# net-cat chat server core in Dafny

This project models the sequential core of `net-cat`, a TCP chat server written
in Go (`main.go`). The server keeps three pieces of shared state:

- the registry `clients`, an ordered list of connected clients;
- the append-only `chatHistory`, replayed to every newcomer;
- the admission counter `activeClients`, which is capped at `maxClients = 10`.

Each client also has a buffered writer. The model represents it as a per-client
output log: the list of strings written to that client, in order.

The model has five modules, layered as follows:

- `GoStrings` (`go_strings.dfy`) models the parts of Go's `strings` package that
  the server calls: `TrimSpace` (with `unicode.IsSpace`), `ToLower` and `ReplaceAll`.
- `Messages` (`messages.dfy`) holds every text the server writes. This covers the
  join, leave and chat lines, the username prompt and its error
  (`UsernamePrompt` and `EmptyUsernameError`, written at main.go:139 and 145), and
  the "server full" line (`ServerFull`, written at main.go:73). The ANSI colour escapes are written out literally. The
  module also holds `formatWelcomeMessage`, the banner writer and the `/quit` test.
- `Registry` (`registry.dfy`) gives the reference definition of removing a client
  (`RemoveFirst`: drop the first equal entry, keep the rest in order) and the
  lemmas about it.
- `Sessions` (`sessions.dfy`) says what one connection's input means. Input is a
  sequence of lines. It covers `getUsername` as a recursive function, the message
  loop up to the first `/quit`, and what those lines add to the history and to
  the sender's own screen.
- `Server` (`server.dfy`) is the class `ChatServer`. Its fields are `clients`,
  `chatHistory`, `activeClients` and the output logs. Each mutex-guarded region
  of the Go program becomes one atomic method. Each method's postconditions say
  how the registry, the history, the counter and the output logs change, and
  which of them stay as they were. `Valid()` is the invariant every method keeps:
  no client is registered twice, and `|clients| <= activeClients <= MaxClients`.

`scenarios.dfy` holds three short runs, checked from the operations' contracts alone:

- On any server, a client speaks and then a newcomer joins. The newcomer is
  replayed the whole earlier history, ending with that line, and then sees its
  own join notice.
- On any server with two registered clients, one of them types `/QUIT`. Nothing is
  sent for it, and the other client receives exactly one leave notice and stays
  registered.
- On a fresh server, ten connections are admitted and the eleventh is refused.

Client identity: a Go client is a pointer, and the registry compares pointers.
The model's `Client(conn, username)` carries `conn` as that identity. Every
method that creates a client requires a `conn` that no registered client uses.

Clock: each chat line asks `time.Now` for a time stamp. The model takes the clock
as a function `clock: nat -> string`, where `clock(i)` is the stamp read for
message-loop line `i`.

Four behaviours of the code are easy to miss, and the model keeps them:

- `broadcastMessage` only writes to clients. Its callers (`notifyJoin`,
  `notifyLeave`, `sendMessage`) append to the history afterwards, in a separate
  step.
- A newcomer is registered before the join broadcast and before the replay. The
  broadcast skips the newcomer, and the replay is sent afterwards, so the
  newcomer sees its own join notice exactly once, as the last replayed entry.
- A blank chat line is not silently ignored: the sender gets an empty
  `[stamp][name]:` header.
- Only the exact empty string is refused as a username. A name made only of
  spaces is accepted. If input ends first, the name is `"unknown"`.

## Model

| member | source | states |
|---|---|---|
| `Server.ChatServer.constructor` | main.go:24-30 | the server starts with an empty registry, an empty history, a zero counter and empty output logs |
| `Server.ChatServer.Admit` | main.go:72-79 | a connection is admitted exactly when fewer than MaxClients are active; only then does the counter go up by one; a rejected connection gets only the "Maximum number of clients reached" line; registry, history and logs are untouched |
| `Server.ChatServer.Register` | main.go:108-110 | the new client is appended at the end of the registry; nothing else changes and no client appears twice |
| `Server.ChatServer.RemoveClient` | main.go:263-270 | the registry becomes RemoveFirst of the old one: it is unchanged if `c` is absent, otherwise exactly one entry is gone, `c` is no longer present and the rest keep their order; history, counter and logs are untouched |
| `Server.ChatServer.BroadcastMessage` | main.go:233-243 | every registered client other than the sender (all clients when there is no sender) gets the message exactly once at the end of its log; every other log, the registry, the history and the counter are unchanged |
| `Server.ChatServer.SendChatHistory` | main.go:245-253 | the target's log grows by the whole history in stored order; no other log changes, and neither do the history nor the registry |
| `Server.ChatServer.NotifyJoin` | main.go:154-160 | the join notice reaches every registered client except the joiner, and the history grows by exactly that notice |
| `Server.ChatServer.NotifyLeave` | main.go:162-168 | the leave notice reaches every registered client, and the history grows by exactly that notice |
| `Server.ChatServer.SendMessage` | main.go:170-190 | a blank line gives only the sender an empty header, with no broadcast and no change to the history; any other line reaches every other registered client once, reaches the sender exactly once and is appended once to the history |
| `Server.ChatServer.Join` | main.go:101-114 | after registering, announcing and replaying, the newcomer's log holds the earlier history followed by its own join notice; earlier clients get the notice once; the history grows by that notice |
| `Server.ChatServer.ChatTurn` | main.go:117-124 | one turn of the loop hands one line to sendMessage, and the loop's relation between the lines handled so far, the history and the logs moves on by that line |
| `Server.ChatServer.MessageLoop` | main.go:116-125 | the loop stops at the first `/quit`, which is never sent; the history and each other registered client receive the chat lines of the lines before it; the sender receives one echo per line |
| `Server.ChatServer.Leave` | main.go:127-135 | the client is no longer registered; exactly one leave notice goes to each client still registered and onto the history; the counter drops by one |
| `Server.ChatServer.JoinAndChat` | main.go:108-125 | after joining and chatting, the newcomer is the last registered client, and earlier clients have seen exactly what the history gained |
| `Server.ChatServer.RunSession` | main.go:108-135 | a whole session leaves the registry as it was and lowers the counter by one; every other client sees exactly the session's transcript (join notice, chat lines, leave notice), which is also what the history gains |
| `Server.ChatServer.HandleConnection` | main.go:98-136 | what goes to the raw connection is the decorated banner followed by the username dialogue; the rest is as stated for RunSession, on the lines after the username |
| `Server.Welcome` | main.go:199-212 | the banner as sent: one decorated line, ending in a newline, per banner line, in order |
| `Messages.SendWelcomeMessage` | main.go:192-218 | the loop writes, in file order, each banner line decorated by formatWelcomeMessage and followed by a newline |
| `Messages.FormatWelcomeMessage` | main.go:220-231 | every decorated line starts with the bold-white-on-black opening and ends with the colour reset |
| `Messages.FormatPlainWelcome` | main.go:220-231 | a line without `[` is only framed |
| `Messages.OrangeOpenPass` | main.go:224 | in a line holding one `[orange]...[/orange]` span and no other tag start, the first replacement turns `[orange]` into the orange escape and leaves the rest, including the closing tag, as it is |
| `Messages.OrangeClosePass` | main.go:225 | after the first pass, the second replacement turns `[/orange]` into a reset plus the banner colours, and does not touch the orange escape or the text around the span |
| `Messages.FormatOrangeSpan` | main.go:220-231 | a line `u[orange]text[/orange]w` whose parts hold no `[` becomes the opening, `u`, the orange `text`, the return to banner colours, `w`, then the reset |
| `Messages.JoinNotice` | main.go:155 | reference definition of the join notice: green bold, the username, " has joined the chat", the colour reset and a newline |
| `Messages.LeaveNotice` | main.go:163 | reference definition of the leave notice: red bold, the username, " has left the chat", the colour reset and a newline |
| `Messages.ChatLine` | main.go:180 | reference definition of a chat line: cyan, `[stamp][username]: `, the text, the colour reset and a newline |
| `Messages.EmptyHeader` | main.go:175 | reference definition of the header echoed for a blank line: cyan, `[stamp][username]:`, the colour reset and a newline |
| `Messages.JoinNoticeInjective` | main.go:155 | the username can be recovered from a join notice |
| `Messages.LeaveNoticeInjective` | main.go:163 | the username can be recovered from a leave notice |
| `Messages.EntryKindsDistinct` | main.go:154-190 | join notices, leave notices and chat lines never coincide |
| `Messages.IsQuit` | main.go:120 | reference definition of the quit test: the lower-cased line is exactly `/quit` |
| `Messages.IsQuitIff` | main.go:120 | the lines that end a session are exactly `/quit` in any letter case (with `İ` also lower-casing to `i`) |
| `GoStrings.IsSpace` | main.go:173 | reference definition of `unicode.IsSpace`: tab, line feed, vertical tab, form feed, carriage return, space, U+0085, U+00A0 and the other Unicode White_Space runes |
| `GoStrings.IsBlank` | main.go:173 | reference definition of a blank line: every rune is white space |
| `GoStrings.TrimSpace` | main.go:173 | the leading white space is dropped, then the trailing; the result is no longer than the input and neither starts nor ends with white space |
| `GoStrings.TrimLeftSpace` | main.go:173 | the result is the suffix of the input that starts at the first non-space rune |
| `GoStrings.TrimRightSpace` | main.go:173 | the result is the prefix of the input that ends at the last non-space rune |
| `GoStrings.TrimSpaceEmptyIffBlank` | main.go:173 | `strings.TrimSpace(m) == ""` holds exactly when every rune of `m` is white space |
| `GoStrings.ToLower` | main.go:120 | each rune is lower-cased on its own, and the length is kept |
| `GoStrings.LowerRuneIs` | main.go:120 | the runes that lower-case to `/`, `q`, `u`, `i` or `t` |
| `GoStrings.ReplaceAll` | main.go:224-225 | reference definition of `strings.ReplaceAll` for a non-empty pattern: a left-to-right scan replacing each leftmost non-overlapping occurrence |
| `GoStrings.ReplaceAllLeading` | main.go:224-225 | a leading occurrence of the pattern is replaced, and scanning resumes after it |
| `GoStrings.ReplaceAllSkips` | main.go:224-225 | a stretch where no occurrence can begin is copied unchanged, and the scan resumes after it |
| `GoStrings.ReplaceAllLeadingOnly` | main.go:224-225 | a leading occurrence followed by a stretch where none can begin: only that occurrence is replaced |
| `GoStrings.ReplaceAllOne` | main.go:224-225 | a single occurrence with none around it is replaced, and the text on both sides is copied |
| `GoStrings.ReplaceAllFirstOfFive` | main.go:224 | the opening tag is replaced in a line where it is the only occurrence, even with the closing tag after it |
| `GoStrings.ReplaceAllFourthOfFive` | main.go:225 | the closing tag is replaced in a line where it is the only occurrence, even with the orange escape before it |
| `GoStrings.NoMatchStartAppend` | main.go:224-225 | joining two stretches in which no occurrence can begin gives another such stretch |
| `GoStrings.ReplaceAllNoOccurrence` | main.go:224-225 | a string in which the pattern never occurs is returned unchanged |
| `GoStrings.ReplaceAllShort` | main.go:224-225 | a string shorter than the pattern is unchanged |
| `Registry.RemoveFirst` | main.go:263-270 | reference definition of removeClient's loop: the first entry equal to the client is dropped and the others keep their order |
| `Registry.RemoveFirstAbsent` | main.go:263-270 | removing an absent client leaves the registry unchanged |
| `Registry.RemoveFirstAt` | main.go:263-270 | removal cuts out exactly the first matching position, as the splice at line 266 does |
| `Registry.RemoveFirstMultiset` | main.go:263-270 | removal takes away exactly one copy of the client and nothing else |
| `Registry.CutDistinct` | main.go:266 | cutting one position out of a duplicate-free list keeps it duplicate-free and removes just that element |
| `Registry.RemoveFirstDistinct` | main.go:263-270 | on a duplicate-free registry, removal leaves the client absent, keeps every other client, shortens the list by one exactly when the client was present, and keeps the list duplicate-free |
| `Registry.DistinctAppend` | main.go:109 | appending a client that is not yet registered keeps the registry duplicate-free |
| `Registry.RemoveFirstAppended` | main.go:109 | removing the client that was just appended restores the earlier registry |
| `Sessions.PromptLog` | main.go:139-146 | the connection sees one prompt and error pair per empty answer, then a final prompt |
| `Sessions.GetUsername` | main.go:138-152 | when some line is not exactly `""`, the name is the first such line; it is reached after consuming exactly the empty lines before it, and the connection sees one prompt and one error per empty line, then a last prompt |
| `Sessions.GetUsernameAtEnd` | main.go:138-151 | when the input ends before a non-empty line, the name is `"unknown"`, every line has been consumed, and each of them was answered with a prompt and an error, followed by a last prompt |
| `Sessions.UsernameNeverEmpty` | main.go:142-151 | the name is never empty; one example input (`""`, `"  "`, `"bob"`) shows that a name of spaces only is accepted as typed |
| `Sessions.QuitIndex` | main.go:117-122 | gives the first line whose lower case is `/quit` (or the number of lines when there is none); no earlier line is a quit line |
| `Sessions.QuitIndexBelow` | main.go:117-122 | a line before the quit line that is not itself a quit line does not end the loop |
| `Sessions.ChatStep` | main.go:117-125 | each loop iteration extends the history's view and the sender's view by that line's contribution |
| `Sessions.SenderEchoesOnePerLine` | main.go:173-185 | the sender sees exactly one line per line it typed |
| `Sessions.ChatEntriesFilterBlank` | main.go:173-189 | a run of only blank lines adds nothing to the history; without blank lines, the history gains exactly what the sender saw; the history grows by at most one entry per line |
| `Sessions.ChatEntriesAreNonBlankLines` | main.go:173-189 | for any mix of lines, every history entry is the chat line of some non-blank line, stamped with that line's time, and every non-blank line's chat line is in the history, so blank lines never reach it |
| `Sessions.ChatEntriesHaveNoNotice` | main.go:155-188 | chat lines are never join notices or leave notices |
| `Sessions.SpokenLines` | main.go:116-122 | the lines handed to sendMessage come after the username and contain no quit line |
| `Sessions.OneJoinOneLeave` | main.go:112-133 | a session's transcript holds its join notice exactly once and its leave notice exactly once |

## Left out

- Goroutines, `sync.Mutex` and interleavings are not modelled. Each locked region is one atomic method.
- notifyJoin and notifyLeave each take the lock twice (main.go:156-158, 164-166), so another session could act between the broadcast and the history append. The model does not capture that window.
- `activeClients` is read and written without the lock (main.go:72, 78, 135). The resulting races are not modelled.
- HandleConnection runs a whole session without any other session in between. Interleaved sessions can only be built from the phase methods (`Join`, `MessageLoop`, `Leave`) at method granularity.
- Socket I/O is reduced to logs: `net.Listen`, `Accept`, `conn.Close` and the writes are not modelled.
- Write and flush errors are not modelled; every write succeeds. Writes made straight to the connection are returned as `greeting` or `reply`.
- Scanner read errors and the scanner's maximum line length are not modelled. Input is a finite sequence of lines, and end of input is its end.
- Each getUsername call, and the message loop, makes its own `bufio.Scanner` on the connection (main.go:141, 116). A scanner can read past the line it returns, and that read-ahead is lost. The model hands every line after the username to the message loop.
- `getIPv4Address` (main.go:83-96) is not modelled: it depends on the operating system's network interfaces.
- Clipboard and readline setup (main.go:55-61) are not modelled: they are foreign calls.
- Port parsing from `os.Args` (main.go:33-40) and the log output are not modelled: they are process I/O.
- Reading `Welcome.txt` (main.go:193-217) is file I/O. The banner is given as its lines. A file that cannot be opened is an empty banner. An error in the middle of the banner is not modelled.
- `getTimeStamp` (main.go:272-274) reads the clock. The model takes a clock function as a parameter and does not model the stamp format.
- The commented-out join re-announcement (main.go:254-260) is dead code and is not modelled.
- GoStrings.ToLower: only the runes whose lower case is an ASCII character are mapped (A-Z, U+0130, U+212A); every other rune is kept as it is. This gives exactly Go's answer for the `/quit` comparison, the only use, but it is not a full Unicode lower-casing.
- GoStrings.ReplaceAll: only non-empty patterns are modelled, since the source calls it only with fixed non-empty tags. Go's behaviour for an empty pattern is left out.
- Strings are sequences of Unicode scalar values, so Go's handling of invalid UTF-8 in `TrimSpace` and `ToLower` is not modelled.
