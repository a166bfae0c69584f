/**
 * What one connection's input means: the username dialogue, the lines of the
 * message loop up to `/quit`, and what those lines put into the history and
 * onto the sender's own screen. Input is a given sequence of lines; reading
 * the clock is a given function from the number of the line to a time stamp.
 */
module Sessions {
  import opened GoStrings
  import opened Messages

  /** Outcome of getUsername: the name, the input lines it consumed, and what it wrote. */
  datatype Login = Login(username: string, consumed: nat, written: seq<string>)

  /** The prompts and error lines written for `retries` empty answers, then the last prompt. */
  function PromptLog(retries: nat): (r: seq<string>)
    ensures |r| == 2 * retries + 1
    ensures r[|r| - 1] == UsernamePrompt
  {
    if retries == 0 then [UsernamePrompt]
    else [UsernamePrompt, EmptyUsernameError] + PromptLog(retries - 1)
  }

  /**
   * getUsername: prompts, and re-prompts after every empty line; returns the
   * first line that is not exactly "", or "unknown" when the input ends first.
   */
  function GetUsername(lines: seq<string>): (r: Login)
    ensures r.consumed <= |lines|
    ensures (exists i :: 0 <= i < |lines| && lines[i] != "") ==>
      && 0 < r.consumed
      && r.username == lines[r.consumed - 1] && r.username != ""
      && (forall i :: 0 <= i < r.consumed - 1 ==> lines[i] == "")
      && r.written == PromptLog(r.consumed - 1)
  {
    if |lines| == 0 then Login("unknown", 0, [UsernamePrompt])
    else if lines[0] == "" then
      var rest := GetUsername(lines[1..]);
      assert (exists i :: 0 <= i < |lines| && lines[i] != "") ==>
        (exists i :: 0 <= i < |lines[1..]| && lines[1..][i] != "");
      Login(rest.username, rest.consumed + 1, [UsernamePrompt, EmptyUsernameError] + rest.written)
    else Login(lines[0], 1, [UsernamePrompt])
  }

  /** When the input ends before a non-empty line, the name is "unknown" and every line was answered with a retry. */
  lemma {:induction false} GetUsernameAtEnd(lines: seq<string>)
    requires forall i :: 0 <= i < |lines| ==> lines[i] == ""
    ensures GetUsername(lines) == Login("unknown", |lines|, PromptLog(|lines|))
  {
    if lines != [] {
      assert forall i :: 0 <= i < |lines[1..]| ==> lines[1..][i] == lines[i + 1];
      GetUsernameAtEnd(lines[1..]);
    }
  }

  /** The username is never empty, and a name made of spaces only is kept as typed. */
  lemma UsernameNeverEmpty(lines: seq<string>)
    ensures GetUsername(lines).username != ""
    ensures GetUsername(["", "  ", "bob"]).username == "  "
  {
    if forall i :: 0 <= i < |lines| ==> lines[i] == "" {
      GetUsernameAtEnd(lines);
    }
  }

  /** Index of the first `/quit` line, or the number of lines when there is none. */
  function QuitIndex(lines: seq<string>): (r: nat)
    ensures r <= |lines|
    ensures forall i :: 0 <= i < r ==> !IsQuit(lines[i])
    ensures r < |lines| ==> IsQuit(lines[r])
  {
    if lines == [] then 0
    else if IsQuit(lines[0]) then 0
    else 1 + QuitIndex(lines[1..])
  }

  /** A line before the first `/quit` that is not itself `/quit` is not the last one before it. */
  lemma QuitIndexBelow(lines: seq<string>, k: nat)
    requires k < |lines| && k <= QuitIndex(lines) && !IsQuit(lines[k])
    ensures k + 1 <= QuitIndex(lines)
  {
  }

  /** What one message-loop line adds to the history and to every other client. */
  ghost function ChatEntry(username: string, stamp: string, text: string): seq<string> {
    if IsBlank(text) then [] else [ChatLine(stamp, username, text)]
  }

  /** What one message-loop line shows on the sender's own screen. */
  ghost function SenderEcho(username: string, stamp: string, text: string): seq<string> {
    if IsBlank(text) then [EmptyHeader(stamp, username)] else [ChatLine(stamp, username, text)]
  }

  /** History entries produced by `lines`, where line `i` is stamped `clock(i)`. */
  ghost function ChatEntries(username: string, lines: seq<string>, clock: nat -> string): seq<string>
    decreases |lines|
  {
    if lines == [] then []
    else
      var n := |lines| - 1;
      ChatEntries(username, lines[..n], clock) + ChatEntry(username, clock(n), lines[n])
  }

  /** The sender's own view of `lines`, where line `i` is stamped `clock(i)`. */
  ghost function SenderEchoes(username: string, lines: seq<string>, clock: nat -> string): seq<string>
    decreases |lines|
  {
    if lines == [] then []
    else
      var n := |lines| - 1;
      SenderEchoes(username, lines[..n], clock) + SenderEcho(username, clock(n), lines[n])
  }

  /** One more line of the message loop extends both views by that line's contribution. */
  lemma ChatStep(username: string, lines: seq<string>, clock: nat -> string, k: nat)
    requires k < |lines|
    ensures ChatEntries(username, lines[..k + 1], clock)
         == ChatEntries(username, lines[..k], clock) + ChatEntry(username, clock(k), lines[k])
    ensures SenderEchoes(username, lines[..k + 1], clock)
         == SenderEchoes(username, lines[..k], clock) + SenderEcho(username, clock(k), lines[k])
  {
    assert lines[..k + 1][..k] == lines[..k];
    assert lines[..k + 1][k] == lines[k];
  }

  /** The sender sees exactly one line per line it typed. */
  lemma {:induction false} SenderEchoesOnePerLine(username: string, lines: seq<string>, clock: nat -> string)
    ensures |SenderEchoes(username, lines, clock)| == |lines|
    decreases |lines|
  {
    if lines != [] {
      SenderEchoesOnePerLine(username, lines[..|lines| - 1], clock);
    }
  }

  /** Blank lines contribute nothing to the history; other lines contribute their own echo. */
  lemma {:induction false} ChatEntriesFilterBlank(username: string, lines: seq<string>, clock: nat -> string)
    ensures (forall i :: 0 <= i < |lines| ==> IsBlank(lines[i])) ==> ChatEntries(username, lines, clock) == []
    ensures (forall i :: 0 <= i < |lines| ==> !IsBlank(lines[i])) ==>
      ChatEntries(username, lines, clock) == SenderEchoes(username, lines, clock)
    ensures |ChatEntries(username, lines, clock)| <= |lines|
    decreases |lines|
  {
    if lines != [] {
      var n := |lines| - 1;
      ChatEntriesFilterBlank(username, lines[..n], clock);
      assert forall i :: 0 <= i < n ==> lines[..n][i] == lines[i];
    }
  }

  /**
   * The history entries of a session are exactly the chat lines of its
   * non-blank lines: every entry comes from a non-blank line, and every
   * non-blank line is in the history.
   */
  lemma {:induction false} ChatEntriesAreNonBlankLines(username: string, lines: seq<string>, clock: nat -> string)
    ensures forall e :: e in ChatEntries(username, lines, clock) ==>
      exists i :: 0 <= i < |lines| && !IsBlank(lines[i]) && e == ChatLine(clock(i), username, lines[i])
    ensures forall i :: 0 <= i < |lines| && !IsBlank(lines[i]) ==>
      ChatLine(clock(i), username, lines[i]) in ChatEntries(username, lines, clock)
    decreases |lines|
  {
    if lines != [] {
      var n := |lines| - 1;
      var front := lines[..n];
      ChatEntriesAreNonBlankLines(username, front, clock);
      forall e | e in ChatEntries(username, lines, clock)
        ensures exists i :: 0 <= i < |lines| && !IsBlank(lines[i]) && e == ChatLine(clock(i), username, lines[i])
      {
        if e in ChatEntries(username, front, clock) {
          var i :| 0 <= i < n && !IsBlank(front[i]) && e == ChatLine(clock(i), username, front[i]);
          assert front[i] == lines[i];
        } else {
          assert e in ChatEntry(username, clock(n), lines[n]);
        }
      }
      forall i | 0 <= i < |lines| && !IsBlank(lines[i])
        ensures ChatLine(clock(i), username, lines[i]) in ChatEntries(username, lines, clock)
      {
        if i < n {
          assert front[i] == lines[i];
        }
      }
    }
  }

  /** Chat lines are never join or leave notices. */
  lemma {:induction false} ChatEntriesHaveNoNotice(username: string, lines: seq<string>, clock: nat -> string, who: string)
    ensures JoinNotice(who) !in ChatEntries(username, lines, clock)
    ensures LeaveNotice(who) !in ChatEntries(username, lines, clock)
    decreases |lines|
  {
    if lines != [] {
      var n := |lines| - 1;
      ChatEntriesHaveNoNotice(username, lines[..n], clock, who);
      EntryKindsDistinct(who, username, clock(n), lines[n]);
    }
  }

  /** The message-loop lines of a session: after the username, before the first `/quit`. */
  function SpokenLines(input: seq<string>): (r: seq<string>)
    ensures forall i :: 0 <= i < |r| ==> !IsQuit(r[i])
  {
    var rest := input[GetUsername(input).consumed..];
    rest[..QuitIndex(rest)]
  }

  /** What a session of `username` that typed `spoken` adds to the history. */
  ghost function Transcript(username: string, spoken: seq<string>, clock: nat -> string): seq<string> {
    [JoinNotice(username)] + ChatEntries(username, spoken, clock) + [LeaveNotice(username)]
  }

  /** What a whole session on `input` adds to the history: join notice, chat lines, leave notice. */
  ghost function SessionTranscript(input: seq<string>, clock: nat -> string): seq<string> {
    Transcript(GetUsername(input).username, SpokenLines(input), clock)
  }

  /** A session announces its join exactly once and its leave exactly once. */
  lemma OneJoinOneLeave(input: seq<string>, clock: nat -> string)
    ensures var name := GetUsername(input).username;
      && multiset(SessionTranscript(input, clock))[JoinNotice(name)] == 1
      && multiset(SessionTranscript(input, clock))[LeaveNotice(name)] == 1
  {
    var name := GetUsername(input).username;
    var chat := ChatEntries(name, SpokenLines(input), clock);
    ChatEntriesHaveNoNotice(name, SpokenLines(input), clock, name);
    EntryKindsDistinct(name, name, "", "");
    assert multiset(chat)[JoinNotice(name)] == 0 && multiset(chat)[LeaveNotice(name)] == 0;
  }
}
