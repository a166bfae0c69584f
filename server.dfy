/**
 * The chat server's shared state and the operations that change it. Every
 * mutex-guarded region of the server becomes one method, run atomically.
 */
module Server {
  import opened GoStrings
  import opened Messages
  import opened Registry
  import opened Sessions

  /** The admission ceiling. */
  const MaxClients: nat := 10

  /**
   * A connected client. `conn` stands for the connection (the identity the
   * registry compares); `username` is fixed once the client is created.
   */
  datatype Client = Client(conn: nat, username: string)

  /** An optional client: the sender a broadcast skips, or none. */
  datatype Sender = Nobody | Skip(client: Client)

  /** The log of `c` in a table of output logs; a client never written to has an empty log. */
  function LogOf(logs: map<Client, seq<string>>, c: Client): seq<string> {
    if c in logs then logs[c] else []
  }

  /**
   * Proof helper: concatenation of logs is associative. Called once per
   * client where a log grows by several entries, so that the solver does not
   * search for the regrouping inside per-client quantifiers.
   */
  lemma AppendAssoc(a: seq<string>, b: seq<string>, c: seq<string>)
    ensures (a + b) + c == a + (b + c)
  {
  }

  /** Whether a broadcast from `sender` is written to `c`. */
  predicate Receives(c: Client, sender: Sender) {
    sender.Nobody? || c != sender.client
  }

  class ChatServer {
    /** The registry, in registration order. */
    var clients: seq<Client>
    /** Everything replayed to newcomers, in append order. */
    var chatHistory: seq<string>
    /** Admitted connections whose session has not finished. */
    var activeClients: int
    /** What has been written to each client's writer. */
    var outputs: map<Client, seq<string>>

    /**
     * Each client is registered at most once; every registered client holds
     * an admission; admissions never exceed the ceiling.
     */
    ghost predicate Valid()
      reads this
    {
      Distinct(clients) && |clients| <= activeClients <= MaxClients
    }

    /** The output log of one client. */
    function Out(c: Client): seq<string>
      reads this
    {
      LogOf(outputs, c)
    }

    constructor ()
      ensures Valid()
      ensures clients == [] && chatHistory == [] && activeClients == 0
      ensures forall c :: Out(c) == []
    {
      clients := [];
      chatHistory := [];
      activeClients := 0;
      outputs := map[];
    }

    /**
     * The admission check of the accept loop: admits and counts a connection
     * only while fewer than MaxClients are active; otherwise the connection
     * is only told that the server is full.
     */
    method Admit() returns (admitted: bool, reply: seq<string>)
      requires Valid()
      modifies this
      ensures Valid()
      ensures admitted <==> old(activeClients) < MaxClients
      ensures activeClients == old(activeClients) + (if admitted then 1 else 0)
      ensures reply == if admitted then [] else [ServerFull]
      ensures clients == old(clients) && chatHistory == old(chatHistory) && outputs == old(outputs)
    {
      if activeClients >= MaxClients {
        return false, [ServerFull];
      }
      activeClients := activeClients + 1;
      return true, [];
    }

    /** Appends a new client, holding an admission not yet used, to the registry. */
    method Register(c: Client)
      requires Valid()
      requires c !in clients && |clients| < activeClients
      modifies this
      ensures Valid()
      ensures clients == old(clients) + [c]
      ensures chatHistory == old(chatHistory) && activeClients == old(activeClients) && outputs == old(outputs)
    {
      DistinctAppend(clients, c);
      clients := clients + [c];
    }

    /** removeClient: drops the first registry entry equal to `c`, by linear scan. */
    method RemoveClient(c: Client)
      requires Valid()
      modifies this
      ensures Valid()
      ensures clients == RemoveFirst(old(clients), c)
      ensures c in old(clients) ==> |clients| == |old(clients)| - 1
      ensures c !in clients
      ensures forall d :: d in clients <==> d in old(clients) && d != c
      ensures chatHistory == old(chatHistory) && activeClients == old(activeClients) && outputs == old(outputs)
    {
      RemoveFirstDistinct(clients, c);
      var i := 0;
      while i < |clients|
        invariant 0 <= i <= |clients|
        invariant c !in clients[..i]
        invariant clients == old(clients)
      {
        if clients[i] == c {
          RemoveFirstAt(clients, c, i);
          clients := clients[..i] + clients[i + 1..];
          return;
        }
        assert clients[..i + 1] == clients[..i] + [clients[i]];
        i := i + 1;
      }
      assert clients[..i] == clients;
      RemoveFirstAbsent(clients, c);
    }

    /**
     * broadcastMessage: writes `message` once to every registered client
     * except the sender, or to all of them when there is no sender.
     */
    method BroadcastMessage(sender: Sender, message: string)
      requires Valid()
      modifies this
      ensures Valid()
      ensures clients == old(clients) && chatHistory == old(chatHistory) && activeClients == old(activeClients)
      ensures forall c :: Out(c) == old(Out(c)) + (if c in clients && Receives(c, sender) then [message] else [])
    {
      var i := 0;
      while i < |clients|
        invariant 0 <= i <= |clients|
        invariant clients == old(clients) && chatHistory == old(chatHistory) && activeClients == old(activeClients)
        invariant forall c :: Out(c) == old(Out(c)) + (if c in clients[..i] && Receives(c, sender) then [message] else [])
      {
        var c := clients[i];
        assert c !in clients[..i];
        if sender.Nobody? || c != sender.client {
          outputs := outputs[c := Out(c) + [message]];
        }
        assert clients[..i + 1] == clients[..i] + [c];
        i := i + 1;
      }
      assert clients[..i] == clients;
    }

    /** sendChatHistory: writes the whole history, in stored order, to `c` alone. */
    method SendChatHistory(c: Client)
      requires Valid()
      modifies this
      ensures Valid()
      ensures clients == old(clients) && chatHistory == old(chatHistory) && activeClients == old(activeClients)
      ensures Out(c) == old(Out(c)) + chatHistory
      ensures forall d :: d != c ==> Out(d) == old(Out(d))
    {
      var i := 0;
      while i < |chatHistory|
        invariant 0 <= i <= |chatHistory|
        invariant clients == old(clients) && chatHistory == old(chatHistory) && activeClients == old(activeClients)
        invariant Out(c) == old(Out(c)) + chatHistory[..i]
        invariant forall d :: d != c ==> Out(d) == old(Out(d))
      {
        assert chatHistory[..i + 1] == chatHistory[..i] + [chatHistory[i]];
        outputs := outputs[c := Out(c) + [chatHistory[i]]];
        i := i + 1;
      }
      assert chatHistory[..i] == chatHistory;
    }

    /** notifyJoin: the join notice goes to everyone but `c`, then into the history. */
    method NotifyJoin(c: Client)
      requires Valid()
      modifies this
      ensures Valid()
      ensures clients == old(clients) && activeClients == old(activeClients)
      ensures chatHistory == old(chatHistory) + [JoinNotice(c.username)]
      ensures forall d :: Out(d) == old(Out(d)) + (if d in clients && d != c then [JoinNotice(c.username)] else [])
    {
      var message := JoinNotice(c.username);
      BroadcastMessage(Skip(c), message);
      chatHistory := chatHistory + [message];
    }

    /** notifyLeave: the leave notice goes to every registered client, then into the history. */
    method NotifyLeave(c: Client)
      requires Valid()
      modifies this
      ensures Valid()
      ensures clients == old(clients) && activeClients == old(activeClients)
      ensures chatHistory == old(chatHistory) + [LeaveNotice(c.username)]
      ensures forall d :: Out(d) == old(Out(d)) + (if d in clients then [LeaveNotice(c.username)] else [])
    {
      var message := LeaveNotice(c.username);
      BroadcastMessage(Nobody, message);
      chatHistory := chatHistory + [message];
    }

    /**
     * sendMessage: a blank line only gives the sender an empty header; any
     * other line goes once to every other registered client, once to the
     * sender by its own writer, and once onto the end of the history.
     */
    method SendMessage(sender: Client, stamp: string, message: string)
      requires Valid()
      modifies this
      ensures Valid()
      ensures clients == old(clients) && activeClients == old(activeClients)
      ensures chatHistory == old(chatHistory) + ChatEntry(sender.username, stamp, message)
      ensures Out(sender) == old(Out(sender)) + SenderEcho(sender.username, stamp, message)
      ensures forall d :: d != sender ==>
        Out(d) == old(Out(d)) + (if d in clients then ChatEntry(sender.username, stamp, message) else [])
    {
      var blank := TrimSpace(message) == "";
      TrimSpaceEmptyIffBlank(message);
      ghost var entry := ChatEntry(sender.username, stamp, message);
      ghost var before := outputs;
      if blank {
        var header := EmptyHeader(stamp, sender.username);
        assert entry == [];
        outputs := outputs[sender := Out(sender) + [header]];
        assert chatHistory == old(chatHistory) + entry;
        forall d | d != sender
          ensures Out(d) == old(Out(d)) + (if d in clients then entry else [])
        {
          assert Out(d) == LogOf(before, d) + [];
        }
      } else {
        var line := ChatLine(stamp, sender.username, message);
        assert entry == [line];
        BroadcastMessage(Skip(sender), line);
        ghost var mid := outputs;
        assert LogOf(mid, sender) == LogOf(before, sender) by {
          assert !Receives(sender, Skip(sender));
        }
        outputs := outputs[sender := Out(sender) + [line]];
        chatHistory := chatHistory + [line];
        forall d | d != sender
          ensures Out(d) == old(Out(d)) + (if d in clients then entry else [])
        {
          assert Out(d) == LogOf(mid, d);
          assert Receives(d, Skip(sender));
        }
      }
    }

    /**
     * The join phase of handleConnection: register, announce, replay. The
     * newcomer receives the earlier history followed by its own join notice.
     */
    method Join(conn: nat, username: string) returns (c: Client)
      requires Valid()
      requires |clients| < activeClients
      requires forall d :: d in clients ==> d.conn != conn
      modifies this
      ensures Valid()
      ensures c == Client(conn, username)
      ensures clients == old(clients) + [c] && activeClients == old(activeClients)
      ensures chatHistory == old(chatHistory) + [JoinNotice(username)]
      ensures Out(c) == old(Out(c)) + old(chatHistory) + [JoinNotice(username)]
      ensures forall d :: d != c ==> Out(d) == old(Out(d)) + (if d in old(clients) then [JoinNotice(username)] else [])
    {
      c := Client(conn, username);
      Register(c);
      NotifyJoin(c);
      SendChatHistory(c);
    }

    /**
     * The state after the message loop of `c` has handled the first `n` lines,
     * starting from `registered`, `history` and `logs`.
     */
    ghost predicate ChattedSoFar(c: Client, lines: seq<string>, clock: nat -> string, n: nat,
                                 registered: seq<Client>, history: seq<string>, logs: map<Client, seq<string>>)
      requires n <= |lines|
      reads this
    {
      && clients == registered
      && chatHistory == history + ChatEntries(c.username, lines[..n], clock)
      && Out(c) == LogOf(logs, c) + SenderEchoes(c.username, lines[..n], clock)
      && forall d :: d != c ==>
           Out(d) == LogOf(logs, d) + (if d in clients then ChatEntries(c.username, lines[..n], clock) else [])
    }

    /** One turn of the message loop: line `n` goes through sendMessage. */
    method ChatTurn(c: Client, lines: seq<string>, clock: nat -> string, n: nat,
                    ghost registered: seq<Client>, ghost history: seq<string>, ghost logs: map<Client, seq<string>>)
      requires Valid()
      requires n < |lines|
      requires ChattedSoFar(c, lines, clock, n, registered, history, logs)
      modifies this
      ensures Valid() && activeClients == old(activeClients)
      ensures ChattedSoFar(c, lines, clock, n + 1, registered, history, logs)
    {
      ghost var before, done := outputs, ChatEntries(c.username, lines[..n], clock);
      ghost var echoed := SenderEchoes(c.username, lines[..n], clock);
      SendMessage(c, clock(n), lines[n]);
      ghost var entry := ChatEntry(c.username, clock(n), lines[n]);
      ghost var echo := SenderEcho(c.username, clock(n), lines[n]);
      ChatStep(c.username, lines, clock, n);
      AppendAssoc(history, done, entry);
      AppendAssoc(LogOf(logs, c), echoed, echo);
      forall d | d != c
        ensures Out(d) == LogOf(logs, d) + (if d in clients then ChatEntries(c.username, lines[..n + 1], clock) else [])
      {
        if d in clients {
          AppendAssoc(LogOf(logs, d), done, entry);
        } else {
          assert Out(d) == LogOf(before, d) + [];
        }
      }
    }

    /**
     * The message loop of handleConnection: every line before the first
     * `/quit` goes through sendMessage with the clock read for it; the quit
     * line and anything after it are not sent.
     */
    method MessageLoop(c: Client, lines: seq<string>, clock: nat -> string) returns (handled: nat)
      requires Valid()
      modifies this
      ensures Valid()
      ensures handled == QuitIndex(lines)
      ensures clients == old(clients) && activeClients == old(activeClients)
      ensures chatHistory == old(chatHistory) + ChatEntries(c.username, lines[..handled], clock)
      ensures Out(c) == old(Out(c)) + SenderEchoes(c.username, lines[..handled], clock)
      ensures forall d :: d != c ==>
        Out(d) == old(Out(d)) + (if d in clients then ChatEntries(c.username, lines[..handled], clock) else [])
    {
      ghost var registered, history, logs := clients, chatHistory, outputs;
      handled := 0;
      while handled < |lines| && !IsQuit(lines[handled])
        invariant 0 <= handled <= QuitIndex(lines)
        invariant Valid() && activeClients == old(activeClients)
        invariant ChattedSoFar(c, lines, clock, handled, registered, history, logs)
        decreases |lines| - handled
      {
        QuitIndexBelow(lines, handled);
        ChatTurn(c, lines, clock, handled, registered, history, logs);
        handled := handled + 1;
      }
    }

    /**
     * The leave phase of handleConnection: deregister, announce the leave to
     * everyone still registered, give back the admission.
     */
    method Leave(c: Client)
      requires Valid()
      requires c in clients
      modifies this
      ensures Valid()
      ensures clients == RemoveFirst(old(clients), c) && c !in clients
      ensures activeClients == old(activeClients) - 1
      ensures chatHistory == old(chatHistory) + [LeaveNotice(c.username)]
      ensures forall d :: Out(d) == old(Out(d)) + (if d in clients then [LeaveNotice(c.username)] else [])
    {
      RemoveClient(c);
      NotifyLeave(c);
      activeClients := activeClients - 1;
    }

    /**
     * Join followed by the message loop: the session's client is registered,
     * and both the history and every earlier client have received the join
     * notice and then the session's chat lines.
     */
    method JoinAndChat(conn: nat, username: string, lines: seq<string>, clock: nat -> string)
      returns (c: Client)
      requires Valid()
      requires |clients| < activeClients
      requires forall d :: d in clients ==> d.conn != conn
      modifies this
      ensures Valid()
      ensures c == Client(conn, username) && c !in old(clients)
      ensures clients == old(clients) + [c] && activeClients == old(activeClients)
      ensures var chat := ChatEntries(username, lines[..QuitIndex(lines)], clock);
        && chatHistory == old(chatHistory) + [JoinNotice(username)] + chat
        && forall d :: d in old(clients) ==> Out(d) == old(Out(d)) + [JoinNotice(username)] + chat
      ensures Out(c) == old(Out(c)) + old(chatHistory)
        + [JoinNotice(username)] + SenderEchoes(username, lines[..QuitIndex(lines)], clock)
      ensures forall d :: d !in old(clients) && d != c ==> Out(d) == old(Out(d))
    {
      ghost var registered, logs := clients, outputs;
      c := Join(conn, username);
      ghost var joined := outputs;
      var handled := MessageLoop(c, lines, clock);
      ghost var chat := ChatEntries(username, lines[..handled], clock);
      forall d | d in registered
        ensures Out(d) == LogOf(logs, d) + [JoinNotice(username)] + chat
      {
        assert d != c;
        assert LogOf(joined, d) == LogOf(logs, d) + [JoinNotice(username)];
      }
      forall d | d !in registered && d != c
        ensures Out(d) == LogOf(logs, d)
      {
        assert d !in clients;
        assert LogOf(joined, d) == LogOf(logs, d);
      }
    }

    /**
     * The part of handleConnection after the username is known: join, the
     * message loop over `lines`, leave. Every client registered throughout
     * sees exactly what the session adds to the history; the session's own
     * client sees the earlier history, its join notice and one echo per line
     * it typed, and nobody else is written to.
     */
    method RunSession(conn: nat, username: string, lines: seq<string>, clock: nat -> string)
      requires Valid()
      requires |clients| < activeClients
      requires forall d :: d in clients ==> d.conn != conn
      modifies this
      ensures Valid()
      ensures clients == old(clients) && activeClients == old(activeClients) - 1
      ensures chatHistory == old(chatHistory) + Transcript(username, lines[..QuitIndex(lines)], clock)
      ensures forall d :: d in old(clients) ==>
        Out(d) == old(Out(d)) + Transcript(username, lines[..QuitIndex(lines)], clock)
      ensures Out(Client(conn, username)) == old(Out(Client(conn, username))) + old(chatHistory)
        + [JoinNotice(username)] + SenderEchoes(username, lines[..QuitIndex(lines)], clock)
      ensures forall d :: d !in old(clients) && d != Client(conn, username) ==> Out(d) == old(Out(d))
    {
      ghost var registered, logs, history := clients, outputs, chatHistory;
      ghost var spoken := lines[..QuitIndex(lines)];
      ghost var chat := ChatEntries(username, spoken, clock);
      var c := JoinAndChat(conn, username, lines, clock);
      ghost var spoke := outputs;
      assert chatHistory == history + [JoinNotice(username)] + chat;
      Leave(c);
      RemoveFirstAppended(registered, c);
      assert clients == registered;
      AppendAssoc(history, [JoinNotice(username)], chat);
      AppendAssoc(history, [JoinNotice(username)] + chat, [LeaveNotice(username)]);
      forall d | d in registered
        ensures LogOf(outputs, d) == LogOf(logs, d) + Transcript(username, spoken, clock)
      {
        assert LogOf(spoke, d) == LogOf(logs, d) + [JoinNotice(username)] + chat;
        assert LogOf(outputs, d) == LogOf(spoke, d) + [LeaveNotice(username)];
        AppendAssoc(LogOf(logs, d), [JoinNotice(username)], chat);
        AppendAssoc(LogOf(logs, d), [JoinNotice(username)] + chat, [LeaveNotice(username)]);
      }
      forall d | d !in registered
        ensures LogOf(outputs, d) == LogOf(spoke, d)
      {
        assert d !in clients;
      }
    }

    /**
     * handleConnection for an admitted connection, run to completion with no
     * other session in between: the banner and the username dialogue are
     * written to the connection itself (returned as `greeting`), then the
     * session runs on the lines that follow the username.
     */
    method HandleConnection(conn: nat, banner: seq<string>, input: seq<string>, clock: nat -> string)
      returns (greeting: seq<string>)
      requires Valid()
      requires |clients| < activeClients
      requires forall d :: d in clients ==> d.conn != conn
      modifies this
      ensures Valid()
      ensures greeting == Welcome(banner) + GetUsername(input).written
      ensures clients == old(clients) && activeClients == old(activeClients) - 1
      ensures chatHistory == old(chatHistory) + SessionTranscript(input, clock)
      ensures forall d :: d in old(clients) ==> Out(d) == old(Out(d)) + SessionTranscript(input, clock)
      ensures var me := Client(conn, GetUsername(input).username);
        Out(me) == old(Out(me)) + old(chatHistory) + [JoinNotice(me.username)]
          + SenderEchoes(me.username, SpokenLines(input), clock)
      ensures forall d :: d !in old(clients) && d != Client(conn, GetUsername(input).username) ==> Out(d) == old(Out(d))
    {
      var welcome := SendWelcomeMessage(banner);
      assert welcome == Welcome(banner);
      var login := GetUsername(input);
      greeting := welcome + login.written;
      var rest := input[login.consumed..];
      assert SpokenLines(input) == rest[..QuitIndex(rest)];
      RunSession(conn, login.username, rest, clock);
    }
  }

  /** The banner lines as sendWelcomeMessage writes them. */
  function Welcome(banner: seq<string>): (r: seq<string>)
    ensures |r| == |banner|
    ensures forall i :: 0 <= i < |banner| ==> r[i] == FormatWelcomeMessage(banner[i]) + "\n"
  {
    if banner == [] then [] else [FormatWelcomeMessage(banner[0]) + "\n"] + Welcome(banner[1..])
  }
}
