/**
 * Three short runs of the server, each checked by the verifier from the
 * contracts of the operations alone.
 */
module Scenarios {
  import opened Messages
  import opened Sessions
  import opened Registry
  import opened Server

  /**
   * A is connected and says something; B joins afterwards. B is replayed the
   * whole earlier history, A's line last, and then sees its own join notice;
   * A sees its own line and then B's notice.
   */
  method LateJoinerReplay(server: ChatServer, a: Client, conn: nat, bob: string, stamp: string, text: string)
    requires server.Valid() && a in server.clients && |server.clients| < server.activeClients
    requires forall d :: d in server.clients ==> d.conn != conn
    requires !GoStrings.IsBlank(text)
    modifies server
  {
    ghost var history, seenA, seenB := server.chatHistory, server.Out(a), server.Out(Client(conn, bob));
    var said := ChatLine(stamp, a.username, text);
    server.SendMessage(a, stamp, text);
    assert server.chatHistory == history + [said];
    assert server.Out(Client(conn, bob)) == seenB;
    var b := server.Join(conn, bob);
    assert server.Out(b) == seenB + (history + [said]) + [JoinNotice(bob)];
    assert server.Out(a) == seenA + [said] + [JoinNotice(bob)];
  }

  /**
   * A and B are both connected; A types /QUIT. A's loop sends nothing, A is
   * deregistered, and B receives exactly one leave notice and stays registered.
   */
  method QuitNotifiesOthersOnce(server: ChatServer, a: Client, b: Client, clock: nat -> string, later: string)
    requires server.Valid() && a in server.clients && b in server.clients && a != b
    modifies server
  {
    ghost var registered, seen := server.clients, server.Out(b);
    var input := ["/QUIT", later];
    IsQuitIff(input[0]);
    var handled := server.MessageLoop(a, input, clock);
    assert handled == 0 && input[..handled] == [];
    assert server.Out(b) == seen;
    server.Leave(a);
    RemoveFirstDistinct(registered, a);
    assert a !in server.clients && b in server.clients;
    assert server.Out(b) == seen + [LeaveNotice(a.username)];
  }

  /** Ten connections are admitted; the eleventh is told that the server is full. */
  method CeilingRejectsEleventh() {
    var server := new ChatServer();
    var n := 0;
    while n < MaxClients
      invariant 0 <= n <= MaxClients
      invariant server.Valid() && server.activeClients == n && server.clients == []
    {
      var ok, reply := server.Admit();
      n := n + 1;
    }
    var ok, reply := server.Admit();
    assert !ok && reply == [ServerFull];
    assert server.activeClients == MaxClients && server.clients == [];
  }
}
