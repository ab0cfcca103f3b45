/**
  A wake-up client talking to a resident server whose slot is free: what
  the client writes, cut into ready-read notifications in any way (for
  "quit", with a byte in the last one), makes the server emit exactly the
  matching signal, whatever an earlier peer left in its buffer.
 */
module RoundTrip {

  import opened Wrappers
  import opened WakeUpProtocol
  import opened Server
  import opened Client

  /**
    A resident server whose slot is free accepts peer and gets chunks as
    successive notifications, none after it closed the connection. Whatever
    an earlier peer left in the buffer, the new connection starts clean: the
    signals it adds are those of the connection's life from an empty buffer.
   */
  method DeliverChunks(server: WakeUpServer, peer: PeerId, chunks: seq<string>)
    requires server.Valid() && server.socket.None?
    modifies server
    ensures server.Valid() && server.socket == Some(peer)
    ensures server.signals == old(server.signals) + FeedAll([], chunks).signals
    ensures server.tmpData == FeedAll([], chunks).buf
    ensures server.closed == old(server.closed) + (if FeedAll([], chunks).closed then [peer] else [])
  {
    server.NewConnection(Some(peer));
    var c0 := server.closed;
    ghost var total := FeedAll([], chunks);
    ghost var done := FeedResult([], server.signals, 0, false);
    ghost var whole := Then(done, total);
    assert chunks[0..] == chunks;
    var i := 0;
    while i < |chunks| && server.closed == c0
      invariant i <= |chunks|
      invariant server.Valid() && server.socket == Some(peer)
      invariant done.signals == server.signals && done.buf == server.tmpData
      invariant server.closed == c0 || server.closed == c0 + [peer]
      invariant server.closed == c0 ==> !done.closed && Then(done, FeedAll(server.tmpData, chunks[i..])) == whole
      invariant server.closed == c0 + [peer] ==> done.closed && done == whole
    {
      ghost var r := Feed(server.tmpData, chunks[i]);
      FeedAllFrom(server.tmpData, chunks, i);
      if !r.closed {
        ThenAssociative(done, r, FeedAll(r.buf, chunks[i + 1..]));
      }
      var _ := server.SocketReadyRead(chunks[i]);
      done := Then(done, r);
      i := i + 1;
    }
    if server.closed == c0 {
      assert chunks[i..] == [];
      assert done.signals + [] == done.signals;
      assert done == whole;
    }
  }

  /**
    Runs wakeUp(quit) on a new client and delivers what it writes, cut into
    chunks, to a resident server whose slot is free. The server adds exactly
    the matching signal. For "quit" the last notification carries a byte.
   */
  method DeliverKeyword(server: WakeUpServer, quit: bool, peer: PeerId, chunks: seq<string>) returns (sent: string)
    requires server.Valid() && server.socket.None?
    requires Flatten(chunks) == Keyword(quit)
    requires quit ==> chunks != [] && chunks[|chunks| - 1] != []
    modifies server
    ensures sent == Keyword(quit)
    ensures server.signals == old(server.signals) + [SignalFor(quit)]
    ensures server.Valid() && server.socket == Some(peer) && server.closed == old(server.closed)
    ensures server.tmpData == if quit then QuitKeyword else []
  {
    var client := new WakeUpClient();
    client.WakeUp(quit);
    client.SocketConnected();
    sent := Written(client.actions);
    DeliverChunks(server, peer, chunks);
    KeywordInAnyChunks(Keyword(quit), SignalFor(quit), chunks);
  }
}
