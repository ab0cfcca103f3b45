/**
  The server side of the wake-up channel (class QWakeUpServer): one slot for
  the active peer, the keyword buffer, and the signals it emits. The local
  transport is abstract: a connection is a PeerId and a ready-read
  notification is the chunk of bytes then available on the socket.
 */
module Server {

  import opened Wrappers
  import opened WakeUpProtocol

  /** An accepted connection, identified abstractly. */
  type PeerId = nat

  class WakeUpServer {
    /** The active peer; None when no peer is active. */
    var socket: Option<PeerId>
    /** Bytes read since the buffer was last cleared. */
    var tmpData: string
    /** Signals emitted so far, in order. */
    var signals: seq<Signal>
    /** Connections the server closed, in order. */
    var closed: seq<PeerId>

    /** Between notifications the buffer is shorter than a keyword or holds "quit". */
    ghost predicate Valid()
      reads this
    {
      Settled(tmpData)
    }

    /** No active peer and an empty buffer. */
    constructor ()
      ensures Valid()
      ensures socket == None && tmpData == [] && signals == [] && closed == []
    {
      socket := None;
      tmpData := [];
      signals := [];
      closed := [];
    }

    /**
      A pending connection is announced. A null one changes nothing; while a
      peer is active the new connection is closed and nothing else changes;
      otherwise it becomes the active peer and the buffer is emptied.
     */
    method NewConnection(pending: Option<PeerId>)
      requires Valid()
      modifies this
      ensures Valid()
      ensures signals == old(signals)
      ensures pending.None? ==> socket == old(socket) && tmpData == old(tmpData) && closed == old(closed)
      ensures pending.Some? && old(socket).Some? ==>
                socket == old(socket) && tmpData == old(tmpData) && closed == old(closed) + [pending.value]
      ensures pending.Some? && old(socket).None? ==>
                socket == pending && tmpData == [] && closed == old(closed)
    {
      if pending.None? {
        return;
      }
      if socket.Some? {
        closed := closed + [pending.value];
        return;
      }
      socket := pending;
      tmpData := [];
    }

    /** The active peer went away: the slot is freed, the buffer is kept. */
    method SocketDisconnected()
      requires Valid()
      modifies this
      ensures Valid()
      ensures socket == None
      ensures tmpData == old(tmpData) && signals == old(signals) && closed == old(closed)
    {
      socket := None;
    }

    /** One inspection of the buffer; false when reading must stop. */
    method CheckTmpData() returns (proceed: bool)
      modifies this
      ensures var c := Check(old(tmpData));
              proceed == c.proceed && tmpData == c.buf && signals == old(signals) + Emitted(c)
      ensures socket == old(socket) && closed == old(closed)
    {
      if tmpData == WakeKeyword {
        signals := signals + [WakeUp];
      } else if tmpData == QuitKeyword {
        signals := signals + [Quit];
        return false;
      }
      if |tmpData| >= ClearLength {
        tmpData := [];
      }
      return true;
    }

    /**
      The active peer's socket has chunk available: check, then read one
      byte, while bytes remain; stop and close the socket when a check says
      so; check once more when every byte was read. The outcome is Feed's;
      consumed is the number of bytes read.
     */
    method SocketReadyRead(chunk: string) returns (consumed: nat)
      requires Valid() && socket.Some?
      modifies this
      ensures Valid()
      ensures var r := Feed(old(tmpData), chunk);
              && tmpData == r.buf
              && signals == old(signals) + r.signals
              && consumed == r.consumed
              && closed == old(closed) + (if r.closed then [old(socket).value] else [])
      ensures socket == old(socket)
    {
      ghost var total := Feed(tmpData, chunk);
      ghost var start := FeedResult([], signals, 0, false);
      FeedShape(tmpData, chunk);
      consumed := 0;
      while consumed < |chunk|
        invariant consumed <= |chunk|
        invariant |tmpData| <= ClearLength
        invariant socket == old(socket) && closed == old(closed)
        invariant Then(FeedResult([], signals, consumed, false), Feed(tmpData, chunk[consumed..])) == Then(start, total)
      {
        ghost var pre, done := tmpData, FeedResult([], signals, consumed, false);
        ghost var rest := chunk[consumed..];
        assert rest[0] == chunk[consumed] && rest[1..] == chunk[consumed + 1..];
        var proceed := CheckTmpData();
        if !proceed {
          closed := closed + [socket.value];
          return;
        }
        FeedThen(pre, rest);
        tmpData := tmpData + [chunk[consumed]];
        consumed := consumed + 1;
        ghost var r := Feed(tmpData, chunk[consumed..]);
        ThenAssociative(done, Head(pre), r);
        assert Then(done, Head(pre)) == FeedResult([], signals, consumed, false);
      }
      var _ := CheckTmpData();
    }
  }
}
