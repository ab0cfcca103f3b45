/**
  The keyword protocol of the wake-up channel, as pure functions.

  A peer sends the bare bytes "wake" or "quit". The server accumulates the
  bytes it reads, one at a time, in a buffer and inspects the buffer before
  each byte it reads and once more when no byte is left (Check). Inspecting
  a buffer equal to "wake" signals WakeUp; one equal to "quit" signals Quit,
  leaves the buffer as it is and stops the reading; any buffer of 4 or more
  bytes is then discarded.

  Feed is one ready-read notification carrying a chunk of bytes; FeedAll is
  the life of one connection, a sequence of such notifications.
 */
module WakeUpProtocol {

  import opened Wrappers

  /** The signals the server emits. */
  datatype Signal = WakeUp | Quit

  const WakeKeyword: string := "wake"
  const QuitKeyword: string := "quit"

  /** Buffers of this many bytes are discarded by the check. */
  const ClearLength: nat := 4

  /** Outcome of one inspection of the buffer. */
  datatype CheckResult = CheckResult(proceed: bool, buf: string, signal: Option<Signal>)

  /** The signals of a check, as a sequence of zero or one signal. */
  function Emitted(r: CheckResult): seq<Signal> {
    if r.signal.Some? then [r.signal.value] else []
  }

  /** One inspection of the buffer; proceed is false when reading must stop. */
  function Check(buf: string): (r: CheckResult)
    ensures r.signal == Some(WakeUp) <==> buf == WakeKeyword
    ensures r.signal == Some(Quit) <==> buf == QuitKeyword
    ensures r.signal.None? <==> buf != WakeKeyword && buf != QuitKeyword
    ensures r.proceed <==> buf != QuitKeyword
    ensures !r.proceed ==> r.buf == buf
    ensures r.proceed ==> |r.buf| < ClearLength
    ensures |buf| < ClearLength ==> r.buf == buf
    ensures |buf| >= ClearLength && buf != QuitKeyword ==> r.buf == []
  {
    var signal := if buf == WakeKeyword then Some(WakeUp)
                  else if buf == QuitKeyword then Some(Quit)
                  else None;
    if buf == QuitKeyword then CheckResult(false, buf, signal)
    else CheckResult(true, if |buf| >= ClearLength then [] else buf, signal)
  }

  /** A buffer the server can hold between two notifications. */
  predicate Settled(buf: string) {
    |buf| < ClearLength || buf == QuitKeyword
  }

  /** Outcome of reading: final buffer, signals in order, bytes taken, and
      whether the server closed the connection. */
  datatype FeedResult = FeedResult(buf: string, signals: seq<Signal>, consumed: nat, closed: bool)

  /** One ready-read notification while chunk is available on the socket. */
  function Feed(buf: string, chunk: string): (r: FeedResult)
    ensures r.consumed <= |chunk|
    ensures r.closed <==> r.consumed < |chunk|
    decreases |chunk|
  {
    var c := Check(buf);
    if chunk == [] then
      FeedResult(c.buf, Emitted(c), 0, false)
    else if !c.proceed then
      FeedResult(c.buf, Emitted(c), 0, true)
    else
      var r := Feed(c.buf + [chunk[0]], chunk[1..]);
      FeedResult(r.buf, Emitted(c) + r.signals, r.consumed + 1, r.closed)
  }

  /**
    What any notification leaves behind: a settled buffer, which holds
    "quit" exactly when the last signal is Quit (and always when the server
    closed the connection), and WakeUp for every signal before the last.
   */
  lemma {:induction false} FeedShape(buf: string, chunk: string)
    ensures var r := Feed(buf, chunk);
            && Settled(r.buf)
            && (r.buf == QuitKeyword <==> r.signals != [] && r.signals[|r.signals| - 1] == Quit)
            && (r.closed ==> r.buf == QuitKeyword)
            && (forall i :: 0 <= i < |r.signals| - 1 ==> r.signals[i] == WakeUp)
    decreases |chunk|
  {
    var c := Check(buf);
    if chunk != [] && c.proceed {
      FeedShape(c.buf + [chunk[0]], chunk[1..]);
      var r := Feed(c.buf + [chunk[0]], chunk[1..]);
      assert Feed(buf, chunk).signals == Emitted(c) + r.signals;
      assert c.signal != Some(Quit);
    }
  }

  /** The buffers Check inspects during Feed(buf, chunk), in order. */
  function CheckPoints(buf: string, chunk: string): seq<string>
    decreases |chunk|
  {
    var c := Check(buf);
    if chunk == [] || !c.proceed then [buf]
    else [buf] + CheckPoints(c.buf + [chunk[0]], chunk[1..])
  }

  /** From a settled buffer, no inspected buffer ever exceeds 4 bytes. */
  lemma {:induction false} CheckPointsBounded(buf: string, chunk: string)
    requires |buf| <= ClearLength
    ensures forall i :: 0 <= i < |CheckPoints(buf, chunk)| ==>
              |CheckPoints(buf, chunk)[i]| <= ClearLength
    decreases |chunk|
  {
    var c := Check(buf);
    if chunk != [] && c.proceed {
      CheckPointsBounded(c.buf + [chunk[0]], chunk[1..]);
    }
  }

  /**
    The signals of a byte stream read from an empty buffer: the stream is
    cut into 4-byte blocks from its start; a "wake" block gives WakeUp, a
    "quit" block gives Quit and ends the stream, any other block nothing.
   */
  function Aligned(s: string): (sig: seq<Signal>)
    decreases |s|
  {
    if |s| < ClearLength then []
    else if s[..ClearLength] == QuitKeyword then [Quit]
    else (if s[..ClearLength] == WakeKeyword then [WakeUp] else []) + Aligned(s[ClearLength..])
  }

  /** Inspecting a buffer shorter than a keyword changes nothing. */
  lemma CheckShort(buf: string)
    requires |buf| < ClearLength
    ensures Check(buf) == CheckResult(true, buf, None)
  {
  }

  /** Reading one byte after a check that lets reading go on. */
  lemma FeedStep(buf: string, chunk: string)
    requires chunk != [] && Check(buf).proceed
    ensures var c := Check(buf);
            var r := Feed(c.buf + [chunk[0]], chunk[1..]);
            Feed(buf, chunk) == FeedResult(r.buf, Emitted(c) + r.signals, r.consumed + 1, r.closed)
  {
  }

  /** Reading recognises exactly the keywords that start at a 4-byte-aligned
      offset since the buffer was last empty. */
  lemma {:induction false} FeedAligned(buf: string, chunk: string)
    requires |buf| <= ClearLength
    ensures Feed(buf, chunk).signals == Aligned(buf + chunk)
    decreases |chunk|, 1
  {
    if |buf| == ClearLength {
      FeedAlignedFull(buf, chunk);
    } else if chunk == [] {
      CheckShort(buf);
      assert buf + chunk == buf;
    } else {
      CheckShort(buf);
      FeedStep(buf, chunk);
      var next := buf + [chunk[0]];
      FeedAligned(next, chunk[1..]);
      assert next + chunk[1..] == buf + chunk;
      assert Feed(buf, chunk).signals == [] + Feed(next, chunk[1..]).signals;
    }
  }

  /** The first block of a stream is one check's outcome; "quit" ends the stream. */
  lemma AlignedFirstBlock(buf: string, chunk: string)
    requires |buf| == ClearLength
    ensures Aligned(buf + chunk) ==
              if buf == QuitKeyword then [Quit] else Emitted(Check(buf)) + Aligned(chunk)
  {
    var s := buf + chunk;
    assert s[..ClearLength] == buf && s[ClearLength..] == chunk;
  }

  lemma {:induction false} FeedAlignedFull(buf: string, chunk: string)
    requires |buf| == ClearLength
    ensures Feed(buf, chunk).signals == Aligned(buf + chunk)
    decreases |chunk|, 0
  {
    var c := Check(buf);
    AlignedFirstBlock(buf, chunk);
    if c.proceed && chunk != [] {
      FeedStep(buf, chunk);
      assert c.buf + [chunk[0]] == [chunk[0]];
      FeedAligned([chunk[0]], chunk[1..]);
      assert [chunk[0]] + chunk[1..] == chunk;
    } else if c.proceed {
      assert Aligned(chunk) == [];
      assert Emitted(c) + [] == Emitted(c);
    }
  }

  /** A keyword alone is one block. */
  lemma AlignedKeyword(keyword: string, sig: Signal)
    requires (keyword, sig) == (WakeKeyword, WakeUp) || (keyword, sig) == (QuitKeyword, Quit)
    ensures Aligned(keyword) == [sig]
  {
    assert keyword[..ClearLength] == keyword;
    assert keyword[ClearLength..] == [];
  }

  /** "wakewake" in a single notification gives two WakeUp signals: the
      second keyword is complete only at the check after the last byte. */
  lemma WakeWakeInOneRead(s: string)
    requires s == WakeKeyword + WakeKeyword
    ensures Feed([], s).signals == [WakeUp, WakeUp]
  {
    assert s[..ClearLength] == WakeKeyword && s[ClearLength..] == WakeKeyword;
    AlignedKeyword(WakeKeyword, WakeUp);
    assert Aligned(s) == [WakeUp] + Aligned(WakeKeyword);
    FeedAligned([], s);
    assert [] + s == s;
  }

  /** A recognised "quit" stays in the buffer, so a later notification, even
      one carrying no byte, signals Quit again and reads no byte. */
  lemma QuitRepeatsOnNextRead(chunk: string)
    ensures Feed([], QuitKeyword).buf == QuitKeyword
    ensures Feed(Feed([], QuitKeyword).buf, chunk).signals == [Quit]
    ensures Feed(Feed([], QuitKeyword).buf, chunk).consumed == 0
    ensures Feed(Feed([], QuitKeyword).buf, chunk).closed <==> chunk != []
  {
    KeywordAlone(QuitKeyword, Quit);
    FeedShape([], QuitKeyword);
  }

  /** The signals of a shorter chunk are a prefix of those of a longer one. */
  lemma {:induction false} FeedPrefix(buf: string, c: string, d: string)
    ensures Feed(buf, c).signals <= Feed(buf, c + d).signals
    decreases |c|
  {
    var k := Check(buf);
    if c != [] && k.proceed {
      assert (c + d)[1..] == c[1..] + d;
      FeedPrefix(k.buf + [c[0]], c[1..], d);
    }
  }

  /** Combined outcome of two notifications in a row. */
  function Then(r1: FeedResult, r2: FeedResult): FeedResult {
    FeedResult(r2.buf, r1.signals + r2.signals, r1.consumed + r2.consumed, r2.closed)
  }

  lemma ThenAssociative(x: FeedResult, y: FeedResult, z: FeedResult)
    ensures Then(x, Then(y, z)) == Then(Then(x, y), z)
  {
    assert x.signals + (y.signals + z.signals) == (x.signals + y.signals) + z.signals;
  }

  /** The part of a notification before its second check, as an outcome. */
  function Head(buf: string): FeedResult {
    FeedResult([], Emitted(Check(buf)), 1, false)
  }

  /** Reading one byte, as Then: the head, then the rest of the chunk. */
  lemma FeedThen(buf: string, chunk: string)
    requires chunk != [] && Check(buf).proceed
    ensures Feed(buf, chunk) == Then(Head(buf), Feed(Check(buf).buf + [chunk[0]], chunk[1..]))
  {
    FeedStep(buf, chunk);
  }

  /** A notification without bytes is one check. */
  lemma FeedEmpty(buf: string)
    ensures Feed(buf, []) == FeedResult(Check(buf).buf, Emitted(Check(buf)), 0, false)
  {
  }

  /** An empty notification that does not stop reading can be left out. */
  lemma FeedConcatNil(buf: string, c2: string)
    requires Check(buf).proceed
    ensures Feed(buf, c2) == Then(Feed(buf, []), Feed(Check(buf).buf, c2))
  {
    if c2 == [] {
      FeedTwiceEmpty(buf);
    } else {
      FeedAfterEmpty(buf, c2);
    }
  }

  lemma FeedTwiceEmpty(buf: string)
    requires Check(buf).proceed
    ensures Feed(buf, []) == Then(Feed(buf, []), Feed(Check(buf).buf, []))
  {
    var k := Check(buf);
    FeedEmpty(buf);
    // k.buf is settled below 4 bytes, so inspecting it again changes nothing
    FeedEmptyShort(k.buf);
    var x := Feed(buf, []);
    assert x.signals + [] == x.signals;
  }

  lemma FeedEmptyShort(buf: string)
    requires |buf| < ClearLength
    ensures Feed(buf, []) == FeedResult(buf, [], 0, false)
  {
    CheckShort(buf);
  }

  lemma FeedAfterEmpty(buf: string, c2: string)
    requires Check(buf).proceed && c2 != []
    ensures Feed(buf, c2) == Then(Feed(buf, []), Feed(Check(buf).buf, c2))
  {
    var k := Check(buf);
    FeedEmpty(buf);
    CheckShort(k.buf);
    FeedStep(buf, c2);
    FeedStep(k.buf, c2);
  }

  /** Unless "quit" was recognised, one notification carrying c1 + c2 has the
      same outcome as two notifications carrying c1, then c2. */
  lemma {:induction false} FeedConcat(buf: string, c1: string, c2: string)
    requires Feed(buf, c1).buf != QuitKeyword
    ensures Feed(buf, c1 + c2) == Then(Feed(buf, c1), Feed(Feed(buf, c1).buf, c2))
    decreases |c1|
  {
    if c1 == [] {
      assert c1 + c2 == c2;
      FeedConcatNil(buf, c2);
    } else {
      var b := Check(buf).buf + [c1[0]];
      FeedThen(buf, c1);
      FeedConcat(b, c1[1..], c2);
      FeedConcatStep(buf, c1, c2);
    }
  }

  /** The inductive step of FeedConcat: one more byte in front of c1. */
  lemma FeedConcatStep(buf: string, c1: string, c2: string)
    requires c1 != [] && Check(buf).proceed
    requires var b := Check(buf).buf + [c1[0]];
             Feed(b, c1[1..] + c2) == Then(Feed(b, c1[1..]), Feed(Feed(b, c1[1..]).buf, c2))
    ensures Feed(buf, c1 + c2) == Then(Feed(buf, c1), Feed(Feed(buf, c1).buf, c2))
  {
    var b := Check(buf).buf + [c1[0]];
    var s1 := Feed(b, c1[1..]);
    var s2 := Feed(s1.buf, c2);
    var whole := Feed(buf, c1 + c2);
    var first := Feed(buf, c1);
    FeedThen(buf, c1);
    assert first == Then(Head(buf), s1);
    assert first.buf == s1.buf;
    FeedConsConcat(buf, c1, c2);
    assert whole == Then(Head(buf), Then(s1, s2));
    ThenAssociative(Head(buf), s1, s2);
  }

  /** Reading c1 + c2 starts as reading c1 does. */
  lemma FeedConsConcat(buf: string, c1: string, c2: string)
    requires c1 != [] && Check(buf).proceed
    ensures Feed(buf, c1 + c2) == Then(Head(buf), Feed(Check(buf).buf + [c1[0]], c1[1..] + c2))
  {
    assert (c1 + c2)[0] == c1[0];
    assert (c1 + c2)[1..] == c1[1..] + c2;
    FeedThen(buf, c1 + c2);
  }

  /** The concatenation of chunks. */
  function Flatten(chunks: seq<string>): (s: string) {
    if chunks == [] then [] else chunks[0] + Flatten(chunks[1..])
  }

  lemma {:induction false} FlattenSnoc(chunks: seq<string>, c: string)
    ensures Flatten(chunks + [c]) == Flatten(chunks) + c
  {
    if chunks != [] {
      assert (chunks + [c])[1..] == chunks[1..] + [c];
      FlattenSnoc(chunks[1..], c);
    }
  }

  /** The life of one connection: notifications in order, none after the
      server closed the connection. */
  function FeedAll(buf: string, chunks: seq<string>): (r: FeedResult)
    decreases |chunks|
  {
    if chunks == [] then FeedResult(buf, [], 0, false)
    else
      var r := Feed(buf, chunks[0]);
      if r.closed then r
      else
        Then(r, FeedAll(r.buf, chunks[1..]))
  }

  /** A notification that leaves the connection open is followed by the rest. */
  lemma FeedAllStep(buf: string, chunks: seq<string>)
    requires chunks != [] && !Feed(buf, chunks[0]).closed
    ensures FeedAll(buf, chunks) == Then(Feed(buf, chunks[0]), FeedAll(Feed(buf, chunks[0]).buf, chunks[1..]))
  {
  }

  /** A connection from notification i on: notification i, then the rest unless it closed. */
  lemma FeedAllFrom(buf: string, chunks: seq<string>, i: nat)
    requires i < |chunks|
    ensures var r := Feed(buf, chunks[i]);
      FeedAll(buf, chunks[i..]) == if r.closed then r else Then(r, FeedAll(r.buf, chunks[i + 1..]))
  {
    var rest := chunks[i..];
    assert rest[0] == chunks[i] && rest[1..] == chunks[i + 1..];
  }

  /** Unless "quit" is recognised before the last notification, the way the
      bytes are cut into notifications changes nothing: signals, final
      buffer, bytes read and whether the connection was closed. */
  lemma {:induction false} FeedAllAsOneChunk(buf: string, chunks: seq<string>)
    requires chunks != []
    requires Quit !in Feed(buf, Flatten(chunks[..|chunks| - 1])).signals
    ensures FeedAll(buf, chunks) == Feed(buf, Flatten(chunks))
    decreases |chunks|
  {
    var c, rest := chunks[0], chunks[1..];
    assert Flatten(chunks) == c + Flatten(rest);
    if rest == [] {
      assert Flatten(rest) == [];
      assert c + [] == c;
      var r := Feed(buf, c);
      if !r.closed {
        FeedAllStep(buf, chunks);
        assert r.signals + [] == r.signals;
        assert Then(r, FeedResult(r.buf, [], 0, false)) == r;
      }
    } else {
      var init := rest[..|rest| - 1];
      var r := Feed(buf, c);
      assert chunks[..|chunks| - 1] == [c] + init;
      assert Flatten(chunks[..|chunks| - 1]) == c + Flatten(init);
      FeedPrefix(buf, c, Flatten(init));
      assert Quit !in r.signals;
      FeedShape(buf, c);
      assert r.buf != QuitKeyword && !r.closed;
      FeedConcat(buf, c, Flatten(init));
      assert Quit !in Feed(r.buf, Flatten(init)).signals;
      FeedAllAsOneChunk(r.buf, rest);
      FeedConcat(buf, c, Flatten(rest));
      FeedAllStep(buf, chunks);
    }
  }

  /** The bytes before the last notification never make the server quit:
      they are a proper prefix of the keyword, or "wake" itself. */
  lemma KeywordPrefixNoQuit(keyword: string, sig: Signal, p: string, last: string)
    requires (keyword, sig) == (WakeKeyword, WakeUp) || (keyword, sig) == (QuitKeyword, Quit)
    requires p + last == keyword
    requires sig == Quit ==> last != []
    ensures Quit !in Feed([], p).signals
  {
    FeedAligned([], p);
    assert [] + p == p;
    if |p| == ClearLength {
      assert p == keyword && sig == WakeUp;
      AlignedKeyword(keyword, sig);
    } else {
      assert Aligned(p) == [];
    }
  }

  /**
    A keyword in one notification on a fresh connection gives its signal:
    all four bytes are read and the connection stays open; "quit" stays in
    the buffer and "wake" is discarded.
   */
  lemma KeywordAlone(keyword: string, sig: Signal)
    requires (keyword, sig) == (WakeKeyword, WakeUp) || (keyword, sig) == (QuitKeyword, Quit)
    ensures Feed([], keyword) == FeedResult(if sig == Quit then QuitKeyword else [], [sig], ClearLength, false)
  {
    FeedFourBytes(keyword, 0);
    assert keyword[..0] == [] && keyword[0..] == keyword;
  }

  /** Four bytes read from the first i of them: every check before the
      last sees a short buffer, so only the last check counts. */
  lemma {:induction false} FeedFourBytes(k: string, i: nat)
    requires |k| == ClearLength && i <= ClearLength
    ensures Feed(k[..i], k[i..]) == FeedResult(Check(k).buf, Emitted(Check(k)), ClearLength - i, false)
    decreases ClearLength - i
  {
    if i == ClearLength {
      assert k[..i] == k && k[i..] == [];
      FeedEmpty(k);
    } else {
      CheckShort(k[..i]);
      FeedStep(k[..i], k[i..]);
      assert k[..i] + [k[i..][0]] == k[..i + 1];
      assert k[i..][1..] == k[i + 1..];
      FeedFourBytes(k, i + 1);
    }
  }

  /** A keyword delivered alone on a fresh connection, cut in any way into
      notifications, gives exactly its signal and leaves the connection
      open, with "quit" still buffered and "wake" discarded. For "quit" the
      last notification must carry a byte: an empty one would repeat the
      signal. */
  lemma KeywordInAnyChunks(keyword: string, sig: Signal, chunks: seq<string>)
    requires (keyword, sig) == (WakeKeyword, WakeUp) || (keyword, sig) == (QuitKeyword, Quit)
    requires Flatten(chunks) == keyword
    requires sig == Quit ==> chunks != [] && chunks[|chunks| - 1] != []
    ensures FeedAll([], chunks) == FeedResult(if sig == Quit then QuitKeyword else [], [sig], ClearLength, false)
  {
    assert chunks != [];
    var init := chunks[..|chunks| - 1];
    var last := chunks[|chunks| - 1];
    assert init + [last] == chunks;
    FlattenSnoc(init, last);
    KeywordPrefixNoQuit(keyword, sig, Flatten(init), last);
    FeedAllAsOneChunk([], chunks);
    KeywordAlone(keyword, sig);
  }
}
