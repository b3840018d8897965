// What the generic frame scanner promises: round trips from a trusted boundary, in any chunking.
module Framing {
  import opened Wire
  import opened ScannerLog
  import opened FrameCollector

  /** A complete message whose header declares its own length. */
  predicate WellFormed(m: Bytes) {
    |m| >= 5 && U16(m, 0) == |m|
  }

  ghost predicate AllWellFormed(messages: seq<Bytes>) {
    forall i :: 0 <= i < |messages| ==> WellFormed(messages[i])
  }

  lemma PartsAreWellFormed(messages: seq<Bytes>, k: nat)
    requires k <= |messages| && AllWellFormed(messages)
    ensures AllWellFormed(messages[..k]) && AllWellFormed(messages[k..])
    ensures messages == messages[..k] + messages[k..]
  {
  }

  /** A beginning of a well-formed message that is not yet complete. */
  ghost predicate Partial(b: Bytes) {
    |b| < 2 || (PlausibleLength(U16(b, 0)) && |b| < U16(b, 0))
  }

  /** The frames a synchronized scanner cuts from well-formed messages. */
  function Cut(messages: seq<Bytes>, index: nat, start: int, context: PacketContext): (frames: seq<Frame>)
    ensures |frames| == |messages|
  {
    if messages == [] then []
    else [Frame(index, messages[0], context, Some(start))] + Cut(messages[1..], index + 1, start + |messages[0]|,
        context)
  }

  /** Synchronized at stream position `start` with bytes `b` buffered. */
  function At(s: FrameState, b: Bytes, start: int, index: nat): (t: FrameState) {
    s.(buffer := b, start := if b == [] then None else Some(start), synchronized := true, frameIndex := index)
  }

  lemma HeaderOfPrefix(b: Bytes, c: Bytes)
    requires |b| >= 2
    ensures U16(b + c, 0) == U16(b, 0)
  {
  }

  ghost predicate CutsExactly(s: FrameState, opcodes: set<nat>, context: PacketContext, messages: seq<Bytes>,
      tail: Bytes,
      start: int, index: nat) {
    Scan(At(s, Flatten(messages) + tail, start, index), opcodes, context)
      == Scanned(At(s, tail, start + |Flatten(messages)|, index + |messages|), Cut(messages, index, start, context))
  }

  /** Scanning whole messages and a partial one from a boundary emits exactly the messages. */
  lemma {:induction false} ScanCuts(s: FrameState, opcodes: set<nat>, context: PacketContext, messages: seq<Bytes>,
      tail: Bytes, start: int, index: nat)
    requires AllWellFormed(messages)
    requires Partial(tail)
    ensures CutsExactly(s, opcodes, context, messages, tail, start, index)
  {
    hide Scan, Partial, WellFormed, At;
    if messages == [] {
      assert Flatten(messages) + tail == tail;
      ScanOfPartial(s, opcodes, context, tail, start, index);
    } else {
      hide CutsExactly, Cut, Flatten;
      var m, rest := messages[0], messages[1..];
      ScanCuts(s, opcodes, context, rest, tail, start + |m|, index + 1);
      CutsOneMore(s, opcodes, context, m, rest, tail, start, index);
      assert [m] + rest == messages;
    }
  }

  lemma CutsOneMore(s: FrameState, opcodes: set<nat>, context: PacketContext, m: Bytes, rest: seq<Bytes>, tail: Bytes,
      start: int, index: nat)
    requires WellFormed(m) && CutsExactly(s, opcodes, context, rest, tail, start + |m|, index + 1)
    ensures CutsExactly(s, opcodes, context, [m] + rest, tail, start, index)
  {
    hide Scan, WellFormed, At, Cut, Flatten;
    FirstOfMessages(m, rest, tail, index, start, context);
    ScanOfWhole(s, opcodes, context, m, Flatten(rest) + tail, start, index);
  }

  lemma FirstOfMessages(m: Bytes, rest: seq<Bytes>, tail: Bytes, index: nat, start: int, context: PacketContext)
    ensures Flatten([m] + rest) + tail == m + (Flatten(rest) + tail) && |Flatten([m] + rest)| == |m| + |Flatten(rest)|
    ensures Cut([m] + rest, index, start, context)
         == [Frame(index, m, context, Some(start))] + Cut(rest, index + 1, start + |m|, context)
  {
    assert ([m] + rest)[1..] == rest;
  }

  lemma ScanOfPartial(s: FrameState, opcodes: set<nat>, context: PacketContext, tail: Bytes, start: int, index: nat)
    requires Partial(tail)
    ensures Scan(At(s, tail, start, index), opcodes, context) == Scanned(At(s, tail, start, index), [])
  {
    hide FirstCandidate, Bounded, Synchronize, DiscardPrefix;
  }

  lemma ScanOfWhole(s: FrameState, opcodes: set<nat>, context: PacketContext, m: Bytes, later: Bytes, start: int,
      index: nat)
    requires WellFormed(m)
    ensures Scan(At(s, m + later, start, index), opcodes, context)
         == Prepend([Frame(index, m, context, Some(start))],
             Scan(At(s, later, start + |m|, index + 1), opcodes, context))
  {
    var t := At(s, m + later, start, index);
    HeaderOfPrefix(m, later);
    assert (m + later)[..|m|] == m && (m + later)[|m|..] == later;
    assert AfterFrame(t, |m|) == At(s, later, start + |m|, index + 1);
    hide FirstCandidate, Bounded, Synchronize, DiscardPrefix, AfterFrame;
  }

  lemma {:induction false} CutAppend(a: seq<Bytes>, b: seq<Bytes>, index: nat, start: int, context: PacketContext)
    ensures Cut(a + b, index, start, context)
         == Cut(a, index, start, context) + Cut(b, index + |a|, start + |Flatten(a)|, context)
  {
    if a == [] {
      assert a + b == b;
    } else {
      CutAppend(a[1..], b, index + 1, start + |a[0]|, context);
      assert (a + b)[0] == a[0] && (a + b)[1..] == a[1..] + b;
    }
  }

  lemma SplitOff(b: Bytes, future: Bytes, m: Bytes, later: Bytes)
    requires b + future == m + later && |m| <= |b|
    ensures b == m + b[|m|..] && b[|m|..] + future == later
  {
    assert (b + future)[..|m|] == m && (b + future)[|m|..] == later;
    assert b[..|m|] == (b + future)[..|m|] && b[|m|..] + future == (b + future)[|m|..];
  }

  /** A cut anywhere in well-framed bytes falls after some whole messages and inside one more. */
  lemma {:induction false} CutFalls(b: Bytes, future: Bytes, messages: seq<Bytes>, tail: Bytes)
    returns (k: nat, p: Bytes)
    requires b + future == Flatten(messages) + tail
    requires AllWellFormed(messages)
    requires Partial(tail)
    ensures k <= |messages| && b == Flatten(messages[..k]) + p && Partial(p)
    ensures p + future == Flatten(messages[k..]) + tail
  {
    if messages != [] && |b| >= |messages[0]| {
      var m, rest := messages[0], messages[1..];
      Regroup(m, Flatten(rest), tail);
      hide WellFormed, Partial, U16, Flatten;
      SplitOff(b, future, m, Flatten(rest) + tail);
      k, p := CutFalls(b[|m|..], future, rest, tail);
      FlattenFirst(m, rest[..k]);
      assert messages[..k + 1] == [m] + rest[..k] && messages[k + 1..] == rest[k..];
      Regroup(m, Flatten(rest[..k]), p);
      k := k + 1;
    } else {
      k, p := 0, b;
      assert messages[..0] == [] && messages[0..] == messages;
      InsideOne(b, future, messages, tail);
    }
  }

  /** Fewer bytes than the next whole message are a partial one. */
  lemma InsideOne(b: Bytes, future: Bytes, messages: seq<Bytes>, tail: Bytes)
    requires b + future == Flatten(messages) + tail
    requires AllWellFormed(messages)
    requires Partial(tail) && (messages == [] || |b| < |messages[0]|)
    ensures Partial(b)
  {
    if |b| >= 2 {
      HeaderOfPrefix(b, future);
      if messages == [] {
        assert b + future == tail;
      } else {
        HeaderOfPrefix(messages[0], Flatten(messages[1..]) + tail);
        assert b + future == messages[0] + (Flatten(messages[1..]) + tail);
      }
    }
  }

  /** Feeding chunk after chunk, each with its own packet context. */
  function FeedAll(s: FrameState, opcodes: set<nat>, chunks: seq<Bytes>, contexts: seq<PacketContext>): (r: Scanned)
    requires |contexts| == |chunks|
    decreases |chunks|
  {
    if chunks == [] then Scanned(s, [])
    else
      var first := Feeding(s, opcodes, chunks[0], contexts[0]);
      var more := FeedAll(first.state, opcodes, chunks[1..], contexts[1..]);
      Scanned(more.state, first.frames + more.frames)
  }

  /** The frames with the packet that completed each left aside. */
  function Aside(frames: seq<Frame>, context: PacketContext): (r: seq<Frame>)
    ensures |r| == |frames|
  {
    seq(|frames|, (i: nat) requires i < |frames| => frames[i].(context := context))
  }

  lemma {:induction false} CutAside(messages: seq<Bytes>, index: nat, start: int, a: PacketContext, b: PacketContext)
    ensures Aside(Cut(messages, index, start, a), b) == Cut(messages, index, start, b)
  {
    if messages != [] {
      CutAside(messages[1..], index + 1, start + |messages[0]|, a, b);
      var c := Cut(messages, index, start, a);
      assert Aside(c, b) == [c[0].(context := b)] + Aside(c[1..], b);
    }
  }

  /** Contexts that state where each chunk lies, the first at `at`. */
  predicate Placed(contexts: seq<PacketContext>, chunks: seq<Bytes>, at: int)
    requires |contexts| == |chunks|
  {
    chunks == [] || (contexts[0].streamStart == Some(at) && Placed(contexts[1..], chunks[1..], at + |chunks[0]|))
  }

  /** Framing round trip: from a trusted boundary, well-formed messages come out exactly, in order,
      with cumulative sequence numbers, however the bytes are chunked; the scanner stays
      synchronized and keeps only the last partial message. */
  lemma {:induction false} RoundTripInAnyChunking(
      s: FrameState, opcodes: set<nat>, chunks: seq<Bytes>, contexts: seq<PacketContext>,
      messages: seq<Bytes>, tail: Bytes, held: Bytes, start: int, index: nat, any: PacketContext)
    requires |contexts| == |chunks| && Placed(contexts, chunks, start + |held|)
    requires AllWellFormed(messages)
    requires Partial(held) && Partial(tail)
    requires held + Flatten(chunks) == Flatten(messages) + tail
    ensures RoundTrips(FeedAll(At(s, held, start, index), opcodes, chunks, contexts), s, messages, tail, start, index,
                any)
    decreases |chunks|
  {
    hide Feeding, AllWellFormed, Cut, Partial, At, Aside, RoundTrips;
    if chunks == [] {
      NothingLeft(messages, tail, held);
      NothingCut(s, tail, start, index, any);
    } else {
      var c, future := chunks[0], Flatten(chunks[1..]);
      Regroup(held, c, future);
      hide Flatten;
      var k, p := CutFalls(held + c, future, messages, tail);
      var done, rest := messages[..k], messages[k..];
      PartsAreWellFormed(messages, k);
      FeedOne(s, opcodes, contexts[0], done, p, held, c, start, index);
      var next := start + |Flatten(done)|;
      assert |held| + |c| == |Flatten(done)| + |p|;
      RoundTripInAnyChunking(s, opcodes, chunks[1..], contexts[1..], rest, tail, p, next, index + k, any);
      var more := FeedAll(At(s, p, next, index + k), opcodes, chunks[1..], contexts[1..]);
      RoundTripsAfter(more, s, done, rest, tail, start, index, contexts[0], any);
    }
  }

  /** The frames are exactly the messages, and the scanner stands at the boundary after them. */
  ghost predicate RoundTrips(r: Scanned, s: FrameState, messages: seq<Bytes>, tail: Bytes, start: int, index: nat,
      any: PacketContext) {
    && r.state == At(s, tail, start + |Flatten(messages)|, index + |messages|)
    && Aside(r.frames, any) == Cut(messages, index, start, any)
  }

  lemma NothingCut(s: FrameState, tail: Bytes, start: int, index: nat, any: PacketContext)
    ensures RoundTrips(Scanned(At(s, tail, start, index), []), s, [], tail, start, index, any)
  {
  }

  lemma RoundTripsAfter(more: Scanned, s: FrameState, done: seq<Bytes>, rest: seq<Bytes>, tail: Bytes, start: int,
      index: nat,
                        context: PacketContext, any: PacketContext)
    requires RoundTrips(more, s, rest, tail, start + |Flatten(done)|, index + |done|, any)
    ensures RoundTrips(Scanned(more.state, Cut(done, index, start, context) + more.frames), s, done + rest, tail,
                start, index, any)
  {
    hide Cut, Aside, At, Flatten;
    FlattenAppend(done, rest);
    CutAppend(done, rest, index, start, any);
    CutAside(done, index, start, context, any);
    AsideAppend(Cut(done, index, start, context), more.frames, any);
  }

  lemma AsideAppend(a: seq<Frame>, b: seq<Frame>, context: PacketContext)
    ensures Aside(a + b, context) == Aside(a, context) + Aside(b, context)
  {
  }

  /** One chunk completing `done` and leaving `p`. */
  lemma FeedOne(s: FrameState, opcodes: set<nat>, context: PacketContext, done: seq<Bytes>, p: Bytes, held: Bytes,
      c: Bytes,
      start: int, index: nat)
    requires AllWellFormed(done)
    requires Partial(p) && Partial(held) && held + c == Flatten(done) + p
    requires context.streamStart == Some(start + |held|)
    ensures Feeding(At(s, held, start, index), opcodes, c, context)
         == Scanned(At(s, p, start + |Flatten(done)|, index + |done|), Cut(done, index, start, context))
  {
    if c == [] {
      assert held == Flatten(done) + p;
      NothingLeft(done, p, held);
    } else {
      assert Fill(At(s, held, start, index), c, context) == At(s, held + c, start, index);
      ScanCuts(s, opcodes, context, done, p, start, index);
    }
  }

  lemma NothingLeft(messages: seq<Bytes>, tail: Bytes, held: Bytes)
    requires AllWellFormed(messages)
    requires Partial(held) && held == Flatten(messages) + tail
    ensures messages == [] && held == tail
  {
  }
}
