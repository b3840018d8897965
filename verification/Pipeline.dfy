// Reassembly and framing joined: every frame the scanner emits is the true stream's slice at its
// stated position, on any run, and never spans bytes on two sides of a skipped range.
module Pipeline {
  import opened Wire
  import opened ScannerLog
  import opened ReceivedSet
  import opened FrameCollector
  import opened Reassembly

  /** What the scanner does with one call made by reassembly. */
  function Perform(s: FrameState, opcodes: set<nat>, call: Call): (r: Scanned) {
    match call
    case Feed(data, context) => Feeding(s, opcodes, data, context)
    case ScanStandalone(data, context) => Apart(s, opcodes, data, context)
    case Reset => Scanned(Cleared(s), [])
  }

  function Replay(s: FrameState, opcodes: set<nat>, log: Log): (r: Scanned) {
    if log == [] then Scanned(s, [])
    else
      var before := Replay(s, opcodes, log[..|log| - 1]);
      var last := Perform(before.state, opcodes, log[|log| - 1]);
      Scanned(last.state, before.frames + last.frames)
  }

  /** A whole message, cut from `[lo, hi)` of the stream at the position it states. */
  ghost predicate TrueFrame(f: Frame, stream: Stream, shift: int, lo: int, hi: int) {
    && f.streamSequence.Some?
    && |f.message| >= 5 && U16(f.message, 0) == |f.message|
    && On(stream, shift + f.streamSequence.value, f.message)
    && lo <= f.streamSequence.value && f.streamSequence.value + |f.message| <= hi
  }

  /** The buffer is the stream's bytes from `start` up to `end`. */
  ghost predicate Buffers(s: FrameState, stream: Stream, shift: int, end: int) {
    s.buffer != [] ==> s.start.Some? && s.start.value + |s.buffer| == end && On(stream, shift + s.start.value, s.buffer)
  }

  lemma DiscardBuffers(s: FrameState, n: nat, stream: Stream, shift: int, end: int)
    requires n <= |s.buffer| && Buffers(s, stream, shift, end)
    ensures Buffers(DiscardPrefix(s, n), stream, shift, end)
    ensures DiscardPrefix(s, n).buffer != [] ==> DiscardPrefix(s, n).start.value == s.start.value + n
  {
    if s.buffer != [] {
      OnParts(stream, shift + s.start.value, s.buffer, n);
    }
  }

  /** One scan cuts true frames from what is buffered and leaves a true remainder. */
  lemma {:induction false} ScanIsTrue(s: FrameState, opcodes: set<nat>, context: PacketContext, stream: Stream,
      shift: int,
      lo: int, end: int)
    requires Buffers(s, stream, shift, end) && (s.buffer != [] ==> lo <= s.start.value)
    ensures var r := Scan(s, opcodes, context);
            && Buffers(r.state, stream, shift, end) && (r.state.buffer != [] ==> lo <= r.state.start.value)
            && forall i :: 0 <= i < |r.frames| ==> TrueFrame(r.frames[i], stream, shift, lo, end)
    decreases |s.buffer|
  {
    hide FirstCandidate, On;
    if |s.buffer| >= 5 {
      var aligned := Align(s, opcodes);
      if aligned.None? {
        DiscardBuffers(s, |s.buffer| - |Bounded(s).buffer|, stream, shift, end);
      } else {
        if !s.synchronized {
          DiscardBuffers(s, FirstCandidate(s.buffer, opcodes, 0).value, stream, shift, end);
        }
        var t := aligned.value;
        var length := U16(t.buffer, 0);
        if !PlausibleLength(length) {
          var u := t.(synchronized := false);
          DiscardBuffers(u, 1, stream, shift, end);
          ScanIsTrue(DiscardPrefix(u, 1), opcodes, context, stream, shift, lo, end);
        } else if length <= |t.buffer| {
          FrameIsTrue(t, length, context, stream, shift, lo, end);
          DiscardBuffers(t.(frameIndex := t.frameIndex + 1), length, stream, shift, end);
          ScanIsTrue(AfterFrame(t, length), opcodes, context, stream, shift, lo, end);
        }
      }
    }
  }

  lemma FrameIsTrue(t: FrameState, length: nat, context: PacketContext, stream: Stream, shift: int, lo: int, end: int)
    requires Buffers(t, stream, shift, end) && 5 <= length <= |t.buffer| && U16(t.buffer, 0) == length
    requires lo <= t.start.value
    ensures TrueFrame(FrameAt(t, length, context), stream, shift, lo, end)
  {
    OnParts(stream, shift + t.start.value, t.buffer, length);
  }

  ghost predicate AllFed(log: Log, lo: int, hi: int) {
    forall q :: lo <= q < hi ==> Fed(log, q)
  }

  /** Every byte of the frame was fed to the scanner as part of the stream. */
  ghost predicate FromFeeds(f: Frame, log: Log) {
    f.streamSequence.Some? && AllFed(log, f.streamSequence.value, f.streamSequence.value + |f.message|)
  }

  /** The frame lies inside one retransmission the scanner was shown. */
  ghost predicate FromRetransmission(f: Frame, log: Log) {
    exists i :: 0 <= i < |log| && InsideRetransmission(f, log[i])
  }

  ghost predicate InsideRetransmission(f: Frame, c: Call) {
    && c.ScanStandalone? && c.context.streamStart.Some? && f.streamSequence.Some?
    && c.context.streamStart.value <= f.streamSequence.value
    && f.streamSequence.value + |f.message| <= c.context.streamStart.value + |c.data|
  }

  ghost predicate Genuine(f: Frame, log: Log, stream: Stream, shift: int) {
    && f.streamSequence.Some? && |f.message| >= 5 && U16(f.message, 0) == |f.message|
    && On(stream, shift + f.streamSequence.value, f.message)
    && (FromFeeds(f, log) || FromRetransmission(f, log))
  }

  /** What is buffered is the tail of what was fed since the last reset. */
  ghost predicate Tracks(s: FrameState, log: Log, stream: Stream, shift: int, anchor: int) {
    s.buffer != [] ==>
      && Cursor(log, anchor).Some? && Buffers(s, stream, shift, Cursor(log, anchor).value)
      && AllFed(log, s.start.value, Cursor(log, anchor).value)
  }

  lemma GenuineGrows(f: Frame, log: Log, c: Call, stream: Stream, shift: int, anchor: int)
    requires Genuine(f, log, stream, shift)
    ensures Genuine(f, log + [c], stream, shift)
  {
    Append(log, c, stream, shift, anchor);
    if FromRetransmission(f, log) {
      var i :| 0 <= i < |log| && InsideRetransmission(f, log[i]);
      assert InsideRetransmission(f, (log + [c])[i]);
    }
  }

  /** One fed chunk keeps the scanner on the stream. */
  lemma FeedIsTrue(s: FrameState, opcodes: set<nat>, log: Log, c: Call, stream: Stream, shift: int, anchor: int)
    requires c.Feed? && Faithful(log + [c], stream, shift, anchor) && Tracks(s, log, stream, shift, anchor)
    ensures var r := Perform(s, opcodes, c);
            && Tracks(r.state, log + [c], stream, shift, anchor)
            && forall i :: 0 <= i < |r.frames| ==> Genuine(r.frames[i], log + [c], stream, shift)
  {
    Append(log, c, stream, shift, anchor);
    var t := Fill(s, c.data, c.context);
    var end := FeedEnd(c);
    assert AllFed(log + [c], c.context.streamStart.value, end) by {
      assert forall q :: c.context.streamStart.value <= q < end ==> FeedsAt(c, q);
    }
    if s.buffer == [] {
      assert t.buffer == c.data;
    } else {
      JoinedIsOn(stream, shift + s.start.value, s.buffer, c.data);
    }
    assert AllFed(log + [c], t.start.value, end);
    ScanIsTrue(t, opcodes, c.context, stream, shift, t.start.value, end);
  }

  lemma JoinedIsOn(stream: Stream, at: int, a: Bytes, b: Bytes)
    requires On(stream, at, a) && On(stream, at + |a|, b)
    ensures On(stream, at, a + b)
  {
    forall i | 0 <= i < |a + b| ensures (a + b)[i] == stream(at + i) {
      if i >= |a| {
        assert (a + b)[i] == b[i - |a|] == stream(at + |a| + (i - |a|));
      }
    }
  }

  /** Retransmitted bytes yield true frames, only from before the part of the stream already framed,
      and leave the scanner's place in the stream alone. */
  lemma ApartIsTrue(s: FrameState, opcodes: set<nat>, log: Log, c: Call, stream: Stream, shift: int, anchor: int)
    requires c.ScanStandalone? && Carries(c, stream, shift) && Tracks(s, log, stream, shift, anchor)
    ensures var r := Perform(s, opcodes, c);
            && Tracks(r.state, log + [c], stream, shift, anchor)
            && (forall i :: 0 <= i < |r.frames| ==> Genuine(r.frames[i], log + [c], stream, shift))
            && (s.framedStart.Some? ==> forall i :: 0 <= i < |r.frames| ==>
                  r.frames[i].streamSequence.value + |r.frames[i].message| <= s.framedStart.value)
  {
    Append(log, c, stream, shift, anchor);
    var r := Perform(s, opcodes, c);
    ApartFrames(s, opcodes, c, stream, shift);
    hide Perform, TrueFrame;
    forall i | 0 <= i < |r.frames| ensures Genuine(r.frames[i], log + [c], stream, shift) {
      var u := c.context.streamStart.value;
      RetransmittedFrame(r.frames[i], log, c, stream, shift, u, u + |UnframedPrefix(s, c.data, c.context)|);
    }
  }

  lemma ApartFrames(s: FrameState, opcodes: set<nat>, c: Call, stream: Stream, shift: int)
    requires c.ScanStandalone? && Carries(c, stream, shift)
    ensures var r, u := Perform(s, opcodes, c), c.context.streamStart.value;
            && r.state == s.(frameIndex := r.state.frameIndex)
            && (forall i :: 0 <= i < |r.frames| ==>
                  TrueFrame(r.frames[i], stream, shift, u, u + |UnframedPrefix(s, c.data, c.context)|))
            && (s.framedStart.Some? ==> forall i :: 0 <= i < |r.frames| ==>
                  r.frames[i].streamSequence.value + |r.frames[i].message| <= s.framedStart.value)
  {
    var prefix := UnframedPrefix(s, c.data, c.context);
    if prefix != [] {
      var u := c.context.streamStart.value;
      OnParts(stream, shift + u, c.data, |prefix|);
      var inner := FrameState(prefix, c.context.streamStart, false, s.framedStart, s.frameIndex);
      ScanIsTrue(inner, opcodes, c.context, stream, shift, u, u + |prefix|);
    }
  }

  lemma RetransmittedFrame(f: Frame, log: Log, c: Call, stream: Stream, shift: int, lo: int, hi: int)
    requires c.ScanStandalone? && TrueFrame(f, stream, shift, lo, hi)
    requires c.context.streamStart == Some(lo) && hi <= lo + |c.data|
    ensures Genuine(f, log + [c], stream, shift)
  {
    assert InsideRetransmission(f, (log + [c])[|log|]);
  }

  /** End-to-end faithfulness over every run of calls reassembly can make. */
  lemma {:induction false} ReplayIsTrue(s: FrameState, opcodes: set<nat>, log: Log, stream: Stream, shift: int,
      anchor: int)
    requires s.buffer == [] && Faithful(log, stream, shift, anchor)
    ensures var r := Replay(s, opcodes, log);
            && Tracks(r.state, log, stream, shift, anchor)
            && forall i :: 0 <= i < |r.frames| ==> Genuine(r.frames[i], log, stream, shift)
  {
    if log != [] {
      hide Genuine, Tracks, Perform, Carries;
      var init, c := log[..|log| - 1], log[|log| - 1];
      assert log == init + [c];
      ReplayIsTrue(s, opcodes, init, stream, shift, anchor);
      var before := Replay(s, opcodes, init);
      var last := Perform(before.state, opcodes, c);
      CallIsTrue(before.state, opcodes, init, c, stream, shift, anchor);
      forall i | 0 <= i < |before.frames| ensures Genuine(before.frames[i], log, stream, shift) {
        GenuineGrows(before.frames[i], init, c, stream, shift, anchor);
      }
    } else {
      assert Tracks(s, log, stream, shift, anchor);
    }
  }

  lemma CallIsTrue(s: FrameState, opcodes: set<nat>, log: Log, c: Call, stream: Stream, shift: int, anchor: int)
    requires Faithful(log + [c], stream, shift, anchor) && Tracks(s, log, stream, shift, anchor)
    ensures var r := Perform(s, opcodes, c);
            && Tracks(r.state, log + [c], stream, shift, anchor)
            && forall i :: 0 <= i < |r.frames| ==> Genuine(r.frames[i], log + [c], stream, shift)
  {
    assert (log + [c])[..|log|] == log;
    match c
    case Feed(_, _) => FeedIsTrue(s, opcodes, log, c, stream, shift, anchor);
    case ScanStandalone(_, _) => ApartIsTrue(s, opcodes, log, c, stream, shift, anchor);
    case Reset => assert Perform(s, opcodes, c).state.buffer == [];
  }

  /** On any run of a flow whose arrivals came from one stream, every frame equals the stream's slice
      at its position; a frame assembled from the stream touches no skipped position. */
  lemma EveryFrameIsTheStreams(flow: TcpFlowState, s: FrameState, opcodes: set<nat>, i: nat)
    requires flow.Anchored() && flow.coherent && s.buffer == []
    requires i < |Replay(s, opcodes, flow.log).frames|
    ensures var f := Replay(s, opcodes, flow.log).frames[i];
            && Genuine(f, flow.log, flow.stream, flow.shift)
            && (FromFeeds(f, flow.log) ==>
                  forall q :: f.streamSequence.value <= q < f.streamSequence.value + |f.message| ==>
                    !Skipped(flow.skips, q))
  {
    ReplayIsTrue(s, opcodes, flow.log, flow.stream, flow.shift, flow.anchor);
    FedIsNotSkipped(flow.L(), flow.stream, flow.shift);
  }

  lemma FedIsNotSkipped(l: Ledger, stream: Stream, shift: int)
    requires Sound(l, stream, shift, l.next)
    ensures forall q :: Fed(l.log, q) ==> !Skipped(l.skips, q)
  {
    forall q | Fed(l.log, q) ensures !Skipped(l.skips, q) {
      var n: nat := q;
      assert n in l.due;
    }
  }
}
