// The frame scanner where no boundary is given: at the start of a capture, after an impossible length,
// after a reset, and on bytes that come late.
module Recovery {
  import opened Wire
  import opened ScannerLog
  import opened FrameCollector
  import opened Framing
  import Pipeline

  // Finding a boundary.

  /** There is evidence that these messages start at a boundary: a known opcode, a second complete
      message, or nothing but one message. */
  ghost predicate Evident(messages: seq<Bytes>, tail: Bytes, junk: Bytes, opcodes: set<nat>) {
    && messages != [] && WellFormed(messages[0])
    && (U16(messages[0], 3) in opcodes || |messages| > 1 || (junk == [] && tail == []))
  }

  lemma EvidentIsCandidate(messages: seq<Bytes>, tail: Bytes, junk: Bytes, opcodes: set<nat>)
    requires AllWellFormed(messages) && Evident(messages, tail, junk, opcodes)
    ensures Candidate(junk + (Flatten(messages) + tail), opcodes, |junk|)
  {
    hide PlausibleLength, U16, WellFormed, Flatten;
    var m, rest := messages[0], messages[1..];
    var later := Flatten(rest) + tail;
    assert WellFormed(m) && messages == [m] + rest;
    FlattenFirst(m, rest);
    Regroup(m, Flatten(rest), tail);
    HeaderBehind(junk, m, later);
    if |messages| > 1 {
      var n := messages[1];
      assert WellFormed(n) && rest == [n] + rest[1..];
      FlattenFirst(n, rest[1..]);
      Regroup(n, Flatten(rest[1..]), tail);
      HeaderBehind([], n, Flatten(rest[1..]) + tail);
      assert [] + later == later;
      HeaderFollows(junk, m, later);
    } else {
      assert rest == [] && Flatten(rest) == [] by { FlattenNothing(); }
      assert later == tail;
    }
  }

  lemma FlattenNothing()
    ensures Flatten([]) == []
  {
  }

  /** A message behind other bytes still declares its length and its opcode. */
  lemma HeaderBehind(junk: Bytes, m: Bytes, later: Bytes)
    requires WellFormed(m)
    ensures var b, at := junk + (m + later), |junk|;
            && at + |m| <= |b| && |m| >= 5 && PlausibleLength(|m|)
            && U16(b, at) == |m| && U16(b, at + 3) == U16(m, 3) && |b| == at + |m| + |later|
  {
  }

  lemma HeaderFollows(junk: Bytes, m: Bytes, later: Bytes)
    requires |later| >= 2
    ensures U16(junk + (m + later), |junk| + |m|) == U16(later, 0)
  {
  }

  /** Without a boundary, behind bytes that offer none, evident messages come out exactly. */
  lemma MidStream(s: FrameState, opcodes: set<nat>, context: PacketContext, junk: Bytes, messages: seq<Bytes>,
                  tail: Bytes, start: int)
    requires !s.synchronized && s.start == Some(start) && s.buffer == junk + (Flatten(messages) + tail)
    requires AllWellFormed(messages) && Partial(tail) && Evident(messages, tail, junk, opcodes)
    requires forall p :: 0 <= p < |junk| ==> !Candidate(s.buffer, opcodes, p)
    ensures Scan(s, opcodes, context).frames == Cut(messages, s.frameIndex, start + |junk|, context)
  {
    hide FirstCandidate, Candidate, Synchronize, Evident, AllWellFormed, Flatten, Scan, Cut, Partial, At,
        DiscardPrefix, WellFormed;
    var body, at := Flatten(messages) + tail, start + |junk|;
    EvidentIsCandidate(messages, tail, junk, opcodes);
    EvidentIsLong(messages, tail, junk, opcodes);
    EarliestIsThere(s.buffer, opcodes, |junk|);
    var framed := s.(framedStart := if s.framedStart.None? then Some(at) else s.framedStart);
    StandsThere(s, junk, body, start);
    ScanFromBoundary(s, At(framed, body, at, s.frameIndex), opcodes, context, |junk|);
    ScanCuts(framed, opcodes, context, messages, tail, at, s.frameIndex);
  }

  lemma EvidentIsLong(messages: seq<Bytes>, tail: Bytes, junk: Bytes, opcodes: set<nat>)
    requires Evident(messages, tail, junk, opcodes)
    ensures |Flatten(messages) + tail| >= 5
  {
    assert |Flatten(messages)| >= |messages[0]|;
  }

  lemma EarliestIsThere(buffer: Bytes, opcodes: set<nat>, at: nat)
    requires Candidate(buffer, opcodes, at) && forall p :: 0 <= p < at ==> !Candidate(buffer, opcodes, p)
    ensures FirstCandidate(buffer, opcodes, 0) == Some(at)
  {
    hide Candidate;
  }

  lemma StandsThere(s: FrameState, junk: Bytes, body: Bytes, start: int)
    requires s.buffer == junk + body && body != [] && s.start == Some(start)
    ensures Synchronize(s, |junk|) ==
            At(s.(framedStart := if s.framedStart.None? then Some(start + |junk|) else s.framedStart), body,
                start + |junk|, s.frameIndex)
  {
    assert s.buffer[|junk|..] == body;
  }

  lemma ScanFromBoundary(s: FrameState, t: FrameState, opcodes: set<nat>, context: PacketContext, at: nat)
    requires !s.synchronized && at <= |s.buffer| && |s.buffer| >= 5
    requires FirstCandidate(s.buffer, opcodes, 0) == Some(at) && t == Synchronize(s, at)
    ensures Scan(s, opcodes, context) == Scan(t, opcodes, context)
  {
    hide FirstCandidate, DiscardPrefix;
  }

  /** While there is no evidence of a boundary the scanner keeps what it has, enough for the longest
      message and a header behind it, and of more than that the newest part. */
  lemma KeepsWaiting(s: FrameState, opcodes: set<nat>, context: PacketContext)
    requires !s.synchronized && forall p: nat :: !Candidate(s.buffer, opcodes, p)
    ensures var r := Scan(s, opcodes, context);
            && r.frames == [] && !r.state.synchronized && r.state.framedStart == s.framedStart
            && if |s.buffer| <= 65_539 then r.state == s
               else r.state.buffer == s.buffer[|s.buffer| - 65_539..]
                    && (s.start.Some? ==> r.state.start == Some(s.start.value + (|s.buffer| - 65_539)))
  {
    hide Candidate;
    assert FirstCandidate(s.buffer, opcodes, 0).None?;
  }

  /** Where a boundary was trusted and the length there is impossible, the search starts again one byte on. */
  lemma AfterImpossibleLength(s: FrameState, opcodes: set<nat>, context: PacketContext, start: int)
    requires s.synchronized && |s.buffer| >= 5 && s.start == Some(start) && U16(s.buffer, 0) < 5
    ensures Scan(s, opcodes, context) ==
            Scan(s.(buffer := s.buffer[1..], start := Some(start + 1), synchronized := false), opcodes, context)
  {
    hide FirstCandidate;
  }

  // What the scanner has framed since it was last reset.

  ghost predicate Standing(s: FrameState) {
    && (s.buffer != [] ==> s.start.Some?) && (s.synchronized ==> s.framedStart.Some?)
  }

  /** The first frame a scan cuts is where the framed part begins, unless that is known already. */
  lemma {:induction false} ScanFrames(s: FrameState, opcodes: set<nat>, context: PacketContext)
    requires Standing(s)
    ensures var r := Scan(s, opcodes, context);
            && Standing(r.state) && (forall i :: 0 <= i < |r.frames| ==> r.frames[i].streamSequence.Some?)
            && r.state.framedStart ==
               if s.framedStart.Some? || r.frames == [] then s.framedStart else r.frames[0].streamSequence
    decreases |s.buffer|
  {
    hide FirstCandidate, U16;
    if |s.buffer| >= 5 {
      var aligned := Align(s, opcodes);
      if aligned.Some? {
        var t := aligned.value;
        var length := U16(t.buffer, 0);
        if !PlausibleLength(length) {
          ScanFrames(DiscardPrefix(t.(synchronized := false), 1), opcodes, context);
        } else if length <= |t.buffer| {
          ScanFrames(AfterFrame(t, length), opcodes, context);
        }
      }
    }
  }

  /** The frames cut from the stream itself since the last reset in the log. */
  function FedSinceReset(s: FrameState, opcodes: set<nat>, log: Log): (frames: seq<Frame>) {
    if log == [] then []
    else
      var init, c := log[..|log| - 1], log[|log| - 1];
      match c
      case Reset => []
      case ScanStandalone(_, _) => FedSinceReset(s, opcodes, init)
      case Feed(data, context) =>
        var before := Pipeline.Replay(s, opcodes, init).state;
        FedSinceReset(s, opcodes, init) + Feeding(before, opcodes, data, context).frames
  }

  /** The framed part of the stream begins at the first frame cut since the last reset, and at none before. */
  lemma {:induction false} FramedFromFirst(s: FrameState, opcodes: set<nat>, log: Log)
    requires s.buffer == [] && !s.synchronized && s.framedStart.None? && Located(log)
    ensures var t, frames := Pipeline.Replay(s, opcodes, log).state, FedSinceReset(s, opcodes, log);
            && Standing(t) && t.framedStart == (if frames == [] then None else frames[0].streamSequence)
            && forall i :: 0 <= i < |frames| ==> frames[i].streamSequence.Some?
  {
    hide Scan, UnframedPrefix, Standing;
    if log == [] {
      assert Standing(s) by { StandsAtFirst(s); }
    } else {
      var init, c := log[..|log| - 1], log[|log| - 1];
      assert LocatedCall(c);
      FramedFromFirst(s, opcodes, init);
      StepFrames(Pipeline.Replay(s, opcodes, init).state, opcodes, c, FedSinceReset(s, opcodes, init));
    }
  }

  lemma StandsAtFirst(s: FrameState)
    requires s.buffer == [] && !s.synchronized
    ensures Standing(s)
  {
  }

  lemma StepFrames(t: FrameState, opcodes: set<nat>, c: Call, frames: seq<Frame>)
    requires LocatedCall(c) && Standing(t)
    requires t.framedStart == (if frames == [] then None else frames[0].streamSequence)
    requires forall i :: 0 <= i < |frames| ==> frames[i].streamSequence.Some?
    ensures var r := Pipeline.Perform(t, opcodes, c);
            var more := if c.Reset? then [] else if c.ScanStandalone? then frames else frames + r.frames;
            && Standing(r.state) && r.state.framedStart == (if more == [] then None else more[0].streamSequence)
            && forall i :: 0 <= i < |more| ==> more[i].streamSequence.Some?
  {
    hide Scan, UnframedPrefix;
    if c.Feed? && c.data != [] {
      ScanFrames(Fill(t, c.data, c.context), opcodes, c.context);
    }
  }

  // Bytes that come late.

  lemma AlignForgetsFramed(s: FrameState, opcodes: set<nat>, framed: Option<int>)
    ensures var a, b := Align(s, opcodes), Align(s.(framedStart := framed), opcodes);
            (a.None? <==> b.None?) && (a.Some? ==> b.value == a.value.(framedStart := b.value.framedStart))
  {
    hide FirstCandidate;
  }

  /** What is already framed does not matter to the frames cut from other bytes. */
  lemma {:induction false} ScanForgetsFramed(s: FrameState, opcodes: set<nat>, context: PacketContext,
                                             framed: Option<int>)
    ensures Scan(s.(framedStart := framed), opcodes, context).frames == Scan(s, opcodes, context).frames
    decreases |s.buffer|
  {
    hide FirstCandidate, U16, Align;
    if |s.buffer| >= 5 {
      var aligned := Align(s, opcodes);
      AlignForgetsFramed(s, opcodes, framed);
      if aligned.Some? {
        var t, u := aligned.value, Align(s.(framedStart := framed), opcodes).value;
        var length := U16(t.buffer, 0);
        if !PlausibleLength(length) {
          var next := DiscardPrefix(t.(synchronized := false), 1);
          assert DiscardPrefix(u.(synchronized := false), 1) == next.(framedStart := u.framedStart);
          ScanForgetsFramed(next, opcodes, context, u.framedStart);
        } else if length <= |t.buffer| {
          assert AfterFrame(u, length) == AfterFrame(t, length).(framedStart := u.framedStart);
          ScanForgetsFramed(AfterFrame(t, length), opcodes, context, u.framedStart);
        }
      }
    }
  }

  /** What of the bytes at `at` lies before the first frame cut since the last reset. */
  function BeforeFramed(frames: seq<Frame>, data: Bytes, at: int): (early: Bytes) {
    if frames == [] || frames[0].streamSequence.None? then data
    else data[..Min(|data|, Max(0, frames[0].streamSequence.value - at))]
  }

  /** Bytes shown apart from the stream yield just what a fresh scanner cuts from those of them that lie
      before everything framed since the last reset, and leave the scanner's place alone. */
  lemma LateBytes(s: FrameState, opcodes: set<nat>, log: Log, data: Bytes, context: PacketContext, at: int)
    requires s.buffer == [] && !s.synchronized && s.framedStart.None? && Located(log)
    requires context.streamStart == Some(at)
    ensures var t := Pipeline.Replay(s, opcodes, log).state;
            var r := Pipeline.Perform(t, opcodes, ScanStandalone(data, context));
            var early := BeforeFramed(FedSinceReset(s, opcodes, log), data, at);
            && r.state == t.(frameIndex := r.state.frameIndex)
            && r.frames == Scan(FrameState(early, Some(at), false, None, t.frameIndex), opcodes, context).frames
  {
    hide Pipeline.Replay, FedSinceReset, Align, Bounded, AfterFrame, FirstCandidate;
    FramedFromFirst(s, opcodes, log);
    var t := Pipeline.Replay(s, opcodes, log).state;
    var early := BeforeFramed(FedSinceReset(s, opcodes, log), data, at);
    assert UnframedPrefix(t, data, context) == early;
    ScanForgetsFramed(FrameState(early, Some(at), false, None, t.frameIndex), opcodes, context, t.framedStart);
  }

  /** So messages of a range that was given up are recovered if they come late and whole. */
  lemma LateMessages(s: FrameState, opcodes: set<nat>, log: Log, messages: seq<Bytes>, context: PacketContext, at: int)
    requires s.buffer == [] && !s.synchronized && s.framedStart.None? && Located(log)
    requires context.streamStart == Some(at) && AllWellFormed(messages) && messages != []
    requires var frames := FedSinceReset(s, opcodes, log);
             frames != [] && frames[0].streamSequence.Some? ==>
               at + |Flatten(messages)| <= frames[0].streamSequence.value
    ensures var t := Pipeline.Replay(s, opcodes, log).state;
            Pipeline.Perform(t, opcodes, ScanStandalone(Flatten(messages), context)).frames
            == Cut(messages, t.frameIndex, at, context)
  {
    hide Pipeline.Replay, FedSinceReset, Pipeline.Perform, Scan, Candidate, Cut;
    var t, data := Pipeline.Replay(s, opcodes, log).state, Flatten(messages);
    LateBytes(s, opcodes, log, data, context, at);
    assert BeforeFramed(FedSinceReset(s, opcodes, log), data, at) == data;
    assert [] + (data + []) == data;
    MidStream(FrameState(data, Some(at), false, None, t.frameIndex), opcodes, context, [], messages, [], at);
  }
}
