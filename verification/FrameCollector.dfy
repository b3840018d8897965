// The generic frame scanner: length-framed messages out of a chunked byte stream, with recovery
// when capture begins inside a frame.
module FrameCollector {
  import opened Wire
  import opened ScannerLog

  const MAX_TARGET_MESSAGE_LENGTH: nat := 0xFFFF
  const MAX_UNSYNCHRONIZED_BUFFER: nat := MAX_TARGET_MESSAGE_LENGTH + 4

  datatype Frame = Frame(index: nat, message: Bytes, context: PacketContext, streamSequence: Option<int>)

  datatype FrameState = FrameState(
    buffer: Bytes,
    start: Option<int>,
    synchronized: bool,
    framedStart: Option<int>,
    frameIndex: nat)

  /** A length the header may declare. */
  predicate PlausibleLength(n: nat) {
    5 <= n <= MAX_TARGET_MESSAGE_LENGTH
  }

  /** A defensible frame boundary: a complete frame that carries a known opcode, is the whole
      buffer, or is followed by another complete frame. */
  predicate Candidate(buffer: Bytes, opcodes: set<nat>, at: nat) {
    at + 5 <= |buffer| &&
    var first := U16(buffer, at);
    var end := at + first;
    && PlausibleLength(first) && end <= |buffer|
    && (|| U16(buffer, at + 3) in opcodes
        || (at == 0 && end == |buffer|)
        || (end + 5 <= |buffer| && PlausibleLength(U16(buffer, end)) && end + U16(buffer, end) <= |buffer|))
  }

  /** The earliest boundary at or after `from`. */
  function FirstCandidate(buffer: Bytes, opcodes: set<nat>, from: nat): (at: Option<nat>)
    ensures at.Some? ==> from <= at.value && Candidate(buffer, opcodes, at.value)
    ensures at.Some? ==> forall p :: from <= p < at.value ==> !Candidate(buffer, opcodes, p)
    ensures at.None? ==> forall p :: from <= p ==> !Candidate(buffer, opcodes, p)
    decreases |buffer| - from
  {
    if from + 5 > |buffer| then None
    else if Candidate(buffer, opcodes, from) then Some(from)
    else FirstCandidate(buffer, opcodes, from + 1)
  }

  /** Whether byte zero of a probe is an evidence-backed boundary. */
  predicate CanAnchorAtStart(data: Bytes, opcodes: set<nat>) {
    |data| >= 5 &&
    var first := U16(data, 0);
    PlausibleLength(first) &&
    if U16(data, 3) in opcodes then true
    else if first == |data| then true
    else if first + 5 > |data| then false
    else PlausibleLength(U16(data, first)) && first + U16(data, first) <= |data|
  }

  /** The probe is never stricter than the scan, and differs only on a known opcode whose frame has
      not arrived completely. */
  lemma AnchoringMatchesScanning(data: Bytes, opcodes: set<nat>)
    ensures Candidate(data, opcodes, 0) <==> CanAnchorAtStart(data, opcodes) && U16(data, 0) <= |data|
  {
  }

  function DiscardPrefix(s: FrameState, n: nat): (t: FrameState)
    requires n <= |s.buffer|
    ensures t.buffer == s.buffer[n..]
  {
    var rest := s.buffer[n..];
    s.(buffer := rest,
       start := if rest == [] && n > 0 then None else if s.start.Some? then Some(s.start.value + n) else None)
  }

  /** While no boundary is known, only the newest bytes are kept: enough for the longest frame and one header. */
  function Bounded(s: FrameState): (t: FrameState)
    ensures |t.buffer| == Min(|s.buffer|, MAX_UNSYNCHRONIZED_BUFFER) && t.buffer == s.buffer[|s.buffer| - |t.buffer|..]
  {
    if |s.buffer| > MAX_UNSYNCHRONIZED_BUFFER then DiscardPrefix(s, |s.buffer| - MAX_UNSYNCHRONIZED_BUFFER) else s
  }

  function Synchronize(s: FrameState, at: nat): (t: FrameState)
    requires at <= |s.buffer|
  {
    var d := DiscardPrefix(s, at);
    d.(synchronized := true, framedStart := if d.framedStart.None? then d.start else d.framedStart)
  }

  /** The state at a trusted boundary: where it stands if synchronized, else at the earliest candidate. */
  function Align(s: FrameState, opcodes: set<nat>): (t: Option<FrameState>)
    ensures t.Some? ==> |t.value.buffer| <= |s.buffer| && t.value.synchronized
    ensures t.Some? && |s.buffer| >= 5 ==> |t.value.buffer| >= 5
    ensures t.Some? && !s.synchronized ==>
              var b := t.value.buffer;
              |b| >= 5 && PlausibleLength(U16(b, 0)) && U16(b, 0) <= |b|
  {
    if s.synchronized then Some(s)
    else
      var at := FirstCandidate(s.buffer, opcodes, 0);
      if at.None? then None else Some(Synchronize(s, at.value))
  }

  datatype Scanned = Scanned(state: FrameState, frames: seq<Frame>)

  /** One scan of the buffer: every complete frame from the current boundary on, resynchronizing
      after an impossible length. */
  function Scan(s: FrameState, opcodes: set<nat>, context: PacketContext): (r: Scanned)
    decreases |s.buffer|
  {
    if |s.buffer| < 5 then Scanned(s, [])
    else
      var aligned := Align(s, opcodes);
      if aligned.None? then Scanned(Bounded(s), [])
      else
        var t := aligned.value;
        var length := U16(t.buffer, 0);
        if !PlausibleLength(length) then Scan(DiscardPrefix(t.(synchronized := false), 1), opcodes, context)
        else if length > |t.buffer| then Scanned(t, [])
        else
          var more := Scan(AfterFrame(t, length), opcodes, context);
          Scanned(more.state, [FrameAt(t, length, context)] + more.frames)
  }

  function FrameAt(s: FrameState, length: nat, context: PacketContext): (f: Frame)
    requires length <= |s.buffer|
  {
    Frame(s.frameIndex, s.buffer[..length], context, s.start)
  }

  function AfterFrame(s: FrameState, length: nat): (t: FrameState)
    requires length <= |s.buffer|
  {
    DiscardPrefix(s.(frameIndex := s.frameIndex + 1), length)
  }

  function Prepend(first: seq<Frame>, r: Scanned): (p: Scanned) {
    Scanned(r.state, first + r.frames)
  }

  lemma PrependStep(first: seq<Frame>, frame: Frame, r: Scanned)
    ensures Prepend(first, Scanned(r.state, [frame] + r.frames)) == Prepend(first + [frame], r)
  {
    assert first + ([frame] + r.frames) == first + [frame] + r.frames;
  }

  function Fill(s: FrameState, data: Bytes, context: PacketContext): (t: FrameState) {
    s.(buffer := s.buffer + data, start := if s.buffer == [] then context.streamStart else s.start)
  }

  function Feeding(s: FrameState, opcodes: set<nat>, data: Bytes, context: PacketContext): (r: Scanned) {
    if data == [] then Scanned(s, []) else Scan(Fill(s, data, context), opcodes, context)
  }

  /** The part of retransmitted bytes that lies before anything framed so far. */
  function UnframedPrefix(s: FrameState, data: Bytes, context: PacketContext): (prefix: Bytes) {
    if s.framedStart.Some? && context.streamStart.Some? then
      var length := s.framedStart.value - context.streamStart.value;
      if length <= 0 then [] else data[..Min(length, |data|)]
    else data
  }

  /** Scanning bytes apart from the stream leaves everything but the frame counter as it was. */
  function Apart(s: FrameState, opcodes: set<nat>, data: Bytes, context: PacketContext): (r: Scanned) {
    var prefix := UnframedPrefix(s, data, context);
    if prefix == [] then Scanned(s, [])
    else
      var inner := Scan(FrameState(prefix, context.streamStart, false, s.framedStart, s.frameIndex), opcodes, context);
      Scanned(s.(frameIndex := inner.state.frameIndex), inner.frames)
  }

  function Cleared(s: FrameState): (t: FrameState) {
    s.(buffer := [], start := None, synchronized := false, framedStart := None)
  }

  class FrameCollectorScanner {
    const knownOpcodes: set<nat>
    var buffer: Bytes
    var bufferStartSequence: Option<int>
    var frameIndex: nat
    var synchronized: bool
    var framedStreamStart: Option<int>
    /** Frames handed to the callback. */
    var frames: seq<Frame>

    function State(): FrameState
      reads this
    {
      FrameState(buffer, bufferStartSequence, synchronized, framedStreamStart, frameIndex)
    }

    constructor (knownOpcodes: set<nat>)
      ensures State() == FrameState([], None, false, None, 0) && frames == [] && this.knownOpcodes == knownOpcodes
    {
      this.knownOpcodes := knownOpcodes;
      buffer, bufferStartSequence, frameIndex := [], None, 0;
      synchronized, framedStreamStart, frames := false, None, [];
    }

    method Reset()
      modifies this
      ensures State() == Cleared(old(State())) && frames == old(frames)
    {
      buffer, bufferStartSequence, synchronized, framedStreamStart := [], None, false, None;
    }

    method Discard(count: nat)
      requires count <= |buffer|
      modifies this`buffer, this`bufferStartSequence
      ensures State() == DiscardPrefix(old(State()), count)
    {
      if count == 0 {
        assert buffer[0..] == buffer;
        return;
      }
      buffer := buffer[count..];
      if bufferStartSequence.Some? {
        bufferStartSequence := Some(bufferStartSequence.value + count);
      }
      if buffer == [] {
        bufferStartSequence := None;
      }
    }

    method FindSynchronizationCandidate() returns (at: Option<nat>)
      ensures at == FirstCandidate(buffer, knownOpcodes, 0)
    {
      var start := 0;
      while start + 5 <= |buffer|
        invariant FirstCandidate(buffer, knownOpcodes, 0) == FirstCandidate(buffer, knownOpcodes, start)
      {
        var first := U16(buffer, start);
        if PlausibleLength(first) && start + first <= |buffer| {
          var end := start + first;
          if U16(buffer, start + 3) in knownOpcodes {
            return Some(start);
          }
          if start == 0 && end == |buffer| {
            return Some(start);
          }
          if end + 5 <= |buffer| && PlausibleLength(U16(buffer, end)) && end + U16(buffer, end) <= |buffer| {
            return Some(start);
          }
        }
        start := start + 1;
      }
      return None;
    }

    /** Stand at a trusted boundary, or give up and bound what is kept. */
    method Synchronized() returns (found: bool)
      modifies this`buffer, this`bufferStartSequence, this`synchronized, this`framedStreamStart
      ensures found == Align(old(State()), knownOpcodes).Some?
      ensures State() == if found then Align(old(State()), knownOpcodes).value else Bounded(old(State()))
    {
      if synchronized {
        return true;
      }
      var at := FindSynchronizationCandidate();
      if at.None? {
        if |buffer| > MAX_UNSYNCHRONIZED_BUFFER {
          Discard(|buffer| - MAX_UNSYNCHRONIZED_BUFFER);
        }
        return false;
      }
      Discard(at.value);
      synchronized := true;
      if framedStreamStart.None? {
        framedStreamStart := bufferStartSequence;
      }
      return true;
    }

    method ScanBuffer(context: PacketContext)
      modifies this
      ensures var r := Scan(old(State()), knownOpcodes, context);
              State() == r.state && frames == old(frames) + r.frames
    {
      hide Align, DiscardPrefix, Bounded, U16;
      ghost var emitted: seq<Frame> := [];
      while |buffer| >= 5
        invariant frames == old(frames) + emitted
        invariant Scan(old(State()), knownOpcodes, context) == Prepend(emitted, Scan(State(), knownOpcodes, context))
        decreases |buffer|
      {
        ghost var before := State();
        var found := Synchronized();
        if !found {
          return;
        }
        ghost var here := State();
        var length := U16(buffer, 0);
        if !PlausibleLength(length) {
          synchronized := false;
          Discard(1);
          continue;
        }
        if length > |buffer| {
          return;
        }
        var frame := Frame(frameIndex, buffer[..length], context, bufferStartSequence);
        frameIndex := frameIndex + 1;
        frames := frames + [frame];
        Discard(length);
        PrependStep(emitted, frame, Scan(State(), knownOpcodes, context));
        emitted := emitted + [frame];
      }
    }

    method Feed(data: Bytes, context: PacketContext)
      modifies this
      ensures var r := Feeding(old(State()), knownOpcodes, data, context);
              State() == r.state && frames == old(frames) + r.frames
    {
      if data == [] {
        return;
      }
      if buffer == [] {
        bufferStartSequence := context.streamStart;
      }
      buffer := buffer + data;
      ScanBuffer(context);
    }

    method ScanStandalone(data: Bytes, context: PacketContext)
      modifies this
      ensures var r := Apart(old(State()), knownOpcodes, data, context);
              State() == r.state && frames == old(frames) + r.frames
    {
      if data == [] {
        return;
      }
      var eligible := data;
      if framedStreamStart.Some? && context.streamStart.Some? {
        var length := framedStreamStart.value - context.streamStart.value;
        if length <= 0 {
          return;
        }
        eligible := data[..Min(length, |data|)];
      }
      var saved := State();
      buffer, bufferStartSequence, synchronized := eligible, context.streamStart, false;
      ScanBuffer(context);
      buffer, bufferStartSequence := saved.buffer, saved.start;
      synchronized, framedStreamStart := saved.synchronized, saved.framedStart;
    }
  }
}
