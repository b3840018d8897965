// Reassembly and the target-message scan joined: on any run, every record and verdict reported is about
// the true stream's bytes at the stated place, and never about bytes on two sides of a skipped range.
module TargetPipeline {
  import opened Wire
  import opened ScannerLog
  import opened ReceivedSet
  import opened Decoder
  import opened MessageDecoder
  import opened Reassembly
  import Pipeline
  import TargetStream

  type Output = TargetStream.Output

  function LengthOf(o: Output): nat {
    match o
    case Event(_, message, _) => |message|
    case Verdict(_, messageLength, _, _, _) => messageLength
  }

  /** The length field the stream has at `at`. */
  ghost function DeclaredAt(stream: Stream, at: int): int {
    stream(at) as int + 0x100 * (stream(at + 1) as int)
  }

  /** The record is one that a configured layout decodes from the message. */
  ghost predicate Decoded(specs: seq<EventSpec>, o: Output)
    requires o.Event?
  {
    exists spec, records :: DecodesTo(specs, spec, o.message, records) && o.record in records
  }

  ghost predicate DecodesTo(specs: seq<EventSpec>, spec: EventSpec, message: Bytes, records: seq<DecodedRecord>) {
    spec in specs && Decode(spec, message, TargetStream.SourceContext(spec, message)) == Some(records)
  }

  /** What is reported is about a whole message of the stream, in `[lo, hi)`, at the place it states. */
  ghost predicate TrueOutput(o: Output, specs: seq<EventSpec>, stream: Stream, shift: int, lo: int, hi: int) {
    && o.streamSequence.Some?
    && var at := o.streamSequence.value;
       && lo <= at && at + LengthOf(o) <= hi
       && DeclaredAt(stream, shift + at) == LengthOf(o)
       && (o.Event? ==> On(stream, shift + at, o.message) && Decoded(specs, o))
  }

  ghost predicate AllTrue(outputs: seq<Output>, specs: seq<EventSpec>, stream: Stream, shift: int, lo: int, hi: int) {
    forall i :: 0 <= i < |outputs| ==> TrueOutput(outputs[i], specs, stream, shift, lo, hi)
  }

  lemma AllTrueJoin(a: seq<Output>, b: seq<Output>, specs: seq<EventSpec>, stream: Stream, shift: int, lo: int, hi: int)
    requires AllTrue(a, specs, stream, shift, lo, hi) && AllTrue(b, specs, stream, shift, lo, hi)
    ensures AllTrue(a + b, specs, stream, shift, lo, hi)
  {
    hide TrueOutput;
  }

  lemma {:induction false} MatchingAreConfigured(specs: seq<EventSpec>, b: Bytes, p: nat)
    ensures forall spec :: spec in TargetStream.MatchingAt(specs, b, p) ==> spec in specs
  {
    hide TargetStream.HeaderAt;
    if specs != [] {
      MatchingAreConfigured(specs[1..], b, p);
    }
  }

  lemma {:induction false} ValidAreDecoded(matching: seq<EventSpec>, message: Bytes)
    ensures forall v :: v in TargetStream.ValidDecodes(matching, message) ==>
              DecodesTo(matching, v.spec, message, v.records)
  {
    hide Decode, TargetStream.SourceContext;
    if matching != [] {
      ValidAreDecoded(matching[1..], message);
    }
  }

  lemma {:induction false} EventsAreTrue(records: seq<DecodedRecord>, all: seq<DecodedRecord>, message: Bytes, at: int,
                                         spec: EventSpec, specs: seq<EventSpec>, stream: Stream, shift: int,
                                         lo: int, hi: int)
    requires DecodesTo(specs, spec, message, all) && forall r :: r in records ==> r in all
    requires On(stream, shift + at, message) && DeclaredAt(stream, shift + at) == |message|
    requires lo <= at && at + |message| <= hi
    ensures AllTrue(TargetStream.Events(records, message, Some(at)), specs, stream, shift, lo, hi)
  {
    hide On, DecodesTo;
    if records != [] {
      EventsAreTrue(records[1..], all, message, at, spec, specs, stream, shift, lo, hi);
      var first := TargetStream.Event(records[0], message, Some(at));
      assert Decoded(specs, first);
      AllTrueJoin([first], TargetStream.Events(records[1..], message, Some(at)), specs, stream, shift, lo, hi);
    }
  }

  /** One complete message. */
  lemma HandledIsTrue(matching: seq<EventSpec>, message: Bytes, at: int, observing: bool, specs: seq<EventSpec>,
                      stream: Stream, shift: int, lo: int, hi: int)
    requires forall spec :: spec in matching ==> spec in specs
    requires On(stream, shift + at, message) && DeclaredAt(stream, shift + at) == |message|
    requires lo <= at && at + |message| <= hi
    ensures AllTrue(TargetStream.Handle(matching, message, Some(at), observing).outputs, specs, stream, shift, lo, hi)
  {
    hide On, TargetStream.ValidDecodes, TargetStream.Events, TargetStream.StorageLayouts, TargetStream.StorageDecodes,
        DecodesTo;
    var valid := TargetStream.ValidDecodes(matching, message);
    var verdicts := if observing then TargetStream.Verdicts(matching, valid, |message|, Some(at)) else [];
    assert AllTrue(verdicts, specs, stream, shift, lo, hi);
    if |valid| == 1 {
      ValidAreDecoded(matching, message);
      assert valid[0] in valid;
      Configured(matching, specs, valid[0].spec, message, valid[0].records);
      EventsAreTrue(valid[0].records, valid[0].records, message, at, valid[0].spec, specs, stream, shift, lo, hi);
      AllTrueJoin(verdicts, TargetStream.Events(valid[0].records, message, Some(at)), specs, stream, shift, lo, hi);
    }
  }

  lemma Configured(matching: seq<EventSpec>, specs: seq<EventSpec>, spec: EventSpec, message: Bytes,
                   records: seq<DecodedRecord>)
    requires DecodesTo(matching, spec, message, records) && forall s :: s in matching ==> s in specs
    ensures DecodesTo(specs, spec, message, records)
  {
  }

  lemma DeclaredIsU16(stream: Stream, at: int, b: Bytes, p: nat)
    requires On(stream, at, b) && p + 2 <= |b|
    ensures DeclaredAt(stream, at + p) == U16(b, p)
  {
    assert b[p] == stream(at + p) && b[p + 1] == stream(at + (p + 1));
  }

  /** One scan of true bytes reports only what is true, and what it keeps is the end of them. */
  lemma {:induction false} ScanIsTrue(specs: seq<EventSpec>, observing: bool, b: Bytes, base: int, stream: Stream,
                                      shift: int, lo: int)
    requires On(stream, shift + base, b) && lo <= base
    ensures var r := TargetStream.Scan(specs, observing, b, Some(base));
            && AllTrue(r.outputs, specs, stream, shift, lo, base + |b|)
            && On(stream, shift + base + |b| - |r.rest|, r.rest)
    decreases |b|
  {
    hide TargetStream.Handle, TargetStream.MatchingAt, TargetStream.Leftmost, AllTrue, On, U16, TargetStream.Scan;
    var s := TargetStream.StepOf(specs, observing, b, Some(base));
    var p := TargetStream.Leftmost(specs, b, 0);
    match s
    case NoHeader =>
      TargetStream.ScanOfNoHeader(specs, observing, b, Some(base));
      OnParts(stream, shift + base, b, |b| - |TargetStream.SplitHeader(b)|);
      NoOutputs(specs, stream, shift, lo, base + |b|);
    case Incomplete(at) =>
      TargetStream.ScanOfIncomplete(specs, observing, b, Some(base));
      OnParts(stream, shift + base, b, at);
      NoOutputs(specs, stream, shift, lo, base + |b|);
    case Complete(outputs, next) =>
      TargetStream.ScanOfComplete(specs, observing, b, Some(base));
      var at := p.value;
      MessageIsTrue(specs, observing, b, base, at, stream, shift, lo);
      OnParts(stream, shift + base, b, next);
      ScanIsTrue(specs, observing, b[next..], base + next, stream, shift, lo);
      AllTrueJoin(outputs, TargetStream.Scan(specs, observing, b[next..], Some(base + next)).outputs, specs, stream,
          shift, lo, base + |b|);
  }

  lemma NoOutputs(specs: seq<EventSpec>, stream: Stream, shift: int, lo: int, hi: int)
    ensures AllTrue([], specs, stream, shift, lo, hi)
  {
  }

  lemma MessageIsTrue(specs: seq<EventSpec>, observing: bool, b: Bytes, base: int, at: nat, stream: Stream, shift: int,
                      lo: int)
    requires On(stream, shift + base, b) && lo <= base && TargetStream.MatchingAt(specs, b, at) != []
    requires at + U16(b, at) <= |b|
    ensures AllTrue(TargetStream.Handle(TargetStream.MatchingAt(specs, b, at), b[at..at + U16(b, at)], Some(base + at),
                        observing).outputs, specs, stream, shift, lo, base + |b|)
  {
    hide AllTrue, TargetStream.Handle, TargetStream.MatchingAt, U16;
    var message := b[at..at + U16(b, at)];
    OnParts(stream, shift + base, b, at);
    OnParts(stream, shift + base + at, b[at..], U16(b, at));
    assert b[at..][..U16(b, at)] == message;
    DeclaredIsU16(stream, shift + base, b, at);
    MatchingAreConfigured(specs, b, at);
    HandledIsTrue(TargetStream.MatchingAt(specs, b, at), message, base + at, observing, specs, stream, shift, lo,
        base + |b|);
  }

  /** Every byte of the message was fed to the scanner as part of the stream. */
  ghost predicate FromFeeds(o: Output, log: Log) {
    o.streamSequence.Some? && Pipeline.AllFed(log, o.streamSequence.value, o.streamSequence.value + LengthOf(o))
  }

  /** The message lies inside one retransmission the scanner was shown. */
  ghost predicate FromRetransmission(o: Output, log: Log) {
    exists i :: 0 <= i < |log| && InsideRetransmission(o, log[i])
  }

  ghost predicate InsideRetransmission(o: Output, c: Call) {
    && c.ScanStandalone? && c.context.streamStart.Some? && o.streamSequence.Some?
    && c.context.streamStart.value <= o.streamSequence.value
    && o.streamSequence.value + LengthOf(o) <= c.context.streamStart.value + |c.data|
  }

  ghost predicate Genuine(o: Output, specs: seq<EventSpec>, log: Log, stream: Stream, shift: int) {
    && o.streamSequence.Some? && DeclaredAt(stream, shift + o.streamSequence.value) == LengthOf(o)
    && (o.Event? ==> On(stream, shift + o.streamSequence.value, o.message) && Decoded(specs, o))
    && (FromFeeds(o, log) || FromRetransmission(o, log))
  }

  ghost predicate AllGenuine(outputs: seq<Output>, specs: seq<EventSpec>, log: Log, stream: Stream, shift: int) {
    forall i :: 0 <= i < |outputs| ==> Genuine(outputs[i], specs, log, stream, shift)
  }

  /** What is buffered is the tail of what was fed since the last reset. */
  ghost predicate Tracks(s: TargetStream.ScannerState, log: Log, stream: Stream, shift: int, anchor: int) {
    s.buffer != [] ==>
      && Cursor(log, anchor).Some? && s.start.Some? && s.start.value + |s.buffer| == Cursor(log, anchor).value
      && On(stream, shift + s.start.value, s.buffer)
      && Pipeline.AllFed(log, s.start.value, Cursor(log, anchor).value)
  }

  lemma GenuineGrows(o: Output, specs: seq<EventSpec>, log: Log, c: Call, stream: Stream, shift: int, anchor: int)
    requires Genuine(o, specs, log, stream, shift)
    ensures Genuine(o, specs, log + [c], stream, shift)
  {
    hide Decoded, On;
    Append(log, c, stream, shift, anchor);
    if FromRetransmission(o, log) {
      var i :| 0 <= i < |log| && InsideRetransmission(o, log[i]);
      assert InsideRetransmission(o, (log + [c])[i]);
    }
  }

  lemma FedIsGenuine(outputs: seq<Output>, specs: seq<EventSpec>, log: Log, stream: Stream, shift: int, lo: int,
                     hi: int)
    requires AllTrue(outputs, specs, stream, shift, lo, hi) && Pipeline.AllFed(log, lo, hi)
    ensures AllGenuine(outputs, specs, log, stream, shift)
  {
    hide Decoded, On;
  }

  lemma ShownIsGenuine(outputs: seq<Output>, specs: seq<EventSpec>, log: Log, c: Call, stream: Stream, shift: int)
    requires c.ScanStandalone? && c.context.streamStart.Some?
    requires AllTrue(outputs, specs, stream, shift, c.context.streamStart.value,
                 c.context.streamStart.value + |c.data|)
    ensures AllGenuine(outputs, specs, log + [c], stream, shift)
  {
    hide Decoded, On;
    forall i | 0 <= i < |outputs| ensures Genuine(outputs[i], specs, log + [c], stream, shift) {
      assert TrueOutput(outputs[i], specs, stream, shift, c.context.streamStart.value,
          c.context.streamStart.value + |c.data|);
      assert InsideRetransmission(outputs[i], (log + [c])[|log|]);
    }
  }

  /** What one more call adds to the outputs, and that the scanner stays on the stream. */
  ghost predicate Advances(specs: seq<EventSpec>, s: TargetStream.ScannerState, t: TargetStream.ScannerState, log: Log,
                           stream: Stream, shift: int, anchor: int)
  {
    && s.outputs <= t.outputs && AllGenuine(t.outputs[|s.outputs|..], specs, log, stream, shift)
    && Tracks(t, log, stream, shift, anchor)
  }

  lemma FeedIsTrue(specs: seq<EventSpec>, observing: bool, s: TargetStream.ScannerState, log: Log, c: Call,
                   stream: Stream, shift: int, anchor: int)
    requires c.Feed? && Faithful(log + [c], stream, shift, anchor) && Tracks(s, log, stream, shift, anchor)
    ensures Advances(specs, s, TargetStream.Performed(specs, observing, s, c), log + [c], stream, shift, anchor)
  {
    hide TargetStream.Scan, AllTrue, AllGenuine;
    Append(log, c, stream, shift, anchor);
    var b, end := s.buffer + c.data, FeedEnd(c);
    assert Pipeline.AllFed(log + [c], c.context.streamStart.value, end) by {
      assert forall q :: c.context.streamStart.value <= q < end ==> FeedsAt(c, q);
    }
    var base := if s.buffer == [] then c.context.streamStart.value else s.start.value;
    if s.buffer == [] {
      assert b == c.data;
    } else {
      Pipeline.JoinedIsOn(stream, shift + base, s.buffer, c.data);
    }
    assert Pipeline.AllFed(log + [c], base, end);
    ScanIsTrue(specs, observing, b, base, stream, shift, base);
    var r := TargetStream.Scan(specs, observing, b, Some(base));
    FedIsGenuine(r.outputs, specs, log + [c], stream, shift, base, end);
  }

  lemma ShownIsTrue(specs: seq<EventSpec>, observing: bool, s: TargetStream.ScannerState, log: Log, c: Call,
                    stream: Stream, shift: int, anchor: int)
    requires c.ScanStandalone? && Faithful(log + [c], stream, shift, anchor) && Tracks(s, log, stream, shift, anchor)
    ensures Advances(specs, s, TargetStream.Performed(specs, observing, s, c), log + [c], stream, shift, anchor)
  {
    hide TargetStream.Scan, AllTrue, AllGenuine;
    Append(log, c, stream, shift, anchor);
    var u := c.context.streamStart.value;
    ScanIsTrue(specs, observing, c.data, u, stream, shift, u);
    ShownIsGenuine(TargetStream.Scan(specs, observing, c.data, Some(u)).outputs, specs, log, c, stream, shift);
  }

  lemma ResetIsTrue(specs: seq<EventSpec>, observing: bool, s: TargetStream.ScannerState, log: Log, stream: Stream,
                    shift: int, anchor: int)
    ensures Advances(specs, s, TargetStream.Performed(specs, observing, s, Reset), log + [Reset], stream, shift, anchor)
  {
  }

  /** End-to-end faithfulness over every run of calls reassembly can make. */
  lemma {:induction false} ReplayIsTrue(specs: seq<EventSpec>, observing: bool, log: Log, stream: Stream, shift: int,
                                        anchor: int)
    requires Faithful(log, stream, shift, anchor)
    ensures var s := TargetStream.Replayed(specs, observing, log);
            Tracks(s, log, stream, shift, anchor) && AllGenuine(s.outputs, specs, log, stream, shift)
  {
    hide Genuine, Tracks, TargetStream.Performed, Carries;
    if log == [] {
      NothingBuffered(specs, observing, stream, shift, anchor);
    } else {
      var init, c := log[..|log| - 1], log[|log| - 1];
      assert log == init + [c];
      ReplayIsTrue(specs, observing, init, stream, shift, anchor);
      var s := TargetStream.Replayed(specs, observing, init);
      match c {
        case Feed(_, _) => FeedIsTrue(specs, observing, s, init, c, stream, shift, anchor);
        case ScanStandalone(_, _) => ShownIsTrue(specs, observing, s, init, c, stream, shift, anchor);
        case Reset => ResetIsTrue(specs, observing, s, init, stream, shift, anchor);
      }
      var t := TargetStream.Performed(specs, observing, s, c);
      forall i | 0 <= i < |t.outputs| ensures Genuine(t.outputs[i], specs, log, stream, shift) {
        if i < |s.outputs| {
          GenuineGrows(s.outputs[i], specs, init, c, stream, shift, anchor);
        } else {
          assert t.outputs[|s.outputs|..][i - |s.outputs|] == t.outputs[i];
        }
      }
    }
  }

  lemma NothingBuffered(specs: seq<EventSpec>, observing: bool, stream: Stream, shift: int, anchor: int)
    ensures var s := TargetStream.Replayed(specs, observing, []);
            s.outputs == [] && Tracks(s, [], stream, shift, anchor)
  {
  }

  /** On any run of a flow whose arrivals came from one stream, everything reported is about the stream's
      own message at its place, each record is what a configured layout decodes from it, and a message
      assembled from the stream touches no skipped position. */
  lemma EveryRecordIsTheStreams(flow: TcpFlowState, specs: seq<EventSpec>, observing: bool, i: nat)
    requires flow.Anchored() && flow.coherent
    requires i < |TargetStream.Replayed(specs, observing, flow.log).outputs|
    ensures var o := TargetStream.Replayed(specs, observing, flow.log).outputs[i];
            && Genuine(o, specs, flow.log, flow.stream, flow.shift)
            && (FromFeeds(o, flow.log) ==>
                  forall q :: o.streamSequence.value <= q < o.streamSequence.value + LengthOf(o) ==>
                    !Skipped(flow.skips, q))
  {
    hide Genuine, TargetStream.Replayed;
    ReplayIsTrue(specs, observing, flow.log, flow.stream, flow.shift, flow.anchor);
    Pipeline.FedIsNotSkipped(flow.L(), flow.stream, flow.shift);
  }
}
