// Whole runs of arrivals on one flow: what counts is which positions came, not in which order, how often
// or cut how.
module ArrivalOrder {
  import opened Wire
  import opened SequenceNumbers
  import opened ScannerLog
  import opened ReceivedSet
  import opened Holding
  import opened Reassembly

  datatype Arrival = Arrival(sequence: int, payload: Bytes, context: PacketContext)

  ghost predicate InArrival(a: Arrival, at: int, p: int) {
    at <= p < at + |a.payload|
  }

  /** Position `p` is among the first `n` arrivals, which lie at these places of the stream. */
  ghost predicate Arrived(arrivals: seq<Arrival>, places: seq<int>, n: nat, p: int)
    requires n <= |arrivals| == |places|
  {
    exists i :: 0 <= i < n && InArrival(arrivals[i], places[i], p)
  }

  lemma ArrivedOneMore(arrivals: seq<Arrival>, places: seq<int>, n: nat, p: int)
    requires n < |arrivals| == |places|
    ensures Arrived(arrivals, places, n + 1, p) <==>
            Arrived(arrivals, places, n, p) || InArrival(arrivals[n], places[n], p)
  {
    if InArrival(arrivals[n], places[n], p) {
      assert Arrived(arrivals, places, n + 1, p);
    }
  }

  ghost predicate TruePiece(a: Arrival, at: int, stream: Stream, origin: int) {
    && Congruent(at, a.sequence) && On(stream, at, a.payload)
    && origin - TCP_SEQUENCE_HALF_RANGE / 2 < at && at + |a.payload| <= origin + TCP_SEQUENCE_HALF_RANGE / 2
  }

  /** Every arrival is a true piece of the stream, within a quarter of the sequence space of the origin. */
  ghost predicate TruePieces(arrivals: seq<Arrival>, places: seq<int>, stream: Stream, origin: int)
    requires |arrivals| == |places|
  {
    forall i :: 0 <= i < |arrivals| ==> TruePiece(arrivals[i], places[i], stream, origin)
  }

  /** The flow has nothing given up and has received, from its origin on, exactly these arrivals. */
  ghost predicate HasArrived(flow: TcpFlowState, arrivals: seq<Arrival>, places: seq<int>, n: nat)
    requires n <= |arrivals| == |places|
    reads flow
  {
    flow.coherent && forall q: nat :: q in flow.due <==>
      flow.anchor <= q && Arrived(arrivals, places, n, q + flow.shift)
  }

  /** The segments arrive one by one at a flow whose origin is known. */
  method AddEach(flow: TcpFlowState, arrivals: seq<Arrival>, ghost places: seq<int>)
    requires flow.Valid() && flow.nextSequence == Some(flow.anchor) && flow.due == iset{} && flow.coherent
    requires |arrivals| == |places| && TruePieces(arrivals, places, flow.stream, flow.anchor + flow.shift)
    modifies flow
    ensures flow.Valid() && flow.Anchored() && flow.anchor == old(flow.anchor) && flow.shift == old(flow.shift)
    ensures flow.skips == [] ==> HasArrived(flow, arrivals, places, |arrivals|)
  {
    hide TcpFlowState.Valid, TcpFlowState.Core, TcpFlowState.Waiting, TcpFlowState.Routed, TcpFlowState.Absorbed,
        TcpFlowState.Accepted, TcpFlowState.Arrives, TruePieces, HasArrived, FirstMissing, Unwrap;
    flow.ValidStands();
    NothingArrived(flow, arrivals, places);
    var i := 0;
    while i < |arrivals|
      invariant 0 <= i <= |arrivals| && flow.Valid() && flow.Anchored()
      invariant flow.anchor == old(flow.anchor) && flow.shift == old(flow.shift)
      invariant flow.skips == [] ==> HasArrived(flow, arrivals, places, i)
    {
      label before:
      if flow.skips == [] {
        ArrivesNext(flow, arrivals, places, i);
      }
      flow.AddSegment(arrivals[i].sequence, arrivals[i].payload, arrivals[i].context, places[i]);
      flow.ValidStands();
      ArrivesOnce@before(flow, arrivals, places, i);
      i := i + 1;
    }
  }

  lemma NothingArrived(flow: TcpFlowState, arrivals: seq<Arrival>, places: seq<int>)
    requires flow.due == iset{} && flow.coherent && |arrivals| == |places|
    ensures HasArrived(flow, arrivals, places, 0)
  {
  }

  /** Until a gap is given up, the next arrival is near enough to be placed. */
  lemma ArrivesNext(flow: TcpFlowState, arrivals: seq<Arrival>, places: seq<int>, i: nat)
    requires flow.Anchored() && flow.skips == [] && |arrivals| == |places| && i < |arrivals|
    requires HasArrived(flow, arrivals, places, i)
    requires TruePieces(arrivals, places, flow.stream, flow.anchor + flow.shift)
    ensures flow.coherent && flow.Arrives(arrivals[i].sequence, arrivals[i].payload, places[i])
    ensures FirstMissing(flow.due, flow.anchor, flow.nextSequence.value)
  {
    hide TcpFlowState.Core, TcpFlowState.Waiting, On, Congruent;
    flow.FedIsThePrefix();
    var next := flow.nextSequence.value;
    if next > flow.anchor {
      var last: nat := next - 1;
      assert last in flow.due;
      var j :| 0 <= j < i && InArrival(arrivals[j], places[j], last + flow.shift);
      assert TruePiece(arrivals[j], places[j], flow.stream, flow.anchor + flow.shift);
    }
    assert TruePiece(arrivals[i], places[i], flow.stream, flow.anchor + flow.shift);
  }

  /** One arrival adds its own positions from the origin on, and nothing else: what is already passed
      has been received, as long as nothing was given up. */
  twostate lemma ArrivesOnce(flow: TcpFlowState, new arrivals: seq<Arrival>, new places: seq<int>, new i: nat)
    requires |arrivals| == |places| && i < |arrivals| && old(flow.nextSequence).Some?
    requires flow.anchor == old(flow.anchor) && flow.shift == old(flow.shift) && old(flow.skips) <= flow.skips
    requires old(flow.skips) == [] ==>
               && old(HasArrived(flow, arrivals, places, i))
               && old(FirstMissing(flow.due, flow.anchor, flow.nextSequence.value)) && flow.coherent
    requires var a, next := arrivals[i], old(flow.nextSequence.value);
             if a.payload == [] then flow.due == old(flow.due)
             else && flow.nextSequence.Some?
                  && flow.Routed(Unwrap(a.sequence, next), a.payload, a.context, true)
                  && (old(flow.skips) == [] ==> Unwrap(a.sequence, next) == places[i] - flow.shift)
    ensures flow.skips == [] ==> HasArrived(flow, arrivals, places, i + 1)
  {
    hide Unwrap, Arrived, TcpFlowState.FedInOrder, TcpFlowState.PutBeyond;
    if flow.skips == [] {
      var a, at, next := arrivals[i], places[i] - flow.shift, old(flow.nextSequence.value);
      forall q: nat
        ensures q in flow.due <==> flow.anchor <= q && Arrived(arrivals, places, i + 1, q + flow.shift)
      {
        ArrivedOneMore(arrivals, places, i, q + flow.shift);
        assert q in Range(Max(at, next), at + |a.payload|) <==> Within(Max(at, next), at + |a.payload|, q);
      }
    }
  }

  /** Two flows of one stream with one origin: whatever the order, the cuts and the repetitions, if the
      same positions arrived at both and neither gave up anything, both have fed the same bytes. */
  lemma OnlyPositionsMatter(f: TcpFlowState, g: TcpFlowState, a: seq<Arrival>, b: seq<Arrival>, placesOfA: seq<int>,
                            placesOfB: seq<int>)
    requires f.Anchored() && f.skips == [] && |a| == |placesOfA| && HasArrived(f, a, placesOfA, |a|)
    requires g.Anchored() && g.skips == [] && |b| == |placesOfB| && HasArrived(g, b, placesOfB, |b|)
    requires f.stream == g.stream && f.anchor + f.shift == g.anchor + g.shift
    requires forall p :: f.anchor + f.shift <= p ==>
               (Arrived(a, placesOfA, |a|, p) <==> Arrived(b, placesOfB, |b|, p))
    ensures f.nextSequence.value + f.shift == g.nextSequence.value + g.shift
    ensures FedBytes(f.log) == FedBytes(g.log)
  {
    hide TcpFlowState.Anchored, Arrived, FedBytes;
    forall p ensures f.Received(p) <==> g.Received(p) {
      assert Listed(f, a, placesOfA, p) && Listed(g, b, placesOfB, p);
    }
    TcpFlowState.ArrivalOrderNeverMatters(f, g);
  }

  ghost predicate Listed(flow: TcpFlowState, arrivals: seq<Arrival>, places: seq<int>, p: int)
    requires |arrivals| == |places|
    reads flow
  {
    flow.Received(p) <==> flow.anchor + flow.shift <= p && Arrived(arrivals, places, |arrivals|, p)
  }

  // The wait for a prefix, before the origin is known.

  datatype Step =
    | Comes(arrival: Arrival)
    | Tick(now: real)

  /** The capture time of the first bytes among the first `n` steps. */
  function FirstTime(steps: seq<Step>, n: nat): (t: Option<real>)
    requires n <= |steps|
    ensures t.None? ==> forall i :: 0 <= i < n && steps[i].Comes? ==> steps[i].arrival.payload == []
    ensures t.Some? ==> exists i :: FirstBytes(steps, n, i) && steps[i].arrival.context.timestamp == t.value
  {
    if n == 0 then None
    else
      var before, last := FirstTime(steps, n - 1), steps[n - 1];
      if before.None? && last.Comes? && last.arrival.payload != [] then
        assert FirstBytes(steps, n, n - 1);
        Some(last.arrival.context.timestamp)
      else
        assert forall i :: FirstBytes(steps, n - 1, i) ==> FirstBytes(steps, n, i);
        before
  }

  predicate FirstBytes(steps: seq<Step>, n: nat, i: int)
    requires n <= |steps|
  {
    && 0 <= i < n && steps[i].Comes? && steps[i].arrival.payload != []
    && forall j :: 0 <= j < i && steps[j].Comes? ==> steps[j].arrival.payload == []
  }

  /** Step `i` is a tick of the clock a quarter of a second or more after the first bytes came. */
  predicate Waited(steps: seq<Step>, i: nat)
    requires i < |steps|
  {
    steps[i].Tick? && FirstTime(steps, i).Some? && steps[i].now - FirstTime(steps, i).value >= 0.25
  }

  method PassTime(flow: TcpFlowState, now: real)
    requires flow.Valid() && flow.Unanchored()
    modifies flow
    ensures flow.Valid()
    ensures if old(flow.unanchored) != map[] && now - old(flow.unanchoredStartedAt.value) >= 0.25
            then flow.nextSequence.Some? else unchanged(flow)
  {
    hide TcpFlowState.Core, TcpFlowState.Waiting, TcpFlowState.Own, TcpFlowState.Counted,
        TcpFlowState.Conserved, TcpFlowState.ReceivedForGood, Unwrap, CapacityExceeded, TcpFlowState.OriginOf,
        TcpFlowState.ShiftFor, TcpFlowState.Progressed;
    EmptyFits(flow.limits);
    var resets := flow.ServiceGaps(now);
    if flow.nextSequence.Some? {
      flow.AnchoredHoldsNothing();
    }
  }

  lemma StartedIsKnown(flow: TcpFlowState)
    requires flow.Unanchored()
    ensures flow.nextSequence.None? && (flow.unanchored != map[] <==> flow.unanchoredStartedAt.Some?)
  {
  }

  /** A flow whose beginning was not captured, until its origin is fixed: a tick of the clock fixes it if
      and only if it comes a quarter of a second or more after the first bytes. */
  method UntilOrigin(flow: TcpFlowState, steps: seq<Step>, ghost places: seq<int>) returns (taken: nat)
    requires flow.Valid() && flow.nextSequence.None? && flow.unanchored == map[] && |places| == |steps|
    modifies flow
    ensures flow.Valid() && taken <= |steps| && (taken < |steps| <==> flow.nextSequence.Some?)
    ensures flow.nextSequence.None? ==> flow.calls == old(flow.calls)
    ensures forall i :: 0 <= i < taken ==> !Waited(steps, i)
    ensures taken < |steps| && steps[taken].Tick? ==> Waited(steps, taken)
  {
    hide TcpFlowState.Valid, TcpFlowState.Anchored, TcpFlowState.Unanchored, TcpFlowState.Routed,
        TcpFlowState.Absorbed, TcpFlowState.Originated, TcpFlowState.Decisive, TcpFlowState.Arrives, Unwrap;
    flow.ValidStands();
    StartedIsKnown(flow);
    taken := 0;
    while taken < |steps|
      invariant 0 <= taken <= |steps| && flow.Valid() && flow.Unanchored() && flow.calls == old(flow.calls)
      invariant flow.unanchoredStartedAt == FirstTime(steps, taken)
      invariant forall i :: 0 <= i < taken ==> !Waited(steps, i)
    {
      StartedIsKnown(flow);
      match steps[taken] {
        case Comes(a) => flow.AddSegment(a.sequence, a.payload, a.context, places[taken]);
        case Tick(now) => PassTime(flow, now);
      }
      flow.ValidStands();
      if flow.nextSequence.Some? {
        return;
      }
      taken := taken + 1;
    }
    StartedIsKnown(flow);
  }
}
