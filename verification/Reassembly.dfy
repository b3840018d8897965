// One TCP flow's reassembly state, in place. The calls it makes on its scanner are recorded in
// `calls`; ghost fields keep the received-set ledger the state has to answer to.
module Reassembly {
  import opened Wire
  import opened SequenceNumbers
  import opened ScannerLog
  import opened ReceivedSet
  import opened Holding
  import opened InitialOrder
  import opened Gaps
  import opened FinLoss

  const INITIAL_REORDER_GRACE_SECONDS: real := 0.25
  const INITIAL_ANCHOR_PROBE_BYTES: nat := 0xFFFF * 2 + 5

  /** The clock had run out when the flow gave up. */
  predicate Justified(r: Reason) {
    match r
    case Timeout(now, started) => now - started >= 1.5
    case FinTimeout(now, started) => now - started >= 1.5
    case _ => true
  }

  predicate ExpiredAt(r: Reason, now: real) {
    (r.Timeout? && r.now == now) || (r.FinTimeout? && r.now == now)
  }

  ghost function Ends(skips: seq<Skip>): (ends: seq<int>)
    ensures |ends| == |skips|
  {
    seq(|skips|, (i: nat) requires i < |skips| => skips[i].end)
  }

  lemma EndsAppend(skips: seq<Skip>, s: Skip)
    ensures Ends(skips + [s]) == Ends(skips) + [s.end]
  {
  }

  /** What a retransmission of already passed bytes makes the scanner look at, and where. */
  function Retransmission(position: int, payload: Bytes, context: PacketContext, next: nat): (log: Log) {
    if position < next
    then [ScanStandalone(payload[..Min(next - position, |payload|)], context.(streamStart := Some(position)))]
    else []
  }

  lemma KeepIsHeld(held: Held, next: nat, k: nat, s: PendingSegment)
    requires NonEmpty(held) && AllBeyond(held, next) && |s.data| > 0 && next < k
    ensures var kept := Keep(held, k, s); kept != map[] && NonEmpty(kept) && AllBeyond(kept, next)
  {
    assert k in Keep(held, k, s);
  }

  ghost predicate NothingStandalone(log: Log, from: nat) {
    forall i :: from <= i < |log| ==> !log[i].ScanStandalone?
  }

  class TcpFlowState {
    const flow: FlowKey
    const generation: nat
    const limits: Limits
    const deferGapTimeouts: bool
    /** The scanner's `can_anchor_at_start`, if it has one. */
    const canAnchorAtStart: Option<Bytes -> bool>

    var nextSequence: Option<nat>
    var pending: Held
    var unanchored: Held
    /** The key first inserted into `unanchored`, the head of an insertion-ordered dictionary. */
    var firstUnanchored: nat
    var unanchoredStartedAt: Option<real>
    var gapStartedAt: Option<real>
    var lastActivityAt: Option<real>
    var finSequence: Option<nat>
    var finObservedAt: Option<real>
    /** Calls made on the scanner, and resume sequences reported to `on_gap_reset`. */
    var calls: Log
    var gapResets: seq<int>

    /** The bytes the peer really sent. */
    ghost const stream: Stream
    /** State position plus `shift` is stream position. */
    ghost var shift: int
    /** Every segment so far was a true piece of the stream, near enough to be unwrapped. */
    ghost var coherent: bool
    /** Every segment so far came with this flow's own key and generation. */
    ghost var own: bool
    ghost var due: iset<nat>
    ghost var anchor: nat
    /** The calls made since the origin was fixed, and those made before. */
    ghost var log: Log
    ghost var callsBefore: Log
    ghost var skips: seq<Skip>
    ghost var reportedBefore: seq<int>
    /** How often the flow was started over, which resets the scanner without a report. */
    ghost var restarts: nat

    ghost function L(): Ledger
      reads this`nextSequence, this`log, this`pending, this`due, this`anchor, this`skips
      requires nextSequence.Some?
    {
      Ledger(log, pending, due, anchor, nextSequence.value, skips)
    }

    /** Where the flow stands with its gaps. */
    ghost function Stand(): Standing
      reads this`nextSequence, this`pending, this`gapStartedAt, this`skips
      requires nextSequence.Some?
    {
      Standing(nextSequence.value, pending, gapStartedAt, skips)
    }

    function Rules(): Policy
      reads this`finSequence, this`finObservedAt
    {
      Policy(limits, deferGapTimeouts, finSequence, finObservedAt)
    }

    /** Every scanner reset was reported, restarts aside, and every other call names its position. */
    ghost predicate Counted()
      reads this`calls, this`gapResets, this`restarts
    {
      Resets(calls) == |gapResets| + restarts && Located(calls)
    }

    predicate Mine(context: PacketContext) {
      context.flow == flow && context.flowGeneration == generation
    }

    ghost predicate OwnLog(log: Log) {
      forall i :: 0 <= i < |log| ==> log[i].Reset? || Mine(log[i].context)
    }

    ghost predicate OwnHeld(held: Held) {
      forall k :: k in held ==> Mine(held[k].context)
    }

    /** Nothing fed or held names another flow or another generation of this one. */
    ghost predicate Own()
      reads this`own, this`calls, this`pending, this`unanchored
    {
      own ==> OwnLog(calls) && OwnHeld(pending) && OwnHeld(unanchored)
    }

    lemma KeepIsMine(held: Held, position: nat, segment: PendingSegment)
      ensures OwnHeld(held) && Mine(segment.context) ==> OwnHeld(Keep(held, position, segment))
    {
    }

    /** Anchored, with `[next, from)` received but not yet fed. */
    ghost predicate Core(from: int)
      reads this`nextSequence, this`log, this`pending, this`due, this`anchor, this`skips
      reads this`unanchored, this`unanchoredStartedAt, this`finSequence, this`finObservedAt, this`calls
      reads this`callsBefore, this`gapResets, this`reportedBefore, this`coherent, this`shift, this`own, this`restarts
    {
      && Own() && Counted()
      && nextSequence.Some? && unanchored == map[] && unanchoredStartedAt.None?
      && (finSequence.Some? <==> finObservedAt.Some?)
      && calls == callsBefore + log
      && NonEmpty(pending)
      && (forall i :: 0 <= i < |skips| ==> Justified(skips[i].reason))
      && gapResets == reportedBefore + Ends(skips)
      && (coherent ==> Congruent(shift, 0) && Sound(L(), stream, shift, from))
    }

    ghost predicate Waiting()
      reads this`nextSequence, this`pending, this`gapStartedAt
      requires nextSequence.Some?
    {
      && AllBeyond(pending, nextSequence.value)
      && (pending != map[] ==> gapStartedAt.Some?)
    }

    ghost predicate Anchored()
      reads this
    {
      nextSequence.Some? && Core(nextSequence.value) && Waiting()
    }

    ghost predicate Unanchored()
      reads this
    {
      && Own() && Counted()
      && nextSequence.None? && pending == map[] && gapStartedAt.None?
      && (finSequence.Some? <==> finObservedAt.Some?)
      && (unanchored != map[] <==> unanchoredStartedAt.Some?)
      && (forall k :: k in unanchored ==> k < TCP_SEQUENCE_MODULUS && |unanchored[k].data| > 0)
      && (unanchored != map[] ==> firstUnanchored in unanchored)
      && (coherent && unanchored != map[] ==>
            && Congruent(shift, 0) && WindowOf(unanchored, firstUnanchored)
            && ProvisionalTrue(unanchored, firstUnanchored, stream, shift))
    }

    ghost predicate Valid()
      reads this
    {
      && (Unanchored() || Anchored())
      && !CapacityExceeded(pending, limits) && !CapacityExceeded(unanchored, limits)
    }

    /** Giving up on gaps: forward only, holding ever less, one report per skip, and every skip
        for a clock that ran out at `now` or for capacity. */
    twostate predicate Progressed(now: real)
      reads this
    {
      && old(nextSequence).Some? && nextSequence.Some? && old(nextSequence.value) <= nextSequence.value
      && (forall k :: k in pending ==> k in old(pending) && pending[k] == old(pending)[k])
      && old(skips) <= skips && old(gapResets) <= gapResets
      && |skips| - |old(skips)| == |gapResets| - |old(gapResets)|
      && (forall i :: |old(skips)| <= i < |skips| ==> ExpiredAt(skips[i].reason, now))
      && old(calls) <= calls && NothingStandalone(calls, |old(calls)|)
    }

    /** The origin, its bookkeeping and everything about FIN are as they were. */
    twostate predicate SameOrigin()
      reads this
    {
      && unchanged(`shift, `coherent, `own, `anchor, `callsBefore, `reportedBefore, `restarts)
      && unchanged(`unanchored, `firstUnanchored, `unanchoredStartedAt, `finSequence, `finObservedAt, `lastActivityAt)
    }

    /** Stream position `p` has been received in time. */
    ghost predicate Received(p: int)
      reads this`shift, this`due
    {
      p - shift >= 0 && (p - shift) in due
    }

    /** Stream position `p` is held while the origin is still unknown. */
    ghost predicate HeldProvisionally(p: int)
      reads this`shift, this`unanchored, this`firstUnanchored
    {
      Provisional(unanchored, firstUnanchored, p - shift)
    }

    /** `start` names the stream position `start + newShift`, near everything held provisionally. */
    ghost predicate Credible(start: nat, newShift: int)
      reads this`shift, this`unanchored, this`firstUnanchored
    {
      CredibleOf(unanchored, firstUnanchored, shift, start, newShift)
    }

    /** What becomes of a segment at `position` of an anchored flow. Passed bytes are at most shown
        to the scanner; a segment reaching beyond `next` in order is fed and flushes the timer; one
        beyond a gap is held, and gaps are given up on only at capacity or by the clock. */
    twostate predicate Routed(position: int, payload: Bytes, context: PacketContext, scanRetransmission: bool)
      requires old(nextSequence).Some? && nextSequence.Some?
      reads this
    {
      var next := old(nextSequence.value);
      var shown := old(calls) + if scanRetransmission then Retransmission(position, payload, context, next) else [];
      && shown <= calls && NothingStandalone(calls, |shown|)
      && Stand() == Taken(old(Stand()), position, PendingSegment(payload, context), Rules())
      && due == old(due) + Range(Max(position, next), position + |payload|)
      && (position + |payload| <= next ==>
            && calls == shown && nextSequence == old(nextSequence) && pending == old(pending)
            && skips == old(skips) && gapStartedAt == old(gapStartedAt))
      && (position <= next < position + |payload| ==>
            FedInOrder(payload[next - position..], context, |shown|))
      && (next < position ==> PutBeyond(position, payload, context))
    }

    /** `payload` was fed at the old `next`, after `shown` earlier calls, and what it connects to after it. */
    twostate predicate FedInOrder(payload: Bytes, context: PacketContext, shown: nat)
      requires old(nextSequence).Some? && nextSequence.Some?
      reads this
    {
      && nextSequence.value >= old(nextSequence.value) + |payload| && skips == old(skips)
      && |calls| > shown
      && calls[shown] == Feed(payload, context.(streamStart := Some(old(nextSequence.value))))
      && PartOf(pending, old(pending))
      && (pending == map[] ==> gapStartedAt.None?)
      && (pending != map[] ==> gapStartedAt.Some? && EarliestTimestamp(pending, gapStartedAt.value))
    }

    /** The segment was held behind a gap, unless a limit or the clock made the flow give gaps up. */
    twostate predicate PutBeyond(position: nat, payload: Bytes, context: PacketContext)
      requires old(nextSequence).Some? && nextSequence.Some?
      reads this
    {
      var held := Keep(old(pending), position, PendingSegment(payload, context));
      && (skips == old(skips) ==>
            && nextSequence == old(nextSequence) && pending == held && calls == old(calls)
            && gapStartedAt == if old(gapStartedAt).None? then Some(context.timestamp) else old(gapStartedAt))
      && if CapacityExceeded(held, limits) then
           old(skips) < skips && forall i :: |old(skips)| <= i < |skips| ==> skips[i].reason == Capacity
         else
           && (forall i :: |old(skips)| <= i < |skips| ==> ExpiredAt(skips[i].reason, context.timestamp))
           && (deferGapTimeouts ==> skips == old(skips))
           && (!deferGapTimeouts && pending != map[] ==>
                 gapStartedAt.Some? && context.timestamp - gapStartedAt.value < 1.5)
    }

    constructor (flow: FlowKey, generation: nat, limits: Limits, deferGapTimeouts: bool,
                 canAnchorAtStart: Option<Bytes -> bool>, ghost stream: Stream)
      ensures Valid() && nextSequence.None? && unanchored == map[] && coherent && own
      ensures calls == [] && gapResets == [] && restarts == 0 && finSequence.None? && lastActivityAt.None?
      ensures this.flow == flow && this.generation == generation && this.limits == limits
      ensures this.deferGapTimeouts == deferGapTimeouts && this.canAnchorAtStart == canAnchorAtStart
      ensures this.stream == stream
    {
      this.flow, this.generation, this.limits := flow, generation, limits;
      this.deferGapTimeouts, this.canAnchorAtStart, this.stream := deferGapTimeouts, canAnchorAtStart, stream;
      nextSequence, pending, unanchored, firstUnanchored := None, map[], map[], 0;
      unanchoredStartedAt, gapStartedAt, lastActivityAt := None, None, None;
      finSequence, finObservedAt := None, None;
      calls, gapResets := [], [];
      shift, coherent, own, due, anchor, skips, reportedBefore := 0, true, true, iset{}, 0, [], [];
      log, callsBefore, restarts := [], [], 0;
    }

    method Deliver(payload: Bytes, context: PacketContext)
      requires own ==> Mine(context)
      requires nextSequence.Some? && |payload| > 0
      requires Core(nextSequence.value + |payload|)
      requires coherent ==> On(stream, shift + nextSequence.value, payload)
      modifies this`calls, this`log, this`nextSequence, this`gapStartedAt
      ensures nextSequence == Some(old(nextSequence.value) + |payload|)
      ensures Core(nextSequence.value)
      ensures gapStartedAt.None?
      ensures calls == old(calls) + [Feed(payload, PacketContext(context.timestamp, context.flow, old(nextSequence),
          context.flowGeneration))]
    {
      hide Core, On;
      var c := Feed(payload, context.(streamStart := Some(nextSequence.value)));
      calls, log := calls + [c], log + [c];
      nextSequence := Some(nextSequence.value + |payload|);
      gapStartedAt := None;
      FedKeepsBooks(c);
    }

    twostate lemma FedKeepsBooks(new c: Call)
      requires old(nextSequence).Some? && c.Feed? && |c.data| > 0
      requires c.context.streamStart == Some(old(nextSequence.value))
      requires old(Core(nextSequence.value + |c.data|)) && nextSequence == Some(old(nextSequence.value) + |c.data|)
      requires (own ==> Mine(c.context)) && (coherent ==> On(stream, shift + old(nextSequence.value), c.data))
      requires calls == old(calls) + [c] && log == old(log) + [c]
      requires SameOrigin() && unchanged(`pending, `due, `gapResets, `skips)
      ensures Core(nextSequence.value)
    {
      hide Sound, Resets, Located, OwnHeld, NonEmpty, Congruent, On, Ends;
      ResetsAppend(old(calls), c);
      if coherent {
        assert Carries(c, stream, shift);
        SoundAfterFeed(old(L()), stream, shift, c);
      }
    }

    /** Take the earliest held segment, which starts at or before `next`, and feed what is new in it. */
    method ReleaseEarliest(sequence: nat)
      requires nextSequence.Some? && Core(nextSequence.value)
      requires pending != map[] && sequence == MinKey(pending) && sequence <= nextSequence.value
      modifies this`pending, this`calls, this`log, this`nextSequence, this`gapStartedAt
      ensures nextSequence.Some? && Core(nextSequence.value)
      ensures Stand() == Released(old(Stand()))
      ensures pending == old(pending) - {sequence}
      ensures nextSequence.value == Max(old(nextSequence.value), sequence + |old(pending)[sequence].data|)
      ensures calls == old(calls) + old(NewPart(sequence))
      ensures old(gapStartedAt).None? ==> gapStartedAt.None?
    {
      hide Core, On;
      var segment := TakeOut(sequence);
      var payload := segment.data;
      if sequence < nextSequence.value {
        var overlap := nextSequence.value - sequence;
        if overlap >= |payload| {
          return;
        }
        payload := payload[overlap..];
      }
      assert payload == segment.data[nextSequence.value - sequence..];
      Deliver(payload, segment.context);
    }

    /** What a held segment that starts at or before `next` has beyond it, as it is fed. */
    function NewPart(sequence: nat): (log: Log)
      requires nextSequence.Some? && sequence in pending && sequence <= nextSequence.value
      reads this`nextSequence, this`pending
    {
      var next, segment := nextSequence.value, pending[sequence];
      if sequence + |segment.data| <= next then []
      else [Feed(segment.data[next - sequence..], segment.context.(streamStart := Some(next)))]
    }

    method FlushPending()
      requires nextSequence.Some? && Core(nextSequence.value)
      modifies this`pending, this`calls, this`log, this`nextSequence, this`gapStartedAt
      ensures Anchored()
      ensures nextSequence.value >= old(nextSequence.value)
      ensures Stand() == Flushed(old(Stand()))
      ensures PartOf(pending, old(pending))
      ensures old(calls) <= calls && forall i :: |old(calls)| <= i < |calls| ==> calls[i].Feed?
      ensures old(gapStartedAt).None? && pending == map[] ==> gapStartedAt.None?
      ensures old(gapStartedAt).None? && pending != map[] ==>
                gapStartedAt.Some? && EarliestTimestamp(pending, gapStartedAt.value)
    {
      hide Core, Flushed, Released;
      while pending != map[]
        invariant nextSequence.Some? && Core(nextSequence.value)
        invariant nextSequence.value >= old(nextSequence.value)
        invariant Flushed(Stand()) == Flushed(old(Stand()))
        invariant PartOf(pending, old(pending))
        invariant old(calls) <= calls && forall i :: |old(calls)| <= i < |calls| ==> calls[i].Feed?
        invariant old(gapStartedAt).None? ==> gapStartedAt.None?
        decreases |pending|
      {
        var sequence := MinKey(pending);
        if sequence > nextSequence.value {
          FlushEnds(Stand());
          if gapStartedAt.None? {
            var earliest := MinTimestamp(pending);
            gapStartedAt := Some(earliest);
          }
          return;
        }
        FlushGoesOn(Stand());
        Smaller(pending, sequence);
        ReleaseEarliest(sequence);
      }
      FlushEnds(Stand());
    }

    /** Give up on `[next, to)`: reset the scanner, and report where the stream resumes. */
    method GiveUpTo(to: nat, ghost reason: Reason)
      requires nextSequence.Some? && Core(nextSequence.value) && nextSequence.value < to
      requires Justified(reason) && forall k :: k in pending ==> to <= k
      modifies this`calls, this`log, this`nextSequence, this`gapStartedAt, this`gapResets, this`skips
      ensures nextSequence == Some(to) && gapStartedAt.None? && Core(to)
      ensures calls == old(calls) + [Reset] && gapResets == old(gapResets) + [to]
      ensures skips == old(skips) + [Skip(old(nextSequence.value), to, reason)]
    {
      hide Core;
      calls, log := calls + [Reset], log + [Reset];
      gapResets := gapResets + [to];
      skips := skips + [Skip(nextSequence.value, to, reason)];
      nextSequence := Some(to);
      gapStartedAt := None;
      GivingUpKeepsBooks(to, reason);
    }

    twostate lemma GivingUpKeepsBooks(new to: nat, new reason: Reason)
      requires old(nextSequence).Some? && old(Core(nextSequence.value)) && old(nextSequence.value) < to
      requires Justified(reason) && forall k :: k in pending ==> to <= k
      requires calls == old(calls) + [Reset] && log == old(log) + [Reset] && gapResets == old(gapResets) + [to]
      requires skips == old(skips) + [Skip(old(nextSequence.value), to, reason)] && nextSequence == Some(to)
      requires SameOrigin() && unchanged(`pending, `due)
      ensures Core(to)
    {
      hide Sound, Resets, Located, OwnHeld, NonEmpty, Congruent, Ends;
      ResetsAppend(old(calls), Reset);
      EndsAppend(old(skips), Skip(old(nextSequence.value), to, reason));
      if coherent {
        assert old(L()).held == pending;
        SoundAfterGivingUp(old(L()), stream, shift, to, reason);
      }
    }

    /** Take out the earliest held segment, which starts at or before `next`; it is still to be fed. */
    method TakeOut(sequence: nat) returns (segment: PendingSegment)
      requires nextSequence.Some? && Core(nextSequence.value)
      requires pending != map[] && sequence == MinKey(pending) && sequence <= nextSequence.value
      modifies this`pending
      ensures segment == old(pending)[sequence] && pending == old(pending) - {sequence}
      ensures |segment.data| > 0 && (own ==> Mine(segment.context))
      ensures Core(Max(nextSequence.value, sequence + |segment.data|))
      ensures coherent && nextSequence.value < sequence + |segment.data| ==>
                On(stream, shift + nextSequence.value, segment.data[nextSequence.value - sequence..])
    {
      hide Sound, On, Resets, Located, Congruent, OwnLog;
      ghost var before := L();
      segment := pending[sequence];
      pending := pending - {sequence};
      if coherent {
        SoundAfterRelease(before, stream, shift, sequence);
        assert L() == before.(held := before.held - {sequence});
      }
    }

    /** Give up on the gap before the earliest held segment, and hand that segment over. */
    method StepOverGap(ghost reason: Reason) returns (segment: PendingSegment)
      requires Anchored() && pending != map[]
      requires Justified(reason)
      modifies this`pending, this`calls, this`log, this`nextSequence, this`gapStartedAt, this`gapResets, this`skips
      ensures nextSequence == Some(old(MinKey(pending))) && segment == old(pending[MinKey(pending)])
      ensures pending == old(pending) - {nextSequence.value}
      ensures gapStartedAt.None? && (own ==> Mine(segment.context))
      ensures calls == old(calls) + [Reset] && gapResets == old(gapResets) + [nextSequence.value]
      ensures skips == old(skips) + [Skip(old(nextSequence.value), nextSequence.value, reason)]
      ensures |segment.data| > 0 && Core(nextSequence.value + |segment.data|)
      ensures coherent ==> On(stream, shift + nextSequence.value, segment.data)
    {
      hide Core, On;
      var sequence := MinKey(pending);
      GiveUpTo(sequence, reason);
      segment := TakeOut(sequence);
      assert segment.data[0..] == segment.data;
    }

    method ResumeAfterGap(ghost reason: Reason)
      requires Anchored() && pending != map[]
      requires Justified(reason)
      requires reason.Capacity? ==> CapacityExceeded(pending, limits)
      requires reason.Timeout? ==> gapStartedAt == Some(reason.started)
      modifies this`pending, this`calls, this`log, this`nextSequence, this`gapStartedAt, this`gapResets, this`skips
      ensures Anchored()
      ensures nextSequence.value > old(nextSequence.value)
      ensures |pending| < |old(pending)|
      ensures Stand() == Resumed(old(Stand()), reason)
      ensures PartOf(pending, old(pending))
      ensures skips == old(skips) + [Skip(old(nextSequence.value), old(MinKey(pending)), reason)]
      ensures gapResets == old(gapResets) + [old(MinKey(pending))]
      ensures old(calls) + [Reset] <= calls && forall i :: |old(calls)| < i < |calls| ==> calls[i].Feed?
      ensures pending == map[] ==> gapStartedAt.None?
      ensures pending != map[] ==> EarliestTimestamp(pending, gapStartedAt.value)
    {
      hide Core, EarliestTimestamp, Flushed, Resumed, MinKey, TotalBytes, CapacityExceeded;
      ghost var k := MinKey(pending);
      ghost var rest, end := pending - {k}, k + |pending[k].data|;
      ghost var fed := Standing(end, rest, None, skips + [Skip(nextSequence.value, k, reason)]);
      ResumedIs(Stand(), reason, k, fed);
      Smaller(pending, k);
      var segment := StepOverGap(reason);
      Deliver(segment.data, segment.context);
      assert Stand() == fed;
      FlushPending();
      FewerBytes(pending, rest);
    }

    /** Show the scanner bytes the stream has already passed. */
    method ScanPassed(payload: Bytes, context: PacketContext, position: int)
      requires own ==> Mine(context)
      requires Anchored() && |payload| > 0
      requires coherent ==> On(stream, shift + position, payload)
      modifies this`calls, this`log
      ensures Anchored()
      ensures calls == old(calls) + [ScanStandalone(payload, context.(streamStart := Some(position)))]
    {
      hide Core, Waiting, On;
      var c := ScanStandalone(payload, context.(streamStart := Some(position)));
      calls, log := calls + [c], log + [c];
      ShownKeepsBooks(c, position);
    }

    twostate lemma ShownKeepsBooks(new c: Call, new position: int)
      requires old(Anchored()) && c.ScanStandalone? && c.context.streamStart == Some(position) && |c.data| > 0
      requires (own ==> Mine(c.context)) && (coherent ==> On(stream, shift + position, c.data))
      requires calls == old(calls) + [c] && log == old(log) + [c] && SameOrigin()
      requires unchanged(`nextSequence, `pending, `due, `gapResets, `skips, `gapStartedAt)
      ensures Anchored()
    {
      hide Sound, Resets, Located, OwnHeld, NonEmpty, AllBeyond, Congruent, On, Ends;
      ResetsAppend(old(calls), c);
      if coherent {
        assert Carries(c, stream, shift);
        SoundAfterStandalone(old(L()), stream, shift, c);
      }
    }

    /** Keep a segment that starts beyond `next`, and start the gap timer. */
    method HoldBeyondGap(position: nat, payload: Bytes, context: PacketContext)
      requires own ==> Mine(context)
      requires Anchored() && |payload| > 0 && position > nextSequence.value
      requires coherent ==> On(stream, shift + position, payload)
      modifies this`pending, this`gapStartedAt, this`due
      ensures Anchored() && SameOrigin()
      ensures pending == Keep(old(pending), position, PendingSegment(payload, context)) && pending != map[]
      ensures Stand() == HeldBack(old(Stand()), position, PendingSegment(payload, context))
      ensures due == old(due) + Range(position, position + |payload|)
    {
      hide Core, Range, Keep, AllBeyond, On;
      var segment := PendingSegment(payload, context);
      pending := Keep(pending, position, segment);
      due := due + Range(position, position + |payload|);
      if gapStartedAt.None? {
        gapStartedAt := Some(context.timestamp);
      }
      HoldingKeepsBooks(position, segment);
    }

    twostate lemma HoldingKeepsBooks(new position: nat, new segment: PendingSegment)
      requires old(Anchored()) && SameOrigin() && unchanged(`nextSequence, `log, `calls, `gapResets, `skips)
      requires (own ==> Mine(segment.context)) && |segment.data| > 0 && position > nextSequence.value
      requires coherent ==> On(stream, shift + position, segment.data)
      requires pending == Keep(old(pending), position, segment)
      requires due == old(due) + Range(position, position + |segment.data|) && gapStartedAt.Some?
      ensures Anchored() && pending != map[]
    {
      hide Sound, Range, Keep, NonEmpty, AllBeyond, Congruent, Resets, Located, Ends, On;
      KeepIsHeld(old(pending), nextSequence.value, position, segment);
      KeepIsMine(old(pending), position, segment);
      if coherent {
        SoundAfterArrivalBeyondGap(old(L()), stream, shift, position, segment);
      }
    }

    /** The bytes from `next` up to `end` have arrived, though they are not fed yet. */
    ghost method Receive(end: nat)
      requires Anchored() && nextSequence.value <= end
      modifies this`due
      ensures Core(end) && due == old(due) + Range(nextSequence.value, end)
    {
      hide Sound, Range;
      ghost var before := L();
      due := due + Range(nextSequence.value, end);
      if coherent {
        SoundAfterArrivalInOrder(before, stream, shift, end);
      }
    }

    /** Feed bytes that start at `next`, then everything held that they connect to. */
    method DeliverInOrder(payload: Bytes, context: PacketContext)
      requires own ==> Mine(context)
      requires Anchored() && |payload| > 0
      requires coherent ==> On(stream, shift + nextSequence.value, payload)
      modifies this`pending, this`calls, this`log, this`nextSequence, this`gapStartedAt, this`due
      ensures Anchored()
      ensures due == old(due) + Range(old(nextSequence.value), old(nextSequence.value) + |payload|)
      ensures Stand() == Flushed(old(Stand()).(next := old(nextSequence.value) + |payload|, timer := None))
      ensures FedInOrder(payload, context, |old(calls)|)
      ensures old(calls) <= calls && NothingStandalone(calls, |old(calls)|)
    {
      hide Core, EarliestTimestamp, Range, Flushed;
      Receive(nextSequence.value + |payload|);
      Deliver(payload, context);
      FlushPending();
    }

    method StartFinGapTimerIfNeeded()
      requires Unanchored() || Anchored()
      modifies this`gapStartedAt
      ensures old(Unanchored()) ==> Unanchored()
      ensures old(Anchored()) ==> Anchored()
      ensures (finSequence.Some? <==> finObservedAt.Some?) && (nextSequence.Some? ==> unanchored == map[])
      ensures gapStartedAt ==
              if finSequence.Some? && nextSequence.Some? && unanchored == map[] && pending == map[] &&
                 nextSequence.value < Unwrap(finSequence.value, nextSequence.value) && old(gapStartedAt).None?
              then finObservedAt else old(gapStartedAt)
    {
      hide Sound;
      if finSequence.None? || finObservedAt.None? || nextSequence.None? || unanchored != map[] || pending != map[] {
        return;
      }
      var fin := Unwrap(finSequence.value, nextSequence.value);
      if nextSequence.value < fin && gapStartedAt.None? {
        gapStartedAt := finObservedAt;
      }
    }

    /** Nothing before FIN is missing any more. */
    function FinIsReassembled(): (done: bool)
      reads this`finSequence, this`nextSequence, this`unanchored, this`pending
    {
      && finSequence.Some? && nextSequence.Some? && unanchored == map[] && pending == map[]
      && nextSequence.value >= Unwrap(finSequence.value, nextSequence.value)
    }

    /** Report bytes that FIN proves missing once nothing is held. */
    method ResumeAfterFinGap(ghost reason: Reason) returns (reset: bool)
      requires Unanchored() || (Anchored() && pending == map[])
      requires Justified(reason)
      modifies this`calls, this`log, this`nextSequence, this`gapStartedAt, this`gapResets, this`skips
      ensures old(Unanchored()) ==> Unanchored()
      ensures old(Anchored()) ==> Anchored()
      ensures reset == (finSequence.Some? && old(nextSequence).Some? &&
                        old(nextSequence.value) < Unwrap(finSequence.value, old(nextSequence.value)))
      ensures !reset ==> nextSequence == old(nextSequence) && calls == old(calls) && gapResets == old(gapResets)
                         && skips == old(skips) && gapStartedAt == old(gapStartedAt)
      ensures reset ==>
                var fin := Unwrap(finSequence.value, old(nextSequence.value));
                && nextSequence == Some(fin) && gapStartedAt.None?
                && calls == old(calls) + [Reset] && gapResets == old(gapResets) + [fin]
                && skips == old(skips) + [Skip(old(nextSequence.value), fin, reason)]
      ensures finSequence.Some? && nextSequence.Some? ==>
                nextSequence.value >= Unwrap(finSequence.value, nextSequence.value)
    {
      hide Core;
      if finSequence.None? || nextSequence.None? {
        return false;
      }
      var fin := Unwrap(finSequence.value, nextSequence.value);
      if nextSequence.value >= fin {
        return false;
      }
      UnwrapIsNearest(finSequence.value, nextSequence.value);
      UnwrapRecovers(finSequence.value, fin, fin);
      GiveUpTo(fin, reason);
      return true;
    }

    /** Give up on every gap in front of held segments whose time has run out at `now`. */
    method ServiceHeldGaps(now: real) returns (resets: nat)
      requires Unanchored() || Anchored()
      modifies this`pending, this`calls, this`log, this`nextSequence, this`gapStartedAt, this`gapResets, this`skips
      ensures old(Unanchored()) ==> Unanchored() && resets == 0 && unchanged(this)
      ensures old(Anchored()) ==> Anchored() && Progressed(now) && Stand() == TimedOut(old(Stand()), now)
      ensures resets == |gapResets| - |old(gapResets)|
      ensures resets == 0 ==> pending == old(pending) && nextSequence == old(nextSequence) && calls == old(calls)
                              && skips == old(skips) && gapResets == old(gapResets) && gapStartedAt == old(gapStartedAt)
      ensures pending != map[] ==> gapStartedAt.Some? && now - gapStartedAt.value < GAP_RESET_SECONDS
    {
      hide Core, EarliestTimestamp, MinKey, Resumed, TimedOut, Own, Counted, WindowOf, ProvisionalTrue;
      resets := 0;
      while pending != map[] && gapStartedAt.Some? && now - gapStartedAt.value >= GAP_RESET_SECONDS
        invariant old(Unanchored()) ==> Unanchored() && resets == 0 && unchanged(this)
        invariant old(Anchored()) ==>
                    Anchored() && Progressed(now) && TimedOut(Stand(), now) == TimedOut(old(Stand()), now)
        invariant resets == |gapResets| - |old(gapResets)|
        invariant resets == 0 ==> pending == old(pending) && nextSequence == old(nextSequence) && calls == old(calls)
                                  && skips == old(skips) && gapResets == old(gapResets)
                                  && gapStartedAt == old(gapStartedAt)
        decreases |pending|
      {
        HeldMeansUnanchored();
        TimeRunsOut(Stand(), now);
        ResumeAfterGap(Timeout(now, gapStartedAt.value));
        resets := resets + 1;
      }
      if nextSequence.Some? {
        TimeIsLeft(Stand(), now);
      }
    }

    /** Give up on the range before FIN once nothing is held and its time has run out at `now`. */
    method ServiceFinGap(now: real) returns (resets: nat)
      requires Unanchored() || Anchored()
      modifies this`calls, this`log, this`nextSequence, this`gapStartedAt, this`gapResets, this`skips
      ensures old(Unanchored()) ==> Unanchored() && resets == 0 && unchanged(this)
      ensures old(Anchored()) ==> Anchored() && Progressed(now) && Stand() == FinExpired(old(Stand()), Rules(), now)
      ensures resets == |gapResets| - |old(gapResets)|
      ensures resets == 0 ==>
                nextSequence == old(nextSequence) && calls == old(calls) && skips == old(skips)
                && gapResets == old(gapResets)
      ensures resets != 0 ==> GaveUpOnFin(skips)
      ensures pending != map[] ==> resets == 0 && gapStartedAt == old(gapStartedAt)
      ensures nextSequence.Some? && pending == map[] && finSequence.Some? &&
              nextSequence.value < Unwrap(finSequence.value, nextSequence.value)
              ==> gapStartedAt.Some? && now - gapStartedAt.value < GAP_RESET_SECONDS
    {
      hide Sound, Core;
      resets := 0;
      StartFinGapTimerIfNeeded();
      if pending == map[] && unanchored == map[] && finSequence.Some? && nextSequence.Some? && gapStartedAt.Some?
         && now - gapStartedAt.value >= GAP_RESET_SECONDS {
        ghost var given := skips;
        var reset := ResumeAfterFinGap(FinTimeout(now, gapStartedAt.value));
        resets := if reset then 1 else 0;
        assert reset ==> skips[|given|].reason.FinTimeout?;
      }
    }

    /** One restart may expose another gap whose retained segments still exceed a limit: keep going
        until both limits hold again. */
    method RestoreCapacity()
      requires Anchored() && CapacityExceeded(pending, limits)
      modifies this`pending, this`calls, this`log, this`nextSequence, this`gapStartedAt, this`gapResets, this`skips
      ensures Anchored() && !CapacityExceeded(pending, limits) && SameOrigin()
      ensures nextSequence.value > old(nextSequence.value)
      ensures Stand() == Relieved(old(Stand()), limits)
      ensures old(skips) < skips && (forall i :: |old(skips)| <= i < |skips| ==> skips[i].reason == Capacity)
      ensures |gapResets| - |old(gapResets)| == |skips| - |old(skips)|
      ensures old(calls) <= calls && NothingStandalone(calls, |old(calls)|)
    {
      hide Sound, Core, EarliestTimestamp, MinKey, CapacityExceeded, NonEmpty, AllBeyond, Resumed;
      while CapacityExceeded(pending, limits)
        invariant Anchored()
        invariant nextSequence.value >= old(nextSequence.value)
        invariant Relieved(Stand(), limits) == Relieved(old(Stand()), limits)
        invariant old(skips) <= skips
        invariant (nextSequence.value > old(nextSequence.value) && |old(skips)| < |skips|)
                  || CapacityExceeded(pending, limits)
        invariant forall i :: |old(skips)| <= i < |skips| ==> skips[i].reason == Capacity
        invariant |gapResets| - |old(gapResets)| == |skips| - |old(skips)|
        invariant old(calls) <= calls && NothingStandalone(calls, |old(calls)|)
        decreases |pending|
      {
        EmptyFits(limits);
        ResumeAfterGap(Capacity);
      }
    }

    /** Hold a segment beyond a gap; at capacity give up on gaps, otherwise see to the timers. */
    method AddBeyondGap(position: nat, payload: Bytes, context: PacketContext)
      requires own ==> Mine(context)
      requires Anchored() && !CapacityExceeded(pending, limits) && |payload| > 0 && position > nextSequence.value
      requires coherent ==> On(stream, shift + position, payload)
      modifies this
      decreases 0, 3
      ensures Anchored() && !CapacityExceeded(pending, limits) && SameOrigin()
      ensures nextSequence.value >= old(nextSequence.value)
      ensures due == old(due) + Range(position, position + |payload|)
      ensures Stand() == Added(old(Stand()), position, PendingSegment(payload, context), Rules())
      ensures old(skips) <= skips && |gapResets| - |old(gapResets)| == |skips| - |old(skips)|
      ensures old(calls) <= calls && NothingStandalone(calls, |old(calls)|)
      ensures PutBeyond(position, payload, context)
    {
      hide Sound, Core, EarliestTimestamp, MinKey, TotalBytes, Keep, Range, NonEmpty, AllBeyond, Serviced,
          Relieved;
      HoldBeyondGap(position, payload, context);
      if CapacityExceeded(pending, limits) {
        RestoreCapacity();
      } else if !deferGapTimeouts {
        AnchoredHoldsNothing();
        var resets := ServiceGaps(context.timestamp);
      }
    }

    /** Drop the bytes the stream has already passed, showing them to the scanner on request. */
    method DropPassed(position: int, payload: Bytes, context: PacketContext, scanRetransmission: bool)
      returns (rest: Bytes)
      requires own ==> Mine(context)
      requires Anchored() && |payload| > 0 && position < nextSequence.value
      requires coherent ==> On(stream, shift + position, payload)
      modifies this`calls, this`log
      ensures Anchored()
      ensures calls ==
              old(calls) + if scanRetransmission then Retransmission(position, payload, context, nextSequence.value)
                           else []
      ensures rest == payload[Min(nextSequence.value - position, |payload|)..]
      ensures coherent && rest != [] ==> On(stream, shift + nextSequence.value, rest)
    {
      hide Sound, Core, AllBeyond;
      var overlap := nextSequence.value - position;
      if overlap >= |payload| {
        assert payload[..|payload|] == payload;
        if scanRetransmission {
          ScanPassed(payload, context, position);
        }
        return [];
      }
      if coherent {
        OnParts(stream, shift + position, payload, overlap);
      }
      if scanRetransmission {
        ScanPassed(payload[..overlap], context, position);
      }
      return payload[overlap..];
    }

    /** Both timers of a flow at `now`. */
    method ServiceTimers(now: real) returns (resets: nat)
      requires Unanchored() || Anchored()
      requires !CapacityExceeded(pending, limits)
      modifies this`pending, this`calls, this`log, this`nextSequence, this`gapStartedAt, this`gapResets, this`skips
      ensures (Unanchored() || Anchored()) && !CapacityExceeded(pending, limits)
      ensures resets == |gapResets| - |old(gapResets)|
      ensures old(Unanchored()) ==> Unanchored() && resets == 0 && unchanged(this)
      ensures old(Anchored()) ==> Anchored() && Progressed(now) && Stand() == Serviced(old(Stand()), Rules(), now)
      ensures resets == 0 ==> pending == old(pending) && nextSequence == old(nextSequence) && calls == old(calls)
                              && skips == old(skips) && gapResets == old(gapResets)
                              && (pending != map[] ==> gapStartedAt == old(gapStartedAt))
      ensures pending != map[] ==> gapStartedAt.Some? && now - gapStartedAt.value < GAP_RESET_SECONDS
      ensures nextSequence.Some? && pending == map[] && finSequence.Some? &&
              nextSequence.value < Unwrap(finSequence.value, nextSequence.value)
              ==> gapStartedAt.Some? && now - gapStartedAt.value < GAP_RESET_SECONDS
    {
      hide Sound, Core, CapacityExceeded, Unwrap, TimedOut, FinExpired;
      ghost var held := pending;
      var first := ServiceHeldGaps(now);
      var second := ServiceFinGap(now);
      resets := first + second;
      FewerFit(pending, held, limits);
    }

    /** Route one segment of an anchored flow: scan what is already passed, feed or hold the rest. */
    method AddAnchoredSegment(sequence: int, payload: Bytes, context: PacketContext, scanRetransmission: bool)
      requires own ==> Mine(context)
      requires Anchored() && !CapacityExceeded(pending, limits) && |payload| > 0
      requires coherent ==> On(stream, shift + Unwrap(sequence, nextSequence.value), payload)
      modifies this
      decreases 0, 4
      ensures Anchored() && !CapacityExceeded(pending, limits) && SameOrigin()
      ensures nextSequence.value >= old(nextSequence.value)
      ensures old(skips) <= skips && |gapResets| - |old(gapResets)| == |skips| - |old(skips)|
      ensures old(calls) <= calls
      ensures Routed(Unwrap(sequence, old(nextSequence.value)), payload, context, scanRetransmission)
    {
      hide Sound, Core, EarliestTimestamp, MinKey, TotalBytes, Keep, NonEmpty, AllBeyond, On, CapacityExceeded,
          Range;
      hide Added, Flushed, PutBeyond, FedInOrder;
      var position := Unwrap(sequence, nextSequence.value);
      if position > nextSequence.value {
        AddBeyondGap(position, payload, context);
      } else {
        AddUpToNext(position, payload, context, scanRetransmission);
      }
    }

    twostate lemma PassedIsRouted(new position: int, new payload: Bytes, new context: PacketContext,
        new scanRetransmission: bool)
      requires old(Anchored()) && Anchored() && position + |payload| <= old(nextSequence.value) && |payload| > 0
      requires calls ==
               old(calls) + if scanRetransmission then Retransmission(position, payload, context,
                   old(nextSequence.value)) else []
      requires unchanged(`nextSequence, `pending, `due, `gapStartedAt, `skips)
      ensures Routed(position, payload, context, scanRetransmission)
    {
      hide Core, Waiting, FedInOrder, PutBeyond, Range;
      EmptyRange(old(nextSequence.value), position + |payload|);
    }

    twostate lemma FedIsRouted(new position: int, new payload: Bytes, new context: PacketContext,
        new scanRetransmission: bool)
      requires old(Anchored()) && Anchored() && position <= old(nextSequence.value) < position + |payload|
      requires var next := old(nextSequence.value);
               var shown :=
                 old(calls) + if scanRetransmission then Retransmission(position, payload, context, next) else [];
               && shown <= calls && NothingStandalone(calls, |shown|)
               && FedInOrder(payload[next - position..], context, |shown|)
               && due == old(due) + Range(next, position + |payload|)
               && Stand() == Flushed(old(Stand()).(next := position + |payload|, timer := None))
      ensures Routed(position, payload, context, scanRetransmission)
    {
      hide Core, Waiting, FedInOrder, PutBeyond, Range, Flushed, NothingStandalone, Retransmission;
    }

    /** A segment that starts at or before `next`: what is passed is dropped, the rest fed. */
    method AddUpToNext(position: int, payload: Bytes, context: PacketContext, scanRetransmission: bool)
      requires own ==> Mine(context)
      requires Anchored() && !CapacityExceeded(pending, limits) && |payload| > 0 && position <= nextSequence.value
      requires coherent ==> On(stream, shift + position, payload)
      modifies this`pending, this`calls, this`log, this`nextSequence, this`gapStartedAt, this`due
      ensures Anchored() && !CapacityExceeded(pending, limits)
      ensures nextSequence.value >= old(nextSequence.value)
      ensures old(calls) <= calls
      ensures Routed(position, payload, context, scanRetransmission)
    {
      hide Core, Waiting, EarliestTimestamp, MinKey, On, CapacityExceeded, Range, Flushed, Routed,
          Retransmission;
      var rest := payload;
      if position < nextSequence.value {
        rest := DropPassed(position, payload, context, scanRetransmission);
        if rest == [] {
          PassedIsRouted(position, payload, context, scanRetransmission);
          return;
        }
      } else {
        NothingPassed(position, payload, context);
      }
      ghost var held := pending;
      DeliverInOrder(rest, context);
      FewerFit(pending, held, limits);
      FedIsRouted(position, payload, context, scanRetransmission);
    }

    static lemma NothingPassed(position: nat, payload: Bytes, context: PacketContext)
      ensures Retransmission(position, payload, context, position) == [] && payload[0..] == payload
    {
    }

    /** Start the books of a flow whose origin is now fixed: nothing received, fed or given up yet. */
    ghost method OpenBooks(newShift: int)
      requires Own() && Counted()
      requires nextSequence.Some? && unanchored == map[] && unanchoredStartedAt.None? && pending == map[]
      requires finSequence.Some? <==> finObservedAt.Some?
      requires coherent ==> Congruent(newShift, 0)
      modifies this`shift, this`anchor, this`log, this`callsBefore, this`due, this`skips, this`reportedBefore
      ensures Anchored() && anchor == nextSequence.value && shift == newShift
      ensures due == iset{} && skips == [] && log == [] && callsBefore == calls && reportedBefore == gapResets
    {
      hide Core, Waiting, Congruent, Own, Counted;
      shift, anchor, log, callsBefore := newShift, nextSequence.value, [], calls;
      due, skips, reportedBefore := iset{}, [], gapResets;
      BooksOpen();
    }

    twostate lemma BooksOpen()
      requires old(Own()) && old(Counted()) && unchanged(`own, `calls, `pending, `unanchored, `gapResets, `restarts)
      requires nextSequence == Some(anchor) && pending == map[] && (coherent ==> Congruent(shift, 0))
      requires unanchored == map[] && unanchoredStartedAt.None? && (finSequence.Some? <==> finObservedAt.Some?)
      requires log == [] && callsBefore == calls && due == iset{} && skips == [] && reportedBefore == gapResets
      ensures Anchored()
    {
      hide Sound, Congruent, AllBeyond, OwnLog, OwnHeld, Resets, Located;
      NothingYet(anchor);
      SoundAtOpening(stream, shift, anchor);
      assert callsBefore + log == calls && reportedBefore + [] == gapResets;
    }

    static lemma NothingYet(next: nat)
      ensures NonEmpty(map[]) && AllBeyond(map[], next) && Ends([]) == []
    {
    }

    method OpenAt(start: nat, ghost newShift: int)
      requires Own() && Counted()
      requires nextSequence.None? && pending == map[] && gapStartedAt.None?
      requires (finSequence.Some? <==> finObservedAt.Some?)
      requires coherent ==> Congruent(newShift, 0)
      modifies this`nextSequence, this`unanchored, this`unanchoredStartedAt
      modifies this`shift, this`anchor, this`log, this`callsBefore, this`due, this`skips, this`reportedBefore
      ensures Anchored() && nextSequence == Some(start) && anchor == start && shift == newShift
      ensures due == iset{} && skips == [] && log == [] && callsBefore == calls && reportedBefore == gapResets
    {
      hide Core;
      unanchored, unanchoredStartedAt := map[], None;
      nextSequence := Some(start);
      OpenBooks(newShift);
    }

    /** From here on the arrivals count as one true stream only if `genuine`, and as the flow's own only
        if `mine`. */
    ghost method Distrust(genuine: bool, mine: bool)
      requires Anchored()
      modifies this`coherent, this`own
      ensures Anchored() && coherent == (old(coherent) && genuine) && own == (old(own) && mine)
    {
      hide Sound, OwnLog, OwnHeld, Counted, NonEmpty, AllBeyond;
      coherent, own := coherent && genuine, own && mine;
    }

    /** Take in one held item. */
    method CommitItem(item: Item)
      requires |item.segment.data| > 0 && (own ==> Mine(item.segment.context))
      requires Anchored() && !CapacityExceeded(pending, limits)
      modifies this
      decreases 0, 5
      ensures Anchored() && !CapacityExceeded(pending, limits) && Settled()
      ensures var position := Unwrap(item.position, old(nextSequence.value));
              && Stand() == Taken(old(Stand()), position, item.segment, Rules())
              && due == old(due) + Range(Max(position, old(nextSequence.value)), position + |item.segment.data|)
              && coherent == (old(coherent) && On(stream, shift + position, item.segment.data))
      ensures old(skips) <= skips && |gapResets| - |old(gapResets)| == |skips| - |old(skips)|
      ensures old(calls) <= calls && NothingStandalone(calls, |old(calls)|)
    {
      hide Sound, CapacityExceeded, Keep, EarliestTimestamp, NonEmpty, AllBeyond, On, Range, Core, Taken;
      Distrust(On(stream, shift + Unwrap(item.position, nextSequence.value), item.segment.data), true);
      AddAnchoredSegment(item.position, item.segment.data, item.segment.context, false);
    }

    /** What taking in held segments leaves as it is. */
    twostate predicate Settled()
      reads this
    {
      unchanged(`shift, `own, `anchor, `callsBefore, `reportedBefore, `restarts, `firstUnanchored, `finSequence,
          `finObservedAt, `lastActivityAt)
    }

    /** The origin a commit settles on, and how state positions then map to stream positions. */
    ghost function OriginOf(sequence: Option<nat>): nat
      reads this`unanchored, this`firstUnanchored
      requires unanchored != map[] && forall k :: k in unanchored ==> k < TCP_SEQUENCE_MODULUS
    {
      if sequence.Some? then sequence.value else Ordered(unanchored, firstUnanchored)[0].position
    }

    ghost function ShiftFor(sequence: Option<nat>, newShift: int): int
      reads this`unanchored, this`firstUnanchored, this`shift
    {
      if sequence.Some? then newShift else shift - LiftOf(unanchored, firstUnanchored)
    }

    /** FIN's timer cannot run out over the provisional holding, or FIN lies near all of it. */
    ghost predicate FinPlaced(sequence: Option<nat>, newShift: int)
      reads this`unanchored, this`firstUnanchored, this`shift, this`finSequence, this`finObservedAt
      requires unanchored != map[] && forall k :: k in unanchored ==> k < TCP_SEQUENCE_MODULUS
    {
      || Prompt(unanchored, Rules())
      || FinNear(Ordered(unanchored, firstUnanchored), Move(sequence, newShift), OriginOf(sequence), Rules())
    }

    /** How far the items of a commit are from their places in the state's positions. */
    ghost function Move(sequence: Option<nat>, newShift: int): int
      reads this`unanchored, this`firstUnanchored, this`shift
    {
      shift - LiftOf(unanchored, firstUnanchored) - ShiftFor(sequence, newShift)
    }

    /** The whole run of a commit. */
    ghost function CommitRun(sequence: Option<nat>): Standing
      reads this`unanchored, this`firstUnanchored, this`finSequence, this`finObservedAt
      requires unanchored != map[] && forall k :: k in unanchored ==> k < TCP_SEQUENCE_MODULUS
    {
      Committed(OriginOf(sequence), Ordered(unanchored, firstUnanchored), Rules())
    }

    ghost predicate AllMine(items: seq<Item>) {
      forall j :: 0 <= j < |items| ==> Mine(items[j].segment.context)
    }

    /** Fix the origin, at `sequence` if given and else at the earliest held byte. */
    method FixOrigin(sequence: Option<nat>, ghost newShift: int)
      returns (ordered: seq<Item>, ghost d: int, ghost b: int)
      requires Unanchored() && unanchored != map[]
      modifies this`nextSequence, this`unanchored, this`unanchoredStartedAt, this`coherent
      modifies this`shift, this`anchor, this`log, this`callsBefore, this`due, this`skips, this`reportedBefore
      ensures Anchored() && nextSequence == Some(anchor) && callsBefore == calls && reportedBefore == gapResets
      ensures anchor == old(OriginOf(sequence)) && shift == old(ShiftFor(sequence, newShift))
      ensures ordered == old(Ordered(unanchored, firstUnanchored)) && skips == [] && due == iset{}
      ensures d == old(Move(sequence, newShift))
      ensures unchanged(`own, `restarts, `firstUnanchored, `finSequence, `finObservedAt, `lastActivityAt)
      ensures forall j :: 0 <= j < |ordered| ==> |ordered[j].segment.data| > 0
      ensures own ==> AllMine(ordered)
      ensures old(coherent) && (sequence.Some? ==> old(Credible(sequence.value, newShift))) ==> coherent
      ensures coherent ==> Placement(ordered, d, anchor, b, stream, shift)
      ensures coherent && FinNear(ordered, d, anchor, Rules()) ==> FinWithin(Rules(), anchor, b)
    {
      hide Sound, Core, Waiting, On, WindowOf, Unwrap, CredibleOf, ProvisionalTrue, Ordered, LiftOf, Placement,
          FinNear, FinWithin;
      ordered := Ordered(unanchored, firstUnanchored);
      var start := if sequence.None? then ordered[0].position else sequence.value;
      ghost var target := ShiftFor(sequence, newShift);
      d, b := shift - LiftOf(unanchored, firstUnanchored) - target, 0;
      if coherent && sequence.None? {
        EarliestIsCredible(unanchored, firstUnanchored, shift);
      }
      coherent := coherent && Credible(start, target);
      if coherent {
        b := CredibleIsPlaced(unanchored, firstUnanchored, stream, shift, start, target);
        CredibleIsCongruent(start, target);
        if FinNear(ordered, d, start, Rules()) {
          b := FinIsPlaced(ordered, d, start, b, stream, target, Rules());
        }
      }
      forall j | 0 <= j < |ordered|
        ensures |ordered[j].segment.data| > 0 && (own ==> Mine(ordered[j].segment.context))
      {
        var k := OrderedInvents(unanchored, firstUnanchored, j);
      }
      OpenAt(start, target);
    }

    lemma CredibleIsCongruent(start: nat, target: int)
      requires Credible(start, target)
      ensures Congruent(target, 0)
    {
    }

    /** The first `n` items have been taken in as what they are. */
    ghost predicate Tracking(items: seq<Item>, n: nat, d: int)
      reads this`due, this`skips, this`anchor, this`coherent
      requires n <= |items|
    {
      coherent && TakenIn(due, skips, items, n, d, anchor)
    }

    /** Taking in item `n` where its own sequence number puts it keeps that up. */
    twostate lemma TracksOneMore(new items: seq<Item>, new n: nat, new d: int, new b: int)
      requires n < |items| && old(Anchored()) && old(Tracking(items, n, d)) && Anchored()
      requires Placement(items, d, anchor, b, stream, shift) && anchor == old(anchor) && shift == old(shift)
      requires FinWithin(Rules(), anchor, b) || !GaveUpOnFin(TakenAll(anchor, items, n, Rules()).skips)
      requires old(Stand()) == TakenAll(anchor, items, n, Rules()) && old(skips) <= skips
      requires var position := Unwrap(items[n].position, old(nextSequence.value));
               && due == old(due) + Range(Max(position, old(nextSequence.value)), position + |items[n].segment.data|)
               && coherent == (old(coherent) && On(stream, shift + position, items[n].segment.data))
      ensures Tracking(items, n + 1, d)
    {
      hide Sound, On, InItems, Range, TakenAll, FinWithin, Unwrap, NonEmpty, AllBeyond;
      TakenAllReaches(anchor, items, n, Rules(), d, b, stream, shift);
      assert PlacedTrue(items[n], d, anchor, b, stream, shift);
      hide Placement, TakenIn;
      DueAfterItem(old(L()), stream, shift, items, n, d, items[n].position + d);
      TakenInStays(due, old(skips), skips, items, n + 1, d, anchor);
    }

    /** What the items cover has been received, unless it lies before the origin or was given up
        because of FIN. */
    ghost predicate TookIn(items: seq<Item>, d: int)
      reads this`due, this`skips, this`anchor
    {
      forall q: nat :: q in due <==> anchor <= q && InItems(items, |items|, d, q) && !FinSkipped(skips, q)
    }

    /** Take in everything that was held, in order of position. */
    method TakeIn(ordered: seq<Item>, ghost d: int, ghost b: int)
      requires Anchored() && pending == map[] && gapStartedAt.None? && skips == [] && due == iset{}
      requires nextSequence == Some(anchor)
      requires forall j :: 0 <= j < |ordered| ==> |ordered[j].segment.data| > 0
      requires own ==> AllMine(ordered)
      requires coherent ==> Placement(ordered, d, anchor, b, stream, shift)
      modifies this
      decreases 0, 6
      ensures Anchored() && !CapacityExceeded(pending, limits) && Settled()
      ensures Stand() == Committed(anchor, ordered, Rules())
      ensures |gapResets| - |old(gapResets)| == |skips|
      ensures old(calls) <= calls && NothingStandalone(calls, |old(calls)|)
      ensures old(coherent) && (FinWithin(Rules(), anchor, b) || !GaveUpOnFin(skips)) ==>
                coherent && TookIn(ordered, d)
    {
      hide Core, Waiting, CapacityExceeded, On, Placement, Taken, TakenAll, FinWithin, Unwrap, Tracking, TookIn,
          GaveUpOnFin;
      EmptyFits(limits);
      ghost var rules := Rules();
      ghost var safe :=
        coherent && (FinWithin(rules, anchor, b) || !GaveUpOnFin(Committed(anchor, ordered, rules).skips));
      NothingTaken(ordered, d);
      var i := 0;
      while i < |ordered|
        invariant 0 <= i <= |ordered|
        invariant Anchored() && !CapacityExceeded(pending, limits) && Settled()
        invariant Stand() == TakenAll(anchor, ordered, i, rules)
        invariant |gapResets| - |old(gapResets)| == |skips|
        invariant old(calls) <= calls && NothingStandalone(calls, |old(calls)|)
        invariant safe ==> Tracking(ordered, i, d)
      {
        label before:
        FinIsObserved();
        TakenAllGrows(anchor, ordered, i, |ordered|, rules);
        SkipsOnlyGrow(skips, Committed(anchor, ordered, rules).skips);
        TakenAllNext(anchor, ordered, i, rules);
        CommitItem(ordered[i]);
        if safe {
          TracksOneMore@before(ordered, i, d, b);
        }
        i := i + 1;
      }
      if safe {
        TracksAll(ordered, d);
      }
    }

    lemma NothingTaken(items: seq<Item>, d: int)
      requires skips == [] && due == iset{} && pending == map[] && gapStartedAt.None? && nextSequence == Some(anchor)
      ensures coherent ==> Tracking(items, 0, d)
      ensures Stand() == TakenAll(anchor, items, 0, Rules())
    {
      NoItems(items, d);
    }

    lemma TracksAll(items: seq<Item>, d: int)
      requires Anchored() && Tracking(items, |items|, d)
      ensures coherent && TookIn(items, d)
    {
      hide Sound, InItems, FinSkipped, Waiting;
      TakenInExactly(L(), stream, shift, items, |items|, d);
    }

    lemma FinIsObserved()
      requires Anchored() || Unanchored()
      ensures Rules().fin.Some? <==> Rules().finAt.Some?
    {
    }

    /** Stream position `p` was held when the origin was fixed, is not before it, and was not given up
        because of FIN on the way. */
    twostate predicate WasHeld(p: int)
      reads this
    {
      anchor + shift <= p && old(HeldProvisionally(p)) && !FinSkipped(skips, p - shift)
    }

    /** Stream position `p` is held, and a commit from the earliest held byte does not pass over it. */
    ghost predicate HeldForGood(p: int)
      reads this`shift, this`unanchored, this`firstUnanchored, this`finSequence, this`finObservedAt
      requires unanchored != map[] && forall k :: k in unanchored ==> k < TCP_SEQUENCE_MODULUS
    {
      HeldProvisionally(p) && !LostToFin(unanchored, firstUnanchored, Rules(), p - shift)
    }

    /** A commit from that origin passes over something held: the guard of giving up on FIN holds at one
        of the items, and a later one has something between everything so far and FIN. */
    ghost predicate PassesOver(sequence: Option<nat>, newShift: int)
      reads this`unanchored, this`firstUnanchored, this`shift, this`finSequence, this`finObservedAt
      requires unanchored != map[] && forall k :: k in unanchored ==> k < TCP_SEQUENCE_MODULUS
    {
      PassesOverSome(OriginOf(sequence), Ordered(unanchored, firstUnanchored), Move(sequence, newShift), Rules())
    }

    ghost predicate PassesOverHeld()
      reads this`unanchored, this`firstUnanchored, this`finSequence, this`finObservedAt
      requires unanchored != map[] && forall k :: k in unanchored ==> k < TCP_SEQUENCE_MODULUS
    {
      PassesOverEarliest(unanchored, firstUnanchored, Rules())
    }

    /** Everything that was held from stream position `from` on has been received. */
    twostate predicate KeptFrom(from: int)
      reads this`shift, this`due
    {
      forall p :: from <= p && old(HeldProvisionally(p)) ==> Received(p)
    }

    twostate predicate KeptAll()
      reads this`shift, this`due
    {
      forall p :: old(HeldProvisionally(p)) ==> Received(p)
    }

    /** What was held for good has been received, and that is everything held unless the commit passes
        over some of it. */
    twostate predicate ReceivedForGood()
      requires old(unanchored) != map[] && forall k :: k in old(unanchored) ==> k < TCP_SEQUENCE_MODULUS
      reads this`coherent, this`shift, this`due
    {
      && coherent && (forall p :: Received(p) <==> old(HeldForGood(p)))
      && (KeptAll() <==> !old(PassesOverHeld()))
    }

    /** The proviso on FIN is needed: in a flow that holds these four segments, every byte of the fourth
        is held and none of it is for good. */
    lemma FinOverrunLosesBytes(o: Overrun, p: int)
      requires Unanchored() && Overruns(o) && unanchored == o.held && firstUnanchored == o.first
      requires Rules() == OverrunPolicy(o)
      requires o.fourth <= p - shift < o.fourth + |o.held[o.fourth].data|
      ensures HeldProvisionally(p) && !HeldForGood(p)
    {
      hide Overruns, OverrunPolicy, LostToFin, Provisional, WindowOf, ProvisionalTrue, Own, Counted;
      assert p - shift >= o.fourth;
      FinOverrunsHeldBytes(o, p - shift);
    }

    /** Anchored and provisional holding exclude each other. */
    lemma HeldMeansUnanchored()
      requires Unanchored() || Anchored()
      ensures unanchored != map[] ==> Unanchored()
      ensures pending != map[] ==> Anchored()
    {
    }

    lemma AnchoredHoldsNothing()
      requires Anchored()
      ensures unanchored == map[] && |unanchored| == 0
    {
    }

    /** What a commit did: the origin it settled on, its whole run, and that everything held is received
        that does not lie before the origin and was not given up because of FIN. */
    twostate predicate CommittedTo(sequence: Option<nat>, newShift: int)
      requires old(Unanchored()) && old(unanchored) != map[]
      reads this
    {
      && Anchored() && callsBefore == old(calls) && reportedBefore == old(gapResets)
      && anchor == old(OriginOf(sequence)) && shift == old(ShiftFor(sequence, newShift))
      && Stand() == old(CommitRun(sequence)) && |gapResets| - |old(gapResets)| == |skips|
      && (old(Trusted(sequence, newShift)) ==>
            && coherent && (forall p :: Received(p) <==> WasHeld(p))
            && (KeptFrom(anchor + shift) <==> !old(PassesOver(sequence, newShift))))
    }

    /** The arrivals, the origin and FIN are all near enough to be placed. */
    ghost predicate Trusted(sequence: Option<nat>, newShift: int)
      requires unanchored != map[] && forall k :: k in unanchored ==> k < TCP_SEQUENCE_MODULUS
      reads this`coherent, this`unanchored, this`firstUnanchored, this`shift, this`finSequence, this`finObservedAt
    {
      coherent && FinPlaced(sequence, newShift) && (sequence.Some? ==> Credible(sequence.value, newShift))
    }

    /** Commit to an origin and take in everything held. Committing is one-way. */
    method CommitUnanchored(sequence: Option<nat>, ghost newShift: int)
      requires Unanchored() || Anchored()
      requires !CapacityExceeded(pending, limits)
      modifies this
      decreases |unanchored|, 0
      ensures !CapacityExceeded(pending, limits)
      ensures unchanged(`own, `restarts, `firstUnanchored, `finSequence, `finObservedAt, `lastActivityAt)
      ensures old(calls) <= calls && NothingStandalone(calls, |old(calls)|)
      ensures old(unanchored) == map[] ==> unchanged(this)
      ensures old(unanchored) != map[] ==> CommittedTo(sequence, newShift)
    {
      hide Sound, Core, CapacityExceeded, On, Placement, InItems, Unwrap, CredibleOf, Ordered, LiftOf, Waiting,
          ProvisionalTrue, WindowOf, FinNear, FinWithin, Prompt, TakenAll, FinSkipped, GaveUpOnFin, Provisional,
          TookIn, Trusted, FinPlaced, Credible, PassesOverSome, AnyLost;
      if unanchored == map[] {
        return;
      }
      HeldMeansUnanchored();
      ghost var held, first, wasShift, trusted := unanchored, firstUnanchored, shift, Trusted(sequence, newShift);
      if trusted {
        TrustedIsSafe(sequence, newShift);
      }
      var ordered;
      ghost var d, b;
      ordered, d, b := FixOrigin(sequence, newShift);
      TakeIn(ordered, d, b);
      if trusted {
        ReceivedWhatWasHeld(ordered, d, held, first, wasShift);
      }
    }

    lemma TrustedIsSafe(sequence: Option<nat>, newShift: int)
      requires Unanchored() && unanchored != map[] && Trusted(sequence, newShift)
      ensures coherent && (sequence.Some? ==> Credible(sequence.value, newShift))
      ensures || FinNear(Ordered(unanchored, firstUnanchored), Move(sequence, newShift), OriginOf(sequence), Rules())
              || !GaveUpOnFin(CommitRun(sequence).skips)
      ensures SomeLost(sequence, newShift) <==> PassesOver(sequence, newShift)
    {
      hide WindowOf, ProvisionalTrue, Ordered, LiftOf, FinNear, CredibleOf, GaveUpOnFin, TakenAll, Own, Counted,
          AnyLost, PassesOverSome, Congruent, Prompt;
      var start, target := OriginOf(sequence), ShiftFor(sequence, newShift);
      if Prompt(unanchored, Rules()) {
        PromptKeepsFin(unanchored, firstUnanchored, OriginOf(sequence), Rules());
      }
      if sequence.None? {
        EarliestIsCredible(unanchored, firstUnanchored, shift);
      }
      HeldLossToFin(unanchored, firstUnanchored, stream, shift, start, target, Rules());
    }

    /** Some of what is held from that origin on is lost to FIN. */
    ghost predicate SomeLost(sequence: Option<nat>, newShift: int)
      reads this`unanchored, this`firstUnanchored, this`shift, this`finSequence, this`finObservedAt
      requires unanchored != map[] && forall k :: k in unanchored ==> k < TCP_SEQUENCE_MODULUS
    {
      AnyLost(unanchored, firstUnanchored, shift, OriginOf(sequence), ShiftFor(sequence, newShift),
          CommitRun(sequence).skips)
    }

    /** The received positions, as stream positions. */
    lemma ReceivedWhatWasHeld(items: seq<Item>, d: int, held: Held, first: nat, wasShift: int)
      requires forall k :: k in held ==> k < TCP_SEQUENCE_MODULUS
      requires items == Ordered(held, first) && d == wasShift - LiftOf(held, first) - shift && TookIn(items, d)
      ensures forall p :: Received(p) <==>
                anchor + shift <= p && Provisional(held, first, p - wasShift) && !FinSkipped(skips, p - shift)
      ensures AnyLost(held, first, wasShift, anchor, shift, skips) <==>
              !forall p :: anchor + shift <= p && Provisional(held, first, p - wasShift) ==> Received(p)
    {
      hide InItems, Unwrap, Ordered, LiftOf, Provisional, FinSkipped;
      forall p ensures Received(p) <==>
                anchor + shift <= p && Provisional(held, first, p - wasShift) && !FinSkipped(skips, p - shift) {
        CommitCovers(held, first, wasShift, shift, p);
      }
      if AnyLost(held, first, wasShift, anchor, shift, skips) {
        var p :| Lost(held, first, wasShift, anchor, shift, skips, p);
        assert !Received(p);
      }
      if p :| anchor + shift <= p && Provisional(held, first, p - wasShift) && !Received(p) {
        assert Lost(held, first, wasShift, anchor, shift, skips, p);
      }
    }

    /** Commit to the earliest held byte, named or not: nothing held lies before it. */
    method CommitEarliest(sequence: Option<nat>)
      requires Unanchored() && unanchored != map[] && OriginOf(sequence) == OriginOf(None)
      requires !CapacityExceeded(pending, limits)
      modifies this
      decreases |unanchored|, 1
      ensures Anchored() && !CapacityExceeded(pending, limits)
      ensures unchanged(`own, `restarts, `firstUnanchored, `finSequence, `finObservedAt, `lastActivityAt)
      ensures old(calls) <= calls && NothingStandalone(calls, |old(calls)|)
      ensures TookEarliest()
    {
      hide Sound, Core, CapacityExceeded, Unwrap, Ordered, LiftOf, Waiting, ProvisionalTrue, WindowOf, FinNear,
          Prompt, TakenAll, Provisional, FinSkipped, CredibleOf;
      if coherent {
        EarliestIsCredible(unanchored, firstUnanchored, shift);
      }
      CommitUnanchored(sequence, shift - LiftOf(unanchored, firstUnanchored));
      if old(coherent) && old(FinHarmless(unanchored, firstUnanchored, Rules())) {
        forall p | old(HeldProvisionally(p)) ensures anchor + shift <= p {
          EarliestIsFirst(old(unanchored), old(firstUnanchored), p - old(shift));
        }
      }
    }

    /** Advance the timers to `now`. A provisional holding waits a quarter of a second for its prefix, and
        then the earliest held byte is the origin. Returns the resets of the timer part: what a provisional origin
        committed first gives up on its way is reported, but not counted. */
    method ServiceGaps(now: real) returns (resets: nat)
      requires Unanchored() || Anchored()
      requires !CapacityExceeded(pending, limits)
      modifies this
      decreases |unanchored|, 2
      ensures (Unanchored() || Anchored()) && !CapacityExceeded(pending, limits)
      ensures unchanged(`own, `restarts, `firstUnanchored, `finSequence, `finObservedAt, `lastActivityAt)
      ensures old(calls) <= calls && NothingStandalone(calls, |old(calls)|)
      ensures old(Unanchored()) && (old(unanchored) == map[] || now - old(unanchoredStartedAt.value) < 0.25) ==>
                Unanchored() && unchanged(this) && resets == 0
      ensures old(Unanchored()) && old(unanchored) != map[] && now - old(unanchoredStartedAt.value) >= 0.25 ==>
                && Anchored() && callsBefore == old(calls)
                && anchor == old(OriginOf(None)) && shift == old(ShiftFor(None, 0))
                && var run := old(CommittedEarliest(unanchored, firstUnanchored, Rules()));
                && Stand() == Serviced(run, Rules(), now)
                && resets == |gapResets| - |old(gapResets)| - |run.skips|
                && (old(coherent) && old(FinHarmless(unanchored, firstUnanchored, Rules())) ==> ReceivedForGood())
      ensures old(Anchored()) ==>
                && Anchored() && SameOrigin() && Progressed(now) && due == old(due)
                && Stand() == Serviced(old(Stand()), Rules(), now)
                && resets == |gapResets| - |old(gapResets)|
                && (resets == 0 ==> pending == old(pending) && nextSequence == old(nextSequence) && calls == old(calls)
                                    && skips == old(skips) && (pending != map[] ==> gapStartedAt == old(gapStartedAt)))
      ensures pending != map[] ==> gapStartedAt.Some? && now - gapStartedAt.value < 1.5
      ensures nextSequence.Some? && pending == map[] && finSequence.Some? &&
              nextSequence.value < Unwrap(finSequence.value, nextSequence.value)
              ==> gapStartedAt.Some? && now - gapStartedAt.value < 1.5
      ensures Conserved()
    {
      hide Conserved;
      hide Sound, Core, ReceivedForGood, CapacityExceeded, OriginOf, ShiftFor, Unwrap, Unanchored, Serviced,
          CommittedEarliest, FinHarmless;
      if unanchored != map[] && unanchoredStartedAt.Some?
         && now - unanchoredStartedAt.value >= INITIAL_REORDER_GRACE_SECONDS {
        HeldMeansUnanchored();
        CommitEarliest(None);
      }
      resets := ServiceTimers(now);
      HeldMeansUnanchored();
      StaysConserved();
    }

    /** While arrivals leave the timers alone and the provisional holding is within its limits, the
        commit gives up nothing, so that the count is the number of resets made. */
    lemma DeferredCommitIsSilent()
      requires Unanchored() && unanchored != map[] && deferGapTimeouts && !CapacityExceeded(unanchored, limits)
      ensures CommittedEarliest(unanchored, firstUnanchored, Rules()).skips == []
    {
      hide Ordered, TakenAll, CapacityExceeded;
      DeferredCommit(unanchored, firstUnanchored, Ordered(unanchored, firstUnanchored)[0].position, Rules());
    }

    /** A commit gives up nothing if and only if no segment of it lies beyond a gap while a limit is
        exceeded with it or, without deferred timers, the gap timer has run out: the count of
        `ServiceGaps` is the number of resets made exactly then. */
    lemma SilentCommits()
      requires Unanchored() && unanchored != map[]
      ensures CommittedEarliest(unanchored, firstUnanchored, Rules()).skips == [] <==>
              var items := Ordered(unanchored, firstUnanchored);
              forall j :: 0 <= j < |items| ==> !GapRunsOutAt(items[0].position, items, j, Rules())
    {
      hide Ordered, TakenAll, GapRunsOutAt;
      var items := Ordered(unanchored, firstUnanchored);
      CommitGivesUpNothing(items[0].position, items, |items|, Rules());
    }

    /** The segment is a true piece of the stream at `at`, near enough to what is known to be placed. */
    ghost predicate Arrives(sequence: int, payload: Bytes, at: int)
      reads this`nextSequence, this`unanchored, this`firstUnanchored, this`shift
    {
      && Congruent(at, sequence) && On(stream, at, payload)
      && (nextSequence.Some? ==>
            -TCP_SEQUENCE_HALF_RANGE < at - shift - nextSequence.value < TCP_SEQUENCE_HALF_RANGE)
      && (nextSequence.None? ==>
            if unanchored == map[] then |payload| < TCP_SEQUENCE_HALF_RANGE
            else FitsWindow(unanchored, firstUnanchored, at - shift, |payload|))
    }

    /** The books of a provisional arrival: where it lies, and whether it can be believed. */
    ghost method JudgeArrival(sequence: int, segment: PendingSegment, at: int)
      requires Unanchored() && |segment.data| > 0
      modifies this`shift, this`coherent
      ensures var key := Raw(sequence);
              var first, kept := if unanchored == map[] then key else firstUnanchored, Keep(unanchored, key, segment);
              && (coherent ==>
                    Congruent(shift, 0) && WindowOf(kept, first) && ProvisionalTrue(kept, first, stream, shift))
              && (old(coherent) && old(Arrives(sequence, segment.data, at)) ==>
                    && coherent
                    && (unanchored != map[] ==> shift == old(shift))
                    && forall r :: Provisional(kept, first, r) <==>
                         (unanchored != map[] && Provisional(unanchored, first, r))
                         || at <= r + shift < at + |segment.data|)
    {
      hide Unwrap, On;
      var key := Raw(sequence);
      coherent := coherent && Arrives(sequence, segment.data, at);
      if coherent {
        if unanchored == map[] {
          shift := at - key;
          FirstArrival(sequence, at, segment);
        } else {
          ArrivalUnwraps(unanchored, firstUnanchored, shift, sequence, at, |segment.data|);
          KeepProvisional(unanchored, firstUnanchored, stream, shift, key, segment, at - shift);
        }
      }
    }

    /** Keep the longest segment seen under each sequence number, and start the grace period. */
    method HoldProvisionally(sequence: int, payload: Bytes, context: PacketContext, ghost at: int)
      requires Unanchored() && |payload| > 0
      modifies this`unanchored, this`firstUnanchored, this`unanchoredStartedAt, this`shift, this`coherent, this`own
      ensures Unanchored() && own == (old(own) && Mine(context))
      ensures unanchored == old(KeptWith(sequence, payload, context)) && firstUnanchored == old(FirstWith(sequence))
      ensures unanchored != map[]
      ensures unanchoredStartedAt ==
              if old(unanchored) == map[] then Some(context.timestamp) else old(unanchoredStartedAt)
      ensures old(coherent) && old(Arrives(sequence, payload, at)) ==>
                coherent && forall p :: HeldProvisionally(p) <==> old(HeldOrArriving(p, payload, at))
    {
      hide WindowOf, ProvisionalTrue, Provisional, FitsWindow, Unwrap, On, Arrives, OwnHeld, OwnLog, Counted;
      var key, segment := Raw(sequence), PendingSegment(payload, context);
      KeepIsMine(unanchored, key, segment);
      JudgeArrival(sequence, segment, at);
      own := own && Mine(context);
      if unanchored == map[] {
        firstUnanchored := key;
      }
      unanchored := Keep(unanchored, key, segment);
      if unanchoredStartedAt.None? {
        unanchoredStartedAt := Some(context.timestamp);
      }
      assert key in unanchored;
    }

    lemma FirstArrival(sequence: int, at: int, segment: PendingSegment)
      requires Congruent(at, sequence) && On(stream, at, segment.data) && |segment.data| < TCP_SEQUENCE_HALF_RANGE
      ensures var key, kept := Raw(sequence), Keep(map[], Raw(sequence), segment);
              && Congruent(at - key, 0) && WindowOf(kept, key) && ProvisionalTrue(kept, key, stream, at - key)
              && forall r :: Provisional(kept, key, r) <==> key <= r < key + |segment.data|
    {
      var key, kept := Raw(sequence), Keep(map[], Raw(sequence), segment);
      RawIsCongruent(sequence);
      CongruentTransitive(Raw(sequence), sequence, sequence);
      CongruentTransitive(at, sequence, key);
      CongruentShift(at, key, -key);
      UnwrapRecovers(key, key, key);
      hide Unwrap, On;
      assert key in kept && kept[key] == segment;
    }

    /** Provisionally held segments are committed: the scanner vouches for the bytes contiguous from the
        earliest of them, or a limit is exceeded. */
    predicate Convincing(held: Held, first: nat)
      requires held != map[] && forall k :: k in held ==> k < TCP_SEQUENCE_MODULUS
    {
      || (canAnchorAtStart.Some? && canAnchorAtStart.value(ProbeOf(Ordered(held, first), INITIAL_ANCHOR_PROBE_BYTES)))
      || CapacityExceeded(held, limits)
    }

    /** The same, written out: two messages and a header are enough for a scanner to tell, and more
        segments or bytes than allowed cannot be held. */
    ghost predicate Decisive(held: Held, first: nat)
      requires held != map[] && forall k :: k in held ==> k < TCP_SEQUENCE_MODULUS
    {
      || (canAnchorAtStart.Some? && canAnchorAtStart.value(ProbeOf(Ordered(held, first), 2 * 65_535 + 5)))
      || |held| > limits.segments || (limits.bytes.Some? && TotalBytes(held) > limits.bytes.value)
    }

    lemma ConvincingIsDecisive(held: Held, first: nat)
      requires held != map[] && forall k :: k in held ==> k < TCP_SEQUENCE_MODULUS
      ensures Convincing(held, first) <==> Decisive(held, first)
    {
      hide Ordered, TotalBytes;
    }

    /** What is held once a segment has come in, and which of it came first. */
    function KeptWith(sequence: int, payload: Bytes, context: PacketContext): (held: Held)
      reads this`unanchored
      ensures held != map[]
      ensures (forall k :: k in unanchored ==> k < TCP_SEQUENCE_MODULUS) ==> forall k :: k in held ==>
                k < TCP_SEQUENCE_MODULUS
    {
      var held := Keep(unanchored, Raw(sequence), PendingSegment(payload, context));
      assert Raw(sequence) in held;
      held
    }

    function FirstWith(sequence: int): (first: nat)
      reads this`unanchored, this`firstUnanchored
    {
      if unanchored == map[] then Raw(sequence) else firstUnanchored
    }

    /** Stream position `p` is held already or arrives with the segment. */
    ghost predicate HeldOrArriving(p: int, payload: Bytes, at: int)
      reads this`shift, this`unanchored, this`firstUnanchored
    {
      (unanchored != map[] && HeldProvisionally(p)) || at <= p < at + |payload|
    }

    /** What a segment does to a flow without an origin: the flow commits to the earliest byte if what
        is then held is convincing, and receives all of it; otherwise the segment joins what is held. */
    twostate predicate Accepted(sequence: int, payload: Bytes, context: PacketContext, at: int)
      requires old(Unanchored())
      reads this
    {
      var kept, first := old(KeptWith(sequence, payload, context)), old(FirstWith(sequence));
      && (nextSequence.Some? <==> Decisive(kept, first))
      && (nextSequence.None? ==>
            && unanchored == kept && firstUnanchored == first && calls == old(calls) && gapResets == old(gapResets)
            && (old(coherent) && old(Arrives(sequence, payload, at)) ==>
                  coherent && forall p :: HeldProvisionally(p) <==> old(HeldOrArriving(p, payload, at))))
      && (nextSequence.Some? ==> Originated(kept, first, sequence, payload, at))
    }

    /** The flow committed to the earliest byte of `kept`. */
    twostate predicate Originated(kept: Held, first: nat, sequence: int, payload: Bytes, at: int)
      requires nextSequence.Some? && kept != map[] && forall k :: k in kept ==> k < TCP_SEQUENCE_MODULUS
      reads this
    {
      && callsBefore == old(calls) && anchor == Ordered(kept, first)[0].position
      && Stand() == CommittedEarliest(kept, first, Rules()) && |gapResets| - |old(gapResets)| == |skips|
      && (old(coherent) && old(Arrives(sequence, payload, at)) && FinHarmless(kept, first, Rules()) ==>
            && coherent
            && (forall p :: Received(p) <==>
                  && old(HeldOrArriving(p, payload, at))
                  && !LostToFin(kept, first, Rules(), p - shift - LiftOf(kept, first)))
            && (KeptWithArriving(payload, at) <==> !PassesOverEarliest(kept, first, Rules())))
    }

    /** All that was held or arrived has been received. */
    twostate predicate KeptWithArriving(payload: Bytes, at: int)
      reads this`shift, this`due
    {
      forall p :: old(HeldOrArriving(p, payload, at)) ==> Received(p)
    }

    /** The flow took the earliest held byte for its origin. */
    twostate predicate TookEarliest()
      requires old(Unanchored()) && old(unanchored) != map[] && nextSequence.Some?
      reads this
    {
      && callsBefore == old(calls) && reportedBefore == old(gapResets) && |gapResets| - |old(gapResets)| == |skips|
      && anchor == old(OriginOf(None)) && shift == old(ShiftFor(None, 0))
      && Stand() == old(CommittedEarliest(unanchored, firstUnanchored, Rules()))
      && (old(coherent) && old(FinHarmless(unanchored, firstUnanchored, Rules())) ==> ReceivedForGood())
    }

    /** Commit once the scanner vouches for the earliest bytes or a limit is exceeded. */
    method CommitIfConvincing()
      requires Unanchored() && unanchored != map[]
      modifies this
      ensures (Unanchored() || Anchored()) && !CapacityExceeded(pending, limits)
      ensures !CapacityExceeded(unanchored, limits)
      ensures unchanged(`own, `restarts, `firstUnanchored, `finSequence, `finObservedAt, `lastActivityAt)
      ensures old(calls) <= calls && NothingStandalone(calls, |old(calls)|)
      ensures nextSequence.Some? <==> old(Convincing(unanchored, firstUnanchored))
      ensures nextSequence.None? ==> unchanged(this)
      ensures nextSequence.Some? ==> TookEarliest()
    {
      hide Sound, Core, On, Ordered, LiftOf, Unwrap, CapacityExceeded, WindowOf, ProvisionalTrue, HeldForGood,
          FinHarmless, CommittedEarliest;
      EmptyFits(limits);
      var ordered := Ordered(unanchored, firstUnanchored);
      var start, probe := ContiguousProbe(ordered, INITIAL_ANCHOR_PROBE_BYTES);
      if canAnchorAtStart.Some? && canAnchorAtStart.value(probe) {
        CommitEarliest(Some(start));
      } else if CapacityExceeded(unanchored, limits) {
        CommitEarliest(Some(start));
      }
      HeldMeansUnanchored();
    }

    /** A segment while no origin is known: hold it, and commit if what is then held is convincing. */
    method AddUnanchoredSegment(sequence: int, payload: Bytes, context: PacketContext, ghost at: int)
      requires Unanchored() && !CapacityExceeded(unanchored, limits) && |payload| > 0
      modifies this
      ensures Valid() && own == (old(own) && Mine(context))
      ensures unchanged(`restarts, `finSequence, `finObservedAt, `lastActivityAt)
      ensures old(calls) <= calls && NothingStandalone(calls, |old(calls)|) && |gapResets| >= |old(gapResets)|
      ensures Accepted(sequence, payload, context, at)
      ensures nextSequence.None? ==>
                unanchoredStartedAt ==
                (if old(unanchored) == map[] then Some(context.timestamp) else old(unanchoredStartedAt))
    {
      hide Sound, Core, On, Keep, Arrives, Provisional, WindowOf, ProvisionalTrue, Ordered, LiftOf, Unwrap,
          CapacityExceeded, LostToFin, FinHarmless, CommittedEarliest, HeldOrArriving, KeptWith, FirstWith,
          Convincing, Decisive;
      HoldProvisionally(sequence, payload, context, at);
      ConvincingIsDecisive(unanchored, firstUnanchored);
      CommitIfConvincing();
    }

    /** Fix the origin at a sequence number learnt without its bytes. */
    method AnchorSequence(sequence: int, ghost at: int)
      requires Valid()
      modifies this
      ensures Valid() && nextSequence.Some?
      ensures unchanged(`own, `restarts, `finSequence, `finObservedAt, `lastActivityAt)
      ensures old(calls) <= calls && NothingStandalone(calls, |old(calls)|) && |gapResets| >= |old(gapResets)|
      ensures old(nextSequence).Some? ==> unchanged(this)
      ensures old(nextSequence).None? ==> callsBefore == old(calls) && anchor == Raw(sequence)
      ensures old(nextSequence).None? && old(unanchored) == map[] ==>
                && nextSequence == Some(anchor) && pending == map[]
                && calls == old(calls) && gapResets == old(gapResets) && due == iset{}
                && (old(coherent) && Congruent(at, sequence) ==> coherent && anchor + shift == at)
      ensures old(nextSequence).None? && old(unanchored) != map[] ==>
                && Stand() == old(CommitRun(Some(Raw(sequence))))
                && (old(coherent) && Congruent(at, sequence) && old(Credible(Raw(sequence), at - Raw(sequence)))
                    && old(FinPlaced(Some(Raw(sequence)), at - Raw(sequence))) ==>
                      && coherent && anchor + shift == at && (forall p :: Received(p) <==> WasHeld(p))
                      && (KeptFrom(at) <==> !old(PassesOver(Some(Raw(sequence)), at - Raw(sequence)))))
    {
      hide Sound, Core, On, Provisional, WindowOf, ProvisionalTrue, Unwrap, CredibleOf, FinPlaced, CommitRun,
          FinSkipped, PassesOver;
      EmptyFits(limits);
      if nextSequence.None? {
        if unanchored != map[] {
          CommitUnanchored(Some(Raw(sequence)), at - Raw(sequence));
        } else {
          if Congruent(at, sequence) {
            RawIsCongruent(sequence);
            CongruentTransitive(Raw(sequence), sequence, sequence);
            CongruentTransitive(at, sequence, Raw(sequence));
            CongruentShift(at, Raw(sequence), -Raw(sequence));
          }
          coherent := coherent && Congruent(at, sequence);
          OpenAt(Raw(sequence), at - Raw(sequence));
        }
        AnchoredHoldsNothing();
      }
    }

    /** Stream position `p` has arrived in time: received, or held while there is no origin. */
    ghost predicate Has(p: int)
      reads this`nextSequence, this`shift, this`due, this`unanchored, this`firstUnanchored
    {
      if nextSequence.Some? then Received(p) else unanchored != map[] && HeldProvisionally(p)
    }

    /** Stream position `p` arrives with bytes at `at`, and is not passed already. */
    ghost predicate ArrivesInTime(p: int, payload: Bytes, at: int)
      reads this`nextSequence, this`shift
    {
      at <= p < at + |payload| && (nextSequence.Some? ==> nextSequence.value <= p - shift)
    }

    /** A true segment near enough to be placed: nothing but its timely positions are added, and unless
        FIN's timer could pass over what is held, nothing is lost. */
    twostate predicate Absorbed(sequence: int, payload: Bytes, context: PacketContext, at: int)
      requires old(Unanchored()) || old(Anchored())
      reads this
    {
      old(coherent) && old(Arrives(sequence, payload, at))
      && (old(nextSequence).Some?
          || Keeps(old(KeptWith(sequence, payload, context)), old(FirstWith(sequence)), old(Rules()))) ==>
        coherent && forall p :: Has(p) <==> old(Has(p)) || old(ArrivesInTime(p, payload, at))
    }

    twostate lemma AnchoredAbsorbs(new sequence: int, new payload: Bytes, new context: PacketContext, new at: int)
      requires old(Anchored()) && Anchored() && shift == old(shift) && payload != []
      requires var position := Unwrap(sequence, old(nextSequence.value));
               due == old(due) + Range(Max(position, old(nextSequence.value)), position + |payload|)
      requires old(coherent) && old(Arrives(sequence, payload, at)) ==>
                 coherent && Unwrap(sequence, old(nextSequence.value)) == at - shift
      ensures Absorbed(sequence, payload, context, at)
    {
      hide Sound, Core, Unwrap, Arrives, KeptWith, FirstWith, Keeps, Waiting;
      var next, position := old(nextSequence.value), Unwrap(sequence, old(nextSequence.value));
      forall q: nat ensures q in due <==> q in old(due) || (next <= q && position <= q < position + |payload|) {
        assert q in due <==> q in old(due) || Within(Max(position, next), position + |payload|, q);
      }
    }

    twostate lemma AcceptedAbsorbs(new sequence: int, new payload: Bytes, new context: PacketContext, new at: int)
      requires old(Unanchored()) && (Unanchored() || Anchored()) && payload != []
      requires finSequence == old(finSequence) && finObservedAt == old(finObservedAt)
      requires Accepted(sequence, payload, context, at)
      ensures Absorbed(sequence, payload, context, at)
    {
      hide Sound, Core, Unwrap, Arrives, KeptWith, FirstWith, Prompt, Waiting, LostToFin, Decisive, Own,
          PassesOverEarliest,
          Counted, HeldProvisionally, WindowOf, ProvisionalTrue, CommittedEarliest, Received, Ordered, FinNear;
      var kept, first := old(KeptWith(sequence, payload, context)), old(FirstWith(sequence));
      if Prompt(kept, Rules()) {
        PromptLosesNothing(kept, first, Rules());
      }
    }

    /** The flow's clock: when a packet was last seen on it. */
    method Observe(timestamp: real)
      requires Valid()
      modifies this`lastActivityAt
      ensures Valid() && lastActivityAt == Some(timestamp)
    {
      hide Sound, WindowOf, ProvisionalTrue, CapacityExceeded, NonEmpty, OwnLog, OwnHeld, AllBeyond, Ends;
      lastActivityAt := Some(timestamp);
    }

    /** Neither limit is ever exceeded, behind a gap or before the origin is known. */
    lemma WithinLimits()
      requires Valid()
      ensures |pending| <= limits.segments && |unanchored| <= limits.segments
      ensures limits.bytes.Some? ==>
                TotalBytes(pending) <= limits.bytes.value && TotalBytes(unanchored) <= limits.bytes.value
    {
      hide TotalBytes, Unanchored, Anchored;
    }

    lemma ValidStands()
      requires Valid()
      ensures !CapacityExceeded(pending, limits) && !CapacityExceeded(unanchored, limits)
      ensures if nextSequence.None? then Unanchored() else Anchored()
    {
      hide Sound, WindowOf, ProvisionalTrue, CapacityExceeded, Own, Counted;
    }

    /** One segment of payload, wherever the flow stands. `at` is its true stream position. */
    method AddSegment(sequence: int, payload: Bytes, context: PacketContext, ghost at: int)
      requires Valid()
      modifies this
      ensures Valid()
      ensures unchanged(`restarts, `finSequence, `finObservedAt, `lastActivityAt)
      ensures own == (old(own) && (payload == [] || Mine(context)))
      ensures old(calls) <= calls && |gapResets| >= |old(gapResets)|
      ensures payload == [] ==> unchanged(this)
      ensures payload != [] && old(nextSequence).Some? ==>
                && Anchored() && unchanged(`shift, `anchor, `callsBefore, `reportedBefore)
                && old(skips) <= skips && |gapResets| - |old(gapResets)| == |skips| - |old(skips)|
                && Routed(Unwrap(sequence, old(nextSequence.value)), payload, context, true)
                && (old(coherent) && old(Arrives(sequence, payload, at)) ==>
                      coherent && Unwrap(sequence, old(nextSequence.value)) == at - shift)
      ensures payload != [] && old(nextSequence).None? ==> Accepted(sequence, payload, context, at)
      ensures payload != [] && old(nextSequence).None? && nextSequence.None? ==>
                unanchoredStartedAt ==
                (if old(unanchored) == map[] then Some(context.timestamp) else old(unanchoredStartedAt))
      ensures payload != [] ==> Absorbed(sequence, payload, context, at)
    {
      hide Absorbed, Accepted, Sound, Core, On, Provisional, WindowOf, ProvisionalTrue, Arrives,
          CapacityExceeded, Keep, Routed, Unwrap, KeptWith, FirstWith, HeldOrArriving, Decisive, FinHarmless,
          LostToFin, CommittedEarliest, Unanchored, Anchored, LiftOf, Ordered;
      if payload == [] {
        return;
      }
      ValidStands();
      if nextSequence.None? {
        AddUnanchoredSegment(sequence, payload, context, at);
        AcceptedAbsorbs(sequence, payload, context, at);
      } else {
        AddToAnchored(sequence, payload, context, at);
      }
    }

    method AddToAnchored(sequence: int, payload: Bytes, context: PacketContext, ghost at: int)
      requires Valid() && nextSequence.Some? && payload != []
      modifies this
      ensures Valid() && Anchored() && own == (old(own) && Mine(context))
      ensures unchanged(`restarts, `finSequence, `finObservedAt, `lastActivityAt, `shift, `anchor, `callsBefore,
          `reportedBefore)
      ensures old(calls) <= calls && old(skips) <= skips && |gapResets| - |old(gapResets)| == |skips| - |old(skips)|
      ensures Routed(Unwrap(sequence, old(nextSequence.value)), payload, context, true)
      ensures old(coherent) && old(Arrives(sequence, payload, at)) ==>
                coherent && Unwrap(sequence, old(nextSequence.value)) == at - shift
      ensures Absorbed(sequence, payload, context, at)
    {
      hide Sound, Core, On, CapacityExceeded, Keep, Unwrap, Taken, Absorbed;
      ghost var arrives := Arrives(sequence, payload, at);
      if coherent && arrives {
        ArrivalIsNear(sequence, payload, at);
      }
      hide Arrives;
      Distrust(arrives, Mine(context));
      AddAnchoredSegment(sequence, payload, context, true);
      AnchoredAbsorbs(sequence, payload, context, at);
      AnchoredHoldsNothing();
      EmptyFits(limits);
    }

    lemma ArrivalIsNear(sequence: int, payload: Bytes, at: int)
      requires Anchored() && coherent && Arrives(sequence, payload, at)
      ensures Unwrap(sequence, nextSequence.value) == at - shift && On(stream, shift + (at - shift), payload)
    {
      hide Sound, Unwrap;
      MultiplesAreCongruent(at - shift, at, -(shift / TCP_SEQUENCE_MODULUS));
      CongruentTransitive(at - shift, at, sequence);
      UnwrapRecovers(sequence, nextSequence.value, at - shift);
    }

    /** FIN was seen: `sequence` is where the payload ends. */
    method MarkFin(sequence: int, timestamp: real)
      requires Valid()
      modifies this`finSequence, this`finObservedAt, this`gapStartedAt
      ensures Valid()
      ensures finSequence == Some(Raw(sequence)) && finObservedAt == Some(timestamp)
      ensures gapStartedAt ==
              if nextSequence.Some? && pending == map[]
                 && nextSequence.value < Unwrap(finSequence.value, nextSequence.value)
                 && old(gapStartedAt).None?
              then Some(timestamp) else old(gapStartedAt)
    {
      hide Sound, Unwrap, CapacityExceeded;
      finSequence := Some(Raw(sequence));
      finObservedAt := Some(timestamp);
      StartFinGapTimerIfNeeded();
    }

    /** Whatever has arrived stays so, unless FIN's timer could pass over what is held. */
    twostate predicate Conserved()
      requires old(Unanchored()) || old(Anchored())
      reads this
    {
      && old(calls) <= calls
      && (old(nextSequence).Some? ==>
            nextSequence.Some? && due == old(due) && shift == old(shift) && coherent == old(coherent))
      && (old(coherent) && (old(nextSequence).Some? || old(Keeps(unanchored, firstUnanchored, Rules()))) ==>
            coherent && forall p :: Has(p) <==> old(Has(p)))
    }

    /** Timers and finishing alike: what was anchored stays as it is, and what was not is committed to
        the earliest held byte, or left alone. */
    twostate lemma StaysConserved()
      requires old(Unanchored()) || old(Anchored())
      requires old(unanchored) != map[] ==> old(Unanchored())
      requires old(calls) <= calls && (old(nextSequence).Some? ==> nextSequence.Some?)
      requires nextSequence.None? ==> unchanged(`unanchored, `firstUnanchored, `coherent, `shift)
      requires old(nextSequence).Some? ==> unchanged(`shift, `coherent, `due)
      requires old(nextSequence).None? && nextSequence.Some? ==> old(unanchored) != map[]
      requires old(unanchored) != map[] && nextSequence.Some? ==>
                 old(coherent) && old(FinHarmless(unanchored, firstUnanchored, Rules())) ==> ReceivedForGood()
      ensures Conserved()
    {
      hide Sound, Core, Received, HeldProvisionally, WindowOf, ProvisionalTrue, LostToFin, Prompt, Own, Counted,
          Ordered, FinNear, PassesOverEarliest;
      if old(unanchored) != map[] && old(Prompt(unanchored, Rules())) {
        PromptLosesNothing(old(unanchored), old(firstUnanchored), old(Rules()));
      }
    }

    /** Drain everything still held at the end of capture; afterwards a known stream reaches FIN. */
    method Finish()
      requires Valid()
      modifies this
      ensures Valid() && pending == map[] && unanchored == map[]
      ensures unchanged(`own, `restarts, `firstUnanchored, `finSequence, `finObservedAt, `lastActivityAt)
      ensures old(calls) <= calls && NothingStandalone(calls, |old(calls)|) && |gapResets| >= |old(gapResets)|
      ensures nextSequence.None? <==> old(nextSequence).None? && old(unanchored) == map[]
      ensures nextSequence.Some? && finSequence.Some? ==>
                nextSequence.value >= Unwrap(finSequence.value, nextSequence.value)
      ensures old(Anchored()) ==> unchanged(`shift, `anchor, `coherent, `due, `callsBefore)
      ensures Conserved()
      ensures old(unanchored) != map[] ==>
                && anchor == old(OriginOf(None)) && callsBefore == old(calls)
                && (old(coherent) && old(FinHarmless(unanchored, firstUnanchored, Rules())) ==> ReceivedForGood())
      ensures nextSequence.Some? && coherent ==>
                && calls == callsBefore + log
                && (forall q :: Fed(log, q) <==> q >= 0 && q in due)
                && (forall q :: anchor <= q < nextSequence.value ==> (Fed(log, q) <==> !Skipped(skips, q)))
      ensures old(nextSequence).Some? && old(pending) == map[] && finSequence.None? ==>
                calls == old(calls) && gapResets == old(gapResets) && nextSequence == old(nextSequence)
    {
      hide Sound, Core, Unwrap, CapacityExceeded, OriginOf, ShiftFor, FinHarmless, CommittedEarliest, Conserved,
          ReceivedForGood, Fed, Skipped;
      EmptyFits(limits);
      HeldMeansUnanchored();
      if unanchored != map[] {
        CommitEarliest(None);
      }
      CloseOut();
      StaysConserved();
    }

    /** The end of `Finish`: resume over every gap, then report what FIN proves missing. */
    method CloseOut()
      requires (Unanchored() && unanchored == map[]) || Anchored()
      modifies this`pending, this`calls, this`log, this`nextSequence, this`gapStartedAt, this`gapResets, this`skips
      ensures Valid() && pending == map[] && unanchored == map[] && (nextSequence.None? <==> old(nextSequence).None?)
      ensures old(calls) <= calls && NothingStandalone(calls, |old(calls)|) && |gapResets| >= |old(gapResets)|
      ensures nextSequence.Some? && finSequence.Some? ==>
                nextSequence.value >= Unwrap(finSequence.value, nextSequence.value)
      ensures nextSequence.Some? && coherent ==>
                && calls == callsBefore + log
                && (forall q :: Fed(log, q) <==> q >= 0 && q in due)
                && (forall q :: anchor <= q < nextSequence.value ==> (Fed(log, q) <==> !Skipped(skips, q)))
      ensures old(pending) == map[] && finSequence.None? ==>
                calls == old(calls) && gapResets == old(gapResets) && nextSequence == old(nextSequence)
    {
      hide Sound, Core, Unwrap, CapacityExceeded, Skipped, Fed;
      EmptyFits(limits);
      HeldMeansUnanchored();
      if pending != map[] {
        DrainHeld();
      }
      var reset := ResumeAfterFinGap(FinAtEnd);
      HeldMeansUnanchored();
      if nextSequence.Some? {
        AnchoredHoldsNothing();
        if coherent {
          NothingHeldIsConserved();
        }
      }
    }

    /** Resume over every gap still in front of held segments. */
    method DrainHeld()
      requires Anchored()
      modifies this`pending, this`calls, this`log, this`nextSequence, this`gapStartedAt, this`gapResets, this`skips
      ensures Anchored() && pending == map[]
      ensures old(calls) <= calls && NothingStandalone(calls, |old(calls)|) && |gapResets| >= |old(gapResets)|
      ensures old(pending) == map[] ==>
                calls == old(calls) && gapResets == old(gapResets) && nextSequence == old(nextSequence)
    {
      hide Sound, Core, EarliestTimestamp;
      while pending != map[]
        invariant Anchored()
        invariant old(calls) <= calls && NothingStandalone(calls, |old(calls)|) && |gapResets| >= |old(gapResets)|
        invariant old(pending) == map[] ==>
                    pending == map[] && calls == old(calls) && gapResets == old(gapResets)
                    && nextSequence == old(nextSequence)
        decreases |pending|
      {
        ResumeAfterGap(EndOfCapture);
      }
    }

    /** With nothing held, received means fed, and the rest of what was passed was given up. */
    lemma NothingHeldIsConserved()
      requires Anchored() && coherent && pending == map[]
      ensures calls == callsBefore + log
      ensures forall q :: Fed(log, q) <==> q >= 0 && q in due
      ensures forall q :: anchor <= q < nextSequence.value ==> (Fed(log, q) <==> !Skipped(skips, q))
    {
      Conservation(L(), stream, shift);
    }

    /** The received-set refinement: until a gap is given up, the bytes fed are exactly the stream from
        the anchor to the first position that has not arrived. */
    lemma FedIsThePrefix()
      requires Anchored() && coherent && skips == []
      ensures FirstMissing(due, anchor, nextSequence.value)
      ensures On(stream, shift + anchor, FedBytes(log)) && |FedBytes(log)| == nextSequence.value - anchor
    {
      FedUpToFirstMissing(L(), stream, shift);
    }

    /** Arrival order and duplication never matter: two flows of one stream with one origin that have
        received the same positions, and given up on none, have fed the same bytes. */
    static lemma ArrivalOrderNeverMatters(f: TcpFlowState, g: TcpFlowState)
      requires f.Anchored() && f.coherent && f.skips == []
      requires g.Anchored() && g.coherent && g.skips == []
      requires f.stream == g.stream && f.anchor + f.shift == g.anchor + g.shift
      requires forall p :: f.Received(p) <==> g.Received(p)
      ensures f.nextSequence.value + f.shift == g.nextSequence.value + g.shift
      ensures FedBytes(f.log) == FedBytes(g.log)
    {
      f.FedIsThePrefix();
      g.FedIsThePrefix();
      var m, n := f.nextSequence.value, g.nextSequence.value;
      assert !f.Received(m + f.shift) && !g.Received(n + g.shift);
      SameStreamSameBytes(f.stream, f.shift + f.anchor, FedBytes(f.log), FedBytes(g.log));
    }

    /** Every call on the scanner names this flow and this generation. */
    lemma CallsAreOwn(i: nat)
      requires Valid() && own && i < |calls| && !calls[i].Reset?
      ensures calls[i].context.flow == flow && calls[i].context.flowGeneration == generation
    {
      hide Sound;
    }

    lemma ValidIsOwn()
      requires Valid()
      ensures Own() && Counted()
    {
      hide Sound, OwnLog, OwnHeld, NonEmpty, WindowOf, ProvisionalTrue, CapacityExceeded;
    }

    /** Every scanner reset was reported to `on_gap_reset`, restarts aside. */
    lemma ResetsAreReported()
      requires Valid()
      ensures Resets(calls) == |gapResets| + restarts
    {
      ValidIsOwn();
    }

    /** Whatever the scanner is given comes with its position in the stream. */
    lemma CallsAreLocated()
      requires Valid()
      ensures Located(calls)
    {
      hide Located;
      ValidIsOwn();
    }

    lemma OwnAfterReset(log: Log)
      ensures OwnLog(log) ==> OwnLog(log + [Reset])
      ensures OwnHeld(map[])
    {
    }

    /** Forget the stream and the scanner's position in it. */
    method Restart()
      requires Valid()
      modifies this
      ensures Valid() && nextSequence.None? && unanchored == map[] && finSequence.None? && coherent
      ensures calls == old(calls) + [Reset] && gapResets == old(gapResets) && restarts == old(restarts) + 1
    {
      hide Valid, OwnLog, OwnHeld, CapacityExceeded, Resets, Located;
      ValidIsOwn();
      OwnAfterReset(calls);
      ResetsAppend(calls, Reset);
      nextSequence, pending, unanchored, unanchoredStartedAt := None, map[], map[], None;
      gapStartedAt, finSequence, finObservedAt := None, None, None;
      calls, restarts := calls + [Reset], restarts + 1;
      coherent := true;
      hide Own, Counted;
      EmptyIsValid();
    }

    lemma EmptyIsValid()
      requires Own() && Counted() && nextSequence.None? && pending == map[] && unanchored == map[]
      requires gapStartedAt.None? && unanchoredStartedAt.None? && finSequence.None? && finObservedAt.None?
      ensures Valid()
    {
      EmptyFits(limits);
    }
  }
}
