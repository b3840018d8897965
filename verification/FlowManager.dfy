// The per-flow states of a capture: admission, eviction, replacement, closing, and their accounting.
// The manager's counter follows what the states report to `on_gap_reset`; it is proved to be the number
// of resets their scanners received.
module FlowManagement {
  import opened Wire
  import opened SequenceNumbers
  import opened ScannerLog
  import opened ReceivedSet
  import opened Holding
  import InitialOrder
  import opened Gaps
  import opened FinLoss
  import opened Reassembly

  /** A usable state that has only ever seen its own packets, and was never started over. */
  ghost predicate Owned(s: TcpFlowState)
    reads s
  {
    s.Valid() && s.own && s.restarts == 0
  }

  /** A state whose `finish` has run: nothing is held, and a known stream reaches FIN. */
  ghost predicate Drained(s: TcpFlowState)
    reads s
  {
    && Owned(s) && s.pending == map[] && s.unanchored == map[]
    && (s.nextSequence.Some? && s.finSequence.Some? ==> s.FinIsReassembled())
  }

  /** No timer of the flow has run out at `now`. */
  ghost predicate UpToDate(s: TcpFlowState, now: real)
    reads s
  {
    && (s.unanchored != map[] ==> s.unanchoredStartedAt.Some? && now - s.unanchoredStartedAt.value < 0.25)
    && (s.pending != map[] || FinIsShort(s) ==> s.gapStartedAt.Some? && now - s.gapStartedAt.value < 1.5)
  }

  /** Nothing is held, and bytes are missing before FIN. */
  ghost predicate FinIsShort(s: TcpFlowState)
    reads s
  {
    && s.nextSequence.Some? && s.pending == map[] && s.finSequence.Some?
    && s.nextSequence.value < Unwrap(s.finSequence.value, s.nextSequence.value)
  }

  /** How often the scanners of these states were reset. */
  ghost function ResetsMade(states: seq<TcpFlowState>): (n: nat)
    reads states
  {
    if states == [] then 0 else Resets(states[0].calls) + ResetsMade(states[1..])
  }

  /** A state reports each of its scanner's resets. */
  lemma OwnedReports(s: TcpFlowState)
    requires Owned(s)
    ensures |s.gapResets| == Resets(s.calls)
  {
    hide TcpFlowState.Valid, Resets, Located;
    s.ResetsAreReported();
  }

  lemma {:induction false} ResetsSplit(a: seq<TcpFlowState>, b: seq<TcpFlowState>)
    ensures ResetsMade(a + b) == ResetsMade(a) + ResetsMade(b)
  {
    hide Resets, Located;
    if a == [] {
      assert a + b == b;
    } else {
      ResetsSplit(a[1..], b);
      assert (a + b)[1..] == a[1..] + b;
    }
  }

  /** Taking one state out. */
  lemma ResetsWithout(states: seq<TcpFlowState>, i: nat)
    requires i < |states|
    ensures ResetsMade(states) == ResetsMade(Without(states, i)) + Resets(states[i].calls)
  {
    hide ResetsMade, Resets, Located, Without;
    PartsOf(states, i);
    ResetsInParts(states[..i], states[i], states[i + 1..]);
  }

  lemma ResetsInParts(a: seq<TcpFlowState>, s: TcpFlowState, b: seq<TcpFlowState>)
    ensures ResetsMade(a + ([s] + b)) == ResetsMade(a + b) + Resets(s.calls)
  {
    hide ResetsMade, Resets, Located;
    ResetsSplit(a, b);
    ResetsSplit(a, [s] + b);
    ResetsSplit([s], b);
    ResetsOfOne(s);
  }

  lemma WithoutFirst<T>(s: seq<T>)
    requires s != []
    ensures Without(s, 0) == s[1..]
  {
  }

  lemma NextIn<T>(s: seq<T>, n: nat)
    requires n < |s|
    ensures s[n..][0] == s[n] && s[n..][1..] == s[n + 1..] && s[..n + 1] == s[..n] + [s[n]]
  {
  }

  lemma PartsOf<T>(s: seq<T>, i: nat)
    requires i < |s|
    ensures s == s[..i] + ([s[i]] + s[i + 1..]) && Without(s, i) == s[..i] + s[i + 1..]
  {
  }

  function Without<T>(s: seq<T>, i: nat): (r: seq<T>)
    requires i < |s|
    ensures |r| == |s| - 1
    ensures forall k :: 0 <= k < |r| ==> r[k] == s[if k < i then k else k + 1]
  {
    s[..i] + s[i + 1..]
  }

  /** When `key` was last seen. */
  ghost function LastSeen(seen: seq<FlowKey>, key: FlowKey): (at: int)
    ensures -1 <= at < |seen|
    ensures at >= 0 ==> seen[at] == key
    ensures forall i :: at < i < |seen| ==> seen[i] != key
  {
    if seen == [] then -1
    else if seen[|seen| - 1] == key then |seen| - 1
    else LastSeen(seen[..|seen| - 1], key)
  }

  lemma SeenNow(seen: seq<FlowKey>, key: FlowKey, other: FlowKey)
    ensures LastSeen(seen + [key], other) == if other == key then |seen| else LastSeen(seen, other)
  {
    assert (seen + [key])[..|seen|] == seen;
  }

  /** Least recently active first. */
  ghost predicate ByActivity(flows: seq<TcpFlowState>, seen: seq<FlowKey>) {
    && (forall i :: 0 <= i < |flows| ==> LastSeen(seen, flows[i].flow) >= 0)
    && forall i, j :: 0 <= i < j < |flows| ==> LastSeen(seen, flows[i].flow) < LastSeen(seen, flows[j].flow)
  }

  /** One state per flow key. */
  ghost predicate DistinctKeys(flows: seq<TcpFlowState>) {
    forall i, j :: 0 <= i < j < |flows| ==> flows[i].flow != flows[j].flow
  }

  ghost predicate DistinctStates(states: seq<TcpFlowState>) {
    forall i, j :: 0 <= i < j < |states| ==> states[i] != states[j]
  }

  /** Every tracked generation names one state; untracked states carry generation 0. */
  ghost predicate Generations(states: seq<TcpFlowState>, tracked: bool, last: nat) {
    && (forall i :: 0 <= i < |states| ==>
          if tracked then 0 < states[i].generation <= last else states[i].generation == 0)
    && (tracked ==> forall i, j :: 0 <= i < j < |states| ==> states[i].generation != states[j].generation)
  }

  function KeyAt(flows: seq<TcpFlowState>, key: FlowKey): (at: Option<nat>)
    ensures at.Some? ==> at.value < |flows| && flows[at.value].flow == key
    ensures at.None? ==> forall i :: 0 <= i < |flows| ==> flows[i].flow != key
  {
    if flows == [] then None
    else if flows[|flows| - 1].flow == key then Some(|flows| - 1)
    else KeyAt(flows[..|flows| - 1], key)
  }

  datatype Packet = Packet(flow: FlowKey, sequence: int, payload: Bytes, timestamp: real, syn: bool, rst: bool,
      fin: bool)

  /** The sequence number of the first payload byte: SYN consumes one. */
  function PayloadSequence(p: Packet): (s: nat) {
    Raw(p.sequence + if p.syn then 1 else 0)
  }

  /** The sequence number after the last payload byte before FIN. */
  function FinSequence(p: Packet): (s: nat) {
    Raw(p.sequence + (if p.syn then 1 else 0) + |p.payload|)
  }

  function ContextOf(s: TcpFlowState, p: Packet): PacketContext {
    PacketContext(p.timestamp, p.flow, None, s.generation)
  }

  /** The packet's payload is what the peer sent from `at` on. */
  ghost predicate Genuine(stream: Stream, p: Packet, at: int) {
    && Congruent(at, p.sequence + if p.syn then 1 else 0) && On(stream, at, p.payload)
    && |p.payload| < TCP_SEQUENCE_HALF_RANGE
  }

  lemma UnwrapOfRaw(sequence: int, reference: int)
    ensures Unwrap(Raw(sequence), reference) == Unwrap(sequence, reference)
  {
    assert Raw(Raw(sequence)) == Raw(sequence);
  }

  lemma ArrivesThere(s: TcpFlowState, p: Packet, at: int)
    requires !p.syn
    ensures s.Arrives(p.sequence, p.payload, at) ==> s.Arrives(PayloadSequence(p), p.payload, at)
  {
    hide On, Congruent, InitialOrder.FitsWindow;
    PayloadIsThere(p, at);
  }

  lemma PayloadIsThere(p: Packet, at: int)
    ensures Congruent(at, p.sequence + if p.syn then 1 else 0) ==> Congruent(at, PayloadSequence(p))
  {
    var sequence := p.sequence + if p.syn then 1 else 0;
    RawIsCongruent(sequence);
    CongruentTransitive(Raw(sequence), sequence, sequence);
    if Congruent(at, sequence) {
      CongruentTransitive(at, sequence, Raw(sequence));
    }
  }

  /** The state stands in the true stream, and has exactly these positions of it. */
  ghost predicate HasJust(s: TcpFlowState, p: Packet, at: int)
    reads s
  {
    s.coherent && forall q :: s.Has(q) <==> at <= q < at + |p.payload|
  }

  /** A new connection: SYN names the first payload byte, and its own payload is delivered from there. */
  method AdmitSyn(s: TcpFlowState, p: Packet, ghost at: int)
    requires Owned(s) && s.flow == p.flow && p.syn
    requires s.nextSequence.None? && s.unanchored == map[] && s.calls == []
    modifies s
    ensures Owned(s) && s.lastActivityAt == old(s.lastActivityAt) && s.Rules() == old(s.Rules())
    ensures |s.gapResets| >= |old(s.gapResets)| && Synchronized(s, p)
    ensures old(s.coherent) && Genuine(s.stream, p, at) ==> HasJust(s, p, at)
  {
    hide TcpFlowState.Valid, TcpFlowState.Core, TcpFlowState.Waiting, TcpFlowState.Credible, Congruent, On,
        Synchronized;
    PayloadIsThere(p, at);
    s.AnchorSequence(PayloadSequence(p), at);
    NothingYetHad(s, p);
    if p.payload == [] {
      SynchronizedEmpty(s, p);
    } else {
      FeedFirst(s, p, at);
    }
  }

  lemma NothingYetHad(s: TcpFlowState, p: Packet)
    requires s.nextSequence.Some? && s.due == iset{}
    ensures forall q :: !s.Has(q)
  {
  }

  lemma SynchronizedEmpty(s: TcpFlowState, p: Packet)
    requires s.nextSequence == Some(PayloadSequence(p)) && s.anchor == PayloadSequence(p) && s.calls == []
    requires p.syn && p.payload == []
    ensures Synchronized(s, p)
  {
  }

  /** The payload of a SYN is fed at the origin. */
  method FeedFirst(s: TcpFlowState, p: Packet, ghost at: int)
    requires Owned(s) && s.flow == p.flow && p.syn && p.payload != []
    requires s.nextSequence == Some(PayloadSequence(p)) && s.anchor == PayloadSequence(p) && s.calls == []
    requires forall q :: !s.Has(q)
    modifies s
    ensures Owned(s) && s.lastActivityAt == old(s.lastActivityAt) && s.Rules() == old(s.Rules())
    ensures |s.gapResets| >= |old(s.gapResets)| && Synchronized(s, p)
    ensures old(s.coherent) && old(s.anchor + s.shift) == at && Genuine(s.stream, p, at) ==> HasJust(s, p, at)
  {
    hide TcpFlowState.Valid, TcpFlowState.Core, TcpFlowState.Waiting, TcpFlowState.Has, TcpFlowState.Routed, On,
        Unwrap, Synchronized, Congruent, Keeps, HasJust, Genuine, TcpFlowState.Absorbed, TcpFlowState.Accepted;
    var next := PayloadSequence(p);
    s.ValidStands();
    FirstUnwraps(next);
    s.AddSegment(next, p.payload, ContextOf(s, p), at);
    RoutedFirst(s, p);
    AbsorbedFirst(s, p, at);
  }

  twostate lemma AbsorbedFirst(s: TcpFlowState, new p: Packet, new at: int)
    requires old(s.nextSequence) == Some(PayloadSequence(p)) && old(s.anchor) == PayloadSequence(p) && old(s.Anchored())
    requires (forall q :: !old(s.Has(q))) && s.Absorbed(PayloadSequence(p), p.payload, ContextOf(s, p), at)
    ensures old(s.coherent) && old(s.anchor + s.shift) == at && Genuine(s.stream, p, at) ==> HasJust(s, p, at)
  {
    hide TcpFlowState.Anchored, TcpFlowState.Unanchored, TcpFlowState.Has, On, Congruent, Keeps;
    PayloadIsThere(p, at);
  }

  lemma FirstUnwraps(next: nat)
    ensures Unwrap(next, next) == next
  {
    UnwrapRecovers(next, next, next) by { MultiplesAreCongruent(next, next, 0); }
  }

  twostate lemma RoutedFirst(s: TcpFlowState, new p: Packet)
    requires old(s.nextSequence) == Some(PayloadSequence(p)) && s.anchor == PayloadSequence(p) && old(s.calls) == []
    requires s.nextSequence.Some? && p.syn && p.payload != []
    requires s.Routed(PayloadSequence(p), p.payload, ContextOf(s, p), true)
    ensures Synchronized(s, p)
  {
    hide Gaps.Taken, TcpFlowState.PutBeyond, Range;
  }

  /** What a state holds without an origin, once the packet's payload is among it. */
  ghost function HeldWith(s: TcpFlowState, p: Packet): Held
    reads s
  {
    if p.payload == [] then s.unanchored else s.KeptWith(PayloadSequence(p), p.payload, ContextOf(s, p))
  }

  /** Which of it came first. */
  ghost function EarliestWith(s: TcpFlowState, p: Packet): nat
    reads s
  {
    if p.payload == [] then s.firstUnanchored else s.FirstWith(PayloadSequence(p))
  }

  /** A true payload near enough to be placed: its timely positions are added, and unless FIN's timer
      could pass over what is held, nothing the state had is lost. */
  twostate predicate Absorbs(s: TcpFlowState, p: Packet, at: int)
    reads s
  {
    old(s.coherent) && (p.payload != [] ==> old(s.Arrives(p.sequence, p.payload, at)))
    && (old(s.nextSequence).Some? || Keeps(old(HeldWith(s, p)), old(EarliestWith(s, p)), old(s.Rules()))) ==>
      s.coherent && forall q :: s.Has(q) <==> old(s.Has(q)) || old(s.ArrivesInTime(q, p.payload, at))
  }

  /** Where a payload goes on a flow with an origin: what is passed is at most shown to the scanner, what
      starts at or before `next` is fed first of all, and whatever is timely is received. */
  twostate predicate Placed(s: TcpFlowState, p: Packet)
    reads s
  {
    && old(s.calls) <= s.calls
    && (p.payload != [] && old(s.nextSequence).Some? ==>
          var next, position := old(s.nextSequence.value), Unwrap(p.sequence, old(s.nextSequence.value));
          var passed := p.payload[..Min(|p.payload|, Max(0, next - position))];
          var shown := old(s.calls) + if passed == [] then []
                                      else [ScanStandalone(passed, PacketContext(p.timestamp, p.flow, Some(position),
                                                                                 s.generation))];
          && s.nextSequence.Some? && shown <= s.calls
          && s.due == old(s.due) + Range(Max(position, next), position + |p.payload|)
          && (position <= next < position + |p.payload| ==>
                |s.calls| > |shown| &&
                s.calls[|shown|] == Feed(p.payload[next - position..],
                                         PacketContext(p.timestamp, p.flow, Some(next), s.generation))))
  }

  /** What a state has: received from its origin on, or held until one is known; its calls, its clock. */
  datatype Account = Account(known: bool, coherent: bool, shift: int, due: iset<nat>, held: Held, first: nat,
      rules: Policy, calls: Log, clock: Option<real>)

  ghost function AccountOf(s: TcpFlowState): Account
    reads s
  {
    Account(s.nextSequence.Some?, s.coherent, s.shift, s.due, s.unanchored, s.firstUnanchored, s.Rules(), s.calls,
        s.lastActivityAt)
  }

  ghost predicate HasOn(a: Account, p: int) {
    if a.known then p - a.shift >= 0 && (p - a.shift) in a.due
    else a.held != map[] && InitialOrder.Provisional(a.held, a.first, p - a.shift)
  }

  lemma AccountHas(s: TcpFlowState)
    ensures forall p :: s.Has(p) <==> HasOn(AccountOf(s), p)
  {
  }

  /** From `a` to `b` nothing was lost: what was received is, and unless a commit passes over some of
      what was held, so is all that; no call was taken back. */
  ghost predicate Preserves(a: Account, b: Account) {
    && a.calls <= b.calls
    && (a.known ==> b.known && b.due == a.due && b.shift == a.shift && b.coherent == a.coherent)
    && (a.coherent && (a.known || Keeps(a.held, a.first, a.rules)) ==>
          b.coherent && forall p :: HasOn(b, p) <==> HasOn(a, p))
  }

  /** While no origin is known, what is held and what is known of FIN stay as they are. */
  ghost predicate Waits(a: Account, b: Account) {
    !b.known ==> !a.known && b.held == a.held && b.first == a.first && b.rules == a.rules
  }

  /** Both, so that it can be said again however it goes on; and no packet was seen in between. */
  ghost predicate Outlives(a: Account, b: Account) {
    Preserves(a, b) && Waits(a, b) && b.clock == a.clock
  }

  lemma OutlivesFurther(a: Account, b: Account, c: Account)
    requires Outlives(a, b) && Outlives(b, c)
    ensures Outlives(a, c)
  {
    hide Keeps, HasOn;
  }

  /** Since then the state has lost nothing. */
  twostate predicate Saved(s: TcpFlowState)
    reads s
  {
    Preserves(old(AccountOf(s)), AccountOf(s))
  }

  /** Since then it has lost nothing, and while no origin is known nothing else was changed. */
  twostate predicate Survives(s: TcpFlowState)
    reads s
  {
    Outlives(old(AccountOf(s)), AccountOf(s))
  }

  twostate lemma UnchangedSurvives(s: TcpFlowState)
    requires unchanged(s)
    ensures Survives(s)
  {
    hide Keeps, HasOn;
  }

  twostate lemma ConservedSurvives(s: TcpFlowState)
    requires old(s.Unanchored()) || old(s.Anchored())
    requires s.Conserved()
    requires s.nextSequence.None? ==>
               && s.unanchored == old(s.unanchored) && s.firstUnanchored == old(s.firstUnanchored)
               && s.Rules() == old(s.Rules())
    requires s.lastActivityAt == old(s.lastActivityAt)
    ensures Survives(s)
  {
    hide TcpFlowState.Unanchored, TcpFlowState.Anchored, TcpFlowState.Has, HasOn, Keeps;
    AccountHas(s);
    HadBefore(s);
  }

  twostate lemma HadBefore(s: TcpFlowState)
    ensures forall p :: old(s.Has(p)) <==> HasOn(old(AccountOf(s)), p)
  {
  }

  /** A later packet of a flow, FIN and RST aside. */
  method AdmitPayload(s: TcpFlowState, p: Packet, ghost at: int)
    requires Owned(s) && s.flow == p.flow && !p.syn
    modifies s
    ensures Owned(s) && s.lastActivityAt == old(s.lastActivityAt) && s.Rules() == old(s.Rules())
    ensures p.payload == [] ==> unchanged(s)
    ensures |s.gapResets| >= |old(s.gapResets)|
    ensures Admitted(s, p) && Absorbs(s, p, at)
  {
    hide TcpFlowState.Valid, TcpFlowState.Core, TcpFlowState.Waiting, TcpFlowState.Arrives,
        TcpFlowState.Received, TcpFlowState.HeldProvisionally, TcpFlowState.Originated, TcpFlowState.Decisive,
        TcpFlowState.Routed, TcpFlowState.HeldOrArriving, Unwrap, Keep, Keeps;
    ArrivesThere(s, p, at);
    s.AddSegment(PayloadSequence(p), p.payload, ContextOf(s, p), at);
  }

  lemma BegunFeedsFirst(s: TcpFlowState, p: Packet)
    requires Begun(s, p)
    ensures p.syn ==> FirstFed(s, p)
  {
  }

  twostate lemma BegunStays(s: TcpFlowState, new p: Packet)
    requires old(Begun(s, p))
    ensures (s.calls == old(s.calls) && s.nextSequence == old(s.nextSequence) && s.anchor == old(s.anchor)
             && s.unanchored == old(s.unanchored)) ==>
              Begun(s, p)
  {
  }

  lemma CompleteIsAnchored(s: TcpFlowState)
    requires s.FinIsReassembled()
    ensures s.nextSequence.Some?
  {
  }

  twostate lemma SavedHasJust(s: TcpFlowState, new p: Packet, new at: int)
    requires Saved(s) && old(s.finSequence).None?
    ensures old(HasJust(s, p, at)) ==> HasJust(s, p, at)
    ensures old(FirstFed(s, p)) ==> FirstFed(s, p)
  {
    hide TcpFlowState.Has, HasOn;
    AccountHas(s);
    HadBefore(s);
  }

  /** The first payload of a flow whose origin is not known yet. */
  twostate lemma AbsorbsFirst(s: TcpFlowState, new p: Packet, new at: int)
    requires !p.syn && Absorbs(s, p, at) && Genuine(s.stream, p, at)
    requires old(s.nextSequence).None? && old(s.unanchored) == map[] && old(s.coherent) && old(s.finSequence).None?
    ensures HasJust(s, p, at)
  {
    hide On, Congruent;
  }

  /** Without an origin, the state holds what it held and the payload. */
  twostate lemma AdmittedIsHeld(s: TcpFlowState, new p: Packet)
    requires Admitted(s, p)
    ensures old(s.nextSequence).None? && s.nextSequence.None? ==>
              s.unanchored == old(HeldWith(s, p)) && s.firstUnanchored == old(EarliestWith(s, p))
    ensures old(s.nextSequence).Some? ==> s.nextSequence.Some?
  {
    hide Gaps.Taken, TcpFlowState.Routed, Unwrap;
  }

  twostate lemma AdmittedIsPlaced(s: TcpFlowState, new p: Packet)
    requires !p.syn && Admitted(s, p)
    ensures Placed(s, p)
  {
    hide Gaps.Taken, TcpFlowState.PutBeyond, Unwrap, Keep, Range;
    if old(s.nextSequence).Some? {
      UnwrapOfRaw(p.sequence, old(s.nextSequence.value));
    }
  }

  /** What a state makes of a packet of its flow, FIN and RST aside. */
  method Admit(s: TcpFlowState, p: Packet, ghost at: int)
    requires Owned(s) && s.flow == p.flow
    requires p.syn ==> s.nextSequence.None? && s.unanchored == map[] && s.calls == []
    modifies s
    ensures Owned(s) && s.lastActivityAt == Some(p.timestamp) && s.Rules() == old(s.Rules())
    ensures |s.gapResets| >= |old(s.gapResets)|
    ensures p.syn ==> Synchronized(s, p)
    ensures p.syn && old(s.coherent) && Genuine(s.stream, p, at) ==> HasJust(s, p, at)
    ensures !p.syn ==> Admitted(s, p) && Absorbs(s, p, at)
  {
    hide TcpFlowState.Valid, TcpFlowState.Core, TcpFlowState.Waiting, TcpFlowState.Arrives,
        TcpFlowState.Received, TcpFlowState.HeldProvisionally, Unwrap, Keep, Synchronized, Keeps, Gaps.Taken;
    s.Observe(p.timestamp);
    if p.syn {
      AdmitSyn(s, p, at);
    } else {
      AdmitPayload(s, p, at);
    }
  }

  /** SYN fixes the origin at the byte after it, and its own payload is the first thing fed. */
  ghost predicate Synchronized(s: TcpFlowState, p: Packet)
    reads s
  {
    && s.nextSequence.Some? && s.anchor == (p.sequence + 1) % 0x1_0000_0000
    && s.nextSequence.value >= s.anchor + |p.payload|
    && if p.payload == [] then s.calls == []
       else s.calls != [] && s.calls[0] == Feed(p.payload, ContextOf(s, p).(streamStart := Some(s.anchor)))
  }

  /** The first thing fed is the payload of the SYN. */
  ghost predicate FirstFed(s: TcpFlowState, p: Packet)
    reads s
  {
    p.payload != [] ==>
      && s.calls != []
      && s.calls[0] == Feed(p.payload, PacketContext(p.timestamp, p.flow, Some((p.sequence + 1) % 0x1_0000_0000),
                                                     s.generation))
  }

  /** What a state just opened makes of its first packet. */
  ghost predicate Begun(s: TcpFlowState, p: Packet)
    reads s
  {
    if p.syn then Synchronized(s, p)
    else s.nextSequence.None? ==>
      s.calls == [] && s.unanchored == map[p.sequence % 0x1_0000_0000 := PendingSegment(p.payload, ContextOf(s, p))]
  }

  /** The payload is routed by an anchored flow, held by one that has no origin yet; without payload
      nothing but the clock changes. */
  twostate predicate Admitted(s: TcpFlowState, p: Packet)
    reads s
  {
    && old(s.calls) <= s.calls
    && (p.payload == [] ==> s.calls == old(s.calls) && s.nextSequence == old(s.nextSequence)
                            && s.pending == old(s.pending) && s.unanchored == old(s.unanchored)
                            && s.firstUnanchored == old(s.firstUnanchored))
    && (p.payload != [] && old(s.nextSequence).Some? ==>
          s.nextSequence.Some?
          && s.Routed(Unwrap(PayloadSequence(p), old(s.nextSequence.value)), p.payload, ContextOf(s, p), true))
    && (p.payload != [] && old(s.nextSequence).None? && s.nextSequence.None? ==>
          && s.calls == old(s.calls) && s.firstUnanchored == old(s.FirstWith(PayloadSequence(p)))
          && s.unanchored ==
             Keep(old(s.unanchored), PayloadSequence(p), PendingSegment(p.payload, ContextOf(s, p))))
  }

  /** Distinct states and generations do not depend on the order. */
  lemma Rearranged(from: seq<TcpFlowState>, to: seq<TcpFlowState>, source: nat -> nat, tracked: bool, last: nat)
    requires |from| == |to|
    requires forall i :: 0 <= i < |to| ==> source(i) < |from| && to[i] == from[source(i)]
    requires forall i, j :: 0 <= i < j < |to| ==> source(i) != source(j)
    ensures DistinctStates(from) ==> DistinctStates(to)
    ensures Generations(from, tracked, last) ==> Generations(to, tracked, last)
  {
  }

  /** Taking a flow out and counting it among the closed ones. */
  lemma AfterClosing(flows: seq<TcpFlowState>, retired: seq<TcpFlowState>, at: nat, tracked: bool, last: nat)
    requires at < |flows| && DistinctStates(flows + retired) && Generations(flows + retired, tracked, last)
    ensures var moved := Without(flows, at) + (retired + [flows[at]]);
            DistinctStates(moved) && Generations(moved, tracked, last)
  {
    hide DistinctStates, Generations;
    var n := |flows| + |retired|;
    Rearranged(flows + retired, Without(flows, at) + (retired + [flows[at]]),
               (i: nat) => if i < at then i else if i == n - 1 then at else i + 1, tracked, last);
  }

  /** Making a flow the most recently active one. */
  lemma AfterTouching(flows: seq<TcpFlowState>, retired: seq<TcpFlowState>, at: nat, tracked: bool, last: nat)
    requires at < |flows| && DistinctStates(flows + retired) && Generations(flows + retired, tracked, last)
    ensures var moved := Without(flows, at) + [flows[at]] + retired;
            DistinctStates(moved) && Generations(moved, tracked, last)
  {
    hide DistinctStates, Generations;
    var n := |flows|;
    Rearranged(flows + retired, Without(flows, at) + [flows[at]] + retired,
               (i: nat) => if i < at || i >= n then i else if i == n - 1 then at else i + 1, tracked, last);
  }

  /** A fresh state with the next generation. */
  lemma AfterOpening(flows: seq<TcpFlowState>, retired: seq<TcpFlowState>, s: TcpFlowState, tracked: bool, last: nat)
    requires DistinctStates(flows + retired) && Generations(flows + retired, tracked, last)
    requires s !in flows && s !in retired && s.generation == if tracked then last + 1 else 0
    ensures var grown := flows + [s] + retired;
            DistinctStates(grown) && Generations(grown, tracked, if tracked then last + 1 else last)
  {
    var all, grown, n := flows + retired, flows + [s] + retired, |flows|;
    assert forall i :: 0 <= i < |grown| && i != n ==> grown[i] == all[if i < n then i else i - 1];
  }

  /** Flows went from the active ones to the closed ones, and there is no other change. */
  ghost predicate OnlyMoved(wasActive: seq<TcpFlowState>, wasClosed: seq<TcpFlowState>, active: seq<TcpFlowState>,
                            closed: seq<TcpFlowState>)
  {
    && wasClosed <= closed && (forall s :: s in active ==> s in wasActive)
    && (forall s :: s in wasActive ==> s in active || s in closed[|wasClosed|..])
    && forall s :: s in closed[|wasClosed|..] ==> s in wasActive
  }

  lemma OnlyMovedFurther(a: seq<TcpFlowState>, b: seq<TcpFlowState>, c: seq<TcpFlowState>, r: seq<TcpFlowState>,
                         s: seq<TcpFlowState>, t: seq<TcpFlowState>)
    requires OnlyMoved(a, r, b, s) && OnlyMoved(b, s, c, t)
    ensures OnlyMoved(a, r, c, t)
  {
    assert t[|r|..] == s[|r|..] + t[|s|..];
  }

  twostate predicate Same(states: seq<TcpFlowState>)
    reads states
  {
    forall i :: 0 <= i < |states| ==> unchanged(states[i])
  }

  ghost function Accounts(states: seq<TcpFlowState>): (accounts: seq<Account>)
    reads states
    ensures |accounts| == |states| && forall i :: 0 <= i < |states| ==> accounts[i] == AccountOf(states[i])
  {
    if states == [] then [] else [AccountOf(states[0])] + Accounts(states[1..])
  }

  ghost predicate AllOutlive(a: seq<Account>, b: seq<Account>) {
    |a| == |b| && forall i :: 0 <= i < |a| ==> Outlives(a[i], b[i])
  }

  lemma AllOutliveFurther(a: seq<Account>, b: seq<Account>, c: seq<Account>)
    requires AllOutlive(a, b) && AllOutlive(b, c)
    ensures AllOutlive(a, c)
  {
    hide Outlives;
    forall i | 0 <= i < |a| ensures Outlives(a[i], c[i]) {
      OutlivesFurther(a[i], b[i], c[i]);
    }
  }

  /** None of these states has lost anything since. */
  twostate predicate AllSurvive(states: seq<TcpFlowState>)
    reads states
  {
    AllOutlive(old(Accounts(states)), Accounts(states))
  }

  twostate lemma EachSurvives(states: seq<TcpFlowState>)
    requires AllSurvive(states)
    ensures forall i :: 0 <= i < |states| ==> Survives(states[i])
  {
    hide Outlives, AccountOf;
  }

  twostate lemma SurvivingAll(states: seq<TcpFlowState>)
    requires forall i :: 0 <= i < |states| ==> Survives(states[i])
    ensures AllSurvive(states)
  {
    hide Outlives, AccountOf;
  }

  twostate lemma SameSurvive(states: seq<TcpFlowState>)
    requires Same(states)
    ensures AllSurvive(states)
  {
    hide Survives, AllSurvive;
    forall i | 0 <= i < |states| ensures Survives(states[i]) {
      UnchangedSurvives(states[i]);
    }
    SurvivingAll(states);
  }

  twostate lemma SameIsComplete(states: seq<TcpFlowState>)
    requires Same(states)
    ensures forall i :: 0 <= i < |states| ==> states[i].FinIsReassembled() == old(states[i].FinIsReassembled())
  {
  }

  /** The configurations a manager accepts: every bound that is given is positive. */
  predicate Acceptable(maxFlows: Option<nat>, idleTimeout: Option<real>, limits: Limits) {
    && (maxFlows.Some? ==> maxFlows.value > 0) && (idleTimeout.Some? ==> idleTimeout.value > 0.0)
    && limits.segments > 0 && (limits.bytes.Some? ==> limits.bytes.value > 0)
  }

  /** Every byte up to FIN has been fed, and nothing is held. */
  ghost predicate ReachedFin(s: TcpFlowState)
    reads s
  {
    && s.finSequence.Some? && s.nextSequence.Some? && s.pending == map[] && s.unanchored == map[]
    && Unwrap(s.finSequence.value, s.nextSequence.value) <= s.nextSequence.value
  }

  class FlowManager {
    const serverPorts: set<nat>
    const maxFlows: Option<nat>
    const idleTimeout: Option<real>
    const trackFlowGenerations: bool
    const limits: Limits
    const deferGapTimeouts: bool
    const canAnchorAtStart: Option<Bytes -> bool>

    /** One state per flow key, in the order of the ordered dictionary. */
    var flows: seq<TcpFlowState>
    var nextFlowGeneration: nat
    var tcpGapResets: nat
    /** Notifications: how often `on_flow_eviction` was called, and with which keys `on_flow_close`. */
    var evictions: nat
    var closed: seq<FlowKey>

    /** States ever opened, states closed in that order, and the packets a flow was touched by. */
    ghost var created: nat
    ghost var retired: seq<TcpFlowState>
    ghost var seen: seq<FlowKey>

    /** Who is active, who was closed, and under which keys and generations. */
    ghost predicate Roster()
      reads this
    {
      && (maxFlows.Some? ==> 0 < maxFlows.value && |flows| <= maxFlows.value)
      && DistinctKeys(flows) && ByActivity(flows, seen)
      && DistinctStates(flows + retired)
      && Generations(flows + retired, trackFlowGenerations, nextFlowGeneration)
      && created == |flows| + |retired| && (trackFlowGenerations ==> nextFlowGeneration == created)
      && |closed| == |retired| && forall i :: 0 <= i < |closed| ==> closed[i] == retired[i].flow
    }

    ghost predicate Books()
      reads this, flows, retired
    {
      && Roster()
      && (forall i :: 0 <= i < |flows| ==> Owned(flows[i]))
      && (forall i :: 0 <= i < |retired| ==> Drained(retired[i]))
      && tcpGapResets == ResetsMade(flows) + ResetsMade(retired)
    }

    constructor (serverPorts: set<nat>, maxFlows: Option<nat>, idleTimeout: Option<real>, trackFlowGenerations: bool,
                 limits: Limits, deferGapTimeouts: bool, canAnchorAtStart: Option<Bytes -> bool>)
      requires Acceptable(maxFlows, idleTimeout, limits)
      ensures Valid() && flows == [] && retired == [] && closed == [] && seen == [] && evictions == 0
      ensures this.serverPorts == serverPorts && this.maxFlows == maxFlows && this.idleTimeout == idleTimeout
      ensures this.trackFlowGenerations == trackFlowGenerations
    {
      this.serverPorts, this.maxFlows, this.idleTimeout := serverPorts, maxFlows, idleTimeout;
      this.trackFlowGenerations, this.limits, this.deferGapTimeouts := trackFlowGenerations, limits, deferGapTimeouts;
      this.canAnchorAtStart := canAnchorAtStart;
      flows, nextFlowGeneration, tcpGapResets, evictions, closed := [], 0, 0, 0, [];
      created, retired, seen := 0, [], [];
    }

    /** A manager, or nothing for the configurations that are refused. */
    static method Create(serverPorts: set<nat>, maxFlows: Option<nat>, idleTimeout: Option<real>,
        trackFlowGenerations: bool,
                         limits: Limits, deferGapTimeouts: bool, canAnchorAtStart: Option<Bytes -> bool>)
      returns (m: FlowManager?)
      ensures m != null <==> (maxFlows.Some? ==> maxFlows.value > 0) && (idleTimeout.Some? ==> idleTimeout.value > 0.0)
                             && limits.segments > 0 && (limits.bytes.Some? ==> limits.bytes.value > 0)
      ensures m != null ==> fresh(m) && m.Valid() && m.flows == [] && m.closed == [] && m.maxFlows == maxFlows
    {
      if !Acceptable(maxFlows, idleTimeout, limits) {
        return null;
      }
      m := new FlowManager(serverPorts, maxFlows, idleTimeout, trackFlowGenerations, limits, deferGapTimeouts,
          canAnchorAtStart);
    }

    /** Close an active flow: finish its state, then notify. */
    method Retire(at: nat)
      requires Books() && at < |flows|
      modifies this`flows, this`tcpGapResets, this`closed, this`retired, flows[at]
      ensures Books()
      ensures flows == Without(old(flows), at) && retired == old(retired) + [old(flows)[at]]
      ensures closed == old(closed) + [old(flows)[at].flow] && tcpGapResets >= old(tcpGapResets)
      ensures old(flows)[at].lastActivityAt == old(flows[at].lastActivityAt)
      ensures old(flows[at].FinIsReassembled()) ==> old(flows)[at].FinIsReassembled()
      ensures Survives(old(flows)[at])
    {
      hide Owned, Drained, ResetsMade, DistinctStates, Generations, DistinctKeys, ByActivity, Resets, Located,
          Without, Outlives, AccountOf;
      hide TcpFlowState.FinIsReassembled;
      var s := flows[at];
      ResetsWithout(flows, at);
      ClosingKeepsOrder(at);
      AfterClosing(flows, retired, at, trackFlowGenerations, nextFlowGeneration);
      Apart(at);
      flows := Without(flows, at);
      var before := |s.gapResets|;
      OwnedReports(s);
      Close(s);
      OwnedReports(s);
      tcpGapResets := tcpGapResets + (|s.gapResets| - before);
      closed, retired := closed + [s.flow], retired + [s];
      ResetsSplit(old(retired), [s]);
      ResetsOfOne(s);
    }

    lemma ClosingKeepsOrder(at: nat)
      requires at < |flows| && DistinctKeys(flows) && ByActivity(flows, seen)
      ensures DistinctKeys(Without(flows, at)) && ByActivity(Without(flows, at), seen)
    {
    }

    lemma Apart(at: nat)
      requires at < |flows| && DistinctStates(flows + retired)
      ensures flows[at] !in Without(flows, at) && flows[at] !in retired
    {
      var all := flows + retired;
      forall i | 0 <= i < |flows| && i != at ensures flows[i] != flows[at] {
        assert all[i] == flows[i] && all[at] == flows[at];
      }
      forall i | 0 <= i < |retired| ensures retired[i] != flows[at] {
        assert all[|flows| + i] == retired[i] && all[at] == flows[at];
      }
    }

    /** Open a state for a key that has none. */
    method Open(key: FlowKey, ghost stream: Stream) returns (s: TcpFlowState)
      requires Books() && (maxFlows.Some? ==> |flows| < maxFlows.value)
      requires forall i :: 0 <= i < |flows| ==> flows[i].flow != key
      modifies this`flows, this`nextFlowGeneration, this`created, this`seen
      ensures Books() && fresh(s) && s.flow == key && s.stream == stream
      ensures flows == old(flows) + [s] && seen == old(seen) + [key] && created == old(created) + 1
      ensures s.nextSequence.None? && s.unanchored == map[] && s.calls == [] && s.finSequence.None? && s.coherent
      ensures trackFlowGenerations ==> s.generation == created
    {
      hide Owned, Drained, ResetsMade, DistinctStates, Generations, DistinctKeys, ByActivity,
          TcpFlowState.Valid;
      var generation := 0;
      if trackFlowGenerations {
        nextFlowGeneration := nextFlowGeneration + 1;
        generation := nextFlowGeneration;
      }
      s := new TcpFlowState(key, generation, limits, deferGapTimeouts, canAnchorAtStart, stream);
      AfterOpening(flows, retired, s, trackFlowGenerations, old(nextFlowGeneration));
      OpeningKeepsOrder(s);
      ResetsSplit(flows, [s]);
      ResetsOfOne(s);
      flows, seen, created := flows + [s], seen + [key], created + 1;
      OwnedAtFirst(s);
    }

    lemma OpeningKeepsOrder(s: TcpFlowState)
      requires DistinctKeys(flows) && ByActivity(flows, seen)
      requires forall i :: 0 <= i < |flows| ==> flows[i].flow != s.flow
      ensures DistinctKeys(flows + [s]) && ByActivity(flows + [s], seen + [s.flow])
    {
      forall i | 0 <= i <= |flows| {
        SeenNow(seen, s.flow, (flows + [s])[i].flow);
      }
    }

    /** A packet on an active flow makes it the most recently active one. */
    method Touch(at: nat)
      requires Books() && at < |flows|
      modifies this`flows, this`seen
      ensures Books()
      ensures flows == Without(old(flows), at) + [old(flows)[at]] && seen == old(seen) + [old(flows)[at].flow]
    {
      hide Owned, Drained, ResetsMade, DistinctStates, Generations, DistinctKeys, ByActivity;
      var s := flows[at];
      AfterTouching(flows, retired, at, trackFlowGenerations, nextFlowGeneration);
      TouchingKeepsOrder(at);
      ResetsWithout(flows, at);
      ResetsSplit(Without(flows, at), [s]);
      ResetsOfOne(s);
      flows, seen := Without(flows, at) + [s], seen + [s.flow];
    }

    lemma TouchingKeepsOrder(at: nat)
      requires at < |flows| && DistinctKeys(flows) && ByActivity(flows, seen)
      ensures var moved := Without(flows, at) + [flows[at]];
              DistinctKeys(moved) && ByActivity(moved, seen + [flows[at].flow])
    {
      var moved := Without(flows, at) + [flows[at]];
      var key := flows[at].flow;
      forall i | 0 <= i < |moved|
        ensures LastSeen(seen + [key], moved[i].flow) ==
                if i == |flows| - 1 then |seen| else LastSeen(seen, moved[i].flow)
      {
        SeenNow(seen, flows[at].flow, moved[i].flow);
      }
    }

    /** The newest flow takes a packet. */
    method AdmitLast(p: Packet, ghost at: int)
      requires Books() && flows != [] && flows[|flows| - 1].flow == p.flow
      requires var s := flows[|flows| - 1]; p.syn ==> s.nextSequence.None? && s.unanchored == map[] && s.calls == []
      modifies this`tcpGapResets, flows[|flows| - 1]
      ensures Books()
      ensures var s := flows[|flows| - 1];
              && s.lastActivityAt == Some(p.timestamp) && s.Rules() == old(s.Rules())
              && if p.syn then Synchronized(s, p) && (old(s.coherent) && Genuine(s.stream, p, at) ==> HasJust(s, p, at))
                 else Admitted(s, p) && Absorbs(s, p, at)
    {
      hide Owned, Drained, ResetsMade, DistinctStates, Generations, DistinctKeys, ByActivity, Synchronized,
          Admitted, Absorbs, HasJust, Genuine;
      var last := |flows| - 1;
      var s := flows[last];
      ResetsWithout(flows, last);
      Apart(last);
      var before := |s.gapResets|;
      OwnedReports(s);
      Admit(s, p, at);
      OwnedReports(s);
      tcpGapResets := tcpGapResets + (|s.gapResets| - before);
      ResetsWithout(flows, last);
    }

    /** Advance one flow's timers. */
    method ServiceFlow(at: nat, now: real)
      requires Books() && at < |flows|
      modifies this`tcpGapResets, flows[at]
      ensures Books() && UpToDate(flows[at], now)
      ensures tcpGapResets >= old(tcpGapResets) && flows[at].lastActivityAt == old(flows[at].lastActivityAt)
      ensures Survives(flows[at])
    {
      hide Owned, Drained, ResetsMade, DistinctStates, Generations, DistinctKeys, ByActivity, UpToDate, Outlives,
          AccountOf;
      var s := flows[at];
      ResetsWithout(flows, at);
      Apart(at);
      var before := |s.gapResets|;
      OwnedReports(s);
      Service(s, now);
      OwnedReports(s);
      tcpGapResets := tcpGapResets + (|s.gapResets| - before);
      ResetsWithout(flows, at);
    }

    predicate Full()
      reads this`flows
    {
      maxFlows.Some? && |flows| >= maxFlows.value
    }

    /** The flows a packet leaves alone: all but its own, and but the least recently active one if a
        slot is needed. */
    ghost function Others(key: FlowKey): (rest: seq<TcpFlowState>)
      requires Roster()
      reads this
    {
      var at := KeyAt(flows, key);
      if at.Some? then Without(flows, at.value) else if Full() then Without(flows, 0) else flows
    }

    /** Whom a packet closes before it is looked at: the least recently active flow if a slot is
        needed, and the previous connection if it is a SYN. */
    ghost function Displaced(p: Packet): seq<TcpFlowState>
      requires Roster()
      reads this
    {
      var at := KeyAt(flows, p.flow);
      if at.None? then (if Full() then [flows[0]] else [])
      else if p.syn then [flows[at.value]] else []
    }

    /** A flow without a state, or a new connection on a known one: make room, open, take the packet. */
    method Begin(p: Packet, ghost stream: Stream, ghost where: int)
      requires Books() && (p.syn || (KeyAt(flows, p.flow).None? && p.payload != []))
      modifies this, flows
      ensures Books() && |flows| == |old(Others(p.flow))| + 1 && flows == old(Others(p.flow)) + [flows[|flows| - 1]]
      ensures var s := flows[|flows| - 1];
              && fresh(s) && s.flow == p.flow && s.stream == stream && s.finSequence.None?
              && s.lastActivityAt == Some(p.timestamp) && Begun(s, p)
              && (Genuine(stream, p, where) ==> HasJust(s, p, where))
      ensures retired == old(retired) + old(Displaced(p)) && seen == old(seen) + [p.flow]
      ensures evictions == old(evictions) + (if old(KeyAt(flows, p.flow).None? && Full()) then 1 else 0)
      ensures forall i :: 0 <= i < |flows| - 1 ==> flows[i].flow != p.flow
      ensures Same(old(Others(p.flow))) && AllSurvive(old(Displaced(p)))
    {
      hide Owned, Drained, ResetsMade, DistinctStates, Generations, ByActivity, Synchronized,
          TcpFlowState.Routed, Absorbs, HasJust, Genuine, Outlives, AccountOf;
      MakeRoom(p);
      var s := Open(p.flow, stream);
      label before:
      AdmitLast(p, where);
      if !p.syn && Genuine(stream, p, where) {
        AbsorbsFirst@before(s, p, where);
      }
    }

    /** Evict the least recently active flow if the packet needs its slot; close the previous
        connection if the packet begins a new one on the same key. */
    method MakeRoom(p: Packet)
      requires Books() && (p.syn || KeyAt(flows, p.flow).None?)
      modifies this, flows
      ensures Books() && flows == old(Others(p.flow)) && retired == old(retired) + old(Displaced(p))
      ensures seen == old(seen)
      ensures (maxFlows.Some? ==> |flows| < maxFlows.value) && forall i :: 0 <= i < |flows| ==> flows[i].flow != p.flow
      ensures evictions == old(evictions) + (if old(KeyAt(flows, p.flow).None? && Full()) then 1 else 0)
      ensures Same(old(Others(p.flow))) && AllSurvive(old(Displaced(p)))
    {
      hide Owned, Drained, ResetsMade, DistinctStates, Generations, ByActivity, Outlives, AccountOf;
      var at := KeyAt(flows, p.flow);
      if at.Some? {
        Apart(at.value);
        Retire(at.value);
      } else if Full() {
        evictions := evictions + 1;
        Apart(0);
        Retire(0);
      }
    }

    /** A known flow takes a packet and becomes the most recently active one. */
    method Continue(p: Packet, at: nat, ghost where: int)
      requires Books() && KeyAt(flows, p.flow) == Some(at) && !p.syn
      modifies this`flows, this`seen, this`tcpGapResets, flows[at]
      ensures Books() && flows == old(Others(p.flow)) + [old(flows)[at]] && seen == old(seen) + [p.flow]
      ensures var s := old(flows)[at];
              && Admitted(s, p) && Absorbs(s, p, where)
              && s.Rules() == old(flows[at].Rules()) && s.lastActivityAt == Some(p.timestamp)
    {
      hide Books, Synchronized, Genuine, HasJust, Without, TcpFlowState.Has, TcpFlowState.Arrives,
          TcpFlowState.ArrivesInTime, Gaps.Taken, Unwrap, Range, Keeps, Keep, CapacityExceeded,
          EarliestTimestamp;
      BooksAreDistinct();
      Touch(at);
      AdmitLast(p, where);
    }

    /** Close the newest flow after RST, or once every byte up to FIN is contiguous; otherwise
        remember a FIN. */
    method Conclude(p: Packet)
      requires Books() && flows != [] && flows[|flows| - 1].flow == p.flow
      modifies this`flows, this`tcpGapResets, this`closed, this`retired, flows[|flows| - 1]
      ensures Books() && Concluded(old(flows)[|old(flows)| - 1], p) && Saved(old(flows)[|old(flows)| - 1])
      ensures p.rst ==> flows != old(flows)
      ensures old(flows[|flows| - 1].FinIsReassembled()) ==> flows != old(flows)
    {
      hide Owned, Drained, ResetsMade, DistinctStates, Generations, DistinctKeys, ByActivity,
          TcpFlowState.FinIsReassembled, Keeps, TcpFlowState.Has;
      var last := |flows| - 1;
      var s := flows[last];
      Apart(last);
      NotComplete(s);
      if !p.rst && s.finSequence.Some? && s.FinIsReassembled() {
        Retire(last);
      } else if p.rst {
        Retire(last);
      } else if p.fin {
        ResetsWithout(flows, last);
        Mark(s, p);
        ResetsWithout(flows, last);
        if s.FinIsReassembled() {
          CompleteIsAnchored(s);
          Retire(last);
        }
      }
    }

    /** The newest flow is closed, for a reason, or stays, incomplete and with the packet's FIN. */
    twostate predicate Concluded(s: TcpFlowState, p: Packet)
      reads this, s
      requires old(flows) != []
    {
      var last := |old(flows)| - 1;
      if flows == old(flows) then
        && retired == old(retired) && closed == old(closed) && !p.rst && !s.FinIsReassembled()
        && s.calls == old(s.calls) && s.pending == old(s.pending) && s.unanchored == old(s.unanchored)
        && s.nextSequence == old(s.nextSequence) && s.anchor == old(s.anchor)
        && s.lastActivityAt == old(s.lastActivityAt)
        && (if p.fin then s.finSequence == Some(FinSequence(p)) && s.finObservedAt == Some(p.timestamp)
            else unchanged(s))
      else
        flows == old(flows)[..last] && retired == old(retired) + [s] && (p.rst || s.FinIsReassembled())
    }

    /** No active flow has every byte up to its FIN. */
    ghost predicate NoneComplete()
      reads this, flows
    {
      forall i :: 0 <= i < |flows| ==> !flows[i].FinIsReassembled()
    }

    ghost predicate Valid()
      reads this, flows, retired
    {
      Books() && NoneComplete()
    }

    /** The packet's own flow is closed after it, or is the most recently active one. */
    twostate predicate Settled(p: Packet)
      requires old(Roster())
      reads this, flows, retired
    {
      var rest, before := old(Others(p.flow)), old(retired) + old(Displaced(p));
      if |flows| == |rest| then
        && flows == rest && |retired| == |before| + 1 && before == retired[..|before|]
        && retired[|before|].flow == p.flow && (p.rst || retired[|before|].FinIsReassembled())
      else
        && |flows| == |rest| + 1 && rest == flows[..|rest|] && retired == before && !p.rst
        && var s := flows[|rest|];
        && s.flow == p.flow && s.lastActivityAt == Some(p.timestamp)
        && (p.fin ==> s.finSequence == Some(FinSequence(p)))
    }

    /** The state of a known flow, still active or just closed, took the packet: its payload went where it
        belongs, and the flow has what it had and what the payload adds. */
    twostate predicate Carried(p: Packet, s: TcpFlowState, at: int)
      reads this, s
    {
      && s.flow == p.flow && (s in flows || s in retired)
      && Placed(s, p) && Absorbs(s, p, at)
      && (s in flows && !p.fin ==> Admitted(s, p))
    }

    method RouteKnown(p: Packet, at: nat, ghost where: int)
      requires Valid() && KeyAt(flows, p.flow) == Some(at) && !p.syn
      modifies this, flows
      ensures Valid() && Settled(p) && Carried(p, old(flows)[at], where) && Same(old(Others(p.flow)))
      ensures seen == old(seen) + [p.flow] && evictions == old(evictions)
    {
      hide Books, Roster, Owned, Drained, ResetsMade, DistinctKeys, ByActivity, Generations, DistinctStates,
          TcpFlowState.FinIsReassembled, TcpFlowState.Has, TcpFlowState.Arrives, TcpFlowState.ArrivesInTime,
          Keeps, HasOn, HeldWith, EarliestWith, Range, Unwrap, Admitted, Settled, Carried,
          Displaced, Full;
      BooksAreDistinct();
      Apart(at);
      ghost var s := flows[at];
      Continue(p, at, where);
      SameIsComplete(old(Others(p.flow)));
      AdmittedIsPlaced(s, p);
      AdmittedIsHeld(s, p);
      AccountHas(s);
      Conclude(p);
      AccountHas(s);
      CarriesAndSettles(p, at, s, where);
    }

    /** The state of the packet's flow is the last active one, or the last closed one. */
    twostate lemma CarriesAndSettles(new p: Packet, new at: nat, new s: TcpFlowState, new where: int)
      requires old(Roster()) && !p.syn && old(KeyAt(flows, p.flow)) == Some(at) && s == old(flows)[at]
      requires Placed(s, p) && Absorbs(s, p, where)
      requires var rest := old(Others(p.flow));
               || (flows == rest && retired == old(retired) + [s] && (p.rst || s.FinIsReassembled()))
               || (flows == rest + [s] && retired == old(retired) && !p.rst && s.lastActivityAt == Some(p.timestamp)
                   && if p.fin then s.finSequence == Some(FinSequence(p)) else Admitted(s, p))
      ensures Settled(p) && Carried(p, s, where)
    {
      hide Placed, Absorbs, Admitted, TcpFlowState.FinIsReassembled, ByActivity, Generations, DistinctStates;
      assert s !in old(Others(p.flow)) by {
        assert forall i, j :: 0 <= i < j < |old(flows)| ==> old(flows)[i].flow != old(flows)[j].flow;
      }
    }

    /** The flow begun by the packet, active or closed at once, has a new state, which took the packet and
        has just its payload. */
    twostate predicate Entered(p: Packet, stream: Stream, at: int)
      reads this, flows, retired
    {
      var active := flows != [] && flows[|flows| - 1].flow == p.flow;
      (active || retired != []) &&
      var s := if active then flows[|flows| - 1] else retired[|retired| - 1];
      && s.flow == p.flow && s !in old(flows) && s !in old(retired) && s.stream == stream
      && (Genuine(stream, p, at) ==> HasJust(s, p, at))
      && (p.syn ==> FirstFed(s, p)) && (active ==> Begun(s, p))
    }

    method RouteNew(p: Packet, ghost stream: Stream, ghost where: int)
      requires Valid() && (p.syn || (KeyAt(flows, p.flow).None? && p.payload != []))
      modifies this, flows
      ensures Valid() && Settled(p) && Entered(p, stream, where)
      ensures Same(old(Others(p.flow))) && AllSurvive(old(Displaced(p)))
      ensures seen == old(seen) + [p.flow]
      ensures evictions == old(evictions) + (if old(KeyAt(flows, p.flow).None? && Full()) then 1 else 0)
    {
      hide Books, Roster, Owned, Drained, ResetsMade, DistinctKeys, ByActivity, Generations, DistinctStates,
          TcpFlowState.FinIsReassembled, Genuine, HasJust, FirstFed, Saved, Begun, Settled, Entered, Displaced,
          Full, AllOutlive, Accounts, Outlives, Survives, Concluded, NoneComplete, Others, KeyAt, Without;
      BooksAreDistinct();
      Begin(p, stream, where);
      ghost var s, rest := flows[|flows| - 1], old(Others(p.flow));
      assert flows == rest + [s] && flows[..|rest|] == rest;
      BooksAreDistinct();
      Apart(|flows| - 1);
      ghost var displaced := old(Displaced(p));
      ghost var saved := Accounts(displaced);
      ConcludeBegun(p, where);
      assert Accounts(displaced) == saved;
      EntersAndSettles(p, s, where);
      assert flows[..|rest|] == rest;
      StaysIncomplete(p);
    }

    /** Nobody else has reached FIN by it. */
    twostate lemma StaysIncomplete(new p: Packet)
      requires old(Roster()) && old(NoneComplete()) && Same(old(Others(p.flow))) && |old(Others(p.flow))| <= |flows|
      requires flows[..|old(Others(p.flow))|] == old(Others(p.flow))
      requires forall i :: |old(Others(p.flow))| <= i < |flows| ==> !flows[i].FinIsReassembled()
      ensures NoneComplete()
    {
      hide ByActivity, Generations, DistinctStates, DistinctKeys, TcpFlowState.FinIsReassembled;
      SameIsComplete(old(Others(p.flow)));
      var rest := old(Others(p.flow));
      forall i | 0 <= i < |rest| ensures !flows[i].FinIsReassembled() {
        assert flows[..|rest|][i] == flows[i];
      }
    }

    /** The new flow is closed, for a reason, or stays, with what it has. */
    method ConcludeBegun(p: Packet, ghost at: int)
      requires Books() && flows != [] && flows[|flows| - 1].flow == p.flow
      requires var s := flows[|flows| - 1];
               && s.finSequence.None? && s.lastActivityAt == Some(p.timestamp) && Begun(s, p)
               && (Genuine(s.stream, p, at) ==> HasJust(s, p, at))
      modifies this`flows, this`tcpGapResets, this`closed, this`retired, flows[|flows| - 1]
      ensures Books()
      ensures var s := old(flows)[|old(flows)| - 1];
              && (Genuine(s.stream, p, at) ==> HasJust(s, p, at)) && (p.syn ==> FirstFed(s, p))
              && if flows == old(flows)
                 then && retired == old(retired) && !p.rst && !s.FinIsReassembled()
                      && s.lastActivityAt == Some(p.timestamp) && Begun(s, p)
                      && (p.fin ==> s.finSequence == Some(FinSequence(p)))
                 else && flows == old(flows)[..|old(flows)| - 1] && retired == old(retired) + [s]
                      && (p.rst || s.FinIsReassembled())
    {
      hide Books, TcpFlowState.FinIsReassembled, Genuine, HasJust, FirstFed, Saved, Begun;
      ghost var s := flows[|flows| - 1];
      BegunFeedsFirst(s, p);
      BooksAreDistinct();
      Apart(|flows| - 1);
      label begun:
      Conclude(p);
      SavedHasJust@begun(s, p, at);
      BegunStays@begun(s, p);
    }

    /** The new state is the last active one, or the last closed one. */
    twostate lemma EntersAndSettles(new p: Packet, new s: TcpFlowState, new at: int)
      requires old(Roster()) && s.flow == p.flow && s !in old(flows) && s !in old(retired)
      requires forall i :: 0 <= i < |old(Others(p.flow))| ==> old(Others(p.flow))[i].flow != p.flow
      requires (Genuine(s.stream, p, at) ==> HasJust(s, p, at)) && (p.syn ==> FirstFed(s, p))
      requires var rest, before := old(Others(p.flow)), old(retired) + old(Displaced(p));
               || (flows == rest && retired == before + [s] && (p.rst || s.FinIsReassembled()))
               || (flows == rest + [s] && retired == before && !p.rst && s.lastActivityAt == Some(p.timestamp)
                   && (p.fin ==> s.finSequence == Some(FinSequence(p))) && Begun(s, p))
      ensures Settled(p) && Entered(p, s.stream, at)
    {
      hide Genuine, HasJust, FirstFed, Begun, TcpFlowState.FinIsReassembled;
    }

    /** What became of the flow of a packet that was looked at: still active it is the most recent one,
        has not been reset, misses bytes before its FIN and remembers the packet's; otherwise it was
        closed just now, after RST or with every byte up to FIN. */
    twostate predicate Answered(p: Packet)
      reads this, flows, retired
    {
      if exists i :: 0 <= i < |flows| && flows[i].flow == p.flow then
        var s := flows[|flows| - 1];
        && s.flow == p.flow && s.lastActivityAt == Some(p.timestamp) && !p.rst && !ReachedFin(s)
        && (p.fin ==> s.finSequence == Some((p.sequence + (if p.syn then 1 else 0) + |p.payload|) % 0x1_0000_0000))
      else
        && |retired| > |old(retired)| && |closed| == |retired| && closed[|closed| - 1] == p.flow
        && retired[|retired| - 1].flow == p.flow && (p.rst || ReachedFin(retired[|retired| - 1]))
    }

    /** Whom a packet that is looked at makes room by: the first of the active flows if all slots are
        taken and its key has none, the flow of its key if it begins a new connection. No other flow but
        its own is touched. */
    twostate predicate RoomMade(p: Packet)
      reads this, flows
    {
      var known := exists i :: 0 <= i < |old(flows)| && old(flows)[i].flow == p.flow;
      var full := !known && maxFlows.Some? && |old(flows)| >= maxFlows.value;
      && evictions == old(evictions) + (if full then 1 else 0)
      && (forall i :: 0 <= i < |old(flows)| && old(flows)[i].flow != p.flow ==>
            if full && i == 0 then |retired| > |old(retired)| && retired[|old(retired)|] == old(flows)[i]
            else old(flows)[i] in flows && unchanged(old(flows)[i]))
      && (p.syn && known ==> |retired| > |old(retired)| && retired[|old(retired)|] in old(flows)
                             && retired[|old(retired)|].flow == p.flow)
    }

    twostate lemma SettledAnswers(new p: Packet)
      requires old(Roster()) && Roster() && NoneComplete() && Settled(p)
      requires p.syn || old(KeyAt(flows, p.flow)).None? || old(Displaced(p)) == []
      ensures Answered(p)
    {
      hide ByActivity, Generations, DistinctStates, Unwrap;
    }

    /** Only the flow found has its key. */
    twostate lemma OtherKeys(new p: Packet, new at: Option<nat>)
      requires old(Roster()) && at == old(KeyAt(flows, p.flow))
      ensures forall i :: 0 <= i < |old(flows)| ==> (old(flows)[i].flow == p.flow <==> at == Some(i))
    {
      hide ByActivity, Generations, DistinctStates;
    }

    /** Every flow the packet leaves alone is still active and untouched. */
    twostate lemma OthersStay(new p: Packet, new gone: nat)
      requires old(Roster()) && Settled(p) && Same(old(Others(p.flow)))
      requires var at := old(KeyAt(flows, p.flow));
               gone == if at.Some? then at.value else if old(Full()) then 0 else |old(flows)|
      ensures forall i :: 0 <= i < |old(flows)| && i != gone ==>
                old(flows)[i] in flows && unchanged(old(flows)[i])
    {
      hide Roster, TcpFlowState.FinIsReassembled, Displaced;
      var rest := old(Others(p.flow));
      forall i | 0 <= i < |old(flows)| && i != gone ensures old(flows)[i] in flows && unchanged(old(flows)[i]) {
        var j := if i < gone then i else i - 1;
        assert rest[j] == old(flows)[i];
        assert flows[j] == rest[j] by {
          assert flows[..|rest|] == rest;
        }
      }
    }

    /** Whoever gave way was closed first. */
    twostate lemma DisplacedAreClosed(new p: Packet)
      requires old(Roster()) && Settled(p)
      ensures old(Displaced(p)) != [] ==>
                |retired| > |old(retired)| && retired[|old(retired)|] == old(Displaced(p))[0]
    {
      hide Roster, Others, KeyAt, Displaced, TcpFlowState.FinIsReassembled;
      var before := old(retired) + old(Displaced(p));
      if old(Displaced(p)) != [] {
        assert before[|old(retired)|] == old(Displaced(p))[0];
        assert before == retired[..|before|];
      }
    }

    twostate lemma SettledMakesRoom(new p: Packet)
      requires old(Roster()) && Settled(p) && Same(old(Others(p.flow)))
      requires evictions == old(evictions) + (if old(KeyAt(flows, p.flow).None? && Full()) then 1 else 0)
      ensures RoomMade(p)
    {
      hide Roster, TcpFlowState.FinIsReassembled, Same, Settled, Others, KeyAt;
      var at := old(KeyAt(flows, p.flow));
      OtherKeys(p, at);
      DisplacedAreClosed(p);
      OthersStay(p, if at.Some? then at.value else if old(Full()) then 0 else |old(flows)|);
    }

    /** One observed segment. `stream` is what the peer sends on a connection begun by it, `where` the
        payload's position in its stream. */
    method ProcessPacket(p: Packet, ghost stream: Stream, ghost where: int)
      requires Valid()
      modifies this, flows
      ensures Valid()
      ensures p.flow.sourcePort !in serverPorts
              || (p.payload == [] && !p.syn && forall i :: 0 <= i < |old(flows)| ==> old(flows)[i].flow != p.flow) ==>
                unchanged(this) && Same(flows)
      ensures p.flow.sourcePort in serverPorts
              && (p.payload != [] || p.syn || exists i :: 0 <= i < |old(flows)| && old(flows)[i].flow == p.flow) ==>
                && seen == old(seen) + [p.flow] && Answered(p) && RoomMade(p)
                && Settled(p) && Same(old(Others(p.flow))) && AllSurvive(old(Displaced(p)))
                && if (exists i :: 0 <= i < |old(flows)| && old(flows)[i].flow == p.flow) && !p.syn
                   then Carried(p, old(flows[KeyAt(flows, p.flow).value]), where) else Entered(p, stream, where)
    {
      hide Owned, Drained, ResetsMade, Roster, Books, NoneComplete, TcpFlowState.FinIsReassembled, Carried,
          Begun, Settled, Same, Entered, Answered, RoomMade;
      BooksAreDistinct();
      if p.flow.sourcePort !in serverPorts {
        NothingChanged();
        return;
      }
      var at := KeyAt(flows, p.flow);
      if at.None? && p.payload == [] && !p.syn {
        NothingChanged();
        return;
      }
      if at.None? || p.syn {
        RouteNew(p, stream, where);
      } else {
        RouteKnown(p, at.value, where);
      }
      BooksAreDistinct();
      SettledAnswers(p);
      SettledMakesRoom(p);
    }

    twostate lemma NothingChanged()
      requires unchanged(this) && forall i :: 0 <= i < |flows| ==> unchanged(flows[i])
      ensures Same(flows)
    {
    }

    /** Exactly the flows with these keys have been closed since, in this order; the rest are as they
        were. A flow that had reached its FIN still has, and no clock has moved. */
    twostate predicate Dropped(keys: seq<FlowKey>)
      reads this, flows, retired
    {
      DroppedFrom(retired, keys) && Remaining(flows, keys) && NoneLost(flows, keys)
    }

    twostate predicate DroppedFrom(new closing: seq<TcpFlowState>, new keys: seq<FlowKey>)
      reads closing
    {
      var n := |old(retired)|;
      && |closing| == n + |keys| && closing[..n] == old(retired)
      && forall i :: 0 <= i < |keys| ==> Left(closing[n + i], keys[i])
    }

    twostate predicate Remaining(new active: seq<TcpFlowState>, new keys: seq<FlowKey>)
      reads active
    {
      forall s :: s in active ==> s in old(flows) && s.flow !in keys && unchanged(s)
    }

    twostate predicate NoneLost(new active: seq<TcpFlowState>, new keys: seq<FlowKey>)
    {
      forall s :: s in old(flows) ==> s in active || s.flow in keys
    }

    twostate predicate Left(new s: TcpFlowState, new key: FlowKey)
      reads s
    {
      && s in old(flows) && s.flow == key && s.lastActivityAt == old(s.lastActivityAt)
      && (old(s.FinIsReassembled()) ==> s.FinIsReassembled()) && Survives(s)
    }

    twostate lemma RemainedSame(new keys: seq<FlowKey>, at: nat)
      requires at < |flows| && Remaining(flows, keys)
      ensures var s := flows[at];
              && s in old(flows) && s.lastActivityAt == old(s.lastActivityAt)
              && s.FinIsReassembled() == old(s.FinIsReassembled()) && AccountOf(s) == old(AccountOf(s))
    {
    }

    twostate lemma LeavesNow(new s: TcpFlowState)
      requires s in old(flows) && s.lastActivityAt == old(s.lastActivityAt)
      requires (old(s.FinIsReassembled()) ==> s.FinIsReassembled()) && Survives(s)
      ensures Left(s, s.flow)
    {
      hide TcpFlowState.FinIsReassembled, Survives;
    }

    twostate lemma DropsNoMore(new keys: seq<FlowKey>, at: nat)
      requires at < |flows| && DistinctKeys(flows) && Remaining(flows, keys) && NoneLost(flows, keys)
      ensures Remaining(Without(flows, at), keys + [flows[at].flow])
      ensures NoneLost(Without(flows, at), keys + [flows[at].flow])
    {
      var left, s := Without(flows, at), flows[at];
      forall t | t in flows && t != s ensures t in left {
        var i :| 0 <= i < |flows| && flows[i] == t;
        assert left[if i < at then i else i - 1] == t;
      }
      forall t | t in left ensures t in flows && t.flow != s.flow {
        var i :| 0 <= i < |left| && left[i] == t;
      }
    }

    twostate lemma DropsOneMore(new closing: seq<TcpFlowState>, new keys: seq<FlowKey>, new s: TcpFlowState)
      requires DroppedFrom(closing, keys) && Left(s, s.flow)
      ensures DroppedFrom(closing + [s], keys + [s.flow])
    {
      hide Left;
      var n, grown := |old(retired)|, closing + [s];
      forall i | 0 <= i < |keys| ensures Left(grown[n + i], (keys + [s.flow])[i]) {
        assert grown[n + i] == closing[n + i];
      }
    }

    lemma DistinctAt(at: nat)
      requires at < |flows| && DistinctKeys(flows)
      ensures forall i :: 0 <= i < |flows| && i != at ==> flows[i].flow != flows[at].flow
    {
    }

    /** Close the flows with these keys. */
    method RetireAll(keys: seq<FlowKey>)
      requires Books()
      requires forall i, j :: 0 <= i < j < |keys| ==> keys[i] != keys[j]
      requires forall i :: 0 <= i < |keys| ==> KeyAt(flows, keys[i]).Some?
      modifies this`flows, this`tcpGapResets, this`closed, this`retired, flows
      ensures Books() && Dropped(keys) && tcpGapResets >= old(tcpGapResets)
    {
      hide Books, Roster, DistinctKeys, DistinctStates, TcpFlowState.FinIsReassembled, DroppedFrom, NoneLost,
          KeyAt, Without, Outlives, AccountOf, Left, Remaining;
      NothingDropped();
      var i := 0;
      while i < |keys|
        invariant 0 <= i <= |keys| && Books() && tcpGapResets >= old(tcpGapResets)
        invariant DroppedFrom(retired, keys[..i]) && Remaining(flows, keys[..i]) && NoneLost(flows, keys[..i])
        invariant forall j :: i <= j < |keys| ==> KeyAt(flows, keys[j]).Some?
      {
        var at := KeyAt(flows, keys[i]).value;
        BooksAreDistinct();
        Apart(at);
        DistinctAt(at);
        DropsNoMore(keys[..i], at);
        ghost var s, closing := flows[at], retired;
        RemainedSame(keys[..i], at);
        Retire(at);
        LeavesNow(s);
        DropsOneMore(closing, keys[..i], s);
        assert keys[..i + 1] == keys[..i] + [keys[i]];
        i := i + 1;
      }
      assert keys[..i] == keys;
    }

    twostate lemma NothingDropped()
      requires flows == old(flows) && retired == old(retired) && forall s :: s in flows ==> unchanged(s)
      ensures DroppedFrom(retired, []) && Remaining(flows, []) && NoneLost(flows, [])
    {
    }

    lemma BooksCount()
      requires Books()
      ensures tcpGapResets == ResetsMade(flows) + ResetsMade(retired)
    {
      hide Roster, Owned, Drained, ResetsMade;
    }

    lemma BooksAreDistinct()
      requires Books()
      ensures DistinctKeys(flows) && DistinctStates(flows + retired) && Roster()
    {
    }

    ghost predicate Idle(s: TcpFlowState, now: real)
      reads s
    {
      idleTimeout.Some? && s.lastActivityAt.Some? && now - s.lastActivityAt.value >= idleTimeout.value
    }

    /** Advance every flow's timers; name the flows that have now reached their FIN. */
    method ServiceEach(now: real) returns (completed: seq<FlowKey>)
      requires Books()
      modifies this`tcpGapResets, flows
      ensures Books() && tcpGapResets >= old(tcpGapResets)
      ensures forall i :: 0 <= i < |flows| ==> AfterService(flows[i], now)
      ensures KeysOf(completed, |flows|)
      ensures forall j :: 0 <= j < |flows| ==> (flows[j].flow in completed <==> flows[j].FinIsReassembled())
      ensures AllSurvive(flows)
    {
      hide Books, Roster, DistinctStates, TcpFlowState.FinIsReassembled, UpToDate, DistinctKeys, Outlives,
          AccountOf, AllSurvive;
      completed := [];
      var i := 0;
      while i < |flows|
        invariant 0 <= i <= |flows| && Books() && tcpGapResets >= old(tcpGapResets)
        invariant forall j :: 0 <= j < i ==> AfterService(flows[j], now)
        invariant forall j :: i <= j < |flows| ==> unchanged(flows[j])
        invariant KeysOf(completed, i)
        invariant forall j :: 0 <= j < i ==> (flows[j].flow in completed <==> flows[j].FinIsReassembled())
      {
        BooksAreDistinct();
        Apart(i);
        DistinctAt(i);
        ServiceFlow(i, now);
        if flows[i].FinIsReassembled() {
          completed := completed + [flows[i].flow];
        }
        i := i + 1;
      }
      SurvivingAll(flows);
    }

    /** Different keys, each of one of the first `n` flows. */
    ghost predicate KeysOf(keys: seq<FlowKey>, n: nat)
      reads this`flows
      requires n <= |flows|
    {
      && (forall i, j :: 0 <= i < j < |keys| ==> keys[i] != keys[j])
      && forall i :: 0 <= i < |keys| ==> exists j :: 0 <= j < n && flows[j].flow == keys[i]
    }

    twostate predicate AfterService(s: TcpFlowState, now: real)
      reads s
    {
      UpToDate(s, now) && s.lastActivityAt == old(s.lastActivityAt) && Survives(s)
    }

    /** These are the keys of the flows that have been idle too long. */
    ghost predicate ExpiredAt(keys: seq<FlowKey>, now: real)
      reads this, flows
    {
      forall i :: 0 <= i < |flows| ==> (flows[i].flow in keys <==> Idle(flows[i], now))
    }

    /** Name the flows that have been idle too long. */
    method Expired(now: real, timeout: real) returns (keys: seq<FlowKey>)
      requires Roster() && idleTimeout == Some(timeout)
      ensures KeysOf(keys, |flows|)
      ensures ExpiredAt(keys, now)
    {
      hide ByActivity, Generations, DistinctStates, DistinctKeys;
      keys := [];
      for i := 0 to |flows|
        invariant KeysOf(keys, i)
        invariant forall j :: 0 <= j < i ==> (flows[j].flow in keys <==> Idle(flows[j], now))
      {
        DistinctAt(i);
        if flows[i].lastActivityAt.Some? && now - flows[i].lastActivityAt.value >= timeout {
          keys := keys + [flows[i].flow];
        }
      }
    }

    /** Flows have only been closed since, and none lost. */
    twostate predicate OnlyClosed()
      reads this
    {
      OnlyMoved(old(flows), old(retired), flows, retired)
    }

    /** Advance all timers and close the flows that reached their FIN. */
    method ServiceAndClose(now: real)
      requires Books()
      modifies this`flows, this`tcpGapResets, this`closed, this`retired, flows
      ensures Valid() && OnlyClosed() && AllSurvive(old(flows)) && tcpGapResets >= old(tcpGapResets)
      ensures forall s :: s in flows ==> UpToDate(s, now)
      ensures forall i :: |old(retired)| <= i < |retired| ==> retired[i].FinIsReassembled()
    {
      hide Books, TcpFlowState.FinIsReassembled, UpToDate, KeysOf, Dropped, NoneComplete, AllOutlive, Accounts,
          Survives, OnlyMoved;
      ghost var all := flows;
      var completed := ServiceEach(now);
      ghost var serviced := Accounts(all);
      CloseCompleted(completed, now);
      AllOutliveFurther(old(Accounts(all)), serviced, Accounts(all));
    }

    /** All timers stand at `now`, and these are the keys of the flows that reached their FIN. */
    ghost predicate Advanced(keys: seq<FlowKey>, now: real)
      reads this, flows
    {
      forall i :: 0 <= i < |flows| ==>
        UpToDate(flows[i], now) && (flows[i].flow in keys <==> flows[i].FinIsReassembled())
    }

    method CloseCompleted(completed: seq<FlowKey>, ghost now: real)
      requires Books() && KeysOf(completed, |flows|)
      requires Advanced(completed, now)
      modifies this`flows, this`tcpGapResets, this`closed, this`retired, flows
      ensures Valid() && OnlyClosed() && AllSurvive(old(flows)) && tcpGapResets >= old(tcpGapResets)
      ensures forall s :: s in flows ==> UpToDate(s, now)
      ensures forall i :: |old(retired)| <= i < |retired| ==> retired[i].FinIsReassembled()
    {
      hide Books, TcpFlowState.FinIsReassembled, UpToDate, KeysOf, Dropped, OnlyClosed, DistinctKeys, Advanced,
          AllSurvive;
      BooksAreDistinct();
      KeysAreKnown(completed);
      RetireAll(completed);
      DroppedSurvive(completed);
      DroppedComplete(completed, now);
    }

    twostate lemma DroppedComplete(new keys: seq<FlowKey>, new now: real)
      requires Dropped(keys) && old(DistinctKeys(flows))
      requires old(Advanced(keys, now))
      ensures NoneComplete() && OnlyClosed()
      ensures forall s :: s in flows ==> UpToDate(s, now)
      ensures forall i :: |old(retired)| <= i < |retired| ==> retired[i].FinIsReassembled()
    {
      hide TcpFlowState.FinIsReassembled, UpToDate;
      DroppedOnlyCloses(keys);
      forall s | s in flows ensures UpToDate(s, now) && !s.FinIsReassembled() {
        var j :| 0 <= j < |old(flows)| && old(flows)[j] == s;
      }
      var n := |old(retired)|;
      forall i | n <= i < |retired| ensures retired[i].FinIsReassembled() {
        assert Left(retired[n + (i - n)], keys[i - n]);
        var j :| 0 <= j < |old(flows)| && old(flows)[j] == retired[i];
      }
    }

    twostate lemma DroppedOnlyCloses(keys: seq<FlowKey>)
      requires Dropped(keys) && old(DistinctKeys(flows))
      ensures OnlyClosed()
    {
      hide Survives, TcpFlowState.FinIsReassembled;
      var n := |old(retired)|;
      forall s | s in old(flows) && s !in flows ensures s in retired[n..] {
        var i :| 0 <= i < |keys| && keys[i] == s.flow;
        assert Left(retired[n + i], keys[i]) && retired[n..][i] == retired[n + i];
      }
      forall s | s in retired[n..] ensures s in old(flows) {
        var i :| 0 <= i < |retired[n..]| && retired[n..][i] == s;
        assert Left(retired[n + i], keys[i]);
      }
    }

    twostate lemma DroppedSurvive(keys: seq<FlowKey>)
      requires Dropped(keys) && old(DistinctKeys(flows))
      ensures AllSurvive(old(flows))
    {
      hide Survives, AllSurvive, TcpFlowState.FinIsReassembled;
      forall j | 0 <= j < |old(flows)| ensures Survives(old(flows)[j]) {
        var s, n := old(flows)[j], |old(retired)|;
        if s in flows {
          UnchangedSurvives(s);
        } else {
          var i :| 0 <= i < |keys| && keys[i] == s.flow;
          assert Left(retired[n + i], keys[i]);
        }
      }
      SurvivingAll(old(flows));
    }

    lemma KeysAreKnown(keys: seq<FlowKey>)
      requires KeysOf(keys, |flows|)
      ensures forall i, j :: 0 <= i < j < |keys| ==> keys[i] != keys[j]
      ensures forall i :: 0 <= i < |keys| ==> KeyAt(flows, keys[i]).Some?
    {
    }

    twostate lemma NothingClosed(new now: real)
      requires unchanged(this) && (forall i :: 0 <= i < |flows| ==> unchanged(flows[i])) && idleTimeout.None?
      ensures OnlyClosed() && AllSurvive(flows) && forall s :: s in flows ==> !Idle(s, now)
    {
      hide AllSurvive;
      SameSurvive(flows);
    }

    /** If none of the active flows lost anything, none of these did: the rest was not touched. */
    twostate lemma OthersSurvive(all: seq<TcpFlowState>)
      requires AllSurvive(old(flows))
      requires forall i :: 0 <= i < |all| ==> all[i] in old(flows) || unchanged(all[i])
      ensures AllSurvive(all)
    {
      hide Survives, AllSurvive;
      EachSurvives(old(flows));
      forall i | 0 <= i < |all| ensures Survives(all[i]) {
        if all[i] !in old(flows) {
          UnchangedSurvives(all[i]);
        }
      }
      SurvivingAll(all);
    }

    /** Close the flows that have been idle too long; neither they nor any others lose anything. */
    method CloseIdle(now: real, ghost all: seq<TcpFlowState>)
      requires Valid()
      modifies this`flows, this`tcpGapResets, this`closed, this`retired, flows
      ensures Valid() && OnlyClosed() && AllSurvive(all) && tcpGapResets >= old(tcpGapResets)
      ensures forall s :: s in flows ==> unchanged(s) && !Idle(s, now)
      ensures forall i :: |old(retired)| <= i < |retired| ==> Idle(retired[i], now)
    {
      hide Books, TcpFlowState.FinIsReassembled, KeysOf, NoneComplete, AllOutlive, Accounts, Survives;
      if idleTimeout.Some? {
        BooksAreDistinct();
        var expired := Expired(now, idleTimeout.value);
        CloseExpired(expired, now);
      } else {
        NothingClosed(now);
      }
      OthersSurvive(all);
    }

    method CloseExpired(expired: seq<FlowKey>, ghost now: real)
      requires Valid() && KeysOf(expired, |flows|) && ExpiredAt(expired, now)
      modifies this`flows, this`tcpGapResets, this`closed, this`retired, flows
      ensures Valid() && OnlyClosed() && AllSurvive(old(flows)) && tcpGapResets >= old(tcpGapResets)
      ensures forall s :: s in flows ==> unchanged(s) && !Idle(s, now)
      ensures forall i :: |old(retired)| <= i < |retired| ==> Idle(retired[i], now)
    {
      hide Books, TcpFlowState.FinIsReassembled, KeysOf, NoneComplete, Dropped, OnlyClosed, Idle, ExpiredAt,
          DistinctKeys, AllSurvive;
      BooksAreDistinct();
      KeysAreKnown(expired);
      RetireAll(expired);
      DroppedSurvive(expired);
      DroppedIdle(expired, now);
    }

    twostate lemma DroppedIdle(new keys: seq<FlowKey>, new now: real)
      requires Dropped(keys) && old(NoneComplete() && DistinctKeys(flows))
      requires old(ExpiredAt(keys, now))
      ensures NoneComplete() && OnlyClosed()
      ensures forall s :: s in flows ==> unchanged(s) && !Idle(s, now)
      ensures forall i :: |old(retired)| <= i < |retired| ==> Idle(retired[i], now)
    {
      hide TcpFlowState.FinIsReassembled;
      DroppedOnlyCloses(keys);
      forall s | s in flows ensures unchanged(s) && !Idle(s, now) && !s.FinIsReassembled() {
        var j :| 0 <= j < |old(flows)| && old(flows)[j] == s;
      }
      var n := |old(retired)|;
      forall i | n <= i < |retired| ensures Idle(retired[i], now) {
        assert Left(retired[n + (i - n)], keys[i - n]);
        var j :| 0 <= j < |old(flows)| && old(flows)[j] == retired[i];
      }
    }

    lemma ActiveMeans(now: real)
      requires NoneComplete() && forall s :: s in flows ==> UpToDate(s, now) && !Idle(s, now)
      ensures forall s :: s in flows ==>
                && UpToDate(s, now) && !ReachedFin(s)
                && (idleTimeout.Some? && s.lastActivityAt.Some? ==> now - s.lastActivityAt.value < idleTimeout.value)
    {
      hide UpToDate, Unwrap;
    }

    lemma ClosedMeans(n: nat, now: real)
      requires forall i :: n <= i < |retired| ==> retired[i].FinIsReassembled() || Idle(retired[i], now)
      ensures forall i :: n <= i < |retired| ==>
                || ReachedFin(retired[i])
                || (idleTimeout.Some? && retired[i].lastActivityAt.Some?
                    && now - retired[i].lastActivityAt.value >= idleTimeout.value)
    {
      hide Unwrap;
    }

    /** Advance the timers of all flows, then close the finished and the idle ones. Returns exactly the
        resets that all flows, those closed here included, newly reported. */
    method ServiceGaps(now: real) returns (resets: nat)
      requires Valid()
      modifies this`flows, this`tcpGapResets, this`closed, this`retired, flows
      ensures Valid() && OnlyClosed() && AllSurvive(old(flows))
      ensures resets == (ResetsMade(flows) + ResetsMade(retired)) - old(ResetsMade(flows) + ResetsMade(retired))
      ensures forall s :: s in flows ==>
                && UpToDate(s, now) && !ReachedFin(s)
                && (idleTimeout.Some? && s.lastActivityAt.Some? ==> now - s.lastActivityAt.value < idleTimeout.value)
      ensures forall i :: |old(retired)| <= i < |retired| ==>
                || ReachedFin(retired[i])
                || (idleTimeout.Some? && retired[i].lastActivityAt.Some?
                    && now - retired[i].lastActivityAt.value >= idleTimeout.value)
    {
      hide Books, ResetsMade, NoneComplete, TcpFlowState.FinIsReassembled, UpToDate, Idle, AllOutlive, Accounts,
          Survives;
      BooksCount();
      var before := tcpGapResets;
      ghost var all := flows;
      ServiceAndClose(now);
      assert forall i :: 0 <= i < |flows| ==> flows[i] in all;
      ghost var serviced, active, closing := Accounts(all), flows, retired;
      CloseIdle(now, all);
      AllOutliveFurther(old(Accounts(all)), serviced, Accounts(all));
      OnlyMovedFurther(all, active, flows, old(retired), closing, retired);
      BooksCount();
      ActiveMeans(now);
      ClosedMeans(|old(retired)|, now);
      resets := tcpGapResets - before;
    }

    /** The end of the capture: every flow is finished and closed, in order. */
    method Finish()
      requires Valid()
      modifies this`flows, this`tcpGapResets, this`closed, this`retired, flows
      ensures Valid() && flows == [] && retired == old(retired) + old(flows)
      ensures AllSurvive(old(flows))
    {
      hide Books, Outlives, AccountOf, Without, TcpFlowState.FinIsReassembled, AllSurvive, DistinctStates,
          DistinctKeys, Roster;
      while flows != []
        invariant Books() && flows == old(flows)[|old(flows)| - |flows|..] && |flows| <= |old(flows)|
        invariant retired == old(retired) + old(flows)[..|old(flows)| - |flows|]
        invariant forall i :: 0 <= i < |old(flows)| - |flows| ==> Survives(old(flows)[i])
        invariant forall i :: 0 <= i < |flows| ==> unchanged(flows[i])
        decreases |flows|
      {
        WithoutFirst(flows);
        NextIn(old(flows), |old(flows)| - |flows|);
        BooksAreDistinct();
        Apart(0);
        Retire(0);
      }
      SurvivingAll(old(flows));
    }

    /** An evicted flow is the least recently active one. */
    lemma EvictsLeastRecentlyActive(p: Packet, t: TcpFlowState)
      requires Valid() && Full() && KeyAt(flows, p.flow).None? && t in flows && t != flows[0]
      ensures Displaced(p) == [flows[0]] && t in Others(p.flow)
      ensures LastSeen(seen, flows[0].flow) < LastSeen(seen, t.flow)
    {
      hide Owned, Drained, ResetsMade, Generations, DistinctStates, NoneComplete;
      var i :| 0 <= i < |flows| && flows[i] == t;
      assert Without(flows, 0)[i - 1] == t;
    }

    /** What any state ever fed or showed its scanner names that state's own flow and, if generations
        are tracked, no other state's generation. */
    lemma CallsNameTheirState(i: nat, j: nat, m: nat, n: nat)
      requires Valid() && trackFlowGenerations
      requires var all := flows + retired;
               && i < j < |all|
               && m < |all[i].calls| && !all[i].calls[m].Reset? && n < |all[j].calls| && !all[j].calls[n].Reset?
      ensures var all := flows + retired;
              && all[i].calls[m].context.flow == all[i].flow
              && all[i].calls[m].context.flowGeneration != all[j].calls[n].context.flowGeneration
    {
      hide ResetsMade, ByActivity, DistinctStates, DistinctKeys, NoneComplete, TcpFlowState.Valid, Roster;
      var all := flows + retired;
      assert all[i].generation != all[j].generation by {
        DistinctGenerations(i, j);
      }
      all[i].CallsAreOwn(m);
      all[j].CallsAreOwn(n);
    }

    lemma DistinctGenerations(i: nat, j: nat)
      requires Books() && trackFlowGenerations && i < j < |flows + retired|
      ensures (flows + retired)[i].generation != (flows + retired)[j].generation
    {
      hide Owned, Drained, ResetsMade, ByActivity, DistinctStates, DistinctKeys;
    }
  }

  lemma OwnedAtFirst(s: TcpFlowState)
    requires s.Valid() && s.own && s.restarts == 0
    ensures Owned(s)
  {
  }

  lemma ResetsOfOne(s: TcpFlowState)
    ensures ResetsMade([s]) == Resets(s.calls)
  {
    hide Resets, Located;
    assert [s][1..] == [];
  }

  method Service(s: TcpFlowState, now: real)
    requires Owned(s)
    modifies s
    ensures Owned(s) && UpToDate(s, now) && |s.gapResets| >= |old(s.gapResets)|
    ensures s.lastActivityAt == old(s.lastActivityAt) && Survives(s)
  {
    hide TcpFlowState.Core, TcpFlowState.Waiting, TcpFlowState.WasHeld, TcpFlowState.Received,
        TcpFlowState.HeldProvisionally, TcpFlowState.Conserved, TcpFlowState.ReceivedForGood, Survives;
    hide Unwrap, CapacityExceeded, TcpFlowState.OriginOf, TcpFlowState.ShiftFor, TcpFlowState.Progressed;
    EmptyFits(s.limits);
    var resets := s.ServiceGaps(now);
    if s.nextSequence.Some? {
      s.AnchoredHoldsNothing();
    }
    ConservedSurvives(s);
  }

  lemma NotComplete(s: TcpFlowState)
    ensures s.finSequence.None? ==> !s.FinIsReassembled()
  {
  }

  method Mark(s: TcpFlowState, p: Packet)
    requires Owned(s)
    modifies s`finSequence, s`finObservedAt, s`gapStartedAt
    ensures Owned(s) && s.finSequence == Some(FinSequence(p)) && s.finObservedAt == Some(p.timestamp)
    ensures Saved(s)
  {
    hide TcpFlowState.Valid, Unwrap, Preserves;
    s.MarkFin(FinSequence(p), p.timestamp);
    OtherRules(old(AccountOf(s)), s.Rules());
  }

  /** Nothing a state has depends on FIN. */
  lemma OtherRules(a: Account, rules: Policy)
    ensures Preserves(a, a.(rules := rules))
  {
  }

  method Close(s: TcpFlowState)
    requires Owned(s)
    modifies s
    ensures Drained(s) && Owned(s) && |s.gapResets| >= |old(s.gapResets)| && s.lastActivityAt == old(s.lastActivityAt)
    ensures old(s.FinIsReassembled()) ==> s.FinIsReassembled()
    ensures Survives(s)
  {
    hide TcpFlowState.Valid, TcpFlowState.Core, TcpFlowState.Waiting, TcpFlowState.ReceivedForGood,
        TcpFlowState.Received, Survives, Unwrap, TcpFlowState.Conserved;
    s.ValidStands();
    s.Finish();
    ConservedSurvives(s);
  }
}
