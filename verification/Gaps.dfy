// How an anchored flow walks over its gaps, as a function of what it holds, its limits, FIN and the
// clock: the specification of the in-place code, and what follows from it for taking in everything
// held before the origin was known.
module Gaps {
  import opened Wire
  import opened SequenceNumbers
  import opened ReceivedSet
  import opened Holding
  import opened InitialOrder

  const GAP_RESET_SECONDS: real := 1.5

  /** What decides beside the segments: the limits, whether arrivals leave the timers alone, and FIN. */
  datatype Policy = Policy(limits: Limits, deferred: bool, fin: Option<nat>, finAt: Option<real>)

  /** Where a flow stands: what it feeds next, what it holds beyond a gap, its gap timer, and what it
      has given up. */
  datatype Standing = Standing(next: nat, held: Held, timer: Option<real>, skips: seq<Skip>)

  predicate RunOut(timer: Option<real>, now: real) {
    timer.Some? && now - timer.value >= GAP_RESET_SECONDS
  }

  ghost predicate NonEmpty(held: Held) {
    forall k :: k in held ==> |held[k].data| > 0
  }

  ghost predicate AllBeyond(held: Held, next: nat) {
    forall k :: k in held ==> next < k
  }

  ghost predicate PartOf(part: Held, held: Held) {
    forall k :: k in part ==> k in held && part[k] == held[k]
  }

  /** The earliest held segment is out; if it reaches beyond `next`, the rest of it is fed. */
  function Released(g: Standing): (h: Standing)
    requires g.held != map[]
  {
    var k := MinKey(g.held);
    var end, rest := k + |g.held[k].data|, g.(held := g.held - {k});
    if end <= g.next then rest else rest.(next := end, timer := None)
  }

  /** Everything that connects is released; a gap that is left has its timer running. */
  function Flushed(g: Standing): (h: Standing)
    ensures |h.held| <= |g.held| && h.skips == g.skips && h.next >= g.next
    decreases |g.held|
  {
    if g.held == map[] then g
    else if MinKey(g.held) > g.next then
      if g.timer.None? then g.(timer := Some(EarliestOf(g.held))) else g
    else
      Smaller(g.held, MinKey(g.held));
      Flushed(Released(g))
  }

  /** Give up on the gap before the earliest held segment and go on from there. */
  function Resumed(g: Standing, reason: Reason): (h: Standing)
    requires g.held != map[]
    ensures |h.held| < |g.held| && h.skips == g.skips + [Skip(g.next, MinKey(g.held), reason)]
  {
    var k := MinKey(g.held);
    Smaller(g.held, k);
    Flushed(Standing(k + |g.held[k].data|, g.held - {k}, None, g.skips + [Skip(g.next, k, reason)]))
  }

  /** Every gap whose time has run out at `now` is given up. */
  function TimedOut(g: Standing, now: real): (h: Standing)
    decreases |g.held|
  {
    if g.held != map[] && RunOut(g.timer, now)
    then TimedOut(Resumed(g, Timeout(now, g.timer.value)), now)
    else g
  }

  /** Gaps are given up until what is held is within the limits again. */
  function Relieved(g: Standing, limits: Limits): (h: Standing)
    decreases |g.held|
  {
    EmptyFits(limits);
    if CapacityExceeded(g.held, limits) then Relieved(Resumed(g, Capacity), limits) else g
  }

  /** Bytes are missing before FIN, and nothing is held that could tell more. */
  predicate ShortOfFin(g: Standing, policy: Policy) {
    g.held == map[] && policy.fin.Some? && g.next < Unwrap(policy.fin.value, g.next)
  }

  function FinTimed(g: Standing, policy: Policy): (h: Standing) {
    if ShortOfFin(g, policy) && g.timer.None? then g.(timer := policy.finAt) else g
  }

  /** The range before FIN is given up once nothing is held and its time has run out at `now`. */
  function FinExpired(g: Standing, policy: Policy, now: real): (h: Standing) {
    var t := FinTimed(g, policy);
    if ShortOfFin(t, policy) && RunOut(t.timer, now) then
      var fin := Unwrap(policy.fin.value, g.next);
      Standing(fin, map[], None, g.skips + [Skip(g.next, fin, FinTimeout(now, t.timer.value))])
    else t
  }

  /** Both timers at `now`. */
  function Serviced(g: Standing, policy: Policy, now: real): (h: Standing) {
    FinExpired(TimedOut(g, now), policy, now)
  }

  /** A segment beyond a gap is held: at capacity gaps are given up, otherwise the timers are seen to. */
  function HeldBack(g: Standing, position: nat, s: PendingSegment): (h: Standing) {
    g.(held := Keep(g.held, position, s), timer := if g.timer.None? then Some(s.context.timestamp) else g.timer)
  }

  function Added(g: Standing, position: nat, s: PendingSegment, policy: Policy): (h: Standing) {
    var kept := HeldBack(g, position, s);
    if CapacityExceeded(kept.held, policy.limits) then Relieved(kept, policy.limits)
    else if policy.deferred then kept
    else Serviced(kept, policy, s.context.timestamp)
  }

  /** A segment at `position` comes in. */
  function Taken(g: Standing, position: int, s: PendingSegment, policy: Policy): (h: Standing) {
    if position > g.next then Added(g, position, s, policy)
    else if position + |s.data| <= g.next then g
    else Flushed(g.(next := position + |s.data|, timer := None))
  }

  /** The first `n` items come in, each where its sequence number puts it, from `start` on. */
  function TakenAll(start: nat, items: seq<Item>, n: nat, policy: Policy): (g: Standing)
    requires n <= |items|
  {
    if n == 0 then Standing(start, map[], None, [])
    else
      var g := TakenAll(start, items, n - 1, policy);
      Taken(g, Unwrap(items[n - 1].position, g.next), items[n - 1].segment, policy)
  }

  function Committed(start: nat, items: seq<Item>, policy: Policy): (g: Standing) {
    TakenAll(start, items, |items|, policy)
  }

  // What walking over gaps does in general.

  /** On the way only skips are added, only held segments go, and what is left lies beyond `next`. */
  ghost predicate Walked(g: Standing, h: Standing) {
    && g.next <= h.next && PartOf(h.held, g.held) && g.skips <= h.skips && AllBeyond(h.held, h.next)
    && (h.held == map[] && (g.timer.None? || (g.held != map[] && AllBeyond(g.held, g.next))) ==> h.timer.None?)
  }

  lemma FlushGoesOn(g: Standing)
    requires g.held != map[] && MinKey(g.held) <= g.next
    ensures Flushed(g) == Flushed(Released(g))
  {
  }

  lemma FlushEnds(g: Standing)
    requires g.held == map[] || MinKey(g.held) > g.next
    ensures Flushed(g) == if g.held == map[] || g.timer.Some? then g else g.(timer := Some(EarliestOf(g.held)))
  {
  }

  lemma ResumedIs(g: Standing, reason: Reason, k: nat, fed: Standing)
    requires g.held != map[] && k == MinKey(g.held)
    requires fed == Standing(k + |g.held[k].data|, g.held - {k}, None, g.skips + [Skip(g.next, k, reason)])
    ensures Resumed(g, reason) == Flushed(fed)
  {
  }

  lemma TimeRunsOut(g: Standing, now: real)
    requires g.held != map[] && RunOut(g.timer, now)
    ensures TimedOut(g, now) == TimedOut(Resumed(g, Timeout(now, g.timer.value)), now)
  {
  }

  lemma TimeIsLeft(g: Standing, now: real)
    requires g.held == map[] || !RunOut(g.timer, now)
    ensures TimedOut(g, now) == g
  {
  }

  lemma WalkedFurther(g: Standing, m: Standing, h: Standing)
    requires Walked(g, m) && Walked(m, h)
    ensures Walked(g, h)
  {
  }

  lemma {:induction false} FlushedWalks(g: Standing)
    ensures Walked(g, Flushed(g))
    decreases |g.held|
  {
    if g.held != map[] && MinKey(g.held) <= g.next {
      Smaller(g.held, MinKey(g.held));
      FlushedWalks(Released(g));
    }
  }

  lemma ResumedWalks(g: Standing, reason: Reason)
    requires g.held != map[] && AllBeyond(g.held, g.next)
    ensures Walked(g, Resumed(g, reason))
  {
    var k := MinKey(g.held);
    FlushedWalks(Standing(k + |g.held[k].data|, g.held - {k}, None, g.skips + [Skip(g.next, k, reason)]));
  }

  lemma {:induction false} TimedOutWalks(g: Standing, now: real)
    requires AllBeyond(g.held, g.next)
    ensures Walked(g, TimedOut(g, now))
    ensures forall i :: |g.skips| <= i < |TimedOut(g, now).skips| ==> TimedOut(g, now).skips[i].reason.Timeout?
    decreases |g.held|
  {
    if g.held != map[] && RunOut(g.timer, now) {
      var reason := Timeout(now, g.timer.value);
      ResumedWalks(g, reason);
      TimedOutWalks(Resumed(g, reason), now);
      WalkedFurther(g, Resumed(g, reason), TimedOut(g, now));
    }
  }

  lemma WalkedNowhere(g: Standing)
    requires AllBeyond(g.held, g.next)
    ensures Walked(g, g)
  {
  }

  lemma {:induction false} RelievedWalks(g: Standing, limits: Limits)
    requires AllBeyond(g.held, g.next)
    ensures Walked(g, Relieved(g, limits))
    ensures forall i :: |g.skips| <= i < |Relieved(g, limits).skips| ==> Relieved(g, limits).skips[i].reason.Capacity?
    decreases |g.held|
  {
    hide CapacityExceeded, Resumed;
    EmptyFits(limits);
    if CapacityExceeded(g.held, limits) {
      ResumedWalks(g, Capacity);
      RelievedWalks(Resumed(g, Capacity), limits);
      hide Walked;
      WalkedFurther(g, Resumed(g, Capacity), Relieved(g, limits));
    } else {
      WalkedNowhere(g);
    }
  }

  // FIN.

  /** A skip for FIN names the time of the segment that made it and the time FIN was seen, and the
      one is late enough after the other. */
  predicate LateForFin(r: Reason, s: PendingSegment, policy: Policy) {
    && !policy.deferred && policy.fin.Some? && policy.finAt.Some?
    && r == FinTimeout(s.context.timestamp, policy.finAt.value)
    && s.context.timestamp - policy.finAt.value >= GAP_RESET_SECONDS
  }

  /** What one segment changes. */
  ghost predicate Stepped(g: Standing, h: Standing, s: PendingSegment, policy: Policy) {
    && g.next <= h.next && g.skips <= h.skips && AllBeyond(h.held, h.next)
    && forall i :: |g.skips| <= i < |h.skips| && h.skips[i].reason.FinTimeout? ==>
         LateForFin(h.skips[i].reason, s, policy)
  }

  lemma FinExpiresLate(g: Standing, s: PendingSegment, policy: Policy)
    requires (policy.fin.Some? ==> policy.finAt.Some?) && !policy.deferred
    requires AllBeyond(g.held, g.next) && (g.held == map[] ==> g.timer.None?)
    ensures Stepped(g, FinExpired(g, policy, s.context.timestamp), s, policy)
  {
    hide Unwrap;
  }

  lemma AddedSteps(g: Standing, position: nat, s: PendingSegment, policy: Policy)
    requires (policy.fin.Some? ==> policy.finAt.Some?) && AllBeyond(g.held, g.next) && g.next < position
    ensures Stepped(g, Added(g, position, s, policy), s, policy)
  {
    hide TimedOut, Relieved, FinExpired, CapacityExceeded;
    var kept, now := HeldBack(g, position, s), s.context.timestamp;
    assert position in kept.held && AllBeyond(kept.held, kept.next);
    if CapacityExceeded(kept.held, policy.limits) {
      RelievedWalks(kept, policy.limits);
    } else if !policy.deferred {
      TimedOutWalks(kept, now);
      FinExpiresLate(TimedOut(kept, now), s, policy);
    }
  }

  lemma TakenSteps(g: Standing, position: int, s: PendingSegment, policy: Policy)
    requires (policy.fin.Some? ==> policy.finAt.Some?) && AllBeyond(g.held, g.next)
    ensures Stepped(g, Taken(g, position, s, policy), s, policy)
  {
    hide Added, Flushed;
    if position > g.next {
      AddedSteps(g, position, s, policy);
    } else if position + |s.data| > g.next {
      FlushedWalks(g.(next := position + |s.data|, timer := None));
    }
  }

  /** Taking in items gives up on FIN only for an item captured late enough after FIN was seen. */
  lemma {:induction false} TakenAllSteps(start: nat, items: seq<Item>, n: nat, policy: Policy)
    requires n <= |items| && (policy.fin.Some? ==> policy.finAt.Some?)
    ensures var g := TakenAll(start, items, n, policy);
            && start <= g.next && AllBeyond(g.held, g.next)
            && forall i :: 0 <= i < |g.skips| && g.skips[i].reason.FinTimeout? ==>
                 exists j :: 0 <= j < n && LateForFin(g.skips[i].reason, items[j].segment, policy)
  {
    hide Taken, Unwrap;
    if n > 0 {
      var g := TakenAll(start, items, n - 1, policy);
      TakenAllSteps(start, items, n - 1, policy);
      TakenSteps(g, Unwrap(items[n - 1].position, g.next), items[n - 1].segment, policy);
    }
  }

  lemma {:induction false} TakenAllGrows(start: nat, items: seq<Item>, m: nat, n: nat, policy: Policy)
    requires m <= n <= |items| && (policy.fin.Some? ==> policy.finAt.Some?)
    ensures TakenAll(start, items, m, policy).skips <= TakenAll(start, items, n, policy).skips
    decreases n
  {
    hide Taken, Unwrap;
    if m < n {
      var g := TakenAll(start, items, n - 1, policy);
      TakenAllGrows(start, items, m, n - 1, policy);
      TakenAllSteps(start, items, n - 1, policy);
      TakenSteps(g, Unwrap(items[n - 1].position, g.next), items[n - 1].segment, policy);
    }
  }

  /** Nothing held was captured late enough after FIN for FIN's own timer to run out over it. */
  predicate Prompt(held: Held, policy: Policy) {
    policy.deferred || policy.fin.None? || policy.finAt.None? ||
    forall k :: k in held ==> held[k].context.timestamp - policy.finAt.value < GAP_RESET_SECONDS
  }

  /** What is known before the commit: no prompt holding is given up on because of FIN. */
  lemma PromptKeepsFin(held: Held, reference: nat, start: nat, policy: Policy)
    requires forall k :: k in held ==> k < TCP_SEQUENCE_MODULUS
    requires (policy.fin.Some? <==> policy.finAt.Some?) && Prompt(held, policy)
    ensures !GaveUpOnFin(Committed(start, Ordered(held, reference), policy).skips)
  {
    hide Ordered, TakenAll;
    var items := Ordered(held, reference);
    TakenAllSteps(start, items, |items|, policy);
    forall r, j | 0 <= j < |items| ensures !LateForFin(r, items[j].segment, policy) {
      var k := OrderedInvents(held, reference, j);
    }
  }

  // When the timers clear everything, and when FIN's own timer then runs out.

  /** No other held segment reaches the one at `k`: a gap lies before it. */
  predicate Opens(held: Held, k: nat) {
    k in held && forall j :: j in held && j < k ==> j + |held[j].data| < k
  }

  /** Something held at or beyond `k` was captured long enough before `now`. */
  predicate Overdue(held: Held, k: nat, now: real) {
    exists j :: j in held && k <= j && now - held[j].context.timestamp >= GAP_RESET_SECONDS
  }

  /** Beyond every gap but the first, something is overdue. */
  ghost predicate AllOverdue(held: Held, now: real)
    requires held != map[]
  {
    forall k :: Opens(held, k) && k != MinKey(held) ==> Overdue(held, k, now)
  }

  ghost predicate EndsAt(held: Held, e: int) {
    (exists k :: k in held && k + |held[k].data| == e) && forall k :: k in held ==> k + |held[k].data| <= e
  }

  /** What is released connects and ends by `next`; what is left lies beyond all of it. */
  ghost predicate Split(g: Standing, h: Standing) {
    && PartOf(h.held, g.held) && g.next <= h.next
    && (forall i, j :: j in h.held && i in g.held && j <= i ==> i in h.held)
    && (forall i :: i in g.held && i !in h.held ==> i + |g.held[i].data| <= h.next)
    && (forall i :: i in g.held && i !in h.held ==> i <= g.next || !Opens(g.held, i))
    && (h.next == g.next || exists i :: i in g.held && i !in h.held && i + |g.held[i].data| == h.next)
    && (g.timer.None? && h.held != map[] ==> h.timer == Some(EarliestOf(h.held)))
  }

  lemma {:induction false} FlushedSplits(g: Standing)
    ensures Split(g, Flushed(g))
    decreases |g.held|
  {
    if g.held != map[] && MinKey(g.held) <= g.next {
      Smaller(g.held, MinKey(g.held));
      FlushedSplits(Released(g));
      ReleasedSplits(g, Flushed(g));
    }
  }

  lemma ReleasedSplits(g: Standing, h: Standing)
    requires g.held != map[] && MinKey(g.held) <= g.next && Split(Released(g), h)
    ensures Split(g, h)
  {
    var m, r := MinKey(g.held), Released(g);
    forall i | i in g.held && i !in h.held ensures i <= g.next || !Opens(g.held, i) {
      if i != m {
        assert i in r.held && m < i;
        if i > r.next {
          var j :| j in r.held && j < i && j + |r.held[j].data| >= i;
          assert j in g.held;
        }
      }
    }
  }

  /** The first run of connected segments is out, and nothing beyond the next gap. */
  ghost predicate RunTaken(g: Standing, h: Standing)
    requires g.held != map[]
  {
    && PartOf(h.held, g.held) && MinKey(g.held) !in h.held && AllBeyond(h.held, h.next)
    && (forall i, j :: j in h.held && i in g.held && j <= i ==> i in h.held)
    && (forall i :: i in g.held && i !in h.held ==> i + |g.held[i].data| <= h.next)
    && (forall i :: i in g.held && i !in h.held && i != MinKey(g.held) ==> !Opens(g.held, i))
    && (exists i :: i in g.held && i !in h.held && i + |g.held[i].data| == h.next)
    && (h.held != map[] ==> h.timer == Some(EarliestOf(h.held)))
  }

  lemma ResumedSplits(g: Standing, reason: Reason)
    requires g.held != map[] && AllBeyond(g.held, g.next)
    ensures RunTaken(g, Resumed(g, reason))
  {
    var k, h := MinKey(g.held), Resumed(g, reason);
    var f := Standing(k + |g.held[k].data|, g.held - {k}, None, g.skips + [Skip(g.next, k, reason)]);
    assert h == Flushed(f);
    hide Resumed, Flushed, Split, RunTaken, Opens, EarliestOf;
    FlushedSplits(f);
    FlushedWalks(f);
    FirstRun(g, f, h);
  }

  lemma FirstRun(g: Standing, f: Standing, h: Standing)
    requires g.held != map[] && f.held == g.held - {MinKey(g.held)} && f.timer.None?
    requires f.next == MinKey(g.held) + |g.held[MinKey(g.held)].data| && Split(f, h) && AllBeyond(h.held, h.next)
    ensures RunTaken(g, h)
  {
    hide EarliestOf;
    var k := MinKey(g.held);
    assert k in g.held && k !in h.held;
    forall i | i in g.held && i !in h.held && i != k ensures !Opens(g.held, i) {
      assert i in f.held && k < i;
      if i > f.next {
        var j :| j in f.held && j < i && j + |f.held[j].data| >= i;
        assert j in g.held;
      }
    }
  }

  /** The gaps beyond the first one are the gaps left after resuming. */
  lemma OverdueAfterRun(g: Standing, h: Standing, now: real)
    requires g.held != map[] && RunTaken(g, h)
    ensures AllOverdue(g.held, now) <==> h.held == map[] || (RunOut(h.timer, now) && AllOverdue(h.held, now))
  {
    hide Opens, Overdue, EarliestOf, RunTaken, AllBeyond, PartOf;
    OpensAfterRun(g, h);
    if h.held != map[] {
      var m := MinKey(h.held);
      forall k | k in h.held ensures Overdue(g.held, k, now) <==> Overdue(h.held, k, now) {
        OverdueSame(g, h, k, now);
      }
      EarliestIsOverdue(h.held, now);
    }
  }

  lemma OpensAfterRun(g: Standing, h: Standing)
    requires g.held != map[] && RunTaken(g, h)
    ensures forall k :: k != MinKey(g.held) && Opens(g.held, k) <==> Opens(h.held, k)
    ensures forall k :: Opens(h.held, k) ==> k in h.held
    ensures h.held != map[] ==> Opens(h.held, MinKey(h.held)) && h.timer == Some(EarliestOf(h.held))
  {
    hide EarliestOf;
  }

  lemma OverdueSame(g: Standing, h: Standing, k: nat, now: real)
    requires g.held != map[] && RunTaken(g, h) && k in h.held
    ensures Overdue(g.held, k, now) <==> Overdue(h.held, k, now)
  {
    hide EarliestOf, Opens;
    if Overdue(h.held, k, now) {
      var j :| j in h.held && k <= j && now - h.held[j].context.timestamp >= GAP_RESET_SECONDS;
      assert j in g.held;
    }
  }

  lemma EarliestIsOverdue(held: Held, now: real)
    requires held != map[]
    ensures Overdue(held, MinKey(held), now) <==> now - EarliestOf(held) >= GAP_RESET_SECONDS
  {
    var t := EarliestOf(held);
    hide EarliestOf;
    var k :| k in held && held[k].context.timestamp == t;
  }

  lemma EndsAfterRun(g: Standing, h: Standing, e: nat)
    requires g.held != map[] && RunTaken(g, h) && if h.held == map[] then e == h.next else EndsAt(h.held, e)
    ensures EndsAt(g.held, e)
  {
    hide EarliestOf, Opens;
    if h.held != map[] {
      var k :| k in h.held && k + |h.held[k].data| == e;
      assert k in g.held;
    }
  }

  /** The gap timer clears everything held exactly if it has run out itself and something is overdue
      beyond every further gap; the stream then stands at the end of what was held. */
  lemma {:induction false} TimedOutDrains(g: Standing, now: real)
    requires g.held != map[] && AllBeyond(g.held, g.next)
    ensures TimedOut(g, now).held == map[] <==> RunOut(g.timer, now) && AllOverdue(g.held, now)
    ensures TimedOut(g, now).held == map[] ==> EndsAt(g.held, TimedOut(g, now).next)
    decreases |g.held|
  {
    if RunOut(g.timer, now) {
      var reason := Timeout(now, g.timer.value);
      var r := Resumed(g, reason);
      ResumedSplits(g, reason);
      OverdueAfterRun(g, r, now);
      assert AllBeyond(r.held, r.next);
      hide Resumed, AllOverdue, RunOut, RunTaken;
      if r.held == map[] {
        EndsAfterRun(g, r, r.next);
      } else {
        TimedOutDrains(r, now);
        if TimedOut(r, now).held == map[] {
          EndsAfterRun(g, r, TimedOut(r, now).next);
        }
      }
    }
  }

  /** The segment lies beyond a gap and is held within the limits, its time clears everything held,
      FIN was seen long enough before it, and lies beyond all that is held. */
  ghost predicate FinRunsOut(g: Standing, position: int, s: PendingSegment, policy: Policy) {
    && g.next < position && !policy.deferred && policy.fin.Some? && policy.finAt.Some?
    && s.context.timestamp - policy.finAt.value >= GAP_RESET_SECONDS
    && var kept := HeldBack(g, position, s);
    && kept.held != map[] && !CapacityExceeded(kept.held, policy.limits)
    && RunOut(kept.timer, s.context.timestamp) && AllOverdue(kept.held, s.context.timestamp)
    && exists e :: EndsAt(kept.held, e) && e < Unwrap(policy.fin.value, e)
  }

  ghost predicate GaveUpOnFinFrom(skips: seq<Skip>, n: nat) {
    exists i :: n <= i < |skips| && skips[i].reason.FinTimeout?
  }

  lemma FinTimerRunsOut(g: Standing, policy: Policy, now: real)
    requires policy.fin.Some? <==> policy.finAt.Some?
    requires g.held == map[] ==> g.timer.None?
    ensures GaveUpOnFinFrom(FinExpired(g, policy, now).skips, |g.skips|) <==>
            ShortOfFin(g, policy) && now - policy.finAt.value >= GAP_RESET_SECONDS
    ensures g.skips <= FinExpired(g, policy, now).skips
  {
    hide Unwrap;
    var h := FinExpired(g, policy, now);
    assert h.skips != g.skips ==> h.skips[|g.skips|].reason.FinTimeout?;
  }

  lemma EndIsUnique(held: Held, d: int, e: int)
    requires EndsAt(held, d) && EndsAt(held, e)
    ensures d == e
  {
  }

  /** Exactly then the segment gives up on the range before FIN. */
  lemma TakenGivesUpOnFin(g: Standing, position: int, s: PendingSegment, policy: Policy)
    requires (policy.fin.Some? <==> policy.finAt.Some?) && AllBeyond(g.held, g.next)
    ensures GaveUpOnFinFrom(Taken(g, position, s, policy).skips, |g.skips|) <==> FinRunsOut(g, position, s, policy)
  {
    hide TimedOut, Relieved, FinExpired, CapacityExceeded, AllOverdue, EndsAt, Unwrap;
    if position > g.next {
      var kept, now := HeldBack(g, position, s), s.context.timestamp;
      assert position in kept.held && AllBeyond(kept.held, kept.next);
      if CapacityExceeded(kept.held, policy.limits) {
        RelievedWalks(kept, policy.limits);
      } else if !policy.deferred {
        var t := TimedOut(kept, now);
        TimedOutWalks(kept, now);
        TimedOutDrains(kept, now);
        FinTimerRunsOut(t, policy, now);
        FinalSkips(g.skips, t.skips, FinExpired(t, policy, now).skips);
        forall e | EndsAt(kept.held, e) && t.held == map[] ensures e == t.next {
          EndIsUnique(kept.held, e, t.next);
        }
      }
    }
  }

  lemma FinalSkips(first: seq<Skip>, second: seq<Skip>, third: seq<Skip>)
    requires first <= second <= third && !GaveUpOnFinFrom(second, |first|)
    ensures GaveUpOnFinFrom(third, |first|) <==> GaveUpOnFinFrom(third, |second|)
  {
    forall i | 0 <= i < |second| ensures third[i] == second[i] {
    }
  }

  /** A commit gives up on the range before FIN exactly if that is so at one of its items. */
  lemma {:induction false} CommitGivesUpOnFin(start: nat, items: seq<Item>, n: nat, policy: Policy)
    requires n <= |items| && (policy.fin.Some? <==> policy.finAt.Some?)
    ensures GaveUpOnFin(TakenAll(start, items, n, policy).skips) <==>
            exists j :: 0 <= j < n && FinRunsOutAt(start, items, j, policy)
  {
    hide Taken, Unwrap, FinRunsOut;
    if n > 0 {
      var f, s := TakenAll(start, items, n - 1, policy), items[n - 1].segment;
      var position := Unwrap(items[n - 1].position, f.next);
      CommitGivesUpOnFin(start, items, n - 1, policy);
      TakenAllSteps(start, items, n - 1, policy);
      TakenSteps(f, position, s, policy);
      TakenGivesUpOnFin(f, position, s, policy);
      GaveUpFirstOrLater(f.skips, Taken(f, position, s, policy).skips);
      assert FinRunsOut(f, position, s, policy) == FinRunsOutAt(start, items, n - 1, policy);
    }
  }

  ghost predicate FinRunsOutAt(start: nat, items: seq<Item>, j: nat, policy: Policy)
    requires j < |items|
  {
    var g := TakenAll(start, items, j, policy);
    FinRunsOut(g, Unwrap(items[j].position, g.next), items[j].segment, policy)
  }

  lemma GaveUpFirstOrLater(part: seq<Skip>, skips: seq<Skip>)
    requires part <= skips
    ensures GaveUpOnFin(skips) <==> GaveUpOnFin(part) || GaveUpOnFinFrom(skips, |part|)
  {
    SkipsOnlyGrow(part, skips);
    forall i | 0 <= i < |part| ensures skips[i] == part[i] {
    }
  }

  // Where the walk stays.

  /** Nothing fed or held reaches beyond `bound`; nothing held starts, and no gap given up on
      ends, beyond `top`, FIN aside. */
  ghost predicate Reaches(g: Standing, start: int, top: int, bound: int) {
    && start <= g.next <= bound
    && (forall k :: k in g.held ==> k + |g.held[k].data| <= bound && k <= top)
    && SkipsEndBy(g.skips, top)
  }

  lemma {:induction false} FlushedReaches(g: Standing, start: int, top: int, bound: int)
    requires Reaches(g, start, top, bound)
    ensures Reaches(Flushed(g), start, top, bound)
    decreases |g.held|
  {
    if g.held != map[] && MinKey(g.held) <= g.next {
      Smaller(g.held, MinKey(g.held));
      FlushedReaches(Released(g), start, top, bound);
    }
  }

  lemma ResumedReaches(g: Standing, reason: Reason, start: int, top: int, bound: int)
    requires g.held != map[] && AllBeyond(g.held, g.next) && Reaches(g, start, top, bound)
    ensures Reaches(Resumed(g, reason), start, top, bound)
  {
    var k := MinKey(g.held);
    FlushedReaches(Standing(k + |g.held[k].data|, g.held - {k}, None, g.skips + [Skip(g.next, k, reason)]), start,
        top, bound);
  }

  lemma {:induction false} TimedOutReaches(g: Standing, now: real, start: int, top: int, bound: int)
    requires AllBeyond(g.held, g.next) && Reaches(g, start, top, bound)
    ensures Reaches(TimedOut(g, now), start, top, bound)
    decreases |g.held|
  {
    if g.held != map[] && RunOut(g.timer, now) {
      hide Reaches, Resumed;
      var reason := Timeout(now, g.timer.value);
      ResumedWalks(g, reason);
      ResumedReaches(g, reason, start, top, bound);
      TimedOutReaches(Resumed(g, reason), now, start, top, bound);
    }
  }

  lemma {:induction false} RelievedReaches(g: Standing, limits: Limits, start: int, top: int, bound: int)
    requires AllBeyond(g.held, g.next) && Reaches(g, start, top, bound)
    ensures Reaches(Relieved(g, limits), start, top, bound)
    decreases |g.held|
  {
    hide CapacityExceeded, Reaches, Resumed;
    EmptyFits(limits);
    if CapacityExceeded(g.held, limits) {
      ResumedWalks(g, Capacity);
      ResumedReaches(g, Capacity, start, top, bound);
      RelievedReaches(Resumed(g, Capacity), limits, start, top, bound);
    }
  }

  /** From anywhere between `start` and `bound`, FIN's sequence number leads to a place up to `bound`. */
  ghost predicate FinWithin(policy: Policy, start: int, bound: int) {
    policy.fin.Some? ==> forall next :: start <= next <= bound ==> Unwrap(policy.fin.value, next) <= bound
  }

  lemma FinExpiredReaches(g: Standing, policy: Policy, now: real, start: int, top: int, bound: int)
    requires Reaches(g, start, top, bound)
    requires FinWithin(policy, start, bound) || !GaveUpOnFin(FinExpired(g, policy, now).skips)
    ensures Reaches(FinExpired(g, policy, now), start, top, bound)
  {
    hide Unwrap;
    var h := FinExpired(g, policy, now);
    if h.skips != g.skips {
      assert h.skips[|g.skips|].reason.FinTimeout?;
    }
  }

  lemma AddedReaches(g: Standing, position: nat, s: PendingSegment, policy: Policy, start: int, top: int, bound: int)
    requires AllBeyond(g.held, g.next) && g.next < position
    requires Reaches(g, start, top, bound) && position <= top && position + |s.data| <= bound
    requires FinWithin(policy, start, bound) || !GaveUpOnFin(Added(g, position, s, policy).skips)
    ensures Reaches(Added(g, position, s, policy), start, top, bound)
  {
    hide CapacityExceeded, TimedOut, FinExpired, Relieved;
    var kept, now := HeldBack(g, position, s), s.context.timestamp;
    assert AllBeyond(kept.held, kept.next) && Reaches(kept, start, top, bound);
    hide Reaches, AllBeyond;
    if CapacityExceeded(kept.held, policy.limits) {
      RelievedReaches(kept, policy.limits, start, top, bound);
    } else if !policy.deferred {
      TimedOutReaches(kept, now, start, top, bound);
      FinExpiredReaches(TimedOut(kept, now), policy, now, start, top, bound);
    }
  }

  lemma TakenReaches(g: Standing, position: int, s: PendingSegment, policy: Policy, start: int, top: int, bound: int)
    requires AllBeyond(g.held, g.next)
    requires Reaches(g, start, top, bound) && position <= top && position + |s.data| <= bound
    requires FinWithin(policy, start, bound) || !GaveUpOnFin(Taken(g, position, s, policy).skips)
    ensures Reaches(Taken(g, position, s, policy), start, top, bound)
  {
    hide Added, Flushed;
    if position > g.next {
      AddedReaches(g, position, s, policy, start, top, bound);
    } else if position + |s.data| > g.next {
      FlushedReaches(g.(next := position + |s.data|, timer := None), start, top, bound);
    }
  }

  // Taking in everything held, from a credible origin.

  lemma {:induction false} TakenAllReaches(start: nat, items: seq<Item>, n: nat, policy: Policy, d: int, b: int,
                                           stream: Stream, shift: int)
    requires n <= |items| && (policy.fin.Some? ==> policy.finAt.Some?) && Placement(items, d, start, b, stream, shift)
    requires FinWithin(policy, start, b) || !GaveUpOnFin(TakenAll(start, items, n, policy).skips)
    ensures var g := TakenAll(start, items, n, policy);
            && start <= g.next <= b && AllBeyond(g.held, g.next)
            && (n > 0 ==> Reaches(g, start, items[n - 1].position + d, b))
            && (n < |items| ==> Reaches(g, start, items[n].position + d, b))
            && (n < |items| ==> Unwrap(items[n].position, g.next) == items[n].position + d)
  {
    hide Taken, Unwrap, On, FinWithin;
    var g := TakenAll(start, items, n, policy);
    if n > 0 {
      var f, s, top := TakenAll(start, items, n - 1, policy), items[n - 1].segment, items[n - 1].position + d;
      TakenAllSteps(start, items, n - 1, policy);
      TakenSteps(f, Unwrap(items[n - 1].position, f.next), s, policy);
      SkipsOnlyGrow(f.skips, g.skips);
      TakenAllReaches(start, items, n - 1, policy, d, b, stream, shift);
      assert PlacedTrue(items[n - 1], d, start, b, stream, shift);
      TakenReaches(f, top, s, policy, start, top, b);
    }
    if n < |items| {
      PlacedUnwraps(items[n], d, start, b, stream, shift, g.next);
    }
  }

  /** FIN's sequence number, seen from the origin, lies within half the sequence space of everything. */
  predicate FinNear(items: seq<Item>, d: int, start: int, policy: Policy) {
    policy.fin.Some? ==>
      var fin := Unwrap(policy.fin.value, start);
      && -TCP_SEQUENCE_HALF_RANGE < fin - start < TCP_SEQUENCE_HALF_RANGE
      && forall j :: 0 <= j < |items| ==>
           && fin - (items[j].position + d) < TCP_SEQUENCE_HALF_RANGE
           && items[j].position + d + |items[j].segment.data| - fin < TCP_SEQUENCE_HALF_RANGE
  }

  lemma FinIsPlaced(items: seq<Item>, d: int, start: nat, b: int, stream: Stream, shift: int, policy: Policy)
    returns (c: int)
    requires Placement(items, d, start, b, stream, shift) && FinNear(items, d, start, policy)
    ensures Placement(items, d, start, c, stream, shift) && FinWithin(policy, start, c)
  {
    hide Unwrap, On, Congruent;
    if policy.fin.None? {
      return b;
    }
    var fin := Unwrap(policy.fin.value, start);
    forall j | 0 <= j < |items| ensures PlacedTrue(items[j], d, start, b, stream, shift) {
    }
    c := WindowBound(items, d, Max(start, fin), |items|);
    UnwrapIsNearest(policy.fin.value, start);
    forall next | start <= next <= c ensures Unwrap(policy.fin.value, next) <= c {
      UnwrapRecovers(policy.fin.value, next, fin);
    }
  }

  /** FIN either cannot run out over what is held, or lies near all of it. */
  ghost predicate FinHarmless(held: Held, reference: nat, policy: Policy)
    requires held != map[] && forall k :: k in held ==> k < TCP_SEQUENCE_MODULUS
  {
    Prompt(held, policy) || FinNear(Ordered(held, reference), 0, Ordered(held, reference)[0].position, policy)
  }

  /** What becomes of everything held if the earliest of it is taken for the origin. */
  function CommittedEarliest(held: Held, reference: nat, policy: Policy): (g: Standing)
    requires held != map[] && forall k :: k in held ==> k < TCP_SEQUENCE_MODULUS
  {
    Committed(Ordered(held, reference)[0].position, Ordered(held, reference), policy)
  }

  /** The commit passes over provisional position `r` because of FIN. */
  ghost predicate LostToFin(held: Held, reference: nat, policy: Policy, r: int)
    requires held != map[] && forall k :: k in held ==> k < TCP_SEQUENCE_MODULUS
  {
    FinSkipped(CommittedEarliest(held, reference, policy).skips, r + LiftOf(held, reference))
  }

  /** Nothing is lost from a prompt holding. */
  lemma PromptLosesNothing(held: Held, reference: nat, policy: Policy)
    requires held != map[] && forall k :: k in held ==> k < TCP_SEQUENCE_MODULUS
    requires (policy.fin.Some? <==> policy.finAt.Some?) && Prompt(held, policy)
    ensures forall r :: !LostToFin(held, reference, policy, r)
  {
    PromptKeepsFin(held, reference, Ordered(held, reference)[0].position, policy);
  }

  // Deferred timers: taking in what fits gives up nothing.

  predicate Fits(count: nat, bytes: nat, limits: Limits) {
    count <= limits.segments && (limits.bytes.Some? ==> bytes <= limits.bytes.value)
  }

  lemma {:induction false} DeferredGivesUpNothing(start: nat, items: seq<Item>, n: nat, policy: Policy)
    requires n <= |items| && policy.deferred && Fits(n, Lengths(items[..n]), policy.limits)
    ensures var g := TakenAll(start, items, n, policy);
            && g.skips == [] && AllBeyond(g.held, g.next) && |g.held| <= n && TotalBytes(g.held) <= Lengths(items[..n])
  {
    hide Unwrap, TotalBytes;
    if n > 0 {
      assert items[..n][..n - 1] == items[..n - 1];
      DeferredGivesUpNothing(start, items, n - 1, policy);
      var f, s := TakenAll(start, items, n - 1, policy), items[n - 1].segment;
      DeferredStep(f, Unwrap(items[n - 1].position, f.next), s, policy, n - 1, Lengths(items[..n - 1]));
    } else {
      EmptyFits(Limits(0, Some(0)));
    }
  }

  lemma DeferredStep(g: Standing, position: int, s: PendingSegment, policy: Policy, count: nat, bytes: nat)
    requires policy.deferred && AllBeyond(g.held, g.next) && |g.held| <= count && TotalBytes(g.held) <= bytes
    requires Fits(count + 1, bytes + |s.data|, policy.limits)
    ensures var h := Taken(g, position, s, policy);
            && h.skips == g.skips && AllBeyond(h.held, h.next) && |h.held| <= count + 1
            && TotalBytes(h.held) <= bytes + |s.data|
  {
    hide TotalBytes, Flushed;
    if position > g.next {
      KeepMeasures(g.held, position, s);
    } else if position + |s.data| > g.next {
      var fed := g.(next := position + |s.data|, timer := None);
      FlushedWalks(fed);
      FewerBytes(Flushed(fed).held, g.held);
    }
  }

  /** While arrivals leave the timers alone, a commit within the limits gives up nothing. */
  lemma DeferredCommit(held: Held, reference: nat, start: nat, policy: Policy)
    requires forall k :: k in held ==> k < TCP_SEQUENCE_MODULUS
    requires policy.deferred && !CapacityExceeded(held, policy.limits)
    ensures Committed(start, Ordered(held, reference), policy).skips == []
  {
    hide Ordered, TotalBytes, TakenAll;
    var items := Ordered(held, reference);
    OrderedMeasures(held, reference);
    assert items[..|items|] == items;
    DeferredGivesUpNothing(start, items, |items|, policy);
  }

  // Inputs on which a commit gives up.

  lemma SmallUnwraps(k: nat, reference: nat)
    requires k < TCP_SEQUENCE_HALF_RANGE && reference < TCP_SEQUENCE_HALF_RANGE
    ensures Unwrap(k, reference) == k
  {
    UnwrapRecovers(k, reference, k) by { MultiplesAreCongruent(k, k, 0); }
  }

  ghost predicate SameSegments(held: Held, items: seq<Item>) {
    && (forall i :: 0 <= i < |items| ==> items[i].position in held && held[items[i].position] == items[i].segment)
    && (forall k :: k in held ==> HasItem(items, k))
  }

  /** Where sequence numbers are positions, the ascending list of what is held is the order. */
  lemma AscendingIsOrdered(held: Held, reference: nat, items: seq<Item>)
    requires forall k :: k in held ==> k < TCP_SEQUENCE_MODULUS && Unwrap(k, reference) == k
    requires Ascending(items) && SameSegments(held, items)
    ensures Ordered(held, reference) == items && LiftOf(held, reference) == 0
  {
    assert LiftOf(held, reference) == 0;
    hide Unwrap, Ordered, LiftOf;
    var ordered := Ordered(held, reference);
    OrderedIsAscending(held, reference);
    forall i | 0 <= i < |ordered|
      ensures ordered[i].position in held && held[ordered[i].position] == ordered[i].segment
    {
      var k := OrderedInvents(held, reference, i);
    }
    forall k | k in held ensures HasItem(ordered, k) {
      var i := OrderedKeeps(held, reference, k);
    }
    AscendingIsUnique(held, ordered, items);
  }

  lemma {:induction false} AscendingIsUnique(held: Held, a: seq<Item>, b: seq<Item>)
    requires Ascending(a) && SameSegments(held, a) && Ascending(b) && SameSegments(held, b)
    ensures a == b
    decreases |a|
  {
    hide Ascending, SameSegments, HasItem;
    EmptyTogether(held, a);
    EmptyTogether(held, b);
    if a != [] && b != [] {
      var m, n := |a| - 1, |b| - 1;
      LastIsLargest(held, a);
      LastIsLargest(held, b);
      LastOut(held, a);
      LastOut(held, b);
      AscendingIsUnique(held - {a[m].position}, a[..m], b[..n]);
      assert a == a[..m] + [a[m]] && b == b[..n] + [b[n]];
    }
  }

  lemma EmptyTogether(held: Held, items: seq<Item>)
    requires SameSegments(held, items)
    ensures items == [] <==> held == map[]
  {
    if items != [] {
      assert items[0].position in held;
    } else {
      assert forall k :: k in held ==> HasItem(items, k);
    }
  }

  lemma LastIsLargest(held: Held, items: seq<Item>)
    requires items != [] && Ascending(items) && SameSegments(held, items)
    ensures var last := items[|items| - 1];
            && last.position in held && held[last.position] == last.segment
            && forall k :: k in held ==> k <= last.position
  {
    forall k | k in held ensures k <= items[|items| - 1].position {
      var i :| 0 <= i < |items| && items[i].position == k;
    }
  }

  lemma LastOut(held: Held, items: seq<Item>)
    requires items != [] && Ascending(items) && SameSegments(held, items)
    ensures Ascending(items[..|items| - 1])
    ensures SameSegments(held - {items[|items| - 1].position}, items[..|items| - 1])
  {
    var m := |items| - 1;
    forall k | k in held && k != items[m].position ensures HasItem(items[..m], k) {
      var i :| 0 <= i < |items| && items[i].position == k;
      assert items[..m][i].position == k;
    }
  }

  /** Held: a first segment; behind a gap a second one and, just after it, a third; behind another
      gap a fourth. FIN lies beyond all of them and was seen with the first two. */
  datatype Overrun = Overrun(held: Held, first: nat, second: nat, third: nat, fourth: nat, fin: nat, finAt: real)

  ghost predicate Overruns(o: Overrun) {
    && o.held.Keys == {o.first, o.second, o.third, o.fourth} && NonEmpty(o.held)
    && o.first + |o.held[o.first].data| < o.second && o.second + |o.held[o.second].data| == o.third
    && o.third + |o.held[o.third].data| < o.fourth && o.fourth + |o.held[o.fourth].data| <= o.fin
    && o.fin < TCP_SEQUENCE_HALF_RANGE
    && o.held[o.first].context.timestamp == o.held[o.second].context.timestamp == o.finAt
    && o.held[o.third].context.timestamp - o.finAt >= GAP_RESET_SECONDS
  }

  function OverrunPolicy(o: Overrun): Policy {
    Policy(Limits(4, None), false, Some(o.fin), Some(o.finAt))
  }

  ghost function OverrunItems(o: Overrun): seq<Item>
    requires Overruns(o)
  {
    [Item(o.first, o.held[o.first]), Item(o.second, o.held[o.second]), Item(o.third, o.held[o.third]),
     Item(o.fourth, o.held[o.fourth])]
  }

  lemma OverrunOrder(o: Overrun)
    requires Overruns(o)
    ensures Ordered(o.held, o.first) == OverrunItems(o) && LiftOf(o.held, o.first) == 0
  {
    hide Unwrap, Ordered;
    forall k | k in o.held ensures Unwrap(k, o.first) == k {
      SmallUnwraps(k, o.first);
    }
    var items := OverrunItems(o);
    assert SameSegments(o.held, items) by {
      assert items[0].position == o.first && items[1].position == o.second;
      assert items[2].position == o.third && items[3].position == o.fourth;
    }
    AscendingIsOrdered(o.held, o.first, items);
  }

  /** The second segment is held behind the first gap. */
  lemma TwoTaken(items: seq<Item>, policy: Policy)
    requires |items| >= 2 && items[1].position < TCP_SEQUENCE_HALF_RANGE && |items[0].segment.data| > 0
    requires items[0].position + |items[0].segment.data| < items[1].position
    requires policy.limits.segments > 0 && policy.limits.bytes.None?
    ensures TakenAll(items[0].position, items, 2, policy) ==
            Standing(items[0].position + |items[0].segment.data|, map[items[1].position := items[1].segment],
                     Some(items[1].segment.context.timestamp), [])
  {
    var start, end := items[0].position, items[0].position + |items[0].segment.data|;
    SmallUnwraps(start, start);
    SmallUnwraps(items[1].position, end);
    hide Unwrap;
    var g0 := TakenAll(start, items, 0, policy);
    var g1 := TakenAll(start, items, 1, policy);
    assert g1 == Standing(end, map[], None, []);
    var kept := HeldBack(g1, items[1].position, items[1].segment);
    assert kept.held == map[items[1].position := items[1].segment];
  }

  ghost predicate SkippedForFin(skips: seq<Skip>, start: int, end: int) {
    exists i :: 0 <= i < |skips| && skips[i].reason.FinTimeout? && skips[i].start == start && skips[i].end == end
  }

  /** If a clock clears everything held and FIN is due, the stream goes from the end of it to FIN. */
  lemma FinPasses(kept: Standing, policy: Policy, now: real, end: nat)
    requires kept.held != map[] && AllBeyond(kept.held, kept.next) && EndsAt(kept.held, end)
    requires RunOut(kept.timer, now) && AllOverdue(kept.held, now)
    requires policy.fin.Some? && policy.finAt.Some? && now - policy.finAt.value >= GAP_RESET_SECONDS
    requires end < Unwrap(policy.fin.value, end)
    ensures SkippedForFin(Serviced(kept, policy, now).skips, end, Unwrap(policy.fin.value, end))
  {
    hide AllOverdue, EndsAt, TimedOut, Unwrap;
    var t := TimedOut(kept, now);
    TimedOutDrains(kept, now);
    TimedOutWalks(kept, now);
    EndIsUnique(kept.held, end, t.next);
    var h := FinExpired(t, policy, now);
    assert h.skips[|t.skips|] == Skip(end, Unwrap(policy.fin.value, end), FinTimeout(now, policy.finAt.value));
  }

  /** The third segment clears both, and FIN's timer takes the stream to FIN. */
  lemma OverrunPasses(o: Overrun)
    requires Overruns(o)
    ensures SkippedForFin(TakenAll(o.first, OverrunItems(o), 3, OverrunPolicy(o)).skips,
                          o.third + |o.held[o.third].data|, o.fin)
  {
    hide Taken, TakenAll, Unwrap, SkippedForFin;
    var items, policy, s := OverrunItems(o), OverrunPolicy(o), o.held[o.third];
    TwoTaken(items, policy);
    var g := TakenAll(o.first, items, 2, policy);
    SmallUnwraps(o.third, g.next);
    TakenAllNext(o.first, items, 2, policy);
    SmallUnwraps(o.fin, o.third + |s.data|);
    ThirdPasses(g, o.second, o.third, s, policy);
  }

  lemma TakenAllNext(start: nat, items: seq<Item>, n: nat, policy: Policy)
    requires n < |items|
    ensures var g := TakenAll(start, items, n, policy);
            TakenAll(start, items, n + 1, policy) ==
            Taken(g, Unwrap(items[n].position, g.next), items[n].segment, policy)
  {
  }

  lemma ThirdPasses(g: Standing, j: nat, k: nat, s: PendingSegment, policy: Policy)
    requires g.held.Keys == {j} && g.next < j < k && j + |g.held[j].data| == k && |s.data| > 0
    requires policy.limits == Limits(4, None) && !policy.deferred && policy.fin.Some? && g.timer == policy.finAt
    requires policy.finAt.Some? && s.context.timestamp - policy.finAt.value >= GAP_RESET_SECONDS
    requires k + |s.data| < Unwrap(policy.fin.value, k + |s.data|)
    ensures SkippedForFin(Taken(g, k, s, policy).skips, k + |s.data|, Unwrap(policy.fin.value, k + |s.data|))
  {
    hide Unwrap, CapacityExceeded, AllOverdue, EndsAt, Serviced, SkippedForFin;
    var kept := HeldBack(g, k, s);
    TwoClear(kept.held, j, k, s.context.timestamp, policy.limits);
    FinPasses(kept, policy, s.context.timestamp, k + |s.data|);
  }

  lemma TwoClear(held: Held, j: nat, k: nat, now: real, limits: Limits)
    requires held.Keys == {j, k} && j < k && j + |held[j].data| == k && |held[k].data| > 0 && limits == Limits(4, None)
    ensures AllOverdue(held, now) && EndsAt(held, k + |held[k].data|) && !CapacityExceeded(held, limits)
  {
    assert |held| == |held.Keys|;
    assert MinKey(held) == j && !Opens(held, k);
  }

  /** Whatever the other times, once the third segment is 1.5 seconds or more after FIN: the fourth is
      held when the origin is fixed, and every byte of it lies in what is given up. */
  lemma FinOverrunsHeldBytes(o: Overrun, p: nat)
    requires Overruns(o) && o.fourth <= p < o.fourth + |o.held[o.fourth].data|
    ensures Provisional(o.held, o.first, p) && LostToFin(o.held, o.first, OverrunPolicy(o), p)
  {
    OverrunOrder(o);
    OverrunPasses(o);
    var items, policy := OverrunItems(o), OverrunPolicy(o);
    SmallUnwraps(o.fourth, o.first);
    hide Unwrap, Taken, Ordered;
    assert o.fourth in o.held;
    var g := TakenAll(o.first, items, 3, policy);
    TakenAllSteps(o.first, items, 3, policy);
    TakenSteps(g, Unwrap(items[3].position, g.next), items[3].segment, policy);
    SkipsOnlyGrow(g.skips, Committed(o.first, items, policy).skips);
    assert FinSkipped(g.skips, p);
  }

  /** Without deferred timers a commit itself can give up on a gap: the second segment is held behind
      one, and the third, behind another and 1.5 seconds or more later, ends the wait for it. */
  lemma CommitGivesUp(held: Held, first: nat, second: nat, third: nat, policy: Policy)
    requires held.Keys == {first, second, third} && NonEmpty(held) && third < TCP_SEQUENCE_HALF_RANGE
    requires first + |held[first].data| < second && second + |held[second].data| < third
    requires held[third].context.timestamp - held[second].context.timestamp >= GAP_RESET_SECONDS
    requires policy == Policy(Limits(3, None), false, None, None)
    ensures var g := Committed(first, Ordered(held, first), policy);
            |g.skips| == 1 && Serviced(g, policy, held[third].context.timestamp) == g
  {
    var a, b, c := held[first], held[second], held[third];
    var items := [Item(first, a), Item(second, b), Item(third, c)];
    forall k | k in held ensures Unwrap(k, first) == k {
      SmallUnwraps(k, first);
    }
    assert SameSegments(held, items) by {
      assert items[0].position == first && items[1].position == second && items[2].position == third;
    }
    AscendingIsOrdered(held, first, items);
    ThreeTaken(first, second, third, a, b, c, policy);
  }

  lemma ThreeTaken(first: nat, second: nat, third: nat, a: PendingSegment, b: PendingSegment, c: PendingSegment,
                   policy: Policy)
    requires |a.data| > 0 && |b.data| > 0 && |c.data| > 0 && third < TCP_SEQUENCE_HALF_RANGE
    requires first + |a.data| < second && second + |b.data| < third
    requires c.context.timestamp - b.context.timestamp >= GAP_RESET_SECONDS
    requires policy == Policy(Limits(3, None), false, None, None)
    ensures var g := Committed(first, [Item(first, a), Item(second, b), Item(third, c)], policy);
            |g.skips| == 1 && Serviced(g, policy, c.context.timestamp) == g
  {
    hide TakenAll, Taken, Unwrap, Serviced;
    var items := [Item(first, a), Item(second, b), Item(third, c)];
    TwoTaken(items, policy);
    var g := TakenAll(first, items, 2, policy);
    SmallUnwraps(third, g.next);
    TakenAllNext(first, items, 2, policy);
    LaterThird(g, second, third, c, policy);
  }

  lemma LaterThird(g: Standing, j: nat, k: nat, s: PendingSegment, policy: Policy)
    requires g.held.Keys == {j} && g.next < j && j + |g.held[j].data| < k && g.skips == []
    requires g.timer.Some? && s.context.timestamp - g.timer.value >= GAP_RESET_SECONDS
    requires policy == Policy(Limits(3, None), false, None, None)
    ensures var h := Taken(g, k, s, policy); |h.skips| == 1 && Serviced(h, policy, s.context.timestamp) == h
  {
    hide Resumed, CapacityExceeded, Unwrap;
    var now, more := s.context.timestamp, HeldBack(g, k, s);
    TwoFit(more.held, j, k, policy.limits);
    ResumeFirst(more, j, k, Timeout(now, g.timer.value));
    assert TimedOut(more, now) == Resumed(more, Timeout(now, g.timer.value));
  }

  lemma TwoFit(held: Held, j: nat, k: nat, limits: Limits)
    requires held.Keys == {j, k} && limits == Limits(3, None)
    ensures !CapacityExceeded(held, limits)
  {
    assert |held| == |held.Keys|;
  }

  lemma ResumeFirst(g: Standing, j: nat, k: nat, reason: Reason)
    requires g.held.Keys == {j, k} && j + |g.held[j].data| < k
    ensures Resumed(g, reason) == Standing(j + |g.held[j].data|, map[k := g.held[k]],
                Some(g.held[k].context.timestamp), g.skips + [Skip(g.next, j, reason)])
  {
    assert MinKey(g.held) == j;
    var rest := g.held - {j};
    assert rest == map[k := g.held[k]];
    assert rest - {k} == map[];
  }
}
