// What a commit loses to FIN, and when it gives up a gap at all: both read off the items, one by one.
module FinLoss {
  import opened Wire
  import opened SequenceNumbers
  import opened ReceivedSet
  import opened Holding
  import opened InitialOrder
  import opened Gaps

  // What is no longer held has been passed.

  /** Only held segments go, and what goes ends by where the stream then stands. */
  ghost predicate Passes(g: Standing, h: Standing) {
    && g.next <= h.next && PartOf(h.held, g.held)
    && forall k :: k in g.held && k !in h.held ==> k + |g.held[k].data| <= h.next
  }

  lemma PassesFurther(g: Standing, m: Standing, h: Standing)
    requires Passes(g, m) && Passes(m, h)
    ensures Passes(g, h)
  {
    forall k | k in g.held && k !in h.held ensures k + |g.held[k].data| <= h.next {
      assert k in m.held ==> m.held[k] == g.held[k];
    }
  }

  lemma FlushedPasses(g: Standing)
    ensures Passes(g, Flushed(g))
  {
    hide Flushed, Opens, EarliestOf;
    FlushedSplits(g);
  }

  lemma ResumedPasses(g: Standing, reason: Reason)
    requires g.held != map[] && AllBeyond(g.held, g.next)
    ensures Passes(g, Resumed(g, reason)) && AllBeyond(Resumed(g, reason).held, Resumed(g, reason).next)
  {
    hide Resumed, Opens, EarliestOf;
    ResumedSplits(g, reason);
    ResumedWalks(g, reason);
  }

  lemma {:induction false} TimedOutPasses(g: Standing, now: real)
    requires AllBeyond(g.held, g.next)
    ensures Passes(g, TimedOut(g, now))
    decreases |g.held|
  {
    hide Resumed;
    if g.held != map[] && RunOut(g.timer, now) {
      var h := Resumed(g, Timeout(now, g.timer.value));
      ResumedPasses(g, Timeout(now, g.timer.value));
      TimedOutPasses(h, now);
      PassesFurther(g, h, TimedOut(g, now));
    }
  }

  lemma {:induction false} RelievedPasses(g: Standing, limits: Limits)
    requires AllBeyond(g.held, g.next)
    ensures Passes(g, Relieved(g, limits))
    decreases |g.held|
  {
    hide Resumed, CapacityExceeded;
    EmptyFits(limits);
    if CapacityExceeded(g.held, limits) {
      ResumedPasses(g, Capacity);
      RelievedPasses(Resumed(g, Capacity), limits);
      PassesFurther(g, Resumed(g, Capacity), Relieved(g, limits));
    }
  }

  /** Whatever a segment beyond a gap sets off. */
  lemma AddedPasses(g: Standing, position: nat, s: PendingSegment, policy: Policy)
    requires AllBeyond(g.held, g.next) && g.next < position
    ensures Passes(HeldBack(g, position, s), Added(g, position, s, policy))
  {
    hide CapacityExceeded, TimedOut, Relieved, Unwrap;
    var kept, now := HeldBack(g, position, s), s.context.timestamp;
    assert AllBeyond(kept.held, kept.next);
    if CapacityExceeded(kept.held, policy.limits) {
      RelievedPasses(kept, policy.limits);
    } else if !policy.deferred {
      TimedOutPasses(kept, now);
      assert Passes(TimedOut(kept, now), FinExpired(TimedOut(kept, now), policy, now));
      PassesFurther(kept, TimedOut(kept, now), Added(g, position, s, policy));
    }
  }

  // The items taken in so far, against what is held.

  function EndOfItem(item: Item, d: int): int {
    item.position + d + |item.segment.data|
  }

  /** Where the first `n` items end, moved by `d`. */
  function EndOf(items: seq<Item>, n: nat, d: int): (e: int)
    requires 0 < n <= |items|
    ensures exists i :: 0 <= i < n && e == EndOfItem(items[i], d)
    ensures forall i :: 0 <= i < n ==> EndOfItem(items[i], d) <= e
  {
    var last := EndOfItem(items[n - 1], d);
    if n == 1 then last else
      var others := EndOf(items, n - 1, d);
      if others < last then last else others
  }

  /** End `e` has been reached, by the stream or by something held. */
  ghost predicate Reached(g: Standing, e: int) {
    e <= g.next || exists k :: k in g.held && e <= k + |g.held[k].data|
  }

  ghost predicate IsEnd(items: seq<Item>, n: nat, d: int, e: int)
    requires n <= |items|
  {
    exists i :: 0 <= i < n && EndOfItem(items[i], d) == e
  }

  /** Every item ends where the stream or something held has reached, and what is held ends where
      some item does. */
  ghost predicate Accounted(g: Standing, items: seq<Item>, n: nat, d: int)
    requires n <= |items|
  {
    && (forall i :: 0 <= i < n ==> Reached(g, EndOfItem(items[i], d)))
    && forall k :: k in g.held ==> IsEnd(items, n, d, k + |g.held[k].data|)
  }

  lemma AccountedPasses(g: Standing, h: Standing, items: seq<Item>, n: nat, d: int)
    requires n <= |items| && Accounted(g, items, n, d) && Passes(g, h)
    ensures Accounted(h, items, n, d)
  {
    hide Reached, IsEnd, EndOfItem, Passes;
    forall i | 0 <= i < n ensures Reached(h, EndOfItem(items[i], d)) {
      ReachedPasses(g, h, EndOfItem(items[i], d));
    }
    forall k | k in h.held ensures IsEnd(items, n, d, k + |h.held[k].data|) {
      HeldBefore(g, h, k);
    }
  }

  lemma ReachedPasses(g: Standing, h: Standing, e: int)
    requires Reached(g, e) && Passes(g, h)
    ensures Reached(h, e)
  {
    if e > h.next {
      var k :| k in g.held && e <= k + |g.held[k].data|;
      assert k in h.held;
    }
  }

  lemma HeldBefore(g: Standing, h: Standing, k: nat)
    requires Passes(g, h) && k in h.held
    ensures k in g.held && g.held[k] == h.held[k]
  {
  }

  /** One more segment, beyond a gap: held, it is accounted for. */
  lemma AccountedHeldBack(g: Standing, items: seq<Item>, n: nat, d: int)
    requires n < |items| && Accounted(g, items, n, d) && items[n].position + d >= 0
    ensures Accounted(HeldBack(g, items[n].position + d, items[n].segment), items, n + 1, d)
  {
    hide Keep, HeldBack, Reached, IsEnd;
    var u, s := items[n].position + d, items[n].segment;
    var kept := HeldBack(g, u, s);
    forall i | 0 <= i < n + 1 ensures Reached(kept, EndOfItem(items[i], d)) {
      ReachedHeldBack(g, u, s, EndOfItem(items[i], d));
    }
    forall k | k in kept.held ensures IsEnd(items, n + 1, d, k + |kept.held[k].data|) {
      EndsHeldBack(g, items, n, d, k);
    }
  }

  lemma ReachedHeldBack(g: Standing, u: nat, s: PendingSegment, e: int)
    requires Reached(g, e) || e == u + |s.data|
    ensures Reached(HeldBack(g, u, s), e)
  {
    var kept := HeldBack(g, u, s);
    if e == u + |s.data| {
      assert u in kept.held;
    } else if e > g.next {
      var k :| k in g.held && e <= k + |g.held[k].data|;
      assert k in kept.held;
    }
  }

  lemma EndsHeldBack(g: Standing, items: seq<Item>, n: nat, d: int, k: nat)
    requires n < |items| && Accounted(g, items, n, d) && items[n].position + d >= 0
    requires k in HeldBack(g, items[n].position + d, items[n].segment).held
    ensures IsEnd(items, n + 1, d, k + |HeldBack(g, items[n].position + d, items[n].segment).held[k].data|)
  {
    hide Reached;
    var u, s := items[n].position + d, items[n].segment;
    if k == u && HeldBack(g, u, s).held[k] == s {
      assert EndOfItem(items[n], d) == k + |s.data|;
    } else {
      assert k in g.held && IsEnd(items, n, d, k + |g.held[k].data|);
    }
  }

  /** One more segment at or before where the stream stands: what it has beyond is fed. */
  lemma AccountedFed(g: Standing, items: seq<Item>, n: nat, d: int)
    requires n < |items| && Accounted(g, items, n, d)
    ensures var end := Max(g.next, EndOfItem(items[n], d));
            Accounted(g.(next := end, timer := None), items, n + 1, d) && Accounted(g.(next := end), items, n + 1, d)
  {
    hide EndOfItem, IsEnd, Reached;
    var end := Max(g.next, EndOfItem(items[n], d));
    forall k | k in g.held ensures IsEnd(items, n + 1, d, k + |g.held[k].data|) {
      EndStays(items, n, d, k + |g.held[k].data|);
    }
    forall i | 0 <= i < n + 1 ensures ReachedBy(g, end, EndOfItem(items[i], d)) {
      if i < n {
        ReachedFed(g, end, EndOfItem(items[i], d));
      } else {
        AtEnd(g, end, EndOfItem(items[i], d));
      }
    }
  }

  lemma EndStays(items: seq<Item>, n: nat, d: int, e: int)
    requires n < |items| && IsEnd(items, n, d, e)
    ensures IsEnd(items, n + 1, d, e)
  {
  }

  ghost predicate ReachedBy(g: Standing, end: nat, e: int) {
    Reached(g.(next := end, timer := None), e) && Reached(g.(next := end), e)
  }

  lemma ReachedFed(g: Standing, end: nat, e: int)
    requires g.next <= end && Reached(g, e)
    ensures ReachedBy(g, end, e)
  {
  }

  lemma AtEnd(g: Standing, end: nat, e: int)
    requires e <= end
    ensures ReachedBy(g, end, e)
  {
  }

  lemma AccountedTaken(g: Standing, items: seq<Item>, n: nat, d: int, policy: Policy)
    requires n < |items| && Accounted(g, items, n, d) && AllBeyond(g.held, g.next)
    ensures Accounted(Taken(g, items[n].position + d, items[n].segment, policy), items, n + 1, d)
  {
    hide Accounted, Passes, Flushed, Added;
    var u, s := items[n].position + d, items[n].segment;
    if u > g.next {
      AccountedHeldBack(g, items, n, d);
      AddedPasses(g, u, s, policy);
      AccountedPasses(HeldBack(g, u, s), Added(g, u, s, policy), items, n + 1, d);
    } else {
      AccountedFed(g, items, n, d);
      if EndOfItem(items[n], d) > g.next {
        var fed := g.(next := u + |s.data|, timer := None);
        FlushedPasses(fed);
        AccountedPasses(fed, Flushed(fed), items, n + 1, d);
      } else {
        assert g.(next := g.next) == g;
      }
    }
  }

  // The range given up because of FIN at one item.

  lemma FinExpiredSkips(g: Standing, policy: Policy, now: real)
    requires policy.fin.Some? <==> policy.finAt.Some?
    requires g.held == map[] ==> g.timer.None?
    ensures FinExpired(g, policy, now).skips ==
            if ShortOfFin(g, policy) && now - policy.finAt.value >= GAP_RESET_SECONDS
            then g.skips + [Skip(g.next, Unwrap(policy.fin.value, g.next), FinTimeout(now, policy.finAt.value))]
            else g.skips
  {
    hide Unwrap;
  }

  /** Skips for other reasons, and one for FIN: just its range is lost to FIN in addition. */
  lemma OneMoreForFin(first: seq<Skip>, second: seq<Skip>, s: Skip, q: int)
    requires first <= second && !GaveUpOnFinFrom(second, |first|)
    ensures FinSkipped(second, q) <==> FinSkipped(first, q)
    ensures s.reason.FinTimeout? ==>
              (FinSkipped(second + [s], q) <==> FinSkipped(first, q) || s.start <= q < s.end)
  {
    SkipsOnlyGrow(first, second);
    SkipsOnlyGrow(second, second + [s]);
    if FinSkipped(second, q) {
      var i :| 0 <= i < |second| && second[i].reason.FinTimeout? && second[i].start <= q < second[i].end;
      assert i < |first| && first[i] == second[i];
    }
    if s.start <= q < s.end {
      assert (second + [s])[|second|] == s;
    }
  }

  /** One segment gives up, because of FIN, the range from the end of what is then held to FIN, if
      the guard of that branch holds, and nothing else. */
  lemma TakenLosesToFin(g: Standing, position: int, s: PendingSegment, policy: Policy, e: nat, q: int)
    requires (policy.fin.Some? <==> policy.finAt.Some?) && AllBeyond(g.held, g.next)
    requires g.next < position ==> EndsAt(HeldBack(g, position, s).held, e)
    ensures FinSkipped(Taken(g, position, s, policy).skips, q) <==>
            FinSkipped(g.skips, q) || (FinRunsOut(g, position, s, policy) && e <= q < Unwrap(policy.fin.value, e))
  {
    hide FinRunsOut, TimedOut, Relieved, FinExpired, CapacityExceeded, AllOverdue, EndsAt, Unwrap, FinSkipped, Keep;
    TakenGivesUpOnFin(g, position, s, policy);
    var h, none := Taken(g, position, s, policy), Skip(0, 0, Capacity);
    if position > g.next {
      var kept, now := HeldBack(g, position, s), s.context.timestamp;
      assert position in kept.held by { KeptIsHeld(g.held, position, s); }
      assert AllBeyond(kept.held, kept.next) by { KeptIsBeyond(g, position, s); }
      if CapacityExceeded(kept.held, policy.limits) {
        RelievedWalks(kept, policy.limits);
        OneMoreForFin(g.skips, h.skips, none, q);
      } else if !policy.deferred {
        var t := TimedOut(kept, now);
        TimedOutWalks(kept, now);
        TimedOutDrains(kept, now);
        FinExpiredSkips(t, policy, now);
        if h.skips == t.skips {
          OneMoreForFin(g.skips, t.skips, none, q);
        } else {
          var fin := h.skips[|t.skips|];
          assert fin.reason.FinTimeout?;
          OneMoreForFin(g.skips, t.skips, fin, q);
          EndIsUnique(kept.held, e, t.next);
        }
      }
    } else {
      OneMoreForFin(g.skips, h.skips, none, q);
    }
  }

  lemma KeptIsHeld(held: Held, k: nat, s: PendingSegment)
    ensures k in Keep(held, k, s)
  {
  }

  lemma KeptIsBeyond(g: Standing, k: nat, s: PendingSegment)
    requires AllBeyond(g.held, g.next) && g.next < k
    ensures AllBeyond(HeldBack(g, k, s).held, g.next)
  {
  }

  // All items.

  /** What is held after one more item beyond a gap ends where the items end. */
  lemma HeldEndsAtItems(g: Standing, items: seq<Item>, n: nat, d: int)
    requires n < |items| && Accounted(g, items, n, d) && AllBeyond(g.held, g.next) && items[n].position + d > g.next
    ensures EndsAt(HeldBack(g, items[n].position + d, items[n].segment).held, EndOf(items, n + 1, d))
  {
    hide Accounted, EndOf;
    var u, s := items[n].position + d, items[n].segment;
    var kept, e := HeldBack(g, u, s), EndOf(items, n + 1, d);
    AccountedHeldBack(g, items, n, d);
    KeptIsHeld(g.held, u, s);
    KeptIsBeyond(g, u, s);
    hide Keep, EndOfItem;
    AccountedEnds(kept, items, n + 1, d, u);
  }

  lemma AccountedEnds(g: Standing, items: seq<Item>, n: nat, d: int, u: nat)
    requires 0 < n <= |items| && Accounted(g, items, n, d) && AllBeyond(g.held, g.next) && u in g.held
    ensures EndsAt(g.held, EndOf(items, n, d))
  {
    hide EndOfItem;
    var e := EndOf(items, n, d);
    forall k | k in g.held ensures k + |g.held[k].data| <= e {
      assert IsEnd(items, n, d, k + |g.held[k].data|);
    }
    assert Reached(g, e);
    assert u + |g.held[u].data| <= e;
    var k :| k in g.held && e <= k + |g.held[k].data|;
  }

  /** At item `j` the range from the end of the items so far to FIN is given up, and `q` is in it. */
  ghost predicate GivenUpAt(start: nat, items: seq<Item>, d: int, j: nat, policy: Policy, q: int)
    requires j < |items|
  {
    && FinRunsOutAt(start, items, j, policy)
    && EndOf(items, j + 1, d) <= q < Unwrap(policy.fin.value, EndOf(items, j + 1, d))
  }

  ghost predicate GivenUp(start: nat, items: seq<Item>, n: nat, d: int, policy: Policy, q: int)
    requires n <= |items|
  {
    exists j :: 0 <= j < n && GivenUpAt(start, items, d, j, policy, q)
  }

  lemma GivenUpOneMore(start: nat, items: seq<Item>, n: nat, d: int, policy: Policy, q: int)
    requires n < |items|
    ensures GivenUp(start, items, n + 1, d, policy, q) <==>
            GivenUp(start, items, n, d, policy, q) || GivenUpAt(start, items, d, n, policy, q)
  {
    hide GivenUpAt;
    if GivenUpAt(start, items, d, n, policy, q) {
      assert GivenUp(start, items, n + 1, d, policy, q);
    }
  }

  /** Exactly what a commit gives up because of FIN: whenever the guard of that branch holds, the
      range from the end of everything taken in so far to FIN. */
  lemma {:induction false} LostBeforeFin(start: nat, items: seq<Item>, n: nat, policy: Policy, d: int, b: int,
                                         stream: Stream, shift: int)
    requires n <= |items| && (policy.fin.Some? <==> policy.finAt.Some?) && Placement(items, d, start, b, stream, shift)
    requires FinWithin(policy, start, b) || !GaveUpOnFin(TakenAll(start, items, n, policy).skips)
    ensures var g := TakenAll(start, items, n, policy);
            && Accounted(g, items, n, d)
            && forall q :: FinSkipped(g.skips, q) <==> GivenUp(start, items, n, d, policy, q)
  {
    hide Taken, Unwrap, FinWithin, Accounted, Placement, FinSkipped, GivenUp, GivenUpAt;
    if n > 0 {
      TakenAllNext(start, items, n - 1, policy);
      var f, item := TakenAll(start, items, n - 1, policy), items[n - 1];
      TakenAllGrows(start, items, n - 1, n, policy);
      SkipsOnlyGrow(f.skips, TakenAll(start, items, n, policy).skips);
      TakenAllReaches(start, items, n - 1, policy, d, b, stream, shift);
      LostBeforeFin(start, items, n - 1, policy, d, b, stream, shift);
      AccountedTaken(f, items, n - 1, d, policy);
      forall q ensures FinSkipped(Taken(f, item.position + d, item.segment, policy).skips, q) <==>
                       GivenUp(start, items, n, d, policy, q)
      {
        GivenUpOneMore(start, items, n - 1, d, policy, q);
        LostAtItem(start, items, n - 1, policy, d, q);
      }
    } else {
      NothingLostYet(start, items, policy, d);
    }
  }

  lemma NothingLostYet(start: nat, items: seq<Item>, policy: Policy, d: int)
    ensures var g := TakenAll(start, items, 0, policy);
            && Accounted(g, items, 0, d)
            && forall q :: !FinSkipped(g.skips, q) && !GivenUp(start, items, 0, d, policy, q)
  {
  }

  lemma LostAtItem(start: nat, items: seq<Item>, n: nat, policy: Policy, d: int, q: int)
    requires n < |items| && (policy.fin.Some? <==> policy.finAt.Some?)
    requires var g := TakenAll(start, items, n, policy);
             && Accounted(g, items, n, d) && AllBeyond(g.held, g.next)
             && Unwrap(items[n].position, g.next) == items[n].position + d
    ensures var g := TakenAll(start, items, n, policy);
            FinSkipped(Taken(g, items[n].position + d, items[n].segment, policy).skips, q) <==>
            FinSkipped(g.skips, q) || GivenUpAt(start, items, d, n, policy, q)
  {
    hide Taken, Unwrap, FinRunsOut, EndOf, Accounted, FinSkipped, TakenAll;
    var g, u := TakenAll(start, items, n, policy), items[n].position + d;
    if g.next < u {
      HeldEndsAtItems(g, items, n, d);
      TakenLosesToFin(g, u, items[n].segment, policy, EndOf(items, n + 1, d), q);
    } else {
      TakenLosesToFin(g, u, items[n].segment, policy, 0, q);
      NoFinBefore(g, u, items[n].segment, policy);
    }
  }

  lemma NoFinBefore(g: Standing, position: int, s: PendingSegment, policy: Policy)
    requires position <= g.next
    ensures !FinRunsOut(g, position, s, policy)
  {
  }

  /** The guard of giving up on FIN holds at item `j`, and a later item `i`, not empty, begins before
      FIN and ends beyond everything up to `j`. */
  ghost predicate PassesOver(start: nat, items: seq<Item>, d: int, j: nat, i: nat, policy: Policy)
    requires j < i < |items|
  {
    && FinRunsOutAt(start, items, j, policy) && policy.fin.Some?
    && var e := EndOf(items, j + 1, d);
    && items[i].position + d < Unwrap(policy.fin.value, e) && e < Unwrap(policy.fin.value, e)
    && e < EndOfItem(items[i], d) && 0 < |items[i].segment.data|
  }

  ghost predicate PassesOverSome(start: nat, items: seq<Item>, d: int, policy: Policy) {
    exists j, i :: 0 <= j < i < |items| && PassesOver(start, items, d, j, i, policy)
  }

  lemma PassedPosition(start: nat, items: seq<Item>, d: int, j: nat, i: nat, policy: Policy) returns (q: int)
    requires j < i < |items| && PassesOver(start, items, d, j, i, policy)
    ensures InItems(items, |items|, d, q) && GivenUpAt(start, items, d, j, policy, q)
  {
    hide FinRunsOutAt, EndOf, Unwrap;
    q := Max(EndOf(items, j + 1, d), items[i].position + d);
    assert InItem(items[i], d, q);
  }

  lemma PassingItem(start: nat, items: seq<Item>, d: int, j: nat, policy: Policy, q: int) returns (i: nat)
    requires j < |items| && InItems(items, |items|, d, q) && GivenUpAt(start, items, d, j, policy, q)
    ensures j < i < |items| && PassesOver(start, items, d, j, i, policy)
  {
    hide Unwrap;
    i :| 0 <= i < |items| && InItem(items[i], d, q);
  }

  /** A commit passes over a byte it was to take in if and only if, at one of its items, the guard of
      giving up on FIN holds while a later item has something between everything so far and FIN. */
  lemma LossToFin(start: nat, items: seq<Item>, policy: Policy, d: int, b: int, stream: Stream, shift: int)
    requires (policy.fin.Some? <==> policy.finAt.Some?) && Placement(items, d, start, b, stream, shift)
    requires FinWithin(policy, start, b) || !GaveUpOnFin(Committed(start, items, policy).skips)
    ensures (exists q :: InItems(items, |items|, d, q) && FinSkipped(Committed(start, items, policy).skips, q)) <==>
            PassesOverSome(start, items, d, policy)
  {
    hide PassesOver, GivenUpAt, FinWithin, Placement, InItems, FinSkipped, TakenAll, GaveUpOnFin, Accounted;
    var skips := Committed(start, items, policy).skips;
    LostBeforeFin(start, items, |items|, policy, d, b, stream, shift);
    if q :| InItems(items, |items|, d, q) && FinSkipped(skips, q) {
      var j :| 0 <= j < |items| && GivenUpAt(start, items, d, j, policy, q);
      var i := PassingItem(start, items, d, j, policy, q);
    }
    if PassesOverSome(start, items, d, policy) {
      var j, i :| 0 <= j < i < |items| && PassesOver(start, items, d, j, i, policy);
      var q := PassedPosition(start, items, d, j, i, policy);
    }
  }

  /** Nothing before the origin is ever given up. */
  lemma LostBeyondStart(start: nat, items: seq<Item>, policy: Policy, d: int, b: int, stream: Stream, shift: int,
                        q: int)
    requires (policy.fin.Some? <==> policy.finAt.Some?) && Placement(items, d, start, b, stream, shift)
    requires FinWithin(policy, start, b) || !GaveUpOnFin(Committed(start, items, policy).skips)
    requires FinSkipped(Committed(start, items, policy).skips, q)
    ensures start <= q
  {
    hide Unwrap, FinWithin, Placement, FinSkipped, GaveUpOnFin, TakenAll, Accounted, EndOf;
    LostBeforeFin(start, items, |items|, policy, d, b, stream, shift);
    var j :| 0 <= j < |items| && GivenUpAt(start, items, d, j, policy, q);
    TakenAllGrows(start, items, j, |items|, policy);
    SkipsOnlyGrow(TakenAll(start, items, j, policy).skips, Committed(start, items, policy).skips);
    TakenAllReaches(start, items, j, policy, d, b, stream, shift);
    assert EndOfItem(items[j], d) <= EndOf(items, j + 1, d);
  }

  /** What is held is placed: the segments are true, near each other and near the origin, and FIN's
      timer cannot run out over them or FIN lies near all of them. */
  ghost predicate Plausible(held: Held, reference: nat, stream: Stream, shift: int, start: nat, target: int,
                            policy: Policy)
    requires held != map[] && forall k :: k in held ==> k < TCP_SEQUENCE_MODULUS
  {
    && WindowOf(held, reference) && Congruent(shift, 0) && ProvisionalTrue(held, reference, stream, shift)
    && CredibleOf(held, reference, shift, start, target) && (policy.fin.Some? <==> policy.finAt.Some?)
    && (|| Prompt(held, policy)
        || FinNear(Ordered(held, reference), shift - LiftOf(held, reference) - target, start, policy))
  }

  lemma PlausibleIsPlaced(held: Held, reference: nat, stream: Stream, shift: int, start: nat, target: int,
                          policy: Policy) returns (b: int)
    requires held != map[] && forall k :: k in held ==> k < TCP_SEQUENCE_MODULUS
    requires Plausible(held, reference, stream, shift, start, target, policy)
    ensures var items, d := Ordered(held, reference), shift - LiftOf(held, reference) - target;
            && Placement(items, d, start, b, stream, target)
            && (FinWithin(policy, start, b) || !GaveUpOnFin(Committed(start, items, policy).skips))
  {
    hide Ordered, LiftOf, WindowOf, Congruent, ProvisionalTrue, CredibleOf, Placement, FinWithin, GaveUpOnFin,
        TakenAll, FinNear, Prompt;
    var items, d := Ordered(held, reference), shift - LiftOf(held, reference) - target;
    b := CredibleIsPlaced(held, reference, stream, shift, start, target);
    if Prompt(held, policy) {
      PromptKeepsFin(held, reference, start, policy);
    } else {
      b := FinIsPlaced(items, d, start, b, stream, target, policy);
    }
  }

  /** Stream position `p` was held before the origin was known, does not lie before it, and is given up
      because of FIN. */
  ghost predicate Lost(held: Held, reference: nat, shift: int, start: nat, target: int, skips: seq<Skip>, p: int) {
    start + target <= p && Provisional(held, reference, p - shift) && FinSkipped(skips, p - target)
  }

  ghost predicate AnyLost(held: Held, reference: nat, shift: int, start: nat, target: int, skips: seq<Skip>) {
    exists p :: Lost(held, reference, shift, start, target, skips, p)
  }

  /** The same for what was held before the origin was known, in stream positions: whether any of it
      from the origin on is passed over because of FIN. */
  lemma HeldLossToFin(held: Held, reference: nat, stream: Stream, shift: int, start: nat, target: int, policy: Policy)
    requires held != map[] && forall k :: k in held ==> k < TCP_SEQUENCE_MODULUS
    requires Plausible(held, reference, stream, shift, start, target, policy)
    ensures var items, d := Ordered(held, reference), shift - LiftOf(held, reference) - target;
            AnyLost(held, reference, shift, start, target, Committed(start, items, policy).skips) <==>
            PassesOverSome(start, items, d, policy)
  {
    hide Ordered, LiftOf, Placement, FinWithin, GaveUpOnFin, TakenAll, FinSkipped, PassesOverSome, Provisional,
        InItems, Plausible;
    var items, d := Ordered(held, reference), shift - LiftOf(held, reference) - target;
    var skips := Committed(start, items, policy).skips;
    PlausibleFin(held, reference, stream, shift, start, target, policy);
    var b := PlausibleIsPlaced(held, reference, stream, shift, start, target, policy);
    LossToFin(start, items, policy, d, b, stream, target);
    if q :| InItems(items, |items|, d, q) && FinSkipped(skips, q) {
      LostBeyondStart(start, items, policy, d, b, stream, target, q);
      CommitCovers(held, reference, shift, target, q + target);
      var p := q + target;
      assert p - target == q && Lost(held, reference, shift, start, target, skips, p);
    }
    if p :| Lost(held, reference, shift, start, target, skips, p) {
      CommitCovers(held, reference, shift, target, p);
      assert InItems(items, |items|, d, p - target);
    }
  }

  lemma PlausibleFin(held: Held, reference: nat, stream: Stream, shift: int, start: nat, target: int, policy: Policy)
    requires held != map[] && forall k :: k in held ==> k < TCP_SEQUENCE_MODULUS
    requires Plausible(held, reference, stream, shift, start, target, policy)
    ensures policy.fin.Some? <==> policy.finAt.Some?
  {
  }

  /** A commit from the earliest held byte passes over something held. */
  ghost predicate PassesOverEarliest(held: Held, reference: nat, policy: Policy)
    requires held != map[] && forall k :: k in held ==> k < TCP_SEQUENCE_MODULUS
  {
    PassesOverSome(Ordered(held, reference)[0].position, Ordered(held, reference), 0, policy)
  }

  ghost predicate SomeLostToFin(held: Held, reference: nat, policy: Policy)
    requires held != map[] && forall k :: k in held ==> k < TCP_SEQUENCE_MODULUS
  {
    exists r :: Provisional(held, reference, r) && LostToFin(held, reference, policy, r)
  }

  /** Something that was held is lost from the earliest origin exactly then. */
  lemma EarliestLossToFin(held: Held, reference: nat, stream: Stream, shift: int, policy: Policy)
    requires held != map[] && forall k :: k in held ==> k < TCP_SEQUENCE_MODULUS
    requires WindowOf(held, reference) && Congruent(shift, 0) && ProvisionalTrue(held, reference, stream, shift)
    requires (policy.fin.Some? <==> policy.finAt.Some?) && FinHarmless(held, reference, policy)
    ensures SomeLostToFin(held, reference, policy) <==> PassesOverEarliest(held, reference, policy)
  {
    hide Ordered, LiftOf, TakenAll, FinSkipped, PassesOverSome, Provisional, FinNear, Prompt, WindowOf, Congruent,
        ProvisionalTrue, CredibleOf;
    var start, lift := Ordered(held, reference)[0].position, LiftOf(held, reference);
    var target, skips := shift - lift, CommittedEarliest(held, reference, policy).skips;
    EarliestIsCredible(held, reference, shift);
    HeldLossToFin(held, reference, stream, shift, start, target, policy);
    if r :| Provisional(held, reference, r) && LostToFin(held, reference, policy, r) {
      EarliestIsFirst(held, reference, r);
      var p := r + shift;
      assert p - shift == r && p - target == r + lift;
      assert Lost(held, reference, shift, start, target, skips, p);
    }
    if p :| Lost(held, reference, shift, start, target, skips, p) {
      assert p - target == p - shift + lift;
      assert LostToFin(held, reference, policy, p - shift);
    }
  }

  /** A commit from the earliest held byte passes over nothing held: FIN's timer cannot run out over it,
      or FIN lies near all of it and the guard that loses something never holds. */
  ghost predicate Keeps(held: Held, reference: nat, policy: Policy) {
    || Prompt(held, policy)
    || (&& held != map[] && (forall k :: k in held ==> k < TCP_SEQUENCE_MODULUS)
        && FinHarmless(held, reference, policy) && !PassesOverEarliest(held, reference, policy))
  }

  /** Exactly then nothing held is lost. */
  lemma KeepsEverything(held: Held, reference: nat, stream: Stream, shift: int, policy: Policy)
    requires held != map[] && forall k :: k in held ==> k < TCP_SEQUENCE_MODULUS
    requires WindowOf(held, reference) && Congruent(shift, 0) && ProvisionalTrue(held, reference, stream, shift)
    requires (policy.fin.Some? <==> policy.finAt.Some?) && FinHarmless(held, reference, policy)
    ensures Keeps(held, reference, policy) <==> !SomeLostToFin(held, reference, policy)
  {
    hide LostToFin, PassesOverEarliest, FinHarmless, Prompt, WindowOf, ProvisionalTrue;
    EarliestLossToFin(held, reference, stream, shift, policy);
    if Prompt(held, policy) {
      PromptLosesNothing(held, reference, policy);
    }
  }

  // When a commit gives up a gap at all.

  /** The segment lies beyond a gap, and with it a limit is exceeded or, unless arrivals leave the
      timers alone, the gap timer has run out. */
  predicate GapRunsOut(g: Standing, position: int, s: PendingSegment, policy: Policy) {
    && g.next < position
    && var kept := HeldBack(g, position, s);
       || CapacityExceeded(kept.held, policy.limits)
       || (!policy.deferred && RunOut(kept.timer, s.context.timestamp))
  }

  predicate GapRunsOutAt(start: nat, items: seq<Item>, j: nat, policy: Policy)
    requires j < |items|
  {
    var g := TakenAll(start, items, j, policy);
    GapRunsOut(g, Unwrap(items[j].position, g.next), items[j].segment, policy)
  }

  /** Exactly then one segment makes the stream give up something. */
  lemma TakenGivesUp(g: Standing, position: int, s: PendingSegment, policy: Policy)
    requires (policy.fin.Some? <==> policy.finAt.Some?) && AllBeyond(g.held, g.next)
    ensures g.skips <= Taken(g, position, s, policy).skips
    ensures Taken(g, position, s, policy).skips != g.skips <==> GapRunsOut(g, position, s, policy)
  {
    hide TimedOut, Relieved, Resumed, FinExpired, CapacityExceeded, Unwrap, Keep;
    if position > g.next {
      var kept, now := HeldBack(g, position, s), s.context.timestamp;
      assert position in kept.held by { KeptIsHeld(g.held, position, s); }
      assert AllBeyond(kept.held, kept.next) by { KeptIsBeyond(g, position, s); }
      if CapacityExceeded(kept.held, policy.limits) {
        RelievedGivesUp(kept, policy.limits);
      } else if !policy.deferred {
        TimedOutGivesUp(kept, now);
        FinExpiredSkips(TimedOut(kept, now), policy, now);
      }
    }
  }

  lemma RelievedGivesUp(g: Standing, limits: Limits)
    requires AllBeyond(g.held, g.next) && CapacityExceeded(g.held, limits)
    ensures |g.skips| < |Relieved(g, limits).skips| && g.skips <= Relieved(g, limits).skips
  {
    hide CapacityExceeded, Resumed;
    EmptyFits(limits);
    ResumedPasses(g, Capacity);
    RelievedWalks(Resumed(g, Capacity), limits);
  }

  lemma TimedOutGivesUp(g: Standing, now: real)
    requires AllBeyond(g.held, g.next) && g.held != map[]
    ensures g.skips <= TimedOut(g, now).skips
    ensures if RunOut(g.timer, now) then |g.skips| < |TimedOut(g, now).skips|
            else TimedOut(g, now) == g
    ensures TimedOut(g, now).held == map[] ==> TimedOut(g, now).timer.None?
  {
    hide Resumed;
    TimedOutWalks(g, now);
    if RunOut(g.timer, now) {
      var h := Resumed(g, Timeout(now, g.timer.value));
      ResumedPasses(g, Timeout(now, g.timer.value));
      TimedOutWalks(h, now);
    }
  }

  /** A commit gives up nothing if and only if that guard holds at none of its items. */
  lemma {:induction false} CommitGivesUpNothing(start: nat, items: seq<Item>, n: nat, policy: Policy)
    requires n <= |items| && (policy.fin.Some? <==> policy.finAt.Some?)
    ensures TakenAll(start, items, n, policy).skips == [] <==>
            forall j :: 0 <= j < n ==> !GapRunsOutAt(start, items, j, policy)
  {
    hide Taken, Unwrap, GapRunsOut;
    if n > 0 {
      var f, s := TakenAll(start, items, n - 1, policy), items[n - 1].segment;
      CommitGivesUpNothing(start, items, n - 1, policy);
      TakenAllSteps(start, items, n - 1, policy);
      TakenAllNext(start, items, n - 1, policy);
      TakenGivesUp(f, Unwrap(items[n - 1].position, f.next), s, policy);
      assert GapRunsOutAt(start, items, n - 1, policy) ==
             GapRunsOut(f, Unwrap(items[n - 1].position, f.next), s, policy);
    }
  }
}
