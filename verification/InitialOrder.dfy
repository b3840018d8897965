// The order in which segments held before the stream's origin was known are committed.
module InitialOrder {
  import opened Wire
  import opened SequenceNumbers
  import opened ReceivedSet
  import opened Holding

  /** Absolute positions for segments held before the origin is known: nearest to the first one
      received, lifted by one modulus when that would go negative. */
  function LiftOf(unanchored: Held, reference: nat): (lift: nat)
    ensures lift == 0 || lift == TCP_SEQUENCE_MODULUS
  {
    if exists k | k in unanchored :: Unwrap(k, reference) < 0 then TCP_SEQUENCE_MODULUS else 0
  }

  function Placed(k: nat, reference: nat, lift: nat): int {
    Unwrap(k, reference) + lift
  }

  lemma PlacedIsInjective(j: nat, k: nat, reference: nat, lift: nat)
    requires j < TCP_SEQUENCE_MODULUS && k < TCP_SEQUENCE_MODULUS
    requires Placed(j, reference, lift) == Placed(k, reference, lift)
    ensures j == k
  {
    UnwrapIsNearest(j, reference);
    UnwrapIsNearest(k, reference);
    CongruentTransitive(Unwrap(j, reference), j, j);
    CongruentTransitive(j, Unwrap(k, reference), k);
    CongruentRaw(j, k);
  }

  ghost predicate Liftable(unanchored: Held, reference: nat, lift: nat) {
    forall k :: k in unanchored ==> k < TCP_SEQUENCE_MODULUS && Placed(k, reference, lift) >= 0
  }

  lemma LiftIsEnough(unanchored: Held, reference: nat)
    requires forall k :: k in unanchored ==> k < TCP_SEQUENCE_MODULUS
    ensures Liftable(unanchored, reference, LiftOf(unanchored, reference))
  {
    forall k | k in unanchored ensures Placed(k, reference, LiftOf(unanchored, reference)) >= 0 {
      UnwrapIsNearest(k, reference);
    }
  }

  function Place(unanchored: Held, reference: nat, lift: nat): (placed: Held)
    requires Liftable(unanchored, reference, lift)
    ensures unanchored != map[] ==> placed != map[]
    decreases |unanchored|
  {
    if unanchored == map[] then map[]
    else
      var k := MinKey(unanchored);
      Smaller(unanchored, k);
      Place(unanchored - {k}, reference, lift)[Placed(k, reference, lift) := unanchored[k]]
  }

  lemma {:induction false} PlaceKeeps(unanchored: Held, reference: nat, lift: nat, k: nat)
    requires Liftable(unanchored, reference, lift) && k in unanchored
    ensures var p := Placed(k, reference, lift);
            p in Place(unanchored, reference, lift) && Place(unanchored, reference, lift)[p] == unanchored[k]
    decreases |unanchored|
  {
    var m := MinKey(unanchored);
    if k != m {
      Smaller(unanchored, m);
      PlaceKeeps(unanchored - {m}, reference, lift, k);
      if Placed(k, reference, lift) == Placed(m, reference, lift) {
        PlacedIsInjective(k, m, reference, lift);
      }
    }
  }

  lemma {:induction false} PlaceInvents(unanchored: Held, reference: nat, lift: nat, p: nat) returns (k: nat)
    requires Liftable(unanchored, reference, lift) && p in Place(unanchored, reference, lift)
    ensures k in unanchored && p == Placed(k, reference, lift) && Place(unanchored, reference, lift)[p] == unanchored[k]
    decreases |unanchored|
  {
    var m := MinKey(unanchored);
    if p == Placed(m, reference, lift) {
      k := m;
    } else {
      Smaller(unanchored, m);
      k := PlaceInvents(unanchored - {m}, reference, lift, p);
    }
  }

  function Ordered(unanchored: Held, reference: nat): (items: seq<Item>)
    requires forall k :: k in unanchored ==> k < TCP_SEQUENCE_MODULUS
    ensures unanchored != map[] ==> items != []
  {
    LiftIsEnough(unanchored, reference);
    SortedItems(Place(unanchored, reference, LiftOf(unanchored, reference)))
  }

  /** How many bytes the items have together. */
  function Lengths(items: seq<Item>): (n: nat) {
    if items == [] then 0 else Lengths(items[..|items| - 1]) + |items[|items| - 1].segment.data|
  }

  lemma {:induction false} LengthsSplit(first: Item, rest: seq<Item>)
    ensures Lengths([first] + rest) == |first.segment.data| + Lengths(rest)
  {
    var items := [first] + rest;
    if rest != [] {
      LengthsSplit(first, rest[..|rest| - 1]);
      assert items[..|items| - 1] == [first] + rest[..|rest| - 1];
    }
  }

  lemma {:induction false} SortedLengths(held: Held)
    ensures Lengths(SortedItems(held)) == TotalBytes(held)
    decreases |held|
  {
    if held != map[] {
      var k := MinKey(held);
      Smaller(held, k);
      SortedLengths(held - {k});
      LengthsSplit(Item(k, held[k]), SortedItems(held - {k}));
    }
  }

  lemma {:induction false} PlaceMeasures(unanchored: Held, reference: nat, lift: nat)
    requires Liftable(unanchored, reference, lift)
    ensures var placed := Place(unanchored, reference, lift);
            |placed| == |unanchored| && TotalBytes(placed) == TotalBytes(unanchored)
    decreases |unanchored|
  {
    if unanchored != map[] {
      var k := MinKey(unanchored);
      Smaller(unanchored, k);
      var rest := unanchored - {k};
      PlaceMeasures(rest, reference, lift);
      var p, others, placed :=
        Placed(k, reference, lift), Place(rest, reference, lift), Place(unanchored, reference, lift);
      if p in others {
        var j := PlaceInvents(rest, reference, lift, p);
        PlacedIsInjective(j, k, reference, lift);
        assert false;
      }
      assert placed - {p} == others && rest.Keys == unanchored.Keys - {k} && placed.Keys == others.Keys + {p};
      TotalWithout(placed, p);
    }
  }

  /** As many items as held segments, and as many bytes. */
  lemma OrderedMeasures(unanchored: Held, reference: nat)
    requires forall k :: k in unanchored ==> k < TCP_SEQUENCE_MODULUS
    ensures var items := Ordered(unanchored, reference);
            |items| == |unanchored| && Lengths(items) == TotalBytes(unanchored)
  {
    LiftIsEnough(unanchored, reference);
    var lift := LiftOf(unanchored, reference);
    PlaceMeasures(unanchored, reference, lift);
    SortedLengths(Place(unanchored, reference, lift));
  }

  lemma OrderedIsAscending(unanchored: Held, reference: nat)
    requires forall k :: k in unanchored ==> k < TCP_SEQUENCE_MODULUS
    ensures Ascending(Ordered(unanchored, reference))
  {
    LiftIsEnough(unanchored, reference);
    SortedItemsAreHeld(Place(unanchored, reference, LiftOf(unanchored, reference)));
  }

  lemma OrderedInvents(unanchored: Held, reference: nat, i: nat) returns (k: nat)
    requires forall k :: k in unanchored ==> k < TCP_SEQUENCE_MODULUS
    requires i < |Ordered(unanchored, reference)|
    ensures k in unanchored
    ensures Ordered(unanchored, reference)[i] ==
            Item(Placed(k, reference, LiftOf(unanchored, reference)), unanchored[k])
  {
    LiftIsEnough(unanchored, reference);
    var lift := LiftOf(unanchored, reference);
    SortedItemsAreHeld(Place(unanchored, reference, lift));
    k := PlaceInvents(unanchored, reference, lift, Ordered(unanchored, reference)[i].position);
  }

  lemma OrderedKeeps(unanchored: Held, reference: nat, k: nat) returns (i: nat)
    requires forall k :: k in unanchored ==> k < TCP_SEQUENCE_MODULUS
    requires k in unanchored
    ensures i < |Ordered(unanchored, reference)|
    ensures Ordered(unanchored, reference)[i] ==
            Item(Placed(k, reference, LiftOf(unanchored, reference)), unanchored[k])
  {
    LiftIsEnough(unanchored, reference);
    var lift := LiftOf(unanchored, reference);
    var placed := Place(unanchored, reference, lift);
    PlaceKeeps(unanchored, reference, lift, k);
    SortedItemsAreHeld(placed);
    SortedItemsAreAll(placed, Placed(k, reference, lift));
    var items := SortedItems(placed);
    i :| 0 <= i < |items| && items[i].position == Placed(k, reference, lift);
  }

  /** Position `q` lies in one of the first `n` items moved by `d`. */
  ghost predicate InItems(items: seq<Item>, n: nat, d: int, q: int)
    requires n <= |items|
  {
    exists j :: 0 <= j < n && InItem(items[j], d, q)
  }

  ghost predicate InItem(item: Item, d: int, q: int) {
    item.position + d <= q < item.position + d + |item.segment.data|
  }

  lemma NoItems(items: seq<Item>, d: int)
    ensures forall q :: !InItems(items, 0, d, q)
  {
  }

  lemma InItemsStep(items: seq<Item>, n: nat, d: int, q: int)
    requires n < |items|
    ensures InItems(items, n + 1, d, q) <==> InItems(items, n, d, q) || InItem(items[n], d, q)
  {
    if InItem(items[n], d, q) {
      assert InItems(items, n + 1, d, q);
    }
  }

  /** A window narrower than half the sequence space has one bound near every item in it. */
  lemma {:induction false} WindowBound(items: seq<Item>, d: int, start: int, n: nat) returns (b: int)
    requires n <= |items|
    requires forall j, k :: 0 <= j < |items| && 0 <= k < |items| ==>
               items[j].position + |items[j].segment.data| - items[k].position < TCP_SEQUENCE_HALF_RANGE
    requires forall k :: 0 <= k < |items| ==> start - (items[k].position + d) < TCP_SEQUENCE_HALF_RANGE
    ensures start <= b
    ensures b == start || exists k :: 0 <= k < n && b == items[k].position + d + |items[k].segment.data|
    ensures forall k :: 0 <= k < n ==> items[k].position + d + |items[k].segment.data| <= b
    ensures forall k :: 0 <= k < |items| ==> b - (items[k].position + d) < TCP_SEQUENCE_HALF_RANGE
  {
    if n == 0 {
      b := start;
    } else {
      b := WindowBound(items, d, start, n - 1);
      var end := items[n - 1].position + d + |items[n - 1].segment.data|;
      b := Max(b, end);
    }
  }

  /** Items moved by `d` are true pieces of the stream near `start`, and end by `b`. */
  ghost predicate Placement(items: seq<Item>, d: int, start: nat, b: int, stream: Stream, shift: int) {
    && Ascending(items) && Congruent(d, 0) && start <= b
    && forall k :: 0 <= k < |items| ==> PlacedTrue(items[k], d, start, b, stream, shift)
  }

  ghost predicate PlacedTrue(item: Item, d: int, start: nat, b: int, stream: Stream, shift: int) {
    var u := item.position + d;
    && On(stream, shift + u, item.segment.data)
    && u + |item.segment.data| <= b && b - u < TCP_SEQUENCE_HALF_RANGE
    && u + |item.segment.data| - start < TCP_SEQUENCE_HALF_RANGE
  }

  /** From anywhere between the start and the bound an item's own sequence number leads back to it. */
  lemma PlacedUnwraps(item: Item, d: int, start: nat, b: int, stream: Stream, shift: int, next: nat)
    requires PlacedTrue(item, d, start, b, stream, shift) && Congruent(d, 0) && start <= next <= b
    ensures Unwrap(item.position, next) == item.position + d
  {
    CongruentShift(d, 0, item.position);
    UnwrapRecovers(item.position, next, item.position + d);
  }

  /** The committed items cover exactly what was held. */
  lemma OrderedCovers(unanchored: Held, reference: nat, r: int)
    requires forall k :: k in unanchored ==> k < TCP_SEQUENCE_MODULUS
    ensures var items := Ordered(unanchored, reference);
            InItems(items, |items|, 0 - LiftOf(unanchored, reference), r) <==>
            exists k :: k in unanchored && Unwrap(k, reference) <= r < Unwrap(k, reference) + |unanchored[k].data|
  {
    var items, back := Ordered(unanchored, reference), 0 - LiftOf(unanchored, reference);
    if InItems(items, |items|, back, r) {
      var j :| 0 <= j < |items| && InItem(items[j], back, r);
      var k := OrderedInvents(unanchored, reference, j);
    }
    if k :| k in unanchored && Unwrap(k, reference) <= r < Unwrap(k, reference) + |unanchored[k].data| {
      var i := OrderedKeeps(unanchored, reference, k);
      assert InItem(items[i], back, r);
    }
  }

  lemma InItemsMoved(items: seq<Item>, n: nat, d: int, e: int, q: int)
    requires n <= |items|
    ensures InItems(items, n, d, q) <==> InItems(items, n, d + e, q + e)
  {
    if InItems(items, n, d, q) {
      var j :| 0 <= j < n && InItem(items[j], d, q);
      assert InItem(items[j], d + e, q + e);
    }
    if InItems(items, n, d + e, q + e) {
      var j :| 0 <= j < n && InItem(items[j], d + e, q + e);
      assert InItem(items[j], d, q);
    }
  }

  /** Of the first `n` items, what is not before the origin has been received, up to what was given
      up because of FIN. */
  ghost predicate TakenIn(due: iset<nat>, skips: seq<Skip>, items: seq<Item>, n: nat, d: int, start: nat)
    requires n <= |items|
  {
    && (forall q: nat :: q in due ==> start <= q && InItems(items, n, d, q))
    && (forall q: nat :: start <= q && InItems(items, n, d, q) && !FinSkipped(skips, q) ==> q in due)
  }

  /** Taking in one more item: whatever of it was already passed had been received before. */
  lemma DueAfterItem(l: Ledger, stream: Stream, shift: int, items: seq<Item>, n: nat, d: int, top: int)
    requires Sound(l, stream, shift, l.next) && n < |items| && SkipsEndBy(l.skips, top)
    requires top <= items[n].position + d
    requires TakenIn(l.due, l.skips, items, n, d, l.anchor)
    ensures var u := items[n].position + d;
            TakenIn(l.due + Range(Max(u, l.next), u + |items[n].segment.data|), l.skips, items, n + 1, d, l.anchor)
  {
    var u := items[n].position + d;
    var due := l.due + Range(Max(u, l.next), u + |items[n].segment.data|);
    forall q: nat ensures q in due ==> l.anchor <= q && InItems(items, n + 1, d, q) {
      InItemsStep(items, n, d, q);
    }
    forall q: nat | l.anchor <= q && InItems(items, n + 1, d, q) && !FinSkipped(l.skips, q) ensures q in due {
      InItemsStep(items, n, d, q);
      if InItem(items[n], d, q) && q < l.next {
        PassedBeyondSkips(l, stream, shift, top, q);
      }
    }
  }

  /** Further skips take nothing away from what was taken in. */
  lemma TakenInStays(due: iset<nat>, skips: seq<Skip>, more: seq<Skip>, items: seq<Item>, n: nat, d: int, start: nat)
    requires n <= |items| && skips <= more && TakenIn(due, skips, items, n, d, start)
    ensures TakenIn(due, more, items, n, d, start)
  {
    SkipsOnlyGrow(skips, more);
  }

  /** With sound books that is exact: what was given up because of FIN has not been received. */
  lemma TakenInExactly(l: Ledger, stream: Stream, shift: int, items: seq<Item>, n: nat, d: int)
    requires Sound(l, stream, shift, l.next) && n <= |items| && TakenIn(l.due, l.skips, items, n, d, l.anchor)
    ensures forall q: nat :: q in l.due <==> l.anchor <= q && InItems(items, n, d, q) && !FinSkipped(l.skips, q)
  {
    forall q: nat ensures FinSkipped(l.skips, q) ==> q !in l.due {
      assert FinSkipped(l.skips, q) ==> Skipped(l.skips, q);
    }
  }

  /** The span of everything held before the origin is known stays under half the sequence space. */
  ghost predicate WindowOf(unanchored: Held, reference: nat) {
    forall j, k :: j in unanchored && k in unanchored ==>
      Unwrap(j, reference) + |unanchored[j].data| - Unwrap(k, reference) < TCP_SEQUENCE_HALF_RANGE
  }

  /** Stream position `start + newShift` is near a held segment. */
  ghost predicate NearStart(k: nat, length: nat, reference: nat, shift: int, start: nat, newShift: int) {
    var u := shift + Unwrap(k, reference) - newShift;
    u + length - start < TCP_SEQUENCE_HALF_RANGE && start - u < TCP_SEQUENCE_HALF_RANGE
  }

  /** The items of a commit, moved from where the first segment counts them to where `target` does. */
  lemma CommitCovers(unanchored: Held, reference: nat, shift: int, target: int, p: int)
    requires forall k :: k in unanchored ==> k < TCP_SEQUENCE_MODULUS
    ensures var items := Ordered(unanchored, reference);
            InItems(items, |items|, shift - LiftOf(unanchored, reference) - target, p - target) <==>
            Provisional(unanchored, reference, p - shift)
  {
    hide Unwrap, Ordered, InItems, LiftOf;
    var items, lift := Ordered(unanchored, reference), LiftOf(unanchored, reference);
    OrderedCovers(unanchored, reference, p - shift);
    InItemsMoved(items, |items|, -(lift as int), shift - target, p - shift);
  }

  /** Every provisionally held position lies at or beyond the earliest item's. */
  lemma EarliestIsFirst(unanchored: Held, reference: nat, r: int)
    requires forall k :: k in unanchored ==> k < TCP_SEQUENCE_MODULUS
    requires Provisional(unanchored, reference, r)
    ensures Ordered(unanchored, reference)[0].position - LiftOf(unanchored, reference) <= r
  {
    var k :| k in unanchored && Unwrap(k, reference) <= r < Unwrap(k, reference) + |unanchored[k].data|;
    hide Unwrap, Ordered;
    OrderedIsAscending(unanchored, reference);
    var i := OrderedKeeps(unanchored, reference, k);
    assert Ordered(unanchored, reference)[0].position <= Ordered(unanchored, reference)[i].position;
  }

  /** `start` names the stream position `start + newShift`, near everything held provisionally. */
  ghost predicate CredibleOf(unanchored: Held, reference: nat, shift: int, start: nat, newShift: int) {
    Congruent(newShift, 0) && forall k :: k in unanchored ==>
      NearStart(k, |unanchored[k].data|, reference, shift, start, newShift)
  }

  ghost predicate ProvisionalTrue(unanchored: Held, reference: nat, stream: Stream, shift: int) {
    forall k :: k in unanchored ==> On(stream, shift + Unwrap(k, reference), unanchored[k].data)
  }

  /** The earliest held byte is a credible origin for everything held. */
  lemma EarliestIsCredible(unanchored: Held, reference: nat, shift: int)
    requires forall k :: k in unanchored ==> k < TCP_SEQUENCE_MODULUS
    requires unanchored != map[] && WindowOf(unanchored, reference) && Congruent(shift, 0)
    ensures CredibleOf(unanchored, reference, shift, Ordered(unanchored, reference)[0].position,
                shift - LiftOf(unanchored, reference))
  {
    hide Unwrap, Ordered;
    var lift := LiftOf(unanchored, reference);
    var items := Ordered(unanchored, reference);
    OrderedIsAscending(unanchored, reference);
    var k0 := OrderedInvents(unanchored, reference, 0);
    MultiplesAreCongruent(shift - lift, 0, shift / TCP_SEQUENCE_MODULUS - if lift == 0 then 0 else 1);
    forall k | k in unanchored
      ensures NearStart(k, |unanchored[k].data|, reference, shift, items[0].position, shift - lift)
    {
      var i := OrderedKeeps(unanchored, reference, k);
      assert items[0].position <= items[i].position;
    }
  }

  lemma ItemIsNear(unanchored: Held, reference: nat, stream: Stream, shift: int, start: nat, target: int, j: nat)
    requires forall k :: k in unanchored ==> k < TCP_SEQUENCE_MODULUS
    requires CredibleOf(unanchored, reference, shift, start, target)
    requires ProvisionalTrue(unanchored, reference, stream, shift)
    requires j < |Ordered(unanchored, reference)|
    ensures var item, u := Ordered(unanchored, reference)[j],
              Ordered(unanchored, reference)[j].position + (shift - LiftOf(unanchored, reference) - target);
            && start - u < TCP_SEQUENCE_HALF_RANGE && u + |item.segment.data| - start < TCP_SEQUENCE_HALF_RANGE
            && On(stream, target + u, item.segment.data)
  {
    hide Unwrap, Ordered, On;
    var k := OrderedInvents(unanchored, reference, j);
    assert NearStart(k, |unanchored[k].data|, reference, shift, start, target);
    var u := Ordered(unanchored, reference)[j].position + (shift - LiftOf(unanchored, reference) - target);
    assert target + u == shift + Unwrap(k, reference);
  }

  lemma ItemsAreNarrow(unanchored: Held, reference: nat, j: nat, k: nat)
    requires forall k :: k in unanchored ==> k < TCP_SEQUENCE_MODULUS
    requires WindowOf(unanchored, reference)
    requires j < |Ordered(unanchored, reference)| && k < |Ordered(unanchored, reference)|
    ensures var items := Ordered(unanchored, reference);
            items[j].position + |items[j].segment.data| - items[k].position < TCP_SEQUENCE_HALF_RANGE
  {
    hide Unwrap, Ordered;
    var x := OrderedInvents(unanchored, reference, j);
    var y := OrderedInvents(unanchored, reference, k);
  }

  lemma LiftedIsCongruent(shift: int, lift: nat, target: int)
    requires Congruent(shift, 0) && Congruent(target, 0) && (lift == 0 || lift == TCP_SEQUENCE_MODULUS)
    ensures Congruent(shift - lift - target, 0)
  {
    var m := TCP_SEQUENCE_MODULUS;
    MultiplesAreCongruent(shift - lift - target, 0, shift / m - target / m - if lift == 0 then 0 else 1);
  }

  lemma CredibleIsPlaced(unanchored: Held, reference: nat, stream: Stream, shift: int, start: nat, target: int)
    returns (b: int)
    requires forall k :: k in unanchored ==> k < TCP_SEQUENCE_MODULUS
    requires unanchored != map[] && WindowOf(unanchored, reference) && Congruent(shift, 0)
    requires CredibleOf(unanchored, reference, shift, start, target)
    requires ProvisionalTrue(unanchored, reference, stream, shift)
    ensures Placement(Ordered(unanchored, reference), shift - LiftOf(unanchored, reference) - target, start, b,
                stream, target)
  {
    var lift := LiftOf(unanchored, reference);
    var items, d := Ordered(unanchored, reference), shift - lift - target;
    OrderedIsAscending(unanchored, reference);
    LiftedIsCongruent(shift, lift, target);
    hide Ordered, LiftOf, Congruent, WindowOf, CredibleOf, ProvisionalTrue, On, Ascending, Placement;
    forall j | 0 <= j < |items| ensures TrueNear(items[j], d, start, stream, target) {
      ItemIsNear(unanchored, reference, stream, shift, start, target, j);
    }
    forall j, k | 0 <= j < |items| && 0 <= k < |items| ensures Narrow(items[j], items[k]) {
      ItemsAreNarrow(unanchored, reference, j, k);
    }
    b := NearIsPlaced(items, d, start, stream, target);
  }

  ghost predicate TrueNear(item: Item, d: int, start: int, stream: Stream, shift: int) {
    var u := item.position + d;
    && On(stream, shift + u, item.segment.data)
    && start - u < TCP_SEQUENCE_HALF_RANGE && u + |item.segment.data| - start < TCP_SEQUENCE_HALF_RANGE
  }

  predicate Narrow(j: Item, k: Item) {
    j.position + |j.segment.data| - k.position < TCP_SEQUENCE_HALF_RANGE
  }

  lemma NearIsPlaced(items: seq<Item>, d: int, start: nat, stream: Stream, shift: int) returns (b: int)
    requires Ascending(items) && Congruent(d, 0)
    requires forall j :: 0 <= j < |items| ==> TrueNear(items[j], d, start, stream, shift)
    requires forall j, k :: 0 <= j < |items| && 0 <= k < |items| ==> Narrow(items[j], items[k])
    ensures Placement(items, d, start, b, stream, shift)
  {
    hide On, Congruent;
    b := WindowBound(items, d, start, |items|);
  }

  /** Position `r`, counted like the first segment's own sequence number, is held. */
  ghost predicate Provisional(unanchored: Held, reference: nat, r: int) {
    exists k :: k in unanchored && Unwrap(k, reference) <= r < Unwrap(k, reference) + |unanchored[k].data|
  }

  /** A segment at `u` lies within half the sequence space of everything held. */
  ghost predicate FitsWindow(unanchored: Held, reference: nat, u: int, length: nat) {
    length < TCP_SEQUENCE_HALF_RANGE &&
    forall k :: k in unanchored ==>
      && u + length - Unwrap(k, reference) < TCP_SEQUENCE_HALF_RANGE
      && Unwrap(k, reference) + |unanchored[k].data| - u < TCP_SEQUENCE_HALF_RANGE
  }

  /** A true segment that fits the window keeps everything held true and narrow, and adds exactly
      its own positions. */
  lemma KeepProvisional(unanchored: Held, reference: nat, stream: Stream, shift: int, k: nat, s: PendingSegment, u: int)
    requires WindowOf(unanchored, reference) && ProvisionalTrue(unanchored, reference, stream, shift)
    requires FitsWindow(unanchored, reference, u, |s.data|) && Unwrap(k, reference) == u
    requires On(stream, shift + u, s.data)
    ensures var kept := Keep(unanchored, k, s);
            && WindowOf(kept, reference) && ProvisionalTrue(kept, reference, stream, shift)
            && forall r :: Provisional(kept, reference, r) <==>
                 Provisional(unanchored, reference, r) || u <= r < u + |s.data|
  {
    hide Unwrap, On;
    var kept := Keep(unanchored, k, s);
    forall r
      ensures Provisional(kept, reference, r) <==> Provisional(unanchored, reference, r) || u <= r < u + |s.data|
    {
      if j :| j in unanchored && Unwrap(j, reference) <= r < Unwrap(j, reference) + |unanchored[j].data| {
        assert j in kept && |unanchored[j].data| <= |kept[j].data|;
      }
      if u <= r < u + |s.data| {
        assert k in kept && |s.data| <= |kept[k].data|;
      }
    }
  }

  /** Where an arrival that fits the window is placed. */
  lemma ArrivalUnwraps(unanchored: Held, reference: nat, shift: int, sequence: int, at: int, length: nat)
    requires reference in unanchored && reference < TCP_SEQUENCE_MODULUS
    requires Congruent(at, sequence) && Congruent(shift, 0) && length > 0 && |unanchored[reference].data| > 0
    requires FitsWindow(unanchored, reference, at - shift, length)
    ensures Unwrap(Raw(sequence), reference) == at - shift
  {
    UnwrapRecovers(reference, reference, reference);
    RawIsCongruent(sequence);
    CongruentTransitive(Raw(sequence), sequence, sequence);
    var m := TCP_SEQUENCE_MODULUS;
    assert Congruent(at - shift, Raw(sequence)) by {
      CongruentTransitive(at, sequence, Raw(sequence));
      MultiplesAreCongruent(at - shift, at, -(shift / m));
      CongruentTransitive(at - shift, at, Raw(sequence));
    }
    UnwrapRecovers(Raw(sequence), reference, at - shift);
  }

  /** The bytes contiguous from `cursor` on, as the items come, but at most `room` of them: what a
      scanner is asked about when the origin is still unknown. */
  function Probe(items: seq<Item>, cursor: int, room: nat): (probe: Bytes)
    ensures |probe| <= room
  {
    if items == [] || items[0].position > cursor then []
    else
      var added := Beyond(items[0], cursor);
      if |added| > room then added[..room] else added + Probe(items[1..], cursor + |added|, room - |added|)
  }

  /** What an item that starts at or before `cursor` has from there on. */
  function Beyond(item: Item, cursor: int): (rest: Bytes)
    requires item.position <= cursor
  {
    if cursor - item.position >= |item.segment.data| then [] else item.segment.data[cursor - item.position..]
  }

  lemma BeyondIsTrue(item: Item, cursor: int, stream: Stream, shift: int)
    requires item.position <= cursor && On(stream, shift + item.position, item.segment.data)
    ensures On(stream, shift + cursor, Beyond(item, cursor))
  {
  }

  lemma OnJoin(stream: Stream, at: int, a: Bytes, b: Bytes)
    requires On(stream, at, a) && On(stream, at + |a|, b)
    ensures On(stream, at, a + b)
  {
  }

  /** What the scanner is asked about for these items. */
  function ProbeOf(ordered: seq<Item>, limit: nat): (probe: Bytes)
    requires ordered != []
    ensures |probe| <= limit
  {
    Probe(ordered, ordered[0].position, limit)
  }

  lemma {:induction false} NoProbe(items: seq<Item>, cursor: int)
    ensures Probe(items, cursor, 0) == []
  {
    if items != [] && items[0].position <= cursor && Beyond(items[0], cursor) == [] {
      NoProbe(items[1..], cursor);
    }
  }

  lemma ProbeGrows(probe: Bytes, more: Bytes, items: seq<Item>, cursor: int, limit: nat)
    requires |probe| + |more| <= limit
    ensures probe + more + Probe(items, cursor, limit - |probe + more|) ==
            probe + (more + Probe(items, cursor, limit - |probe| - |more|))
  {
  }

  lemma InItemsFirst(items: seq<Item>, q: int)
    requires items != []
    ensures InItems(items, |items|, 0, q) <==> InItem(items[0], 0, q) || InItems(items[1..], |items| - 1, 0, q)
  {
    if j :| 0 <= j < |items| && InItem(items[j], 0, q) {
      assert j > 0 ==> InItem(items[1..][j - 1], 0, q);
    }
    if j :| 0 <= j < |items| - 1 && InItem(items[1..][j], 0, q) {
      assert InItem(items[j + 1], 0, q);
    }
  }

  ghost predicate TrueItems(items: seq<Item>, stream: Stream, shift: int) {
    forall j :: 0 <= j < |items| ==> On(stream, shift + items[j].position, items[j].segment.data)
  }

  /** One item of the probe: what it adds, and how it goes on behind it. */
  lemma ProbeStep(items: seq<Item>, cursor: int, room: nat)
    requires items != [] && items[0].position <= cursor
    ensures var added, probe := Beyond(items[0], cursor), Probe(items, cursor, room);
            && (|added| > room ==> probe == added[..room])
            && (|added| <= room ==> probe == added + Probe(items[1..], cursor + |added|, room - |added|))
    ensures forall q :: cursor <= q ==> (InItem(items[0], 0, q) <==> q < cursor + |Beyond(items[0], cursor)|)
  {
  }

  lemma NotBefore(items: seq<Item>, q: int)
    requires Ascending(items) && (items == [] || items[0].position > q)
    ensures !InItems(items, |items|, 0, q)
  {
  }

  lemma OnNothing(stream: Stream, at: int)
    ensures On(stream, at, [])
  {
  }

  /** The probe is a contiguous piece of what the items cover, and no shorter than it has to be. */
  lemma {:induction false} ProbeIsContiguous(items: seq<Item>, cursor: int, room: nat)
    requires Ascending(items)
    ensures var end := cursor + |Probe(items, cursor, room)|;
            && (forall q :: cursor <= q < end ==> InItems(items, |items|, 0, q))
            && (end < cursor + room ==> !InItems(items, |items|, 0, end))
  {
    hide Probe, InItem, Beyond;
    if items == [] || items[0].position > cursor {
      ProbeEnds(items, cursor, room);
      NotBefore(items, cursor);
    } else {
      ProbeStep(items, cursor, room);
      var added := Beyond(items[0], cursor);
      if |added| <= room {
        ProbeIsContiguous(items[1..], cursor + |added|, room - |added|);
      }
      hide Ascending, InItems;
      var end := cursor + |Probe(items, cursor, room)|;
      forall q | cursor <= q < end ensures InItems(items, |items|, 0, q) {
        InItemsFirst(items, q);
      }
      InItemsFirst(items, end);
    }
  }

  /** The probe of true items is a true piece of the stream. */
  lemma {:induction false} ProbeIsTrue(items: seq<Item>, cursor: int, room: nat, stream: Stream, shift: int)
    requires TrueItems(items, stream, shift)
    ensures On(stream, shift + cursor, Probe(items, cursor, room))
  {
    hide Probe, Beyond, On;
    if items == [] || items[0].position > cursor {
      ProbeEnds(items, cursor, room);
      OnNothing(stream, shift + cursor);
    } else {
      ProbeStep(items, cursor, room);
      var added := Beyond(items[0], cursor);
      BeyondIsTrue(items[0], cursor, stream, shift);
      if |added| <= room {
        ProbeIsTrue(items[1..], cursor + |added|, room - |added|, stream, shift);
        OnJoin(stream, shift + cursor, added, Probe(items[1..], cursor + |added|, room - |added|));
      } else {
        OnParts(stream, shift + cursor, added, room);
      }
    }
  }

  lemma ProbeEnds(items: seq<Item>, cursor: int, room: nat)
    requires items == [] || items[0].position > cursor
    ensures Probe(items, cursor, room) == []
  {
  }

  method ContiguousProbe(ordered: seq<Item>, limit: nat) returns (start: nat, probe: Bytes)
    requires ordered != []
    ensures start == ordered[0].position && probe == ProbeOf(ordered, limit)
  {
    hide Probe, InItem;
    start := ordered[0].position;
    var cursor: int := start;
    probe := [];
    var i := 0;
    while i < |ordered|
      invariant 0 <= i <= |ordered|
      invariant cursor == start + |probe| && |probe| <= limit
      invariant probe + Probe(ordered[i..], cursor, limit - |probe|) == ProbeOf(ordered, limit)
    {
      var sequence, data := ordered[i].position, ordered[i].segment.data;
      assert ordered[i..][1..] == ordered[i + 1..];
      if sequence > cursor {
        ProbeEnds(ordered[i..], cursor, limit - |probe|);
        break;
      }
      ProbeStep(ordered[i..], cursor, limit - |probe|);
      var overlap := Max(0, cursor - sequence);
      if overlap < |data| {
        var remaining := data[overlap..];
        var capacity := limit - |probe|;
        if capacity <= 0 {
          NoProbe(ordered[i..], cursor);
          break;
        }
        var taken := remaining[..Min(|remaining|, capacity)];
        if |remaining| <= capacity {
          ProbeGrows(probe, taken, ordered[i + 1..], cursor + |taken|, limit);
        }
        probe := probe + taken;
        cursor := Max(cursor, sequence + |data|);
        if |remaining| > capacity {
          break;
        }
      } else {
        assert [] + Probe(ordered[i + 1..], cursor, limit - |probe|) ==
               Probe(ordered[i + 1..], cursor, limit - |probe|);
      }
      i := i + 1;
    }
    if i == |ordered| {
      ProbeEnds(ordered[i..], cursor, limit - |probe|);
    }
  }
}
