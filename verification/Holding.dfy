// Held segments: the bounded maps a flow keeps behind a gap, their size, their order.
module Holding {
  import opened Wire
  import opened ReceivedSet

  lemma {:induction false} SmallestKey(keys: set<nat>)
    requires keys != {}
    ensures exists k :: k in keys && forall j :: j in keys ==> k <= j
  {
    var k :| k in keys;
    SmallestKeyBelow(keys, k);
  }

  lemma {:induction false} SmallestKeyBelow(keys: set<nat>, k: nat)
    requires k in keys
    ensures exists m :: m in keys && forall j :: j in keys ==> m <= j
    decreases k
  {
    if j :| j in keys && j < k {
      SmallestKeyBelow(keys, j);
    } else {
      assert forall j :: j in keys ==> k <= j;
    }
  }

  function MinKey(held: Held): (k: nat)
    requires held != map[]
    ensures k in held && forall j :: j in held ==> k <= j
  {
    assert |held| != 0;
    SmallestKey(held.Keys);
    var k :| k in held.Keys && forall j :: j in held.Keys ==> k <= j;
    k
  }

  function TotalBytes(held: Held): nat
    decreases |held|
  {
    if held == map[] then 0
    else
      var k := MinKey(held);
      Smaller(held, k);
      |held[k].data| + TotalBytes(held - {k})
  }

  lemma Smaller(held: Held, k: nat)
    requires k in held
    ensures |held - {k}| < |held|
  {
    assert (held - {k}).Keys == held.Keys - {k};
  }

  lemma {:induction false} TotalWithout(held: Held, k: nat)
    requires k in held
    ensures TotalBytes(held) == |held[k].data| + TotalBytes(held - {k})
    decreases |held|
  {
    var m := MinKey(held);
    if m != k {
      Smaller(held, m);
      Smaller(held, k);
      var a, b := held - {m}, held - {k};
      TotalWithout(a, k);
      assert m in b;
      assert MinKey(b) == m;
      assert a - {k} == b - {m};
      assert TotalBytes(b) == |b[m].data| + TotalBytes(b - {m});
    }
  }

  lemma {:induction false} FewerBytes(part: Held, held: Held)
    requires forall k :: k in part ==> k in held && part[k] == held[k]
    ensures TotalBytes(part) <= TotalBytes(held) && |part| <= |held|
    decreases |held|
  {
    if k :| k in held && k !in part {
      Smaller(held, k);
      FewerBytes(part, held - {k});
      TotalWithout(held, k);
    } else {
      assert part.Keys == held.Keys;
      assert part == held;
    }
  }

  /** Keeping a segment adds at most one entry and its own bytes. */
  lemma KeepMeasures(held: Held, k: nat, s: PendingSegment)
    ensures |Keep(held, k, s)| <= |held| + 1 && TotalBytes(Keep(held, k, s)) <= TotalBytes(held) + |s.data|
  {
    hide TotalBytes;
    var kept := held[k := s];
    TotalWithout(kept, k);
    if k in held {
      TotalWithout(held, k);
      assert kept - {k} == held - {k} && kept.Keys == held.Keys;
    } else {
      assert kept - {k} == held && kept.Keys == held.Keys + {k};
    }
  }

  datatype Limits = Limits(segments: nat, bytes: Option<nat>)

  predicate CapacityExceeded(held: Held, limits: Limits) {
    |held| > limits.segments || (limits.bytes.Some? && TotalBytes(held) > limits.bytes.value)
  }

  lemma EmptyFits(limits: Limits)
    ensures !CapacityExceeded(map[], limits)
  {
  }

  lemma FewerFit(part: Held, held: Held, limits: Limits)
    requires forall k :: k in part ==> k in held && part[k] == held[k]
    requires !CapacityExceeded(held, limits)
    ensures !CapacityExceeded(part, limits)
  {
    FewerBytes(part, held);
  }

  /** The earliest capture time among held segments. */
  predicate EarliestTimestamp(held: Held, t: real) {
    (exists k :: k in held && held[k].context.timestamp == t) &&
    forall k :: k in held ==> t <= held[k].context.timestamp
  }

  lemma EarliestOfMore(held: Held, k: nat, others: real)
    requires k in held && EarliestTimestamp(held - {k}, others)
    ensures EarliestTimestamp(held, if held[k].context.timestamp <= others then held[k].context.timestamp else others)
  {
    var rest := held - {k};
    var j :| j in rest && rest[j].context.timestamp == others;
    assert held[j].context.timestamp == others;
    forall i | i in held && i != k ensures others <= held[i].context.timestamp {
      assert i in rest;
    }
  }

  function EarliestOf(held: Held): (t: real)
    requires held != map[]
    ensures EarliestTimestamp(held, t)
    decreases |held|
  {
    var k := MinKey(held);
    Smaller(held, k);
    var first, rest := held[k].context.timestamp, held - {k};
    if rest == map[] then first
    else
      var others := EarliestOf(rest);
      EarliestOfMore(held, k, others);
      if first <= others then first else others
  }

  lemma EarliestIsUnique(held: Held, t: real, u: real)
    requires EarliestTimestamp(held, t) && EarliestTimestamp(held, u)
    ensures t == u
  {
  }

  method MinTimestamp(held: Held) returns (t: real)
    requires held != map[]
    ensures t == EarliestOf(held)
  {
    var k := MinKey(held);
    t := held[k].context.timestamp;
    var rest := held - {k};
    while rest != map[]
      invariant forall j :: j in rest ==> j in held && rest[j] == held[j]
      invariant exists j :: j in held && held[j].context.timestamp == t
      invariant forall j :: j in held && j !in rest ==> t <= held[j].context.timestamp
      decreases |rest|
    {
      k := MinKey(rest);
      Smaller(rest, k);
      if rest[k].context.timestamp < t {
        t := rest[k].context.timestamp;
      }
      rest := rest - {k};
    }
    EarliestIsUnique(held, t, EarliestOf(held));
  }

  datatype Item = Item(position: nat, segment: PendingSegment)

  /** The held segments in ascending position. */
  function SortedItems(held: Held): (items: seq<Item>)
    ensures |items| == |held|
    decreases |held|
  {
    if held == map[] then []
    else
      var k := MinKey(held);
      Smaller(held, k);
      assert (held - {k}).Keys == held.Keys - {k};
      [Item(k, held[k])] + SortedItems(held - {k})
  }

  ghost predicate HasItem(items: seq<Item>, k: nat) {
    exists i :: 0 <= i < |items| && items[i].position == k
  }

  ghost predicate Ascending(items: seq<Item>) {
    forall i, j :: 0 <= i < j < |items| ==> items[i].position < items[j].position
  }

  /** Sorting neither alters nor repeats a held segment. */
  lemma {:induction false} SortedItemsAreHeld(held: Held)
    ensures var items := SortedItems(held);
            && (forall i :: 0 <= i < |items| ==>
                  items[i].position in held && held[items[i].position] == items[i].segment)
            && Ascending(items)
    decreases |held|
  {
    if held != map[] {
      Smaller(held, MinKey(held));
      SortedItemsAreHeld(held - {MinKey(held)});
    }
  }

  /** Sorting loses no held segment. */
  lemma {:induction false} SortedItemsAreAll(held: Held, k: nat)
    requires k in held
    ensures HasItem(SortedItems(held), k)
    decreases |held|
  {
    var m := MinKey(held);
    var items := SortedItems(held);
    if k == m {
      assert items[0].position == k;
    } else {
      Smaller(held, m);
      SortedItemsAreAll(held - {m}, k);
      var tail := SortedItems(held - {m});
      var i :| 0 <= i < |tail| && tail[i].position == k;
      assert items[i + 1].position == k;
    }
  }
}
