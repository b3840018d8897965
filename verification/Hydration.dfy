// Storage hydration: neutral storage records grouped into bursts, each promoted to snapshots as a
// whole or left neutral as a whole.
module Hydration {
  import opened Wire
  import opened ScannerLog

  const BURST_GAP_SECONDS: real := 0.5
  const MAX_BURST_SECONDS: real := 1.0
  const HYDRATION_EPOCH_SECONDS: real := 30.0
  const INVENTORY_GENERATION_GAP_SECONDS: real := 1.0
  const MIN_ANCHORED_DESTINATIONS: nat := 8
  const MIN_UNANCHORED_DESTINATIONS: nat := 17
  const MIN_UNANCHORED_RECORD_COUNT: nat := 8
  const MAX_PENDING_EVENTS: nat := 10_000

  datatype Kind = StorageRecord | StorageSnapshot | Live(name: string)

  datatype Event = Event(
    flow: FlowKey, generation: nat, timestamp: real, kind: Kind, opcode: Option<nat>,
    storageId: Option<nat>, recordCount: Option<int>, source: Option<string>, details: string)

  datatype Key = Key(flow: FlowKey, generation: nat)

  function KeyOf(e: Event): Key {
    Key(e.flow, e.generation)
  }

  function AsSnapshot(e: Event): (s: Event) {
    e.(kind := StorageSnapshot, source := None)
  }

  datatype Burst = Burst(
    first: real, last: real, anchored: bool, opcode: Option<nat>,
    events: seq<Event>, destinations: set<nat>, maxRecordCount: nat, confirmed: bool)

  /** A burst as history knows it: everything that ever joined it. */
  datatype Cohort = Cohort(anchored: bool, opcode: Option<nat>, events: seq<Event>, promoted: bool)

  /** One event handed on, promoted or as it was. */
  datatype Delivery = Delivery(original: Event, promoted: bool)

  function Emission(d: Delivery): Event {
    if d.promoted then AsSnapshot(d.original) else d.original
  }

  function Emissions(log: seq<Delivery>): (e: seq<Event>)
    ensures |e| == |log|
  {
    seq(|log|, (i: nat) requires i < |log| => Emission(log[i]))
  }

  function Originals(log: seq<Delivery>): (e: seq<Event>)
    ensures |e| == |log|
  {
    seq(|log|, (i: nat) requires i < |log| => log[i].original)
  }

  function Tagged(events: seq<Event>, promoted: bool): (log: seq<Delivery>)
    ensures |log| == |events|
  {
    seq(|events|, (i: nat) requires i < |events| => Delivery(events[i], promoted))
  }

  predicate StoredUnder(e: Event, key: Key) {
    e.kind == StorageRecord && KeyOf(e) == key
  }

  /** The neutral storage records of one key, in order. */
  function StorageOf(events: seq<Event>, key: Key): (s: seq<Event>) {
    if events == [] then []
    else
      var e := events[|events| - 1];
      StorageOf(events[..|events| - 1], key) + if StoredUnder(e, key) then [e] else []
  }

  /** Everything that is not a neutral storage record, in order. */
  function OthersOf(events: seq<Event>): (s: seq<Event>) {
    if events == [] then []
    else
      var e := events[|events| - 1];
      OthersOf(events[..|events| - 1]) + if e.kind != StorageRecord then [e] else []
  }

  /** The deliveries of one key's neutral storage records, in order. */
  function DeliveredOf(log: seq<Delivery>, key: Key): (s: seq<Delivery>) {
    if log == [] then []
    else
      var d := log[|log| - 1];
      DeliveredOf(log[..|log| - 1], key) + if StoredUnder(d.original, key) then [d] else []
  }

  lemma StorageOfOne(events: seq<Event>, e: Event, key: Key)
    ensures StorageOf(events + [e], key) == StorageOf(events, key) + if StoredUnder(e, key) then [e] else []
  {
    assert (events + [e])[..|events|] == events;
  }

  lemma OthersOfOne(events: seq<Event>, e: Event)
    ensures OthersOf(events + [e]) == OthersOf(events) + if e.kind != StorageRecord then [e] else []
  {
    assert (events + [e])[..|events|] == events;
  }

  lemma DeliveredOfOne(log: seq<Delivery>, d: Delivery, key: Key)
    ensures DeliveredOf(log + [d], key) == DeliveredOf(log, key) + if StoredUnder(d.original, key) then [d] else []
  {
    assert (log + [d])[..|log|] == log;
  }

  /** Delivering a block of one key's records. */
  lemma {:induction false} DeliveredOfBlock(log: seq<Delivery>, events: seq<Event>, promoted: bool, key: Key,
      other: Key)
    requires forall i :: 0 <= i < |events| ==> StoredUnder(events[i], key)
    ensures DeliveredOf(log + Tagged(events, promoted), other)
         == DeliveredOf(log, other) + if other == key then Tagged(events, promoted) else []
  {
    if events == [] {
      assert log + Tagged(events, promoted) == log;
    } else {
      var n := |events| - 1;
      var d := Delivery(events[n], promoted);
      DeliveredOfBlock(log, events[..n], promoted, key, other);
      assert Tagged(events, promoted) == Tagged(events[..n], promoted) + [d];
      assert log + Tagged(events, promoted) == log + Tagged(events[..n], promoted) + [d];
      DeliveredOfOne(log + Tagged(events[..n], promoted), d, other);
    }
  }

  lemma {:induction false} OthersOfBlock(log: seq<Delivery>, events: seq<Event>, promoted: bool, key: Key)
    requires forall i :: 0 <= i < |events| ==> StoredUnder(events[i], key)
    ensures OthersOf(Originals(log + Tagged(events, promoted))) == OthersOf(Originals(log))
  {
    if events == [] {
      assert log + Tagged(events, promoted) == log;
    } else {
      var n := |events| - 1;
      OthersOfBlock(log, events[..n], promoted, key);
      assert Originals(log + Tagged(events, promoted)) == Originals(log + Tagged(events[..n], promoted)) + [events[n]];
      OthersOfOne(Originals(log + Tagged(events[..n], promoted)), events[n]);
    }
  }

  /** The storage places a burst was seen to fill. */
  function Destinations(events: seq<Event>): (d: set<nat>)
    ensures forall n :: n in d <==> exists i :: 0 <= i < |events| && events[i].storageId == Some(n)
  {
    if events == [] then {}
    else
      var e := events[|events| - 1];
      Destinations(events[..|events| - 1]) + if e.storageId.Some? then {e.storageId.value} else {}
  }

  /** The largest record count a burst has named, 0 if none. */
  function MaxRecordCount(events: seq<Event>): (n: nat)
    ensures forall i :: 0 <= i < |events| && events[i].recordCount.Some? ==> events[i].recordCount.value <= n
    ensures n > 0 ==> exists i :: 0 <= i < |events| && events[i].recordCount == Some(n)
  {
    if events == [] then 0
    else
      var e := events[|events| - 1];
      var before := MaxRecordCount(events[..|events| - 1]);
      if e.recordCount.Some? && e.recordCount.value > before then e.recordCount.value else before
  }

  /** What proves a burst to be a snapshot. */
  predicate Enough(events: seq<Event>, anchored: bool) {
    && |Destinations(events)| >= (if anchored then MIN_ANCHORED_DESTINATIONS else MIN_UNANCHORED_DESTINATIONS)
    && (anchored || MaxRecordCount(events) >= MIN_UNANCHORED_RECORD_COUNT)
  }

  /** Close together: in order, never more than the gap apart, and inside the maximal span. */
  predicate Close(events: seq<Event>) {
    && (forall i :: 0 <= i < |events| - 1 ==>
          events[i].timestamp <= events[i + 1].timestamp <= events[i].timestamp + 0.5)
    && (forall i :: 0 <= i < |events| ==> events[i].timestamp - events[0].timestamp <= 1.0)
  }

  /** One of these inventory events opened a hydration epoch that covers `e`. */
  ghost predicate Covered(e: Event, inventories: seq<Event>) {
    exists i :: 0 <= i < |inventories| && KeyOf(inventories[i]) == KeyOf(e)
                && inventories[i].timestamp <= e.timestamp <= inventories[i].timestamp + 30.0
  }

  /** A burst as it has to be: one key, one opcode, close together, inside an epoch if anchored, and
      promoted exactly if there is enough to prove it. */
  ghost predicate Coherent(c: Cohort, key: Key, inventories: seq<Event>) {
    && c.events != [] && Close(c.events)
    && (forall i :: 0 <= i < |c.events| ==> StoredUnder(c.events[i], key) && c.events[i].opcode == c.opcode)
    && (c.anchored ==> forall i :: 0 <= i < |c.events| ==> Covered(c.events[i], inventories))
    && (c.promoted <==> Enough(c.events, c.anchored))
  }

  /** The bursts of one key as deliveries, whole burst by whole burst. */
  function Told(history: seq<Cohort>): (log: seq<Delivery>) {
    if history == [] then []
    else
      var c := history[|history| - 1];
      Told(history[..|history| - 1]) + Tagged(c.events, c.promoted)
  }

  lemma ToldOne(history: seq<Cohort>, c: Cohort)
    ensures Told(history + [c]) == Told(history) + Tagged(c.events, c.promoted)
  {
    assert (history + [c])[..|history|] == history;
  }

  /** The tracker's burst agrees with the last burst of the key's history. */
  ghost predicate Summarises(b: Burst, c: Cohort) {
    && c.events != [] && b.first == c.events[0].timestamp && b.last == c.events[|c.events| - 1].timestamp
    && b.anchored == c.anchored && b.opcode == c.opcode && b.confirmed == c.promoted
    && b.destinations == Destinations(c.events) && b.maxRecordCount == MaxRecordCount(c.events)
    && b.events == (if c.promoted then [] else c.events) && |b.events| <= MAX_PENDING_EVENTS
  }

  function Pending(b: Option<Burst>): seq<Event> {
    if b.Some? then b.value.events else []
  }

  /** One key's books: what was delivered and what is pending are its bursts, in order and each as a
      whole, and its bursts hold exactly the records observed. */
  ghost predicate KeySound(key: Key, log: seq<Delivery>, observed: seq<Event>, history: seq<Cohort>, b: Option<Burst>,
      inventories: seq<Event>) {
    && DeliveredOf(log, key) + Tagged(Pending(b), false) == Told(history)
    && Originals(Told(history)) == StorageOf(observed, key)
    && (forall i :: 0 <= i < |history| ==> Coherent(history[i], key, inventories))
    && (b.Some? ==> history != [] && Summarises(b.value, history[|history| - 1]))
  }

  lemma TaggedParts(a: seq<Event>, e: Event, promoted: bool)
    ensures Tagged(a + [e], promoted) == Tagged(a, promoted) + [Delivery(e, promoted)]
    ensures Tagged([], promoted) == []
  {
  }

  lemma OriginalsParts(a: seq<Delivery>, b: seq<Delivery>)
    ensures Originals(a + b) == Originals(a) + Originals(b)
  {
  }

  lemma OriginalsOfTagged(events: seq<Event>, promoted: bool)
    ensures Originals(Tagged(events, promoted)) == events
  {
  }

  lemma EmissionsParts(a: seq<Delivery>, b: seq<Delivery>)
    ensures Emissions(a + b) == Emissions(a) + Emissions(b)
  {
  }

  /** A record more proves no less. */
  lemma EnoughStays(events: seq<Event>, e: Event, anchored: bool)
    requires Enough(events, anchored)
    ensures Enough(events + [e], anchored)
  {
    SummaryGrows(events, e);
    SubsetIsSmaller(Destinations(events), Destinations(events + [e]));
  }

  lemma SummaryGrows(events: seq<Event>, e: Event)
    ensures Destinations(events + [e]) == Destinations(events) + if e.storageId.Some? then {e.storageId.value} else {}
    ensures MaxRecordCount(events + [e])
         == if e.recordCount.Some? && e.recordCount.value > MaxRecordCount(events) then e.recordCount.value
            else MaxRecordCount(events)
  {
    assert (events + [e])[..|events|] == events;
  }

  /** The cohort with `e` in it. */
  function Grown(c: Cohort, e: Event): (g: Cohort) {
    Cohort(c.anchored, c.opcode, c.events + [e], Enough(c.events + [e], c.anchored))
  }

  /** `e` is close enough to the end and the start of these events. */
  predicate Follows(events: seq<Event>, e: Event) {
    events != [] ==>
      && events[|events| - 1].timestamp <= e.timestamp <= events[|events| - 1].timestamp + 0.5
      && e.timestamp - events[0].timestamp <= 1.0
  }

  lemma GrownIsCoherent(c: Cohort, e: Event, key: Key, inventories: seq<Event>)
    requires c.events == [] || Coherent(c, key, inventories)
    requires StoredUnder(e, key) && e.opcode == c.opcode && Follows(c.events, e)
    requires c.anchored ==> Covered(e, inventories)
    ensures Coherent(Grown(c, e), key, inventories)
  {
    hide Enough, Covered;
    if c.events != [] {
      var g := c.events + [e];
      forall i | 0 <= i < |g| - 1 ensures g[i].timestamp <= g[i + 1].timestamp <= g[i].timestamp + 0.5 {
        assert g[i] == c.events[i];
      }
    }
  }

  /** What handing on `e` adds: the record itself to a confirmed burst, the whole burst when `e` proves
      it or when too much is pending, nothing otherwise. */
  function Released(c: Cohort, e: Event): (block: seq<Delivery>) {
    var g := Grown(c, e);
    if c.promoted then [Delivery(e, true)]
    else if g.promoted then Tagged(g.events, true)
    else if |g.events| > MAX_PENDING_EVENTS then Tagged(g.events, false)
    else []
  }

  /** The burst kept afterwards, if any. */
  function Kept(c: Cohort, e: Event): (b: Option<Burst>) {
    var g := Grown(c, e);
    if !g.promoted && |g.events| > MAX_PENDING_EVENTS then None
    else Some(Burst(g.events[0].timestamp, e.timestamp, g.anchored, g.opcode, if g.promoted then [] else g.events,
                    Destinations(g.events), MaxRecordCount(g.events), g.promoted))
  }

  /** The books of the key after a record joined the burst `c` at the end of `earlier`. */
  lemma JoiningIsSound(key: Key, log: seq<Delivery>, observed: seq<Event>, earlier: seq<Cohort>, c: Cohort, e: Event,
      inventories: seq<Event>)
    requires StoredUnder(e, key) && Coherent(Grown(c, e), key, inventories)
    requires (c.promoted ==> Enough(c.events, c.anchored))
    requires forall i :: 0 <= i < |earlier| ==> Coherent(earlier[i], key, inventories)
    requires DeliveredOf(log, key) + (if c.promoted then [] else Tagged(c.events, false)) ==
             Told(earlier) + Tagged(c.events, c.promoted)
    requires Originals(Told(earlier) + Tagged(c.events, c.promoted)) == StorageOf(observed, key)
    ensures KeySound(key, log + Released(c, e), observed + [e], earlier + [Grown(c, e)], Kept(c, e), inventories)
  {
    hide Coherent, Enough, Released, DeliveredOf, Tagged, Told, Originals, StorageOf, Kept;
    JoiningTells(key, log, earlier, c, e, inventories);
    JoiningKeepsOriginals(key, observed, earlier, c, e);
    KeptSummarises(c, e);
  }

  lemma KeptSummarises(c: Cohort, e: Event)
    requires c.promoted ==> Enough(c.events, c.anchored)
    ensures Kept(c, e).Some? ==> Summarises(Kept(c, e).value, Grown(c, e))
  {
    hide Enough, Destinations, MaxRecordCount;
  }

  lemma JoiningKeepsOriginals(key: Key, observed: seq<Event>, earlier: seq<Cohort>, c: Cohort, e: Event)
    requires StoredUnder(e, key) && Originals(Told(earlier) + Tagged(c.events, c.promoted)) == StorageOf(observed, key)
    ensures Originals(Told(earlier + [Grown(c, e)])) == StorageOf(observed + [e], key)
  {
    hide Enough, Tagged, Originals, Told, StorageOf;
    var g := Grown(c, e);
    ToldOne(earlier, g);
    StorageOfOne(observed, e, key);
    OriginalsParts(Told(earlier), Tagged(c.events, c.promoted));
    OriginalsParts(Told(earlier), Tagged(g.events, g.promoted));
    OriginalsOfTagged(c.events, c.promoted);
    OriginalsOfTagged(g.events, g.promoted);
    Regroup(Originals(Told(earlier)), c.events, [e]);
  }

  lemma JoiningTells(key: Key, log: seq<Delivery>, earlier: seq<Cohort>, c: Cohort, e: Event, inventories: seq<Event>)
    requires Coherent(Grown(c, e), key, inventories) && (c.promoted ==> Enough(c.events, c.anchored))
    requires DeliveredOf(log, key) + (if c.promoted then [] else Tagged(c.events, false)) ==
             Told(earlier) + Tagged(c.events, c.promoted)
    ensures DeliveredOf(log + Released(c, e), key) + Tagged(Pending(Kept(c, e)), false) == Told(earlier + [Grown(c, e)])
  {
    hide Coherent, Enough, DeliveredOf, Tagged, Told;
    var g := Grown(c, e);
    ToldOne(earlier, g);
    TaggedParts(c.events, e, true);
    CohortIsStored(g, key, inventories);
    if c.promoted {
      EnoughStays(c.events, e, c.anchored);
      DeliveredOfOne(log, Delivery(e, true), key);
      assert StoredUnder(g.events[|c.events|], key);
      assert DeliveredOf(log, key) + [] == DeliveredOf(log, key);
      Regroup(Told(earlier), Tagged(c.events, true), [Delivery(e, true)]);
    } else {
      NothingBefore(DeliveredOf(log, key), Told(earlier), Tagged(c.events, false));
      if Released(c, e) != [] {
        DeliveredOfBlock(log, g.events, g.promoted, key, key);
      } else {
        assert log + [] == log;
      }
      TaggedNothing();
    }
  }

  lemma TaggedNothing()
    ensures Tagged([], false) == []
  {
  }

  lemma CohortIsStored(c: Cohort, key: Key, inventories: seq<Event>)
    requires Coherent(c, key, inventories)
    ensures forall i :: 0 <= i < |c.events| ==> StoredUnder(c.events[i], key)
  {
  }

  lemma NothingBefore<T>(a: seq<T>, b: seq<T>, tail: seq<T>)
    requires a + tail == b + tail
    ensures a == b
  {
    assert (a + tail)[..|a|] == a && (b + tail)[..|a|] == b;
  }

  function HistoryAt(history: map<Key, seq<Cohort>>, key: Key): seq<Cohort> {
    if key in history then history[key] else []
  }

  function BurstAt(bursts: map<Key, Burst>, key: Key): Option<Burst> {
    if key in bursts then Some(bursts[key]) else None
  }

  /** The books of all keys, and of what passes through in order. */
  ghost predicate Sound(log: seq<Delivery>, observed: seq<Event>, history: map<Key, seq<Cohort>>, bursts: map<Key,
      Burst>,
      inventories: seq<Event>) {
    && (forall key :: KeySound(key, log, observed, HistoryAt(history, key), BurstAt(bursts, key), inventories))
    && OthersOf(Originals(log)) == OthersOf(observed)
    && (forall i :: 0 <= i < |log| && log[i].promoted ==> log[i].original.kind == StorageRecord)
  }

  /** Handing on what one burst still holds, as it is. */
  lemma FlushIsSound(log: seq<Delivery>, observed: seq<Event>, history: map<Key, seq<Cohort>>, bursts: map<Key, Burst>,
      inventories: seq<Event>, key: Key)
    requires Sound(log, observed, history, bursts, inventories) && key in bursts
    ensures Sound(log + Tagged(bursts[key].events, false), observed, history, bursts - {key}, inventories)
  {
    hide Coherent, Told, StorageOf, Originals, OthersOf, DeliveredOf;
    var events := bursts[key].events;
    PendingIsStored(log, observed, HistoryAt(history, key), bursts[key], inventories, key);
    OthersOfBlock(log, events, false, key);
    forall k
      ensures KeySound(k, log + Tagged(events, false), observed, HistoryAt(history, k), BurstAt(bursts - {key}, k),
                  inventories)
    {
      assert KeySound(k, log, observed, HistoryAt(history, k), BurstAt(bursts, k), inventories);
      DeliveredOfBlock(log, events, false, key, k);
      assert DeliveredOf(log, k) + [] == DeliveredOf(log, k);
    }
  }

  lemma PendingIsStored(log: seq<Delivery>, observed: seq<Event>, history: seq<Cohort>, b: Burst,
      inventories: seq<Event>, key: Key)
    requires KeySound(key, log, observed, history, Some(b), inventories)
    ensures forall i :: 0 <= i < |b.events| ==> StoredUnder(b.events[i], key)
  {
    assert Coherent(history[|history| - 1], key, inventories);
  }

  /** Passing on an event that is no neutral storage record. */
  lemma PassIsSound(log: seq<Delivery>, observed: seq<Event>, history: map<Key, seq<Cohort>>, bursts: map<Key, Burst>,
      inventories: seq<Event>, e: Event)
    requires Sound(log, observed, history, bursts, inventories) && e.kind != StorageRecord
    ensures Sound(log + [Delivery(e, false)], observed + [e], history, bursts, inventories)
  {
    hide Coherent, Told, StorageOf, Originals, OthersOf, DeliveredOf, Summarises;
    OriginalsParts(log, [Delivery(e, false)]);
    assert Originals([Delivery(e, false)]) == [e] by { OriginalsOfOne(Delivery(e, false)); }
    OthersOfOne(observed, e);
    OthersOfOne(Originals(log), e);
    forall k
      ensures KeySound(k, log + [Delivery(e, false)], observed + [e], HistoryAt(history, k), BurstAt(bursts, k),
                  inventories)
    {
      assert KeySound(k, log, observed, HistoryAt(history, k), BurstAt(bursts, k), inventories);
      DeliveredOfOne(log, Delivery(e, false), k);
      StorageOfOne(observed, e, k);
    }
  }

  lemma OriginalsOfOne(d: Delivery)
    ensures Originals([d]) == [d.original]
  {
  }

  /** More inventory evidence takes nothing back. */
  lemma InventoryIsSound(log: seq<Delivery>, observed: seq<Event>, history: map<Key, seq<Cohort>>, bursts: map<Key,
      Burst>,
      inventories: seq<Event>, e: Event)
    requires Sound(log, observed, history, bursts, inventories)
    ensures Sound(log, observed, history, bursts, inventories + [e])
  {
    hide Told, StorageOf, Originals, OthersOf, DeliveredOf, Summarises;
    forall k ensures KeySound(k, log, observed, HistoryAt(history, k), BurstAt(bursts, k), inventories + [e]) {
      assert KeySound(k, log, observed, HistoryAt(history, k), BurstAt(bursts, k), inventories);
      forall i | 0 <= i < |HistoryAt(history, k)| ensures Coherent(HistoryAt(history, k)[i], k, inventories + [e]) {
        CoveredStays(HistoryAt(history, k)[i], k, inventories, e);
      }
    }
  }

  lemma CoveredStays(c: Cohort, key: Key, inventories: seq<Event>, e: Event)
    requires Coherent(c, key, inventories)
    ensures Coherent(c, key, inventories + [e])
  {
    hide Enough, Close;
    if c.anchored {
      forall i | 0 <= i < |c.events| ensures Covered(c.events[i], inventories + [e]) {
        var j :| 0 <= j < |inventories| && KeyOf(inventories[j]) == KeyOf(c.events[i])
                 && inventories[j].timestamp <= c.events[i].timestamp
                 && c.events[i].timestamp <= inventories[j].timestamp + 30.0;
        assert (inventories + [e])[j] == inventories[j];
      }
    }
  }

  /** The bursts after one changed or went. */
  function Updated(bursts: map<Key, Burst>, key: Key, b: Option<Burst>): map<Key, Burst> {
    if b.Some? then bursts[key := b.value] else bursts - {key}
  }

  /** A neutral record of `key` joins the burst `c`, the last one after `earlier`. */
  lemma JoinIsSound(log: seq<Delivery>, observed: seq<Event>, history: map<Key, seq<Cohort>>, bursts: map<Key, Burst>,
      inventories: seq<Event>,
                    key: Key, earlier: seq<Cohort>, c: Cohort, e: Event)
    requires Sound(log, observed, history, bursts, inventories)
    requires StoredUnder(e, key) && e.opcode == c.opcode && Follows(c.events, e)
    requires (c.anchored ==> Covered(e, inventories))
    requires if c.events == [] then !c.promoted && HistoryAt(history, key) == earlier && key !in bursts
             else HistoryAt(history, key) == earlier + [c] && key in bursts
    ensures Sound(log + Released(c, e), observed + [e], history[key := earlier + [Grown(c, e)]],
                  Updated(bursts, key, Kept(c, e)), inventories)
  {
    hide Coherent, Told, StorageOf, Originals, OthersOf, DeliveredOf, Released, Kept, Covered, Follows, Enough,
        Grown;
    var log', observed', history' := log + Released(c, e), observed + [e], history[key := earlier + [Grown(c, e)]];
    assert KeySound(key, log, observed, HistoryAt(history, key), BurstAt(bursts, key), inventories);
    JoinOne(log, observed, HistoryAt(history, key), BurstAt(bursts, key), inventories, key, earlier, c, e);
    hide KeySound;
    OthersOfOne(observed, e);
    ReleasedIsStored(log, c, e, key, inventories);
    forall k | k != key
      ensures KeySound(k, log', observed', HistoryAt(history', k), BurstAt(Updated(bursts, key, Kept(c, e)), k),
                  inventories)
    {
      OtherKeyStays(log, observed, HistoryAt(history, k), BurstAt(bursts, k), inventories, k, c, e, key);
    }
  }

  lemma JoinOne(log: seq<Delivery>, observed: seq<Event>, history: seq<Cohort>, b: Option<Burst>,
      inventories: seq<Event>,
                key: Key, earlier: seq<Cohort>, c: Cohort, e: Event)
    requires KeySound(key, log, observed, history, b, inventories)
    requires StoredUnder(e, key) && e.opcode == c.opcode && Follows(c.events, e)
    requires (c.anchored ==> Covered(e, inventories))
    requires if c.events == [] then !c.promoted && history == earlier && b.None?
             else history == earlier + [c] && b.Some?
    ensures KeySound(key, log + Released(c, e), observed + [e], earlier + [Grown(c, e)], Kept(c, e), inventories)
    ensures Coherent(Grown(c, e), key, inventories) && (c.promoted ==> Enough(c.events, c.anchored))
  {
    hide StorageOf, Originals, DeliveredOf, Released, Kept, Covered, Follows, Enough, Told, Tagged;
    TaggedNothing();
    assert Told(earlier) + [] == Told(earlier);
    if c.events != [] {
      ToldOne(earlier, c);
      assert Coherent(history[|earlier|], key, inventories);
      forall i | 0 <= i < |earlier| ensures Coherent(earlier[i], key, inventories) {
        assert history[i] == earlier[i];
      }
    }
    GrownIsCoherent(c, e, key, inventories);
    JoiningIsSound(key, log, observed, earlier, c, e, inventories);
  }

  /** What is released are records of the key, promoted or not. */
  lemma ReleasedIsStored(log: seq<Delivery>, c: Cohort, e: Event, key: Key, inventories: seq<Event>)
    requires Coherent(Grown(c, e), key, inventories) && StoredUnder(e, key)
    ensures OthersOf(Originals(log + Released(c, e))) == OthersOf(Originals(log))
    ensures forall i :: 0 <= i < |Released(c, e)| ==> StoredUnder(Released(c, e)[i].original, key)
  {
    hide OthersOf, Originals;
    CohortIsStored(Grown(c, e), key, inventories);
    hide Coherent, Enough;
    if Released(c, e) == [] {
      assert log + [] == log;
    } else if c.promoted {
      assert [Delivery(e, true)] == Tagged([e], true);
      OthersOfBlock(log, [e], true, key);
    } else {
      OthersOfBlock(log, Grown(c, e).events, Grown(c, e).promoted, key);
    }
  }

  lemma OtherKeyStays(log: seq<Delivery>, observed: seq<Event>, history: seq<Cohort>, b: Option<Burst>,
      inventories: seq<Event>,
                      k: Key, c: Cohort, e: Event, key: Key)
    requires k != key && StoredUnder(e, key) && KeySound(k, log, observed, history, b, inventories)
    requires forall i :: 0 <= i < |Released(c, e)| ==> StoredUnder(Released(c, e)[i].original, key)
    ensures KeySound(k, log + Released(c, e), observed + [e], history, b, inventories)
  {
    hide Coherent, Enough, StorageOf, Originals, DeliveredOf, Told, Summarises;
    StorageOfOne(observed, e, k);
    if Released(c, e) == [] {
      assert log + [] == log;
    } else if c.promoted {
      DeliveredOfOne(log, Delivery(e, true), k);
    } else {
      assert forall i :: 0 <= i < |Grown(c, e).events| ==> StoredUnder(Grown(c, e).events[i], key) by {
        assert forall i :: 0 <= i < |Grown(c, e).events| ==> Released(c, e)[i].original == Grown(c, e).events[i];
      }
      DeliveredOfBlock(log, Grown(c, e).events, Grown(c, e).promoted, key, k);
      assert DeliveredOf(log, k) + [] == DeliveredOf(log, k);
    }
  }

  /** Every anchor is the time of an inventory event of its key. */
  ghost predicate Proven(anchors: map<Key, real>, inventories: seq<Event>) {
    forall k :: k in anchors ==> Inventoried(k, anchors[k], inventories)
  }

  ghost predicate Inventoried(key: Key, at: real, inventories: seq<Event>) {
    exists i :: 0 <= i < |inventories| && KeyOf(inventories[i]) == key && inventories[i].timestamp == at
  }

  lemma InventoriedNow(anchors: map<Key, real>, inventories: seq<Event>, e: Event)
    requires Proven(anchors, inventories)
    ensures Proven(anchors, inventories + [e]) && Proven(anchors[KeyOf(e) := e.timestamp], inventories + [e])
  {
    assert (inventories + [e])[|inventories|] == e;
    forall k | k in anchors ensures Inventoried(k, anchors[k], inventories + [e]) {
      var i :| 0 <= i < |inventories| && KeyOf(inventories[i]) == k && inventories[i].timestamp == anchors[k];
      assert (inventories + [e])[i] == inventories[i];
    }
  }

  lemma NoSummary()
    ensures Destinations([]) == {} && MaxRecordCount([]) == 0
  {
  }

  /** What a burst knows of itself once `e` is in it. */
  function WithRecord(b: Burst, e: Event): Burst {
    b.(last := e.timestamp,
       destinations := b.destinations + (if e.storageId.Some? then {e.storageId.value} else {}),
       maxRecordCount := if e.recordCount.Some? && e.recordCount.value > b.maxRecordCount then e.recordCount.value
                         else b.maxRecordCount)
  }

  predicate Proves(b: Burst) {
    var enoughDestinations :=
      |b.destinations| >= (if b.anchored then MIN_ANCHORED_DESTINATIONS else MIN_UNANCHORED_DESTINATIONS);
    enoughDestinations && (b.anchored || b.maxRecordCount >= MIN_UNANCHORED_RECORD_COUNT)
  }

  /** The burst with `e` counted, but not yet appended or decided about. */
  ghost predicate Counted(b: Burst, c: Cohort, e: Event) {
    var g := Grown(c, e);
    && b == Burst(g.events[0].timestamp, e.timestamp, c.anchored, c.opcode, if c.promoted then [] else c.events,
                  Destinations(g.events), MaxRecordCount(g.events), c.promoted)
    && (Proves(b) <==> g.promoted)
  }

  lemma WithRecordCounts(b: Burst, c: Cohort, e: Event)
    requires if c.events == []
             then b == Burst(e.timestamp, e.timestamp, c.anchored, c.opcode, [], {}, 0, false) && !c.promoted
             else Summarises(b, c)
    ensures Counted(WithRecord(b, e), c, e)
  {
    hide Destinations, MaxRecordCount;
    SummaryGrows(c.events, e);
    NoSummary();
  }

  class StorageHydrationTracker {
    var inventoryAnchor: map<Key, real>
    var inventoryLast: map<Key, real>
    var bursts: map<Key, Burst>
    var outbox: seq<Event>
    /** Events passed to `emit`. */
    var emitted: seq<Event>

    ghost var observed: seq<Event>
    ghost var inventories: seq<Event>
    ghost var log: seq<Delivery>
    ghost var history: map<Key, seq<Cohort>>

    ghost predicate Valid()
      reads this
    {
      && Sound(log, observed, history, bursts, inventories)
      && Proven(inventoryAnchor, inventories)
      && emitted + outbox == Emissions(log)
    }

    constructor ()
      ensures Valid() && observed == [] && log == [] && outbox == [] && emitted == [] && bursts == map[]
    {
      inventoryAnchor, inventoryLast, bursts, outbox, emitted := map[], map[], map[], [], [];
      observed, inventories, log, history := [], [], [], map[];
      TaggedNothing();
    }

    /** The inventory epoch of `key` covers `t`. */
    predicate Anchored(key: Key, t: real)
      reads this`inventoryAnchor
    {
      key in inventoryAnchor && inventoryAnchor[key] <= t && t - inventoryAnchor[key] <= HYDRATION_EPOCH_SECONDS
    }

    /** `e` continues the burst its key has open. */
    predicate Joins(e: Event)
      reads this`bursts, this`inventoryAnchor
    {
      var key := KeyOf(e);
      && key in bursts
      && e.timestamp - bursts[key].last <= BURST_GAP_SECONDS && e.timestamp - bursts[key].first <= MAX_BURST_SECONDS
      && e.timestamp >= bursts[key].last
      && bursts[key].anchored == Anchored(key, e.timestamp) && bursts[key].opcode == e.opcode
    }

    method Queue(events: seq<Event>, promoted: bool)
      modifies this`outbox, this`log
      ensures log == old(log) + Tagged(events, promoted)
      ensures outbox == old(outbox) + Emissions(Tagged(events, promoted))
    {
      var i := 0;
      TaggedNothing();
      while i < |events|
        invariant 0 <= i <= |events|
        invariant log == old(log) + Tagged(events[..i], promoted)
        invariant outbox == old(outbox) + Emissions(Tagged(events[..i], promoted))
      {
        outbox := outbox + [if promoted then AsSnapshot(events[i]) else events[i]];
        log := log + [Delivery(events[i], promoted)];
        assert events[..i + 1] == events[..i] + [events[i]];
        TaggedParts(events[..i], events[i], promoted);
        EmissionsParts(Tagged(events[..i], promoted), [Delivery(events[i], promoted)]);
        i := i + 1;
      }
      assert events[..i] == events;
    }

    method FlushKey(key: Key)
      requires Valid()
      modifies this`bursts, this`outbox, this`log
      ensures Valid() && bursts == old(bursts) - {key}
      ensures log == old(log) + Tagged(Pending(BurstAt(old(bursts), key)), false)
    {
      hide Sound, Proven;
      TaggedNothing();
      if key in bursts {
        var b := bursts[key];
        FlushIsSound(log, observed, history, bursts, inventories, key);
        bursts := bursts - {key};
        EmissionsParts(log, Tagged(b.events, false));
        Queue(b.events, false);
      }
    }

    /** Pass an event on that is no neutral storage record. */
    method Pass(e: Event)
      requires Valid() && e.kind != StorageRecord
      modifies this`outbox, this`log, this`observed
      ensures Valid() && observed == old(observed) + [e] && log == old(log) + [Delivery(e, false)]
    {
      hide Sound, Proven;
      PassIsSound(log, observed, history, bursts, inventories, e);
      assert Tagged([e], false) == [Delivery(e, false)];
      EmissionsParts(log, [Delivery(e, false)]);
      observed := observed + [e];
      Queue([e], false);
    }

    method DrainOutbox()
      requires Valid()
      modifies this`outbox, this`emitted
      ensures Valid() && outbox == [] && emitted == old(emitted) + old(outbox)
    {
      hide Sound, Proven;
      while outbox != []
        invariant Valid() && emitted + outbox == old(emitted) + old(outbox)
        decreases |outbox|
      {
        var event := outbox[0];
        outbox := outbox[1..];
        emitted := emitted + [event];
      }
    }

    /** The burst `e` goes to: the open one if it joins it, else a new one. */
    ghost function Target(e: Event): (c: Cohort)
      reads this
    {
      var h := HistoryAt(history, KeyOf(e));
      if Joins(e) && h != [] then h[|h| - 1]
      else Cohort(Anchored(KeyOf(e), e.timestamp), e.opcode, [], false)
    }

    ghost function Before(e: Event): (earlier: seq<Cohort>)
      reads this
    {
      var h := HistoryAt(history, KeyOf(e));
      if Joins(e) && h != [] then h[..|h| - 1] else h
    }

    /** The burst `e` goes to is the last of its key's history, or new, and `e` fits in it. */
    ghost predicate Ready(c: Cohort, earlier: seq<Cohort>, e: Event)
      reads this
    {
      var key := KeyOf(e);
      && Follows(c.events, e) && e.opcode == c.opcode && (c.anchored ==> Covered(e, inventories))
      && (c.promoted ==> Enough(c.events, c.anchored))
      && (if c.events == [] then !c.promoted && HistoryAt(history, key) == earlier && !Joins(e)
          && c.anchored == Anchored(key, e.timestamp)
          else HistoryAt(history, key) == earlier + [c] && Joins(e) && Summarises(bursts[key], c))
    }

    lemma TargetIsReady(e: Event)
      requires Valid() && e.kind == StorageRecord
      ensures Ready(Target(e), Before(e), e)
    {
      hide KeySound, Summarises, Enough, Covered, Emissions, Follows;
      var key := KeyOf(e);
      assert KeySound(key, log, observed, HistoryAt(history, key), BurstAt(bursts, key), inventories);
      if Anchored(key, e.timestamp) {
        AnchoredIsCovered(e);
      }
      hide Sound, Proven;
      if Joins(e) {
        LastIsOpen(key, HistoryAt(history, key), bursts[key]);
        JoinedFollows(bursts[key], HistoryAt(history, key)[|HistoryAt(history, key)| - 1], e, key);
      } else {
        NothingToFollow(e);
      }
    }

    lemma NothingToFollow(e: Event)
      ensures Follows([], e)
    {
    }

    /** The open burst is the last one of the key's history. */
    lemma LastIsOpen(key: Key, h: seq<Cohort>, b: Burst)
      requires KeySound(key, log, observed, h, Some(b), inventories)
      ensures h != [] && h == h[..|h| - 1] + [h[|h| - 1]]
      ensures Summarises(b, h[|h| - 1]) && Coherent(h[|h| - 1], key, inventories)
    {
      hide Coherent, Summarises, DeliveredOf, Told, StorageOf, Originals, Tagged;
    }

    lemma JoinedFollows(b: Burst, c: Cohort, e: Event, key: Key)
      requires Summarises(b, c) && Coherent(c, key, inventories)
      requires b.last <= e.timestamp <= b.last + BURST_GAP_SECONDS && e.timestamp - b.first <= MAX_BURST_SECONDS
      ensures Follows(c.events, e) && c.events != [] && (c.promoted ==> Enough(c.events, c.anchored))
      ensures c.anchored == b.anchored && c.opcode == b.opcode
    {
      hide Destinations, MaxRecordCount, Enough;
    }

    lemma AnchoredIsCovered(e: Event)
      requires Anchored(KeyOf(e), e.timestamp) && Proven(inventoryAnchor, inventories)
      ensures Covered(e, inventories)
    {
      assert Inventoried(KeyOf(e), inventoryAnchor[KeyOf(e)], inventories);
      var i :| 0 <= i < |inventories| && KeyOf(inventories[i]) == KeyOf(e)
               && inventories[i].timestamp == inventoryAnchor[KeyOf(e)];
    }

    /** Put `e` into the burst of its key, which stands for `c`, and decide. */
    method Absorb(b: Burst, ghost c: Cohort, e: Event)
      requires if c.events == []
               then b == Burst(e.timestamp, e.timestamp, c.anchored, c.opcode, [], {}, 0, false) && !c.promoted
               else Summarises(b, c)
      requires c.promoted ==> Enough(c.events, c.anchored)
      modifies this`bursts, this`outbox, this`log
      ensures bursts == Updated(old(bursts), KeyOf(e), Kept(c, e))
      ensures log == old(log) + Released(c, e) && outbox == old(outbox) + Emissions(Released(c, e))
    {
      hide Destinations, MaxRecordCount, Summarises, Enough;
      var key, burst := KeyOf(e), WithRecord(b, e);
      WithRecordCounts(b, c, e);
      hide WithRecord;
      if burst.confirmed {
        EnoughStays(c.events, e, c.anchored);
        assert Tagged([e], true) == [Delivery(e, true)];
        Queue([e], true);
      } else {
        burst := burst.(events := burst.events + [e]);
        if Proves(burst) {
          Queue(burst.events, true);
          burst := burst.(confirmed := true, events := []);
        } else if |burst.events| > MAX_PENDING_EVENTS {
          bursts := bursts - {key};
          Queue(burst.events, false);
          return;
        }
      }
      bursts := bursts[key := burst];
    }

    /** Stage a neutral record: it joins its key's open burst or begins a new one; a burst that is now
        proven is promoted as a whole, one that holds too much is let go as a whole. */
    method Stage(e: Event)
      requires Valid() && e.kind == StorageRecord
      modifies this`bursts, this`outbox, this`observed, this`log, this`history
      ensures Valid() && observed == old(observed) + [e]
      ensures history == old(history)[KeyOf(e) := old(Before(e)) + [Grown(old(Target(e)), e)]]
      ensures bursts == Updated(old(bursts), KeyOf(e), Kept(old(Target(e)), e))
      ensures log == old(log) + (if old(Joins(e)) then [] else Tagged(Pending(BurstAt(old(bursts), KeyOf(e))), false))
                     + Released(old(Target(e)), e)
    {
      hide Sound, Proven, Released, Summarises, Enough, Follows, Covered, Tagged, Emissions, Kept, Grown;
      var key := KeyOf(e);
      TargetIsReady(e);
      ghost var c, earlier := Target(e), Before(e);
      hide Target, Before;
      TaggedNothing();
      var burst := Burst(e.timestamp, e.timestamp, Anchored(key, e.timestamp), e.opcode, [], {}, 0, false);
      if Joins(e) {
        burst := bursts[key];
        assert log + [] == log;
      } else {
        FlushKey(key);
      }
      JoinIsSound(log, observed, history, bursts, inventories, key, earlier, c, e);
      observed, history := observed + [e], history[key := earlier + [Grown(c, e)]];
      EmissionsParts(log, Released(c, e));
      Absorb(burst, c, e);
    }

    /** What flushing the open burst of `key` hands on. */
    ghost function Flushed(key: Key): seq<Delivery>
      reads this
    {
      Tagged(Pending(BurstAt(bursts, key)), false)
    }

    /** A proven inventory boundary: the first one of a generation ends the key's open burst and opens
        a new epoch. */
    method ObserveInventory(event: Event)
      requires Valid() && outbox == [] && event.kind != StorageRecord
      modifies this
      ensures Valid() && outbox == [] && emitted == Emissions(log)
      ensures var key := KeyOf(event);
              var first :=
                key !in old(inventoryLast)
                || event.timestamp - old(inventoryLast)[key] > 1.0;
              && observed == old(observed) + [event] && history == old(history)
              && inventoryLast == old(inventoryLast)[key := event.timestamp]
              && inventoryAnchor ==
                 (if first then old(inventoryAnchor)[key := event.timestamp] else old(inventoryAnchor))
              && bursts == (if first then old(bursts) - {key} else old(bursts))
              && log == old(log) + (if first then old(Flushed(key)) else []) + [Delivery(event, false)]
    {
      hide Sound, Emissions;
      var key := KeyOf(event);
      assert log + [] == log;
      if key !in inventoryLast || event.timestamp - inventoryLast[key] > INVENTORY_GENERATION_GAP_SECONDS {
        FlushKey(key);
        inventoryAnchor := inventoryAnchor[key := event.timestamp];
      }
      InventoriedNow(old(inventoryAnchor), inventories, event);
      InventoryIsSound(log, observed, history, bursts, inventories, event);
      hide Proven;
      inventories := inventories + [event];
      inventoryLast := inventoryLast[key := event.timestamp];
      Pass(event);
      DrainOutbox();
    }

    /** Live evidence is a boundary too, but only for state at or before its own time. */
    method ObserveLive(event: Event)
      requires Valid() && event.kind != StorageRecord
      modifies this
      ensures Valid() && emitted == old(emitted)
      ensures var key := KeyOf(event);
              var late := key in old(bursts) && event.timestamp < old(bursts)[key].first;
              var newer := key in old(inventoryAnchor) && event.timestamp < old(inventoryAnchor)[key];
              && observed == old(observed) + [event] && history == old(history)
              && bursts == (if late then old(bursts) else old(bursts) - {key})
              && inventoryAnchor == (if newer then old(inventoryAnchor) else old(inventoryAnchor) - {key})
              && inventoryLast == (if newer then old(inventoryLast) else old(inventoryLast) - {key})
              && log == old(log) + (if late then [] else old(Flushed(key))) + [Delivery(event, false)]
    {
      hide Sound, Emissions;
      var key := KeyOf(event);
      assert log + [] == log;
      if key !in bursts || event.timestamp >= bursts[key].first {
        FlushKey(key);
      }
      if key !in inventoryAnchor || event.timestamp >= inventoryAnchor[key] {
        inventoryAnchor, inventoryLast := inventoryAnchor - {key}, inventoryLast - {key};
      }
      Pass(event);
    }

    /** A neutral storage record joins a burst; any other event is handed on at once. */
    method ObserveStorage(event: Event)
      requires Valid() && outbox == []
      modifies this
      ensures Valid() && outbox == [] && emitted == Emissions(log) && observed == old(observed) + [event]
      ensures event.kind == StorageRecord ==>
                && inventoryAnchor == old(inventoryAnchor) && inventoryLast == old(inventoryLast)
                && history == old(history)[KeyOf(event) := old(Before(event)) + [Grown(old(Target(event)), event)]]
                && bursts == Updated(old(bursts), KeyOf(event), Kept(old(Target(event)), event))
                && log == old(log) + (if old(Joins(event)) then [] else old(Flushed(KeyOf(event))))
                          + Released(old(Target(event)), event)
      ensures event.kind != StorageRecord ==>
                && history == old(history)
                && (BurstAt(bursts, KeyOf(event)).Some? ==> event.timestamp < bursts[KeyOf(event)].first)
    {
      hide Sound, Proven, Emissions, Released, Grown, Kept;
      if event.kind != StorageRecord {
        ObserveLive(event);
      } else {
        Stage(event);
      }
      DrainOutbox();
    }

    /** Hand on what these keys still hold. */
    method FlushAll(keys: set<Key>)
      requires Valid()
      modifies this`bursts, this`outbox, this`log
      ensures Valid() && bursts == old(bursts) - keys && old(log) <= log
    {
      hide Sound, Proven, Emissions, Tagged;
      var rest := keys;
      while rest != {}
        invariant Valid() && rest <= keys && bursts == old(bursts) - (keys - rest) && old(log) <= log
        decreases |rest|
      {
        var key :| key in rest;
        FlushKey(key);
        rest := rest - {key};
      }
    }

    /** Bursts whose gap has run out at `now` are over, and so are epochs whose time has. */
    method FlushStale(now: real)
      requires Valid() && outbox == []
      modifies this
      ensures Valid() && outbox == [] && emitted == Emissions(log) && observed == old(observed)
      ensures history == old(history)
      ensures bursts ==
              map key | key in old(bursts) && now - old(bursts)[key].last <= 0.5 :: old(bursts)[key]
      ensures inventoryAnchor ==
              map key | key in old(inventoryAnchor) && now - old(inventoryAnchor)[key] <= 30.0 ::
                old(inventoryAnchor)[key]
      ensures inventoryLast == old(inventoryLast) - (old(inventoryAnchor).Keys - inventoryAnchor.Keys)
    {
      hide Sound, Emissions;
      var stale := set key | key in bursts && now - bursts[key].last > BURST_GAP_SECONDS;
      FlushAll(stale);
      var expired := set key | key in inventoryAnchor && now - inventoryAnchor[key] > HYDRATION_EPOCH_SECONDS;
      inventoryAnchor, inventoryLast := inventoryAnchor - expired, inventoryLast - expired;
      assert expired == old(inventoryAnchor).Keys - inventoryAnchor.Keys;
      DrainOutbox();
    }

    /** A flow is over: nothing of it stays behind. */
    method CloseFlow(flow: FlowKey)
      requires Valid() && outbox == []
      modifies this
      ensures Valid() && outbox == [] && emitted == Emissions(log) && observed == old(observed)
      ensures history == old(history)
      ensures bursts == map key | key in old(bursts) && key.flow != flow :: old(bursts)[key]
      ensures inventoryAnchor == map key | key in old(inventoryAnchor) && key.flow != flow :: old(inventoryAnchor)[key]
      ensures inventoryLast == map key | key in old(inventoryLast) && key.flow != flow :: old(inventoryLast)[key]
    {
      hide Sound, Emissions;
      var keys := set key | key in bursts.Keys + inventoryAnchor.Keys + inventoryLast.Keys && key.flow == flow;
      FlushAll(keys);
      inventoryAnchor, inventoryLast := inventoryAnchor - keys, inventoryLast - keys;
      DrainOutbox();
    }

    method FinalizeAll()
      requires Valid() && outbox == []
      modifies this
      ensures Valid() && outbox == [] && emitted == Emissions(log) && observed == old(observed)
      ensures history == old(history)
      ensures bursts == map[] && inventoryAnchor == map[] && inventoryLast == map[]
    {
      hide Sound, Emissions;
      FlushAll(bursts.Keys);
      inventoryAnchor, inventoryLast := map[], map[];
      DrainOutbox();
    }

    /** Storage records of one key come out in the order they were observed, the last ones of an
        unproven burst possibly still waiting. */
    lemma StorageKeepsItsOrder(key: Key)
      requires Valid()
      ensures StorageOf(Originals(log), key) + Pending(BurstAt(bursts, key)) == StorageOf(observed, key)
    {
      hide Coherent, Told, Summarises, OthersOf;
      assert KeySound(key, log, observed, HistoryAt(history, key), BurstAt(bursts, key), inventories);
      OriginalsOfDelivered(log, key);
      OriginalsParts(DeliveredOf(log, key), Tagged(Pending(BurstAt(bursts, key)), false));
      OriginalsOfTagged(Pending(BurstAt(bursts, key)), false);
    }

    /** Once nothing is pending, every observed event has been emitted exactly once. */
    lemma EverythingComesOutOnce()
      requires Valid() && outbox == [] && bursts == map[]
      ensures multiset(Originals(log)) == multiset(observed)
      ensures |emitted| == |observed| && forall i :: 0 <= i < |emitted| ==> emitted[i] == Emission(log[i])
    {
      hide KeySound, Originals;
      forall e: Event ensures multiset(Originals(log))[e] == multiset(observed)[e] {
        CountOthers(Originals(log), e);
        CountOthers(observed, e);
        CountStorage(Originals(log), KeyOf(e), e);
        CountStorage(observed, KeyOf(e), e);
        StorageKeepsItsOrder(KeyOf(e));
        assert StorageOf(Originals(log), KeyOf(e)) + [] == StorageOf(Originals(log), KeyOf(e));
      }
      SameCounts(Originals(log), observed);
      assert emitted + outbox == emitted;
    }

    /** Whatever was promoted belongs to a burst that was promoted as a whole and proves it. */
    lemma SnapshotsAreProven(i: nat) returns (c: Cohort, m: nat)
      requires Valid() && i < |log| && log[i].promoted
      ensures c in HistoryAt(history, KeyOf(log[i].original)) && c.promoted && m < |c.events|
      ensures c.events[m] == log[i].original
      ensures Coherent(c, KeyOf(log[i].original), inventories)
      ensures Enough(c.events, c.anchored)
    {
      hide Told, OthersOf, Summarises, DeliveredOf, Originals, Enough, Close, Covered;
      var key := KeyOf(log[i].original);
      assert KeySound(key, log, observed, HistoryAt(history, key), BurstAt(bursts, key), inventories);
      var j := IsDelivered(log, key, i);
      var told := Told(HistoryAt(history, key));
      assert told[j] == DeliveredOf(log, key)[j];
      var n;
      n, m := ToldBelongs(HistoryAt(history, key), j);
      c := HistoryAt(history, key)[n];
    }

    /** What is emitted for a neutral storage record is decided by its burst: a snapshot, with everything
        but kind and source as observed, if the burst fills eight storage places inside an inventory epoch,
        or seventeen with a record count of eight or more outside one; else the very record. Any other
        event comes out as it was. */
    lemma EmittedAreClassified(i: nat) returns (c: Cohort, m: nat)
      requires Valid() && outbox == [] && i < |log|
      ensures |emitted| == |log|
      ensures log[i].original.kind != StorageRecord ==> emitted[i] == log[i].original
      ensures log[i].original.kind == StorageRecord ==>
                && c in HistoryAt(history, KeyOf(log[i].original)) && m < |c.events| && c.events[m] == log[i].original
                && ClassifiedAs(c.events[m], emitted[i], SnapshotEvidence(c))
    {
      hide Told, OthersOf, Summarises, DeliveredOf, Originals, Enough, Close, Covered, SnapshotEvidence;
      var key := KeyOf(log[i].original);
      assert emitted + outbox == emitted;
      if log[i].original.kind == StorageRecord {
        assert KeySound(key, log, observed, HistoryAt(history, key), BurstAt(bursts, key), inventories);
        var j := IsDelivered(log, key, i);
        var told := Told(HistoryAt(history, key));
        assert told[j] == DeliveredOf(log, key)[j];
        var n;
        n, m := ToldBelongs(HistoryAt(history, key), j);
        c := HistoryAt(history, key)[n];
        assert Coherent(c, key, inventories);
        EnoughIsEvidence(c);
      } else {
        c, m := Cohort(false, None, [], false), 0;
      }
    }

    /** And each record of each burst of a key that has nothing pending was emitted so. */
    lemma RecordsAreEmitted(key: Key, n: nat, m: nat) returns (i: nat)
      requires Valid() && outbox == [] && key !in bursts
      requires n < |HistoryAt(history, key)| && m < |HistoryAt(history, key)[n].events|
      ensures var c := HistoryAt(history, key)[n];
              && i < |log| == |emitted| && log[i].original == c.events[m]
              && ClassifiedAs(c.events[m], emitted[i], SnapshotEvidence(c))
    {
      hide Told, OthersOf, Summarises, DeliveredOf, Originals, Enough, Close, Covered, SnapshotEvidence, Coherent;
      var h := HistoryAt(history, key);
      BurstsComeOutWhole(key);
      assert emitted + outbox == emitted;
      var j := BelongsToTold(h, n, m);
      i := DeliveredBelongs(log, key, j);
      assert Coherent(h[n], key, inventories);
      PromotedIsEnough(h[n], key, inventories);
      EnoughIsEvidence(h[n]);
    }

    /** Two records of one burst never come out one as a snapshot and one neutral: what a key delivers
        is its bursts one after the other, each wholly promoted or wholly neutral. */
    lemma BurstsComeOutWhole(key: Key)
      requires Valid() && key !in bursts
      ensures DeliveredOf(log, key) == Told(HistoryAt(history, key))
      ensures forall i :: 0 <= i < |HistoryAt(history, key)| ==> Coherent(HistoryAt(history, key)[i], key, inventories)
    {
      hide Coherent, Told, Summarises, OthersOf, DeliveredOf, StorageOf, Originals;
      assert KeySound(key, log, observed, HistoryAt(history, key), BurstAt(bursts, key), inventories);
      TaggedNothing();
      assert DeliveredOf(log, key) + [] == DeliveredOf(log, key);
    }
  }

  /** A snapshot has the kind and the source of one, and everything else from the record. */
  ghost predicate ClassifiedAs(e: Event, out: Event, snapshot: bool) {
    && out.flow == e.flow && out.generation == e.generation && out.timestamp == e.timestamp
    && out.opcode == e.opcode && out.storageId == e.storageId && out.recordCount == e.recordCount
    && out.details == e.details
    && if snapshot then out.kind == StorageSnapshot && out.source == None
       else out.kind == e.kind && out.source == e.source
  }

  /** At least this many different storage places, and outside an epoch a large enough record count. */
  ghost predicate SnapshotEvidence(c: Cohort) {
    var places := set m | 0 <= m < |c.events| && c.events[m].storageId.Some? :: c.events[m].storageId.value;
    if c.anchored then |places| >= 8
    else |places| >= 17 && exists m :: 0 <= m < |c.events| && LargeCount(c.events[m])
  }

  predicate LargeCount(e: Event) {
    e.recordCount.Some? && e.recordCount.value >= 8
  }

  lemma EnoughIsEvidence(c: Cohort)
    ensures Enough(c.events, c.anchored) <==> SnapshotEvidence(c)
  {
    hide Destinations, MaxRecordCount;
    var places := set m | 0 <= m < |c.events| && c.events[m].storageId.Some? :: c.events[m].storageId.value;
    assert places == Destinations(c.events);
    if MaxRecordCount(c.events) >= 8 {
      var m :| 0 <= m < |c.events| && c.events[m].recordCount == Some(MaxRecordCount(c.events));
      assert LargeCount(c.events[m]);
    }
  }

  lemma PromotedIsEnough(c: Cohort, key: Key, inventories: seq<Event>)
    requires Coherent(c, key, inventories)
    ensures c.promoted <==> Enough(c.events, c.anchored)
  {
  }

  lemma {:induction false} DeliveredBelongs(log: seq<Delivery>, key: Key, j: nat) returns (i: nat)
    requires j < |DeliveredOf(log, key)|
    ensures i < |log| && log[i] == DeliveredOf(log, key)[j]
  {
    var n := |log| - 1;
    if j < |DeliveredOf(log[..n], key)| {
      i := DeliveredBelongs(log[..n], key, j);
    } else {
      i := n;
    }
  }

  lemma {:induction false} BelongsToTold(history: seq<Cohort>, n: nat, m: nat) returns (j: nat)
    requires n < |history| && m < |history[n].events|
    ensures j < |Told(history)| && Told(history)[j] == Delivery(history[n].events[m], history[n].promoted)
  {
    var last := |history| - 1;
    if n < last {
      j := BelongsToTold(history[..last], n, m);
    } else {
      j := |Told(history[..last])| + m;
    }
  }

  lemma SameCounts(a: seq<Event>, b: seq<Event>)
    requires forall e: Event :: multiset(a)[e] == multiset(b)[e]
    ensures multiset(a) == multiset(b) && |a| == |b|
  {
    assert multiset(a) == multiset(b);
    assert |multiset(a)| == |a| && |multiset(b)| == |b|;
  }

  lemma {:induction false} OriginalsOfDelivered(log: seq<Delivery>, key: Key)
    ensures Originals(DeliveredOf(log, key)) == StorageOf(Originals(log), key)
  {
    if log != [] {
      var n := |log| - 1;
      OriginalsOfDelivered(log[..n], key);
      assert Originals(log) == Originals(log[..n]) + [log[n].original];
      StorageOfOne(Originals(log[..n]), log[n].original, key);
      OriginalsParts(DeliveredOf(log[..n], key), [log[n]]);
      OriginalsOfOne(log[n]);
    }
  }

  lemma {:induction false} CountStorage(events: seq<Event>, key: Key, e: Event)
    ensures StoredUnder(e, key) ==> multiset(StorageOf(events, key))[e] == multiset(events)[e]
  {
    if events != [] {
      var n := |events| - 1;
      CountStorage(events[..n], key, e);
      assert events == events[..n] + [events[n]];
    }
  }

  lemma {:induction false} CountOthers(events: seq<Event>, e: Event)
    ensures e.kind != StorageRecord ==> multiset(OthersOf(events))[e] == multiset(events)[e]
  {
    hide OthersOf;
    if events != [] {
      var n := |events| - 1;
      var before, last := events[..n], events[n];
      CountOthers(before, e);
      assert events == before + [last];
      OthersOfOne(before, last);
      CountLast(before, last, e);
      CountLast(OthersOf(before), last, e);
      assert OthersOf(before) + [] == OthersOf(before);
    } else {
      NoOthers();
    }
  }

  lemma NoOthers()
    ensures OthersOf([]) == []
  {
  }

  lemma CountLast(events: seq<Event>, last: Event, e: Event)
    ensures multiset(events + [last])[e] == multiset(events)[e] + if last == e then 1 else 0
  {
  }

  lemma {:induction false} IsDelivered(log: seq<Delivery>, key: Key, i: nat) returns (j: nat)
    requires i < |log| && StoredUnder(log[i].original, key)
    ensures j < |DeliveredOf(log, key)| && DeliveredOf(log, key)[j] == log[i]
  {
    var n := |log| - 1;
    if i == n {
      j := |DeliveredOf(log[..n], key)|;
    } else {
      j := IsDelivered(log[..n], key, i);
    }
  }

  lemma {:induction false} ToldBelongs(history: seq<Cohort>, j: nat) returns (n: nat, m: nat)
    requires j < |Told(history)|
    ensures n < |history| && m < |history[n].events|
    ensures Told(history)[j] == Delivery(history[n].events[m], history[n].promoted)
  {
    var last := |history| - 1;
    var before := Told(history[..last]);
    if j < |before| {
      n, m := ToldBelongs(history[..last], j);
    } else {
      n, m := last, j - |before|;
    }
  }

  // One burst from its first record to its last.

  /** Neutral records of one key and opcode, close together, and few enough to be kept. */
  ghost predicate OneBurst(records: seq<Event>) {
    && records != [] && |records| <= 10_000 && Close(records)
    && forall i :: 0 <= i < |records| ==>
         StoredUnder(records[i], KeyOf(records[0])) && records[i].opcode == records[0].opcode
  }

  /** These records, and whether they begin inside an epoch. */
  ghost function BurstOf(records: seq<Event>, anchored: bool): (c: Cohort)
    requires records != []
  {
    Cohort(anchored, records[0].opcode, records, Enough(records, anchored))
  }

  /** What was emitted beyond `before` are these records, each with the kind the burst deserves. */
  ghost predicate EmittedAs(emitted: seq<Event>, before: seq<Event>, records: seq<Event>, snapshot: bool) {
    && |emitted| == |before| + |records| && before <= emitted
    && forall i :: 0 <= i < |records| ==> ClassifiedAs(records[i], emitted[|before| + i], snapshot)
  }

  /** Records that are close together end up in one burst: with the evidence of a snapshot all of them
      have been emitted as snapshots, in order, without it none yet, and all are still waiting. */
  method ObserveBurst(tracker: StorageHydrationTracker, records: seq<Event>)
    requires tracker.Valid() && tracker.outbox == [] && records != [] && OneBurst(records)
    requires KeyOf(records[0]) !in tracker.bursts
    requires EpochCovers(tracker, records, KeyOf(records[0]) in tracker.inventoryAnchor)
    modifies tracker
    ensures tracker.Valid() && tracker.outbox == []
    ensures var key := KeyOf(records[0]);
            var snapshot := SnapshotEvidence(BurstOf(records, key in old(tracker.inventoryAnchor)));
            && EmittedAs(tracker.emitted, old(tracker.emitted), if snapshot then records else [], snapshot)
            && key in tracker.bursts && tracker.bursts[key].events == if snapshot then [] else records
  {
    hide StorageHydrationTracker.Valid, SnapshotEvidence, OneBurst, Emissions, InBurst, BurstOf;
    ghost var key, anchored := KeyOf(records[0]), KeyOf(records[0]) in tracker.inventoryAnchor;
    ghost var h, l := HistoryAt(tracker.history, key), tracker.log;
    NothingWaits(tracker);
    BurstBegins(tracker, records, anchored, h, l);
    var i := 0;
    while i < |records|
      invariant 0 <= i <= |records| && tracker.Valid() && tracker.outbox == []
      invariant tracker.inventoryAnchor == old(tracker.inventoryAnchor)
      invariant InBurst(tracker, records, i, anchored, h, l)
    {
      ObserveNext(tracker, records, i, anchored, h, l);
      i := i + 1;
    }
    AllHandedOn(tracker, old(tracker.emitted), h, l, records, anchored);
  }

  /** The first `i` records are in, and nothing else was handed on since `l`. */
  ghost predicate InBurst(tracker: StorageHydrationTracker, records: seq<Event>, i: nat, anchored: bool,
                          h: seq<Cohort>, l: seq<Delivery>)
    requires i <= |records| && records != []
    reads tracker
  {
    var key := KeyOf(records[0]);
    && tracker.log == l + HandedOn(records[..i], anchored)
    && tracker.emitted == Emissions(tracker.log)
    && if i == 0 then key !in tracker.bursts && HistoryAt(tracker.history, key) == h
       else && key in tracker.bursts && HistoryAt(tracker.history, key) == h + [BurstOf(records[..i], anchored)]
            && Summarises(tracker.bursts[key], BurstOf(records[..i], anchored))
  }

  /** The epoch of the key, if it has one, covers all the records. */
  ghost predicate EpochCovers(tracker: StorageHydrationTracker, records: seq<Event>, anchored: bool)
    requires records != []
    reads tracker
  {
    var key := KeyOf(records[0]);
    && (key in tracker.inventoryAnchor <==> anchored)
    && (anchored ==> tracker.inventoryAnchor[key] <= records[0].timestamp
                     && records[|records| - 1].timestamp <= tracker.inventoryAnchor[key] + 30.0)
  }

  method ObserveNext(tracker: StorageHydrationTracker, records: seq<Event>, i: nat, ghost anchored: bool,
                     ghost h: seq<Cohort>, ghost l: seq<Delivery>)
    requires tracker.Valid() && tracker.outbox == [] && OneBurst(records) && i < |records|
    requires EpochCovers(tracker, records, anchored) && InBurst(tracker, records, i, anchored, h, l)
    modifies tracker
    ensures tracker.Valid() && tracker.outbox == [] && tracker.inventoryAnchor == old(tracker.inventoryAnchor)
    ensures InBurst(tracker, records, i + 1, anchored, h, l)
  {
    hide StorageHydrationTracker.Valid, Emissions, Summarises, OneBurst, StorageHydrationTracker.Target,
        StorageHydrationTracker.Before, StorageHydrationTracker.Joins, Grown, Released, Kept, Tagged, BurstOf,
        HandedOn, EpochCovers;
    RecordGoes(tracker, records, i, anchored, h, l);
    BurstGrows(records, i, anchored, l);
    tracker.ObserveStorage(records[i]);
  }

  /** The burst that record `i` goes to. */
  ghost function OpenBurst(records: seq<Event>, i: nat, anchored: bool): (c: Cohort)
    requires i < |records|
  {
    if i == 0 then Cohort(anchored, records[0].opcode, [], false) else BurstOf(records[..i], anchored)
  }

  /** What a burst has handed on so far. */
  ghost function HandedOn(records: seq<Event>, anchored: bool): (block: seq<Delivery>) {
    if records != [] && Enough(records, anchored) then Tagged(records, true) else []
  }

  lemma BurstBegins(tracker: StorageHydrationTracker, records: seq<Event>, anchored: bool, h: seq<Cohort>,
                    l: seq<Delivery>)
    requires tracker.Valid() && tracker.outbox == [] && records != [] && tracker.log == l
    requires var key := KeyOf(records[0]); key !in tracker.bursts && HistoryAt(tracker.history, key) == h
    ensures InBurst(tracker, records, 0, anchored, h, l)
  {
    hide Sound, Emissions;
    assert tracker.emitted + tracker.outbox == tracker.emitted;
    assert l + HandedOn(records[..0], anchored) == l;
  }

  /** The record is the first of a new burst, or joins the one before it. */
  lemma RecordGoes(tracker: StorageHydrationTracker, records: seq<Event>, i: nat, anchored: bool, h: seq<Cohort>,
                   l: seq<Delivery>)
    requires OneBurst(records) && i < |records|
    requires EpochCovers(tracker, records, anchored) && InBurst(tracker, records, i, anchored, h, l)
    ensures records[i].kind == StorageRecord && KeyOf(records[i]) == KeyOf(records[0])
    ensures tracker.Before(records[i]) == h && (tracker.Joins(records[i]) <==> i > 0)
    ensures tracker.Target(records[i]) == OpenBurst(records, i, anchored)
  {
    hide Enough, Destinations, MaxRecordCount, HandedOn, Emissions;
    InOrder(records, 0, i);
    InOrder(records, i, |records| - 1);
    assert StoredUnder(records[i], KeyOf(records[0]));
    if i > 0 {
      assert records[..i][0] == records[0] && records[..i][|records[..i]| - 1] == records[i - 1];
    }
  }

  lemma {:induction false} InOrder(records: seq<Event>, i: nat, j: nat)
    requires i <= j < |records| && Close(records)
    ensures records[i].timestamp <= records[j].timestamp
  {
    if i < j {
      InOrder(records, i, j - 1);
      assert records[j - 1].timestamp <= records[j - 1 + 1].timestamp;
    }
  }

  /** One record more in the burst, and what that hands on. */
  lemma BurstGrows(records: seq<Event>, i: nat, anchored: bool, l: seq<Delivery>)
    requires OneBurst(records) && i < |records|
    ensures var c, e := OpenBurst(records, i, anchored), records[i];
            && Grown(c, e) == BurstOf(records[..i + 1], anchored)
            && Kept(c, e).Some? && Summarises(Kept(c, e).value, BurstOf(records[..i + 1], anchored))
            && l + HandedOn(records[..i], anchored) + Released(c, e) == l + HandedOn(records[..i + 1], anchored)
            && l + HandedOn(records[..i], anchored) + Tagged([], false) + Released(c, e) ==
               l + HandedOn(records[..i + 1], anchored)
  {
    hide Enough, Destinations, MaxRecordCount, OneBurst, Summarises, HandedOn, Released, Tagged;
    BurstIsSmall(records);
    assert records[..i] + [records[i]] == records[..i + 1];
    KeptSummarises(OpenBurst(records, i, anchored), records[i]);
    HandsOn(records[..i], records[i], anchored, OpenBurst(records, i, anchored));
    TaggedNothing();
    Regroup(l, HandedOn(records[..i], anchored), Released(OpenBurst(records, i, anchored), records[i]));
    assert l + HandedOn(records[..i], anchored) + [] == l + HandedOn(records[..i], anchored);
  }

  lemma HandsOn(events: seq<Event>, e: Event, anchored: bool, c: Cohort)
    requires c.events == events && c.anchored == anchored && |events| < 10_000
    requires c.promoted <==> events != [] && Enough(events, anchored)
    ensures HandedOn(events, anchored) + Released(c, e) == HandedOn(events + [e], anchored)
  {
    hide Enough, Tagged;
    if c.promoted {
      EnoughStays(events, e, anchored);
      TaggedParts(events, e, true);
    }
  }

  lemma BurstIsSmall(records: seq<Event>)
    requires OneBurst(records)
    ensures |records| <= 10_000
  {
  }

  lemma AllHandedOn(tracker: StorageHydrationTracker, before: seq<Event>, h: seq<Cohort>, l: seq<Delivery>,
                    records: seq<Event>, anchored: bool)
    requires records != [] && before == Emissions(l) && InBurst(tracker, records, |records|, anchored, h, l)
    ensures var key, snapshot := KeyOf(records[0]), SnapshotEvidence(BurstOf(records, anchored));
            && EmittedAs(tracker.emitted, before, if snapshot then records else [], snapshot)
            && key in tracker.bursts && tracker.bursts[key].events == if snapshot then [] else records
  {
    hide Enough, SnapshotEvidence, Destinations, MaxRecordCount;
    assert records[..|records|] == records;
    EnoughIsEvidence(BurstOf(records, anchored));
    EmissionsParts(l, HandedOn(records, anchored));
  }

  lemma NothingWaits(tracker: StorageHydrationTracker)
    requires tracker.Valid() && tracker.outbox == []
    ensures tracker.emitted == Emissions(tracker.log)
  {
    assert tracker.emitted + tracker.outbox == tracker.emitted;
  }
}
