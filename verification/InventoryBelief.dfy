// Which records the boundary releases, said of the whole run: those of a believed block, all of them,
// and no others.
module InventoryBelief {
  import opened Wire
  import opened ScannerLog
  import opened InventoryBoundary

  /** Input `i` is a record of a wrapper with a place in the stream. */
  predicate PlacedAt(run: seq<Input>, i: nat) {
    i < |run| && run[i].Wrapper? && run[i].record.frame.start.Some?
  }

  function FrameAt(run: seq<Input>, i: nat): (f: FrameKey)
    requires i < |run| && run[i].Wrapper?
  {
    run[i].record.frame
  }

  function KeyAt(run: seq<Input>, i: nat): (k: Key)
    requires i < |run| && run[i].Wrapper?
  {
    KeyOf(FrameAt(run, i))
  }

  /** The last record seen under a key. */
  function LastPlaced(run: seq<Input>, key: Key): (l: Option<nat>)
    ensures l.Some? ==> PlacedAt(run, l.value) && KeyAt(run, l.value) == key
    ensures forall i: nat :: PlacedAt(run, i) && KeyAt(run, i) == key ==> l.Some? && i <= l.value
  {
    if run == [] then None
    else
      var n := |run| - 1;
      if PlacedAt(run, n) && KeyAt(run, n) == key then Some(n)
      else
        assert forall i: nat :: PlacedAt(run, i) && KeyAt(run, i) == key ==>
                 PlacedAt(run[..n], i) && KeyAt(run[..n], i) == key;
        LastPlaced(run[..n], key)
  }

  /** The record before `i` under its key, unless the key was forgotten in between. */
  function Before(run: seq<Input>, i: nat): (b: Option<nat>)
    requires PlacedAt(run, i)
    ensures b.Some? ==> b.value < i && PlacedAt(run, b.value) && KeyAt(run, b.value) == KeyAt(run, i)
  {
    var key, earlier := KeyAt(run, i), run[..i];
    if Lookup(Run(earlier).states, key).None? then None
    else
      var l := LastPlaced(earlier, key);
      assert l.Some? ==> PlacedAt(earlier, l.value) && earlier[l.value] == run[l.value];
      l
  }

  /** A block is an unbroken succession of records of one wrapper; this is its first one. */
  function Head(run: seq<Input>, i: nat): (h: nat)
    requires PlacedAt(run, i)
    ensures h <= i && PlacedAt(run, h) && FrameAt(run, h) == FrameAt(run, i)
    decreases i
  {
    var b := Before(run, i);
    if b.Some? && FrameAt(run, b.value) == FrameAt(run, i) then Head(run, b.value) else i
  }

  /** Some record of the block was seen as a top-level frame. */
  ghost predicate TopIn(run: seq<Input>, h: nat) {
    exists j: nat :: PlacedAt(run, j) && Head(run, j) == h && run[j].topLevel
  }

  /** The block's wrapper starts where the remembered one before it ends. */
  ghost predicate Continues(run: seq<Input>, h: nat)
    requires PlacedAt(run, h)
  {
    var b := Before(run, h);
    b.Some? && FrameAt(run, b.value) != FrameAt(run, h) && Abut(FrameAt(run, b.value), FrameAt(run, h))
  }

  /** The wrapper that comes next, while the block is remembered, starts where the block's one ends. */
  ghost predicate Continued(run: seq<Input>, h: nat)
    requires PlacedAt(run, h)
  {
    exists j: nat :: PlacedAt(run, j) && ContinuesAt(run, h, j)
  }

  ghost predicate ContinuesAt(run: seq<Input>, h: nat, j: nat)
    requires PlacedAt(run, h) && PlacedAt(run, j)
  {
    var b := Before(run, j);
    b.Some? && Head(run, b.value) == h && FrameAt(run, h) != FrameAt(run, j) && Abut(FrameAt(run, h), FrameAt(run, j))
  }

  ghost predicate Believed(run: seq<Input>, h: nat)
    requires PlacedAt(run, h)
  {
    TopIn(run, h) || Continues(run, h) || Continued(run, h)
  }

  ghost predicate Released(run: seq<Input>, i: nat)
    requires i < |run| && run[i].Wrapper?
  {
    Holds(Run(run).released, run[i].record)
  }

  ghost predicate Holds(outs: seq<Out>, r: Record) {
    exists m :: 0 <= m < |outs| && outs[m].record == r
  }

  lemma HoldsEither(a: seq<Out>, b: seq<Out>, r: Record)
    ensures Holds(a + b, r) <==> Holds(a, r) || Holds(b, r)
  {
    if m :| 0 <= m < |a| && a[m].record == r {
      assert (a + b)[m].record == r;
    }
    if m :| 0 <= m < |b| && b[m].record == r {
      assert (a + b)[|a| + m].record == r;
    }
  }

  // What one more input leaves as it was.

  lemma PrefixOf(run: seq<Input>, x: Input, i: nat)
    requires i <= |run|
    ensures (run + [x])[..i] == run[..i]
  {
  }

  lemma BeforeStays(run: seq<Input>, x: Input, i: nat)
    requires PlacedAt(run, i)
    ensures PlacedAt(run + [x], i) && Before(run + [x], i) == Before(run, i)
  {
    PrefixOf(run, x, i);
  }

  lemma {:induction false} HeadStays(run: seq<Input>, x: Input, i: nat)
    requires PlacedAt(run, i)
    ensures PlacedAt(run + [x], i) && Head(run + [x], i) == Head(run, i)
    decreases i
  {
    hide Before;
    BeforeStays(run, x, i);
    var b := Before(run, i);
    if b.Some? && FrameAt(run, b.value) == FrameAt(run, i) {
      HeadStays(run, x, b.value);
    }
  }

  /** Between a block's first record and its last, every record of the key belongs to it. */
  lemma {:induction false} BlockIsUnbroken(run: seq<Input>, l: nat, j: nat)
    requires PlacedAt(run, l) && PlacedAt(run, j) && KeyAt(run, j) == KeyAt(run, l) && Head(run, l) <= j <= l
    ensures Head(run, j) == Head(run, l)
    decreases l
  {
    if j < l {
      var b := Before(run, l);
      assert b.Some? && FrameAt(run, b.value) == FrameAt(run, l);
      assert PlacedAt(run[..l], j) && KeyAt(run[..l], j) == KeyAt(run, l);
      assert j <= b.value;
      BlockIsUnbroken(run, b.value, j);
    }
  }

  /** The block of the last record of a key has no successor yet. */
  lemma LastHasNoSuccessor(run: seq<Input>, l: nat)
    requires PlacedAt(run, l) && LastPlaced(run, KeyAt(run, l)) == Some(l)
    ensures !Continued(run, Head(run, l))
  {
    var h := Head(run, l);
    forall j: nat | PlacedAt(run, j) ensures !ContinuesAt(run, h, j) {
      if ContinuesAt(run, h, j) {
        assert KeyAt(run, j) == KeyAt(run, h) && h <= Before(run, j).value < j <= l;
        BlockIsUnbroken(run, l, j);
      }
    }
  }

  // One more input.

  /** An older block gains a top-level record or a successor only through the newest input. */
  lemma OldBlock(run: seq<Input>, x: Input, h: nat)
    requires PlacedAt(run, h)
    ensures var later, n := run + [x], |run|;
            && PlacedAt(later, h) && (Continues(later, h) <==> Continues(run, h))
            && (TopIn(later, h) <==> TopIn(run, h) || (PlacedAt(later, n) && Head(later, n) == h && later[n].topLevel))
            && (Continued(later, h) <==> Continued(run, h) || (PlacedAt(later, n) && ContinuesAt(later, h, n)))
  {
    hide Head, Before, TopIn, Continued;
    BeforeStays(run, x, h);
    OldTop(run, x, h);
    OldSuccessor(run, x, h);
  }

  lemma OldTop(run: seq<Input>, x: Input, h: nat)
    requires PlacedAt(run, h)
    ensures var later, n := run + [x], |run|;
            TopIn(later, h) <==> TopIn(run, h) || (PlacedAt(later, n) && Head(later, n) == h && later[n].topLevel)
  {
    hide Head, Before;
    var later, n := run + [x], |run|;
    forall j: nat | PlacedAt(run, j) ensures Head(later, j) == Head(run, j) && later[j] == run[j] {
      HeadStays(run, x, j);
    }
    assert forall j: nat :: PlacedAt(later, j) ==> j == n || PlacedAt(run, j);
  }

  lemma OldSuccessor(run: seq<Input>, x: Input, h: nat)
    requires PlacedAt(run, h)
    ensures var later, n := run + [x], |run|;
            PlacedAt(later, h) && (Continued(later, h) <==>
                                     Continued(run, h) || (PlacedAt(later, n) && ContinuesAt(later, h, n)))
  {
    hide Head, Before, ContinuesAt;
    var later, n := run + [x], |run|;
    forall j: nat | PlacedAt(run, j)
      ensures PlacedAt(later, j) && (ContinuesAt(later, h, j) <==> ContinuesAt(run, h, j))
    {
      ContinuesStays(run, x, h, j);
    }
    assert forall j: nat :: PlacedAt(later, j) ==> j == n || PlacedAt(run, j);
  }

  lemma ContinuesStays(run: seq<Input>, x: Input, h: nat, j: nat)
    requires PlacedAt(run, h) && PlacedAt(run, j)
    ensures ContinuesAt(run + [x], h, j) <==> ContinuesAt(run, h, j)
  {
    hide Head, Before;
    BeforeStays(run, x, j);
    if Before(run, j).Some? {
      HeadStays(run, x, Before(run, j).value);
    }
  }

  /** A block that begins with the newest input. */
  lemma NewBlock(run: seq<Input>, x: Input)
    requires PlacedAt(run + [x], |run|) && Head(run + [x], |run|) == |run|
    ensures TopIn(run + [x], |run|) <==> x.topLevel
    ensures !Continued(run + [x], |run|)
  {
    hide Before;
    var later, n := run + [x], |run|;
    assert later[n] == x;
    forall j: nat | PlacedAt(later, j) ensures !ContinuesAt(later, n, j) && (Head(later, j) == n ==> j == n) {
      assert j <= n;
    }
  }

  /** The state remembers the last wrapper of each key, whether its block is believed so far, and if not
      all of its records. */
  ghost predicate Tracks(run: seq<Input>, e: Entry) {
    var l := LastPlaced(run, e.key);
    l.Some? && FrameAt(run, l.value) == e.boundary.frame &&
    var h := Head(run, l.value);
    && (e.boundary.accepted <==> TopIn(run, h) || Continues(run, h))
    && (forall r :: r in e.boundary.records ==> InBlock(run, r, h))
    && (!e.boundary.accepted ==> forall i: nat :: PlacedAt(run, i) && Head(run, i) == h ==>
          run[i].record in e.boundary.records)
  }

  ghost predicate InBlock(run: seq<Input>, r: Record, h: nat) {
    PlacedAt(run, r.number) && run[r.number].record == r && Head(run, r.number) == h
  }

  /** The records of believed blocks are released, and no others. */
  ghost predicate Exact(run: seq<Input>) {
    && (forall e :: e in Run(run).states ==> Tracks(run, e))
    && (forall i: nat :: PlacedAt(run, i) ==> (Released(run, i) <==> Believed(run, Head(run, i))))
  }

  /** What is released has arrived already. */
  lemma ReleasedHasArrived(run: seq<Input>, r: Record)
    requires Numbered(run) && Holds(Run(run).released, r)
    ensures Known(run, r)
  {
    hide Run, Proven, Carried;
    RunIsSound(run);
    var m :| 0 <= m < |Run(run).released| && Run(run).released[m].record == r;
    assert OutSound(run, Run(run).released[m]);
  }

  /** What one more input releases, of what is there and of what is new. */
  lemma ReleasedLater(run: seq<Input>, x: Input, ready: seq<Out>, i: nat)
    requires Numbered(run + [x]) && i <= |run| && (run + [x])[i].Wrapper?
    requires Run(run + [x]).released == Run(run).released + ready
    ensures Released(run + [x], i) <==> (i < |run| && Released(run, i)) || Holds(ready, (run + [x])[i].record)
  {
    hide Run, Holds, Known;
    var r := (run + [x])[i].record;
    HoldsEither(Run(run).released, ready, r);
    assert Numbered(run) by {
      assert forall k :: 0 <= k < |run| ==> (run + [x])[k] == run[k];
    }
    if i == |run| && Holds(Run(run).released, r) {
      ReleasedHasArrived(run, r);
      NotYetKnown(run, r);
    }
  }

  lemma NotYetKnown(run: seq<Input>, r: Record)
    requires Known(run, r)
    ensures r.number < |run|
  {
  }

  /** Inputs other than placed records change nothing about blocks. */
  lemma OtherInput(run: seq<Input>, x: Input, ready: seq<Out>)
    requires Numbered(run + [x]) && Exact(run) && !PlacedAt(run + [x], |run|)
    requires forall e :: e in Run(run + [x]).states ==> e in Run(run).states
    requires Run(run + [x]).released == Run(run).released + ready
    requires forall m :: 0 <= m < |ready| ==> ready[m].record.number == |run|
    ensures Exact(run + [x])
  {
    hide Run, Head, Before, Continues, Continued, TopIn, Released;
    var later := run + [x];
    forall i: nat | PlacedAt(later, i) ensures Released(later, i) <==> Believed(later, Head(later, i)) {
      assert i < |run| && later[i] == run[i] && PlacedAt(run, i);
      HeadStays(run, x, i);
      OldBlock(run, x, Head(run, i));
      ReleasedLater(run, x, ready, i);
      assert later[i].record.number == i;
    }
    forall e | e in Run(later).states ensures Tracks(later, e) {
      TracksOn(run, x, e);
    }
  }

  /** An entry of a key the newest input does not name stays right. */
  lemma TracksOn(run: seq<Input>, x: Input, e: Entry)
    requires Tracks(run, e) && (PlacedAt(run + [x], |run|) ==> KeyAt(run + [x], |run|) != e.key)
    ensures Tracks(run + [x], e)
  {
    hide Head, Before, Continues, Continued, TopIn;
    var later, n := run + [x], |run|;
    assert later[..n] == run;
    var l := LastPlaced(run, e.key).value;
    var h := Head(run, l);
    HeadStays(run, x, l);
    OldBlock(run, x, h);
    forall r | r in e.boundary.records ensures InBlock(later, r, h) {
      HeadStays(run, x, r.number);
    }
    forall i: nat | PlacedAt(later, i) && Head(later, i) == h
      ensures PlacedAt(run, i) && Head(run, i) == h && later[i] == run[i]
    {
      assert KeyAt(later, i) == KeyAt(later, h) && later[h] == run[h];
      assert i < n;
      HeadStays(run, x, i);
    }
  }

  // A placed record: `before` is what its key remembers.

  predicate Same(before: Option<Boundary>, record: Record) {
    before.Some? && before.value.frame == record.frame
  }

  predicate Adjoins(before: Option<Boundary>, record: Record) {
    before.Some? && before.value.frame != record.frame && Some(before.value.end) == record.frame.start
  }

  /** What a decision releases: the record if anything vouches for its wrapper, and what waits if the
      record vouches for that. */
  lemma DecisionHolds(before: Option<Boundary>, record: Record, message: Bytes, topLevel: bool, r: Record)
    requires record.frame.start.Some? && (before.Some? && before.value.accepted ==> before.value.records == [])
    ensures var d := Decide(before, record, message, topLevel);
            Holds(d.ready, r) <==>
              || (r == record
                  && (topLevel || Adjoins(before, record) || (Same(before, record) && before.value.accepted)))
              || (r in Waiting(before) && (Adjoins(before, record) || (Same(before, record) && topLevel)))
  {
    hide Holds;
    HoldsOne(record, message, r);
    if before.Some? {
      HoldsWaiting(before.value.records, before.value.message, r);
      HoldsEither(Outs(before.value.records, before.value.message), [Out(record, message)], r);
    }
    HoldsNothing(r);
  }

  lemma HoldsNothing(r: Record)
    ensures !Holds([], r)
  {
  }

  lemma HoldsOne(record: Record, message: Bytes, r: Record)
    ensures Holds([Out(record, message)], r) <==> r == record
  {
    assert [Out(record, message)][0].record == record;
  }

  lemma HoldsWaiting(records: seq<Record>, message: Bytes, r: Record)
    ensures Holds(Outs(records, message), r) <==> r in records
  {
    if m :| 0 <= m < |records| && records[m] == r {
      assert Outs(records, message)[m].record == r;
    }
  }

  /** How the newest record stands to the last block of its key. */
  ghost predicate Placing(run: seq<Input>, x: Input, before: Option<Boundary>, l: nat) {
    && x.Wrapper? && x.record.frame.start.Some? && before == Lookup(Run(run).states, KeyOf(x.record.frame))
    && (before.Some? ==>
          && PlacedAt(run, l) && LastPlaced(run, KeyOf(x.record.frame)) == Some(l)
          && FrameAt(run, l) == before.value.frame
          && Tracks(run, Entry(KeyOf(x.record.frame), before.value))
          && BoundarySound(run, KeyOf(x.record.frame), before.value))
  }

  lemma PlacingOf(run: seq<Input>, x: Input) returns (before: Option<Boundary>, l: nat)
    requires Numbered(run) && Exact(run) && x.Wrapper? && x.record.frame.start.Some?
    ensures Placing(run, x, before, l)
  {
    hide Run, Proven, Carried, Released, Believed;
    RunIsSound(run);
    var key := KeyOf(x.record.frame);
    before := Lookup(Run(run).states, key);
    l := 0;
    if before.Some? {
      var e := Entry(key, before.value);
      assert e in Run(run).states;
      l := LastPlaced(run, key).value;
    }
  }

  lemma BeforeNewest(run: seq<Input>, x: Input, before: Option<Boundary>, l: nat)
    requires Placing(run, x, before, l)
    ensures PlacedAt(run + [x], |run|) && Before(run + [x], |run|) == if before.Some? then Some(l) else None
  {
    hide Run, Tracks, BoundarySound;
    assert (run + [x])[..|run|] == run;
  }

  /** A record of the wrapper seen last joins its block. */
  lemma Joins(run: seq<Input>, x: Input, before: Option<Boundary>, l: nat)
    requires Placing(run, x, before, l) && Same(before, x.record)
    ensures PlacedAt(run + [x], |run|) && Head(run + [x], |run|) == Head(run, l)
    ensures forall h: nat :: PlacedAt(run + [x], h) ==> !ContinuesAt(run + [x], h, |run|)
  {
    hide Run, Tracks, BoundarySound, Before;
    BeforeNewest(run, x, before, l);
    HeadStays(run, x, l);
  }

  /** Any other record begins one; it continues the block before it exactly if the wrappers abut. */
  lemma Begins(run: seq<Input>, x: Input, before: Option<Boundary>, l: nat)
    requires Placing(run, x, before, l) && !Same(before, x.record)
    ensures PlacedAt(run + [x], |run|) && Head(run + [x], |run|) == |run|
    ensures Continues(run + [x], |run|) <==> Adjoins(before, x.record)
    ensures forall h: nat :: PlacedAt(run, h) && PlacedAt(run + [x], h) ==>
              (ContinuesAt(run + [x], h, |run|) <==> Adjoins(before, x.record) && h == Head(run, l))
  {
    hide Run, Tracks, Before;
    BeforeNewest(run, x, before, l);
    if before.Some? {
      HeadStays(run, x, l);
    }
  }

  /** An earlier record waits exactly if it belongs to the last block of its key and that is not believed. */
  lemma WaitsInLastBlock(run: seq<Input>, x: Input, before: Option<Boundary>, l: nat, i: nat)
    requires Numbered(run) && Placing(run, x, before, l) && PlacedAt(run, i)
    ensures run[i].record in Waiting(before) <==> before.Some? && !before.value.accepted && Head(run, i) == Head(run, l)
  {
    hide Run, Head, TopIn, Continues;
  }

  /** The block of the key's last record is believed exactly if the state says so. */
  lemma LastIsBelieved(run: seq<Input>, x: Input, before: Option<Boundary>, l: nat)
    requires Placing(run, x, before, l) && before.Some?
    ensures Believed(run, Head(run, l)) <==> before.value.accepted
  {
    hide Run, Head, TopIn, Continues, Continued;
    LastHasNoSuccessor(run, l);
  }

  lemma StepOf(run: seq<Input>, x: Input, before: Option<Boundary>, l: nat)
    requires Placing(run, x, before, l)
    ensures var d := Decide(before, x.record, x.message, x.topLevel);
            && Run(run + [x]).released == Run(run).released + d.ready
            && Run(run + [x]).states ==
               Bounded(Removed(Run(run).states, KeyOf(x.record.frame)) + [Entry(KeyOf(x.record.frame), d.boundary)])
  {
    hide Decide, Bounded, Removed, Tracks, BoundarySound;
    assert (run + [x])[..|run|] == run;
  }

  /** An earlier record is released by the newest one exactly if its block becomes believed through it. */
  lemma EarlierIsExact(run: seq<Input>, x: Input, before: Option<Boundary>, l: nat, i: nat)
    requires Numbered(run + [x]) && Numbered(run) && Exact(run) && Placing(run, x, before, l) && PlacedAt(run, i)
    ensures PlacedAt(run + [x], i) && (Released(run + [x], i) <==> Believed(run + [x], Head(run + [x], i)))
  {
    hide Run, Head, Before, TopIn, Continues, Continued, ContinuesAt, Released, Decide, Tracks, LastPlaced;
    var later, n := run + [x], |run|;
    assert later[i] == run[i] && later[n] == x && later[n].record.number == n;
    HeadStays(run, x, i);
    OldBlock(run, x, Head(run, i));
    StepOf(run, x, before, l);
    ReleasedLater(run, x, Decide(before, x.record, x.message, x.topLevel).ready, i);
    DecisionHolds(before, x.record, x.message, x.topLevel, run[i].record);
    WaitsInLastBlock(run, x, before, l, i);
    if before.Some? {
      LastIsBelieved(run, x, before, l);
    }
    if Same(before, x.record) {
      Joins(run, x, before, l);
    } else {
      Begins(run, x, before, l);
    }
  }

  /** So is the newest record itself. */
  lemma NewestIsExact(run: seq<Input>, x: Input, before: Option<Boundary>, l: nat)
    requires Numbered(run + [x]) && Numbered(run) && Exact(run) && Placing(run, x, before, l)
    ensures PlacedAt(run + [x], |run|) && (Released(run + [x], |run|) <==> Believed(run + [x], Head(run + [x], |run|)))
  {
    hide Run, Head, Before, TopIn, Continues, Continued, ContinuesAt, Released, Decide, Tracks, LastPlaced;
    var later, n := run + [x], |run|;
    assert later[n] == x && x.record.number == n;
    StepOf(run, x, before, l);
    ReleasedLater(run, x, Decide(before, x.record, x.message, x.topLevel).ready, n);
    DecisionHolds(before, x.record, x.message, x.topLevel, x.record);
    NewestDoesNotWait(run, x, before, l);
    if Same(before, x.record) {
      Joins(run, x, before, l);
      OldBlock(run, x, Head(run, l));
      LastIsBelieved(run, x, before, l);
    } else {
      Begins(run, x, before, l);
      NewBlock(run, x);
    }
  }

  lemma NewestDoesNotWait(run: seq<Input>, x: Input, before: Option<Boundary>, l: nat)
    requires Placing(run, x, before, l) && x.record.number == |run|
    ensures x.record !in Waiting(before)
  {
    hide Run, Tracks;
  }

  /** The entry written for the newest record is right. */
  lemma NewestTracks(run: seq<Input>, x: Input, before: Option<Boundary>, l: nat)
    requires Numbered(run + [x]) && Numbered(run) && Placing(run, x, before, l)
    ensures Tracks(run + [x], Entry(KeyOf(x.record.frame), Decide(before, x.record, x.message, x.topLevel).boundary))
  {
    hide Run, Head, Before, TopIn, Continues, Continued, ContinuesAt, Decide, LastPlaced, Tracks;
    var later, n, b := run + [x], |run|, Decide(before, x.record, x.message, x.topLevel).boundary;
    assert later[n] == x && x.record.number == n;
    LastIsNewest(run, x);
    if Same(before, x.record) {
      Joins(run, x, before, l);
      OldBlock(run, x, Head(run, l));
      GrownTracks(run, x, before, l, b);
    } else {
      Begins(run, x, before, l);
      NewBlock(run, x);
      FreshTracks(run, x, before, b);
    }
  }

  lemma LastIsNewest(run: seq<Input>, x: Input)
    requires PlacedAt(run + [x], |run|)
    ensures LastPlaced(run + [x], KeyAt(run + [x], |run|)) == Some(|run|)
  {
    assert |run + [x]| - 1 == |run|;
  }

  lemma FreshTracks(run: seq<Input>, x: Input, before: Option<Boundary>, b: Boundary)
    requires PlacedAt(run + [x], |run|) && Head(run + [x], |run|) == |run| && x.record.number == |run|
    requires LastPlaced(run + [x], KeyOf(x.record.frame)) == Some(|run|)
    requires !Same(before, x.record) && b == Decide(before, x.record, x.message, x.topLevel).boundary
    requires TopIn(run + [x], |run|) <==> x.topLevel
    requires Continues(run + [x], |run|) <==> Adjoins(before, x.record)
    ensures Tracks(run + [x], Entry(KeyOf(x.record.frame), b))
  {
    hide Run, Before, TopIn, Continues, LastPlaced;
    var later, n := run + [x], |run|;
    assert later[n] == x;
    forall i: nat | PlacedAt(later, i) && Head(later, i) == n ensures i == n {
      assert n <= i;
    }
  }

  lemma GrownTracks(run: seq<Input>, x: Input, before: Option<Boundary>, l: nat, b: Boundary)
    requires Numbered(run + [x]) && Placing(run, x, before, l) && Same(before, x.record)
    requires PlacedAt(run + [x], |run|) && Head(run + [x], |run|) == Head(run, l)
    requires LastPlaced(run + [x], KeyOf(x.record.frame)) == Some(|run|)
    requires b == Decide(before, x.record, x.message, x.topLevel).boundary
    requires PlacedAt(run + [x], Head(run, l))
    requires TopIn(run + [x], Head(run, l)) <==> TopIn(run, Head(run, l)) || x.topLevel
    requires Continues(run + [x], Head(run, l)) <==> Continues(run, Head(run, l))
    ensures Tracks(run + [x], Entry(KeyOf(x.record.frame), b))
  {
    hide Run, Head, Before, TopIn, Continues, LastPlaced;
    var later, n, h := run + [x], |run|, Head(run, l);
    assert later[n] == x;
    forall r | r in b.records ensures InBlock(later, r, h) {
      if r != x.record {
        HeadStays(run, x, r.number);
      }
    }
    forall i: nat | PlacedAt(later, i) && Head(later, i) == h && !b.accepted ensures later[i].record in b.records {
      if i < n {
        assert PlacedAt(run, i) && later[i] == run[i];
        HeadStays(run, x, i);
      }
    }
  }

  lemma PlacedInput(run: seq<Input>, x: Input)
    requires Numbered(run + [x]) && Numbered(run) && Exact(run) && x.Wrapper? && x.record.frame.start.Some?
    ensures Exact(run + [x])
  {
    hide Run, Head, Before, Released, Believed, Decide, Tracks, LastPlaced, Bounded, Removed, BoundarySound;
    var later, n, key := run + [x], |run|, KeyOf(x.record.frame);
    var before, l := PlacingOf(run, x);
    StepOf(run, x, before, l);
    NewestTracks(run, x, before, l);
    NewestIsExact(run, x, before, l);
    assert later[n] == x;
    forall e | e in Run(later).states ensures Tracks(later, e) {
      if e != Entry(key, Decide(before, x.record, x.message, x.topLevel).boundary) {
        assert e in Removed(Run(run).states, key);
        TracksOn(run, x, e);
      }
    }
    forall i: nat | PlacedAt(later, i) ensures Released(later, i) <==> Believed(later, Head(later, i)) {
      if i < n {
        assert later[i] == run[i];
        EarlierIsExact(run, x, before, l, i);
      } else {
        assert i == n;
      }
    }
  }

  lemma {:induction false} RunIsExact(run: seq<Input>)
    requires Numbered(run)
    ensures Exact(run)
    decreases |run|
  {
    if run != [] {
      var n := |run| - 1;
      var earlier, x := run[..n], run[n];
      assert run == earlier + [x];
      RunIsExact(earlier);
      if PlacedAt(run, n) {
        PlacedInput(earlier, x);
      } else {
        UnplacedInput(earlier, x);
      }
    }
  }

  lemma UnplacedInput(run: seq<Input>, x: Input)
    requires Numbered(run + [x]) && Exact(run) && !PlacedAt(run + [x], |run|)
    ensures Exact(run + [x])
  {
    hide Exact, Decide;
    RunOne(run, x);
    assert (run + [x])[|run|] == x;
    var ready := if x.Wrapper? && x.topLevel then [Out(x.record, x.message)] else [];
    assert Run(run).released + [] == Run(run).released;
    OtherInput(run, x, ready);
  }

  /** Over any run: a record with a place in the stream is released exactly if its block is believed. The
      block is an unbroken succession of records of one wrapper; it is believed if one of them was seen
      as a top-level frame, if the wrapper starts where the remembered one before it ends, or if the one
      that follows while it is remembered starts where it ends. */
  lemma ReleasesTheBelieved(run: seq<Input>, i: nat)
    requires Numbered(run) && PlacedAt(run, i)
    ensures Released(run, i) <==> Believed(run, Head(run, i))
  {
    hide Released, Believed;
    RunIsExact(run);
  }

  /** A record without a place in the stream is released at once if it is a top-level frame, and otherwise
      never. */
  lemma {:induction false} UnplacedIsReleasedAtOnce(run: seq<Input>, i: nat)
    requires Numbered(run) && i < |run| && run[i].Wrapper? && run[i].record.frame.start.None?
    ensures Released(run, i) <==> run[i].topLevel
    ensures run[i].topLevel ==> Holds(Run(run[..i + 1]).released, run[i].record)
  {
    hide Decide, Bounded, Removed, Lookup, WithoutFlow;
    var n := |run| - 1;
    var earlier := run[..n];
    var b := Run(earlier);
    RunIsSound(earlier);
    assert run[i].record.number == i;
    if i < n {
      UnplacedIsReleasedAtOnce(earlier, i);
      assert run[..i + 1] == earlier[..i + 1];
      var d := LaterReleases(b, earlier, run[n], i, run[i].record);
      HoldsEither(b.released, d, run[i].record);
    } else {
      NotYetReleased(b, earlier, run[n].record);
      HoldsEither(b.released, [Out(run[n].record, run[n].message)], run[n].record);
      HoldsOne(run[n].record, run[n].message, run[n].record);
      assert run[..n + 1] == run;
    }
  }

  /** A record that arrives has not been released before. */
  lemma NotYetReleased(b: Books, earlier: seq<Input>, r: Record)
    requires InventoryBoundary.Sound(earlier, b) && r.number == |earlier|
    ensures !Holds(b.released, r)
  {
    hide Proven, Carried;
    forall m | 0 <= m < |b.released| ensures b.released[m].record != r {
      assert OutSound(earlier, b.released[m]);
    }
  }

  /** What later input releases has a place in the stream, or has just arrived. */
  lemma LaterReleases(b: Books, earlier: seq<Input>, x: Input, i: nat, r: Record) returns (more: seq<Out>)
    requires InventoryBoundary.Sound(earlier, b) && Numbered(earlier + [x]) && i < |earlier|
    requires r.number == i && r.frame.start.None?
    ensures Step(b, x).released == b.released + more && !Holds(more, r)
  {
    hide Decide, Bounded, Removed, WithoutFlow, Proven, Carried;
    assert b.released + [] == b.released;
    assert (earlier + [x])[|earlier|] == x;
    more := [];
    if x.Wrapper? {
      if x.record.frame.start.None? {
        if x.topLevel {
          more := [Out(x.record, x.message)];
        }
      } else {
        var before := Lookup(b.states, KeyOf(x.record.frame));
        more := Decide(before, x.record, x.message, x.topLevel).ready;
        DecidesPlaced(earlier, before, x.record, x.message, x.topLevel);
      }
    }
  }

  lemma DecidesPlaced(run: seq<Input>, before: Option<Boundary>, record: Record, message: Bytes, topLevel: bool)
    requires record.frame.start.Some? && (before.Some? ==> BoundarySound(run, KeyOf(record.frame), before.value))
    ensures var ready := Decide(before, record, message, topLevel).ready;
            forall m :: 0 <= m < |ready| ==> ready[m].record.frame.start.Some?
  {
    hide Proven, Carried;
  }

  /** When every record has a place in the stream, as reassembly gives it, those of one key are released
      in the order in which they arrived. */
  lemma ReleasedInOrder(run: seq<Input>, m: nat, n: nat)
    requires Numbered(run) && m < n < |Run(run).released|
    requires forall i :: 0 <= i < |run| && run[i].Wrapper? ==> PlacedAt(run, i)
    requires KeyOf(Run(run).released[m].record.frame) == KeyOf(Run(run).released[n].record.frame)
    ensures Run(run).released[m].record.number < Run(run).released[n].record.number
  {
    hide Run, Proven, Carried;
    RunIsSound(run);
    var a, b := Run(run).released[m], Run(run).released[n];
    assert OutSound(run, a) && OutSound(run, b) && InOrder(a.record, b.record);
    assert PlacedAt(run, a.record.number) && PlacedAt(run, b.record.number);
  }

  // What makes the boundary forget a key.

  ghost predicate ClosedSince(run: seq<Input>, key: Key, l: nat) {
    exists t :: l < t < |run| && (run[t] == CloseFlow(key.flow) || run[t] == Finalize)
  }

  /** Records of at least 64 other keys have come since. */
  ghost predicate CrowdedSince(run: seq<Input>, key: Key, l: nat) {
    exists keys: set<Key> :: Crowd(run, keys, key, l)
  }

  ghost predicate Crowd(run: seq<Input>, keys: set<Key>, key: Key, l: nat) {
    |keys| >= 64 && key !in keys && forall k :: k in keys ==> SeenSince(run, k, l)
  }

  ghost predicate SeenSince(run: seq<Input>, key: Key, l: nat) {
    exists t: nat :: l < t && PlacedAt(run, t) && KeyAt(run, t) == key
  }

  /** Entries stand in the order in which their keys were last seen. */
  ghost predicate ByTouch(run: seq<Input>, states: seq<Entry>) {
    states == [] || (Sooner(run, states[0], states[1..]) && ByTouch(run, states[1..]))
  }

  ghost predicate Sooner(run: seq<Input>, e: Entry, states: seq<Entry>) {
    LastPlaced(run, e.key).Some? && forall f :: f in states ==> SeenBefore(run, e.key, f.key)
  }

  ghost predicate SeenBefore(run: seq<Input>, j: Key, k: Key) {
    var a, b := LastPlaced(run, j), LastPlaced(run, k);
    a.Some? && b.Some? && a.value < b.value
  }

  lemma {:induction false} RemovedByTouch(run: seq<Input>, states: seq<Entry>, key: Key)
    requires ByTouch(run, states)
    ensures ByTouch(run, Removed(states, key))
  {
    hide SeenBefore, LastPlaced;
    if states != [] {
      RemovedByTouch(run, states[1..], key);
      SoonerThanFewer(run, states[0], states[1..], Removed(states[1..], key));
      Prepended(run, states[0], Removed(states[1..], key));
      assert [] + Removed(states[1..], key) == Removed(states[1..], key);
    }
  }

  lemma {:induction false} WithoutFlowByTouch(run: seq<Input>, states: seq<Entry>, flow: FlowKey)
    requires ByTouch(run, states)
    ensures ByTouch(run, WithoutFlow(states, flow))
  {
    hide SeenBefore, LastPlaced;
    if states != [] {
      WithoutFlowByTouch(run, states[1..], flow);
      SoonerThanFewer(run, states[0], states[1..], WithoutFlow(states[1..], flow));
      Prepended(run, states[0], WithoutFlow(states[1..], flow));
      assert [] + WithoutFlow(states[1..], flow) == WithoutFlow(states[1..], flow);
    }
  }

  lemma SoonerThanFewer(run: seq<Input>, e: Entry, all: seq<Entry>, part: seq<Entry>)
    requires Sooner(run, e, all) && forall f :: f in part ==> f in all
    ensures Sooner(run, e, part)
  {
  }

  lemma Prepended(run: seq<Input>, e: Entry, rest: seq<Entry>)
    requires Sooner(run, e, rest) && ByTouch(run, rest)
    ensures ByTouch(run, [e] + rest)
  {
    assert ([e] + rest)[1..] == rest;
  }

  lemma {:induction false} Appended(run: seq<Input>, states: seq<Entry>, e: Entry)
    requires ByTouch(run, states) && LastPlaced(run, e.key).Some?
    requires forall f :: f in states ==> SeenBefore(run, f.key, e.key)
    ensures ByTouch(run, states + [e])
  {
    hide SeenBefore, LastPlaced;
    if states != [] {
      Appended(run, states[1..], e);
      assert states + [e] == [states[0]] + (states[1..] + [e]);
      Prepended(run, states[0], states[1..] + [e]);
    } else {
      Prepended(run, e, []);
      assert [] + [e] == [e] + [];
    }
  }

  lemma {:induction false} SuffixByTouch(run: seq<Input>, states: seq<Entry>, n: nat)
    requires ByTouch(run, states) && n <= |states|
    ensures ByTouch(run, states[n..])
  {
    hide SeenBefore, LastPlaced;
    if n > 0 {
      SuffixByTouch(run, states[1..], n - 1);
      assert states[1..][n - 1..] == states[n..];
    } else {
      assert states[0..] == states;
    }
  }

  lemma {:induction false} ByTouchStays(run: seq<Input>, x: Input, states: seq<Entry>)
    requires ByTouch(run, states)
    requires PlacedAt(run + [x], |run|) ==> forall e :: e in states ==> e.key != KeyAt(run + [x], |run|)
    ensures ByTouch(run + [x], states)
  {
    hide LastPlaced;
    if states != [] {
      LastStays(run, x, states[0].key);
      forall f | f in states[1..] ensures SeenBefore(run + [x], states[0].key, f.key) {
        LastStays(run, x, f.key);
      }
      ByTouchStays(run, x, states[1..]);
    }
  }

  lemma LastStays(run: seq<Input>, x: Input, key: Key)
    requires PlacedAt(run + [x], |run|) ==> KeyAt(run + [x], |run|) != key
    ensures LastPlaced(run + [x], key) == LastPlaced(run, key)
  {
    assert (run + [x])[..|run|] == run;
  }

  lemma {:induction false} AllSeen(run: seq<Input>, states: seq<Entry>, f: Entry)
    requires ByTouch(run, states) && f in states
    ensures LastPlaced(run, f.key).Some?
  {
    hide LastPlaced;
    if f != states[0] {
      AllSeen(run, states[1..], f);
    }
  }

  /** The touched key goes last. */
  lemma TouchedLast(run: seq<Input>, x: Input, states: seq<Entry>, e: Entry)
    requires PlacedAt(run + [x], |run|) && e.key == KeyAt(run + [x], |run|) && ByTouch(run, states)
    ensures ByTouch(run + [x], Removed(states, e.key) + [e])
  {
    hide LastPlaced, Removed, ByTouch;
    RemovedByTouch(run, states, e.key);
    LastIsNewest(run, x);
    var rest := Removed(states, e.key);
    ByTouchStays(run, x, rest);
    forall f | f in rest ensures SeenBefore(run + [x], f.key, e.key) {
      LastStays(run, x, f.key);
      AllSeen(run, rest, f);
    }
    Appended(run + [x], rest, e);
  }

  /** An entry that gives way stood first, and all that follow it were seen since. */
  lemma GivesWay(run: seq<Input>, states: seq<Entry>, e: Entry)
    requires ByTouch(run, states) && Distinct(states) && |states| <= COHORT_LIMIT + 1
    requires e in states && e !in Bounded(states)
    ensures CrowdedSince(run, e.key, LastPlaced(run, e.key).value)
  {
    hide LastPlaced;
    AllSeen(run, states, e);
    var l := LastPlaced(run, e.key).value;
    var i :| 0 <= i < |states| && states[i] == e;
    if i >= |states| - COHORT_LIMIT {
      BoundedKeeps(states, i);
    } else {
      var keys := set j | 1 <= j < |states| :: states[j].key;
      KeysAreMany(states, 1);
      forall k | k in keys ensures SeenSince(run, k, l) {
        var j :| 1 <= j < |states| && states[j].key == k;
        assert states[j] == states[1..][j - 1] && SeenBefore(run, states[0].key, states[j].key);
        var t := LastPlaced(run, k).value;
        assert PlacedAt(run, t) && KeyAt(run, t) == k;
      }
      assert Crowd(run, keys, e.key, l);
    }
  }

  lemma BoundedIsSuffix(states: seq<Entry>)
    ensures Bounded(states) == states[|states| - |Bounded(states)|..]
  {
    assert states[0..] == states;
  }

  lemma BoundedKeeps(states: seq<Entry>, i: nat)
    requires |states| - COHORT_LIMIT <= i < |states|
    ensures states[i] in Bounded(states)
  {
    assert Bounded(states)[i - (|states| - |Bounded(states)|)] == states[i];
  }

  lemma {:induction false} KeysAreMany(states: seq<Entry>, from: nat)
    requires Distinct(states) && from <= |states|
    ensures |set j | from <= j < |states| :: states[j].key| == |states| - from
    decreases |states| - from
  {
    var keys := set j | from <= j < |states| :: states[j].key;
    if from < |states| {
      var rest := set j | from + 1 <= j < |states| :: states[j].key;
      KeysAreMany(states, from + 1);
      assert keys == rest + {states[from].key} && states[from].key !in rest;
    } else {
      assert keys == {};
    }
  }

  /** A key is forgotten for a reason: its flow was closed, all was finalized, or records of at least 64
      other keys have come since its own last one. */
  ghost predicate ForgetsForCause(run: seq<Input>, key: Key) {
    var l := LastPlaced(run, key);
    l.Some? && Lookup(Run(run).states, key).None? ==> ClosedSince(run, key, l.value) || CrowdedSince(run, key, l.value)
  }

  lemma CauseStays(run: seq<Input>, x: Input, key: Key, l: nat)
    ensures ClosedSince(run, key, l) ==> ClosedSince(run + [x], key, l)
    ensures CrowdedSince(run, key, l) ==> CrowdedSince(run + [x], key, l)
  {
    var later := run + [x];
    if t :| l < t < |run| && (run[t] == CloseFlow(key.flow) || run[t] == Finalize) {
      assert later[t] == run[t];
    }
    if CrowdedSince(run, key, l) {
      var keys: set<Key> :| Crowd(run, keys, key, l);
      forall k | k in keys ensures SeenSince(later, k, l) {
        var t: nat :| l < t && PlacedAt(run, t) && KeyAt(run, t) == k;
        assert PlacedAt(later, t) && KeyAt(later, t) == k;
      }
      assert Crowd(later, keys, key, l);
    }
  }

  lemma LookupFinds(states: seq<Entry>, key: Key)
    ensures Lookup(states, key).Some? <==> exists e :: e in states && e.key == key
  {
    if e :| e in states && e.key == key {
      var i :| 0 <= i < |states| && states[i] == e;
    }
  }

  lemma PlacedForgets(run: seq<Input>, x: Input, key: Key, states: seq<Entry>, e: Entry)
    requires PlacedAt(run + [x], |run|) && e.key == KeyAt(run + [x], |run|)
    requires ByTouch(run, states) && Distinct(states) && |states| <= COHORT_LIMIT
    requires Run(run).states == states && Run(run + [x]).states == Bounded(Removed(states, e.key) + [e])
    requires ForgetsForCause(run, key)
    ensures ForgetsForCause(run + [x], key)
  {
    hide Run, LastPlaced, Removed, Bounded, Lookup, ClosedSince, CrowdedSince, ByTouch;
    var later, grown := run + [x], Removed(states, e.key) + [e];
    LookupFinds(states, key);
    LookupFinds(Bounded(grown), key);
    LastIsNewest(run, x);
    TouchedLast(run, x, states, e);
    RemovedStaysDistinct(states, e.key);
    GrownIsDistinct(Removed(states, e.key), e);
    if key == e.key {
      if Lookup(Bounded(grown), key).None? {
        NewestRemains(Removed(states, e.key), e);
      }
    } else {
      LastStays(run, x, key);
      var l := LastPlaced(run, key);
      if l.Some? && Lookup(Bounded(grown), key).None? {
        CauseStays(run, x, key, l.value);
        if Lookup(states, key).Some? {
          var f :| f in states && f.key == key;
          assert f in grown;
          GivesWay(later, grown, f);
        }
      }
    }
  }

  lemma GrownIsDistinct(rest: seq<Entry>, e: Entry)
    requires Distinct(rest) && forall f :: f in rest ==> f.key != e.key
    ensures Distinct(rest + [e])
  {
  }

  lemma NewestRemains(rest: seq<Entry>, e: Entry)
    ensures e in Bounded(rest + [e])
  {
    var all := rest + [e];
    assert Bounded(all)[|Bounded(all)| - 1] == e;
  }

  lemma OtherForgets(run: seq<Input>, x: Input, key: Key)
    requires !PlacedAt(run + [x], |run|) && ForgetsForCause(run, key)
    ensures ForgetsForCause(run + [x], key)
  {
    hide LastPlaced, WithoutFlow, Lookup, CrowdedSince, Decide;
    var later, l := run + [x], LastPlaced(run, key);
    assert later[|run|] == x && later[..|run|] == run;
    LastStays(run, x, key);
    if l.Some? {
      CauseStays(run, x, key, l.value);
      LookupFinds(Run(run).states, key);
      LookupFinds(Run(later).states, key);
      assert x == CloseFlow(key.flow) || x == Finalize ==> ClosedSince(later, key, l.value);
    }
  }

  lemma {:induction false} RunForgetsForCause(run: seq<Input>, key: Key)
    requires Numbered(run)
    ensures ByTouch(run, Run(run).states) && ForgetsForCause(run, key)
    decreases |run|
  {
    if run != [] {
      hide ByTouch, ForgetsForCause, Run;
      var n := |run| - 1;
      var earlier, x := run[..n], run[n];
      assert run == earlier + [x];
      RunForgetsForCause(earlier, key);
      RunIsSound(earlier);
      if PlacedAt(run, n) {
        PlacedKeepsTouch(earlier, x, key);
      } else {
        OtherForgets(earlier, x, key);
        OtherKeepsTouch(earlier, x);
      }
    }
  }

  lemma PlacedKeepsTouch(run: seq<Input>, x: Input, key: Key)
    requires PlacedAt(run + [x], |run|) && ByTouch(run, Run(run).states) && InventoryBoundary.Sound(run, Run(run))
    requires ForgetsForCause(run, key)
    ensures ByTouch(run + [x], Run(run + [x]).states) && ForgetsForCause(run + [x], key)
  {
    hide Decide, BoundarySound, OutSound, Removed, Lookup, LastPlaced, Ahead, AllInOrder, ByTouch,
        ForgetsForCause, Run, Bounded;
    RunOne(run, x);
    assert (run + [x])[|run|] == x;
    var k := KeyOf(x.record.frame);
    var e := Entry(k, Decide(Lookup(Run(run).states, k), x.record, x.message, x.topLevel).boundary);
    TouchedLast(run, x, Run(run).states, e);
    var grown := Removed(Run(run).states, k) + [e];
    BoundedIsSuffix(grown);
    SuffixByTouch(run + [x], grown, |grown| - |Bounded(grown)|);
    PlacedForgets(run, x, key, Run(run).states, e);
  }

  lemma OtherKeepsTouch(run: seq<Input>, x: Input)
    requires !PlacedAt(run + [x], |run|) && ByTouch(run, Run(run).states)
    ensures ByTouch(run + [x], Run(run + [x]).states)
  {
    hide Decide, WithoutFlow, LastPlaced, Run, Sooner;
    RunOne(run, x);
    assert (run + [x])[|run|] == x;
    if x.CloseFlow? {
      WithoutFlowByTouch(run, Run(run).states, x.flow);
    }
    ByTouchStays(run, x, Run(run + [x]).states);
  }
}
