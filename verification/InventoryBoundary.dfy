// Which decoded inventory wrappers to believe: a top-level frame, or two wrappers that exactly abut.
module InventoryBoundary {
  import opened Wire
  import opened ScannerLog

  const COHORT_LIMIT: nat := 64

  datatype FrameKey = FrameKey(flow: FlowKey, generation: nat, start: Option<int>, timestamp: real, opcode: nat,
      length: nat)

  /** A decoded record; `number` tells one from another, as object identity does. */
  datatype Record = Record(number: nat, frame: FrameKey)

  datatype Key = Key(flow: FlowKey, generation: nat, opcode: nat)

  function KeyOf(f: FrameKey): Key {
    Key(f.flow, f.generation, f.opcode)
  }

  /** The last wrapper seen under a key, with the records of it that still await proof. */
  datatype Boundary = Boundary(frame: FrameKey, end: int, message: Bytes, records: seq<Record>, accepted: bool)

  datatype Entry = Entry(key: Key, boundary: Boundary)

  datatype Out = Out(record: Record, message: Bytes)

  function Lookup(states: seq<Entry>, key: Key): (b: Option<Boundary>)
    ensures b.Some? ==> exists i :: 0 <= i < |states| && states[i] == Entry(key, b.value)
    ensures b.None? ==> forall i :: 0 <= i < |states| ==> states[i].key != key
  {
    if states == [] then None
    else if states[0].key == key then Some(states[0].boundary)
    else Lookup(states[1..], key)
  }

  /** The states without one key, in order. */
  function Removed(states: seq<Entry>, key: Key): (r: seq<Entry>)
    ensures |r| <= |states|
    ensures forall e :: e in r <==> e in states && e.key != key
  {
    if states == [] then []
    else (if states[0].key == key then [] else [states[0]]) + Removed(states[1..], key)
  }

  /** The states without one flow, in order. */
  function WithoutFlow(states: seq<Entry>, flow: FlowKey): (r: seq<Entry>)
    ensures |r| <= |states|
    ensures forall e :: e in r <==> e in states && e.key.flow != flow
  {
    if states == [] then []
    else (if states[0].key.flow == flow then [] else [states[0]]) + WithoutFlow(states[1..], flow)
  }

  /** Only the most recently touched states, up to the limit. */
  function Bounded(states: seq<Entry>): (r: seq<Entry>)
    ensures |r| <= COHORT_LIMIT && |r| <= |states|
    ensures forall e :: e in r ==> e in states
  {
    if |states| > COHORT_LIMIT then states[|states| - COHORT_LIMIT..] else states
  }

  function Outs(records: seq<Record>, message: Bytes): (o: seq<Out>)
    ensures |o| == |records|
  {
    seq(|records|, (i: nat) requires i < |records| => Out(records[i], message))
  }

  datatype Decision = Decision(ready: seq<Out>, boundary: Boundary)

  /** What a record does to the boundary of its key. */
  function Decide(before: Option<Boundary>, record: Record, message: Bytes, topLevel: bool): (d: Decision)
    requires record.frame.start.Some?
  {
    var start := record.frame.start.value;
    if before.Some? && before.value.frame == record.frame then
      var b := before.value;
      if b.accepted then Decision([Out(record, message)], b)
      else if topLevel then
        Decision(Outs(b.records, b.message) + [Out(record, message)], b.(records := [], accepted := true))
      else Decision([], b.(records := b.records + [record]))
    else
      var adjacent := before.Some? && before.value.end == start;
      var ready :=
        if adjacent then Outs(before.value.records, before.value.message) + [Out(record, message)]
        else if topLevel then [Out(record, message)]
        else [];
      var accepted := adjacent || topLevel;
      Decision(ready,
          Boundary(record.frame, start + record.frame.length, message, if accepted then [] else [record], accepted))
  }

  datatype Input =
    | Wrapper(record: Record, message: Bytes, topLevel: bool)
    | CloseFlow(flow: FlowKey)
    | Finalize

  datatype Books = Books(states: seq<Entry>, released: seq<Out>)

  function Step(b: Books, input: Input): (n: Books) {
    match input
    case Wrapper(record, message, topLevel) =>
      if record.frame.start.None? then
        if topLevel then b.(released := b.released + [Out(record, message)]) else b
      else
        var key := KeyOf(record.frame);
        var d := Decide(Lookup(b.states, key), record, message, topLevel);
        Books(Bounded(Removed(b.states, key) + [Entry(key, d.boundary)]), b.released + d.ready)
    case CloseFlow(flow) => b.(states := WithoutFlow(b.states, flow))
    case Finalize => b.(states := [])
  }

  function Run(run: seq<Input>): (b: Books) {
    if run == [] then Books([], []) else Step(Run(run[..|run| - 1]), run[|run| - 1])
  }

  /** Records are told apart by when they arrived. */
  predicate Numbered(run: seq<Input>) {
    forall i :: 0 <= i < |run| && run[i].Wrapper? ==> run[i].record.number == i
  }

  /** The record is the one that arrived under its number. */
  predicate Known(run: seq<Input>, r: Record) {
    r.number < |run| && run[r.number].Wrapper? && run[r.number].record == r
  }

  /** Some record of this very wrapper arrived with this message. */
  ghost predicate Carried(run: seq<Input>, f: FrameKey, message: Bytes) {
    exists i :: 0 <= i < |run| && run[i].Wrapper? && run[i].record.frame == f && run[i].message == message
  }

  ghost predicate TopLevel(run: seq<Input>, f: FrameKey) {
    exists i :: 0 <= i < |run| && run[i].Wrapper? && run[i].record.frame == f && run[i].topLevel
  }

  /** Two wrappers of one key, the second starting where the first ends. */
  predicate Abut(f: FrameKey, g: FrameKey) {
    KeyOf(f) == KeyOf(g) && f.start.Some? && g.start.Some? && f.start.value + f.length == g.start.value
  }

  ghost predicate Adjacent(run: seq<Input>, f: FrameKey) {
    exists i :: 0 <= i < |run| && run[i].Wrapper? && run[i].record.frame != f
                && (Abut(f, run[i].record.frame) || Abut(run[i].record.frame, f))
  }

  /** The wrapper was a top-level frame, or exactly abutted another decoded wrapper. */
  ghost predicate Proven(run: seq<Input>, f: FrameKey) {
    TopLevel(run, f) || Adjacent(run, f)
  }

  predicate Increasing(records: seq<Record>) {
    forall i, j :: 0 <= i < j < |records| ==> records[i].number < records[j].number
  }

  ghost predicate BoundarySound(run: seq<Input>, key: Key, b: Boundary) {
    && KeyOf(b.frame) == key && b.frame.start.Some? && b.end == b.frame.start.value + b.frame.length
    && Carried(run, b.frame, b.message)
    && (b.accepted ==> b.records == [] && Proven(run, b.frame))
    && Increasing(b.records)
    && forall i :: 0 <= i < |b.records| ==> Known(run, b.records[i]) && b.records[i].frame == b.frame
  }

  ghost predicate OutSound(run: seq<Input>, o: Out) {
    Known(run, o.record) && Proven(run, o.record.frame) && Carried(run, o.record.frame, o.message)
  }

  predicate Distinct(states: seq<Entry>) {
    forall i, j :: 0 <= i < j < |states| ==> states[i].key != states[j].key
  }

  /** `a` was released before `b`: never the same record, and in input order if both have a place in
      the stream under the same key. */
  predicate InOrder(a: Record, b: Record) {
    && a.number != b.number
    && (KeyOf(a.frame) == KeyOf(b.frame) && a.frame.start.Some? && b.frame.start.Some? ==> a.number < b.number)
  }

  /** Released earlier than anything of `waiting`. */
  ghost predicate Ahead(released: seq<Out>, waiting: seq<Record>) {
    forall i, j :: 0 <= i < |released| && 0 <= j < |waiting| ==> InOrder(released[i].record, waiting[j])
  }

  ghost predicate AllInOrder(released: seq<Out>) {
    forall i, j :: 0 <= i < j < |released| ==> InOrder(released[i].record, released[j].record)
  }

  ghost predicate Sound(run: seq<Input>, b: Books) {
    && |b.states| <= 64 && Distinct(b.states) && AllInOrder(b.released)
    && (forall e :: e in b.states ==> BoundarySound(run, e.key, e.boundary) && Ahead(b.released, e.boundary.records))
    && (forall i :: 0 <= i < |b.released| ==> OutSound(run, b.released[i]))
  }

  function Records(outs: seq<Out>): (r: seq<Record>)
    ensures |r| == |outs|
  {
    seq(|outs|, (i: nat) requires i < |outs| => outs[i].record)
  }

  function Waiting(before: Option<Boundary>): seq<Record> {
    if before.Some? then before.value.records else []
  }

  /** What is released and what waits is what waited, and the record after it; or the record alone. */
  lemma DecideKeepsAll(before: Option<Boundary>, record: Record, message: Bytes, topLevel: bool)
    requires record.frame.start.Some? && (before.Some? && before.value.accepted ==> before.value.records == [])
    ensures var d := Decide(before, record, message, topLevel);
            Records(d.ready) + d.boundary.records == Waiting(before) + [record]
            || Records(d.ready) + d.boundary.records == [record]
  {
    var d := Decide(before, record, message, topLevel);
    assert Records([Out(record, message)]) == [record] && Records([]) == [];
    if before.Some? {
      assert Records(Outs(before.value.records, before.value.message) + [Out(record, message)]) ==
             Waiting(before) + [record];
    }
  }

  lemma LaterIsSound(run: seq<Input>, input: Input)
    ensures forall r :: Known(run, r) ==> Known(run + [input], r)
    ensures forall f, m :: Carried(run, f, m) ==> Carried(run + [input], f, m)
    ensures forall f :: Proven(run, f) ==> Proven(run + [input], f)
  {
    var later := run + [input];
    forall f, m | Carried(run, f, m) ensures Carried(later, f, m) {
      var i :| 0 <= i < |run| && run[i].Wrapper? && run[i].record.frame == f && run[i].message == m;
      assert later[i] == run[i];
    }
    forall f | Proven(run, f) ensures Proven(later, f) {
      if TopLevel(run, f) {
        var i :| 0 <= i < |run| && run[i].Wrapper? && run[i].record.frame == f && run[i].topLevel;
        assert later[i] == run[i];
      } else {
        var i :| 0 <= i < |run| && run[i].Wrapper? && run[i].record.frame != f
                 && (Abut(f, run[i].record.frame) || Abut(run[i].record.frame, f));
        assert later[i] == run[i];
      }
    }
  }

  /** A decision is sound: what it releases is proven, and so is what it accepts. */
  lemma DecideIsSound(run: seq<Input>, before: Option<Boundary>, record: Record, message: Bytes, topLevel: bool)
    requires record.number == |run| && record.frame.start.Some?
    requires before.Some? ==> BoundarySound(run, KeyOf(record.frame), before.value)
    ensures var d, later := Decide(before, record, message, topLevel), run + [Wrapper(record, message, topLevel)];
            && BoundarySound(later, KeyOf(record.frame), d.boundary)
            && forall i :: 0 <= i < |d.ready| ==> OutSound(later, d.ready[i])
  {
    hide Proven, Carried;
    var d, later := Decide(before, record, message, topLevel), run + [Wrapper(record, message, topLevel)];
    LaterIsSound(run, Wrapper(record, message, topLevel));
    NewestIs(run, record, message, topLevel);
    if before.Some? && before.value.frame != record.frame && before.value.end == record.frame.start.value {
      AbuttingIsProven(run, before.value, record, message, topLevel);
    }
  }

  lemma NewestIs(run: seq<Input>, record: Record, message: Bytes, topLevel: bool)
    requires record.number == |run|
    ensures var later := run + [Wrapper(record, message, topLevel)];
            Known(later, record) && Carried(later, record.frame, message) && (topLevel ==> Proven(later, record.frame))
  {
    var later := run + [Wrapper(record, message, topLevel)];
    assert later[|run|] == Wrapper(record, message, topLevel);
    assert topLevel ==> TopLevel(later, record.frame);
  }

  lemma AbuttingIsProven(run: seq<Input>, b: Boundary, record: Record, message: Bytes, topLevel: bool)
    requires record.frame.start.Some? && BoundarySound(run, KeyOf(record.frame), b)
    requires b.frame != record.frame && b.end == record.frame.start.value
    ensures var later := run + [Wrapper(record, message, topLevel)];
            Proven(later, b.frame) && Proven(later, record.frame)
  {
    var later := run + [Wrapper(record, message, topLevel)];
    var i :| 0 <= i < |run| && run[i].Wrapper? && run[i].record.frame == b.frame && run[i].message == b.message;
    assert later[i] == run[i] && later[|run|].record == record;
    assert Abut(b.frame, record.frame);
    assert Adjacent(later, b.frame) && Adjacent(later, record.frame);
  }

  lemma {:induction false} RemovedStaysDistinct(states: seq<Entry>, key: Key)
    requires Distinct(states)
    ensures Distinct(Removed(states, key))
  {
    if states != [] {
      var rest := Removed(states[1..], key);
      RemovedStaysDistinct(states[1..], key);
      forall i | 0 <= i < |rest| ensures rest[i].key != states[0].key {
        assert rest[i] in states[1..];
      }
    }
  }

  lemma {:induction false} WithoutFlowStaysDistinct(states: seq<Entry>, flow: FlowKey)
    requires Distinct(states)
    ensures Distinct(WithoutFlow(states, flow))
  {
    if states != [] {
      var rest := WithoutFlow(states[1..], flow);
      WithoutFlowStaysDistinct(states[1..], flow);
      forall i | 0 <= i < |rest| ensures rest[i].key != states[0].key {
        assert rest[i] in states[1..];
      }
    }
  }

  /** A key touched now goes behind all others; the oldest give way. */
  lemma TouchedStaysDistinct(states: seq<Entry>, e: Entry)
    requires Distinct(states)
    ensures Distinct(Bounded(Removed(states, e.key) + [e]))
  {
    hide Removed, Bounded;
    RemovedStaysDistinct(states, e.key);
    var rest := Removed(states, e.key);
    forall i | 0 <= i < |rest| ensures rest[i].key != e.key {
      assert rest[i] in rest;
    }
    BoundedStaysDistinct(rest + [e]);
  }

  lemma BoundedStaysDistinct(states: seq<Entry>)
    requires Distinct(states)
    ensures Distinct(Bounded(states))
  {
  }

  /** Two records that arrived are the same one or have different numbers. */
  lemma DifferentNumbers(run: seq<Input>, a: Record, b: Record)
    requires Known(run, a) && Known(run, b) && a != b
    ensures a.number != b.number
  {
  }

  /** What a decision releases comes in order, after everything released before, and before anything
      that still waits. */
  lemma DecisionInOrder(run: seq<Input>, released: seq<Out>, before: Option<Boundary>, record: Record, message: Bytes,
      topLevel: bool)
    requires record.number == |run| && record.frame.start.Some? && AllInOrder(released)
    requires forall i :: 0 <= i < |released| ==> OutSound(run, released[i])
    requires before.Some? ==>
               BoundarySound(run, KeyOf(record.frame), before.value) && Ahead(released, before.value.records)
    ensures var d := Decide(before, record, message, topLevel);
            AllInOrder(released + d.ready) && Ahead(released + d.ready, d.boundary.records)
  {
    hide Proven, Carried, Decide;
    var d := Decide(before, record, message, topLevel);
    DecideKeepsAll(before, record, message, topLevel);
    var handled := Waiting(before) + [record];
    assert Increasing(handled) && Ahead(released, handled);
    assert forall i :: 0 <= i < |handled| ==> KeyOf(handled[i].frame) == KeyOf(record.frame);
    if Records(d.ready) + d.boundary.records == handled {
      SplitInOrder(released, d.ready, d.boundary.records, handled);
    } else {
      assert Increasing([record]) && Ahead(released, [record]) by { assert handled[|handled| - 1] == record; }
      SplitInOrder(released, d.ready, d.boundary.records, [record]);
    }
  }

  lemma SplitInOrder(released: seq<Out>, ready: seq<Out>, waiting: seq<Record>, handled: seq<Record>)
    requires AllInOrder(released) && Ahead(released, handled) && Increasing(handled)
    requires Records(ready) + waiting == handled
    ensures AllInOrder(released + ready) && Ahead(released + ready, waiting)
  {
    var n, all := |released|, released + ready;
    assert forall i :: 0 <= i < |ready| ==> ready[i].record == handled[i];
    assert forall i :: 0 <= i < |waiting| ==> waiting[i] == handled[|ready| + i];
    forall i, j | 0 <= i < j < |all| ensures InOrder(all[i].record, all[j].record) {
      if j >= n {
        assert all[j].record == handled[j - n];
        assert i >= n ==> all[i].record == handled[i - n];
      }
    }
    forall i, j | 0 <= i < |all| && 0 <= j < |waiting| ensures InOrder(all[i].record, waiting[j]) {
      assert i >= n ==> all[i].record == handled[i - n];
    }
  }

  lemma WrapperIsSound(run: seq<Input>, b: Books, record: Record, message: Bytes, topLevel: bool)
    requires Sound(run, b) && record.number == |run| && record.frame.start.Some?
    ensures Sound(run + [Wrapper(record, message, topLevel)], Step(b, Wrapper(record, message, topLevel)))
  {
    hide Decide, Bounded, Removed, BoundarySound, OutSound, AllInOrder, Ahead, Lookup;
    var key, input := KeyOf(record.frame), Wrapper(record, message, topLevel);
    var before := Lookup(b.states, key);
    var d := Decide(before, record, message, topLevel);
    DecideIsSound(run, before, record, message, topLevel);
    DecisionInOrder(run, b.released, before, record, message, topLevel);
    TouchedStaysDistinct(b.states, Entry(key, d.boundary));
    DecideReleasesKey(run, before, record, message, topLevel);
    var later, released := run + [input], b.released + d.ready;
    var states := Bounded(Removed(b.states, key) + [Entry(key, d.boundary)]);
    forall e | e in states ensures BoundarySound(later, e.key, e.boundary) && Ahead(released, e.boundary.records) {
      if e != Entry(key, d.boundary) {
        assert e in Removed(b.states, key);
        OtherKeysStay(run, input, b.released, d.ready, e, key);
      }
    }
    forall i | 0 <= i < |released| ensures OutSound(later, released[i]) {
      if i < |b.released| {
        OutStays(run, input, b.released[i]);
      } else {
        assert released[i] == d.ready[i - |b.released|];
      }
    }
  }

  lemma OutStays(run: seq<Input>, input: Input, o: Out)
    requires OutSound(run, o)
    ensures OutSound(run + [input], o)
  {
    hide Proven, Carried;
    LaterIsSound(run, input);
  }

  lemma BoundaryStays(run: seq<Input>, input: Input, key: Key, b: Boundary)
    requires BoundarySound(run, key, b)
    ensures BoundarySound(run + [input], key, b)
  {
    hide Proven, Carried;
    LaterIsSound(run, input);
  }

  /** What is released are records of the record's own key. */
  lemma DecideReleasesKey(run: seq<Input>, before: Option<Boundary>, record: Record, message: Bytes, topLevel: bool)
    requires record.frame.start.Some? && (before.Some? ==> BoundarySound(run, KeyOf(record.frame), before.value))
    ensures forall i :: 0 <= i < |Decide(before, record, message, topLevel).ready| ==>
              KeyOf(Decide(before, record, message, topLevel).ready[i].record.frame) == KeyOf(record.frame)
  {
  }

  lemma OtherKeysStay(run: seq<Input>, input: Input, released: seq<Out>, ready: seq<Out>, e: Entry, key: Key)
    requires BoundarySound(run, e.key, e.boundary) && Ahead(released, e.boundary.records) && e.key != key
    requires forall i :: 0 <= i < |ready| ==> OutSound(run + [input], ready[i]) && KeyOf(ready[i].record.frame) == key
    ensures BoundarySound(run + [input], e.key, e.boundary) && Ahead(released + ready, e.boundary.records)
  {
    hide Proven, Carried;
    BoundaryStays(run, input, e.key, e.boundary);
    var waiting := e.boundary.records;
    forall i, j | 0 <= i < |released + ready| && 0 <= j < |waiting|
      ensures InOrder((released + ready)[i].record, waiting[j])
    {
      if i >= |released| {
        assert (released + ready)[i] == ready[i - |released|];
        DifferentNumbers(run + [input], ready[i - |released|].record, waiting[j]);
      }
    }
  }

  /** A record with no place in the stream waits for nothing: it is believed at once or never. */
  lemma UnplacedIsSound(run: seq<Input>, b: Books, record: Record, message: Bytes, topLevel: bool)
    requires Sound(run, b) && record.number == |run| && record.frame.start.None?
    ensures Sound(run + [Wrapper(record, message, topLevel)], Step(b, Wrapper(record, message, topLevel)))
  {
    hide BoundarySound, OutSound;
    var input := Wrapper(record, message, topLevel);
    var later, o := run + [input], Out(record, message);
    NewestIs(run, record, message, topLevel);
    if topLevel {
      UnplacedOut(run, record, message, topLevel);
    }
    forall e | e in b.states
      ensures BoundarySound(later, e.key, e.boundary) && Ahead(b.released + [o], e.boundary.records)
    {
      BoundaryStays(run, input, e.key, e.boundary);
      WaitingIsOlder(run, e, b.released, o);
    }
    forall i | 0 <= i < |b.released| ensures OutSound(later, b.released[i]) && b.released[i].record.number < |run| {
      OutStays(run, input, b.released[i]);
      OutIsOlder(run, b.released[i]);
    }
  }

  lemma UnplacedOut(run: seq<Input>, record: Record, message: Bytes, topLevel: bool)
    requires record.number == |run| && topLevel
    ensures OutSound(run + [Wrapper(record, message, topLevel)], Out(record, message))
  {
    NewestIs(run, record, message, topLevel);
  }

  lemma OutIsOlder(run: seq<Input>, o: Out)
    requires OutSound(run, o)
    ensures o.record.number < |run|
  {
  }

  lemma WaitingIsOlder(run: seq<Input>, e: Entry, released: seq<Out>, o: Out)
    requires BoundarySound(run, e.key, e.boundary) && Ahead(released, e.boundary.records)
    requires o.record.number == |run| && o.record.frame.start.None?
    ensures Ahead(released + [o], e.boundary.records)
  {
  }

  lemma ForgettingIsSound(run: seq<Input>, b: Books, input: Input, states: seq<Entry>)
    requires Sound(run, b) && Distinct(states) && |states| <= |b.states| && forall e :: e in states ==> e in b.states
    ensures Sound(run + [input], Books(states, b.released))
  {
    hide BoundarySound, OutSound;
    forall e | e in states ensures BoundarySound(run + [input], e.key, e.boundary) {
      BoundaryStays(run, input, e.key, e.boundary);
    }
    forall i | 0 <= i < |b.released| ensures OutSound(run + [input], b.released[i]) {
      OutStays(run, input, b.released[i]);
    }
  }

  /** Over any run: a record is released at most once, only when its wrapper is proven, in input order
      per key among those with a place in the stream, and what is believed holds nothing back. */
  lemma {:induction false} RunIsSound(run: seq<Input>)
    requires Numbered(run)
    ensures Sound(run, Run(run))
    decreases |run|
  {
    hide Sound, Step;
    if run == [] {
      StartIsSound();
    } else {
      var n := |run| - 1;
      var before, input := run[..n], run[n];
      RunIsSound(before);
      assert run == before + [input];
      var b := Run(before);
      match input
      case Wrapper(record, message, topLevel) =>
        if record.frame.start.Some? {
          WrapperIsSound(before, b, record, message, topLevel);
        } else {
          UnplacedIsSound(before, b, record, message, topLevel);
        }
      case CloseFlow(flow) =>
        CloseIsSound(before, b, flow);
      case Finalize =>
        FinalizeIsSound(before, b);
    }
  }

  lemma CloseIsSound(run: seq<Input>, b: Books, flow: FlowKey)
    requires Sound(run, b)
    ensures Sound(run + [CloseFlow(flow)], Step(b, CloseFlow(flow)))
  {
    hide BoundarySound, OutSound, Ahead, AllInOrder;
    WithoutFlowStaysDistinct(b.states, flow);
    ForgettingIsSound(run, b, CloseFlow(flow), WithoutFlow(b.states, flow));
  }

  lemma FinalizeIsSound(run: seq<Input>, b: Books)
    requires Sound(run, b)
    ensures Sound(run + [Finalize], Step(b, Finalize))
  {
    hide BoundarySound, OutSound, Ahead, AllInOrder;
    ForgettingIsSound(run, b, Finalize, []);
  }

  lemma StartIsSound()
    ensures Sound([], Run([]))
  {
  }

  /** A record is never released twice. */
  lemma ReleasedAtMostOnce(run: seq<Input>, i: nat, j: nat)
    requires Numbered(run) && i < j < |Run(run).released|
    ensures Run(run).released[i].record != Run(run).released[j].record
    ensures Proven(run, Run(run).released[i].record.frame)
  {
    RunIsSound(run);
    hide Run, Proven;
    assert OutSound(run, Run(run).released[i]);
    assert InOrder(Run(run).released[i].record, Run(run).released[j].record);
  }

  lemma RunOne(run: seq<Input>, input: Input)
    ensures Run(run + [input]) == Step(Run(run), input)
  {
    assert (run + [input])[..|run|] == run;
  }

  class InventoryBoundaries {
    /** One entry per key, most recently touched last. */
    var states: seq<Entry>

    constructor ()
      ensures states == []
    {
      states := [];
    }

    /** Pop the key's entry. */
    method Pop(key: Key) returns (b: Option<Boundary>)
      modifies this`states
      ensures b == Lookup(old(states), key) && states == Removed(old(states), key)
    {
      b := Lookup(states, key);
      states := Removed(states, key);
    }

    /** The records to hand on now that this one has arrived. */
    method RecordsReady(record: Record, message: Bytes, topLevel: bool) returns (ready: seq<Out>)
      modifies this`states
      ensures var b := Step(Books(old(states), []), Wrapper(record, message, topLevel));
              states == b.states && ready == b.released
    {
      hide Bounded, Lookup, Removed, Outs;
      if record.frame.start.None? {
        ready := if topLevel then [Out(record, message)] else [];
        assert [] + ready == ready;
        return;
      }
      var start, key := record.frame.start.value, KeyOf(record.frame);
      var before := Pop(key);
      var boundary;
      if before.Some? && before.value.frame == record.frame {
        var b := before.value;
        if b.accepted {
          ready, boundary := [Out(record, message)], b;
        } else if topLevel {
          ready := Outs(b.records, b.message) + [Out(record, message)];
          boundary := b.(records := [], accepted := true);
        } else {
          ready, boundary := [], b.(records := b.records + [record]);
        }
      } else {
        var accepted := true;
        if before.Some? && before.value.end == start {
          ready := Outs(before.value.records, before.value.message) + [Out(record, message)];
        } else if topLevel {
          ready := [Out(record, message)];
        } else {
          ready, accepted := [], false;
        }
        boundary :=
        Boundary(record.frame, start + record.frame.length, message, if accepted then [] else [record], accepted);
      }
      Put(Entry(key, boundary));
      assert [] + ready == ready;
    }

    /** Touch the entry last; the oldest ones go when there are too many. */
    method Put(e: Entry)
      modifies this`states
      ensures states == Bounded(old(states) + [e])
    {
      states := states + [e];
      while |states| > COHORT_LIMIT
        invariant Bounded(states) == Bounded(old(states) + [e])
      {
        states := states[1..];
      }
    }

    /** Forget a closed flow. */
    method Close(flow: FlowKey)
      modifies this`states
      ensures states == WithoutFlow(old(states), flow)
    {
      hide WithoutFlow;
      var all, kept := states, [];
      WithoutFlowEnds(all, flow);
      for i := 0 to |all|
        invariant WithoutFlow(all, flow) == kept + WithoutFlow(all[i..], flow)
      {
        WithoutFlowStep(all, i, flow);
        if all[i].key.flow != flow {
          Regroup(kept, [all[i]], WithoutFlow(all[i + 1..], flow));
          kept := kept + [all[i]];
        } else {
          Regroup(kept, [], WithoutFlow(all[i + 1..], flow));
        }
      }
      states := kept;
    }
  }

  lemma WithoutFlowEnds(states: seq<Entry>, flow: FlowKey)
    ensures WithoutFlow(states[0..], flow) == WithoutFlow(states, flow) && WithoutFlow(states[|states|..], flow) == []
  {
    assert states[0..] == states;
  }

  lemma WithoutFlowStep(states: seq<Entry>, i: nat, flow: FlowKey)
    requires i < |states|
    ensures WithoutFlow(states[i..], flow) ==
            (if states[i].key.flow == flow then [] else [states[i]]) + WithoutFlow(states[i + 1..], flow)
  {
    assert states[i..][1..] == states[i + 1..];
  }
}
