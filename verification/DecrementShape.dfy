// The repeated shape of a source-stack decrement batch: found only if one shape repeats most often.
module DecrementShape {
  import opened Wire
  import opened RecordGeometry
  import opened Decoder

  /** No record is shorter than its quantity (4 bytes) and its instance (8 bytes) together. */
  const MINIMUM_STRIDE: nat := 12

  /** `count` records of `stride` bytes behind a prefix; `base` is the length with one record, `first`
      where record zero has its quantity. */
  datatype Shape = Shape(count: nat, base: nat, stride: nat, first: nat)

  predicate Overlap(a: nat, aWidth: nat, b: nat, bWidth: nat) {
    a < b + bWidth && b < a + aWidth
  }

  predicate PlausibleInstanceAt(message: Bytes, at: nat) {
    var instance := Slice(message, at, at + 8);
    |instance| == 8 && PlausibleInstance(instance)
  }

  /** The watched quantity and a plausible instance at these places. */
  predicate Marked(message: Bytes, quantity: Bytes, at: nat, instance: nat) {
    OccursAt(message, quantity, at) && PlausibleInstanceAt(message, instance)
  }

  /** What a shape promises, with the destination instance of record zero at `instance`: it tiles the
      frame into at least two records, and every record has the quantity and a plausible instance at
      the same disjoint places inside it. */
  predicate Valid(message: Bytes, length: nat, quantity: Bytes, instance: nat, s: Shape) {
    && s.count >= 2 && s.stride >= 12 && s.base >= s.stride + 5
    && s.base - s.stride + Strides(s.stride, s.count) == length
    && s.base - s.stride <= s.first && s.first + 4 <= s.base
    && s.base - s.stride <= instance && instance + 8 <= s.base
    && !Overlap(s.first, 4, instance, 8)
    && forall k | 0 <= k < s.count :: Marked(message, quantity, s.first + Strides(s.stride, k),
           instance + Strides(s.stride, k))
  }

  /** Valid, and of the expected number of records if one is expected. */
  predicate Admissible(message: Bytes, length: nat, quantity: Bytes, instance: nat, expected: Option<nat>, s: Shape) {
    Valid(message, length, quantity, instance, s) && (expected.Some? ==> s.count == expected.value)
  }

  /** No other admissible shape repeats as often. */
  ghost predicate Best(message: Bytes, length: nat, quantity: Bytes, instance: nat, expected: Option<nat>, s: Shape) {
    && Admissible(message, length, quantity, instance, expected, s)
    && forall other :: Admissible(message, length, quantity, instance, expected, other) && other != s ==>
         other.count < s.count
  }

  /** Record `k` as the search sees it. */
  predicate RecordHolds(message: Bytes, length: nat, quantity: Bytes, instance: nat, first: nat, stride: nat, k: nat) {
    var at, id := first + Strides(stride, k), instance + Strides(stride, k);
    && 5 <= at && at + 4 <= length && 5 <= id && id + 8 <= length
    && !Overlap(at, 4, id, 8) && Marked(message, quantity, at, id)
  }

  /** How many records in a row hold, from record zero. */
  method CountRecords(message: Bytes, length: nat, quantity: Bytes, instance: nat, first: nat, stride: nat)
    returns (count: nat)
    requires stride >= MINIMUM_STRIDE
    ensures forall k :: 0 <= k < count ==> RecordHolds(message, length, quantity, instance, first, stride, k)
    ensures !RecordHolds(message, length, quantity, instance, first, stride, count)
  {
    hide Marked, Strides;
    count := 0;
    NextStride(stride, 0);
    while RecordHolds(message, length, quantity, instance, first, stride, count)
      invariant forall k :: 0 <= k < count ==> RecordHolds(message, length, quantity, instance, first, stride, k)
      decreases length - Strides(stride, count)
    {
      NextStride(stride, count);
      count := count + 1;
    }
  }

  /** A valid shape is as long as its run of records. */
  lemma RunIsShape(message: Bytes, length: nat, quantity: Bytes, instance: nat, s: Shape, count: nat)
    requires Valid(message, length, quantity, instance, s)
    requires forall k :: 0 <= k < count ==> RecordHolds(message, length, quantity, instance, s.first, s.stride, k)
    requires !RecordHolds(message, length, quantity, instance, s.first, s.stride, count)
    ensures count == s.count
  {
    hide Valid, RecordHolds;
    ShapeEnds(message, length, quantity, instance, s);
    if count < s.count {
      RecordOfShape(message, length, quantity, instance, s, count);
    }
  }

  /** A tiling shape ends with the frame. */
  lemma ShapeEnds(message: Bytes, length: nat, quantity: Bytes, instance: nat, s: Shape)
    requires Valid(message, length, quantity, instance, s)
    ensures !RecordHolds(message, length, quantity, instance, s.first, s.stride, s.count)
  {
    hide Marked, Strides;
  }

  lemma RecordOfShape(message: Bytes, length: nat, quantity: Bytes, instance: nat, s: Shape, k: nat)
    requires Valid(message, length, quantity, instance, s) && k < s.count
    ensures RecordHolds(message, length, quantity, instance, s.first, s.stride, k)
  {
    hide Marked, Strides;
    NextStride(s.stride, k);
    StridesGrow(s.stride, k + 1, s.count);
  }

  /** One phase: the quantity at `first`, and again at `later`. */
  method TryPhase(message: Bytes, length: nat, quantity: Bytes, instance: nat, expected: Option<nat>, first: nat,
      later: nat) returns (c: Option<Shape>)
    ensures c.Some? ==>
              && Admissible(message, length, quantity, instance, expected, c.value)
              && c.value.first == first && first + c.value.stride == later
    ensures c.None? ==> forall s ::
              Admissible(message, length, quantity, instance, expected, s) && s.first == first ==>
                first + s.stride != later
  {
    if later < first + MINIMUM_STRIDE {
      return None;
    }
    hide Strides, Marked, RecordHolds;
    var stride := later - first;
    var count := CountRecords(message, length, quantity, instance, first, stride);
    forall s | Valid(message, length, quantity, instance, s) && s.first == first && s.stride == stride
      ensures s.count == count
    {
      RunIsShape(message, length, quantity, instance, s, count);
    }
    if count < 2 || (expected.Some? && count != expected.value) {
      return None;
    }
    var prefix := length - Strides(stride, count);
    var base := prefix + stride;
    if prefix < 5 || first < prefix || instance < prefix || first + 4 > base || instance + 8 > base {
      return None;
    }
    c := Some(Shape(count, base, stride, first));
    ShapeOfRun(message, length, quantity, instance, c.value);
  }

  lemma ShapeOfRun(message: Bytes, length: nat, quantity: Bytes, instance: nat, s: Shape)
    requires forall k :: 0 <= k < s.count ==> RecordHolds(message, length, quantity, instance, s.first, s.stride, k)
    requires s.count >= 2 && s.stride >= MINIMUM_STRIDE && s.base >= s.stride + 5
    requires s.base - s.stride + Strides(s.stride, s.count) == length
    requires s.base - s.stride <= s.first && s.first + 4 <= s.base && s.base - s.stride <= instance
    requires instance + 8 <= s.base
    ensures Valid(message, length, quantity, instance, s)
  {
    hide Marked, Strides;
    NextStride(s.stride, 0);
    assert RecordHolds(message, length, quantity, instance, s.first, s.stride, 0);
    forall k | 0 <= k < s.count
      ensures Marked(message, quantity, s.first + Strides(s.stride, k), instance + Strides(s.stride, k))
    {
      assert RecordHolds(message, length, quantity, instance, s.first, s.stride, k);
    }
  }

  /** All occurrences, overlapping ones too, in order. */
  function FindAll(message: Bytes, needle: Bytes, from: nat): (offsets: seq<nat>)
    ensures forall p :: p in offsets <==> from <= p && OccursAt(message, needle, p)
    ensures forall i :: 0 <= i < |offsets| ==> from <= offsets[i]
    ensures forall i, j :: 0 <= i < j < |offsets| ==> offsets[i] < offsets[j]
    decreases |message| - from
  {
    if from > |message| then []
    else (if OccursAt(message, needle, from) then [from] else []) + FindAll(message, needle, from + 1)
  }

  /** The pairs of occurrences tried before pair `(i, j)`. */
  predicate Tried(offsets: seq<nat>, i: nat, j: nat, first: nat, later: nat)
    requires i <= |offsets| && j <= |offsets|
  {
    later in offsets && (first in offsets[..i] || (i < |offsets| && first == offsets[i] && later in offsets[..j]))
  }

  ghost predicate Collected(message: Bytes, length: nat, quantity: Bytes, instance: nat, expected: Option<nat>,
                            offsets: seq<nat>, i: nat, j: nat, candidates: seq<Shape>)
    requires i <= |offsets| && j <= |offsets|
  {
    forall s :: s in candidates <==>
      Admissible(message, length, quantity, instance, expected, s) && Tried(offsets, i, j, s.first, s.first + s.stride)
  }

  lemma TriedNext(offsets: seq<nat>, i: nat, j: nat, first: nat, later: nat)
    requires i < |offsets| && j < |offsets| && forall a, b :: 0 <= a < b < |offsets| ==> offsets[a] < offsets[b]
    ensures Tried(offsets, i, j + 1, first, later) <==>
              Tried(offsets, i, j, first, later) || (first == offsets[i] && later == offsets[j])
  {
    assert offsets[..j + 1] == offsets[..j] + [offsets[j]];
  }

  lemma TriedRow(offsets: seq<nat>, i: nat, first: nat, later: nat)
    requires i < |offsets|
    ensures Tried(offsets, i, |offsets|, first, later) <==> Tried(offsets, i + 1, 0, first, later)
  {
    assert offsets[..|offsets|] == offsets && offsets[..i + 1] == offsets[..i] + [offsets[i]];
  }

  /** Every admissible shape, found by trying every pair of occurrences. */
  method CollectShapes(message: Bytes, length: nat, quantity: Bytes, instance: nat, expected: Option<nat>)
    returns (candidates: seq<Shape>)
    requires |quantity| == 4
    ensures forall s :: s in candidates <==> Admissible(message, length, quantity, instance, expected, s)
  {
    hide Admissible, Tried;
    candidates := [];
    var offsets := FindAll(message, quantity, 0);
    NoneTried(offsets);
    for i := 0 to |offsets|
      invariant Collected(message, length, quantity, instance, expected, offsets, i, 0, candidates)
    {
      for j := 0 to |offsets|
        invariant Collected(message, length, quantity, instance, expected, offsets, i, j, candidates)
      {
        var c := TryPhase(message, length, quantity, instance, expected, offsets[i], offsets[j]);
        ghost var before := candidates;
        if c.Some? {
          candidates := candidates + [c.value];
        }
        CollectPair(message, length, quantity, instance, expected, offsets, i, j, before, c);
      }
      forall first, later
        ensures Tried(offsets, i, |offsets|, first, later) <==> Tried(offsets, i + 1, 0, first, later)
      {
        TriedRow(offsets, i, first, later);
      }
    }
    forall s ensures s in candidates <==> Admissible(message, length, quantity, instance, expected, s) {
      if Admissible(message, length, quantity, instance, expected, s) {
        ShapeIsTried(message, length, quantity, instance, expected, s);
      }
    }
  }

  lemma NoneTried(offsets: seq<nat>)
    ensures forall first, later :: !Tried(offsets, 0, 0, first, later)
  {
  }

  lemma CollectPair(message: Bytes, length: nat, quantity: Bytes, instance: nat, expected: Option<nat>,
                    offsets: seq<nat>, i: nat, j: nat, candidates: seq<Shape>, c: Option<Shape>)
    requires i < |offsets| && j < |offsets| && forall a, b :: 0 <= a < b < |offsets| ==> offsets[a] < offsets[b]
    requires Collected(message, length, quantity, instance, expected, offsets, i, j, candidates)
    requires c.Some? ==>
               && Admissible(message, length, quantity, instance, expected, c.value)
               && c.value.first == offsets[i] && offsets[i] + c.value.stride == offsets[j]
    requires c.None? ==> forall s ::
               Admissible(message, length, quantity, instance, expected, s) && s.first == offsets[i] ==>
                 offsets[i] + s.stride != offsets[j]
    ensures Collected(message, length, quantity, instance, expected, offsets, i, j + 1,
                candidates + if c.Some? then [c.value] else [])
  {
    hide Admissible, Tried;
    forall s: Shape ensures Tried(offsets, i, j + 1, s.first, s.first + s.stride) <==>
                     Tried(offsets, i, j, s.first, s.first + s.stride)
                     || (s.first == offsets[i] && s.first + s.stride == offsets[j]) {
      TriedNext(offsets, i, j, s.first, s.first + s.stride);
    }
    if c.Some? {
      forall s | Admissible(message, length, quantity, instance, expected, s) && s.first == offsets[i]
                 && s.first + s.stride == offsets[j]
        ensures s == c.value
      {
        SamePhaseSameShape(message, length, quantity, instance, expected, s, c.value);
      }
    }
  }

  /** A phase has one shape. */
  lemma SamePhaseSameShape(message: Bytes, length: nat, quantity: Bytes, instance: nat, expected: Option<nat>,
      s: Shape, t: Shape)
    requires Admissible(message, length, quantity, instance, expected, s)
    requires Admissible(message, length, quantity, instance, expected, t)
    requires s.first == t.first && s.stride == t.stride
    ensures s == t
  {
    hide Marked, Strides;
    if s.count < t.count {
      RunsEnd(message, length, quantity, instance, s, t);
    } else if t.count < s.count {
      RunsEnd(message, length, quantity, instance, t, s);
    }
  }

  /** A tiling shape ends with the frame, so no longer run has the same phase. */
  lemma RunsEnd(message: Bytes, length: nat, quantity: Bytes, instance: nat, s: Shape, t: Shape)
    requires Valid(message, length, quantity, instance, s) && Valid(message, length, quantity, instance, t)
    requires s.first == t.first && s.stride == t.stride
    ensures s.count >= t.count
  {
    hide Marked, Strides;
    if s.count < t.count {
      RecordOfShape(message, length, quantity, instance, t, s.count);
    }
  }

  lemma ShapeIsTried(message: Bytes, length: nat, quantity: Bytes, instance: nat, expected: Option<nat>, s: Shape)
    requires Admissible(message, length, quantity, instance, expected, s)
    ensures var offsets := FindAll(message, quantity, 0); Tried(offsets, |offsets|, 0, s.first, s.first + s.stride)
  {
    hide Strides, OccursAt, PlausibleInstanceAt;
    NextStride(s.stride, 0);
    var offsets := FindAll(message, quantity, 0);
    assert Marked(message, quantity, s.first + Strides(s.stride, 0), instance + Strides(s.stride, 0));
    assert Marked(message, quantity, s.first + Strides(s.stride, 0 + 1), instance + Strides(s.stride, 0 + 1));
    assert offsets[..|offsets|] == offsets;
  }

  datatype Found = Found(base: nat, stride: nat, instance: nat, first: nat)

  /** The normalized batch: the shape that repeats most often, if there is only one such. */
  method SourceStackRepeatedShape(message: Bytes, length: nat, quantity: Bytes, instance: Option<nat>,
      expected: Option<nat>) returns (found: Option<Found>)
    requires |quantity| == 4
    ensures found.Some? ==>
              instance.Some? && exists s ::
                Best(message, length, quantity, instance.value, expected, s) && found.value == Found(s.base, s.stride,
                    instance.value, s.first)
    ensures found.None? ==> instance.None? || forall s :: !Best(message, length, quantity, instance.value, expected, s)
  {
    if instance.None? {
      return None;
    }
    if expected.Some? && expected.value < 2 {
      return None;
    }
    hide Valid;
    var candidates := CollectShapes(message, length, quantity, instance.value, expected);
    if candidates == [] {
      assert forall s :: s !in candidates;
      return None;
    }
    var best := candidates[0].count;
    for i := 0 to |candidates|
      invariant forall k :: 0 <= k < i ==> candidates[k].count <= best
      invariant exists k :: 0 <= k < |candidates| && candidates[k].count == best
    {
      if candidates[i].count > best {
        best := candidates[i].count;
      }
    }
    var shapes := set i | 0 <= i < |candidates| && candidates[i].count == best :: candidates[i];
    assert forall s :: s in shapes <==> s in candidates && s.count == best;
    if |shapes| != 1 {
      NoBest(message, length, quantity, instance.value, expected, candidates, best, shapes);
      return None;
    }
    var s :| s in shapes;
    OnlyShape(shapes, s);
    forall other | Admissible(message, length, quantity, instance.value, expected, other) && other != s
      ensures other.count < s.count
    {
      assert other in candidates && other !in shapes;
    }
    assert Best(message, length, quantity, instance.value, expected, s);
    return Some(Found(s.base, s.stride, instance.value, s.first));
  }

  lemma NoBest(message: Bytes, length: nat, quantity: Bytes, instance: nat, expected: Option<nat>,
      candidates: seq<Shape>,
      best: nat, shapes: set<Shape>)
    requires forall s :: s in candidates <==> Admissible(message, length, quantity, instance, expected, s)
    requires forall s :: s in shapes <==> s in candidates && s.count == best
    requires (forall s :: s in candidates ==> s.count <= best) && (exists s :: s in candidates && s.count == best)
    requires |shapes| != 1
    ensures forall s :: !Best(message, length, quantity, instance, expected, s)
  {
    hide Admissible;
    var top :| top in candidates && top.count == best;
    assert top in shapes;
    var others := shapes - {top};
    assert |others| == |shapes| - 1;
    var second :| second in others;
    forall s ensures !Best(message, length, quantity, instance, expected, s) {
      if Admissible(message, length, quantity, instance, expected, s) {
        assert if s == top then second.count >= s.count else top.count >= s.count;
      }
    }
  }

  lemma OnlyShape(shapes: set<Shape>, s: Shape)
    requires |shapes| == 1 && s in shapes
    ensures shapes == {s}
  {
    assert |shapes - {s}| == 0;
  }

  /** In a valid shape the fields of different records lie in disjoint windows that tile the frame. */
  lemma ShapeTilesFrame(message: Bytes, length: nat, quantity: Bytes, instance: nat, s: Shape, j: nat, k: nat)
    requires Valid(message, length, quantity, instance, s) && j < k < s.count
    ensures var prefix := s.base - s.stride;
            && OccursAt(message, quantity, s.first + k * s.stride)
            && PlausibleInstanceAt(message, instance + k * s.stride)
            && Window(prefix, s.stride, k) <= s.first + k * s.stride
            && s.first + k * s.stride + 4 <= Window(prefix, s.stride, k) + s.stride <= length
            && Window(prefix, s.stride, k) <= instance + k * s.stride
            && instance + k * s.stride + 8 <= Window(prefix, s.stride, k) + s.stride
            && Window(prefix, s.stride, j) + s.stride <= Window(prefix, s.stride, k)
  {
    hide OccursAt, PlausibleInstanceAt;
    var prefix: nat := s.base - s.stride;
    assert Marked(message, quantity, s.first + Strides(s.stride, k), instance + Strides(s.stride, k));
    FieldsStayInTheirRecords(prefix, s.stride, s.count, length, Field(s.first, 4), j, k);
    FieldsStayInTheirRecords(prefix, s.stride, s.count, length, Field(instance, 8), j, k);
  }
}
