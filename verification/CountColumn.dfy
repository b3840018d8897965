// Learning which header column declares a storage wrapper's record count, and why the decoder then
// finds exactly the records calibration found.
module CountColumn {
  import opened Wire
  import opened RecordGeometry
  import opened Decoder
  import opened Holding
  import MessageDecoder

  const MAX_CALIBRATION_QUANTITY: nat := 1_000_000

  datatype Frame = Frame(opcode: nat, message: Bytes)

  /** A watched item found in a frame. */
  datatype ItemRecord = ItemRecord(frame: Frame, itemOffset: nat)

  /** A structurally complete item record by its marker. */
  predicate TransferRecordAt(message: Bytes, item: nat, instanceDelta: nat) {
    && item + Max(20, instanceDelta + 8) <= |message|
    && 0 < Number(message, item, 4) <= MAX_PLAUSIBLE_ITEM_ID
    && 0 < Number(message, item + 4, 4) <= MAX_CALIBRATION_QUANTITY
    && PlausibleInstance(Slice(message, item + instanceDelta, item + instanceDelta + 8))
    && message[item + MARKER_DELTA..item + 20] == TRANSFER_RECORD_MARKER
  }

  function RecordsFrom(message: Bytes, instanceDelta: nat, from: nat): (offsets: seq<nat>)
    decreases |message| - from
  {
    if from >= |message| then []
    else
      var here := if TransferRecordAt(message, from, instanceDelta) then [from] else [];
      here + RecordsFrom(message, instanceDelta, from + 1)
  }

  /** Exactly the complete records, in ascending order. */
  lemma {:induction false} RecordsFromAreAll(message: Bytes, instanceDelta: nat, from: nat)
    ensures var offsets := RecordsFrom(message, instanceDelta, from);
            && (forall p: nat :: p in offsets <==> from <= p && TransferRecordAt(message, p, instanceDelta))
            && forall i, j :: 0 <= i < j < |offsets| ==> offsets[i] < offsets[j]
    decreases |message| - from
  {
    hide TransferRecordAt;
    NoneAtTheEnd(message, instanceDelta, from);
    if from < |message| {
      RecordsFromAreAll(message, instanceDelta, from + 1);
      var later := RecordsFrom(message, instanceDelta, from + 1);
      forall i | 0 <= i < |later| ensures from < later[i] {
        assert later[i] in later;
      }
    }
  }

  lemma NoneAtTheEnd(message: Bytes, instanceDelta: nat, from: nat)
    ensures from >= |message| ==> forall p: nat :: from <= p ==> !TransferRecordAt(message, p, instanceDelta)
  {
  }

  /** Every complete record of the message, given where the first record has its item and instance. */
  function FullRecordOffsets(message: Bytes, item: nat, instance: Option<nat>): (offsets: seq<nat>) {
    if instance.None? || instance.value < item + 8 then [] else RecordsFrom(message, instance.value - item, 5)
  }

  function Least(s: set<nat>): (m: nat)
    requires s != {}
    ensures m in s && forall k :: k in s ==> m <= k
  {
    SmallestKey(s);
    var m :| m in s && forall k :: k in s ==> m <= k;
    m
  }

  function Sorted(s: set<nat>): (r: seq<nat>) {
    if s == {} then [] else [Least(s)] + Sorted(s - {Least(s)})
  }

  /** Where the watched item was recorded in a message. */
  function WatchedOffsets(records: seq<ItemRecord>, opcode: nat, message: Bytes): (s: set<nat>) {
    set i | 0 <= i < |records| && records[i].frame == Frame(opcode, message) :: records[i].itemOffset
  }

  /** What the learner is told about one opcode. */
  datatype Layout = Layout(opcode: nat, item: nat, instance: Option<nat>, singleLength: nat)

  /** The record positions of a message: by markers, or else where the watched item was seen. */
  function Offsets(l: Layout, records: seq<ItemRecord>, message: Bytes): (offsets: seq<nat>) {
    var full := FullRecordOffsets(message, l.item, l.instance);
    if full != [] then full else Sorted(WatchedOffsets(records, l.opcode, message))
  }

  /** The length a frame declares of itself. */
  function FrameLength(message: Bytes): nat {
    Number(message, 0, 2)
  }

  /** The offsets begin with the calibrated first record and tile the message at the single-record
      length. */
  predicate Validated(l: Layout, message: Bytes, offsets: seq<nat>) {
    && offsets != [] && offsets[0] == l.item
    && if |offsets| == 1 then FrameLength(message) == l.singleLength
       else
         var stride := UniformStride(offsets);
         stride.Some? && FrameLength(message) - (|offsets| - 1) * stride.value == l.singleLength
  }

  /** The number of records a frame proves to hold, if it proves any. */
  function Evidence(l: Layout, records: seq<ItemRecord>, frame: Frame): (count: Option<nat>) {
    var offsets := Offsets(l, records, frame.message);
    if frame.opcode == l.opcode && Validated(l, frame.message, offsets) then Some(|offsets|) else None
  }

  /** Calibration takes for a record what the decoder does, up to a million pieces of an item. */
  lemma CalibratedIsDecoded(message: Bytes, item: nat, instanceDelta: nat)
    ensures TransferRecordAt(message, item, instanceDelta) <==>
            && MessageDecoder.LooksLikeTransferRecord(message, item, instanceDelta)
            && Number(message, item + 4, 4) <= 1_000_000
  {
    hide Number, PlausibleInstance;
  }

  ghost predicate IsMarked(l: Layout, message: Bytes, p: nat) {
    && l.instance.Some? && l.item + 8 <= l.instance.value && 5 <= p
    && TransferRecordAt(message, p, l.instance.value - l.item)
  }

  ghost predicate IsWatched(l: Layout, records: seq<ItemRecord>, message: Bytes, p: nat) {
    exists i :: 0 <= i < |records| && records[i] == ItemRecord(Frame(l.opcode, message), p)
  }

  /** A record of the message starts at `p`: by its marker, or, in a message without any marked record,
      because the watched item was found there. */
  ghost predicate IsRecord(l: Layout, records: seq<ItemRecord>, message: Bytes, p: nat) {
    if exists q: nat :: IsMarked(l, message, q) then IsMarked(l, message, p) else IsWatched(l, records, message, p)
  }

  lemma {:induction false} SortedAscends(s: set<nat>)
    ensures var r := Sorted(s);
            && (forall p: nat :: p in r <==> p in s)
            && forall i, j :: 0 <= i < j < |r| ==> r[i] < r[j]
    decreases |s|
  {
    if s != {} {
      SortedAscends(s - {Least(s)});
      var later := Sorted(s - {Least(s)});
      forall i | 0 <= i < |later| ensures Least(s) < later[i] {
        assert later[i] in later;
      }
    }
  }

  /** The offsets are the places of records, in order. */
  lemma OffsetsAreRecords(l: Layout, records: seq<ItemRecord>, message: Bytes)
    ensures var offsets := Offsets(l, records, message);
            && (forall p: nat :: p in offsets <==> IsRecord(l, records, message, p))
            && forall i, j :: 0 <= i < j < |offsets| ==> offsets[i] < offsets[j]
  {
    hide TransferRecordAt, RecordsFrom, Sorted;
    if l.instance.Some? && l.item + 8 <= l.instance.value {
      RecordsFromAreAll(message, l.instance.value - l.item, 5);
    }
    var full, watched := FullRecordOffsets(message, l.item, l.instance), WatchedOffsets(records, l.opcode, message);
    SortedAscends(watched);
    if full != [] {
      assert Offsets(l, records, message) == full && full[0] in full;
      assert IsMarked(l, message, full[0]);
    } else {
      assert Offsets(l, records, message) == Sorted(watched);
      forall q: nat ensures !IsMarked(l, message, q) {
        assert q !in full;
      }
      forall p: nat ensures p in watched <==> IsWatched(l, records, message, p) {
      }
    }
  }

  /** A frame of the opcode proves a count if and only if just as many records begin at the calibrated
      place and follow each other at one distance, and without the further ones the frame has the length
      of a single record. */
  ghost predicate Proves(l: Layout, records: seq<ItemRecord>, frame: Frame, n: nat, s: nat) {
    && frame.opcode == l.opcode && n > 0 && (if n == 1 then s == 0 else s > 0)
    && (forall p: nat :: IsRecord(l, records, frame.message, p) <==> Spaced(p, l.item, s, n))
    && FrameLength(frame.message) == l.singleLength + Strides(s, n - 1)
  }

  lemma EvidenceIsProof(l: Layout, records: seq<ItemRecord>, frame: Frame, n: nat)
    ensures Evidence(l, records, frame) == Some(n) <==> exists s: nat :: Proves(l, records, frame, n, s)
  {
    hide IsRecord, Offsets, UniformStride, Spaced, Strides;
    var offsets := Offsets(l, records, frame.message);
    OffsetsAreRecords(l, records, frame.message);
    if s: nat :| Proves(l, records, frame, n, s) {
      AscendingIsSpaced(offsets, l.item, s, n);
      NextStride(s, 0);
      if n > 1 {
        TilingIsUniform(offsets, l.item, s, n);
        StrideTimes(s, n - 1);
      }
    }
    if Evidence(l, records, frame) == Some(n) {
      var s := if n > 1 then UniformStride(offsets).value else 0;
      if n > 1 {
        UniformGrows(offsets, s);
        StrideTimes(s, n - 1);
      }
      NextStride(s, 0);
      UniformIsSpaced(offsets, l.item, s);
      forall p: nat ensures IsRecord(l, records, frame.message, p) <==> Spaced(p, l.item, s, n) {
        if p in offsets {
          var k: nat :| k < n && offsets[k] == p;
          PlaceIsSpaced(p, l.item, s, n, k);
        }
        if Spaced(p, l.item, s, n) {
          var k := SpacedPlace(p, l.item, s, n);
          assert offsets[k] == p;
        }
      }
      assert Proves(l, records, frame, n, s);
    }
  }

  lemma StrideTimes(s: int, k: nat)
    ensures s >= 0 ==> Strides(s, k) == k * s
  {
  }

  lemma UniformGrows(offsets: seq<nat>, s: int)
    requires |offsets| > 1 && UniformStride(offsets) == Some(s)
    requires forall i, j :: 0 <= i < j < |offsets| ==> offsets[i] < offsets[j]
    ensures s > 0
  {
  }

  /** A column of the header that holds `count`. */
  predicate Holds(l: Layout, message: Bytes, count: nat, at: nat) {
    5 <= at < Min(l.item, |message|) - 1 && U16(message, at) == count
  }

  /** A column that holds the record count in every validated frame. */
  ghost predicate Common(l: Layout, records: seq<ItemRecord>, frames: seq<Frame>, at: nat) {
    forall f :: f in frames && Evidence(l, records, f).Some? ==> Holds(l, f.message, Evidence(l, records, f).value, at)
  }

  ghost predicate TwoCounts(l: Layout, records: seq<ItemRecord>, frames: seq<Frame>) {
    exists f, g :: f in frames && g in frames && Evidence(l, records, f).Some? && Evidence(l, records, g).Some?
                   && Evidence(l, records, f) != Evidence(l, records, g)
  }

  /** The authoritative column: at least two different counts were seen, and it is the only column
      that held every one of them. */
  ghost predicate Authoritative(l: Layout, records: seq<ItemRecord>, frames: seq<Frame>, at: nat) {
    && l.instance.Some? && TwoCounts(l, records, frames)
    && Common(l, records, frames, at)
    && forall other: nat :: Common(l, records, frames, other) ==> other == at
  }

  function Columns(l: Layout, message: Bytes, count: nat): (s: set<nat>)
    ensures forall at: nat :: at in s <==> Holds(l, message, count, at)
  {
    set at: nat | at < l.item && Holds(l, message, count, at)
  }

  /** The columns still possible after some frames, none of which has excluded all. */
  ghost predicate Narrowed(l: Layout, records: seq<ItemRecord>, frames: seq<Frame>, columns: Option<set<nat>>) {
    if columns.None? then forall f :: f in frames ==> Evidence(l, records, f).None?
    else
      && (exists f :: f in frames && Evidence(l, records, f).Some?)
      && forall at: nat :: at in columns.value <==> Common(l, records, frames, at)
  }

  ghost predicate Counted(l: Layout, records: seq<ItemRecord>, frames: seq<Frame>, counts: set<nat>) {
    forall n :: n in counts <==> exists f :: f in frames && Evidence(l, records, f) == Some(n)
  }

  function Narrow(columns: Option<set<nat>>, candidates: set<nat>): set<nat> {
    if columns.None? then candidates else columns.value * candidates
  }

  /** A frame that proves nothing, or one seen before, changes nothing. */
  lemma SkipFrame(l: Layout, records: seq<ItemRecord>, frames: seq<Frame>, frame: Frame, columns: Option<set<nat>>,
      counts: set<nat>)
    requires Narrowed(l, records, frames, columns) && Counted(l, records, frames, counts)
    requires Evidence(l, records, frame).None? || frame in frames
    ensures Narrowed(l, records, frames + [frame], columns) && Counted(l, records, frames + [frame], counts)
  {
    hide Evidence, Holds;
    var more := frames + [frame];
    assert forall f :: f in more <==> f in frames || f == frame;
    if columns.Some? {
      forall at: nat ensures Common(l, records, more, at) <==> Common(l, records, frames, at) {
      }
    }
  }

  lemma NarrowFrame(l: Layout, records: seq<ItemRecord>, frames: seq<Frame>, frame: Frame, columns: Option<set<nat>>,
      counts: set<nat>, count: nat)
    requires Narrowed(l, records, frames, columns) && Counted(l, records, frames, counts)
    requires Evidence(l, records, frame) == Some(count)
    ensures Narrowed(l, records, frames + [frame], Some(Narrow(columns, Columns(l, frame.message, count))))
    ensures Counted(l, records, frames + [frame], counts + {count})
  {
    hide Evidence, Holds, Columns;
    var more, candidates := frames + [frame], Columns(l, frame.message, count);
    assert forall f :: f in more <==> f in frames || f == frame;
    forall at: nat ensures at in Narrow(columns, candidates) <==> Common(l, records, more, at) {
      if at in Narrow(columns, candidates) {
        assert columns.Some? ==> Common(l, records, frames, at);
      }
      if Common(l, records, more, at) {
        assert Holds(l, frame.message, count, at);
        assert columns.Some? ==> Common(l, records, frames, at);
      }
    }
    forall n ensures n in counts + {count} <==> exists f :: f in more && Evidence(l, records, f) == Some(n) {
      if n == count {
        assert frame in more;
      }
    }
  }

  /** A column excluded by some frames is excluded by all. */
  lemma NothingLeft(l: Layout, records: seq<ItemRecord>, part: seq<Frame>, frames: seq<Frame>)
    requires part <= frames && Narrowed(l, records, part, Some({}))
    ensures forall at: nat :: !Authoritative(l, records, frames, at)
  {
    hide Evidence, Holds;
    forall at: nat ensures !Common(l, records, frames, at) {
      assert at !in {};
      assert !Common(l, records, part, at);
      var f :| f in part && Evidence(l, records, f).Some? && !Holds(l, f.message, Evidence(l, records, f).value, at);
      assert f in frames;
    }
  }

  /** Two different counts were seen exactly when the set of counts has two elements. */
  lemma CountsAreTwo(l: Layout, records: seq<ItemRecord>, frames: seq<Frame>, counts: set<nat>)
    requires Counted(l, records, frames, counts)
    ensures TwoCounts(l, records, frames) <==> |counts| >= 2
  {
    hide Evidence;
    if TwoCounts(l, records, frames) {
      var f, g :| f in frames && g in frames && Evidence(l, records, f).Some? && Evidence(l, records, g).Some?
                  && Evidence(l, records, f) != Evidence(l, records, g);
      var m, n := Evidence(l, records, f).value, Evidence(l, records, g).value;
      assert {m, n} <= counts && |{m, n}| == 2;
      SubsetIsSmaller({m, n}, counts);
    }
    if |counts| >= 2 {
      var m :| m in counts;
      var rest := counts - {m};
      assert |rest| >= 1;
      var n :| n in rest;
      var f :| f in frames && Evidence(l, records, f) == Some(m);
      var g :| g in frames && Evidence(l, records, g) == Some(n);
    }
  }

  lemma OnlyOne(s: set<nat>, x: nat)
    requires |s| == 1 && x in s
    ensures s == {x}
  {
    assert |s - {x}| == 0;
  }

  /** The only column that states the record count in every validated frame, if there is just one. */
  method DiscoverStorageRecordCountOffset(l: Layout, records: seq<ItemRecord>, frames: seq<Frame>)
    returns (column: Option<nat>)
    ensures column.Some? ==> Authoritative(l, records, frames, column.value)
    ensures column.None? ==> forall at: nat :: !Authoritative(l, records, frames, at)
  {
    hide Evidence, Holds, Columns, Narrowed, Counted, TwoCounts, Common;
    if l.instance.None? {
      return None;
    }
    var columns: Option<set<nat>>, seen: set<Bytes>, counts: set<nat> := None, {}, {};
    NothingSeen(l, records);
    for i := 0 to |frames|
      invariant Narrowed(l, records, frames[..i], columns) && Counted(l, records, frames[..i], counts)
      invariant forall m :: m in seen ==> Frame(l.opcode, m) in frames[..i]
    {
      var frame := frames[i];
      assert frames[..i + 1] == frames[..i] + [frame];
      var count := Evidence(l, records, frame);
      if frame.opcode != l.opcode || frame.message in seen || count.None? {
        OtherOpcode(l, records, frame);
        SkipFrame(l, records, frames[..i], frame, columns, counts);
        continue;
      }
      var candidates := Columns(l, frame.message, count.value);
      NarrowFrame(l, records, frames[..i], frame, columns, counts, count.value);
      seen, counts := seen + {frame.message}, counts + {count.value};
      columns := Some(Narrow(columns, candidates));
      if columns.value == {} {
        NothingLeft(l, records, frames[..i + 1], frames);
        return None;
      }
    }
    assert frames[..|frames|] == frames;
    CountsAreTwo(l, records, frames, counts);
    ColumnsDecide(l, records, frames, columns);
    if |counts| < 2 || columns.None? || |columns.value| != 1 {
      return None;
    }
    var only :| only in columns.value;
    OnlyOne(columns.value, only);
    return Some(only);
  }

  lemma NothingSeen(l: Layout, records: seq<ItemRecord>)
    ensures Narrowed(l, records, [], None) && Counted(l, records, [], {})
  {
  }

  lemma OtherOpcode(l: Layout, records: seq<ItemRecord>, frame: Frame)
    ensures frame.opcode != l.opcode ==> Evidence(l, records, frame).None?
  {
  }

  /** With two counts seen, a column is authoritative exactly when it is the only one left. */
  lemma ColumnsDecide(l: Layout, records: seq<ItemRecord>, frames: seq<Frame>, columns: Option<set<nat>>)
    requires Narrowed(l, records, frames, columns) && l.instance.Some?
    ensures forall at: nat :: Authoritative(l, records, frames, at) <==>
              TwoCounts(l, records, frames) && columns == Some({at})
    ensures forall at: nat :: columns.Some? && columns.value == {at} ==> |columns.value| == 1
  {
    hide Evidence, Holds;
    forall at: nat
      ensures Authoritative(l, records, frames, at) <==> TwoCounts(l, records, frames) && columns == Some({at})
    {
      if columns.Some? {
        if Authoritative(l, records, frames, at) {
          assert forall other: nat :: other in columns.value <==> other == at;
          assert columns.value == {at};
        }
      }
    }
  }

  /** What is learned does not depend on the order of the frames or on duplicates. */
  lemma OrderNeverMatters(l: Layout, records: seq<ItemRecord>, a: seq<Frame>, b: seq<Frame>, at: nat)
    requires forall f :: f in a <==> f in b
    ensures Authoritative(l, records, a, at) <==> Authoritative(l, records, b, at)
  {
    hide Evidence, Holds;
    forall other: nat ensures Common(l, records, a, other) <==> Common(l, records, b, other) {
    }
  }

  /** At most one column is authoritative. */
  lemma AuthorityIsUnique(l: Layout, records: seq<ItemRecord>, frames: seq<Frame>, at: nat, other: nat)
    requires Authoritative(l, records, frames, at) && Authoritative(l, records, frames, other)
    ensures at == other
  {
    hide Evidence, Holds;
  }

  /** The storage layout written from what calibration learned. */
  predicate Written(spec: EventSpec, l: Layout, at: nat) {
    && spec.family == InventoryToStorage && spec.itemOffset == l.item && spec.quantityOffset == l.item + 4
    && l.instance.Some? && spec.storageInstanceOffset == l.instance
    && spec.singleRecordMessageLength == Some(l.singleLength) && spec.recordCountOffset == Some(at)
  }

  /** Where calibration found the records, relative to the first. */
  function FoundDeltas(item: nat, offsets: seq<nat>): (deltas: seq<nat>)
    requires forall i :: 0 <= i < |offsets| ==> item <= offsets[i]
    ensures |deltas| == |offsets|
  {
    seq(|offsets|, (i: nat) requires i < |offsets| => offsets[i] - item)
  }

  /** The header and every record field lie where the implied tiling has room for them. */
  predicate Roomy(spec: EventSpec, l: Layout, at: nat, offsets: seq<nat>)
    requires l.instance.Some?
  {
    |offsets| >= 2 && UniformStride(offsets).Some? ==>
      var stride := UniformStride(offsets).value;
      var prefix := l.singleLength - stride;
      prefix >= 5 && at + 2 <= prefix
      && FieldsFitRecord(prefix, stride, RecordFields(spec, l.instance.value, TRANSFER_QUANTITY_BYTES))
  }

  lemma RecordIsPlausible(message: Bytes, item: nat, delta: nat)
    requires TransferRecordAt(message, item, delta)
    ensures PlausibleRecord(message, item, item + 4, item + delta, TRANSFER_QUANTITY_BYTES)
  {
    hide Number, PlausibleInstance, Slice;
  }

  /** The offsets calibration validated are the strides of the geometry the count implies. */
  lemma OffsetsAreStrides(l: Layout, message: Bytes, offsets: seq<nat>)
    requires Validated(l, message, offsets) && FrameLength(message) == |message| && |offsets| >= 2
    requires forall i, j :: 0 <= i < j < |offsets| ==> offsets[i] < offsets[j]
    ensures var stride := UniformStride(offsets).value;
            && stride > 0 && InferRepeatStride(|message|, l.singleLength, |offsets|) == Some(stride)
            && |message| - (l.singleLength - stride) == |offsets| * stride
            && FoundDeltas(l.item, offsets) == StrideDeltas(stride, |offsets|)
  {
    hide FrameLength;
    var stride, n := UniformStride(offsets).value, |offsets|;
    assert offsets[0] < offsets[1];
    StrideSolvesTheTiling(|message|, l.singleLength, n, stride);
    UniformIsArithmetic(offsets, stride);
    assert n * stride == (n - 1) * stride + stride;
    forall i | 0 <= i < n ensures FoundDeltas(l.item, offsets)[i] == Strides(stride, i) {
      assert offsets[i] == offsets[0] + i * stride;
    }
  }

  /** On every frame that proved its records by their markers, the decoder's record positions under the
      learned column are exactly the ones calibration found: if and only if the learned header and
      fields fit the tiling. */
  lemma DecoderFindsTheSameRecords(l: Layout, records: seq<ItemRecord>, frames: seq<Frame>, at: nat, frame: Frame,
      spec: EventSpec)
    requires Authoritative(l, records, frames, at) && frame in frames && Evidence(l, records, frame).Some?
    requires Written(spec, l, at) && FrameLength(frame.message) == |frame.message|
    requires FullRecordOffsets(frame.message, l.item, l.instance) != []
    ensures var offsets := FullRecordOffsets(frame.message, l.item, l.instance);
            && (forall i :: 0 <= i < |offsets| ==> l.item <= offsets[i])
            && (DeclaredStorageDeltas(spec, frame.message) == Some(FoundDeltas(l.item, offsets)) <==>
                  Roomy(spec, l, at, offsets))
            && (!Roomy(spec, l, at, offsets) ==> DeclaredStorageDeltas(spec, frame.message) == Some([]))
  {
    hide Authoritative, FullRecordOffsets, FrameLength, Evidence, StrideDeltas, Strides, Holds, Validated,
        DeclaredStorageDeltas, Roomy, AllPlausible, FoundDeltas;
    var m, offsets := frame.message, FullRecordOffsets(frame.message, l.item, l.instance);
    MarkedEvidence(l, records, frames, at, frame);
    FirstIsLeast(l, m, offsets);
    FoundArePlausible(l, m, spec, at);
    DeclaredAsFound(l, m, offsets, at, spec);
    NotEmpty(l.item, offsets);
  }

  /** What a frame proved by markers says of itself and of the authoritative column. */
  lemma MarkedEvidence(l: Layout, records: seq<ItemRecord>, frames: seq<Frame>, at: nat, frame: Frame)
    requires Authoritative(l, records, frames, at) && frame in frames && Evidence(l, records, frame).Some?
    requires FullRecordOffsets(frame.message, l.item, l.instance) != []
    ensures var offsets := FullRecordOffsets(frame.message, l.item, l.instance);
            && Validated(l, frame.message, offsets) && Holds(l, frame.message, |offsets|, at)
            && forall i, j :: 0 <= i < j < |offsets| ==> offsets[i] < offsets[j]
  {
    hide Validated, Holds, UniformStride, TransferRecordAt, RecordsFrom;
    var delta: nat := l.instance.value - l.item;
    RecordsFromAreAll(frame.message, delta, 5);
    assert FullRecordOffsets(frame.message, l.item, l.instance) == RecordsFrom(frame.message, delta, 5);
    hide FullRecordOffsets;
  }

  lemma FirstIsLeast(l: Layout, message: Bytes, offsets: seq<nat>)
    requires Validated(l, message, offsets) && forall i, j :: 0 <= i < j < |offsets| ==> offsets[i] < offsets[j]
    ensures forall i :: 0 <= i < |offsets| ==> l.item <= offsets[i]
  {
    hide UniformStride, FrameLength;
    forall i | 0 <= i < |offsets| ensures l.item <= offsets[i] {
      assert i > 0 ==> offsets[0] < offsets[i];
    }
  }

  lemma FoundArePlausible(l: Layout, message: Bytes, spec: EventSpec, at: nat)
    requires Written(spec, l, at)
    requires var offsets := FullRecordOffsets(message, l.item, l.instance);
             offsets != [] && forall i :: 0 <= i < |offsets| ==> l.item <= offsets[i]
    ensures var deltas := FoundDeltas(l.item, FullRecordOffsets(message, l.item, l.instance));
            AllPlausible(spec, message, l.instance.value, deltas, TRANSFER_QUANTITY_BYTES)
  {
    hide TransferRecordAt, PlausibleRecord, RecordsFrom;
    var offsets := FullRecordOffsets(message, l.item, l.instance);
    RecordsFromAreAll(message, l.instance.value - l.item, 5);
    forall i | 0 <= i < |offsets|
      ensures PlausibleRecord(message, offsets[i], offsets[i] + 4, offsets[i] + (l.instance.value - l.item),
                  TRANSFER_QUANTITY_BYTES)
    {
      assert offsets[i] in offsets;
      RecordIsPlausible(message, offsets[i], l.instance.value - l.item);
    }
  }

  lemma NotEmpty(item: nat, offsets: seq<nat>)
    requires offsets != [] && forall i :: 0 <= i < |offsets| ==> item <= offsets[i]
    ensures FoundDeltas(item, offsets) != []
  {
  }

  lemma DeclaredAsFound(l: Layout, m: Bytes, offsets: seq<nat>, at: nat, spec: EventSpec)
    requires Written(spec, l, at) && Holds(l, m, |offsets|, at) && Validated(l, m, offsets) && FrameLength(m) == |m|
    requires forall i, j :: 0 <= i < j < |offsets| ==> offsets[i] < offsets[j]
    requires forall i :: 0 <= i < |offsets| ==> l.item <= offsets[i]
    requires AllPlausible(spec, m, l.instance.value, FoundDeltas(l.item, offsets), TRANSFER_QUANTITY_BYTES)
    ensures DeclaredStorageDeltas(spec, m) ==
            if Roomy(spec, l, at, offsets) then Some(FoundDeltas(l.item, offsets)) else Some([])
  {
    hide AllPlausible, FrameLength, FieldsFitRecord, StrideDeltas, Strides;
    if |offsets| >= 2 {
      OffsetsAreStrides(l, m, offsets);
    } else {
      OneRecord(l.item, offsets);
    }
    hide FoundDeltas, UniformStride, InferRepeatStride, U16;
  }

  lemma OneRecord(item: nat, offsets: seq<nat>)
    requires |offsets| == 1 && offsets[0] == item
    ensures FoundDeltas(item, offsets) == StrideDeltas(0, 1)
  {
  }
}
