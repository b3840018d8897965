// From one complete target message to its item records.
module MessageDecoder {
  import opened Wire
  import opened RecordGeometry
  import opened Decoder

  /** A transfer record that validates itself by its marker. */
  predicate LooksLikeTransferRecord(message: Bytes, item: nat, instanceDelta: nat) {
    && item + Max(20, instanceDelta + 8) <= |message|
    && 0 < Number(message, item, 4) <= MAX_PLAUSIBLE_ITEM_ID
    && Number(message, item + 4, 4) > 0
    && PlausibleInstance(Slice(message, item + instanceDelta, item + instanceDelta + 8))
    && message[item + MARKER_DELTA..item + 20] == TRANSFER_RECORD_MARKER
  }

  lemma LooksLikeHasMarker(message: Bytes, item: nat, instanceDelta: nat)
    requires LooksLikeTransferRecord(message, item, instanceDelta)
    ensures OccursAt(message, TRANSFER_RECORD_MARKER, item + MARKER_DELTA)
  {
    assert |TRANSFER_RECORD_MARKER| == 12;
  }

  /** The self-validating records at or after `from`, in order. */
  function RecordOffsets(message: Bytes, instanceDelta: nat, from: nat): (offsets: seq<nat>)
    ensures forall i :: 0 <= i < |offsets| ==> from <= offsets[i]
    decreases |message| - from
  {
    if from >= |message| then []
    else
      var more := RecordOffsets(message, instanceDelta, from + 1);
      if LooksLikeTransferRecord(message, from, instanceDelta) then [from] + more else more
  }

  lemma {:induction false} RecordOffsetsAreRecords(message: Bytes, instanceDelta: nat, from: nat, i: nat)
    requires i < |RecordOffsets(message, instanceDelta, from)|
    ensures LooksLikeTransferRecord(message, RecordOffsets(message, instanceDelta, from)[i], instanceDelta)
    decreases |message| - from
  {
    hide LooksLikeTransferRecord;
    if LooksLikeTransferRecord(message, from, instanceDelta) {
      if i > 0 {
        RecordOffsetsAreRecords(message, instanceDelta, from + 1, i - 1);
      }
    } else {
      RecordOffsetsAreRecords(message, instanceDelta, from + 1, i);
    }
  }

  lemma {:induction false} SkipRecordless(message: Bytes, instanceDelta: nat, from: nat, to: nat)
    requires from <= to && forall p :: from <= p < to ==> !LooksLikeTransferRecord(message, p, instanceDelta)
    ensures RecordOffsets(message, instanceDelta, from) == RecordOffsets(message, instanceDelta, to)
    decreases (to as int) - (from as int)
  {
    hide LooksLikeTransferRecord;
    if from < to {
      SkipRecordless(message, instanceDelta, from + 1, to);
    }
  }

  /** `bytes.find`: the earliest occurrence at or after `from`. */
  function FindFrom(message: Bytes, needle: Bytes, from: nat): (at: Option<nat>)
    ensures at.Some? ==> from <= at.value && OccursAt(message, needle, at.value)
    ensures at.Some? ==> forall p :: from <= p < at.value ==> !OccursAt(message, needle, p)
    ensures at.None? ==> forall p :: from <= p ==> !OccursAt(message, needle, p)
    decreases |message| - from
  {
    if OccursAt(message, needle, from) then Some(from)
    else if from >= |message| then None
    else FindFrom(message, needle, from + 1)
  }

  /** Where no marker occurs no record starts. */
  lemma MarkerlessIsRecordless(message: Bytes, instanceDelta: nat, from: nat, to: nat)
    requires from <= to
    requires forall p :: from + MARKER_DELTA <= p < to + MARKER_DELTA ==> !OccursAt(message, TRANSFER_RECORD_MARKER, p)
    ensures RecordOffsets(message, instanceDelta, from) == RecordOffsets(message, instanceDelta, to)
  {
    hide LooksLikeTransferRecord, RecordOffsets, OccursAt;
    forall p: nat | from <= p < to ensures !LooksLikeTransferRecord(message, p, instanceDelta) {
      if LooksLikeTransferRecord(message, p, instanceDelta) {
        LooksLikeHasMarker(message, p, instanceDelta);
      }
    }
    SkipRecordless(message, instanceDelta, from, to);
  }

  /** Marker by marker, keep the positions that look like a whole record. */
  method SearchRecordOffsets(message: Bytes, itemOffset: nat, instanceDelta: nat) returns (offsets: seq<nat>)
    ensures offsets == RecordOffsets(message, instanceDelta, itemOffset)
  {
    hide LooksLikeTransferRecord, FindFrom;
    offsets := [];
    var searchAt := itemOffset + MARKER_DELTA;
    while true
      invariant itemOffset + MARKER_DELTA <= searchAt
      invariant offsets + RecordOffsets(message, instanceDelta, searchAt - MARKER_DELTA) == RecordOffsets(message,
          instanceDelta, itemOffset)
      decreases |message| + MARKER_DELTA + 1 - searchAt
    {
      var from := searchAt - MARKER_DELTA;
      var markerAt := FindFrom(message, TRANSFER_RECORD_MARKER, searchAt);
      if markerAt.None? {
        MarkerlessIsRecordless(message, instanceDelta, from, Max(from, |message|));
        return;
      }
      var item := markerAt.value - MARKER_DELTA;
      MarkerlessIsRecordless(message, instanceDelta, from, item);
      searchAt := markerAt.value + 1;
      MarkerInside(message, markerAt.value);
      if LooksLikeTransferRecord(message, item, instanceDelta) {
        ghost var more := RecordOffsets(message, instanceDelta, item + 1);
        assert offsets + ([item] + more) == offsets + [item] + more;
        offsets := offsets + [item];
      }
    }
  }

  lemma MarkerInside(message: Bytes, at: nat)
    requires OccursAt(message, TRANSFER_RECORD_MARKER, at)
    ensures at < |message|
  {
    assert |TRANSFER_RECORD_MARKER| == 12;
  }

  predicate SupportsStructuralScan(spec: EventSpec) {
    var instance := StructuralInstanceOffset(spec);
    instance.Some? && spec.quantityOffset - spec.itemOffset == 4 && instance.value - spec.itemOffset >= 20
  }

  /** Records found without trusting a saved stride: `None` is unsupported, `Some([])` rejected. */
  function StructuralDeltas(spec: EventSpec, message: Bytes): (deltas: Option<seq<nat>>) {
    if spec.family == InventoryToStorage then DeclaredStorageDeltas(spec, message)
    else if !SupportsStructuralScan(spec) then None
    else
      var instanceDelta := StructuralInstanceOffset(spec).value - spec.itemOffset;
      var offsets := RecordOffsets(message, instanceDelta, spec.itemOffset);
      if offsets == [] || offsets[0] != spec.itemOffset then Some([])
      else
        var stride := if |offsets| > 1 then UniformStride(offsets) else Some(0);
        if |offsets| > 1 && (stride.None? || stride.value < Max(20, instanceDelta + 8)) then Some([])
        else if spec.singleRecordMessageLength.Some?
           && |message| != spec.singleRecordMessageLength.value + Strides(stride.value, |offsets| - 1)
        then Some([])
        else Some(seq(|offsets|, (i: nat) requires i < |offsets| => (offsets[i] - spec.itemOffset) as nat))
  }

  /** Structurally found records start at the calibrated first one, are equally spaced, and never
      overlap. */
  lemma StructuralRecordsAreSpaced(spec: EventSpec, message: Bytes, i: nat)
    requires spec.family != InventoryToStorage && SupportsStructuralScan(spec)
    requires StructuralDeltas(spec, message).Some?
    requires i < |StructuralDeltas(spec, message).value|
    ensures var deltas := StructuralDeltas(spec, message).value;
            var instanceDelta := StructuralInstanceOffset(spec).value - spec.itemOffset;
            && LooksLikeTransferRecord(message, spec.itemOffset + deltas[i], instanceDelta)
            && deltas[0] == 0
            && (|deltas| > 1 ==> deltas[1] >= Max(20, instanceDelta + 8) && deltas[i] == i * deltas[1])
  {
    hide Strides, LooksLikeTransferRecord;
    var instanceDelta := StructuralInstanceOffset(spec).value - spec.itemOffset;
    var offsets := RecordOffsets(message, instanceDelta, spec.itemOffset);
    var deltas := StructuralDeltas(spec, message).value;
    RecordOffsetsAreRecords(message, instanceDelta, spec.itemOffset, i);
    assert offsets[0] == spec.itemOffset && |deltas| == |offsets| && deltas[i] == offsets[i] - offsets[0];
    if |offsets| > 1 {
      var s := UniformStride(offsets).value;
      assert deltas[1] == s && s >= Max(20, instanceDelta + 8);
      hide *;
      UniformIsArithmetic(offsets, s);
    }
  }

  /** Exactly at the calibrated offset and `n - 1` times `s` bytes behind it a record validates itself,
      the records do not overlap, and the message is as long as that makes it. */
  ghost predicate Tiled(spec: EventSpec, message: Bytes, n: nat, s: nat)
    requires SupportsStructuralScan(spec)
  {
    var instanceDelta := StructuralInstanceOffset(spec).value - spec.itemOffset;
    && n > 0 && (if n == 1 then s == 0 else s >= 20 && s >= instanceDelta + 8)
    && (forall p: nat :: spec.itemOffset <= p ==>
          (LooksLikeTransferRecord(message, p, instanceDelta) <==> Spaced(p, spec.itemOffset, s, n)))
    && (spec.singleRecordMessageLength.Some? ==>
          |message| == spec.singleRecordMessageLength.value + Strides(s, n - 1))
  }

  /** The self-validating records are found one after the other. */
  lemma {:induction false} OffsetsOfTiling(message: Bytes, instanceDelta: nat, from: nat, at: nat, s: nat, n: nat)
    requires from <= at && (n > 1 ==> s > 0)
    requires forall p: nat :: from <= p ==>
               (LooksLikeTransferRecord(message, p, instanceDelta) <==> Spaced(p, at, s, n))
    ensures RecordOffsets(message, instanceDelta, from) ==
            seq(n, (k: nat) requires k < n => at + Strides(s, k))
    decreases n
  {
    hide LooksLikeTransferRecord, Spaced, Strides, RecordOffsets;
    if n == 0 {
      forall p: nat | from <= p ensures !LooksLikeTransferRecord(message, p, instanceDelta) {
        NowhereSpaced(p, at, s);
      }
      SkipRecordless(message, instanceDelta, from, Max(from, |message|));
      NoOffsets(message, instanceDelta, Max(from, |message|));
    } else {
      forall p: nat | from <= p
        ensures LooksLikeTransferRecord(message, p, instanceDelta) <==> p == at || Spaced(p, at + s, s, n - 1)
        ensures Spaced(p, at + s, s, n - 1) ==> p > at
      {
        SpacedLater(p, at, s, n);
      }
      SkipRecordless(message, instanceDelta, from, at);
      OffsetsFrom(message, instanceDelta, at);
      RecordIsInside(message, at, instanceDelta);
      if n > 1 {
        OffsetsOfTiling(message, instanceDelta, at + 1, at + s, s, n - 1);
      } else {
        forall p: nat | at + 1 <= p ensures !LooksLikeTransferRecord(message, p, instanceDelta) {
          NowhereSpaced(p, at + s, s);
        }
        SkipRecordless(message, instanceDelta, at + 1, |message|);
        NoOffsets(message, instanceDelta, |message|);
      }
      TilingFirst(at, s, n);
    }
  }

  lemma NoOffsets(message: Bytes, instanceDelta: nat, from: nat)
    requires from >= |message|
    ensures RecordOffsets(message, instanceDelta, from) == []
  {
  }

  lemma OffsetsFrom(message: Bytes, instanceDelta: nat, from: nat)
    requires LooksLikeTransferRecord(message, from, instanceDelta)
    ensures RecordOffsets(message, instanceDelta, from) == [from] + RecordOffsets(message, instanceDelta, from + 1)
  {
  }

  lemma RecordIsInside(message: Bytes, item: nat, instanceDelta: nat)
    requires LooksLikeTransferRecord(message, item, instanceDelta)
    ensures item < |message|
  {
  }

  lemma {:induction false} OffsetsAreAll(message: Bytes, instanceDelta: nat, from: nat, p: nat)
    requires from <= p && LooksLikeTransferRecord(message, p, instanceDelta)
    ensures p in RecordOffsets(message, instanceDelta, from)
    decreases p - from
  {
    hide LooksLikeTransferRecord;
    RecordIsInside(message, p, instanceDelta);
    if from < p {
      OffsetsAreAll(message, instanceDelta, from + 1, p);
    }
  }

  /** Where the records are so tiled they are all found. */
  lemma TiledIsFound(spec: EventSpec, message: Bytes, n: nat, s: nat)
    requires spec.family != InventoryToStorage && SupportsStructuralScan(spec) && Tiled(spec, message, n, s)
    ensures StructuralDeltas(spec, message) == Some(StrideDeltas(s, n))
  {
    hide LooksLikeTransferRecord, Spaced, Strides, UniformStride, RecordOffsets;
    var instanceDelta := StructuralInstanceOffset(spec).value - spec.itemOffset;
    OffsetsOfTiling(message, instanceDelta, spec.itemOffset, spec.itemOffset, s, n);
    var offsets := RecordOffsets(message, instanceDelta, spec.itemOffset);
    NextStride(s, 0);
    assert offsets[0] == spec.itemOffset;
    if n > 1 {
      TilingIsUniform(offsets, spec.itemOffset, s, n);
    }
    assert |offsets| == n && forall k :: 0 <= k < n ==> offsets[k] - spec.itemOffset == Strides(s, k);
    var found := StructuralDeltas(spec, message);
    assert found.value == StrideDeltas(s, n);
  }

  /** A structural search accepts exactly the tiled messages: every self-validating record of the message
      is among the records, and no other place is. */
  lemma StructuralIsTiled(spec: EventSpec, message: Bytes)
    requires spec.family != InventoryToStorage && SupportsStructuralScan(spec)
    ensures StructuralDeltas(spec, message).Some?
    ensures StructuralDeltas(spec, message).value != [] <==> exists n: nat, s: nat :: Tiled(spec, message, n, s)
  {
    hide LooksLikeTransferRecord, Tiled, UniformStride;
    if n: nat, s: nat :| Tiled(spec, message, n, s) {
      TiledIsFound(spec, message, n, s);
      assert n > 0 by { TiledIsSome(spec, message, n, s); }
    }
    if StructuralDeltas(spec, message).value != [] {
      var offsets := RecordOffsets(message, StructuralInstanceOffset(spec).value - spec.itemOffset, spec.itemOffset);
      var s := if |offsets| > 1 then UniformStride(offsets).value else 0;
      FoundIsTiled(spec, message, s);
    }
  }

  lemma TiledIsSome(spec: EventSpec, message: Bytes, n: nat, s: nat)
    requires SupportsStructuralScan(spec) && Tiled(spec, message, n, s)
    ensures n > 0
  {
  }

  lemma FoundIsTiled(spec: EventSpec, message: Bytes, s: nat)
    requires spec.family != InventoryToStorage && SupportsStructuralScan(spec)
    requires StructuralDeltas(spec, message).value != []
    requires var instanceDelta := StructuralInstanceOffset(spec).value - spec.itemOffset;
             var offsets := RecordOffsets(message, instanceDelta, spec.itemOffset);
             if |offsets| > 1 then UniformStride(offsets) == Some(s) else s == 0
    ensures Tiled(spec, message, |StructuralDeltas(spec, message).value|, s)
  {
    hide LooksLikeTransferRecord, Spaced, Strides, UniformStride, RecordOffsets;
    var instanceDelta := StructuralInstanceOffset(spec).value - spec.itemOffset;
    var offsets, at := RecordOffsets(message, instanceDelta, spec.itemOffset), spec.itemOffset;
    var n := |offsets|;
    UniformIsSpaced(offsets, at, s);
    forall p: nat | at <= p
      ensures LooksLikeTransferRecord(message, p, instanceDelta) <==> Spaced(p, at, s, n)
    {
      if LooksLikeTransferRecord(message, p, instanceDelta) {
        OffsetsAreAll(message, instanceDelta, at, p);
        var k: nat :| k < n && offsets[k] == p;
        PlaceIsSpaced(p, at, s, n, k);
      }
      if Spaced(p, at, s, n) {
        var k := SpacedPlace(p, at, s, n);
        RecordOffsetsAreRecords(message, instanceDelta, at, k);
      }
    }
  }

  predicate ConfiguredLengthMatches(spec: EventSpec, length: nat) {
    spec.singleRecordMessageLength.None? ||
    var base := spec.singleRecordMessageLength.value;
    if spec.repeatStride.None? then length == base
    else length - base >= 0 && (length - base) % spec.repeatStride.value == 0
  }

  /** Where the last configured field of the record at `delta` ends. */
  function RequiredEnd(spec: EventSpec, delta: nat, quantityBytes: nat): nat {
    var values := Max(spec.itemOffset + delta + 4, spec.quantityOffset + delta + quantityBytes);
    var slot := if spec.inventorySlotOffset.Some? then spec.inventorySlotOffset.value + delta + 1 else 0;
    var item := if spec.itemInstanceOffset.Some? then spec.itemInstanceOffset.value + delta + 8 else 0;
    var storage := if spec.storageInstanceOffset.Some? then spec.storageInstanceOffset.value + delta + 8 else 0;
    Max(Max(values, slot), Max(item, storage))
  }

  /** Configured repetition from `delta` on, while a whole record still fits. */
  function ConfiguredDeltas(spec: EventSpec, length: nat, delta: nat): (deltas: seq<nat>)
    decreases length - delta
  {
    if RequiredEnd(spec, delta, TRANSFER_QUANTITY_BYTES) > length then []
    else if spec.repeatStride.None? then [delta]
    else [delta] + ConfiguredDeltas(spec, length, delta + spec.repeatStride.value)
  }

  datatype DecodedRecord = DecodedRecord(
    family: Family,
    opcode: nat,
    itemId: nat,
    quantity: nat,
    inventorySlot: Option<Byte>,
    sourceContext: Option<Bytes>,
    itemInstance: Option<Bytes>,
    storageInstance: Option<Bytes>,
    messageLength: nat,
    recordOffset: nat,
    recordIndex: Option<nat>,
    recordCount: Option<nat>,
    storageId: Option<nat>)

  predicate IsSnapshot(spec: EventSpec, context: Option<Bytes>) {
    spec.family == InventoryTransfer && context == Some(CHARACTER_LOAD_CONTEXT)
  }

  function QuantityBytes(spec: EventSpec, context: Option<Bytes>): nat {
    if IsSnapshot(spec, context) then SNAPSHOT_QUANTITY_BYTES else TRANSFER_QUANTITY_BYTES
  }

  function CandidateDeltas(spec: EventSpec, message: Bytes, context: Option<Bytes>): (deltas: Option<seq<nat>>) {
    if IsSnapshot(spec, context) then DeclaredInventoryDeltas(spec, message)
    else
      var structural := StructuralDeltas(spec, message);
      if structural.Some? then structural
      else if ConfiguredLengthMatches(spec, |message|) then Some(ConfiguredDeltas(spec, |message|, 0))
      else None
  }

  /** Candidates all of whose configured fields fit the message. */
  function Fitting(spec: EventSpec, length: nat, deltas: seq<nat>, quantityBytes: nat): (kept: seq<nat>)
    ensures forall i :: 0 <= i < |kept| ==> RequiredEnd(spec, kept[i], quantityBytes) <= length
  {
    if deltas == [] then []
    else
      var more := Fitting(spec, length, deltas[1..], quantityBytes);
      if RequiredEnd(spec, deltas[0], quantityBytes) <= length then [deltas[0]] + more else more
  }

  function RecordAt(spec: EventSpec, message: Bytes, context: Option<Bytes>, delta: nat, index: nat,
      count: nat): (r: DecodedRecord)
    requires RequiredEnd(spec, delta, QuantityBytes(spec, context)) <= |message|
  {
    DecodedRecord(
      spec.family, spec.opcode,
      Number(message, spec.itemOffset + delta, 4),
      Number(message, spec.quantityOffset + delta, QuantityBytes(spec, context)),
      if spec.inventorySlotOffset.Some? then Some(message[spec.inventorySlotOffset.value + delta]) else None,
      context,
      if spec.itemInstanceOffset.Some? then Some(Slice(message, spec.itemInstanceOffset.value + delta,
          spec.itemInstanceOffset.value + delta + 8)) else None,
      if spec.storageInstanceOffset.Some? then Some(Slice(message, spec.storageInstanceOffset.value + delta,
          spec.storageInstanceOffset.value + delta + 8)) else None,
      |message|,
      spec.itemOffset + delta,
      if count > 1 then Some(index) else None,
      if count > 1 then Some(count) else None,
      if spec.family == InventoryToStorage && spec.sourceContextOffset.Some? && context.Some? && |context.value| == 4
      then Some(LittleEndian(context.value)) else None)
  }

  /** Records `index`, `index + 1`, ... with implausible values left out. */
  function RecordsFrom(spec: EventSpec, message: Bytes, context: Option<Bytes>, kept: seq<nat>,
      index: nat): (records: seq<DecodedRecord>)
    requires forall i :: 0 <= i < |kept| ==> RequiredEnd(spec, kept[i], QuantityBytes(spec, context)) <= |message|
    requires index <= |kept|
    decreases |kept| - index
  {
    if index == |kept| then []
    else
      var r := RecordAt(spec, message, context, kept[index], index + 1, |kept|);
      var more := RecordsFrom(spec, message, context, kept, index + 1);
      if r.itemId <= 0 || r.itemId > MAX_PLAUSIBLE_ITEM_ID || r.quantity <= 0 then more else [r] + more
  }

  /** The whole decision for one layout: `None` when the message is not of it. */
  function Decode(spec: EventSpec, message: Bytes, context: Option<Bytes>): (records: Option<seq<DecodedRecord>>) {
    var candidates := CandidateDeltas(spec, message, context);
    if candidates.None? then None
    else
      var kept := Fitting(spec, |message|, candidates.value, QuantityBytes(spec, context));
      var records := RecordsFrom(spec, message, context, kept, 0);
      if records != [] then Some(records)
      else if IsSnapshot(spec, context) && candidates.value == [] then Some([]) else None
  }
}
