// What a decoded record says, field by field, for each way its message was read: marked transfer records,
// character-load snapshots, and configured layouts.
module DecodedFields {
  import opened Wire
  import opened RecordGeometry
  import opened Decoder
  import opened MessageDecoder
  import opened Batches

  /** The bytes at `at` of the message. */
  ghost predicate BytesAt(message: Bytes, at: nat, b: Bytes) {
    at + |b| <= |message| && message[at..at + |b|] == b
  }

  ghost predicate NumberAt(message: Bytes, at: nat, width: nat, n: nat) {
    at + width <= |message| && LittleEndian(message[at..at + width]) == n
  }

  ghost predicate InstanceAt(message: Bytes, offset: Option<nat>, delta: nat, instance: Option<Bytes>) {
    match offset
    case None => instance.None?
    case Some(at) => instance.Some? && |instance.value| == 8 && BytesAt(message, at + delta, instance.value)
  }

  /** Record `k` of `n`, `delta` bytes behind the first, says what the message has there. */
  ghost predicate ReadAt(r: DecodedRecord, spec: EventSpec, message: Bytes, context: Option<Bytes>, width: nat,
                         delta: nat, k: nat, n: nat)
  {
    && r.family == spec.family && r.opcode == spec.opcode && r.messageLength == |message| && r.sourceContext == context
    && r.recordOffset == spec.itemOffset + delta
    && NumberAt(message, spec.itemOffset + delta, 4, r.itemId)
    && NumberAt(message, spec.quantityOffset + delta, width, r.quantity)
    && InstanceAt(message, spec.itemInstanceOffset, delta, r.itemInstance)
    && InstanceAt(message, spec.storageInstanceOffset, delta, r.storageInstance)
    && (match spec.inventorySlotOffset
        case None => r.inventorySlot.None?
        case Some(at) => at + delta < |message| && r.inventorySlot == Some(message[at + delta]))
    && (if n > 1 then r.recordIndex == Some(k + 1) && r.recordCount == Some(n)
        else r.recordIndex.None? && r.recordCount.None?)
  }

  /** All fields that a layout has in a record lie inside the message. */
  predicate FitsAt(spec: EventSpec, length: nat, width: nat, delta: nat) {
    && spec.itemOffset + delta + 4 <= length && spec.quantityOffset + delta + width <= length
    && (spec.inventorySlotOffset.Some? ==> spec.inventorySlotOffset.value + delta < length)
    && (spec.itemInstanceOffset.Some? ==> spec.itemInstanceOffset.value + delta + 8 <= length)
    && (spec.storageInstanceOffset.Some? ==> spec.storageInstanceOffset.value + delta + 8 <= length)
  }

  lemma FitsIsEnd(spec: EventSpec, length: nat, width: nat, delta: nat)
    ensures FitsAt(spec, length, width, delta) <==> RequiredEnd(spec, delta, width) <= length
  {
  }

  lemma RecordIsRead(spec: EventSpec, message: Bytes, context: Option<Bytes>, delta: nat, k: nat, n: nat)
    requires RequiredEnd(spec, delta, QuantityBytes(spec, context)) <= |message|
    ensures ReadAt(RecordAt(spec, message, context, delta, k + 1, n), spec, message, context,
                QuantityBytes(spec, context), delta, k, n)
  {
    hide QuantityBytes;
    FitsIsEnd(spec, |message|, QuantityBytes(spec, context), delta);
  }

  /** Every record of the batch came out, and says what the message has at its place. */
  ghost predicate AllRead(r: Option<seq<DecodedRecord>>, spec: EventSpec, message: Bytes, context: Option<Bytes>,
                          width: nat, n: nat, s: nat)
  {
    r.Some? && |r.value| == n &&
    forall k :: 0 <= k < n ==> ReadAt(r.value[k], spec, message, context, width, Strides(s, k), k, n)
  }

  lemma CompleteIsRead(spec: EventSpec, message: Bytes, context: Option<Bytes>, n: nat, s: nat)
    requires Complete(Decode(spec, message, context), spec, message, context, StrideDeltas(s, n))
    ensures AllRead(Decode(spec, message, context), spec, message, context, QuantityBytes(spec, context), n, s)
  {
    hide Decode, RecordAt, RequiredEnd, QuantityBytes, ReadAt, Strides;
    var r := Decode(spec, message, context).value;
    forall k | 0 <= k < n
      ensures ReadAt(r[k], spec, message, context, QuantityBytes(spec, context), Strides(s, k), k, n)
    {
      assert HoldsRecord(r[k], spec, message, context, StrideDeltas(s, n)[k], k + 1, n);
      RecordIsRead(spec, message, context, Strides(s, k), k, n);
    }
  }

  /** The values of a record are an item id and a quantity. */
  ghost predicate ValuesAt(spec: EventSpec, message: Bytes, width: nat, delta: nat) {
    HasItem(message, spec.itemOffset + delta) && HasQuantity(message, spec.quantityOffset + delta, width)
  }

  ghost predicate HasItem(message: Bytes, at: nat) {
    exists item :: NumberAt(message, at, 4, item) && 0 < item <= 0x14FF_FFFF
  }

  ghost predicate HasQuantity(message: Bytes, at: nat, width: nat) {
    exists quantity :: NumberAt(message, at, width, quantity) && quantity > 0
  }

  lemma ValuesArePlausible(spec: EventSpec, message: Bytes, width: nat, delta: nat)
    ensures ValuesAt(spec, message, width, delta) <==>
            && spec.itemOffset + delta + 4 <= |message| && spec.quantityOffset + delta + width <= |message|
            && PlausibleValues(spec, message, width, delta)
  {
    hide LittleEndian;
    var item, quantity := spec.itemOffset + delta, spec.quantityOffset + delta;
    if item + 4 <= |message| && quantity + width <= |message| {
      assert NumberAt(message, item, 4, LittleEndian(message[item..item + 4]));
      assert NumberAt(message, quantity, width, LittleEndian(message[quantity..quantity + width]));
    }
  }

  /** If these are the candidates, all of them hold values, and the last one fits, all are decoded. */
  lemma CandidatesAreRead(spec: EventSpec, message: Bytes, context: Option<Bytes>, n: nat, s: nat)
    requires CandidateDeltas(spec, message, context) == Some(StrideDeltas(s, n)) && n > 0
    requires forall k :: 0 <= k < n ==> ValuesAt(spec, message, QuantityBytes(spec, context), Strides(s, k))
    requires FitsAt(spec, |message|, QuantityBytes(spec, context), Strides(s, n - 1))
    ensures AllRead(Decode(spec, message, context), spec, message, context, QuantityBytes(spec, context), n, s)
  {
    hide CandidateDeltas, QuantityBytes, Decode, RequiredEnd, Strides, PlausibleValues, ValuesAt, Complete, AllRead,
        FitsAt;
    var deltas, width := StrideDeltas(s, n), QuantityBytes(spec, context);
    forall k | 0 <= k < n
      ensures deltas[0] <= deltas[k] <= deltas[n - 1] && PlausibleValues(spec, message, width, deltas[k])
    {
      StridesGrow(s, 0, k);
      StridesGrow(s, k, n - 1);
      ValuesArePlausible(spec, message, width, Strides(s, k));
    }
    FitsIsEnd(spec, |message|, width, Strides(s, n - 1));
    ValidatedBatch(spec, message, context, deltas);
    CompleteIsRead(spec, message, context, n, s);
  }

  // Marked transfer records.

  /** A marked record as a server writes it. */
  ghost predicate MarkedAt(message: Bytes, p: nat, instanceDelta: nat, item: nat, quantity: nat, instance: Bytes) {
    && NumberAt(message, p, 4, item) && 0 < item <= 0x14FF_FFFF
    && NumberAt(message, p + 4, 4, quantity) && quantity > 0
    && BytesAt(message, p + 8, [0, 0, 0, 0, 255, 255, 255, 255, 255, 255, 255, 255])
    && |instance| == 8 && BytesAt(message, p + instanceDelta, instance)
    && instance != [0, 0, 0, 0, 0, 0, 0, 0] && instance != [255, 255, 255, 255, 255, 255, 255, 255]
  }

  /** A place looks like a transfer record if and only if one is written there. */
  lemma MarkedIsRecord(message: Bytes, p: nat, instanceDelta: nat)
    ensures LooksLikeTransferRecord(message, p, instanceDelta) <==>
            exists item, quantity, instance :: MarkedAt(message, p, instanceDelta, item, quantity, instance)
  {
    hide LittleEndian;
    MarkerBytes();
    if LooksLikeTransferRecord(message, p, instanceDelta) {
      var item, quantity := LittleEndian(message[p..p + 4]), LittleEndian(message[p + 4..p + 8]);
      assert MarkedAt(message, p, instanceDelta, item, quantity, message[p + instanceDelta..p + instanceDelta + 8]);
    }
  }

  lemma MarkerBytes()
    ensures TRANSFER_RECORD_MARKER == [0, 0, 0, 0, 255, 255, 255, 255, 255, 255, 255, 255]
    ensures Repeated(0, 8) == [0, 0, 0, 0, 0, 0, 0, 0]
    ensures Repeated(255, 8) == [255, 255, 255, 255, 255, 255, 255, 255]
  {
  }

  /** Transfer round trip: of a message whose marked records are these and no others, each is decoded with
      every field it was written with, whatever distance the layout was calibrated with. */
  lemma MarkedRoundTrip(spec: EventSpec, message: Bytes, context: Option<Bytes>, n: nat, s: nat)
    requires spec.family == InventoryTransfer && spec.itemInstanceOffset.Some?
    requires spec.quantityOffset == spec.itemOffset + 4 && spec.itemOffset + 20 <= spec.itemInstanceOffset.value
    requires Tiled(spec, message, n, s)
    requires context != Some([0, 0, 0, 0]) && FitsAt(spec, |message|, 4, Strides(s, n - 1))
    ensures AllRead(Decode(spec, message, context), spec, message, context, 4, n, s)
  {
    hide LooksLikeTransferRecord, Decode, Strides, FitsAt, ValuesAt, AllRead, StructuralDeltas, MarkedAt;
    TiledIsFound(spec, message, n, s);
    assert CHARACTER_LOAD_CONTEXT == [0, 0, 0, 0];
    var instanceDelta := StructuralInstanceOffset(spec).value - spec.itemOffset;
    forall k | 0 <= k < n ensures ValuesAt(spec, message, 4, Strides(s, k)) {
      PlaceIsSpaced(spec.itemOffset + Strides(s, k), spec.itemOffset, s, n, k);
      MarkedIsRecord(message, spec.itemOffset + Strides(s, k), instanceDelta);
      var item, quantity, instance :|
        MarkedAt(message, spec.itemOffset + Strides(s, k), instanceDelta, item, quantity, instance);
      MarkedHasValues(spec, message, Strides(s, k), instanceDelta, item, quantity, instance);
    }
    CandidatesAreRead(spec, message, context, n, s);
  }

  lemma MarkedHasValues(spec: EventSpec, message: Bytes, delta: nat, instanceDelta: nat, item: nat, quantity: nat,
                        instance: Bytes)
    requires MarkedAt(message, spec.itemOffset + delta, instanceDelta, item, quantity, instance)
    requires spec.quantityOffset == spec.itemOffset + 4
    ensures ValuesAt(spec, message, 4, delta)
  {
    hide NumberAt;
  }

  // Character-load snapshots.

  /** One item of a snapshot: an id, a quantity of eight bytes and an instance. */
  ghost predicate LoadedAt(spec: EventSpec, message: Bytes, delta: nat)
    requires spec.itemInstanceOffset.Some?
  {
    && ValuesAt(spec, message, 8, delta)
    && exists instance :: InstanceAt(message, spec.itemInstanceOffset, delta, Some(instance))
         && instance != [0, 0, 0, 0, 0, 0, 0, 0] && instance != [255, 255, 255, 255, 255, 255, 255, 255]
  }

  /** The two bytes at `at`, between header and first record, declare `n` records `s` bytes apart, which
      end with the message and hold an item each. */
  ghost predicate ColumnDeclares(spec: EventSpec, message: Bytes, at: nat, n: nat, s: nat)
    requires spec.itemInstanceOffset.Some? && spec.singleRecordMessageLength.Some?
  {
    var base := spec.singleRecordMessageLength.value;
    && 5 <= at && at + 2 <= |message| && at + 2 <= spec.itemOffset && U16(message, at) == n && n > 0
    && |message| == base + Strides(s, n - 1)
    && (if n == 1 then s == 0
        else && s > 0 && s + 5 <= base && at + 2 + s <= base
             && base - s <= spec.itemOffset && spec.itemOffset + 4 <= base
             && base - s <= spec.quantityOffset && spec.quantityOffset + 8 <= base
             && base - s <= spec.itemInstanceOffset.value && spec.itemInstanceOffset.value + 8 <= base)
    && forall k :: 0 <= k < n ==> LoadedAt(spec, message, Strides(s, k))
  }

  lemma LoadedIsPlausible(spec: EventSpec, message: Bytes, delta: nat)
    requires spec.itemInstanceOffset.Some?
    ensures LoadedAt(spec, message, delta) <==>
            PlausibleRecord(message, spec.itemOffset + delta, spec.quantityOffset + delta,
                spec.itemInstanceOffset.value + delta, 8)
  {
    hide Number, ValuesAt;
    MarkerBytes();
    ValuesArePlausible(spec, message, 8, delta);
    var at := spec.itemInstanceOffset.value + delta;
    if at + 8 <= |message| {
      assert InstanceAt(message, spec.itemInstanceOffset, delta, Some(message[at..at + 8]));
    }
  }

  lemma AllLoaded(spec: EventSpec, message: Bytes, n: nat, s: nat)
    requires spec.itemInstanceOffset.Some?
    ensures AllPlausible(spec, message, spec.itemInstanceOffset.value, StrideDeltas(s, n), 8) <==>
            forall k :: 0 <= k < n ==> LoadedAt(spec, message, Strides(s, k))
  {
    hide LoadedAt, PlausibleRecord, Strides;
    var deltas := StrideDeltas(s, n);
    forall k | 0 <= k < n
      ensures LoadedAt(spec, message, Strides(s, k)) <==>
              PlausibleRecord(message, spec.itemOffset + deltas[k], spec.quantityOffset + deltas[k],
                  spec.itemInstanceOffset.value + deltas[k], 8)
    {
      LoadedIsPlausible(spec, message, Strides(s, k));
    }
  }

  /** The geometry, solved for the number of records and their distance. */
  lemma GeometryIs(spec: EventSpec, length: nat, base: nat, instance: nat, at: nat, n: nat, s: nat)
    ensures ImpliedGeometry(spec, length, base, instance, at, n, 8) == Some(Geometry(n, s)) <==>
            && n > 0 && length == base + Strides(s, n - 1)
            && (if n == 1 then s == 0
                else && s > 0 && s + 5 <= base && at + 2 + s <= base
                     && base - s <= spec.itemOffset && spec.itemOffset + 4 <= base
                     && base - s <= spec.quantityOffset && spec.quantityOffset + 8 <= base
                     && base - s <= instance && instance + 8 <= base)
  {
    if n >= 2 {
      StrideSolvesTheTiling(length, base, n, s);
      FieldsInRecord(spec, base, s, instance);
      assert Strides(s, n - 1) == (n - 1) * s && n * s == (n - 1) * s + s;
      hide InferRepeatStride, FieldsFitRecord, RecordFields, Strides;
    }
  }

  lemma FieldsInRecord(spec: EventSpec, base: nat, s: nat, instance: nat)
    ensures FieldsFitRecord(base - s, s, RecordFields(spec, instance, 8)) <==>
            && base - s <= spec.itemOffset && spec.itemOffset + 4 <= base
            && base - s <= spec.quantityOffset && spec.quantityOffset + 8 <= base
            && base - s <= instance && instance + 8 <= base
  {
    var fields := RecordFields(spec, instance, 8);
    assert fields[0] == Field(spec.itemOffset, 4) && fields[1] == Field(spec.quantityOffset, 8);
    assert fields[2] == Field(instance, 8);
  }

  lemma ColumnIsViable(spec: EventSpec, message: Bytes, at: nat, n: nat, s: nat)
    requires spec.itemInstanceOffset.Some? && spec.singleRecordMessageLength.Some?
    ensures ColumnDeclares(spec, message, at, n, s) <==>
            5 <= at < ColumnEnd(spec, message) && ViableColumn(spec, message, at) == Some(Geometry(n, s))
  {
    hide LoadedAt, AllPlausible, ImpliedGeometry, Strides, U16;
    if at + 2 <= |message| {
      var base, instance := spec.singleRecordMessageLength.value, spec.itemInstanceOffset.value;
      GeometryIs(spec, |message|, base, instance, at, n, s);
      AllLoaded(spec, message, n, s);
      assert DeltasOf(Geometry(n, s)) == StrideDeltas(s, n);
      CountIsKept(spec, |message|, base, instance, at, U16(message, at));
    }
  }

  lemma CountIsKept(spec: EventSpec, length: nat, base: nat, instance: nat, at: nat, n: nat)
    ensures var g := ImpliedGeometry(spec, length, base, instance, at, n, 8); g.Some? ==> g.value.count == n
  {
    hide ImpliedGeometry;
  }

  lemma DeclaresIsColumn(spec: EventSpec, message: Bytes, g: Geometry)
    requires spec.itemInstanceOffset.Some? && spec.singleRecordMessageLength.Some?
    ensures Declares(spec, message, g) <==> exists at :: ColumnDeclares(spec, message, at, g.count, g.stride)
  {
    hide ColumnDeclares, ViableColumn;
    if at: nat :| ColumnDeclares(spec, message, at, g.count, g.stride) {
      ColumnIsViable(spec, message, at, g.count, g.stride);
    }
    if Declares(spec, message, g) {
      var at: nat :| 5 <= at < ColumnEnd(spec, message) && ViableColumn(spec, message, at) == Some(g);
      ColumnIsViable(spec, message, at, g.count, g.stride);
    }
  }

  /** Snapshot round trip: if some bytes before the first record declare this geometry and no others declare
      a different one, every item is decoded with every field, quantities in eight bytes. */
  lemma SnapshotRoundTrip(spec: EventSpec, message: Bytes, at: nat, n: nat, s: nat)
    requires spec.family == InventoryTransfer && spec.itemInstanceOffset.Some? && spec.singleRecordMessageLength.Some?
    requires ColumnDeclares(spec, message, at, n, s)
    requires forall p, m, t :: ColumnDeclares(spec, message, p, m, t) ==> m == n && t == s
    requires FitsAt(spec, |message|, 8, Strides(s, n - 1))
    ensures AllRead(Decode(spec, message, Some([0, 0, 0, 0])), spec, message, Some([0, 0, 0, 0]), 8, n, s)
  {
    hide ColumnDeclares, Decode, FitsAt, ValuesAt, AllRead, Strides, DeclaredInventoryDeltas, Declares;
    assert CHARACTER_LOAD_CONTEXT == [0, 0, 0, 0];
    var g := Geometry(n, s);
    DeclaresIsColumn(spec, message, g);
    forall h | Declares(spec, message, h) ensures h == g {
      DeclaresIsColumn(spec, message, h);
      var p :| ColumnDeclares(spec, message, p, h.count, h.stride);
    }
    SnapshotNeedsOneGeometry(spec, message);
    assert DeltasOf(g) == StrideDeltas(s, n);
    ColumnHasValues(spec, message, at, n, s);
    CandidatesAreRead(spec, message, Some([0, 0, 0, 0]), n, s);
  }

  lemma ColumnHasValues(spec: EventSpec, message: Bytes, at: nat, n: nat, s: nat)
    requires spec.itemInstanceOffset.Some? && spec.singleRecordMessageLength.Some?
    requires ColumnDeclares(spec, message, at, n, s)
    ensures n > 0 && forall k :: 0 <= k < n ==> ValuesAt(spec, message, 8, Strides(s, k))
  {
    hide ValuesAt, Strides;
    forall k | 0 <= k < n ensures ValuesAt(spec, message, 8, Strides(s, k)) {
      assert LoadedAt(spec, message, Strides(s, k));
    }
  }

  // Layouts that are only configured.

  /** The lengths that a layout with a single-record length and perhaps a stride admits. */
  lemma LengthIsConfigured(spec: EventSpec, length: nat)
    ensures ConfiguredLengthMatches(spec, length) <==>
            match spec.singleRecordMessageLength
            case None => true
            case Some(base) =>
              if spec.repeatStride.None? then length == base
              else exists k: nat :: length == base + Strides(spec.repeatStride.value, k)
  {
    if spec.singleRecordMessageLength.Some? && spec.repeatStride.Some? {
      var base, stride := spec.singleRecordMessageLength.value, spec.repeatStride.value;
      if k: nat :| length == base + Strides(stride, k) {
        QuotientIsUnique(length - base, stride, k);
      }
      if length >= base && (length - base) % stride == 0 {
        assert length == base + Strides(stride, (length - base) / stride);
      }
    }
  }

  /** The configured places of a message, as far as whole records fit. */
  lemma {:induction false} ConfiguredPlaces(spec: EventSpec, length: nat, n: nat, s: nat, from: nat)
    requires spec.repeatStride == Some(s) && from <= n
    requires forall k :: from <= k <= n ==> (FitsAt(spec, length, 4, Strides(s, k)) <==> k < n)
    ensures ConfiguredDeltas(spec, length, Strides(s, from)) ==
            seq(n - from, (k: nat) requires k < n - from => Strides(s, from + k))
    decreases n - from
  {
    hide FitsAt, RequiredEnd, Strides;
    FitsIsEnd(spec, length, 4, Strides(s, from));
    NextStride(s, from);
    if from < n {
      ConfiguredPlaces(spec, length, n, s, from + 1);
      var rest := seq(n - from - 1, (k: nat) requires k < n - from - 1 => Strides(s, from + 1 + k));
      assert seq(n - from, (k: nat) requires k < n - from => Strides(s, from + k)) == [Strides(s, from)] + rest;
    }
  }

  /** A layout without any structure to search is read at its configured places: one record, or records one
      stride apart as long as they fit. */
  lemma ConfiguredRoundTrip(spec: EventSpec, message: Bytes, context: Option<Bytes>, n: nat, s: nat)
    requires spec.family.OtherFamily? && n > 0 && ConfiguredLengthMatches(spec, |message|)
    requires if spec.repeatStride.None? then n == 1 && s == 0 else spec.repeatStride == Some(s)
    requires forall k :: 0 <= k < n ==> FitsAt(spec, |message|, 4, Strides(s, k))
    requires spec.repeatStride.Some? ==> !FitsAt(spec, |message|, 4, Strides(s, n))
    requires forall k :: 0 <= k < n ==> ValuesAt(spec, message, 4, Strides(s, k))
    ensures AllRead(Decode(spec, message, context), spec, message, context, 4, n, s)
  {
    hide FitsAt, RequiredEnd, Strides, ValuesAt, AllRead, Decode, ConfiguredLengthMatches;
    NextStride(s, 0);
    if spec.repeatStride.Some? {
      ConfiguredPlaces(spec, |message|, n, s, 0);
      assert ConfiguredDeltas(spec, |message|, 0) == StrideDeltas(s, n);
    } else {
      FitsIsEnd(spec, |message|, 4, 0);
      assert StrideDeltas(0, 1) == [0];
    }
    CandidatesAreRead(spec, message, context, n, s);
  }
}
