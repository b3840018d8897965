// Storage batches written record by record are read back exactly.
module BatchRoundTrip {
  import opened Wire
  import opened RecordGeometry
  import opened Decoder
  import opened MessageDecoder
  import opened Batches

  datatype StoredItem = StoredItem(item: nat, quantity: nat, instance: Bytes)

  predicate Storable(s: StoredItem) {
    && 0 < s.item <= MAX_PLAUSIBLE_ITEM_ID && 0 < s.quantity < 0x1_0000_0000
    && |s.instance| == 8 && PlausibleInstance(s.instance)
  }

  /** The record carries the item's fields where the calibrated first record has them. */
  predicate RecordHolds(spec: EventSpec, prefix: nat, record: Bytes, s: StoredItem)
    requires spec.storageInstanceOffset.Some?
    requires prefix <= spec.itemOffset && prefix <= spec.quantityOffset && prefix <= spec.storageInstanceOffset.value
  {
    && OccursAt(record, Encoded(s.item, 4), spec.itemOffset - prefix)
    && OccursAt(record, Encoded(s.quantity, 4), spec.quantityOffset - prefix)
    && OccursAt(record, s.instance, spec.storageInstanceOffset.value - prefix)
  }

  /** A storage wrapper: a prefix declaring the count, then equally long records. */
  ghost predicate Wrapper(spec: EventSpec, prefix: Bytes, records: seq<Bytes>, stride: nat, items: seq<StoredItem>) {
    && spec.family == InventoryToStorage && spec.inventorySlotOffset.None? && spec.itemInstanceOffset.None?
    && spec.storageInstanceOffset.Some? && spec.recordCountOffset.Some?
    && spec.singleRecordMessageLength == Some(|prefix| + stride)
    && |prefix| <= spec.itemOffset && |prefix| <= spec.quantityOffset && |prefix| <= spec.storageInstanceOffset.value
    && 5 <= spec.recordCountOffset.value && OccursAt(prefix, Encoded(|records|, 2), spec.recordCountOffset.value)
    && 0 < |records| == |items| <= 0xFFFF && EqualParts(records, stride)
    && forall k :: 0 <= k < |records| ==> Storable(items[k]) && RecordHolds(spec, |prefix|, records[k], items[k])
  }

  ghost predicate EqualParts(records: seq<Bytes>, stride: nat) {
    forall j :: 0 <= j < |records| ==> |records[j]| == stride
  }

  /** Equal parts lie one stride apart. */
  lemma {:induction false} PartsLieOneStrideApart(records: seq<Bytes>, stride: nat, k: nat)
    requires k < |records| && EqualParts(records, stride)
    ensures Strides(stride, k) + stride <= |Flatten(records)|
    ensures Flatten(records)[Strides(stride, k)..Strides(stride, k) + stride] == records[k]
  {
    hide Strides;
    var rest := Flatten(records[1..]);
    assert Flatten(records) == records[0] + rest;
    NextStride(stride, 0);
    if k > 0 {
      PartsLieOneStrideApart(records[1..], stride, k - 1);
      NextStride(stride, k - 1);
      var at := Strides(stride, k - 1);
      assert Flatten(records)[stride + at..stride + at + stride] == rest[at..at + stride];
    }
  }

  lemma {:induction false} FlattenLength(records: seq<Bytes>, stride: nat)
    requires EqualParts(records, stride)
    ensures |Flatten(records)| == Strides(stride, |records|)
  {
    hide Strides;
    NextStride(stride, 0);
    if records != [] {
      FlattenLength(records[1..], stride);
      NextStride(stride, |records| - 1);
    }
  }

  /** A field inside record `k` is found in the message at its first-record offset plus `k` strides. */
  lemma FieldInRecord(prefix: Bytes, records: seq<Bytes>, stride: nat, k: nat, at: nat, field: Bytes)
    requires k < |records| && EqualParts(records, stride)
    requires |prefix| <= at && OccursAt(records[k], field, at - |prefix|)
    ensures OccursAt(prefix + Flatten(records), field, at + Strides(stride, k))
  {
    hide Strides, OccursAt, Flatten;
    PartsLieOneStrideApart(records, stride, k);
    FieldInPart(prefix, Flatten(records), Strides(stride, k), stride, at, field);
  }

  lemma FieldInPart(prefix: Bytes, body: Bytes, from: nat, stride: nat, at: nat, field: Bytes)
    requires from + stride <= |body| && |prefix| <= at && OccursAt(body[from..from + stride], field, at - |prefix|)
    ensures OccursAt(prefix + body, field, at + from)
  {
    var rel, part := at - |prefix|, body[from..from + stride];
    var n := |field|;
    SliceOfSlice(body, from, stride, rel, n);
    SliceOfSuffix(prefix, body, from + rel, n);
  }

  lemma SliceOfSlice(body: Bytes, from: nat, stride: nat, rel: nat, n: nat)
    requires from + stride <= |body| && rel + n <= stride
    ensures body[from..from + stride][rel..rel + n] == body[from + rel..from + rel + n]
  {
    var part, field := body[from..from + stride][rel..rel + n], body[from + rel..from + rel + n];
    assert forall i :: 0 <= i < n ==> part[i] == field[i];
  }

  lemma SliceOfSuffix(prefix: Bytes, body: Bytes, from: nat, n: nat)
    requires from + n <= |body|
    ensures (prefix + body)[|prefix| + from..|prefix| + from + n] == body[from..from + n]
  {
  }

  lemma ReadField(message: Bytes, n: nat, width: nat, at: nat)
    requires OccursAt(message, Encoded(n, width), at) && n < Power256(width)
    ensures Number(message, at, width) == n && at + width <= |message|
  {
    DecodeEncoded(n, width);
  }

  lemma Powers()
    ensures Power256(2) == 0x1_0000 && Power256(4) == 0x1_0000_0000
  {
    assert Power256(0) == 1 && Power256(1) == 0x100 && Power256(2) == 0x1_0000 && Power256(3) == 0x100_0000;
  }

  /** At `delta` from the first record the message reads as the item. */
  ghost predicate ReadsAs(message: Bytes, s: StoredItem, item: nat, quantity: nat, instance: nat, delta: nat) {
    && Number(message, item + delta, 4) == s.item && Number(message, quantity + delta, 4) == s.quantity
    && Slice(message, instance + delta, instance + delta + 8) == s.instance
    && PlausibleRecord(message, item + delta, quantity + delta, instance + delta, 4)
  }

  /** What is read back from record `k`. */
  lemma RecordReads(spec: EventSpec, prefix: Bytes, records: seq<Bytes>, stride: nat, items: seq<StoredItem>, k: nat)
    requires Wrapper(spec, prefix, records, stride, items) && k < |records|
    ensures ReadsAs(prefix + Flatten(records), items[k], spec.itemOffset, spec.quantityOffset,
        spec.storageInstanceOffset.value, Strides(stride, k))
  {
    hide ReadsAs;
    hide EqualParts, OccursAt, Storable, Number, Slice, Flatten, Strides, PlausibleRecord, Encoded,
        PlausibleInstance;
    var s := items[k];
    assert Storable(s) && RecordHolds(spec, |prefix|, records[k], s);
    hide Wrapper;
    FieldsAreRead(prefix, records, stride, k, s, spec.itemOffset, spec.quantityOffset,
        spec.storageInstanceOffset.value);
  }

  lemma FieldsAreRead(prefix: Bytes, records: seq<Bytes>, stride: nat, k: nat, s: StoredItem, item: nat,
      quantity: nat, instance: nat)
    requires k < |records| && EqualParts(records, stride) && Storable(s)
    requires |prefix| <= item && OccursAt(records[k], Encoded(s.item, 4), item - |prefix|)
    requires |prefix| <= quantity && OccursAt(records[k], Encoded(s.quantity, 4), quantity - |prefix|)
    requires |prefix| <= instance && OccursAt(records[k], s.instance, instance - |prefix|)
    ensures ReadsAs(prefix + Flatten(records), s, item, quantity, instance, Strides(stride, k))
  {
    var message, delta := prefix + Flatten(records), Strides(stride, k);
    hide Strides, LittleEndian, Encoded, PlausibleInstance, Flatten, Number, PlausibleRecord, EqualParts,
        OccursAt;
    FieldInRecord(prefix, records, stride, k, item, Encoded(s.item, 4));
    FieldInRecord(prefix, records, stride, k, quantity, Encoded(s.quantity, 4));
    FieldInRecord(prefix, records, stride, k, instance, s.instance);
    Powers();
    ReadField(message, s.item, 4, item + delta);
    ReadField(message, s.quantity, 4, quantity + delta);
    ReadIsPlausible(message, s, item + delta, quantity + delta, instance + delta);
  }

  lemma ReadIsPlausible(message: Bytes, s: StoredItem, item: nat, quantity: nat, instance: nat)
    requires Storable(s) && OccursAt(message, s.instance, instance)
    requires item + 4 <= |message| && quantity + 4 <= |message|
    requires Number(message, item, 4) == s.item && Number(message, quantity, 4) == s.quantity
    ensures PlausibleRecord(message, item, quantity, instance, 4)
    ensures Slice(message, instance, instance + 8) == s.instance
  {
    hide Number, PlausibleInstance;
    assert Slice(message, instance, instance + 8) == message[instance..instance + |s.instance|];
  }

  /** The wrapper's declared geometry is found: its count and its stride. */
  lemma WrapperGeometry(spec: EventSpec, prefix: Bytes, records: seq<Bytes>, stride: nat, items: seq<StoredItem>)
    requires Wrapper(spec, prefix, records, stride, items)
    ensures var message, at, n := prefix + Flatten(records), spec.recordCountOffset.value, |records|;
            && at + 2 <= Min(spec.itemOffset, |message|) && U16(message, at) == n
            && ImpliedGeometry(spec, |message|, |prefix| + stride, spec.storageInstanceOffset.value, at, n, 4)
               == Some(Geometry(n, if n == 1 then 0 else stride))
  {
    var message, at, n := prefix + Flatten(records), spec.recordCountOffset.value, |records|;
    FlattenLength(records, stride);
    CountIsRead(spec, prefix, records, stride, items);
    FirstRecordFits(spec, prefix, records, stride, items);
    hide Wrapper, RecordHolds, Flatten, U16;
    GeometryOfTiling(spec, |prefix|, stride, spec.storageInstanceOffset.value, at, n);
  }

  lemma GeometryOfTiling(spec: EventSpec, prefix: nat, stride: nat, instance: nat, at: nat, n: nat)
    requires n > 0 && stride > 0 && prefix >= 5 && at + 2 <= prefix
    requires FieldsFitRecord(prefix, stride, RecordFields(spec, instance, 4))
    ensures ImpliedGeometry(spec, prefix + Strides(stride, n), prefix + stride, instance, at, n, 4)
            == Some(Geometry(n, if n == 1 then 0 else stride))
  {
    hide FieldsFitRecord, RecordFields;
    assert n * stride == stride + (n - 1) * stride;
    StrideSolvesTheTiling(prefix + Strides(stride, n), prefix + stride, n, stride);
    hide InferRepeatStride;
  }

  lemma FirstRecordFits(spec: EventSpec, prefix: Bytes, records: seq<Bytes>, stride: nat, items: seq<StoredItem>)
    requires Wrapper(spec, prefix, records, stride, items)
    ensures stride >= 8 && |prefix| >= 5 && |prefix| <= spec.itemOffset
    ensures FieldsFitRecord(|prefix|, stride, RecordFields(spec, spec.storageInstanceOffset.value, 4))
  {
    assert RecordHolds(spec, |prefix|, records[0], items[0]) && Storable(items[0]);
  }

  lemma CountIsRead(spec: EventSpec, prefix: Bytes, records: seq<Bytes>, stride: nat, items: seq<StoredItem>)
    requires Wrapper(spec, prefix, records, stride, items)
    ensures var message, at := prefix + Flatten(records), spec.recordCountOffset.value;
            at + 2 <= |prefix| && U16(message, at) == |records|
  {
    hide Flatten, Encoded, LittleEndian, RecordHolds, Storable, EqualParts, Power256;
    var message, at := prefix + Flatten(records), spec.recordCountOffset.value;
    Powers();
    DecodeEncoded(|records|, 2);
    LittleEndianOfTwo(message, at);
    assert message[at..at + 2] == prefix[at..at + 2];
  }

  /** Storage round trip: whatever items are written, record by record, come back in order with
      their item, quantity and instance, each knowing its place in the batch. */
  lemma StorageRoundTrip(spec: EventSpec, prefix: Bytes, records: seq<Bytes>, stride: nat, items: seq<StoredItem>,
      context: Option<Bytes>)
    requires Wrapper(spec, prefix, records, stride, items)
    ensures var r, n := Decode(spec, prefix + Flatten(records), context), |records|;
            && r.Some? && |r.value| == n
            && forall k :: 0 <= k < n ==>
                 && RoundTrips(r.value[k], spec, items[k], Strides(stride, k), k, n)
                 && FromMessage(r.value[k], spec, prefix + Flatten(records), context)
  {
    hide Decode, Flatten, Strides, DeltasOf, Number, Slice, RequiredEnd, RecordAt, Storable, RecordHolds,
        EqualParts;
    var message, n := prefix + Flatten(records), |records|;
    var g := Geometry(n, if n == 1 then 0 else stride);
    WrapperDecodes(spec, prefix, records, stride, items, context, g);
    forall k | 0 <= k < n
      ensures RoundTrips(Decode(spec, message, context).value[k], spec, items[k], Strides(stride, k), k, n)
      ensures FromMessage(Decode(spec, message, context).value[k], spec, message, context)
    {
      RecordReads(spec, prefix, records, stride, items, k);
      DeltaIsStrides(stride, n, k);
      RecordAtReads(spec, message, context, DeltasOf(g)[k], k + 1, n);
    }
  }

  /** Record `k` of `n` came back with what was written, where it was written. */
  ghost predicate RoundTrips(r: DecodedRecord, spec: EventSpec, s: StoredItem, delta: nat, k: nat, n: nat) {
    && r.itemId == s.item && r.quantity == s.quantity && r.storageInstance == Some(s.instance)
    && r.recordOffset == spec.itemOffset + delta
    && (if n > 1 then r.recordIndex == Some(k + 1) && r.recordCount == Some(n)
        else r.recordIndex.None? && r.recordCount.None?)
  }

  /** What all records of a storage wrapper have in common: layout, length and destination. */
  ghost predicate FromMessage(r: DecodedRecord, spec: EventSpec, message: Bytes, context: Option<Bytes>) {
    && r.family == InventoryToStorage && r.opcode == spec.opcode && r.messageLength == |message|
    && r.inventorySlot.None? && r.itemInstance.None? && r.sourceContext == context
    && r.storageId == if spec.sourceContextOffset.Some? && context.Some? && |context.value| == 4
                      then Some(LittleEndian(context.value)) else None
  }

  lemma RecordAtReads(spec: EventSpec, message: Bytes, context: Option<Bytes>, delta: nat, index: nat, count: nat)
    requires spec.family == InventoryToStorage && spec.storageInstanceOffset.Some?
    requires RequiredEnd(spec, delta, 4) <= |message|
    ensures RequiredEnd(spec, delta, QuantityBytes(spec, context)) <= |message|
    ensures var r := RecordAt(spec, message, context, delta, index, count);
            && r.itemId == Number(message, spec.itemOffset + delta, 4)
            && r.quantity == Number(message, spec.quantityOffset + delta, 4)
            && r.storageInstance == Some(Slice(message, spec.storageInstanceOffset.value + delta,
                spec.storageInstanceOffset.value + delta + 8))
            && r.recordOffset == spec.itemOffset + delta
            && (if count > 1 then r.recordIndex == Some(index) && r.recordCount == Some(count)
                else r.recordIndex.None? && r.recordCount.None?)
            && (spec.inventorySlotOffset.None? && spec.itemInstanceOffset.None? ==>
                  FromMessage(r, spec, message, context))
  {
  }

  lemma DeltaIsStrides(stride: nat, n: nat, k: nat)
    requires k < n
    ensures DeltasOf(Geometry(n, if n == 1 then 0 else stride))[k] == Strides(stride, k)
  {
    NextStride(stride, 0);
    NextStride(0, 0);
  }

  lemma WrapperDecodes(spec: EventSpec, prefix: Bytes, records: seq<Bytes>, stride: nat, items: seq<StoredItem>,
      context: Option<Bytes>, g: Geometry)
    requires Wrapper(spec, prefix, records, stride, items)
    requires g == Geometry(|records|, if |records| == 1 then 0 else stride)
    ensures var message := prefix + Flatten(records);
            Complete(Decode(spec, message, context), spec, message, context, DeltasOf(g))
  {
    var message := prefix + Flatten(records);
    hide AllPlausible, DeltasOf, Flatten, RequiredEnd, Decode, RecordAt, Complete, SoundBatch;
    WrapperIsDeclared(spec, prefix, records, stride, items, context, g);
    DeclaredIsSound(spec, message, spec.storageInstanceOffset.value, g, 4);
    ValidatedFieldsFit(spec, message, spec.storageInstanceOffset.value, g, 4);
    hide CandidateDeltas, Wrapper;
    ValidatedBatch(spec, message, context, DeltasOf(g));
  }

  lemma WrapperIsDeclared(spec: EventSpec, prefix: Bytes, records: seq<Bytes>, stride: nat, items: seq<StoredItem>,
      context: Option<Bytes>, g: Geometry)
    requires Wrapper(spec, prefix, records, stride, items)
    requires g == Geometry(|records|, if |records| == 1 then 0 else stride)
    ensures CandidateDeltas(spec, prefix + Flatten(records), context) == Some(DeltasOf(g))
    ensures AllPlausible(spec, prefix + Flatten(records), spec.storageInstanceOffset.value, DeltasOf(g), 4)
  {
    hide AllPlausible, DeltasOf, ImpliedGeometry, U16, Flatten, EqualParts, RecordHolds, Storable, OccursAt,
        Encoded;
    WrapperGeometry(spec, prefix, records, stride, items);
    WrapperValidates(spec, prefix, records, stride, items, g);
    hide CandidateDeltas, DeclaredStorageDeltas;
    DeclaredFromFacts(spec, prefix + Flatten(records), context, |prefix| + stride, g);
  }

  lemma DeclaredFromFacts(spec: EventSpec, message: Bytes, context: Option<Bytes>, base: nat, g: Geometry)
    requires spec.family == InventoryToStorage && spec.storageInstanceOffset.Some? && spec.recordCountOffset.Some?
    requires spec.singleRecordMessageLength == Some(base)
    requires 5 <= spec.recordCountOffset.value && spec.recordCountOffset.value + 2 <= Min(spec.itemOffset, |message|)
    requires ImpliedGeometry(spec, |message|, base, spec.storageInstanceOffset.value, spec.recordCountOffset.value,
                             U16(message, spec.recordCountOffset.value), 4) == Some(g)
    requires AllPlausible(spec, message, spec.storageInstanceOffset.value, DeltasOf(g), 4)
    ensures CandidateDeltas(spec, message, context) == Some(DeltasOf(g))
  {
    hide AllPlausible, DeltasOf, ImpliedGeometry, U16;
  }

  lemma WrapperValidates(spec: EventSpec, prefix: Bytes, records: seq<Bytes>, stride: nat, items: seq<StoredItem>,
      g: Geometry)
    requires Wrapper(spec, prefix, records, stride, items)
    requires spec.storageInstanceOffset.Some? && |records| > 0
    requires g == Geometry(|records|, if |records| == 1 then 0 else stride)
    ensures AllPlausible(spec, prefix + Flatten(records), spec.storageInstanceOffset.value, DeltasOf(g), 4)
  {
    var message, n := prefix + Flatten(records), |records|;
    hide PlausibleRecord, Strides, DeltasOf, Wrapper, Number, Slice, Flatten;
    forall i | 0 <= i < n
      ensures PlausibleRecord(message, spec.itemOffset + DeltasOf(g)[i], spec.quantityOffset + DeltasOf(g)[i],
          spec.storageInstanceOffset.value + DeltasOf(g)[i], 4)
    {
      RecordReads(spec, prefix, records, stride, items, i);
      DeltaIsStrides(stride, n, i);
    }
  }
}
