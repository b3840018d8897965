// Declared batches decode all or nothing, and exactly when they do not.
module Batches {
  import opened Wire
  import opened RecordGeometry
  import opened Decoder
  import opened MessageDecoder
  import opened Specs

  lemma {:induction false} FittingKeepsAll(spec: EventSpec, length: nat, deltas: seq<nat>, q: nat)
    requires forall i :: 0 <= i < |deltas| ==> RequiredEnd(spec, deltas[i], q) <= length
    ensures Fitting(spec, length, deltas, q) == deltas
  {
    if deltas != [] {
      FittingKeepsAll(spec, length, deltas[1..], q);
    }
  }

  lemma {:induction false} FittingKeepsSome(spec: EventSpec, length: nat, deltas: seq<nat>, q: nat, i: nat)
    requires i < |deltas|
    ensures RequiredEnd(spec, deltas[i], q) <= length ==> deltas[i] in Fitting(spec, length, deltas, q)
    ensures RequiredEnd(spec, deltas[i], q) > length ==> |Fitting(spec, length, deltas, q)| < |deltas|
  {
    FittingIsPart(spec, length, deltas[1..], q);
    if i > 0 {
      FittingKeepsSome(spec, length, deltas[1..], q, i - 1);
    }
  }

  lemma {:induction false} FittingIsPart(spec: EventSpec, length: nat, deltas: seq<nat>, q: nat)
    ensures |Fitting(spec, length, deltas, q)| <= |deltas|
    ensures forall k :: k in Fitting(spec, length, deltas, q) ==> k in deltas
  {
    if deltas != [] {
      FittingIsPart(spec, length, deltas[1..], q);
    }
  }

  predicate PlausibleValues(spec: EventSpec, message: Bytes, q: nat, delta: nat) {
    0 < Number(message, spec.itemOffset + delta, 4) <= MAX_PLAUSIBLE_ITEM_ID
    && Number(message, spec.quantityOffset + delta, q) > 0
  }

  /** Plausible records are all kept, numbered from one. */
  lemma {:induction false} RecordsAreAllKept(spec: EventSpec, message: Bytes, context: Option<Bytes>, kept: seq<nat>,
      index: nat)
    requires forall i :: 0 <= i < |kept| ==> RequiredEnd(spec, kept[i], QuantityBytes(spec, context)) <= |message|
    requires forall i :: 0 <= i < |kept| ==> PlausibleValues(spec, message, QuantityBytes(spec, context), kept[i])
    requires index <= |kept|
    ensures var records := RecordsFrom(spec, message, context, kept, index);
            && |records| == |kept| - index
            && forall k :: index <= k < |kept| ==>
                 records[k - index] == RecordAt(spec, message, context, kept[k], k + 1, |kept|)
    decreases |kept| - index
  {
    hide RequiredEnd, Number;
    if index < |kept| {
      RecordsAreAllKept(spec, message, context, kept, index + 1);
      assert PlausibleValues(spec, message, QuantityBytes(spec, context), kept[index]);
    }
  }

  /** Candidates in ascending order, each with plausible values. */
  ghost predicate SoundBatch(spec: EventSpec, message: Bytes, q: nat, deltas: seq<nat>) {
    && deltas != []
    && (forall i :: 0 <= i < |deltas| ==> deltas[0] <= deltas[i] <= deltas[|deltas| - 1])
    && (forall i :: 0 <= i < |deltas| ==> PlausibleValues(spec, message, q, deltas[i]))
  }

  /** Record `k` of the result is what the message holds at `deltas[k]`, for every `k`. */
  ghost predicate Complete(r: Option<seq<DecodedRecord>>, spec: EventSpec, message: Bytes, context: Option<Bytes>,
      deltas: seq<nat>) {
    r.Some? && |r.value| == |deltas| && forall k :: 0 <= k < |deltas| ==>
      HoldsRecord(r.value[k], spec, message, context,
        deltas[k], k + 1, |deltas|)
  }

  predicate HoldsRecord(r: DecodedRecord, spec: EventSpec, message: Bytes, context: Option<Bytes>, delta: nat,
      index: nat, count: nat) {
    && RequiredEnd(spec, delta, QuantityBytes(spec, context)) <= |message|
    && r == RecordAt(spec, message, context, delta, index, count)
  }

  ghost predicate BatchOutcome(r: Option<seq<DecodedRecord>>, spec: EventSpec, message: Bytes, context: Option<Bytes>,
      deltas: seq<nat>)
    requires deltas != []
  {
    var q, n := QuantityBytes(spec, context), |deltas|;
    && (RequiredEnd(spec, deltas[0], q) > |message| ==> r.None?)
    && (RequiredEnd(spec, deltas[n - 1], q) <= |message| ==> Complete(r, spec, message, context, deltas))
    && (RequiredEnd(spec, deltas[0], q) <= |message| < RequiredEnd(spec, deltas[n - 1], q) ==>
          r.Some? && 0 < |r.value| < n)
  }

  /** A validated batch decodes completely when the configured fields of its last record fit the
      message, not at all when those of its first do not, and partially otherwise. */
  lemma ValidatedBatch(spec: EventSpec, message: Bytes, context: Option<Bytes>, deltas: seq<nat>)
    requires CandidateDeltas(spec, message, context) == Some(deltas)
    requires SoundBatch(spec, message, QuantityBytes(spec, context), deltas)
    ensures BatchOutcome(Decode(spec, message, context), spec, message, context, deltas)
  {
    var q := QuantityBytes(spec, context);
    var kept := Fitting(spec, |message|, deltas, q);
    hide CandidateDeltas, RequiredEnd, PlausibleValues, RecordAt, Fitting, QuantityBytes, HoldsRecord, Number;
    KeptOfBatch(spec, |message|, message, deltas, q);
    hide SoundBatch;
    DecodeKeepsAll(spec, message, context, deltas, kept);
  }

  lemma DecodeKeepsAll(spec: EventSpec, message: Bytes, context: Option<Bytes>, deltas: seq<nat>, kept: seq<nat>)
    requires CandidateDeltas(spec, message, context) == Some(deltas) && deltas != []
    requires kept == Fitting(spec, |message|, deltas, QuantityBytes(spec, context))
    requires forall i :: 0 <= i < |kept| ==> PlausibleValues(spec, message, QuantityBytes(spec, context), kept[i])
    ensures if kept == [] then Decode(spec, message, context).None? else Complete(Decode(spec, message, context), spec,
        message, context, kept)
  {
    hide CandidateDeltas, RequiredEnd, PlausibleValues, RecordAt, Fitting, QuantityBytes, Number;
    RecordsAreAllKept(spec, message, context, kept, 0);
  }

  /** What of a sound batch fits: everything, something or nothing. */
  lemma KeptOfBatch(spec: EventSpec, length: nat, message: Bytes, deltas: seq<nat>, q: nat)
    requires SoundBatch(spec, message, q, deltas)
    ensures var kept, n := Fitting(spec, length, deltas, q), |deltas|;
            && (forall i :: 0 <= i < |kept| ==> PlausibleValues(spec, message, q, kept[i]))
            && (RequiredEnd(spec, deltas[0], q) > length ==> kept == [])
            && (RequiredEnd(spec, deltas[n - 1], q) <= length ==> kept == deltas)
            && (RequiredEnd(spec, deltas[0], q) <= length < RequiredEnd(spec, deltas[n - 1], q) ==> 0 < |kept| < n)
  {
    hide RequiredEnd, PlausibleValues;
    var kept, n := Fitting(spec, length, deltas, q), |deltas|;
    FittingIsPart(spec, length, deltas, q);
    forall i | 0 <= i < |kept| ensures PlausibleValues(spec, message, q, kept[i]) {
      assert kept[i] in deltas;
    }
    FittingKeepsSome(spec, length, deltas, q, n - 1);
    FittingKeepsSome(spec, length, deltas, q, 0);
    hide Fitting;
    if RequiredEnd(spec, deltas[n - 1], q) <= length {
      forall i | 0 <= i < n ensures RequiredEnd(spec, deltas[i], q) <= length {
        EndsGrow(spec, deltas[i], deltas[n - 1], q);
      }
      FittingKeepsAll(spec, length, deltas, q);
    }
    if kept != [] {
      assert kept[0] in deltas;
      var i :| 0 <= i < n && deltas[i] == kept[0];
      EndsGrow(spec, deltas[0], deltas[i], q);
      EndsGrow(spec, deltas[i], deltas[n - 1], q);
    }
  }

  lemma EndsGrow(spec: EventSpec, d: nat, e: nat, q: nat)
    requires d <= e
    ensures RequiredEnd(spec, d, q) <= RequiredEnd(spec, e, q)
  {
  }

  lemma DeclaredRecord(spec: EventSpec, message: Bytes, instance: nat, g: Geometry, q: nat, k: nat)
    requires k < g.count && AllPlausible(spec, message, instance, DeltasOf(g), q)
    ensures var deltas := DeltasOf(g);
            && deltas[0] <= deltas[k] <= deltas[g.count - 1]
            && PlausibleRecord(message, spec.itemOffset + deltas[k], spec.quantityOffset + deltas[k],
                   instance + deltas[k], q)
            && PlausibleValues(spec, message, q, deltas[k])
  {
    hide Number, PlausibleInstance, Slice, Strides;
    StridesGrow(g.stride, 0, k);
    StridesGrow(g.stride, k, g.count - 1);
  }

  lemma DeclaredIsSound(spec: EventSpec, message: Bytes, instance: nat, g: Geometry, q: nat)
    requires g.count > 0 && AllPlausible(spec, message, instance, DeltasOf(g), q)
    ensures SoundBatch(spec, message, q, DeltasOf(g))
  {
    hide AllPlausible, PlausibleRecord, PlausibleValues, DeltasOf;
    forall i | 0 <= i < g.count
      ensures DeltasOf(g)[0] <= DeltasOf(g)[i] <= DeltasOf(g)[g.count - 1]
      ensures PlausibleValues(spec, message, q, DeltasOf(g)[i])
    {
      DeclaredRecord(spec, message, instance, g, q, i);
    }
  }

  /** Validated fields never run over the message, so only the unvalidated ones can. */
  lemma ValidatedFieldsFit(spec: EventSpec, message: Bytes, instance: nat, g: Geometry, q: nat)
    requires g.count > 0 && AllPlausible(spec, message, instance, DeltasOf(g), q)
    requires spec.inventorySlotOffset.None?
    requires spec.itemInstanceOffset.None? || spec.itemInstanceOffset.value == instance
    requires spec.storageInstanceOffset.None? || spec.storageInstanceOffset.value == instance
    ensures RequiredEnd(spec, DeltasOf(g)[g.count - 1], q) <= |message|
  {
    hide AllPlausible, Number, PlausibleInstance, Slice, DeltasOf, PlausibleValues, RequiredEnd;
    DeclaredRecord(spec, message, instance, g, q, g.count - 1);
    EndsInside(spec, instance, DeltasOf(g)[g.count - 1], q, |message|);
  }

  lemma EndsInside(spec: EventSpec, instance: nat, delta: nat, q: nat, length: nat)
    requires spec.itemOffset + delta + 4 <= length && spec.quantityOffset + delta + q <= length
    requires instance + delta + 8 <= length
    requires spec.inventorySlotOffset.None?
    requires spec.itemInstanceOffset.None? || spec.itemInstanceOffset.value == instance
    requires spec.storageInstanceOffset.None? || spec.storageInstanceOffset.value == instance
    ensures RequiredEnd(spec, delta, q) <= length
  {
  }

  /** Nor does anything else if the layout is one the toolkit builds: what fits the first record then
      fits the last. */
  lemma BuiltFieldsFit(spec: EventSpec, message: Bytes, base: nat, instance: nat, at: nat, g: Geometry, q: nat)
    requires Built(spec) && spec.singleRecordMessageLength == Some(base)
    requires ImpliedGeometry(spec, |message|, base, instance, at, g.count, q) == Some(g)
    requires AllPlausible(spec, message, instance, DeltasOf(g), q)
    ensures RequiredEnd(spec, DeltasOf(g)[g.count - 1], q) <= |message|
  {
    hide AllPlausible, Number, PlausibleInstance, Slice, DeltasOf, PlausibleValues;
    DeclaredRecord(spec, message, instance, g, q, g.count - 1);
    LastBegins(spec, |message|, base, instance, at, g, q);
  }

  /** The last record ends with the message. */
  lemma LastBegins(spec: EventSpec, length: nat, base: nat, instance: nat, at: nat, g: Geometry, q: nat)
    requires ImpliedGeometry(spec, length, base, instance, at, g.count, q) == Some(g)
    ensures length == base + DeltasOf(g)[g.count - 1]
  {
    hide FieldsFitRecord, InferRepeatStride, Strides;
    assert DeltasOf(g)[g.count - 1] == Strides(g.stride, g.count - 1);
    StridesAre(g.stride, g.count - 1);
    if g.count >= 2 {
      StrideSolvesTheTiling(length, base, g.count, g.stride);
    }
  }

  lemma StridesAre(stride: nat, k: nat)
    ensures Strides(stride, k) == k * stride
  {
  }

  /** No event, or exactly one for each declared record. */
  ghost predicate AllOrNothing(r: Option<seq<DecodedRecord>>, count: nat) {
    r.None? || |r.value| == count
  }

  /** The configured fields outside the validated ones do not cut the batch in the middle: those of
      the last record end inside the message, or those of the first already do not. */
  predicate Uncut(spec: EventSpec, length: nat, deltas: seq<nat>, q: nat)
    requires deltas != []
  {
    RequiredEnd(spec, deltas[|deltas| - 1], q) <= length || RequiredEnd(spec, deltas[0], q) > length
  }

  lemma DeclaredBatch(spec: EventSpec, message: Bytes, context: Option<Bytes>, instance: nat, g: Geometry)
    requires CandidateDeltas(spec, message, context) == Some(DeltasOf(g)) && g.count > 0
    requires AllPlausible(spec, message, instance, DeltasOf(g), QuantityBytes(spec, context))
    ensures AllOrNothing(Decode(spec, message, context), g.count) <==>
              Uncut(spec, |message|, DeltasOf(g), QuantityBytes(spec, context))
    ensures RequiredEnd(spec, DeltasOf(g)[g.count - 1], QuantityBytes(spec, context)) <= |message| ==>
              var r := Decode(spec, message, context);
              r.Some? && |r.value| == g.count
  {
    hide AllPlausible, CandidateDeltas, SoundBatch, Decode, BatchOutcome, QuantityBytes, AllOrNothing, Uncut,
        RequiredEnd;
    DeclaredIsSound(spec, message, instance, g, QuantityBytes(spec, context));
    ValidatedBatch(spec, message, context, DeltasOf(g));
    OutcomeIsUncut(Decode(spec, message, context), spec, message, context, DeltasOf(g));
  }

  lemma OutcomeIsUncut(r: Option<seq<DecodedRecord>>, spec: EventSpec, message: Bytes, context: Option<Bytes>,
      deltas: seq<nat>)
    requires deltas != [] && BatchOutcome(r, spec, message, context, deltas)
    ensures AllOrNothing(r, |deltas|) <==> Uncut(spec, |message|, deltas, QuantityBytes(spec, context))
    ensures RequiredEnd(spec, deltas[|deltas| - 1], QuantityBytes(spec, context)) <= |message| ==>
              r.Some? && |r.value| == |deltas|
  {
    hide RequiredEnd, QuantityBytes, HoldsRecord;
  }

  /** A storage wrapper yields no event, or exactly the declared count; with a layout built by hand that
      is so if and only if no unvalidated field cuts the batch in the middle. */
  lemma StorageBatch(spec: EventSpec, message: Bytes, context: Option<Bytes>)
    requires spec.family == InventoryToStorage
    ensures var deltas, r := DeclaredStorageDeltas(spec, message).value, Decode(spec, message, context);
            && (deltas == [] ==> r.None?)
            && (deltas != [] ==>
                  && |deltas| == U16(message, spec.recordCountOffset.value)
                  && (Built(spec) || (spec.inventorySlotOffset.None? && spec.itemInstanceOffset.None?) ==>
                        r.Some? && |r.value| == |deltas|)
                  && (AllOrNothing(r, |deltas|) <==> Uncut(spec, |message|, deltas, TRANSFER_QUANTITY_BYTES)))
  {
    hide DeclaredStorageDeltas, AllPlausible, CandidateDeltas, Decode, RequiredEnd, DeltasOf, AllOrNothing,
        Uncut, Built, ImpliedGeometry;
    StorageCandidates(spec, message, context);
    var deltas := DeclaredStorageDeltas(spec, message).value;
    if deltas != [] {
      var g := DeclaredStorageGeometry(spec, message);
      if Built(spec) {
        BuiltFieldsFit(spec, message, spec.singleRecordMessageLength.value, spec.storageInstanceOffset.value,
                       spec.recordCountOffset.value, g, 4);
      } else if spec.inventorySlotOffset.None? && spec.itemInstanceOffset.None? {
        ValidatedFieldsFit(spec, message, spec.storageInstanceOffset.value, g, 4);
      }
      DeclaredBatch(spec, message, context, spec.storageInstanceOffset.value, g);
    }
  }

  lemma StorageCandidates(spec: EventSpec, message: Bytes, context: Option<Bytes>)
    requires spec.family == InventoryToStorage
    ensures DeclaredStorageDeltas(spec, message).Some?
    ensures CandidateDeltas(spec, message, context) == DeclaredStorageDeltas(spec, message)
    ensures QuantityBytes(spec, context) == 4
    ensures DeclaredStorageDeltas(spec, message).value == [] ==> Decode(spec, message, context).None?
  {
    hide AllPlausible, DeltasOf, ImpliedGeometry;
  }

  lemma DeclaredStorageGeometry(spec: EventSpec, message: Bytes) returns (g: Geometry)
    requires DeclaredStorageDeltas(spec, message).Some? && DeclaredStorageDeltas(spec, message).value != []
    ensures spec.recordCountOffset.Some? && 0 <= spec.recordCountOffset.value
    ensures spec.recordCountOffset.value + 2 <= |message|
    ensures spec.storageInstanceOffset.Some? && spec.singleRecordMessageLength.Some?
    ensures g.count == U16(message, spec.recordCountOffset.value) > 0
    ensures DeclaredStorageDeltas(spec, message).value == DeltasOf(g)
    ensures AllPlausible(spec, message, spec.storageInstanceOffset.value, DeltasOf(g), 4)
    ensures ImpliedGeometry(spec, |message|, spec.singleRecordMessageLength.value, spec.storageInstanceOffset.value,
                            spec.recordCountOffset.value, g.count, 4) == Some(g)
  {
    hide AllPlausible, DeltasOf, U16;
    g := ImpliedGeometry(spec, |message|, spec.singleRecordMessageLength.value, spec.storageInstanceOffset.value,
                         spec.recordCountOffset.value, U16(message, spec.recordCountOffset.value), 4).value;
  }

  /** The same law for a character-load snapshot, whose count all viable columns must agree on. */
  lemma SnapshotBatch(spec: EventSpec, message: Bytes)
    requires spec.family == InventoryTransfer
    ensures var declared, r :=
            DeclaredInventoryDeltas(spec, message), Decode(spec, message, Some(CHARACTER_LOAD_CONTEXT));
            && (declared.None? ==> r.None?)
            && (declared.Some? ==>
                  && declared.value != []
                  && (Built(spec) || (spec.inventorySlotOffset.None? && spec.storageInstanceOffset.None?) ==>
                        r.Some? && |r.value| == |declared.value|)
                  && (AllOrNothing(r, |declared.value|) <==>
                        Uncut(spec, |message|, declared.value, SNAPSHOT_QUANTITY_BYTES)))
  {
    hide DeclaredInventoryDeltas, AllPlausible, CandidateDeltas, Decode, RequiredEnd, DeltasOf, Declares,
        AllOrNothing, Uncut, Built, ImpliedGeometry;
    var declared, context := DeclaredInventoryDeltas(spec, message), Some(CHARACTER_LOAD_CONTEXT);
    SnapshotCandidates(spec, message);
    if declared.Some? {
      var g, at := DeclaredSnapshotGeometry(spec, message);
      if Built(spec) {
        BuiltFieldsFit(spec, message, spec.singleRecordMessageLength.value, spec.itemInstanceOffset.value, at, g, 8);
      } else if spec.inventorySlotOffset.None? && spec.storageInstanceOffset.None? {
        ValidatedFieldsFit(spec, message, spec.itemInstanceOffset.value, g, 8);
      }
      DeclaredBatch(spec, message, context, spec.itemInstanceOffset.value, g);
    }
  }

  lemma SnapshotCandidates(spec: EventSpec, message: Bytes)
    requires spec.family == InventoryTransfer
    ensures CandidateDeltas(spec, message, Some(CHARACTER_LOAD_CONTEXT)) == DeclaredInventoryDeltas(spec, message)
    ensures QuantityBytes(spec, Some(CHARACTER_LOAD_CONTEXT)) == 8
    ensures DeclaredInventoryDeltas(spec, message).None? ==> Decode(spec, message, Some(CHARACTER_LOAD_CONTEXT)).None?
  {
    hide DeclaredInventoryDeltas;
  }

  lemma DeclaredSnapshotGeometry(spec: EventSpec, message: Bytes) returns (g: Geometry, at: nat)
    requires DeclaredInventoryDeltas(spec, message).Some?
    ensures spec.itemInstanceOffset.Some? && spec.singleRecordMessageLength.Some? && g.count > 0
    ensures DeclaredInventoryDeltas(spec, message).value == DeltasOf(g)
    ensures AllPlausible(spec, message, spec.itemInstanceOffset.value, DeltasOf(g), 8)
    ensures Declares(spec, message, g) && forall h :: Declares(spec, message, h) ==> h == g
    ensures ImpliedGeometry(spec, |message|, spec.singleRecordMessageLength.value, spec.itemInstanceOffset.value, at,
                g.count, 8) ==
            Some(g)
  {
    SnapshotNeedsOneGeometry(spec, message);
    hide DeclaredInventoryDeltas, AllPlausible, DeltasOf, ImpliedGeometry;
    g :| Declares(spec, message, g) && forall h :: Declares(spec, message, h) ==> h == g;
    at :| 5 <= at < ColumnEnd(spec, message) && ViableColumn(spec, message, at) == Some(g);
  }
}
