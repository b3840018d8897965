// Decoding one target message into item records: declared batches, structural record search, and
// the configured layout used where neither applies.
module Decoder {
  import opened Wire
  import opened RecordGeometry

  const MAX_PLAUSIBLE_ITEM_ID: nat := 0x14FF_FFFF
  const MAX_TARGET_MESSAGE_LENGTH: nat := 0xFFFF
  const TRANSFER_QUANTITY_BYTES: nat := 4
  const SNAPSHOT_QUANTITY_BYTES: nat := 8
  const MARKER_DELTA: nat := 8

  function Repeated(b: Byte, n: nat): (s: Bytes) { seq(n, _ => b) }

  const TRANSFER_RECORD_MARKER: Bytes := Repeated(0, 4) + Repeated(0xFF, 8)
  const CHARACTER_LOAD_CONTEXT: Bytes := Repeated(0, 4)

  type Positive = n: nat | n > 0 witness 1

  type Opcode = n: nat | n <= 0xFFFF

  /** No message is shorter than its header. */
  type MessageLength = n: nat | 5 <= n <= 0xFFFF witness 5

  datatype Family = InventoryTransfer | InventoryToStorage | OtherFamily(name: string)

  datatype EventSpec = EventSpec(
    family: Family,
    opcode: Opcode,
    itemOffset: nat,
    quantityOffset: nat,
    minMessageLength: MessageLength,
    inventorySlotOffset: Option<nat>,
    sourceContextOffset: Option<nat>,
    sourceContextLength: nat,
    recordCountOffset: Option<nat>,
    itemInstanceOffset: Option<nat>,
    storageInstanceOffset: Option<nat>,
    repeatStride: Option<Positive>,
    singleRecordMessageLength: Option<nat>)

  /** The little-endian integer in the `n` bytes at `at`, clipped at the end of the message. */
  function Number(message: Bytes, at: nat, n: nat): nat {
    LittleEndian(Slice(message, at, at + n))
  }

  predicate PlausibleInstance(instance: Bytes) {
    instance != Repeated(0, 8) && instance != Repeated(0xFF, 8)
  }

  /** The fields every transfer record needs are inside the message and carry plausible values. */
  predicate PlausibleRecord(message: Bytes, item: nat, quantity: nat, instance: nat, quantityBytes: nat) {
    && item + 4 <= |message| && quantity + quantityBytes <= |message| && instance + 8 <= |message|
    && 0 < Number(message, item, 4) <= MAX_PLAUSIBLE_ITEM_ID
    && Number(message, quantity, quantityBytes) > 0
    && PlausibleInstance(Slice(message, instance, instance + 8))
  }

  function StructuralInstanceOffset(spec: EventSpec): Option<nat> {
    match spec.family
    case InventoryTransfer => spec.itemInstanceOffset
    case InventoryToStorage => spec.storageInstanceOffset
    case OtherFamily(_) => None
  }

  /** Where the records of a batch lie, relative to the first. */
  function StrideDeltas(stride: nat, count: nat): (deltas: seq<nat>)
    ensures |deltas| == count && forall i :: 0 <= i < count ==> deltas[i] == Strides(stride, i)
  {
    seq(count, (i: nat) => Strides(stride, i))
  }

  predicate AllPlausible(spec: EventSpec, message: Bytes, instance: nat, deltas: seq<nat>, quantityBytes: nat) {
    forall i | 0 <= i < |deltas| ::
      PlausibleRecord(message, spec.itemOffset + deltas[i], spec.quantityOffset + deltas[i], instance + deltas[i],
          quantityBytes)
  }

  function RecordFields(spec: EventSpec, instance: nat, quantityBytes: nat): seq<Field> {
    [Field(spec.itemOffset, 4), Field(spec.quantityOffset, quantityBytes), Field(instance, 8)]
  }

  /** How many records a message declares and how far apart they are; one record needs no stride. */
  datatype Geometry = Geometry(count: nat, stride: nat)

  function DeltasOf(g: Geometry): (deltas: seq<nat>)
    ensures |deltas| == g.count
  {
    StrideDeltas(g.stride, g.count)
  }

  /** The geometry that `count` records at `countOffset` imply, if it tiles the message and every
      record field fits its record. */
  function ImpliedGeometry(spec: EventSpec, length: nat, base: nat, instance: nat, countOffset: nat, count: nat,
      quantityBytes: nat): (g: Option<Geometry>)
    ensures g.Some? ==> g.value.count == count > 0
  {
    if count == 0 then None
    else if count == 1 then if length == base then Some(Geometry(1, 0)) else None
    else
      var stride := InferRepeatStride(length, base, count);
      if stride.None? then None
      else
        var prefix := base - stride.value;
        if prefix < 5 || countOffset + 2 > prefix || length - prefix != count * stride.value then None
        else if !FieldsFitRecord(prefix, stride.value, RecordFields(spec, instance, quantityBytes)) then None
        else Some(Geometry(count, stride.value))
  }

  /** Storage records under the one calibrated count column: `Some([])` rejects, `None` is not a
      storage layout. */
  function DeclaredStorageDeltas(spec: EventSpec, message: Bytes): (deltas: Option<seq<nat>>)
  {
    if spec.family != InventoryToStorage then None
    else if spec.storageInstanceOffset.None? || spec.singleRecordMessageLength.None?
       || spec.recordCountOffset.None? then Some([])
    else
      var at := spec.recordCountOffset.value;
      if at < 5 || at + 2 > Min(spec.itemOffset, |message|) then Some([])
      else
        var g := ImpliedGeometry(spec, |message|, spec.singleRecordMessageLength.value,
            spec.storageInstanceOffset.value, at,
            U16(message, at), TRANSFER_QUANTITY_BYTES);
        if g.Some?
           && AllPlausible(spec, message, spec.storageInstanceOffset.value, DeltasOf(g.value), TRANSFER_QUANTITY_BYTES)
        then Some(DeltasOf(g.value)) else Some([])
  }

  /** The geometry a count column of an inventory snapshot declares, if every record validates. */
  function ViableColumn(spec: EventSpec, message: Bytes, at: nat): (g: Option<Geometry>)
    requires spec.itemInstanceOffset.Some? && spec.singleRecordMessageLength.Some? && at + 2 <= |message|
  {
    var g := ImpliedGeometry(spec, |message|, spec.singleRecordMessageLength.value, spec.itemInstanceOffset.value, at,
        U16(message, at), SNAPSHOT_QUANTITY_BYTES);
    if g.Some?
       && AllPlausible(spec, message, spec.itemInstanceOffset.value, DeltasOf(g.value),
              SNAPSHOT_QUANTITY_BYTES) then g else None
  }

  /** Columns a count may occupy: after the frame header and before the first item. */
  function ColumnEnd(spec: EventSpec, message: Bytes): int {
    Min(spec.itemOffset, |message|) - 1
  }

  /** What every viable column declares. */
  ghost predicate Declares(spec: EventSpec, message: Bytes, g: Geometry)
    requires spec.itemInstanceOffset.Some? && spec.singleRecordMessageLength.Some?
  {
    exists at :: 5 <= at < ColumnEnd(spec, message) && ViableColumn(spec, message, at) == Some(g)
  }

  /** The viable declarations from column `from` on. */
  function DeclaredFrom(spec: EventSpec, message: Bytes, from: nat): (gs: seq<Geometry>)
    requires spec.itemInstanceOffset.Some? && spec.singleRecordMessageLength.Some?
    decreases ColumnEnd(spec, message) - from
  {
    if from >= ColumnEnd(spec, message) then []
    else
      var g, more := ViableColumn(spec, message, from), DeclaredFrom(spec, message, from + 1);
      if g.Some? then [g.value] + more else more
  }

  lemma {:induction false} DeclaredFromIsWhatColumnsDeclare(spec: EventSpec, message: Bytes, from: nat, g: Geometry)
    requires spec.itemInstanceOffset.Some? && spec.singleRecordMessageLength.Some?
    ensures g in DeclaredFrom(spec, message, from) <==>
            exists at :: from <= at < ColumnEnd(spec, message) && ViableColumn(spec, message, at) == Some(g)
    decreases ColumnEnd(spec, message) - from
  {
    if from < ColumnEnd(spec, message) {
      DeclaredFromIsWhatColumnsDeclare(spec, message, from + 1, g);
    }
  }

  /** Inventory snapshot records: accepted only when all viable count columns imply one geometry. */
  function DeclaredInventoryDeltas(spec: EventSpec, message: Bytes): (deltas: Option<seq<nat>>) {
    if spec.family != InventoryTransfer || spec.itemInstanceOffset.None?
       || spec.singleRecordMessageLength.None? then None
    else
      var gs := DeclaredFrom(spec, message, 5);
      if gs != [] && (forall i | 0 <= i < |gs| :: gs[i] == gs[0]) then Some(DeltasOf(gs[0])) else None
  }

  /** The column search, collecting distinct geometries. */
  method SearchDeclaredInventoryDeltas(spec: EventSpec, message: Bytes) returns (deltas: Option<seq<nat>>)
    ensures deltas == DeclaredInventoryDeltas(spec, message)
  {
    if spec.family != InventoryTransfer || spec.itemInstanceOffset.None? || spec.singleRecordMessageLength.None? {
      return None;
    }
    var geometries: map<Geometry, seq<nat>> := map[];
    var at := 5;
    ghost var seen: seq<Geometry> := [];
    while at < ColumnEnd(spec, message)
      invariant 5 <= at
      invariant seen + DeclaredFrom(spec, message, at) == DeclaredFrom(spec, message, 5)
      invariant forall g :: g in geometries <==> g in seen
      invariant forall g :: g in geometries ==> geometries[g] == DeltasOf(g)
      decreases ColumnEnd(spec, message) - at
    {
      var g := ViableColumn(spec, message, at);
      if g.Some? {
        geometries := geometries[g.value := DeltasOf(g.value)];
        assert seen + ([g.value] + DeclaredFrom(spec, message, at + 1)) ==
               seen + [g.value] + DeclaredFrom(spec, message, at + 1);
        seen := seen + [g.value];
      }
      at := at + 1;
    }
    assert seen == DeclaredFrom(spec, message, 5);
    if |geometries| != 1 {
      NotSingle(geometries, seen);
      return None;
    }
    var only :| only in geometries;
    SingleKey(geometries, seen, only);
    return Some(geometries[only]);
  }

  lemma SingleKey(m: map<Geometry, seq<nat>>, seen: seq<Geometry>, only: Geometry)
    requires |m| == 1 && only in m && forall g :: g in m <==> g in seen
    ensures seen != [] && forall i :: 0 <= i < |seen| ==> seen[i] == only
  {
    assert only in seen;
    var others := m.Keys - {only};
    assert |others| == 0;
    forall i | 0 <= i < |seen| ensures seen[i] == only {
      assert seen[i] in m.Keys && seen[i] !in others;
    }
  }

  lemma NotSingle(m: map<Geometry, seq<nat>>, seen: seq<Geometry>)
    requires |m| != 1 && forall g :: g in m <==> g in seen
    ensures seen == [] || exists i :: 0 <= i < |seen| && seen[i] != seen[0]
  {
    if seen != [] {
      assert seen[0] in seen;
      assert |m.Keys| == |m| && |{seen[0]}| == 1;
      assert m.Keys != {seen[0]};
      var g :| g in m.Keys && g != seen[0];
      assert g in seen;
    }
  }

  /** An inventory snapshot is accepted exactly when its count columns declare one geometry. */
  lemma SnapshotNeedsOneGeometry(spec: EventSpec, message: Bytes)
    requires spec.family == InventoryTransfer && spec.itemInstanceOffset.Some? && spec.singleRecordMessageLength.Some?
    ensures DeclaredInventoryDeltas(spec, message).Some? <==>
            exists g :: Declares(spec, message, g) && forall h :: Declares(spec, message, h) ==> h == g
    ensures forall g :: DeclaredInventoryDeltas(spec, message).Some? && Declares(spec, message, g) ==>
              DeclaredInventoryDeltas(spec, message).value == DeltasOf(g)
  {
    var gs := DeclaredFrom(spec, message, 5);
    forall g ensures g in gs <==> Declares(spec, message, g) {
      DeclaredFromIsWhatColumnsDeclare(spec, message, 5, g);
    }
    forall i | 0 <= i < |gs| ensures Declares(spec, message, gs[i]) {
      assert gs[i] in gs;
    }
    if DeclaredInventoryDeltas(spec, message).Some? {
      forall h | Declares(spec, message, h) ensures h == gs[0] {
        assert h in gs;
      }
    }
  }

  /** Every record a declared batch admits is plausible, and the batch tiles the message. */
  lemma AcceptedGeometryTiles(spec: EventSpec, length: nat, base: nat, instance: nat, countOffset: nat, count: nat,
      quantityBytes: nat, k: nat)
    requires count >= 2 && k < count
    requires ImpliedGeometry(spec, length, base, instance, countOffset, count, quantityBytes).Some?
    ensures var stride := ImpliedGeometry(spec, length, base, instance, countOffset, count, quantityBytes).value.stride;
            var prefix := base - stride;
            && prefix >= 5 && countOffset + 2 <= prefix && prefix + count * stride == length
            && Window(prefix, stride, k) <= spec.itemOffset + k * stride <= Window(prefix, stride, k) + stride - 4
            && Window(prefix, stride, k) <= spec.quantityOffset + k * stride
            && spec.quantityOffset + k * stride <= Window(prefix, stride, k) + stride - quantityBytes
            && Window(prefix, stride, k) <= instance + k * stride <= Window(prefix, stride, k) + stride - 8
            && forall j :: 0 <= j < k ==> Window(prefix, stride, j) + stride <= Window(prefix, stride, k)
  {
    var stride := ImpliedGeometry(spec, length, base, instance, countOffset, count, quantityBytes).value.stride;
    var prefix: nat := base - stride;
    var fields := RecordFields(spec, instance, quantityBytes);
    assert fields[0] == Field(spec.itemOffset, 4) && fields[1] == Field(spec.quantityOffset, quantityBytes);
    assert fields[2] == Field(instance, 8);
    forall i | 0 <= i < 3 ensures FieldsFitRecord(prefix, stride, [fields[i]]) {
    }
    FieldsStayInTheirRecords(prefix, stride, count, length, fields[0], k, k);
    FieldsStayInTheirRecords(prefix, stride, count, length, fields[1], k, k);
    FieldsStayInTheirRecords(prefix, stride, count, length, fields[2], k, k);
    forall j | 0 <= j < k ensures Window(prefix, stride, j) + stride <= Window(prefix, stride, k) {
      WindowsAreOrdered(prefix, stride, j, k);
    }
  }
}
