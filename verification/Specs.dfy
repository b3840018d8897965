// The layouts the toolkit itself builds, from calibrated entries, and what they all satisfy.
module Specs {
  import opened Wire
  import opened Decoder

  /** A calibrated entry, as far as it decides where fields lie; the stored numbers are not negative. */
  datatype Entry = Entry(
    opcode: Option<Opcode>,
    length: Option<nat>,
    itemId: Option<nat>,
    quantity: Option<nat>,
    inventorySlot: Option<nat>,
    context: Option<nat>,
    recordCount: Option<nat>,
    itemInstance: Option<nat>,
    destinationInstance: Option<nat>,
    repeatStride: Option<nat>)

  function EndOf(offset: Option<nat>, size: nat): Option<nat> {
    if offset.Some? then Some(offset.value + size) else None
  }

  function Latest(ends: seq<Option<nat>>): (latest: Option<nat>)
    ensures forall i :: 0 <= i < |ends| && ends[i].Some? ==> latest.Some? && ends[i].value <= latest.value
    ensures latest.Some? ==> latest in ends
  {
    if ends == [] then None
    else
      var rest := Latest(ends[1..]);
      if ends[0].None? then rest
      else if rest.None? || rest.value < ends[0].value then ends[0] else rest
  }

  /** No shorter than the entry's length, and no field ends beyond it. */
  function MinimumEventLength(length: Option<nat>, ends: seq<Option<nat>>): (minimum: nat)
    ensures length.Some? ==> length.value <= minimum
    ensures forall i :: 0 <= i < |ends| && ends[i].Some? ==> ends[i].value <= minimum
  {
    var latest := Latest(ends);
    var minimum := if latest.Some? then latest.value else 5;
    if length.Some? && length.value > minimum then length.value else minimum
  }

  /** What a layout is refused for; the rest of it is kept as it is. */
  function Admit(family: Family, e: Entry, minimum: nat, slot: Option<nat>, recordCount: Option<nat>,
                 itemInstance: Option<nat>, storageInstance: Option<nat>): (spec: Option<EventSpec>)
    requires e.opcode.Some? && e.itemId.Some? && e.quantity.Some?
  {
    if !(5 <= minimum <= MAX_TARGET_MESSAGE_LENGTH) then None
    else if family == InventoryToStorage && e.context.Some? && e.context.value + 4 > e.itemId.value then None
    else if family == InventoryToStorage && recordCount.Some? && recordCount.value + 2 > e.itemId.value then None
    else if e.repeatStride == Some(0) then None
    else if e.length.Some? && !(minimum <= e.length.value <= MAX_TARGET_MESSAGE_LENGTH) then None
    else Some(EventSpec(family, e.opcode.value, e.itemId.value, e.quantity.value, minimum, slot, e.context, 4,
        recordCount,
        itemInstance, storageInstance, if e.repeatStride.Some? then Some(e.repeatStride.value) else None, e.length))
  }

  function TransferSpec(e: Entry): (spec: Option<EventSpec>) {
    if e.opcode.None? || e.itemId.None? || e.quantity.None? then None
    else
      var minimum := MinimumEventLength(e.length, [EndOf(e.itemId, 4), EndOf(e.quantity, 4), EndOf(e.itemInstance, 8),
          EndOf(e.context, 4), EndOf(e.inventorySlot, 1)]);
      Admit(InventoryTransfer, e, minimum, e.inventorySlot, None, e.itemInstance, None)
  }

  function StorageSpec(e: Entry): (spec: Option<EventSpec>) {
    if e.opcode.None? || e.itemId.None? || e.quantity.None? then None
    else
      var minimum :=
        MinimumEventLength(e.length, [EndOf(e.itemId, 4), EndOf(e.quantity, 4), EndOf(e.destinationInstance, 8),
          EndOf(e.context, 4), EndOf(e.recordCount, 2)]);
      Admit(InventoryToStorage, e, minimum, None, e.recordCount, None, e.destinationInstance)
  }

  /** A record of the minimum length holds every configured field, and a single record is no shorter. */
  predicate Built(spec: EventSpec) {
    && (spec.singleRecordMessageLength.Some? ==> spec.minMessageLength <= spec.singleRecordMessageLength.value)
    && spec.itemOffset + 4 <= spec.minMessageLength && spec.quantityOffset + 4 <= spec.minMessageLength
    && (spec.inventorySlotOffset.Some? ==> spec.inventorySlotOffset.value + 1 <= spec.minMessageLength)
    && (spec.itemInstanceOffset.Some? ==> spec.itemInstanceOffset.value + 8 <= spec.minMessageLength)
    && (spec.storageInstanceOffset.Some? ==> spec.storageInstanceOffset.value + 8 <= spec.minMessageLength)
  }

  /** Whatever the entry, the layout made of it satisfies that. */
  lemma LayoutsAreBuilt(e: Entry)
    ensures TransferSpec(e).Some? ==> Built(TransferSpec(e).value)
    ensures StorageSpec(e).Some? ==> Built(StorageSpec(e).value)
  {
    if TransferSpec(e).Some? {
      var ends := [EndOf(e.itemId, 4), EndOf(e.quantity, 4), EndOf(e.itemInstance, 8), EndOf(e.context, 4),
                   EndOf(e.inventorySlot, 1)];
      EndsWithin(e.length, ends);
    }
    if StorageSpec(e).Some? {
      var ends := [EndOf(e.itemId, 4), EndOf(e.quantity, 4), EndOf(e.destinationInstance, 8), EndOf(e.context, 4),
                   EndOf(e.recordCount, 2)];
      EndsWithin(e.length, ends);
    }
  }

  /** The minimum is the largest of the ends and the length. */
  lemma MinimumIs(length: Option<nat>, ends: seq<Option<nat>>, raw: seq<int>)
    requires |ends| == |raw| && ends != [] && ends[0].Some?
    requires forall i :: 0 <= i < |ends| ==> raw[i] == if ends[i].Some? then ends[i].value else 0
    ensures var m := MinimumEventLength(length, ends);
            && (forall i :: 0 <= i < |raw| ==> raw[i] <= m) && (length.Some? ==> length.value <= m)
            && (m in raw || length == Some(m))
  {
    var latest := Latest(ends);
    assert latest.Some?;
    var i :| 0 <= i < |ends| && ends[i] == latest;
    assert raw[i] == latest.value;
  }

  /** The fields of a calibrated layout end inside its shortest message, and no message is shorter than
      its header or longer than its length field can say. */
  ghost predicate Sensible(e: Entry, ends: seq<int>) {
    && ((exists i :: 0 <= i < |ends| && 5 <= ends[i]) || (e.length.Some? && 5 <= e.length.value))
    && (forall i :: 0 <= i < |ends| ==> ends[i] <= 65_535)
    && e.repeatStride != Some(0)
    && (e.length.Some? ==> e.length.value <= 65_535 && forall i :: 0 <= i < |ends| ==> ends[i] <= e.length.value)
  }

  function EndIf(offset: Option<nat>, size: nat): int {
    if offset.Some? then offset.value + size else 0
  }

  /** A transfer entry is accepted if and only if its fields make sense, and its layout has each of them
      where the entry says. */
  lemma TransferLayout(e: Entry)
    ensures TransferSpec(e).Some? <==>
            && e.opcode.Some? && e.itemId.Some? && e.quantity.Some?
            && Sensible(e, [EndIf(e.itemId, 4), EndIf(e.quantity, 4), EndIf(e.itemInstance, 8), EndIf(e.context, 4),
                            EndIf(e.inventorySlot, 1)])
    ensures TransferSpec(e).Some? ==>
              var s := TransferSpec(e).value;
              && s.family == InventoryTransfer && s.opcode == e.opcode.value && s.itemOffset == e.itemId.value
              && s.quantityOffset == e.quantity.value && s.inventorySlotOffset == e.inventorySlot
              && s.itemInstanceOffset == e.itemInstance && s.storageInstanceOffset.None?
              && s.sourceContextOffset == e.context && s.sourceContextLength == 4
              && s.recordCountOffset.None? && s.singleRecordMessageLength == e.length
  {
    if e.opcode.Some? && e.itemId.Some? && e.quantity.Some? {
      MinimumIs(e.length, [EndOf(e.itemId, 4), EndOf(e.quantity, 4), EndOf(e.itemInstance, 8), EndOf(e.context, 4),
                           EndOf(e.inventorySlot, 1)],
          [EndIf(e.itemId, 4), EndIf(e.quantity, 4), EndIf(e.itemInstance, 8), EndIf(e.context, 4),
           EndIf(e.inventorySlot, 1)]);
    }
  }

  /** The same for storage entries, whose destination and count must lie before the first item. */
  lemma StorageLayout(e: Entry)
    ensures StorageSpec(e).Some? <==>
            && e.opcode.Some? && e.itemId.Some? && e.quantity.Some?
            && Sensible(e, [EndIf(e.itemId, 4), EndIf(e.quantity, 4), EndIf(e.destinationInstance, 8),
                            EndIf(e.context, 4), EndIf(e.recordCount, 2)])
            && EndIf(e.context, 4) <= e.itemId.value + (if e.context.None? then 4 else 0)
            && EndIf(e.recordCount, 2) <= e.itemId.value + (if e.recordCount.None? then 2 else 0)
    ensures StorageSpec(e).Some? ==>
              var s := StorageSpec(e).value;
              && s.family == InventoryToStorage && s.opcode == e.opcode.value && s.itemOffset == e.itemId.value
              && s.quantityOffset == e.quantity.value && s.inventorySlotOffset.None?
              && s.itemInstanceOffset.None? && s.storageInstanceOffset == e.destinationInstance
              && s.sourceContextOffset == e.context && s.sourceContextLength == 4
              && s.recordCountOffset == e.recordCount && s.singleRecordMessageLength == e.length
  {
    if e.opcode.Some? && e.itemId.Some? && e.quantity.Some? {
      MinimumIs(e.length, [EndOf(e.itemId, 4), EndOf(e.quantity, 4), EndOf(e.destinationInstance, 8),
                           EndOf(e.context, 4), EndOf(e.recordCount, 2)],
          [EndIf(e.itemId, 4), EndIf(e.quantity, 4), EndIf(e.destinationInstance, 8), EndIf(e.context, 4),
           EndIf(e.recordCount, 2)]);
    }
  }

  lemma EndsWithin(length: Option<nat>, ends: seq<Option<nat>>)
    requires |ends| == 5
    ensures var m := MinimumEventLength(length, ends);
            && (ends[0].Some? ==> ends[0].value <= m) && (ends[1].Some? ==> ends[1].value <= m)
            && (ends[2].Some? ==> ends[2].value <= m) && (ends[3].Some? ==> ends[3].value <= m)
            && (ends[4].Some? ==> ends[4].value <= m)
  {
  }
}
