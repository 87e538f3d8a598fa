/**
 * `ReadLocalVariableNode`: reads one frame slot. The typed reads apply when
 * the slot's kind in the frame descriptor is `Long`, `Double` or `Boolean`;
 * the generic read returns the slot's value and, when the slot held a
 * primitive, stores it back boxed.
 */
module ReadLocalVariableNode {
  import opened Values

  /** `FrameSlotKind` of the slots the language writes. */
  datatype FrameSlotKind = LongSlotKind | DoubleSlotKind | BooleanSlotKind | ObjectSlotKind

  /** What a frame slot holds: a primitive, or a boxed object. */
  datatype SlotValue =
    | LongSlot(n: Long)
    | DoubleSlot(bits: FloatBits)
    | BooleanSlot(b: bool)
    | ObjectSlot(v: Value)

  /** `frame.getValue`: the slot's content as a runtime value, boxing a primitive. */
  function Boxed(content: SlotValue): (v: Value)
    ensures content.LongSlot? ==> v == Int(content.n)
    ensures content.DoubleSlot? ==> v == Float(content.bits)
    ensures content.BooleanSlot? ==> v == Bool(content.b)
    ensures content.ObjectSlot? ==> v == content.v
  {
    match content
    case LongSlot(n) => Int(n)
    case DoubleSlot(bits) => Float(bits)
    case BooleanSlot(b) => Bool(b)
    case ObjectSlot(v) => v
  }

  /** The slot kinds a function's frames share. */
  class FrameDescriptor {
    var kinds: seq<FrameSlotKind>

    constructor (kinds: seq<FrameSlotKind>)
      ensures this.kinds == kinds
    {
      this.kinds := kinds;
    }
  }

  /** A function activation's local slots. */
  class Frame {
    const descriptor: FrameDescriptor
    var slots: seq<SlotValue>

    constructor (descriptor: FrameDescriptor, slots: seq<SlotValue>)
      ensures this.descriptor == descriptor && this.slots == slots
    {
      this.descriptor := descriptor;
      this.slots := slots;
    }

    predicate HasSlot(slot: nat)
      reads this, descriptor
    {
      slot < |slots| && slot < |descriptor.kinds|
    }

    /** `frame.setObject`. */
    method SetObject(slot: nat, value: Value)
      requires HasSlot(slot)
      modifies this
      ensures slots == old(slots)[slot := ObjectSlot(value)]
    {
      slots := slots[slot := ObjectSlot(value)];
    }
  }

  /** `isLong`, `isDouble`, `isBoolean`: the descriptor's kind for the slot. */
  predicate IsKind(frame: Frame, slot: nat, kind: FrameSlotKind)
    reads frame, frame.descriptor
    requires frame.HasSlot(slot)
  {
    frame.descriptor.kinds[slot] == kind
  }

  /** `readLong`: the long stored in the slot. */
  function ReadLong(frame: Frame, slot: nat): (r: Long)
    reads frame, frame.descriptor
    requires frame.HasSlot(slot) && IsKind(frame, slot, LongSlotKind) && frame.slots[slot].LongSlot?
    ensures Int(r) == Boxed(frame.slots[slot])
  {
    frame.slots[slot].n
  }

  /** `readDouble`: the double stored in the slot. */
  function ReadDouble(frame: Frame, slot: nat): (r: FloatBits)
    reads frame, frame.descriptor
    requires frame.HasSlot(slot) && IsKind(frame, slot, DoubleSlotKind) && frame.slots[slot].DoubleSlot?
    ensures Float(r) == Boxed(frame.slots[slot])
  {
    frame.slots[slot].bits
  }

  /** `readBoolean`: the boolean stored in the slot. */
  function ReadBoolean(frame: Frame, slot: nat): (r: bool)
    reads frame, frame.descriptor
    requires frame.HasSlot(slot) && IsKind(frame, slot, BooleanSlotKind) && frame.slots[slot].BooleanSlot?
    ensures Bool(r) == Boxed(frame.slots[slot])
  {
    frame.slots[slot].b
  }

  /**
   * `readObject`: the slot's value; a slot that is not yet boxed is stored
   * back boxed, with the same value. No other slot is touched.
   */
  method ReadObject(frame: Frame, slot: nat) returns (r: Value)
    requires frame.HasSlot(slot)
    modifies frame
    ensures r == Boxed(old(frame.slots[slot]))
    ensures frame.slots == old(frame.slots)[slot := ObjectSlot(r)]
  {
    if !frame.slots[slot].ObjectSlot? {
      var result := Boxed(frame.slots[slot]);
      frame.SetObject(slot, result);
      return result;
    }
    r := frame.slots[slot].v;
  }

  /** Boxing a slot changes its representation, never its value. */
  lemma BoxingKeepsValue(content: SlotValue)
    ensures Boxed(ObjectSlot(Boxed(content))) == Boxed(content)
  {
  }

  /**
   * The node's evaluation: the first specialisation whose guard holds, in
   * declaration order, `readObject` otherwise. The result is always the
   * slot's value.
   */
  method Execute(frame: Frame, slot: nat) returns (r: Value)
    requires frame.HasSlot(slot)
    requires IsKind(frame, slot, LongSlotKind) ==> frame.slots[slot].LongSlot?
    requires IsKind(frame, slot, DoubleSlotKind) ==> frame.slots[slot].DoubleSlot?
    requires IsKind(frame, slot, BooleanSlotKind) ==> frame.slots[slot].BooleanSlot?
    modifies frame
    ensures r == Boxed(old(frame.slots[slot]))
    ensures frame.slots == old(frame.slots) || frame.slots == old(frame.slots)[slot := ObjectSlot(r)]
  {
    if IsKind(frame, slot, LongSlotKind) {
      r := Int(ReadLong(frame, slot));
    } else if IsKind(frame, slot, DoubleSlotKind) {
      r := Float(ReadDouble(frame, slot));
    } else if IsKind(frame, slot, BooleanSlotKind) {
      r := Bool(ReadBoolean(frame, slot));
    } else {
      r := ReadObject(frame, slot);
    }
  }
}
