/**
 * Item templates, instances and equipment slots of the simulation (Go file
 * `backend/internal/sim/item.go`).
 *
 * Identifiers are strings, a slot mask is a 32-bit vector and times are
 * milliseconds.
 */
module Items {
  import opened Wrappers

  const MainHand: string := "main_hand"
  const OffHand: string := "off_hand"
  const Chest: string := "chest"
  const Legs: string := "legs"
  const Feet: string := "feet"
  const Head: string := "head"

  /** The six slot IDs, in the order of their mask bits. */
  const KnownSlots: seq<string> := [MainHand, OffHand, Chest, Legs, Feet, Head]

  type SlotMask = bv32

  const MaskMainHand: SlotMask := 1 << 0
  const MaskOffHand: SlotMask := 1 << 1
  const MaskChest: SlotMask := 1 << 2
  const MaskLegs: SlotMask := 1 << 3
  const MaskFeet: SlotMask := 1 << 4
  const MaskHead: SlotMask := 1 << 5

  /** The six mask constants, in the order of `KnownSlots`. */
  const SlotMasks: seq<SlotMask> := [MaskMainHand, MaskOffHand, MaskChest, MaskLegs, MaskFeet, MaskHead]

  /** Compartment names; the caps of a new inventory are keyed by them. */
  const Backpack: string := "backpack"
  const Belt: string := "belt"
  const CraftBag: string := "craft_bag"

  datatype ItemTemplate = ItemTemplate(
    id: string,
    displayName: string,
    slotMask: SlotMask,
    weight: real,
    bulk: int,
    damageType: string,
    skillReq: map<string, int>)

  datatype ItemInstance = ItemInstance(instanceId: string, templateId: string, quantity: int, durability: real)

  datatype EquippedItem = EquippedItem(instance: ItemInstance, cooldownUntil: int)

  /** An inventory entry; `template` is the cached template the Go code keeps in an unexported pointer. */
  datatype InventoryItem = InventoryItem(instance: ItemInstance, compartment: string, template: Option<ItemTemplate>)

  /** The mask bit of a slot ID, or nothing for an ID outside the six. */
  function SlotBit(slot: string): (r: bv32)
    ensures r == 0 <==> slot !in KnownSlots
    ensures forall i :: 0 <= i < 6 && KnownSlots[i] == slot ==> r == SlotMasks[i]
  {
    if slot == MainHand then MaskMainHand
    else if slot == OffHand then MaskOffHand
    else if slot == Chest then MaskChest
    else if slot == Legs then MaskLegs
    else if slot == Feet then MaskFeet
    else if slot == Head then MaskHead
    else 0
  }

  /** The template may be equipped in `slot`: the slot is one of the six and its bit is set in the mask. */
  function Allows(t: ItemTemplate, slot: string): (r: bool)
    ensures r <==> exists i :: 0 <= i < 6 && KnownSlots[i] == slot && t.slotMask & SlotMasks[i] != 0
  {
    var mask := SlotBit(slot);
    if mask == 0 then false else t.slotMask & mask != 0
  }

  /** Each mask is the single bit at its own position, so no two masks share a bit. */
  lemma SlotMasksAreSingleBits()
    ensures forall i :: 0 <= i < 6 ==> SlotMasks[i] == 1 << i
    ensures forall i, j :: 0 <= i < j < 6 ==> SlotMasks[i] & SlotMasks[j] == 0
  {
  }

  /** A main-hand/off-hand template allows exactly those two slots. */
  lemma HandsMaskAllows(t: ItemTemplate, slot: string)
    requires t.slotMask == MaskMainHand | MaskOffHand
    ensures Allows(t, slot) <==> slot == MainHand || slot == OffHand
  {
  }

  /** A mask of zero allows no slot at all. */
  lemma ZeroMaskAllowsNothing(t: ItemTemplate, slot: string)
    requires t.slotMask == 0
    ensures !Allows(t, slot)
  {
  }

  /** The cooldown is active strictly before `cooldownUntil`. */
  predicate CooldownActive(e: EquippedItem, now: int)
  {
    now < e.cooldownUntil
  }

  /** At the exact expiry instant the cooldown is already over; one millisecond earlier it is not. */
  lemma CooldownExpiry(e: EquippedItem)
    ensures CooldownActive(e, e.cooldownUntil - 1)
    ensures !CooldownActive(e, e.cooldownUntil)
    ensures forall now :: CooldownActive(e, now) ==> CooldownActive(e, now - 1)
  {
  }
}
