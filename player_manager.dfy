/**
 * Equipping, unequipping and inventory changes for a player (Go file
 * `backend/internal/sim/player_manager.go`).
 *
 * Every operation validates first and returns the first failure; only a
 * successful operation bumps the player's inventory and equipment versions.
 */
module PlayerManager {
  import opened Wrappers
  import opened Items
  import opened PlayerInventory

  /** The cooldown an equip places on its slot, in milliseconds. */
  const EquipCooldown: int := 2000

  class Player {
    const inventory: Inventory
    const equipment: Equipment
    var skills: map<string, int>
    var inventoryVersion: int
    var equipmentVersion: int

    constructor (inventory: Inventory, equipment: Equipment, skills: map<string, int>)
      ensures this.inventory == inventory && this.equipment == equipment && this.skills == skills
      ensures inventoryVersion == 0 && equipmentVersion == 0
    {
      this.inventory := inventory;
      this.equipment := equipment;
      this.skills := skills;
      inventoryVersion := 0;
      equipmentVersion := 0;
    }
  }

  /** Every required skill is present at at least the required level. */
  predicate SkillsMeet(skills: map<string, int>, required: map<string, int>)
  {
    forall s :: s in required ==> s in skills && skills[s] >= required[s]
  }

  /** Only the required skills matter: skills the template does not name change nothing. */
  lemma SkillsMeetIgnoresExtras(skills: map<string, int>, extra: map<string, int>, required: map<string, int>)
    requires forall s :: s in extra ==> s !in required
    ensures SkillsMeet(skills + extra, required) <==> SkillsMeet(skills, required)
  {
  }

  /** Raising a skill level never loses a requirement that was met. */
  lemma SkillsMeetMonotone(skills: map<string, int>, s: string, level: int, required: map<string, int>)
    requires SkillsMeet(skills, required) && s in skills && level >= skills[s]
    ensures SkillsMeet(skills[s := level], required)
  {
  }

  /**
   * The checks `EquipItem` makes before it changes anything, first failure wins:
   * the item is missing, its template is unknown, the template does not allow the
   * slot, a skill requirement is unmet, or the slot is still on cooldown.
   */
  function EquipCheck(found: Option<InventoryItem>, templates: Catalog, skills: map<string, int>,
                      occupant: Option<EquippedItem>, slot: string, now: int): Option<Error>
  {
    if found.None? then Some(ItemNotFound)
    else
      var tid := found.value.instance.templateId;
      if tid !in templates then Some(UnknownTemplate(tid))
      else if !Allows(templates[tid], slot) then Some(IllegalSlot)
      else if !SkillsMeet(skills, templates[tid].skillReq) then Some(SkillGate)
      else if occupant.Some? && CooldownActive(occupant.value, now) then Some(EquipLocked)
      else None
  }

  /** An equip succeeds only for an item whose template allows the slot and whose skills are met. */
  lemma EquipCheckPasses(found: Option<InventoryItem>, templates: Catalog, skills: map<string, int>,
                         occupant: Option<EquippedItem>, slot: string, now: int)
    requires EquipCheck(found, templates, skills, occupant, slot, now).None?
    ensures found.Some? && found.value.instance.templateId in templates
    ensures Allows(templates[found.value.instance.templateId], slot) && slot in KnownSlots
    ensures SkillsMeet(skills, templates[found.value.instance.templateId].skillReq)
    ensures occupant.Some? ==> now >= occupant.value.cooldownUntil
  {
  }

  /**
   * The checks `UnequipItem` makes before it changes anything: the slot is empty,
   * the slot is on cooldown, or the equipped item's template is unknown.
   */
  function UnequipCheck(occupant: Option<EquippedItem>, templates: Catalog, slot: string, now: int): Option<Error>
  {
    if occupant.None? || occupant.value.instance.instanceId == "" then Some(SlotEmpty(slot))
    else if CooldownActive(occupant.value, now) then Some(EquipLocked)
    else if occupant.value.instance.templateId !in templates then Some(UnknownTemplate(occupant.value.instance.templateId))
    else None
  }

  /** The slot holds nothing: no entry, or an entry with an empty instance ID. */
  predicate Vacant(occupant: Option<EquippedItem>)
  {
    occupant.None? || occupant.value.instance.instanceId == ""
  }

  /**
   * What putting the slot's occupant back into the inventory answers: nothing to
   * do for a vacant slot, an unknown template, or the inventory's own refusal of
   * the occupant.
   */
  function ReturnOutcome(items: seq<InventoryItem>, caps: map<string, int>, weightLimit: real, catalog: Option<Catalog>,
                         templates: Catalog, occupant: Option<EquippedItem>, compartment: string): (r: Option<Error>)
    ensures Vacant(occupant) ==> r.None?
    ensures !Vacant(occupant) && occupant.value.instance.templateId !in templates ==>
      r == Some(UnknownTemplate(occupant.value.instance.templateId))
    ensures !Vacant(occupant) && occupant.value.instance.templateId in templates ==>
      var refusal := CanAddError(items, caps, weightLimit, catalog, occupant.value.instance, compartment,
                                 Some(templates[occupant.value.instance.templateId]));
      (r.None? <==> refusal.None?) && (r.Some? ==> r.value == CannotUnequipOld(refusal.value))
  {
    if Vacant(occupant) then None
    else
      var tid := occupant.value.instance.templateId;
      if tid !in templates then Some(UnknownTemplate(tid))
      else
        match CanAddError(items, caps, weightLimit, catalog, occupant.value.instance, compartment, Some(templates[tid]))
        case Some(e) => Some(CannotUnequipOld(e))
        case None => None
  }

  /**
   * What `EquipItem` answers: the first failed check, otherwise whatever returning
   * the displaced occupant answers; once that succeeds, the equip succeeds.
   */
  function EquipOutcome(items: seq<InventoryItem>, caps: map<string, int>, weightLimit: real, catalog: Option<Catalog>,
                        templates: Catalog, skills: map<string, int>, found: Option<InventoryItem>,
                        occupant: Option<EquippedItem>, slot: string, now: int): (r: Option<Error>)
    ensures EquipCheck(found, templates, skills, occupant, slot, now).Some? ==> r == EquipCheck(found, templates, skills, occupant, slot, now)
    ensures EquipCheck(found, templates, skills, occupant, slot, now).None? ==>
      found.Some? && r == ReturnOutcome(items, caps, weightLimit, catalog, templates, occupant, found.value.compartment)
  {
    var check := EquipCheck(found, templates, skills, occupant, slot, now);
    if check.Some? then check
    else ReturnOutcome(items, caps, weightLimit, catalog, templates, occupant, found.value.compartment)
  }

  /** Equipping into a vacant slot succeeds exactly when the item passes its checks and any cooldown left on the slot is over. */
  lemma EquipIntoVacantSlot(items: seq<InventoryItem>, caps: map<string, int>, weightLimit: real, catalog: Option<Catalog>,
                            templates: Catalog, skills: map<string, int>, found: Option<InventoryItem>,
                            occupant: Option<EquippedItem>, slot: string, now: int)
    requires Vacant(occupant)
    ensures EquipOutcome(items, caps, weightLimit, catalog, templates, skills, found, occupant, slot, now).None? <==>
      found.Some? && found.value.instance.templateId in templates &&
      Allows(templates[found.value.instance.templateId], slot) &&
      SkillsMeet(skills, templates[found.value.instance.templateId].skillReq) &&
      (occupant.Some? ==> now >= occupant.value.cooldownUntil)
  {
  }

  /**
   * What `UnequipItem` answers: the first failed check, otherwise the inventory's
   * refusal of the item, if any; once the inventory accepts it, the unequip succeeds.
   */
  function UnequipOutcome(items: seq<InventoryItem>, caps: map<string, int>, weightLimit: real, catalog: Option<Catalog>,
                          templates: Catalog, occupant: Option<EquippedItem>, slot: string, compartment: string, now: int): (r: Option<Error>)
    ensures UnequipCheck(occupant, templates, slot, now).Some? ==> r == UnequipCheck(occupant, templates, slot, now)
    ensures UnequipCheck(occupant, templates, slot, now).None? ==>
      var refusal := CanAddError(items, caps, weightLimit, catalog, occupant.value.instance, compartment,
                                 Some(templates[occupant.value.instance.templateId]));
      (r.None? <==> refusal.None?) && (r.Some? ==> r.value == CannotAddToInventory(refusal.value))
  {
    var check := UnequipCheck(occupant, templates, slot, now);
    if check.Some? then check
    else
      var tid := occupant.value.instance.templateId;
      match CanAddError(items, caps, weightLimit, catalog, occupant.value.instance, compartment, Some(templates[tid]))
      case Some(e) => Some(CannotAddToInventory(e))
      case None => None
  }

  /**
   * A fresh equip locks its slot for exactly `EquipCooldown`: unequipping one
   * millisecond early is refused as locked, and from the expiry instant on the
   * unequip succeeds whenever the inventory accepts the item.
   */
  lemma UnequipAfterCooldown(items: seq<InventoryItem>, caps: map<string, int>, weightLimit: real, catalog: Option<Catalog>,
                             instance: ItemInstance, templates: Catalog, slot: string, compartment: string,
                             equippedAt: int, later: int)
    requires instance.instanceId != "" && instance.templateId in templates
    requires later >= equippedAt + EquipCooldown
    ensures var occupant := Some(EquippedItem(instance, equippedAt + EquipCooldown));
      UnequipOutcome(items, caps, weightLimit, catalog, templates, occupant, slot, compartment, equippedAt + EquipCooldown - 1) == Some(EquipLocked)
    ensures var occupant := Some(EquippedItem(instance, equippedAt + EquipCooldown));
      CanAddError(items, caps, weightLimit, catalog, instance, compartment, Some(templates[instance.templateId])).None? ==>
      UnequipOutcome(items, caps, weightLimit, catalog, templates, occupant, slot, compartment, later).None?
  {
  }

  class PlayerManager {
    var itemTemplates: Catalog

    constructor ()
      ensures itemTemplates == map[]
    {
      itemTemplates := map[];
    }

    method RegisterItemTemplate(t: ItemTemplate)
      modifies this
      ensures itemTemplates == old(itemTemplates)[t.id := t]
    {
      itemTemplates := itemTemplates[t.id := t];
    }

    /** Walks the requirements in an unspecified order and stops at the first one the player misses. */
    method CheckSkillRequirements(player: Player, template: ItemTemplate) returns (ok: bool)
      ensures ok <==> SkillsMeet(player.skills, template.skillReq)
    {
      var required := template.skillReq;
      var pending := required.Keys;
      ok := true;
      while pending != {} && ok
        invariant pending <= required.Keys
        invariant ok <==> forall s :: s in required && s !in pending ==> s in player.skills && player.skills[s] >= required[s]
        decreases |pending|
      {
        var s :| s in pending;
        if s !in player.skills || player.skills[s] < required[s] {
          ok := false;
        }
        pending := pending - {s};
      }
    }

    /** Adds an item whose template is registered; the inventory version moves only on success. */
    method AddItemToInventory(player: Player, instance: ItemInstance, compartment: string) returns (err: Option<Error>)
      requires player.inventory.Valid()
      modifies player`inventoryVersion, player.inventory`items, player.inventory`itemIndex
      ensures player.inventory.Valid()
      ensures err == if instance.templateId !in itemTemplates then Some(UnknownTemplate(instance.templateId))
                     else CanAddError(old(player.inventory.items), player.inventory.compartmentCaps, player.inventory.weightLimit,
                                      player.inventory.templateCatalog, instance, compartment, Some(itemTemplates[instance.templateId]))
      ensures err.Some? ==> Entries(player.inventory.items) == Entries(old(player.inventory.items))
      ensures err.None? ==> player.inventory.items == CacheAll(old(player.inventory.items), None, player.inventory.templateCatalog)
                                                        + [InventoryItem(instance, compartment, Some(itemTemplates[instance.templateId]))]
      ensures player.inventoryVersion == old(player.inventoryVersion) + (if err.None? then 1 else 0)
    {
      if instance.templateId !in itemTemplates {
        err := Some(UnknownTemplate(instance.templateId));
      } else {
        err := player.inventory.AddItem(instance, compartment, Some(itemTemplates[instance.templateId]));
        if err.None? {
          player.inventoryVersion := player.inventoryVersion + 1;
        }
      }
    }

    /** Removes an item by instance ID; the inventory version moves only on success. */
    method RemoveItemFromInventory(player: Player, id: string) returns (err: Option<Error>)
      requires player.inventory.Valid()
      modifies player`inventoryVersion, player.inventory`items, player.inventory`itemIndex
      ensures player.inventory.Valid()
      ensures err == if old(HasId(player.inventory.items, id)) then None else Some(ItemNotFound)
      ensures err.Some? ==> player.inventory.items == old(player.inventory.items)
      ensures err.None? ==>
        !HasId(player.inventory.items, id) &&
        multiset(player.inventory.items) + multiset{old(player.inventory.items[player.inventory.FindItem(id)])} == multiset(old(player.inventory.items))
      ensures player.inventoryVersion == old(player.inventoryVersion) + (if err.None? then 1 else 0)
    {
      err := player.inventory.RemoveItem(id);
      if err.None? {
        player.inventoryVersion := player.inventoryVersion + 1;
      }
    }

    /**
     * `EquipItem`. Failed checks change nothing. A displaced item goes back to the
     * inventory, into the compartment of the item being equipped, before that item
     * is removed; if it cannot, nothing but the template cache changes. On success
     * the slot holds the item with a cooldown of `EquipCooldown` and both versions
     * move by one.
     */
    method EquipItem(player: Player, id: string, slot: string, now: int) returns (err: Option<Error>)
      requires player.inventory.Valid()
      modifies player`inventoryVersion, player`equipmentVersion, player.inventory`items, player.inventory`itemIndex, player.equipment
      ensures player.inventory.Valid()
      ensures var found := if old(HasId(player.inventory.items, id)) then Some(old(player.inventory.items[player.inventory.FindItem(id)])) else None;
        var check := EquipCheck(found, itemTemplates, old(player.skills), old(player.equipment.GetSlot(slot)), slot, now);
        (check.Some? ==> player.inventory.items == old(player.inventory.items)) &&
        err == EquipOutcome(old(player.inventory.items), player.inventory.compartmentCaps, player.inventory.weightLimit,
                            player.inventory.templateCatalog, itemTemplates, old(player.skills), found,
                            old(player.equipment.GetSlot(slot)), slot, now)
      ensures err.Some? ==>
        Entries(player.inventory.items) == Entries(old(player.inventory.items)) &&
        player.equipment.slots == old(player.equipment.slots) &&
        player.inventoryVersion == old(player.inventoryVersion) && player.equipmentVersion == old(player.equipmentVersion)
      ensures err.None? ==> var item := old(player.inventory.items[player.inventory.FindItem(id)]);
        player.equipment.slots == old(player.equipment.slots)[slot := EquippedItem(item.instance, now + EquipCooldown)] &&
        !HasId(player.inventory.items, id) &&
        (!old(player.equipment.IsSlotEmpty(slot)) ==> HasId(player.inventory.items, old(player.equipment.slots[slot].instance.instanceId))) &&
        player.inventoryVersion == old(player.inventoryVersion) + 1 && player.equipmentVersion == old(player.equipmentVersion) + 1
      ensures err.None? && !old(player.equipment.IsSlotEmpty(slot)) ==> old(player.equipment.slots[slot].instance.templateId) in itemTemplates
      ensures err.None? ==>
        var item := old(player.inventory.items[player.inventory.FindItem(id)]);
        var returned :=
          if old(player.equipment.IsSlotEmpty(slot)) then old(player.inventory.items)
          else
            var occupant := old(player.equipment.slots[slot]);
            CacheAll(old(player.inventory.items), None, player.inventory.templateCatalog)
              + [InventoryItem(occupant.instance, item.compartment, Some(itemTemplates[occupant.instance.templateId]))];
        player.inventory.items == SwapRemove(returned, old(player.inventory.FindItem(id)))
    {
      var inv := player.inventory;
      var idx := inv.FindItem(id);
      if idx < 0 {
        err := Some(ItemNotFound);
      } else {
        var item := inv.items[idx];
        var tid := item.instance.templateId;
        if tid !in itemTemplates {
          err := Some(UnknownTemplate(tid));
        } else if !Allows(itemTemplates[tid], slot) {
          err := Some(IllegalSlot);
        } else {
          var skilled := CheckSkillRequirements(player, itemTemplates[tid]);
          if !skilled {
            err := Some(SkillGate);
          } else if player.equipment.IsSlotOnCooldown(slot, now) {
            err := Some(EquipLocked);
          } else {
            ghost var before := inv.items;
            err := ReturnOccupant(player, slot, item.compartment);
            if err.None? {
              ghost var mid := inv.items;
              ghost var midIdx := inv.FindItem(id);
              IndexedUnique(mid, inv.itemIndex);
              assert IdOf(mid[idx]) == id by {
                if mid != before {
                  assert mid[idx] == Cache(before[idx], None, inv.templateCatalog);
                }
              }
              assert midIdx == idx;
              err := FinishEquip(player, id, slot, item, now);
              if !old(player.equipment.IsSlotEmpty(slot)) {
                SwapRemoveKeeps(mid, midIdx, |mid| - 1);
              }
            }
          }
        }
      }
    }

    /** Puts the item occupying `slot`, if any, back into the inventory in `compartment`. */
    method ReturnOccupant(player: Player, slot: string, compartment: string) returns (err: Option<Error>)
      requires player.inventory.Valid()
      modifies player.inventory`items, player.inventory`itemIndex
      ensures player.inventory.Valid()
      ensures err == ReturnOutcome(old(player.inventory.items), player.inventory.compartmentCaps, player.inventory.weightLimit,
                                   player.inventory.templateCatalog, itemTemplates, player.equipment.GetSlot(slot), compartment)
      ensures err.Some? ==> Entries(player.inventory.items) == Entries(old(player.inventory.items))
      ensures forall id :: HasId(player.inventory.items, id) <== HasId(old(player.inventory.items), id)
      ensures err.None? && player.equipment.IsSlotEmpty(slot) ==> player.inventory.items == old(player.inventory.items)
      ensures err.None? && !player.equipment.IsSlotEmpty(slot) ==>
        var occupant := player.equipment.slots[slot];
        occupant.instance.templateId in itemTemplates &&
        player.inventory.items == CacheAll(old(player.inventory.items), None, player.inventory.templateCatalog)
          + [InventoryItem(occupant.instance, compartment, Some(itemTemplates[occupant.instance.templateId]))]
    {
      err := None;
      if !player.equipment.IsSlotEmpty(slot) {
        var occupant := player.equipment.slots[slot];
        var otid := occupant.instance.templateId;
        if otid !in itemTemplates {
          err := Some(UnknownTemplate(otid));
        } else {
          ghost var before := player.inventory.items;
          var addErr := player.inventory.AddItem(occupant.instance, compartment, Some(itemTemplates[otid]));
          if addErr.Some? {
            err := Some(CannotUnequipOld(addErr.value));
          }
          forall id | HasId(before, id) ensures HasId(player.inventory.items, id) {
            HasIdCached(before, None, player.inventory.templateCatalog, id);
            if addErr.None? {
              var c := CacheAll(before, None, player.inventory.templateCatalog);
              var i :| 0 <= i < |c| && IdOf(c[i]) == id;
              assert player.inventory.items[i] == c[i];
            } else {
              var i :| 0 <= i < |before| && IdOf(before[i]) == id;
              assert Entries(player.inventory.items)[i] == Entries(before)[i];
            }
          }
        }
      }
    }

    /** Removes the item being equipped from the inventory, fills the slot and bumps both versions. */
    method FinishEquip(player: Player, id: string, slot: string, item: InventoryItem, now: int) returns (err: Option<Error>)
      requires player.inventory.Valid() && HasId(player.inventory.items, id) && IdOf(item) == id
      modifies player`inventoryVersion, player`equipmentVersion, player.inventory`items, player.inventory`itemIndex, player.equipment
      ensures err.None? && player.inventory.Valid() && !HasId(player.inventory.items, id)
      ensures player.inventory.items == SwapRemove(old(player.inventory.items), old(player.inventory.FindItem(id)))
      ensures player.equipment.slots == old(player.equipment.slots)[slot := EquippedItem(item.instance, now + EquipCooldown)]
      ensures player.inventoryVersion == old(player.inventoryVersion) + 1 && player.equipmentVersion == old(player.equipmentVersion) + 1
    {
      err := player.inventory.RemoveItem(id);
      player.equipment.SetSlot(slot, item.instance, EquipCooldown, now);
      player.inventoryVersion := player.inventoryVersion + 1;
      player.equipmentVersion := player.equipmentVersion + 1;
    }

    /**
     * `UnequipItem`. Failed checks change nothing; an item the inventory refuses
     * stays equipped. On success the slot is cleared, the item is appended to the
     * inventory in `compartment` and both versions move by one.
     */
    method UnequipItem(player: Player, slot: string, compartment: string, now: int) returns (err: Option<Error>)
      requires player.inventory.Valid()
      modifies player`inventoryVersion, player`equipmentVersion, player.inventory`items, player.inventory`itemIndex, player.equipment
      ensures player.inventory.Valid()
      ensures err == UnequipOutcome(old(player.inventory.items), player.inventory.compartmentCaps, player.inventory.weightLimit,
                                    player.inventory.templateCatalog, itemTemplates, old(player.equipment.GetSlot(slot)), slot, compartment, now)
      ensures UnequipCheck(old(player.equipment.GetSlot(slot)), itemTemplates, slot, now).Some? ==>
        player.inventory.items == old(player.inventory.items)
      ensures err.Some? ==>
        Entries(player.inventory.items) == Entries(old(player.inventory.items)) &&
        player.equipment.slots == old(player.equipment.slots) &&
        player.inventoryVersion == old(player.inventoryVersion) && player.equipmentVersion == old(player.equipmentVersion)
      ensures err.None? ==> var occupant := old(player.equipment.slots[slot]);
        player.equipment.slots == old(player.equipment.slots) - {slot} &&
        player.inventory.items == CacheAll(old(player.inventory.items), None, player.inventory.templateCatalog)
             + [InventoryItem(occupant.instance, compartment, Some(itemTemplates[occupant.instance.templateId]))] &&
        player.inventoryVersion == old(player.inventoryVersion) + 1 && player.equipmentVersion == old(player.equipmentVersion) + 1
    {
      if player.equipment.IsSlotEmpty(slot) {
        err := Some(SlotEmpty(slot));
      } else if player.equipment.IsSlotOnCooldown(slot, now) {
        err := Some(EquipLocked);
      } else {
        var occupant := player.equipment.slots[slot];
        var tid := occupant.instance.templateId;
        if tid !in itemTemplates {
          err := Some(UnknownTemplate(tid));
        } else {
          var addErr := player.inventory.AddItem(occupant.instance, compartment, Some(itemTemplates[tid]));
          if addErr.Some? {
            err := Some(CannotAddToInventory(addErr.value));
          } else {
            player.equipment.ClearSlot(slot);
            player.inventoryVersion := player.inventoryVersion + 1;
            player.equipmentVersion := player.equipmentVersion + 1;
            err := None;
          }
        }
      }
    }
  }
}
