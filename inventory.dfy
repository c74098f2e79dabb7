/**
 * A player's inventory and equipment (Go file `backend/internal/sim/inventory.go`).
 *
 * `Inventory` keeps its items in a slice with an instance-ID index beside it and
 * caches each item's template the first time it is resolved; `Equipment` maps
 * slot IDs to equipped items. Both are updated in place, so both are classes.
 */
module PlayerInventory {
  import opened Wrappers
  import opened Items

  /** The error values of the inventory and equipment operations, including the formatted ones. */
  datatype Error =
    | IllegalSlot
    | SkillGate
    | EquipLocked
    | ItemNotFound
    | ExceedsWeight
    | ExceedsBulk
    | DuplicateInstance
    | UnknownTemplate(templateId: string)
    | SlotEmpty(slot: string)
    | CannotUnequipOld(cause: Error)
    | CannotAddToInventory(cause: Error)

  type Catalog = map<string, ItemTemplate>

  function IdOf(item: InventoryItem): string
  {
    item.instance.instanceId
  }

  predicate UniqueIds(items: seq<InventoryItem>)
  {
    forall i, j :: 0 <= i < j < |items| ==> IdOf(items[i]) != IdOf(items[j])
  }

  predicate HasId(items: seq<InventoryItem>, id: string)
  {
    exists i :: 0 <= i < |items| && IdOf(items[i]) == id
  }

  /** The index invariant: the index maps an ID to a position exactly when that position holds the ID. */
  ghost predicate Indexed(items: seq<InventoryItem>, index: map<string, int>)
  {
    (forall i :: 0 <= i < |items| ==> IdOf(items[i]) in index && index[IdOf(items[i])] == i) &&
    (forall id :: id in index ==> 0 <= index[id] < |items| && IdOf(items[index[id]]) == id)
  }

  /** An index that fits the items leaves no room for a repeated ID. */
  lemma IndexedUnique(items: seq<InventoryItem>, index: map<string, int>)
    requires Indexed(items, index)
    ensures UniqueIds(items)
  {
    forall i, j | 0 <= i < j < |items| ensures IdOf(items[i]) != IdOf(items[j]) {
      assert index[IdOf(items[i])] == i && index[IdOf(items[j])] == j;
    }
  }

  /** What `rebuildIndex` computes: every ID mapped to the last position holding it. */
  function BuildIndex(items: seq<InventoryItem>): (r: map<string, int>)
    ensures forall id :: id in r <==> HasId(items, id)
    ensures forall id :: id in r ==> 0 <= r[id] < |items| && IdOf(items[r[id]]) == id
  {
    if items == [] then map[]
    else
      var n := |items| - 1;
      var front := items[..n];
      assert forall i :: 0 <= i < n ==> front[i] == items[i];
      var r := BuildIndex(front)[IdOf(items[n]) := n];
      assert forall id :: HasId(items, id) ==> id in r by {
        forall id | HasId(items, id) ensures id in r {
          var i :| 0 <= i < |items| && IdOf(items[i]) == id;
          if i < n {
            assert HasId(front, id);
          }
        }
      }
      r
  }

  /** Without repeated IDs the rebuilt index fits the items. */
  lemma BuildIndexIndexed(items: seq<InventoryItem>)
    requires UniqueIds(items)
    ensures Indexed(items, BuildIndex(items))
  {
    var r := BuildIndex(items);
    forall i | 0 <= i < |items| ensures IdOf(items[i]) in r && r[IdOf(items[i])] == i {
      assert HasId(items, IdOf(items[i]));
    }
  }

  /** The template an item resolves to: its cached one, else the given map's, else the catalog's. */
  function Resolve(item: InventoryItem, templates: Option<Catalog>, catalog: Option<Catalog>): Option<ItemTemplate>
  {
    var tid := item.instance.templateId;
    if item.template.Some? then item.template
    else if templates.Some? && tid in templates.value then Some(templates.value[tid])
    else if catalog.Some? && tid in catalog.value then Some(catalog.value[tid])
    else None
  }

  /** The item after resolution, with the resolved template cached. */
  function Cache(item: InventoryItem, templates: Option<Catalog>, catalog: Option<Catalog>): (r: InventoryItem)
    ensures r.instance == item.instance && r.compartment == item.compartment
    ensures item.template.Some? ==> r == item
  {
    item.(template := Resolve(item, templates, catalog))
  }

  /**
   * Caching changes no later resolution under the same catalog: the cached item
   * resolves, with or without the map it was resolved with, to what it resolved to
   * before, and caching it again changes nothing.
   */
  lemma CacheStable(item: InventoryItem, templates: Option<Catalog>, catalog: Option<Catalog>)
    ensures Resolve(Cache(item, templates, catalog), templates, catalog) == Resolve(item, templates, catalog)
    ensures Resolve(Cache(item, templates, catalog), None, catalog) == Resolve(item, templates, catalog)
    ensures Cache(Cache(item, templates, catalog), templates, catalog) == Cache(item, templates, catalog)
  {
  }

  function CacheAll(items: seq<InventoryItem>, templates: Option<Catalog>, catalog: Option<Catalog>): (r: seq<InventoryItem>)
    ensures |r| == |items|
  {
    seq(|items|, i requires 0 <= i < |items| => Cache(items[i], templates, catalog))
  }

  function CacheIn(items: seq<InventoryItem>, compartment: string, templates: Option<Catalog>, catalog: Option<Catalog>): (r: seq<InventoryItem>)
    ensures |r| == |items|
  {
    seq(|items|, i requires 0 <= i < |items| =>
      if items[i].compartment == compartment then Cache(items[i], templates, catalog) else items[i])
  }

  /** What the inventory holds, without the template cache. */
  function Entries(items: seq<InventoryItem>): seq<(ItemInstance, string)>
  {
    seq(|items|, i requires 0 <= i < |items| => (items[i].instance, items[i].compartment))
  }

  /** Caching never changes what the inventory holds, nor its index. */
  lemma CachingKeepsEntries(items: seq<InventoryItem>, compartment: string, templates: Option<Catalog>, catalog: Option<Catalog>, index: map<string, int>)
    ensures Entries(CacheAll(items, templates, catalog)) == Entries(items)
    ensures Entries(CacheIn(items, compartment, templates, catalog)) == Entries(items)
    ensures Indexed(items, index) ==> Indexed(CacheAll(items, templates, catalog), index)
    ensures Indexed(items, index) ==> Indexed(CacheIn(items, compartment, templates, catalog), index)
  {
    var a := CacheAll(items, templates, catalog);
    var b := CacheIn(items, compartment, templates, catalog);
    assert forall i :: 0 <= i < |items| ==> IdOf(a[i]) == IdOf(items[i]) && IdOf(b[i]) == IdOf(items[i]);
  }

  /** Weight of `quantity` items of template `t`. */
  function WeightOf(t: ItemTemplate, quantity: int): real
  {
    t.weight * quantity as real
  }

  /** Bulk of `quantity` items of template `t`. */
  function BulkOf(t: ItemTemplate, quantity: int): int
  {
    t.bulk * quantity
  }

  function ItemWeight(item: InventoryItem, templates: Option<Catalog>, catalog: Option<Catalog>): real
  {
    match Resolve(item, templates, catalog)
    case Some(t) => WeightOf(t, item.instance.quantity)
    case None => 0.0
  }

  function ItemBulk(item: InventoryItem, templates: Option<Catalog>, catalog: Option<Catalog>): int
  {
    match Resolve(item, templates, catalog)
    case Some(t) => BulkOf(t, item.instance.quantity)
    case None => 0
  }

  /** Weight times quantity summed over the items whose template resolves, in slice order. */
  function TotalWeight(items: seq<InventoryItem>, templates: Option<Catalog>, catalog: Option<Catalog>): real
  {
    if items == [] then 0.0
    else TotalWeight(items[..|items| - 1], templates, catalog) + ItemWeight(items[|items| - 1], templates, catalog)
  }

  /** Bulk times quantity summed over the items of one compartment whose template resolves. */
  function CompartmentBulk(items: seq<InventoryItem>, compartment: string, templates: Option<Catalog>, catalog: Option<Catalog>): int
  {
    if items == [] then 0
    else
      var last := items[|items| - 1];
      CompartmentBulk(items[..|items| - 1], compartment, templates, catalog)
        + (if last.compartment == compartment then ItemBulk(last, templates, catalog) else 0)
  }

  /** A cached inventory weighs, under the same catalog, what it weighed when it was resolved. */
  lemma {:induction false} TotalWeightCacheAll(items: seq<InventoryItem>, templates: Option<Catalog>, catalog: Option<Catalog>)
    ensures TotalWeight(CacheAll(items, templates, catalog), None, catalog) == TotalWeight(items, templates, catalog)
  {
    if items != [] {
      var n := |items| - 1;
      var c := CacheAll(items, templates, catalog);
      assert c[..n] == CacheAll(items[..n], templates, catalog);
      TotalWeightCacheAll(items[..n], templates, catalog);
      CacheStable(items[n], templates, catalog);
    }
  }

  /** Likewise for the bulk of a compartment. */
  lemma {:induction false} CompartmentBulkCached(items: seq<InventoryItem>, compartment: string, templates: Option<Catalog>, catalog: Option<Catalog>)
    ensures CompartmentBulk(CacheAll(items, templates, catalog), compartment, None, catalog) == CompartmentBulk(items, compartment, templates, catalog)
  {
    if items != [] {
      var n := |items| - 1;
      assert CacheAll(items, templates, catalog)[..n] == CacheAll(items[..n], templates, catalog);
      CompartmentBulkCached(items[..n], compartment, templates, catalog);
      CacheStable(items[n], templates, catalog);
    }
  }

  lemma TotalWeightStep(items: seq<InventoryItem>, i: int, templates: Option<Catalog>, catalog: Option<Catalog>)
    requires 0 <= i < |items|
    ensures TotalWeight(items[..i + 1], templates, catalog) == TotalWeight(items[..i], templates, catalog) + ItemWeight(items[i], templates, catalog)
  {
    assert items[..i + 1][..i] == items[..i];
  }

  lemma CompartmentBulkStep(items: seq<InventoryItem>, i: int, compartment: string, templates: Option<Catalog>, catalog: Option<Catalog>)
    requires 0 <= i < |items|
    ensures CompartmentBulk(items[..i + 1], compartment, templates, catalog)
      == CompartmentBulk(items[..i], compartment, templates, catalog) + (if items[i].compartment == compartment then ItemBulk(items[i], templates, catalog) else 0)
  {
    assert items[..i + 1][..i] == items[..i];
  }

  lemma TotalWeightAppend(items: seq<InventoryItem>, item: InventoryItem, templates: Option<Catalog>, catalog: Option<Catalog>)
    ensures TotalWeight(items + [item], templates, catalog) == TotalWeight(items, templates, catalog) + ItemWeight(item, templates, catalog)
  {
    assert (items + [item])[..|items|] == items;
  }

  lemma CompartmentBulkAppend(items: seq<InventoryItem>, item: InventoryItem, compartment: string, templates: Option<Catalog>, catalog: Option<Catalog>)
    ensures CompartmentBulk(items + [item], compartment, templates, catalog)
      == CompartmentBulk(items, compartment, templates, catalog) + (if item.compartment == compartment then ItemBulk(item, templates, catalog) else 0)
  {
    assert (items + [item])[..|items|] == items;
  }

  /** The template `CanAddItem` checks against: the given one, else the catalog's. */
  function EffectiveTemplate(template: Option<ItemTemplate>, catalog: Option<Catalog>, templateId: string): Option<ItemTemplate>
  {
    if template.Some? then template
    else if catalog.Some? && templateId in catalog.value then Some(catalog.value[templateId])
    else None
  }

  /**
   * The verdict of `CanAddItem`, first failure wins: a repeated instance ID, an
   * unknown template, a total weight above the limit (equality passes), then a
   * compartment bulk above that compartment's cap, checked only where a cap exists.
   */
  function CanAddError(items: seq<InventoryItem>, caps: map<string, int>, weightLimit: real, catalog: Option<Catalog>,
                       instance: ItemInstance, compartment: string, template: Option<ItemTemplate>): Option<Error>
  {
    var eff := EffectiveTemplate(template, catalog, instance.templateId);
    if HasId(items, instance.instanceId) then Some(DuplicateInstance)
    else if eff.None? then Some(UnknownTemplate(instance.templateId))
    else if TotalWeight(items, None, catalog) + WeightOf(eff.value, instance.quantity) > weightLimit then Some(ExceedsWeight)
    else if compartment in caps && CompartmentBulk(items, compartment, None, catalog) + BulkOf(eff.value, instance.quantity) > caps[compartment]
    then Some(ExceedsBulk)
    else None
  }

  /**
   * An accepted item keeps the inventory within its limits: after appending it, the
   * total weight is at most the weight limit and its compartment's bulk at most the cap.
   */
  lemma AcceptedWithinLimits(items: seq<InventoryItem>, caps: map<string, int>, weightLimit: real, catalog: Option<Catalog>,
                             instance: ItemInstance, compartment: string, template: Option<ItemTemplate>)
    requires CanAddError(items, caps, weightLimit, catalog, instance, compartment, template).None?
    ensures var added := items + [InventoryItem(instance, compartment, template)];
      TotalWeight(added, None, catalog) <= weightLimit &&
      (compartment in caps ==> CompartmentBulk(added, compartment, None, catalog) <= caps[compartment]) &&
      !HasId(items, instance.instanceId)
  {
    var item := InventoryItem(instance, compartment, template);
    TotalWeightAppend(items, item, None, catalog);
    CompartmentBulkAppend(items, item, compartment, None, catalog);
  }

  /** The inventory with position `idx` overwritten by the last item and the last slot dropped. */
  function SwapRemove<T>(items: seq<T>, idx: int): (r: seq<T>)
    requires 0 <= idx < |items|
    ensures |r| == |items| - 1
  {
    items[idx := items[|items| - 1]][..|items| - 1]
  }

  /** Swap-removal drops exactly the item at `idx` and keeps all the others. */
  lemma SwapRemoveMultiset<T>(items: seq<T>, idx: int)
    requires 0 <= idx < |items|
    ensures multiset(SwapRemove(items, idx)) == multiset(items) - multiset{items[idx]}
  {
    var n := |items| - 1;
    var r := SwapRemove(items, idx);
    if idx == n {
      assert items == r + [items[n]];
    } else {
      SwapRemoveShape(items, idx);
      assert items == items[..idx] + [items[idx]] + items[idx + 1..n] + [items[n]];
      MultisetDropMiddle(items[..idx], items[idx], items[idx + 1..n], items[n]);
    }
  }

  lemma SwapRemoveShape<T>(items: seq<T>, idx: int)
    requires 0 <= idx < |items| - 1
    ensures SwapRemove(items, idx) == items[..idx] + [items[|items| - 1]] + items[idx + 1..|items| - 1]
  {
  }

  lemma MultisetDropMiddle<T>(front: seq<T>, x: T, middle: seq<T>, y: T)
    ensures multiset(front + [y] + middle) == multiset(front + [x] + middle + [y]) - multiset{x}
  {
  }

  /** With unique IDs, swap-removal keeps them unique and the removed ID is gone. */
  lemma SwapRemoveUnique(items: seq<InventoryItem>, idx: int)
    requires 0 <= idx < |items| && UniqueIds(items)
    ensures UniqueIds(SwapRemove(items, idx)) && !HasId(SwapRemove(items, idx), IdOf(items[idx]))
  {
    var n := |items| - 1;
    var r := SwapRemove(items, idx);
    assert forall i :: 0 <= i < |r| ==> r[i] == items[if i == idx then n else i];
  }

  /** Every item but the removed one keeps its ID in the inventory. */
  lemma SwapRemoveKeeps(items: seq<InventoryItem>, idx: int, k: int)
    requires 0 <= idx < |items| && 0 <= k < |items| && k != idx && UniqueIds(items)
    ensures HasId(SwapRemove(items, idx), IdOf(items[k]))
  {
    var r := SwapRemove(items, idx);
    if k == |items| - 1 {
      assert r[idx] == items[k];
    } else {
      assert r[k] == items[k];
    }
  }

  class Equipment {
    var slots: map<string, EquippedItem>

    constructor ()
      ensures slots == map[]
    {
      slots := map[];
    }

    function GetSlot(slot: string): (r: Option<EquippedItem>)
      reads this
      ensures r.Some? <==> slot in slots
      ensures r.Some? ==> r.value == slots[slot]
    {
      if slot in slots then Some(slots[slot]) else None
    }

    /** A slot is empty when nothing is stored under it or the stored item has an empty instance ID. */
    function IsSlotEmpty(slot: string): (r: bool)
      reads this
      ensures r <==> GetSlot(slot).None? || GetSlot(slot).value.instance.instanceId == ""
    {
      slot !in slots || slots[slot].instance.instanceId == ""
    }

    function IsSlotOnCooldown(slot: string, now: int): (r: bool)
      reads this
      ensures r <==> GetSlot(slot).Some? && now < GetSlot(slot).value.cooldownUntil
    {
      slot in slots && CooldownActive(slots[slot], now)
    }

    /** Equips `instance` with a cooldown of `cooldown` ms from `now`; the slot is locked until then and no longer. */
    method SetSlot(slot: string, instance: ItemInstance, cooldown: int, now: int)
      modifies this
      ensures slots == old(slots)[slot := EquippedItem(instance, now + cooldown)]
      ensures forall t :: IsSlotOnCooldown(slot, t) <==> t < now + cooldown
      ensures IsSlotEmpty(slot) <==> instance.instanceId == ""
    {
      slots := slots[slot := EquippedItem(instance, now + cooldown)];
    }

    method ClearSlot(slot: string)
      modifies this
      ensures slots == old(slots) - {slot}
      ensures IsSlotEmpty(slot) && forall t :: !IsSlotOnCooldown(slot, t)
    {
      slots := slots - {slot};
    }
  }

  class Inventory {
    var items: seq<InventoryItem>
    var compartmentCaps: map<string, int>
    var weightLimit: real
    var itemIndex: map<string, int>
    var templateCatalog: Option<Catalog>

    ghost predicate Valid()
      reads this
    {
      Indexed(items, itemIndex)
    }

    /** An empty inventory with the default caps (backpack 50, belt 10, craft bag 30) and weight limit 100. */
    constructor ()
      ensures Valid() && items == [] && templateCatalog.None?
      ensures compartmentCaps == map[Backpack := 50, Belt := 10, CraftBag := 30] && weightLimit == 100.0
    {
      items := [];
      compartmentCaps := map[Backpack := 50, Belt := 10, CraftBag := 30];
      weightLimit := 100.0;
      itemIndex := map[];
      templateCatalog := None;
    }

    /** The position of the item with ID `id`, or -1 when there is none. */
    function FindItem(id: string): (r: int)
      reads this
      requires Valid()
      ensures -1 <= r < |items|
      ensures r >= 0 ==> IdOf(items[r]) == id
      ensures r < 0 <==> !HasId(items, id)
    {
      if id in itemIndex then itemIndex[id] else -1
    }

    function HasItem(id: string): (r: bool)
      reads this
      requires Valid()
      ensures r <==> HasId(items, id)
    {
      FindItem(id) >= 0
    }

    /** Installs the catalog and caches the catalog template of every item that has none yet. */
    method SetTemplateCatalog(catalog: Option<Catalog>)
      requires Valid()
      modifies this`items, this`templateCatalog
      ensures Valid() && templateCatalog == catalog
      ensures items == if catalog.None? then old(items) else CacheAll(old(items), None, catalog)
    {
      templateCatalog := catalog;
      if catalog.Some? {
        CacheEverything(None);
      }
    }

    /** `resolveTemplate` on the item at position `i`: the resolution is cached in place. */
    method ResolveTemplate(i: int, templates: Option<Catalog>) returns (t: Option<ItemTemplate>)
      requires 0 <= i < |items|
      modifies this`items
      ensures t == Resolve(old(items)[i], templates, templateCatalog)
      ensures items == old(items)[i := Cache(old(items)[i], templates, templateCatalog)]
    {
      var item := items[i];
      t := item.template;
      if t.None? {
        var tid := item.instance.templateId;
        if templates.Some? && tid in templates.value {
          t := Some(templates.value[tid]);
        } else if templateCatalog.Some? && tid in templateCatalog.value {
          t := Some(templateCatalog.value[tid]);
        }
        items := items[i := item.(template := t)];
      }
    }

    method CacheEverything(templates: Option<Catalog>)
      requires Valid()
      modifies this`items
      ensures Valid() && items == CacheAll(old(items), templates, templateCatalog)
    {
      ghost var before := items;
      var i := 0;
      while i < |items|
        invariant 0 <= i <= |items| == |before|
        invariant forall j :: 0 <= j < i ==> items[j] == Cache(before[j], templates, templateCatalog)
        invariant forall j :: i <= j < |items| ==> items[j] == before[j]
      {
        var _ := ResolveTemplate(i, templates);
        i := i + 1;
      }
      assert items == CacheAll(before, templates, templateCatalog);
      CachingKeepsEntries(before, "", templates, templateCatalog, itemIndex);
    }

    /** `rebuildIndex`: every ID mapped to its position, the later position winning. */
    method RebuildIndex()
      modifies this`itemIndex
      ensures itemIndex == BuildIndex(items)
    {
      var index := map[];
      var i := 0;
      while i < |items|
        invariant 0 <= i <= |items|
        invariant index == BuildIndex(items[..i])
      {
        assert items[..i + 1][..i] == items[..i];
        index := index[IdOf(items[i]) := i];
        i := i + 1;
      }
      assert items[..i] == items;
      itemIndex := index;
    }

    /** Bulk of one compartment; resolving caches the templates of that compartment's items only. */
    method GetCompartmentBulk(compartment: string, templates: Option<Catalog>) returns (bulk: int)
      requires Valid()
      modifies this`items
      ensures bulk == CompartmentBulk(old(items), compartment, templates, templateCatalog)
      ensures Valid() && items == CacheIn(old(items), compartment, templates, templateCatalog)
    {
      ghost var before := items;
      bulk := 0;
      var i := 0;
      while i < |items|
        invariant 0 <= i <= |items| == |before|
        invariant forall j :: 0 <= j < i ==> items[j] == CacheIn(before, compartment, templates, templateCatalog)[j]
        invariant forall j :: i <= j < |items| ==> items[j] == before[j]
        invariant bulk == CompartmentBulk(before[..i], compartment, templates, templateCatalog)
      {
        var item := items[i];
        CompartmentBulkStep(before, i, compartment, templates, templateCatalog);
        if item.compartment == compartment {
          var t := ResolveTemplate(i, templates);
          if t.Some? {
            bulk := bulk + BulkOf(t.value, item.instance.quantity);
          }
        }
        i := i + 1;
      }
      assert before[..i] == before;
      assert items == CacheIn(before, compartment, templates, templateCatalog);
      CachingKeepsEntries(before, compartment, templates, templateCatalog, itemIndex);
    }

    /** Total weight; resolving caches the template of every item. */
    method GetTotalWeight(templates: Option<Catalog>) returns (weight: real)
      requires Valid()
      modifies this`items
      ensures weight == TotalWeight(old(items), templates, templateCatalog)
      ensures Valid() && items == CacheAll(old(items), templates, templateCatalog)
    {
      ghost var before := items;
      weight := 0.0;
      var i := 0;
      while i < |items|
        invariant 0 <= i <= |items| == |before|
        invariant forall j :: 0 <= j < i ==> items[j] == Cache(before[j], templates, templateCatalog)
        invariant forall j :: i <= j < |items| ==> items[j] == before[j]
        invariant weight == TotalWeight(before[..i], templates, templateCatalog)
      {
        var item := items[i];
        TotalWeightStep(before, i, templates, templateCatalog);
        var t := ResolveTemplate(i, templates);
        if t.Some? {
          weight := weight + WeightOf(t.value, item.instance.quantity);
        }
        i := i + 1;
      }
      assert before[..i] == before;
      assert items == CacheAll(before, templates, templateCatalog);
      CachingKeepsEntries(before, "", templates, templateCatalog, itemIndex);
    }

    /**
     * `CanAddItem`: the verdict `CanAddError` gives on the inventory as it was. Once
     * the weight check is reached every template has been resolved and cached.
     */
    method CanAddItem(instance: ItemInstance, compartment: string, template: Option<ItemTemplate>) returns (err: Option<Error>)
      requires Valid()
      modifies this`items
      ensures err == CanAddError(old(items), compartmentCaps, weightLimit, templateCatalog, instance, compartment, template)
      ensures Valid() && Entries(items) == Entries(old(items))
      ensures items == old(items) || items == CacheAll(old(items), None, templateCatalog)
      ensures err.None? ==> items == CacheAll(old(items), None, templateCatalog)
    {
      ghost var before := items;
      var eff := EffectiveTemplate(template, templateCatalog, instance.templateId);
      if HasItem(instance.instanceId) {
        err := Some(DuplicateInstance);
      } else if eff.None? {
        err := Some(UnknownTemplate(instance.templateId));
      } else {
        var totalWeight := GetTotalWeight(None);
        var currentBulk := GetCompartmentBulk(compartment, None);
        CompartmentBulkCached(before, compartment, None, templateCatalog);
        CacheInCacheAll(before, compartment, templateCatalog);
        if totalWeight + WeightOf(eff.value, instance.quantity) > weightLimit {
          err := Some(ExceedsWeight);
        } else if compartment in compartmentCaps && currentBulk + BulkOf(eff.value, instance.quantity) > compartmentCaps[compartment] {
          err := Some(ExceedsBulk);
        } else {
          err := None;
        }
      }
      if items != before {
        CachingKeepsEntries(before, compartment, None, templateCatalog, itemIndex);
      }
    }

    /**
     * `AddItem`: on acceptance the item, carrying the template it was given, is
     * appended and indexed at the last position; on refusal only the template cache changes.
     */
    method AddItem(instance: ItemInstance, compartment: string, template: Option<ItemTemplate>) returns (err: Option<Error>)
      requires Valid()
      modifies this`items, this`itemIndex
      ensures err == CanAddError(old(items), compartmentCaps, weightLimit, templateCatalog, instance, compartment, template)
      ensures Valid()
      ensures err.Some? ==> Entries(items) == Entries(old(items))
      ensures err.None? ==> items == CacheAll(old(items), None, templateCatalog) + [InventoryItem(instance, compartment, template)]
      ensures itemIndex == if err.None? then old(itemIndex)[instance.instanceId := |items| - 1] else old(itemIndex)
    {
      err := CanAddItem(instance, compartment, template);
      if err.None? {
        ghost var cached := items;
        items := items + [InventoryItem(instance, compartment, template)];
        itemIndex := itemIndex[instance.instanceId := |items| - 1];
        AppendIndexed(cached, InventoryItem(instance, compartment, template), old(itemIndex));
      }
    }

    /** `RemoveItem`: the item is swapped with the last one, the slice shortened and the index rebuilt. */
    method RemoveItem(id: string) returns (err: Option<Error>)
      requires Valid()
      modifies this`items, this`itemIndex
      ensures Valid()
      ensures err.Some? <==> !old(HasId(items, id))
      ensures err.Some? ==> err == Some(ItemNotFound) && items == old(items)
      ensures err.None? ==> items == SwapRemove(old(items), old(FindItem(id)))
      ensures err.None? ==> multiset(items) + multiset{old(items)[old(FindItem(id))]} == multiset(old(items))
      ensures err.None? ==> !HasId(items, id) && |items| == |old(items)| - 1
    {
      var idx := FindItem(id);
      if idx < 0 {
        err := Some(ItemNotFound);
      } else {
        ghost var before := items;
        IndexedUnique(items, itemIndex);
        var lastIdx := |items| - 1;
        if idx != lastIdx {
          items := items[idx := items[lastIdx]];
        }
        items := items[..lastIdx];
        assert items == SwapRemove(before, idx);
        SwapRemoveMultiset(before, idx);
        SwapRemoveUnique(before, idx);
        RebuildIndex();
        BuildIndexIndexed(items);
        err := None;
      }
    }
  }

  /** Caching keeps every instance ID where it was. */
  lemma HasIdCached(items: seq<InventoryItem>, templates: Option<Catalog>, catalog: Option<Catalog>, id: string)
    ensures HasId(CacheAll(items, templates, catalog), id) <==> HasId(items, id)
  {
    var c := CacheAll(items, templates, catalog);
    if HasId(items, id) {
      var i :| 0 <= i < |items| && IdOf(items[i]) == id;
      assert IdOf(c[i]) == id;
    }
  }

  /** Caching one compartment after caching everything changes nothing more. */
  lemma CacheInCacheAll(items: seq<InventoryItem>, compartment: string, catalog: Option<Catalog>)
    ensures CacheIn(CacheAll(items, None, catalog), compartment, None, catalog) == CacheAll(items, None, catalog)
  {
    var a := CacheAll(items, None, catalog);
    forall i | 0 <= i < |items| ensures CacheIn(a, compartment, None, catalog)[i] == a[i] {
      CacheStable(items[i], None, catalog);
    }
  }

  /** Appending an item with a fresh ID and indexing it at the last position keeps the index invariant. */
  lemma AppendIndexed(items: seq<InventoryItem>, item: InventoryItem, index: map<string, int>)
    requires Indexed(items, index) && !HasId(items, IdOf(item))
    ensures Indexed(items + [item], index[IdOf(item) := |items|])
  {
    var s := items + [item];
    var ix := index[IdOf(item) := |items|];
    forall i | 0 <= i < |s| ensures IdOf(s[i]) in ix && ix[IdOf(s[i])] == i {
      if i < |items| {
        assert s[i] == items[i];
      }
    }
  }
}
