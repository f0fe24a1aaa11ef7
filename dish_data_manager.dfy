/** `DishDataManager` from dishData.js: the dish list held in the field `dishes`, changed in
    place by its methods, and the browser's `localStorage` as the keys those methods read,
    write and remove. Every write may be refused by the host (quota exceeded); whether it
    is accepted is an argument of the method that makes it. */
module DishData {
  import opened JsValues
  import opened Catalog

  /** What the quantity key 'restaurant_dish_counts' holds: nothing, text that does not
      parse, or a map from dish id to quantity. */
  datatype CountsEntry = NoCounts | CorruptCounts | Counts(quantities: map<int, int>)

  /** `localStorage`, limited to the keys `DishDataManager` touches. */
  class LocalStorage {
    /** 'restaurant_dish_data' */
    var catalog: Stored
    /** 'restaurant_dish_counts' */
    var counts: CountsEntry
    /** 'restaurant_active_tab' */
    var activeTab: Option<string>
    /** 'restaurant_order_state' */
    var orderState: Option<string>

    constructor (catalog: Stored, counts: CountsEntry, activeTab: Option<string>, orderState: Option<string>)
      ensures this.catalog == catalog && this.counts == counts
      ensures this.activeTab == activeTab && this.orderState == orderState
    {
      this.catalog := catalog;
      this.counts := counts;
      this.activeTab := activeTab;
      this.orderState := orderState;
    }
  }

  /** The quantity key after `deleteDish(id)` has tried to drop the entry of `id`: an
      unreadable value is left alone (the parse throws and is caught), a missing one is
      read as `{}`, and the written map is kept only if the host accepts the write. */
  function CountsAfterDelete(c: CountsEntry, id: int, accepted: bool): (r: CountsEntry)
    ensures !accepted || c.CorruptCounts? ==> r == c
    ensures accepted && !c.CorruptCounts? ==> r.Counts? && id !in r.quantities
    ensures accepted && c.Counts? ==>
      forall k :: k != id ==> (k in r.quantities <==> k in c.quantities) &&
                              (k in c.quantities ==> r.quantities[k] == c.quantities[k])
    ensures accepted && c.NoCounts? ==> r == Counts(map[])
  {
    match c
    case CorruptCounts => c
    case NoCounts => if accepted then Counts(map[]) else c
    case Counts(m) => if accepted then Counts(m - {id}) else c
  }

  class DishDataManager {
    /** `this.dishes` */
    var dishes: seq<Dish>
    /** The browser storage the manager reads and writes. */
    const storage: LocalStorage

    /** `new DishDataManager()`: the list is what `loadFromStorage` reads. */
    constructor (storage: LocalStorage)
      ensures this.storage == storage
      ensures dishes == Loaded(storage.catalog)
    {
      this.storage := storage;
      dishes := Loaded(storage.catalog);
    }

    /** `saveToStorage()`: writes the list under the catalog key and reports whether the
        host accepted the write; a refused write leaves the key as it was. */
    method SaveToStorage(accepted: bool) returns (ok: bool)
      modifies storage`catalog
      ensures ok == accepted
      ensures storage.catalog == if accepted then Records(Encode(dishes)) else old(storage.catalog)
    {
      if accepted {
        storage.catalog := Records(Encode(dishes));
        ok := true;
      } else {
        ok := false;
      }
    }

    /** `getAllDishes()`: a copy of the whole list. */
    function GetAllDishes(): (r: seq<Dish>)
      reads this
      ensures |r| == |dishes| && forall i :: 0 <= i < |r| ==> r[i] == dishes[i]
    {
      dishes
    }

    /** `getDishesByCategory(category)`: the whole list for "all", otherwise exactly the
        dishes of that category. */
    function GetDishesByCategory(category: string): (r: seq<Dish>)
      reads this
      ensures category == AllCategories ==> r == dishes
      ensures category != AllCategories ==>
        forall d :: d in r <==> d in dishes && d.category == category
      ensures category != AllCategories ==> r == InCategory(dishes, category)
    {
      if category == AllCategories then dishes else InCategory(dishes, category)
    }

    /** `getDishById(id)`: a copy of the first dish with that id, or null. */
    function GetDishById(id: int): (r: Option<Dish>)
      reads this
      ensures r.Some? <==> HasId(dishes, id)
      ensures r.Some? ==> r.value.id == id
      ensures r.Some? ==>
        exists k :: 0 <= k < |dishes| && dishes[k] == r.value && forall j :: 0 <= j < k ==> dishes[j].id != id
    {
      var k := IndexOfId(dishes, id);
      if k < 0 then None else Some(dishes[k])
    }

    /** `addDish(draft)`: throws and changes nothing unless name, price and category are
        all truthy; otherwise appends the new record under the next id, saves, and
        returns that id whether or not the save was accepted. */
    method AddDish(draft: Draft, accepted: bool) returns (r: Result<int>)
      modifies this, storage`catalog
      ensures !ValidForAdd(draft) ==>
        r == Threw(ValidationMessage) && dishes == old(dishes) && storage.catalog == old(storage.catalog)
      ensures ValidForAdd(draft) ==>
        && r == Ok(NextId(old(dishes)))
        && dishes == Added(old(dishes), draft)
        && storage.catalog == if accepted then Records(Encode(dishes)) else old(storage.catalog)
      ensures r.Ok? ==> forall i :: 0 <= i < |old(dishes)| ==> old(dishes)[i].id < r.value
      ensures old(DistinctIds(dishes)) ==> DistinctIds(dishes)
    {
      if !StrTruthy(draft.name) || !Truthy(draft.price) || !StrTruthy(draft.category) {
        return Threw(ValidationMessage);
      }
      var maxId := if |dishes| > 0 then MaxId(dishes) else 0;
      var newId := maxId + 1;
      var newDish := Dish(newId, Trim(draft.name.value), ParseFloat(draft.price),
                          draft.category.value, StrOr(draft.image, DefaultDishImage));
      if DistinctIds(dishes) {
        AddKeepsDistinct(dishes, draft);
      }
      dishes := dishes + [newDish];
      var _ := SaveToStorage(accepted);
      r := Ok(newId);
    }

    /** `updateDish(id, patch)`: false and no change when no dish has the id; otherwise
        the first such dish is merged with the patch under its own id, in place, and the
        list is saved. */
    method UpdateDish(id: int, patch: Patch, accepted: bool) returns (found: bool)
      modifies this, storage`catalog
      ensures found <==> HasId(old(dishes), id)
      ensures dishes == Updated(old(dishes), id, patch)
      ensures !found ==> storage.catalog == old(storage.catalog)
      ensures found ==> storage.catalog == if accepted then Records(Encode(dishes)) else old(storage.catalog)
      ensures old(DistinctIds(dishes)) ==> DistinctIds(dishes)
    {
      var index := IndexOfId(dishes, id);
      if index == -1 {
        return false;
      }
      dishes := dishes[index := Merge(dishes[index], patch, id)];
      var _ := SaveToStorage(accepted);
      found := true;
    }

    /** `deleteDish(id)`: the list loses every dish with the id; only when that removed
        something is the list saved and the id's quantity entry dropped, and the cleanup
        runs whether or not the catalog save was accepted. */
    method DeleteDish(id: int, catalogAccepted: bool, countsAccepted: bool) returns (deleted: bool)
      modifies this, storage`catalog, storage`counts
      ensures deleted <==> HasId(old(dishes), id)
      ensures dishes == WithoutId(old(dishes), id)
      ensures !deleted ==> storage.catalog == old(storage.catalog) && storage.counts == old(storage.counts)
      ensures deleted ==>
        && storage.catalog == (if catalogAccepted then Records(Encode(dishes)) else old(storage.catalog))
        && storage.counts == CountsAfterDelete(old(storage.counts), id, countsAccepted)
      ensures old(DistinctIds(dishes)) ==> DistinctIds(dishes)
    {
      var initialLength := |dishes|;
      if DistinctIds(dishes) {
        WithoutIdKeepsDistinct(dishes, id);
      }
      dishes := WithoutId(dishes, id);
      deleted := |dishes| < initialLength;
      if deleted {
        var _ := SaveToStorage(catalogAccepted);
        DropCountsEntry(id, countsAccepted);
      }
    }

    /** The cleanup step of `deleteDish`: reads the quantity key (`{}` when missing),
        drops the id's entry and writes it back; an unreadable value throws, which is
        caught, and a refused write leaves the key as it was. */
    method DropCountsEntry(id: int, accepted: bool)
      modifies storage`counts
      ensures storage.counts == CountsAfterDelete(old(storage.counts), id, accepted)
    {
      match storage.counts {
        case CorruptCounts =>
        case NoCounts =>
          if accepted {
            storage.counts := Counts(map[]);
          }
        case Counts(m) =>
          if accepted {
            storage.counts := Counts(m - {id});
          }
      }
    }

    /** `clearAllDishes()`: back to the built-in dishes, saved, and the quantity, active
        tab and order state keys removed. */
    method ClearAllDishes(accepted: bool)
      modifies this, storage
      ensures dishes == DefaultDishes && DistinctIds(dishes)
      ensures storage.catalog == if accepted then Records(Encode(DefaultDishes)) else old(storage.catalog)
      ensures storage.counts == NoCounts && storage.activeTab == None && storage.orderState == None
    {
      DefaultsWellFormed();
      dishes := DefaultDishes;
      var _ := SaveToStorage(accepted);
      storage.counts := NoCounts;
      storage.activeTab := None;
      storage.orderState := None;
    }

    /** `importDishes(input)`: false and no change for anything but an array with at
        least one valid record; otherwise the list becomes the valid records under fresh
        ids above the old maximum, and is saved. */
    method ImportDishes(input: Imported, accepted: bool) returns (ok: bool)
      modifies this, storage`catalog
      ensures ok <==> ImportOutcome(old(dishes), input).Some?
      ensures !ok ==> dishes == old(dishes) && storage.catalog == old(storage.catalog)
      ensures ok ==>
        && dishes == ImportOutcome(old(dishes), input).value
        && storage.catalog == if accepted then Records(Encode(dishes)) else old(storage.catalog)
      ensures ok ==> DistinctIds(dishes)
      ensures ok ==>
        forall i, k :: 0 <= i < |dishes| && 0 <= k < |old(dishes)| ==> old(dishes)[k].id < dishes[i].id
    {
      if input.NotAnArray? {
        return false;
      }
      var valid := ValidDrafts(input.records);
      if |valid| == 0 {
        return false;
      }
      var maxId := if |dishes| > 0 then MaxId(dishes) else 0;
      assert forall i :: 0 <= i < |valid| ==> valid[i] in valid;
      ImportRenumbers(dishes, input);
      dishes := Rekey(valid, maxId);
      var _ := SaveToStorage(accepted);
      ok := true;
    }

    /** `exportDishes()`: version "1.0", the time stamp the caller supplies, the whole list. */
    function ExportDishes(exportTime: string): (r: ExportedCatalog)
      reads this
      ensures r.version == ExportVersion && r.exportTime == exportTime
      ensures |r.dishes| == |dishes| && forall i :: 0 <= i < |dishes| ==> r.dishes[i] == dishes[i]
    {
      Exported(GetAllDishes(), exportTime)
    }
  }
}
