/** The dish list of `DishDataManager` as a value: its records, the id policy, the filters
    behind its queries, the format repair done when it is loaded, and one function per
    operation giving the list that operation leaves behind. The class in module DishData
    runs these operations in place; the lemmas here are what they are proved to keep. */
module Catalog {
  import opened JsValues

  /** A catalog record as `this.dishes` holds it. */
  datatype Dish = Dish(id: int, name: string, price: Num, category: string, image: string)

  /** The argument of `addDish` and an element of the array given to `importDishes`:
      any field may be missing. */
  datatype Draft = Draft(name: Option<string>, price: Raw, category: Option<string>, image: Option<string>)

  /** The fields an `updateDish` caller spreads over a record; an `id` among them is
      overwritten by the re-pinned one. */
  datatype Patch = Patch(id: Option<int>, name: Option<string>, price: Option<Num>,
                         category: Option<string>, image: Option<string>)

  /** A record as it was read back from storage: an older format may lack the image or
      hold a price that is not a number. */
  datatype StoredDish = StoredDish(id: int, name: string, price: Raw, category: string, image: Option<string>)

  /** What reading the catalog key yields: nothing, text that does not parse as an array
      of records, or the records. */
  datatype Stored = Absent | Corrupt | Records(records: seq<StoredDish>)

  /** The argument of `importDishes`: something other than an array, or an array. */
  datatype Imported = NotAnArray | Items(records: seq<Draft>)

  /** The object `exportDishes` returns. */
  datatype ExportedCatalog = ExportedCatalog(version: string, exportTime: string, dishes: seq<Dish>)

  const DefaultDishImage: string := "data:image/svg+xml;base64,PHN2ZyB3aWR0aD0iMTIwIiBoZWlnaHQ9IjEyMCIgeG1sbnM9Imh0dHA6Ly93d3cudzMub3JnLzIwMDAvc3ZnIj48cmVjdCB3aWR0aD0iMTAwJSIgaGVpZ2h0PSIxMDAlIiBmaWxsPSIjZmZmIi8+PHBhdGggZD0iTTMwIDQ1IEw2MCAzMCBMOTAgNDUgTDkwIDgwIEw2MCA5NSBMzAgODBaIiBmaWxsPSIjY2NjIi8+PHRleHQgeD0iNjAiIHk9IjEwNSIgZm9udC1mYW1pbHk9IkFyaWFsIiBmb250LXNpemU9IjEwIiBmaWxsPSJ3aGl0ZSIgdGV4dC1hbmNob3I9Im1pZGRsZSI+5Zu+5Lq65Zu+5rqQPC90ZXh0Pjwvc3ZnPg=="

  /** The category name that means "no filter". */
  const AllCategories: string := "all"

  const ExportVersion: string := "1.0"

  /** The message of the error `addDish` throws on a missing name, price or category. */
  const ValidationMessage: string := "菜品名称、价格、分类不能为空"

  /** The six built-in dishes, prices in cents. */
  const DefaultDishes: seq<Dish> := [
    Dish(1, "麻辣小龙虾", Cents(8800), "hot", DefaultDishImage),
    Dish(2, "蒜蓉花甲", Cents(3800), "hot", DefaultDishImage),
    Dish(3, "凉拌黄瓜", Cents(1200), "cold", DefaultDishImage),
    Dish(4, "拍黄瓜", Cents(1000), "cold", DefaultDishImage),
    Dish(5, "烤羊肉串", Cents(500), "snack", DefaultDishImage),
    Dish(6, "烤面筋", Cents(300), "snack", DefaultDishImage)
  ]

  // ---------------------------------------------------------------- ids

  predicate HasId(ds: seq<Dish>, id: int) {
    exists i :: 0 <= i < |ds| && ds[i].id == id
  }

  predicate DistinctIds(ds: seq<Dish>) {
    forall i, j :: 0 <= i < j < |ds| ==> ds[i].id != ds[j].id
  }

  /** `Math.max(...ds.map(d => d.id))` on a non-empty list, and 0 on the empty one. */
  function MaxId(ds: seq<Dish>): (m: int)
    ensures ds == [] ==> m == 0
    ensures forall i :: 0 <= i < |ds| ==> ds[i].id <= m
    ensures ds != [] ==> HasId(ds, m)
  {
    if ds == [] then 0
    else if |ds| == 1 then ds[0].id
    else
      var rest := MaxId(ds[1..]);
      assert ds[1..][0] == ds[1];
      if ds[0].id < rest then
        (var k :| 0 <= k < |ds[1..]| && ds[1..][k].id == rest; assert ds[k + 1].id == rest; rest)
      else ds[0].id
  }

  /** The id `addDish` gives a new dish: one above the largest, 1 for an empty list. */
  function NextId(ds: seq<Dish>): (n: int)
    ensures ds == [] ==> n == 1
    ensures forall i :: 0 <= i < |ds| ==> ds[i].id < n
    ensures ds != [] ==> HasId(ds, n - 1)
  {
    MaxId(ds) + 1
  }

  /** `ds.findIndex(d => d.id === id)`: the first index holding the id, or -1. */
  function IndexOfId(ds: seq<Dish>, id: int): (k: int)
    ensures -1 <= k < |ds|
    ensures k == -1 <==> !HasId(ds, id)
    ensures k >= 0 ==> ds[k].id == id && forall j :: 0 <= j < k ==> ds[j].id != id
  {
    if ds == [] then -1
    else if ds[0].id == id then 0
    else
      var k := IndexOfId(ds[1..], id);
      assert forall j :: 1 <= j < |ds| ==> ds[j] == ds[1..][j - 1];
      if k < 0 then -1 else k + 1
  }

  /** A dish whose id no other dish has can be put in front of a list of distinct ids. */
  lemma DistinctCons(x: Dish, ds: seq<Dish>)
    requires DistinctIds(ds)
    requires forall d :: d in ds ==> d.id != x.id
    ensures DistinctIds([x] + ds)
  {
    var r := [x] + ds;
    forall i, j | 0 <= i < j < |r| ensures r[i].id != r[j].id {
      assert r[j] == ds[j - 1];
      if i > 0 {
        assert r[i] == ds[i - 1];
      }
    }
  }

  // ---------------------------------------------------------------- filters

  /** `ds.filter(d => d.category === c)`. */
  function InCategory(ds: seq<Dish>, c: string): (r: seq<Dish>)
    ensures |r| <= |ds|
    ensures forall d :: d in r <==> d in ds && d.category == c
  {
    if ds == [] then []
    else
      assert forall d :: d in ds <==> d == ds[0] || d in ds[1..];
      (if ds[0].category == c then [ds[0]] else []) + InCategory(ds[1..], c)
  }

  /** The category filter keeps the input's order: filtering a concatenation is
      concatenating the filtered parts. */
  lemma {:induction false} InCategoryConcat(a: seq<Dish>, b: seq<Dish>, c: string)
    ensures InCategory(a + b, c) == InCategory(a, c) + InCategory(b, c)
  {
    if a == [] {
      assert a + b == b;
    } else {
      assert (a + b)[1..] == a[1..] + b;
      InCategoryConcat(a[1..], b, c);
    }
  }

  /** A category that no dish carries yields the empty list. */
  lemma UnknownCategoryIsEmpty(ds: seq<Dish>, c: string)
    requires forall i :: 0 <= i < |ds| ==> ds[i].category != c
    ensures InCategory(ds, c) == []
  {
  }

  /** `ds.filter(d => d.id !== id)`. */
  function WithoutId(ds: seq<Dish>, id: int): (r: seq<Dish>)
    ensures |r| <= |ds|
    ensures forall d :: d in r <==> d in ds && d.id != id
    ensures |r| < |ds| <==> HasId(ds, id)
    ensures !HasId(ds, id) ==> r == ds
  {
    if ds == [] then []
    else
      assert forall d :: d in ds <==> d == ds[0] || d in ds[1..];
      assert forall j :: 1 <= j < |ds| ==> ds[j] == ds[1..][j - 1];
      assert HasId(ds, id) <==> ds[0].id == id || HasId(ds[1..], id);
      (if ds[0].id != id then [ds[0]] else []) + WithoutId(ds[1..], id)
  }

  /** Removing by id keeps the order of what remains. */
  lemma {:induction false} WithoutIdConcat(a: seq<Dish>, b: seq<Dish>, id: int)
    ensures WithoutId(a + b, id) == WithoutId(a, id) + WithoutId(b, id)
  {
    if a == [] {
      assert a + b == b;
    } else {
      assert (a + b)[1..] == a[1..] + b;
      WithoutIdConcat(a[1..], b, id);
    }
  }

  /** Removing by id keeps the remaining ids distinct. */
  lemma {:induction false} WithoutIdKeepsDistinct(ds: seq<Dish>, id: int)
    requires DistinctIds(ds)
    ensures DistinctIds(WithoutId(ds, id))
  {
    if ds != [] {
      var tail := ds[1..];
      assert DistinctIds(tail) by {
        forall i, j | 0 <= i < j < |tail| ensures tail[i].id != tail[j].id {
          assert tail[i] == ds[i + 1] && tail[j] == ds[j + 1];
        }
      }
      WithoutIdKeepsDistinct(tail, id);
      if ds[0].id != id {
        forall d | d in WithoutId(tail, id) ensures d.id != ds[0].id {
          var k :| 0 <= k < |tail| && tail[k] == d;
          assert d == ds[k + 1];
        }
        DistinctCons(ds[0], WithoutId(tail, id));
      }
    }
  }

  // ---------------------------------------------------------------- records

  /** The check `addDish` makes before anything else: name, price and category must all
      be truthy, so a price of 0 is refused. */
  predicate ValidForAdd(d: Draft) {
    StrTruthy(d.name) && Truthy(d.price) && StrTruthy(d.category)
  }

  /** The check `importDishes` makes of each record: a truthy name and category and a
      price that is not `undefined`, so a price of 0 is kept. */
  predicate ValidForImport(d: Draft) {
    StrTruthy(d.name) && d.price != Undefined && StrTruthy(d.category)
  }

  /** The record both `addDish` and `importDishes` build from a validated draft: the
      name trimmed, the price parsed and the placeholder for a missing image. */
  function BuildDish(d: Draft, id: int): (r: Dish)
    requires d.name.Some? && d.category.Some?
    ensures r.id == id && r.name == Trim(d.name.value) && r.category == d.category.value
    ensures r.price == ParseFloat(d.price)
    ensures r.image != "" && (StrTruthy(d.image) ==> r.image == d.image.value)
    ensures !StrTruthy(d.image) ==> r.image == DefaultDishImage
  {
    Dish(id, Trim(d.name.value), ParseFloat(d.price), d.category.value, StrOr(d.image, DefaultDishImage))
  }

  /** `{...d, ...p, id}`: every field the patch carries replaces the record's, and the
      id is the one the caller looked up, whatever the patch says. */
  function Merge(d: Dish, p: Patch, id: int): (r: Dish)
    ensures r.id == id
    ensures r.name == (if p.name.Some? then p.name.value else d.name)
    ensures r.price == (if p.price.Some? then p.price.value else d.price)
    ensures r.category == (if p.category.Some? then p.category.value else d.category)
    ensures r.image == (if p.image.Some? then p.image.value else d.image)
  {
    Dish(id,
         match p.name case Some(v) => v case None => d.name,
         match p.price case Some(v) => v case None => d.price,
         match p.category case Some(v) => v case None => d.category,
         match p.image case Some(v) => v case None => d.image)
  }

  /** `rs.filter(dish => dish.name && dish.price !== undefined && dish.category)`. */
  function ValidDrafts(rs: seq<Draft>): (r: seq<Draft>)
    ensures |r| <= |rs|
    ensures forall x :: x in r <==> x in rs && ValidForImport(x)
  {
    if rs == [] then []
    else
      assert forall x :: x in rs <==> x == rs[0] || x in rs[1..];
      (if ValidForImport(rs[0]) then [rs[0]] else []) + ValidDrafts(rs[1..])
  }

  /** The import filter keeps the input's order. */
  lemma {:induction false} ValidDraftsConcat(a: seq<Draft>, b: seq<Draft>)
    ensures ValidDrafts(a + b) == ValidDrafts(a) + ValidDrafts(b)
  {
    if a == [] {
      assert a + b == b;
    } else {
      assert (a + b)[1..] == a[1..] + b;
      ValidDraftsConcat(a[1..], b);
    }
  }

  /** `rs.map((dish, index) => ({id: base + index + 1, ...}))`: the validated records
      under fresh, consecutive ids above `base`. */
  function Rekey(rs: seq<Draft>, base: int): (r: seq<Dish>)
    requires forall i :: 0 <= i < |rs| ==> ValidForImport(rs[i])
    ensures |r| == |rs|
  {
    seq(|rs|, i requires 0 <= i < |rs| && ValidForImport(rs[i]) => BuildDish(rs[i], base + i + 1))
  }

  // ---------------------------------------------------------------- storage format

  /** One record as `loadFromStorage` repairs it: a missing or empty image becomes the
      placeholder and a price that does not parse becomes 0. */
  function LoadRecord(s: StoredDish): (r: Dish)
    ensures r.id == s.id && r.name == s.name && r.category == s.category
    ensures ParseFloat(s.price).Cents? ==> r.price == ParseFloat(s.price)
    ensures ParseFloat(s.price).NaN? ==> r.price == Cents(0)
    ensures StrTruthy(s.image) ==> r.image == s.image.value
    ensures !StrTruthy(s.image) ==> r.image == DefaultDishImage
  {
    Dish(s.id, s.name, NumberOrZero(s.price), s.category, StrOr(s.image, DefaultDishImage))
  }

  /** `loadFromStorage`: the built-in dishes when the key is missing or unreadable,
      otherwise the stored records, each repaired. */
  function Loaded(st: Stored): (r: seq<Dish>)
    ensures !st.Records? ==> r == DefaultDishes
    ensures st.Records? ==> |r| == |st.records|
    ensures st.Records? ==> forall i :: 0 <= i < |r| ==>
      && r[i].id == st.records[i].id
      && r[i].name == st.records[i].name
      && r[i].category == st.records[i].category
      && r[i].price.Cents?
      && r[i].image != ""
  ensures st.Records? ==> forall i :: 0 <= i < |r| ==>
      && (ParseFloat(st.records[i].price).Cents? ==> r[i].price == ParseFloat(st.records[i].price))
      && (ParseFloat(st.records[i].price).NaN? ==> r[i].price == Cents(0))
  ensures st.Records? ==> forall i :: 0 <= i < |r| ==>
      && (StrTruthy(st.records[i].image) ==> r[i].image == st.records[i].image.value)
      && (!StrTruthy(st.records[i].image) ==> r[i].image == DefaultDishImage)
  {
    match st
    case Absent => DefaultDishes
    case Corrupt => DefaultDishes
    case Records(rs) => seq(|rs|, i requires 0 <= i < |rs| => LoadRecord(rs[i]))
  }

  /** What `saveToStorage` writes: `JSON.stringify(this.dishes)`, in which a NaN price
      becomes `null`. */
  function Encode(ds: seq<Dish>): (r: seq<StoredDish>)
    ensures |r| == |ds|
  {
    seq(|ds|, i requires 0 <= i < |ds| => StoredDish(ds[i].id, ds[i].name, JsonNumber(ds[i].price),
                                                    ds[i].category, Some(ds[i].image)))
  }

  /** Saving and loading again gives back every record, except that a NaN price comes
      back as 0 and an empty image as the placeholder. */
  lemma LoadAfterSave(ds: seq<Dish>)
    ensures |Loaded(Records(Encode(ds)))| == |ds|
    ensures forall i :: 0 <= i < |ds| ==>
      Loaded(Records(Encode(ds)))[i] ==
        ds[i].(price := if ds[i].price.NaN? then Cents(0) else ds[i].price,
               image := if ds[i].image == "" then DefaultDishImage else ds[i].image)
  {
  }

  /** A list with no NaN price and no empty image survives a save and a load unchanged. */
  lemma SaveLoadRoundTrip(ds: seq<Dish>)
    requires forall i :: 0 <= i < |ds| ==> ds[i].price.Cents? && ds[i].image != ""
    ensures Loaded(Records(Encode(ds))) == ds
  {
    LoadAfterSave(ds);
    var r := Loaded(Records(Encode(ds)));
    forall i | 0 <= i < |ds| ensures r[i] == ds[i] {
    }
  }

  /** Loading keeps the ids that were stored, so the list is free of duplicate ids
      exactly when the stored records were. */
  lemma LoadedDistinct(st: Stored)
    requires st.Records?
    ensures DistinctIds(Loaded(st)) <==>
      forall i, j :: 0 <= i < j < |st.records| ==> st.records[i].id != st.records[j].id
  {
  }

  /** The built-in dishes have the ids 1 to 6, each once. */
  lemma DefaultsWellFormed()
    ensures DistinctIds(DefaultDishes)
    ensures MaxId(DefaultDishes) == 6
    ensures forall i :: 0 <= i < |DefaultDishes| ==> DefaultDishes[i].id == i + 1
  {
    assert DefaultDishes[5].id == 6;
  }

  // ---------------------------------------------------------------- operations on the list

  /** The list after `addDish(d)`: unchanged when the check fails, otherwise one record
      appended under the next id. */
  function Added(ds: seq<Dish>, d: Draft): seq<Dish> {
    if ValidForAdd(d) then ds + [BuildDish(d, NextId(ds))] else ds
  }

  /** The list after `updateDish(id, p)`. */
  function Updated(ds: seq<Dish>, id: int, p: Patch): (r: seq<Dish>)
    ensures |r| == |ds|
    ensures forall i :: 0 <= i < |ds| ==> r[i].id == ds[i].id
    ensures !HasId(ds, id) ==> r == ds
    ensures HasId(ds, id) ==> var k := IndexOfId(ds, id);
      r[k] == Merge(ds[k], p, id) && forall j :: 0 <= j < |ds| && j != k ==> r[j] == ds[j]
  {
    var k := IndexOfId(ds, id);
    if k < 0 then ds else ds[k := Merge(ds[k], p, id)]
  }

  /** What `importDishes(input)` makes the list, or None when it returns false. */
  function ImportOutcome(ds: seq<Dish>, input: Imported): Option<seq<Dish>> {
    match input
    case NotAnArray => None
    case Items(rs) =>
      var valid := ValidDrafts(rs);
      assert forall i :: 0 <= i < |valid| ==> valid[i] in valid;
      if |valid| == 0 then None else Some(Rekey(valid, MaxId(ds)))
  }

  /** A draft the add check accepts is appended under an id above every id present; the
      records before it stay where they were; its name is trimmed and it has an image. */
  lemma AddAppendsFreshDish(ds: seq<Dish>, d: Draft)
    requires ValidForAdd(d)
    ensures var r := Added(ds, d);
      && |r| == |ds| + 1
      && r[..|ds|] == ds
      && (forall i :: 0 <= i < |ds| ==> ds[i].id < r[|ds|].id)
      && r[|ds|].id == (if ds == [] then 1 else MaxId(ds) + 1)
      && r[|ds|].name == Trim(d.name.value)
      && r[|ds|].price == ParseFloat(d.price)
      && r[|ds|].category == d.category.value
      && (StrTruthy(d.image) ==> r[|ds|].image == d.image.value)
      && (!StrTruthy(d.image) ==> r[|ds|].image == DefaultDishImage)
  {
    var r := Added(ds, d);
    assert r[..|ds|] == ds;
  }

  /** Adding keeps the ids pairwise distinct. */
  lemma AddKeepsDistinct(ds: seq<Dish>, d: Draft)
    requires DistinctIds(ds)
    ensures DistinctIds(Added(ds, d))
  {
    if ValidForAdd(d) {
      AddAppendsFreshDish(ds, d);
    }
  }

  /** A draft the add check refuses leaves the list as it was. */
  lemma AddRefusesIncomplete(ds: seq<Dish>, d: Draft)
    requires !StrTruthy(d.name) || !Truthy(d.price) || !StrTruthy(d.category)
    ensures Added(ds, d) == ds
  {
  }

  /** The import check is the weaker one: whatever `addDish` accepts `importDishes` keeps.
      With a truthy name and category the two part exactly on a price that is defined
      but falsy: `null`, NaN, 0 or "". */
  lemma {:induction false} ChecksPart(d: Draft)
    ensures ValidForAdd(d) ==> ValidForImport(d)
    ensures StrTruthy(d.name) && StrTruthy(d.category) ==>
      (!ValidForAdd(d) && ValidForImport(d) <==> d.price != Undefined && !Truthy(d.price))
  {
  }

  /** A price of 0, one of the values on which the checks part: `addDish` refuses it and
      `importDishes` keeps it. */
  lemma ZeroPriceRule(d: Draft)
    requires StrTruthy(d.name) && StrTruthy(d.category) && d.price == Number(Cents(0))
    ensures !ValidForAdd(d) && ValidForImport(d)
  {
  }

  /** A whitespace-only name passes the add check and is stored empty. */
  lemma BlankNameIsStoredEmpty(ds: seq<Dish>, d: Draft)
    requires d.name.Some? && d.name.value != [] && forall i :: 0 <= i < |d.name.value| ==> IsSpace(d.name.value[i])
    requires Truthy(d.price) && StrTruthy(d.category)
    ensures ValidForAdd(d) && Added(ds, d)[|ds|].name == ""
  {
    BlankTrimsToEmpty(d.name.value);
  }

  /** Since ids come from the current maximum, deleting the dish with the largest id
      lets the next add reuse that id: dishes 1, 2, 3, delete 3, add gives 3 again. */
  lemma DeletedMaxIdIsReused(d: Draft)
    requires ValidForAdd(d)
    ensures var ds := DefaultDishes[..3];
      var r := Added(WithoutId(ds, 3), d);
      r[|r| - 1].id == 3
  {
    var ds := DefaultDishes[..3];
    assert ds == [DefaultDishes[0], DefaultDishes[1], DefaultDishes[2]];
    assert WithoutId(ds, 3) == [DefaultDishes[0], DefaultDishes[1]];
  }

  /** The renumbered records carry the ids `base + 1`, `base + 2`, ... in order, all
      above `base` and pairwise distinct, and keep each input's trimmed name, category,
      parsed price (NaN for a `null` or unparsable one) and image or the placeholder. */
  lemma RekeyFacts(rs: seq<Draft>, base: int)
    requires forall i :: 0 <= i < |rs| ==> ValidForImport(rs[i])
    ensures var r := Rekey(rs, base);
      && (forall i :: 0 <= i < |r| ==> r[i].id == base + i + 1)
      && (forall i :: 0 <= i < |r| ==> r[i].name == Trim(rs[i].name.value) && r[i].category == rs[i].category.value)
      && (forall i :: 0 <= i < |r| ==> r[i].price == ParseFloat(rs[i].price))
      && (forall i :: 0 <= i < |r| ==> r[i].image == StrOr(rs[i].image, DefaultDishImage))
      && (forall i, j :: 0 <= i < j < |r| ==> r[i].id < r[j].id)
      && DistinctIds(r)
  {
    var r := Rekey(rs, base);
    forall i | 0 <= i < |r| ensures r[i] == BuildDish(rs[i], base + i + 1) && r[i].id == base + i + 1 {
    }
  }

  /** An import is refused exactly when there is no array or no record in it passes the
      check. */
  lemma ImportRefusal(ds: seq<Dish>, input: Imported)
    ensures ImportOutcome(ds, input).None? <==>
      input.NotAnArray? || forall x :: x in input.records ==> !ValidForImport(x)
  {
    if input.Items? {
      var valid := ValidDrafts(input.records);
      if |valid| != 0 {
        assert valid[0] in input.records;
      }
    }
  }

  /** A successful import replaces the list by the valid records, in their order, under
      the ids `MaxId(ds) + 1`, `MaxId(ds) + 2`, ..., which are increasing, pairwise
      distinct and above every id the list had. */
  lemma ImportRenumbers(ds: seq<Dish>, input: Imported)
    requires ImportOutcome(ds, input).Some?
    ensures input.Items?
    ensures var r := ImportOutcome(ds, input).value;
      var valid := ValidDrafts(input.records);
      && |r| == |valid|
      && (forall i :: 0 <= i < |valid| ==> ValidForImport(valid[i]))
      && (forall i :: 0 <= i < |r| ==> r[i].id == MaxId(ds) + i + 1)
      && (forall i :: 0 <= i < |r| ==> r[i].name == Trim(valid[i].name.value) && r[i].category == valid[i].category.value)
      && (forall i :: 0 <= i < |r| ==> r[i].price == ParseFloat(valid[i].price))
      && (forall i :: 0 <= i < |r| ==> r[i].image == StrOr(valid[i].image, DefaultDishImage))
      && DistinctIds(r)
      && (forall i, j :: 0 <= i < j < |r| ==> r[i].id < r[j].id)
      && (forall i, k :: 0 <= i < |r| && 0 <= k < |ds| ==> ds[k].id < r[i].id)
  {
    var valid := ValidDrafts(input.records);
    assert forall i :: 0 <= i < |valid| ==> valid[i] in valid;
    var r := Rekey(valid, MaxId(ds));
    assert ImportOutcome(ds, input) == Some(r);
    RekeyFacts(valid, MaxId(ds));
    assert forall i, k :: 0 <= i < |r| && 0 <= k < |ds| ==> ds[k].id <= MaxId(ds) < r[i].id;
  }

  /** The import example: a single record with an empty name is refused. */
  lemma ImportRefusesEmptyName(ds: seq<Dish>)
    ensures ImportOutcome(ds, Items([Draft(Some(""), Number(Cents(500)), Some("hot"), None)])).None?
  {
    ImportRefusal(ds, Items([Draft(Some(""), Number(Cents(500)), Some("hot"), None)]));
  }

  /** A record with a `null` price passes the import check and is stored with a NaN
      price, while `addDish` refuses the same record. */
  lemma ImportNullPriceStoresNaN(ds: seq<Dish>)
    ensures var d := Draft(Some("a"), Null, Some("hot"), None);
      && !ValidForAdd(d)
      && ImportOutcome(ds, Items([d])).Some?
      && ImportOutcome(ds, Items([d])).value == [Dish(MaxId(ds) + 1, "a", NaN, "hot", DefaultDishImage)]
  {
    var d := Draft(Some("a"), Null, Some("hot"), None);
    assert ValidDrafts([d]) == [d] by {
      assert [d][1..] == [];
    }
    TrimOfTrimmed("a");
  }

  /** An empty-string price parsed as `parseFloat` parses it: refused by `addDish`, yet
      imported and stored with a NaN price. */
  lemma ImportEmptyPriceStoresNaN(ds: seq<Dish>, price: Raw)
    requires price.Text? && price.s == "" && ParsesSoundly(price)
    ensures var d := Draft(Some("a"), price, Some("hot"), None);
      && !ValidForAdd(d)
      && ImportOutcome(ds, Items([d])).Some?
      && ImportOutcome(ds, Items([d])).value == [Dish(MaxId(ds) + 1, "a", NaN, "hot", DefaultDishImage)]
  {
    var d := Draft(Some("a"), price, Some("hot"), None);
    assert ValidDrafts([d]) == [d] by {
      assert [d][1..] == [];
    }
    TrimOfTrimmed("a");
  }

  /** A dish as it reads back from an exported JSON document. */
  function ExportedDraft(d: Dish): Draft {
    Draft(Some(d.name), JsonNumber(d.price), Some(d.category), Some(d.image))
  }

  /** The export document of a list, with its time stamp supplied by the caller. */
  function Exported(ds: seq<Dish>, exportTime: string): (r: ExportedCatalog)
    ensures r.version == ExportVersion && r.exportTime == exportTime && r.dishes == ds
  {
    ExportedCatalog(ExportVersion, exportTime, ds)
  }

  /** The records of an export document as they read back from its JSON text. */
  function ExportedDrafts(e: ExportedCatalog): (rs: seq<Draft>)
    ensures |rs| == |e.dishes|
  {
    seq(|e.dishes|, i requires 0 <= i < |e.dishes| => ExportedDraft(e.dishes[i]))
  }

  /** A record that comes back from an export unchanged: its name is non-empty and
      trimmed, its category non-empty and its image present. */
  predicate Reimportable(d: Dish) {
    d.name != "" && Trim(d.name) == d.name && d.category != "" && d.image != ""
  }

  /** One exported record passes the import check and is rebuilt as it was. */
  lemma ExportedDraftRebuilds(d: Dish, id: int)
    requires Reimportable(d)
    ensures ValidForImport(ExportedDraft(d))
    ensures BuildDish(ExportedDraft(d), id) == d.(id := id)
  {
    var e := ExportedDraft(d);
    assert ParseFloat(e.price) == d.price;
    assert StrOr(e.image, DefaultDishImage) == d.image;
  }

  /** Renumbering the records read back from an export rebuilds each dish under its
      new id. */
  lemma RekeyExported(drafts: seq<Draft>, ds: seq<Dish>, base: int)
    requires |drafts| == |ds|
    requires forall i :: 0 <= i < |ds| ==> drafts[i] == ExportedDraft(ds[i]) && Reimportable(ds[i])
    requires forall i :: 0 <= i < |drafts| ==> ValidForImport(drafts[i])
    ensures |Rekey(drafts, base)| == |ds|
    ensures forall i :: 0 <= i < |ds| ==> Rekey(drafts, base)[i] == ds[i].(id := base + i + 1)
  {
    RekeyFacts(drafts, base);
    forall i | 0 <= i < |ds| ensures Rekey(drafts, base)[i] == ds[i].(id := base + i + 1) {
      ExportedDraftRebuilds(ds[i], base + i + 1);
    }
  }

  /** Importing the dishes of an export brings back every record with its name, price,
      category and image, in order and renumbered above the current maximum. */
  lemma ExportImportRoundTrip(current: seq<Dish>, ds: seq<Dish>, exportTime: string)
    requires ds != []
    requires forall i :: 0 <= i < |ds| ==> Reimportable(ds[i])
    ensures var r := ImportOutcome(current, Items(ExportedDrafts(Exported(ds, exportTime))));
      && r.Some?
      && |r.value| == |ds|
      && forall i :: 0 <= i < |ds| ==> r.value[i] == ds[i].(id := MaxId(current) + i + 1)
  {
    var drafts := ExportedDrafts(Exported(ds, exportTime));
    forall i | 0 <= i < |ds| ensures drafts[i] == ExportedDraft(ds[i]) && ValidForImport(drafts[i]) {
      ExportedDraftRebuilds(ds[i], 0);
    }
    AllValidKept(drafts);
    assert ImportOutcome(current, Items(drafts)) == Some(Rekey(drafts, MaxId(current)));
    RekeyExported(drafts, ds, MaxId(current));
  }

  /** When every record passes the import check the filter keeps them all. */
  lemma {:induction false} AllValidKept(rs: seq<Draft>)
    requires forall i :: 0 <= i < |rs| ==> ValidForImport(rs[i])
    ensures ValidDrafts(rs) == rs
  {
    if rs != [] {
      AllValidKept(rs[1..]);
    }
  }

  // ---------------------------------------------------------------- any sequence of operations

  /** An operation of `DishDataManager` that changes the list. */
  datatype Op = Add(draft: Draft) | Update(id: int, patch: Patch) | Delete(id: int)
              | Import(input: Imported) | Clear

  /** The list after one operation. */
  function Step(ds: seq<Dish>, op: Op): seq<Dish> {
    match op
    case Add(d) => Added(ds, d)
    case Update(id, p) => Updated(ds, id, p)
    case Delete(id) => WithoutId(ds, id)
    case Import(input) => (match ImportOutcome(ds, input) case Some(r) => r case None => ds)
    case Clear => DefaultDishes
  }

  /** The list after a sequence of operations, applied in order. */
  function Run(ds: seq<Dish>, ops: seq<Op>): seq<Dish>
    decreases |ops|
  {
    if ops == [] then ds else Run(Step(ds, ops[0]), ops[1..])
  }

  /** Every operation keeps the ids pairwise distinct. */
  lemma StepKeepsDistinct(ds: seq<Dish>, op: Op)
    requires DistinctIds(ds)
    ensures DistinctIds(Step(ds, op))
  {
    match op
    case Add(d) =>
      AddKeepsDistinct(ds, d);
    case Update(id, p) =>
    case Delete(id) =>
      WithoutIdKeepsDistinct(ds, id);
    case Import(input) =>
      if ImportOutcome(ds, input).Some? {
        ImportRenumbers(ds, input);
      }
    case Clear =>
      DefaultsWellFormed();
  }

  /** The ids stay pairwise distinct across any sequence of operations. */
  lemma {:induction false} RunKeepsDistinct(ds: seq<Dish>, ops: seq<Op>)
    requires DistinctIds(ds)
    ensures DistinctIds(Run(ds, ops))
    decreases |ops|
  {
    if ops != [] {
      StepKeepsDistinct(ds, ops[0]);
      RunKeepsDistinct(Step(ds, ops[0]), ops[1..]);
    }
  }
}
