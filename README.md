# Restaurant self-ordering widget: dish catalog and quantity panel

This project models two parts of a browser-resident restaurant ordering page in Dafny.

`DishDataManager` (dishData.js) owns the dish catalog: a list of records
`{id, name, price, category, image}` persisted in `localStorage`. It adds a dish under the id
`max(id) + 1`, updates a dish by id with the id re-pinned, deletes by id and cleans up that
id's quantity entry, filters by category and looks up by id. It also bulk-imports records under
fresh ids, resets to six built-in dishes and exports. Its load step repairs older stored
formats: a missing image gets the placeholder and a price that does not parse becomes 0.

The quantity panel (script.js) is a small state machine. Each dish has a count, a minus
button that may be disabled, and a unit price, and the page shows one total. The plus and
minus handlers change one dish and recompute the total. Submit resets everything, unless the
total is zero.

Modules, one per concern:

- `JsValues` (js_values.dfy) covers the JavaScript values the catalog code relies on. Numbers
  may be NaN (`Num = NaN | Cents(c)`, with prices in integer cents). A price argument may be
  `undefined`, `null`, a number or a string. The module also defines truthiness as `!x` and
  `x || y` test it, `parseFloat`, `parseFloat(x) || 0`, JSON's writing of NaN as `null`, and
  `trim`.
- `Catalog` (catalog.dfy) holds the catalog as a value. It defines the record types, the id
  policy (`MaxId`, `NextId`, `IndexOfId`), the three filters, the load repair and the save
  encoding. It has one function per operation giving the list that operation leaves behind
  (`Added`, `Updated`, `WithoutId`, `ImportOutcome`, `DefaultDishes`). The lemmas prove what
  these keep, up to distinct ids across any sequence of operations (`RunKeepsDistinct`).
- `DishData` (dish_data_manager.dfy) holds the class `DishDataManager`. Its field `dishes` is
  changed in place by methods proved against the `Catalog` functions. `LocalStorage` is a class
  whose fields are the four keys the manager touches. Each write is fallible: whether the host
  accepts it is an argument of the method that makes it. A refused write leaves the key as it
  was, and the in-memory list is not rolled back.
- `OrderCounter` (order_counter.dfy) holds the class `OrderPanel`, which has arrays of counts
  and of minus-button flags, a fixed sequence of prices, and the shown total. `Valid()` says
  that counts are not negative, that a minus button is disabled exactly when its count is 0,
  and that the total shown is the sum of count × price. Each handler keeps `Valid()`.

Behaviours of the code that a reader might not expect, each modelled as written:

- New ids are `max(id) + 1`, so after the dish with the largest id is deleted the next add
  reuses that id (`Catalog.DeletedMaxIdIsReused`).
- `deleteDish` ignores the result of `saveToStorage` and attempts the quantity cleanup even
  when the catalog write was refused (`DishData.DishDataManager.DeleteDish`).
- The submit handler of script.js clears the quantities (`OrderCounter.OrderPanel.Submit`).
- `addDish` and `importDishes` test the name before trimming it, so a name of white space
  alone is stored as "" (`Catalog.BlankNameIsStoredEmpty`).
- The import check only asks that the price is not `undefined`, so a `null`, NaN, empty
  or unparsable price is imported and stored as NaN (`Catalog.ImportNullPriceStoresNaN`,
  `Catalog.ImportEmptyPriceStoresNaN`), and a later load turns it into 0.

## Model

| member | source | states |
|---|---|---|
| `JsValues.ParseFloat` | dishData.js:109 | a number parses to itself, a string to the number it carries, `undefined` and `null` to NaN |
| `JsValues.NumberOrZero` | dishData.js:38 | the load-time price repair is always finite: the parsed amount, or 0 where parsing gives NaN |
| `JsValues.StrOr` | dishData.js:37 | the image default is `s` when it is a non-empty string and the fallback when it is missing or empty |
| `JsValues.JsonNumber` | dishData.js:51 | the stored form of a price parses back to the same number, NaN included (written as `null`) |
| `JsValues.Truthy` | dishData.js:95 | a definition, the truthiness `!dishData.price` tests; `JsValues.FalsyPrices` lists its falsy values |
| `JsValues.StrTruthy` | dishData.js:95 | a definition, the truthiness of a name or category: present and not "" |
| `JsValues.FalsyPrices` | dishData.js:95 | a price value is falsy exactly when it is `undefined`, `null`, NaN, 0 or "" (the definition `JsValues.Truthy` that `!x` tests) |
| `JsValues.Trim` | dishData.js:108 | the result is the input with a run of leading and a run of trailing white space removed, and neither starts nor ends with white space |
| `JsValues.TrimOfTrimmed` | dishData.js:108 | a string without surrounding white space is its own trim |
| `JsValues.TrimIdempotent` | dishData.js:108 | trimming twice equals trimming once |
| `JsValues.BlankTrimsToEmpty` | dishData.js:95-108 | a name of white space alone passes the truthiness test yet trims to "" |
| `Catalog.MaxId` | dishData.js:100-102 | 0 for the empty list; otherwise an id present in the list that no id exceeds |
| `Catalog.NextId` | dishData.js:99-103 | the new id exceeds every id in the list, is 1 for an empty list, and is one above an id present otherwise |
| `Catalog.IndexOfId` | dishData.js:128 | -1 exactly when no dish has the id; otherwise the first index holding it |
| `Catalog.InCategory` | dishData.js:75 | a dish is in the result iff it is in the list and has that category |
| `Catalog.InCategoryConcat` | dishData.js:75 | the category filter distributes over concatenation, so it keeps the input order |
| `Catalog.UnknownCategoryIsEmpty` | dishData.js:73-76 | a category no dish has yields the empty list, not an error |
| `Catalog.WithoutId` | dishData.js:150-152 | exactly the dishes without the id remain; the list got shorter iff some dish had the id; no match leaves it equal |
| `Catalog.WithoutIdConcat` | dishData.js:150 | removal by id distributes over concatenation, so the remaining dishes keep their order |
| `Catalog.WithoutIdKeepsDistinct` | dishData.js:150 | removal by id keeps the ids pairwise distinct |
| `Catalog.Merge` | dishData.js:132-136 | each field the patch carries replaces the record's, the others are kept, and the id is the looked-up one even if the patch names another |
| `Catalog.ValidForAdd` | dishData.js:95 | a definition, the add check; `Catalog.AddRefusesIncomplete` and `Catalog.ChecksPart` state its consequences |
| `Catalog.ValidForImport` | dishData.js:191-193 | a definition, the import check; `Catalog.ValidDrafts` and `Catalog.ChecksPart` state its consequences |
| `Catalog.BuildDish` | dishData.js:106-112 | the record built from a validated draft has the given id, the trimmed name, the category, the parsed price, and the draft's image when it is a non-empty string or else the placeholder |
| `Catalog.ChecksPart` | dishData.js:95 | whatever the add check (`Catalog.ValidForAdd`) accepts, the import check of line 192 (`Catalog.ValidForImport`) accepts; with a truthy name and category the two part exactly on a price that is defined but falsy |
| `Catalog.ValidDrafts` | dishData.js:191-193 | a record is kept iff it has a truthy name and category and a price that is not `undefined` |
| `Catalog.ValidDraftsConcat` | dishData.js:191-193 | the import filter keeps the input order |
| `Catalog.AllValidKept` | dishData.js:191-193 | when every record passes the check the filter keeps them all |
| `Catalog.Rekey` | dishData.js:202-208 | one rebuilt record per valid input record (a definition; the fields of each are stated by `Catalog.RekeyFacts`) |
| `Catalog.RekeyFacts` | dishData.js:202-208 | the rebuilt records carry ids base+1, base+2, … in order, strictly increasing and distinct, with each input's trimmed name, category, parsed price (NaN for `null`) and image or the placeholder |
| `Catalog.LoadRecord` | dishData.js:35-39 | one stored record repaired: same id, name and category; a price that parses is kept and a NaN becomes 0; a non-empty image is kept and a missing or empty one becomes the placeholder |
| `Catalog.Loaded` | dishData.js:28-44 | missing or unreadable storage gives the six built-in dishes; otherwise one record per stored one, with the same id, name and category; a price that parses is kept and a NaN one becomes 0; a non-empty image is kept and a missing or empty one becomes the placeholder |
| `Catalog.Encode` | dishData.js:51 | the save writes one stored record per dish |
| `Catalog.LoadAfterSave` | dishData.js:28-51 | saving then loading returns every record, except a NaN price comes back as 0 and an empty image as the placeholder |
| `Catalog.SaveLoadRoundTrip` | dishData.js:28-51 | a list with no NaN price and no empty image survives a save and a load unchanged |
| `Catalog.LoadedDistinct` | dishData.js:35-39 | loaded ids are distinct exactly when the stored ids were |
| `Catalog.DefaultsWellFormed` | dishData.js:11-18 | the built-in dishes have the ids 1 to 6 in order, pairwise distinct, maximum 6 |
| `Catalog.Updated` | dishData.js:127-141 | the length and every id are unchanged; an absent id changes nothing; otherwise only the first index with the id is replaced, by the merged record |
| `Catalog.AddAppendsFreshDish` | dishData.js:99-115 | an accepted draft is appended as the single new last record (the list `Catalog.Added` defines); earlier records are unchanged; its id is max+1 (1 on an empty list) and above every old id; its name is trimmed, its price parsed, its category kept; a non-empty image is kept and a missing or empty one becomes the placeholder |
| `Catalog.Added` | dishData.js:93-118 | a definition, the list `addDish` leaves; stated by `Catalog.AddAppendsFreshDish` and `Catalog.AddRefusesIncomplete` |
| `Catalog.AddKeepsDistinct` | dishData.js:99-115 | adding to a list with distinct ids keeps them distinct |
| `Catalog.AddRefusesIncomplete` | dishData.js:95-97 | a falsy name, price or category leaves the list unchanged |
| `Catalog.ZeroPriceRule` | dishData.js:95 | a price of 0 fails the add check but passes the import check of line 192 |
| `Catalog.ImportEmptyPriceStoresNaN` | dishData.js:191-208 | a record whose price is "" is refused by the add check, yet an import of it succeeds and stores it with a NaN price |
| `Catalog.ImportNullPriceStoresNaN` | dishData.js:191-208 | a record with a `null` price is refused by the add check, yet an import of it succeeds and stores it with a NaN price |
| `Catalog.BlankNameIsStoredEmpty` | dishData.js:95-108 | a whitespace-only name passes the add check and the appended record's name is "" |
| `Catalog.DeletedMaxIdIsReused` | dishData.js:99-103 | with dishes 1, 2, 3, deleting 3 and then adding gives the new dish id 3 again |
| `Catalog.ImportRefusal` | dishData.js:187-195 | an import is refused iff the input is not an array or no record in it passes the check |
| `Catalog.ImportOutcome` | dishData.js:187-214 | a definition, the list `importDishes` leaves or its refusal; stated by `Catalog.ImportRefusal` and `Catalog.ImportRenumbers` |
| `Catalog.ImportRenumbers` | dishData.js:197-214 | a successful import (the list `Catalog.ImportOutcome` defines) yields the valid records in input order under ids MaxId+1, MaxId+2, …, increasing, distinct and above every previous id, each with its trimmed name, category, parsed price and image or the placeholder |
| `Catalog.ImportRefusesEmptyName` | dishData.js:191-195 | importing one record whose name is empty is refused |
| `Catalog.Exported` | dishData.js:221-227 | version "1.0", the given time stamp, and the list unchanged |
| `Catalog.ExportedDraft` | dishData.js:221-227 | a definition, an exported dish as its JSON reads back (NaN price as `null`); stated by `Catalog.ExportedDraftRebuilds` |
| `Catalog.ExportedDrafts` | dishData.js:221-227 | reading an export back gives one import record per exported dish |
| `Catalog.ExportedDraftRebuilds` | dishData.js:202-208 | an exported record with a non-empty trimmed name, a category and an image passes the import check and is rebuilt equal apart from its id |
| `Catalog.RekeyExported` | dishData.js:202-208 | renumbering the records read back from an export rebuilds each dish unchanged apart from its new id, provided every dish has a non-empty trimmed name, a non-empty category and a non-empty image |
| `Catalog.ExportImportRoundTrip` | dishData.js:187-227 | importing a non-empty export whose every dish has a non-empty trimmed name, a non-empty category and a non-empty image restores each record's name, price, category and image, in order, renumbered above the current maximum; outside these conditions the source differs (an empty export is refused, a blank name is dropped, a padded name comes back trimmed, an empty image comes back as the placeholder) |
| `Catalog.StepKeepsDistinct` | dishData.js:93-215 | add, update, delete, import and clear each keep the ids pairwise distinct |
| `Catalog.RunKeepsDistinct` | dishData.js:93-215 | the ids stay pairwise distinct across any sequence of those operations |
| `DishData.CountsAfterDelete` | dishData.js:157-163 | an unreadable value or a refused write leaves the key unchanged; otherwise the id's entry is gone and every other entry is kept (a missing key becomes `{}`) |
| `DishData.DishDataManager.DropCountsEntry` | dishData.js:157-163 | the quantity key becomes what `DishData.CountsAfterDelete` gives: unchanged when unreadable or when the write is refused, otherwise the map without the id's entry |
| `DishData.LocalStorage.constructor` | dishData.js:30 | the four keys the manager reads and writes start with the given contents |
| `DishData.DishDataManager.constructor` | dishData.js:3-22 | the list starts as what the load step reads from storage |
| `DishData.DishDataManager.SaveToStorage` | dishData.js:49-57 | reports whether the host accepted the write; an accepted write stores the encoded list and a refused one leaves the key unchanged |
| `DishData.DishDataManager.GetAllDishes` | dishData.js:64-66 | a copy equal to the whole list, element by element |
| `DishData.DishDataManager.GetDishesByCategory` | dishData.js:73-76 | "all" returns the whole list; any other category returns exactly its dishes, in list order |
| `DishData.DishDataManager.GetDishById` | dishData.js:83-86 | a dish iff some dish has the id, and then the first such dish; otherwise null |
| `DishData.DishDataManager.AddDish` | dishData.js:93-119 | a failed check throws the validation error and changes nothing; otherwise the draft is appended under max+1, that id (above every old id) is returned, the save is attempted and the push stays even if the save is refused; distinct ids stay distinct |
| `DishData.DishDataManager.UpdateDish` | dishData.js:127-141 | false and nothing written iff no dish has the id; otherwise the list becomes `Updated` (one index replaced, same length and ids) and the save is attempted (a refused write leaves the key) |
| `DishData.DishDataManager.DeleteDish` | dishData.js:148-167 | true iff some dish had the id; the list becomes the old one with that id filtered out; only on a deletion are the catalog save and the quantity cleanup attempted, and the cleanup does not depend on the save |
| `DishData.DishDataManager.ClearAllDishes` | dishData.js:172-180 | the list is the built-in dishes, the save is attempted, and the quantity, active-tab and order-state keys are removed |
| `DishData.DishDataManager.ImportDishes` | dishData.js:187-215 | false with nothing changed iff the import is refused; otherwise the list becomes the renumbered valid records, with distinct ids above every old id, and the save is attempted (a refused write leaves the key) |
| `DishData.DishDataManager.ExportDishes` | dishData.js:221-227 | version "1.0", the caller's time stamp, and a copy of the whole list |
| `OrderCounter.OrderTotal` | script.js:45-53 | a definition, the running sum of count × price; its properties are stated by the three lemmas below |
| `OrderCounter.OrderTotalUpdate` | script.js:45-53 | setting one count to v moves the total by (v − old count) × that dish's price |
| `OrderCounter.OrderTotalOfZeros` | script.js:64-71 | with all counts 0 the total is 0 |
| `OrderCounter.ZeroTotalIffNothingOrdered` | script.js:57-59 | with positive prices and non-negative counts the total is non-negative, and 0 exactly when nothing is ordered |
| `OrderCounter.TotalExample` | script.js:45-53 | 2 × 88.00 + 1 × 38.00 = 214.00 |
| `OrderCounter.OrderPanel.constructor` | script.js:11-18 | counts and total are what the page shows and every minus button starts disabled; with all counts and the total at 0 the invariant holds |
| `OrderCounter.OrderPanel.SumTotal` | script.js:46-51 | the loop computes the sum of count × price over all dishes |
| `OrderCounter.OrderPanel.CalculateTotal` | script.js:45-54 | the shown total becomes the sum of count × price |
| `OrderCounter.OrderPanel.Plus` | script.js:21-27 | only that dish's count goes up by 1, only its minus button is enabled, the total is recomputed (old total + price in a valid state), and the invariant is kept |
| `OrderCounter.OrderPanel.Minus` | script.js:30-41 | a count of 0 or below changes nothing; otherwise only that count goes down by 1, its button is disabled when it reaches 0, the total drops by the price, and the invariant is kept |
| `OrderCounter.OrderPanel.Submit` | script.js:57-73 | accepted iff the shown total is not 0; a refused submit changes nothing; an accepted one sets every count to 0, disables every minus button and shows 0, which satisfies the invariant |

## Left out

- The browser interfaces are not modelled: `alert`, `console.error`, `window.dishManager` and
  the DOM plumbing of script.js (selectors, `textContent`, listener registration).
  `localStorage` is a class whose fields are the four keys. `JSON.stringify`/`JSON.parse` are
  replaced by record datatypes, and a stored value that does not parse is the `Corrupt` case.
- `Catalog.NextId`: ids are unbounded integers. In the source they are JavaScript numbers,
  exact only below 2^53, so with a stored id of 2^53 or more `maxId + 1` (and, on import,
  `maxId + index + 1`) can repeat an existing id. The model does not capture this, and its
  distinct-id results (`Catalog.RunKeepsDistinct`, `AddDish`, `ImportDishes`) hold only for
  ids in the exact range.
- `JsValues.Raw`: a string price carries the number it parses to, constrained only by
  `JsValues.ParsesSoundly` (the empty string parses to NaN) where a lemma needs it; the
  datatype itself does not impose that constraint.
- Floating point is not modelled. Prices and totals are integer cents, so rounding effects
  such as 0.1 + 0.2 are not captured. How `parseFloat` reads decimal text is not modelled: a
  string price carries the number it parses to. `parseInt` of a count or an id is the
  identity on integers, and ids are never passed as strings.
- Name and category values are strings or missing. A truthy non-string name, which makes
  `trim` throw a TypeError, is not modelled. Neither is an import array holding non-objects.
- A patch field explicitly set to `undefined`, and fields other than the five record fields,
  are not modelled (in the stored data or in a patch). The object spread would copy them.
- A patch is typed: its price is a number or absent. `updateDish` spreads whatever the
  caller passes, so a string price in a patch stays a string in the list until the next
  load parses it. That case is not modelled.
- A stored record always has a name and a category. A stored record that lacks one, which
  the spread in `loadFromStorage` would carry over as missing, is not modelled.
- `getAllDishes` and `getDishesByCategory` return new arrays that share their record objects
  with the manager. These are value semantics, so that aliasing is not captured.
- `JsValues.Trim` treats only ASCII white space, the no-break space and the byte-order mark
  as white space. The model does not include the other Unicode space separators that `trim`
  also removes.
- `exportDishes` gets its time stamp `new Date().toLocaleString()` as a parameter, because it
  depends on the clock and the locale.
- `Math.max(...ids)` can throw a RangeError on a huge list. That is not modelled.
- The initial counts and the initial total of the quantity panel come from the page's markup,
  which is not part of this model. The constructor takes them as arguments.
- Image cropping and upload, order snapshots with expiry, and the persisted active category
  are not in these source files. They appear only as the keys `clearAllDishes` removes.
