# Restaurant menu: data layer and page derivations

This project models the menu data layer of a small restaurant website and proves properties of it.

- **`MenuRoute`** models the `/api/menu` route.
  - The menu file `menu.json` is a document with a `menuItems` list and a *rest*: the category list plus any other top-level keys.
  - `readMenuData` reads the items. It gives an empty menu when the file cannot be read or has no `menuItems`.
  - `writeMenuData` re-reads the document, replaces only `menuItems` and writes it back.
  - The list handler (GET) has an optional category filter, then an optional featured filter, and a `total`.
  - The create handler (POST) checks the required fields by JavaScript truthiness. It assigns `max(ids, 0) + 1`, applies the `image`/`featured` defaults, appends the item and persists it.
  - The file is a class `MenuFile`. Its field `stored` holds the parsed document, or `None` when the file is missing or unreadable. A parsed document is either a JSON object or a JSON array. A top-level `null`, number, string or boolean behaves like an unreadable file: its read gives `[]` and its write throws. Its field `writable` says whether the disk accepts a write. The handlers are methods on this class.
- **`MenuPage`** models the public menu page's list computations.
  - Categories are derived from the loaded items: `Array.from(new Set(...))`, then named from a fixed table or by the id itself, then described.
  - The `all`/category filter.
  - The item counts on the filter buttons.
  - The category lookups behind the labels.
- **`HomePage`** models the home page's first three featured items.
- **`MenuData`** holds the records both sides share and the `categories.find(...)` lookup.
- **`ArrayOps`** models the JavaScript built-ins this code relies on (`filter`, `find`, set-based de-duplication, `Math.max`) as functions over sequences, each with a contract that states its result in terms of its input.

Behaviour of the code worth noting:
- Create validation uses truthiness, not presence. A price of `0` or `""` is rejected, and an empty `image` gets the placeholder.
- Writing back what was read is not always a no-op. When the file has no `menuItems` key, the write adds an empty list (`RewriteAddsEmptyList`).
- POST also answers 500 when the file cannot be read. `readMenuData` then yields an empty menu, and the re-read inside `writeMenuData` fails.
- A file holding a JSON array reads as an empty menu. POST then reports success, but nothing is saved: `data.menuItems = ...` sets a property of the array that `JSON.stringify` drops, so the array is written back unchanged (`ArrayFileIgnoresWrite`).

## Model

| member | source | states |
|---|---|---|
| ArrayOps.Filter | src/app/api/menu/route.ts:56 | `filter` keeps only elements that satisfy the predicate, keeps every element that does, in their original order (an order-preserving subsequence), and never lengthens its input |
| ArrayOps.FilterCounts | src/app/api/menu/route.ts:56 | each value occurs in a filter's result exactly as often as in the input when it satisfies the predicate, and not at all otherwise |
| ArrayOps.FilterThenFilter | src/app/api/menu/route.ts:52-62 | two filters applied in a row equal one filter by the conjunction of their predicates |
| ArrayOps.FilterCommutes | src/app/api/menu/route.ts:55-61 | the order in which two filters are applied does not change the result |
| ArrayOps.Find | src/app/menu/page.tsx:186 | `find` is absent exactly when no element matches; otherwise it is a matching element with no match before it |
| ArrayOps.Dedupe | src/app/menu/page.tsx:41-43 | `Array.from(new Set(s))` has no duplicates and holds exactly the elements of `s` |
| ArrayOps.DedupeFirstAppearanceOrder | src/app/menu/page.tsx:41-43 | the de-duplicated list is ordered by each element's first appearance in the input |
| ArrayOps.Max | src/app/api/menu/route.ts:94 | `Math.max` of a non-empty list is one of its arguments and at least every argument |
| MenuRoute.ItemsOf | src/app/api/menu/route.ts:22 | what a read sees is the stored object's `menuItems` whenever it has one; a non-empty read always comes from such a list, so every other case reads as `[]` |
| MenuRoute.WithItems | src/app/api/menu/route.ts:35-36 | setting `menuItems` keeps an object an object, with `menuItems` set to the written items and every other key unchanged; an array is written back as it was |
| MenuRoute.UnreadableStoreReadsEmpty | src/app/api/menu/route.ts:18-27 | a missing or unreadable file, a JSON array, or an object without `menuItems` reads as the empty menu |
| MenuRoute.MenuFile.ReadMenuData | src/app/api/menu/route.ts:18-27 | returns the stored object's `menuItems`, or `[]` when the file is unreadable, holds an array or lacks `menuItems`; never fails and changes nothing |
| MenuRoute.ReadAfterWrite | src/app/api/menu/route.ts:33-36 | on an object, after replacing `menuItems`, a read sees exactly the written items, and the categories and every other key are unchanged |
| MenuRoute.ArrayFileIgnoresWrite | src/app/api/menu/route.ts:33-36 | on a JSON array, the write leaves the document unchanged, so a later read still gives `[]` and the written items are lost |
| MenuRoute.RewriteIsNoOp | src/app/api/menu/route.ts:33-36 | writing back the items just read leaves an array, or an object that has a `menuItems` list, unchanged |
| MenuRoute.RewriteAddsEmptyList | src/app/api/menu/route.ts:22 | on a document without `menuItems`, writing back what was read adds an empty `menuItems` list, so the round trip is not a no-op |
| MenuRoute.MenuFile.WriteMenuData | src/app/api/menu/route.ts:30-42 | succeeds exactly when the re-read and the write both succeed; then an object has only `menuItems` replaced and an array is left as it was; on failure the stored document is unchanged |
| MenuRoute.StepwiseFiltering | src/app/api/menu/route.ts:52-62 | narrowing `filteredItems` first by category and then by `featured`, each only when switched on, gives exactly the items that pass every active filter |
| MenuRoute.ListingIsExact | src/app/api/menu/route.ts:52-62 | the listing is an order-preserving subsequence of the items; every listed item meets every active filter; each item meeting them is listed as many times as it occurs in the menu, and no other item is listed |
| MenuRoute.NoFilterListsAll | src/app/api/menu/route.ts:55-60 | a category that is absent, empty or `all`, together with a `featured` other than the text `true`, lists every item unfiltered |
| MenuRoute.FiltersCommute | src/app/api/menu/route.ts:55-62 | the category filter and the featured filter commute |
| MenuRoute.MenuFile.Get | src/app/api/menu/route.ts:45-68 | GET's `data` is the stored items that pass both active filters, and `total` is its length |
| MenuRoute.HasRequiredFields | src/app/api/menu/route.ts:84 | the required fields pass exactly when name, description and category are present and non-empty and the price is truthy; an absent field, a price of `0` or a price of `""` fails |
| MenuRoute.NextId | src/app/api/menu/route.ts:94 | the new id is at least 1, greater than every existing id, 1 on an empty menu, and otherwise one more than the larger of 0 and the largest id |
| MenuRoute.NewItem | src/app/api/menu/route.ts:96-104 | the new item carries the assigned id and the request's name, description, price and category, which are non-empty; its image is the request's image when that is truthy and the placeholder otherwise; featured is true exactly when `true` was given |
| MenuRoute.CreateKeepsIdsUnique | src/app/api/menu/route.ts:94-106 | appending the created item to a menu with unique ids keeps the ids unique |
| MenuRoute.NewIdNamesOneItem | src/app/api/menu/route.ts:94-106 | after the append, the new id names exactly one item, the appended one |
| MenuRoute.MenuFile.Post | src/app/api/menu/route.ts:78-119 | missing or falsy required fields give 400 with the file untouched; otherwise the answer is the success envelope and an object file holds the old items followed by the one new item (the rest of the document unchanged), while an array file is left as it was; when the file cannot be read or written, the answer is 500 with the file unchanged |
| MenuData.FindCategory | src/app/menu/page.tsx:186 | the lookup is absent exactly when no category has the id; otherwise it is the first category with that id |
| MenuData.CategoryLabel | src/app/page.tsx:129 | the label is the name of the first category with a matching id, or is absent when no category matches |
| MenuData.CategoryDescription | src/app/menu/page.tsx:189 | the heading's description is that of the first category with a matching id, or is absent when none matches |
| MenuData.LabelOfDistinctIds | src/app/menu/page.tsx:186 | in a category list with distinct ids, the lookup of a listed id gives the name and description listed with it |
| MenuPage.DisplayName | src/app/menu/page.tsx:44-53 | the four known ids get their fixed Turkish names; any other id is shown as itself |
| MenuPage.DeriveCategories | src/app/menu/page.tsx:41-56 | one category per de-duplicated item category, in that order, named by `DisplayName` and described as the name followed by " kategorisindeki lezzetlerimiz" |
| MenuPage.DerivedIdsDistinct | src/app/menu/page.tsx:41-43 | no two derived categories share an id |
| MenuPage.DerivedIdsAreUsed | src/app/menu/page.tsx:41-43 | every derived category id is the category of some item |
| MenuPage.ItemCategoriesAreDerived | src/app/menu/page.tsx:41-43 | every item's category is among the derived category ids |
| MenuPage.DerivedInFirstAppearanceOrder | src/app/menu/page.tsx:41-43 | derived categories are ordered by their first use in the items |
| MenuPage.FilteredItems | src/app/menu/page.tsx:73-75 | `all` shows the items as they are; any other selection shows only items of that category, and every item of it as many times as it occurs in the menu |
| MenuPage.ItemCount | src/app/menu/page.tsx:161 | a button's count never exceeds the number of items, and it is 0 exactly when no item belongs to that category |
| MenuPage.FilteredItemsExact | src/app/menu/page.tsx:73-75 | `all` shows every item; any other selection shows, in order, only items of that category, each as many times as it occurs in the menu |
| MenuPage.DerivedCountsPositive | src/app/menu/page.tsx:161 | every derived category's button count is at least 1 |
| MenuPage.CountCons | src/app/menu/page.tsx:161 | putting one item in front of the menu raises a category's count by one exactly when the item belongs to it, and leaves it unchanged otherwise |
| MenuPage.ItemCountIsOccurrences | src/app/menu/page.tsx:161 | a button's count equals the number of items whose category is that id |
| MenuPage.CountsPartition | src/app/menu/page.tsx:161 | over distinct ids that cover every item's category, the per-category counts add up to the number of items |
| MenuPage.CountsSumToTotal | src/app/menu/page.tsx:158-161 | the counts on the category buttons add up to the count on the `all` button |
| MenuPage.LabelOfUsedCategory | src/app/menu/page.tsx:186-189 | looking up a category some item uses in the derived categories gives its display name and its description; item cards (line 215) use the same lookup, so each card is labelled with its category's display name |
| MenuPage.HeadingOfUnusedCategory | src/app/menu/page.tsx:183-190 | a selection that no item uses finds no category, so the heading shows neither a name nor a description |
| HomePage.FeaturedItems | src/app/page.tsx:6 | at most three items, all of them featured |
| HomePage.FeaturedItemsShape | src/app/page.tsx:6 | as many featured items as exist, up to three, as an order-preserving subsequence of the menu |
| HomePage.EarlyFeaturedItemIsShown | src/app/page.tsx:6 | a featured item with fewer than three featured items before it is shown, at the position given by how many featured items precede it |

## Left out

- File I/O, `JSON.parse`/`JSON.stringify` and the pretty-printing of the file are not modelled. The file is an abstract document that is either readable or not, and a disk that either accepts a write or not.
- A write that fails part-way is not modelled. In the model, a failed write leaves the file as it was.
- Concurrent requests are not modelled. The file has no locking and the last writer wins.
- `NewItem`: the price is copied through as given. `parseFloat` and floating-point prices are not modelled, so a text price such as `"15"` stays text. Only the price's truthiness is modelled, and a `NaN` price cannot be expressed.
- `CreateRequest` types each body field as its intended JSON type. A name sent as a number, or `featured` sent as a string, is not modelled. Absent and `null` fields are the same `None`.
- Ids are unbounded integers. Floating-point ids, and the argument-count limit of `Math.max(...ids)` on huge menus, are not modelled.
- Next.js request and response objects, URL parsing and `request.json()` failures are not modelled. Only the response envelopes remain, as datatypes.
- The catch-all 500 answers of GET and POST are not modelled. No modelled step throws, so in the model GET's catch is unreachable.
- Reading a single item, updating it and deleting it happen in the `[id]` route. That route is not part of this model.
- React state, `fetch`, rendering, styling and navigation are not modelled. This covers the admin page, the contact form and the layout.
- On the menu page, the items are taken as a parameter. In the source they are the `data` of an unfiltered GET.
- On the home page, the items and categories are taken as parameters. In the source they are the contents of `menu.json` imported when the site is built.
- `DisplayName`: the name table is a plain map. JavaScript would also find inherited object keys such as `constructor` in it, and that is not modelled.
- Logging is not modelled. The `console.error` calls in the catch blocks of `readMenuData` and `writeMenuData` have no effect in the model.
