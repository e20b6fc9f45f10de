/**
 * The list computations of the public menu page (`/menu`): the categories
 * derived from the loaded items, the category filter, the per-category item
 * counts on the filter buttons and the category labels.
 */
module MenuPage {
  import opened ArrayOps
  import opened MenuData

  /** The selection that shows every item. */
  const ALL: string := "all"

  const DESCRIPTION_SUFFIX: string := " kategorisindeki lezzetlerimiz"

  /** The fixed display names the page knows. */
  const CATEGORY_NAMES: map<string, string> := map[
    "kahvalti" := "Kahvaltı",
    "ogle-yemekleri" := "Öğle Yemekleri",
    "tatlilar" := "Tatlılar",
    "icecekler" := "İçecekler"]

  /** `categoryNames[categoryId] || categoryId` */
  function DisplayName(id: string): (name: string)
    ensures id == "kahvalti" ==> name == "Kahvaltı"
    ensures id == "ogle-yemekleri" ==> name == "Öğle Yemekleri"
    ensures id == "tatlilar" ==> name == "Tatlılar"
    ensures id == "icecekler" ==> name == "İçecekler"
    ensures id != "kahvalti" && id != "ogle-yemekleri" && id != "tatlilar" && id != "icecekler" ==> name == id
  {
    if id in CATEGORY_NAMES && CATEGORY_NAMES[id] != "" then CATEGORY_NAMES[id] else id
  }

  /** `result.data.map(item => item.category)` */
  function CategoriesOf(items: seq<MenuItem>): (ids: seq<string>)
    ensures |ids| == |items| && forall i :: 0 <= i < |items| ==> ids[i] == items[i].category
  {
    seq(|items|, i requires 0 <= i < |items| => items[i].category)
  }

  /** `Array.from(new Set(result.data.map(item => item.category)))` */
  function UniqueCategoryIds(items: seq<MenuItem>): seq<string>
  {
    Dedupe(CategoriesOf(items))
  }

  /**
   * `uniqueCategories`: one category per distinct item category, in order of
   * first appearance, named from the table (or by its id) and described by
   * its name followed by the fixed suffix.
   */
  function DeriveCategories(items: seq<MenuItem>): (cats: seq<Category>)
    ensures |cats| == |UniqueCategoryIds(items)|
    ensures forall i :: 0 <= i < |cats| ==>
              cats[i].id == UniqueCategoryIds(items)[i] &&
              cats[i].name == DisplayName(cats[i].id) &&
              cats[i].description == DisplayName(cats[i].id) + DESCRIPTION_SUFFIX
  {
    var ids := UniqueCategoryIds(items);
    seq(|ids|, i requires 0 <= i < |ids| =>
      Category(ids[i], DisplayName(ids[i]), DisplayName(ids[i]) + DESCRIPTION_SUFFIX))
  }

  /** `filteredItems`: every item for `all`, otherwise those of the selected category. */
  function FilteredItems(items: seq<MenuItem>, selected: string): (shown: seq<MenuItem>)
    ensures selected == ALL ==> shown == items
    ensures selected != ALL ==> forall i :: 0 <= i < |shown| ==> shown[i].category == selected
    ensures selected != ALL ==>
              forall item: MenuItem :: Occurrences(shown, item) ==
                if item.category == selected then Occurrences(items, item) else 0
  {
    if selected == ALL then
      items
    else
      FilterCounts(InCategory(selected), items);
      Filter(InCategory(selected), items)
  }

  /** `menuItems.filter(item => item.category === category.id).length` */
  function ItemCount(items: seq<MenuItem>, id: string): (n: nat)
    ensures n <= |items|
    ensures n == 0 <==> forall i :: 0 <= i < |items| ==> items[i].category != id
  {
    |Filter(InCategory(id), items)|
  }

  /** The counts on the buttons for the category ids `ids`, added up. */
  function SumCounts(items: seq<MenuItem>, ids: seq<string>): nat
  {
    if ids == [] then 0 else ItemCount(items, ids[0]) + SumCounts(items, ids[1..])
  }

  // ---------------------------------------------------------------------
  // Derived categories
  // ---------------------------------------------------------------------

  /** No two derived categories share an id. */
  lemma DerivedIdsDistinct(items: seq<MenuItem>)
    ensures forall i, j :: 0 <= i < j < |DeriveCategories(items)| ==>
              DeriveCategories(items)[i].id != DeriveCategories(items)[j].id
  {
  }

  /** Every derived id is the category of some item ... */
  lemma DerivedIdsAreUsed(items: seq<MenuItem>)
    ensures forall i :: 0 <= i < |DeriveCategories(items)| ==>
              exists j :: 0 <= j < |items| && items[j].category == DeriveCategories(items)[i].id
  {
    var cats, ids, names := DeriveCategories(items), UniqueCategoryIds(items), CategoriesOf(items);
    forall i | 0 <= i < |cats|
      ensures exists j :: 0 <= j < |items| && items[j].category == cats[i].id
    {
      assert ids[i] in names;
      var j :| 0 <= j < |names| && names[j] == ids[i];
      assert items[j].category == cats[i].id;
    }
  }

  /** ... and the category of every item is a derived id. */
  lemma ItemCategoriesAreDerived(items: seq<MenuItem>)
    ensures forall j :: 0 <= j < |items| ==>
              exists i :: 0 <= i < |DeriveCategories(items)| && DeriveCategories(items)[i].id == items[j].category
  {
    var cats, ids, names := DeriveCategories(items), UniqueCategoryIds(items), CategoriesOf(items);
    forall j | 0 <= j < |items|
      ensures exists i :: 0 <= i < |cats| && cats[i].id == items[j].category
    {
      assert names[j] in ids;
      var i :| 0 <= i < |ids| && ids[i] == names[j];
      assert cats[i].id == items[j].category;
    }
  }

  /** The derived categories come in the order in which the items first use them. */
  lemma DerivedInFirstAppearanceOrder(items: seq<MenuItem>, i: nat, j: nat)
    requires i < j < |DeriveCategories(items)|
    ensures DeriveCategories(items)[i].id in CategoriesOf(items)
    ensures DeriveCategories(items)[j].id in CategoriesOf(items)
    ensures FirstIndex(CategoriesOf(items), DeriveCategories(items)[i].id) <
            FirstIndex(CategoriesOf(items), DeriveCategories(items)[j].id)
  {
    DedupeFirstAppearanceOrder(CategoriesOf(items), i, j);
  }

  // ---------------------------------------------------------------------
  // Filtering
  // ---------------------------------------------------------------------

  /**
   * `all` shows the whole menu; any other selection shows, in order, exactly
   * the items of that category.
   */
  lemma FilteredItemsExact(items: seq<MenuItem>, selected: string)
    ensures selected == ALL ==> FilteredItems(items, selected) == items
    ensures IsSubsequence(FilteredItems(items, selected), items)
    ensures selected != ALL ==>
              (forall i :: 0 <= i < |FilteredItems(items, selected)| ==> FilteredItems(items, selected)[i].category == selected) &&
              (forall i :: 0 <= i < |items| && items[i].category == selected ==> items[i] in FilteredItems(items, selected))
    ensures selected != ALL ==>
              forall item: MenuItem :: Occurrences(FilteredItems(items, selected), item) ==
                if item.category == selected then Occurrences(items, item) else 0
  {
    if selected == ALL {
      SubsequenceOfItself(items);
    } else {
      FilterCounts(InCategory(selected), items);
    }
  }

  /** Every sequence is a subsequence of itself. */
  lemma {:induction false} SubsequenceOfItself<T>(s: seq<T>)
    ensures IsSubsequence(s, s)
  {
    if s != [] {
      SubsequenceOfItself(s[1..]);
    }
  }

  // ---------------------------------------------------------------------
  // Counts on the filter buttons
  // ---------------------------------------------------------------------

  /** Every derived category has at least one item. */
  lemma DerivedCountsPositive(items: seq<MenuItem>, k: nat)
    requires k < |DeriveCategories(items)|
    ensures ItemCount(items, DeriveCategories(items)[k].id) >= 1
  {
    DerivedIdsAreUsed(items);
    var id := DeriveCategories(items)[k].id;
    var j :| 0 <= j < |items| && items[j].category == id;
    assert items[j] in Filter(InCategory(id), items);
  }

  /** Taking one item off the front changes each count by whether it is in that category. */
  lemma CountCons(x: MenuItem, rest: seq<MenuItem>, id: string)
    ensures ItemCount([x] + rest, id) == (if x.category == id then 1 else 0) + ItemCount(rest, id)
  {
    assert ([x] + rest)[1..] == rest;
  }

  /** A button's count is the number of times its id occurs among the item categories. */
  lemma {:induction false} ItemCountIsOccurrences(items: seq<MenuItem>, id: string)
    ensures ItemCount(items, id) == Occurrences(CategoriesOf(items), id)
  {
    if items != [] {
      assert items == [items[0]] + items[1..];
      CountCons(items[0], items[1..], id);
      ItemCountIsOccurrences(items[1..], id);
      assert CategoriesOf(items)[1..] == CategoriesOf(items[1..]);
    }
  }

  /** Adding up over `ids`, one item contributes once per listing of its category. */
  lemma {:induction false} SumCountsCons(x: MenuItem, rest: seq<MenuItem>, ids: seq<string>)
    ensures SumCounts([x] + rest, ids) == Occurrences(ids, x.category) + SumCounts(rest, ids)
  {
    if ids != [] {
      CountCons(x, rest, ids[0]);
      SumCountsCons(x, rest, ids[1..]);
    }
  }

  /** Over an empty menu every sum of counts is zero. */
  lemma {:induction false} SumCountsOfNothing(ids: seq<string>)
    ensures SumCounts([], ids) == 0
  {
    if ids != [] {
      SumCountsOfNothing(ids[1..]);
    }
  }

  /**
   * When the ids are distinct and cover every item's category, the counts
   * partition the menu.
   */
  lemma {:induction false} CountsPartition(items: seq<MenuItem>, ids: seq<string>)
    requires NoDuplicates(ids)
    requires forall i :: 0 <= i < |items| ==> items[i].category in ids
    ensures SumCounts(items, ids) == |items|
  {
    if items == [] {
      SumCountsOfNothing(ids);
    } else {
      var x, rest := items[0], items[1..];
      assert items == [x] + rest;
      SumCountsCons(x, rest, ids);
      OccursOnce(ids, x.category);
      CountsPartition(rest, ids);
    }
  }

  /** The counts on the category buttons add up to the count on the `all` button. */
  lemma CountsSumToTotal(items: seq<MenuItem>)
    ensures SumCounts(items, UniqueCategoryIds(items)) == |items|
  {
    var names := CategoriesOf(items);
    forall i | 0 <= i < |items|
      ensures items[i].category in UniqueCategoryIds(items)
    {
      assert names[i] in UniqueCategoryIds(items);
    }
    CountsPartition(items, UniqueCategoryIds(items));
  }

  // ---------------------------------------------------------------------
  // Labels
  // ---------------------------------------------------------------------

  /**
   * Looking up a category that some item uses, as the heading of a selected
   * category and the label of an item card do, finds its display name and
   * description.
   */
  lemma LabelOfUsedCategory(items: seq<MenuItem>, j: nat)
    requires j < |items|
    ensures CategoryLabel(DeriveCategories(items), items[j].category) == Some(DisplayName(items[j].category))
    ensures CategoryDescription(DeriveCategories(items), items[j].category) ==
            Some(DisplayName(items[j].category) + DESCRIPTION_SUFFIX)
  {
    ItemCategoriesAreDerived(items);
    DerivedIdsDistinct(items);
    var cats := DeriveCategories(items);
    var i :| 0 <= i < |cats| && cats[i].id == items[j].category;
    LabelOfDistinctIds(cats, i);
  }

  /** A selection that no item uses finds no category, so the heading shows neither name nor description. */
  lemma HeadingOfUnusedCategory(items: seq<MenuItem>, selected: string)
    requires forall j :: 0 <= j < |items| ==> items[j].category != selected
    ensures CategoryLabel(DeriveCategories(items), selected).None?
    ensures CategoryDescription(DeriveCategories(items), selected).None?
  {
    DerivedIdsAreUsed(items);
  }
}
