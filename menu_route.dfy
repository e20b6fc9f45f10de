/**
 * The menu API route (`/api/menu`): the JSON document on disk, the
 * `readMenuData`/`writeMenuData` helpers, the list handler (GET) with its
 * category and featured filters, and the create handler (POST) with its
 * validation, id assignment, defaults and persistence.
 */
module MenuRoute {
  import opened ArrayOps
  import opened MenuData

  /**
   * Everything in `menu.json` apart from `menuItems`: the category list and
   * any other top-level key, each of the latter kept as its JSON text.
   */
  datatype Rest = Rest(categories: seq<Category>, otherKeys: map<string, string>)

  /**
   * The parsed file. A JSON object has `menuItems` (`None` when the key is
   * absent or null) and the rest; a top-level JSON array is kept as the JSON
   * text of its elements.
   */
  datatype Document =
    | JsonObject(menuItems: Option<seq<MenuItem>>, rest: Rest)
    | JsonArray(elements: seq<string>)

  const PLACEHOLDER_IMAGE: string := "/images/placeholder.jpg"
  const MISSING_FIELDS: string := "Gerekli alanlar eksik"
  const ITEM_ADDED: string := "Menü item başarıyla eklendi"
  const SAVE_FAILED: string := "Menü item kaydedilemedi"

  // ---------------------------------------------------------------------
  // The document and what reading and writing it means
  // ---------------------------------------------------------------------

  /**
   * The items `readMenuData` returns for what is on disk: `data.menuItems || []`,
   * where `stored` is `None` when the file is missing, unreadable, not JSON,
   * or a JSON value (null, a number, a string, a boolean) on which reading
   * or setting a property throws.
   */
  function ItemsOf(stored: Option<Document>): (items: seq<MenuItem>)
    ensures items != [] ==> stored.Some? && stored.value.JsonObject? && stored.value.menuItems == Some(items)
    ensures stored.Some? && stored.value.JsonObject? && stored.value.menuItems.Some? ==>
              items == stored.value.menuItems.value
  {
    if stored.Some? && stored.value.JsonObject? && stored.value.menuItems.Some? then
      stored.value.menuItems.value
    else
      []
  }

  /**
   * The document `JSON.stringify` writes after `data.menuItems = items`. On an
   * object the key is set; on an array the assignment adds a named property
   * that `JSON.stringify` does not output, so the array is written unchanged.
   */
  function WithItems(doc: Document, items: seq<MenuItem>): (written: Document)
    ensures written.JsonObject? <==> doc.JsonObject?
    ensures doc.JsonObject? ==> written.menuItems == Some(items) && written.rest == doc.rest
    ensures doc.JsonArray? ==> written == doc
  {
    match doc
    case JsonObject(_, rest) => JsonObject(Some(items), rest)
    case JsonArray(_) => doc
  }

  /** Reading never fails: a broken store, an array or a missing key reads as an empty menu. */
  lemma UnreadableStoreReadsEmpty(stored: Option<Document>)
    requires stored.None? || stored.value.JsonArray? || stored.value.menuItems.None?
    ensures ItemsOf(stored) == []
  {
  }

  /** After a write to an object, a read sees exactly the written items, and nothing but `menuItems` changed. */
  lemma ReadAfterWrite(doc: Document, items: seq<MenuItem>)
    requires doc.JsonObject?
    ensures ItemsOf(Some(WithItems(doc, items))) == items
    ensures WithItems(doc, items).JsonObject? && WithItems(doc, items).rest == doc.rest
  {
  }

  /** A write to a file holding a JSON array leaves the file as it was, so the written items are lost. */
  lemma ArrayFileIgnoresWrite(doc: Document, items: seq<MenuItem>)
    requires doc.JsonArray?
    ensures WithItems(doc, items) == doc
    ensures ItemsOf(Some(WithItems(doc, items))) == []
  {
  }

  /** Writing back what was read is a no-op on an array and on an object that has a `menuItems` list ... */
  lemma RewriteIsNoOp(doc: Document)
    requires doc.JsonArray? || doc.menuItems.Some?
    ensures WithItems(doc, ItemsOf(Some(doc))) == doc
  {
  }

  /** ... and adds an empty `menuItems` list to an object that has none. */
  lemma RewriteAddsEmptyList(doc: Document)
    requires doc.JsonObject? && doc.menuItems.None?
    ensures WithItems(doc, ItemsOf(Some(doc))) == doc.(menuItems := Some([]))
    ensures WithItems(doc, ItemsOf(Some(doc))) != doc
  {
  }

  // ---------------------------------------------------------------------
  // GET: the filter pipeline
  // ---------------------------------------------------------------------

  /** The `category` and `featured` search parameters; `None` when absent. */
  datatype ListQuery = ListQuery(category: Option<string>, featured: Option<string>)

  /** `category && category !== 'all'`: a non-empty value other than `all`. */
  predicate CategoryFilterOn(q: ListQuery)
  {
    q.category.Some? && q.category.value != "" && q.category.value != "all"
  }

  /** `featured === 'true'`: only that exact text. */
  predicate FeaturedFilterOn(q: ListQuery)
  {
    q.featured == Some("true")
  }

  /** An item passes the query when it meets every filter the query switches on. */
  function MatchesQuery(q: ListQuery): MenuItem -> bool
  {
    (item: MenuItem) =>
      (CategoryFilterOn(q) ==> item.category == q.category.value) &&
      (FeaturedFilterOn(q) ==> item.featured)
  }

  /** The success envelope `{ success: true, data, total }`. */
  datatype ListResponse = ListResponse(data: seq<MenuItem>, total: int)

  /**
   * What GET lists is an order-preserving subsequence of the stored items,
   * holding exactly the items that pass every active filter.
   */
  lemma ListingIsExact(items: seq<MenuItem>, q: ListQuery)
    ensures IsSubsequence(Filter(MatchesQuery(q), items), items)
    ensures forall i :: 0 <= i < |Filter(MatchesQuery(q), items)| ==>
              var item := Filter(MatchesQuery(q), items)[i];
              (CategoryFilterOn(q) ==> item.category == q.category.value) &&
              (FeaturedFilterOn(q) ==> item.featured)
    ensures forall i :: 0 <= i < |items| ==>
              ((CategoryFilterOn(q) ==> items[i].category == q.category.value) &&
               (FeaturedFilterOn(q) ==> items[i].featured)) ==>
              items[i] in Filter(MatchesQuery(q), items)
    ensures forall item: MenuItem :: Occurrences(Filter(MatchesQuery(q), items), item) ==
              if (CategoryFilterOn(q) ==> item.category == q.category.value) && (FeaturedFilterOn(q) ==> item.featured)
              then Occurrences(items, item) else 0
  {
    FilterCounts(MatchesQuery(q), items);
  }

  /**
   * Applying the category filter and then the featured filter, each only
   * when switched on, keeps exactly the items that pass the whole query.
   */
  lemma StepwiseFiltering(items: seq<MenuItem>, q: ListQuery)
    ensures var afterCategory := if CategoryFilterOn(q) then Filter(InCategory(q.category.value), items) else items;
            (if FeaturedFilterOn(q) then Filter(IsFeatured, afterCategory) else afterCategory) ==
            Filter(MatchesQuery(q), items)
  {
    if CategoryFilterOn(q) && FeaturedFilterOn(q) {
      FilterThenFilter(InCategory(q.category.value), IsFeatured, MatchesQuery(q), items);
    } else if CategoryFilterOn(q) {
      FilterEquivalent(InCategory(q.category.value), MatchesQuery(q), items);
    } else if FeaturedFilterOn(q) {
      FilterEquivalent(IsFeatured, MatchesQuery(q), items);
    } else {
      FilterKeepsAll(MatchesQuery(q), items);
    }
  }

  /** With no category (or an empty one, or `all`) and no `featured=true`, GET lists every item. */
  lemma NoFilterListsAll(items: seq<MenuItem>, q: ListQuery)
    requires q.category == None || q.category == Some("") || q.category == Some("all")
    requires q.featured != Some("true")
    ensures Filter(MatchesQuery(q), items) == items
  {
    FilterKeepsAll(MatchesQuery(q), items);
  }

  /** The category and featured filters commute. */
  lemma FiltersCommute(items: seq<MenuItem>, category: string)
    ensures Filter(IsFeatured, Filter(InCategory(category), items)) ==
            Filter(InCategory(category), Filter(IsFeatured, items))
  {
    FilterCommutes(InCategory(category), IsFeatured, items);
  }

  // ---------------------------------------------------------------------
  // POST: validation, id assignment and defaults
  // ---------------------------------------------------------------------

  /**
   * The fields POST reads from the request body. A `None` stands for a
   * field that is absent or null.
   */
  datatype CreateRequest = CreateRequest(
    name: Option<string>,
    description: Option<string>,
    price: Option<Price>,
    category: Option<string>,
    image: Option<string>,
    featured: Option<bool>)

  /** JavaScript truthiness of a text field: present and not the empty string. */
  predicate Truthy(s: Option<string>)
  {
    s.Some? && s.value != ""
  }

  /** JavaScript truthiness of the price: present and neither `0` nor `""`. */
  predicate PriceTruthy(p: Option<Price>)
  {
    match p
    case None => false
    case Some(Number(amount)) => amount != 0.0
    case Some(Text(digits)) => digits != ""
  }

  /** `!(!name || !description || !price || !category)` */
  predicate HasRequiredFields(body: CreateRequest): (ok: bool)
    ensures ok ==> body.name.Some? && body.description.Some? && body.price.Some? && body.category.Some?
    ensures ok ==> body.name.value != "" && body.description.value != "" && body.category.value != ""
    ensures body.price == Some(Number(0.0)) || body.price == Some(Text("")) ==> !ok
    ensures (body.name.Some? && body.name.value != "" && body.description.Some? && body.description.value != "" &&
             body.category.Some? && body.category.value != "" && PriceTruthy(body.price)) ==> ok
  {
    Truthy(body.name) && Truthy(body.description) && PriceTruthy(body.price) && Truthy(body.category)
  }

  /** `menuItems.map(item => item.id)` */
  function Ids(items: seq<MenuItem>): (ids: seq<int>)
    ensures |ids| == |items| && forall i :: 0 <= i < |items| ==> ids[i] == items[i].id
  {
    seq(|items|, i requires 0 <= i < |items| => items[i].id)
  }

  /** `Math.max(...ids, 0) + 1` */
  function NextId(items: seq<MenuItem>): (id: int)
    ensures id >= 1
    ensures forall i :: 0 <= i < |items| ==> items[i].id < id
    ensures id == 1 || exists i :: 0 <= i < |items| && items[i].id == id - 1
    ensures items == [] ==> id == 1
  {
    var args := Ids(items) + [0];
    var m := Max(args);
    assert m == 0 || exists i :: 0 <= i < |items| && items[i].id == m by {
      var k :| 0 <= k < |args| && args[k] == m;
      if k < |items| {
        assert items[k].id == m;
      }
    }
    assert forall i :: 0 <= i < |items| ==> items[i].id == args[i];
    assert args[|items|] == 0;
    m + 1
  }

  /**
   * The new item: the assigned id, the required fields as given, `image`
   * defaulting to the placeholder and `featured` to `false` when falsy.
   */
  function NewItem(id: int, body: CreateRequest): (item: MenuItem)
    requires HasRequiredFields(body)
    ensures item.id == id
    ensures item.name == body.name.value && item.description == body.description.value
    ensures item.price == body.price.value && item.category == body.category.value
    ensures Truthy(body.image) ==> item.image == body.image.value
    ensures !Truthy(body.image) ==> item.image == PLACEHOLDER_IMAGE
    ensures item.name != "" && item.description != "" && item.category != "" && item.image != ""
    ensures item.featured <==> body.featured == Some(true)
  {
    MenuItem(
      id,
      body.name.value,
      body.description.value,
      body.price.value,
      body.category.value,
      if Truthy(body.image) then body.image.value else PLACEHOLDER_IMAGE,
      body.featured == Some(true))
  }

  /** No two items share an id. */
  predicate UniqueIds(items: seq<MenuItem>)
  {
    forall i, j :: 0 <= i < j < |items| ==> items[i].id != items[j].id
  }

  /**
   * Appending the created item keeps ids unique, and its id occurs exactly
   * once in the new list.
   */
  lemma CreateKeepsIdsUnique(items: seq<MenuItem>, body: CreateRequest)
    requires HasRequiredFields(body)
    requires UniqueIds(items)
    ensures UniqueIds(items + [NewItem(NextId(items), body)])
  {
  }

  /** Whatever the ids before, the created id names exactly one item afterwards. */
  lemma NewIdNamesOneItem(items: seq<MenuItem>, body: CreateRequest)
    requires HasRequiredFields(body)
    ensures var after := items + [NewItem(NextId(items), body)];
            forall i :: 0 <= i < |after| ==> (after[i].id == NextId(items) <==> i == |items|)
  {
  }

  /** The envelopes POST answers with. */
  datatype CreateResponse =
    | Created(data: MenuItem, message: string)
    | Failed(status: int, error: string)

  // ---------------------------------------------------------------------
  // The file and the handlers that use it
  // ---------------------------------------------------------------------

  /**
   * `menu.json`: what is stored in it (`None` when it is missing, unreadable,
   * not JSON, or a JSON null, number, string or boolean) and whether the disk
   * accepts a write.
   */
  class MenuFile {
    var stored: Option<Document>
    var writable: bool

    constructor (stored: Option<Document>, writable: bool)
      ensures this.stored == stored && this.writable == writable
    {
      this.stored := stored;
      this.writable := writable;
    }

    /**
     * `readMenuData`: the stored items, or `[]` when the file cannot be read,
     * holds an array, or has no `menuItems`; never fails.
     */
    method ReadMenuData() returns (items: seq<MenuItem>)
      ensures stored.None? ==> items == []
      ensures stored.Some? && stored.value.JsonArray? ==> items == []
      ensures stored.Some? && stored.value.JsonObject? && stored.value.menuItems.None? ==> items == []
      ensures stored.Some? && stored.value.JsonObject? && stored.value.menuItems.Some? ==>
                items == stored.value.menuItems.value
    {
      items := ItemsOf(stored);
    }

    /**
     * `writeMenuData`: re-reads the document, sets its `menuItems` and writes
     * it back. It reports success exactly when both the re-read and the write
     * succeed; on failure the stored document is unchanged.
     */
    method WriteMenuData(items: seq<MenuItem>) returns (ok: bool)
      modifies this
      ensures writable == old(writable)
      ensures ok <==> old(stored).Some? && old(writable)
      ensures ok && old(stored).value.JsonObject? ==>
                stored.Some? && stored.value.JsonObject? && stored.value.menuItems == Some(items) &&
                stored.value.rest == old(stored).value.rest
      ensures ok && old(stored).value.JsonArray? ==> stored == old(stored)
      ensures !ok ==> stored == old(stored)
    {
      if stored.None? || !writable {
        return false;
      }
      stored := Some(WithItems(stored.value, items));
      ok := true;
    }

    /** GET: the stored items that pass the query, with their count. */
    method Get(q: ListQuery) returns (r: ListResponse)
      ensures r.total == |r.data|
      ensures r.data == Filter(MatchesQuery(q), ItemsOf(stored))
    {
      var menuItems := ReadMenuData();
      assert menuItems == ItemsOf(stored);
      var filteredItems := menuItems;
      if CategoryFilterOn(q) {
        filteredItems := Filter(InCategory(q.category.value), filteredItems);
      }
      ghost var afterCategory := filteredItems;
      if FeaturedFilterOn(q) {
        filteredItems := Filter(IsFeatured, filteredItems);
      }
      assert filteredItems == (if FeaturedFilterOn(q) then Filter(IsFeatured, afterCategory) else afterCategory);
      StepwiseFiltering(menuItems, q);
      r := ListResponse(filteredItems, |filteredItems|);
    }

    /**
     * POST: validates before touching the file (400), assigns the next id,
     * applies the defaults, appends and persists; a failed write answers 500
     * and leaves the file as it was.
     */
    method Post(body: CreateRequest) returns (r: CreateResponse)
      modifies this
      ensures writable == old(writable)
      ensures !HasRequiredFields(body) ==> r == Failed(400, MISSING_FIELDS) && stored == old(stored)
      ensures HasRequiredFields(body) ==>
                var items := ItemsOf(old(stored));
                var item := NewItem(NextId(items), body);
                if old(stored).Some? && old(writable) then
                  r == Created(item, ITEM_ADDED) && stored == Some(WithItems(old(stored).value, items + [item]))
                else
                  r == Failed(500, SAVE_FAILED) && stored == old(stored)
      ensures HasRequiredFields(body) && old(stored).Some? && old(stored).value.JsonArray? && old(writable) ==>
                r.Created? && stored == old(stored)
    {
      if !HasRequiredFields(body) {
        return Failed(400, MISSING_FIELDS);
      }
      var menuItems := ReadMenuData();
      var newId := NextId(menuItems);
      var newItem := NewItem(newId, body);
      menuItems := menuItems + [newItem];
      var saved := WriteMenuData(menuItems);
      if saved {
        r := Created(newItem, ITEM_ADDED);
      } else {
        r := Failed(500, SAVE_FAILED);
      }
    }
  }
}
