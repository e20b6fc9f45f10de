/**
 * The records shared by the menu API and the pages: a menu item, a category,
 * and the `categories.find(cat => cat.id === id)` lookup both pages use to
 * label an item.
 */
module MenuData {
  import opened ArrayOps

  /**
   * A price as it reaches the code: a JSON number from the stored file, or
   * the text of the admin form's price field.
   */
  datatype Price = Number(amount: real) | Text(digits: string)

  datatype MenuItem = MenuItem(
    id: int,
    name: string,
    description: string,
    price: Price,
    category: string,
    image: string,
    featured: bool)

  datatype Category = Category(id: string, name: string, description: string)

  /** `item => item.category === id` */
  function InCategory(id: string): MenuItem -> bool
  {
    (item: MenuItem) => item.category == id
  }

  /** `item => item.featured` */
  function IsFeatured(item: MenuItem): bool
  {
    item.featured
  }

  /** `cat => cat.id === id` */
  function HasId(id: string): Category -> bool
  {
    (cat: Category) => cat.id == id
  }

  /** `categories.find(cat => cat.id === id)` */
  function FindCategory(categories: seq<Category>, id: string): (r: Option<Category>)
    ensures r.None? <==> forall i :: 0 <= i < |categories| ==> categories[i].id != id
    ensures r.Some? ==> exists i :: 0 <= i < |categories| && categories[i] == r.value && r.value.id == id &&
                                    forall j :: 0 <= j < i ==> categories[j].id != id
  {
    Find(HasId(id), categories)
  }

  /** `categories.find(cat => cat.id === id)?.name` */
  function CategoryLabel(categories: seq<Category>, id: string): (r: Option<string>)
    ensures r.None? <==> forall i :: 0 <= i < |categories| ==> categories[i].id != id
    ensures r.Some? ==> exists i :: 0 <= i < |categories| && categories[i].id == id && categories[i].name == r.value &&
                                    forall j :: 0 <= j < i ==> categories[j].id != id
  {
    match FindCategory(categories, id)
    case None => None
    case Some(cat) => Some(cat.name)
  }

  /** `categories.find(cat => cat.id === id)?.description` */
  function CategoryDescription(categories: seq<Category>, id: string): (r: Option<string>)
    ensures r.None? <==> forall i :: 0 <= i < |categories| ==> categories[i].id != id
    ensures r.Some? ==> exists i :: 0 <= i < |categories| && categories[i].id == id && categories[i].description == r.value &&
                                    forall j :: 0 <= j < i ==> categories[j].id != id
  {
    match FindCategory(categories, id)
    case None => None
    case Some(cat) => Some(cat.description)
  }

  /** In a list whose ids are distinct, the label of a listed id is the name listed with it. */
  lemma LabelOfDistinctIds(categories: seq<Category>, k: nat)
    requires k < |categories|
    requires forall i, j :: 0 <= i < j < |categories| ==> categories[i].id != categories[j].id
    ensures CategoryLabel(categories, categories[k].id) == Some(categories[k].name)
    ensures CategoryDescription(categories, categories[k].id) == Some(categories[k].description)
  {
  }
}
