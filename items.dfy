/**
 * The menu-item server actions: listing the caller's items with the name of
 * their category, creating an item under the caller's organization, deleting
 * and updating an item by id.
 */
module ItemActions {
  import opened Wrappers
  import opened Query
  import opened Schema
  import opened Tenant
  import opened Database

  /** A row of `select("*, categories(name)")`: the item and its embedded category name. */
  datatype ItemRow = ItemRow(item: MenuItem, categoryName: Option<string>)

  function RowItem(row: ItemRow): MenuItem
  {
    row.item
  }

  function RowOrder(row: ItemRow): int
  {
    row.item.orderIndex
  }

  /** The embedded `categories(name)`: null when `category_id` is null or names no row. */
  function CategoryName(t: Tables, i: MenuItem): (r: Option<string>)
    ensures r.Some? ==> i.categoryId.Some? && exists c :: c in t.categories && c.id == i.categoryId.value && c.name == r.value
  {
    match i.categoryId
    case None => None
    case Some(cid) =>
      match Single(Filter(t.categories, (c: Category) => c.id == cid))
      case Some(c) => Some(c.name)
      case None => None
  }

  /** On a valid store every categorized item carries the name of its category. */
  lemma CategoryNameFound(t: Tables, i: MenuItem, c: Category)
    requires Schema.Valid(t)
    requires c in t.categories && i.categoryId == Some(c.id)
    ensures CategoryName(t, i) == Some(c.name)
  {
    var cid := c.id;
    SingleOnUnique(t.categories, (x: Category) => x.id, (x: Category) => x.id == cid);
  }

  /** The join for one item. */
  function Join(t: Tables, i: MenuItem): ItemRow
  {
    ItemRow(i, CategoryName(t, i))
  }

  /** `getMenuItems`: the caller's items ascending by `order_index`, each with its category name. */
  method GetMenuItems(db: Store, auth: Option<string>) returns (r: Result<seq<ItemRow>, ActionError>)
    ensures r.Failure? <==> !Truthy(auth)
    ensures r.Failure? ==> r.error == Unauthorized
    ensures Truthy(auth) && GetOrgId(db.State(), auth.value).None? ==> r == Success([])
    ensures Truthy(auth) && GetOrgId(db.State(), auth.value).Some? ==>
      var oid := GetOrgId(db.State(), auth.value).value;
      && r.Success?
      && SortedBy(r.value, RowOrder)
      && (forall i :: multiset(Map(r.value, RowItem))[i] ==
            if i.organizationId == oid then multiset(db.menuItems)[i] else 0)
      && (forall row :: row in r.value ==> row.categoryName == CategoryName(db.State(), row.item))
  {
    var user := CheckAuth(auth);
    if user.Failure? {
      return Failure(user.error);
    }
    var oid := GetOrgId(db.State(), user.value);
    if oid.None? {
      return Success([]);
    }
    var items := SortBy(Filter(db.menuItems, (i: MenuItem) => i.organizationId == oid.value), MenuItemOrder);
    var t := db.State();
    var rows := Map(items, (i: MenuItem) => Join(t, i));
    assert Map(rows, RowItem) == items;
    r := Success(rows);
  }

  /** The fields `createMenuItem` reads from its form; `price` already parsed to cents. */
  datatype ItemForm = ItemForm(
    name: string,
    description: Option<string>,
    priceCents: int,
    categoryId: Option<string>,
    imagePath: Option<string>)

  /** The row `createMenuItem` inserts: empty category and image fields become null. */
  function FormItem(id: Uuid, organizationId: Uuid, f: ItemForm): (i: MenuItem)
    ensures i.categoryId == FormId(f.categoryId) && i.imagePath == OrNull(f.imagePath)
    ensures i.description == f.description && i.isActive && i.orderIndex == 0
  {
    NewMenuItem(id, organizationId, FormId(f.categoryId), f.name, f.description, f.priceCents, OrNull(f.imagePath))
  }

  /**
   * `createMenuItem` as a function of the table state. The insert's error is
   * not read: a rejected insert leaves the tables as they were and the action
   * still returns normally.
   */
  function CreateMenuItemOutcome(t: Tables, auth: Option<string>, f: ItemForm, newId: Uuid): (r: (Result<(), ActionError>, Tables))
    ensures !Truthy(auth) ==> r == (Failure(Unauthorized), t)
    ensures r.0.Failure? ==> r.1 == t && r.0.error in {Unauthorized, OrgNotFoundCreateCategoryFirst}
    ensures r.0.Success? ==> r.1.organizations == t.organizations && r.1.categories == t.categories
    ensures Schema.Valid(t) ==> Schema.Valid(r.1)
  {
    match CheckAuth(auth)
    case Failure(e) => (Failure(e), t)
    case Success(userId) =>
      match GetOrgId(t, userId)
      case None => (Failure(OrgNotFoundCreateCategoryFirst), t)
      case Some(oid) =>
        match Schema.InsertMenuItem(t, FormItem(newId, oid, f))
        case Success(t') => (Success(()), t')
        case Failure(_) => (Success(()), t)
  }

  /** `createMenuItem`: the same steps on the store. */
  method CreateMenuItem(db: Store, auth: Option<string>, f: ItemForm, newId: Uuid) returns (r: Result<(), ActionError>)
    modifies db
    ensures (r, db.State()) == CreateMenuItemOutcome(old(db.State()), auth, f, newId)
  {
    var user := CheckAuth(auth);
    if user.Failure? {
      return Failure(user.error);
    }
    var oid := GetOrgId(db.State(), user.value);
    if oid.None? {
      return Failure(OrgNotFoundCreateCategoryFirst);
    }
    var _ := db.InsertMenuItem(FormItem(newId, oid.value, f));
    r := Success(());
  }

  /** A caller without an organization cannot create items: nothing changes. */
  lemma CreateMenuItemNeedsOrganization(t: Tables, userId: string, f: ItemForm, newId: Uuid)
    requires Schema.Valid(t) && userId != ""
    requires forall o :: o in t.organizations ==> o.clerkOrgId != userId
    ensures CreateMenuItemOutcome(t, Some(userId), f, newId) == (Failure(OrgNotFoundCreateCategoryFirst), t)
  {
    OrgByClerkIdFinds(t, userId);
  }

  /**
   * A caller with an organization: the item is appended under that
   * organization when its id is free and its category field is empty or names
   * an existing category (of any organization); otherwise nothing is stored,
   * and the action succeeds either way.
   */
  lemma CreateMenuItemStores(t: Tables, userId: string, o: Organization, f: ItemForm, newId: Uuid)
    requires Schema.Valid(t) && userId != ""
    requires o in t.organizations && o.clerkOrgId == userId
    ensures var (r, t') := CreateMenuItemOutcome(t, Some(userId), f, newId);
      && r == Success(())
      && t'.organizations == t.organizations && t'.categories == t.categories
      && t'.menuItems == if !PriceFits(f.priceCents) || (exists x :: x in t.menuItems && x.id == newId)
                           || (Truthy(f.categoryId) && f.categoryId.value !in CategoryIds(t))
                         then t.menuItems
                         else t.menuItems + [FormItem(newId, o.id, f)]
  {
    OrgByClerkIdFinds(t, userId);
  }

  /** `deleteMenuItem` as a function of the table state. */
  function DeleteMenuItemOutcome(t: Tables, auth: Option<string>, id: string): (r: (Result<(), ActionError>, Tables))
    ensures !Truthy(auth) ==> r == (Failure(Unauthorized), t)
    ensures Truthy(auth) ==> r.0 == Success(())
    ensures Schema.Valid(t) ==> Schema.Valid(r.1)
  {
    match CheckAuth(auth)
    case Failure(e) => (Failure(e), t)
    case Success(_) => (Success(()), Schema.DeleteMenuItem(t, id))
  }

  /** `deleteMenuItem`: removes the item with that id, whoever owns it. */
  method DeleteMenuItem(db: Store, auth: Option<string>, id: string) returns (r: Result<(), ActionError>)
    modifies db
    ensures (r, db.State()) == DeleteMenuItemOutcome(old(db.State()), auth, id)
  {
    var user := CheckAuth(auth);
    if user.Failure? {
      return Failure(user.error);
    }
    db.DeleteMenuItem(id);
    r := Success(());
  }

  /** No ownership check: any signed-in caller removes exactly the rows with that id, in any organization. */
  lemma DeleteMenuItemIgnoresOwner(t: Tables, userId: string, id: string)
    requires userId != ""
    ensures var t' := DeleteMenuItemOutcome(t, Some(userId), id).1;
      && t'.organizations == t.organizations && t'.categories == t.categories
      && forall i :: i in t'.menuItems <==> i in t.menuItems && i.id != id
  {
  }

  /** The fields `updateMenuItem` reads from its form; `price` already parsed to cents. */
  datatype UpdateForm = UpdateForm(
    id: string,
    name: string,
    priceCents: int,
    imagePath: Option<string>,
    categoryId: Option<string>)

  /** The SET clause: empty image and category fields clear those columns. */
  function FormPatch(f: UpdateForm): (p: ItemPatch)
    ensures p.imagePath.None? <==> !Truthy(f.imagePath)
    ensures p.categoryId.None? <==> !Truthy(f.categoryId)
    ensures p.name == f.name && p.priceCents == f.priceCents
  {
    ItemPatch(f.name, f.priceCents, OrNull(f.imagePath), FormId(f.categoryId))
  }

  /** `updateMenuItem` as a function of the table state; the update's error is not read. */
  function UpdateMenuItemOutcome(t: Tables, auth: Option<string>, f: UpdateForm): (r: (Result<(), ActionError>, Tables))
    ensures !Truthy(auth) ==> r == (Failure(Unauthorized), t)
    ensures Truthy(auth) ==> r.0 == Success(())
    ensures r.1.organizations == t.organizations && r.1.categories == t.categories
    ensures Schema.Valid(t) ==> Schema.Valid(r.1)
  {
    match CheckAuth(auth)
    case Failure(e) => (Failure(e), t)
    case Success(_) =>
      match Schema.UpdateMenuItem(t, f.id, FormPatch(f))
      case Success(t') => (Success(()), t')
      case Failure(_) => (Success(()), t)
  }

  /** `updateMenuItem`: the same steps on the store. */
  method UpdateMenuItem(db: Store, auth: Option<string>, f: UpdateForm) returns (r: Result<(), ActionError>)
    modifies db
    ensures (r, db.State()) == UpdateMenuItemOutcome(old(db.State()), auth, f)
  {
    var user := CheckAuth(auth);
    if user.Failure? {
      return Failure(user.error);
    }
    var _ := db.UpdateMenuItem(f.id, FormPatch(f));
    r := Success(());
  }

  /**
   * No ownership check: a signed-in caller rewrites the item with that id
   * whichever organization owns it, keeping its id, owner, description,
   * activity and position; the row is left alone only when the new category
   * names no category.
   */
  lemma UpdateMenuItemIgnoresOwner(t: Tables, userId: string, f: UpdateForm, k: nat)
    requires userId != "" && k < |t.menuItems| && t.menuItems[k].id == f.id
    ensures var t' := UpdateMenuItemOutcome(t, Some(userId), f).1;
      var i, i' := t.menuItems[k], t'.menuItems[k];
      && |t'.menuItems| == |t.menuItems|
      && i'.id == i.id && i'.organizationId == i.organizationId && i'.description == i.description
      && i'.isActive == i.isActive && i'.orderIndex == i.orderIndex
      && (if !PriceFits(f.priceCents) || (Truthy(f.categoryId) && f.categoryId.value !in CategoryIds(t)) then i' == i
          else
            && i'.name == f.name && i'.priceCents == f.priceCents
            && i'.imagePath == OrNull(f.imagePath) && i'.categoryId == FormId(f.categoryId))
  {
    assert t.menuItems[k] in t.menuItems;
  }
}
