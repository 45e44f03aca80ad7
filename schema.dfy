/**
 * The three tables of the relational store (organizations, categories,
 * menu_items), their constraints (primary keys, UNIQUE columns, foreign keys)
 * and the effect of each kind of write on the table state, including the
 * ON DELETE CASCADE and ON DELETE SET NULL rules.
 */
module Schema {
  import opened Wrappers
  import opened Query

  /** A generated `uuid` key: never the empty string. */
  type Uuid = s: string | s != [] witness "0"

  const DefaultThemePreset: string := "neo-brutal"

  /**
   * An organizations row. `admin_theme` and `favicon_url` are written by the
   * settings actions but are not declared in the schema file; they are columns here.
   */
  datatype Organization = Organization(
    id: Uuid,
    clerkOrgId: string,
    name: string,
    slug: string,
    themePreset: Option<string>,
    adminTheme: Option<string>,
    logoUrl: Option<string>,
    faviconUrl: Option<string>)

  datatype Category = Category(
    id: Uuid,
    organizationId: Uuid,
    name: string,
    description: Option<string>,
    orderIndex: int,
    isActive: bool)

  /** A menu_items row; `price` numeric(10, 2) is held as a whole number of cents. */
  datatype MenuItem = MenuItem(
    id: Uuid,
    organizationId: Uuid,
    categoryId: Option<Uuid>,
    name: string,
    description: Option<string>,
    priceCents: int,
    imagePath: Option<string>,
    isActive: bool,
    orderIndex: int)

  datatype Tables = Tables(
    organizations: seq<Organization>,
    categories: seq<Category>,
    menuItems: seq<MenuItem>)

  datatype DbError =
    | UniqueViolation(column: string)
    | ForeignKeyViolation(column: string)
    | NumericOverflow(column: string)

  /** `numeric(10, 2)` holds fewer than 10^8 whole units, so fewer than 10^10 cents either way. */
  const PriceLimitCents: int := 10_000_000_000

  predicate PriceFits(cents: int)
  {
    -PriceLimitCents < cents < PriceLimitCents
  }

  /** A category as inserted without `order_index`: the column defaults apply. */
  function NewCategory(id: Uuid, organizationId: Uuid, name: string, description: Option<string>): (c: Category)
    ensures c.orderIndex == 0 && c.isActive
    ensures c.id == id && c.organizationId == organizationId && c.name == name && c.description == description
  {
    Category(id, organizationId, name, description, 0, true)
  }

  /** A menu item as inserted without `order_index`: the column defaults apply. */
  function NewMenuItem(id: Uuid, organizationId: Uuid, categoryId: Option<Uuid>, name: string,
                       description: Option<string>, priceCents: int, imagePath: Option<string>): (i: MenuItem)
    ensures i.orderIndex == 0 && i.isActive
    ensures i.id == id && i.organizationId == organizationId && i.categoryId == categoryId
    ensures i.name == name && i.description == description && i.priceCents == priceCents && i.imagePath == imagePath
  {
    MenuItem(id, organizationId, categoryId, name, description, priceCents, imagePath, true, 0)
  }

  /** The `order_index` sort key of each table. */
  function CategoryOrder(c: Category): int
  {
    c.orderIndex
  }

  function MenuItemOrder(i: MenuItem): int
  {
    i.orderIndex
  }

  function OrgIds(t: Tables): set<Uuid>
  {
    set o | o in t.organizations :: o.id
  }

  function CategoryIds(t: Tables): set<Uuid>
  {
    set c | c in t.categories :: c.id
  }

  /** Every constraint the schema declares holds of the table state. */
  ghost predicate Valid(t: Tables)
  {
    && UniqueBy(t.organizations, (o: Organization) => o.id)
    && UniqueBy(t.organizations, (o: Organization) => o.clerkOrgId)
    && UniqueBy(t.organizations, (o: Organization) => o.slug)
    && UniqueBy(t.categories, (c: Category) => c.id)
    && UniqueBy(t.menuItems, (i: MenuItem) => i.id)
    && (forall c :: c in t.categories ==> c.organizationId in OrgIds(t))
    && (forall i :: i in t.menuItems ==> i.organizationId in OrgIds(t))
    && (forall i :: i in t.menuItems && i.categoryId.Some? ==> i.categoryId.value in CategoryIds(t))
  }

  lemma EmptyValid()
    ensures Valid(Tables([], [], []))
  {
  }

  lemma {:induction false} UniqueAppend<T>(s: seq<T>, key: T -> string, x: T)
    requires UniqueBy(s, key)
    requires forall i :: 0 <= i < |s| ==> key(s[i]) != key(x)
    ensures UniqueBy(s + [x], key)
  {
  }

  lemma {:induction false} UniqueFilter<T(!new)>(s: seq<T>, key: T -> string, p: T -> bool)
    requires UniqueBy(s, key)
    ensures UniqueBy(Filter(s, p), key)
  {
    if s != [] {
      UniqueTail(s, key);
      UniqueFilter(s[1..], key, p);
      if p(s[0]) {
        UniqueCons(s[0], Filter(s[1..], p), key);
      }
    }
  }

  /** Rewriting rows without touching their key keeps the key unique. */
  lemma UniqueMap<T>(s: seq<T>, key: T -> string, f: T -> T)
    requires UniqueBy(s, key)
    requires forall x :: key(f(x)) == key(x)
    ensures UniqueBy(Map(s, f), key)
  {
    var r := Map(s, f);
    forall i, j | 0 <= i < |r| && 0 <= j < |r| && key(r[i]) == key(r[j]) ensures i == j {
      assert key(s[i]) == key(s[j]);
    }
  }

  // ---------------------------------------------------------------- inserts

  /** INSERT INTO organizations: rejected on a duplicate `id`, `clerk_org_id` or `slug`. */
  function InsertOrganization(t: Tables, o: Organization): (r: Result<Tables, DbError>)
    ensures r.Success? <==>
      forall x :: x in t.organizations ==> x.id != o.id && x.clerkOrgId != o.clerkOrgId && x.slug != o.slug
    ensures r.Success? ==> r.value == t.(organizations := t.organizations + [o])
    ensures Valid(t) && r.Success? ==> Valid(r.value)
  {
    if exists x :: x in t.organizations && x.id == o.id then Failure(UniqueViolation("id"))
    else if exists x :: x in t.organizations && x.clerkOrgId == o.clerkOrgId then Failure(UniqueViolation("clerk_org_id"))
    else if exists x :: x in t.organizations && x.slug == o.slug then Failure(UniqueViolation("slug"))
    else
      var t' := t.(organizations := t.organizations + [o]);
      assert Valid(t) ==> Valid(t') by {
        if Valid(t) {
          UniqueAppend(t.organizations, (x: Organization) => x.id, o);
          UniqueAppend(t.organizations, (x: Organization) => x.clerkOrgId, o);
          UniqueAppend(t.organizations, (x: Organization) => x.slug, o);
          assert OrgIds(t) <= OrgIds(t');
        }
      }
      Success(t')
  }

  /** INSERT INTO categories: rejected on a duplicate `id` or an unknown `organization_id`. */
  function InsertCategory(t: Tables, c: Category): (r: Result<Tables, DbError>)
    ensures r.Success? <==> c.id !in CategoryIds(t) && c.organizationId in OrgIds(t)
    ensures r.Success? ==> r.value == t.(categories := t.categories + [c])
    ensures Valid(t) && r.Success? ==> Valid(r.value)
  {
    if c.id in CategoryIds(t) then Failure(UniqueViolation("id"))
    else if c.organizationId !in OrgIds(t) then Failure(ForeignKeyViolation("organization_id"))
    else
      var t' := t.(categories := t.categories + [c]);
      assert Valid(t) ==> Valid(t') by {
        if Valid(t) {
          UniqueAppend(t.categories, (x: Category) => x.id, c);
          assert CategoryIds(t) <= CategoryIds(t');
        }
      }
      Success(t')
  }

  /**
   * INSERT INTO menu_items: rejected on a price the `numeric(10, 2)` column
   * cannot hold, a duplicate `id`, an unknown `organization_id` or a
   * `category_id` that names no category.
   */
  function InsertMenuItem(t: Tables, i: MenuItem): (r: Result<Tables, DbError>)
    ensures r.Success? <==>
      PriceFits(i.priceCents) &&
      i.id !in (set x | x in t.menuItems :: x.id) && i.organizationId in OrgIds(t) &&
      (i.categoryId.Some? ==> i.categoryId.value in CategoryIds(t))
    ensures r.Success? ==> r.value == t.(menuItems := t.menuItems + [i])
    ensures Valid(t) && r.Success? ==> Valid(r.value)
  {
    if !PriceFits(i.priceCents) then Failure(NumericOverflow("price"))
    else if i.id in (set x | x in t.menuItems :: x.id) then Failure(UniqueViolation("id"))
    else if i.organizationId !in OrgIds(t) then Failure(ForeignKeyViolation("organization_id"))
    else if i.categoryId.Some? && i.categoryId.value !in CategoryIds(t) then Failure(ForeignKeyViolation("category_id"))
    else
      var t' := t.(menuItems := t.menuItems + [i]);
      assert Valid(t) ==> Valid(t') by {
        if Valid(t) {
          UniqueAppend(t.menuItems, (x: MenuItem) => x.id, i);
        }
      }
      Success(t')
  }

  // ---------------------------------------------------------------- updates

  /**
   * The columns an UPDATE of organizations sets; `None` leaves a column out of
   * the update object. None of them is a key.
   */
  datatype OrgPatch = OrgPatch(
    name: Option<string>,
    themePreset: Option<Option<string>>,
    adminTheme: Option<Option<string>>,
    logoUrl: Option<Option<string>>,
    faviconUrl: Option<Option<string>>)

  function ApplyOrgPatch(o: Organization, p: OrgPatch): (o': Organization)
    ensures o'.id == o.id && o'.clerkOrgId == o.clerkOrgId && o'.slug == o.slug
    ensures o'.name == (if p.name.Some? then p.name.value else o.name)
    ensures o'.themePreset == (if p.themePreset.Some? then p.themePreset.value else o.themePreset)
    ensures o'.adminTheme == (if p.adminTheme.Some? then p.adminTheme.value else o.adminTheme)
    ensures o'.logoUrl == (if p.logoUrl.Some? then p.logoUrl.value else o.logoUrl)
    ensures o'.faviconUrl == (if p.faviconUrl.Some? then p.faviconUrl.value else o.faviconUrl)
  {
    o.(name := if p.name.Some? then p.name.value else o.name,
       themePreset := if p.themePreset.Some? then p.themePreset.value else o.themePreset,
       adminTheme := if p.adminTheme.Some? then p.adminTheme.value else o.adminTheme,
       logoUrl := if p.logoUrl.Some? then p.logoUrl.value else o.logoUrl,
       faviconUrl := if p.faviconUrl.Some? then p.faviconUrl.value else o.faviconUrl)
  }

  /** UPDATE organizations SET ... WHERE id = id. */
  function UpdateOrganization(t: Tables, id: string, p: OrgPatch): (r: Tables)
    ensures r.categories == t.categories && r.menuItems == t.menuItems
    ensures |r.organizations| == |t.organizations|
    ensures forall k :: 0 <= k < |t.organizations| ==>
      r.organizations[k] == if t.organizations[k].id == id then ApplyOrgPatch(t.organizations[k], p) else t.organizations[k]
    ensures Valid(t) ==> Valid(r)
  {
    UpdateOrganizationKeepsValid(t, id, p);
    t.(organizations := Map(t.organizations, PatchOrg(id, p)))
  }

  function PatchOrg(id: string, p: OrgPatch): Organization -> Organization
  {
    (o: Organization) => if o.id == id then ApplyOrgPatch(o, p) else o
  }

  lemma UpdateOrganizationKeepsValid(t: Tables, id: string, p: OrgPatch)
    ensures Valid(t) ==> Valid(t.(organizations := Map(t.organizations, PatchOrg(id, p))))
  {
    var f := PatchOrg(id, p);
    var r := t.(organizations := Map(t.organizations, f));
    if Valid(t) {
      UniqueMap(t.organizations, (o: Organization) => o.id, f);
      UniqueMap(t.organizations, (o: Organization) => o.clerkOrgId, f);
      UniqueMap(t.organizations, (o: Organization) => o.slug, f);
      PatchKeepsOrgIds(t, id, p);
    }
  }

  lemma PatchKeepsOrgIds(t: Tables, id: string, p: OrgPatch)
    ensures OrgIds(t.(organizations := Map(t.organizations, PatchOrg(id, p)))) == OrgIds(t)
  {
    var f := PatchOrg(id, p);
    var r := t.(organizations := Map(t.organizations, f));
    MapMembers(t.organizations, f);
    forall x | x in OrgIds(t) ensures x in OrgIds(r) {
      var o :| o in t.organizations && o.id == x;
      assert f(o) in r.organizations;
    }
  }

  /** The four columns `updateMenuItem` overwrites. */
  datatype ItemPatch = ItemPatch(name: string, priceCents: int, imagePath: Option<string>, categoryId: Option<Uuid>)

  function ApplyItemPatch(i: MenuItem, p: ItemPatch): MenuItem
  {
    i.(name := p.name, priceCents := p.priceCents, imagePath := p.imagePath, categoryId := p.categoryId)
  }

  /**
   * UPDATE menu_items SET name, price, image_path, category_id WHERE id = id:
   * rejected when a row is hit and either the new price does not fit the
   * `numeric(10, 2)` column or the new `category_id` names no category.
   */
  function UpdateMenuItem(t: Tables, id: string, p: ItemPatch): (r: Result<Tables, DbError>)
    ensures r.Failure? <==>
      (exists x :: x in t.menuItems && x.id == id) &&
      (!PriceFits(p.priceCents) || (p.categoryId.Some? && p.categoryId.value !in CategoryIds(t)))
    ensures r.Success? ==> r.value.organizations == t.organizations && r.value.categories == t.categories
    ensures r.Success? ==> |r.value.menuItems| == |t.menuItems|
    ensures r.Success? ==> forall k :: 0 <= k < |t.menuItems| ==>
      r.value.menuItems[k] == if t.menuItems[k].id == id then ApplyItemPatch(t.menuItems[k], p) else t.menuItems[k]
    ensures Valid(t) && r.Success? ==> Valid(r.value)
  {
    var hit := exists x :: x in t.menuItems && x.id == id;
    if hit && !PriceFits(p.priceCents) then Failure(NumericOverflow("price"))
    else if hit && p.categoryId.Some? && p.categoryId.value !in CategoryIds(t) then
      Failure(ForeignKeyViolation("category_id"))
    else
      UpdateMenuItemKeepsValid(t, id, p);
      Success(t.(menuItems := Map(t.menuItems, PatchRow(id, p))))
  }

  function PatchRow(id: string, p: ItemPatch): MenuItem -> MenuItem
  {
    (i: MenuItem) => if i.id == id then ApplyItemPatch(i, p) else i
  }

  lemma UpdateMenuItemKeepsValid(t: Tables, id: string, p: ItemPatch)
    requires !((exists x :: x in t.menuItems && x.id == id) && p.categoryId.Some? && p.categoryId.value !in CategoryIds(t))
    ensures Valid(t) ==> Valid(t.(menuItems := Map(t.menuItems, PatchRow(id, p))))
  {
    var f := PatchRow(id, p);
    var r := t.(menuItems := Map(t.menuItems, f));
    if Valid(t) {
      UniqueMap(t.menuItems, (i: MenuItem) => i.id, f);
      forall x | x in r.menuItems ensures x.organizationId in OrgIds(r) &&
        (x.categoryId.Some? ==> x.categoryId.value in CategoryIds(r))
      {
        var k :| 0 <= k < |r.menuItems| && r.menuItems[k] == x;
        assert t.menuItems[k] in t.menuItems;
      }
    }
  }

  // ---------------------------------------------------------------- deletes

  /** ON DELETE SET NULL: clear a `category_id` that names a deleted category. */
  function ClearCategory(i: MenuItem, deleted: set<string>): (i': MenuItem)
    ensures i' == if i.categoryId.Some? && i.categoryId.value in deleted then i.(categoryId := None) else i
  {
    if i.categoryId.Some? && i.categoryId.value in deleted then i.(categoryId := None) else i
  }

  function KeepCategory(id: string): Category -> bool
  {
    (c: Category) => c.id != id
  }

  function ClearRefs(deleted: set<string>): MenuItem -> MenuItem
  {
    (i: MenuItem) => ClearCategory(i, deleted)
  }

  lemma DeleteCategoryKeepsValid(t: Tables, id: string)
    ensures Valid(t) ==> Valid(Tables(t.organizations, Filter(t.categories, KeepCategory(id)), Map(t.menuItems, ClearRefs({id}))))
  {
    var f := ClearRefs({id});
    var r := Tables(t.organizations, Filter(t.categories, KeepCategory(id)), Map(t.menuItems, f));
    if Valid(t) {
      UniqueFilter(t.categories, (c: Category) => c.id, KeepCategory(id));
      UniqueMap(t.menuItems, (i: MenuItem) => i.id, f);
      forall x | x in r.menuItems && x.categoryId.Some? ensures x.categoryId.value in CategoryIds(r) {
        var k :| 0 <= k < |r.menuItems| && r.menuItems[k] == x;
        var i := t.menuItems[k];
        assert i in t.menuItems;
        var c :| c in t.categories && c.id == i.categoryId.value;
        assert c in r.categories;
      }
      forall x | x in r.menuItems ensures x.organizationId in OrgIds(r) {
        var k :| 0 <= k < |r.menuItems| && r.menuItems[k] == x;
        assert t.menuItems[k] in t.menuItems;
      }
    }
  }

  /**
   * DELETE FROM categories WHERE id = id; ON DELETE SET NULL clears the
   * `category_id` of the items that named it.
   */
  function DeleteCategory(t: Tables, id: string): (r: Tables)
    ensures r.organizations == t.organizations
    ensures forall c :: c in r.categories <==> c in t.categories && c.id != id
    ensures |r.menuItems| == |t.menuItems|
    ensures forall k :: 0 <= k < |t.menuItems| ==>
      r.menuItems[k] == if t.menuItems[k].categoryId == Some(id) then t.menuItems[k].(categoryId := None) else t.menuItems[k]
    ensures Valid(t) ==> Valid(r)
  {
    DeleteCategoryKeepsValid(t, id);
    Tables(t.organizations, Filter(t.categories, KeepCategory(id)), Map(t.menuItems, ClearRefs({id})))
  }

  /** DELETE FROM menu_items WHERE id = id: removes that row, or nothing. */
  function DeleteMenuItem(t: Tables, id: string): (r: Tables)
    ensures r.organizations == t.organizations && r.categories == t.categories
    ensures forall x :: multiset(r.menuItems)[x] == if x.id == id then 0 else multiset(t.menuItems)[x]
    ensures Valid(t) ==> Valid(r)
  {
    DeleteMenuItemKeepsValid(t, id);
    t.(menuItems := Filter(t.menuItems, KeepItem(id)))
  }

  function KeepItem(id: string): MenuItem -> bool
  {
    (i: MenuItem) => i.id != id
  }

  lemma DeleteMenuItemKeepsValid(t: Tables, id: string)
    ensures Valid(t) ==> Valid(t.(menuItems := Filter(t.menuItems, KeepItem(id))))
  {
    var r := t.(menuItems := Filter(t.menuItems, KeepItem(id)));
    if Valid(t) {
      UniqueFilter(t.menuItems, (i: MenuItem) => i.id, KeepItem(id));
      assert forall i :: i in r.menuItems ==> i in t.menuItems;
    }
  }

  /** The ids of the categories an organization owns: those its deletion cascades to. */
  function OwnedCategoryIds(t: Tables, id: string): set<string>
  {
    set c | c in t.categories && c.organizationId == id :: c.id
  }

  /**
   * DELETE FROM organizations WHERE id = id. ON DELETE CASCADE removes its
   * categories and its menu items; ON DELETE SET NULL then clears the
   * `category_id` of any other organization's item that named one of the
   * removed categories.
   */
  function DeleteOrganization(t: Tables, id: string): (r: Tables)
    ensures forall o :: o in r.organizations <==> o in t.organizations && o.id != id
    ensures forall c :: c in r.categories <==> c in t.categories && c.organizationId != id
    ensures forall i :: i in r.menuItems ==> i.organizationId != id
    ensures forall i :: i in t.menuItems && i.organizationId != id ==> ClearCategory(i, OwnedCategoryIds(t, id)) in r.menuItems
  {
    var f := (i: MenuItem) => ClearCategory(i, OwnedCategoryIds(t, id));
    var kept := Filter(t.menuItems, (i: MenuItem) => i.organizationId != id);
    var r := Tables(
      Filter(t.organizations, (o: Organization) => o.id != id),
      Filter(t.categories, (c: Category) => c.organizationId != id),
      Map(kept, f));
    MapMembers(kept, f);
    r
  }

  /** Every item left after the cascade was an item of another organization, with at most its category cleared. */
  lemma DeleteOrganizationItems(t: Tables, id: string)
    ensures forall x :: x in DeleteOrganization(t, id).menuItems ==>
      exists i :: i in t.menuItems && i.organizationId != id && x == ClearCategory(i, OwnedCategoryIds(t, id))
  {
    var r := DeleteOrganization(t, id);
    var kept := Filter(t.menuItems, (i: MenuItem) => i.organizationId != id);
    assert r.menuItems == Map(kept, (i: MenuItem) => ClearCategory(i, OwnedCategoryIds(t, id)));
    forall x | x in r.menuItems
      ensures exists i :: i in t.menuItems && i.organizationId != id && x == ClearCategory(i, OwnedCategoryIds(t, id))
    {
      var k :| 0 <= k < |r.menuItems| && r.menuItems[k] == x;
      assert kept[k] in kept;
    }
  }

  /** The cascade keeps the UNIQUE and PRIMARY KEY columns unique. */
  lemma DeleteOrganizationKeys(t: Tables, id: string)
    requires Valid(t)
    ensures var r := DeleteOrganization(t, id);
      && UniqueBy(r.organizations, (o: Organization) => o.id)
      && UniqueBy(r.organizations, (o: Organization) => o.clerkOrgId)
      && UniqueBy(r.organizations, (o: Organization) => o.slug)
      && UniqueBy(r.categories, (c: Category) => c.id)
      && UniqueBy(r.menuItems, (i: MenuItem) => i.id)
  {
    var f := (i: MenuItem) => ClearCategory(i, OwnedCategoryIds(t, id));
    var kept := Filter(t.menuItems, (i: MenuItem) => i.organizationId != id);
    UniqueFilter(t.organizations, (o: Organization) => o.id, (o: Organization) => o.id != id);
    UniqueFilter(t.organizations, (o: Organization) => o.clerkOrgId, (o: Organization) => o.id != id);
    UniqueFilter(t.organizations, (o: Organization) => o.slug, (o: Organization) => o.id != id);
    UniqueFilter(t.categories, (c: Category) => c.id, (c: Category) => c.organizationId != id);
    UniqueFilter(t.menuItems, (i: MenuItem) => i.id, (i: MenuItem) => i.organizationId != id);
    UniqueMap(kept, (i: MenuItem) => i.id, f);
  }

  /** After the cascade every foreign key still names an existing row. */
  lemma DeleteOrganizationReferences(t: Tables, id: string)
    requires Valid(t)
    ensures var r := DeleteOrganization(t, id);
      && (forall c :: c in r.categories ==> c.organizationId in OrgIds(r))
      && (forall i :: i in r.menuItems ==> i.organizationId in OrgIds(r))
      && (forall i :: i in r.menuItems && i.categoryId.Some? ==> i.categoryId.value in CategoryIds(r))
  {
    var r := DeleteOrganization(t, id);
    var deleted := OwnedCategoryIds(t, id);
    forall c | c in r.categories ensures c.organizationId in OrgIds(r) {
      var o :| o in t.organizations && o.id == c.organizationId;
      assert o in r.organizations;
    }
    DeleteOrganizationItems(t, id);
    forall x | x in r.menuItems ensures x.organizationId in OrgIds(r)
    {
      var i :| i in t.menuItems && i.organizationId != id && x == ClearCategory(i, deleted);
      var o :| o in t.organizations && o.id == i.organizationId;
      assert o in r.organizations;
    }
    forall x | x in r.menuItems && x.categoryId.Some? ensures x.categoryId.value in CategoryIds(r)
    {
      var i :| i in t.menuItems && i.organizationId != id && x == ClearCategory(i, deleted);
      var c :| c in t.categories && c.id == i.categoryId.value;
      assert c.id !in deleted;
      assert c in r.categories;
    }
  }

  /** The cascade leaves a state that meets every constraint. */
  lemma DeleteOrganizationValid(t: Tables, id: string)
    requires Valid(t)
    ensures Valid(DeleteOrganization(t, id))
  {
    DeleteOrganizationKeys(t, id);
    DeleteOrganizationReferences(t, id);
  }
}
