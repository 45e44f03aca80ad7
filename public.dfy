/**
 * The public, unauthenticated reads: the menu page's data for a slug and the
 * slug of a user's organization. Both are functions of the table contents.
 */
module PublicMenu {
  import opened Wrappers
  import opened Query
  import opened Schema
  import opened Tenant

  /** The value `getPublicMenu` returns: the organization with its active categories and items. */
  datatype PublicMenuData = PublicMenuData(organization: Organization, categories: seq<Category>, items: seq<MenuItem>)

  /** `select(...).eq("slug", slug).single()` on organizations. */
  function OrgBySlug(t: Tables, slug: string): (r: Option<Organization>)
    ensures r.Some? ==> r.value in t.organizations && r.value.slug == slug
  {
    Single(Filter(t.organizations, (o: Organization) => o.slug == slug))
  }

  /** On a valid store the slug lookup finds the organization exactly when one has that slug. */
  lemma OrgBySlugFinds(t: Tables, slug: string)
    requires Schema.Valid(t)
    ensures OrgBySlug(t, slug).None? <==> forall o :: o in t.organizations ==> o.slug != slug
    ensures forall o :: o in t.organizations && o.slug == slug ==> OrgBySlug(t, slug) == Some(o)
  {
    SingleOnUnique(t.organizations, (o: Organization) => o.slug, (o: Organization) => o.slug == slug);
  }

  /**
   * `getPublicMenu`: null without an organization for the slug; otherwise its
   * active categories and active items, each list ascending by `order_index`
   * (never null: an empty result is []). No identity is needed and nothing is written.
   */
  function GetPublicMenu(t: Tables, slug: string): (r: Option<PublicMenuData>)
    ensures r.None? <==> OrgBySlug(t, slug).None?
    ensures r.Some? ==> r.value.organization == OrgBySlug(t, slug).value
    ensures r.Some? ==>
      var oid := r.value.organization.id;
      && SortedBy(r.value.categories, CategoryOrder)
      && SortedBy(r.value.items, MenuItemOrder)
      && (forall c :: multiset(r.value.categories)[c] ==
            if c.organizationId == oid && c.isActive then multiset(t.categories)[c] else 0)
      && (forall i :: multiset(r.value.items)[i] ==
            if i.organizationId == oid && i.isActive then multiset(t.menuItems)[i] else 0)
  {
    match OrgBySlug(t, slug)
    case None => None
    case Some(org) =>
      var categories := Filter(t.categories, (c: Category) => c.organizationId == org.id && c.isActive);
      var items := Filter(t.menuItems, (i: MenuItem) => i.organizationId == org.id && i.isActive);
      Some(PublicMenuData(org, SortBy(categories, CategoryOrder), SortBy(items, MenuItemOrder)))
  }

  /**
   * On a valid store every organization's menu is published under its slug,
   * and it lists exactly its active rows: an inactive row, or a row of another
   * organization, is never shown.
   */
  lemma PublicMenuOfOrganization(t: Tables, o: Organization)
    requires Schema.Valid(t) && o in t.organizations
    ensures var r := GetPublicMenu(t, o.slug);
      && r.Some? && r.value.organization == o
      && (forall c :: c in r.value.categories <==> c in t.categories && c.organizationId == o.id && c.isActive)
      && (forall i :: i in r.value.items <==> i in t.menuItems && i.organizationId == o.id && i.isActive)
  {
    OrgBySlugFinds(t, o.slug);
    var r := GetPublicMenu(t, o.slug).value;
    forall c ensures c in r.categories <==> c in t.categories && c.organizationId == o.id && c.isActive {
      assert c in r.categories <==> multiset(r.categories)[c] > 0;
      assert c in t.categories <==> multiset(t.categories)[c] > 0;
    }
    forall i ensures i in r.items <==> i in t.menuItems && i.organizationId == o.id && i.isActive {
      assert i in r.items <==> multiset(r.items)[i] > 0;
      assert i in t.menuItems <==> multiset(t.menuItems)[i] > 0;
    }
  }

  /** `getOrganizationByUserId`: the slug of the user's organization, `undefined` without one. */
  function GetOrganizationByUserId(t: Tables, userId: string): (r: Option<string>)
    ensures r.Some? ==> exists o :: o in t.organizations && o.clerkOrgId == userId && o.slug == r.value
  {
    match OrgByClerkId(t, userId)
    case Some(o) => Some(o.slug)
    case None => None
  }

  /**
   * On a valid store the slug returned for a user opens that user's own
   * public menu; a user without an organization gets no slug.
   */
  lemma OrganizationSlugOpensOwnMenu(t: Tables, userId: string)
    requires Schema.Valid(t)
    ensures GetOrganizationByUserId(t, userId).None? <==> forall o :: o in t.organizations ==> o.clerkOrgId != userId
    ensures GetOrganizationByUserId(t, userId).Some? ==>
      var r := GetPublicMenu(t, GetOrganizationByUserId(t, userId).value);
      r.Some? && r.value.organization.clerkOrgId == userId
  {
    OrgByClerkIdFinds(t, userId);
    if GetOrganizationByUserId(t, userId).Some? {
      var o := OrgByClerkId(t, userId).value;
      OrgBySlugFinds(t, o.slug);
    }
  }
}
