/**
 * The category server actions: listing the caller's categories, creating a
 * category (provisioning the caller's organization first when it has none) and
 * deleting a category by id.
 */
module CategoryActions {
  import opened Wrappers
  import opened Query
  import opened Text
  import opened Schema
  import opened Tenant
  import opened Database

  /** `getCategories`: the caller's categories, ascending by `order_index`; [] without an organization. */
  method GetCategories(db: Store, auth: Option<string>) returns (r: Result<seq<Category>, ActionError>)
    ensures r.Failure? <==> !Truthy(auth)
    ensures r.Failure? ==> r.error == Unauthorized
    ensures Truthy(auth) && OrgByClerkId(db.State(), auth.value).None? ==> r == Success([])
    ensures Truthy(auth) && OrgByClerkId(db.State(), auth.value).Some? ==>
      var org := OrgByClerkId(db.State(), auth.value).value;
      && r.Success?
      && SortedBy(r.value, CategoryOrder)
      && forall c :: multiset(r.value)[c] == if c.organizationId == org.id then multiset(db.categories)[c] else 0
  {
    var user := CheckAuth(auth);
    if user.Failure? {
      return Failure(user.error);
    }
    var org := OrgByClerkId(db.State(), user.value);
    if org.None? {
      return Success([]);
    }
    var rows := Filter(db.categories, (c: Category) => c.organizationId == org.value.id);
    r := Success(SortBy(rows, CategoryOrder));
  }

  /** The slug of an auto-provisioned organization: `menu-${Date.now()}-${userId.slice(-6).toLowerCase()}`. */
  function ProvisionSlug(userId: string, now: nat): (slug: string)
    ensures var stamp := "menu-" + DecimalString(now) + "-";
      var k := if |userId| < 6 then |userId| else 6;
      && stamp <= slug
      && slug[|stamp|..] == ToLower(userId[|userId| - k..])
      && forall i :: |stamp| <= i < |slug| ==> !('A' <= slug[i] <= 'Z')
  {
    var stamp := "menu-" + DecimalString(now) + "-";
    LowerTail(stamp, userId);
    stamp + ToLower(SliceLast(userId, 6))
  }

  /** After any stamp, `slice(-6).toLowerCase()` is the user id's last six characters, or all of it, lowered. */
  lemma LowerTail(stamp: string, userId: string)
    ensures var slug := stamp + ToLower(SliceLast(userId, 6));
      var k := if |userId| < 6 then |userId| else 6;
      && stamp <= slug
      && slug[|stamp|..] == ToLower(userId[|userId| - k..])
      && forall i :: |stamp| <= i < |slug| ==> !('A' <= slug[i] <= 'Z')
  {
    var tail := ToLower(SliceLast(userId, 6));
    var slug := stamp + tail;
    assert SliceLast(userId, 6) == userId[|userId| - |SliceLast(userId, 6)|..];
    assert slug[|stamp|..] == tail;
    forall i | |stamp| <= i < |slug|
      ensures !('A' <= slug[i] <= 'Z')
    {
      assert slug[i] == tail[i - |stamp|];
    }
  }

  /** The digits of the timestamp end at the first '-' after "menu-": slugs made at different times differ. */
  lemma ProvisionSlugDistinct(u1: string, u2: string, now1: nat, now2: nat)
    requires now1 != now2
    ensures ProvisionSlug(u1, now1) != ProvisionSlug(u2, now2)
  {
    StampedDistinct("menu-", now1, ToLower(SliceLast(u1, 6)), now2, ToLower(SliceLast(u2, 6)), '-');
  }

  /** The row `createCategory` inserts for a caller without an organization. */
  function ProvisionedOrganization(id: Uuid, userId: string, now: nat): (o: Organization)
    ensures o.id == id && o.clerkOrgId == userId && o.name == DefaultOrganizationName
    ensures o.slug == ProvisionSlug(userId, now)
    ensures o.themePreset == Some(DefaultThemePreset) && o.adminTheme == Some(DefaultAdminTheme)
    ensures o.logoUrl.None? && o.faviconUrl.None?
  {
    Organization(id, userId, DefaultOrganizationName, ProvisionSlug(userId, now),
      Some(DefaultThemePreset), Some(DefaultAdminTheme), None, None)
  }

  /**
   * The caller's organization, inserting the provisioned one when there is
   * none; no organization when that insert is rejected.
   */
  function FindOrProvision(t: Tables, userId: string, now: nat, newOrgId: Uuid): (r: (Option<Organization>, Tables))
    ensures OrgByClerkId(t, userId).Some? ==> r == (OrgByClerkId(t, userId), t)
    ensures Schema.Valid(t) ==> Schema.Valid(r.1)
    ensures r.0.None? ==> r.1 == t
  {
    match OrgByClerkId(t, userId)
    case Some(o) => (Some(o), t)
    case None =>
      var o := ProvisionedOrganization(newOrgId, userId, now);
      match Schema.InsertOrganization(t, o)
      case Success(t') => (Some(o), t')
      case Failure(_) => (None, t)
  }

  /**
   * `createCategory` as a function of the table state: the result and the new
   * state. A rejected category insert is only logged: the action still returns.
   */
  function CreateCategoryOutcome(t: Tables, auth: Option<string>, name: string, description: Option<string>,
                                 now: nat, newOrgId: Uuid, newCategoryId: Uuid): (r: (Result<(), ActionError>, Tables))
    ensures !Truthy(auth) ==> r == (Failure(Unauthorized), t)
    ensures r.0.Failure? ==> r.1 == t
    ensures r.0.Failure? ==> r.0.error in {Unauthorized, CouldNotCreateOrganization}
    ensures Schema.Valid(t) ==> Schema.Valid(r.1)
  {
    match CheckAuth(auth)
    case Failure(e) => (Failure(e), t)
    case Success(userId) =>
      var (org, t1) := FindOrProvision(t, userId, now, newOrgId);
      if org.None? then (Failure(CouldNotCreateOrganization), t1)
      else
        match Schema.InsertCategory(t1, NewCategory(newCategoryId, org.value.id, name, description))
        case Success(t2) => (Success(()), t2)
        case Failure(_) => (Success(()), t1)
  }

  /** `createCategory`: the same steps on the store. */
  method CreateCategory(db: Store, auth: Option<string>, name: string, description: Option<string>,
                        now: nat, newOrgId: Uuid, newCategoryId: Uuid) returns (r: Result<(), ActionError>)
    modifies db
    ensures (r, db.State()) == CreateCategoryOutcome(old(db.State()), auth, name, description, now, newOrgId, newCategoryId)
  {
    var user := CheckAuth(auth);
    if user.Failure? {
      return Failure(user.error);
    }
    var org := OrgByClerkId(db.State(), user.value);
    if org.None? {
      var inserted := db.InsertOrganization(ProvisionedOrganization(newOrgId, user.value, now));
      if inserted.Success? {
        org := Some(inserted.value);
      }
    }
    if org.None? {
      return Failure(CouldNotCreateOrganization);
    }
    var _ := db.InsertCategory(NewCategory(newCategoryId, org.value.id, name, description));
    r := Success(());
  }

  /**
   * A caller who already has an organization gets no new one: the category, if
   * its id is free, is appended under the caller's organization; nothing else changes.
   */
  lemma CreateCategoryWithOrganization(t: Tables, userId: string, o: Organization, name: string,
                                       description: Option<string>, now: nat, newOrgId: Uuid, newCategoryId: Uuid)
    requires Schema.Valid(t) && userId != ""
    requires o in t.organizations && o.clerkOrgId == userId
    ensures var (r, t') := CreateCategoryOutcome(t, Some(userId), name, description, now, newOrgId, newCategoryId);
      && r == Success(())
      && t'.organizations == t.organizations && t'.menuItems == t.menuItems
      && t'.categories == if newCategoryId in CategoryIds(t)
                          then t.categories
                          else t.categories + [NewCategory(newCategoryId, o.id, name, description)]
  {
    OrgByClerkIdFinds(t, userId);
  }

  /**
   * First-time onboarding: a caller without an organization gets exactly one
   * new organization (`clerk_org_id` = caller, "Meu Restaurante", the generated
   * slug, default themes) and the category under it; when the organization
   * insert is rejected the action fails and nothing changes.
   */
  lemma CreateCategoryProvisions(t: Tables, userId: string, name: string, description: Option<string>,
                                 now: nat, newOrgId: Uuid, newCategoryId: Uuid)
    requires Schema.Valid(t) && userId != ""
    requires forall o :: o in t.organizations ==> o.clerkOrgId != userId
    ensures var (r, t') := CreateCategoryOutcome(t, Some(userId), name, description, now, newOrgId, newCategoryId);
      var org := ProvisionedOrganization(newOrgId, userId, now);
      if newOrgId in OrgIds(t) || exists o :: o in t.organizations && o.slug == ProvisionSlug(userId, now) then
        r == Failure(CouldNotCreateOrganization) && t' == t
      else
        && r == Success(())
        && t'.organizations == t.organizations + [org]
        && t'.menuItems == t.menuItems
        && t'.categories == if newCategoryId in CategoryIds(t)
                            then t.categories
                            else t.categories + [NewCategory(newCategoryId, newOrgId, name, description)]
  {
    var o := ProvisionedOrganization(newOrgId, userId, now);
    if newOrgId in OrgIds(t) || exists x :: x in t.organizations && x.slug == ProvisionSlug(userId, now) {
      ProvisionRejected(t, userId, now, newOrgId);
    } else {
      var t1 := t.(organizations := t.organizations + [o]);
      ProvisionAccepted(t, userId, now, newOrgId);
      assert o in t1.organizations;
      assert newOrgId in OrgIds(t1);
      assert CategoryIds(t1) == CategoryIds(t);
    }
  }

  /** The provisioning insert clashes with an existing id or slug: no organization, no change. */
  lemma ProvisionRejected(t: Tables, userId: string, now: nat, newOrgId: Uuid)
    requires Schema.Valid(t)
    requires forall o :: o in t.organizations ==> o.clerkOrgId != userId
    requires newOrgId in OrgIds(t) || exists o :: o in t.organizations && o.slug == ProvisionSlug(userId, now)
    ensures FindOrProvision(t, userId, now, newOrgId) == (None, t)
  {
    OrgByClerkIdFinds(t, userId);
    assert Schema.InsertOrganization(t, ProvisionedOrganization(newOrgId, userId, now)).Failure?;
  }

  /** The provisioning insert goes through: the new organization is appended. */
  lemma ProvisionAccepted(t: Tables, userId: string, now: nat, newOrgId: Uuid)
    requires Schema.Valid(t)
    requires forall o :: o in t.organizations ==> o.clerkOrgId != userId
    requires newOrgId !in OrgIds(t) && forall o :: o in t.organizations ==> o.slug != ProvisionSlug(userId, now)
    ensures var o := ProvisionedOrganization(newOrgId, userId, now);
      FindOrProvision(t, userId, now, newOrgId) == (Some(o), t.(organizations := t.organizations + [o]))
  {
    OrgByClerkIdFinds(t, userId);
    assert Schema.InsertOrganization(t, ProvisionedOrganization(newOrgId, userId, now)).Success?;
  }

  /**
   * Provisioning happens once: after a successful `createCategory`, a second
   * call by the same caller leaves the organizations table as it is.
   */
  lemma CreateCategoryProvisionsOnce(t: Tables, auth: Option<string>,
                                     name1: string, description1: Option<string>, now1: nat, org1: Uuid, cat1: Uuid,
                                     name2: string, description2: Option<string>, now2: nat, org2: Uuid, cat2: Uuid)
    requires Schema.Valid(t)
    requires CreateCategoryOutcome(t, auth, name1, description1, now1, org1, cat1).0.Success?
    ensures var t1 := CreateCategoryOutcome(t, auth, name1, description1, now1, org1, cat1).1;
      CreateCategoryOutcome(t1, auth, name2, description2, now2, org2, cat2).1.organizations == t1.organizations
  {
    var userId := auth.value;
    var t1 := CreateCategoryOutcome(t, auth, name1, description1, now1, org1, cat1).1;
    var (org, tp) := FindOrProvision(t, userId, now1, org1);
    assert org.Some? && org.value.clerkOrgId == userId && org.value in tp.organizations by {
      if OrgByClerkId(t, userId).None? {
        assert tp.organizations == t.organizations + [ProvisionedOrganization(org1, userId, now1)];
      }
    }
    assert t1.organizations == tp.organizations;
    assert Schema.Valid(t1);
    OrgByClerkIdFinds(t1, userId);
    CreateCategoryWithOrganization(t1, userId, org.value, name2, description2, now2, org2, cat2);
  }

  /** `deleteCategory` as a function of the table state. */
  function DeleteCategoryOutcome(t: Tables, auth: Option<string>, id: string): (r: (Result<(), ActionError>, Tables))
    ensures !Truthy(auth) ==> r == (Failure(Unauthorized), t)
    ensures Truthy(auth) ==> r.0 == Success(())
    ensures Schema.Valid(t) ==> Schema.Valid(r.1)
  {
    match CheckAuth(auth)
    case Failure(e) => (Failure(e), t)
    case Success(_) => (Success(()), Schema.DeleteCategory(t, id))
  }

  /** `deleteCategory`: removes the category with that id, whoever owns it. */
  method DeleteCategory(db: Store, auth: Option<string>, id: string) returns (r: Result<(), ActionError>)
    modifies db
    ensures (r, db.State()) == DeleteCategoryOutcome(old(db.State()), auth, id)
  {
    var user := CheckAuth(auth);
    if user.Failure? {
      return Failure(user.error);
    }
    db.DeleteCategory(id);
    r := Success(());
  }

  /**
   * No ownership check: any signed-in caller removes exactly the category with
   * that id, even one of another organization, and an unknown id changes nothing.
   */
  lemma DeleteCategoryIgnoresOwner(t: Tables, userId: string, id: string)
    requires Schema.Valid(t) && userId != ""
    ensures var t' := DeleteCategoryOutcome(t, Some(userId), id).1;
      && t'.organizations == t.organizations
      && (forall c :: c in t'.categories <==> c in t.categories && c.id != id)
      && (id !in CategoryIds(t) ==> t' == t)
  {
    var t' := DeleteCategoryOutcome(t, Some(userId), id).1;
    if id !in CategoryIds(t) {
      assert t'.categories == t.categories by {
        FilterAll(t.categories, (c: Category) => c.id != id);
      }
      assert t'.menuItems == t.menuItems;
    }
  }
}
