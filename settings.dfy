/**
 * The settings server actions: uploading an image into the caller's folder of
 * the image bucket, switching the public and the admin theme, editing the
 * organization's name and images, reading the settings and creating the
 * default organization.
 */
module SettingsActions {
  import opened Wrappers
  import opened Text
  import opened Query
  import opened Schema
  import opened Tenant
  import opened Database
  import Templates
  import AdminTemplates

  // ---------------------------------------------------------------- uploadImage

  /** `file.name.split(".").pop() || "webp"`: the text after the last dot, or the whole name when it has none. */
  function FileExtension(name: string): (ext: string)
    ensures ext != [] && '.' !in ext
    ensures ext == "webp" <==> AfterLastDot(name) == [] || AfterLastDot(name) == "webp"
    ensures ext != "webp" ==> ext == AfterLastDot(name)
  {
    var last := AfterLastDot(name);
    assert '.' !in "webp" by {
      assert forall k :: 0 <= k < 4 ==> "webp"[k] != '.';
    }
    if last == [] then "webp" else last
  }

  /** A name with no dot is its own extension. */
  lemma FileExtensionWithoutDot(name: string)
    requires name != [] && '.' !in name
    ensures FileExtension(name) == name
  {
    assert [] + name == name;
    AfterLastDotUnique([], name);
  }

  /** The object key `${userId}/${timestamp}.${ext}`. */
  function UploadPath(userId: string, name: string, now: nat): (path: string)
    ensures userId + "/" <= path
  {
    userId + "/" + DecimalString(now) + "." + FileExtension(name)
  }

  /** The extension of the stored object is the extension of the uploaded file. */
  lemma UploadPathExtension(userId: string, name: string, now: nat)
    ensures AfterLastDot(UploadPath(userId, name, now)) == FileExtension(name)
  {
    var pre := userId + "/" + DecimalString(now) + ".";
    assert UploadPath(userId, name, now) == pre + FileExtension(name);
    AfterLastDotUnique(pre, FileExtension(name));
  }

  /** Two uploads by one user at different times get different keys, whatever the files. */
  lemma UploadPathDistinct(userId: string, name1: string, now1: nat, name2: string, now2: nat)
    requires now1 != now2
    ensures UploadPath(userId, name1, now1) != UploadPath(userId, name2, now2)
  {
    StampedDistinct(userId + "/", now1, FileExtension(name1), now2, FileExtension(name2), '.');
  }

  /**
   * `uploadImage` against the set of keys in the bucket (`file` is the uploaded
   * file's name, `None` when the form has no file). Without upsert an existing
   * key is an error; the result is the key the file was stored under.
   */
  function UploadImageOutcome(bucket: set<string>, auth: Option<string>, file: Option<string>, now: nat)
    : (r: (Result<string, ActionError>, set<string>))
    ensures !Truthy(auth) ==> r == (Failure(Unauthorized), bucket)
    ensures Truthy(auth) && file.None? ==> r == (Failure(NoFileProvided), bucket)
    ensures r.0.Failure? ==> r.1 == bucket
    ensures r.0.Success? ==> r.0.value !in bucket && r.1 == bucket + {r.0.value}
    ensures r.0.Success? ==> auth.value + "/" <= r.0.value
    ensures Truthy(auth) && file.Some? ==>
      var path := UploadPath(auth.value, file.value, now);
      r == if path in bucket then (Failure(UploadFailed), bucket) else (Success(path), bucket + {path})
  {
    match CheckAuth(auth)
    case Failure(e) => (Failure(e), bucket)
    case Success(userId) =>
      if file.None? then (Failure(NoFileProvided), bucket)
      else
        var path := UploadPath(userId, file.value, now);
        if path in bucket then (Failure(UploadFailed), bucket)
        else (Success(path), bucket + {path})
  }

  /**
   * A second upload by the same user at another time never collides with the
   * first: it fails only when its key was already in the bucket before both.
   */
  lemma UploadAgainLater(bucket: set<string>, auth: Option<string>, name1: string, now1: nat, name2: string, now2: nat)
    requires now1 != now2
    requires UploadImageOutcome(bucket, auth, Some(name1), now1).0.Success?
    ensures var after := UploadImageOutcome(bucket, auth, Some(name1), now1).1;
      UploadImageOutcome(after, auth, Some(name2), now2).0.Success? <==> UploadPath(auth.value, name2, now2) !in bucket
  {
    var p1, p2 := UploadPath(auth.value, name1, now1), UploadPath(auth.value, name2, now2);
    UploadPathDistinct(auth.value, name2, now2, name1, now1);
    var after := UploadImageOutcome(bucket, auth, Some(name1), now1).1;
    assert after == bucket + {p1};
    assert p2 in after <==> p2 in bucket;
  }

  // ---------------------------------------------------------------- organization updates

  /** The caller's organization; the actions that need one fail with "Organization not found". */
  function CallerOrg(t: Tables, auth: Option<string>): (r: Result<Uuid, ActionError>)
    ensures !Truthy(auth) ==> r == Failure(Unauthorized)
    ensures Truthy(auth) ==> (r.Success? <==> GetOrgId(t, auth.value).Some?)
    ensures r.Success? ==> Some(r.value) == GetOrgId(t, auth.value)
    ensures Truthy(auth) && r.Failure? ==> r.error == OrganizationNotFound
  {
    match CheckAuth(auth)
    case Failure(e) => Failure(e)
    case Success(userId) =>
      match GetOrgId(t, userId)
      case None => Failure(OrganizationNotFound)
      case Some(oid) => Success(oid)
  }

  /** UPDATE organizations SET <patch> WHERE id = <the caller's organization>. */
  function PatchCallerOrg(t: Tables, auth: Option<string>, p: OrgPatch): (r: (Result<(), ActionError>, Tables))
    ensures r.0.Failure? <==> CallerOrg(t, auth).Failure?
    ensures r.0.Failure? ==> r == (Failure(CallerOrg(t, auth).error), t)
    ensures r.0.Success? ==> r.1 == Schema.UpdateOrganization(t, CallerOrg(t, auth).value, p)
    ensures Schema.Valid(t) ==> Schema.Valid(r.1)
  {
    match CallerOrg(t, auth)
    case Failure(e) => (Failure(e), t)
    case Success(oid) => (Success(()), Schema.UpdateOrganization(t, oid, p))
  }

  function ThemePatch(theme: Templates.TemplateId): OrgPatch
  {
    OrgPatch(None, Some(Some(theme.Key())), None, None, None)
  }

  function AdminThemePatch(theme: AdminTemplates.AdminTemplateId): OrgPatch
  {
    OrgPatch(None, None, Some(Some(theme.Key())), None, None)
  }

  /** The fields of `updateOrganizationInfo`'s argument; an absent key leaves its column alone. */
  datatype OrgInfo = OrgInfo(name: Option<string>, logoUrl: Option<Option<string>>, faviconUrl: Option<Option<string>>)

  function InfoPatch(info: OrgInfo): OrgPatch
  {
    OrgPatch(info.name, None, None, info.logoUrl, info.faviconUrl)
  }

  /** `updateOrganizationTheme`. */
  function UpdateOrganizationThemeOutcome(t: Tables, auth: Option<string>, theme: Templates.TemplateId)
    : (r: (Result<(), ActionError>, Tables))
    ensures r.0.Failure? <==> CallerOrg(t, auth).Failure?
    ensures r.0.Failure? ==> r == (Failure(CallerOrg(t, auth).error), t)
    ensures r.1.categories == t.categories && r.1.menuItems == t.menuItems
    ensures Schema.Valid(t) ==> Schema.Valid(r.1)
  {
    PatchCallerOrg(t, auth, ThemePatch(theme))
  }

  /** `updateAdminTheme`. */
  function UpdateAdminThemeOutcome(t: Tables, auth: Option<string>, theme: AdminTemplates.AdminTemplateId)
    : (r: (Result<(), ActionError>, Tables))
    ensures r.0.Failure? <==> CallerOrg(t, auth).Failure?
    ensures r.0.Failure? ==> r == (Failure(CallerOrg(t, auth).error), t)
    ensures r.1.categories == t.categories && r.1.menuItems == t.menuItems
    ensures Schema.Valid(t) ==> Schema.Valid(r.1)
  {
    PatchCallerOrg(t, auth, AdminThemePatch(theme))
  }

  /** `updateOrganizationInfo`. */
  function UpdateOrganizationInfoOutcome(t: Tables, auth: Option<string>, info: OrgInfo)
    : (r: (Result<(), ActionError>, Tables))
    ensures r.0.Failure? <==> CallerOrg(t, auth).Failure?
    ensures r.0.Failure? ==> r == (Failure(CallerOrg(t, auth).error), t)
    ensures r.1.categories == t.categories && r.1.menuItems == t.menuItems
    ensures Schema.Valid(t) ==> Schema.Valid(r.1)
  {
    PatchCallerOrg(t, auth, InfoPatch(info))
  }

  /**
   * On a valid store a theme switch by the owner of row `k` sets exactly that
   * row's `theme_preset`, which then selects the chosen template; every other
   * row and table is untouched.
   */
  lemma UpdateOrganizationThemeEffect(t: Tables, userId: string, theme: Templates.TemplateId, k: nat)
    requires Schema.Valid(t) && userId != "" && k < |t.organizations| && t.organizations[k].clerkOrgId == userId
    ensures var (r, t') := UpdateOrganizationThemeOutcome(t, Some(userId), theme);
      && r == Success(())
      && t'.organizations[k] == t.organizations[k].(themePreset := Some(theme.Key()))
      && Templates.ResolveTemplateId(t'.organizations[k].themePreset) == theme
      && (forall j :: 0 <= j < |t.organizations| && j != k ==> t'.organizations[j] == t.organizations[j])
      && t'.categories == t.categories && t'.menuItems == t.menuItems
  {
    PatchOwnRow(t, userId, ThemePatch(theme), k);
    assert Templates.ParseTemplateId(theme.Key()) == Some(theme);
  }

  /** A patch of the caller's organization rewrites row k, the caller's, and no other row. */
  lemma PatchOwnRow(t: Tables, userId: string, p: OrgPatch, k: nat)
    requires Schema.Valid(t) && userId != "" && k < |t.organizations| && t.organizations[k].clerkOrgId == userId
    ensures var (r, t') := PatchCallerOrg(t, Some(userId), p);
      && r == Success(())
      && t'.organizations[k] == Schema.ApplyOrgPatch(t.organizations[k], p)
      && (forall j :: 0 <= j < |t.organizations| && j != k ==> t'.organizations[j] == t.organizations[j])
      && t'.categories == t.categories && t'.menuItems == t.menuItems
  {
    var o := t.organizations[k];
    assert o in t.organizations;
    OrgByClerkIdFinds(t, userId);
    forall j | 0 <= j < |t.organizations| && j != k
      ensures t.organizations[j].id != o.id
    {
      assert t.organizations[j] in t.organizations;
    }
  }

  /** The three organization updates write nothing for a caller without an organization. */
  lemma UpdateWithoutOrganization(t: Tables, userId: string, p: OrgPatch)
    requires Schema.Valid(t) && userId != ""
    requires forall o :: o in t.organizations ==> o.clerkOrgId != userId
    ensures PatchCallerOrg(t, Some(userId), p) == (Failure(OrganizationNotFound), t)
  {
    OrgByClerkIdFinds(t, userId);
  }

  /**
   * The admin theme switch sets exactly the caller's `admin_theme`, which then
   * selects the chosen admin template.
   */
  lemma UpdateAdminThemeEffect(t: Tables, userId: string, theme: AdminTemplates.AdminTemplateId, k: nat)
    requires Schema.Valid(t) && userId != "" && k < |t.organizations| && t.organizations[k].clerkOrgId == userId
    ensures var (r, t') := UpdateAdminThemeOutcome(t, Some(userId), theme);
      && r == Success(())
      && t'.organizations[k] == t.organizations[k].(adminTheme := Some(theme.Key()))
      && AdminTemplates.ResolveAdminTemplateId(t'.organizations[k].adminTheme) == theme
      && (forall j :: 0 <= j < |t.organizations| && j != k ==> t'.organizations[j] == t.organizations[j])
      && t'.categories == t.categories && t'.menuItems == t.menuItems
  {
    PatchOwnRow(t, userId, AdminThemePatch(theme), k);
    assert AdminTemplates.ParseAdminTemplateId(theme.Key()) == Some(theme);
  }

  /**
   * Only the keys present are written: a given name or image (null included)
   * replaces the column, an absent key keeps it, and the id, owner, slug and
   * themes never change.
   */
  lemma UpdateOrganizationInfoEffect(t: Tables, userId: string, info: OrgInfo, k: nat)
    requires Schema.Valid(t) && userId != "" && k < |t.organizations| && t.organizations[k].clerkOrgId == userId
    ensures var (r, t') := UpdateOrganizationInfoOutcome(t, Some(userId), info);
      var o, o' := t.organizations[k], t'.organizations[k];
      && r == Success(())
      && o'.id == o.id && o'.clerkOrgId == o.clerkOrgId && o'.slug == o.slug
      && o'.themePreset == o.themePreset && o'.adminTheme == o.adminTheme
      && o'.name == (if info.name.Some? then info.name.value else o.name)
      && o'.logoUrl == (if info.logoUrl.Some? then info.logoUrl.value else o.logoUrl)
      && o'.faviconUrl == (if info.faviconUrl.Some? then info.faviconUrl.value else o.faviconUrl)
  {
    PatchOwnRow(t, userId, InfoPatch(info), k);
  }

  /** `updateOrganizationTheme` on the store. */
  method UpdateOrganizationTheme(db: Store, auth: Option<string>, theme: Templates.TemplateId)
    returns (r: Result<(), ActionError>)
    modifies db
    ensures (r, db.State()) == UpdateOrganizationThemeOutcome(old(db.State()), auth, theme)
  {
    r := PatchCaller(db, auth, ThemePatch(theme));
  }

  /** `updateAdminTheme` on the store. */
  method UpdateAdminTheme(db: Store, auth: Option<string>, theme: AdminTemplates.AdminTemplateId)
    returns (r: Result<(), ActionError>)
    modifies db
    ensures (r, db.State()) == UpdateAdminThemeOutcome(old(db.State()), auth, theme)
  {
    r := PatchCaller(db, auth, AdminThemePatch(theme));
  }

  /** `updateOrganizationInfo` on the store. */
  method UpdateOrganizationInfo(db: Store, auth: Option<string>, info: OrgInfo)
    returns (r: Result<(), ActionError>)
    modifies db
    ensures (r, db.State()) == UpdateOrganizationInfoOutcome(old(db.State()), auth, info)
  {
    r := PatchCaller(db, auth, InfoPatch(info));
  }

  method PatchCaller(db: Store, auth: Option<string>, p: OrgPatch) returns (r: Result<(), ActionError>)
    modifies db
    ensures (r, db.State()) == PatchCallerOrg(old(db.State()), auth, p)
  {
    var user := CheckAuth(auth);
    if user.Failure? {
      return Failure(user.error);
    }
    var oid := GetOrgId(db.State(), user.value);
    if oid.None? {
      return Failure(OrganizationNotFound);
    }
    db.UpdateOrganization(oid.value, p);
    r := Success(());
  }

  // ---------------------------------------------------------------- reads and the default organization

  /** `getOrganizationSettings`: the caller's organization row, or null. */
  method GetOrganizationSettings(db: Store, auth: Option<string>) returns (r: Result<Option<Organization>, ActionError>)
    ensures r.Failure? <==> !Truthy(auth)
    ensures r.Failure? ==> r.error == Unauthorized
    ensures r.Success? && r.value.Some? ==> r.value.value in db.organizations && r.value.value.clerkOrgId == auth.value
    ensures r.Success? && Schema.Valid(db.State()) ==>
      (r.value.None? <==> forall o :: o in db.organizations ==> o.clerkOrgId != auth.value)
  {
    var user := CheckAuth(auth);
    if user.Failure? {
      return Failure(user.error);
    }
    if Schema.Valid(db.State()) {
      OrgByClerkIdFinds(db.State(), user.value);
    }
    r := Success(OrgByClerkId(db.State(), user.value));
  }

  const DefaultSlugPrefix: string := "restaurante-"

  /** Default organizations created at different times get different slugs. */
  lemma DefaultSlugDistinct(id1: Uuid, u1: string, now1: nat, id2: Uuid, u2: string, now2: nat)
    requires now1 != now2
    ensures DefaultOrganization(id1, u1, now1).slug != DefaultOrganization(id2, u2, now2).slug
  {
    var d1, d2 := DecimalString(now1), DecimalString(now2);
    if DefaultSlugPrefix + d1 == DefaultSlugPrefix + d2 {
      assert d1 == (DefaultSlugPrefix + d1)[|DefaultSlugPrefix|..];
      assert d2 == (DefaultSlugPrefix + d2)[|DefaultSlugPrefix|..];
      DecimalStringInjective(now1, now2);
    }
  }

  /** The row `createDefaultOrganization` inserts. */
  function DefaultOrganization(id: Uuid, userId: string, now: nat): (o: Organization)
    ensures o.id == id && o.clerkOrgId == userId && o.name == DefaultOrganizationName
    ensures o.themePreset == Some(DefaultThemePreset) && o.adminTheme == Some(DefaultAdminTheme)
    ensures o.slug == DefaultSlugPrefix + DecimalString(now)
    ensures o.logoUrl.None? && o.faviconUrl.None?
  {
    Organization(id, userId, DefaultOrganizationName, DefaultSlugPrefix + DecimalString(now),
      Some(DefaultThemePreset), Some(DefaultAdminTheme), None, None)
  }

  /**
   * `createDefaultOrganization`: the caller's organization when there is one,
   * otherwise the inserted default; a rejected insert is thrown.
   */
  function CreateDefaultOrganizationOutcome(t: Tables, auth: Option<string>, now: nat, newId: Uuid)
    : (r: (Result<Organization, ActionError>, Tables))
    ensures !Truthy(auth) ==> r == (Failure(Unauthorized), t)
    ensures r.0.Failure? ==> r.1 == t
    ensures r.0.Success? ==> r.0.value in r.1.organizations && r.0.value.clerkOrgId == auth.value
    ensures Schema.Valid(t) ==> Schema.Valid(r.1)
  {
    match CheckAuth(auth)
    case Failure(e) => (Failure(e), t)
    case Success(userId) =>
      match OrgByClerkId(t, userId)
      case Some(o) => (Success(o), t)
      case None =>
        var o := DefaultOrganization(newId, userId, now);
        match Schema.InsertOrganization(t, o)
        case Success(t') => (Success(o), t')
        case Failure(e) => (Failure(StoreError(e)), t)
  }

  /** `createDefaultOrganization` on the store. */
  method CreateDefaultOrganization(db: Store, auth: Option<string>, now: nat, newId: Uuid)
    returns (r: Result<Organization, ActionError>)
    modifies db
    ensures (r, db.State()) == CreateDefaultOrganizationOutcome(old(db.State()), auth, now, newId)
  {
    var user := CheckAuth(auth);
    if user.Failure? {
      return Failure(user.error);
    }
    var existing := OrgByClerkId(db.State(), user.value);
    if existing.Some? {
      return Success(existing.value);
    }
    var inserted := db.InsertOrganization(DefaultOrganization(newId, user.value, now));
    if inserted.Failure? {
      return Failure(StoreError(inserted.error));
    }
    r := Success(inserted.value);
  }

  /**
   * On a valid store the action is idempotent: once it has succeeded, calling
   * it again (at any time, with any new id) returns the same organization and
   * changes nothing.
   */
  lemma CreateDefaultOrganizationIdempotent(t: Tables, auth: Option<string>, now1: nat, id1: Uuid, now2: nat, id2: Uuid)
    requires Schema.Valid(t)
    requires CreateDefaultOrganizationOutcome(t, auth, now1, id1).0.Success?
    ensures var (r1, t1) := CreateDefaultOrganizationOutcome(t, auth, now1, id1);
      CreateDefaultOrganizationOutcome(t1, auth, now2, id2) == (r1, t1)
  {
    var (r1, t1) := CreateDefaultOrganizationOutcome(t, auth, now1, id1);
    assert Schema.Valid(t1);
    OrgByClerkIdFinds(t1, auth.value);
  }

  /**
   * A caller without an organization gets the default row appended, unless
   * its id or its `restaurante-<time>` slug is taken, which is reported as the
   * store's unique violation with nothing changed.
   */
  lemma CreateDefaultOrganizationInserts(t: Tables, userId: string, now: nat, newId: Uuid)
    requires Schema.Valid(t) && userId != ""
    requires forall o :: o in t.organizations ==> o.clerkOrgId != userId
    ensures var (r, t') := CreateDefaultOrganizationOutcome(t, Some(userId), now, newId);
      var o := DefaultOrganization(newId, userId, now);
      if newId in OrgIds(t) then r == Failure(StoreError(UniqueViolation("id"))) && t' == t
      else if exists x :: x in t.organizations && x.slug == o.slug then
        r == Failure(StoreError(UniqueViolation("slug"))) && t' == t
      else r == Success(o) && t' == t.(organizations := t.organizations + [o])
  {
    OrgByClerkIdFinds(t, userId);
    assert OrgByClerkId(t, userId).None?;
    var o := DefaultOrganization(newId, userId, now);
    if newId in OrgIds(t) {
      assert Schema.InsertOrganization(t, o) == Failure(UniqueViolation("id"));
    } else if exists x :: x in t.organizations && x.slug == o.slug {
      assert Schema.InsertOrganization(t, o) == Failure(UniqueViolation("slug"));
    } else {
      assert Schema.InsertOrganization(t, o).Success?;
    }
  }
}
