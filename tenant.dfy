/**
 * What every server action shares: the authentication gate (`checkAuth`), the
 * errors the actions throw, and resolving the caller's organization by
 * `clerk_org_id` (`getOrgId`).
 */
module Tenant {
  import opened Wrappers
  import opened Query
  import opened Schema

  /** The name given to an auto-provisioned organization. */
  const DefaultOrganizationName: string := "Meu Restaurante"

  /** The admin theme an auto-provisioned organization starts with. */
  const DefaultAdminTheme: string := "sunset"

  /** The errors the actions throw; `StoreError` carries a rejected write's cause. */
  datatype ActionError =
    | Unauthorized
    | CouldNotCreateOrganization
    | OrgNotFoundCreateCategoryFirst
    | OrganizationNotFound
    | NoFileProvided
    | UploadFailed
    | StoreError(cause: DbError)
  {
    /**
     * The message of the thrown `Error`: a fixed, non-empty text per failure, except a
     * rejected write, which passes the store's own message through.
     */
    function Message(): (m: string)
      ensures StoreError? ==> m == cause.column
      ensures !StoreError? ==> |m| > 0
      ensures UploadFailed? ==> "Upload failed: " <= m
    {
      match this
      case Unauthorized => "Unauthorized"
      case CouldNotCreateOrganization => "Could not create organization"
      case OrgNotFoundCreateCategoryFirst => "Org not found. Create a category first."
      case OrganizationNotFound => "Organization not found"
      case NoFileProvided => "No file provided"
      case UploadFailed => "Upload failed: "
      case StoreError(cause) => cause.column
    }
  }

  /** Two different fixed failures never throw the same text, so a caller can tell them apart. */
  lemma MessagesDistinct(a: ActionError, b: ActionError)
    requires !a.StoreError? && !b.StoreError? && a != b
    ensures a.Message() != b.Message()
  {
  }

  /**
   * `checkAuth`: the caller's `userId`, or "Unauthorized" when there is none.
   * `None` is a request without a session; "" is falsy and is refused too.
   */
  function CheckAuth(auth: Option<string>): (r: Result<string, ActionError>)
    ensures r.Success? <==> Truthy(auth)
    ensures r.Success? ==> auth == Some(r.value) && r.value != ""
    ensures r.Failure? ==> r.error == Unauthorized
  {
    if Truthy(auth) then Success(auth.value) else Failure(Unauthorized)
  }

  /** `select(...).eq("clerk_org_id", userId).single()` on organizations. */
  function OrgByClerkId(t: Tables, userId: string): (r: Option<Organization>)
    ensures r.Some? ==> r.value in t.organizations && r.value.clerkOrgId == userId
  {
    Single(Filter(t.organizations, (o: Organization) => o.clerkOrgId == userId))
  }

  /** On a valid store the lookup finds the caller's organization exactly when one exists. */
  lemma OrgByClerkIdFinds(t: Tables, userId: string)
    requires Schema.Valid(t)
    ensures OrgByClerkId(t, userId).None? <==> forall o :: o in t.organizations ==> o.clerkOrgId != userId
    ensures forall o :: o in t.organizations && o.clerkOrgId == userId ==> OrgByClerkId(t, userId) == Some(o)
  {
    SingleOnUnique(t.organizations, (o: Organization) => o.clerkOrgId, (o: Organization) => o.clerkOrgId == userId);
  }

  /** A form field holding a row id, `value || null`: a missing or empty field is no id. */
  function FormId(v: Option<string>): (r: Option<Uuid>)
    ensures r.None? <==> !Truthy(v)
    ensures r.Some? ==> v == Some(r.value)
  {
    if Truthy(v) then Some(v.value) else None
  }

  /** `getOrgId`: the id of the caller's organization, `data?.id`. */
  function GetOrgId(t: Tables, userId: string): (r: Option<Uuid>)
    ensures r.Some? <==> OrgByClerkId(t, userId).Some?
    ensures r.Some? ==> r.value == OrgByClerkId(t, userId).value.id
    ensures r.Some? ==> exists o :: o in t.organizations && o.clerkOrgId == userId && o.id == r.value
  {
    match OrgByClerkId(t, userId)
    case Some(o) => Some(o.id)
    case None => None
  }
}
