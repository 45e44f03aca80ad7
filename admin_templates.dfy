/**
 * The admin-panel theme catalog: three fixed records of Tailwind class tokens
 * and a guarded lookup that falls back to "sunset".
 */
module AdminTemplates {
  import opened Wrappers

  /** The closed set of admin template ids, `AdminTemplateId`. */
  datatype AdminTemplateId = Sunset | Ocean | Midnight
  {
    function Key(): string
    {
      match this
      case Sunset => "sunset"
      case Ocean => "ocean"
      case Midnight => "midnight"
    }

    /** The position of the id among the catalog's keys. */
    function Index(): (i: nat)
      ensures i < 3
    {
      match this
      case Sunset => 0
      case Ocean => 1
      case Midnight => 2
    }
  }

  /** `id in adminTemplates` over the record's own keys. */
  function ParseAdminTemplateId(s: string): (r: Option<AdminTemplateId>)
    ensures forall id: AdminTemplateId :: r == Some(id) <==> id.Key() == s
  {
    if s == "sunset" then Some(Sunset)
    else if s == "ocean" then Some(Ocean)
    else if s == "midnight" then Some(Midnight)
    else None
  }

  const DefaultAdminTemplateId: AdminTemplateId := Sunset

  datatype AdminColors = AdminColors(
    sidebarBg: string,
    sidebarText: string,
    sidebarTextMuted: string,
    sidebarBorder: string,
    sidebarHover: string,
    sidebarActive: string,
    sidebarActiveShadow: string,
    logoBg: string,
    logoAccent: string,
    logoShadow: string,
    headerBg: string,
    headerText: string,
    headerTextMuted: string,
    searchBg: string,
    searchBorder: string,
    searchFocus: string,
    mainBg: string,
    mainPattern: string,
    cardBg: string,
    cardBorder: string,
    cardText: string,
    cardTextMuted: string,
    bannerGradient: string,
    bannerText: string,
    actionPrimary: string,
    actionSecondary: string,
    actionTertiary: string,
    accent: string,
    accentLight: string,
    accentGradient: string)

  datatype AdminTemplate = AdminTemplate(
    id: AdminTemplateId,
    name: string,
    description: string,
    icon: string,
    colors: AdminColors)

  /** The color tokens of the `sunset` entry. */
  function SunsetColors(): AdminColors
  {
    AdminColors(
      "bg-linear-to-b from-slate-900 via-slate-800 to-slate-900",
      "text-white",
      "text-slate-400",
      "border-slate-700/50",
      "hover:text-white hover:bg-slate-700/50",
      "bg-linear-to-r from-amber-500 to-orange-500 text-white shadow-lg shadow-amber-500/25",
      "shadow-amber-500/25",
      "bg-linear-to-r from-amber-500/10 to-orange-500/10",
      "bg-linear-to-br from-amber-400 to-orange-500",
      "shadow-amber-500/20",
      "bg-white/80",
      "text-slate-900",
      "text-slate-500",
      "bg-slate-50",
      "border-slate-200",
      "focus:ring-amber-500/50 focus:border-amber-500",
      "bg-linear-to-br from-slate-50 via-white to-slate-100",
      "rgb(226 232 240)",
      "bg-white/80",
      "border-slate-200/50",
      "text-slate-900",
      "text-slate-500",
      "bg-linear-to-r from-amber-500 via-orange-500 to-rose-500",
      "text-white",
      "bg-blue-500 hover:bg-blue-600",
      "bg-amber-500 hover:bg-amber-600",
      "bg-emerald-500 hover:bg-emerald-600",
      "amber",
      "text-amber-400",
      "from-amber-500 to-orange-500")
  }

  /** The color tokens of the `ocean` entry. */
  function OceanColors(): AdminColors
  {
    AdminColors(
      "bg-linear-to-b from-blue-950 via-blue-900 to-slate-900",
      "text-white",
      "text-blue-300/70",
      "border-blue-700/30",
      "hover:text-white hover:bg-blue-800/50",
      "bg-linear-to-r from-cyan-500 to-blue-500 text-white shadow-lg shadow-cyan-500/25",
      "shadow-cyan-500/25",
      "bg-linear-to-r from-cyan-500/10 to-blue-500/10",
      "bg-linear-to-br from-cyan-400 to-blue-500",
      "shadow-cyan-500/20",
      "bg-white/80",
      "text-slate-900",
      "text-slate-500",
      "bg-slate-50",
      "border-slate-200",
      "focus:ring-cyan-500/50 focus:border-cyan-500",
      "bg-linear-to-br from-blue-50/50 via-white to-cyan-50/30",
      "rgb(219 234 254)",
      "bg-white/80",
      "border-blue-100",
      "text-slate-900",
      "text-slate-500",
      "bg-linear-to-r from-cyan-500 via-blue-500 to-indigo-500",
      "text-white",
      "bg-cyan-500 hover:bg-cyan-600",
      "bg-blue-500 hover:bg-blue-600",
      "bg-teal-500 hover:bg-teal-600",
      "cyan",
      "text-cyan-400",
      "from-cyan-500 to-blue-500")
  }

  /** The color tokens of the `midnight` entry. */
  function MidnightColors(): AdminColors
  {
    AdminColors(
      "bg-linear-to-b from-zinc-950 via-zinc-900 to-black",
      "text-white",
      "text-zinc-500",
      "border-zinc-800",
      "hover:text-white hover:bg-zinc-800",
      "bg-linear-to-r from-violet-500 to-purple-500 text-white shadow-lg shadow-violet-500/25",
      "shadow-violet-500/25",
      "bg-linear-to-r from-violet-500/10 to-purple-500/10",
      "bg-linear-to-br from-violet-400 to-purple-500",
      "shadow-violet-500/20",
      "bg-zinc-900/90",
      "text-white",
      "text-zinc-400",
      "bg-zinc-800",
      "border-zinc-700",
      "focus:ring-violet-500/50 focus:border-violet-500",
      "bg-linear-to-br from-zinc-900 via-zinc-950 to-black",
      "rgb(39 39 42)",
      "bg-zinc-800/80",
      "border-zinc-700/50",
      "text-white",
      "text-zinc-400",
      "bg-linear-to-r from-violet-600 via-purple-600 to-fuchsia-600",
      "text-white",
      "bg-violet-500 hover:bg-violet-600",
      "bg-purple-500 hover:bg-purple-600",
      "bg-fuchsia-500 hover:bg-fuchsia-600",
      "violet",
      "text-violet-400",
      "from-violet-500 to-purple-500")
  }

  /** The display name of each entry. */
  function AdminName(id: AdminTemplateId): string
  {
    match id
    case Sunset => "Sunset"
    case Ocean => "Ocean"
    case Midnight => "Midnight"
  }

  /** The description of each entry. */
  function AdminDescription(id: AdminTemplateId): string
  {
    match id
    case Sunset => "Tons quentes de âmbar e laranja"
    case Ocean => "Azul profundo e tons de cyan"
    case Midnight => "Modo escuro elegante"
  }

  /** The icon of each entry. */
  function AdminIcon(id: AdminTemplateId): string
  {
    match id
    case Sunset => "🌅"
    case Ocean => "🌊"
    case Midnight => "🌙"
  }

  /** The color tokens of each entry. */
  function AdminColorsOf(id: AdminTemplateId): AdminColors
  {
    match id
    case Sunset => SunsetColors()
    case Ocean => OceanColors()
    case Midnight => MidnightColors()
  }

  /** The constant `adminTemplates` record, keyed by id. */
  function AdminCatalog(id: AdminTemplateId): (t: AdminTemplate)
    ensures t.id == id
  {
    AdminTemplate(id, AdminName(id), AdminDescription(id), AdminIcon(id), AdminColorsOf(id))
  }

  /**
   * The id `getAdminTemplate` resolves to: the key when `id` is truthy and a key
   * of the catalog, otherwise (null, undefined, "" or an unknown string) "sunset".
   */
  function ResolveAdminTemplateId(id: Option<string>): (k: AdminTemplateId)
    ensures forall k': AdminTemplateId :: id == Some(k'.Key()) ==> k == k'
    ensures (forall k': AdminTemplateId :: id != Some(k'.Key())) ==> k == DefaultAdminTemplateId
  {
    if Truthy(id) && ParseAdminTemplateId(id.value).Some? then
      ParseAdminTemplateId(id.value).value
    else
      DefaultAdminTemplateId
  }

  /** `getAdminTemplate`: the catalog entry of the resolved id. */
  function GetAdminTemplate(id: Option<string>): (t: AdminTemplate)
    ensures t.id == ResolveAdminTemplateId(id)
    ensures t == AdminCatalog(t.id)
  {
    AdminCatalog(ResolveAdminTemplateId(id))
  }

  /** null, undefined and "" select the default. */
  lemma GetAdminTemplateFalsy(id: Option<string>)
    requires !Truthy(id)
    ensures GetAdminTemplate(id) == AdminCatalog(Sunset)
  {
  }

  /** The lookup is idempotent. */
  lemma GetAdminTemplateIdempotent(x: Option<string>)
    ensures GetAdminTemplate(Some(GetAdminTemplate(x).id.Key())) == GetAdminTemplate(x)
  {
    var t := GetAdminTemplate(x);
    GetAdminTemplateByKey(t.id);
  }

  /** An admin template's key selects that template. */
  lemma GetAdminTemplateByKey(k: AdminTemplateId)
    ensures GetAdminTemplate(Some(k.Key())).id == k
  {
    assert ParseAdminTemplateId(k.Key()) == Some(k);
  }

  /** The keys of `adminTemplates`, in declaration order. */
  const AdminTemplateIds: seq<AdminTemplateId> := [Sunset, Ocean, Midnight]

  /**
   * The catalog has exactly three entries: every id is listed once, at its
   * index, and each key string names exactly its own entry.
   */
  lemma AdminCatalogKeys()
    ensures |AdminTemplateIds| == 3
    ensures forall k: AdminTemplateId :: AdminTemplateIds[k.Index()] == k
    ensures forall i, j :: 0 <= i < j < 3 ==> AdminTemplateIds[i] != AdminTemplateIds[j]
    ensures forall k: AdminTemplateId :: ParseAdminTemplateId(k.Key()) == Some(k)
  {
  }
}
