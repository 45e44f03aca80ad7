/**
 * The menu-facing theme catalog: five fixed style-token records, a lookup by id
 * that falls back to "neo-brutal", and the rendering of a template as CSS
 * custom properties.
 */
module Templates {
  import opened Wrappers

  /** The closed set of menu template ids, `TemplateId`. */
  datatype TemplateId = NeoBrutal | Minimal | Dark | Colorful | Rustic
  {
    /** The catalog key and `id` string of the template. */
    function Key(): string
    {
      match this
      case NeoBrutal => "neo-brutal"
      case Minimal => "minimal"
      case Dark => "dark"
      case Colorful => "colorful"
      case Rustic => "rustic"
    }

    /** The position of the id among the catalog's keys. */
    function Index(): (i: nat)
      ensures i < 5
    {
      match this
      case NeoBrutal => 0
      case Minimal => 1
      case Dark => 2
      case Colorful => 3
      case Rustic => 4
    }
  }

  /** The template id a string names, if any: the own keys of the `templates` record. */
  function ParseTemplateId(s: string): (r: Option<TemplateId>)
    ensures forall id: TemplateId :: r == Some(id) <==> id.Key() == s
  {
    if s == "neo-brutal" then Some(NeoBrutal)
    else if s == "minimal" then Some(Minimal)
    else if s == "dark" then Some(Dark)
    else if s == "colorful" then Some(Colorful)
    else if s == "rustic" then Some(Rustic)
    else None
  }

  const DefaultTemplateId: TemplateId := NeoBrutal

  datatype Styles = Styles(
    background: string,
    foreground: string,
    primary: string,
    primaryForeground: string,
    secondary: string,
    secondaryForeground: string,
    muted: string,
    mutedForeground: string,
    accent: string,
    accentForeground: string,
    border: string,
    borderWidth: string,
    borderRadius: string,
    shadow: string,
    fontHeading: string,
    fontBody: string)

  datatype Template = Template(
    id: TemplateId,
    name: string,
    description: string,
    preview: string,
    styles: Styles)

  /** The style tokens of the `neo-brutal` entry. */
  function NeoBrutalStyles(): Styles
  {
    Styles("#FFFBEB", "#1C1917", "#FACC15", "#1C1917", "#FEF3C7", "#1C1917",
      "#F5F5F4", "#78716C", "#1C1917", "#FACC15", "#1C1917", "2px", "0px",
      "4px 4px 0px #1C1917", "'Space Grotesk', sans-serif", "'Inter', sans-serif")
  }

  /** The style tokens of the `minimal` entry. */
  function MinimalStyles(): Styles
  {
    Styles("#FFFFFF", "#171717", "#171717", "#FFFFFF", "#FAFAFA", "#171717",
      "#F5F5F5", "#737373", "#171717", "#FFFFFF", "#E5E5E5", "1px", "8px",
      "0 1px 3px rgba(0,0,0,0.1)", "'Outfit', sans-serif", "'Inter', sans-serif")
  }

  /** The style tokens of the `dark` entry. */
  function DarkStyles(): Styles
  {
    Styles("#0A0A0A", "#FAFAFA", "#D4AF37", "#0A0A0A", "#1C1C1C", "#FAFAFA",
      "#262626", "#A3A3A3", "#D4AF37", "#0A0A0A", "#2A2A2A", "1px", "4px",
      "0 4px 12px rgba(0,0,0,0.5)", "'Playfair Display', serif", "'Inter', sans-serif")
  }

  /** The style tokens of the `colorful` entry. */
  function ColorfulStyles(): Styles
  {
    Styles("#FDF2F8", "#1E293B", "#EC4899", "#FFFFFF", "#E0F2FE", "#1E293B",
      "#F1F5F9", "#64748B", "#8B5CF6", "#FFFFFF", "#E2E8F0", "2px", "16px",
      "0 4px 14px rgba(236, 72, 153, 0.15)", "'Poppins', sans-serif", "'Inter', sans-serif")
  }

  /** The style tokens of the `rustic` entry. */
  function RusticStyles(): Styles
  {
    Styles("#FFFBF5", "#3D2314", "#8B4513", "#FFFBF5", "#F5E6D3", "#3D2314",
      "#EDE0D4", "#6B5344", "#2D5016", "#FFFBF5", "#D4C4B0", "1px", "4px",
      "0 2px 8px rgba(61, 35, 20, 0.1)", "'Playfair Display', serif", "'Lora', serif")
  }

  /** The display name of each entry. */
  function TemplateName(id: TemplateId): string
  {
    match id
    case NeoBrutal => "Neo Brutal"
    case Minimal => "Minimal"
    case Dark => "Dark Mode"
    case Colorful => "Colorful"
    case Rustic => "Rustic"
  }

  /** The description of each entry. */
  function TemplateDescription(id: TemplateId): string
  {
    match id
    case NeoBrutal => "Bordas marcadas, sombras duras, alto contraste"
    case Minimal => "Clean, elegante, muito espaço branco"
    case Dark => "Fundo escuro, detalhes dourados, sofisticado"
    case Colorful => "Vibrante, gradientes suaves, divertido"
    case Rustic => "Tons terrosos, acolhedor, tradicional"
  }

  /** The preview glyph of each entry. */
  function TemplatePreview(id: TemplateId): string
  {
    match id
    case NeoBrutal => "⚡"
    case Minimal => "✨"
    case Dark => "🌙"
    case Colorful => "🌈"
    case Rustic => "🍕"
  }

  /** The style tokens of each entry. */
  function TemplateStyles(id: TemplateId): Styles
  {
    match id
    case NeoBrutal => NeoBrutalStyles()
    case Minimal => MinimalStyles()
    case Dark => DarkStyles()
    case Colorful => ColorfulStyles()
    case Rustic => RusticStyles()
  }

  /** The constant `templates` record, keyed by id. */
  function Catalog(id: TemplateId): (t: Template)
    ensures t.id == id
  {
    Template(id, TemplateName(id), TemplateDescription(id), TemplatePreview(id), TemplateStyles(id))
  }

  /**
   * The id `getTemplate` resolves to: the key when `id` is a key of the
   * catalog, otherwise (null, undefined, "" or an unknown string) "neo-brutal".
   * `None` stands for null and undefined.
   */
  function ResolveTemplateId(id: Option<string>): (k: TemplateId)
    ensures forall k': TemplateId :: id == Some(k'.Key()) ==> k == k'
    ensures (forall k': TemplateId :: id != Some(k'.Key())) ==> k == DefaultTemplateId
  {
    if id.Some? && ParseTemplateId(id.value).Some? then ParseTemplateId(id.value).value
    else DefaultTemplateId
  }

  /** `getTemplate`: the catalog entry of the resolved id. */
  function GetTemplate(id: Option<string>): (t: Template)
    ensures t.id == ResolveTemplateId(id)
    ensures t == Catalog(t.id)
  {
    Catalog(ResolveTemplateId(id))
  }

  /** Looking a template up by its own id gives that template back. */
  lemma GetTemplateOfCatalogEntry(k: TemplateId)
    ensures GetTemplate(Some(Catalog(k).id.Key())) == Catalog(k)
  {
    GetTemplateByKey(k);
  }

  /** A template's key selects that template. */
  lemma GetTemplateByKey(k: TemplateId)
    ensures GetTemplate(Some(k.Key())).id == k
  {
    assert ParseTemplateId(k.Key()) == Some(k);
  }

  /** The lookup is idempotent: resolving the id of a resolved template changes nothing. */
  lemma GetTemplateIdempotent(x: Option<string>)
    ensures GetTemplate(Some(GetTemplate(x).id.Key())) == GetTemplate(x)
  {
    GetTemplateByKey(GetTemplate(x).id);
  }

  /** The keys of `templates`, in declaration order. */
  const TemplateIds: seq<TemplateId> := [NeoBrutal, Minimal, Dark, Colorful, Rustic]

  /** Every id is listed once, at its index. */
  lemma TemplateIdsListed()
    ensures |TemplateIds| == 5
    ensures forall k: TemplateId :: TemplateIds[k.Index()] == k
    ensures forall i, j :: 0 <= i < j < 5 ==> TemplateIds[i] != TemplateIds[j]
  {
  }

  /** `templateList = Object.values(templates)`, in the record's key order. */
  function TemplateList(): (r: seq<Template>)
    ensures |r| == 5
    ensures forall k: TemplateId :: Catalog(k) in r
    ensures forall i :: 0 <= i < |r| ==> r[i] == Catalog(r[i].id)
    ensures forall i, j :: 0 <= i < j < |r| ==> r[i].id != r[j].id
  {
    var r := seq(5, i requires 0 <= i < 5 => Catalog(TemplateIds[i]));
    TemplateIdsListed();
    assert forall k: TemplateId :: r[k.Index()] == Catalog(k);
    r
  }

  /** One CSS custom-property declaration `property: value;`. */
  datatype Declaration = Declaration(property: string, value: string)

  /** The sixteen custom properties `getTemplateCSS` emits, in order. */
  const CssProperties: seq<string> := [
    "--background", "--foreground", "--primary", "--primary-foreground",
    "--secondary", "--secondary-foreground", "--muted", "--muted-foreground",
    "--accent", "--accent-foreground", "--border", "--border-width",
    "--radius", "--shadow", "--font-heading", "--font-body"]

  ghost predicate DistinctProperties(ds: seq<Declaration>)
  {
    forall i, j :: 0 <= i < j < |ds| ==> ds[i].property != ds[j].property
  }

  /** The declarations of a style bundle, one per custom property, in `CssProperties` order. */
  function Declarations(s: Styles): (ds: seq<Declaration>)
    ensures |ds| == |CssProperties| == 16
    ensures forall i :: 0 <= i < |ds| ==> ds[i].property == CssProperties[i]
    ensures DistinctProperties(ds)
  {
    [ Declaration("--background", s.background),
      Declaration("--foreground", s.foreground),
      Declaration("--primary", s.primary),
      Declaration("--primary-foreground", s.primaryForeground),
      Declaration("--secondary", s.secondary),
      Declaration("--secondary-foreground", s.secondaryForeground),
      Declaration("--muted", s.muted),
      Declaration("--muted-foreground", s.mutedForeground),
      Declaration("--accent", s.accent),
      Declaration("--accent-foreground", s.accentForeground),
      Declaration("--border", s.border),
      Declaration("--border-width", s.borderWidth),
      Declaration("--radius", s.borderRadius),
      Declaration("--shadow", s.shadow),
      Declaration("--font-heading", s.fontHeading),
      Declaration("--font-body", s.fontBody) ]
  }

  /** The value the first declaration of property p carries, as a browser reads a custom property. */
  function Lookup(ds: seq<Declaration>, p: string): Option<string>
  {
    if ds == [] then None
    else if ds[0].property == p then Some(ds[0].value)
    else Lookup(ds[1..], p)
  }

  lemma {:induction false} LookupAt(ds: seq<Declaration>, k: nat)
    requires k < |ds| && DistinctProperties(ds)
    ensures Lookup(ds, ds[k].property) == Some(ds[k].value)
  {
    if k > 0 {
      assert ds[0].property != ds[k].property;
      LookupAt(ds[1..], k - 1);
    }
  }

  /** Reads the style bundle back from declarations: the partner of `Declarations`. */
  function StylesOf(ds: seq<Declaration>): Option<Styles>
  {
    var v := (i: nat) requires i < 16 => Lookup(ds, CssProperties[i]);
    if forall i :: 0 <= i < 16 ==> v(i).Some? then
      Some(Styles(v(0).value, v(1).value, v(2).value, v(3).value, v(4).value, v(5).value,
        v(6).value, v(7).value, v(8).value, v(9).value, v(10).value, v(11).value,
        v(12).value, v(13).value, v(14).value, v(15).value))
    else None
  }

  /**
   * Every style token reaches the CSS under its own property and none is lost:
   * for instance `--radius` carries `borderRadius`.
   */
  lemma DeclarationsRoundTrip(s: Styles)
    ensures StylesOf(Declarations(s)) == Some(s)
  {
    var ds := Declarations(s);
    forall i | 0 <= i < 16 ensures Lookup(ds, CssProperties[i]) == Some(ds[i].value) {
      LookupAt(ds, i);
    }
  }

  function RenderLine(d: Declaration): string
  {
    "    " + d.property + ": " + d.value + ";\n"
  }

  function Render(ds: seq<Declaration>): string
  {
    if ds == [] then "" else RenderLine(ds[0]) + Render(ds[1..])
  }

  lemma {:induction false} RenderAppend(a: seq<Declaration>, b: seq<Declaration>)
    ensures Render(a + b) == Render(a) + Render(b)
  {
    if a == [] {
      assert a + b == b;
    } else {
      assert (a + b)[1..] == a[1..] + b;
      RenderAppend(a[1..], b);
    }
  }

  /** The line of the k-th declaration stands in the rendering right after the lines before it. */
  lemma RenderLineAt(ds: seq<Declaration>, k: nat)
    requires k < |ds|
    ensures var at := |Render(ds[..k])|;
            at + |RenderLine(ds[k])| <= |Render(ds)| &&
            Render(ds)[at..at + |RenderLine(ds[k])|] == RenderLine(ds[k])
  {
    assert ds == ds[..k] + ([ds[k]] + ds[k + 1..]);
    RenderAppend(ds[..k], [ds[k]] + ds[k + 1..]);
    assert ([ds[k]] + ds[k + 1..])[1..] == ds[k + 1..];
  }

  /**
   * `getTemplateCSS`: the template string of sixteen declarations, opened by a
   * newline and closed by the indentation before the closing backtick.
   */
  function TemplateCSS(t: Template): (css: string)
    ensures |css| == 3 + |Render(Declarations(t.styles))|
    ensures css[0] == '\n' && css[|css| - 2..] == "  "
  {
    "\n" + Render(Declarations(t.styles)) + "  "
  }

  /**
   * The CSS holds, for each k, the line declaring the k-th custom property with
   * the value of the matching style token, right after the lines before it.
   */
  lemma TemplateCSSLine(t: Template, k: nat)
    requires k < 16
    ensures var ds := Declarations(t.styles);
            var at := 1 + |Render(ds[..k])|;
            var line := RenderLine(Declaration(CssProperties[k], ds[k].value));
            at + |line| <= |TemplateCSS(t)| && TemplateCSS(t)[at..at + |line|] == line
  {
    var ds := Declarations(t.styles);
    var css := TemplateCSS(t);
    assert css == "\n" + Render(ds) + "  ";
    RenderLineAt(ds, k);
    assert ds[k] == Declaration(CssProperties[k], ds[k].value);
    var at := |Render(ds[..k])|;
    SliceOfMiddle("\n", Render(ds), "  ", at, at + |RenderLine(ds[k])|);
  }

  lemma SliceOfMiddle(a: string, r: string, b: string, i: nat, j: nat)
    requires i <= j <= |r|
    ensures (a + r + b)[|a| + i..|a| + j] == r[i..j]
  {
    var s := a + r + b;
    assert forall m :: 0 <= m < j - i ==> s[|a| + i..|a| + j][m] == r[i..j][m];
  }
}
