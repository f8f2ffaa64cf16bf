/** The cached report parsing of the design-report page: each page of the report
    contributes the text after "Inverter:", "Module:" and "String:" labels, and the
    parsed summary counts those captures and keeps the first of each kind. */
module ReportComponents {

  /** The three kinds of labelled line. */
  datatype Kind = InverterLine | ModuleLine | StringLine

  /** What the three patterns capture on one page, in the order they occur. */
  datatype PageCaptures = PageCaptures(inverters: seq<string>, modules: seq<string>, strings: seq<string>)

  /** `components_data`: the captures of all pages, one list per kind. */
  datatype ComponentsData = ComponentsData(inverters: seq<string>, modules: seq<string>, strings: seq<string>)

  /** `parsed_data` of parse_helioscope_data. */
  datatype ParsedData = ParsedData(
    inverterCount: nat, inverterModel: string,
    moduleCount: nat, moduleModel: string,
    stringCount: nat, stringConfig: string)

  function Captures(page: PageCaptures, kind: Kind): seq<string>
  {
    match kind
    case InverterLine => page.inverters
    case ModuleLine => page.modules
    case StringLine => page.strings
  }

  function Field(d: ComponentsData, kind: Kind): seq<string>
  {
    match kind
    case InverterLine => d.inverters
    case ModuleLine => d.modules
    case StringLine => d.strings
  }

  /** The captures of one kind on all pages, in page order. */
  function Flatten(pages: seq<PageCaptures>, kind: Kind): seq<string>
  {
    if pages == [] then [] else Captures(pages[0], kind) + Flatten(pages[1..], kind)
  }

  /** The number of captures of one kind on all pages. */
  function CaptureCount(pages: seq<PageCaptures>, kind: Kind): nat
  {
    if pages == [] then 0 else |Captures(pages[0], kind)| + CaptureCount(pages[1..], kind)
  }

  /** The first capture of one kind: on the first page that has one, or "" when none has. */
  function FirstCapture(pages: seq<PageCaptures>, kind: Kind): string
  {
    if pages == [] then ""
    else if Captures(pages[0], kind) != [] then Captures(pages[0], kind)[0]
    else FirstCapture(pages[1..], kind)
  }

  /** extract_components_from_pdf over the pages of a report: per page, each non-empty list of
      captures extends the list of its kind. */
  method ExtractComponents(pages: seq<PageCaptures>) returns (d: ComponentsData)
    ensures forall kind :: Field(d, kind) == Flatten(pages, kind)
  {
    d := ComponentsData([], [], []);
    for i := 0 to |pages|
      invariant d.inverters == Flatten(pages[..i], InverterLine)
      invariant d.modules == Flatten(pages[..i], ModuleLine)
      invariant d.strings == Flatten(pages[..i], StringLine)
    {
      var page := pages[i];
      FlattenStep(pages, i, InverterLine);
      FlattenStep(pages, i, ModuleLine);
      FlattenStep(pages, i, StringLine);
      if |page.inverters| > 0 {
        d := d.(inverters := d.inverters + page.inverters);
      }
      if |page.modules| > 0 {
        d := d.(modules := d.modules + page.modules);
      }
      if |page.strings| > 0 {
        d := d.(strings := d.strings + page.strings);
      }
    }
    assert pages[..|pages|] == pages;
    forall kind ensures Field(d, kind) == Flatten(pages, kind) {
      match kind
      case InverterLine =>
      case ModuleLine =>
      case StringLine =>
    }
  }

  lemma FlattenStep(pages: seq<PageCaptures>, i: nat, kind: Kind)
    requires i < |pages|
    ensures Flatten(pages[..i + 1], kind) == Flatten(pages[..i], kind) + Captures(pages[i], kind)
  {
    assert pages[..i + 1] == pages[..i] + [pages[i]];
    FlattenAppend(pages[..i], [pages[i]], kind);
    assert [pages[i]][1..] == [];
  }

  /** Reading two runs of pages one after the other concatenates their captures. */
  lemma {:induction false} FlattenAppend(a: seq<PageCaptures>, b: seq<PageCaptures>, kind: Kind)
    ensures Flatten(a + b, kind) == Flatten(a, kind) + Flatten(b, kind)
  {
    if a != [] {
      assert (a + b)[0] == a[0];
      assert (a + b)[1..] == a[1..] + b;
      FlattenAppend(a[1..], b, kind);
    } else {
      assert a + b == b;
    }
  }

  /** No capture is dropped and none is invented: the list of a kind holds exactly the captures
      of that kind of every page. */
  lemma {:induction false} FlattenMembers(pages: seq<PageCaptures>, kind: Kind, x: string)
    ensures x in Flatten(pages, kind) <==> exists i :: 0 <= i < |pages| && x in Captures(pages[i], kind)
  {
    if pages != [] {
      FlattenMembers(pages[1..], kind, x);
      if x in Flatten(pages, kind) && x !in Captures(pages[0], kind) {
        var i :| 0 <= i < |pages[1..]| && x in Captures(pages[1..][i], kind);
        assert x in Captures(pages[i + 1], kind);
      }
      if exists i :: 0 <= i < |pages| && x in Captures(pages[i], kind) {
        var i :| 0 <= i < |pages| && x in Captures(pages[i], kind);
        if i > 0 {
          assert pages[1..][i - 1] == pages[i];
        }
      }
    }
  }

  lemma {:induction false} FlattenCount(pages: seq<PageCaptures>, kind: Kind)
    ensures |Flatten(pages, kind)| == CaptureCount(pages, kind)
  {
    if pages != [] {
      FlattenCount(pages[1..], kind);
    }
  }

  lemma {:induction false} FlattenFirst(pages: seq<PageCaptures>, kind: Kind)
    ensures Flatten(pages, kind) == [] ==> FirstCapture(pages, kind) == ""
    ensures Flatten(pages, kind) != [] ==> FirstCapture(pages, kind) == Flatten(pages, kind)[0]
  {
    if pages != [] {
      FlattenFirst(pages[1..], kind);
    }
  }

  /** The first capture of a list, or "" when there is none. */
  function FirstOrEmpty(s: seq<string>): string
  {
    if s == [] then "" else s[0]
  }

  /** parse_helioscope_data: each count is the length of its list, and each model is the
      first entry of its list, or "" when the list is empty. */
  function ParseHelioscopeData(d: ComponentsData): (p: ParsedData)
    ensures forall kind :: Count(p, kind) == |Field(d, kind)|
    ensures forall kind :: Field(d, kind) != [] ==> Model(p, kind) == Field(d, kind)[0]
    ensures forall kind :: Field(d, kind) == [] ==> Model(p, kind) == ""
  {
    ParsedData(
      |d.inverters|, FirstOrEmpty(d.inverters),
      |d.modules|, FirstOrEmpty(d.modules),
      |d.strings|, FirstOrEmpty(d.strings))
  }

  function Count(p: ParsedData, kind: Kind): nat
  {
    match kind
    case InverterLine => p.inverterCount
    case ModuleLine => p.moduleCount
    case StringLine => p.stringCount
  }

  function Model(p: ParsedData, kind: Kind): string
  {
    match kind
    case InverterLine => p.inverterModel
    case ModuleLine => p.moduleModel
    case StringLine => p.stringConfig
  }

  /** The parsed summary of a report: each count is the number of captures of its kind on all
      pages, and each model is the first capture of its kind, from the earliest page that has
      one, or "" when no page has one. */
  lemma ParsedFromPages(pages: seq<PageCaptures>, d: ComponentsData, kind: Kind)
    requires forall k :: Field(d, k) == Flatten(pages, k)
    ensures Count(ParseHelioscopeData(d), kind) == CaptureCount(pages, kind)
    ensures Model(ParseHelioscopeData(d), kind) == FirstCapture(pages, kind)
  {
    FlattenCount(pages, kind);
    FlattenFirst(pages, kind);
    assert Field(d, kind) == Flatten(pages, kind);
  }
}
