/** The two pages that build a string table and call fill_table_page5: the
    design-report page, which derives every argument from the parsed report, and
    the manual String Table page, which takes them from the form. */
module StringTablePages {

  import opened Table
  import opened ColumnOrder
  import opened PanelsPerString
  import opened StringFill
  import opened FillFacts
  import opened Allocation
  import opened ReportComponents

  function Min(a: int, b: int): int
  {
    if a <= b then a else b
  }

  function Max(a: int, b: int): int
  {
    if a >= b then a else b
  }

  // ---------------------------------------------------------------------------
  // The design-report page

  /** The three `ValueError`s of the design-report page, in the order it checks them. */
  datatype ValidationError = InvalidPanels | InvalidInverters | InvalidStrings

  /** The arguments the design-report page passes to fill_table_page5. The panel count is the
      page's `num_panels`, which fill_table_page5 reads as a global. */
  datatype TableParams = TableParams(
    numPanels: nat, numInverters: nat, totalStrings: nat,
    best: int, remainder: int, cols: int, noOfMppt: int)

  datatype Checked = Valid(params: TableParams) | Invalid(error: ValidationError)

  /** `min(7, max(1, int(num_strings / num_inverters)))`: as many columns as whole strings per
      inverter, at least one and at most seven. */
  function DesignColumns(numStrings: nat, numInverters: nat): (c: int)
    requires numInverters > 0
    ensures 1 <= c <= 7
    ensures numStrings >= numInverters ==> c * numInverters <= numStrings
    ensures c < 7 ==> (c + 1) * numInverters > numStrings
  {
    Min(7, Max(1, numStrings / numInverters))
  }

  /** The validation and parameter chain of the design-report page. */
  function DesignParameters(parsed: ParsedData): (r: Checked)
    ensures r == Invalid(InvalidPanels) <==> parsed.moduleCount == 0
    ensures r == Invalid(InvalidInverters) <==> parsed.moduleCount > 0 && parsed.inverterCount == 0
    ensures r == Invalid(InvalidStrings) <==> parsed.moduleCount > 0 && parsed.inverterCount > 0 && parsed.stringCount == 0
    ensures r.Valid? ==>
      r.params.numPanels == parsed.moduleCount && r.params.numInverters == parsed.inverterCount &&
      r.params.totalStrings == Max(10, parsed.stringCount) &&
      MinPanels <= r.params.best <= MaxPanels && r.params.remainder == parsed.moduleCount % r.params.best &&
      1 <= r.params.cols <= 7 && r.params.noOfMppt == 2
  {
    var numPanels, numInverters, numStrings := parsed.moduleCount, parsed.inverterCount, parsed.stringCount;
    if numPanels <= 0 then Invalid(InvalidPanels)
    else if numInverters <= 0 then Invalid(InvalidInverters)
    else if numStrings <= 0 then Invalid(InvalidStrings)
    else
      Valid(TableParams(numPanels, numInverters, Max(10, numStrings),
                        BestPanelsPerString(numPanels), Remainder(numPanels),
                        DesignColumns(numStrings, numInverters), 2))
  }

  datatype DesignTable = Rejected(error: ValidationError) | Table(table: Grid)

  /** The table has `n` rows whose TAG and inverter-number cells are as built, and whose string
      cells from string column `unused` on are still "-". */
  predicate Labelled(t: Grid, n: nat, width: nat, unused: nat)
  {
    |t| == n &&
    forall i: nat, j: nat :: i < n && j < width + 2 ==> LabelledCell(t, i, j, unused)
  }

  /** Cell `j` of row `i` exists and is as built when it is a label or lies from string column
      `unused` on. */
  predicate LabelledCell(t: Grid, i: nat, j: nat, unused: nat)
  {
    i < |t| && j < |t[i]| &&
    (j == 0 ==> t[i][j] == Text("INV")) &&
    (j == 1 ==> t[i][j] == Num(i + 1)) &&
    (j >= unused + 2 ==> t[i][j] == Dash)
  }

  /** The string-table step of the design-report page: validate, build `["INV", i + 1]` rows
      with `max(10, num_strings)` dashes, and fill them with two MPPT groups. The step always
      returns; the table holds exactly the module count, or more when the filled columns
      alone hold more; every string column after the tenth stays "-". */
  method DesignStringTable(parsed: ParsedData) returns (r: DesignTable)
    ensures r.Rejected? <==> DesignParameters(parsed).Invalid?
    ensures r.Rejected? ==> r.error == DesignParameters(parsed).error
    ensures r.Table? ==>
      var p := DesignParameters(parsed).params;
      Total(r.table) == Max(p.numPanels, p.cols * (p.numInverters * p.best)) &&
      Labelled(r.table, p.numInverters, p.totalStrings, 10)
    ensures r.Table? ==>
      var p := DesignParameters(parsed).params;
      Returned(r.table) == FillSpec(InitialTable(p.numInverters, p.totalStrings), p.numInverters, p.best, p.cols, p.totalStrings, 2, p.numPanels)
  {
    var checked := DesignParameters(parsed);
    match checked
    case Invalid(e) =>
      r := Rejected(e);
    case Valid(p) =>
      var data := InitialTable(p.numInverters, p.totalStrings);
      FreshFits(p.numInverters, p.totalStrings, 2);
      var out := FillTable(data, p.numInverters, p.best, p.remainder, p.cols, p.totalStrings, 2, p.numPanels);
      DesignFill(p.numInverters, p.totalStrings, p.best, p.cols, p.numPanels);
      match out
      case Diverges =>
        assert false;
      case Returned(t) =>
        r := Table(t);
  }

  /** With two MPPT groups and at least ten string columns, filling `cols` columns of a fresh
      table always returns, reaches the wanted total unless the filled columns already exceed
      it, and leaves every string column after the tenth and the label cells untouched. */
  lemma DesignFill(n: nat, width: nat, k: int, cols: int, numPanels: nat)
    requires n > 0 && width >= 10 && 1 <= cols <= 7
    ensures var out := FillSpec(InitialTable(n, width), n, k, cols, width, 2, numPanels);
      out.Returned? &&
      Total(out.table) == Max(numPanels, cols * (n * k)) &&
      Labelled(out.table, n, width, 10)
  {
    TwoGroupOrder(width);
    var order := VisitOrder(2, width);
    assert FilledCount(cols, |order|) == cols;
    FreshFill(n, width, k, cols, 2, numPanels);
    var fc := FilledColumns(cols, width, 2);
    assert forall x :: x in fc ==> x < 10;
    FreshLabelled(n, width, k, cols, 2, numPanels, 10);
  }

  /** When the filled columns all lie before `unused`, the fill leaves the label cells and every
      string cell from column `unused` on as the fresh table had them. */
  lemma FreshLabelled(n: nat, width: nat, k: int, cols: int, noOfMppt: int, numPanels: int, unused: nat)
    requires FillSpec(InitialTable(n, width), n, k, cols, width, noOfMppt, numPanels).Returned?
    requires forall x :: x in FilledColumns(cols, width, noOfMppt) ==> x < unused
    ensures Labelled(FillSpec(InitialTable(n, width), n, k, cols, width, noOfMppt, numPanels).table, n, width, unused)
  {
    var out := FillSpec(InitialTable(n, width), n, k, cols, width, noOfMppt, numPanels);
    FreshShape(n, width, k, cols, noOfMppt, numPanels);
    forall i: nat, j: nat | i < n && j < width + 2
      ensures LabelledCell(out.table, i, j, unused)
    {
      FreshUntouched(n, width, k, cols, noOfMppt, numPanels, i, j);
    }
  }

  /** The fill keeps the shape of the fresh table. */
  lemma FreshShape(n: nat, width: nat, k: int, cols: int, noOfMppt: int, numPanels: int)
    requires FillSpec(InitialTable(n, width), n, k, cols, width, noOfMppt, numPanels).Returned?
    ensures |FillSpec(InitialTable(n, width), n, k, cols, width, noOfMppt, numPanels).table| == n
  {
    var t1 := Filled(InitialTable(n, width), n, k, cols, width, noOfMppt);
    var ps := Positions(t1, VisitOrder(noOfMppt, width), n);
    var d := if Total(t1) >= numPanels then 0 else numPanels - Total(t1);
    ApplyCycleKinds(t1, ps, d);
  }

  // ---------------------------------------------------------------------------
  // The manual String Table page

  /** `min(7, int(no_of_strings_used / num_inverters))`. */
  function ManualColumns(noOfStringsUsed: nat, numInverters: nat): (c: int)
    requires numInverters > 0
    ensures 0 <= c <= 7
    ensures c == 0 <==> noOfStringsUsed < numInverters
  {
    Min(7, noOfStringsUsed / numInverters)
  }

  /** The manual page with its form values: `no_of_mppt * 5` string columns, the base length
      and column count computed from the form, and the panel count passed on. */
  method ManualStringTable(numInverters: nat, numPanels: nat, noOfMppt: nat, noOfStringsUsed: nat)
    returns (out: FillOutcome)
    requires numInverters >= 1 && numPanels >= 1 && noOfMppt >= 1 && noOfStringsUsed >= 1
    ensures out == FillSpec(InitialTable(numInverters, noOfMppt * Step), numInverters, BestPanelsPerString(numPanels),
                            ManualColumns(noOfStringsUsed, numInverters), noOfMppt * Step, noOfMppt, numPanels)
    ensures out == Diverges <==> noOfStringsUsed < numInverters
    ensures out.Returned? ==>
      Total(out.table) ==
        Max(numPanels, Min(ManualColumns(noOfStringsUsed, numInverters), noOfMppt * Step) * (numInverters * BestPanelsPerString(numPanels)))
  {
    var best := BestPanelsPerString(numPanels);
    var remainder := Remainder(numPanels);
    var cols := ManualColumns(noOfStringsUsed, numInverters);
    var totalStrings := noOfMppt * Step;
    var data := InitialTable(numInverters, totalStrings);
    FreshFits(numInverters, totalStrings, noOfMppt);
    out := FillTable(data, numInverters, best, remainder, cols, totalStrings, noOfMppt, numPanels);
    ManualFill(numInverters, noOfMppt, best, cols, numPanels);
  }

  lemma ManualFill(n: nat, noOfMppt: nat, k: int, cols: int, numPanels: int)
    requires n >= 1 && noOfMppt >= 1 && 0 <= cols
    ensures var out := FillSpec(InitialTable(n, noOfMppt * Step), n, k, cols, noOfMppt * Step, noOfMppt, numPanels);
      (out == Diverges <==> cols == 0 && numPanels > 0) &&
      (out.Returned? ==> Total(out.table) == Max(numPanels, Min(cols, noOfMppt * Step) * (n * k)))
  {
    VisitOrderPermutation(noOfMppt);
    FreshFill(n, noOfMppt * Step, k, cols, noOfMppt, numPanels);
  }

  /** Two inverters and one string used: no column is filled and the page never returns. */
  lemma ManualHangExample()
    ensures ManualColumns(1, 2) == 0
    ensures FillSpec(InitialTable(2, Step), 2, BestPanelsPerString(10), ManualColumns(1, 2), Step, 1, 10) == Diverges
  {
    ManualFill(2, 1, BestPanelsPerString(10), 0, 10);
  }

  /** Fewer than five panels, and as many strings used as inverters on one MPPT group: every
      candidate base length leaves all panels over, so strings of five are chosen, one column is
      filled, and the returned table holds five panels per inverter, more than the panel count. */
  lemma OvershootExample(numInverters: nat, numPanels: nat)
    requires 1 <= numInverters && 1 <= numPanels < 5
    ensures BestPanelsPerString(numPanels) == 5 && ManualColumns(numInverters, numInverters) == 1
    ensures var out := FillSpec(InitialTable(numInverters, Step), numInverters, BestPanelsPerString(numPanels),
                                ManualColumns(numInverters, numInverters), Step, 1, numPanels);
      out.Returned? && Total(out.table) == 5 * numInverters > numPanels
  {
    SmallBest(numPanels);
    ManualFill(numInverters, 1, 5, 1, numPanels);
  }

  /** Below five panels every candidate leaves all of them over, so the tie goes to five. */
  lemma SmallBest(numPanels: int)
    requires 0 <= numPanels < 5
    ensures BestPanelsPerString(numPanels) == 5
  {
    var k := BestPanelsPerString(numPanels);
    SmallMod(numPanels, k);
    SmallMod(numPanels, 5);
  }

  lemma SmallMod(a: int, k: int)
    requires 0 <= a < k
    ensures a % k == a
  {
  }

  /** The column count the design-report page uses, `max(1, ...)` included: never zero. */
  function CorrectedManualColumns(noOfStringsUsed: nat, numInverters: nat): (c: int)
    requires numInverters > 0
    ensures 1 <= c <= 7
    ensures noOfStringsUsed >= numInverters ==> c == ManualColumns(noOfStringsUsed, numInverters)
  {
    DesignColumns(noOfStringsUsed, numInverters)
  }

  /** The manual page with the corrected column count and the corrected engine: it always
      returns, with a table holding exactly the panel count or the report that the filled
      columns alone hold more. */
  method CorrectedManualStringTable(numInverters: nat, numPanels: nat, noOfMppt: nat, noOfStringsUsed: nat)
    returns (r: Allocated)
    requires numInverters >= 1 && numPanels >= 1 && noOfMppt >= 1 && noOfStringsUsed >= 1
    ensures r.Ok? ==> Total(r.table) == numPanels
    ensures r.Err? ==>
      (r.error.Overfilled? && r.error.total > numPanels &&
       r.error.total ==
         Min(CorrectedManualColumns(noOfStringsUsed, numInverters), noOfMppt * Step) * (numInverters * BestPanelsPerString(numPanels)))
  {
    var best := BestPanelsPerString(numPanels);
    var cols := CorrectedManualColumns(noOfStringsUsed, numInverters);
    var totalStrings := noOfMppt * Step;
    var data := InitialTable(numInverters, totalStrings);
    FreshFits(numInverters, totalStrings, noOfMppt);
    CorrectedFill(numInverters, noOfMppt, best, cols, numPanels);
    r := Allocate(data, numInverters, best, cols, totalStrings, noOfMppt, numPanels);
  }

  /** With at least one column to fill, a fresh table of `no_of_mppt * 5` columns never makes the
      top-up loop run for ever, and the fill phase places `cols * n * k` panels. */
  lemma CorrectedFill(n: nat, noOfMppt: nat, k: int, cols: int, numPanels: int)
    requires n >= 1 && noOfMppt >= 1 && 1 <= cols <= 7
    ensures FillSpec(InitialTable(n, noOfMppt * Step), n, k, cols, noOfMppt * Step, noOfMppt, numPanels) != Diverges
    ensures Total(Filled(InitialTable(n, noOfMppt * Step), n, k, cols, noOfMppt * Step, noOfMppt)) ==
            Min(cols, noOfMppt * Step) * (n * k)
  {
    ManualFill(n, noOfMppt, k, cols, numPanels);
    VisitOrderPermutation(noOfMppt);
    FreshFilledTotal(n, noOfMppt * Step, k, cols, noOfMppt);
  }
}
