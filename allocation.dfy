/** A corrected string-table engine. fill_table_page5 returns a table whose panels
    do not add up to the panel count when the fill phase already put more in, and
    never returns when no string cell holds an integer. This engine runs the same
    two phases and reports those two cases instead. */
module Allocation {

  import opened Table
  import opened ColumnOrder
  import opened StringFill
  import opened FillFacts

  datatype AllocError =
    | Overfilled(total: int)   // the fill phase alone placed `total` panels, more than wanted
    | NoStringCell             // panels are missing and no visited string cell can take them

  datatype Allocated = Ok(table: Grid) | Err(error: AllocError)

  /** Fill `data` as fill_table_page5 does, or report why the result could not hold exactly
      `numPanels` panels. */
  method Allocate(data: Grid, numInverters: nat, bestPanelsPerString: int,
                  noOfColToBeFilled: int, totalStrings: int, noOfMppt: int, numPanels: int)
    returns (r: Allocated)
    requires Fits(data, numInverters, totalStrings)
    ensures r.Ok? ==> Total(r.table) == numPanels
    ensures r.Ok? ==> FillSpec(data, numInverters, bestPanelsPerString, noOfColToBeFilled, totalStrings, noOfMppt, numPanels) == Returned(r.table)
    ensures r.Ok? <==>
            FillSpec(data, numInverters, bestPanelsPerString, noOfColToBeFilled, totalStrings, noOfMppt, numPanels).Returned? &&
            Total(FillSpec(data, numInverters, bestPanelsPerString, noOfColToBeFilled, totalStrings, noOfMppt, numPanels).table) == numPanels
    ensures (r.Err? && r.error.Overfilled?) <==>
            Total(Filled(data, numInverters, bestPanelsPerString, noOfColToBeFilled, totalStrings, noOfMppt)) > numPanels
    ensures r.Err? && r.error.Overfilled? ==>
            r.error.total == Total(Filled(data, numInverters, bestPanelsPerString, noOfColToBeFilled, totalStrings, noOfMppt))
    ensures r == Err(NoStringCell) <==>
            FillSpec(data, numInverters, bestPanelsPerString, noOfColToBeFilled, totalStrings, noOfMppt, numPanels) == Diverges
  {
    var order := BuildOrder(noOfMppt, totalStrings);
    var t := SetColumns(data, order, numInverters, bestPanelsPerString, noOfColToBeFilled);
    TopUpTotal(t, order, numInverters, numPanels);
    var total := Total(t);
    if total > numPanels {
      return Err(Overfilled(total));
    }
    var out := TopUp(t, order, numInverters, numPanels);
    match out
    case Diverges =>
      r := Err(NoStringCell);
    case Returned(u) =>
      r := Ok(u);
  }
}
