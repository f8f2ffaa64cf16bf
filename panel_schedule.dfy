/** The inverter rows of the panel schedule on the design-report page: three rows per
    inverter, one per phase, numbered by consecutive circuits. */
module PanelSchedule {

  import opened Text

  /** One row of the panel table. */
  datatype PanelRow = PanelRow(description: string, loadVa: string, cktBkr: string, phase: string, circuit: nat)

  /** The row of phase `j` of inverter `i`: only the first phase names the inverter and carries
      the breaker and the phase count. */
  function Row(i: nat, j: nat): PanelRow
  {
    PanelRow(if j == 0 then "INVERTER " + NatToString(i + 1) else "",
             "30000",
             if j == 0 then "50" else "",
             if j == 0 then "3" else "",
             3 * i + j + 1)
  }

  /** `rows` holds, for `n` inverters, the three phase rows of each inverter in turn. */
  predicate Scheduled(rows: seq<PanelRow>, n: nat)
  {
    |rows| == 3 * n &&
    forall i: nat, j: nat :: i < n && j < 3 ==> rows[3 * i + j] == Row(i, j)
  }

  /** The nested loops that append a row per inverter and phase, numbering each row one past
      the rows already there. */
  method InverterRows(inverterCount: nat) returns (rows: seq<PanelRow>)
    ensures Scheduled(rows, inverterCount)
  {
    rows := [];
    for i := 0 to inverterCount
      invariant |rows| == 3 * i
      invariant forall a: nat, b: nat :: a < i && b < 3 ==> rows[3 * a + b] == Row(a, b)
    {
      for j := 0 to 3
        invariant |rows| == 3 * i + j
        invariant forall a: nat, b: nat :: (a < i && b < 3) || (a == i && b < j) ==> rows[3 * a + b] == Row(a, b)
      {
        var row := PanelRow(if j == 0 then "INVERTER " + NatToString(i + 1) else "",
                            "30000",
                            if j == 0 then "50" else "",
                            if j == 0 then "3" else "",
                            |rows| + 1);
        rows := rows + [row];
      }
    }
  }

  /** Every row is the row of phase `k % 3` of inverter `k / 3`. */
  lemma RowOf(rows: seq<PanelRow>, n: nat, k: nat)
    requires Scheduled(rows, n) && k < |rows|
    ensures rows[k] == Row(k / 3, k % 3)
  {
    var i, j := k / 3, k % 3;
    assert k == 3 * i + j;
  }

  /** The circuits are numbered 1 to three times the inverter count, in row order. */
  lemma Circuits(rows: seq<PanelRow>, n: nat)
    requires Scheduled(rows, n)
    ensures forall k :: 0 <= k < |rows| ==> rows[k].circuit == k + 1
  {
    forall k | 0 <= k < |rows| ensures rows[k].circuit == k + 1 {
      RowOf(rows, n, k);
    }
  }

  /** Exactly the first row of each inverter carries a description, the breaker "50" and the
      phase "3"; every row carries the load "30000". */
  lemma FirstRowsOnly(rows: seq<PanelRow>, n: nat, k: nat)
    requires Scheduled(rows, n) && k < |rows|
    ensures rows[k].description != "" <==> k % 3 == 0
    ensures rows[k].cktBkr == (if k % 3 == 0 then "50" else "")
    ensures rows[k].phase == (if k % 3 == 0 then "3" else "")
    ensures rows[k].loadVa == "30000"
  {
    RowOf(rows, n, k);
  }

  /** The first row of inverter `i` names `INVERTER i+1`, and no two rows name the same
      inverter. */
  lemma Descriptions(rows: seq<PanelRow>, n: nat, k: nat, l: nat)
    requires Scheduled(rows, n) && k < |rows| && l < |rows| && k != l
    requires rows[k].description != "" && rows[l].description != ""
    ensures rows[k].description == "INVERTER " + NatToString(k / 3 + 1)
    ensures rows[k].description != rows[l].description
  {
    RowOf(rows, n, k);
    RowOf(rows, n, l);
    FirstRowsOnly(rows, n, k);
    FirstRowsOnly(rows, n, l);
    assert k / 3 != l / 3;
    NatToStringInjective(k / 3 + 1, l / 3 + 1);
    PrefixCancel("INVERTER ", NatToString(k / 3 + 1), NatToString(l / 3 + 1));
  }

  /** Appending different texts to the same prefix gives different texts. */
  lemma PrefixCancel(p: string, a: string, b: string)
    requires a != b
    ensures p + a != p + b
  {
    assert (p + a)[|p|..] == a;
    assert (p + b)[|p|..] == b;
  }
}
