/** The string table that the String Table pages build and fill.

    A row is `["INV", i + 1] + ["-"] * total_strings`: a TAG label, the
    inverter ordinal, then one cell per string slot.  A cell is either text
    or an integer; the fill procedure tells them apart the way the program
    does, by asking whether the cell holds an integer. */
module Table {

  datatype Cell = Text(s: string) | Num(n: int)

  type Grid = seq<seq<Cell>>

  /** The "unused" marker of a string slot. */
  const Dash: Cell := Text("-")

  /** A string cell: inverter row `row`, string slot `col`, stored at index `col + 2` of the row. */
  datatype Pos = Pos(row: nat, col: nat)

  function Value(c: Cell): int
  {
    if c.Num? then c.n else 0
  }

  /** Sum of the integer cells among `row[2:j]` (text cells count nothing). */
  function RowSumTo(row: seq<Cell>, j: nat): int
    requires j <= |row|
  {
    if j <= 2 then 0 else RowSumTo(row, j - 1) + Value(row[j - 1])
  }

  /** `sum(int(cell) for cell in row[2:] if isinstance(cell, int))`. */
  function RowSum(row: seq<Cell>): int
  {
    RowSumTo(row, |row|)
  }

  /** The row sums of the first `m` rows. */
  function TotalTo(t: Grid, m: nat): int
    requires m <= |t|
  {
    if m == 0 then 0 else TotalTo(t, m - 1) + RowSum(t[m - 1])
  }

  /** The quantity the top-up loop compares with the panel count: the sum of the integer
      string cells of all rows. */
  function Total(t: Grid): int
  {
    TotalTo(t, |t|)
  }

  /** No string cell of `t` holds an integer. */
  predicate NoCounts(t: Grid)
  {
    forall r, j :: 0 <= r < |t| && 2 <= j < |t[r]| ==> t[r][j].Text?
  }

  /** No string cell of `t` holds a negative integer. */
  predicate NoNegativeCounts(t: Grid)
  {
    forall r, j :: 0 <= r < |t| && 2 <= j < |t[r]| ==> Value(t[r][j]) >= 0
  }

  /** The string cell at `p` exists and holds an integer. */
  predicate NumAt(t: Grid, p: Pos)
  {
    p.row < |t| && p.col + 2 < |t[p.row]| && t[p.row][p.col + 2].Num?
  }

  /** `data[inv][col + 2] += 1`, guarded by the integer test of the top-up loop. */
  function Bump(t: Grid, p: Pos): Grid
  {
    if NumAt(t, p) then t[p.row := t[p.row][p.col + 2 := Num(t[p.row][p.col + 2].n + 1)]] else t
  }

  /** `[["INV", i + 1] + ["-"] * width for i in range(n)]`. */
  function InitialTable(n: nat, width: nat): (t: Grid)
    ensures |t| == n
    ensures forall r :: 0 <= r < n ==> |t[r]| == width + 2
    ensures forall r :: 0 <= r < n ==> t[r][0] == Text("INV") && t[r][1] == Num(r + 1)
    ensures forall r, j :: 0 <= r < n && 2 <= j < width + 2 ==> t[r][j] == Dash
  {
    seq(n, i => [Text("INV"), Num(i + 1)] + seq(width, _ => Dash))
  }

  /** Two tables of the same shape whose cells agree on being integers,
      and whose text cells are equal. Incrementing keeps a table in this relation. */
  ghost predicate SameKinds(t: Grid, u: Grid)
  {
    |t| == |u| &&
    (forall r :: 0 <= r < |t| ==> |t[r]| == |u[r]|) &&
    (forall r, j :: 0 <= r < |t| && 0 <= j < |t[r]| ==>
       u[r][j].Num? == t[r][j].Num? && (t[r][j].Text? ==> u[r][j] == t[r][j]))
  }

  lemma {:induction false} RowSumToUpdate(row: seq<Cell>, i: nat, c: Cell, j: nat)
    requires i < |row| && j <= |row|
    ensures RowSumTo(row[i := c], j) == RowSumTo(row, j) + (if 2 <= i < j then Value(c) - Value(row[i]) else 0)
  {
    if j > 2 {
      RowSumToUpdate(row, i, c, j - 1);
    }
  }

  lemma {:induction false} TotalToUpdate(t: Grid, r: nat, row: seq<Cell>, m: nat)
    requires r < |t| && m <= |t|
    ensures TotalTo(t[r := row], m) == TotalTo(t, m) + (if r < m then RowSum(row) - RowSum(t[r]) else 0)
  {
    if m > 0 {
      TotalToUpdate(t, r, row, m - 1);
    }
  }

  /** Every increment of an integer cell raises the total by exactly one. */
  lemma TotalBump(t: Grid, p: Pos)
    requires NumAt(t, p)
    ensures Total(Bump(t, p)) == Total(t) + 1
  {
    var row := t[p.row];
    RowSumToUpdate(row, p.col + 2, Num(row[p.col + 2].n + 1), |row|);
    TotalToUpdate(t, p.row, row[p.col + 2 := Num(row[p.col + 2].n + 1)], |t|);
  }

  /** An increment changes no cell's kind and no text cell. */
  lemma BumpKinds(t: Grid, u: Grid, p: Pos)
    requires SameKinds(t, u)
    ensures SameKinds(t, Bump(u, p))
  {
  }

  /** Text cells and the two label columns add nothing to the total: a table without integer
      string cells holds no panels, and one without negative counts holds a non-negative
      total. */
  lemma TotalOfCounts(t: Grid)
    ensures NoCounts(t) ==> Total(t) == 0
    ensures NoNegativeCounts(t) ==> Total(t) >= 0
  {
    TextTotalTo(t, |t|);
    NonNegativeTotalTo(t, |t|);
  }

  /** A table made of dashes holds no panels. */
  lemma InitialTotal(n: nat, width: nat)
    ensures Total(InitialTable(n, width)) == 0
  {
    TotalOfCounts(InitialTable(n, width));
  }

  lemma {:induction false} TextTotalTo(t: Grid, m: nat)
    requires m <= |t|
    ensures NoCounts(t) ==> TotalTo(t, m) == 0
  {
    if m > 0 {
      TextTotalTo(t, m - 1);
      TextRow(t[m - 1], |t[m - 1]|);
    }
  }

  lemma {:induction false} TextRow(row: seq<Cell>, j: nat)
    requires j <= |row|
    ensures (forall i :: 2 <= i < |row| ==> row[i].Text?) ==> RowSumTo(row, j) == 0
  {
    if j > 2 {
      TextRow(row, j - 1);
    }
  }

  lemma {:induction false} NonNegativeTotalTo(t: Grid, m: nat)
    requires m <= |t|
    ensures NoNegativeCounts(t) ==> TotalTo(t, m) >= 0
  {
    if m > 0 {
      NonNegativeTotalTo(t, m - 1);
      NonNegativeRow(t[m - 1], |t[m - 1]|);
    }
  }

  lemma {:induction false} NonNegativeRow(row: seq<Cell>, j: nat)
    requires j <= |row|
    ensures (forall i :: 2 <= i < |row| ==> Value(row[i]) >= 0) ==> RowSumTo(row, j) >= 0
  {
    if j > 2 {
      NonNegativeRow(row, j - 1);
    }
  }
}
