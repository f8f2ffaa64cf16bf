/** fill_table_page5: set the first visited string columns to the base string
    length in every inverter row, then add one panel at a time to the integer
    cells, in visitation order, until the integer cells add up to the panel
    count.

    The top-up loop is specified without its loops: the integer cells one
    sweep meets form the sequence `Positions`, and the table the loop returns
    is the table after the first `d` increments of that sequence repeated for
    ever (`ApplyCycle`), `d` being the number of panels that were missing. */
module StringFill {

  import opened Table
  import opened ColumnOrder

  /** What fill_table_page5 does with a table: it returns one, or its top-up
      `while` loop never ends because no sweep changes anything. */
  datatype FillOutcome = Returned(table: Grid) | Diverges

  /** Rows `0..n-1` exist and have a cell for every string column below
      `totalStrings`: the indexing of fill_table_page5 raises no IndexError. */
  predicate Fits(t: Grid, n: nat, totalStrings: int)
  {
    n <= |t| && forall r :: 0 <= r < n ==> |t[r]| >= totalStrings + 2
  }

  /** Every column of `cols` has a cell in rows `0..n-1`. */
  predicate ColumnsFit(t: Grid, cols: seq<nat>, n: nat)
  {
    n <= |t| && forall i, r :: 0 <= i < |cols| && 0 <= r < n ==> cols[i] + 2 < |t[r]|
  }

  predicate SameShape(t: Grid, u: Grid)
  {
    |t| == |u| && forall r :: 0 <= r < |t| ==> |t[r]| == |u[r]|
  }

  /** The value of the fill-phase counter `count` once `visited` columns have been seen. */
  function FilledCount(cols: int, visited: nat): nat
  {
    if cols <= 0 then 0 else if cols < visited then cols else visited
  }

  /** `for inv in range(m): data[inv][c + 2] = k`. */
  function SetColumn(t: Grid, c: nat, m: nat, k: int): (u: Grid)
    requires m <= |t| && forall r :: 0 <= r < m ==> c + 2 < |t[r]|
    ensures SameShape(t, u)
  {
    seq(|t|, r requires 0 <= r < |t| => if r < m then t[r][c + 2 := Num(k)] else t[r])
  }

  /** The fill phase over the first `i` columns of `cols`. */
  function FillTo(t: Grid, cols: seq<nat>, i: nat, n: nat, k: int): (u: Grid)
    requires ColumnsFit(t, cols, n) && i <= |cols|
    ensures SameShape(t, u)
  {
    if i == 0 then t else SetColumn(FillTo(t, cols, i - 1, n, k), cols[i - 1], n, k)
  }

  /** The integer cells of column `c` in rows `0..m-1`, top to bottom. */
  function ColumnPositions(t: Grid, c: nat, m: nat): seq<Pos>
  {
    if m == 0 then []
    else ColumnPositions(t, c, m - 1) + (if NumAt(t, Pos(m - 1, c)) then [Pos(m - 1, c)] else [])
  }

  /** The integer cells a sweep meets in the first `i` columns of `cols`. */
  function PositionsTo(t: Grid, cols: seq<nat>, i: nat, n: nat): seq<Pos>
    requires i <= |cols|
  {
    if i == 0 then [] else PositionsTo(t, cols, i - 1, n) + ColumnPositions(t, cols[i - 1], n)
  }

  /** The integer cells one sweep of the top-up loop meets, in the order it meets them. */
  function Positions(t: Grid, cols: seq<nat>, n: nat): seq<Pos>
  {
    PositionsTo(t, cols, |cols|, n)
  }

  /** The table after the increments `ps[..m]`, in order. */
  function ApplyPrefix(t: Grid, ps: seq<Pos>, m: nat): Grid
    requires m <= |ps|
  {
    if m == 0 then t else Bump(ApplyPrefix(t, ps, m - 1), ps[m - 1])
  }

  /** The table after the first `d` increments of the endless repetition of `ps`:
      whole rounds of `ps`, then a prefix of it. */
  function ApplyCycle(t: Grid, ps: seq<Pos>, d: nat): Grid
    decreases d
  {
    if ps == [] then t
    else if d <= |ps| then ApplyPrefix(t, ps, d)
    else ApplyCycle(ApplyPrefix(t, ps, |ps|), ps, d - |ps|)
  }

  /** The table after the column-setting phase of fill_table_page5. */
  function Filled(data: Grid, n: nat, k: int, cols: int, totalStrings: int, noOfMppt: int): (u: Grid)
    requires Fits(data, n, totalStrings)
    ensures SameShape(data, u)
  {
    var order := VisitOrder(noOfMppt, totalStrings);
    FillTo(data, order, FilledCount(cols, |order|), n, k)
  }

  /** What the top-up loop makes of the filled table `t1`. */
  function TopUpOutcome(t1: Grid, order: seq<nat>, n: nat, numPanels: int): FillOutcome
  {
    var ps := Positions(t1, order, n);
    if Total(t1) >= numPanels then Returned(t1)
    else if ps == [] then Diverges
    else Returned(ApplyCycle(t1, ps, numPanels - Total(t1)))
  }

  /** What fill_table_page5 returns. The `remainder` argument is not read. */
  function FillSpec(data: Grid, n: nat, k: int, cols: int, totalStrings: int, noOfMppt: int, numPanels: int): FillOutcome
    requires Fits(data, n, totalStrings)
  {
    TopUpOutcome(Filled(data, n, k, cols, totalStrings, noOfMppt), VisitOrder(noOfMppt, totalStrings), n, numPanels)
  }

  /** fill_table_page5, with the panel count as a parameter in both of its versions. */
  method FillTable(data: Grid, numInverters: nat, bestPanelsPerString: int, remainder: int,
                   noOfColToBeFilled: int, totalStrings: int, noOfMppt: int, numPanels: int)
    returns (out: FillOutcome)
    requires Fits(data, numInverters, totalStrings)
    ensures out == FillSpec(data, numInverters, bestPanelsPerString, noOfColToBeFilled, totalStrings, noOfMppt, numPanels)
  {
    var order := BuildOrder(noOfMppt, totalStrings);
    var t := SetColumns(data, order, numInverters, bestPanelsPerString, noOfColToBeFilled);
    out := TopUp(t, order, numInverters, numPanels);
  }

  /** The first loop of fill_table_page5: the first `cols` visited columns get `k` in every inverter row. */
  method SetColumns(data: Grid, order: seq<nat>, n: nat, k: int, cols: int) returns (t: Grid)
    requires ColumnsFit(data, order, n)
    ensures t == FillTo(data, order, FilledCount(cols, |order|), n, k)
  {
    t := data;
    var count := 0;
    for ci := 0 to |order|
      invariant count == FilledCount(cols, ci)
      invariant t == FillTo(data, order, count, n, k)
    {
      if count < cols {
        ghost var before := t;
        for inv := 0 to n
          invariant t == SetColumn(before, order[ci], inv, k)
        {
          t := t[inv := t[inv][order[ci] + 2 := Num(k)]];
        }
        count := count + 1;
      }
    }
  }

  /** The `while` loop of fill_table_page5. */
  method TopUp(t1: Grid, order: seq<nat>, n: nat, numPanels: int) returns (out: FillOutcome)
    requires ColumnsFit(t1, order, n)
    ensures out == TopUpOutcome(t1, order, n, numPanels)
  {
    var t := t1;
    ghost var ps := Positions(t1, order, n);
    ghost var done: nat := 0;
    while Total(t) < numPanels
      invariant WholeRounds(done, |ps|)
      invariant t == ApplyCycle(t1, ps, done)
      invariant Total(t) == Total(t1) + done
      invariant done == 0 || Total(t) < numPanels
      decreases numPanels - Total(t)
    {
      CyclePositions(t1, ps, done, order, n);
      var reached, added;
      t, reached, added := Sweep(t, order, n, numPanels, ps);
      CycleExtend(t1, ps, done, added);
      if reached {
        return Returned(t);
      }
      if added == 0 {
        return Diverges;
      }
      done := done + added;
    }
    return Returned(t);
  }

  /** One sweep of the top-up loop: every integer cell, in visitation order, gets one more
      panel, and the sweep stops as soon as the total reaches the panel count. `ps` lists
      the integer cells in the order the sweep meets them; `added` counts the increments. */
  method Sweep(t0: Grid, order: seq<nat>, n: nat, numPanels: int, ghost ps: seq<Pos>)
    returns (t: Grid, reached: bool, added: nat)
    requires ColumnsFit(t0, order, n) && SweepSlots(t0, ps, order, n)
    requires Total(t0) < numPanels
    ensures added <= |ps|
    ensures t == ApplyPrefix(t0, ps, added)
    ensures Total(t) == Total(t0) + added
    ensures reached ==> Total(t) == numPanels && added > 0
    ensures !reached ==> Total(t) < numPanels && added == |ps|
  {
    t, added, reached := t0, 0, false;
    for ci := 0 to |order|
      invariant added == CountTo(t0, order, ci, n) <= |ps|
      invariant t == ApplyPrefix(t0, ps, added)
      invariant Total(t) == Total(t0) + added < numPanels
    {
      ColumnFits(t0, order, ci, n);
      SlotsToDown(t0, ps, order, ci, |order|, n);
      CountToLength(t0, order, ci + 1, |order|, n);
      t, reached, added := SweepColumn(t, t0, ps, order[ci], n, numPanels, added);
      if reached {
        return;
      }
    }
  }

  /** The inner loop of a sweep: the rows of column `col`, top to bottom. The sweep meets
      the integer cells of the column at positions `base`, `base + 1`, ... of `ps`;
      `added` counts the increments of the sweep so far. */
  method SweepColumn(t0: Grid, ghost start: Grid, ghost ps: seq<Pos>, col: nat, n: nat, numPanels: int, base: nat)
    returns (t: Grid, reached: bool, added: nat)
    requires n <= |start| && forall r :: 0 <= r < n ==> col + 2 < |start[r]|
    requires base + ColumnCount(start, col, n) <= |ps|
    requires Slots(start, ps, base, col, n)
    requires t0 == ApplyPrefix(start, ps, base)
    requires Total(t0) == Total(start) + base < numPanels
    ensures base <= added <= base + ColumnCount(start, col, n)
    ensures t == ApplyPrefix(start, ps, added)
    ensures Total(t) == Total(start) + added
    ensures reached ==> Total(t) == numPanels && added > 0
    ensures !reached ==> Total(t) < numPanels && added == base + ColumnCount(start, col, n)
  {
    t, added, reached := t0, base, false;
    for inv := 0 to n
      invariant added == base + ColumnCount(start, col, inv) <= base + ColumnCount(start, col, n)
      invariant t == ApplyPrefix(start, ps, added)
      invariant Total(t) == Total(start) + added < numPanels
    {
      ColumnCountLength(start, col, inv + 1, n);
      SlotsDown(start, ps, base, col, inv + 1, n);
      var bumped;
      t, bumped := VisitCell(t, Pos(inv, col), start, ps, added);
      if bumped {
        added := added + 1;
        if Total(t) == numPanels {
          reached := true;
          return;
        }
      }
    }
  }

  /** `if isinstance(data[inv][col + 2], int): data[inv][col + 2] += 1`, at a cell that was
      an integer exactly when it was one at the start of the sweep. */
  method VisitCell(t: Grid, p: Pos, ghost start: Grid, ghost ps: seq<Pos>, ghost m: nat) returns (u: Grid, bumped: bool)
    requires m <= |ps| && t == ApplyPrefix(start, ps, m)
    requires p.row < |start| && p.col + 2 < |start[p.row]|
    requires NumAt(start, p) ==> m < |ps| && ps[m] == p
    ensures bumped == NumAt(start, p)
    ensures u == ApplyPrefix(start, ps, if bumped then m + 1 else m)
    ensures Total(u) == Total(t) + (if bumped then 1 else 0)
  {
    ApplyPrefixKinds(start, ps, m);
    bumped := t[p.row][p.col + 2].Num?;
    u := t;
    if bumped {
      PrefixNext(start, ps, m, t, p);
      u := t[p.row := t[p.row][p.col + 2 := Num(t[p.row][p.col + 2].n + 1)]];
    }
  }

  /** Increments keep the kind of every cell and every text cell. */
  lemma {:induction false} ApplyPrefixKinds(t: Grid, ps: seq<Pos>, m: nat)
    requires m <= |ps|
    ensures SameKinds(t, ApplyPrefix(t, ps, m))
  {
    if m > 0 {
      ApplyPrefixKinds(t, ps, m - 1);
      BumpKinds(t, ApplyPrefix(t, ps, m - 1), ps[m - 1]);
    }
  }

  lemma {:induction false} ApplyCycleKinds(t: Grid, ps: seq<Pos>, d: nat)
    ensures SameKinds(t, ApplyCycle(t, ps, d))
    decreases d
  {
    if ps != [] {
      ApplyPrefixKinds(t, ps, if d <= |ps| then d else |ps|);
      if d > |ps| {
        var u := ApplyPrefix(t, ps, |ps|);
        ApplyCycleKinds(u, ps, d - |ps|);
        SameKindsTrans(t, u, ApplyCycle(u, ps, d - |ps|));
      }
    }
  }

  lemma SameKindsTrans(t: Grid, u: Grid, v: Grid)
    requires SameKinds(t, u) && SameKinds(u, v)
    ensures SameKinds(t, v)
  {
  }

  /** Which cells a sweep meets depends only on which cells are integers. */
  lemma {:induction false} PositionsKinds(t: Grid, u: Grid, cols: seq<nat>, n: nat)
    requires SameKinds(t, u)
    ensures Positions(t, cols, n) == Positions(u, cols, n)
  {
    forall i | 0 <= i <= |cols|
      ensures PositionsTo(t, cols, i, n) == PositionsTo(u, cols, i, n)
    {
      PositionsToKinds(t, u, cols, i, n);
    }
  }

  lemma {:induction false} PositionsToKinds(t: Grid, u: Grid, cols: seq<nat>, i: nat, n: nat)
    requires SameKinds(t, u) && i <= |cols|
    ensures PositionsTo(t, cols, i, n) == PositionsTo(u, cols, i, n)
  {
    if i > 0 {
      PositionsToKinds(t, u, cols, i - 1, n);
      ColumnKinds(t, u, cols[i - 1], n);
    }
  }

  lemma {:induction false} ColumnKinds(t: Grid, u: Grid, c: nat, m: nat)
    requires SameKinds(t, u)
    ensures ColumnPositions(t, c, m) == ColumnPositions(u, c, m)
  {
    if m > 0 {
      ColumnKinds(t, u, c, m - 1);
      assert NumAt(t, Pos(m - 1, c)) == NumAt(u, Pos(m - 1, c));
    }
  }

  /** `d` increments make a whole number of rounds of a sweep of `len` increments. */
  ghost predicate WholeRounds(d: nat, len: nat)
  {
    d == 0 || (len <= d && len > 0 && WholeRounds(d - len, len))
  }

  /** A whole number of rounds followed by a partial one is a prefix of the cycle. */
  lemma {:induction false} CycleExtend(t: Grid, ps: seq<Pos>, d: nat, a: nat)
    requires WholeRounds(d, |ps|) && a <= |ps|
    ensures ApplyCycle(t, ps, d + a) == ApplyPrefix(ApplyCycle(t, ps, d), ps, a)
    decreases d
  {
    if d > 0 {
      var u := ApplyPrefix(t, ps, |ps|);
      if d + a > |ps| {
        CycleExtend(u, ps, d - |ps|, a);
      }
      if d == |ps| {
        assert ApplyCycle(u, ps, 0) == u;
      }
    }
  }

  /** The integer cells a sweep meets are the same in every round. */
  lemma CyclePositions(t1: Grid, ps: seq<Pos>, d: nat, order: seq<nat>, n: nat)
    requires ColumnsFit(t1, order, n)
    ensures ColumnsFit(ApplyCycle(t1, ps, d), order, n)
    ensures SweepSlots(ApplyCycle(t1, ps, d), Positions(t1, order, n), order, n)
  {
    ApplyCycleKinds(t1, ps, d);
    PositionsKinds(t1, ApplyCycle(t1, ps, d), order, n);
    PositionsSlots(ApplyCycle(t1, ps, d), order, n);
  }

  lemma {:induction false} ColumnPrefix(t: Grid, c: nat, m: nat, m': nat)
    requires m <= m'
    ensures ColumnPositions(t, c, m) <= ColumnPositions(t, c, m')
  {
    if m < m' {
      ColumnPrefix(t, c, m, m' - 1);
    }
  }

  lemma {:induction false} PositionsToPrefix(t: Grid, cols: seq<nat>, i: nat, j: nat, n: nat)
    requires i <= j <= |cols|
    ensures PositionsTo(t, cols, i, n) <= PositionsTo(t, cols, j, n)
  {
    if i < j {
      PositionsToPrefix(t, cols, i, j - 1, n);
    }
  }

  /** The number of integer cells in rows `0..m-1` of column `c`. */
  function ColumnCount(t: Grid, c: nat, m: nat): nat
  {
    if m == 0 then 0 else ColumnCount(t, c, m - 1) + (if NumAt(t, Pos(m - 1, c)) then 1 else 0)
  }

  /** The number of integer cells a sweep meets in the first `i` columns of `cols`. */
  function CountTo(t: Grid, cols: seq<nat>, i: nat, n: nat): nat
    requires i <= |cols|
  {
    if i == 0 then 0 else CountTo(t, cols, i - 1, n) + ColumnCount(t, cols[i - 1], n)
  }

  /** The integer cells of column `col` in rows `0..m-1` of `start` are `ps[base..]`, in order. */
  ghost predicate Slots(start: Grid, ps: seq<Pos>, base: nat, col: nat, m: nat)
  {
    m == 0 ||
    (Slots(start, ps, base, col, m - 1) &&
     (NumAt(start, Pos(m - 1, col)) ==>
        var j := base + ColumnCount(start, col, m - 1);
        j < |ps| && ps[j] == Pos(m - 1, col)))
  }

  /** The integer cells of the first `i` columns of `order` are in `ps`, in the order a sweep meets them. */
  ghost predicate SlotsTo(t: Grid, ps: seq<Pos>, order: seq<nat>, i: nat, n: nat)
    requires i <= |order|
  {
    i == 0 || (SlotsTo(t, ps, order, i - 1, n) && Slots(t, ps, CountTo(t, order, i - 1, n), order[i - 1], n))
  }

  /** `ps` lists the integer cells a sweep meets, in the order it meets them. */
  ghost predicate SweepSlots(t: Grid, ps: seq<Pos>, order: seq<nat>, n: nat)
  {
    |ps| == CountTo(t, order, |order|, n) && SlotsTo(t, ps, order, |order|, n)
  }

  lemma {:induction false} SlotsToDown(t: Grid, ps: seq<Pos>, order: seq<nat>, i: nat, j: nat, n: nat)
    requires i < j <= |order| && SlotsTo(t, ps, order, j, n)
    ensures Slots(t, ps, CountTo(t, order, i, n), order[i], n)
  {
    if i + 1 < j {
      SlotsToDown(t, ps, order, i, j - 1, n);
    }
  }

  lemma {:induction false} SlotsDown(start: Grid, ps: seq<Pos>, base: nat, col: nat, m: nat, m': nat)
    requires m <= m' && Slots(start, ps, base, col, m')
    ensures Slots(start, ps, base, col, m)
  {
    if m < m' {
      SlotsDown(start, ps, base, col, m, m' - 1);
    }
  }

  lemma {:induction false} ColumnCountLength(t: Grid, c: nat, m: nat, m': nat)
    requires m <= m'
    ensures ColumnCount(t, c, m) <= ColumnCount(t, c, m')
  {
    if m < m' {
      ColumnCountLength(t, c, m, m' - 1);
    }
  }

  lemma {:induction false} CountToLength(t: Grid, cols: seq<nat>, i: nat, j: nat, n: nat)
    requires i <= j <= |cols|
    ensures CountTo(t, cols, i, n) <= CountTo(t, cols, j, n)
  {
    if i < j {
      CountToLength(t, cols, i, j - 1, n);
    }
  }

  lemma ColumnFits(t: Grid, order: seq<nat>, ci: nat, n: nat)
    requires ColumnsFit(t, order, n) && ci < |order|
    ensures n <= |t| && forall r :: 0 <= r < n ==> order[ci] + 2 < |t[r]|
  {
  }

  lemma {:induction false} ColumnCountIsLength(t: Grid, c: nat, m: nat)
    ensures ColumnCount(t, c, m) == |ColumnPositions(t, c, m)|
  {
    if m > 0 {
      ColumnCountIsLength(t, c, m - 1);
    }
  }

  lemma {:induction false} CountToIsLength(t: Grid, cols: seq<nat>, i: nat, n: nat)
    requires i <= |cols|
    ensures CountTo(t, cols, i, n) == |PositionsTo(t, cols, i, n)|
  {
    if i > 0 {
      CountToIsLength(t, cols, i - 1, n);
      ColumnCountIsLength(t, cols[i - 1], n);
    }
  }

  /** The integer cells a sweep meets, listed by `Positions`, are where the sweep meets them. */
  lemma PositionsSlots(t: Grid, order: seq<nat>, n: nat)
    ensures SweepSlots(t, Positions(t, order, n), order, n)
  {
    CountToIsLength(t, order, |order|, n);
    PositionsSlotsTo(t, order, |order|, n);
  }

  lemma {:induction false} PositionsSlotsTo(t: Grid, order: seq<nat>, i: nat, n: nat)
    requires i <= |order|
    ensures SlotsTo(t, Positions(t, order, n), order, i, n)
  {
    if i > 0 {
      PositionsSlotsTo(t, order, i - 1, n);
      ColumnSlots(t, order, i - 1, n, n);
    }
  }

  /** In a sweep, column `order[ci]` comes after the integer cells of the columns before it. */
  lemma {:induction false} ColumnSlots(t0: Grid, order: seq<nat>, ci: nat, m: nat, n: nat)
    requires ci < |order| && m <= n
    ensures Slots(t0, Positions(t0, order, n), CountTo(t0, order, ci, n), order[ci], m)
  {
    if m > 0 {
      ColumnSlots(t0, order, ci, m - 1, n);
      if NumAt(t0, Pos(m - 1, order[ci])) {
        SlotAt(t0, order, ci, m - 1, n);
        CountToIsLength(t0, order, ci, n);
        ColumnCountIsLength(t0, order[ci], m - 1);
      }
    }
  }

  /** The integer cell at row `r` of column `order[ci]` is met right after the integer cells
      of the columns before it and of the rows above it. */
  lemma SlotAt(t0: Grid, order: seq<nat>, ci: nat, r: nat, n: nat)
    requires ci < |order| && r < n && NumAt(t0, Pos(r, order[ci]))
    ensures var ps := Positions(t0, order, n);
      var j := |PositionsTo(t0, order, ci, n)| + |ColumnPositions(t0, order[ci], r)|;
      j < |ps| && ps[j] == Pos(r, order[ci])
  {
    var p := Pos(r, order[ci]);
    var before, column := PositionsTo(t0, order, ci, n), ColumnPositions(t0, order[ci], n);
    var j := |ColumnPositions(t0, order[ci], r)|;
    ColumnPrefix(t0, order[ci], r + 1, n);
    assert ColumnPositions(t0, order[ci], r + 1)[j] == p;
    assert j < |column| && column[j] == p;
    assert PositionsTo(t0, order, ci + 1, n) == before + column;
    assert PositionsTo(t0, order, ci + 1, n)[|before| + j] == p;
    PositionsToPrefix(t0, order, ci + 1, |order|, n);
  }

  /** Incrementing the next position of `ps` in place gives the next table. */
  lemma PrefixNext(start: Grid, ps: seq<Pos>, m: nat, t: Grid, p: Pos)
    requires m < |ps| && ps[m] == p && t == ApplyPrefix(start, ps, m) && NumAt(t, p)
    ensures t[p.row := t[p.row][p.col + 2 := Num(t[p.row][p.col + 2].n + 1)]] == ApplyPrefix(start, ps, m + 1)
    ensures Total(ApplyPrefix(start, ps, m + 1)) == Total(t) + 1
  {
    TotalBump(t, p);
  }
}
