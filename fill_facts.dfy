/** What fill_table_page5 guarantees about the table it returns: which cells the
    fill phase writes, the total the top-up loop reaches, when the loop never
    ends, how evenly the extra panels are spread, and which cells it leaves alone. */
module FillFacts {

  import opened Seqs
  import opened Table
  import opened ColumnOrder
  import opened StringFill

  // ---------------------------------------------------------------------------
  // The integer cells a sweep meets

  lemma {:induction false} ColumnPositionsMembers(t: Grid, c: nat, m: nat, p: Pos)
    ensures p in ColumnPositions(t, c, m) <==> p.col == c && p.row < m && NumAt(t, p)
  {
    if m > 0 {
      ColumnPositionsMembers(t, c, m - 1, p);
      var front, last := ColumnPositions(t, c, m - 1), if NumAt(t, Pos(m - 1, c)) then [Pos(m - 1, c)] else [];
      assert ColumnPositions(t, c, m) == front + last;
      assert p in front + last <==> p in front || p in last;
    }
  }

  /** `c` is among the first `i` elements of `cols`. */
  predicate InFirst(cols: seq<nat>, i: nat, c: nat)
    requires i <= |cols|
  {
    i > 0 && (cols[i - 1] == c || InFirst(cols, i - 1, c))
  }

  lemma {:induction false} InFirstMember(cols: seq<nat>, i: nat, c: nat)
    requires i <= |cols|
    ensures InFirst(cols, i, c) <==> c in cols[..i]
  {
    if i > 0 {
      InFirstMember(cols, i - 1, c);
      PrefixMember(cols, i, c);
    }
  }

  lemma PrefixMember(cols: seq<nat>, i: nat, c: nat)
    requires 0 < i <= |cols|
    ensures c in cols[..i] <==> c in cols[..i - 1] || c == cols[i - 1]
  {
    assert cols[..i] == cols[..i - 1] + [cols[i - 1]];
  }

  lemma {:induction false} PositionsToMembers(t: Grid, cols: seq<nat>, i: nat, n: nat, p: Pos)
    requires i <= |cols|
    ensures p in PositionsTo(t, cols, i, n) <==> InFirst(cols, i, p.col) && p.row < n && NumAt(t, p)
  {
    if i > 0 {
      PositionsToMembers(t, cols, i - 1, n, p);
      ColumnPositionsMembers(t, cols[i - 1], n, p);
      var front, last := PositionsTo(t, cols, i - 1, n), ColumnPositions(t, cols[i - 1], n);
      assert PositionsTo(t, cols, i, n) == front + last;
      assert p in front + last <==> p in front || p in last;
    }
  }

  /** A sweep meets exactly the integer cells of the visited columns in the inverter rows. */
  lemma PositionsMembers(t: Grid, cols: seq<nat>, n: nat, p: Pos)
    ensures p in Positions(t, cols, n) <==> p.col in cols && p.row < n && NumAt(t, p)
  {
    PositionsToMembers(t, cols, |cols|, n, p);
    InFirstMember(cols, |cols|, p.col);
    assert cols[..|cols|] == cols;
  }

  lemma PositionsNumeric(t: Grid, cols: seq<nat>, n: nat)
    ensures forall i :: 0 <= i < |Positions(t, cols, n)| ==> NumAt(t, Positions(t, cols, n)[i])
  {
    var ps := Positions(t, cols, n);
    forall i | 0 <= i < |ps| ensures NumAt(t, ps[i]) {
      PositionsMembers(t, cols, n, ps[i]);
    }
  }

  lemma {:induction false} ColumnPositionsDistinct(t: Grid, c: nat, m: nat)
    ensures Distinct(ColumnPositions(t, c, m))
  {
    if m > 0 {
      ColumnPositionsDistinct(t, c, m - 1);
      var front, last := ColumnPositions(t, c, m - 1), if NumAt(t, Pos(m - 1, c)) then [Pos(m - 1, c)] else [];
      forall x | x in front ensures x !in last {
        ColumnPositionsMembers(t, c, m - 1, x);
      }
      DistinctConcat(front, last);
    }
  }

  lemma {:induction false} PositionsToDistinct(t: Grid, cols: seq<nat>, i: nat, n: nat)
    requires Distinct(cols) && i <= |cols|
    ensures Distinct(PositionsTo(t, cols, i, n))
  {
    if i > 0 {
      PositionsToDistinct(t, cols, i - 1, n);
      ColumnPositionsDistinct(t, cols[i - 1], n);
      var front, last := PositionsTo(t, cols, i - 1, n), ColumnPositions(t, cols[i - 1], n);
      LastIsNew(cols, i);
      PositionsToCols(t, cols, i - 1, n);
      ColumnPositionsCol(t, cols[i - 1], n);
      assert forall x :: x in front ==> x !in last;
      DistinctConcat(front, last);
      assert PositionsTo(t, cols, i, n) == front + last;
    }
  }

  /** The cells met in the first `i` columns lie in those columns. */
  lemma {:induction false} PositionsToCols(t: Grid, cols: seq<nat>, i: nat, n: nat)
    requires i <= |cols|
    ensures forall x :: x in PositionsTo(t, cols, i, n) ==> InFirst(cols, i, x.col)
  {
    if i > 0 {
      PositionsToCols(t, cols, i - 1, n);
      ColumnPositionsCol(t, cols[i - 1], n);
      var front, last := PositionsTo(t, cols, i - 1, n), ColumnPositions(t, cols[i - 1], n);
      assert PositionsTo(t, cols, i, n) == front + last;
      forall x: Pos | x in front + last ensures InFirst(cols, i, x.col) {
        assert x in front || x in last;
      }
    }
  }

  lemma {:induction false} ColumnPositionsCol(t: Grid, c: nat, m: nat)
    ensures forall x :: x in ColumnPositions(t, c, m) ==> x.col == c
  {
    if m > 0 {
      ColumnPositionsCol(t, c, m - 1);
      var front, last := ColumnPositions(t, c, m - 1), if NumAt(t, Pos(m - 1, c)) then [Pos(m - 1, c)] else [];
      assert ColumnPositions(t, c, m) == front + last;
      forall x: Pos | x in front + last ensures x.col == c {
        assert x in front || x in last;
      }
    }
  }

  /** In a sequence without repeats, the element at `i - 1` is not among the ones before it. */
  lemma LastIsNew(cols: seq<nat>, i: nat)
    requires Distinct(cols) && 0 < i <= |cols|
    ensures !InFirst(cols, i - 1, cols[i - 1])
  {
    var before := cols[..i - 1];
    forall j | 0 <= j < |before| ensures before[j] != cols[i - 1] {
      assert before[j] == cols[j];
    }
    InFirstMember(cols, i - 1, cols[i - 1]);
  }

  /** No cell is met twice in one sweep, because no column is visited twice. */
  lemma PositionsDistinct(t: Grid, cols: seq<nat>, n: nat)
    requires Distinct(cols)
    ensures Distinct(Positions(t, cols, n))
  {
    PositionsToDistinct(t, cols, |cols|, n);
  }

  // ---------------------------------------------------------------------------
  // Increments

  /** When every listed cell holds an integer, each increment adds one panel. */
  lemma {:induction false} PrefixTotal(t: Grid, ps: seq<Pos>, m: nat)
    requires m <= |ps| && forall i :: 0 <= i < |ps| ==> NumAt(t, ps[i])
    ensures Total(ApplyPrefix(t, ps, m)) == Total(t) + m
  {
    if m > 0 {
      PrefixTotal(t, ps, m - 1);
      ApplyPrefixKinds(t, ps, m - 1);
      TotalBump(ApplyPrefix(t, ps, m - 1), ps[m - 1]);
    }
  }

  lemma {:induction false} CycleTotal(t: Grid, ps: seq<Pos>, d: nat)
    requires ps != [] && forall i :: 0 <= i < |ps| ==> NumAt(t, ps[i])
    ensures Total(ApplyCycle(t, ps, d)) == Total(t) + d
    decreases d
  {
    if d <= |ps| {
      PrefixTotal(t, ps, d);
    } else {
      var u := ApplyPrefix(t, ps, |ps|);
      PrefixTotal(t, ps, |ps|);
      ApplyPrefixKinds(t, ps, |ps|);
      assert forall i :: 0 <= i < |ps| ==> NumAt(u, ps[i]);
      CycleTotal(u, ps, d - |ps|);
    }
  }

  /** An increment never lowers a cell and touches no cell outside the listed ones. */
  lemma {:induction false} PrefixCellOutside(t: Grid, ps: seq<Pos>, m: nat, r: nat, j: nat)
    requires m <= |ps| && r < |t| && j < |t[r]|
    ensures SameKinds(t, ApplyPrefix(t, ps, m))
    ensures Value(ApplyPrefix(t, ps, m)[r][j]) >= Value(t[r][j])
    ensures (j < 2 || Pos(r, j - 2) !in ps) ==> ApplyPrefix(t, ps, m)[r][j] == t[r][j]
  {
    ApplyPrefixKinds(t, ps, m);
    if m > 0 {
      PrefixCellOutside(t, ps, m - 1, r, j);
      ApplyPrefixKinds(t, ps, m - 1);
      assert ps[m - 1] in ps;
    }
  }

  lemma {:induction false} CycleCellOutside(t: Grid, ps: seq<Pos>, d: nat, r: nat, j: nat)
    requires r < |t| && j < |t[r]|
    ensures SameKinds(t, ApplyCycle(t, ps, d))
    ensures Value(ApplyCycle(t, ps, d)[r][j]) >= Value(t[r][j])
    ensures (j < 2 || Pos(r, j - 2) !in ps) ==> ApplyCycle(t, ps, d)[r][j] == t[r][j]
    decreases d
  {
    ApplyCycleKinds(t, ps, d);
    if ps != [] {
      if d <= |ps| {
        PrefixCellOutside(t, ps, d, r, j);
      } else {
        var u := ApplyPrefix(t, ps, |ps|);
        PrefixCellOutside(t, ps, |ps|, r, j);
        CycleCellOutside(u, ps, d - |ps|, r, j);
      }
    }
  }

  /** With no repeated cell, the cell `ps[i]` gains one panel exactly when it is among the first `m`. */
  lemma {:induction false} PrefixCell(t: Grid, ps: seq<Pos>, m: nat, i: nat)
    requires Distinct(ps) && m <= |ps| && i < |ps| && NumAt(t, ps[i])
    ensures NumAt(ApplyPrefix(t, ps, m), ps[i])
    ensures ApplyPrefix(t, ps, m)[ps[i].row][ps[i].col + 2].n == t[ps[i].row][ps[i].col + 2].n + (if i < m then 1 else 0)
  {
    if m > 0 {
      PrefixCell(t, ps, m - 1, i);
      ApplyPrefixKinds(t, ps, m - 1);
      ApplyPrefixKinds(t, ps, m);
    }
  }

  /** `q` whole rounds of `len` increments and `a` more: `q * len + a`, counted without multiplying. */
  function Span(q: nat, len: nat, a: nat): nat
  {
    if q == 0 then a else Span(q - 1, len, a) + len
  }

  lemma {:induction false} SpanIsProduct(q: nat, len: nat, a: nat)
    ensures Span(q, len, a) == q * len + a
  {
    if q > 0 {
      SpanIsProduct(q - 1, len, a);
      assert q * len == (q - 1) * len + len;
    }
  }

  /** After `q` whole rounds and `a` more increments, cell `ps[i]` holds `q` more panels, one
      more again when it is among the first `a`. */
  lemma {:induction false} CycleCell(t: Grid, ps: seq<Pos>, q: nat, a: nat, i: nat)
    requires Distinct(ps) && a < |ps| && i < |ps| && NumAt(t, ps[i])
    ensures CellHolds(ApplyCycle(t, ps, Span(q, |ps|, a)), ps[i], Value(t[ps[i].row][ps[i].col + 2]) + q + (if i < a then 1 else 0))
    decreases q
  {
    if q == 0 {
      PrefixCell(t, ps, a, i);
    } else if q == 1 && a == 0 {
      PrefixCell(t, ps, |ps|, i);
    } else {
      var u := ApplyPrefix(t, ps, |ps|);
      PrefixCell(t, ps, |ps|, i);
      CycleCell(u, ps, q - 1, a, i);
    }
  }

  /** The integer cell at `p` holds `v`. */
  predicate CellHolds(t: Grid, p: Pos, v: int)
  {
    NumAt(t, p) && t[p.row][p.col + 2].n == v
  }

  // ---------------------------------------------------------------------------
  // The top-up loop

  /** The top-up loop ends exactly when the filled table already holds enough panels or has
      an integer cell in a visited column; the table it returns then holds exactly
      `numPanels` panels, or more when the fill phase put more than that in. */
  lemma TopUpTotal(t1: Grid, order: seq<nat>, n: nat, numPanels: int)
    ensures TopUpOutcome(t1, order, n, numPanels) == Diverges <==>
            Total(t1) < numPanels && Positions(t1, order, n) == []
    ensures TopUpOutcome(t1, order, n, numPanels).Returned? ==>
            Total(TopUpOutcome(t1, order, n, numPanels).table) == if Total(t1) >= numPanels then Total(t1) else numPanels
  {
    var ps := Positions(t1, order, n);
    if Total(t1) < numPanels && ps != [] {
      PositionsNumeric(t1, order, n);
      CycleTotal(t1, ps, numPanels - Total(t1));
    }
  }

  /** Fairness: when every integer cell a sweep meets starts at `k`, the `d` missing panels are
      dealt round-robin, so each such cell ends at `k + d / |ps|` or one more, and the cells
      with one more are the first `d % |ps|` in sweep order. */
  lemma TopUpFair(t1: Grid, order: seq<nat>, n: nat, numPanels: int, k: int)
    requires Distinct(order)
    requires forall p :: p in Positions(t1, order, n) ==> CellHolds(t1, p, k)
    requires Total(t1) < numPanels && Positions(t1, order, n) != []
    ensures var ps := Positions(t1, order, n);
      var d := numPanels - Total(t1);
      TopUpOutcome(t1, order, n, numPanels).Returned? &&
      forall i :: 0 <= i < |ps| ==>
        CellHolds(TopUpOutcome(t1, order, n, numPanels).table, ps[i], k + d / |ps| + (if i < d % |ps| then 1 else 0))
  {
    var ps := Positions(t1, order, n);
    var d := numPanels - Total(t1);
    var q, a := d / |ps|, d % |ps|;
    SpanIsProduct(q, |ps|, a);
    assert Span(q, |ps|, a) == d;
    PositionsDistinct(t1, order, n);
    forall i | 0 <= i < |ps|
      ensures CellHolds(ApplyCycle(t1, ps, d), ps[i], k + q + (if i < a then 1 else 0))
    {
      assert ps[i] in ps;
      CycleCell(t1, ps, q, a, i);
    }
  }

  /** The top-up loop never lowers a cell and writes only integer cells of the visited columns
      in the inverter rows: text cells, such as the "-" of unused strings, the TAG column and
      the inverter number, keep their values. */
  lemma TopUpCell(t1: Grid, order: seq<nat>, n: nat, numPanels: int, r: nat, j: nat)
    requires r < |t1| && j < |t1[r]|
    requires TopUpOutcome(t1, order, n, numPanels).Returned?
    ensures var u := TopUpOutcome(t1, order, n, numPanels).table;
      SameKinds(t1, u) &&
      Value(u[r][j]) >= Value(t1[r][j]) &&
      (t1[r][j].Text? || j < 2 || r >= n || j - 2 !in order ==> u[r][j] == t1[r][j])
  {
    var ps := Positions(t1, order, n);
    var d := if Total(t1) >= numPanels then 0 else numPanels - Total(t1);
    assert TopUpOutcome(t1, order, n, numPanels).table == ApplyCycle(t1, ps, d);
    CycleCellOutside(t1, ps, d, r, j);
    if j >= 2 {
      PositionsMembers(t1, order, n, Pos(r, j - 2));
    }
  }

  // ---------------------------------------------------------------------------
  // The fill phase

  /** The columns the fill phase sets: the first `cols` visited columns, or all of them. */
  function FilledColumns(cols: int, totalStrings: int, noOfMppt: int): (fc: seq<nat>)
    ensures |fc| == FilledCount(cols, |VisitOrder(noOfMppt, totalStrings)|)
    ensures fc <= VisitOrder(noOfMppt, totalStrings)
  {
    var order := VisitOrder(noOfMppt, totalStrings);
    order[..FilledCount(cols, |order|)]
  }

  lemma {:induction false} FillToCell(t: Grid, cols: seq<nat>, i: nat, n: nat, k: int, r: nat, j: nat)
    requires ColumnsFit(t, cols, n) && i <= |cols| && r < |t| && j < |t[r]|
    ensures FillTo(t, cols, i, n, k)[r][j] == if r < n && 2 <= j && j - 2 in cols[..i] then Num(k) else t[r][j]
  {
    if i > 0 {
      FillToCell(t, cols, i - 1, n, k, r, j);
      assert cols[..i] == cols[..i - 1] + [cols[i - 1]];
    }
  }

  /** The fill phase writes `k` into exactly the first `cols` visited columns of every inverter
      row and changes no other cell; the TAG and inverter-number columns are never written. */
  lemma FilledCell(data: Grid, n: nat, k: int, cols: int, totalStrings: int, noOfMppt: int, r: nat, j: nat)
    requires Fits(data, n, totalStrings) && r < |data| && j < |data[r]|
    ensures Filled(data, n, k, cols, totalStrings, noOfMppt)[r][j] ==
            if r < n && 2 <= j && j - 2 in FilledColumns(cols, totalStrings, noOfMppt) then Num(k) else data[r][j]
  {
    var order := VisitOrder(noOfMppt, totalStrings);
    FillToCell(data, order, FilledCount(cols, |order|), n, k, r, j);
  }

  /** Writing `k` over text cells of one column in `m` rows adds `m * k` panels. */
  lemma {:induction false} SetColumnTotal(t: Grid, c: nat, m: nat, k: int)
    requires m <= |t| && forall r :: 0 <= r < m ==> c + 2 < |t[r]| && t[r][c + 2].Text?
    ensures Total(SetColumn(t, c, m, k)) == Total(t) + m * k
  {
    if m > 0 {
      var s: Grid := SetColumn(t, c, m - 1, k);
      SetColumnTotal(t, c, m - 1, k);
      var row := t[m - 1][c + 2 := Num(k)];
      SetColumnStep(t, c, m, k);
      assert s[m - 1] == t[m - 1];
      RowSumToUpdate(t[m - 1], c + 2, Num(k), |t[m - 1]|);
      assert RowSum(row) == RowSum(t[m - 1]) + k;
      TotalToUpdate(s, m - 1, row, |s|);
      assert Total(s[m - 1 := row]) == Total(s) + k;
      MulStep(m, k);
    } else {
      assert SetColumn(t, c, m, k) == t;
    }
  }

  lemma MulStep(m: int, k: int)
    ensures m * k == (m - 1) * k + k
  {
  }

  lemma SetColumnStep(t: Grid, c: nat, m: nat, k: int)
    requires 0 < m <= |t| && forall r :: 0 <= r < m ==> c + 2 < |t[r]|
    ensures SetColumn(t, c, m, k) == SetColumn(t, c, m - 1, k)[m - 1 := t[m - 1][c + 2 := Num(k)]]
  {
    var u, v := SetColumn(t, c, m, k), SetColumn(t, c, m - 1, k)[m - 1 := t[m - 1][c + 2 := Num(k)]];
    forall r | 0 <= r < |t| ensures u[r] == v[r] {
    }
  }

  lemma {:induction false} FillToTotal(t: Grid, cols: seq<nat>, i: nat, n: nat, k: int)
    requires ColumnsFit(t, cols, n) && Distinct(cols) && i <= |cols|
    requires forall r, ci :: 0 <= r < n && 0 <= ci < |cols| ==> t[r][cols[ci] + 2].Text?
    ensures Total(FillTo(t, cols, i, n, k)) == Total(t) + i * (n * k)
  {
    if i > 0 {
      FillToTotal(t, cols, i - 1, n, k);
      FillToStep(t, cols, i, n, k);
      MulStep(i, n * k);
    }
  }

  /** Each filled column was still text before the fill phase reached it, so it adds `n * k`. */
  lemma FillToStep(t: Grid, cols: seq<nat>, i: nat, n: nat, k: int)
    requires ColumnsFit(t, cols, n) && Distinct(cols) && 0 < i <= |cols|
    requires forall r, ci :: 0 <= r < n && 0 <= ci < |cols| ==> t[r][cols[ci] + 2].Text?
    ensures Total(FillTo(t, cols, i, n, k)) == Total(FillTo(t, cols, i - 1, n, k)) + n * k
  {
    var s: Grid := FillTo(t, cols, i - 1, n, k);
    var c := cols[i - 1];
    LastIsNew(cols, i);
    InFirstMember(cols, i - 1, c);
    forall r: nat | r < n ensures c + 2 < |s[r]| && s[r][c + 2].Text? {
      FillToCell(t, cols, i - 1, n, k, r, c + 2);
    }
    SetColumnTotal(s, c, n, k);
  }

  // ---------------------------------------------------------------------------
  // A fresh table: `n` rows of "INV", the inverter number and `width` dashes

  /** The inverter rows of a fresh table, with the visitation order over its `width` columns. */
  lemma FreshFits(n: nat, width: nat, noOfMppt: int)
    ensures Fits(InitialTable(n, width), n, width)
    ensures ColumnsFit(InitialTable(n, width), VisitOrder(noOfMppt, width), n)
  {
  }

  /** The fill phase puts `k` panels in each of `n` rows of every filled column. */
  lemma FreshFilledTotal(n: nat, width: nat, k: int, cols: int, noOfMppt: int)
    ensures Total(Filled(InitialTable(n, width), n, k, cols, width, noOfMppt)) ==
            FilledCount(cols, |VisitOrder(noOfMppt, width)|) * (n * k)
  {
    var t := InitialTable(n, width);
    var order := VisitOrder(noOfMppt, width);
    InitialTotal(n, width);
    BuildOrderFacts(noOfMppt, width);
    FillToTotal(t, order, FilledCount(cols, |order|), n, k);
  }

  lemma BuildOrderFacts(noOfMppt: int, width: int)
    ensures Distinct(VisitOrder(noOfMppt, width))
  {
    VisitOrderDistinct(noOfMppt, width);
  }

  /** On a fresh table a sweep meets exactly the filled columns of the inverter rows, and each
      of those cells holds `k` after the fill phase. */
  lemma FreshPositions(n: nat, width: nat, k: int, cols: int, noOfMppt: int, p: Pos)
    ensures var t1 := Filled(InitialTable(n, width), n, k, cols, width, noOfMppt);
      (p in Positions(t1, VisitOrder(noOfMppt, width), n) <==>
         p.row < n && p.col in FilledColumns(cols, width, noOfMppt)) &&
      (p in Positions(t1, VisitOrder(noOfMppt, width), n) ==> CellHolds(t1, p, k))
  {
    var data := InitialTable(n, width);
    var order := VisitOrder(noOfMppt, width);
    var t1 := Filled(data, n, k, cols, width, noOfMppt);
    PositionsMembers(t1, order, n, p);
    if p.row < n && p.col < width {
      FilledCell(data, n, k, cols, width, noOfMppt, p.row, p.col + 2);
    }
    if p.col in FilledColumns(cols, width, noOfMppt) {
      var fc := FilledColumns(cols, width, noOfMppt);
      var j :| 0 <= j < |fc| && fc[j] == p.col;
      assert order[j] == p.col;
    }
  }

  /** A fresh table fills as its shape dictates: the loop never ends exactly when no cell is
      filled and panels are wanted; otherwise the table holds `numPanels` panels, or the
      `c * n * k` cells of the fill phase when that is more. */
  lemma FreshFill(n: nat, width: nat, k: int, cols: int, noOfMppt: int, numPanels: int)
    ensures var c := FilledCount(cols, |VisitOrder(noOfMppt, width)|);
      var out := FillSpec(InitialTable(n, width), n, k, cols, width, noOfMppt, numPanels);
      (out == Diverges <==> (n == 0 || c == 0) && numPanels > 0) &&
      (out.Returned? ==> Total(out.table) == if c * (n * k) >= numPanels then c * (n * k) else numPanels)
  {
    var data := InitialTable(n, width);
    var order := VisitOrder(noOfMppt, width);
    var c := FilledCount(cols, |order|);
    var t1 := Filled(data, n, k, cols, width, noOfMppt);
    var ps := Positions(t1, order, n);
    FreshFilledTotal(n, width, k, cols, noOfMppt);
    TopUpTotal(t1, order, n, numPanels);
    if n > 0 && c > 0 {
      FreshPositions(n, width, k, cols, noOfMppt, Pos(0, order[0]));
      assert FilledColumns(cols, width, noOfMppt)[0] == order[0];
    } else {
      if ps != [] {
        assert ps[0] in ps;
        FreshPositions(n, width, k, cols, noOfMppt, ps[0]);
      }
    }
  }

  /** On a fresh table the extra panels are spread round-robin over the filled cells. */
  lemma FreshFair(n: nat, width: nat, k: int, cols: int, noOfMppt: int, numPanels: int)
    requires FilledCount(cols, |VisitOrder(noOfMppt, width)|) * (n * k) < numPanels
    requires n > 0 && FilledCount(cols, |VisitOrder(noOfMppt, width)|) > 0
    ensures var t1 := Filled(InitialTable(n, width), n, k, cols, width, noOfMppt);
      var ps := Positions(t1, VisitOrder(noOfMppt, width), n);
      var d := numPanels - Total(t1);
      var out := FillSpec(InitialTable(n, width), n, k, cols, width, noOfMppt, numPanels);
      ps != [] && out.Returned? &&
      forall i :: 0 <= i < |ps| ==> CellHolds(out.table, ps[i], k + d / |ps| + (if i < d % |ps| then 1 else 0))
  {
    var order := VisitOrder(noOfMppt, width);
    var t1 := Filled(InitialTable(n, width), n, k, cols, width, noOfMppt);
    FreshFill(n, width, k, cols, noOfMppt, numPanels);
    FreshFilledTotal(n, width, k, cols, noOfMppt);
    BuildOrderFacts(noOfMppt, width);
    forall p | p in Positions(t1, order, n) ensures CellHolds(t1, p, k) {
      FreshPositions(n, width, k, cols, noOfMppt, p);
    }
    TopUpFair(t1, order, n, numPanels, k);
  }

  /** On a fresh table every string cell outside the filled columns is still "-" at the end,
      and the TAG and inverter-number cells are as the table was built. */
  lemma FreshUntouched(n: nat, width: nat, k: int, cols: int, noOfMppt: int, numPanels: int, r: nat, j: nat)
    requires r < n && j < width + 2
    requires FillSpec(InitialTable(n, width), n, k, cols, width, noOfMppt, numPanels).Returned?
    ensures var u := FillSpec(InitialTable(n, width), n, k, cols, width, noOfMppt, numPanels).table;
      r < |u| && j < |u[r]| &&
      (j == 0 ==> u[r][j] == Text("INV")) &&
      (j == 1 ==> u[r][j] == Num(r + 1)) &&
      (2 <= j && j - 2 !in FilledColumns(cols, width, noOfMppt) ==> u[r][j] == Dash)
  {
    var data := InitialTable(n, width);
    var order := VisitOrder(noOfMppt, width);
    var t1 := Filled(data, n, k, cols, width, noOfMppt);
    FilledCell(data, n, k, cols, width, noOfMppt, r, j);
    TopUpCell(t1, order, n, numPanels, r, j);
  }
}
