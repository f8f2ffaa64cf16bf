/** The column visitation order of fill_table_page5: string slot 0 of every
    MPPT group, then slot 1 of every group, and so on, skipping columns that
    the table does not have. */
module ColumnOrder {

  import opened Seqs

  /** String slots per MPPT group: the `step` of the visitation order. */
  const Step: nat := 5

  /** `range(no_of_mppt)` has no elements when the argument is negative. */
  function Groups(noOfMppt: int): nat
  {
    if noOfMppt < 0 then 0 else noOfMppt
  }

  /** The columns `slot + mppt * Step` for `mppt` in `range(mppts)`, kept when below `total`. */
  function SlotColumns(slot: nat, mppts: nat, total: int): seq<nat>
  {
    if mppts == 0 then []
    else
      var index := slot + (mppts - 1) * Step;
      SlotColumns(slot, mppts - 1, total) + (if index < total then [index] else [])
  }

  /** The order after the outer loop has run over `range(slots)`. */
  function OrderUpTo(slots: nat, mppts: nat, total: int): seq<nat>
  {
    if slots == 0 then [] else OrderUpTo(slots - 1, mppts, total) + SlotColumns(slots - 1, mppts, total)
  }

  /** `index_order` as fill_table_page5 builds it. */
  function VisitOrder(noOfMppt: int, totalStrings: int): (order: seq<nat>)
    ensures forall i :: 0 <= i < |order| ==> order[i] < totalStrings
  {
    OrderUpToBound(Step, Groups(noOfMppt), totalStrings);
    OrderUpTo(Step, Groups(noOfMppt), totalStrings)
  }

  lemma {:induction false} OrderUpToBound(slots: nat, mppts: nat, total: int)
    ensures forall i :: 0 <= i < |OrderUpTo(slots, mppts, total)| ==> OrderUpTo(slots, mppts, total)[i] < total
  {
    if slots > 0 {
      OrderUpToBound(slots - 1, mppts, total);
      SlotColumnsBound(slots - 1, mppts, total);
    }
  }

  lemma {:induction false} SlotColumnsBound(slot: nat, mppts: nat, total: int)
    ensures forall i :: 0 <= i < |SlotColumns(slot, mppts, total)| ==> SlotColumns(slot, mppts, total)[i] < total
  {
    if mppts > 0 {
      SlotColumnsBound(slot, mppts - 1, total);
    }
  }

  /** The nested loops of fill_table_page5 that append to `index_order`. */
  method BuildOrder(noOfMppt: int, totalStrings: int) returns (order: seq<nat>)
    ensures order == VisitOrder(noOfMppt, totalStrings)
    ensures Distinct(order)
    ensures forall c :: c in order <==> 0 <= c < totalStrings && c < Step * Groups(noOfMppt)
  {
    order := [];
    var i := 0;
    while i < Step
      invariant 0 <= i <= Step
      invariant order == OrderUpTo(i, Groups(noOfMppt), totalStrings)
    {
      var mppt := 0;
      while mppt < noOfMppt
        invariant 0 <= mppt <= Groups(noOfMppt)
        invariant order == OrderUpTo(i, Groups(noOfMppt), totalStrings) + SlotColumns(i, mppt, totalStrings)
      {
        var index := i + mppt * Step;
        if index < totalStrings {
          order := order + [index];
        }
        mppt := mppt + 1;
      }
      i := i + 1;
    }
    VisitOrderDistinct(noOfMppt, totalStrings);
    forall c ensures c in order <==> 0 <= c < totalStrings && c < Step * Groups(noOfMppt) {
      VisitOrderMembers(noOfMppt, totalStrings, c);
    }
  }

  /** Every column is `r + g * Step` for its slot `r` and its group `g`. */
  lemma Decompose(c: nat) returns (r: nat, g: nat)
    ensures r < Step && c == r + g * Step
  {
    r, g := c % Step, c / Step;
  }

  lemma {:induction false} SlotColumnsAt(slot: nat, mppts: nat, total: int, r: nat, g: nat)
    requires slot < Step && r < Step
    ensures r + g * Step in SlotColumns(slot, mppts, total) <==> r == slot && g < mppts && r + g * Step < total
  {
    if mppts > 0 {
      SlotColumnsAt(slot, mppts - 1, total, r, g);
    }
  }

  lemma {:induction false} OrderUpToAt(slots: nat, mppts: nat, total: int, r: nat, g: nat)
    requires slots <= Step && r < Step
    ensures r + g * Step in OrderUpTo(slots, mppts, total) <==> r < slots && g < mppts && r + g * Step < total
  {
    if slots > 0 {
      var c := r + g * Step;
      OrderUpToAt(slots - 1, mppts, total, r, g);
      SlotColumnsAt(slots - 1, mppts, total, r, g);
      var front, last := OrderUpTo(slots - 1, mppts, total), SlotColumns(slots - 1, mppts, total);
      assert OrderUpTo(slots, mppts, total) == front + last;
      assert c in front + last <==> c in front || c in last;
    }
  }

  /** A column is visited exactly when it exists in the table and lies in one of the MPPT groups. */
  lemma VisitOrderMembers(noOfMppt: int, totalStrings: int, c: int)
    ensures c in VisitOrder(noOfMppt, totalStrings) <==> 0 <= c < totalStrings && c < Step * Groups(noOfMppt)
  {
    if c >= 0 {
      var r, g := Decompose(c);
      OrderUpToAt(Step, Groups(noOfMppt), totalStrings, r, g);
    }
  }

  lemma {:induction false} SlotColumnsDistinct(slot: nat, mppts: nat, total: int)
    requires slot < Step
    ensures Distinct(SlotColumns(slot, mppts, total))
  {
    if mppts > 0 {
      SlotColumnsDistinct(slot, mppts - 1, total);
      SlotColumnsAt(slot, mppts - 1, total, slot, mppts - 1);
      var index := slot + (mppts - 1) * Step;
      DistinctConcat(SlotColumns(slot, mppts - 1, total), if index < total then [index] else []);
    }
  }

  lemma {:induction false} OrderUpToDistinct(slots: nat, mppts: nat, total: int)
    requires slots <= Step
    ensures Distinct(OrderUpTo(slots, mppts, total))
  {
    if slots > 0 {
      OrderUpToDistinct(slots - 1, mppts, total);
      SlotColumnsDistinct(slots - 1, mppts, total);
      var front, last := OrderUpTo(slots - 1, mppts, total), SlotColumns(slots - 1, mppts, total);
      forall x | x in front ensures x !in last {
        var r, g := Decompose(x);
        EarlierSlot(slots - 1, mppts, total, r, g);
      }
      DistinctConcat(front, last);
    }
  }

  /** A column of an earlier slot is not a column of slot `slot`. */
  lemma EarlierSlot(slot: nat, mppts: nat, total: int, r: nat, g: nat)
    requires slot < Step && r < Step
    ensures r + g * Step in OrderUpTo(slot, mppts, total) ==> r + g * Step !in SlotColumns(slot, mppts, total)
  {
    OrderUpToAt(slot, mppts, total, r, g);
    SlotColumnsAt(slot, mppts, total, r, g);
  }

  /** No column is visited twice. */
  lemma VisitOrderDistinct(noOfMppt: int, totalStrings: int)
    ensures Distinct(VisitOrder(noOfMppt, totalStrings))
  {
    OrderUpToDistinct(Step, Groups(noOfMppt), totalStrings);
  }

  lemma {:induction false} SlotColumnsLength(slot: nat, mppts: nat, total: int)
    requires slot < Step && mppts * Step <= total
    ensures |SlotColumns(slot, mppts, total)| == mppts
  {
    if mppts > 0 {
      SlotColumnsLength(slot, mppts - 1, total);
    }
  }

  lemma {:induction false} OrderUpToLength(slots: nat, mppts: nat, total: int)
    requires slots <= Step && mppts * Step <= total
    ensures |OrderUpTo(slots, mppts, total)| == slots * mppts
  {
    if slots > 0 {
      OrderUpToLength(slots - 1, mppts, total);
      SlotColumnsLength(slots - 1, mppts, total);
      assert slots * mppts == (slots - 1) * mppts + mppts;
    }
  }

  /** When the table has `no_of_mppt * 5` string columns, as the String Table
      page builds it, the visitation order is a permutation of all of them. */
  lemma VisitOrderPermutation(noOfMppt: nat)
    ensures var order := VisitOrder(noOfMppt, noOfMppt * Step);
      |order| == noOfMppt * Step && Distinct(order) &&
      forall c :: c in order <==> 0 <= c < noOfMppt * Step
  {
    OrderUpToLength(Step, noOfMppt, noOfMppt * Step);
    VisitOrderDistinct(noOfMppt, noOfMppt * Step);
    forall c ensures c in VisitOrder(noOfMppt, noOfMppt * Step) <==> 0 <= c < noOfMppt * Step {
      VisitOrderMembers(noOfMppt, noOfMppt * Step, c);
    }
  }

  /** With two MPPT groups and at least ten string columns the order is fixed. */
  lemma TwoGroupOrder(totalStrings: int)
    requires totalStrings >= 10
    ensures VisitOrder(2, totalStrings) == [0, 5, 1, 6, 2, 7, 3, 8, 4, 9]
  {
    SlotColumnsTwo(0, totalStrings);
    SlotColumnsTwo(1, totalStrings);
    SlotColumnsTwo(2, totalStrings);
    SlotColumnsTwo(3, totalStrings);
    SlotColumnsTwo(4, totalStrings);
    assert OrderUpTo(1, 2, totalStrings) == [0, 5];
    assert OrderUpTo(2, 2, totalStrings) == [0, 5, 1, 6];
    assert OrderUpTo(3, 2, totalStrings) == [0, 5, 1, 6, 2, 7];
    assert OrderUpTo(4, 2, totalStrings) == [0, 5, 1, 6, 2, 7, 3, 8];
  }

  lemma SlotColumnsTwo(slot: nat, total: int)
    requires slot + Step < total
    ensures SlotColumns(slot, 2, total) == [slot, slot + Step]
  {
    assert SlotColumns(slot, 1, total) == SlotColumns(slot, 0, total) + [slot];
  }
}
