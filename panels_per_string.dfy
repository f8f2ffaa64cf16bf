/** The base string length of a string table:
    `min(range(5, 18), key=lambda x: abs(num_panels - (x * (num_panels // x))))`
    and the remainder it leaves. */
module PanelsPerString {

  /** The practical bounds of panels in one string. */
  const MinPanels: int := 5
  const MaxPanels: int := 17

  function Abs(x: int): int
  {
    if x < 0 then -x else x
  }

  /** The key of the `min`. For a positive divisor Python's `//` floors,
      which is the division Dafny uses, so the key is `num_panels mod x`. */
  function Key(numPanels: int, x: int): (r: int)
    requires x > 0
    ensures r == numPanels % x
  {
    Abs(numPanels - x * (numPanels / x))
  }

  /** The candidate `best` that `min` holds after scanning `range(5, x)`:
      a later candidate replaces it only when its key is strictly smaller. */
  function BestFrom(numPanels: int, x: int, best: int): (k: int)
    requires MinPanels <= best < x <= MaxPanels + 1
    requires forall y :: MinPanels <= y < x ==> numPanels % best <= numPanels % y
    requires forall y :: MinPanels <= y < best ==> numPanels % y > numPanels % best
    ensures MinPanels <= k <= MaxPanels
    ensures forall y :: MinPanels <= y <= MaxPanels ==> numPanels % k <= numPanels % y
    ensures forall y :: MinPanels <= y < k ==> numPanels % y > numPanels % k
    decreases MaxPanels + 1 - x
  {
    if x == MaxPanels + 1 then best
    else BestFrom(numPanels, x + 1, if Key(numPanels, x) < Key(numPanels, best) then x else best)
  }

  /** `best_panels_per_string`: the smallest k in 5..17 whose remainder is least. */
  function BestPanelsPerString(numPanels: int): (k: int)
    ensures MinPanels <= k <= MaxPanels
    ensures forall x :: MinPanels <= x <= MaxPanels ==> numPanels % k <= numPanels % x
    ensures forall x :: MinPanels <= x < k ==> numPanels % x > numPanels % k
  {
    BestFrom(numPanels, MinPanels + 1, MinPanels)
  }

  /** `remainder = num_panels - best * (num_panels // best)`: the least remainder over 5..17. */
  function Remainder(numPanels: int): (r: int)
    ensures 0 <= r < BestPanelsPerString(numPanels)
    ensures r == numPanels % BestPanelsPerString(numPanels)
    ensures forall x :: MinPanels <= x <= MaxPanels ==> r <= numPanels % x
  {
    var best := BestPanelsPerString(numPanels);
    numPanels - best * (numPanels / best)
  }

  /** Ties go to the smallest candidate, so any multiple of five gets strings of five. */
  lemma MultipleOfFive(numPanels: int)
    requires numPanels % 5 == 0
    ensures BestPanelsPerString(numPanels) == 5 && Remainder(numPanels) == 0
  {
  }

  /** A panel count that some candidate divides leaves no remainder, and the base
      length is the smallest candidate dividing it. */
  lemma DivisibleCandidate(numPanels: int, x: int)
    requires MinPanels <= x <= MaxPanels && numPanels % x == 0
    ensures Remainder(numPanels) == 0
    ensures numPanels % BestPanelsPerString(numPanels) == 0 && BestPanelsPerString(numPanels) <= x
  {
  }
}
