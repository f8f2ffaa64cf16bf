/** The string operations the report post-processing relies on: Python's `str.strip()`,
    `str.lower()` on ASCII text, the substring test `sub in s`, `int()` on a run of decimal
    digits, `float()` on the text the component pattern captures as a value, and the decimal
    rendering of a count in an f-string. */
module Text {

  /** The characters Python's `str.isspace()` accepts, which `str.strip()` removes. */
  predicate IsSpace(c: char)
  {
    c == ' ' || ('\t' <= c <= '\r') || ('\U{1c}' <= c <= '\U{1f}') ||
    c == '\U{85}' || c == '\U{a0}' || c == '\U{1680}' || ('\U{2000}' <= c <= '\U{200a}') ||
    c == '\U{2028}' || c == '\U{2029}' || c == '\U{202f}' || c == '\U{205f}' || c == '\U{3000}'
  }

  predicate AllSpace(s: string)
  {
    forall k :: 0 <= k < |s| ==> IsSpace(s[k])
  }

  /** `s.lstrip()`: the white space at the start removed. */
  function StripStart(s: string): (r: string)
    ensures |r| <= |s|
    ensures r == [] || !IsSpace(r[0])
  {
    if s != [] && IsSpace(s[0]) then StripStart(s[1..]) else s
  }

  /** `s.rstrip()`: the white space at the end removed; what is left is a prefix of `s`. */
  function StripEnd(s: string): (r: string)
    ensures |r| <= |s| && r == s[..|r|]
    ensures r == [] || !IsSpace(r[|r| - 1])
  {
    if s != [] && IsSpace(s[|s| - 1]) then StripEnd(s[..|s| - 1]) else s
  }

  /** `s.strip()`: neither end of the result is white space. */
  function Strip(s: string): (r: string)
    ensures |r| <= |s|
    ensures r == [] || (!IsSpace(r[0]) && !IsSpace(r[|r| - 1]))
  {
    var t := StripStart(s);
    var r := StripEnd(t);
    assert r != [] ==> r[0] == t[0];
    r
  }

  lemma {:induction false} StripStartInfix(s: string) returns (lead: string)
    ensures s == lead + StripStart(s) && AllSpace(lead)
  {
    if s != [] && IsSpace(s[0]) {
      var rest := StripStartInfix(s[1..]);
      lead := [s[0]] + rest;
      assert s == [s[0]] + s[1..];
      ConcatAssoc([s[0]], rest, StripStart(s[1..]));
    } else {
      lead := [];
    }
  }

  lemma {:induction false} StripEndInfix(s: string) returns (trail: string)
    ensures s == StripEnd(s) + trail && AllSpace(trail)
  {
    if s != [] && IsSpace(s[|s| - 1]) {
      var front := s[..|s| - 1];
      var rest := StripEndInfix(front);
      trail := rest + [s[|s| - 1]];
      assert s == front + [s[|s| - 1]];
      ConcatAssoc(StripEnd(front), rest, [s[|s| - 1]]);
    } else {
      trail := [];
    }
  }

  /** `s.strip()` only cuts white space off the ends: `s` is the result with a run of white
      space before it and one after it. */
  lemma StripInfix(s: string) returns (lead: string, trail: string)
    ensures s == lead + Strip(s) + trail
    ensures AllSpace(lead) && AllSpace(trail)
  {
    lead := StripStartInfix(s);
    trail := StripEndInfix(StripStart(s));
    ConcatAssoc(lead, Strip(s), trail);
  }

  lemma ConcatAssoc(a: string, b: string, c: string)
    ensures a + (b + c) == a + b + c
  {
  }

  /** A string whose ends are not white space is its own `strip()`. */
  lemma StripKeeps(s: string)
    ensures (s == [] || (!IsSpace(s[0]) && !IsSpace(s[|s| - 1]))) ==> Strip(s) == s
  {
    if s != [] && !IsSpace(s[0]) && !IsSpace(s[|s| - 1]) {
      assert StripStart(s) == s;
      assert StripEnd(s) == s;
    }
  }

  /** Stripping twice is stripping once. */
  lemma StripIdempotent(s: string)
    ensures Strip(Strip(s)) == Strip(s)
  {
    StripKeeps(Strip(s));
  }

  /** `str.lower()` on one character, for the ASCII letters. */
  function LowerChar(c: char): char
  {
    if 'A' <= c <= 'Z' then (c as int + 32) as char else c
  }

  /** `s.lower()`, with only the ASCII letters folded. */
  function Lower(s: string): (r: string)
    ensures |r| == |s|
  {
    seq(|s|, i requires 0 <= i < |s| => LowerChar(s[i]))
  }

  /** After `lower()` no upper-case ASCII letter is left, every other character is kept, and a
      second `lower()` changes nothing. */
  lemma LowerFacts(s: string)
    ensures forall i :: 0 <= i < |s| ==> !('A' <= Lower(s)[i] <= 'Z')
    ensures forall i :: 0 <= i < |s| && !('A' <= s[i] <= 'Z') ==> Lower(s)[i] == s[i]
    ensures Lower(Lower(s)) == Lower(s)
  {
  }

  predicate StartsWith(s: string, p: string)
  {
    |p| <= |s| && s[..|p|] == p
  }

  /** `sub in s`, searched as Python does: try each start position from the left. The empty
      string is in every string, and nothing longer than `s` is in it. */
  predicate Contains(s: string, sub: string)
    ensures sub == [] ==> Contains(s, sub)
    ensures Contains(s, sub) ==> |sub| <= |s|
  {
    StartsWith(s, sub) || (s != [] && Contains(s[1..], sub))
  }

  /** The search succeeds exactly when `sub` occurs at some position of `s`. */
  lemma {:induction false} ContainsIff(s: string, sub: string)
    ensures Contains(s, sub) <==> exists i :: 0 <= i <= |s| && StartsWith(s[i..], sub)
  {
    if s != [] {
      ContainsIff(s[1..], sub);
      if (exists i :: 0 <= i <= |s| && StartsWith(s[i..], sub)) && !StartsWith(s, sub) {
        var i :| 0 <= i <= |s| && StartsWith(s[i..], sub);
        assert i > 0;
        assert s[1..][i - 1..] == s[i..];
      }
      if Contains(s[1..], sub) {
        var i :| 0 <= i <= |s[1..]| && StartsWith(s[1..][i..], sub);
        assert s[1..][i..] == s[i + 1..];
      }
      if StartsWith(s, sub) {
        assert s[0..] == s;
      }
    } else {
      assert s[0..] == s;
    }
  }

  /** Lower-casing keeps every occurrence: if `sub` is in `s`, the lower-cased `sub` is in the
      lower-cased `s`, so the search at the keyword test ignores case. */
  lemma {:induction false} LowerContains(s: string, sub: string)
    requires Contains(s, sub)
    ensures Contains(Lower(s), Lower(sub))
  {
    if StartsWith(s, sub) {
      assert Lower(s)[..|sub|] == Lower(sub);
    } else {
      LowerContains(s[1..], sub);
      assert Lower(s[1..]) == Lower(s)[1..];
    }
  }

  /** A string contains everything written inside it. */
  lemma ContainsInfix(a: string, sub: string, b: string)
    ensures Contains(a + sub + b, sub)
  {
    var s := a + sub + b;
    assert StartsWith(s[|a|..], sub);
    ContainsIff(s, sub);
  }

  predicate IsDigit(c: char)
  {
    '0' <= c <= '9'
  }

  predicate IsDigits(s: string)
  {
    forall k :: 0 <= k < |s| ==> IsDigit(s[k])
  }

  function DigitValue(c: char): nat
    requires IsDigit(c)
  {
    c as int - '0' as int
  }

  function Digit(d: nat): char
    requires d < 10
  {
    ('0' as int + d) as char
  }

  function Pow10(k: nat): (p: nat)
    ensures p >= 1
  {
    if k == 0 then 1 else 10 * Pow10(k - 1)
  }

  /** `int(s)` on a run of decimal digits: a value with at most `|s|` decimal places. */
  function DigitsValue(s: string): (n: nat)
    requires IsDigits(s)
    ensures n < Pow10(|s|)
  {
    if s == [] then 0 else 10 * DigitsValue(s[..|s| - 1]) + DigitValue(s[|s| - 1])
  }

  /** The decimal rendering of `n`, as `f"{n}"` writes it. */
  function NatToString(n: nat): (r: string)
    ensures |r| > 0 && IsDigits(r)
    ensures r[0] != '0' || n == 0
    decreases n
  {
    if n < 10 then [Digit(n)] else NatToString(n / 10) + [Digit(n % 10)]
  }

  /** Reading back the rendering of a count gives the count. */
  lemma {:induction false} DigitsOfNat(n: nat)
    ensures DigitsValue(NatToString(n)) == n
    decreases n
  {
    if n >= 10 {
      DigitsOfNat(n / 10);
      var s := NatToString(n);
      assert s[..|s| - 1] == NatToString(n / 10);
    }
  }

  /** A digit run without a leading zero is the rendering of its value. */
  lemma {:induction false} NatOfDigits(s: string)
    requires |s| > 0 && IsDigits(s) && (s[0] != '0' || |s| == 1)
    ensures NatToString(DigitsValue(s)) == s
  {
    var front := s[..|s| - 1];
    if front == [] {
      assert s == [s[0]];
    } else {
      NatOfDigits(front);
      LeadingDigit(front);
      var n := DigitsValue(s);
      assert n / 10 == DigitsValue(front) && n % 10 == DigitValue(s[|s| - 1]);
      assert s == front + [s[|s| - 1]];
    }
  }

  /** A digit run that starts with a non-zero digit has a positive value. */
  lemma {:induction false} LeadingDigit(s: string)
    requires |s| > 0 && IsDigits(s) && s[0] != '0'
    ensures DigitsValue(s) > 0
  {
    if |s| > 1 {
      LeadingDigit(s[..|s| - 1]);
    }
  }

  /** Different counts render differently. */
  lemma NatToStringInjective(m: nat, n: nat)
    requires m != n
    ensures NatToString(m) != NatToString(n)
  {
    DigitsOfNat(m);
    DigitsOfNat(n);
  }

  /** The characters the component pattern admits in a value: `[\d.,]`. */
  predicate IsValueChar(c: char)
  {
    IsDigit(c) || c == '.' || c == ','
  }

  /** The number of occurrences of `c` in `s`: none exactly when no character is `c`. */
  function CountOf(s: string, c: char): (n: nat)
    ensures n <= |s|
    ensures n == 0 <==> forall k :: 0 <= k < |s| ==> s[k] != c
  {
    if s == [] then 0
    else
      assert forall k :: 1 <= k < |s| ==> s[k] == s[1..][k - 1];
      (if s[0] == c then 1 else 0) + CountOf(s[1..], c)
  }

  /** `float(s)` succeeds on a value the component pattern captured exactly when the text has
      no comma, at most one dot and at least one digit: a plain count parses, a text with a
      comma never does, and the empty text never does. */
  predicate FloatParses(s: string)
    requires forall k :: 0 <= k < |s| ==> IsValueChar(s[k])
    ensures |s| > 0 && IsDigits(s) ==> FloatParses(s)
    ensures FloatParses(s) ==> |s| > 0 && forall k :: 0 <= k < |s| ==> s[k] != ','
  {
    CountOf(s, ',') == 0 && CountOf(s, '.') <= 1 && exists k :: 0 <= k < |s| && IsDigit(s[k])
  }
}
