/**
  Size classes from file names (`extract_dimensions` and its `to_feet`), and
  the `<number> x <number>` pattern shared with quantity detection.

  The pattern `(\d+\.?\d*)\s*x\s*(\d+\.?\d*)` (decimal numbers) and its integer
  form `\d+\s*x\s*\d+` are described twice: `PairAt` says when the pattern
  matches at a position with given group boundaries, and `PairMatch` computes
  the match the regex engine reports there. Because a number can only be
  followed by whitespace or `x`, the first group, the separator and the start
  of the second group are forced; the greedy second group takes the longest
  number (`PairMatchComplete`).
*/
module Dimensions {
  import opened Wrappers
  import opened Text

  /** `\d+\.?\d*` (when `decimal`) or `\d+` matches exactly `s[i..j]`. */
  predicate IsNumber(s: string, i: nat, j: nat, decimal: bool)
    requires i <= j <= |s|
  {
    i < j && IsDigit(s[i]) &&
    forall k :: i <= k < j ==> IsDigit(s[k]) || (decimal && s[k] == '.' && AllDigits(s, i, k))
  }

  /** The end of the longest number starting at `i`. */
  function NumberEnd(s: string, i: nat, decimal: bool): (j: nat)
    requires i < |s| && IsDigit(s[i])
    ensures i < j <= |s|
  {
    var d := DigitsEnd(s, i);
    if decimal && d < |s| && s[d] == '.' then DigitsEnd(s, d + 1) else d
  }

  /** The longest number is a number. */
  lemma NumberEndIsNumber(s: string, i: nat, decimal: bool)
    requires i < |s| && IsDigit(s[i])
    ensures IsNumber(s, i, NumberEnd(s, i, decimal), decimal)
  {
  }

  /** Every number starting at `i` is a prefix of the longest one, and the
      character after a shorter one is a digit or a dot. */
  lemma NumberForced(s: string, i: nat, j: nat, decimal: bool)
    requires i <= j <= |s| && IsNumber(s, i, j, decimal)
    ensures j <= NumberEnd(s, i, decimal)
    ensures j < NumberEnd(s, i, decimal) ==> IsDigit(s[j]) || s[j] == '.'
  {
    var d := DigitsEnd(s, i);
    if j > d {
      assert s[d] == '.' && decimal;
      assert forall k :: d < k < j ==> IsDigit(s[k]) by {
        forall k | d < k < j ensures IsDigit(s[k]) {
          assert !AllDigits(s, i, k) by { assert !IsDigit(s[d]); }
        }
      }
      assert AllDigits(s, d + 1, j);
    }
  }

  /** The group boundaries of one match: the first number is `s[p..e1]`, the
      `x` is at `x`, the second number is `s[w2..e2]`. */
  datatype Pair = Pair(e1: nat, x: nat, w2: nat, e2: nat)

  /** The pattern matches at `p` with the boundaries `m`. */
  predicate PairAt(s: string, p: nat, m: Pair, decimal: bool) {
    && p < m.e1 <= m.x < m.w2 < m.e2 <= |s|
    && IsNumber(s, p, m.e1, decimal)
    && AllSpaces(s, m.e1, m.x) && s[m.x] == 'x'
    && AllSpaces(s, m.x + 1, m.w2)
    && IsNumber(s, m.w2, m.e2, decimal)
  }

  /** The match the regex engine reports at position `p`, if any. */
  function PairMatch(s: string, p: nat, decimal: bool): (r: Option<Pair>)
    ensures r.Some? ==> p < r.value.e1 <= r.value.x < r.value.w2 < r.value.e2 <= |s|
  {
    if p < |s| && IsDigit(s[p]) then
      var e1 := NumberEnd(s, p, decimal);
      var x := SpacesEnd(s, e1);
      if x < |s| && s[x] == 'x' then
        var w2 := SpacesEnd(s, x + 1);
        if w2 < |s| && IsDigit(s[w2]) then Some(Pair(e1, x, w2, NumberEnd(s, w2, decimal)))
        else None
      else None
    else None
  }

  /** The reported match is a match. */
  lemma PairMatchSound(s: string, p: nat, decimal: bool)
    requires PairMatch(s, p, decimal).Some?
    ensures PairAt(s, p, PairMatch(s, p, decimal).value, decimal)
  {
    var m := PairMatch(s, p, decimal).value;
    NumberEndIsNumber(s, p, decimal);
    NumberEndIsNumber(s, m.w2, decimal);
  }

  /** Every way the pattern can match at `p` agrees with the reported match on
      the first group and the separator, and its second group is no longer. */
  lemma PairMatchComplete(s: string, p: nat, m: Pair, decimal: bool)
    requires PairAt(s, p, m, decimal)
    ensures PairMatch(s, p, decimal).Some?
    ensures var r := PairMatch(s, p, decimal).value;
      r.e1 == m.e1 && r.x == m.x && r.w2 == m.w2 && m.e2 <= r.e2
  {
    NumberForced(s, p, m.e1, decimal);
    assert NumberEnd(s, p, decimal) == m.e1 by {
      assert IsSpace(s[m.e1]) || s[m.e1] == 'x';
    }
    SpacesEndAt(s, m.e1, m.x);
    SpacesEndAt(s, m.x + 1, m.w2);
    NumberForced(s, m.w2, m.e2, decimal);
  }

  /** `re.search`: the leftmost position at or after `from` where the pattern
      matches, with the match reported there. */
  function FirstPair(s: string, from: nat, decimal: bool): (r: Option<(nat, Pair)>)
    requires from <= |s|
    ensures r.Some? ==> from <= r.value.0 && PairMatch(s, r.value.0, decimal) == Some(r.value.1)
    decreases |s| - from
  {
    if from == |s| then None
    else match PairMatch(s, from, decimal)
      case Some(m) => Some((from, m))
      case None => FirstPair(s, from + 1, decimal)
  }

  /** The search reports the leftmost match: nothing matches before the
      reported position, and nothing at all when none is reported. */
  lemma {:induction false} FirstPairLeftmost(s: string, from: nat, decimal: bool)
    requires from <= |s|
    ensures var r := FirstPair(s, from, decimal);
      r.Some? ==> forall q :: from <= q < r.value.0 ==> PairMatch(s, q, decimal) == None
    ensures FirstPair(s, from, decimal).None? ==> forall q :: from <= q < |s| ==> PairMatch(s, q, decimal) == None
    decreases |s| - from
  {
    var r := FirstPair(s, from, decimal);
    if from < |s| && PairMatch(s, from, decimal).Some? {
      assert r.Some? && r.value.0 == from;
    } else if from < |s| {
      FirstPairLeftmost(s, from + 1, decimal);
      assert r == FirstPair(s, from + 1, decimal);
      if r.Some? {
        forall q | from <= q < r.value.0 ensures PairMatch(s, q, decimal) == None {
          if q == from {
            assert PairMatch(s, from, decimal) == None;
          } else {
            assert from + 1 <= q < r.value.0;
          }
        }
      }
    }
  }

  /** The name as `extract_dimensions` searches it: `X` made `x`, lower-cased,
      whitespace runs collapsed (lower-casing already turns `X` into `x`). */
  function Clean(name: string): string {
    Collapse(Lower(name))
  }

  function Pow10(n: nat): (r: nat)
    ensures r >= 1
  {
    if n == 0 then 1 else 10 * Pow10(n - 1)
  }

  /** `float(s[i..j])` for a decimal number, exactly. */
  function DecimalValue(s: string, i: nat, j: nat): (v: real)
    requires i <= j <= |s| && IsNumber(s, i, j, true)
    ensures v >= 0.0
  {
    var d := if DigitsEnd(s, i) < j then DigitsEnd(s, i) else j;
    assert IsDigitString(s[i..d]);
    var intPart := DigitsValue(s[i..d]) as real;
    if d == j then intPart
    else
      assert s[d] == '.' && !IsDigit(s[d]);
      assert IsDigitString(s[d + 1..j]) by {
        forall k | d + 1 <= k < j ensures IsDigit(s[k]) {
          assert !AllDigits(s, i, k) by { assert !IsDigit(s[d]); }
        }
      }
      intPart + DigitsValue(s[d + 1..j]) as real / Pow10(j - d - 1) as real
  }

  /** `to_feet`: the fixed step table from inches to a foot class. */
  function ToFeet(inch: real): (ft: nat)
    ensures ft in {1, 2, 3, 4, 5, 6, 8, 10}
    ensures 26.0 < inch <= 38.0 ==> ft == 3
  {
    if inch <= 20.0 then 1
    else if inch <= 26.0 then 2
    else if inch <= 32.0 then 3
    else if inch <= 38.0 then 3
    else if inch <= 50.0 then 4
    else if inch <= 62.0 then 5
    else if inch <= 74.0 then 6
    else if inch <= 98.0 then 8
    else 10
  }

  /** `to_feet` never decreases as the inch value grows. */
  lemma ToFeetMonotone(a: real, b: real)
    requires a <= b
    ensures ToFeet(a) <= ToFeet(b)
  {
  }

  datatype Dims = Dims(w: nat, h: nat)

  /** Both inch values bucketed; an area below 2 is raised to 1x2. */
  function Bucketed(wInch: real, hInch: real): (d: Dims)
    ensures d.w >= 1 && d.h >= 1 && d.w * d.h >= 2
    ensures ToFeet(wInch) * ToFeet(hInch) < 2 ==> d == Dims(1, 2)
    ensures ToFeet(wInch) * ToFeet(hInch) >= 2 ==> d == Dims(ToFeet(wInch), ToFeet(hInch))
  {
    var w, h := ToFeet(wInch), ToFeet(hInch);
    if w * h < 2 then Dims(1, 2) else Dims(w, h)
  }

  /** The size class of the first `<number> x <number>` in the name, if any. */
  function Measure(name: string): (r: Option<Dims>)
    ensures r.Some? ==> r.value.w >= 1 && r.value.h >= 1 && r.value.w * r.value.h >= 2
  {
    var s := Clean(name);
    match FirstPair(s, 0, true)
    case None => None
    case Some((p, m)) =>
      PairMatchSound(s, p, true);
      Some(Bucketed(DecimalValue(s, p, m.e1), DecimalValue(s, m.w2, m.e2)))
  }

  /** `extract_dimensions`: `"{w}x{h}"`, or the empty string without a match. */
  function ExtractDimensions(name: string): (r: string)
    ensures r == [] <==> Measure(name).None?
    ensures r != [] ==>
      exists w: nat, h: nat :: 1 <= w && 1 <= h && 2 <= w * h && r == NatToString(w) + "x" + NatToString(h)
  {
    match Measure(name)
    case None => ""
    case Some(d) => NatToString(d.w) + "x" + NatToString(d.h)
  }

  /** The result is empty exactly when no `<number> x <number>` occurs in the
      cleaned name; otherwise it names a class of at least two square feet. */
  lemma ExtractDimensionsSpec(name: string)
    ensures ExtractDimensions(name) == "" <==> forall p: nat, m: Pair :: !PairAt(Clean(name), p, m, true)
    ensures ExtractDimensions(name) != "" ==>
      exists d: Dims :: Measure(name) == Some(d) && d.w >= 1 && d.h >= 1 && d.w * d.h >= 2 &&
        ExtractDimensions(name) == NatToString(d.w) + "x" + NatToString(d.h)
  {
    var s := Clean(name);
    FirstPairLeftmost(s, 0, true);
    match FirstPair(s, 0, true)
    case None =>
      forall p: nat, m: Pair ensures !PairAt(s, p, m, true) {
        if PairAt(s, p, m, true) {
          PairMatchComplete(s, p, m, true);
        }
      }
    case Some((p, m)) =>
      PairMatchSound(s, p, true);
  }

  /** The size class comes from the leftmost match, reading its second number
      as far as it goes. */
  lemma MeasureIsLeftmost(name: string, p: nat, m: Pair)
    requires PairAt(Clean(name), p, m, true)
    requires forall q: nat, n: Pair :: q < p ==> !PairAt(Clean(name), q, n, true)
    requires forall n: Pair :: PairAt(Clean(name), p, n, true) ==> n.e2 <= m.e2
    ensures Measure(name) == Some(Bucketed(DecimalValue(Clean(name), p, m.e1), DecimalValue(Clean(name), m.w2, m.e2)))
  {
    var s := Clean(name);
    PairMatchComplete(s, p, m, true);
    FirstPairLeftmost(s, 0, true);
    var r := FirstPair(s, 0, true);
    assert r.Some? && r.value.0 <= p;
    var (q, n) := r.value;
    PairMatchSound(s, q, true);
    assert q == p;
    assert n == m;
  }
}
