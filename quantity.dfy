/**
  Quantity detection (`detect_quantity`): the name is normalised, every
  integer `N x M` pair is cut out, and then each keyword in list order is
  looked for, first as `\b(\d+)\s*KW\b` (count before keyword), then as
  `\bKW\s*(\d+)\b` (keyword before count); the first hit gives the quantity
  and no hit gives 1.

  Each regex has a declarative description of its matches (`CountFirstAt`,
  `KeywordFirstAt`) and a search that computes the match `re.search` reports;
  the `...Spec` lemmas show the search reports the leftmost match and, at that
  position, the longest count the backtracking engine tries first.
*/
module Quantity {
  import opened Wrappers
  import opened Text
  import opened Dimensions

  // ---------------------------------------------------------------------------
  // re.sub(r'\d+\s*x\s*\d+', '', s)

  /** Cutting out every integer pair, scanning left to right from `i`. */
  function StripPairsFrom(s: string, i: nat): string
    requires i <= |s|
    decreases |s| - i
  {
    if i == |s| then []
    else match PairMatch(s, i, false)
      case Some(m) => StripPairsFrom(s, m.e2)
      case None => [s[i]] + StripPairsFrom(s, i + 1)
  }

  function StripPairs(s: string): string {
    StripPairsFrom(s, 0)
  }

  /** A text without any integer pair passes through unchanged. */
  lemma {:induction false} StripPairsIdentity(s: string, i: nat)
    requires i <= |s|
    requires forall q: nat, m: Pair :: !PairAt(s, q, m, false)
    ensures StripPairsFrom(s, i) == s[i..]
    decreases |s| - i
  {
    if i < |s| {
      if PairMatch(s, i, false).Some? {
        PairMatchSound(s, i, false);
      }
      StripPairsIdentity(s, i + 1);
    }
  }

  /** Everything before the leftmost integer pair is kept as it is, the pair
      itself is dropped, and cutting continues after it. */
  lemma {:induction false} StripPairsFirst(s: string, i: nat, p: nat, m: Pair)
    requires i <= p <= |s|
    requires PairMatch(s, p, false) == Some(m)
    requires forall q :: i <= q < p ==> PairMatch(s, q, false) == None
    ensures StripPairsFrom(s, i) == s[i..p] + StripPairsFrom(s, m.e2)
    decreases p - i
  {
    if i < p {
      var rest := StripPairsFrom(s, m.e2);
      StripPairsKeeps(s, i);
      StripPairsFirst(s, i + 1, p, m);
      ConsSlice(s, i, p, rest);
    }
  }

  /** Putting one character back in front of a slice. */
  lemma ConsSlice(s: string, i: nat, p: nat, rest: string)
    requires i < p <= |s|
    ensures [s[i]] + (s[i + 1..p] + rest) == s[i..p] + rest
  {
    assert s[i..p] == [s[i]] + s[i + 1..p];
  }

  /** Where no pair starts, the character is kept. */
  lemma StripPairsKeeps(s: string, i: nat)
    requires i < |s| && PairMatch(s, i, false) == None
    ensures StripPairsFrom(s, i) == [s[i]] + StripPairsFrom(s, i + 1)
  {
  }

  /** The text keywords are looked for in: stripped, lower-cased, whitespace
      collapsed, integer pairs cut out, collapsed and stripped again. */
  function Prepared(name: string): string {
    Strip(Collapse(StripPairs(Collapse(Lower(Strip(name))))))
  }

  // ---------------------------------------------------------------------------
  // \b(\d+)\s*KW\b

  /** The keyword occurs at `w` and ends at a word boundary. */
  predicate KeywordEndsAt(s: string, kw: string, w: nat) {
    w + |kw| <= |s| && s[w..w + |kw|] == kw && Boundary(s, w + |kw|)
  }

  /** The count pattern matches at `p` with count `s[p..d]` and spaces `s[d..w]`. */
  predicate CountFirstAt(s: string, kw: string, p: nat, d: nat, w: nat) {
    && p < d <= w <= |s|
    && Boundary(s, p) && AllDigits(s, p, d) && AllSpaces(s, d, w)
    && KeywordEndsAt(s, kw, w)
  }

  /** Whether some amount of the spaces `s[d..hi]` is followed by the keyword. */
  function KeywordWithin(s: string, kw: string, d: nat, hi: nat): (b: bool)
    requires d <= hi <= |s|
    ensures b <==> exists w: nat :: d <= w <= hi && KeywordEndsAt(s, kw, w)
    decreases hi - d
  {
    KeywordEndsAt(s, kw, hi) || (hi > d && KeywordWithin(s, kw, d, hi - 1))
  }

  /** The longest count `s[p..d]` with `d <= hi` that the keyword follows, the
      lengths being tried from the longest down as backtracking does. */
  function LongestCount(s: string, kw: string, p: nat, hi: nat): (r: Option<nat>)
    requires p <= |s| && p <= hi <= DigitsEnd(s, p)
    ensures r.Some? ==> p < r.value <= hi && KeywordWithin(s, kw, r.value, SpacesEnd(s, r.value))
    ensures forall d: nat :: (if r.Some? then r.value else p) < d <= hi ==>
      !KeywordWithin(s, kw, d, SpacesEnd(s, d))
    decreases hi - p
  {
    if hi == p then None
    else if KeywordWithin(s, kw, hi, SpacesEnd(s, hi)) then Some(hi)
    else LongestCount(s, kw, p, hi - 1)
  }

  /** The end of the count the pattern reports at `p`, if it matches there. */
  function CountAt(s: string, kw: string, p: nat): Option<nat>
    requires p <= |s|
  {
    if Boundary(s, p) then LongestCount(s, kw, p, DigitsEnd(s, p)) else None
  }

  lemma CountAtSpec(s: string, kw: string, p: nat)
    requires p <= |s|
    ensures CountAt(s, kw, p).Some? ==>
      exists w: nat :: CountFirstAt(s, kw, p, CountAt(s, kw, p).value, w)
    ensures forall d: nat, w: nat :: CountFirstAt(s, kw, p, d, w) ==>
      CountAt(s, kw, p).Some? && d <= CountAt(s, kw, p).value
  {
    if CountAt(s, kw, p).Some? {
      var d := CountAt(s, kw, p).value;
      var w: nat :| d <= w <= SpacesEnd(s, d) && KeywordEndsAt(s, kw, w);
      assert CountFirstAt(s, kw, p, d, w);
    }
    forall d: nat, w: nat | CountFirstAt(s, kw, p, d, w)
      ensures CountAt(s, kw, p).Some? && d <= CountAt(s, kw, p).value
    {
      assert d <= DigitsEnd(s, p);
      assert w <= SpacesEnd(s, d);
      assert KeywordWithin(s, kw, d, SpacesEnd(s, d));
    }
  }

  /** The leftmost position at or after `from` where the count pattern matches. */
  function CountSearch(s: string, kw: string, from: nat): (r: Option<(nat, nat)>)
    requires from <= |s|
    ensures r.Some? ==> from <= r.value.0 <= |s| && CountAt(s, kw, r.value.0) == Some(r.value.1)
    decreases |s| - from
  {
    match CountAt(s, kw, from)
    case Some(d) => Some((from, d))
    case None => if from == |s| then None else CountSearch(s, kw, from + 1)
  }

  /** The search reports the leftmost position that matches, and none when
      no position does. */
  lemma {:induction false} CountSearchLeftmost(s: string, kw: string, from: nat)
    requires from <= |s|
    ensures var r := CountSearch(s, kw, from);
      r.Some? ==> forall q :: from <= q < r.value.0 ==> CountAt(s, kw, q) == None
    ensures CountSearch(s, kw, from).None? ==> forall q :: from <= q <= |s| ==> CountAt(s, kw, q) == None
    decreases |s| - from
  {
    var r := CountSearch(s, kw, from);
    if CountAt(s, kw, from).Some? {
      assert r.Some? && r.value.0 == from;
    } else if from < |s| {
      CountSearchLeftmost(s, kw, from + 1);
      assert r == CountSearch(s, kw, from + 1);
      if r.Some? {
        forall q | from <= q < r.value.0 ensures CountAt(s, kw, q) == None {
          if q == from {
            assert CountAt(s, kw, from) == None;
          } else {
            assert from + 1 <= q < r.value.0;
          }
        }
      }
    }
  }

  /** `re.search(rf'\b(\d+)\s*{kw}\b', s)` and the value of its group. */
  function CountBefore(s: string, kw: string): Option<nat> {
    match CountSearch(s, kw, 0)
    case None => None
    case Some((p, d)) =>
      assert AllDigits(s, p, d) && IsDigitString(s[p..d]);
      Some(DigitsValue(s[p..d]))
  }

  /** The count reported is that of the leftmost match, read as far as any
      match at that position reads; no match means no count. */
  lemma CountBeforeSpec(s: string, kw: string)
    ensures CountBefore(s, kw).None? <==> forall p: nat, d: nat, w: nat :: !CountFirstAt(s, kw, p, d, w)
    ensures CountBefore(s, kw).Some? ==>
      exists p: nat, d: nat, w: nat :: CountFirstAt(s, kw, p, d, w) &&
        IsDigitString(s[p..d]) && CountBefore(s, kw).value == DigitsValue(s[p..d]) &&
        forall p': nat, d': nat, w': nat :: CountFirstAt(s, kw, p', d', w') ==> p <= p' && (p' == p ==> d' <= d)
  {
    var r := CountSearch(s, kw, 0);
    CountSearchLeftmost(s, kw, 0);
    forall p: nat, d: nat, w: nat | CountFirstAt(s, kw, p, d, w)
      ensures r.Some? && r.value.0 <= p
      ensures r.value.0 == p ==> d <= r.value.1
    {
      CountAtSpec(s, kw, p);
    }
    if r.Some? {
      var (p, d) := r.value;
      CountAtSpec(s, kw, p);
      var w: nat :| CountFirstAt(s, kw, p, d, w);
      assert IsDigitString(s[p..d]);
    }
  }

  // ---------------------------------------------------------------------------
  // \bKW\s*(\d+)\b

  /** The keyword pattern matches at `p` with spaces up to `w` and count `s[w..d]`. */
  predicate KeywordFirstAt(s: string, kw: string, p: nat, w: nat, d: nat) {
    && p + |kw| <= w < d <= |s|
    && Boundary(s, p) && s[p..p + |kw|] == kw
    && AllSpaces(s, p + |kw|, w) && AllDigits(s, w, d) && Boundary(s, d)
  }

  /** The count boundaries the pattern reports at `p`: all the spaces, then the
      whole digit run, which must end at a word boundary. */
  function KeywordAt(s: string, kw: string, p: nat): (r: Option<(nat, nat)>)
    requires p <= |s|
    ensures r.Some? ==> KeywordFirstAt(s, kw, p, r.value.0, r.value.1)
  {
    if Boundary(s, p) && p + |kw| <= |s| && s[p..p + |kw|] == kw then
      var w := SpacesEnd(s, p + |kw|);
      var d := DigitsEnd(s, w);
      if w < d && Boundary(s, d) then Some((w, d)) else None
    else None
  }

  /** A match at `p` can only have the reported boundaries: fewer spaces leave
      a space where the count must start, a shorter count has no boundary after it. */
  lemma KeywordAtForced(s: string, kw: string, p: nat, w: nat, d: nat)
    requires KeywordFirstAt(s, kw, p, w, d)
    ensures KeywordAt(s, kw, p) == Some((w, d))
  {
    var w0 := SpacesEnd(s, p + |kw|);
    assert !IsSpace(s[w]);
    assert w0 == w;
    var d0 := DigitsEnd(s, w);
    assert d0 == d;
  }

  function KeywordSearch(s: string, kw: string, from: nat): (r: Option<(nat, (nat, nat))>)
    requires from <= |s|
    ensures r.Some? ==> from <= r.value.0 <= |s| && KeywordAt(s, kw, r.value.0) == Some(r.value.1)
    decreases |s| - from
  {
    match KeywordAt(s, kw, from)
    case Some(b) => Some((from, b))
    case None => if from == |s| then None else KeywordSearch(s, kw, from + 1)
  }

  /** The search reports the leftmost position that matches, and none when
      no position does. */
  lemma {:induction false} KeywordSearchLeftmost(s: string, kw: string, from: nat)
    requires from <= |s|
    ensures var r := KeywordSearch(s, kw, from);
      r.Some? ==> forall q :: from <= q < r.value.0 ==> KeywordAt(s, kw, q) == None
    ensures KeywordSearch(s, kw, from).None? ==> forall q :: from <= q <= |s| ==> KeywordAt(s, kw, q) == None
    decreases |s| - from
  {
    var r := KeywordSearch(s, kw, from);
    if KeywordAt(s, kw, from).Some? {
      assert r.Some? && r.value.0 == from;
    } else if from < |s| {
      KeywordSearchLeftmost(s, kw, from + 1);
      assert r == KeywordSearch(s, kw, from + 1);
      if r.Some? {
        forall q | from <= q < r.value.0 ensures KeywordAt(s, kw, q) == None {
          if q == from {
            assert KeywordAt(s, kw, from) == None;
          } else {
            assert from + 1 <= q < r.value.0;
          }
        }
      }
    }
  }

  /** `re.search(rf'\b{kw}\s*(\d+)\b', s)` and the value of its group. */
  function CountAfter(s: string, kw: string): Option<nat> {
    match KeywordSearch(s, kw, 0)
    case None => None
    case Some((p, (w, d))) =>
      assert AllDigits(s, w, d) && IsDigitString(s[w..d]);
      Some(DigitsValue(s[w..d]))
  }

  /** The count reported is that of the leftmost match; no match, no count. */
  lemma CountAfterSpec(s: string, kw: string)
    ensures CountAfter(s, kw).None? <==> forall p: nat, w: nat, d: nat :: !KeywordFirstAt(s, kw, p, w, d)
    ensures CountAfter(s, kw).Some? ==>
      exists p: nat, w: nat, d: nat :: KeywordFirstAt(s, kw, p, w, d) &&
        IsDigitString(s[w..d]) && CountAfter(s, kw).value == DigitsValue(s[w..d]) &&
        forall p': nat, w': nat, d': nat :: KeywordFirstAt(s, kw, p', w', d') ==> p <= p'
  {
    var r := KeywordSearch(s, kw, 0);
    KeywordSearchLeftmost(s, kw, 0);
    forall p: nat, w: nat, d: nat | KeywordFirstAt(s, kw, p, w, d)
      ensures r.Some? && r.value.0 <= p
    {
      KeywordAtForced(s, kw, p, w, d);
    }
    if r.Some? {
      var (p, (w, d)) := r.value;
      assert KeywordFirstAt(s, kw, p, w, d);
      assert IsDigitString(s[w..d]);
    }
  }

  // ---------------------------------------------------------------------------
  // The keyword loop

  /** One keyword: the count-before form first, then the keyword-before form. */
  function Hit(s: string, kw: string): Option<nat> {
    match CountBefore(s, kw)
    case Some(v) => Some(v)
    case None => CountAfter(s, kw)
  }

  /** The first keyword, in list order, that hits decides; otherwise 1. */
  function DetectIn(s: string, keywords: seq<string>): (q: nat)
    ensures q == 1 || exists i :: 0 <= i < |keywords| && Hit(s, keywords[i]) == Some(q)
    decreases |keywords|
  {
    if keywords == [] then 1
    else match Hit(s, keywords[0])
      case Some(v) => v
      case None =>
        var q := DetectIn(s, keywords[1..]);
        assert q == 1 || exists i :: 0 <= i < |keywords| && Hit(s, keywords[i]) == Some(q) by {
          if q != 1 {
            var i :| 0 <= i < |keywords| - 1 && Hit(s, keywords[1..][i]) == Some(q);
            assert keywords[1..][i] == keywords[i + 1];
          }
        }
        q
  }

  /** `detect_quantity(name)` with the keyword list passed explicitly. */
  function DetectQuantity(name: string, keywords: seq<string>): (q: nat)
    ensures q == 1 || exists i :: 0 <= i < |keywords| && Hit(Prepared(name), keywords[i]) == Some(q)
  {
    DetectIn(Prepared(name), keywords)
  }

  /** Without a hit for any keyword the quantity is 1. */
  lemma {:induction false} DetectDefault(s: string, keywords: seq<string>)
    requires forall i :: 0 <= i < |keywords| ==> Hit(s, keywords[i]) == None
    ensures DetectIn(s, keywords) == 1
    decreases |keywords|
  {
    if keywords != [] {
      assert Hit(s, keywords[0]) == None;
      DetectDefault(s, keywords[1..]);
    }
  }

  /** The keyword that hits first in list order decides the quantity, whatever
      the later keywords would give. */
  lemma {:induction false} DetectFirstHit(s: string, keywords: seq<string>, i: nat, v: nat)
    requires i < |keywords| && Hit(s, keywords[i]) == Some(v)
    requires forall j :: 0 <= j < i ==> Hit(s, keywords[j]) == None
    ensures DetectIn(s, keywords) == v
    decreases i
  {
    if i > 0 {
      assert Hit(s, keywords[0]) == None;
      DetectFirstHit(s, keywords[1..], i - 1, v);
    }
  }

  // ---------------------------------------------------------------------------
  // Names without digits

  predicate NoDigits(s: string) {
    forall k :: 0 <= k < |s| ==> !IsDigit(s[k])
  }

  lemma {:induction false} StripNoDigits(s: string)
    requires NoDigits(s)
    ensures NoDigits(Strip(s))
    decreases |s|
  {
    if s != [] && IsSpace(s[0]) {
      StripNoDigits(s[1..]);
    } else if s != [] && IsSpace(s[|s| - 1]) {
      StripNoDigits(s[..|s| - 1]);
    }
  }

  lemma {:induction false} CollapseNoDigits(s: string, i: nat)
    requires i <= |s| && NoDigits(s)
    ensures NoDigits(CollapseFrom(s, i))
    decreases |s| - i
  {
    if i < |s| {
      if IsSpace(s[i]) {
        CollapseNoDigits(s, SpacesEnd(s, i));
      } else {
        CollapseNoDigits(s, i + 1);
      }
    }
  }

  lemma {:induction false} StripPairsNoDigits(s: string, i: nat)
    requires i <= |s| && NoDigits(s)
    ensures StripPairsFrom(s, i) == s[i..]
    decreases |s| - i
  {
    if i < |s| {
      StripPairsNoDigits(s, i + 1);
    }
  }

  lemma CountBeforeNoDigits(s: string, kw: string)
    requires NoDigits(s)
    ensures CountBefore(s, kw) == None
  {
    CountBeforeSpec(s, kw);
    forall p: nat, d: nat, w: nat ensures !CountFirstAt(s, kw, p, d, w) {
      if p < d <= |s| { assert !IsDigit(s[p]); }
    }
  }

  lemma CountAfterNoDigits(s: string, kw: string)
    requires NoDigits(s)
    ensures CountAfter(s, kw) == None
  {
    CountAfterSpec(s, kw);
    forall p: nat, w: nat, d: nat ensures !KeywordFirstAt(s, kw, p, w, d) {
      if w < d <= |s| { assert !IsDigit(s[w]); }
    }
  }

  /** A name without digits always gets the default quantity 1. */
  lemma DetectWithoutDigits(name: string, keywords: seq<string>)
    requires NoDigits(name)
    ensures DetectQuantity(name, keywords) == 1
  {
    StripNoDigits(name);
    var a := Lower(Strip(name));
    assert NoDigits(a);
    CollapseNoDigits(a, 0);
    var b := Collapse(a);
    StripPairsNoDigits(b, 0);
    CollapseNoDigits(b, 0);
    StripNoDigits(Collapse(b));
    var s := Prepared(name);
    forall i | 0 <= i < |keywords| ensures Hit(s, keywords[i]) == None {
      CountBeforeNoDigits(s, keywords[i]);
      CountAfterNoDigits(s, keywords[i]);
    }
    DetectDefault(s, keywords);
  }
}
