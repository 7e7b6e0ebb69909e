/**
  The two names the renamer writes: the first-pass name of
  `generate_new_filename`, and the finalized name `finalize_and_next`
  gives a file in a `Done` folder once its quantity and category are known.
*/
module Naming {
  import opened Wrappers
  import opened Text
  import opened Paths
  import opened Quantity

  /** The marker of a finalized file. */
  const OkTag := "[ok]"

  /** `(FT.<dim>)`, or nothing when no dimensions were found. */
  function DimPart(dim: string): (r: string)
    ensures r == [] <==> dim == []
    ensures r != [] ==> r == "(FT." + dim + ")"
  {
    if dim == [] then [] else "(FT." + dim + ")"
  }

  /** Everything of a first-pass name before its quantity tag. */
  function Head(code: string, stem: string, machine: string, dim: string): string {
    code + "_" + stem + " " + machine + DimPart(dim)
  }

  /** `(Q.<n>)`. */
  function QTag(n: string): string {
    "(Q." + n + ")"
  }

  /** The first-pass name without its extension. */
  function FirstPassStem(stem: string, code: string, machine: string, dim: string, keywords: seq<string>): (a: string)
    ensures |a| >= 2 && a[|a| - 2..] == "%%"
  {
    Head(code, stem, machine, dim) + QTag(NatToString(DetectQuantity(stem, keywords))) + "%%"
  }

  /** A stem ending in `%%` followed by an extension. */
  lemma FirstPassSplit(a: string, ext: string)
    requires |a| >= 2 && a[|a| - 2..] == "%%"
    ensures |a + ext| >= |ext| + 2 && (a + ext)[|a + ext| - |ext| - 2..] == "%%" + ext
    ensures ext != [] && IsSuffixShape(ext) ==> Suffix(a + ext) == ext && Stem(a + ext) == a
  {
    assert (a + ext)[|a| - 2..] == a[|a| - 2..] + ext;
    if ext != [] && IsSuffixShape(ext) {
      SplitSuffixed(a, ext);
    }
  }

  /** `generate_new_filename`: the quantity is detected on the stem only. */
  function GenerateNewFilename(stem: string, code: string, ext: string, dim: string,
                               machine: string, keywords: seq<string>): (r: string)
    ensures |r| >= |ext| + 2 && r[|r| - |ext| - 2..] == "%%" + ext
    ensures ext != [] && IsSuffixShape(ext) ==>
      Suffix(r) == ext && Stem(r) == FirstPassStem(stem, code, machine, dim, keywords)
  {
    var a := FirstPassStem(stem, code, machine, dim, keywords);
    FirstPassSplit(a, ext);
    a + ext
  }

  // ---------------------------------------------------------------------------
  // Finalize

  /** `(Q.<digits>)%` at `p`: what decides whether `\(Q\.\d+\)%%?` matches
      there (the optional second `%` never stops a match). */
  predicate QBlockAt(s: string, p: nat) {
    && p + 3 <= |s| && s[p..p + 3] == "(Q."
    && var d := DigitsEnd(s, p + 3);
       p + 3 < d && d + 2 <= |s| && s[d] == ')' && s[d + 1] == '%'
  }

  /** The leftmost quantity block at or after `from`. */
  function QBlockFrom(s: string, from: nat): (r: Option<nat>)
    requires from <= |s|
    ensures r.Some? ==> from <= r.value <= |s| && QBlockAt(s, r.value)
    decreases |s| - from
  {
    if QBlockAt(s, from) then Some(from)
    else if from == |s| then None
    else QBlockFrom(s, from + 1)
  }

  /** The search reports the leftmost block, and none when there is none. */
  lemma {:induction false} QBlockFromLeftmost(s: string, from: nat)
    requires from <= |s|
    ensures var r := QBlockFrom(s, from);
      r.Some? ==> forall q :: from <= q < r.value ==> !QBlockAt(s, q)
    ensures QBlockFrom(s, from).None? ==> forall q :: from <= q <= |s| ==> !QBlockAt(s, q)
    decreases |s| - from
  {
    var r := QBlockFrom(s, from);
    if QBlockAt(s, from) {
      assert r == Some(from);
    } else if from < |s| {
      QBlockFromLeftmost(s, from + 1);
      assert r == QBlockFrom(s, from + 1);
      forall q | from <= q && (r.Some? ==> q < r.value) && (r.None? ==> q <= |s|) ensures !QBlockAt(s, q) {
        if q == from {
          assert !QBlockAt(s, from);
        } else {
          assert from + 1 <= q;
        }
      }
    }
  }

  /** The base the finalized name is built on: the stem up to its first
      quantity block, `re.split(...)[0]`, or the whole stem. */
  function FinalBase(stem: string): (base: string)
    ensures (forall q :: 0 <= q <= |stem| ==> !QBlockAt(stem, q)) ==> base == stem
    ensures forall p ::
      (0 <= p <= |stem| && QBlockAt(stem, p) && forall q :: 0 <= q < p ==> !QBlockAt(stem, q))
      ==> base == stem[..p]
  {
    if Contains(stem, "(Q.") then
      QBlockFromLeftmost(stem, 0);
      match QBlockFrom(stem, 0)
      case Some(p) => stem[..p]
      case None => stem
    else
      assert forall q :: 0 <= q <= |stem| ==> !QBlockAt(stem, q) by {
        forall q | 0 <= q <= |stem| && QBlockAt(stem, q) ensures false {
          ContainsWitness(stem, "(Q.", q);
        }
      }
      stem
  }

  /** The machine label gains `[ok]` once, and every occurrence of it does;
      a base without the label, or already tagged, is kept. */
  function Tagged(base: string, machine: string): (r: string)
    ensures Contains(base, machine) && !Contains(base, OkTag) ==> Contains(r, machine + OkTag)
    ensures Contains(base, machine) ==> Contains(r, OkTag)
    ensures !Contains(base, machine) || Contains(base, OkTag) ==> r == base
  {
    if Contains(base, machine) && !Contains(base, OkTag) then
      ContainsWitness(machine + OkTag, machine + OkTag, 0);
      ReplaceAllKeepsTag(base, machine, machine + OkTag, machine + OkTag);
      ContainsWitness(machine + OkTag, OkTag, |machine|);
      ReplaceAllKeepsTag(base, machine, machine + OkTag, OkTag);
      ReplaceAll(base, machine, machine + OkTag)
    else base
  }

  /** `%<cat>%`, or `%%` without a category. */
  function CatPart(cat: string): (r: string)
    ensures |r| >= 2 && r[0] == '%' && r[|r| - 1] == '%'
  {
    if cat != [] then "%" + cat + "%" else "%%"
  }

  /** The finalized name, or `None` for a name already carrying `[ok]`. */
  function FinalizedName(name: string, machine: string, qty: string, cat: string): (r: Option<string>)
    ensures r.None? <==> Contains(name, OkTag)
    ensures r.Some? ==> r.value == Tagged(FinalBase(Stem(name)), machine) + QTag(qty) + CatPart(cat) + Suffix(name)
    ensures r.Some? && Contains(FinalBase(Stem(name)), machine) ==> Contains(r.value, OkTag)
    ensures r.Some? && Suffix(name) != [] ==> Suffix(r.value) == Suffix(name)
  {
    if Contains(name, OkTag) then None
    else
      var base := Tagged(FinalBase(Stem(name)), machine);
      var r := base + QTag(qty) + CatPart(cat) + Suffix(name);
      assert Suffix(name) != [] ==> Suffix(r) == Suffix(name) by {
        if Suffix(name) != [] {
          SplitSuffixed(base + QTag(qty) + CatPart(cat), Suffix(name));
        }
      }
      ContainsPrefix(base, QTag(qty), OkTag);
      ContainsPrefix(base + QTag(qty), CatPart(cat), OkTag);
      ContainsPrefix(base + QTag(qty) + CatPart(cat), Suffix(name), OkTag);
      Some(r)
  }

  /** A finalized file is left alone by a second finalize. */
  lemma FinalizeOnce(name: string, machine: string, qty: string, cat: string, qty': string, cat': string)
    requires FinalizedName(name, machine, qty, cat).Some?
    requires Contains(FinalBase(Stem(name)), machine)
    ensures FinalizedName(FinalizedName(name, machine, qty, cat).value, machine, qty', cat') == None
  {
  }

  /** What a text contains, any extension of it contains. */
  lemma ContainsPrefix(a: string, b: string, t: string)
    ensures Contains(a, t) ==> Contains(a + b, t)
  {
    if Contains(a, t) {
      ContainsIff(a, t);
      var i: nat :| OccursAt(a, t, i);
      assert (a + b)[i..i + |t|] == a[i..i + |t|];
      ContainsWitness(a + b, t, i);
    }
  }

  /** A first-pass stem `<head>(Q.<n>)%%` has its first quantity block right
      after the head, so it is cut back to the head. */
  lemma FirstPassBase(head: string, n: string)
    requires IsDigitString(n) && n != []
    requires !Contains(head, "(Q.")
    ensures FinalBase(head + QTag(n) + "%%") == head
  {
    var stem := head + QTag(n) + "%%";
    var p := |head|;
    FirstPassBlock(head, n);
    forall q | 0 <= q < p ensures !QBlockAt(stem, q) {
      NoBlockInHead(head, n, q);
    }
    assert stem[..p] == head;
  }

  lemma FirstPassBlock(head: string, n: string)
    requires IsDigitString(n) && n != []
    ensures QBlockAt(head + QTag(n) + "%%", |head|)
  {
    var stem := head + QTag(n) + "%%";
    var p := |head|;
    assert stem[p..p + 3] == "(Q.";
    assert forall k :: p + 3 <= k < p + 3 + |n| ==> stem[k] == n[k - p - 3];
    assert stem[p + 3 + |n|] == ')';
    assert DigitsEnd(stem, p + 3) == p + 3 + |n|;
  }

  lemma NoBlockInHead(head: string, n: string, q: nat)
    requires !Contains(head, "(Q.")
    requires q < |head|
    ensures !QBlockAt(head + QTag(n) + "%%", q)
  {
    var stem := head + QTag(n) + "%%";
    assert stem[..|head|] == head && stem[|head|] == '(';
    NoOpenBefore(stem, head, q);
  }

  /** No `(Q.` starts inside a head free of it that is followed by `(`. */
  lemma NoOpenBefore(s: string, head: string, q: nat)
    requires |head| < |s| && s[..|head|] == head && s[|head|] == '('
    requires !Contains(head, "(Q.")
    requires q < |head|
    ensures q + 3 <= |s| ==> s[q..q + 3] != "(Q."
  {
    if q + 3 <= |head| {
      assert head[q..q + 3] == s[q..q + 3];
      if s[q..q + 3] == "(Q." {
        ContainsWitness(head, "(Q.", q);
      }
    } else if q + 3 <= |s| {
      assert s[q..q + 3][|head| - q] == '(';
    }
  }


  /** Finalizing a first-pass name `<head>(Q.<n>)%%<ext>` keeps the head, tags
      the machine label and puts the new quantity and category before the
      extension, provided the head holds no `(Q.` of its own. */
  lemma FinalizeFirstPassName(head: string, n: string, ext: string, machine: string, qty: string, cat: string)
    requires IsDigitString(n) && n != []
    requires ext != [] && IsSuffixShape(ext)
    requires !Contains(head, "(Q.")
    requires !Contains(head + QTag(n) + "%%" + ext, OkTag)
    ensures FinalizedName(head + QTag(n) + "%%" + ext, machine, qty, cat)
      == Some(Tagged(head, machine) + QTag(qty) + CatPart(cat) + ext)
  {
    var stem := head + QTag(n) + "%%";
    SplitSuffixed(stem, ext);
    FirstPassBase(head, n);
  }

  /** The machine label appears in every first-pass head. */
  lemma HeadHasMachine(code: string, stem: string, machine: string, dim: string)
    ensures Contains(Head(code, stem, machine, dim), machine)
  {
    var pre := code + "_" + stem + " ";
    var head := Head(code, stem, machine, dim);
    assert head == pre + machine + DimPart(dim);
    assert head[|pre|..|pre| + |machine|] == machine;
    ContainsWitness(head, machine, |pre|);
  }

  /** Finalizing the name `generate_new_filename` produced: every machine
      label in the head is tagged and the new quantity and category follow. */
  lemma FinalizeGenerated(stem: string, code: string, ext: string, dim: string, machine: string,
                          keywords: seq<string>, qty: string, cat: string)
    requires ext != [] && IsSuffixShape(ext)
    requires !Contains(Head(code, stem, machine, dim), "(Q.")
    requires !Contains(GenerateNewFilename(stem, code, ext, dim, machine, keywords), OkTag)
    ensures FinalizedName(GenerateNewFilename(stem, code, ext, dim, machine, keywords), machine, qty, cat)
      == Some(ReplaceAll(Head(code, stem, machine, dim), machine, machine + OkTag) + QTag(qty) + CatPart(cat) + ext)
  {
    var head := Head(code, stem, machine, dim);
    var n := NatToString(DetectQuantity(stem, keywords));
    var name := GenerateNewFilename(stem, code, ext, dim, machine, keywords);
    assert name == head + QTag(n) + "%%" + ext;
    HeadHasMachine(code, stem, machine, dim);
    ContainsPrefix(head, QTag(n), OkTag);
    ContainsPrefix(head + QTag(n), "%%", OkTag);
    ContainsPrefix(head + QTag(n) + "%%", ext, OkTag);
    assert Tagged(head, machine) == ReplaceAll(head, machine, machine + OkTag);
    FinalizeFirstPassName(head, n, ext, machine, qty, cat);
  }
}
