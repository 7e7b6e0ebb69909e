/**
  The file list: which files a scan shows in each mode, and the search box
  filter over the shown files. The scan's enumeration of the folder tree, in
  name order, is the input sequence `files`.
*/
module Listing {
  import opened Text
  import opened Paths
  import opened Naming

  const AllowedExtensions: seq<string> := [".plt", ".jpg", ".jpeg", ".jpe", ".jfif"]

  function UpperChar(c: char): char {
    if 'a' <= c <= 'z' then (c as int - 32) as char else c
  }

  /** `str.upper()` on ASCII letters. */
  function Upper(s: string): (r: string)
    ensures |r| == |s|
  {
    seq(|s|, k requires 0 <= k < |s| => UpperChar(s[k]))
  }

  predicate EndsWith(s: string, t: string) {
    |t| <= |s| && s[|s| - |t|..] == t
  }

  /** The glob patterns `*<ext>` and `*<EXT>` of some allowed extension,
      and in finalize mode `Done/...`: the file sits in a folder named `Done`. */
  predicate Globbed(p: Path, showDone: bool) {
    && (exists e :: e in AllowedExtensions && (EndsWith(Name(p), e) || EndsWith(Name(p), Upper(e))))
    && (showDone ==> Name(Parent(p)) == "Done")
  }

  /** Some part of the path, lower-cased, is `done`. */
  predicate InDone(p: Path) {
    exists k :: 0 <= k < |p| && Lower(p[k]) == "done"
  }

  /** The scan's filter: new files outside any `done` folder, or, in finalize
      mode, files in one that are not finalized yet. */
  predicate Shown(p: Path, showDone: bool) {
    Globbed(p, showDone) && InDone(p) == showDone && !(showDone && Contains(Name(p), OkTag))
  }

  /** The shown files, in their enumeration order. */
  function ScanFilter(files: seq<Path>, showDone: bool): (r: seq<Path>)
    ensures |r| <= |files|
    ensures forall p :: p in r <==> p in files && Shown(p, showDone)
  {
    if files == [] then []
    else
      var rest := ScanFilter(files[..|files| - 1], showDone);
      var p := files[|files| - 1];
      assert files == files[..|files| - 1] + [p];
      if Shown(p, showDone) then rest + [p] else rest
  }

  /** Filtering keeps the enumeration order: a list filtered in two parts is
      the two filtered parts, in order. */
  /** The last file of `a + b` is that of `b`, and the files before it are
      `a` and the rest of `b`. */
  lemma DropLast(a: seq<Path>, b: seq<Path>)
    requires b != []
    ensures a + b != [] && (a + b)[..|a + b| - 1] == a + b[..|b| - 1] && (a + b)[|a + b| - 1] == b[|b| - 1]
  {
  }

  lemma AppendAssoc(x: seq<Path>, y: seq<Path>, z: seq<Path>)
    ensures (x + y) + z == x + (y + z)
  {
  }

  /** The filter over a non-empty list: the filtered list before its last
      file, then that file if it passes. */
  lemma ScanFilterLast(files: seq<Path>, showDone: bool)
    requires files != []
    ensures var p := files[|files| - 1];
      ScanFilter(files, showDone) == ScanFilter(files[..|files| - 1], showDone) + (if Shown(p, showDone) then [p] else [])
  {
  }

  lemma {:induction false} ScanFilterAppend(a: seq<Path>, b: seq<Path>, showDone: bool)
    ensures ScanFilter(a + b, showDone) == ScanFilter(a, showDone) + ScanFilter(b, showDone)
    decreases |b|
  {
    if b == [] {
      assert a + b == a;
    } else {
      var b' := b[..|b| - 1];
      ScanFilterAppend(a, b', showDone);
      DropLast(a, b);
      ScanFilterLast(a + b, showDone);
      ScanFilterLast(b, showDone);
      var p := b[|b| - 1];
      AppendAssoc(ScanFilter(a, showDone), ScanFilter(b', showDone), if Shown(p, showDone) then [p] else []);
    }
  }



  /** `scan_folder`'s loop over the enumerated files. */
  method Scan(files: seq<Path>, showDone: bool) returns (shown: seq<Path>)
    ensures shown == ScanFilter(files, showDone)
  {
    shown := [];
    for i := 0 to |files|
      invariant shown == ScanFilter(files[..i], showDone)
    {
      assert files[..i + 1][..i] == files[..i];
      var p := files[i];
      if Globbed(p, showDone) {
        var inDone := InDone(p);
        if inDone != showDone { continue; }
        if Contains(Name(p), OkTag) && showDone { continue; }
        shown := shown + [p];
      }
    }
    assert files[..|files|] == files;
  }

  /** The two modes never show the same file, and finalize mode shows only
      files directly in a `Done` folder whose names lack `[ok]`. */
  lemma ScanModes(p: Path)
    ensures !(Shown(p, false) && Shown(p, true))
    ensures Shown(p, true) ==> Name(Parent(p)) == "Done" && !Contains(Name(p), OkTag)
    ensures Shown(p, false) ==> forall k :: 0 <= k < |p| ==> Lower(p[k]) != "done"
  {
  }

  /** The search box: the trimmed, lower-cased query occurs in the lower-cased name. */
  predicate Matches(p: Path, query: string) {
    Contains(Lower(Name(p)), Lower(Strip(query)))
  }

  function SearchFilter(files: seq<Path>, query: string): (r: seq<Path>)
    ensures |r| <= |files|
    ensures forall p :: p in r <==> p in files && Matches(p, query)
  {
    if files == [] then []
    else
      var rest := SearchFilter(files[..|files| - 1], query);
      var p := files[|files| - 1];
      assert files == files[..|files| - 1] + [p];
      if Matches(p, query) then rest + [p] else rest
  }

  /** The search keeps the listing's order. */
  /** The filter over a non-empty list: the filtered list before its last
      file, then that file if it passes. */
  lemma SearchFilterLast(files: seq<Path>, query: string)
    requires files != []
    ensures var p := files[|files| - 1];
      SearchFilter(files, query) == SearchFilter(files[..|files| - 1], query) + (if Matches(p, query) then [p] else [])
  {
  }

  lemma {:induction false} SearchFilterAppend(a: seq<Path>, b: seq<Path>, query: string)
    ensures SearchFilter(a + b, query) == SearchFilter(a, query) + SearchFilter(b, query)
    decreases |b|
  {
    if b == [] {
      assert a + b == a;
    } else {
      var b' := b[..|b| - 1];
      SearchFilterAppend(a, b', query);
      DropLast(a, b);
      SearchFilterLast(a + b, query);
      SearchFilterLast(b, query);
      var p := b[|b| - 1];
      AppendAssoc(SearchFilter(a, query), SearchFilter(b', query), if Matches(p, query) then [p] else []);
    }
  }



  /** `on_search_change`'s loop over the shown files. */
  method Search(files: seq<Path>, query: string) returns (found: seq<Path>)
    ensures found == SearchFilter(files, query)
  {
    var q := Lower(Strip(query));
    found := [];
    for i := 0 to |files|
      invariant found == SearchFilter(files[..i], query)
    {
      assert files[..i + 1][..i] == files[..i];
      if Contains(Lower(Name(files[i])), q) {
        found := found + [files[i]];
      }
    }
    assert files[..|files|] == files;
  }

  /** An empty (or blank) query keeps every shown file, in order. */
  lemma {:induction false} BlankQueryKeepsAll(files: seq<Path>, query: string)
    requires Strip(query) == []
    ensures SearchFilter(files, query) == files
    decreases |files|
  {
    if files != [] {
      BlankQueryKeepsAll(files[..|files| - 1], query);
      var p := files[|files| - 1];
      assert Matches(p, query) by {
        assert Lower(Strip(query)) == [];
        ContainsWitness(Lower(Name(p)), [], 0);
      }
      assert SearchFilter(files, query) == SearchFilter(files[..|files| - 1], query) + [p];
      assert files == files[..|files| - 1] + [p];
    }
  }
}
