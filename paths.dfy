/**
  Paths of the abstract filesystem, and the parts of `pathlib.Path` the
  renamer reads: `name`, `parent`, `stem`, `suffix` and `/`.
  A path is the sequence of its parts; a file's name is its last part.
*/
module Paths {
  import opened Text

  type Path = seq<string>

  /** `Path.name`; the empty path has the empty name. */
  function Name(p: Path): string {
    if p == [] then "" else p[|p| - 1]
  }

  /** `Path.parent`; the empty path is its own parent. */
  function Parent(p: Path): Path {
    if p == [] then [] else p[..|p| - 1]
  }

  /** `dir / name`. */
  function Child(dir: Path, name: string): (p: Path)
    ensures Parent(p) == dir && Name(p) == name && |p| == |dir| + 1
  {
    dir + [name]
  }

  /** `str.rfind(c)`: the last index of `c`, or -1. */
  function LastIndex(s: string, c: char): (i: int)
    ensures -1 <= i < |s|
    ensures i >= 0 ==> s[i] == c
    ensures forall k :: i < k < |s| ==> s[k] != c
    decreases |s|
  {
    if s == [] then -1
    else if s[|s| - 1] == c then |s| - 1
    else LastIndex(s[..|s| - 1], c)
  }

  /** The shape of every non-empty suffix: a dot, at least one character, no further dot. */
  predicate IsSuffixShape(ext: string) {
    ext == [] || (|ext| >= 2 && ext[0] == '.' && forall k :: 1 <= k < |ext| ==> ext[k] != '.')
  }

  /** `PurePath.suffix`: the text from the last dot, unless that dot is the
      first or the last character of the name. */
  function Suffix(name: string): (ext: string)
    ensures IsSuffixShape(ext)
    ensures ext != [] ==> |ext| < |name| && name[|name| - |ext|..] == ext
    ensures (forall k :: 0 <= k < |name| ==> name[k] != '.') ==> ext == []
  {
    var i := LastIndex(name, '.');
    if 0 < i < |name| - 1 then name[i..] else ""
  }

  /** `PurePath.stem`: the name without its suffix. */
  function Stem(name: string): (stem: string)
    ensures stem + Suffix(name) == name
    ensures Suffix(name) != [] ==> stem != []
  {
    var i := LastIndex(name, '.');
    if 0 < i < |name| - 1 then name[..i] else name
  }

  /** A name built as a non-empty text followed by a suffix-shaped extension
      splits back into exactly those two parts. */
  lemma SplitSuffixed(a: string, ext: string)
    requires a != [] && ext != [] && IsSuffixShape(ext)
    ensures Suffix(a + ext) == ext && Stem(a + ext) == a
  {
    var name := a + ext;
    var i := LastIndex(name, '.');
    assert name[|a|] == '.';
    assert forall k :: |a| < k < |name| ==> name[k] == ext[k - |a|];
    assert i == |a|;
  }
}
