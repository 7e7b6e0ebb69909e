/**
  The collision loops of `rename_file`, `select_all_files` and
  `redo_rename`: starting from a wanted path, while the path exists the
  next candidate `dir / "<prefix> (<n>)<ext>"` is tried, for n = 1, 2, ...
  The three loops differ only in the wanted path, the prefix and the
  extension they use, so they share this model.
*/
module Collision {
  import opened Text
  import opened Paths

  /** The n-th alternative to a taken name. */
  function Candidate(dir: Path, prefix: string, ext: string, n: nat): (p: Path)
    ensures Parent(p) == dir && Name(p) == prefix + " (" + NatToString(n) + ")" + ext
  {
    Child(dir, prefix + " (" + NatToString(n) + ")" + ext)
  }

  /** Different counters give different candidates. */
  lemma CandidateInjective(dir: Path, prefix: string, ext: string, a: nat, b: nat)
    requires Candidate(dir, prefix, ext, a) == Candidate(dir, prefix, ext, b)
    ensures a == b
  {
    var x := prefix + " (";
    var na := x + NatToString(a) + (")" + ext);
    var nb := x + NatToString(b) + (")" + ext);
    assert na == Name(Candidate(dir, prefix, ext, a));
    assert nb == Name(Candidate(dir, prefix, ext, b));
    assert |NatToString(a)| == |NatToString(b)|;
    assert NatToString(a) == na[|x|..|x| + |NatToString(a)|];
    assert NatToString(b) == nb[|x|..|x| + |NatToString(b)|];
    NatToStringInjective(a, b);
  }

  /** The candidates tried before the counter reached `n`. */
  ghost function Taken(dir: Path, prefix: string, ext: string, n: nat): set<Path> {
    set k: nat | 1 <= k < n :: Candidate(dir, prefix, ext, k)
  }

  /** Trying one more taken candidate leaves fewer existing paths untried. */
  lemma TakenGrows(paths: set<Path>, dir: Path, prefix: string, ext: string, n: nat)
    requires 1 <= n
    requires Candidate(dir, prefix, ext, n) in paths
    ensures |paths - Taken(dir, prefix, ext, n + 1)| < |paths - Taken(dir, prefix, ext, n)|
  {
    var c := Candidate(dir, prefix, ext, n);
    assert c !in Taken(dir, prefix, ext, n) by {
      forall k: nat | 1 <= k < n ensures Candidate(dir, prefix, ext, k) != c {
        if Candidate(dir, prefix, ext, k) == c {
          CandidateInjective(dir, prefix, ext, k, n);
        }
      }
    }
    forall x | x in Taken(dir, prefix, ext, n + 1) ensures x in Taken(dir, prefix, ext, n) + {c} {
      var k: nat :| 1 <= k < n + 1 && x == Candidate(dir, prefix, ext, k);
      if k < n {
        assert x in Taken(dir, prefix, ext, n);
      }
    }
    assert c in Taken(dir, prefix, ext, n + 1);
    assert Taken(dir, prefix, ext, n + 1) == Taken(dir, prefix, ext, n) + {c};
    var before := paths - Taken(dir, prefix, ext, n);
    assert paths - Taken(dir, prefix, ext, n + 1) == before - {c};
    assert before == (before - {c}) + {c};
  }

  /** The least counter from `n` on whose candidate does not exist. */
  function FreeIndex(paths: set<Path>, dir: Path, prefix: string, ext: string, n: nat): (k: nat)
    requires 1 <= n
    ensures n <= k && Candidate(dir, prefix, ext, k) !in paths
    decreases |paths - Taken(dir, prefix, ext, n)|
  {
    if Candidate(dir, prefix, ext, n) !in paths then n
    else
      TakenGrows(paths, dir, prefix, ext, n);
      FreeIndex(paths, dir, prefix, ext, n + 1)
  }

  /** Every counter the search passed over names an existing candidate, so
      the counter found is the least free one. */
  lemma {:induction false} FreeIndexLeast(paths: set<Path>, dir: Path, prefix: string, ext: string, n: nat)
    requires 1 <= n
    ensures forall j :: n <= j < FreeIndex(paths, dir, prefix, ext, n) ==> Candidate(dir, prefix, ext, j) in paths
    decreases |paths - Taken(dir, prefix, ext, n)|
  {
    if Candidate(dir, prefix, ext, n) in paths {
      TakenGrows(paths, dir, prefix, ext, n);
      FreeIndexLeast(paths, dir, prefix, ext, n + 1);
    }
  }

  /** The path the loop settles on: the wanted path when it is free, else the
      candidate with the smallest free counter from 1 on. */
  function Target(paths: set<Path>, wanted: Path, dir: Path, prefix: string, ext: string): (t: Path)
    ensures t !in paths
    ensures wanted !in paths ==> t == wanted
  {
    if wanted !in paths then wanted
    else Candidate(dir, prefix, ext, FreeIndex(paths, dir, prefix, ext, 1))
  }

  /** When the wanted path is taken, the target is the candidate with the
      least counter whose candidate does not exist. */
  lemma TargetIsLeastFree(paths: set<Path>, wanted: Path, dir: Path, prefix: string, ext: string)
    requires wanted in paths
    ensures exists n: nat ::
      && 1 <= n && Target(paths, wanted, dir, prefix, ext) == Candidate(dir, prefix, ext, n)
      && forall j :: 1 <= j < n ==> Candidate(dir, prefix, ext, j) in paths
  {
    var n := FreeIndex(paths, dir, prefix, ext, 1);
    FreeIndexLeast(paths, dir, prefix, ext, 1);
    assert Target(paths, wanted, dir, prefix, ext) == Candidate(dir, prefix, ext, n);
  }

  /** The name the target carries: the wanted name, or its `(n)` variant. */
  lemma TargetName(paths: set<Path>, dir: Path, name: string, prefix: string, ext: string)
    ensures var t := Target(paths, Child(dir, name), dir, prefix, ext);
      Parent(t) == dir &&
      (Name(t) == name || exists n: nat :: 1 <= n && Name(t) == prefix + " (" + NatToString(n) + ")" + ext)
  {
    if Child(dir, name) in paths {
      var n := FreeIndex(paths, dir, prefix, ext, 1);
      assert Name(Candidate(dir, prefix, ext, n)) == prefix + " (" + NatToString(n) + ")" + ext;
    }
  }

  /** The loop itself, with its counter starting at 1. */
  method FreeTarget(paths: set<Path>, wanted: Path, dir: Path, prefix: string, ext: string)
    returns (t: Path)
    ensures t == Target(paths, wanted, dir, prefix, ext)
  {
    t := wanted;
    var counter: nat := 1;
    while t in paths
      invariant counter >= 1
      invariant counter == 1 ==> t == wanted
      invariant counter > 1 ==> wanted in paths && t == Candidate(dir, prefix, ext, counter - 1)
      invariant forall j :: 1 <= j < counter - 1 ==> Candidate(dir, prefix, ext, j) in paths
      decreases if counter == 1 then 1 else 0, |paths - Taken(dir, prefix, ext, counter - 1)|
    {
      if counter > 1 {
        TakenGrows(paths, dir, prefix, ext, counter - 1);
      }
      t := Candidate(dir, prefix, ext, counter);
      counter := counter + 1;
    }
    if counter > 1 {
      var k := FreeIndex(paths, dir, prefix, ext, 1);
      FreeIndexLeast(paths, dir, prefix, ext, 1);
      assert k == counter - 1;
    }
  }
}
