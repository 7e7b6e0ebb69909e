/**
  The rename engine over an abstract filesystem: the set of existing file
  paths. `rename`, `shutil.move` and `mkdir` either succeed or raise; which
  of them raise is given as `Faults`, standing in for the exceptions the
  real filesystem may throw. A move onto an existing file replaces it.

  `Renamer` holds what the application keeps between actions: the party
  map, the machine label, the finalize-mode switch, the keyword settings and
  the rename history. Its methods are specified by the functions before it.
*/
module Engine {
  import opened Wrappers
  import opened Text
  import opened Paths
  import opened RenameLog
  import opened Dimensions
  import opened Naming
  import opened Collision
  import opened Keywords
  import opened Listing

  /** Which filesystem calls of one action raise. */
  datatype Faults = Faults(rename: bool, mkdir: bool, move: bool)

  const NoFaults := Faults(false, false, false)

  function FaultsAt(faults: seq<Faults>, i: nat): Faults {
    if i < |faults| then faults[i] else NoFaults
  }

  function StampAt(stamps: seq<Stamp>, i: nat): Stamp {
    if i < |stamps| then stamps[i] else ""
  }

  /** A rename or move of `src` that succeeded. */
  function Moved(fs: set<Path>, src: Path, dst: Path): (r: set<Path>)
    ensures dst in r && (src != dst ==> src !in r)
    ensures forall p :: p != src && p != dst ==> (p in r <==> p in fs)
  {
    fs - {src} + {dst}
  }

  function DoneFolder(dir: Path): Path {
    Child(dir, "Done")
  }

  /** The filesystem after an action, and the path the file ended at when
      every step succeeded. */
  datatype Step = Step(fs: set<Path>, final: Option<Path>)

  /** `src.rename(t)`, then `(dir / "Done").mkdir(exist_ok=True)`, then
      `shutil.move(t, dir / "Done" / t.name)`; the first call that raises
      ends the action, so a file can stay renamed in place. */
  function FileAway(fs: set<Path>, src: Path, t: Path, dir: Path, f: Faults): (r: Step)
    ensures r.final.Some? ==> src in fs && r.final.value == Child(DoneFolder(dir), Name(t))
    ensures r.final.None? ==> r.fs == fs || (src in fs && r.fs == Moved(fs, src, t))
  {
    if f.rename || src !in fs then Step(fs, None)
    else
      var fs1 := Moved(fs, src, t);
      if f.mkdir || f.move then Step(fs1, None)
      else Step(Moved(fs1, t, Child(DoneFolder(dir), Name(t))), Some(Child(DoneFolder(dir), Name(t))))
  }

  /** When neither the in-place name nor the final path is taken, the file
      leaves `src` and ends at its final path with nothing else touched, or
      stays (renamed or not) if a step raised: no file is lost. */
  lemma FileAwayKeepsFiles(fs: set<Path>, src: Path, t: Path, dir: Path, f: Faults)
    requires src in fs && t !in fs && Child(DoneFolder(dir), Name(t)) !in fs
    ensures var r := FileAway(fs, src, t, dir, f);
      |r.fs| == |fs| &&
      (r.final.Some? ==> r.fs == fs - {src} + {r.final.value})
  {
    var r := FileAway(fs, src, t, dir, f);
    var fin := Child(DoneFolder(dir), Name(t));
    assert |fs - {src}| == |fs| - 1;
    if r.fs != fs {
      var fs1 := Moved(fs, src, t);
      assert fs1 == (fs - {src}) + {t};
      assert |fs1| == |fs|;
      if r.final.Some? {
        assert r.fs == (fs - {src}) + {fin};
      }
    }
  }

  /** A file already at the final path is replaced: one file fewer. */
  lemma FileAwayReplacesDone(fs: set<Path>, src: Path, t: Path, dir: Path, f: Faults)
    requires t !in fs
    requires Child(DoneFolder(dir), Name(t)) in fs && Child(DoneFolder(dir), Name(t)) != src
    requires FileAway(fs, src, t, dir, f).final.Some?
    ensures FileAway(fs, src, t, dir, f).fs == fs - {src}
    ensures |FileAway(fs, src, t, dir, f).fs| == |fs| - 1
  {
    var fin := Child(DoneFolder(dir), Name(t));
    var r := FileAway(fs, src, t, dir, f);
    assert r.fs == fs - {src};
  }

  // ---------------------------------------------------------------------------
  // Renaming

  /** What the renamer reads from the application's state: the party map,
      the machine label, and the first-pass naming with the keyword list of
      the moment (`Namer`). */
  datatype Config = Config(partyMap: map<string, string>, machine: string, namer: (Path, string) -> string)

  /** `party_map.get(file.parent.name)`, when it is a non-empty code. */
  function CodeFor(partyMap: map<string, string>, file: Path): (r: Option<string>)
    ensures r.Some? <==> Name(Parent(file)) in partyMap && partyMap[Name(Parent(file))] != []
    ensures r.Some? ==> r.value == partyMap[Name(Parent(file))]
  {
    var party := Name(Parent(file));
    if party in partyMap && partyMap[party] != [] then Some(partyMap[party]) else None
  }

  /** The first-pass name of `file`: dimensions from the whole name, the
      quantity from the stem. */
  function NewName(file: Path, code: string, machine: string, keywords: seq<string>): (r: string)
    ensures Suffix(Name(file)) != [] ==> Suffix(r) == Suffix(Name(file))
  {
    GenerateNewFilename(Stem(Name(file)), code, Suffix(Name(file)), ExtractDimensions(Name(file)), machine, keywords)
  }

  /** First-pass naming for a given machine label and keyword list. */
  function Namer(machine: string, keywords: seq<string>): (Path, string) -> string {
    (file, code) => NewName(file, code, machine, keywords)
  }

  /** `rename_file`'s collision loop: candidates are `<stem of the new name> (n)<ext>`. */
  function SingleTarget(fs: set<Path>, file: Path, newName: string): Path {
    Target(fs, Child(Parent(file), newName), Parent(file), Stem(newName), Suffix(Name(file)))
  }

  /** `new_name[:-len(ext)]`: empty for an empty extension (a slice up to
      `-0`) and for one longer than the name. */
  function BatchPrefix(newName: string, ext: string): (r: string)
    ensures ext != [] && EndsWith(newName, ext) ==> r + ext == newName
    ensures ext == [] ==> r == []
  {
    if ext == [] || |ext| > |newName| then [] else newName[..|newName| - |ext|]
  }

  /** `select_all_files`'s collision loop: candidates are `<new name minus ext> (n)<ext>`. */
  function BatchTarget(fs: set<Path>, file: Path, newName: string): Path {
    var ext := Suffix(Name(file));
    Target(fs, Child(Parent(file), newName), Parent(file), BatchPrefix(newName, ext), ext)
  }

  /** For a file with an extension both loops pick the same target. */
  lemma TargetsAgree(fs: set<Path>, file: Path, code: string, machine: string, keywords: seq<string>)
    requires Suffix(Name(file)) != []
    ensures var n := NewName(file, code, machine, keywords);
      SingleTarget(fs, file, n) == BatchTarget(fs, file, n)
  {
    var ext := Suffix(Name(file));
    var n := NewName(file, code, machine, keywords);
    assert Suffix(n) == ext;
    assert Stem(n) + ext == n;
    assert BatchPrefix(n, ext) == Stem(n);
  }

  /** `rename_file`: nothing without a selected, existing file, a machine
      label and a party code; otherwise the file is renamed in place and
      filed away into `Done`. */
  function RenameOne(fs: set<Path>, selected: Option<Path>, c: Config, f: Faults): (r: Step)
    ensures (selected.None? || c.machine == [] || selected.value !in fs ||
             CodeFor(c.partyMap, selected.value).None?) ==> r == Step(fs, None)
    ensures r.final.Some? ==>
      selected.Some? && selected.value in fs && Parent(r.final.value) == DoneFolder(Parent(selected.value))
  {
    if selected.None? || c.machine == [] || selected.value !in fs then Step(fs, None)
    else match CodeFor(c.partyMap, selected.value)
      case None => Step(fs, None)
      case Some(code) =>
        var file := selected.value;
        FileAway(fs, file, SingleTarget(fs, file, c.namer(file, code)), Parent(file), f)
  }

  /** `rename_file` renames only a selected, existing file, with a machine
      label and a party code. */
  lemma RenameOneGuards(fs: set<Path>, selected: Option<Path>, c: Config, f: Faults)
    requires RenameOne(fs, selected, c, f).final.Some?
    ensures selected.Some? && selected.value in fs && c.machine != []
    ensures CodeFor(c.partyMap, selected.value).Some?
  {
  }

  /** A renamed file ends in the `Done` folder beside it, under the first-pass
      name or an `(n)` variant of it, and the in-place name it passed through
      was free. */
  lemma RenameOneOutcome(fs: set<Path>, file: Path, code: string, c: Config, f: Faults)
    requires CodeFor(c.partyMap, file) == Some(code)
    requires RenameOne(fs, Some(file), c, f).final.Some?
    ensures var n := c.namer(file, code);
      var t := SingleTarget(fs, file, n);
      var fin := RenameOne(fs, Some(file), c, f).final.value;
      && t !in fs && Parent(t) == Parent(file)
      && fin == Child(DoneFolder(Parent(file)), Name(t))
      && (Name(t) == n ||
          exists k: nat :: 1 <= k && Name(t) == Stem(n) + " (" + NatToString(k) + ")" + Suffix(Name(file)))
      && RenameOne(fs, Some(file), c, f).fs == fs - {file} + {fin}
  {
    TargetName(fs, Parent(file), c.namer(file, code), Stem(c.namer(file, code)), Suffix(Name(file)));
  }

  /** The in-place name is the first-pass name when that is free, and
      otherwise its `(n)` variant for the least free n. */
  lemma RenameOneLeast(fs: set<Path>, file: Path, code: string, c: Config)
    ensures var n := c.namer(file, code);
      var t := SingleTarget(fs, file, n);
      && (Child(Parent(file), n) !in fs ==> t == Child(Parent(file), n))
      && (Child(Parent(file), n) in fs ==>
            exists k: nat :: 1 <= k && t == Candidate(Parent(file), Stem(n), Suffix(Name(file)), k) &&
              forall j :: 1 <= j < k ==> Candidate(Parent(file), Stem(n), Suffix(Name(file)), j) in fs)
  {
    var n := c.namer(file, code);
    if Child(Parent(file), n) in fs {
      TargetIsLeastFree(fs, Child(Parent(file), n), Parent(file), Stem(n), Suffix(Name(file)));
    }
  }

  /** `rename_file`'s decisions and file operations, with the collision loop
      run as a loop. */
  method RenameStep(fs: set<Path>, selected: Option<Path>, c: Config, f: Faults) returns (s: Step)
    ensures s == RenameOne(fs, selected, c, f)
  {
    if selected.None? || c.machine == [] || selected.value !in fs {
      return Step(fs, None);
    }
    var file := selected.value;
    var code := CodeFor(c.partyMap, file);
    if code.None? {
      return Step(fs, None);
    }
    var newName := c.namer(file, code.value);
    var t := FreeTarget(fs, Child(Parent(file), newName), Parent(file), Stem(newName), Suffix(Name(file)));
    s := FileAway(fs, file, t, Parent(file), f);
  }

  // ---------------------------------------------------------------------------
  // Batch

  /** The batch's running totals. */
  datatype Batch = Batch(fs: set<Path>, log: Log, renamed: nat, errors: nat)

  /** One file of `select_all_files`: skipped if it is gone or has no party
      code; otherwise an error or a rename, which is logged. */
  function BatchStep(b: Batch, file: Path, c: Config, f: Faults, stamp: Stamp): (r: Batch)
    requires b.log.Valid()
    ensures r.log.Valid()
  {
    if file !in b.fs then b
    else match CodeFor(c.partyMap, file)
      case None => b
      case Some(code) =>
        Tally(b, file, FileAway(b.fs, file, BatchTarget(b.fs, file, c.namer(file, code)), Parent(file), f), stamp)
  }

  /** The totals after an attempt: a rename is logged and counted, a failure
      only counted. */
  function Tally(b: Batch, file: Path, s: Step, stamp: Stamp): (r: Batch)
    requires b.log.Valid()
    ensures r.log.Valid() && r.fs == s.fs
    ensures s.final.Some? ==>
      r.renamed == b.renamed + 1 && r.errors == b.errors && r.log == Recorded(b.log, Entry(file, s.final.value, stamp))
    ensures s.final.None? ==> r.renamed == b.renamed && r.errors == b.errors + 1 && r.log == b.log
  {
    match s.final
    case Some(fin) => Batch(s.fs, Recorded(b.log, Entry(file, fin, stamp)), b.renamed + 1, b.errors)
    case None => Batch(s.fs, b.log, b.renamed, b.errors + 1)
  }

  /** The batch over the first `n` files. */
  function BatchRun(b: Batch, files: seq<Path>, c: Config, faults: seq<Faults>, stamps: seq<Stamp>, n: nat): (r: Batch)
    requires b.log.Valid() && n <= |files|
    ensures r.log.Valid()
  {
    if n == 0 then b
    else BatchStep(BatchRun(b, files, c, faults, stamps, n - 1), files[n - 1], c, FaultsAt(faults, n - 1), StampAt(stamps, n - 1))
  }

  /** A record made by a rename: the new path is in `Done` beside the old one. */
  predicate Filed(e: Entry) {
    Parent(e.newPath) == DoneFolder(Parent(e.oldPath))
  }

  /** One file of a batch: renamed (one filed record appended), failed or
      skipped (the log untouched). */
  lemma BatchStepRecords(p: Batch, file: Path, c: Config, f: Faults, stamp: Stamp)
    requires p.log.Valid()
    ensures var r := BatchStep(p, file, c, f, stamp);
      || r == p
      || (r.renamed == p.renamed && r.errors == p.errors + 1 && r.log == p.log)
      || (r.renamed == p.renamed + 1 && r.errors == p.errors &&
          exists e :: Filed(e) && r.log == Recorded(p.log, e))
  {
    var r := BatchStep(p, file, c, f, stamp);
    if file in p.fs && CodeFor(c.partyMap, file).Some? {
      var code := CodeFor(c.partyMap, file).value;
      var s := FileAway(p.fs, file, BatchTarget(p.fs, file, c.namer(file, code)), Parent(file), f);
      if s.final.Some? {
        var e := Entry(file, s.final.value, stamp);
        assert Filed(e);
        assert r.log == Recorded(p.log, e);
      }
    }
  }

  /** `l` is `l0` with `k` filed records appended after its cursor. */
  ghost predicate AppendedFiled(l0: Log, l: Log, k: nat)
    requires l0.Valid()
  {
    if k == 0 then l == l0
    else
      && l.Valid() && l.index == l0.index + k && l.index == |l.entries| - 1
      && l.entries[..l0.index + 1] == l0.entries[..l0.index + 1]
      && forall j :: l0.index < j <= l.index ==> Filed(l.entries[j])
  }

  lemma AppendOneFiled(l0: Log, l: Log, k: nat, e: Entry)
    requires l0.Valid() && l.Valid() && AppendedFiled(l0, l, k) && Filed(e)
    ensures AppendedFiled(l0, Recorded(l, e), k + 1)
  {
    var r := Recorded(l, e);
    if k == 0 {
      assert r.entries[..l0.index + 1] == l0.entries[..l0.index + 1];
    } else {
      assert r.entries[..l0.index + 1] == l.entries[..l0.index + 1];
    }
  }

  /** Every rename of a batch appends one filed record and nothing else is
      appended; a file counts as renamed, failed or neither, never both. */
  lemma {:induction false} BatchRecords(b: Batch, files: seq<Path>, c: Config, faults: seq<Faults>, stamps: seq<Stamp>, n: nat)
    requires b.log.Valid() && n <= |files|
    ensures var r := BatchRun(b, files, c, faults, stamps, n);
      && r.renamed >= b.renamed && r.errors >= b.errors
      && r.renamed + r.errors <= b.renamed + b.errors + n
      && AppendedFiled(b.log, r.log, r.renamed - b.renamed)
    decreases n
  {
    if n > 0 {
      BatchRecords(b, files, c, faults, stamps, n - 1);
      var p := BatchRun(b, files, c, faults, stamps, n - 1);
      BatchStepRecords(p, files[n - 1], c, FaultsAt(faults, n - 1), StampAt(stamps, n - 1));
      var r := BatchRun(b, files, c, faults, stamps, n);
      if r.renamed > p.renamed {
        var e :| Filed(e) && r.log == Recorded(p.log, e);
        AppendOneFiled(b.log, p.log, p.renamed - b.renamed, e);
      }
    }
  }

  /** A file that is gone, or whose folder has no party code, changes nothing
      and counts nowhere. */
  lemma BatchSkips(b: Batch, file: Path, c: Config, f: Faults, stamp: Stamp)
    requires b.log.Valid()
    requires file !in b.fs || CodeFor(c.partyMap, file).None?
    ensures BatchStep(b, file, c, f, stamp) == b
  {
  }

  /** A file that is attempted and fails counts one error and logs nothing;
      when the rename went through and the `Done` step raised, the file stays
      renamed in place. */
  lemma BatchStepFails(p: Batch, file: Path, c: Config, f: Faults, stamp: Stamp)
    requires p.log.Valid() && file in p.fs && CodeFor(c.partyMap, file).Some?
    requires var t := BatchTarget(p.fs, file, c.namer(file, CodeFor(c.partyMap, file).value));
      FileAway(p.fs, file, t, Parent(file), f).final.None?
    ensures var r := BatchStep(p, file, c, f, stamp);
      r.errors == p.errors + 1 && r.renamed == p.renamed && r.log == p.log
    ensures var t := BatchTarget(p.fs, file, c.namer(file, CodeFor(c.partyMap, file).value));
      !f.rename ==> BatchStep(p, file, c, f, stamp).fs == Moved(p.fs, file, t)
    ensures f.rename ==> BatchStep(p, file, c, f, stamp).fs == p.fs
  {
  }

  /** One attempted file of the batch: its collision loop, rename and move. */
  method BatchAttempt(fs: set<Path>, file: Path, c: Config, code: string, f: Faults) returns (s: Step)
    ensures s == FileAway(fs, file, BatchTarget(fs, file, c.namer(file, code)), Parent(file), f)
  {
    var newName := c.namer(file, code);
    var ext := Suffix(Name(file));
    var t := FreeTarget(fs, Child(Parent(file), newName), Parent(file), BatchPrefix(newName, ext), ext);
    s := FileAway(fs, file, t, Parent(file), f);
  }

  /** `select_all_files`'s loop over the listed files, logging into `history`. */
  method RenameBatch(history: RenameHistory, fs: set<Path>, files: seq<Path>, c: Config,
                     faults: seq<Faults>, stamps: seq<Stamp>)
    returns (fs': set<Path>, renamed: nat, errors: nat)
    requires history.Valid()
    modifies history
    ensures history.Valid()
    ensures Batch(fs', history.State(), renamed, errors) ==
      BatchRun(Batch(fs, old(history.State()), 0, 0), files, c, faults, stamps, |files|)
  {
    fs', renamed, errors := fs, 0, 0;
    ghost var b0 := Batch(fs, history.State(), 0, 0);
    for i := 0 to |files|
      invariant history.Valid()
      invariant Batch(fs', history.State(), renamed, errors) == BatchRun(b0, files, c, faults, stamps, i)
    {
      var file := files[i];
      if file !in fs' { continue; }
      var code := CodeFor(c.partyMap, file);
      if code.None? { continue; }
      ghost var before := Batch(fs', history.State(), renamed, errors);
      var s := BatchAttempt(fs', file, c, code.value, FaultsAt(faults, i));
      assert BatchStep(before, file, c, FaultsAt(faults, i), StampAt(stamps, i)) == Tally(before, file, s, StampAt(stamps, i));
      fs' := s.fs;
      if s.final.Some? {
        history.Add(file, s.final.value, StampAt(stamps, i));
        renamed := renamed + 1;
      } else {
        errors := errors + 1;
      }
      assert Batch(fs', history.State(), renamed, errors) == BatchStep(before, file, c, FaultsAt(faults, i), StampAt(stamps, i));
    }
  }

  // ---------------------------------------------------------------------------
  // Undo and redo

  /** `dst.parent.mkdir(exist_ok=True)` and `shutil.move(new, old)` for one
      record; whether the file came back. */
  function MoveBack(fs: set<Path>, e: Entry, f: Faults): (r: (set<Path>, bool))
    ensures r.1 <==> !f.mkdir && !f.move && e.newPath in fs
    ensures r.1 ==> r.0 == fs - {e.newPath} + {e.oldPath}
    ensures !r.1 ==> r.0 == fs
  {
    if f.mkdir || f.move || e.newPath !in fs then (fs, false)
    else (Moved(fs, e.newPath, e.oldPath), true)
  }

  /** Undoing a rename that went through restores the filesystem exactly,
      as long as the move back raises nothing and no file was replaced. */
  lemma UndoAfterRename(fs: set<Path>, src: Path, t: Path, dir: Path, f: Faults, stamp: Stamp)
    requires src in fs && t !in fs && Child(DoneFolder(dir), Name(t)) !in fs
    requires FileAway(fs, src, t, dir, f).final.Some?
    ensures var r := FileAway(fs, src, t, dir, f);
      MoveBack(r.fs, Entry(src, r.final.value, stamp), NoFaults) == (fs, true)
  {
    var r := FileAway(fs, src, t, dir, f);
    FileAwayKeepsFiles(fs, src, t, dir, f);
    assert src != r.final.value;
    assert r.fs - {r.final.value} + {src} == fs;
  }

  /** `undo_all_batch`'s moves over the records, newest first. */
  function UndoAllRun(fs: set<Path>, es: seq<Entry>, faults: seq<Faults>, n: nat): (r: (set<Path>, nat))
    requires n <= |es|
    ensures r.1 <= n
  {
    if n == 0 then (fs, 0)
    else
      var (fs1, restored) := UndoAllRun(fs, es, faults, n - 1);
      var (fs2, ok) := MoveBack(fs1, es[n - 1], FaultsAt(faults, n - 1));
      (fs2, if ok then restored + 1 else restored)
  }

  /** `undo_all_batch`'s loop: undo until the cursor is before the first
      record, moving each file back. */
  method UndoNewestFirst(history: RenameHistory, fs: set<Path>, faults: seq<Faults>)
    returns (fs': set<Path>, restored: nat)
    requires history.Valid()
    modifies history
    ensures history.Valid() && history.history == old(history.history) && history.index == -1
    ensures (fs', restored) ==
      UndoAllRun(fs, UndoOrder(old(history.State()), old(history.index) + 1), faults, old(history.index) + 1)
  {
    fs', restored := fs, 0;
    ghost var l0 := history.State();
    ghost var order := UndoOrder(l0, l0.index + 1);
    var i := 0;
    while history.history != []
      invariant history.Valid() && history.history == l0.entries
      invariant 0 <= i <= l0.index + 1 && history.index == l0.index - i
      invariant (fs', restored) == UndoAllRun(fs, order, faults, i)
      decreases history.index + 1
    {
      var item := history.Undo();
      if item.None? {
        break;
      }
      var back := MoveBack(fs', item.value, FaultsAt(faults, i));
      fs' := back.0;
      if back.1 {
        restored := restored + 1;
      }
      i := i + 1;
    }
  }

  /** The path `redo_rename` settles on: the recorded new path, or its first
      free `(n)` variant in the same folder. */
  function RedoTarget(fs: set<Path>, e: Entry): (t: Path)
    ensures t !in fs && Parent(t) == Parent(e.newPath)
  {
    Target(fs, e.newPath, Parent(e.newPath), Stem(Name(e.newPath)), Suffix(Name(e.newPath)))
  }

  /** `redo_rename`: the old file is renamed to the target and moved into a
      `Done` folder beside the target. */
  function RedoMove(fs: set<Path>, e: Entry, f: Faults): (r: Step)
    ensures r.final.Some? ==>
      && e.oldPath in fs
      && Parent(r.final.value) == DoneFolder(Parent(e.newPath))
      && Name(r.final.value) == Name(RedoTarget(fs, e))
    ensures r.final.None? ==> r.fs == fs || (e.oldPath in fs && r.fs == Moved(fs, e.oldPath, RedoTarget(fs, e)))
  {
    var t := RedoTarget(fs, e);
    FileAway(fs, e.oldPath, t, Parent(t), f)
  }

  /** Redoing a filed record moves the file one `Done` deeper than the rename
      did: into `<folder>/Done/Done/`. */
  lemma RedoNestsDone(fs: set<Path>, e: Entry, f: Faults)
    requires Filed(e)
    requires RedoMove(fs, e, f).final.Some?
    ensures Parent(RedoMove(fs, e, f).final.value) == DoneFolder(DoneFolder(Parent(e.oldPath)))
    ensures Name(RedoMove(fs, e, f).final.value) == Name(RedoTarget(fs, e))
  {
  }

  // ---------------------------------------------------------------------------
  // Finalize

  /** The quantity the finalize dialog accepts: digits, at least 1. */
  predicate ValidQty(qty: string) {
    qty != [] && IsDigitString(qty) && DigitsValue(qty) >= 1
  }

  /** `finalize_and_next`: nothing for an `[ok]` name, a refusal when the new
      name exists, otherwise a rename in place. */
  function FinalizeOne(fs: set<Path>, file: Path, machine: string, qty: string, cat: string, f: Faults): (r: Step)
    ensures r.final.Some? ==> file in fs && r.final.value !in fs && Parent(r.final.value) == Parent(file)
    ensures r.final.Some? ==> FinalizedName(Name(file), machine, qty, cat) == Some(Name(r.final.value))
    ensures r.final.None? ==> r.fs == fs
    ensures r.final.Some? ==> r.fs == fs - {file} + {r.final.value}
  {
    match FinalizedName(Name(file), machine, qty, cat)
    case None => Step(fs, None)
    case Some(n) =>
      var t := Child(Parent(file), n);
      if t in fs then Step(fs, None)
      else if f.rename || file !in fs then Step(fs, None)
      else Step(Moved(fs, file, t), Some(t))
  }

  /** A file finalized with its machine label in the base drops out of the
      finalize listing and would be left alone by another finalize. */
  lemma FinalizedLeavesList(fs: set<Path>, file: Path, machine: string, qty: string, cat: string, f: Faults)
    requires FinalizeOne(fs, file, machine, qty, cat, f).final.Some?
    requires Contains(FinalBase(Stem(Name(file))), machine)
    ensures var fin := FinalizeOne(fs, file, machine, qty, cat, f).final.value;
      !Shown(fin, true) && FinalizedName(Name(fin), machine, qty, cat).None?
  {
  }

  // ---------------------------------------------------------------------------

  class Renamer {
    var partyMap: map<string, string>
    var machine: string
    var showDone: bool
    const keywords: KeywordSettings
    const history: RenameHistory

    ghost predicate Valid()
      reads this, history
    {
      history.Valid()
    }

    function Cfg(): Config
      reads this, keywords, keywords.current
    {
      Config(partyMap, machine, Namer(machine, keywords.current.items))
    }

    /** A fresh application: no parties, machine `(C.S)`, new-files mode and
        an empty history. */
    constructor (keywords: KeywordSettings)
      ensures Valid() && fresh(history) && history.State() == Empty
      ensures this.keywords == keywords && partyMap == map[] && machine == "(C.S)" && !showDone
    {
      this.keywords := keywords;
      history := new RenameHistory();
      partyMap := map[];
      machine := "(C.S)";
      showDone := false;
    }

    /** `rename_file`, with the collision loop run here. */
    method RenameFile(fs: set<Path>, selected: Option<Path>, f: Faults, stamp: Stamp)
      returns (fs': set<Path>, final: Option<Path>)
      requires Valid()
      modifies history
      ensures Valid()
      ensures Step(fs', final) == RenameOne(fs, selected, old(Cfg()), f)
      ensures final.Some? ==> history.State() == Recorded(old(history.State()), Entry(selected.value, final.value, stamp))
      ensures final.None? ==> history.State() == old(history.State())
    {
      var s := RenameStep(fs, selected, Cfg(), f);
      fs', final := s.fs, s.final;
      if final.Some? {
        history.Add(selected.value, final.value, stamp);
      }
    }

    /** `select_all_files` over the listed files. */
    method RenameAll(fs: set<Path>, files: seq<Path>, confirmed: bool, faults: seq<Faults>, stamps: seq<Stamp>)
      returns (fs': set<Path>, renamed: nat, errors: nat)
      requires Valid()
      modifies history
      ensures Valid()
      ensures files == [] || showDone || machine == [] || !confirmed ==>
        fs' == fs && renamed == 0 && errors == 0 && history.State() == old(history.State())
      ensures !(files == [] || showDone || machine == [] || !confirmed) ==>
        Batch(fs', history.State(), renamed, errors) ==
        BatchRun(Batch(fs, old(history.State()), 0, 0), files, old(Cfg()), faults, stamps, |files|)
    {
      fs', renamed, errors := fs, 0, 0;
      if files == [] || showDone || machine == [] || !confirmed {
        return;
      }
      fs', renamed, errors := RenameBatch(history, fs, files, Cfg(), faults, stamps);
    }

    /** `undo_rename`: the cursor moves back even when the move fails. */
    method UndoRename(fs: set<Path>, f: Faults) returns (fs': set<Path>, restored: bool)
      requires Valid()
      modifies history
      ensures Valid()
      ensures history.State() == Undone(old(history.State())).0
      ensures match Undone(old(history.State())).1
        case None => fs' == fs && !restored
        case Some(e) => (fs', restored) == MoveBack(fs, e, f)
    {
      var item := history.Undo();
      if item.None? {
        return fs, false;
      }
      var back := MoveBack(fs, item.value, f);
      fs', restored := back.0, back.1;
    }

    /** `undo_all_batch`: undo until nothing is left to undo, newest record
        first, then clear the history, redo records included. */
    method UndoAll(fs: set<Path>, confirmed: bool, faults: seq<Faults>) returns (fs': set<Path>, restored: nat)
      requires Valid()
      modifies history
      ensures Valid()
      ensures old(history.history) == [] || !confirmed ==>
        fs' == fs && restored == 0 && history.State() == old(history.State())
      ensures old(history.history) != [] && confirmed ==>
        history.State() == Empty &&
        (fs', restored) == UndoAllRun(fs, UndoOrder(old(history.State()), old(history.index) + 1), faults, old(history.index) + 1)
    {
      fs', restored := fs, 0;
      if history.history == [] || !confirmed {
        return;
      }
      fs', restored := UndoNewestFirst(history, fs, faults);
      history.Clear();
    }

    /** `redo_rename`: the record is redone without being logged again. */
    method RedoRename(fs: set<Path>, f: Faults) returns (fs': set<Path>, final: Option<Path>)
      requires Valid()
      modifies history
      ensures Valid()
      ensures history.State() == Redone(old(history.State())).0
      ensures match Redone(old(history.State())).1
        case None => fs' == fs && final.None?
        case Some(e) => Step(fs', final) == RedoMove(fs, e, f)
    {
      var item := history.Redo();
      if item.None? {
        return fs, None;
      }
      var e := item.value;
      var t := FreeTarget(fs, e.newPath, Parent(e.newPath), Stem(Name(e.newPath)), Suffix(Name(e.newPath)));
      var s := FileAway(fs, e.oldPath, t, Parent(t), f);
      fs', final := s.fs, s.final;
    }

    /** `finalize_and_next` for the selected file, with the dialog's quantity
        and category. */
    method Finalize(fs: set<Path>, file: Path, qty: string, cat: string, f: Faults, stamp: Stamp)
      returns (fs': set<Path>, final: Option<Path>)
      requires Valid() && ValidQty(qty)
      modifies history
      ensures Valid()
      ensures Step(fs', final) == FinalizeOne(fs, file, machine, qty, cat, f)
      ensures final.Some? ==> history.State() == Recorded(old(history.State()), Entry(file, final.value, stamp))
      ensures final.None? ==> history.State() == old(history.State())
    {
      var name := FinalizedName(Name(file), machine, qty, cat);
      if name.None? {
        return fs, None;
      }
      var t := Child(Parent(file), name.value);
      if t in fs {
        return fs, None;
      }
      if f.rename || file !in fs {
        return fs, None;
      }
      fs', final := Moved(fs, file, t), Some(t);
      history.Add(file, t, stamp);
    }
  }
}
