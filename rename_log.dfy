/**
  The rename transaction log (`RenameHistory`): a linear undo/redo stack of
  (old path, new path) records with a cursor at the last record that has not
  been undone. `Log` is its value and the functions on `Log` specify the
  class's methods; the lemmas state what undo, redo and record promise together.
*/
module RenameLog {
  import opened Wrappers
  import opened Paths

  /** The formatted `datetime.now()` of a record; the clock is outside the model. */
  type Stamp = string

  datatype Entry = Entry(oldPath: Path, newPath: Path, stamp: Stamp)

  datatype Log = Log(entries: seq<Entry>, index: int) {

    /** The cursor is -1 (nothing to undo) or points at a record. */
    predicate Valid() {
      -1 <= index < |entries|
    }
  }

  const Empty: Log := Log([], -1)

  /** `add`: the records after the cursor are dropped, `e` is appended and the
      cursor points at it. */
  function Recorded(l: Log, e: Entry): (r: Log)
    requires l.Valid()
    ensures r.Valid()
    ensures |r.entries| == l.index + 2 && r.index == |r.entries| - 1
    ensures r.entries[r.index] == e
    ensures forall k :: 0 <= k <= l.index ==> r.entries[k] == l.entries[k]
  {
    Log(l.entries[..l.index + 1] + [e], l.index + 1)
  }

  /** `undo`: nothing when the cursor is before the first record; otherwise the
      record at the cursor, and the cursor moves back one. */
  function Undone(l: Log): (r: (Log, Option<Entry>))
    requires l.Valid()
    ensures r.0.Valid() && r.0.entries == l.entries
    ensures r.1 == None <==> l.index < 0
    ensures r.1 == None ==> r.0 == l
    ensures r.1 != None ==> r.1 == Some(l.entries[l.index]) && r.0.index == l.index - 1
  {
    if l.index < 0 then (l, None)
    else (Log(l.entries, l.index - 1), Some(l.entries[l.index]))
  }

  /** `redo`: nothing when the cursor is at the last record; otherwise the
      cursor moves forward one and the record there is returned. */
  function Redone(l: Log): (r: (Log, Option<Entry>))
    requires l.Valid()
    ensures r.0.Valid() && r.0.entries == l.entries
    ensures r.1 == None <==> l.index >= |l.entries| - 1
    ensures r.1 == None ==> r.0 == l
    ensures r.1 != None ==> r.0.index == l.index + 1 && r.1 == Some(l.entries[l.index + 1])
  {
    if l.index >= |l.entries| - 1 then (l, None)
    else (Log(l.entries, l.index + 1), Some(l.entries[l.index + 1]))
  }

  /** Nothing can be redone right after a record. */
  lemma RedoAfterRecord(l: Log, e: Entry)
    requires l.Valid()
    ensures Redone(Recorded(l, e)) == (Recorded(l, e), None)
  {
  }

  /** Undo right after a record hands back that record. */
  lemma UndoAfterRecord(l: Log, e: Entry)
    requires l.Valid()
    ensures Undone(Recorded(l, e)).1 == Some(e)
  {
  }

  /** Undo then redo returns the same record twice and restores the log. */
  lemma UndoRedo(l: Log)
    requires l.Valid() && l.index >= 0
    ensures Undone(l).1 != None
    ensures Redone(Undone(l).0) == (l, Undone(l).1)
  {
  }

  /** Redo then undo returns the same record twice and restores the log. */
  lemma RedoUndo(l: Log)
    requires l.Valid() && l.index < |l.entries| - 1
    ensures Redone(l).1 != None
    ensures Undone(Redone(l).0) == (l, Redone(l).1)
  {
  }

  /** Recording after an undo discards every record beyond the cursor: the
      undone record can no longer be redone. */
  lemma RecordAfterUndoDiscardsRedo(l: Log, e: Entry)
    requires l.Valid() && l.index >= 0
    ensures Recorded(Undone(l).0, e).entries == l.entries[..l.index] + [e]
    ensures Redone(Recorded(Undone(l).0, e)).1 == None
  {
  }

  /** The records `n` successive undos hand back, newest first:
      `entries[index], entries[index - 1], ...`. */
  function UndoOrder(l: Log, n: nat): (r: seq<Entry>)
    requires l.Valid() && n <= l.index + 1
    ensures |r| == n
    ensures forall k :: 0 <= k < n ==> r[k] == l.entries[l.index - k]
  {
    seq(n, k requires 0 <= k < n => l.entries[l.index - k])
  }

  /** Applying undo `n` times. */
  function UndoTimes(l: Log, n: nat): (r: (Log, seq<Option<Entry>>))
    requires l.Valid()
    ensures r.0.Valid() && |r.1| == n
    decreases n
  {
    if n == 0 then (l, [])
    else
      var (l1, items) := UndoTimes(l, n - 1);
      var (l2, item) := Undone(l1);
      (l2, items + [item])
  }

  /** Undoing repeatedly walks the records from the cursor down to the first
      and then returns nothing; the records themselves never change. */
  lemma {:induction false} UndoWalk(l: Log, n: nat)
    requires l.Valid()
    ensures UndoTimes(l, n).0.entries == l.entries
    ensures UndoTimes(l, n).0.index == if n <= l.index + 1 then l.index - n else -1
    ensures forall k :: 0 <= k < n ==>
      UndoTimes(l, n).1[k] == if k <= l.index then Some(l.entries[l.index - k]) else None
    decreases n
  {
    if n > 0 {
      UndoWalk(l, n - 1);
    }
  }

  /** The log object of the source: a list of records and a cursor. */
  class RenameHistory {
    var history: seq<Entry>
    var index: int

    function State(): Log
      reads this
    {
      Log(history, index)
    }

    ghost predicate Valid()
      reads this
    {
      State().Valid()
    }

    constructor ()
      ensures Valid() && State() == Empty
    {
      history := [];
      index := -1;
    }

    method Add(oldPath: Path, newPath: Path, stamp: Stamp)
      requires Valid()
      modifies this
      ensures Valid() && State() == Recorded(old(State()), Entry(oldPath, newPath, stamp))
    {
      history := history[..index + 1];
      history := history + [Entry(oldPath, newPath, stamp)];
      index := index + 1;
    }

    method Undo() returns (item: Option<Entry>)
      requires Valid()
      modifies this
      ensures Valid() && (State(), item) == Undone(old(State()))
    {
      if index < 0 {
        return None;
      }
      item := Some(history[index]);
      index := index - 1;
    }

    method Redo() returns (item: Option<Entry>)
      requires Valid()
      modifies this
      ensures Valid() && (State(), item) == Redone(old(State()))
    {
      if index >= |history| - 1 {
        return None;
      }
      index := index + 1;
      item := Some(history[index]);
    }

    method Clear()
      modifies this
      ensures Valid() && State() == Empty
    {
      history := [];
      index := -1;
    }
  }
}
