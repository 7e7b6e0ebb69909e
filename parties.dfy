/**
  The party map: party folder name to party code, filled from the rows of
  `parties.csv`. Reading the file is outside the model; each row arrives
  with its two cells.
*/
module Parties {
  import opened Text

  /** A cell as `row.get(column, "")` sees it: the column is not in the
      header (the default `""`), the row is too short for it (`None`, on
      which `.strip()` raises), or it holds a text. */
  datatype Cell = NoColumn | Short | Value(text: string)

  datatype Row = Row(name: Cell, code: Cell)

  /** The cell's trimmed text. */
  function CellText(c: Cell): string
    requires !c.Short?
  {
    if c.NoColumn? then "" else Strip(c.text)
  }

  /** A row the loop stores. */
  predicate Stored(r: Row) {
    !r.name.Short? && !r.code.Short? && CellText(r.name) != [] && CellText(r.code) != []
  }

  /** The map the loop has built after `rows`, and whether it got through
      them all (it stops at the first short row). */
  function PartyMap(rows: seq<Row>): (r: (map<string, string>, bool))
    ensures forall n :: n in r.0 ==> n != [] && r.0[n] != []
  {
    if rows == [] then (map[], true)
    else
      var (m, ok) := PartyMap(rows[..|rows| - 1]);
      var row := rows[|rows| - 1];
      if !ok then (m, false)
      else if row.name.Short? || row.code.Short? then (m, false)
      else if CellText(row.name) != [] && CellText(row.code) != [] then
        (m[CellText(row.name) := CellText(row.code)], true)
      else (m, true)
  }

  /** `load_parties_csv`'s loop; `complete` is false when it was cut short. */
  method BuildPartyMap(rows: seq<Row>) returns (parties: map<string, string>, complete: bool)
    ensures (parties, complete) == PartyMap(rows)
  {
    parties := map[];
    complete := true;
    var i := 0;
    while i < |rows|
      invariant 0 <= i <= |rows|
      invariant complete && (parties, complete) == PartyMap(rows[..i])
    {
      assert rows[..i + 1][..i] == rows[..i];
      var row := rows[i];
      if row.name.Short? || row.code.Short? {
        complete := false;
        assert (parties, complete) == PartyMap(rows[..i + 1]);
        PartyMapStops(rows, i + 1);
        return;
      }
      var name := CellText(row.name);
      var code := CellText(row.code);
      if name != [] && code != [] {
        parties := parties[name := code];
      }
      i := i + 1;
    }
    assert rows[..i] == rows;
  }

  /** Once cut short, later rows change nothing. */
  lemma {:induction false} PartyMapStops(rows: seq<Row>, i: nat)
    requires 0 < i <= |rows| && !PartyMap(rows[..i]).1
    ensures PartyMap(rows) == PartyMap(rows[..i])
    decreases |rows| - i
  {
    if i < |rows| {
      assert rows[..|rows| - 1][..i] == rows[..i];
      PartyMapStops(rows[..|rows| - 1], i);
    } else {
      assert rows[..i] == rows;
    }
  }

  /** Row `i` is the last stored row naming `n`. */
  predicate LastFor(rows: seq<Row>, n: string, i: nat) {
    i < |rows| && Stored(rows[i]) && CellText(rows[i].name) == n &&
    forall j :: i < j < |rows| && Stored(rows[j]) ==> CellText(rows[j].name) != n
  }

  /** A party is in the map exactly when some stored row names it. */
  lemma {:induction false} PartyMembership(rows: seq<Row>, n: string)
    requires PartyMap(rows).1
    ensures n in PartyMap(rows).0 <==> exists i :: 0 <= i < |rows| && Stored(rows[i]) && CellText(rows[i].name) == n
    decreases |rows|
  {
    if rows != [] {
      var init := rows[..|rows| - 1];
      assert PartyMap(init).1;
      PartyMembership(init, n);
      assert forall i :: 0 <= i < |init| ==> init[i] == rows[i];
    }
  }

  /** A party's code is the trimmed code of the last stored row naming it:
      later rows overwrite earlier ones. */
  lemma {:induction false} PartyLastWins(rows: seq<Row>, n: string, i: nat)
    requires PartyMap(rows).1 && LastFor(rows, n, i)
    ensures n in PartyMap(rows).0 && PartyMap(rows).0[n] == CellText(rows[i].code)
    decreases |rows|
  {
    var init := rows[..|rows| - 1];
    var last := rows[|rows| - 1];
    assert PartyMap(init).1;
    if i < |rows| - 1 {
      assert !(Stored(last) && CellText(last.name) == n);
      assert LastFor(init, n, i) by {
        assert forall j :: i < j < |init| ==> init[j] == rows[j];
      }
      PartyLastWins(init, n, i);
    }
  }
}
