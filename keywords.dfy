/**
  The quantity keyword list and its editor: add (trimmed, lower-cased, no
  empty or repeated entry), remove (first occurrence), reset to the
  defaults, and loading with a fallback to the defaults.

  A Python list is an object that every name bound to it shares, so the
  list is a class here, and which object the settings hold is part of the
  model.
*/
module Keywords {
  import opened Wrappers
  import opened Text

  const DefaultKeywords: seq<string> := ["copy", "copies", "pcs", "pieces", "x"]

  /** No entry occurs twice. */
  predicate NoRepeats(s: seq<string>) {
    forall i, j :: 0 <= i < j < |s| ==> s[i] != s[j]
  }

  /** What the editor makes of a typed entry. */
  function Normalized(entry: string): (r: string)
    ensures |r| <= |entry|
    ensures r == [] || (!IsSpace(r[0]) && !IsSpace(r[|r| - 1]))
    ensures forall k :: 0 <= k < |r| ==> !('A' <= r[k] <= 'Z')
  {
    Lower(Strip(entry))
  }

  /** The first index of `x` in `s`. */
  function IndexOf(s: seq<string>, x: string): (i: nat)
    requires x in s
    ensures i < |s| && s[i] == x && x !in s[..i]
  {
    if s[0] == x then 0 else 1 + IndexOf(s[1..], x)
  }

  /** `list.remove(x)` on a list holding `x`: its first occurrence goes,
      everything else keeps its order. */
  function RemoveFirst(s: seq<string>, x: string): (r: seq<string>)
    requires x in s
    ensures |r| == |s| - 1
    ensures multiset(r) == multiset(s) - multiset{x}
    ensures exists i :: 0 <= i < |s| && s[i] == x && x !in s[..i] && r == s[..i] + s[i + 1..]
  {
    var i := IndexOf(s, x);
    assert s == s[..i] + [x] + s[i + 1..];
    s[..i] + s[i + 1..]
  }

  lemma RemoveKeepsNoRepeats(s: seq<string>, x: string)
    requires x in s && NoRepeats(s)
    ensures NoRepeats(RemoveFirst(s, x)) && x !in RemoveFirst(s, x)
  {
    var i := IndexOf(s, x);
    DropKeepsNoRepeats(s, i);
  }

  /** Dropping one entry of a list without repeats leaves a list without
      repeats that no longer holds that entry. */
  lemma DropKeepsNoRepeats(s: seq<string>, i: nat)
    requires i < |s| && NoRepeats(s)
    ensures NoRepeats(s[..i] + s[i + 1..]) && s[i] !in s[..i] + s[i + 1..]
  {
    var r := s[..i] + s[i + 1..];
    forall a, b | 0 <= a < b < |r| ensures r[a] != r[b] {
      var a' := if a < i then a else a + 1;
      var b' := if b < i then b else b + 1;
      assert r[a] == s[a'] && r[b] == s[b'];
    }
    forall k | 0 <= k < |r| ensures r[k] != s[i] {
      var k' := if k < i then k else k + 1;
      assert r[k] == s[k'] && k' != i;
    }
  }


  /** A list object. */
  class KeywordList {
    var items: seq<string>

    constructor (initial: seq<string>)
      ensures items == initial
    {
      items := initial;
    }

    /** `add_keyword`: the normalized entry is appended unless it is empty or
        already listed. */
    method Add(entry: string) returns (added: bool)
      modifies this
      ensures added <==> Normalized(entry) != [] && Normalized(entry) !in old(items)
      ensures items == if added then old(items) + [Normalized(entry)] else old(items)
      ensures NoRepeats(old(items)) ==> NoRepeats(items)
    {
      var kw := Normalized(entry);
      added := kw != [] && kw !in items;
      if added {
        items := items + [kw];
      }
    }

    /** `remove_keyword`: `list.remove`, which raises (nothing removed) when
        the keyword is not listed. */
    method Remove(kw: string) returns (removed: bool)
      modifies this
      ensures removed <==> kw in old(items)
      ensures removed ==> items == RemoveFirst(old(items), kw)
      ensures !removed ==> items == old(items)
      ensures NoRepeats(old(items)) ==> NoRepeats(items) && kw !in items
    {
      removed := kw in items;
      if removed {
        if NoRepeats(items) {
          RemoveKeepsNoRepeats(items, kw);
        }
        items := RemoveFirst(items, kw);
      }
    }
  }

  /** The list the detector uses, and the module-level default list object. */
  class KeywordSettings {
    var current: KeywordList
    const defaults: KeywordList

    /** `current` is a list of its own and the defaults are still the defaults. */
    ghost predicate Valid()
      reads this, defaults
    {
      current != defaults && defaults.items == DefaultKeywords
    }

    /** The list before anything is loaded: empty, beside the default list. */
    constructor (defaults: KeywordList)
      requires defaults.items == DefaultKeywords
      ensures this.defaults == defaults && fresh(current) && current.items == []
      ensures Valid()
    {
      this.defaults := defaults;
      current := new KeywordList([]);
    }

    /** `load_keywords` as written: a stored list when there is one, otherwise
        the default list object itself, not a copy. */
    method LoadAsWritten(stored: Option<seq<string>>)
      modifies this
      ensures stored.Some? ==> fresh(current) && current.items == stored.value
      ensures stored.None? ==> current == defaults
    {
      if stored.Some? {
        current := new KeywordList(stored.value);
      } else {
        current := defaults;
      }
    }

    /** `load_keywords` with the fallback copied, as `reset_default` does. */
    method Load(stored: Option<seq<string>>)
      requires Valid()
      modifies this
      ensures Valid() && fresh(current)
      ensures current.items == if stored.Some? then stored.value else DefaultKeywords
    {
      if stored.Some? {
        current := new KeywordList(stored.value);
      } else {
        current := new KeywordList(defaults.items);
      }
    }

    /** `reset_default`: a copy of the default list object. */
    method Reset()
      modifies this
      ensures fresh(current) && current.items == defaults.items
    {
      current := new KeywordList(defaults.items);
    }

    /** `add_keyword`, also on the default list object itself when that is
        what `load_keywords` left active. */
    method AddKeyword(entry: string) returns (added: bool)
      modifies current
      ensures old(Valid()) ==> Valid()
      ensures added <==> Normalized(entry) != [] && Normalized(entry) !in old(current.items)
      ensures current.items == if added then old(current.items) + [Normalized(entry)] else old(current.items)
    {
      added := current.Add(entry);
    }

    /** `remove_keyword`, on whichever list object is active. */
    method RemoveKeyword(kw: string) returns (removed: bool)
      modifies current
      ensures old(Valid()) ==> Valid()
      ensures removed <==> kw in old(current.items)
      ensures removed ==> current.items == RemoveFirst(old(current.items), kw)
      ensures !removed ==> current.items == old(current.items)
    {
      removed := current.Remove(kw);
    }
  }

  /** With the list loaded as written, adding a keyword and then resetting
      keeps the added keyword: the addition went into the default list itself. */
  method ResetAfterAddAsWritten() returns (afterReset: seq<string>)
    ensures afterReset == DefaultKeywords + ["layout"]
  {
    var defaults := new KeywordList(DefaultKeywords);
    var settings := new KeywordSettings(defaults);
    settings.LoadAsWritten(None);
    var added := settings.AddKeyword("layout");
    assert Normalized("layout") == "layout" by {
      assert Strip("layout") == "layout";
    }
    settings.Reset();
    afterReset := settings.current.items;
  }

  /** With the fallback copied, a reset after any edits gives the defaults. */
  method ResetAfterEdits(stored: Option<seq<string>>, added: seq<string>, removed: seq<string>)
    returns (afterReset: seq<string>)
    ensures afterReset == DefaultKeywords
  {
    var defaults := new KeywordList(DefaultKeywords);
    var settings := new KeywordSettings(defaults);
    settings.Load(stored);
    for i := 0 to |added|
      invariant settings.Valid() && settings.defaults == defaults && fresh(settings.current)
    {
      var _ := settings.AddKeyword(added[i]);
    }
    for i := 0 to |removed|
      invariant settings.Valid() && settings.defaults == defaults && fresh(settings.current)
    {
      var _ := settings.RemoveKeyword(removed[i]);
    }
    settings.Reset();
    afterReset := settings.current.items;
  }
}
