/** What the rows of a document say about it, to any reader: everything, exactly
    when no container that holds anything is hidden
    (frontend/src/components/jsonTreeLines.ts). */
module RowMeaning {
  import opened Common
  import opened JsonTree

  /** The same names, in the same order. */
  ghost predicate SameKeys(a: seq<Entry>, b: seq<Entry>) {
    |a| == |b| && forall i :: 0 <= i < |a| ==> a[i].key == b[i].key
  }

  function OtherLeaf(node: Json): (other: Json)
    ensures other != node && other.Leaf?
  {
    if node == Leaf(Null) then Leaf(Str("")) else Leaf(Null)
  }

  lemma RekeyedIsWellFormed(isArray: bool, entries: seq<Entry>, others: seq<Entry>)
    requires WellFormed(Container(isArray, entries)) && SameKeys(entries, others) && AllWellFormed(others)
    ensures WellFormed(Container(isArray, others))
  {
  }

  lemma ConsKeys(e: Entry, entries: seq<Entry>, e': Entry, others: seq<Entry>)
    requires e.key == e'.key && SameKeys(entries, others)
    ensures SameKeys([e] + entries, [e'] + others)
  {
  }

  lemma ConsWellFormed(e: Entry, entries: seq<Entry>)
    requires EntryWellFormed(e) && AllWellFormed(entries)
    ensures AllWellFormed([e] + entries)
  {
    assert ([e] + entries)[1..] == entries;
  }

  lemma ConsRows(e: Entry, entries: seq<Entry>, isArray: bool, depth: nat, path: string, overrides: Overrides)
    ensures EntryRows([e] + entries, isArray, depth, path, overrides)
            == RowsOf(e, isArray, depth, path, overrides) + EntryRows(entries, isArray, depth, path, overrides)
  {
    assert ([e] + entries)[1..] == entries;
  }

  /** Where something is hidden, another document has the same rows. */
  lemma {:induction false} AnotherLooksTheSame(name: Option<string>, node: Json, depth: nat, path: string,
                                               overrides: Overrides) returns (other: Json)
    requires WellFormed(node) && !AllShown(node, depth, path, overrides)
    ensures WellFormed(other) && other != node
    ensures Rows(name, other, depth, path, overrides) == Rows(name, node, depth, path, overrides)
    decreases node
  {
    var entries := node.entries;
    if depth < MAX_RENDER_DEPTH && IsNodeExpanded(overrides, path) {
      var others := OthersLookTheSame(entries, node.isArray, depth + 1, path, overrides);
      RekeyedIsWellFormed(node.isArray, entries, others);
      other := Container(node.isArray, others);
    } else {
      var e := Entry(entries[0].key, OtherLeaf(entries[0].value));
      ConsWellFormed(e, entries[1..]);
      ConsKeys(entries[0], entries[1..], e, entries[1..]);
      assert entries == [entries[0]] + entries[1..];
      RekeyedIsWellFormed(node.isArray, entries, [e] + entries[1..]);
      other := Container(node.isArray, [e] + entries[1..]);
      assert other.entries[0] != entries[0];
    }
  }

  lemma {:induction false} OthersLookTheSame(entries: seq<Entry>, isArray: bool, depth: nat, path: string,
                                             overrides: Overrides) returns (others: seq<Entry>)
    requires AllWellFormed(entries) && !EntriesShown(entries, isArray, depth, path, overrides)
    ensures AllWellFormed(others) && SameKeys(entries, others) && others != entries
    ensures EntryRows(others, isArray, depth, path, overrides) == EntryRows(entries, isArray, depth, path, overrides)
    decreases entries
  {
    var e, rest := entries[0], entries[1..];
    var e', rest' := e, rest;
    if EntryShown(e, isArray, depth, path, overrides) {
      rest' := OthersLookTheSame(rest, isArray, depth, path, overrides);
    } else {
      e' := OtherLooksTheSame(e, isArray, depth, path, overrides);
    }
    others := [e'] + rest';
    assert entries == [e] + rest;
    ConsKeys(e, rest, e', rest');
    ConsWellFormed(e', rest');
    ConsRows(e, rest, isArray, depth, path, overrides);
    ConsRows(e', rest', isArray, depth, path, overrides);
    assert others[0] == e' && others[1..] == rest';
  }

  lemma {:induction false} OtherLooksTheSame(e: Entry, isArray: bool, depth: nat, path: string, overrides: Overrides)
    returns (e': Entry)
    requires EntryWellFormed(e) && !EntryShown(e, isArray, depth, path, overrides)
    ensures EntryWellFormed(e') && e'.key == e.key && e' != e
    ensures RowsOf(e', isArray, depth, path, overrides) == RowsOf(e, isArray, depth, path, overrides)
    decreases e
  {
    var other := AnotherLooksTheSame(Some(e.key), e.value, depth, ChildPath(path, isArray, e.key), overrides);
    e' := Entry(e.key, other);
  }

  /** No other document has the same rows. */
  ghost predicate OnlyReading(value: Json, overrides: Overrides) {
    forall other :: WellFormed(other) && Rows(None, other, 0, "", overrides) == Rows(None, value, 0, "", overrides)
                    ==> other == value
  }

  /** The rows determine the document exactly when every container that holds
      anything is shown; and, with nothing closed, that is when no more than 200
      of these stand inside one another. */
  lemma RowsDetermineExactly(value: Json, overrides: Overrides)
    requires WellFormed(value)
    ensures OnlyReading(value, overrides) <==> AllShown(value, 0, "", overrides)
    ensures NothingClosed(overrides) ==> (OnlyReading(value, overrides) <==> Height(value) <= MAX_RENDER_DEPTH)
  {
    FlatteningIsInvertible(value, overrides);
    if AllShown(value, 0, "", overrides) {
      forall other | Rows(None, other, 0, "", overrides) == Rows(None, value, 0, "", overrides)
        ensures other == value
      {
        SameRowsSameReading(value, other, overrides);
      }
    } else {
      var other := AnotherLooksTheSame(None, value, 0, "", overrides);
    }
  }

  lemma SameRowsSameReading(value: Json, other: Json, overrides: Overrides)
    requires Rows(None, other, 0, "", overrides) == Rows(None, value, 0, "", overrides)
    requires AllShown(value, 0, "", overrides)
    ensures other == value
  {
    var lines := Rows(None, value, 0, "", overrides);
    assert lines + [] == lines;
    RowsRebuild(None, value, 0, "", overrides, []);
    if AllShown(other, 0, "", overrides) {
      RowsRebuild(None, other, 0, "", overrides, []);
    } else {
      RowsStuck(None, other, 0, "", overrides, []);
    }
  }
}
