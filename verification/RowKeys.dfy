/** When React's keys for the rows are unique. An open row and its close row
    share a path, so a close row's key is the path with " close" appended
    (frontend/src/components/jsonTreeLines.ts, line 179) -- which is also what a
    sibling whose name ends in " close" has for its path. */
module RowKeys {
  import opened Common
  import opened Decimal
  import opened JsonTree

  const CLOSE := " close"

  ghost predicate UniqueKeys(lines: seq<Line>) {
    forall i, j :: 0 <= i < j < |lines| ==> lines[i].Key() != lines[j].Key()
  }

  /** A container that shows its entries, so that it has a close row. */
  predicate ShowsClose(node: Json, depth: nat, path: string, overrides: Overrides) {
    node.Container? && depth < MAX_RENDER_DEPTH && IsNodeExpanded(overrides, path)
  }

  predicate EntryShowsClose(e: Entry, isArray: bool, depth: nat, path: string, overrides: Overrides) {
    ShowsClose(e.value, depth, ChildPath(path, isArray, e.key), overrides)
  }

  /** Somewhere on screen an object has an open container under a key `k` and
      another entry under `k + " close"`. */
  ghost predicate Clash(node: Json, depth: nat, path: string, overrides: Overrides)
    decreases node
  {
    && ShowsClose(node, depth, path, overrides)
    && EntriesClash(node.entries, node.isArray, depth + 1, path, overrides)
  }

  ghost predicate EntriesClash(entries: seq<Entry>, isArray: bool, depth: nat, path: string, overrides: Overrides)
    decreases entries
  {
    entries != [] &&
      (|| EntryClash(entries[0], isArray, depth, path, overrides)
       || FirstClashes(entries, isArray, depth, path, overrides)
       || EntriesClash(entries[1..], isArray, depth, path, overrides))
  }

  ghost predicate EntryClash(e: Entry, isArray: bool, depth: nat, path: string, overrides: Overrides)
    decreases e
  {
    Clash(e.value, depth, ChildPath(path, isArray, e.key), overrides)
  }

  predicate Closes(a: Entry, b: Entry, isArray: bool, depth: nat, path: string, overrides: Overrides) {
    EntryShowsClose(a, isArray, depth, path, overrides) && b.key == a.key + CLOSE
  }

  ghost predicate FirstClashes(entries: seq<Entry>, isArray: bool, depth: nat, path: string, overrides: Overrides)
    requires entries != []
  {
    exists k :: 1 <= k < |entries| &&
      (Closes(entries[0], entries[k], isArray, depth, path, overrides)
       || Closes(entries[k], entries[0], isArray, depth, path, overrides))
  }

  // ----- Where a row's key points

  lemma {:induction false} EscapePlain(s: string)
    requires '~' !in s && '/' !in s
    ensures EscapeKey(s) == s
  {
    if s != [] {
      EscapePlain(s[1..]);
      EscapeStep(s);
      assert s[0] in s;
    }
  }

  lemma {:induction false} EscapeAppend(a: string, b: string)
    ensures EscapeKey(a + b) == EscapeKey(a) + EscapeKey(b)
  {
    ReplaceAppend(a, b, '~', "~0");
    ReplaceAppend(ReplaceAll(a, '~', "~0"), ReplaceAll(b, '~', "~0"), '/', "~1");
  }

  lemma SuffixPath(path: string, isArray: bool, key: string, suffix: string)
    requires isArray ==> IsDigits(key)
    requires '~' !in suffix && '/' !in suffix
    ensures ChildPath(path, isArray, key) + suffix == path + "/" + EscapeKey(key + suffix)
  {
    ChildPathEscaped(path, isArray, key);
    EscapeAppend(key, suffix);
    EscapePlain(suffix);
    assert (path + "/" + EscapeKey(key)) + suffix == path + "/" + (EscapeKey(key) + suffix);
  }

  /** A close row's key is the path its entry would have with " close" added to
      its name. */
  lemma CloseKeyPath(path: string, isArray: bool, key: string)
    requires isArray ==> IsDigits(key)
    ensures ChildPath(path, isArray, key) + CLOSE == path + "/" + EscapeKey(key + CLOSE)
  {
    SuffixPath(path, isArray, key, CLOSE);
  }

  lemma KeyOfEscaped(s: string, path: string, key: string)
    requires AtOrBelow(s, path + "/" + EscapeKey(key))
    ensures KeyBelow(s, path) == key && path + "/" <= s
  {
    EscapeNoSlash(key);
    EscapeRoundTrip(key);
    SegmentBelow(s, path, EscapeKey(key));
    BelowChild(s, path, EscapeKey(key));
  }

  /** The rows of an entry have keys at or below its path, except for its own
      close row, if it has one. */
  ghost predicate PointsTo(key: string, e: Entry, isArray: bool, depth: nat, path: string, overrides: Overrides) {
    && path + "/" <= key
    && (|| KeyBelow(key, path) == e.key
        || (EntryShowsClose(e, isArray, depth, path, overrides) && KeyBelow(key, path) == e.key + CLOSE))
  }

  lemma EntryKeyPoints(e: Entry, isArray: bool, depth: nat, path: string, overrides: Overrides, i: nat)
    requires isArray ==> IsDigits(e.key)
    requires i < |RowsOf(e, isArray, depth, path, overrides)|
    ensures PointsTo(RowsOf(e, isArray, depth, path, overrides)[i].Key(), e, isArray, depth, path, overrides)
  {
    var row := RowsOf(e, isArray, depth, path, overrides)[i];
    var child := ChildPath(path, isArray, e.key);
    EntryBelow(e, isArray, depth, path, overrides);
    if row.CloseRow? && row.path == child {
      CloseKeyPath(path, isArray, e.key);
      KeyOfEscaped(row.Key(), path, e.key + CLOSE);
    } else {
      assert row.CloseRow? ==> child + "/" <= row.path <= row.Key();
      KeyOfPath(row.Key(), path, isArray, e.key);
    }
  }

  lemma {:induction false} EntriesKeyPoints(entries: seq<Entry>, isArray: bool, depth: nat, path: string,
                                            overrides: Overrides, j: nat)
    returns (k: nat)
    requires GoodEntries(entries, isArray) && j < |EntryRows(entries, isArray, depth, path, overrides)|
    ensures k < |entries|
    ensures PointsTo(EntryRows(entries, isArray, depth, path, overrides)[j].Key(), entries[k], isArray, depth, path,
                     overrides)
  {
    var n := |RowsOf(entries[0], isArray, depth, path, overrides)|;
    RestIsGood(entries, isArray);
    RowAt(entries, isArray, depth, path, overrides, j);
    if j < n {
      EntryKeyPoints(entries[0], isArray, depth, path, overrides, j);
      k := 0;
    } else {
      var m := EntriesKeyPoints(entries[1..], isArray, depth, path, overrides, j - n);
      k := m + 1;
    }
  }

  lemma SameSuffix(a: string, b: string)
    requires a + CLOSE == b + CLOSE
    ensures a == b
  {
    assert (a + CLOSE)[..|a|] == a && (b + CLOSE)[..|b|] == b;
  }

  /** Two entries' rows share a key only if one closes onto the other. */
  lemma SharedKeyClashes(key: string, a: Entry, b: Entry, isArray: bool, depth: nat, path: string, overrides: Overrides)
    requires PointsTo(key, a, isArray, depth, path, overrides) && PointsTo(key, b, isArray, depth, path, overrides)
    requires a.key != b.key
    ensures Closes(a, b, isArray, depth, path, overrides) || Closes(b, a, isArray, depth, path, overrides)
  {
    if KeyBelow(key, path) == a.key + CLOSE && KeyBelow(key, path) == b.key + CLOSE {
      SameSuffix(a.key, b.key);
    }
  }

  // ----- The rows that collide when it happens

  lemma {:induction false} RowsAppear(entries: seq<Entry>, isArray: bool, depth: nat, path: string,
                                      overrides: Overrides, k: nat, m: nat)
    returns (at: nat)
    requires k < |entries| && m < |RowsOf(entries[k], isArray, depth, path, overrides)|
    ensures at < |EntryRows(entries, isArray, depth, path, overrides)|
    ensures EntryRows(entries, isArray, depth, path, overrides)[at]
            == RowsOf(entries[k], isArray, depth, path, overrides)[m]
    decreases k
  {
    var n := |RowsOf(entries[0], isArray, depth, path, overrides)|;
    if k == 0 {
      at := m;
    } else {
      assert entries[1..][k - 1] == entries[k];
      var inTail := RowsAppear(entries[1..], isArray, depth, path, overrides, k - 1, m);
      at := n + inTail;
    }
    RowAt(entries, isArray, depth, path, overrides, at);
  }

  /** The two rows: the close row of `a` and the row of `b`. */
  lemma ClosingRows(a: Entry, b: Entry, isArray: bool, depth: nat, path: string, overrides: Overrides)
    requires isArray ==> IsDigits(a.key) && IsDigits(b.key)
    requires Closes(a, b, isArray, depth, path, overrides)
    ensures var rowsA, rowsB := RowsOf(a, isArray, depth, path, overrides), RowsOf(b, isArray, depth, path, overrides);
            rowsA[|rowsA| - 1].Key() == rowsB[0].Key()
  {
    CloseKeyPath(path, isArray, a.key);
    ChildPathEscaped(path, isArray, b.key);
  }

  lemma ConcatUnique(a: seq<Line>, b: seq<Line>, whole: seq<Line>)
    requires whole == a + b
    ensures UniqueKeys(whole) <==>
            UniqueKeys(a) && UniqueKeys(b) && KeysApart(a, b)
  {
    if UniqueKeys(whole) {
      assert forall i :: 0 <= i < |a| ==> whole[i] == a[i];
      forall i, j | 0 <= i < j < |b|
        ensures b[i].Key() != b[j].Key()
      {
        assert whole[|a| + i] == b[i] && whole[|a| + j] == b[j];
      }
      forall i, j | 0 <= i < |a| && 0 <= j < |b|
        ensures a[i].Key() != b[j].Key()
      {
        assert whole[i] == a[i] && whole[|a| + j] == b[j];
      }
    }
  }

  ghost predicate KeysApart(a: seq<Line>, b: seq<Line>) {
    forall i, j :: 0 <= i < |a| && 0 <= j < |b| ==> a[i].Key() != b[j].Key()
  }

  lemma SharedWithLater(entries: seq<Entry>, isArray: bool, depth: nat, path: string, overrides: Overrides,
                        i: nat, k: nat, m: nat)
    requires 1 <= k < |entries|
    requires i < |RowsOf(entries[0], isArray, depth, path, overrides)|
    requires m < |RowsOf(entries[k], isArray, depth, path, overrides)|
    requires RowsOf(entries[0], isArray, depth, path, overrides)[i].Key()
          == RowsOf(entries[k], isArray, depth, path, overrides)[m].Key()
    ensures !KeysApart(RowsOf(entries[0], isArray, depth, path, overrides),
                       EntryRows(entries[1..], isArray, depth, path, overrides))
  {
    assert entries[1..][k - 1] == entries[k];
    var at := RowsAppear(entries[1..], isArray, depth, path, overrides, k - 1, m);
  }

  lemma FirstCollides(entries: seq<Entry>, isArray: bool, depth: nat, path: string, overrides: Overrides, k: nat)
    requires GoodEntries(entries, isArray) && 1 <= k < |entries|
    requires || Closes(entries[0], entries[k], isArray, depth, path, overrides)
             || Closes(entries[k], entries[0], isArray, depth, path, overrides)
    ensures !KeysApart(RowsOf(entries[0], isArray, depth, path, overrides),
                       EntryRows(entries[1..], isArray, depth, path, overrides))
  {
    if Closes(entries[0], entries[k], isArray, depth, path, overrides) {
      ClosingRows(entries[0], entries[k], isArray, depth, path, overrides);
      SharedWithLater(entries, isArray, depth, path, overrides,
                      |RowsOf(entries[0], isArray, depth, path, overrides)| - 1, k, 0);
    } else {
      ClosingRows(entries[k], entries[0], isArray, depth, path, overrides);
      SharedWithLater(entries, isArray, depth, path, overrides,
                      0, k, |RowsOf(entries[k], isArray, depth, path, overrides)| - 1);
    }
  }

  lemma FirstApart(entries: seq<Entry>, isArray: bool, depth: nat, path: string, overrides: Overrides, i: nat, j: nat)
    requires entries != [] && GoodEntries(entries, isArray)
    requires i < |RowsOf(entries[0], isArray, depth, path, overrides)|
    requires j < |EntryRows(entries[1..], isArray, depth, path, overrides)|
    requires RowsOf(entries[0], isArray, depth, path, overrides)[i].Key()
          == EntryRows(entries[1..], isArray, depth, path, overrides)[j].Key()
    ensures FirstClashes(entries, isArray, depth, path, overrides)
  {
    RestIsGood(entries, isArray);
    EntryKeyPoints(entries[0], isArray, depth, path, overrides, i);
    var k := EntriesKeyPoints(entries[1..], isArray, depth, path, overrides, j);
    SharedKeyClashes(RowsOf(entries[0], isArray, depth, path, overrides)[i].Key(), entries[0], entries[1..][k],
                     isArray, depth, path, overrides);
    assert entries[k + 1] == entries[1..][k];
  }

  /** Between one entry and the later ones, keys collide exactly when it closes
      onto one of them or one of them onto it. */
  lemma FirstApartExactly(entries: seq<Entry>, isArray: bool, depth: nat, path: string, overrides: Overrides)
    requires entries != [] && GoodEntries(entries, isArray)
    ensures KeysApart(RowsOf(entries[0], isArray, depth, path, overrides),
                      EntryRows(entries[1..], isArray, depth, path, overrides))
        <==> !FirstClashes(entries, isArray, depth, path, overrides)
  {
    var head := RowsOf(entries[0], isArray, depth, path, overrides);
    var tail := EntryRows(entries[1..], isArray, depth, path, overrides);
    if FirstClashes(entries, isArray, depth, path, overrides) {
      var k :| 1 <= k < |entries| &&
        (Closes(entries[0], entries[k], isArray, depth, path, overrides)
         || Closes(entries[k], entries[0], isArray, depth, path, overrides));
      FirstCollides(entries, isArray, depth, path, overrides, k);
    } else if !KeysApart(head, tail) {
      var i, j :| 0 <= i < |head| && 0 <= j < |tail| && head[i].Key() == tail[j].Key();
      FirstApart(entries, isArray, depth, path, overrides, i, j);
    }
  }

  // ----- The exact condition

  /** The keys of a document's rows are unique if and only if no open container
      on screen has a sibling named like it with " close" appended. */
  lemma {:induction false} UniqueKeysExactly(name: Option<string>, node: Json, depth: nat, path: string,
                                             overrides: Overrides)
    requires WellFormed(node)
    ensures UniqueKeys(Rows(name, node, depth, path, overrides)) <==> !Clash(node, depth, path, overrides)
    decreases node
  {
    if ShowsClose(node, depth, path, overrides) {
      var inner := EntryRows(node.entries, node.isArray, depth + 1, path, overrides);
      var lines := Rows(name, node, depth, path, overrides);
      var last := CloseRow(path, depth, node.isArray, 1);
      ContainerHasGoodEntries(node);
      EntriesUniqueExactly(node.entries, node.isArray, depth + 1, path, overrides);
      OpenRows(name, node, depth, path, overrides);
      OwnRowsApart(inner, path, lines[0], last, node.entries, node.isArray, depth + 1, overrides);
      ConcatUnique(inner, [last], inner + [last]);
      ConcatUnique([lines[0]], inner + [last], lines);
    }
  }

  /** A container's own two rows never collide with those of its entries. */
  lemma OwnRowsApart(inner: seq<Line>, path: string, first: Line, last: Line, entries: seq<Entry>, isArray: bool,
                     depth: nat, overrides: Overrides)
    requires inner == EntryRows(entries, isArray, depth, path, overrides) && GoodEntries(entries, isArray)
    requires first.Key() == path && last.Key() == path + CLOSE
    ensures first.Key() != last.Key()
    ensures forall i :: 0 <= i < |inner| ==> inner[i].Key() != first.Key() && inner[i].Key() != last.Key()
  {
    assert |path + CLOSE| > |path|;
    forall i | 0 <= i < |inner|
      ensures inner[i].Key() != path && inner[i].Key() != path + CLOSE
    {
      var k := EntriesKeyPoints(entries, isArray, depth, path, overrides, i);
      assert inner[i].Key()[|path|] == (path + "/")[|path|] == '/';
      assert (path + CLOSE)[|path|] == CLOSE[0] == ' ';
    }
  }

  lemma {:induction false} EntriesUniqueExactly(entries: seq<Entry>, isArray: bool, depth: nat, path: string,
                                                overrides: Overrides)
    requires GoodEntries(entries, isArray)
    ensures UniqueKeys(EntryRows(entries, isArray, depth, path, overrides))
        <==> !EntriesClash(entries, isArray, depth, path, overrides)
    decreases entries
  {
    if entries != [] {
      RestIsGood(entries, isArray);
      EntryUniqueExactly(entries[0], isArray, depth, path, overrides);
      EntriesUniqueExactly(entries[1..], isArray, depth, path, overrides);
      FirstApartExactly(entries, isArray, depth, path, overrides);
      ConcatUnique(RowsOf(entries[0], isArray, depth, path, overrides),
                   EntryRows(entries[1..], isArray, depth, path, overrides),
                   EntryRows(entries, isArray, depth, path, overrides));
    }
  }

  lemma {:induction false} EntryUniqueExactly(e: Entry, isArray: bool, depth: nat, path: string, overrides: Overrides)
    requires WellFormed(e.value)
    ensures UniqueKeys(RowsOf(e, isArray, depth, path, overrides)) <==> !EntryClash(e, isArray, depth, path, overrides)
    decreases e
  {
    UniqueKeysExactly(Some(e.key), e.value, depth, ChildPath(path, isArray, e.key), overrides);
  }

  /** `{"a": {}, "a close": null}`: the close row of `a` and the row of
      `a close` have the same key. */
  lemma KeysCanCollide()
    ensures var document := Container(false, [Entry("a", Container(false, [])), Entry("a close", Leaf(Null))]);
            WellFormed(document) && !UniqueKeys(Rows(None, document, 0, "", map[]))
  {
    var a, b := Entry("a", Container(false, [])), Entry("a close", Leaf(Null));
    var document := Container(false, [a, b]);
    assert a.key != b.key by { assert |a.key| != |b.key|; }
    assert [a, b][1..] == [b] && [b][1..] == [];
    assert EntryWellFormed(b);
    assert AllWellFormed([b]) && EntryWellFormed(a);
    assert Closes(a, b, false, 1, "", map[]) by { assert "a close" == "a" + CLOSE; }
    assert FirstClashes([a, b], false, 1, "", map[]) by { assert [a, b][1] == b; }
    UniqueKeysExactly(None, document, 0, "", map[]);
  }
}
