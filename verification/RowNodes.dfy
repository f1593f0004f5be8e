/** Which node each row is for, and what it says of it: the rows are those of the
    nodes on screen, one by one
    (frontend/src/components/jsonTreeLines.ts, JsonTreeView.tsx). */
module RowNodes {
  import opened Common
  import opened Decimal
  import opened JsonTree

  // ----- Nodes by their keys

  function Child(entries: seq<Entry>, key: string): Option<Json> {
    if entries == [] then None
    else if entries[0].key == key then Some(entries[0].value)
    else Child(entries[1..], key)
  }

  /** The node that these keys lead to, one level each. */
  function NodeAt(root: Json, keys: seq<string>): Option<Json> {
    if keys == [] then Some(root)
    else
      match NodeAt(root, keys[..|keys| - 1])
      case Some(Container(_, entries)) => Child(entries, keys[|keys| - 1])
      case _ => None
  }

  /** A slash and an escaped key for each level. */
  function PathOf(keys: seq<string>): string {
    if keys == [] then "" else PathOf(keys[..|keys| - 1]) + "/" + EscapeKey(keys[|keys| - 1])
  }

  function LastKey(keys: seq<string>): Option<string> {
    if keys == [] then None else Some(keys[|keys| - 1])
  }

  function Slashes(s: string): nat {
    if s == [] then 0 else (if s[0] == '/' then 1 else 0) + Slashes(s[1..])
  }

  lemma {:induction false} SlashesAppend(a: string, b: string)
    ensures Slashes(a + b) == Slashes(a) + Slashes(b)
  {
    if a == [] {
      assert a + b == b;
    } else {
      SlashesAppend(a[1..], b);
      assert (a + b)[1..] == a[1..] + b;
    }
  }

  lemma {:induction false} NoSlashes(s: string)
    requires '/' !in s
    ensures Slashes(s) == 0
  {
    if s != [] {
      NoSlashes(s[1..]);
      assert s[0] in s;
    }
  }

  /** A path has as many slashes as levels: none of them is in a key. */
  lemma {:induction false} DepthIsSlashes(keys: seq<string>)
    ensures Slashes(PathOf(keys)) == |keys|
  {
    if keys != [] {
      var above, segment := PathOf(keys[..|keys| - 1]), EscapeKey(keys[|keys| - 1]);
      DepthIsSlashes(keys[..|keys| - 1]);
      EscapeNoSlash(keys[|keys| - 1]);
      NoSlashes(segment);
      assert Slashes("/") == 1 + Slashes("/"[1..]);
      SlashesAppend(above, "/");
      SlashesAppend(above + "/", segment);
    }
  }

  // ----- What a row says

  function Label(name: Option<string>): string {
    if name.None? then "" else name.value + ": "
  }

  /** The text drawn for a row, after its indent. */
  function Drawn(row: Line): string {
    match row
    case PrimitiveRow(_, _, name, Str(s), _) => Label(name) + "\"" + s + "\""
    case PrimitiveRow(_, _, name, Null, _) => Label(name) + "null"
    case PrimitiveRow(_, _, name, Plain(text), _) => Label(name) + text
    case OpenRow(_, _, name, isArray, expanded, count, _) =>
      Label(name) + (if isArray then "[" else "{")
      + if expanded then "" else ToDecimal(count) + if isArray then " items]" else " keys}"
    case CloseRow(_, _, isArray, _) => if isArray then "]" else "}"
  }

  /** A weight is the number of characters drawn; for a closed container it is
      two or three more. */
  predicate WeighsRight(row: Line) {
    row.weight == |Drawn(row)| + if row.OpenRow? && !row.expanded then (if row.isArray then 2 else 3) else 0
  }

  /** The user has not closed it, and it is not 200 levels down. */
  predicate Opens(overrides: Overrides, keys: seq<string>) {
    |keys| < 200 && !(PathOf(keys) in overrides && !overrides[PathOf(keys)])
  }

  /** Everything above it is open. */
  ghost predicate OnScreen(overrides: Overrides, keys: seq<string>) {
    forall k :: 0 <= k < |keys| ==> Opens(overrides, keys[..k])
  }

  /** The row is that of the node these keys lead to, at its own path and depth,
      under its own key, and tells what is there. */
  ghost predicate Describes(row: Line, root: Json, overrides: Overrides, keys: seq<string>) {
    && OnScreen(overrides, keys) && row.path == PathOf(keys) && row.depth == |keys| && WeighsRight(row)
    && match NodeAt(root, keys)
       case None => false
       case Some(Leaf(value)) => row.PrimitiveRow? && row.value == value && row.name == LastKey(keys)
       case Some(Container(isArray, entries)) =>
         if row.OpenRow? then
           && row.name == LastKey(keys) && row.isArray == isArray && row.entryCount == |entries|
           && (row.expanded <==> Opens(overrides, keys))
         else row.CloseRow? && row.isArray == isArray && Opens(overrides, keys)
  }

  ghost predicate Told(row: Line, root: Json, overrides: Overrides) {
    exists keys :: Describes(row, root, overrides, keys)
  }

  ghost predicate AllTold(lines: seq<Line>, root: Json, overrides: Overrides) {
    forall i :: 0 <= i < |lines| ==> Told(lines[i], root, overrides)
  }

  // ----- Every row tells of its node

  /** Where the walk stands: at `node`, which these keys lead to. */
  ghost predicate Standing(root: Json, overrides: Overrides, keys: seq<string>, node: Json) {
    NodeAt(root, keys) == Some(node) && WellFormed(node) && OnScreen(overrides, keys)
  }

  /** Some of the entries of the open container these keys lead to. */
  ghost predicate Within(root: Json, overrides: Overrides, keys: seq<string>, entries: seq<Entry>, isArray: bool) {
    && OnScreen(overrides, keys) && Opens(overrides, keys) && GoodEntries(entries, isArray)
    && NodeAt(root, keys).Some? && NodeAt(root, keys).value.Container?
    && forall e :: e in entries ==> Child(NodeAt(root, keys).value.entries, e.key) == Some(e.value)
  }

  lemma {:induction false} ChildOf(entries: seq<Entry>)
    requires DistinctKeys(entries)
    ensures forall e :: e in entries ==> Child(entries, e.key) == Some(e.value)
  {
    if entries != [] {
      assert forall i :: 1 <= i < |entries| ==> entries[i] == entries[1..][i - 1];
      ChildOf(entries[1..]);
    }
  }

  lemma EnterContainer(root: Json, overrides: Overrides, keys: seq<string>, node: Json)
    requires Standing(root, overrides, keys, node) && node.Container? && Opens(overrides, keys)
    ensures Within(root, overrides, keys, node.entries, node.isArray)
  {
    ContainerHasGoodEntries(node);
    ChildOf(node.entries);
  }

  /** One key further down. */
  lemma OneDown(root: Json, overrides: Overrides, keys: seq<string>, entries: seq<Entry>, isArray: bool)
    requires entries != [] && Within(root, overrides, keys, entries, isArray)
    ensures var e := entries[0];
            && Standing(root, overrides, keys + [e.key], e.value)
            && PathOf(keys + [e.key]) == ChildPath(PathOf(keys), isArray, e.key)
            && LastKey(keys + [e.key]) == Some(e.key)
    ensures Within(root, overrides, keys, entries[1..], isArray)
  {
    var e := entries[0];
    var down := keys + [e.key];
    RestIsGood(entries, isArray);
    ChildPathEscaped(PathOf(keys), isArray, e.key);
    assert down[..|keys|] == keys && e in entries;
    forall k | 0 <= k < |down|
      ensures Opens(overrides, down[..k])
    {
      assert down[..k] == keys[..k];
      assert keys[..|keys|] == keys;
    }
  }

  lemma LeafRow(root: Json, overrides: Overrides, keys: seq<string>, value: Scalar)
    requires Standing(root, overrides, keys, Leaf(value))
    ensures var name := LastKey(keys);
            Told(PrimitiveRow(PathOf(keys), |keys|, name, value, PrimitiveWeight(name, value)), root, overrides)
  {
    var name := LastKey(keys);
    assert Describes(PrimitiveRow(PathOf(keys), |keys|, name, value, PrimitiveWeight(name, value)),
                     root, overrides, keys);
  }

  lemma ContainerRows(root: Json, overrides: Overrides, keys: seq<string>, node: Json)
    requires Standing(root, overrides, keys, node) && node.Container?
    ensures var name, open, count := LastKey(keys), Opens(overrides, keys), |node.entries|;
            && Told(OpenRow(PathOf(keys), |keys|, name, node.isArray, open, count, OpenWeight(name, open, count)),
                    root, overrides)
            && (open ==> Told(CloseRow(PathOf(keys), |keys|, node.isArray, 1), root, overrides))
  {
    var name, open, count := LastKey(keys), Opens(overrides, keys), |node.entries|;
    assert Describes(OpenRow(PathOf(keys), |keys|, name, node.isArray, open, count, OpenWeight(name, open, count)),
                     root, overrides, keys);
    if open {
      assert Describes(CloseRow(PathOf(keys), |keys|, node.isArray, 1), root, overrides, keys);
    }
  }

  lemma {:induction false} RowsTell(root: Json, overrides: Overrides, keys: seq<string>, node: Json)
    requires Standing(root, overrides, keys, node)
    ensures AllTold(Rows(LastKey(keys), node, |keys|, PathOf(keys), overrides), root, overrides)
    decreases node
  {
    match node
    case Leaf(value) => LeafRow(root, overrides, keys, value);
    case Container(isArray, entries) =>
      ContainerRows(root, overrides, keys, node);
      if Opens(overrides, keys) {
        EnterContainer(root, overrides, keys, node);
        EntryRowsTell(root, overrides, keys, entries, isArray);
      }
  }

  lemma {:induction false} EntryRowsTell(root: Json, overrides: Overrides, keys: seq<string>, entries: seq<Entry>,
                                         isArray: bool)
    requires Within(root, overrides, keys, entries, isArray)
    ensures AllTold(EntryRows(entries, isArray, |keys| + 1, PathOf(keys), overrides), root, overrides)
    decreases entries
  {
    if entries != [] {
      OneDown(root, overrides, keys, entries, isArray);
      OneEntryTells(root, overrides, keys, entries[0], isArray);
      EntryRowsTell(root, overrides, keys, entries[1..], isArray);
    }
  }

  lemma {:induction false} OneEntryTells(root: Json, overrides: Overrides, keys: seq<string>, e: Entry, isArray: bool)
    requires Standing(root, overrides, keys + [e.key], e.value)
    requires PathOf(keys + [e.key]) == ChildPath(PathOf(keys), isArray, e.key)
    ensures AllTold(RowsOf(e, isArray, |keys| + 1, PathOf(keys), overrides), root, overrides)
    decreases e
  {
    RowsTell(root, overrides, keys + [e.key], e.value);
  }

  // ----- Every node on screen has its row

  ghost predicate HasRow(lines: seq<Line>, path: string) {
    exists i :: 0 <= i < |lines| && !lines[i].CloseRow? && lines[i].path == path
  }

  lemma HasRowWithin(pre: seq<Line>, lines: seq<Line>, post: seq<Line>, path: string)
    requires HasRow(lines, path)
    ensures HasRow(pre + lines + post, path)
  {
    var i :| 0 <= i < |lines| && !lines[i].CloseRow? && lines[i].path == path;
    assert (pre + lines + post)[|pre| + i] == lines[i];
  }

  lemma OwnRow(keys: seq<string>, node: Json, overrides: Overrides)
    ensures HasRow(Rows(LastKey(keys), node, |keys|, PathOf(keys), overrides), PathOf(keys))
  {
    var lines := Rows(LastKey(keys), node, |keys|, PathOf(keys), overrides);
    assert lines[0].path == PathOf(keys);
  }

  lemma AmongFirst(entries: seq<Entry>, isArray: bool, depth: nat, path: string, overrides: Overrides, wanted: string)
    requires entries != []
    ensures HasRow(RowsOf(entries[0], isArray, depth, path, overrides), wanted)
            || HasRow(EntryRows(entries[1..], isArray, depth, path, overrides), wanted)
            ==> HasRow(EntryRows(entries, isArray, depth, path, overrides), wanted)
  {
    var head := RowsOf(entries[0], isArray, depth, path, overrides);
    var tail := EntryRows(entries[1..], isArray, depth, path, overrides);
    assert [] + head + tail == head + tail == head + tail + [];
    if HasRow(head, wanted) {
      HasRowWithin([], head, tail, wanted);
    } else if HasRow(tail, wanted) {
      HasRowWithin(head, tail, [], wanted);
    }
  }

  /** The rows of an entry stand among those of all. */
  lemma {:induction false} AmongEntries(entries: seq<Entry>, isArray: bool, depth: nat, path: string,
                                        overrides: Overrides, key: string, node: Json, wanted: string)
    requires GoodEntries(entries, isArray) && Child(entries, key) == Some(node)
    requires HasRow(Rows(Some(key), node, depth, path + "/" + EscapeKey(key), overrides), wanted)
    ensures HasRow(EntryRows(entries, isArray, depth, path, overrides), wanted)
  {
    RestIsGood(entries, isArray);
    if entries[0].key == key {
      ChildPathEscaped(path, isArray, key);
    } else {
      AmongEntries(entries[1..], isArray, depth, path, overrides, key, node, wanted);
    }
    AmongFirst(entries, isArray, depth, path, overrides, wanted);
  }

  lemma AmongContainer(keys: seq<string>, node: Json, overrides: Overrides, wanted: string)
    requires node.Container? && Opens(overrides, keys)
    requires HasRow(EntryRows(node.entries, node.isArray, |keys| + 1, PathOf(keys), overrides), wanted)
    ensures HasRow(Rows(LastKey(keys), node, |keys|, PathOf(keys), overrides), wanted)
  {
    var lines := Rows(LastKey(keys), node, |keys|, PathOf(keys), overrides);
    var inner := EntryRows(node.entries, node.isArray, |keys| + 1, PathOf(keys), overrides);
    OpenRows(LastKey(keys), node, |keys|, PathOf(keys), overrides);
    HasRowWithin([lines[0]], inner, [lines[|lines| - 1]], wanted);
    assert lines == [lines[0]] + inner + [lines[|lines| - 1]];
  }

  lemma {:induction false} WellFormedChild(entries: seq<Entry>, key: string)
    requires AllWellFormed(entries) && Child(entries, key).Some?
    ensures WellFormed(Child(entries, key).value)
  {
    assert EntryWellFormed(entries[0]);
    if entries[0].key != key {
      WellFormedChild(entries[1..], key);
    }
  }

  lemma {:induction false} WellFormedBelow(root: Json, keys: seq<string>)
    requires WellFormed(root) && NodeAt(root, keys).Some?
    ensures WellFormed(NodeAt(root, keys).value)
  {
    if keys != [] {
      WellFormedBelow(root, keys[..|keys| - 1]);
      WellFormedChild(NodeAt(root, keys[..|keys| - 1]).value.entries, keys[|keys| - 1]);
    }
  }

  /** What a node's own rows show is shown by the rows of the whole. */
  lemma {:induction false} ShownByTheWhole(root: Json, overrides: Overrides, keys: seq<string>, wanted: string)
    requires WellFormed(root) && NodeAt(root, keys).Some? && OnScreen(overrides, keys)
    requires HasRow(Rows(LastKey(keys), NodeAt(root, keys).value, |keys|, PathOf(keys), overrides), wanted)
    ensures HasRow(Rows(None, root, 0, "", overrides), wanted)
    decreases |keys|
  {
    if keys != [] {
      var up, key := keys[..|keys| - 1], keys[|keys| - 1];
      var parent := NodeAt(root, up).value;
      WellFormedBelow(root, up);
      ContainerHasGoodEntries(parent);
      AmongEntries(parent.entries, parent.isArray, |up| + 1, PathOf(up), overrides, key, NodeAt(root, keys).value,
                   wanted);
      AmongContainer(up, parent, overrides, wanted);
      forall k | 0 <= k < |up|
        ensures Opens(overrides, up[..k])
      {
        assert up[..k] == keys[..k];
      }
      ShownByTheWhole(root, overrides, up, wanted);
    }
  }

  /** The rows are those of the nodes on screen: each tells of its node, as deep
      as its path has slashes, and every node on screen has one. */
  lemma RowsAreNodes(root: Json, overrides: Overrides, lines: seq<Line>)
    requires WellFormed(root) && lines == Rows(None, root, 0, "", overrides)
    ensures AllTold(lines, root, overrides)
    ensures forall i :: 0 <= i < |lines| ==> lines[i].depth == Slashes(lines[i].path)
    ensures forall keys :: NodeAt(root, keys).Some? && OnScreen(overrides, keys) ==> HasRow(lines, PathOf(keys))
  {
    RowsTell(root, overrides, [], root);
    forall i | 0 <= i < |lines|
      ensures lines[i].depth == Slashes(lines[i].path)
    {
      assert Told(lines[i], root, overrides);
      var keys :| Describes(lines[i], root, overrides, keys);
      DepthIsSlashes(keys);
    }
    forall keys | NodeAt(root, keys).Some? && OnScreen(overrides, keys)
      ensures HasRow(lines, PathOf(keys))
    {
      OwnRow(keys, NodeAt(root, keys).value, overrides);
      ShownByTheWhole(root, overrides, keys, PathOf(keys));
    }
  }
}
