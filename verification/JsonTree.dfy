/** Turning a JSON document into the rows of a tree view
    (frontend/src/components/jsonTreeLines.ts). */
module JsonTree {
  import opened Common
  import opened Decimal

  const MAX_RENDER_DEPTH := 200

  /** What a leaf holds: a string, null, or anything else by its printed text. */
  datatype Scalar = Str(s: string) | Null | Plain(text: string)

  /** A parsed document. As in JavaScript, an array is a container whose keys
      are its indexes, and entries come in the order they are listed. */
  datatype Json = Leaf(value: Scalar) | Container(isArray: bool, entries: seq<Entry>)
  datatype Entry = Entry(key: string, value: Json)

  ghost predicate DistinctKeys(entries: seq<Entry>) {
    forall i, j :: 0 <= i < j < |entries| ==> entries[i].key != entries[j].key
  }

  /** What the JavaScript engine guarantees of any parsed document. */
  ghost predicate WellFormed(node: Json)
    decreases node
  {
    node.Container? ==>
      && DistinctKeys(node.entries)
      && (node.isArray ==> forall i :: 0 <= i < |node.entries| ==> node.entries[i].key == ToDecimal(i))
      && AllWellFormed(node.entries)
  }

  ghost predicate AllWellFormed(entries: seq<Entry>)
    decreases entries
  {
    entries != [] ==> EntryWellFormed(entries[0]) && AllWellFormed(entries[1..])
  }

  ghost predicate EntryWellFormed(e: Entry)
    decreases e
  {
    WellFormed(e.value)
  }

  datatype Line =
    | PrimitiveRow(path: string, depth: nat, name: Option<string>, value: Scalar, weight: nat)
    | OpenRow(path: string, depth: nat, name: Option<string>, isArray: bool, expanded: bool, entryCount: nat,
              weight: nat)
    | CloseRow(path: string, depth: nat, isArray: bool, weight: nat)
  {
    /** React's key for the row. */
    function Key(): string {
      if CloseRow? then path + " close" else path
    }
  }

  type Overrides = map<string, bool>

  /** Open unless the user closed it. */
  predicate IsNodeExpanded(overrides: Overrides, path: string) {
    if path in overrides then overrides[path] else true
  }

  function LabelWidth(name: Option<string>): nat {
    if name.None? then 0 else |name.value| + 2
  }

  function PrimitiveWeight(name: Option<string>, value: Scalar): nat {
    LabelWidth(name) + match value
                        case Str(s) => |s| + 2
                        case Null => 4
                        case Plain(text) => |text|
  }

  function OpenWeight(name: Option<string>, expanded: bool, entryCount: nat): nat {
    LabelWidth(name) + 1 + if expanded then 0 else |ToDecimal(entryCount)| + 9
  }

  // ----- Paths

  function ReplaceAll(s: string, c: char, sub: string): string {
    if s == [] then [] else (if s[0] == c then sub else [s[0]]) + ReplaceAll(s[1..], c, sub)
  }

  /** `escapeKey`: `~` first, then `/` (section 3 of RFC 6901). */
  function EscapeKey(key: string): string {
    ReplaceAll(ReplaceAll(key, '~', "~0"), '/', "~1")
  }

  /** Reading an escaped key back (section 4 of RFC 6901). */
  function UnescapeKey(s: string): string {
    if s == [] then []
    else if s[0] == '~' && |s| > 1 then
      [if s[1] == '1' then '/' else if s[1] == '0' then '~' else s[1]] + UnescapeKey(s[2..])
    else [s[0]] + UnescapeKey(s[1..])
  }

  lemma {:induction false} ReplaceAppend(a: string, b: string, c: char, sub: string)
    ensures ReplaceAll(a + b, c, sub) == ReplaceAll(a, c, sub) + ReplaceAll(b, c, sub)
  {
    if a == [] {
      assert a + b == b;
    } else {
      ReplaceAppend(a[1..], b, c, sub);
      assert (a + b)[1..] == a[1..] + b;
      var head := if a[0] == c then sub else [a[0]];
      assert head + (ReplaceAll(a[1..], c, sub) + ReplaceAll(b, c, sub))
          == (head + ReplaceAll(a[1..], c, sub)) + ReplaceAll(b, c, sub);
    }
  }

  function EscapeChar(c: char): string {
    if c == '~' then "~0" else if c == '/' then "~1" else [c]
  }

  /** The two passes together escape each character on its own. */
  lemma EscapeStep(key: string)
    requires key != []
    ensures EscapeKey(key) == EscapeChar(key[0]) + EscapeKey(key[1..])
  {
    var head := if key[0] == '~' then "~0" else [key[0]];
    ReplaceAppend(head, ReplaceAll(key[1..], '~', "~0"), '/', "~1");
    OneChar(key[0]);
  }

  lemma OneChar(c: char)
    ensures ReplaceAll(if c == '~' then "~0" else [c], '/', "~1") == EscapeChar(c)
  {
    if c == '~' {
      assert "~0"[1..] == "0";
      assert ReplaceAll("0", '/', "~1") == "0";
    }
  }

  lemma {:induction false} EscapeNoSlash(key: string)
    ensures '/' !in EscapeKey(key)
  {
    if key != [] {
      EscapeNoSlash(key[1..]);
      EscapeStep(key);
    }
  }

  lemma {:induction false} EscapeRoundTrip(key: string)
    ensures UnescapeKey(EscapeKey(key)) == key
  {
    if key != [] {
      EscapeRoundTrip(key[1..]);
      EscapeStep(key);
      var e := EscapeKey(key);
      if key[0] == '~' || key[0] == '/' {
        assert e[2..] == EscapeKey(key[1..]);
      } else {
        assert e[1..] == EscapeKey(key[1..]);
      }
      assert key == [key[0]] + key[1..];
    }
  }

  lemma EscapeInjective(a: string, b: string)
    requires EscapeKey(a) == EscapeKey(b)
    ensures a == b
  {
    EscapeRoundTrip(a);
    EscapeRoundTrip(b);
  }

  /** An array index goes into a path as it is; it needs no escaping. */
  lemma {:induction false} DigitsUnescaped(s: string)
    requires IsDigits(s)
    ensures EscapeKey(s) == s
  {
    if s != [] {
      DigitsUnescaped(s[1..]);
      EscapeStep(s);
    }
  }

  /** Where an entry's node lives: `${path}/${i}` or `${path}/${escapeKey(key)}`. */
  function ChildPath(path: string, isArray: bool, key: string): string {
    path + "/" + if isArray then key else EscapeKey(key)
  }

  // ----- The rows

  function Rows(name: Option<string>, node: Json, depth: nat, path: string, overrides: Overrides): (lines: seq<Line>)
    ensures lines != []
    decreases node
  {
    match node
    case Leaf(value) => [PrimitiveRow(path, depth, name, value, PrimitiveWeight(name, value))]
    case Container(isArray, entries) =>
      var expanded := depth < MAX_RENDER_DEPTH && IsNodeExpanded(overrides, path);
      var open := OpenRow(path, depth, name, isArray, expanded, |entries|, OpenWeight(name, expanded, |entries|));
      if !expanded then [open]
      else [open] + EntryRows(entries, isArray, depth + 1, path, overrides) + [CloseRow(path, depth, isArray, 1)]
  }

  function EntryRows(entries: seq<Entry>, isArray: bool, depth: nat, path: string, overrides: Overrides): seq<Line>
    decreases entries
  {
    if entries == [] then []
    else RowsOf(entries[0], isArray, depth, path, overrides) + EntryRows(entries[1..], isArray, depth, path, overrides)
  }

  function RowsOf(e: Entry, isArray: bool, depth: nat, path: string, overrides: Overrides): (lines: seq<Line>)
    ensures lines != []
    decreases e
  {
    Rows(Some(e.key), e.value, depth, ChildPath(path, isArray, e.key), overrides)
  }

  lemma EntryRowsStep(lines: seq<Line>, entries: seq<Entry>, i: nat, isArray: bool, depth: nat, path: string,
                      overrides: Overrides)
    requires i < |entries|
    ensures lines + EntryRows(entries[i..], isArray, depth, path, overrides)
         == (lines + Rows(Some(entries[i].key), entries[i].value, depth, ChildPath(path, isArray, entries[i].key),
                          overrides))
            + EntryRows(entries[i + 1..], isArray, depth, path, overrides)
  {
    assert entries[i..][0] == entries[i] && entries[i..][1..] == entries[i + 1..];
  }

  /** `walk`, pushing onto the shared list of rows. */
  method Walk(lines: seq<Line>, name: Option<string>, node: Json, depth: nat, path: string, overrides: Overrides)
    returns (lines': seq<Line>)
    ensures lines' == lines + Rows(name, node, depth, path, overrides)
    decreases node
  {
    match node
    case Leaf(value) =>
      lines' := lines + [PrimitiveRow(path, depth, name, value, PrimitiveWeight(name, value))];
    case Container(isArray, entries) =>
      var expanded := depth < MAX_RENDER_DEPTH && IsNodeExpanded(overrides, path);
      lines' := lines + [OpenRow(path, depth, name, isArray, expanded, |entries|,
                                 OpenWeight(name, expanded, |entries|))];
      if expanded {
        ghost var begun := lines';
        var i := 0;
        assert entries[0..] == entries;
        while i < |entries|
          invariant 0 <= i <= |entries|
          invariant lines' + EntryRows(entries[i..], isArray, depth + 1, path, overrides)
                 == begun + EntryRows(entries, isArray, depth + 1, path, overrides)
        {
          EntryRowsStep(lines', entries, i, isArray, depth + 1, path, overrides);
          lines' := Walk(lines', Some(entries[i].key), entries[i].value, depth + 1,
                         ChildPath(path, isArray, entries[i].key), overrides);
          i := i + 1;
        }
        assert lines' == begun + EntryRows(entries, isArray, depth + 1, path, overrides);
        lines' := lines' + [CloseRow(path, depth, isArray, 1)];
      }
  }

  // ----- The rows determine the document

  datatype Parsed = Parsed(name: Option<string>, node: Json, rest: seq<Line>)
  datatype ParsedEntries = ParsedEntries(entries: seq<Entry>, rest: seq<Line>)

  /** Reading one node back from the front of the rows, if all of it is there. */
  function Rebuild(lines: seq<Line>): (r: Option<Parsed>)
    ensures r.Some? ==> |r.value.rest| < |lines|
    decreases |lines|, 0
  {
    if lines == [] then None
    else
      match lines[0]
      case PrimitiveRow(_, _, name, value, _) => Some(Parsed(name, Leaf(value), lines[1..]))
      case CloseRow(_, _, _, _) => None
      case OpenRow(_, _, name, isArray, expanded, entryCount, _) =>
        if !expanded && entryCount == 0 then Some(Parsed(name, Container(isArray, []), lines[1..]))
        else if !expanded then None
        else
          match RebuildEntries(lines[1..])
          case None => None
          case Some(inner) =>
            if inner.rest == [] then None
            else Some(Parsed(name, Container(isArray, inner.entries), inner.rest[1..]))
  }

  /** Reading entries up to the row that closes their container. */
  function RebuildEntries(lines: seq<Line>): (r: Option<ParsedEntries>)
    ensures r.Some? ==> |r.value.rest| <= |lines|
    decreases |lines|, 1
  {
    if lines == [] then None
    else if lines[0].CloseRow? then Some(ParsedEntries([], lines))
    else
      match Rebuild(lines)
      case None => None
      case Some(first) =>
        if first.name.None? then None
        else
          match RebuildEntries(first.rest)
          case None => None
          case Some(more) => Some(ParsedEntries([Entry(first.name.value, first.node)] + more.entries, more.rest))
  }

  /** Every container that holds anything is shown open: none of them was closed
      and none lies too deep. */
  ghost predicate AllShown(node: Json, depth: nat, path: string, overrides: Overrides)
    decreases node
  {
    node.Container? && node.entries != [] ==>
      && depth < MAX_RENDER_DEPTH && IsNodeExpanded(overrides, path)
      && EntriesShown(node.entries, node.isArray, depth + 1, path, overrides)
  }

  ghost predicate EntriesShown(entries: seq<Entry>, isArray: bool, depth: nat, path: string, overrides: Overrides)
    decreases entries
  {
    entries != [] ==>
      && EntryShown(entries[0], isArray, depth, path, overrides)
      && EntriesShown(entries[1..], isArray, depth, path, overrides)
  }

  ghost predicate EntryShown(e: Entry, isArray: bool, depth: nat, path: string, overrides: Overrides)
    decreases e
  {
    AllShown(e.value, depth, ChildPath(path, isArray, e.key), overrides)
  }

  lemma RebuildContainer(open: Line, inner: seq<Line>, close: Line, rest: seq<Line>, entries: seq<Entry>,
                         lines: seq<Line>)
    requires open.OpenRow? && open.expanded && lines == [open] + inner + [close]
    requires RebuildEntries(inner + ([close] + rest)) == Some(ParsedEntries(entries, [close] + rest))
    ensures Rebuild(lines + rest) == Some(Parsed(open.name, Container(open.isArray, entries), rest))
  {
    assert (lines + rest)[1..] == inner + ([close] + rest);
    assert ([close] + rest)[1..] == rest;
  }

  lemma RebuildOneRow(row: Line, rest: seq<Line>)
    ensures ([row] + rest)[0] == row && ([row] + rest)[1..] == rest
  {
  }

  lemma RebuildOneMore(head: seq<Line>, tail: seq<Line>, e: Entry, entries: seq<Entry>, rest: seq<Line>)
    requires head != [] && !head[0].CloseRow?
    requires Rebuild(head + tail) == Some(Parsed(Some(e.key), e.value, tail))
    requires RebuildEntries(tail) == Some(ParsedEntries(entries, rest))
    ensures RebuildEntries(head + tail) == Some(ParsedEntries([e] + entries, rest))
  {
    assert (head + tail)[0] == head[0];
  }

  lemma {:induction false} RowsRebuild(name: Option<string>, node: Json, depth: nat, path: string, overrides: Overrides,
                                       rest: seq<Line>)
    requires AllShown(node, depth, path, overrides)
    ensures Rebuild(Rows(name, node, depth, path, overrides) + rest) == Some(Parsed(name, node, rest))
    decreases node
  {
    var lines := Rows(name, node, depth, path, overrides);
    match node
    case Leaf(value) => RebuildOneRow(lines[0], rest);
    case Container(isArray, entries) =>
      if depth < MAX_RENDER_DEPTH && IsNodeExpanded(overrides, path) {
        var inner, close := EntryRows(entries, isArray, depth + 1, path, overrides), CloseRow(path, depth, isArray, 1);
        EntryRowsRebuild(entries, isArray, depth + 1, path, overrides, [close] + rest);
        RebuildContainer(lines[0], inner, close, rest, entries, lines);
      } else {
        RebuildOneRow(lines[0], rest);
      }
  }

  lemma {:induction false} EntryRowsRebuild(entries: seq<Entry>, isArray: bool, depth: nat, path: string,
                                            overrides: Overrides, rest: seq<Line>)
    requires EntriesShown(entries, isArray, depth, path, overrides) && rest != [] && rest[0].CloseRow?
    ensures RebuildEntries(EntryRows(entries, isArray, depth, path, overrides) + rest)
         == Some(ParsedEntries(entries, rest))
    decreases entries
  {
    if entries == [] {
      assert [] + rest == rest;
    } else {
      var head := RowsOf(entries[0], isArray, depth, path, overrides);
      var tail := EntryRows(entries[1..], isArray, depth, path, overrides);
      EntryRebuild(entries[0], isArray, depth, path, overrides, tail + rest);
      EntryRowsRebuild(entries[1..], isArray, depth, path, overrides, rest);
      StartsWithNode(entries[0], isArray, depth, path, overrides);
      RebuildOneMore(head, tail + rest, entries[0], entries[1..], rest);
      assert (head + tail) + rest == head + (tail + rest);
      assert entries == [entries[0]] + entries[1..];
    }
  }

  lemma StartsWithNode(e: Entry, isArray: bool, depth: nat, path: string, overrides: Overrides)
    ensures !RowsOf(e, isArray, depth, path, overrides)[0].CloseRow?
  {
  }

  lemma {:induction false} EntryRebuild(e: Entry, isArray: bool, depth: nat, path: string, overrides: Overrides,
                                        rest: seq<Line>)
    requires EntryShown(e, isArray, depth, path, overrides)
    ensures Rebuild(RowsOf(e, isArray, depth, path, overrides) + rest) == Some(Parsed(Some(e.key), e.value, rest))
    decreases e
  {
    RowsRebuild(Some(e.key), e.value, depth, ChildPath(path, isArray, e.key), overrides, rest);
  }

  /** A container whose contents are missing cannot be read back. */
  lemma {:induction false} RowsStuck(name: Option<string>, node: Json, depth: nat, path: string, overrides: Overrides,
                                     rest: seq<Line>)
    requires !AllShown(node, depth, path, overrides)
    ensures Rebuild(Rows(name, node, depth, path, overrides) + rest) == None
    decreases node
  {
    var lines := Rows(name, node, depth, path, overrides);
    if depth < MAX_RENDER_DEPTH && IsNodeExpanded(overrides, path) {
      var inner := EntryRows(node.entries, node.isArray, depth + 1, path, overrides);
      var close := CloseRow(path, depth, node.isArray, 1);
      EntryRowsStuck(node.entries, node.isArray, depth + 1, path, overrides, [close] + rest);
      assert (lines + rest)[1..] == inner + ([close] + rest);
    }
  }

  lemma {:induction false} EntryRowsStuck(entries: seq<Entry>, isArray: bool, depth: nat, path: string,
                                          overrides: Overrides, rest: seq<Line>)
    requires !EntriesShown(entries, isArray, depth, path, overrides) && rest != [] && rest[0].CloseRow?
    ensures RebuildEntries(EntryRows(entries, isArray, depth, path, overrides) + rest) == None
    decreases entries
  {
    var head := RowsOf(entries[0], isArray, depth, path, overrides);
    var tail := EntryRows(entries[1..], isArray, depth, path, overrides);
    assert (head + tail) + rest == head + (tail + rest);
    StartsWithNode(entries[0], isArray, depth, path, overrides);
    assert (head + (tail + rest))[0] == head[0];
    if EntryShown(entries[0], isArray, depth, path, overrides) {
      EntryRebuild(entries[0], isArray, depth, path, overrides, tail + rest);
      EntryRowsStuck(entries[1..], isArray, depth, path, overrides, rest);
    } else {
      EntryStuck(entries[0], isArray, depth, path, overrides, tail + rest);
    }
  }

  lemma {:induction false} EntryStuck(e: Entry, isArray: bool, depth: nat, path: string, overrides: Overrides,
                                      rest: seq<Line>)
    requires !EntryShown(e, isArray, depth, path, overrides)
    ensures Rebuild(RowsOf(e, isArray, depth, path, overrides) + rest) == None
    decreases e
  {
    RowsStuck(Some(e.key), e.value, depth, ChildPath(path, isArray, e.key), overrides, rest);
  }

  /** How many containers that hold anything stand inside one another. */
  function Height(node: Json): nat
    decreases node
  {
    match node
    case Leaf(_) => 0
    case Container(_, entries) => if entries == [] then 0 else 1 + EntriesHeight(entries)
  }

  function EntriesHeight(entries: seq<Entry>): nat
    decreases entries
  {
    if entries == [] then 0 else Max(EntryHeight(entries[0]), EntriesHeight(entries[1..]))
  }

  function EntryHeight(e: Entry): nat
    decreases e
  {
    Height(e.value)
  }

  predicate NothingClosed(overrides: Overrides) {
    forall path :: path in overrides ==> overrides[path]
  }

  /** With nothing closed, all is shown exactly when no container that holds
      anything lies 200 or more levels deep. */
  lemma {:induction false} ShownExactly(node: Json, depth: nat, path: string, overrides: Overrides)
    requires NothingClosed(overrides) && depth <= MAX_RENDER_DEPTH
    ensures AllShown(node, depth, path, overrides) <==> depth + Height(node) <= MAX_RENDER_DEPTH
    decreases node
  {
    if node.Container? && node.entries != [] && depth < MAX_RENDER_DEPTH {
      EntriesShownExactly(node.entries, node.isArray, depth + 1, path, overrides);
    }
  }

  lemma {:induction false} EntriesShownExactly(entries: seq<Entry>, isArray: bool, depth: nat, path: string,
                                               overrides: Overrides)
    requires NothingClosed(overrides) && depth <= MAX_RENDER_DEPTH
    ensures EntriesShown(entries, isArray, depth, path, overrides)
            <==> depth + EntriesHeight(entries) <= MAX_RENDER_DEPTH
    decreases entries
  {
    if entries != [] {
      EntryShownExactly(entries[0], isArray, depth, path, overrides);
      EntriesShownExactly(entries[1..], isArray, depth, path, overrides);
    }
  }

  lemma {:induction false} EntryShownExactly(e: Entry, isArray: bool, depth: nat, path: string, overrides: Overrides)
    requires NothingClosed(overrides) && depth <= MAX_RENDER_DEPTH
    ensures EntryShown(e, isArray, depth, path, overrides) <==> depth + EntryHeight(e) <= MAX_RENDER_DEPTH
    decreases e
  {
    ShownExactly(e.value, depth, ChildPath(path, isArray, e.key), overrides);
  }

  /** The document can be read back from its rows exactly when all of it is
      shown; and with nothing closed that is when it has at most 200 levels. */
  lemma FlatteningIsInvertible(value: Json, overrides: Overrides)
    ensures Rebuild(Rows(None, value, 0, "", overrides)) == Some(Parsed(None, value, []))
            <==> AllShown(value, 0, "", overrides)
    ensures NothingClosed(overrides) ==>
              (AllShown(value, 0, "", overrides) <==> Height(value) <= MAX_RENDER_DEPTH)
  {
    var lines := Rows(None, value, 0, "", overrides);
    assert lines + [] == lines;
    if AllShown(value, 0, "", overrides) {
      RowsRebuild(None, value, 0, "", overrides, []);
    } else {
      RowsStuck(None, value, 0, "", overrides, []);
    }
    if NothingClosed(overrides) {
      ShownExactly(value, 0, "", overrides);
    }
  }

  // ----- Paths identify nodes

  /** `s` is the path `p` or lies below it. */
  ghost predicate AtOrBelow(s: string, p: string) {
    s == p || p + "/" <= s
  }

  ghost predicate RowsAtOrBelow(lines: seq<Line>, p: string) {
    forall i :: 0 <= i < |lines| ==> AtOrBelow(lines[i].path, p)
  }

  ghost predicate RowsBelow(lines: seq<Line>, p: string) {
    forall i :: 0 <= i < |lines| ==> p + "/" <= lines[i].path
  }

  /** Each node has one row of its own, and no two of those share a path. */
  ghost predicate DistinctPaths(lines: seq<Line>) {
    forall i, j :: 0 <= i < j < |lines| && !lines[i].CloseRow? && !lines[j].CloseRow? ==> lines[i].path != lines[j].path
  }

  lemma BelowChild(s: string, path: string, segment: string)
    requires AtOrBelow(s, path + "/" + segment)
    ensures path + "/" <= s
  {
    assert path + "/" <= path + "/" + segment;
  }

  lemma {:induction false} RowsStayBelow(name: Option<string>, node: Json, depth: nat, path: string,
                                         overrides: Overrides)
    ensures RowsAtOrBelow(Rows(name, node, depth, path, overrides), path)
    decreases node
  {
    if node.Container? {
      EntryRowsBelow(node.entries, node.isArray, depth + 1, path, overrides);
    }
  }

  lemma {:induction false} EntryRowsBelow(entries: seq<Entry>, isArray: bool, depth: nat, path: string,
                                          overrides: Overrides)
    ensures RowsBelow(EntryRows(entries, isArray, depth, path, overrides), path)
    decreases entries
  {
    if entries != [] {
      EntryBelow(entries[0], isArray, depth, path, overrides);
      EntryRowsBelow(entries[1..], isArray, depth, path, overrides);
    }
  }

  lemma {:induction false} EntryBelow(e: Entry, isArray: bool, depth: nat, path: string, overrides: Overrides)
    ensures RowsAtOrBelow(RowsOf(e, isArray, depth, path, overrides), ChildPath(path, isArray, e.key))
    ensures RowsBelow(RowsOf(e, isArray, depth, path, overrides), path)
    decreases e
  {
    var lines := RowsOf(e, isArray, depth, path, overrides);
    RowsStayBelow(Some(e.key), e.value, depth, ChildPath(path, isArray, e.key), overrides);
    forall i | 0 <= i < |lines|
      ensures path + "/" <= lines[i].path
    {
      BelowChild(lines[i].path, path, if isArray then e.key else EscapeKey(e.key));
    }
  }

  function UpToSlash(t: string): string {
    if t == [] || t[0] == '/' then [] else [t[0]] + UpToSlash(t[1..])
  }

  lemma {:induction false} SegmentOf(t: string, a: string)
    requires '/' !in a && AtOrBelow(t, a)
    ensures UpToSlash(t) == a
  {
    if a == [] {
      assert t == [] || t[0] == "/"[0];
    } else {
      assert t[0] == a[0] && a[0] in a;
      assert t != a ==> (a + "/")[1..] == a[1..] + "/";
      SegmentOf(t[1..], a[1..]);
      assert a == [a[0]] + a[1..];
    }
  }

  /** A path below a node says which entry it is in: the segment after the
      node's own path, up to the next slash. */
  lemma SegmentBelow(s: string, path: string, a: string)
    requires '/' !in a && AtOrBelow(s, path + "/" + a)
    ensures |path| + 1 <= |s| && UpToSlash(s[|path| + 1..]) == a
  {
    var p := path + "/" + a;
    assert p[|path| + 1..] == a;
    if s != p {
      assert s[..|p| + 1] == p + "/";
      assert s[|path| + 1..][..|a| + 1] == a + "/";
    }
    SegmentOf(s[|path| + 1..], a);
  }

  /** The key of the entry a path below a node lies in. */
  function KeyBelow(s: string, path: string): string {
    if |path| + 1 <= |s| then UnescapeKey(UpToSlash(s[|path| + 1..])) else ""
  }

  /** The entries of a well-formed container, or the last few of them. */
  ghost predicate GoodEntries(entries: seq<Entry>, isArray: bool) {
    && DistinctKeys(entries) && AllWellFormed(entries)
    && (isArray ==> forall i :: 0 <= i < |entries| ==> IsDigits(entries[i].key))
  }

  lemma ContainerHasGoodEntries(node: Json)
    requires node.Container? && WellFormed(node)
    ensures GoodEntries(node.entries, node.isArray)
  {
    forall i | 0 <= i < |node.entries| && node.isArray
      ensures IsDigits(node.entries[i].key)
    {
      DecimalIsDigits(i);
    }
  }

  lemma RestIsGood(entries: seq<Entry>, isArray: bool)
    requires entries != [] && GoodEntries(entries, isArray)
    ensures GoodEntries(entries[1..], isArray) && WellFormed(entries[0].value)
    ensures isArray ==> IsDigits(entries[0].key)
    ensures forall i :: 0 <= i < |entries[1..]| ==> entries[1..][i].key != entries[0].key
  {
    assert EntryWellFormed(entries[0]);
    forall i | 0 <= i < |entries[1..]|
      ensures entries[1..][i].key != entries[0].key
    {
      assert entries[1..][i] == entries[i + 1];
    }
  }

  lemma ChildPathEscaped(path: string, isArray: bool, key: string)
    requires isArray ==> IsDigits(key)
    ensures ChildPath(path, isArray, key) == path + "/" + EscapeKey(key)
  {
    if isArray {
      DigitsUnescaped(key);
    }
  }

  lemma KeyOfPath(s: string, path: string, isArray: bool, key: string)
    requires isArray ==> IsDigits(key)
    requires AtOrBelow(s, ChildPath(path, isArray, key))
    ensures KeyBelow(s, path) == key && path + "/" <= s
  {
    ChildPathEscaped(path, isArray, key);
    EscapeNoSlash(key);
    EscapeRoundTrip(key);
    SegmentBelow(s, path, EscapeKey(key));
    BelowChild(s, path, EscapeKey(key));
  }

  ghost predicate KeyAmong(key: string, entries: seq<Entry>) {
    exists k :: 0 <= k < |entries| && entries[k].key == key
  }

  /** Every row under a container says, by its path, which entry it is for. */
  lemma EntryRowKey(e: Entry, isArray: bool, depth: nat, path: string, overrides: Overrides, i: nat)
    requires isArray ==> IsDigits(e.key)
    requires i < |RowsOf(e, isArray, depth, path, overrides)|
    ensures KeyBelow(RowsOf(e, isArray, depth, path, overrides)[i].path, path) == e.key
  {
    EntryBelow(e, isArray, depth, path, overrides);
    KeyOfPath(RowsOf(e, isArray, depth, path, overrides)[i].path, path, isArray, e.key);
  }

  lemma {:induction false} EntryRowsKeys(entries: seq<Entry>, isArray: bool, depth: nat, path: string,
                                         overrides: Overrides, i: nat)
    requires GoodEntries(entries, isArray) && i < |EntryRows(entries, isArray, depth, path, overrides)|
    ensures KeyAmong(KeyBelow(EntryRows(entries, isArray, depth, path, overrides)[i].path, path), entries)
  {
    var head := RowsOf(entries[0], isArray, depth, path, overrides);
    RestIsGood(entries, isArray);
    if i < |head| {
      EntryRowKey(entries[0], isArray, depth, path, overrides, i);
    } else {
      EntryRowsKeys(entries[1..], isArray, depth, path, overrides, i - |head|);
      var line := EntryRows(entries, isArray, depth, path, overrides)[i];
      var k :| 0 <= k < |entries[1..]| && entries[1..][k].key == KeyBelow(line.path, path);
      assert entries[k + 1].key == KeyBelow(line.path, path);
    }
  }

  /** Rows of one entry and rows of the entries after it never share a path. */
  lemma EntriesApart(entries: seq<Entry>, isArray: bool, depth: nat, path: string, overrides: Overrides, i: nat, j: nat)
    requires entries != [] && GoodEntries(entries, isArray)
    requires i < |RowsOf(entries[0], isArray, depth, path, overrides)|
    requires j < |EntryRows(entries[1..], isArray, depth, path, overrides)|
    ensures KeyBelow(RowsOf(entries[0], isArray, depth, path, overrides)[i].path, path)
         != KeyBelow(EntryRows(entries[1..], isArray, depth, path, overrides)[j].path, path)
  {
    RestIsGood(entries, isArray);
    EntryRowKey(entries[0], isArray, depth, path, overrides, i);
    EntryRowsKeys(entries[1..], isArray, depth, path, overrides, j);
  }

  lemma DistinctConcat(a: seq<Line>, b: seq<Line>)
    requires DistinctPaths(a) && DistinctPaths(b)
    requires forall i, j :: 0 <= i < |a| && 0 <= j < |b| ==> a[i].path != b[j].path
    ensures DistinctPaths(a + b)
  {
  }

  /** Paths identify nodes: no two of them share one. */
  lemma {:induction false} PathsDistinct(name: Option<string>, node: Json, depth: nat, path: string,
                                         overrides: Overrides)
    requires WellFormed(node)
    ensures DistinctPaths(Rows(name, node, depth, path, overrides))
    decreases node
  {
    var lines := Rows(name, node, depth, path, overrides);
    if node.Container? && lines[0].expanded {
      var inner := EntryRows(node.entries, node.isArray, depth + 1, path, overrides);
      ContainerHasGoodEntries(node);
      EntryPathsDistinct(node.entries, node.isArray, depth + 1, path, overrides);
      EntryRowsBelow(node.entries, node.isArray, depth + 1, path, overrides);
      assert forall i :: 0 <= i < |inner| ==> path + "/" <= inner[i].path && inner[i].path != path;
      DistinctConcat([lines[0]], inner);
      assert lines == [lines[0]] + inner + [lines[|lines| - 1]];
    }
  }

  lemma {:induction false} EntryPathsDistinct(entries: seq<Entry>, isArray: bool, depth: nat, path: string,
                                              overrides: Overrides)
    requires GoodEntries(entries, isArray)
    ensures DistinctPaths(EntryRows(entries, isArray, depth, path, overrides))
    decreases entries
  {
    if entries != [] {
      var head := RowsOf(entries[0], isArray, depth, path, overrides);
      var tail := EntryRows(entries[1..], isArray, depth, path, overrides);
      RestIsGood(entries, isArray);
      EntryPathDistinct(entries[0], isArray, depth, path, overrides);
      EntryPathsDistinct(entries[1..], isArray, depth, path, overrides);
      forall i, j | 0 <= i < |head| && 0 <= j < |tail|
        ensures head[i].path != tail[j].path
      {
        EntriesApart(entries, isArray, depth, path, overrides, i, j);
      }
      DistinctConcat(head, tail);
    }
  }

  lemma {:induction false} EntryPathDistinct(e: Entry, isArray: bool, depth: nat, path: string, overrides: Overrides)
    requires WellFormed(e.value)
    ensures DistinctPaths(RowsOf(e, isArray, depth, path, overrides))
    decreases e
  {
    PathsDistinct(Some(e.key), e.value, depth, ChildPath(path, isArray, e.key), overrides);
  }

  // ----- Closing a container

  /** The open row of a container once it is closed. */
  function Collapsed(row: Line): Line
    requires row.OpenRow?
  {
    row.(expanded := false, weight := OpenWeight(row.name, false, row.entryCount))
  }

  /** Closing a path leaves every node alone that is not at that path. */
  lemma {:induction false} Unaffected(name: Option<string>, node: Json, depth: nat, path: string, overrides: Overrides,
                                      closed: string)
    requires !AtOrBelow(closed, path)
    ensures Rows(name, node, depth, path, overrides[closed := false]) == Rows(name, node, depth, path, overrides)
    decreases node
  {
    if node.Container? {
      EntriesUnaffected(node.entries, node.isArray, depth + 1, path, overrides, closed);
    }
  }

  lemma {:induction false} EntriesUnaffected(entries: seq<Entry>, isArray: bool, depth: nat, path: string,
                                             overrides: Overrides, closed: string)
    requires !(path + "/" <= closed) || (GoodEntries(entries, isArray) && !KeyAmong(KeyBelow(closed, path), entries))
    ensures EntryRows(entries, isArray, depth, path, overrides[closed := false])
         == EntryRows(entries, isArray, depth, path, overrides)
    decreases entries
  {
    if entries != [] {
      if path + "/" <= closed {
        RestIsGood(entries, isArray);
        TailLacksKey(entries, KeyBelow(closed, path));
      }
      EntryUnaffected(entries[0], isArray, depth, path, overrides, closed);
      EntriesUnaffected(entries[1..], isArray, depth, path, overrides, closed);
    }
  }

  lemma TailLacksKey(entries: seq<Entry>, key: string)
    requires entries != [] && !KeyAmong(key, entries)
    ensures entries[0].key != key && !KeyAmong(key, entries[1..])
  {
    forall k | 0 <= k < |entries[1..]|
      ensures entries[1..][k].key != key
    {
      assert entries[1..][k] == entries[k + 1];
    }
  }

  lemma {:induction false} EntryUnaffected(e: Entry, isArray: bool, depth: nat, path: string, overrides: Overrides,
                                           closed: string)
    requires !(path + "/" <= closed) || ((isArray ==> IsDigits(e.key)) && KeyBelow(closed, path) != e.key)
    ensures RowsOf(e, isArray, depth, path, overrides[closed := false]) == RowsOf(e, isArray, depth, path, overrides)
    decreases e
  {
    var child := ChildPath(path, isArray, e.key);
    if AtOrBelow(closed, child) {
      BelowChild(closed, path, if isArray then e.key else EscapeKey(e.key));
      KeyOfPath(closed, path, isArray, e.key);
    } else {
      Unaffected(Some(e.key), e.value, depth, child, overrides, closed);
    }
  }

  /** `after` is `before` with the open row `i` collapsed and everything from
      there through its matching close row `j` taken out. */
  ghost predicate CollapsesTo(before: seq<Line>, i: nat, j: nat, after: seq<Line>) {
    && i < j < |before|
    && before[i].OpenRow? && before[i].expanded
    && before[j] == CloseRow(before[i].path, before[i].depth, before[i].isArray, 1)
    && (forall k :: i < k < j ==> before[i].path + "/" <= before[k].path)
    && after == before[..i] + [Collapsed(before[i])] + before[j + 1..]
  }

  lemma CollapseLeft(before: seq<Line>, post: seq<Line>, i: nat, j: nat, after: seq<Line>,
                     whole: seq<Line>, whole': seq<Line>)
    requires CollapsesTo(before, i, j, after)
    requires whole == before + post && whole' == after + post
    ensures CollapsesTo(whole, i, j, whole')
  {
    TakeDrop(before, post, i, j);
    assert forall k :: i < k < j ==> whole[k] == before[k];
    Regroup(before[..i], Collapsed(before[i]), before[j + 1..], post);
  }

  lemma TakeDrop(a: seq<Line>, b: seq<Line>, i: nat, j: nat)
    requires i < j < |a|
    ensures (a + b)[..i] == a[..i] && (a + b)[j + 1..] == a[j + 1..] + b
    ensures (a + b)[i] == a[i] && (a + b)[j] == a[j]
  {
  }

  lemma Regroup(a: seq<Line>, row: Line, b: seq<Line>, post: seq<Line>)
    ensures (a + [row] + b) + post == a + [row] + (b + post)
  {
  }

  lemma CollapseRight(pre: seq<Line>, before: seq<Line>, i: nat, j: nat, after: seq<Line>,
                      whole: seq<Line>, at: nat, to: nat, whole': seq<Line>)
    requires CollapsesTo(before, i, j, after)
    requires whole == pre + before && whole' == pre + after && at == |pre| + i && to == |pre| + j
    ensures CollapsesTo(whole, at, to, whole')
  {
    assert whole[..at] == pre + before[..i];
    assert whole[to + 1..] == before[j + 1..];
    forall k | at < k < to
      ensures before[i].path + "/" <= whole[k].path
    {
      assert whole[k] == before[k - |pre|];
    }
  }

  /** Closing a container that is on screen removes exactly the rows from below
      its open row through its matching close row, and changes nothing else but
      that open row. */
  lemma {:induction false} CollapseIsLocal(name: Option<string>, node: Json, depth: nat, path: string,
                                           overrides: Overrides, i: nat, closed: string, overrides': Overrides)
    returns (j: nat)
    requires WellFormed(node)
    requires i < |Rows(name, node, depth, path, overrides)|
    requires var row := Rows(name, node, depth, path, overrides)[i];
             row.OpenRow? && row.expanded && closed == row.path && overrides' == overrides[closed := false]
    ensures CollapsesTo(Rows(name, node, depth, path, overrides), i, j, Rows(name, node, depth, path, overrides'))
    decreases node
  {
    if i == 0 {
      j := CollapseItself(name, node, depth, path, overrides, overrides');
    } else {
      j := CollapseInside(name, node, depth, path, overrides, i, closed, overrides');
    }
  }

  lemma CollapseItself(name: Option<string>, node: Json, depth: nat, path: string, overrides: Overrides,
                       overrides': Overrides)
    returns (j: nat)
    requires Rows(name, node, depth, path, overrides)[0].OpenRow?
    requires Rows(name, node, depth, path, overrides)[0].expanded
    requires overrides' == overrides[path := false]
    ensures CollapsesTo(Rows(name, node, depth, path, overrides), 0, j, Rows(name, node, depth, path, overrides'))
  {
    var before := Rows(name, node, depth, path, overrides);
    var inner := EntryRows(node.entries, node.isArray, depth + 1, path, overrides);
    EntryRowsBelow(node.entries, node.isArray, depth + 1, path, overrides);
    j := |before| - 1;
    assert forall k :: 0 < k < j ==> before[k] == inner[k - 1];
  }

  /** A container that shows its entries, and would still do so. */
  lemma OpenRows(name: Option<string>, node: Json, depth: nat, path: string, overrides: Overrides)
    requires node.Container? && depth < MAX_RENDER_DEPTH && IsNodeExpanded(overrides, path)
    ensures Rows(name, node, depth, path, overrides)
         == [OpenRow(path, depth, name, node.isArray, true, |node.entries|, OpenWeight(name, true, |node.entries|))]
            + (EntryRows(node.entries, node.isArray, depth + 1, path, overrides)
               + [CloseRow(path, depth, node.isArray, 1)])
  {
  }

  lemma {:induction false} CollapseInside(name: Option<string>, node: Json, depth: nat, path: string,
                                          overrides: Overrides, i: nat, closed: string, overrides': Overrides)
    returns (j: nat)
    requires WellFormed(node)
    requires 0 < i < |Rows(name, node, depth, path, overrides)|
    requires var row := Rows(name, node, depth, path, overrides)[i];
             row.OpenRow? && row.expanded && closed == row.path && overrides' == overrides[closed := false]
    ensures CollapsesTo(Rows(name, node, depth, path, overrides), i, j, Rows(name, node, depth, path, overrides'))
    decreases node, 0
  {
    OpenRows(name, node, depth, path, overrides);
    var inner := EntryRows(node.entries, node.isArray, depth + 1, path, overrides);
    var inner' := EntryRows(node.entries, node.isArray, depth + 1, path, overrides');
    EntryRowsBelow(node.entries, node.isArray, depth + 1, path, overrides);
    assert closed == inner[i - 1].path && path + "/" <= closed;
    OpenRows(name, node, depth, path, overrides');
    ContainerHasGoodEntries(node);
    var k := CollapseInEntries(node.entries, node.isArray, depth + 1, path, overrides, i - 1, closed, overrides');
    var last := [CloseRow(path, depth, node.isArray, 1)];
    CollapseLeft(inner, last, i - 1, k, inner', inner + last, inner' + last);
    j := k + 1;
    CollapseRight([Rows(name, node, depth, path, overrides)[0]], inner + last, i - 1, k, inner' + last,
                  Rows(name, node, depth, path, overrides), i, j, Rows(name, node, depth, path, overrides'));
  }

  lemma {:induction false} CollapseInEntries(entries: seq<Entry>, isArray: bool, depth: nat, path: string,
                                             overrides: Overrides, i: nat, closed: string, overrides': Overrides)
    returns (j: nat)
    requires GoodEntries(entries, isArray)
    requires i < |EntryRows(entries, isArray, depth, path, overrides)|
    requires var row := EntryRows(entries, isArray, depth, path, overrides)[i];
             row.OpenRow? && row.expanded && closed == row.path && overrides' == overrides[closed := false]
    ensures CollapsesTo(EntryRows(entries, isArray, depth, path, overrides), i, j,
                        EntryRows(entries, isArray, depth, path, overrides'))
    decreases entries
  {
    var n := |RowsOf(entries[0], isArray, depth, path, overrides)|;
    RowAt(entries, isArray, depth, path, overrides, i);
    if i < n {
      j := CollapseInFirst(entries, isArray, depth, path, overrides, i, closed, overrides');
    } else {
      j := CollapseInRest(entries, isArray, depth, path, overrides, i, closed, overrides');
    }
  }

  lemma RowAt(entries: seq<Entry>, isArray: bool, depth: nat, path: string, overrides: Overrides, i: nat)
    requires i < |EntryRows(entries, isArray, depth, path, overrides)|
    ensures entries != []
    ensures var head := RowsOf(entries[0], isArray, depth, path, overrides);
            var tail := EntryRows(entries[1..], isArray, depth, path, overrides);
            EntryRows(entries, isArray, depth, path, overrides)[i] == if i < |head| then head[i] else tail[i - |head|]
    ensures |EntryRows(entries, isArray, depth, path, overrides)|
         == |RowsOf(entries[0], isArray, depth, path, overrides)|
            + |EntryRows(entries[1..], isArray, depth, path, overrides)|
  {
  }

  lemma {:induction false} CollapseInFirst(entries: seq<Entry>, isArray: bool, depth: nat, path: string,
                                           overrides: Overrides, i: nat, closed: string, overrides': Overrides)
    returns (j: nat)
    requires entries != [] && GoodEntries(entries, isArray)
    requires i < |RowsOf(entries[0], isArray, depth, path, overrides)|
    requires var row := RowsOf(entries[0], isArray, depth, path, overrides)[i];
             row.OpenRow? && row.expanded && closed == row.path && overrides' == overrides[closed := false]
    ensures CollapsesTo(EntryRows(entries, isArray, depth, path, overrides), i, j,
                        EntryRows(entries, isArray, depth, path, overrides'))
    decreases entries, 0
  {
    var head := RowsOf(entries[0], isArray, depth, path, overrides);
    var head' := RowsOf(entries[0], isArray, depth, path, overrides');
    var tail := EntryRows(entries[1..], isArray, depth, path, overrides);
    RestIsGood(entries, isArray);
    EntryRowKey(entries[0], isArray, depth, path, overrides, i);
    EntriesUnaffected(entries[1..], isArray, depth, path, overrides, closed);
    j := CollapseInEntry(entries[0], isArray, depth, path, overrides, i, closed, overrides');
    CollapseLeft(head, tail, i, j, head',
                 EntryRows(entries, isArray, depth, path, overrides),
                 EntryRows(entries, isArray, depth, path, overrides'));
  }

  lemma FirstUnaffected(entries: seq<Entry>, isArray: bool, depth: nat, path: string, overrides: Overrides, i: nat,
                        closed: string)
    requires entries != [] && GoodEntries(entries, isArray)
    requires i < |EntryRows(entries[1..], isArray, depth, path, overrides)|
    requires closed == EntryRows(entries[1..], isArray, depth, path, overrides)[i].path
    ensures GoodEntries(entries[1..], isArray)
    ensures RowsOf(entries[0], isArray, depth, path, overrides[closed := false])
         == RowsOf(entries[0], isArray, depth, path, overrides)
  {
    RestIsGood(entries, isArray);
    EntryRowsKeys(entries[1..], isArray, depth, path, overrides, i);
    EntryUnaffected(entries[0], isArray, depth, path, overrides, closed);
  }

  lemma {:induction false} CollapseInRest(entries: seq<Entry>, isArray: bool, depth: nat, path: string,
                                          overrides: Overrides, i: nat, closed: string, overrides': Overrides)
    returns (j: nat)
    requires entries != [] && GoodEntries(entries, isArray)
    requires var n := |RowsOf(entries[0], isArray, depth, path, overrides)|;
             n <= i < n + |EntryRows(entries[1..], isArray, depth, path, overrides)|
    requires var n := |RowsOf(entries[0], isArray, depth, path, overrides)|;
             var row := EntryRows(entries[1..], isArray, depth, path, overrides)[i - n];
             row.OpenRow? && row.expanded && closed == row.path && overrides' == overrides[closed := false]
    ensures CollapsesTo(EntryRows(entries, isArray, depth, path, overrides), i, j,
                        EntryRows(entries, isArray, depth, path, overrides'))
    decreases entries, 0
  {
    var head := RowsOf(entries[0], isArray, depth, path, overrides);
    FirstUnaffected(entries, isArray, depth, path, overrides, i - |head|, closed);
    var k := CollapseInEntries(entries[1..], isArray, depth, path, overrides, i - |head|, closed, overrides');
    j := |head| + k;
    CollapseRight(head, EntryRows(entries[1..], isArray, depth, path, overrides), i - |head|, k,
                  EntryRows(entries[1..], isArray, depth, path, overrides'),
                  EntryRows(entries, isArray, depth, path, overrides), i, j,
                  EntryRows(entries, isArray, depth, path, overrides'));
  }

  lemma {:induction false} CollapseInEntry(e: Entry, isArray: bool, depth: nat, path: string, overrides: Overrides,
                                           i: nat, closed: string, overrides': Overrides)
    returns (j: nat)
    requires WellFormed(e.value)
    requires i < |RowsOf(e, isArray, depth, path, overrides)|
    requires var row := RowsOf(e, isArray, depth, path, overrides)[i];
             row.OpenRow? && row.expanded && closed == row.path && overrides' == overrides[closed := false]
    ensures CollapsesTo(RowsOf(e, isArray, depth, path, overrides), i, j, RowsOf(e, isArray, depth, path, overrides'))
    decreases e
  {
    j := CollapseIsLocal(Some(e.key), e.value, depth, ChildPath(path, isArray, e.key), overrides, i, closed,
                         overrides');
  }
}
