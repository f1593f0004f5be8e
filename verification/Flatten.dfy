/** `flattenJsonTree` as a whole (frontend/src/components/jsonTreeLines.ts): the
    rows of a document, and the few of them likeliest to be the widest. */
module Flatten {
  import opened Common
  import opened JsonTree
  import RowMeaning
  import RowNodes

  const WIDTH_CANDIDATES := 3
  const INDENT_PX := 14

  /** `estimatedWidth`. */
  function EstimatedWidth(line: Line): nat {
    line.depth * INDENT_PX + line.weight * 8
  }

  ghost predicate Rising(lines: seq<Line>) {
    forall i, j :: 0 <= i < j < |lines| ==> EstimatedWidth(lines[i]) <= EstimatedWidth(lines[j])
  }

  /** `line` in front of the first row that is no narrower. */
  function InsertByWidth(line: Line, lines: seq<Line>): (r: seq<Line>)
    ensures multiset(r) == multiset(lines) + multiset{line} && |r| == |lines| + 1
  {
    if lines == [] || EstimatedWidth(line) <= EstimatedWidth(lines[0]) then
      assert multiset([line] + lines) == multiset{line} + multiset(lines);
      [line] + lines
    else
      assert lines == [lines[0]] + lines[1..];
      [lines[0]] + InsertByWidth(line, lines[1..])
  }

  /** `best.sort(..)`, which is stable. */
  function SortByWidth(lines: seq<Line>): (r: seq<Line>)
    ensures multiset(r) == multiset(lines) && |r| == |lines|
  {
    if lines == [] then []
    else
      assert lines == [lines[0]] + lines[1..];
      InsertByWidth(lines[0], SortByWidth(lines[1..]))
  }

  ghost predicate NoWider(most: nat, lines: multiset<Line>) {
    forall line :: line in lines ==> EstimatedWidth(line) <= most
  }

  ghost predicate NoNarrower(least: nat, lines: seq<Line>) {
    forall i :: 0 <= i < |lines| ==> least <= EstimatedWidth(lines[i])
  }

  lemma ConsRises(line: Line, lines: seq<Line>)
    requires Rising(lines) && NoNarrower(EstimatedWidth(line), lines)
    ensures Rising([line] + lines)
  {
  }

  lemma {:induction false} InsertRises(line: Line, lines: seq<Line>, least: nat)
    requires Rising(lines) && NoNarrower(least, lines) && least <= EstimatedWidth(line)
    ensures Rising(InsertByWidth(line, lines)) && NoNarrower(least, InsertByWidth(line, lines))
  {
    if lines == [] || EstimatedWidth(line) <= EstimatedWidth(lines[0]) {
      ConsRises(line, lines);
    } else {
      InsertRises(line, lines[1..], EstimatedWidth(lines[0]));
      ConsRises(lines[0], InsertByWidth(line, lines[1..]));
    }
  }

  lemma {:induction false} SortRises(lines: seq<Line>)
    ensures Rising(SortByWidth(lines))
  {
    if lines != [] {
      SortRises(lines[1..]);
      InsertRises(lines[0], SortByWidth(lines[1..]), 0);
    }
  }

  /** `best` holds the widest rows of `lines`, narrowest first: as many as are
      wanted, or all there are, and no row left out is wider than one taken. */
  ghost predicate Widest(lines: seq<Line>, best: seq<Line>) {
    && Rising(best) && |best| == Min(WIDTH_CANDIDATES, |lines|)
    && exists others :: multiset(lines) == multiset(best) + others
                        && (best != [] ==> NoWider(EstimatedWidth(best[0]), others))
  }

  lemma OneMoreLine(lines: seq<Line>, i: nat)
    requires i < |lines|
    ensures multiset(lines[..i + 1]) == multiset(lines[..i]) + multiset{lines[i]}
  {
    assert lines[..i + 1] == lines[..i] + [lines[i]];
  }

  lemma PushWidest(lines: seq<Line>, i: nat, best: seq<Line>)
    requires i < |lines| && Widest(lines[..i], best) && |best| < WIDTH_CANDIDATES
    ensures Widest(lines[..i + 1], SortByWidth(best + [lines[i]]))
  {
    OneMoreLine(lines, i);
    SortRises(best + [lines[i]]);
    var others :| multiset(lines[..i]) == multiset(best) + others
                  && (best != [] ==> NoWider(EstimatedWidth(best[0]), others));
    assert |multiset(lines[..i])| == |multiset(best)| + |others|;
    assert multiset(best + [lines[i]]) == multiset(best) + multiset{lines[i]};
    assert others == multiset{};
    assert multiset(lines[..i + 1]) == multiset(SortByWidth(best + [lines[i]])) + multiset{};
  }

  lemma SkipWidest(lines: seq<Line>, i: nat, best: seq<Line>)
    requires i < |lines| && Widest(lines[..i], best) && |best| == WIDTH_CANDIDATES
    requires EstimatedWidth(lines[i]) <= EstimatedWidth(best[0])
    ensures Widest(lines[..i + 1], best)
  {
    OneMoreLine(lines, i);
    var others :| multiset(lines[..i]) == multiset(best) + others && NoWider(EstimatedWidth(best[0]), others);
    assert multiset(lines[..i + 1]) == multiset(best) + (others + multiset{lines[i]});
  }

  lemma FrontOfSorted(lines: seq<Line>, least: nat)
    requires lines != [] && NoNarrower(least, lines)
    ensures least <= EstimatedWidth(SortByWidth(lines)[0])
  {
    var front := SortByWidth(lines)[0];
    assert front in multiset(SortByWidth(lines));
    assert front in lines;
  }

  lemma Exchange(lines: multiset<Line>, line: Line, best: seq<Line>, others: multiset<Line>)
    requires best != [] && lines == multiset(best) + others
    ensures lines + multiset{line} == multiset([line] + best[1..]) + (others + multiset{best[0]})
  {
    assert best == [best[0]] + best[1..];
  }

  lemma ReplaceNarrowest(lines: seq<Line>, i: nat, best: seq<Line>)
    requires i < |lines| && Widest(lines[..i], best) && |best| == WIDTH_CANDIDATES
    requires EstimatedWidth(lines[i]) > EstimatedWidth(best[0])
    ensures Widest(lines[..i + 1], SortByWidth([lines[i]] + best[1..]))
  {
    OneMoreLine(lines, i);
    var kept := [lines[i]] + best[1..];
    SortRises(kept);
    FrontOfSorted(kept, EstimatedWidth(best[0]));
    var others :| multiset(lines[..i]) == multiset(best) + others && NoWider(EstimatedWidth(best[0]), others);
    Exchange(multiset(lines[..i]), lines[i], best, others);
    AreWidest(lines[..i + 1], SortByWidth(kept), others + multiset{best[0]}, EstimatedWidth(best[0]));
  }

  lemma AreWidest(lines: seq<Line>, best: seq<Line>, others: multiset<Line>, most: nat)
    requires Rising(best) && |best| == Min(WIDTH_CANDIDATES, |lines|) && best != []
    requires multiset(lines) == multiset(best) + others
    requires NoWider(most, others) && most <= EstimatedWidth(best[0])
    ensures Widest(lines, best)
  {
  }

  function Reversed<T>(s: seq<T>): (r: seq<T>)
    ensures |r| == |s| && forall i :: 0 <= i < |s| ==> r[i] == s[|s| - 1 - i]
  {
    if s == [] then [] else Reversed(s[1..]) + [s[0]]
  }

  /** Fourteen pixels a level and eight a character. */
  predicate NoWiderThan(a: Line, b: Line) {
    14 * a.depth + 8 * a.weight <= 14 * b.depth + 8 * b.weight
  }

  /** At most three rows, the widest first, and every other row no wider than the
      last of them. */
  ghost predicate RankedByWidth(lines: seq<Line>, widest: seq<Line>) {
    && |widest| == Min(3, |lines|)
    && (forall i, j :: 0 <= i < j < |widest| ==> NoWiderThan(widest[j], widest[i]))
    && forall k :: 0 <= k < |lines| && lines[k] !in widest ==> NoWiderThan(lines[k], widest[|widest| - 1])
  }

  lemma LeftOutIsNarrower(lines: seq<Line>, best: seq<Line>, k: nat)
    requires Widest(lines, best) && k < |lines| && lines[k] !in best
    ensures best != [] && EstimatedWidth(lines[k]) <= EstimatedWidth(best[0])
  {
    var others :| multiset(lines) == multiset(best) + others
                  && (best != [] ==> NoWider(EstimatedWidth(best[0]), others));
    assert lines[k] in multiset(lines);
    assert lines[k] in others;
  }

  lemma Rises(best: seq<Line>, a: nat, b: nat)
    requires Rising(best) && a < b < |best|
    ensures NoWiderThan(best[a], best[b])
  {
    assert EstimatedWidth(best[a]) <= EstimatedWidth(best[b]);
  }

  lemma SameRows(best: seq<Line>, widest: seq<Line>, line: Line)
    requires best == Reversed(widest) && line in best
    ensures line in widest
  {
  }

  lemma WidestIsRanked(lines: seq<Line>, best: seq<Line>, widest: seq<Line>)
    requires Widest(lines, best) && best == Reversed(widest)
    ensures RankedByWidth(lines, widest)
  {
    forall i, j | 0 <= i < j < |widest|
      ensures NoWiderThan(widest[j], widest[i])
    {
      Rises(best, |best| - 1 - j, |best| - 1 - i);
    }
    forall k | 0 <= k < |lines| && lines[k] !in widest
      ensures NoWiderThan(lines[k], widest[|widest| - 1])
    {
      if lines[k] in best {
        SameRows(best, widest, lines[k]);
      }
      LeftOutIsNarrower(lines, best, k);
    }
  }

  /** `widest`. */
  method WidestLines(lines: seq<Line>) returns (widest: seq<Line>)
    ensures Widest(lines, Reversed(widest)) && RankedByWidth(lines, widest)
  {
    var best: seq<Line> := [];
    assert multiset(lines[..0]) == multiset(best) + multiset{};
    for i := 0 to |lines|
      invariant Widest(lines[..i], best)
    {
      if |best| < WIDTH_CANDIDATES {
        PushWidest(lines, i, best);
        best := SortByWidth(best + [lines[i]]);
      } else if EstimatedWidth(lines[i]) > EstimatedWidth(best[0]) {
        ReplaceNarrowest(lines, i, best);
        best := SortByWidth([lines[i]] + best[1..]);
      } else {
        SkipWidest(lines, i, best);
      }
    }
    assert lines[..|lines|] == lines;
    widest := Reversed(best);
    assert Reversed(widest) == best;
    WidestIsRanked(lines, best, widest);
  }

  /** The rows `flattenJsonTree` hands to the view, and the widest of them. */
  method FlattenJsonTree(value: Json, overrides: Overrides) returns (lines: seq<Line>, widest: seq<Line>)
    requires WellFormed(value)
    ensures lines == Rows(None, value, 0, "", overrides) && DistinctPaths(lines)
    ensures AllShown(value, 0, "", overrides) ==> Rebuild(lines) == Some(Parsed(None, value, []))
    ensures RowMeaning.OnlyReading(value, overrides) <==> AllShown(value, 0, "", overrides)
    // each row is that of a node on screen, as deep as its path has slashes, and each of these has one
    ensures RowNodes.AllTold(lines, value, overrides)
    ensures forall i :: 0 <= i < |lines| ==> lines[i].depth == RowNodes.Slashes(lines[i].path)
    ensures forall keys :: RowNodes.NodeAt(value, keys).Some? && RowNodes.OnScreen(overrides, keys) ==>
              RowNodes.HasRow(lines, RowNodes.PathOf(keys))
    ensures Widest(lines, Reversed(widest)) && RankedByWidth(lines, widest)
  {
    lines := Walk([], None, value, 0, "", overrides);
    assert [] + Rows(None, value, 0, "", overrides) == Rows(None, value, 0, "", overrides);
    PathsDistinct(None, value, 0, "", overrides);
    FlatteningIsInvertible(value, overrides);
    RowMeaning.RowsDetermineExactly(value, overrides);
    RowNodes.RowsAreNodes(value, overrides, lines);
    widest := WidestLines(lines);
  }
}
