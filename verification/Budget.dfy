/** Splitting a total message budget over partitions
    (`distribute_total_budget` in backend/kafka/src/messages.rs).

    The loop hands each partition, smallest window first, an equal share of
    what is left, and then gives out any remainder one message at a time.
    `Fill` is the first pass on its own; the lemmas show that it is already
    exact, max-min fair and monotone, so the second pass never changes
    anything. */
module Budget {
  import opened Common
  import Division

  /** Sort key of the source: window first, partition id to break ties. */
  predicate Before(a: (int, int), b: (int, int)) {
    a.1 < b.1 || (a.1 == b.1 && a.0 < b.0)
  }

  ghost predicate Sorted(s: seq<(int, int)>) {
    forall i, j :: 0 <= i < j < |s| ==> Before(s[i], s[j])
  }

  /** The entries of `s` are those of `m`; with `Sorted`, each occurs once. */
  ghost predicate Lists(s: seq<(int, int)>, m: map<int, int>) {
    forall e :: e in s <==> e in m.Items
  }

  lemma {:induction false} ListsLength(s: seq<(int, int)>, m: map<int, int>)
    requires Sorted(s) && Lists(s, m)
    ensures |s| == |m|
  {
    if s == [] {
      assert m.Items == {};
      assert |m.Items| == |m|;
    } else {
      assert s[0] in m.Items;
      ListsTail(s, m);
      ListsLength(s[1..], m - {s[0].0});
    }
  }

  lemma FirstIsLeast(s: seq<(int, int)>, e: (int, int))
    requires Sorted(s) && e in s
    ensures e == s[0] || Before(s[0], e)
  {
  }

  /** Two sorted listings of one map are the same sequence. */
  lemma {:induction false} SortedUnique(s: seq<(int, int)>, t: seq<(int, int)>, m: map<int, int>)
    requires Sorted(s) && Sorted(t) && Lists(s, m) && Lists(t, m)
    ensures s == t
    decreases |m|
  {
    ListsLength(s, m);
    ListsLength(t, m);
    if s != [] {
      assert s[0] in m.Items && t[0] in m.Items;
      FirstIsLeast(s, t[0]);
      FirstIsLeast(t, s[0]);
      ListsTail(s, m);
      ListsTail(t, m);
      SortedUnique(s[1..], t[1..], m - {s[0].0});
      assert s == [s[0]] + s[1..] && t == [t[0]] + t[1..];
    }
  }

  lemma ListsTail(s: seq<(int, int)>, m: map<int, int>)
    requires Sorted(s) && Lists(s, m) && s != []
    ensures s[0].0 in m && Sorted(s[1..]) && Lists(s[1..], m - {s[0].0})
    ensures |m - {s[0].0}| == |m| - 1
  {
    var m' := m - {s[0].0};
    assert s[0] in m.Items;
    forall e
      ensures e in s[1..] <==> e in m'.Items
    {
      assert e in s <==> e == s[0] || e in s[1..];
      assert e in s[1..] ==> Before(s[0], e);
      assert e in m'.Items <==> e in m.Items && e.0 != s[0].0;
      assert e in m.Items && e.0 == s[0].0 ==> e == s[0];
    }
    assert m'.Keys == m.Keys - {s[0].0};
    assert |m.Keys - {s[0].0}| == |m.Keys| - 1;
  }

  function InsertAt(s: seq<(int, int)>, i: nat, e: (int, int)): seq<(int, int)>
    requires i <= |s|
  {
    s[..i] + [e] + s[i..]
  }

  lemma InsertKeepsSorted(s: seq<(int, int)>, i: nat, e: (int, int))
    requires i <= |s| && Sorted(s)
    requires forall j :: 0 <= j < i ==> Before(s[j], e)
    requires forall j :: i <= j < |s| ==> Before(e, s[j])
    ensures Sorted(InsertAt(s, i, e))
  {
  }

  lemma InsertLists(s: seq<(int, int)>, i: nat, e: (int, int), m: map<int, int>)
    requires i <= |s| && Lists(s, m) && e.0 !in m
    ensures Lists(InsertAt(s, i, e), m[e.0 := e.1])
  {
    var t := InsertAt(s, i, e);
    forall x
      ensures x in t <==> x in m[e.0 := e.1].Items
    {
      assert x in s <==> x in s[..i] || x in s[i..] by { assert s == s[..i] + s[i..]; }
      assert x in t <==> x == e || x in s;
    }
  }

  /** Where `e` belongs in the sorted `s`. */
  method FindSlot(s: seq<(int, int)>, e: (int, int)) returns (i: nat)
    requires Sorted(s) && forall j :: 0 <= j < |s| ==> s[j].0 != e.0
    ensures i <= |s|
    ensures forall j :: 0 <= j < i ==> Before(s[j], e)
    ensures forall j :: i <= j < |s| ==> Before(e, s[j])
  {
    i := 0;
    while i < |s| && Before(s[i], e)
      invariant 0 <= i <= |s|
      invariant forall j :: 0 <= j < i ==> Before(s[j], e)
    {
      i := i + 1;
    }
    AllLaterAfter(s, i, e);
  }

  /** `by_window.sort_by_key(..)`, as an insertion sort over the entries. */
  method SortByWindow(m: map<int, int>) returns (s: seq<(int, int)>)
    ensures Sorted(s) && Lists(s, m)
  {
    s := [];
    var rest := m;
    while rest.Keys != {}
      invariant rest.Keys <= m.Keys && forall p :: p in rest ==> rest[p] == m[p]
      invariant Sorted(s) && Lists(s, m - rest.Keys)
      decreases |rest|
    {
      var entry :| entry in rest.Items;
      assert forall j :: 0 <= j < |s| ==> s[j] in (m - rest.Keys).Items;
      var i := FindSlot(s, entry);
      InsertKeepsSorted(s, i, entry);
      InsertLists(s, i, entry, m - rest.Keys);
      MoveOver(m, rest, entry.0);
      s := InsertAt(s, i, entry);
      rest := rest - {entry.0};
    }
    assert m - rest.Keys == m;
  }

  lemma MoveOver(m: map<int, int>, rest: map<int, int>, p: int)
    requires p in rest && rest.Keys <= m.Keys
    ensures (m - rest.Keys)[p := m[p]] == m - (rest - {p}).Keys
    ensures |rest - {p}| == |rest| - 1
  {
    assert (rest - {p}).Keys == rest.Keys - {p};
    assert |rest.Keys - {p}| == |rest.Keys| - 1;
  }

  lemma AllLaterAfter(s: seq<(int, int)>, i: nat, e: (int, int))
    requires Sorted(s) && i <= |s|
    requires i < |s| ==> !Before(s[i], e)
    requires forall j :: 0 <= j < |s| ==> s[j].0 != e.0
    ensures forall j :: i <= j < |s| ==> Before(e, s[j])
  {
    forall j | i <= j < |s|
      ensures Before(e, s[j])
    {
      assert i < j ==> Before(s[i], s[j]);
    }
  }

  /** The water-filling pass over windows in ascending order: everyone left
      gets an equal share, and no one gets more than their window. */
  function Fill(windows: seq<nat>, budget: nat): (takes: seq<nat>)
    ensures |takes| == |windows|
  {
    if windows == [] then []
    else
      var take := Take(windows[0], budget, |windows|);
      [take] + Fill(windows[1..], budget - take)
  }

  /** One partition's part: an even share, capped by the window. */
  function Take(window: nat, remaining: nat, sharers: nat): (take: nat)
    requires sharers > 0
    ensures take <= window && take <= remaining
  {
    Division.Lots(remaining, sharers);
    var share := Division.Quotient(remaining, sharers);
    if window <= share then window else share
  }

  ghost predicate Ascending(windows: seq<nat>) {
    forall i, j :: 0 <= i < j < |windows| ==> windows[i] <= windows[j]
  }

  lemma {:induction false} SumAtLeast(windows: seq<nat>, level: nat)
    requires forall i :: 0 <= i < |windows| ==> level <= windows[i]
    ensures Division.Times(level, |windows|) <= Sum(windows)
  {
    if windows == [] {
      Division.TimesNothing(level);
    } else {
      SumAtLeast(windows[1..], level);
      Division.OneSharerLess(level, |windows|);
    }
  }

  lemma {:induction false} FillZero(windows: seq<nat>)
    ensures forall i :: 0 <= i < |windows| ==> Fill(windows, 0)[i] == 0
  {
    if windows != [] {
      FillZero(windows[1..]);
    }
  }

  /** Within every window, and exactly the budget or everything there is. */
  lemma {:induction false} FillExact(windows: seq<nat>, budget: nat)
    requires Ascending(windows)
    ensures forall i :: 0 <= i < |windows| ==> Fill(windows, budget)[i] <= windows[i]
    ensures Sum(Fill(windows, budget)) == Min(budget, Sum(windows))
  {
    if windows != [] {
      var share := Division.Quotient(budget, |windows|);
      var take := if windows[0] <= share then windows[0] else share;
      Division.Lots(budget, |windows|);
      FillExact(windows[1..], budget - take);
      if share < windows[0] {
        RestSuffices(windows, budget, share);
      }
    }
  }

  /** If the first window holds more than an even share, the others together
      hold the rest of the budget. */
  lemma RestSuffices(windows: seq<nat>, budget: nat, share: nat)
    requires Ascending(windows) && windows != [] && share < windows[0]
    requires share == Division.Quotient(budget, |windows|) <= budget
    ensures budget - share <= Sum(windows[1..])
  {
    Division.Lots(budget, |windows|);
    SumAtLeast(windows[1..], share + 1);
    EnoughLeft(budget, |windows|, share);
  }

  lemma EnoughLeft(budget: nat, n: nat, share: nat)
    requires n > 0 && Division.Times(share, n) <= budget < Division.Times(share, n) + n
    ensures n == 1 ==> budget == share
    ensures share <= budget
    ensures budget - share <= Division.Times(share + 1, n - 1)
    ensures budget - share >= Division.Times(share, n - 1)
  {
    Division.OneSharerLess(share, n);
    if n == 1 {
      Division.TimesNothing(share);
    }
  }

  /** Shares never decrease along the order. */
  lemma {:induction false} FillAscends(windows: seq<nat>, budget: nat, i: nat)
    requires Ascending(windows) && i + 1 < |windows|
    ensures Fill(windows, budget)[i] <= Fill(windows, budget)[i + 1]
  {
    var share := Division.Quotient(budget, |windows|);
    var take := if windows[0] <= share then windows[0] else share;
    Division.Lots(budget, |windows|);
    if i == 0 {
      EnoughLeft(budget, |windows|, share);
      Division.LotsAtLeast(budget - take, |windows| - 1, share);
    } else {
      FillAscends(windows[1..], budget - take, i - 1);
    }
  }

  /** When no window is in the way, the split is even up to one message. */
  lemma {:induction false} FillLevel(windows: seq<nat>, budget: nat, level: nat, i: nat)
    requires i < |windows| && budget <= Division.Times(level, |windows|)
    requires forall j :: 0 <= j < |windows| ==> level <= windows[j]
    ensures Fill(windows, budget)[i] <= level
  {
    var share := Division.Quotient(budget, |windows|);
    Division.Lots(budget, |windows|);
    Division.LotsAtMost(budget, |windows|, level);
    if i > 0 {
      EnoughLeft(budget, |windows|, share);
      LevelTail(budget, |windows|, level, share);
      FillLevel(windows[1..], budget - share, level, i - 1);
    }
  }

  lemma LevelTail(budget: nat, n: nat, level: nat, share: nat)
    requires n > 0 && share <= budget <= Division.Times(level, n) && share <= level
    requires budget - share <= Division.Times(share + 1, n - 1)
    ensures budget - share <= Division.Times(level, n - 1)
  {
    if share < level {
      Division.TimesGrows(share + 1, level, n - 1);
    } else {
      Division.OneSharerLess(level, n);
    }
  }

  /** Max-min fairness: nobody is more than one message above a partition
      that was not given its whole window. */
  lemma {:induction false} FillFair(windows: seq<nat>, budget: nat, i: nat, j: nat)
    requires Ascending(windows) && i < |windows| && j < |windows|
    requires Fill(windows, budget)[i] < windows[i]
    ensures Fill(windows, budget)[j] <= Fill(windows, budget)[i] + 1
  {
    var share := Division.Quotient(budget, |windows|);
    var take := if windows[0] <= share then windows[0] else share;
    Division.Lots(budget, |windows|);
    if i > 0 && j > 0 {
      FillFair(windows[1..], budget - take, i - 1, j - 1);
    } else if j == 0 {
      FillAscendsTo(windows, budget, 0, i);
    } else {
      EnoughLeft(budget, |windows|, share);
      FillLevel(windows[1..], budget - take, share + 1, j - 1);
    }
  }

  lemma {:induction false} FillAscendsTo(windows: seq<nat>, budget: nat, i: nat, j: nat)
    requires Ascending(windows) && i <= j < |windows|
    ensures Fill(windows, budget)[i] <= Fill(windows, budget)[j]
    decreases j - i
  {
    if i < j {
      FillAscendsTo(windows, budget, i, j - 1);
      FillAscends(windows, budget, j - 1);
    }
  }

  /** A bigger budget never costs a partition anything. */
  lemma {:induction false} FillMonotone(windows: seq<nat>, budget: nat, more: nat, i: nat)
    requires i < |windows| && budget <= more
    ensures Fill(windows, budget)[i] <= Fill(windows, more)[i]
  {
    var n := |windows|;
    TakesGrow(windows[0], budget, more, n);
    if i > 0 {
      FillMonotone(windows[1..], budget - Take(windows[0], budget, n), more - Take(windows[0], more, n), i - 1);
    }
  }

  /** A bigger budget means a share no smaller, and no less left for the rest. */
  lemma TakesGrow(window: nat, budget: nat, more: nat, n: nat)
    requires n > 0 && budget <= more
    ensures Take(window, budget, n) <= Take(window, more, n)
    ensures budget - Take(window, budget, n) <= more - Take(window, more, n)
  {
    QuotientGrowth(budget, more, n);
  }

  lemma QuotientGrowth(budget: nat, more: nat, n: nat)
    requires n > 0 && budget <= more
    ensures Division.Quotient(budget, n) <= Division.Quotient(more, n)
    ensures Division.Quotient(more, n) - Division.Quotient(budget, n) <= more - budget
  {
    var d := more - budget;
    var q := Division.Quotient(budget, n);
    Division.Lots(budget, n);
    Division.LotsAtLeast(more, n, q);
    Division.TimesAdd(q, d, n);
    Division.TimesAtLeast(d, n);
    Division.LotsAtMost(more, n, q + d);
  }

  // ----- The split itself, over a map of windows

  /** `window.max(0)`, partition by partition. */
  function Clamped(windows: map<int, int>): (m: map<int, int>)
  {
    map p | p in windows :: Max(windows[p], 0)
  }

  lemma ClampedSame(windows: map<int, int>)
    requires forall p :: p in windows ==> 0 <= windows[p]
    ensures Clamped(windows) == windows
  {
    forall p | p in windows
      ensures Clamped(windows)[p] == windows[p]
    {
    }
  }

  function Column(order: seq<(int, int)>): (windows: seq<nat>) {
    seq(|order|, i requires 0 <= i < |order| => Max(order[i].1, 0))
  }

  function Row(order: seq<(int, int)>, shares: map<int, int>): (row: seq<int>) {
    seq(|order|, i requires 0 <= i < |order| => if order[i].0 in shares then shares[order[i].0] else 0)
  }

  /** `order` is how the source visits the partitions of `windows`. */
  ghost predicate Visits(order: seq<(int, int)>, windows: map<int, int>) {
    Sorted(order) && Lists(order, Clamped(windows))
  }

  /** Each entry names a partition and its window. */
  lemma VisitsInside(order: seq<(int, int)>, windows: map<int, int>)
    requires Visits(order, windows)
    ensures forall i :: 0 <= i < |order| ==> order[i].0 in windows && order[i].1 == Max(windows[order[i].0], 0)
  {
    forall i | 0 <= i < |order|
      ensures order[i].0 in windows && order[i].1 == Max(windows[order[i].0], 0)
    {
      assert order[i] in Clamped(windows).Items;
    }
  }

  /** Each partition is named. */
  lemma PlaceOf(order: seq<(int, int)>, windows: map<int, int>, p: int) returns (i: nat)
    requires Visits(order, windows) && p in windows
    ensures i < |order| && order[i] == (p, Max(windows[p], 0))
  {
    assert (p, Clamped(windows)[p]) in Clamped(windows).Items;
    i :| i < |order| && order[i] == (p, Clamped(windows)[p]);
  }

  ghost predicate NamesOnce(order: seq<(int, int)>) {
    forall i, j :: 0 <= i < j < |order| ==> order[i].0 != order[j].0
  }

  /** No partition twice, and windows in ascending order. */
  lemma VisitsInOrder(order: seq<(int, int)>, windows: map<int, int>)
    requires Visits(order, windows)
    ensures NamesOnce(order) && Ascending(Column(order))
  {
    VisitsInside(order, windows);
    forall i, j | 0 <= i < j < |order|
      ensures order[i].0 != order[j].0 && order[i].1 <= order[j].1
    {
      assert Before(order[i], order[j]);
    }
  }

  /** What `distribute_total_budget` returns for a budget: the water-filling
      pass, read back partition by partition. */
  ghost predicate IsSplit(windows: map<int, int>, budget: nat, shares: map<int, int>) {
    && shares.Keys == windows.Keys
    && exists order :: Visits(order, windows) && SplitAlong(order, windows, budget, shares)
  }

  ghost predicate SplitAlong(order: seq<(int, int)>, windows: map<int, int>, budget: nat, shares: map<int, int>)
  {
    && shares.Keys == windows.Keys
    && Row(order, shares) == Fill(Column(order), budget)
  }

  /** The sum over any map is the sum along the visiting order. */
  lemma {:induction false} SumAlong(order: seq<(int, int)>, m: map<int, int>, shares: map<int, int>)
    requires Sorted(order) && Lists(order, m) && shares.Keys == m.Keys
    ensures Sum(Row(order, shares)) == SumValues(shares)
  {
    ListsLength(order, m);
    if order == [] {
      assert m.Keys == {} by { assert |m.Keys| == |m|; }
      assert shares == map[];
    } else {
      var p := order[0].0;
      ListsTail(order, m);
      SumValuesSplit(shares, p);
      assert forall i :: 1 <= i < |order| ==> order[i] == order[1..][i - 1] && order[i] in (m - {p}).Items;
      SumAlong(order[1..], m - {p}, shares - {p});
      assert Row(order, shares)[1..] == Row(order[1..], shares - {p});
    }
  }

  /** The split honours every window and spends exactly the budget, or
      everything the partitions hold when that is less. */
  lemma SplitExact(windows: map<int, int>, budget: nat, shares: map<int, int>)
    requires IsSplit(windows, budget, shares)
    ensures forall p :: p in windows ==> 0 <= shares[p] <= Max(windows[p], 0)
    ensures SumValues(shares) == Min(budget, SumValues(Clamped(windows)))
  {
    var order: seq<(int, int)> :| Visits(order, windows) && SplitAlong(order, windows, budget, shares);
    VisitsInOrder(order, windows);
    FillExact(Column(order), budget);
    SumAlong(order, Clamped(windows), shares);
    ColumnSum(order, windows);
    forall p | p in windows
      ensures 0 <= shares[p] <= Max(windows[p], 0)
    {
      var i := PlaceOf(order, windows, p);
      assert Row(order, shares)[i] == Fill(Column(order), budget)[i];
    }
  }

  lemma ColumnSum(order: seq<(int, int)>, windows: map<int, int>)
    requires Visits(order, windows)
    ensures Sum(Column(order)) == SumValues(Clamped(windows))
  {
    VisitsInside(order, windows);
    SumAlong(order, Clamped(windows), Clamped(windows));
    assert Row(order, Clamped(windows)) == Column(order);
  }

  /** Max-min fairness over partitions. */
  lemma SplitFair(windows: map<int, int>, budget: nat, shares: map<int, int>, p: int, q: int)
    requires IsSplit(windows, budget, shares) && p in windows && q in windows
    requires shares[p] < windows[p]
    ensures shares[q] <= shares[p] + 1
  {
    var order: seq<(int, int)> :| Visits(order, windows) && SplitAlong(order, windows, budget, shares);
    VisitsInOrder(order, windows);
    var i := PlaceOf(order, windows, p);
    var j := PlaceOf(order, windows, q);
    assert Row(order, shares)[i] == shares[p] && Row(order, shares)[j] == shares[q];
    FillFair(Column(order), budget, i, j);
  }

  /** Who gets the odd ones: of two partitions the one visited later -- with the
      wider window, or the higher id if they are as wide -- never gets less. */
  lemma LaterNeverLess(windows: map<int, int>, budget: nat, shares: map<int, int>, p: int, q: int)
    requires IsSplit(windows, budget, shares) && p in windows && q in windows
    requires Max(windows[p], 0) < Max(windows[q], 0) || (Max(windows[p], 0) == Max(windows[q], 0) && p < q)
    ensures shares[p] <= shares[q]
  {
    var order: seq<(int, int)> :| Visits(order, windows) && SplitAlong(order, windows, budget, shares);
    VisitsInOrder(order, windows);
    var i := PlaceOf(order, windows, p);
    var j := PlaceOf(order, windows, q);
    assert !Before(order[j], order[i]) && order[i] != order[j];
    assert Row(order, shares)[i] == shares[p] && Row(order, shares)[j] == shares[q];
    FillAscendsTo(Column(order), budget, i, j);
  }

  /** Raising the budget never lowers any partition's share. */
  lemma SplitMonotone(windows: map<int, int>, budget: nat, shares: map<int, int>, more: nat, shares': map<int, int>)
    requires IsSplit(windows, budget, shares) && IsSplit(windows, more, shares') && budget <= more
    ensures forall p :: p in windows ==> shares[p] <= shares'[p]
  {
    var order: seq<(int, int)> :| Visits(order, windows) && SplitAlong(order, windows, budget, shares);
    var order': seq<(int, int)> :| Visits(order', windows) && SplitAlong(order', windows, more, shares');
    SortedUnique(order, order', Clamped(windows));
    forall p | p in windows
      ensures shares[p] <= shares'[p]
    {
      var i := PlaceOf(order, windows, p);
      assert Row(order, shares)[i] == shares[p] && Row(order, shares')[i] == shares'[p];
      FillMonotone(Column(order), budget, more, i);
    }
  }

  /** The split is a function of its inputs. */
  lemma SplitUnique(windows: map<int, int>, budget: nat, shares: map<int, int>, shares': map<int, int>)
    requires IsSplit(windows, budget, shares) && IsSplit(windows, budget, shares')
    ensures shares == shares'
  {
    SplitMonotone(windows, budget, shares, budget, shares');
    SplitMonotone(windows, budget, shares', budget, shares);
    assert forall p :: p in windows ==> shares[p] == shares'[p];
  }

  /** `distribute_total_budget`: no budget means the full windows; otherwise
      the windows are water-filled in ascending order. */
  method DistributeTotalBudget(windows: map<int, int>, maxTotal: Option<nat>) returns (shares: map<int, int>)
    ensures maxTotal.None? ==> shares == windows
    ensures maxTotal.Some? ==> IsSplit(windows, maxTotal.value, shares)
  {
    if maxTotal.None? {
      return windows;
    }
    var byWindow := SortByWindow(Clamped(windows));
    VisitsInside(byWindow, windows);
    var remaining;
    shares, remaining := EvenPass(windows, byWindow, maxTotal.value);
    RemainderPassIdle(byWindow, windows, maxTotal.value, shares);
    SplitBy(byWindow, windows, maxTotal.value, shares);
    shares := RemainderPass(byWindow, shares, remaining);
  }

  lemma SplitBy(order: seq<(int, int)>, windows: map<int, int>, budget: nat, shares: map<int, int>)
    requires Visits(order, windows) && SplitAlong(order, windows, budget, shares)
    ensures IsSplit(windows, budget, shares)
  {
  }

  /** Part-way through the first loop: the first `i` partitions have been given
      what the water-filling pass gives them, the others nothing yet. */
  ghost predicate PassedTo(order: seq<(int, int)>, windows: map<int, int>, budget: nat,
                           shares: map<int, int>, remaining: int, i: nat)
  {
    var takes := Fill(Column(order), budget);
    && i <= |order| && 0 <= remaining
    && shares.Keys == windows.Keys
    && remaining == budget - Sum(takes[..i])
    && takes[i..] == Fill(Column(order)[i..], remaining)
    && Row(order, shares) == takes[..i] + Zeros(|order| - i)
  }

  lemma PassBegins(order: seq<(int, int)>, windows: map<int, int>, budget: nat)
    requires Visits(order, windows)
    ensures PassedTo(order, windows, budget, map p | p in windows :: 0, budget, 0)
  {
    VisitsInside(order, windows);
    assert Column(order)[0..] == Column(order);
  }

  function Zeros(n: nat): (s: seq<int>)
    ensures |s| == n
  {
    seq(n, _ => 0)
  }

  /** Writing one more share into the row. */
  lemma RowTakes(order: seq<(int, int)>, shares: map<int, int>, takes: seq<int>, i: nat)
    requires NamesOnce(order) && i < |order| == |takes|
    requires Row(order, shares) == takes[..i] + Zeros(|order| - i)
    ensures Row(order, shares[order[i].0 := takes[i]]) == takes[..i + 1] + Zeros(|order| - i - 1)
  {
    var shares' := shares[order[i].0 := takes[i]];
    forall k | 0 <= k < |order|
      ensures Row(order, shares')[k] == (takes[..i + 1] + Zeros(|order| - i - 1))[k]
    {
      assert Row(order, shares)[k] == (takes[..i] + Zeros(|order| - i))[k];
    }
  }

  lemma PassContinues(order: seq<(int, int)>, windows: map<int, int>, budget: nat,
                      shares: map<int, int>, remaining: int, i: nat)
    requires Visits(order, windows) && i < |order| && 0 <= order[i].1 && 0 <= remaining
    requires order[i].0 in windows && PassedTo(order, windows, budget, shares, remaining, i)
    ensures var take := Take(order[i].1, remaining, |order| - i);
            PassedTo(order, windows, budget, shares[order[i].0 := take], remaining - take, i + 1)
  {
    VisitsInOrder(order, windows);
    var takes := Fill(Column(order), budget);
    FillStep(Column(order), remaining, takes, i);
    RowTakes(order, shares, takes, i);
  }

  lemma PassEnds(order: seq<(int, int)>, windows: map<int, int>, budget: nat,
                 shares: map<int, int>, remaining: int, i: nat)
    requires Visits(order, windows) && PassedTo(order, windows, budget, shares, remaining, i)
    requires i == |order| || remaining <= 0
    ensures SplitAlong(order, windows, budget, shares)
    ensures remaining == budget - SumValues(shares)
  {
    var takes := Fill(Column(order), budget);
    UnservedTail(Column(order), remaining, takes, i);
    assert Row(order, shares) == takes;
    SumAlong(order, Clamped(windows), shares);
  }

  /** One partition's turn: an even share of what is left, within its window. */
  method GiveShare(ghost windows: map<int, int>, byWindow: seq<(int, int)>, ghost maxTotal: nat,
                   shares: map<int, int>, remaining: int, sharers: int, i: nat)
    returns (shares': map<int, int>, remaining': int)
    requires Visits(byWindow, windows) && i < |byWindow| && sharers == |byWindow| - i && remaining > 0
    requires PassedTo(byWindow, windows, maxTotal, shares, remaining, i)
    ensures PassedTo(byWindow, windows, maxTotal, shares', remaining', i + 1)
  {
    VisitsInside(byWindow, windows);
    PassContinues(byWindow, windows, maxTotal, shares, remaining, i);
    var share := remaining / sharers;
    Division.QuotientIs(remaining, sharers);
    var take := if byWindow[i].1 <= share then byWindow[i].1 else share;
    shares' := shares[byWindow[i].0 := take];
    remaining' := remaining - take;
  }

  /** The first loop: an even share of what is left, smallest window first. */
  method EvenPass(windows: map<int, int>, byWindow: seq<(int, int)>, maxTotal: nat)
    returns (shares: map<int, int>, remaining: int)
    requires Visits(byWindow, windows)
    ensures SplitAlong(byWindow, windows, maxTotal, shares)
    ensures remaining == maxTotal - SumValues(shares)
  {
    shares := map p | p in windows :: 0;
    remaining := maxTotal;
    var sharers := |byWindow|;
    var i := 0;
    PassBegins(byWindow, windows, maxTotal);
    while i < |byWindow| && remaining > 0
      invariant 0 <= i <= |byWindow| && sharers == |byWindow| - i
      invariant PassedTo(byWindow, windows, maxTotal, shares, remaining, i)
    {
      shares, remaining := GiveShare(windows, byWindow, maxTotal, shares, remaining, sharers, i);
      sharers := sharers - 1;
      i := i + 1;
    }
    PassEnds(byWindow, windows, maxTotal, shares, remaining, i);
  }

  /** What the remainder pass does to a first pass: one more message each,
      in visiting order, to whoever still has room. */
  function TopUp(order: seq<(int, int)>, shares: map<int, int>, leftOver: int): map<int, int>
    requires forall i :: 0 <= i < |order| ==> order[i].0 in shares
  {
    if order == [] || leftOver <= 0 then shares
    else if shares[order[0].0] < order[0].1 then
      TopUp(order[1..], shares[order[0].0 := shares[order[0].0] + 1], leftOver - 1)
    else
      TopUp(order[1..], shares, leftOver)
  }

  /** The second loop. */
  method RemainderPass(byWindow: seq<(int, int)>, firstPass: map<int, int>, leftOver: int)
    returns (shares: map<int, int>)
    requires forall i :: 0 <= i < |byWindow| ==> byWindow[i].0 in firstPass
    ensures shares == TopUp(byWindow, firstPass, leftOver)
  {
    shares := firstPass;
    var remaining := leftOver;
    var i := 0;
    while i < |byWindow| && remaining > 0
      invariant 0 <= i <= |byWindow|
      invariant forall k :: 0 <= k < |byWindow| ==> byWindow[k].0 in shares
      invariant TopUp(byWindow[i..], shares, remaining) == TopUp(byWindow, firstPass, leftOver)
    {
      var partition, window := byWindow[i].0, byWindow[i].1;
      assert byWindow[i..][1..] == byWindow[i + 1..];
      if shares[partition] < window {
        shares := shares[partition := shares[partition] + 1];
        remaining := remaining - 1;
      }
      i := i + 1;
    }
  }

  lemma {:induction false} TopUpOfFull(order: seq<(int, int)>, shares: map<int, int>, leftOver: int)
    requires forall i :: 0 <= i < |order| ==> order[i].0 in shares
    requires forall i :: 0 <= i < |order| ==> shares[order[i].0] == order[i].1
    ensures TopUp(order, shares, leftOver) == shares
  {
    if order != [] {
      TopUpOfFull(order[1..], shares, leftOver);
    }
  }

  /** Nothing left to share means nothing for those not yet visited. */
  lemma UnservedTail(column: seq<nat>, remaining: nat, takes: seq<nat>, i: nat)
    requires i <= |column| && |takes| == |column|
    requires takes[i..] == Fill(column[i..], remaining)
    requires i == |column| || remaining == 0
    ensures forall k :: i <= k < |takes| ==> takes[k] == 0
    ensures Sum(takes[..i]) == Sum(takes)
  {
    if i < |column| {
      FillZero(column[i..]);
    }
    forall k | i <= k < |takes|
      ensures takes[k] == 0
    {
      assert takes[k] == takes[i..][k - i];
    }
    SumOfZeros(takes[i..]);
    SumAppend(takes[..i], takes[i..]);
    assert takes == takes[..i] + takes[i..];
  }

  lemma {:induction false} SumOfZeros(s: seq<int>)
    requires forall k :: 0 <= k < |s| ==> s[k] == 0
    ensures Sum(s) == 0
  {
    if s != [] {
      SumOfZeros(s[1..]);
    }
  }

  lemma FillStep(column: seq<nat>, remaining: nat, takes: seq<nat>, i: nat)
    requires i < |column| && |takes| == |column|
    requires takes[i..] == Fill(column[i..], remaining)
    ensures var take := Take(column[i], remaining, |column| - i);
            && takes[i] == take
            && takes[i + 1..] == Fill(column[i + 1..], remaining - take)
            && Sum(takes[..i + 1]) == Sum(takes[..i]) + take
  {
    assert column[i..][1..] == column[i + 1..];
    assert takes[i] == takes[i..][0];
    assert takes[i + 1..] == takes[i..][1..];
    assert takes[..i + 1] == takes[..i] + [takes[i]];
    SumAppend(takes[..i], [takes[i]]);
  }

  /** Money left over means that every window is full. */
  lemma FillIsFull(windows: seq<nat>, budget: nat)
    requires Ascending(windows) && Sum(Fill(windows, budget)) < budget
    ensures Fill(windows, budget) == windows
  {
    FillExact(windows, budget);
    EqualWhenSumsAgree(windows, Fill(windows, budget));
  }

  lemma RowOfFull(order: seq<(int, int)>, shares: map<int, int>, i: nat)
    requires i < |order| && order[i].0 in shares && 0 <= order[i].1 && Row(order, shares) == Column(order)
    ensures shares[order[i].0] == order[i].1
  {
    assert Row(order, shares)[i] == Column(order)[i];
  }

  /** The first pass alone is exact: money left over means every window is
      full, so the remainder pass finds nothing to top up. */
  lemma RemainderPassIdle(order: seq<(int, int)>, windows: map<int, int>, budget: nat, shares: map<int, int>)
    requires Visits(order, windows) && SplitAlong(order, windows, budget, shares)
    requires forall i :: 0 <= i < |order| ==> order[i].0 in shares
    ensures TopUp(order, shares, budget - SumValues(shares)) == shares
  {
    SumAlong(order, Clamped(windows), shares);
    if SumValues(shares) < budget {
      VisitsInOrder(order, windows);
      VisitsInside(order, windows);
      FillIsFull(Column(order), budget);
      forall i | 0 <= i < |order|
        ensures shares[order[i].0] == order[i].1
      {
        RowOfFull(order, shares, i);
      }
      TopUpOfFull(order, shares, budget - SumValues(shares));
    }
  }

  lemma {:induction false} EqualWhenSumsAgree(windows: seq<nat>, takes: seq<nat>)
    requires |takes| == |windows|
    requires forall i :: 0 <= i < |windows| ==> takes[i] <= windows[i]
    requires Sum(takes) >= Sum(windows)
    ensures takes == windows
  {
    if windows != [] {
      SumBelow(windows[1..], takes[1..]);
      EqualWhenSumsAgree(windows[1..], takes[1..]);
      assert windows == [windows[0]] + windows[1..] && takes == [takes[0]] + takes[1..];
    }
  }

  lemma {:induction false} SumBelow(windows: seq<nat>, takes: seq<nat>)
    requires |takes| == |windows|
    requires forall i :: 0 <= i < |windows| ==> takes[i] <= windows[i]
    ensures Sum(takes) <= Sum(windows)
  {
    if windows != [] {
      SumBelow(windows[1..], takes[1..]);
    }
  }
}
