/** Vocabulary shared by every component: optional values, and sums over the
    integer-valued maps that the fetch engine keeps per partition. */
module Common {
  datatype Option<+T> = None | Some(value: T) {
    function GetOr(default: T): T {
      if Some? then value else default
    }
  }

  function Min(a: int, b: int): int {
    if a <= b then a else b
  }

  function Max(a: int, b: int): int {
    if a >= b then a else b
  }

  function Sum(s: seq<int>): int {
    if s == [] then 0 else s[0] + Sum(s[1..])
  }

  lemma {:induction false} SumAppend(a: seq<int>, b: seq<int>)
    ensures Sum(a + b) == Sum(a) + Sum(b)
  {
    if a == [] {
      assert a + b == b;
    } else {
      SumAppend(a[1..], b);
      assert (a + b)[1..] == a[1..] + b;
    }
  }

  lemma SomeMember<T>(s: set<T>) returns (x: T)
    requires |s| > 0
    ensures x in s
  {
    x :| x in s;
  }

  /** Sum of a map's values, in whatever order they are visited. */
  ghost function SumValues<K>(m: map<K, int>): int {
    if m == map[] then 0
    else
      var k :| k in m;
      m[k] + SumValues(m - {k})
  }

  /** The order does not matter: any key may be split off first. */
  lemma {:induction false} SumValuesSplit<K>(m: map<K, int>, k: K)
    requires k in m
    ensures SumValues(m) == m[k] + SumValues(m - {k})
    decreases |m|
  {
    var first :| first in m && SumValues(m) == m[first] + SumValues(m - {first});
    if first != k {
      SumValuesSplit(m - {first}, k);
      SumValuesSplit(m - {k}, first);
      assert m - {first} - {k} == m - {k} - {first};
    }
  }

  lemma SumValuesUpdate<K>(m: map<K, int>, k: K, v: int)
    requires k in m
    ensures SumValues(m[k := v]) == SumValues(m) - m[k] + v
  {
    SumValuesSplit(m, k);
    SumValuesSplit(m[k := v], k);
    assert m[k := v] - {k} == m - {k};
  }

  lemma {:induction false} SumValuesNonNegative<K>(m: map<K, int>)
    requires forall k :: k in m ==> 0 <= m[k]
    ensures 0 <= SumValues(m)
    ensures forall k :: k in m ==> m[k] <= SumValues(m)
    decreases |m|
  {
    forall k | k in m
      ensures 0 <= m[k] <= SumValues(m)
    {
      SumValuesSplit(m, k);
      SumValuesNonNegative(m - {k});
    }
    if m != map[] {
      var k :| k in m;
      assert m[k] <= SumValues(m);
    }
  }

  /** Adding up a map's values in whatever order they come. */
  method AddUp<K(==)>(m: map<K, int>) returns (total: int)
    ensures total == SumValues(m)
  {
    total := 0;
    var rest := m;
    while rest.Keys != {}
      invariant total + SumValues(rest) == SumValues(m)
      decreases |rest|
    {
      var k :| k in rest.Keys;
      SumValuesSplit(rest, k);
      total := total + rest[k];
      OneKeyLess(rest, k);
      rest := rest - {k};
    }
    assert rest == map[];
  }

  lemma OneKeyLess<K, V>(m: map<K, V>, k: K)
    requires k in m
    ensures |m - {k}| == |m| - 1
  {
    assert (m - {k}).Keys == m.Keys - {k};
    assert |m.Keys - {k}| == |m.Keys| - 1;
  }
}

/** The few facts of Euclidean division that the fetch engine relies on, each
    small enough for the verifier's nonlinear arithmetic. */
module Division {
  lemma Identity(x: nat, n: nat)
    requires n > 0
    ensures x == x / n * n + x % n
    ensures 0 <= x % n < n && 0 <= x / n
  {
  }

  lemma AtMostMultiple(q: nat, n: nat)
    requires n > 0
    ensures q <= q * n
  {
  }

  lemma ScaleUp(a: nat, b: nat, n: nat)
    requires a <= b
    ensures a * n <= b * n
  {
  }

  lemma Bounds(x: nat, n: nat)
    requires n > 0
    ensures 0 <= x / n <= x
    ensures x / n * n <= x < x / n * n + n
  {
    Identity(x, n);
    AtMostMultiple(x / n, n);
  }

  lemma QuotientAtLeast(x: nat, n: nat, level: nat)
    requires n > 0 && level * n <= x
    ensures level <= x / n
  {
    Bounds(x, n);
    if x / n < level {
      ScaleUp(x / n + 1, level, n);
    }
  }

  lemma QuotientAtMost(x: nat, n: nat, level: nat)
    requires n > 0 && x < level * n + n
    ensures x / n <= level
  {
    Bounds(x, n);
    assert (level + 1) * n == level * n + n;
    if level < x / n {
      ScaleUp(level + 1, x / n, n);
    }
  }

  /** Quotient and remainder are determined by the identity. */
  lemma Unique(x: nat, n: nat, q: nat, r: nat)
    requires 0 < n && r < n && x == q * n + r
    ensures x / n == q && x % n == r
  {
    QuotientAtLeast(x, n, q);
    QuotientAtMost(x, n, q);
    Identity(x, n);
  }

  // ----- The same by counting, for proofs that need no multiplication

  /** `q` lots of `n`. */
  function Times(q: nat, n: nat): nat {
    if q == 0 then 0 else Times(q - 1, n) + n
  }

  /** How many lots of `n` there are in `x`. */
  function Quotient(x: nat, n: nat): nat
    requires n > 0
  {
    if x < n then 0 else Quotient(x - n, n) + 1
  }

  lemma {:induction false} QuotientIs(x: nat, n: nat)
    requires n > 0
    ensures Quotient(x, n) == x / n
  {
    if x < n {
      Unique(x, n, 0, x);
    } else {
      QuotientIs(x - n, n);
      OneLotMore(x - n, n);
    }
  }

  lemma OneLotMore(x: nat, n: nat)
    requires n > 0
    ensures (x + n) / n == x / n + 1
  {
    var q, r := x / n, x % n;
    Identity(x, n);
    assert (q + 1) * n == q * n + n;
    Unique(x + n, n, q + 1, r);
  }

  lemma {:induction false} Lots(x: nat, n: nat)
    requires n > 0
    ensures Times(Quotient(x, n), n) <= x < Times(Quotient(x, n), n) + n
    ensures Quotient(x, n) <= x
  {
    if x >= n {
      Lots(x - n, n);
    }
  }

  lemma {:induction false} TimesGrows(a: nat, b: nat, n: nat)
    requires a <= b
    ensures Times(a, n) <= Times(b, n)
    ensures a < b ==> Times(a, n) + n <= Times(b, n)
  {
    if a < b {
      TimesGrows(a, b - 1, n);
    }
  }

  lemma LotsAtLeast(x: nat, n: nat, level: nat)
    requires n > 0 && Times(level, n) <= x
    ensures level <= Quotient(x, n)
  {
    Lots(x, n);
    if Quotient(x, n) < level {
      TimesGrows(Quotient(x, n), level, n);
    }
  }

  lemma LotsAtMost(x: nat, n: nat, level: nat)
    requires n > 0 && x < Times(level, n) + n
    ensures Quotient(x, n) <= level
  {
    Lots(x, n);
    if level < Quotient(x, n) {
      TimesGrows(level, Quotient(x, n), n);
    }
  }

  /** One lot from each of `n`, or `q` each from one fewer and `q` more. */
  lemma {:induction false} OneSharerLess(q: nat, n: nat)
    requires n > 0
    ensures Times(q, n) == Times(q, n - 1) + q
  {
    if q > 0 {
      OneSharerLess(q - 1, n);
    }
  }

  lemma {:induction false} TimesNothing(q: nat)
    ensures Times(q, 0) == 0
  {
    if q > 0 {
      TimesNothing(q - 1);
    }
  }

  lemma {:induction false} TimesAdd(a: nat, b: nat, n: nat)
    ensures Times(a + b, n) == Times(a, n) + Times(b, n)
  {
    if b > 0 {
      TimesAdd(a, b - 1, n);
    }
  }

  lemma {:induction false} TimesAtLeast(q: nat, n: nat)
    requires n > 0
    ensures q <= Times(q, n)
  {
    if q > 0 {
      TimesAtLeast(q - 1, n);
    }
  }
}
