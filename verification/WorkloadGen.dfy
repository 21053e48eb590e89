// lake_test_mini/src/workload_gen.c: the Gini coefficient of key popularity.
module WorkloadGen {
  import opened Collections
  import opened Sorting
  import opened Sums
  import opened Vectors

  const HIST_LIMIT: nat := 100001

  // ---------------------------------------------------------------- gaps

  function GapFrom(v: real): (f: real -> real)
    ensures forall x :: f(x) == Abs(v - x)
  {
    x => Abs(v - x)
  }

  // Sum of |y_i - y_j| over the unordered pairs.
  function PairGaps(s: seq<real>): real {
    if s == [] then 0.0 else PairGaps(s[..|s| - 1]) + SumOf(s[..|s| - 1], GapFrom(s[|s| - 1]))
  }

  lemma WithoutFront(s: seq<real>, k: nat)
    requires k < |s| - 1
    ensures var r := Without(s, k); r != [] && r[..|r| - 1] == Without(s[..|s| - 1], k) && r[|r| - 1] == s[|s| - 1]
  {
  }

  lemma WithoutMultiset(s: seq<real>, k: nat)
    requires k < |s|
    ensures multiset(Without(s, k)) == multiset(s) - multiset{s[k]}
  {
    assert s == s[..k] + [s[k]] + s[k + 1..];
  }

  lemma {:induction false} SumRemove(s: seq<real>, k: nat, f: real -> real)
    requires k < |s|
    ensures SumOf(s, f) == SumOf(Without(s, k), f) + f(s[k])
  {
    if k == |s| - 1 {
      assert Without(s, k) == s[..k];
    } else {
      SumRemove(s[..|s| - 1], k, f);
      WithoutFront(s, k);
    }
  }

  lemma {:induction false} PairRemove(s: seq<real>, k: nat)
    requires k < |s|
    ensures PairGaps(s) == PairGaps(Without(s, k)) + SumOf(Without(s, k), GapFrom(s[k]))
  {
    if k == |s| - 1 {
      assert Without(s, k) == s[..k];
    } else {
      var front, y := s[..|s| - 1], s[|s| - 1];
      PairRemove(front, k);
      WithoutFront(s, k);
      SumRemove(front, k, GapFrom(y));
      assert GapFrom(y)(s[k]) == GapFrom(s[k])(y);
      var r := Without(s, k);
      assert SumOf(r, GapFrom(s[k])) == SumOf(Without(front, k), GapFrom(s[k])) + GapFrom(s[k])(y);
      assert PairGaps(r) == PairGaps(Without(front, k)) + SumOf(Without(front, k), GapFrom(y));
    }
  }

  lemma FrontMultiset(s: seq<real>)
    requires s != []
    ensures multiset(s[..|s| - 1]) == multiset(s) - multiset{s[|s| - 1]}
  {
    assert s == s[..|s| - 1] + [s[|s| - 1]];
  }

  // The last element of a, found in b.
  lemma Matching(a: seq<real>, b: seq<real>) returns (k: nat)
    requires a != [] && multiset(a) == multiset(b)
    ensures k < |b| && b[k] == a[|a| - 1] && multiset(a[..|a| - 1]) == multiset(Without(b, k))
  {
    hide Without;
    var x := a[|a| - 1];
    assert x in multiset(b) by {
      assert x in multiset(a);
    }
    k :| 0 <= k < |b| && b[k] == x;
    WithoutMultiset(b, k);
    FrontMultiset(a);
  }

  lemma {:induction false} SumPermutes(a: seq<real>, b: seq<real>, f: real -> real)
    requires multiset(a) == multiset(b)
    ensures SumOf(a, f) == SumOf(b, f)
  {
    if a == [] {
      SameLength(a, b);
    } else {
      var k := Matching(a, b);
      SumRemove(b, k, f);
      SumPermutes(a[..|a| - 1], Without(b, k), f);
    }
  }

  // The pairwise gaps do not depend on the order of the values.
  lemma {:induction false} PairPermutes(a: seq<real>, b: seq<real>)
    requires multiset(a) == multiset(b)
    ensures PairGaps(a) == PairGaps(b)
  {
    if a == [] {
      SameLength(a, b);
    } else {
      var k := Matching(a, b);
      PairRemove(b, k);
      PairPermutes(a[..|a| - 1], Without(b, k));
      SumPermutes(a[..|a| - 1], Without(b, k), GapFrom(b[k]));
    }
  }

  // ---------------------------------------------------------------- the coefficient

  // Half the relative mean absolute difference: the Gini coefficient of the values.
  function MeanDifference(s: seq<real>): real {
    if |s| as real * Total(s) == 0.0 then 0.0 else PairGaps(s) / (|s| as real * Total(s))
  }

  ghost predicate NonNegative(s: seq<real>) {
    forall i :: 0 <= i < |s| ==> s[i] >= 0.0
  }

  lemma MeanDifferencePermutes(a: seq<real>, b: seq<real>)
    requires multiset(a) == multiset(b)
    ensures MeanDifference(a) == MeanDifference(b)
  {
    hide SumOf, PairGaps, Total;
    SameLength(a, b);
    SumPermutes(a, b, Same());
    PairPermutes(a, b);
    TotalIs(a);
    TotalIs(b);
    var t := Total(a);
    assert Total(b) == t;
  }

  lemma TotalIs(s: seq<real>)
    ensures Total(s) == SumOf(s, Same())
  {
  }

  lemma {:induction false} TotalSign(s: seq<real>)
    requires NonNegative(s)
    ensures Total(s) >= 0.0
    ensures s != [] && (forall i :: 0 <= i < |s| ==> s[i] > 0.0) ==> Total(s) > 0.0
  {
    if s != [] {
      TotalSign(s[..|s| - 1]);
    }
  }

  // The gaps to v are at most v and the value together.
  lemma {:induction false} GapsBound(s: seq<real>, v: real)
    requires NonNegative(s) && v >= 0.0
    ensures 0.0 <= SumOf(s, GapFrom(v)) <= Times(|s| as real, v) + Total(s)
  {
    if s == [] {
      assert Times(0.0, v) == 0.0;
    } else {
      var front := s[..|s| - 1];
      GapsBound(front, v);
      GapsStep(|front| as real, v);
      hide Times;
      assert Total(s) == Total(front) + s[|s| - 1];
    }
  }

  lemma GapsStep(n: real, v: real)
    ensures Times(n + 1.0, v) == Times(n, v) + v
  {
    Step(n, v, n * v);
  }

  lemma RangeStep(n: real, t: real, v: real)
    ensures Times(n - 1.0, t) + (Times(n, v) + t) == Times(n, t + v)
  {
    Step(n - 1.0, t, (n - 1.0) * t);
    Spread(n, t, v);
  }

  lemma {:induction false} PairGapsRange(s: seq<real>)
    requires NonNegative(s) && s != []
    ensures 0.0 <= PairGaps(s) <= Times((|s| - 1) as real, Total(s))
  {
    if |s| == 1 {
      assert s[..0] == [] && PairGaps(s) == 0.0;
      assert Times(0.0, Total(s)) == 0.0;
    } else {
      var front, v := s[..|s| - 1], s[|s| - 1];
      PairGapsRange(front);
      GapsBound(front, v);
      RangeStep(|front| as real, Total(front), v);
      hide Times;
      assert Total(s) == Total(front) + v;
    }
  }

  lemma QuotientRange(x: real, n: real, t: real, nt: real, bound: real)
    requires n >= 1.0 && t > 0.0 && nt == n * t && bound == (n - 1.0) * t && 0.0 <= x <= bound
    ensures nt > 0.0 && 0.0 <= x / nt <= (n - 1.0) / n
  {
    ProductPositive(n, t, nt);
    var b, r := (n - 1.0) / n, x / nt;
    Requotient(n - 1.0, n);
    Requotient(x, nt);
    Reorder(b, n, t, nt, bound);
    Compare(r, b, nt, nt * r, nt * b);
    Compare(0.0, r, nt, 0.0, nt * r);
  }

  lemma Reorder(b: real, n: real, t: real, nt: real, bound: real)
    requires nt == n * t && n * b == n - 1.0 && bound == (n - 1.0) * t
    ensures nt * b == bound
  {
    assert nt * b == (n * b) * t;
  }

  lemma Compare(r: real, b: real, p: real, pr: real, pb: real)
    requires p > 0.0 && pr == p * r && pb == p * b && pr <= pb
    ensures r <= b
  {
    if r > b {
      ProductPositive(p, r - b, p * (r - b));
    }
  }

  // The coefficient of positive values lies in [0, (n - 1) / n].
  lemma GiniRange(s: seq<real>)
    requires s != [] && forall i :: 0 <= i < |s| ==> s[i] > 0.0
    ensures 0.0 <= MeanDifference(s) <= (|s| - 1) as real / |s| as real
  {
    var n, t := |s| as real, Total(s);
    TotalSign(s);
    PairGapsRange(s);
    QuotientRange(PairGaps(s), n, t, n * t, (n - 1.0) * t);
  }

  lemma {:induction false} GapsPositive(s: seq<real>, v: real)
    ensures SumOf(s, GapFrom(v)) >= 0.0
    ensures SumOf(s, GapFrom(v)) == 0.0 <==> forall i :: 0 <= i < |s| ==> s[i] == v
  {
    if s != [] {
      var front := s[..|s| - 1];
      GapsPositive(front, v);
      if forall i :: 0 <= i < |s| ==> s[i] == v {
        assert forall i :: 0 <= i < |front| ==> front[i] == s[i];
      } else if forall i :: 0 <= i < |front| ==> front[i] == v {
        assert forall i :: 0 <= i < |front| ==> s[i] == front[i];
      }
    }
  }

  // No gaps exactly when all values are equal.
  lemma {:induction false} PairGapsZeroIff(s: seq<real>)
    ensures PairGaps(s) >= 0.0
    ensures PairGaps(s) == 0.0 <==> forall i, j :: 0 <= i < j < |s| ==> s[i] == s[j]
  {
    if s != [] {
      var front, v := s[..|s| - 1], s[|s| - 1];
      PairGapsZeroIff(front);
      GapsPositive(front, v);
      if PairGaps(s) == 0.0 {
        forall i, j | 0 <= i < j < |s| ensures s[i] == s[j] {
          assert front[i] == v;
          if j < |front| {
            assert front[j] == v;
          }
        }
      }
    }
  }

  // Perfect equality, and only that, gives zero.
  lemma GiniZeroIff(s: seq<real>)
    requires s != [] && forall i :: 0 <= i < |s| ==> s[i] > 0.0
    ensures MeanDifference(s) == 0.0 <==> forall i, j :: 0 <= i < j < |s| ==> s[i] == s[j]
  {
    hide PairGaps;
    TotalSign(s);
    var nt := |s| as real * Total(s);
    ProductPositive(|s| as real, Total(s), nt);
    Requotient(PairGaps(s), nt);
    PairGapsZeroIff(s);
  }

  // ---------------------------------------------------------------- the sorted formula

  // Sum of (i + 1) * y_i.
  function RankSum(y: seq<real>): real {
    if y == [] then 0.0 else RankSum(y[..|y| - 1]) + Times(|y| as real, y[|y| - 1])
  }

  lemma {:induction false} GapsBelow(y: seq<real>, v: real, nv: real)
    requires forall i :: 0 <= i < |y| ==> y[i] <= v
    requires nv == Times(|y| as real, v)
    ensures SumOf(y, GapFrom(v)) == nv - Total(y)
  {
    if y != [] {
      var front := y[..|y| - 1];
      Step(|front| as real, v, |front| as real * v);
      GapsBelow(front, v, Times(|front| as real, v));
    }
  }

  lemma SortedStep(n: real, t: real, v: real)
    ensures Times(n, v) - t - Times(n + 1.0, t) == 2.0 * Times(n + 1.0, v) - Times(n + 2.0, t + v)
  {
    Spread(n + 2.0, t, v);
    Step(n + 1.0, t, (n + 1.0) * t);
    Step(n, v, n * v);
    Step(n + 1.0, v, (n + 1.0) * v);
  }

  lemma {:induction false} SortedPairGaps(y: seq<real>)
    requires Ascending(y)
    ensures PairGaps(y) == 2.0 * RankSum(y) - Times(|y| as real + 1.0, Total(y))
  {
    if y == [] {
      assert Total(y) == 0.0;
    } else {
      hide Times;
      var front, v := y[..|y| - 1], y[|y| - 1];
      var n, t := |front| as real, Total(front);
      SortedPairGaps(front);
      GapsBelow(front, v, Times(n, v));
      SortedStep(n, t, v);
      assert |y| as real == n + 1.0 && Total(y) == t + v;
    }
  }

  lemma SplitQuotient(a: real, c: real, n: real, t: real, nt: real, ct: real)
    requires n > 0.0 && t > 0.0 && nt == n * t && nt > 0.0 && ct == c * t
    ensures (a - ct) / nt == a / nt - c / n
  {
    Requotient(c, n);
    var q := c / n;
    assert nt * q == ct by {
      assert (n * t) * q == (n * q) * t;
    }
    Requotient(a, nt);
    Requotient(a - ct, nt);
    var u, w := a / nt, (a - ct) / nt;
    assert nt * (u - q) == nt * u - nt * q;
    CancelFactor(nt, w, u - q, nt * w, nt * (u - q));
  }

  // The formula over the sorted values is the mean difference.
  lemma SortedFormula(y: seq<real>)
    requires Ascending(y) && y != [] && forall i :: 0 <= i < |y| ==> y[i] > 0.0
    ensures |y| as real * Total(y) > 0.0
    ensures (2.0 * RankSum(y)) / (|y| as real * Total(y)) - (|y| as real + 1.0) / |y| as real == MeanDifference(y)
  {
    hide PairGaps, RankSum;
    var n, t := |y| as real, Total(y);
    TotalSign(y);
    ProductPositive(n, t, n * t);
    SortedPairGaps(y);
    SplitQuotient(2.0 * RankSum(y), n + 1.0, n, t, n * t, (n + 1.0) * t);
  }

  // ---------------------------------------------------------------- counting keys

  // The positive counts of the keys 1..h-1, in key order.
  ghost function Frequencies(keys: seq<nat>, h: nat): (r: seq<real>)
    ensures forall i :: 0 <= i < |r| ==> r[i] > 0.0
    decreases |keys|, h
  {
    if h <= 1 then []
    else if h - 1 in keys then Frequencies(keys, h - 1) + [multiset(keys)[h - 1] as real]
    else Frequencies(keys, h - 1)
  }

  // The keys the routine counts: neither 0 nor above the histogram limit.
  ghost function CountedKeys(keys: seq<nat>, h: nat): set<nat> {
    set k | k in keys && 1 <= k < h
  }

  // One frequency for each distinct counted key.
  lemma {:induction false} FrequencyPerKey(keys: seq<nat>, h: nat)
    ensures |Frequencies(keys, h)| == |CountedKeys(keys, h)|
  {
    if h <= 1 {
      assert CountedKeys(keys, h) == {};
    } else {
      FrequencyPerKey(keys, h - 1);
      if h - 1 in keys {
        assert CountedKeys(keys, h) == CountedKeys(keys, h - 1) + {h - 1};
      } else {
        assert CountedKeys(keys, h) == CountedKeys(keys, h - 1);
      }
    }
  }

  lemma {:induction false} FrequenciesPrefix(keys: seq<nat>, a: nat, b: nat)
    requires a <= b
    ensures Frequencies(keys, a) <= Frequencies(keys, b)
  {
    if a < b {
      FrequenciesPrefix(keys, a, b - 1);
    }
  }

  lemma {:induction false} FrequenciesBeyond(keys: seq<nat>, a: nat, b: nat)
    requires 1 <= a <= b && forall k :: a <= k < b ==> k !in keys
    ensures Frequencies(keys, a) == Frequencies(keys, b)
  {
    if a < b {
      FrequenciesBeyond(keys, a, b - 1);
    }
  }

  method MaxKey(keys: array<nat>) returns (maxKey: nat)
    ensures forall i :: 0 <= i < keys.Length ==> keys[i] <= maxKey
  {
    maxKey := 0;
    for i := 0 to keys.Length
      invariant forall j :: 0 <= j < i ==> keys[j] <= maxKey
    {
      if keys[i] > maxKey {
        maxKey := keys[i];
      }
    }
  }

  method Histogram(keys: array<nat>, histSize: nat) returns (freq: array<nat>)
    ensures fresh(freq) && freq.Length == histSize
    ensures forall k :: 0 <= k < histSize ==> freq[k] == multiset(keys[..])[k]
  {
    freq := new nat[histSize](_ => 0);
    for i := 0 to keys.Length
      modifies freq
      invariant forall k :: 0 <= k < histSize ==> freq[k] == multiset(keys[..i])[k]
    {
      assert keys[..i + 1] == keys[..i] + [keys[i]];
      if keys[i] < histSize {
        freq[keys[i]] := freq[keys[i]] + 1;
      }
    }
    assert keys[..keys.Length] == keys[..];
  }

  method CountUnique(ghost keys: seq<nat>, freq: array<nat>) returns (unique: nat)
    requires freq.Length >= 1 && forall k :: 0 <= k < freq.Length ==> freq[k] == multiset(keys)[k]
    ensures unique == |Frequencies(keys, freq.Length)|
  {
    unique := 0;
    for k := 1 to freq.Length
      invariant unique == |Frequencies(keys, k)|
    {
      if freq[k] > 0 {
        unique := unique + 1;
      }
    }
  }

  // The frequencies of the keys 1..histSize-1 that occur.
  method Collect(ghost keys: seq<nat>, freq: array<nat>) returns (sorted: array<real>)
    requires freq.Length >= 1 && forall k :: 0 <= k < freq.Length ==> freq[k] == multiset(keys)[k]
    ensures fresh(sorted) && sorted[..] == Frequencies(keys, freq.Length)
  {
    var unique := CountUnique(keys, freq);
    sorted := new real[unique];
    var idx, k := 0, 1;
    while k < freq.Length && idx < unique
      modifies sorted
      invariant 1 <= k <= freq.Length && idx <= unique
      invariant sorted[..idx] == Frequencies(keys, k)
    {
      FrequenciesPrefix(keys, k + 1, freq.Length);
      if freq[k] > 0 {
        sorted[idx], idx := freq[k] as real, idx + 1;
      }
      k := k + 1;
    }
    FrequenciesPrefix(keys, k, freq.Length);
    assert sorted[..idx] == sorted[..];
  }

  // ---------------------------------------------------------------- the routine

  method SumAll(a: array<real>) returns (sum: real)
    ensures sum == Total(a[..])
  {
    sum := 0.0;
    for i := 0 to a.Length
      invariant sum == Total(a[..i])
    {
      assert a[..i + 1][..i] == a[..i];
      sum := sum + a[i];
    }
    assert a[..a.Length] == a[..];
  }

  method RankSumAll(a: array<real>) returns (sum: real)
    ensures sum == RankSum(a[..])
  {
    sum := 0.0;
    for i := 0 to a.Length
      invariant sum == RankSum(a[..i])
    {
      assert a[..i + 1][..i] == a[..i];
      sum := sum + Times((i + 1) as real, a[i]);
    }
    assert a[..a.Length] == a[..];
  }

  lemma NoTotal(s: seq<real>)
    requires Total(s) == 0.0
    ensures MeanDifference(s) == 0.0
  {
  }

  lemma SomeTotal(s: seq<real>)
    requires Total(s) != 0.0
    ensures s != []
  {
  }

  method SortedGini(sorted: array<real>) returns (gini: real)
    requires Ascending(sorted[..]) && forall i :: 0 <= i < sorted.Length ==> sorted[i] > 0.0
    ensures gini == MeanDifference(sorted[..])
  {
    hide MeanDifference, Total, RankSum;
    var sumY := SumAll(sorted);
    if sumY == 0.0 {
      NoTotal(sorted[..]);
      return 0.0;
    }
    SomeTotal(sorted[..]);
    var weightedSum := RankSumAll(sorted);
    SortedFormula(sorted[..]);
    var n := sorted.Length as real;
    gini := (2.0 * weightedSum) / (n * sumY) - (n + 1.0) / n;
  }

  lemma PositivePermutes(a: seq<real>, b: seq<real>)
    requires multiset(a) == multiset(b) && forall i :: 0 <= i < |a| ==> a[i] > 0.0
    ensures forall i :: 0 <= i < |b| ==> b[i] > 0.0
  {
    forall i | 0 <= i < |b| ensures b[i] > 0.0 {
      assert b[i] in multiset(b);
      assert b[i] in a;
    }
  }

  // The coefficient of the key frequencies is their relative mean difference.
  method Gini(keys: array<nat>) returns (gini: real)
    ensures gini == MeanDifference(Frequencies(keys[..], HIST_LIMIT))
  {
    hide MeanDifference, Frequencies;
    var maxKey := MaxKey(keys);
    var histSize := if maxKey < 100000 then maxKey + 1 else HIST_LIMIT;
    var freq := Histogram(keys, histSize);
    var sorted := Collect(keys[..], freq);
    FrequenciesBeyond(keys[..], histSize, HIST_LIMIT);
    ghost var y := sorted[..];
    SortAscending(sorted);
    PositivePermutes(y, sorted[..]);
    MeanDifferencePermutes(sorted[..], y);
    gini := SortedGini(sorted);
  }

  // For any keys the coefficient lies in [0, (n - 1) / n], n the number of distinct counted keys,
  // and is zero when there are none.
  lemma KeysRange(keys: seq<nat>)
    ensures var n := |CountedKeys(keys, HIST_LIMIT)|; var g := MeanDifference(Frequencies(keys, HIST_LIMIT));
      if n == 0 then g == 0.0 else 0.0 <= g <= (n - 1) as real / n as real
  {
    hide MeanDifference, Frequencies;
    FrequencyPerKey(keys, HIST_LIMIT);
    var f := Frequencies(keys, HIST_LIMIT);
    if f == [] {
      NoTotal(f);
    } else {
      GiniRange(f);
    }
  }
}
