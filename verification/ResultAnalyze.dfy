// lake_test_mini/src/result_analyze.c: summaries, their merge, and the analysis of variance.
module ResultAnalyze {
  import opened Collections
  import opened Sorting
  import opened Sums
  import opened Vectors

  function DeviationFrom(m: real): (f: real -> real)
    ensures forall x :: f(x) == x - m
  {
    x => x - m
  }

  function SquareFrom(m: real): (f: real -> real)
    ensures forall x :: f(x) == Square(x - m)
  {
    x => Square(x - m)
  }

  function Constant(c: real): (f: real -> real)
    ensures forall x :: f(x) == c
  {
    _ => c
  }

  // Sum of squared deviations from m.
  function SumSquares(s: seq<real>, m: real): real {
    SumOf(s, SquareFrom(m))
  }

  function Mean(s: seq<real>): real
    requires s != []
  {
    Total(s) / |s| as real
  }

  lemma {:induction false} ConstantSum(s: seq<real>, c: real)
    ensures SumOf(s, Constant(c)) == Times(|s| as real, c)
  {
    if s != [] {
      ConstantSum(s[..|s| - 1], c);
      Step((|s| - 1) as real, c, Times((|s| - 1) as real, c));
    }
  }

  lemma {:induction false} DeviationSum(s: seq<real>, c: real)
    ensures SumOf(s, DeviationFrom(c)) == Total(s) - SumOf(s, Constant(c))
  {
    if s != [] {
      DeviationSum(s[..|s| - 1], c);
    }
  }

  lemma MeanCentres(s: seq<real>)
    requires s != []
    ensures Times(|s| as real, Mean(s)) == Total(s)
    ensures SumOf(s, DeviationFrom(Mean(s))) == 0.0
  {
    Requotient(Total(s), |s| as real);
    ConstantSum(s, Mean(s));
    DeviationSum(s, Mean(s));
  }

  lemma SquareShift(x: real, c: real, m: real, d: real)
    requires d == c - m
    ensures Square(x - m) == Square(x - c) + 2.0 * Times(d, x - c) + Square(d)
  {
  }

  // Moving the reference point from c to m.
  lemma {:induction false} ShiftSquares(s: seq<real>, c: real, m: real, d: real)
    requires d == c - m
    ensures SumSquares(s, m)
         == SumSquares(s, c) + 2.0 * Times(d, SumOf(s, DeviationFrom(c))) + SumOf(s, Constant(Square(d)))
  {
    if s != [] {
      hide Times, Square;
      var front, x := s[..|s| - 1], s[|s| - 1];
      ShiftSquares(front, c, m, d);
      SquareShift(x, c, m, d);
      TimesAdds(d, SumOf(front, DeviationFrom(c)), x - c);
    } else {
      assert Times(d, 0.0) == 0.0;
    }
  }

  lemma TimesAdds(d: real, a: real, b: real)
    ensures Times(d, a + b) == Times(d, a) + Times(d, b)
  {
  }

  // Squares about any point: squares about the mean, plus the squared offset once per element.
  lemma AboutMean(s: seq<real>, m: real)
    requires s != []
    ensures SumSquares(s, m) == SumSquares(s, Mean(s)) + Times(|s| as real, Square(Mean(s) - m))
  {
    var d := Mean(s) - m;
    MeanCentres(s);
    ShiftSquares(s, Mean(s), m, d);
    ConstantSum(s, Square(d));
    assert Times(d, 0.0) == 0.0;
  }

  // ---------------------------------------------------------------- summaries

  datatype Summary = Summary(count: nat, mean: real, variance: real, min: real, max: real)

  const EMPTY := Summary(0, 0.0, 0.0, 0.0, 0.0)

  // The summary states the count, mean, population variance and extremes of s.
  ghost predicate Describes(st: Summary, s: seq<real>) {
    st.count == |s| &&
    if s == [] then st == EMPTY
    else
      st.mean == Mean(s) && Times(|s| as real, st.variance) == SumSquares(s, Mean(s)) &&
      st.min in s && st.max in s && forall i :: 0 <= i < |s| ==> st.min <= s[i] <= st.max
  }

  lemma OneSummary(a: Summary, b: Summary, s: seq<real>)
    requires Describes(a, s) && Describes(b, s)
    ensures a == b
  {
    if s != [] {
      CancelFactor(|s| as real, a.variance, b.variance, Times(|s| as real, a.variance), Times(|s| as real, b.variance));
    }
  }

  // The summary of two parts; the routine divides by the combined count.
  function Merge(a: Summary, b: Summary): Summary
    requires a.count + b.count > 0
  {
    var total := (a.count + b.count) as real;
    var n, k := a.count as real, b.count as real;
    var mean := (Times(n, a.mean) + Times(k, b.mean)) / total;
    var variance := (Times(n, a.variance) + Times(k, b.variance) +
                     Times(n, Square(a.mean - mean)) + Times(k, Square(b.mean - mean))) / total;
    Summary(a.count + b.count, mean, variance,
            if a.min < b.min then a.min else b.min, if a.max > b.max then a.max else b.max)
  }

  lemma MergedMean(a: Summary, b: Summary, s: seq<real>, t: seq<real>)
    requires s != [] && t != [] && Describes(a, s) && Describes(b, t)
    ensures Merge(a, b).mean == Mean(s + t)
  {
    hide Times, SumOf;
    MeanCentres(s);
    MeanCentres(t);
    SumAppend(s, t, Same());
  }

  lemma MergedVariance(a: Summary, b: Summary, s: seq<real>, t: seq<real>, m: real)
    requires s != [] && t != [] && Describes(a, s) && Describes(b, t)
    requires m == Merge(a, b).mean
    ensures Times(|s + t| as real, Merge(a, b).variance) == SumSquares(s + t, m)
  {
    hide Times, SumOf, Mean, Square;
    var n, k, total := a.count as real, b.count as real, (a.count + b.count) as real;
    var sum := Times(n, a.variance) + Times(k, b.variance) + Times(n, Square(a.mean - m)) + Times(k, Square(b.mean - m));
    TimesQuotient(total, sum);
    AboutMean(s, m);
    AboutMean(t, m);
    SumAppend(s, t, SquareFrom(m));
  }

  lemma TimesQuotient(n: real, x: real)
    requires n != 0.0
    ensures Times(n, x / n) == x
  {
    Requotient(x, n);
  }

  // Merging the summaries of two non-empty parts gives the summary of the whole.
  lemma MergeDescribes(a: Summary, b: Summary, s: seq<real>, t: seq<real>)
    requires s != [] && t != [] && Describes(a, s) && Describes(b, t)
    ensures Describes(Merge(a, b), s + t)
  {
    MergedMean(a, b, s, t);
    MergedVariance(a, b, s, t, Mean(s + t));
    hide Mean, SumSquares, Times;
    var m := Merge(a, b);
    assert m.min in s + t && m.max in s + t;
    forall i | 0 <= i < |s + t| ensures m.min <= (s + t)[i] <= m.max {
      if i < |s| {
        assert (s + t)[i] == s[i];
      } else {
        assert (s + t)[i] == t[i - |s|];
      }
    }
  }

  lemma NothingAdded(n: real, x: real, y: real)
    requires n > 0.0
    ensures Times(0.0, y) == 0.0 && (0.0 + Times(n, x)) / n == (Times(n, x) + 0.0) / n == x
  {
    Requotient(Times(n, x), n);
    CancelFactor(n, Times(n, x) / n, x, n * (Times(n, x) / n), n * x);
  }

  lemma ZeroOffset(n: real)
    ensures Times(n, Square(0.0)) == 0.0
  {
  }

  // The empty summary carries the extremes 0 and 0, so merging it in is harmless exactly when the
  // other part already reaches down to and up to zero.
  lemma MergeEmptyIff(b: Summary, t: seq<real>)
    requires t != [] && Describes(b, t)
    ensures Describes(Merge(EMPTY, b), t) <==> b.min <= 0.0 <= b.max
    ensures Describes(Merge(b, EMPTY), t) <==> b.min <= 0.0 <= b.max
  {
    MergeEmpty(b);
    hide Merge, Mean, Times, SumSquares;
    var l, r := Merge(EMPTY, b), Merge(b, EMPTY);
    if b.min > 0.0 || b.max < 0.0 {
      assert 0.0 !in t;
    }
  }

  lemma MergeEmpty(b: Summary)
    requires b.count > 0
    ensures Merge(EMPTY, b) == b.(min := if 0.0 < b.min then 0.0 else b.min, max := if 0.0 > b.max then 0.0 else b.max)
    ensures Merge(b, EMPTY) == b.(min := if b.min < 0.0 then b.min else 0.0, max := if b.max > 0.0 then b.max else 0.0)
  {
    hide Times, Square;
    var n := b.count as real;
    NothingAdded(n, b.mean, 0.0);
    NothingAdded(n, b.variance, 0.0);
    NothingAdded(n, b.mean, Square(0.0 - b.mean));
    ZeroOffset(n);
  }

  method Sum(s: seq<real>) returns (sum: real)
    ensures sum == Total(s)
  {
    sum := 0.0;
    for i := 0 to |s|
      invariant sum == Total(s[..i])
    {
      assert s[..i + 1][..i] == s[..i];
      sum := sum + s[i];
    }
    assert s[..|s|] == s;
  }

  method SumOfSquares(s: seq<real>, m: real) returns (sum: real)
    ensures sum == SumSquares(s, m)
  {
    sum := 0.0;
    for i := 0 to |s|
      invariant sum == SumSquares(s[..i], m)
    {
      assert s[..i + 1][..i] == s[..i];
      var diff := s[i] - m;
      sum := sum + Square(diff);
    }
    assert s[..|s|] == s;
  }

  lemma SortedExtremes(s: seq<real>, y: seq<real>)
    requires s != [] && multiset(s) == multiset(y) && Ascending(y)
    ensures |y| == |s| && y[0] in s && y[|y| - 1] in s
    ensures forall i :: 0 <= i < |s| ==> y[0] <= s[i] <= y[|y| - 1]
  {
    SameLength(s, y);
    assert y[0] in multiset(s) && y[|y| - 1] in multiset(s);
    forall i | 0 <= i < |s| ensures y[0] <= s[i] <= y[|y| - 1] {
      assert s[i] in multiset(y);
    }
  }

  // Count, mean, variance and extremes of the data; all zero when there is none.
  method Compute(data: array<real>) returns (st: Summary)
    ensures Describes(st, data[..])
  {
    st := EMPTY;
    if data.Length == 0 {
      return;
    }
    hide SumOf, Total;
    var s := data[..];
    var sorted := new real[data.Length](i requires 0 <= i < data.Length reads data => data[i]);
    assert sorted[..] == s;
    SortAscending(sorted);
    SortedExtremes(s, sorted[..]);
    var n := data.Length as real;
    var total := Sum(s);
    var mean := total / n;
    var ss := SumOfSquares(s, mean);
    TimesQuotient(n, ss);
    st := Summary(data.Length, mean, ss / n, sorted[0], sorted[data.Length - 1]);
  }

  // ---------------------------------------------------------------- analysis of variance

  function Flatten(groups: seq<seq<real>>): seq<real> {
    if groups == [] then [] else Flatten(groups[..|groups| - 1]) + groups[|groups| - 1]
  }

  predicate NonEmptyGroups(groups: seq<seq<real>>) {
    forall g :: 0 <= g < |groups| ==> groups[g] != []
  }

  // The mean of a group; an empty group has none, and counts for nothing in the sums below.
  function GroupMean(s: seq<real>): real {
    if s == [] then 0.0 else Mean(s)
  }

  // Squared offsets of the group means from m, weighted by group size.
  ghost function Between(groups: seq<seq<real>>, m: real): real {
    if groups == [] then 0.0
    else
      var s := groups[|groups| - 1];
      Between(groups[..|groups| - 1], m) + Times(|s| as real, Square(GroupMean(s) - m))
  }

  // Squared deviations of the elements from their own group means.
  ghost function Within(groups: seq<seq<real>>): real {
    if groups == [] then 0.0
    else
      var s := groups[|groups| - 1];
      Within(groups[..|groups| - 1]) + SumSquares(s, GroupMean(s))
  }

  lemma AboutGroupMean(s: seq<real>, m: real)
    ensures SumSquares(s, m) == SumSquares(s, GroupMean(s)) + Times(|s| as real, Square(GroupMean(s) - m))
  {
    if s == [] {
      var q := Square(GroupMean(s) - m);
      assert Times(0.0, q) == 0.0;
    } else {
      AboutMean(s, m);
    }
  }

  // The decomposition: within and between together are the squared deviations of all elements from m.
  lemma {:induction false} Decomposition(groups: seq<seq<real>>, m: real)
    ensures Within(groups) + Between(groups, m) == SumSquares(Flatten(groups), m)
  {
    if groups != [] {
      hide Times, Square, GroupMean;
      var front, s := groups[..|groups| - 1], groups[|groups| - 1];
      Decomposition(front, m);
      SumAppend(Flatten(front), s, SquareFrom(m));
      AboutGroupMean(s, m);
    }
  }

  lemma {:induction false} BetweenSign(groups: seq<seq<real>>, m: real)
    ensures Between(groups, m) >= 0.0
    ensures Between(groups, m) == 0.0 <==> forall g :: 0 <= g < |groups| && groups[g] != [] ==> Mean(groups[g]) == m
  {
    if groups != [] {
      var front, s := groups[..|groups| - 1], groups[|groups| - 1];
      BetweenSign(front, m);
      GroupTerm(s, m);
      hide Mean, Times, Square, GroupMean;
      if forall g :: 0 <= g < |front| && front[g] != [] ==> Mean(front[g]) == m {
        assert forall g :: 0 <= g < |front| ==> groups[g] == front[g];
      } else {
        var g :| 0 <= g < |front| && front[g] != [] && Mean(front[g]) != m;
        assert groups[g] == front[g];
      }
    }
  }

  lemma GroupTerm(s: seq<real>, m: real)
    ensures var t := Times(|s| as real, Square(GroupMean(s) - m));
      t >= 0.0 && (t == 0.0 <==> s == [] || Mean(s) == m)
  {
    var q := Square(GroupMean(s) - m);
    SquareSign(GroupMean(s) - m);
    if s == [] {
      assert Times(0.0, q) == 0.0;
    } else {
      WeightedSign(|s| as real, q);
      assert Mean(s) == m ==> q == 0.0;
    }
  }

  lemma {:induction false} SquaresSign(s: seq<real>, m: real)
    ensures SumSquares(s, m) >= 0.0
  {
    if s != [] {
      SquaresSign(s[..|s| - 1], m);
      SquareSign(s[|s| - 1] - m);
    }
  }

  lemma {:induction false} WithinSign(groups: seq<seq<real>>)
    ensures Within(groups) >= 0.0
  {
    if groups != [] {
      WithinSign(groups[..|groups| - 1]);
      SquaresSign(groups[|groups| - 1], GroupMean(groups[|groups| - 1]));
    }
  }

  lemma ShareInUnit(x: real, y: real, q: real)
    requires 0.0 <= x <= y && q == if y > 0.0 then x / y else 0.0
    ensures 0.0 <= q <= 1.0 && q * y == x
  {
    if y > 0.0 {
      QuotientInUnit(x, y);
      Requotient(x, y);
    }
  }

  lemma WeightedSign(n: real, q: real)
    requires n > 0.0 && q >= 0.0
    ensures Times(n, q) >= 0.0 && (q > 0.0 ==> Times(n, q) > 0.0) && (q == 0.0 ==> Times(n, q) == 0.0)
  {
    if q > 0.0 {
      ProductPositive(n, q, Times(n, q));
    }
  }

  // A sum of None is not a number: the mean of an empty group is 0 / 0, and spoils every sum it enters.
  datatype AnovaSums = AnovaSums(ssBetween: Option<real>, ssWithin: real, ssTotal: Option<real>,
                                 dfBetween: int, dfWithin: int, etaSquared: real)

  const NO_ANOVA := AnovaSums(Some(0.0), 0.0, Some(0.0), 0, 0, 0.0)

  method GrandTotal(groups: seq<seq<real>>) returns (sum: real, count: nat)
    ensures sum == Total(Flatten(groups)) && count == |Flatten(groups)|
  {
    sum, count := 0.0, 0;
    for g := 0 to |groups|
      invariant sum == Total(Flatten(groups[..g])) && count == |Flatten(groups[..g])|
    {
      assert groups[..g + 1][..g] == groups[..g];
      SumAppend(Flatten(groups[..g]), groups[g], Same());
      var s := Sum(groups[g]);
      sum := sum + s;
      count := count + |groups[g]|;
    }
    assert groups[..|groups|] == groups;
  }

  method BetweenGroups(groups: seq<seq<real>>, m: real) returns (ss: Option<real>)
    ensures ss == if NonEmptyGroups(groups) then Some(Between(groups, m)) else None
  {
    ss := Some(0.0);
    for g := 0 to |groups|
      invariant ss == if NonEmptyGroups(groups[..g]) then Some(Between(groups[..g], m)) else None
    {
      assert groups[..g + 1][..g] == groups[..g];
      assert groups[..g + 1] == groups[..g] + [groups[g]];
      if groups[g] == [] {
        assert groups[..g + 1][g] == [];
        ss := None;
      } else {
        var s := Sum(groups[g]);
        var diff := s / |groups[g]| as real - m;
        ss := if ss.Some? then Some(ss.value + Times(|groups[g]| as real, Square(diff))) else None;
        EmptyAmong(groups, g);
      }
    }
    assert groups[..|groups|] == groups;
  }

  lemma EmptyAmong(groups: seq<seq<real>>, g: nat)
    requires g < |groups| && groups[g] != []
    ensures NonEmptyGroups(groups[..g + 1]) <==> NonEmptyGroups(groups[..g])
  {
    if NonEmptyGroups(groups[..g + 1]) {
      assert forall k :: 0 <= k < g ==> groups[..g][k] == groups[..g + 1][k];
    } else {
      var k :| 0 <= k < g + 1 && groups[..g + 1][k] == [];
      assert groups[..g][k] == [];
    }
  }

  // An empty group has no element to deviate from its mean.
  method WithinGroups(groups: seq<seq<real>>) returns (ss: real)
    ensures ss == Within(groups)
  {
    ss := 0.0;
    for g := 0 to |groups|
      invariant ss == Within(groups[..g])
    {
      assert groups[..g + 1][..g] == groups[..g];
      if groups[g] != [] {
        var s := Sum(groups[g]);
        var q := SumOfSquares(groups[g], s / |groups[g]| as real);
        ss := ss + q;
      }
    }
    assert groups[..|groups|] == groups;
  }

  // The reported total is the squared deviation of all elements from the grand mean, unless a group
  // is empty: then it and the between sum are not numbers, and eta squared is reported as 0.
  method Anova(groups: seq<seq<real>>) returns (r: AnovaSums)
    ensures |groups| < 2 || Flatten(groups) == [] ==> r == NO_ANOVA
    ensures |groups| >= 2 && Flatten(groups) != [] ==>
      var all := Flatten(groups);
      r.ssWithin == Within(groups) && r.dfBetween + r.dfWithin == |all| - 1 && r.dfBetween == |groups| - 1 &&
      if NonEmptyGroups(groups) then
        r.ssTotal == Some(SumSquares(all, Mean(all))) && r.ssBetween == Some(Between(groups, Mean(all))) &&
        0.0 <= r.etaSquared <= 1.0 && r.etaSquared * r.ssTotal.value == r.ssBetween.value
      else r.ssTotal == r.ssBetween == None && r.etaSquared == 0.0
  {
    r := NO_ANOVA;
    if |groups| < 2 {
      return;
    }
    var grandSum, totalN := GrandTotal(groups);
    if totalN == 0 {
      return;
    }
    var grandMean := grandSum / totalN as real;
    var ssBetween := BetweenGroups(groups, grandMean);
    var ssWithin := WithinGroups(groups);
    if ssBetween == None {
      return AnovaSums(None, ssWithin, None, |groups| - 1, totalN - |groups|, 0.0);
    }
    Decomposition(groups, grandMean);
    BetweenSign(groups, grandMean);
    WithinSign(groups);
    var ssTotal := ssBetween.value + ssWithin;
    var etaSquared := if ssTotal > 0.0 then ssBetween.value / ssTotal else 0.0;
    ShareInUnit(ssBetween.value, ssTotal, etaSquared);
    r := AnovaSums(ssBetween, ssWithin, Some(ssTotal), |groups| - 1, totalN - |groups|, etaSquared);
  }
}
