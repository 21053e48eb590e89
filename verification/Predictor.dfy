// mini-computer-arch/src/predictor.c: the perceptron branch predictor.
//
// The bias is read as the weight of a constant input 1, so a predictor is one vector of 65 weights.
module Predictor {

  const WEIGHTS: nat := 64
  const THRESHOLD: int := (1.93 * 64.0 + 14.0).Floor

  // ---------------------------------------------------------------- integer inner products

  function Dot(a: seq<int>, b: seq<int>, n: nat): int
    requires n <= |a| && n <= |b|
  {
    if n == 0 then 0 else Dot(a, b, n - 1) + a[n - 1] * b[n - 1]
  }

  // c = p a + q b, componentwise.
  ghost predicate Combines(c: seq<int>, p: int, a: seq<int>, q: int, b: seq<int>) {
    |c| == |a| == |b| && forall j :: 0 <= j < |c| ==> c[j] == p * a[j] + q * b[j]
  }

  lemma DistributeTerm(p: int, x: int, q: int, y: int, z: int)
    ensures (p * x + q * y) * z == p * (x * z) + q * (y * z)
  {
  }

  lemma AddTerms(p: int, d: int, e: int, q: int, f: int, g: int)
    ensures (p * d + q * f) + (p * e + q * g) == p * (d + e) + q * (f + g)
  {
  }

  lemma {:induction false} DotLinear(c: seq<int>, p: int, a: seq<int>, q: int, b: seq<int>, x: seq<int>, n: nat)
    requires Combines(c, p, a, q, b) && n <= |c| && n <= |x|
    ensures Dot(c, x, n) == p * Dot(a, x, n) + q * Dot(b, x, n)
  {
    if n > 0 {
      DotLinear(c, p, a, q, b, x, n - 1);
      DistributeTerm(p, a[n - 1], q, b[n - 1], x[n - 1]);
      AddTerms(p, Dot(a, x, n - 1), a[n - 1] * x[n - 1], q, Dot(b, x, n - 1), b[n - 1] * x[n - 1]);
    }
  }

  lemma {:induction false} DotCommutes(a: seq<int>, b: seq<int>, n: nat)
    requires n <= |a| && n <= |b|
    ensures Dot(a, b, n) == Dot(b, a, n)
  {
    if n > 0 {
      DotCommutes(a, b, n - 1);
    }
  }

  // (p a + q b) . (p a + q b)
  lemma DotSquare(c: seq<int>, p: int, a: seq<int>, q: int, b: seq<int>)
    requires Combines(c, p, a, q, b)
    ensures var n := |c|;
      Dot(c, c, n) == p * (p * Dot(a, a, n) + q * Dot(a, b, n)) + q * (p * Dot(a, b, n) + q * Dot(b, b, n))
  {
    var n := |c|;
    DotLinear(c, p, a, q, b, c, n);
    DotCommutes(a, c, n);
    DotCommutes(b, c, n);
    DotLinear(c, p, a, q, b, a, n);
    DotLinear(c, p, a, q, b, b, n);
    DotCommutes(b, a, n);
  }

  lemma {:induction false} NormNonNegative(a: seq<int>, n: nat)
    requires n <= |a|
    ensures Dot(a, a, n) >= 0
    ensures Dot(a, a, n) == 0 ==> forall j :: 0 <= j < n ==> a[j] == 0
  {
    if n > 0 {
      NormNonNegative(a, n - 1);
      SquareSign(a[n - 1], a[n - 1] * a[n - 1]);
    }
  }

  lemma SquareSign(x: int, s: int)
    requires s == x * x
    ensures s >= 0 && (s == 0 ==> x == 0)
  {
  }

  lemma {:induction false} DotZero(a: seq<int>, b: seq<int>, n: nat)
    requires n <= |a| && n <= |b| && forall j :: 0 <= j < n ==> b[j] == 0
    ensures Dot(a, b, n) == 0
  {
    if n > 0 {
      DotZero(a, b, n - 1);
    }
  }

  // The square expanded with p = b.b and q = -(a.b).
  lemma Discriminant(na: int, nb: int, ab: int)
    ensures nb * (nb * na + (-ab) * ab) + (-ab) * (nb * ab + (-ab) * nb) == nb * (na * nb - ab * ab)
  {
  }

  lemma PositiveFactor(x: int, y: int)
    requires x > 0 && x * y >= 0
    ensures y >= 0
  {
  }

  // (a . b)^2 <= (a . a)(b . b)
  lemma CauchySchwarz(a: seq<int>, b: seq<int>)
    requires |a| == |b|
    ensures Dot(a, b, |a|) * Dot(a, b, |a|) <= Dot(a, a, |a|) * Dot(b, b, |a|)
  {
    var n := |a|;
    var na, nb, ab := Dot(a, a, n), Dot(b, b, n), Dot(a, b, n);
    NormNonNegative(b, n);
    if nb == 0 {
      DotZero(a, b, n);
    } else {
      var c := seq(n, j requires 0 <= j < n => nb * a[j] + (-ab) * b[j]);
      DotSquare(c, nb, a, -ab, b);
      NormNonNegative(c, n);
      Discriminant(na, nb, ab);
      PositiveFactor(nb, na * nb - ab * ab);
    }
  }

  // ---------------------------------------------------------------- the predictor as a function

  // Two's-complement wrap-around of an 8-bit weight.
  function Wrap8(x: int): int {
    (x + 128) % 256 - 128
  }

  // The one 8-bit value congruent to x.
  lemma WrapIsByte(x: int, y: int)
    ensures y == Wrap8(x) <==> -128 <= y < 128 && (x - y) % 256 == 0
  {
    var q := (x + 128) / 256;
    assert x == Wrap8(x) + 256 * q;
    if -128 <= y < 128 && (x - y) % 256 == 0 {
      var p := (x - y) / 256;
      assert x - y == 256 * p;
    }
  }

  datatype State = State(weights: seq<int>, bias: int, correct: nat, trainings: nat)

  datatype Example = Example(history: seq<int>, outcome: bool)

  // A history is one int8 per weight.
  predicate IsHistory(h: seq<int>) {
    |h| == WEIGHTS
  }

  predicate Histories(es: seq<Example>) {
    forall i :: 0 <= i < |es| ==> IsHistory(es[i].history)
  }

  function Sign(outcome: bool): int {
    if outcome then 1 else -1
  }

  function Output(s: State, h: seq<int>): int
    requires |s.weights| == WEIGHTS && IsHistory(h)
  {
    s.bias + Dot(s.weights, h, WEIGHTS)
  }

  predicate Updates(s: State, e: Example)
    requires |s.weights| == WEIGHTS && IsHistory(e.history)
  {
    var sum := Output(s, e.history);
    (sum >= 0) != e.outcome || -THRESHOLD <= sum <= THRESHOLD
  }

  // One training call.
  function Trained(s: State, e: Example): (r: State)
    requires |s.weights| == WEIGHTS && IsHistory(e.history)
    ensures |r.weights| == WEIGHTS
  {
    var c := if (Output(s, e.history) >= 0) == e.outcome then s.correct + 1 else s.correct;
    if Updates(s, e) then
      State(seq(WEIGHTS, i requires 0 <= i < WEIGHTS => Wrap8(s.weights[i] + Sign(e.outcome) * e.history[i])),
            s.bias + Sign(e.outcome), c, s.trainings + 1)
    else s.(correct := c)
  }

  const Initial: State := State(seq(WEIGHTS, i => 0), 0, 0, 0)

  function Run(s: State, es: seq<Example>): (r: State)
    requires |s.weights| == WEIGHTS && Histories(es)
    ensures |r.weights| == WEIGHTS
  {
    if es == [] then s else Trained(Run(s, es[..|es| - 1]), es[|es| - 1])
  }

  // No update of the run leaves the range of an 8-bit weight.
  ghost predicate NoWrap(s: State, es: seq<Example>)
    requires |s.weights| == WEIGHTS && Histories(es)
  {
    es == [] ||
    (var before, e := Run(s, es[..|es| - 1]), es[|es| - 1];
     NoWrap(s, es[..|es| - 1]) &&
     (Updates(before, e) ==>
        forall i :: 0 <= i < WEIGHTS ==> -128 <= before.weights[i] + Sign(e.outcome) * e.history[i] < 128))
  }

  // ---------------------------------------------------------------- the mistake bound

  function Extended(bias: int, weights: seq<int>): (r: seq<int>)
    ensures |r| == |weights| + 1
  {
    [bias] + weights
  }

  lemma {:induction false} DotExtended(x: int, a: seq<int>, y: int, b: seq<int>, n: nat)
    requires n <= |a| && n <= |b|
    ensures Dot(Extended(x, a), Extended(y, b), n + 1) == x * y + Dot(a, b, n)
  {
    if n == 0 {
      assert Dot(Extended(x, a), Extended(y, b), 1) == Dot(Extended(x, a), Extended(y, b), 0) + x * y;
    } else {
      DotExtended(x, a, y, b, n - 1);
    }
  }

  // Histories of +1 and -1.
  ghost predicate Bipolar(h: seq<int>) {
    IsHistory(h) && forall i :: 0 <= i < |h| ==> h[i] == 1 || h[i] == -1
  }

  // The weights u with bias ub classify the example with margin at least 1.
  ghost predicate Separates(ub: int, u: seq<int>, e: Example)
    requires |u| == WEIGHTS && IsHistory(e.history)
  {
    Sign(e.outcome) * (ub + Dot(u, e.history, WEIGHTS)) >= 1
  }

  // Bipolar histories that u and ub separate.
  ghost predicate Separable(es: seq<Example>, ub: int, u: seq<int>) {
    |u| == WEIGHTS && forall i :: 0 <= i < |es| ==> Bipolar(es[i].history) && Separates(ub, u, es[i])
  }

  ghost predicate AllBipolar(es: seq<Example>) {
    forall i :: 0 <= i < |es| ==> Bipolar(es[i].history)
  }

  lemma {:induction false} BipolarNorm(x: seq<int>, n: nat)
    requires n <= |x| && forall i :: 0 <= i < n ==> x[i] == 1 || x[i] == -1
    ensures Dot(x, x, n) == n
  {
    if n > 0 {
      BipolarNorm(x, n - 1);
    }
  }

  // The update in extended form: w' = w + t x.
  lemma UpdateCombines(s: State, e: Example)
    requires |s.weights| == WEIGHTS && IsHistory(e.history) && Updates(s, e)
    requires forall i :: 0 <= i < WEIGHTS ==> -128 <= s.weights[i] + Sign(e.outcome) * e.history[i] < 128
    ensures var r := Trained(s, e);
      Combines(Extended(r.bias, r.weights), 1, Extended(s.bias, s.weights), Sign(e.outcome), Extended(1, e.history))
  {
    var r := Trained(s, e);
    forall i | 0 <= i < WEIGHTS ensures r.weights[i] == s.weights[i] + Sign(e.outcome) * e.history[i] {
      WrapInRange(s.weights[i] + Sign(e.outcome) * e.history[i]);
    }
  }

  lemma WrapInRange(x: int)
    requires -128 <= x < 128
    ensures Wrap8(x) == x
  {
  }

  // What k updates do to the inner product with a separator and to the norm.
  ghost predicate Progress(s: State, ub: int, u: seq<int>)
    requires |s.weights| == WEIGHTS == |u|
  {
    var w := Extended(s.bias, s.weights);
    Dot(w, Extended(ub, u), WEIGHTS + 1) >= s.trainings &&
    Dot(w, w, WEIGHTS + 1) <= s.trainings * (2 * THRESHOLD + WEIGHTS + 1)
  }

  lemma UpdateProgress(s: State, e: Example, ub: int, u: seq<int>)
    requires |s.weights| == WEIGHTS == |u| && Bipolar(e.history) && Separates(ub, u, e) && Progress(s, ub, u)
    requires Updates(s, e)
    requires forall i :: 0 <= i < WEIGHTS ==> -128 <= s.weights[i] + Sign(e.outcome) * e.history[i] < 128
    ensures Progress(Trained(s, e), ub, u)
  {
    hide Dot, Wrap8;
    var n, t := WEIGHTS + 1, Sign(e.outcome);
    var r := Trained(s, e);
    var w, x, v, w' := Extended(s.bias, s.weights), Extended(1, e.history), Extended(ub, u), Extended(r.bias, r.weights);
    UpdateCombines(s, e);
    DotLinear(w', 1, w, t, x, v, n);
    DotExtended(1, e.history, ub, u, WEIGHTS);
    DotCommutes(e.history, u, WEIGHTS);
    DotSquare(w', 1, w, t, x);
    DotExtended(s.bias, s.weights, 1, e.history, WEIGHTS);
    BipolarNorm(x, n);
    GrowthBound(Dot(w, w, n), t, Output(s, e.history), s.trainings);
  }

  // An update adds 2 t sum + 65 to the norm, and t sum is at most the threshold.
  lemma GrowthBound(norm: int, t: int, sum: int, k: nat)
    requires t == 1 || t == -1
    requires norm <= k * (2 * THRESHOLD + WEIGHTS + 1) && t * sum <= THRESHOLD
    ensures 1 * (1 * norm + t * sum) + t * (1 * sum + t * (WEIGHTS + 1)) <= (k + 1) * (2 * THRESHOLD + WEIGHTS + 1)
  {
  }

  lemma {:induction false} RunProgress(es: seq<Example>, ub: int, u: seq<int>)
    requires Separable(es, ub, u)
    requires NoWrap(Initial, es)
    ensures Progress(Run(Initial, es), ub, u)
  {
    hide Dot, Trained, Separates;
    if es == [] {
      InitialProgress(ub, u);
    } else {
      var init, e := es[..|es| - 1], es[|es| - 1];
      RunProgress(init, ub, u);
      var s := Run(Initial, init);
      if Updates(s, e) {
        UpdateProgress(s, e, ub, u);
      } else {
        IdleProgress(s, e, ub, u);
      }
    }
  }

  lemma InitialProgress(ub: int, u: seq<int>)
    requires |u| == WEIGHTS
    ensures Progress(Initial, ub, u)
  {
    var w := Extended(0, Initial.weights);
    DotCommutes(w, Extended(ub, u), WEIGHTS + 1);
    DotZero(Extended(ub, u), w, WEIGHTS + 1);
    DotZero(w, w, WEIGHTS + 1);
  }

  lemma IdleProgress(s: State, e: Example, ub: int, u: seq<int>)
    requires |s.weights| == WEIGHTS == |u| && IsHistory(e.history) && !Updates(s, e) && Progress(s, ub, u)
    ensures Progress(Trained(s, e), ub, u)
  {
  }

  lemma CombineBounds(k: nat, g: int, norm: int, uu: int, c: int)
    requires g >= k && norm <= k * c && uu >= 0 && norm >= 0 && g * g <= norm * uu
    ensures k * k <= k * (c * uu)
  {
    assert k * k <= g * g;
    assert norm * uu <= (k * c) * uu;
  }

  lemma MulStrict(k: int, x: int, y: int)
    requires k > 0 && x < y
    ensures k * x < k * y
  {
  }

  lemma CancelPositive(k: nat, x: int)
    requires k > 0 && k * k <= k * x
    ensures k <= x
  {
    if x < k {
      MulStrict(k, x, k);
    }
  }

  // The mistake bound: on examples that some integer weights separate with margin 1, any run without
  // wrap-around trains at most 339 |u|^2 times (twice the threshold and 65), however long it is.
  lemma MistakeBound(es: seq<Example>, ub: int, u: seq<int>)
    requires Separable(es, ub, u)
    requires NoWrap(Initial, es)
    ensures Run(Initial, es).trainings <= 339 * (ub * ub + Dot(u, u, WEIGHTS))
  {
    hide Dot, Run, NoWrap;
    RunProgress(es, ub, u);
    var s := Run(Initial, es);
    var w, v, n := Extended(s.bias, s.weights), Extended(ub, u), WEIGHTS + 1;
    CauchySchwarz(w, v);
    NormNonNegative(v, n);
    NormNonNegative(w, n);
    DotExtended(ub, u, ub, u, WEIGHTS);
    if s.trainings > 0 {
      CombineBounds(s.trainings, Dot(w, v, n), Dot(w, w, n), Dot(v, v, n), 2 * THRESHOLD + WEIGHTS + 1);
      CancelPositive(s.trainings, (2 * THRESHOLD + WEIGHTS + 1) * Dot(v, v, n));
    } else {
      NonNegativeProduct(2 * THRESHOLD + WEIGHTS + 1, Dot(v, v, n));
    }
  }

  lemma NonNegativeProduct(x: int, y: int)
    requires x >= 0 && y >= 0
    ensures x * y >= 0
  {
  }

  // A weight moves by at most one a training, so wrap-around needs more than 127 trainings.
  lemma {:induction false} NoEarlyWrap(es: seq<Example>)
    requires AllBipolar(es)
    requires es != [] ==> Run(Initial, es[..|es| - 1]).trainings < 127
    ensures NoWrap(Initial, es)
    ensures forall i :: 0 <= i < WEIGHTS ==>
      -(Run(Initial, es).trainings as int) <= Run(Initial, es).weights[i] <= Run(Initial, es).trainings
  {
    hide Dot, Output;
    if es != [] {
      var init, e := es[..|es| - 1], es[|es| - 1];
      var s := Run(Initial, init);
      TrainingsGrow(init);
      NoEarlyWrap(init);
      forall i | 0 <= i < WEIGHTS
        ensures -128 <= s.weights[i] + Sign(e.outcome) * e.history[i] < 128
        ensures -(Run(Initial, es).trainings as int) <= Run(Initial, es).weights[i] <= Run(Initial, es).trainings
      {
        assert e.history[i] == 1 || e.history[i] == -1;
        WrapInRange(s.weights[i] + Sign(e.outcome) * e.history[i]);
      }
    }
  }

  lemma TrainingsGrow(es: seq<Example>)
    requires AllBipolar(es)
    ensures es != [] ==> Run(Initial, es[..|es| - 1]).trainings <= Run(Initial, es).trainings
  {
  }

  // ---------------------------------------------------------------- when training stops

  // A call leaves the weights alone exactly when the sum has the sign of the outcome and is beyond 137.
  lemma StopsBeyondThreshold(s: State, e: Example)
    requires |s.weights| == WEIGHTS && IsHistory(e.history)
    ensures Trained(s, e).trainings == s.trainings <==> Sign(e.outcome) * Output(s, e.history) > 137
    ensures Trained(s, e).trainings == s.trainings ==> Trained(s, e) == s.(correct := s.correct + 1)
  {
  }

  lemma {:induction false} RunAppends(s: State, a: seq<Example>, b: seq<Example>)
    requires |s.weights| == WEIGHTS && Histories(a) && Histories(b)
    ensures Histories(a + b) && Run(s, a + b) == Run(Run(s, a), b)
  {
    hide Trained;
    if b == [] {
      assert a + b == a;
    } else {
      RunAppends(s, a, b[..|b| - 1]);
      assert (a + b)[..|a + b| - 1] == a + b[..|b| - 1];
    }
  }

  lemma {:induction false} TrainingsRise(s: State, es: seq<Example>)
    requires |s.weights| == WEIGHTS && Histories(es)
    ensures Run(s, es).trainings >= s.trainings
  {
    if es != [] {
      TrainingsRise(s, es[..|es| - 1]);
    }
  }

  // Every example is classified beyond the threshold.
  ghost predicate Classifies(s: State, es: seq<Example>)
    requires |s.weights| == WEIGHTS && Histories(es)
  {
    forall i :: 0 <= i < |es| ==> Sign(es[i].outcome) * Output(s, es[i].history) > 137
  }

  // A pass trains nothing exactly when every one of its examples is classified beyond the threshold; then
  // all its predictions are right.
  lemma {:induction false} QuietPassIff(s: State, es: seq<Example>)
    requires |s.weights| == WEIGHTS && Histories(es)
    ensures Run(s, es).trainings == s.trainings <==> Classifies(s, es)
    ensures Classifies(s, es) ==> Run(s, es) == s.(correct := s.correct + |es|)
  {
    hide Trained, Output;
    if es != [] {
      var init, e := es[..|es| - 1], es[|es| - 1];
      QuietPassIff(s, init);
      TrainingsRise(s, init);
      var r := Run(s, init);
      StopsBeyondThreshold(r, e);
      assert Trained(r, e).trainings >= r.trainings by { TrainingsRise(r, [e]); SingleRun(r, e); }
      ClassifiesLast(s, es);
      if Classifies(s, init) {
        SameOutput(s, r, e.history);
      }
    }
  }

  lemma SingleRun(s: State, e: Example)
    requires |s.weights| == WEIGHTS && IsHistory(e.history)
    ensures Run(s, [e]) == Trained(s, e)
  {
    assert [e][..0] == [];
    assert Run(s, []) == s;
  }

  lemma SameOutput(s: State, r: State, h: seq<int>)
    requires |s.weights| == WEIGHTS && IsHistory(h) && r.weights == s.weights && r.bias == s.bias
    ensures Output(r, h) == Output(s, h)
  {
  }

  lemma ClassifiesLast(s: State, es: seq<Example>)
    requires |s.weights| == WEIGHTS && Histories(es) && es != []
    ensures var n := |es| - 1; Classifies(s, es) <==>
      Classifies(s, es[..n]) && Sign(es[n].outcome) * Output(s, es[n].history) > 137
  {
    hide Output;
    var n := |es| - 1;
    if Classifies(s, es[..n]) && Sign(es[n].outcome) * Output(s, es[n].history) > 137 {
      forall i | 0 <= i < |es| ensures Sign(es[i].outcome) * Output(s, es[i].history) > 137 {
        if i < n {
          assert es[..n][i] == es[i];
        }
      }
    }
  }

  // One example presented k times.
  function Repeated(e: Example, k: nat): (es: seq<Example>)
    ensures |es| == k && forall i :: 0 <= i < k ==> es[i] == e
  {
    seq(k, i => e)
  }

  // The state after n trainings on one example.
  ghost predicate Learnt(s: State, e: Example, n: nat) {
    |s.weights| == WEIGHTS == |e.history| && s.bias == n * Sign(e.outcome) && s.trainings == n &&
    forall i :: 0 <= i < WEIGHTS ==> s.weights[i] == n * Sign(e.outcome) * e.history[i]
  }

  lemma LearntOutput(s: State, e: Example, n: nat)
    requires Bipolar(e.history) && Learnt(s, e, n) && n <= 3
    ensures Sign(e.outcome) * Output(s, e.history) == 65 * n
  {
    var h, p := e.history, n * Sign(e.outcome);
    assert Combines(s.weights, p, h, 0, h);
    DotLinear(s.weights, p, h, 0, h, h, WEIGHTS);
    BipolarNorm(h, WEIGHTS);
  }

  lemma LearnsMore(s: State, e: Example, n: nat)
    requires Bipolar(e.history) && Learnt(s, e, n) && n < 3
    ensures Learnt(Trained(s, e), e, n + 1)
    ensures Trained(s, e).correct == s.correct + if n == 0 && !e.outcome then 0 else 1
  {
    LearntOutput(s, e, n);
    StopsBeyondThreshold(s, e);
    hide Output, Wrap8;
    var r, t := Trained(s, e), Sign(e.outcome);
    forall i | 0 <= i < WEIGHTS ensures r.weights[i] == (n + 1) * t * e.history[i] {
      WeightLearns(s.weights[i], t, e.history[i], n);
    }
  }

  lemma WeightLearns(w: int, t: int, h: int, n: nat)
    requires (t == 1 || t == -1) && (h == 1 || h == -1) && n < 3 && w == n * t * h
    ensures Wrap8(w + t * h) == (n + 1) * t * h
  {
    WrapInRange(w + t * h);
  }

  // A bipolar example presented k times from the initial state trains min(k, 3) times and then has the sum
  // 65 min(k, 3), which the third training takes beyond the threshold; only a first branch that is not
  // taken is mispredicted.
  lemma {:induction false} RepeatedExample(e: Example, k: nat)
    requires Bipolar(e.history)
    ensures var s, n := Run(Initial, Repeated(e, k)), if k < 3 then k else 3;
      s.trainings == n && Sign(e.outcome) * Output(s, e.history) == 65 * n && Learnt(s, e, n) &&
      s.correct == if e.outcome || k == 0 then k else k - 1
  {
    hide Output, Trained;
    var es := Repeated(e, k);
    if k == 0 {
      LearntOutput(Initial, e, 0);
    } else {
      assert es[..k - 1] == Repeated(e, k - 1);
      RepeatedExample(e, k - 1);
      var r := Run(Initial, Repeated(e, k - 1));
      if k <= 3 {
        LearnsMore(r, e, k - 1);
        LearntOutput(Trained(r, e), e, k);
      } else {
        StopsBeyondThreshold(r, e);
        SameOutput(r, Trained(r, e), e.history);
      }
    }
  }

  // The same examples presented k times over.
  function Passes(es: seq<Example>, k: nat): seq<Example> {
    if k == 0 then [] else Passes(es, k - 1) + es
  }

  lemma {:induction false} PassesSeparable(es: seq<Example>, ub: int, u: seq<int>, k: nat)
    requires Separable(es, ub, u)
    ensures Separable(Passes(es, k), ub, u) && Histories(Passes(es, k))
  {
    hide Separates;
    if k > 0 {
      PassesSeparable(es, ub, u, k - 1);
    }
  }

  // Each pass trains, or from the first quiet one on all examples are classified.
  lemma {:induction false} PassesTrain(es: seq<Example>, ub: int, u: seq<int>, k: nat)
    requires Separable(es, ub, u) && Histories(es)
    ensures Histories(Passes(es, k))
    ensures var s := Run(Initial, Passes(es, k)); s.trainings >= k || Classifies(s, es)
  {
    PassesSeparable(es, ub, u, k);
    hide Separable, Output, Trained;
    if k > 0 {
      PassesTrain(es, ub, u, k - 1);
      PassesSeparable(es, ub, u, k - 1);
      var s := Run(Initial, Passes(es, k - 1));
      RunAppends(Initial, Passes(es, k - 1), es);
      TrainingsRise(s, es);
      QuietPassIff(s, es);
      if Classifies(s, es) {
        StillClassifies(s, Run(s, es), es);
      }
    }
  }

  lemma StillClassifies(s: State, r: State, es: seq<Example>)
    requires |s.weights| == WEIGHTS && Histories(es) && r.weights == s.weights && r.bias == s.bias && Classifies(s, es)
    ensures Classifies(r, es)
  {
    hide Output;
    forall i | 0 <= i < |es| ensures Sign(es[i].outcome) * Output(r, es[i].history) > 137 {
      SameOutput(s, r, es[i].history);
    }
  }

  // Convergence: examples that some integer weights separate are all classified beyond the threshold after
  // more passes than the mistake bound, while no weight wraps.
  lemma Converges(es: seq<Example>, ub: int, u: seq<int>, k: nat)
    requires Separable(es, ub, u) && Histories(Passes(es, k)) && NoWrap(Initial, Passes(es, k))
    requires k > 339 * (ub * ub + Dot(u, u, WEIGHTS))
    ensures Histories(es) && Classifies(Run(Initial, Passes(es, k)), es)
  {
    PassesSeparable(es, ub, u, k);
    hide NoWrap, Dot, Run, Classifies;
    MistakeBound(Passes(es, k), ub, u);
    PassesTrain(es, ub, u, k);
  }

  // ---------------------------------------------------------------- the predictor object

  class PerceptronPredictor {
    const weights: array<int>
    const threshold: int
    var bias: int
    var predictions: nat
    var correct: nat
    var trainingIterations: nat

    ghost predicate Valid()
      reads weights
    {
      weights.Length == WEIGHTS && threshold == THRESHOLD && forall i :: 0 <= i < WEIGHTS ==> -128 <= weights[i] < 128
    }

    ghost function View(): State
      reads this, weights
    {
      State(weights[..], bias, correct, trainingIterations)
    }

    constructor ()
      ensures Valid() && View() == Initial && predictions == 0 && fresh(weights)
    {
      weights := new int[WEIGHTS](i => 0);
      threshold := (1.93 * (WEIGHTS as real) + 14.0).Floor;
      bias, predictions, correct, trainingIterations := 0, 0, 0, 0;
      new;
      assert weights[..] == Initial.weights;
    }

    method Sum(history: seq<int>) returns (sum: int)
      requires Valid() && IsHistory(history)
      ensures sum == Output(View(), history)
    {
      sum := bias;
      for i := 0 to WEIGHTS
        invariant sum == bias + Dot(weights[..], history, i)
      {
        sum := sum + weights[i] * history[i];
      }
    }

    method Predict(history: seq<int>) returns (taken: bool)
      requires Valid() && IsHistory(history)
      modifies this`predictions
      ensures Valid() && View() == old(View()) && predictions == old(predictions) + 1
      ensures taken == (Output(View(), history) >= 0)
    {
      var sum := Sum(history);
      predictions := predictions + 1;
      taken := sum >= 0;
    }

    method Train(history: seq<int>, outcome: bool)
      requires Valid() && IsHistory(history)
      modifies this`bias, this`correct, this`trainingIterations, weights
      ensures Valid() && View() == Trained(old(View()), Example(history, outcome))
    {
      ghost var s, e := View(), Example(history, outcome);
      var sum := Sum(history);
      var pred := sum >= 0;
      if pred == outcome {
        correct := correct + 1;
      }
      var t := if outcome then 1 else -1;
      if pred != outcome || (sum >= -threshold && sum <= threshold) {
        bias := bias + t;
        for i := 0 to WEIGHTS
          modifies weights
          invariant forall k :: 0 <= k < WEIGHTS ==>
            weights[k] == if k < i then Wrap8(s.weights[k] + t * history[k]) else s.weights[k]
        {
          weights[i] := Wrap8(weights[i] + t * history[i]);
        }
        trainingIterations := trainingIterations + 1;
        assert weights[..] == Trained(s, e).weights;
      }
    }
  }
}
