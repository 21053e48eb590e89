// Sums of a function over a sequence of reals.
module Sums {

  function SumOf(s: seq<real>, f: real -> real): real {
    if s == [] then 0.0 else SumOf(s[..|s| - 1], f) + f(s[|s| - 1])
  }

  function Same(): (f: real -> real)
    ensures forall x :: f(x) == x
  {
    x => x
  }

  function Total(s: seq<real>): real {
    SumOf(s, Same())
  }

  function Times(x: real, y: real): real {
    x * y
  }

  lemma Step(n: real, v: real, p: real)
    requires p == n * v
    ensures (n + 1.0) * v == p + v
  {
  }

  lemma Spread(n: real, t: real, v: real)
    ensures n * (t + v) == n * t + n * v
  {
  }

  lemma {:induction false} SumAppend(a: seq<real>, b: seq<real>, f: real -> real)
    ensures SumOf(a + b, f) == SumOf(a, f) + SumOf(b, f)
  {
    if b == [] {
      assert a + b == a;
    } else {
      var front := b[..|b| - 1];
      assert (a + b)[..|a + b| - 1] == a + front;
      SumAppend(a, front, f);
    }
  }
}
