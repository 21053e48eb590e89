// Division facts shared by the address computations.
module Arithmetic {

  function Min(a: nat, b: nat): nat {
    if a <= b then a else b
  }

  // Dividing by a product is dividing twice.
  lemma DivideTwice(x: nat, a: nat, b: nat)
    requires a > 0 && b > 0
    ensures a * b > 0
    ensures x / (a * b) == (x / a) / b
  {
    var q, r := x / a, x % a;
    var p, t := q / b, q % b;
    DivisionLaw(x, a);
    DivisionLaw(q, b);
    ProductBound(t, b, a, r);
    Regroup(p, b, t, a);
    QuotientIs(x, a * b, p, t * a + r);
  }

  lemma DivisionLaw(x: nat, d: nat)
    requires d > 0
    ensures x == (x / d) * d + x % d && 0 <= x % d < d
  {
  }

  lemma ProductBound(t: nat, b: nat, a: nat, r: nat)
    requires t < b && r < a
    ensures t * a + r < a * b
  {
    assert t * a <= (b - 1) * a;
  }

  lemma Regroup(p: nat, b: nat, t: nat, a: nat)
    ensures (p * b + t) * a == p * (a * b) + t * a
  {
  }

  lemma QuotientIs(x: nat, d: nat, q: nat, r: nat)
    requires d > 0 && r < d && x == q * d + r
    ensures x / d == q
  {
    var e := x / d;
    Distribute(e, q, d);
    SmallMultiple(e - q, d, r - x % d);
  }

  lemma Distribute(e: int, q: int, d: int)
    ensures (e - q) * d == e * d - q * d
  {
  }

  lemma SmallMultiple(k: int, d: int, m: int)
    requires -d < m < d && k * d == m
    ensures k == 0
  {
    if k >= 1 {
      Distribute(k, 1, d);
    } else if k <= -1 {
      Distribute(k, -1, d);
    }
  }

  lemma RemainderIs(x: nat, d: nat, q: nat, r: nat)
    requires d > 0 && r < d && x == q * d + r
    ensures x % d == r
  {
    QuotientIs(x, d, q, r);
    DivisionLaw(x, d);
  }

  lemma NextRemainder(c: nat, n: nat)
    requires n > 0
    ensures (c + 1) % n == if c % n == n - 1 then 0 else c % n + 1
  {
    var q, r := c / n, c % n;
    DivisionLaw(c, n);
    if r == n - 1 {
      Distribute(q, -1, n);
      RemainderIs(c + 1, n, q + 1, 0);
    } else {
      RemainderIs(c + 1, n, q, r + 1);
    }
  }

  lemma MulMonotone(a: nat, b: nat, n: nat)
    requires a <= b
    ensures a * n <= b * n
  {
    Distribute(b, a, n);
  }

  // Position i of a ring of the given size starting at head.
  function Slot(head: nat, i: nat, size: nat): (k: nat)
    requires size > 0
    ensures k < size
  {
    (head + i) % size
  }

  lemma SlotIs(head: nat, i: nat, size: nat)
    requires head < size && i <= size
    ensures Slot(head, i, size) == if head + i < size then head + i else head + i - size
  {
    if head + i < size {
      RemainderIs(head + i, size, 0, head + i);
    } else {
      RemainderIs(head + i, size, 1, head + i - size);
    }
  }

  lemma SlotsDistinct(head: nat, i: nat, j: nat, size: nat)
    requires head < size && i < size && j < size && i != j
    ensures Slot(head, i, size) != Slot(head, j, size)
  {
    SlotIs(head, i, size);
    SlotIs(head, j, size);
  }

  // The slot after position i, and the positions seen from the slot after head.
  lemma SlotNext(head: nat, i: nat, size: nat)
    requires head < size && i < size
    ensures (Slot(head, i, size) + 1) % size == Slot(head, i + 1, size) == Slot((head + 1) % size, i, size)
  {
    SlotIs(head, i, size);
    SlotIs(head, i + 1, size);
    SlotIs(head, 1, size);
    SlotIs(Slot(head, i, size), 1, size);
    SlotIs((head + 1) % size, i, size);
  }
}
