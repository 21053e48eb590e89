// The in-place swap sort of the statistics routines.
module Sorting {

  ghost predicate Ascending(s: seq<real>) {
    forall i, j :: 0 <= i < j < |s| ==> s[i] <= s[j]
  }

  lemma SameLength(a: seq<real>, b: seq<real>)
    requires multiset(a) == multiset(b)
    ensures |a| == |b|
  {
    assert |multiset(a)| == |a| && |multiset(b)| == |b|;
  }

  ghost predicate SortedUpTo(a: seq<real>, i: nat) {
    forall p, q :: 0 <= p < i && p < q < |a| ==> a[p] <= a[q]
  }

  lemma SwapSorts(w: seq<real>, v: seq<real>, i: nat, j: nat)
    requires i < j < |w| && SortedUpTo(w, i) && w[i] > w[j]
    requires v == w[i := w[j]][j := w[i]]
    requires forall k :: i < k < j ==> w[i] <= w[k]
    ensures SortedUpTo(v, i) && multiset(v) == multiset(w)
    ensures forall k :: i < k < j + 1 ==> v[i] <= v[k]
  {
  }

  lemma PassDone(w: seq<real>, i: nat)
    requires i < |w| && SortedUpTo(w, i) && forall k :: i < k < |w| ==> w[i] <= w[k]
    ensures SortedUpTo(w, i + 1)
  {
  }

  // One pass of the exchange sort: position i receives the least of the rest.
  method SortPass(a: array<real>, i: nat)
    requires i < a.Length && SortedUpTo(a[..], i)
    modifies a
    ensures SortedUpTo(a[..], i + 1) && multiset(a[..]) == multiset(old(a[..]))
  {
    hide SortedUpTo;
    for j := i + 1 to a.Length
      invariant SortedUpTo(a[..], i) && multiset(a[..]) == multiset(old(a[..]))
      invariant forall k :: i < k < j ==> a[i] <= a[k]
    {
      if a[i] > a[j] {
        ghost var w := a[..];
        a[i], a[j] := a[j], a[i];
        SwapSorts(w, a[..], i, j);
      }
    }
    PassDone(a[..], i);
  }

  method SortAscending(a: array<real>)
    modifies a
    ensures Ascending(a[..]) && multiset(a[..]) == multiset(old(a[..]))
  {
    for i := 0 to a.Length
      invariant SortedUpTo(a[..], i) && multiset(a[..]) == multiset(old(a[..]))
    {
      SortPass(a, i);
    }
  }
}
