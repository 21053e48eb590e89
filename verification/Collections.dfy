// Facts about sequences and sets shared by the models.
module Collections {

  datatype Option<+T> = None | Some(value: T)

  // q without the element at k.
  function Without<T>(q: seq<T>, k: nat): (r: seq<T>)
    requires k < |q|
    ensures |r| == |q| - 1
  {
    q[..k] + q[k + 1..]
  }

  lemma SubsetSize<T>(a: set<T>, b: set<T>)
    requires a <= b
    ensures |a| <= |b|
  {
    assert b == a + (b - a);
  }

  // The last position of x, or -1 when x is absent.
  function LastIndex<T(==)>(s: seq<T>, x: T): (k: int)
    ensures -1 <= k < |s| && (k >= 0 ==> s[k] == x)
    ensures forall j :: k < j < |s| ==> s[j] != x
  {
    if s == [] then -1 else if s[|s| - 1] == x then |s| - 1 else LastIndex(s[..|s| - 1], x)
  }

  lemma LastIndexIs<T>(s: seq<T>, x: T, k: nat)
    requires k < |s| && s[k] == x && forall j :: k < j < |s| ==> s[j] != x
    ensures LastIndex(s, x) == k
  {
  }
}
