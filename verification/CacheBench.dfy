// lake_test_mini/src/cache_bench.c: the LRU cache simulator and the stack-distance profiler.
//
// Both are compared with the LRU stack of a trace: the distinct lines seen, most recent first.
module CacheBench {
  import opened Arithmetic
  import opened Collections
  import opened Vectors

  // ---------------------------------------------------------------- the LRU stack

  // The first position of x, or the length of s when x is absent.
  function Position(s: seq<nat>, x: nat): (p: nat)
    ensures p <= |s| && (p < |s| ==> s[p] == x)
    ensures forall j :: 0 <= j < p ==> s[j] != x
  {
    if s == [] || s[0] == x then 0 else 1 + Position(s[1..], x)
  }

  ghost predicate Distinct(s: seq<nat>) {
    forall i, j :: 0 <= i < j < |s| ==> s[i] != s[j]
  }

  // Moves x to the front.
  function Touch(s: seq<nat>, x: nat): (r: seq<nat>)
    ensures |r| == if x in s then |s| else |s| + 1
  {
    var p := Position(s, x);
    [x] + s[..p] + if p < |s| then s[p + 1..] else []
  }

  function StackAfter(trace: seq<nat>): seq<nat> {
    if trace == [] then [] else Touch(StackAfter(trace[..|trace| - 1]), trace[|trace| - 1])
  }

  // The entries after a touch: those above a are one lower, the others where they were.
  lemma TouchEntries(s: seq<nat>, a: nat)
    ensures var t, p := Touch(s, a), Position(s, a);
      |t| > 0 && t[0] == a && (p < |s| <==> a in s) &&
      (forall j :: 0 < j <= p ==> t[j] == s[j - 1]) && forall j :: p < j < |t| ==> t[j] == s[j]
  {
  }

  lemma TouchMembers(s: seq<nat>, a: nat, x: nat)
    requires Distinct(s)
    ensures Distinct(Touch(s, a)) && (x in Touch(s, a) <==> x == a || x in s)
  {
    hide Touch, Position;
    var t, p := Touch(s, a), Position(s, a);
    TouchEntries(s, a);
    if x != a && x in s {
      var q :| 0 <= q < |s| && s[q] == x;
      assert t[if q < p then q + 1 else q] == x;
    }
  }

  // Touching a moves every entry that was above it down by one and leaves the others in place.
  lemma TouchPosition(s: seq<nat>, a: nat, x: nat)
    requires Distinct(s)
    ensures Distinct(Touch(s, a))
    ensures Position(Touch(s, a), a) == 0
    ensures x != a && x in s ==>
      Position(Touch(s, a), x) == if Position(s, x) < Position(s, a) then Position(s, x) + 1 else Position(s, x)
    ensures x in Touch(s, a) <==> x == a || x in s
  {
    hide Touch, Position;
    var p, t := Position(s, a), Touch(s, a);
    TouchEntries(s, a);
    TouchMembers(s, a, x);
    PositionUnique(t, a, 0);
    if x != a && x in s {
      var q := Position(s, x);
      var e := if q < p then q + 1 else q;
      assert t[e] == x;
      assert s[q] == x;
      PositionUnique(t, x, e);
    }
  }

  lemma PositionUnique(s: seq<nat>, x: nat, p: nat)
    requires Distinct(s) && p < |s| && s[p] == x
    ensures Position(s, x) == p
  {
  }

  lemma {:induction false} StackDistinct(trace: seq<nat>)
    ensures Distinct(StackAfter(trace))
    ensures forall x :: x in StackAfter(trace) <==> x in trace
  {
    if trace != [] {
      var n := |trace| - 1;
      StackDistinct(trace[..n]);
      assert trace == trace[..n] + [trace[n]];
      forall x ensures x in StackAfter(trace) <==> x in trace {
        TouchPosition(StackAfter(trace[..n]), trace[n], x);
      }
      TouchPosition(StackAfter(trace[..n]), trace[n], trace[n]);
    }
  }

  // ---------------------------------------------------------------- reuse distance

  // The distinct lines accessed after the last access to a.
  function Since(trace: seq<nat>, a: nat): set<nat>
    requires a in trace
  {
    var n := |trace| - 1;
    if trace[n] == a then {} else
      assert trace == trace[..n] + [trace[n]];
      {trace[n]} + Since(trace[..n], a)
  }

  function Elements(s: seq<nat>): set<nat> {
    set x | x in s
  }

  lemma {:induction false} DistinctCount(s: seq<nat>)
    requires Distinct(s)
    ensures |Elements(s)| == |s|
  {
    if s != [] {
      var n := |s| - 1;
      DistinctCount(s[..n]);
      assert Elements(s) == Elements(s[..n]) + {s[n]};
      assert s[n] !in s[..n];
    }
  }

  // What lies above a in the stack is exactly what was accessed since a.
  lemma {:induction false} AboveIsSince(trace: seq<nat>, a: nat)
    requires a in trace
    ensures var s := StackAfter(trace); Elements(s[..Position(s, a)]) == Since(trace, a)
  {
    hide Touch, Position;
    var n := |trace| - 1;
    var b := trace[n];
    StackDistinct(trace[..n]);
    StackDistinct(trace);
    var s, t := StackAfter(trace[..n]), StackAfter(trace);
    assert trace == trace[..n] + [b];
    TouchPosition(s, b, a);
    if b != a {
      AboveIsSince(trace[..n], a);
      forall x
        ensures x in Elements(t[..Position(t, a)]) <==> x == b || x in Elements(s[..Position(s, a)])
      {
        TouchPosition(s, b, x);
        AbovePosition(s, a, x);
        AbovePosition(t, a, x);
      }
    }
  }

  lemma AbovePosition(s: seq<nat>, a: nat, x: nat)
    requires Distinct(s) && a in s
    ensures x in s[..Position(s, a)] <==> Position(s, x) < Position(s, a)
  {
    if x in s[..Position(s, a)] {
      var j :| 0 <= j < Position(s, a) && s[j] == x;
      PositionUnique(s, x, j);
    }
  }

  // The stack distance of a line is the number of distinct lines accessed since its last access.
  lemma StackDistanceIsReuseDistance(trace: seq<nat>, a: nat)
    requires a in trace
    ensures Position(StackAfter(trace), a) == |Since(trace, a)|
  {
    StackDistinct(trace);
    AboveIsSince(trace, a);
    var s := StackAfter(trace);
    DistinctCount(s[..Position(s, a)]);
  }

  // ---------------------------------------------------------------- what a cache of C ways holds

  // An LRU cache of the given number of ways holds the top of the stack.
  predicate Resident(stack: seq<nat>, x: nat, ways: nat) {
    Position(stack, x) < |stack| && Position(stack, x) < ways
  }

  // Tags that reach one set, in order: line = tag * sets + index.
  function SetTrace(lines: seq<nat>, sets: nat, index: nat): seq<nat>
    requires sets > 0
  {
    if lines == [] then [] else
      var n := |lines| - 1;
      SetTrace(lines[..n], sets, index) + if lines[n] % sets == index then [lines[n] / sets] else []
  }

  // The misses of an LRU cache over a trace of line numbers.
  function Misses(lines: seq<nat>, sets: nat, ways: nat): nat
    requires sets > 0
  {
    if lines == [] then 0 else
      var n := |lines| - 1;
      var stack := StackAfter(SetTrace(lines[..n], sets, lines[n] % sets));
      Misses(lines[..n], sets, ways) + if Resident(stack, lines[n] / sets, ways) then 0 else 1
  }

  lemma {:induction false} OneSetTrace(lines: seq<nat>)
    ensures SetTrace(lines, 1, 0) == lines
  {
    if lines != [] {
      OneSetTrace(lines[..|lines| - 1]);
    }
  }

  // The reference reading of a hit: fewer than `ways` distinct tags of the same set since the last
  // access to this one.
  lemma ResidentMeansRecent(lines: seq<nat>, sets: nat, ways: nat, line: nat)
    requires sets > 0
    ensures var t := SetTrace(lines, sets, line % sets); var a := line / sets;
            Resident(StackAfter(t), a, ways) <==> a in t && |Since(t, a)| < ways
  {
    var t := SetTrace(lines, sets, line % sets);
    StackDistinct(t);
    if line / sets in t {
      StackDistanceIsReuseDistance(t, line / sets);
      var j :| 0 <= j < |StackAfter(t)| && StackAfter(t)[j] == line / sets;
      PositionUnique(StackAfter(t), line / sets, j);
    }
  }

  // More ways never miss more.
  lemma {:induction false} MissesMonotone(lines: seq<nat>, sets: nat, fewer: nat, more: nat)
    requires sets > 0 && fewer <= more
    ensures Misses(lines, sets, more) <= Misses(lines, sets, fewer)
  {
    if lines != [] {
      MissesMonotone(lines[..|lines| - 1], sets, fewer, more);
    }
  }

  // ---------------------------------------------------------------- one set of the simulator

  // Some of the first k ways holds entry p of the stack.
  ghost predicate Held(tags: seq<nat>, k: nat, stack: seq<nat>, p: nat)
    requires k <= |tags| && p < |stack|
  {
    stack[p] in tags[..k]
  }

  // The first k ways are the valid ones, and hold the top k entries of the stack.
  ghost predicate Contents(tags: seq<nat>, valid: seq<bool>, stack: seq<nat>)
    requires |tags| == |valid|
  {
    var k := Min(|tags|, |stack|);
    && (forall i :: 0 <= i < |valid| ==> (valid[i] <==> i < k))
    && (forall i :: 0 <= i < k ==> Position(stack, tags[i]) < k)
    && (forall i, j :: 0 <= i < j < k ==> tags[i] != tags[j])
    && (forall p :: 0 <= p < k ==> Held(tags, k, stack, p))
  }

  // The timestamps of the first k ways are ordered like their tags in the stack.
  ghost predicate Ordered(tags: seq<nat>, stamps: seq<nat>, stack: seq<nat>, now: nat)
    requires |tags| == |stamps|
  {
    var k := Min(|tags|, |stack|);
    && (forall i :: 0 <= i < k ==> stamps[i] <= now)
    && (forall i, j :: 0 <= i < k && 0 <= j < k ==>
          (stamps[i] > stamps[j] <==> Position(stack, tags[i]) < Position(stack, tags[j])))
  }

  // A set of ways agrees with the LRU stack of the tags it was given.
  ghost predicate Represents(tags: seq<nat>, stamps: seq<nat>, valid: seq<bool>, stack: seq<nat>, now: nat) {
    |tags| == |stamps| == |valid| && Distinct(stack) && Contents(tags, valid, stack) && Ordered(tags, stamps, stack, now)
  }

  // A tag matches a valid way exactly when it is resident.
  lemma MatchIsResident(tags: seq<nat>, stamps: seq<nat>, valid: seq<bool>, stack: seq<nat>, now: nat, a: nat)
    requires Represents(tags, stamps, valid, stack, now)
    ensures Resident(stack, a, |tags|) <==> exists i :: 0 <= i < |tags| && valid[i] && tags[i] == a
  {
    var k := Min(|tags|, |stack|);
    var p := Position(stack, a);
    if p < k {
      assert Held(tags, k, stack, p);
      var i :| 0 <= i < k && tags[i] == a;
      assert valid[i];
    }
  }

  lemma HitKeeps(tags: seq<nat>, stamps: seq<nat>, valid: seq<bool>, stack: seq<nat>, now: nat, i: nat)
    requires Represents(tags, stamps, valid, stack, now) && i < |tags| && valid[i]
    ensures Represents(tags, stamps[i := now + 1], valid, Touch(stack, tags[i]), now + 1)
  {
    hide Touch, Position, Distinct;
    var a, k, t := tags[i], Min(|tags|, |stack|), Touch(stack, tags[i]);
    assert a in stack;
    TouchAll(stack, a);
    forall p | 0 <= p < k ensures Held(tags, k, t, p) {
      PositionUnique(t, t[p], p);
      if t[p] == a {
        assert tags[..k][i] == a;
      } else {
        assert Held(tags, k, stack, Position(stack, t[p]));
      }
    }
  }

  lemma TouchAll(s: seq<nat>, a: nat)
    requires Distinct(s)
    ensures Distinct(Touch(s, a)) && Position(Touch(s, a), a) == 0
    ensures forall x :: x != a && x in s ==>
      Position(Touch(s, a), x) == if Position(s, x) < Position(s, a) then Position(s, x) + 1 else Position(s, x)
    ensures forall x :: x in Touch(s, a) <==> x == a || x in s
  {
    forall x
      ensures x != a && x in s ==>
        Position(Touch(s, a), x) == if Position(s, x) < Position(s, a) then Position(s, x) + 1 else Position(s, x)
      ensures x in Touch(s, a) <==> x == a || x in s
    {
      TouchPosition(s, a, x);
    }
    TouchPosition(s, a, a);
  }

  // The victim of a miss: the first invalid way, else the way with the smallest timestamp.
  ghost predicate IsVictim(stamps: seq<nat>, valid: seq<bool>, v: nat)
    requires |stamps| == |valid|
  {
    v < |valid| &&
    if exists i :: 0 <= i < |valid| && !valid[i]
    then !valid[v] && forall i :: 0 <= i < v ==> valid[i]
    else forall i :: 0 <= i < |stamps| ==> stamps[v] <= stamps[i]
  }

  lemma FillOrders(tags: seq<nat>, stamps: seq<nat>, stack: seq<nat>, now: nat, a: nat, v: nat)
    requires |tags| == |stamps| && Distinct(stack) && Ordered(tags, stamps, stack, now)
    requires a !in stack && v == |stack| < |tags|
    requires forall i :: 0 <= i < v ==> Position(stack, tags[i]) < v
    ensures Ordered(tags[v := a], stamps[v := now + 1], Touch(stack, a), now + 1)
    ensures forall i :: 0 <= i < v ==> Position(Touch(stack, a), tags[i]) == Position(stack, tags[i]) + 1
  {
    hide Touch, Position, Distinct;
    TouchAll(stack, a);
    forall i | 0 <= i < v ensures Position(Touch(stack, a), tags[i]) == Position(stack, tags[i]) + 1 {
      AbsentBelow(stack, a, tags[i]);
    }
  }

  // A miss that fills the first unused way.
  lemma FillKeeps(tags: seq<nat>, stamps: seq<nat>, valid: seq<bool>, stack: seq<nat>, now: nat, a: nat, v: nat)
    requires Represents(tags, stamps, valid, stack, now) && a !in stack
    requires v == |stack| < |tags|
    ensures Represents(tags[v := a], stamps[v := now + 1], valid[v := true], Touch(stack, a), now + 1)
  {
    hide Touch, Position, Distinct, Ordered;
    var t, tags' := Touch(stack, a), tags[v := a];
    TouchAll(stack, a);
    FillOrders(tags, stamps, stack, now, a, v);
    var k' := v + 1;
    forall p | 0 <= p < k' ensures Held(tags', k', t, p) {
      PositionUnique(t, t[p], p);
      if t[p] == a {
        assert tags'[..v + 1][v] == a;
      } else {
        assert t[p] in stack;
        CachedAt(tags, stamps, valid, stack, now, t[p]);
        var i :| 0 <= i < v && tags[i] == t[p];
        assert tags'[..v + 1][i] == t[p];
      }
    }
  }

  lemma AbsentBelow(s: seq<nat>, a: nat, x: nat)
    requires a !in s && x in s
    ensures Position(s, x) < Position(s, a) == |s|
  {
    var j :| 0 <= j < |s| && s[j] == x;
  }

  // Every entry of the top of the stack sits in some way.
  lemma CachedAt(tags: seq<nat>, stamps: seq<nat>, valid: seq<bool>, stack: seq<nat>, now: nat, x: nat)
    requires Represents(tags, stamps, valid, stack, now)
    requires x in stack && Position(stack, x) < |tags|
    ensures exists i :: 0 <= i < Min(|tags|, |stack|) && tags[i] == x
  {
    var k := Min(|tags|, |stack|);
    var j :| 0 <= j < |stack| && stack[j] == x;
    assert Position(stack, x) < k && Held(tags, k, stack, Position(stack, x));
    var i :| 0 <= i < k && tags[..k][i] == x;
    assert tags[i] == x;
  }

  // With every way in use the smallest timestamp belongs to the bottom resident line.
  lemma VictimIsBottom(tags: seq<nat>, stamps: seq<nat>, valid: seq<bool>, stack: seq<nat>, now: nat, v: nat)
    requires Represents(tags, stamps, valid, stack, now) && 0 < |tags| <= |stack| && v < |tags|
    requires forall i :: 0 <= i < |stamps| ==> stamps[v] <= stamps[i]
    ensures Position(stack, tags[v]) == |tags| - 1
    ensures forall i :: 0 <= i < |tags| && i != v ==> Position(stack, tags[i]) < |tags| - 1
  {
    hide Position, Held;
    var k := |tags|;
    PositionUnique(stack, stack[k - 1], k - 1);
    CachedAt(tags, stamps, valid, stack, now, stack[k - 1]);
    var w :| 0 <= w < k && tags[w] == stack[k - 1];
    assert stamps[v] <= stamps[w] && Position(stack, tags[v]) < k;
    assert Position(stack, tags[v]) == k - 1;
    forall i | 0 <= i < k && i != v ensures Position(stack, tags[i]) < k - 1 {
      assert tags[i] != tags[v] && stack[k - 1] == tags[v];
    }
  }

  // The ways after a replacement hold the top of the stack.
  lemma EvictContents(tags: seq<nat>, stamps: seq<nat>, valid: seq<bool>, stack: seq<nat>, now: nat, a: nat, v: nat)
    requires Represents(tags, stamps, valid, stack, now) && 0 < |tags| <= |stack| && v < |tags|
    requires Position(stack, a) >= |tags| && Position(stack, tags[v]) == |tags| - 1
    requires Distinct(Touch(stack, a)) && |Touch(stack, a)| >= |tags| && Position(Touch(stack, a), a) == 0
    requires forall i :: 0 <= i < |tags| && i != v ==> Position(Touch(stack, a), tags[i]) < |tags|
    ensures Contents(tags[v := a], valid[v := true], Touch(stack, a))
  {
    var k, t, tags' := |tags|, Touch(stack, a), tags[v := a];
    hide Touch, Position, Distinct, Ordered, Held;
    forall p | 0 <= p < k ensures Held(tags', k, t, p) {
      PositionUnique(t, t[p], p);
      EvictCovers(tags, stamps, valid, stack, now, a, v, t[p]);
      HeldIf(tags', k, t, p);
    }
  }

  lemma HeldIf(tags: seq<nat>, k: nat, stack: seq<nat>, p: nat)
    requires k == |tags| && p < |stack| && stack[p] in tags
    ensures Held(tags, k, stack, p)
  {
    assert tags[..k] == tags;
  }

  // A miss that replaces the least recently used way.
  lemma EvictKeeps(tags: seq<nat>, stamps: seq<nat>, valid: seq<bool>, stack: seq<nat>, now: nat, a: nat, v: nat)
    requires Represents(tags, stamps, valid, stack, now) && 0 < |tags| <= |stack| && v < |tags|
    requires Position(stack, a) >= |tags|
    requires forall i :: 0 <= i < |stamps| ==> stamps[v] <= stamps[i]
    ensures Represents(tags[v := a], stamps[v := now + 1], valid[v := true], Touch(stack, a), now + 1)
  {
    hide Touch, Position, Distinct, Ordered, Contents;
    TouchAll(stack, a);
    VictimIsBottom(tags, stamps, valid, stack, now, v);
    EvictOrders(tags, stamps, stack, now, a, v);
    EvictContents(tags, stamps, valid, stack, now, a, v);
  }

  lemma EvictOrders(tags: seq<nat>, stamps: seq<nat>, stack: seq<nat>, now: nat, a: nat, v: nat)
    requires |tags| == |stamps| && Distinct(stack) && Ordered(tags, stamps, stack, now)
    requires 0 < |tags| <= |stack| && v < |tags| && Position(stack, a) >= |tags|
    requires forall i :: 0 <= i < |tags| && i != v ==> Position(stack, tags[i]) < |tags| - 1
    ensures Ordered(tags[v := a], stamps[v := now + 1], Touch(stack, a), now + 1)
    ensures forall i :: 0 <= i < |tags| && i != v ==> Position(Touch(stack, a), tags[i]) < |tags|
  {
    hide Touch, Position;
    TouchAll(stack, a);
    var t := Touch(stack, a);
    forall i | 0 <= i < |tags| && i != v ensures Position(t, tags[i]) == Position(stack, tags[i]) + 1 {
      assert tags[i] in stack;
    }
  }

  lemma EvictCovers(tags: seq<nat>, stamps: seq<nat>, valid: seq<bool>, stack: seq<nat>, now: nat, a: nat, v: nat, x: nat)
    requires Represents(tags, stamps, valid, stack, now) && 0 < |tags| <= |stack| && v < |tags|
    requires Position(stack, a) >= |tags| && Position(stack, tags[v]) == |tags| - 1
    requires x in Touch(stack, a) && Position(Touch(stack, a), x) < |tags|
    ensures x in tags[v := a]
  {
    hide Touch, Position;
    TouchAll(stack, a);
    if x == a {
      assert tags[v := a][v] == a;
    } else {
      CachedAt(tags, stamps, valid, stack, now, x);
      var i :| 0 <= i < |tags| && tags[i] == x;
      assert tags[v := a][i] == x;
    }
  }

  lemma MissKeeps(tags: seq<nat>, stamps: seq<nat>, valid: seq<bool>, stack: seq<nat>, now: nat, a: nat, v: nat)
    requires Represents(tags, stamps, valid, stack, now) && !Resident(stack, a, |tags|)
    requires IsVictim(stamps, valid, v)
    ensures Represents(tags[v := a], stamps[v := now + 1], valid[v := true], Touch(stack, a), now + 1)
  {
    hide Touch, Position;
    var k := Min(|tags|, |stack|);
    if k < |tags| {
      assert !valid[k];
      assert v == k;
      FillKeeps(tags, stamps, valid, stack, now, a, v);
    } else {
      EvictKeeps(tags, stamps, valid, stack, now, a, v);
    }
  }

  // ---------------------------------------------------------------- the simulator

  ghost function RowOf<T>(a: array2<T>, s: nat): (r: seq<T>)
    requires s < a.Length0
    reads a
    ensures |r| == a.Length1 && forall i :: 0 <= i < |r| ==> r[i] == a[s, i]
  {
    seq(a.Length1, i requires 0 <= i < a.Length1 reads a => a[s, i])
  }

  class SimCache {
    const lineSize: nat
    const assoc: nat
    const numSets: nat
    const tags: array2<nat>
    const accessTimestamps: array2<nat>
    const valid: array2<bool>
    var globalTime: nat
    var totalAccesses: nat
    var totalHits: nat
    var totalMisses: nat

    // Line numbers accessed since the last flush, and the misses counted before it.
    ghost var history: seq<nat>
    ghost var earlier: nat

    ghost predicate Shaped() {
      lineSize > 0 && assoc > 0 && numSets > 0 &&
      tags.Length0 == accessTimestamps.Length0 == valid.Length0 == numSets &&
      tags.Length1 == accessTimestamps.Length1 == valid.Length1 == assoc && tags != accessTimestamps
    }

    ghost predicate SetValid(s: nat)
      requires Shaped() && s < numSets
      reads this`globalTime, this`history, tags, accessTimestamps, valid
    {
      Holds(s, StackAfter(SetTrace(history, numSets, s)))
    }

    ghost predicate Valid()
      reads this, tags, accessTimestamps, valid
    {
      Shaped() && (forall s :: 0 <= s < numSets ==> SetValid(s)) &&
      totalMisses == earlier + Misses(history, numSets, assoc) && totalHits + totalMisses == totalAccesses
    }

    constructor (totalSize: nat, lineSize: nat, associativity: nat)
      requires lineSize > 0 && associativity > 0
      ensures Valid() && history == [] && earlier == 0
      ensures assoc == associativity && this.lineSize == lineSize
      ensures numSets == if totalSize < lineSize * associativity then 1 else totalSize / (lineSize * associativity)
      ensures fresh(tags) && fresh(accessTimestamps) && fresh(valid)
    {
      this.lineSize := lineSize;
      assoc := associativity;
      DivideTwice(totalSize, lineSize, associativity);
      var sets := totalSize / (lineSize * associativity);
      if totalSize < lineSize * associativity {
        QuotientIs(totalSize, lineSize * associativity, 0, totalSize);
      } else {
        assert sets > 0;
      }
      var n := if sets == 0 then 1 else sets;
      numSets := n;
      tags := new nat[n, associativity]((i, j) => 0);
      accessTimestamps := new nat[n, associativity]((i, j) => 0);
      valid := new bool[n, associativity]((i, j) => false);
      globalTime, totalAccesses, totalHits, totalMisses := 0, 0, 0, 0;
      history, earlier := [], 0;
      new;
      assert Misses([], n, associativity) == 0;
      hide Represents, SetTrace, StackAfter, Misses;
      forall s | 0 <= s < numSets ensures SetValid(s) {
        EmptyTrace(numSets, s);
        EmptyRepresents(RowOf(tags, s), RowOf(accessTimestamps, s), RowOf(valid, s), globalTime);
      }
    }

    // The first valid way of the set that holds the tag.
    method FindWay(setIdx: nat, tag: nat) returns (found: bool, way: nat)
      requires Shaped() && setIdx < numSets
      ensures found ==> way < assoc && valid[setIdx, way] && tags[setIdx, way] == tag
      ensures !found ==> forall i :: 0 <= i < assoc ==> !(valid[setIdx, i] && tags[setIdx, i] == tag)
    {
      for i := 0 to assoc
        invariant forall j :: 0 <= j < i ==> !(valid[setIdx, j] && tags[setIdx, j] == tag)
      {
        if valid[setIdx, i] && tags[setIdx, i] == tag {
          return true, i;
        }
      }
      return false, 0;
    }

    // The first invalid way, else the least recently used one.
    method FindVictim(setIdx: nat) returns (victim: nat)
      requires Shaped() && setIdx < numSets
      ensures IsVictim(RowOf(accessTimestamps, setIdx), RowOf(valid, setIdx), victim)
    {
      victim := 0;
      var oldest := accessTimestamps[setIdx, 0];
      for i := 0 to assoc
        invariant forall j :: 0 <= j < i ==> valid[setIdx, j]
        invariant victim < assoc && oldest == accessTimestamps[setIdx, victim]
        invariant forall j :: 0 <= j < i ==> oldest <= accessTimestamps[setIdx, j]
      {
        if !valid[setIdx, i] {
          return i;
        }
        if accessTimestamps[setIdx, i] < oldest {
          oldest := accessTimestamps[setIdx, i];
          victim := i;
        }
      }
    }

    // The rows of set s, read as one LRU set holding the top of the stack.
    ghost predicate Holds(s: nat, stack: seq<nat>)
      requires Shaped() && s < numSets
      reads this`globalTime, tags, accessTimestamps, valid
    {
      Represents(RowOf(tags, s), RowOf(accessTimestamps, s), RowOf(valid, s), stack, globalTime)
    }

    // Everything outside one set is as before.
    twostate predicate OtherSetsKept(index: nat)
      requires Shaped()
      reads tags, accessTimestamps, valid
    {
      forall s :: 0 <= s < numSets && s != index ==>
        RowOf(tags, s) == old(RowOf(tags, s)) &&
        RowOf(accessTimestamps, s) == old(RowOf(accessTimestamps, s)) &&
        RowOf(valid, s) == old(RowOf(valid, s))
    }

    // A hit: the way becomes the most recent one.
    method Refresh(index: nat, way: nat, ghost stack: seq<nat>)
      requires Shaped() && index < numSets && way < assoc && valid[index, way] && Holds(index, stack)
      modifies this`globalTime, accessTimestamps
      ensures globalTime == old(globalTime) + 1 && Holds(index, Touch(stack, tags[index, way])) && OtherSetsKept(index)
    {
      hide Represents;
      ghost var t, a, v := RowOf(tags, index), RowOf(accessTimestamps, index), RowOf(valid, index);
      HitKeeps(t, a, v, stack, globalTime, way);
      globalTime := globalTime + 1;
      accessTimestamps[index, way] := globalTime;
      assert RowOf(accessTimestamps, index) == a[way := globalTime];
      assert RowOf(tags, index) == t && RowOf(valid, index) == v;
    }

    // A miss: the victim is replaced by the new tag.
    method Install(index: nat, tag: nat, ghost stack: seq<nat>)
      requires Shaped() && index < numSets && Holds(index, stack) && !Resident(stack, tag, assoc)
      modifies this`globalTime, tags, accessTimestamps, valid
      ensures globalTime == old(globalTime) + 1 && Holds(index, Touch(stack, tag)) && OtherSetsKept(index)
    {
      hide Represents;
      var victim := FindVictim(index);
      ghost var t, a, v := RowOf(tags, index), RowOf(accessTimestamps, index), RowOf(valid, index);
      MissKeeps(t, a, v, stack, globalTime, tag, victim);
      tags[index, victim] := tag;
      valid[index, victim] := true;
      globalTime := globalTime + 1;
      accessTimestamps[index, victim] := globalTime;
      assert RowOf(accessTimestamps, index) == a[victim := globalTime];
      assert RowOf(tags, index) == t[victim := tag];
      assert RowOf(valid, index) == v[victim := true];
    }

    // Tag and set index of an address.
    method Decompose(address: nat) returns (tag: nat, index: nat)
      requires Shaped()
      ensures tag == (address / lineSize) / numSets && index == (address / lineSize) % numSets < numSets
    {
      DivideTwice(address, lineSize, numSets);
      tag := address / (lineSize * numSets);
      index := (address / lineSize) % numSets;
    }

    // The line of the address is in the top of its set's LRU stack.
    ghost predicate Resides(address: nat)
      requires Shaped()
      reads this`history
    {
      var line := address / lineSize;
      Resident(StackAfter(SetTrace(history, numSets, line % numSets)), line / numSets, assoc)
    }

    // In one set, a hit refreshes the timestamp and a miss replaces the victim.
    method AccessSet(index: nat, tag: nat, ghost stack: seq<nat>) returns (hit: bool)
      requires Shaped() && index < numSets && Holds(index, stack)
      modifies this`globalTime, this`totalHits, this`totalMisses, tags, accessTimestamps, valid
      ensures globalTime == old(globalTime) + 1 && Holds(index, Touch(stack, tag)) && OtherSetsKept(index)
      ensures hit == Resident(stack, tag, assoc)
      ensures totalHits == old(totalHits) + if hit then 1 else 0
      ensures totalMisses == old(totalMisses) + if hit then 0 else 1
    {
      hide Represents, Touch, Resident, IsVictim;
      MatchIsResident(RowOf(tags, index), RowOf(accessTimestamps, index), RowOf(valid, index), stack, globalTime, tag);
      var way;
      hit, way := FindWay(index, tag);
      if hit {
        totalHits := totalHits + 1;
        Refresh(index, way, stack);
      } else {
        totalMisses := totalMisses + 1;
        Install(index, tag, stack);
      }
    }

    // One access to the set of the address.
    method Access(address: nat) returns (hit: bool)
      requires Valid()
      modifies this, tags, accessTimestamps, valid
      ensures Valid() && earlier == old(earlier) && history == old(history) + [address / lineSize]
      ensures totalAccesses == old(totalAccesses) + 1
      ensures hit == old(Resides(address))
      ensures totalMisses == old(totalMisses) + if hit then 0 else 1
    {
      hide Represents, StackAfter, SetTrace, Misses, Touch, Position, Resident, IsVictim;
      assert forall s :: 0 <= s < numSets ==> SetValid(s);
      var tag, index := Decompose(address);
      ghost var line: nat := address / lineSize;
      ghost var stack := StackAfter(SetTrace(history, numSets, index));
      totalAccesses := totalAccesses + 1;
      assert SetValid(index);
      hit := AccessSet(index, tag, stack);
      history := history + [line];
      MissesStep(old(history), line, numSets, assoc);
      forall s | 0 <= s < numSets ensures SetValid(s) {
        SetTraceStep(old(history), line, numSets, s);
        if s != index {
          assert old(SetValid(s));
          LaterKeeps(old(RowOf(tags, s)), old(RowOf(accessTimestamps, s)), old(RowOf(valid, s)),
                     StackAfter(SetTrace(old(history), numSets, s)), old(globalTime), globalTime);
        }
      }
    }

    // Empties every set; the counters stay.
    method Flush()
      requires Valid()
      modifies this`history, this`earlier, valid
      ensures Valid() && history == [] && earlier == totalMisses
    {
      for s := 0 to numSets
        invariant forall p, i :: 0 <= p < s && 0 <= i < assoc ==> !valid[p, i]
      {
        for i := 0 to assoc
          invariant forall p, j :: 0 <= p < s && 0 <= j < assoc ==> !valid[p, j]
          invariant forall j :: 0 <= j < i ==> !valid[s, j]
        {
          valid[s, i] := false;
        }
      }
      history, earlier := [], totalMisses;
      assert Misses([], numSets, assoc) == 0;
      hide Represents, SetTrace, StackAfter, Misses;
      forall s | 0 <= s < numSets ensures SetValid(s) {
        EmptyTrace(numSets, s);
        EmptyRepresents(RowOf(tags, s), RowOf(accessTimestamps, s), RowOf(valid, s), globalTime);
      }
    }
  }

  lemma EmptyTrace(sets: nat, index: nat)
    requires sets > 0
    ensures StackAfter(SetTrace([], sets, index)) == []
  {
  }

  lemma EmptyRepresents(tags: seq<nat>, stamps: seq<nat>, valid: seq<bool>, now: nat)
    requires |tags| == |stamps| == |valid| > 0 && forall i :: 0 <= i < |valid| ==> !valid[i]
    ensures Represents(tags, stamps, valid, [], now)
  {
  }

  lemma LaterKeeps(tags: seq<nat>, stamps: seq<nat>, valid: seq<bool>, stack: seq<nat>, now: nat, later: nat)
    requires Represents(tags, stamps, valid, stack, now) && now <= later
    ensures Represents(tags, stamps, valid, stack, later)
  {
  }

  lemma SetTraceStep(lines: seq<nat>, line: nat, sets: nat, index: nat)
    requires sets > 0
    ensures StackAfter(SetTrace(lines + [line], sets, index)) ==
            if line % sets == index then Touch(StackAfter(SetTrace(lines, sets, index)), line / sets)
            else StackAfter(SetTrace(lines, sets, index))
  {
    var t := SetTrace(lines, sets, index);
    assert (lines + [line])[..|lines|] == lines;
    assert (t + [line / sets])[..|t|] == t;
    assert t + [] == t;
  }

  lemma MissesStep(lines: seq<nat>, line: nat, sets: nat, ways: nat)
    requires sets > 0
    ensures Misses(lines + [line], sets, ways) == Misses(lines, sets, ways) +
            if Resident(StackAfter(SetTrace(lines, sets, line % sets)), line / sets, ways) then 0 else 1
  {
    assert (lines + [line])[..|lines|] == lines;
  }

  // ---------------------------------------------------------------- the profile of a trace

  lemma StackSize(trace: seq<nat>)
    ensures |StackAfter(trace)| == |Elements(trace)|
  {
    StackDistinct(trace);
    DistinctCount(StackAfter(trace));
    assert Elements(StackAfter(trace)) == Elements(trace);
  }

  lemma PrefixElements(trace: seq<nat>)
    requires trace != []
    ensures var n := |trace| - 1;
            Elements(trace) == Elements(trace[..n]) + {trace[n]} && |Elements(trace[..n])| <= |Elements(trace)|
  {
    var n := |trace| - 1;
    assert trace == trace[..n] + [trace[n]];
    assert Elements(trace) == Elements(trace[..n]) + {trace[n]};
    SubsetSize(Elements(trace[..n]), Elements(trace));
  }

  // The histogram bin of an access: its stack distance, or the last bin for a first access.
  function Bin(stack: seq<nat>, x: nat, unique: nat): nat {
    if x in stack then Position(stack, x) else unique
  }

  // Counts of stack distances over a trace with at most `unique` distinct lines.
  function Histogram(trace: seq<nat>, unique: nat): (h: seq<nat>)
    requires |Elements(trace)| <= unique
    ensures |h| == unique + 1
  {
    if trace == [] then seq(unique + 1, i => 0) else
      PrefixElements(trace);
      BinInRange(trace[..|trace| - 1], trace[|trace| - 1], unique);
      var n := |trace| - 1;
      var h := Histogram(trace[..n], unique);
      var b := Bin(StackAfter(trace[..n]), trace[n], unique);
      h[b := h[b] + 1]
  }

  lemma BinInRange(trace: seq<nat>, x: nat, unique: nat)
    requires |Elements(trace)| <= unique
    ensures Bin(StackAfter(trace), x, unique) <= unique
    ensures x in StackAfter(trace) ==> Bin(StackAfter(trace), x, unique) < unique
  {
    StackSize(trace);
    var s := StackAfter(trace);
    if x in s {
      var j :| 0 <= j < |s| && s[j] == x;
      assert Position(s, x) < |s|;
    }
  }

  // Sum of h[d] for c <= d < n.
  function SumFrom(h: seq<nat>, c: nat, n: nat): nat
    requires n <= |h|
  {
    if n == 0 then 0 else SumFrom(h, c, n - 1) + if c <= n - 1 then h[n - 1] else 0
  }

  lemma {:induction false} SumFromStep(h: seq<nat>, b: nat, c: nat, n: nat)
    requires b < |h| && n <= |h|
    ensures SumFrom(h[b := h[b] + 1], c, n) == SumFrom(h, c, n) + if c <= b < n then 1 else 0
  {
    if n > 0 {
      SumFromStep(h, b, c, n - 1);
    }
  }

  lemma {:induction false} SumFromZero(h: seq<nat>, c: nat, n: nat)
    requires n <= |h| && forall d :: 0 <= d < n ==> h[d] == 0
    ensures SumFrom(h, c, n) == 0
  {
    if n > 0 {
      SumFromZero(h, c, n - 1);
    }
  }

  // Mattson's theorem: the accesses at distance c or more are the misses of a one-set cache of c
  // ways, for every capacity up to the number of distinct lines.
  lemma {:induction false} HistogramCountsMisses(trace: seq<nat>, unique: nat, c: nat)
    requires |Elements(trace)| <= unique && c <= unique
    ensures SumFrom(Histogram(trace, unique), c, unique + 1) == Misses(trace, 1, c)
  {
    hide *;
    if trace == [] {
      EmptyMisses(1, c);
      EmptyHistogram(unique);
      SumFromZero(Histogram(trace, unique), c, unique + 1);
    } else {
      var n := |trace| - 1;
      var init, x := trace[..n], trace[n];
      assert trace == init + [x];
      HistogramStep(init, x, unique);
      HistogramCountsMisses(init, unique, c);
      var b := Bin(StackAfter(init), x, unique);
      BinInRange(init, x, unique);
      SumFromStep(Histogram(init, unique), b, c, unique + 1);
      OneSetStep(init, x, c);
      BinBeyond(StackAfter(init), x, unique, c);
    }
  }

  lemma EmptyHistogram(unique: nat)
    ensures |Elements([])| == 0 && StackAfter([]) == []
    ensures forall d :: 0 <= d <= unique ==> Histogram([], unique)[d] == 0
  {
  }

  lemma EmptyMisses(sets: nat, ways: nat)
    requires sets > 0
    ensures Misses([], sets, ways) == 0
  {
  }

  lemma BinBeyond(stack: seq<nat>, x: nat, unique: nat, c: nat)
    requires c <= unique
    ensures c <= Bin(stack, x, unique) <==> !(x in stack && Position(stack, x) < c)
  {
  }

  lemma HistogramStep(trace: seq<nat>, x: nat, unique: nat)
    requires |Elements(trace + [x])| <= unique
    ensures |Elements(trace)| <= unique && Bin(StackAfter(trace), x, unique) <= unique
    ensures var b := Bin(StackAfter(trace), x, unique); var h := Histogram(trace, unique);
            Histogram(trace + [x], unique) == h[b := h[b] + 1]
  {
    hide StackAfter, Position;
    PrefixElements(trace + [x]);
    assert (trace + [x])[..|trace|] == trace;
    BinInRange(trace, x, unique);
  }

  lemma OneSetStep(trace: seq<nat>, x: nat, c: nat)
    ensures Misses(trace + [x], 1, c) == Misses(trace, 1, c) +
            if x in StackAfter(trace) && Position(StackAfter(trace), x) < c then 0 else 1
  {
    hide StackAfter, Position, Misses;
    MissesStep(trace, x, 1, c);
    OneSetTrace(trace);
    ResidentIff(StackAfter(trace), x, c);
  }

  lemma ResidentIff(stack: seq<nat>, x: nat, c: nat)
    ensures Resident(stack, x, c) <==> x in stack && Position(stack, x) < c
  {
    if x in stack {
      var j :| 0 <= j < |stack| && stack[j] == x;
      assert Position(stack, x) < |stack|;
    }
  }

  // ---------------------------------------------------------------- the profile's entries

  datatype StackDistEntry = StackDistEntry(distance: nat, count: nat)

  datatype StackDistProfile = StackDistProfile(entries: seq<StackDistEntry>, totalReferences: nat, uniqueAddresses: nat)

  // The non-empty bins below n, in order.
  function Entries(h: seq<nat>, n: nat): seq<StackDistEntry>
    requires n <= |h|
  {
    if n == 0 then [] else
      Entries(h, n - 1) + if h[n - 1] > 0 then [StackDistEntry(n - 1, h[n - 1])] else []
  }

  // Total count of the entries at distance c or more.
  function Beyond(entries: seq<StackDistEntry>, c: nat): nat {
    if entries == [] then 0 else
      var e := entries[|entries| - 1];
      Beyond(entries[..|entries| - 1], c) + if e.distance >= c then e.count else 0
  }

  lemma {:induction false} BeyondIsSum(h: seq<nat>, n: nat, c: nat)
    requires n <= |h|
    ensures Beyond(Entries(h, n), c) == SumFrom(h, c, n)
  {
    if n > 0 {
      BeyondIsSum(h, n - 1, c);
      var e := Entries(h, n - 1);
      if h[n - 1] > 0 {
        assert (e + [StackDistEntry(n - 1, h[n - 1])])[..|e|] == e;
      } else {
        assert e + [] == e;
      }
    }
  }

  // The profile stack_dist_build returns for a non-empty trace.
  function Profile(trace: seq<nat>): StackDistProfile {
    var unique := |Elements(trace)|;
    StackDistProfile(Entries(Histogram(trace, unique), unique + 1), |trace|, unique)
  }

  lemma {:induction false} SomeMiss(trace: seq<nat>, c: nat)
    requires trace != []
    ensures Misses(trace, 1, c) > 0
  {
    if |trace| == 1 {
      assert trace[..0] == [];
    } else {
      SomeMiss(trace[..|trace| - 1], c);
    }
  }

  lemma {:induction false} SumFromEmpty(h: seq<nat>, c: nat, n: nat)
    requires n <= |h| && n <= c
    ensures SumFrom(h, c, n) == 0
  {
    if n > 0 {
      SumFromEmpty(h, c, n - 1);
    }
  }

  // The prediction is exact precisely for capacities up to the number of distinct lines: beyond it
  // the first accesses, filed under the last bin, are no longer counted.
  lemma PredictionExact(trace: seq<nat>, c: nat)
    requires trace != []
    ensures Beyond(Profile(trace).entries, c) == Misses(trace, 1, c) <==> c <= |Elements(trace)|
  {
    hide Misses, SumFrom, Histogram, Entries, Beyond, Elements;
    var unique := |Elements(trace)|;
    var h := Histogram(trace, unique);
    BeyondIsSum(h, unique + 1, c);
    if c <= unique {
      HistogramCountsMisses(trace, unique, c);
    } else {
      SumFromEmpty(h, c, unique + 1);
      SomeMiss(trace, c);
    }
  }

  // Every access is in exactly one entry.
  lemma EntriesCoverTrace(trace: seq<nat>)
    requires trace != []
    ensures Beyond(Profile(trace).entries, 0) == |trace|
  {
    hide Misses, Beyond, Elements;
    PredictionExact(trace, 0);
    AllMissWithoutWays(trace);
  }

  lemma {:induction false} AllMissWithoutWays(trace: seq<nat>)
    ensures Misses(trace, 1, 0) == |trace|
  {
    if trace != [] {
      AllMissWithoutWays(trace[..|trace| - 1]);
    }
  }

  lemma {:induction false} BeyondFalls(entries: seq<StackDistEntry>, c: nat, d: nat)
    requires c <= d
    ensures Beyond(entries, d) <= Beyond(entries, c)
  {
    if entries != [] {
      BeyondFalls(entries[..|entries| - 1], c, d);
    }
  }

  // The share of the references that a profile files at distance c or more.
  function PredictedRate(profile: StackDistProfile, c: nat): real
    requires profile.totalReferences > 0
  {
    Beyond(profile.entries, c) as real / profile.totalReferences as real
  }

  lemma SameQuotientIff(a: nat, b: nat, n: nat)
    requires n > 0
    ensures a as real / n as real == b as real / n as real <==> a == b
  {
    Requotient(a as real, n as real);
    Requotient(b as real, n as real);
  }

  // From trace to rate: the rate read off the profile of a trace lies in [0, 1] and is the miss rate of
  // an LRU cache of c addresses exactly when the trace has at least c distinct addresses.
  lemma RateIsMissRate(trace: seq<nat>, c: nat)
    requires trace != []
    ensures Profile(trace).totalReferences > 0 && 0.0 <= PredictedRate(Profile(trace), c) <= 1.0
    ensures PredictedRate(Profile(trace), c) == Misses(trace, 1, c) as real / |trace| as real <==> c <= |Elements(trace)|
  {
    hide Misses, Beyond, Elements, Entries, Histogram;
    PredictionExact(trace, c);
    EntriesCoverTrace(trace);
    BeyondFalls(Profile(trace).entries, 0, c);
    SameQuotientIff(Beyond(Profile(trace).entries, c), Misses(trace, 1, c), |trace|);
    QuotientInUnit(Beyond(Profile(trace).entries, c) as real, |trace| as real);
  }

  // ---------------------------------------------------------------- addresses against lines

  // The line numbers of a trace of byte addresses.
  function LinesOf(trace: seq<nat>, lineSize: nat): (r: seq<nat>)
    requires lineSize > 0
    ensures |r| == |trace| && forall i :: 0 <= i < |trace| ==> r[i] == trace[i] / lineSize
  {
    seq(|trace|, i requires 0 <= i < |trace| => trace[i] / lineSize)
  }

  function LineSet(s: set<nat>, lineSize: nat): set<nat>
    requires lineSize > 0
  {
    set x | x in s :: x / lineSize
  }

  lemma {:induction false} LineSetSize(s: set<nat>, lineSize: nat)
    requires lineSize > 0
    ensures |LineSet(s, lineSize)| <= |s|
  {
    if s != {} {
      var x :| x in s;
      LineSetSize(s - {x}, lineSize);
      var rest := LineSet(s - {x}, lineSize) + {x / lineSize};
      forall y | y in LineSet(s, lineSize) ensures y in rest {
        var x' :| x' in s && y == x' / lineSize;
        assert x' == x || x' in s - {x};
      }
      SubsetSize(LineSet(s, lineSize), rest);
    }
  }

  // Between two uses of an address no more lines than addresses are touched.
  lemma {:induction false} SinceLines(trace: seq<nat>, a: nat, lineSize: nat)
    requires a in trace && lineSize > 0
    ensures var lines := LinesOf(trace, lineSize);
      a / lineSize in lines && Since(lines, a / lineSize) <= LineSet(Since(trace, a), lineSize)
  {
    var n := |trace| - 1;
    var lines := LinesOf(trace, lineSize);
    var i :| 0 <= i < |trace| && trace[i] == a;
    assert lines[i] == a / lineSize;
    assert lines[..n] == LinesOf(trace[..n], lineSize);
    if trace[n] != a {
      assert trace == trace[..n] + [trace[n]];
      SinceLines(trace[..n], a, lineSize);
    }
  }

  // An access that hits in addresses hits in lines.
  lemma ResidentLine(trace: seq<nat>, a: nat, c: nat, lineSize: nat)
    requires lineSize > 0 && Resident(StackAfter(trace), a, c)
    ensures Resident(StackAfter(LinesOf(trace, lineSize)), a / lineSize, c)
  {
    var lines := LinesOf(trace, lineSize);
    OneSetTrace(trace);
    OneSetTrace(lines);
    ResidentMeansRecent(trace, 1, c, a);
    ResidentMeansRecent(lines, 1, c, a / lineSize);
    SinceLines(trace, a, lineSize);
    LineSetSize(Since(trace, a), lineSize);
    SubsetSize(Since(lines, a / lineSize), LineSet(Since(trace, a), lineSize));
  }

  // Access i hits as a line only: other bytes of the line were used recently enough.
  predicate SpatialHit(trace: seq<nat>, i: nat, c: nat, lineSize: nat)
    requires i < |trace| && lineSize > 0
  {
    Resident(StackAfter(LinesOf(trace[..i], lineSize)), trace[i] / lineSize, c) && !Resident(StackAfter(trace[..i]), trace[i], c)
  }

  lemma SpatialStep(trace: seq<nat>, c: nat, lineSize: nat)
    requires trace != [] && lineSize > 0
    ensures var n := |trace| - 1;
      (forall i :: 0 <= i < |trace| ==> !SpatialHit(trace, i, c, lineSize)) <==>
      (forall i :: 0 <= i < n ==> !SpatialHit(trace[..n], i, c, lineSize)) && !SpatialHit(trace, n, c, lineSize)
  {
    hide StackAfter, Resident;
    var n := |trace| - 1;
    forall i | 0 <= i < n ensures SpatialHit(trace, i, c, lineSize) == SpatialHit(trace[..n], i, c, lineSize) {
      assert trace[..n][..i] == trace[..i];
    }
  }

  // The last access, counted as a line and as an address.
  lemma LastLineMiss(trace: seq<nat>, c: nat, lineSize: nat)
    requires trace != [] && lineSize > 0
    ensures var n, lines := |trace| - 1, LinesOf(trace, lineSize);
      Misses(lines, 1, c) - Misses(lines[..n], 1, c) ==
      Misses(trace, 1, c) - Misses(trace[..n], 1, c) - if SpatialHit(trace, n, c, lineSize) then 1 else 0
  {
    hide Misses, Resident, StackAfter;
    var n, lines := |trace| - 1, LinesOf(trace, lineSize);
    assert lines[..n] == LinesOf(trace[..n], lineSize);
    LastMiss(trace, c);
    LastMiss(lines, c);
    if Resident(StackAfter(trace[..n]), trace[n], c) {
      ResidentLine(trace[..n], trace[n], c, lineSize);
    }
  }

  // Counting lines instead of addresses never adds a miss, and removes none exactly when no access
  // hits through another address of its line.
  lemma {:induction false} LineMisses(trace: seq<nat>, c: nat, lineSize: nat)
    requires lineSize > 0
    ensures Misses(LinesOf(trace, lineSize), 1, c) <= Misses(trace, 1, c)
    ensures Misses(LinesOf(trace, lineSize), 1, c) == Misses(trace, 1, c) <==>
            forall i :: 0 <= i < |trace| ==> !SpatialHit(trace, i, c, lineSize)
  {
    if trace != [] {
      hide Misses, SpatialHit;
      var n := |trace| - 1;
      assert LinesOf(trace, lineSize)[..n] == LinesOf(trace[..n], lineSize);
      LineMisses(trace[..n], c, lineSize);
      LastLineMiss(trace, c, lineSize);
      SpatialStep(trace, c, lineSize);
    }
  }

  lemma LastMiss(trace: seq<nat>, c: nat)
    requires trace != []
    ensures var n := |trace| - 1;
      Misses(trace, 1, c) == Misses(trace[..n], 1, c) + if Resident(StackAfter(trace[..n]), trace[n], c) then 0 else 1
  {
    OneSetTrace(trace[..|trace| - 1]);
  }

  // The profile is built from addresses but its capacities count lines, so for a cache of c lines
  // the prediction is an upper bound on the misses, met exactly without spatial hits.
  lemma PredictionBoundsLines(trace: seq<nat>, c: nat, lineSize: nat)
    requires trace != [] && lineSize > 0 && c <= |Elements(trace)|
    ensures Misses(LinesOf(trace, lineSize), 1, c) <= Beyond(Profile(trace).entries, c)
    ensures Misses(LinesOf(trace, lineSize), 1, c) == Beyond(Profile(trace).entries, c) <==>
            forall i :: 0 <= i < |trace| ==> !SpatialHit(trace, i, c, lineSize)
  {
    PredictionExact(trace, c);
    LineMisses(trace, c, lineSize);
  }

  // ---------------------------------------------------------------- building the profile

  // The number of distinct addresses, by scanning the ones found so far.
  method CountUnique(addresses: seq<nat>) returns (unique: nat)
    ensures unique == |Elements(addresses)|
  {
    var uniqueAddrs := new nat[|addresses|](i => 0);
    unique := 0;
    for i := 0 to |addresses|
      invariant unique <= i && Distinct(uniqueAddrs[..unique])
      invariant forall x :: x in uniqueAddrs[..unique] <==> x in addresses[..i]
    {
      var found := false;
      for j := 0 to unique
        invariant !found ==> forall k :: 0 <= k < j ==> uniqueAddrs[k] != addresses[i]
        invariant found ==> addresses[i] in uniqueAddrs[..unique]
      {
        if uniqueAddrs[j] == addresses[i] {
          found := true;
          break;
        }
      }
      ghost var before := uniqueAddrs[..unique];
      if !found {
        uniqueAddrs[unique] := addresses[i];
        unique := unique + 1;
        assert uniqueAddrs[..unique] == before + [addresses[i]];
      }
      assert addresses[..i + 1] == addresses[..i] + [addresses[i]];
    }
    assert addresses[..|addresses|] == addresses;
    DistinctCount(uniqueAddrs[..unique]);
    assert Elements(uniqueAddrs[..unique]) == Elements(addresses);
  }

  // Moves the entries before pos down by one and puts x on top.
  method MoveToTop(stack: array<nat>, pos: nat, x: nat)
    requires pos < stack.Length
    modifies stack
    ensures stack[..pos + 1] == [x] + old(stack[..pos])
    ensures forall j :: pos < j < stack.Length ==> stack[j] == old(stack[j])
  {
    for j := pos downto 0
      invariant forall k :: 0 <= k <= j ==> stack[k] == old(stack[k])
      invariant forall k :: j < k <= pos ==> stack[k] == old(stack[k - 1])
      invariant forall k :: pos < k < stack.Length ==> stack[k] == old(stack[k])
    {
      stack[j + 1] := stack[j];
    }
    stack[0] := x;
  }

  // A line found in the stack moves to the top.
  lemma TouchFound(s: seq<nat>, pos: nat, x: nat)
    requires Distinct(s) && pos < |s| && s[pos] == x
    ensures Touch(s, x) == [x] + s[..pos] + s[pos + 1..] && Position(s, x) == pos
  {
    PositionUnique(s, x, pos);
  }

  lemma TouchNew(s: seq<nat>, x: nat)
    requires x !in s
    ensures Touch(s, x) == [x] + s
  {
    assert s[..|s|] == s;
  }

  // One access of the profiler: the bin it counts and the stack it leaves.
  method RecordAccess(stack: array<nat>, top: nat, histogram: array<nat>, addr: nat, ghost s: seq<nat>)
    returns (top': nat)
    requires stack != histogram && top <= stack.Length && histogram.Length == stack.Length + 1
    requires stack[..top] == s && Distinct(s) && (addr !in s ==> top < stack.Length)
    modifies stack, histogram
    ensures top' <= stack.Length && stack[..top'] == Touch(s, addr)
    ensures Bin(s, addr, stack.Length) <= stack.Length
    ensures var b := Bin(s, addr, stack.Length);
            histogram[..] == old(histogram[..])[b := old(histogram[b]) + 1]
  {
    hide Touch, Position;
    var pos := 0;
    while pos < top && stack[pos] != addr
      invariant pos <= top && forall k :: 0 <= k < pos ==> stack[k] != addr
    {
      pos := pos + 1;
    }
    if pos < top {
      TouchFound(s, pos, addr);
      histogram[pos] := histogram[pos] + 1;
      MoveToTop(stack, pos, addr);
      top' := top;
      assert stack[..top'] == stack[..pos + 1] + s[pos + 1..];
    } else {
      TouchNew(s, addr);
      histogram[stack.Length] := histogram[stack.Length] + 1;
      if top < stack.Length {
        MoveToTop(stack, top, addr);
        top' := top + 1;
        assert stack[..top'] == [addr] + s;
      } else {
        // The eviction branch for a full stack is unreachable.
        assert false;
      }
    }
  }

  lemma StackStep(trace: seq<nat>, x: nat)
    ensures StackAfter(trace + [x]) == Touch(StackAfter(trace), x)
  {
    assert (trace + [x])[..|trace|] == trace;
  }

  lemma FreshGrows(trace: seq<nat>, x: nat)
    requires x !in StackAfter(trace)
    ensures |Elements(trace + [x])| == |StackAfter(trace)| + 1
  {
    StackDistinct(trace);
    StackSize(trace);
    assert Elements(trace + [x]) == Elements(trace) + {x};
  }

  // The stack-distance profile of a trace; none for an empty one.
  method StackDistBuild(addresses: seq<nat>) returns (profile: Option<StackDistProfile>)
    ensures addresses == [] <==> profile.None?
    ensures addresses != [] ==> profile == Some(Profile(addresses))
    ensures addresses != [] ==>
      profile.value.totalReferences == |addresses| && profile.value.uniqueAddresses == |Elements(addresses)|
  {
    hide Touch, Position, StackAfter, Histogram, Bin, Elements;
    if |addresses| == 0 {
      return None;
    }
    var unique := CountUnique(addresses);
    var histogram := CountDistances(addresses, unique);
    var entries := [];
    for i := 0 to unique + 1
      invariant entries == Entries(histogram[..], i)
    {
      if histogram[i] > 0 {
        entries := entries + [StackDistEntry(i, histogram[i])];
      }
    }
    return Some(StackDistProfile(entries, |addresses|, unique));
  }

  // The stack and the histogram are those of the first i accesses.
  ghost predicate ProfiledUpTo(addresses: seq<nat>, i: nat, unique: nat, stack: array<nat>, top: nat, histogram: array<nat>)
    requires i <= |addresses|
    reads stack, histogram
  {
    stack != histogram && stack.Length == unique && histogram.Length == unique + 1 && top <= unique &&
    stack[..top] == StackAfter(addresses[..i]) &&
    |Elements(addresses[..i])| <= unique && histogram[..] == Histogram(addresses[..i], unique)
  }

  // One access of the pass.
  method ProfileAccess(addresses: seq<nat>, i: nat, unique: nat, stack: array<nat>, top: nat, histogram: array<nat>)
    returns (top': nat)
    requires i < |addresses| && unique == |Elements(addresses)| && ProfiledUpTo(addresses, i, unique, stack, top, histogram)
    modifies stack, histogram
    ensures ProfiledUpTo(addresses, i + 1, unique, stack, top', histogram)
  {
    hide Touch, Position, StackAfter, Histogram, Bin, Elements;
    ProfileStep(addresses, i, unique);
    top' := RecordAccess(stack, top, histogram, addresses[i], StackAfter(addresses[..i]));
  }

  // The pass over the trace: simulates the stack and counts distances.
  method CountDistances(addresses: seq<nat>, unique: nat) returns (histogram: array<nat>)
    requires unique == |Elements(addresses)|
    ensures |Elements(addresses)| <= unique && histogram[..] == Histogram(addresses, unique)
  {
    histogram := new nat[unique + 1](i => 0);
    var stack := new nat[unique](i => 0);
    var stackTop: nat := 0;
    EmptyHistogram(unique);
    assert addresses[..0] == [];
    assert histogram[..] == Histogram([], unique);
    assert ProfiledUpTo(addresses, 0, unique, stack, stackTop, histogram);
    hide ProfiledUpTo, Touch, Position, StackAfter, Histogram, Bin, Elements;
    for i := 0 to |addresses|
      invariant ProfiledUpTo(addresses, i, unique, stack, stackTop, histogram)
    {
      stackTop := ProfileAccess(addresses, i, unique, stack, stackTop, histogram);
    }
    Profiled(addresses, unique, stack, stackTop, histogram);
  }

  lemma Profiled(addresses: seq<nat>, unique: nat, stack: array<nat>, top: nat, histogram: array<nat>)
    requires ProfiledUpTo(addresses, |addresses|, unique, stack, top, histogram)
    ensures |Elements(addresses)| <= unique && histogram[..] == Histogram(addresses, unique)
  {
    assert addresses[..|addresses|] == addresses;
  }

  lemma ProfileStep(addresses: seq<nat>, i: nat, unique: nat)
    requires i < |addresses| && unique == |Elements(addresses)|
    ensures |Elements(addresses[..i])| <= unique && |Elements(addresses[..i + 1])| <= unique
    ensures var s := StackAfter(addresses[..i]); var x := addresses[i];
      Distinct(s) && (x !in s ==> |s| < unique) && StackAfter(addresses[..i + 1]) == Touch(s, x) &&
      var b := Bin(s, x, unique); var h := Histogram(addresses[..i], unique);
      b < |h| && Histogram(addresses[..i + 1], unique) == h[b := h[b] + 1]
  {
    hide Touch, Position, StackAfter, Histogram, Bin;
    var init, x := addresses[..i], addresses[i];
    PrefixSubset(addresses, i + 1);
    PrefixSubset(addresses, i);
    assert addresses[..i + 1] == init + [x];
    StackDistinct(init);
    HistogramStep(init, x, unique);
    StackStep(init, x);
    if x !in StackAfter(init) {
      FreshGrows(init, x);
    }
  }

  lemma PrefixSubset(trace: seq<nat>, n: nat)
    requires n <= |trace|
    ensures |Elements(trace[..n])| <= |Elements(trace)|
  {
    SubsetSize(Elements(trace[..n]), Elements(trace));
  }

  // The predicted miss rate of a fully associative LRU cache.
  method PredictMissRate(profile: StackDistProfile, cacheSize: nat, lineSize: nat) returns (rate: real)
    requires profile.totalReferences > 0
    ensures lineSize == 0 ==> rate == 0.0
    ensures lineSize > 0 ==>
      rate == PredictedRate(profile, cacheSize / lineSize)
  {
    if lineSize == 0 {
      return 0.0;
    }
    var cacheLines := cacheSize / lineSize;
    var missesBeyond := 0;
    for i := 0 to |profile.entries|
      invariant missesBeyond == Beyond(profile.entries[..i], cacheLines)
    {
      assert profile.entries[..i + 1][..i] == profile.entries[..i];
      if profile.entries[i].distance >= cacheLines {
        missesBeyond := missesBeyond + profile.entries[i].count;
      }
    }
    assert profile.entries[..|profile.entries|] == profile.entries;
    return missesBeyond as real / profile.totalReferences as real;
  }
}
