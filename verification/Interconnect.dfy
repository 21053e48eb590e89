// mini-computer-arch/src/interconnect.c: mesh and ring routing.
module Interconnect {
  import opened Arithmetic

  const MAX_NODES: nat := 64
  const MAX_HOPS: nat := 16
  const TWO_32: nat := 0x1_0000_0000

  function Gap(a: nat, b: nat): nat {
    if a <= b then b - a else a - b
  }

  // ---------------------------------------------------------------- the mesh

  function Id(w: nat, x: nat, y: nat): nat {
    y * w + x
  }

  function X(w: nat, id: nat): nat
    requires w > 0
  {
    id % w
  }

  function Y(w: nat, id: nat): nat
    requires w > 0
  {
    id / w
  }

  lemma Coordinates(w: nat, x: nat, y: nat)
    requires x < w
    ensures X(w, Id(w, x, y)) == x && Y(w, Id(w, x, y)) == y
  {
    QuotientIs(Id(w, x, y), w, y, x);
    RemainderIs(Id(w, x, y), w, y, x);
  }

  lemma IdOfCoordinates(w: nat, id: nat)
    requires id < w * w
    ensures w > 0 && X(w, id) < w && Y(w, id) < w && Id(w, X(w, id), Y(w, id)) == id
  {
    DivisionLaw(id, w);
    if id / w >= w {
      MulMonotone(w, id / w, w);
    }
  }

  function Toward(c: nat, d: nat): nat {
    if d > c then c + 1 else if d < c then c - 1 else c
  }

  // Dimension-ordered route: along x to the column of the destination, then along y.
  function Route(w: nat, cx: nat, cy: nat, dx: nat, dy: nat): (r: seq<nat>)
    ensures |r| == Gap(cx, dx) + Gap(cy, dy) + 1 && r[0] == Id(w, cx, cy)
    decreases Gap(cx, dx) + Gap(cy, dy)
  {
    [Id(w, cx, cy)] +
    if cx != dx then Route(w, Toward(cx, dx), cy, dx, dy)
    else if cy != dy then Route(w, cx, Toward(cy, dy), dx, dy)
    else []
  }

  // Grid neighbours.
  predicate Adjacent(w: nat, u: nat, v: nat)
    requires w > 0
  {
    (Y(w, u) == Y(w, v) && Gap(X(w, u), X(w, v)) == 1) || (X(w, u) == X(w, v) && Gap(Y(w, u), Y(w, v)) == 1)
  }

  // The number of the channel from u to its neighbour v.
  function Rank(w: nat, u: nat, v: nat): int
    requires w > 0
  {
    if Y(w, u) == Y(w, v) then
      if X(w, v) > X(w, u) then X(w, u) else w - X(w, u)
    else
      w + if Y(w, v) > Y(w, u) then Y(w, u) else w - Y(w, u)
  }

  ghost predicate Walk(w: nat, r: seq<nat>)
    requires w > 0
  {
    forall i :: 0 <= i < |r| - 1 ==> Adjacent(w, r[i], r[i + 1])
  }

  ghost predicate RankRises(w: nat, r: seq<nat>)
    requires w > 0
  {
    forall i :: 0 <= i < |r| - 2 ==> Rank(w, r[i], r[i + 1]) < Rank(w, r[i + 1], r[i + 2])
  }

  // The first two nodes of a route, given its first step.
  lemma FirstStep(w: nat, cx: nat, cy: nat, nx: nat, ny: nat, tail: seq<nat>)
    requires cx < w && nx < w && |tail| > 0 && tail[0] == Id(w, nx, ny)
    requires (cy == ny && Gap(cx, nx) == 1) || (cx == nx && Gap(cy, ny) == 1)
    ensures var r := [Id(w, cx, cy)] + tail; Walk(w, tail) ==> Walk(w, r)
    ensures Rank(w, Id(w, cx, cy), Id(w, nx, ny))
         == if cy == ny then (if nx > cx then cx else w - cx) else w + if ny > cy then cy else w - cy
  {
    hide X, Y, Id;
    Coordinates(w, cx, cy);
    Coordinates(w, nx, ny);
    var r := [Id(w, cx, cy)] + tail;
    if Walk(w, tail) {
      forall i | 0 <= i < |r| - 1 ensures Adjacent(w, r[i], r[i + 1]) {
        if i > 0 {
          assert Adjacent(w, tail[i - 1], tail[i]);
        }
      }
    }
  }

  lemma RankPrepend(w: nat, u: nat, tail: seq<nat>)
    requires w > 0 && RankRises(w, tail)
    requires |tail| >= 2 ==> Rank(w, u, tail[0]) < Rank(w, tail[0], tail[1])
    ensures RankRises(w, [u] + tail)
  {
    hide Rank;
    var r := [u] + tail;
    forall i | 0 <= i < |r| - 2 ensures Rank(w, r[i], r[i + 1]) < Rank(w, r[i + 1], r[i + 2]) {
      if i > 0 {
        assert Rank(w, tail[i - 1], tail[i]) < Rank(w, tail[i], tail[i + 1]);
      }
    }
  }

  // The node after (cx, cy) on the way to (dx, dy).
  function StepX(cx: nat, dx: nat): nat {
    Toward(cx, dx)
  }

  function StepY(cx: nat, cy: nat, dx: nat, dy: nat): nat {
    if cx != dx then cy else Toward(cy, dy)
  }

  lemma RouteTail(w: nat, cx: nat, cy: nat, dx: nat, dy: nat)
    requires cx != dx || cy != dy
    ensures Route(w, cx, cy, dx, dy) == [Id(w, cx, cy)] + Route(w, StepX(cx, dx), StepY(cx, cy, dx, dy), dx, dy)
    ensures Gap(StepX(cx, dx), dx) + Gap(StepY(cx, cy, dx, dy), dy) < Gap(cx, dx) + Gap(cy, dy)
  {
  }

  lemma RouteEnd(w: nat, dx: nat, dy: nat)
    requires w > 0
    ensures var r := Route(w, dx, dy, dx, dy); r == [Id(w, dx, dy)] && Walk(w, r) && RankRises(w, r)
  {
  }

  // Every route ends at its destination, moves between grid neighbours and climbs the channel numbers.
  lemma {:induction false} RouteSound(w: nat, cx: nat, cy: nat, dx: nat, dy: nat)
    requires cx < w && dx < w && cy < w && dy < w
    ensures var r := Route(w, cx, cy, dx, dy); r[|r| - 1] == Id(w, dx, dy) && Walk(w, r) && RankRises(w, r)
    decreases Gap(cx, dx) + Gap(cy, dy)
  {
    hide X, Y, Id, Rank, Adjacent, Route, Walk, RankRises;
    if cx == dx && cy == dy {
      RouteEnd(w, dx, dy);
    } else {
      var nx, ny := StepX(cx, dx), StepY(cx, cy, dx, dy);
      var tail := Route(w, nx, ny, dx, dy);
      RouteTail(w, cx, cy, dx, dy);
      RouteSound(w, nx, ny, dx, dy);
      FirstStep(w, cx, cy, nx, ny, tail);
      if nx != dx || ny != dy {
        var mx, my := StepX(nx, dx), StepY(nx, ny, dx, dy);
        RouteTail(w, nx, ny, dx, dy);
        FirstStep(w, nx, ny, mx, my, Route(w, mx, my, dx, dy));
        assert tail[0] == Id(w, nx, ny) && tail[1] == Id(w, mx, my);
        assert Rank(w, Id(w, cx, cy), Id(w, nx, ny)) < Rank(w, Id(w, nx, ny), Id(w, mx, my));
      }
      RankPrepend(w, Id(w, cx, cy), tail);
    }
  }

  function NodeRoute(w: nat, src: nat, dst: nat): seq<nat>
    requires w > 0
  {
    Route(w, X(w, src), Y(w, src), X(w, dst), Y(w, dst))
  }

  // The route of two node numbers: from the first to the second, between neighbours, climbing.
  lemma NodeRouteSound(w: nat, src: nat, dst: nat)
    requires src < w * w && dst < w * w
    ensures w > 0
    ensures var r := NodeRoute(w, src, dst);
      r[0] == src && r[|r| - 1] == dst && Walk(w, r) && RankRises(w, r) &&
      |r| - 1 == Gap(X(w, src), X(w, dst)) + Gap(Y(w, src), Y(w, dst))
  {
    IdOfCoordinates(w, src);
    IdOfCoordinates(w, dst);
    hide X, Y, Id, Route, Rank, Walk, RankRises;
    RouteSound(w, X(w, src), Y(w, src), X(w, dst), Y(w, dst));
  }

  // Some route uses channel c and then channel d.
  ghost predicate DependsOn(w: nat, c: (nat, nat), d: (nat, nat))
    requires w > 0
  {
    exists src: nat, dst: nat, i: nat ::
      src < w * w && dst < w * w && i + 2 < |NodeRoute(w, src, dst)| &&
      c == (NodeRoute(w, src, dst)[i], NodeRoute(w, src, dst)[i + 1]) &&
      d == (NodeRoute(w, src, dst)[i + 1], NodeRoute(w, src, dst)[i + 2])
  }

  // A chain of channel dependencies climbs, so none returns to its first channel: no deadlock cycle.
  lemma {:induction false} NoCyclicDependency(w: nat, cs: seq<(nat, nat)>)
    requires w > 0 && |cs| >= 2
    requires forall i :: 0 <= i < |cs| - 1 ==> DependsOn(w, cs[i], cs[i + 1])
    ensures Rank(w, cs[0].0, cs[0].1) < Rank(w, cs[|cs| - 1].0, cs[|cs| - 1].1)
    ensures cs[0] != cs[|cs| - 1]
  {
    hide Rank, X, Y, Route;
    var n := |cs|;
    var c, d := cs[n - 2], cs[n - 1];
    assert DependsOn(w, c, d);
    var src: nat, dst: nat, i: nat :|
      src < w * w && dst < w * w && i + 2 < |NodeRoute(w, src, dst)| &&
      c == (NodeRoute(w, src, dst)[i], NodeRoute(w, src, dst)[i + 1]) &&
      d == (NodeRoute(w, src, dst)[i + 1], NodeRoute(w, src, dst)[i + 2]);
    NodeRouteSound(w, src, dst);
    if n > 2 {
      NoCyclicDependency(w, cs[..n - 1]);
    }
  }

  // No walk between two nodes is shorter than the sum of their coordinate distances.
  lemma {:induction false} MeshShortest(w: nat, r: seq<nat>)
    requires w > 0 && |r| > 0 && Walk(w, r)
    ensures |r| - 1 >= Gap(X(w, r[0]), X(w, r[|r| - 1])) + Gap(Y(w, r[0]), Y(w, r[|r| - 1]))
  {
    if |r| > 1 {
      MeshShortest(w, r[..|r| - 1]);
      assert Adjacent(w, r[|r| - 2], r[|r| - 1]);
    }
  }

  // Moving the first node of the rest of a route to the part already written.
  lemma Extend(before: seq<nat>, now: seq<nat>, rest: seq<nat>, full: seq<nat>)
    requires |rest| > 0 && now == before + [rest[0]] && before + rest == full
    ensures now + rest[1..] == full
  {
  }

  // The two loops of the mesh route: along x, then along y.
  method FollowRoute(w: nat, sx: nat, sy: nat, dx: nat, dy: nat, path: array<nat>) returns (hops: nat, len: nat)
    requires path.Length > Gap(sx, dx) + Gap(sy, dy)
    modifies path
    ensures hops == Gap(sx, dx) + Gap(sy, dy) && len == hops + 1 && path[..len] == Route(w, sx, sy, dx, dy)
    ensures forall i :: len <= i < path.Length ==> path[i] == old(path[i])
  {
    hide Id, Route;
    ghost var full := Route(w, sx, sy, dx, dy);
    hops, len := 0, 0;
    var cx: nat, cy: nat := sx, sy;
    path[len], len := Id(w, cx, cy), len + 1;
    assert path[..len] == [Id(w, cx, cy)];
    assert path[..len] + full[1..] == full;
    while cx != dx
      invariant len == hops + 1 && hops == Gap(sx, dx) - Gap(cx, dx) && Gap(cx, dx) <= Gap(sx, dx) && cy == sy
      invariant path[..len] + Route(w, cx, cy, dx, dy)[1..] == full
      invariant forall i :: len <= i < path.Length ==> path[i] == old(path[i])
      decreases Gap(cx, dx)
    {
      RouteTail(w, cx, cy, dx, dy);
      ghost var before := path[..len];
      cx := if dx > cx then cx + 1 else cx - 1;
      path[len], len := Id(w, cx, cy), len + 1;
      Extend(before, path[..len], Route(w, cx, cy, dx, dy), full);
      hops := hops + 1;
    }
    while cy != dy
      invariant len == hops + 1 && hops == Gap(sx, dx) + Gap(sy, dy) - Gap(cy, dy) && Gap(cy, dy) <= Gap(sy, dy) && cx == dx
      invariant path[..len] + Route(w, cx, cy, dx, dy)[1..] == full
      invariant forall i :: len <= i < path.Length ==> path[i] == old(path[i])
      decreases Gap(cy, dy)
    {
      RouteTail(w, cx, cy, dx, dy);
      ghost var before := path[..len];
      cy := if dy > cy then cy + 1 else cy - 1;
      path[len], len := Id(w, cx, cy), len + 1;
      Extend(before, path[..len], Route(w, cx, cy, dx, dy), full);
      hops := hops + 1;
    }
    assert path[..len] + [] == path[..len];
  }

  method MeshRoute(w: nat, src: nat, dst: nat, path: array<nat>) returns (hops: nat, len: nat)
    requires path.Length > 0
    requires src < w * w && dst < w * w ==> path.Length > Gap(X(w, src), X(w, dst)) + Gap(Y(w, src), Y(w, dst))
    modifies path
    ensures src < w * w && dst < w * w ==>
      hops == Gap(X(w, src), X(w, dst)) + Gap(Y(w, src), Y(w, dst)) && len == hops + 1 && path[..len] == NodeRoute(w, src, dst)
    ensures !(src < w * w && dst < w * w) ==> hops == 1 && len == 1 && path[0] == src
    ensures len <= path.Length && forall i :: len <= i < path.Length ==> path[i] == old(path[i])
  {
    if src >= w * w || dst >= w * w {
      path[0] := src;
      return 1, 1;
    }
    hide Route, Id, Gap, X, Y;
    IdOfCoordinates(w, src);
    var sx, sy, dx, dy := X(w, src), Y(w, src), X(w, dst), Y(w, dst);
    hops, len := FollowRoute(w, sx, sy, dx, dy, path);
  }

  // ---------------------------------------------------------------- room for a mesh route

  // Every route between two nodes that exist fits the path buffers of the callers.
  ghost predicate MeshFits(w: nat)
    requires w > 0
  {
    forall src: nat, dst: nat :: src < MAX_NODES && dst < MAX_NODES && src < w * w && dst < w * w ==>
      |NodeRoute(w, src, dst)| <= MAX_HOPS
  }

  // Entries of the route between two points of the mesh.
  lemma RouteLength(w: nat, sx: nat, sy: nat, dx: nat, dy: nat)
    requires sx < w && dx < w
    ensures |NodeRoute(w, Id(w, sx, sy), Id(w, dx, dy))| == Gap(sx, dx) + Gap(sy, dy) + 1
  {
    hide X, Y, Id, Route;
    Coordinates(w, sx, sy);
    Coordinates(w, dx, dy);
  }

  // The last node number divisible by the width (or node 0) and the last of the first row (or node 16).
  lemma MeshOverflows(w: nat)
    requires w >= 12
    ensures !MeshFits(w)
  {
    var sy := if w == 12 then 5 else if w <= 15 then 4 else if w == 16 then 3 else 0;
    var dx := if w <= 16 then w - 1 else 16;
    RouteLength(w, 0, sy, dx, 0);
    MulMonotone(12, w, w);
    hide NodeRoute;
    assert Id(w, 0, sy) < MAX_NODES && Id(w, dx, 0) < MAX_NODES;
  }

  // The rows of node numbers below 64.
  lemma RowBound(w: nat, id: nat)
    requires 9 <= w <= 11 && id < MAX_NODES
    ensures Y(w, id) <= 16 - w
  {
    var y := id / w;
    DivisionLaw(id, w);
    if y >= 17 - w {
      MulMonotone(17 - w, y, w);
      assert w == 9 || w == 10 || w == 11;
    }
  }

  lemma NarrowMesh(w: nat, src: nat, dst: nat)
    requires 0 < w <= 11 && src < MAX_NODES && dst < MAX_NODES && src < w * w && dst < w * w
    ensures |NodeRoute(w, src, dst)| <= MAX_HOPS
  {
    IdOfCoordinates(w, src);
    IdOfCoordinates(w, dst);
    if w >= 9 {
      RowBound(w, src);
      RowBound(w, dst);
    }
    hide X, Y, Route;
  }

  // For node numbers the router admits, every mesh route fits in 16 entries exactly up to width 11.
  lemma MeshFitsIff(w: nat)
    requires w > 0
    ensures MeshFits(w) <==> w <= 11
  {
    hide NodeRoute;
    if w <= 11 {
      forall src: nat, dst: nat | src < MAX_NODES && dst < MAX_NODES && src < w * w && dst < w * w
        ensures |NodeRoute(w, src, dst)| <= MAX_HOPS
      {
        NarrowMesh(w, src, dst);
      }
    } else {
      MeshOverflows(w);
    }
  }

  // ---------------------------------------------------------------- the ring

  function Forward(n: nat, src: nat, dst: nat): nat
    requires src < n && dst < n
  {
    if dst >= src then dst - src else n - src + dst
  }

  function RingDistance(n: nat, src: nat, dst: nat): (r: nat)
    requires src < n && dst < n
    ensures r * 2 <= n
  {
    if Forward(n, src, dst) <= Forward(n, dst, src) then Forward(n, src, dst) else Forward(n, dst, src)
  }

  function Next(n: nat, u: nat): nat {
    if u + 1 == n then 0 else u + 1
  }

  ghost predicate RingWalk(n: nat, r: seq<nat>) {
    (forall i :: 0 <= i < |r| ==> r[i] < n) &&
    forall i :: 0 <= i < |r| - 1 ==> r[i + 1] == Next(n, r[i]) || r[i] == Next(n, r[i + 1])
  }

  // No walk around the ring is shorter than the ring distance of its ends.
  lemma {:induction false} RingShortest(n: nat, r: seq<nat>)
    requires |r| > 0 && RingWalk(n, r)
    ensures |r| - 1 >= RingDistance(n, r[0], r[|r| - 1])
  {
    if |r| > 1 {
      RingShortest(n, r[..|r| - 1]);
      assert r[|r| - 1] == Next(n, r[|r| - 2]) || r[|r| - 2] == Next(n, r[|r| - 1]);
    }
  }

  lemma SingleNode(n: nat, r: seq<nat>)
    requires |r| == 1 && r[0] < n
    ensures RingWalk(n, r)
  {
  }

  lemma RingAppend(n: nat, r: seq<nat>, v: nat)
    requires |r| > 0 && RingWalk(n, r) && v < n
    requires v == Next(n, r[|r| - 1]) || r[|r| - 1] == Next(n, v)
    ensures RingWalk(n, r + [v])
  {
  }

  // The two distances of the routine, in 32-bit arithmetic; nodes need not lie on the ring.
  function ForwardDistance(n: nat, src: nat, dst: nat): nat {
    if dst >= src then dst - src else (n - src + dst) % TWO_32
  }

  function BackwardDistance(n: nat, src: nat, dst: nat): nat {
    if src >= dst then src - dst else (src + n - dst) % TWO_32
  }

  function RingHops(n: nat, src: nat, dst: nat): nat {
    if ForwardDistance(n, src, dst) <= BackwardDistance(n, src, dst) then ForwardDistance(n, src, dst)
    else BackwardDistance(n, src, dst)
  }

  // The nodes of a ring path: the source counted modulo the ring, then the nodes written.
  ghost function OnRing(n: nat, src: nat, path: seq<nat>): (r: seq<nat>)
    requires n > 0 && path != []
    ensures |r| == |path|
  {
    [src % n] + path[1..]
  }

  lemma OnRingAppend(n: nat, src: nat, path: seq<nat>, v: nat)
    requires n > 0 && path != []
    ensures OnRing(n, src, path + [v]) == OnRing(n, src, path) + [v]
  {
  }

  lemma InsideRing(n: nat, src: nat, path: seq<nat>)
    requires path != [] && path[0] == src < n
    ensures OnRing(n, src, path) == path
  {
    RemainderIs(src, n, 0, src);
  }

  method GoForward(n: nat, src: nat, dist: nat, path: array<nat>) returns (hops: nat, len: nat)
    requires n > 0 && path.Length > dist && path[0] == src
    modifies path
    ensures hops == dist && len == dist + 1 && path[0] == src
    ensures RingWalk(n, OnRing(n, src, path[..len])) && OnRing(n, src, path[..len])[dist] == (src + dist) % n
    ensures forall k :: 1 <= k < len ==> path[k] == (src + k) % n
    ensures forall j :: len <= j < path.Length ==> path[j] == old(path[j])
  {
    hide RingWalk;
    hops, len := 0, 1;
    SingleNode(n, OnRing(n, src, path[..len]));
    for i := 1 to dist + 1
      invariant hops == i - 1 && len == i && path[0] == src
      invariant RingWalk(n, OnRing(n, src, path[..len])) && OnRing(n, src, path[..len])[hops] == (src + hops) % n
      invariant forall k :: 1 <= k < len ==> path[k] == (src + k) % n
      invariant forall j :: len <= j < path.Length ==> path[j] == old(path[j])
    {
      NextRemainder(src + hops, n);
      ghost var before := path[..len];
      path[len], len := (src + i) % n, len + 1;
      assert path[..len] == before + [path[len - 1]];
      OnRingAppend(n, src, before, path[len - 1]);
      RingAppend(n, OnRing(n, src, before), path[len - 1]);
      hops := hops + 1;
    }
  }

  method GoBackward(n: nat, src: nat, dist: nat, path: array<nat>) returns (hops: nat, len: nat)
    requires n > 0 && dist <= src + n && path.Length > dist && path[0] == src
    modifies path
    ensures hops == dist && len == dist + 1 && path[0] == src
    ensures RingWalk(n, OnRing(n, src, path[..len])) && OnRing(n, src, path[..len])[dist] == (src + n - dist) % n
    ensures forall k :: 1 <= k < len ==> path[k] == (src + n - k) % n
    ensures forall j :: len <= j < path.Length ==> path[j] == old(path[j])
  {
    hide RingWalk;
    hops, len := 0, 1;
    SingleNode(n, OnRing(n, src, path[..len]));
    AddRing(src, n);
    for i := 1 to dist + 1
      invariant hops == i - 1 && len == i && path[0] == src
      invariant RingWalk(n, OnRing(n, src, path[..len])) && OnRing(n, src, path[..len])[hops] == (src + n - hops) % n
      invariant forall k :: 1 <= k < len ==> path[k] == (src + n - k) % n
      invariant forall j :: len <= j < path.Length ==> path[j] == old(path[j])
    {
      NextRemainder(src + n - i, n);
      ghost var before := path[..len];
      path[len], len := (src + n - i) % n, len + 1;
      assert path[..len] == before + [path[len - 1]];
      OnRingAppend(n, src, before, path[len - 1]);
      RingAppend(n, OnRing(n, src, before), path[len - 1]);
      hops := hops + 1;
    }
  }

  lemma AddRing(a: nat, n: nat)
    requires n > 0
    ensures (a + n) % n == a % n
  {
    DivisionLaw(a, n);
    Distribute(a / n, -1, n);
    RemainderIs(a + n, n, a / n + 1, a % n);
  }

  // A distance that wrapped is never the smaller one.
  lemma Wrapped(x: int)
    ensures 0 <= x < TWO_32 ==> x % TWO_32 == x
    ensures x < 0 <= x + MAX_NODES ==> x % TWO_32 >= MAX_NODES
  {
    if x < 0 <= x + MAX_NODES {
      assert x % TWO_32 == x + TWO_32;
    }
  }

  lemma ForwardEnds(n: nat, src: nat, dst: nat)
    requires 0 < n <= MAX_NODES && src < MAX_NODES && dst < MAX_NODES
    requires ForwardDistance(n, src, dst) <= BackwardDistance(n, src, dst)
    ensures (src + ForwardDistance(n, src, dst)) % n == dst % n
  {
    hide BackwardDistance;
    if dst < src {
      assert BackwardDistance(n, src, dst) == src - dst by { BackwardIs(n, src, dst); }
      Wrapped(n - src + dst);
      AddRing(dst, n);
    }
  }

  lemma BackwardIs(n: nat, src: nat, dst: nat)
    requires dst <= src
    ensures BackwardDistance(n, src, dst) == src - dst
  {
  }

  lemma BackwardEnds(n: nat, src: nat, dst: nat)
    requires 0 < n <= MAX_NODES && src < MAX_NODES && dst < MAX_NODES
    requires ForwardDistance(n, src, dst) > BackwardDistance(n, src, dst)
    ensures BackwardDistance(n, src, dst) <= src + n
    ensures (src + n - BackwardDistance(n, src, dst)) % n == dst % n
  {
    AddRing(dst, n);
    if src < dst {
      Wrapped(src + n - dst);
    }
  }

  lemma OnRingDistance(n: nat, src: nat, dst: nat)
    requires n <= MAX_NODES && src < n && dst < n
    ensures RingHops(n, src, dst) == RingDistance(n, src, dst)
    ensures src % n == src && dst % n == dst
  {
    Wrapped(n - src + dst);
    Wrapped(src + n - dst);
    RemainderIs(src, n, 0, src);
    RemainderIs(dst, n, 0, dst);
  }

  // The smaller 32-bit distance: around the ring while the nodes are at most a ring apart, else straight.
  lemma HopsByGap(n: nat, src: nat, dst: nat)
    requires 0 < n <= MAX_NODES && src < MAX_NODES && dst < MAX_NODES
    ensures var g := Gap(src, dst);
      RingHops(n, src, dst) == if g > n then g else Min(g, n - g)
  {
    Wrapped(n - src + dst);
    Wrapped(src + n - dst);
  }

  lemma NearRemainder(n: nat, a: nat, g: nat)
    requires n > 0 && g <= n
    ensures var r := a % n; (a + g) % n == if r + g < n then r + g else r + g - n
  {
    var q, r := a / n, a % n;
    DivisionLaw(a, n);
    if r + g < n {
      RemainderIs(a + g, n, q, r + g);
    } else {
      Distribute(q, -1, n);
      RemainderIs(a + g, n, q + 1, r + g - n);
    }
  }

  lemma StepsApart(n: nat, r: nat, g: nat, q: nat)
    requires r < n && g <= n && q == if r + g < n then r + g else r + g - n
    ensures RingDistance(n, r, q) == RingDistance(n, q, r) == Min(g, n - g)
  {
  }

  // The ring distance of two numbers at most a ring apart, both counted modulo the ring.
  lemma NearDistance(n: nat, a: nat, g: nat)
    requires n > 0 && g <= n
    ensures RingDistance(n, a % n, (a + g) % n) == RingDistance(n, (a + g) % n, a % n) == Min(g, n - g)
  {
    hide RingDistance;
    NearRemainder(n, a, g);
    StepsApart(n, a % n, g, (a + g) % n);
  }

  // Of any two nodes the router admits, on the ring or not, the route is a shortest one exactly when
  // their numbers are at most a ring apart.
  lemma RingShortestIff(n: nat, src: nat, dst: nat)
    requires 0 < n <= MAX_NODES && src < MAX_NODES && dst < MAX_NODES
    ensures RingHops(n, src, dst) == RingDistance(n, src % n, dst % n) <==> Gap(src, dst) <= n
  {
    hide RingDistance, RingHops;
    HopsByGap(n, src, dst);
    if src <= dst <= src + n {
      NearDistance(n, src, dst - src);
    } else if dst <= src <= dst + n {
      NearDistance(n, dst, src - dst);
    }
  }

  // On a ring of four, node 5 is one step from node 0 and node 63 too; the routes take 5 and 63 steps.
  lemma FarRouteCounterexample()
    ensures RingHops(4, 0, 5) == 5 && RingDistance(4, 0 % 4, 5 % 4) == 1
    ensures RingHops(4, 0, 63) == 63 && RingDistance(4, 0 % 4, 63 % 4) == 1
  {
    HopsByGap(4, 0, 5);
    HopsByGap(4, 0, 63);
  }

  // A route has one entry more than hops; every route of a ring fits in 16 entries exactly up to 31 nodes.
  lemma RingFitsIff(n: nat)
    requires n <= MAX_NODES
    ensures (forall src: nat, dst: nat | src < n && dst < n :: RingHops(n, src, dst) + 1 <= MAX_HOPS) <==> n <= 31
  {
    hide RingHops;
    if n <= 31 {
      forall src: nat, dst: nat | src < n && dst < n ensures RingHops(n, src, dst) + 1 <= MAX_HOPS {
        HopsByGap(n, src, dst);
      }
    } else {
      HopsByGap(n, 0, 16);
      assert RingHops(n, 0, 16) == 16;
    }
  }

  // A walk around the ring from the source to the destination, both modulo the ring; between nodes of
  // the ring it takes the ring distance, between others as RingShortestIff says.
  method RingRoute(n: nat, src: nat, dst: nat, path: array<nat>) returns (hops: nat, len: nat)
    requires n <= MAX_NODES && src < MAX_NODES && dst < MAX_NODES
    requires n > 0 ==> path.Length > RingHops(n, src, dst)
    modifies path
    ensures n == 0 ==> hops == 0 && len == 0
    ensures n > 0 ==> hops == RingHops(n, src, dst) && len == hops + 1 && path[0] == src
    ensures n > 0 && ForwardDistance(n, src, dst) <= BackwardDistance(n, src, dst) ==>
      forall k :: 1 <= k < len ==> path[k] == (src + k) % n
    ensures n > 0 ==> RingWalk(n, OnRing(n, src, path[..len])) && OnRing(n, src, path[..len])[hops] == dst % n
    ensures src < n && dst < n ==> hops == RingDistance(n, src, dst) && path[hops] == dst && RingWalk(n, path[..len])
    ensures len <= path.Length && forall i :: len <= i < path.Length ==> path[i] == old(path[i])
  {
    if n == 0 {
      return 0, 0;
    }
    hide RingWalk, OnRing, ForwardDistance, BackwardDistance, RingDistance;
    var forwardDist := ForwardDistance(n, src, dst);
    var backwardDist := BackwardDistance(n, src, dst);
    path[0] := src;
    if forwardDist <= backwardDist {
      ForwardEnds(n, src, dst);
      hops, len := GoForward(n, src, forwardDist, path);
    } else {
      BackwardEnds(n, src, dst);
      hops, len := GoBackward(n, src, backwardDist, path);
    }
    if src < n && dst < n {
      OnRingDistance(n, src, dst);
      InsideRing(n, src, path[..len]);
    }
  }
}
