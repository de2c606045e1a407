/** Routes through the foot graph, and how the matrix of a component represents them. */
module FootRoutes {
  import opened FootComponents
  import opened FloydWarshall
  import opened Time

  /** Footpaths are sorted by their end, then by their duration. */
  ghost predicate SortedList(list: seq<Footpath>) {
    forall k, l :: 0 <= k < l < |list| ==> list[k].to < list[l].to || (list[k].to == list[l].to && list[k].duration <= list[l].duration)
  }

  ghost predicate SortedGraph(g: FootGraph) {
    forall u :: 0 <= u < |g| ==> SortedList(g[u])
  }

  /** The duration of the last footpath to v in a list, infinite if there is none. */
  function LastDuration(list: seq<Footpath>, v: nat): nat {
    if list == [] then INVALID_TIME
    else
      var last := list[|list| - 1];
      if last.to == v then last.duration else LastDuration(list[..|list| - 1], v)
  }

  lemma {:induction false} LastDurationMeaning(list: seq<Footpath>, v: nat)
    requires forall f :: f in list ==> f.duration < 0x1_0000
    ensures LastDuration(list, v) <= INVALID_TIME
    ensures LastDuration(list, v) < INVALID_TIME <==> exists f :: f in list && f.to == v
    ensures LastDuration(list, v) < INVALID_TIME ==> exists f :: f in list && f.to == v && f.duration == LastDuration(list, v)
  {
    if list != [] {
      var n := |list| - 1;
      var last := list[n];
      assert last in list;
      LastDurationMeaning(list[..n], v);
      if last.to != v && (exists f :: f in list && f.to == v) {
        var f :| f in list && f.to == v;
        assert f in list[..n];
      }
    }
  }

  /** Of parallel footpaths, the sorted merge keeps the longest: one that is later in the list. */
  lemma {:induction false} LastIsLongest(list: seq<Footpath>, f: Footpath)
    requires SortedList(list) && f in list
    ensures LastDuration(list, f.to) >= f.duration
  {
    var n := |list| - 1;
    var k :| 0 <= k < |list| && list[k] == f;
    if list[n].to != f.to {
      assert list[..n][k] == f;
      LastIsLongest(list[..n], f);
    }
  }

  /** The duration of walking directly from u to v. */
  function Step(g: FootGraph, u: nat, v: nat): nat
    requires u < |g|
  {
    LastDuration(g[u], v)
  }

  lemma StepIsEdge(g: FootGraph, u: nat, v: nat)
    requires ValidGraph(g) && u < |g|
    ensures Step(g, u, v) <= INVALID_TIME && (Step(g, u, v) < INVALID_TIME <==> Edge(g, u, v))
  {
    forall f | f in g[u]
      ensures f.duration < 0x1_0000
    {
      var k :| 0 <= k < |g[u]| && g[u][k] == f;
      assert g[u][k].duration < 0x1_0000;
    }
    LastDurationMeaning(g[u], v);
  }

  /** A route takes at least one footpath. */
  ghost predicate Route(g: FootGraph, p: seq<nat>, u: nat, v: nat) {
    |p| >= 2 && Path(g, p) && p[0] == u && p[|p| - 1] == v
  }

  function RouteLength(g: FootGraph, p: seq<nat>): nat
    requires p != [] && forall k :: 0 <= k < |p| ==> p[k] < |g|
  {
    if |p| == 1 then 0
    else RouteLength(g, p[..|p| - 1]) + Step(g, p[|p| - 2], p[|p| - 1])
  }

  ghost predicate InGraph(g: FootGraph, p: seq<nat>) {
    p != [] && forall k :: 0 <= k < |p| ==> p[k] < |g|
  }

  lemma PathInGraph(g: FootGraph, p: seq<nat>)
    requires Path(g, p)
    ensures InGraph(g, p)
  {
  }

  /** d is the length of a shortest route from u to v. */
  ghost predicate Shortest(g: FootGraph, u: nat, v: nat, d: nat) {
    && (exists p :: Route(g, p, u, v) && InGraph(g, p) && RouteLength(g, p) == d)
    && (forall p :: Route(g, p, u, v) && InGraph(g, p) ==> d <= RouteLength(g, p))
  }

  lemma ShortestIsUnique(g: FootGraph, u: nat, v: nat, d: nat, e: nat)
    requires Shortest(g, u, v, d) && Shortest(g, u, v, e)
    ensures d == e
  {
    var p :| Route(g, p, u, v) && InGraph(g, p) && RouteLength(g, p) == d;
    var q :| Route(g, q, u, v) && InGraph(g, q) && RouteLength(g, q) == e;
  }

  // ----- The matrix of a component

  /** Stations of a component, in ascending order; footpaths from them lead to them. */
  ghost predicate Members(g: FootGraph, members: seq<nat>) {
    && (forall i :: 0 <= i < |members| ==> members[i] < |g|)
    && (forall i, j :: 0 <= i < j < |members| ==> members[i] < members[j])
  }

  ghost predicate Inside(g: FootGraph, members: seq<nat>) {
    forall u, v :: u in members && Edge(g, u, v) ==> v in members
  }

  function StepMatrix(g: FootGraph, members: seq<nat>): (w: Matrix)
    requires forall i :: 0 <= i < |members| ==> members[i] < |g|
    ensures Square(w, |members|)
    ensures forall i, j :: 0 <= i < |members| && 0 <= j < |members| ==> w[i][j] == Step(g, members[i], members[j])
  {
    seq(|members|, i requires 0 <= i < |members| =>
      seq(|members|, j requires 0 <= j < |members| => Step(g, members[i], members[j])))
  }

  lemma StepMatrixBounded(g: FootGraph, members: seq<nat>)
    requires ValidGraph(g) && Members(g, members)
    ensures Bounded(StepMatrix(g, members), |members|)
  {
    forall i, j | 0 <= i < |members| && 0 <= j < |members|
      ensures StepMatrix(g, members)[i][j] <= INVALID_TIME
    {
      StepIsEdge(g, members[i], members[j]);
    }
  }

  /** The stations of a walk through the matrix. */
  function Stations(members: seq<nat>, q: seq<nat>): seq<nat>
    requires forall t :: 0 <= t < |q| ==> q[t] < |members|
  {
    seq(|q|, t requires 0 <= t < |q| => members[q[t]])
  }

  lemma {:induction false} WalkIsRoute(g: FootGraph, members: seq<nat>, q: seq<nat>)
    requires ValidGraph(g) && Members(g, members) && q != [] && forall t :: 0 <= t < |q| ==> q[t] < |members|
    ensures InGraph(g, Stations(members, q))
    ensures RouteLength(g, Stations(members, q)) == Length(StepMatrix(g, members), |members|, q)
    ensures Length(StepMatrix(g, members), |members|, q) < INVALID_TIME ==> Path(g, Stations(members, q))
  {
    hide ValidGraph, Step, Edge;
    var n := |q| - 1;
    var p := Stations(members, q);
    if n > 0 {
      var front := q[..n];
      WalkIsRoute(g, members, front);
      assert p[..n] == Stations(members, front);
      LastStep(g, members, q);
      StepIsEdge(g, p[n - 1], p[n]);
      if Length(StepMatrix(g, members), |members|, q) < INVALID_TIME {
        PathExtends(g, p);
      }
    }
  }

  lemma LastStep(g: FootGraph, members: seq<nat>, q: seq<nat>)
    requires Members(g, members) && |q| > 1 && forall t :: 0 <= t < |q| ==> q[t] < |members|
    ensures var p, n := Stations(members, q), |q| - 1;
            && InGraph(g, p)
            && RouteLength(g, p) == RouteLength(g, p[..n]) + Step(g, p[n - 1], p[n])
            && Length(StepMatrix(g, members), |members|, q) == Length(StepMatrix(g, members), |members|, q[..n]) + Step(g, p[n - 1], p[n])
  {
    hide Step;
  }

  lemma PathExtends(g: FootGraph, p: seq<nat>)
    requires InGraph(g, p) && |p| > 1 && Path(g, p[..|p| - 1]) && Edge(g, p[|p| - 2], p[|p| - 1])
    ensures Path(g, p)
  {
    hide Edge;
    var front := p[..|p| - 1];
    forall k {:trigger p[k]} | 0 < k < |p|
      ensures p[k] < |g| && Edge(g, p[k - 1], p[k])
    {
      if k < |p| - 1 {
        assert front[k] == p[k] && front[k - 1] == p[k - 1];
      }
    }
  }

  lemma {:induction false} RouteStaysInside(g: FootGraph, members: seq<nat>, p: seq<nat>)
    requires Inside(g, members) && Path(g, p) && p[0] in members
    ensures forall k :: 0 <= k < |p| ==> p[k] in members
  {
    assert p != [];
    hide Path, Edge;
    var n := |p| - 1;
    if n > 0 {
      PathFront(g, p);
      var front := p[..n];
      RouteStaysInside(g, members, front);
      assert front[n - 1] in members;
      forall k | 0 <= k < |p|
        ensures p[k] in members
      {
        if k < n {
          assert front[k] in members;
        }
      }
    } else {
      assert p[0] in members;
    }
  }

  function IndexOf(members: seq<nat>, v: nat): (i: nat)
    requires v in members
    ensures i < |members| && members[i] == v
  {
    if members[|members| - 1] == v then |members| - 1 else IndexOf(members[..|members| - 1], v)
  }

  function Indices(members: seq<nat>, p: seq<nat>): seq<nat>
    requires forall k :: 0 <= k < |p| ==> p[k] in members
  {
    seq(|p|, k requires 0 <= k < |p| => IndexOf(members, p[k]))
  }

  lemma RouteLowerBound(g: FootGraph, members: seq<nat>, i: nat, j: nat, p: seq<nat>)
    requires ValidGraph(g) && Members(g, members) && Inside(g, members) && i < |members| && j < |members|
    requires Route(g, p, members[i], members[j]) && InGraph(g, p)
    ensures Distance(StepMatrix(g, members), |members|, |members|, i, j) <= RouteLength(g, p)
  {
    hide ValidGraph, Inside, Path, RouteLength, Length, Distance, Stations, Indices, Walk;
    RouteStaysInside(g, members, p);
    var q := Indices(members, p);
    IndicesWalk(members, i, j, p);
    WalkShape(members, i, j, q);
    WalkIsRoute(g, members, q);
    DistanceIsLowerBound(StepMatrix(g, members), |members|, |members|, q, i, j);
  }

  lemma WalkShape(members: seq<nat>, i: nat, j: nat, q: seq<nat>)
    requires Walk(q, |members|, i, j)
    ensures q != [] && (forall t :: 0 <= t < |q| ==> q[t] < |members|) && InnerBelow(q, |members|)
  {
  }

  lemma IndicesWalk(members: seq<nat>, i: nat, j: nat, p: seq<nat>)
    requires (forall a, b :: 0 <= a < b < |members| ==> members[a] < members[b]) && i < |members| && j < |members|
    requires |p| >= 2 && (forall k :: 0 <= k < |p| ==> p[k] in members) && p[0] == members[i] && p[|p| - 1] == members[j]
    ensures Walk(Indices(members, p), |members|, i, j) && Stations(members, Indices(members, p)) == p
  {
    hide IndexOf;
    IndexUnique(members, i);
    IndexUnique(members, j);
  }

  /** The distance of two stations in the matrix of their component. */
  function ComponentDistance(g: FootGraph, members: seq<nat>, i: nat, j: nat): nat
    requires (forall t :: 0 <= t < |members| ==> members[t] < |g|) && i < |members| && j < |members|
  {
    Distance(StepMatrix(g, members), |members|, |members|, i, j)
  }

  lemma StationsRoute(g: FootGraph, members: seq<nat>, q: seq<nat>, i: nat, j: nat)
    requires i < |members| && j < |members| && Walk(q, |members|, i, j) && Path(g, Stations(members, q))
    ensures Route(g, Stations(members, q), members[i], members[j])
  {
    hide Path;
  }

  /** In a component that no footpath leaves, a finite matrix distance is the length of a shortest route. */
  lemma MatrixDistance(g: FootGraph, members: seq<nat>, i: nat, j: nat)
    requires ValidGraph(g) && Members(g, members) && Inside(g, members) && i < |members| && j < |members|
    requires ComponentDistance(g, members, i, j) < INVALID_TIME
    ensures Shortest(g, members[i], members[j], ComponentDistance(g, members, i, j))
  {
    hide Distance, ValidGraph, Inside, Path, RouteLength, Length, Stations;
    var q := DistanceIsAttained(StepMatrix(g, members), |members|, |members|, i, j);
    WalkIsRoute(g, members, q);
    StationsRoute(g, members, q, i, j);
    forall p | Route(g, p, members[i], members[j]) && InGraph(g, p)
      ensures ComponentDistance(g, members, i, j) <= RouteLength(g, p)
    {
      RouteLowerBound(g, members, i, j, p);
    }
  }

  /** Conversely, a shortest route below infinity is the matrix distance. */
  lemma ShortestIsMatrixDistance(g: FootGraph, members: seq<nat>, i: nat, j: nat, d: nat)
    requires ValidGraph(g) && Members(g, members) && Inside(g, members) && i < |members| && j < |members|
    requires Shortest(g, members[i], members[j], d) && d < INVALID_TIME
    ensures ComponentDistance(g, members, i, j) == d
  {
    hide Distance, ValidGraph, Inside, Path, RouteLength, Route;
    var p :| Route(g, p, members[i], members[j]) && InGraph(g, p) && RouteLength(g, p) == d;
    RouteLowerBound(g, members, i, j, p);
    MatrixDistance(g, members, i, j);
    ShortestIsUnique(g, members[i], members[j], d, ComponentDistance(g, members, i, j));
  }

  lemma {:induction false} IndexUnique(members: seq<nat>, i: nat)
    requires i < |members| && forall a, b :: 0 <= a < b < |members| ==> members[a] < members[b]
    ensures IndexOf(members, members[i]) == i
  {
  }
}
