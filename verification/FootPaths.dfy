/** Replacing the foot graph by its transitive closure, one label class after the other. */
module FootPaths {
  import opened FootComponents
  import opened FloydWarshall
  import opened Time
  import opened FootRoutes

  // ----- What the lists of a station promise

  /** A list of outgoing footpaths: one to every station that is reached below infinity, as long as a shortest route. */
  ghost predicate OutgoingExact(g: FootGraph, u: nat, list: seq<Footpath>) {
    && (forall f :: f in list ==> f.from == u && f.to != u && f.duration < INVALID_TIME && Shortest(g, u, f.to, f.duration))
    && (forall v: nat, d: nat {:trigger Shortest(g, u, v, d)} :: Shortest(g, u, v, d) && d < INVALID_TIME && v != u ==> Footpath(u, v, d) in list)
    && (forall k, l :: 0 <= k < l < |list| ==> list[k].to != list[l].to)
  }

  /** The incoming lists mirror the outgoing ones. */
  ghost predicate Mirrored(outgoing: seq<seq<Footpath>>, incoming: seq<seq<Footpath>>) {
    && |incoming| == |outgoing|
    && (forall v, f {:trigger f in incoming[v]} :: 0 <= v < |incoming| ==>
          (f in incoming[v] <==> f.to == v && f.from < |outgoing| && f in outgoing[f.from]))
    && (forall v, k, l :: 0 <= v < |incoming| && 0 <= k < l < |incoming[v]| ==> incoming[v][k] != incoming[v][l])
  }

  ghost predicate Promise(g: FootGraph, outgoing: seq<seq<Footpath>>, incoming: seq<seq<Footpath>>) {
    && |outgoing| == |g|
    && (forall u :: 0 <= u < |g| ==> OutgoingExact(g, u, outgoing[u]))
    && Mirrored(outgoing, incoming)
  }

  /** A listed footpath from a to b and one from b to c give a listed footpath from a to c that is not longer than both. */
  lemma PromiseIsTransitive(g: FootGraph, outgoing: seq<seq<Footpath>>, incoming: seq<seq<Footpath>>, first: Footpath, second: Footpath)
    requires ValidGraph(g) && Promise(g, outgoing, incoming)
    requires first.from < |g| && first in outgoing[first.from] && first.to < |g| && second in outgoing[first.to]
    requires second.to != first.from && first.duration + second.duration < INVALID_TIME
    ensures exists f :: f in outgoing[first.from] && f.to == second.to && f.duration <= first.duration + second.duration
  {
    hide ValidGraph, Path, RouteLength;
    var u, v, w := first.from, first.to, second.to;
    var p :| Route(g, p, u, v) && InGraph(g, p) && RouteLength(g, p) == first.duration;
    var q :| Route(g, q, v, w) && InGraph(g, q) && RouteLength(g, q) == second.duration;
    var d := JoinedRoute(g, p, q, u, v, w);
    assert Footpath(u, w, d) in outgoing[u];
  }

  /** A station lists a footpath to exactly the other stations that it reaches by a route below infinity. */
  lemma ListedIffReached(g: FootGraph, outgoing: seq<seq<Footpath>>, incoming: seq<seq<Footpath>>, u: nat, v: nat)
    requires ValidGraph(g) && Promise(g, outgoing, incoming) && u < |g|
    ensures (exists f :: f in outgoing[u] && f.to == v) <==>
            u != v && exists p :: Route(g, p, u, v) && InGraph(g, p) && RouteLength(g, p) < INVALID_TIME
  {
    hide ValidGraph, Route, RouteLength, Mirrored;
    if f :| f in outgoing[u] && f.to == v {
      assert Shortest(g, u, v, f.duration);
    }
    if p :| u != v && Route(g, p, u, v) && InGraph(g, p) && RouteLength(g, p) < INVALID_TIME {
      var d := RouteHasShortest(g, p, u, v);
      assert Footpath(u, v, d) in outgoing[u];
    }
  }

  lemma JoinedRoute(g: FootGraph, p: seq<nat>, q: seq<nat>, u: nat, v: nat, w: nat) returns (d: nat)
    requires ValidGraph(g) && Route(g, p, u, v) && InGraph(g, p) && Route(g, q, v, w) && InGraph(g, q)
    requires RouteLength(g, p) + RouteLength(g, q) < INVALID_TIME
    ensures d <= RouteLength(g, p) + RouteLength(g, q) && Shortest(g, u, w, d)
  {
    hide ValidGraph, RouteLength;
    RoutesJoin(g, p, q);
    d := RouteHasShortest(g, p + q[1..], u, w);
  }

  /** Routes that meet join to a route as long as both. */
  lemma {:induction false} RoutesJoin(g: FootGraph, p: seq<nat>, q: seq<nat>)
    requires Path(g, p) && InGraph(g, p) && Path(g, q) && InGraph(g, q) && p[|p| - 1] == q[0]
    ensures Path(g, p + q[1..]) && InGraph(g, p + q[1..])
    ensures RouteLength(g, p + q[1..]) == RouteLength(g, p) + RouteLength(g, q)
    decreases |q|
  {
    if |q| == 1 {
      assert p + q[1..] == p;
    } else {
      var n := |q| - 1;
      PathFront(g, q);
      PathInGraph(g, q[..n]);
      RoutesJoin(g, p, q[..n]);
      RouteExtends(g, p + q[..n][1..], q[n]);
      assert p + q[1..] == p + q[..n][1..] + [q[n]];
    }
  }

  lemma RouteExtends(g: FootGraph, p: seq<nat>, v: nat)
    requires Path(g, p) && InGraph(g, p) && v < |g| && Edge(g, p[|p| - 1], v)
    ensures Path(g, p + [v]) && InGraph(g, p + [v])
    ensures RouteLength(g, p + [v]) == RouteLength(g, p) + Step(g, p[|p| - 1], v)
  {
    hide Edge, Step;
    var q := p + [v];
    assert q[..|q| - 1] == p;
    forall k {:trigger q[k]} | 0 < k < |q|
      ensures q[k] < |g| && Edge(g, q[k - 1], q[k])
    {
      if k < |p| {
        assert p[k] < |g|;
      }
    }
  }

  /** If there is a route below infinity, there is a shortest one: the whole graph is closed under footpaths. */
  lemma RouteHasShortest(g: FootGraph, p: seq<nat>, u: nat, v: nat) returns (d: nat)
    requires ValidGraph(g) && Route(g, p, u, v) && InGraph(g, p) && RouteLength(g, p) < INVALID_TIME
    ensures d <= RouteLength(g, p) && Shortest(g, u, v, d)
  {
    hide Path, RouteLength, Distance, Inside;
    var all := seq(|g|, i requires 0 <= i < |g| => i);
    assert u < |g| && v < |g| && all[u] == u && all[v] == v;
    WholeGraphInside(g, all);
    RouteLowerBound(g, all, u, v, p);
    d := ComponentDistance(g, all, u, v);
    MatrixDistance(g, all, u, v);
  }

  lemma WholeGraphInside(g: FootGraph, all: seq<nat>)
    requires ValidGraph(g) && |all| == |g| && forall i :: 0 <= i < |g| ==> all[i] == i
    ensures Inside(g, all)
  {
    forall u: nat, v: nat | u in all && Edge(g, u, v)
      ensures v in all
    {
      EdgeEnd(g, u, v);
      assert all[v] == v;
    }
  }

  lemma EdgeEnd(g: FootGraph, u: nat, v: nat)
    requires ValidGraph(g) && Edge(g, u, v)
    ensures u < |g| && v < |g| && v != u
  {
    var f :| f in g[u] && f.to == v;
  }

  lemma EdgeHasShortest(g: FootGraph, u: nat, v: nat) returns (d: nat)
    requires ValidGraph(g) && Edge(g, u, v)
    ensures d < INVALID_TIME && Shortest(g, u, v, d)
  {
    EdgeEnd(g, u, v);
    StepIsEdge(g, u, v);
    var p := [u, v];
    assert Path(g, p);
    assert p[..1] == [u];
    assert RouteLength(g, p) == Step(g, u, v);
    d := RouteHasShortest(g, p, u, v);
  }

  // ----- The lists that a matrix of distances gives

  /** At most one footpath for a cell of the matrix. */
  function Cell(w: Matrix, members: seq<nat>, i: nat, j: nat): seq<Footpath>
    requires Square(w, |members|) && i < |members| && j < |members|
  {
    if w[i][j] == INVALID_TIME || i == j then [] else [Footpath(members[i], members[j], w[i][j])]
  }

  function OutRow(w: Matrix, members: seq<nat>, i: nat, upto: nat): seq<Footpath>
    requires Square(w, |members|) && i < |members| && upto <= |members|
  {
    if upto == 0 then [] else OutRow(w, members, i, upto - 1) + Cell(w, members, i, upto - 1)
  }

  function InColumn(w: Matrix, members: seq<nat>, j: nat, upto: nat): seq<Footpath>
    requires Square(w, |members|) && j < |members| && upto <= |members|
  {
    if upto == 0 then [] else InColumn(w, members, j, upto - 1) + Cell(w, members, upto - 1, j)
  }

  ghost predicate Ascending(members: seq<nat>) {
    forall i, j :: 0 <= i < j < |members| ==> members[i] < members[j]
  }

  lemma {:induction false} OutRowElements(w: Matrix, members: seq<nat>, i: nat, upto: nat)
    requires Square(w, |members|) && i < |members| && upto <= |members| && Ascending(members)
    ensures forall f :: f in OutRow(w, members, i, upto) ==> exists j: nat :: j < upto && f in Cell(w, members, i, j)
    ensures forall j: nat, f :: j < upto && f in Cell(w, members, i, j) ==> f in OutRow(w, members, i, upto)
    ensures forall k, l :: 0 <= k < l < |OutRow(w, members, i, upto)| ==> OutRow(w, members, i, upto)[k].to < OutRow(w, members, i, upto)[l].to
    ensures upto < |members| ==> forall f :: f in OutRow(w, members, i, upto) ==> f.to < members[upto]
  {
    if upto > 0 {
      OutRowElements(w, members, i, upto - 1);
      var front := OutRow(w, members, i, upto - 1);
      assert forall k :: 0 <= k < |front| ==> front[k] in front;
    }
  }

  lemma {:induction false} InColumnElements(w: Matrix, members: seq<nat>, j: nat, upto: nat)
    requires Square(w, |members|) && j < |members| && upto <= |members| && Ascending(members)
    ensures forall f :: f in InColumn(w, members, j, upto) ==> exists i: nat :: i < upto && f in Cell(w, members, i, j)
    ensures forall i: nat, f :: i < upto && f in Cell(w, members, i, j) ==> f in InColumn(w, members, j, upto)
    ensures forall k, l :: 0 <= k < l < |InColumn(w, members, j, upto)| ==> InColumn(w, members, j, upto)[k].from < InColumn(w, members, j, upto)[l].from
    ensures upto < |members| ==> forall f :: f in InColumn(w, members, j, upto) ==> f.from < members[upto]
  {
    if upto > 0 {
      InColumnElements(w, members, j, upto - 1);
      var front := InColumn(w, members, j, upto - 1);
      assert forall k :: 0 <= k < |front| ==> front[k] in front;
    }
  }

  /** The shortest distances inside a component, as a matrix. */
  function Distances(g: FootGraph, members: seq<nat>): (w: Matrix)
    requires forall t :: 0 <= t < |members| ==> members[t] < |g|
    ensures Square(w, |members|)
    ensures forall i, j :: 0 <= i < |members| && 0 <= j < |members| ==> w[i][j] == ComponentDistance(g, members, i, j)
  {
    seq(|members|, i requires 0 <= i < |members| =>
      seq(|members|, j requires 0 <= j < |members| => ComponentDistance(g, members, i, j)))
  }

  /** The row of distances is what a station promises, if no footpath leaves the component. */
  lemma OutRowExact(g: FootGraph, members: seq<nat>, i: nat)
    requires ValidGraph(g) && Members(g, members) && Inside(g, members) && i < |members|
    ensures OutgoingExact(g, members[i], OutRow(Distances(g, members), members, i, |members|))
  {
    hide ValidGraph, Inside, Shortest, ComponentDistance, OutRow;
    var n, u := |members|, members[i];
    var w := Distances(g, members);
    var row := OutRow(w, members, i, n);
    OutRowElements(w, members, i, n);
    forall f | f in row
      ensures f.from == u && f.to != u && f.duration < INVALID_TIME && Shortest(g, u, f.to, f.duration)
    {
      var j: nat :| j < n && f in Cell(w, members, i, j);
      DistanceInRange(g, members, i, j);
      MatrixDistance(g, members, i, j);
    }
    forall v: nat, d: nat {:trigger Shortest(g, u, v, d)} | Shortest(g, u, v, d) && d < INVALID_TIME && v != u
      ensures Footpath(u, v, d) in row
    {
      ShortestStaysInside(g, members, u, v, d);
      var j := IndexOf(members, v);
      ShortestIsMatrixDistance(g, members, i, j, d);
      assert Footpath(u, v, d) in Cell(w, members, i, j);
    }
  }

  lemma DistanceInRange(g: FootGraph, members: seq<nat>, i: nat, j: nat)
    requires ValidGraph(g) && Members(g, members) && i < |members| && j < |members|
    ensures ComponentDistance(g, members, i, j) <= INVALID_TIME
  {
    StepMatrixBounded(g, members);
    DistanceBounded(StepMatrix(g, members), |members|, |members|, i, j);
  }

  lemma ShortestStaysInside(g: FootGraph, members: seq<nat>, u: nat, v: nat, d: nat)
    requires Inside(g, members) && u in members && Shortest(g, u, v, d)
    ensures v in members
  {
    hide Path, Inside, RouteLength;
    var p :| Route(g, p, u, v) && InGraph(g, p) && RouteLength(g, p) == d;
    RouteStaysInside(g, members, p);
    assert p[|p| - 1] in members;
  }
}
