/** Parallel footpaths: what the closure makes of several footpaths between the same stations. */
module FootParallels {
  import opened FootComponents
  import opened Time
  import opened FootRoutes

  /** All footpaths of the list to v have one duration. */
  ghost predicate EvenTo(list: seq<Footpath>, v: nat) {
    forall f, h :: f in list && h in list && f.to == h.to == v ==> f.duration == h.duration
  }

  /** Parallel footpaths of a station have equal durations. */
  ghost predicate Even(list: seq<Footpath>) {
    forall v :: EvenTo(list, v)
  }

  lemma Durations(g: FootGraph, u: nat)
    requires ValidGraph(g) && u < |g|
    ensures forall f :: f in g[u] ==> f.duration < 0x1_0000 && Edge(g, u, f.to)
  {
    forall f | f in g[u]
      ensures f.duration < 0x1_0000 && Edge(g, u, f.to)
    {
      var k :| 0 <= k < |g[u]| && g[u][k] == f;
      assert g[u][k].duration < 0x1_0000;
    }
  }

  /** A step is one of the parallel footpaths. */
  lemma StepIsListed(g: FootGraph, u: nat, f: Footpath)
    requires ValidGraph(g) && u < |g| && f in g[u]
    ensures exists h :: h in g[u] && h.to == f.to && h.duration == Step(g, u, f.to)
  {
    hide ValidGraph, LastDuration;
    Durations(g, u);
    LastDurationMeaning(g[u], f.to);
  }

  /** The matrix starts with the footpaths of a station themselves if and only if its parallel footpaths have equal durations. */
  lemma StepIsFootpathIff(g: FootGraph, u: nat)
    requires ValidGraph(g) && u < |g|
    ensures (forall f :: f in g[u] ==> Step(g, u, f.to) == f.duration) <==> Even(g[u])
  {
    hide ValidGraph, Step;
    if Even(g[u]) {
      forall f | f in g[u]
        ensures Step(g, u, f.to) == f.duration
      {
        StepIsListed(g, u, f);
        assert EvenTo(g[u], f.to);
      }
    }
    if forall f :: f in g[u] ==> Step(g, u, f.to) == f.duration {
      forall v
        ensures EvenTo(g[u], v)
      {
      }
    }
  }

  // ----- Durations with the shortest of parallel footpaths

  /** The duration of the shortest footpath to v in a list, infinite if there is none. */
  function LeastDuration(list: seq<Footpath>, v: nat): nat {
    if list == [] then INVALID_TIME
    else
      var last, least := list[|list| - 1], LeastDuration(list[..|list| - 1], v);
      if last.to == v && last.duration < least then last.duration else least
  }

  lemma {:induction false} LeastDurationMeaning(list: seq<Footpath>, v: nat)
    ensures forall f :: f in list && f.to == v ==> LeastDuration(list, v) <= f.duration
    ensures LeastDuration(list, v) <= INVALID_TIME
    ensures LeastDuration(list, v) < INVALID_TIME ==> exists f :: f in list && f.to == v && f.duration == LeastDuration(list, v)
  {
    if list != [] {
      var n := |list| - 1;
      var last := list[n];
      LeastDurationMeaning(list[..n], v);
      assert last in list && forall f :: f in list ==> f in list[..n] || f == last;
    }
  }

  /** The duration of walking directly from u to v on the shortest footpath. */
  function QuickStep(g: FootGraph, u: nat, v: nat): nat
    requires u < |g|
  {
    LeastDuration(g[u], v)
  }

  /** The step of the closure is never quicker, and as quick exactly if the parallel footpaths have one duration. */
  lemma QuickStepIff(g: FootGraph, u: nat, v: nat)
    requires ValidGraph(g) && SortedGraph(g) && Edge(g, u, v)
    ensures QuickStep(g, u, v) <= Step(g, u, v)
    ensures QuickStep(g, u, v) == Step(g, u, v) <==> EvenTo(g[u], v)
  {
    var list := g[u];
    Durations(g, u);
    LastDurationMeaning(list, v);
    LeastDurationMeaning(list, v);
    var h :| h in list && h.to == v && h.duration == Step(g, u, v);
    assert QuickStep(g, u, v) <= h.duration;
    var q :| q in list && q.to == v && q.duration == QuickStep(g, u, v);
    forall f | f in list && f.to == v
      ensures f.duration <= Step(g, u, v)
    {
      LastIsLongest(list, f);
    }
  }

  function QuickLength(g: FootGraph, p: seq<nat>): nat
    requires InGraph(g, p)
  {
    if |p| == 1 then 0
    else QuickLength(g, p[..|p| - 1]) + QuickStep(g, p[|p| - 2], p[|p| - 1])
  }

  /** All parallel footpaths along a route have equal durations. */
  ghost predicate EvenRoute(g: FootGraph, p: seq<nat>)
    requires InGraph(g, p)
  {
    forall k {:trigger p[k]} :: 0 < k < |p| ==> EvenTo(g[p[k - 1]], p[k])
  }

  /** On a route the closure loses time against the shortest footpaths exactly where parallel footpaths differ. */
  lemma {:induction false} QuickLengthIff(g: FootGraph, p: seq<nat>)
    requires ValidGraph(g) && SortedGraph(g) && Path(g, p) && InGraph(g, p)
    ensures QuickLength(g, p) <= RouteLength(g, p)
    ensures QuickLength(g, p) == RouteLength(g, p) <==> EvenRoute(g, p)
  {
    hide ValidGraph, SortedGraph, EvenTo, Edge, Step, QuickStep;
    if |p| > 1 {
      var n := |p| - 1;
      var front := p[..n];
      PathFront(g, p);
      assert InGraph(g, front);
      QuickLengthIff(g, front);
      QuickStepIff(g, p[n - 1], p[n]);
      EvenRouteNext(g, p);
    }
  }

  lemma EvenRouteNext(g: FootGraph, p: seq<nat>)
    requires InGraph(g, p) && |p| > 1 && InGraph(g, p[..|p| - 1])
    ensures EvenRoute(g, p) <==> EvenRoute(g, p[..|p| - 1]) && EvenTo(g[p[|p| - 2]], p[|p| - 1])
  {
    hide EvenTo;
    var n := |p| - 1;
    var front := p[..n];
    assert forall k :: 0 <= k < n ==> front[k] == p[k];
    if EvenRoute(g, p) {
      assert EvenTo(g[p[n - 1]], p[n]);
      forall k {:trigger front[k]} | 0 < k < n
        ensures EvenTo(g[front[k - 1]], front[k])
      {
        assert EvenTo(g[p[k - 1]], p[k]);
      }
    }
    if EvenRoute(g, front) && EvenTo(g[p[n - 1]], p[n]) {
      forall k {:trigger p[k]} | 0 < k < |p|
        ensures EvenTo(g[p[k - 1]], p[k])
      {
        if k < n {
          assert EvenTo(g[front[k - 1]], front[k]);
        }
      }
    }
  }

  /** No route is quicker, with the shortest of parallel footpaths. */
  ghost predicate QuickestRoute(g: FootGraph, p: seq<nat>, u: nat, v: nat) {
    Route(g, p, u, v) && InGraph(g, p) && forall q :: Route(g, q, u, v) && InGraph(g, q) ==> QuickLength(g, p) <= QuickLength(g, q)
  }

  /** e is the duration of the quickest routes. */
  ghost predicate Quickest(g: FootGraph, u: nat, v: nat, e: nat) {
    exists p :: QuickestRoute(g, p, u, v) && QuickLength(g, p) == e
  }

  lemma {:induction false} QuickestExists(g: FootGraph, p: seq<nat>, u: nat, v: nat) returns (q: seq<nat>)
    requires Route(g, p, u, v) && InGraph(g, p)
    ensures QuickestRoute(g, q, u, v)
    decreases QuickLength(g, p)
  {
    hide Route, QuickLength;
    if r :| Route(g, r, u, v) && InGraph(g, r) && QuickLength(g, r) < QuickLength(g, p) {
      q := QuickestExists(g, r, u, v);
    } else {
      q := p;
    }
  }

  /** The duration d that the closure lists from u to v is never too short. It is that of the quickest routes if and only
      if some quickest route has no parallel footpaths with different durations. */
  lemma ListedIsQuickestIff(g: FootGraph, u: nat, v: nat, d: nat)
    requires ValidGraph(g) && SortedGraph(g) && Shortest(g, u, v, d)
    ensures exists e: nat :: Quickest(g, u, v, e) && e <= d
    ensures Quickest(g, u, v, d) <==> exists p :: QuickestRoute(g, p, u, v) && EvenRoute(g, p)
  {
    hide ValidGraph, SortedGraph, Path, RouteLength, QuickLength, EvenRoute;
    var p :| Route(g, p, u, v) && InGraph(g, p) && RouteLength(g, p) == d;
    QuickLengthIff(g, p);
    var best := QuickestExists(g, p, u, v);
    assert Quickest(g, u, v, QuickLength(g, best));
    if Quickest(g, u, v, d) {
      var r :| QuickestRoute(g, r, u, v) && QuickLength(g, r) == d;
      assert QuickLength(g, r) <= QuickLength(g, p);
      assert QuickestRoute(g, p, u, v) && EvenRoute(g, p);
    }
    if r :| QuickestRoute(g, r, u, v) && EvenRoute(g, r) {
      QuickLengthIff(g, r);
      assert d <= RouteLength(g, r) && QuickLength(g, r) <= QuickLength(g, p);
    }
  }
}
