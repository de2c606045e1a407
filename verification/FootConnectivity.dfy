/** When the labels of the stations tell the connected components of the foot graph. */
module FootConnectivity {
  import opened FootComponents

  /** A footpath leads from one of the stations to the other. */
  ghost predicate Linked(g: FootGraph, u: nat, v: nat) {
    Edge(g, u, v) || Edge(g, v, u)
  }

  /** A sequence of stations along footpaths in any direction. */
  ghost predicate Chain(g: FootGraph, p: seq<nat>) {
    && p != [] && p[0] < |g|
    && forall k {:trigger p[k]} :: 0 < k < |p| ==> p[k] < |g| && Linked(g, p[k - 1], p[k])
  }

  /** The stations are in the same weakly connected component. */
  ghost predicate Connected(g: FootGraph, u: nat, v: nat) {
    exists p :: Chain(g, p) && p[0] == u && p[|p| - 1] == v
  }

  /** Station r reaches the whole component of u. */
  ghost predicate ReachesComponent(g: FootGraph, r: nat, u: nat) {
    forall v: nat :: Connected(g, u, v) ==> Reach(g, r, v)
  }

  /** In every component with a footpath, some station reaches all stations of the component. */
  ghost predicate Rooted(g: FootGraph) {
    forall u: nat :: u < |g| && g[u] != [] ==> exists r: nat :: r < |g| && ReachesComponent(g, r, u)
  }

  lemma ConnectedSelf(g: FootGraph, u: nat)
    requires u < |g|
    ensures Connected(g, u, u)
  {
    assert Chain(g, [u]);
  }

  lemma ConnectedStep(g: FootGraph, u: nat, v: nat, w: nat)
    requires Connected(g, u, v) && Linked(g, v, w) && w < |g|
    ensures Connected(g, u, w)
  {
    hide Linked;
    var p :| Chain(g, p) && p[0] == u && p[|p| - 1] == v;
    var q := p + [w];
    forall k {:trigger q[k]} | 0 < k < |q|
      ensures q[k] < |g| && Linked(g, q[k - 1], q[k])
    {
      if k < |p| {
        assert p[k] < |g|;
      }
    }
    assert Chain(g, q);
  }

  lemma ChainFront(g: FootGraph, p: seq<nat>)
    requires Chain(g, p) && |p| > 1
    ensures Chain(g, p[..|p| - 1])
    ensures p[|p| - 1] < |g| && Linked(g, p[|p| - 2], p[|p| - 1])
  {
    hide Linked;
    var front := p[..|p| - 1];
    assert p[|p| - 1] < |g|;
    forall k {:trigger front[k]} | 0 < k < |front|
      ensures front[k] < |g| && Linked(g, front[k - 1], front[k])
    {
      assert p[k] < |g|;
    }
  }

  /** Stations that are reached are connected, also with what has been reached before. */
  lemma {:induction false} PathConnects(g: FootGraph, u: nat, p: seq<nat>)
    requires Path(g, p) && Connected(g, u, p[0])
    ensures Connected(g, u, p[|p| - 1])
  {
    if |p| > 1 {
      PathFront(g, p);
      PathConnects(g, u, p[..|p| - 1]);
      ConnectedStep(g, u, p[|p| - 2], p[|p| - 1]);
    }
  }

  lemma {:induction false} PathConnectsBack(g: FootGraph, u: nat, p: seq<nat>)
    requires Path(g, p) && Connected(g, u, p[|p| - 1])
    ensures Connected(g, u, p[0])
  {
    if |p| > 1 {
      PathFront(g, p);
      assert p[..|p| - 1][|p| - 2] < |g|;
      ConnectedStep(g, u, p[|p| - 1], p[|p| - 2]);
      PathConnectsBack(g, u, p[..|p| - 1]);
    }
  }

  lemma ReachConnects(g: FootGraph, u: nat, v: nat, w: nat)
    requires Reach(g, v, w)
    ensures Connected(g, u, v) <==> Connected(g, u, w)
  {
    hide Connected;
    var p :| Path(g, p) && p[0] == v && p[|p| - 1] == w;
    if Connected(g, u, v) {
      PathConnects(g, u, p);
    }
    if Connected(g, u, w) {
      PathConnectsBack(g, u, p);
    }
  }

  // ----- Labels and components

  /** If no footpath leaves its label class, all of a component carries one label. */
  lemma {:induction false} ChainKeepsLabel(g: FootGraph, p: seq<nat>)
    requires EdgesStayInside(g) && Chain(g, p)
    ensures Label(g, p[0]) == Label(g, p[|p| - 1])
  {
    assert p != [];
    hide Label, Edge;
    if |p| > 1 {
      ChainFront(g, p);
      ChainKeepsLabel(g, p[..|p| - 1]);
    }
  }

  lemma ComponentIsClass(g: FootGraph, u: nat, v: nat)
    requires ValidGraph(g) && EdgesStayInside(g) && u < |g| && v < |g| && g[u] != []
    ensures Connected(g, u, v) <==> Label(g, u) == Label(g, v)
  {
    hide Label, EdgesStayInside, ValidGraph, Edge;
    if Connected(g, u, v) {
      var p :| Chain(g, p) && p[0] == u && p[|p| - 1] == v;
      ChainKeepsLabel(g, p);
    }
    if Label(g, u) == Label(g, v) {
      Labelled(g, u);
      SameLabelConnects(g, u, v);
    }
  }

  lemma Labelled(g: FootGraph, u: nat)
    requires ValidGraph(g) && u < |g| && g[u] != []
    ensures Label(g, u) != NO_COMPONENT
  {
    var f := g[u][0];
    assert f in g[u];
    LabelsNonDecreasing(g, u, f.to);
  }

  lemma SameLabelConnects(g: FootGraph, u: nat, v: nat)
    requires ValidGraph(g) && u < |g| && v < |g| && Label(g, u) == Label(g, v) != NO_COMPONENT
    ensures Connected(g, u, v)
  {
    hide Label, Connected, Reach, ValidGraph;
    LabelReaches(g, u);
    LabelReaches(g, v);
    ConnectedSelf(g, u);
    ReachConnects(g, u, Label(g, u), u);
    ReachConnects(g, u, Label(g, u), v);
  }

  lemma InsideIsRooted(g: FootGraph)
    requires ValidGraph(g) && EdgesStayInside(g)
    ensures Rooted(g)
  {
    hide Label, EdgesStayInside, ValidGraph, Reach, Connected;
    forall u: nat | u < |g| && g[u] != []
      ensures exists r: nat :: r < |g| && ReachesComponent(g, r, u)
    {
      Labelled(g, u);
      LabelReaches(g, u);
      var r := Label(g, u);
      forall v: nat | Connected(g, u, v)
        ensures Reach(g, r, v)
      {
        ConnectedInGraph(g, u, v);
        ComponentIsClass(g, u, v);
        LabelReaches(g, v);
      }
      assert ReachesComponent(g, r, u);
    }
  }

  lemma ConnectedInGraph(g: FootGraph, u: nat, v: nat)
    requires Connected(g, u, v)
    ensures u < |g| && v < |g|
  {
    var p :| Chain(g, p) && p[0] == u && p[|p| - 1] == v;
    assert p[|p| - 1] < |g|;
  }

  /** Once a root has searched, what it reaches keeps a label that is not smaller. */
  lemma {:induction false} RootLabelsAtLeast(g: FootGraph, i: nat, m: nat, v: nat)
    requires ValidGraph(g) && m < i <= |g| && Root(g, m) && Reach(g, m, v)
    ensures m <= LabelAfter(g, i, v) < NO_COMPONENT
  {
    if i - 1 != m {
      RootLabelsAtLeast(g, i - 1, m, v);
    }
  }

  /** A root is not reached by an earlier one. */
  lemma RootsAreNew(g: FootGraph, m: nat, l: nat)
    requires ValidGraph(g) && m < |g| && l < |g| && Root(g, m) && Root(g, l) && Reach(g, m, l)
    ensures l <= m
  {
    if m < l {
      RootLabelsAtLeast(g, l, m, l);
    }
  }

  /** Every station with footpaths is a root, or is reached by one. */
  lemma RootBehind(g: FootGraph, r: nat) returns (m: nat)
    requires r < |g| && g[r] != []
    ensures m < |g| && Root(g, m) && Reach(g, m, r)
  {
    if Root(g, r) {
      m := r;
      ReachSelf(g, r);
    } else {
      m := LabelAfter(g, r, r);
      LabelOfRoot(g, r, r);
      LabelsBelow(g, r);
    }
  }

  lemma RootedIsInside(g: FootGraph)
    requires ValidGraph(g) && Rooted(g)
    ensures EdgesStayInside(g)
  {
    hide Label, ValidGraph, Reach, Connected, Rooted, Edge;
    forall u, v | Edge(g, u, v)
      ensures Label(g, u) == Label(g, v)
    {
      RootedEdge(g, u, v);
    }
  }

  lemma RootedEdge(g: FootGraph, u: nat, v: nat)
    requires ValidGraph(g) && Rooted(g) && Edge(g, u, v)
    ensures Label(g, u) == Label(g, v)
  {
    hide ValidGraph, Reach, Connected, LabelAfter, Root;
    LabelsNonDecreasing(g, u, v);
    EdgeStart(g, u, v);
    var r: nat :| r < |g| && ReachesComponent(g, r, u);
    ConnectedSelf(g, u);
    ConnectedStep(g, u, u, v);
    if r != u {
      ReachLeaves(g, r, u);
    }
    var m := RootBehind(g, r);
    ReachTransitive(g, m, r, u);
    RootLabelsAtLeast(g, |g|, m, u);
    var l := Label(g, v);
    LabelOfRoot(g, |g|, v);
    LabelReaches(g, v);
    ReachConnects(g, u, l, v);
    ReachTransitive(g, m, r, l);
    RootsAreNew(g, m, l);
  }

  lemma EdgeStart(g: FootGraph, u: nat, v: nat)
    requires Edge(g, u, v)
    ensures u < |g| && g[u] != []
  {
  }

  /** The labels keep every footpath inside a class if and only if every component with a footpath has a station that
      reaches all of it. */
  lemma StayInsideIff(g: FootGraph)
    requires ValidGraph(g)
    ensures EdgesStayInside(g) <==> Rooted(g)
  {
    hide EdgesStayInside, Rooted, ValidGraph;
    if EdgesStayInside(g) {
      InsideIsRooted(g);
    }
    if Rooted(g) {
      RootedIsInside(g);
    }
  }
}
