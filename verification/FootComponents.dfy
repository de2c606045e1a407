/** Labelling the stations of the foot graph by a depth-first search from every unlabelled station. */
module FootComponents {

  datatype Footpath = Footpath(from: nat, to: nat, duration: nat)

  /** The outgoing footpaths of every station. */
  type FootGraph = seq<seq<Footpath>>

  /** The largest 32-bit number marks a station without a component. */
  const NO_COMPONENT: nat := 0xFFFF_FFFF

  /** Footpaths start at their station, end at another one, and take fewer than 65536 minutes. */
  ghost predicate ValidGraph(g: FootGraph) {
    && |g| <= NO_COMPONENT
    && forall u, k :: 0 <= u < |g| && 0 <= k < |g[u]| ==> g[u][k].from == u && g[u][k].to < |g| && g[u][k].to != u && g[u][k].duration < 0x1_0000
  }

  /** A footpath leads from u to v. */
  ghost predicate Edge(g: FootGraph, u: nat, v: nat) {
    u < |g| && exists f :: f in g[u] && f.to == v
  }

  ghost predicate Symmetric(g: FootGraph) {
    forall u, v :: Edge(g, u, v) ==> Edge(g, v, u)
  }

  /** A sequence of stations along footpaths; possibly of a single station. */
  ghost predicate Path(g: FootGraph, p: seq<nat>) {
    && p != [] && p[0] < |g|
    && forall k {:trigger p[k]} :: 0 < k < |p| ==> p[k] < |g| && Edge(g, p[k - 1], p[k])
  }

  ghost predicate Reach(g: FootGraph, u: nat, v: nat) {
    exists p :: Path(g, p) && p[0] == u && p[|p| - 1] == v
  }

  lemma ReachSelf(g: FootGraph, u: nat)
    requires u < |g|
    ensures Reach(g, u, u)
  {
    assert Path(g, [u]);
  }

  lemma ReachStep(g: FootGraph, u: nat, v: nat, w: nat)
    requires Reach(g, u, v) && Edge(g, v, w) && w < |g|
    ensures Reach(g, u, w)
  {
    var p :| Path(g, p) && p[0] == u && p[|p| - 1] == v;
    var q := p + [w];
    forall k {:trigger q[k]} | 0 < k < |q|
      ensures q[k] < |g| && Edge(g, q[k - 1], q[k])
    {
      if k < |p| {
        assert p[k] < |g|;
      }
    }
    assert Path(g, q);
  }

  lemma PathFront(g: FootGraph, p: seq<nat>)
    requires Path(g, p) && |p| > 1
    ensures Path(g, p[..|p| - 1])
    ensures p[|p| - 1] < |g| && Edge(g, p[|p| - 2], p[|p| - 1])
  {
    hide Edge;
    var front := p[..|p| - 1];
    assert p[|p| - 1] < |g|;
    forall k {:trigger front[k]} | 0 < k < |front|
      ensures front[k] < |g| && Edge(g, front[k - 1], front[k])
    {
      assert p[k] < |g|;
    }
  }

  lemma {:induction false} ReachAlong(g: FootGraph, u: nat, p: seq<nat>)
    requires Path(g, p) && Reach(g, u, p[0])
    ensures Reach(g, u, p[|p| - 1])
  {
    if |p| > 1 {
      var n := |p| - 1;
      PathFront(g, p);
      var front := p[..n];
      ReachAlong(g, u, front);
      assert p[n] < |g|;
      ReachStep(g, u, p[n - 1], p[n]);
    }
  }

  lemma ReachTransitive(g: FootGraph, u: nat, v: nat, w: nat)
    requires Reach(g, u, v) && Reach(g, v, w)
    ensures Reach(g, u, w)
  {
    var p :| Path(g, p) && p[0] == v && p[|p| - 1] == w;
    ReachAlong(g, u, p);
  }

  /** Reaching a different station takes a first footpath. */
  lemma ReachLeaves(g: FootGraph, u: nat, v: nat)
    requires Reach(g, u, v) && u != v
    ensures u < |g| && g[u] != []
  {
    var p :| Path(g, p) && p[0] == u && p[|p| - 1] == v;
    assert p[1] < |g|;
  }

  lemma {:induction false} PathReverses(g: FootGraph, p: seq<nat>)
    requires Symmetric(g) && Path(g, p)
    ensures Reach(g, p[|p| - 1], p[0])
  {
    var n := |p| - 1;
    if n == 0 {
      ReachSelf(g, p[0]);
    } else {
      PathFront(g, p);
      var front := p[..n];
      PathReverses(g, front);
      assert p[n] < |g|;
      assert Edge(g, p[n], p[n - 1]);
      assert n > 1 ==> p[n - 1] < |g|;
      ReachSelf(g, p[n]);
      ReachStep(g, p[n], p[n], p[n - 1]);
      ReachTransitive(g, p[n], p[n - 1], p[0]);
    }
  }

  lemma ReachSymmetric(g: FootGraph, u: nat, v: nat)
    requires Symmetric(g) && Reach(g, u, v)
    ensures Reach(g, v, u)
  {
    var p :| Path(g, p) && p[0] == u && p[|p| - 1] == v;
    PathReverses(g, p);
  }

  // ----- The labels

  /** Station i starts a search: it has footpaths and no earlier search has reached it. */
  ghost predicate Root(g: FootGraph, i: nat)
    requires i < |g|
    decreases i, 1
  {
    g[i] != [] && LabelAfter(g, i, i) == NO_COMPONENT
  }

  /** The label of a station after the searches from all stations below i: each search relabels everything it reaches. */
  ghost function LabelAfter(g: FootGraph, i: nat, v: nat): nat
    requires i <= |g|
    decreases i, 0
  {
    if i == 0 then NO_COMPONENT
    else if Root(g, i - 1) && Reach(g, i - 1, v) then i - 1
    else LabelAfter(g, i - 1, v)
  }

  ghost function Label(g: FootGraph, v: nat): nat {
    LabelAfter(g, |g|, v)
  }

  /** How many stations do not carry label i yet. */
  function Missing(labels: seq<nat>, i: nat): nat {
    if labels == [] then 0
    else Missing(labels[..|labels| - 1], i) + (if labels[|labels| - 1] == i then 0 else 1)
  }

  lemma {:induction false} MissingUpdate(labels: seq<nat>, i: nat, j: nat)
    requires j < |labels| && labels[j] != i
    ensures Missing(labels[j := i], i) + 1 == Missing(labels, i)
  {
    var n := |labels| - 1;
    if j == n {
      assert labels[j := i][..n] == labels[..n];
    } else {
      MissingUpdate(labels[..n], i, j);
      assert labels[j := i][..n] == labels[..n][j := i];
    }
  }

  /** The stack, with the stations that carry label i, is closed: every footpath from a labelled station is accounted for. */
  ghost predicate Frontier(g: FootGraph, labels: seq<nat>, stack: seq<nat>, i: nat) {
    && |labels| == |g|
    && (forall u: nat, v: nat :: u < |labels| && labels[u] == i && Edge(g, u, v) && v < |g| ==> labels[v] == i || v in stack)
  }

  /** A closed set of labelled stations contains everything its members reach. */
  lemma {:induction false} ClosedUnderReach(g: FootGraph, labels: seq<nat>, i: nat, p: seq<nat>)
    requires Frontier(g, labels, [], i) && Path(g, p) && labels[p[0]] == i
    ensures p[|p| - 1] < |g| && labels[p[|p| - 1]] == i
  {
    if |p| > 1 {
      var n := |p| - 1;
      PathFront(g, p);
      var front := p[..n];
      ClosedUnderReach(g, labels, i, front);
      assert p[n] < |g| && Edge(g, p[n - 1], p[n]);
    }
  }

  /** The search from one station: it terminates although stations can be on the stack several times, and gives
      label i to exactly what i reaches. */
  method Search(g: FootGraph, i: nat, before: seq<nat>) returns (labels: seq<nat>)
    requires ValidGraph(g) && |before| == |g| && i < |g|
    requires forall v :: 0 <= v < |g| ==> before[v] != i
    ensures |labels| == |g|
    ensures forall v :: 0 <= v < |g| ==> labels[v] == if Reach(g, i, v) then i else before[v]
  {
    labels := before;
    var stack: seq<nat> := [i];
    ReachSelf(g, i);
    while stack != []
      invariant |labels| == |g|
      invariant forall v :: 0 <= v < |g| ==> labels[v] == before[v] || (labels[v] == i && Reach(g, i, v))
      invariant forall j :: j in stack ==> j < |g| && Reach(g, i, j)
      invariant labels[i] == i || i in stack
      invariant Frontier(g, labels, stack, i)
      decreases Missing(labels, i), |stack|
    {
      var j := stack[|stack| - 1];
      assert j in stack;
      ghost var full := stack;
      stack := stack[..|stack| - 1];
      assert forall x :: x in full <==> x in stack || x == j;
      if labels[j] == i {
        continue;
      }
      MissingUpdate(labels, i, j);
      labels := labels[j := i];
      stack := PushNeighbours(g, i, j, labels, stack);
    }
    forall v | 0 <= v < |g| && Reach(g, i, v)
      ensures labels[v] == i
    {
      var p :| Path(g, p) && p[0] == i && p[|p| - 1] == v;
      ClosedUnderReach(g, labels, i, p);
    }
  }

  method PushNeighbours(g: FootGraph, i: nat, j: nat, labels: seq<nat>, before: seq<nat>) returns (stack: seq<nat>)
    requires ValidGraph(g) && i < |g| && j < |g| && |labels| == |g| && Reach(g, i, j)
    requires forall s :: s in before ==> s < |g| && Reach(g, i, s)
    ensures forall s :: s in stack ==> s < |g| && Reach(g, i, s)
    ensures forall s :: s in before ==> s in stack
    ensures forall v: nat :: Edge(g, j, v) && v < |g| ==> labels[v] == i || v in stack
  {
    stack := before;
    for k := 0 to |g[j]|
      invariant forall s :: s in stack ==> s < |g| && Reach(g, i, s)
      invariant forall s :: s in before ==> s in stack
      invariant forall l :: 0 <= l < k ==> labels[g[j][l].to] == i || g[j][l].to in stack
    {
      var f := g[j][k];
      if labels[f.to] != i {
        assert f in g[j];
        ReachStep(g, i, j, f.to);
        stack := stack + [f.to];
      }
    }
  }

  method FindComponents(g: FootGraph) returns (labels: seq<nat>)
    requires ValidGraph(g)
    ensures |labels| == |g| && forall v :: 0 <= v < |g| ==> labels[v] == Label(g, v)
  {
    labels := seq(|g|, _ => NO_COMPONENT);
    for i := 0 to |g|
      invariant |labels| == |g|
      invariant forall v :: 0 <= v < |g| ==> labels[v] == LabelAfter(g, i, v)
    {
      if labels[i] != NO_COMPONENT || g[i] == [] {
        continue;
      }
      LabelsBelow(g, i);
      labels := Search(g, i, labels);
    }
  }

  // ----- What the labels mean, in any directed graph

  lemma {:induction false} LabelsBelow(g: FootGraph, i: nat)
    requires i <= |g|
    ensures forall v {:trigger LabelAfter(g, i, v)} :: LabelAfter(g, i, v) == NO_COMPONENT || (LabelAfter(g, i, v) < i && Reach(g, LabelAfter(g, i, v), v))
  {
    if i > 0 {
      LabelsBelow(g, i - 1);
    }
  }

  /** A label belongs to a station that has started a search. */
  lemma {:induction false} LabelOfRoot(g: FootGraph, i: nat, v: nat)
    requires i <= |g| && LabelAfter(g, i, v) != NO_COMPONENT
    ensures LabelAfter(g, i, v) < i && Root(g, LabelAfter(g, i, v))
  {
    if i > 0 && !(Root(g, i - 1) && Reach(g, i - 1, v)) {
      LabelOfRoot(g, i - 1, v);
    }
  }

  /** The label of a station reaches it. */
  lemma LabelReaches(g: FootGraph, v: nat)
    requires ValidGraph(g) && Label(g, v) != NO_COMPONENT
    ensures Label(g, v) < |g| && Reach(g, Label(g, v), v)
  {
    LabelsBelow(g, |g|);
    assert LabelAfter(g, |g|, v) != NO_COMPONENT;
  }

  /** Along a footpath labels never decrease. */
  lemma {:induction false} EdgeLabels(g: FootGraph, i: nat, u: nat, v: nat)
    requires ValidGraph(g) && i <= |g| && Edge(g, u, v) && v < |g|
    ensures LabelAfter(g, i, u) != NO_COMPONENT ==> LabelAfter(g, i, u) <= LabelAfter(g, i, v) < NO_COMPONENT
    ensures u < i ==> LabelAfter(g, i, u) != NO_COMPONENT
  {
    if i > 0 {
      EdgeLabels(g, i - 1, u, v);
      LabelsBelow(g, i - 1);
      assert LabelAfter(g, i - 1, u) == NO_COMPONENT || LabelAfter(g, i - 1, u) < i - 1;
      if Root(g, i - 1) && Reach(g, i - 1, u) {
        ReachStep(g, i - 1, u, v);
      }
      if u == i - 1 {
        ReachSelf(g, u);
      }
    }
  }

  /** Both ends of a footpath are labelled, and the label of its end is at least that of its start. */
  lemma LabelsNonDecreasing(g: FootGraph, u: nat, v: nat)
    requires ValidGraph(g) && Edge(g, u, v)
    ensures v < |g| && Label(g, u) <= Label(g, v) < NO_COMPONENT
  {
    var f :| f in g[u] && f.to == v;
    EdgeLabels(g, |g|, u, v);
  }

  // ----- What they mean in a symmetric graph

  lemma {:induction false} SymmetricLabels(g: FootGraph, i: nat, v: nat, u: nat)
    requires ValidGraph(g) && Symmetric(g) && i <= |g| && v < |g| && Reach(g, u, v) && g[u] != [] && u < |g|
    ensures u < i ==> LabelAfter(g, i, v) != NO_COMPONENT
    ensures LabelAfter(g, i, v) != NO_COMPONENT ==> LabelAfter(g, i, v) <= u
    decreases i
  {
    if i > 0 {
      SymmetricLabels(g, i - 1, v, u);
      var r := i - 1;
      if Root(g, r) && Reach(g, r, v) && u < r {
        ReachSymmetric(g, r, v);
        ReachTransitive(g, u, v, r);
        SymmetricLabels(g, r, r, u);
      }
      if u == r && LabelAfter(g, r, r) != NO_COMPONENT {
        LabelsBelow(g, r);
        var l := LabelAfter(g, r, r);
        assert l < r && Reach(g, l, r);
        ReachTransitive(g, l, r, v);
        ReachLeaves(g, l, r);
        SymmetricLabels(g, r, v, l);
      }
    }
  }

  /** In a symmetric graph, labelled stations carry the smallest station of their connected component. */
  lemma SymmetricLabelIsSmallest(g: FootGraph, v: nat)
    requires ValidGraph(g) && Symmetric(g) && v < |g|
    ensures Label(g, v) == NO_COMPONENT <==> g[v] == []
    ensures Label(g, v) != NO_COMPONENT ==> Reach(g, Label(g, v), v) && forall u :: Reach(g, u, v) ==> Label(g, v) <= u
  {
    ReachSelf(g, v);
    if g[v] != [] {
      SymmetricLabels(g, |g|, v, v);
    }
    if Label(g, v) != NO_COMPONENT {
      LabelReaches(g, v);
      var l := Label(g, v);
      ReachSymmetric(g, l, v);
      if l == v {
        LabelOfRoot(g, |g|, v);
      } else {
        ReachLeaves(g, v, l);
      }
      forall u | Reach(g, u, v)
        ensures l <= u
      {
        if u != v {
          ReachLeaves(g, u, v);
        }
        SymmetricLabels(g, |g|, v, u);
      }
    }
  }

  /** Every footpath stays inside its label class. */
  ghost predicate EdgesStayInside(g: FootGraph) {
    forall u, v :: Edge(g, u, v) ==> Label(g, u) == Label(g, v)
  }

  lemma SymmetricEdgesStayInside(g: FootGraph)
    requires ValidGraph(g) && Symmetric(g)
    ensures EdgesStayInside(g)
  {
    forall u, v | Edge(g, u, v)
      ensures Label(g, u) == Label(g, v)
    {
      LabelsNonDecreasing(g, u, v);
      LabelsNonDecreasing(g, v, u);
    }
  }

  /** Reaching a different station arrives by a last footpath. */
  lemma ReachEnters(g: FootGraph, u: nat, v: nat)
    requires Reach(g, u, v) && u != v
    ensures exists x: nat :: Edge(g, x, v)
  {
    var p :| Path(g, p) && p[0] == u && p[|p| - 1] == v;
    assert p[|p| - 1] < |g|;
    assert Edge(g, p[|p| - 2], v);
  }

  lemma NotReached(g: FootGraph, u: nat, v: nat)
    requires u != v && forall x: nat :: !Edge(g, x, v)
    ensures !Reach(g, u, v)
  {
    if Reach(g, u, v) {
      ReachEnters(g, u, v);
    }
  }

  /** Three stations, with footpaths from the first and from the third to the second. */
  function Fork(): FootGraph {
    [[Footpath(0, 1, 5)], [], [Footpath(2, 1, 5)]]
  }

  lemma ForkReaches()
    ensures ValidGraph(Fork()) && Edge(Fork(), 0, 1)
    ensures Reach(Fork(), 0, 0) && Reach(Fork(), 2, 2) && Reach(Fork(), 2, 1)
    ensures !Reach(Fork(), 2, 0) && !Reach(Fork(), 0, 2)
  {
    var g := Fork();
    assert Footpath(0, 1, 5) in g[0] && Footpath(2, 1, 5) in g[2];
    assert Edge(g, 0, 1) && Edge(g, 2, 1);
    ReachSelf(g, 0);
    ReachSelf(g, 2);
    ReachStep(g, 2, 2, 1);
    NotReached(g, 2, 0);
    NotReached(g, 0, 2);
  }

  /** Later searches can relabel: then a footpath connects different labels. */
  lemma RelabellingSplitsComponents()
    ensures ValidGraph(Fork()) && Edge(Fork(), 0, 1) && Label(Fork(), 0) != Label(Fork(), 1)
  {
    hide Reach, Edge, ValidGraph;
    ForkReaches();
    var g := Fork();
    assert LabelAfter(g, 0, 0) == NO_COMPONENT && Root(g, 0);
    assert LabelAfter(g, 1, 0) == 0 && LabelAfter(g, 2, 0) == 0 && LabelAfter(g, 3, 0) == 0;
    assert LabelAfter(g, 1, 2) == NO_COMPONENT && LabelAfter(g, 2, 2) == NO_COMPONENT && Root(g, 2);
    assert LabelAfter(g, 3, 1) == 2;
  }
}
