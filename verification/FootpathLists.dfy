/** Writing the closed footpath lists of the stations, one label class after the other. */
module FootpathLists {
  import opened FootComponents
  import opened FloydWarshall
  import opened Time
  import opened FootRoutes
  import opened FootPaths

  /** A component can be closed: no footpath leaves it, and if it has two stations, each has at most one footpath. */
  ghost predicate Closable(g: FootGraph, members: seq<nat>)
    requires Members(g, members)
  {
    Inside(g, members) && (|members| == 2 ==> |g[members[0]]| <= 1 && |g[members[1]]| <= 1)
  }

  /** What a component ends up with when it can be closed. */
  ghost predicate Filled(g: FootGraph, members: seq<nat>, outgoing: seq<seq<Footpath>>, incoming: seq<seq<Footpath>>)
    requires Members(g, members) && |outgoing| == |incoming| == |g|
  {
    forall i :: 0 <= i < |members| ==>
      && outgoing[members[i]] == OutRow(Distances(g, members), members, i, |members|)
      && incoming[members[i]] == InColumn(Distances(g, members), members, i, |members|)
  }

  /** A member misses a footpath of the foot graph, or lists an incoming footpath that leads elsewhere. */
  ghost predicate Spoiled(g: FootGraph, members: seq<nat>, outgoing: seq<seq<Footpath>>, incoming: seq<seq<Footpath>>)
    requires Members(g, members) && |outgoing| == |incoming| == |g|
  {
    || (exists u: nat, v: nat :: u in members && Edge(g, u, v) && forall f :: f in outgoing[u] ==> f.to != v)
    || (exists u: nat, f :: u in members && f in incoming[u] && f.to != u)
  }

  ghost predicate Untouched(members: seq<nat>, before: seq<seq<Footpath>>, after: seq<seq<Footpath>>) {
    |after| == |before| && forall v: nat :: v < |after| && v !in members ==> after[v] == before[v]
  }

  // ----- Filling the matrix

  lemma LastDurationGrows(list: seq<Footpath>, k: nat, v: nat)
    requires k < |list|
    ensures LastDuration(list[..k + 1], v) == if list[k].to == v then list[k].duration else LastDuration(list[..k], v)
  {
    assert list[..k + 1][..k] == list[..k];
  }

  ghost predicate RowHolds(mat: array2<nat>, members: seq<nat>, i: nat, list: seq<Footpath>)
    requires mat.Length0 == mat.Length1 == |members| && i < |members|
    reads mat
  {
    forall j :: 0 <= j < |members| ==> mat[i, j] == LastDuration(list, members[j])
  }

  ghost predicate EndsInside(list: seq<Footpath>, members: seq<nat>) {
    forall f :: f in list ==> f.to in members
  }

  lemma DurationsGrow(list: seq<Footpath>, k: nat, members: seq<nat>)
    requires k < |list|
    ensures forall j :: 0 <= j < |members| ==>
              LastDuration(list[..k + 1], members[j]) == if list[k].to == members[j] then list[k].duration else LastDuration(list[..k], members[j])
  {
    forall j | 0 <= j < |members|
      ensures LastDuration(list[..k + 1], members[j]) == if list[k].to == members[j] then list[k].duration else LastDuration(list[..k], members[j])
    {
      LastDurationGrows(list, k, members[j]);
    }
  }

  /** The iterator moves on to a station, which it finds unless it is already behind it. */
  method Advance(members: seq<nat>, start: nat, to: nat) returns (it: nat)
    requires start <= |members| && Ascending(members)
    ensures start <= it <= |members| && (it < |members| ==> members[it] == to)
    ensures to in members && (start == 0 || (start < |members| && members[start] <= to)) ==> it < |members|
  {
    it := start;
    ghost var goal: nat := if to in members then IndexOf(members, to) else |members|;
    while it != |members| && to != members[it]
      invariant start <= it <= |members|
      invariant to in members && (start == 0 || (start < |members| && members[start] <= to)) ==> it <= goal
    {
      it := it + 1;
    }
  }

  /** The merge of the sorted footpaths of a station with the members of its class. A footpath that leads out of the
      class moves the iterator behind the last member, so this footpath and all later ones land in the first cell of
      the next row; the last row has no next one. */
  method FillRow(list: seq<Footpath>, members: seq<nat>, mat: array2<nat>, i: nat, ghost clean: bool) returns (ok: bool)
    requires mat.Length0 == mat.Length1 == |members| && i < |members| && Ascending(members)
    requires SortedList(list) && forall f :: f in list ==> f.duration < 0x1_0000
    requires clean ==> EndsInside(list, members) && RowHolds(mat, members, i, [])
    requires forall a, b :: 0 <= a < |members| && 0 <= b < |members| ==> mat[a, b] <= INVALID_TIME
    modifies mat
    ensures forall a, b :: 0 <= a < |members| && 0 <= b < |members| ==> mat[a, b] <= INVALID_TIME
    ensures clean ==> ok && RowHolds(mat, members, i, list)
    ensures clean ==> forall a, b :: 0 <= a < |members| && 0 <= b < |members| && a != i ==> mat[a, b] == old(mat[a, b])
  {
    hide LastDuration;
    var n := |members|;
    var it := 0;
    for k := 0 to |list|
      invariant 0 <= it <= n
      invariant k == 0 ==> it == 0
      invariant clean && k > 0 ==> it < n && members[it] == list[k - 1].to
      invariant clean ==> RowHolds(mat, members, i, list[..k])
      invariant clean ==> forall a, b :: 0 <= a < n && 0 <= b < n && a != i ==> mat[a, b] == old(mat[a, b])
      invariant forall a, b :: 0 <= a < n && 0 <= b < n ==> mat[a, b] <= INVALID_TIME
    {
      var edge := list[k];
      assert edge in list;
      assert clean && k > 0 ==> list[k - 1].to <= edge.to;
      it := Advance(members, it, edge.to);
      DurationsGrow(list, k, members);
      if it < n {
        mat[i, it] := edge.duration;
      } else if i + 1 < n {
        mat[i + 1, 0] := edge.duration;
      } else {
        return false;
      }
    }
    assert list[..|list|] == list;
    ok := true;
  }

  method FillMatrix(g: FootGraph, members: seq<nat>) returns (mat: array2<nat>, ok: bool)
    requires ValidGraph(g) && SortedGraph(g) && Members(g, members)
    ensures fresh(mat) && mat.Length0 == mat.Length1 == |members| && Bounded(Rows(mat), |members|)
    ensures Inside(g, members) ==> ok && Rows(mat) == StepMatrix(g, members)
  {
    var n := |members|;
    mat := new nat[n, n]((i, j) => INVALID_TIME);
    ok := true;
    for i := 0 to n
      invariant forall a, b :: 0 <= a < n && 0 <= b < n ==> mat[a, b] <= INVALID_TIME
      invariant Inside(g, members) ==> forall a :: 0 <= a < i ==> RowHolds(mat, members, a, g[members[a]])
      invariant Inside(g, members) ==> forall a, b :: i <= a < n && 0 <= b < n ==> mat[a, b] == INVALID_TIME
    {
      InsideEnds(g, members, i);
      ok := FillRow(g[members[i]], members, mat, i, Inside(g, members));
      if !ok {
        return;
      }
    }
    if Inside(g, members) {
      RowsAreSteps(g, members, mat);
    }
  }

  lemma RowsAreSteps(g: FootGraph, members: seq<nat>, mat: array2<nat>)
    requires Members(g, members) && mat.Length0 == mat.Length1 == |members|
    requires forall a :: 0 <= a < |members| ==> RowHolds(mat, members, a, g[members[a]])
    ensures Rows(mat) == StepMatrix(g, members)
  {
    hide LastDuration;
    var w, n := Rows(mat), |members|;
    forall a | 0 <= a < n
      ensures w[a] == StepMatrix(g, members)[a]
    {
      assert RowHolds(mat, members, a, g[members[a]]);
      assert forall b :: 0 <= b < n ==> w[a][b] == Step(g, members[a], members[b]);
    }
  }

  lemma InsideEnds(g: FootGraph, members: seq<nat>, i: nat)
    requires ValidGraph(g) && Members(g, members) && i < |members|
    ensures Inside(g, members) ==> EndsInside(g[members[i]], members)
    ensures forall f :: f in g[members[i]] ==> f.duration < 0x1_0000
  {
    forall f | f in g[members[i]]
      ensures Edge(g, members[i], f.to) && f.duration < 0x1_0000
    {
    }
  }

  /** The matrix of a class after the all-pairs algorithm. */
  method CloseMatrix(g: FootGraph, members: seq<nat>) returns (mat: array2<nat>, ok: bool)
    requires ValidGraph(g) && SortedGraph(g) && Members(g, members)
    ensures fresh(mat) && mat.Length0 == mat.Length1 == |members|
    ensures Inside(g, members) ==> ok && Rows(mat) == Distances(g, members)
  {
    mat, ok := FillMatrix(g, members);
    if ok {
      ghost var w := Rows(mat);
      FloydWarshall.FloydWarshall(mat);
      if Inside(g, members) {
        assert w == StepMatrix(g, members);
        SameRows(Rows(mat), Distances(g, members), |members|);
      }
    }
  }

  lemma SameRows(w: Matrix, x: Matrix, n: nat)
    requires Square(w, n) && Square(x, n) && forall i, j :: 0 <= i < n && 0 <= j < n ==> w[i][j] == x[i][j]
    ensures w == x
  {
    assert forall i :: 0 <= i < n ==> w[i] == x[i];
  }

  lemma RowStart(w: Matrix, members: seq<nat>, i: nat)
    requires Square(w, |members|) && i < |members|
    ensures OutRow(w, members, i, 0) == []
  {
  }

  lemma RowStep(w: Matrix, members: seq<nat>, i: nat, j: nat)
    requires Square(w, |members|) && i < |members| && j < |members|
    ensures Cell(w, members, i, j) == if w[i][j] == INVALID_TIME || i == j then [] else [Footpath(members[i], members[j], w[i][j])]
    ensures OutRow(w, members, i, j + 1) == OutRow(w, members, i, j) + Cell(w, members, i, j)
  {
  }

  class FootpathBuilder {
    var outgoing: seq<seq<Footpath>>
    var incoming: seq<seq<Footpath>>

    constructor (stations: nat)
      ensures |outgoing| == |incoming| == stations
      ensures forall v :: 0 <= v < stations ==> outgoing[v] == [] && incoming[v] == []
    {
      outgoing := seq(stations, v => []);
      incoming := seq(stations, v => []);
    }

    /** One row of the matrix is appended to one outgoing list and to the incoming lists of all members. */
    method WriteRow(mat: array2<nat>, members: seq<nat>, i: nat)
      requires mat.Length0 == mat.Length1 == |members| && i < |members| && |outgoing| == |incoming|
      requires Ascending(members) && forall t :: 0 <= t < |members| ==> members[t] < |outgoing|
      modifies this
      ensures |incoming| == |outgoing| == old(|outgoing|)
      ensures outgoing[members[i]] == old(outgoing)[members[i]] + OutRow(Rows(mat), members, i, |members|)
      ensures forall v: nat :: v < |outgoing| && v != members[i] ==> outgoing[v] == old(outgoing)[v]
      ensures forall j :: 0 <= j < |members| ==> incoming[members[j]] == old(incoming)[members[j]] + Cell(Rows(mat), members, i, j)
      ensures Untouched(members, old(incoming), incoming)
    {
      hide OutRow, Cell, Rows;
      var n, u := |members|, members[i];
      ghost var w := Rows(mat);
      RowStart(w, members, i);
      for j := 0 to n
        invariant |incoming| == |outgoing| == old(|outgoing|)
        invariant outgoing[u] == old(outgoing)[u] + OutRow(w, members, i, j)
        invariant forall v: nat :: v < |outgoing| && v != u ==> outgoing[v] == old(outgoing)[v]
        invariant forall t :: 0 <= t < j ==> incoming[members[t]] == old(incoming)[members[t]] + Cell(w, members, i, t)
        invariant forall t :: j <= t < n ==> incoming[members[t]] == old(incoming)[members[t]]
        invariant Untouched(members, old(incoming), incoming)
      {
        RowStep(w, members, i, j);
        if mat[i, j] == INVALID_TIME || i == j {
          continue;
        }
        var v := members[j];
        outgoing := outgoing[u := outgoing[u] + [Footpath(u, v, mat[i, j])]];
        incoming := incoming[v := incoming[v] + [Footpath(u, v, mat[i, j])]];
      }
    }

    method WriteLists(mat: array2<nat>, members: seq<nat>)
      requires mat.Length0 == mat.Length1 == |members| && |outgoing| == |incoming|
      requires Ascending(members) && forall t :: 0 <= t < |members| ==> members[t] < |outgoing| && outgoing[members[t]] == [] && incoming[members[t]] == []
      modifies this
      ensures |incoming| == |outgoing| == old(|outgoing|)
      ensures forall i :: 0 <= i < |members| ==> outgoing[members[i]] == OutRow(Rows(mat), members, i, |members|)
      ensures forall j :: 0 <= j < |members| ==> incoming[members[j]] == InColumn(Rows(mat), members, j, |members|)
      ensures Untouched(members, old(outgoing), outgoing) && Untouched(members, old(incoming), incoming)
    {
      hide Cell, OutRow;
      var n := |members|;
      ghost var w := Rows(mat);
      for i := 0 to n
        invariant |incoming| == |outgoing| == old(|outgoing|)
        invariant forall t :: 0 <= t < i ==> outgoing[members[t]] == OutRow(w, members, t, n)
        invariant forall t :: i <= t < n ==> outgoing[members[t]] == []
        invariant forall t :: 0 <= t < n ==> incoming[members[t]] == InColumn(w, members, t, i)
        invariant Untouched(members, old(outgoing), outgoing) && Untouched(members, old(incoming), incoming)
      {
        WriteRow(mat, members, i);
      }
    }

    /** Two stations need no matrix: each has at most its one footpath to the other. A failed check leaves what the
        first half has written. */
    method ProcessPair(g: FootGraph, a: nat, b: nat) returns (ok: bool)
      requires a < |g| && b < |g| && a != b && |outgoing| == |incoming| == |g|
      requires outgoing[a] == incoming[a] == outgoing[b] == incoming[b] == []
      modifies this
      ensures |outgoing| == |incoming| == |g|
      ensures Untouched([a, b], old(outgoing), outgoing) && Untouched([a, b], old(incoming), incoming)
      ensures outgoing[a] == incoming[b] == if |g[a]| <= 1 then g[a] else []
      ensures outgoing[b] == incoming[a] == if |g[a]| <= 1 && |g[b]| <= 1 then g[b] else []
      ensures ok <==> |g[a]| <= 1 && |g[b]| <= 1
    {
      if g[a] != [] {
        if |g[a]| != 1 {
          return false;
        }
        outgoing := outgoing[a := outgoing[a] + [g[a][0]]];
        incoming := incoming[b := incoming[b] + [g[a][0]]];
      }
      if g[b] != [] {
        if |g[b]| != 1 {
          return false;
        }
        outgoing := outgoing[b := outgoing[b] + [g[b][0]]];
        incoming := incoming[a := incoming[a] + [g[b][0]]];
      }
      return true;
    }

    /** One label class. A class that can be closed gets its transitive closure; any other one ends up spoiled. */
    method ProcessComponent(g: FootGraph, component: nat, members: seq<nat>) returns (ok: bool)
      requires ValidGraph(g) && SortedGraph(g) && Members(g, members) && members != []
      requires component == NO_COMPONENT ==> forall i :: 0 <= i < |members| ==> g[members[i]] == []
      requires component != NO_COMPONENT && |members| == 1 ==> g[members[0]] != []
      requires |outgoing| == |incoming| == |g|
      requires forall i :: 0 <= i < |members| ==> outgoing[members[i]] == [] && incoming[members[i]] == []
      modifies this
      ensures |outgoing| == |incoming| == |g|
      ensures Untouched(members, old(outgoing), outgoing) && Untouched(members, old(incoming), incoming)
      ensures Closable(g, members) ==> ok && Filled(g, members, outgoing, incoming)
      ensures !Closable(g, members) ==> Spoiled(g, members, outgoing, incoming)
    {
      hide ValidGraph, SortedGraph, Edge, Inside, Spoiled, Filled, OutRow, InColumn, Distances, Rows;
      if component == NO_COMPONENT {
        UnlabelledFilled(g, members, outgoing, incoming);
        return true;
      }
      if |members| == 2 {
        assert members == [members[0], members[1]];
        ok := ProcessPair(g, members[0], members[1]);
        if Closable(g, members) {
          PairFilled(g, members, outgoing, incoming);
        } else {
          PairSpoiled(g, members, outgoing, incoming);
        }
        return;
      }
      if |members| < 2 {
        SingleSpoiled(g, members, outgoing, incoming);
        return false;
      }
      var mat: array2<nat>;
      mat, ok := CloseMatrix(g, members);
      if !ok {
        EmptySpoiled(g, members, outgoing, incoming);
        return;
      }
      WriteLists(mat, members);
      if Inside(g, members) {
        MatrixFilled(g, members, outgoing, incoming);
      } else {
        MatrixSpoiled(g, members, Rows(mat), outgoing, incoming);
      }
    }
  }

  // ----- Classes that no footpath leaves

  /** Without footpaths there are no distances. */
  lemma UnlabelledFilled(g: FootGraph, members: seq<nat>, outgoing: seq<seq<Footpath>>, incoming: seq<seq<Footpath>>)
    requires ValidGraph(g) && Members(g, members) && |outgoing| == |incoming| == |g|
    requires forall i :: 0 <= i < |members| ==> g[members[i]] == [] && outgoing[members[i]] == [] && incoming[members[i]] == []
    ensures Inside(g, members) && Filled(g, members, outgoing, incoming)
  {
    assert Inside(g, members);
    var w := Distances(g, members);
    forall i, j | 0 <= i < |members| && 0 <= j < |members|
      ensures Cell(w, members, i, j) == []
    {
      NoFootpathNoDistance(g, members, i, j);
    }
    forall i | 0 <= i < |members|
      ensures OutRow(w, members, i, |members|) == [] && InColumn(w, members, i, |members|) == []
    {
      EmptyCells(w, members, i, |members|);
    }
  }

  lemma RouteLeaves(g: FootGraph, p: seq<nat>, u: nat, v: nat)
    requires Route(g, p, u, v)
    ensures u < |g| && g[u] != []
  {
    assert p[1] < |g|;
  }

  lemma NoFootpathNoDistance(g: FootGraph, members: seq<nat>, i: nat, j: nat)
    requires ValidGraph(g) && Members(g, members) && Inside(g, members) && i < |members| && j < |members|
    requires g[members[i]] == []
    ensures ComponentDistance(g, members, i, j) == INVALID_TIME
  {
    hide ValidGraph, Inside, RouteLength, ComponentDistance;
    DistanceInRange(g, members, i, j);
    if ComponentDistance(g, members, i, j) < INVALID_TIME {
      MatrixDistance(g, members, i, j);
      var p :| Route(g, p, members[i], members[j]) && InGraph(g, p) && RouteLength(g, p) == ComponentDistance(g, members, i, j);
      RouteLeaves(g, p, members[i], members[j]);
    }
  }

  lemma {:induction false} EmptyCells(w: Matrix, members: seq<nat>, i: nat, upto: nat)
    requires Square(w, |members|) && i < |members| && upto <= |members|
    requires forall a, b :: 0 <= a < |members| && 0 <= b < |members| ==> Cell(w, members, a, b) == []
    ensures OutRow(w, members, i, upto) == [] && InColumn(w, members, i, upto) == []
  {
    hide Cell;
    if upto > 0 {
      EmptyCells(w, members, i, upto - 1);
    }
  }

  /** The shortcut agrees with the matrix: between two stations the footpath itself is the shortest route. */
  lemma PairFilled(g: FootGraph, members: seq<nat>, outgoing: seq<seq<Footpath>>, incoming: seq<seq<Footpath>>)
    requires ValidGraph(g) && Members(g, members) && Closable(g, members) && |members| == 2
    requires |outgoing| == |incoming| == |g|
    requires var a, b := members[0], members[1];
             outgoing[a] == incoming[b] == g[a] && outgoing[b] == incoming[a] == g[b]
    ensures Filled(g, members, outgoing, incoming)
  {
    hide ValidGraph, Inside, Cell, ComponentDistance;
    PairCell(g, members, 0, 1);
    PairCell(g, members, 1, 0);
    var w := Distances(g, members);
    OutRowOfTwo(w, members);
  }

  lemma OutRowOfTwo(w: Matrix, members: seq<nat>)
    requires Square(w, 2) && |members| == 2
    ensures OutRow(w, members, 0, 2) == InColumn(w, members, 1, 2) == Cell(w, members, 0, 1)
    ensures OutRow(w, members, 1, 2) == InColumn(w, members, 0, 2) == Cell(w, members, 1, 0)
  {
    assert OutRow(w, members, 0, 0) == OutRow(w, members, 1, 0) == InColumn(w, members, 0, 0) == InColumn(w, members, 1, 0) == [];
    assert OutRow(w, members, 0, 1) == [] && OutRow(w, members, 1, 1) == Cell(w, members, 1, 0);
    assert InColumn(w, members, 0, 1) == [] && InColumn(w, members, 1, 1) == Cell(w, members, 0, 1);
  }

  lemma PairCell(g: FootGraph, members: seq<nat>, i: nat, j: nat)
    requires ValidGraph(g) && Members(g, members) && Closable(g, members) && |members| == 2
    requires (i == 0 && j == 1) || (i == 1 && j == 0)
    ensures Cell(Distances(g, members), members, i, j) == g[members[i]]
  {
    hide Inside, ComponentDistance;
    var u, v := members[i], members[j];
    PairEnds(g, members, i, j);
    PairDistance(g, members, i, j);
    StepIsEdge(g, u, v);
    if g[u] != [] {
      var f := g[u][0];
      assert f in g[u];
      assert g[u] == [f];
      assert f == Footpath(u, v, Step(g, u, v));
    }
  }

  lemma PairEnds(g: FootGraph, members: seq<nat>, i: nat, j: nat)
    requires ValidGraph(g) && Members(g, members) && Inside(g, members) && |members| == 2
    requires (i == 0 && j == 1) || (i == 1 && j == 0)
    ensures forall f :: f in g[members[i]] ==> f.from == members[i] && f.to == members[j]
  {
    var u := members[i];
    forall f | f in g[u]
      ensures f.from == u && f.to == members[j]
    {
      assert Edge(g, u, f.to);
    }
  }

  lemma PairDistance(g: FootGraph, members: seq<nat>, i: nat, j: nat)
    requires ValidGraph(g) && Members(g, members) && |members| == 2
    requires (i == 0 && j == 1) || (i == 1 && j == 0)
    ensures ComponentDistance(g, members, i, j) == Step(g, members[i], members[j])
  {
    hide Step;
    var w := StepMatrix(g, members);
    var d := Step(g, members[i], members[j]);
    NoLoop(g, members[0]);
    NoLoop(g, members[1]);
    StepIsEdge(g, members[i], members[j]);
    assert Distance(w, 2, 1, i, j) == d;
    assert Distance(w, 2, 2, i, j) == d;
  }

  lemma NoLoop(g: FootGraph, u: nat)
    requires ValidGraph(g) && u < |g|
    ensures Step(g, u, u) == INVALID_TIME
  {
    StepIsEdge(g, u, u);
    if Edge(g, u, u) {
      EdgeEnd(g, u, u);
    }
  }

  lemma MatrixFilled(g: FootGraph, members: seq<nat>, outgoing: seq<seq<Footpath>>, incoming: seq<seq<Footpath>>)
    requires Members(g, members) && |outgoing| == |incoming| == |g|
    requires forall i :: 0 <= i < |members| ==> outgoing[members[i]] == OutRow(Distances(g, members), members, i, |members|)
    requires forall i :: 0 <= i < |members| ==> incoming[members[i]] == InColumn(Distances(g, members), members, i, |members|)
    ensures Filled(g, members, outgoing, incoming)
  {
  }

  // ----- Classes that some footpath leaves

  lemma Leaves(g: FootGraph, members: seq<nat>) returns (u: nat, v: nat)
    requires !Inside(g, members)
    ensures u in members && Edge(g, u, v) && v !in members
  {
    u, v :| u in members && Edge(g, u, v) && v !in members;
  }

  lemma EmptySpoiled(g: FootGraph, members: seq<nat>, outgoing: seq<seq<Footpath>>, incoming: seq<seq<Footpath>>)
    requires Members(g, members) && !Inside(g, members) && |outgoing| == |incoming| == |g|
    requires forall i :: 0 <= i < |members| ==> outgoing[members[i]] == []
    ensures Spoiled(g, members, outgoing, incoming)
  {
    hide Edge;
    var u, v := Leaves(g, members);
    assert outgoing[u] == [];
  }

  lemma SingleSpoiled(g: FootGraph, members: seq<nat>, outgoing: seq<seq<Footpath>>, incoming: seq<seq<Footpath>>)
    requires ValidGraph(g) && Members(g, members) && |members| == 1 && g[members[0]] != [] && |outgoing| == |incoming| == |g|
    requires forall i :: 0 <= i < |members| ==> outgoing[members[i]] == []
    ensures !Inside(g, members) && Spoiled(g, members, outgoing, incoming)
  {
    var u := members[0];
    var f := g[u][0];
    assert f in g[u];
    assert Edge(g, u, f.to);
    EmptySpoiled(g, members, outgoing, incoming);
  }

  lemma PairSpoiled(g: FootGraph, members: seq<nat>, outgoing: seq<seq<Footpath>>, incoming: seq<seq<Footpath>>)
    requires ValidGraph(g) && Members(g, members) && !Closable(g, members) && |members| == 2
    requires |outgoing| == |incoming| == |g|
    requires var a, b := members[0], members[1];
             && outgoing[a] == incoming[b] == (if |g[a]| <= 1 then g[a] else [])
             && outgoing[b] == incoming[a] == (if |g[a]| <= 1 && |g[b]| <= 1 then g[b] else [])
    ensures Spoiled(g, members, outgoing, incoming)
  {
    hide ValidGraph;
    if !Inside(g, members) {
      var u, v := Leaves(g, members);
      var f :| f in g[u] && f.to == v;
      PairStationSpoiled(g, members, outgoing, incoming, u, f);
    } else {
      var u := if |g[members[0]]| <= 1 then members[1] else members[0];
      assert g[u][0] in g[u];
      PairStationSpoiled(g, members, outgoing, incoming, u, g[u][0]);
    }
  }

  /** A footpath that leaves the pair, or is not the only one, is missed at its start or misplaced at the other station. */
  lemma PairStationSpoiled(g: FootGraph, members: seq<nat>, outgoing: seq<seq<Footpath>>, incoming: seq<seq<Footpath>>, u: nat, f: Footpath)
    requires Members(g, members) && |members| == 2 && |outgoing| == |incoming| == |g|
    requires var a, b := members[0], members[1];
             && outgoing[a] == incoming[b] == (if |g[a]| <= 1 then g[a] else [])
             && outgoing[b] == incoming[a] == (if |g[a]| <= 1 && |g[b]| <= 1 then g[b] else [])
    requires u in members && f in g[u] && (f.to !in members || |g[u]| > 1)
    ensures Spoiled(g, members, outgoing, incoming)
  {
    var other := if u == members[0] then members[1] else members[0];
    assert other in members && u in members;
    assert Edge(g, u, f.to);
    if outgoing[u] == g[u] && |g[u]| <= 1 {
      assert f in incoming[other];
    } else {
      assert outgoing[u] == [];
    }
  }

  lemma MatrixSpoiled(g: FootGraph, members: seq<nat>, w: Matrix, outgoing: seq<seq<Footpath>>, incoming: seq<seq<Footpath>>)
    requires Members(g, members) && !Inside(g, members) && |outgoing| == |incoming| == |g| && Square(w, |members|)
    requires forall i :: 0 <= i < |members| ==> outgoing[members[i]] == OutRow(w, members, i, |members|)
    ensures Spoiled(g, members, outgoing, incoming)
  {
    hide Edge;
    var u, v := Leaves(g, members);
    var i := IndexOf(members, u);
    OutRowElements(w, members, i, |members|);
    forall f | f in outgoing[u]
      ensures f.to != v
    {
      var j: nat :| j < |members| && f in Cell(w, members, i, j);
      assert members[j] in members;
    }
  }
}
