/** Closing the whole foot graph: labels, label classes, and what the stations list in the end. */
module FootClosure {
  import opened FootComponents
  import opened FootConnectivity
  import opened FootRoutes
  import opened FootPaths
  import opened FootpathLists
  import opened Sets

  /** A station with its label. */
  datatype Entry = Entry(component: nat, station: nat)

  datatype Range = Range(component: nat, members: seq<nat>)

  predicate Less(e: Entry, f: Entry) {
    e.component < f.component || (e.component == f.component && e.station < f.station)
  }

  ghost predicate Sorted(entries: seq<Entry>) {
    forall i, j :: 0 <= i < j < |entries| ==> Less(entries[i], entries[j])
  }

  /** Insertion keeps the entries sorted; the entries are pairwise different. */
  method Insert(entries: seq<Entry>, e: Entry) returns (result: seq<Entry>)
    requires Sorted(entries) && e !in entries
    ensures Sorted(result) && forall f :: f in result <==> f in entries || f == e
  {
    var i := 0;
    while i < |entries| && Less(entries[i], e)
      invariant 0 <= i <= |entries| && forall k :: 0 <= k < i ==> Less(entries[k], e)
    {
      i := i + 1;
    }
    assert i < |entries| ==> entries[i] in entries && Less(e, entries[i]);
    InsertSorted(entries, i, e);
    result := entries[..i] + [e] + entries[i..];
  }

  lemma InsertSorted(entries: seq<Entry>, i: nat, e: Entry)
    requires Sorted(entries) && i <= |entries|
    requires forall k :: 0 <= k < i ==> Less(entries[k], e)
    requires i < |entries| ==> Less(e, entries[i])
    ensures var result := entries[..i] + [e] + entries[i..];
            Sorted(result) && forall f :: f in result <==> f in entries || f == e
  {
    var front, tail := entries[..i], entries[i..];
    assert entries == front + tail;
    assert forall k :: 0 <= k < |tail| ==> tail[k] == entries[i + k];
    forall k | 0 <= k < |tail|
      ensures Less(e, tail[k])
    {
      assert k > 0 ==> Less(entries[i], entries[i + k]);
    }
  }

  /** All stations with their labels, ordered by label and then by index. */
  method SortComponents(labels: seq<nat>) returns (entries: seq<Entry>)
    ensures Sorted(entries)
    ensures forall e :: e in entries <==> e.station < |labels| && labels[e.station] == e.component
  {
    entries := [];
    for v := 0 to |labels|
      invariant Sorted(entries)
      invariant forall e :: e in entries <==> e.station < v && labels[e.station] == e.component
    {
      entries := Insert(entries, Entry(labels[v], v));
    }
  }

  /** A range holds, in ascending order, exactly the stations that carry its label. */
  ghost predicate IsClass(r: Range, entries: seq<Entry>) {
    && r.members != [] && Ascending(r.members)
    && forall v: nat :: v in r.members <==> Entry(r.component, v) in entries
  }

  ghost predicate Partition(ranges: seq<Range>, entries: seq<Entry>) {
    && (forall k :: 0 <= k < |ranges| ==> IsClass(ranges[k], entries))
    && (forall k, l :: 0 <= k < l < |ranges| ==> ranges[k].component < ranges[l].component)
    && (forall e :: e in entries ==> exists k :: 0 <= k < |ranges| && ranges[k].component == e.component)
  }

  /** Splits the sorted entries into runs with equal labels. */
  method EqualRanges(entries: seq<Entry>) returns (ranges: seq<Range>)
    requires Sorted(entries)
    ensures Partition(ranges, entries)
  {
    ranges := [];
    var i := 0;
    while i < |entries|
      invariant 0 <= i <= |entries| && Partition(ranges, entries[..i])
      invariant i < |entries| ==> forall k :: 0 <= k < |ranges| ==> ranges[k].component < entries[i].component
    {
      ghost var start := i;
      var r: Range;
      r, i := NextRange(entries, i);
      PartitionGrows(ranges, entries, start, i, r);
      ranges := ranges + [r];
    }
    assert entries[..i] == entries;
  }

  method NextRange(entries: seq<Entry>, start: nat) returns (r: Range, i: nat)
    requires Sorted(entries) && start < |entries|
    ensures start < i <= |entries| && r.component == entries[start].component
    ensures forall k :: start <= k < i ==> entries[k].component == r.component
    ensures i < |entries| ==> r.component < entries[i].component
    ensures r.members == seq(i - start, k requires 0 <= k < i - start => entries[start + k].station)
  {
    i := start;
    var members: seq<nat> := [];
    while i < |entries| && entries[i].component == entries[start].component
      invariant start <= i <= |entries| && |members| == i - start
      invariant forall k :: start <= k < i ==> entries[k].component == entries[start].component && members[k - start] == entries[k].station
    {
      members := members + [entries[i].station];
      i := i + 1;
    }
    r := Range(entries[start].component, members);
  }

  lemma PartitionGrows(ranges: seq<Range>, entries: seq<Entry>, start: nat, i: nat, r: Range)
    requires Sorted(entries) && start < i <= |entries| && Partition(ranges, entries[..start])
    requires forall k :: 0 <= k < |ranges| ==> ranges[k].component < entries[start].component
    requires r.component == entries[start].component && forall k :: start <= k < i ==> entries[k].component == r.component
    requires r.members == seq(i - start, k requires 0 <= k < i - start => entries[start + k].station)
    ensures Partition(ranges + [r], entries[..i])
  {
    forall k | 0 <= k < |ranges|
      ensures IsClass(ranges[k], entries[..i])
    {
      EarlierClass(ranges[k], entries, start, i, r.component);
    }
    forall e | e in entries[..start]
      ensures e.component < r.component
    {
      var k :| 0 <= k < |ranges| && ranges[k].component == e.component;
    }
    NewClass(entries, start, i, r);
    forall e | e in entries[..i]
      ensures exists k :: 0 <= k < |ranges + [r]| && (ranges + [r])[k].component == e.component
    {
      var t :| 0 <= t < i && entries[t] == e;
      if t < start {
        assert e in entries[..start];
        var k :| 0 <= k < |ranges| && ranges[k].component == e.component;
        assert (ranges + [r])[k].component == e.component;
      } else {
        assert (ranges + [r])[|ranges|].component == e.component;
      }
    }
  }

  lemma EarlierClass(r: Range, entries: seq<Entry>, start: nat, i: nat, next: nat)
    requires start <= i <= |entries| && IsClass(r, entries[..start]) && r.component != next
    requires forall k :: start <= k < i ==> entries[k].component == next
    ensures IsClass(r, entries[..i])
  {
    forall v: nat
      ensures Entry(r.component, v) in entries[..i] <==> Entry(r.component, v) in entries[..start]
    {
    }
  }

  lemma NotEarlier(entries: seq<Entry>, start: nat, component: nat, v: nat)
    requires start <= |entries| && forall e :: e in entries[..start] ==> e.component < component
    ensures forall t :: 0 <= t < start ==> entries[t] != Entry(component, v)
  {
    assert forall t :: 0 <= t < start ==> entries[t] in entries[..start];
  }

  lemma NewClass(entries: seq<Entry>, start: nat, i: nat, r: Range)
    requires Sorted(entries) && start < i <= |entries|
    requires forall e :: e in entries[..start] ==> e.component < r.component
    requires forall k :: start <= k < i ==> entries[k].component == r.component
    requires r.members == seq(i - start, k requires 0 <= k < i - start => entries[start + k].station)
    ensures IsClass(r, entries[..i])
  {
    forall v: nat
      ensures v in r.members <==> Entry(r.component, v) in entries[..i]
    {
      if v in r.members {
        var k :| 0 <= k < |r.members| && r.members[k] == v;
        assert entries[..i][start + k] == Entry(r.component, v);
      }
      if Entry(r.component, v) in entries[..i] {
        NotEarlier(entries, start, r.component, v);
        var t :| start <= t < i && entries[t] == Entry(r.component, v);
        assert r.members[t - start] == v;
      }
    }
    forall a, b | 0 <= a < b < |r.members|
      ensures r.members[a] < r.members[b]
    {
      assert Less(entries[start + a], entries[start + b]);
    }
  }

  // ----- Facts about classes

  lemma {:induction false} RootKeepsLabel(g: FootGraph, i: nat, r: nat)
    requires r < i <= |g| && Root(g, r)
    ensures LabelAfter(g, i, r) >= r
  {
    if i - 1 == r {
      ReachSelf(g, r);
    } else {
      RootKeepsLabel(g, i - 1, r);
    }
  }

  lemma {:induction false} LabelsGrowAlong(g: FootGraph, p: seq<nat>)
    requires ValidGraph(g) && Path(g, p)
    ensures Label(g, p[0]) <= Label(g, p[|p| - 1]) || |p| == 1
  {
    assert p != [];
    hide Path, Label, Edge, ValidGraph;
    if |p| > 1 {
      PathFront(g, p);
      LabelsGrowAlong(g, p[..|p| - 1]);
      LabelsNonDecreasing(g, p[|p| - 2], p[|p| - 1]);
    }
  }

  lemma ClassContainsItsLabel(g: FootGraph, v: nat)
    requires ValidGraph(g) && Label(g, v) != NO_COMPONENT
    ensures Label(g, v) < |g| && g[Label(g, v)] != [] && Label(g, Label(g, v)) == Label(g, v)
  {
    var l := Label(g, v);
    LabelOfRoot(g, |g|, v);
    RootKeepsLabel(g, |g|, l);
    LabelReaches(g, v);
    var p :| Path(g, p) && p[0] == l && p[|p| - 1] == v;
    LabelsGrowAlong(g, p);
  }

  lemma UnlabelledHasNoFootpaths(g: FootGraph, v: nat)
    requires ValidGraph(g) && v < |g| && Label(g, v) == NO_COMPONENT
    ensures g[v] == []
  {
    if g[v] != [] {
      var f := g[v][0];
      assert f in g[v];
      LabelsNonDecreasing(g, v, f.to);
    }
  }

  // ----- All classes, in any order

  /** A class that has been processed. */
  ghost predicate Done(g: FootGraph, members: seq<nat>, outgoing: seq<seq<Footpath>>, incoming: seq<seq<Footpath>>)
    requires Members(g, members) && |outgoing| == |incoming| == |g|
  {
    && (Closable(g, members) ==> Filled(g, members, outgoing, incoming))
    && (!Closable(g, members) ==> Spoiled(g, members, outgoing, incoming))
  }

  lemma DoneKept(g: FootGraph, members: seq<nat>, others: seq<nat>, out0: seq<seq<Footpath>>, in0: seq<seq<Footpath>>,
                 out1: seq<seq<Footpath>>, in1: seq<seq<Footpath>>)
    requires Members(g, members) && |out0| == |in0| == |g| && Untouched(others, out0, out1) && Untouched(others, in0, in1)
    requires (forall v :: v in members ==> v !in others) && Done(g, members, out0, in0)
    ensures Done(g, members, out1, in1)
  {
    hide Closable, OutRow, InColumn, Distances, Edge;
    assert forall i :: 0 <= i < |members| ==> members[i] in members;
    assert forall v :: v in members ==> out1[v] == out0[v] && in1[v] == in0[v];
  }

  /** The members of a range are the stations with its label, in ascending order. */
  ghost predicate ClassOf(g: FootGraph, r: Range) {
    && Members(g, r.members) && r.members != []
    && forall v: nat :: v in r.members <==> v < |g| && Label(g, v) == r.component
  }

  ghost predicate InSomeRange(ranges: seq<Range>, component: nat) {
    exists k :: 0 <= k < |ranges| && ranges[k].component == component
  }

  /** The ranges are the label classes of the graph. */
  ghost predicate Classes(g: FootGraph, ranges: seq<Range>) {
    && (forall k :: 0 <= k < |ranges| ==> ClassOf(g, ranges[k]))
    && (forall k, l :: 0 <= k < l < |ranges| ==> ranges[k].component < ranges[l].component)
    && (forall v: nat :: v < |g| ==> InSomeRange(ranges, Label(g, v)))
  }

  method LabelClasses(g: FootGraph) returns (ranges: seq<Range>)
    requires ValidGraph(g)
    ensures Classes(g, ranges)
  {
    hide ValidGraph, Label;
    var labels := FindComponents(g);
    var entries := SortComponents(labels);
    ranges := EqualRanges(entries);
    RangesAreClasses(g, labels, entries, ranges);
  }

  lemma RangesAreClasses(g: FootGraph, labels: seq<nat>, entries: seq<Entry>, ranges: seq<Range>)
    requires |labels| == |g| && forall v :: 0 <= v < |g| ==> labels[v] == Label(g, v)
    requires forall e :: e in entries <==> e.station < |labels| && labels[e.station] == e.component
    requires Partition(ranges, entries)
    ensures Classes(g, ranges)
  {
    hide Label, ClassOf, IsClass;
    forall k | 0 <= k < |ranges|
      ensures ClassOf(g, ranges[k])
    {
      ClassMembers(g, labels, entries, ranges[k]);
    }
    forall v: nat | v < |g|
      ensures InSomeRange(ranges, Label(g, v))
    {
      StationInRange(g, labels, entries, ranges, v);
    }
  }

  lemma StationInRange(g: FootGraph, labels: seq<nat>, entries: seq<Entry>, ranges: seq<Range>, v: nat)
    requires v < |labels| && labels[v] == Label(g, v)
    requires forall e :: e in entries <==> e.station < |labels| && labels[e.station] == e.component
    requires Partition(ranges, entries)
    ensures InSomeRange(ranges, Label(g, v))
  {
    hide Label, IsClass;
    var e := Entry(labels[v], v);
    assert e in entries;
    var k :| 0 <= k < |ranges| && ranges[k].component == e.component;
  }

  lemma ClassMembers(g: FootGraph, labels: seq<nat>, entries: seq<Entry>, r: Range)
    requires |labels| == |g| && forall v :: 0 <= v < |g| ==> labels[v] == Label(g, v)
    requires forall e :: e in entries <==> e.station < |labels| && labels[e.station] == e.component
    requires IsClass(r, entries)
    ensures ClassOf(g, r)
  {
    hide Label;
    forall v: nat
      ensures v in r.members <==> v < |g| && Label(g, v) == r.component
    {
      assert v in r.members <==> Entry(r.component, v) in entries;
    }
    assert forall i :: 0 <= i < |r.members| ==> r.members[i] in r.members;
  }

  lemma ReadyToProcess(g: FootGraph, ranges: seq<Range>, k: nat)
    requires ValidGraph(g) && Classes(g, ranges) && k < |ranges|
    ensures var r := ranges[k];
            && (r.component == NO_COMPONENT ==> forall i :: 0 <= i < |r.members| ==> g[r.members[i]] == [])
            && (r.component != NO_COMPONENT && |r.members| == 1 ==> g[r.members[0]] != [])
  {
    hide ValidGraph, Label;
    var r := ranges[k];
    forall i | 0 <= i < |r.members| && r.component == NO_COMPONENT
      ensures g[r.members[i]] == []
    {
      assert r.members[i] in r.members;
      UnlabelledHasNoFootpaths(g, r.members[i]);
    }
    if r.component != NO_COMPONENT && |r.members| == 1 {
      assert r.members[0] in r.members;
      ClassContainsItsLabel(g, r.members[0]);
      assert r.component in r.members;
    }
  }

  lemma RangeOf(g: FootGraph, ranges: seq<Range>, v: nat) returns (k: nat)
    requires Classes(g, ranges) && v < |g|
    ensures k < |ranges| && ranges[k].component == Label(g, v)
    ensures forall x: nat :: x in ranges[k].members <==> x < |g| && Label(g, x) == Label(g, v)
  {
    hide Label;
    var component := Label(g, v);
    k :| 0 <= k < |ranges| && ranges[k].component == component;
  }

  lemma ClassesDisjoint(g: FootGraph, ranges: seq<Range>, k: nat, l: nat)
    requires Classes(g, ranges) && k < |ranges| && l < |ranges| && k != l
    ensures forall v :: v in ranges[k].members ==> v !in ranges[l].members
  {
    hide Label;
    assert ranges[k].component != ranges[l].component;
    forall v | v in ranges[k].members
      ensures v !in ranges[l].members
    {
      assert Label(g, v) == ranges[k].component;
    }
  }

  /** The classes in todo are still to be processed, the others are done. */
  ghost predicate Pending(g: FootGraph, ranges: seq<Range>, todo: set<nat>, outgoing: seq<seq<Footpath>>, incoming: seq<seq<Footpath>>) {
    && |outgoing| == |incoming| == |g| && Classes(g, ranges)
    && (forall k :: k in todo ==> k < |ranges|)
    && (forall k, i :: k in todo && 0 <= i < |ranges[k].members| ==> outgoing[ranges[k].members[i]] == [] && incoming[ranges[k].members[i]] == [])
    && (forall k: nat :: k < |ranges| && k !in todo ==> Done(g, ranges[k].members, outgoing, incoming))
  }

  lemma PendingShrinks(g: FootGraph, ranges: seq<Range>, todo: set<nat>, k: nat, out0: seq<seq<Footpath>>, in0: seq<seq<Footpath>>,
                       out1: seq<seq<Footpath>>, in1: seq<seq<Footpath>>)
    requires Pending(g, ranges, todo, out0, in0) && k in todo && |out1| == |in1| == |g|
    requires Untouched(ranges[k].members, out0, out1) && Untouched(ranges[k].members, in0, in1)
    requires Done(g, ranges[k].members, out1, in1)
    ensures Pending(g, ranges, todo - {k}, out1, in1)
  {
    hide Done, Label;
    forall l: nat | l < |ranges| && l !in todo - {k}
      ensures Done(g, ranges[l].members, out1, in1)
    {
      if l != k {
        ClassesDisjoint(g, ranges, l, k);
        DoneKept(g, ranges[l].members, ranges[k].members, out0, in0, out1, in1);
      }
    }
    forall l, i | l in todo - {k} && 0 <= i < |ranges[l].members|
      ensures out1[ranges[l].members[i]] == [] && in1[ranges[l].members[i]] == []
    {
      ClassesDisjoint(g, ranges, l, k);
      assert ranges[l].members[i] in ranges[l].members;
    }
  }

  method ProcessOne(g: FootGraph, builder: FootpathBuilder, ranges: seq<Range>, ghost todo: set<nat>, k: nat)
    requires ValidGraph(g) && SortedGraph(g)
    requires Pending(g, ranges, todo, builder.outgoing, builder.incoming) && k in todo
    modifies builder
    ensures Pending(g, ranges, todo - {k}, builder.outgoing, builder.incoming)
  {
    hide ValidGraph, SortedGraph, Label, Done, Closable, Filled, Spoiled, Untouched;
    ghost var out0, in0 := builder.outgoing, builder.incoming;
    ReadyToProcess(g, ranges, k);
    var ok := builder.ProcessComponent(g, ranges[k].component, ranges[k].members);
    IsDone(g, ranges[k].members, builder.outgoing, builder.incoming);
    PendingShrinks(g, ranges, todo, k, out0, in0, builder.outgoing, builder.incoming);
  }

  lemma IsDone(g: FootGraph, members: seq<nat>, outgoing: seq<seq<Footpath>>, incoming: seq<seq<Footpath>>)
    requires Members(g, members) && |outgoing| == |incoming| == |g|
    requires Closable(g, members) ==> Filled(g, members, outgoing, incoming)
    requires !Closable(g, members) ==> Spoiled(g, members, outgoing, incoming)
    ensures Done(g, members, outgoing, incoming)
  {
  }

  /** The classes are processed in parallel, that is in any order. Afterwards the lists promise what they should if and
      only if every component has a station that reaches all of it, and components of two stations have no parallel
      footpaths. */
  method TransitivizeFootpaths(g: FootGraph, builder: FootpathBuilder)
    requires ValidGraph(g) && SortedGraph(g)
    requires |builder.outgoing| == |builder.incoming| == |g|
    requires forall v :: 0 <= v < |g| ==> builder.outgoing[v] == [] && builder.incoming[v] == []
    modifies builder
    ensures Promise(g, builder.outgoing, builder.incoming) <==> Rooted(g) && SingleInPairs(g)
  {
    hide ValidGraph, SortedGraph, Rooted, SingleInPairs, Promise, Label, Done;
    var ranges := LabelClasses(g);
    var todo := set k: nat {:trigger ranges[k]} | k < |ranges|;
    while todo != {}
      invariant Pending(g, ranges, todo, builder.outgoing, builder.incoming)
      decreases |todo|
    {
      var k := Pick(todo);
      ProcessOne(g, builder, ranges, todo, k);
      todo := todo - {k};
    }
    AllDone(g, ranges, builder.outgoing, builder.incoming);
  }

  // ----- What the lists promise in the end

  lemma SpoiledBreaksPromise(g: FootGraph, members: seq<nat>, outgoing: seq<seq<Footpath>>, incoming: seq<seq<Footpath>>)
    requires ValidGraph(g) && Members(g, members) && |outgoing| == |incoming| == |g| && Spoiled(g, members, outgoing, incoming)
    ensures !Promise(g, outgoing, incoming)
  {
    hide ValidGraph, Shortest;
    if u: nat, v: nat :| u in members && Edge(g, u, v) && forall f :: f in outgoing[u] ==> f.to != v {
      EdgeEnd(g, u, v);
      var d := EdgeHasShortest(g, u, v);
    }
  }

  lemma FilledMirrors(g: FootGraph, members: seq<nat>, outgoing: seq<seq<Footpath>>, incoming: seq<seq<Footpath>>, i: nat)
    requires Members(g, members) && |outgoing| == |incoming| == |g| && Filled(g, members, outgoing, incoming) && i < |members|
    ensures forall f :: f in incoming[members[i]] ==> f.to == members[i] && f.from < |g| && f in outgoing[f.from]
    ensures forall f :: f in outgoing[members[i]] ==> f.to < |g| && f in incoming[f.to]
    ensures forall k, l :: 0 <= k < l < |incoming[members[i]]| ==> incoming[members[i]][k] != incoming[members[i]][l]
  {
    hide Distances, OutRow, InColumn;
    var w, n := Distances(g, members), |members|;
    InColumnElements(w, members, i, n);
    OutRowElements(w, members, i, n);
    forall f | f in incoming[members[i]]
      ensures f.to == members[i] && f.from < |g| && f in outgoing[f.from]
    {
      var j: nat :| j < n && f in Cell(w, members, j, i);
      OutRowElements(w, members, j, n);
    }
    forall f | f in outgoing[members[i]]
      ensures f.to < |g| && f in incoming[f.to]
    {
      var j: nat :| j < n && f in Cell(w, members, i, j);
      InColumnElements(w, members, j, n);
    }
  }

  lemma FilledIsExact(g: FootGraph, members: seq<nat>, outgoing: seq<seq<Footpath>>, incoming: seq<seq<Footpath>>, u: nat)
    requires ValidGraph(g) && Members(g, members) && Inside(g, members) && u in members
    requires |outgoing| == |incoming| == |g| && Filled(g, members, outgoing, incoming)
    ensures OutgoingExact(g, u, outgoing[u])
    ensures forall f :: f in incoming[u] ==> f.to == u && f.from < |g| && f in outgoing[f.from]
    ensures forall f :: f in outgoing[u] ==> f.from == u && f.to < |g| && f in incoming[f.to]
    ensures forall k, l :: 0 <= k < l < |incoming[u]| ==> incoming[u][k] != incoming[u][l]
  {
    hide ValidGraph, Inside, Shortest, OutRow, InColumn, Distances;
    var i := IndexOf(members, u);
    OutRowExact(g, members, i);
    FilledMirrors(g, members, outgoing, incoming, i);
  }

  lemma ClassInside(g: FootGraph, ranges: seq<Range>, k: nat)
    requires ValidGraph(g) && Classes(g, ranges) && k < |ranges| && EdgesStayInside(g)
    ensures Inside(g, ranges[k].members)
  {
    hide ValidGraph, Label, Edge;
    forall u, v | u in ranges[k].members && Edge(g, u, v)
      ensures v in ranges[k].members
    {
      EdgeEnd(g, u, v);
      assert Label(g, u) == Label(g, v);
    }
  }

  lemma StationDone(g: FootGraph, ranges: seq<Range>, outgoing: seq<seq<Footpath>>, incoming: seq<seq<Footpath>>, u: nat)
    requires ValidGraph(g) && Pending(g, ranges, {}, outgoing, incoming) && AllClosable(g, ranges) && u < |g|
    ensures OutgoingExact(g, u, outgoing[u])
    ensures forall f :: f in incoming[u] ==> f.to == u && f.from < |g| && f in outgoing[f.from]
    ensures forall f :: f in outgoing[u] ==> f.from == u && f.to < |g| && f in incoming[f.to]
    ensures forall k, l :: 0 <= k < l < |incoming[u]| ==> incoming[u][k] != incoming[u][l]
  {
    hide ValidGraph, Inside, OutgoingExact, Label, Filled, Spoiled;
    var k := RangeOf(g, ranges, u);
    assert ClassOf(g, ranges[k]);
    assert Done(g, ranges[k].members, outgoing, incoming);
    FilledIsExact(g, ranges[k].members, outgoing, incoming, u);
  }

  ghost predicate AllClosable(g: FootGraph, ranges: seq<Range>)
    requires Classes(g, ranges)
  {
    forall k :: 0 <= k < |ranges| ==> ClassOf(g, ranges[k]) && Closable(g, ranges[k].members)
  }

  lemma AllDone(g: FootGraph, ranges: seq<Range>, outgoing: seq<seq<Footpath>>, incoming: seq<seq<Footpath>>)
    requires ValidGraph(g) && Pending(g, ranges, {}, outgoing, incoming)
    ensures Promise(g, outgoing, incoming) <==> Rooted(g) && SingleInPairs(g)
  {
    hide ValidGraph, Label, OutgoingExact, Done, Rooted, SingleInPairs, AllClosable;
    ClosableIff(g, ranges);
    if AllClosable(g, ranges) {
      forall u | 0 <= u < |g|
        ensures OutgoingExact(g, u, outgoing[u])
        ensures forall f :: f in incoming[u] ==> f.to == u && f.from < |g| && f in outgoing[f.from]
        ensures forall f :: f in outgoing[u] ==> f.from == u && f.to < |g| && f in incoming[f.to]
        ensures forall k, l :: 0 <= k < l < |incoming[u]| ==> incoming[u][k] != incoming[u][l]
      {
        StationDone(g, ranges, outgoing, incoming, u);
      }
    } else {
      NotClosableBreaksPromise(g, ranges, outgoing, incoming);
    }
  }

  lemma NotClosableBreaksPromise(g: FootGraph, ranges: seq<Range>, outgoing: seq<seq<Footpath>>, incoming: seq<seq<Footpath>>)
    requires ValidGraph(g) && Pending(g, ranges, {}, outgoing, incoming) && !AllClosable(g, ranges)
    ensures !Promise(g, outgoing, incoming)
  {
    hide ValidGraph, Label, Promise, Spoiled, Filled, Closable;
    var k :| 0 <= k < |ranges| && !Closable(g, ranges[k].members);
    assert Done(g, ranges[k].members, outgoing, incoming);
    SpoiledBreaksPromise(g, ranges[k].members, outgoing, incoming);
  }

  // ----- Which graphs can be closed

  /** In a component of two stations, no station has a second footpath. */
  ghost predicate SingleInPairs(g: FootGraph) {
    forall a: nat, b: nat :: Edge(g, a, b) && (forall v: nat :: Connected(g, a, v) ==> v == a || v == b) ==> |g[a]| <= 1
  }

  lemma ClosableIff(g: FootGraph, ranges: seq<Range>)
    requires ValidGraph(g) && Classes(g, ranges)
    ensures AllClosable(g, ranges) <==> Rooted(g) && SingleInPairs(g)
  {
    hide ValidGraph, Label, Rooted, SingleInPairs, AllClosable, EdgesStayInside;
    StayInsideIff(g);
    if AllClosable(g, ranges) {
      ClosableStaysInside(g, ranges);
      ClosableIsSingle(g, ranges);
    }
    if EdgesStayInside(g) && SingleInPairs(g) {
      SingleIsClosable(g, ranges);
    }
  }

  lemma ClosableStaysInside(g: FootGraph, ranges: seq<Range>)
    requires ValidGraph(g) && Classes(g, ranges) && AllClosable(g, ranges)
    ensures EdgesStayInside(g)
  {
    hide ValidGraph, Label, Edge;
    forall u, v | Edge(g, u, v)
      ensures Label(g, u) == Label(g, v)
    {
      EdgeEnd(g, u, v);
      var k := RangeOf(g, ranges, u);
      assert ClassOf(g, ranges[k]) && Inside(g, ranges[k].members);
      assert u in ranges[k].members;
    }
  }

  lemma ClosableIsSingle(g: FootGraph, ranges: seq<Range>)
    requires ValidGraph(g) && Classes(g, ranges) && AllClosable(g, ranges) && EdgesStayInside(g)
    ensures SingleInPairs(g)
  {
    hide ValidGraph, Label, Edge, Connected, EdgesStayInside, Classes, AllClosable;
    forall a: nat, b: nat | Edge(g, a, b) && forall v: nat :: Connected(g, a, v) ==> v == a || v == b
      ensures a < |g| && |g[a]| <= 1
    {
      PairIsSingle(g, ranges, a, b);
    }
  }

  lemma PairIsSingle(g: FootGraph, ranges: seq<Range>, a: nat, b: nat)
    requires ValidGraph(g) && Classes(g, ranges) && AllClosable(g, ranges) && EdgesStayInside(g)
    requires Edge(g, a, b) && forall v: nat :: Connected(g, a, v) ==> v == a || v == b
    ensures a < |g| && |g[a]| <= 1
  {
    hide ValidGraph, Label, Connected, EdgesStayInside, Inside;
    EdgeEnd(g, a, b);
    EdgeStart(g, a, b);
    ConnectedSelf(g, a);
    ConnectedStep(g, a, a, b);
    var k := RangeOf(g, ranges, a);
    var members := ranges[k].members;
    assert ClassOf(g, ranges[k]);
    forall v: nat
      ensures v in members <==> v == a || v == b
    {
      if v < |g| {
        ComponentIsClass(g, a, v);
      }
    }
    TwoMembers(members, a, b);
    assert Closable(g, members);
  }

  lemma TwoMembers(members: seq<nat>, a: nat, b: nat)
    requires Ascending(members) && a != b && forall v: nat :: v in members <==> v == a || v == b
    ensures |members| == 2
  {
    assert |members| > 2 ==> members[0] < members[1] < members[2];
    assert a in members && b in members;
    assert forall i :: 0 <= i < |members| ==> members[i] in members;
  }

  lemma SingleIsClosable(g: FootGraph, ranges: seq<Range>)
    requires ValidGraph(g) && Classes(g, ranges) && EdgesStayInside(g) && SingleInPairs(g)
    ensures AllClosable(g, ranges)
  {
    hide ValidGraph, Label, SingleInPairs, EdgesStayInside, Inside, ClassOf;
    forall k | 0 <= k < |ranges|
      ensures ClassOf(g, ranges[k]) && Members(g, ranges[k].members) && Closable(g, ranges[k].members)
    {
      ClassIsMembers(g, ranges[k]);
      var members := ranges[k].members;
      ClassInside(g, ranges, k);
      if |members| == 2 {
        PairStationSingle(g, ranges[k], 0, 1);
        PairStationSingle(g, ranges[k], 1, 0);
      }
    }
  }

  lemma ClassIsMembers(g: FootGraph, r: Range)
    requires ClassOf(g, r)
    ensures Members(g, r.members)
  {
  }

  lemma PairStationSingle(g: FootGraph, r: Range, i: nat, j: nat)
    requires ValidGraph(g) && ClassOf(g, r) && EdgesStayInside(g) && SingleInPairs(g) && Inside(g, r.members) && |r.members| == 2
    requires (i == 0 && j == 1) || (i == 1 && j == 0)
    ensures |g[r.members[i]]| <= 1
  {
    hide ValidGraph, Label, EdgesStayInside, Connected;
    var a, b := r.members[i], r.members[j];
    assert a in r.members;
    if g[a] != [] {
      var f := g[a][0];
      assert f in g[a];
      assert Edge(g, a, f.to);
      EdgeEnd(g, a, f.to);
      assert f.to == b;
      forall v: nat | Connected(g, a, v)
        ensures v == a || v == b
      {
        ConnectedInGraph(g, a, v);
        ComponentIsClass(g, a, v);
        assert v in r.members;
      }
    }
  }
}
