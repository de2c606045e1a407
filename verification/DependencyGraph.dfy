/** The dependency graph of the precomputed distributions: which event's distribution depends on which. */
module DependencyGraph {
  import opened Options

  const FEEDER_THRESHOLD := 30

  /** A departure (even position) or arrival (odd position) of a train, at its time in the timetable. */
  datatype Event = Event(train: int, position: nat, time: int)

  /** A light connection of a train: its departure, its arrival, and the preceding arrival of the train. */
  datatype Element = Element(departure: nat, arrival: nat, preceding: Option<nat>) {

    ghost predicate Valid(events: seq<Event>) {
      && departure < |events| && arrival < |events| && (preceding.Some? ==> preceding.value < |events|)
      && Later(events, departure, arrival)
      && (preceding.Some? ==> Later(events, preceding.value, departure))
    }
  }

  /** An arrival at the same station, and whether the departing train waits for it at all. */
  datatype Candidate = Candidate(arrival: nat, waits: bool)

  /** b comes after a: at a later time, or at the same time further along a train. */
  predicate Later(events: seq<Event>, a: nat, b: nat)
    requires a < |events| && b < |events|
  {
    events[a].time < events[b].time || (events[a].time == events[b].time && events[a].position < events[b].position)
  }

  /** The interval in which a feeder must arrive: whether there is one, its begin and its end. */
  function FeederTimeInterval(departureTime: int, changeTime: nat, threshold: nat): (r: (bool, int, int))
    ensures r.0 ==> r.1 <= r.2 < departureTime
  {
    var change := if changeTime < 1 then 1 else changeTime;
    var begin := if departureTime <= threshold then 0 else departureTime - threshold;
    var end := departureTime - change;
    (begin <= end && departureTime >= change, begin, end)
  }

  predicate IsFeeder(events: seq<Event>, departure: nat, changeTime: nat, c: Candidate)
    requires departure < |events|
  {
    var (success, begin, end) := FeederTimeInterval(events[departure].time, changeTime, FEEDER_THRESHOLD);
    success && c.waits && c.arrival < |events| && begin <= events[c.arrival].time <= end
  }

  /** A feeder arrives in the last half hour before the departure, at least a minute before it, and early enough to change. */
  lemma FeederMeans(events: seq<Event>, departure: nat, changeTime: nat, c: Candidate)
    requires departure < |events|
    ensures IsFeeder(events, departure, changeTime, c) <==>
            && c.waits && c.arrival < |events|
            && var arrives, departs := events[c.arrival].time, events[departure].time;
            0 <= arrives && departs - 30 <= arrives < departs && arrives + changeTime <= departs
  {
  }

  /** The event is a feeder of the departure, or the preceding arrival of its train. */
  ghost predicate Precedes(events: seq<Event>, element: Element, candidates: seq<Candidate>, changeTime: nat, n: nat)
    requires element.departure < |events|
  {
    element.preceding == Some(n) || exists c :: c in candidates && c.arrival == n && IsFeeder(events, element.departure, changeTime, c)
  }

  /** The edges that one light connection adds: from its departure to its arrival, and from all that precede its departure. */
  ghost predicate Added(events: seq<Event>, before: seq<seq<nat>>, after: seq<seq<nat>>, element: Element,
                        candidates: seq<Candidate>, changeTime: nat)
    requires |before| == |after| == |events| && element.departure < |events|
  {
    forall n, s {:trigger s in after[n]} {:trigger s in before[n]} :: 0 <= n < |events| ==>
      (s in after[n] <==>
        || s in before[n]
        || (n == element.departure && s == element.arrival)
        || (s == element.departure && Precedes(events, element, candidates, changeTime, n)))
  }

  class PrecomputedGraph {
    const events: seq<Event>
    var successors: seq<seq<nat>>
    var predecessors: seq<seq<nat>>

    /** All edges go to later events, and the two adjacency lists mirror each other. */
    ghost predicate Valid()
      reads this
    {
      && |successors| == |events| == |predecessors|
      && Acyclic(events, successors)
      && Mirrored(successors, predecessors)
    }

    constructor (timetable: seq<Event>)
      ensures events == timetable && Valid()
      ensures forall n :: 0 <= n < |events| ==> successors[n] == []
    {
      events := timetable;
      successors := seq(|timetable|, _ => []);
      predecessors := seq(|timetable|, _ => []);
    }

    method AddEdge(from: nat, to: nat)
      requires Valid() && from < |events| && to < |events| && Later(events, from, to)
      modifies this
      ensures Valid()
      ensures forall n, s :: 0 <= n < |events| ==> (s in successors[n] <==> s in old(successors[n]) || (n == from && s == to))
    {
      successors := successors[from := successors[from] + [to]];
      predecessors := predecessors[to := predecessors[to] + [from]];
    }

    /** The edges of one light connection: into its arrival, from its feeders, and from the train's own preceding arrival. */
    method InitPredecessorsAndSuccessors(element: Element, candidates: seq<Candidate>, changeTime: nat)
      requires Valid() && element.Valid(events)
      modifies this
      ensures Valid()
      ensures Added(events, old(successors), successors, element, candidates, changeTime)
    {
      AddEdge(element.departure, element.arrival);
      label A:
      for i := 0 to |candidates|
        invariant Valid()
        invariant forall n, s :: 0 <= n < |events| ==>
                    (s in successors[n] <==>
                      || s in old@A(successors[n])
                      || (s == element.departure &&
                          exists c :: c in candidates[..i] && c.arrival == n && IsFeeder(events, element.departure, changeTime, c)))
      {
        var c := candidates[i];
        assert candidates[..i + 1] == candidates[..i] + [c];
        if IsFeeder(events, element.departure, changeTime, c) {
          AddEdge(c.arrival, element.departure);
        }
      }
      assert candidates[..|candidates|] == candidates;
      if element.preceding.Some? {
        AddEdge(element.preceding.value, element.departure);
      }
    }
  }

  // ----- Graphs of whole timetables

  /** An edge between two events of one minute. */
  ghost predicate AtOnce(events: seq<Event>, successors: seq<seq<nat>>, m: nat, n: nat) {
    m < |events| && m < |successors| && n in successors[m] && n < |events| && events[m].time == events[n].time
  }

  /** Edges join departures and arrivals; an arrival depends on one departure, a departure on at most one arrival of its own
      minute, and dependent events of one minute belong to one train. */
  ghost predicate Timetable(events: seq<Event>, successors: seq<seq<nat>>) {
    && |successors| == |events|
    && (forall n, s {:trigger s in successors[n]} :: 0 <= n < |events| && s in successors[n] ==>
          s < |events| && events[n].position % 2 != events[s].position % 2)
    && (forall m, n, s {:trigger s in successors[m], s in successors[n]} ::
          0 <= m < |events| && 0 <= n < |events| && s in successors[m] && s in successors[n] && events[s].position % 2 == 1 ==> m == n)
    && (forall m: nat, n: nat, s: nat :: AtOnce(events, successors, m, s) && AtOnce(events, successors, n, s) ==> m == n)
    && (forall m: nat, s: nat :: AtOnce(events, successors, m, s) ==> events[m].train == events[s].train)
  }

  /** A light connection with the arrivals that may feed its departure. */
  datatype Connection = Connection(element: Element, candidates: seq<Candidate>, changeTime: nat) {

    /** All three events belong to one train, and all candidates are arrivals. */
    ghost predicate Valid(events: seq<Event>) {
      && element.Valid(events)
      && events[element.departure].position % 2 == 0 && events[element.arrival].position % 2 == 1
      && events[element.departure].train == events[element.arrival].train
      && (element.preceding.Some? ==>
            events[element.preceding.value].position % 2 == 1 && events[element.preceding.value].train == events[element.departure].train)
      && forall c :: c in candidates && c.arrival < |events| ==> events[c.arrival].position % 2 == 1
    }
  }

  /** Edges lead only to events that are already computed. */
  ghost predicate OnlyInto(successors: seq<seq<nat>>, computed: set<nat>) {
    forall n, s {:trigger s in successors[n]} :: 0 <= n < |successors| && s in successors[n] ==> s in computed
  }

  /** What precedes a departure in its own minute is the preceding arrival of its train: feeders arrive earlier. */
  lemma PrecedingIsAlone(events: seq<Event>, c: Connection, n: nat)
    requires c.Valid(events) && Precedes(events, c.element, c.candidates, c.changeTime, n)
    ensures n < |events| && events[n].position % 2 == 1 && events[n].time <= events[c.element.departure].time
    ensures events[n].time == events[c.element.departure].time ==> c.element.preceding == Some(n)
  {
  }

  /** A connection whose events are new keeps the graph a timetable. */
  lemma TimetableGrows(events: seq<Event>, before: seq<seq<nat>>, after: seq<seq<nat>>, c: Connection, computed: set<nat>)
    requires Timetable(events, before) && |after| == |events| && c.Valid(events)
    requires OnlyInto(before, computed) && c.element.departure !in computed && c.element.arrival !in computed
    requires Added(events, before, after, c.element, c.candidates, c.changeTime)
    ensures Timetable(events, after) && OnlyInto(after, computed + {c.element.departure, c.element.arrival})
  {
    hide Precedes, Connection.Valid;
    var d, a := c.element.departure, c.element.arrival;
    ConnectionEvents(events, c);
    forall n: nat | Precedes(events, c.element, c.candidates, c.changeTime, n)
      ensures n < |events| && events[n].position % 2 == 1
      ensures events[n].time == events[d].time ==> c.element.preceding == Some(n) && events[n].train == events[d].train
    {
      PrecedingIsAlone(events, c, n);
    }
    forall n: nat, s | n < |events| && s in after[n]
      ensures s == a ==> n == d
      ensures s == d ==> Precedes(events, c.element, c.candidates, c.changeTime, n)
      ensures s != a && s != d ==> s in before[n]
    {
      assert s in before[n] ==> s in computed;
    }
    forall m: nat, s: nat | AtOnce(events, after, m, s)
      ensures s == a ==> m == d
      ensures s == d ==> c.element.preceding == Some(m) && events[m].train == events[d].train
      ensures s != a && s != d ==> AtOnce(events, before, m, s)
    {
    }
  }

  lemma ConnectionEvents(events: seq<Event>, c: Connection)
    requires c.Valid(events)
    ensures var d, a := c.element.departure, c.element.arrival;
            && d < |events| && a < |events| && events[d].position % 2 == 0 && events[a].position % 2 == 1
            && events[d].train == events[a].train
    ensures forall n :: c.element.preceding == Some(n) ==> n < |events| && events[n].train == events[c.element.departure].train
  {
  }

  /** The precomputation: connections whose events have been computed before are skipped. */
  method PerformPrecomputation(events: seq<Event>, connections: seq<Connection>) returns (graph: PrecomputedGraph)
    requires forall c :: c in connections ==> c.Valid(events)
    ensures fresh(graph) && graph.events == events && graph.Valid()
    ensures Timetable(events, graph.successors)
  {
    graph := new PrecomputedGraph(events);
    var computed: set<nat> := {};
    for i := 0 to |connections|
      invariant fresh(graph) && graph.events == events && graph.Valid()
      invariant Timetable(events, graph.successors) && OnlyInto(graph.successors, computed)
    {
      var c := connections[i];
      assert c in connections;
      if c.element.departure in computed || c.element.arrival in computed {
        continue;
      }
      ghost var before := graph.successors;
      graph.InitPredecessorsAndSuccessors(c.element, c.candidates, c.changeTime);
      TimetableGrows(events, before, graph.successors, c, computed);
      computed := computed + {c.element.departure, c.element.arrival};
    }
  }

  ghost predicate Acyclic(events: seq<Event>, successors: seq<seq<nat>>) {
    && |successors| == |events|
    && forall n, s {:trigger s in successors[n]} :: 0 <= n < |events| && s in successors[n] ==> s < |events| && Later(events, n, s)
  }

  ghost predicate Mirrored(successors: seq<seq<nat>>, predecessors: seq<seq<nat>>) {
    && |successors| == |predecessors|
    && forall n, s {:trigger s in successors[n]} {:trigger n in predecessors[s]} :: 0 <= n < |successors| && 0 <= s < |successors| ==>
         (s in successors[n] <==> n in predecessors[s])
  }

  /** No path of edges leads from an event back to itself. */
  ghost predicate Path(events: seq<Event>, successors: seq<seq<nat>>, path: seq<nat>)
    requires Acyclic(events, successors)
  {
    && path != [] && (forall k :: 0 <= k < |path| ==> path[k] < |events|)
    && forall k :: 0 <= k < |path| - 1 ==> path[k + 1] in successors[path[k]]
  }

  lemma {:induction false} NoCycles(events: seq<Event>, successors: seq<seq<nat>>, path: seq<nat>)
    requires Acyclic(events, successors) && Path(events, successors, path) && |path| > 1
    ensures Later(events, path[0], path[|path| - 1])
    ensures path[0] != path[|path| - 1]
  {
    var n := |path| - 1;
    assert path[n - 1 + 1] in successors[path[n - 1]];
    if n > 1 {
      var front := path[..n];
      assert forall k :: 0 <= k < |front| - 1 ==> front[k + 1] in successors[front[k]] by {
        forall k | 0 <= k < |front| - 1
          ensures front[k + 1] in successors[front[k]]
        {
          assert path[k + 1] in successors[path[k]];
        }
      }
      NoCycles(events, successors, front);
    }
  }
}
