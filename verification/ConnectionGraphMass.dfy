/** The masses in a rated connection graph: a flow from the departure stop to the arrival stop that never gains. */
module ConnectionGraphMass {
  import opened Sums
  import opened Distributions
  import opened ConnectionGraph
  import opened ConnectionGraphRating

  /** The mass of all alternatives of a stop. */
  function Out(alternatives: seq<Alternative>): real {
    if alternatives == [] then 0.0
    else Out(alternatives[..|alternatives| - 1]) + alternatives[|alternatives| - 1].arrival.Mass()
  }

  /** The mass of those that lead to stop t. */
  function FlowTo(alternatives: seq<Alternative>, t: nat): real {
    if alternatives == [] then 0.0
    else
      var last := alternatives[|alternatives| - 1];
      FlowTo(alternatives[..|alternatives| - 1], t) + (if last.nextStop == t then last.arrival.Mass() else 0.0)
  }

  function Flows(stops: seq<GraphStop>, t: nat): seq<real> {
    seq(|stops|, i requires 0 <= i < |stops| => FlowTo(stops[i].alternatives, t))
  }

  /** The mass arriving at stop t. */
  function Inflow(stops: seq<GraphStop>, t: nat): real {
    Total(Flows(stops, t))
  }

  /** The mass that reaches the destination. */
  function DestinationMass(state: State): real {
    Inflow(state.stops, INDEX_ARRIVAL_STOP)
  }

  /** At every intermediate stop, what the alternatives pass on and what is still uncovered fit into what arrives. */
  ghost predicate Ledger(state: State)
    requires |state.uncovered| == |state.stops|
  {
    forall t {:trigger state.stops[t]} :: 2 <= t < |state.stops| ==>
      Out(state.stops[t].alternatives) + state.uncovered[t].Mass() <= Inflow(state.stops, t)
  }

  // ----- How a new rating changes the flow

  lemma SetLastFlow(stops: seq<GraphStop>, s: nat, departure: Distribution, arrival: Distribution, t: nat)
    requires s < |stops| && stops[s].alternatives != []
    ensures var last := stops[s].alternatives[|stops[s].alternatives| - 1];
            Inflow(SetLast(stops, s, departure, arrival), t) ==
            Inflow(stops, t) + (if last.nextStop == t then arrival.Mass() - last.arrival.Mass() else 0.0)
  {
    var r := SetLast(stops, s, departure, arrival);
    var n := |stops[s].alternatives| - 1;
    assert r[s].alternatives[..n] == stops[s].alternatives[..n];
    var x := FlowTo(r[s].alternatives, t);
    assert Flows(r, t) == Flows(stops, t)[s := x];
    PrefixUpdate(Flows(stops, t), s, x, |stops|);
  }

  lemma SetLastOut(stops: seq<GraphStop>, s: nat, departure: Distribution, arrival: Distribution)
    requires s < |stops| && stops[s].alternatives != []
    ensures var last := stops[s].alternatives[|stops[s].alternatives| - 1];
            Out(SetLast(stops, s, departure, arrival)[s].alternatives) == Out(stops[s].alternatives) + arrival.Mass() - last.arrival.Mass()
  {
    var r := SetLast(stops, s, departure, arrival);
    var n := |stops[s].alternatives| - 1;
    assert r[s].alternatives[..n] == stops[s].alternatives[..n];
  }

  lemma {:induction false} FlowToSingle(alternatives: seq<Alternative>, t: nat, a: nat)
    requires a < |alternatives| && alternatives[a].nextStop == t
    requires forall b :: 0 <= b < |alternatives| && b != a ==> alternatives[b].nextStop != t
    ensures FlowTo(alternatives, t) == alternatives[a].arrival.Mass()
  {
    var n := |alternatives| - 1;
    if a == n {
      FlowToNothing(alternatives[..n], t);
    } else {
      FlowToSingle(alternatives[..n], t, a);
    }
  }

  lemma {:induction false} FlowToNothing(alternatives: seq<Alternative>, t: nat)
    requires forall b :: 0 <= b < |alternatives| ==> alternatives[b].nextStop != t
    ensures FlowTo(alternatives, t) == 0.0
  {
    if alternatives != [] {
      FlowToNothing(alternatives[..|alternatives| - 1], t);
    }
  }

  /** The inflow of an intermediate stop is the mass of its one arriving alternative. */
  lemma InflowIsArriving(state: State, s: nat)
    requires state.Valid() && 2 <= s < |state.stops|
    ensures Inflow(state.stops, s) == ArrivingAt(state, s).arrival.Mass()
  {
    var stops := state.stops;
    ArrivingIsUnique(stops, |state.journeys|, s);
    var (i, a) := FindArriving(stops, s, 0).value;
    assert LeadsTo(stops, i, a, s);
    var flows := Flows(stops, s);
    forall j | 0 <= j < |stops|
      ensures flows[j] == if j == i then stops[i].alternatives[a].arrival.Mass() else 0.0
    {
      forall b | 0 <= b < |stops[j].alternatives| && (j, b) != (i, a)
        ensures stops[j].alternatives[b].nextStop != s
      {
        assert LeadsTo(stops, j, b, s) ==> (j, b) == (i, a);
      }
      if j == i {
        FlowToSingle(stops[j].alternatives, s, a);
      } else {
        FlowToNothing(stops[j].alternatives, s);
      }
    }
    PrefixZeros(flows, 0, i);
    PrefixZeros(flows, i + 1, |flows|);
    assert Prefix(flows, i + 1) == Prefix(flows, i) + flows[i];
  }

  /** The mass of one alternative does not exceed the mass of its stop. */
  lemma {:induction false} OutNonNegative(alternatives: seq<Alternative>)
    requires forall a :: 0 <= a < |alternatives| ==> alternatives[a].arrival.Valid()
    ensures Out(alternatives) >= 0.0
    ensures forall t :: FlowTo(alternatives, t) >= 0.0
  {
    if alternatives != [] {
      var n := |alternatives| - 1;
      OutNonNegative(alternatives[..n]);
      ValidQueries(alternatives[n].arrival, 0, 0);
    }
  }

  // ----- Summing over all stops

  /** Mass leaving a stop, distributed over the targets. */
  lemma {:induction false} OutByTarget(alternatives: seq<Alternative>, size: nat)
    requires forall a :: 0 <= a < |alternatives| ==> alternatives[a].nextStop < size
    ensures Total(seq(size, t requires 0 <= t => FlowTo(alternatives, t))) == Out(alternatives)
  {
    var flows := seq(size, t requires 0 <= t => FlowTo(alternatives, t));
    if alternatives == [] {
      PrefixZeros(flows, 0, size);
    } else {
      var n := |alternatives| - 1;
      var last := alternatives[n];
      var before := seq(size, t requires 0 <= t => FlowTo(alternatives[..n], t));
      OutByTarget(alternatives[..n], size);
      assert flows == before[last.nextStop := before[last.nextStop] + last.arrival.Mass()];
      PrefixUpdate(before, last.nextStop, before[last.nextStop] + last.arrival.Mass(), size);
    }
  }

  function Outs(stops: seq<GraphStop>): seq<real> {
    seq(|stops|, i requires 0 <= i < |stops| => Out(stops[i].alternatives))
  }

  /** Partial inflows: from the first k stops only. */
  function InflowsFrom(stops: seq<GraphStop>, k: nat): seq<real>
    requires k <= |stops|
  {
    seq(|stops|, t requires 0 <= t => Prefix(Flows(stops, t), k))
  }

  /** Everything that leaves a stop arrives at a stop. */
  lemma {:induction false} FlowBalances(stops: seq<GraphStop>, k: nat)
    requires k <= |stops|
    requires forall i, a :: HasAlternative(stops, i, a) ==> Next(stops, i, a) < |stops|
    ensures Total(InflowsFrom(stops, k)) == Prefix(Outs(stops), k)
  {
    var now := InflowsFrom(stops, k);
    if k == 0 {
      PrefixZeros(now, 0, |stops|);
    } else {
      FlowBalances(stops, k - 1);
      var before := InflowsFrom(stops, k - 1);
      var added := seq(|stops|, t requires 0 <= t => FlowTo(stops[k - 1].alternatives, t));
      var alternatives := stops[k - 1].alternatives;
      forall a | 0 <= a < |alternatives|
        ensures alternatives[a].nextStop < |stops|
      {
        assert HasAlternative(stops, k - 1, a);
        assert Next(stops, k - 1, a) < |stops|;
      }
      OutByTarget(alternatives, |stops|);
      PrefixLinear(now, before, 1.0, added, |stops|);
    }
  }

  lemma {:induction false} PrefixesOrdered(p: seq<real>, q: seq<real>, from: nat, to: nat)
    requires from <= to <= |p| && to <= |q|
    requires forall i :: from <= i < to ==> p[i] <= q[i]
    ensures Prefix(p, to) - Prefix(p, from) <= Prefix(q, to) - Prefix(q, from)
  {
    if from < to {
      PrefixesOrdered(p, q, from, to - 1);
    }
  }

  /** In a graph whose ledger holds, at most the mass of the departure stop reaches the destination. */
  lemma DestinationAtMostStart(state: State)
    requires state.Valid() && Ledger(state)
    ensures 0.0 <= DestinationMass(state) <= Out(state.stops[INDEX_DEPARTURE_STOP].alternatives)
  {
    var stops := state.stops;
    var n := |stops|;
    forall i, a | HasAlternative(stops, i, a)
      ensures Next(stops, i, a) < n && Next(stops, i, a) != 0
    {
    }
    FlowBalances(stops, n);
    var inflows, outs := InflowsFrom(stops, n), Outs(stops);
    forall t | 2 <= t < n
      ensures outs[t] <= inflows[t]
    {
      assert state.uncovered[t].Valid();
      ValidQueries(state.uncovered[t], 0, 0);
      assert inflows[t] == Inflow(stops, t);
      assert stops[t].index == t;
    }
    PrefixesOrdered(outs, inflows, 2, n);
    NothingReturns(stops);
    assert inflows[0] == 0.0 && inflows[1] == DestinationMass(state);
    assert Prefix(inflows, 2) == Prefix(inflows, 1) + inflows[1] && Prefix(inflows, 1) == Prefix(inflows, 0) + inflows[0];
    assert outs[1] == 0.0;
    assert Prefix(outs, 2) == Prefix(outs, 1) + outs[1] && Prefix(outs, 1) == Prefix(outs, 0) + outs[0];
    FlowsNonNegative(state, INDEX_ARRIVAL_STOP);
    PrefixMonotone(Flows(stops, INDEX_ARRIVAL_STOP), 0, n);
  }

  lemma NothingReturns(stops: seq<GraphStop>)
    requires forall i, a :: HasAlternative(stops, i, a) ==> Next(stops, i, a) != 0
    ensures Inflow(stops, 0) == 0.0
  {
    forall i | 0 <= i < |stops|
      ensures Flows(stops, 0)[i] == 0.0
    {
      forall a | 0 <= a < |stops[i].alternatives|
        ensures stops[i].alternatives[a].nextStop != 0
      {
        assert HasAlternative(stops, i, a);
        assert Next(stops, i, a) != 0;
      }
      FlowToNothing(stops[i].alternatives, 0);
    }
    PrefixZeros(Flows(stops, 0), 0, |stops|);
  }

  lemma FlowsNonNegative(state: State, t: nat)
    requires state.Valid()
    ensures NonNegative(Flows(state.stops, t)) && Inflow(state.stops, t) >= 0.0
  {
    forall i | 0 <= i < |state.stops|
      ensures Flows(state.stops, t)[i] >= 0.0
    {
      forall a | 0 <= a < |state.stops[i].alternatives|
        ensures state.stops[i].alternatives[a].arrival.Valid()
      {
        assert HasAlternative(state.stops, i, a);
      }
      OutNonNegative(state.stops[i].alternatives);
    }
    PrefixMonotone(Flows(state.stops, t), 0, |state.stops|);
  }
}
