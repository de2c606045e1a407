/** Every connection graph the search can build: a rated base journey, then any number of rated alternatives. */
module ConnectionGraphRuns {
  import opened Sums
  import opened Distributions
  import opened JourneySplit
  import opened ConnectionGraph
  import opened TransferFilter
  import opened PublicTransport
  import opened ConnectionGraphRating
  import opened ConnectionGraphMass

  // ----- Rating keeps the ledger

  lemma WithRatingKeepsLedger(state: State, s: nat, rating: (Distribution, Distribution), uncovered: Distribution)
    requires state.Valid() && Ledger(state) && s < |state.stops| && s != INDEX_ARRIVAL_STOP
    requires rating.1.Valid() && uncovered.Valid() && rating.1.Mass() >= 0.0
    requires state.Last(s).arrival.Mass() == 0.0
    requires s >= 2 ==> Out(state.stops[s].alternatives) + rating.1.Mass() + uncovered.Mass() <= Inflow(state.stops, s)
    ensures var r := WithRating(state, s, rating, uncovered);
            && Ledger(r)
            && DestinationMass(r) >= DestinationMass(state)
            && Out(r.stops[s].alternatives) == Out(state.stops[s].alternatives) + rating.1.Mass()
            && forall t :: 0 <= t < |r.stops| && t != s ==> r.stops[t] == state.stops[t]
  {
    hide WellBuilt, Out, Inflow;
    var r := WithRating(state, s, rating, uncovered);
    LastIsIndexed(state, s);
    SetLastOut(state.stops, s, rating.0, rating.1);
    SetLastFlow(state.stops, s, rating.0, rating.1, INDEX_ARRIVAL_STOP);
    forall t | 2 <= t < |r.stops|
      ensures Out(r.stops[t].alternatives) + r.uncovered[t].Mass() <= Inflow(r.stops, t)
    {
      var stop := state.stops[t];
      SetLastFlow(state.stops, s, rating.0, rating.1, t);
    }
  }

  lemma SingleOut(alternatives: seq<Alternative>)
    requires |alternatives| == 1
    ensures Out(alternatives) == alternatives[0].arrival.Mass()
  {
    assert alternatives[..0] == [];
  }

  /** A walk to the destination counts only as the first alternative of its stop. */
  ghost predicate WalkAllowed(state: State, s: nat)
    requires state.Valid() && s < |state.stops| && s != INDEX_ARRIVAL_STOP
  {
    LastIsIndexed(state, s);
    s >= 2 && WalkOnly(JourneyOf(state, state.Last(s))) ==> |state.stops[s].alternatives| == 1
  }

  lemma RateStepKeepsLedger(state: State, lookup: Lookup, s: nat)
    requires state.Valid() && lookup.Valid() && Ledger(state) && s < |state.stops| && s != INDEX_ARRIVAL_STOP
    requires state.Last(s).arrival.Mass() == 0.0 && WalkAllowed(state, s)
    ensures var r := RateStep(state, lookup, s);
            && Ledger(r)
            && DestinationMass(r) >= DestinationMass(state)
            && forall t :: 0 <= t < |r.stops| && t != s ==> r.stops[t] == state.stops[t]
  {
    LastIsIndexed(state, s);
    var journey := JourneyOf(state, state.Last(s));
    if s == INDEX_DEPARTURE_STOP {
      WithRatingKeepsLedger(state, s, RateBase(lookup.base(journey)), state.uncovered[s]);
    } else {
      var arriving := ArrivingAt(state, s);
      InflowIsArriving(state, s);
      assert state.stops[s].index == s;
      if WalkOnly(journey) {
        SingleOut(state.stops[s].alternatives);
        ValidQueries(arriving.arrival, 0, 0);
        WithRatingKeepsLedger(state, s, (arriving.arrival, arriving.arrival), EMPTY);
      } else {
        var data := lookup.alternative(JourneyOf(state, arriving), journey);
        var available := Available(state, s);
        FilterSplitsMass(available, data.info);
        if |state.stops[s].alternatives| == 1 {
          SingleOut(state.stops[s].alternatives);
        }
        WithRatingKeepsLedger(state, s, RateAlternative(data, Filtered(available, data.info)), Uncovered(available, data.info));
      }
    }
  }

  /** A walk inserted after other alternatives is handed the whole arriving distribution: the stop's ledger survives
      exactly when the earlier alternatives pass nothing on. */
  lemma LateWalkKeepsLedgerIff(state: State, lookup: Lookup, s: nat)
    requires state.Valid() && lookup.Valid() && 2 <= s < |state.stops|
    requires state.stops[s].alternatives != [] && state.Last(s).arrival.Mass() == 0.0
    requires state.Last(s).journeyIndex < |state.journeys| && WalkOnly(JourneyOf(state, state.Last(s)))
    ensures var r := RateStep(state, lookup, s);
            Out(r.stops[s].alternatives) + r.uncovered[s].Mass() <= Inflow(r.stops, s) <==> Out(state.stops[s].alternatives) <= 0.0
  {
    hide WellBuilt, Inflow, Out, ArrivingAt;
    var arriving := ArrivingAt(state, s);
    LastIsIndexed(state, s);
    InflowIsArriving(state, s);
    SetLastOut(state.stops, s, arriving.arrival, arriving.arrival);
    SetLastFlow(state.stops, s, arriving.arrival, arriving.arrival, s);
  }

  /** From stop s on, the chain of alternatives inserted last is not rated yet, and its later stops are new. */
  ghost predicate Pending(state: State, s: nat)
    requires state.Valid()
    decreases |state.stops| - s
  {
    && s < |state.stops| && s != INDEX_ARRIVAL_STOP
    && state.Last(s).arrival.Mass() == 0.0
    && (LastIsIndexed(state, s); var next := state.Last(s).nextStop;
        next != INDEX_ARRIVAL_STOP ==> |state.stops[next].alternatives| == 1 && Pending(state, next))
  }

  lemma {:induction false} PendingUnchanged(state: State, r: State, s: nat)
    requires state.Valid() && r.Valid() && |r.stops| == |state.stops| && Pending(state, s)
    requires forall t :: s <= t < |r.stops| ==> r.stops[t] == state.stops[t]
    ensures Pending(r, s)
    decreases |state.stops| - s
  {
    LastIsIndexed(state, s);
    var next := state.Last(s).nextStop;
    if next != INDEX_ARRIVAL_STOP {
      PendingUnchanged(state, r, next);
    }
  }

  /** Rating an inserted alternative keeps the ledger and never lowers the mass at the destination. */
  lemma {:induction false} RateInsertedKeepsLedger(state: State, lookup: Lookup, s: nat)
    requires state.Valid() && lookup.Valid() && Ledger(state)
    requires Pending(state, s) && WalkAllowed(state, s)
    ensures var r := RateInserted(state, lookup, s);
            && Ledger(r)
            && DestinationMass(r) >= DestinationMass(state)
            && forall t :: 0 <= t < s ==> r.stops[t] == state.stops[t]
    ensures RateInserted(state, lookup, s).stops[s] == RateStep(state, lookup, s).stops[s]
    decreases |state.stops| - s
  {
    hide WellBuilt, Inflow, RateStep, Ledger, WalkOnly;
    LastIsIndexed(state, s);
    var next := state.Last(s).nextStop;
    var step := RateStep(state, lookup, s);
    RateStepKeepsLedger(state, lookup, s);
    if next != INDEX_ARRIVAL_STOP {
      PendingUnchanged(state, state, next);
      assert forall t :: next <= t < |step.stops| ==> step.stops[t] == state.stops[t];
      PendingUnchanged(state, step, next);
      RateInsertedKeepsLedger(step, lookup, next);
    }
  }

  // ----- Growing the graph

  function Empties(n: nat): seq<Distribution> {
    seq(n, _ => EMPTY)
  }

  function BaseState(base: Journey): (r: State)
    requires base.Valid()
    ensures r.Valid()
  {
    BaseIsWellBuilt(|Pieces(base)|);
    State(BaseStops(|Pieces(base)|), Pieces(base), Empties(|Pieces(base)| + 1))
  }

  function Grown(state: State, first: nat, j: Journey): (r: State)
    requires state.Valid() && j.Valid() && 2 <= first < |state.stops|
    ensures r.Valid() && |r.stops| == |state.stops| + |Pieces(j)| - 1
  {
    var n := |Pieces(j)|;
    AlternativeIsWellBuilt(state.stops, |state.journeys|, first, n);
    var r := State(AlternativeStops(state.stops, |state.journeys|, first, n), state.journeys + Pieces(j), state.uncovered + Empties(n - 1));
    assert forall i, a :: HasAlternative(r.stops, i, a) ==>
        (HasAlternative(state.stops, i, a) && r.stops[i].alternatives[a] == state.stops[i].alternatives[a])
        || r.stops[i].alternatives[a].arrival == EMPTY;
    r
  }

  lemma {:induction false} UnratedFlows(alternatives: seq<Alternative>, added: Alternative, t: nat)
    requires added.arrival == EMPTY
    ensures FlowTo(alternatives + [added], t) == FlowTo(alternatives, t)
    ensures Out(alternatives + [added]) == Out(alternatives)
  {
    assert (alternatives + [added])[..|alternatives|] == alternatives;
  }

  lemma NewStopFlow(alternatives: seq<Alternative>, t: nat)
    requires |alternatives| == 1 && alternatives[0].arrival == EMPTY
    ensures FlowTo(alternatives, t) == 0.0 && Out(alternatives) == 0.0
  {
    assert alternatives == [] + [alternatives[0]];
    UnratedFlows([], alternatives[0], t);
  }

  lemma GrownInflow(state: State, first: nat, j: Journey, t: nat)
    requires state.Valid() && j.Valid() && 2 <= first < |state.stops|
    ensures Inflow(Grown(state, first, j).stops, t) == Inflow(state.stops, t)
  {
    var r := Grown(state, first, j);
    var before, after := Flows(state.stops, t), Flows(r.stops, t);
    forall i | 0 <= i < |r.stops|
      ensures after[i] == if i < |state.stops| then before[i] else 0.0
    {
      if i == first {
        assert r.stops[first].alternatives == state.stops[first].alternatives + [r.Last(first)];
        UnratedFlows(state.stops[first].alternatives, r.Last(first), t);
      } else if i >= |state.stops| {
        NewStopFlow(r.stops[i].alternatives, t);
      }
    }
    PrefixAgree(after, before, |before|);
    PrefixZeros(after, |before|, |after|);
  }

  lemma {:induction false} AddedPending(state: State, first: nat, j: Journey, k: nat)
    requires state.Valid() && j.Valid() && 2 <= first < |state.stops| && k + 1 < |Pieces(j)|
    ensures Pending(Grown(state, first, j), |state.stops| + k)
    decreases |Pieces(j)| - k
  {
    hide WellBuilt, Grown, Pieces;
    GrownAt(state, first, j, k);
    if k + 2 < |Pieces(j)| {
      AddedPending(state, first, j, k + 1);
      GrownAt(state, first, j, k + 1);
    }
  }

  lemma GrownAt(state: State, first: nat, j: Journey, k: nat)
    requires state.Valid() && j.Valid() && 2 <= first < |state.stops| && k + 1 < |Pieces(j)|
    ensures Grown(state, first, j).stops[|state.stops| + k] == AddedStop(|state.stops|, |state.journeys|, |Pieces(j)|, k)
  {
    hide WellBuilt, Pieces;
  }

  /** Adding an alternative changes no mass; the new alternatives wait to be rated. */
  lemma GrownKeepsLedger(state: State, first: nat, j: Journey)
    requires state.Valid() && Ledger(state) && j.Valid() && 2 <= first < |state.stops|
    ensures Ledger(Grown(state, first, j))
    ensures DestinationMass(Grown(state, first, j)) == DestinationMass(state)
  {
    GrownInflow(state, first, j, INDEX_ARRIVAL_STOP);
    GrownStops(state, first, j);
    var r := Grown(state, first, j);
    hide WellBuilt, Inflow, Out, AlternativeStops, Grown;
    forall t | 2 <= t < |r.stops|
      ensures Out(r.stops[t].alternatives) + r.uncovered[t].Mass() <= Inflow(r.stops, t)
    {
      GrownInflow(state, first, j, t);
      if t < |state.stops| {
        assert Out(state.stops[t].alternatives) + state.uncovered[t].Mass() <= Inflow(state.stops, t);
      } else {
        FlowsNonNegative(r, t);
      }
    }
  }

  lemma GrownPending(state: State, first: nat, j: Journey)
    requires state.Valid() && j.Valid() && 2 <= first < |state.stops|
    ensures Pending(Grown(state, first, j), first)
    ensures Grown(state, first, j).stops[0] == state.stops[0]
    ensures JourneyOf(Grown(state, first, j), Grown(state, first, j).Last(first)) == Pieces(j)[0]
  {
    var r := Grown(state, first, j);
    assert r.Last(first) == Unrated(|state.journeys|, if |Pieces(j)| == 1 then INDEX_ARRIVAL_STOP else |state.stops|);
    if |Pieces(j)| > 1 {
      AddedPending(state, first, j, 0);
    }
  }

  lemma GrownStops(state: State, first: nat, j: Journey)
    requires state.Valid() && j.Valid() && 2 <= first < |state.stops|
    ensures var r := Grown(state, first, j);
            && (forall t :: 0 <= t < |state.stops| ==> Out(r.stops[t].alternatives) == Out(state.stops[t].alternatives))
            && (forall t :: |state.stops| <= t < |r.stops| ==> Out(r.stops[t].alternatives) == 0.0)
            && (forall t :: 0 <= t < |r.stops| ==> r.uncovered[t].Mass() == if t < |state.stops| then state.uncovered[t].Mass() else 0.0)
  {
    var r := Grown(state, first, j);
    forall t | 0 <= t < |r.stops|
      ensures Out(r.stops[t].alternatives) == if t < |state.stops| then Out(state.stops[t].alternatives) else 0.0
    {
      if t == first {
        assert r.stops[first].alternatives == state.stops[first].alternatives + [r.Last(first)];
        UnratedFlows(state.stops[first].alternatives, r.Last(first), 0);
      } else if t >= |state.stops| {
        NewStopFlow(r.stops[t].alternatives, 0);
      }
    }
  }

  lemma {:induction false} BasePending(base: Journey, k: nat)
    requires base.Valid() && k <= |Pieces(base)| && k != INDEX_ARRIVAL_STOP
    ensures Pending(BaseState(base), k)
    decreases |Pieces(base)| - k
  {
    var n := |Pieces(base)|;
    assert BaseState(base).stops[k] == BaseStop(k, n);
    if k < n && n > 1 {
      var next := if k == 0 then 2 else k + 1;
      BasePending(base, next);
      assert BaseState(base).stops[next] == BaseStop(next, n);
    }
  }

  lemma BaseKeepsLedger(base: Journey)
    requires base.Valid()
    ensures Ledger(BaseState(base)) && Pending(BaseState(base), 0)
    ensures DestinationMass(BaseState(base)) == 0.0 && Out(BaseState(base).stops[0].alternatives) == 0.0
    ensures |BaseState(base).stops[0].alternatives| == 1
  {
    var r := BaseState(base);
    BasePending(base, 0);
    SingleOut(r.stops[0].alternatives);
    forall t: nat
      ensures Inflow(r.stops, t) == 0.0
    {
      forall i | 0 <= i < |r.stops|
        ensures Flows(r.stops, t)[i] == 0.0
      {
        if i != INDEX_ARRIVAL_STOP {
          assert r.stops[i] == BaseStop(i, |Pieces(base)|);
          NewStopFlow(r.stops[i].alternatives, t);
        }
      }
      PrefixZeros(Flows(r.stops, t), 0, |r.stops|);
    }
    forall t | 2 <= t < |r.stops|
      ensures Out(r.stops[t].alternatives) + r.uncovered[t].Mass() <= Inflow(r.stops, t)
    {
      SingleOut(r.stops[t].alternatives);
    }
  }

  // ----- Runs of the search

  datatype Insertion = Insertion(stop: nat, journey: Journey)

  /** The number of stops after a run: a journey in n pieces brings n - 1 new ones. */
  function StopCount(base: Journey, insertions: seq<Insertion>): int
    requires base.Valid() && forall x :: x in insertions ==> x.journey.Valid()
  {
    if insertions == [] then |Pieces(base)| + 1
    else
      var n := |insertions| - 1;
      assert insertions[n] in insertions;
      StopCount(base, insertions[..n]) + |Pieces(insertions[n].journey)| - 1
  }

  /** Alternatives are inserted at intermediate stops and do not start with a walk to the destination. */
  ghost predicate ValidRun(base: Journey, insertions: seq<Insertion>) {
    && base.Valid() && (forall x :: x in insertions ==> x.journey.Valid())
    && forall k :: 0 <= k < |insertions| ==>
         2 <= insertions[k].stop < StopCount(base, insertions[..k]) && !WalkOnly(Pieces(insertions[k].journey)[0])
  }

  lemma RunPrefix(base: Journey, insertions: seq<Insertion>)
    requires ValidRun(base, insertions) && insertions != []
    ensures ValidRun(base, insertions[..|insertions| - 1])
    ensures insertions[|insertions| - 1].journey.Valid()
  {
    hide StopCount, WalkOnly, Pieces;
    var n := |insertions| - 1;
    assert insertions[n] in insertions;
    forall k | 0 <= k < n
      ensures 2 <= insertions[k].stop < StopCount(base, insertions[..n][..k])
    {
      assert insertions[..n][..k] == insertions[..k];
    }
  }

  /** The graph after a run, fully rated. */
  function Run(base: Journey, insertions: seq<Insertion>, lookup: Lookup): (r: State)
    requires ValidRun(base, insertions) && lookup.Valid()
    ensures r.Valid() && |r.stops| == StopCount(base, insertions)
  {
    if insertions == [] then RateInserted(BaseState(base), lookup, INDEX_DEPARTURE_STOP)
    else
      RunPrefix(base, insertions);
      var n := |insertions| - 1;
      var before := Run(base, insertions[..n], lookup);
      assert 2 <= insertions[n].stop < StopCount(base, insertions[..n]);
      RateInserted(Grown(before, insertions[n].stop, insertions[n].journey), lookup, insertions[n].stop)
  }

  /** The mass of the base journey's first piece: what the whole graph has to distribute. */
  function StartMass(base: Journey, lookup: Lookup): real
    requires base.Valid() && lookup.Valid()
  {
    RateBase(lookup.base(Pieces(base)[0])).1.Mass()
  }

  lemma BaseStepMass(base: Journey, lookup: Lookup)
    requires base.Valid() && lookup.Valid()
    ensures Out(RateStep(BaseState(base), lookup, 0).stops[0].alternatives) == StartMass(base, lookup)
  {
    var state := BaseState(base);
    BaseKeepsLedger(base);
    FirstJourney(base);
    hide RateBase, Inflow, Out, BaseState, Pending, WithRating, Ledger, WellBuilt, Pieces, Journey.Valid, ArrivingAt;
    assert RateStep(state, lookup, 0) == WithRating(state, 0, RateBase(lookup.base(Pieces(base)[0])), state.uncovered[0]);
    WithRatingKeepsLedger(state, 0, RateBase(lookup.base(Pieces(base)[0])), state.uncovered[0]);
  }

  lemma FirstJourney(base: Journey)
    requires base.Valid()
    ensures var state := BaseState(base);
            && state.stops[0].alternatives != [] && state.Last(0).journeyIndex < |state.journeys|
            && JourneyOf(state, state.Last(0)) == Pieces(base)[0]
  {
    hide WellBuilt;
    LastIsIndexed(BaseState(base), 0);
  }

  lemma BaseRated(base: Journey, lookup: Lookup)
    requires base.Valid() && lookup.Valid()
    ensures var r := RateInserted(BaseState(base), lookup, 0);
            Ledger(r) && r.stops[0] == RateStep(BaseState(base), lookup, 0).stops[0]
  {
    hide *;
    BaseKeepsLedger(base);
    WalkAllowedAtStart(BaseState(base));
    RateInsertedKeepsLedger(BaseState(base), lookup, 0);
  }

  lemma WalkAllowedAtStart(state: State)
    requires state.Valid()
    ensures |state.stops| >= 2 && WalkAllowed(state, 0)
  {
  }

  lemma BaseRunMass(base: Journey, lookup: Lookup)
    requires base.Valid() && lookup.Valid()
    ensures ValidRun(base, []) && Ledger(Run(base, [], lookup))
    ensures Out(Run(base, [], lookup).stops[0].alternatives) == StartMass(base, lookup)
  {
    hide RateBase, Inflow, Out, BaseState, RateStep, RateInserted, Ledger, StartMass, WellBuilt, State.Valid, Journey.Valid, Lookup.Valid;
    BaseRated(base, lookup);
    BaseStepMass(base, lookup);
  }

  lemma InsertionMass(before: State, x: Insertion, lookup: Lookup)
    requires before.Valid() && Ledger(before) && lookup.Valid() && x.journey.Valid()
    requires 2 <= x.stop < |before.stops| && !WalkOnly(Pieces(x.journey)[0])
    ensures var r := RateInserted(Grown(before, x.stop, x.journey), lookup, x.stop);
            && Ledger(r) && DestinationMass(r) >= DestinationMass(before)
            && r.stops[0] == before.stops[0]
  {
    GrownKeepsLedger(before, x.stop, x.journey);
    GrownPending(before, x.stop, x.journey);
    hide Grown, Ledger, Pending, Inflow, RateInserted, WalkOnly, Pieces;
    RateInsertedKeepsLedger(Grown(before, x.stop, x.journey), lookup, x.stop);
  }

  /** For every connection graph: what reaches the destination never exceeds the start mass, which never exceeds the mass of
      the start distribution. */
  lemma {:induction false} RunMass(base: Journey, insertions: seq<Insertion>, lookup: Lookup)
    requires ValidRun(base, insertions) && lookup.Valid()
    ensures Ledger(Run(base, insertions, lookup))
    ensures Out(Run(base, insertions, lookup).stops[0].alternatives) == StartMass(base, lookup)
    ensures 0.0 <= DestinationMass(Run(base, insertions, lookup)) <= StartMass(base, lookup)
    ensures StartMass(base, lookup) <= SourceMass(lookup.base(Pieces(base)[0]).source)
  {
    if insertions == [] {
      BaseRunMass(base, lookup);
    } else {
      RunStep(base, insertions, lookup);
      hide *;
      var before := insertions[..|insertions| - 1];
      RunMass(base, before, lookup);
      InsertionMass(Run(base, before, lookup), insertions[|insertions| - 1], lookup);
    }
    hide Run, RateBase, Ledger, Inflow, Out;
    DestinationAtMostStart(Run(base, insertions, lookup));
  }

  lemma RunStep(base: Journey, insertions: seq<Insertion>, lookup: Lookup)
    requires ValidRun(base, insertions) && lookup.Valid() && insertions != []
    ensures var n := |insertions| - 1;
            && ValidRun(base, insertions[..n])
            && insertions[n].journey.Valid() && !WalkOnly(Pieces(insertions[n].journey)[0])
            && 2 <= insertions[n].stop < |Run(base, insertions[..n], lookup).stops|
            && Run(base, insertions, lookup) ==
               RateInserted(Grown(Run(base, insertions[..n], lookup), insertions[n].stop, insertions[n].journey), lookup, insertions[n].stop)
  {
    RunPrefix(base, insertions);
    var n := |insertions| - 1;
    assert 2 <= insertions[n].stop < StopCount(base, insertions[..n]);
    hide RateInserted, Grown, WalkOnly, Pieces, StopCount;
  }

  lemma StepNeverDrops(base: Journey, insertions: seq<Insertion>, lookup: Lookup)
    requires ValidRun(base, insertions) && lookup.Valid() && insertions != []
    ensures ValidRun(base, insertions[..|insertions| - 1])
    ensures DestinationMass(Run(base, insertions[..|insertions| - 1], lookup)) <= DestinationMass(Run(base, insertions, lookup))
  {
    RunStep(base, insertions, lookup);
    hide *;
    var before := insertions[..|insertions| - 1];
    RunMass(base, before, lookup);
    InsertionMass(Run(base, before, lookup), insertions[|insertions| - 1], lookup);
  }

  /** Inserting alternatives never lowers the mass at the destination. */
  lemma {:induction false} MassNeverDrops(base: Journey, insertions: seq<Insertion>, lookup: Lookup, k: nat)
    requires ValidRun(base, insertions) && lookup.Valid() && k <= |insertions|
    ensures ValidRun(base, insertions[..k])
    ensures DestinationMass(Run(base, insertions[..k], lookup)) <= DestinationMass(Run(base, insertions, lookup))
  {
    hide *;
    if k == |insertions| {
      assert insertions[..k] == insertions;
    } else {
      StepNeverDrops(base, insertions, lookup);
      var before := insertions[..|insertions| - 1];
      assert insertions[..k] == before[..k];
      MassNeverDrops(base, before, lookup, k);
    }
  }
}
