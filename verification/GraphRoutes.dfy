/** Which journeys a connection graph offers: the base journey and every inserted one, piece by piece, whatever else is
    inserted and however it is rated. */
module GraphRoutes {
  import opened Distributions
  import opened JourneySplit
  import opened JourneyChanges
  import opened ConnectionGraph
  import opened ConnectionGraphRating
  import opened ConnectionGraphRuns
  import opened RatedGraph

  /** The journeys met when going on from an alternative with the first alternative of every further stop. */
  function Route(stops: seq<GraphStop>, journeys: seq<Journey>, s: nat, a: nat): seq<Journey>
    requires WellBuilt(stops, |journeys|) && HasAlternative(stops, s, a)
    decreases |stops| - s
  {
    var next := Next(stops, s, a);
    [journeys[stops[s].alternatives[a].journeyIndex]] + if next == INDEX_ARRIVAL_STOP then [] else Route(stops, journeys, next, 0)
  }

  /** All alternatives of a graph are still there, with their journeys and next stops. */
  ghost predicate Extends(state: State, r: State)
    requires state.Valid() && r.Valid()
  {
    && state.journeys <= r.journeys
    && forall i, a :: HasAlternative(state.stops, i, a) ==> StillThere(state.stops, r.stops, i, a)
  }

  ghost predicate StillThere(before: seq<GraphStop>, after: seq<GraphStop>, i: int, a: int)
    requires HasAlternative(before, i, a)
  {
    && HasAlternative(after, i, a)
    && after[i].alternatives[a].journeyIndex == before[i].alternatives[a].journeyIndex
    && Next(after, i, a) == Next(before, i, a)
  }

  lemma {:induction false} RouteStays(state: State, r: State, s: nat, a: nat)
    requires state.Valid() && r.Valid() && Extends(state, r) && HasAlternative(state.stops, s, a)
    ensures HasAlternative(r.stops, s, a)
    ensures Route(r.stops, r.journeys, s, a) == Route(state.stops, state.journeys, s, a)
    decreases |state.stops| - s
  {
    assert StillThere(state.stops, r.stops, s, a);
    var next := Next(state.stops, s, a);
    if next != INDEX_ARRIVAL_STOP {
      FirstAlternative(state, next);
      RouteStays(state, r, next, 0);
    }
  }

  lemma FirstAlternative(state: State, s: nat)
    requires state.Valid() && s < |state.stops| && s != INDEX_ARRIVAL_STOP
    ensures HasAlternative(state.stops, s, 0)
  {
  }

  lemma RateStepExtends(state: State, lookup: Lookup, s: nat)
    requires state.Valid() && lookup.Valid() && s < |state.stops| && s != INDEX_ARRIVAL_STOP
    ensures Extends(state, RateStep(state, lookup, s))
  {
    hide WellBuilt;
    RateStepChanges(state, lookup, s);
  }

  lemma RateStepChanges(state: State, lookup: Lookup, s: nat)
    requires state.Valid() && lookup.Valid() && s < |state.stops| && s != INDEX_ARRIVAL_STOP
    ensures ChangedAt(state, RateStep(state, lookup, s), s)
  {
    hide WellBuilt, WithRating, RateBase, RateAlternative, ArrivingAt, ChangedAt;
    LastIsIndexed(state, s);
    var journey := JourneyOf(state, state.Last(s));
    if s == INDEX_DEPARTURE_STOP {
      WithRatingIs(state, s, RateBase(lookup.base(journey)), state.uncovered[s]);
    } else {
      var arriving := ArrivingAt(state, s);
      if WalkOnly(journey) {
        WithRatingIs(state, s, (arriving.arrival, arriving.arrival), EMPTY);
      } else {
        var data, available := lookup.alternative(JourneyOf(state, arriving), journey), Available(state, s);
        TransferFilter.FilterSplitsMass(available, data.info);
        WithRatingIs(state, s, RateAlternative(data, TransferFilter.Filtered(available, data.info)), TransferFilter.Uncovered(available, data.info));
      }
    }
  }

  lemma ExtendsTransitively(a: State, b: State, c: State)
    requires a.Valid() && b.Valid() && c.Valid() && Extends(a, b) && Extends(b, c)
    ensures Extends(a, c)
  {
    forall i, k | HasAlternative(a.stops, i, k)
      ensures StillThere(a.stops, c.stops, i, k)
    {
      assert StillThere(a.stops, b.stops, i, k);
      assert StillThere(b.stops, c.stops, i, k);
    }
  }

  lemma {:induction false} RateInsertedExtends(state: State, lookup: Lookup, s: nat)
    requires state.Valid() && lookup.Valid() && s < |state.stops| && s != INDEX_ARRIVAL_STOP
    ensures Extends(state, RateInserted(state, lookup, s))
    decreases |state.stops| - s
  {
    hide WellBuilt, RateStep, Extends;
    LastIsIndexed(state, s);
    var next, step := state.Last(s).nextStop, RateStep(state, lookup, s);
    RateStepExtends(state, lookup, s);
    if next != INDEX_ARRIVAL_STOP {
      RateInsertedExtends(step, lookup, next);
      ExtendsTransitively(state, step, RateInserted(step, lookup, next));
    }
  }

  lemma GrownExtends(state: State, first: nat, j: Journey)
    requires state.Valid() && j.Valid() && 2 <= first < |state.stops|
    ensures Extends(state, Grown(state, first, j))
  {
    hide WellBuilt, Pieces, Grown;
    GrownIs(state, first, j);
    var r := Grown(state, first, j);
    forall i, a | HasAlternative(state.stops, i, a)
      ensures StillThere(state.stops, r.stops, i, a)
    {
      assert r.stops[i].alternatives[a] == state.stops[i].alternatives[a];
    }
  }

  // ----- A new journey

  lemma {:induction false} BaseRoute(base: Journey, k: nat)
    requires base.Valid() && k < |Pieces(base)|
    ensures var s := if k == 0 then INDEX_DEPARTURE_STOP else k + 1;
            HasAlternative(BaseState(base).stops, s, 0) && Route(BaseState(base).stops, BaseState(base).journeys, s, 0) == Pieces(base)[k..]
    decreases |Pieces(base)| - k
  {
    hide Pieces, WellBuilt;
    var state, n := BaseState(base), |Pieces(base)|;
    var s := if k == 0 then INDEX_DEPARTURE_STOP else k + 1;
    assert state.stops[s] == BaseStop(s, n);
    if k + 1 < n {
      BaseRoute(base, k + 1);
      assert Pieces(base)[k..] == [Pieces(base)[k]] + Pieces(base)[k + 1..];
    }
  }

  lemma {:induction false} AddedRoute(state: State, first: nat, j: Journey, k: nat)
    requires state.Valid() && j.Valid() && 2 <= first < |state.stops| && k + 1 < |Pieces(j)|
    ensures var r, s := Grown(state, first, j), |state.stops| + k;
            HasAlternative(r.stops, s, 0) && Route(r.stops, r.journeys, s, 0) == Pieces(j)[k + 1..]
    decreases |Pieces(j)| - k
  {
    hide Pieces, WellBuilt, AlternativeStops;
    GrownAt(state, first, j, k);
    if k + 2 < |Pieces(j)| {
      AddedRoute(state, first, j, k + 1);
      assert Pieces(j)[k + 1..] == [Pieces(j)[k + 1]] + Pieces(j)[k + 2..];
    }
  }

  /** The alternative inserted at a stop, with all its pieces. */
  lemma GrownRoute(state: State, first: nat, j: Journey)
    requires state.Valid() && j.Valid() && 2 <= first < |state.stops|
    ensures var r, a := Grown(state, first, j), |state.stops[first].alternatives|;
            HasAlternative(r.stops, first, a) && Route(r.stops, r.journeys, first, a) == Pieces(j)
  {
    hide Pieces, WellBuilt;
    var r, a := Grown(state, first, j), |state.stops[first].alternatives|;
    assert r.stops[first].alternatives[a] == Unrated(|state.journeys|, if |Pieces(j)| == 1 then INDEX_ARRIVAL_STOP else |state.stops|);
    if |Pieces(j)| > 1 {
      AddedRoute(state, first, j, 0);
      assert Pieces(j) == [Pieces(j)[0]] + Pieces(j)[1..];
    }
  }

  // ----- Whole runs

  lemma {:induction false} RunExtends(base: Journey, insertions: seq<Insertion>, lookup: Lookup, m: nat)
    requires ValidRun(base, insertions) && lookup.Valid() && m <= |insertions|
    ensures ValidRun(base, insertions[..m])
    ensures Extends(Run(base, insertions[..m], lookup), Run(base, insertions, lookup))
  {
    hide WellBuilt, Grown, Pieces, RateInserted, Run, ValidRun, Extends;
    RunIs(base, insertions, lookup);
    if m == |insertions| {
      assert insertions[..m] == insertions;
      ExtendsItself(Run(base, insertions, lookup));
    } else {
      var n := |insertions| - 1;
      assert insertions[..n][..m] == insertions[..m];
      RunExtends(base, insertions[..n], lookup, m);
      var before, x := Run(base, insertions[..n], lookup), insertions[n];
      var grown := Grown(before, x.stop, x.journey);
      GrownExtends(before, x.stop, x.journey);
      RateInsertedExtends(grown, lookup, x.stop);
      ExtendsTransitively(before, grown, RateInserted(grown, lookup, x.stop));
      ExtendsTransitively(Run(base, insertions[..m], lookup), before, Run(base, insertions, lookup));
    }
  }

  lemma ExtendsItself(state: State)
    requires state.Valid()
    ensures Extends(state, state)
  {
  }

  /** In every graph the search can build, the base journey is still there, from the departure stop on. */
  lemma RunKeepsBase(base: Journey, insertions: seq<Insertion>, lookup: Lookup)
    requires ValidRun(base, insertions) && lookup.Valid()
    ensures var r := Run(base, insertions, lookup);
            HasAlternative(r.stops, 0, 0) && Route(r.stops, r.journeys, 0, 0) == Pieces(base)
  {
    hide WellBuilt, Grown, Pieces, RateInserted, Run, Extends, Route, BaseState, Journey.Valid;
    BaseIsValid(base, insertions);
    RunIs(base, [], lookup);
    BaseRoute(base, 0);
    RateInsertedExtends(BaseState(base), lookup, 0);
    RouteStays(BaseState(base), Run(base, [], lookup), 0, 0);
    RunExtends(base, insertions, lookup, 0);
    assert insertions[..0] == [];
    RouteStays(Run(base, [], lookup), Run(base, insertions, lookup), 0, 0);
    assert Pieces(base)[0..] == Pieces(base);
  }

  lemma BaseIsValid(base: Journey, insertions: seq<Insertion>)
    requires ValidRun(base, insertions)
    ensures base.Valid() && ValidRun(base, []) && |Pieces(base)| > 0 && 0 < |BaseState(base).stops|
  {
    hide Pieces;
  }

  /** And every inserted journey is offered at its stop, behind the alternatives that were there before it. */
  lemma RunKeepsInserted(base: Journey, insertions: seq<Insertion>, lookup: Lookup, m: nat)
    requires ValidRun(base, insertions) && lookup.Valid() && m < |insertions|
    ensures ValidRun(base, insertions[..m]) && insertions[m].journey.Valid()
    ensures var before, r, x := Run(base, insertions[..m], lookup), Run(base, insertions, lookup), insertions[m];
            && x.stop < |before.stops|
            && var a := |before.stops[x.stop].alternatives|;
            HasAlternative(r.stops, x.stop, a) && Route(r.stops, r.journeys, x.stop, a) == Pieces(x.journey)
  {
    hide WellBuilt, Grown, Pieces, RateInserted, Run, Extends, Route, ValidRun, Journey.Valid;
    RunExtends(base, insertions, lookup, m);
    RunExtends(base, insertions, lookup, m + 1);
    assert insertions[..m + 1][..m] == insertions[..m];
    RunIs(base, insertions[..m + 1], lookup);
    var before, next, x := Run(base, insertions[..m], lookup), Run(base, insertions[..m + 1], lookup), insertions[m];
    var grown := Grown(before, x.stop, x.journey);
    GrownRoute(before, x.stop, x.journey);
    RateInsertedExtends(grown, lookup, x.stop);
    RouteStays(grown, next, x.stop, |before.stops[x.stop].alternatives|);
    RouteStays(next, Run(base, insertions, lookup), x.stop, |before.stops[x.stop].alternatives|);
  }

  /** So gluing what the graph offers from the departure stop on restores the base journey, exactly if all its changes can
      be entered; the same holds for every inserted journey. */
  lemma BaseRestoredIff(base: Journey, insertions: seq<Insertion>, lookup: Lookup)
    requires ValidRun(base, insertions) && lookup.Valid() && Travelled(base)
    ensures var r := Run(base, insertions, lookup);
            && HasAlternative(r.stops, 0, 0)
            && var route := Route(r.stops, r.journeys, 0, 0);
            && route != [] && (forall p :: p in route ==> p.stops != [])
            && (Glue(route) == base.stops <==> ChangesEnter(base))
  {
    hide WellBuilt, Pieces, Glue, Run, Route, Travelled, ChangesEnter, Journey.Valid;
    RunKeepsBase(base, insertions, lookup);
    GlueRestoresIff(base);
  }

  lemma InsertedRestoredIff(base: Journey, insertions: seq<Insertion>, lookup: Lookup, m: nat)
    requires ValidRun(base, insertions) && lookup.Valid() && m < |insertions| && Travelled(insertions[m].journey)
    ensures ValidRun(base, insertions[..m])
    ensures var before, r, x := Run(base, insertions[..m], lookup), Run(base, insertions, lookup), insertions[m];
            && x.stop < |before.stops|
            && var a := |before.stops[x.stop].alternatives|;
            && HasAlternative(r.stops, x.stop, a)
            && var route := Route(r.stops, r.journeys, x.stop, a);
            && route != [] && (forall p :: p in route ==> p.stops != [])
            && (Glue(route) == x.journey.stops <==> ChangesEnter(x.journey))
  {
    hide WellBuilt, Pieces, Glue, Run, Route, Travelled, ChangesEnter, Journey.Valid, ValidRun;
    RunKeepsInserted(base, insertions, lookup, m);
    GlueRestoresIff(insertions[m].journey);
  }
}
