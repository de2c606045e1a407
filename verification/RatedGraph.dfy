/** What a rated connection graph holds: every alternative is computed from the arrival at its stop and from what the
    alternatives before it have left over. */
module RatedGraph {
  import opened Sums
  import opened Distributions
  import opened JourneySplit
  import opened ConnectionGraph
  import opened TransferFilter
  import opened PublicTransport
  import opened ConnectionGraphRating
  import opened ConnectionGraphRuns

  // ----- One stop

  /** What a sequence of journeys leaves of an arrival: a walk takes everything, a train what reaches it. */
  function LeftOver(arrival: Distribution, from: Journey, journeys: seq<Journey>, lookup: Lookup): (r: Distribution)
    requires arrival.Valid()
    ensures r.Valid()
  {
    if journeys == [] then arrival
    else
      var n := |journeys| - 1;
      var before := LeftOver(arrival, from, journeys[..n], lookup);
      FilterSplitsMass(before, lookup.alternative(from, journeys[n]).info);
      if WalkOnly(journeys[n]) then EMPTY else Uncovered(before, lookup.alternative(from, journeys[n]).info)
  }

  /** The rating of a journey that continues `from` after other journeys: a walk keeps the arrival; trains are rated with
      what is left over and reaches the first one. */
  ghost predicate RatedAs(x: Alternative, arrival: Distribution, from: Journey, earlier: seq<Journey>, journey: Journey, lookup: Lookup)
    requires arrival.Valid() && lookup.Valid()
  {
    if WalkOnly(journey) then x.departure == arrival && x.arrival == arrival
    else
      var data, left := lookup.alternative(from, journey), LeftOver(arrival, from, earlier, lookup);
      FilterSplitsMass(left, data.info);
      var ratings := RateTrains([RatingElement(EMPTY, Filtered(left, data.info))], data.trains);
      x.departure == ratings[1].departure && x.arrival == ratings[|ratings| - 1].arrival
  }

  /** The journeys of a stop's alternatives. */
  function JourneysAt(stops: seq<GraphStop>, journeys: seq<Journey>, t: nat): (r: seq<Journey>)
    requires WellBuilt(stops, |journeys|) && t < |stops|
    ensures |r| == |stops[t].alternatives|
  {
    seq(|stops[t].alternatives|, k requires 0 <= k < |stops[t].alternatives| =>
      assert HasAlternative(stops, t, k);
      journeys[stops[t].alternatives[k].journeyIndex])
  }

  /** The first n alternatives of a stop are rated, and what they leave over is stored. */
  ghost predicate StopRated(state: State, lookup: Lookup, t: nat, n: nat)
    requires state.Valid() && lookup.Valid() && 2 <= t < |state.stops| && n <= |state.stops[t].alternatives|
  {
    var arriving, journeys := ArrivingAt(state, t), JourneysAt(state.stops, state.journeys, t);
    var from := JourneyOf(state, arriving);
    && (forall k :: 0 <= k < n ==> RatedAs(state.stops[t].alternatives[k], arriving.arrival, from, journeys[..k], journeys[k], lookup))
    && (n > 0 ==> state.uncovered[t] == LeftOver(arriving.arrival, from, journeys[..n], lookup))
  }

  /** The first journey holds the first departure and the last arrival of its part of the ride and all further trains. */
  ghost predicate StartRated(state: State, lookup: Lookup)
    requires state.Valid() && lookup.Valid()
  {
    LastIsIndexed(state, INDEX_DEPARTURE_STOP);
    var x := state.Last(INDEX_DEPARTURE_STOP);
    var data := lookup.base(JourneyOf(state, x));
    RideMass(data.source, data.legs);
    ShrinkingSlice(Ride(data.source, data.legs), data.from, data.to);
    var ratings := RateTrains(Ride(data.source, data.legs)[data.from..data.to], data.trains);
    x.departure == ratings[0].departure && x.arrival == ratings[|ratings| - 1].arrival
  }

  /** All stops before `end` are rated, but for the last alternative of stop s. */
  ghost predicate RatedBut(state: State, lookup: Lookup, s: nat, end: nat)
    requires state.Valid() && lookup.Valid() && s < end <= |state.stops| && s != INDEX_ARRIVAL_STOP
  {
    && (s != INDEX_DEPARTURE_STOP ==> StartRated(state, lookup))
    && forall t :: 2 <= t < end ==> StopRatedBut(state, lookup, s, t)
  }

  ghost predicate StopRatedBut(state: State, lookup: Lookup, s: nat, t: nat)
    requires state.Valid() && lookup.Valid() && 2 <= t < |state.stops|
  {
    StopRated(state, lookup, t, if t == s then |state.stops[t].alternatives| - 1 else |state.stops[t].alternatives|)
  }

  ghost predicate Rated(state: State, lookup: Lookup, end: nat)
    requires state.Valid() && lookup.Valid() && end <= |state.stops|
  {
    StartRated(state, lookup) && forall t :: 2 <= t < end ==> StopRated(state, lookup, t, |state.stops[t].alternatives|)
  }

  // ----- Rating changes one stop only

  /** The arrival at a stop depends only on the one alternative that leads to it. */
  lemma SameArriving(state: State, r: State, t: nat)
    requires state.Valid() && r.Valid() && 2 <= t < |state.stops| <= |r.stops|
    requires forall i, a :: LeadsTo(state.stops, i, a, t) ==> LeadsTo(r.stops, i, a, t) && r.stops[i].alternatives[a] == state.stops[i].alternatives[a]
    ensures ArrivingAt(r, t) == ArrivingAt(state, t)
  {
    hide WellBuilt;
    ArrivingIsUnique(state.stops, |state.journeys|, t);
    ArrivingIsUnique(r.stops, |r.journeys|, t);
    var (i, a) := FindArriving(state.stops, t, 0).value;
    assert LeadsTo(state.stops, i, a, t);
    assert LeadsTo(r.stops, i, a, t);
  }

  /** A stop whose arrival, alternatives and left-over stay the same stays rated. */
  lemma StaysRated(state: State, r: State, lookup: Lookup, t: nat, n: nat)
    requires state.Valid() && r.Valid() && lookup.Valid() && 2 <= t < |state.stops| <= |r.stops|
    requires state.journeys <= r.journeys && n <= |state.stops[t].alternatives| <= |r.stops[t].alternatives|
    requires ArrivingAt(r, t) == ArrivingAt(state, t)
    requires forall k :: 0 <= k < n ==> r.stops[t].alternatives[k] == state.stops[t].alternatives[k]
    requires r.uncovered[t] == state.uncovered[t]
    requires StopRated(state, lookup, t, n)
    ensures StopRated(r, lookup, t, n)
  {
    hide WellBuilt, RatedAs, LeftOver, ArrivingAt, JourneysAt;
    var before, after := JourneysAt(state.stops, state.journeys, t), JourneysAt(r.stops, r.journeys, t);
    SameJourneys(state, r, t, n);
    forall k | 0 <= k < n
      ensures before[k] == after[k] && before[..k] == after[..k]
    {
      assert before[..n][k] == after[..n][k] && before[..n][..k] == before[..k] && after[..n][..k] == after[..k];
    }
  }

  lemma SameJourneys(state: State, r: State, t: nat, n: nat)
    requires state.Valid() && r.Valid() && t < |state.stops| <= |r.stops|
    requires state.journeys <= r.journeys && n <= |state.stops[t].alternatives| <= |r.stops[t].alternatives|
    requires forall k :: 0 <= k < n ==> r.stops[t].alternatives[k].journeyIndex == state.stops[t].alternatives[k].journeyIndex
    ensures JourneysAt(state.stops, state.journeys, t)[..n] == JourneysAt(r.stops, r.journeys, t)[..n]
  {
    forall k | 0 <= k < n
      ensures JourneysAt(state.stops, state.journeys, t)[k] == JourneysAt(r.stops, r.journeys, t)[k]
    {
      assert HasAlternative(state.stops, t, k);
    }
  }

  /** Only the last alternative of stop s has got another rating, and the stop another left-over. */
  ghost predicate ChangedAt(state: State, r: State, s: nat)
    requires state.Valid() && r.Valid()
  {
    && s < |state.stops| == |r.stops| && r.journeys == state.journeys
    && (forall t :: 0 <= t < |r.stops| && t != s ==> r.stops[t] == state.stops[t] && r.uncovered[t] == state.uncovered[t])
    && 0 < |r.stops[s].alternatives| == |state.stops[s].alternatives|
    && (forall k :: 0 <= k < |r.stops[s].alternatives| - 1 ==> r.stops[s].alternatives[k] == state.stops[s].alternatives[k])
    && r.Last(s).journeyIndex == state.Last(s).journeyIndex && r.Last(s).nextStop == state.Last(s).nextStop
  }

  lemma WithRatingIs(state: State, s: nat, rating: (Distribution, Distribution), uncovered: Distribution)
    requires state.Valid() && s < |state.stops| && s != INDEX_ARRIVAL_STOP
    requires rating.1.Valid() && uncovered.Valid()
    ensures var r := WithRating(state, s, rating, uncovered);
            && ChangedAt(state, r, s)
            && r.Last(s).departure == rating.0 && r.Last(s).arrival == rating.1 && r.uncovered[s] == uncovered
  {
    hide Distribution.Valid;
    LastIsIndexed(state, s);
  }

  lemma OtherArrivals(state: State, r: State, s: nat, t: nat)
    requires state.Valid() && r.Valid() && ChangedAt(state, r, s) && 2 <= t < |state.stops| && state.Last(s).nextStop != t
    ensures ArrivingAt(r, t) == ArrivingAt(state, t)
  {
    hide WellBuilt;
    forall i, a | LeadsTo(state.stops, i, a, t)
      ensures LeadsTo(r.stops, i, a, t) && r.stops[i].alternatives[a] == state.stops[i].alternatives[a]
    {
    }
    SameArriving(state, r, t);
  }

  lemma OthersStayRated(state: State, r: State, lookup: Lookup, s: nat, t: nat)
    requires state.Valid() && r.Valid() && lookup.Valid() && ChangedAt(state, r, s)
    requires 2 <= t < |state.stops| && t != s && state.Last(s).nextStop != t && StopRatedBut(state, lookup, s, t)
    ensures StopRated(r, lookup, t, |r.stops[t].alternatives|)
  {
    hide WellBuilt, StopRated, ArrivingAt;
    OtherArrivals(state, r, s, t);
    StaysRated(state, r, lookup, t, |r.stops[t].alternatives|);
  }

  lemma StartStaysRated(state: State, r: State, lookup: Lookup, s: nat)
    requires state.Valid() && r.Valid() && lookup.Valid() && ChangedAt(state, r, s)
    requires s != INDEX_DEPARTURE_STOP && StartRated(state, lookup)
    ensures StartRated(r, lookup)
  {
    hide WellBuilt, Ride, RateTrains, Shrinking;
    LastIsIndexed(state, INDEX_DEPARTURE_STOP);
    LastIsIndexed(r, INDEX_DEPARTURE_STOP);
  }

  // ----- One rating

  lemma RateStepAtStart(state: State, lookup: Lookup)
    requires state.Valid() && lookup.Valid()
    ensures var r := RateStep(state, lookup, INDEX_DEPARTURE_STOP);
            ChangedAt(state, r, INDEX_DEPARTURE_STOP) && StartRated(r, lookup)
  {
    hide WithRating, Ride, RateTrains, Shrinking;
    LastIsIndexed(state, INDEX_DEPARTURE_STOP);
    var journey := JourneyOf(state, state.Last(INDEX_DEPARTURE_STOP));
    WithRatingIs(state, INDEX_DEPARTURE_STOP, RateBase(lookup.base(journey)), state.uncovered[INDEX_DEPARTURE_STOP]);
  }

  /** The alternative inserted last at a stop is rated with what the ones before it have left over. */
  lemma RateStepAt(state: State, lookup: Lookup, s: nat)
    requires state.Valid() && lookup.Valid() && 2 <= s < |state.stops| && state.Last(s).nextStop != s
    requires StopRatedBut(state, lookup, s, s)
    ensures var r := RateStep(state, lookup, s);
            ChangedAt(state, r, s) && StopRated(r, lookup, s, |r.stops[s].alternatives|)
  {
    hide WellBuilt, WithRating, ArrivingAt, Filtered, Uncovered, RateAlternative, JourneysAt, ChangedAt;
    LastIsIndexed(state, s);
    var n := |state.stops[s].alternatives| - 1;
    var r, arriving, journeys := RateStep(state, lookup, s), ArrivingAt(state, s), JourneysAt(state.stops, state.journeys, s);
    var from, journey := JourneyOf(state, arriving), JourneyOf(state, state.Last(s));
    JourneyAt(state, s, n);
    if WalkOnly(journey) {
      WithRatingIs(state, s, (arriving.arrival, arriving.arrival), EMPTY);
    } else {
      var data, available := lookup.alternative(from, journey), Available(state, s);
      AvailableIsLeftOver(state, lookup, s);
      FilterSplitsMass(available, data.info);
      WithRatingIs(state, s, RateAlternative(data, Filtered(available, data.info)), Uncovered(available, data.info));
      AlternativeIs(data, Filtered(available, data.info));
    }
    LastRated(state, r, lookup, s);
  }

  lemma JourneyAt(state: State, s: nat, k: nat)
    requires state.Valid() && s < |state.stops| && k < |state.stops[s].alternatives|
    ensures state.stops[s].alternatives[k].journeyIndex < |state.journeys|
    ensures JourneysAt(state.stops, state.journeys, s)[k] == JourneyOf(state, state.stops[s].alternatives[k])
  {
    assert HasAlternative(state.stops, s, k);
  }

  lemma AvailableIsLeftOver(state: State, lookup: Lookup, s: nat)
    requires state.Valid() && lookup.Valid() && 2 <= s < |state.stops|
    requires StopRatedBut(state, lookup, s, s)
    ensures var arriving, journeys := ArrivingAt(state, s), JourneysAt(state.stops, state.journeys, s);
            |journeys| > 0 && Available(state, s) == LeftOver(arriving.arrival, JourneyOf(state, arriving), journeys[..|journeys| - 1], lookup)
  {
    hide WellBuilt, RatedAs, ArrivingAt, JourneysAt;
    LastIsIndexed(state, s);
  }

  lemma AlternativeIs(data: AlternativeData, filtered: Distribution)
    requires data.Valid() && filtered.Valid() && filtered.cumulative != []
    ensures var ratings := RateTrains([RatingElement(EMPTY, filtered)], data.trains);
            && |ratings| > 1
            && RateAlternative(data, filtered) == (ratings[1].departure, ratings[|ratings| - 1].arrival)
  {
  }

  /** With its last alternative rated and the left-over stored, the whole stop is rated. */
  lemma LastRated(state: State, r: State, lookup: Lookup, s: nat)
    requires state.Valid() && r.Valid() && lookup.Valid() && ChangedAt(state, r, s) && 2 <= s < |state.stops| && state.Last(s).nextStop != s
    requires StopRatedBut(state, lookup, s, s)
    requires var arriving, journeys := ArrivingAt(state, s), JourneysAt(state.stops, state.journeys, s);
             var n, from := |journeys| - 1, JourneyOf(state, arriving);
             && RatedAs(r.Last(s), arriving.arrival, from, journeys[..n], journeys[n], lookup)
             && r.uncovered[s] == LeftOver(arriving.arrival, from, journeys, lookup)
    ensures StopRated(r, lookup, s, |r.stops[s].alternatives|)
  {
    hide WellBuilt, RatedAs, LeftOver, ArrivingAt, JourneysAt;
    var before, after := JourneysAt(state.stops, state.journeys, s), JourneysAt(r.stops, r.journeys, s);
    var arriving, n := ArrivingAt(state, s), |before| - 1;
    OtherArrivals(state, r, s, s);
    JourneysKept(state, r, s);
    assert after[..n + 1] == after;
    forall k | 0 <= k <= n
      ensures RatedAs(r.stops[s].alternatives[k], arriving.arrival, JourneyOf(state, arriving), after[..k], after[k], lookup)
    {
      if k < n {
        assert r.stops[s].alternatives[k] == state.stops[s].alternatives[k];
      } else {
        assert r.stops[s].alternatives[k] == r.Last(s);
      }
    }
  }

  lemma JourneysKept(state: State, r: State, s: nat)
    requires state.Valid() && r.Valid() && ChangedAt(state, r, s)
    ensures JourneysAt(state.stops, state.journeys, s) == JourneysAt(r.stops, r.journeys, s)
  {
    hide WellBuilt, JourneysAt;
    var before, after := JourneysAt(state.stops, state.journeys, s), JourneysAt(r.stops, r.journeys, s);
    forall k | 0 <= k < |before|
      ensures r.stops[s].alternatives[k].journeyIndex == state.stops[s].alternatives[k].journeyIndex
    {
      assert k == |before| - 1 ==> r.stops[s].alternatives[k] == r.Last(s) && state.stops[s].alternatives[k] == state.Last(s);
    }
    SameJourneys(state, r, s, |before|);
    assert before[..|before|] == before && after[..|before|] == after;
  }

  // ----- An inserted journey

  /** The alternative inserted last at stop s leads on to stop `next`, and from there one by one over all later stops, each of
      them with one alternative only, to the destination. */
  ghost predicate Chain(state: State, s: nat, next: nat)
    requires state.Valid()
  {
    && s < next <= |state.stops| && s != INDEX_ARRIVAL_STOP && 2 <= next
    && LeadsOn(state, s, next)
    && forall t :: next <= t < |state.stops| ==> |state.stops[t].alternatives| == 1 && LeadsOn(state, t, t + 1)
  }

  ghost predicate LeadsOn(state: State, s: nat, next: nat)
    requires state.Valid() && s < |state.stops|
  {
    && state.stops[s].alternatives != []
    && state.Last(s).nextStop == if next == |state.stops| then INDEX_ARRIVAL_STOP else next
  }

  /** One rating: the stops before the next one in the chain are rated, and the chain goes on there. */
  lemma ChainStep(state: State, lookup: Lookup, s: nat, next: nat)
    requires state.Valid() && lookup.Valid() && Chain(state, s, next) && RatedBut(state, lookup, s, next)
    ensures var r := RateStep(state, lookup, s);
            && Rated(r, lookup, next)
            && (next < |r.stops| ==> Chain(r, next, next + 1) && |r.stops[next].alternatives| == 1)
  {
    hide RateStep, StopRated, StartRated;
    var r := RateStep(state, lookup, s);
    LastIsIndexed(state, s);
    if s == INDEX_DEPARTURE_STOP {
      RateStepAtStart(state, lookup);
    } else {
      assert StopRatedBut(state, lookup, s, s);
      RateStepAt(state, lookup, s);
      StartStaysRated(state, r, lookup, s);
    }
    forall t | 2 <= t < next
      ensures StopRated(r, lookup, t, |r.stops[t].alternatives|)
    {
      if t != s {
        assert StopRatedBut(state, lookup, s, t);
        OthersStayRated(state, r, lookup, s, t);
      }
    }
    ChainGoesOn(state, r, s, next);
  }

  lemma ChainGoesOn(state: State, r: State, s: nat, next: nat)
    requires state.Valid() && r.Valid() && Chain(state, s, next) && ChangedAt(state, r, s)
    ensures next < |r.stops| ==> Chain(r, next, next + 1) && |r.stops[next].alternatives| == 1
  {
    if next < |r.stops| {
      forall t | next <= t < |r.stops|
        ensures |r.stops[t].alternatives| == 1 && LeadsOn(r, t, t + 1)
      {
        assert LeadsOn(state, t, t + 1);
      }
    }
  }

  lemma NothingRatedYet(state: State, lookup: Lookup, next: nat)
    requires state.Valid() && lookup.Valid() && next < |state.stops| && Rated(state, lookup, next) && |state.stops[next].alternatives| == 1
    requires 2 <= next
    ensures RatedBut(state, lookup, next, next + 1)
  {
    hide WellBuilt, StartRated, RatedAs, LeftOver, ArrivingAt;
    assert StopRated(state, lookup, next, 0);
    forall t | 2 <= t < next + 1
      ensures StopRatedBut(state, lookup, next, t)
    {
    }
  }

  /** Rating an inserted journey rates everything from its stop on. */
  lemma {:induction false} InsertedIsRated(state: State, lookup: Lookup, s: nat, next: nat)
    requires state.Valid() && lookup.Valid() && Chain(state, s, next) && RatedBut(state, lookup, s, next)
    ensures var r := RateInserted(state, lookup, s); Rated(r, lookup, |r.stops|)
    decreases |state.stops| - s
  {
    hide WellBuilt, RateStep, Rated, RatedBut;
    LastIsIndexed(state, s);
    ChainStep(state, lookup, s, next);
    var r := RateStep(state, lookup, s);
    if next < |state.stops| {
      NothingRatedYet(r, lookup, next);
      InsertedIsRated(r, lookup, next, next + 1);
    }
  }

  // ----- Whole runs

  lemma BaseLeadsOn(base: Journey, t: nat)
    requires base.Valid() && t <= |Pieces(base)| && t != INDEX_ARRIVAL_STOP
    ensures |BaseState(base).stops| == |Pieces(base)| + 1
    ensures |BaseState(base).stops[t].alternatives| == 1 && LeadsOn(BaseState(base), t, if t == 0 then 2 else t + 1)
  {
    hide Pieces, WellBuilt;
    assert BaseState(base).stops[t] == BaseStop(t, |Pieces(base)|);
  }

  lemma BaseChain(base: Journey, lookup: Lookup)
    requires base.Valid() && lookup.Valid()
    ensures Chain(BaseState(base), 0, 2) && RatedBut(BaseState(base), lookup, 0, 2)
  {
    hide Pieces, WellBuilt, BaseState, LeadsOn;
    BaseLeadsOn(base, 0);
    forall t | 2 <= t < |BaseState(base).stops|
      ensures |BaseState(base).stops[t].alternatives| == 1 && LeadsOn(BaseState(base), t, t + 1)
    {
      BaseLeadsOn(base, t);
    }
  }

  lemma GrownLeadsOn(state: State, first: nat, j: Journey)
    requires state.Valid() && j.Valid() && 2 <= first < |state.stops|
    ensures LeadsOn(Grown(state, first, j), first, |state.stops|)
  {
    hide Pieces, WellBuilt;
    var r := Grown(state, first, j);
    assert r.Last(first) == Unrated(|state.journeys|, if |Pieces(j)| == 1 then INDEX_ARRIVAL_STOP else |state.stops|);
  }

  lemma AddedLeadsOn(state: State, first: nat, j: Journey, t: nat)
    requires state.Valid() && j.Valid() && 2 <= first < |state.stops| <= t < |Grown(state, first, j).stops|
    ensures |Grown(state, first, j).stops[t].alternatives| == 1 && LeadsOn(Grown(state, first, j), t, t + 1)
  {
    hide Pieces, WellBuilt, Grown;
    GrownAt(state, first, j, t - |state.stops|);
  }

  lemma GrownChain(state: State, first: nat, j: Journey)
    requires state.Valid() && j.Valid() && 2 <= first < |state.stops|
    ensures Chain(Grown(state, first, j), first, |state.stops|)
  {
    hide Pieces, WellBuilt, Grown, LeadsOn;
    GrownLeadsOn(state, first, j);
    forall t | |state.stops| <= t < |Grown(state, first, j).stops|
      ensures |Grown(state, first, j).stops[t].alternatives| == 1 && LeadsOn(Grown(state, first, j), t, t + 1)
    {
      AddedLeadsOn(state, first, j, t);
    }
  }

  lemma GrownIs(state: State, first: nat, j: Journey)
    requires state.Valid() && j.Valid() && 2 <= first < |state.stops|
    ensures var r := Grown(state, first, j);
            && |r.stops| >= |state.stops| && state.journeys <= r.journeys
            && (forall t :: 0 <= t < |state.stops| ==> r.uncovered[t] == state.uncovered[t])
            && (forall t :: 0 <= t < |state.stops| ==>
                  && |r.stops[t].alternatives| == |state.stops[t].alternatives| + (if t == first then 1 else 0)
                  && forall k :: 0 <= k < |state.stops[t].alternatives| ==> r.stops[t].alternatives[k] == state.stops[t].alternatives[k])
  {
    hide Pieces, WellBuilt;
  }

  lemma GrownIsRated(state: State, lookup: Lookup, first: nat, j: Journey)
    requires state.Valid() && lookup.Valid() && j.Valid() && 2 <= first < |state.stops| && Rated(state, lookup, |state.stops|)
    ensures RatedBut(Grown(state, first, j), lookup, first, |state.stops|)
  {
    hide WellBuilt, Grown, StopRated, ArrivingAt, Ride, RateTrains, Shrinking;
    var r := Grown(state, first, j);
    GrownIs(state, first, j);
    LastIsIndexed(state, INDEX_DEPARTURE_STOP);
    LastIsIndexed(r, INDEX_DEPARTURE_STOP);
    forall t | 2 <= t < |state.stops|
      ensures StopRatedBut(r, lookup, first, t)
    {
      forall i, a | LeadsTo(state.stops, i, a, t)
        ensures LeadsTo(r.stops, i, a, t) && r.stops[i].alternatives[a] == state.stops[i].alternatives[a]
      {
      }
      SameArriving(state, r, t);
      StaysRated(state, r, lookup, t, |state.stops[t].alternatives|);
    }
  }

  /** In every graph the search can build, every alternative of every stop is rated. */
  lemma {:induction false} RunIsRated(base: Journey, insertions: seq<Insertion>, lookup: Lookup)
    requires ValidRun(base, insertions) && lookup.Valid()
    ensures var r := Run(base, insertions, lookup); Rated(r, lookup, |r.stops|)
  {
    hide WellBuilt, Rated, RatedBut, Chain, Grown, BaseState, Pieces, RateInserted, Run;
    RunIs(base, insertions, lookup);
    if insertions == [] {
      BaseChain(base, lookup);
      InsertedIsRated(BaseState(base), lookup, 0, 2);
    } else {
      var n := |insertions| - 1;
      var before, x := Run(base, insertions[..n], lookup), insertions[n];
      RunIsRated(base, insertions[..n], lookup);
      GrownChain(before, x.stop, x.journey);
      GrownIsRated(before, lookup, x.stop, x.journey);
      InsertedIsRated(Grown(before, x.stop, x.journey), lookup, x.stop, |before.stops|);
    }
  }

  lemma RunIs(base: Journey, insertions: seq<Insertion>, lookup: Lookup)
    requires ValidRun(base, insertions) && lookup.Valid()
    ensures insertions == [] ==> Run(base, insertions, lookup) == RateInserted(BaseState(base), lookup, 0)
    ensures insertions != [] ==>
              var n := |insertions| - 1;
              && ValidRun(base, insertions[..n]) && insertions[n].journey.Valid()
              && var before := Run(base, insertions[..n], lookup);
              && 2 <= insertions[n].stop < |before.stops|
              && Run(base, insertions, lookup) == RateInserted(Grown(before, insertions[n].stop, insertions[n].journey), lookup, insertions[n].stop)
  {
    if insertions != [] {
      RunPrefix(base, insertions);
    }
  }

  /** In terms of the one alternative that leads to a stop: it hands its arrival to all alternatives there, in their order. */
  lemma EveryAlternativeIsRated(base: Journey, insertions: seq<Insertion>, lookup: Lookup, t: nat, i: nat, a: nat, k: nat)
    requires ValidRun(base, insertions) && lookup.Valid()
    requires var state := Run(base, insertions, lookup);
             2 <= t < |state.stops| && LeadsTo(state.stops, i, a, t) && k < |state.stops[t].alternatives|
    ensures var state := Run(base, insertions, lookup);
            var arriving, journeys := state.stops[i].alternatives[a], JourneysAt(state.stops, state.journeys, t);
            && arriving.journeyIndex < |state.journeys| && arriving.arrival.Valid()
            && RatedAs(state.stops[t].alternatives[k], arriving.arrival, state.journeys[arriving.journeyIndex], journeys[..k], journeys[k], lookup)
  {
    hide WellBuilt, RatedAs, JourneysAt, Run, ValidRun, StartRated;
    var state := Run(base, insertions, lookup);
    RunIsRated(base, insertions, lookup);
    ArrivingIs(state, t, i, a);
    assert StopRated(state, lookup, t, |state.stops[t].alternatives|);
  }

  lemma ArrivingIs(state: State, t: nat, i: nat, a: nat)
    requires state.Valid() && 2 <= t < |state.stops| && LeadsTo(state.stops, i, a, t)
    ensures ArrivingAt(state, t) == state.stops[i].alternatives[a]
  {
    hide WellBuilt;
    ArrivingIsUnique(state.stops, |state.journeys|, t);
  }

  // ----- Conservation at every stop of a graph

  /** How the trains at a stop are reached. */
  function Infos(from: Journey, journeys: seq<Journey>, lookup: Lookup): seq<InterchangeInfo> {
    seq(|journeys|, k requires 0 <= k < |journeys| => lookup.alternative(from, journeys[k]).info)
  }

  ghost predicate NoWalks(journeys: seq<Journey>) {
    forall j :: j in journeys ==> !WalkOnly(j)
  }

  lemma {:induction false} LeftOverIsRemaining(arrival: Distribution, from: Journey, journeys: seq<Journey>, lookup: Lookup)
    requires arrival.Valid() && NoWalks(journeys)
    ensures LeftOver(arrival, from, journeys, lookup) == Remaining(arrival, Infos(from, journeys, lookup))
  {
    hide WalkOnly, Uncovered;
    if journeys != [] {
      var n := |journeys| - 1;
      assert journeys[n] in journeys;
      LeftOverIsRemaining(arrival, from, journeys[..n], lookup);
      assert Infos(from, journeys, lookup)[..n] == Infos(from, journeys[..n], lookup);
    }
  }

  /** At every stop where only trains go on: what they are passed, one after the other, and what stays uncovered make up the
      arriving mass exactly. */
  lemma StopsConserve(base: Journey, insertions: seq<Insertion>, lookup: Lookup, t: nat, i: nat, a: nat)
    requires ValidRun(base, insertions) && lookup.Valid()
    requires var state := Run(base, insertions, lookup);
             && 2 <= t < |state.stops| && LeadsTo(state.stops, i, a, t)
             && NoWalks(JourneysAt(state.stops, state.journeys, t))
    ensures var state := Run(base, insertions, lookup);
            var arriving, journeys := state.stops[i].alternatives[a], JourneysAt(state.stops, state.journeys, t);
            && arriving.journeyIndex < |state.journeys|
            && var infos := Infos(state.journeys[arriving.journeyIndex], journeys, lookup);
            && |infos| == |state.stops[t].alternatives|
            && state.uncovered[t] == Remaining(arriving.arrival, infos)
            && Total(Passed(arriving.arrival, infos)) + state.uncovered[t].Mass() == arriving.arrival.Mass()
  {
    hide WellBuilt, RatedAs, JourneysAt, Run, ValidRun, StartRated, ArrivingAt, NoWalks, Passed, Remaining, LeftOver;
    var state := Run(base, insertions, lookup);
    var journeys := JourneysAt(state.stops, state.journeys, t);
    RunIsRated(base, insertions, lookup);
    ArrivingIs(state, t, i, a);
    LastIsIndexed(state, t);
    var arriving := ArrivingAt(state, t);
    var from := JourneyOf(state, arriving);
    assert StopRated(state, lookup, t, |journeys|);
    assert journeys[..|journeys|] == journeys;
    LeftOverIsRemaining(arriving.arrival, from, journeys, lookup);
    StopConservesMass(arriving.arrival, Infos(from, journeys, lookup));
  }
}
