/** The object that holds a connection graph while the search grows and rates it. */
module ConnectionGraphContext {
  import opened Distributions
  import opened EarlyWalks
  import opened JourneySplit
  import opened ConnectionGraph
  import opened TransferFilter
  import opened PublicTransport
  import opened ConnectionGraphRating
  import opened ConnectionGraphRuns

  class ConnGraphContext {
    const lookup: Lookup
    const cg: ConnectionGraph
    var uncovered: seq<Distribution>

    function Value(): State
      reads this, cg
    {
      State(cg.stops, cg.journeys, uncovered)
    }

    /** The graph of a base journey, rated. */
    constructor (base: Journey, schedule: Lookup)
      requires base.Valid() && schedule.Valid()
      ensures fresh(cg) && lookup == schedule
      ensures Fits(base.stops, base.transports) && Moved(base).Valid()
      ensures Value() == Run(Moved(base), [], schedule)
    {
      lookup := schedule;
      cg := new ConnectionGraph();
      uncovered := [];
      new;
      cg.AddBaseJourney(base);
      uncovered := seq(|cg.stops|, _ => EMPTY);
      assert Value() == BaseState(Moved(base));
      RateInsertedAlternative(INDEX_DEPARTURE_STOP);
    }

    /** One alternative more, rated. */
    method AddAlternative(stopIdx: nat, j: Journey)
      requires Value().Valid() && lookup.Valid() && j.Valid() && 2 <= stopIdx < |cg.stops|
      modifies this, cg
      ensures Fits(j.stops, j.transports) && Moved(j).Valid()
      ensures Value() == RateInserted(Grown(old(Value()), stopIdx, Moved(j)), lookup, stopIdx)
    {
      cg.AddAlternativeJourney(stopIdx, j);
      uncovered := uncovered + seq(|cg.stops| - |uncovered|, _ => EMPTY);
      assert Value() == Grown(old(Value()), stopIdx, Moved(j));
      RateInsertedAlternative(stopIdx);
    }

    method RateInsertedAlternative(stopIdx: nat)
      requires Value().Valid() && lookup.Valid() && stopIdx < |cg.stops| && stopIdx != INDEX_ARRIVAL_STOP
      modifies this, cg
      ensures Value() == RateInserted(old(Value()), lookup, stopIdx)
      decreases |cg.stops| - stopIdx
    {
      LastIsIndexed(Value(), stopIdx);
      var next := cg.stops[stopIdx].alternatives[|cg.stops[stopIdx].alternatives| - 1].nextStop;
      hide State.Valid, Lookup.Valid, RateStep;
      if stopIdx == INDEX_DEPARTURE_STOP {
        RateFirstJourneyInCg();
      } else {
        RateAlternativeInCg(stopIdx);
      }
      if next != INDEX_ARRIVAL_STOP {
        RateInsertedAlternative(next);
      }
    }

    method RateFirstJourneyInCg()
      requires Value().Valid() && lookup.Valid()
      modifies this, cg
      ensures Value() == RateStep(old(Value()), lookup, INDEX_DEPARTURE_STOP)
    {
      hide RateBase, SetLast;
      LastIsIndexed(Value(), INDEX_DEPARTURE_STOP);
      var journey := JourneyOf(Value(), Value().Last(INDEX_DEPARTURE_STOP));
      var rating := RateFirstJourney(lookup.base(journey));
      Store(INDEX_DEPARTURE_STOP, rating.0, rating.1);
      assert uncovered == uncovered[INDEX_DEPARTURE_STOP := uncovered[INDEX_DEPARTURE_STOP]];
    }

    /** Rating the first train, of which the journey uses a part, and all further ones. */
    static method RateFirstJourney(data: BaseData) returns (rating: (Distribution, Distribution))
      requires data.Valid()
      ensures rating == RateBase(data)
    {
      hide Ride, RateTrains, Shrinking;
      var ride := ComputeDistributionsForARide(data.source, data.legs);
      RideMass(data.source, data.legs);
      ShrinkingSlice(ride, data.from, data.to);
      var ratings := Rate(ride[data.from..data.to], data.trains);
      rating := (ratings[0].departure, ratings[|ratings| - 1].arrival);
    }

    method Store(stopIdx: nat, departure: Distribution, arrival: Distribution)
      requires stopIdx < |cg.stops| && cg.stops[stopIdx].alternatives != []
      modifies cg
      ensures cg.stops == SetLast(old(cg.stops), stopIdx, departure, arrival) && cg.journeys == old(cg.journeys)
    {
      var alternatives := cg.stops[stopIdx].alternatives;
      var n := |alternatives| - 1;
      cg.stops := cg.stops[stopIdx := cg.stops[stopIdx].(
        alternatives := alternatives[..n] + [alternatives[n].(departure := departure, arrival := arrival)])];
    }

    /** The first alternative, over all stops, that leads to a stop. */
    method FindArrivingConnectionElement(stopIdx: nat) returns (arriving: Alternative)
      requires Value().Valid() && 2 <= stopIdx < |cg.stops|
      ensures arriving == ArrivingAt(Value(), stopIdx)
    {
      ArrivingIsUnique(cg.stops, |cg.journeys|, stopIdx);
      for i := 0 to |cg.stops|
        invariant FindArriving(cg.stops, stopIdx, 0) == FindArriving(cg.stops, stopIdx, i)
      {
        var a := FindAlternative(cg.stops[i].alternatives, stopIdx, 0);
        if a < |cg.stops[i].alternatives| {
          return cg.stops[i].alternatives[a];
        }
      }
      assert false;
    }

    method RateAlternativeInCg(stopIdx: nat)
      requires Value().Valid() && lookup.Valid() && 2 <= stopIdx < |cg.stops|
      modifies this, cg
      ensures Value() == RateStep(old(Value()), lookup, stopIdx)
    {
      LastIsIndexed(Value(), stopIdx);
      var lastElement := FindArrivingConnectionElement(stopIdx);
      var journey := JourneyOf(Value(), Value().Last(stopIdx));
      if WalkOnly(journey) {
        Store(stopIdx, lastElement.arrival, lastElement.arrival);
        uncovered := uncovered[stopIdx := EMPTY];
        return;
      }
      var data := lookup.alternative(JourneyOf(Value(), lastElement), journey);
      RateTransportInCg(stopIdx, data, lastElement.arrival);
    }

    /** Rating the trains of an alternative that is entered with the filtered arrival. */
    static method RateTrainsOf(data: AlternativeData, filtered: Distribution) returns (rating: (Distribution, Distribution))
      requires data.Valid() && filtered.Valid() && filtered.cumulative != []
      ensures rating == RateAlternative(data, filtered)
    {
      var ratings := Rate([RatingElement(EMPTY, filtered)], data.trains);
      rating := (ratings[1].departure, ratings[|ratings| - 1].arrival);
    }

    method UpdateUncoveredArrivalDistribution(stopIdx: nat, first: bool, arriving: Distribution, info: InterchangeInfo)
      requires stopIdx < |uncovered|
      modifies this
      ensures uncovered == old(uncovered)[stopIdx := Uncovered(if first then arriving else old(uncovered)[stopIdx], info)]
    {
      if first {
        uncovered := uncovered[stopIdx := arriving];
      }
      var remaining := ComputeUncoveredArrivalDistribution(uncovered[stopIdx], info);
      uncovered := uncovered[stopIdx := remaining];
    }

    method RateTransportInCg(stopIdx: nat, data: AlternativeData, arriving: Distribution)
      requires Value().Valid() && data.Valid() && 2 <= stopIdx < |cg.stops|
      requires arriving == ArrivingAt(Value(), stopIdx).arrival
      modifies this, cg
      ensures Value() == RateTransport(old(Value()), data, stopIdx)
    {
      LastIsIndexed(Value(), stopIdx);
      var first := |cg.stops[stopIdx].alternatives| == 1;
      var available := if first then arriving else uncovered[stopIdx];
      FilterSplitsMass(available, data.info);
      hide WellBuilt, Filtered, Uncovered, RateAlternative, ArrivingAt, FindArriving;
      var filtered := ScheduledTransferFilter(available, data.info);
      var rating := RateTrainsOf(data, filtered);
      Store(stopIdx, rating.0, rating.1);
      UpdateUncoveredArrivalDistribution(stopIdx, first, arriving, data.info);
    }
  }
}
