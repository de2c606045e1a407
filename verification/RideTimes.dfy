/** When the events of a ride happen: every departure after the arrival before it, every arrival after its departure. */
module RideTimes {
  import opened Options
  import opened Distributions
  import opened Departure
  import opened FeederProperties
  import opened DepartureTimes
  import opened Interchange
  import opened InterchangeTimes
  import opened Arrival
  import opened ArrivalTimes
  import opened TravelTimes
  import opened PublicTransport

  // ----- Events of a ride

  /** What the train of event i brings: the source of the ride, or the arrival before, at its own schedule. */
  function SourceAt(source: TrainSource, legs: seq<Leg>, ride: seq<RatingElement>, i: nat): TrainSource
    requires i < |legs| == |ride|
  {
    if i == 0 then source else TrainSource.Arrival(legs[i].precedingKey, legs[i].precedingScheduledArrival, ride[i - 1].arrival)
  }

  lemma {:induction false} ContinueIs(first: RatingElement, legs: seq<Leg>, i: nat)
    requires first.Valid() && ValidLegs(legs) && i < |legs|
    ensures legs[i].Valid() && Continue(first, legs)[i].arrival.Valid()
    ensures Continue(first, legs)[i + 1] ==
            RideElement(legs[i], TrainSource.Arrival(legs[i].precedingKey, legs[i].precedingScheduledArrival, Continue(first, legs)[i].arrival))
    ensures legs[i + 1..] == [] || legs[i + 1..][0] in legs
  {
    hide RideElement, RatingElement.Valid, Leg.Valid;
    var n := |legs| - 1;
    var before := Continue(first, legs[..n]);
    ContinueStep(first, legs);
    if i < n {
      ContinueIs(first, legs[..n], i);
      assert legs[..n][i] == legs[i];
    } else {
      assert before[n].Valid();
      ElementArrives(before[n]);
    }
  }

  lemma ElementArrives(element: RatingElement)
    requires element.Valid()
    ensures element.arrival.Valid()
  {
  }

  /** Every event of a ride is computed from the one before it. */
  lemma EventOfRide(source: TrainSource, legs: seq<Leg>, i: nat)
    requires legs != [] && ValidLegs(legs) && source.Valid(legs[0].scheduledDeparture) && i < |legs|
    ensures var ride := Ride(source, legs);
            && legs[i].Valid() && SourceAt(source, legs, ride, i).Valid(legs[i].scheduledDeparture)
            && ride[i] == RideElement(legs[i], SourceAt(source, legs, ride, i))
  {
    hide RideElement, RatingElement.Valid;
    assert legs[0] in legs && legs[i] in legs;
    if i > 0 {
      ContinueIs(RideElement(legs[0], source), legs[1..], i - 1);
    }
  }

  lemma ElementIs(leg: Leg, source: TrainSource)
    requires leg.Valid() && source.Valid(leg.scheduledDeparture)
    ensures var r := RideElement(leg, source);
            && r.departure == DepartureDistribution(DepartureDataOf(leg.scheduledDeparture, leg.departureMessage, source, leg.predecessors))
            && r.departure.Valid() && r.departure.cumulative != [] && r.departure.firstMinute >= 0
            && r == ElementOf(leg, r.departure)
  {
    hide DepartureDataOf, DepartureDistribution, ElementOf, AllCutCleanly, TrainSource.Valid, Distribution.Valid;
    DepartureDataValid(leg.scheduledDeparture, leg.departureMessage, source, leg.predecessors);
    DepartureProperties.DepartureMass(PlainData(leg, source));
    ElementDeparture(leg, DepartureDistribution(PlainData(leg, source)));
  }

  lemma ElementDeparture(leg: Leg, departure: Distribution)
    requires leg.Valid() && departure.Valid() && departure.cumulative != [] && departure.firstMinute >= 0
    ensures ArrivalDataOf(leg, departure).Valid()
    ensures ElementOf(leg, departure) == RatingElement(departure, ArrivalDistribution(ArrivalDataOf(leg, departure)))
  {
    hide ArrivalDistribution, TravelFor, Ordered;
    LegArrivalMass(leg, departure);
  }

  // ----- Departures

  /** An unreported departure of a ride: with at most k minutes of delay if the train, as it has arrived, is ready, and
      nobody is awaited. */
  lemma RideDeparts(source: TrainSource, legs: seq<Leg>, i: nat, k: nat)
    requires legs != [] && ValidLegs(legs) && source.Valid(legs[0].scheduledDeparture) && i < |legs|
    requires legs[i].departureMessage.None?
    requires var data := DepartureDataOf(legs[i].scheduledDeparture, None, SourceAt(source, legs, Ride(source, legs), i), legs[i].predecessors);
             AllCutCleanly(data.feeders) && DropsOnlyZeros(Departure.Entries(data))
    ensures var ride, leg := Ride(source, legs), legs[i];
            var train := SourceAt(source, legs, ride, i);
            ride[i].departure.SmallerEqual(k) ==
            ReadyWithin(train, leg.scheduledDeparture, k) * NobodyAwaited(leg.predecessors, train.Key(), leg.scheduledDeparture, k)
  {
    hide *;
    var leg, train := legs[i], SourceAt(source, legs, Ride(source, legs), i);
    EventOfRide(source, legs, i);
    ElementIs(leg, train);
    LegPredecessors(leg);
    DepartureMeans(leg.scheduledDeparture, train, leg.predecessors, k);
  }

  lemma LegPredecessors(leg: Leg)
    requires leg.Valid()
    ensures forall p :: p in leg.predecessors ==> p.Valid()
    ensures leg.precedingScheduledArrival <= leg.scheduledDeparture <= leg.scheduledArrival && Ordered(leg.mappings)
  {
  }

  /** A reported departure of a ride happens when it is reported, but not early. */
  lemma RideDepartsAsReported(source: TrainSource, legs: seq<Leg>, i: nat, k: int)
    requires legs != [] && ValidLegs(legs) && source.Valid(legs[0].scheduledDeparture) && i < |legs|
    requires legs[i].departureMessage.Some?
    ensures var ride, leg := Ride(source, legs), legs[i];
            var mass := if i == 0 then SourceMass(source) else ride[i - 1].arrival.Mass();
            ride[i].departure.SmallerEqual(k) == if k >= 0 && k >= leg.departureMessage.value - leg.scheduledDeparture then mass else 0.0
  {
    hide *;
    var leg, train := legs[i], SourceAt(source, legs, Ride(source, legs), i);
    EventOfRide(source, legs, i);
    ElementIs(leg, train);
    ReportedDeparture(leg.scheduledDeparture, leg.departureMessage.value, train, leg.predecessors, k);
    MassAt(source, legs, Ride(source, legs), i);
    assert leg.departureMessage == Some(leg.departureMessage.value);
  }

  lemma MassAt(source: TrainSource, legs: seq<Leg>, ride: seq<RatingElement>, i: nat)
    requires i < |legs| == |ride|
    ensures SourceMass(SourceAt(source, legs, ride, i)) == if i == 0 then SourceMass(source) else ride[i - 1].arrival.Mass()
    ensures forall s :: SourceMass(s) == match s case Start(start) => start.Mass() case Arrival(_, _, arrival) => arrival.Mass()
  {
  }

  // ----- Arrivals

  lemma ArrivalDataIs(leg: Leg, departure: Distribution)
    requires leg.Valid()
    ensures ArrivalDataOf(leg, departure) ==
            ArrivalData(departure, leg.scheduledArrival,
                        TravelFor(leg.mappings, leg.scheduledArrival - leg.scheduledDeparture, departure.LastMinute()), leg.arrivalMessage)
  {
    hide TravelFor, Ordered;
  }

  /** Arriving with at most `late` minutes of delay after a departure: when it is reported; without travel times as late as
      the train has departed; and otherwise the departure convolved with the travel times for the scheduled time between the
      two events, one for each delay at which the train can have departed. */
  ghost predicate ArrivesAfter(leg: Leg, departure: Distribution, arrival: Distribution, late: int)
    requires leg.scheduledDeparture <= leg.scheduledArrival
  {
    var travel := TravelFor(leg.mappings, leg.scheduledArrival - leg.scheduledDeparture, departure.LastMinute());
    var data := ArrivalData(departure, leg.scheduledArrival, travel, leg.arrivalMessage);
    && data.Valid()
    && (leg.arrivalMessage.Some? ==>
          arrival.SmallerEqual(late) == if leg.scheduledArrival + late >= leg.arrivalMessage.value then departure.Mass() else 0.0)
    && (leg.arrivalMessage.None? && travel == [] ==> arrival.SmallerEqual(late) == departure.SmallerEqual(late))
    && (leg.arrivalMessage.None? && travel != [] && DropsOnlyZeros(Convolution(data)) ==>
          arrival.SmallerEqual(late) == ArrivedWithin(data, late, |departure.cumulative|))
  }

  /** Every arrival of a ride follows its departure. */
  lemma RideArrives(source: TrainSource, legs: seq<Leg>, i: nat, late: int)
    requires legs != [] && ValidLegs(legs) && source.Valid(legs[0].scheduledDeparture) && i < |legs|
    ensures legs[i].scheduledDeparture <= legs[i].scheduledArrival
    ensures ArrivesAfter(legs[i], Ride(source, legs)[i].departure, Ride(source, legs)[i].arrival, late)
  {
    hide *;
    var leg, train := legs[i], SourceAt(source, legs, Ride(source, legs), i);
    EventOfRide(source, legs, i);
    LegPredecessors(leg);
    ElementIs(leg, train);
    ElementArrivesAt(leg, Ride(source, legs)[i].departure, late);
  }

  lemma ElementArrivesAt(leg: Leg, departure: Distribution, late: int)
    requires leg.Valid() && departure.Valid() && departure.cumulative != [] && departure.firstMinute >= 0
    requires leg.scheduledDeparture <= leg.scheduledArrival
    ensures ArrivesAfter(leg, departure, ElementOf(leg, departure).arrival, late)
  {
    hide ArrivalDistribution, ArrivalDataOf, ArrivalData.Valid, Leg.Valid, ElementOf, Distribution.Valid, Distribution.SmallerEqual,
      DropsOnlyZeros, Convolution, ArrivedWithin, TravelFor, Arrivals;
    ElementDeparture(leg, departure);
    ArrivalDataIs(leg, departure);
    TravelsWithMassOne(leg, departure);
    var data := ArrivalDataOf(leg, departure);
    if leg.arrivalMessage.Some? {
      ReportedArrival(data, leg.arrivalMessage.value, late);
    } else if data.travel == [] {
      ArrivalWithoutTable(data, late);
    } else {
      ArrivalMinutes(data, late);
      ArrivalsAre(data, late);
    }
  }

  lemma ArrivalsAre(data: ArrivalData, late: int)
    requires data.Valid() && data.travel != []
    ensures Arrivals(data, late) == ArrivedWithin(data, late, |data.departure.cumulative|)
  {
  }

  lemma TravelsWithMassOne(leg: Leg, departure: Distribution)
    requires leg.Valid()
    ensures ArrivalDataOf(leg, departure).TravelMassesAreOne()
  {
    hide TravelFor;
    TravelForComplete(leg.mappings, leg.scheduledArrival - leg.scheduledDeparture, departure.LastMinute());
  }

  // ----- Further trains

  lemma ChangeIs(leg: Leg, source: TrainSource, change: Change, preceding: Distribution)
    requires leg.Valid() && source.Valid(leg.scheduledDeparture) && preceding.Valid()
    ensures var r := ChangeElement(leg, source, change, preceding);
            && r.departure == InterchangeDistribution(InterchangeDataOf(leg.scheduledDeparture, leg.departureMessage, source,
                                                                         leg.predecessors, change, preceding))
            && r.departure.Valid() && r.departure.cumulative != [] && r.departure.firstMinute >= 0
            && r == ElementOf(leg, r.departure)
  {
    hide InterchangeDataOf, InterchangeDistribution, ElementOf, TrainSource.Valid, Distribution.Valid;
    var data := InterchangeDataOf(leg.scheduledDeparture, leg.departureMessage, source, leg.predecessors, change, preceding);
    InterchangeDataValid(leg.scheduledDeparture, leg.departureMessage, source, leg.predecessors, change, preceding);
    InterchangeProperties.InterchangeMass(data);
    ElementDeparture(leg, InterchangeDistribution(data));
  }

  /** The first departure of a further train: with at most k minutes of delay if the passenger, from his arrival before it, has
      changed and the train goes, the train waiting for him as long as the change says. */
  lemma ChangeDeparts(leg: Leg, source: TrainSource, change: Change, preceding: Distribution, k: nat)
    requires leg.Valid() && source.Valid(leg.scheduledDeparture) && preceding.Valid() && leg.departureMessage.None?
    requires var data := InterchangeDataOf(leg.scheduledDeparture, None, source, leg.predecessors, change, preceding);
             AllCutCleanly(data.departure.feeders) && DropsOnlyZeros(Interchange.Entries(data))
    ensures ChangeElement(leg, source, change, preceding).departure.SmallerEqual(k) ==
            GoneWithin(leg.scheduledDeparture, source, leg.predecessors, change, preceding, k)
  {
    hide *;
    ChangeIs(leg, source, change, preceding);
    LegPredecessors(leg);
    InterchangeMeans(leg.scheduledDeparture, source, leg.predecessors, change, preceding, k);
  }

  lemma ChangeArrives(leg: Leg, source: TrainSource, change: Change, preceding: Distribution, late: int)
    requires leg.Valid() && source.Valid(leg.scheduledDeparture) && preceding.Valid()
    ensures leg.scheduledDeparture <= leg.scheduledArrival
    ensures var r := ChangeElement(leg, source, change, preceding); ArrivesAfter(leg, r.departure, r.arrival, late)
  {
    hide *;
    ChangeIs(leg, source, change, preceding);
    LegPredecessors(leg);
    ElementArrivesAt(leg, ChangeElement(leg, source, change, preceding).departure, late);
  }

  /** Event i of a train whose first event is at `start`: it changes from the arrival before it, or continues after it. */
  ghost predicate EventFollows(all: seq<RatingElement>, start: nat, train: Train, i: nat)
    requires 0 < start && start + i < |all| && i < |train.legs|
  {
    var leg, preceding := train.legs[i], all[start + i - 1].arrival;
    && leg.Valid() && preceding.Valid()
    && (i == 0 ==> train.source.Valid(leg.scheduledDeparture) && all[start] == ChangeElement(leg, train.source, train.change, preceding))
    && (i > 0 ==> all[start + i] == RideElement(leg, TrainSource.Arrival(leg.precedingKey, leg.precedingScheduledArrival, preceding)))
  }

  /** Every event of every further train of a connection. */
  lemma {:induction false} EventOfConnection(first: seq<RatingElement>, trains: seq<Train>, t: nat, i: nat)
    requires first != [] && Shrinking(first) && ValidTrains(trains) && t < |trains| && i < |trains[t].legs|
    ensures ValidTrains(trains[..t])
    ensures var before, all := RateTrains(first, trains[..t]), RateTrains(first, trains);
            0 < |before| && |before| + i < |all| && EventFollows(all, |before|, trains[t], i)
  {
    hide *;
    PrefixIsValid(trains, t);
    PrefixIsValid(trains, |trains| - 1);
    var n := |trains| - 1;
    RateLast(first, trains);
    var before := RateTrains(first, trains[..n]);
    ElementArrives(before[|before| - 1]);
    var added := TrainElements(before[|before| - 1].arrival, trains[n]);
    if t < n {
      assert trains[..n][t] == trains[t] && trains[..n][..t] == trains[..t];
      EventOfConnection(first, trains[..n], t, i);
      FollowsInPrefix(before, added, |RateTrains(first, trains[..t])|, trains[t], i);
    } else {
      ElementOfTrain(before, trains[n], i);
    }
  }

  lemma PrefixIsValid(trains: seq<Train>, t: nat)
    requires ValidTrains(trains) && t <= |trains|
    ensures ValidTrains(trains[..t])
  {
  }

  lemma FollowsInPrefix(before: seq<RatingElement>, added: seq<RatingElement>, start: nat, train: Train, i: nat)
    requires 0 < start && start + i < |before| && i < |train.legs| && EventFollows(before, start, train, i)
    ensures EventFollows(before + added, start, train, i)
  {
    hide RideElement, ChangeElement, Leg.Valid, Distribution.Valid, TrainSource.Valid;
  }

  lemma ElementOfTrain(before: seq<RatingElement>, train: Train, i: nat)
    requires before != [] && before[|before| - 1].Valid() && train.Valid() && i < |train.legs|
    ensures |TrainElements(before[|before| - 1].arrival, train)| == |train.legs|
    ensures EventFollows(before + TrainElements(before[|before| - 1].arrival, train), |before|, train, i)
  {
    hide RideElement, ChangeElement, Leg.Valid, Distribution.Valid, Shrinking;
    assert train.legs[0] in train.legs;
    if i > 0 {
      ContinueIs(ChangeElement(train.legs[0], train.source, train.change, before[|before| - 1].arrival), train.legs[1..], i - 1);
    }
  }

  // ----- A ride whose delays are certain

  /** What remains of an arrival delay when the train departs again. */
  function DelayLeft(leg: Leg, late: int): nat {
    var stay := leg.scheduledDeparture - leg.precedingScheduledArrival;
    var standing := if stay < 2 then stay else 2;
    if late + standing > stay then late + standing - stay else 0
  }

  function DelayAfter(start: nat, legs: seq<Leg>, i: nat): nat
    requires i < |legs|
  {
    if i == 0 then start else DelayLeft(legs[i], DelayAfter(start, legs, i - 1))
  }

  /** No feeders, no reports, and no travel times. */
  ghost predicate OnItsOwn(legs: seq<Leg>) {
    forall leg :: leg in legs ==> leg.predecessors == [] && leg.mappings == [] && leg.departureMessage.None? && leg.arrivalMessage.None?
  }

  lemma CertainStart(scheduled: int, late: nat)
    ensures DepartureDistribution(DepartureDataOf(scheduled, None, Start(OnePoint(late, 1.0)), [])) == OnePoint(late, 1.0)
  {
    var data := DepartureDataOf(scheduled, None, Start(OnePoint(late, 1.0)), []);
    NoFeedersNoWaiting(scheduled);
    hide NoWaiting;
    OneValue(Departure.Entries(data), 0, late);
  }

  lemma ArrivesAsDeparted(leg: Leg, departure: Distribution)
    requires leg.Valid() && leg.mappings == [] && leg.arrivalMessage.None?
    requires departure.Valid() && departure.cumulative != [] && departure.firstMinute >= 0
    ensures ElementOf(leg, departure).arrival == departure
  {
    ElementDeparture(leg, departure);
  }

  /** A train on its own that starts with a delay loses of it, at every stop, what exceeds two minutes of standing. */
  lemma {:induction false} CertainRide(start: nat, legs: seq<Leg>, i: nat)
    requires legs != [] && ValidLegs(legs) && OnItsOwn(legs) && i < |legs|
    ensures var source := Start(OnePoint(start, 1.0));
            && source.Valid(legs[0].scheduledDeparture)
            && Ride(source, legs)[i].departure == Ride(source, legs)[i].arrival == OnePoint(DelayAfter(start, legs, i), 1.0)
  {
    hide RideElement, DepartureDataOf, DepartureDistribution, ElementOf, Ride;
    var source, leg := Start(OnePoint(start, 1.0)), legs[i];
    assert leg in legs;
    if i > 0 {
      CertainRide(start, legs, i - 1);
      CertainDeparture(leg.scheduledDeparture, leg.precedingKey, leg.precedingScheduledArrival, DelayAfter(start, legs, i - 1));
    } else {
      CertainStart(leg.scheduledDeparture, start);
    }
    EventOfRide(source, legs, i);
    ElementIs(leg, SourceAt(source, legs, Ride(source, legs), i));
    ArrivesAsDeparted(leg, Ride(source, legs)[i].departure);
  }
}
