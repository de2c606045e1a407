/** Rating a connection: the first train as a ride, every further train after an interchange. */
module PublicTransport {
  import opened Options
  import opened Distributions
  import opened Departure
  import opened FeederProperties
  import opened DepartureProperties
  import opened Interchange
  import opened InterchangeProperties
  import opened Arrival
  import opened TravelTimes

  /** A departure and the following arrival of a train: what the schedule says about them, and the travel times of its class. */
  datatype Leg = Leg(
      scheduledDeparture: int, departureMessage: Option<int>, predecessors: seq<Predecessor>,
      precedingKey: int, precedingScheduledArrival: int,
      scheduledArrival: int, arrivalMessage: Option<int>, mappings: seq<Mapping>) {

    ghost predicate Valid() {
      && precedingScheduledArrival <= scheduledDeparture <= scheduledArrival
      && (forall p :: p in predecessors ==> p.Valid())
      && Ordered(mappings)
      && forall m :: m in mappings ==> m.distribution.Valid() && m.distribution.cumulative != [] && m.distribution.Mass() == 1.0
    }
  }

  datatype RatingElement = RatingElement(departure: Distribution, arrival: Distribution) {

    /** The arrival is a distribution; a departure that was computed has its mass and no negative delays. */
    ghost predicate Valid() {
      && arrival.Valid() && arrival.cumulative != []
      && (departure == EMPTY || (departure.Valid() && departure.firstMinute >= 0 && arrival.Mass() == departure.Mass()))
    }
  }

  function ArrivalDataOf(leg: Leg, departure: Distribution): ArrivalData
    requires leg.scheduledDeparture <= leg.scheduledArrival
  {
    var travel := TravelFor(leg.mappings, leg.scheduledArrival - leg.scheduledDeparture, departure.LastMinute());
    ArrivalData(departure, leg.scheduledArrival, travel, leg.arrivalMessage)
  }

  /** The arrival of a leg loses nothing. */
  lemma LegArrivalMass(leg: Leg, departure: Distribution)
    requires leg.Valid() && departure.Valid() && departure.cumulative != [] && departure.firstMinute >= 0
    ensures ArrivalDataOf(leg, departure).Valid()
    ensures var arrival := ArrivalDistribution(ArrivalDataOf(leg, departure));
            arrival.Valid() && arrival.cumulative != [] && arrival.Mass() == departure.Mass()
  {
    hide TravelFor, Ordered, ArrivalDistribution;
    TravelForComplete(leg.mappings, leg.scheduledArrival - leg.scheduledDeparture, departure.LastMinute());
    ArrivalMass(ArrivalDataOf(leg, departure));
  }

  function ElementOf(leg: Leg, departure: Distribution): RatingElement
    requires leg.Valid() && departure.Valid() && departure.cumulative != [] && departure.firstMinute >= 0
  {
    LegArrivalMass(leg, departure);
    RatingElement(departure, ArrivalDistribution(ArrivalDataOf(leg, departure)))
  }

  method ComputeArrival(leg: Leg, departure: Distribution) returns (element: RatingElement)
    requires leg.Valid() && departure.Valid() && departure.cumulative != [] && departure.firstMinute >= 0
    ensures element == ElementOf(leg, departure)
  {
    hide TravelFor, Ordered;
    LegArrivalMass(leg, departure);
    var travel := GetTravelTimeDistributions(leg.mappings, leg.scheduledArrival - leg.scheduledDeparture, departure.LastMinute());
    var data := new DataArrival(departure, leg.scheduledArrival, travel, leg.arrivalMessage);
    var arrival := new ProbabilityDistribution();
    ComputeArrivalDistribution(data, arrival);
    element := RatingElement(departure, arrival.Value());
  }

  // ----- One leg without and with an interchange

  function PlainData(leg: Leg, source: TrainSource): DepartureData {
    DepartureDataOf(leg.scheduledDeparture, leg.departureMessage, source, leg.predecessors)
  }

  /** A leg continued without an interchange: departure and arrival of the same train. */
  function RideElement(leg: Leg, source: TrainSource): (r: RatingElement)
    requires leg.Valid() && source.Valid(leg.scheduledDeparture)
    ensures r.Valid() && r.arrival.Mass() == r.departure.Mass() <= PlainData(leg, source).TrainDistribution().Mass()
    ensures AllCutCleanly(PlainData(leg, source).feeders) ==> r.departure.Mass() == PlainData(leg, source).TrainDistribution().Mass()
  {
    var data := PlainData(leg, source);
    DepartureDataValid(leg.scheduledDeparture, leg.departureMessage, source, leg.predecessors);
    DepartureMass(data);
    CleanDeparture(data);
    LegArrivalMass(leg, DepartureDistribution(data));
    ElementOf(leg, DepartureDistribution(data))
  }

  lemma CleanDeparture(data: DepartureData)
    requires data.Valid()
    ensures AllCutCleanly(data.feeders) ==> DepartureDistribution(data).Mass() == data.TrainDistribution().Mass()
  {
    if AllCutCleanly(data.feeders) {
      DepartureMass(data);
      if data.message.None? {
        DepartureExact(data, 0);
      }
    }
  }

  /** The first leg after an interchange. */
  function ChangeElement(leg: Leg, source: TrainSource, change: Change, preceding: Distribution): (r: RatingElement)
    requires leg.Valid() && source.Valid(leg.scheduledDeparture) && preceding.Valid()
    ensures r.Valid() && r.arrival.Mass() == r.departure.Mass()
    ensures SourceMass(source) <= 1.0 ==> r.departure.Mass() <= preceding.Mass()
  {
    var data := InterchangeDataOf(leg.scheduledDeparture, leg.departureMessage, source, leg.predecessors, change, preceding);
    InterchangeDataValid(leg.scheduledDeparture, leg.departureMessage, source, leg.predecessors, change, preceding);
    InterchangeMass(data);
    ChangeNeverGains(data);
    LegArrivalMass(leg, InterchangeDistribution(data));
    ElementOf(leg, InterchangeDistribution(data))
  }

  function SourceMass(source: TrainSource): real {
    match source
    case Start(start) => start.Mass()
    case Arrival(_, _, arrival) => arrival.Mass()
  }

  lemma ChangeNeverGains(data: InterchangeData)
    requires data.Valid()
    ensures data.departure.TrainDistribution().Mass() <= 1.0 ==> InterchangeDistribution(data).Mass() <= data.feeder.arrival.Mass()
  {
    if data.departure.TrainDistribution().Mass() <= 1.0 {
      InterchangeNeverGains(data);
    }
  }

  method ComputePlain(leg: Leg, source: TrainSource) returns (element: RatingElement)
    requires leg.Valid() && source.Valid(leg.scheduledDeparture)
    ensures element == RideElement(leg, source)
  {
    var data := new DataDeparture(leg.scheduledDeparture, leg.departureMessage, source, leg.predecessors);
    var departure := new ProbabilityDistribution();
    Departure.ComputeDepartureDistribution(data.Data(), departure);
    DepartureDataValid(leg.scheduledDeparture, leg.departureMessage, source, leg.predecessors);
    DepartureMass(PlainData(leg, source));
    element := ComputeArrival(leg, departure.Value());
  }

  method ComputeChange(leg: Leg, source: TrainSource, change: Change, preceding: Distribution) returns (element: RatingElement)
    requires leg.Valid() && source.Valid(leg.scheduledDeparture) && preceding.Valid()
    ensures element == ChangeElement(leg, source, change, preceding)
  {
    var data := new DataDepartureInterchange(leg.scheduledDeparture, leg.departureMessage, source, leg.predecessors, change, preceding);
    var departure := new ProbabilityDistribution();
    Interchange.ComputeDepartureDistribution(data.Data(), departure);
    InterchangeDataValid(leg.scheduledDeparture, leg.departureMessage, source, leg.predecessors, change, preceding);
    InterchangeMass(data.Data());
    element := ComputeArrival(leg, departure.Value());
  }

  // ----- A train over several legs

  /** The source of a leg whose train has arrived with the given distribution. */
  function After(leg: Leg, arrival: Distribution): TrainSource {
    Arrival(leg.precedingKey, leg.precedingScheduledArrival, arrival)
  }

  ghost predicate ValidLegs(legs: seq<Leg>) {
    forall leg :: leg in legs ==> leg.Valid()
  }

  /** Trimming the feeders of this leg's departure drops only zeros. */
  ghost predicate CleanLeg(leg: Leg) {
    AllCutCleanly(FeedersOf(leg.scheduledDeparture, leg.predecessors, Some(leg.precedingKey)))
  }

  /** All events are valid, and mass never grows from one to the next. */
  ghost predicate Shrinking(ratings: seq<RatingElement>) {
    && (forall i :: 0 <= i < |ratings| ==> ratings[i].Valid())
    && forall i, j :: 0 <= i <= j < |ratings| ==> ratings[j].arrival.Mass() <= ratings[i].arrival.Mass()
  }

  /** All events carry the same mass. */
  ghost predicate Steady(ratings: seq<RatingElement>, mass: real) {
    forall i :: 0 <= i < |ratings| ==> ratings[i].arrival.Mass() == mass
  }

  /** All elements of a train, continued from its first one. */
  function Continue(first: RatingElement, legs: seq<Leg>): (r: seq<RatingElement>)
    requires first.Valid() && ValidLegs(legs)
    ensures |r| == |legs| + 1 && r[0] == first && r[|legs|].Valid()
  {
    if legs == [] then [first]
    else
      var n := |legs| - 1;
      var before := Continue(first, legs[..n]);
      assert legs[n] in legs;
      before + [RideElement(legs[n], After(legs[n], before[n].arrival))]
  }

  /** Mass only shrinks along a train; it stays the same as long as the cuts are clean. */
  lemma {:induction false} ContinueShrinks(first: RatingElement, legs: seq<Leg>)
    requires first.Valid() && ValidLegs(legs)
    ensures Shrinking(Continue(first, legs))
    ensures (forall leg :: leg in legs ==> CleanLeg(leg)) ==> Steady(Continue(first, legs), first.arrival.Mass())
  {
    if legs != [] {
      var n := |legs| - 1;
      var before := Continue(first, legs[..n]);
      assert legs[n] in legs;
      ContinueShrinks(first, legs[..n]);
      var added := RideElement(legs[n], After(legs[n], before[n].arrival));
      assert added.arrival.Mass() <= before[n].arrival.Mass();
      assert CleanLeg(legs[n]) ==> added.arrival.Mass() == before[n].arrival.Mass();
      hide *;
      ShrinkingAppendOne(before, added);
      assert Continue(first, legs) == before + [added] by {
        ContinueStep(first, legs);
      }
    }
  }

  lemma ContinueStep(first: RatingElement, legs: seq<Leg>)
    requires first.Valid() && ValidLegs(legs) && legs != []
    ensures legs[|legs| - 1].Valid()
    ensures var n := |legs| - 1;
            var before := Continue(first, legs[..n]);
            Continue(first, legs) == before + [RideElement(legs[n], After(legs[n], before[n].arrival))]
  {
    assert legs[|legs| - 1] in legs;
  }

  lemma ShrinkingAppendOne(before: seq<RatingElement>, added: RatingElement)
    requires before != [] && Shrinking(before) && added.Valid()
    requires added.arrival.Mass() <= before[|before| - 1].arrival.Mass()
    ensures Shrinking(before + [added])
    ensures Steady(before, before[0].arrival.Mass()) && added.arrival.Mass() == before[|before| - 1].arrival.Mass() ==>
              Steady(before + [added], before[0].arrival.Mass())
  {
    ShrinkingAppend(before, [added]);
  }

  lemma ShrinkingAppend(before: seq<RatingElement>, added: seq<RatingElement>)
    requires before != [] && added != [] && Shrinking(before) && Shrinking(added)
    requires added[0].arrival.Mass() <= before[|before| - 1].arrival.Mass()
    ensures Shrinking(before + added)
  {
    var r := before + added;
    forall i, j | 0 <= i <= j < |r|
      ensures r[j].arrival.Mass() <= r[i].arrival.Mass()
    {
      if i < |before| <= j {
        assert before[|before| - 1].arrival.Mass() <= before[i].arrival.Mass();
        assert added[j - |before|].arrival.Mass() <= added[0].arrival.Mass();
      }
    }
  }

  function Ride(source: TrainSource, legs: seq<Leg>): (r: seq<RatingElement>)
    requires legs != [] && ValidLegs(legs) && source.Valid(legs[0].scheduledDeparture)
    ensures |r| == |legs|
  {
    assert legs[0] in legs;
    Continue(RideElement(legs[0], source), legs[1..])
  }

  /** Over a ride of any length, mass starts at no more than the source's mass and never grows; when every departure's
      cuts are clean, every event of the ride carries exactly the source's mass. */
  lemma RideMass(source: TrainSource, legs: seq<Leg>)
    requires legs != [] && ValidLegs(legs) && source.Valid(legs[0].scheduledDeparture)
    ensures Shrinking(Ride(source, legs))
    ensures Ride(source, legs)[0].arrival.Mass() <= SourceMass(source)
    ensures AllCutCleanly(PlainData(legs[0], source).feeders) && (forall leg :: leg in legs[1..] ==> CleanLeg(leg)) ==>
              Steady(Ride(source, legs), SourceMass(source))
  {
    assert legs[0] in legs;
    ContinueShrinks(RideElement(legs[0], source), legs[1..]);
  }

  method ContinueTrain(first: RatingElement, legs: seq<Leg>) returns (r: seq<RatingElement>)
    requires first.Valid() && ValidLegs(legs)
    ensures r == Continue(first, legs)
  {
    hide RideElement;
    r := [first];
    for i := 0 to |legs|
      invariant r == Continue(first, legs[..i])
    {
      assert legs[i] in legs;
      var element := ComputePlain(legs[i], After(legs[i], r[i].arrival));
      r := r + [element];
      assert legs[..i + 1][..i] == legs[..i];
    }
    assert legs[..|legs|] == legs;
  }

  /** The missing distributions of a train from its first route node on. */
  method ComputeDistributionsForARide(source: TrainSource, legs: seq<Leg>) returns (r: seq<RatingElement>)
    requires legs != [] && ValidLegs(legs) && source.Valid(legs[0].scheduledDeparture)
    ensures r == Ride(source, legs)
  {
    assert legs[0] in legs;
    var first := ComputePlain(legs[0], source);
    r := ContinueTrain(first, legs[1..]);
  }

  // ----- A connection over several trains

  /** A train entered after an interchange: its own readiness, the change into it, and its legs in the connection. */
  datatype Train = Train(source: TrainSource, change: Change, legs: seq<Leg>) {
    ghost predicate Valid() {
      legs != [] && ValidLegs(legs) && source.Valid(legs[0].scheduledDeparture) && SourceMass(source) <= 1.0
    }
  }

  function TrainElements(preceding: Distribution, train: Train): (r: seq<RatingElement>)
    requires train.Valid() && preceding.Valid()
    ensures |r| == |train.legs|
    ensures Shrinking(r) && r[0].arrival.Mass() <= preceding.Mass()
  {
    assert train.legs[0] in train.legs;
    ContinueShrinks(ChangeElement(train.legs[0], train.source, train.change, preceding), train.legs[1..]);
    Continue(ChangeElement(train.legs[0], train.source, train.change, preceding), train.legs[1..])
  }

  ghost predicate ValidTrains(trains: seq<Train>) {
    forall t :: t in trains ==> t.Valid()
  }

  /** The ratings of a connection, continued over all its further trains: what is rated already stays,
      and mass never grows from one event to the next. */
  function RateTrains(ratings: seq<RatingElement>, trains: seq<Train>): (r: seq<RatingElement>)
    requires ratings != [] && Shrinking(ratings) && ValidTrains(trains)
    ensures |ratings| + |trains| <= |r| && r[..|ratings|] == ratings
    ensures Shrinking(r)
  {
    if trains == [] then ratings
    else
      var n := |trains| - 1;
      var before := RateTrains(ratings, trains[..n]);
      assert trains[n] in trains;
      var added := TrainElements(before[|before| - 1].arrival, trains[n]);
      ShrinkingAppend(before, added);
      before + added
  }

  method DistributionsForTrainAfterInterchange(ratings: seq<RatingElement>, train: Train) returns (r: seq<RatingElement>)
    requires ratings != [] && ratings[|ratings| - 1].Valid() && train.Valid()
    ensures r == ratings + TrainElements(ratings[|ratings| - 1].arrival, train)
  {
    assert train.legs[0] in train.legs;
    var preceding := ratings[|ratings| - 1].arrival;
    var first := ComputeChange(train.legs[0], train.source, train.change, preceding);
    var elements := ContinueTrain(first, train.legs[1..]);
    r := ratings + elements;
  }

  method Rate(first: seq<RatingElement>, trains: seq<Train>) returns (ratings: seq<RatingElement>)
    requires first != [] && Shrinking(first) && ValidTrains(trains)
    ensures ratings == RateTrains(first, trains)
  {
    hide TrainElements, RateTrains, ValidTrains, Shrinking;
    ratings := first;
    NothingToRate(first);
    for i := 0 to |trains|
      invariant ValidTrains(trains[..i]) && ratings == RateTrains(first, trains[..i])
    {
      RateOneMore(first, trains, i);
      ratings := DistributionsForTrainAfterInterchange(ratings, trains[i]);
    }
    assert trains[..|trains|] == trains;
  }

  lemma NothingToRate(first: seq<RatingElement>)
    requires first != [] && Shrinking(first)
    ensures ValidTrains([]) && RateTrains(first, []) == first
  {
  }

  lemma RateOneMore(first: seq<RatingElement>, trains: seq<Train>, i: nat)
    requires first != [] && Shrinking(first) && ValidTrains(trains) && i < |trains|
    ensures ValidTrains(trains[..i]) && ValidTrains(trains[..i + 1]) && trains[i].Valid()
    ensures var before := RateTrains(first, trains[..i]);
            && before != [] && before[|before| - 1].Valid()
            && RateTrains(first, trains[..i + 1]) == before + TrainElements(before[|before| - 1].arrival, trains[i])
  {
    hide TrainElements, Train.Valid, RatingElement.Valid, RateTrains, Shrinking;
    assert trains[i] in trains;
    assert trains[..i + 1][..i] == trains[..i];
    LastIsValid(RateTrains(first, trains[..i]));
    RateLast(first, trains[..i + 1]);
  }

  lemma RateLast(first: seq<RatingElement>, trains: seq<Train>)
    requires first != [] && Shrinking(first) && ValidTrains(trains) && trains != []
    ensures var n := |trains| - 1;
            && ValidTrains(trains[..n]) && trains[n].Valid()
            && RateTrains(first, trains[..n]) != [] && RateTrains(first, trains[..n])[|RateTrains(first, trains[..n])| - 1].Valid()
            && RateTrains(first, trains) == RateTrains(first, trains[..n])
               + TrainElements(RateTrains(first, trains[..n])[|RateTrains(first, trains[..n])| - 1].arrival, trains[n])
  {
    hide TrainElements, Train.Valid, RatingElement.Valid, Shrinking;
    assert trains[|trains| - 1] in trains;
    LastIsValid(RateTrains(first, trains[..|trains| - 1]));
  }

  lemma LastIsValid(ratings: seq<RatingElement>)
    requires ratings != [] && Shrinking(ratings)
    ensures ratings[|ratings| - 1].Valid()
  {
  }

  /** The rating of a connection: the mass of its last arrival. */
  function ConnectionRating(ratings: seq<RatingElement>): real {
    if ratings == [] then 0.0 else ratings[|ratings| - 1].arrival.Mass()
  }

  /** It is the smallest mass of all arrivals: no event of the connection is less certain. */
  lemma RatingIsSmallest(ratings: seq<RatingElement>)
    requires ratings != [] && Shrinking(ratings)
    ensures forall i :: 0 <= i < |ratings| ==> ConnectionRating(ratings) <= ratings[i].arrival.Mass()
    ensures exists i :: 0 <= i < |ratings| && ConnectionRating(ratings) == ratings[i].arrival.Mass()
  {
    hide Distribution.Mass, RatingElement.Valid;
    var last := |ratings| - 1;
    assert ConnectionRating(ratings) == ratings[last].arrival.Mass();
  }

  lemma ShrinkingSlice(ratings: seq<RatingElement>, from: nat, to: nat)
    requires Shrinking(ratings) && from <= to <= |ratings|
    ensures Shrinking(ratings[from..to])
  {
  }

  /** Rating any further trains keeps the rating between zero and the mass of the first event. */
  lemma RatingBounds(first: seq<RatingElement>, trains: seq<Train>)
    requires first != [] && Shrinking(first) && ValidTrains(trains)
    ensures 0.0 <= ConnectionRating(RateTrains(first, trains)) <= first[0].arrival.Mass()
  {
    var ratings := RateTrains(first, trains);
    assert ratings[0] == ratings[..|first|][0] == first[0];
    hide RateTrains;
    var last := ratings[|ratings| - 1];
    ValidQueries(last.arrival, 0, 0);
  }

  /** A connection that starts with part of a ride and continues over any trains: its rating lies between zero
      and the mass of the start distribution. */
  lemma RatingIsProbability(source: TrainSource, legs: seq<Leg>, from: nat, to: nat, trains: seq<Train>)
    requires legs != [] && ValidLegs(legs) && source.Valid(legs[0].scheduledDeparture)
    requires from < to <= |legs| && ValidTrains(trains)
    ensures Shrinking(Ride(source, legs)[from..to])
    ensures 0.0 <= ConnectionRating(RateTrains(Ride(source, legs)[from..to], trains)) <= SourceMass(source)
  {
    hide *;
    RideFrom(source, legs, from);
    var ride := Ride(source, legs);
    ShrinkingSlice(ride, from, to);
    RatingBounds(ride[from..to], trains);
  }

  lemma RideFrom(source: TrainSource, legs: seq<Leg>, from: nat)
    requires legs != [] && ValidLegs(legs) && source.Valid(legs[0].scheduledDeparture) && from < |legs|
    ensures Shrinking(Ride(source, legs)) && Ride(source, legs)[from].arrival.Mass() <= SourceMass(source)
  {
    hide Ride, ValidLegs, SourceMass, AllCutCleanly;
    RideMass(source, legs);
    var ride := Ride(source, legs);
    assert ride[from].arrival.Mass() <= ride[0].arrival.Mass();
  }
}
