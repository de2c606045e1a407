/** Rating the alternatives of a connection graph: every alternative consumes part of the mass that arrives at its stop. */
module ConnectionGraphRating {
  import opened Options
  import opened Distributions
  import opened JourneySplit
  import opened ConnectionGraph
  import opened TransferFilter
  import opened Departure
  import opened PublicTransport

  /** What the schedule says about the first journey of a graph: part of a ride, then further trains. */
  datatype BaseData = BaseData(source: TrainSource, legs: seq<Leg>, from: nat, to: nat, trains: seq<Train>) {
    ghost predicate Valid() {
      && legs != [] && ValidLegs(legs) && source.Valid(legs[0].scheduledDeparture)
      && from < to <= |legs| && ValidTrains(trains)
    }
  }

  /** What the schedule says about a journey that continues another one. */
  datatype AlternativeData = AlternativeData(info: InterchangeInfo, trains: seq<Train>) {
    ghost predicate Valid() {
      trains != [] && ValidTrains(trains)
    }
  }

  /** The schedule, as far as rating needs it. */
  datatype Lookup = Lookup(base: Journey -> BaseData, alternative: (Journey, Journey) -> AlternativeData) {
    ghost predicate Valid() {
      && (forall j :: base(j).Valid())
      && forall a, b :: alternative(a, b).Valid()
    }
  }

  predicate WalkOnly(j: Journey) {
    forall k :: 0 <= k < |j.transports| ==> j.transports[k].info.isWalk
  }

  /** The graph and the states of its stops. */
  datatype State = State(stops: seq<GraphStop>, journeys: seq<Journey>, uncovered: seq<Distribution>) {

    ghost predicate Valid() {
      && WellBuilt(stops, |journeys|)
      && |uncovered| == |stops|
      && (forall i, a :: HasAlternative(stops, i, a) ==> stops[i].alternatives[a].arrival.Valid())
      && forall i :: 0 <= i < |uncovered| ==> uncovered[i].Valid()
    }

    /** The alternative inserted last at a stop. */
    function Last(s: nat): Alternative
      requires s < |stops| && stops[s].alternatives != []
    {
      stops[s].alternatives[|stops[s].alternatives| - 1]
    }
  }

  // ----- Finding the arriving journey

  function FindAlternative(alternatives: seq<Alternative>, s: nat, a: nat): (r: nat)
    requires a <= |alternatives|
    ensures a <= r <= |alternatives|
    ensures r < |alternatives| ==> alternatives[r].nextStop == s
    ensures forall k :: a <= k < r ==> alternatives[k].nextStop != s
    decreases |alternatives| - a
  {
    if a == |alternatives| || alternatives[a].nextStop == s then a else FindAlternative(alternatives, s, a + 1)
  }

  /** The first stop, and its first alternative, that leads to stop s. */
  function FindArriving(stops: seq<GraphStop>, s: nat, i: nat): (r: Option<(nat, nat)>)
    requires i <= |stops|
    ensures r.Some? ==> LeadsTo(stops, r.value.0, r.value.1, s)
    ensures r.None? ==> forall j, a :: i <= j && HasAlternative(stops, j, a) ==> Next(stops, j, a) != s
    decreases |stops| - i
  {
    if i == |stops| then None
    else
      var a := FindAlternative(stops[i].alternatives, s, 0);
      if a < |stops[i].alternatives| then Some((i, a)) else FindArriving(stops, s, i + 1)
  }

  /** In a well-built graph the lookup finds the one and only predecessor of an intermediate stop. */
  lemma ArrivingIsUnique(stops: seq<GraphStop>, journeys: nat, s: nat)
    requires WellBuilt(stops, journeys) && 2 <= s < |stops|
    ensures FindArriving(stops, s, 0).Some?
    ensures forall i, a :: LeadsTo(stops, i, a, s) <==> FindArriving(stops, s, 0) == Some((i, a))
  {
    assert IsTarget(stops, s);
    var i, a :| LeadsTo(stops, i, a, s);
  }

  function ArrivingAt(state: State, s: nat): (r: Alternative)
    requires state.Valid() && 2 <= s < |state.stops|
    ensures r.arrival.Valid() && r.journeyIndex < |state.journeys|
  {
    ArrivingIsUnique(state.stops, |state.journeys|, s);
    var (i, a) := FindArriving(state.stops, s, 0).value;
    assert LeadsTo(state.stops, i, a, s);
    state.stops[i].alternatives[a]
  }

  // ----- Rating one alternative

  /** The first and the last distribution of an alternative entered with the filtered arrival. */
  function RateAlternative(data: AlternativeData, filtered: Distribution): (r: (Distribution, Distribution))
    requires data.Valid() && filtered.Valid() && filtered.cumulative != []
    ensures r.1.Valid() && 0.0 <= r.1.Mass() <= filtered.Mass()
  {
    var arriving := [RatingElement(EMPTY, filtered)];
    var elements := RateTrains(arriving, data.trains);
    assert elements[0] == elements[..1][0] == arriving[0];
    var last := elements[|elements| - 1];
    assert last.Valid() && last.arrival.Mass() <= elements[0].arrival.Mass();
    ValidQueries(last.arrival, 0, 0);
    (elements[1].departure, last.arrival)
  }

  /** The first journey of the graph. */
  function RateBase(data: BaseData): (r: (Distribution, Distribution))
    requires data.Valid()
    ensures r.1.Valid() && 0.0 <= r.1.Mass() <= SourceMass(data.source)
  {
    RatingIsProbability(data.source, data.legs, data.from, data.to, data.trains);
    var elements := RateTrains(Ride(data.source, data.legs)[data.from..data.to], data.trains);
    assert elements[|elements| - 1].Valid();
    (elements[0].departure, elements[|elements| - 1].arrival)
  }

  function SetLast(stops: seq<GraphStop>, s: nat, departure: Distribution, arrival: Distribution): seq<GraphStop>
    requires s < |stops| && stops[s].alternatives != []
  {
    var alternatives := stops[s].alternatives;
    var n := |alternatives| - 1;
    stops[s := stops[s].(alternatives := alternatives[..n] + [alternatives[n].(departure := departure, arrival := arrival)])]
  }

  lemma SetLastKeepsShape(stops: seq<GraphStop>, journeys: nat, s: nat, departure: Distribution, arrival: Distribution)
    requires WellBuilt(stops, journeys) && s < |stops| && stops[s].alternatives != []
    ensures WellBuilt(SetLast(stops, s, departure, arrival), journeys)
  {
    var r := SetLast(stops, s, departure, arrival);
    assert forall i, a :: HasAlternative(r, i, a) <==> HasAlternative(stops, i, a);
    assert forall i, a :: HasAlternative(r, i, a) ==> Next(r, i, a) == Next(stops, i, a);
    forall t | 2 <= t < |r|
      ensures IsTarget(r, t)
    {
      assert IsTarget(stops, t);
      var i, a :| LeadsTo(stops, i, a, t);
      assert LeadsTo(r, i, a, t);
    }
  }

  /** The distribution an alternative at a stop can still use. */
  function Available(state: State, s: nat): (r: Distribution)
    requires state.Valid() && 2 <= s < |state.stops|
    ensures r.Valid()
  {
    if |state.stops[s].alternatives| == 1 then ArrivingAt(state, s).arrival else state.uncovered[s]
  }

  /** Storing a rating, and what it leaves uncovered at the stop. */
  function WithRating(state: State, s: nat, rating: (Distribution, Distribution), uncovered: Distribution): (r: State)
    requires state.Valid() && s < |state.stops| && s != INDEX_ARRIVAL_STOP
    requires rating.1.Valid() && uncovered.Valid()
    ensures r.Valid() && |r.stops| == |state.stops| && r.journeys == state.journeys
  {
    SetLastKeepsShape(state.stops, |state.journeys|, s, rating.0, rating.1);
    var r := state.(stops := SetLast(state.stops, s, rating.0, rating.1), uncovered := state.uncovered[s := uncovered]);
    assert forall i, a :: HasAlternative(r.stops, i, a) ==> HasAlternative(state.stops, i, a);
    r
  }

  function JourneyOf(state: State, alternative: Alternative): Journey
    requires alternative.journeyIndex < |state.journeys|
  {
    state.journeys[alternative.journeyIndex]
  }

  lemma LastIsIndexed(state: State, s: nat)
    requires state.Valid() && s < |state.stops| && s != INDEX_ARRIVAL_STOP
    ensures state.stops[s].alternatives != [] && state.Last(s).journeyIndex < |state.journeys|
    ensures state.Last(s).nextStop == INDEX_ARRIVAL_STOP || (2 <= state.Last(s).nextStop && s < state.Last(s).nextStop < |state.stops|)
  {
    assert HasAlternative(state.stops, s, |state.stops[s].alternatives| - 1);
    assert state.Last(s).nextStop == Next(state.stops, s, |state.stops[s].alternatives| - 1);
  }

  /** An alternative with public transport at an intermediate stop. */
  function RateTransport(state: State, data: AlternativeData, s: nat): (r: State)
    requires state.Valid() && data.Valid() && 2 <= s < |state.stops|
    ensures r.Valid() && |r.stops| == |state.stops| && r.journeys == state.journeys
  {
    var available := Available(state, s);
    FilterSplitsMass(available, data.info);
    WithRating(state, s, RateAlternative(data, Filtered(available, data.info)), Uncovered(available, data.info))
  }

  /** Rating the alternative inserted last at a stop, and updating what it leaves uncovered. */
  function RateStep(state: State, lookup: Lookup, s: nat): (r: State)
    requires state.Valid() && lookup.Valid() && s < |state.stops| && s != INDEX_ARRIVAL_STOP
    ensures r.Valid() && |r.stops| == |state.stops| && r.journeys == state.journeys
  {
    LastIsIndexed(state, s);
    var journey := JourneyOf(state, state.Last(s));
    if s == INDEX_DEPARTURE_STOP then
      WithRating(state, s, RateBase(lookup.base(journey)), state.uncovered[s])
    else
      var arriving := ArrivingAt(state, s);
      if WalkOnly(journey) then WithRating(state, s, (arriving.arrival, arriving.arrival), EMPTY)
      else RateTransport(state, lookup.alternative(JourneyOf(state, arriving), journey), s)
  }

  /** Rating an inserted alternative and then, stop by stop, the alternatives it continues with. */
  function RateInserted(state: State, lookup: Lookup, s: nat): (r: State)
    requires state.Valid() && lookup.Valid() && s < |state.stops| && s != INDEX_ARRIVAL_STOP
    ensures r.Valid() && |r.stops| == |state.stops| && r.journeys == state.journeys
    decreases |state.stops| - s
  {
    LastIsIndexed(state, s);
    var next := state.Last(s).nextStop;
    if next == INDEX_ARRIVAL_STOP then RateStep(state, lookup, s)
    else RateInserted(RateStep(state, lookup, s), lookup, next)
  }
}
