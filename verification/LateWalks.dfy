/** Walks inserted at a stop that already has an alternative: they hand the arriving mass on a second time. */
module LateWalks {
  import opened Options
  import opened Distributions
  import opened JourneySplit
  import opened ConnectionGraph
  import opened TransferFilter
  import opened Departure
  import opened Interchange
  import opened InterchangeProperties
  import opened PublicTransport
  import opened ConnectionGraphRating
  import opened ConnectionGraphMass
  import opened ConnectionGraphRuns

  lemma WalkIsOnePiece(walk: Journey)
    requires walk.Valid() && WalkOnly(walk)
    ensures Pieces(walk) == [walk]
  {
  }

  /** A graph after inserting a journey at a stop and rating it. */
  function Inserted(state: State, lookup: Lookup, s: nat, j: Journey): (r: State)
    requires state.Valid() && lookup.Valid() && j.Valid() && 2 <= s < |state.stops|
    ensures r.Valid()
  {
    RateInserted(Grown(state, s, j), lookup, s)
  }

  lemma GrownArriving(state: State, s: nat, j: Journey)
    requires state.Valid() && j.Valid() && 2 <= s < |state.stops|
    ensures ArrivingAt(Grown(state, s, j), s).arrival.Mass() == ArrivingAt(state, s).arrival.Mass()
  {
    hide *;
    InflowIsArriving(state, s);
    InflowIsArriving(Grown(state, s, j), s);
    GrownInflow(state, s, j, s);
  }

  /** Rating the walk: it receives the whole arriving distribution. */
  lemma WalkIsRated(state: State, lookup: Lookup, s: nat, walk: Journey)
    requires state.Valid() && lookup.Valid() && walk.Valid() && WalkOnly(walk) && 2 <= s < |state.stops|
    ensures var g := Grown(state, s, walk);
            var arrival := ArrivingAt(g, s).arrival;
            && g.stops[s].alternatives != [] && g.Last(s).nextStop == INDEX_ARRIVAL_STOP && g.Last(s).arrival.Mass() == 0.0
            && Inserted(state, lookup, s, walk).stops == SetLast(g.stops, s, arrival, arrival)
  {
    WalkIsOnePiece(walk);
    var g := Grown(state, s, walk);
    assert g.Last(s) == Unrated(|state.journeys|, INDEX_ARRIVAL_STOP);
    assert JourneyOf(g, g.Last(s)) == walk;
    hide WellBuilt, ArrivingAt, Grown, WalkOnly;
  }

  /** In any graph, a walk inserted at an intermediate stop adds the whole arriving mass to the mass at the destination,
      whatever the other alternatives of the stop already pass on. */
  lemma LateWalkDelivers(state: State, lookup: Lookup, s: nat, walk: Journey)
    requires state.Valid() && lookup.Valid() && walk.Valid() && WalkOnly(walk) && 2 <= s < |state.stops|
    ensures DestinationMass(Inserted(state, lookup, s, walk)) == DestinationMass(state) + ArrivingAt(state, s).arrival.Mass()
  {
    hide WellBuilt, ArrivingAt, Grown, WalkOnly, Inserted, Inflow;
    var g := Grown(state, s, walk);
    var arrival := ArrivingAt(g, s).arrival;
    WalkIsRated(state, lookup, s, walk);
    GrownArriving(state, s, walk);
    GrownInflow(state, s, walk, INDEX_ARRIVAL_STOP);
    SetLastFlow(g.stops, s, arrival, arrival, INDEX_ARRIVAL_STOP);
  }

  /** After any run without walks, one more alternative that only walks keeps the mass at the destination within the start
      mass exactly when at least as much mass was still missing there as arrives at its stop. */
  lemma LateWalkKeepsMassIff(base: Journey, insertions: seq<Insertion>, lookup: Lookup, s: nat, walk: Journey)
    requires ValidRun(base, insertions) && lookup.Valid() && 2 <= s < StopCount(base, insertions)
    requires walk.Valid() && WalkOnly(walk)
    ensures var before := Run(base, insertions, lookup);
            DestinationMass(Inserted(before, lookup, s, walk)) <= StartMass(base, lookup) <==>
            ArrivingAt(before, s).arrival.Mass() <= StartMass(base, lookup) - DestinationMass(before)
  {
    var before := Run(base, insertions, lookup);
    hide *;
    LateWalkDelivers(before, lookup, s, walk);
  }

  // ----- A run that ends with more mass than it started with

  /** A leg of the first train, without feeders; both of its events are known to be on time. */
  const PUNCTUAL_LEG := Leg(0, Some(0), [], 0, 0, 10, Some(10), [])

  /** A leg of the second train, which leaves the same station 20 minutes later. */
  const SECOND_LEG := Leg(30, Some(30), [], 0, 30, 40, Some(40), [])

  const CERTAIN_START := Start(OnePoint(0, 1.0))

  /** The change reaches its train, even with ten minutes of delay. */
  const SAFE_CHANGE := AlternativeData(
    InterchangeInfo(10, 30, 30, false, 5, 0),
    [Train(CERTAIN_START, Change(0, 10, 5, 0), [SECOND_LEG])])

  function Punctual(): (r: Lookup) {
    Lookup(_ => BaseData(CERTAIN_START, [PUNCTUAL_LEG], 0, 1, []), (_, _) => SAFE_CHANGE)
  }

  lemma PunctualValid()
    ensures PUNCTUAL_LEG.Valid() && SECOND_LEG.Valid() && CERTAIN_START.Valid(0) && CERTAIN_START.Valid(30)
    ensures SAFE_CHANGE.Valid() && Punctual().Valid()
    // the interchange is between the two legs, and there is time for it
    ensures SAFE_CHANGE.info.scheduledArrival == PUNCTUAL_LEG.scheduledArrival
    ensures SAFE_CHANGE.info.scheduledDeparture == SAFE_CHANGE.info.departureTime == SECOND_LEG.scheduledDeparture
    ensures PUNCTUAL_LEG.scheduledArrival + SAFE_CHANGE.info.transferTime <= SECOND_LEG.scheduledDeparture
  {
  }

  /** The first ride arrives on time with mass one. */
  lemma PunctualBase(j: Journey)
    ensures Punctual().base(j).Valid() && RateBase(Punctual().base(j)).1 == OnePoint(0, 1.0)
  {
    PunctualValid();
    var data := Punctual().base(j);
    var ride := Ride(CERTAIN_START, [PUNCTUAL_LEG]);
    assert ride == [RideElement(PUNCTUAL_LEG, CERTAIN_START)];
    RideMass(CERTAIN_START, [PUNCTUAL_LEG]);
    assert ride[0..1] == ride;
    assert RateTrains(ride, []) == ride;
  }

  /** A further train carries on everything that reaches it. */
  lemma PunctualAlternative(filtered: Distribution)
    requires filtered.Valid() && filtered.cumulative != []
    ensures SAFE_CHANGE.Valid() && RateAlternative(SAFE_CHANGE, filtered).1.Mass() == filtered.Mass()
  {
    PunctualValid();
    var train := SAFE_CHANGE.trains[0];
    var first := ChangeElement(SECOND_LEG, CERTAIN_START, train.change, filtered);
    assert TrainElements(filtered, train) == [first];
    var data := InterchangeDataOf(30, Some(30), CERTAIN_START, [], train.change, filtered);
    InterchangeOfMessage(data);
    var arriving := [RatingElement(EMPTY, filtered)];
    assert SAFE_CHANGE.trains[..0] == [];
    assert RateTrains(arriving, SAFE_CHANGE.trains) == arriving + [first];
  }

  lemma ArrivingIs(state: State, s: nat, i: nat, a: nat)
    requires state.Valid() && 2 <= s < |state.stops| && LeadsTo(state.stops, i, a, s)
    ensures ArrivingAt(state, s) == state.stops[i].alternatives[a]
  {
    hide WellBuilt;
    ArrivingIsUnique(state.stops, |state.journeys|, s);
  }

  lemma TwoPieces(base: Journey)
    requires base.Valid() && |Pieces(base)| == 2
    ensures BaseState(base).stops == [GraphStop(0, [Unrated(0, 2)]), GraphStop(1, []), GraphStop(2, [Unrated(1, 1)])]
    ensures BaseState(base).journeys == Pieces(base)
  {
  }

  /** The graph of a base journey in two pieces after its first piece is rated. */
  function FirstRated(base: Journey): (r: State)
    requires base.Valid() && |Pieces(base)| == 2
    ensures r.Valid() && |r.stops| == 3
  {
    PunctualValid();
    RateStep(BaseState(base), Punctual(), 0)
  }

  lemma FirstRating(base: Journey)
    requires base.Valid() && |Pieces(base)| == 2
    ensures Punctual().Valid()
    ensures var rating := RateBase(Punctual().base(Pieces(base)[0]));
            && rating.1.Valid() && BaseState(base).uncovered[0].Valid()
            && FirstRated(base) == WithRating(BaseState(base), 0, rating, BaseState(base).uncovered[0])
  {
    hide WellBuilt, RateBase, BaseStops;
    PunctualValid();
    TwoPieces(base);
  }

  /** The base journey's first piece is rated: its mass waits at the stop between the pieces. */
  lemma FirstPieceRated(base: Journey)
    requires base.Valid() && |Pieces(base)| == 2
    ensures var step := FirstRated(base);
            && step.journeys == Pieces(base) && step.stops[2] == GraphStop(2, [Unrated(1, 1)])
            && ArrivingAt(step, 2).arrival == OnePoint(0, 1.0)
            && DestinationMass(step) == 0.0
  {
    hide Inflow, ArrivingAt, BaseState, RateBase, FirstRated;
    var state := BaseState(base);
    BaseKeepsLedger(base);
    FirstRating(base);
    TwoPieces(base);
    PunctualBase(Pieces(base)[0]);
    var rating := RateBase(Punctual().base(Pieces(base)[0]));
    var step := FirstRated(base);
    SetLastFlow(state.stops, 0, rating.0, rating.1, INDEX_ARRIVAL_STOP);
    assert LeadsTo(step.stops, 0, 0, 2);
    ArrivingIs(step, 2, 0, 0);
  }

  lemma RunOfTwo(base: Journey)
    requires base.Valid() && |Pieces(base)| == 2
    ensures Punctual().Valid() && ValidRun(base, [])
    ensures Run(base, [], Punctual()) == RateStep(FirstRated(base), Punctual(), 2)
  {
    hide RateStep, BaseState, ArrivingAt;
    PunctualValid();
    TwoPieces(base);
    FirstPieceRated(base);
    var state, step := BaseState(base), FirstRated(base);
    assert state.Last(0).nextStop == 2 && step.Last(2).nextStop == INDEX_ARRIVAL_STOP;
    assert RateInserted(step, Punctual(), 2) == RateStep(step, Punctual(), 2);
  }

  /** The second piece takes everything that waits. */
  lemma SecondRating(base: Journey)
    requires base.Valid() && |Pieces(base)| == 2 && !WalkOnly(Pieces(base)[1])
    ensures Punctual().Valid()
    ensures var step := FirstRated(base);
            var rating := SecondPiece();
            && rating.0.1.Mass() == 1.0 && rating.0.1.Valid() && rating.1.Valid()
            && RateStep(step, Punctual(), 2) == WithRating(step, 2, rating.0, rating.1)
  {
    hide WellBuilt, ArrivingAt, Filtered, Uncovered, FirstRated, RateAlternative, WalkOnly;
    PunctualValid();
    FirstPieceRated(base);
    var step := FirstRated(base);
    LastIsIndexed(step, 2);
    FilterSplitsMass(OnePoint(0, 1.0), SAFE_CHANGE.info);
    assert Available(step, 2) == OnePoint(0, 1.0);
    PunctualAlternative(Filtered(OnePoint(0, 1.0), SAFE_CHANGE.info));
  }

  /** The second piece's distributions, and what it leaves uncovered. */
  function SecondPiece(): ((Distribution, Distribution), Distribution) {
    PunctualValid();
    var available := OnePoint(0, 1.0);
    FilterSplitsMass(available, SAFE_CHANGE.info);
    (RateAlternative(SAFE_CHANGE, Filtered(available, SAFE_CHANGE.info)), Uncovered(available, SAFE_CHANGE.info))
  }

  /** Both pieces are rated: all of the mass is at the destination. */
  lemma BothPiecesRated(base: Journey)
    requires base.Valid() && |Pieces(base)| == 2 && !WalkOnly(Pieces(base)[1])
    ensures Punctual().Valid() && ValidRun(base, [])
    ensures var run := Run(base, [], Punctual());
            |run.stops| == 3 && DestinationMass(run) == 1.0 && ArrivingAt(run, 2).arrival.Mass() == 1.0
  {
    hide Inflow, ArrivingAt, FirstRated, Run, RateStep, WellBuilt, SecondPiece, WalkOnly;
    FirstPieceRated(base);
    RunOfTwo(base);
    SecondRating(base);
    var step, run := FirstRated(base), Run(base, [], Punctual());
    var rating := SecondPiece().0;
    SetLastFlow(step.stops, 2, rating.0, rating.1, INDEX_ARRIVAL_STOP);
    SetLastFlow(step.stops, 2, rating.0, rating.1, 2);
    InflowIsArriving(step, 2);
    InflowIsArriving(run, 2);
  }

  /** When both trains of a connection are on time and the change is safe, all of the mass arrives; a walk then inserted at
      the change brings the mass at the destination to two, twice the start mass. */
  lemma LateWalkDoublesMass(base: Journey, walk: Journey)
    requires base.Valid() && |Pieces(base)| == 2 && !WalkOnly(Pieces(base)[1])
    requires walk.Valid() && WalkOnly(walk)
    ensures ValidRun(base, []) && Punctual().Valid() && |Run(base, [], Punctual()).stops| == 3
    ensures StartMass(base, Punctual()) == 1.0
    ensures DestinationMass(Run(base, [], Punctual())) == 1.0
    ensures DestinationMass(Inserted(Run(base, [], Punctual()), Punctual(), 2, walk)) == 2.0
  {
    PunctualBase(Pieces(base)[0]);
    BothPiecesRated(base);
    hide Run, Inserted, ArrivingAt, Inflow, RateBase;
    LateWalkDelivers(Run(base, [], Punctual()), Punctual(), 2, walk);
  }

  /** The two rides with their change, and a walk from the change to the destination. */
  const TWO_RIDES := Journey(
    [Stop(false, true, 0, NO_EVENT, EventAt(0)), Stop(true, true, 1, EventAt(600), EventAt(1800)),
     Stop(true, false, 2, EventAt(2400), NO_EVENT)],
    [Span(0, 1, Transport(false, 0)), Span(1, 2, Transport(false, 1))], [])

  const WALK := Journey(
    [Stop(false, true, 1, NO_EVENT, EventAt(600)), Stop(true, false, 2, EventAt(3600), NO_EVENT)], [Span(0, 1, Transport(true, 0))], [])

  const SECOND_RIDE := Journey(
    [Stop(false, true, 1, EventInfo(false, 600, 600), EventAt(1800)), Stop(true, false, 2, EventAt(2400), NO_EVENT)],
    [Span(0, 1, Transport(false, 1))], [])

  lemma SecondRideIsWhole()
    ensures SECOND_RIDE.Valid() && Pieces(SECOND_RIDE) == [SECOND_RIDE] && !WalkOnly(SECOND_RIDE)
  {
    var j := SECOND_RIDE;
    assert FirstExit(j.stops, 1) == 1 && FirstExit(j.stops, 0) == 1;
    assert FirstCovering(j.transports, 1, 1) == 1;
    assert !WalkOnly(j) by {
      assert !j.transports[0].info.isWalk;
    }
  }

  lemma FirstRideIsCutOff()
    ensures TWO_RIDES.Valid() && HasCut(TWO_RIDES) && CutOf(TWO_RIDES) == 1
  {
    var j := TWO_RIDES;
    assert FirstExit(j.stops, 1) == 1 && FirstExit(j.stops, 0) == 1;
    assert FirstCovering(j.transports, 1, 1) == 1 && FirstCovering(j.transports, 1, 0) == 1;
    assert !j.transports[1].info.isWalk;
  }

  lemma SecondRideIsLeft()
    ensures Second(TWO_RIDES, 1) == SECOND_RIDE
  {
    var j := TWO_RIDES;
    assert j.transports[..1] == [j.transports[0]] && j.transports[..1][..0] == [];
    assert JourneySplit.After(j.transports[..1], 1) == [];
  }

  lemma TwoRidesArePieces()
    ensures TWO_RIDES.Valid() && |Pieces(TWO_RIDES)| == 2 && !WalkOnly(Pieces(TWO_RIDES)[1])
    ensures WALK.Valid() && WalkOnly(WALK)
  {
    hide Pieces, HasCut, CutOf, Second, WalkOnly;
    FirstRideIsCutOff();
    SecondRideIsLeft();
    SecondRideIsWhole();
    PiecesOfSplit(TWO_RIDES);
    WalkIsWalk();
  }

  lemma WalkIsWalk()
    ensures WALK.Valid() && WalkOnly(WALK)
  {
  }

  /** The promise of the balance fails: there is a run, and a walk inserted into it, for which the graph ends with more mass
      than it has to distribute. */
  lemma WalkBreaksBalance()
    ensures ValidRun(TWO_RIDES, []) && Punctual().Valid() && WALK.Valid() && |Run(TWO_RIDES, [], Punctual()).stops| == 3
    ensures DestinationMass(Inserted(Run(TWO_RIDES, [], Punctual()), Punctual(), 2, WALK)) > StartMass(TWO_RIDES, Punctual())
  {
    hide *;
    TwoRidesArePieces();
    LateWalkDoublesMass(TWO_RIDES, WALK);
  }
}
