/** Conservation of mass from a train's arrival (or its start distribution) to its departure. */
module DepartureProperties {
  import opened Sums
  import opened Options
  import opened Distributions
  import opened Departure
  import opened DependencyGraph
  import opened FeederProperties
  import opened WaitingAlgebra

  /** The timestamp that corresponds to delay zero of the train's own distribution. */
  function TrainBase(data: DepartureData): int {
    match data.train
    case FirstDeparture(_) => data.scheduledDeparture
    case PrecedingArrival(scheduledArrival, _, minStanding) => scheduledArrival + minStanding
  }

  /** The probability that the train itself is ready to depart with a delay of at most k. */
  function Ready(data: DepartureData, k: int): real {
    data.TrainDistribution().SmallerEqual(data.scheduledDeparture + k - TrainBase(data))
  }

  /** The program's three train probabilities in terms of readiness. */
  lemma TrainTerms(data: DepartureData, k: int)
    ensures TrainArrived(data) == Ready(data, 0)
    ensures TrainArrivesAtTime(data, data.scheduledDeparture + k) == Ready(data, k) - Ready(data, k - 1)
    ensures TrainArrivesBeforeTime(data, data.scheduledDeparture + k) == Ready(data, k - 1)
  {
    EqualIsIncrement(data.TrainDistribution(), data.scheduledDeparture + k - TrainBase(data));
  }

  lemma ReadyBounds(data: DepartureData, k: int)
    requires data.TrainDistribution().Valid()
    ensures 0.0 <= Ready(data, k - 1) <= Ready(data, k) <= data.TrainDistribution().Mass()
  {
    var m := data.scheduledDeparture + k - TrainBase(data);
    ValidQueries(data.TrainDistribution(), m - 1, m);
  }

  /** The largest delay covers the whole train distribution. */
  lemma ReadyAtLargestDelay(data: DepartureData)
    ensures Ready(data, data.LargestDelay()) == data.TrainDistribution().Mass()
  {
  }

  function N(data: DepartureData, k: int): real {
    NoWaiting(data.feeders, data.scheduledDeparture + k)
  }

  function M(data: DepartureData, k: int): real {
    CutNoWaiting(data.feeders, data.scheduledDeparture + k)
  }

  lemma WaitingBounds(data: DepartureData, k: int)
    requires data.Valid()
    ensures 0.0 <= N(data, k) <= M(data, k) <= 1.0
    ensures M(data, k) - N(data, k) <= DroppedMass(data.feeders)
    ensures M(data, k - 1) <= M(data, k)
    ensures k >= data.maximumWaitingTime ==> N(data, k) == 1.0
  {
    hide NoWaiting, CutNoWaiting, DroppedMass, Feeder.Valid;
    ProductGap(data.feeders, data.scheduledDeparture + k);
    CutNoWaitingMonotone(data.feeders, data.scheduledDeparture + k);
    if k >= data.maximumWaitingTime {
      NoWaitingAtEnd(data.feeders, data.scheduledDeparture + k);
    }
  }

  // ----- The departure as sequences over the delay

  function ReadyBy(data: DepartureData): seq<real> {
    seq(data.LargestDelay() + 1, k => Ready(data, k))
  }

  function NotWaiting(data: DepartureData): seq<real> {
    seq(data.LargestDelay() + 1, k => N(data, k))
  }

  function CutNotWaiting(data: DepartureData): seq<real> {
    seq(data.LargestDelay() + 1, k => M(data, k))
  }

  /** The mass that trimming the cut distributions makes the departure lose, delay by delay. */
  function LostMasses(data: DepartureData): seq<real> {
    Defects(ReadyBy(data), NotWaiting(data), CutNotWaiting(data))
  }

  /** The three phases of the program share one form. */
  lemma EntryForm(data: DepartureData, k: nat)
    requires data.Valid()
    ensures k == 0 ==> Entry(data, k) == Times(Ready(data, 0), N(data, 0))
    ensures k > 0 ==> Entry(data, k) == PlainEntry(Ready(data, k - 1), Ready(data, k), N(data, k), M(data, k - 1), M(data, k))
  {
    hide NoWaiting, NoCutAfter, Ready, CutDistributions, TrainArrived, TrainArrivesAtTime, TrainArrivesBeforeTime;
    TrainTerms(data, k);
    WaitingBounds(data, k);
    if k > data.maximumWaitingTime {
      WaitingBounds(data, k - 1);
      OneMinuteLater(Ready(data, k - 1), Ready(data, k));
    }
  }

  lemma OneMinuteLater(F0: real, F: real)
    ensures PlainEntry(F0, F, 1.0, 1.0, 1.0) == F - F0
  {
  }

  lemma SequenceForms(data: DepartureData)
    requires data.Valid()
    ensures PlainEntries(Entries(data), ReadyBy(data), NotWaiting(data), CutNotWaiting(data))
    ensures Cumulative(ReadyBy(data)) && Bounding(NotWaiting(data), CutNotWaiting(data))
    ensures forall k :: 0 <= k <= data.LargestDelay() ==> CutNotWaiting(data)[k] - NotWaiting(data)[k] <= DroppedMass(data.feeders)
  {
    hide Entry, Ready, N, M, PlainEntry, DroppedMass, Times;
    forall k: nat | k <= data.LargestDelay()
      ensures k == 0 ==> Entries(data)[k] == Times(Ready(data, 0), N(data, 0))
      ensures k > 0 ==> Entries(data)[k] == PlainEntry(Ready(data, k - 1), Ready(data, k), N(data, k), M(data, k - 1), M(data, k))
      ensures 0.0 <= Ready(data, k) && (k > 0 ==> Ready(data, k - 1) <= Ready(data, k))
      ensures 0.0 <= N(data, k) <= M(data, k) && (k > 0 ==> M(data, k - 1) <= M(data, k))
      ensures M(data, k) - N(data, k) <= DroppedMass(data.feeders)
    {
      EntryForm(data, k);
      ReadyBounds(data, k);
      WaitingBounds(data, k);
    }
  }

  /** The entries sum to the train's mass, less the lost masses; the latter are bounded by the dropped mass. */
  lemma EntriesMass(data: DepartureData)
    requires data.Valid()
    ensures NonNegative(Entries(data)) && NonNegative(LostMasses(data))
    ensures Total(Entries(data)) == data.TrainDistribution().Mass() - Total(LostMasses(data))
    ensures 0.0 <= Total(LostMasses(data)) <= Times(data.TrainDistribution().Mass(), DroppedMass(data.feeders))
  {
    hide Ready, N, M, Entry, PlainEntry, DroppedMass, Times, data.LargestDelay;
    var F, n, m := ReadyBy(data), NotWaiting(data), CutNotWaiting(data);
    var last := data.LargestDelay();
    SequenceForms(data);
    ReadyAtLargestDelay(data);
    WaitingAtLargestDelay(data);
    DefectsNonNegative(F, n, m);
    PrefixMonotone(LostMasses(data), 0, last + 1);
    DefectsBounded(F, n, m, DroppedMass(data.feeders), last);
    PlainEntriesNonNegative(Entries(data), F, n, m);
    PlainPartialSums(Entries(data), F, n, m, last);
    TimesOne(F[last]);
  }

  lemma WaitingAtLargestDelay(data: DepartureData)
    requires data.Valid()
    ensures M(data, data.LargestDelay()) == 1.0
  {
    WaitingBounds(data, data.LargestDelay());
  }

  lemma TimesOne(a: real)
    ensures Times(a, 1.0) == a
    ensures Times(a, 0.0) == 0.0
  {
  }

  // ----- Main results

  /** For every departure: a valid distribution starting at delay zero or later. Without a message its mass is the
      train's mass less exactly the lost masses, and at least (1 - dropped mass) times the train's mass. */
  lemma DepartureMass(data: DepartureData)
    requires data.Valid()
    ensures var d, total := DepartureDistribution(data), data.TrainDistribution().Mass();
            && d.Valid() && d.firstMinute >= 0 && d.cumulative != []
            && (data.message.Some? ==> d.Mass() == total)
            && (data.message.None? ==> d.Mass() == total - Total(LostMasses(data)))
            && (data.message.None? ==> d.Mass() >= total - total * DroppedMass(data.feeders))
            && d.Mass() <= total
  {
    hide Times, DroppedMass, LostMasses, Entries;
    EntriesMass(data);
    TimesIsProduct(data.TrainDistribution().Mass(), DroppedMass(data.feeders));
    if data.message.None? {
      EntriesCount(data);
      TrimKeepsMass(Entries(data), 0);
      InitValid(Entries(data), 0);
    } else {
      ReadyBounds(data, 0);
    }
  }

  lemma EntriesCount(data: DepartureData)
    ensures |Entries(data)| == data.LargestDelay() + 1
  {
  }

  /** With clean cuts: partial sums are exactly readiness times not-waiting, and the mass is conserved. */
  lemma DepartureExact(data: DepartureData, k: nat)
    requires data.Valid() && data.message.None? && AllCutCleanly(data.feeders) && k <= data.LargestDelay()
    ensures Prefix(Entries(data), k + 1) == Ready(data, k) * N(data, k)
    ensures DepartureDistribution(data).Mass() == data.TrainDistribution().Mass()
  {
    hide *;
    ExactPartialSum(data, k);
    TimesIsProduct(Ready(data, k), N(data, k));
  }

  lemma ExactPartialSum(data: DepartureData, k: nat)
    requires data.Valid() && data.message.None? && AllCutCleanly(data.feeders) && k <= data.LargestDelay()
    ensures Prefix(Entries(data), k + 1) == Times(Ready(data, k), N(data, k))
    ensures DepartureDistribution(data).Mass() == data.TrainDistribution().Mass()
  {
    hide Ready, N, M, Entry, PlainEntry, DroppedMass, Times, data.LargestDelay, DepartureDistribution;
    var F, n, m := ReadyBy(data), NotWaiting(data), CutNotWaiting(data);
    CleanCutsDropNothing(data.feeders);
    SequenceForms(data);
    EntriesMass(data);
    PrefixMonotone(LostMasses(data), 0, k + 1);
    DefectsBounded(F, n, m, DroppedMass(data.feeders), k);
    TimesOne(F[k]);
    PlainPartialSums(Entries(data), F, n, m, k);
    WaitingBounds(data, k);
    DepartureMass(data);
    TimesOne(data.TrainDistribution().Mass());
  }

  lemma TimesIsProduct(a: real, b: real)
    ensures Times(a, b) == a * b
  {
  }

  /** Mass is conserved exactly if and only if, at every delay at which the train can get ready, trimming does not show. */
  lemma DepartureConservesIff(data: DepartureData)
    requires data.Valid() && data.message.None?
    ensures DepartureDistribution(data).Mass() == data.TrainDistribution().Mass()
       <==> forall k: nat :: k <= data.LargestDelay() ==>
              Increment(ReadyBy(data), k) == 0.0 || Unaffected(data.feeders, data.scheduledDeparture + k)
  {
    hide Ready, N, M, Entry, PlainEntry, DroppedMass, Times, Increment, data.LargestDelay, DepartureDistribution, Unaffected;
    DepartureMass(data);
    EntriesMass(data);
    NothingLostIff(ReadyBy(data), NotWaiting(data), CutNotWaiting(data));
    forall k: nat | k <= data.LargestDelay()
      ensures CutNotWaiting(data)[k] == NotWaiting(data)[k] <==> Unaffected(data.feeders, data.scheduledDeparture + k)
    {
      KeptAtIff(data, k);
    }
  }

  lemma KeptAtIff(data: DepartureData, k: nat)
    requires data.Valid()
    ensures M(data, k) == N(data, k) <==> Unaffected(data.feeders, data.scheduledDeparture + k)
  {
    hide NoWaiting, CutNoWaiting, Unaffected, Feeder.Valid;
    ProductKeptIff(data.feeders, data.scheduledDeparture + k);
  }

  const ASSERTED_TOLERANCE: real := 0.00001

  /** The mass that the program's assertion expects: one for the first departure of a train, that of the arrival otherwise. */
  function ExpectedMass(data: DepartureData): real {
    match data.train
    case FirstDeparture(_) => 1.0
    case PrecedingArrival(_, arrival, _) => arrival.Mass()
  }

  /** The assertion at the end of the program's function. */
  predicate AssertionHolds(data: DepartureData) {
    var difference := DepartureDistribution(data).Mass() - ExpectedMass(data);
    -ASSERTED_TOLERANCE < difference < ASSERTED_TOLERANCE
  }

  /** The assertion holds if and only if the lost masses, with what a start distribution lacks to one, are below the tolerance. */
  lemma AssertionIff(data: DepartureData)
    requires data.Valid() && data.message.None?
    ensures var lacking := ExpectedMass(data) - data.TrainDistribution().Mass();
            AssertionHolds(data) <==> -ASSERTED_TOLERANCE < lacking + Total(LostMasses(data)) < ASSERTED_TOLERANCE
    ensures ExpectedMass(data) == data.TrainDistribution().Mass() ==>
              (AssertionHolds(data) <==> Total(LostMasses(data)) < ASSERTED_TOLERANCE)
  {
    hide DepartureDistribution, LostMasses, DroppedMass;
    DepartureMass(data);
    EntriesMass(data);
  }

  /** Each lost mass, on the input: nothing when the train is not getting ready at this delay or trimming does not show. */
  lemma LostMassIff(data: DepartureData, k: nat)
    requires data.Valid() && k <= data.LargestDelay()
    ensures LostMasses(data)[k] == Times(Increment(ReadyBy(data), k), M(data, k) - N(data, k))
    ensures LostMasses(data)[k] == 0.0 <==> Increment(ReadyBy(data), k) == 0.0 || Unaffected(data.feeders, data.scheduledDeparture + k)
  {
    hide Ready, N, M, Times, Increment, data.LargestDelay, Unaffected;
    KeptAtIff(data, k);
    TimesZeroIff(Increment(ReadyBy(data), k), M(data, k) - N(data, k));
  }

  lemma NothingLostIff(F: seq<real>, n: seq<real>, m: seq<real>)
    requires |F| == |n| == |m| && NonNegative(Defects(F, n, m))
    ensures Total(Defects(F, n, m)) == 0.0 <==> forall k: nat :: k < |F| ==> Increment(F, k) == 0.0 || m[k] == n[k]
  {
    hide Times, Increment;
    var lost := Defects(F, n, m);
    forall k: nat | k < |F|
      ensures lost[k] == 0.0 <==> Increment(F, k) == 0.0 || m[k] == n[k]
    {
      TimesZeroIff(Increment(F, k), m[k] - n[k]);
    }
    if forall k: nat :: k < |F| ==> Increment(F, k) == 0.0 || m[k] == n[k] {
      PrefixZeros(lost, 0, |lost|);
    } else {
      var k: nat :| k < |F| && !(Increment(F, k) == 0.0 || m[k] == n[k]);
      PrefixMonotone(lost, 0, k);
      PrefixMonotone(lost, k + 1, |lost|);
      assert Prefix(lost, k + 1) == Prefix(lost, k) + lost[k];
    }
  }

  lemma TimesZeroIff(a: real, b: real)
    ensures Times(a, b) == 0.0 <==> a == 0.0 || b == 0.0
  {
  }

  /** A train that is certainly ready on time, with one feeder whose arrivals in the second and third
      minute are too improbable to survive the trimming of its cut distribution. */
  ghost predicate SmallFeeder(f: Feeder) {
    && f.distribution.firstMinute == 0 && |f.distribution.cumulative| == 4
    && f.distribution.cumulative[0] == 0.5 && f.distribution.cumulative[1] == 0.500009
    && f.distribution.cumulative[2] == 0.500018 && f.distribution.cumulative[3] == 1.0
    && f.scheduledArrival == 0 && f.latestFeasibleArrival == 2 && f.transferTime == 1
  }

  ghost predicate SmallDeparture(data: DepartureData) {
    && data.scheduledDeparture == 1 && data.maximumWaitingTime == 2 && data.message.None?
    && data.train == FirstDeparture(OnePoint(0, 1.0))
    && |data.feeders| == 1 && SmallFeeder(data.feeders[0])
  }

  /** Exact conservation can fail: here the train brings mass one, and the departure misses it by more than the
      tolerance 0.00001 of the program's own assertion. */
  lemma SmallMassCanBeLost(data: DepartureData)
    requires SmallDeparture(data)
    ensures data.Valid() && data.TrainDistribution().Mass() == 1.0
    ensures DepartureDistribution(data).Mass() < 1.0 - ASSERTED_TOLERANCE
    ensures !AssertionHolds(data)
  {
    hide CutDistribution, DepartureDistribution, M, N, DroppedMass, Times;
    SmallFeederWaiting(data);
    DepartureMass(data);
    EntriesMass(data);
    var lost := LostMasses(data);
    TimesIsProduct(1.0, 0.000018);
    assert lost[0] == Times(1.0, M(data, 0) - N(data, 0));
    PrefixMonotone(lost, 1, |lost|);
    assert Prefix(lost, 1) == Prefix(lost, 0) + lost[0];
  }

  /** An arrival at minute 0 for which a departure at minute 1 waits for two minutes. */
  const SMALL_PREDECESSOR := Predecessor(0, Distribution(0, [0.5, 0.500009, 0.500018, 1.0]), 0, 2, 1)

  /** The program itself collects such data: from the first departure of a train with one feeder, whose arrival is in the
      interval in which feeders are looked for. */
  lemma SmallDepartureExists()
    ensures SMALL_PREDECESSOR.Valid()
    ensures SmallDeparture(DepartureDataOf(1, None, Start(OnePoint(0, 1.0)), [SMALL_PREDECESSOR]))
    ensures var (success, begin, end) := FeederTimeInterval(1, SMALL_PREDECESSOR.transferTime, FEEDER_THRESHOLD);
            success && begin <= SMALL_PREDECESSOR.scheduledArrival <= end
  {
    var before := [SMALL_PREDECESSOR][..0];
    assert FeedersOf(1, before, None) == [] && MaximumWaiting(before, None) == 0;
  }

  lemma SmallFeederCut(f: Feeder)
    requires SmallFeeder(f)
    ensures CutDistribution(f).Greater(0) == 0.0
  {
    var p := CutValues(f);
    var d := f.distribution;
    assert forall k :: 0 <= k < 4 ==> p[k] == if d.firstMinute + k > f.LatestFeasibleDelay() then 0.0 else d.Equal(d.firstMinute + k);
    assert d.Equal(d.firstMinute + 1) == 0.000009 && d.Equal(d.firstMinute + 2) == 0.000009;
    assert |p| == 4 && p[0] == 0.5 && p[1] == 0.000009 && p[2] == 0.000009 && p[3] == 0.0;
    assert Lo(p) == 0 && LastKept(p, 0, 1) == 0 && LastKept(p, 0, 2) == 0 && Hi(p) == 0;
  }

  lemma SmallFeederWaiting(data: DepartureData)
    requires SmallDeparture(data)
    ensures data.Valid() && M(data, 0) - N(data, 0) == 0.000018
  {
    var f := data.feeders[0];
    SmallFeederCut(f);
    hide CutDistribution;
    var cut, raw := CutFactors(data.feeders, CutDistributions(data.feeders), 1), NoWaitingFactors(data.feeders, 1);
    assert cut[0] == 1.0 && raw[0] == 1.0 - 0.000018;
    assert Product(cut, 1) == Product(cut, 0) * cut[0] && Product(raw, 1) == Product(raw, 0) * raw[0];
  }
}
