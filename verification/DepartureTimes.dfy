/** When a train departs: the departure distribution, delay by delay, in terms of what the schedule says. */
module DepartureTimes {
  import opened Sums
  import opened Options
  import opened Distributions
  import opened Departure
  import opened FeederProperties
  import opened WaitingAlgebra
  import opened DepartureProperties

  // ----- Readiness

  /** The probability that a train is ready with a delay of at most k: it starts here, or it has arrived and has stood for two
      minutes, or for the scheduled time if that is shorter. */
  function ReadyWithin(source: TrainSource, scheduled: int, k: int): real {
    match source
    case Start(start) => start.SmallerEqual(k)
    case Arrival(_, scheduledArrival, arrival) =>
      if scheduled - scheduledArrival >= 2 then arrival.SmallerEqual(scheduled + k - scheduledArrival - 2)
      else arrival.SmallerEqual(k)
  }

  lemma ReadyMeans(scheduled: int, message: Option<int>, source: TrainSource, predecessors: seq<Predecessor>, k: int)
    ensures Ready(DepartureDataOf(scheduled, message, source, predecessors), k) == ReadyWithin(source, scheduled, k)
  {
  }

  // ----- Waiting

  /** The probability that passengers of an arrival are not there after k minutes, but within the time the train waits for them. */
  function Awaited(p: Predecessor, scheduled: int, k: int): real {
    var reach := scheduled - p.transferTime - p.scheduledArrival;
    if k >= p.waitingTime then 0.0 else p.pd.SmallerEqual(reach + p.waitingTime) - p.pd.SmallerEqual(reach + k)
  }

  /** The probability that nobody is waited for any more; the train's own arrival does not count. */
  function NobodyAwaited(predecessors: seq<Predecessor>, skip: Option<int>, scheduled: int, k: int): real {
    if predecessors == [] then 1.0
    else
      var n := |predecessors| - 1;
      var p := predecessors[n];
      NobodyAwaited(predecessors[..n], skip, scheduled, k) * (if skip == Some(p.key) then 1.0 else 1.0 - Awaited(p, scheduled, k))
  }

  lemma FactorMeans(p: Predecessor, scheduled: int, k: int)
    ensures NoWaitingFor(FeederOf(scheduled, p), scheduled + k) == 1.0 - Awaited(p, scheduled, k)
  {
  }

  lemma OneFactorMore(feeders: seq<Feeder>, f: Feeder, timestamp: int)
    ensures NoWaiting(feeders + [f], timestamp) == NoWaiting(feeders, timestamp) * NoWaitingFor(f, timestamp)
  {
    hide NoWaitingFor;
    ProductAgree(NoWaitingFactors(feeders + [f], timestamp), NoWaitingFactors(feeders, timestamp), |feeders|);
  }

  lemma {:induction false} WaitingMeans(predecessors: seq<Predecessor>, skip: Option<int>, scheduled: int, k: int)
    ensures NoWaiting(FeedersOf(scheduled, predecessors, skip), scheduled + k) == NobodyAwaited(predecessors, skip, scheduled, k)
  {
    hide NoWaitingFor, Awaited, FeederOf, NoWaiting;
    if predecessors == [] {
      NoFeedersNoWaiting(scheduled + k);
    } else {
      var n := |predecessors| - 1;
      WaitingMeans(predecessors[..n], skip, scheduled, k);
      var before := FeedersOf(scheduled, predecessors[..n], skip);
      if skip == Some(predecessors[n].key) {
        assert FeedersOf(scheduled, predecessors, skip) == before;
      } else {
        OneFactorMore(before, FeederOf(scheduled, predecessors[n]), scheduled + k);
        FactorMeans(predecessors[n], scheduled, k);
      }
    }
  }

  lemma NoFeedersNoWaiting(timestamp: int)
    ensures NoWaiting([], timestamp) == 1.0
  {
  }

  // ----- The distribution

  /** The sum of the entries up to a delay: readiness times what the cut feeders say, less what has been lost by then. */
  function DepartedWithin(data: DepartureData, k: nat): real
    requires k <= data.LargestDelay()
  {
    Ready(data, k) * M(data, k) - Prefix(LostMasses(data), k + 1)
  }

  lemma EntriesUpTo(data: DepartureData, k: nat)
    requires data.Valid() && k <= data.LargestDelay()
    ensures |Entries(data)| == data.LargestDelay() + 1 && Prefix(Entries(data), k + 1) == DepartedWithin(data, k)
  {
    hide *;
    EntriesUpToTimes(data, k);
    TimesIsProduct(Ready(data, k), M(data, k));
    DepartedIs(data, k);
  }

  lemma DepartedIs(data: DepartureData, k: nat)
    requires k <= data.LargestDelay()
    ensures |LostMasses(data)| == data.LargestDelay() + 1
    ensures DepartedWithin(data, k) == Ready(data, k) * M(data, k) - Prefix(LostMasses(data), k + 1)
  {
    hide Ready, M, data.LargestDelay, Prefix;
  }

  lemma EntriesUpToTimes(data: DepartureData, k: nat)
    requires data.Valid() && k <= data.LargestDelay()
    ensures |Entries(data)| == |LostMasses(data)| == data.LargestDelay() + 1
    ensures Prefix(Entries(data), k + 1) == Times(Ready(data, k), M(data, k)) - Prefix(LostMasses(data), k + 1)
  {
    hide Ready, N, M, Entry, PlainEntry, DroppedMass, Times, data.LargestDelay;
    SequenceForms(data);
    PlainPartialSums(Entries(data), ReadyBy(data), NotWaiting(data), CutNotWaiting(data), k);
  }

  /** For every departure without a message: the probability of departing with at most k minutes of delay, up to what
      trimming the result drops on either side. */
  lemma DepartureQueries(data: DepartureData, k: nat)
    requires data.Valid() && data.message.None? && k <= data.LargestDelay()
    ensures Entries(data) != []
    ensures var error := DepartureDistribution(data).SmallerEqual(k) - DepartedWithin(data, k);
            && -DroppedLeft(Entries(data)) <= error <= DroppedRight(Entries(data))
            && (DropsOnlyZeros(Entries(data)) ==> error == 0.0)
  {
    hide DepartedWithin, data.LargestDelay, Entry;
    EntriesMass(data);
    EntriesUpTo(data, k);
    InitQueries(Entries(data), 0, k);
  }

  /** With clean cuts, and if trimming drops only zeros, this is the probability of being ready times that of nobody being
      awaited, for every delay. */
  lemma DepartureMinutes(data: DepartureData, k: nat)
    requires data.Valid() && data.message.None? && AllCutCleanly(data.feeders) && DropsOnlyZeros(Entries(data))
    ensures DepartureDistribution(data).SmallerEqual(k) == Ready(data, k) * N(data, k)
  {
    hide Ready, N, Entry, data.LargestDelay, DroppedMass, AllCutCleanly, DepartureDistribution, Init, Lo, Hi;
    EntriesMass(data);
    UnreportedIs(data);
    if k <= data.LargestDelay() {
      DepartureExact(data, k);
      InitQueries(Entries(data), 0, k);
    } else {
      InitOutside(Entries(data), 0, k);
      DepartureExact(data, 0);
      AllReady(data, k);
      TrimKeepsMass(Entries(data), 0);
    }
  }

  lemma UnreportedIs(data: DepartureData)
    requires data.message.None?
    ensures DepartureDistribution(data) == Init(Entries(data), 0)
  {
  }

  lemma AllReady(data: DepartureData, k: nat)
    requires data.Valid() && k >= data.LargestDelay()
    ensures Ready(data, k) == data.TrainDistribution().Mass() && N(data, k) == 1.0
  {
    hide N;
    WaitingBounds(data, k);
  }

  /** In the terms of the schedule: a train departs with at most k minutes of delay if it is ready, and nobody is awaited. */
  lemma DepartureMeans(scheduled: int, source: TrainSource, predecessors: seq<Predecessor>, k: nat)
    requires source.Valid(scheduled) && forall p :: p in predecessors ==> p.Valid()
    requires var data := DepartureDataOf(scheduled, None, source, predecessors);
             AllCutCleanly(data.feeders) && DropsOnlyZeros(Entries(data))
    ensures DepartureDistribution(DepartureDataOf(scheduled, None, source, predecessors)).SmallerEqual(k) ==
            ReadyWithin(source, scheduled, k) * NobodyAwaited(predecessors, source.Key(), scheduled, k)
  {
    hide *;
    var data := DepartureDataOf(scheduled, None, source, predecessors);
    DepartureDataValid(scheduled, None, source, predecessors);
    ReadyMeans(scheduled, None, source, predecessors, k);
    WaitingOf(scheduled, source, predecessors, k);
    DepartureMinutes(data, k);
  }

  lemma WaitingOf(scheduled: int, source: TrainSource, predecessors: seq<Predecessor>, k: nat)
    ensures var data := DepartureDataOf(scheduled, None, source, predecessors);
            data.message.None? && N(data, k) == NobodyAwaited(predecessors, source.Key(), scheduled, k)
  {
    hide NoWaiting, NobodyAwaited;
    WaitingMeans(predecessors, source.Key(), scheduled, k);
  }

  /** Nobody departs early. */
  lemma NoEarlyDeparture(data: DepartureData, k: int)
    requires data.Valid() && k < 0
    ensures DepartureDistribution(data).SmallerEqual(k) == 0.0
  {
    hide Entry;
    if data.message.None? {
      EntriesCount(data);
      InitOutside(Entries(data), 0, k);
    }
  }

  /** With a message, all mass is at its delay, and at zero if it is early. */
  lemma ReportedDeparture(scheduled: int, reported: int, source: TrainSource, predecessors: seq<Predecessor>, k: int)
    ensures var mass := match source case Start(start) => start.Mass() case Arrival(_, _, arrival) => arrival.Mass();
            DepartureDistribution(DepartureDataOf(scheduled, Some(reported), source, predecessors)).SmallerEqual(k) ==
            if k >= 0 && k >= reported - scheduled then mass else 0.0
  {
  }

  // ----- A train without feeders

  /** A delay that is certain: what the standing time does not absorb remains. */
  lemma CertainDeparture(scheduled: int, key: int, scheduledArrival: int, late: int)
    requires scheduledArrival <= scheduled
    ensures var standing := if scheduled - scheduledArrival < 2 then scheduled - scheduledArrival else 2;
            var delay := late + standing - (scheduled - scheduledArrival);
            DepartureDistribution(DepartureDataOf(scheduled, None, Arrival(key, scheduledArrival, OnePoint(late, 1.0)), [])) ==
            OnePoint(if delay > 0 then delay else 0, 1.0)
  {
    var data := DepartureDataOf(scheduled, None, Arrival(key, scheduledArrival, OnePoint(late, 1.0)), []);
    var standing := if scheduled - scheduledArrival < 2 then scheduled - scheduledArrival else 2;
    var delay := late + standing - (scheduled - scheduledArrival);
    var k := if delay > 0 then delay else 0;
    NoFeedersNoWaiting(scheduled);
    hide NoWaiting;
    OneValue(Entries(data), 0, k);
  }

  /** Without feeders, a train that certainly arrives in time for its standing time departs on time. */
  lemma PunctualDeparture(scheduled: int, key: int, scheduledArrival: int, arrival: Distribution)
    requires scheduled - scheduledArrival >= 2 && arrival.Valid() && arrival.LastMinute() <= scheduled - scheduledArrival - 2
    ensures DepartureDistribution(DepartureDataOf(scheduled, None, Arrival(key, scheduledArrival, arrival), [])) == OnePoint(0, arrival.Mass())
  {
    var data := DepartureDataOf(scheduled, None, Arrival(key, scheduledArrival, arrival), []);
    NoFeedersNoWaiting(scheduled);
    hide NoWaiting;
    assert |Entries(data)| == 1 && Entries(data)[0] == arrival.Mass();
    TrimKeepsMass(Entries(data), 0);
    assert Prefix(Entries(data), 1) == Prefix(Entries(data), 0) + Entries(data)[0];
    assert Lo(Entries(data)) == 0 && Hi(Entries(data)) == 0;
    assert Init(Entries(data), 0).cumulative == [arrival.Mass()];
  }
}
