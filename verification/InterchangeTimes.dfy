/** When a passenger departs after an interchange: the departure distribution, delay by delay. */
module InterchangeTimes {
  import opened Sums
  import opened Options
  import opened Distributions
  import opened Departure
  import opened FeederProperties
  import opened WaitingAlgebra
  import opened DepartureProperties
  import opened DepartureTimes
  import opened Interchange
  import opened InterchangeProperties

  // ----- Any cuts

  lemma EntriesNotEmpty(data: InterchangeData)
    requires data.Valid()
    ensures |Interchange.Entries(data)| == data.departure.LargestDelay() + 1 && data.feeder.waitingTime <= data.departure.LargestDelay()
    ensures NonNegative(Interchange.Entries(data))
  {
    EntriesBounds(data);
    WaitingIntervalWithinLargestDelay(data);
  }

  lemma LevelsUpTo(data: InterchangeData, k: nat)
    requires data.Valid() && k <= data.feeder.waitingTime
    ensures k < |Interchange.Entries(data)|
    ensures var d, E := data.departure, DroppedMass(data.departure.feeders);
            Level(Ready(d, k), Arrived(data, k), M(d, k), E) <= Prefix(Interchange.Entries(data), k + 1)
            <= Level(Ready(d, k), Arrived(data, k), M(d, k), 0.0)
  {
    hide Interchange.Entry, Ready, N, M, Arrived, FirstEntry, WithinEntry, LateEntry, Level, DroppedMass, data.departure.LargestDelay;
    var d := data.departure;
    WaitingIntervalWithinLargestDelay(data);
    InterchangeProperties.SequenceForms(data);
    WithinPartialSums(Interchange.Entries(data), ReadyBy(d), NotWaiting(d), CutNotWaiting(d), ArrivedBy(data), data.feeder.waitingTime,
                      DroppedMass(d.feeders), k);
  }

  lemma LevelsMean(data: InterchangeData, k: nat)
    ensures var d, E := data.departure, DroppedMass(data.departure.feeders);
            && Level(Ready(d, k), Arrived(data, k), M(d, k), E) == Ready(d, k) * Arrived(data, k) * (M(d, k) - E)
            && Level(Ready(d, k), Arrived(data, k), M(d, k), 0.0) == Ready(d, k) * Arrived(data, k) * M(d, k)
  {
    hide Ready, Arrived, M, DroppedMass;
  }

  /** For every interchange without a message, up to the waiting time: the probability of departing with at most k minutes of
      delay lies between two products, up to what trimming the result drops on either side. */
  lemma InterchangeQueries(data: InterchangeData, k: nat)
    requires data.Valid() && data.departure.message.None? && k <= data.feeder.waitingTime
    ensures Interchange.Entries(data) != []
    ensures var d, E, p := data.departure, DroppedMass(data.departure.feeders), Interchange.Entries(data);
            var departed := InterchangeDistribution(data).SmallerEqual(k);
            Ready(d, k) * Arrived(data, k) * (M(d, k) - E) - DroppedLeft(p) <= departed
            <= Ready(d, k) * Arrived(data, k) * M(d, k) + DroppedRight(p)
  {
    hide Ready, Arrived, M, DroppedMass, Interchange.Entry, Level, data.departure.LargestDelay;
    EntriesNotEmpty(data);
    LevelsUpTo(data, k);
    LevelsMean(data, k);
    InitQueries(Interchange.Entries(data), 0, k);
  }

  // ----- Clean cuts

  /** The probability of departing with at most k minutes of delay: within the waiting time all three must be there; later
      the train does not wait for the passenger, so only departures after his arrival count. */
  function GoneBy(data: InterchangeData, k: nat): real {
    var d := data.departure;
    if k <= data.feeder.waitingTime then Ready(d, k) * Arrived(data, k) * N(d, k)
    else GoneBy(data, k - 1) + (Ready(d, k) * N(d, k) - Ready(d, k - 1) * N(d, k - 1)) * Arrived(data, k)
  }

  lemma LateStep(data: InterchangeData, k: nat)
    requires data.Valid() && AllCutCleanly(data.departure.feeders) && data.feeder.waitingTime < k
    ensures var d := data.departure;
            Interchange.Entry(data, k) == (Ready(d, k) * N(d, k) - Ready(d, k - 1) * N(d, k - 1)) * Arrived(data, k)
  {
    hide Ready, N, M, Arrived, LateEntry, Interchange.Entry, DroppedMass;
    var d := data.departure;
    CleanCutsDropNothing(d.feeders);
    WaitingBounds(d, k);
    WaitingBounds(d, k - 1);
    InterchangeProperties.EntryForm(data, k);
    LateEntrySplit(Ready(d, k - 1), Ready(d, k), Arrived(data, k), N(d, k), N(d, k - 1), N(d, k),
                   (Ready(d, k) - Ready(d, k - 1)) * N(d, k) + Ready(d, k - 1) * (N(d, k) - N(d, k - 1)));
  }

  lemma {:induction false} EntriesUpTo(data: InterchangeData, k: nat)
    requires data.Valid() && AllCutCleanly(data.departure.feeders) && k < |Interchange.Entries(data)|
    ensures Prefix(Interchange.Entries(data), k + 1) == GoneBy(data, k)
  {
    hide Ready, N, Arrived, Interchange.Entry, data.departure.LargestDelay, AllCutCleanly, InterchangeData.Valid;
    if k <= data.feeder.waitingTime {
      InterchangeExact(data, k);
    } else {
      EntriesUpTo(data, k - 1);
      LateStep(data, k);
      assert Interchange.Entries(data)[k] == Interchange.Entry(data, k);
      assert Prefix(Interchange.Entries(data), k + 1) == Prefix(Interchange.Entries(data), k) + Interchange.Entries(data)[k];
      LaterStep(data, k);
    }
  }

  lemma LaterStep(data: InterchangeData, k: nat)
    requires data.feeder.waitingTime < k
    ensures var d := data.departure;
            GoneBy(data, k) == GoneBy(data, k - 1) + (Ready(d, k) * N(d, k) - Ready(d, k - 1) * N(d, k - 1)) * Arrived(data, k)
  {
  }

  /** After the largest delay nothing more departs. */
  lemma {:induction false} NothingLater(data: InterchangeData, k: nat)
    requires data.Valid() && k >= data.departure.LargestDelay()
    ensures GoneBy(data, k) == GoneBy(data, data.departure.LargestDelay())
  {
    hide Ready, N, Arrived, data.departure.LargestDelay, GoneBy;
    var d := data.departure;
    WaitingIntervalWithinLargestDelay(data);
    if k > d.LargestDelay() {
      NothingLater(data, k - 1);
      AllReady(d, k);
      AllReady(d, k - 1);
      LaterStep(data, k);
    }
  }

  /** With clean cuts, and if trimming drops only zeros, this is exact for every delay. */
  lemma InterchangeMinutes(data: InterchangeData, k: nat)
    requires data.Valid() && data.departure.message.None?
    requires AllCutCleanly(data.departure.feeders) && DropsOnlyZeros(Interchange.Entries(data))
    ensures InterchangeDistribution(data).SmallerEqual(k) == GoneBy(data, k)
  {
    hide GoneBy, Interchange.Entry, data.departure.LargestDelay, AllCutCleanly;
    EntriesNotEmpty(data);
    var p, last := Interchange.Entries(data), data.departure.LargestDelay();
    if k <= last {
      EntriesUpTo(data, k);
      InitQueries(p, 0, k);
    } else {
      EntriesUpTo(data, last);
      NothingLater(data, k);
      InitOutside(p, 0, k);
    }
  }

  // ----- In the terms of the schedule

  /** The passenger has arrived and changed within k minutes after the scheduled departure. */
  function ChangedWithin(change: Change, arrival: Distribution, scheduled: int, k: int): real {
    arrival.SmallerEqual(scheduled + k - change.transferTime - change.scheduledArrival)
  }

  /** The predecessors without the arrival the passenger changes from: every other one is kept, as often as it was there. */
  lemma {:induction false} OthersKept(predecessors: seq<Predecessor>, key: int, p: Predecessor)
    ensures multiset(ExceptKey(predecessors, key))[p] == if p.key == key then 0 else multiset(predecessors)[p]
  {
    if predecessors != [] {
      OthersKept(predecessors[1..], key, p);
      assert predecessors == [predecessors[0]] + predecessors[1..];
    }
  }

  /** The train is ready, and nobody but the passenger is awaited. */
  function TrainGoes(scheduled: int, source: TrainSource, predecessors: seq<Predecessor>, change: Change, k: int): real {
    ReadyWithin(source, scheduled, k) * NobodyAwaited(ExceptKey(predecessors, change.key), source.Key(), scheduled, k)
  }

  /** Departing with at most k minutes of delay: the train waits for the passenger for the waiting time of the change. */
  function GoneWithin(scheduled: int, source: TrainSource, predecessors: seq<Predecessor>, change: Change, arrival: Distribution, k: nat): real {
    if k <= change.waitingTime then
      TrainGoes(scheduled, source, predecessors, change, k) * ChangedWithin(change, arrival, scheduled, k)
    else
      GoneWithin(scheduled, source, predecessors, change, arrival, k - 1)
      + (TrainGoes(scheduled, source, predecessors, change, k) - TrainGoes(scheduled, source, predecessors, change, k - 1))
        * ChangedWithin(change, arrival, scheduled, k)
  }

  lemma ChangeMeans(scheduled: int, source: TrainSource, predecessors: seq<Predecessor>, change: Change, arrival: Distribution, k: int)
    ensures var data := InterchangeDataOf(scheduled, None, source, predecessors, change, arrival);
            && data.departure.message.None? && data.feeder.waitingTime == change.waitingTime
            && Arrived(data, k) == ChangedWithin(change, arrival, scheduled, k)
            && Ready(data.departure, k) * N(data.departure, k) == TrainGoes(scheduled, source, predecessors, change, k)
  {
    var rest := ExceptKey(predecessors, change.key);
    ReadyMeans(scheduled, None, source, rest, k);
    hide NoWaiting, NobodyAwaited, ReadyWithin;
    WaitingMeans(rest, source.Key(), scheduled, k);
  }

  lemma {:induction false} GoneMeans(scheduled: int, source: TrainSource, predecessors: seq<Predecessor>, change: Change, arrival: Distribution, k: nat)
    ensures GoneBy(InterchangeDataOf(scheduled, None, source, predecessors, change, arrival), k) ==
            GoneWithin(scheduled, source, predecessors, change, arrival, k)
  {
    var data := InterchangeDataOf(scheduled, None, source, predecessors, change, arrival);
    hide Ready, N, Arrived, InterchangeDataOf, ChangedWithin, TrainGoes;
    ChangeMeans(scheduled, source, predecessors, change, arrival, k);
    if k <= change.waitingTime {
      Commute(Ready(data.departure, k), Arrived(data, k), N(data.departure, k));
    } else {
      GoneMeans(scheduled, source, predecessors, change, arrival, k - 1);
      ChangeMeans(scheduled, source, predecessors, change, arrival, k - 1);
    }
  }

  lemma Commute(a: real, b: real, c: real)
    ensures a * b * c == (a * c) * b
  {
  }

  /** In the terms of the schedule, for every delay. */
  lemma InterchangeMeans(scheduled: int, source: TrainSource, predecessors: seq<Predecessor>, change: Change, arrival: Distribution, k: nat)
    requires source.Valid(scheduled) && arrival.Valid() && forall p :: p in predecessors ==> p.Valid()
    requires var data := InterchangeDataOf(scheduled, None, source, predecessors, change, arrival);
             AllCutCleanly(data.departure.feeders) && DropsOnlyZeros(Interchange.Entries(data))
    ensures InterchangeDistribution(InterchangeDataOf(scheduled, None, source, predecessors, change, arrival)).SmallerEqual(k) ==
            GoneWithin(scheduled, source, predecessors, change, arrival, k)
  {
    hide *;
    InterchangeDataValid(scheduled, None, source, predecessors, change, arrival);
    ChangeMeans(scheduled, source, predecessors, change, arrival, k);
    GoneMeans(scheduled, source, predecessors, change, arrival, k);
    InterchangeMinutes(InterchangeDataOf(scheduled, None, source, predecessors, change, arrival), k);
  }

  /** With a message, all of the arriving mass is at its delay, and at zero if it is early. */
  lemma ReportedInterchange(scheduled: int, reported: int, source: TrainSource, predecessors: seq<Predecessor>, change: Change,
                            arrival: Distribution, k: int)
    ensures InterchangeDistribution(InterchangeDataOf(scheduled, Some(reported), source, predecessors, change, arrival)).SmallerEqual(k) ==
            if k >= 0 && k >= reported - scheduled then arrival.Mass() else 0.0
  {
  }

  /** Nobody departs early. */
  lemma NoEarlyInterchange(data: InterchangeData, k: int)
    requires data.Valid() && k < 0
    ensures InterchangeDistribution(data).SmallerEqual(k) == 0.0
  {
    hide Interchange.Entry;
    if data.departure.message.None? {
      InterchangeProperties.EntriesCount(data);
      InitOutside(Interchange.Entries(data), 0, k);
    }
  }
}
