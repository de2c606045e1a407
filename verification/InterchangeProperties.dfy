/** How much mass an interchange passes on. */
module InterchangeProperties {
  import opened Sums
  import opened Distributions
  import opened Departure
  import opened FeederProperties
  import opened WaitingAlgebra
  import opened DepartureProperties
  import opened Interchange

  /** The passenger is there, with transfer, by delay k. */
  function Arrived(data: InterchangeData, k: int): real {
    FeederArrived(data.feeder, data.departure.scheduledDeparture + k)
  }

  lemma ArrivedTerms(data: InterchangeData, k: int)
    requires data.Valid()
    ensures FeederArrivesAtTime(data.feeder, data.departure.scheduledDeparture + k) == Arrived(data, k) - Arrived(data, k - 1)
    ensures 0.0 <= Arrived(data, k - 1) <= Arrived(data, k) <= data.feeder.arrival.Mass()
  {
    var m := data.departure.scheduledDeparture + k - data.feeder.transferTime - data.feeder.scheduledArrival;
    EqualIsIncrement(data.feeder.arrival, m);
    ValidQueries(data.feeder.arrival, m - 1, m);
  }

  function ArrivedBy(data: InterchangeData): seq<real> {
    seq(data.departure.LargestDelay() + 1, k => Arrived(data, k))
  }

  /** The three phases of the program in the two forms of the waiting algebra. */
  lemma EntryForm(data: InterchangeData, k: nat)
    requires data.Valid()
    ensures var d, w := data.departure, data.feeder.waitingTime;
            Interchange.Entry(data, k) ==
            if k == 0 then FirstEntry(Ready(d, 0), Arrived(data, 0), N(d, 0))
            else if k <= w then WithinEntry(Ready(d, k - 1), Ready(d, k), Arrived(data, k - 1), Arrived(data, k), N(d, k), M(d, k - 1), M(d, k))
            else LateEntry(Ready(d, k - 1), Ready(d, k), Arrived(data, k), N(d, k), M(d, k - 1), M(d, k))
  {
    hide NoWaiting, NoCutAfter, Ready, CutDistributions, TrainArrived, TrainArrivesAtTime, TrainArrivesBeforeTime,
      FeederArrived, FeederArrivesAtTime, WithinEntry, LateEntry, Interchange.WithinWaitingInterval, AfterWaitingInterval;
    if k == 0 {
      TrainTerms(data.departure, 0);
    } else if k <= data.departure.maximumWaitingTime {
      WithinForm(data, k);
    } else {
      AfterForm(data, k);
    }
  }

  lemma WithinForm(data: InterchangeData, k: nat)
    requires data.Valid() && 0 < k <= data.departure.maximumWaitingTime
    ensures var d := data.departure;
            Interchange.WithinWaitingInterval(data, CutDistributions(d.feeders), d.scheduledDeparture + k) ==
            if k <= data.feeder.waitingTime
            then WithinEntry(Ready(d, k - 1), Ready(d, k), Arrived(data, k - 1), Arrived(data, k), N(d, k), M(d, k - 1), M(d, k))
            else LateEntry(Ready(d, k - 1), Ready(d, k), Arrived(data, k), N(d, k), M(d, k - 1), M(d, k))
  {
    hide NoWaiting, NoCutAfter, Ready, CutDistributions, TrainArrived, TrainArrivesAtTime, TrainArrivesBeforeTime,
      FeederArrived, FeederArrivesAtTime;
    TrainTerms(data.departure, k);
    ArrivedTerms(data, k);
  }

  lemma AfterForm(data: InterchangeData, k: nat)
    requires data.Valid() && k > data.departure.maximumWaitingTime
    ensures data.feeder.waitingTime < k
    ensures var d := data.departure;
            AfterWaitingInterval(data, d.scheduledDeparture + k) == LateEntry(Ready(d, k - 1), Ready(d, k), Arrived(data, k), N(d, k), M(d, k - 1), M(d, k))
  {
    hide NoWaiting, NoCutAfter, Ready, TrainArrived, TrainArrivesAtTime, TrainArrivesBeforeTime,
      FeederArrived, FeederArrivesAtTime, LateEntry;
    var d := data.departure;
    TrainTerms(d, k);
    WaitingBounds(d, k);
    WaitingBounds(d, k - 1);
    NoFeederLeft(Ready(d, k - 1), Ready(d, k), Arrived(data, k));
  }

  lemma NoFeederLeft(F0: real, F: real, G: real)
    ensures LateEntry(F0, F, G, 1.0, 1.0, 1.0) == G * (F - F0)
  {
  }

  lemma SequenceForms(data: InterchangeData)
    requires data.Valid()
    ensures var d := data.departure;
            && InterchangeEntries(Interchange.Entries(data), ReadyBy(d), NotWaiting(d), CutNotWaiting(d), ArrivedBy(data), data.feeder.waitingTime)
            && Interchanging(ReadyBy(d), NotWaiting(d), CutNotWaiting(d), ArrivedBy(data), DroppedMass(d.feeders))
            && forall k :: 0 <= k < |ArrivedBy(data)| ==> ArrivedBy(data)[k] <= data.feeder.arrival.Mass()
  {
    hide Interchange.Entry, Ready, N, M, Arrived, FirstEntry, WithinEntry, LateEntry, DroppedMass, data.departure.LargestDelay;
    var d, w, entries := data.departure, data.feeder.waitingTime, Interchange.Entries(data);
    var F, n, m, G := ReadyBy(d), NotWaiting(d), CutNotWaiting(d), ArrivedBy(data);
    DepartureProperties.SequenceForms(d);
    forall k | 0 <= k < |G|
      ensures 0.0 <= G[k] <= data.feeder.arrival.Mass() && (k > 0 ==> G[k - 1] <= G[k])
      ensures k > 0 ==> entries[k] == if k <= w then WithinEntry(F[k - 1], F[k], G[k - 1], G[k], n[k], m[k - 1], m[k])
                                      else LateEntry(F[k - 1], F[k], G[k], n[k], m[k - 1], m[k])
      ensures k == 0 ==> entries[k] == FirstEntry(F[0], G[0], n[0])
    {
      EntryForm(data, k);
      ArrivedTerms(data, k);
    }
  }

  /** The entries are non-negative, and their sum lies between two products. */
  lemma EntriesBounds(data: InterchangeData)
    requires data.Valid()
    ensures NonNegative(Interchange.Entries(data))
    ensures var F := data.departure.TrainDistribution().Mass();
            && Level(F, Arrived(data, data.feeder.waitingTime), 1.0, DroppedMass(data.departure.feeders)) <= Total(Interchange.Entries(data))
            && Total(Interchange.Entries(data)) <= Level(F, data.feeder.arrival.Mass(), 1.0, 0.0)
  {
    hide *;
    var d := data.departure;
    DepartureIsValid(data);
    WaitingAtLargestDelay(d);
    WaitingIntervalWithinLargestDelay(data);
    EntriesNonNegative(data);
    LastPartialSum(data, d.LargestDelay());
    ReadyAtLargestDelay(d);
  }

  lemma DepartureIsValid(data: InterchangeData)
    requires data.Valid()
    ensures data.departure.Valid()
  {
  }

  lemma EntriesNonNegative(data: InterchangeData)
    requires data.Valid() && data.feeder.waitingTime <= data.departure.LargestDelay()
    ensures NonNegative(Interchange.Entries(data))
  {
    hide Interchange.Entry, Ready, N, M, Arrived, DroppedMass, data.departure.LargestDelay, InterchangeEntries, Interchanging, Level;
    var d, w, entries := data.departure, data.feeder.waitingTime, Interchange.Entries(data);
    SequenceForms(data);
    forall k: nat | k < |entries|
      ensures entries[k] >= 0.0
    {
      if k <= w {
        WithinPartialSums(entries, ReadyBy(d), NotWaiting(d), CutNotWaiting(d), ArrivedBy(data), w, DroppedMass(d.feeders), k);
      } else {
        LatePartialSums(entries, ReadyBy(d), NotWaiting(d), CutNotWaiting(d), ArrivedBy(data), w, DroppedMass(d.feeders), data.feeder.arrival.Mass(), k);
      }
    }
  }

  lemma LastPartialSum(data: InterchangeData, last: nat)
    requires data.Valid() && data.feeder.waitingTime <= last == data.departure.LargestDelay()
    ensures var d, E := data.departure, DroppedMass(data.departure.feeders);
            Level(Ready(d, last), Arrived(data, data.feeder.waitingTime), M(d, last), E) <= Total(Interchange.Entries(data))
            <= Level(Ready(d, last), data.feeder.arrival.Mass(), M(d, last), 0.0)
  {
    hide Interchange.Entry, Ready, N, M, Arrived, DroppedMass, data.departure.LargestDelay, InterchangeEntries, Interchanging, Level;
    var d := data.departure;
    SequenceForms(data);
    LatePartialSums(Interchange.Entries(data), ReadyBy(d), NotWaiting(d), CutNotWaiting(d), ArrivedBy(data),
                    data.feeder.waitingTime, DroppedMass(d.feeders), data.feeder.arrival.Mass(), last);
  }

  lemma WaitingIntervalWithinLargestDelay(data: InterchangeData)
    requires data.Valid()
    ensures data.feeder.waitingTime <= data.departure.LargestDelay()
  {
  }

  // ----- Main results

  /** For every interchange: a valid distribution starting at delay zero or later. A message passes the whole arriving mass on.
      Otherwise the mass is at most the arriving mass times the train's mass, and at least the mass arriving within the
      interchange feeder's waiting interval times the train's mass, up to the mass dropped by trimming. */
  lemma InterchangeMass(data: InterchangeData)
    requires data.Valid()
    ensures var r, F, G := InterchangeDistribution(data), data.departure.TrainDistribution().Mass(), data.feeder.arrival.Mass();
            && r.Valid() && r.firstMinute >= 0 && r.cumulative != []
            && (data.departure.message.Some? ==> r.Mass() == G)
            && (data.departure.message.None? ==>
                  F * Arrived(data, data.feeder.waitingTime) * (1.0 - DroppedMass(data.departure.feeders)) <= r.Mass() <= F * G)
  {
    hide Interchange.Entries, Level, Arrived, DroppedMass;
    EntriesBounds(data);
    LevelForms(data.departure.TrainDistribution().Mass(), Arrived(data, data.feeder.waitingTime), DroppedMass(data.departure.feeders));
    LevelForms(data.departure.TrainDistribution().Mass(), data.feeder.arrival.Mass(), 0.0);
    if data.departure.message.None? {
      EntriesCount(data);
      TrimKeepsMass(Interchange.Entries(data), 0);
      InitValid(Interchange.Entries(data), 0);
    } else {
      ArrivedTerms(data, 0);
    }
  }

  lemma EntriesCount(data: InterchangeData)
    ensures Interchange.Entries(data) != []
  {
  }

  lemma LevelForms(F: real, G: real, E: real)
    ensures Level(F, G, 1.0, E) == F * G * (1.0 - E)
    ensures Level(F, G, 1.0, 0.0) == F * G
  {
  }

  /** The bound the program asserts: changing trains never increases the mass, provided the train's mass is at most one. */
  lemma InterchangeNeverGains(data: InterchangeData)
    requires data.Valid() && data.departure.TrainDistribution().Mass() <= 1.0
    ensures InterchangeDistribution(data).Mass() <= data.feeder.arrival.Mass()
  {
    hide InterchangeDistribution, Arrived, DroppedMass, Level;
    ArrivedTerms(data, 0);
    if data.departure.message.None? {
      MassOfEntries(data);
      EntriesBounds(data);
      AtMostOne(data.departure.TrainDistribution().Mass(), data.feeder.arrival.Mass());
    } else {
      InterchangeOfMessage(data);
    }
  }

  lemma InterchangeOfMessage(data: InterchangeData)
    requires data.departure.message.Some?
    ensures InterchangeDistribution(data).Mass() == data.feeder.arrival.Mass()
  {
  }

  lemma MassOfEntries(data: InterchangeData)
    requires data.departure.message.None?
    ensures InterchangeDistribution(data).Mass() == Total(Interchange.Entries(data))
  {
    TrimKeepsMass(Interchange.Entries(data), 0);
  }

  lemma AtMostOne(F: real, G: real)
    requires F <= 1.0 && 0.0 <= G
    ensures Level(F, G, 1.0, 0.0) <= G
  {
    ProductMonotone(F, 1.0, G);
  }

  /** With clean cuts, partial sums within the interchange feeder's waiting interval are exactly the product of the
      three cumulative probabilities. */
  lemma InterchangeExact(data: InterchangeData, k: nat)
    requires data.Valid() && AllCutCleanly(data.departure.feeders) && k <= data.feeder.waitingTime
    ensures k < |Interchange.Entries(data)|
    ensures Prefix(Interchange.Entries(data), k + 1) == Ready(data.departure, k) * Arrived(data, k) * N(data.departure, k)
  {
    hide *;
    WaitingIntervalWithinLargestDelay(data);
    ExactLevel(data, k);
    LevelIsTriple(Ready(data.departure, k), Arrived(data, k), N(data.departure, k));
  }

  lemma ExactLevel(data: InterchangeData, k: nat)
    requires data.Valid() && AllCutCleanly(data.departure.feeders) && k <= data.feeder.waitingTime <= data.departure.LargestDelay()
    ensures k < |Interchange.Entries(data)|
    ensures Prefix(Interchange.Entries(data), k + 1) == Level(Ready(data.departure, k), Arrived(data, k), N(data.departure, k), 0.0)
  {
    hide Interchange.Entry, Ready, N, M, Arrived, FirstEntry, WithinEntry, LateEntry, Level, DroppedMass, data.departure.LargestDelay;
    var d := data.departure;
    CleanCutsDropNothing(d.feeders);
    SequenceForms(data);
    WaitingBounds(d, k);
    WithinPartialSums(Interchange.Entries(data), ReadyBy(d), NotWaiting(d), CutNotWaiting(d), ArrivedBy(data), data.feeder.waitingTime, 0.0, k);
  }

  lemma LevelIsTriple(F: real, G: real, n: real)
    ensures Level(F, G, n, 0.0) == F * G * n
  {
  }
}
