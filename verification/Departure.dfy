/** Departure distributions of a train: on schedule, within the waiting interval, and after it. */
module Departure {
  import opened Sums
  import opened Options
  import opened Distributions

  /** An arrival whose passengers the departing train may wait for. */
  datatype Feeder = Feeder(distribution: Distribution, scheduledArrival: int, latestFeasibleArrival: int, transferTime: int) {

    ghost predicate Valid() {
      distribution.Valid() && distribution.Mass() <= 1.0
    }

    /** The largest arrival delay for which the departing train still waits. */
    function LatestFeasibleDelay(): int {
      latestFeasibleArrival - scheduledArrival
    }

    /** The arrival delay from which changing at `timestamp` is just possible. */
    function DelayAt(timestamp: int): int {
      timestamp - transferTime - scheduledArrival
    }
  }

  /** What the train itself brings: its start distribution, or its arrival at this station. */
  datatype TrainInfo =
    | FirstDeparture(start: Distribution)
    | PrecedingArrival(scheduledArrival: int, arrival: Distribution, minStanding: int)

  datatype DepartureData = DepartureData(
      scheduledDeparture: int, train: TrainInfo, feeders: seq<Feeder>, maximumWaitingTime: nat, message: Option<int>) {

    function TrainDistribution(): Distribution {
      match train
      case FirstDeparture(start) => start
      case PrecedingArrival(_, arrival, _) => arrival
    }

    function LargestDelay(): nat {
      var trainDelay :=
        match train
        case FirstDeparture(start) => start.LastMinute()
        case PrecedingArrival(scheduledArrival, arrival, minStanding) =>
          var latestArrival := scheduledArrival + arrival.LastMinute() + minStanding;
          if latestArrival < scheduledDeparture then 0 else latestArrival - scheduledDeparture;
      if trainDelay > maximumWaitingTime then trainDelay else maximumWaitingTime
    }

    /** What the constructors of the program establish. */
    ghost predicate Valid() {
      && TrainDistribution().Valid()
      && forall f :: f in feeders ==> f.Valid() && f.latestFeasibleArrival + f.transferTime <= scheduledDeparture + maximumWaitingTime
    }
  }

  // ----- Collecting the data

  /** An incoming edge of the departure in the dependency graph; `key` identifies the event. */
  datatype Predecessor = Predecessor(key: int, pd: Distribution, scheduledArrival: int, waitingTime: nat, transferTime: int) {
    ghost predicate Valid() {
      pd.Valid() && pd.Mass() <= 1.0
    }
  }

  /** Where the train's own distribution comes from. */
  datatype TrainSource =
    | Start(start: Distribution)
    | Arrival(key: int, scheduledArrival: int, arrival: Distribution) {

    ghost predicate Valid(scheduledDeparture: int) {
      match this
      case Start(start) => start.Valid()
      case Arrival(_, scheduledArrival, arrival) => arrival.Valid() && scheduledArrival <= scheduledDeparture
    }

    /** The event that must not count as a feeder. */
    function Key(): Option<int> {
      match this
      case Start(_) => None
      case Arrival(key, _, _) => Some(key)
    }
  }

  function TrainOf(scheduledDeparture: int, source: TrainSource): TrainInfo {
    match source
    case Start(start) => FirstDeparture(start)
    case Arrival(_, scheduledArrival, arrival) =>
      PrecedingArrival(scheduledArrival, arrival, MinStanding(scheduledDeparture, scheduledArrival))
  }

  function FeederOf(scheduledDeparture: int, p: Predecessor): Feeder {
    Feeder(p.pd, p.scheduledArrival, scheduledDeparture + p.waitingTime - p.transferTime, p.transferTime)
  }

  function FeedersOf(scheduledDeparture: int, predecessors: seq<Predecessor>, skip: Option<int>): seq<Feeder> {
    if predecessors == [] then []
    else
      var n := |predecessors| - 1;
      FeedersOf(scheduledDeparture, predecessors[..n], skip)
      + (if skip == Some(predecessors[n].key) then [] else [FeederOf(scheduledDeparture, predecessors[n])])
  }

  /** The longest waiting time among the feeders. */
  function MaximumWaiting(predecessors: seq<Predecessor>, skip: Option<int>): nat {
    if predecessors == [] then 0
    else
      var n := |predecessors| - 1;
      var longest, p := MaximumWaiting(predecessors[..n], skip), predecessors[n];
      if skip != Some(p.key) && longest < p.waitingTime then p.waitingTime else longest
  }

  function DepartureDataOf(scheduled: int, message: Option<int>, source: TrainSource, predecessors: seq<Predecessor>): DepartureData {
    DepartureData(scheduled, TrainOf(scheduled, source), FeedersOf(scheduled, predecessors, source.Key()),
                  MaximumWaiting(predecessors, source.Key()), message)
  }

  /** Every feeder's waiting interval ends within the longest waiting time. */
  lemma {:induction false} FeedersValid(scheduled: int, predecessors: seq<Predecessor>, skip: Option<int>)
    requires forall p :: p in predecessors ==> p.Valid()
    ensures forall f :: f in FeedersOf(scheduled, predecessors, skip) ==>
              f.Valid() && f.latestFeasibleArrival + f.transferTime <= scheduled + MaximumWaiting(predecessors, skip)
  {
    if predecessors != [] {
      var n := |predecessors| - 1;
      assert predecessors[n] in predecessors;
      FeedersValid(scheduled, predecessors[..n], skip);
    }
  }

  lemma DepartureDataValid(scheduled: int, message: Option<int>, source: TrainSource, predecessors: seq<Predecessor>)
    requires source.Valid(scheduled)
    requires forall p :: p in predecessors ==> p.Valid()
    ensures DepartureDataOf(scheduled, message, source, predecessors).Valid()
  {
    FeedersValid(scheduled, predecessors, source.Key());
  }

  /** The object the program fills field by field. */
  class DataDeparture {
    var scheduledDeparture: int
    var train: TrainInfo
    var feeders: seq<Feeder>
    var maximumWaitingTime: nat
    var message: Option<int>

    function Data(): DepartureData
      reads this
    {
      DepartureData(scheduledDeparture, train, feeders, maximumWaitingTime, message)
    }

    /** The train either starts here or has arrived before; it then stands at most two minutes. */
    constructor (scheduled: int, isMessage: Option<int>, source: TrainSource, predecessors: seq<Predecessor>)
      ensures Data() == DepartureDataOf(scheduled, isMessage, source, predecessors)
    {
      scheduledDeparture, message, train, feeders, maximumWaitingTime := scheduled, isMessage, TrainOf(scheduled, source), [], 0;
      new;
      InitFeederInfo(predecessors, source.Key());
    }

    /** All predecessors but the train's own arrival become feeders; the longest waiting time wins. */
    method InitFeederInfo(predecessors: seq<Predecessor>, precedingKey: Option<int>)
      requires feeders == [] && maximumWaitingTime == 0
      modifies `feeders, `maximumWaitingTime
      ensures feeders == FeedersOf(scheduledDeparture, predecessors, precedingKey)
      ensures maximumWaitingTime == MaximumWaiting(predecessors, precedingKey)
    {
      for i := 0 to |predecessors|
        invariant feeders == FeedersOf(scheduledDeparture, predecessors[..i], precedingKey)
        invariant maximumWaitingTime == MaximumWaiting(predecessors[..i], precedingKey)
      {
        var p := predecessors[i];
        assert predecessors[..i + 1][..i] == predecessors[..i];
        if precedingKey != Some(p.key) {
          feeders := feeders + [FeederOf(scheduledDeparture, p)];
          if maximumWaitingTime < p.waitingTime {
            maximumWaitingTime := p.waitingTime;
          }
        }
      }
      assert predecessors[..|predecessors|] == predecessors;
    }
  }

  function MinStanding(scheduledDeparture: int, scheduledArrival: int): int {
    if scheduledDeparture - scheduledArrival < 2 then scheduledDeparture - scheduledArrival else 2
  }

  // ----- The probabilities of the computation

  /** The train is there by the scheduled departure. */
  function TrainArrived(data: DepartureData): real {
    match data.train
    case FirstDeparture(start) => start.SmallerEqual(0)
    case PrecedingArrival(scheduledArrival, arrival, minStanding) =>
      arrival.SmallerEqual(data.scheduledDeparture - minStanding - scheduledArrival)
  }

  function TrainArrivesAtTime(data: DepartureData, timestamp: int): real {
    match data.train
    case FirstDeparture(start) => start.Equal(timestamp - data.scheduledDeparture)
    case PrecedingArrival(scheduledArrival, arrival, minStanding) =>
      arrival.Equal(timestamp - minStanding - scheduledArrival)
  }

  function TrainArrivesBeforeTime(data: DepartureData, timestamp: int): real {
    match data.train
    case FirstDeparture(start) => start.Smaller(timestamp - data.scheduledDeparture)
    case PrecedingArrival(scheduledArrival, arrival, minStanding) =>
      arrival.Smaller(timestamp - minStanding - scheduledArrival)
  }

  /** No waiting for this feeder at `timestamp`. */
  function NoWaitingFor(f: Feeder, timestamp: int): real {
    if timestamp - f.transferTime >= f.latestFeasibleArrival then 1.0
    else 1.0 - (f.distribution.SmallerEqual(f.LatestFeasibleDelay()) - f.distribution.SmallerEqual(f.DelayAt(timestamp)))
  }

  function NoWaitingFactors(feeders: seq<Feeder>, timestamp: int): seq<real> {
    seq(|feeders|, i requires 0 <= i < |feeders| => NoWaitingFor(feeders[i], timestamp))
  }

  /** The product over all feeders. */
  function NoWaiting(feeders: seq<Feeder>, timestamp: int): real {
    Product(NoWaitingFactors(feeders, timestamp), |feeders|)
  }

  method DepartureIndependentFromFeeders(feeders: seq<Feeder>, timestamp: int) returns (probNoWaiting: real)
    ensures probNoWaiting == NoWaiting(feeders, timestamp)
  {
    probNoWaiting := 1.0;
    for i := 0 to |feeders|
      invariant probNoWaiting == Product(NoWaitingFactors(feeders, timestamp), i)
    {
      var feeder := feeders[i];
      var waitingIntervalBegin := timestamp - feeder.transferTime;
      var factor := 1.0;
      if waitingIntervalBegin < feeder.latestFeasibleArrival {
        var probWaiting :=
          feeder.distribution.SmallerEqual(feeder.latestFeasibleArrival - feeder.scheduledArrival) -
          feeder.distribution.SmallerEqual(waitingIntervalBegin - feeder.scheduledArrival);
        factor := 1.0 - probWaiting;
      }
      probNoWaiting := probNoWaiting * factor;
    }
  }

  /** A feeder's per-minute values, with everything after the latest feasible arrival set to zero. */
  function CutValues(f: Feeder): seq<real> {
    var d := f.distribution;
    seq(|d.cumulative|, k => if d.firstMinute + k > f.LatestFeasibleDelay() then 0.0 else d.Equal(d.firstMinute + k))
  }

  function CutDistribution(f: Feeder): Distribution {
    Init(CutValues(f), f.distribution.firstMinute)
  }

  function CutDistributions(feeders: seq<Feeder>): seq<Distribution> {
    seq(|feeders|, i requires 0 <= i < |feeders| => CutDistribution(feeders[i]))
  }

  method CutMinutesAfterLatestFeasibleArrival(feeders: seq<Feeder>) returns (minutesUpToLfa: seq<Distribution>)
    ensures minutesUpToLfa == CutDistributions(feeders)
  {
    minutesUpToLfa := [];
    for i := 0 to |feeders|
      invariant |minutesUpToLfa| == i
      invariant forall k :: 0 <= k < i ==> minutesUpToLfa[k] == CutDistribution(feeders[k])
    {
      var probabilities := CutMinutes(feeders[i]);
      var cut := new ProbabilityDistribution();
      cut.Init(probabilities, feeders[i].distribution.firstMinute);
      minutesUpToLfa := minutesUpToLfa + [cut.Value()];
    }
  }

  method CutMinutes(feeder: Feeder) returns (probabilities: seq<real>)
    ensures probabilities == CutValues(feeder)
  {
    var d := feeder.distribution;
    probabilities := [];
    for delay := d.firstMinute to d.LastMinute() + 1
      invariant |probabilities| == delay - d.firstMinute
      invariant forall k :: 0 <= k < |probabilities| ==> probabilities[k] == CutValues(feeder)[k]
    {
      if delay > feeder.LatestFeasibleDelay() {
        probabilities := probabilities + [0.0];
      } else {
        probabilities := probabilities + [d.Equal(delay)];
      }
    }
  }

  function CutFactors(feeders: seq<Feeder>, cuts: seq<Distribution>, timestamp: int): seq<real>
    requires |feeders| == |cuts|
  {
    seq(|feeders|, i requires 0 <= i < |feeders| => 1.0 - cuts[i].Greater(feeders[i].DelayAt(timestamp)))
  }

  /** Every feeder's cut distribution lies at or before `timestamp`. */
  function NoCutAfter(feeders: seq<Feeder>, cuts: seq<Distribution>, timestamp: int): real
    requires |feeders| == |cuts|
  {
    Product(CutFactors(feeders, cuts, timestamp), |feeders|)
  }

  function HadToWait(feeders: seq<Feeder>, cuts: seq<Distribution>, timestamp: int): real
    requires |feeders| == |cuts|
  {
    NoCutAfter(feeders, cuts, timestamp) - NoCutAfter(feeders, cuts, timestamp - 1)
  }

  method HadToWaitForFeeders(feeders: seq<Feeder>, cuts: seq<Distribution>, timestamp: int) returns (p: real)
    requires |feeders| == |cuts|
    ensures p == HadToWait(feeders, cuts, timestamp)
  {
    if feeders == [] {
      return 0.0;
    }
    var delay1, delay2 := 1.0, 1.0;
    for i := 0 to |feeders|
      invariant delay1 == Product(CutFactors(feeders, cuts, timestamp), i)
      invariant delay2 == Product(CutFactors(feeders, cuts, timestamp - 1), i)
    {
      var feederDelay := timestamp - feeders[i].transferTime - feeders[i].scheduledArrival;
      delay1 := delay1 * (1.0 - cuts[i].Greater(feederDelay));
      delay2 := delay2 * (1.0 - cuts[i].Greater(feederDelay - 1));
    }
    p := delay1 - delay2;
  }

  function ScheduledEntry(data: DepartureData): real {
    TrainArrived(data) * NoWaiting(data.feeders, data.scheduledDeparture)
  }

  function WithinWaitingInterval(data: DepartureData, cuts: seq<Distribution>, timestamp: int): real
    requires |data.feeders| == |cuts|
  {
    TrainArrivesAtTime(data, timestamp) * NoWaiting(data.feeders, timestamp)
    + TrainArrivesBeforeTime(data, timestamp) * HadToWait(data.feeders, cuts, timestamp)
  }

  /** The probability of departing with exactly this delay. */
  function Entry(data: DepartureData, delay: nat): real {
    if delay == 0 then ScheduledEntry(data)
    else if delay <= data.maximumWaitingTime then
      WithinWaitingInterval(data, CutDistributions(data.feeders), data.scheduledDeparture + delay)
    else TrainArrivesAtTime(data, data.scheduledDeparture + delay)
  }

  function Entries(data: DepartureData): seq<real> {
    seq(data.LargestDelay() + 1, delay requires 0 <= delay => Entry(data, delay))
  }

  function DepartureDistribution(data: DepartureData): Distribution {
    match data.message
    case Some(currentTime) =>
      OnePoint(if currentTime > data.scheduledDeparture then currentTime - data.scheduledDeparture else 0,
               data.TrainDistribution().Mass())
    case None => Init(Entries(data), 0)
  }

  method DepartureWithinWaitingInterval(data: DepartureData, cuts: seq<Distribution>, timestamp: int) returns (p: real)
    requires |data.feeders| == |cuts|
    ensures p == WithinWaitingInterval(data, cuts, timestamp)
  {
    var noWaiting := DepartureIndependentFromFeeders(data.feeders, timestamp);
    var trainHasDelay := TrainArrivesAtTime(data, timestamp) * noWaiting;
    var hadToWait := HadToWaitForFeeders(data.feeders, cuts, timestamp);
    var feederHasDelay := TrainArrivesBeforeTime(data, timestamp) * hadToWait;
    p := trainHasDelay + feederHasDelay;
  }

  method ComputeEntry(data: DepartureData, cuts: seq<Distribution>, delay: nat) returns (p: real)
    requires cuts == CutDistributions(data.feeders)
    ensures p == Entry(data, delay)
  {
    var departureTime := data.scheduledDeparture + delay;
    if delay == 0 {
      var noWaiting := DepartureIndependentFromFeeders(data.feeders, departureTime);
      p := TrainArrived(data) * noWaiting;
    } else if delay <= data.maximumWaitingTime {
      p := DepartureWithinWaitingInterval(data, cuts, departureTime);
    } else {
      p := TrainArrivesAtTime(data, departureTime);
    }
  }

  method ComputeDepartureDistribution(data: DepartureData, departure: ProbabilityDistribution)
    modifies departure
    ensures departure.Value() == DepartureDistribution(data)
  {
    if data.message.Some? {
      var delay := data.message.value - data.scheduledDeparture;
      departure.InitOnePoint(if delay > 0 then delay else 0, data.TrainDistribution().Mass());
      return;
    }
    var probabilities: seq<real> := [];
    var cuts := CutMinutesAfterLatestFeasibleArrival(data.feeders);
    for delay := 0 to data.LargestDelay() + 1
      invariant |probabilities| == delay
      invariant forall k: nat :: k < delay ==> probabilities[k] == Entry(data, k)
    {
      var p := ComputeEntry(data, cuts, delay);
      probabilities := probabilities + [p];
    }
    assert probabilities == Entries(data);
    departure.Init(probabilities, 0);
  }
}
