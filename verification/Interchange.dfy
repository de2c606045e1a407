/** Departure distributions after an interchange: a third factor for the passenger's own arrival. */
module Interchange {
  import opened Options
  import opened Distributions
  import opened Departure

  /** The arrival the passenger changes from. */
  datatype InterchangeFeeder = InterchangeFeeder(
      scheduledArrival: int, arrival: Distribution, transferTime: int, waitingTime: nat, latestFeasibleArrival: int)

  datatype InterchangeData = InterchangeData(departure: DepartureData, feeder: InterchangeFeeder) {

    /** What the constructors of the program establish. */
    ghost predicate Valid() {
      && departure.Valid() && feeder.arrival.Valid()
      && feeder.waitingTime <= departure.maximumWaitingTime
      && feeder.latestFeasibleArrival == departure.scheduledDeparture - feeder.transferTime + feeder.waitingTime
    }
  }

  /** The feeders of the departure without the arrival the passenger changes from. */
  function ExceptKey(predecessors: seq<Predecessor>, key: int): (rest: seq<Predecessor>)
    ensures forall p :: p in rest <==> p in predecessors && p.key != key
  {
    if predecessors == [] then []
    else (if predecessors[0].key == key then [] else [predecessors[0]]) + ExceptKey(predecessors[1..], key)
  }

  /** The change into a departure: the arriving event, the transfer, and how long the departing train waits for it. */
  datatype Change = Change(key: int, scheduledArrival: int, transferTime: int, waitingTime: nat)

  function InterchangeDataOf(scheduled: int, message: Option<int>, source: TrainSource, predecessors: seq<Predecessor>,
                             change: Change, arrival: Distribution): InterchangeData {
    var departure := DepartureDataOf(scheduled, message, source, ExceptKey(predecessors, change.key));
    InterchangeData(
      departure.(maximumWaitingTime := if departure.maximumWaitingTime < change.waitingTime then change.waitingTime else departure.maximumWaitingTime),
      InterchangeFeeder(change.scheduledArrival, arrival, change.transferTime, change.waitingTime,
                        scheduled - change.transferTime + change.waitingTime))
  }

  lemma InterchangeDataValid(scheduled: int, message: Option<int>, source: TrainSource, predecessors: seq<Predecessor>,
                             change: Change, arrival: Distribution)
    requires source.Valid(scheduled) && arrival.Valid()
    requires forall p :: p in predecessors ==> p.Valid()
    ensures InterchangeDataOf(scheduled, message, source, predecessors, change, arrival).Valid()
  {
    DepartureDataValid(scheduled, message, source, ExceptKey(predecessors, change.key));
  }

  class DataDepartureInterchange {
    var departure: DataDeparture
    var feeder: InterchangeFeeder

    function Data(): InterchangeData
      reads this, departure
    {
      InterchangeData(departure.Data(), feeder)
    }

    constructor (scheduled: int, isMessage: Option<int>, source: TrainSource, predecessors: seq<Predecessor>,
                 change: Change, arrival: Distribution)
      ensures Data() == InterchangeDataOf(scheduled, isMessage, source, predecessors, change, arrival)
    {
      departure := new DataDeparture(scheduled, isMessage, source, ExceptKey(predecessors, change.key));
      feeder := InterchangeFeeder(change.scheduledArrival, arrival, change.transferTime, change.waitingTime,
                                  scheduled - change.transferTime + change.waitingTime);
      new;
      if departure.maximumWaitingTime < change.waitingTime {
        departure.maximumWaitingTime := change.waitingTime;
      }
    }
  }

  /** The passenger has arrived early enough to change at `timestamp`. */
  function FeederArrived(feeder: InterchangeFeeder, timestamp: int): real {
    feeder.arrival.SmallerEqual(timestamp - feeder.transferTime - feeder.scheduledArrival)
  }

  function FeederArrivesAtTime(feeder: InterchangeFeeder, timestamp: int): real {
    feeder.arrival.Equal(timestamp - feeder.transferTime - feeder.scheduledArrival)
  }

  function ScheduledEntry(data: InterchangeData): real {
    FeederArrived(data.feeder, data.departure.scheduledDeparture)
    * TrainArrived(data.departure)
    * NoWaiting(data.departure.feeders, data.departure.scheduledDeparture)
  }

  function WithinWaitingInterval(data: InterchangeData, cuts: seq<Distribution>, timestamp: int): real
    requires |data.departure.feeders| == |cuts|
  {
    var arrived := FeederArrived(data.feeder, timestamp);
    var independent := NoWaiting(data.departure.feeders, timestamp);
    var hadToWait := HadToWait(data.departure.feeders, cuts, timestamp);
    var probWaiting := hadToWait * arrived
      + (if timestamp - data.feeder.transferTime <= data.feeder.latestFeasibleArrival
         then FeederArrivesAtTime(data.feeder, timestamp) * (independent - hadToWait) else 0.0);
    TrainArrivesAtTime(data.departure, timestamp) * independent * arrived
    + TrainArrivesBeforeTime(data.departure, timestamp) * probWaiting
  }

  function AfterWaitingInterval(data: InterchangeData, timestamp: int): real {
    FeederArrived(data.feeder, timestamp) * TrainArrivesAtTime(data.departure, timestamp)
  }

  function Entry(data: InterchangeData, delay: nat): real {
    if delay == 0 then ScheduledEntry(data)
    else if delay <= data.departure.maximumWaitingTime then
      WithinWaitingInterval(data, CutDistributions(data.departure.feeders), data.departure.scheduledDeparture + delay)
    else AfterWaitingInterval(data, data.departure.scheduledDeparture + delay)
  }

  function Entries(data: InterchangeData): seq<real> {
    seq(data.departure.LargestDelay() + 1, delay requires 0 <= delay => Entry(data, delay))
  }

  function InterchangeDistribution(data: InterchangeData): Distribution {
    match data.departure.message
    case Some(currentTime) =>
      OnePoint(if currentTime > data.departure.scheduledDeparture then currentTime - data.departure.scheduledDeparture else 0,
               data.feeder.arrival.Mass())
    case None => Init(Entries(data), 0)
  }

  method DepartureWithinWaitingInterval(data: InterchangeData, cuts: seq<Distribution>, timestamp: int) returns (p: real)
    requires |data.departure.feeders| == |cuts|
    ensures p == WithinWaitingInterval(data, cuts, timestamp)
  {
    var arrived := FeederArrived(data.feeder, timestamp);
    var arrivesAtTime := FeederArrivesAtTime(data.feeder, timestamp);
    var independent := DepartureIndependentFromFeeders(data.departure.feeders, timestamp);
    var hadToWait := HadToWaitForFeeders(data.departure.feeders, cuts, timestamp);
    var probWaiting := hadToWait * arrived;
    if timestamp - data.feeder.transferTime <= data.feeder.latestFeasibleArrival {
      probWaiting := probWaiting + arrivesAtTime * (independent - hadToWait);
    }
    var trainHasDelay := TrainArrivesAtTime(data.departure, timestamp) * independent * arrived;
    var trainWaits := TrainArrivesBeforeTime(data.departure, timestamp) * probWaiting;
    p := trainHasDelay + trainWaits;
  }

  method ComputeEntry(data: InterchangeData, cuts: seq<Distribution>, delay: nat) returns (p: real)
    requires cuts == CutDistributions(data.departure.feeders)
    ensures p == Entry(data, delay)
  {
    hide NoWaiting, TrainArrived, FeederArrived, TrainArrivesAtTime, WithinWaitingInterval;
    var departureTime := data.departure.scheduledDeparture + delay;
    if delay == 0 {
      var independent := DepartureIndependentFromFeeders(data.departure.feeders, departureTime);
      p := FeederArrived(data.feeder, departureTime) * TrainArrived(data.departure) * independent;
    } else if delay <= data.departure.maximumWaitingTime {
      p := DepartureWithinWaitingInterval(data, cuts, departureTime);
    } else {
      p := AfterWaitingInterval(data, departureTime);
    }
  }

  method ComputeDepartureDistribution(data: InterchangeData, departure: ProbabilityDistribution)
    modifies departure
    ensures departure.Value() == InterchangeDistribution(data)
  {
    if data.departure.message.Some? {
      var delay := data.departure.message.value - data.departure.scheduledDeparture;
      departure.InitOnePoint(if delay > 0 then delay else 0, data.feeder.arrival.Mass());
      return;
    }
    var probabilities: seq<real> := [];
    var cuts := CutMinutesAfterLatestFeasibleArrival(data.departure.feeders);
    for delay := 0 to data.departure.LargestDelay() + 1
      invariant |probabilities| == delay
      invariant forall k: nat :: k < delay ==> probabilities[k] == Entry(data, k)
    {
      var p := ComputeEntry(data, cuts, delay);
      probabilities := probabilities + [p];
    }
    assert probabilities == Entries(data);
    departure.Init(probabilities, 0);
  }
}
