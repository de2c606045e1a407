/** The delays of the stale update are those that the program computes. */
module RealtimeDelays {
  import opened Sums
  import opened Options
  import opened Distributions
  import opened Departure
  import opened Arrival
  import opened RealtimeStaleness

  /** A departure or arrival with a message has its delay, and the mass of the event before it. */
  lemma ReportedDelay(data: DepartureData, arrival: ArrivalData, late: nat)
    requires data.message == Some(data.scheduledDeparture + late) && data.TrainDistribution().Mass() == 1.0
    requires arrival.Valid() && arrival.message == Some(arrival.scheduledArrival + late) && arrival.departure.Mass() == 1.0
    ensures DepartureDistribution(data) == ArrivalDistribution(arrival) == OnePoint(late, 1.0)
  {
  }

  /** Without a message, and for a train class without travel times, the arrival takes over the departure. */
  lemma ArrivalTakesOver(x: Distribution, scheduledArrival: int)
    requires x == LOW || x == HIGH
    ensures ArrivalData(x, scheduledArrival, [], None).Valid()
    ensures ArrivalDistribution(ArrivalData(x, scheduledArrival, [], None)) == x
  {
  }

  /** A departure at t, when its train arrives, for which a feeder that arrives ten minutes before is waited for up to five
      minutes. */
  function StopData(t: int, x: Distribution, y: Distribution): DepartureData {
    DepartureDataOf(t, None, Arrival(0, t, x), [Predecessor(0, x, t, 0, 0), Predecessor(1, y, t - 10, 5, 1)])
  }

  lemma StopDataIs(t: int, x: Distribution, y: Distribution)
    ensures StopData(t, x, y) == DepartureData(t, PrecedingArrival(t, x, 0), [Feeder(y, t - 10, t + 4, 1)], 5, None)
  {
    var p := [Predecessor(0, x, t, 0, 0), Predecessor(1, y, t - 10, 5, 1)];
    assert p[..1] == [p[0]] && p[..1][..0] == [];
    assert FeedersOf(t, p[..1], Some(0)) == [] && MaximumWaiting(p[..1], Some(0)) == 0;
  }

  /** The feeder is always there in time, so nothing is waited for. */
  lemma NothingToWaitFor(t: int, y: Distribution, k: nat)
    requires y == LOW || y == HIGH
    ensures var feeders := [Feeder(y, t - 10, t + 4, 1)];
            NoWaiting(feeders, t + k) == 1.0 && NoCutAfter(feeders, CutDistributions(feeders), t + k) == 1.0
  {
    var f := Feeder(y, t - 10, t + 4, 1);
    var feeders := [f];
    assert NoWaitingFor(f, t + k) == 1.0;
    var cut := CutDistributions(feeders);
    var late := y.firstMinute;
    assert y.Equal(late) == 1.0;
    assert f.LatestFeasibleDelay() == 14 && late <= 1 && |CutValues(f)| == 1;
    assert forall k :: 0 <= k < 1 ==> CutValues(f)[k] == if late + k > f.LatestFeasibleDelay() then 0.0 else y.Equal(late + k);
    assert CutValues(f)[0] == y.Equal(late);
    assert Lo(CutValues(f)) == 0 && Hi(CutValues(f)) == 0;
    TrimKeepsMass(CutValues(f), late);
    assert Prefix(CutValues(f), 1) == Prefix(CutValues(f), 0) + CutValues(f)[0];
    assert cut[0].LastMinute() <= 1;
    assert CutFactors(feeders, cut, t + k)[0] == 1.0;
    assert NoWaitingFactors(feeders, t + k)[0] == 1.0;
    ProductOfOnes(CutFactors(feeders, cut, t + k), 1);
    ProductOfOnes(NoWaitingFactors(feeders, t + k), 1);
  }

  /** The departure takes over the delay of its train's arrival. */
  lemma DepartureTakesOver(t: int, x: Distribution, y: Distribution)
    requires (x == LOW || x == HIGH) && (y == LOW || y == HIGH)
    ensures StopData(t, x, y).Valid() && DepartureDistribution(StopData(t, x, y)) == x
  {
    StopDataIs(t, x, y);
    var data := StopData(t, x, y);
    var late := x.firstMinute;
    hide NoWaiting, NoCutAfter, CutDistributions;
    forall k: nat | k < |Entries(data)|
      ensures Entries(data)[k] == if k == late then 1.0 else 0.0
    {
      NothingToWaitFor(t, y, k);
      if k > 0 {
        NothingToWaitFor(t, y, k - 1);
      }
    }
    OneValue(Entries(data), 0, late);
  }
}
