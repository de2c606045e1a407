/** Splitting an arrival distribution at a stop: what still reaches a departure, and what stays uncovered. */
module TransferFilter {
  import opened Sums
  import opened Distributions

  datatype InterchangeInfo = InterchangeInfo(
      scheduledArrival: int, scheduledDeparture: int, departureTime: int, departureIs: bool, transferTime: int, waitingTime: int) {

    /** The last moment at which the train leaves. */
    function LatestDeparture(): int {
      if departureIs then departureTime else scheduledDeparture + waitingTime
    }

    /** The largest arrival delay that still reaches the train. */
    function LatestArrivalDelay(): int {
      LatestDeparture() - transferTime - scheduledArrival
    }
  }

  function FilterValues(arrival: Distribution, info: InterchangeInfo): seq<real> {
    var latest := info.LatestArrivalDelay();
    if latest >= arrival.firstMinute
    then seq(latest - arrival.firstMinute + 1, k => arrival.Equal(arrival.firstMinute + k))
    else [0.0]
  }

  function Filtered(arrival: Distribution, info: InterchangeInfo): Distribution {
    Init(FilterValues(arrival, info), arrival.firstMinute)
  }

  method ScheduledTransferFilter(arrival: Distribution, info: InterchangeInfo) returns (filtered: Distribution)
    ensures filtered == Filtered(arrival, info)
  {
    var latestArrivalDelay := info.LatestDeparture() - info.transferTime - info.scheduledArrival;
    var values: seq<real> := [];
    if latestArrivalDelay >= arrival.firstMinute {
      for d := arrival.firstMinute to latestArrivalDelay + 1
        invariant |values| == d - arrival.firstMinute
        invariant forall k :: 0 <= k < |values| ==> values[k] == arrival.Equal(arrival.firstMinute + k)
      {
        values := values + [arrival.Equal(d)];
      }
    } else {
      values := [0.0];
    }
    assert values == FilterValues(arrival, info);
    var pd := new ProbabilityDistribution();
    pd.Init(values, arrival.firstMinute);
    filtered := pd.Value();
  }

  predicate Reaches(info: InterchangeInfo, delay: int) {
    info.scheduledArrival + delay + info.transferTime <= info.LatestDeparture()
  }

  function UncoveredAt(arrival: Distribution, info: InterchangeInfo, delay: int): real {
    if Reaches(info, delay) then 0.0 else arrival.Equal(delay)
  }

  function UncoveredValues(arrival: Distribution, info: InterchangeInfo): seq<real> {
    seq(|arrival.cumulative|, k => UncoveredAt(arrival, info, arrival.firstMinute + k))
  }

  /** Empty when every arrival delay reaches the train. */
  function Uncovered(arrival: Distribution, info: InterchangeInfo): Distribution {
    if Reaches(info, arrival.LastMinute()) || arrival.cumulative == [] then EMPTY
    else Init(UncoveredValues(arrival, info), arrival.firstMinute)
  }

  method ComputeUncoveredArrivalDistribution(arrival: Distribution, info: InterchangeInfo) returns (uncovered: Distribution)
    ensures uncovered == Uncovered(arrival, info)
  {
    var isEmpty := true;
    var values: seq<real> := [];
    for d := arrival.firstMinute to arrival.LastMinute() + 1
      invariant |values| == d - arrival.firstMinute
      invariant forall k :: 0 <= k < |values| ==> values[k] == UncoveredAt(arrival, info, arrival.firstMinute + k)
      invariant isEmpty == (d == arrival.firstMinute || Reaches(info, d - 1))
    {
      if info.scheduledArrival + d + info.transferTime <= info.LatestDeparture() {
        values := values + [0.0];
      } else {
        values := values + [arrival.Equal(d)];
        isEmpty := false;
      }
    }
    assert values == UncoveredValues(arrival, info);
    var pd := new ProbabilityDistribution();
    if !isEmpty {
      pd.Init(values, arrival.firstMinute);
    }
    uncovered := pd.Value();
  }

  // ----- Conservation at a stop

  lemma {:induction false} FilterPrefix(arrival: Distribution, info: InterchangeInfo, k: nat)
    requires info.LatestArrivalDelay() >= arrival.firstMinute && k <= |FilterValues(arrival, info)|
    ensures Prefix(FilterValues(arrival, info), k) == arrival.SmallerEqual(arrival.firstMinute + k - 1)
  {
    if k > 0 {
      FilterPrefix(arrival, info, k - 1);
      EqualIsIncrement(arrival, arrival.firstMinute + k - 1);
    }
  }

  lemma {:induction false} UncoveredPrefix(arrival: Distribution, info: InterchangeInfo, k: nat)
    requires k <= |arrival.cumulative|
    ensures var last, latest := arrival.firstMinute + k - 1, info.LatestArrivalDelay();
            Prefix(UncoveredValues(arrival, info), k) ==
            if last <= latest then 0.0 else arrival.SmallerEqual(last) - arrival.SmallerEqual(latest)
  {
    if k > 0 {
      var last := arrival.firstMinute + k - 1;
      UncoveredPrefix(arrival, info, k - 1);
      EqualIsIncrement(arrival, last);
      assert UncoveredValues(arrival, info)[k - 1] == UncoveredAt(arrival, info, last);
      if info.LatestArrivalDelay() == last - 1 {
        assert arrival.SmallerEqual(info.LatestArrivalDelay()) == arrival.SmallerEqual(last - 1);
      }
    }
  }

  /** What the filter passes on and what stays uncovered are the two sides of the latest arrival delay. */
  lemma FilterSplitsMass(arrival: Distribution, info: InterchangeInfo)
    requires arrival.Valid()
    ensures Filtered(arrival, info).Valid() && Filtered(arrival, info).cumulative != [] && Uncovered(arrival, info).Valid()
    ensures Filtered(arrival, info).Mass() == arrival.SmallerEqual(info.LatestArrivalDelay())
    ensures Uncovered(arrival, info).Mass() == arrival.Greater(info.LatestArrivalDelay())
    ensures Filtered(arrival, info).Mass() + Uncovered(arrival, info).Mass() == arrival.Mass()
    ensures 0.0 <= Filtered(arrival, info).Mass() && 0.0 <= Uncovered(arrival, info).Mass()
  {
    var latest := info.LatestArrivalDelay();
    var values, uncovered := FilterValues(arrival, info), UncoveredValues(arrival, info);
    forall k | 0 <= k < |values|
      ensures values[k] >= 0.0
    {
      ValidQueries(arrival, arrival.firstMinute + k, arrival.firstMinute + k);
    }
    forall k | 0 <= k < |uncovered|
      ensures uncovered[k] >= 0.0
    {
      assert uncovered[k] == UncoveredAt(arrival, info, arrival.firstMinute + k);
      ValidQueries(arrival, arrival.firstMinute + k, arrival.firstMinute + k);
    }
    InitValid(values, arrival.firstMinute);
    InitValid(uncovered, arrival.firstMinute);
    TrimKeepsMass(values, arrival.firstMinute);
    TrimKeepsMass(uncovered, arrival.firstMinute);
    if latest >= arrival.firstMinute {
      FilterPrefix(arrival, info, |values|);
    } else {
      assert Prefix(values, 1) == Prefix(values, 0) + values[0];
    }
    UncoveredPrefix(arrival, info, |uncovered|);
    QueriesSplitMass(arrival, latest);
    ValidQueries(arrival, latest, latest);
  }

  /** What catches a train that is not reported: it leaves when its waiting time is over. */
  lemma UnreportedTrain(arrival: Distribution, info: InterchangeInfo)
    requires arrival.Valid() && !info.departureIs
    ensures var last := info.scheduledDeparture + info.waitingTime - info.transferTime - info.scheduledArrival;
            && Filtered(arrival, info).Mass() == arrival.SmallerEqual(last)
            && Uncovered(arrival, info).Mass() == arrival.Greater(last)
  {
    FilterSplitsMass(arrival, info);
  }

  /** What catches a reported train: it leaves, or has left, at the reported time. */
  lemma ReportedTrain(arrival: Distribution, info: InterchangeInfo)
    requires arrival.Valid() && info.departureIs
    ensures var last := info.departureTime - info.transferTime - info.scheduledArrival;
            && Filtered(arrival, info).Mass() == arrival.SmallerEqual(last)
            && Uncovered(arrival, info).Mass() == arrival.Greater(last)
  {
    FilterSplitsMass(arrival, info);
  }

  lemma FilterNonNegative(arrival: Distribution, info: InterchangeInfo)
    requires arrival.Valid()
    ensures NonNegative(FilterValues(arrival, info)) && NonNegative(UncoveredValues(arrival, info))
  {
    var values, uncovered := FilterValues(arrival, info), UncoveredValues(arrival, info);
    forall k | 0 <= k < |values|
      ensures values[k] >= 0.0
    {
      ValidQueries(arrival, arrival.firstMinute + k, arrival.firstMinute + k);
    }
    forall k | 0 <= k < |uncovered|
      ensures uncovered[k] >= 0.0
    {
      assert uncovered[k] == UncoveredAt(arrival, info, arrival.firstMinute + k);
      ValidQueries(arrival, arrival.firstMinute + k, arrival.firstMinute + k);
    }
  }

  /** The filter keeps the minutes: up to the latest delay the passed arrivals are the arrivals, up to what trimming drops. */
  lemma FilteredMinutes(arrival: Distribution, info: InterchangeInfo, delay: int)
    requires arrival.Valid()
    ensures FilterValues(arrival, info) != []
    ensures var latest, p := info.LatestArrivalDelay(), FilterValues(arrival, info);
            var error := Filtered(arrival, info).SmallerEqual(delay) - arrival.SmallerEqual(if delay < latest then delay else latest);
            && -DroppedLeft(p) <= error <= DroppedRight(p) && (DropsOnlyZeros(p) ==> error == 0.0)
  {
    hide Init, Distribution.Equal;
    var latest, p := info.LatestArrivalDelay(), FilterValues(arrival, info);
    FilterNonNegative(arrival, info);
    DroppedNonNegative(p);
    InitOutside(p, arrival.firstMinute, delay);
    if latest < arrival.firstMinute {
      assert Prefix(p, 1) == Prefix(p, 0) + p[0];
      if delay < arrival.firstMinute {
      } else {
        InitOutside(p, arrival.firstMinute, arrival.firstMinute);
      }
    } else if delay >= latest {
      FilterPrefix(arrival, info, |p|);
    } else if delay >= arrival.firstMinute {
      FilterPrefix(arrival, info, delay - arrival.firstMinute + 1);
      InitQueries(p, arrival.firstMinute, delay - arrival.firstMinute);
    }
  }

  /** So do the uncovered ones behind the latest delay. */
  lemma UncoveredMinutes(arrival: Distribution, info: InterchangeInfo, delay: int)
    requires arrival.Valid() && arrival.cumulative != []
    ensures UncoveredValues(arrival, info) != []
    ensures var latest, p := info.LatestArrivalDelay(), UncoveredValues(arrival, info);
            var error := Uncovered(arrival, info).SmallerEqual(delay)
                         - (if delay <= latest then 0.0 else arrival.SmallerEqual(delay) - arrival.SmallerEqual(latest));
            && -DroppedLeft(p) <= error <= DroppedRight(p) && (DropsOnlyZeros(p) ==> error == 0.0)
  {
    var latest, p := info.LatestArrivalDelay(), UncoveredValues(arrival, info);
    FilterNonNegative(arrival, info);
    DroppedNonNegative(p);
    InitOutside(p, arrival.firstMinute, delay);
    UncoveredPrefix(arrival, info, |p|);
    if arrival.firstMinute <= delay <= arrival.LastMinute() {
      UncoveredPrefix(arrival, info, delay - arrival.firstMinute + 1);
      InitQueries(p, arrival.firstMinute, delay - arrival.firstMinute);
    }
  }

  /** The masses passed to a sequence of alternatives at a stop: each one filters what the earlier ones left uncovered. */
  function Passed(arrival: Distribution, alternatives: seq<InterchangeInfo>): seq<real> {
    if alternatives == [] then []
    else
      var n := |alternatives| - 1;
      Passed(arrival, alternatives[..n]) + [Filtered(Remaining(arrival, alternatives[..n]), alternatives[n]).Mass()]
  }

  function Remaining(arrival: Distribution, alternatives: seq<InterchangeInfo>): Distribution {
    if alternatives == [] then arrival
    else
      var n := |alternatives| - 1;
      Uncovered(Remaining(arrival, alternatives[..n]), alternatives[n])
  }

  /** After any sequence of alternatives, the masses passed on and the uncovered remainder make up the arriving mass
      exactly, whatever trimming did on the way. */
  lemma {:induction false} StopConservesMass(arrival: Distribution, alternatives: seq<InterchangeInfo>)
    requires arrival.Valid()
    ensures Remaining(arrival, alternatives).Valid()
    ensures Total(Passed(arrival, alternatives)) + Remaining(arrival, alternatives).Mass() == arrival.Mass()
    ensures NonNegative(Passed(arrival, alternatives))
  {
    if alternatives != [] {
      var n := |alternatives| - 1;
      StopConservesMass(arrival, alternatives[..n]);
      FilterSplitsMass(Remaining(arrival, alternatives[..n]), alternatives[n]);
      TotalAppend(Passed(arrival, alternatives[..n]), Filtered(Remaining(arrival, alternatives[..n]), alternatives[n]).Mass());
    }
  }
}
