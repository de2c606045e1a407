/** The arrival distribution of a connection graph: all alternatives that reach the destination, merged by the minute. */
module ArrivalMerge {
  import opened Sums
  import opened Integers
  import opened Distributions
  import opened JourneySplit
  import opened ConnectionGraph
  import opened ConnectionGraphRating
  import opened ConnectionGraphMass
  import opened ConnectionGraphRuns
  import Arrival

  /** A distribution moved to start with delay minute 0, and the unix time of that minute. */
  datatype Arriving = Arriving(time: int, pd: Distribution) {
    function LastTime(): int {
      time + pd.LastMinute() * 60
    }
  }

  /** Every journey has a last stop. */
  ghost predicate HaveStops(journeys: seq<Journey>) {
    forall j :: j in journeys ==> j.stops != []
  }

  function ArrivingOf(alternative: Alternative, journeys: seq<Journey>): Arriving
    requires alternative.journeyIndex < |journeys| && HaveStops(journeys)
  {
    var stops := journeys[alternative.journeyIndex].stops;
    assert journeys[alternative.journeyIndex] in journeys;
    Arriving(stops[|stops| - 1].arrival.scheduleTimestamp + alternative.arrival.firstMinute * 60,
             Init(alternative.arrival.Probabilities(), 0))
  }

  function OfAlternatives(alternatives: seq<Alternative>, journeys: seq<Journey>): seq<Arriving>
    requires HaveStops(journeys) && forall a :: 0 <= a < |alternatives| ==> alternatives[a].journeyIndex < |journeys|
  {
    if alternatives == [] then []
    else
      var n := |alternatives| - 1;
      OfAlternatives(alternatives[..n], journeys)
      + (if alternatives[n].nextStop == INDEX_ARRIVAL_STOP then [ArrivingOf(alternatives[n], journeys)] else [])
  }

  ghost predicate Indexed(stops: seq<GraphStop>, journeys: seq<Journey>) {
    HaveStops(journeys) && forall i, a :: HasAlternative(stops, i, a) ==> stops[i].alternatives[a].journeyIndex < |journeys|
  }

  function OfStops(stops: seq<GraphStop>, journeys: seq<Journey>, k: nat): seq<Arriving>
    requires Indexed(stops, journeys) && k <= |stops|
  {
    if k == 0 then []
    else
      AlternativesIndexed(stops, journeys, k - 1);
      OfStops(stops, journeys, k - 1) + OfAlternatives(stops[k - 1].alternatives, journeys)
  }

  lemma AlternativesIndexed(stops: seq<GraphStop>, journeys: seq<Journey>, i: nat)
    requires Indexed(stops, journeys) && i < |stops|
    ensures forall a :: 0 <= a < |stops[i].alternatives| ==> stops[i].alternatives[a].journeyIndex < |journeys|
  {
    var alternatives := stops[i].alternatives;
    forall a | 0 <= a < |alternatives|
      ensures alternatives[a].journeyIndex < |journeys|
    {
      assert HasAlternative(stops, i, a);
    }
  }

  /** The distribution of an alternative, its first minute at zero, and the time of that minute. */
  method ArrivingDistribution(alternative: Alternative, journeys: seq<Journey>) returns (arriving: Arriving)
    requires HaveStops(journeys) && alternative.journeyIndex < |journeys|
    ensures arriving == ArrivingOf(alternative, journeys)
  {
    var values := alternative.arrival.Probabilities();
    var pd := new ProbabilityDistribution();
    pd.Init(values, 0);
    var stops := journeys[alternative.journeyIndex].stops;
    assert journeys[alternative.journeyIndex] in journeys;
    arriving := Arriving(stops[|stops| - 1].arrival.scheduleTimestamp + alternative.arrival.firstMinute * 60, pd.Value());
  }

  method DistributionsArrivingAlternatives(stops: seq<GraphStop>, journeys: seq<Journey>) returns (distributions: seq<Arriving>)
    requires Indexed(stops, journeys)
    ensures distributions == OfStops(stops, journeys, |stops|)
  {
    hide ArrivingOf, HaveStops;
    distributions := [];
    for i := 0 to |stops|
      invariant distributions == OfStops(stops, journeys, i)
    {
      var alternatives := stops[i].alternatives;
      AlternativesIndexed(stops, journeys, i);
      ghost var before := distributions;
      for a := 0 to |alternatives|
        invariant distributions == before + OfAlternatives(alternatives[..a], journeys)
      {
        if alternatives[a].nextStop == INDEX_ARRIVAL_STOP {
          var arriving := ArrivingDistribution(alternatives[a], journeys);
          distributions := distributions + [arriving];
        }
        assert alternatives[..a + 1][..a] == alternatives[..a];
      }
      assert alternatives[..|alternatives|] == alternatives;
    }
  }

  /** The smallest begin. */
  function EarliestArrivalTime(distributions: seq<Arriving>): (r: int)
    requires distributions != []
    ensures forall d :: d in distributions ==> r <= d.time
  {
    var n := |distributions| - 1;
    assert distributions[n] in distributions;
    if n == 0 then distributions[0].time
    else
      var r := EarliestArrivalTime(distributions[..n]);
      if distributions[n].time < r then distributions[n].time else r
  }

  /** The largest end. */
  function LatestArrivalTime(distributions: seq<Arriving>): (r: int)
    requires distributions != []
    ensures forall d :: d in distributions ==> d.LastTime() <= r
  {
    var n := |distributions| - 1;
    assert distributions[n] in distributions;
    if n == 0 then distributions[0].LastTime()
    else
      var r := LatestArrivalTime(distributions[..n]);
      if distributions[n].LastTime() > r then distributions[n].LastTime() else r
  }

  function Offset(d: Arriving, begin: int): int {
    Quotient(d.time - begin, 60)
  }

  function NumValues(distributions: seq<Arriving>): int
    requires distributions != []
  {
    Quotient(LatestArrivalTime(distributions) - EarliestArrivalTime(distributions), 60) + 1
  }

  /** Moved distributions have no negative delays. */
  ghost predicate StartAtZero(distributions: seq<Arriving>) {
    forall d :: d in distributions ==> d.pd.firstMinute >= 0
  }

  /** All delays of a distribution lie inside an array of this size, when moved by the offset. */
  ghost predicate Fits(pd: Distribution, offset: int, size: int) {
    pd.cumulative != [] ==> 0 <= offset + pd.firstMinute && offset + pd.LastMinute() < size
  }

  /** Every value of every distribution lands inside the merged array. */
  lemma IndicesInRange(distributions: seq<Arriving>, d: Arriving)
    requires d in distributions && StartAtZero(distributions)
    ensures Fits(d.pd, Offset(d, EarliestArrivalTime(distributions)), NumValues(distributions))
  {
    var begin, end := EarliestArrivalTime(distributions), LatestArrivalTime(distributions);
    var x, last := d.time - begin, d.pd.LastMinute();
    assert end - begin >= x + last * 60;
    assert (x + last * 60) / 60 == x / 60 + last;
  }

  lemma NumValuesNonNegative(distributions: seq<Arriving>)
    requires distributions != [] && StartAtZero(distributions)
    ensures NumValues(distributions) >= 0
  {
    assert distributions[0] in distributions;
    assert distributions[0].LastTime() >= distributions[0].time - 60;
  }

  /** The sum of all distributions at one minute of the merged array. */
  function MergedAt(distributions: seq<Arriving>, begin: int, minute: int): real {
    if distributions == [] then 0.0
    else
      var n := |distributions| - 1;
      MergedAt(distributions[..n], begin, minute) + distributions[n].pd.Equal(minute - Offset(distributions[n], begin))
  }

  function Merged(distributions: seq<Arriving>, begin: int, size: nat): seq<real> {
    seq(size, m => MergedAt(distributions, begin, m))
  }

  /** What the delays below `upTo` of a distribution add at one minute. */
  function AddedAt(pd: Distribution, offset: int, minute: int, upTo: int): real {
    if minute - offset < upTo then pd.Equal(minute - offset) else 0.0
  }

  /** Adding one distribution to the array, value by value. */
  method MergeOne(values: seq<real>, pd: Distribution, offset: int) returns (r: seq<real>)
    requires Fits(pd, offset, |values|)
    ensures |r| == |values|
    ensures forall m :: 0 <= m < |r| ==> r[m] == values[m] + pd.Equal(m - offset)
  {
    r := values;
    for delay := pd.firstMinute to pd.LastMinute() + 1
      invariant |r| == |values|
      invariant forall m :: 0 <= m < |r| ==> r[m] == values[m] + AddedAt(pd, offset, m, delay)
    {
      var at := offset + delay;
      assert at - offset == delay;
      r := r[at := r[at] + pd.Equal(delay)];
    }
  }

  /** The arrival distribution of the graph, and the time of its minute 0. */
  method CalcArrivalDistribution(stops: seq<GraphStop>, journeys: seq<Journey>) returns (begin: int, merged: Distribution)
    requires Indexed(stops, journeys) && OfStops(stops, journeys, |stops|) != []
    ensures var distributions := OfStops(stops, journeys, |stops|);
            && NumValues(distributions) >= 0
            && begin == EarliestArrivalTime(distributions)
            && merged == Init(Merged(distributions, begin, NumValues(distributions)), 0)
  {
    hide OfStops, NumValues, EarliestArrivalTime, Offset, Indexed, Trimmed, StartAtZero;
    var distributions := DistributionsArrivingAlternatives(stops, journeys);
    StopsStartAtZero(stops, journeys, |stops|);
    NumValuesNonNegative(distributions);
    begin := EarliestArrivalTime(distributions);
    var numValues := NumValues(distributions);
    var values := seq(numValues, _ => 0.0);
    for i := 0 to |distributions|
      invariant |values| == numValues
      invariant forall m :: 0 <= m < numValues ==> values[m] == MergedAt(distributions[..i], begin, m)
    {
      IndicesInRange(distributions, distributions[i]);
      values := MergeOne(values, distributions[i].pd, Offset(distributions[i], begin));
      assert distributions[..i + 1][..i] == distributions[..i];
    }
    assert distributions[..|distributions|] == distributions;
    assert values == Merged(distributions, begin, numValues);
    var pd := new ProbabilityDistribution();
    pd.Init(values, 0);
    merged := pd.Value();
  }

  // ----- The merged mass

  lemma {:induction false} AlternativesStartAtZero(alternatives: seq<Alternative>, journeys: seq<Journey>)
    requires HaveStops(journeys) && forall a :: 0 <= a < |alternatives| ==> alternatives[a].journeyIndex < |journeys|
    ensures StartAtZero(OfAlternatives(alternatives, journeys))
  {
    if alternatives != [] {
      AlternativesStartAtZero(alternatives[..|alternatives| - 1], journeys);
    }
  }

  lemma {:induction false} StopsStartAtZero(stops: seq<GraphStop>, journeys: seq<Journey>, k: nat)
    requires Indexed(stops, journeys) && k <= |stops|
    ensures StartAtZero(OfStops(stops, journeys, k))
  {
    if k > 0 {
      StopsStartAtZero(stops, journeys, k - 1);
      AlternativesIndexed(stops, journeys, k - 1);
      AlternativesStartAtZero(stops[k - 1].alternatives, journeys);
    }
  }

  function MassOf(distributions: seq<Arriving>): real {
    if distributions == [] then 0.0
    else MassOf(distributions[..|distributions| - 1]) + distributions[|distributions| - 1].pd.Mass()
  }

  lemma {:induction false} MassOfConcat(a: seq<Arriving>, b: seq<Arriving>)
    ensures MassOf(a + b) == MassOf(a) + MassOf(b)
  {
    if b == [] {
      assert a + b == a;
    } else {
      var n := |b| - 1;
      assert (a + b)[..|a + b| - 1] == a + b[..n];
      MassOfConcat(a, b[..n]);
    }
  }

  lemma MassOfOne(alternative: Alternative, journeys: seq<Journey>)
    requires HaveStops(journeys) && alternative.journeyIndex < |journeys|
    ensures MassOf([ArrivingOf(alternative, journeys)]) == alternative.arrival.Mass()
  {
    var arriving := [ArrivingOf(alternative, journeys)];
    ProbabilitiesTotal(alternative.arrival);
    TrimKeepsMass(alternative.arrival.Probabilities(), 0);
    assert arriving[..0] == [];
  }

  /** What the last alternative adds on both sides. */
  lemma LastAlternative(alternatives: seq<Alternative>, journeys: seq<Journey>)
    requires alternatives != [] && HaveStops(journeys) && forall a :: 0 <= a < |alternatives| ==> alternatives[a].journeyIndex < |journeys|
    ensures var n := |alternatives| - 1;
            var ends := alternatives[n].nextStop == INDEX_ARRIVAL_STOP;
            && OfAlternatives(alternatives, journeys) ==
               OfAlternatives(alternatives[..n], journeys) + (if ends then [ArrivingOf(alternatives[n], journeys)] else [])
            && FlowTo(alternatives, INDEX_ARRIVAL_STOP) ==
               FlowTo(alternatives[..n], INDEX_ARRIVAL_STOP) + (if ends then alternatives[n].arrival.Mass() else 0.0)
  {
    hide ArrivingOf, HaveStops;
  }

  lemma {:induction false} MassOfAlternatives(alternatives: seq<Alternative>, journeys: seq<Journey>)
    requires HaveStops(journeys) && forall a :: 0 <= a < |alternatives| ==> alternatives[a].journeyIndex < |journeys|
    ensures MassOf(OfAlternatives(alternatives, journeys)) == FlowTo(alternatives, INDEX_ARRIVAL_STOP)
  {
    hide ArrivingOf, HaveStops;
    if alternatives != [] {
      var n := |alternatives| - 1;
      LastAlternative(alternatives, journeys);
      MassOfAlternatives(alternatives[..n], journeys);
      MassOfOne(alternatives[n], journeys);
      MassOfConcat(OfAlternatives(alternatives[..n], journeys),
                   if alternatives[n].nextStop == INDEX_ARRIVAL_STOP then [ArrivingOf(alternatives[n], journeys)] else []);
    }
  }

  lemma {:induction false} MassOfStops(stops: seq<GraphStop>, journeys: seq<Journey>, k: nat)
    requires Indexed(stops, journeys) && k <= |stops|
    ensures MassOf(OfStops(stops, journeys, k)) == Prefix(Flows(stops, INDEX_ARRIVAL_STOP), k)
  {
    if k > 0 {
      MassOfStops(stops, journeys, k - 1);
      AlternativesIndexed(stops, journeys, k - 1);
      MassOfAlternatives(stops[k - 1].alternatives, journeys);
      MassOfConcat(OfStops(stops, journeys, k - 1), OfAlternatives(stops[k - 1].alternatives, journeys));
    }
  }

  ghost predicate AllFit(distributions: seq<Arriving>, begin: int, size: nat) {
    forall d :: d in distributions ==> Fits(d.pd, Offset(d, begin), size)
  }

  lemma {:induction false} MergedTotal(distributions: seq<Arriving>, begin: int, size: nat)
    requires AllFit(distributions, begin, size)
    ensures Total(Merged(distributions, begin, size)) == MassOf(distributions)
  {
    var merged := Merged(distributions, begin, size);
    if distributions == [] {
      PrefixZeros(merged, 0, size);
    } else {
      var n := |distributions| - 1;
      var rest, d := distributions[..n], distributions[n];
      var before, offset := Merged(rest, begin, size), Offset(d, begin);
      assert d in distributions;
      MergedTotal(rest, begin, size);
      var window := Arrival.Window(d.pd, -offset, size);
      forall m | 0 <= m < size
        ensures merged[m] == before[m] + Times(1.0, window[m])
      {
        assert m - offset == -offset + m;
      }
      PrefixLinear(merged, before, 1.0, window, size);
      WindowMass(d.pd, offset, size);
    }
  }

  /** A window that contains the whole distribution sums to its mass. */
  lemma WindowMass(pd: Distribution, offset: int, size: nat)
    requires Fits(pd, offset, size)
    ensures Prefix(Arrival.Window(pd, -offset, size), size) == pd.Mass()
  {
    Arrival.WindowSum(pd, -offset, size);
  }

  /** The merged distribution carries exactly the mass that reaches the destination, and no index leaves the array. */
  lemma MergedMass(state: State)
    requires state.Valid() && HaveStops(state.journeys)
    ensures Indexed(state.stops, state.journeys)
    ensures var distributions := OfStops(state.stops, state.journeys, |state.stops|);
            distributions != [] ==>
              && NumValues(distributions) >= 0
              && AllFit(distributions, EarliestArrivalTime(distributions), NumValues(distributions))
              && Init(Merged(distributions, EarliestArrivalTime(distributions), NumValues(distributions)), 0).Mass() == DestinationMass(state)
  {
    var distributions := OfStops(state.stops, state.journeys, |state.stops|);
    if distributions != [] {
      var begin := EarliestArrivalTime(distributions);
      StopsStartAtZero(state.stops, state.journeys, |state.stops|);
      NumValuesNonNegative(distributions);
      var size := NumValues(distributions);
      forall d | d in distributions
        ensures Fits(d.pd, Offset(d, begin), size)
      {
        IndicesInRange(distributions, d);
      }
      MergedTotal(distributions, begin, size);
      MassOfStops(state.stops, state.journeys, |state.stops|);
      TrimKeepsMass(Merged(distributions, begin, size), 0);
    }
  }

  /** Some alternative always reaches the destination: the last stop has nowhere else to lead to. */
  lemma SomethingArrives(state: State)
    requires state.Valid() && HaveStops(state.journeys)
    ensures Indexed(state.stops, state.journeys)
    ensures OfStops(state.stops, state.journeys, |state.stops|) != []
  {
    var n := |state.stops|;
    var s := if n == 2 then 0 else n - 1;
    var alternatives := state.stops[s].alternatives;
    var a := |alternatives| - 1;
    assert HasAlternative(state.stops, s, a);
    assert Next(state.stops, s, a) == INDEX_ARRIVAL_STOP;
    AlternativesIndexed(state.stops, state.journeys, s);
    assert OfAlternatives(alternatives, state.journeys) != [];
    StopsGrow(state.stops, state.journeys, s + 1, n);
  }

  lemma {:induction false} StopsGrow(stops: seq<GraphStop>, journeys: seq<Journey>, k: nat, n: nat)
    requires Indexed(stops, journeys) && k <= n <= |stops|
    ensures |OfStops(stops, journeys, k)| <= |OfStops(stops, journeys, n)|
  {
    if k < n {
      StopsGrow(stops, journeys, k, n - 1);
    }
  }

  lemma {:induction false} RunsHaveStops(base: Journey, insertions: seq<Insertion>, lookup: Lookup)
    requires ValidRun(base, insertions) && lookup.Valid()
    ensures HaveStops(Run(base, insertions, lookup).journeys)
  {
    if insertions == [] {
      PiecesHaveStops(base);
    } else {
      RunStep(base, insertions, lookup);
      var n := |insertions| - 1;
      RunsHaveStops(base, insertions[..n], lookup);
      PiecesHaveStops(insertions[n].journey);
    }
  }

  /** For every connection graph the search can build: the merged arrival distribution exists, and its mass is the mass
      at the destination, which lies between zero and the start mass. */
  lemma GraphArrivalMass(base: Journey, insertions: seq<Insertion>, lookup: Lookup)
    requires ValidRun(base, insertions) && lookup.Valid()
    ensures var state := Run(base, insertions, lookup);
            && Indexed(state.stops, state.journeys)
            && var distributions := OfStops(state.stops, state.journeys, |state.stops|);
            && distributions != [] && NumValues(distributions) >= 0
            && var mass := Init(Merged(distributions, EarliestArrivalTime(distributions), NumValues(distributions)), 0).Mass();
            mass == DestinationMass(state) && 0.0 <= mass <= StartMass(base, lookup)
  {
    var state := Run(base, insertions, lookup);
    RunsHaveStops(base, insertions, lookup);
    SomethingArrives(state);
    MergedMass(state);
    RunMass(base, insertions, lookup);
  }
}
