/** When the alternatives of a connection graph arrive: the merged distribution, minute by minute. */
module MergedArrival {
  import opened Sums
  import opened Integers
  import opened Distributions
  import opened JourneySplit
  import opened ConnectionGraph
  import opened ArrivalMerge

  /** The scheduled arrival of a journey, in unix time. */
  function ScheduledArrival(alternative: Alternative, journeys: seq<Journey>): int
    requires alternative.journeyIndex < |journeys| && HaveStops(journeys)
  {
    assert journeys[alternative.journeyIndex] in journeys;
    var stops := journeys[alternative.journeyIndex].stops;
    stops[|stops| - 1].arrival.scheduleTimestamp
  }

  /** The first time at which an alternative can arrive. */
  function FirstArrival(alternative: Alternative, journeys: seq<Journey>): int
    requires alternative.journeyIndex < |journeys| && HaveStops(journeys)
  {
    ScheduledArrival(alternative, journeys) + 60 * alternative.arrival.firstMinute
  }

  // ----- The begin

  /** Alternative a leads to the destination and brings x. */
  ghost predicate OneBrings(alternatives: seq<Alternative>, journeys: seq<Journey>, a: int, x: Arriving)
    requires HaveStops(journeys)
  {
    && 0 <= a < |alternatives| && alternatives[a].nextStop == INDEX_ARRIVAL_STOP
    && alternatives[a].journeyIndex < |journeys| && ArrivingOf(alternatives[a], journeys) == x
  }

  lemma {:induction false} AlternativesArrive(alternatives: seq<Alternative>, journeys: seq<Journey>, x: Arriving)
    requires HaveStops(journeys) && forall a :: 0 <= a < |alternatives| ==> alternatives[a].journeyIndex < |journeys|
    ensures x in OfAlternatives(alternatives, journeys) <==> exists a :: OneBrings(alternatives, journeys, a, x)
  {
    hide ArrivingOf, HaveStops;
    if alternatives != [] {
      var n := |alternatives| - 1;
      AlternativesArrive(alternatives[..n], journeys, x);
      LastAlternative(alternatives, journeys);
      if a :| OneBrings(alternatives[..n], journeys, a, x) {
        assert OneBrings(alternatives, journeys, a, x);
      }
      if a :| OneBrings(alternatives, journeys, a, x) {
        assert a < n ==> OneBrings(alternatives[..n], journeys, a, x);
      }
      assert OneBrings(alternatives, journeys, n, ArrivingOf(alternatives[n], journeys))
        <==> alternatives[n].nextStop == INDEX_ARRIVAL_STOP;
    }
  }

  /** Alternative a of stop i leads to the destination and brings x. */
  ghost predicate Brings(stops: seq<GraphStop>, journeys: seq<Journey>, i: int, a: int, x: Arriving)
    requires HaveStops(journeys)
  {
    0 <= i < |stops| && OneBrings(stops[i].alternatives, journeys, a, x)
  }

  lemma {:induction false} StopsArrive(stops: seq<GraphStop>, journeys: seq<Journey>, k: nat, x: Arriving)
    requires Indexed(stops, journeys) && k <= |stops|
    ensures x in OfStops(stops, journeys, k) <==> exists i, a :: i < k && Brings(stops, journeys, i, a, x)
  {
    hide OneBrings, HaveStops, OfAlternatives;
    if k > 0 {
      StopsArrive(stops, journeys, k - 1, x);
      AlternativesIndexed(stops, journeys, k - 1);
      AlternativesArrive(stops[k - 1].alternatives, journeys, x);
      var alternatives := stops[k - 1].alternatives;
      if a :| OneBrings(alternatives, journeys, a, x) {
        assert Brings(stops, journeys, k - 1, a, x);
      }
    }
  }

  lemma {:induction false} EarliestIsAttained(distributions: seq<Arriving>)
    requires distributions != []
    ensures exists d :: d in distributions && d.time == EarliestArrivalTime(distributions)
  {
    var n := |distributions| - 1;
    assert distributions[n] in distributions;
    if n > 0 {
      EarliestIsAttained(distributions[..n]);
      var d :| d in distributions[..n] && d.time == EarliestArrivalTime(distributions[..n]);
      assert d in distributions;
    }
  }

  /** An alternative that leads to the destination, and the first time at which it arrives. */
  ghost predicate CanArrive(stops: seq<GraphStop>, journeys: seq<Journey>, i: int, a: int, time: int)
    requires HaveStops(journeys)
  {
    && LeadsTo(stops, i, a, INDEX_ARRIVAL_STOP) && stops[i].alternatives[a].journeyIndex < |journeys|
    && time == FirstArrival(stops[i].alternatives[a], journeys)
  }

  lemma BringsAtFirstArrival(stops: seq<GraphStop>, journeys: seq<Journey>, i: int, a: int, x: Arriving)
    requires Indexed(stops, journeys) && Brings(stops, journeys, i, a, x)
    ensures CanArrive(stops, journeys, i, a, x.time)
  {
  }

  lemma CanArriveBrings(stops: seq<GraphStop>, journeys: seq<Journey>, i: int, a: int, time: int) returns (x: Arriving)
    requires Indexed(stops, journeys) && CanArrive(stops, journeys, i, a, time)
    ensures Brings(stops, journeys, i, a, x) && x.time == time
  {
    x := ArrivingOf(stops[i].alternatives[a], journeys);
  }

  /** The merged distribution begins with the earliest first arrival of all alternatives that lead to the destination. */
  lemma BeginIsFirstArrival(stops: seq<GraphStop>, journeys: seq<Journey>)
    requires Indexed(stops, journeys) && OfStops(stops, journeys, |stops|) != []
    ensures var begin := EarliestArrivalTime(OfStops(stops, journeys, |stops|));
            && (exists i, a :: CanArrive(stops, journeys, i, a, begin))
            && (forall i, a, time :: CanArrive(stops, journeys, i, a, time) ==> begin <= time)
  {
    hide OfStops, EarliestArrivalTime, HaveStops, Brings, CanArrive, Indexed;
    HaveStopsOf(stops, journeys);
    var distributions := OfStops(stops, journeys, |stops|);
    EarliestIsAttained(distributions);
    var d :| d in distributions && d.time == EarliestArrivalTime(distributions);
    StopsArrive(stops, journeys, |stops|, d);
    var i, a :| i < |stops| && Brings(stops, journeys, i, a, d);
    BringsAtFirstArrival(stops, journeys, i, a, d);
    forall j, b, time | CanArrive(stops, journeys, j, b, time)
      ensures EarliestArrivalTime(distributions) <= time
    {
      var x := CanArriveBrings(stops, journeys, j, b, time);
      StopsArrive(stops, journeys, |stops|, x);
      BringsInside(stops, journeys, j, b, x);
    }
  }

  lemma HaveStopsOf(stops: seq<GraphStop>, journeys: seq<Journey>)
    requires Indexed(stops, journeys)
    ensures HaveStops(journeys)
  {
  }

  lemma BringsInside(stops: seq<GraphStop>, journeys: seq<Journey>, i: int, a: int, x: Arriving)
    requires HaveStops(journeys) && Brings(stops, journeys, i, a, x)
    ensures i < |stops|
  {
  }

  // ----- The minutes

  /** All alternatives have schedules of whole minutes, valid distributions, and nothing but zeros at their ends. */
  ghost predicate Regular(alternatives: seq<Alternative>, journeys: seq<Journey>)
    requires HaveStops(journeys)
  {
    forall a :: 0 <= a < |alternatives| ==> RegularOne(alternatives[a], journeys)
  }

  ghost predicate RegularOne(alternative: Alternative, journeys: seq<Journey>)
    requires HaveStops(journeys)
  {
    && alternative.journeyIndex < |journeys|
    && alternative.arrival.Valid()
    && (alternative.nextStop == INDEX_ARRIVAL_STOP ==>
          DropsOnlyZeros(alternative.arrival.Probabilities()) && ScheduledArrival(alternative, journeys) % 60 == 0)
  }

  /** The probability that an alternative arrives at a time. */
  function ArrivesAt(alternative: Alternative, journeys: seq<Journey>, time: int): real
    requires alternative.journeyIndex < |journeys| && HaveStops(journeys)
  {
    var late := time - ScheduledArrival(alternative, journeys);
    if late % 60 == 0 then alternative.arrival.Equal(late / 60) else 0.0
  }

  /** The sum over all alternatives of a stop that lead to the destination. */
  function SomeArriveAt(alternatives: seq<Alternative>, journeys: seq<Journey>, time: int): real
    requires HaveStops(journeys) && forall a :: 0 <= a < |alternatives| ==> alternatives[a].journeyIndex < |journeys|
  {
    if alternatives == [] then 0.0
    else
      var n := |alternatives| - 1;
      SomeArriveAt(alternatives[..n], journeys, time)
      + (if alternatives[n].nextStop == INDEX_ARRIVAL_STOP then ArrivesAt(alternatives[n], journeys, time) else 0.0)
  }

  /** The sum over the alternatives of the first k stops. */
  function AllArriveAt(stops: seq<GraphStop>, journeys: seq<Journey>, time: int, k: nat): real
    requires Indexed(stops, journeys) && k <= |stops|
  {
    if k == 0 then 0.0
    else
      AlternativesIndexed(stops, journeys, k - 1);
      AllArriveAt(stops, journeys, time, k - 1) + SomeArriveAt(stops[k - 1].alternatives, journeys, time)
  }

  /** Moving a distribution to minute zero keeps its point queries. */
  lemma MovedEqual(d: Distribution, minute: int)
    requires d.Valid() && DropsOnlyZeros(d.Probabilities())
    ensures Init(d.Probabilities(), 0).Equal(minute) == d.Equal(d.firstMinute + minute)
  {
    var p := d.Probabilities();
    ValidProbabilities(d);
    if 0 <= minute < |p| {
      InitEqual(p, 0, minute);
    } else if p != [] {
      InitOutside(p, 0, minute);
      InitOutside(p, 0, minute - 1);
      EqualIsIncrement(Init(p, 0), minute);
    }
  }

  /** The index of a delay in the merged array is the minute at which it arrives. */
  lemma OneArrives(alternative: Alternative, journeys: seq<Journey>, begin: int, minute: int)
    requires HaveStops(journeys) && RegularOne(alternative, journeys) && alternative.nextStop == INDEX_ARRIVAL_STOP && begin % 60 == 0
    ensures var x := ArrivingOf(alternative, journeys);
            x.pd.Equal(minute - Offset(x, begin)) == ArrivesAt(alternative, journeys, begin + 60 * minute)
  {
    var x, scheduled := ArrivingOf(alternative, journeys), ScheduledArrival(alternative, journeys);
    var first := alternative.arrival.firstMinute;
    MovedEqual(alternative.arrival, minute - Offset(x, begin));
    hide Distribution.Equal, Distribution.Valid, DropsOnlyZeros;
    WholeMinutes(x.time - begin, scheduled - begin, first);
    assert x.time == scheduled + first * 60;
    assert (begin + 60 * minute - scheduled) / 60 == minute - (scheduled - begin) / 60;
  }

  lemma WholeMinutes(seconds: int, rest: int, minutes: int)
    requires seconds == rest + minutes * 60 && rest % 60 == 0
    ensures Quotient(seconds, 60) == rest / 60 + minutes
  {
  }

  lemma {:induction false} MergedConcat(a: seq<Arriving>, b: seq<Arriving>, begin: int, minute: int)
    ensures MergedAt(a + b, begin, minute) == MergedAt(a, begin, minute) + MergedAt(b, begin, minute)
  {
    hide Offset, Distribution.Equal;
    if b == [] {
      assert a + b == a;
    } else {
      var n := |b| - 1;
      assert (a + b)[..|a + b| - 1] == a + b[..n];
      MergedConcat(a, b[..n], begin, minute);
    }
  }

  lemma MergedOne(x: Arriving, begin: int, minute: int)
    ensures MergedAt([x], begin, minute) == x.pd.Equal(minute - Offset(x, begin))
    ensures MergedAt([], begin, minute) == 0.0
  {
    assert [x][..0] == [];
  }

  lemma {:induction false} SomeMerged(alternatives: seq<Alternative>, journeys: seq<Journey>, begin: int, minute: int)
    requires HaveStops(journeys) && Regular(alternatives, journeys) && begin % 60 == 0
    ensures MergedAt(OfAlternatives(alternatives, journeys), begin, minute) == SomeArriveAt(alternatives, journeys, begin + 60 * minute)
  {
    hide ArrivingOf, HaveStops, RegularOne, ArrivesAt, MergedAt, Offset, Distribution.Equal;
    RegularIndexed(alternatives, journeys);
    if alternatives == [] {
      MergedOne(Arriving(0, EMPTY), begin, minute);
    } else {
      var n := |alternatives| - 1;
      SomeMerged(alternatives[..n], journeys, begin, minute);
      LastAlternative(alternatives, journeys);
      if alternatives[n].nextStop == INDEX_ARRIVAL_STOP {
        OneArrives(alternatives[n], journeys, begin, minute);
        MergedOne(ArrivingOf(alternatives[n], journeys), begin, minute);
        MergedConcat(OfAlternatives(alternatives[..n], journeys), [ArrivingOf(alternatives[n], journeys)], begin, minute);
      } else {
        assert OfAlternatives(alternatives[..n], journeys) + [] == OfAlternatives(alternatives[..n], journeys);
      }
    }
  }

  lemma RegularIndexed(alternatives: seq<Alternative>, journeys: seq<Journey>)
    requires HaveStops(journeys) && Regular(alternatives, journeys)
    ensures forall a :: 0 <= a < |alternatives| ==> alternatives[a].journeyIndex < |journeys|
  {
  }

  ghost predicate AllRegular(stops: seq<GraphStop>, journeys: seq<Journey>)
    requires HaveStops(journeys)
  {
    forall i :: 0 <= i < |stops| ==> Regular(stops[i].alternatives, journeys)
  }

  lemma {:induction false} AllMerged(stops: seq<GraphStop>, journeys: seq<Journey>, begin: int, minute: int, k: nat)
    requires Indexed(stops, journeys) && AllRegular(stops, journeys) && k <= |stops| && begin % 60 == 0
    ensures MergedAt(OfStops(stops, journeys, k), begin, minute) == AllArriveAt(stops, journeys, begin + 60 * minute, k)
  {
    hide MergedAt, SomeArriveAt, Regular, OfAlternatives;
    if k == 0 {
      MergedOne(Arriving(0, EMPTY), begin, minute);
    } else {
      AlternativesIndexed(stops, journeys, k - 1);
      AllMerged(stops, journeys, begin, minute, k - 1);
      SomeMerged(stops[k - 1].alternatives, journeys, begin, minute);
      MergedConcat(OfStops(stops, journeys, k - 1), OfAlternatives(stops[k - 1].alternatives, journeys), begin, minute);
    }
  }

  lemma {:induction false} SomeNonNegative(alternatives: seq<Alternative>, journeys: seq<Journey>, time: int)
    requires HaveStops(journeys) && Regular(alternatives, journeys)
    ensures forall a :: 0 <= a < |alternatives| ==> alternatives[a].journeyIndex < |journeys|
    ensures SomeArriveAt(alternatives, journeys, time) >= 0.0
  {
    hide HaveStops, ScheduledArrival, Distribution.Equal, DropsOnlyZeros;
    RegularIndexed(alternatives, journeys);
    if alternatives != [] {
      var n := |alternatives| - 1;
      SomeNonNegative(alternatives[..n], journeys, time);
      assert RegularOne(alternatives[n], journeys);
      var minute := (time - ScheduledArrival(alternatives[n], journeys)) / 60;
      ValidQueries(alternatives[n].arrival, minute, minute);
    }
  }

  lemma {:induction false} AllNonNegative(stops: seq<GraphStop>, journeys: seq<Journey>, time: int, k: nat)
    requires Indexed(stops, journeys) && AllRegular(stops, journeys) && k <= |stops|
    ensures AllArriveAt(stops, journeys, time, k) >= 0.0
  {
    hide SomeArriveAt, Regular;
    if k > 0 {
      AllNonNegative(stops, journeys, time, k - 1);
      SomeNonNegative(stops[k - 1].alternatives, journeys, time);
    }
  }

  /** The array that is merged holds, minute by minute, what the alternatives say. */
  lemma MergedHolds(stops: seq<GraphStop>, journeys: seq<Journey>, begin: int, size: nat)
    requires Indexed(stops, journeys) && AllRegular(stops, journeys) && begin % 60 == 0
    ensures var merged := Merged(OfStops(stops, journeys, |stops|), begin, size);
            NonNegative(merged) && forall m :: 0 <= m < size ==> merged[m] == AllArriveAt(stops, journeys, begin + 60 * m, |stops|)
  {
    hide OfStops, MergedAt, AllArriveAt, AllRegular, Indexed;
    var merged := Merged(OfStops(stops, journeys, |stops|), begin, size);
    forall m | 0 <= m < size
      ensures merged[m] == AllArriveAt(stops, journeys, begin + 60 * m, |stops|) && merged[m] >= 0.0
    {
      AllMerged(stops, journeys, begin, m, |stops|);
      AllNonNegative(stops, journeys, begin + 60 * m, |stops|);
    }
  }

  /** A regular alternative that can arrive does so at a whole minute. */
  lemma BeginsAtMinute(stops: seq<GraphStop>, journeys: seq<Journey>, i: int, a: int, time: int)
    requires HaveStops(journeys) && AllRegular(stops, journeys) && CanArrive(stops, journeys, i, a, time)
    ensures time % 60 == 0
  {
    hide HaveStops, ScheduledArrival, Distribution.Valid, DropsOnlyZeros;
    var alternative := stops[i].alternatives[a];
    assert RegularOne(alternative, journeys);
    assert time == ScheduledArrival(alternative, journeys) + 60 * alternative.arrival.firstMinute;
  }

  /** Minute by minute, the arrival distribution of a connection graph is the sum of what its alternatives to the
      destination say about that time, if their schedules are whole minutes and trimming drops only zeros. */
  lemma MergedMinutes(stops: seq<GraphStop>, journeys: seq<Journey>, minute: nat)
    requires Indexed(stops, journeys) && AllRegular(stops, journeys) && OfStops(stops, journeys, |stops|) != []
    requires var distributions := OfStops(stops, journeys, |stops|);
             && minute < NumValues(distributions)
             && DropsOnlyZeros(Merged(distributions, EarliestArrivalTime(distributions), NumValues(distributions)))
    ensures var distributions := OfStops(stops, journeys, |stops|);
            var begin := EarliestArrivalTime(distributions);
            Init(Merged(distributions, begin, NumValues(distributions)), 0).Equal(minute)
            == AllArriveAt(stops, journeys, begin + 60 * minute, |stops|)
  {
    hide OfStops, EarliestArrivalTime, NumValues, MergedAt, AllArriveAt, AllRegular, CanArrive, Init, Indexed, DropsOnlyZeros, Distribution.Equal;
    var distributions := OfStops(stops, journeys, |stops|);
    var begin := EarliestArrivalTime(distributions);
    HaveStopsOf(stops, journeys);
    BeginIsFirstArrival(stops, journeys);
    var i, a :| CanArrive(stops, journeys, i, a, begin);
    BeginsAtMinute(stops, journeys, i, a, begin);
    MergedHolds(stops, journeys, begin, NumValues(distributions));
    InitEqual(Merged(distributions, begin, NumValues(distributions)), 0, minute);
  }

  // ----- One alternative

  ghost predicate OnlyOne(stops: seq<GraphStop>, i: int, a: int) {
    LeadsTo(stops, i, a, INDEX_ARRIVAL_STOP)
    && forall j, b :: LeadsTo(stops, j, b, INDEX_ARRIVAL_STOP) ==> j == i && b == a
  }

  lemma {:induction false} SomeOf(alternatives: seq<Alternative>, journeys: seq<Journey>, time: int, a: int)
    requires HaveStops(journeys) && forall b :: 0 <= b < |alternatives| ==> alternatives[b].journeyIndex < |journeys|
    requires forall b :: 0 <= b < |alternatives| && alternatives[b].nextStop == INDEX_ARRIVAL_STOP ==> b == a
    ensures SomeArriveAt(alternatives, journeys, time) ==
            if 0 <= a < |alternatives| && alternatives[a].nextStop == INDEX_ARRIVAL_STOP then ArrivesAt(alternatives[a], journeys, time) else 0.0
  {
    hide HaveStops, ArrivesAt;
    if alternatives != [] {
      SomeOf(alternatives[..|alternatives| - 1], journeys, time, a);
    }
  }

  lemma {:induction false} AllOf(stops: seq<GraphStop>, journeys: seq<Journey>, time: int, k: nat, i: nat, a: nat)
    requires Indexed(stops, journeys) && k <= |stops| && OnlyOne(stops, i, a)
    ensures stops[i].alternatives[a].journeyIndex < |journeys|
    ensures AllArriveAt(stops, journeys, time, k) == if i < k then ArrivesAt(stops[i].alternatives[a], journeys, time) else 0.0
  {
    hide HaveStops, ArrivesAt, SomeArriveAt;
    AlternativesIndexed(stops, journeys, i);
    if k > 0 {
      var n := k - 1;
      AlternativesIndexed(stops, journeys, n);
      AllOf(stops, journeys, time, n, i, a);
      forall b | 0 <= b < |stops[n].alternatives| && stops[n].alternatives[b].nextStop == INDEX_ARRIVAL_STOP
        ensures n == i && b == a
      {
        assert LeadsTo(stops, n, b, INDEX_ARRIVAL_STOP);
      }
      SomeOf(stops[n].alternatives, journeys, time, if n == i then a else -1);
    }
  }

  /** With one alternative to the destination the merged distribution is that of this alternative, and its minute zero
      the first minute at which it arrives. */
  lemma OneAlternative(stops: seq<GraphStop>, journeys: seq<Journey>, i: nat, a: nat, minute: nat)
    requires Indexed(stops, journeys) && AllRegular(stops, journeys) && OfStops(stops, journeys, |stops|) != [] && OnlyOne(stops, i, a)
    requires var distributions := OfStops(stops, journeys, |stops|);
             && minute < NumValues(distributions)
             && DropsOnlyZeros(Merged(distributions, EarliestArrivalTime(distributions), NumValues(distributions)))
    ensures stops[i].alternatives[a].journeyIndex < |journeys|
    ensures var distributions := OfStops(stops, journeys, |stops|);
            var begin, arrival := EarliestArrivalTime(distributions), stops[i].alternatives[a].arrival;
            && begin == FirstArrival(stops[i].alternatives[a], journeys)
            && Init(Merged(distributions, begin, NumValues(distributions)), 0).Equal(minute) == arrival.Equal(arrival.firstMinute + minute)
  {
    hide OfStops, EarliestArrivalTime, NumValues, Merged, AllArriveAt, AllRegular, Indexed, HaveStops, DropsOnlyZeros,
      Distribution.Equal, Init, ScheduledArrival;
    var distributions := OfStops(stops, journeys, |stops|);
    var begin := EarliestArrivalTime(distributions);
    HaveStopsOf(stops, journeys);
    AlternativesIndexed(stops, journeys, i);
    BeginIsFirstArrival(stops, journeys);
    MergedMinutes(stops, journeys, minute);
    AllOf(stops, journeys, begin + 60 * minute, |stops|, i, a);
    var alternative := stops[i].alternatives[a];
    var j, b :| CanArrive(stops, journeys, j, b, begin);
    assert LeadsTo(stops, j, b, INDEX_ARRIVAL_STOP);
    var first, scheduled := alternative.arrival.firstMinute, ScheduledArrival(alternative, journeys);
    assert begin + 60 * minute - scheduled == 60 * (first + minute);
  }
}
