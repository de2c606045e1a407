/** When a train arrives: the arrival distribution, delay by delay. */
module ArrivalTimes {
  import opened Sums
  import opened Options
  import opened Distributions
  import opened Arrival

  /** The probability of departing with one of the first n delays and arriving with a delay of at most `late`. */
  function ArrivedWithin(data: ArrivalData, late: int, n: nat): real
    requires data.Valid() && data.travel != [] && n <= |data.departure.cumulative|
  {
    if n == 0 then 0.0
    else
      var delay := data.departure.firstMinute + n - 1;
      ArrivedWithin(data, late, n - 1) + data.departure.Equal(delay) * data.travel[delay].SmallerEqual(late - delay)
  }

  // ----- Partial sums of the convolution

  /** The first k arrival delays, over the first n departure delays. */
  lemma ColumnUpTo(data: ArrivalData, n: nat, k: nat)
    requires data.Valid() && data.travel != [] && n < |data.departure.cumulative| && k <= |Convolved(data, n)|
    ensures |Convolved(data, n + 1)| == |Convolved(data, n)|
    ensures var delay := data.departure.firstMinute + n;
            Prefix(Convolved(data, n + 1), k) == Prefix(Convolved(data, n), k)
              + Times(data.departure.Probabilities()[n], data.travel[delay].SmallerEqual(Left(data) + k - 1 - delay))
  {
    hide Term, Times;
    WindowNotEmpty(data);
    var delay, width := data.departure.firstMinute + n, Right(data) - Left(data) + 1;
    var t, from, c := data.travel[delay], Left(data) - delay, data.departure.Probabilities()[n];
    var before, after, window := Convolved(data, n), Convolved(data, n + 1), Window(t, from, width);
    forall i: nat | i < width
      ensures after[i] == before[i] + Times(c, window[i])
    {
      TermIsProduct(data, Left(data) + i, n, from + i);
      assert TermSum(data, Left(data) + i, n + 1) == TermSum(data, Left(data) + i, n) + Term(data, Left(data) + i, n);
    }
    PrefixLinear(after, before, c, window, k);
    WindowUpTo(data, n, k);
  }

  lemma WindowUpTo(data: ArrivalData, n: nat, k: nat)
    requires data.Valid() && data.travel != [] && n < |data.departure.cumulative|
    requires Left(data) <= Right(data) && k <= Right(data) - Left(data) + 1
    ensures var delay, width := data.departure.firstMinute + n, Right(data) - Left(data) + 1;
            Prefix(Window(data.travel[delay], Left(data) - delay, width), k) == data.travel[delay].SmallerEqual(Left(data) + k - 1 - delay)
  {
    var delay, width := data.departure.firstMinute + n, Right(data) - Left(data) + 1;
    var t, from := data.travel[delay], Left(data) - delay;
    BoundsCover(data.departure, data.travel, |data.travel|, delay);
    PrefixAgree(Window(t, from, width), Window(t, from, k), k);
    WindowSum(t, from, k);
  }

  lemma {:induction false} ConvolutionUpTo(data: ArrivalData, n: nat, k: nat)
    requires data.Valid() && data.travel != [] && n <= |data.departure.cumulative| && k <= |Convolved(data, n)|
    ensures Prefix(Convolved(data, n), k) == ArrivedWithin(data, Left(data) + k - 1, n)
  {
    hide Left, Right, Term, Times, Distribution.Equal, Distribution.SmallerEqual;
    WindowNotEmpty(data);
    if n == 0 {
      NothingConvolved(data, k);
    } else {
      ColumnUpTo(data, n - 1, k);
      ConvolutionUpTo(data, n - 1, k);
      OneDelayMore(data, Left(data) + k - 1, n);
    }
  }

  lemma NothingConvolved(data: ArrivalData, k: nat)
    requires data.Valid() && data.travel != [] && k <= |Convolved(data, 0)|
    ensures Prefix(Convolved(data, 0), k) == 0.0
  {
    WindowNotEmpty(data);
    assert forall i :: 0 <= i < |Convolved(data, 0)| ==> Convolved(data, 0)[i] == TermSum(data, Left(data) + i, 0);
    PrefixZeros(Convolved(data, 0), 0, k);
  }

  lemma OneDelayMore(data: ArrivalData, late: int, n: nat)
    requires data.Valid() && data.travel != [] && 0 < n <= |data.departure.cumulative|
    ensures var delay := data.departure.firstMinute + n - 1;
            ArrivedWithin(data, late, n) == ArrivedWithin(data, late, n - 1)
              + Times(data.departure.Probabilities()[n - 1], data.travel[delay].SmallerEqual(late - delay))
  {
  }

  // ----- Outside of the window

  lemma {:induction false} NobodyBefore(data: ArrivalData, late: int, n: nat)
    requires data.Valid() && data.travel != [] && n <= |data.departure.cumulative| && late < Left(data)
    ensures ArrivedWithin(data, late, n) == 0.0
  {
    hide Left, Distribution.Equal;
    if n > 0 {
      NobodyBefore(data, late, n - 1);
      BoundsCover(data.departure, data.travel, |data.travel|, data.departure.firstMinute + n - 1);
      LeftIs(data);
    }
  }

  lemma LeftIs(data: ArrivalData)
    ensures Left(data) == LeftBound(data.departure, data.travel, |data.travel|)
    ensures Right(data) == RightBound(data.departure, data.travel, |data.travel|)
  {
  }

  lemma {:induction false} EverybodyAfter(data: ArrivalData, late: int, n: nat)
    requires data.Valid() && data.travel != [] && n <= |data.departure.cumulative| && late >= Right(data)
    ensures ArrivedWithin(data, late, n) == ArrivedWithin(data, Right(data), n)
  {
    hide Right, Distribution.Equal;
    if n > 0 {
      EverybodyAfter(data, late, n - 1);
      BoundsCover(data.departure, data.travel, |data.travel|, data.departure.firstMinute + n - 1);
      LeftIs(data);
    }
  }

  // ----- The distribution

  /** Everybody who arrives with a delay of at most `late`. */
  function Arrivals(data: ArrivalData, late: int): real
    requires data.Valid() && data.travel != []
  {
    ArrivedWithin(data, late, |data.departure.cumulative|)
  }

  lemma ConvolutionNonNegative(data: ArrivalData)
    requires data.Valid() && data.travel != []
    ensures NonNegative(Convolution(data)) && |Convolution(data)| == Right(data) - Left(data) + 1 > 0
  {
    WindowNotEmpty(data);
    forall k | 0 <= k < |Convolution(data)|
      ensures Convolution(data)[k] >= 0.0
    {
      TermSumNonNegative(data, Left(data) + k, |data.departure.cumulative|);
    }
  }

  /** The convolution without a correction, at its place: for every arrival delay the probability of arriving by then, up to
      what trimming drops on either side. */
  lemma ConvolutionQueries(data: ArrivalData, late: int)
    requires data.Valid() && data.travel != []
    ensures Convolution(data) != []
    ensures var error := Init(Convolution(data), Left(data)).SmallerEqual(late) - Arrivals(data, late);
            && -DroppedLeft(Convolution(data)) <= error <= DroppedRight(Convolution(data))
            && (DropsOnlyZeros(Convolution(data)) ==> error == 0.0)
  {
    hide Left, Right, TermSum, ArrivedWithin;
    var p, n := Convolution(data), |data.departure.cumulative|;
    ConvolutionNonNegative(data);
    DroppedNonNegative(p);
    if late < Left(data) {
      NobodyBefore(data, late, n);
      InitOutside(p, Left(data), late);
    } else if late > Right(data) {
      EverybodyAfter(data, late, n);
      ConvolutionUpTo(data, n, |p|);
      InitOutside(p, Left(data), late);
    } else {
      ConvolutionUpTo(data, n, late - Left(data) + 1);
      InitQueries(p, Left(data), late - Left(data));
    }
  }

  /** For travel masses one and every delay: arriving by then is the sum, over all departure delays, of departing with it and
      then travelling fast enough. */
  lemma ArrivalMinutes(data: ArrivalData, late: int)
    requires data.Valid() && data.TravelMassesAreOne() && data.message.None? && data.travel != []
    ensures var p := Convolution(data);
            var error := ArrivalDistribution(data).SmallerEqual(late) - Arrivals(data, late);
            && p != [] && -DroppedLeft(p) <= error <= DroppedRight(p)
            && (DropsOnlyZeros(p) ==> error == 0.0)
  {
    hide Convolution, Corrected, Arrivals;
    ArrivalMass(data);
    ConvolutionQueries(data, late);
  }

  /** A certain departure delay and a certain travel time deviation give a certain arrival delay. */
  lemma CertainArrival(departureDelay: nat, deviation: int, scheduledArrival: int, travel: seq<Distribution>)
    requires |travel| == departureDelay + 1 && travel[departureDelay] == OnePoint(deviation, 1.0)
    requires forall t :: t in travel ==> t.Valid() && t.cumulative != [] && t.Mass() == 1.0
    ensures var data := ArrivalData(OnePoint(departureDelay, 1.0), scheduledArrival, travel, None);
            data.Valid() && ArrivalDistribution(data) == OnePoint(departureDelay + deviation, 1.0)
  {
    var data := ArrivalData(OnePoint(departureDelay, 1.0), scheduledArrival, travel, None);
    WindowNotEmpty(data);
    ArrivalMass(data);
    CertainWindow(data, departureDelay, deviation);
    hide Left, Right, Convolution, Corrected;
    OneValue(Convolution(data), Left(data), departureDelay + deviation - Left(data));
  }

  /** All of its values are zero but one. */
  lemma CertainWindow(data: ArrivalData, departureDelay: nat, deviation: int)
    requires data.Valid() && data.departure == OnePoint(departureDelay, 1.0)
    requires |data.travel| == departureDelay + 1 && data.travel[departureDelay] == OnePoint(deviation, 1.0)
    ensures var p, k := Convolution(data), departureDelay + deviation - Left(data);
            0 <= k < |p| && forall i :: 0 <= i < |p| ==> p[i] == if i == k then 1.0 else 0.0
  {
    WindowNotEmpty(data);
    BoundsCover(data.departure, data.travel, |data.travel|, departureDelay);
    LeftIs(data);
    hide Left, Right, LeftBound, RightBound, TermSum;
    var p, k := Convolution(data), departureDelay + deviation - Left(data);
    forall i | 0 <= i < |p|
      ensures p[i] == if i == k then 1.0 else 0.0
    {
      CertainTerm(data, departureDelay, deviation, Left(data) + i);
      assert p[i] == TermSum(data, Left(data) + i, 1);
    }
  }

  lemma CertainTerm(data: ArrivalData, departureDelay: nat, deviation: int, arrivalDelay: int)
    requires data.Valid() && data.departure == OnePoint(departureDelay, 1.0)
    requires |data.travel| == departureDelay + 1 && data.travel[departureDelay] == OnePoint(deviation, 1.0)
    ensures TermSum(data, arrivalDelay, 1) == if arrivalDelay == departureDelay + deviation then 1.0 else 0.0
  {
    assert data.departure.Equal(departureDelay) == 1.0;
    assert data.departure.Probabilities()[0] == data.departure.Equal(departureDelay + 0);
    assert TermSum(data, arrivalDelay, 1) == TermSum(data, arrivalDelay, 0) + Term(data, arrivalDelay, 0);
  }

  /** With a message all mass is at its delay, which may be negative. */
  lemma ReportedArrival(data: ArrivalData, reported: int, late: int)
    requires data.Valid() && data.message == Some(reported)
    ensures ArrivalDistribution(data).SmallerEqual(late) ==
            if data.scheduledArrival + late >= reported then data.departure.Mass() else 0.0
  {
  }

  /** Without travel times for the train's class, the train arrives as late as it departs. */
  lemma ArrivalWithoutTable(data: ArrivalData, late: int)
    requires data.Valid() && data.message.None? && data.travel == []
    ensures ArrivalDistribution(data).SmallerEqual(late) == data.departure.SmallerEqual(late)
  {
  }
}
