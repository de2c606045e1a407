/** Arrival distributions: the convolution of a departure with the travel times that depend on its delay. */
module Arrival {
  import opened Sums
  import opened Options
  import opened Distributions

  const INT_MAX := 0x7FFF_FFFF
  const INT_MIN := -0x8000_0000

  /** One travel-time distribution for each departure delay from 0 to the last minute; none if the train's class has none. */
  datatype ArrivalData = ArrivalData(departure: Distribution, scheduledArrival: int, travel: seq<Distribution>, message: Option<int>) {

    ghost predicate Valid() {
      && departure.Valid() && departure.cumulative != [] && departure.firstMinute >= 0
      && (travel != [] ==> |travel| == departure.LastMinute() + 1)
      && forall t :: t in travel ==> t.Valid() && t.cumulative != []
    }

    ghost predicate TravelMassesAreOne() {
      forall t :: t in travel ==> t.Mass() == 1.0
    }
  }

  // ----- The window of reachable arrival delays

  function LeftBound(departure: Distribution, travel: seq<Distribution>, k: nat): int
    requires k <= |travel|
  {
    if k == 0 then INT_MAX
    else
      var bound, left := LeftBound(departure, travel, k - 1), departure.firstMinute + travel[k - 1].firstMinute;
      if left < bound then left else bound
  }

  function RightBound(departure: Distribution, travel: seq<Distribution>, k: nat): int
    requires k <= |travel|
  {
    if k == 0 then INT_MIN
    else
      var bound, right := RightBound(departure, travel, k - 1), departure.LastMinute() + travel[k - 1].LastMinute();
      if right > bound then right else bound
  }

  function Left(data: ArrivalData): int {
    LeftBound(data.departure, data.travel, |data.travel|)
  }

  function Right(data: ArrivalData): int {
    RightBound(data.departure, data.travel, |data.travel|)
  }

  /** The object the program fills, with the bounds of the arrival distribution. */
  class DataArrival {
    const data: ArrivalData
    var leftBound: int
    var rightBound: int

    constructor (departure: Distribution, scheduledArrival: int, travel: seq<Distribution>, isMessage: Option<int>)
      ensures data == ArrivalData(departure, scheduledArrival, travel, isMessage)
      ensures leftBound == Left(data) && rightBound == Right(data)
    {
      data := ArrivalData(departure, scheduledArrival, travel, isMessage);
      leftBound, rightBound := INT_MAX, INT_MIN;
      new;
      for d := 0 to |travel|
        invariant leftBound == LeftBound(departure, travel, d)
        invariant rightBound == RightBound(departure, travel, d)
      {
        var left := departure.firstMinute + travel[d].firstMinute;
        var right := departure.LastMinute() + travel[d].LastMinute();
        if left < leftBound {
          leftBound := left;
        }
        if right > rightBound {
          rightBound := right;
        }
      }
    }
  }

  /** Every arrival delay that some departure delay and some travel time produce lies in the window. */
  lemma BoundsCover(departure: Distribution, travel: seq<Distribution>, k: nat, d: nat)
    requires d < k <= |travel|
    ensures LeftBound(departure, travel, k) <= departure.firstMinute + travel[d].firstMinute
    ensures departure.LastMinute() + travel[d].LastMinute() <= RightBound(departure, travel, k)
  {
    if d < k - 1 {
      BoundsCover(departure, travel, k - 1, d);
    }
  }

  lemma WindowNotEmpty(data: ArrivalData)
    requires data.Valid() && data.travel != []
    ensures Left(data) <= Right(data)
  {
    BoundsCover(data.departure, data.travel, |data.travel|, 0);
    assert data.travel[0] in data.travel;
  }

  // ----- The convolution

  /** The joint probability of the i-th departure delay and arriving with this delay. */
  function Term(data: ArrivalData, arrivalDelay: int, i: nat): real
    requires data.Valid() && data.travel != [] && i < |data.departure.cumulative|
  {
    var departureDelay := data.departure.firstMinute + i;
    var travel, travelDelay := data.travel[departureDelay], arrivalDelay - departureDelay;
    if travelDelay < travel.firstMinute || travelDelay > travel.LastMinute() then 0.0
    else travel.Equal(travelDelay) * data.departure.Probabilities()[i]
  }

  function TermSum(data: ArrivalData, arrivalDelay: int, n: nat): real
    requires data.Valid() && data.travel != [] && n <= |data.departure.cumulative|
  {
    if n == 0 then 0.0 else TermSum(data, arrivalDelay, n - 1) + Term(data, arrivalDelay, n - 1)
  }

  /** The convolution over the first n departure delays. */
  function Convolved(data: ArrivalData, n: nat): seq<real>
    requires data.Valid() && data.travel != [] && n <= |data.departure.cumulative|
  {
    WindowNotEmpty(data);
    seq(Right(data) - Left(data) + 1, k => TermSum(data, Left(data) + k, n))
  }

  function Convolution(data: ArrivalData): seq<real>
    requires data.Valid() && data.travel != []
  {
    Convolved(data, |data.departure.cumulative|)
  }

  // ----- Rounding correction

  predicate CloseTo(a: real, b: real) {
    a == b || -0.000001 < a - b < 0.000001
  }

  /** The first index of a largest value among the first k. */
  function IndexOfMax(p: seq<real>, k: nat): (i: nat)
    requires 0 < k <= |p|
    ensures i < k && forall j :: 0 <= j < k ==> p[j] <= p[i]
  {
    if k == 1 then 0
    else
      var i := IndexOfMax(p, k - 1);
      if p[k - 1] > p[i] then k - 1 else i
  }

  /** A sum that is not close to the expected one is corrected at the largest value. */
  function Corrected(expected: real, p: seq<real>): seq<real>
    requires p != []
  {
    var difference := expected - Total(p);
    if CloseTo(difference, 0.0) then p
    else
      var i := IndexOfMax(p, |p|);
      p[i := p[i] + difference]
  }

  method CorrectRoundingErrors(expected: real, computed: seq<real>) returns (corrected: seq<real>)
    requires computed != []
    ensures corrected == Corrected(expected, computed)
  {
    var sum := 0.0;
    var indexMax := 0;
    for i := 0 to |computed|
      invariant sum == Prefix(computed, i)
      invariant 0 <= indexMax < |computed|
      invariant indexMax == if i == 0 then 0 else IndexOfMax(computed, i)
    {
      sum := sum + computed[i];
      if computed[i] > computed[indexMax] {
        indexMax := i;
      }
    }
    var difference := expected - sum;
    corrected := computed;
    if !CloseTo(difference, 0.0) {
      corrected := corrected[indexMax := corrected[indexMax] + difference];
    }
  }

  function ArrivalDistribution(data: ArrivalData): Distribution
    requires data.Valid()
  {
    match data.message
    case Some(currentTime) => OnePoint(currentTime - data.scheduledArrival, data.departure.Mass())
    case None =>
      if data.travel == [] then data.departure
      else
        WindowNotEmpty(data);
        Init(Corrected(data.departure.Mass(), Convolution(data)), Left(data))
  }

  /** One arrival delay: the inner loop of the convolution. */
  method ConvolveAt(data: ArrivalData, departureDistribution: seq<real>, arrivalDelay: int) returns (computed: real)
    requires data.Valid() && data.travel != [] && departureDistribution == data.departure.Probabilities()
    ensures computed == TermSum(data, arrivalDelay, |data.departure.cumulative|)
  {
    hide Distribution.Equal, Distribution.Valid;
    computed := 0.0;
    for i := 0 to |departureDistribution|
      invariant computed == TermSum(data, arrivalDelay, i)
    {
      var departureDelay := data.departure.firstMinute + i;
      var travelDelay := arrivalDelay - departureDelay;
      var travel := data.travel[departureDelay];
      if travelDelay < travel.firstMinute || travelDelay > travel.LastMinute() {
        continue;
      }
      computed := computed + travel.Equal(travelDelay) * departureDistribution[i];
    }
  }

  method ComputeArrivalDistribution(arrivalData: DataArrival, arrival: ProbabilityDistribution)
    requires arrivalData.data.Valid()
    requires arrivalData.leftBound == Left(arrivalData.data) && arrivalData.rightBound == Right(arrivalData.data)
    modifies arrival
    ensures arrival.Value() == ArrivalDistribution(arrivalData.data)
  {
    var data := arrivalData.data;
    if data.message.Some? {
      arrival.InitOnePoint(data.message.value - data.scheduledArrival, data.departure.Mass());
      return;
    }
    if data.travel == [] {
      arrival.InitCopy(data.departure);
      return;
    }
    WindowNotEmpty(data);
    var departureDistribution := data.departure.Probabilities();
    var computed: seq<real> := [];
    for arrivalDelay := arrivalData.leftBound to arrivalData.rightBound + 1
      invariant |computed| == arrivalDelay - arrivalData.leftBound
      invariant forall k :: 0 <= k < |computed| ==> computed[k] == Convolution(data)[k]
    {
      var p := ConvolveAt(data, departureDistribution, arrivalDelay);
      computed := computed + [p];
    }
    assert computed == Convolution(data);
    computed := CorrectRoundingErrors(data.departure.Mass(), computed);
    arrival.Init(computed, arrivalData.leftBound);
  }

  // ----- Conservation

  /** Summing a travel distribution over any window that covers it gives its mass. */
  lemma {:induction false} WindowSum(t: Distribution, from: int, n: nat)
    ensures Prefix(Window(t, from, n), n) == t.SmallerEqual(from + n - 1) - t.SmallerEqual(from - 1)
  {
    if n > 0 {
      WindowSum(t, from, n - 1);
      EqualIsIncrement(t, from + n - 1);
      PrefixAgree(Window(t, from, n), Window(t, from, n - 1), n - 1);
    }
  }

  function Window(t: Distribution, from: int, n: nat): seq<real> {
    seq(n, k => t.Equal(from + k))
  }

  /** The term of a departure delay, without the guard: outside the travel distribution the point query is zero. */
  lemma TermIsProduct(data: ArrivalData, arrivalDelay: int, i: nat, travelDelay: int)
    requires data.Valid() && data.travel != [] && i < |data.departure.cumulative|
    requires travelDelay == arrivalDelay - data.departure.firstMinute - i
    ensures Term(data, arrivalDelay, i) ==
            Times(data.departure.Probabilities()[i], data.travel[data.departure.firstMinute + i].Equal(travelDelay))
  {
  }

  /** Adding one departure delay adds its probability times the mass of its travel distribution. */
  lemma ColumnSum(data: ArrivalData, n: nat)
    requires data.Valid() && data.travel != [] && n < |data.departure.cumulative|
    ensures Total(Convolved(data, n + 1)) ==
            Total(Convolved(data, n)) + Times(data.departure.Probabilities()[n], data.travel[data.departure.firstMinute + n].Mass())
  {
    hide Term, Times;
    WindowNotEmpty(data);
    var delay, width := data.departure.firstMinute + n, Right(data) - Left(data) + 1;
    var t, from, c := data.travel[delay], Left(data) - delay, data.departure.Probabilities()[n];
    var before, after, window := Convolved(data, n), Convolved(data, n + 1), Window(t, from, width);
    forall k: nat | k < width
      ensures after[k] == before[k] + Times(c, window[k])
    {
      TermIsProduct(data, Left(data) + k, n, from + k);
      assert TermSum(data, Left(data) + k, n + 1) == TermSum(data, Left(data) + k, n) + Term(data, Left(data) + k, n);
    }
    PrefixLinear(after, before, c, window, width);
    WindowMass(data, n);
  }

  lemma WindowMass(data: ArrivalData, n: nat)
    requires data.Valid() && data.travel != [] && n < |data.departure.cumulative| && Left(data) <= Right(data)
    ensures var delay, width := data.departure.firstMinute + n, Right(data) - Left(data) + 1;
            Prefix(Window(data.travel[delay], Left(data) - delay, width), width) == data.travel[delay].Mass()
  {
    var delay := data.departure.firstMinute + n;
    BoundsCover(data.departure, data.travel, |data.travel|, delay);
    WindowSum(data.travel[delay], Left(data) - delay, Right(data) - Left(data) + 1);
  }

  /** With travel masses one, the double sum exchanges to the departure's own mass. */
  lemma {:induction false} ConvolutionMass(data: ArrivalData, n: nat)
    requires data.Valid() && data.travel != [] && data.TravelMassesAreOne() && n <= |data.departure.cumulative|
    ensures Total(Convolved(data, n)) == Prefix(data.departure.Probabilities(), n)
  {
    if n == 0 {
      assert forall k :: 0 <= k < |Convolved(data, 0)| ==> Convolved(data, 0)[k] == TermSum(data, Left(data) + k, 0);
      PrefixZeros(Convolved(data, 0), 0, |Convolved(data, 0)|);
    } else {
      ConvolutionMass(data, n - 1);
      ColumnSum(data, n - 1);
      assert data.travel[data.departure.firstMinute + n - 1] in data.travel;
      assert Times(data.departure.Probabilities()[n - 1], 1.0) == data.departure.Probabilities()[n - 1];
    }
  }

  lemma {:induction false} TermSumNonNegative(data: ArrivalData, arrivalDelay: int, n: nat)
    requires data.Valid() && data.travel != [] && n <= |data.departure.cumulative|
    ensures TermSum(data, arrivalDelay, n) >= 0.0
  {
    if n > 0 {
      hide Term, ArrivalData.Valid;
      TermSumNonNegative(data, arrivalDelay, n - 1);
      TermNonNegative(data, arrivalDelay, n - 1);
    }
  }

  lemma TermNonNegative(data: ArrivalData, arrivalDelay: int, i: nat)
    requires data.Valid() && data.travel != [] && i < |data.departure.cumulative|
    ensures Term(data, arrivalDelay, i) >= 0.0
  {
    var delay := data.departure.firstMinute + i;
    assert data.travel[delay] in data.travel;
    ValidQueries(data.travel[delay], arrivalDelay - delay, arrivalDelay - delay);
    ValidProbabilities(data.departure);
    ProductNonNegative(data.travel[delay].Equal(arrivalDelay - delay), data.departure.Probabilities()[i]);
  }

  /** The arrival has exactly the mass of the departure, the convolution reaches it without any correction,
      and the result is a valid distribution. */
  lemma ArrivalMass(data: ArrivalData)
    requires data.Valid() && data.TravelMassesAreOne()
    ensures ArrivalDistribution(data).Mass() == data.departure.Mass()
    ensures ArrivalDistribution(data).Valid() && ArrivalDistribution(data).cumulative != []
    ensures data.travel != [] ==> Corrected(data.departure.Mass(), Convolution(data)) == Convolution(data)
  {
    ValidQueries(data.departure, 0, 0);
    if data.travel != [] {
      WindowNotEmpty(data);
      ConvolutionMass(data, |data.departure.cumulative|);
      ProbabilitiesTotal(data.departure);
      forall k | 0 <= k < |Convolution(data)|
        ensures Convolution(data)[k] >= 0.0
      {
        TermSumNonNegative(data, Left(data) + k, |data.departure.cumulative|);
      }
      InitValid(Convolution(data), Left(data));
      TrimKeepsMass(Convolution(data), Left(data));
    }
  }

  /** Even when travel masses are not one, the correction keeps the arrival's mass within its tolerance. */
  lemma ArrivalMassClose(data: ArrivalData)
    requires data.Valid()
    ensures CloseTo(data.departure.Mass(), ArrivalDistribution(data).Mass())
  {
    if data.message.None? && data.travel != [] {
      WindowNotEmpty(data);
      var p, expected := Convolution(data), data.departure.Mass();
      CorrectedMass(expected, p);
      TrimKeepsMass(Corrected(expected, p), Left(data));
    }
  }

  lemma CorrectedMass(expected: real, p: seq<real>)
    requires p != []
    ensures CloseTo(expected, Total(Corrected(expected, p)))
    ensures Corrected(expected, p) == p || Total(Corrected(expected, p)) == expected
  {
    var i := IndexOfMax(p, |p|);
    PrefixUpdate(p, i, p[i] + (expected - Total(p)), |p|);
  }

  /** The first of the largest values. */
  ghost predicate FirstLargest(p: seq<real>, i: nat) {
    && i < |p| && (forall j :: 0 <= j < |p| ==> p[j] <= p[i])
    && forall j :: 0 <= j < i ==> p[j] < p[i]
  }

  lemma {:induction false} IndexOfMaxIsFirst(p: seq<real>, k: nat)
    requires 0 < k <= |p|
    ensures forall j :: 0 <= j < IndexOfMax(p, k) ==> p[j] < p[IndexOfMax(p, k)]
  {
    if k > 1 {
      IndexOfMaxIsFirst(p, k - 1);
    }
  }

  /** A difference of less than a millionth is left as it is; a larger one goes to the first of the largest values. */
  lemma CorrectionMeans(expected: real, p: seq<real>)
    requires p != []
    ensures var difference := expected - Total(p);
            if -0.000001 < difference < 0.000001 then Corrected(expected, p) == p
            else exists i: nat :: FirstLargest(p, i) && Corrected(expected, p) == p[i := p[i] + difference]
  {
    IndexOfMaxIsFirst(p, |p|);
    assert FirstLargest(p, IndexOfMax(p, |p|));
  }
}
