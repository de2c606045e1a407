/** How waiting probabilities computed from the feeders relate to those computed from their cut distributions. */
module FeederProperties {
  import opened Sums
  import opened Integers
  import opened Distributions
  import opened Departure

  /** The mass that trimming removes at the right end of a feeder's cut distribution. */
  function Dropped(f: Feeder): real {
    if f.distribution.cumulative == [] then 0.0 else DroppedRight(CutValues(f))
  }

  function DroppedMasses(feeders: seq<Feeder>): seq<real> {
    seq(|feeders|, i requires 0 <= i < |feeders| => Dropped(feeders[i]))
  }

  function DroppedMass(feeders: seq<Feeder>): real {
    Total(DroppedMasses(feeders))
  }

  /** Trimming the cut distribution drops only zeros on the right. */
  ghost predicate CutsCleanly(f: Feeder) {
    var p := CutValues(f);
    p != [] ==> forall k :: Hi(p) < k < |p| ==> p[k] == 0.0
  }

  ghost predicate AllCutCleanly(feeders: seq<Feeder>) {
    forall f :: f in feeders ==> CutsCleanly(f)
  }

  /** Prefix sums of the cut values are the feeder's own cumulative query, capped at the latest feasible delay. */
  lemma {:induction false} CutPrefix(f: Feeder, k: nat)
    requires k <= |f.distribution.cumulative|
    ensures Prefix(CutValues(f), k) == f.distribution.SmallerEqual(Min(f.distribution.firstMinute + k - 1, f.LatestFeasibleDelay()))
  {
    if k > 0 {
      CutPrefix(f, k - 1);
      EqualIsIncrement(f.distribution, f.distribution.firstMinute + k - 1);
    }
  }

  lemma CutNonNegative(f: Feeder)
    requires f.Valid()
    ensures NonNegative(CutValues(f))
  {
    var p := CutValues(f);
    forall k | 0 <= k < |p|
      ensures p[k] >= 0.0
    {
      ValidQueries(f.distribution, f.distribution.firstMinute + k, f.distribution.firstMinute + k);
    }
  }

  /** Either the cut keeps the feeder's first minute, or it has no mass at all. */
  lemma CutShape(f: Feeder)
    requires f.Valid() && f.distribution.cumulative != []
    ensures Lo(CutValues(f)) == 0 || Total(CutValues(f)) == 0.0
  {
    var p := CutValues(f);
    if Lo(p) > 0 {
      assert |p| == |f.distribution.cumulative| && p[0] < THRESHOLD_SMALL_VALUES <= f.distribution.cumulative[0];
      assert f.distribution.Equal(f.distribution.firstMinute) == f.distribution.cumulative[0];
      assert f.distribution.firstMinute > f.LatestFeasibleDelay();
      CutPrefix(f, |p|);
    }
  }

  /** The case of a delay inside the feeder's range. */
  lemma CutInside(f: Feeder, delay: int)
    requires f.Valid() && f.distribution.cumulative != []
    requires f.distribution.firstMinute <= delay <= f.distribution.LastMinute()
    ensures var p := CutValues(f);
            var raw := RawSmallerEqual(p, f.distribution.firstMinute, delay);
            && (delay > f.distribution.firstMinute + Hi(p) ==> 0.0 <= Total(p) - raw <= DroppedRight(p))
            && (delay <= f.distribution.firstMinute + Hi(p) && delay >= f.LatestFeasibleDelay() ==> DroppedRight(p) == 0.0)
            && (Total(p) == 0.0 ==> raw == 0.0 && DroppedRight(p) == 0.0)
  {
    var d, p, lfd := f.distribution, CutValues(f), f.LatestFeasibleDelay();
    var k := delay - d.firstMinute + 1;
    CutNonNegative(f);
    PrefixMonotone(p, k, |p|);
    PrefixMonotone(p, Hi(p) + 1, |p|);
    if delay > d.firstMinute + Hi(p) {
      PrefixMonotone(p, Hi(p) + 1, k);
    } else if delay >= lfd {
      PrefixZeros(p, Hi(p) + 1, |p|);
    }
  }

  /** The probability that a feeder arrives after a delay, but in time. */
  function Waiting(f: Feeder, delay: int): real {
    var lfd := f.LatestFeasibleDelay();
    f.distribution.SmallerEqual(lfd) - f.distribution.SmallerEqual(Min(delay, lfd))
  }

  lemma CutMass(f: Feeder)
    requires f.Valid() && f.distribution.cumulative != []
    ensures CutDistribution(f).Valid()
    ensures CutDistribution(f).Mass() == Total(CutValues(f)) == f.distribution.SmallerEqual(f.LatestFeasibleDelay())
    ensures NonNegative(CutValues(f)) && 0.0 <= DroppedRight(CutValues(f))
  {
    var p := CutValues(f);
    CutNonNegative(f);
    TrimError(p, f.distribution.firstMinute, 0);
    TrimKeepsMass(p, f.distribution.firstMinute);
    DroppedNonNegative(p);
    CutPrefix(f, |p|);
  }

  /** The queries of cut and feeder at a delay, in the terms of the cut values. */
  lemma CutQueries(f: Feeder, delay: int)
    requires f.Valid() && f.distribution.cumulative != []
    ensures var p, first := CutValues(f), f.distribution.firstMinute;
            && CutDistribution(f).Greater(delay) == Total(p) -
               (if delay < first + Lo(p) then 0.0 else if delay > first + Hi(p) then Total(p)
                else RawSmallerEqual(p, first, delay) + DroppedRight(p))
            && Waiting(f, delay) == Total(p) - RawSmallerEqual(p, first, delay)
  {
    var p, first := CutValues(f), f.distribution.firstMinute;
    CutMass(f);
    QueriesSplitMass(CutDistribution(f), delay);
    TrimmedSmallerEqual(p, first, delay);
    if first <= delay < first + |p| {
      CutPrefix(f, delay - first + 1);
    }
  }

  /** What the program computes from the cut distribution is the feeder's waiting probability, up to the dropped mass. */
  lemma CutGreater(f: Feeder, delay: int)
    requires f.Valid()
    ensures 0.0 <= Waiting(f, delay) - CutDistribution(f).Greater(delay) <= Dropped(f)
    ensures CutDistribution(f).Valid()
  {
    if f.distribution.cumulative != [] {
      hide Waiting, CutDistribution, CutValues, DroppedRight;
      CutMass(f);
      CutQueries(f, delay);
      CutShape(f);
      if f.distribution.firstMinute <= delay <= f.distribution.LastMinute() {
        CutInside(f, delay);
      }
    }
  }

  function CutFactor(f: Feeder, timestamp: int): real {
    1.0 - CutDistribution(f).Greater(f.DelayAt(timestamp))
  }

  /** One feeder: the two factors agree up to the dropped mass, and once its waiting interval is over both are one. */
  lemma FactorGap(f: Feeder, timestamp: int)
    requires f.Valid()
    ensures 0.0 <= NoWaitingFor(f, timestamp) <= CutFactor(f, timestamp) <= 1.0
    ensures CutFactor(f, timestamp) - NoWaitingFor(f, timestamp) <= Dropped(f)
    ensures CutFactor(f, timestamp - 1) <= CutFactor(f, timestamp)
  {
    var d, delay, lfd := f.distribution, f.DelayAt(timestamp), f.LatestFeasibleDelay();
    CutGreater(f, delay);
    ValidQueries(CutDistribution(f), delay - 1, delay);
    ValidQueries(d, Min(delay, lfd), lfd);
  }

  /** The program's product over the cut distributions. */
  function CutNoWaiting(feeders: seq<Feeder>, timestamp: int): real {
    NoCutAfter(feeders, CutDistributions(feeders), timestamp)
  }

  /** All feeders: the same for the products. */
  lemma ProductGap(feeders: seq<Feeder>, timestamp: int)
    requires forall f :: f in feeders ==> f.Valid()
    ensures 0.0 <= NoWaiting(feeders, timestamp) <= CutNoWaiting(feeders, timestamp) <= 1.0
    ensures CutNoWaiting(feeders, timestamp) - NoWaiting(feeders, timestamp) <= DroppedMass(feeders)
  {
    forall i | 0 <= i < |feeders| {
      FactorGap(feeders[i], timestamp);
    }
    ProductsClose(NoWaitingFactors(feeders, timestamp), CutFactors(feeders, CutDistributions(feeders), timestamp),
                  DroppedMasses(feeders), |feeders|);
  }

  lemma CutNoWaitingMonotone(feeders: seq<Feeder>, timestamp: int)
    requires forall f :: f in feeders ==> f.Valid()
    ensures CutNoWaiting(feeders, timestamp - 1) <= CutNoWaiting(feeders, timestamp)
  {
    var cuts := CutDistributions(feeders);
    var before, after := CutFactors(feeders, cuts, timestamp - 1), CutFactors(feeders, cuts, timestamp);
    forall i | 0 <= i < |feeders|
      ensures 0.0 <= before[i] <= after[i]
    {
      FactorGap(feeders[i], timestamp);
      FactorGap(feeders[i], timestamp - 1);
    }
    ProductsOrdered(before, after, |feeders|);
  }

  /** Once every feeder's waiting interval is over, nothing is waited for. */
  lemma NoWaitingAtEnd(feeders: seq<Feeder>, timestamp: int)
    requires forall f :: f in feeders ==> timestamp >= f.latestFeasibleArrival + f.transferTime
    ensures NoWaiting(feeders, timestamp) == 1.0
  {
    ProductOfOnes(NoWaitingFactors(feeders, timestamp), |feeders|);
  }

  lemma CleanCutsDropNothing(feeders: seq<Feeder>)
    requires AllCutCleanly(feeders)
    ensures DroppedMass(feeders) == 0.0
  {
    forall i | 0 <= i < |feeders|
      ensures Dropped(feeders[i]) == 0.0
    {
      assert feeders[i] in feeders;
      var p := CutValues(feeders[i]);
      if p != [] {
        PrefixZeros(p, Hi(p) + 1, |p|);
      }
    }
    PrefixZeros(DroppedMasses(feeders), 0, |feeders|);
  }

  /** With clean cuts, having to wait at a minute is exactly the increment of not having to wait. */
  lemma HadToWaitIsIncrement(feeders: seq<Feeder>, timestamp: int)
    requires forall f :: f in feeders ==> f.Valid()
    requires AllCutCleanly(feeders)
    ensures HadToWait(feeders, CutDistributions(feeders), timestamp) == NoWaiting(feeders, timestamp) - NoWaiting(feeders, timestamp - 1)
  {
    CleanCutsDropNothing(feeders);
    ProductGap(feeders, timestamp);
    ProductGap(feeders, timestamp - 1);
  }

  // ----- When trimming changes nothing

  /** From this delay on, trimming has removed no mass of the feeder's cut distribution. */
  ghost predicate Harmless(f: Feeder, delay: int) {
    var p, first := CutValues(f), f.distribution.firstMinute;
    p == [] || delay < first || forall j :: 0 <= j < |p| && j > Hi(p) && j > delay - first ==> p[j] == 0.0
  }

  /** The cut values that the query after a delay misses. */
  function Missed(f: Feeder, delay: int): real {
    var p, first := CutValues(f), f.distribution.firstMinute;
    if p == [] || delay < first then 0.0
    else Total(p) - Prefix(p, if delay - first >= |p| then |p| else if delay - first > Hi(p) then delay - first + 1 else Hi(p) + 1)
  }

  lemma MissedIff(f: Feeder, delay: int)
    requires f.Valid()
    ensures Missed(f, delay) == 0.0 <==> Harmless(f, delay)
  {
    var p, first := CutValues(f), f.distribution.firstMinute;
    if p != [] && delay >= first {
      CutNonNegative(f);
      var from := if delay - first >= |p| then |p| else if delay - first > Hi(p) then delay - first + 1 else Hi(p) + 1;
      RestIsZeroIff(p, from);
    }
  }

  lemma RestIsZeroIff(p: seq<real>, from: nat)
    requires NonNegative(p) && from <= |p|
    ensures Total(p) == Prefix(p, from) <==> forall j :: from <= j < |p| ==> p[j] == 0.0
  {
    if forall j :: from <= j < |p| ==> p[j] == 0.0 {
      PrefixZeros(p, from, |p|);
    } else {
      var j :| from <= j < |p| && p[j] != 0.0;
      PrefixMonotone(p, from, j);
      PrefixMonotone(p, j + 1, |p|);
      assert Prefix(p, j + 1) == Prefix(p, j) + p[j];
    }
  }

  lemma SameSize(f: Feeder)
    ensures |CutValues(f)| == |f.distribution.cumulative|
  {
  }

  lemma NothingMissed(f: Feeder, delay: int)
    requires f.distribution.cumulative == []
    ensures Waiting(f, delay) == CutDistribution(f).Greater(delay) == Missed(f, delay) == 0.0
  {
  }

  /** The error of the program's query is exactly the cut values that it misses. */
  lemma CutGreaterExact(f: Feeder, delay: int)
    requires f.Valid()
    ensures Waiting(f, delay) - CutDistribution(f).Greater(delay) == Missed(f, delay)
  {
    hide Waiting, CutDistribution, CutValues, Prefix, FirstKept, LastKept;
    var d, p := f.distribution, CutValues(f);
    if d.cumulative == [] {
      NothingMissed(f, delay);
    } else {
      SameSize(f);
      CutMass(f);
      CutQueries(f, delay);
      CutShape(f);
      if d.firstMinute <= delay < d.firstMinute + |p| {
        PrefixMonotone(p, 0, Hi(p) + 1);
        PrefixMonotone(p, Hi(p) + 1, |p|);
        PrefixMonotone(p, 0, delay - d.firstMinute + 1);
        PrefixMonotone(p, delay - d.firstMinute + 1, |p|);
      }
    }
  }

  lemma FactorKeptIff(f: Feeder, timestamp: int)
    requires f.Valid()
    ensures CutFactor(f, timestamp) == NoWaitingFor(f, timestamp) <==> Harmless(f, f.DelayAt(timestamp))
  {
    hide Missed, Harmless, CutDistribution;
    CutGreaterExact(f, f.DelayAt(timestamp));
    MissedIff(f, f.DelayAt(timestamp));
  }

  /** Trimming does not show at this time: some cut feeder is certainly waited for, or all cuts are harmless from here on. */
  ghost predicate Unaffected(feeders: seq<Feeder>, timestamp: int) {
    || (exists f :: f in feeders && CutFactor(f, timestamp) == 0.0)
    || (forall f :: f in feeders ==> Harmless(f, f.DelayAt(timestamp)))
  }

  /** The products over cut and over full feeders agree if and only if trimming does not show. */
  lemma ProductKeptIff(feeders: seq<Feeder>, timestamp: int)
    requires forall f :: f in feeders ==> f.Valid()
    ensures CutNoWaiting(feeders, timestamp) == NoWaiting(feeders, timestamp) <==> Unaffected(feeders, timestamp)
  {
    hide Harmless, CutFactor, NoWaitingFor, Product;
    var raw, cut := NoWaitingFactors(feeders, timestamp), CutFactors(feeders, CutDistributions(feeders), timestamp);
    CutFactorsAre(feeders, timestamp);
    forall i | 0 <= i < |feeders|
      ensures 0.0 <= raw[i] <= cut[i]
      ensures raw[i] == cut[i] <==> Harmless(feeders[i], feeders[i].DelayAt(timestamp))
    {
      FactorGap(feeders[i], timestamp);
      FactorKeptIff(feeders[i], timestamp);
    }
    ProductsAgreeIff(raw, cut);
    assert (exists i :: 0 <= i < |cut| && cut[i] == 0.0) <==> exists f :: f in feeders && CutFactor(f, timestamp) == 0.0 by {
      if f :| f in feeders && CutFactor(f, timestamp) == 0.0 {
        var i :| 0 <= i < |feeders| && feeders[i] == f;
        assert cut[i] == 0.0;
      }
      if i :| 0 <= i < |cut| && cut[i] == 0.0 {
        assert feeders[i] in feeders && CutFactor(feeders[i], timestamp) == 0.0;
      }
    }
    assert raw == cut <==> forall i :: 0 <= i < |feeders| ==> raw[i] == cut[i];
  }

  lemma CutFactorsAre(feeders: seq<Feeder>, timestamp: int)
    ensures forall i :: 0 <= i < |feeders| ==>
              CutFactors(feeders, CutDistributions(feeders), timestamp)[i] == CutFactor(feeders[i], timestamp)
  {
  }
}
