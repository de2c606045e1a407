/** Looking up the travel-time distributions of a train class, one for each departure delay. */
module TravelTimes {
  import opened Distributions

  /** The distribution for one scheduled travel time and one departure delay. */
  datatype Mapping = Mapping(travelTime: nat, delay: nat, distribution: Distribution)

  /** What the loader guarantees: sorted by travel time and delay, without duplicates. */
  ghost predicate Ordered(mappings: seq<Mapping>) {
    forall i, j :: 0 <= i < j < |mappings| ==>
      mappings[i].travelTime < mappings[j].travelTime || (mappings[i].travelTime == mappings[j].travelTime && mappings[i].delay < mappings[j].delay)
  }

  const DEFAULT := OnePoint(0, 1.0)

  /** The first mapping for a travel time of at least t. */
  function LowerBound(mappings: seq<Mapping>, t: nat): (k: nat)
    ensures k <= |mappings| && (forall i :: 0 <= i < k ==> mappings[i].travelTime < t)
    ensures k < |mappings| ==> mappings[k].travelTime >= t
  {
    if mappings == [] || mappings[0].travelTime >= t then 0 else 1 + LowerBound(mappings[1..], t)
  }

  /** The first mapping for a longer travel time. */
  function UpperBound(mappings: seq<Mapping>, t: nat): (k: nat)
    ensures k <= |mappings| && (forall i :: 0 <= i < k ==> mappings[i].travelTime <= t)
    ensures k < |mappings| ==> mappings[k].travelTime > t
  {
    if mappings == [] || mappings[0].travelTime > t then 0 else 1 + UpperBound(mappings[1..], t)
  }

  /** Travel times beyond the table use the longest one. */
  function Covered(mappings: seq<Mapping>, t: nat): nat
    requires mappings != []
  {
    if LowerBound(mappings, t) == |mappings| then mappings[|mappings| - 1].travelTime else t
  }

  /** Where the loop over the mappings stops: before the last one, or at the first one for a larger delay. */
  function Stop(mappings: seq<Mapping>, k: nat, last: nat, toDelay: nat): (stop: nat)
    requires k <= last < |mappings|
    ensures k <= stop <= last
    ensures forall i :: k <= i < stop ==> mappings[i].delay <= toDelay
    ensures stop < last ==> mappings[stop].delay > toDelay
    decreases last - k
  {
    if k < last && mappings[k].delay <= toDelay then Stop(mappings, k + 1, last, toDelay) else k
  }

  /** The distributions from `begin` up to `stop`, the last one being repeated for further delays. */
  function Repeated(mappings: seq<Mapping>, begin: nat, stop: nat, size: nat): seq<Distribution>
    requires begin < stop <= |mappings|
  {
    seq(size, i requires 0 <= i < size => mappings[if begin + i < stop then begin + i else stop - 1].distribution)
  }

  /** What a run of mappings for one travel time gives. */
  function FromRun(mappings: seq<Mapping>, begin: nat, end: nat, toDelay: nat): seq<Distribution>
    requires begin < end <= |mappings|
  {
    var stop := Stop(mappings, begin, end - 1, toDelay);
    if stop == begin then []
    else Repeated(mappings, begin, stop, if stop - begin > toDelay + 1 then stop - begin else toDelay + 1)
  }

  /** The distributions for departure delays from 0 on; none if there are no mappings for the travel time. */
  function TravelFor(mappings: seq<Mapping>, travelTime: nat, toDelay: int): seq<Distribution> {
    if mappings == [] || toDelay < 0 then []
    else
      var t := Covered(mappings, travelTime);
      var begin, end := LowerBound(mappings, t), UpperBound(mappings, t);
      if begin < end then FromRun(mappings, begin, end, toDelay)
      else if t == 0 then seq(toDelay + 1, _ => DEFAULT) else []
  }

  /** The loops of the look-up: the end of the mappings for a travel time is decremented, and the loop stops before it. */
  method GetDistributions(mappings: seq<Mapping>, travelTime: nat, toDelay: nat) returns (distributions: seq<Distribution>)
    requires mappings != []
    ensures distributions == TravelFor(mappings, travelTime, toDelay)
    decreases if LowerBound(mappings, travelTime) == |mappings| then 1 else 0
  {
    hide FromRun;
    var begin := LowerBound(mappings, travelTime);
    if begin == |mappings| {
      var longest := mappings[|mappings| - 1].travelTime;
      LongestIsCovered(mappings, longest);
      distributions := GetDistributions(mappings, longest, toDelay);
      return;
    }
    var end: int := UpperBound(mappings, travelTime);
    end := end - 1;
    if end < begin {
      return if travelTime == 0 then seq(toDelay + 1, _ => DEFAULT) else [];
    }
    distributions := CopyRun(mappings, begin, end, toDelay);
  }

  method CopyRun(mappings: seq<Mapping>, begin: nat, end: nat, toDelay: nat) returns (distributions: seq<Distribution>)
    requires begin <= end < |mappings|
    ensures distributions == FromRun(mappings, begin, end + 1, toDelay)
  {
    hide Stop;
    distributions := [];
    var it := begin;
    StopStep(mappings, it, end, toDelay);
    while it != end && mappings[it].delay <= toDelay
      invariant begin <= it <= end && |distributions| == it - begin
      invariant Stop(mappings, begin, end, toDelay) == Stop(mappings, it, end, toDelay)
      invariant it == end || mappings[it].delay > toDelay ==> Stop(mappings, it, end, toDelay) == it
      invariant it < end && mappings[it].delay <= toDelay ==> Stop(mappings, it, end, toDelay) == Stop(mappings, it + 1, end, toDelay)
      invariant forall i :: 0 <= i < |distributions| ==> distributions[i] == mappings[begin + i].distribution
      decreases end - it
    {
      distributions := distributions + [mappings[it].distribution];
      it := it + 1;
      StopStep(mappings, it, end, toDelay);
    }
    if distributions == [] {
      return;
    }
    distributions := RepeatLast(mappings, begin, it, distributions, toDelay);
  }

  lemma StopStep(mappings: seq<Mapping>, k: nat, last: nat, toDelay: nat)
    requires k <= last < |mappings|
    ensures Stop(mappings, k, last, toDelay) ==
            if k < last && mappings[k].delay <= toDelay then Stop(mappings, k + 1, last, toDelay) else k
  {
  }

  /** Further delays get the last distribution that was copied. */
  method RepeatLast(mappings: seq<Mapping>, begin: nat, stop: nat, copied: seq<Distribution>, toDelay: nat)
      returns (distributions: seq<Distribution>)
    requires begin < stop <= |mappings| && |copied| == stop - begin
    requires forall i :: 0 <= i < |copied| ==> copied[i] == mappings[begin + i].distribution
    ensures distributions == Repeated(mappings, begin, stop, if stop - begin > toDelay + 1 then stop - begin else toDelay + 1)
  {
    distributions := copied;
    while |distributions| <= toDelay
      invariant |distributions| >= stop - begin && (|distributions| <= toDelay + 1 || |distributions| == stop - begin)
      invariant forall i :: 0 <= i < |distributions| ==> distributions[i] == mappings[if begin + i < stop then begin + i else stop - 1].distribution
      decreases toDelay + 1 - |distributions|
    {
      distributions := distributions + [distributions[|distributions| - 1]];
    }
  }

  lemma LongestIsCovered(mappings: seq<Mapping>, longest: nat)
    requires mappings != [] && longest == mappings[|mappings| - 1].travelTime
    ensures LowerBound(mappings, longest) < |mappings|
  {
  }

  method GetTravelTimeDistributions(mappings: seq<Mapping>, travelTime: nat, toDelay: nat) returns (distributions: seq<Distribution>)
    ensures distributions == TravelFor(mappings, travelTime, toDelay)
  {
    if mappings == [] {
      return [];
    }
    distributions := GetDistributions(mappings, travelTime, toDelay);
  }

  // ----- What the look-up delivers

  /** The mappings between the bounds are those for the travel time. */
  lemma BoundsGroup(mappings: seq<Mapping>, t: nat)
    requires Ordered(mappings)
    ensures forall i :: LowerBound(mappings, t) <= i < UpperBound(mappings, t) ==> mappings[i].travelTime == t
  {
    hide LowerBound, UpperBound;
    var begin, end := LowerBound(mappings, t), UpperBound(mappings, t);
    forall i | begin <= i < end
      ensures mappings[i].travelTime == t
    {
      assert i > begin ==> mappings[begin].travelTime <= mappings[i].travelTime;
    }
  }

  /** In a run of mappings for one travel time, the i-th delay is at least i. */
  lemma {:induction false} DelayAtLeast(mappings: seq<Mapping>, k: nat, i: nat)
    requires Ordered(mappings) && k + i < |mappings| && forall j :: k <= j <= k + i ==> mappings[j].travelTime == mappings[k].travelTime
    ensures mappings[k + i].delay >= i
  {
    if i > 0 {
      DelayAtLeast(mappings, k, i - 1);
      assert mappings[k + i - 1].delay < mappings[k + i].delay;
    }
  }

  lemma RunSize(mappings: seq<Mapping>, t: nat, toDelay: nat)
    requires Ordered(mappings) && LowerBound(mappings, t) < UpperBound(mappings, t)
    ensures var begin, end := LowerBound(mappings, t), UpperBound(mappings, t);
            Stop(mappings, begin, end - 1, toDelay) <= begin + toDelay + 1
  {
    var begin, end := LowerBound(mappings, t), UpperBound(mappings, t);
    hide LowerBound, UpperBound, Stop;
    BoundsGroup(mappings, t);
    var stop := Stop(mappings, begin, end - 1, toDelay);
    if stop > begin {
      DelayAtLeast(mappings, begin, stop - 1 - begin);
      assert mappings[stop - 1].delay <= toDelay;
    }
  }

  /** A run of mappings gives nothing, or one distribution for every departure delay. */
  lemma FromRunIs(mappings: seq<Mapping>, begin: nat, end: nat, toDelay: nat)
    requires begin < end <= |mappings| && Stop(mappings, begin, end - 1, toDelay) <= begin + toDelay + 1
    ensures var stop := Stop(mappings, begin, end - 1, toDelay);
            && (stop == begin ==> FromRun(mappings, begin, end, toDelay) == [])
            && (stop > begin ==> FromRun(mappings, begin, end, toDelay) == Repeated(mappings, begin, stop, toDelay + 1))
  {
    hide Stop, Repeated;
  }

  /** Every look-up delivers nothing, or one distribution for every departure delay; each is the default or that of a mapping. */
  lemma TravelForComplete(mappings: seq<Mapping>, travelTime: nat, toDelay: int)
    requires Ordered(mappings)
    ensures TravelFor(mappings, travelTime, toDelay) == [] || |TravelFor(mappings, travelTime, toDelay)| == toDelay + 1
    ensures forall d :: d in TravelFor(mappings, travelTime, toDelay) ==> d == DEFAULT || exists m :: m in mappings && m.distribution == d
  {
    hide LowerBound, UpperBound, Stop, Ordered, FromRun, Repeated;
    if mappings != [] && toDelay >= 0 {
      var t := Covered(mappings, travelTime);
      var begin, end := LowerBound(mappings, t), UpperBound(mappings, t);
      if begin < end {
        RunSize(mappings, t, toDelay);
        RunMembers(mappings, begin, end, toDelay);
      }
    }
  }

  lemma RunMembers(mappings: seq<Mapping>, begin: nat, end: nat, toDelay: nat)
    requires begin < end <= |mappings| && Stop(mappings, begin, end - 1, toDelay) <= begin + toDelay + 1
    ensures FromRun(mappings, begin, end, toDelay) == [] || |FromRun(mappings, begin, end, toDelay)| == toDelay + 1
    ensures forall d :: d in FromRun(mappings, begin, end, toDelay) ==> exists m :: m in mappings && m.distribution == d
  {
    hide Stop, FromRun, Repeated;
    FromRunIs(mappings, begin, end, toDelay);
    var run, stop := FromRun(mappings, begin, end, toDelay), Stop(mappings, begin, end - 1, toDelay);
    if stop > begin {
      RepeatedIs(mappings, begin, stop, toDelay + 1);
    }
    forall d | d in run
      ensures exists m :: m in mappings && m.distribution == d
    {
      var i :| 0 <= i < |run| && run[i] == d;
      assert mappings[if begin + i < stop then begin + i else stop - 1] in mappings;
    }
  }

  lemma {:induction false} StopsAtLast(mappings: seq<Mapping>, k: nat, last: nat, toDelay: nat)
    requires k <= last < |mappings| && forall j :: k <= j < last ==> mappings[j].delay <= toDelay
    ensures Stop(mappings, k, last, toDelay) == last
    decreases last - k
  {
    if k < last {
      StopsAtLast(mappings, k + 1, last, toDelay);
    }
  }

  /** In any table, delays from the latest one on are given the mapping before it, or nothing if there is only one. */
  lemma LastIsNeverDelivered(mappings: seq<Mapping>, t: nat, toDelay: nat)
    requires Ordered(mappings) && LowerBound(mappings, t) < UpperBound(mappings, t)
    requires mappings[UpperBound(mappings, t) - 1].delay <= toDelay
    ensures var begin, last := LowerBound(mappings, t), UpperBound(mappings, t) - 1;
            && (begin == last ==> TravelFor(mappings, t, toDelay) == [])
            && (begin < last ==> |TravelFor(mappings, t, toDelay)| == toDelay + 1
                                 && TravelFor(mappings, t, toDelay)[toDelay] == mappings[last - 1].distribution)
  {
    hide LowerBound, UpperBound, Stop, TravelFor, FromRun, Repeated;
    var begin, last := LowerBound(mappings, t), UpperBound(mappings, t) - 1;
    BoundsGroup(mappings, t);
    RunSize(mappings, t, toDelay);
    RunIsDelivered(mappings, t, toDelay);
    FromRunIs(mappings, begin, last + 1, toDelay);
    forall j | begin <= j <= last
      ensures mappings[j].delay <= toDelay
    {
      assert j < last ==> mappings[j].travelTime < mappings[last].travelTime || mappings[j].delay < mappings[last].delay;
    }
    StopsAtLast(mappings, begin, last, toDelay);
    if begin < last {
      RepeatedIs(mappings, begin, last, toDelay + 1);
    }
  }

  // ----- When every delay gets its own distribution

  /** What the loader checks: the delays of a travel time are 0, 1, 2 and so on. */
  ghost predicate Contiguous(mappings: seq<Mapping>, t: nat) {
    forall i :: LowerBound(mappings, t) <= i < UpperBound(mappings, t) ==> mappings[i].delay == i - LowerBound(mappings, t)
  }

  /** The mapping that is meant for a departure delay: its own, or that of the latest delay that exists. */
  function Meant(begin: nat, last: nat, delay: nat): (k: nat)
    requires begin <= last
    ensures begin <= k <= last
  {
    if begin + delay < last then begin + delay else last
  }

  /** The promise of the look-up: one distribution for every delay, each the one that is meant. */
  ghost predicate AsMeant(mappings: seq<Mapping>, t: nat, toDelay: nat)
    requires LowerBound(mappings, t) < UpperBound(mappings, t)
  {
    var begin, last, r := LowerBound(mappings, t), UpperBound(mappings, t) - 1, TravelFor(mappings, t, toDelay);
    && |r| == toDelay + 1
    && forall i :: 0 <= i <= toDelay ==> r[i] == mappings[Meant(begin, last, i)].distribution
  }

  /** What the look-up delivers: nothing if there is only one mapping, and otherwise for every delay its own mapping, but
      never the last one. */
  lemma DeliveredAt(mappings: seq<Mapping>, t: nat, toDelay: nat)
    requires LowerBound(mappings, t) < UpperBound(mappings, t) && Contiguous(mappings, t)
    ensures var begin, last, r := LowerBound(mappings, t), UpperBound(mappings, t) - 1, TravelFor(mappings, t, toDelay);
            && (begin == last ==> r == [])
            && (begin < last ==>
                  (|r| == toDelay + 1 && forall i :: 0 <= i <= toDelay ==> r[i] == mappings[Meant(begin, last - 1, i)].distribution))
  {
    hide *;
    StopsAt(mappings, t, toDelay);
    RunIsDelivered(mappings, t, toDelay);
    RunDelivers(mappings, LowerBound(mappings, t), UpperBound(mappings, t) - 1, toDelay);
  }

  lemma RunIsDelivered(mappings: seq<Mapping>, t: nat, toDelay: nat)
    requires LowerBound(mappings, t) < UpperBound(mappings, t)
    ensures TravelFor(mappings, t, toDelay) == FromRun(mappings, LowerBound(mappings, t), UpperBound(mappings, t), toDelay)
  {
    hide LowerBound, UpperBound, FromRun;
  }

  lemma RunDelivers(mappings: seq<Mapping>, begin: nat, last: nat, toDelay: nat)
    requires begin <= last < |mappings|
    requires Stop(mappings, begin, last, toDelay) == if begin + toDelay + 1 >= last then last else begin + toDelay + 1
    ensures var r := FromRun(mappings, begin, last + 1, toDelay);
            && (begin == last ==> r == [])
            && (begin < last ==>
                  (|r| == toDelay + 1 && forall i :: 0 <= i <= toDelay ==> r[i] == mappings[Meant(begin, last - 1, i)].distribution))
  {
    hide Stop, Repeated, FromRun;
    FromRunIs(mappings, begin, last + 1, toDelay);
    if begin < last {
      var stop := if begin + toDelay + 1 >= last then last else begin + toDelay + 1;
      RepeatedIs(mappings, begin, stop, toDelay + 1);
      var r := FromRun(mappings, begin, last + 1, toDelay);
      forall i | 0 <= i <= toDelay
        ensures r[i] == mappings[Meant(begin, last - 1, i)].distribution
      {
        assert Meant(begin, last - 1, i) == if begin + i < stop then begin + i else stop - 1;
      }
    }
  }

  lemma RepeatedIs(mappings: seq<Mapping>, begin: nat, stop: nat, size: nat)
    requires begin < stop <= |mappings|
    ensures |Repeated(mappings, begin, stop, size)| == size
    ensures forall i :: 0 <= i < size ==>
              Repeated(mappings, begin, stop, size)[i] == mappings[if begin + i < stop then begin + i else stop - 1].distribution
  {
  }

  /** The loop stops behind the delays that are asked for, and before the last mapping at the latest. */
  lemma StopsAt(mappings: seq<Mapping>, t: nat, toDelay: nat)
    requires LowerBound(mappings, t) < UpperBound(mappings, t) && Contiguous(mappings, t)
    ensures var begin, last := LowerBound(mappings, t), UpperBound(mappings, t) - 1;
            Stop(mappings, begin, last, toDelay) == if begin + toDelay + 1 >= last then last else begin + toDelay + 1
  {
    hide LowerBound, UpperBound, Stop;
    var begin, last := LowerBound(mappings, t), UpperBound(mappings, t) - 1;
    if begin + toDelay + 1 >= last {
      StopsAtLast(mappings, begin, last, toDelay);
    } else {
      StopsAfter(mappings, begin, begin + toDelay + 1, last, toDelay);
    }
  }

  lemma {:induction false} StopsAfter(mappings: seq<Mapping>, k: nat, end: nat, last: nat, toDelay: nat)
    requires k <= end < last < |mappings| && mappings[end].delay > toDelay
    requires forall j :: k <= j < end ==> mappings[j].delay <= toDelay
    ensures Stop(mappings, k, last, toDelay) == end
    decreases end - k
  {
    if k < end {
      StopsAfter(mappings, k + 1, end, last, toDelay);
    }
  }

  /** The look-up keeps its promise for a travel time of the table if and only if it is asked only for delays before the latest
      one that exists, or that one has the same distribution as the one before it. */
  lemma AsMeantIff(mappings: seq<Mapping>, t: nat, toDelay: nat)
    requires LowerBound(mappings, t) < UpperBound(mappings, t) && Contiguous(mappings, t)
    ensures var begin, last := LowerBound(mappings, t), UpperBound(mappings, t) - 1;
            AsMeant(mappings, t, toDelay) <==>
            begin + toDelay < last || (begin < last && mappings[last - 1].distribution == mappings[last].distribution)
  {
    hide LowerBound, UpperBound, TravelFor;
    DeliveredAt(mappings, t, toDelay);
    var begin, last, r := LowerBound(mappings, t), UpperBound(mappings, t) - 1, TravelFor(mappings, t, toDelay);
    if begin < last <= begin + toDelay {
      assert r[last - begin] == mappings[last - 1].distribution;
      assert Meant(begin, last, last - begin) == last;
    }
  }

  // ----- A table for which the promise fails

  /** Two delays of one travel time: on time, and one minute late. */
  const LATE_TABLE := [Mapping(20, 0, OnePoint(0, 1.0)), Mapping(20, 1, OnePoint(1, 1.0))]

  /** Every departure gets the travel times of a departure on time. */
  lemma LatestDelayIsNotDelivered(toDelay: nat)
    requires toDelay > 0
    ensures Ordered(LATE_TABLE) && LowerBound(LATE_TABLE, 20) < UpperBound(LATE_TABLE, 20) && Contiguous(LATE_TABLE, 20)
    ensures !AsMeant(LATE_TABLE, 20, toDelay)
    ensures |TravelFor(LATE_TABLE, 20, toDelay)| == toDelay + 1
    ensures forall i :: 0 <= i <= toDelay ==> TravelFor(LATE_TABLE, 20, toDelay)[i] == OnePoint(0, 1.0)
  {
    LateTableBounds();
    hide LowerBound, UpperBound, TravelFor;
    DeliveredAt(LATE_TABLE, 20, toDelay);
    AsMeantIff(LATE_TABLE, 20, toDelay);
  }

  lemma LateTableBounds()
    ensures LowerBound(LATE_TABLE, 20) == 0 && UpperBound(LATE_TABLE, 20) == 2
  {
    assert LATE_TABLE[1..] == [LATE_TABLE[1]] && LATE_TABLE[1..][1..] == [];
  }

  // ----- Travel times that are not in the table

  /** Travel times beyond the table are looked up as the longest one in it. */
  lemma BeyondTable(mappings: seq<Mapping>, t: nat, toDelay: int)
    requires Ordered(mappings) && mappings != [] && mappings[|mappings| - 1].travelTime < t
    ensures TravelFor(mappings, t, toDelay) == TravelFor(mappings, mappings[|mappings| - 1].travelTime, toDelay)
    ensures LowerBound(mappings, mappings[|mappings| - 1].travelTime) < UpperBound(mappings, mappings[|mappings| - 1].travelTime)
  {
    hide FromRun, LowerBound, UpperBound;
    var longest := mappings[|mappings| - 1].travelTime;
    LongestIsCovered(mappings, longest);
    assert UpperBound(mappings, longest) == |mappings|;
  }

  /** For a travel time in between that has no mappings nothing is delivered; a ride without travel time gets the default. */
  lemma NotInTable(mappings: seq<Mapping>, t: nat, toDelay: nat)
    requires mappings != [] && mappings[|mappings| - 1].travelTime >= t && forall m :: m in mappings ==> m.travelTime != t
    requires Ordered(mappings)
    ensures TravelFor(mappings, t, toDelay) == if t == 0 then seq(toDelay + 1, _ => OnePoint(0, 1.0)) else []
  {
    hide FromRun, LowerBound, UpperBound;
    var begin, end := LowerBound(mappings, t), UpperBound(mappings, t);
    assert begin < |mappings| ==> mappings[begin] in mappings;
    assert begin >= end;
  }
}
