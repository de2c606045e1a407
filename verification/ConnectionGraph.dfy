/** The connection graph: stops with alternative journeys, grown one journey at a time. */
module ConnectionGraph {
  import opened Distributions
  import opened EarlyWalks
  import opened JourneySplit

  const INDEX_DEPARTURE_STOP: nat := 0
  const INDEX_ARRIVAL_STOP: nat := 1
  const INDEX_FIRST_INTERMEDIATE_STOP: nat := 2

  datatype Alternative = Alternative(journeyIndex: nat, nextStop: nat, departure: Distribution, arrival: Distribution)

  datatype GraphStop = GraphStop(index: nat, alternatives: seq<Alternative>)

  /** An alternative that is not rated yet. */
  function Unrated(journeyIndex: nat, nextStop: nat): Alternative {
    Alternative(journeyIndex, nextStop, EMPTY, EMPTY)
  }

  // ----- The graphs the builder makes

  /** Stop k of a graph with one base journey in n pieces. */
  function BaseStop(k: nat, n: nat): GraphStop
    requires 0 < n
  {
    if k == INDEX_DEPARTURE_STOP then
      GraphStop(k, [Unrated(0, if n == 1 then INDEX_ARRIVAL_STOP else INDEX_FIRST_INTERMEDIATE_STOP)])
    else if k == INDEX_ARRIVAL_STOP then GraphStop(k, [])
    else GraphStop(k, [Unrated(k - 1, if k == n then INDEX_ARRIVAL_STOP else k + 1)])
  }

  function BaseStops(n: nat): seq<GraphStop>
    requires 0 < n
  {
    seq(n + 1, k requires 0 <= k => BaseStop(k, n))
  }

  function WithAlternative(stop: GraphStop, alternative: Alternative): GraphStop {
    stop.(alternatives := stop.alternatives + [alternative])
  }

  /** The k-th stop that an alternative in n pieces adds. */
  function AddedStop(stops: nat, journeys: nat, n: nat, k: nat): GraphStop {
    GraphStop(stops + k, [Unrated(journeys + 1 + k, if k + 2 == n then INDEX_ARRIVAL_STOP else stops + k + 1)])
  }

  function AddedStops(stops: nat, journeys: nat, n: nat, count: nat): seq<GraphStop> {
    seq(count, k requires 0 <= k => AddedStop(stops, journeys, n, k))
  }

  /** The stops after adding an alternative in n pieces at a stop. */
  function AlternativeStops(stops: seq<GraphStop>, journeys: nat, first: nat, n: nat): seq<GraphStop>
    requires first < |stops| && 0 < n
  {
    stops[first := WithAlternative(stops[first], Unrated(journeys, if n == 1 then INDEX_ARRIVAL_STOP else |stops|))]
    + AddedStops(|stops|, journeys, n, n - 1)
  }

  class ConnectionGraph {
    var stops: seq<GraphStop>
    var journeys: seq<Journey>

    constructor ()
      ensures stops == [] && journeys == []
    {
      stops, journeys := [], [];
    }

    method AddBaseJourney(base: Journey)
      requires base.Valid() && stops == [] && journeys == []
      modifies this
      ensures Fits(base.stops, base.transports) && Moved(base).Valid()
      ensures journeys == Pieces(Moved(base))
      ensures stops == BaseStops(|journeys|)
    {
      hide Moved, Pieces, Journey.Valid, Fits;
      MovedPieces(base);
      var moved := MoveEarlyWalk(base);
      var pieces := SplitJourney(moved);
      var n := |pieces|;
      var stopIdx := INDEX_DEPARTURE_STOP;
      for i := 0 to n
        invariant journeys == pieces[..i]
        invariant |stops| == if i == 0 then 0 else i + 1
        invariant forall k :: 0 <= k < |stops| ==> stops[k] == BaseStop(k, n)
        invariant stopIdx == if i == 0 then INDEX_DEPARTURE_STOP else if i == n then INDEX_ARRIVAL_STOP else i + 1
      {
        var index, journeyIndex := stopIdx, |journeys|;
        if stopIdx == INDEX_DEPARTURE_STOP && n > 1 {
          stopIdx := INDEX_FIRST_INTERMEDIATE_STOP;
        } else if journeyIndex + 1 == n {
          stopIdx := INDEX_ARRIVAL_STOP;
        } else {
          stopIdx := stopIdx + 1;
        }
        stops := stops + [GraphStop(index, [Unrated(journeyIndex, stopIdx)])];
        if |stops| == 1 {
          stops := stops + [GraphStop(INDEX_ARRIVAL_STOP, [])];
        }
        journeys := journeys + [pieces[i]];
      }
    }

    method AddAlternativeJourney(firstStop: nat, j: Journey)
      requires j.Valid() && firstStop < |stops|
      modifies this
      ensures Fits(j.stops, j.transports) && Moved(j).Valid()
      ensures journeys == old(journeys) + Pieces(Moved(j))
      ensures stops == AlternativeStops(old(stops), |old(journeys)|, firstStop, |Pieces(Moved(j))|)
    {
      hide Moved, Pieces, Journey.Valid, Fits;
      MovedPieces(j);
      var moved := MoveEarlyWalk(j);
      var pieces := SplitJourney(moved);
      var n, stopsBefore, journeysBefore := |pieces|, |stops|, |journeys|;
      var stopIdx := firstStop;
      ghost var changed := stops[firstStop :=
        WithAlternative(stops[firstStop], Unrated(journeysBefore, if n == 1 then INDEX_ARRIVAL_STOP else stopsBefore))];
      for i := 0 to n
        invariant journeys == old(journeys) + pieces[..i]
        invariant i == 0 ==> stops == old(stops)
        invariant i > 0 ==> |stops| == stopsBefore + i - 1
        invariant i > 0 ==> forall k :: 0 <= k < stopsBefore ==> stops[k] == changed[k]
        invariant i > 0 ==> forall k :: 0 <= k < i - 1 ==> stops[stopsBefore + k] == AddedStop(stopsBefore, journeysBefore, n, k)
        invariant stopIdx == if i == 0 then firstStop else if i == n then INDEX_ARRIVAL_STOP else stopsBefore + i - 1
      {
        var isFirst, index := stopIdx == firstStop, stopIdx;
        var journeyIndex := |journeys|;
        if !isFirst {
          stops := stops + [GraphStop(index, [])];
        }
        if i + 1 == n {
          stopIdx := INDEX_ARRIVAL_STOP;
        } else if stopIdx == firstStop {
          stopIdx := |stops|;
        } else {
          stopIdx := stopIdx + 1;
        }
        var position := if isFirst then firstStop else |stops| - 1;
        stops := stops[position := WithAlternative(stops[position], Unrated(journeyIndex, stopIdx))];
        journeys := journeys + [pieces[i]];
      }
    }
  }

  // ----- The shape every reachable graph has

  ghost predicate HasAlternative(stops: seq<GraphStop>, i: int, a: int) {
    0 <= i < |stops| && 0 <= a < |stops[i].alternatives|
  }

  function Next(stops: seq<GraphStop>, i: int, a: int): nat
    requires HasAlternative(stops, i, a)
  {
    stops[i].alternatives[a].nextStop
  }

  /** Alternative a of stop i leads to stop s. */
  ghost predicate LeadsTo(stops: seq<GraphStop>, i: int, a: int, s: nat) {
    HasAlternative(stops, i, a) && Next(stops, i, a) == s
  }

  ghost predicate IsTarget(stops: seq<GraphStop>, s: nat) {
    exists i, a :: LeadsTo(stops, i, a, s)
  }

  ghost predicate WellBuilt(stops: seq<GraphStop>, journeys: nat) {
    && |stops| >= 2
    // a stop's index is its position
    && (forall i :: 0 <= i < |stops| ==> stops[i].index == i)
    // only the arrival stop has no alternatives
    && (forall i :: 0 <= i < |stops| ==> (stops[i].alternatives == [] <==> i == INDEX_ARRIVAL_STOP))
    // every alternative leads to the arrival stop or to a later intermediate stop
    && (forall i, a :: HasAlternative(stops, i, a) ==>
          && (Next(stops, i, a) == INDEX_ARRIVAL_STOP || (2 <= Next(stops, i, a) && i < Next(stops, i, a) < |stops|))
          && stops[i].alternatives[a].journeyIndex < journeys)
    // every intermediate stop is the target of exactly one alternative
    && (forall s :: 2 <= s < |stops| ==> IsTarget(stops, s))
    && (forall i, a, j, b :: HasAlternative(stops, i, a) && HasAlternative(stops, j, b) && Next(stops, i, a) == Next(stops, j, b) ==>
          Next(stops, i, a) == INDEX_ARRIVAL_STOP || (i == j && a == b))
  }

  lemma BaseIsWellBuilt(n: nat)
    requires 0 < n
    ensures WellBuilt(BaseStops(n), n)
  {
    var stops := BaseStops(n);
    forall s | 2 <= s < |stops|
      ensures IsTarget(stops, s)
    {
      assert LeadsTo(stops, if s == 2 then 0 else s - 1, 0, s);
    }
  }

  lemma AlternativeIsWellBuilt(stops: seq<GraphStop>, journeys: nat, first: nat, n: nat)
    requires WellBuilt(stops, journeys) && 2 <= first < |stops| && 0 < n
    ensures WellBuilt(AlternativeStops(stops, journeys, first, n), journeys + n)
  {
    var r := AlternativeStops(stops, journeys, first, n);
    var size := |stops|;
    assert |r| == size + n - 1;
    forall i, a | HasAlternative(r, i, a)
      ensures || (HasAlternative(stops, i, a) && r[i].alternatives[a] == stops[i].alternatives[a])
              || (i == first && a == |stops[first].alternatives| && Next(r, i, a) == (if n == 1 then INDEX_ARRIVAL_STOP else size))
              || (size <= i && a == 0 && Next(r, i, a) == (if i + 1 == |r| then INDEX_ARRIVAL_STOP else i + 1))
      ensures r[i].alternatives[a].journeyIndex < journeys + n
    {
    }
    AllAreTargets(stops, journeys, first, n);
  }

  lemma AllAreTargets(stops: seq<GraphStop>, journeys: nat, first: nat, n: nat)
    requires |stops| >= 2 && first < |stops| && 0 < n && forall s :: 2 <= s < |stops| ==> IsTarget(stops, s)
    ensures forall s :: 2 <= s < |AlternativeStops(stops, journeys, first, n)| ==> IsTarget(AlternativeStops(stops, journeys, first, n), s)
  {
    var r, size := AlternativeStops(stops, journeys, first, n), |stops|;
    forall s | 2 <= s < |r|
      ensures IsTarget(r, s)
    {
      if s < size {
        assert IsTarget(stops, s);
        var i, a :| LeadsTo(stops, i, a, s);
        assert LeadsTo(r, i, a, s);
      } else if s == size {
        assert LeadsTo(r, first, |stops[first].alternatives|, s);
      } else {
        assert LeadsTo(r, s - 1, 0, s);
      }
    }
  }
}
