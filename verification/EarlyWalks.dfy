/** Walks of a journey that arrive earlier than they have to are moved to a later time. */
module EarlyWalks {
  import opened JourneySplit

  type Transports = seq<Span<Transport>>

  ghost predicate Fits(stops: seq<Stop>, transports: Transports) {
    forall k :: 0 <= k < |transports| ==> transports[k].from < |stops| && transports[k].to < |stops|
  }

  /** How long the traveller stays at the stop where a transport ends. */
  function Buffer(stops: seq<Stop>, t: Span<Transport>): int
    requires t.to < |stops|
  {
    stops[t.to].departure.timestamp - stops[t.to].arrival.timestamp
  }

  /** A walk that does not end the journey. */
  predicate InnerWalk(stops: seq<Stop>, t: Span<Transport>) {
    t.info.isWalk && t.to + 1 < |stops|
  }

  function Later(event: EventInfo, delay: int): EventInfo {
    event.(timestamp := event.timestamp + delay, scheduleTimestamp := event.scheduleTimestamp + delay)
  }

  function DepartLater(stops: seq<Stop>, x: nat, delay: int): seq<Stop>
    requires x < |stops|
  {
    stops[x := stops[x].(departure := Later(stops[x].departure, delay))]
  }

  function ArriveLater(stops: seq<Stop>, x: nat, delay: int): seq<Stop>
    requires x < |stops|
  {
    stops[x := stops[x].(arrival := Later(stops[x].arrival, delay))]
  }

  /** The walks are moved one after the other, each by what it then has to wait. */
  function MovedStops(stops: seq<Stop>, transports: Transports): (r: seq<Stop>)
    requires Fits(stops, transports)
    ensures |r| == |stops|
  {
    if transports == [] then stops
    else
      var n := |transports| - 1;
      var before, t := MovedStops(stops, transports[..n]), transports[n];
      if InnerWalk(stops, t) && Buffer(before, t) > 0
      then ArriveLater(DepartLater(before, t.from, Buffer(before, t)), t.to, Buffer(before, t))
      else before
  }

  function Moved(j: Journey): Journey
    requires Fits(j.stops, j.transports)
  {
    if |j.transports| > 1 && |j.stops| > 2 then j.(stops := MovedStops(j.stops, j.transports)) else j
  }

  method MoveEarlyWalk(original: Journey) returns (j: Journey)
    requires Fits(original.stops, original.transports)
    ensures j == Moved(original)
  {
    j := original;
    if |j.transports| > 1 && |j.stops| > 2 {
      var stops := j.stops;
      var indexLastStop := |stops| - 1;
      for i := 0 to |j.transports|
        invariant |stops| == |original.stops| && stops == MovedStops(original.stops, j.transports[..i])
      {
        var t := j.transports[i];
        assert j.transports[..i + 1][..i] == j.transports[..i];
        if t.info.isWalk && t.to < indexLastStop {
          var buffer := stops[t.to].departure.timestamp - stops[t.to].arrival.timestamp;
          if buffer > 0 {
            stops := DepartLater(stops, t.from, buffer);
            stops := ArriveLater(stops, t.to, buffer);
          }
        }
      }
      assert j.transports[..|j.transports|] == j.transports;
      j := j.(stops := stops);
    }
  }

  // ----- What moving preserves

  /** Two stops differ at most in their times. */
  predicate SameButTimes(a: Stop, b: Stop) {
    && a.exit == b.exit && a.enter == b.enter && a.station == b.station
    && a.arrival.valid == b.arrival.valid && a.departure.valid == b.departure.valid
  }

  predicate AllSameButTimes(a: seq<Stop>, b: seq<Stop>) {
    |a| == |b| && forall k :: 0 <= k < |a| ==> SameButTimes(a[k], b[k])
  }

  lemma {:induction false} MovedStopsSame(stops: seq<Stop>, transports: Transports)
    requires Fits(stops, transports)
    ensures AllSameButTimes(stops, MovedStops(stops, transports))
  {
    if transports != [] {
      MovedStopsSame(stops, transports[..|transports| - 1]);
    }
  }

  lemma SameButTimesRefl(stops: seq<Stop>)
    ensures AllSameButTimes(stops, stops)
  {
  }

  lemma SameExit(a: seq<Stop>, b: seq<Stop>, i: nat)
    requires AllSameButTimes(a, b) && i <= |a|
    ensures FirstExit(a, i) == FirstExit(b, i)
    decreases |a| - i
  {
  }

  ghost predicate SameJourneys(a: Journey, b: Journey) {
    AllSameButTimes(a.stops, b.stops) && a.transports == b.transports && a.attributes == b.attributes
  }

  ghost predicate AllSameJourneys(a: seq<Journey>, b: seq<Journey>) {
    |a| == |b| && forall k :: 0 <= k < |a| ==> SameJourneys(a[k], b[k])
  }

  lemma SameCut(a: Journey, b: Journey)
    requires SameJourneys(a, b)
    ensures HasCut(a) <==> HasCut(b)
    ensures CutOf(a) == CutOf(b)
    ensures HasCut(a) ==> SameJourneys(First(a, CutOf(a)), First(b, CutOf(b))) && SameJourneys(Second(a, CutOf(a)), Second(b, CutOf(b)))
  {
    SameExit(a.stops, b.stops, 0);
  }

  /** Journeys whose stops differ only in times are cut into pieces at the same places, and the pieces again differ only in
      times. */
  lemma {:induction false} SamePieces(a: Journey, b: Journey)
    requires a.Valid() && b.Valid() && SameJourneys(a, b)
    ensures AllSameJourneys(Pieces(a), Pieces(b))
    decreases |a.stops|
  {
    hide HasCut, CutOf, First, Second, Journey.Valid, SameJourneys, Pieces;
    SameCut(a, b);
    if HasCut(a) {
      CutPieces(a);
      CutPieces(b);
      SamePieces(Second(a, CutOf(a)), Second(b, CutOf(b)));
    } else {
      NoCutPieces(a);
      NoCutPieces(b);
    }
  }

  lemma NoCutPieces(j: Journey)
    requires j.Valid() && !HasCut(j)
    ensures Pieces(j) == [j]
  {
  }

  /** Moving walks does not change how a journey is cut. */
  lemma MovedPieces(j: Journey)
    requires j.Valid()
    ensures Fits(j.stops, j.transports) && Moved(j).Valid() && AllSameJourneys(Pieces(j), Pieces(Moved(j)))
  {
    hide Pieces;
    MovedStopsSame(j.stops, j.transports);
    SameButTimesRefl(j.stops);
    SamePieces(j, Moved(j));
  }

  // ----- When the walks happen

  /** Walks go forward, and follow one another. */
  ghost predicate WalksInOrder(transports: Transports) {
    && (forall k :: 0 <= k < |transports| && transports[k].info.isWalk ==> transports[k].from < transports[k].to)
    && forall i, k :: 0 <= i < k < |transports| && transports[i].info.isWalk && transports[k].info.isWalk ==>
      transports[i].to <= transports[k].from
  }

  /** What a walk is moved by: its original buffer, if there is one. */
  function Wait(stops: seq<Stop>, t: Span<Transport>): (w: int)
    requires t.to < |stops|
    ensures w >= 0
  {
    if InnerWalk(stops, t) && Buffer(stops, t) > 0 then Buffer(stops, t) else 0
  }

  /** By how much the walks that start at stop x are moved in total. */
  function Started(stops: seq<Stop>, transports: Transports, x: nat): int
    requires Fits(stops, transports)
  {
    if transports == [] then 0
    else
      var n := |transports| - 1;
      Started(stops, transports[..n], x) + (if transports[n].from == x then Wait(stops, transports[n]) else 0)
  }

  function Ended(stops: seq<Stop>, transports: Transports, x: nat): int
    requires Fits(stops, transports)
  {
    if transports == [] then 0
    else
      var n := |transports| - 1;
      Ended(stops, transports[..n], x) + (if transports[n].to == x then Wait(stops, transports[n]) else 0)
  }

  function ShiftedStop(stop: Stop, departure: int, arrival: int): Stop {
    stop.(departure := Later(stop.departure, departure), arrival := Later(stop.arrival, arrival))
  }

  /** No walk among these starts or ends at stop x. */
  lemma {:induction false} NothingAt(stops: seq<Stop>, transports: Transports, x: nat)
    requires Fits(stops, transports)
    ensures (forall t :: t in transports && t.info.isWalk ==> t.from != x) ==> Started(stops, transports, x) == 0
    ensures (forall t :: t in transports && t.info.isWalk ==> t.to != x) ==> Ended(stops, transports, x) == 0
  {
    if transports != [] {
      NothingAt(stops, transports[..|transports| - 1], x);
    }
  }

  /** The walks before the last one do not touch its buffer. */
  lemma BufferKept(stops: seq<Stop>, transports: Transports)
    requires Fits(stops, transports) && WalksInOrder(transports) && transports != [] && transports[|transports| - 1].info.isWalk
    ensures var n := |transports| - 1;
            Buffer(MovedStops(stops, transports[..n]), transports[n]) == Buffer(stops, transports[n])
    decreases |transports|, 0
  {
    var n := |transports| - 1;
    MovedAt(stops, transports[..n], transports[n].to);
    NothingAt(stops, transports[..n], transports[n].to);
  }

  /** When the walks follow one another, each is moved by its original buffer, so the result can be read off the original. */
  lemma {:induction false} MovedAt(stops: seq<Stop>, transports: Transports, x: nat)
    requires Fits(stops, transports) && WalksInOrder(transports) && x < |stops|
    ensures MovedStops(stops, transports)[x] == ShiftedStop(stops[x], Started(stops, transports, x), Ended(stops, transports, x))
    decreases |transports|, 1
  {
    if transports != [] {
      var n := |transports| - 1;
      var before, t := transports[..n], transports[n];
      hide ShiftedStop;
      MovedAt(stops, before, x);
      if t.info.isWalk {
        BufferKept(stops, transports);
        ShiftOnce(MovedStops(stops, before), t, Buffer(stops, t), x);
      }
      var delay := Wait(stops, t);
      ShiftTwice(stops[x], Started(stops, before, x), Ended(stops, before, x), if t.from == x then delay else 0, if t.to == x then delay else 0);
    } else {
      ShiftTwice(stops[x], 0, 0, 0, 0);
    }
  }

  lemma ShiftOnce(stops: seq<Stop>, t: Span<Transport>, delay: int, x: nat)
    requires t.from < |stops| && t.to < |stops| && x < |stops|
    ensures ArriveLater(DepartLater(stops, t.from, delay), t.to, delay)[x] ==
            ShiftedStop(stops[x], if t.from == x then delay else 0, if t.to == x then delay else 0)
  {
  }

  lemma ShiftTwice(stop: Stop, a: int, b: int, c: int, d: int)
    ensures ShiftedStop(ShiftedStop(stop, a, b), c, d) == ShiftedStop(stop, a + c, b + d)
    ensures ShiftedStop(stop, 0, 0) == stop
  {
  }

  /** The walk that starts at a stop, and the one that ends there, are alone in moving it. */
  lemma {:induction false} WalkAt(stops: seq<Stop>, transports: Transports, k: nat)
    requires Fits(stops, transports) && WalksInOrder(transports) && k < |transports| && transports[k].info.isWalk
    ensures Started(stops, transports, transports[k].from) == Ended(stops, transports, transports[k].to) == Wait(stops, transports[k])
  {
    var n := |transports| - 1;
    if k == n {
      NothingAt(stops, transports[..n], transports[k].from);
      NothingAt(stops, transports[..n], transports[k].to);
    } else {
      WalkAt(stops, transports[..n], k);
    }
  }

  /** The time a transport takes. */
  function Duration(stops: seq<Stop>, t: Span<Transport>): int
    requires t.from < |stops| && t.to < |stops|
  {
    stops[t.to].arrival.timestamp - stops[t.from].departure.timestamp
  }

  /** A transport that overlaps with no walk but, if it is one, itself. */
  ghost predicate ApartFromWalks(transports: Transports, k: nat)
    requires k < |transports|
  {
    forall i :: 0 <= i < |transports| && i != k && transports[i].info.isWalk ==>
      transports[i].to <= transports[k].from || transports[k].to <= transports[i].from
  }

  /** Walks keep their durations; rides keep their times. */
  lemma MovedDurations(stops: seq<Stop>, transports: Transports, k: nat)
    requires Fits(stops, transports) && WalksInOrder(transports) && k < |transports|
    requires transports[k].from < transports[k].to && ApartFromWalks(transports, k)
    ensures var t, moved := transports[k], MovedStops(stops, transports);
            && Duration(moved, t) == Duration(stops, t)
            && moved[t.from].departure.timestamp ==
               stops[t.from].departure.timestamp + (if t.info.isWalk then Wait(stops, t) else 0)
  {
    var t := transports[k];
    MovedAt(stops, transports, t.from);
    MovedAt(stops, transports, t.to);
    if t.info.isWalk {
      WalkAt(stops, transports, k);
    } else {
      NothingAt(stops, transports, t.from);
      NothingAt(stops, transports, t.to);
    }
  }

  /** The end of the journey stays: a walk to the last stop is not moved. */
  lemma {:induction false} EndStays(stops: seq<Stop>, transports: Transports)
    requires Fits(stops, transports) && stops != []
    ensures MovedStops(stops, transports)[|stops| - 1].arrival == stops[|stops| - 1].arrival
  {
    if transports != [] {
      EndStays(stops, transports[..|transports| - 1]);
    }
  }

  /** How far an event is from its schedule. */
  function Delay(event: EventInfo): int {
    event.timestamp - event.scheduleTimestamp
  }

  /** Moving a walk moves its schedule too: every event keeps its delay. */
  lemma {:induction false} MovedKeepsDelays(stops: seq<Stop>, transports: Transports, x: nat)
    requires Fits(stops, transports) && x < |stops|
    ensures Delay(MovedStops(stops, transports)[x].arrival) == Delay(stops[x].arrival)
    ensures Delay(MovedStops(stops, transports)[x].departure) == Delay(stops[x].departure)
  {
    if transports != [] {
      MovedKeepsDelays(stops, transports[..|transports| - 1], x);
    }
  }

  /** The walk that starts where walk k ends. */
  ghost predicate Follows(transports: Transports, k: nat, next: nat)
    requires k < |transports|
  {
    next < |transports| && transports[next].info.isWalk && transports[next].from == transports[k].to
  }

  /** After moving, an inner walk ends without a buffer, unless the next walk starts at the same stop and was moved itself:
      then that walk's move is the new buffer. */
  lemma BufferAfter(stops: seq<Stop>, transports: Transports, k: nat)
    requires Fits(stops, transports) && WalksInOrder(transports) && k < |transports| && InnerWalk(stops, transports[k])
    requires Buffer(stops, transports[k]) >= 0
    ensures (forall next: nat :: !Follows(transports, k, next)) ==> Buffer(MovedStops(stops, transports), transports[k]) == 0
    ensures forall next: nat :: Follows(transports, k, next) ==>
              Buffer(MovedStops(stops, transports), transports[k]) == Wait(stops, transports[next])
  {
    var t := transports[k];
    MovedAt(stops, transports, t.to);
    WalkAt(stops, transports, k);
    if next: nat :| Follows(transports, k, next) {
      forall other: nat | Follows(transports, k, other)
        ensures Started(stops, transports, t.to) == Wait(stops, transports[other])
      {
        WalkAt(stops, transports, other);
      }
    } else {
      forall w | w in transports && w.info.isWalk
        ensures w.from != t.to
      {
        var i :| 0 <= i < |transports| && transports[i] == w;
        assert !Follows(transports, k, i);
      }
      NothingAt(stops, transports, t.to);
    }
  }

  /** No walk of the journey ends early: nobody waits at the end of a walk that does not end the journey. */
  ghost predicate NoEarlyWalk(stops: seq<Stop>, transports: Transports)
    requires Fits(stops, transports)
  {
    forall k: nat :: k < |transports| ==> transports[k].info.isWalk && transports[k].to != |stops| - 1 ==> Buffer(stops, transports[k]) <= 0
  }

  /** For journeys whose walks follow one another and whose inner stops are left no earlier than reached, moving leaves no early walk
      if and only if no walk is directly followed by a walk that itself is moved. */
  lemma NoEarlyWalkIff(j: Journey)
    requires Fits(j.stops, j.transports) && WalksInOrder(j.transports) && |j.transports| > 1 && |j.stops| > 2
    requires forall x :: 0 <= x < |j.stops| - 1 ==> j.stops[x].arrival.timestamp <= j.stops[x].departure.timestamp
    ensures Fits(Moved(j).stops, j.transports)
    ensures NoEarlyWalk(Moved(j).stops, j.transports) <==>
            forall k: nat, next: nat :: k < |j.transports| && j.transports[k].info.isWalk && Follows(j.transports, k, next) ==>
              j.transports[next].to == |j.stops| - 1 || Buffer(j.stops, j.transports[next]) <= 0
  {
    var stops, transports := j.stops, j.transports;
    forall k: nat, next: nat | k < |transports| && transports[k].info.isWalk && Follows(transports, k, next)
      ensures InnerWalk(stops, transports[k])
      ensures Wait(stops, transports[next]) == 0 <==> transports[next].to == |stops| - 1 || Buffer(stops, transports[next]) <= 0
    {
    }
    forall k: nat | k < |transports| && InnerWalk(stops, transports[k])
        ensures Buffer(Moved(j).stops, transports[k]) <= 0 <==>
              forall next: nat :: Follows(transports, k, next) ==>
                Wait(stops, transports[next]) == 0
    {
      BufferAfter(stops, transports, k);
    }
  }

  /** Two walks in a row, then a wait of 100 seconds for a ride. */
  const TWO_WALKS := Journey(
    [Stop(false, false, 0, NO_EVENT, EventAt(100)), Stop(false, false, 1, EventAt(200), EventAt(200)),
     Stop(false, true, 2, EventAt(300), EventAt(400)), Stop(true, false, 3, EventAt(500), NO_EVENT)],
    [Span(0, 1, Transport(true, 0)), Span(1, 2, Transport(true, 0)), Span(2, 3, Transport(false, 1))], [])

  /** An early walk can be left: the second walk is moved away from the first one, which has been looked at before. */
  lemma EarlyWalkIsLeft()
    ensures TWO_WALKS.Valid() && Fits(TWO_WALKS.stops, TWO_WALKS.transports) && WalksInOrder(TWO_WALKS.transports)
    ensures NoEarlyWalk(TWO_WALKS.stops, TWO_WALKS.transports[..1])
    ensures Fits(Moved(TWO_WALKS).stops, TWO_WALKS.transports)
    ensures !NoEarlyWalk(Moved(TWO_WALKS).stops, TWO_WALKS.transports)
    ensures Buffer(Moved(TWO_WALKS).stops, TWO_WALKS.transports[0]) == 100
  {
    var j := TWO_WALKS;
    assert Follows(j.transports, 0, 1) && Wait(j.stops, j.transports[1]) == 100;
    BufferAfter(j.stops, j.transports, 0);
  }
}
