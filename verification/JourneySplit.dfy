/** Cutting a journey into pieces at its interchanges. */
module JourneySplit {
  import opened Integers

  datatype EventInfo = EventInfo(valid: bool, timestamp: int, scheduleTimestamp: int)

  /** What the program writes where there is no event: before the first and after the last stop. */
  const NO_EVENT := EventInfo(false, 0, 0)

  /** An event on time. */
  function EventAt(timestamp: int): EventInfo {
    EventInfo(true, timestamp, timestamp)
  }

  datatype Stop = Stop(exit: bool, enter: bool, station: int, arrival: EventInfo, departure: EventInfo)

  /** Something that covers the legs from stop `from` to stop `to`: a transport or an attribute. */
  datatype Span<T> = Span(from: nat, to: nat, info: T)

  datatype Transport = Transport(isWalk: bool, name: int)

  datatype Journey = Journey(stops: seq<Stop>, transports: seq<Span<Transport>>, attributes: seq<Span<int>>) {

    /** A journey as the search delivers it: nobody exits at the first stop, and spans lie within the stops. */
    ghost predicate Valid() {
      && stops != [] && !stops[0].exit
      && (forall t :: t in transports ==> t.from < |stops| && t.to < |stops|)
      && forall a :: a in attributes ==> a.from < |stops| && a.to < |stops|
    }
  }

  // ----- Spans before and after a cut

  function Before<T>(spans: seq<Span<T>>, cut: nat): seq<Span<T>> {
    if spans == [] then []
    else
      var n := |spans| - 1;
      Before(spans[..n], cut) + (if spans[n].from < cut then [spans[n].(to := Min(spans[n].to, cut))] else [])
  }

  function After<T>(spans: seq<Span<T>>, cut: nat): seq<Span<T>> {
    if spans == [] then []
    else
      var n := |spans| - 1;
      After(spans[..n], cut)
      + (if spans[n].to > cut
         then [spans[n].(from := (if spans[n].from > cut then spans[n].from else cut) - cut, to := spans[n].to - cut)]
         else [])
  }

  method CorrectTransportsAndAttributesIndices<T>(orig: seq<Span<T>>, stopIdx: nat) returns (j1: seq<Span<T>>, j2: seq<Span<T>>)
    ensures j1 == Before(orig, stopIdx) && j2 == After(orig, stopIdx)
  {
    j1, j2 := [], [];
    for i := 0 to |orig|
      invariant j1 == Before(orig[..i], stopIdx) && j2 == After(orig[..i], stopIdx)
    {
      var element := orig[i];
      if element.from < stopIdx {
        j1 := j1 + [element.(to := Min(element.to, stopIdx))];
      }
      if element.to > stopIdx {
        var from := (if element.from > stopIdx then element.from else stopIdx) - stopIdx;
        j2 := j2 + [element.(from := from, to := element.to - stopIdx)];
      }
      assert orig[..i + 1][..i] == orig[..i];
    }
    assert orig[..|orig|] == orig;
  }

  /** The infos of the spans that cover the leg from stop `leg` to the next stop, in order. */
  function Covering<T>(spans: seq<Span<T>>, leg: nat): seq<T> {
    if spans == [] then []
    else
      var n := |spans| - 1;
      Covering(spans[..n], leg) + (if spans[n].from <= leg < spans[n].to then [spans[n].info] else [])
  }

  lemma CoveringAppend<T>(spans: seq<Span<T>>, last: seq<Span<T>>, leg: nat)
    requires |last| <= 1
    ensures Covering(spans + last, leg) == Covering(spans, leg) + Covering(last, leg)
  {
    if last == [] {
      assert spans + last == spans;
    } else {
      assert (spans + last)[..|spans|] == spans;
      assert last[..0] == [];
    }
  }

  /** Legs before the cut keep exactly their spans. */
  lemma {:induction false} CoveringBefore<T>(spans: seq<Span<T>>, cut: nat, leg: nat)
    requires leg < cut
    ensures Covering(Before(spans, cut), leg) == Covering(spans, leg)
  {
    if spans != [] {
      var n := |spans| - 1;
      CoveringBefore(spans[..n], cut, leg);
      var last := if spans[n].from < cut then [spans[n].(to := Min(spans[n].to, cut))] else [];
      CoveringAppend(Before(spans[..n], cut), last, leg);
    }
  }

  /** Legs after the cut keep exactly their spans, at shifted indices. */
  lemma {:induction false} CoveringAfter<T>(spans: seq<Span<T>>, cut: nat, leg: nat)
    ensures Covering(After(spans, cut), leg) == Covering(spans, cut + leg)
  {
    if spans != [] {
      var n := |spans| - 1;
      var s := spans[n];
      CoveringAfter(spans[..n], cut, leg);
      var last := if s.to > cut then [s.(from := (if s.from > cut then s.from else cut) - cut, to := s.to - cut)] else [];
      CoveringAppend(After(spans[..n], cut), last, leg);
    }
  }

  lemma {:induction false} SpansWithin<T>(spans: seq<Span<T>>, cut: nat, stops: nat)
    requires cut + 1 < stops && forall s :: s in spans ==> s.from < stops && s.to < stops
    ensures forall s :: s in Before(spans, cut) ==> s.from < cut + 1 && s.to < cut + 1
    ensures forall s :: s in After(spans, cut) ==> s.from < stops - cut && s.to < stops - cut
  {
    if spans != [] {
      var n := |spans| - 1;
      assert spans[n] in spans;
      SpansWithin(spans[..n], cut, stops);
    }
  }

  // ----- One cut

  /** Stops up to the cut, and stops from it; at the cut the traveller leaves the first piece and enters the second. */
  function StopsBefore(stops: seq<Stop>, cut: nat): seq<Stop>
    requires cut < |stops|
  {
    stops[..cut] + [stops[cut].(exit := true, enter := false, departure := stops[cut].departure.(valid := false))]
  }

  function StopsAfter(stops: seq<Stop>, cut: nat): seq<Stop>
    requires cut < |stops|
  {
    [stops[cut].(exit := false, enter := true, arrival := stops[cut].arrival.(valid := false))] + stops[cut + 1..]
  }

  function First(j: Journey, cut: nat): Journey
    requires cut < |j.stops|
  {
    Journey(StopsBefore(j.stops, cut), Before(j.transports, cut), Before(j.attributes, cut))
  }

  function Second(j: Journey, cut: nat): Journey
    requires cut < |j.stops|
  {
    Journey(StopsAfter(j.stops, cut), After(j.transports, cut), After(j.attributes, cut))
  }

  method SplitAt(j: Journey, stopIdx: nat) returns (j1: Journey, j2: Journey)
    requires 0 < stopIdx && stopIdx + 1 < |j.stops|
    ensures j1 == First(j, stopIdx) && j2 == Second(j, stopIdx)
  {
    var stops1: seq<Stop>, stops2: seq<Stop> := [], [];
    for idx := 0 to |j.stops|
      invariant stops1 == j.stops[..if idx <= stopIdx then idx else stopIdx + 1]
      invariant stops2 == if idx <= stopIdx then [] else j.stops[stopIdx..idx]
    {
      if idx <= stopIdx {
        stops1 := stops1 + [j.stops[idx]];
      }
      if idx >= stopIdx {
        stops2 := stops2 + [j.stops[idx]];
      }
    }
    var last := stops1[stopIdx];
    stops1 := stops1[stopIdx := last.(exit := true, enter := false, departure := last.departure.(valid := false))];
    var front := stops2[0];
    stops2 := stops2[0 := front.(exit := false, enter := true, arrival := front.arrival.(valid := false))];
    var transports1, transports2 := CorrectTransportsAndAttributesIndices(j.transports, stopIdx);
    var attributes1, attributes2 := CorrectTransportsAndAttributesIndices(j.attributes, stopIdx);
    j1, j2 := Journey(stops1, transports1, attributes1), Journey(stops2, transports2, attributes2);
  }

  // ----- Finding the next cut

  function FirstExit(stops: seq<Stop>, i: nat): (r: nat)
    requires i <= |stops|
    ensures i <= r <= |stops| && (r < |stops| ==> stops[r].exit) && forall k :: i <= k < r ==> !stops[k].exit
    decreases |stops| - i
  {
    if i == |stops| || stops[i].exit then i else FirstExit(stops, i + 1)
  }

  /** The first transport that covers the leg after this stop. */
  function FirstCovering(transports: seq<Span<Transport>>, stopIdx: nat, i: nat): (r: nat)
    requires i <= |transports|
    ensures i <= r <= |transports|
    ensures r < |transports| ==> transports[r].from <= stopIdx < transports[r].to
    decreases |transports| - i
  {
    if i == |transports| || transports[i].from <= stopIdx < transports[i].to then i else FirstCovering(transports, stopIdx, i + 1)
  }

  predicate NoPublicTransportAfterThisStop(j: Journey, stopIdx: nat) {
    var first := FirstCovering(j.transports, stopIdx, 0);
    forall k :: first <= k < |j.transports| ==> j.transports[k].info.isWalk
  }

  /** There is a stop to cut at: the first exit, if public transport follows. */
  predicate HasCut(j: Journey) {
    var cut := FirstExit(j.stops, 0);
    cut < |j.stops| && !NoPublicTransportAfterThisStop(j, cut)
  }

  function CutOf(j: Journey): nat {
    FirstExit(j.stops, 0)
  }

  /** A cut is strictly inside the journey, and both pieces are journeys again. */
  lemma CutInside(j: Journey)
    requires j.Valid() && HasCut(j)
    ensures 0 < CutOf(j) && CutOf(j) + 1 < |j.stops|
    ensures First(j, CutOf(j)).Valid() && Second(j, CutOf(j)).Valid()
    ensures !HasCut(First(j, CutOf(j)))
  {
    var cut := CutOf(j);
    var first := FirstCovering(j.transports, cut, 0);
    assert first < |j.transports| && j.transports[first] in j.transports;
    SpansWithin(j.transports, cut, |j.stops|);
    SpansWithin(j.attributes, cut, |j.stops|);
    FirstPieceHasNoCut(j);
  }

  /** The first piece has its only exit at its last stop, so it is not cut again. */
  lemma FirstPieceHasNoCut(j: Journey)
    requires CutOf(j) < |j.stops| && (forall t :: t in Before(j.transports, CutOf(j)) ==> t.to < CutOf(j) + 1)
    ensures !HasCut(First(j, CutOf(j)))
  {
    var piece, cut := First(j, CutOf(j)), CutOf(j);
    assert forall k :: 0 <= k < cut ==> piece.stops[k] == j.stops[k] && !j.stops[k].exit;
    assert piece.stops[cut].exit;
    assert FirstExit(piece.stops, 0) == cut;
    assert forall i :: 0 <= i < |piece.transports| ==> piece.transports[i] in Before(j.transports, cut);
  }

  /** All pieces of a journey: split the last piece as long as it can be split. */
  function Pieces(j: Journey): (r: seq<Journey>)
    requires j.Valid()
    ensures r != []
    decreases |j.stops|
  {
    if HasCut(j) then
      CutInside(j);
      [First(j, CutOf(j))] + Pieces(Second(j, CutOf(j)))
    else [j]
  }

  lemma PiecesOfSplit(j: Journey)
    requires j.Valid() && HasCut(j)
    ensures Second(j, CutOf(j)).Valid()
    ensures Pieces(j) == [First(j, CutOf(j))] + Pieces(Second(j, CutOf(j)))
  {
    CutInside(j);
  }

  /** Replacing the last journey by its two parts: the rest of the work is the same, on a shorter journey. */
  lemma SplitLastStep(front: seq<Journey>, last: Journey)
    requires last.Valid() && HasCut(last)
    ensures 0 < CutOf(last) && CutOf(last) + 1 < |last.stops|
    ensures Second(last, CutOf(last)).Valid() && |Second(last, CutOf(last)).stops| < |last.stops|
    ensures front + Pieces(last) == front + [First(last, CutOf(last))] + Pieces(Second(last, CutOf(last)))
  {
    CutInside(last);
    PiecesOfSplit(last);
    hide Pieces;
  }

  method SplitLast(journeys: seq<Journey>) returns (r: seq<Journey>)
    requires journeys != [] && journeys[|journeys| - 1].Valid()
    ensures r == journeys[..|journeys| - 1] + Pieces(journeys[|journeys| - 1])
    decreases |journeys[|journeys| - 1].stops|
  {
    var front, last := journeys[..|journeys| - 1], journeys[|journeys| - 1];
    var stopIdx := FirstExit(last.stops, 0);
    if stopIdx == |last.stops| || NoPublicTransportAfterThisStop(last, stopIdx) {
      assert !HasCut(last);
      return journeys;
    }
    SplitLastStep(front, last);
    var j1, j2 := SplitAt(last, stopIdx);
    hide First, Second, Pieces, FirstExit, NoPublicTransportAfterThisStop;
    var next := front + [j1] + [j2];
    assert next[..|next| - 1] == front + [j1];
    r := SplitLast(next);
  }

  method SplitJourney(j: Journey) returns (journeys: seq<Journey>)
    requires j.Valid()
    ensures journeys == Pieces(j)
  {
    journeys := SplitLast([j]);
  }

  // ----- What splitting preserves

  /** Joining two stop lists at a cut: arrival and exit come from the first piece, departure and enter from the second. */
  function Join(a: seq<Stop>, b: seq<Stop>): seq<Stop>
    requires a != [] && b != []
  {
    a[..|a| - 1] + [a[|a| - 1].(enter := b[0].enter, departure := b[0].departure)] + b[1..]
  }

  function Glue(pieces: seq<Journey>): (r: seq<Stop>)
    requires pieces != [] && forall p :: p in pieces ==> p.stops != []
    ensures r != []
  {
    if |pieces| == 1 then pieces[0].stops else
      assert pieces[0] in pieces;
      Join(pieces[0].stops, Glue(pieces[1..]))
  }

  /** Every stop the journey is cut at can also be entered. */
  ghost predicate CutsAreInterchanges(j: Journey)
    requires j.Valid()
    decreases |j.stops|
  {
    if HasCut(j) then
      CutInside(j);
      j.stops[CutOf(j)].enter && CutsAreInterchanges(Second(j, CutOf(j)))
    else true
  }

  function Legs(pieces: seq<Journey>): int {
    if pieces == [] then 0 else |pieces[0].stops| - 1 + Legs(pieces[1..])
  }

  lemma {:induction false} PiecesHaveStops(j: Journey)
    requires j.Valid()
    ensures forall p :: p in Pieces(j) ==> p.Valid() && p.stops != []
    ensures forall k :: 0 <= k < |Pieces(j)| ==> !HasCut(Pieces(j)[k])
    decreases |j.stops|
  {
    if HasCut(j) {
      CutInside(j);
      PiecesHaveStops(Second(j, CutOf(j)));
    }
  }

  /** Joining restores the stops exactly when the cut stop can be entered and the rest was restored. */
  lemma JoinAtCut(stops: seq<Stop>, cut: nat, rest: seq<Stop>)
    requires 0 < cut && cut + 1 < |stops| && stops[cut].exit
    requires |rest| == |stops| - cut && rest[0] == StopsAfter(stops, cut)[0]
    ensures |Join(StopsBefore(stops, cut), rest)| == |stops| && Join(StopsBefore(stops, cut), rest)[0] == stops[0]
    ensures Join(StopsBefore(stops, cut), rest) == stops <==> stops[cut].enter && rest == StopsAfter(stops, cut)
  {
    var joined, after := Join(StopsBefore(stops, cut), rest), StopsAfter(stops, cut);
    assert joined[cut] == stops[cut].(enter := true);
    assert forall k :: 0 <= k < cut ==> joined[k] == stops[k];
    assert forall k :: 1 <= k < |rest| ==> joined[cut + k] == rest[k] && stops[cut + k] == after[k];
    if joined == stops {
      assert rest == after;
    }
    if stops[cut].enter && rest == after {
      assert joined == stops;
    }
  }

  /** Gluing the pieces gives back the original stops exactly when every cut is at a stop that can be entered;
      the number of legs is preserved in any case. */
  lemma {:induction false} GlueRestores(j: Journey)
    requires j.Valid()
    ensures Legs(Pieces(j)) == |j.stops| - 1
    ensures forall p :: p in Pieces(j) ==> p.stops != []
    ensures Glue(Pieces(j)) == j.stops <==> CutsAreInterchanges(j)
    ensures |Glue(Pieces(j))| == |j.stops| && Glue(Pieces(j))[0] == j.stops[0]
    decreases |j.stops|
  {
    PiecesHaveStops(j);
    if HasCut(j) {
      CutInside(j);
      var cut := CutOf(j);
      var second := Second(j, cut);
      GlueRestores(second);
      PiecesOfSplit(j);
      GlueStep(j);
      JoinAtCut(j.stops, cut, Glue(Pieces(second)));
    }
  }

  lemma GlueStep(j: Journey)
    requires j.Valid() && HasCut(j)
    ensures Second(j, CutOf(j)).Valid()
    ensures forall p :: p in Pieces(j) ==> p.stops != []
    ensures forall p :: p in Pieces(Second(j, CutOf(j))) ==> p.stops != []
    ensures Glue(Pieces(j)) == Join(StopsBefore(j.stops, CutOf(j)), Glue(Pieces(Second(j, CutOf(j)))))
    ensures Legs(Pieces(j)) == CutOf(j) + Legs(Pieces(Second(j, CutOf(j))))
  {
    PiecesHaveStops(j);
    CutInside(j);
    PiecesHaveStops(Second(j, CutOf(j)));
    assert Pieces(j)[1..] == Pieces(Second(j, CutOf(j)));
  }

  /** Where a leg of the original journey ends up: the piece, and the leg within it. */
  function Locate(pieces: seq<Journey>, leg: nat): (nat, nat)
    requires pieces != []
  {
    if |pieces| == 1 || leg + 1 < |pieces[0].stops| then (0, leg)
    else
      var (piece, local) := Locate(pieces[1..], leg - (|pieces[0].stops| - 1));
      (piece + 1, local)
  }

  /** A leg of one journey and a leg of another are covered by the same transports and attributes. */
  predicate SameCover(a: Journey, legA: nat, b: Journey, legB: nat) {
    && Covering(a.transports, legA) == Covering(b.transports, legB)
    && Covering(a.attributes, legA) == Covering(b.attributes, legB)
  }

  lemma CutKeepsCover(j: Journey, cut: nat, leg: nat)
    requires cut < |j.stops|
    ensures leg < cut ==> SameCover(j, leg, First(j, cut), leg)
    ensures leg >= cut ==> SameCover(j, leg, Second(j, cut), leg - cut)
  {
    if leg < cut {
      CoveringBefore(j.transports, cut, leg);
      CoveringBefore(j.attributes, cut, leg);
    } else {
      CoveringAfter(j.transports, cut, leg - cut);
      CoveringAfter(j.attributes, cut, leg - cut);
    }
  }

  lemma SameCoverTransitive(a: Journey, legA: nat, b: Journey, legB: nat, c: Journey, legC: nat)
    requires SameCover(a, legA, b, legB) && SameCover(b, legB, c, legC)
    ensures SameCover(a, legA, c, legC)
  {
  }

  /** A leg is found among some pieces with the cover that it has in a journey. */
  predicate Found(j: Journey, leg: nat, pieces: seq<Journey>)
    requires pieces != []
  {
    var (piece, local) := Locate(pieces, leg);
    piece < |pieces| && local + 1 < |pieces[piece].stops| && SameCover(j, leg, pieces[piece], local)
  }

  lemma FoundInFirst(j: Journey, leg: nat, first: Journey, rest: seq<Journey>)
    requires rest != [] && leg + 1 < |first.stops| && SameCover(j, leg, first, leg)
    ensures Found(j, leg, [first] + rest)
  {
    hide SameCover;
  }

  lemma FoundInRest(j: Journey, leg: nat, first: Journey, rest: seq<Journey>, second: Journey, legInSecond: nat)
    requires rest != [] && 1 <= |first.stops| <= leg + 1 && legInSecond == leg + 1 - |first.stops|
    requires SameCover(j, leg, second, legInSecond) && Found(second, legInSecond, rest)
    ensures Found(j, leg, [first] + rest)
  {
    hide SameCover;
    var pieces := [first] + rest;
    assert pieces[1..] == rest;
    var (piece, local) := Locate(rest, legInSecond);
    assert Locate(pieces, leg) == (piece + 1, local) && pieces[piece + 1] == rest[piece];
    SameCoverTransitive(j, leg, second, legInSecond, rest[piece], local);
  }

  lemma CutPieces(j: Journey)
    requires j.Valid() && HasCut(j)
    ensures var cut, first, second := CutOf(j), First(j, CutOf(j)), Second(j, CutOf(j));
            && 0 < cut < |j.stops| && second.Valid()
            && Pieces(j) == [first] + Pieces(second) && |first.stops| == cut + 1 && |second.stops| == |j.stops| - cut
  {
    CutInside(j);
    PiecesOfSplit(j);
  }

  lemma WholeJourney(j: Journey, leg: nat)
    requires j.Valid() && !HasCut(j) && leg + 1 < |j.stops|
    ensures Found(j, leg, Pieces(j))
  {
  }

  /** Every leg is covered, in its piece, by exactly the transports and attributes that covered it before. */
  lemma {:induction false} LegsKeepTheirSpans(j: Journey, leg: nat)
    requires j.Valid() && leg + 1 < |j.stops|
    ensures Found(j, leg, Pieces(j))
    decreases |j.stops|
  {
    hide *;
    if HasCut(j) {
      CutPieces(j);
      var cut, first, second := CutOf(j), First(j, CutOf(j)), Second(j, CutOf(j));
      CutKeepsCover(j, cut, leg);
      if leg >= cut {
        LegsKeepTheirSpans(second, leg - cut);
        FoundInRest(j, leg, first, Pieces(second), second, leg - cut);
      } else {
        FoundInFirst(j, leg, first, Pieces(second));
      }
    } else {
      WholeJourney(j, leg);
    }
  }
}
