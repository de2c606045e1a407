/** When splitting a journey at its changes loses nothing: a condition on its stops. */
module JourneyChanges {
  import opened JourneySplit

  type Transports = seq<Span<Transport>>

  /** Transports are listed in the order in which they are used, and one of them covers every leg. */
  ghost predicate Travelled(j: Journey) {
    && InOrder(j.transports)
    && forall leg: nat :: leg + 1 < |j.stops| ==> Covered(j.transports, leg)
  }

  ghost predicate InOrder(transports: Transports) {
    forall i, k :: 0 <= i < k < |transports| ==> transports[i].from <= transports[k].from && transports[i].to <= transports[k].to
  }

  predicate Covers(t: Span<Transport>, leg: nat) {
    t.from <= leg < t.to
  }

  predicate Covered(transports: Transports, leg: nat) {
    exists k :: 0 <= k < |transports| && Covers(transports[k], leg)
  }

  /** A stop inside the journey at which the traveller leaves a vehicle before using further public transport. */
  predicate IsChange(j: Journey, k: nat) {
    0 < k < |j.stops| && j.stops[k].exit && !NoPublicTransportAfterThisStop(j, k)
  }

  /** At every change the traveller can also get in. */
  ghost predicate ChangesEnter(j: Journey) {
    forall k: nat :: IsChange(j, k) ==> j.stops[k].enter
  }

  // ----- Public transport from a leg on

  /** Some ride is listed at or after a transport that covers the leg. */
  ghost predicate RideFrom(transports: Transports, leg: nat) {
    exists c: nat, i: nat :: c <= i < |transports| && Covers(transports[c], leg) && !transports[i].info.isWalk
  }

  lemma {:induction false} FirstIsFirst(transports: Transports, leg: nat, i: nat, c: nat)
    requires i <= c < |transports| && Covers(transports[c], leg)
    ensures FirstCovering(transports, leg, i) <= c
    decreases c - i
  {
    if i < c && !Covers(transports[i], leg) {
      FirstIsFirst(transports, leg, i + 1, c);
    }
  }

  lemma RideFromIff(j: Journey, leg: nat)
    ensures !NoPublicTransportAfterThisStop(j, leg) <==> RideFrom(j.transports, leg)
  {
    var first := FirstCovering(j.transports, leg, 0);
    if c: nat, i: nat :| c <= i < |j.transports| && Covers(j.transports[c], leg) && !j.transports[i].info.isWalk {
      FirstIsFirst(j.transports, leg, 0, c);
    }
    assert first < |j.transports| ==> Covers(j.transports[first], leg);
  }

  /** What is kept of a transport that ends behind a cut. */
  ghost predicate KeptAs(t: Span<Transport>, kept: Span<Transport>, cut: nat) {
    t.to > cut && kept == Span((if t.from > cut then t.from else cut) - cut, t.to - cut, t.info)
  }

  lemma KeptCovers(t: Span<Transport>, kept: Span<Transport>, cut: nat, leg: nat)
    requires KeptAs(t, kept, cut)
    ensures kept.info == t.info && (Covers(kept, leg) <==> Covers(t, cut + leg))
  {
  }

  /** The kept transports are the last ones of the list, and all before them end by the cut. */
  ghost predicate KeptTail(transports: Transports, kept: Transports, cut: nat) {
    && |kept| <= |transports|
    && (forall k :: 0 <= k < |transports| - |kept| ==> transports[k].to <= cut)
    && forall k :: 0 <= k < |kept| ==> KeptAs(transports[|transports| - |kept| + k], kept[k], cut)
  }

  lemma {:induction false} KeptAfter(transports: Transports, cut: nat)
    requires InOrder(transports)
    ensures KeptTail(transports, After(transports, cut), cut)
  {
    if transports != [] {
      var n := |transports| - 1;
      KeptAfter(transports[..n], cut);
      AfterLast(transports, cut);
      TailGrows(transports, After(transports[..n], cut), After(transports, cut), cut);
    }
  }

  lemma TailGrows(transports: Transports, before: Transports, after: Transports, cut: nat)
    requires transports != [] && InOrder(transports) && KeptTail(transports[..|transports| - 1], before, cut)
    requires var n := |transports| - 1;
             if transports[n].to <= cut then after == before
             else |after| == |before| + 1 && after[..|before|] == before && KeptAs(transports[n], after[|before|], cut)
    ensures KeptTail(transports, after, cut)
  {
    hide KeptAs;
    var n := |transports| - 1;
    var front := transports[..n];
    if transports[n].to <= cut {
      if before != [] {
        assert KeptAs(front[|front| - |before| + (|before| - 1)], before[|before| - 1], cut);
        KeptEnds(front[n - 1], before[|before| - 1], cut);
      }
    } else {
      forall k | 0 <= k < |after|
        ensures KeptAs(transports[|transports| - |after| + k], after[k], cut)
      {
        if k < |before| {
          assert after[..|before|][k] == before[k] && KeptAs(front[|front| - |before| + k], before[k], cut);
        }
      }
      forall k | 0 <= k < |transports| - |after|
        ensures transports[k].to <= cut
      {
        assert front[k].to <= cut;
      }
    }
  }

  lemma KeptEnds(t: Span<Transport>, kept: Span<Transport>, cut: nat)
    requires KeptAs(t, kept, cut)
    ensures t.to > cut
  {
  }

  lemma AfterLast(transports: Transports, cut: nat)
    requires transports != []
    ensures var n := |transports| - 1;
            var before, after := After(transports[..n], cut), After(transports, cut);
            if transports[n].to <= cut then after == before
            else |after| == |before| + 1 && after[..|before|] == before && KeptAs(transports[n], after[|before|], cut)
  {
  }

  lemma KeptInOrder(transports: Transports, cut: nat)
    requires InOrder(transports)
    ensures InOrder(After(transports, cut))
  {
    var kept := After(transports, cut);
    KeptAfter(transports, cut);
    hide After;
    var gone := |transports| - |kept|;
    hide After;
    forall i, k | 0 <= i < k < |kept|
      ensures kept[i].from <= kept[k].from && kept[i].to <= kept[k].to
    {
      assert KeptAs(transports[gone + i], kept[i], cut) && KeptAs(transports[gone + k], kept[k], cut);
    }
  }

  lemma SecondRides(j: Journey, cut: nat, leg: nat)
    requires InOrder(j.transports) && cut < |j.stops|
    ensures RideFrom(Second(j, cut).transports, leg) <==> RideFrom(j.transports, cut + leg)
    ensures Covered(Second(j, cut).transports, leg) <==> Covered(j.transports, cut + leg)
  {
    KeptAfter(j.transports, cut);
    KeptRides(j.transports, After(j.transports, cut), cut, leg);
  }

  lemma KeptRides(all: Transports, kept: Transports, cut: nat, leg: nat)
    requires |kept| <= |all| && forall k :: 0 <= k < |all| - |kept| ==> all[k].to <= cut
    requires forall k :: 0 <= k < |kept| ==> KeptAs(all[|all| - |kept| + k], kept[k], cut)
    ensures RideFrom(kept, leg) <==> RideFrom(all, cut + leg)
    ensures Covered(kept, leg) <==> Covered(all, cut + leg)
  {
    var gone := |all| - |kept|;
    forall k | 0 <= k < |kept|
      ensures kept[k].info == all[gone + k].info && (Covers(kept[k], leg) <==> Covers(all[gone + k], cut + leg))
    {
      KeptCovers(all[gone + k], kept[k], cut, leg);
    }
    assert forall k :: 0 <= k < |all| && Covers(all[k], cut + leg) ==> k >= gone;
    hide KeptAs, Covers;
    if c: nat, i: nat :| c <= i < |kept| && Covers(kept[c], leg) && !kept[i].info.isWalk {
      assert Covers(all[gone + c], cut + leg) && !all[gone + i].info.isWalk;
    }
    if c: nat, i: nat :| c <= i < |all| && Covers(all[c], cut + leg) && !all[i].info.isWalk {
      assert kept[c - gone].info == all[gone + (c - gone)].info && kept[i - gone].info == all[gone + (i - gone)].info;
      assert Covers(kept[c - gone], leg) && !kept[i - gone].info.isWalk;
    }
    if k :| 0 <= k < |kept| && Covers(kept[k], leg) {
      assert Covers(all[gone + k], cut + leg);
    }
    if k :| 0 <= k < |all| && Covers(all[k], cut + leg) {
      assert kept[k - gone].info == all[gone + (k - gone)].info;
      assert Covers(kept[k - gone], leg);
    }
  }

  lemma SecondTravelled(j: Journey, cut: nat)
    requires Travelled(j) && cut < |j.stops|
    ensures Travelled(Second(j, cut))
  {
    KeptInOrder(j.transports, cut);
    hide After;
    forall leg: nat | leg + 1 < |Second(j, cut).stops|
      ensures Covered(Second(j, cut).transports, leg)
    {
      SecondRides(j, cut, leg);
    }
  }

  // ----- Cuts are the changes

  /** The changes behind a cut are the changes of the second piece. */
  lemma ChangesBehind(j: Journey, cut: nat, k: nat)
    requires Travelled(j) && cut < k < |j.stops|
    ensures IsChange(Second(j, cut), k - cut) <==> IsChange(j, k)
    ensures Second(j, cut).stops[k - cut] == j.stops[k]
  {
    SecondRides(j, cut, k - cut);
    RideFromIff(j, k);
    RideFromIff(Second(j, cut), k - cut);
  }

  lemma LaterRide(t: Transports, cut: nat, k: nat)
    requires InOrder(t) && cut < k && Covered(t, cut) && RideFrom(t, k)
    ensures RideFrom(t, cut)
  {
    var c: nat, i: nat :| c <= i < |t| && Covers(t[c], k) && !t[i].info.isWalk;
    var b: nat :| b < |t| && Covers(t[b], cut);
    if b > i {
      assert t[c].from <= t[b].from && t[c].to <= t[b].to;
      assert Covers(t[c], cut);
    }
  }

  /** Without public transport from a covered leg on, there is none later. */
  lemma NoLaterRide(j: Journey, cut: nat, k: nat)
    requires Travelled(j) && cut < k && cut + 1 < |j.stops| && NoPublicTransportAfterThisStop(j, cut)
    ensures NoPublicTransportAfterThisStop(j, k)
  {
    hide NoPublicTransportAfterThisStop;
    RideFromIff(j, cut);
    RideFromIff(j, k);
    if RideFrom(j.transports, k) {
      LaterRide(j.transports, cut, k);
    }
  }

  /** Every cut is at a stop that can be entered if and only if every change of the journey is. */
  lemma {:induction false} CutsAreChanges(j: Journey)
    requires j.Valid() && Travelled(j)
    ensures CutsAreInterchanges(j) <==> ChangesEnter(j)
    decreases |j.stops|
  {
    hide Second, Travelled, HasCut, CutOf, NoPublicTransportAfterThisStop, ChangesEnter, Journey.Valid, Pieces;
    var cut := CutOf(j);
    if HasCut(j) {
      CutPieces(j);
      CutIsChange(j);
      SecondTravelled(j, cut);
      CutsAreChanges(Second(j, cut));
      forall k: nat | cut < k < |j.stops|
        ensures IsChange(Second(j, cut), k - cut) <==> IsChange(j, k)
        ensures Second(j, cut).stops[k - cut] == j.stops[k]
      {
        ChangesBehind(j, cut, k);
      }
      ChangesSplit(j, cut);
    } else {
      NoChangesEnter(j);
    }
  }

  lemma CutIsChange(j: Journey)
    requires j.Valid() && HasCut(j)
    ensures CutOf(j) < |j.stops| && IsChange(j, CutOf(j)) && forall k: nat :: k < CutOf(j) ==> !j.stops[k].exit
  {
    CutInside(j);
  }

  lemma NoChangesEnter(j: Journey)
    requires j.Valid() && Travelled(j) && !HasCut(j)
    ensures ChangesEnter(j)
  {
    NoChanges(j);
  }

  lemma NoChanges(j: Journey)
    requires j.Valid() && Travelled(j) && !HasCut(j)
    ensures forall k: nat :: !IsChange(j, k)
  {
    var cut := CutOf(j);
    forall k: nat
      ensures !IsChange(j, k)
    {
      if cut < k < |j.stops| {
        NoLaterRide(j, cut, k);
      }
    }
  }

  lemma ChangesSplit(j: Journey, cut: nat)
    requires cut < |j.stops| && IsChange(j, cut) && (forall k: nat :: k < cut ==> !j.stops[k].exit)
    requires forall k: nat :: cut < k < |j.stops| ==> (IsChange(Second(j, cut), k - cut) <==> IsChange(j, k))
    requires forall k: nat :: cut < k < |j.stops| ==> Second(j, cut).stops[k - cut] == j.stops[k]
    ensures ChangesEnter(j) <==> j.stops[cut].enter && ChangesEnter(Second(j, cut))
  {
    hide NoPublicTransportAfterThisStop;
    var second := Second(j, cut);
    if ChangesEnter(j) {
      forall k: nat | IsChange(second, k)
        ensures second.stops[k].enter
      {
        assert IsChange(second, cut + k - cut) && IsChange(j, cut + k);
      }
    }
    if j.stops[cut].enter && ChangesEnter(second) {
      forall k: nat | IsChange(j, k)
        ensures j.stops[k].enter
      {
        assert k > cut ==> IsChange(second, k - cut);
      }
    }
  }

  /** Gluing the pieces gives back the stops if and only if the traveller can get in wherever he changes. */
  lemma GlueRestoresIff(j: Journey)
    requires j.Valid() && Travelled(j)
    ensures forall p :: p in Pieces(j) ==> p.stops != []
    ensures Glue(Pieces(j)) == j.stops <==> ChangesEnter(j)
  {
    hide CutsAreInterchanges, ChangesEnter, Travelled, Pieces, Glue;
    GlueRestores(j);
    CutsAreChanges(j);
  }

  // ----- What a piece says about its ends

  /** The traveller leaves at the end of a piece, and nothing departs there any more. */
  predicate EndsHere(stop: Stop) {
    stop.exit && !stop.enter && !stop.departure.valid
  }

  /** He enters at the start of a piece, and nothing has arrived there. */
  predicate StartsHere(stop: Stop) {
    stop.enter && !stop.exit && !stop.arrival.valid
  }

  /** Every piece but the last one ends with leaving a vehicle, every piece but the first one starts with entering one; the
      ends of the whole journey stay as they are. */
  lemma {:induction false} PieceEnds(j: Journey, k: nat)
    requires j.Valid() && k < |Pieces(j)|
    ensures Pieces(j)[k].stops != []
    ensures var stops := Pieces(j)[k].stops;
            && (if k + 1 < |Pieces(j)| then EndsHere(stops[|stops| - 1]) else stops[|stops| - 1] == j.stops[|j.stops| - 1])
            && (if k > 0 then StartsHere(stops[0]) else stops[0] == j.stops[0])
    decreases |j.stops|
  {
    hide NoPublicTransportAfterThisStop;
    PiecesHaveStops(j);
    assert Pieces(j)[k] in Pieces(j);
    if HasCut(j) {
      CutInside(j);
      var cut := CutOf(j);
      var second := Second(j, cut);
      PiecesOfSplit(j);
      if k > 0 {
        PieceEnds(second, k - 1);
      }
    }
  }

  /** All spans cover at least one leg. */
  ghost predicate CoverSomething<T>(spans: seq<Span<T>>) {
    forall s :: s in spans ==> s.from < s.to
  }

  lemma {:induction false} CutCovers<T>(spans: seq<Span<T>>, cut: nat)
    requires CoverSomething(spans)
    ensures CoverSomething(Before(spans, cut)) && CoverSomething(After(spans, cut))
  {
    if spans != [] {
      var n := |spans| - 1;
      assert spans[n] in spans;
      CutCovers(spans[..n], cut);
    }
  }

  /** No piece gets a transport or an attribute that is not used in it. */
  lemma {:induction false} PiecesCover(j: Journey)
    requires j.Valid() && CoverSomething(j.transports) && CoverSomething(j.attributes)
    ensures forall p :: p in Pieces(j) ==> CoverSomething(p.transports) && CoverSomething(p.attributes)
    decreases |j.stops|
  {
    if HasCut(j) {
      CutInside(j);
      CutCovers(j.transports, CutOf(j));
      CutCovers(j.attributes, CutOf(j));
      PiecesCover(Second(j, CutOf(j)));
    }
  }
}
