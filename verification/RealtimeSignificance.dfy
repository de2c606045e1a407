/** What an update that is not significant leaves out: at most a thousandth of every probability. */
module RealtimeSignificance {
  import opened Integers
  import opened Distributions
  import opened DependencyGraph
  import opened RealtimeUpdate

  /** Before the first minute of a distribution nothing has happened, after the last one everything. */
  lemma OutsideOf(d: Distribution, minute: int)
    ensures minute < d.firstMinute ==> d.SmallerEqual(minute) == 0.0
    ensures minute >= d.LastMinute() ==> d.SmallerEqual(minute) == d.Mass()
  {
  }

  /** The accumulated differences of single minutes bound the difference of the cumulative queries. */
  lemma {:induction false} DifferenceBounds(before: Distribution, after: Distribution, from: int, minute: int)
    requires from <= before.firstMinute && from <= after.firstMinute && from <= minute + 1
    ensures Abs(before.SmallerEqual(minute) - after.SmallerEqual(minute)) <= Difference(before, after, from, minute + 1)
    decreases minute + 1 - from
  {
    hide Distribution.SmallerEqual, Distribution.Equal;
    if minute < from {
      OutsideOf(before, minute);
      OutsideOf(after, minute);
    } else {
      DifferenceBounds(before, after, from, minute - 1);
      EqualIsIncrement(before, minute);
      EqualIsIncrement(after, minute);
    }
  }

  lemma InsignificantIsClose(before: Distribution, after: Distribution, minute: int)
    requires before.Valid() && after.Valid() && !Significant(before, after) && Abs(before.Mass() - after.Mass()) <= 0.001
    ensures Abs(before.SmallerEqual(minute) - after.SmallerEqual(minute)) <= 0.001
  {
    hide Distribution.SmallerEqual, Distribution.Valid, Difference;
    var first := Min(before.firstMinute, after.firstMinute);
    var last := Min(before.LastMinute(), after.LastMinute());
    OutsideOf(before, minute);
    OutsideOf(after, minute);
    if minute <= last {
      if minute >= first {
        DifferenceBounds(before, after, first, minute);
        DifferenceGrows(before, after, first, minute + 1, last + 1);
      }
    } else {
      OutsideOf(before, last);
      OutsideOf(after, last);
      ValidQueries(before, last, minute);
      ValidQueries(after, last, minute);
      if first <= last + 1 {
        DifferenceBounds(before, after, first, last);
      }
    }
  }

  /** All queries are close. */
  ghost predicate Close(before: Distribution, after: Distribution) {
    forall minute :: Abs(before.SmallerEqual(minute) - after.SmallerEqual(minute)) <= 0.001
  }

  /** An update that is not significant changes no query by more than a thousandth, not even behind the smaller last minute,
      where the program does not look, exactly if it does not change the mass by more than that. */
  lemma InsignificantIsCloseIff(before: Distribution, after: Distribution)
    requires before.Valid() && after.Valid() && !Significant(before, after)
    ensures Close(before, after) <==> Abs(before.Mass() - after.Mass()) <= 0.001
  {
    hide Significant, Distribution.Valid;
    if Abs(before.Mass() - after.Mass()) <= 0.001 {
      forall minute
        ensures Abs(before.SmallerEqual(minute) - after.SmallerEqual(minute)) <= 0.001
      {
        InsignificantIsClose(before, after, minute);
      }
    } else {
      var end := if before.LastMinute() > after.LastMinute() then before.LastMinute() else after.LastMinute();
      OutsideOf(before, end);
      OutsideOf(after, end);
    }
  }

  lemma {:induction false} NoDifference(before: Distribution, after: Distribution, from: int, to: int)
    requires forall m :: from <= m < to ==> before.Equal(m) == after.Equal(m)
    ensures Difference(before, after, from, to) == 0.0
    decreases if to > from then to - from else 0
  {
    if from < to {
      NoDifference(before, after, from, to - 1);
    }
  }

  lemma {:induction false} OneDifference(before: Distribution, after: Distribution, from: int, end: int, minute: int)
    requires from <= minute < end
    ensures Difference(before, after, from, end) >= Abs(before.Equal(minute) - after.Equal(minute))
    decreases end - from
  {
    if minute < end - 1 {
      OneDifference(before, after, from, end - 1, minute);
    } else {
      DifferenceNonNegative(before, after, from, minute);
    }
  }

  lemma {:induction false} DifferenceNonNegative(before: Distribution, after: Distribution, from: int, to: int)
    ensures Difference(before, after, from, to) >= 0.0
    decreases if to > from then to - from else 0
  {
    if from < to {
      DifferenceNonNegative(before, after, from, to - 1);
    }
  }

  /** The minutes that are compared: from the smaller first one to the smaller last one. */
  predicate Compared(before: Distribution, after: Distribution, minute: int) {
    (before.firstMinute <= minute || after.firstMinute <= minute) && minute <= before.LastMinute() && minute <= after.LastMinute()
  }

  /** One of them changes by more than a bound. */
  ghost predicate SomeMinuteChanges(before: Distribution, after: Distribution, bound: real) {
    exists m :: Compared(before, after, m) && Abs(before.Equal(m) - after.Equal(m)) > bound
  }

  /** An update is significant if one compared minute changes by more than a thousandth, and only if one changes at all. */
  lemma SignificantMinutes(before: Distribution, after: Distribution)
    ensures SomeMinuteChanges(before, after, 0.001) ==> Significant(before, after)
    ensures Significant(before, after) ==> SomeMinuteChanges(before, after, 0.0)
  {
    hide Difference, Distribution.Equal;
    var first := Min(before.firstMinute, after.firstMinute);
    var last := Min(before.LastMinute(), after.LastMinute());
    if m :| Compared(before, after, m) && Abs(before.Equal(m) - after.Equal(m)) > 0.001 {
      OneDifference(before, after, first, last + 1, m);
    }
    if !SomeMinuteChanges(before, after, 0.0) {
      forall m | first <= m < last + 1
        ensures before.Equal(m) == after.Equal(m)
      {
        assert Compared(before, after, m);
      }
      NoDifference(before, after, first, last + 1);
    }
  }

  /** Without equal masses, a minute that is not compared can hide any change. */
  lemma HiddenChange()
    ensures var before, after := OnePoint(0, 0.5), Distribution(0, [0.5, 1.0]);
            before.Valid() && after.Valid() && !Significant(before, after) && after.SmallerEqual(1) - before.SmallerEqual(1) == 0.5
  {
    var before, after := OnePoint(0, 0.5), Distribution(0, [0.5, 1.0]);
    NoDifference(before, after, 0, 1);
  }

  // ----- What a turn of the update pushes

  /** Event n is recomputed in this turn. */
  predicate Recomputes(events: seq<Event>, c: Surroundings, a: LoopState, k: nat, first: nat)
    requires k < |a.queue| && a.queue[k] < |events| && (a.processed != {} ==> first < |events|)
  {
    c.valid(a.queue[k]) && !(a.queue[k] in a.processed && events[a.queue[k]].time <= events[first].time)
  }

  lemma {:induction false} KnownMembers(list: seq<nat>, known: nat -> bool, s: nat)
    ensures s in Known(list, known) <==> s in list && known(s)
  {
    if list != [] {
      var n := |list| - 1;
      KnownMembers(list[..n], known, s);
      assert list == list[..n] + [list[n]];
    }
  }

  /** A turn that changes one compared minute by more than a thousandth pushes all successors that the schedule still knows; one
      that changes none, or does not recompute its event, pushes nothing. */
  lemma TurnPushes(events: seq<Event>, successors: seq<seq<nat>>, c: Surroundings, a: LoopState, b: LoopState, k: nat, first: nat)
    requires |successors| == |events| && Turn(events, successors, c, a, b, k, first)
    ensures var n, rest := a.queue[k], a.queue[..k] + a.queue[k + 1..];
            var before, after := a.pds[n], b.pds[n];
            && rest <= b.queue
            && (Recomputes(events, c, a, k, first) && SomeMinuteChanges(before, after, 0.001) ==>
                  forall s: nat :: s in b.queue[|rest|..] <==> s in successors[n] && c.known(s))
            && (!Recomputes(events, c, a, k, first) || !SomeMinuteChanges(before, after, 0.0) ==> b.queue == rest)
  {
    hide Significant, Known, Distribution.Equal;
    var n := a.queue[k];
    SignificantMinutes(a.pds[n], c.compute(a.pds, n));
    forall s: nat
      ensures s in Known(successors[n], c.known) <==> s in successors[n] && c.known(s)
    {
      KnownMembers(successors[n], c.known, s);
    }
  }

  // ----- The order of the queue

  /** What is taken from the queue: an event of the earliest minute; an arrival, if there is one in this minute; and of these
      one of the train with the smallest number. */
  lemma TopMeans(events: seq<Event>, queue: seq<nat>, k: nat, i: nat)
    requires AllEvents(events, queue) && IsTop(events, queue, k) && i < |queue|
    ensures var x, y := events[queue[k]], events[queue[i]];
            && x.time <= y.time
            && (x.time == y.time && y.position % 2 == 1 ==> x.position % 2 == 1)
            && (x.time == y.time && x.position % 2 == y.position % 2 ==> x.train <= y.train)
  {
    assert !Before(events, queue[i], queue[k]);
  }

  /** The comparison is a strict weak order, as a priority queue requires it. */
  lemma BeforeIsOrder(events: seq<Event>, a: nat, b: nat, c: nat)
    requires a < |events| && b < |events| && c < |events|
    ensures !Before(events, a, a)
    ensures Before(events, a, b) && Before(events, b, c) ==> Before(events, a, c)
    ensures Before(events, a, c) ==> Before(events, a, b) || Before(events, b, c)
  {
  }

  // ----- Events that are taken twice

  ghost predicate OneMinute(events: seq<Event>, processed: set<nat>) {
    forall m, n :: m in processed && n in processed && m < |events| && n < |events| ==> events[m].time == events[n].time
  }

  /** An event that is taken twice in a row is skipped the second time, unless it was the first one of a new minute: this one
      is not remembered, and computed again. */
  lemma TakenTwice(events: seq<Event>, successors: seq<seq<nat>>, c: Surroundings, a: LoopState, b: LoopState, d: LoopState,
                   k: nat, first: nat, l: nat, next: nat)
    requires |successors| == |events| && Turn(events, successors, c, a, b, k, first) && Turn(events, successors, c, b, d, l, next)
    requires a.queue[k] == b.queue[l] && c.valid(a.queue[k]) && OneMinute(events, a.processed)
    ensures var n := a.queue[k];
            d.pds == if a.processed != {} && events[first].time < events[n].time then b.pds[n := c.compute(b.pds, n)] else b.pds
  {
    hide Significant, Known;
    var n := a.queue[k];
    if a.processed != {} && events[first].time < events[n].time {
      assert b.processed == {};
    } else {
      assert n in b.processed && b.processed <= a.processed + {n};
    }
  }
}
