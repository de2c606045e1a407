/** Propagating realtime messages through the dependency graph. */
module RealtimeUpdate {
  import opened Integers
  import opened Distributions
  import opened DependencyGraph

  // ----- Significance of an update

  function Abs(x: real): real {
    if x < 0.0 then -x else x
  }

  /** The accumulated difference of the point probabilities from `from` up to, but not including, `to`. */
  function Difference(before: Distribution, after: Distribution, from: int, to: int): real
    decreases to - from
  {
    if to <= from then 0.0
    else Difference(before, after, from, to - 1) + Abs(before.Equal(to - 1) - after.Equal(to - 1))
  }

  /** The program compares up to the smaller last minute only. */
  predicate Significant(before: Distribution, after: Distribution) {
    var first := Min(before.firstMinute, after.firstMinute);
    var last := Min(before.LastMinute(), after.LastMinute());
    Difference(before, after, first, last + 1) > 0.001
  }

  lemma DifferenceGrows(before: Distribution, after: Distribution, from: int, to: int, end: int)
    requires from <= to <= end
    ensures Difference(before, after, from, to) <= Difference(before, after, from, end)
    decreases end - to
  {
    if to < end {
      DifferenceGrows(before, after, from, to, end - 1);
    }
  }

  method IsSignificantUpdate(before: Distribution, after: Distribution) returns (significant: bool)
    ensures significant == Significant(before, after)
  {
    var firstMin := Min(before.firstMinute, after.firstMinute);
    var lastMin := Min(before.LastMinute(), after.LastMinute());
    var error := 0.0;
    var min := firstMin;
    while min <= lastMin
      invariant firstMin <= min
      invariant min <= lastMin + 1 || min == firstMin
      invariant error == Difference(before, after, firstMin, min) && error <= 0.001
    {
      error := error + Abs(before.Equal(min) - after.Equal(min));
      min := min + 1;
      if error > 0.001 {
        DifferenceGrows(before, after, firstMin, min, lastMin + 1);
        return true;
      }
    }
    return false;
  }

  // ----- The work that an update can cause

  /** The largest time and position among all events. */
  function MaxTime(events: seq<Event>): (m: int)
    ensures forall e :: e in events ==> e.time <= m
  {
    if events == [] then 0
    else
      var m, e := MaxTime(events[..|events| - 1]), events[|events| - 1];
      if e.time > m then e.time else m
  }

  function MaxPosition(events: seq<Event>): (m: nat)
    ensures forall e :: e in events ==> e.position <= m
  {
    if events == [] then 0
    else
      var m, e := MaxPosition(events[..|events| - 1]), events[|events| - 1];
      if e.position > m then e.position else m
  }

  /** How often one queued event can make the loop run: once for itself, and for everything it pushes. */
  function Weight(events: seq<Event>, successors: seq<seq<nat>>, n: nat): (w: nat)
    requires Acyclic(events, successors) && n < |events|
    ensures w > 0
    decreases MaxTime(events) - events[n].time, MaxPosition(events) - events[n].position, 1, 0
  {
    assert events[n] in events;
    1 + Weights(events, successors, n, successors[n])
  }

  /** The weight of a list of later events. */
  function Weights(events: seq<Event>, successors: seq<seq<nat>>, n: nat, list: seq<nat>): nat
    requires Acyclic(events, successors) && n < |events|
    requires forall s :: s in list ==> s in successors[n]
    decreases MaxTime(events) - events[n].time, MaxPosition(events) - events[n].position, 0, |list|
  {
    if list == [] then 0
    else
      var last := list[|list| - 1];
      assert events[n] in events && last in successors[n] && events[last] in events;
      Weights(events, successors, n, list[..|list| - 1]) + Weight(events, successors, last)
  }

  ghost predicate AllEvents(events: seq<Event>, queue: seq<nat>) {
    forall k :: 0 <= k < |queue| ==> queue[k] < |events|
  }

  /** The weight of everything that is queued. */
  function QueueWeight(events: seq<Event>, successors: seq<seq<nat>>, queue: seq<nat>): nat
    requires Acyclic(events, successors) && AllEvents(events, queue)
  {
    if queue == [] then 0
    else QueueWeight(events, successors, queue[..|queue| - 1]) + Weight(events, successors, queue[|queue| - 1])
  }

  lemma {:induction false} QueueWeightConcat(events: seq<Event>, successors: seq<seq<nat>>, a: seq<nat>, b: seq<nat>)
    requires Acyclic(events, successors) && AllEvents(events, a) && AllEvents(events, b)
    ensures QueueWeight(events, successors, a + b) == QueueWeight(events, successors, a) + QueueWeight(events, successors, b)
  {
    if b == [] {
      assert a + b == a;
    } else {
      assert (a + b)[..|a + b| - 1] == a + b[..|b| - 1];
      QueueWeightConcat(events, successors, a, b[..|b| - 1]);
    }
  }

  /** Taking one element out of the queue takes out exactly its weight. */
  lemma QueueWeightRemove(events: seq<Event>, successors: seq<seq<nat>>, queue: seq<nat>, k: nat)
    requires Acyclic(events, successors) && AllEvents(events, queue) && k < |queue|
    ensures AllEvents(events, Without(queue, k))
    ensures QueueWeight(events, successors, queue) ==
            QueueWeight(events, successors, Without(queue, k)) + Weight(events, successors, queue[k])
  {
    var front, at, back := queue[..k], [queue[k]], queue[k + 1..];
    assert queue == front + at + back;
    QueueWeightConcat(events, successors, front + at, back);
    QueueWeightConcat(events, successors, front, at);
    QueueWeightConcat(events, successors, front, back);
    assert at[..0] == [];
  }

  function Without(queue: seq<nat>, k: nat): seq<nat>
    requires k < |queue|
  {
    queue[..k] + queue[k + 1..]
  }

  /** Some of an event's successors, in order: those the schedule still knows. */
  function Known(list: seq<nat>, known: nat -> bool): seq<nat> {
    if list == [] then []
    else Known(list[..|list| - 1], known) + (if known(list[|list| - 1]) then [list[|list| - 1]] else [])
  }

  lemma {:induction false} PushedWeight(events: seq<Event>, successors: seq<seq<nat>>, n: nat, list: seq<nat>, known: nat -> bool)
    requires Acyclic(events, successors) && n < |events| && forall s :: s in list ==> s in successors[n]
    ensures AllEvents(events, Known(list, known))
    ensures QueueWeight(events, successors, Known(list, known)) <= Weights(events, successors, n, list)
  {
    if list != [] {
      var front, last := list[..|list| - 1], list[|list| - 1];
      assert last in successors[n];
      PushedWeight(events, successors, n, front, known);
      if known(last) {
        QueueWeightConcat(events, successors, Known(front, known), [last]);
        assert [last][..0] == [];
        assert QueueWeight(events, successors, [last]) == Weight(events, successors, last);
      } else {
        assert Known(list, known) == Known(front, known);
      }
    }
  }

  // ----- The queue

  /** a is taken from the queue before b: earlier first, then arrivals before departures, then the smaller train. */
  predicate Before(events: seq<Event>, a: nat, b: nat)
    requires a < |events| && b < |events|
  {
    var x, y := events[a], events[b];
    if x.time == y.time then
      if x.position % 2 == y.position % 2 then x.train < y.train else x.position % 2 == 1
    else x.time < y.time
  }

  /** The position of an element that no other one precedes. */
  method Top(events: seq<Event>, queue: seq<nat>) returns (k: nat)
    requires queue != [] && AllEvents(events, queue)
    ensures k < |queue|
    ensures forall i :: 0 <= i < |queue| ==> !Before(events, queue[i], queue[k])
  {
    k := 0;
    for i := 1 to |queue|
      invariant k < i <= |queue|
      invariant forall j :: 0 <= j < i ==> !Before(events, queue[j], queue[k])
    {
      if Before(events, queue[i], queue[k]) {
        k := i;
      }
    }
  }

  /** What the update loop needs from its surroundings: the new distribution of an event given all current ones,
      whether the event's connection is still valid, and which events the schedule still knows. */
  datatype Surroundings = Surroundings(compute: (seq<Distribution>, nat) -> Distribution, valid: nat -> bool, known: nat -> bool)

  /** Reachable from the queue along edges. */
  ghost predicate ReachableFrom(successors: seq<seq<nat>>, queue: seq<nat>, n: nat) {
    exists path: seq<nat> :: Leads(successors, queue, path, n)
  }

  ghost predicate Leads(successors: seq<seq<nat>>, queue: seq<nat>, path: seq<nat>, n: nat) {
    && path != [] && path[0] in queue && path[|path| - 1] == n
    && (forall k :: 0 <= k < |path| ==> path[k] < |successors|)
    && forall k {:trigger path[k]} :: 0 < k < |path| ==> path[k] in successors[path[k - 1]]
  }

  lemma ReachFurther(successors: seq<seq<nat>>, queue: seq<nat>, n: nat, s: nat)
    requires ReachableFrom(successors, queue, n) && n < |successors| && s in successors[n] && s < |successors|
    ensures ReachableFrom(successors, queue, s)
  {
    var path :| Leads(successors, queue, path, n);
    var longer := path + [s];
    assert Leads(successors, queue, longer, s) by {
      forall k {:trigger longer[k]} | 0 < k < |longer|
        ensures longer[k] in successors[longer[k - 1]]
      {
        if k < |path| {
          assert path[k] in successors[path[k - 1]];
        }
      }
    }
  }

  lemma ReachStart(successors: seq<seq<nat>>, queue: seq<nat>, k: nat)
    requires k < |queue| && queue[k] < |successors|
    ensures ReachableFrom(successors, queue, queue[k])
  {
    assert Leads(successors, queue, [queue[k]], queue[k]);
  }

  // ----- The turns of the loop

  datatype LoopState = LoopState(queue: seq<nat>, processed: set<nat>, pds: seq<Distribution>) {
    ghost predicate Valid(events: seq<Event>) {
      AllEvents(events, queue) && |pds| == |events| && forall n :: n in processed ==> n < |events|
    }
  }

  /** Element k of the queue is one that no other element precedes. */
  ghost predicate IsTop(events: seq<Event>, queue: seq<nat>, k: nat)
    requires AllEvents(events, queue)
  {
    k < |queue| && forall i :: 0 <= i < |queue| ==> !Before(events, queue[i], queue[k])
  }

  /** The event was already processed in the current minute; `first` is some processed event. */
  predicate AlreadyUpdated(events: seq<Event>, processed: set<nat>, first: nat, n: nat)
    requires n < |events| && (processed != {} ==> first < |events|)
  {
    n in processed && events[n].time <= events[first].time
  }

  /** A new minute forgets the processed events, without remembering this one. */
  function Marked(events: seq<Event>, processed: set<nat>, first: nat, n: nat): set<nat>
    requires n < |events| && (processed != {} ==> first < |events|)
  {
    if processed != {} && events[first].time < events[n].time then {} else processed + {n}
  }

  /** Recomputing event n, which is already taken from the queue. */
  function Recomputed(successors: seq<seq<nat>>, c: Surroundings, a: LoopState, n: nat): LoopState
    requires n < |successors| && n < |a.pds|
  {
    var pds := a.pds[n := c.compute(a.pds, n)];
    LoopState(if Significant(a.pds[n], pds[n]) then a.queue + Known(successors[n], c.known) else a.queue, a.processed, pds)
  }

  /** The state after taking element k. */
  function AfterTurn(events: seq<Event>, successors: seq<seq<nat>>, c: Surroundings, a: LoopState, k: nat, first: nat): LoopState
    requires a.Valid(events) && |successors| == |events| && k < |a.queue| && (a.processed != {} ==> first < |events|)
  {
    var n, rest := a.queue[k], Without(a.queue, k);
    if AlreadyUpdated(events, a.processed, first, n) then LoopState(rest, a.processed, a.pds)
    else
      var marked := LoopState(rest, Marked(events, a.processed, first, n), a.pds);
      if c.valid(n) then Recomputed(successors, c, marked, n) else marked
  }

  /** One turn of the loop; the queue does not say which of several first elements it delivers. */
  ghost predicate Turn(events: seq<Event>, successors: seq<seq<nat>>, c: Surroundings, a: LoopState, b: LoopState, k: nat, first: nat)
    requires |successors| == |events|
  {
    && a.Valid(events) && IsTop(events, a.queue, k) && (a.processed != {} ==> first in a.processed)
    && b == AfterTurn(events, successors, c, a, k, first)
  }

  ghost predicate SomeTurn(events: seq<Event>, successors: seq<seq<nat>>, c: Surroundings, a: LoopState, b: LoopState)
    requires |successors| == |events|
  {
    exists k: nat, first: nat :: Turn(events, successors, c, a, b, k, first)
  }

  /** All states of the loop, from the first one on. */
  ghost predicate IsRun(events: seq<Event>, successors: seq<seq<nat>>, c: Surroundings, run: seq<LoopState>)
    requires |successors| == |events|
  {
    && run != [] && run[0].Valid(events) && run[0].processed == {}
    && forall i :: 0 <= i < |run| - 1 ==> SomeTurn(events, successors, c, run[i], run[i + 1])
  }

  lemma ExtendRun(events: seq<Event>, successors: seq<seq<nat>>, c: Surroundings, run: seq<LoopState>, next: LoopState)
    requires |successors| == |events| && IsRun(events, successors, c, run)
    requires SomeTurn(events, successors, c, run[|run| - 1], next)
    ensures IsRun(events, successors, c, run + [next])
  {
    hide SomeTurn;
    var longer := run + [next];
    forall i | 0 <= i < |longer| - 1
      ensures SomeTurn(events, successors, c, longer[i], longer[i + 1])
    {
      if i < |run| - 1 {
        assert longer[i] == run[i] && longer[i + 1] == run[i + 1];
      }
    }
  }

  /** A turn takes one element and may push some of its successors. */
  lemma TurnQueue(events: seq<Event>, successors: seq<seq<nat>>, c: Surroundings, a: LoopState, b: LoopState, k: nat, first: nat)
    requires Acyclic(events, successors) && Turn(events, successors, c, a, b, k, first)
    ensures k < |a.queue| && a.queue[k] < |events|
    ensures var rest := Without(a.queue, k);
            b.queue == rest || b.queue == rest + Known(successors[a.queue[k]], c.known)
    ensures |b.pds| == |events| && (forall n :: n in b.processed ==> n < |events|)
  {
    hide Acyclic, Significant, Known;
  }

  /** A turn leaves a valid state, and less work: what is pushed weighs less than what is taken. */
  lemma TurnReduces(events: seq<Event>, successors: seq<seq<nat>>, c: Surroundings, a: LoopState, b: LoopState, k: nat, first: nat)
    requires Acyclic(events, successors) && Turn(events, successors, c, a, b, k, first)
    ensures b.Valid(events) && k < |a.queue| && a.queue[k] < |events|
    ensures QueueWeight(events, successors, b.queue) < QueueWeight(events, successors, a.queue)
    ensures forall n :: n in b.queue ==> n in a.queue || n in successors[a.queue[k]]
  {
    TurnQueue(events, successors, c, a, b, k, first);
    hide Turn, Acyclic, QueueWeight, Known;
    var element, rest := a.queue[k], Without(a.queue, k);
    QueueWeightRemove(events, successors, a.queue, k);
    PushedWeight(events, successors, element, successors[element], c.known);
    QueueWeightConcat(events, successors, rest, Known(successors[element], c.known));
    KnownIn(successors[element], c.known);
    WeightAbove(events, successors, element);
  }

  lemma WeightAbove(events: seq<Event>, successors: seq<seq<nat>>, n: nat)
    requires Acyclic(events, successors) && n < |events|
    ensures Weights(events, successors, n, successors[n]) < Weight(events, successors, n)
  {
  }

  class PrecomputedDistributions {
    const events: seq<Event>
    const successors: seq<seq<nat>>
    var pds: seq<Distribution>

    constructor (events: seq<Event>, successors: seq<seq<nat>>, pds: seq<Distribution>)
      ensures this.events == events && this.successors == successors && this.pds == pds
    {
      this.events, this.successors, this.pds := events, successors, pds;
    }

    /** One turn of the loop. */
    method ProcessElement(queue: seq<nat>, processed: set<nat>, c: Surroundings)
      returns (rest: seq<nat>, nowProcessed: set<nat>, ghost k: nat, ghost first: nat)
      requires Acyclic(events, successors) && LoopState(queue, processed, pds).Valid(events) && queue != []
      modifies this
      ensures Turn(events, successors, c, LoopState(queue, processed, old(pds)), LoopState(rest, nowProcessed, pds), k, first)
    {
      var position := Top(events, queue);
      k, first := position, 0;
      var element := queue[position];
      rest, nowProcessed := Without(queue, position), processed;
      if processed != {} {
        var begin :| begin in processed;
        first := begin;
        if events[begin].time < events[element].time {
          nowProcessed := {};
        } else if element in processed {
          return;
        } else {
          nowProcessed := processed + {element};
        }
      } else {
        nowProcessed := {element};
      }
      if !c.valid(element) {
        return;
      }
      var pdBefore := pds[element];
      pds := pds[element := c.compute(pds, element)];
      var significant := IsSignificantUpdate(pdBefore, pds[element]);
      if significant {
        var pushed := PushSuccessors(successors[element], c.known);
        rest := rest + pushed;
      }
    }

    method PushSuccessors(list: seq<nat>, known: nat -> bool) returns (pushed: seq<nat>)
      ensures pushed == Known(list, known)
    {
      pushed := [];
      for i := 0 to |list|
        invariant pushed == Known(list[..i], known)
      {
        if known(list[i]) {
          pushed := pushed + [list[i]];
        }
        assert list[..i + 1][..i] == list[..i];
      }
      assert list[..|list|] == list;
    }

    /** The loop ends for every initial queue, after at most as many turns as the queue weighs, and recomputes only
        events that depend on a queued one; its states are a run of turns that ends with an empty queue. */
    method UpdatePrecomputedDistributions(initial: seq<nat>, c: Surroundings) returns (numProcessed: nat, ghost run: seq<LoopState>)
      requires Acyclic(events, successors) && |pds| == |events| && AllEvents(events, initial)
      modifies this
      ensures IsRun(events, successors, c, run) && |run| == numProcessed + 1
      ensures run[0] == LoopState(initial, {}, old(pds)) && run[numProcessed].queue == [] && run[numProcessed].pds == pds
      ensures numProcessed <= QueueWeight(events, successors, initial)
      ensures |pds| == |events|
      ensures forall n :: 0 <= n < |events| ==> pds[n] == old(pds)[n] || ReachableFrom(successors, initial, n)
    {
      numProcessed := 0;
      var queue := initial;
      var processed: set<nat> := {};
      run := [LoopState(initial, {}, pds)];
      forall k | 0 <= k < |initial|
        ensures ReachableFrom(successors, initial, initial[k])
      {
        ReachStart(successors, initial, k);
      }
      while queue != []
        invariant LoopState(queue, processed, pds).Valid(events)
        invariant IsRun(events, successors, c, run) && |run| == numProcessed + 1
        invariant run[0] == LoopState(initial, {}, old(pds)) && run[numProcessed] == LoopState(queue, processed, pds)
        invariant numProcessed + QueueWeight(events, successors, queue) <= QueueWeight(events, successors, initial)
        invariant OnlyDependent(successors, initial, LoopState(queue, processed, pds), old(pds))
        decreases QueueWeight(events, successors, queue)
      {
        hide QueueWeight, IsRun, Turn, ReachableFrom, OnlyDependent;
        ghost var before := LoopState(queue, processed, pds);
        ghost var k, first;
        numProcessed := numProcessed + 1;
        queue, processed, k, first := ProcessElement(queue, processed, c);
        ghost var after := LoopState(queue, processed, pds);
        TurnReduces(events, successors, c, before, after, k, first);
        StaysDependent(events, successors, c, initial, old(pds), before, after, k, first);
        ExtendRun(events, successors, c, run, after);
        run := run + [after];
      }
    }
  }

  /** Everything queued or changed depends on an event of the initial queue. */
  ghost predicate OnlyDependent(successors: seq<seq<nat>>, initial: seq<nat>, a: LoopState, pds: seq<Distribution>)
    requires |a.pds| == |pds|
  {
    && (forall n :: n in a.queue ==> ReachableFrom(successors, initial, n))
    && forall n :: 0 <= n < |pds| ==> a.pds[n] == pds[n] || ReachableFrom(successors, initial, n)
  }

  lemma StaysDependent(events: seq<Event>, successors: seq<seq<nat>>, c: Surroundings, initial: seq<nat>, pds: seq<Distribution>,
                       a: LoopState, b: LoopState, k: nat, first: nat)
    requires Acyclic(events, successors) && Turn(events, successors, c, a, b, k, first)
    requires |pds| == |events| == |b.pds| && OnlyDependent(successors, initial, a, pds)
    ensures OnlyDependent(successors, initial, b, pds)
  {
    hide QueueWeight;
    TurnReduces(events, successors, c, a, b, k, first);
    hide ReachableFrom;
    forall n | n in b.queue
      ensures ReachableFrom(successors, initial, n)
    {
      if n !in a.queue {
        ReachFurther(successors, initial, a.queue[k], n);
      }
    }
  }

  lemma {:induction false} KnownIn(list: seq<nat>, known: nat -> bool)
    ensures forall s :: s in Known(list, known) ==> s in list
  {
    if list != [] {
      KnownIn(list[..|list| - 1], known);
    }
  }
}
