/** What an update leaves behind: which distributions still follow from the ones they depend on. */
module RealtimeConsistency {
  import opened Distributions
  import opened DependencyGraph
  import opened RealtimeUpdate

  type Edges = seq<seq<nat>>

  // ----- Current distributions

  /** From one state to the next, no predecessor of n changes significantly. */
  ghost predicate Stable(successors: Edges, a: LoopState, b: LoopState, n: nat) {
    forall m {:trigger successors[m]} :: 0 <= m < |successors| && m < |a.pds| && m < |b.pds| && n in successors[m] ==>
      !Significant(a.pds[m], b.pds[m])
  }

  /** The distribution of n is the one computed from state i of the run, and no predecessor changed significantly since. */
  ghost predicate CurrentSince(successors: Edges, c: Surroundings, run: seq<LoopState>, n: nat, i: nat) {
    && i < |run| && n < |run[|run| - 1].pds| && run[|run| - 1].pds[n] == c.compute(run[i].pds, n)
    && forall j {:trigger run[j]} :: i <= j < |run| - 1 ==> Stable(successors, run[j], run[j + 1], n)
  }

  ghost predicate Current(successors: Edges, c: Surroundings, run: seq<LoopState>, n: nat) {
    exists i: nat :: CurrentSince(successors, c, run, n, i)
  }

  /** The events an update can reach: their connections are valid, and the schedule knows them. */
  ghost predicate Covered(c: Surroundings, n: nat) {
    c.valid(n) && c.known(n)
  }

  /** Before an update, every event that is not queued has the distribution that follows from its predecessors. */
  ghost predicate StartsCurrent(events: seq<Event>, c: Surroundings, a: LoopState)
    requires |a.pds| == |events|
  {
    forall n :: 0 <= n < |events| && Covered(c, n) && n !in a.queue ==> a.pds[n] == c.compute(a.pds, n)
  }

  ghost predicate EndsCurrent(events: seq<Event>, successors: Edges, c: Surroundings, run: seq<LoopState>) {
    forall n :: 0 <= n < |events| && Covered(c, n) ==> Current(successors, c, run, n)
  }

  lemma {:induction false} NoDifference(d: Distribution, from: int, count: nat)
    ensures Difference(d, d, from, from + count) == 0.0
  {
    if count > 0 {
      NoDifference(d, from, count - 1);
    }
  }

  lemma NoChange(d: Distribution)
    ensures !Significant(d, d)
  {
    if d.firstMinute <= d.LastMinute() {
      NoDifference(d, d.firstMinute, d.LastMinute() + 1 - d.firstMinute);
    }
  }

  lemma CurrentStays(successors: Edges, c: Surroundings, run: seq<LoopState>, next: LoopState, n: nat)
    requires run != [] && Current(successors, c, run, n) && Stable(successors, run[|run| - 1], next, n)
    requires n < |next.pds| && n < |run[|run| - 1].pds| && next.pds[n] == run[|run| - 1].pds[n]
    ensures Current(successors, c, run + [next], n)
  {
    hide Stable;
    var i: nat :| CurrentSince(successors, c, run, n, i);
    var longer := run + [next];
    forall j {:trigger longer[j]} | i <= j < |longer| - 1
      ensures Stable(successors, longer[j], longer[j + 1], n)
    {
      if j < |run| - 1 {
        assert longer[j] == run[j] && longer[j + 1] == run[j + 1];
      }
    }
    assert CurrentSince(successors, c, longer, n, i);
  }

  /** A distribution that was just computed is current. */
  lemma JustComputed(successors: Edges, c: Surroundings, run: seq<LoopState>, next: LoopState, n: nat)
    requires run != [] && Stable(successors, run[|run| - 1], next, n)
    requires n < |next.pds| && next.pds[n] == c.compute(run[|run| - 1].pds, n)
    ensures Current(successors, c, run + [next], n)
  {
    hide Stable;
    var longer := run + [next];
    assert forall j {:trigger longer[j]} :: |run| - 1 <= j < |longer| - 1 ==> longer[j] == run[|run| - 1] && longer[j + 1] == next;
    assert CurrentSince(successors, c, longer, n, |run| - 1);
  }

  /** Only one distribution changes in a turn, so only its successors can notice. */
  lemma OthersStable(successors: Edges, a: LoopState, b: LoopState, e: nat, n: nat)
    requires |a.pds| == |b.pds| == |successors| && e < |successors|
    requires forall m :: 0 <= m < |successors| && m != e ==> b.pds[m] == a.pds[m]
    requires n in successors[e] ==> !Significant(a.pds[e], b.pds[e])
    ensures Stable(successors, a, b, n)
  {
    hide Significant;
    forall m | 0 <= m < |successors| && n in successors[m]
      ensures !Significant(a.pds[m], b.pds[m])
    {
      NoChange(a.pds[m]);
    }
  }

  // ----- Edges that follow the order of the queue

  ghost predicate Forward(events: seq<Event>, successors: Edges) {
    && |successors| == |events|
    && forall n, s {:trigger s in successors[n]} :: 0 <= n < |events| && s in successors[n] ==> s < |events| && Before(events, n, s)
  }

  lemma BeforeIsOrder(events: seq<Event>, a: nat, b: nat, d: nat)
    requires a < |events| && b < |events| && d < |events|
    ensures Before(events, a, b) && Before(events, b, d) ==> Before(events, a, d)
    ensures Before(events, a, b) ==> !Before(events, b, a)
  {
  }

  /** No queued event precedes a processed one. */
  ghost predicate Ordered(events: seq<Event>, a: LoopState)
    requires a.Valid(events)
  {
    forall p, q :: p in a.processed && q in a.queue ==> !Before(events, q, p)
  }

  lemma TurnKeepsOrder(events: seq<Event>, successors: Edges, c: Surroundings, a: LoopState, b: LoopState, k: nat, first: nat)
    requires Acyclic(events, successors) && Forward(events, successors)
    requires Turn(events, successors, c, a, b, k, first) && Ordered(events, a)
    ensures b.Valid(events) && Ordered(events, b)
  {
    TurnReduces(events, successors, c, a, b, k, first);
    var e := a.queue[k];
    MarkedOnly(events, successors, c, a, b, k, first);
    hide QueueWeight, Before, Turn, Acyclic;
    forall p, q | p in b.processed && q in b.queue
      ensures !Before(events, q, p)
    {
      if q in a.queue {
      } else {
        assert q in successors[e];
        BeforeIsOrder(events, e, q, p);
        BeforeIsOrder(events, e, q, e);
      }
    }
  }

  lemma MarkedOnly(events: seq<Event>, successors: Edges, c: Surroundings, a: LoopState, b: LoopState, k: nat, first: nat)
    requires Acyclic(events, successors) && Turn(events, successors, c, a, b, k, first)
    ensures k < |a.queue| && a.queue[k] < |events|
    ensures forall p :: p in b.processed ==> p in a.processed || p == a.queue[k]
    ensures forall q :: q in a.queue ==> q < |events| && !Before(events, q, a.queue[k])
  {
    hide Significant, Before, Known, Acyclic;
  }

  /** The invariant of the loop: processed events are current, and so is everything that is not queued. */
  ghost predicate Settled(events: seq<Event>, successors: Edges, c: Surroundings, run: seq<LoopState>) {
    && run != [] && run[|run| - 1].Valid(events)
    && Ordered(events, run[|run| - 1])
    && (forall p :: p in run[|run| - 1].processed && c.valid(p) ==> Current(successors, c, run, p))
    && forall n :: 0 <= n < |events| && Covered(c, n) && n !in run[|run| - 1].queue ==> Current(successors, c, run, n)
  }

  /** What a turn does to the distributions and to the queue. */
  lemma TurnEffect(events: seq<Event>, successors: Edges, c: Surroundings, a: LoopState, b: LoopState, k: nat, first: nat)
    requires Acyclic(events, successors) && Turn(events, successors, c, a, b, k, first)
    ensures k < |a.queue| && a.queue[k] < |events|
    ensures |b.pds| == |a.pds| == |events|
    ensures forall n :: n in a.queue && n != a.queue[k] ==> n in b.queue
    ensures var e := a.queue[k];
            || (b.pds == a.pds && (c.valid(e) ==> e in a.processed))
            || (c.valid(e) && b.pds == a.pds[e := c.compute(a.pds, e)] &&
                (Significant(a.pds[e], b.pds[e]) ==> forall s :: s in Known(successors[e], c.known) ==> s in b.queue))
  {
    hide Significant, Before, Known, Acyclic;
    forall n | n in a.queue && n != a.queue[k]
      ensures n in Without(a.queue, k)
    {
      var i :| 0 <= i < |a.queue| && a.queue[i] == n;
      assert Without(a.queue, k)[if i < k then i else i - 1] == n;
    }
  }

  lemma {:induction false} AllKnown(list: seq<nat>, known: nat -> bool, s: nat)
    requires s in list && known(s)
    ensures s in Known(list, known)
  {
    var n := |list| - 1;
    if s != list[n] {
      AllKnown(list[..n], known, s);
    }
  }

  /** The taken event is current after its turn. */
  lemma TakenCurrent(events: seq<Event>, successors: Edges, c: Surroundings, run: seq<LoopState>, b: LoopState, k: nat, first: nat)
    requires Acyclic(events, successors) && Settled(events, successors, c, run)
    requires Turn(events, successors, c, run[|run| - 1], b, k, first)
    ensures k < |run[|run| - 1].queue|
    ensures c.valid(run[|run| - 1].queue[k]) ==> Current(successors, c, run + [b], run[|run| - 1].queue[k])
  {
    var a := run[|run| - 1];
    TurnEffect(events, successors, c, a, b, k, first);
    var e := a.queue[k];
    NotOwnSuccessor(events, successors, e);
    hide Turn, Significant, Current, Stable, Known, Acyclic, Ordered;
    OthersStable(successors, a, b, e, e);
    if c.valid(e) {
      if b.pds == a.pds && e in a.processed {
        CurrentStays(successors, c, run, b, e);
      } else {
        JustComputed(successors, c, run, b, e);
      }
    }
  }

  lemma NotOwnSuccessor(events: seq<Event>, successors: Edges, n: nat)
    requires Acyclic(events, successors) && n < |events|
    ensures n !in successors[n]
  {
  }

  /** Any other current event stays current, if the turn does not push it. */
  lemma OtherCurrent(events: seq<Event>, successors: Edges, c: Surroundings, run: seq<LoopState>, b: LoopState, k: nat, first: nat, n: nat)
    requires Acyclic(events, successors) && run != [] && Turn(events, successors, c, run[|run| - 1], b, k, first)
    requires n < |events| && Current(successors, c, run, n)
    ensures var a := run[|run| - 1];
            && k < |a.queue| && a.queue[k] < |events| && |b.pds| == |a.pds| == |events|
            && (n != a.queue[k] && (n in successors[a.queue[k]] ==> !Significant(a.pds[a.queue[k]], b.pds[a.queue[k]])) ==>
                Current(successors, c, run + [b], n))
  {
    var a := run[|run| - 1];
    TurnEffect(events, successors, c, a, b, k, first);
    hide Turn, Significant, Current, Stable, Known, Acyclic;
    var e := a.queue[k];
    if n != e && (n in successors[e] ==> !Significant(a.pds[e], b.pds[e])) {
      OthersStable(successors, a, b, e, n);
      CurrentStays(successors, c, run, b, n);
    }
  }

  lemma QueuedOrCurrent(events: seq<Event>, successors: Edges, c: Surroundings, run: seq<LoopState>, b: LoopState, k: nat, first: nat, n: nat)
    requires Acyclic(events, successors) && Settled(events, successors, c, run)
    requires Turn(events, successors, c, run[|run| - 1], b, k, first)
    requires n < |events| && Covered(c, n) && n !in b.queue
    ensures Current(successors, c, run + [b], n)
  {
    var a := run[|run| - 1];
    TurnEffect(events, successors, c, a, b, k, first);
    var e := a.queue[k];
    if n == e {
      TakenCurrent(events, successors, c, run, b, k, first);
    } else {
      NoChange(a.pds[e]);
      if n in successors[e] {
        AllKnown(successors[e], c.known, n);
      }
      hide Turn, Significant, Current, Stable, Known, Acyclic, Ordered;
      OtherCurrent(events, successors, c, run, b, k, first, n);
    }
  }

  lemma ProcessedCurrent(events: seq<Event>, successors: Edges, c: Surroundings, run: seq<LoopState>, b: LoopState, k: nat, first: nat, p: nat)
    requires Acyclic(events, successors) && Forward(events, successors) && Settled(events, successors, c, run)
    requires Turn(events, successors, c, run[|run| - 1], b, k, first)
    requires p in b.processed && c.valid(p)
    ensures Current(successors, c, run + [b], p)
  {
    var a := run[|run| - 1];
    MarkedOnly(events, successors, c, a, b, k, first);
    if p == a.queue[k] {
      TakenCurrent(events, successors, c, run, b, k, first);
    } else {
      hide Turn, Significant, Current, Stable, Known, Acyclic, Before;
      assert !Before(events, a.queue[k], p);
      OtherCurrent(events, successors, c, run, b, k, first, p);
    }
  }

  /** When all edges follow the order of the queue, every turn keeps the invariant. */
  lemma TurnKeepsSettled(events: seq<Event>, successors: Edges, c: Surroundings, run: seq<LoopState>, b: LoopState, k: nat, first: nat)
    requires Acyclic(events, successors) && Forward(events, successors) && Settled(events, successors, c, run)
    requires Turn(events, successors, c, run[|run| - 1], b, k, first)
    ensures Settled(events, successors, c, run + [b])
  {
    TurnKeepsOrder(events, successors, c, run[|run| - 1], b, k, first);
    forall p | p in b.processed && c.valid(p)
      ensures Current(successors, c, run + [b], p)
    {
      ProcessedCurrent(events, successors, c, run, b, k, first, p);
    }
    forall n | 0 <= n < |events| && Covered(c, n) && n !in b.queue
      ensures Current(successors, c, run + [b], n)
    {
      QueuedOrCurrent(events, successors, c, run, b, k, first, n);
    }
  }

  lemma StartSettled(events: seq<Event>, successors: Edges, c: Surroundings, a: LoopState)
    requires a.Valid(events) && a.processed == {} && StartsCurrent(events, c, a)
    ensures Settled(events, successors, c, [a])
  {
    forall n | 0 <= n < |events| && Covered(c, n) && n !in a.queue
      ensures Current(successors, c, [a], n)
    {
      assert CurrentSince(successors, c, [a], n, 0);
    }
  }

  lemma ShorterRun(events: seq<Event>, successors: Edges, c: Surroundings, run: seq<LoopState>)
    requires |successors| == |events| && IsRun(events, successors, c, run) && |run| > 1
    ensures IsRun(events, successors, c, run[..|run| - 1]) && run == run[..|run| - 1] + [run[|run| - 1]]
    ensures SomeTurn(events, successors, c, run[|run| - 2], run[|run| - 1])
  {
    hide SomeTurn, LoopState.Valid;
    var before := run[..|run| - 1];
    assert SomeTurn(events, successors, c, run[|run| - 2], run[|run| - 2 + 1]);
    forall i | 0 <= i < |before| - 1
      ensures SomeTurn(events, successors, c, before[i], before[i + 1])
    {
      assert before[i] == run[i] && before[i + 1] == run[i + 1];
    }
  }

  lemma {:induction false} RunSettled(events: seq<Event>, successors: Edges, c: Surroundings, run: seq<LoopState>)
    requires Acyclic(events, successors) && Forward(events, successors)
    requires IsRun(events, successors, c, run) && StartsCurrent(events, c, run[0])
    ensures Settled(events, successors, c, run)
  {
    hide Settled, Turn, Before, Acyclic, StartsCurrent;
    if |run| == 1 {
      assert run == [run[0]];
      StartSettled(events, successors, c, run[0]);
    } else {
      ShorterRun(events, successors, c, run);
      var before, next := run[..|run| - 1], run[|run| - 1];
      RunSettled(events, successors, c, before);
      var k, first :| Turn(events, successors, c, before[|before| - 1], next, k, first);
      TurnKeepsSettled(events, successors, c, before, next, k, first);
    }
  }

  // ----- Without insignificant changes

  /** The computation of an event reads only the distributions of its predecessors. */
  ghost predicate Local(successors: Edges, c: Surroundings) {
    forall p: seq<Distribution>, q: seq<Distribution>, n: nat ::
      |p| == |q| == |successors| && SameBefore(successors, p, q, n) ==> c.compute(p, n) == c.compute(q, n)
  }

  ghost predicate SameBefore(successors: Edges, p: seq<Distribution>, q: seq<Distribution>, n: nat)
    requires |p| == |q| == |successors|
  {
    forall m {:trigger successors[m]} :: 0 <= m < |successors| && n in successors[m] ==> p[m] == q[m]
  }

  /** From one state to the next, every change is significant. */
  ghost predicate ClearChange(a: LoopState, b: LoopState) {
    |a.pds| == |b.pds| && forall m :: 0 <= m < |a.pds| && a.pds[m] != b.pds[m] ==> Significant(a.pds[m], b.pds[m])
  }

  lemma {:induction false} NothingBefore(successors: Edges, run: seq<LoopState>, n: nat, i: nat, j: nat)
    requires i <= j < |run| && forall k :: 0 <= k < |run| ==> |run[k].pds| == |successors|
    requires forall k {:trigger run[k]} :: i <= k < |run| - 1 ==> Stable(successors, run[k], run[k + 1], n) && ClearChange(run[k], run[k + 1])
    ensures SameBefore(successors, run[i].pds, run[j].pds, n)
  {
    if i < j {
      NothingBefore(successors, run, n, i, j - 1);
      hide Significant;
      assert Stable(successors, run[j - 1], run[j - 1 + 1], n) && ClearChange(run[j - 1], run[j - 1 + 1]);
    }
  }

  /** If no turn made a change too small to be passed on, a current distribution is the one its predecessors now give. */
  lemma CurrentIsExact(successors: Edges, c: Surroundings, run: seq<LoopState>, n: nat)
    requires run != [] && Current(successors, c, run, n) && Local(successors, c)
    requires forall k :: 0 <= k < |run| ==> |run[k].pds| == |successors|
    requires forall k :: 0 <= k < |run| - 1 ==> ClearChange(run[k], run[k + 1])
    ensures n < |successors| && run[|run| - 1].pds[n] == c.compute(run[|run| - 1].pds, n)
  {
    hide Stable, ClearChange, SameBefore;
    var i: nat :| CurrentSince(successors, c, run, n, i);
    NothingBefore(successors, run, n, i, |run| - 1);
  }
}
