/** Updates as the program makes them: they start from events with a message, whose distributions depend on nothing else. */
module RealtimeReports {
  import opened Distributions
  import opened DependencyGraph
  import opened RealtimeUpdate
  import opened RealtimeConsistency

  // ----- What recomputation reads

  ghost predicate AllUnit(p: seq<Distribution>) {
    forall k :: 0 <= k < |p| ==> p[k].Mass() == 1.0
  }

  ghost predicate SameMasses(successors: Edges, p: seq<Distribution>, q: seq<Distribution>, n: nat)
    requires |p| == |q| == |successors|
  {
    forall m {:trigger successors[m]} :: 0 <= m < |successors| && n in successors[m] ==> p[m].Mass() == q[m].Mass()
  }

  /** With a message, an event reads nothing but the masses of its predecessors. */
  ghost predicate ReadsMasses(successors: Edges, c: Surroundings, n: nat) {
    forall p: seq<Distribution>, q: seq<Distribution> ::
      |p| == |q| == |successors| && SameMasses(successors, p, q, n) ==> c.compute(p, n) == c.compute(q, n)
  }

  /** From distributions of mass one a distribution of mass one is computed. */
  ghost predicate KeepsMass(successors: Edges, c: Surroundings) {
    forall p: seq<Distribution>, n: nat :: |p| == |successors| && AllUnit(p) ==> c.compute(p, n).Mass() == 1.0
  }

  /** Events read only their predecessors, those with a message only masses, and no mass is lost. */
  ghost predicate Computes(successors: Edges, c: Surroundings, reported: set<nat>) {
    Local(successors, c) && KeepsMass(successors, c) && forall n :: n in reported ==> ReadsMasses(successors, c, n)
  }

  /** An update starts from the events with a message, and all other events are current. */
  ghost predicate StartsFromReports(events: seq<Event>, c: Surroundings, a: LoopState, reported: set<nat>)
    requires |a.pds| == |events|
  {
    (forall n :: n in a.queue ==> n in reported) && AllUnit(a.pds) && StartsCurrent(events, c, a)
  }

  // ----- The exact condition

  /** A departure right after the end of a ride that took no time, although something else precedes it, too. */
  ghost predicate Hasty(events: seq<Event>, successors: Edges, d0: nat, a0: nat, d: nat, f: nat) {
    && AtOnce(events, successors, d0, a0) && AtOnce(events, successors, a0, d)
    && d < |events| && events[d].position % 2 == 0
    && f < |successors| && d in successors[f] && f != a0
  }

  /** No departure with a feeder leaves in the minute in which its train has departed from the stop before. */
  ghost predicate NoHaste(events: seq<Event>, successors: Edges) {
    forall d0: nat, a0: nat, d: nat, f: nat :: !Hasty(events, successors, d0, a0, d, f)
  }

  // ----- Events whose distributions cannot change any more in an update

  /** The arrival ends a ride that took no time. */
  ghost predicate Immediate(events: seq<Event>, successors: Edges, a: nat) {
    exists d: nat :: AtOnce(events, successors, d, a)
  }

  /** Event n comes right after m in a chain of rides and stops that take no time. */
  ghost predicate Bound(events: seq<Event>, successors: Edges, m: nat, n: nat) {
    AtOnce(events, successors, m, n) && (events[n].position % 2 == 1 || Immediate(events, successors, m))
  }

  /** Nothing is queued that event n could wait for. */
  ghost predicate Calm(events: seq<Event>, successors: Edges, s: LoopState, n: nat)
    requires n < |events|
  {
    forall q :: q in s.queue && q < |events| ==>
      && events[n].time <= events[q].time
      && (events[q].time == events[n].time && events[n].position % 2 == 0 && events[q].position % 2 == 1 ==> Immediate(events, successors, q))
  }

  ghost predicate Exact(c: Surroundings, s: LoopState, n: nat) {
    n < |s.pds| && s.pds[n] == c.compute(s.pds, n)
  }

  /** The event is up to date and stays so: it has a message, or everything before it is done. */
  ghost predicate Done(events: seq<Event>, successors: Edges, c: Surroundings, reported: set<nat>, s: LoopState, n: nat)
    requires n < |events|
    decreases events[n].position
  {
    && Exact(c, s, n)
    && (n in reported
        || ((forall m: nat :: Bound(events, successors, m, n) && m < |events| && events[m].position < events[n].position ==>
               Done(events, successors, c, reported, s, m))
            && ((forall m: nat :: !Bound(events, successors, m, n)) ==> Calm(events, successors, s, n))))
  }

  // ----- Done events stay done

  lemma AtOnceForward(events: seq<Event>, successors: Edges, m: nat, n: nat)
    requires Acyclic(events, successors) && AtOnce(events, successors, m, n)
    ensures events[m].position < events[n].position && m != n
  {
  }

  /** A bound event depends on nothing but what it is bound to. */
  lemma BoundIsAlone(events: seq<Event>, successors: Edges, m: nat, n: nat, f: nat)
    requires Timetable(events, successors) && NoHaste(events, successors)
    requires Bound(events, successors, m, n) && f < |events| && n in successors[f]
    ensures f == m
  {
    if events[n].position % 2 == 0 {
      var d0: nat :| AtOnce(events, successors, d0, m);
      assert !Hasty(events, successors, d0, m, n, f);
    }
  }

  /** A turn recomputes at most one event. */
  ghost predicate OneChange(c: Surroundings, a: LoopState, b: LoopState, e: nat) {
    e < |a.pds| && (b.pds == a.pds || b.pds == a.pds[e := c.compute(a.pds, e)])
  }

  lemma UnitStays(successors: Edges, c: Surroundings, a: LoopState, b: LoopState, e: nat)
    requires KeepsMass(successors, c) && |a.pds| == |successors| && AllUnit(a.pds) && OneChange(c, a, b, e)
    ensures AllUnit(b.pds)
  {
  }

  /** A queued predecessor of a calm event is in the same chain. */
  lemma CalmIsBound(events: seq<Event>, successors: Edges, s: LoopState, n: nat, e: nat)
    requires Acyclic(events, successors) && Timetable(events, successors)
    requires n < |events| && Calm(events, successors, s, n) && e in s.queue && e < |events| && n in successors[e]
    ensures Bound(events, successors, e, n)
  {
    assert Later(events, e, n);
    assert AtOnce(events, successors, e, n);
  }

  lemma SomeBound(events: seq<Event>, successors: Edges, c: Surroundings, reported: set<nat>, s: LoopState, n: nat, e: nat) returns (m: nat)
    requires Acyclic(events, successors) && Timetable(events, successors) && n < |events| && n !in reported
    requires Done(events, successors, c, reported, s, n) && e in s.queue && e < |events| && n in successors[e]
    ensures Bound(events, successors, m, n)
  {
    if k: nat :| Bound(events, successors, k, n) {
      m := k;
    } else {
      hide Bound, Calm, Acyclic, Timetable;
      CalmIsBound(events, successors, s, n, e);
      m := e;
    }
  }

  /** A predecessor of a done event that is recomputed stays as it is. */
  lemma PredecessorStays(events: seq<Event>, successors: Edges, c: Surroundings, reported: set<nat>, a: LoopState, n: nat, e: nat)
    requires Acyclic(events, successors) && Timetable(events, successors) && NoHaste(events, successors)
    requires n < |events| && e < |events| && n !in reported
    requires Done(events, successors, c, reported, a, n) && e in a.queue && n in successors[e]
    ensures Exact(c, a, e)
  {
    hide Bound, Calm, NoHaste, AtOnce;
    var m := SomeBound(events, successors, c, reported, a, n, e);
    BoundIsAlone(events, successors, m, n, e);
    BoundForward(events, successors, m, n);
  }

  lemma BoundForward(events: seq<Event>, successors: Edges, m: nat, n: nat)
    requires Acyclic(events, successors) && Bound(events, successors, m, n)
    ensures m < |events| && n < |events| && events[m].position < events[n].position
  {
    AtOnceForward(events, successors, m, n);
  }

  /** The value of a done event is not changed by a turn, and is still what its predecessors give. */
  lemma ExactStays(events: seq<Event>, successors: Edges, c: Surroundings, reported: set<nat>, a: LoopState, b: LoopState, e: nat, n: nat)
    requires Acyclic(events, successors) && Timetable(events, successors) && NoHaste(events, successors)
    requires Computes(successors, c, reported) && |a.pds| == |events| && AllUnit(a.pds)
    requires n < |events| && Done(events, successors, c, reported, a, n)
    requires e in a.queue && e < |events| && OneChange(c, a, b, e)
    ensures Exact(c, b, n)
  {
    UnitStays(successors, c, a, b, e);
    if n in reported {
      assert SameMasses(successors, a.pds, b.pds, n);
      assert ReadsMasses(successors, c, n);
    } else {
      hide Acyclic, Timetable, NoHaste, Bound, Calm, KeepsMass, ReadsMasses;
      if n in successors[e] {
        PredecessorStays(events, successors, c, reported, a, n, e);
      }
      assert SameBefore(successors, a.pds, b.pds, n);
    }
  }

  /** What a turn adds to the queue: successors of the taken event. */
  ghost predicate PushesOnly(successors: Edges, a: LoopState, b: LoopState, e: nat)
    requires e < |successors|
  {
    forall q :: q in b.queue ==> q in a.queue || q in successors[e]
  }

  lemma CalmStays(events: seq<Event>, successors: Edges, a: LoopState, b: LoopState, e: nat, n: nat)
    requires Acyclic(events, successors) && n < |events| && e < |events| && e in a.queue
    requires Calm(events, successors, a, n) && PushesOnly(successors, a, b, e)
    ensures Calm(events, successors, b, n)
  {
    forall q | q in b.queue && q < |events| && q !in a.queue
      ensures events[n].time <= events[q].time
      ensures events[q].time == events[n].time ==> Immediate(events, successors, q)
    {
      assert q in successors[e] && Later(events, e, q);
      assert events[q].time == events[n].time ==> AtOnce(events, successors, e, q);
    }
  }

  lemma {:induction false} DoneStays(events: seq<Event>, successors: Edges, c: Surroundings, reported: set<nat>, a: LoopState, b: LoopState, e: nat, n: nat)
    requires Acyclic(events, successors) && Timetable(events, successors) && NoHaste(events, successors)
    requires Computes(successors, c, reported) && |a.pds| == |events| && AllUnit(a.pds)
    requires n < |events| && Done(events, successors, c, reported, a, n)
    requires e in a.queue && e < |events| && OneChange(c, a, b, e) && PushesOnly(successors, a, b, e)
    ensures Done(events, successors, c, reported, b, n)
    decreases events[n].position
  {
    hide Acyclic, Timetable, NoHaste, Bound, Calm, Computes, Exact, OneChange, PushesOnly, AllUnit;
    ExactStays(events, successors, c, reported, a, b, e, n);
    if n !in reported {
      forall m: nat | Bound(events, successors, m, n) && m < |events| && events[m].position < events[n].position
        ensures Done(events, successors, c, reported, b, m)
      {
        DoneStays(events, successors, c, reported, a, b, e, m);
      }
      if forall m: nat :: !Bound(events, successors, m, n) {
        CalmStays(events, successors, a, b, e, n);
      }
    }
  }

  // ----- The loop

  /** Whatever waits in the queue without a message was pushed by an event that is done. */
  ghost predicate QueueReady(events: seq<Event>, successors: Edges, c: Surroundings, reported: set<nat>, s: LoopState) {
    forall q, m: nat :: q in s.queue && q !in reported && q < |events| && m < |events| && Bound(events, successors, m, q) ==>
      Done(events, successors, c, reported, s, m)
  }

  ghost predicate ProcessedDone(events: seq<Event>, successors: Edges, c: Surroundings, reported: set<nat>, s: LoopState) {
    forall p :: p in s.processed && p < |events| && c.valid(p) ==> Done(events, successors, c, reported, s, p)
  }

  ghost predicate Ready(events: seq<Event>, successors: Edges, c: Surroundings, reported: set<nat>, s: LoopState) {
    && s.Valid(events) && AllUnit(s.pds)
    && QueueReady(events, successors, c, reported, s) && ProcessedDone(events, successors, c, reported, s)
  }

  /** One turn: either the event was processed before or is not valid, and nothing happens; or it is recomputed. */
  ghost predicate Skips(c: Surroundings, a: LoopState, b: LoopState, e: nat) {
    && b.pds == a.pds && (forall q :: q in b.queue ==> q in a.queue)
    && (c.valid(e) ==> e in a.processed)
  }

  ghost predicate Recomputes(successors: Edges, c: Surroundings, a: LoopState, b: LoopState, e: nat)
    requires e < |successors|
  {
    c.valid(e) && e < |a.pds| && b.pds == a.pds[e := c.compute(a.pds, e)] && PushesOnly(successors, a, b, e)
  }

  lemma TurnCases(events: seq<Event>, successors: Edges, c: Surroundings, a: LoopState, b: LoopState, k: nat, first: nat)
    requires Acyclic(events, successors) && Turn(events, successors, c, a, b, k, first)
    ensures k < |a.queue| && a.queue[k] < |events| && a.queue[k] in a.queue
    ensures Skips(c, a, b, a.queue[k]) || Recomputes(successors, c, a, b, a.queue[k])
    ensures OneChange(c, a, b, a.queue[k]) && PushesOnly(successors, a, b, a.queue[k])
    ensures forall p :: p in b.processed ==> p in a.processed || p == a.queue[k]
    ensures forall q :: q in a.queue ==> q < |events| && !Before(events, q, a.queue[k])
    ensures b.Valid(events)
  {
    TurnReduces(events, successors, c, a, b, k, first);
    MarkedOnly(events, successors, c, a, b, k, first);
    hide Significant, Before, Known, Acyclic, QueueWeight;
    forall q | q in Without(a.queue, k)
      ensures q in a.queue
    {
    }
  }

  /** A recomputed event is done: nothing before it is queued any more, or it was pushed by an event that is done. */
  lemma TakenDone(events: seq<Event>, successors: Edges, c: Surroundings, reported: set<nat>, a: LoopState, b: LoopState, e: nat)
    requires Acyclic(events, successors) && Timetable(events, successors) && NoHaste(events, successors)
    requires Computes(successors, c, reported) && Ready(events, successors, c, reported, a)
    requires e in a.queue && e < |events| && Recomputes(successors, c, a, b, e)
    requires forall q :: q in a.queue ==> q < |events| && !Before(events, q, e)
    ensures Done(events, successors, c, reported, b, e)
  {
    TakenExact(events, successors, c, reported, a, b, e);
    if e !in reported {
      forall m: nat | Bound(events, successors, m, e) && m < |events| && events[m].position < events[e].position
        ensures Done(events, successors, c, reported, b, m)
      {
        hide Acyclic, Timetable, NoHaste, Bound, Calm, Computes, Exact, AllUnit;
        assert Done(events, successors, c, reported, a, m);
        DoneStays(events, successors, c, reported, a, b, e, m);
      }
      if forall m: nat :: !Bound(events, successors, m, e) {
        TakenCalm(events, successors, a, e);
        CalmStays(events, successors, a, b, e, e);
      }
    }
  }

  lemma TakenExact(events: seq<Event>, successors: Edges, c: Surroundings, reported: set<nat>, a: LoopState, b: LoopState, e: nat)
    requires Acyclic(events, successors) && Computes(successors, c, reported) && |a.pds| == |events| && AllUnit(a.pds)
    requires e < |events| && Recomputes(successors, c, a, b, e)
    ensures Exact(c, b, e)
  {
    NotOwnSuccessor(events, successors, e);
    hide Acyclic, KeepsMass, ReadsMasses;
    assert SameBefore(successors, a.pds, b.pds, e);
  }

  lemma TakenCalm(events: seq<Event>, successors: Edges, a: LoopState, e: nat)
    requires e < |events| && forall q :: q in a.queue ==> q < |events| && !Before(events, q, e)
    ensures Calm(events, successors, a, e)
  {
  }

  /** The context of an update, in one name. */
  ghost predicate Update(events: seq<Event>, successors: Edges, c: Surroundings, reported: set<nat>) {
    && |successors| == |events| && Acyclic(events, successors) && Timetable(events, successors) && NoHaste(events, successors)
    && Computes(successors, c, reported)
  }

  /** A valid event that is taken is done afterwards. */
  lemma TakenIsDone(events: seq<Event>, successors: Edges, c: Surroundings, reported: set<nat>, a: LoopState, b: LoopState, k: nat, first: nat)
    requires Update(events, successors, c, reported) && Ready(events, successors, c, reported, a)
    requires Turn(events, successors, c, a, b, k, first)
    ensures k < |a.queue| && a.queue[k] < |events|
    ensures c.valid(a.queue[k]) ==> Done(events, successors, c, reported, b, a.queue[k])
  {
    TurnCases(events, successors, c, a, b, k, first);
    hide Turn, Acyclic, Timetable, NoHaste, Computes, QueueReady, AllUnit, Before, Done, Recomputes, PushesOnly, OneChange;
    var e := a.queue[k];
    if c.valid(e) {
      if Recomputes(successors, c, a, b, e) {
        TakenDone(events, successors, c, reported, a, b, e);
      } else {
        DoneStays(events, successors, c, reported, a, b, e, e);
      }
    }
  }

  /** An event that is pushed was pushed by an event that is done; if it is in a chain, this is its predecessor. */
  lemma QueueStaysReady(events: seq<Event>, successors: Edges, c: Surroundings, reported: set<nat>, a: LoopState, b: LoopState, k: nat, first: nat)
    requires Update(events, successors, c, reported) && Ready(events, successors, c, reported, a)
    requires Turn(events, successors, c, a, b, k, first)
    ensures QueueReady(events, successors, c, reported, b)
  {
    TurnCases(events, successors, c, a, b, k, first);
    TakenIsDone(events, successors, c, reported, a, b, k, first);
    hide Turn, Acyclic, Timetable, NoHaste, Computes, ProcessedDone, AllUnit, Before, Done, OneChange, Bound;
    var e := a.queue[k];
    forall q, m: nat | q in b.queue && q !in reported && q < |events| && m < |events| && Bound(events, successors, m, q)
      ensures Done(events, successors, c, reported, b, m)
    {
      if q in a.queue {
        DoneStays(events, successors, c, reported, a, b, e, m);
      } else {
        BoundIsAlone(events, successors, m, q, e);
      }
    }
  }

  lemma ProcessedStayDone(events: seq<Event>, successors: Edges, c: Surroundings, reported: set<nat>, a: LoopState, b: LoopState, k: nat, first: nat)
    requires Update(events, successors, c, reported) && Ready(events, successors, c, reported, a)
    requires Turn(events, successors, c, a, b, k, first)
    ensures ProcessedDone(events, successors, c, reported, b)
  {
    TurnCases(events, successors, c, a, b, k, first);
    TakenIsDone(events, successors, c, reported, a, b, k, first);
    hide Turn, Acyclic, Timetable, NoHaste, Computes, QueueReady, AllUnit, Before, Done, OneChange, PushesOnly;
    var e := a.queue[k];
    forall p | p in b.processed && p < |events| && c.valid(p)
      ensures Done(events, successors, c, reported, b, p)
    {
      if p != e {
        DoneStays(events, successors, c, reported, a, b, e, p);
      }
    }
  }

  lemma ReadyStays(events: seq<Event>, successors: Edges, c: Surroundings, reported: set<nat>, a: LoopState, b: LoopState, k: nat, first: nat)
    requires Update(events, successors, c, reported) && Ready(events, successors, c, reported, a)
    requires Turn(events, successors, c, a, b, k, first)
    ensures Ready(events, successors, c, reported, b)
  {
    TurnCases(events, successors, c, a, b, k, first);
    QueueStaysReady(events, successors, c, reported, a, b, k, first);
    ProcessedStayDone(events, successors, c, reported, a, b, k, first);
    hide Turn, Acyclic, Timetable, NoHaste, QueueReady, ProcessedDone, Before, Done, PushesOnly, Local, ReadsMasses, KeepsMass, OneChange, AllUnit;
    UnitStays(successors, c, a, b, a.queue[k]);
  }

  // ----- Runs

  /** Queued, or current. */
  ghost predicate AllCurrent(events: seq<Event>, successors: Edges, c: Surroundings, run: seq<LoopState>) {
    && run != []
    && forall n :: 0 <= n < |events| && Covered(c, n) && n !in run[|run| - 1].queue ==> Current(successors, c, run, n)
  }

  lemma ExactIsCurrent(successors: Edges, c: Surroundings, run: seq<LoopState>, n: nat)
    requires run != [] && Exact(c, run[|run| - 1], n)
    ensures Current(successors, c, run, n)
  {
    assert CurrentSince(successors, c, run, n, |run| - 1);
  }

  lemma CurrentAfterTurn(events: seq<Event>, successors: Edges, c: Surroundings, reported: set<nat>, run: seq<LoopState>, b: LoopState, k: nat, first: nat, n: nat)
    requires Update(events, successors, c, reported) && run != [] && Ready(events, successors, c, reported, run[|run| - 1])
    requires AllCurrent(events, successors, c, run) && Turn(events, successors, c, run[|run| - 1], b, k, first)
    requires n < |events| && Covered(c, n) && n !in b.queue
    ensures Current(successors, c, run + [b], n)
  {
    var a := run[|run| - 1];
    TurnEffect(events, successors, c, a, b, k, first);
    var e := a.queue[k];
    if n == e {
      TakenIsDone(events, successors, c, reported, a, b, k, first);
      ExactIsCurrent(successors, c, run + [b], n);
    } else {
      hide Turn, Significant, Current, Known, Acyclic, Timetable, NoHaste, Computes, Ready;
      NoChange(a.pds[e]);
      if n in successors[e] && c.known(n) {
        AllKnown(successors[e], c.known, n);
      }
      OtherCurrent(events, successors, c, run, b, k, first, n);
    }
  }

  lemma {:induction false} RunReady(events: seq<Event>, successors: Edges, c: Surroundings, reported: set<nat>, run: seq<LoopState>)
    requires Update(events, successors, c, reported) && IsRun(events, successors, c, run)
    requires StartsFromReports(events, c, run[0], reported)
    ensures Ready(events, successors, c, reported, run[|run| - 1]) && AllCurrent(events, successors, c, run)
  {
    if |run| == 1 {
      StartReady(events, successors, c, reported, run[0]);
      assert run == [run[0]];
    } else {
      hide Turn, Acyclic, Timetable, NoHaste, Computes, Ready, AllCurrent, StartsFromReports;
      ShorterRun(events, successors, c, run);
      var before, next := run[..|run| - 1], run[|run| - 1];
      RunReady(events, successors, c, reported, before);
      var k: nat, first: nat :| Turn(events, successors, c, before[|before| - 1], next, k, first);
      ReadyStays(events, successors, c, reported, before[|before| - 1], next, k, first);
      CurrentGrows(events, successors, c, reported, before, next, k, first);
    }
  }

  lemma CurrentGrows(events: seq<Event>, successors: Edges, c: Surroundings, reported: set<nat>, run: seq<LoopState>, b: LoopState, k: nat, first: nat)
    requires Update(events, successors, c, reported) && run != [] && Ready(events, successors, c, reported, run[|run| - 1])
    requires AllCurrent(events, successors, c, run) && Turn(events, successors, c, run[|run| - 1], b, k, first)
    ensures AllCurrent(events, successors, c, run + [b])
  {
    hide Turn, Update, Ready, Current;
    forall n | 0 <= n < |events| && Covered(c, n) && n !in b.queue
      ensures Current(successors, c, run + [b], n)
    {
      CurrentAfterTurn(events, successors, c, reported, run, b, k, first, n);
    }
  }

  lemma StartReady(events: seq<Event>, successors: Edges, c: Surroundings, reported: set<nat>, a: LoopState)
    requires Update(events, successors, c, reported) && a.Valid(events) && a.processed == {}
    requires StartsFromReports(events, c, a, reported)
    ensures Ready(events, successors, c, reported, a) && AllCurrent(events, successors, c, [a])
  {
    hide Acyclic, Timetable, NoHaste, Computes;
    forall n | 0 <= n < |events| && Covered(c, n) && n !in a.queue
      ensures Current(successors, c, [a], n)
    {
      assert CurrentSince(successors, c, [a], n, 0);
    }
  }

  /** Without haste, every run of an update ends with current distributions, even if rides take no time. */
  lemma ReportsEndCurrent(events: seq<Event>, successors: Edges, c: Surroundings, reported: set<nat>, run: seq<LoopState>)
    requires Update(events, successors, c, reported) && IsRun(events, successors, c, run)
    requires StartsFromReports(events, c, run[0], reported) && run[|run| - 1].queue == []
    ensures EndsCurrent(events, successors, c, run)
  {
    hide Acyclic, Timetable, NoHaste, Computes, Ready, IsRun, Current;
    RunReady(events, successors, c, reported, run);
  }
}
