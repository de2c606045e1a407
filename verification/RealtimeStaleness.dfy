/** When an update leaves a distribution stale, and the exact condition under which that cannot happen. */
module RealtimeStaleness {
  import opened Options
  import opened Distributions
  import opened DependencyGraph
  import opened RealtimeUpdate
  import opened RealtimeConsistency
  import opened RealtimeReports

  // ----- Rides that take time

  /** No ride takes zero minutes: an arrival that depends on a departure is later than it. */
  ghost predicate RidesTakeTime(events: seq<Event>, successors: Edges) {
    forall d, a {:trigger a in successors[d]} ::
      (0 <= d < |events| && d < |successors| && a in successors[d] && a < |events| && events[d].position % 2 == 0) ==>
        events[d].time < events[a].time
  }

  ghost predicate CompleteRun(events: seq<Event>, successors: Edges, c: Surroundings, run: seq<LoopState>)
    requires |successors| == |events|
  {
    IsRun(events, successors, c, run) && run[|run| - 1].queue == []
  }

  /** In a timetable whose rides take time, every update ends with current distributions, whatever is queued and computed. */
  lemma RidesEndCurrent(events: seq<Event>, successors: Edges, c: Surroundings, run: seq<LoopState>)
    requires Acyclic(events, successors) && Timetable(events, successors) && RidesTakeTime(events, successors)
    requires CompleteRun(events, successors, c, run) && StartsCurrent(events, c, run[0])
    ensures EndsCurrent(events, successors, c, run)
  {
    assert Forward(events, successors);
    hide Current, Turn, Before, Timetable;
    RunSettled(events, successors, c, run);
  }

  // ----- Runs can be continued

  lemma {:induction false} TopExists(events: seq<Event>, queue: seq<nat>) returns (k: nat)
    requires queue != [] && AllEvents(events, queue)
    ensures IsTop(events, queue, k)
  {
    hide Before;
    var n := |queue| - 1;
    BeforeIsOrder(events, queue[n], queue[n], queue[n]);
    if n == 0 {
      k := 0;
    } else {
      k := TopExists(events, queue[..n]);
      BeforeIsOrder(events, queue[n], queue[k], queue[n]);
      forall i | 0 <= i < n
        ensures !Before(events, queue[i], queue[k])
        ensures Before(events, queue[n], queue[k]) ==> !Before(events, queue[i], queue[n])
      {
        assert queue[..n][i] == queue[i] && queue[..n][k] == queue[k];
        BeforeIsOrder(events, queue[i], queue[n], queue[k]);
      }
      if Before(events, queue[n], queue[k]) {
        k := n;
      }
    }
  }

  lemma TurnExists(events: seq<Event>, successors: Edges, c: Surroundings, a: LoopState) returns (b: LoopState)
    requires Acyclic(events, successors) && a.Valid(events) && a.queue != []
    ensures SomeTurn(events, successors, c, a, b) && b.Valid(events)
    ensures QueueWeight(events, successors, b.queue) < QueueWeight(events, successors, a.queue)
  {
    hide QueueWeight, IsTop;
    var k := TopExists(events, a.queue);
    TopInQueue(events, a.queue, k);
    var first: nat := 0;
    if a.processed != {} {
      first :| first in a.processed;
    }
    b := AfterTurn(events, successors, c, a, k, first);
    hide AfterTurn;
    assert Turn(events, successors, c, a, b, k, first);
    TurnReduces(events, successors, c, a, b, k, first);
  }

  lemma TopInQueue(events: seq<Event>, queue: seq<nat>, k: nat)
    requires AllEvents(events, queue) && IsTop(events, queue, k)
    ensures k < |queue|
  {
  }

  /** Every run can be continued until the queue is empty. */
  lemma {:induction false} RunEnds(events: seq<Event>, successors: Edges, c: Surroundings, run: seq<LoopState>) returns (longer: seq<LoopState>)
    requires Acyclic(events, successors) && IsRun(events, successors, c, run) && run[|run| - 1].Valid(events)
    ensures CompleteRun(events, successors, c, longer) && longer[0] == run[0]
    decreases QueueWeight(events, successors, run[|run| - 1].queue)
  {
    hide QueueWeight, SomeTurn;
    var last := run[|run| - 1];
    if last.queue == [] {
      longer := run;
    } else {
      var next := TurnExists(events, successors, c, last);
      ExtendRun(events, successors, c, run, next);
      longer := RunEnds(events, successors, c, run + [next]);
    }
  }

  // ----- The update that fails

  const LOW := OnePoint(0, 1.0)
  const HIGH := OnePoint(1, 1.0)

  lemma HighIsSignificant()
    ensures Significant(LOW, HIGH) && LOW != HIGH
  {
    assert Difference(LOW, HIGH, 0, 1) == Difference(LOW, HIGH, 0, 0) + Abs(LOW.Equal(0) - HIGH.Equal(0));
  }

  /** A hasty departure d behind the ride from d0 to a0, its feeder f, and another arrival z of the same minute. */
  ghost predicate Setting(events: seq<Event>, successors: Edges, d0: nat, a0: nat, d: nat, f: nat, z: nat) {
    && Acyclic(events, successors) && Timetable(events, successors) && Hasty(events, successors, d0, a0, d, f)
    && z < |events| && events[z].time == events[d].time && events[z].position % 2 == 1 && z != a0 && z != f
  }

  lemma SettingFacts(events: seq<Event>, successors: Edges, d0: nat, a0: nat, d: nat, f: nat, z: nat)
    requires Setting(events, successors, d0, a0, d, f, z)
    ensures |successors| == |events| && d0 < |events| && a0 < |events| && d < |events| && f < |events| && z < |events|
    ensures events[d0].time == events[a0].time == events[d].time == events[z].time && events[f].time < events[d].time
    ensures events[d0].position % 2 == events[d].position % 2 == 0
    ensures events[a0].position % 2 == events[f].position % 2 == events[z].position % 2 == 1
    ensures events[d0].train == events[d].train
    ensures d0 != d && a0 != f && a0 != z && f != z
    ensures a0 in successors[d0] && d in successors[a0] && d in successors[f]
  {
    assert Later(events, d0, a0) && Later(events, a0, d) && Later(events, f, d);
    assert events[f].time == events[d].time ==> AtOnce(events, successors, f, d);
  }

  /** Feeder and first departure report a minute of delay, z reports that it is on time. The arrival a0 has the delay of its
      departure d0, and the departure d, which does not have to wait for its feeder, that of the arrival a0. */
  function Delaying(d0: nat, a0: nat, d: nat, f: nat): Surroundings {
    Surroundings(
      (pds, n) =>
        if n == f || n == d0 then HIGH
        else if n == a0 && d0 < |pds| then pds[d0]
        else if n == d && a0 < |pds| then pds[a0] else LOW,
      _ => true, _ => true)
  }

  function Lows(n: nat): seq<Distribution> {
    seq(n, _ => LOW)
  }

  function Start(events: seq<Event>, d0: nat, f: nat, z: nat): LoopState {
    LoopState([f, z, d0], {}, Lows(|events|))
  }

  lemma DelayingComputes(events: seq<Event>, successors: Edges, d0: nat, a0: nat, d: nat, f: nat, z: nat)
    requires Setting(events, successors, d0, a0, d, f, z)
    ensures Computes(successors, Delaying(d0, a0, d, f), {f, z, d0})
  {
    SettingFacts(events, successors, d0, a0, d, f, z);
    hide Acyclic, Timetable, Hasty;
    var c := Delaying(d0, a0, d, f);
    forall p: seq<Distribution>, q: seq<Distribution>, n: nat
      | |p| == |q| == |successors| && SameBefore(successors, p, q, n)
      ensures c.compute(p, n) == c.compute(q, n)
    {
      assert successors[d0] == successors[d0] && successors[a0] == successors[a0];
    }
    assert LOW.Mass() == 1.0 && HIGH.Mass() == 1.0;
    forall p: seq<Distribution>, n: nat | |p| == |successors| && AllUnit(p)
      ensures c.compute(p, n).Mass() == 1.0
    {
    }
    forall n | n in {f, z, d0}
      ensures ReadsMasses(successors, c, n)
    {
      assert forall p :: c.compute(p, n) == if n == z then LOW else HIGH;
    }
  }

  lemma StartIsReported(events: seq<Event>, successors: Edges, d0: nat, a0: nat, d: nat, f: nat, z: nat)
    requires Setting(events, successors, d0, a0, d, f, z)
    ensures Start(events, d0, f, z).Valid(events)
    ensures StartsFromReports(events, Delaying(d0, a0, d, f), Start(events, d0, f, z), {f, z, d0})
  {
    SettingFacts(events, successors, d0, a0, d, f, z);
  }

  // ----- Turns

  lemma {:induction false} EverythingKnown(list: seq<nat>, known: nat -> bool)
    requires forall n :: known(n)
    ensures Known(list, known) == list
  {
    if list != [] {
      EverythingKnown(list[..|list| - 1], known);
    }
  }

  /** A turn in which the taken event keeps its distribution only takes it from the queue. */
  lemma QuietTurn(events: seq<Event>, successors: Edges, c: Surroundings, a: LoopState, b: LoopState, k: nat, first: nat)
    requires |successors| == |events| && Turn(events, successors, c, a, b, k, first)
    requires AlreadyUpdated(events, a.processed, first, a.queue[k]) || c.compute(a.pds, a.queue[k]) == a.pds[a.queue[k]]
    ensures b.pds == a.pds && b.queue == Without(a.queue, k)
    ensures b.processed ==
            if AlreadyUpdated(events, a.processed, first, a.queue[k]) then a.processed else Marked(events, a.processed, first, a.queue[k])
  {
    hide Before, Known, Significant;
    var e := a.queue[k];
    NoChange(a.pds[e]);
    assert a.pds[e := a.pds[e]] == a.pds;
  }

  /** A turn that changes a distribution significantly pushes all successors. */
  lemma LoudTurn(events: seq<Event>, successors: Edges, c: Surroundings, a: LoopState, b: LoopState, k: nat, first: nat, value: Distribution)
    requires |successors| == |events| && Turn(events, successors, c, a, b, k, first)
    requires !AlreadyUpdated(events, a.processed, first, a.queue[k]) && c.compute(a.pds, a.queue[k]) == value
    requires Significant(a.pds[a.queue[k]], value) && forall n :: c.valid(n) && c.known(n)
    ensures b.pds == a.pds[a.queue[k] := value] && b.queue == Without(a.queue, k) + successors[a.queue[k]]
    ensures b.processed == Marked(events, a.processed, first, a.queue[k])
  {
    hide Before, Known, Significant;
    EverythingKnown(successors[a.queue[k]], c.known);
  }

  lemma InWithout(queue: seq<nat>, k: nat)
    requires k < |queue|
    ensures forall q :: q in Without(queue, k) ==> q in queue
    ensures forall q :: q in queue && q != queue[k] ==> q in Without(queue, k)
    ensures |Without(queue, k)| < |queue|
  {
    forall q | q in queue && q != queue[k]
      ensures q in Without(queue, k)
    {
      var i :| 0 <= i < |queue| && queue[i] == q;
      assert Without(queue, k)[if i < k then i else i - 1] == q;
    }
  }

  /** All processed events are of one minute, and no earlier one is queued. */
  ghost predicate OneMinute(events: seq<Event>, s: LoopState)
    requires s.Valid(events)
  {
    && (forall p, q :: p in s.processed && q in s.processed ==> events[p].time == events[q].time)
    && forall p, q :: p in s.processed && q in s.queue ==> events[p].time <= events[q].time
  }

  /** The loop is in the minute t. */
  ghost predicate InMinute(events: seq<Event>, s: LoopState, t: int)
    requires s.Valid(events)
  {
    && (forall q :: q in s.queue ==> events[q].time >= t)
    && forall p :: p in s.processed ==> events[p].time == t
  }

  lemma TopTime(events: seq<Event>, queue: seq<nat>, k: nat)
    requires AllEvents(events, queue) && IsTop(events, queue, k)
    ensures queue[k] in queue
    ensures forall q :: q in queue ==> events[queue[k]].time <= events[q].time && !Before(events, q, queue[k])
  {
  }

  /** While events of the minute are queued, the taken one is of this minute, and it is skipped exactly if it was processed. */
  lemma MinuteTurn(events: seq<Event>, successors: Edges, c: Surroundings, a: LoopState, b: LoopState, k: nat, first: nat, t: int, x: nat)
    requires Acyclic(events, successors) && Turn(events, successors, c, a, b, k, first)
    requires InMinute(events, a, t) && x in a.queue && events[x].time == t
    ensures b.Valid(events) && InMinute(events, b, t) && a.queue[k] in a.queue && events[a.queue[k]].time == t
    ensures AlreadyUpdated(events, a.processed, first, a.queue[k]) <==> a.queue[k] in a.processed
    ensures a.queue[k] !in a.processed ==> Marked(events, a.processed, first, a.queue[k]) == a.processed + {a.queue[k]}
    ensures b.processed == a.processed + {a.queue[k]}
  {
    TurnReduces(events, successors, c, a, b, k, first);
    TopTime(events, a.queue, k);
    hide Before, Known, Significant, QueueWeight, Acyclic, IsTop;
    var e := a.queue[k];
    forall q | q in b.queue
      ensures events[q].time >= t
    {
      if q !in a.queue {
        NotEarlier(events, successors, e, q);
      }
    }
  }

  lemma NotEarlier(events: seq<Event>, successors: Edges, e: nat, q: nat)
    requires Acyclic(events, successors) && e < |events| && q in successors[e]
    ensures q < |events| && events[e].time <= events[q].time
  {
  }

  // ----- The phases of the minute

  /** After the feeder: everything else has its old distribution. */
  function FeederLate(events: seq<Event>, f: nat): seq<Distribution>
    requires f < |events|
  {
    Lows(|events|)[f := HIGH]
  }

  /** The departure waits with d0, and neither they nor a0 have been processed. */
  ghost predicate BothWait(s: LoopState, pds: seq<Distribution>, d0: nat, a0: nat, d: nat) {
    && s.pds == pds && d in s.queue && d0 in s.queue && a0 !in s.queue
    && d !in s.processed && d0 !in s.processed && a0 !in s.processed
  }

  ghost predicate Early(events: seq<Event>, s: LoopState, d0: nat, a0: nat, d: nat, f: nat, z: nat)
    requires f < |events|
  {
    s.Valid(events) && BothWait(s, FeederLate(events, f), d0, a0, d) && z in s.queue && OneMinute(events, s)
  }

  ghost predicate Waits(events: seq<Event>, s: LoopState, d0: nat, a0: nat, d: nat, f: nat)
    requires f < |events| && d < |events|
  {
    s.Valid(events) && BothWait(s, FeederLate(events, f), d0, a0, d) && InMinute(events, s, events[d].time)
  }

  /** The departure has been processed, and its predecessors have not. */
  ghost predicate Hurried(events: seq<Event>, s: LoopState, d0: nat, a0: nat, d: nat, f: nat)
    requires f < |events| && d < |events|
  {
    && s.Valid(events) && s.pds == FeederLate(events, f) && d0 in s.queue && a0 !in s.queue
    && d in s.processed && d0 !in s.processed && a0 !in s.processed && InMinute(events, s, events[d].time)
  }

  ghost predicate Departed(events: seq<Event>, s: LoopState, d0: nat, a0: nat, d: nat, f: nat)
    requires f < |events| && d < |events| && d0 < |events|
  {
    && s.Valid(events) && s.pds == FeederLate(events, f)[d0 := HIGH] && a0 in s.queue
    && d in s.processed && a0 !in s.processed && InMinute(events, s, events[d].time)
  }

  ghost predicate Arrived(events: seq<Event>, s: LoopState, d0: nat, a0: nat, d: nat, f: nat)
    requires f < |events| && d < |events| && d0 < |events| && a0 < |events|
  {
    && s.Valid(events) && s.pds == FeederLate(events, f)[d0 := HIGH][a0 := HIGH]
    && (d in s.queue ==> d in s.processed && InMinute(events, s, events[d].time))
  }

  ghost predicate Late(events: seq<Event>, s: LoopState, d0: nat, a0: nat, d: nat, f: nat)
    requires f < |events| && d < |events| && d0 < |events| && a0 < |events|
  {
    Hurried(events, s, d0, a0, d, f) || Departed(events, s, d0, a0, d, f) || Arrived(events, s, d0, a0, d, f)
  }

  // ----- The late phases, in every run

  lemma HurriedTurn(events: seq<Event>, successors: Edges, d0: nat, a0: nat, d: nat, f: nat, z: nat, a: LoopState, b: LoopState, k: nat, first: nat)
    requires Setting(events, successors, d0, a0, d, f, z) && f < |events| && d < |events| && d0 < |events|
    requires Hurried(events, a, d0, a0, d, f) && |successors| == |events|
    requires Turn(events, successors, Delaying(d0, a0, d, f), a, b, k, first)
    ensures Hurried(events, b, d0, a0, d, f) || Departed(events, b, d0, a0, d, f)
  {
    SettingFacts(events, successors, d0, a0, d, f, z);
    var c, t := Delaying(d0, a0, d, f), events[d].time;
    MinuteTurn(events, successors, c, a, b, k, first, t, d0);
    InWithout(a.queue, k);
    HighIsSignificant();
    hide Setting, Turn, InMinute, Significant, Marked, AlreadyUpdated, Without;
    var e := a.queue[k];
    if e == d0 {
      LoudTurn(events, successors, c, a, b, k, first, HIGH);
    } else {
      QuietTurn(events, successors, c, a, b, k, first);
    }
  }

  lemma DepartedTurn(events: seq<Event>, successors: Edges, d0: nat, a0: nat, d: nat, f: nat, z: nat, a: LoopState, b: LoopState, k: nat, first: nat)
    requires Setting(events, successors, d0, a0, d, f, z) && f < |events| && d < |events| && d0 < |events| && a0 < |events|
    requires Departed(events, a, d0, a0, d, f) && |successors| == |events|
    requires Turn(events, successors, Delaying(d0, a0, d, f), a, b, k, first)
    ensures Departed(events, b, d0, a0, d, f) || Arrived(events, b, d0, a0, d, f)
  {
    SettingFacts(events, successors, d0, a0, d, f, z);
    var c, t := Delaying(d0, a0, d, f), events[d].time;
    MinuteTurn(events, successors, c, a, b, k, first, t, a0);
    InWithout(a.queue, k);
    HighIsSignificant();
    hide Setting, Turn, InMinute, Significant, Marked, AlreadyUpdated, Without;
    var e := a.queue[k];
    if e == a0 {
      LoudTurn(events, successors, c, a, b, k, first, HIGH);
    } else {
      QuietTurn(events, successors, c, a, b, k, first);
    }
  }

  lemma ArrivedTurn(events: seq<Event>, successors: Edges, d0: nat, a0: nat, d: nat, f: nat, z: nat, a: LoopState, b: LoopState, k: nat, first: nat)
    requires Setting(events, successors, d0, a0, d, f, z) && f < |events| && d < |events| && d0 < |events| && a0 < |events|
    requires Arrived(events, a, d0, a0, d, f) && |successors| == |events|
    requires Turn(events, successors, Delaying(d0, a0, d, f), a, b, k, first)
    ensures Arrived(events, b, d0, a0, d, f)
  {
    SettingFacts(events, successors, d0, a0, d, f, z);
    var c, t := Delaying(d0, a0, d, f), events[d].time;
    TurnReduces(events, successors, c, a, b, k, first);
    if d in a.queue {
      MinuteTurn(events, successors, c, a, b, k, first, t, d);
    }
    InWithout(a.queue, k);
    hide Setting, Turn, InMinute, Significant, Marked, AlreadyUpdated, Without, QueueWeight;
    QuietTurn(events, successors, c, a, b, k, first);
  }

  lemma LateTurn(events: seq<Event>, successors: Edges, d0: nat, a0: nat, d: nat, f: nat, z: nat, a: LoopState, b: LoopState)
    requires Setting(events, successors, d0, a0, d, f, z)
    requires |successors| == |events| && f < |events| && d < |events| && d0 < |events| && a0 < |events|
    requires Late(events, a, d0, a0, d, f) && SomeTurn(events, successors, Delaying(d0, a0, d, f), a, b)
    ensures Late(events, b, d0, a0, d, f)
  {
    hide Setting, Turn, Hurried, Departed, Arrived, Delaying;
    var k: nat, first: nat :| Turn(events, successors, Delaying(d0, a0, d, f), a, b, k, first);
    if Hurried(events, a, d0, a0, d, f) {
      HurriedTurn(events, successors, d0, a0, d, f, z, a, b, k, first);
    } else if Departed(events, a, d0, a0, d, f) {
      DepartedTurn(events, successors, d0, a0, d, f, z, a, b, k, first);
    } else {
      ArrivedTurn(events, successors, d0, a0, d, f, z, a, b, k, first);
    }
  }

  // ----- The early phases, in some run

  lemma TurnAt(events: seq<Event>, successors: Edges, c: Surroundings, a: LoopState, k: nat) returns (b: LoopState, first: nat)
    requires Acyclic(events, successors) && a.Valid(events) && IsTop(events, a.queue, k)
    ensures Turn(events, successors, c, a, b, k, first) && SomeTurn(events, successors, c, a, b) && b.Valid(events)
  {
    hide IsTop, QueueWeight;
    TopInQueue(events, a.queue, k);
    first := 0;
    if a.processed != {} {
      first :| first in a.processed;
    }
    b := AfterTurn(events, successors, c, a, k, first);
    hide AfterTurn;
    assert Turn(events, successors, c, a, b, k, first);
    TurnReduces(events, successors, c, a, b, k, first);
  }

  /** A quiet turn of the first element keeps the processed events in one minute, which is then its own, or forgets them. */
  lemma QuietMinute(events: seq<Event>, successors: Edges, c: Surroundings, a: LoopState, b: LoopState, k: nat, first: nat)
    requires |successors| == |events| && Turn(events, successors, c, a, b, k, first) && b.Valid(events) && OneMinute(events, a)
    requires b.queue == Without(a.queue, k)
    requires b.processed ==
             if AlreadyUpdated(events, a.processed, first, a.queue[k]) then a.processed else Marked(events, a.processed, first, a.queue[k])
    ensures OneMinute(events, b)
    ensures forall p :: p in b.processed ==> events[p].time == events[a.queue[k]].time
    ensures forall p :: p in b.processed ==> p in a.processed || p == a.queue[k]
    ensures forall q :: q in b.queue ==> events[q].time >= events[a.queue[k]].time
  {
    hide Before, Known, Significant;
    TopTime(events, a.queue, k);
    InWithout(a.queue, k);
  }

  /** As long as z is queued, neither of the departures is taken. */
  lemma EarlyTurn(events: seq<Event>, successors: Edges, d0: nat, a0: nat, d: nat, f: nat, z: nat, a: LoopState) returns (b: LoopState)
    requires Setting(events, successors, d0, a0, d, f, z) && |successors| == |events| && f < |events| && d < |events|
    requires Early(events, a, d0, a0, d, f, z)
    ensures SomeTurn(events, successors, Delaying(d0, a0, d, f), a, b) && |b.queue| < |a.queue|
    ensures Early(events, b, d0, a0, d, f, z) || Waits(events, b, d0, a0, d, f)
  {
    SettingFacts(events, successors, d0, a0, d, f, z);
    var c := Delaying(d0, a0, d, f);
    var k := TopExists(events, a.queue);
    TopTime(events, a.queue, k);
    assert !Before(events, z, a.queue[k]);
    assert a.queue[k] != d && a.queue[k] != d0;
    hide Setting, Significant, Marked, AlreadyUpdated, Without, OneMinute, Turn, SomeTurn, IsTop, Before;
    var first: nat;
    b, first := TurnAt(events, successors, c, a, k);
    QuietTurn(events, successors, c, a, b, k, first);
    InWithout(a.queue, k);
    QuietMinute(events, successors, c, a, b, k, first);
  }

  /** The queue does not tell the two departures of the train apart. */
  lemma SameOrder(events: seq<Event>, queue: seq<nat>, d0: nat, d: nat, k: nat) returns (j: nat)
    requires AllEvents(events, queue) && IsTop(events, queue, k) && queue[k] == d0 && d in queue && d < |events| && d0 < |events|
    requires events[d0].time == events[d].time && events[d0].position % 2 == events[d].position % 2 && events[d0].train == events[d].train
    ensures IsTop(events, queue, j) && queue[j] == d
  {
    j :| 0 <= j < |queue| && queue[j] == d;
  }

  /** Then the second departure can be taken before the first one. */
  lemma WaitsTurn(events: seq<Event>, successors: Edges, d0: nat, a0: nat, d: nat, f: nat, z: nat, a: LoopState) returns (b: LoopState)
    requires Setting(events, successors, d0, a0, d, f, z) && |successors| == |events| && f < |events| && d < |events|
    requires Waits(events, a, d0, a0, d, f)
    ensures SomeTurn(events, successors, Delaying(d0, a0, d, f), a, b) && |b.queue| < |a.queue|
    ensures Waits(events, b, d0, a0, d, f) || Hurried(events, b, d0, a0, d, f)
  {
    SettingFacts(events, successors, d0, a0, d, f, z);
    var c := Delaying(d0, a0, d, f);
    var k := TopExists(events, a.queue);
    hide Setting, Significant, Marked, AlreadyUpdated, Without, InMinute, Turn, SomeTurn, IsTop, Before;
    TopTime(events, a.queue, k);
    if a.queue[k] == d0 {
      k := SameOrder(events, a.queue, d0, d, k);
    }
    TopTime(events, a.queue, k);
    var first: nat;
    b, first := TurnAt(events, successors, c, a, k);
    MinuteTurn(events, successors, c, a, b, k, first, events[d].time, d);
    QuietTurn(events, successors, c, a, b, k, first);
    InWithout(a.queue, k);
  }

  /** The update begins with the feeder. */
  lemma StartTurn(events: seq<Event>, successors: Edges, d0: nat, a0: nat, d: nat, f: nat, z: nat) returns (b: LoopState)
    requires Setting(events, successors, d0, a0, d, f, z) && |successors| == |events| && f < |events|
    requires Start(events, d0, f, z).Valid(events)
    ensures SomeTurn(events, successors, Delaying(d0, a0, d, f), Start(events, d0, f, z), b)
    ensures Early(events, b, d0, a0, d, f, z)
  {
    hide Setting, Turn, SomeTurn, IsTop, Early, Delaying, Acyclic, Start;
    SettingAcyclic(events, successors, d0, a0, d, f, z);
    FeederIsTop(events, successors, d0, a0, d, f, z);
    var first: nat;
    b, first := TurnAt(events, successors, Delaying(d0, a0, d, f), Start(events, d0, f, z), 0);
    FeederTurn(events, successors, d0, a0, d, f, z, b, first);
  }

  lemma FeederIsTop(events: seq<Event>, successors: Edges, d0: nat, a0: nat, d: nat, f: nat, z: nat)
    requires Setting(events, successors, d0, a0, d, f, z) && Start(events, d0, f, z).Valid(events)
    ensures IsTop(events, Start(events, d0, f, z).queue, 0)
  {
    SettingFacts(events, successors, d0, a0, d, f, z);
    hide Setting;
  }

  lemma FeederTurn(events: seq<Event>, successors: Edges, d0: nat, a0: nat, d: nat, f: nat, z: nat, b: LoopState, first: nat)
    requires Setting(events, successors, d0, a0, d, f, z) && |successors| == |events| && f < |events| && b.Valid(events)
    requires Turn(events, successors, Delaying(d0, a0, d, f), Start(events, d0, f, z), b, 0, first)
    ensures Early(events, b, d0, a0, d, f, z)
  {
    hide Setting, Significant, Turn, Early;
    SettingFacts(events, successors, d0, a0, d, f, z);
    HighIsSignificant();
    LoudTurn(events, successors, Delaying(d0, a0, d, f), Start(events, d0, f, z), b, 0, first, HIGH);
    assert Without([f, z, d0], 0) == [z, d0];
    AfterFeeder(events, successors, d0, a0, d, f, z, b);
  }

  lemma AfterFeeder(events: seq<Event>, successors: Edges, d0: nat, a0: nat, d: nat, f: nat, z: nat, b: LoopState)
    requires Setting(events, successors, d0, a0, d, f, z) && |successors| == |events| && f < |events| && b.Valid(events)
    requires b == LoopState([z, d0] + successors[f], {f}, FeederLate(events, f))
    ensures Early(events, b, d0, a0, d, f, z)
  {
    SettingFacts(events, successors, d0, a0, d, f, z);
    PushedLater(events, successors, d0, a0, d, f, z);
    hide Setting, FeederLate;
  }

  /** What the feeder pushes are departures after it. */
  lemma PushedLater(events: seq<Event>, successors: Edges, d0: nat, a0: nat, d: nat, f: nat, z: nat)
    requires Setting(events, successors, d0, a0, d, f, z) && f < |successors|
    ensures forall q :: q in successors[f] ==> q < |events| && events[q].time >= events[f].time && q != a0
  {
    SettingFacts(events, successors, d0, a0, d, f, z);
    forall q | q in successors[f]
      ensures q < |events| && events[q].time >= events[f].time && q != a0
    {
      assert Later(events, f, q);
    }
  }

  lemma {:induction false} RunHurries(events: seq<Event>, successors: Edges, d0: nat, a0: nat, d: nat, f: nat, z: nat, run: seq<LoopState>)
      returns (longer: seq<LoopState>)
    requires Setting(events, successors, d0, a0, d, f, z) && |successors| == |events| && f < |events| && d < |events|
    requires IsRun(events, successors, Delaying(d0, a0, d, f), run)
    requires Early(events, run[|run| - 1], d0, a0, d, f, z) || Waits(events, run[|run| - 1], d0, a0, d, f)
    ensures IsRun(events, successors, Delaying(d0, a0, d, f), longer) && longer[0] == run[0]
    ensures Hurried(events, longer[|longer| - 1], d0, a0, d, f)
    decreases |run[|run| - 1].queue|
  {
    hide Setting, SomeTurn, Early, Waits, Hurried, Delaying;
    var c, last := Delaying(d0, a0, d, f), run[|run| - 1];
    var next: LoopState;
    if Early(events, last, d0, a0, d, f, z) {
      next := EarlyTurn(events, successors, d0, a0, d, f, z, last);
    } else {
      next := WaitsTurn(events, successors, d0, a0, d, f, z, last);
    }
    ExtendRun(events, successors, c, run, next);
    if Hurried(events, next, d0, a0, d, f) {
      longer := run + [next];
    } else {
      longer := RunHurries(events, successors, d0, a0, d, f, z, run + [next]);
    }
  }

  lemma {:induction false} RunIsLate(events: seq<Event>, successors: Edges, d0: nat, a0: nat, d: nat, f: nat, z: nat, run: seq<LoopState>)
      returns (longer: seq<LoopState>)
    requires Setting(events, successors, d0, a0, d, f, z) && Acyclic(events, successors)
    requires |successors| == |events| && f < |events| && d < |events| && d0 < |events| && a0 < |events|
    requires IsRun(events, successors, Delaying(d0, a0, d, f), run) && run[|run| - 1].Valid(events)
    requires Late(events, run[|run| - 1], d0, a0, d, f)
    ensures CompleteRun(events, successors, Delaying(d0, a0, d, f), longer) && longer[0] == run[0]
    ensures Arrived(events, longer[|longer| - 1], d0, a0, d, f)
    decreases QueueWeight(events, successors, run[|run| - 1].queue)
  {
    hide QueueWeight, SomeTurn, Delaying, Setting, Late;
    var c, last := Delaying(d0, a0, d, f), run[|run| - 1];
    if last.queue == [] {
      longer := run;
      LateEnds(events, last, d0, a0, d, f);
    } else {
      var next := TurnExists(events, successors, c, last);
      LateTurn(events, successors, d0, a0, d, f, z, last, next);
      ExtendRun(events, successors, c, run, next);
      longer := RunIsLate(events, successors, d0, a0, d, f, z, run + [next]);
    }
  }

  lemma LateEnds(events: seq<Event>, s: LoopState, d0: nat, a0: nat, d: nat, f: nat)
    requires f < |events| && d < |events| && d0 < |events| && a0 < |events|
    requires Late(events, s, d0, a0, d, f) && s.queue == []
    ensures Arrived(events, s, d0, a0, d, f)
  {
  }

  // ----- The departure ends stale

  ghost predicate TwoValued(s: LoopState) {
    forall n :: 0 <= n < |s.pds| ==> s.pds[n] == LOW || s.pds[n] == HIGH
  }

  lemma TwoValuedTurn(events: seq<Event>, successors: Edges, d0: nat, a0: nat, d: nat, f: nat, a: LoopState, b: LoopState)
    requires |successors| == |events| && Acyclic(events, successors) && TwoValued(a) && SomeTurn(events, successors, Delaying(d0, a0, d, f), a, b)
    ensures TwoValued(b) && |a.pds| == |b.pds| == |events|
  {
    hide Acyclic, Turn;
    var c := Delaying(d0, a0, d, f);
    var k: nat, first: nat :| Turn(events, successors, c, a, b, k, first);
    TurnEffect(events, successors, c, a, b, k, first);
  }

  lemma {:induction false} RunTwoValued(events: seq<Event>, successors: Edges, d0: nat, a0: nat, d: nat, f: nat, run: seq<LoopState>)
    requires Acyclic(events, successors) && IsRun(events, successors, Delaying(d0, a0, d, f), run) && TwoValued(run[0])
    ensures forall i :: 0 <= i < |run| ==> TwoValued(run[i]) && |run[i].pds| == |events|
  {
    hide SomeTurn, TwoValued, Delaying;
    if |run| > 1 {
      SizeKept(events, successors, Delaying(d0, a0, d, f), run);
      ShorterRun(events, successors, Delaying(d0, a0, d, f), run);
      var n := |run| - 1;
      RunTwoValued(events, successors, d0, a0, d, f, run[..n]);
      assert run[..n][n - 1] == run[n - 1];
      TwoValuedTurn(events, successors, d0, a0, d, f, run[n - 1], run[n]);
    }
  }

  lemma SizeKept(events: seq<Event>, successors: Edges, c: Surroundings, run: seq<LoopState>)
    requires Acyclic(events, successors) && IsRun(events, successors, c, run)
    ensures |successors| == |events|
  {
  }

  /** Between a state in which n has its old distribution and the end, there is a state after which it changes. */
  lemma {:induction false} Crossing(run: seq<LoopState>, n: nat, i: nat) returns (j: nat)
    requires i < |run| && forall k :: 0 <= k < |run| ==> n < |run[k].pds| && TwoValued(run[k])
    requires run[i].pds[n] == LOW && run[|run| - 1].pds[n] == HIGH
    ensures i <= j < |run| - 1 && run[j].pds[n] == LOW && run[j + 1].pds[n] == HIGH
    decreases |run| - i
  {
    HighIsSignificant();
    if run[i + 1].pds[n] == HIGH {
      j := i;
    } else {
      j := Crossing(run, n, i + 1);
    }
  }

  /** An event that has taken over an old distribution of its predecessor, and kept it, is not current. */
  lemma KeptIsStale(successors: Edges, d0: nat, a0: nat, d: nat, f: nat, run: seq<LoopState>)
    requires run != [] && a0 < |successors| && d in successors[a0] && d != f && d != d0 && d != a0
    requires forall k :: 0 <= k < |run| ==> |run[k].pds| == |successors| && TwoValued(run[k])
    requires d < |successors| && run[|run| - 1].pds[d] == LOW && run[|run| - 1].pds[a0] == HIGH
    ensures !Current(successors, Delaying(d0, a0, d, f), run, d)
  {
    var c := Delaying(d0, a0, d, f);
    HighIsSignificant();
    hide Significant, TwoValued, Stable;
    forall i: nat
      ensures !CurrentSince(successors, c, run, d, i)
    {
      if i < |run| && run[i].pds[a0] == LOW {
        var j := Crossing(run, a0, i);
        ChangeIsNoticed(successors, run, j, a0, d);
      }
    }
  }

  lemma ChangeIsNoticed(successors: Edges, run: seq<LoopState>, j: nat, m: nat, n: nat)
    requires j + 1 < |run| && m < |successors| && n in successors[m] && m < |run[j].pds| && m < |run[j + 1].pds|
    requires Significant(run[j].pds[m], run[j + 1].pds[m])
    ensures !Stable(successors, run[j], run[j + 1], n)
  {
    hide Significant;
    assert successors[m] == successors[m];
  }

  /** In every such setting there is an update, started by three reports, that skips the departure as already updated after
      its train's arrival has changed. */
  lemma HasteGoesStale(events: seq<Event>, successors: Edges, d0: nat, a0: nat, d: nat, f: nat, z: nat) returns (run: seq<LoopState>)
    requires Setting(events, successors, d0, a0, d, f, z)
    ensures |successors| == |events| && Computes(successors, Delaying(d0, a0, d, f), {f, z, d0})
    ensures CompleteRun(events, successors, Delaying(d0, a0, d, f), run) && |run[0].pds| == |events|
    ensures StartsFromReports(events, Delaying(d0, a0, d, f), run[0], {f, z, d0})
    ensures d < |events| && !Current(successors, Delaying(d0, a0, d, f), run, d)
  {
    SettingFacts(events, successors, d0, a0, d, f, z);
    DelayingComputes(events, successors, d0, a0, d, f, z);
    StartIsReported(events, successors, d0, a0, d, f, z);
    SettingAcyclic(events, successors, d0, a0, d, f, z);
    hide Setting, SomeTurn, Early, Waits, Acyclic, Computes, StartsFromReports, Current;
    var c, start := Delaying(d0, a0, d, f), Start(events, d0, f, z);
    var next := StartTurn(events, successors, d0, a0, d, f, z);
    ExtendRun(events, successors, c, [start], next);
    run := RunHurries(events, successors, d0, a0, d, f, z, [start] + [next]);
    run := RunIsLate(events, successors, d0, a0, d, f, z, run);
    RunTwoValued(events, successors, d0, a0, d, f, run);
    KeptIsStale(successors, d0, a0, d, f, run);
  }

  lemma SettingAcyclic(events: seq<Event>, successors: Edges, d0: nat, a0: nat, d: nat, f: nat, z: nat)
    requires Setting(events, successors, d0, a0, d, f, z)
    ensures Acyclic(events, successors)
  {
  }

  // ----- The exact condition

  /** Whatever is reported and computed, every update ends with current distributions. */
  ghost predicate AlwaysCurrent(events: seq<Event>, successors: Edges)
    requires |successors| == |events|
  {
    forall c: Surroundings, reported: set<nat>, run: seq<LoopState> ::
      Computes(successors, c, reported) && CompleteRun(events, successors, c, run) && |run[0].pds| == |events| &&
      StartsFromReports(events, c, run[0], reported) ==>
        EndsCurrent(events, successors, c, run)
  }

  /** The timetable with one more train, which makes one ride of a minute that nothing else depends on. */
  function WithTrain(events: seq<Event>, train: int, arrival: int): seq<Event> {
    events + [Event(train, 0, arrival - 1), Event(train, 1, arrival)]
  }

  function WithRide(successors: Edges): Edges {
    successors + [[|successors| + 1], []]
  }

  lemma RideEdges(successors: Edges, n: nat, s: nat)
    requires n < |WithRide(successors)|
    ensures s in WithRide(successors)[n] <==> (n < |successors| && s in successors[n]) || (n == |successors| && s == |successors| + 1)
  {
  }

  lemma WithTrainAtOnce(events: seq<Event>, successors: Edges, train: int, arrival: int, m: nat, n: nat)
    requires Acyclic(events, successors)
    ensures AtOnce(WithTrain(events, train, arrival), WithRide(successors), m, n) <==> AtOnce(events, successors, m, n)
  {
    if m < |events| + 2 {
      RideEdges(successors, m, n);
    }
  }

  lemma WithTrainIsTimetable(events: seq<Event>, successors: Edges, train: int, arrival: int)
    requires Acyclic(events, successors) && Timetable(events, successors)
    ensures var e, s := WithTrain(events, train, arrival), WithRide(successors);
            |s| == |e| && Acyclic(e, s) && Timetable(e, s)
  {
    var e, s := WithTrain(events, train, arrival), WithRide(successors);
    forall n: nat, q: nat | n < |s|
      ensures q in s[n] <==> (n < |events| && q in successors[n]) || (n == |events| && q == |events| + 1)
    {
      RideEdges(successors, n, q);
    }
    forall m: nat, n: nat
      ensures AtOnce(e, s, m, n) <==> AtOnce(events, successors, m, n)
    {
      WithTrainAtOnce(events, successors, train, arrival, m, n);
    }
    hide AtOnce;
    OldEventsStay(events, successors, train, arrival);
  }

  lemma OldEventsStay(events: seq<Event>, successors: Edges, train: int, arrival: int)
    ensures forall n :: 0 <= n < |events| ==> WithTrain(events, train, arrival)[n] == events[n]
    ensures forall m: nat, n: nat :: AtOnce(events, successors, m, n) ==> m < |events| && n < |events|
  {
  }

  lemma WithTrainHaste(events: seq<Event>, successors: Edges, train: int, arrival: int)
    requires Acyclic(events, successors)
    ensures NoHaste(WithTrain(events, train, arrival), WithRide(successors)) <==> NoHaste(events, successors)
  {
    var e, s := WithTrain(events, train, arrival), WithRide(successors);
    forall d0: nat, a0: nat, d: nat, f: nat
      ensures Hasty(e, s, d0, a0, d, f) <==> Hasty(events, successors, d0, a0, d, f)
    {
      WithTrainAtOnce(events, successors, train, arrival, d0, a0);
      WithTrainAtOnce(events, successors, train, arrival, a0, d);
      OldEventsStay(events, successors, train, arrival);
      if f < |s| {
        RideEdges(successors, f, d);
      }
    }
  }

  /** Without haste, every timetable is always current. */
  lemma NoHasteIsCurrent(events: seq<Event>, successors: Edges)
    requires Acyclic(events, successors) && Timetable(events, successors) && NoHaste(events, successors)
    ensures |successors| == |events| && AlwaysCurrent(events, successors)
  {
    hide Acyclic, NoHaste, Computes, EndsCurrent, SomeTurn, StartsFromReports;
    forall c: Surroundings, reported: set<nat>, run: seq<LoopState>
      | Computes(successors, c, reported) && CompleteRun(events, successors, c, run) && |run[0].pds| == |events| &&
        StartsFromReports(events, c, run[0], reported)
      ensures EndsCurrent(events, successors, c, run)
    {
      ReportsEndCurrent(events, successors, c, reported, run);
    }
  }

  lemma HasteIsNotCurrent(events: seq<Event>, successors: Edges, d0: nat, a0: nat, d: nat, f: nat, z: nat)
    requires Setting(events, successors, d0, a0, d, f, z)
    ensures |successors| == |events| && !AlwaysCurrent(events, successors)
  {
    hide Setting, Computes, IsRun, StartsFromReports, Current;
    var run := HasteGoesStale(events, successors, d0, a0, d, f, z);
    assert Covered(Delaying(d0, a0, d, f), d) && !EndsCurrent(events, successors, Delaying(d0, a0, d, f), run);
  }

  /** For any timetable: updates leave all distributions current, whatever other train is added, if and only if no departure
      with a feeder leaves in the same minute in which its train has departed from the stop before. */
  lemma AlwaysCurrentIff(events: seq<Event>, successors: Edges)
    requires Acyclic(events, successors) && Timetable(events, successors)
    ensures |successors| == |events|
    ensures NoHaste(events, successors) <==>
            forall train: int, arrival: int :: AlwaysCurrent(WithTrain(events, train, arrival), WithRide(successors))
  {
    if NoHaste(events, successors) {
      hide Acyclic, Timetable, AlwaysCurrent, NoHaste, WithTrain, WithRide;
      forall train: int, arrival: int
        ensures |WithRide(successors)| == |WithTrain(events, train, arrival)|
        ensures AlwaysCurrent(WithTrain(events, train, arrival), WithRide(successors))
      {
        WithTrainIsTimetable(events, successors, train, arrival);
        WithTrainHaste(events, successors, train, arrival);
        NoHasteIsCurrent(WithTrain(events, train, arrival), WithRide(successors));
      }
    } else {
      var d0: nat, a0: nat, d: nat, f: nat :| Hasty(events, successors, d0, a0, d, f);
      hide AlwaysCurrent, Acyclic, Timetable;
      NotWithEveryTrain(events, successors, d0, a0, d, f);
    }
  }

  /** An unrelated train that arrives on time in the minute of a hasty departure makes the update go stale. */
  lemma NotWithEveryTrain(events: seq<Event>, successors: Edges, d0: nat, a0: nat, d: nat, f: nat)
    requires Acyclic(events, successors) && Timetable(events, successors) && Hasty(events, successors, d0, a0, d, f)
    ensures |successors| == |events| && d < |events|
    ensures !AlwaysCurrent(WithTrain(events, 0, events[d].time), WithRide(successors))
  {
    var e, s := WithTrain(events, 0, events[d].time), WithRide(successors);
    WithTrainIsTimetable(events, successors, 0, events[d].time);
    WithTrainAtOnce(events, successors, 0, events[d].time, d0, a0);
    WithTrainAtOnce(events, successors, 0, events[d].time, a0, d);
    hide AlwaysCurrent, Acyclic, Timetable;
    RideEdges(successors, f, d);
    assert Hasty(e, s, d0, a0, d, f);
    HasteIsNotCurrent(e, s, d0, a0, d, f, |events| + 1);
  }

  // ----- A timetable

  /** Train 1 goes from one platform to the next in no time and on at once; train 2 feeds its second departure. */
  const HASTY_EVENTS := [
    Event(1, 0, 100), Event(1, 1, 100), Event(1, 2, 100), Event(1, 3, 110),
    Event(2, 0, 80), Event(2, 1, 90)]

  const HASTY_EDGES: Edges := [[1], [2], [3], [], [5], [2]]

  /** The connections it is built from: three rides, and the arrival of train 2 as a candidate feeder of the second one. */
  const HASTY_CONNECTIONS := [
    Connection(Element(4, 5, None), [], 2), Connection(Element(0, 1, None), [], 2),
    Connection(Element(2, 3, Some(1)), [Candidate(5, true)], 2)]

  lemma HastyConnections()
    ensures forall c :: c in HASTY_CONNECTIONS ==> c.Valid(HASTY_EVENTS)
    ensures IsFeeder(HASTY_EVENTS, 2, 2, Candidate(5, true))
  {
  }

  lemma HastyEdges(n: nat, s: nat)
    ensures n < 6 && s in HASTY_EDGES[n] <==>
            (n == 0 && s == 1) || (n == 1 && s == 2) || (n == 2 && s == 3) || (n == 4 && s == 5) || (n == 5 && s == 2)
  {
  }

  lemma HastyAtOnce(m: nat, n: nat)
    ensures AtOnce(HASTY_EVENTS, HASTY_EDGES, m, n) <==> (m == 0 && n == 1) || (m == 1 && n == 2)
  {
    HastyEdges(m, n);
  }

  lemma HastyIsTimetable()
    ensures Acyclic(HASTY_EVENTS, HASTY_EDGES) && Timetable(HASTY_EVENTS, HASTY_EDGES)
    ensures Hasty(HASTY_EVENTS, HASTY_EDGES, 0, 1, 2, 5)
  {
    forall n: nat, s: nat
      ensures n < 6 && s in HASTY_EDGES[n] <==>
              (n == 0 && s == 1) || (n == 1 && s == 2) || (n == 2 && s == 3) || (n == 4 && s == 5) || (n == 5 && s == 2)
    {
      HastyEdges(n, s);
    }
    forall m: nat, n: nat
      ensures AtOnce(HASTY_EVENTS, HASTY_EDGES, m, n) <==> (m == 0 && n == 1) || (m == 1 && n == 2)
    {
      HastyAtOnce(m, n);
    }
    hide AtOnce;
  }

  /** It is a timetable of the program, and with one more train an update of it goes stale. */
  lemma HastyTimetable()
    ensures Acyclic(HASTY_EVENTS, HASTY_EDGES) && Timetable(HASTY_EVENTS, HASTY_EDGES)
    ensures !AlwaysCurrent(WithTrain(HASTY_EVENTS, 0, 100), WithRide(HASTY_EDGES))
  {
    hide *;
    HastySizes();
    HastyIsTimetable();
    NotWithEveryTrain(HASTY_EVENTS, HASTY_EDGES, 0, 1, 2, 5);
  }

  lemma HastySizes()
    ensures |HASTY_EVENTS| == |HASTY_EDGES| == 6 && HASTY_EVENTS[2].time == 100
  {
  }
}
