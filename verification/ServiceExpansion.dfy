/** Expanding a service from local times to universal times, one traffic day after the other. */
module ServiceExpansion {
  import opened Options
  import opened Time

  const SCHEDULE_OFFSET_DAYS: nat := 5

  /** Offsets in minutes; the season begins and ends at a universal time, INVALID_TIME if there is none. */
  datatype Zone = Zone(general: int, seasonOffset: int, begin: int, end: int)

  /** Local arrival and departure times of all stops, the first arrival and the last departure being unused. */
  datatype Service = Service(times: seq<nat>, zones: seq<Zone>)

  /** Zone offsets are shorter than a day. */
  predicate ValidZone(z: Zone) {
    z.general < MINUTES_A_DAY && -z.general < MINUTES_A_DAY && (z.begin == INVALID_TIME || (z.seasonOffset < MINUTES_A_DAY && -z.seasonOffset < MINUTES_A_DAY))
  }

  predicate ValidService(s: Service) {
    |s.zones| >= 2 && |s.times| == 2 * |s.zones| && forall z :: z in s.zones ==> ValidZone(z)
  }

  predicate InSeason(z: Zone, local: int) {
    z.begin != INVALID_TIME && z.begin + z.general <= local <= z.end + z.seasonOffset
  }

  function Offset(z: Zone, local: int): int {
    if InSeason(z, local) then z.seasonOffset else z.general
  }

  /** The number of events that are expanded. */
  function Events(s: Service): nat
    requires ValidService(s)
  {
    |s.times| - 2
  }

  /** The local time of event i, in minutes since the schedule begin. */
  function Local(s: Service, day: nat, i: nat): int
    requires ValidService(s) && 1 <= i <= Events(s)
  {
    (day + SCHEDULE_OFFSET_DAYS) * MINUTES_A_DAY + s.times[i]
  }

  /** Its universal time, before any correction. */
  function Utc(s: Service, day: nat, i: nat): int
    requires ValidService(s) && 1 <= i <= Events(s)
  {
    Local(s, day, i) - Offset(s.zones[i / 2], Local(s, day, i))
  }

  /** Event i can stand after its predecessor, with corrections `before` for the predecessor and `fix` for itself: not
      earlier, and not in the season's zone before the season begins. */
  predicate Clean(s: Service, day: nat, i: nat, before: int, fix: int)
    requires ValidService(s) && 1 <= i <= Events(s)
  {
    && (i == 1 || Utc(s, day, i - 1) + before <= Utc(s, day, i) + fix)
    && !(InSeason(s.zones[i / 2], Local(s, day, i)) && Utc(s, day, i) + fix < s.zones[i / 2].begin)
  }

  /** One hour from event k on. */
  function FixAt(k: nat, i: nat): int {
    if i >= k then 60 else 0
  }

  /** Correcting from event k on, and not before, makes all events clean. */
  ghost predicate Plan(s: Service, day: nat, k: nat)
    requires ValidService(s)
  {
    && 1 <= k <= Events(s) + 1
    && (forall i: nat :: 1 <= i <= Events(s) ==> Clean(s, day, i, FixAt(k, i - 1), FixAt(k, i)))
    && (k <= Events(s) ==> !Clean(s, day, k, 0, 0))
  }

  lemma PlanIsUnique(s: Service, day: nat, k: nat, l: nat)
    requires ValidService(s) && Plan(s, day, k) && Plan(s, day, l)
    ensures k == l
  {
    hide Clean;
    if k < l {
      PlanBefore(s, day, l, k);
    } else if l < k {
      PlanBefore(s, day, k, l);
    }
  }

  lemma PlanBefore(s: Service, day: nat, k: nat, i: nat)
    requires ValidService(s) && Plan(s, day, k) && 1 <= i < k
    ensures Clean(s, day, i, 0, 0)
  {
    hide Clean;
    assert Clean(s, day, i, FixAt(k, i - 1), FixAt(k, i));
  }

  /** The day that the times of a run are relative to: the day of its first departure, one less if the conversion goes
      below midnight. */
  function InitialDay(s: Service, day: nat, k: nat): nat
    requires ValidService(s)
  {
    var whole := day + s.times[1] / MINUTES_A_DAY + SCHEDULE_OFFSET_DAYS;
    if s.times[1] % MINUTES_A_DAY - Offset(s.zones[0], Local(s, day, 1)) + FixAt(k, 1) < 0 then whole - 1 else whole
  }

  /** The universal time of event i in the end. */
  function EventTime(s: Service, day: nat, k: nat, i: nat): int
    requires ValidService(s) && 1 <= i <= Events(s)
  {
    Utc(s, day, i) + FixAt(k, i)
  }

  /** All event times of a day, relative to its initial day. */
  function RelativeTimes(s: Service, day: nat, k: nat): (v: seq<int>)
    requires ValidService(s)
    ensures |v| == Events(s)
    ensures forall i :: 1 <= i <= Events(s) ==> v[i - 1] == EventTime(s, day, k, i) - InitialDay(s, day, k) * MINUTES_A_DAY
  {
    seq(Events(s), e requires 0 <= e < Events(s) => EventTime(s, day, k, e + 1) - InitialDay(s, day, k) * MINUTES_A_DAY)
  }

  datatype DayTimes = DayTimes(times: seq<int>, initialDay: nat)

  /** One traffic day. A fault is repaired by an hour of correction for this and all later events, once; the loop then
      looks at the same event again. A second fault makes the whole expansion fail. */
  method ExpandDay(s: Service, day: nat) returns (r: Option<DayTimes>)
    requires ValidService(s)
    ensures r.Some? ==> exists k :: Plan(s, day, k) && r.value == DayTimes(RelativeTimes(s, day, k), InitialDay(s, day, k))
    ensures r.None? ==> forall k :: !Plan(s, day, k)
  {
    hide Clean, CleanUpTo;
    NothingChecked(s, day);
    var utc: seq<int> := [];
    var fix := 0;
    var initialDay: nat := 0;
    ghost var k := Events(s) + 1;
    var i := 1;
    while i < |s.times| - 1
      invariant 1 <= i <= Events(s) + 1 && |utc| == i - 1 && 1 <= k <= Events(s) + 1
      invariant (fix == 0 && k == Events(s) + 1) || (fix == 60 && k <= i && k <= Events(s) && !Clean(s, day, k, 0, 0))
      invariant CleanUpTo(s, day, k, i)
      invariant i > 1 ==> initialDay == InitialDay(s, day, k)
      invariant forall j :: 1 <= j < i ==> utc[j - 1] == EventTime(s, day, k, j) - initialDay * MINUTES_A_DAY
      decreases |s.times| - i, 60 - fix
    {
      var zone := s.zones[i / 2];
      var local := s.times[i] % MINUTES_A_DAY;
      var adjDay := day + s.times[i] / MINUTES_A_DAY + SCHEDULE_OFFSET_DAYS;
      var season := InSeason(zone, adjDay * MINUTES_A_DAY + local);
      var preUtc := local - (if season then zone.seasonOffset else zone.general) + fix;
      if preUtc < 0 {
        preUtc := preUtc + MINUTES_A_DAY;
        adjDay := adjDay - 1;
      }
      if i == 1 {
        initialDay := adjDay;
      }
      var absUtc := adjDay * MINUTES_A_DAY + preUtc;
      var relUtc := absUtc - initialDay * MINUTES_A_DAY;
      assert season == InSeason(zone, Local(s, day, i)) && absUtc == Utc(s, day, i) + fix;
      var sortOk := i == 1 || utc[|utc| - 1] <= relUtc;
      var impossibleTime := season && absUtc < zone.begin;
      assert i > 1 ==> utc[i - 2] == EventTime(s, day, k, i - 1) - initialDay * MINUTES_A_DAY;
      assert FixAt(k, i) == fix;
      CleanMeans(s, day, i, FixAt(k, i - 1), fix);
      assert Clean(s, day, i, FixAt(k, i - 1), fix) <==> sortOk && !impossibleTime;
      if !sortOk || impossibleTime {
        if fix >= 60 {
          NoPlan(s, day, k, i);
          return None;
        }
        CleanBefore(s, day, k, i);
        fix := fix + 60;
        k := i;
        continue;
      }
      CleanNext(s, day, k, i);
      utc := utc + [relUtc];
      i := i + 1;
    }
    PlanFound(s, day, k);
    assert utc == RelativeTimes(s, day, k);
    return Some(DayTimes(utc, initialDay));
  }

  /** All events before i are clean, with the correction from k on. */
  ghost predicate CleanUpTo(s: Service, day: nat, k: nat, i: nat)
    requires ValidService(s) && 1 <= i <= Events(s) + 1
  {
    forall j: nat :: 1 <= j < i ==> Clean(s, day, j, FixAt(k, j - 1), FixAt(k, j))
  }

  lemma NothingChecked(s: Service, day: nat)
    requires ValidService(s)
    ensures CleanUpTo(s, day, Events(s) + 1, 1)
  {
  }

  lemma CleanMeans(s: Service, day: nat, i: nat, before: int, fix: int)
    requires ValidService(s) && 1 <= i <= Events(s)
    ensures Clean(s, day, i, before, fix) <==>
            && (i == 1 || Utc(s, day, i - 1) + before <= Utc(s, day, i) + fix)
            && !(InSeason(s.zones[i / 2], Local(s, day, i)) && Utc(s, day, i) + fix < s.zones[i / 2].begin)
  {
  }

  lemma CleanNext(s: Service, day: nat, k: nat, i: nat)
    requires ValidService(s) && 1 <= i <= Events(s) && CleanUpTo(s, day, k, i) && Clean(s, day, i, FixAt(k, i - 1), FixAt(k, i))
    ensures CleanUpTo(s, day, k, i + 1)
  {
    hide Clean;
  }

  lemma PlanFound(s: Service, day: nat, k: nat)
    requires ValidService(s) && 1 <= k <= Events(s) + 1 && CleanUpTo(s, day, k, Events(s) + 1)
    requires k <= Events(s) ==> !Clean(s, day, k, 0, 0)
    ensures Plan(s, day, k)
  {
    hide Clean;
  }

  /** What comes before the correction does not depend on where it starts. */
  lemma CleanBefore(s: Service, day: nat, k: nat, i: nat)
    requires ValidService(s) && 1 <= i <= k <= Events(s) + 1 && CleanUpTo(s, day, k, i)
    ensures CleanUpTo(s, day, i, i)
  {
    hide Clean;
    forall j: nat | 1 <= j < i
      ensures Clean(s, day, j, FixAt(i, j - 1), FixAt(i, j))
    {
      assert Clean(s, day, j, FixAt(k, j - 1), FixAt(k, j));
    }
  }

  lemma CleanEarlier(s: Service, day: nat, k: nat, i: nat, j: nat)
    requires ValidService(s) && 1 <= j < k <= i <= Events(s) + 1 && CleanUpTo(s, day, k, i)
    ensures Clean(s, day, j, 0, 0)
  {
    hide Clean;
    assert Clean(s, day, j, FixAt(k, j - 1), FixAt(k, j));
  }

  lemma PlanMeans(s: Service, day: nat, k: nat, i: nat)
    requires ValidService(s) && Plan(s, day, k) && 1 <= i <= Events(s)
    ensures Clean(s, day, i, FixAt(k, i - 1), FixAt(k, i)) && (k <= Events(s) ==> !Clean(s, day, k, 0, 0))
  {
    hide Clean;
  }

  lemma NoPlan(s: Service, day: nat, k: nat, i: nat)
    requires ValidService(s) && 1 <= k <= i <= Events(s) && !Clean(s, day, k, 0, 0)
    requires CleanUpTo(s, day, k, i) && !Clean(s, day, i, FixAt(k, i - 1), FixAt(k, i))
    ensures forall l :: !Plan(s, day, l)
  {
    hide *;
    forall l: nat
      ensures !Plan(s, day, l)
    {
      NotThisPlan(s, day, k, i, l);
    }
  }

  lemma NotThisPlan(s: Service, day: nat, k: nat, i: nat, l: nat)
    requires ValidService(s) && 1 <= k <= i <= Events(s) && !Clean(s, day, k, 0, 0)
    requires CleanUpTo(s, day, k, i) && !Clean(s, day, i, FixAt(k, i - 1), FixAt(k, i))
    ensures !Plan(s, day, l)
  {
    hide Clean, CleanUpTo;
    if Plan(s, day, l) {
      if k < l {
        PlanBefore(s, day, l, k);
      } else if l == k {
        PlanMeans(s, day, l, i);
      } else {
        CleanEarlier(s, day, k, i, l);
      }
    }
  }

  // ----- All traffic days

  ghost predicate Expandable(s: Service, day: nat)
    requires ValidService(s)
  {
    exists k :: Plan(s, day, k)
  }

  ghost function PlanOf(s: Service, day: nat): (k: nat)
    requires ValidService(s) && Expandable(s, day)
    ensures Plan(s, day, k)
  {
    var k :| Plan(s, day, k);
    k
  }

  /** The relative times of a day. */
  ghost function TimesOf(s: Service, day: nat): seq<int>
    requires ValidService(s) && Expandable(s, day)
  {
    RelativeTimes(s, day, PlanOf(s, day))
  }

  ghost function FirstOf(s: Service, day: nat): nat
    requires ValidService(s) && Expandable(s, day)
  {
    InitialDay(s, day, PlanOf(s, day))
  }

  /** Relative times, and the days on which they apply. */
  datatype Group = Group(times: seq<int>, days: set<nat>)

  ghost predicate AllExpandable(s: Service, days: set<nat>)
    requires ValidService(s)
  {
    forall d :: d in days ==> Expandable(s, d)
  }

  /** The days of a group are the initial days of exactly the traffic days with its times. */
  ghost predicate GroupOf(s: Service, days: set<nat>, g: Group)
    requires ValidService(s) && AllExpandable(s, days)
  {
    && g.days != {}
    && (forall d :: d in days && TimesOf(s, d) == g.times ==> FirstOf(s, d) in g.days)
    && (forall x :: x in g.days ==> exists d :: d in days && TimesOf(s, d) == g.times && FirstOf(s, d) == x)
  }

  ghost predicate Grouped(s: Service, days: set<nat>, groups: seq<Group>)
    requires ValidService(s)
  {
    && AllExpandable(s, days)
    && (forall i :: 0 <= i < |groups| ==> GroupOf(s, days, groups[i]))
    && (forall i, j :: 0 <= i < j < |groups| ==> groups[i].times != groups[j].times)
    && (forall d :: d in days ==> exists i :: 0 <= i < |groups| && groups[i].times == TimesOf(s, d))
  }

  /** The traffic days of an interval. */
  function InRange(traffic: set<nat>, from: nat, to: nat): set<nat> {
    set d | d in traffic && from <= d < to
  }

  method ServiceTimesToUtc(s: Service, traffic: set<nat>, start: nat, end: nat) returns (r: Option<seq<Group>>)
    requires ValidService(s) && start <= end
    ensures r.Some? ==> Grouped(s, InRange(traffic, start, end), r.value)
    ensures r.None? ==> !AllExpandable(s, InRange(traffic, start, end))
  {
    hide Plan, Grouped;
    var groups: seq<Group> := [];
    NoGroups(s, InRange(traffic, start, start));
    for day := start to end
      invariant Grouped(s, InRange(traffic, start, day), groups)
    {
      NextDayInRange(traffic, start, day);
      if day !in traffic {
        continue;
      }
      var times := ExpandDay(s, day);
      if times.None? {
        assert day in InRange(traffic, start, end);
        return None;
      }
      KnownTimes(s, day, times.value);
      groups := AddDay(s, InRange(traffic, start, day), groups, day, times.value);
    }
    return Some(groups);
  }

  lemma NoGroups(s: Service, days: set<nat>)
    requires ValidService(s) && days == {}
    ensures Grouped(s, days, [])
  {
  }

  lemma NextDayInRange(traffic: set<nat>, from: nat, day: nat)
    requires from <= day
    ensures day in traffic ==> InRange(traffic, from, day + 1) == InRange(traffic, from, day) + {day}
    ensures day !in traffic ==> InRange(traffic, from, day + 1) == InRange(traffic, from, day)
  {
  }

  lemma KnownTimes(s: Service, day: nat, r: DayTimes)
    requires ValidService(s) && exists k :: Plan(s, day, k) && r == DayTimes(RelativeTimes(s, day, k), InitialDay(s, day, k))
    ensures Expandable(s, day) && r == DayTimes(TimesOf(s, day), FirstOf(s, day))
  {
    hide Plan, RelativeTimes, InitialDay;
    var k :| Plan(s, day, k) && r == DayTimes(RelativeTimes(s, day, k), InitialDay(s, day, k));
    PlanIsUnique(s, day, k, PlanOf(s, day));
  }

  /** Adds a day to the group with its times, or to a new one. */
  method AddDay(s: Service, ghost days: set<nat>, groups0: seq<Group>, day: nat, times: DayTimes) returns (groups: seq<Group>)
    requires ValidService(s) && Grouped(s, days, groups0)
    requires Expandable(s, day) && times == DayTimes(TimesOf(s, day), FirstOf(s, day))
    ensures Grouped(s, days + {day}, groups)
  {
    hide TimesOf, FirstOf, Expandable;
    var i := 0;
    while i < |groups0| && groups0[i].times != times.times
      invariant 0 <= i <= |groups0|
      invariant forall j :: 0 <= j < i ==> groups0[j].times != times.times
    {
      i := i + 1;
    }
    if i == |groups0| {
      groups := groups0 + [Group(times.times, {times.initialDay})];
    } else {
      groups := groups0[i := Group(times.times, groups0[i].days + {times.initialDay})];
    }
    GroupsAfter(s, days, groups0, day, i, groups);
  }

  lemma GroupsAfter(s: Service, days: set<nat>, groups0: seq<Group>, day: nat, i: nat, groups: seq<Group>)
    requires ValidService(s) && Grouped(s, days, groups0) && Expandable(s, day) && i <= |groups0|
    requires i == |groups0| ==> groups == groups0 + [Group(TimesOf(s, day), {FirstOf(s, day)})]
    requires i < |groups0| ==> groups0[i].times == TimesOf(s, day) && groups == groups0[i := Group(TimesOf(s, day), groups0[i].days + {FirstOf(s, day)})]
    requires forall j :: 0 <= j < i ==> groups0[j].times != TimesOf(s, day)
    ensures Grouped(s, days + {day}, groups)
  {
    hide TimesOf, FirstOf, Expandable, GroupOf;
    forall j | 0 <= j < |groups|
      ensures GroupOf(s, days + {day}, groups[j])
    {
      if j < |groups0| {
        assert GroupOf(s, days, groups0[j]);
        GroupGrows(s, days, groups0[j], day, groups[j]);
      } else {
        NewGroup(s, days, groups0, day);
      }
    }
    forall d | d in days + {day}
      ensures exists j :: 0 <= j < |groups| && groups[j].times == TimesOf(s, d)
    {
      if d == day {
        assert groups[i].times == TimesOf(s, d);
      } else {
        var j :| 0 <= j < |groups0| && groups0[j].times == TimesOf(s, d);
        assert groups[j].times == TimesOf(s, d);
      }
    }
  }

  lemma GroupGrows(s: Service, days: set<nat>, g0: Group, day: nat, g: Group)
    requires ValidService(s) && AllExpandable(s, days) && Expandable(s, day) && GroupOf(s, days, g0)
    requires g == if g0.times == TimesOf(s, day) then Group(g0.times, g0.days + {FirstOf(s, day)}) else g0
    ensures GroupOf(s, days + {day}, g)
  {
    hide TimesOf, FirstOf, Expandable;
    forall x | x in g.days
      ensures exists d :: d in days + {day} && TimesOf(s, d) == g.times && FirstOf(s, d) == x
    {
      if x in g0.days {
        var d :| d in days && TimesOf(s, d) == g0.times && FirstOf(s, d) == x;
        assert d in days + {day};
      } else {
        assert day in days + {day};
      }
    }
  }

  lemma NewGroup(s: Service, days: set<nat>, groups0: seq<Group>, day: nat)
    requires ValidService(s) && Grouped(s, days, groups0) && Expandable(s, day)
    requires forall j :: 0 <= j < |groups0| ==> groups0[j].times != TimesOf(s, day)
    ensures GroupOf(s, days + {day}, Group(TimesOf(s, day), {FirstOf(s, day)}))
  {
    hide TimesOf, FirstOf, Expandable;
    assert day in days + {day};
    assert forall d :: d in days ==> TimesOf(s, d) != TimesOf(s, day);
  }
}
