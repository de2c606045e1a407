/** What the expansion of a service means: every traffic day once, and connections at the computed times. */
module ServiceConnections {
  import opened Options
  import opened ServiceExpansion
  import opened Sets
  import opened Time

  // ----- The times of a day

  /** The relative times never decrease, and begin at or after the start of the initial day. */
  lemma TimesNonDecreasing(s: Service, day: nat, i: nat, j: nat)
    requires ValidService(s) && Expandable(s, day) && i <= j < Events(s)
    ensures 0 <= TimesOf(s, day)[i] <= TimesOf(s, day)[j]
  {
    var k := PlanOf(s, day);
    StepNonDecreasing(s, day, k, i, j);
    StepNonDecreasing(s, day, k, 0, i);
    FirstTime(s, day, k);
  }

  lemma {:induction false} StepNonDecreasing(s: Service, day: nat, k: nat, i: nat, j: nat)
    requires ValidService(s) && Plan(s, day, k) && i <= j < Events(s)
    ensures RelativeTimes(s, day, k)[i] <= RelativeTimes(s, day, k)[j]
    decreases j
  {
    hide InitialDay, Utc, Plan;
    if i < j {
      StepNonDecreasing(s, day, k, i, j - 1);
      PlanMeans(s, day, k, j + 1);
      assert RelativeTimes(s, day, k)[j] == EventTime(s, day, k, j + 1) - InitialDay(s, day, k) * MINUTES_A_DAY;
      assert RelativeTimes(s, day, k)[j - 1] == EventTime(s, day, k, j) - InitialDay(s, day, k) * MINUTES_A_DAY;
    }
  }

  /** The first relative time: the local time of day, converted and corrected, a day later if that is negative. */
  lemma FirstTime(s: Service, day: nat, k: nat)
    requires ValidService(s)
    ensures var pre := s.times[1] % MINUTES_A_DAY - Offset(s.zones[0], Local(s, day, 1)) + FixAt(k, 1);
            RelativeTimes(s, day, k)[0] == (if pre < 0 then pre + MINUTES_A_DAY else pre) >= 0
  {
    assert s.zones[0] in s.zones;
    assert RelativeTimes(s, day, k)[1 - 1] == EventTime(s, day, k, 1) - InitialDay(s, day, k) * MINUTES_A_DAY;
  }

  // ----- Every traffic day is counted once

  /** The offsets of a zone differ by less than a day, less the hour of correction. */
  predicate CloseOffsets(z: Zone) {
    z.begin == INVALID_TIME || (z.seasonOffset - z.general + 60 < MINUTES_A_DAY && z.general - z.seasonOffset + 60 < MINUTES_A_DAY)
  }

  lemma OffsetsClose(z: Zone, a: int, b: int)
    requires CloseOffsets(z)
    ensures Offset(z, a) - Offset(z, b) + 60 < MINUTES_A_DAY
  {
  }

  /** Two traffic days with the same relative times have different initial days. */
  lemma InitialDaysDiffer(s: Service, c: nat, d: nat)
    requires ValidService(s) && Expandable(s, c) && Expandable(s, d) && c != d && CloseOffsets(s.zones[0])
    requires TimesOf(s, c) == TimesOf(s, d)
    ensures FirstOf(s, c) != FirstOf(s, d)
  {
    hide Plan, Offset, Local, RelativeTimes;
    if c < d {
      LaterDayDiffers(s, c, d, PlanOf(s, c), PlanOf(s, d));
    } else {
      LaterDayDiffers(s, d, c, PlanOf(s, d), PlanOf(s, c));
    }
  }

  lemma LaterDayDiffers(s: Service, c: nat, d: nat, k: nat, l: nat)
    requires ValidService(s) && c < d && CloseOffsets(s.zones[0])
    requires RelativeTimes(s, c, k) == RelativeTimes(s, d, l)
    ensures InitialDay(s, c, k) != InitialDay(s, d, l)
  {
    hide Offset, Local, RelativeTimes;
    FirstTime(s, c, k);
    FirstTime(s, d, l);
    OffsetsClose(s.zones[0], Local(s, d, 1), Local(s, c, 1));
  }

  /** Every traffic day contributes to exactly one group, under a day of its own. */
  lemma DayInOneGroup(s: Service, days: set<nat>, groups: seq<Group>, d: nat) returns (i: nat)
    requires ValidService(s) && Grouped(s, days, groups) && d in days
    ensures i < |groups| && groups[i].times == TimesOf(s, d) && FirstOf(s, d) in groups[i].days
    ensures forall j :: 0 <= j < |groups| && groups[j].times == TimesOf(s, d) ==> j == i
    ensures CloseOffsets(s.zones[0]) ==> forall c :: c in days && TimesOf(s, c) == groups[i].times && FirstOf(s, c) == FirstOf(s, d) ==> c == d
  {
    hide TimesOf, FirstOf, Expandable, CloseOffsets;
    i :| 0 <= i < |groups| && groups[i].times == TimesOf(s, d);
    assert GroupOf(s, days, groups[i]);
    if CloseOffsets(s.zones[0]) {
      forall c | c in days && TimesOf(s, c) == groups[i].times && FirstOf(s, c) == FirstOf(s, d)
        ensures c == d
      {
        if c != d {
          InitialDaysDiffer(s, c, d);
        }
      }
    }
  }

  /** The traffic days with given times. */
  ghost function WithTimes(s: Service, days: set<nat>, times: seq<int>): set<nat>
    requires ValidService(s) && AllExpandable(s, days)
  {
    set d | d in days && TimesOf(s, d) == times
  }

  /** A one-to-one image has as many elements. */
  lemma {:induction false} SameSize(s: Service, members: set<nat>, image: set<nat>)
    requires ValidService(s) && AllExpandable(s, members)
    requires forall d :: d in members ==> FirstOf(s, d) in image
    requires forall x :: x in image ==> exists d :: d in members && FirstOf(s, d) == x
    requires forall c, d :: c in members && d in members && c != d ==> FirstOf(s, c) != FirstOf(s, d)
    ensures |members| == |image|
    decreases |members|
  {
    hide FirstOf, Expandable;
    if members == {} {
      forall x: nat
        ensures x !in image
      {
      }
      assert image == {};
    } else {
      var c :| c in members;
      var rest, others := members - {c}, image - {FirstOf(s, c)};
      forall x | x in others
        ensures exists d :: d in rest && FirstOf(s, d) == x
      {
        var d :| d in members && FirstOf(s, d) == x;
        assert d in rest;
      }
      SameSize(s, rest, others);
    }
  }

  function TotalDays(groups: seq<Group>): nat {
    if groups == [] then 0 else TotalDays(groups[..|groups| - 1]) + |groups[|groups| - 1].days|
  }

  /** No traffic day is lost or counted twice: together the groups have as many days. */
  lemma {:induction false} DaysConserved(s: Service, days: set<nat>, groups: seq<Group>)
    requires ValidService(s) && Grouped(s, days, groups) && CloseOffsets(s.zones[0])
    ensures TotalDays(groups) == |days|
    decreases |groups|
  {
    hide Grouped, CloseOffsets, AllExpandable, WithTimes, ValidService;
    if groups == [] {
      NoDays(s, days);
    } else {
      var members := LastGroupSize(s, days, groups);
      WithoutGroup(s, days, groups);
      DaysConserved(s, days - members, groups[..|groups| - 1]);
      SplitSize(days, members);
    }
  }

  lemma SplitSize(days: set<nat>, members: set<nat>)
    requires members <= days
    ensures |days| == |days - members| + |members|
  {
    assert days == (days - members) + members;
  }

  lemma NoDays(s: Service, days: set<nat>)
    requires ValidService(s) && Grouped(s, days, [])
    ensures days == {}
  {
    hide TimesOf, Expandable;
    forall d: nat
      ensures d !in days
    {
    }
  }

  lemma LastGroupSize(s: Service, days: set<nat>, groups: seq<Group>) returns (members: set<nat>)
    requires ValidService(s) && Grouped(s, days, groups) && groups != [] && CloseOffsets(s.zones[0])
    ensures AllExpandable(s, days) && members == WithTimes(s, days, groups[|groups| - 1].times) && members <= days
    ensures |members| == |groups[|groups| - 1].days|
  {
    hide TimesOf, FirstOf, Expandable, CloseOffsets, GroupOf;
    members := WithTimes(s, days, groups[|groups| - 1].times);
    GroupSize(s, days, groups[|groups| - 1]);
  }

  lemma GroupSize(s: Service, days: set<nat>, g: Group)
    requires ValidService(s) && AllExpandable(s, days) && GroupOf(s, days, g) && CloseOffsets(s.zones[0])
    ensures |WithTimes(s, days, g.times)| == |g.days|
  {
    hide TimesOf, FirstOf, Expandable, CloseOffsets;
    var members := WithTimes(s, days, g.times);
    forall c, d | c in members && d in members && c != d
      ensures FirstOf(s, c) != FirstOf(s, d)
    {
      InitialDaysDiffer(s, c, d);
    }
    forall x | x in g.days
      ensures exists d :: d in members && FirstOf(s, d) == x
    {
      var d :| d in days && TimesOf(s, d) == g.times && FirstOf(s, d) == x;
      assert d in members;
    }
    SameSize(s, members, g.days);
  }

  lemma WithoutGroup(s: Service, days: set<nat>, groups: seq<Group>)
    requires ValidService(s) && Grouped(s, days, groups) && groups != []
    ensures AllExpandable(s, days)
    ensures Grouped(s, days - WithTimes(s, days, groups[|groups| - 1].times), groups[..|groups| - 1])
  {
    hide TimesOf, FirstOf, Expandable, GroupOf;
    var n := |groups| - 1;
    var rest := days - WithTimes(s, days, groups[n].times);
    var front := groups[..n];
    forall i | 0 <= i < n
      ensures GroupOf(s, rest, front[i])
    {
      assert GroupOf(s, days, groups[i]) && groups[i].times != groups[n].times;
      GroupKept(s, days, rest, groups[i]);
    }
    forall d | d in rest
      ensures exists i :: 0 <= i < n && front[i].times == TimesOf(s, d)
    {
      OtherGroup(s, days, groups, d);
      var i :| 0 <= i < n && groups[i].times == TimesOf(s, d);
      assert front[i].times == TimesOf(s, d);
    }
  }

  lemma OtherGroup(s: Service, days: set<nat>, groups: seq<Group>, d: nat)
    requires ValidService(s) && Grouped(s, days, groups) && groups != [] && d in days
    requires TimesOf(s, d) != groups[|groups| - 1].times
    ensures exists i :: 0 <= i < |groups| - 1 && groups[i].times == TimesOf(s, d)
  {
    hide TimesOf, FirstOf, Expandable, GroupOf;
    var i :| 0 <= i < |groups| && groups[i].times == TimesOf(s, d);
  }

  lemma GroupKept(s: Service, days: set<nat>, rest: set<nat>, g: Group)
    requires ValidService(s) && AllExpandable(s, days) && GroupOf(s, days, g) && rest <= days
    requires forall d :: d in days && TimesOf(s, d) == g.times ==> d in rest
    ensures GroupOf(s, rest, g)
  {
    hide TimesOf, FirstOf, Expandable;
    forall x | x in g.days
      ensures exists d :: d in rest && TimesOf(s, d) == g.times && FirstOf(s, d) == x
    {
      var d :| d in days && TimesOf(s, d) == g.times && FirstOf(s, d) == x;
      assert d in rest;
    }
  }

  // ----- Connections

  /** A section of a service: the days on which it departs, and its times on such a day. */
  datatype Connection = Connection(days: set<nat>, departure: int, arrival: int)

  /** The day index of a relative time. */
  function DayOf(t: int): nat
    requires t >= 0
  {
    t / MINUTES_A_DAY
  }

  /** The bit of a day: the section departs some days after the service. */
  function Shifted(d: nat, offset: nat): nat {
    d + offset
  }

  /** The connection enters, for all days that pass the guard and no others, the bit of the day of departure; a bit and
      the minute of departure make up the time that is relative to the day. */
  ghost predicate ConnectionOf(times: seq<int>, section: nat, days: set<nat>, c: Connection)
    requires 2 * section + 1 < |times| && times[2 * section] >= 0
  {
    var offset := DayOf(times[2 * section]);
    && (forall d :: d in days && offset <= d ==> Shifted(d, offset) in c.days)
    && (forall bit :: bit in c.days ==> exists d :: d in days && offset <= d && bit == Shifted(d, offset))
    && 0 <= c.departure < MINUTES_A_DAY
    && offset * MINUTES_A_DAY + c.departure == times[2 * section]
    && c.arrival - c.departure == times[2 * section + 1] - times[2 * section]
  }

  /** The guard drops initial days before the number of travelled days. The method fails if a section arrives before it
      departs, and for days outside the bit field. */
  method SectionToConnection(section: nat, times: seq<int>, days: set<nat>) returns (r: Option<Connection>)
    requires 2 * section + 1 < |times| && times[2 * section] >= 0
    ensures r.Some? ==> ConnectionOf(times, section, days, r.value)
    ensures r.Some? <==> times[2 * section] <= times[2 * section + 1]
                         && forall d :: d in days && DayOf(times[2 * section]) <= d ==> Shifted(d, DayOf(times[2 * section])) < MAX_DAYS
  {
    var departure, arrival := times[2 * section], times[2 * section + 1];
    var offset := DayOf(departure);
    var mamDeparture := departure - offset * MINUTES_A_DAY;
    var mamArrival := mamDeparture + (arrival - departure);
    if mamDeparture > mamArrival {
      return None;
    }
    var bits: set<nat> := {};
    var todo := days;
    while todo != {}
      invariant todo <= days
      invariant forall d :: d in days && d !in todo && offset <= d ==> Shifted(d, offset) in bits && Shifted(d, offset) < MAX_DAYS
      invariant forall bit :: bit in bits ==> exists d :: d in days && offset <= d && bit == Shifted(d, offset)
      decreases |todo|
    {
      var d := Pick(todo);
      todo := todo - {d};
      if offset <= d {
        if Shifted(d, offset) >= MAX_DAYS {
          return None;
        }
        bits := bits + {Shifted(d, offset)};
      }
    }
    return Some(Connection(bits, mamDeparture, mamArrival));
  }

  /** The universal time of a bit and a minute. */
  function Absolute(bit: nat, minute: int): int {
    bit * MINUTES_A_DAY + minute
  }

  /** A connection runs at the computed times: for every traffic day of its group that passes the guard, the bit of that
      day gives the universal departure and arrival that the expansion computed for it. */
  lemma ConnectionRunsOnTime(s: Service, days: set<nat>, g: Group, section: nat, c: Connection, d: nat)
    requires ValidService(s) && AllExpandable(s, days) && GroupOf(s, days, g) && 2 * section + 1 < Events(s)
    requires d in days && TimesOf(s, d) == g.times && g.times[2 * section] >= 0
    requires ConnectionOf(g.times, section, g.days, c) && DayOf(g.times[2 * section]) <= FirstOf(s, d)
    ensures exists bit :: bit in c.days
                          && Absolute(bit, c.departure) == EventTime(s, d, PlanOf(s, d), 2 * section + 1)
                          && Absolute(bit, c.arrival) == EventTime(s, d, PlanOf(s, d), 2 * section + 2)
  {
    hide EventTime, InitialDay, Plan;
    var k := PlanOf(s, d);
    var bit := Shifted(FirstOf(s, d), DayOf(g.times[2 * section]));
    assert bit in c.days;
    assert RelativeTimes(s, d, k)[2 * section + 1 - 1] == EventTime(s, d, k, 2 * section + 1) - FirstOf(s, d) * MINUTES_A_DAY;
    assert RelativeTimes(s, d, k)[2 * section + 2 - 1] == EventTime(s, d, k, 2 * section + 2) - FirstOf(s, d) * MINUTES_A_DAY;
    assert Absolute(bit, c.departure) == EventTime(s, d, k, 2 * section + 1);
  }

  /** Conversely, every bit of a connection is the departure of a traffic day of its group. */
  lemma BitsAreTrafficDays(s: Service, days: set<nat>, g: Group, section: nat, c: Connection, bit: nat)
    requires ValidService(s) && AllExpandable(s, days) && GroupOf(s, days, g) && 2 * section + 1 < Events(s)
    requires |g.times| == Events(s) && g.times[2 * section] >= 0 && ConnectionOf(g.times, section, g.days, c) && bit in c.days
    ensures exists d :: d in days && TimesOf(s, d) == g.times && Absolute(bit, c.departure) == EventTime(s, d, PlanOf(s, d), 2 * section + 1)
  {
    hide EventTime, InitialDay, Plan;
    var x :| x in g.days && DayOf(g.times[2 * section]) <= x && bit == Shifted(x, DayOf(g.times[2 * section]));
    var d :| d in days && TimesOf(s, d) == g.times && FirstOf(s, d) == x;
    assert RelativeTimes(s, d, PlanOf(s, d))[2 * section + 1 - 1]
        == EventTime(s, d, PlanOf(s, d), 2 * section + 1) - FirstOf(s, d) * MINUTES_A_DAY;
    assert Absolute(bit, c.departure) == EventTime(s, d, PlanOf(s, d), 2 * section + 1);
  }
}
