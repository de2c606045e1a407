/** The way back: from the universal times of an expanded service to the local times of its timetable. */
module ServiceLocalTimes {
  import opened Time
  import opened ServiceExpansion

  /** The local time of event i of a traffic day; day 0 of the traffic days is day 5 of the schedule. */
  function TimetableTime(s: Service, day: nat, i: nat): int
    requires i < |s.times|
  {
    (day + 5) * 1440 + s.times[i]
  }

  /** The zone is in its season at a universal time. In a zone whose season has the smaller offset, the last local times of the
      season come twice; the second time belongs to the season no more. */
  predicate SeasonAt(z: Zone, utc: int) {
    z.begin != INVALID_TIME && z.begin <= utc <= z.end && utc <= z.end + z.seasonOffset - z.general
  }

  /** The zone is not in its season at a universal time, and not in the hours after it that do not exist. */
  predicate NoSeasonAt(z: Zone, utc: int) {
    z.begin == INVALID_TIME || utc < z.begin || utc > z.end
  }

  /** Before a correction, the universal time of an event shows the timetable's time in the zone of its station. */
  lemma EventsShowTimetable(s: Service, day: nat, k: nat, i: nat)
    requires ValidService(s) && Plan(s, day, k) && 1 <= i <= Events(s) && i < k
    ensures var z, t := s.zones[i / 2], EventTime(s, day, k, i);
            && (SeasonAt(z, t) ==> t + z.seasonOffset == TimetableTime(s, day, i))
            && (NoSeasonAt(z, t) ==> t + z.general == TimetableTime(s, day, i))
  {
    PlanMeans(s, day, k, i);
  }

  /** From the correction on, events are an hour later than their timetable says. The hour in which the season begins is left
      out of the local times; a local time in it counts as one of the season. */
  lemma CorrectedEventsShowTimetable(s: Service, day: nat, k: nat, i: nat)
    requires ValidService(s) && Plan(s, day, k) && k <= i <= Events(s)
    ensures var z, t, local := s.zones[i / 2], EventTime(s, day, k, i) - 60, TimetableTime(s, day, i);
            && (SeasonAt(z, t) ==> t + z.seasonOffset == local)
            && (z.begin == INVALID_TIME || t + 60 < z.begin || t > z.end ==> t + z.general == local)
            && (z.begin != INVALID_TIME && z.begin - 60 <= t < z.begin ==>
                  t == local - (if z.begin + z.general <= local <= z.end + z.seasonOffset then z.seasonOffset else z.general))
  {
    PlanMeans(s, day, k, i);
  }

  /** The result of an expansion: adding its initial day gives back the universal times. The initial day is the local day of
      the first departure, or the day before if the universal time is before this day. */
  lemma ResultShowsEvents(s: Service, day: nat, k: nat, i: nat)
    requires ValidService(s) && Plan(s, day, k) && 1 <= i <= Events(s)
    ensures RelativeTimes(s, day, k)[i - 1] + InitialDay(s, day, k) * 1440 == EventTime(s, day, k, i)
    ensures var first := day + 5 + s.times[1] / 1440;
            InitialDay(s, day, k) == if EventTime(s, day, k, 1) < first * 1440 then first - 1 else first
  {
    assert s.times[1] == s.times[1] / 1440 * 1440 + s.times[1] % 1440;
  }

  // ----- When a day is corrected

  /** The local time is one of the season. */
  predicate LocalSeason(z: Zone, local: int) {
    z.begin != INVALID_TIME && z.begin + z.general <= local <= z.end + z.seasonOffset
  }

  /** An event of the timetable in universal time, without a correction. */
  function PlainTime(s: Service, day: nat, i: nat): int
    requires i < |s.times| && i / 2 < |s.zones|
  {
    var z, local := s.zones[i / 2], TimetableTime(s, day, i);
    local - (if LocalSeason(z, local) then z.seasonOffset else z.general)
  }

  /** A local time that does not exist: it is one of the season, which has not begun yet. */
  predicate Skipped(s: Service, day: nat, i: nat, fix: int)
    requires i < |s.times| && i / 2 < |s.zones|
  {
    LocalSeason(s.zones[i / 2], TimetableTime(s, day, i)) && PlainTime(s, day, i) + fix < s.zones[i / 2].begin
  }

  /** The event is earlier than the one before it, or does not exist. */
  predicate Faulty(s: Service, day: nat, i: nat)
    requires 1 <= i < |s.times| && i / 2 < |s.zones|
  {
    (i > 1 && PlainTime(s, day, i) < PlainTime(s, day, i - 1)) || Skipped(s, day, i, 0)
  }

  lemma PlainIsUtc(s: Service, day: nat, i: nat)
    requires ValidService(s) && 1 <= i <= Events(s)
    ensures PlainTime(s, day, i) == Utc(s, day, i)
    ensures Clean(s, day, i, 0, 0) <==> !Faulty(s, day, i)
  {
  }

  /** A day stays without a correction exactly if none of its events is faulty. */
  lemma UncorrectedIff(s: Service, day: nat)
    requires ValidService(s)
    ensures Plan(s, day, Events(s) + 1) <==> forall i :: 1 <= i <= Events(s) ==> !Faulty(s, day, i)
  {
    hide Clean, Faulty;
    forall i: nat | 1 <= i <= Events(s)
      ensures Clean(s, day, i, 0, 0) <==> !Faulty(s, day, i)
      ensures FixAt(Events(s) + 1, i - 1) == FixAt(Events(s) + 1, i) == 0
    {
      PlainIsUtc(s, day, i);
    }
    if Plan(s, day, Events(s) + 1) {
      forall i | 1 <= i <= Events(s)
        ensures !Faulty(s, day, i)
      {
        PlanMeans(s, day, Events(s) + 1, i);
      }
    }
  }

  /** A correction begins at the first faulty event; one hour repairs it, and with this hour all later ones are in order. */
  lemma CorrectionRepairs(s: Service, day: nat, k: nat, i: nat)
    requires ValidService(s) && Plan(s, day, k) && k <= Events(s) && 1 <= i <= Events(s)
    ensures Faulty(s, day, k) && (i < k ==> !Faulty(s, day, i))
    ensures i == k > 1 ==> PlainTime(s, day, i - 1) <= PlainTime(s, day, i) + 60
    ensures i > k ==> PlainTime(s, day, i - 1) <= PlainTime(s, day, i)
    ensures i >= k ==> !Skipped(s, day, i, 60)
  {
    PlanMeans(s, day, k, i);
    PlainIsUtc(s, day, i);
    PlainIsUtc(s, day, k);
    if i > 1 {
      PlainIsUtc(s, day, i - 1);
    }
    hide Plan, PlainTime, Utc;
  }

  /** One hour of summer time, over the days 100 to 200 of the schedule. */
  const SUMMER_ZONE := Zone(60, 120, 144000, 288000)

  /** From eight to nine in the morning, in this zone. */
  const MORNING := Service([0, 480, 540, 0], [SUMMER_ZONE, SUMMER_ZONE])

  /** On a day in the season the service runs from six to seven, in universal time; before it, from seven to eight. */
  lemma SummerIsAnHourEarlier()
    ensures ValidService(MORNING) && Plan(MORNING, 145, 3) && Plan(MORNING, 45, 3)
    ensures RelativeTimes(MORNING, 145, 3) == [360, 420] && InitialDay(MORNING, 145, 3) == 150
    ensures RelativeTimes(MORNING, 45, 3) == [420, 480] && InitialDay(MORNING, 45, 3) == 50
  {
    assert forall i :: 0 <= i < 2 ==> MORNING.zones[i] == SUMMER_ZONE;
  }

  /** A zone whose season has the smaller offset. */
  const WINTER_ZONE := Zone(120, 60, 144000, 288000)

  /** From half past one in the night to two, in this zone. */
  const NIGHT := Service([0, 90, 120, 0], [WINTER_ZONE, WINTER_ZONE])

  /** When its season ends, its last local times come twice: a universal time before the end of the season can belong to a
      local time behind it. */
  lemma LastHourComesTwice()
    ensures ValidService(NIGHT) && Plan(NIGHT, 195, 3)
    ensures var t := EventTime(NIGHT, 195, 3, 1);
            && WINTER_ZONE.begin <= t <= WINTER_ZONE.end && !SeasonAt(WINTER_ZONE, t)
            && t + WINTER_ZONE.general == TimetableTime(NIGHT, 195, 1)
            && t + WINTER_ZONE.seasonOffset != TimetableTime(NIGHT, 195, 1)
  {
    assert forall i :: 0 <= i < 2 ==> NIGHT.zones[i] == WINTER_ZONE;
  }
}
