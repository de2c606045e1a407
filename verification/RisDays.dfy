/** Days, in seconds since the epoch, and the days that a message or a schedule touches. */
module RisDays {
  import opened Integers

  const DAY: int := 86400

  function Floor(i: int): int {
    Quotient(i, DAY) * DAY
  }

  function Ceil(i: int): int {
    Quotient(i - 1, DAY) * DAY + DAY
  }

  function NextDay(t: int): int {
    Floor(t) + DAY
  }

  /** The days from d up to, but not including, last, in steps of a day; only called if last is reached. */
  function DaysBetween(d: int, last: int): (days: set<int>)
    requires d <= last && (last - d) % DAY == 0
    ensures forall x :: x in days <==> d <= x < last && (x - d) % DAY == 0
    decreases last - d
  {
    if d == last then {} else
      assert last - d >= DAY;
      {d} + DaysBetween(d + DAY, last)
  }

  lemma FloorMonotone(i: int, j: int)
    requires i <= j
    ensures Floor(i) <= Floor(j) && Floor(i) <= Ceil(j)
  {
  }

  /** The days that a message is indexed under. */
  function MessageDays(earliest: int, latest: int): set<int>
    requires earliest <= latest
  {
    FloorMonotone(earliest, latest);
    DaysBetween(Floor(earliest), NextDay(latest))
  }

  /** The days that are looked up for a schedule. */
  function ScheduleDays(first: int, last: int): set<int>
    requires first <= last
  {
    FloorMonotone(first, last);
    DaysBetween(Floor(first), Ceil(last))
  }

  /** The message and the schedule overlap in time. */
  predicate Relevant(earliest: int, latest: int, first: int, last: int) {
    earliest <= last && latest >= first
  }

  /** Every relevant message is indexed under a day that is looked up, if and only if the day of the last schedule event
      begins before the end of the look-up. */
  lemma LookUpCoversIff(first: int, last: int)
    requires first <= last
    ensures (forall earliest, latest :: earliest <= latest && Relevant(earliest, latest, first, last) ==>
               exists d :: d in MessageDays(earliest, latest) && d in ScheduleDays(first, last))
            <==> Floor(last) < Ceil(last)
  {
    if Floor(last) < Ceil(last) {
      forall earliest, latest | earliest <= latest && Relevant(earliest, latest, first, last)
        ensures exists d :: d in MessageDays(earliest, latest) && d in ScheduleDays(first, last)
      {
        CommonDay(earliest, latest, first, last);
      }
    } else {
      assert Relevant(last, last, first, last);
      forall d | d in MessageDays(last, last)
        ensures d !in ScheduleDays(first, last)
      {
      }
    }
  }

  lemma CommonDay(earliest: int, latest: int, first: int, last: int)
    requires earliest <= latest && first <= last && Relevant(earliest, latest, first, last) && Floor(last) < Ceil(last)
    ensures exists d :: d in MessageDays(earliest, latest) && d in ScheduleDays(first, last)
  {
    FloorMonotone(earliest, latest);
    FloorMonotone(first, latest);
    FloorMonotone(earliest, last);
    FloorMonotone(first, last);
    var d := if Floor(earliest) < Floor(first) then Floor(first) else Floor(earliest);
    assert d in MessageDays(earliest, latest) && d in ScheduleDays(first, last);
  }

  /** After the epoch, the condition fails exactly when the last event is on a day boundary. */
  lemma BoundaryOnly(last: int)
    requires last > 0
    ensures Floor(last) < Ceil(last) <==> last % DAY != 0
  {
  }

  // ----- What the days mean

  predicate Within(from: int, upTo: int, t: int) {
    from <= t <= upTo
  }

  /** A message is relevant exactly if some moment belongs to both intervals. */
  lemma RelevantIff(earliest: int, latest: int, first: int, last: int)
    requires earliest <= latest && first <= last
    ensures Relevant(earliest, latest, first, last) <==> exists t :: Within(earliest, latest, t) && Within(first, last, t)
  {
    if Relevant(earliest, latest, first, last) {
      var t := if earliest < first then first else earliest;
      assert Within(earliest, latest, t) && Within(first, last, t);
    }
  }

  /** The moment lies on the day that begins at d. */
  predicate OnDay(d: int, t: int) {
    d <= t < d + DAY
  }

  lemma DayOf(d: int, t: int)
    requires t >= 0 && d % DAY == 0
    ensures Floor(t) % DAY == 0 && OnDay(Floor(t), t)
    ensures OnDay(d, t) ==> d == Floor(t)
  {
  }

  /** A message is indexed under exactly the days that contain one of its moments. */
  lemma MessageDaysIff(earliest: int, latest: int, d: int)
    requires 0 <= earliest <= latest
    ensures d in MessageDays(earliest, latest) <==> d % DAY == 0 && exists t :: earliest <= t <= latest && OnDay(d, t)
  {
    WholeDays(earliest, latest, d);
    if d % DAY == 0 {
      if t :| earliest <= t <= latest && OnDay(d, t) {
        assert Floor(earliest) <= d < NextDay(latest);
      }
      if Floor(earliest) <= d < NextDay(latest) {
        var t := if d < earliest then earliest else d;
        assert earliest <= t <= latest && OnDay(d, t);
      }
    }
  }

  lemma WholeDays(earliest: int, latest: int, d: int)
    requires 0 <= earliest <= latest
    ensures d in MessageDays(earliest, latest) <==> d % DAY == 0 && Floor(earliest) <= d < NextDay(latest)
  {
    DayOf(0, earliest);
    DayOf(0, latest);
  }

  /** A schedule is looked up under exactly the days that contain one of its moments before the last one. */
  lemma ScheduleDaysIff(first: int, last: int, d: int)
    requires 0 <= first < last
    ensures d in ScheduleDays(first, last) <==> d % DAY == 0 && exists t :: first <= t < last && OnDay(d, t)
  {
    LookedUpDays(first, last, d);
    if d % DAY == 0 {
      if t :| first <= t < last && OnDay(d, t) {
        assert Floor(first) <= d < last;
      }
      if Floor(first) <= d < last {
        var t := if d < first then first else d;
        assert first <= t < last && OnDay(d, t);
      }
    }
  }

  lemma LookedUpDays(first: int, last: int, d: int)
    requires 0 <= first < last
    ensures d in ScheduleDays(first, last) <==> d % DAY == 0 && Floor(first) <= d < last
  {
    DayOf(0, first);
    DayOf(0, last - 1);
  }
}
