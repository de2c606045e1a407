/** The index of the message store: for every day, the smallest and largest timestamps of the messages that touch it. */
module RisIndex {
  import opened Options
  import opened RisCodec
  import opened RisDays
  import opened Sets

  /** What the reader finds in the bytes of a message. */
  datatype Header = Header(timestamp: nat, earliest: int, latest: int)

  type Parser = Bytes -> Header

  predicate Touches(h: Header, d: int) {
    h.earliest <= h.latest && d in MessageDays(h.earliest, h.latest)
  }

  /** Every message mentions at least one point in time. */
  ghost predicate Dated(parse: Parser, input: seq<Bytes>) {
    forall i :: 0 <= i < |input| ==> parse(input[i]).earliest <= parse(input[i]).latest
  }

  type DayIndex = map<int, nat>

  function At(index: DayIndex, d: int): Option<nat> {
    if d in index then Some(index[d]) else None
  }

  function Lower(a: Option<nat>, b: Option<nat>): Option<nat> {
    if a.None? then b else if b.None? then a else if b.value < a.value then b else a
  }

  function Higher(a: Option<nat>, b: Option<nat>): Option<nat> {
    if a.None? then b else if b.None? then a else if b.value > a.value then b else a
  }

  function Entry(h: Header, d: int): Option<nat> {
    if Touches(h, d) then Some(h.timestamp) else None
  }

  /** The smallest timestamp of the messages that touch d. */
  function Smallest(parse: Parser, input: seq<Bytes>, d: int): Option<nat> {
    if input == [] then None
    else Lower(Smallest(parse, input[..|input| - 1], d), Entry(parse(input[|input| - 1]), d))
  }

  function Largest(parse: Parser, input: seq<Bytes>, d: int): Option<nat> {
    if input == [] then None
    else Higher(Largest(parse, input[..|input| - 1], d), Entry(parse(input[|input| - 1]), d))
  }

  /** Both are attained by a message, and bound all of them. */
  lemma {:induction false} ExtremesMeaning(parse: Parser, input: seq<Bytes>, d: int)
    ensures forall i :: 0 <= i < |input| && Touches(parse(input[i]), d) ==>
              && Smallest(parse, input, d).Some? && Smallest(parse, input, d).value <= parse(input[i]).timestamp
              && Largest(parse, input, d).Some? && parse(input[i]).timestamp <= Largest(parse, input, d).value
    ensures Smallest(parse, input, d).Some? ==>
              exists i :: 0 <= i < |input| && Touches(parse(input[i]), d) && parse(input[i]).timestamp == Smallest(parse, input, d).value
    ensures Largest(parse, input, d).Some? ==>
              exists i :: 0 <= i < |input| && Touches(parse(input[i]), d) && parse(input[i]).timestamp == Largest(parse, input, d).value
  {
    hide Touches;
    if input != [] {
      var n := |input| - 1;
      var front := input[..n];
      ExtremesMeaning(parse, front, d);
      forall i | 0 <= i < |input| && Touches(parse(input[i]), d)
        ensures Smallest(parse, input, d).Some? && Smallest(parse, input, d).value <= parse(input[i]).timestamp
        ensures Largest(parse, input, d).Some? && parse(input[i]).timestamp <= Largest(parse, input, d).value
      {
        if i < n {
          assert front[i] == input[i];
        }
      }
      if i :| 0 <= i < |front| && Touches(parse(front[i]), d) && Smallest(parse, front, d) == Some(parse(front[i]).timestamp) {
        assert input[i] == front[i];
      }
      if i :| 0 <= i < |front| && Touches(parse(front[i]), d) && Largest(parse, front, d) == Some(parse(front[i]).timestamp) {
        assert input[i] == front[i];
      }
    }
  }

  /** Enters one message under all its days. */
  method IndexMessage(h: Header, min0: DayIndex, max0: DayIndex) returns (min: DayIndex, max: DayIndex)
    requires h.earliest <= h.latest
    ensures forall d :: At(min, d) == Lower(At(min0, d), Entry(h, d))
    ensures forall d :: At(max, d) == Higher(At(max0, d), Entry(h, d))
  {
    hide Touches, Floor, Ceil, MinEntered, MaxEntered;
    min, max := min0, max0;
    var begin, last := Floor(h.earliest), NextDay(h.latest);
    WholeDays(h);
    NothingEntered(h, min0, max0);
    var d := begin;
    while d != last
      invariant begin <= d <= last && (d - begin) % DAY == 0
      invariant MinEntered(h, min0, min, d) && MaxEntered(h, max0, max, d)
      decreases last - d
    {
      EnterDay(h, min0, max0, min, max, d);
      min := min[d := if d in min && min[d] < h.timestamp then min[d] else h.timestamp];
      max := max[d := if d in max && max[d] > h.timestamp then max[d] else h.timestamp];
      d := d + DAY;
    }
    AllEntered(h, min0, max0, min, max);
  }

  /** The days of a message before d have been entered. */
  ghost predicate MinEntered(h: Header, min0: DayIndex, min: DayIndex, d: int) {
    forall x :: At(min, x) == if x < d then Lower(At(min0, x), Entry(h, x)) else At(min0, x)
  }

  ghost predicate MaxEntered(h: Header, max0: DayIndex, max: DayIndex, d: int) {
    forall x :: At(max, x) == if x < d then Higher(At(max0, x), Entry(h, x)) else At(max0, x)
  }

  lemma NothingEntered(h: Header, min0: DayIndex, max0: DayIndex)
    requires h.earliest <= h.latest
    ensures MinEntered(h, min0, min0, Floor(h.earliest)) && MaxEntered(h, max0, max0, Floor(h.earliest))
  {
    hide Touches;
    NoDayOutside(h);
  }

  lemma EnterDay(h: Header, min0: DayIndex, max0: DayIndex, min: DayIndex, max: DayIndex, d: int)
    requires h.earliest <= h.latest && Floor(h.earliest) <= d < NextDay(h.latest) && (d - Floor(h.earliest)) % DAY == 0
    requires MinEntered(h, min0, min, d) && MaxEntered(h, max0, max, d)
    ensures MinEntered(h, min0, min[d := if d in min && min[d] < h.timestamp then min[d] else h.timestamp], d + DAY)
    ensures MaxEntered(h, max0, max[d := if d in max && max[d] > h.timestamp then max[d] else h.timestamp], d + DAY)
  {
    hide Touches, Floor, NextDay;
    DayTouched(h, d);
    NoDayBetween(h, d);
  }

  lemma AllEntered(h: Header, min0: DayIndex, max0: DayIndex, min: DayIndex, max: DayIndex)
    requires h.earliest <= h.latest && MinEntered(h, min0, min, NextDay(h.latest)) && MaxEntered(h, max0, max, NextDay(h.latest))
    ensures forall d :: At(min, d) == Lower(At(min0, d), Entry(h, d))
    ensures forall d :: At(max, d) == Higher(At(max0, d), Entry(h, d))
  {
    hide Touches;
    NoDayOutside(h);
  }

  lemma NoDayBetween(h: Header, d: int)
    requires h.earliest <= h.latest && (d - Floor(h.earliest)) % DAY == 0
    ensures forall x :: d < x < d + DAY ==> !Touches(h, x)
  {
  }

  lemma DayTouched(h: Header, d: int)
    requires h.earliest <= h.latest && Floor(h.earliest) <= d < NextDay(h.latest) && (d - Floor(h.earliest)) % DAY == 0
    ensures Touches(h, d)
  {
  }

  lemma WholeDays(h: Header)
    requires h.earliest <= h.latest
    ensures Floor(h.earliest) <= NextDay(h.latest) && (NextDay(h.latest) - Floor(h.earliest)) % DAY == 0
  {
    FloorMonotone(h.earliest, h.latest);
  }

  lemma NoDayOutside(h: Header)
    requires h.earliest <= h.latest
    ensures forall x :: x >= NextDay(h.latest) || x < Floor(h.earliest) || (x - Floor(h.earliest)) % DAY != 0 ==> !Touches(h, x)
  {
  }

  /** Merges the entries of one run of messages into an index. */
  method MergeMin(entries: DayIndex, index0: DayIndex) returns (index: DayIndex)
    ensures forall d :: At(index, d) == Lower(At(index0, d), At(entries, d))
  {
    index := index0;
    var todo: set<int> := entries.Keys;
    while todo != {}
      invariant todo <= entries.Keys
      invariant forall d :: At(index, d) == if d in todo then At(index0, d) else Lower(At(index0, d), At(entries, d))
      decreases |todo|
    {
      var d := Pick(todo);
      var smallest := entries[d];
      if d in index && index[d] < smallest {
        smallest := index[d];
      }
      index := index[d := smallest];
      todo := todo - {d};
    }
  }

  method MergeMax(entries: DayIndex, index0: DayIndex) returns (index: DayIndex)
    ensures forall d :: At(index, d) == Higher(At(index0, d), At(entries, d))
  {
    index := index0;
    var todo: set<int> := entries.Keys;
    while todo != {}
      invariant todo <= entries.Keys
      invariant forall d :: At(index, d) == if d in todo then At(index0, d) else Higher(At(index0, d), At(entries, d))
      decreases |todo|
    {
      var d := Pick(todo);
      var largest := entries[d];
      if d in index && index[d] > largest {
        largest := index[d];
      }
      index := index[d := largest];
      todo := todo - {d};
    }
  }
}
