/** Moving the clock forward publishes the stored messages in between that are relevant for the schedule. */
module RisForward {
  import opened Options
  import opened RisCodec
  import opened RisDays
  import opened OrderedStore
  import opened RisIndex
  import opened RisDatabase

  /** Messages are published in batches of about an hour. */
  const BATCH_SIZE: nat := 3600

  /** The times of the first and last event of the schedule. */
  datatype Schedule = Schedule(first: int, last: int)

  ghost predicate ValidSchedule(s: Schedule) {
    s.first <= s.last
  }

  predicate Wanted(h: Header, s: Schedule, from: nat, to: nat) {
    from <= h.timestamp <= to && Relevant(h.earliest, h.latest, s.first, s.last)
  }

  /** The messages of a bucket that are published, in order. */
  function Chosen(parse: Parser, messages: seq<Bytes>, s: Schedule, from: nat, to: nat): seq<Bytes> {
    if messages == [] then []
    else (if Wanted(parse(messages[0]), s, from, to) then [messages[0]] else []) + Chosen(parse, messages[1..], s, from, to)
  }

  function BucketPublished(parse: Parser, b: Bucket, s: Schedule, from: nat, to: nat): seq<Bytes> {
    if from <= b.timestamp <= to then Chosen(parse, Messages(b.buffer), s, from, to) else []
  }

  function Published(parse: Parser, store: Store, s: Schedule, from: nat, to: nat): seq<Bytes> {
    if store == [] then []
    else Published(parse, store[..|store| - 1], s, from, to) + BucketPublished(parse, store[|store| - 1], s, from, to)
  }

  /** The buckets from `from` to `to` end with a whole message. */
  ghost predicate Readable(store: Store, from: nat, to: nat) {
    forall b :: b in store && from <= b.timestamp <= to ==> Decode(b.buffer, 0).Some?
  }

  ghost predicate Keyed(parse: Parser, b: Bucket) {
    forall m :: m in Messages(b.buffer) ==> parse(m).timestamp == b.timestamp
  }

  lemma DecodeStep(buffer: Bytes, k: nat)
    requires k < |buffer| && Decode(buffer, k).Some?
    ensures k + 2 <= |buffer|
    ensures var size := ReadSize(buffer[k..k + 2]);
            && k + 2 + size <= |buffer| && Decode(buffer, k + 2 + size).Some?
            && Decode(buffer, k).value == [buffer[k + 2..k + 2 + size]] + Decode(buffer, k + 2 + size).value
  {
  }

  lemma ChosenStep(parse: Parser, message: Bytes, rest: seq<Bytes>, s: Schedule, from: nat, to: nat)
    ensures Chosen(parse, [message] + rest, s, from, to) == (if Wanted(parse(message), s, from, to) then [message] else []) + Chosen(parse, rest, s, from, to)
  {
    assert ([message] + rest)[1..] == rest;
  }

  lemma DecodeEnd(buffer: Bytes, k: nat)
    requires k < |buffer| && (k + 2 > |buffer| || k + 2 + ReadSize(buffer[k..k + 2]) > |buffer|)
    ensures Decode(buffer, k).None?
  {
  }

  lemma DecodeRest(buffer: Bytes, k: nat)
    requires k + 2 <= |buffer| && k + 2 + ReadSize(buffer[k..k + 2]) <= |buffer|
    ensures Decode(buffer, k).Some? <==> Decode(buffer, k + 2 + ReadSize(buffer[k..k + 2])).Some?
  {
  }

  /** Reads a buffer message by message; nothing if it ends inside a message, where the program reads on. */
  method ReadBucket(parse: Parser, buffer: Bytes, s: Schedule, from: nat, to: nat) returns (r: Option<seq<Bytes>>)
    ensures r == if Decode(buffer, 0).Some? then Some(Chosen(parse, Messages(buffer), s, from, to)) else None
  {
    hide Decode, Chosen, Wanted, ReadSize;
    var chosen: seq<Bytes> := [];
    var position := 0;
    ghost var rest := Messages(buffer);
    while position < |buffer|
      invariant 0 <= position <= |buffer| && (Decode(buffer, position).Some? <==> Decode(buffer, 0).Some?)
      invariant Decode(buffer, 0).Some? ==> Decode(buffer, position) == Some(rest)
      invariant Decode(buffer, 0).Some? ==> chosen + Chosen(parse, rest, s, from, to) == Chosen(parse, Messages(buffer), s, from, to)
      decreases |buffer| - position
    {
      if position + 2 > |buffer| || position + 2 + ReadSize(buffer[position..position + 2]) > |buffer| {
        DecodeEnd(buffer, position);
        return None;
      }
      DecodeRest(buffer, position);
      var size := ReadSize(buffer[position..position + 2]);
      var message := buffer[position + 2..position + 2 + size];
      if Decode(buffer, 0).Some? {
        DecodeStep(buffer, position);
        rest := Decode(buffer, position + 2 + size).value;
        ChosenStep(parse, message, rest, s, from, to);
      }
      position := position + 2 + size;
      if Wanted(parse(message), s, from, to) {
        chosen := chosen + [message];
      }
    }
    NothingChosen(parse, buffer, s, from, to);
    assert Decode(buffer, position) == Some([]);
    assert chosen + [] == chosen;
    return Some(chosen);
  }

  lemma NothingChosen(parse: Parser, buffer: Bytes, s: Schedule, from: nat, to: nat)
    ensures Decode(buffer, |buffer|) == Some([]) && Chosen(parse, [], s, from, to) == []
  {
  }

  function Flatten(batches: seq<seq<Bytes>>): seq<Bytes> {
    if batches == [] then [] else Flatten(batches[..|batches| - 1]) + batches[|batches| - 1]
  }

  /** An empty batch is not sent. */
  method FlushBatch(batches0: seq<seq<Bytes>>, batch: seq<Bytes>) returns (batches: seq<seq<Bytes>>)
    ensures Flatten(batches) == Flatten(batches0) + batch
    ensures (forall i :: 0 <= i < |batches0| ==> batches0[i] != []) ==> forall i :: 0 <= i < |batches| ==> batches[i] != []
  {
    if batch == [] {
      return batches0;
    }
    batches := batches0 + [batch];
  }

  /** The cursor runs over the buckets from `from` to `to`; nothing is said if one of them ends inside a message. */
  method PublishRange(parse: Parser, store: Store, s: Schedule, from: nat, to: nat) returns (r: Option<seq<seq<Bytes>>>)
    requires Sorted(store)
    ensures r.Some? <==> Readable(store, from, to)
    ensures r.Some? ==> Flatten(r.value) == Published(parse, store, s, from, to)
    ensures r.Some? ==> forall i :: 0 <= i < |r.value| ==> r.value[i] != []
  {
    hide Chosen, Decode, LowerBound, Flatten, Published, Messages;
    var batches: seq<seq<Bytes>> := [];
    var batch: seq<Bytes> := [];
    var k := LowerBound(store, from);
    var batchBegin := if k < |store| then store[k].timestamp else 0;
    NothingPublished(parse, store[..k], s, from, to);
    EmptyFlat();
    while k < |store| && store[k].timestamp <= to
      invariant k <= |store|
      invariant k < |store| ==> store[k].timestamp >= from
      invariant Readable(store[..k], from, to)
      invariant Flatten(batches) + batch == Published(parse, store[..k], s, from, to)
      invariant forall i :: 0 <= i < |batches| ==> batches[i] != []
    {
      var b := store[k];
      assert b in store;
      var chosen := ReadBucket(parse, b.buffer, s, from, to);
      if chosen.None? {
        return None;
      }
      batch := batch + chosen.value;
      PublishedNext(parse, store, k, s, from, to);
      assert forall x :: x in store[..k + 1] <==> x in store[..k] || x == b;
      if b.timestamp - batchBegin > BATCH_SIZE {
        batches := FlushBatch(batches, batch);
        batch := [];
        batchBegin := b.timestamp;
      }
      k := k + 1;
    }
    batches := FlushBatch(batches, batch);
    LaterUnpublished(parse, store, k, s, from, to);
    LaterReadable(store, k, from, to);
    return Some(batches);
  }

  lemma LaterReadable(store: Store, k: nat, from: nat, to: nat)
    requires k <= |store| && (forall i :: k <= i < |store| ==> store[i].timestamp > to) && Readable(store[..k], from, to)
    ensures Readable(store, from, to)
  {
    hide Decode;
    forall b | b in store && from <= b.timestamp <= to
      ensures Decode(b.buffer, 0).Some?
    {
      var i :| 0 <= i < |store| && store[i] == b;
      assert store[..k][i] == b;
    }
  }

  lemma PublishedNext(parse: Parser, store: Store, k: nat, s: Schedule, from: nat, to: nat)
    requires k < |store|
    ensures Published(parse, store[..k + 1], s, from, to) == Published(parse, store[..k], s, from, to) + BucketPublished(parse, store[k], s, from, to)
  {
    assert store[..k + 1][..k] == store[..k];
  }

  lemma EmptyFlat()
    ensures Flatten([]) == []
  {
  }

  lemma {:induction false} NothingPublished(parse: Parser, store: Store, s: Schedule, from: nat, to: nat)
    requires forall i :: 0 <= i < |store| ==> store[i].timestamp < from || store[i].timestamp > to
    ensures Published(parse, store, s, from, to) == []
  {
    if store != [] {
      NothingPublished(parse, store[..|store| - 1], s, from, to);
    }
  }

  lemma {:induction false} LaterUnpublished(parse: Parser, store: Store, k: nat, s: Schedule, from: nat, to: nat)
    requires k <= |store| && forall i :: k <= i < |store| ==> store[i].timestamp > to
    ensures Published(parse, store, s, from, to) == Published(parse, store[..k], s, from, to)
  {
    var n := |store| - 1;
    if k <= n {
      LaterUnpublished(parse, store[..n], k, s, from, to);
      assert store[..n][..k] == store[..k];
    } else {
      assert store[..k] == store;
    }
  }

  // ----- Where the look-up starts

  /** The smallest entry of the days from d up to last. */
  function SmallestEntry(index: DayIndex, d: int, last: int): Option<nat>
    requires d <= last && (last - d) % DAY == 0
    decreases last - d
  {
    if d == last then None else
      assert last - d >= DAY;
      Lower(At(index, d), SmallestEntry(index, d + DAY, last))
  }

  function MinTimestamp(index: DayIndex, s: Schedule): Option<nat>
    requires s.first <= s.last
  {
    FloorMonotone(s.first, s.last);
    SmallestEntry(index, Floor(s.first), Ceil(s.last))
  }

  method GetMinTimestamp(index: DayIndex, s: Schedule) returns (min: Option<nat>)
    requires ValidSchedule(s)
    ensures min == MinTimestamp(index, s)
  {
    hide Floor, Ceil;
    ScheduleDaysWhole(s);
    min := None;
    var last := Ceil(s.last);
    var d := Floor(s.first);
    while d != last
      invariant d <= last && (last - d) % DAY == 0
      invariant Lower(min, SmallestEntry(index, d, last)) == MinTimestamp(index, s)
      decreases last - d
    {
      if d in index {
        min := if min.Some? && min.value <= index[d] then min else Some(index[d]);
      }
      d := d + DAY;
    }
  }

  lemma ScheduleDaysWhole(s: Schedule)
    requires ValidSchedule(s)
    ensures Floor(s.first) <= Ceil(s.last) && (Ceil(s.last) - Floor(s.first)) % DAY == 0
  {
    FloorMonotone(s.first, s.last);
  }

  lemma {:induction false} EntryBound(index: DayIndex, d: int, last: int, x: int)
    requires d <= x < last && (last - d) % DAY == 0 && (x - d) % DAY == 0 && x in index
    ensures SmallestEntry(index, d, last).Some? && SmallestEntry(index, d, last).value <= index[x]
    decreases last - d
  {
    if x != d {
      EntryBound(index, d + DAY, last, x);
    }
  }

  lemma {:induction false} NoEntry(index: DayIndex, d: int, last: int)
    requires d <= last && (last - d) % DAY == 0 && forall x :: x in DaysBetween(d, last) ==> x !in index
    ensures SmallestEntry(index, d, last) == None
    decreases last - d
  {
    if d != last {
      NoEntry(index, d + DAY, last);
    }
  }

  /** Unless the last event is on a day boundary, no relevant stored message is before the look-up. */
  lemma RelevantNotBefore(parse: Parser, m: Bytes, t: nat, s: Schedule, minDay: DayIndex, maxDay: DayIndex)
    requires ValidSchedule(s) && Floor(s.last) < Ceil(s.last)
    requires Filed(parse, m, t, minDay, maxDay) && Relevant(parse(m).earliest, parse(m).latest, s.first, s.last)
    ensures MinTimestamp(minDay, s).Some? && MinTimestamp(minDay, s).value <= t
  {
    hide Floor, Ceil;
    CommonDay(parse(m).earliest, parse(m).latest, s.first, s.last);
    var d :| d in MessageDays(parse(m).earliest, parse(m).latest) && d in ScheduleDays(s.first, s.last);
    assert Touches(parse(m), d);
    ScheduleDaysWhole(s);
    EntryBound(minDay, Floor(s.first), Ceil(s.last), d);
  }

  // ----- Runs of forward steps

  /** What a forward step publishes, and the clock after it. */
  datatype Effect = Effect(published: seq<Bytes>, systemTime: nat)

  /** The first time that a step publishes: after the clock, and not before the first relevant message. */
  function From(min: nat, systemTime: nat): nat {
    if min < systemTime + 1 then systemTime + 1 else min
  }

  /** Without relevant data the clock stays where it is. */
  function Forward(parse: Parser, store: Store, minDay: DayIndex, s: Schedule, systemTime: nat, to: nat): Effect
    requires s.first <= s.last
  {
    match MinTimestamp(minDay, s)
    case None => Effect([], systemTime)
    case Some(min) => Effect(Published(parse, store, s, From(min, systemTime), to), to)
  }

  /** Forwarding to one point in time after the other. */
  function Run(parse: Parser, store: Store, minDay: DayIndex, s: Schedule, systemTime: nat, times: seq<nat>): Effect
    requires s.first <= s.last
  {
    if times == [] then Effect([], systemTime)
    else
      var before := Run(parse, store, minDay, s, systemTime, times[..|times| - 1]);
      var step := Forward(parse, store, minDay, s, before.systemTime, times[|times| - 1]);
      Effect(before.published + step.published, step.systemTime)
  }

  lemma {:induction false} ChosenNone(parse: Parser, messages: seq<Bytes>, s: Schedule, from: nat, to: nat)
    requires forall m :: m in messages ==> parse(m).timestamp < from || parse(m).timestamp > to
    ensures Chosen(parse, messages, s, from, to) == []
  {
    if messages != [] {
      ChosenNone(parse, messages[1..], s, from, to);
    }
  }

  /** For messages filed under their own timestamp the bounds do not matter, as long as they include it. */
  lemma {:induction false} ChosenWithin(parse: Parser, messages: seq<Bytes>, t: nat, s: Schedule, from: nat, to: nat, from1: nat, to1: nat)
    requires forall m :: m in messages ==> parse(m).timestamp == t
    requires from <= t <= to && from1 <= t <= to1
    ensures Chosen(parse, messages, s, from, to) == Chosen(parse, messages, s, from1, to1)
  {
    if messages != [] {
      assert messages[0] in messages;
      ChosenWithin(parse, messages[1..], t, s, from, to, from1, to1);
    }
  }

  /** Adjacent ranges: what they publish, one after the other, is what the joint range publishes. */
  lemma {:induction false} RangesJoin(parse: Parser, store: Store, s: Schedule, from: nat, middle: nat, to: nat)
    requires Sorted(store) && (forall b :: b in store ==> Keyed(parse, b)) && from <= middle + 1 && middle <= to
    ensures Published(parse, store, s, from, middle) + Published(parse, store, s, middle + 1, to) == Published(parse, store, s, from, to)
  {
    hide Keyed, BucketPublished;
    if store != [] {
      var n := |store| - 1;
      var front, b := store[..n], store[n];
      assert b in store;
      RangesJoin(parse, front, s, from, middle, to);
      BucketSplits(parse, b, s, from, middle, to);
      if b.timestamp <= middle {
        NothingPublished(parse, front, s, middle + 1, to);
      }
    }
  }

  lemma BucketSplits(parse: Parser, b: Bucket, s: Schedule, from: nat, middle: nat, to: nat)
    requires Keyed(parse, b) && from <= middle + 1 && middle <= to
    ensures b.timestamp <= middle ==>
              BucketPublished(parse, b, s, from, middle) == BucketPublished(parse, b, s, from, to) && BucketPublished(parse, b, s, middle + 1, to) == []
    ensures b.timestamp > middle ==>
              BucketPublished(parse, b, s, from, middle) == [] && BucketPublished(parse, b, s, middle + 1, to) == BucketPublished(parse, b, s, from, to)
  {
    hide Chosen, Messages;
    var messages := Messages(b.buffer);
    if from <= b.timestamp <= middle {
      ChosenWithin(parse, messages, b.timestamp, s, from, middle, from, to);
    }
    if middle < b.timestamp <= to {
      ChosenWithin(parse, messages, b.timestamp, s, middle + 1, to, from, to);
    }
  }

  lemma EmptyRange(parse: Parser, store: Store, s: Schedule, from: nat, to: nat)
    requires from > to
    ensures Published(parse, store, s, from, to) == []
  {
    NothingPublished(parse, store, s, from, to);
  }

  /** Two steps forward are one step to the later time. */
  lemma ForwardComposes(parse: Parser, store: Store, minDay: DayIndex, s: Schedule, systemTime: nat, middle: nat, to: nat)
    requires ValidSchedule(s) && Sorted(store) && (forall b :: b in store ==> Keyed(parse, b)) && systemTime <= middle <= to
    ensures var first := Forward(parse, store, minDay, s, systemTime, middle);
            var second := Forward(parse, store, minDay, s, first.systemTime, to);
            Effect(first.published + second.published, second.systemTime) == Forward(parse, store, minDay, s, systemTime, to)
  {
    hide MinTimestamp, Published, Keyed;
    if MinTimestamp(minDay, s).Some? {
      var min := MinTimestamp(minDay, s).value;
      var from := From(min, systemTime);
      if from <= middle + 1 {
        RangesJoin(parse, store, s, from, middle, to);
      } else {
        EmptyRange(parse, store, s, from, middle);
      }
    }
  }

  ghost predicate NonDecreasing(from: nat, times: seq<nat>) {
    (forall i :: 0 <= i < |times| ==> from <= times[i]) && forall i, j :: 0 <= i < j < |times| ==> times[i] <= times[j]
  }

  /** A run of non-decreasing forward steps publishes what a single step to its last time publishes. */
  lemma {:induction false} RunIsOneStep(parse: Parser, store: Store, minDay: DayIndex, s: Schedule, systemTime: nat, times: seq<nat>)
    requires ValidSchedule(s) && Sorted(store) && (forall b :: b in store ==> Keyed(parse, b))
    requires times != [] && NonDecreasing(systemTime, times)
    ensures Run(parse, store, minDay, s, systemTime, times) == Forward(parse, store, minDay, s, systemTime, times[|times| - 1])
  {
    hide Forward, Keyed;
    var n := |times| - 1;
    if n == 0 {
      assert Run(parse, store, minDay, s, systemTime, times[..0]) == Effect([], systemTime);
    } else {
      RunIsOneStep(parse, store, minDay, s, systemTime, times[..n]);
      ForwardComposes(parse, store, minDay, s, systemTime, times[n - 1], times[n]);
      ClockAfter(parse, store, minDay, s, systemTime, times[n - 1]);
    }
  }

  lemma ClockAfter(parse: Parser, store: Store, minDay: DayIndex, s: Schedule, systemTime: nat, to: nat)
    requires ValidSchedule(s)
    ensures Forward(parse, store, minDay, s, systemTime, to).systemTime == if MinTimestamp(minDay, s).None? then systemTime else to
  {
  }

  /** All messages of the store. */
  function Stored(store: Store): seq<Bytes> {
    if store == [] then [] else Stored(store[..|store| - 1]) + Messages(store[|store| - 1].buffer)
  }

  lemma {:induction false} ChosenOnce(parse: Parser, messages: seq<Bytes>, s: Schedule, from: nat, to: nat)
    ensures multiset(Chosen(parse, messages, s, from, to)) <= multiset(messages)
  {
    hide Wanted;
    if messages != [] {
      ChosenOnce(parse, messages[1..], s, from, to);
      assert messages == [messages[0]] + messages[1..];
    }
  }

  /** One step publishes each stored message at most once. */
  lemma {:induction false} PublishedOnce(parse: Parser, store: Store, s: Schedule, from: nat, to: nat)
    ensures multiset(Published(parse, store, s, from, to)) <= multiset(Stored(store))
  {
    hide Chosen, Messages;
    if store != [] {
      var n := |store| - 1;
      PublishedOnce(parse, store[..n], s, from, to);
      ChosenOnce(parse, Messages(store[n].buffer), s, from, to);
    }
  }

  /** A run that never goes back publishes no stored message twice. */
  lemma RunPublishesOnce(parse: Parser, store: Store, minDay: DayIndex, s: Schedule, systemTime: nat, times: seq<nat>)
    requires ValidSchedule(s) && Sorted(store) && (forall b :: b in store ==> Keyed(parse, b)) && NonDecreasing(systemTime, times)
    ensures multiset(Run(parse, store, minDay, s, systemTime, times).published) <= multiset(Stored(store))
  {
    hide Published, Keyed, MinTimestamp, Stored;
    if times != [] {
      RunIsOneStep(parse, store, minDay, s, systemTime, times);
      if MinTimestamp(minDay, s).Some? {
        var min := MinTimestamp(minDay, s).value;
        PublishedOnce(parse, store, s, From(min, systemTime), times[|times| - 1]);
      }
    }
  }

  // ----- How often a message is published, in any run

  /** The step to `to` publishes messages with timestamp t. */
  predicate InStep(min: nat, systemTime: nat, to: nat, t: nat) {
    From(min, systemTime) <= t <= to
  }

  /** How many steps of a run publish messages with timestamp t: the clock of each step is the time of the one before. */
  function StepsOver(min: nat, systemTime: nat, times: seq<nat>, t: nat): nat {
    if times == [] then 0
    else
      var n := |times| - 1;
      StepsOver(min, systemTime, times[..n], t) + (if InStep(min, if n == 0 then systemTime else times[n - 1], times[n], t) then 1 else 0)
  }

  /** The k-th step of a run goes over t. */
  predicate GoesOver(min: nat, systemTime: nat, times: seq<nat>, k: nat, t: nat)
    requires k < |times|
  {
    InStep(min, if k == 0 then systemTime else times[k - 1], times[k], t)
  }

  lemma {:induction false} SomeStepOver(min: nat, systemTime: nat, times: seq<nat>, t: nat)
    ensures StepsOver(min, systemTime, times, t) > 0 <==> exists k: nat :: k < |times| && GoesOver(min, systemTime, times, k, t)
  {
    hide InStep;
    if times != [] {
      var n := |times| - 1;
      SomeStepOver(min, systemTime, times[..n], t);
      forall k: nat | k < n
        ensures GoesOver(min, systemTime, times[..n], k, t) == GoesOver(min, systemTime, times, k, t)
      {
      }
      assert GoesOver(min, systemTime, times, n, t) == InStep(min, if n == 0 then systemTime else times[n - 1], times[n], t);
    }
  }

  /** At most one step goes over any point in time if and only if the intervals between the clock and the steps are disjoint. */
  lemma {:induction false} OneStepOverIff(min: nat, systemTime: nat, times: seq<nat>, t: nat)
    ensures StepsOver(min, systemTime, times, t) <= 1 <==>
            forall i: nat, k: nat :: i < k < |times| ==> !(GoesOver(min, systemTime, times, i, t) && GoesOver(min, systemTime, times, k, t))
  {
    hide InStep;
    if times != [] {
      var n := |times| - 1;
      OneStepOverIff(min, systemTime, times[..n], t);
      SomeStepOver(min, systemTime, times[..n], t);
      forall k: nat | k < n
        ensures GoesOver(min, systemTime, times[..n], k, t) == GoesOver(min, systemTime, times, k, t)
      {
      }
      assert GoesOver(min, systemTime, times, n, t) == InStep(min, if n == 0 then systemTime else times[n - 1], times[n], t);
    }
  }

  predicate RelevantMessage(parse: Parser, m: Bytes, s: Schedule) {
    Relevant(parse(m).earliest, parse(m).latest, s.first, s.last)
  }

  lemma {:induction false} ChosenCount(parse: Parser, messages: seq<Bytes>, s: Schedule, from: nat, to: nat, m: Bytes)
    ensures multiset(Chosen(parse, messages, s, from, to))[m] == if Wanted(parse(m), s, from, to) then multiset(messages)[m] else 0
  {
    hide Wanted;
    if messages != [] {
      ChosenCount(parse, messages[1..], s, from, to, m);
      assert messages == [messages[0]] + messages[1..];
    }
  }

  lemma BucketCount(parse: Parser, b: Bucket, s: Schedule, from: nat, to: nat, m: Bytes)
    requires Keyed(parse, b)
    ensures multiset(BucketPublished(parse, b, s, from, to))[m] == if Wanted(parse(m), s, from, to) then multiset(Messages(b.buffer))[m] else 0
  {
    hide Chosen, Messages;
    ChosenCount(parse, Messages(b.buffer), s, from, to, m);
    if m in Messages(b.buffer) {
      assert parse(m).timestamp == b.timestamp;
    }
  }

  lemma {:induction false} RangeCount(parse: Parser, store: Store, s: Schedule, from: nat, to: nat, m: Bytes)
    requires forall b :: b in store ==> Keyed(parse, b)
    ensures multiset(Published(parse, store, s, from, to))[m] == if Wanted(parse(m), s, from, to) then multiset(Stored(store))[m] else 0
  {
    hide Keyed, BucketPublished, Messages, Wanted;
    if store != [] {
      var n := |store| - 1;
      assert store[n] in store;
      RangeCount(parse, store[..n], s, from, to, m);
      BucketCount(parse, store[n], s, from, to, m);
    }
  }

  /** Any run publishes a relevant message as often as it is stored, once for every step over its timestamp. */
  lemma {:induction false} RunCount(parse: Parser, store: Store, minDay: DayIndex, s: Schedule, systemTime: nat, times: seq<nat>, m: Bytes)
    requires ValidSchedule(s) && (forall b :: b in store ==> Keyed(parse, b)) && MinTimestamp(minDay, s).Some?
    ensures Run(parse, store, minDay, s, systemTime, times).systemTime == if times == [] then systemTime else times[|times| - 1]
    ensures multiset(Run(parse, store, minDay, s, systemTime, times).published)[m] ==
            if RelevantMessage(parse, m, s)
            then StepsOver(MinTimestamp(minDay, s).value, systemTime, times, parse(m).timestamp) * multiset(Stored(store))[m]
            else 0
  {
    hide *;
    ScheduleOrder(s);
    var min := MinTimestamp(minDay, s).value;
    if times == [] {
      NothingRun(parse, store, minDay, s, systemTime, min, parse(m).timestamp);
    } else {
      var n := |times| - 1;
      var clock := if n == 0 then systemTime else times[n - 1];
      RunCount(parse, store, minDay, s, systemTime, times[..n], m);
      StepCount(parse, store, minDay, s, clock, times[n], m);
      RunSplits(parse, store, minDay, s, systemTime, times);
      StepsOverSplits(min, systemTime, times, parse(m).timestamp);
      OneMore(StepsOver(min, systemTime, times[..n], parse(m).timestamp), multiset(Stored(store))[m]);
    }
  }

  lemma NothingRun(parse: Parser, store: Store, minDay: DayIndex, s: Schedule, systemTime: nat, min: nat, t: nat)
    requires s.first <= s.last
    ensures Run(parse, store, minDay, s, systemTime, []) == Effect([], systemTime) && StepsOver(min, systemTime, [], t) == 0
  {
  }

  lemma ScheduleOrder(s: Schedule)
    requires ValidSchedule(s)
    ensures s.first <= s.last
  {
  }

  lemma RunSplits(parse: Parser, store: Store, minDay: DayIndex, s: Schedule, systemTime: nat, times: seq<nat>)
    requires s.first <= s.last && times != []
    ensures var n := |times| - 1;
            var before := Run(parse, store, minDay, s, systemTime, times[..n]);
            var step := Forward(parse, store, minDay, s, before.systemTime, times[n]);
            Run(parse, store, minDay, s, systemTime, times) == Effect(before.published + step.published, step.systemTime)
  {
    hide Forward;
  }

  lemma StepsOverSplits(min: nat, systemTime: nat, times: seq<nat>, t: nat)
    requires times != []
    ensures var n := |times| - 1;
            var clock := if n == 0 then systemTime else times[n - 1];
            StepsOver(min, systemTime, times, t) == StepsOver(min, systemTime, times[..n], t) + (if InStep(min, clock, times[n], t) then 1 else 0)
  {
  }

  lemma StepCount(parse: Parser, store: Store, minDay: DayIndex, s: Schedule, clock: nat, to: nat, m: Bytes)
    requires ValidSchedule(s) && (forall b :: b in store ==> Keyed(parse, b)) && MinTimestamp(minDay, s).Some?
    ensures Forward(parse, store, minDay, s, clock, to).systemTime == to
    ensures multiset(Forward(parse, store, minDay, s, clock, to).published)[m] ==
            if RelevantMessage(parse, m, s) && InStep(MinTimestamp(minDay, s).value, clock, to, parse(m).timestamp)
            then multiset(Stored(store))[m] else 0
  {
    hide Keyed, MinTimestamp, Published, Stored, From, Relevant;
    RangeCount(parse, store, s, From(MinTimestamp(minDay, s).value, clock), to, m);
  }

  lemma OneMore(steps: nat, copies: nat)
    ensures (steps + 1) * copies == steps * copies + copies
  {
  }

  /** A run publishes no stored message twice if and only if no two of its steps go over the timestamp of a relevant one.
      In particular, steps that do not overlap repeat nothing in any store. */
  lemma RunRepeatsNothingIff(parse: Parser, store: Store, minDay: DayIndex, s: Schedule, systemTime: nat, times: seq<nat>)
    requires ValidSchedule(s) && (forall b :: b in store ==> Keyed(parse, b)) && MinTimestamp(minDay, s).Some?
    ensures multiset(Run(parse, store, minDay, s, systemTime, times).published) <= multiset(Stored(store)) <==>
            forall m :: m in Stored(store) && RelevantMessage(parse, m, s) ==>
              StepsOver(MinTimestamp(minDay, s).value, systemTime, times, parse(m).timestamp) <= 1
  {
    hide Keyed, MinTimestamp, Stored, StepsOver, Run, RelevantMessage;
    var run := multiset(Run(parse, store, minDay, s, systemTime, times).published);
    var all := multiset(Stored(store));
    var min := MinTimestamp(minDay, s).value;
    forall m
      ensures run[m] == if RelevantMessage(parse, m, s) then StepsOver(min, systemTime, times, parse(m).timestamp) * all[m] else 0
      ensures run[m] <= all[m] <==> m !in Stored(store) || !RelevantMessage(parse, m, s) || StepsOver(min, systemTime, times, parse(m).timestamp) <= 1
    {
      RunCount(parse, store, minDay, s, systemTime, times, m);
      assert m in Stored(store) <==> all[m] > 0;
      AtMostOnce(StepsOver(min, systemTime, times, parse(m).timestamp), all[m]);
    }
    assert run <= all <==> forall m :: run[m] <= all[m];
  }

  lemma AtMostOnce(steps: nat, copies: nat)
    ensures steps * copies <= copies <==> copies == 0 || steps <= 1
  {
    if steps > 1 {
      OneMore(steps - 1, copies);
      OneMore(steps - 2, copies);
    }
  }

  // ----- The index hides nothing

  lemma {:induction false} ChosenIrrelevant(parse: Parser, messages: seq<Bytes>, s: Schedule, from: nat, to: nat)
    requires forall m :: m in messages ==> !Relevant(parse(m).earliest, parse(m).latest, s.first, s.last)
    ensures Chosen(parse, messages, s, from, to) == []
  {
    if messages != [] {
      assert messages[0] in messages;
      ChosenIrrelevant(parse, messages[1..], s, from, to);
    }
  }

  ghost predicate RelevantAfter(parse: Parser, b: Bucket, s: Schedule, t: nat) {
    forall m :: m in Messages(b.buffer) && Relevant(parse(m).earliest, parse(m).latest, s.first, s.last) ==> b.timestamp > t
  }

  lemma {:induction false} PublishedIrrelevant(parse: Parser, store: Store, s: Schedule, from: nat, to: nat)
    requires forall b :: b in store ==> RelevantAfter(parse, b, s, to)
    ensures Published(parse, store, s, from, to) == []
  {
    hide Chosen, Relevant, Messages;
    if store != [] {
      var n := |store| - 1;
      var b := store[n];
      assert b in store;
      PublishedIrrelevant(parse, store[..n], s, from, to);
      if from <= b.timestamp <= to {
        ChosenIrrelevant(parse, Messages(b.buffer), s, from, to);
      }
    }
  }

  /** Unless the last schedule event is on a day boundary, a step publishes every relevant stored message after the clock. */
  lemma IndexHidesNothing(parse: Parser, store: Store, minDay: DayIndex, maxDay: DayIndex, s: Schedule, systemTime: nat, to: nat)
    requires ValidSchedule(s) && GoodStore(parse, store, minDay, maxDay) && Floor(s.last) < Ceil(s.last)
    ensures Forward(parse, store, minDay, s, systemTime, to).published == Published(parse, store, s, systemTime + 1, to)
  {
    hide MinTimestamp, Published, Floor, Ceil, Relevant, GoodBucket;
    var min := MinTimestamp(minDay, s);
    if min.None? || min.value > systemTime + 1 {
      var quiet := if min.None? || min.value > to then to else min.value - 1;
      forall b | b in store
        ensures RelevantAfter(parse, b, s, quiet) && Keyed(parse, b)
      {
        RelevantFrom(parse, b, s, minDay, maxDay, quiet);
      }
      PublishedIrrelevant(parse, store, s, systemTime + 1, quiet);
      if min.Some? && min.value <= to {
        RangesJoin(parse, store, s, systemTime + 1, quiet, to);
      } else if min.Some? {
        EmptyRange(parse, store, s, min.value, to);
      }
    }
  }

  lemma RelevantFrom(parse: Parser, b: Bucket, s: Schedule, minDay: DayIndex, maxDay: DayIndex, t: nat)
    requires ValidSchedule(s) && GoodBucket(parse, b, minDay, maxDay) && Floor(s.last) < Ceil(s.last)
    requires MinTimestamp(minDay, s).None? || t < MinTimestamp(minDay, s).value
    ensures RelevantAfter(parse, b, s, t) && Keyed(parse, b)
  {
    hide MinTimestamp, Floor, Ceil, Relevant, Touches, Messages;
    forall m | m in Messages(b.buffer) && Relevant(parse(m).earliest, parse(m).latest, s.first, s.last)
      ensures b.timestamp > t
    {
      RelevantNotBefore(parse, m, b.timestamp, s, minDay, maxDay);
    }
  }

  // ----- A message that is written to an empty store

  /** The store after one message has been written to an empty one. */
  ghost predicate OnlyMessage(parse: Parser, m: Bytes, placed: Batches, store: Store, minDay: DayIndex, maxDay: DayIndex) {
    Written(parse, [m], placed, [], map[], map[], store, minDay, maxDay)
  }

  /** Some day of the message is looked up for the schedule. */
  ghost predicate LookedUp(h: Header, s: Schedule)
    requires s.first <= s.last
  {
    exists d :: Touches(h, d) && d in ScheduleDays(s.first, s.last)
  }

  lemma OneWritten(parse: Parser, m: Bytes, t: nat)
    ensures WrittenAt(parse, [m], t) == if parse(m).timestamp == t then [m] else []
    ensures forall d :: Smallest(parse, [m], d) == Largest(parse, [m], d) == Entry(parse(m), d)
  {
    var input: seq<Bytes> := [m];
    assert input[..0] == [];
    forall d
      ensures Smallest(parse, [m], d) == Largest(parse, [m], d) == Entry(parse(m), d)
    {
      assert Smallest(parse, input[..0], d) == None == Largest(parse, input[..0], d);
    }
  }

  lemma OnlyMessageStore(parse: Parser, m: Bytes, placed: Batches, store: Store, minDay: DayIndex, maxDay: DayIndex)
    requires OnlyMessage(parse, m, placed, store, minDay, maxDay)
    requires |m| < SIZE_LIMIT && parse(m).earliest <= parse(m).latest
    ensures GoodStore(parse, store, minDay, maxDay)
    ensures forall t: nat :: Messages(Lookup(store, t)) == if t == parse(m).timestamp then [m] else []
    ensures forall d :: At(minDay, d) == Entry(parse(m), d)
  {
    hide GoodBucket, WrittenAt, Lookup, Encode, Smallest, Largest, Entry;
    EmptyIsGood(parse);
    WriteKeepsGood(parse, [m], [], placed, store, map[], map[], minDay, maxDay);
    forall t: nat
      ensures Messages(Lookup(store, t)) == if t == parse(m).timestamp then [m] else []
    {
      OneWritten(parse, m, t);
      OneBatch(BatchAt(placed, t), if parse(m).timestamp == t then [m] else []);
      LookupNone([], t);
      DecodeEncode(BatchAt(placed, t));
      assert Lookup(store, t) == Encode(BatchAt(placed, t)) + Lookup([], t);
      assert Lookup(store, t) == Encode(BatchAt(placed, t));
    }
    OneWritten(parse, m, 0);
  }

  lemma EmptyIsGood(parse: Parser)
    ensures GoodStore(parse, [], map[], map[])
  {
  }

  lemma OneBatch(batch: seq<Bytes>, one: seq<Bytes>)
    requires multiset(batch) == multiset(one) && |one| <= 1
    ensures batch == one
  {
    assert |batch| == |multiset(batch)| == |multiset(one)| == |one|;
    if |one| == 1 {
      assert batch[0] in multiset(batch);
    }
  }

  ghost predicate HasBucket(store: Store, t: nat) {
    exists b :: b in store && b.timestamp == t
  }

  /** The buckets before the last one of a sorted store are earlier. */
  lemma HasBucketStep(store: Store, t: nat)
    requires Sorted(store) && store != []
    ensures var n := |store| - 1;
            && Sorted(store[..n])
            && (HasBucket(store, t) <==> HasBucket(store[..n], t) || store[n].timestamp == t)
            && !(HasBucket(store[..n], t) && store[n].timestamp == t)
  {
    var n := |store| - 1;
    assert store == store[..n] + [store[n]];
    forall x | x in store[..n]
      ensures x.timestamp < store[n].timestamp
    {
      var i :| 0 <= i < n && store[i] == x;
    }
  }

  /** What a range publishes if only the buckets at t have messages. */
  lemma {:induction false} PublishedAt(parse: Parser, store: Store, t: nat, m: Bytes, s: Schedule, from: nat, to: nat)
    requires Sorted(store) && forall b :: b in store ==> Messages(b.buffer) == if b.timestamp == t then [m] else []
    ensures Published(parse, store, s, from, to) ==
            if from <= t <= to && HasBucket(store, t) then Chosen(parse, [m], s, from, to) else []
  {
    if store == [] {
      assert !HasBucket(store, t);
    } else {
      hide Messages, Chosen, HasBucket, Sorted;
      var n := |store| - 1;
      HasBucketStep(store, t);
      assert store[n] in store;
      PublishedAt(parse, store[..n], t, m, s, from, to);
      NothingToChoose(parse, s, from, to);
    }
  }

  lemma NothingToChoose(parse: Parser, s: Schedule, from: nat, to: nat)
    ensures Chosen(parse, [], s, from, to) == []
  {
  }

  lemma OnlyMessagePublished(parse: Parser, m: Bytes, placed: Batches, store: Store, minDay: DayIndex, maxDay: DayIndex, s: Schedule, from: nat, to: nat)
    requires OnlyMessage(parse, m, placed, store, minDay, maxDay)
    requires |m| < SIZE_LIMIT && parse(m).earliest <= parse(m).latest
    ensures Published(parse, store, s, from, to) == if Wanted(parse(m), s, from, to) then [m] else []
  {
    hide Lookup, Messages, GoodBucket, OnlyMessage;
    OnlyMessageStore(parse, m, placed, store, minDay, maxDay);
    var t := parse(m).timestamp;
    forall b | b in store
      ensures Messages(b.buffer) == if b.timestamp == t then [m] else []
    {
      LookupIs(store, b);
    }
    BucketExists(store, t);
    PublishedAt(parse, store, t, m, s, from, to);
    ChosenStep(parse, m, [], s, from, to);
    NothingToChoose(parse, s, from, to);
    assert [m] + [] == [m];
  }

  lemma BucketExists(store: Store, t: nat)
    requires Messages(Lookup(store, t)) != []
    ensures HasBucket(store, t)
  {
    if forall b :: b in store ==> b.timestamp != t {
      LookupNone(store, t);
    }
  }

  /** For any parser and any relevant message: once it has been written to an empty store, the steps that pass its timestamp
      publish it if and only if one of its days is looked up. Otherwise no step ever publishes it. */
  lemma WrittenIsPublishedIff(parse: Parser, m: Bytes, placed: Batches, store: Store, minDay: DayIndex, maxDay: DayIndex, s: Schedule)
    requires OnlyMessage(parse, m, placed, store, minDay, maxDay) && ValidSchedule(s)
    requires |m| < SIZE_LIMIT && parse(m).earliest <= parse(m).latest && parse(m).timestamp > 0
    requires Relevant(parse(m).earliest, parse(m).latest, s.first, s.last)
    ensures GoodStore(parse, store, minDay, maxDay)
    ensures LookedUp(parse(m), s) ==> forall systemTime: nat, to: nat :: systemTime < parse(m).timestamp <= to ==>
              Forward(parse, store, minDay, s, systemTime, to).published == [m]
    ensures !LookedUp(parse(m), s) ==> forall systemTime: nat, to: nat :: Forward(parse, store, minDay, s, systemTime, to).published == []
  {
    hide Published, Touches, GoodBucket, OnlyMessage, Relevant;
    OnlyMessageStore(parse, m, placed, store, minDay, maxDay);
    ScheduleDaysWhole(s);
    if d :| Touches(parse(m), d) && d in ScheduleDays(s.first, s.last) {
      assert At(minDay, d) == Some(parse(m).timestamp);
      EntryBound(minDay, Floor(s.first), Ceil(s.last), d);
    } else {
      forall d | d in DaysBetween(Floor(s.first), Ceil(s.last))
        ensures d !in minDay
      {
        assert At(minDay, d) == Entry(parse(m), d);
      }
      NoEntry(minDay, Floor(s.first), Ceil(s.last));
    }
    forall systemTime: nat, to: nat | systemTime < parse(m).timestamp <= to && LookedUp(parse(m), s)
      ensures Forward(parse, store, minDay, s, systemTime, to).published == [m]
    {
      OnlyMessagePublished(parse, m, placed, store, minDay, maxDay, s, From(MinTimestamp(minDay, s).value, systemTime), to);
    }
  }

  /** On a day boundary, every message that touches only the day of the last event is hidden, although it is relevant. */
  lemma BoundaryHides(parse: Parser, m: Bytes, placed: Batches, store: Store, minDay: DayIndex, maxDay: DayIndex, s: Schedule)
    requires OnlyMessage(parse, m, placed, store, minDay, maxDay) && ValidSchedule(s) && Floor(s.last) >= Ceil(s.last)
    requires |m| < SIZE_LIMIT && parse(m).earliest <= parse(m).latest && parse(m).timestamp > 0
    requires Relevant(parse(m).earliest, parse(m).latest, s.first, s.last)
    requires Floor(parse(m).earliest) == Floor(parse(m).latest) == Floor(s.last)
    ensures GoodStore(parse, store, minDay, maxDay)
    ensures forall systemTime: nat, to: nat :: Forward(parse, store, minDay, s, systemTime, to).published == []
    ensures forall from: nat, to: nat :: from <= parse(m).timestamp <= to ==> Published(parse, store, s, from, to) == [m]
  {
    hide Forward, Published, GoodBucket, OnlyMessage, Relevant;
    LastDayNotLookedUp(s);
    assert !LookedUp(parse(m), s) by {
      forall d | Touches(parse(m), d)
        ensures d !in ScheduleDays(s.first, s.last)
      {
        assert d == Floor(s.last);
      }
    }
    WrittenIsPublishedIff(parse, m, placed, store, minDay, maxDay, s);
    forall from: nat, to: nat | from <= parse(m).timestamp <= to
      ensures Published(parse, store, s, from, to) == [m]
    {
      OnlyMessagePublished(parse, m, placed, store, minDay, maxDay, s, from, to);
    }
  }

  lemma LastDayNotLookedUp(s: Schedule)
    requires ValidSchedule(s) && Floor(s.last) >= Ceil(s.last)
    ensures Floor(s.first) <= Ceil(s.last) && (Ceil(s.last) - Floor(s.first)) % DAY == 0
    ensures Floor(s.last) !in DaysBetween(Floor(s.first), Ceil(s.last))
  {
    ScheduleDaysWhole(s);
  }

  // ----- The module

  class Ris {
    const database: Database
    const schedule: Schedule
    var systemTime: nat

    constructor (database: Database, schedule: Schedule)
      ensures this.database == database && this.schedule == schedule && systemTime == 0
    {
      this.database := database;
      this.schedule := schedule;
      systemTime := 0;
    }

    /** Nothing is returned, and nothing said, if a bucket on the way ends inside a message. */
    method ForwardTo(to: nat) returns (r: Option<seq<seq<Bytes>>>)
      requires ValidSchedule(schedule) && Sorted(database.messages)
      modifies this
      ensures r.Some? <==>
              var min := MinTimestamp(database.minDay, schedule);
              min.Some? ==> Readable(database.messages, From(min.value, old(systemTime)), to)
      ensures r.Some? ==> Effect(Flatten(r.value), systemTime) ==
                          Forward(database.parse, database.messages, database.minDay, schedule, old(systemTime), to)
      ensures r.Some? ==> forall i :: 0 <= i < |r.value| ==> r.value[i] != []
      ensures database.Valid() ==> r.Some?
    {
      hide MinTimestamp, Published, Flatten, GoodBucket, Readable, From;
      if database.Valid() {
        GoodIsReadable(database.parse, database.messages, database.minDay, database.maxDay);
      }
      var min := GetMinTimestamp(database.minDay, schedule);
      if min.None? {
        EmptyFlat();
        return Some([]);
      }
      r := PublishRange(database.parse, database.messages, schedule, From(min.value, systemTime), to);
      if r.Some? {
        systemTime := to;
      }
    }
  }

  lemma GoodIsReadable(parse: Parser, store: Store, minDay: DayIndex, maxDay: DayIndex)
    requires GoodStore(parse, store, minDay, maxDay)
    ensures forall from, to :: Readable(store, from, to)
    ensures forall b :: b in store ==> Keyed(parse, b)
  {
    forall b | b in store
      ensures Decode(b.buffer, 0).Some? && Keyed(parse, b)
    {
      assert GoodBucket(parse, b, minDay, maxDay);
      DecodeEncode(Messages(b.buffer));
    }
  }

  /** Going back in time publishes again what has been published before. */
  lemma GoingBackRepeats(parse: Parser, store: Store, minDay: DayIndex, s: Schedule, to: nat)
    requires ValidSchedule(s) && MinTimestamp(minDay, s).Some?
    requires Published(parse, store, s, From(MinTimestamp(minDay, s).value, 0), to) != []
    ensures var once := Forward(parse, store, minDay, s, 0, to).published;
            Run(parse, store, minDay, s, 0, [to, 0, to]).published == once + once
  {
    hide MinTimestamp, Published;
    var t3: seq<nat>, t2: seq<nat>, t1: seq<nat> := [to, 0, to], [to, 0], [to];
    assert t3[..2] == t2 && t2[..1] == t1;
    EmptyRange(parse, store, s, to + 1, 0);
    EmptyRange(parse, store, s, From(MinTimestamp(minDay, s).value, to), 0);
    assert Run(parse, store, minDay, s, 0, t1) == Forward(parse, store, minDay, s, 0, to) by {
      assert Run(parse, store, minDay, s, 0, t1[..0]) == Effect([], 0);
    }
    var once := Forward(parse, store, minDay, s, 0, to).published;
    assert Run(parse, store, minDay, s, 0, t2) == Effect(once, 0);
  }
}
