/** Writing real-time messages to the store, and purging it. */
module RisDatabase {
  import opened RisCodec
  import opened OrderedStore
  import opened RisIndex

  /** More messages than this are not buffered before they are written to the store. */
  const WRITE_BUFFER_MAX: nat := 50000

  /** The messages with timestamp t, in order. */
  function WrittenAt(parse: Parser, input: seq<Bytes>, t: nat): seq<Bytes> {
    if input == [] then []
    else
      var n := |input| - 1;
      WrittenAt(parse, input[..n], t) + (if parse(input[n]).timestamp == t then [input[n]] else [])
  }

  /** What a run of flushes has put in front of a bucket. */
  type Batches = map<nat, seq<Bytes>>

  function BatchAt(batches: Batches, t: nat): seq<Bytes> {
    if t in batches then batches[t] else []
  }

  /** Every bucket has grown at its front, by the encoded messages of its batch. */
  ghost predicate Prepended(before: Store, batches: Batches, after: Store) {
    Sorted(after) && forall t: nat :: Lookup(after, t) == Encode(BatchAt(batches, t)) + Lookup(before, t)
  }

  ghost predicate Holds(buffer: Store, batches: Batches) {
    Sorted(buffer) && forall t: nat :: Lookup(buffer, t) == Encode(BatchAt(batches, t))
  }

  /** Together the batches hold the messages of the input, each one once. */
  ghost predicate Accounted(parse: Parser, input: seq<Bytes>, placed: Batches, pending: Batches) {
    forall t: nat :: multiset(BatchAt(placed, t)) + multiset(BatchAt(pending, t)) == multiset(WrittenAt(parse, input, t))
  }

  /** The batches hold the messages in the order of the input. */
  ghost predicate InInputOrder(parse: Parser, input: seq<Bytes>, batches: Batches) {
    forall t: nat :: BatchAt(batches, t) == WrittenAt(parse, input, t)
  }

  function Stack(pending: Batches, placed: Batches): Batches {
    map t | t in pending.Keys + placed.Keys :: BatchAt(pending, t) + BatchAt(placed, t)
  }

  lemma StackAt(pending: Batches, placed: Batches, t: nat)
    ensures BatchAt(Stack(pending, placed), t) == BatchAt(pending, t) + BatchAt(placed, t)
  {
  }

  lemma AccountedStacked(parse: Parser, input: seq<Bytes>, placed: Batches, pending: Batches)
    requires Accounted(parse, input, placed, pending)
    ensures Accounted(parse, input, Stack(pending, placed), map[])
  {
    hide WrittenAt, Stack;
    forall t: nat
      ensures multiset(BatchAt(Stack(pending, placed), t)) + multiset(BatchAt(map[], t)) == multiset(WrittenAt(parse, input, t))
    {
      StackAt(pending, placed, t);
    }
  }

  lemma PrependedTwice(before: Store, placed: Batches, middle: Store, pending: Batches, after: Store)
    requires Prepended(before, placed, middle) && Prepended(middle, pending, after)
    ensures Prepended(before, Stack(pending, placed), after)
  {
    hide Lookup, Stack;
    forall t: nat
      ensures Lookup(after, t) == Encode(BatchAt(Stack(pending, placed), t)) + Lookup(before, t)
    {
      StackAt(pending, placed, t);
      EncodeAppends(BatchAt(pending, t), BatchAt(placed, t));
      assert Lookup(middle, t) == Encode(BatchAt(placed, t)) + Lookup(before, t);
    }
  }

  /** Writes the buffered bytes in front of what the store holds under the same timestamps. */
  method FlushToDb(buffer: Store, store0: Store, ghost pending: Batches) returns (store: Store)
    requires Sorted(store0) && Holds(buffer, pending)
    ensures Prepended(store0, pending, store)
  {
    hide Lookup, Put;
    store := store0;
    forall t: nat
      ensures Lookup(buffer[..0], t) == []
    {
      LookupNone(buffer[..0], t);
    }
    for i := 0 to |buffer|
      invariant Sorted(store)
      invariant forall t: nat :: Lookup(store, t) == Lookup(buffer[..i], t) + Lookup(store0, t)
    {
      var t := buffer[i].timestamp;
      PrefixLookup(buffer, i);
      ghost var before := store;
      var entry := buffer[i].buffer + Lookup(store, t);
      store := Put(store, t, entry);
      PutSorted(before, t, entry);
      forall u: nat
        ensures Lookup(store, u) == Lookup(buffer[..i + 1], u) + Lookup(store0, u)
      {
        LookupPut(before, t, entry, u);
      }
    }
    assert buffer[..|buffer|] == buffer;
  }

  lemma PrefixLookup(buffer: Store, i: nat)
    requires Sorted(buffer) && i < |buffer|
    ensures Lookup(buffer[..i], buffer[i].timestamp) == []
    ensures forall u: nat :: Lookup(buffer[..i + 1], u) == if u == buffer[i].timestamp then buffer[i].buffer else Lookup(buffer[..i], u)
  {
    hide Lookup;
    var front, more := buffer[..i], buffer[..i + 1];
    LookupNone(front, buffer[i].timestamp);
    forall u: nat
      ensures Lookup(more, u) == if u == buffer[i].timestamp then buffer[i].buffer else Lookup(front, u)
    {
      if u == buffer[i].timestamp {
        assert more[i] == buffer[i];
        LookupIs(more, buffer[i]);
      } else if b :| b in front && b.timestamp == u {
        LookupIs(front, b);
        LookupIs(more, b);
      } else {
        LookupNone(front, u);
        LookupNone(more, u);
      }
    }
  }

  /** Appends one message to the buffer. */
  method BufferMessage(message: Bytes, t: nat, buffer0: Store) returns (buffer: Store)
    requires Sorted(buffer0)
    ensures Sorted(buffer)
    ensures forall u: nat :: Lookup(buffer, u) == if u == t then Lookup(buffer0, t) + Frame(message) else Lookup(buffer0, u)
  {
    hide Lookup, Put, Frame;
    var entry := Lookup(buffer0, t) + Frame(message);
    buffer := Put(buffer0, t, entry);
    PutSorted(buffer0, t, entry);
    forall u: nat
      ensures Lookup(buffer, u) == if u == t then entry else Lookup(buffer0, u)
    {
      LookupPut(buffer0, t, entry, u);
    }
  }

  /** The batches after a message has been buffered. */
  function WithMessage(pending: Batches, message: Bytes, t: nat): Batches {
    pending[t := BatchAt(pending, t) + [message]]
  }

  lemma HoldsNext(buffer0: Store, pending: Batches, message: Bytes, t: nat, buffer: Store)
    requires Holds(buffer0, pending) && Sorted(buffer)
    requires forall u: nat :: Lookup(buffer, u) == if u == t then Lookup(buffer0, t) + Frame(message) else Lookup(buffer0, u)
    ensures Holds(buffer, WithMessage(pending, message, t))
    ensures forall u: nat :: BatchAt(WithMessage(pending, message, t), u) == BatchAt(pending, u) + (if u == t then [message] else [])
  {
    hide Lookup, Encode, Frame;
    EncodeAppends(BatchAt(pending, t), [message]);
    EncodeOne(message);
  }

  lemma AccountedNext(parse: Parser, input: seq<Bytes>, k: nat, placed: Batches, before: Batches, pending: Batches)
    requires k < |input| && Accounted(parse, input[..k], placed, before)
    requires forall u: nat :: BatchAt(pending, u) == BatchAt(before, u) + (if u == parse(input[k]).timestamp then [input[k]] else [])
    ensures Accounted(parse, input[..k + 1], placed, pending)
  {
    hide BatchAt;
    var more := input[..k + 1];
    assert more[..k] == input[..k] && more[k] == input[k];
    forall t: nat
      ensures multiset(BatchAt(placed, t)) + multiset(BatchAt(pending, t)) == multiset(WrittenAt(parse, more, t))
    {
      assert multiset(BatchAt(placed, t)) + multiset(BatchAt(before, t)) == multiset(WrittenAt(parse, input[..k], t));
    }
  }

  /** Buffers the messages one by one, and writes the buffer to the store whenever it has grown too large. */
  method CollectMessages(parse: Parser, input: seq<Bytes>, store0: Store)
    returns (store: Store, min: DayIndex, max: DayIndex, ghost placed: Batches)
    requires Sorted(store0) && Dated(parse, input)
    ensures Prepended(store0, placed, store)
    ensures forall t: nat :: multiset(BatchAt(placed, t)) == multiset(WrittenAt(parse, input, t))
    ensures |input| <= WRITE_BUFFER_MAX + 1 ==> InInputOrder(parse, input, placed)
    ensures forall d :: At(min, d) == Smallest(parse, input, d)
    ensures forall d :: At(max, d) == Largest(parse, input, d)
  {
    hide Lookup, Prepended, Accounted, At, Touches, Lower, Higher, Entry, Stack, WithMessage, BatchAt, InInputOrder;
    store, min, max, placed := store0, map[], map[], map[];
    var buffer: Store := [];
    ghost var pending: Batches := map[];
    var count := 0;
    NothingYet(parse, store0);
    for k := 0 to |input|
      invariant Holds(buffer, pending) && Prepended(store0, placed, store) && Accounted(parse, input[..k], placed, pending)
      invariant Sorted(store)
      invariant k <= WRITE_BUFFER_MAX + 1 ==> count == k && placed == map[] && InInputOrder(parse, input[..k], pending)
      invariant forall d :: At(min, d) == Smallest(parse, input[..k], d)
      invariant forall d :: At(max, d) == Largest(parse, input[..k], d)
    {
      var full := count > WRITE_BUFFER_MAX;
      count := count + 1;
      if full {
        store, placed := FlushAll(parse, input[..k], buffer, store0, store, placed, pending);
        buffer, pending := [], map[];
        count := 0;
      }
      var header := parse(input[k]);
      ghost var buffered, before := buffer, pending;
      buffer := BufferMessage(input[k], header.timestamp, buffer);
      HoldsNext(buffered, before, input[k], header.timestamp, buffer);
      pending := WithMessage(before, input[k], header.timestamp);
      AccountedNext(parse, input, k, placed, before, pending);
      OrderNext(parse, input, k, before, pending);
      min, max := IndexMessage(header, min, max);
      ExtremesNext(parse, input, k);
    }
    assert input[..|input|] == input;
    OrderKept(parse, input, placed, pending);
    store, placed := FlushAll(parse, input, buffer, store0, store, placed, pending);
    AccountedMeans(parse, input, placed);
  }

  lemma NothingYet(parse: Parser, store0: Store)
    requires Sorted(store0)
    ensures Holds([], map[]) && Prepended(store0, map[], store0) && Accounted(parse, [], map[], map[]) && InInputOrder(parse, [], map[])
    ensures forall d :: At(map[], d) == Smallest(parse, [], d) == Largest(parse, [], d)
  {
    forall t: nat
      ensures Lookup([], t) == []
    {
      LookupNone([], t);
    }
  }

  lemma OrderNext(parse: Parser, input: seq<Bytes>, k: nat, before: Batches, pending: Batches)
    requires k < |input|
    requires forall u: nat :: BatchAt(pending, u) == BatchAt(before, u) + (if u == parse(input[k]).timestamp then [input[k]] else [])
    ensures InInputOrder(parse, input[..k], before) ==> InInputOrder(parse, input[..k + 1], pending)
  {
    hide BatchAt;
    assert input[..k + 1][..k] == input[..k];
  }

  /** Nothing has been flushed before: the order stays. */
  lemma OrderKept(parse: Parser, input: seq<Bytes>, placed: Batches, pending: Batches)
    ensures placed == map[] && InInputOrder(parse, input, pending) ==> InInputOrder(parse, input, Stack(pending, placed))
  {
    hide WrittenAt;
    forall t: nat
      ensures placed == map[] ==> BatchAt(Stack(pending, placed), t) == BatchAt(pending, t)
    {
      StackAt(pending, placed, t);
    }
  }

  lemma AccountedMeans(parse: Parser, input: seq<Bytes>, placed: Batches)
    requires Accounted(parse, input, placed, map[])
    ensures forall t: nat :: multiset(BatchAt(placed, t)) == multiset(WrittenAt(parse, input, t))
  {
    hide WrittenAt;
    forall t: nat
      ensures multiset(BatchAt(placed, t)) == multiset(WrittenAt(parse, input, t))
    {
      assert multiset(BatchAt(placed, t)) + multiset(BatchAt(map[], t)) == multiset(WrittenAt(parse, input, t));
    }
  }

  lemma ExtremesNext(parse: Parser, input: seq<Bytes>, k: nat)
    requires k < |input|
    ensures forall d :: Smallest(parse, input[..k + 1], d) == Lower(Smallest(parse, input[..k], d), Entry(parse(input[k]), d))
    ensures forall d :: Largest(parse, input[..k + 1], d) == Higher(Largest(parse, input[..k], d), Entry(parse(input[k]), d))
  {
    assert input[..k + 1][..k] == input[..k];
  }

  method FlushAll(ghost parse: Parser, ghost input: seq<Bytes>, buffer: Store, ghost store0: Store, middle: Store,
                  ghost placed0: Batches, ghost pending: Batches)
    returns (store: Store, ghost placed: Batches)
    requires Holds(buffer, pending) && Sorted(middle) && Prepended(store0, placed0, middle)
    requires Accounted(parse, input, placed0, pending)
    ensures Sorted(store) && Prepended(store0, placed, store) && Accounted(parse, input, placed, map[])
    ensures placed == Stack(pending, placed0) && Holds([], map[])
  {
    hide Holds, Accounted, Lookup;
    store := FlushToDb(buffer, middle, pending);
    PrependedTwice(store0, placed0, middle, pending, store);
    AccountedStacked(parse, input, placed0, pending);
    placed := Stack(pending, placed0);
    NothingYet(parse, store);
  }

  // ----- Purging

  /** What a purge leaves. */
  ghost function Purged(store: Store, until: nat): Store {
    if exists b :: b in store && b.timestamp >= until then After(store, until) else store
  }

  lemma {:induction false} AfterSuffix(store: Store, t: nat, c: nat)
    requires c <= |store|
    requires forall i :: 0 <= i < c ==> store[i].timestamp <= t
    requires forall i :: c <= i < |store| ==> store[i].timestamp > t
    ensures After(store, t) == store[c..]
  {
    if store != [] {
      var n := |store| - 1;
      var front := store[..n];
      if c <= n {
        AfterSuffix(front, t, c);
        assert store[c..] == front[c..] + [store[n]];
      } else {
        AfterSuffix(front, t, n);
        assert store[c..] == front[n..];
      }
    }
  }

  /** What one turn of the cursor finds, whether it deletes the bucket or not. */
  lemma CursorStep(store0: Store, cursor: nat, tail: Store)
    requires cursor < |store0|
    ensures var store := store0[..cursor + 1] + tail;
            && store[cursor] == store0[cursor]
            && store[..cursor] + store[cursor + 1..] == store0[..cursor] + tail
            && store == store0[..cursor] + ([store0[cursor]] + tail)
  {
    var front, b := store0[..cursor], store0[cursor];
    assert store0[..cursor + 1] == front + [b];
  }

  /** The cursor moves from position k back to the beginning and deletes every bucket that is not later than `until`. */
  method SweepBack(store0: Store, k: nat, until: nat) returns (store: Store)
    requires k < |store0| && forall i :: 0 <= i < k ==> store0[i].timestamp <= until
    ensures store == store0[if store0[k].timestamp <= until then k + 1 else k..]
  {
    var cursor: int := k;
    store := store0;
    ghost var tail := store0[k + 1..];
    ghost var kept := store0[if store0[k].timestamp <= until then k + 1 else k..];
    assert store0 == store0[..k + 1] + tail;
    assert store0[k].timestamp > until ==> [store0[k]] + tail == kept;
    while cursor >= 0
      invariant -1 <= cursor <= k
      invariant store == store0[..cursor + 1] + tail
      invariant tail == if cursor == k then store0[k + 1..] else kept
      decreases cursor
    {
      CursorStep(store0, cursor, tail);
      if store[cursor].timestamp <= until {
        store := store[..cursor] + store[cursor + 1..];
      } else {
        tail := [store0[cursor]] + tail;
      }
      cursor := cursor - 1;
    }
  }

  /** From the first bucket at or after `until` the cursor moves back to the beginning and deletes what is not later. */
  method PurgeBuckets(store0: Store, until: nat) returns (store: Store)
    requires Sorted(store0)
    ensures store == Purged(store0, until)
  {
    hide After;
    var k := LowerBound(store0, until);
    if k == |store0| {
      return store0;
    }
    assert store0[k] in store0;
    AfterSuffix(store0, until, if store0[k].timestamp <= until then k + 1 else k);
    store := SweepBack(store0, k, until);
  }

  /** Purging removes everything up to `until` if and only if something is stored at or after it, or there is nothing to remove. */
  lemma PurgeDeletesIff(store: Store, until: nat)
    requires Sorted(store)
    ensures Purged(store, until) == After(store, until)
            <==> ((exists b :: b in store && b.timestamp >= until) || store == [])
  {
    AfterMembers(store, until);
    if store != [] {
      assert store[0] in store;
    }
  }

  // ----- The invariant of the store

  function Messages(buffer: Bytes): seq<Bytes> {
    match Decode(buffer, 0)
    case None => []
    case Some(messages) => messages
  }

  /** A message is filed under its own timestamp, and every day that it touches has index entries that include it. */
  ghost predicate Filed(parse: Parser, message: Bytes, t: nat, minDay: DayIndex, maxDay: DayIndex) {
    && parse(message).timestamp == t && parse(message).earliest <= parse(message).latest
    && forall d :: Touches(parse(message), d) ==> d in minDay && minDay[d] <= t && d in maxDay && t <= maxDay[d]
  }

  ghost predicate GoodBucket(parse: Parser, b: Bucket, minDay: DayIndex, maxDay: DayIndex) {
    && Fits(Messages(b.buffer)) && b.buffer == Encode(Messages(b.buffer))
    && forall m :: m in Messages(b.buffer) ==> Filed(parse, m, b.timestamp, minDay, maxDay)
  }

  ghost predicate GoodStore(parse: Parser, store: Store, minDay: DayIndex, maxDay: DayIndex) {
    Sorted(store) && forall b :: b in store ==> GoodBucket(parse, b, minDay, maxDay)
  }

  /** The reader gets the new messages, then the old ones. */
  lemma PrependedReads(batch: seq<Bytes>, tail: Bytes)
    requires Fits(batch) && Fits(Messages(tail)) && tail == Encode(Messages(tail))
    ensures Messages(Encode(batch) + tail) == batch + Messages(tail)
    ensures Fits(batch + Messages(tail)) && Encode(batch) + tail == Encode(batch + Messages(tail))
  {
    EncodeAppends(batch, Messages(tail));
    DecodeEncode(batch + Messages(tail));
  }

  lemma {:induction false} WrittenAtMembers(parse: Parser, input: seq<Bytes>, t: nat)
    ensures forall m :: m in WrittenAt(parse, input, t) ==> m in input && parse(m).timestamp == t
  {
    if input != [] {
      WrittenAtMembers(parse, input[..|input| - 1], t);
    }
  }

  /** Messages of the input are filed once the index has been updated. */
  lemma NewlyFiled(parse: Parser, input: seq<Bytes>, m: Bytes, min0: DayIndex, max0: DayIndex, min1: DayIndex, max1: DayIndex)
    requires m in input && Dated(parse, input)
    requires forall d :: At(min1, d) == Lower(At(min0, d), Smallest(parse, input, d))
    requires forall d :: At(max1, d) == Higher(At(max0, d), Largest(parse, input, d))
    ensures Filed(parse, m, parse(m).timestamp, min1, max1)
  {
    hide Touches, Smallest, Largest;
    var i :| 0 <= i < |input| && input[i] == m;
    forall d | Touches(parse(m), d)
      ensures At(min1, d).Some? && At(min1, d).value <= parse(m).timestamp && At(max1, d).Some? && parse(m).timestamp <= At(max1, d).value
    {
      ExtremesMeaning(parse, input, d);
    }
  }

  lemma StillFiled(parse: Parser, m: Bytes, t: nat, min0: DayIndex, max0: DayIndex, min1: DayIndex, max1: DayIndex)
    requires Filed(parse, m, t, min0, max0) && IndexGrows(min0, max0, min1, max1)
    ensures Filed(parse, m, t, min1, max1)
  {
    hide Touches;
  }

  /** Entries are kept, and only move outwards. */
  ghost predicate IndexGrows(min0: DayIndex, max0: DayIndex, min1: DayIndex, max1: DayIndex) {
    && (forall d :: d in min0 ==> d in min1 && min1[d] <= min0[d])
    && (forall d :: d in max0 ==> d in max1 && max0[d] <= max1[d])
  }

  lemma MergedIndexGrows(parse: Parser, input: seq<Bytes>, min0: DayIndex, max0: DayIndex, min1: DayIndex, max1: DayIndex)
    requires forall d :: At(min1, d) == Lower(At(min0, d), Smallest(parse, input, d))
    requires forall d :: At(max1, d) == Higher(At(max0, d), Largest(parse, input, d))
    ensures IndexGrows(min0, max0, min1, max1)
  {
    hide Smallest, Largest;
    forall d | d in min0
      ensures d in min1 && min1[d] <= min0[d]
    {
      assert At(min1, d) == Lower(At(min0, d), Smallest(parse, input, d));
    }
    forall d | d in max0
      ensures d in max1 && max0[d] <= max1[d]
    {
      assert At(max1, d) == Higher(At(max0, d), Largest(parse, input, d));
    }
  }

  lemma LookupGood(parse: Parser, store: Store, t: nat, minDay: DayIndex, maxDay: DayIndex)
    requires GoodStore(parse, store, minDay, maxDay)
    ensures GoodBucket(parse, Bucket(t, Lookup(store, t)), minDay, maxDay)
  {
    hide GoodBucket, Lookup;
    if b :| b in store && b.timestamp == t {
      LookupIs(store, b);
    } else {
      LookupNone(store, t);
      EmptyGood(parse, t, minDay, maxDay);
    }
  }

  lemma EmptyGood(parse: Parser, t: nat, minDay: DayIndex, maxDay: DayIndex)
    ensures GoodBucket(parse, Bucket(t, []), minDay, maxDay)
  {
  }

  lemma BatchFits(parse: Parser, input: seq<Bytes>, batch: seq<Bytes>, t: nat)
    requires Fits(input) && multiset(batch) == multiset(WrittenAt(parse, input, t))
    ensures Fits(batch) && forall m :: m in batch ==> m in input && parse(m).timestamp == t
  {
    WrittenAtMembers(parse, input, t);
    forall m | m in batch
      ensures m in input && parse(m).timestamp == t
    {
      assert m in multiset(batch);
    }
    forall i | 0 <= i < |batch|
      ensures |batch[i]| < SIZE_LIMIT
    {
      assert batch[i] in batch;
    }
  }

  lemma GrownBucketGood(parse: Parser, input: seq<Bytes>, batch: seq<Bytes>, b: Bucket, min0: DayIndex, max0: DayIndex, min1: DayIndex, max1: DayIndex)
    requires GoodBucket(parse, b, min0, max0) && Fits(input) && Dated(parse, input)
    requires multiset(batch) == multiset(WrittenAt(parse, input, b.timestamp))
    requires forall d :: At(min1, d) == Lower(At(min0, d), Smallest(parse, input, d))
    requires forall d :: At(max1, d) == Higher(At(max0, d), Largest(parse, input, d))
    ensures GoodBucket(parse, Bucket(b.timestamp, Encode(batch) + b.buffer), min1, max1)
    ensures Messages(Encode(batch) + b.buffer) == batch + Messages(b.buffer)
  {
    hide Filed, Messages, Encode, Smallest, Largest, WrittenAt;
    BatchFits(parse, input, batch, b.timestamp);
    PrependedReads(batch, b.buffer);
    MergedIndexGrows(parse, input, min0, max0, min1, max1);
    forall m | m in batch + Messages(b.buffer)
      ensures Filed(parse, m, b.timestamp, min1, max1)
    {
      if m in batch {
        NewlyFiled(parse, input, m, min0, max0, min1, max1);
      } else {
        StillFiled(parse, m, b.timestamp, min0, max0, min1, max1);
      }
    }
  }

  lemma WriteKeepsGood(parse: Parser, input: seq<Bytes>, store0: Store, placed: Batches, store1: Store,
                       min0: DayIndex, max0: DayIndex, min1: DayIndex, max1: DayIndex)
    requires GoodStore(parse, store0, min0, max0) && Written(parse, input, placed, store0, min0, max0, store1, min1, max1)
    requires Fits(input) && Dated(parse, input)
    ensures GoodStore(parse, store1, min1, max1)
  {
    hide GoodBucket, Lookup, Encode, Smallest, Largest, WrittenAt, BatchAt, At;
    forall b | b in store1
      ensures GoodBucket(parse, b, min1, max1)
    {
      var t := b.timestamp;
      LookupIs(store1, b);
      LookupGood(parse, store0, t, min0, max0);
      GrownBucketGood(parse, input, BatchAt(placed, t), Bucket(t, Lookup(store0, t)), min0, max0, min1, max1);
    }
  }

  /** What a write does: every bucket grows at its front by the messages of the input with its timestamp, each once and, if
      they fit the write buffer, in their order; the indexes take in all messages of the input. */
  ghost predicate Written(parse: Parser, input: seq<Bytes>, placed: Batches, store0: Store, min0: DayIndex, max0: DayIndex,
                          store1: Store, min1: DayIndex, max1: DayIndex) {
    && Prepended(store0, placed, store1)
    && (forall t: nat :: multiset(BatchAt(placed, t)) == multiset(WrittenAt(parse, input, t)))
    && (|input| <= WRITE_BUFFER_MAX + 1 ==> InInputOrder(parse, input, placed))
    && (forall d :: At(min1, d) == Lower(At(min0, d), Smallest(parse, input, d)))
    && (forall d :: At(max1, d) == Higher(At(max0, d), Largest(parse, input, d)))
  }

  // ----- The store

  class Database {
    const parse: Parser
    var messages: Store
    var minDay: DayIndex
    var maxDay: DayIndex

    constructor (parse: Parser)
      ensures this.parse == parse && Valid() && messages == []
    {
      this.parse := parse;
      messages := [];
      minDay := map[];
      maxDay := map[];
    }

    ghost predicate Valid()
      reads this
    {
      GoodStore(parse, messages, minDay, maxDay)
    }

    /** The number of intermediate flushes does not matter. If no message exceeds the size prefix, readers get exactly these
        messages, and the index covers them. */
    method WriteToDb(input: seq<Bytes>) returns (ghost placed: Batches)
      requires Sorted(messages) && Dated(parse, input)
      modifies this
      ensures Written(parse, input, placed, old(messages), old(minDay), old(maxDay), messages, minDay, maxDay)
      ensures old(Valid()) && Fits(input) ==> Valid()
    {
      hide Lookup, Holds, Prepended, Accounted, At, Touches, Dated;
      var store: Store, min: DayIndex, max: DayIndex;
      store, min, max, placed := CollectMessages(parse, input, messages);
      var min1 := MergeMin(min, minDay);
      var max1 := MergeMax(max, maxDay);
      if Valid() && Fits(input) {
        WriteKeepsGood(parse, input, messages, placed, store, minDay, maxDay, min1, max1);
      }
      messages, minDay, maxDay := store, min1, max1;
    }

    /** Removes all buckets up to a point in time, provided that there is one at or after it. */
    method Purge(until: nat)
      requires Sorted(messages)
      modifies this
      ensures messages == Purged(old(messages), until)
      ensures minDay == old(minDay) && maxDay == old(maxDay)
      ensures old(Valid()) ==> Valid()
    {
      AfterMembers(messages, until);
      messages := PurgeBuckets(messages, until);
    }
  }
}
