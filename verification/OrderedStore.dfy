/** The key-value store of messages: buckets in ascending order of their timestamps, with the cursor operations that
    the program uses. */
module OrderedStore {
  import opened RisCodec

  datatype Bucket = Bucket(timestamp: nat, buffer: Bytes)

  type Store = seq<Bucket>

  ghost predicate Sorted(store: Store) {
    forall i, j :: 0 <= i < j < |store| ==> store[i].timestamp < store[j].timestamp
  }

  /** The position of the first bucket at or after t. */
  function LowerBound(store: Store, t: nat): (k: nat)
    ensures k <= |store|
    ensures forall i :: 0 <= i < k ==> store[i].timestamp < t
    ensures k < |store| ==> store[k].timestamp >= t
  {
    if store == [] || store[0].timestamp >= t then 0 else 1 + LowerBound(store[1..], t)
  }

  function Lookup(store: Store, t: nat): Bytes {
    var k := LowerBound(store, t);
    if k < |store| && store[k].timestamp == t then store[k].buffer else []
  }

  /** Writes the bucket for t. */
  function Put(store: Store, t: nat, buffer: Bytes): (result: Store) {
    var k := LowerBound(store, t);
    if k < |store| && store[k].timestamp == t then store[k := Bucket(t, buffer)]
    else store[..k] + [Bucket(t, buffer)] + store[k..]
  }

  lemma LookupMember(store: Store, i: nat)
    requires Sorted(store) && i < |store|
    ensures Lookup(store, store[i].timestamp) == store[i].buffer
  {
    var k := LowerBound(store, store[i].timestamp);
    assert k <= i;
  }

  lemma PutSorted(store: Store, t: nat, buffer: Bytes)
    requires Sorted(store)
    ensures Sorted(Put(store, t, buffer))
    ensures forall b :: b in Put(store, t, buffer) <==> b == Bucket(t, buffer) || (b in store && b.timestamp != t)
  {
    hide LowerBound;
    var k := LowerBound(store, t);
    if k < |store| && store[k].timestamp == t {
      ReplaceSorted(store, k, buffer);
    } else {
      InsertSorted(store, k, Bucket(t, buffer));
    }
  }

  lemma ReplaceSorted(store: Store, k: nat, buffer: Bytes)
    requires Sorted(store) && k < |store|
    ensures Sorted(store[k := Bucket(store[k].timestamp, buffer)])
    ensures forall b :: b in store[k := Bucket(store[k].timestamp, buffer)] <==>
                          b == Bucket(store[k].timestamp, buffer) || (b in store && b.timestamp != store[k].timestamp)
  {
    var t := store[k].timestamp;
    var result := store[k := Bucket(t, buffer)];
    forall b | b in store && b.timestamp != t
      ensures b in result
    {
      var i :| 0 <= i < |store| && store[i] == b;
      assert result[i] == b;
    }
    assert result[k] == Bucket(t, buffer);
  }

  lemma InsertSorted(store: Store, k: nat, n: Bucket)
    requires Sorted(store) && k <= |store|
    requires forall i :: 0 <= i < k ==> store[i].timestamp < n.timestamp
    requires k < |store| ==> n.timestamp < store[k].timestamp
    ensures Sorted(store[..k] + [n] + store[k..])
    ensures forall b :: b in store[..k] + [n] + store[k..] <==> b == n || (b in store && b.timestamp != n.timestamp)
  {
    var front, tail := store[..k], store[k..];
    Halves(store, k, n);
    hide Sorted;
    SortedJoin(front, n, tail);
    assert store == front + tail;
  }

  lemma Halves(store: Store, k: nat, n: Bucket)
    requires Sorted(store) && k <= |store|
    requires forall i :: 0 <= i < k ==> store[i].timestamp < n.timestamp
    requires k < |store| ==> n.timestamp < store[k].timestamp
    ensures Sorted(store[..k]) && Sorted(store[k..])
    ensures forall b :: b in store[..k] ==> b.timestamp < n.timestamp
    ensures forall b :: b in store[k..] ==> b.timestamp > n.timestamp
  {
    forall b | b in store[k..]
      ensures b.timestamp > n.timestamp
    {
      var i :| k <= i < |store| && store[i] == b;
      assert i > k ==> store[k].timestamp < store[i].timestamp;
    }
  }

  lemma SortedJoin(front: Store, n: Bucket, tail: Store)
    requires Sorted(front) && Sorted(tail)
    requires forall b :: b in front ==> b.timestamp < n.timestamp
    requires forall b :: b in tail ==> b.timestamp > n.timestamp
    ensures Sorted(front + [n] + tail)
  {
    assert forall i :: 0 <= i < |front| ==> front[i] in front;
    assert forall i :: 0 <= i < |tail| ==> tail[i] in tail;
  }

  /** In a sorted store a bucket is found under its timestamp. */
  lemma LookupIs(store: Store, b: Bucket)
    requires Sorted(store) && b in store
    ensures Lookup(store, b.timestamp) == b.buffer
  {
    var i :| 0 <= i < |store| && store[i] == b;
    LookupMember(store, i);
  }

  lemma LookupNone(store: Store, t: nat)
    requires forall b :: b in store ==> b.timestamp != t
    ensures Lookup(store, t) == []
  {
    var k := LowerBound(store, t);
    assert k < |store| ==> store[k] in store;
  }

  lemma LookupPut(store: Store, t: nat, buffer: Bytes, u: nat)
    requires Sorted(store)
    ensures Lookup(Put(store, t, buffer), u) == if u == t then buffer else Lookup(store, u)
  {
    hide LowerBound, Put, Lookup;
    PutSorted(store, t, buffer);
    var after := Put(store, t, buffer);
    if u == t {
      LookupIs(after, Bucket(t, buffer));
    } else if b :| b in store && b.timestamp == u {
      LookupIs(store, b);
      LookupIs(after, b);
    } else {
      LookupNone(store, u);
      LookupNone(after, u);
    }
  }

  /** The buckets after t. */
  function After(store: Store, t: nat): Store {
    if store == [] then []
    else
      var b := store[|store| - 1];
      After(store[..|store| - 1], t) + (if b.timestamp > t then [b] else [])
  }

  lemma {:induction false} AfterMembers(store: Store, t: nat)
    requires Sorted(store)
    ensures Sorted(After(store, t))
    ensures forall b :: b in After(store, t) <==> b in store && b.timestamp > t
  {
    if store != [] {
      var n := |store| - 1;
      AfterMembers(store[..n], t);
      var front := After(store[..n], t);
      assert store == store[..n] + [store[n]];
      forall b | b in front
        ensures b.timestamp < store[n].timestamp
      {
        var i :| 0 <= i < n && store[..n][i] == b;
      }
      assert forall i :: 0 <= i < |front| ==> front[i] in front;
    }
  }
}
