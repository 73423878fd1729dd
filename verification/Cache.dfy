/**
 The answer cache as it is kept: a map of the answers, the keys in the order they were put in, and
 a count of bytes. A lookup that meets an expired answer takes it out of the map and leaves its key
 in the order, so the order may hold keys of nothing; what makes that harmless is time, since
 whatever is ahead of such a key was put in before it and has expired too.
 */
module Cache {
  import opened Wrappers
  import opened TimedMap

  const U64_MAX: nat := 0xFFFF_FFFF_FFFF_FFFF

  datatype Entry = Entry(held: Held, made: nat)

  /** The sum of two 64-bit counts, which starts again from zero past the last of them. */
  function Wrapped(a: nat, b: nat): nat
    requires a <= U64_MAX && b <= U64_MAX
  {
    if a + b <= U64_MAX then a + b else a + b - (U64_MAX + 1)
  }

  function SaturatingSub(a: nat, b: nat): nat {
    if a < b then 0 else a - b
  }

  /** The answers held, in the order of their keys. */
  function Listed(order: seq<Asked>, entries: map<Asked, Entry>): seq<Item> {
    if order == [] then []
    else
      (if order[0] in entries then [Item(order[0], entries[order[0]].held, entries[order[0]].made)] else [])
      + Listed(order[1..], entries)
  }

  predicate NoDuplicates(order: seq<Asked>) {
    forall i, j :: 0 <= i < j < |order| ==> order[i] != order[j]
  }

  /**
   The map, the order and the times every key in the order was last put in: a held key is in the
   order, the order is that of time, and a key of nothing has expired.
   */
  ghost predicate Consistent(b: Bounds, order: seq<Asked>, entries: map<Asked, Entry>, stamps: map<Asked, nat>,
                             now: nat)
  {
    && NoDuplicates(order)
    && (forall key :: key in entries ==> key in order)
    && (forall key :: key in order ==> key in stamps && stamps[key] <= now)
    && (forall key :: key in order && key in entries ==> entries[key].made == stamps[key])
    && InTime(order, stamps)
    && (forall key :: key in order && key !in entries ==> Elapsed(now, stamps[key]) >= b.ttl)
  }

  class Answers {
    const bounds: Bounds
    var entries: map<Asked, Entry>
    var order: seq<Asked>
    var bytes: nat
    /** The clock as last read. */
    var now: nat
    ghost var stamps: map<Asked, nat>

    ghost predicate Valid()
      reads this
    {
      && 2 * bounds.capacity <= U64_MAX
      && Consistent(bounds, order, entries, stamps, now)
      && bytes == Bytes(Items()) <= bounds.capacity
    }

    ghost function Items(): seq<Item>
      reads this
    {
      Listed(order, entries)
    }

    constructor (seconds: nat, capacity: nat)
      ensures bounds == Bounds(seconds, capacity) && Items() == []
      ensures 2 * capacity <= U64_MAX ==> Valid()
    {
      bounds := Bounds(seconds, capacity);
      entries, order, bytes, now, stamps := map[], [], 0, 0, map[];
    }

    /** The clock is read, and has not gone back. */
    method Tick() returns (t: nat)
      requires Valid()
      modifies this`now
      ensures Valid() && t == now >= old(now)
    {
      t :| now <= t;
      now := t;
    }

    /** The answer to this request, if one was made recently enough. */
    method Get(asked: Asked) returns (r: Option<Held>)
      requires Valid()
      modifies this
      ensures Valid() && now >= old(now) && order == old(order)
      ensures bounds.On() ==> r == Found(bounds, old(Items()), asked, now)
      ensures bounds.On() ==> Items() == Looked(bounds, old(Items()), asked, now)
      ensures !bounds.On() ==> r.None? && Items() == old(Items())
    {
      if !bounds.On() {
        return None;
      }
      ConsistentFinds(bounds, order, entries, stamps, now, asked);
      if asked !in entries {
        return None;
      }
      var entry := entries[asked];
      var t := Tick();
      if Elapsed(t, entry.made) >= bounds.ttl {
        ConsistentWithout(bounds, order, entries, stamps, now, asked);
        bytes := SaturatingSub(bytes, |entry.held.body|);
        entries := entries - {asked};
        return None;
      }
      return Some(entry.held);
    }

    /** Drop what has expired from the front, and the keys of nothing met on the way. */
    method ForgetExpired()
      requires Valid()
      modifies this
      ensures Valid() && now >= old(now)
      ensures Items() == Fresh(bounds, old(Items()), now)
      ensures NoneStale(order, entries)
    {
      ghost var before := Items();
      while order != []
        invariant Valid() && now >= old(now)
        invariant Fresh(bounds, Items(), now) == Fresh(bounds, before, now)
        decreases |order|
      {
        var key := order[0];
        ghost var earlier, items := now, Items();
        if key !in entries {
          var dropped := ForgetOldest();
        } else {
          var t := Tick();
          FreshLater(bounds, items, earlier, now);
          FreshLater(bounds, before, earlier, now);
          ListedTail(order, entries);
          if Elapsed(t, entries[key].made) >= bounds.ttl {
            var dropped := ForgetOldest();
          } else {
            NothingIsStale(bounds, order, entries, stamps, now);
            return;
          }
        }
      }
    }

    /** Drop the oldest key and its answer, if it still has one; whether there was one to drop. */
    method ForgetOldest() returns (dropped: bool)
      requires Valid()
      modifies this
      ensures Valid() && now == old(now)
      ensures dropped == (old(order) != [])
      ensures dropped ==> order == old(order)[1..] && entries == old(entries) - {old(order)[0]}
      ensures dropped ==> Items() == if old(order)[0] in old(entries) then old(Items())[1..] else old(Items())
      ensures !dropped ==> order == [] && entries == old(entries)
    {
      if order == [] {
        return false;
      }
      var key := order[0];
      ConsistentTail(bounds, order, entries, stamps, now);
      order := order[1..];
      if key in entries {
        bytes := SaturatingSub(bytes, |entries[key].held.body|);
      }
      entries := entries - {key};
      return true;
    }

    /** Keep this answer, unless it is larger than everything the cache may hold. */
    method Insert(asked: Asked, held: Held) returns (ghost looked: nat)
      requires Valid()
      modifies this
      ensures Valid() && old(now) <= looked <= now
      ensures Items() == Inserted(bounds, old(Items()), Item(asked, held, now), looked)
    {
      looked := now;
      if !bounds.On() {
        return;
      }
      var size := |held.body|;
      if size > bounds.capacity {
        return;
      }
      ForgetExpired();
      looked := now;
      MakeRoom(size);
      Put(asked, held, size);
    }

    /** Drop from the front until a body fits; there is always one to drop until it does. */
    method MakeRoom(size: nat)
      requires Valid() && size <= bounds.capacity && NoneStale(order, entries)
      modifies this
      ensures Valid() && now == old(now) && NoneStale(order, entries)
      ensures bytes + size <= bounds.capacity
      ensures Items() == Fitting(bounds, old(Items()), size)
    {
      ghost var before := Items();
      while Wrapped(bytes, size) > bounds.capacity
        invariant Valid() && now == old(now) && NoneStale(order, entries)
        invariant Fitting(bounds, Items(), size) == Fitting(bounds, before, size)
        decreases |order|
      {
        assert order != [];
        ConsistentTail(bounds, order, entries, stamps, now);
        var dropped := ForgetOldest();
        assert dropped;
        if !dropped {
          break;
        }
      }
    }

    /** The answer goes in under its key, behind everything else, in place of the last one. */
    method Put(asked: Asked, held: Held, size: nat)
      requires Valid() && bounds.On() && size == |held.body| && bytes + size <= bounds.capacity
      requires NoneStale(order, entries)
      modifies this
      ensures Valid() && now >= old(now)
      ensures Items() == Without(old(Items()), asked) + [Item(asked, held, now)]
    {
      var t := Tick();
      ConsistentPut(bounds, order, entries, stamps, now, asked, Entry(held, t));
      ListedAfterPut(bounds, order, entries, stamps, now, asked, Entry(held, t));
      ghost var behind := Removed(order, asked) + [asked];
      if asked in entries {
        bytes := SaturatingSub(bytes, |entries[asked].held.body|);
        order := Removed(order, asked);
      }
      entries := entries[asked := Entry(held, t)];
      order := order + [asked];
      bytes := Wrapped(bytes, size);
      stamps := stamps[asked := t];
      assert order == behind;
      assert bytes == Bytes(Listed(behind, entries)) <= bounds.capacity;
      assert Consistent(bounds, behind, entries, stamps, now);
    }
  }

  /** Every key in the order has its answer. */
  predicate NoneStale(order: seq<Asked>, entries: map<Asked, Entry>) {
    forall key :: key in order ==> key in entries
  }

  /** The order past every occurrence of a key. */
  function Removed(order: seq<Asked>, key: Asked): seq<Asked> {
    if order == [] then []
    else (if order[0] == key then [] else [order[0]]) + Removed(order[1..], key)
  }

  // ---- The three parts against the one list ----

  lemma {:induction false} ListedTail(order: seq<Asked>, entries: map<Asked, Entry>)
    requires order != []
    ensures order[0] in entries ==>
              Listed(order, entries) != [] && Listed(order, entries)[1..] == Listed(order[1..], entries)
    ensures order[0] in entries ==>
              Listed(order, entries)[0] == Item(order[0], entries[order[0]].held, entries[order[0]].made)
    ensures order[0] !in entries ==> Listed(order, entries) == Listed(order[1..], entries)
  {
  }

  lemma {:induction false} ListedIgnores(order: seq<Asked>, entries: map<Asked, Entry>, key: Asked)
    requires key !in order
    ensures Listed(order, entries - {key}) == Listed(order, entries)
  {
    if order != [] {
      ListedIgnores(order[1..], entries, key);
    }
  }

  lemma {:induction false} ListedHolds(order: seq<Asked>, entries: map<Asked, Entry>)
    ensures forall i <- Listed(order, entries) ::
              i.key in order && i.key in entries && entries[i.key] == Entry(i.held, i.made)
  {
    if order != [] {
      ListedHolds(order[1..], entries);
    }
  }

  lemma {:induction false} ListedFinds(order: seq<Asked>, entries: map<Asked, Entry>, key: Asked)
    requires key in entries ==> key in order
    ensures Find(Listed(order, entries), key)
         == if key in entries then Some(Item(key, entries[key].held, entries[key].made)) else None
  {
    if order != [] {
      ListedTail(order, entries);
      if order[0] != key || key !in entries {
        ListedFinds(order[1..], entries, key);
      }
    }
  }

  lemma {:induction false} ListedWithout(order: seq<Asked>, entries: map<Asked, Entry>, key: Asked)
    ensures Listed(order, entries - {key}) == Without(Listed(order, entries), key)
  {
    if order != [] {
      ListedWithout(order[1..], entries, key);
      ListedTail(order, entries);
      ListedTail(order, entries - {key});
      var items, rest := Listed(order, entries), Listed(order[1..], entries);
      if order[0] in entries && order[0] != key {
        assert Listed(order, entries - {key}) == [items[0]] + Listed(order[1..], entries - {key});
      }
    }
  }

  lemma {:induction false} ListedIsOrdered(b: Bounds, order: seq<Asked>, entries: map<Asked, Entry>,
                                           stamps: map<Asked, nat>, now: nat)
    requires NoDuplicates(order)
    requires forall key :: key in order ==> key in stamps
    requires forall key :: key in order && key in entries ==> entries[key].made == stamps[key]
    requires InTime(order, stamps)
    ensures Ordered(Listed(order, entries))
  {
    if order != [] {
      ListedIsOrdered(b, order[1..], entries, stamps, now);
      var rest := Listed(order[1..], entries);
      ListedHolds(order[1..], entries);
      forall j | 0 <= j < |rest|
        ensures rest[j].key != order[0] && stamps[order[0]] <= rest[j].made
      {
        assert rest[j] in rest;
        var k :| 0 <= k < |order[1..]| && order[1..][k] == rest[j].key;
        assert order[k + 1] == rest[j].key;
      }
    }
  }

  lemma {:induction false} RemovedKeeps(order: seq<Asked>, key: Asked)
    requires NoDuplicates(order)
    ensures var rest := Removed(order, key);
            && NoDuplicates(rest) && key !in rest
            && (forall k :: k in rest <==> k in order && k != key)
  {
    if order != [] {
      RemovedKeeps(order[1..], key);
      assert order == [order[0]] + order[1..];
      assert order[0] !in order[1..];
    }
  }

  lemma {:induction false} RemovedAbsent(order: seq<Asked>, key: Asked)
    requires key !in order
    ensures Removed(order, key) == order
  {
    if order != [] {
      RemovedAbsent(order[1..], key);
      assert order == [order[0]] + order[1..];
    }
  }

  /** An unexpired answer at the front means that nothing behind it is a key of nothing. */
  lemma {:induction false} NothingIsStale(b: Bounds, order: seq<Asked>, entries: map<Asked, Entry>,
                                          stamps: map<Asked, nat>, now: nat)
    requires Consistent(b, order, entries, stamps, now)
    requires order != [] && order[0] in entries && Elapsed(now, entries[order[0]].made) < b.ttl
    ensures NoneStale(order, entries)
    ensures Fresh(b, Listed(order, entries), now) == Listed(order, entries)
  {
    forall key | key in order
      ensures key in entries
    {
      var j :| 0 <= j < |order| && order[j] == key;
      assert stamps[order[0]] <= stamps[order[j]];
    }
    ListedTail(order, entries);
  }

  // ---- What every change keeps ----

  lemma {:induction false} ConsistentFinds(b: Bounds, order: seq<Asked>, entries: map<Asked, Entry>,
                                           stamps: map<Asked, nat>, now: nat, key: Asked)
    requires Consistent(b, order, entries, stamps, now)
    ensures Find(Listed(order, entries), key)
         == if key in entries then Some(Item(key, entries[key].held, entries[key].made)) else None
  {
    ListedFinds(order, entries, key);
  }

  /** Taking out an expired answer and leaving its key. */
  lemma {:induction false} ConsistentWithout(b: Bounds, order: seq<Asked>, entries: map<Asked, Entry>,
                                             stamps: map<Asked, nat>, now: nat, key: Asked)
    requires Consistent(b, order, entries, stamps, now)
    requires key in entries && Elapsed(now, entries[key].made) >= b.ttl
    ensures Consistent(b, order, entries - {key}, stamps, now)
    ensures Listed(order, entries - {key}) == Without(Listed(order, entries), key)
    ensures Bytes(Listed(order, entries)) == Bytes(Listed(order, entries - {key})) + |entries[key].held.body|
  {
    ListedIsOrdered(b, order, entries, stamps, now);
    ListedWithout(order, entries, key);
    ListedFinds(order, entries, key);
    WithoutKeeps(Listed(order, entries), key);
  }

  /** Taking the front key out, and its answer where it has one. */
  lemma {:induction false} ConsistentTail(b: Bounds, order: seq<Asked>, entries: map<Asked, Entry>,
                                          stamps: map<Asked, nat>, now: nat)
    requires Consistent(b, order, entries, stamps, now) && order != []
    ensures Consistent(b, order[1..], entries - {order[0]}, stamps, now)
    ensures order[0] in entries ==> Listed(order, entries) != []
    ensures Listed(order[1..], entries - {order[0]})
         == if order[0] in entries then Listed(order, entries)[1..] else Listed(order, entries)
    ensures Bytes(Listed(order, entries))
         == Bytes(Listed(order[1..], entries - {order[0]}))
            + if order[0] in entries then |entries[order[0]].held.body| else 0
  {
    ListedTail(order, entries);
    ListedIgnores(order[1..], entries, order[0]);
    assert forall k :: k in order ==> k == order[0] || k in order[1..];
  }

  /** Putting an answer in behind everything else. */
  lemma {:induction false} ConsistentPut(b: Bounds, order: seq<Asked>, entries: map<Asked, Entry>,
                                         stamps: map<Asked, nat>, now: nat, key: Asked, e: Entry)
    requires Consistent(b, order, entries, stamps, now) && NoneStale(order, entries) && e.made == now
    ensures Consistent(b, Removed(order, key) + [key], entries[key := e], stamps[key := now], now)
    ensures key !in entries ==> Removed(order, key) == order
  {
    RemovedKeeps(order, key);
    RemovedIsOrdered(order, stamps, key);
    if key !in entries {
      RemovedAbsent(order, key);
    }
    var rest := Removed(order, key);
    assert forall k :: k in rest + [key] <==> k in rest || k == key;
  }

  /** And what is then held, and its bytes. */
  lemma {:induction false} ListedAfterPut(b: Bounds, order: seq<Asked>, entries: map<Asked, Entry>,
                                          stamps: map<Asked, nat>, now: nat, key: Asked, e: Entry)
    requires Consistent(b, order, entries, stamps, now)
    ensures Listed(Removed(order, key) + [key], entries[key := e])
         == Without(Listed(order, entries), key) + [Item(key, e.held, e.made)]
    ensures Bytes(Listed(Removed(order, key) + [key], entries[key := e]))
         == Bytes(Listed(order, entries)) + |e.held.body| - if key in entries then |entries[key].held.body| else 0
    ensures key in entries ==> |entries[key].held.body| <= Bytes(Listed(order, entries))
  {
    var items, item := Listed(order, entries), Item(key, e.held, e.made);
    ListedIsOrdered(b, order, entries, stamps, now);
    ListedPut(order, entries, key, e);
    ListedFinds(order, entries, key);
    WithoutKeeps(items, key);
    BytesOfSum(Without(items, key), [item]);
    assert [item][1..] == [];
  }

  predicate InTime(order: seq<Asked>, stamps: map<Asked, nat>)
    requires forall key :: key in order ==> key in stamps
  {
    forall i, j :: 0 <= i < j < |order| ==> stamps[order[i]] <= stamps[order[j]]
  }

  lemma {:induction false} RemovedIsOrdered(order: seq<Asked>, stamps: map<Asked, nat>, key: Asked)
    requires NoDuplicates(order) && (forall k :: k in order ==> k in stamps) && InTime(order, stamps)
    ensures (forall k :: k in Removed(order, key) ==> k in stamps) && InTime(Removed(order, key), stamps)
  {
    RemovedKeeps(order, key);
    if order != [] {
      RemovedIsOrdered(order[1..], stamps, key);
      RemovedKeeps(order[1..], key);
      var rest := Removed(order[1..], key);
      if order[0] != key {
        forall j | 0 <= j < |rest|
          ensures stamps[order[0]] <= stamps[rest[j]]
        {
          assert rest[j] in order[1..];
          var k :| 0 <= k < |order[1..]| && order[1..][k] == rest[j];
          assert order[k + 1] == rest[j];
        }
      } else {
        assert Removed(order, key) == rest;
      }
    }
  }

  lemma {:induction false} ListedPut(order: seq<Asked>, entries: map<Asked, Entry>, key: Asked, e: Entry)
    requires NoDuplicates(order)
    ensures Listed(Removed(order, key) + [key], entries[key := e])
         == Without(Listed(order, entries), key) + [Item(key, e.held, e.made)]
  {
    if order == [] {
      assert [key][1..] == [] && Removed(order, key) + [key] == [key];
    } else {
      ListedPut(order[1..], entries, key, e);
      var rest := Removed(order[1..], key) + [key];
      if order[0] == key {
        assert Removed(order, key) + [key] == rest;
      } else {
        assert Removed(order, key) + [key] == [order[0]] + rest;
        assert ([order[0]] + rest)[1..] == rest;
      }
      ListedTail(order, entries);
    }
  }

  /** The sums formed never overflow if and only if twice the capacity fits. */
  lemma {:induction false} SumsFitExactlyBelowHalf(capacity: nat)
    requires capacity <= U64_MAX
    ensures (forall bytes: nat, size: nat | bytes <= capacity && size <= capacity ::
               Wrapped(bytes, size) == bytes + size)
            <==> 2 * capacity <= U64_MAX
  {
    if 2 * capacity > U64_MAX {
      assert Wrapped(capacity, capacity) <= U64_MAX;
    }
  }
}
