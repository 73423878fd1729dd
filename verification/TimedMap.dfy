/**
 The answer cache as a value: the answers held, oldest first, each with the time it was made. What
 the cache is for is stated here, over whole runs; the class in `Cache` is proved to do this.
 */
module TimedMap {
  import opened Wrappers
  import Splitting

  datatype Asked = Asked(path: string, query: string)

  datatype Counts = Counts(rows: nat, bytesRead: nat)

  datatype Held = Held(body: seq<bv8>, counts: Counts)

  datatype Item = Item(key: Asked, held: Held, made: nat)

  /** The two bounds on what is held. Nothing is, where either is nothing. */
  datatype Bounds = Bounds(ttl: nat, capacity: nat) {
    predicate On() {
      ttl > 0 && capacity > 0
    }
  }

  function Elapsed(now: nat, made: nat): nat {
    if now < made then 0 else now - made
  }

  predicate Expired(b: Bounds, i: Item, now: nat) {
    Elapsed(now, i.made) >= b.ttl
  }

  function Bytes(items: seq<Item>): nat {
    if items == [] then 0 else |items[0].held.body| + Bytes(items[1..])
  }

  predicate Ordered(items: seq<Item>) {
    forall i, j :: 0 <= i < j < |items| ==> items[i].made <= items[j].made && items[i].key != items[j].key
  }

  // ---- The operations ----

  /** Past the ones at the front that have expired. */
  function Fresh(b: Bounds, items: seq<Item>, now: nat): seq<Item> {
    if items != [] && Expired(b, items[0], now) then Fresh(b, items[1..], now) else items
  }

  /** Past as many of the oldest as leave room. */
  function Fitting(b: Bounds, items: seq<Item>, size: nat): seq<Item> {
    if items != [] && Bytes(items) + size > b.capacity then Fitting(b, items[1..], size) else items
  }

  function Without(items: seq<Item>, key: Asked): seq<Item> {
    if items == [] then []
    else (if items[0].key == key then [] else [items[0]]) + Without(items[1..], key)
  }

  predicate Accepts(b: Bounds, held: Held) {
    b.On() && |held.body| <= b.capacity
  }

  /** `now` is when the front was last looked at; the item carries when it was put in. */
  function Inserted(b: Bounds, items: seq<Item>, item: Item, now: nat): seq<Item> {
    if !Accepts(b, item.held) then items
    else Without(Fitting(b, Fresh(b, items, now), |item.held.body|), item.key) + [item]
  }

  function Find(items: seq<Item>, key: Asked): Option<Item> {
    if items == [] then None else if items[0].key == key then Some(items[0]) else Find(items[1..], key)
  }

  function Found(b: Bounds, items: seq<Item>, key: Asked, now: nat): Option<Held> {
    match Find(items, key)
    case Some(item) => if Expired(b, item, now) then None else Some(item.held)
    case None => None
  }

  /** A lookup that meets an expired answer drops it. */
  function Looked(b: Bounds, items: seq<Item>, key: Asked, now: nat): seq<Item> {
    match Find(items, key)
    case Some(item) => if Expired(b, item, now) then Without(items, key) else items
    case None => items
  }

  // ---- Eviction is oldest first and no more than it has to be ----

  lemma {:induction false} FreshIsSuffix(b: Bounds, items: seq<Item>, now: nat)
    requires Ordered(items)
    ensures var unexpired := Fresh(b, items, now);
            && |unexpired| <= |items| && unexpired == items[|items| - |unexpired|..]
            && (forall i :: 0 <= i < |items| - |unexpired| ==> Expired(b, items[i], now))
            && (forall i :: 0 <= i < |unexpired| ==> !Expired(b, unexpired[i], now))
  {
    if items != [] && Expired(b, items[0], now) {
      FreshIsSuffix(b, items[1..], now);
    }
  }

  lemma {:induction false} FittingIsSuffix(b: Bounds, items: seq<Item>, size: nat)
    requires size <= b.capacity
    ensures var kept := Fitting(b, items, size);
            && |kept| <= |items| && kept == items[|items| - |kept|..]
            && Bytes(kept) + size <= b.capacity
            && forall i :: 0 <= i < |items| - |kept| ==> Bytes(items[i..]) + size > b.capacity
  {
    if items != [] && Bytes(items) + size > b.capacity {
      FittingIsSuffix(b, items[1..], size);
      var kept := Fitting(b, items, size);
      forall i | 0 <= i < |items| - |kept|
        ensures Bytes(items[i..]) + size > b.capacity
      {
        if i == 0 {
          assert items[0..] == items;
        } else {
          assert items[i..] == items[1..][i - 1..];
        }
      }
    }
  }

  lemma {:induction false} WithoutHolds(items: seq<Item>, key: Asked)
    ensures forall i :: i in Without(items, key) <==> i in items && i.key != key
  {
    if items != [] {
      WithoutHolds(items[1..], key);
      assert items == [items[0]] + items[1..];
    }
  }

  lemma {:induction false} WithoutKeeps(items: seq<Item>, key: Asked)
    requires Ordered(items)
    ensures Ordered(Without(items, key)) && Find(Without(items, key), key).None?
    ensures Bytes(items) == Bytes(Without(items, key)) + SizeOf(Find(items, key))
  {
    if items != [] {
      var rest := Without(items[1..], key);
      WithoutKeeps(items[1..], key);
      WithoutHolds(items[1..], key);
      if items[0].key == key {
        FindIsIn(items[1..], key);
        WithoutAbsent(items[1..], key);
        assert Without(items, key) == items[1..];
      } else {
        assert ([items[0]] + rest)[1..] == rest;
        forall j | 0 <= j < |rest|
          ensures items[0].made <= rest[j].made && items[0].key != rest[j].key
        {
          assert rest[j] in items[1..];
        }
      }
    }
  }

  function SizeOf(i: Option<Item>): nat {
    match i case Some(item) => |item.held.body| case None => 0
  }

  lemma {:induction false} FindIsIn(items: seq<Item>, key: Asked)
    ensures Find(items, key).Some? ==> Find(items, key).value in items && Find(items, key).value.key == key
    ensures Find(items, key).None? <==> forall i <- items :: i.key != key
  {
    if items != [] {
      FindIsIn(items[1..], key);
      assert items == [items[0]] + items[1..];
    }
  }

  lemma {:induction false} WithoutAbsent(items: seq<Item>, key: Asked)
    requires forall i <- items :: i.key != key
    ensures Without(items, key) == items
  {
    if items != [] {
      WithoutAbsent(items[1..], key);
      assert items == [items[0]] + items[1..];
    }
  }

  lemma {:induction false} BytesOfSum(a: seq<Item>, b: seq<Item>)
    ensures Bytes(a + b) == Bytes(a) + Bytes(b)
  {
    if a == [] {
      assert a + b == b;
    } else {
      assert (a + b)[1..] == a[1..] + b;
      BytesOfSum(a[1..], b);
    }
  }

  /**
   An insertion kept everything from `n` on but the replaced key, and let go what is before `n`
   because it had expired or because it and everything newer, with the new body, were too much.
   */
  predicate KeptFrom(b: Bounds, items: seq<Item>, item: Item, now: nat, n: nat) {
    && n <= |items|
    && Inserted(b, items, item, now) == Without(items[n..], item.key) + [item]
    && forall i :: 0 <= i < n ==> Expired(b, items[i], now) || Bytes(items[i..]) + |item.held.body| > b.capacity
  }

  /** Eviction is oldest first, and no more than it has to be. */
  lemma {:induction false} InsertionIsMinimal(b: Bounds, items: seq<Item>, item: Item, now: nat) returns (n: nat)
    requires Ordered(items) && Accepts(b, item.held)
    ensures KeptFrom(b, items, item, now, n)
  {
    var size := |item.held.body|;
    var unexpired := Fresh(b, items, now);
    FreshIsSuffix(b, items, now);
    FittingIsSuffix(b, unexpired, size);
    DroppedForAReason(b, items, size, now);
    n := |items| - |Fitting(b, unexpired, size)|;
    assert items[n..] == Fitting(b, unexpired, size);
  }

  /** And always enough: what is held stays in order, one answer a key, within the capacity. */
  lemma {:induction false} InsertionFits(b: Bounds, items: seq<Item>, item: Item, now: nat)
    requires Ordered(items) && Accepts(b, item.held) && forall i <- items :: i.made <= item.made
    ensures Ordered(Inserted(b, items, item, now)) && Bytes(Inserted(b, items, item, now)) <= b.capacity
    ensures forall i <- Inserted(b, items, item, now) :: i == item || i in items
  {
    var size := |item.held.body|;
    var kept := Fitting(b, Fresh(b, items, now), size);
    FreshIsSuffix(b, items, now);
    FittingIsSuffix(b, Fresh(b, items, now), size);
    AppendedFits(kept, item);
  }

  lemma {:induction false} AppendedFits(items: seq<Item>, item: Item)
    requires Ordered(items) && forall i <- items :: i.made <= item.made
    ensures Ordered(Without(items, item.key) + [item])
    ensures Bytes(Without(items, item.key) + [item]) <= Bytes(items) + |item.held.body|
    ensures forall i <- Without(items, item.key) + [item] :: i == item || i in items
  {
    assert [item][1..] == [];
    BytesOfSum(Without(items, item.key), [item]);
    WithoutKeeps(items, item.key);
    WithoutHolds(items, item.key);
  }

  lemma {:induction false} DroppedForAReason(b: Bounds, items: seq<Item>, size: nat, now: nat)
    requires Ordered(items) && size <= b.capacity
    ensures var kept := Fitting(b, Fresh(b, items, now), size);
            && |kept| <= |items|
            && forall i :: 0 <= i < |items| - |kept| ==>
                             Expired(b, items[i], now) || Bytes(items[i..]) + size > b.capacity
  {
    var unexpired := Fresh(b, items, now);
    FreshIsSuffix(b, items, now);
    FittingIsSuffix(b, unexpired, size);
    var e := |items| - |unexpired|;
    forall i | e <= i < |items| - |Fitting(b, unexpired, size)|
      ensures Bytes(items[i..]) + size > b.capacity
    {
      assert items[i..] == unexpired[i - e..];
    }
  }

  /** What is put in is found at once where it may be kept, and changes nothing where it may not. */
  lemma {:induction false} InsertedIsFound(b: Bounds, items: seq<Item>, item: Item, now: nat)
    ensures b.ttl > 0 && b.capacity > 0 && |item.held.body| <= b.capacity ==>
              Found(b, Inserted(b, items, item, now), item.key, item.made) == Some(item.held)
    ensures b.ttl == 0 || b.capacity == 0 || |item.held.body| > b.capacity ==>
              Inserted(b, items, item, now) == items
  {
    var kept := Fitting(b, Fresh(b, items, now), |item.held.body|);
    WithoutHolds(kept, item.key);
    FindLast(Without(kept, item.key), item);
  }

  lemma {:induction false} FindLast(items: seq<Item>, item: Item)
    requires forall i <- items :: i.key != item.key
    ensures Find(items + [item], item.key) == Some(item)
  {
    if items != [] {
      assert (items + [item])[1..] == items[1..] + [item];
      FindLast(items[1..], item);
    }
  }

  // ---- Whole runs ----

  /** One call: a lookup at a time, or an insertion whose clock was read twice. */
  datatype Call = Get(key: Asked, at: nat) | Insert(item: Item, looked: nat)

  function Began(c: Call): nat {
    match c case Get(_, at) => at case Insert(_, looked) => looked
  }

  function Ended(c: Call): nat {
    match c case Get(_, at) => at case Insert(item, _) => item.made
  }

  /** The clock never goes back. */
  predicate Timely(calls: seq<Call>, from: nat) {
    calls != [] ==> from <= Began(calls[0]) <= Ended(calls[0]) && Timely(calls[1..], Ended(calls[0]))
  }

  function After(b: Bounds, items: seq<Item>, c: Call): seq<Item> {
    match c
    case Get(key, at) => Looked(b, items, key, at)
    case Insert(item, looked) => Inserted(b, items, item, looked)
  }

  function Run(b: Bounds, items: seq<Item>, calls: seq<Call>): seq<Item>
    decreases |calls|
  {
    if calls == [] then items else Run(b, After(b, items, calls[0]), calls[1..])
  }

  /** What every lookup of a run answers, in order. */
  function Observed(b: Bounds, items: seq<Item>, calls: seq<Call>): seq<Option<Held>>
    decreases |calls|
  {
    if calls == [] then []
    else (if calls[0].Get? then [Found(b, items, calls[0].key, calls[0].at)] else [])
         + Observed(b, After(b, items, calls[0]), calls[1..])
  }

  predicate Sound(b: Bounds, items: seq<Item>, now: nat) {
    Ordered(items) && Bytes(items) <= b.capacity && forall i <- items :: i.made <= now
  }

  lemma {:induction false} StepIsSound(b: Bounds, items: seq<Item>, c: Call, now: nat)
    requires Sound(b, items, now) && now <= Began(c) <= Ended(c)
    ensures Sound(b, After(b, items, c), Ended(c))
  {
    match c {
      case Get(key, _) =>
        WithoutKeeps(items, key);
        WithoutHolds(items, key);
      case Insert(item, looked) =>
        if Accepts(b, item.held) {
          InsertionFits(b, items, item, looked);
        }
    }
  }

  // ---- A lookup changes nothing that is ever seen ----

  lemma {:induction false} FreshLater(b: Bounds, items: seq<Item>, now: nat, later: nat)
    requires now <= later
    ensures Fresh(b, Fresh(b, items, now), later) == Fresh(b, items, later)
  {
    if items != [] && Expired(b, items[0], now) {
      FreshLater(b, items[1..], now, later);
    }
  }

  /** An answer is found only among what has not expired. */
  lemma {:induction false} FoundInFresh(b: Bounds, items: seq<Item>, key: Asked, now: nat)
    requires Ordered(items)
    ensures Found(b, items, key, now) == Found(b, Fresh(b, items, now), key, now)
  {
    if items != [] && Expired(b, items[0], now) {
      FoundInFresh(b, items[1..], key, now);
      if items[0].key == key {
        FreshIsSuffix(b, items[1..], now);
        FindIsIn(Fresh(b, items[1..], now), key);
      }
    }
  }

  /** Dropping an expired answer leaves what is unexpired as it was. */
  lemma {:induction false} LookedIsFresh(b: Bounds, items: seq<Item>, key: Asked, now: nat)
    requires Ordered(items)
    ensures Fresh(b, Looked(b, items, key, now), now) == Fresh(b, items, now)
  {
    FindIsIn(items, key);
    if Find(items, key).Some? && Expired(b, Find(items, key).value, now) {
      ExpiredIsAhead(b, items, key, now);
    }
  }

  lemma {:induction false} ExpiredIsAhead(b: Bounds, items: seq<Item>, key: Asked, now: nat)
    requires Ordered(items) && Find(items, key).Some? && Expired(b, Find(items, key).value, now)
    ensures Fresh(b, Without(items, key), now) == Fresh(b, items, now)
  {
    if items[0].key == key {
      WithoutAbsent(items[1..], key);
      assert Without(items, key) == items[1..];
    } else {
      FindIsIn(items[1..], key);
      assert items[0].made <= Find(items, key).value.made;
      ExpiredIsAhead(b, items[1..], key, now);
      var rest := Without(items[1..], key);
      assert ([items[0]] + rest)[1..] == rest;
    }
  }

  /** Two states with the same unexpired answers cannot be told apart by any run. */
  lemma {:induction false} SameFreshSameAnswers(b: Bounds, one: seq<Item>, other: seq<Item>, calls: seq<Call>, now: nat)
    requires Sound(b, one, now) && Sound(b, other, now) && Fresh(b, one, now) == Fresh(b, other, now)
    requires Timely(calls, now)
    ensures Observed(b, one, calls) == Observed(b, other, calls)
    decreases |calls|
  {
    if calls != [] {
      var c := calls[0];
      FreshLater(b, one, now, Began(c));
      FreshLater(b, other, now, Began(c));
      StepIsSound(b, one, c, now);
      StepIsSound(b, other, c, now);
      if c.Get? {
        FoundInFresh(b, one, c.key, c.at);
        FoundInFresh(b, other, c.key, c.at);
        LookedIsFresh(b, one, c.key, c.at);
        LookedIsFresh(b, other, c.key, c.at);
      } else {
        FreshLater(b, one, c.looked, c.item.made);
        FreshLater(b, other, c.looked, c.item.made);
      }
      SameFreshSameAnswers(b, After(b, one, c), After(b, other, c), calls[1..], Ended(c));
    }
  }

  /** So no later lookup of any key, whatever is inserted between, is changed by this one. */
  lemma {:induction false} LookupIsUnseen(b: Bounds, items: seq<Item>, key: Asked, at: nat, calls: seq<Call>, now: nat)
    requires Sound(b, items, now) && now <= at && Timely(calls, at)
    ensures Observed(b, Looked(b, items, key, at), calls) == Observed(b, items, calls)
  {
    StepIsSound(b, items, Get(key, at), now);
    LookedIsFresh(b, items, key, at);
    SameFreshSameAnswers(b, Looked(b, items, key, at), items, calls, at);
  }

  // ---- What is found is the last thing put in ----

  predicate Last(b: Bounds, calls: seq<Call>, i: nat, key: Asked)
    requires i < |calls|
  {
    && calls[i].Insert? && calls[i].item.key == key && Accepts(b, calls[i].item.held)
    && forall j :: i < j < |calls| && calls[j].Insert? && calls[j].item.key == key ==> !Accepts(b, calls[j].item.held)
  }

  /** Every answer held after a run is its key's last accepted insertion. */
  lemma {:induction false} HeldIsLast(b: Bounds, calls: seq<Call>, k: Item)
    requires Timely(calls, 0) && k in Run(b, [], calls)
    ensures exists i :: 0 <= i < |calls| && Last(b, calls, i, k.key) && calls[i].item == k
    decreases |calls|
  {
    var n := |calls| - 1;
    if calls != [] {
      var before, c := calls[..n], calls[n];
      assert calls == before + [c];
      RunOfSum(b, [], before, c);
      TimelyPrefix(calls, 0, n);
      var _ := RunIsSound(b, [], before, 0);
      var items := Run(b, [], before);
      StepComesFrom(b, items, c, k);
      if c.Insert? && k == c.item && Accepts(b, c.item.held) {
        assert Last(b, calls, n, k.key);
      } else {
        HeldIsLast(b, before, k);
        var i :| 0 <= i < |before| && Last(b, before, i, k.key) && before[i].item == k;
        assert Last(b, calls, i, k.key);
      }
    }
  }

  /** After a call an answer is the one just put in, or was there and of another key. */
  lemma {:induction false} StepComesFrom(b: Bounds, items: seq<Item>, c: Call, k: Item)
    requires Ordered(items) && k in After(b, items, c)
    ensures (c.Insert? && Accepts(b, c.item.held) && k == c.item)
            || (k in items && (c.Insert? && c.item.key == k.key ==> !Accepts(b, c.item.held)))
  {
    match c {
      case Get(key, _) => WithoutHolds(items, key);
      case Insert(item, looked) =>
        if Accepts(b, item.held) {
          FreshIsSuffix(b, items, looked);
          var unexpired := Fresh(b, items, looked);
          FittingIsSuffix(b, unexpired, |item.held.body|);
          WithoutHolds(Fitting(b, unexpired, |item.held.body|), item.key);
        }
    }
  }

  lemma {:induction false} RunOfSum(b: Bounds, items: seq<Item>, calls: seq<Call>, c: Call)
    ensures Run(b, items, calls + [c]) == After(b, Run(b, items, calls), c)
    decreases |calls|
  {
    if calls == [] {
      assert calls + [c] == [c] && [c][1..] == [];
    } else {
      assert (calls + [c])[1..] == calls[1..] + [c];
      RunOfSum(b, After(b, items, calls[0]), calls[1..], c);
    }
  }

  lemma {:induction false} TimelyPrefix(calls: seq<Call>, from: nat, n: nat)
    requires Timely(calls, from) && n <= |calls|
    ensures Timely(calls[..n], from)
    decreases n
  {
    if n > 0 {
      TimelyPrefix(calls[1..], Ended(calls[0]), n - 1);
      assert calls[..n][1..] == calls[1..][..n - 1];
    }
  }

  /** Over every run: in order, one answer a key, and within the capacity. */
  lemma {:induction false} RunIsSound(b: Bounds, items: seq<Item>, calls: seq<Call>, now: nat) returns (later: nat)
    requires Sound(b, items, now) && Timely(calls, now)
    ensures Sound(b, Run(b, items, calls), later)
    decreases |calls|
  {
    if calls == [] {
      later := now;
    } else {
      StepIsSound(b, items, calls[0], now);
      later := RunIsSound(b, After(b, items, calls[0]), calls[1..], Ended(calls[0]));
    }
  }

  /** A lookup answers only with its key's last accepted insertion, made less than the TTL ago. */
  lemma {:induction false} FoundIsLast(b: Bounds, calls: seq<Call>, key: Asked, now: nat)
    requires Timely(calls, 0) && Found(b, Run(b, [], calls), key, now).Some?
    ensures exists i :: 0 <= i < |calls| && Last(b, calls, i, key)
                        && calls[i].item.held == Found(b, Run(b, [], calls), key, now).value
                        && now < calls[i].item.made + b.ttl
  {
    var items := Run(b, [], calls);
    FindIsIn(items, key);
    var k := Find(items, key).value;
    HeldIsLast(b, calls, k);
  }

  // ---- And what was last put in is found, while it is young and there is room ----

  /** The bytes of every body a run accepts. */
  function AcceptedBytes(b: Bounds, calls: seq<Call>): nat {
    if calls == [] then 0
    else
      (if calls[0].Insert? && Accepts(b, calls[0].item.held) then |calls[0].item.held.body| else 0)
      + AcceptedBytes(b, calls[1..])
  }

  /** An answer at its place, with everything newer and it taking no more than so many bytes. */
  predicate Stands(items: seq<Item>, item: Item, n: nat, room: nat) {
    n < |items| && items[n] == item && Bytes(items[n..]) <= room
  }

  lemma {:induction false} FindIsOnly(items: seq<Item>, item: Item)
    requires Ordered(items) && item in items
    ensures Find(items, item.key) == Some(item)
  {
    if items[0] != item {
      var n :| 0 <= n < |items| && items[n] == item;
      assert items[0].key != items[n].key;
      FindIsOnly(items[1..], item);
    }
  }

  lemma {:induction false} WithoutOfSum(a: seq<Item>, c: seq<Item>, key: Asked)
    ensures Without(a + c, key) == Without(a, key) + Without(c, key)
  {
    if a == [] {
      assert a + c == c;
    } else {
      WithoutOfSum(a[1..], c, key);
      assert (a + c)[1..] == a[1..] + c;
      Splitting.Regrouped(if a[0].key == key then [] else [a[0]], Without(a[1..], key), Without(c, key));
    }
  }

  lemma {:induction false} WithoutWeighsLess(items: seq<Item>, key: Asked)
    ensures Bytes(Without(items, key)) <= Bytes(items)
  {
    if items != [] {
      WithoutWeighsLess(items[1..], key);
      var rest := Without(items[1..], key);
      assert ([items[0]] + rest)[1..] == rest && [] + rest == rest;
    }
  }

  /** Taking another key's answer out leaves this one standing. */
  lemma {:induction false} StandsWithout(items: seq<Item>, item: Item, n: nat, room: nat, key: Asked) returns (m: nat)
    requires Stands(items, item, n, room) && key != item.key
    ensures Stands(Without(items, key), item, m, room)
  {
    m := |Without(items[..n], key)|;
    assert items == items[..n] + items[n..];
    WithoutOfSum(items[..n], items[n..], key);
    WithoutWeighsLess(items[n..], key);
    assert Without(items[n..], key)[0] == item;
    assert Without(items, key)[m..] == Without(items[n..], key);
  }

  /** And so does one more answer behind it, which takes its own bytes of the room. */
  lemma {:induction false} StandsBefore(items: seq<Item>, item: Item, n: nat, room: nat, newer: Item)
    requires Stands(items, item, n, room)
    ensures Stands(items + [newer], item, n, room + |newer.held.body|)
  {
    assert (items + [newer])[n..] == items[n..] + [newer];
    BytesOfSum(items[n..], [newer]);
    assert [newer][1..] == [];
  }

  /** What has not expired is not dropped for its age. */
  lemma {:induction false} StandsInFresh(b: Bounds, items: seq<Item>, item: Item, n: nat, room: nat, now: nat)
      returns (m: nat)
    requires Ordered(items) && Stands(items, item, n, room) && !Expired(b, item, now)
    ensures Stands(Fresh(b, items, now), item, m, room)
  {
    FreshIsSuffix(b, items, now);
    var dropped := |items| - |Fresh(b, items, now)|;
    assert dropped <= n;
    m := n - dropped;
  }

  /** Making room for another body drops nothing that there is room for. */
  lemma {:induction false} StandsInFitting(b: Bounds, items: seq<Item>, item: Item, n: nat, room: nat, size: nat)
      returns (m: nat)
    requires Stands(items, item, n, room) && room + size <= b.capacity
    ensures Stands(Fitting(b, items, size), item, m, room)
  {
    FittingIsSuffix(b, items, size);
    var dropped := |items| - |Fitting(b, items, size)|;
    assert dropped <= n;
    m := n - dropped;
  }

  /** One call that does not replace it leaves a young answer standing. */
  lemma {:induction false} StandsAfter(b: Bounds, items: seq<Item>, item: Item, n: nat, room: nat, c: Call, now: nat)
      returns (m: nat)
    requires Ordered(items) && Stands(items, item, n, room) && Elapsed(now, item.made) < b.ttl
    requires Began(c) <= now && room + AcceptedBytes(b, [c]) <= b.capacity
    requires c.Insert? && c.item.key == item.key ==> !Accepts(b, c.item.held)
    ensures Stands(After(b, items, c), item, m, room + AcceptedBytes(b, [c]))
  {
    assert [c][1..] == [];
    m := n;
    match c {
      case Get(key, at) =>
        if key == item.key {
          FindIsOnly(items, item);
        } else if Looked(b, items, key, at) != items {
          m := StandsWithout(items, item, n, room, key);
        }
      case Insert(newer, looked) =>
        if Accepts(b, newer.held) {
          m := StandsInFresh(b, items, item, n, room, looked);
          m := StandsInFitting(b, Fresh(b, items, looked), item, m, room, |newer.held.body|);
          var fitting := Fitting(b, Fresh(b, items, looked), |newer.held.body|);
          m := StandsWithout(fitting, item, m, room, newer.key);
          StandsBefore(Without(fitting, newer.key), item, m, room, newer);
        }
    }
  }

  predicate NotReplaced(b: Bounds, calls: seq<Call>, key: Asked) {
    forall c <- calls :: c.Insert? && c.item.key == key ==> !Accepts(b, c.item.held)
  }

  lemma {:induction false} StandsToTheEnd(b: Bounds, items: seq<Item>, item: Item, n: nat, room: nat,
                                          calls: seq<Call>, from: nat, now: nat)
    requires Sound(b, items, from) && Timely(calls, from) && forall c <- calls :: Ended(c) <= now
    requires Stands(items, item, n, room) && Elapsed(now, item.made) < b.ttl
    requires room + AcceptedBytes(b, calls) <= b.capacity && NotReplaced(b, calls, item.key)
    ensures item in Run(b, items, calls) && Ordered(Run(b, items, calls))
    decreases |calls|
  {
    if calls != [] {
      var c := calls[0];
      assert c in calls && AcceptedBytes(b, [c]) + AcceptedBytes(b, calls[1..]) == AcceptedBytes(b, calls) by {
        assert [c][1..] == [];
      }
      StepIsSound(b, items, c, from);
      var m := StandsAfter(b, items, item, n, room, c, now);
      StandsToTheEnd(b, After(b, items, c), item, m, room + AcceptedBytes(b, [c]), calls[1..], Ended(c), now);
    }
  }

  lemma {:induction false} LastIsHeld(b: Bounds, items: seq<Item>, calls: seq<Call>, from: nat, i: nat, now: nat)
    requires Sound(b, items, from) && Timely(calls, from) && forall c <- calls :: Ended(c) <= now
    requires i < |calls| && calls[i].Insert? && Last(b, calls, i, calls[i].item.key)
    requires Elapsed(now, calls[i].item.made) < b.ttl
    requires |calls[i].item.held.body| + AcceptedBytes(b, calls[i + 1..]) <= b.capacity
    ensures calls[i].item in Run(b, items, calls) && Ordered(Run(b, items, calls))
    decreases |calls|
  {
    var c, item := calls[0], calls[i].item;
    StepIsSound(b, items, c, from);
    if i == 0 {
      var after := After(b, items, c);
      assert after[|after| - 1] == item && after[|after| - 1..] == [item] && [item][1..] == [];
      assert NotReplaced(b, calls[1..], item.key) by {
        forall d <- calls[1..]
          ensures d.Insert? && d.item.key == item.key ==> !Accepts(b, d.item.held)
        {
          var j :| 0 <= j < |calls[1..]| && calls[1..][j] == d;
          assert calls[j + 1] == d;
        }
      }
      StandsToTheEnd(b, after, item, |after| - 1, |item.held.body|, calls[1..], Ended(c), now);
    } else {
      assert calls[1..][i..] == calls[i + 1..] && calls[1..][i - 1] == calls[i];
      assert Last(b, calls[1..], i - 1, item.key) by {
        assert forall j :: i - 1 < j < |calls[1..]| ==> calls[1..][j] == calls[j + 1];
      }
      LastIsHeld(b, After(b, items, c), calls[1..], Ended(c), i - 1, now);
    }
  }

  /**
   A key's last accepted insertion is found while it is younger than the TTL, if its body and all
   those accepted after it fit the capacity together, whatever else was asked for and put in.
   */
  lemma {:induction false} LastIsFound(b: Bounds, calls: seq<Call>, i: nat, now: nat)
    requires Timely(calls, 0) && forall c <- calls :: Ended(c) <= now
    requires i < |calls| && calls[i].Insert? && Last(b, calls, i, calls[i].item.key)
    requires now < calls[i].item.made + b.ttl
    requires |calls[i].item.held.body| + AcceptedBytes(b, calls[i + 1..]) <= b.capacity
    ensures Found(b, Run(b, [], calls), calls[i].item.key, now) == Some(calls[i].item.held)
  {
    LastIsHeld(b, [], calls, 0, i, now);
    FindIsOnly(Run(b, [], calls), calls[i].item);
  }
}
