/** The cache that forgets what was used longest ago. The program keeps a map and a list of keys
    in order of use; the list may also hold keys that are not, or no longer, in the map. What
    counts is the order of the keys that are. */
module LruCache {
  import opened Distinct

  function Without<K(==)>(s: seq<K>, k: K): seq<K> {
    if s == [] then [] else if s[0] == k then Without(s[1..], k) else [s[0]] + Without(s[1..], k)
  }

  /** The keys of the map in the order of the list, most recently used first. */
  function Present<K(==)>(lru: seq<K>, keys: set<K>): seq<K> {
    if lru == [] then []
    else if lru[0] in keys then [lru[0]] + Present(lru[1..], keys) else Present(lru[1..], keys)
  }

  // ---- The list ----

  lemma {:induction false} WithoutHolds<K>(s: seq<K>, k: K, x: K)
    ensures x in Without(s, k) <==> x in s && x != k
  {
    if s == [] {
    } else {
      WithoutHolds(s[1..], k, x);
      assert x in s <==> x == s[0] || x in s[1..];
    }
  }

  lemma {:induction false} WithoutKeepsDistinct<K>(s: seq<K>, k: K)
    requires NoDuplicates(s)
    ensures NoDuplicates(Without(s, k))
  {
    if s == [] {
    } else {
      WithoutKeepsDistinct(s[1..], k);
      WithoutHolds(s[1..], k, s[0]);
      if s[0] != k {
        assert Without(s, k)[1..] == Without(s[1..], k);
      }
    }
  }

  lemma {:induction false} WithoutAbsent<K>(s: seq<K>, k: K)
    requires k !in s
    ensures Without(s, k) == s
  {
    if s == [] {
    } else {
      assert s[0] in s;
      WithoutAbsent(s[1..], k);
    }
  }

  lemma {:induction false} PresentHolds<K>(lru: seq<K>, keys: set<K>, x: K)
    ensures x in Present(lru, keys) <==> x in lru && x in keys
  {
    if lru == [] {
    } else {
      PresentHolds(lru[1..], keys, x);
      assert x in lru <==> x == lru[0] || x in lru[1..];
    }
  }

  lemma {:induction false} PresentKeepsDistinct<K>(lru: seq<K>, keys: set<K>)
    requires NoDuplicates(lru)
    ensures NoDuplicates(Present(lru, keys))
  {
    if lru == [] {
    } else {
      PresentKeepsDistinct(lru[1..], keys);
      PresentHolds(lru[1..], keys, lru[0]);
      if lru[0] in keys {
        assert Present(lru, keys)[1..] == Present(lru[1..], keys);
      }
    }
  }

  // Taking a key out of the list or out of the map takes it out of the order.
  lemma {:induction false} PresentWithout<K>(lru: seq<K>, keys: set<K>, k: K)
    ensures Present(Without(lru, k), keys) == Without(Present(lru, keys), k)
    ensures Present(lru, keys - {k}) == Without(Present(lru, keys), k)
  {
    if lru == [] {
    } else {
      var x, rest := lru[0], Present(lru[1..], keys);
      PresentWithout(lru[1..], keys, k);
      PresentCons(x, Without(lru[1..], k), keys);
      WithoutCons(x, rest, k);
    }
  }

  lemma PresentCons<K>(x: K, lru: seq<K>, keys: set<K>)
    ensures Present([x] + lru, keys) == if x in keys then [x] + Present(lru, keys) else Present(lru, keys)
  {
    assert ([x] + lru)[1..] == lru;
  }

  lemma WithoutCons<K>(x: K, s: seq<K>, k: K)
    ensures Without([x] + s, k) == if x == k then Without(s, k) else [x] + Without(s, k)
  {
    assert ([x] + s)[1..] == s;
  }

  /** Moving a key to the front of the list. */
  function Touched<K(==)>(lru: seq<K>, k: K): seq<K> {
    [k] + Without(lru, k)
  }

  lemma TouchedOrder<K>(lru: seq<K>, keys: set<K>, k: K)
    ensures Present(Touched(lru, k), keys) ==
      if k in keys then Touched(Present(lru, keys), k) else Present(lru, keys)
  {
    PresentCons(k, Without(lru, k), keys);
    PresentWithout(lru, keys, k);
    if k !in keys {
      PresentHolds(lru, keys, k);
      WithoutAbsent(Present(lru, keys), k);
    }
  }

  lemma TouchedKeepsDistinct<K>(lru: seq<K>, k: K)
    requires NoDuplicates(lru)
    ensures NoDuplicates(Touched(lru, k))
  {
    WithoutKeepsDistinct(lru, k);
    WithoutHolds(lru, k, k);
    assert Touched(lru, k)[1..] == Without(lru, k);
  }

  // A key at the front of the list that comes into the map comes first in the order.
  lemma PresentAdd<K>(lru: seq<K>, keys: set<K>, k: K)
    requires NoDuplicates(lru) && lru != [] && lru[0] == k && k !in keys
    ensures Present(lru, keys + {k}) == [k] + Present(lru, keys)
  {
    PresentIgnores(lru[1..], keys, k);
    assert Present(lru, keys) == Present(lru[1..], keys);
  }

  lemma {:induction false} PresentIgnores<K>(lru: seq<K>, keys: set<K>, k: K)
    requires k !in lru
    ensures Present(lru, keys + {k}) == Present(lru, keys)
  {
    if lru == [] {
    } else {
      assert lru[0] in lru;
      PresentIgnores(lru[1..], keys, k);
    }
  }

  lemma {:induction false} PresentAppend<K>(a: seq<K>, b: seq<K>, keys: set<K>)
    ensures Present(a + b, keys) == Present(a, keys) + Present(b, keys)
  {
    if a == [] {
      assert a + b == b;
    } else {
      assert (a + b)[1..] == a[1..] + b;
      PresentAppend(a[1..], b, keys);
    }
  }

  // Dropping the last key of the list drops the last key of the order if it is in the map.
  lemma PresentPop<K>(front: seq<K>, k: K, keys: set<K>)
    requires NoDuplicates(front + [k])
    ensures Present(front + [k], keys) ==
      if k in keys then Present(front, keys) + [k] else Present(front, keys)
    ensures Present(front, keys - {k}) == Present(front, keys)
  {
    PresentAppend(front, [k], keys);
    assert Present([k], keys) == if k in keys then [k] else [];
    assert Present(front, keys) + [] == Present(front, keys);
    DistinctFront(front, k);
    PresentWithout(front, keys, k);
    PresentHolds(front, keys, k);
    WithoutAbsent(Present(front, keys), k);
  }

  lemma OrderCount<K>(lru: seq<K>, keys: set<K>)
    requires NoDuplicates(lru) && forall k :: k in keys ==> k in lru
    ensures |Present(lru, keys)| == |keys|
  {
    PresentKeepsDistinct(lru, keys);
    forall x ensures x in Present(lru, keys) <==> x in keys {
      PresentHolds(lru, keys, x);
    }
    DistinctCount(Present(lru, keys), keys);
  }

  // ---- The cache it stands for ----

  /** The entries and their keys, most recently used first. */
  datatype Ideal<K, V> = Ideal(order: seq<K>, entries: map<K, V>)
  {
    ghost predicate Consistent(max: nat) {
      && NoDuplicates(order) && |order| <= max
      && (forall k :: k in order ==> k in entries) && (forall k :: k in entries ==> k in order)
    }
  }

  datatype Op<K, V> = Use(key: K) | Forget(key: K) | Put(key: K, value: V) | Assign(key: K, value: V)

  /** A full cache forgets what was used longest ago. */
  function MakeRoom<K(==), V>(s: Ideal<K, V>, max: nat): Ideal<K, V> {
    var n := |s.order|;
    if n >= max && n > 0 then Ideal(s.order[..n - 1], Only(s.entries, s.order[..n - 1])) else s
  }

  function Used<K(==), V>(s: Ideal<K, V>, k: K): Ideal<K, V> {
    if k in s.entries then s.(order := Touched(s.order, k)) else s
  }

  function Next<K(==), V>(s: Ideal<K, V>, max: nat, op: Op<K, V>): Ideal<K, V> {
    match op
    case Use(k) => Used(s, k)
    case Forget(k) => Ideal(Without(s.order, k), s.entries - {k})
    case Put(k, v) =>
      var room := MakeRoom(s, max);
      if k in room.entries then Used(room, k) else Ideal([k] + room.order, room.entries[k := v])
    case Assign(k, v) =>
      if k in s.entries then Ideal(Touched(s.order, k), s.entries[k := v])
      else
        var room := MakeRoom(s, max);
        Ideal([k] + room.order, room.entries[k := v])
  }

  lemma MadeRoom<K, V>(s: Ideal<K, V>, t: Ideal<K, V>)
    requires |s.order| > 0 && t.order <= s.order && |t.order| == |s.order| - 1
    requires t.entries == Only(s.entries, t.order)
    ensures t == MakeRoom(s, |s.order|)
  {
  }

  lemma TouchedThenForgotten<K>(s: seq<K>, k: K)
    ensures Without(Touched(s, k), k) == Without(s, k)
  {
    WithoutCons(k, Without(s, k), k);
    WithoutHolds(s, k, k);
    WithoutAbsent(Without(s, k), k);
  }

  // ---- The cache ----

  function Only<K(==), V>(m: map<K, V>, keys: seq<K>): map<K, V> {
    map k | k in m && k in keys :: m[k]
  }

  lemma OnlyShrinks<K, V>(m: map<K, V>, m1: map<K, V>, keys: seq<K>, fewer: seq<K>)
    requires m1 == Only(m, keys) && fewer <= keys
    ensures Only(m1, fewer) == Only(m, fewer)
    ensures |Only(m1, fewer)| <= |m1|
  {
    assert forall k :: k in fewer ==> k in keys;
    Fewer(Only(m1, fewer).Keys, m1.Keys);
  }

  lemma OneLess<K, V>(m: map<K, V>, k: K)
    ensures (m - {k}).Keys == m.Keys - {k}
    ensures |m| - 1 <= |m - {k}| <= |m|
  {
    if k !in m {
      assert m - {k} == m;
    }
  }

  lemma DroppedOne<K, V>(m: map<K, V>, m1: map<K, V>, order: seq<K>, order1: seq<K>, k: K)
    requires m1 == m - {k} && order == if k in m then order1 + [k] else order1
    requires (forall x :: x in order1 ==> x in m1) && (forall x :: x in m1 ==> x in order1)
    ensures order1 <= order && m1 == Only(m, order1) && |m1| >= |m| - 1
  {
    OneLess(m, k);
  }

  const SIZE_LIMIT := 0x1_0000_0000_0000_0000

  class Cache<K(==), V> {
    const max: nat
    var lru: seq<K>
    var baseMap: map<K, V>

    ghost predicate Valid()
      reads this
    {
      && max >= 1 && |baseMap| <= max
      && NoDuplicates(lru) && forall k :: k in baseMap ==> k in lru
    }

    /** The keys in the map, most recently used first. */
    ghost function Order(): seq<K>
      reads this
    {
      Present(lru, baseMap.Keys)
    }

    constructor (max: nat)
      requires max >= 1
      ensures Valid() && this.max == max && Order() == [] && baseMap == map[]
    {
      this.max, lru, baseMap := max, [], map[];
    }

    // The order holds exactly the keys of the map, each once.
    lemma OrderIsTheKeys()
      requires Valid()
      ensures |Order()| == |baseMap| && NoDuplicates(Order())
      ensures (forall k :: k in Order() ==> k in baseMap) && (forall k :: k in baseMap ==> k in Order())
    {
      OrderCount(lru, baseMap.Keys);
      PresentKeepsDistinct(lru, baseMap.Keys);
      forall k | k in Order() ensures k in baseMap {
        PresentHolds(lru, baseMap.Keys, k);
      }
      forall k | k in baseMap ensures k in Order() {
        PresentHolds(lru, baseMap.Keys, k);
      }
    }

    method Touch(k: K)
      requires Valid()
      modifies `lru
      ensures Valid() && lru != [] && lru[0] == k
      ensures Order() == if k in baseMap then Touched(old(Order()), k) else old(Order())
    {
      TouchedOrder(lru, baseMap.Keys, k);
      TouchedKeepsDistinct(lru, k);
      forall x | x in baseMap ensures x in Touched(lru, k) {
        WithoutHolds(lru, k, x);
      }
      lru := Touched(lru, k);
    }

    /** Takes the last key off the list, and out of the map if it is there. */
    method DropLast() returns (k: K)
      requires Valid() && lru != []
      modifies `lru, `baseMap
      ensures Valid() && old(lru) == lru + [k]
      ensures baseMap == old(baseMap) - {k}
      ensures old(Order()) == if k in old(baseMap) then Order() + [k] else Order()
    {
      var n := |lru| - 1;
      k := lru[n];
      assert lru == lru[..n] + [k];
      PresentPop(lru[..n], k, baseMap.Keys);
      DistinctFront(lru[..n], k);
      lru := lru[..n];
      OneLess(baseMap, k);
      baseMap := baseMap - {k};
    }

    /** One turn of pruning: the last key of the list goes, and nothing else. */
    method ForgetLast()
      requires Valid() && |baseMap| != 0
      modifies `lru, `baseMap
      ensures Valid() && |lru| < |old(lru)| && lru <= old(lru)
      ensures lru == [] ==> old(lru)[0] in old(baseMap)
      ensures Order() <= old(Order()) && baseMap == Only(old(baseMap), Order())
      ensures |old(baseMap)| - 1 <= |baseMap| <= |old(baseMap)|
    {
      NeverEmpty();
      ghost var m, order := baseMap, Order();
      var k := DropLast();
      OrderIsTheKeys();
      DroppedOne(m, baseMap, order, Order(), k);
      OneLess(m, k);
    }

    /** Forgets the count keys used longest ago; more than there are wraps around and forgets none.
        The list never runs empty on the way. */
    method Prune(count: nat)
      requires Valid() && count < SIZE_LIMIT
      modifies `lru, `baseMap
      ensures Valid()
      ensures Order() <= old(Order())
      ensures |baseMap| == |Order()| == |old(baseMap)| - if count <= |old(baseMap)| then count else 0
      ensures baseMap == Only(old(baseMap), Order())
      ensures lru <= old(lru) && (lru == [] ==> old(lru) == [] || old(lru)[0] in old(baseMap))
    {
      var size := |baseMap|;
      var target := if count <= size then size - count else size - count + SIZE_LIMIT;
      OrderIsTheKeys();
      while |baseMap| != 0 && |baseMap| > target
        invariant Valid() && (|baseMap| >= target || |baseMap| == size) && |baseMap| <= size
        invariant Order() <= old(Order()) && baseMap == Only(old(baseMap), Order())
        invariant lru <= old(lru) && (lru == [] ==> old(lru) == [] || old(lru)[0] in old(baseMap))
        decreases |lru|
      {
        ghost var m, order := baseMap, Order();
        ForgetLast();
        OnlyShrinks(old(baseMap), m, order, Order());
      }
      OrderIsTheKeys();
    }

    lemma NeverEmpty()
      requires Valid() && |baseMap| != 0
      ensures lru != []
      ensures lru[0] !in baseMap ==> |lru| > 1
    {
      var k :| k in baseMap;
      assert k in lru;
    }

    /** What the cache amounts to. */
    ghost function Now(): Ideal<K, V>
      reads this
    {
      Ideal(Order(), baseMap)
    }

    // After a touch the key can come into the map as the most recent one.
    lemma Entering(k: K)
      requires Valid() && lru != [] && lru[0] == k && k !in baseMap
      ensures Present(lru, baseMap.Keys + {k}) == [k] + Order()
    {
      PresentAdd(lru, baseMap.Keys, k);
    }

    method EvictIfFull()
      requires Valid()
      modifies this
      ensures Valid() && |baseMap| < max && Now() == MakeRoom(old(Now()), max)
    {
      OrderIsTheKeys();
      if |baseMap| >= max {
        Prune(1);
        MadeRoom(old(Now()), Now());
      }
    }

    /** Keeps an old value under the key. A full cache makes room even for a key it holds. */
    method Insert(k: K, v: V) returns (inserted: bool)
      requires Valid()
      modifies this
      ensures Valid() && Now() == Next(old(Now()), max, Put(k, v))
      ensures inserted <==> k !in MakeRoom(old(Now()), max).entries
    {
      EvictIfFull();
      Touch(k);
      inserted := k !in baseMap;
      if inserted {
        Entering(k);
        assert baseMap[k := v].Keys == baseMap.Keys + {k};
        baseMap := baseMap[k := v];
      }
    }

    method Find(k: K) returns (found: bool)
      requires Valid()
      modifies this
      ensures Valid() && Now() == Next(old(Now()), max, Use(k))
      ensures found <==> k in old(baseMap)
    {
      found := k in baseMap;
      if found {
        Touch(k);
      }
    }

    /** Notes the use of a key even when the map does not hold it. */
    method Count(k: K) returns (n: nat)
      requires Valid()
      modifies this
      ensures Valid() && Now() == Next(old(Now()), max, Use(k))
      ensures n == if k in old(baseMap) then 1 else 0
    {
      Touch(k);
      n := if k in baseMap then 1 else 0;
    }

    /** Takes the key out of the map and then notes its use. */
    method EraseAt(k: K)
      requires Valid() && k in baseMap
      modifies this
      ensures Valid() && Now() == Next(old(Now()), max, Forget(k))
    {
      PresentWithout(lru, baseMap.Keys, k);
      OneLess(baseMap, k);
      baseMap := baseMap - {k};
      Touch(k);
    }

    method Erase(k: K) returns (c: nat)
      requires Valid()
      modifies this
      ensures Valid() && Now() == Next(old(Now()), max, Forget(k))
      ensures c == if k in old(baseMap) then 1 else 0
    {
      c := 0;
      var found := Find(k);
      if found {
        TouchedThenForgotten(old(Order()), k);
        EraseAt(k);
        c := 1;
      } else {
        OrderIsTheKeys();
        WithoutAbsent(Order(), k);
      }
    }

    /** Touches the key before room is made, so it is never what is evicted. */
    method Admit(k: K)
      requires Valid()
      modifies this
      ensures Valid() && lru != [] && lru[0] == k && (k in baseMap <==> k in old(baseMap))
      ensures k !in baseMap ==> |baseMap| < max
      ensures Now() == if k in baseMap then Used(old(Now()), k) else MakeRoom(old(Now()), max)
    {
      OrderIsTheKeys();
      Touch(k);
      if |baseMap| >= max && k !in baseMap {
        Prune(1);
        MadeRoom(old(Now()), Now());
      }
    }

    /** cache[k] = v. */
    method Set(k: K, v: V)
      requires Valid()
      modifies this
      ensures Valid() && Now() == Next(old(Now()), max, Assign(k, v))
      ensures k in baseMap && baseMap[k] == v
      ensures forall x :: x in baseMap ==> x in old(baseMap) || x == k
    {
      Admit(k);
      if k !in baseMap {
        Entering(k);
      } else {
        assert baseMap.Keys + {k} == baseMap.Keys;
      }
      assert baseMap[k := v].Keys == baseMap.Keys + {k};
      baseMap := baseMap[k := v];
    }
  }

  // ---- What each operation does ----

  /** The keys used longest ago go first: what is left when one has to. */
  function Kept<K>(order: seq<K>, full: bool): seq<K> {
    if full && order != [] then order[..|order| - 1] else order
  }

  lemma KeptHolds<K>(order: seq<K>, x: K)
    requires NoDuplicates(order) && order != []
    ensures x in Kept(order, true) <==> x in order && x != order[|order| - 1]
  {
    var n := |order| - 1;
    assert order == order[..n] + [order[n]];
    DistinctFront(order[..n], order[n]);
  }

  /** Inserting makes room whenever the cache is full, assigning only for a new key. */
  predicate MakesRoom<K(==), V>(s: Ideal<K, V>, max: nat, op: Op<K, V>) {
    |s.order| == max && (op.Put? || (op.Assign? && op.key !in s.entries))
  }

  /** The value an operation leaves under its key: inserting keeps one that is there. */
  function ValueAfter<K(==), V>(s: Ideal<K, V>, max: nat, op: Op<K, V>): V
    requires op.Put? || op.Assign?
  {
    if op.Put? && op.key in s.entries && op.key in Kept(s.order, |s.order| == max) then s.entries[op.key] else op.value
  }

  lemma RoomIsKept<K, V>(s: Ideal<K, V>, max: nat)
    requires s.Consistent(max) && max >= 1
    ensures MakeRoom(s, max).order == Kept(s.order, |s.order| == max)
    ensures forall x :: x in MakeRoom(s, max).entries <==> x in Kept(s.order, |s.order| == max)
    ensures forall x :: x in MakeRoom(s, max).entries ==> x in s.entries && MakeRoom(s, max).entries[x] == s.entries[x]
  {
  }

  // After inserting or assigning, the key is the most recent; the others stay in their order with
  // their values, but for the one used longest ago where room had to be made.
  lemma {:induction false} StoringMeans<K, V>(s: Ideal<K, V>, max: nat, op: Op<K, V>)
    requires s.Consistent(max) && max >= 1 && (op.Put? || op.Assign?)
    ensures var s' := Next(s, max, op);
      && s'.order != [] && s'.order[0] == op.key && op.key in s'.entries
      && s'.entries[op.key] == ValueAfter(s, max, op)
      && s'.order[1..] == Without(Kept(s.order, MakesRoom(s, max, op)), op.key)
      && forall x :: x in s'.entries && x != op.key ==> x in s.entries && s'.entries[x] == s.entries[x]
  {
    RoomIsKept(s, max);
    var kept := Kept(s.order, MakesRoom(s, max, op));
    if op.key !in kept {
      WithoutAbsent(kept, op.key);
    }
  }

  // Using a key makes it the most recent if it is there; forgetting takes it out; nothing else
  // changes.
  lemma {:induction false} UsingMeans<K, V>(s: Ideal<K, V>, max: nat, k: K)
    ensures Next(s, max, Use(k)).entries == s.entries
    ensures Next(s, max, Use(k)).order == if k in s.entries then [k] + Without(s.order, k) else s.order
    ensures Next(s, max, Forget(k)).order == Without(s.order, k)
    ensures forall x :: x in Next(s, max, Forget(k)).entries <==> x in s.entries && x != k
    ensures forall x :: x in s.entries && x != k ==> Next(s, max, Forget(k)).entries[x] == s.entries[x]
  {
  }

  // Taking a key out of an order leaves the others in the order they had.
  lemma {:induction false} WithoutSplits<K>(a: seq<K>, k: K, b: seq<K>)
    requires k !in a && k !in b
    ensures Without(a + [k] + b, k) == a + b && Without(a + b, k) == a + b
  {
    WithoutAbsent(a + b, k);
    if a == [] {
      assert a + [k] + b == [k] + b && a + b == b;
      WithoutCons(k, b, k);
    } else {
      WithoutSplits(a[1..], k, b);
      assert a + [k] + b == [a[0]] + (a[1..] + [k] + b) && a + b == [a[0]] + (a[1..] + b);
      WithoutCons(a[0], a[1..] + [k] + b, k);
    }
  }

  // ---- Runs ----

  lemma TouchedHolds<K>(s: seq<K>, k: K, x: K)
    ensures x in Touched(s, k) <==> x in s || x == k
  {
    WithoutHolds(s, k, x);
    assert x in Touched(s, k) <==> x == k || x in Without(s, k);
  }

  lemma UsedIsConsistent<K, V>(s: Ideal<K, V>, max: nat, k: K)
    requires s.Consistent(max)
    ensures Used(s, k).Consistent(max)
  {
    if k in s.entries {
      var t := Touched(s.order, k);
      TouchedKeepsDistinct(s.order, k);
      TouchedCount(s.order, k);
      forall x | x in t ensures x in s.entries {
        TouchedHolds(s.order, k, x);
      }
      forall x | x in s.entries ensures x in t {
        TouchedHolds(s.order, k, x);
      }
      assert |t| == |s.order|;
    }
  }

  lemma {:induction false} TouchedCount<K>(s: seq<K>, k: K)
    requires NoDuplicates(s) && k in s
    ensures |Without(s, k)| == |s| - 1
  {
    if s[0] == k {
      WithoutAbsent(s[1..], k);
    } else {
      TouchedCount(s[1..], k);
    }
  }

  lemma RoomIsConsistent<K, V>(s: Ideal<K, V>, max: nat)
    requires s.Consistent(max) && max >= 1
    ensures MakeRoom(s, max).Consistent(max) && |MakeRoom(s, max).order| < max
  {
    var n := |s.order|;
    if n >= max {
      assert s.order == s.order[..n - 1] + [s.order[n - 1]];
      DistinctFront(s.order[..n - 1], s.order[n - 1]);
    }
  }

  // Whatever is done, no key occurs twice and the limit is kept.
  lemma NextIsConsistent<K, V>(s: Ideal<K, V>, max: nat, op: Op<K, V>)
    requires s.Consistent(max) && max >= 1
    ensures Next(s, max, op).Consistent(max)
  {
    RoomIsConsistent(s, max);
    UsedIsConsistent(s, max, op.key);
    UsedIsConsistent(MakeRoom(s, max), max, op.key);
    if op.Forget? {
      WithoutKeepsDistinct(s.order, op.key);
      if op.key in s.order {
        TouchedCount(s.order, op.key);
      } else {
        WithoutAbsent(s.order, op.key);
      }
      forall x ensures x in Without(s.order, op.key) <==> x in s.order && x != op.key {
        WithoutHolds(s.order, op.key, x);
      }
    }
  }

  function Run<K(==), V>(s: Ideal<K, V>, max: nat, ops: seq<Op<K, V>>): Ideal<K, V> {
    if ops == [] then s else Next(Run(s, max, ops[..|ops| - 1]), max, ops[|ops| - 1])
  }

  /** The keys other than x that the operations name. */
  ghost function Others<K, V>(ops: seq<Op<K, V>>, x: K): set<K> {
    set op | op in ops && op.key != x :: op.key
  }

  /** x is in the order and only some of the others come before it. */
  ghost predicate Behind<K>(order: seq<K>, x: K, others: set<K>) {
    order != [] && (order[0] == x || (order[0] in others && Behind(order[1..], x, others)))
  }

  lemma {:induction false} BehindMore<K>(order: seq<K>, x: K, others: set<K>, more: set<K>)
    requires Behind(order, x, others) && others <= more
    ensures Behind(order, x, more)
  {
    if order[0] != x {
      BehindMore(order[1..], x, others, more);
    }
  }

  lemma {:induction false} BehindWithout<K>(order: seq<K>, x: K, others: set<K>, k: K)
    requires Behind(order, x, others) && k != x
    ensures Behind(Without(order, k), x, others)
  {
    if order[0] != x {
      BehindWithout(order[1..], x, others, k);
      WithoutCons(order[0], order[1..], k);
    }
  }

  lemma {:induction false} BehindIsIn<K>(order: seq<K>, x: K, others: set<K>)
    requires Behind(order, x, others)
    ensures x in order
  {
    if order[0] != x {
      BehindIsIn(order[1..], x, others);
    }
  }

  lemma {:induction false} DropLastKeeps<K>(order: seq<K>, x: K, others: set<K>)
    requires Behind(order, x, others)
    ensures var front := order[..|order| - 1];
            Behind(front, x, others) || forall k :: k in front ==> k in others
  {
    if |order| > 1 && order[0] != x {
      var front, rest := order[..|order| - 1], order[1..];
      DropLastKeeps(rest, x, others);
      assert front[1..] == rest[..|rest| - 1];
      assert forall k :: k in front ==> k == front[0] || k in front[1..];
    }
  }

  // Making room keeps a key with few enough others before it.
  lemma RoomKeeps<K, V>(s: Ideal<K, V>, max: nat, x: K, others: set<K>, k: K)
    requires s.Consistent(max) && max >= 1 && Behind(s.order, x, others) && |others| < max
    requires |others| + 1 < max || (k in others && k !in s.order)
    ensures Behind(MakeRoom(s, max).order, x, others)
  {
    var n := |s.order|;
    if n >= max {
      var front := s.order[..n - 1];
      DropLastKeeps(s.order, x, others);
      if !Behind(front, x, others) {
        assert s.order == front + [s.order[n - 1]];
        DistinctFront(front, s.order[n - 1]);
        assert forall j :: j in front ==> j in s.order;
        DistinctFit(front, if |others| + 1 < max then others else others - {k});
      }
    }
  }

  lemma NextKeeps<K, V>(s: Ideal<K, V>, max: nat, op: Op<K, V>, x: K, others: set<K>)
    requires s.Consistent(max) && max >= 1 && Behind(s.order, x, others) && op != Forget(x)
    requires op.key != x ==> op.key in others
    requires |others| < max && (op.Put? ==> |others| + 1 < max)
    ensures Behind(Next(s, max, op).order, x, others)
  {
    var k, room := op.key, MakeRoom(s, max);
    BehindIsIn(s.order, x, others);
    if op.Put? || (op.Assign? && k !in s.entries) {
      RoomKeeps(s, max, x, others, k);
      BehindIsIn(room.order, x, others);
      if k != x {
        BehindWithout(room.order, x, others, k);
        BehindCons(k, room.order, x, others);
        BehindCons(k, Without(room.order, k), x, others);
      }
    } else if k != x {
      BehindWithout(s.order, x, others, k);
      BehindCons(k, Without(s.order, k), x, others);
    }
  }

  lemma BehindCons<K>(k: K, order: seq<K>, x: K, others: set<K>)
    requires k in others && Behind(order, x, others)
    ensures Behind([k] + order, x, others)
  {
    assert ([k] + order)[1..] == order;
  }

  lemma {:induction false} RunIsConsistent<K, V>(s: Ideal<K, V>, max: nat, ops: seq<Op<K, V>>)
    requires s.Consistent(max) && max >= 1
    ensures Run(s, max, ops).Consistent(max)
  {
    if ops == [] {
    } else {
      RunIsConsistent(s, max, ops[..|ops| - 1]);
      NextIsConsistent(Run(s, max, ops[..|ops| - 1]), max, ops[|ops| - 1]);
    }
  }

  // A key that has just been used stays as long as fewer other keys are named than the cache
  // holds (one fewer still where insert is among the operations), and it is not erased.
  lemma {:induction false} RecentKeyStays<K, V>(s: Ideal<K, V>, max: nat, ops: seq<Op<K, V>>, x: K)
    requires s.Consistent(max) && s.order != [] && s.order[0] == x
    requires forall op :: op in ops ==> op != Forget(x)
    requires |Others(ops, x)| + (if exists op :: op in ops && op.Put? then 1 else 0) < max
    ensures x in Run(s, max, ops).entries
    ensures Behind(Run(s, max, ops).order, x, Others(ops, x))
  {
    RunIsConsistent(s, max, ops);
    if ops == [] {
    } else {
      var n := |ops| - 1;
      var front, op := ops[..n], ops[n];
      assert op in ops && forall o :: o in front ==> o in ops;
      assert Others(front, x) <= Others(ops, x);
      Fewer(Others(front, x), Others(ops, x));
      RecentKeyStays(s, max, front, x);
      RunIsConsistent(s, max, front);
      BehindMore(Run(s, max, front).order, x, Others(front, x), Others(ops, x));
      NextKeeps(Run(s, max, front), max, op, x, Others(ops, x));
    }
    BehindIsIn(Run(s, max, ops).order, x, Others(ops, x));
  }

  lemma PutLast<K, V>(s: Ideal<K, V>, max: nat, v: V)
    requires s.Consistent(max) && |s.order| == max >= 1
    ensures var last := s.order[max - 1];
            Next(s, max, Put(last, v)).order == [last] + s.order[..max - 1]
  {
    var front, last := s.order[..max - 1], s.order[max - 1];
    assert s.order == front + [last];
    DistinctFront(front, last);
  }

  lemma TurnOnce<K>(order: seq<K>, i: nat)
    requires 0 < i <= |order|
    ensures var n := |order| - i;
            var before := order[n + 1..] + order[..n + 1];
            before[|order| - 1] == order[n] && [order[n]] + before[..|order| - 1] == order[n..] + order[..n]
  {
    var n := |order| - i;
    assert order[n..] == [order[n]] + order[n + 1..];
    assert order[..n + 1] == order[..n] + [order[n]];
  }

  /** Insertions of these keys, last key first. */
  function Puts<K, V>(keys: seq<K>, v: V): seq<Op<K, V>> {
    if keys == [] then [] else Puts(keys[1..], v) + [Put(keys[0], v)]
  }

  lemma {:induction false} PutsNameKeys<K, V>(keys: seq<K>, v: V, op: Op<K, V>)
    requires op in Puts(keys, v)
    ensures op.Put? && op.key in keys
  {
    if op in Puts(keys[1..], v) {
      PutsNameKeys(keys[1..], v, op);
    }
  }

  lemma OneMorePut<K, V>(s: Ideal<K, V>, max: nat, keys: seq<K>, v: V)
    requires keys != []
    ensures Run(s, max, Puts(keys, v)) == Next(Run(s, max, Puts(keys[1..], v)), max, Put(keys[0], v))
  {
    var ops := Puts(keys, v);
    assert ops[..|ops| - 1] == Puts(keys[1..], v);
  }

  // Putting the last i keys of a full cache again, last first, moves them to the front.
  lemma {:induction false} PutLastOnes<K, V>(s: Ideal<K, V>, max: nat, i: nat, v: V)
    requires s.Consistent(max) && |s.order| == max >= 1 && i <= max
    ensures Run(s, max, Puts(s.order[max - i..], v)).order == s.order[max - i..] + s.order[..max - i]
  {
    var keys := s.order[max - i..];
    if i == 0 {
      assert keys == [];
    } else {
      assert keys[1..] == s.order[max - (i - 1)..];
      PutLastOnes(s, max, i - 1, v);
      RunIsConsistent(s, max, Puts(keys[1..], v));
      TurnOnce(s.order, i);
      PutLast(Run(s, max, Puts(keys[1..], v)), max, v);
      OneMorePut(s, max, keys, v);
    }
  }

  lemma PutAgainEvicts<K, V>(s: Ideal<K, V>, max: nat, x: K, v: V)
    requires s.Consistent(max) && |s.order| == max >= 2 && s.order[max - 1] == x
    ensures x !in Next(s, max, Put(s.order[0], v)).entries
  {
    var front := s.order[..max - 1];
    assert s.order == front + [x] && front[0] == s.order[0];
    DistinctFront(front, x);
  }

  // With insert the bound cannot be better: any full cache of two keys or more can forget the
  // key used last, by insertions of keys it already holds and of no key it does not hold.
  lemma InsertForgetsNeedlessly<K, V>(s: Ideal<K, V>, max: nat, v: V) returns (ops: seq<Op<K, V>>)
    requires s.Consistent(max) && |s.order| == max >= 2
    ensures forall op :: op in ops ==> op.Put? && op.key in s.order[1..]
    ensures |Others(ops, s.order[0])| < max
    ensures s.order[0] !in Run(s, max, ops).entries
  {
    var x := s.order[0];
    var before := Puts(s.order[1..], v);
    var t := Run(s, max, before);
    PutLastOnes(s, max, max - 1, v);
    RunIsConsistent(s, max, before);
    assert t.order == s.order[1..] + [x];
    PutAgainEvicts(t, max, x, v);
    ops := before + [Put(t.order[0], v)];
    assert ops[..|ops| - 1] == before;
    forall op | op in before ensures op.Put? && op.key in s.order[1..] {
      PutsNameKeys(s.order[1..], v, op);
    }
    NamedOthers(s, max, ops);
  }

  lemma NamedOthers<K, V>(s: Ideal<K, V>, max: nat, ops: seq<Op<K, V>>)
    requires s.Consistent(max) && |s.order| == max >= 2
    requires forall op :: op in ops ==> op.key in s.order[1..]
    ensures |Others(ops, s.order[0])| < max
  {
    var rest := s.order[1..];
    assert Others(ops, s.order[0]) <= ToSet(rest);
    Fewer(Others(ops, s.order[0]), ToSet(rest));
    DistinctSet(rest);
  }
}
