/** The renderer's caches for pictures and glyphs. */
module ImageCache {
  // Slots with use counters stand for a list of keys, latest use first: each lookup does to that
  // list what a least-recently-used cache should.

  import opened Common

  datatype Slot<K, V> = Free | Used(key: K, value: V, lastUsed: nat)

  predicate Distinct<T(==)>(s: seq<T>) {
    forall i, j :: 0 <= i < j < |s| ==> s[i] != s[j]
  }

  function Without<T(==)>(s: seq<T>, x: T): seq<T>
    decreases |s|
  {
    if s == [] then []
    else if s[0] == x then Without(s[1..], x)
    else [s[0]] + Without(s[1..], x)
  }

  /** What a least-recently-used list of at most `n` keys becomes when `key` is used. */
  function Lru<K(==)>(keys: seq<K>, key: K, n: nat): seq<K>
    requires n > 0
  {
    if key in keys then [key] + Without(keys, key)
    else if |keys| < n then [key] + keys
    else [key] + keys[..n - 1]
  }

  lemma {:induction false} InWithout<T>(s: seq<T>, x: T, y: T)
    ensures y in Without(s, x) <==> y in s && y != x
    decreases |s|
  {
    if s != [] {
      InWithout(s[1..], x, y);
      assert s == [s[0]] + s[1..];
    }
  }

  lemma {:induction false} WithoutDistinct<T>(s: seq<T>, x: T)
    requires Distinct(s)
    ensures Distinct(Without(s, x))
    ensures x !in s ==> Without(s, x) == s
    ensures x in s ==> |Without(s, x)| == |s| - 1
    decreases |s|
  {
    if s != [] {
      WithoutDistinct(s[1..], x);
      assert s == [s[0]] + s[1..];
      InWithout(s[1..], x, s[0]);
    }
  }

  /** When a slot was last used; a free one counts as never. */
  function Age<K, V>(slots: seq<Slot<K, V>>, i: int): int {
    if 0 <= i < |slots| && slots[i].Used? then slots[i].lastUsed else -1
  }

  /** `recent` lists exactly the used slots, once each. */
  predicate Listed<K, V>(slots: seq<Slot<K, V>>, recent: seq<int>) {
    && Distinct(recent)
    && (forall a :: 0 <= a < |recent| ==> 0 <= recent[a] < |slots| && slots[recent[a]].Used?)
    && (forall i :: 0 <= i < |slots| && slots[i].Used? ==> i in recent)
  }

  predicate Descending<K, V>(slots: seq<Slot<K, V>>, recent: seq<int>)
    decreases |recent|
  {
    recent == [] ||
    (Descending(slots, recent[1..]) && (|recent| > 1 ==> Age(slots, recent[0]) > Age(slots, recent[1])))
  }

  /** Later in `recent` means used longer ago, and nothing was used in the future. */
  predicate Ordered<K, V>(slots: seq<Slot<K, V>>, recent: seq<int>, tick: nat) {
    Descending(slots, recent) && (recent != [] ==> Age(slots, recent[0]) <= tick)
  }

  /** Every slot holds what loading its key gives, and no key sits in two slots. */
  predicate Exact<K(==), V(==)>(slots: seq<Slot<K, V>>, load: K -> Option<V>) {
    && (forall i :: 0 <= i < |slots| && slots[i].Used? ==> load(slots[i].key) == Some(slots[i].value))
    && (forall i, j :: 0 <= i < j < |slots| && slots[i].Used? && slots[j].Used? ==> slots[i].key != slots[j].key)
  }

  /** The cached keys, latest use first. */
  function Keys<K, V>(slots: seq<Slot<K, V>>, recent: seq<int>): (r: seq<K>)
    requires forall a :: 0 <= a < |recent| ==> 0 <= recent[a] < |slots| && slots[recent[a]].Used?
    ensures |r| == |recent| && forall a :: 0 <= a < |r| ==> r[a] == slots[recent[a]].key
    decreases |recent|
  {
    if recent == [] then [] else [slots[recent[0]].key] + Keys(slots, recent[1..])
  }

  /** The list without slot `i` has every other used slot. */
  lemma {:induction false} OthersListed<K, V>(slots: seq<Slot<K, V>>, recent: seq<int>, i: nat)
    requires Listed(slots, recent)
    ensures var rest := Without(recent, i);
            && Distinct(rest)
            && (forall a :: 0 <= a < |rest| ==> rest[a] != i && 0 <= rest[a] < |slots| && slots[rest[a]].Used?)
            && (forall j :: 0 <= j < |slots| && slots[j].Used? && j != i ==> j in rest)
  {
    var rest := Without(recent, i);
    WithoutDistinct(recent, i);
    forall a | 0 <= a < |rest|
      ensures rest[a] != i && rest[a] in recent
    {
      InWithout(recent, i, rest[a]);
    }
    forall j | 0 <= j < |slots| && slots[j].Used? && j != i
      ensures j in rest
    {
      InWithout(recent, i, j);
    }
  }

  /** Using slot `i` puts it in front. */
  lemma {:induction false} PlaceListed<K, V>(slots: seq<Slot<K, V>>, recent: seq<int>, i: nat, slot: Slot<K, V>)
    requires Listed(slots, recent) && i < |slots| && slot.Used?
    ensures Listed(slots[i := slot], [i] + Without(recent, i))
  {
    OthersListed(slots, recent, i);
  }

  lemma {:induction false} WithoutDescending<K, V>(slots: seq<Slot<K, V>>, recent: seq<int>, i: nat)
    requires Descending(slots, recent)
    ensures Descending(slots, Without(recent, i))
    ensures Without(recent, i) != [] ==> Age(slots, Without(recent, i)[0]) <= Age(slots, recent[0])
    decreases |recent|
  {
    if recent != [] {
      WithoutDescending(slots, recent[1..], i);
      if recent[0] != i {
        assert Without(recent, i)[1..] == Without(recent[1..], i);
      }
    }
  }

  lemma {:induction false} OtherAges<K, V>(slots: seq<Slot<K, V>>, recent: seq<int>, i: nat, slot: Slot<K, V>)
    requires Descending(slots, recent) && i !in recent && i < |slots|
    ensures Descending(slots[i := slot], recent)
    decreases |recent|
  {
    if recent != [] {
      OtherAges(slots, recent[1..], i, slot);
    }
  }

  lemma {:induction false} PlaceOrdered<K, V>(slots: seq<Slot<K, V>>, recent: seq<int>, tick: nat, i: nat,
                                              slot: Slot<K, V>)
    requires Ordered(slots, recent, tick) && i < |slots| && slot.Used? && slot.lastUsed > tick
    ensures Ordered(slots[i := slot], [i] + Without(recent, i), slot.lastUsed)
  {
    var rest := Without(recent, i);
    InWithout(recent, i, i);
    WithoutDescending(slots, recent, i);
    OtherAges(slots, rest, i, slot);
    assert ([i] + rest)[1..] == rest;
    if rest != [] {
      assert rest[0] in rest;
    }
  }

  /** In a list by age, the last one is the oldest. */
  lemma {:induction false} LastIsOldest<K, V>(slots: seq<Slot<K, V>>, recent: seq<int>, a: nat)
    requires Descending(slots, recent) && a < |recent|
    ensures Age(slots, recent[|recent| - 1]) <= Age(slots, recent[a])
    ensures a < |recent| - 1 ==> Age(slots, recent[|recent| - 1]) < Age(slots, recent[a])
    decreases |recent|
  {
    if |recent| > 1 {
      LastIsOldest(slots, recent[1..], if a == 0 then 0 else a - 1);
    }
  }

  /** Indexes below n, each once: n of them exactly when none is left out. */
  lemma {:induction false} DistinctBelow(s: seq<int>, n: nat)
    requires Distinct(s) && forall i <- s :: 0 <= i < n
    ensures |s| <= n
    ensures |s| == n <==> forall i :: 0 <= i < n ==> i in s
    decreases n
  {
    if s == [] {
      if n > 0 {
        assert 0 !in s;
      }
    } else {
      assert s[0] in s;
      var rest := Without(s, n - 1);
      WithoutDistinct(s, n - 1);
      forall i: int
        ensures i in rest <==> i in s && i != n - 1
      {
        InWithout(s, n - 1, i);
      }
      DistinctBelow(rest, n - 1);
      if |s| == n {
        assert n - 1 in s;
      }
    }
  }

  /** A free slot, or one with the lowest use counter when none is free. */
  predicate MakesWay<K, V>(slots: seq<Slot<K, V>>, victim: nat) {
    && victim < |slots|
    && (slots[victim].Used? ==> forall i :: 0 <= i < |slots| ==> slots[i].Used? && Age(slots, victim) <= Age(slots, i))
  }

  /** The slot that makes way: a free one, or the one whose key was used longest ago. */
  lemma {:induction false} VictimIsOldest<K, V>(slots: seq<Slot<K, V>>, recent: seq<int>, tick: nat, victim: nat)
    requires Listed(slots, recent) && Ordered(slots, recent, tick) && MakesWay(slots, victim)
    ensures slots[victim].Free? ==> |recent| < |slots| && Without(recent, victim) == recent
    ensures slots[victim].Used? ==>
              |recent| == |slots| && recent != [] && recent[|recent| - 1] == victim
              && Without(recent, victim) == recent[..|recent| - 1]
  {
    AllBelow(slots, recent);
    DistinctBelow(recent, |slots|);
    WithoutDistinct(recent, victim);
    if slots[victim].Used? {
      var a :| 0 <= a < |recent| && recent[a] == victim;
      LastIsOldest(slots, recent, a);
      assert recent[|recent| - 1] == victim;
      WithoutLast(recent);
    }
  }

  lemma {:induction false} AllBelow<K, V>(slots: seq<Slot<K, V>>, recent: seq<int>)
    requires Listed(slots, recent)
    ensures forall i <- recent :: 0 <= i < |slots|
    ensures (forall i :: 0 <= i < |slots| ==> i in recent) <==> forall i :: 0 <= i < |slots| ==> slots[i].Used?
  {
    forall i | 0 <= i < |slots|
      ensures i in recent <==> slots[i].Used?
    {
      if i in recent {
        var a :| 0 <= a < |recent| && recent[a] == i;
      }
    }
  }

  lemma {:induction false} WithoutLast<T>(s: seq<T>)
    requires s != [] && Distinct(s)
    ensures Without(s, s[|s| - 1]) == s[..|s| - 1]
    decreases |s|
  {
    if |s| > 1 {
      WithoutLast(s[1..]);
      assert s[1..][..|s| - 2] == s[1..|s| - 1];
      assert [s[0]] + s[1..|s| - 1] == s[..|s| - 1];
    }
  }

  predicate Held<K(==), V>(slots: seq<Slot<K, V>>, key: K) {
    exists i :: 0 <= i < |slots| && slots[i].Used? && slots[i].key == key
  }

  /** The keys other than the one in slot `i`. */
  lemma {:induction false} KeysWithout<K, V>(slots: seq<Slot<K, V>>, recent: seq<int>, i: nat)
    requires forall a :: 0 <= a < |recent| ==> 0 <= recent[a] < |slots| && slots[recent[a]].Used?
    requires i < |slots| && slots[i].Used?
    requires forall j <- recent :: j != i && 0 <= j < |slots| && slots[j].Used? ==> slots[j].key != slots[i].key
    ensures var rest := Without(recent, i);
            forall a :: 0 <= a < |rest| ==> 0 <= rest[a] < |slots| && slots[rest[a]].Used?
    ensures Keys(slots, Without(recent, i)) == Without(Keys(slots, recent), slots[i].key)
    decreases |recent|
  {
    if recent != [] {
      KeysWithout(slots, recent[1..], i);
      assert recent[0] in recent;
      assert Keys(slots, recent)[1..] == Keys(slots, recent[1..]);
      var rest := Without(recent[1..], i);
      assert ([recent[0]] + rest)[1..] == rest;
    }
  }

  /** Placing a slot leaves the keys of the others. */
  lemma {:induction false} KeysElsewhere<K, V>(slots: seq<Slot<K, V>>, recent: seq<int>, i: nat, slot: Slot<K, V>)
    requires forall a :: 0 <= a < |recent| ==> 0 <= recent[a] < |slots| && slots[recent[a]].Used?
    requires i !in recent && i < |slots|
    ensures Keys(slots[i := slot], recent) == Keys(slots, recent)
    decreases |recent|
  {
    if recent != [] {
      KeysElsewhere(slots, recent[1..], i, slot);
    }
  }

  /** A hit moves its key to the front. */
  lemma {:induction false} HitKeys<K, V>(slots: seq<Slot<K, V>>, recent: seq<int>, load: K -> Option<V>, i: nat,
                                         slot: Slot<K, V>)
    requires Listed(slots, recent) && Exact(slots, load) && i < |slots| && slots[i].Used?
    requires slot.Used? && slot.key == slots[i].key
    ensures Listed(slots[i := slot], [i] + Without(recent, i))
    ensures Keys(slots[i := slot], [i] + Without(recent, i)) == Lru(Keys(slots, recent), slot.key, |slots|)
  {
    var rest := Without(recent, i);
    PlaceListed(slots, recent, i, slot);
    InWithout(recent, i, i);
    forall j <- recent | j != i
      ensures 0 <= j < |slots| && slots[j].Used? && slots[j].key != slots[i].key
    {
      var a :| 0 <= a < |recent| && recent[a] == j;
    }
    KeysWithout(slots, recent, i);
    KeysElsewhere(slots, rest, i, slot);
    assert ([i] + rest)[1..] == rest;
    var a :| 0 <= a < |recent| && recent[a] == i;
    assert Keys(slots, recent)[a] == slot.key;
  }

  /** A miss puts its key in front and, when every slot is used, drops the last key. */
  lemma {:induction false} MissKeys<K, V>(slots: seq<Slot<K, V>>, recent: seq<int>, tick: nat, victim: nat,
                                          slot: Slot<K, V>)
    requires Listed(slots, recent) && Ordered(slots, recent, tick) && MakesWay(slots, victim)
    requires slot.Used? && !Held(slots, slot.key)
    ensures Listed(slots[victim := slot], [victim] + Without(recent, victim))
    ensures Keys(slots[victim := slot], [victim] + Without(recent, victim)) ==
            Lru(Keys(slots, recent), slot.key, |slots|)
  {
    var rest := Without(recent, victim);
    PlaceListed(slots, recent, victim, slot);
    VictimIsOldest(slots, recent, tick, victim);
    InWithout(recent, victim, victim);
    KeysElsewhere(slots, rest, victim, slot);
    assert ([victim] + rest)[1..] == rest;
    NotHeld(slots, recent, slot.key);
    if slots[victim].Used? {
      KeysPrefix(slots, recent);
    }
  }

  lemma {:induction false} NotHeld<K, V>(slots: seq<Slot<K, V>>, recent: seq<int>, key: K)
    requires Listed(slots, recent) && !Held(slots, key)
    ensures key !in Keys(slots, recent)
  {
  }

  lemma {:induction false} KeysPrefix<K, V>(slots: seq<Slot<K, V>>, recent: seq<int>)
    requires Listed(slots, recent) && recent != []
    ensures Keys(slots, recent[..|recent| - 1]) == Keys(slots, recent)[..|recent| - 1]
  {
  }

  lemma {:induction false} PlaceExact<K, V>(slots: seq<Slot<K, V>>, load: K -> Option<V>, i: nat, slot: Slot<K, V>)
    requires Exact(slots, load) && i < |slots| && slot.Used? && load(slot.key) == Some(slot.value)
    requires !Held(slots, slot.key) || (slots[i].Used? && slots[i].key == slot.key)
    ensures Exact(slots[i := slot], load)
  {
  }

  /**
   A value of `key` stored under another one: every slot still holds what loading its key gives, and
   no key sits in two slots, if and only if that other key loads to the same and no other slot has it.
   */
  lemma {:induction false} StoredExact<K, V>(slots: seq<Slot<K, V>>, load: K -> Option<V>, i: nat, slot: Slot<K, V>)
    requires Exact(slots, load) && i < |slots| && slot.Used?
    ensures Exact(slots[i := slot], load) <==>
            load(slot.key) == Some(slot.value) && !Held(slots[i := Free], slot.key)
  {
    var after := slots[i := slot];
    if Exact(after, load) {
      assert after[i] == slot;
      forall j | 0 <= j < |slots| && j != i && slots[j].Used?
        ensures slots[j].key != slot.key
      {
        assert after[j] == slots[j];
      }
    } else if load(slot.key) == Some(slot.value) && !Held(slots[i := Free], slot.key) {
      forall j | 0 <= j < |slots| && j != i && slots[j].Used?
        ensures slots[j].key != slot.key
      {
        assert slots[i := Free][j] == slots[j];
      }
      assert false;
    }
  }

  /** Emptying the slot that was to make way drops the last key, if every slot was used. */
  lemma {:induction false} DropVictim<K, V>(slots: seq<Slot<K, V>>, recent: seq<int>, tick: nat, victim: nat)
    requires Listed(slots, recent) && Ordered(slots, recent, tick) && MakesWay(slots, victim)
    ensures Listed(slots[victim := Free], Without(recent, victim))
    ensures Ordered(slots[victim := Free], Without(recent, victim), tick)
    ensures var keys := Keys(slots, recent);
            Keys(slots[victim := Free], Without(recent, victim)) == if |keys| < |slots| then keys else keys[..|keys| - 1]
  {
    DropListed(slots, recent, victim);
    VictimIsOldest(slots, recent, tick, victim);
    DropOrdered(slots, recent, tick, victim);
    KeysElsewhere(slots, Without(recent, victim), victim, Free);
    if slots[victim].Used? {
      KeysPrefix(slots, recent);
    }
  }

  lemma {:induction false} DropOrdered<K, V>(slots: seq<Slot<K, V>>, recent: seq<int>, tick: nat, victim: nat)
    requires Ordered(slots, recent, tick) && victim < |slots|
    ensures victim !in Without(recent, victim)
    ensures Ordered(slots[victim := Free], Without(recent, victim), tick)
  {
    InWithout(recent, victim, victim);
    WithoutDescending(slots, recent, victim);
    OtherAges(slots, Without(recent, victim), victim, Free);
    if Without(recent, victim) != [] {
      assert Without(recent, victim)[0] in Without(recent, victim);
    }
  }

  lemma {:induction false} DropListed<K, V>(slots: seq<Slot<K, V>>, recent: seq<int>, i: nat)
    requires Listed(slots, recent) && i < |slots|
    ensures Listed(slots[i := Free], Without(recent, i))
    ensures forall a :: 0 <= a < |Without(recent, i)| ==>
              0 <= Without(recent, i)[a] < |slots| && slots[Without(recent, i)[a]].Used?
  {
    OthersListed(slots, recent, i);
  }

  class Cache<K(==,!new), V(==,!new)> {
    const slots: array<Slot<K, V>>
    /** What loading a key from its file, or rendering it, gives; it does not change. */
    const load: K -> Option<V>
    /** The counter's range. */
    const ticks: nat
    var tick: nat
    ghost var recent: seq<int>
    /** The counter has not overflowed. */
    ghost var ordered: bool

    ghost predicate Valid()
      reads this, slots
    {
      && slots.Length > 0 && tick < ticks && ticks > 1
      && Listed(slots[..], recent)
      && (ordered ==> Ordered(slots[..], recent, tick))
    }

    /** Every slot holds what loading its key gives, and no key sits in two slots. */
    ghost predicate Faithful()
      reads this, slots
    {
      Exact(slots[..], load)
    }

    ghost function Cached(): seq<K>
      requires Valid()
      reads this, slots
    {
      Keys(slots[..], recent)
    }

    constructor (size: nat, load: K -> Option<V>, ticks: nat)
      requires size > 0 && ticks > 1
      ensures Valid() && fresh(slots) && ordered && Faithful() && Cached() == []
      ensures slots.Length == size && this.load == load && this.ticks == ticks
    {
      slots := new Slot<K, V>[size](_ => Free);
      this.load := load;
      this.ticks := ticks;
      tick := 0;
      recent := [];
      ordered := true;
    }

    /** The slot that holds `key`, or the number of slots. */
    method Find(key: K) returns (i: nat)
      ensures i <= slots.Length
      ensures i < slots.Length ==> slots[i].Used? && slots[i].key == key
      ensures i == slots.Length ==> !Held(slots[..], key)
    {
      i := 0;
      while i < slots.Length
        invariant i <= slots.Length
        invariant forall j :: 0 <= j < i ==> !(slots[j].Used? && slots[j].key == key)
      {
        if slots[i].Used? && slots[i].key == key {
          return;
        }
        i := i + 1;
      }
    }

    /** The first free slot, or else the first of those with the lowest use counter. */
    method Victim() returns (victim: nat)
      requires slots.Length > 0
      ensures MakesWay(slots[..], victim)
    {
      victim := 0;
      var oldest := 0;
      var i := 0;
      while i < slots.Length
        invariant i <= slots.Length
        invariant victim == 0 || victim < i
        invariant forall j :: 0 <= j < i ==> slots[j].Used? && oldest <= slots[j].lastUsed
        invariant i > 0 ==> oldest == slots[victim].lastUsed
      {
        if slots[i].Free? {
          return i;
        }
        if i == 0 || slots[i].lastUsed < oldest {
          oldest := slots[i].lastUsed;
          victim := i;
        }
        i := i + 1;
      }
    }

    /** Counts one more use; `skipZero` is the picture cache's way of wrapping. */
    method NextTick(skipZero: bool)
      requires Valid()
      modifies this`tick, this`ordered
      ensures Valid()
      ensures ordered == (old(ordered) && old(tick) + 1 < ticks)
      ensures ordered ==> tick == old(tick) + 1
    {
      ordered := ordered && tick + 1 < ticks;
      tick := if tick + 1 == ticks then 0 else tick + 1;
      if skipZero && tick == 0 {
        tick := 1;
      }
    }

    /** Stores a value, or a new use of the same one, in slot `i`. */
    method Place(i: nat, key: K, value: V, ghost before: nat)
      requires Valid() && i < slots.Length
      requires ordered ==> Ordered(slots[..], recent, before) && before < tick
      modifies slots, this`recent
      ensures Valid()
      ensures slots[..] == old(slots[..])[i := Used(key, value, tick)]
      ensures recent == [i] + Without(old(recent), i)
    {
      ghost var slot := Used(key, value, tick);
      PlaceListed(slots[..], recent, i, slot);
      if ordered {
        PlaceOrdered(slots[..], recent, before, i, slot);
      }
      slots[i] := Used(key, value, tick);
      recent := [i] + Without(recent, i);
    }

    /** A hit: the slot counts as used now and its value is the answer. */
    method Use(i: nat, key: K, ghost before: nat) returns (value: V)
      requires Valid() && i < slots.Length && slots[i].Used? && slots[i].key == key
      requires ordered ==> Ordered(slots[..], recent, before) && before < tick
      modifies slots, this`recent
      ensures Valid() && (old(Faithful()) ==> Faithful())
      ensures value == old(slots[i].value) && slots[..] == old(slots[..])[i := Used(key, value, tick)]
      ensures recent == [i] + Without(old(recent), i)
      ensures old(Faithful()) ==> load(key) == Some(value) && Cached() == Lru(old(Cached()), key, slots.Length)
    {
      value := slots[i].value;
      if Faithful() {
        HitKeys(slots[..], recent, load, i, Used(key, value, tick));
        PlaceExact(slots[..], load, i, Used(key, value, tick));
      }
      Place(i, key, value, before);
    }

    /**
     `png_cache_get`, storing under `stored`, the key as far as it fits the slot. Every answer is a
     fresh load, a failed load changes no slot, and the keys are kept in least-recently-used order,
     as long as keys are stored whole.
     */
    method Lookup(key: K, stored: K) returns (r: Option<V>)
      requires Valid()
      modifies this, slots
      ensures Valid()
      ensures ordered == (old(ordered) && old(tick) + 1 < ticks)
      ensures old(Faithful()) ==> r == load(key)
      ensures old(Faithful()) && stored == key ==> Faithful()
      ensures r.None? ==> slots[..] == old(slots[..]) && recent == old(recent)
      ensures Held(old(slots[..]), key) ==>
                exists i :: 0 <= i < slots.Length && old(slots[..])[i].Used? && old(slots[..])[i].key == key
                            && r == Some(old(slots[..])[i].value)
                            && slots[..] == old(slots[..])[i := Used(key, r.value, tick)]
      ensures !Held(old(slots[..]), key) ==> r == load(key)
      ensures !Held(old(slots[..]), key) && r.Some? ==>
                exists i :: 0 <= i < slots.Length && MakesWay(old(slots[..]), i)
                            && slots[..] == old(slots[..])[i := Used(stored, r.value, tick)]
                            && recent == [i] + Without(old(recent), i)
      ensures old(Faithful()) && ordered && stored == key && r.Some? ==>
                Cached() == Lru(old(Cached()), key, slots.Length)
    {
      ghost var before, was, listed := tick, slots[..], recent;
      NextTick(true);
      var i := Find(key);
      if i < slots.Length {
        var value := Use(i, key, before);
        return Some(value);
      }
      var victim := Victim();
      r := load(key);
      if r.None? {
        return;
      }
      if stored == key {
        if ordered {
          MissKeys(was, listed, before, victim, Used(stored, r.value, tick));
        }
        if Exact(was, load) {
          PlaceExact(was, load, victim, Used(stored, r.value, tick));
        }
      }
      Place(victim, stored, r.value, before);
    }

    /**
     `ft_glyph_cache_get`: the counter moves only when a glyph is found or stored, and when there is
     no memory for the picture the slot that was to make way is left empty.
     */
    method LookupGlyph(key: K, room: bool) returns (r: Option<V>)
      requires Valid()
      modifies this, slots
      ensures Valid() && (old(Faithful()) ==> Faithful())
      ensures r.Some? ==> ordered == (old(ordered) && old(tick) + 1 < ticks)
      ensures r.None? ==> ordered == old(ordered) && tick == old(tick)
      ensures old(Faithful()) ==> r == load(key) || (r.None? && !room && !Held(old(slots[..]), key))
      ensures load(key).None? && r.None? ==> slots[..] == old(slots[..]) && recent == old(recent)
      ensures old(Faithful()) && ordered && r.Some? ==> Cached() == Lru(old(Cached()), key, slots.Length)
      ensures old(Faithful()) && ordered && r.None? && load(key).Some? ==>
                Cached() == if |old(Cached())| < slots.Length then old(Cached()) else old(Cached())[..slots.Length - 1]
    {
      ghost var before := tick;
      var i := Find(key);
      if i < slots.Length {
        NextTick(false);
        var value := Use(i, key, before);
        return Some(value);
      }
      r := load(key);
      if r.None? {
        return;
      }
      r := StoreGlyph(key, r.value, room);
    }

    /** Storing a rendered glyph that was not held. */
    method StoreGlyph(key: K, value: V, room: bool) returns (r: Option<V>)
      requires Valid() && !Held(slots[..], key) && load(key) == Some(value)
      modifies this, slots
      ensures Valid() && (old(Faithful()) ==> Faithful())
      ensures r == if room then Some(value) else None
      ensures room ==> ordered == (old(ordered) && old(tick) + 1 < ticks)
      ensures !room ==> ordered == old(ordered) && tick == old(tick)
      ensures ordered && room ==> Cached() == Lru(old(Cached()), key, slots.Length)
      ensures ordered && !room ==>
                Cached() == if |old(Cached())| < slots.Length then old(Cached()) else old(Cached())[..slots.Length - 1]
    {
      var victim := Victim();
      if !room {
        Clear(victim);
        return None;
      }
      ghost var before, was, listed := tick, slots[..], recent;
      NextTick(false);
      if ordered {
        MissKeys(was, listed, before, victim, Used(key, value, tick));
      }
      if Exact(was, load) {
        PlaceExact(was, load, victim, Used(key, value, tick));
      }
      Place(victim, key, value, before);
      return Some(value);
    }

    method Clear(victim: nat)
      requires Valid() && MakesWay(slots[..], victim)
      modifies slots, this`recent
      ensures Valid() && (old(Faithful()) ==> Faithful())
      ensures ordered ==>
                Cached() == if |old(recent)| < slots.Length then old(Cached()) else old(Cached())[..|old(recent)| - 1]
      ensures |old(recent)| == |old(Cached())| <= slots.Length
    {
      ghost var was := slots[..];
      CachedFits(was, recent);
      DropListed(was, recent, victim);
      if ordered {
        DropVictim(was, recent, tick, victim);
      }
      slots[victim] := Free;
      assert slots[..] == was[victim := Free];
      recent := Without(recent, victim);
    }
  }

  lemma {:induction false} CachedFits<K, V>(slots: seq<Slot<K, V>>, recent: seq<int>)
    requires Listed(slots, recent)
    ensures |Keys(slots, recent)| <= |slots|
  {
    AllBelow(slots, recent);
    DistinctBelow(recent, |slots|);
  }

  /** `snprintf` into the slot's path. */
  function Stored(path: string, slotPath: nat): string
    requires slotPath > 0
  {
    if |path| < slotPath then path else path[..slotPath - 1]
  }

  /**
   `png_cache_get` with its checks. A path that fits is stored whole and the cache stays faithful; one
   that does not fit is stored cut, and then the cache is faithful if and only if the cut path loads
   to the same picture and sits in no other slot.
   */
  method GetPicture<V(==,!new)>(cache: Cache<string, V>, path: string, slotPath: nat) returns (r: Option<V>)
    requires cache.Valid() && slotPath > 0
    modifies cache, cache.slots
    ensures cache.Valid()
    ensures cache.ordered == (old(cache.ordered) && (path == "" || old(cache.tick) + 1 < cache.ticks))
    ensures path == "" ==> r.None? && cache.tick == old(cache.tick)
    ensures r.None? ==> cache.slots[..] == old(cache.slots[..])
    ensures old(cache.Faithful()) && path != "" ==> r == cache.load(path)
    ensures old(cache.Faithful()) && |path| < slotPath ==> cache.Faithful()
    ensures path != "" && Held(old(cache.slots[..]), path) ==>
              exists i :: 0 <= i < cache.slots.Length
                          && old(cache.slots[..])[i].Used? && old(cache.slots[..])[i].key == path
                          && r == Some(old(cache.slots[..])[i].value)
                          && cache.slots[..] == old(cache.slots[..])[i := Used(path, r.value, cache.tick)]
    ensures path != "" && !Held(old(cache.slots[..]), path) ==> r == cache.load(path)
    ensures (forall i :: 0 <= i < cache.slots.Length && old(cache.slots[..])[i].Used? ==>
               |old(cache.slots[..])[i].key| + 1 <= slotPath) ==>
            (forall i :: 0 <= i < cache.slots.Length && cache.slots[i].Used? ==> |cache.slots[i].key| + 1 <= slotPath)
    ensures !Held(old(cache.slots[..]), path) && r.Some? ==>
              exists i :: 0 <= i < cache.slots.Length && MakesWay(old(cache.slots[..]), i)
                          && cache.slots[..] == old(cache.slots[..])[i := Used(Stored(path, slotPath), r.value, cache.tick)]
                          && cache.recent == [i] + Without(old(cache.recent), i)
                          && (old(cache.Faithful()) ==>
                                (cache.Faithful() <==>
                                 cache.load(Stored(path, slotPath)) == r
                                 && !Held(old(cache.slots[..])[i := Free], Stored(path, slotPath))))
  {
    if path == "" {
      return None;
    }
    ghost var was := cache.slots[..];
    r := cache.Lookup(path, Stored(path, slotPath));
    if !Held(was, path) && r.Some? {
      ghost var i :| 0 <= i < cache.slots.Length && MakesWay(was, i)
                     && cache.slots[..] == was[i := Used(Stored(path, slotPath), r.value, cache.tick)]
                     && cache.recent == [i] + Without(old(cache.recent), i);
      if Exact(was, cache.load) {
        StoredExact(was, cache.load, i, Used(Stored(path, slotPath), r.value, cache.tick));
      }
    }
  }

  /** A picture stored under a cut path is the answer for that cut path, whatever is in its file. */
  method CutPathAnswers<V(==,!new)>(cache: Cache<string, V>, path: string, slotPath: nat)
    returns (first: Option<V>, second: Option<V>)
    requires cache.Valid() && cache.Faithful() && 1 < slotPath <= |path| && cache.load(path).Some?
    requires !Held(cache.slots[..], path) && !Held(cache.slots[..], Stored(path, slotPath))
    modifies cache, cache.slots
    ensures first == second == cache.load(path)
  {
    first := GetPicture(cache, path, slotPath);
    second := GetPicture(cache, Stored(path, slotPath), slotPath);
  }

  /** Asking twice for a path that does not fit leaves its cut path in two slots. */
  method CutPathTwice<V(==,!new)>(cache: Cache<string, V>, path: string, slotPath: nat)
    requires cache.Valid() && cache.Faithful() && 0 < slotPath <= |path| && cache.load(path).Some?
    requires cache.slots.Length > 1 && cache.ordered && cache.tick + 2 < cache.ticks
    requires !Held(cache.slots[..], path)
    modifies cache, cache.slots
    ensures exists i, j :: 0 <= i < j < cache.slots.Length && cache.slots[i].Used? && cache.slots[j].Used?
                           && cache.slots[i].key == cache.slots[j].key == Stored(path, slotPath)
  {
    ghost var was, cut := cache.slots[..], Stored(path, slotPath);
    var picture := GetPicture(cache, path, slotPath);
    ghost var between, listed, before := cache.slots[..], cache.recent, cache.tick;
    ghost var i :| 0 <= i < |was| && between == was[i := Used(cut, picture.value, before)]
                   && listed == [i] + Without(old(cache.recent), i);
    assert !Held(between, path);
    picture := GetPicture(cache, path, slotPath);
    ghost var j :| 0 <= j < |was| && MakesWay(between, j)
                   && cache.slots[..] == between[j := Used(cut, picture.value, cache.tick)];
    NextMakesWay(between, listed, before, i, j);
    assert cache.slots[i] == cache.slots[..][i] == between[i] && cache.slots[j] == cache.slots[..][j];
    if i < j {
      assert cache.slots[i].key == cache.slots[j].key;
    } else {
      assert cache.slots[j].key == cache.slots[i].key;
    }
  }

  /** The slot used last does not make way next. */
  lemma {:induction false} NextMakesWay<K, V>(slots: seq<Slot<K, V>>, recent: seq<int>, tick: nat, i: nat, victim: nat)
    requires Listed(slots, recent) && Ordered(slots, recent, tick) && MakesWay(slots, victim)
    requires recent != [] && recent[0] == i && |slots| > 1
    ensures i != victim
  {
    VictimIsOldest(slots, recent, tick, victim);
    AllBelow(slots, recent);
  }

  /** A sequence of lookups that all succeed. */
  function LruRun<K(==)>(keys: seq<K>, later: seq<K>, n: nat): seq<K>
    requires n > 0
    decreases |later|
  {
    if later == [] then keys else LruRun(Lru(keys, later[0], n), later[1..], n)
  }

  lemma {:induction false} LruKeeps<K>(keys: seq<K>, key: K, n: nat)
    requires n > 0 && Distinct(keys) && |keys| <= n
    ensures Distinct(Lru(keys, key, n)) && |Lru(keys, key, n)| <= n && Lru(keys, key, n)[0] == key
  {
    WithoutDistinct(keys, key);
    InWithout(keys, key, key);
  }

  /** The keys used more lately than `key`. */
  function Front<K(==)>(keys: seq<K>, key: K): set<K>
    requires key in keys
    decreases |keys|
  {
    if keys[0] == key then {} else {keys[0]} + Front(keys[1..], key)
  }

  lemma {:induction false} FrontWithin<K>(keys: seq<K>, key: K)
    requires key in keys && Distinct(keys)
    ensures Front(keys, key) <= (set k | k in keys) && key !in Front(keys, key)
    ensures |Front(keys, key)| < |keys| && keys[|Front(keys, key)|] == key
    decreases |keys|
  {
    if keys[0] != key {
      FrontWithin(keys[1..], key);
      assert keys[0] !in keys[1..];
    }
  }

  lemma {:induction false} FrontWithout<K>(keys: seq<K>, key: K, x: K)
    requires key in keys && x != key
    ensures key in Without(keys, x) && Front(Without(keys, x), key) <= Front(keys, key)
    decreases |keys|
  {
    InWithout(keys, x, key);
    if keys[0] != key {
      FrontWithout(keys[1..], key, x);
      if keys[0] != x {
        assert Without(keys, x)[1..] == Without(keys[1..], x);
      }
    }
  }

  lemma {:induction false} FrontOfPrefix<K>(keys: seq<K>, key: K, n: nat)
    requires n <= |keys| && key in keys[..n]
    ensures key in keys && Front(keys[..n], key) == Front(keys, key)
    decreases |keys|
  {
    if keys[0] != key {
      assert keys[..n][1..] == keys[1..][..n - 1];
      FrontOfPrefix(keys[1..], key, n - 1);
    }
  }

  lemma {:induction false} FrontCons<K>(x: K, keys: seq<K>, key: K)
    requires key in keys && x != key
    ensures key in [x] + keys
    ensures Front([x] + keys, key) == {x} + Front(keys, key)
  {
    assert ([x] + keys)[1..] == keys;
  }

  /** One more key used: it is the only one that can come in front, and `key` stays while there is room. */
  lemma {:induction false} FrontAfter<K>(keys: seq<K>, key: K, x: K, n: nat)
    requires n > 0 && Distinct(keys) && |keys| <= n && key in keys
    requires x != key ==> |Front(keys, key) + {x}| < n
    ensures key in Lru(keys, x, n)
    ensures Front(Lru(keys, x, n), key) <= (if x == key then {} else Front(keys, key) + {x})
  {
    if x != key {
      FrontWithin(keys, key);
      if x in keys {
        FrontWithout(keys, key, x);
        FrontCons(x, Without(keys, x), key);
      } else if |keys| < n {
        FrontCons(x, keys, key);
      } else {
        FrontEvicted(keys, key, x, n);
      }
    }
  }

  lemma {:induction false} AddOne<K>(a: set<K>, x: K)
    requires x !in a
    ensures |a + {x}| == |a| + 1
  {
  }

  lemma {:induction false} AtIndex<K>(keys: seq<K>, key: K, i: nat, n: nat)
    requires i < n <= |keys| && keys[i] == key
    ensures key in keys[..n]
  {
    assert keys[..n][i] == key;
  }

  lemma {:induction false} FrontEvicted<K>(keys: seq<K>, key: K, x: K, n: nat)
    requires n > 0 && Distinct(keys) && |keys| == n && key in keys && x !in keys
    requires |Front(keys, key) + {x}| < n
    ensures key in [x] + keys[..n - 1]
    ensures Front([x] + keys[..n - 1], key) == Front(keys, key) + {x}
  {
    FrontWithin(keys, key);
    AddOne(Front(keys, key), x);
    AtIndex(keys, key, |Front(keys, key)|, n - 1);
    FrontOfPrefix(keys, key, n - 1);
    FrontCons(x, keys[..n - 1], key);
  }

  /** The different keys of a run. */
  function Different<K(==)>(later: seq<K>): set<K> {
    set k | k in later
  }

  lemma {:induction false} RunKeeps<K>(keys: seq<K>, key: K, later: seq<K>, n: nat)
    requires n > 0 && Distinct(keys) && |keys| <= n && key in keys
    requires |Front(keys, key) + (Different(later) - {key})| < n
    ensures key in LruRun(keys, later, n)
    decreases |later|
  {
    if later != [] {
      var x, rest := later[0], later[1..];
      assert x in Different(later) && Different(rest) <= Different(later);
      if x != key {
        SmallerSet(Front(keys, key) + {x}, Front(keys, key) + (Different(later) - {key}));
      }
      FrontAfter(keys, key, x, n);
      LruKeeps(keys, x, n);
      SmallerSet(Front(Lru(keys, x, n), key) + (Different(rest) - {key}), Front(keys, key) + (Different(later) - {key}));
      RunKeeps(Lru(keys, x, n), key, rest, n);
    }
  }

  lemma {:induction false} SmallerSet<K>(a: set<K>, b: set<K>)
    requires a <= b
    ensures |a| <= |b|
  {
    assert b == a + (b - a);
  }

  /** A picture just used is still cached after any lookups of fewer than `n` other pictures. */
  lemma {:induction false} StaysCached<K>(keys: seq<K>, key: K, later: seq<K>, n: nat)
    requires n > 0 && Distinct(keys) && |keys| <= n
    requires |Different(later) - {key}| < n
    ensures key in LruRun(Lru(keys, key, n), later, n)
  {
    LruKeeps(keys, key, n);
    assert Front(Lru(keys, key, n), key) == {};
    assert {} + (Different(later) - {key}) == Different(later) - {key};
    RunKeeps(Lru(keys, key, n), key, later, n);
  }
}
