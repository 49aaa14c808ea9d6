/**
 * The global-variable table (source/types/hash_table.cpp): open addressing with
 * linear probing over an array of entries, tombstones for removed keys, and
 * growth by half the capacity when the load factor would reach 3/4.
 */
module HashTables {
  import opened LuxStrings
  import opened Values

  /** An entry: a key String held by value (its three fields) and a value. */
  datatype Entry = Entry(key: StringData, value: Value)

  /** A never-used slot: null key, nil value. */
  const EmptyEntry := Entry(NullString, Nil)

  /** A removed slot: null key, the value true. */
  const Tombstone := Entry(NullString, Bool(true))

  const InitialCapacity := 8

  predicate IsEmpty(e: Entry)
  {
    e.key.IsNull() && e.value.Nil?
  }

  predicate IsTombstone(e: Entry)
  {
    e.key.IsNull() && !e.value.Nil?
  }

  predicate IsLive(e: Entry)
  {
    !e.key.IsNull()
  }

  /** The entry is live and its key compares equal (String::operator==) to key. */
  predicate Holds(e: Entry, key: StringData)
  {
    IsLive(e) && StrEqual(e.key, key)
  }

  /** The slot where probing for a hash starts: hash % capacity. */
  function Home(hash: bv32, n: nat): nat
    requires n > 0
    ensures Home(hash, n) < n
  {
    (hash as int) % n
  }

  /** The slot visited after j steps of linear probing from the home slot, wrapping around. */
  function Slot(hash: bv32, j: nat, n: nat): (s: nat)
    requires j < n
    ensures s < n
  {
    var t := Home(hash, n) + j;
    if t < n then t else t - n
  }

  /** How many probing steps lead from the home slot to slot s. */
  function Dist(hash: bv32, s: nat, n: nat): (d: nat)
    requires s < n
    ensures d < n && Slot(hash, d, n) == s
  {
    var home := Home(hash, n);
    if s >= home then s - home else s + n - home
  }

  /** Distinct step counts below the capacity visit distinct slots. */
  lemma SlotInjective(hash: bv32, j1: nat, j2: nat, n: nat)
    requires j1 < n && j2 < n && Slot(hash, j1, n) == Slot(hash, j2, n)
    ensures j1 == j2
  {
  }

  /** One more probing step moves to the next slot, wrapping at the end of the array. */
  lemma SlotNext(hash: bv32, j: nat, n: nat)
    requires j + 1 < n
    ensures Slot(hash, j + 1, n) == (Slot(hash, j, n) + 1) % n
  {
    var next := Slot(hash, j, n) + 1;
    if next < n {
      ModBelow(next, n);
    } else {
      assert next == n;
      assert next % n == 0;
    }
  }

  lemma ModBelow(x: nat, n: nat)
    requires x < n
    ensures x % n == x
  {
  }

  lemma DistOfSlot(hash: bv32, j: nat, n: nat)
    requires j < n
    ensures Dist(hash, Slot(hash, j, n), n) == j
  {
    SlotInjective(hash, j, Dist(hash, Slot(hash, j, n), n), n);
  }

  /** Every live key can be reached from its home slot without crossing an empty slot. */
  ghost predicate ChainsIntact(slots: seq<Entry>)
  {
    forall s, j ::
      0 <= s < |slots| && IsLive(slots[s]) && 0 <= j < Dist(slots[s].key.hash, s, |slots|) ==>
        !IsEmpty(slots[Slot(slots[s].key.hash, j, |slots|)])
  }

  /** No two live entries hold the same key. */
  ghost predicate UniqueKeys(slots: seq<Entry>)
  {
    forall s, t :: 0 <= s < |slots| && 0 <= t < |slots| && s != t && IsLive(slots[s]) && IsLive(slots[t]) ==>
      slots[s].key != slots[t].key
  }

  ghost predicate NoTombstones(slots: seq<Entry>)
  {
    forall s :: 0 <= s < |slots| ==> !IsTombstone(slots[s])
  }

  /** Some live entry holds a key equal to key. */
  ghost predicate Present(slots: seq<Entry>, key: StringData)
  {
    exists s :: 0 <= s < |slots| && Holds(slots[s], key)
  }

  /** The key-to-value map the live entries represent. */
  ghost function ContentsOf(slots: seq<Entry>): map<StringData, Value>
    requires UniqueKeys(slots)
  {
    map s | 0 <= s < |slots| && IsLive(slots[s]) :: slots[s].key := slots[s].value
  }

  /** The number of slots that are not empty (live entries and tombstones). */
  function CountUsed(slots: seq<Entry>): nat
  {
    if slots == [] then 0 else CountUsed(slots[..|slots| - 1]) + (if IsEmpty(slots[|slots| - 1]) then 0 else 1)
  }

  /** The number of live entries. */
  function CountLive(slots: seq<Entry>): nat
  {
    if slots == [] then 0 else CountLive(slots[..|slots| - 1]) + (if IsLive(slots[|slots| - 1]) then 1 else 0)
  }

  lemma {:induction false} CountUsedBound(slots: seq<Entry>)
    ensures CountLive(slots) <= CountUsed(slots) <= |slots|
    ensures CountUsed(slots) < |slots| ==> exists s :: 0 <= s < |slots| && IsEmpty(slots[s])
  {
    if slots != [] {
      var init := slots[..|slots| - 1];
      CountUsedBound(init);
      if CountUsed(slots) < |slots| && !IsEmpty(slots[|slots| - 1]) {
        var s :| 0 <= s < |init| && IsEmpty(init[s]);
        assert slots[s] == init[s];
      }
    }
  }

  /** Overwriting one slot changes the used count by what that slot gains or loses. */
  lemma {:induction false} CountAfterWrite(slots: seq<Entry>, i: nat, e: Entry)
    requires i < |slots|
    ensures CountUsed(slots[i := e]) + (if IsEmpty(slots[i]) then 0 else 1)
         == CountUsed(slots) + (if IsEmpty(e) then 0 else 1)
    decreases |slots|
  {
    var last := |slots| - 1;
    if i < last {
      assert slots[i := e][..last] == slots[..last][i := e];
      CountAfterWrite(slots[..last], i, e);
    } else {
      assert slots[i := e][..last] == slots[..last];
    }
  }

  lemma {:induction false} CountOfEmptySlots(slots: seq<Entry>)
    requires forall s :: 0 <= s < |slots| ==> IsEmpty(slots[s])
    ensures CountUsed(slots) == 0
  {
    if slots != [] {
      CountOfEmptySlots(slots[..|slots| - 1]);
    }
  }

  /** Writing a non-empty entry keeps every probe chain intact, provided the written key's own chain is intact. */
  lemma ChainsAfterWrite(slots: seq<Entry>, i: nat, e: Entry)
    requires ChainsIntact(slots) && i < |slots| && !IsEmpty(e)
    requires IsLive(e) ==> forall j :: 0 <= j < Dist(e.key.hash, i, |slots|) ==> !IsEmpty(slots[Slot(e.key.hash, j, |slots|)])
    ensures ChainsIntact(slots[i := e])
  {
    var n := |slots|;
    var t := slots[i := e];
    forall s, j | 0 <= s < n && IsLive(t[s]) && 0 <= j < Dist(t[s].key.hash, s, n)
      ensures !IsEmpty(t[Slot(t[s].key.hash, j, n)])
    {
      var k := Slot(t[s].key.hash, j, n);
      if k != i {
        if s == i {
          assert !IsEmpty(slots[k]);
        } else {
          assert !IsEmpty(slots[Slot(slots[s].key.hash, j, n)]);
        }
      }
    }
  }

  /** Writing an entry keeps keys unique when no other live entry holds its key. */
  lemma UniqueAfterWrite(slots: seq<Entry>, i: nat, e: Entry)
    requires UniqueKeys(slots) && i < |slots|
    requires IsLive(e) ==> forall t :: 0 <= t < |slots| && t != i && IsLive(slots[t]) ==> slots[t].key != e.key
    ensures UniqueKeys(slots[i := e])
  {
  }

  /** A live entry's key maps to that entry's value. */
  lemma ContentsAt(slots: seq<Entry>, s: nat)
    requires UniqueKeys(slots) && s < |slots| && IsLive(slots[s])
    ensures slots[s].key in ContentsOf(slots) && ContentsOf(slots)[slots[s].key] == slots[s].value
  {
  }

  /** The map a table represents once slot i of slots is overwritten with e: slot i's old key goes, e's key comes. */
  ghost function AfterWrite(slots: seq<Entry>, i: nat, e: Entry): map<StringData, Value>
    requires i < |slots| && UniqueKeys(slots)
  {
    var base := if IsLive(slots[i]) then ContentsOf(slots) - {slots[i].key} else ContentsOf(slots);
    if IsLive(e) then base[e.key := e.value] else base
  }

  lemma ContentsAfterWriteAt(slots: seq<Entry>, i: nat, e: Entry, k: StringData)
    requires i < |slots| && UniqueKeys(slots) && UniqueKeys(slots[i := e])
    ensures k in ContentsOf(slots[i := e]) <==> k in AfterWrite(slots, i, e)
    ensures k in ContentsOf(slots[i := e]) ==> ContentsOf(slots[i := e])[k] == AfterWrite(slots, i, e)[k]
  {
    var t := slots[i := e];
    if IsLive(e) && k == e.key {
      ContentsAt(t, i);
    } else if k in ContentsOf(slots) && !(IsLive(slots[i]) && k == slots[i].key) {
      var s :| 0 <= s < |slots| && IsLive(slots[s]) && slots[s].key == k;
      assert t[s] == slots[s];
      ContentsAt(t, s);
    }
  }

  /** Writing an entry replaces, in the represented map, what slot i held by what e holds. */
  lemma ContentsAfterWrite(slots: seq<Entry>, i: nat, e: Entry)
    requires i < |slots| && UniqueKeys(slots) && UniqueKeys(slots[i := e])
    ensures ContentsOf(slots[i := e]) == AfterWrite(slots, i, e)
  {
    forall k
      ensures (k in ContentsOf(slots[i := e]) <==> k in AfterWrite(slots, i, e))
      ensures k in ContentsOf(slots[i := e]) ==> ContentsOf(slots[i := e])[k] == AfterWrite(slots, i, e)[k]
    {
      ContentsAfterWriteAt(slots, i, e, k);
    }
  }

  /** Appending an entry adds what it holds to the represented map. */
  lemma ContentsSnoc(slots: seq<Entry>, e: Entry)
    requires UniqueKeys(slots + [e])
    ensures UniqueKeys(slots)
    ensures ContentsOf(slots + [e]) == if IsLive(e) then ContentsOf(slots)[e.key := e.value] else ContentsOf(slots)
  {
    var t := slots + [e];
    assert forall s :: 0 <= s < |slots| ==> t[s] == slots[s];
    var want := if IsLive(e) then ContentsOf(slots)[e.key := e.value] else ContentsOf(slots);
    forall k | k in want
      ensures k in ContentsOf(t) && ContentsOf(t)[k] == want[k]
    {
      if IsLive(e) && k == e.key {
        assert IsLive(t[|slots|]);
      } else {
        var s :| 0 <= s < |slots| && IsLive(slots[s]) && slots[s].key == k;
        assert IsLive(t[s]) && t[s].key == k;
      }
    }
    forall k | k in ContentsOf(t)
      ensures k in want
    {
      var s :| 0 <= s < |t| && IsLive(t[s]) && t[s].key == k;
      if s < |slots| {
        assert k in ContentsOf(slots);
      }
    }
  }

  /** A non-null key is present exactly when it is a key of the represented map. */
  lemma PresentIsMembership(slots: seq<Entry>, key: StringData)
    requires UniqueKeys(slots) && !key.IsNull()
    ensures Present(slots, key) <==> key in ContentsOf(slots)
    ensures key in ContentsOf(slots) ==> forall s :: 0 <= s < |slots| && Holds(slots[s], key) ==> ContentsOf(slots)[key] == slots[s].value
  {
    forall s | 0 <= s < |slots| && IsLive(slots[s])
      ensures StrEqual(slots[s].key, key) <==> slots[s].key == key
    {
      StrEqualNonNullIsEquality(slots[s].key, key);
    }
  }

  /**
   * What find reports after probing from the key's home slot: stop is the first
   * probe step that met an empty slot or an equal key, no earlier step met
   * either, and the slot returned (dist steps from home) is the equal key's slot,
   * or else the first slot with a null key, a tombstone passed on the way or the
   * empty slot itself.
   */
  ghost predicate SearchOutcome(slots: seq<Entry>, key: StringData, index: nat, dist: nat, stop: nat)
  {
    var n := |slots|;
    var h := key.hash;
    dist <= stop < n && index == Slot(h, dist, n) &&
    (forall j :: 0 <= j < stop ==> !IsEmpty(slots[Slot(h, j, n)]) && !Holds(slots[Slot(h, j, n)], key)) &&
    (IsEmpty(slots[Slot(h, stop, n)]) || Holds(slots[Slot(h, stop, n)], key)) &&
    (Holds(slots[Slot(h, stop, n)], key) ==> dist == stop) &&
    (IsEmpty(slots[Slot(h, stop, n)]) ==>
      slots[index].key.IsNull() && forall j :: 0 <= j < dist ==> IsLive(slots[Slot(h, j, n)]))
  }

  /** HashTable::find over an array of slots; it terminates because some slot is empty. */
  method FindSlot(slots: array<Entry>, key: StringData) returns (index: nat, ghost dist: nat, ghost stop: nat)
    requires exists s :: 0 <= s < slots.Length && IsEmpty(slots[s])
    ensures SearchOutcome(slots[..], key, index, dist, stop)
  {
    var n := slots.Length;
    ghost var h := key.hash;
    index := (key.hash as int) % n;
    var tombstone: nat := 0;
    var haveTombstone := false;
    ghost var tombDist: nat := 0;
    ghost var j: nat := 0;
    while true
      invariant j < n && index == Slot(h, j, n)
      invariant forall i :: 0 <= i < j ==> !IsEmpty(slots[Slot(h, i, n)]) && !Holds(slots[Slot(h, i, n)], key)
      invariant !haveTombstone ==> forall i :: 0 <= i < j ==> IsLive(slots[Slot(h, i, n)])
      invariant haveTombstone ==> tombDist < j && tombstone == Slot(h, tombDist, n) && slots[tombstone].key.IsNull()
      invariant haveTombstone ==> forall i :: 0 <= i < tombDist ==> IsLive(slots[Slot(h, i, n)])
      decreases n - j
    {
      var entry := slots[index];
      if entry.key.IsNull() {
        if entry.value.Nil? {
          stop := j;
          if haveTombstone {
            index, dist := tombstone, tombDist;
          } else {
            dist := j;
          }
          return;
        } else if !haveTombstone {
          tombstone, tombDist, haveTombstone := index, j, true;
        }
      } else if StrEqual(entry.key, key) {
        dist, stop := j, j;
        return;
      }
      if j + 1 == n {
        // every slot has been probed and none was empty
        var e :| 0 <= e < n && IsEmpty(slots[e]);
        var d := Dist(h, e, n);
        assert false;
      }
      SlotNext(h, j, n);
      index := (index + 1) % n;
      j := j + 1;
    }
  }

  /** The invariants of the slot array: intact probe chains and unique live keys. */
  ghost predicate ProbeInvariant(slots: seq<Entry>)
  {
    ChainsIntact(slots) && UniqueKeys(slots)
  }

  /** With no key held twice, at most one entry holds a given key. */
  lemma HoldsUnique(slots: seq<Entry>, key: StringData, s: nat, t: nat)
    requires UniqueKeys(slots)
    requires s < |slots| && t < |slots| && Holds(slots[s], key) && Holds(slots[t], key)
    ensures s == t
  {
    StrEqualNonNullIsEquality(slots[s].key, slots[t].key);
  }

  /** Under the table invariant, find returns the slot that holds the key whenever one does. */
  lemma FindsPresentKey(slots: seq<Entry>, key: StringData, index: nat, dist: nat, stop: nat, s: nat)
    requires ProbeInvariant(slots) && SearchOutcome(slots, key, index, dist, stop)
    requires s < |slots| && Holds(slots[s], key)
    ensures index == s
  {
    var n := |slots|;
    var h := key.hash;
    var d := Dist(h, s, n);
    assert slots[s].key.hash == h;
    forall j | 0 <= j < d
      ensures !IsEmpty(slots[Slot(h, j, n)]) && !Holds(slots[Slot(h, j, n)], key)
    {
      var k := Slot(h, j, n);
      if Holds(slots[k], key) {
        HoldsUnique(slots, key, k, s);
        SlotInjective(h, j, d, n);
      }
    }
    assert Holds(slots[Slot(h, d, n)], key);
  }

  /** Under the probe invariant, a key that no entry holds is reported at a null-key slot reachable from its home without crossing an empty slot. */
  lemma FindsFreeSlot(slots: seq<Entry>, key: StringData, index: nat, dist: nat, stop: nat)
    requires SearchOutcome(slots, key, index, dist, stop) && !Present(slots, key)
    ensures slots[index].key.IsNull() && Dist(key.hash, index, |slots|) == dist
    ensures forall j :: 0 <= j < dist ==> !IsEmpty(slots[Slot(key.hash, j, |slots|)])
  {
    DistOfSlot(key.hash, dist, |slots|);
  }

  /**
   * Writing a key and value into the slot find reports keeps the slot invariants,
   * maps the key to the value and counts one more used slot exactly when the
   * slot was empty.
   */
  lemma InsertEffect(before: seq<Entry>, key: StringData, value: Value, index: nat, dist: nat, stop: nat)
    requires ProbeInvariant(before) && !key.IsNull()
    requires SearchOutcome(before, key, index, dist, stop)
    ensures var after := before[index := Entry(key, value)];
      ProbeInvariant(after) && ContentsOf(after) == ContentsOf(before)[key := value] && Present(after, key) &&
      CountUsed(after) == CountUsed(before) + (if IsEmpty(before[index]) then 1 else 0)
  {
    var e := Entry(key, value);
    var n := |before|;
    if Present(before, key) {
      var s :| 0 <= s < n && Holds(before[s], key);
      FindsPresentKey(before, key, index, dist, stop, s);
      assert before[index].key.hash == key.hash;
      StrEqualNonNullIsEquality(before[index].key, key);
      forall t | 0 <= t < n && t != index && IsLive(before[t])
        ensures before[t].key != key
      {
      }
    } else {
      FindsFreeSlot(before, key, index, dist, stop);
    }
    ChainsAfterWrite(before, index, e);
    UniqueAfterWrite(before, index, e);
    ContentsAfterWrite(before, index, e);
    CountAfterWrite(before, index, e);
    assert Holds(before[index := e][index], key);
  }

  /**
   * Turning the slot that holds a key into a tombstone keeps the slot
   * invariants and the used count, and removes the key.
   */
  lemma RemoveEffect(before: seq<Entry>, key: StringData, index: nat)
    requires ProbeInvariant(before) && index < |before| && Holds(before[index], key)
    ensures var after := before[index := Tombstone];
      ProbeInvariant(after) && !Present(after, key) && CountUsed(after) == CountUsed(before) &&
      (!key.IsNull() ==> ContentsOf(after) == ContentsOf(before) - {key})
  {
    var after := before[index := Tombstone];
    ChainsAfterWrite(before, index, Tombstone);
    UniqueAfterWrite(before, index, Tombstone);
    ContentsAfterWrite(before, index, Tombstone);
    CountAfterWrite(before, index, Tombstone);
    forall s | 0 <= s < |after| && Holds(after[s], key)
      ensures false
    {
      HoldsUnique(before, key, s, index);
    }
    if !key.IsNull() {
      StrEqualNonNullIsEquality(before[index].key, key);
    }
  }

  /** Extending a prefix of a slot array by one entry extends its map and live count by what that entry holds. */
  lemma PrefixStep(slots: seq<Entry>, i: nat)
    requires UniqueKeys(slots) && i < |slots|
    ensures UniqueKeys(slots[..i]) && UniqueKeys(slots[..i + 1])
    ensures ContentsOf(slots[..i + 1]) ==
      if IsLive(slots[i]) then ContentsOf(slots[..i])[slots[i].key := slots[i].value] else ContentsOf(slots[..i])
    ensures CountLive(slots[..i + 1]) == CountLive(slots[..i]) + (if IsLive(slots[i]) then 1 else 0)
    ensures IsLive(slots[i]) ==> slots[i].key !in ContentsOf(slots[..i])
  {
    assert slots[..i + 1] == slots[..i] + [slots[i]];
    assert slots[..i + 1][..i] == slots[..i];
    ContentsSnoc(slots[..i], slots[i]);
  }

  /**
   * One step of the rehash loop: re-inserting the live entry i of the old array
   * into a tombstone-free array that holds exactly the old entries before i
   * fills an empty slot, after which it holds exactly the entries up to i.
   */
  lemma RehashStep(oldSlots: seq<Entry>, i: nat, before: seq<Entry>, dest: nat, dist: nat, stop: nat)
    requires UniqueKeys(oldSlots) && i < |oldSlots| && IsLive(oldSlots[i])
    requires ProbeInvariant(before) && NoTombstones(before) && UniqueKeys(oldSlots[..i])
    requires ContentsOf(before) == ContentsOf(oldSlots[..i]) && CountUsed(before) == CountLive(oldSlots[..i])
    requires SearchOutcome(before, oldSlots[i].key, dest, dist, stop)
    ensures var after := before[dest := oldSlots[i]];
      ProbeInvariant(after) && NoTombstones(after) && UniqueKeys(oldSlots[..i + 1]) &&
      ContentsOf(after) == ContentsOf(oldSlots[..i + 1]) &&
      CountUsed(after) == CountUsed(before) + 1 == CountLive(oldSlots[..i + 1])
  {
    var e := oldSlots[i];
    PrefixStep(oldSlots, i);
    PresentIsMembership(before, e.key);
    FindsFreeSlot(before, e.key, dest, dist, stop);
    InsertEffect(before, e.key, e.value, dest, dist, stop);
  }

  /** The table: m_capacity, m_size and the entry array m_entries. */
  class HashTable {
    var capacity: nat
    var size: nat
    var entries: array<Entry>
    ghost var Repr: set<object>

    /**
     * The table invariant: size counts the slots that are not empty (live
     * entries and tombstones alike), stays below 3/4 of the capacity, and
     * every live key is reachable by probing and held only once.
     */
    ghost predicate Valid()
      reads this, Repr
    {
      Repr == {this, entries} &&
      entries.Length == capacity && capacity >= InitialCapacity &&
      size == CountUsed(entries[..]) && 4 * size < 3 * capacity &&
      ProbeInvariant(entries[..])
    }

    /** The key-to-value map the table represents. */
    ghost function Contents(): map<StringData, Value>
      reads this, Repr
      requires Valid()
    {
      ContentsOf(entries[..])
    }

    /** HashTable(): capacity 8, size 0, every slot empty. */
    constructor ()
      ensures Valid() && fresh(Repr)
      ensures capacity == InitialCapacity && size == 0
      ensures forall s :: 0 <= s < capacity ==> entries[s] == EmptyEntry
      ensures Contents() == map[]
    {
      capacity := InitialCapacity;
      size := 0;
      entries := new Entry[InitialCapacity](_ => EmptyEntry);
      new;
      Repr := {this, entries};
      CountOfEmptySlots(entries[..]);
    }

    /** clear: back to capacity 8, size 0 and a fresh array of empty slots. */
    method Clear()
      requires Valid()
      modifies Repr
      ensures Valid() && fresh(Repr - old(Repr))
      ensures capacity == InitialCapacity && size == 0
      ensures forall s :: 0 <= s < capacity ==> entries[s] == EmptyEntry
      ensures Contents() == map[]
    {
      capacity := InitialCapacity;
      size := 0;
      entries := new Entry[InitialCapacity](_ => EmptyEntry);
      Repr := {this, entries};
      CountOfEmptySlots(entries[..]);
    }

    /** find: the slot holding an equal key if there is one, otherwise the slot an insertion would use. */
    method Find(key: StringData) returns (index: nat)
      requires Valid()
      ensures index < capacity
      ensures Present(entries[..], key) ==> Holds(entries[index], key)
      ensures !Present(entries[..], key) ==> entries[index].key.IsNull()
    {
      CountUsedBound(entries[..]);
      ghost var dist, stop;
      index, dist, stop := FindSlot(entries, key);
      if Present(entries[..], key) {
        var s :| 0 <= s < capacity && Holds(entries[s], key);
        FindsPresentKey(entries[..], key, index, dist, stop, s);
      } else {
        FindsFreeSlot(entries[..], key, index, dist, stop);
      }
    }

    /** contains: find lands on a live entry. */
    method Contains(key: StringData) returns (found: bool)
      requires Valid()
      ensures found <==> Present(entries[..], key)
      ensures !key.IsNull() ==> (found <==> key in Contents())
    {
      var index := Find(key);
      found := !entries[index].key.IsNull();
      if !key.IsNull() {
        PresentIsMembership(entries[..], key);
      }
    }

    /**
     * insert: grows the table first if needed, then writes the key and value
     * into the slot find returns; size grows only when that slot was empty.
     */
    method Insert(key: StringData, value: Value)
      requires Valid() && !key.IsNull()
      modifies Repr
      ensures Valid() && fresh(Repr - old(Repr))
      ensures Contents() == old(Contents())[key := value]
      ensures Present(entries[..], key)
    {
      AdjustCapacity();
      CountUsedBound(entries[..]);
      ghost var before := entries[..];
      ghost var dist, stop;
      var index;
      index, dist, stop := FindSlot(entries, key);
      var entry := entries[index];
      if entry.key.IsNull() && entry.value.Nil? {
        size := size + 1;
      }
      entries[index] := Entry(key, value);
      assert entries[..] == before[index := Entry(key, value)];
      InsertEffect(before, key, value, index, dist, stop);
    }

    /**
     * remove: false on an empty table or a key that is not present; otherwise
     * the key's slot becomes a tombstone and size is left unchanged.
     */
    method Remove(key: StringData) returns (removed: bool)
      requires Valid()
      modifies Repr
      ensures Valid() && Repr == old(Repr)
      ensures removed == old(Present(entries[..], key))
      ensures !Present(entries[..], key)
      ensures size == old(size) && capacity == old(capacity)
      ensures !key.IsNull() ==> Contents() == old(Contents()) - {key}
    {
      if size == 0 {
        CountUsedBound(entries[..]);
        if Present(entries[..], key) {
          var s :| 0 <= s < capacity && Holds(entries[s], key);
          CountAfterWrite(entries[..], s, EmptyEntry);
        }
        if !key.IsNull() {
          PresentIsMembership(entries[..], key);
        }
        return false;
      }
      ghost var before := entries[..];
      var index := Find(key);
      if entries[index].key.IsNull() {
        if !key.IsNull() {
          PresentIsMembership(entries[..], key);
        }
        return false;
      }
      entries[index] := Tombstone;
      assert entries[..] == before[index := Tombstone];
      RemoveEffect(before, key, index);
      removed := true;
    }

    /**
     * adjustCapacity, with the rehash aimed at the new array: when size + 1
     * reaches 3/4 of the capacity, every live entry is re-inserted into an
     * array half again as large; tombstones are dropped and size becomes the
     * number of live entries.
     */
    method AdjustCapacity()
      requires Valid()
      modifies Repr
      ensures Valid() && fresh(Repr - old(Repr))
      ensures Contents() == old(Contents())
      ensures 4 * (size + 1) < 3 * capacity
      ensures old(4 * (size + 1) < 3 * capacity) ==> unchanged(this) && entries == old(entries)
      ensures !old(4 * (size + 1) < 3 * capacity) ==>
        capacity == old(capacity) + old(capacity) / 2 && size == old(CountLive(entries[..])) && NoTombstones(entries[..])
    {
      if 4 * (size + 1) < 3 * capacity {
        return;
      }
      var newCapacity := capacity + capacity / 2;
      CountUsedBound(entries[..]);
      assert 4 * (CountLive(entries[..]) + 1) < 3 * newCapacity by {
        var half := capacity / 2;
        assert half >= 4 && newCapacity == capacity + half;
      }
      var newEntries := new Entry[newCapacity](_ => EmptyEntry);
      Rehash(newEntries);
      entries := newEntries;
      capacity := newCapacity;
      Repr := {this, entries};
    }

    /**
     * The rehash loop of adjustCapacity: size restarts at 0 and each live entry
     * of the current array is written into the slot find reports in the new one.
     */
    method Rehash(newEntries: array<Entry>)
      requires entries.Length == capacity && UniqueKeys(entries[..])
      requires newEntries != entries && newEntries.Length >= capacity
      requires forall s :: 0 <= s < newEntries.Length ==> newEntries[s] == EmptyEntry
      modifies this`size, newEntries
      ensures size == CountUsed(newEntries[..]) == CountLive(entries[..])
      ensures ProbeInvariant(newEntries[..]) && NoTombstones(newEntries[..])
      ensures ContentsOf(newEntries[..]) == ContentsOf(entries[..])
    {
      ghost var oldSlots := entries[..];
      CountOfEmptySlots(newEntries[..]);
      size := 0;
      for i := 0 to capacity
        invariant size == CountUsed(newEntries[..]) == CountLive(oldSlots[..i])
        invariant ProbeInvariant(newEntries[..]) && NoTombstones(newEntries[..])
        invariant UniqueKeys(oldSlots[..i]) && ContentsOf(newEntries[..]) == ContentsOf(oldSlots[..i])
      {
        var entry := entries[i];
        assert entry == oldSlots[i];
        if entry.key.IsNull() {
          PrefixStep(oldSlots, i);
          continue;
        }
        CountUsedBound(oldSlots[..i]);
        CountUsedBound(newEntries[..]);
        ghost var before := newEntries[..];
        ghost var dist, stop;
        var dest;
        dest, dist, stop := FindSlot(newEntries, entry.key);
        newEntries[dest] := entry;
        size := size + 1;
        assert newEntries[..] == before[dest := entry];
        RehashStep(oldSlots, i, before, dest, dist, stop);
      }
      assert oldSlots[..capacity] == oldSlots;
    }

    /**
     * adjustCapacity as the source writes it: the rehash loop calls find on the
     * old array, so each live entry is copied onto itself, and the fresh array
     * that is then installed holds nothing, while size is set to the number of
     * live entries it should hold.
     */
    method AdjustCapacityAsWritten()
      requires Valid()
      requires !(4 * (size + 1) < 3 * capacity)
      modifies Repr
      ensures fresh(entries) && entries.Length == capacity && capacity == old(capacity) + old(capacity) / 2
      ensures forall s :: 0 <= s < capacity ==> IsEmpty(entries[s])
      ensures size == old(CountLive(entries[..])) && CountUsed(entries[..]) == 0
      ensures forall key :: !Present(entries[..], key)
    {
      var newCapacity := capacity + capacity / 2;
      var newEntries := new Entry[newCapacity](_ => EmptyEntry);
      CountUsedBound(entries[..]);
      RehashInPlace();
      entries := newEntries;
      capacity := newCapacity;
      Repr := {this, entries};
      CountOfEmptySlots(entries[..]);
    }

    /**
     * The rehash loop as the source writes it: find searches the current array,
     * where each live entry's key is found in its own slot, so the entry is
     * copied onto itself; only size changes.
     */
    method RehashInPlace()
      requires entries.Length == capacity && ProbeInvariant(entries[..])
      requires exists s :: 0 <= s < capacity && IsEmpty(entries[s])
      modifies this`size, entries
      ensures entries[..] == old(entries[..])
      ensures size == CountLive(entries[..])
    {
      ghost var oldSlots := entries[..];
      size := 0;
      for i := 0 to capacity
        invariant entries[..] == oldSlots
        invariant size == CountLive(oldSlots[..i])
      {
        assert oldSlots[..i + 1] == oldSlots[..i] + [oldSlots[i]];
        var entry := entries[i];
        if entry.key.IsNull() {
          continue;
        }
        ghost var dist, stop;
        var dest;
        dest, dist, stop := FindSlot(entries, entry.key);
        FindsPresentKey(oldSlots, entry.key, dest, dist, stop, i);
        entries[dest] := entry;
        assert entries[..] == oldSlots;
        size := size + 1;
      }
      assert oldSlots[..capacity] == oldSlots;
    }
  }
}
