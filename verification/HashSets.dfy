/** The open-addressing hash set: linear probing, tombstones, doubling and halving.
    Keys have one fixed size; the hash is an arbitrary function. */
module HashSets {
  import opened Common

  datatype Record<V> = Record(key: nat, value: V)

  datatype Slot<V> = Free | Occupied(rec: Record<V>) | Deleted

  type Table<V> = seq<Slot<V>>

  type Hash = nat -> nat

  function Home(hash: Hash, key: nat, n: nat): (r: nat)
    requires n > 0
    ensures r < n
  {
    hash(key) % n
  }

  /** Probing starts at the remainder of the hash. */
  lemma HomeIsRemainder(hash: Hash, key: nat, n: nat, q: nat, r: nat)
    requires r < n && hash(key) == q * n + r
    ensures Home(hash, key, n) == r
  {
    Divided(hash(key), n, q, r);
  }

  /** How many steps a probe that starts at `home` needs to reach `i`. */
  ghost function Dist(home: nat, i: nat, n: nat): nat
    requires home < n && i < n
  {
    if home <= i then i - home else i + n - home
  }

  /** No free slot lies between a record's home and its position. */
  ghost predicate ProbeOk<V>(hash: Hash, t: Table<V>) {
    forall i, j :: 0 <= i < |t| && 0 <= j < |t| && t[i].Occupied?
                   && Dist(Home(hash, t[i].rec.key, |t|), j, |t|) < Dist(Home(hash, t[i].rec.key, |t|), i, |t|)
                   ==> !t[j].Free?
  }

  ghost function Bag<V>(s: Slot<V>): multiset<Record<V>> {
    if s.Occupied? then multiset{s.rec} else multiset{}
  }

  ghost function Records<V>(t: Table<V>): multiset<Record<V>> {
    if t == [] then multiset{} else Records(t[..|t| - 1]) + Bag(t[|t| - 1])
  }

  lemma {:induction false} RecordsUpdate<V>(t: Table<V>, i: nat, s: Slot<V>)
    requires i < |t|
    ensures Bag(t[i]) <= Records(t)
    ensures Records(t[i := s]) == Records(t) - Bag(t[i]) + Bag(s)
  {
    hide Bag;
    var n := |t| - 1;
    if i == n {
      assert t[i := s][..n] == t[..n];
    } else {
      RecordsUpdate(t[..n], i, s);
      assert t[i := s][..n] == t[..n][i := s];
      assert Records(t[i := s]) == Records(t[..n][i := s]) + Bag(t[n]);
    }
  }

  lemma {:induction false} RecordsAreSlots<V>(t: Table<V>, r: Record<V>)
    ensures r in Records(t) <==> exists i :: 0 <= i < |t| && t[i] == Occupied(r)
  {
    if t != [] {
      var n := |t| - 1;
      RecordsAreSlots(t[..n], r);
      assert t == t[..n] + [t[n]];
      if t[n] == Occupied(r) {
        assert r in Bag(t[n]);
      }
    }
  }

  lemma {:induction false} RecordsFit<V>(t: Table<V>)
    ensures |Records(t)| <= |t|
    ensures |Records(t)| == |t| <==> forall i :: 0 <= i < |t| ==> t[i].Occupied?
  {
    if t != [] {
      var n := |t| - 1;
      var front := t[..n];
      RecordsFit(front);
      assert |Records(t)| == |Records(front)| + |Bag(t[n])|;
      assert forall i :: 0 <= i < n ==> t[i] == front[i];
      if |Records(front)| < n {
        var i :| 0 <= i < n && !front[i].Occupied?;
        assert !t[i].Occupied?;
      }
    }
  }

  lemma {:induction false} RecordsOfFree<V>(t: Table<V>)
    requires forall i :: 0 <= i < |t| ==> t[i].Free?
    ensures Records(t) == multiset{}
  {
    if t != [] {
      RecordsOfFree(t[..|t| - 1]);
    }
  }

  lemma KeysAreSlots<V>(t: Table<V>, key: nat)
    ensures (forall r :: r in Records(t) ==> r.key != key)
            <==> (forall i :: 0 <= i < |t| && t[i].Occupied? ==> t[i].rec.key != key)
  {
    hide Records;
    if r :| r in Records(t) && r.key == key {
      RecordsAreSlots(t, r);
    }
    if i :| 0 <= i < |t| && t[i].Occupied? && t[i].rec.key == key {
      RecordsAreSlots(t, t[i].rec);
    }
  }

  // ---------- effect of single-slot changes on the probe invariant ----------

  lemma OccupyKeepsProbes<V>(hash: Hash, t: Table<V>, i: nat, r: Record<V>)
    requires ProbeOk(hash, t) && i < |t| && !t[i].Occupied?
    requires forall j :: 0 <= j < |t| && Dist(Home(hash, r.key, |t|), j, |t|) < Dist(Home(hash, r.key, |t|), i, |t|)
                         ==> !t[j].Free?
    ensures ProbeOk(hash, t[i := Occupied(r)])
    ensures Records(t[i := Occupied(r)]) == Records(t) + multiset{r}
  {
    RecordsUpdate(t, i, Occupied(r));
  }

  lemma DeleteKeepsProbes<V>(hash: Hash, t: Table<V>, i: nat)
    requires ProbeOk(hash, t) && i < |t| && t[i].Occupied?
    ensures ProbeOk(hash, t[i := Deleted])
    ensures t[i].rec in Records(t)
    ensures Records(t[i := Deleted]) == Records(t) - multiset{t[i].rec}
  {
    RecordsUpdate(t, i, Deleted);
  }

  /** A probe that met a free slot has seen every record with its key. */
  lemma FreeEndsSearch<V>(hash: Hash, t: Table<V>, key: nat, index: nat)
    requires ProbeOk(hash, t) && index < |t| && t[index].Free?
    requires forall j :: 0 <= j < |t| && Dist(Home(hash, key, |t|), j, |t|) < Dist(Home(hash, key, |t|), index, |t|)
                         ==> !(t[j].Occupied? && t[j].rec.key == key)
    ensures forall i :: 0 <= i < |t| && t[i].Occupied? ==> t[i].rec.key != key
  {
  }

  // ---------- probe loops ----------

  method FindVacant<V>(slots: array<Slot<V>>, n: nat, home: nat) returns (index: nat)
    requires home < n <= slots.Length
    requires exists i :: 0 <= i < n && !slots[i].Occupied?
    ensures index < n && !slots[index].Occupied?
    ensures forall j :: 0 <= j < n && Dist(home, j, n) < Dist(home, index, n) ==> slots[j].Occupied?
  {
    index := home;
    while slots[index].Occupied?
      invariant index < n
      invariant forall j :: 0 <= j < n && Dist(home, j, n) < Dist(home, index, n) ==> slots[j].Occupied?
      decreases n - Dist(home, index, n)
    {
      ghost var before := index;
      index := index + 1;
      index := index % n;
      Advance(home, before, n);
    }
  }

  lemma Advance(home: nat, i: nat, n: nat)
    requires home < n && i < n
    ensures var next := (i + 1) % n;
            next < n && (if Dist(home, i, n) + 1 < n then Dist(home, next, n) == Dist(home, i, n) + 1 else next == home)
  {
    Remainder(i + 1, n);
  }

  lemma Remainder(a: nat, n: nat)
    requires 0 < a <= n
    ensures a % n == if a == n then 0 else a
  {
    if a < n {
      SmallRemainder(a, n);
    }
  }

  lemma SmallRemainder(a: nat, n: nat)
    requires a < n
    ensures a % n == a
  {
  }

  method FindFree<V>(slots: array<Slot<V>>, home: nat) returns (index: nat)
    requires home < slots.Length
    requires exists i :: 0 <= i < slots.Length && slots[i].Free?
    ensures index < slots.Length && slots[index].Free?
    ensures var n := slots.Length;
            forall j :: 0 <= j < n && Dist(home, j, n) < Dist(home, index, n) ==> !slots[j].Free?
  {
    var n := slots.Length;
    index := home;
    while !slots[index].Free?
      invariant index < n
      invariant forall j :: 0 <= j < n && Dist(home, j, n) < Dist(home, index, n) ==> !slots[j].Free?
      decreases n - Dist(home, index, n)
    {
      ghost var before := index;
      index := index + 1;
      index := index % n;
      Advance(home, before, n);
    }
  }

  /** Rehashing into a table without tombstones: the next free slot from the record's home. */
  method Place<V>(hash: Hash, slots: array<Slot<V>>, r: Record<V>)
    requires slots.Length > 0 && ProbeOk(hash, slots[..]) && |Records(slots[..])| < slots.Length
    requires forall i :: 0 <= i < slots.Length ==> !slots[i].Deleted?
    modifies slots
    ensures ProbeOk(hash, slots[..]) && Records(slots[..]) == old(Records(slots[..])) + multiset{r}
    ensures forall i :: 0 <= i < slots.Length ==> !slots[i].Deleted?
  {
    hide ProbeOk, Records;
    ghost var t := slots[..];
    RecordsFit(t);
    assert exists i :: 0 <= i < |t| && slots[i].Free?;
    var index := FindFree(slots, Home(hash, r.key, slots.Length));
    OccupyKeepsProbes(hash, t, index, r);
    slots[index] := Occupied(r);
    assert slots[..] == t[index := Occupied(r)];
  }

  lemma {:induction false} RecordsOfPrefix<V>(t: Table<V>, i: nat)
    requires i <= |t|
    ensures Records(t[..i]) <= Records(t)
    ensures i < |t| ==> Records(t[..i + 1]) == Records(t[..i]) + Bag(t[i])
    decreases |t| - i
  {
    hide Bag;
    if i < |t| {
      assert t[..i + 1][..i] == t[..i] && t[..i + 1][i] == t[i];
      RecordsOfPrefix(t, i + 1);
    } else {
      assert t[..i] == t;
    }
  }

  method NewTable<V>(n: nat, ghost hash: Hash) returns (slots: array<Slot<V>>)
    requires n > 0
    ensures fresh(slots) && slots.Length == n && forall i :: 0 <= i < n ==> slots[i].Free?
    ensures ProbeOk(hash, slots[..]) && Records(slots[..]) == multiset{}
  {
    slots := new Slot<V>[n](_ => Free);
    RecordsOfFree(slots[..]);
  }

  /** Doubling: every slot of the full table is copied over. */
  method Grown<V>(hash: Hash, slots: array<Slot<V>>, n: nat) returns (bigger: array<Slot<V>>)
    requires 0 < n <= slots.Length && forall i :: 0 <= i < n ==> slots[i].Occupied?
    ensures fresh(bigger) && bigger.Length == 2 * n
    ensures ProbeOk(hash, bigger[..]) && Records(bigger[..]) == Records(slots[..n])
  {
    hide ProbeOk, Records;
    bigger := NewTable(2 * n, hash);
    ghost var t := slots[..n];
    RecordsFit(t);
    EmptyRecords<V>();
    for i := 0 to n
      invariant slots[..n] == t
      invariant ProbeOk(hash, bigger[..]) && Records(bigger[..]) == Records(t[..i])
      invariant forall k :: 0 <= k < bigger.Length ==> !bigger[k].Deleted?
    {
      RecordsOfPrefix(t, i);
      CardinalityLe(Records(t[..i]), Records(t));
      Place(hash, bigger, slots[i].rec);
      assert slots[i] == t[i];
    }
    assert t[..n] == t;
  }

  lemma EmptyRecords<V>()
    ensures Records<V>([]) == multiset{}
  {
  }

  lemma CardinalityLe<T>(a: multiset<T>, b: multiset<T>)
    requires a <= b
    ensures |a| <= |b|
  {
    assert b == a + (b - a);
  }

  /** Halving: the occupied slots are copied over, tombstones are left behind. */
  method Shrunk<V>(hash: Hash, slots: array<Slot<V>>, n: nat) returns (smaller: array<Slot<V>>)
    requires 1 < n <= slots.Length && |Records(slots[..n])| < n / 2
    ensures fresh(smaller) && smaller.Length == n / 2
    ensures ProbeOk(hash, smaller[..]) && Records(smaller[..]) == Records(slots[..n])
  {
    hide ProbeOk, Records;
    smaller := NewTable(n / 2, hash);
    ghost var t := slots[..n];
    EmptyRecords<V>();
    for i := 0 to n
      invariant slots[..n] == t
      invariant ProbeOk(hash, smaller[..]) && Records(smaller[..]) == Records(t[..i])
      invariant forall k :: 0 <= k < smaller.Length ==> !smaller[k].Deleted?
    {
      RecordsOfPrefix(t, i);
      assert slots[i] == t[i];
      if slots[i].Occupied? {
        CardinalityLe(Records(t[..i]), Records(t));
        Place(hash, smaller, slots[i].rec);
      }
    }
    assert t[..n] == t;
  }

  class HashSet<V> {
    const hash: Hash
    var capacity: nat
    var count: nat
    var slots: array<Slot<V>>
    var iterating: bool

    ghost predicate Valid()
      reads this, slots
    {
      && 0 < capacity <= slots.Length
      && ProbeOk(hash, slots[..capacity])
      && count == |Records(slots[..capacity])|
    }

    ghost function Contents(): multiset<Record<V>>
      requires Valid()
      reads this, slots
    {
      Records(slots[..capacity])
    }

    constructor (h: Hash)
      ensures Valid() && fresh(slots) && hash == h && Contents() == multiset{} && !iterating
    {
      hash, capacity, count, iterating := h, 1, 0, false;
      slots := new Slot<V>[1](_ => Free);
      new;
      RecordsOfFree(slots[..1]);
    }

    method Insert(r: Record<V>)
      requires Valid()
      modifies this, slots
      ensures Valid() && (slots == old(slots) || fresh(slots)) && iterating == old(iterating)
      ensures Contents() == old(Contents()) + multiset{r} && count == old(count) + 1
    {
      hide ProbeOk, Records;
      RecordsFit(slots[..capacity]);
      if count == capacity {
        slots := Grown(hash, slots, capacity);
        capacity := capacity * 2;
        assert slots[..capacity] == slots[..];
        RecordsFit(slots[..capacity]);
      }
      var index := FindVacant(slots, capacity, Home(hash, r.key, capacity));
      OccupyKeepsProbes(hash, slots[..capacity], index, r);
      ghost var t := slots[..capacity];
      slots[index] := Occupied(r);
      assert slots[..capacity] == t[index := Occupied(r)];
      count := count + 1;
    }

    /** The slot of the first record with the key in probe order, which the caller may update through. */
    method Get(key: nat) returns (r: Option<nat>)
      requires Valid()
      ensures r.Some? ==> r.value < capacity && slots[r.value].Occupied? && slots[r.value].rec.key == key
      ensures r.Some? ==> slots[r.value].rec in Contents()
      ensures r.None? <==> forall rec :: rec in Contents() ==> rec.key != key
    {
      hide ProbeOk, Records;
      ghost var t := slots[..capacity];
      KeysAreSlots(t, key);
      var start := Home(hash, key, capacity);
      var index: nat := start;
      while slots[index].Deleted? || (slots[index].Occupied? && slots[index].rec.key != key)
        invariant index < capacity
        invariant forall j :: 0 <= j < capacity && Dist(start, j, capacity) < Dist(start, index, capacity)
                              ==> !(t[j].Occupied? && t[j].rec.key == key)
        decreases capacity - Dist(start, index, capacity)
      {
        Advance(start, index, capacity);
        index := (index + 1) % capacity;
        if index == start {
          assert forall j :: 0 <= j < capacity ==> !(t[j].Occupied? && t[j].rec.key == key);
          return None;
        }
      }
      if slots[index].Free? {
        FreeEndsSearch(hash, t, key, index);
        return None;
      }
      RecordsAreSlots(t, t[index].rec);
      return Some(index);
    }

    /** Writes through a slot found by `Get`; the key stays. */
    method Update(index: nat, value: V)
      requires Valid() && index < capacity && slots[index].Occupied?
      modifies slots
      ensures Valid() && slots[index] == Occupied(Record(old(slots[index].rec.key), value))
      ensures Contents() == old(Contents()) - multiset{old(slots[index].rec)} + multiset{slots[index].rec}
      ensures |Contents()| == |old(Contents())|
    {
      ghost var t := slots[..capacity];
      slots[index] := Occupied(Record(slots[index].rec.key, value));
      assert slots[..capacity] == t[index := slots[index]];
      RecordsUpdate(t, index, slots[index]);
    }

    /** Marks the first record with the key in probe order as deleted; outside an iteration a
        sparse table is halved. The key has to be present. */
    method Remove(key: nat) returns (ghost index: nat)
      requires Valid() && exists r :: r in Contents() && r.key == key
      modifies this, slots
      ensures Valid() && (slots == old(slots) || fresh(slots)) && iterating == old(iterating)
      ensures index < old(capacity) && old(slots[index].Occupied?) && old(slots[index].rec.key) == key
      ensures Contents() == old(Contents()) - multiset{old(slots[index].rec)} && count == old(count) - 1
      ensures iterating ==> slots == old(slots) && capacity == old(capacity)
                            && slots[..capacity] == old(slots[..capacity])[index := Deleted]
    {
      hide ProbeOk, Records;
      ghost var t := slots[..capacity];
      var i := Seek(key);
      index := i;
      DeleteKeepsProbes(hash, t, i);
      slots[i] := Deleted;
      assert slots[..capacity] == t[i := Deleted];
      count := count - 1;
      if !iterating && count < capacity / 4 {
        Halve();
      }
    }

    method Seek(key: nat) returns (index: nat)
      requires Valid() && exists r :: r in Contents() && r.key == key
      ensures index < capacity && slots[index].Occupied? && slots[index].rec.key == key
    {
      hide ProbeOk, Records;
      ghost var t := slots[..capacity];
      KeysAreSlots(t, key);
      ghost var goal :| 0 <= goal < capacity && t[goal].Occupied? && t[goal].rec.key == key;
      var start := Home(hash, key, capacity);
      index := start;
      while (slots[index].Occupied? && slots[index].rec.key != key) || slots[index].Deleted?
        invariant index < capacity
        invariant Dist(start, index, capacity) <= Dist(start, goal, capacity)
        decreases capacity - Dist(start, index, capacity)
      {
        Advance(start, index, capacity);
        index := (index + 1) % capacity;
      }
      GoalIsReachable(hash, t, goal, index);
    }

    /** Reallocates to half the capacity. */
    method Halve()
      requires Valid() && count < capacity / 4
      modifies this
      ensures Valid() && fresh(slots) && capacity == old(capacity) / 2
      ensures Contents() == old(Contents()) && count == old(count) && iterating == old(iterating)
    {
      hide ProbeOk, Records;
      slots := Shrunk(hash, slots, capacity);
      capacity := capacity / 2;
      assert slots[..capacity] == slots[..];
    }

    /** Visits the occupied slots in order; visiting a record makes the callback remove the keys
        `drop(record)` that are present at that time. `turns[i]` is the table when slot `i` has its turn. */
    method Foreach(drop: Record<V> -> seq<nat>)
      returns (visited: seq<Record<V>>, ghost order: seq<nat>, ghost turns: seq<Table<V>>)
      requires Valid()
      modifies this, slots
      ensures Valid() && (slots == old(slots) || fresh(slots)) && !iterating
      ensures |turns| == old(capacity) + 1 && turns[0] == old(slots[..capacity])
      ensures forall i :: 0 <= i < old(capacity) ==> TurnOk(turns[i], turns[i + 1], drop, order, i)
      ensures Swept(old(slots[..capacity]), turns[old(capacity)], drop, order, old(capacity))
      ensures |visited| == |order| && forall k :: 0 <= k < |order| ==>
                order[k] < old(capacity) && old(slots[..capacity])[order[k]] == Occupied(visited[k])
      ensures Contents() == Records(turns[old(capacity)])
    {
      hide ProbeOk, Records, Swept, Sweeping, Thinned;
      ghost var t0 := slots[..capacity];
      iterating := true;
      visited, order, turns := [], [], [t0];
      SweptNothing(t0, drop);
      var i := 0;
      while i < capacity
        invariant Valid() && iterating && slots == old(slots) && capacity == |t0|
        invariant 0 <= i <= capacity && Swept(t0, slots[..capacity], drop, order, i)
        invariant |turns| == i + 1 && turns[0] == t0 && turns[i] == slots[..capacity]
        invariant forall k :: 0 <= k < i ==> TurnOk(turns[k], turns[k + 1], drop, order, k)
        invariant forall k :: 0 <= k < |order| ==> order[k] < i
        invariant |visited| == |order|
        invariant forall k :: 0 <= k < |order| ==> order[k] < |t0| && t0[order[k]] == Occupied(visited[k])
      {
        if slots[i].Occupied? {
          var r := slots[i].rec;
          ghost var past := order;
          SweptHasSlot(t0, slots[..capacity], drop, order, i);
          visited, order := visited + [r], order + [i];
          assert past == order[..|order| - 1];
          RemovePresent(drop(r), t0, drop, order);
        } else {
          SweptSkip(t0, slots[..capacity], drop, order, i);
        }
        turns := turns + [slots[..capacity]];
        i := i + 1;
      }
      iterating := false;
      if count < capacity / 4 {
        Halve();
      }
    }

    /** What the callback does for one visited record. */
    method RemovePresent(keys: seq<nat>, ghost t0: Table<V>, ghost drop: Record<V> -> seq<nat>, ghost order: seq<nat>)
      requires Valid() && iterating && capacity == |t0| && order != []
      requires var k := |order| - 1; var i := order[k];
               && i < |t0| && t0[i].Occupied? && keys == drop(t0[i].rec) && slots[i] == t0[i]
               && Swept(t0, slots[..capacity], drop, order[..k], i)
      modifies this, slots
      ensures Valid() && iterating && slots == old(slots) && capacity == |t0|
      ensures Swept(t0, slots[..capacity], drop, order, order[|order| - 1] + 1)
      ensures Thinned(old(slots[..capacity]), slots[..capacity], keys)
    {
      hide ProbeOk, Records, Swept, Sweeping, Thinned;
      ThinnedNothing(slots[..capacity]);
      SweptStart(t0, slots[..capacity], drop, order, order[|order| - 1]);
      for m := 0 to |keys|
        invariant Valid() && iterating && slots == old(slots) && capacity == |t0|
        invariant Sweeping(t0, slots[..capacity], drop, order, order[|order| - 1] + 1, keys[..m])
        invariant Thinned(old(slots[..capacity]), slots[..capacity], keys[..m])
      {
        ghost var t := slots[..capacity];
        RemoveIfPresent(keys[m], keys[..m], t0, drop, order);
        assert keys[..m + 1] == keys[..m] + [keys[m]];
        ThinnedMore(old(slots[..capacity]), t, slots[..capacity], keys[..m], keys[m]);
      }
      assert keys[..|keys|] == keys;
      SweptDone(t0, slots[..capacity], drop, order, order[|order| - 1] + 1);
    }

    method RemoveIfPresent(key: nat, ghost gone: seq<nat>, ghost t0: Table<V>, ghost drop: Record<V> -> seq<nat>,
                           ghost order: seq<nat>)
      requires Valid() && iterating && capacity == |t0| && order != []
      requires order[|order| - 1] < |t0| && t0[order[|order| - 1]].Occupied? && key in drop(t0[order[|order| - 1]].rec)
      requires Sweeping(t0, slots[..capacity], drop, order, order[|order| - 1] + 1, gone)
      modifies this, slots
      ensures Valid() && iterating && slots == old(slots) && capacity == |t0|
      ensures Sweeping(t0, slots[..capacity], drop, order, order[|order| - 1] + 1, gone + [key])
      ensures Thinned(old(slots[..capacity]), slots[..capacity], [key])
    {
      hide ProbeOk, Records, Sweeping;
      var found := Get(key);
      ghost var t := slots[..capacity];
      if found.Some? {
        ghost var index := Remove(key);
        SweptRemove(t0, t, drop, order, order[|order| - 1] + 1, gone, index, key);
      } else {
        KeysAreSlots(t, key);
        SweptAbsent(t0, t, drop, order, order[|order| - 1] + 1, gone, key);
      }
    }

    method Clear()
      requires Valid()
      modifies this, slots
      ensures Valid() && slots == old(slots) && capacity == 1 && Contents() == multiset{}
      ensures iterating == old(iterating)
    {
      capacity := 1;
      count := 0;
      slots[0] := Free;
      RecordsOfFree(slots[..1]);
    }
  }

  lemma GoalIsReachable<V>(hash: Hash, t: Table<V>, goal: nat, index: nat)
    requires ProbeOk(hash, t) && goal < |t| && index < |t| && t[goal].Occupied?
    requires var home := Home(hash, t[goal].rec.key, |t|); Dist(home, index, |t|) <= Dist(home, goal, |t|)
    ensures !t[index].Free?
  {
  }

  // ---------- iteration ----------

  /** Some records with one of the keys were deleted; nothing else happened. */
  ghost predicate Thinned<V>(before: Table<V>, after: Table<V>, keys: seq<nat>) {
    && |after| == |before|
    && forall j :: 0 <= j < |before| ==>
         after[j] == before[j] || (before[j].Occupied? && before[j].rec.key in keys && after[j].Deleted?)
  }

  /** The turn of slot `i`: its record is visited exactly if it has not been removed by then, and
      the visit removes nothing but records with the keys it asked for. */
  ghost predicate TurnOk<V>(now: Table<V>, next: Table<V>, drop: Record<V> -> seq<nat>, order: seq<nat>, i: nat) {
    && i < |now| && (i in order <==> now[i].Occupied?)
    && if now[i].Occupied? then Thinned(now, next, drop(now[i].rec)) else next == now
  }

  lemma ThinnedNothing<V>(t: Table<V>)
    ensures Thinned(t, t, [])
  {
  }

  lemma ThinnedMore<V>(a: Table<V>, b: Table<V>, c: Table<V>, keys: seq<nat>, key: nat)
    requires Thinned(a, b, keys) && Thinned(b, c, [key])
    ensures Thinned(a, c, keys + [key])
  {
  }

  ghost predicate Dropped<V>(t0: Table<V>, drop: Record<V> -> seq<nat>, order: seq<nat>, key: nat, before: nat) {
    exists k :: 0 <= k < |order| && order[k] < before && order[k] < |t0| && t0[order[k]].Occupied?
                && key in drop(t0[order[k]].rec)
  }

  ghost predicate UniqueKey<V>(t: Table<V>, i: nat) {
    i < |t| && t[i].Occupied? && forall j :: 0 <= j < |t| && t[j].Occupied? && t[j].rec.key == t[i].rec.key ==> j == i
  }

  ghost predicate Increasing(order: seq<nat>) {
    forall a, b :: 0 <= a < b < |order| ==> order[a] < order[b]
  }

  /** The part common to all moments of a sweep: nothing has moved, slots before `i` were visited at
      most once and in order, unless an earlier visit dropped their key and deleted the very record,
      nothing else was deleted, and a record with a unique key was not visited after it had been dropped. */
  ghost predicate SweptBase<V>(t0: Table<V>, t: Table<V>, drop: Record<V> -> seq<nat>, order: seq<nat>, i: nat) {
    && |t| == |t0| && i <= |t0| && Increasing(order)
    && (forall k :: 0 <= k < |order| ==> order[k] < i && t0[order[k]].Occupied?)
    && (forall j :: 0 <= j < |t| ==> t[j] == t0[j] || (t0[j].Occupied? && t[j].Deleted?))
    && (forall j :: 0 <= j < i && t0[j].Occupied? && j !in order ==>
          t[j].Deleted? && Dropped(t0, drop, order, t0[j].rec.key, j))
    && (forall j :: 0 <= j < |t| && t0[j].Occupied? && t[j].Deleted? ==> Dropped(t0, drop, order, t0[j].rec.key, i))
    && (forall k :: 0 <= k < |order| && UniqueKey(t0, order[k]) ==> VisitedBeforeDrop(t0, drop, order, order[k]))
  }

  /** No visit of a slot before `j` dropped the key of the record at `j`. */
  ghost predicate VisitedBeforeDrop<V>(t0: Table<V>, drop: Record<V> -> seq<nat>, order: seq<nat>, j: nat)
    requires j < |t0| && t0[j].Occupied?
  {
    !Dropped(t0, drop, order, t0[j].rec.key, j)
  }

  /** In addition, a record with a unique key that is still there was dropped by no visit so far. */
  ghost predicate Swept<V>(t0: Table<V>, t: Table<V>, drop: Record<V> -> seq<nat>, order: seq<nat>, i: nat) {
    && SweptBase(t0, t, drop, order, i)
    && forall j :: 0 <= j < |t| && t[j].Occupied? && UniqueKey(t0, j) ==> !Dropped(t0, drop, order, t0[j].rec.key, i)
  }

  /** While the last visit of `order` is under way, its keys `gone` have been dealt with. */
  ghost predicate Sweeping<V>(t0: Table<V>, t: Table<V>, drop: Record<V> -> seq<nat>, order: seq<nat>, i: nat,
                                    gone: seq<nat>) {
    && order != [] && SweptBase(t0, t, drop, order, i)
    && forall j :: 0 <= j < |t| && t[j].Occupied? && UniqueKey(t0, j) ==>
         !Dropped(t0, drop, order[..|order| - 1], t0[j].rec.key, i) && t0[j].rec.key !in gone
  }

  lemma DroppedGrows<V>(t0: Table<V>, drop: Record<V> -> seq<nat>, order: seq<nat>, order': seq<nat>,
                        key: nat, b: nat, b': nat)
    requires order <= order' && b <= b' && Dropped(t0, drop, order, key, b)
    ensures Dropped(t0, drop, order', key, b')
  {
    var k :| 0 <= k < |order| && order[k] < b && order[k] < |t0| && t0[order[k]].Occupied?
             && key in drop(t0[order[k]].rec);
    assert order'[k] == order[k];
  }

  lemma DroppedEarlier<V>(t0: Table<V>, drop: Record<V> -> seq<nat>, order: seq<nat>, key: nat, b: nat, b': nat)
    requires Dropped(t0, drop, order, key, b) && forall k :: 0 <= k < |order| ==> order[k] < b'
    ensures Dropped(t0, drop, order, key, b')
  {
  }

  lemma DroppedInPast<V>(t0: Table<V>, drop: Record<V> -> seq<nat>, order: seq<nat>, key: nat, b: nat)
    requires order != [] && b <= order[|order| - 1] && Dropped(t0, drop, order, key, b)
    ensures Dropped(t0, drop, order[..|order| - 1], key, b)
  {
    var k :| 0 <= k < |order| && order[k] < b && order[k] < |t0| && t0[order[k]].Occupied?
             && key in drop(t0[order[k]].rec);
    assert order[..|order| - 1][k] == order[k];
  }

  lemma SweptStart<V>(t0: Table<V>, t: Table<V>, drop: Record<V> -> seq<nat>, order: seq<nat>, i: nat)
    requires order != [] && order[|order| - 1] == i && i < |t0| && t0[i].Occupied?
    requires Swept(t0, t, drop, order[..|order| - 1], i) && t[i] == t0[i]
    ensures Sweeping(t0, t, drop, order, i + 1, [])
  {
    hide Dropped, UniqueKey;
    var past := order[..|order| - 1];
    assert order == past + [i];
    forall j | 0 <= j < i + 1 && t0[j].Occupied? && j !in order
      ensures Dropped(t0, drop, order, t0[j].rec.key, j)
    {
      assert j !in past;
      DroppedGrows(t0, drop, past, order, t0[j].rec.key, j, j);
    }
    forall j | 0 <= j < |t| && t0[j].Occupied? && t[j].Deleted?
      ensures Dropped(t0, drop, order, t0[j].rec.key, i + 1)
    {
      DroppedGrows(t0, drop, past, order, t0[j].rec.key, i, i + 1);
    }
    forall k | 0 <= k < |order| && UniqueKey(t0, order[k])
      ensures VisitedBeforeDrop(t0, drop, order, order[k])
    {
      assert k < |past| ==> past[k] == order[k] && VisitedBeforeDrop(t0, drop, past, past[k]);
      if Dropped(t0, drop, order, t0[order[k]].rec.key, order[k]) {
        DroppedInPast(t0, drop, order, t0[order[k]].rec.key, order[k]);
      }
    }
    forall j | 0 <= j < |t| && t[j].Occupied? && UniqueKey(t0, j)
      ensures !Dropped(t0, drop, past, t0[j].rec.key, i + 1)
    {
      if Dropped(t0, drop, past, t0[j].rec.key, i + 1) {
        DroppedEarlier(t0, drop, past, t0[j].rec.key, i + 1, i);
      }
    }
  }

  /** A slot that is not occupied when its turn comes is passed over. */
  lemma SweptSkip<V>(t0: Table<V>, t: Table<V>, drop: Record<V> -> seq<nat>, order: seq<nat>, i: nat)
    requires Swept(t0, t, drop, order, i) && i < |t| && !t[i].Occupied?
    ensures Swept(t0, t, drop, order, i + 1)
  {
    hide Dropped, UniqueKey;
    forall j | 0 <= j < |t| && t0[j].Occupied? && t[j].Deleted?
      ensures Dropped(t0, drop, order, t0[j].rec.key, i + 1)
    {
      DroppedGrows(t0, drop, order, order, t0[j].rec.key, i, i + 1);
    }
    forall j | 0 <= j < |t| && t[j].Occupied? && UniqueKey(t0, j)
      ensures !Dropped(t0, drop, order, t0[j].rec.key, i + 1)
    {
      if Dropped(t0, drop, order, t0[j].rec.key, i + 1) {
        DroppedEarlier(t0, drop, order, t0[j].rec.key, i + 1, i);
      }
    }
  }

  lemma SweptHasSlot<V>(t0: Table<V>, t: Table<V>, drop: Record<V> -> seq<nat>, order: seq<nat>, i: nat)
    requires Swept(t0, t, drop, order, i) && i < |t| && t[i].Occupied?
    ensures t0[i] == t[i]
  {
  }

  lemma SweptRemove<V>(t0: Table<V>, t: Table<V>, drop: Record<V> -> seq<nat>, order: seq<nat>, i: nat,
                       gone: seq<nat>, index: nat, key: nat)
    requires Sweeping(t0, t, drop, order, i, gone) && index < |t| && t[index].Occupied? && t[index].rec.key == key
    requires key in drop(t0[order[|order| - 1]].rec)
    ensures Sweeping(t0, t[index := Deleted], drop, order, i, gone + [key])
  {
    hide Dropped;
    DroppedNow(t0, drop, order, key, i);
    var t' := t[index := Deleted];
    forall j | 0 <= j < |t'| && t0[j].Occupied? && t'[j].Deleted?
      ensures Dropped(t0, drop, order, t0[j].rec.key, i)
    {
    }
    forall j | 0 <= j < |t'| && t'[j].Occupied? && UniqueKey(t0, j)
      ensures t0[j].rec.key !in gone + [key]
    {
      assert t0[index].rec.key == key && j != index && t[j] == t'[j];
    }
  }

  lemma DroppedNow<V>(t0: Table<V>, drop: Record<V> -> seq<nat>, order: seq<nat>, key: nat, i: nat)
    requires order != [] && order[|order| - 1] < i && order[|order| - 1] < |t0| && t0[order[|order| - 1]].Occupied?
    requires key in drop(t0[order[|order| - 1]].rec)
    ensures Dropped(t0, drop, order, key, i)
  {
  }

  lemma SweptNothing<V>(t0: Table<V>, drop: Record<V> -> seq<nat>)
    ensures Swept(t0, t0, drop, [], 0)
  {
  }

  lemma SweptAbsent<V>(t0: Table<V>, t: Table<V>, drop: Record<V> -> seq<nat>, order: seq<nat>, i: nat,
                       gone: seq<nat>, key: nat)
    requires Sweeping(t0, t, drop, order, i, gone)
    requires forall j :: 0 <= j < |t| && t[j].Occupied? ==> t[j].rec.key != key
    ensures Sweeping(t0, t, drop, order, i, gone + [key])
  {
  }

  lemma DroppedByLast<V>(t0: Table<V>, drop: Record<V> -> seq<nat>, order: seq<nat>, key: nat, b: nat)
    requires order != [] && order[|order| - 1] < |t0| && t0[order[|order| - 1]].Occupied?
    requires Dropped(t0, drop, order, key, b)
    ensures Dropped(t0, drop, order[..|order| - 1], key, b) || key in drop(t0[order[|order| - 1]].rec)
  {
    var k :| 0 <= k < |order| && order[k] < b && order[k] < |t0| && t0[order[k]].Occupied?
             && key in drop(t0[order[k]].rec);
    if k < |order| - 1 {
      assert order[..|order| - 1][k] == order[k];
    }
  }

  lemma SweptDone<V>(t0: Table<V>, t: Table<V>, drop: Record<V> -> seq<nat>, order: seq<nat>, i: nat)
    requires order != [] && order[|order| - 1] < |t0| && t0[order[|order| - 1]].Occupied?
    requires Sweeping(t0, t, drop, order, i, drop(t0[order[|order| - 1]].rec))
    ensures Swept(t0, t, drop, order, i)
  {
    hide Dropped, UniqueKey;
    forall j | 0 <= j < |t| && t[j].Occupied? && UniqueKey(t0, j)
      ensures !Dropped(t0, drop, order, t0[j].rec.key, i)
    {
      if Dropped(t0, drop, order, t0[j].rec.key, i) {
        DroppedByLast(t0, drop, order, t0[j].rec.key, i);
      }
    }
  }

  // ---------- whole runs ----------

  datatype Op<V> = Insert(rec: Record<V>) | Get(key: nat) | Remove(key: nat) | Clear

  ghost function Apply<V>(m: map<nat, V>, op: Op<V>): map<nat, V> {
    match op
    case Insert(r) => m[r.key := r.value]
    case Get(_) => m
    case Remove(key) => m - {key}
    case Clear => map[]
  }

  /** Callers insert fresh keys and remove present ones. */
  ghost predicate LegalRun<V>(m: map<nat, V>, ops: seq<Op<V>>)
    decreases ops
  {
    ops == [] || (&& (ops[0].Insert? ==> ops[0].rec.key !in m)
                  && (ops[0].Remove? ==> ops[0].key in m)
                  && LegalRun(Apply(m, ops[0]), ops[1..]))
  }

  ghost function FinalMap<V>(m: map<nat, V>, ops: seq<Op<V>>): map<nat, V>
    decreases ops
  {
    if ops == [] then m else FinalMap(Apply(m, ops[0]), ops[1..])
  }

  ghost function Lookup<V>(m: map<nat, V>, op: Op<V>): seq<Option<V>> {
    if op.Get? then [if op.key in m then Some(m[op.key]) else None] else []
  }

  /** What the look-ups of a run return. */
  ghost function Lookups<V>(m: map<nat, V>, ops: seq<Op<V>>): seq<Option<V>>
    decreases ops
  {
    if ops == [] then [] else Lookup(m, ops[0]) + Lookups(Apply(m, ops[0]), ops[1..])
  }

  /** The multiset holds exactly the entries of the map, each once. */
  ghost predicate Represents<V(!new)>(c: multiset<Record<V>>, m: map<nat, V>) {
    forall r :: c[r] == if r.key in m && m[r.key] == r.value then 1 else 0
  }

  method Perform<V(!new)>(s: HashSet<V>, op: Op<V>, ghost m: map<nat, V>) returns (out: seq<Option<V>>)
    requires s.Valid() && Represents(s.Contents(), m) && s.count == |m|
    requires (op.Insert? ==> op.rec.key !in m) && (op.Remove? ==> op.key in m)
    modifies s, s.slots
    ensures s.Valid() && (s.slots == old(s.slots) || fresh(s.slots))
    ensures Represents(s.Contents(), Apply(m, op)) && s.count == |Apply(m, op)|
    ensures out == Lookup(m, op)
  {
    hide ProbeOk, Records;
    out := [];
    match op {
      case Insert(r) =>
        s.Insert(r);
      case Get(key) =>
        assert key in m ==> Record(key, m[key]) in s.Contents();
        var found := s.Get(key);
        out := if found.Some? then [Some(s.slots[found.value].rec.value)] else [None];
      case Remove(key) =>
        assert Record(key, m[key]) in s.Contents();
        ghost var index := s.Remove(key);
      case Clear =>
        s.Clear();
    }
  }

  /** What one operation may do to the stored records and return, whatever duplicates there are. */
  ghost predicate Allowed<V(!new)>(c: multiset<Record<V>>, op: Op<V>, c': multiset<Record<V>>, out: seq<Option<V>>) {
    match op
    case Insert(r) => c' == c + multiset{r} && out == []
    case Get(key) => c' == c && |out| == 1
                     && if out[0].Some? then Record(key, out[0].value) in c else !HasKey(c, key)
    case Remove(key) => out == [] && if HasKey(c, key) then RemovesOne(c, key, c') else c' == c
    case Clear => c' == multiset{} && out == []
  }

  ghost predicate HasKey<V(!new)>(c: multiset<Record<V>>, key: nat) {
    exists r :: r in c && r.key == key
  }

  ghost predicate RemovesOne<V(!new)>(c: multiset<Record<V>>, key: nat, c': multiset<Record<V>>) {
    exists r :: r in c && r.key == key && c' == c - multiset{r}
  }

  /** Every legal run behaves like the same run on a finite map, through all rehashes. */
  method Run<V(!new)>(hash: Hash, ops: seq<Op<V>>) returns (s: HashSet<V>, outs: seq<Option<V>>)
    requires LegalRun(map[], ops)
    ensures outs == Lookups(map[], ops)
    ensures s.Valid() && Represents(s.Contents(), FinalMap(map[], ops)) && s.count == |FinalMap(map[], ops)|
  {
    hide ProbeOk, Records, Lookup, Apply, Represents;
    s := new HashSet(hash);
    outs := [];
    ghost var m: map<nat, V> := map[];
    EmptyRepresents<V>();
    for i := 0 to |ops|
      invariant s.Valid() && fresh(s) && fresh(s.slots)
      invariant Represents(s.Contents(), m) && s.count == |m|
      invariant LegalRun(m, ops[i..])
      invariant outs + Lookups(m, ops[i..]) == Lookups(map[], ops)
      invariant FinalMap(m, ops[i..]) == FinalMap(map[], ops)
    {
      assert ops[i..][1..] == ops[i + 1..];
      var out := Perform(s, ops[i], m);
      outs := outs + out;
      m := Apply(m, ops[i]);
    }
  }

  method Step<V(!new)>(s: HashSet<V>, op: Op<V>) returns (out: seq<Option<V>>)
    requires s.Valid()
    modifies s, s.slots
    ensures s.Valid() && (s.slots == old(s.slots) || fresh(s.slots))
    ensures Allowed(old(s.Contents()), op, s.Contents(), out)
  {
    hide ProbeOk, Records;
    out := [];
    match op {
      case Insert(r) =>
        s.Insert(r);
      case Get(key) =>
        var found := s.Get(key);
        out := if found.Some? then [Some(s.slots[found.value].rec.value)] else [None];
      case Remove(key) =>
        var found := s.Get(key);
        if found.Some? {
          ghost var index := s.Remove(key);
        }
      case Clear =>
        s.Clear();
    }
  }

  /** Any operations at all, equal keys included, as long as removals are tried only on present keys:
      the table holds the expected multiset after every step and every look-up is answered from it. */
  method RunAny<V(!new)>(hash: Hash, ops: seq<Op<V>>)
    returns (s: HashSet<V>, outs: seq<seq<Option<V>>>, ghost states: seq<multiset<Record<V>>>)
    ensures |outs| == |ops| && |states| == |ops| + 1 && states[0] == multiset{}
    ensures forall i :: 0 <= i < |ops| ==> Allowed(states[i], ops[i], states[i + 1], outs[i])
    ensures s.Valid() && s.Contents() == states[|ops|] && s.count == |states[|ops|]|
  {
    hide ProbeOk, Records, Allowed;
    s := new HashSet(hash);
    outs, states := [], [multiset{}];
    for i := 0 to |ops|
      invariant s.Valid() && fresh(s) && fresh(s.slots)
      invariant |outs| == i && |states| == i + 1 && states[0] == multiset{} && states[i] == s.Contents()
      invariant forall k :: 0 <= k < i ==> Allowed(states[k], ops[k], states[k + 1], outs[k])
    {
      var out := Step(s, ops[i]);
      outs, states := outs + [out], states + [s.Contents()];
    }
  }

  lemma EmptyRepresents<V(!new)>()
    ensures Represents<V>(multiset{}, map[])
  {
  }
}
