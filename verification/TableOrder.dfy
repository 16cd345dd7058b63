/** Bringing a loaded table into the order of its minimal perfect hash, in place, and the
    constant-time lookups that rely on it. */
module TableOrder {
  import opened Common

  /** The hash maps the keys of the table one to one onto its indices. */
  ghost predicate Perfect<T>(s: seq<T>, hash: T -> nat) {
    && (forall i :: 0 <= i < |s| ==> hash(s[i]) < |s|)
    && (forall i, j :: 0 <= i < j < |s| ==> hash(s[i]) != hash(s[j]))
  }

  ghost function Misplaced<T>(s: seq<T>, hash: T -> nat): set<nat> {
    set i: nat | i < |s| && hash(s[i]) != i
  }

  function Swapped<T>(s: seq<T>, i: nat, j: nat): seq<T>
    requires i < |s| && j < |s|
  {
    s[j := s[i]][i := s[j]]
  }

  lemma SwapPermutes<T>(s: seq<T>, i: nat, j: nat)
    requires i < |s| && j < |s|
    ensures multiset(Swapped(s, i, j)) == multiset(s)
  {
  }

  /** Sending one record home keeps the hash perfect and leaves strictly fewer records misplaced. */
  lemma SwapSendsHome<T>(s: seq<T>, hash: T -> nat, i: nat)
    requires Perfect(s, hash) && i < |s| && hash(s[i]) != i
    ensures Perfect(Swapped(s, i, hash(s[i])), hash)
    ensures Misplaced(Swapped(s, i, hash(s[i])), hash) < Misplaced(s, hash)
    ensures forall k :: 0 <= k < |s| && hash(s[k]) == k ==> Swapped(s, i, hash(s[i]))[k] == s[k]
  {
    var j := hash(s[i]);
    var t := Swapped(s, i, j);
    assert hash(s[j]) != j;
    assert j in Misplaced(s, hash) && j !in Misplaced(t, hash);
    assert i in Misplaced(s, hash);
    assert Misplaced(t, hash) <= Misplaced(s, hash);
  }

  lemma HomeInTable<T>(s: seq<T>, hash: T -> nat, i: nat)
    requires Perfect(s, hash) && i < |s|
    ensures hash(s[i]) < |s|
  {
  }

  method SwapEntries<T>(table: array<T>, i: nat, j: nat)
    requires i < table.Length && j < table.Length
    modifies table
    ensures table[..] == Swapped(old(table[..]), i, j)
  {
    var temp := table[j];
    table[j] := table[i];
    table[i] := temp;
  }

  /** Swaps every record to its hash index; each swap sends one more record home. */
  method Reorder<T>(table: array<T>, hash: T -> nat)
    requires Perfect(table[..], hash)
    modifies table
    ensures multiset(table[..]) == multiset(old(table[..]))
    ensures forall i :: 0 <= i < table.Length ==> hash(table[i]) == i
  {
    hide Misplaced, Perfect, Swapped;
    var i := 0;
    while i < table.Length
      invariant 0 <= i <= table.Length && Perfect(table[..], hash)
      invariant multiset(table[..]) == multiset(old(table[..]))
      invariant forall k :: 0 <= k < i ==> hash(table[k]) == k
      decreases Misplaced(table[..], hash), table.Length - i
    {
      var j := hash(table[i]);
      HomeInTable(table[..], hash, i);
      if i != j {
        ghost var s := table[..];
        SwapSendsHome(s, hash, i);
        SwapPermutes(s, i, j);
        assert forall k :: 0 <= k < i ==> s[k] == table[k];
        SwapEntries(table, i, j);
      } else {
        i := i + 1;
      }
    }
  }

  datatype Node<V> = Node(id: nat, info: V)

  /** One probe: the record at the hash index is the right one or there is none. */
  method Find<V>(table: array<Node<V>>, hash: nat -> nat, id: nat) returns (r: Option<V>)
    requires forall i :: 0 <= i < table.Length ==> hash(table[i].id) == i
    requires hash(id) < table.Length
    ensures r.Some? <==> exists i :: 0 <= i < table.Length && table[i].id == id
    ensures forall i :: 0 <= i < table.Length && table[i].id == id ==> r == Some(table[i].info)
  {
    var index := hash(id);
    if table[index].id != id {
      return None;
    }
    return Some(table[index].info);
  }

  /** Loading records in any order and asking for an id: found if and only if it was loaded. */
  method LoadAndFind<V>(records: seq<Node<V>>, hash: nat -> nat, id: nat) returns (r: Option<V>)
    requires Perfect(records, (n: Node<V>) => hash(n.id)) && hash(id) < |records|
    ensures r.Some? <==> exists n :: n in records && n.id == id
    ensures forall n :: n in records && n.id == id ==> r == Some(n.info)
  {
    hide Perfect;
    var table := new Node<V>[|records|](i requires 0 <= i < |records| => records[i]);
    assert table[..] == records;
    Reorder(table, (n: Node<V>) => hash(n.id));
    SameMembers(records, table[..]);
    r := Find(table, hash, id);
    assert r.Some? <==> exists n :: n in table[..] && n.id == id;
  }

  lemma SameMembers<T>(s: seq<T>, t: seq<T>)
    requires multiset(s) == multiset(t)
    ensures forall x :: x in s <==> x in t
  {
    forall x
      ensures x in s <==> x in t
    {
      assert x in s <==> x in multiset(s);
    }
  }
}
