/** The items a quest hands out: everything without a weight, one weighted item picked at
    random, and at quest start nothing the character already holds. */
module Rewards {

  datatype Item = Item(id: nat, count: int, prop: nat)

  function Weight(items: seq<Item>, n: nat): nat
    requires n <= |items|
  {
    if n == 0 then 0 else Weight(items, n - 1) + items[n - 1].prop
  }

  function Unweighted(items: seq<Item>): seq<Item> {
    if items == [] then []
    else
      var last := items[|items| - 1];
      Unweighted(items[..|items| - 1]) + if last.prop == 0 then [last] else []
  }

  ghost predicate HasWeighted(items: seq<Item>) {
    exists i :: 0 <= i < |items| && items[i].prop != 0
  }

  /** The weighted item whose interval of the cumulative weights contains `r`. */
  ghost predicate Drawn(items: seq<Item>, r: nat, k: nat) {
    k < |items| && items[k].prop != 0 && Weight(items, k) <= r < Weight(items, k + 1)
  }

  lemma {:induction false} WeightGrows(items: seq<Item>, a: nat, b: nat)
    requires a <= b <= |items|
    ensures Weight(items, a) <= Weight(items, b)
    decreases b - a
  {
    if a < b {
      WeightGrows(items, a, b - 1);
    }
  }

  /** Every number below the total weight draws exactly one item. */
  lemma {:induction false} DrawIsUnique(items: seq<Item>, r: nat, k: nat, l: nat)
    requires Drawn(items, r, k) && Drawn(items, r, l)
    ensures k == l
  {
    if k < l {
      WeightGrows(items, k + 1, l);
    } else if l < k {
      WeightGrows(items, l + 1, k);
    }
  }

  /** The first pass: how many items there will be, and the sum of the weights. */
  method CountItems(items: seq<Item>) returns (count: nat, total: nat, hasProp: bool)
    ensures hasProp <==> HasWeighted(items)
    ensures count == |Unweighted(items)| + if hasProp then 1 else 0
    ensures total == Weight(items, |items|)
  {
    hasProp, count, total := false, 0, 0;
    for j := 0 to |items|
      invariant hasProp <==> exists i :: 0 <= i < j && items[i].prop != 0
      invariant count == |Unweighted(items[..j])| + if hasProp then 1 else 0
      invariant total == Weight(items, j)
    {
      assert items[..j + 1][..j] == items[..j];
      if items[j].prop == 0 || !hasProp {
        if items[j].prop != 0 {
          hasProp := true;
        }
        count := count + 1;
      }
      total := total + items[j].prop;
    }
    assert items[..|items|] == items;
  }

  lemma UnweightedStep(items: seq<Item>, a: nat, n: nat)
    requires a <= n < |items|
    ensures Unweighted(items[a..n + 1]) == Unweighted(items[a..n]) + if items[n].prop == 0 then [items[n]] else []
  {
    assert items[a..n + 1][..n - a] == items[a..n];
  }

  lemma {:induction false} UnweightedAll(items: seq<Item>)
    requires !HasWeighted(items)
    ensures Unweighted(items) == items
  {
    if items != [] {
      var n := |items| - 1;
      UnweightedAll(items[..n]);
      assert items == items[..n] + [items[n]];
    }
  }

  /** The second pass: all unweighted items in order and, at its place among them, the drawn one. */
  method PickItems(items: seq<Item>, r: nat) returns (picked: seq<Item>, ghost drawn: nat)
    ensures r < Weight(items, |items|) ==>
              Drawn(items, r, drawn)
              && picked == Unweighted(items[..drawn]) + [items[drawn]] + Unweighted(items[drawn + 1..])
    ensures !HasWeighted(items) ==> picked == items
  {
    hide Unweighted;
    var hasProp, total := false, 0;
    picked, drawn := [], 0;
    UnweightedAll([]);
    for j := 0 to |items|
      invariant total == Weight(items, j)
      invariant if hasProp then
                  && drawn < j && Drawn(items, r, drawn)
                  && picked == Unweighted(items[..drawn]) + [items[drawn]] + Unweighted(items[drawn + 1..j])
                else total <= r && picked == Unweighted(items[..j])
    {
      UnweightedStep(items, 0, j);
      if hasProp {
        UnweightedStep(items, drawn + 1, j);
      }
      total := total + items[j].prop;
      if items[j].prop == 0 || (!hasProp && r < total) {
        if items[j].prop != 0 {
          hasProp, drawn := true, j;
        }
        picked := picked + [items[j]];
      }
      assert items[j + 1..j + 1] == [];
    }
    assert items[..|items|] == items;
    if !HasWeighted(items) {
      UnweightedAll(items);
    }
  }

  /** Both passes together: the second fills exactly the entries the first made room for. */
  method Reward(items: seq<Item>, random: nat) returns (count: nat, picked: seq<Item>)
    ensures |picked| == count
    ensures HasWeighted(items) ==> Weight(items, |items|) > 0 && exists k: nat ::
              Drawn(items, random % Weight(items, |items|), k)
              && multiset(picked) == multiset(Unweighted(items)) + multiset{items[k]}
    ensures !HasWeighted(items) ==> picked == items
  {
    var total, hasProp;
    count, total, hasProp := CountItems(items);
    var r := 0;
    if hasProp {
      WeightedTotal(items);
      r := random % total;
    }
    ghost var drawn;
    picked, drawn := PickItems(items, r);
    if hasProp {
      UnweightedAround(items, drawn);
    } else {
      UnweightedAll(items);
    }
  }

  lemma {:induction false} WeightedTotal(items: seq<Item>)
    requires HasWeighted(items)
    ensures Weight(items, |items|) > 0
  {
    var i :| 0 <= i < |items| && items[i].prop != 0;
    WeightGrows(items, i + 1, |items|);
  }

  lemma {:induction false} UnweightedAround(items: seq<Item>, k: nat)
    requires k < |items| && items[k].prop != 0
    ensures Unweighted(items) == Unweighted(items[..k]) + Unweighted(items[k + 1..])
    decreases |items|
  {
    var n := |items| - 1;
    if k < n {
      UnweightedAround(items[..n], k);
      assert items[..n][..k] == items[..k];
      assert items[..n][k + 1..] == items[k + 1..][..n - k - 1];
    } else {
      assert items[k + 1..] == [];
    }
  }

  // ---------- leaving out what is already held ----------

  function NotHeld(s: seq<Item>, held: nat -> bool): seq<Item> {
    if s == [] then []
    else
      var last := s[|s| - 1];
      NotHeld(s[..|s| - 1], held) + if held(last.id) then [] else [last]
  }

  lemma {:induction false} NotHeldBag(s: seq<Item>, held: nat -> bool, x: Item)
    ensures multiset(NotHeld(s, held))[x] == if held(x.id) then 0 else multiset(s)[x]
  {
    if s != [] {
      NotHeldBag(s[..|s| - 1], held, x);
      assert s == s[..|s| - 1] + [s[|s| - 1]];
    }
  }

  /** Overwrites every held item with the last one and looks at the same place again. */
  method DropHeld(items: array<Item>, n: nat, held: nat -> bool) returns (count: nat)
    requires n <= items.Length
    modifies items
    ensures count <= n && multiset(items[..count]) == multiset(NotHeld(old(items[..n]), held))
  {
    hide NotHeld;
    count := n;
    var i := 0;
    while i < count
      invariant 0 <= i <= count <= n
      invariant forall k :: 0 <= k < i ==> !held(items[k].id)
      invariant multiset(NotHeld(items[..count], held)) == multiset(NotHeld(old(items[..n]), held))
      decreases count - i
    {
      if held(items[i].id) {
        ghost var s := items[..count];
        count := count - 1;
        items[i] := items[count];
        DropOne(s, items[..count], i, held);
      } else {
        i := i + 1;
      }
    }
    AllKept(items[..count], held);
  }

  lemma DropOne(s: seq<Item>, t: seq<Item>, i: nat, held: nat -> bool)
    requires i < |s| == |t| + 1 && held(s[i].id)
    requires forall k :: 0 <= k < |t| ==> t[k] == if k == i then s[|s| - 1] else s[k]
    ensures multiset(NotHeld(s, held)) == multiset(NotHeld(t, held))
  {
    hide NotHeld;
    OverwriteBag(s, t, i);
    forall x: Item
      ensures multiset(NotHeld(s, held))[x] == multiset(NotHeld(t, held))[x]
    {
      NotHeldBag(s, held, x);
      NotHeldBag(t, held, x);
    }
  }

  lemma {:induction false} AllKept(s: seq<Item>, held: nat -> bool)
    requires forall k :: 0 <= k < |s| ==> !held(s[k].id)
    ensures NotHeld(s, held) == s
  {
    if s != [] {
      AllKept(s[..|s| - 1], held);
      assert s == s[..|s| - 1] + [s[|s| - 1]];
    }
  }

  lemma OverwriteBag(s: seq<Item>, t: seq<Item>, i: nat)
    requires i < |s| == |t| + 1
    requires forall k :: 0 <= k < |t| ==> t[k] == if k == i then s[|s| - 1] else s[k]
    ensures multiset(s) == multiset(t) + multiset{s[i]}
  {
    var n := |s| - 1;
    assert s == s[..n] + [s[n]];
    if i < n {
      assert t == s[..n][i := s[n]];
    } else {
      assert t == s[..n];
    }
  }
}
