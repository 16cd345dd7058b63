/** Handing out the items of a quest that starts: drawing them, leaving out what the character
    already holds, and adding the rest in one transaction. */
module QuestItems {
  import opened Inventory
  import opened ItemGain
  import opened StackSlots
  import opened Rewards

  ghost predicate FreeSlotEverywhere(b: Bags) {
    FreeEquips(b.equips) > 0 && forall k :: 0 <= k < |b.stacks| ==> Empties(b.stacks[k]) > 0
  }

  /** Before a random draw every inventory is searched for a slot to put the item into. */
  method SearchFreeSlots(b: Bags) returns (free: bool)
    ensures free <==> FreeSlotEverywhere(b)
  {
    var j := 0;
    while j < |b.equips| && !b.equips[j].NoEquip?
      invariant 0 <= j <= |b.equips| && FreeEquips(b.equips[..j]) == 0
    {
      j := j + 1;
      assert b.equips[..j][..j - 1] == b.equips[..j - 1];
    }
    if j == |b.equips| {
      assert b.equips[..j] == b.equips;
      return false;
    }
    FreeEquipsPrefix(b.equips, j);
    for i := 0 to |b.stacks|
      invariant forall k :: 0 <= k < i ==> Empties(b.stacks[k]) > 0
    {
      var found := SearchEmpty(b.stacks[i]);
      if !found {
        return false;
      }
    }
    return true;
  }

  method SearchEmpty(inv: seq<Slot>) returns (found: bool)
    ensures found <==> Empties(inv) > 0
  {
    var j := 0;
    while j < |inv| && !inv[j].Empty?
      invariant 0 <= j <= |inv| && Empties(inv[..j]) == 0
    {
      j := j + 1;
      assert inv[..j][..j - 1] == inv[..j - 1];
    }
    if j == |inv| {
      assert inv[..j] == inv;
      return false;
    }
    assert inv[..|inv|] == inv && inv[..j + 1][..j] == inv[..j];
    EmptiesGrow(inv, j + 1, |inv|);
    return true;
  }

  /** What is left of the drawn items: exactly those that are not held. */
  method LeaveOutHeld(offered: seq<Item>, held: nat -> bool) returns (kept: seq<Item>)
    ensures forall x :: x in kept <==> x in offered && !held(x.id)
    ensures multiset(kept) == multiset(NotHeld(offered, held))
  {
    hide NotHeld;
    var n := |offered|;
    var places := new Item[n](i requires 0 <= i < n => offered[i]);
    assert places[..n] == offered;
    var count := DropHeld(places, n, held);
    kept := places[..count];
    forall x
      ensures x in kept <==> x in offered && !held(x.id)
    {
      NotHeldBag(offered, held, x);
      assert x in kept <==> x in multiset(kept);
      assert x in offered <==> x in multiset(offered);
    }
  }

  /** What a list of items adds of one kind. */
  ghost function Added(items: seq<Item>, id: nat): int {
    if items == [] then 0
    else
      var last := items[|items| - 1];
      Added(items[..|items| - 1], id) + if last.id == id && last.count > 0 then last.count else 0
  }

  lemma FewerByLast<T>(s: seq<T>, i: nat)
    requires i + 1 < |s|
    ensures var n, fewer := |s| - 1, s[..i] + s[i + 1..];
            fewer[..n - 1] == s[..n][..i] + s[..n][i + 1..] && fewer[n - 1] == s[n]
  {
    var n, fewer := |s| - 1, s[..i] + s[i + 1..];
    var short := s[..n][..i] + s[..n][i + 1..];
    assert |fewer| == n && |short| == n - 1;
    forall k | 0 <= k < n - 1
      ensures fewer[k] == short[k]
    {
    }
  }

  lemma {:induction false} AddedWithout(items: seq<Item>, i: nat, id: nat)
    requires i < |items|
    ensures Added(items, id)
            == Added(items[..i] + items[i + 1..], id)
               + if items[i].id == id && items[i].count > 0 then items[i].count else 0
    decreases |items|
  {
    var n := |items| - 1;
    if i == n {
      assert items[..i] + items[i + 1..] == items[..n];
    } else {
      AddedWithout(items[..n], i, id);
      var fewer := items[..i] + items[i + 1..];
      FewerByLast(items, i);
    }
  }

  /** The order of the items does not matter. */
  lemma {:induction false} AddedInAnyOrder(a: seq<Item>, b: seq<Item>, id: nat)
    requires multiset(a) == multiset(b)
    ensures Added(a, id) == Added(b, id)
    decreases |a|
  {
    assert |a| == |multiset(a)| == |multiset(b)| == |b|;
    if a != [] {
      var n := |a| - 1;
      assert a == a[..n] + [a[n]];
      assert a[n] in multiset(b);
      var i :| 0 <= i < |b| && b[i] == a[n];
      var fewer := b[..i] + b[i + 1..];
      assert b == b[..i] + [b[i]] + b[i + 1..];
      assert multiset(fewer) == multiset(b) - multiset{a[n]};
      AddedInAnyOrder(a[..n], fewer, id);
      AddedWithout(b, i, id);
    }
  }

  lemma {:induction false} AddedOfNotHeld(items: seq<Item>, held: nat -> bool, id: nat)
    ensures Added(NotHeld(items, held), id) == if held(id) then 0 else Added(items, id)
  {
    if items != [] {
      var n := |items| - 1;
      AddedOfNotHeld(items[..n], held, id);
      var rest, last := NotHeld(items[..n], held), items[n];
      if held(last.id) {
        assert NotHeld(items, held) == rest;
      } else {
        assert NotHeld(items, held) == rest + [last] && (rest + [last])[..|rest|] == rest;
      }
    }
  }

  /** What the entries made of the kept items add and remove of one kind. */
  lemma {:induction false} EntriesOfItems(kept: seq<Item>, ids: seq<nat>, counts: seq<int>, h: int, id: nat, n: nat)
    requires |ids| == |counts| == |kept| && n <= |kept|
    requires forall i :: 0 <= i < |kept| ==> ids[i] == kept[i].id && counts[i] == kept[i].count
    requires h == 0 || (h > 0 && forall x :: x in kept ==> x.id != id)
    ensures Gains(ids, counts, id, n) == Added(kept[..n], id)
    ensures AfterRemovals(h, ids, counts, id, n) == h
  {
    if n > 0 {
      EntriesOfItems(kept, ids, counts, h, id, n - 1);
      assert kept[..n][..n - 1] == kept[..n - 1] && kept[n - 1] in kept;
    }
  }

  lemma HeldIsCount(b: Bags, slotMax: SlotMax, id: nat)
    requires BagsOk(b, slotMax) && KnownId(id)
    ensures Held(b, id) >= 0
  {
    if !IsEquip(id) {
      var inv := b.stacks[StackIndex(id)];
      assert inv[..|inv|] == inv;
      TotalPrefixLe(inv, slotMax, 0, id);
      assert inv[..0] == [];
      TotalNothing(id);
    }
  }

  /** The items of a quest start. The assertion that something was modified fails exactly if every
      drawn item is held already or changes nothing, so in particular if all are held. */
  method StartItems(chr: Carrier, items: seq<Item>, random: nat) returns (offered: seq<Item>, outcome: Outcome)
    requires BagsOk(chr.bags, chr.slotMax)
    requires forall i :: 0 <= i < |items| ==> KnownId(items[i].id) && chr.slotMax(items[i].id) >= 1
    modifies chr
    ensures BagsOk(chr.bags, chr.slotMax) && (!outcome.Done? ==> chr.bags == old(chr.bags))
    ensures HasWeighted(items) && !FreeSlotEverywhere(old(chr.bags)) ==> outcome.Failed? && offered == []
    ensures !HasWeighted(items) ==> offered == items
    ensures HasWeighted(items) && FreeSlotEverywhere(old(chr.bags)) ==>
              Weight(items, |items|) > 0 && exists k: nat ::
                Drawn(items, random % Weight(items, |items|), k)
                && offered == Unweighted(items[..k]) + [items[k]] + Unweighted(items[k + 1..])
    ensures forall x :: x in offered ==> x in items
    ensures outcome.Done? ==> forall id :: KnownId(id) ==>
              Held(chr.bags, id) == if old(Held(chr.bags, id)) >= 1 then old(Held(chr.bags, id)) else Added(offered, id)
    ensures !HasWeighted(items) || FreeSlotEverywhere(old(chr.bags)) ==>
              (outcome.Aborted?
               <==> forall x :: x in offered ==>
                      old(Held(chr.bags, x.id)) >= 1 || Idle(old(chr.bags), x.id, x.count))
  {
    hide Held, Idle, Bounded, NotHeld, Unweighted, FreeSlotEverywhere, Added;
    var count, total, hasProp := CountItems(items);
    var r := 0;
    if hasProp {
      var free := SearchFreeSlots(chr.bags);
      if !free {
        return [], Failed;
      }
      WeightedTotal(items);
      r := random % total;
    }
    ghost var drawn;
    offered, drawn := PickItems(items, r);
    PickedAreOffered(items, offered, drawn, hasProp);
    var kept := LeaveOutHeld(offered, HeldIn(chr.bags));
    assert forall x :: x in kept ==> x in items;
    outcome := GiveKept(chr, offered, kept);
  }

  function HeldIn(b: Bags): nat -> bool
    requires |b.stacks| == 4
  {
    (id: nat) => KnownId(id) && Held(b, id) >= 1
  }

  /** The transaction for the items that are not held. */
  method GiveKept(chr: Carrier, ghost offered: seq<Item>, kept: seq<Item>) returns (outcome: Outcome)
    requires BagsOk(chr.bags, chr.slotMax)
    requires forall x :: x in offered ==> KnownId(x.id)
    requires forall x :: x in kept ==> KnownId(x.id) && chr.slotMax(x.id) >= 1
    requires forall x :: x in kept <==> x in offered && !HeldIn(chr.bags)(x.id)
    requires multiset(kept) == multiset(NotHeld(offered, HeldIn(chr.bags)))
    modifies chr
    ensures BagsOk(chr.bags, chr.slotMax) && (!outcome.Done? ==> chr.bags == old(chr.bags))
    ensures outcome.Done? ==> forall id :: KnownId(id) ==>
              Held(chr.bags, id) == if old(Held(chr.bags, id)) >= 1 then old(Held(chr.bags, id)) else Added(offered, id)
    ensures outcome.Aborted?
            <==> forall x :: x in offered ==> old(Held(chr.bags, x.id)) >= 1 || Idle(old(chr.bags), x.id, x.count)
  {
    hide Held, Idle, Bounded, NotHeld, Added, Exhausts, Repairs, OpensAmmo, IsFirst, Enough, Requested, AfterTaking;
    var b := chr.bags;
    var ids := seq(|kept|, i requires 0 <= i < |kept| => kept[i].id);
    var counts := seq(|kept|, i requires 0 <= i < |kept| => kept[i].count);
    outcome := chr.GainItems(ids, counts);
    if outcome.Done? {
      forall id | KnownId(id)
        ensures Held(chr.bags, id) == if Held(b, id) >= 1 then Held(b, id) else Added(offered, id)
      {
        KeptTotals(b, chr.slotMax, offered, kept, ids, counts, id);
      }
    }
    if i :| 0 <= i < |ids| && !Idle(b, ids[i], counts[i]) {
      assert kept[i] in offered;
    } else {
      forall x | x in offered
        ensures Held(b, x.id) >= 1 || Idle(b, x.id, x.count)
      {
        if x in kept {
          var i :| 0 <= i < |kept| && kept[i] == x;
          assert Idle(b, ids[i], counts[i]);
        }
      }
    }
  }

  lemma KeptTotals(b: Bags, slotMax: SlotMax, offered: seq<Item>, kept: seq<Item>,
                   ids: seq<nat>, counts: seq<int>, id: nat)
    requires BagsOk(b, slotMax) && KnownId(id) && |ids| == |counts| == |kept|
    requires forall i :: 0 <= i < |kept| ==> ids[i] == kept[i].id && counts[i] == kept[i].count
    requires forall x :: x in kept <==> x in offered && !HeldIn(b)(x.id)
    requires multiset(kept) == multiset(NotHeld(offered, HeldIn(b)))
    ensures AfterRemovals(Held(b, id), ids, counts, id, |ids|) + Gains(ids, counts, id, |ids|)
            == if Held(b, id) >= 1 then Held(b, id) else Added(offered, id)
  {
    hide Held, Bounded, NotHeld, Added;
    HeldIsCount(b, slotMax, id);
    EntriesOfItems(kept, ids, counts, Held(b, id), id, |kept|);
    assert kept[..|kept|] == kept;
    AddedInAnyOrder(kept, NotHeld(offered, HeldIn(b)), id);
    AddedOfNotHeld(offered, HeldIn(b), id);
  }

  lemma {:induction false} UnweightedInside(items: seq<Item>, x: Item)
    requires x in Unweighted(items)
    ensures x in items
  {
    var n := |items| - 1;
    if x in Unweighted(items[..n]) {
      UnweightedInside(items[..n], x);
    }
  }

  lemma PickedAreOffered(items: seq<Item>, offered: seq<Item>, drawn: nat, hasProp: bool)
    requires if hasProp then drawn < |items|
               && offered == Unweighted(items[..drawn]) + [items[drawn]] + Unweighted(items[drawn + 1..])
             else offered == items
    ensures forall x :: x in offered ==> x in items
  {
    hide Unweighted;
    if hasProp {
      forall x | x in offered
        ensures x in items
      {
        if x in Unweighted(items[..drawn]) {
          UnweightedInside(items[..drawn], x);
        } else if x in Unweighted(items[drawn + 1..]) {
          UnweightedInside(items[drawn + 1..], x);
        }
      }
    }
  }

  /** A quest that hands out one item which the character already holds. */
  method AllHeldAborts(slotMax: SlotMax) returns (outcome: Outcome)
    requires slotMax(4031619) == 1
    ensures outcome.Aborted?
  {
    var b := Bags([], [[], [], [Stack(4031619, 1)], []], NO_PROJECTILE);
    var chr := new Carrier(slotMax, 0, b);
    assert Held(b, 4031619) == 1 by {
      assert b.stacks[2] == [Stack(4031619, 1)];
      assert [Stack(4031619, 1)][..0] == [];
      assert Total([Stack(4031619, 1)], 4031619) == 1;
    }
    var item := Item(4031619, 1, 0);
    assert !HasWeighted([item]);
    var offered;
    offered, outcome := StartItems(chr, [item], 0);
  }

  /** Taking away a stackable item that the character does not hold. */
  method RemoveMissingAborts(slotMax: SlotMax) returns (outcome: Outcome)
    requires slotMax(4031619) == 1
    ensures outcome.Aborted?
  {
    var chr := new Carrier(slotMax, 0, Bags([], [[], [], [Empty], []], NO_PROJECTILE));
    assert Idle(chr.bags, 4031619, -1);
    outcome := chr.GainItems([4031619], [-1]);
  }

  lemma TotalOfOne(id: nat, qty: int)
    ensures Total([Stack(id, qty)], id) == qty
  {
    assert [Stack(id, qty)][..0] == [];
    assert Total([], id) == 0;
  }

  /** Taking two of a stackable item away succeeds although only one is held. */
  method RemoveTooManySucceeds(slotMax: SlotMax) returns (chr: Carrier, outcome: Outcome)
    requires slotMax(4031619) == 1
    ensures outcome.Done? && |chr.bags.stacks| == 4 && Held(chr.bags, 4031619) == 0
  {
    hide Total;
    var b := Bags([], [[], [], [Stack(4031619, 1)], []], NO_PROJECTILE);
    chr := new Carrier(slotMax, 0, b);
    TotalOfOne(4031619, 1);
    assert b.stacks[2] == [Stack(4031619, 1)] && Held(b, 4031619) == 1;
    assert b.stacks[2][0] == Stack(4031619, 1) && !Idle(b, 4031619, -2);
    outcome := chr.GainItems([4031619], [-2]);
    assert AfterRemovals(1, [4031619], [-2], 4031619, 1) == 0 && Gains([4031619], [-2], 4031619, 1) == 0;
  }

  /** Taking the last arrows of an archer away leaves their empty slot cached. */
  method TakenAmmoStaysCached(slotMax: SlotMax) returns (chr: Carrier, outcome: Outcome)
    requires slotMax(2060000) == 1000
    ensures outcome.Done? && |chr.bags.stacks| == 4 && !IsFirst(chr.weapon, chr.bags.stacks[0], chr.bags.active)
  {
    hide Total;
    var b := Bags([], [[Stack(2060000, 10)], [], [], []], 0);
    chr := new Carrier(slotMax, 1452000, b);
    TotalOfOne(2060000, 10);
    var use := [Stack(2060000, 10)];
    assert b.stacks[0] == use && use[..0] == [] && use[..1] == use;
    assert Removed([2060000], [-10], 2060000, 1) == 10;
    TotalNothing(2060000);
    assert UsedUp(use, 0, 10) && Exhausts(b, [2060000], [-10], 1);
    assert use[0] == Stack(2060000, 10) && !Idle(b, 2060000, -10);
    assert IsFirst(1452000, use, 0);
    outcome := chr.GainItems([2060000], [-10]);
  }

  /** Arrows gained while the id of a bow that was taken off is still in the weapon slot are cached. */
  method GainedAmmoIsCached(slotMax: SlotMax) returns (chr: Carrier, outcome: Outcome)
    requires slotMax(2060000) == 1000
    ensures outcome.Done? && chr.bags.active != NO_PROJECTILE
  {
    hide Total, StackRoom, Empties, Stacks, OpensAmmo, Capacity, IsFirst, Exhausts, Repairs, Needed, AfterTaking, Holds;
    var use: seq<Slot> := [Empty];
    var b := Bags([], [use, [], [], []], NO_PROJECTILE);
    chr := new Carrier(slotMax, 1452000, b);
    AmmoOpens(use, slotMax);
    assert b.stacks[0] == use && Room(b, slotMax, 2060000) == 1000 && !Idle(b, 2060000, 10);
    outcome := chr.GainItems([2060000], [10]);
  }

  lemma AmmoOpens(use: seq<Slot>, slotMax: SlotMax)
    requires use == [Empty] && slotMax(2060000) == 1000
    ensures Capacity(use, 2060000, 1000) == 1000
    ensures AfterTaking(use, 0, [2060000], [10], 1) == use
    ensures OpensAmmo(use, slotMax, [2060000], [10], 1, 1452000)
  {
    hide OpensAmmo;
    assert use[..0] == [];
    NothingToCount(2060000, 1000);
    assert StackRoom(use, 2060000, 1000) == 0 && Empties(use) == 1;
    assert AfterTaking(use, 0, [2060000], [10], 0) == use;
    assert Gains([2060000], [10], 2060000, 0) == 0;
    assert Gains([2060000], [10], 2060000, 1) == 10;
    assert Bounded(use, slotMax);
    OpensAmmoExactly(use, slotMax, [2060000], [10], 1, 1452000);
  }
}
