/** Gaining and losing several items at once: the inventories are copied, every entry is
    applied to the copies, and the copies are written back only if all of them went in. */
module ItemGain {
  import opened Common
  import opened Inventory
  import opened StackSlots

  datatype EquipSlot = NoEquip | Equip(id: nat)

  /** `Aborted` is the failed assertion that something was modified. */
  datatype Outcome = Failed | Aborted | Done

  /** The five inventories a transaction works on. */
  datatype Bags = Bags(equips: seq<EquipSlot>, stacks: seq<seq<Slot>>, active: Byte)

  predicate IsEquip(id: nat) { id / 1000000 == 1 }

  predicate KnownId(id: nat) { 1 <= id / 1000000 <= 5 }

  function StackIndex(id: nat): (r: nat)
    requires KnownId(id) && !IsEquip(id)
    ensures r < 4
  {
    id / 1000000 - 2
  }

  /** Equipment has ids from 1000000 on, and then come use, set-up, etc and cash items, a million each. */
  lemma Inventories(id: nat)
    ensures IsEquip(id) <==> 1000000 <= id < 2000000
    ensures KnownId(id) <==> 1000000 <= id < 6000000
    ensures KnownId(id) && !IsEquip(id) ==>
              2000000 + 1000000 * StackIndex(id) <= id < 3000000 + 1000000 * StackIndex(id)
  {
  }

  function EquipCount(equips: seq<EquipSlot>, id: nat): nat {
    if equips == [] then 0
    else EquipCount(equips[..|equips| - 1], id) + if equips[|equips| - 1] == Equip(id) then 1 else 0
  }

  /** How many of an item the character holds. */
  function Held(b: Bags, id: nat): int
    requires KnownId(id) && |b.stacks| == 4
  {
    if IsEquip(id) then EquipCount(b.equips, id) else Total(b.stacks[StackIndex(id)], id)
  }

  // ---------- the equipment inventory ----------

  ghost predicate EquipsChanged(before: seq<EquipSlot>, after: seq<EquipSlot>, id: nat, delta: int) {
    && |after| == |before|
    && forall i :: EquipCount(after, i) == EquipCount(before, i) + if i == id then delta else 0
  }

  lemma {:induction false} EquipCountUpdate(equips: seq<EquipSlot>, j: nat, s: EquipSlot, id: nat)
    requires j < |equips|
    ensures EquipCount(equips[j := s], id)
            == EquipCount(equips, id) - (if equips[j] == Equip(id) then 1 else 0) + (if s == Equip(id) then 1 else 0)
  {
    var n := |equips| - 1;
    if j == n {
      assert equips[j := s][..n] == equips[..n];
    } else {
      EquipCountUpdate(equips[..n], j, s, id);
      assert equips[j := s][..n] == equips[..n][j := s];
    }
  }

  lemma ChangeEquip(before: seq<EquipSlot>, now: seq<EquipSlot>, j: nat, s: EquipSlot, id: nat, delta: int)
    requires EquipsChanged(before, now, id, delta) && j < |now|
    requires (s == Equip(id) && now[j].NoEquip?) || (s.NoEquip? && now[j] == Equip(id))
    ensures EquipsChanged(before, now[j := s], id, delta + if s.Equip? then 1 else -1)
  {
    hide EquipCount;
    forall i
      ensures EquipCount(now[j := s], i)
              == EquipCount(now, i) - (if now[j] == Equip(i) then 1 else 0) + (if s == Equip(i) then 1 else 0)
    {
      EquipCountUpdate(now, j, s, i);
    }
  }

  method TakeEquips(inv: seq<EquipSlot>, id: nat, amount: int) returns (out: seq<EquipSlot>, rest: int, mods: nat)
    requires amount < 0
    ensures rest <= 0 && EquipsChanged(inv, out, id, amount - rest)
    ensures FreeEquips(out) == FreeEquips(inv) + rest - amount
    ensures rest < 0 ==> EquipCount(out, id) == 0
    ensures mods == 0 ==> out == inv
  {
    hide EquipCount, FreeEquips;
    out, rest, mods := inv, amount, 0;
    for j := 0 to |inv|
      invariant rest < 0 && EquipsChanged(inv, out, id, amount - rest)
      invariant FreeEquips(out) == FreeEquips(inv) + rest - amount
      invariant forall k :: 0 <= k < j ==> out[k] != Equip(id)
      invariant mods == 0 ==> out == inv
    {
      if out[j] == Equip(id) {
        ChangeEquip(inv, out, j, NoEquip, id, amount - rest);
        FreeEquipsUpdate(out, j, NoEquip);
        out, rest, mods := out[j := NoEquip], rest + 1, mods + 1;
        if rest == 0 {
          break;
        }
      }
    }
    if rest < 0 {
      NoneCounted(out, id);
    }
  }

  lemma {:induction false} NoneCounted(equips: seq<EquipSlot>, id: nat)
    requires forall k :: 0 <= k < |equips| ==> equips[k] != Equip(id)
    ensures EquipCount(equips, id) == 0
  {
    if equips != [] {
      NoneCounted(equips[..|equips| - 1], id);
    }
  }

  method AddEquips(inv: seq<EquipSlot>, id: nat, amount: int) returns (out: seq<EquipSlot>, rest: int, mods: nat)
    requires amount > 0
    ensures rest == Max(0, amount - FreeEquips(inv)) && EquipsChanged(inv, out, id, amount - rest)
    ensures FreeEquips(out) == FreeEquips(inv) - (amount - rest)
    ensures mods == 0 ==> out == inv
  {
    hide EquipCount, FreeEquips;
    NoFreeEquips();
    assert inv[..0] == [];
    out, rest, mods := inv, amount, 0;
    for j := 0 to |inv|
      invariant rest > 0 && EquipsChanged(inv, out, id, amount - rest)
      invariant rest == amount - FreeEquips(inv[..j])
      invariant forall k :: j <= k < |inv| ==> out[k] == inv[k]
      invariant FreeEquips(out) == FreeEquips(inv) - (amount - rest)
      invariant mods == 0 ==> out == inv
    {
      FreeEquipsPrefix(inv, j);
      if out[j].NoEquip? {
        ChangeEquip(inv, out, j, Equip(id), id, amount - rest);
        FreeEquipsUpdate(out, j, Equip(id));
        out, rest, mods := out[j := Equip(id)], rest - 1, mods + 1;
        if rest == 0 {
          break;
        }
      }
    }
    assert inv[..|inv|] == inv;
  }

  function FreeEquips(equips: seq<EquipSlot>): nat {
    if equips == [] then 0 else FreeEquips(equips[..|equips| - 1]) + if equips[|equips| - 1].NoEquip? then 1 else 0
  }

  lemma NoFreeEquips()
    ensures FreeEquips([]) == 0
  {
  }

  lemma {:induction false} FreeEquipsUpdate(equips: seq<EquipSlot>, j: nat, s: EquipSlot)
    requires j < |equips|
    ensures FreeEquips(equips[j := s])
            == FreeEquips(equips) - (if equips[j].NoEquip? then 1 else 0) + (if s.NoEquip? then 1 else 0)
  {
    var n := |equips| - 1;
    if j == n {
      assert equips[j := s][..n] == equips[..n];
    } else {
      FreeEquipsUpdate(equips[..n], j, s);
      assert equips[j := s][..n] == equips[..n][j := s];
    }
  }

  lemma {:induction false} FreeEquipsPrefix(equips: seq<EquipSlot>, j: nat)
    requires j < |equips|
    ensures FreeEquips(equips[..j + 1]) == FreeEquips(equips[..j]) + if equips[j].NoEquip? then 1 else 0
    ensures FreeEquips(equips[..j + 1]) <= FreeEquips(equips)
    decreases |equips| - j
  {
    assert equips[..j + 1][..j] == equips[..j];
    if j + 1 < |equips| {
      FreeEquipsPrefix(equips, j + 1);
    } else {
      assert equips[..j + 1] == equips;
    }
  }

  // ---------- single entries ----------

  ghost predicate BagsOk(b: Bags, slotMax: SlotMax) {
    && |b.stacks| == 4
    && forall k :: 0 <= k < 4 ==> Bounded(b.stacks[k], slotMax) && |b.stacks[k]| <= MAX_ITEM_COUNT
  }

  /** What is left of `h` items after the removals among the first `n` entries; more than
      everything cannot be taken. */
  function AfterRemovals(h: int, ids: seq<nat>, counts: seq<int>, id: nat, n: nat): int
    requires n <= |ids| == |counts|
  {
    if n == 0 then h
    else
      var p := AfterRemovals(h, ids, counts, id, n - 1);
      if ids[n - 1] == id && counts[n - 1] < 0 then Max(0, p + counts[n - 1]) else p
  }

  /** The sum of the requested additions among the first `n` entries. */
  function Gains(ids: seq<nat>, counts: seq<int>, id: nat, n: nat): int
    requires n <= |ids| == |counts|
  {
    if n == 0 then 0
    else Gains(ids, counts, id, n - 1) + if ids[n - 1] == id && counts[n - 1] > 0 then counts[n - 1] else 0
  }

  /** The sum of all requested changes among the first `n` entries. */
  function Requested(ids: seq<nat>, counts: seq<int>, id: nat, n: nat): int
    requires n <= |ids| == |counts|
  {
    if n == 0 then 0 else Requested(ids, counts, id, n - 1) + if ids[n - 1] == id then counts[n - 1] else 0
  }

  /** The held items cover all removals. */
  ghost predicate Enough(h: int, ids: seq<nat>, counts: seq<int>, id: nat)
    requires |ids| == |counts|
  {
    h + Requested(ids, counts, id, |ids|) - Gains(ids, counts, id, |ids|) >= 0
  }

  /** If enough is held for all removals, the change is exactly the requested sum. */
  lemma {:induction false} EnoughMeansExact(h: int, ids: seq<nat>, counts: seq<int>, id: nat, n: nat)
    requires n <= |ids| == |counts|
    requires h + Requested(ids, counts, id, n) - Gains(ids, counts, id, n) >= 0
    ensures AfterRemovals(h, ids, counts, id, n) + Gains(ids, counts, id, n) == h + Requested(ids, counts, id, n)
  {
    if n > 0 {
      EnoughMeansExact(h, ids, counts, id, n - 1);
    }
  }

  ghost predicate HeldBecomes(b: Bags, b': Bags, id: nat, now: int)
    requires |b.stacks| == |b'.stacks| == 4
  {
    forall x :: KnownId(x) ==> Held(b', x) == if x == id then now else Held(b, x)
  }

  /** How many more of an item the inventories can take. */
  function Room(b: Bags, slotMax: SlotMax, id: nat): int
    requires KnownId(id) && |b.stacks| == 4
  {
    if IsEquip(id) then FreeEquips(b.equips) else Capacity(b.stacks[StackIndex(id)], id, slotMax(id))
  }

  /** There is nothing to take: removing such an item succeeds without a single change. */
  ghost predicate Missing(b: Bags, id: nat)
    requires KnownId(id) && |b.stacks| == 4
  {
    !IsEquip(id) && !Holds(b.stacks[StackIndex(id)], id)
  }

  /** The item lies in the `k`-th of the four stackable inventories. */
  predicate InStack(id: nat, k: nat) { KnownId(id) && !IsEquip(id) && StackIndex(id) == k }

  method RemoveEntry(b: Bags, slotMax: SlotMax, id: nat, amount: int) returns (b': Bags, failed: bool, mods: nat)
    requires BagsOk(b, slotMax) && KnownId(id) && amount < 0
    ensures BagsOk(b', slotMax) && b'.active == b.active
    ensures failed <==> IsEquip(id) && Held(b, id) + amount < 0
    ensures !failed ==> HeldBecomes(b, b', id, Max(0, Held(b, id) + amount))
    ensures !failed ==> (mods == 0 <==> Missing(b, id))
    ensures mods == 0 ==> b' == b
    ensures forall k :: 0 <= k < 4 ==>
              b'.stacks[k] == if InStack(id, k) then Taken(b.stacks[k], id, -amount) else b.stacks[k]
    ensures !failed ==> FreeEquips(b'.equips) == FreeEquips(b.equips) + if IsEquip(id) then -amount else 0
  {
    hide Total, EquipCount, Holds, Taken, Bounded, FreeEquips;
    if IsEquip(id) {
      var out, rest, m := TakeEquips(b.equips, id, amount);
      b', failed, mods := b.(equips := out), rest < 0, m;
    } else {
      var k := StackIndex(id);
      var out, rest, m := TakeStacks(b.stacks[k], slotMax, id, amount);
      b', failed, mods := b.(stacks := b.stacks[k := out]), false, m;
      if m == 0 {
        TakenNothing(b.stacks[k], id, -amount);
      }
    }
  }

  lemma TakenNothing(inv: seq<Slot>, id: nat, n: int)
    requires !Holds(inv, id)
    ensures Taken(inv, id, n) == inv
  {
  }

  /** How many new stacks an addition needs in the `k`-th inventory. */
  ghost function OpensNow(b: Bags, k: nat, slotMax: SlotMax, id: nat, amount: int): nat
    requires k < |b.stacks| && slotMax(id) >= 1
  {
    if InStack(id, k) then NewStacks(b.stacks[k], id, slotMax(id), amount) else 0
  }

  method AddEntry(b: Bags, slotMax: SlotMax, id: nat, amount: int, weapon: nat)
    returns (b': Bags, failed: bool, mods: nat)
    requires BagsOk(b, slotMax) && KnownId(id) && amount > 0 && slotMax(id) >= 1
    ensures BagsOk(b', slotMax)
    ensures failed <==> Room(b, slotMax, id) < amount
    ensures failed <==> if IsEquip(id) then FreeEquips(b.equips) < amount
                        else Empties(b.stacks[StackIndex(id)]) < OpensNow(b, StackIndex(id), slotMax, id, amount)
    ensures !failed ==> HeldBecomes(b, b', id, Held(b, id) + amount) && mods > 0
    ensures !failed ==> FreeEquips(b'.equips) == FreeEquips(b.equips) - if IsEquip(id) then amount else 0
    ensures forall k :: 0 <= k < 4 ==>
              if InStack(id, k) then Opened(b.stacks[k], b'.stacks[k], id, OpensNow(b, k, slotMax, id, amount))
              else b'.stacks[k] == b.stacks[k]
    ensures b'.active == if OpensNow(b, 0, slotMax, id, amount) > 0 then CachedThen(b.stacks[0], weapon, id, b.active)
                         else b.active
  {
    hide Total, EquipCount, Capacity, TopUpRoom, Bounded, UsableAmmo, FreeEquips, Opened;
    hide NewStacks, CachedThen, Empties;
    if IsEquip(id) {
      var out, rest, m := AddEquips(b.equips, id, amount);
      b', failed, mods := b.(equips := out), rest > 0, m;
    } else {
      var k := StackIndex(id);
      var out, rest, m, active := AddStacks(b.stacks[k], slotMax, id, amount, k == 0, weapon, b.active);
      b', failed, mods := b.(stacks := b.stacks[k := out], active := active), rest > 0, m;
    }
  }

  // ---------- the cached slot under removals ----------

  /** How many items of a kind the first `n` entries ask to remove. */
  ghost function Removed(ids: seq<nat>, counts: seq<int>, id: nat, n: nat): int
    requires n <= |ids| == |counts|
  {
    if n == 0 then 0
    else Removed(ids, counts, id, n - 1) + if ids[n - 1] == id && counts[n - 1] < 0 then -counts[n - 1] else 0
  }

  /** How many of them come out of the use inventory. */
  ghost function RemovedFromUse(ids: seq<nat>, counts: seq<int>, id: nat, n: nat): int
    requires n <= |ids| == |counts|
  {
    if id / 1000000 == 2 then Removed(ids, counts, id, n) else 0
  }

  /** The first `n` entries ask to remove at least what lies in the cached slot and before it. */
  ghost predicate Exhausts(b: Bags, ids: seq<nat>, counts: seq<int>, n: nat)
    requires n <= |ids| == |counts| && |b.stacks| == 4
  {
    var use := b.stacks[0];
    b.active < |use| && use[b.active].Stack? && UsedUp(use, b.active, RemovedFromUse(ids, counts, use[b.active].id, n))
  }

  /** The stack at `a` and the slots before it after `taken` of its items were removed in total. */
  ghost predicate Tracks(before: seq<Slot>, now: seq<Slot>, a: nat, taken: int)
    requires a < |before| && before[a].Stack?
  {
    var id := before[a].id;
    && |now| == |before|
    && Total(now[..a], id) == Max(0, Total(before[..a], id) - taken)
    && if UsedUp(before, a, taken) then now[a].Empty?
       else now[a].Stack? && now[a].id == id && Total(now[..a + 1], id) == Max(0, Total(before[..a + 1], id) - taken)
  }

  lemma TrackNothing(before: seq<Slot>, slotMax: SlotMax, a: nat)
    requires a < |before| && before[a].Stack? && Bounded(before, slotMax)
    ensures Tracks(before, before, a, 0)
  {
    hide Total, Taken;
    TakenPrefix(before, slotMax, before[a].id, 0, a, before[a].id);
    TakenPrefix(before, slotMax, before[a].id, 0, a + 1, before[a].id);
  }

  lemma TrackStep(before: seq<Slot>, now: seq<Slot>, slotMax: SlotMax, a: nat, taken: int, id: nat, n: int)
    requires a < |before| && before[a].Stack? && Tracks(before, now, a, taken) && Bounded(now, slotMax) && n > 0
    ensures Tracks(before, Taken(now, id, n), a, taken + if id == before[a].id then n else 0)
  {
    hide Total, Taken;
    var x := before[a].id;
    TakenPrefix(now, slotMax, id, n, a, x);
    TakenPrefix(now, slotMax, id, n, a + 1, x);
    TotalPrefix(now, a, x);
    TakenAt(now, id, n, a);
  }

  /** Where a cached slot that was right stands while entries are removed. */
  ghost predicate CacheAfter(before: Bags, now: Bags, ids: seq<nat>, counts: seq<int>, n: nat, weapon: nat)
    requires n <= |ids| == |counts| && |before.stacks| == |now.stacks| == 4
  {
    var use, a := before.stacks[0], before.active;
    && now.active == a && |now.stacks[0]| == |use|
    && (a < |use| && use[a].Stack? ==> Tracks(use, now.stacks[0], a, RemovedFromUse(ids, counts, use[a].id, n)))
    && (IsFirst(weapon, use, a) ==>
          if a >= |use| || now.stacks[0][a].Stack? then IsFirst(weapon, now.stacks[0], a)
          else Stale(weapon, now.stacks[0], a))
  }

  lemma CacheStep(before: Bags, now: Bags, next: Bags, slotMax: SlotMax, ids: seq<nat>, counts: seq<int>,
                  n: nat, weapon: nat)
    requires n < |ids| == |counts| && KnownId(ids[n]) && counts[n] < 0
    requires BagsOk(before, slotMax) && BagsOk(now, slotMax) && |next.stacks| == 4 && next.active == now.active
    requires CacheAfter(before, now, ids, counts, n, weapon)
    requires next.stacks[0] == if !IsEquip(ids[n]) && StackIndex(ids[n]) == 0
                               then Taken(now.stacks[0], ids[n], -counts[n]) else now.stacks[0]
    ensures CacheAfter(before, next, ids, counts, n + 1, weapon)
  {
    hide Total, Taken, Usable, Tracks, IsFirst, Stale;
    var use, a := before.stacks[0], before.active;
    if !IsEquip(ids[n]) && StackIndex(ids[n]) == 0 {
      if a < |use| && use[a].Stack? {
        TrackStep(use, now.stacks[0], slotMax, a, RemovedFromUse(ids, counts, use[a].id, n), ids[n], -counts[n]);
      }
      TakenCache(weapon, now.stacks[0], slotMax, ids[n], -counts[n], a);
      if a < |use| {
        TakenAt(now.stacks[0], ids[n], -counts[n], a);
      }
    }
  }

  // ---------- asking for an item ----------

  lemma {:induction false} EquipPrefix(equips: seq<EquipSlot>, j: nat, id: nat)
    requires j < |equips|
    ensures EquipCount(equips[..j + 1], id) == EquipCount(equips[..j], id) + if equips[j] == Equip(id) then 1 else 0
    ensures EquipCount(equips[..j + 1], id) <= EquipCount(equips, id)
    decreases |equips| - j
  {
    assert equips[..j + 1][..j] == equips[..j];
    if j + 1 < |equips| {
      EquipPrefix(equips, j + 1, id);
    } else {
      assert equips[..j + 1] == equips;
    }
  }

  /** Counts what is asked for down to zero, slot by slot. */
  method HasItem(b: Bags, slotMax: SlotMax, id: nat, qty: int) returns (r: bool)
    requires BagsOk(b, slotMax) && KnownId(id) && qty > 0
    ensures r <==> Held(b, id) >= qty
  {
    hide Total, EquipCount, Bounded;
    if IsEquip(id) {
      r := HasEquips(b.equips, id, qty);
    } else {
      r := HasStacks(b.stacks[StackIndex(id)], slotMax, id, qty);
    }
  }

  method HasEquips(inv: seq<EquipSlot>, id: nat, qty: int) returns (r: bool)
    requires qty > 0
    ensures r <==> EquipCount(inv, id) >= qty
  {
    var left := qty;
    for j := 0 to |inv|
      invariant left > 0 && left == qty - EquipCount(inv[..j], id)
    {
      EquipPrefix(inv, j, id);
      if inv[j] == Equip(id) {
        left := left - 1;
        if left == 0 {
          return true;
        }
      }
    }
    assert inv[..|inv|] == inv;
    return false;
  }

  method HasStacks(inv: seq<Slot>, slotMax: SlotMax, id: nat, qty: int) returns (r: bool)
    requires Bounded(inv, slotMax) && qty > 0
    ensures r <==> Total(inv, id) >= qty
  {
    var left := qty;
    for j := 0 to |inv|
      invariant left > 0 && left == qty - Total(inv[..j], id)
    {
      TotalPrefix(inv, j, id);
      if inv[j].Stack? && inv[j].id == id {
        left := left - inv[j].qty;
        if left <= 0 {
          TotalPrefixLe(inv, slotMax, j + 1, id);
          return true;
        }
      }
    }
    assert inv[..|inv|] == inv;
    return false;
  }

  // ---------- whole lists of entries ----------

  ghost predicate ValidEntries(slotMax: SlotMax, ids: seq<nat>, counts: seq<int>) {
    |ids| == |counts| && forall i :: 0 <= i < |ids| ==> KnownId(ids[i]) && slotMax(ids[i]) >= 1
  }

  /** The `k`-th inventory after the removals among the first `n` entries. */
  ghost function AfterTaking(inv: seq<Slot>, k: nat, ids: seq<nat>, counts: seq<int>, n: nat): (r: seq<Slot>)
    requires n <= |ids| == |counts|
    ensures |r| == |inv|
  {
    if n == 0 then inv
    else
      var p := AfterTaking(inv, k, ids, counts, n - 1);
      if counts[n - 1] < 0 && InStack(ids[n - 1], k) then Taken(p, ids[n - 1], -counts[n - 1]) else p
  }

  /** How much equipment the first `n` entries remove. */
  ghost function EquipsRemoved(ids: seq<nat>, counts: seq<int>, n: nat): nat
    requires n <= |ids| == |counts|
  {
    if n == 0 then 0
    else EquipsRemoved(ids, counts, n - 1) + if counts[n - 1] < 0 && IsEquip(ids[n - 1]) then -counts[n - 1] else 0
  }

  ghost function EquipsGained(ids: seq<nat>, counts: seq<int>, n: nat): nat
    requires n <= |ids| == |counts|
  {
    if n == 0 then 0
    else EquipsGained(ids, counts, n - 1) + if counts[n - 1] > 0 && IsEquip(ids[n - 1]) then counts[n - 1] else 0
  }

  /** How many new stacks the `i`-th entry opens in the `k`-th inventory, told from the inventory before all
      additions: what all entries for the item up to this one need, less what the earlier ones did.
      Rechargeable items never join a stack. */
  ghost function EntryOpens(inv: seq<Slot>, k: nat, slotMax: SlotMax, ids: seq<nat>, counts: seq<int>, i: nat): nat
    requires ValidEntries(slotMax, ids, counts) && i < |ids|
  {
    var id := ids[i];
    if counts[i] <= 0 || !InStack(id, k) then 0
    else if IsRechargeable(id) then Ceil(counts[i], slotMax(id))
    else Max(0, NewStacks(inv, id, slotMax(id), Gains(ids, counts, id, i + 1))
                - NewStacks(inv, id, slotMax(id), Gains(ids, counts, id, i)))
  }

  ghost function Needed(inv: seq<Slot>, k: nat, slotMax: SlotMax, ids: seq<nat>, counts: seq<int>, n: nat): nat
    requires ValidEntries(slotMax, ids, counts) && n <= |ids|
  {
    if n == 0 then 0
    else Needed(inv, k, slotMax, ids, counts, n - 1) + EntryOpens(inv, k, slotMax, ids, counts, n - 1)
  }

  /** Some entry removes more equipment of one kind than is held. */
  ghost predicate TakesTooMuch(b: Bags, ids: seq<nat>, counts: seq<int>, n: nat)
    requires n <= |ids| == |counts|
  {
    exists x :: IsEquip(x) && Removed(ids, counts, x, n) > EquipCount(b.equips, x)
  }

  /** The additions need more free equipment slots or more empty slots of some inventory than there are. */
  ghost predicate Overflows(b: Bags, slotMax: SlotMax, ids: seq<nat>, counts: seq<int>, n: nat)
    requires ValidEntries(slotMax, ids, counts) && n <= |ids| && |b.stacks| == 4
  {
    || EquipsGained(ids, counts, n) > FreeEquips(b.equips)
    || exists k :: 0 <= k < 4 && Needed(b.stacks[k], k, slotMax, ids, counts, n) > Empties(b.stacks[k])
  }

  /** One of the first `n` entries opens a new stack of ammunition for the weapon id in the weapon slot. */
  ghost predicate OpensAmmo(use: seq<Slot>, slotMax: SlotMax, ids: seq<nat>, counts: seq<int>, n: nat, weapon: nat)
    requires ValidEntries(slotMax, ids, counts) && n <= |ids|
  {
    exists i :: 0 <= i < n && EntryOpens(use, 0, slotMax, ids, counts, i) > 0 && UsableAmmo(weapon, ids[i])
  }

  /** One of them puts such ammunition into slot `a` or one before it. */
  ghost predicate Repairs(use: seq<Slot>, slotMax: SlotMax, ids: seq<nat>, counts: seq<int>, n: nat,
                          weapon: nat, a: nat)
    requires ValidEntries(slotMax, ids, counts) && n <= |ids|
  {
    a < |use| && exists i :: 0 <= i < n && RepairsAt(use, slotMax, ids, counts, i, weapon, a)
  }

  ghost predicate RepairsAt(use: seq<Slot>, slotMax: SlotMax, ids: seq<nat>, counts: seq<int>, i: nat,
                            weapon: nat, a: nat)
    requires ValidEntries(slotMax, ids, counts) && i < |ids| && a < |use|
  {
    && EntryOpens(use, 0, slotMax, ids, counts, i) > 0 && UsableAmmo(weapon, ids[i])
    && Needed(use, 0, slotMax, ids, counts, i) < Empties(use[..a + 1])
  }

  lemma {:induction false} ListsGrow(inv: seq<Slot>, k: nat, slotMax: SlotMax, ids: seq<nat>, counts: seq<int>,
                                     x: nat, m: nat, n: nat)
    requires ValidEntries(slotMax, ids, counts) && m <= n <= |ids|
    ensures Removed(ids, counts, x, m) <= Removed(ids, counts, x, n)
    ensures EquipsGained(ids, counts, m) <= EquipsGained(ids, counts, n)
    ensures Needed(inv, k, slotMax, ids, counts, m) <= Needed(inv, k, slotMax, ids, counts, n)
    ensures 0 <= Gains(ids, counts, x, m) <= Gains(ids, counts, x, n)
    decreases n
  {
    hide EntryOpens;
    if m < n {
      ListsGrow(inv, k, slotMax, ids, counts, x, m, n - 1);
    } else if m > 0 {
      ListsGrow(inv, k, slotMax, ids, counts, x, m - 1, m - 1);
    }
  }

  /** Ammunition is opened exactly if the gains of some usable kind exceed what its stacks can take. */
  lemma OpensAmmoExactly(use: seq<Slot>, slotMax: SlotMax, ids: seq<nat>, counts: seq<int>, n: nat, weapon: nat)
    requires ValidEntries(slotMax, ids, counts) && n <= |ids| && Bounded(use, slotMax)
    ensures OpensAmmo(use, slotMax, ids, counts, n, weapon)
            <==> exists x :: InStack(x, 0) && UsableAmmo(weapon, x)
                             && Gains(ids, counts, x, n) > TopUpRoom(use, x, slotMax(x))
  {
    hide UsableAmmo, EntryOpens, TopUpRoom;
    if i :| 0 <= i < n && EntryOpens(use, 0, slotMax, ids, counts, i) > 0 && UsableAmmo(weapon, ids[i]) {
      EntryInStack(use, slotMax, ids, counts, i);
      OpensKindExactly(use, slotMax, ids, counts, n, ids[i]);
    }
    if x :| InStack(x, 0) && UsableAmmo(weapon, x) && Gains(ids, counts, x, n) > TopUpRoom(use, x, slotMax(x)) {
      OpensKindExactly(use, slotMax, ids, counts, n, x);
    }
  }

  lemma EntryInStack(use: seq<Slot>, slotMax: SlotMax, ids: seq<nat>, counts: seq<int>, i: nat)
    requires ValidEntries(slotMax, ids, counts) && i < |ids| && EntryOpens(use, 0, slotMax, ids, counts, i) > 0
    ensures InStack(ids[i], 0)
  {
  }

  lemma {:induction false} OpensKindExactly(use: seq<Slot>, slotMax: SlotMax, ids: seq<nat>, counts: seq<int>,
                                            n: nat, x: nat)
    requires ValidEntries(slotMax, ids, counts) && n <= |ids| && InStack(x, 0) && Bounded(use, slotMax)
    ensures (exists i :: 0 <= i < n && ids[i] == x && EntryOpens(use, 0, slotMax, ids, counts, i) > 0)
            <==> Gains(ids, counts, x, n) > TopUpRoom(use, x, slotMax(x))
    decreases n
  {
    hide Ceil, StackRoom;
    assert use[..|use|] == use;
    RoomPrefixAt(use, slotMax, x);
    if n > 0 {
      var i := n - 1;
      OpensKindExactly(use, slotMax, ids, counts, i, x);
      ListsGrow(use, 0, slotMax, ids, counts, x, i, n);
      if ids[i] == x && counts[i] > 0 {
        var max, room := slotMax(x), TopUpRoom(use, x, slotMax(x));
        CeilExactly(counts[i], max, 0);
        CeilExactly(Gains(ids, counts, x, n) - room, max, 0);
        CeilExactly(Gains(ids, counts, x, i) - room, max, 0);
        assert !IsRechargeable(x) && Gains(ids, counts, x, i) <= room ==>
            (EntryOpens(use, 0, slotMax, ids, counts, i) > 0 <==> Gains(ids, counts, x, n) > room);
      }
    }
  }

  lemma RoomPrefixAt(inv: seq<Slot>, slotMax: SlotMax, id: nat)
    requires Bounded(inv, slotMax)
    ensures TopUpRoom(inv, id, slotMax(id)) >= 0
    ensures !IsRechargeable(id) ==>
              TopUpRoom(inv, id, slotMax(id)) == Stacks(inv, id) * slotMax(id) - Total(inv, id)
  {
    assert inv[..|inv|] == inv;
    RoomBounds(inv, slotMax, |inv|, id);
  }

  // ---------- where the additions of a list stand ----------

  /** Everything that later entries depend on, after the additions among the first `n` entries. */
  ghost predicate Added(b: Bags, b': Bags, slotMax: SlotMax, ids: seq<nat>, counts: seq<int>, n: nat)
    requires ValidEntries(slotMax, ids, counts) && n <= |ids|
  {
    && |b.stacks| == |b'.stacks| == 4
    && FreeEquips(b'.equips) == FreeEquips(b.equips) - EquipsGained(ids, counts, n)
    && forall k :: 0 <= k < 4 ==> AddedTo(b.stacks[k], b'.stacks[k], k, slotMax, ids, counts, n)
  }

  ghost predicate AddedTo(inv: seq<Slot>, inv': seq<Slot>, k: nat, slotMax: SlotMax,
                          ids: seq<nat>, counts: seq<int>, n: nat)
    requires ValidEntries(slotMax, ids, counts) && n <= |ids|
  {
    && |inv'| == |inv|
    && Needed(inv, k, slotMax, ids, counts, n) <= Empties(inv)
    && (forall p :: 0 <= p <= |inv| ==>
          Empties(inv'[..p]) == Max(0, Empties(inv[..p]) - Needed(inv, k, slotMax, ids, counts, n)))
    && (forall x :: InStack(x, k) && !IsRechargeable(x) && slotMax(x) >= 1 ==>
          Stacks(inv', x) == Stacks(inv, x) + NewStacks(inv, x, slotMax(x), Gains(ids, counts, x, n)))
    && forall x :: InStack(x, k) ==> Total(inv', x) == Total(inv, x) + Gains(ids, counts, x, n)
  }

  lemma AddedNothing(b: Bags, slotMax: SlotMax, ids: seq<nat>, counts: seq<int>)
    requires BagsOk(b, slotMax) && ValidEntries(slotMax, ids, counts)
    ensures Added(b, b, slotMax, ids, counts, 0)
  {
    hide Empties, Stacks, Total, TopUpRoom, Bounded, Ceil;
    forall k | 0 <= k < 4
      ensures AddedTo(b.stacks[k], b.stacks[k], k, slotMax, ids, counts, 0)
    {
      var inv := b.stacks[k];
      forall x | slotMax(x) >= 1
        ensures NewStacks(inv, x, slotMax(x), 0) == 0
      {
        RoomPrefixAt(inv, slotMax, x);
        CeilExactly(-TopUpRoom(inv, x, slotMax(x)), slotMax(x), 0);
      }
    }
  }

  /** An entry opens as many stacks in the inventory as it stands as the list says. */
  lemma OpensAsListed(inv: seq<Slot>, inv': seq<Slot>, k: nat, slotMax: SlotMax, ids: seq<nat>, counts: seq<int>,
                      i: nat)
    requires ValidEntries(slotMax, ids, counts) && i < |ids| && counts[i] > 0 && InStack(ids[i], k)
    requires Bounded(inv, slotMax) && Bounded(inv', slotMax) && AddedTo(inv, inv', k, slotMax, ids, counts, i)
    ensures NewStacks(inv', ids[i], slotMax(ids[i]), counts[i]) == EntryOpens(inv, k, slotMax, ids, counts, i)
    ensures !IsRechargeable(ids[i]) ==>
              NewStacks(inv, ids[i], slotMax(ids[i]), Gains(ids, counts, ids[i], i + 1))
              == NewStacks(inv, ids[i], slotMax(ids[i]), Gains(ids, counts, ids[i], i))
                 + EntryOpens(inv, k, slotMax, ids, counts, i)
  {
    hide Empties, Stacks, Total, StackRoom, Ceil, Bounded, Needed;
    var id, max := ids[i], slotMax(ids[i]);
    if !IsRechargeable(id) {
      RoomPrefixAt(inv, slotMax, id);
      RoomPrefixAt(inv', slotMax, id);
      var room, g, a := TopUpRoom(inv, id, max), Gains(ids, counts, id, i), counts[i];
      var o := Ceil(g - room, max);
      OpensRest(g - room, a, max);
      assert (Stacks(inv, id) + o) * max == Stacks(inv, id) * max + o * max;
      assert a - TopUpRoom(inv', id, max) == (g - room + a) - o * max;
    }
  }

  lemma OpensRest(d: int, a: int, max: int)
    requires max >= 1 && a > 0
    ensures Ceil(d + a - Ceil(d, max) * max, max) == Ceil(d + a, max) - Ceil(d, max)
  {
    hide Ceil;
    CeilShift(d + a, max, Ceil(d, max));
    CeilExactly(d + a, max, Ceil(d + a, max));
    CeilExactly(d, max, Ceil(d + a, max));
  }

  lemma AddedStep(inv: seq<Slot>, now: seq<Slot>, next: seq<Slot>, k: nat, slotMax: SlotMax,
                  ids: seq<nat>, counts: seq<int>, i: nat)
    requires ValidEntries(slotMax, ids, counts) && i < |ids| && counts[i] > 0
    requires Bounded(inv, slotMax) && Bounded(now, slotMax) && AddedTo(inv, now, k, slotMax, ids, counts, i)
    requires if InStack(ids[i], k) then
               var o := NewStacks(now, ids[i], slotMax(ids[i]), counts[i]);
               Opened(now, next, ids[i], o) && o <= Empties(now)
             else next == now
    requires forall x :: InStack(x, k) ==> Total(next, x) == Total(now, x) + if x == ids[i] then counts[i] else 0
    ensures AddedTo(inv, next, k, slotMax, ids, counts, i + 1)
  {
    hide Empties, Stacks, Total, Ceil, Bounded, NewStacks, Opened;
    if InStack(ids[i], k) {
      OpensAsListed(inv, now, k, slotMax, ids, counts, i);
      var o := EntryOpens(inv, k, slotMax, ids, counts, i);
      assert now[..|now|] == now && inv[..|inv|] == inv;
      OpenedLength(now, next, ids[i], o);
      assert next[..|next|] == next;
      forall p | 0 <= p <= |inv|
        ensures Empties(next[..p]) == Max(0, Empties(inv[..p]) - Needed(inv, k, slotMax, ids, counts, i + 1))
      {
        OpenedCounts(now, next, ids[i], o, p, 0);
      }
      forall x | InStack(x, k) && !IsRechargeable(x) && slotMax(x) >= 1
        ensures Stacks(next, x) == Stacks(inv, x) + NewStacks(inv, x, slotMax(x), Gains(ids, counts, x, i + 1))
      {
        OpenedCounts(now, next, ids[i], o, |now|, x);
      }
    }
  }

  // ---------- whole transactions ----------

  /** The entry changes nothing: it asks for none, or to take away a stackable item that is not there. */
  ghost predicate Idle(b: Bags, id: nat, count: int)
    requires KnownId(id) && |b.stacks| == 4
  {
    count == 0 || (count < 0 && Missing(b, id))
  }

  /** The first loop: all removals. */
  method RemoveAll(b: Bags, slotMax: SlotMax, ids: seq<nat>, counts: seq<int>, ghost weapon: nat)
    returns (b': Bags, failed: bool, mods: nat)
    requires BagsOk(b, slotMax) && ValidEntries(slotMax, ids, counts)
    ensures BagsOk(b', slotMax)
    ensures failed <==> TakesTooMuch(b, ids, counts, |ids|)
    ensures !failed ==> forall id :: KnownId(id) ==> Held(b', id) == AfterRemovals(Held(b, id), ids, counts, id, |ids|)
    ensures !failed ==> (mods == 0 <==> forall i :: 0 <= i < |ids| && counts[i] < 0 ==> Missing(b, ids[i]))
    ensures mods == 0 && !failed ==> b' == b
    ensures !failed ==> CacheAfter(b, b', ids, counts, |ids|, weapon)
    ensures !failed ==> forall k :: 0 <= k < 4 ==> b'.stacks[k] == AfterTaking(b.stacks[k], k, ids, counts, |ids|)
    ensures !failed ==> FreeEquips(b'.equips) == FreeEquips(b.equips) + EquipsRemoved(ids, counts, |ids|)
    ensures failed ==> exists i :: 0 <= i < |ids| && counts[i] < 0 && IsEquip(ids[i])
  {
    hide Total, EquipCount, FreeEquips, Holds, Taken, CacheAfter, Bounded, TakenSoFar, TakesTooMuch;
    b', failed, mods := b, false, 0;
    CacheStart(b, slotMax, ids, counts, weapon);
    TakenNoneYet(b, ids, counts);
    for i := 0 to |ids|
      invariant BagsOk(b', slotMax) && !failed && TakenSoFar(b, b', ids, counts, i)
      invariant mods == 0 <==> forall k :: 0 <= k < i && counts[k] < 0 ==> Missing(b, ids[k])
      invariant mods == 0 ==> b' == b
      invariant CacheAfter(b, b', ids, counts, i, weapon)
    {
      if counts[i] < 0 {
        ghost var now := b';
        var m;
        b', failed, m := RemoveEntry(b', slotMax, ids[i], counts[i]);
        mods := mods + m;
        if failed {
          TakesTooMuchNow(b, now, slotMax, ids, counts, i);
          return;
        }
        TakenStep(b, now, b', slotMax, ids, counts, i);
        CacheStep(b, now, b', slotMax, ids, counts, i, weapon);
      } else {
        TakenSkip(b, b', ids, counts, i);
        CacheSkip(b, b', ids, counts, i, weapon);
      }
    }
    TakenInAll(b, b', ids, counts);
  }

  /** What the removals among the first `n` entries, none of which failed, have made of the bags. */
  ghost predicate TakenSoFar(b: Bags, b': Bags, ids: seq<nat>, counts: seq<int>, n: nat)
    requires n <= |ids| == |counts| && |b.stacks| == |b'.stacks| == 4
  {
    && !TakesTooMuch(b, ids, counts, n)
    && (forall id :: KnownId(id) ==> Held(b', id) == AfterRemovals(Held(b, id), ids, counts, id, n))
    && (forall k :: 0 <= k < 4 ==> b'.stacks[k] == AfterTaking(b.stacks[k], k, ids, counts, n))
    && FreeEquips(b'.equips) == FreeEquips(b.equips) + EquipsRemoved(ids, counts, n)
  }

  lemma TakenNoneYet(b: Bags, ids: seq<nat>, counts: seq<int>)
    requires |ids| == |counts| && |b.stacks| == 4
    ensures TakenSoFar(b, b, ids, counts, 0)
  {
    hide EquipCount, FreeEquips, Total;
  }

  lemma TakenInAll(b: Bags, b': Bags, ids: seq<nat>, counts: seq<int>)
    requires |ids| == |counts| && |b.stacks| == |b'.stacks| == 4 && TakenSoFar(b, b', ids, counts, |ids|)
    ensures !TakesTooMuch(b, ids, counts, |ids|)
    ensures forall id :: KnownId(id) ==> Held(b', id) == AfterRemovals(Held(b, id), ids, counts, id, |ids|)
    ensures forall k :: 0 <= k < 4 ==> b'.stacks[k] == AfterTaking(b.stacks[k], k, ids, counts, |ids|)
    ensures FreeEquips(b'.equips) == FreeEquips(b.equips) + EquipsRemoved(ids, counts, |ids|)
  {
    hide Held, FreeEquips, AfterTaking, AfterRemovals, TakesTooMuch;
  }

  lemma TakesTooMuchNow(b: Bags, now: Bags, slotMax: SlotMax, ids: seq<nat>, counts: seq<int>, i: nat)
    requires ValidEntries(slotMax, ids, counts) && i < |ids| && counts[i] < 0
    requires |b.stacks| == |now.stacks| == 4 && TakenSoFar(b, now, ids, counts, i)
    requires IsEquip(ids[i]) && Held(now, ids[i]) + counts[i] < 0
    ensures TakesTooMuch(b, ids, counts, |ids|)
    ensures exists k :: 0 <= k < |ids| && counts[k] < 0 && IsEquip(ids[k])
  {
    hide EquipCount, FreeEquips, AfterTaking;
    HeldUntilNow(b, ids, counts, i);
    ListsGrow([], 0, slotMax, ids, counts, ids[i], i + 1, |ids|);
  }

  lemma TakenStep(b: Bags, now: Bags, next: Bags, slotMax: SlotMax, ids: seq<nat>, counts: seq<int>, i: nat)
    requires ValidEntries(slotMax, ids, counts) && i < |ids| && counts[i] < 0
    requires |b.stacks| == |now.stacks| == |next.stacks| == 4 && TakenSoFar(b, now, ids, counts, i)
    requires HeldBecomes(now, next, ids[i], Max(0, Held(now, ids[i]) + counts[i]))
    requires !(IsEquip(ids[i]) && Held(now, ids[i]) + counts[i] < 0)
    requires forall k :: 0 <= k < 4 ==>
               next.stacks[k] == if InStack(ids[i], k) then Taken(now.stacks[k], ids[i], -counts[i]) else now.stacks[k]
    requires FreeEquips(next.equips) == FreeEquips(now.equips) + if IsEquip(ids[i]) then -counts[i] else 0
    ensures TakenSoFar(b, next, ids, counts, i + 1)
  {
    hide EquipCount, FreeEquips, Taken, Total;
    HeldUntilNow(b, ids, counts, i);
    forall x | IsEquip(x)
      ensures Removed(ids, counts, x, i + 1) <= EquipCount(b.equips, x)
    {
      assert Held(now, x) == AfterRemovals(EquipCount(b.equips, x), ids, counts, x, i);
    }
  }

  lemma TakenSkip(b: Bags, now: Bags, ids: seq<nat>, counts: seq<int>, i: nat)
    requires i < |ids| == |counts| && counts[i] >= 0
    requires |b.stacks| == |now.stacks| == 4 && TakenSoFar(b, now, ids, counts, i)
    ensures TakenSoFar(b, now, ids, counts, i + 1)
  {
    hide EquipCount, FreeEquips, Taken, Held;
    assert forall x :: Removed(ids, counts, x, i + 1) == Removed(ids, counts, x, i);
  }

  /** While no removal of equipment has failed, what is left of it is what was held less what was removed. */
  lemma HeldUntilNow(b: Bags, ids: seq<nat>, counts: seq<int>, n: nat)
    requires n <= |ids| == |counts| && !TakesTooMuch(b, ids, counts, n)
    ensures forall x :: IsEquip(x) ==>
              AfterRemovals(EquipCount(b.equips, x), ids, counts, x, n)
              == EquipCount(b.equips, x) - Removed(ids, counts, x, n) >= 0
  {
    hide EquipCount;
    forall x | IsEquip(x)
      ensures AfterRemovals(EquipCount(b.equips, x), ids, counts, x, n)
              == EquipCount(b.equips, x) - Removed(ids, counts, x, n)
    {
      assert Removed(ids, counts, x, n) <= EquipCount(b.equips, x);
      RemovedWhole(EquipCount(b.equips, x), ids, counts, x, n);
    }
  }

  lemma {:induction false} RemovedWhole(h: int, ids: seq<nat>, counts: seq<int>, id: nat, n: nat)
    requires n <= |ids| == |counts| && Removed(ids, counts, id, n) <= h
    ensures AfterRemovals(h, ids, counts, id, n) == h - Removed(ids, counts, id, n)
  {
    if n > 0 {
      RemovedWhole(h, ids, counts, id, n - 1);
    }
  }

  lemma CacheStart(b: Bags, slotMax: SlotMax, ids: seq<nat>, counts: seq<int>, weapon: nat)
    requires BagsOk(b, slotMax) && |ids| == |counts|
    ensures CacheAfter(b, b, ids, counts, 0, weapon)
  {
    hide Tracks;
    var use, a := b.stacks[0], b.active;
    EmptyIsUseless(weapon);
    if a < |use| && use[a].Stack? {
      TrackNothing(use, slotMax, a);
    }
  }

  lemma CacheSkip(before: Bags, now: Bags, ids: seq<nat>, counts: seq<int>, n: nat, weapon: nat)
    requires n < |ids| == |counts| && counts[n] >= 0 && |before.stacks| == |now.stacks| == 4
    requires CacheAfter(before, now, ids, counts, n, weapon)
    ensures CacheAfter(before, now, ids, counts, n + 1, weapon)
  {
    hide Tracks;
  }

  /** Where the cached slot stands after the additions among the first `n` entries. */
  ghost predicate CachedSoFar(b: Bags, b': Bags, slotMax: SlotMax, ids: seq<nat>, counts: seq<int>, n: nat, weapon: nat)
    requires ValidEntries(slotMax, ids, counts) && n <= |ids| && |b.stacks| == |b'.stacks| == 4
  {
    var use, use' := b.stacks[0], b'.stacks[0];
    && (IsFirst(weapon, use, b.active) ==> IsFirst(weapon, use', b'.active))
    && (Stale(weapon, use, b.active) ==>
          if Repairs(use, slotMax, ids, counts, n, weapon, b.active) then IsFirst(weapon, use', b'.active)
          else Stale(weapon, use', b'.active) && b'.active == b.active)
    && (b.active == NO_PROJECTILE ==>
          (b'.active == NO_PROJECTILE <==> !OpensAmmo(use, slotMax, ids, counts, n, weapon)))
  }

  lemma CachedStep(b: Bags, now: Bags, next: Bags, slotMax: SlotMax, ids: seq<nat>, counts: seq<int>, i: nat,
                   weapon: nat)
    requires ValidEntries(slotMax, ids, counts) && i < |ids| && counts[i] > 0
    requires BagsOk(b, slotMax) && BagsOk(now, slotMax) && |next.stacks| == 4
    requires AddedTo(b.stacks[0], now.stacks[0], 0, slotMax, ids, counts, i)
    requires CachedSoFar(b, now, slotMax, ids, counts, i, weapon)
    requires var o := OpensNow(now, 0, slotMax, ids[i], counts[i]);
             && o <= Empties(now.stacks[0])
             && (if InStack(ids[i], 0) then Opened(now.stacks[0], next.stacks[0], ids[i], o)
                 else next.stacks[0] == now.stacks[0])
             && next.active == if o > 0 then CachedThen(now.stacks[0], weapon, ids[i], now.active) else now.active
    ensures CachedSoFar(b, next, slotMax, ids, counts, i + 1, weapon)
  {
    hide Empties, Opened, UsableAmmo, CachedThen, IsFirst, Stale, EntryOpens, NewStacks, Bounded, Needed;
    var use, o := b.stacks[0], OpensNow(now, 0, slotMax, ids[i], counts[i]);
    EntryAsListed(b, now, slotMax, ids, counts, i);
    RepairsStep(use, slotMax, ids, counts, i, weapon, b.active);
    StaleIsNotFirst(weapon, use, b.active);
    if b.active < |use| {
      var p := b.active + 1;
      assert Empties(now.stacks[0][..p]) == Max(0, Empties(use[..p]) - Needed(use, 0, slotMax, ids, counts, i));
    }
    if InStack(ids[i], 0) {
      OpenedCache(weapon, now.stacks[0], next.stacks[0], ids[i], o, now.active, next.active);
    }
    assert OpensAmmo(use, slotMax, ids, counts, i + 1, weapon)
      <==> OpensAmmo(use, slotMax, ids, counts, i, weapon) || (o > 0 && UsableAmmo(weapon, ids[i]));
  }

  lemma EntryAsListed(b: Bags, now: Bags, slotMax: SlotMax, ids: seq<nat>, counts: seq<int>, i: nat)
    requires ValidEntries(slotMax, ids, counts) && i < |ids| && counts[i] > 0
    requires BagsOk(b, slotMax) && BagsOk(now, slotMax)
    requires AddedTo(b.stacks[0], now.stacks[0], 0, slotMax, ids, counts, i)
    ensures OpensNow(now, 0, slotMax, ids[i], counts[i]) == EntryOpens(b.stacks[0], 0, slotMax, ids, counts, i)
  {
    hide AddedTo, NewStacks, Bounded;
    if InStack(ids[i], 0) {
      OpensAsListed(b.stacks[0], now.stacks[0], 0, slotMax, ids, counts, i);
    }
  }

  lemma RepairsStep(use: seq<Slot>, slotMax: SlotMax, ids: seq<nat>, counts: seq<int>, i: nat, weapon: nat, a: nat)
    requires ValidEntries(slotMax, ids, counts) && i < |ids|
    ensures Repairs(use, slotMax, ids, counts, i + 1, weapon, a)
            <==> Repairs(use, slotMax, ids, counts, i, weapon, a)
                 || (a < |use| && RepairsAt(use, slotMax, ids, counts, i, weapon, a))
  {
    hide RepairsAt;
  }

  /** The second loop: all additions. */
  method AddAll(b: Bags, slotMax: SlotMax, ids: seq<nat>, counts: seq<int>, weapon: nat)
    returns (b': Bags, failed: bool, mods: nat)
    requires BagsOk(b, slotMax) && ValidEntries(slotMax, ids, counts)
    ensures BagsOk(b', slotMax)
    ensures failed <==> Overflows(b, slotMax, ids, counts, |ids|)
    ensures !failed ==> forall id :: KnownId(id) ==> Held(b', id) == Held(b, id) + Gains(ids, counts, id, |ids|)
    ensures !failed ==> (mods == 0 <==> forall i :: 0 <= i < |ids| ==> counts[i] <= 0)
    ensures mods == 0 && !failed ==> b' == b
    ensures !failed ==> CachedSoFar(b, b', slotMax, ids, counts, |ids|, weapon)
    ensures failed ==> exists i :: 0 <= i < |ids| && counts[i] > 0
    ensures |ids| == 1 ==> (failed <==> counts[0] > 0 && Room(b, slotMax, ids[0]) < counts[0])
  {
    hide Held, IsFirst, Stale, Room, Bounded, CachedSoFar, AddedTo, Opened, NewStacks, Empties, FreeEquips, CachedThen;
    b', failed, mods := b, false, 0;
    AddedNothing(b, slotMax, ids, counts);
    CachedStart(b, slotMax, ids, counts, weapon);
    for i := 0 to |ids|
      invariant BagsOk(b', slotMax) && !failed && Added(b, b', slotMax, ids, counts, i)
      invariant forall id :: KnownId(id) ==> Held(b', id) == Held(b, id) + Gains(ids, counts, id, i)
      invariant mods == 0 <==> forall k :: 0 <= k < i ==> counts[k] <= 0
      invariant mods == 0 ==> b' == b
      invariant CachedSoFar(b, b', slotMax, ids, counts, i, weapon)
      invariant i == 1 && |ids| == 1 ==> counts[0] <= 0 || Room(b, slotMax, ids[0]) >= counts[0]
    {
      if counts[i] > 0 {
        ghost var now := b';
        var m;
        b', failed, m := AddEntry(b', slotMax, ids[i], counts[i], weapon);
        mods := mods + m;
        if failed {
          OverflowsNow(b, now, slotMax, ids, counts, i);
          return;
        }
        AddedMore(b, now, b', slotMax, ids, counts, i);
        CachedStep(b, now, b', slotMax, ids, counts, i, weapon);
      } else {
        AddedSkip(b, b', slotMax, ids, counts, i, weapon);
      }
    }
    AddedFits(b, b', slotMax, ids, counts, |ids|);
  }

  lemma CachedStart(b: Bags, slotMax: SlotMax, ids: seq<nat>, counts: seq<int>, weapon: nat)
    requires BagsOk(b, slotMax) && ValidEntries(slotMax, ids, counts)
    ensures CachedSoFar(b, b, slotMax, ids, counts, 0, weapon)
  {
    hide IsFirst, Stale;
  }

  lemma OverflowsNow(b: Bags, now: Bags, slotMax: SlotMax, ids: seq<nat>, counts: seq<int>, i: nat)
    requires ValidEntries(slotMax, ids, counts) && i < |ids| && counts[i] > 0
    requires BagsOk(b, slotMax) && BagsOk(now, slotMax) && Added(b, now, slotMax, ids, counts, i)
    requires if IsEquip(ids[i]) then FreeEquips(now.equips) < counts[i]
             else var k := StackIndex(ids[i]); Empties(now.stacks[k]) < OpensNow(now, k, slotMax, ids[i], counts[i])
    ensures Overflows(b, slotMax, ids, counts, |ids|)
  {
    hide Bounded, NewStacks, Empties, FreeEquips, EntryOpens;
    if IsEquip(ids[i]) {
      ListsGrow([], 0, slotMax, ids, counts, 0, i + 1, |ids|);
    } else {
      var k := StackIndex(ids[i]);
      var inv, inv' := b.stacks[k], now.stacks[k];
      OpensAsListed(inv, inv', k, slotMax, ids, counts, i);
      ListsGrow(inv, k, slotMax, ids, counts, 0, i + 1, |ids|);
      assert inv[..|inv|] == inv && inv'[..|inv'|] == inv';
    }
  }

  lemma AddedFits(b: Bags, b': Bags, slotMax: SlotMax, ids: seq<nat>, counts: seq<int>, n: nat)
    requires ValidEntries(slotMax, ids, counts) && n <= |ids| && Added(b, b', slotMax, ids, counts, n)
    ensures !Overflows(b, slotMax, ids, counts, n)
  {
    hide Empties, FreeEquips, Needed, NewStacks;
  }

  lemma AddedMore(b: Bags, now: Bags, next: Bags, slotMax: SlotMax, ids: seq<nat>, counts: seq<int>, i: nat)
    requires ValidEntries(slotMax, ids, counts) && i < |ids| && counts[i] > 0
    requires BagsOk(b, slotMax) && BagsOk(now, slotMax) && |next.stacks| == 4 && Added(b, now, slotMax, ids, counts, i)
    requires HeldBecomes(now, next, ids[i], Held(now, ids[i]) + counts[i])
    requires FreeEquips(next.equips) == FreeEquips(now.equips) - if IsEquip(ids[i]) then counts[i] else 0
    requires forall k :: 0 <= k < 4 ==>
               var o := OpensNow(now, k, slotMax, ids[i], counts[i]);
               && o <= Empties(now.stacks[k])
               && if InStack(ids[i], k) then Opened(now.stacks[k], next.stacks[k], ids[i], o)
                  else next.stacks[k] == now.stacks[k]
    ensures Added(b, next, slotMax, ids, counts, i + 1)
  {
    hide Empties, FreeEquips, AddedTo, Opened, NewStacks, Bounded, Total, EquipCount;
    forall k | 0 <= k < 4
      ensures AddedTo(b.stacks[k], next.stacks[k], k, slotMax, ids, counts, i + 1)
    {
      forall x | InStack(x, k)
        ensures Total(next.stacks[k], x) == Total(now.stacks[k], x) + if x == ids[i] then counts[i] else 0
      {
        assert Held(next, x) == if x == ids[i] then Held(now, x) + counts[i] else Held(now, x);
      }
      AddedStep(b.stacks[k], now.stacks[k], next.stacks[k], k, slotMax, ids, counts, i);
    }
  }

  /** An entry that adds nothing changes nothing. */
  lemma AddedSkip(b: Bags, now: Bags, slotMax: SlotMax, ids: seq<nat>, counts: seq<int>, i: nat, weapon: nat)
    requires ValidEntries(slotMax, ids, counts) && i < |ids| && counts[i] <= 0
    requires Added(b, now, slotMax, ids, counts, i)
    ensures Added(b, now, slotMax, ids, counts, i + 1)
    ensures CachedSoFar(b, now, slotMax, ids, counts, i, weapon) ==>
              CachedSoFar(b, now, slotMax, ids, counts, i + 1, weapon)
  {
    hide Empties, FreeEquips, NewStacks, IsFirst, Stale, UsableAmmo, Stacks, Total;
    RepairsStep(b.stacks[0], slotMax, ids, counts, i, weapon, b.active);
    assert OpensAmmo(b.stacks[0], slotMax, ids, counts, i + 1, weapon)
      <==> OpensAmmo(b.stacks[0], slotMax, ids, counts, i, weapon);
    forall k | 0 <= k < 4
      ensures AddedTo(b.stacks[k], now.stacks[k], k, slotMax, ids, counts, i + 1)
    {
      assert AddedTo(b.stacks[k], now.stacks[k], k, slotMax, ids, counts, i);
    }
  }

  class Carrier {
    const slotMax: SlotMax
    const weapon: nat
    var bags: Bags

    constructor (slotMax: SlotMax, weapon: nat, bags: Bags)
      ensures this.slotMax == slotMax && this.weapon == weapon && this.bags == bags
    {
      this.slotMax, this.weapon, this.bags := slotMax, weapon, bags;
    }

    /** Too much equipment is removed, or the additions together need more slots than the removals leave. */
    ghost predicate Refused(b: Bags, ids: seq<nat>, counts: seq<int>)
      requires BagsOk(b, slotMax) && ValidEntries(slotMax, ids, counts)
    {
      || TakesTooMuch(b, ids, counts, |ids|)
      || EquipsGained(ids, counts, |ids|) > FreeEquips(b.equips) + EquipsRemoved(ids, counts, |ids|)
      || exists k :: 0 <= k < 4 && Crowded(b.stacks[k], k, ids, counts)
    }

    /** The additions need more empty slots of the inventory than the removals leave. */
    ghost predicate Crowded(inv: seq<Slot>, k: nat, ids: seq<nat>, counts: seq<int>)
      requires ValidEntries(slotMax, ids, counts)
    {
      var after := AfterTaking(inv, k, ids, counts, |ids|);
      Needed(after, k, slotMax, ids, counts, |ids|) > Empties(after)
    }

    method GainItems(ids: seq<nat>, counts: seq<int>) returns (outcome: Outcome)
      requires BagsOk(bags, slotMax) && ValidEntries(slotMax, ids, counts)
      modifies this
      ensures BagsOk(bags, slotMax)
      ensures !outcome.Done? ==> bags == old(bags)
      // when it fails: too much equipment removed, or too few free slots for all additions together
      ensures outcome.Failed? <==> Refused(old(bags), ids, counts)
      // the assertion fails exactly if no entry changes anything
      ensures outcome.Aborted? <==> forall i :: 0 <= i < |ids| ==> Idle(old(bags), ids[i], counts[i])
      // totals
      ensures outcome.Done? ==> forall id :: KnownId(id) ==>
                Held(bags, id)
                == AfterRemovals(old(Held(bags, id)), ids, counts, id, |ids|) + Gains(ids, counts, id, |ids|)
      ensures outcome.Done? ==> forall id :: KnownId(id) && Enough(old(Held(bags, id)), ids, counts, id) ==>
                Held(bags, id) == old(Held(bags, id)) + Requested(ids, counts, id, |ids|)
      // single entries
      ensures |ids| == 1 && counts[0] > 0 ==> (outcome.Failed? <==> Room(old(bags), slotMax, ids[0]) < counts[0])
      ensures |ids| == 1 && counts[0] < 0 ==>
                (outcome.Failed? <==> IsEquip(ids[0]) && old(Held(bags, ids[0])) + counts[0] < 0)
      // the cached slot, with a weapon equipped: right again unless its stack is used up and not replaced
      ensures outcome.Done? && IsFirst(weapon, old(bags).stacks[0], old(bags).active) ==>
                var use := AfterTaking(old(bags).stacks[0], 0, ids, counts, |ids|);
                IsFirst(weapon, bags.stacks[0], bags.active)
                <==> !Exhausts(old(bags), ids, counts, |ids|)
                     || Repairs(use, slotMax, ids, counts, |ids|, weapon, old(bags).active)
      // and without: nothing is cached unless a stack of ammunition is opened
      ensures outcome.Done? && old(bags).active == NO_PROJECTILE ==>
                var use := AfterTaking(old(bags).stacks[0], 0, ids, counts, |ids|);
                bags.active == NO_PROJECTILE <==> !OpensAmmo(use, slotMax, ids, counts, |ids|, weapon)
    {
      hide Held, Holds, IsFirst, Stale, Room, Bounded, OpensAmmo, Repairs, CacheAfter, Exhausts, Needed, Empties;
      hide FreeEquips, AfterTaking, TakesTooMuch;
      var b, failed, mods := RemoveAll(bags, slotMax, ids, counts, weapon);
      if failed {
        TakesOne(bags, ids, counts);
        return Failed;
      }
      TakesOne(bags, ids, counts);
      CacheRemains(bags, b, ids, counts, weapon);
      var removals := mods;
      var more: nat;
      b, failed, more := AddAll(b, slotMax, ids, counts, weapon);
      if failed {
        return Failed;
      }
      if removals + more == 0 {
        return Aborted;
      }
      StaleIsNotFirst(weapon, b.stacks[0], b.active);
      bags := b;
      forall id | KnownId(id) && Enough(old(Held(bags, id)), ids, counts, id)
        ensures Held(bags, id) == old(Held(bags, id)) + Requested(ids, counts, id, |ids|)
      {
        EnoughMeansExact(old(Held(bags, id)), ids, counts, id, |ids|);
      }
      return Done;
    }
  }

  /** For a single entry. */
  lemma TakesOne(b: Bags, ids: seq<nat>, counts: seq<int>)
    requires |ids| == |counts| && |b.stacks| == 4
    ensures |ids| == 1 && KnownId(ids[0]) ==>
              (TakesTooMuch(b, ids, counts, |ids|)
               <==> counts[0] < 0 && IsEquip(ids[0]) && Held(b, ids[0]) + counts[0] < 0)
  {
    hide EquipCount;
    if |ids| == 1 {
      forall x
        ensures Removed(ids, counts, x, 1) == if ids[0] == x && counts[0] < 0 then -counts[0] else 0
      {
        assert Removed(ids, counts, x, 0) == 0;
      }
    }
  }

  lemma CacheRemains(before: Bags, now: Bags, ids: seq<nat>, counts: seq<int>, weapon: nat)
    requires |ids| == |counts| && |before.stacks| == |now.stacks| == 4
    requires CacheAfter(before, now, ids, counts, |ids|, weapon)
    ensures now.active == before.active
    ensures IsFirst(weapon, before.stacks[0], before.active) ==>
              if Exhausts(before, ids, counts, |ids|) then Stale(weapon, now.stacks[0], now.active)
              else IsFirst(weapon, now.stacks[0], now.active)
  {
    hide Stale, Total;
    EmptyIsUseless(weapon);
  }
}
