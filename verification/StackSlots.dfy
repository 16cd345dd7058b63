/** One stackable inventory: taking items away, topping up stacks, and opening new ones. */
module StackSlots {
  import opened Common
  import opened Inventory

  /** Quantities change for `id` only, by exactly `delta`. */
  ghost predicate Changed(before: seq<Slot>, after: seq<Slot>, id: nat, delta: int) {
    && |after| == |before|
    && forall i :: Total(after, i) == Total(before, i) + if i == id then delta else 0
  }

  lemma ChangeSlot(before: seq<Slot>, now: seq<Slot>, j: nat, s: Slot, id: nat, delta: int)
    requires Changed(before, now, id, delta) && j < |now|
    requires (s.Stack? ==> s.id == id) && (now[j].Stack? ==> now[j].id == id)
    ensures Changed(before, now[j := s], id, delta + Quantity(s, id) - Quantity(now[j], id))
  {
    hide Total;
    forall i
      ensures Total(now[j := s], i) == Total(now, i) - Quantity(now[j], i) + Quantity(s, i)
    {
      TotalUpdate(now, j, s, i);
    }
  }

  ghost predicate Holds(inv: seq<Slot>, id: nat) {
    exists j :: 0 <= j < |inv| && inv[j].Stack? && inv[j].id == id
  }

  /** The stack in slot `j` is used up when `n` items are taken from the first slots on. */
  ghost predicate UsedUp(inv: seq<Slot>, j: nat, n: int)
    requires j < |inv| && inv[j].Stack?
  {
    Total(inv[..j], inv[j].id) < n && Total(inv[..j + 1], inv[j].id) <= n
  }

  /** Every slot after taking `n` items of one kind from the first slots on. */
  ghost function Taken(inv: seq<Slot>, id: nat, n: int): (r: seq<Slot>)
    ensures |r| == |inv|
  {
    seq(|inv|, j requires 0 <= j < |inv| =>
      if inv[j].Empty? || inv[j].id != id || n <= Total(inv[..j], id) then inv[j]
      else if UsedUp(inv, j, n) then Empty
      else Stack(id, Total(inv[..j + 1], id) - n))
  }

  /** Takes `-amount` items away, slot by slot; what is not found is left in `rest`. */
  method TakeStacks(inv: seq<Slot>, slotMax: SlotMax, id: nat, amount: int)
    returns (out: seq<Slot>, rest: int, mods: nat)
    requires Bounded(inv, slotMax) && amount < 0
    ensures Bounded(out, slotMax) && Changed(inv, out, id, amount - rest)
    ensures rest == (if Total(inv, id) + amount < 0 then Total(inv, id) + amount else 0)
    ensures out == Taken(inv, id, -amount)
    ensures mods == 0 <==> !Holds(inv, id)
  {
    hide Total, Holds, Taken, Changed;
    out, rest, mods := inv, amount, 0;
    TotalNothing(id);
    ChangedNothing(inv, id);
    HoldsNothing(id);
    for j := 0 to |inv|
      invariant Bounded(out, slotMax) && Changed(inv, out, id, amount - rest)
      invariant |out| == |inv| && rest < 0 && rest == amount + Total(inv[..j], id)
      invariant forall k :: 0 <= k < |inv| ==> out[k] == if k < j then Taken(inv, id, -amount)[k] else inv[k]
      invariant mods == 0 <==> !Holds(inv[..j], id)
    {
      TotalPrefix(inv, j, id);
      HoldsMore(inv, j, id);
      TakenSlot(inv, id, -amount, j);
      if out[j].Stack? && out[j].id == id {
        var qty := out[j].qty;
        if qty + rest > 0 {
          ChangeSlot(inv, out, j, Stack(id, qty + rest), id, amount - rest);
          out, rest := out[j := Stack(id, qty + rest)], 0;
        } else {
          ChangeSlot(inv, out, j, Empty, id, amount - rest);
          out, rest := out[j := Empty], rest + qty;
        }
        mods := mods + 1;
      }
      if rest == 0 {
        TakenEnough(inv, slotMax, id, -amount, j + 1);
        HoldsAll(inv, j + 1, id);
        break;
      }
    }
    assert inv[..|inv|] == inv;
  }

  lemma ChangedNothing(inv: seq<Slot>, id: nat)
    ensures Changed(inv, inv, id, 0)
  {
  }

  lemma HoldsNothing(id: nat)
    ensures !Holds([], id)
  {
  }

  lemma HoldsMore(inv: seq<Slot>, j: nat, id: nat)
    requires j < |inv|
    ensures Holds(inv[..j + 1], id) <==> Holds(inv[..j], id) || (inv[j].Stack? && inv[j].id == id)
  {
    var a, b := inv[..j], inv[..j + 1];
    assert b[j] == inv[j] && b[..j] == a;
    if k :| 0 <= k < |b| && b[k].Stack? && b[k].id == id {
      assert k < j ==> a[k] == b[k];
    }
    if k :| 0 <= k < |a| && a[k].Stack? && a[k].id == id {
      assert b[k] == a[k];
    }
  }

  lemma TakenSlot(inv: seq<Slot>, id: nat, n: int, j: nat)
    requires j < |inv| && Total(inv[..j], id) < n
    ensures Taken(inv, id, n)[j] == if inv[j].Empty? || inv[j].id != id then inv[j]
                                    else if inv[j].qty <= n - Total(inv[..j], id) then Empty
                                    else Stack(id, inv[j].qty - (n - Total(inv[..j], id)))
  {
    TotalPrefix(inv, j, id);
  }

  lemma HoldsAll(inv: seq<Slot>, j: nat, id: nat)
    requires j <= |inv| && Holds(inv[..j], id)
    ensures Holds(inv, id)
  {
    var k :| 0 <= k < j && inv[..j][k].Stack? && inv[..j][k].id == id;
    assert inv[k] == inv[..j][k];
  }

  /** Once the amount is reached, nothing more is taken. */
  lemma TakenEnough(inv: seq<Slot>, slotMax: SlotMax, id: nat, n: int, j: nat)
    requires Bounded(inv, slotMax) && j <= |inv| && Total(inv[..j], id) >= n
    ensures Total(inv, id) >= n
    ensures forall k :: j <= k < |inv| ==> Taken(inv, id, n)[k] == inv[k]
  {
    TotalPrefixLe(inv, slotMax, j, id);
    forall k | j <= k < |inv|
      ensures Taken(inv, id, n)[k] == inv[k]
    {
      TotalPrefixLe(inv[..k], slotMax, j, id);
      assert inv[..k][..j] == inv[..j];
    }
  }

  lemma TotalNothing(id: nat)
    ensures Total([], id) == 0
  {
  }

  lemma TotalPrefix(inv: seq<Slot>, j: nat, id: nat)
    requires j < |inv|
    ensures Total(inv[..j + 1], id) == Total(inv[..j], id) + Quantity(inv[j], id)
  {
    assert inv[..j + 1][..j] == inv[..j];
  }

  lemma {:induction false} TotalPrefixLe(inv: seq<Slot>, slotMax: SlotMax, j: nat, id: nat)
    requires Bounded(inv, slotMax) && j <= |inv|
    ensures Total(inv[..j], id) <= Total(inv, id)
    decreases |inv| - j
  {
    if j < |inv| {
      TotalPrefix(inv, j, id);
      TotalPrefixLe(inv, slotMax, j + 1, id);
    } else {
      assert inv[..j] == inv;
    }
  }

  // ---------- the cached slot when items are taken ----------

  /** What prefixes hold after taking `n` items of one kind from the first slots on. */
  lemma {:induction false} TakenPrefix(inv: seq<Slot>, slotMax: SlotMax, id: nat, n: int, j: nat, x: nat)
    requires Bounded(inv, slotMax) && n >= 0 && j <= |inv|
    ensures Total(inv[..j], x) >= 0
    ensures Total(Taken(inv, id, n)[..j], x) == if x == id then Max(0, Total(inv[..j], x) - n) else Total(inv[..j], x)
    decreases j
  {
    hide Total, Taken;
    if j == 0 {
      TotalNothing(x);
      assert inv[..0] == [] && Taken(inv, id, n)[..0] == [];
    } else {
      TakenPrefix(inv, slotMax, id, n, j - 1, x);
      TotalPrefix(inv, j - 1, x);
      TotalPrefix(Taken(inv, id, n), j - 1, x);
      TotalPrefix(inv, j - 1, id);
      TakenAt(inv, id, n, j - 1);
      if x != id {
        TakenPrefix(inv, slotMax, id, n, j - 1, id);
      }
    }
  }

  lemma TakenAt(inv: seq<Slot>, id: nat, n: int, j: nat)
    requires j < |inv|
    ensures var t := Total(inv[..j], id);
            Taken(inv, id, n)[j] == if inv[j].Empty? || inv[j].id != id || n <= t then inv[j]
                                    else if inv[j].qty <= n - t then Empty
                                    else Stack(id, inv[j].qty - (n - t))
  {
    TotalPrefix(inv, j, id);
  }

  /** The cached slot names a slot of no use, and no slot before it is of use either. */
  ghost predicate Stale(weapon: nat, inv: seq<Slot>, active: Byte) {
    active < |inv| && forall j :: 0 <= j <= active ==> !Usable(weapon, inv[j])
  }

  lemma StaleIsNotFirst(weapon: nat, inv: seq<Slot>, active: Byte)
    ensures Stale(weapon, inv, active) ==> active < |inv| && !IsFirst(weapon, inv, active)
  {
  }

  /** Taking items leaves the cached slot right exactly if it leaves its stack there. */
  lemma TakenCache(weapon: nat, inv: seq<Slot>, slotMax: SlotMax, id: nat, n: int, active: Byte)
    requires Bounded(inv, slotMax) && n >= 0 && |inv| <= MAX_ITEM_COUNT
    ensures IsFirst(weapon, inv, active) ==>
              if active >= |inv| || Taken(inv, id, n)[active].Stack? then IsFirst(weapon, Taken(inv, id, n), active)
              else Stale(weapon, Taken(inv, id, n), active)
    ensures Stale(weapon, inv, active) ==> Stale(weapon, Taken(inv, id, n), active)
  {
    hide Taken, Total, Usable;
    EmptyIsUseless(weapon);
    forall j | 0 <= j < |inv|
      ensures Usable(weapon, Taken(inv, id, n)[j]) <==> Usable(weapon, inv[j]) && Taken(inv, id, n)[j].Stack?
    {
      TakenUse(weapon, inv, slotMax, id, n, j);
    }
  }

  lemma TakenUse(weapon: nat, inv: seq<Slot>, slotMax: SlotMax, id: nat, n: int, j: nat)
    requires Bounded(inv, slotMax) && n >= 0 && j < |inv|
    ensures Usable(weapon, Taken(inv, id, n)[j]) <==> Usable(weapon, inv[j]) && Taken(inv, id, n)[j].Stack?
  {
    hide Taken, Total;
    TakenAt(inv, id, n, j);
    TakenPrefix(inv, slotMax, id, n, j, id);
  }

  // ---------- counting slots ----------

  function Empties(inv: seq<Slot>): nat {
    if inv == [] then 0 else Empties(inv[..|inv| - 1]) + if inv[|inv| - 1].Empty? then 1 else 0
  }

  /** How many stacks there are of an item. */
  function Stacks(inv: seq<Slot>, id: nat): nat {
    if inv == [] then 0
    else
      var s := inv[|inv| - 1];
      Stacks(inv[..|inv| - 1], id) + if s.Stack? && s.id == id then 1 else 0
  }

  /** What the existing stacks of an item can still take. */
  function StackRoom(inv: seq<Slot>, id: nat, max: int): int {
    if inv == [] then 0
    else
      var s := inv[|inv| - 1];
      StackRoom(inv[..|inv| - 1], id, max) + if s.Stack? && s.id == id then max - s.qty else 0
  }

  lemma NothingToCount(id: nat, max: int)
    ensures Empties([]) == 0 && Stacks([], id) == 0 && StackRoom([], id, max) == 0
  {
  }

  lemma SlotStep(inv: seq<Slot>, j: nat, id: nat, max: int)
    requires j < |inv|
    ensures Empties(inv[..j + 1]) == Empties(inv[..j]) + if inv[j].Empty? then 1 else 0
    ensures Stacks(inv[..j + 1], id) == Stacks(inv[..j], id) + if inv[j].Stack? && inv[j].id == id then 1 else 0
    ensures StackRoom(inv[..j + 1], id, max)
            == StackRoom(inv[..j], id, max) + if inv[j].Stack? && inv[j].id == id then max - inv[j].qty else 0
  {
    assert inv[..j + 1][..j] == inv[..j];
  }

  lemma {:induction false} EmptiesGrow(inv: seq<Slot>, j: nat, k: nat)
    requires j <= k <= |inv|
    ensures Empties(inv[..j]) <= Empties(inv[..k])
    decreases k - j
  {
    if j < k {
      SlotStep(inv, k - 1, 0, 0);
      EmptiesGrow(inv, j, k - 1);
    }
  }

  lemma {:induction false} RoomPrefix(inv: seq<Slot>, slotMax: SlotMax, j: nat, id: nat)
    requires Bounded(inv, slotMax) && j <= |inv|
    ensures 0 <= StackRoom(inv[..j], id, slotMax(id)) <= StackRoom(inv, id, slotMax(id))
    decreases |inv| - j
  {
    RoomBounds(inv, slotMax, j, id);
    if j < |inv| {
      SlotStep(inv, j, id, slotMax(id));
      RoomPrefix(inv, slotMax, j + 1, id);
    } else {
      assert inv[..j] == inv;
    }
  }

  /** The room is what the stacks could hold less what they do. */
  lemma {:induction false} RoomBounds(inv: seq<Slot>, slotMax: SlotMax, j: nat, id: nat)
    requires Bounded(inv, slotMax) && j <= |inv|
    ensures 0 <= StackRoom(inv[..j], id, slotMax(id))
    ensures StackRoom(inv[..j], id, slotMax(id)) == Stacks(inv[..j], id) * slotMax(id) - Total(inv[..j], id)
    decreases j
  {
    hide Total;
    if j == 0 {
      assert inv[..0] == [];
      TotalNothing(id);
    } else {
      RoomBounds(inv, slotMax, j - 1, id);
      SlotStep(inv, j - 1, id, slotMax(id));
      TotalPrefix(inv, j - 1, id);
      assert (Stacks(inv[..j - 1], id) + 1) * slotMax(id) == Stacks(inv[..j - 1], id) * slotMax(id) + slotMax(id);
    }
  }

  // ---------- how many stacks an amount fills ----------

  function Ceil(a: int, max: int): (r: nat)
    requires max >= 1
  {
    if a <= 0 then 0 else CeilNat(a, max)
  }

  function CeilNat(a: int, max: int): (r: nat)
    requires a > 0 && max >= 1
    ensures r >= 1
  {
    DivNat(a - 1, max);
    (a - 1) / max + 1
  }

  lemma DivNat(a: nat, max: nat)
    requires max >= 1
    ensures a / max >= 0 && a / max * max <= a < a / max * max + max
  {
  }

  /** `k` stacks suffice exactly if they can hold the amount. */
  lemma CeilExactly(a: int, max: int, k: nat)
    requires max >= 1
    ensures Ceil(a, max) <= k <==> a <= k * max
  {
    if a > 0 {
      var q := (a - 1) / max;
      DivNat(a - 1, max);
      if q + 1 <= k {
        MulMonotone(q + 1, k, max);
        assert (q + 1) * max == q * max + max;
      } else {
        MulMonotone(k, q, max);
      }
    } else {
      MulMonotone(0, k, max);
    }
  }

  lemma MulMonotone(a: int, b: int, m: int)
    requires a <= b && m >= 0
    ensures a * m <= b * m
  {
  }

  lemma CeilShift(d: int, max: int, o: nat)
    requires max >= 1
    ensures Ceil(d - o * max, max) == Max(0, Ceil(d, max) - o)
  {
    hide Ceil;
    var k: nat := Max(0, Ceil(d, max) - o);
    CeilShiftAt(d, max, o, k);
    if k > 0 {
      CeilShiftAt(d, max, o, k - 1);
    }
  }

  lemma CeilShiftAt(d: int, max: int, o: nat, k: nat)
    requires max >= 1
    ensures Ceil(d - o * max, max) <= k <==> Ceil(d, max) <= k + o
  {
    hide Ceil;
    CeilExactly(d - o * max, max, k);
    CeilExactly(d, max, k + o);
    assert (k + o) * max == k * max + o * max;
  }

  // ---------- adding items ----------

  /** `o` stacks of `id` were opened in the first empty slots, as far as there are any; the stacks that
      were there are still there, and only stacks of `id` that is not rechargeable may have grown. */
  ghost predicate Opened(before: seq<Slot>, after: seq<Slot>, id: nat, o: nat) {
    && |after| == |before|
    && forall j :: 0 <= j < |before| ==>
         if before[j].Stack? then
           after[j] == before[j]
           || (after[j].Stack? && after[j].id == before[j].id == id && !IsRechargeable(id))
         else if Empties(before[..j]) < o then after[j].Stack? && after[j].id == id && after[j].qty > 0
         else after[j].Empty?
  }

  /** How slots and stacks are counted afterwards. */
  lemma {:induction false} OpenedCounts(before: seq<Slot>, after: seq<Slot>, id: nat, o: nat, p: nat, x: nat)
    requires Opened(before, after, id, o) && p <= |before|
    ensures Empties(after[..p]) == Max(0, Empties(before[..p]) - o)
    ensures Stacks(after[..p], x) == Stacks(before[..p], x) + if x == id then Min(o, Empties(before[..p])) else 0
    decreases p
  {
    if p > 0 {
      OpenedCounts(before, after, id, o, p - 1, x);
      SlotStep(before, p - 1, x, 0);
      SlotStep(after, p - 1, x, 0);
    }
  }

  /** Tops up existing stacks. */
  method FillStacks(inv: seq<Slot>, slotMax: SlotMax, id: nat, amount: int)
    returns (out: seq<Slot>, rest: int, mods: nat)
    requires Bounded(inv, slotMax) && amount > 0 && !IsRechargeable(id)
    ensures Bounded(out, slotMax) && Changed(inv, out, id, amount - rest)
    ensures rest == Max(0, amount - StackRoom(inv, id, slotMax(id)))
    ensures Opened(inv, out, id, 0)
    ensures mods == 0 ==> out == inv
  {
    hide Total, StackRoom, Empties;
    NothingToCount(id, slotMax(id));
    out, rest, mods := inv, amount, 0;
    for j := 0 to |inv|
      invariant Bounded(out, slotMax) && Changed(inv, out, id, amount - rest)
      invariant rest > 0 && rest == amount - StackRoom(inv[..j], id, slotMax(id)) && out[j..] == inv[j..]
      invariant Opened(inv, out, id, 0)
      invariant mods == 0 ==> out == inv
    {
      SlotStep(inv, j, id, slotMax(id));
      if out[j].Stack? && out[j].id == id {
        var qty := out[j].qty;
        if qty > slotMax(id) - rest {
          ChangeSlot(inv, out, j, Stack(id, slotMax(id)), id, amount - rest);
          rest := rest - (slotMax(id) - qty);
          out := out[j := Stack(id, slotMax(id))];
        } else {
          ChangeSlot(inv, out, j, Stack(id, qty + rest), id, amount - rest);
          out, rest := out[j := Stack(id, qty + rest)], 0;
        }
        mods := mods + 1;
      }
      if rest == 0 {
        RoomPrefix(inv, slotMax, j + 1, id);
        break;
      }
    }
    assert inv[..|inv|] == inv;
  }

  /** The kind of item alone decides here; a new stack is never empty. */
  predicate UsableAmmo(weapon: nat, id: nat) {
    match weapon / 10000
    case 145 => id / 1000 == 2060
    case 146 => id / 1000 == 2061
    case 147 => IsThrowingStar(id)
    case 149 => IsBullet(id)
    case _ => false
  }

  lemma AmmoIsUsable(weapon: nat, id: nat, qty: int)
    requires qty > 0
    ensures UsableAmmo(weapon, id) <==> Usable(weapon, Stack(id, qty))
  {
  }

  function FirstEmpty(inv: seq<Slot>, k: nat): (r: nat)
    requires k <= |inv|
    ensures k <= r <= |inv| && (r < |inv| ==> inv[r].Empty?) && forall j :: k <= j < r ==> inv[j].Stack?
    decreases |inv| - k
  {
    if k == |inv| || inv[k].Empty? then k else FirstEmpty(inv, k + 1)
  }

  /** The slot cached after stacks were opened from the first empty slot on. */
  function CachedThen(inv: seq<Slot>, weapon: nat, id: nat, active: Byte): Byte
    requires |inv| <= MAX_ITEM_COUNT
  {
    var f := FirstEmpty(inv, 0);
    if f < |inv| && f < active && UsableAmmo(weapon, id) then f else active
  }

  /** Opens new stacks in empty slots, remembering the first usable one. */
  method FillEmpty(inv: seq<Slot>, slotMax: SlotMax, id: nat, amount: int, isUse: bool, weapon: nat, active: Byte)
    returns (out: seq<Slot>, rest: int, mods: nat, active': Byte)
    requires Bounded(inv, slotMax) && amount > 0 && slotMax(id) >= 1 && |inv| <= MAX_ITEM_COUNT
    ensures Bounded(out, slotMax) && Changed(inv, out, id, amount - rest)
    ensures rest == Max(0, amount - Empties(inv) * slotMax(id))
    ensures Opened(inv, out, id, Ceil(amount, slotMax(id)))
    ensures mods == 0 ==> out == inv
    ensures active' == if isUse then CachedThen(inv, weapon, id, active) else active
  {
    hide Total, Empties, UsableAmmo, FirstEmpty, Ceil, Changed, Opened, Bounded;
    var max := slotMax(id);
    out, rest, mods, active' := inv, amount, 0, active;
    NothingToCount(id, max);
    ChangedNothing(inv, id);
    for j := 0 to |inv|
      invariant |out| == |inv| && Bounded(out, slotMax) && Changed(inv, out, id, amount - rest)
      invariant rest > 0 && mods == Empties(inv[..j]) && rest == amount - mods * max
      invariant forall k :: 0 <= k < |inv| ==>
        out[k] == inv[k] || (k < j && inv[k].Empty? && out[k].Stack? && out[k].id == id && out[k].qty > 0)
      invariant forall k :: 0 <= k < j ==> out[k].Stack?
      invariant mods == 0 ==> out == inv
      invariant active' == if isUse && FirstEmpty(inv, 0) < j then CachedThen(inv, weapon, id, active) else active
    {
      SlotStep(inv, j, id, max);
      FirstEmptyAt(inv, j);
      if out[j].Empty? {
        var qty := if rest > max then max else rest;
        ChangeSlot(inv, out, j, Stack(id, qty), id, amount - rest);
        StaysBounded(out, slotMax, j, Stack(id, qty));
        out, rest, mods := out[j := Stack(id, qty)], rest - qty, mods + 1;
        assert mods * max == (mods - 1) * max + max;
        if isUse && j < active' && UsableAmmo(weapon, id) {
          active' := j;
        }
      }
      if rest == 0 {
        FilledUpTo(inv, out, id, amount, max, j + 1, mods);
        return;
      }
    }
    assert inv[..|inv|] == inv;
    FilledAll(inv, out, id, amount, max);
  }

  lemma StaysBounded(inv: seq<Slot>, slotMax: SlotMax, j: nat, s: Slot)
    requires Bounded(inv, slotMax) && j < |inv| && (s.Stack? ==> 0 <= s.qty <= slotMax(s.id))
    ensures Bounded(inv[j := s], slotMax)
  {
  }

  lemma FirstEmptyAt(inv: seq<Slot>, j: nat)
    requires j < |inv|
    ensures FirstEmpty(inv, 0) <= j <==> FirstEmpty(inv, 0) < j || inv[j].Empty?
    ensures FirstEmpty(inv, 0) == j ==> inv[j].Empty?
  {
  }

  lemma FilledUpTo(inv: seq<Slot>, out: seq<Slot>, id: nat, amount: int, max: int, j: nat, o: nat)
    requires |out| == |inv| && j <= |inv| && max >= 1
    requires o == Empties(inv[..j]) && (o - 1) * max < amount <= o * max
    requires forall k :: 0 <= k < |inv| ==>
               if k < j && inv[k].Empty? then out[k].Stack? && out[k].id == id && out[k].qty > 0 else out[k] == inv[k]
    ensures Opened(inv, out, id, Ceil(amount, max)) && amount <= Empties(inv) * max
  {
    hide Empties, Ceil;
    CeilExactly(amount, max, o);
    if o > 0 {
      CeilExactly(amount, max, o - 1);
    }
    assert Ceil(amount, max) == o;
    assert inv[..|inv|] == inv;
    EmptiesGrow(inv, j, |inv|);
    MulMonotone(o, Empties(inv), max);
    forall k | 0 <= k < |inv| && inv[k].Empty?
      ensures Empties(inv[..k]) < o <==> k < j
    {
      SlotStep(inv, k, id, max);
      if k < j {
        EmptiesGrow(inv, k + 1, j);
      } else {
        EmptiesGrow(inv, j, k);
      }
    }
  }

  lemma FilledAll(inv: seq<Slot>, out: seq<Slot>, id: nat, amount: int, max: int)
    requires |out| == |inv| && max >= 1 && amount > Empties(inv) * max
    requires forall k :: 0 <= k < |inv| ==>
               if inv[k].Empty? then out[k].Stack? && out[k].id == id && out[k].qty > 0 else out[k] == inv[k]
    ensures Opened(inv, out, id, Ceil(amount, max))
  {
    hide Empties, Ceil;
    CeilExactly(amount, max, Empties(inv));
    assert inv[..|inv|] == inv;
    forall k | 0 <= k < |inv|
      ensures Empties(inv[..k]) < Ceil(amount, max)
    {
      EmptiesGrow(inv, k, |inv|);
    }
  }

  /** All the room there is for an item; rechargeable items only go into empty slots. */
  function Capacity(inv: seq<Slot>, id: nat, max: int): int {
    TopUpRoom(inv, id, max) + Empties(inv) * max
  }

  function TopUpRoom(inv: seq<Slot>, id: nat, max: int): int {
    if IsRechargeable(id) then 0 else StackRoom(inv, id, max)
  }

  /** How many new stacks an addition needs. */
  function NewStacks(inv: seq<Slot>, id: nat, max: int, amount: int): nat
    requires max >= 1
  {
    Ceil(amount - TopUpRoom(inv, id, max), max)
  }

  method AddStacks(inv: seq<Slot>, slotMax: SlotMax, id: nat, amount: int, isUse: bool, weapon: nat, active: Byte)
    returns (out: seq<Slot>, rest: int, mods: nat, active': Byte)
    requires Bounded(inv, slotMax) && amount > 0 && slotMax(id) >= 1 && |inv| <= MAX_ITEM_COUNT
    ensures Bounded(out, slotMax) && Changed(inv, out, id, amount - rest)
    ensures rest == Max(0, amount - Capacity(inv, id, slotMax(id)))
    ensures rest > 0 <==> NewStacks(inv, id, slotMax(id), amount) > Empties(inv)
    ensures Opened(inv, out, id, NewStacks(inv, id, slotMax(id), amount))
    ensures mods == 0 ==> out == inv
    ensures active' == if isUse && NewStacks(inv, id, slotMax(id), amount) > 0 then CachedThen(inv, weapon, id, active)
                       else active
  {
    hide Total, StackRoom, Empties, Opened, UsableAmmo, CachedThen, Ceil;
    var max := slotMax(id);
    out, rest, mods, active' := inv, amount, 0, active;
    if !IsRechargeable(id) {
      assert inv[..|inv|] == inv;
      RoomPrefix(inv, slotMax, |inv|, id);
      out, rest, mods := FillStacks(inv, slotMax, id, amount);
    } else {
      OpenedNothing(inv, id);
    }
    ghost var mid, midRest, room := out, rest, TopUpRoom(inv, id, max);
    MulMonotone(0, Empties(inv), max);
    CeilExactly(amount - room, max, Empties(inv));
    CeilExactly(amount - room, max, 0);
    ToppedUp(inv, mid, id, weapon, active);
    if rest != 0 {
      var more: nat;
      out, rest, more, active' := FillEmpty(out, slotMax, id, rest, isUse, weapon, active);
      mods := mods + more;
      ChangedAdds(inv, mid, out, id, amount - midRest, midRest - rest);
      OpenedTwice(inv, mid, out, id, Ceil(midRest, max));
    }
  }

  lemma OpenedNothing(inv: seq<Slot>, id: nat)
    ensures Opened(inv, inv, id, 0)
  {
  }

  /** Topping up leaves the empty slots where they were. */
  lemma ToppedUp(before: seq<Slot>, after: seq<Slot>, id: nat, weapon: nat, active: Byte)
    requires Opened(before, after, id, 0) && |before| <= MAX_ITEM_COUNT
    ensures Empties(after) == Empties(before)
    ensures CachedThen(after, weapon, id, active) == CachedThen(before, weapon, id, active)
  {
    hide Empties;
    OpenedCounts(before, after, id, 0, |before|, id);
    assert before[..|before|] == before && after[..|after|] == after;
    SameFirstEmpty(before, after, 0);
  }

  lemma {:induction false} SameFirstEmpty(a: seq<Slot>, b: seq<Slot>, k: nat)
    requires |a| == |b| && k <= |a| && forall j :: 0 <= j < |a| ==> (a[j].Empty? <==> b[j].Empty?)
    ensures FirstEmpty(a, k) == FirstEmpty(b, k)
    decreases |a| - k
  {
    if k < |a| {
      SameFirstEmpty(a, b, k + 1);
    }
  }

  lemma OpenedTwice(a: seq<Slot>, b: seq<Slot>, c: seq<Slot>, id: nat, o: nat)
    requires Opened(a, b, id, 0) && Opened(b, c, id, o)
    ensures Opened(a, c, id, o)
  {
    hide Empties;
    forall j | 0 <= j < |a|
      ensures Empties(b[..j]) == Empties(a[..j])
    {
      OpenedCounts(a, b, id, 0, j, id);
    }
  }

  lemma ChangedAdds(a: seq<Slot>, b: seq<Slot>, c: seq<Slot>, id: nat, d: int, e: int)
    requires Changed(a, b, id, d) && Changed(b, c, id, e)
    ensures Changed(a, c, id, d + e)
  {
  }

  // ---------- the cached slot when stacks are opened ----------

  lemma UseAfterOpening(weapon: nat, before: seq<Slot>, after: seq<Slot>, id: nat, o: nat, j: nat)
    requires Opened(before, after, id, o) && j < |before|
    ensures Usable(weapon, after[j]) <==> if before[j].Stack? then Usable(weapon, before[j])
                                          else Empties(before[..j]) < o && UsableAmmo(weapon, id)
  {
    hide Empties, Usable;
    EmptyIsUseless(weapon);
    if before[j].Stack? {
      if !IsRechargeable(id) {
        SameItemSameUse(weapon, id);
      }
    } else if after[j].Stack? {
      AmmoIsUsable(weapon, id, after[j].qty);
    }
  }

  lemma FirstEmptyCounts(inv: seq<Slot>, p: nat)
    requires p <= |inv|
    ensures Empties(inv[..p]) > 0 <==> FirstEmpty(inv, 0) < p
    ensures FirstEmpty(inv, 0) < |inv| ==> Empties(inv[..FirstEmpty(inv, 0)]) == 0
  {
    var f := FirstEmpty(inv, 0);
    NoneEmpty(inv, if f < p then f else p);
    if f < |inv| {
      NoneEmpty(inv, f);
    }
    if f < p {
      SlotStep(inv, f, 0, 0);
      EmptiesGrow(inv, f + 1, p);
    }
  }

  lemma {:induction false} NoneEmpty(inv: seq<Slot>, p: nat)
    requires p <= |inv| && forall j :: 0 <= j < p ==> inv[j].Stack?
    ensures Empties(inv[..p]) == 0
    decreases p
  {
    if p > 0 {
      NoneEmpty(inv, p - 1);
      SlotStep(inv, p - 1, 0, 0);
    }
  }

  /** Opening stacks keeps a cached slot that was right; it repairs one that was not exactly if it puts
      usable ammunition into that slot or one before it. */
  lemma OpenedCache(weapon: nat, before: seq<Slot>, after: seq<Slot>, id: nat, o: nat, active: Byte, active': Byte)
    requires Opened(before, after, id, o) && |before| <= MAX_ITEM_COUNT
    requires active' == if o > 0 then CachedThen(before, weapon, id, active) else active
    ensures IsFirst(weapon, before, active) ==> IsFirst(weapon, after, active')
    ensures Stale(weapon, before, active) ==>
              if o > 0 && UsableAmmo(weapon, id) && Empties(before[..active + 1]) > 0 then
                IsFirst(weapon, after, active')
              else Stale(weapon, after, active') && active' == active
    ensures active == NO_PROJECTILE ==>
              (active' == NO_PROJECTILE <==> !(o > 0 && UsableAmmo(weapon, id) && Empties(before) > 0))
    ensures active != NO_PROJECTILE ==> active' != NO_PROJECTILE
  {
    hide Empties, Usable, UsableAmmo, Opened;
    OpenedLength(before, after, id, o);
    assert before[..|before|] == before;
    FirstEmptyCounts(before, |before|);
    if active < |before| {
      FirstEmptyCounts(before, active + 1);
    }
    forall j | 0 <= j < |before|
      ensures Usable(weapon, after[j]) <==> if before[j].Stack? then Usable(weapon, before[j])
                                            else Empties(before[..j]) < o && UsableAmmo(weapon, id)
    {
      UseAfterOpening(weapon, before, after, id, o, j);
    }
    EmptyIsUseless(weapon);
  }

  lemma OpenedLength(before: seq<Slot>, after: seq<Slot>, id: nat, o: nat)
    requires Opened(before, after, id, o)
    ensures |after| == |before|
  {
  }
}
