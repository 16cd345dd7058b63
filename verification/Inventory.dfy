/** Stackable inventories: moving, merging and swapping stacks, and the cached slot of
    the first ammunition the equipped weapon can use. */
module Inventory {
  import opened Common

  datatype Slot = Empty | Stack(id: nat, qty: int)

  type SlotMax = nat -> int

  const NO_PROJECTILE: Byte := 0xff

  const MAX_ITEM_COUNT := 252

  predicate IsThrowingStar(id: nat) { id / 10000 == 207 }

  predicate IsBullet(id: nat) { id / 10000 == 233 }

  predicate IsRechargeable(id: nat) { IsThrowingStar(id) || IsBullet(id) }

  /** Can the weapon shoot what lies in the slot? Arrows need not be counted, stars and bullets must be. */
  predicate Usable(weapon: nat, s: Slot) {
    s.Stack? && match weapon / 10000
                case 145 => s.id / 1000 == 2060
                case 146 => s.id / 1000 == 2061
                case 147 => IsThrowingStar(s.id) && s.qty > 0
                case 149 => IsBullet(s.id) && s.qty > 0
                case _ => false
  }

  /** In plain ids and quantities: a bow shoots arrows 2060xxx and a crossbow 2061xxx, whatever is left of
      them; a claw shoots stars 207xxxx and a gun bullets 233xxxx as long as there are some. */
  ghost predicate Shoots(weapon: nat, s: Slot) {
    s.Stack? &&
    (|| (1450000 <= weapon < 1460000 && 2060000 <= s.id < 2061000)
     || (1460000 <= weapon < 1470000 && 2061000 <= s.id < 2062000)
     || (1470000 <= weapon < 1480000 && 2070000 <= s.id < 2080000 && s.qty > 0)
     || (1490000 <= weapon < 1500000 && 2330000 <= s.id < 2340000 && s.qty > 0))
  }

  lemma UsableExactly(weapon: nat, s: Slot)
    ensures Usable(weapon, s) <==> Shoots(weapon, s)
  {
  }

  lemma RechargeableExactly(id: nat)
    ensures IsRechargeable(id) <==> 2070000 <= id < 2080000 || 2330000 <= id < 2340000
  {
  }

  /** The slot of the first stack the weapon shoots, or 255 if there is none. */
  ghost predicate ShootsFirst(weapon: nat, items: seq<Slot>, active: nat) {
    || (active < |items| && Shoots(weapon, items[active]) && forall j :: 0 <= j < active ==> !Shoots(weapon, items[j]))
    || (active == 255 && forall j :: 0 <= j < |items| ==> !Shoots(weapon, items[j]))
  }

  lemma FirstIsPlain(weapon: nat, items: seq<Slot>, active: nat)
    requires |items| <= MAX_ITEM_COUNT
    ensures IsFirst(weapon, items, active) <==> ShootsFirst(weapon, items, active)
  {
    hide Usable, Shoots;
    forall j | 0 <= j < |items|
      ensures Usable(weapon, items[j]) <==> Shoots(weapon, items[j])
    {
      UsableExactly(weapon, items[j]);
    }
  }

  /** The linear search a login performs. */
  function FirstUsable(weapon: nat, items: seq<Slot>, k: nat): Byte
    requires k <= |items| <= MAX_ITEM_COUNT
    decreases |items| - k
  {
    if k == |items| then NO_PROJECTILE
    else if Usable(weapon, items[k]) then k
    else FirstUsable(weapon, items, k + 1)
  }

  ghost predicate IsFirst(weapon: nat, items: seq<Slot>, active: nat) {
    if active < |items| then
      Usable(weapon, items[active]) && forall j :: 0 <= j < active ==> !Usable(weapon, items[j])
    else
      active == NO_PROJECTILE && forall j :: 0 <= j < |items| ==> !Usable(weapon, items[j])
  }

  lemma {:induction false} FirstUsableIsFirst(weapon: nat, items: seq<Slot>, k: nat, active: nat)
    requires k <= |items| <= MAX_ITEM_COUNT
    requires forall j :: 0 <= j < k ==> !Usable(weapon, items[j])
    ensures IsFirst(weapon, items, active) <==> active == FirstUsable(weapon, items, k)
    decreases |items| - k
  {
    hide Usable;
    if k < |items| && !Usable(weapon, items[k]) {
      FirstUsableIsFirst(weapon, items, k + 1, active);
    }
  }

  // ---------- quantities ----------

  function Quantity(s: Slot, id: nat): int {
    if s.Stack? && s.id == id then s.qty else 0
  }

  function Total(items: seq<Slot>, id: nat): int {
    if items == [] then 0 else Total(items[..|items| - 1], id) + Quantity(items[|items| - 1], id)
  }

  lemma {:induction false} TotalUpdate(items: seq<Slot>, i: nat, s: Slot, id: nat)
    requires i < |items|
    ensures Total(items[i := s], id) == Total(items, id) - Quantity(items[i], id) + Quantity(s, id)
  {
    var n := |items| - 1;
    if i == n {
      assert items[i := s][..n] == items[..n];
    } else {
      TotalUpdate(items[..n], i, s, id);
      assert items[i := s][..n] == items[..n][i := s];
    }
  }

  ghost predicate Bounded(items: seq<Slot>, slotMax: SlotMax) {
    forall i :: 0 <= i < |items| && items[i].Stack? ==> 0 <= items[i].qty <= slotMax(items[i].id)
  }

  // ---------- moving one stack onto a slot ----------

  /** How the slots look after moving `src` onto `dst`; the assignments happen in this order. */
  function Arranged(items: seq<Slot>, slotMax: SlotMax, src: nat, dst: nat): seq<Slot>
    requires src < |items| && dst < |items| && items[src].Stack?
  {
    var s, d := items[src], items[dst];
    if d.Empty? then items[dst := s][src := Empty]
    else if d.id == s.id && !IsRechargeable(d.id) && d.qty != slotMax(d.id) then
      var amount := slotMax(d.id) - d.qty;
      if s.qty < amount then
        items[dst := Stack(d.id, d.qty + s.qty)][src := Empty]
      else
        var filled := items[dst := Stack(d.id, d.qty + amount)];
        filled[src := Stack(s.id, filled[src].qty - amount)]
    else items[dst := s][src := d]
  }

  /** Between distinct slots nothing is lost or gained, and no stack outgrows its limit. */
  lemma MoveConserves(items: seq<Slot>, slotMax: SlotMax, src: nat, dst: nat, id: nat)
    requires src < |items| && dst < |items| && items[src].Stack? && src != dst
    requires Bounded(items, slotMax)
    ensures Total(Arranged(items, slotMax, src, dst), id) == Total(items, id)
    ensures Bounded(Arranged(items, slotMax, src, dst), slotMax)
  {
    var after := Arranged(items, slotMax, src, dst);
    assert after == items[dst := after[dst]][src := after[src]];
    TotalUpdate(items, dst, after[dst], id);
    TotalUpdate(items[dst := after[dst]], src, after[src], id);
  }

  /** The moved item ends up in the destination, topped up to the limit when it joins a stack that
      has room; what does not fit stays behind, and no third slot changes. */
  lemma MovePlaces(items: seq<Slot>, slotMax: SlotMax, src: nat, dst: nat)
    requires src < |items| && dst < |items| && items[src].Stack? && src != dst && Bounded(items, slotMax)
    ensures var s, d, after := items[src], items[dst], Arranged(items, slotMax, src, dst);
            && after[dst].Stack? && after[dst].id == s.id
            && (forall k :: 0 <= k < |items| && k != src && k != dst ==> after[k] == items[k])
            && (d.Empty? ==> after[src].Empty? && after[dst] == s)
            && (d.Stack? && d.id == s.id && !IsRechargeable(s.id) && d.qty < slotMax(s.id) ==>
                  && after[dst].qty == Min(slotMax(s.id), s.qty + d.qty)
                  && after[src] == (if s.qty + d.qty < slotMax(s.id) then Empty
                                    else Stack(s.id, s.qty + d.qty - slotMax(s.id))))
            && (d.Stack? && (d.id != s.id || IsRechargeable(s.id) || d.qty == slotMax(s.id)) ==>
                  after[src] == d && after[dst] == s)
  {
  }

  /** Moving a stack onto itself keeps the totals unless the stack is less than half full:
      then the whole stack disappears. */
  lemma SelfMoveExactly(items: seq<Slot>, slotMax: SlotMax, src: nat)
    requires src < |items| && items[src].Stack? && Bounded(items, slotMax)
    ensures var s := items[src];
            (forall id :: Total(Arranged(items, slotMax, src, src), id) == Total(items, id))
            <==> IsRechargeable(s.id) || s.qty == 0 || 2 * s.qty >= slotMax(s.id)
  {
    var after, s := Arranged(items, slotMax, src, src), items[src];
    forall id
      ensures Total(after, id) == Total(items, id) - Quantity(s, id) + Quantity(after[src], id)
    {
      assert after == items[src := after[src]];
      TotalUpdate(items, src, after[src], id);
    }
    assert Total(after, s.id) == Total(items, s.id) - s.qty + Quantity(after[src], s.id);
  }

  lemma SelfMoveBounded(items: seq<Slot>, slotMax: SlotMax, src: nat)
    requires src < |items| && items[src].Stack? && Bounded(items, slotMax)
    ensures Bounded(Arranged(items, slotMax, src, src), slotMax)
  {
  }

  lemma SelfMoveLosesStack(slotMax: SlotMax)
    requires slotMax(4000000) == 100
    ensures Arranged([Stack(4000000, 40)], slotMax, 0, 0) == [Empty]
  {
  }

  ghost predicate HasEmptyStack(items: seq<Slot>) {
    exists k :: 0 <= k < |items| && items[k].Stack? && items[k].qty == 0
  }

  /** A move between distinct slots leaves a stack of zero items behind exactly if it fills up a
      stack of the same item that had room, with nothing left over. */
  lemma EmptyStackExactly(items: seq<Slot>, slotMax: SlotMax, src: nat, dst: nat)
    requires src < |items| && dst < |items| && items[src].Stack? && src != dst
    requires Bounded(items, slotMax) && !HasEmptyStack(items)
    ensures var s, d := items[src], items[dst];
            HasEmptyStack(Arranged(items, slotMax, src, dst))
            <==> d.Stack? && d.id == s.id && !IsRechargeable(s.id) && d.qty < slotMax(s.id)
                 && s.qty + d.qty == slotMax(s.id)
  {
    hide IsRechargeable;
    var after := Arranged(items, slotMax, src, dst);
    assert forall k :: 0 <= k < |items| && k != src && k != dst ==> after[k] == items[k];
    assert after[src].Stack? && after[src].qty == 0 ==> HasEmptyStack(after);
  }

  lemma EmptyStackRemains(slotMax: SlotMax)
    requires slotMax(4000000) == 100
    ensures Arranged([Stack(4000000, 40), Stack(4000000, 60)], slotMax, 0, 1)
            == [Stack(4000000, 0), Stack(4000000, 100)]
  {
  }

  class StackInventory {
    const slotMax: SlotMax
    const isUse: bool
    const items: array<Slot>
    var weapon: nat
    var weaponEquipped: bool
    var activeProjectile: Byte

    ghost predicate Valid()
      reads this, items
    {
      && items.Length <= MAX_ITEM_COUNT
      && Bounded(items[..], slotMax)
    }

    /** The cached slot is the first that the equipped weapon can shoot from. */
    ghost predicate ActiveOk()
      requires items.Length <= MAX_ITEM_COUNT
      reads this, items
    {
      isUse ==> if weaponEquipped then ShootsFirst(weapon, items[..], activeProjectile) else activeProjectile == 255
    }

    /** A login: the cached slot is looked up if a weapon is equipped. */
    constructor (slotMax: SlotMax, isUse: bool, items: seq<Slot>, weapon: nat, weaponEquipped: bool)
      requires |items| <= MAX_ITEM_COUNT && Bounded(items, slotMax)
      ensures fresh(this.items) && this.items[..] == items && Valid() && ActiveOk()
      ensures this.slotMax == slotMax && this.isUse == isUse
      ensures this.weapon == weapon && this.weaponEquipped == weaponEquipped
    {
      this.slotMax, this.isUse, this.weapon, this.weaponEquipped := slotMax, isUse, weapon, weaponEquipped;
      this.items := new Slot[|items|](i requires 0 <= i < |items| => items[i]);
      activeProjectile := NO_PROJECTILE;
      new;
      assert this.items[..] == items;
      if weaponEquipped {
        SearchFrom(0);
      }
      FirstIsPlain(weapon, items, activeProjectile);
    }

    /** Looks for a usable slot from `from` on; the cached slot stays when there is none. */
    method SearchFrom(from: nat)
      requires from <= items.Length <= MAX_ITEM_COUNT
      modifies this`activeProjectile
      ensures if exists k :: from <= k < items.Length && Usable(weapon, items[k]) then
                && from <= activeProjectile < items.Length && Usable(weapon, items[activeProjectile])
                && forall k :: from <= k < activeProjectile ==> !Usable(weapon, items[k])
              else activeProjectile == old(activeProjectile)
    {
      hide Usable;
      for i := from to items.Length
        invariant activeProjectile == old(activeProjectile)
        invariant forall k :: from <= k < i ==> !Usable(weapon, items[k])
      {
        if Usable(weapon, items[i]) {
          activeProjectile := i;
          return;
        }
      }
    }

    /** The destination is empty: the whole stack goes there. */
    method MoveToEmpty(src: nat, dst: nat)
      requires items.Length <= MAX_ITEM_COUNT && src < items.Length && dst < items.Length
      requires items[src].Stack? && items[dst].Empty?
      modifies this`activeProjectile, items
      ensures items[..] == Arranged(old(items[..]), slotMax, src, dst)
      ensures !isUse ==> activeProjectile == old(activeProjectile)
      ensures isUse && IsFirst(weapon, old(items[..]), old(activeProjectile)) ==>
                IsFirst(weapon, items[..], activeProjectile)
      ensures isUse && old(activeProjectile) == NO_PROJECTILE ==>
                (activeProjectile == NO_PROJECTILE <==> !Usable(weapon, old(items[src])))
    {
      hide Usable;
      items[dst] := items[src];
      items[src] := Empty;
      EmptyIsUseless(weapon);
      if isUse && src == activeProjectile {
        if dst < src {
          activeProjectile := dst;
        } else {
          assert IsFirst(weapon, old(items[..]), activeProjectile) ==> Usable(weapon, items[dst]);
          SearchFrom(src + 1);
        }
      } else if isUse && dst < activeProjectile {
        if Usable(weapon, items[dst]) {
          activeProjectile := dst;
        }
      }
    }

    /** Both slots hold the same item, which is not rechargeable. */
    method Merge(src: nat, dst: nat)
      requires items.Length <= MAX_ITEM_COUNT && src < items.Length && dst < items.Length && Bounded(items[..], slotMax)
      requires items[src].Stack? && items[dst].Stack?
      requires items[dst].id == items[src].id && !IsRechargeable(items[dst].id)
      modifies this`activeProjectile, items
      ensures items[..] == Arranged(old(items[..]), slotMax, src, dst)
      ensures !isUse || old(activeProjectile) == NO_PROJECTILE ==> activeProjectile == old(activeProjectile)
      ensures isUse && IsFirst(weapon, old(items[..]), old(activeProjectile)) ==>
                (IsFirst(weapon, items[..], activeProjectile)
                 <==> !(src == dst == old(activeProjectile) && 2 * old(items[src]).qty < slotMax(old(items[src]).id)))
    {
      hide Usable;
      SameItemSameUse(weapon, items[src].id);
      EmptyIsUseless(weapon);
      if items[dst].qty == slotMax(items[dst].id) {
        var temp := items[dst];
        items[dst] := items[src];
        items[src] := temp;
      } else {
        var amount := slotMax(items[dst].id) - items[dst].qty;
        if items[src].qty < amount {
          items[dst] := Stack(items[dst].id, items[dst].qty + items[src].qty);
          items[src] := Empty;
          if isUse && src < dst && src == activeProjectile {
            assert IsFirst(weapon, old(items[..]), activeProjectile) ==> Usable(weapon, items[dst]);
            SearchFrom(src + 1);
          }
        } else {
          items[dst] := Stack(items[dst].id, items[dst].qty + amount);
          items[src] := Stack(items[src].id, items[src].qty - amount);
        }
      }
    }

    /** Different items, or rechargeable ones, change places. */
    method Swap(inSrc: nat, inDst: nat)
      requires items.Length <= MAX_ITEM_COUNT && inSrc < items.Length && inDst < items.Length
      requires items[inSrc].Stack? && items[inDst].Stack?
      modifies this`activeProjectile, items
      ensures items[..] == old(items[..])[inDst := old(items[inSrc])][inSrc := old(items[inDst])]
      ensures !isUse || old(activeProjectile) == NO_PROJECTILE ==> activeProjectile == old(activeProjectile)
      ensures isUse && IsFirst(weapon, old(items[..]), old(activeProjectile)) ==>
                IsFirst(weapon, items[..], activeProjectile)
    {
      hide Usable;
      var src, dst := inSrc, inDst;
      var temp := items[dst];
      items[dst] := items[src];
      items[src] := temp;
      if isUse {
        if dst < src {
          dst, src := src, dst;
        }
        if src <= activeProjectile <= dst {
          if activeProjectile == src {
            assert IsFirst(weapon, old(items[..]), activeProjectile) ==> Usable(weapon, items[dst]);
            SearchFrom(src);
          } else if activeProjectile == dst {
            activeProjectile := src;
          } else if Usable(weapon, items[src]) {
            activeProjectile := src;
          }
        }
      }
    }

    /** Moved onto itself, the stack in slot `k` disappears although the cached slot names it. */
    ghost predicate LosesCache(before: seq<Slot>, active: Byte, k: nat)
      requires k < |before|
    {
      k == active && before[k].Stack? && !IsRechargeable(before[k].id) && 2 * before[k].qty < slotMax(before[k].id)
    }

    method Move(inSrc: Byte, inDst: Byte) returns (ok: bool)
      requires Valid()
      modifies this`activeProjectile, items
      ensures ok == (1 <= inSrc <= items.Length && 1 <= inDst <= items.Length)
      ensures items[..] == if ok && old(items[..])[inSrc - 1].Stack?
                           then Arranged(old(items[..]), slotMax, inSrc - 1, inDst - 1) else old(items[..])
      ensures Valid() && (inSrc != inDst ==> forall id :: Total(items[..], id) == old(Total(items[..], id)))
      ensures !isUse ==> activeProjectile == old(activeProjectile)
      ensures isUse && weaponEquipped && old(ActiveOk()) ==>
                (ActiveOk()
                 <==> !(ok && inSrc == inDst && LosesCache(old(items[..]), old(activeProjectile), inSrc - 1)))
      ensures isUse && !weaponEquipped && old(ActiveOk()) && ok ==>
                (ActiveOk() <==> !(old(items[..])[inDst - 1].Empty? && Usable(weapon, old(items[..])[inSrc - 1])))
    {
      hide Usable, Shoots, ShootsFirst, Arranged, Total;
      var src, dst := (inSrc + 0xff) % 0x100, (inDst + 0xff) % 0x100;
      if src >= items.Length || dst >= items.Length {
        return false;
      }
      ok := true;
      EmptyIsUseless(weapon);
      if items[src].Empty? {
        return;
      }
      FirstIsPlain(weapon, items[..], activeProjectile);
      if items[dst].Empty? {
        MoveToEmpty(src, dst);
      } else if items[dst].id == items[src].id && !IsRechargeable(items[dst].id) {
        Merge(src, dst);
      } else {
        SwapArranges(items[..], slotMax, src, dst);
        Swap(src, dst);
      }
      if src == dst {
        SelfMoveBounded(old(items[..]), slotMax, src);
      } else {
        MoveConserves(old(items[..]), slotMax, src, dst, 0);
        forall id
          ensures Total(items[..], id) == old(Total(items[..], id))
        {
          MoveConserves(old(items[..]), slotMax, src, dst, id);
        }
      }
      FirstIsPlain(weapon, items[..], activeProjectile);
    }
  }

  /** What a login caches with a bow, a crossbow, a claw, a gun and a sword. */
  method CachedAtLogin(slotMax: SlotMax) returns (cached: seq<Byte>)
    requires slotMax(2060000) == slotMax(2061000) == 2000 && slotMax(2070000) == 500 && slotMax(2330000) == 800
    ensures cached == [1, 1, 1, 2, 255]
  {
    var arrows := [Stack(2061000, 5), Stack(2060000, 0), Stack(2060000, 7)];
    var bolts := [Stack(2060000, 5), Stack(2061000, 0)];
    var stars := [Stack(2070000, 0), Stack(2070000, 500)];
    var bullets := [Stack(2330000, 0), Empty, Stack(2330000, 800)];
    assert Shoots(1452000, arrows[1]) && Shoots(1462000, bolts[1]);
    assert Shoots(1472000, stars[1]) && Shoots(1492000, bullets[2]);
    var bow := LoginCaches(slotMax, arrows, 1452000);
    var crossbow := LoginCaches(slotMax, bolts, 1462000);
    var claw := LoginCaches(slotMax, stars, 1472000);
    var gun := LoginCaches(slotMax, bullets, 1492000);
    var sword := LoginCaches(slotMax, arrows, 1302000);
    cached := [bow, crossbow, claw, gun, sword];
  }

  method LoginCaches(slotMax: SlotMax, items: seq<Slot>, weapon: nat) returns (active: Byte)
    requires |items| <= MAX_ITEM_COUNT && Bounded(items, slotMax)
    ensures ShootsFirst(weapon, items, active)
  {
    var inv := new StackInventory(slotMax, true, items, weapon, true);
    active := inv.activeProjectile;
  }

  /** Arrows moved onto their own slot disappear, and the equipped bow is left with an empty slot. */
  method SelfMoveLosesCache(slotMax: SlotMax) returns (inv: StackInventory)
    requires slotMax(2060000) == 1000
    ensures fresh(inv) && inv.isUse && inv.weaponEquipped && inv.items[..] == [Empty]
    ensures inv.activeProjectile != NO_PROJECTILE && !inv.ActiveOk()
  {
    var before := [Stack(2060000, 100)];
    inv := new StackInventory(slotMax, true, before, 1452000, true);
    assert inv.items[..][0] == before[0] && Usable(1452000, before[0]);
    assert inv.activeProjectile == 0;
    var ok := inv.Move(1, 1);
    assert inv.items.Length == 1 && inv.items[..] == [Empty];
    assert ShootsFirst(1452000, [Empty], 255);
  }

  /** Arrows moved to an empty slot while the id of a bow that was taken off is still in the weapon slot:
      a slot is cached although nothing is equipped. */
  method StaleWeapon(slotMax: SlotMax) returns (inv: StackInventory)
    requires slotMax(2060000) == 1000
    ensures fresh(inv) && inv.isUse && !inv.weaponEquipped && inv.items.Length == 2
    ensures inv.activeProjectile != NO_PROJECTILE && !inv.ActiveOk()
  {
    inv := new StackInventory(slotMax, true, [Stack(2060000, 500), Empty], 1452000, false);
    assert inv.items[..][0] == Stack(2060000, 500) && inv.items[..][1] == Empty;
    var ok := inv.Move(1, 2);
  }

  lemma SwapArranges(items: seq<Slot>, slotMax: SlotMax, src: nat, dst: nat)
    requires src < |items| && dst < |items| && items[src].Stack? && items[dst].Stack?
    requires items[dst].id != items[src].id || IsRechargeable(items[dst].id)
    ensures Arranged(items, slotMax, src, dst) == items[dst := items[src]][src := items[dst]]
  {
  }

  lemma EmptyIsUseless(weapon: nat)
    ensures !Usable(weapon, Empty)
  {
  }

  /** For items that are not rechargeable the quantity does not matter. */
  lemma SameItemSameUse(weapon: nat, id: nat)
    requires !IsRechargeable(id)
    ensures forall p, q :: Usable(weapon, Stack(id, p)) <==> Usable(weapon, Stack(id, q))
  {
  }
}
