/** What the reference counts of monsters stand for, and how starts, kills, forfeits and endings of
    quests change the counts and what they should be. */
module QuestCounts {
  import opened Common

  /** One entry of a quest's monster requirement. */
  datatype Mob = Mob(id: nat, count: int)

  type Catalogue = nat -> seq<Mob>

  type Progress = map<nat, seq<int>>

  /** A quest keeps the progress of at most five entries. */
  ghost predicate WellFormed(mobs: Catalogue) {
    forall q :: |mobs(q)| <= 5
  }

  ghost predicate Aligned(mobs: Catalogue, quests: Progress) {
    forall q :: q in quests ==> |quests[q]| == |mobs(q)|
  }

  /** Conversion to a signed 8-bit integer, the type of a reference count. */
  function ToInt8(v: int): (r: int)
    ensures -0x80 <= r < 0x80
  {
    (v + 0x80) % 0x100 - 0x80
  }

  // ---------- what the reference counts stand for ----------

  /** Entry `i` of quest `q` asks for `mob` and is still below its required count. */
  ghost predicate Pending(mobs: Catalogue, quests: Progress, q: nat, i: nat, mob: nat) {
    && q in quests && i < |quests[q]| && i < |mobs(q)|
    && mobs(q)[i].id == mob && quests[q][i] < mobs(q)[i].count
  }

  ghost function PendingSet(mobs: Catalogue, quests: Progress, mob: nat): set<(nat, nat)> {
    set q, i | q in quests && 0 <= i < |quests[q]| && Pending(mobs, quests, q, i, mob) :: (q, i)
  }

  /** The pending entries for a monster and the counts that were never taken back. */
  ghost function Owed(mobs: Catalogue, quests: Progress, leaked: multiset<nat>, mob: nat): nat {
    |PendingSet(mobs, quests, mob)| + leaked[mob]
  }

  /** A monster is referenced exactly if something is owed for it, with the low eight bits of what is owed. */
  ghost predicate Counts(mobs: Catalogue, quests: Progress, leaked: multiset<nat>, refs: map<nat, int>) {
    forall mob :: var n := Owed(mobs, quests, leaked, mob);
                  (mob in refs <==> n > 0) && (mob in refs ==> refs[mob] == ToInt8(n))
  }

  /** The reference counts are what their declaration promises: the pending entries, nothing more. */
  ghost predicate Exact(mobs: Catalogue, quests: Progress, refs: map<nat, int>) {
    Counts(mobs, quests, multiset{}, refs)
  }

  /** Taking one off may arrive at `v`: the 8-bit count is zero there only if nothing is owed. */
  ghost predicate Harmless(v: int) {
    v == 0 || v % 0x100 != 0
  }

  ghost predicate NoWrap(low: int, high: int) {
    forall v :: low <= v < high ==> Harmless(v)
  }

  /** Going from one quest state to another, no count is taken down to a positive multiple of 256. */
  ghost predicate Smooth(mobs: Catalogue, before: Progress, after: Progress, leaked: multiset<nat>) {
    forall mob :: NoWrap(Owed(mobs, after, leaked, mob), Owed(mobs, before, leaked, mob))
  }

  /** Something is owed for a monster that is not referenced. */
  ghost predicate Broken(mobs: Catalogue, quests: Progress, leaked: multiset<nat>, refs: map<nat, int>) {
    exists mob :: mob !in refs && Owed(mobs, quests, leaked, mob) > 0
  }

  /** What is owed grows by one for `mob` and stays for all other monsters. */
  ghost predicate Grows(mobs: Catalogue, q0: Progress, l0: multiset<nat>, q1: Progress, l1: multiset<nat>, mob: nat) {
    forall m :: Owed(mobs, q1, l1, m) == Owed(mobs, q0, l0, m) + if m == mob then 1 else 0
  }

  ghost predicate SameOwed(mobs: Catalogue, q0: Progress, l0: multiset<nat>, q1: Progress, l1: multiset<nat>) {
    forall m :: Owed(mobs, q1, l1, m) == Owed(mobs, q0, l0, m)
  }

  // ---------- single steps of a count ----------

  function AddRef(refs: map<nat, int>, mob: nat): map<nat, int> {
    if mob in refs then refs[mob := ToInt8(refs[mob] + 1)] else refs[mob := 1]
  }

  function DropRef(refs: map<nat, int>, mob: nat): map<nat, int>
    requires mob in refs
  {
    var n := ToInt8(refs[mob] - 1);
    if n == 0 then refs - {mob} else refs[mob := n]
  }

  lemma Int8Steps(n: int)
    ensures ToInt8(ToInt8(n) + 1) == ToInt8(n + 1) && ToInt8(ToInt8(n + 1) - 1) == ToInt8(n)
    ensures ToInt8(n) == 0 <==> n % 0x100 == 0
    ensures ToInt8(1) == 1
  {
    hide ToInt8;
    Int8Shift(n, 1);
    Int8Shift(n + 1, -1);
    Int8Zero(n);
    Int8One();
  }

  lemma Int8Shift(n: int, d: int)
    ensures ToInt8(ToInt8(n) + d) == ToInt8(n + d)
  {
    var q := (n + 0x80) / 0x100;
    assert ToInt8(n) == n - 0x100 * q;
    WholeTurns(n + d + 0x80, q);
  }

  lemma WholeTurns(a: int, q: int)
    ensures (a - 0x100 * q) % 0x100 == a % 0x100
  {
  }

  lemma Int8Zero(n: int)
    ensures ToInt8(n) == 0 <==> n % 0x100 == 0
  {
  }

  lemma Int8One()
    ensures ToInt8(1) == 1
  {
  }

  lemma AddRefOk(mobs: Catalogue, q0: Progress, l0: multiset<nat>, q1: Progress, l1: multiset<nat>,
                 refs: map<nat, int>, mob: nat)
    requires Counts(mobs, q0, l0, refs) && Grows(mobs, q0, l0, q1, l1, mob)
    ensures Counts(mobs, q1, l1, AddRef(refs, mob))
  {
    hide Owed, ToInt8;
    Int8Steps(Owed(mobs, q0, l0, mob));
  }

  /** Taking one off keeps the counts right exactly if it does not arrive at a positive multiple of 256. */
  lemma DropRefExactly(mobs: Catalogue, q0: Progress, l0: multiset<nat>, q1: Progress, l1: multiset<nat>,
                       refs: map<nat, int>, mob: nat)
    requires Counts(mobs, q0, l0, refs) && Grows(mobs, q1, l1, q0, l0, mob)
    ensures mob in refs
    ensures Counts(mobs, q1, l1, DropRef(refs, mob))
            <==> Harmless(Owed(mobs, q1, l1, mob))
    ensures !Harmless(Owed(mobs, q1, l1, mob)) ==> mob !in DropRef(refs, mob)
  {
    hide Owed, ToInt8;
    var n := Owed(mobs, q1, l1, mob);
    Int8Steps(n);
    assert Owed(mobs, q0, l0, mob) == n + 1;
    assert mob in refs && refs[mob] == ToInt8(n + 1);
    var after := DropRef(refs, mob);
    assert mob in after <==> n % 0x100 != 0;
    forall m | m != mob
      ensures m in after <==> Owed(mobs, q1, l1, m) > 0
      ensures m in after ==> after[m] == ToInt8(Owed(mobs, q1, l1, m))
    {
      assert Owed(mobs, q1, l1, m) == Owed(mobs, q0, l0, m);
    }
  }

  lemma SameCounts(mobs: Catalogue, q0: Progress, l0: multiset<nat>, q1: Progress, l1: multiset<nat>,
                   refs: map<nat, int>)
    requires Counts(mobs, q0, l0, refs) && SameOwed(mobs, q0, l0, q1, l1)
    ensures Counts(mobs, q1, l1, refs)
  {
    hide Owed;
  }

  /** While fewer than 256 counts are lost for every monster, the counts are exact only if none is lost. */
  lemma ExactIfNothingLeaked(mobs: Catalogue, quests: Progress, leaked: multiset<nat>, refs: map<nat, int>)
    requires Counts(mobs, quests, leaked, refs) && forall m :: leaked[m] < 0x100
    ensures Exact(mobs, quests, refs) <==> leaked == multiset{}
  {
    if leaked != multiset{} {
      var m :| m in leaked;
      var n := |PendingSet(mobs, quests, m)|;
      assert Owed(mobs, quests, leaked, m) == n + leaked[m] && Owed(mobs, quests, multiset{}, m) == n;
      assert m in refs && refs[m] == ToInt8(n + leaked[m]);
      DifferentInt8(n, leaked[m]);
    }
  }

  lemma DifferentInt8(n: int, d: int)
    requires 0 < d < 0x100
    ensures ToInt8(n) != ToInt8(n + d)
  {
  }

  // ---------- changes of single entries ----------

  /** Two quest states that differ only in whether the pair (q, i) is pending. */
  ghost predicate Opens(mobs: Catalogue, before: Progress, after: Progress, q: nat, i: nat, mob: nat) {
    && Pending(mobs, after, q, i, mob) && !Pending(mobs, before, q, i, mob)
    && forall q': nat, i': nat, m: nat :: (q', i') != (q, i) ==>
         (Pending(mobs, before, q', i', m) <==> Pending(mobs, after, q', i', m))
  }

  lemma OpensSet(mobs: Catalogue, before: Progress, after: Progress, q: nat, i: nat, mob: nat, m: nat)
    requires Opens(mobs, before, after, q, i, mob)
    ensures |PendingSet(mobs, after, m)| == |PendingSet(mobs, before, m)| + if m == mob then 1 else 0
  {
    var b, a := PendingSet(mobs, before, m), PendingSet(mobs, after, m);
    if m == mob {
      assert (q, i) !in b;
      assert a == b + {(q, i)};
    } else {
      assert a == b;
    }
  }

  lemma OpensGrows(mobs: Catalogue, before: Progress, after: Progress, leaked: multiset<nat>, q: nat, i: nat, mob: nat)
    requires Opens(mobs, before, after, q, i, mob)
    ensures Grows(mobs, before, leaked, after, leaked, mob)
  {
    hide PendingSet, Opens;
    forall m
      ensures Owed(mobs, after, leaked, m) == Owed(mobs, before, leaked, m) + if m == mob then 1 else 0
    {
      OpensSet(mobs, before, after, q, i, mob, m);
    }
  }

  lemma SamePending(mobs: Catalogue, before: Progress, after: Progress, leaked: multiset<nat>)
    requires forall q: nat, i: nat, m: nat :: Pending(mobs, before, q, i, m) <==> Pending(mobs, after, q, i, m)
    ensures SameOwed(mobs, before, leaked, after, leaked)
  {
    forall m
      ensures PendingSet(mobs, before, m) == PendingSet(mobs, after, m)
    {
    }
  }

  lemma NotReferenced(mobs: Catalogue, quests: Progress, leaked: multiset<nat>, refs: map<nat, int>,
                      q: nat, i: nat, mob: nat)
    requires Counts(mobs, quests, leaked, refs) && mob !in refs
    ensures !Pending(mobs, quests, q, i, mob)
  {
    assert Owed(mobs, quests, leaked, mob) == 0;
    assert Pending(mobs, quests, q, i, mob) ==> (q, i) in PendingSet(mobs, quests, mob);
  }

  // ---------- the effect of a kill, without any reference counts ----------

  /** The first entry from `k` on that asks for `mob` and is below its count, or the length if there is none. */
  function FirstPending(mobs: seq<Mob>, progress: seq<int>, mob: nat, k: nat): (r: nat)
    requires k <= |mobs| == |progress|
    ensures k <= r <= |mobs|
    ensures r < |mobs| ==> mobs[r].id == mob && progress[r] < mobs[r].count
    ensures forall i :: k <= i < r ==> !(mobs[i].id == mob && progress[i] < mobs[i].count)
    decreases |mobs| - k
  {
    if k == |mobs| || (mobs[k].id == mob && progress[k] < mobs[k].count) then k
    else FirstPending(mobs, progress, mob, k + 1)
  }

  function Bumped(mobs: seq<Mob>, progress: seq<int>, mob: nat): (r: seq<int>)
    requires |mobs| == |progress|
    ensures |r| == |progress|
  {
    var i := FirstPending(mobs, progress, mob, 0);
    if i == |mobs| then progress else progress[i := progress[i] + 1]
  }

  /** The kill of a monster counts for the first entry that asks for it and is below its count. */
  ghost predicate CountsFor(mobs: seq<Mob>, progress: seq<int>, i: nat, mob: nat)
    requires i < |mobs| == |progress|
  {
    && mobs[i].id == mob && progress[i] < mobs[i].count
    && forall j :: 0 <= j < i ==> mobs[j].id != mob || progress[j] >= mobs[j].count
  }

  ghost predicate EntriesCounted(mobs: seq<Mob>, before: seq<int>, after: seq<int>, mob: nat)
    requires |mobs| == |before|
  {
    && |after| == |before|
    && forall i :: 0 <= i < |mobs| ==> after[i] == before[i] + if CountsFor(mobs, before, i, mob) then 1 else 0
  }

  /** One kill of a monster, quest by quest and entry by entry. */
  ghost predicate Counted(mobs: Catalogue, before: Progress, after: Progress, mob: nat)
    requires Aligned(mobs, before)
  {
    && after.Keys == before.Keys
    && forall q :: q in before ==> EntriesCounted(mobs(q), before[q], after[q], mob)
  }

  lemma BumpedIsCounted(mobs: seq<Mob>, progress: seq<int>, mob: nat)
    requires |mobs| == |progress|
    ensures EntriesCounted(mobs, progress, Bumped(mobs, progress, mob), mob)
  {
    var k := FirstPending(mobs, progress, mob, 0);
    forall i | 0 <= i < |mobs|
      ensures CountsFor(mobs, progress, i, mob) <==> i == k
    {
      if k < i {
        assert mobs[k].id == mob && progress[k] < mobs[k].count;
      }
    }
  }

  /** Scanning counts the kill once in every quest that asks for it. */
  lemma ScannedIsCounted(mobs: Catalogue, quests: Progress, mob: nat)
    requires Aligned(mobs, quests)
    ensures Counted(mobs, quests, Scanned(mobs, quests, mob), mob)
  {
    hide Bumped, EntriesCounted;
    forall q | q in quests
      ensures EntriesCounted(mobs(q), quests[q], Scanned(mobs, quests, mob)[q], mob)
    {
      BumpedIsCounted(mobs(q), quests[q], mob);
    }
  }

  /** What a kill is worth: it counts for the monster's group, if it has one, and then for the monster. */
  lemma KilledIsCounted(mobs: Catalogue, quests: Progress, id: nat)
    requires Aligned(mobs, quests)
    ensures GroupOf(id) == 0 ==> Counted(mobs, quests, Killed(mobs, quests, id), id)
    ensures GroupOf(id) != 0 ==> exists mid :: Aligned(mobs, mid) && Counted(mobs, quests, mid, GroupOf(id))
                                               && Counted(mobs, mid, Killed(mobs, quests, id), id)
  {
    hide Counted, Scanned;
    if GroupOf(id) == 0 {
      ScannedIsCounted(mobs, quests, id);
    } else {
      var mid := Scanned(mobs, quests, GroupOf(id));
      ScannedIsCounted(mobs, quests, GroupOf(id));
      ScannedIsCounted(mobs, mid, id);
    }
  }

  /** The monsters that count as a group, and no others. */
  lemma GroupsExactly(id: nat)
    ensures GroupOf(id) != 0 <==> id in {1110100, 1110130, 2230101, 2230131, 1140100, 1140130, 8830003, 8830010}
    ensures GroupOf(1110100) == GroupOf(1110130) == 9101000 && GroupOf(2230101) == GroupOf(2230131) == 9101001
    ensures GroupOf(1140100) == GroupOf(1140130) == 9101002 && GroupOf(8830003) == GroupOf(8830010) == 9101003
  {
  }

  ghost function Scanned(mobs: Catalogue, quests: Progress, mob: nat): (r: Progress)
    requires Aligned(mobs, quests)
    ensures Aligned(mobs, r) && r.Keys == quests.Keys
  {
    map q | q in quests :: Bumped(mobs(q), quests[q], mob)
  }

  /** A few monsters also count as a group, which quests refer to by an id of its own. */
  function GroupOf(id: nat): nat {
    if id == 1110100 || id == 1110130 then 9101000
    else if id == 2230101 || id == 2230131 then 9101001
    else if id == 1140100 || id == 1140130 then 9101002
    else if id == 8830003 || id == 8830010 then 9101003
    else 0
  }

  ghost function Killed(mobs: Catalogue, quests: Progress, id: nat): Progress
    requires Aligned(mobs, quests)
  {
    if GroupOf(id) != 0 then Scanned(mobs, Scanned(mobs, quests, GroupOf(id)), id) else Scanned(mobs, quests, id)
  }

  // ---------- what a scan and a kill do to quests and counts ----------

  /** The quest's share of a kill meets an entry. */
  ghost predicate Reaches(mobs: seq<Mob>, progress: seq<int>, mob: nat)
    requires |mobs| == |progress|
  {
    var i := FirstPending(mobs, progress, mob, 0);
    i < |mobs| && progress[i] + 1 == mobs[i].count
  }

  ghost function Reached(mobs: Catalogue, quests: Progress, mob: nat): set<nat>
    requires Aligned(mobs, quests)
  {
    set q | q in quests && Reaches(mobs(q), quests[q], mob)
  }

  /** Taking `d` references of a monster off; nothing is left to take off once it is not referenced. */
  ghost function DropMany(refs: map<nat, int>, mob: nat, d: nat): Option<map<nat, int>> {
    if d == 0 then Some(refs) else if mob !in refs then None else DropMany(DropRef(refs, mob), mob, d - 1)
  }

  lemma DropManyStep(refs: map<nat, int>, mob: nat, d: nat)
    ensures d == 0 ==> DropMany(refs, mob, d) == Some(refs)
    ensures d > 0 ==> DropMany(refs, mob, d) == if mob in refs then DropMany(DropRef(refs, mob), mob, d - 1) else None
  {
  }

  /** A scan as the code does it: skipped without a reference, and stopped at a missing one. */
  ghost function ScanStep(mobs: Catalogue, quests: Progress, refs: map<nat, int>, mob: nat)
    : (r: Option<(Progress, map<nat, int>)>)
    requires Aligned(mobs, quests)
    ensures r.Some? ==> Aligned(mobs, r.value.0)
  {
    if mob !in refs then Some((quests, refs))
    else
      match DropMany(refs, mob, |Reached(mobs, quests, mob)|)
      case None => None
      case Some(after) => Some((Scanned(mobs, quests, mob), after))
  }

  ghost function KillStep(mobs: Catalogue, quests: Progress, refs: map<nat, int>, id: nat)
    : (r: Option<(Progress, map<nat, int>)>)
    requires Aligned(mobs, quests)
    ensures r.Some? ==> Aligned(mobs, r.value.0)
  {
    if GroupOf(id) == 0 then ScanStep(mobs, quests, refs, id)
    else
      match ScanStep(mobs, quests, refs, GroupOf(id))
      case None => None
      case Some((quests', refs')) => ScanStep(mobs, quests', refs', id)
  }

  /** No count of a kill is taken down to a positive multiple of 256. */
  ghost predicate KillSmooth(mobs: Catalogue, quests: Progress, leaked: multiset<nat>, id: nat)
    requires Aligned(mobs, quests)
  {
    var mid := if GroupOf(id) == 0 then quests else Scanned(mobs, quests, GroupOf(id));
    Smooth(mobs, quests, mid, leaked) && Smooth(mobs, mid, Scanned(mobs, mid, id), leaked)
  }

  lemma NoWrapGrows(low: int, high: int)
    ensures low < high ==> (NoWrap(low, high) <==> NoWrap(low, high - 1) && Harmless(high - 1))
    ensures low < high ==> (NoWrap(low, high) <==> NoWrap(low + 1, high) && Harmless(low))
    ensures low == high ==> NoWrap(low, high)
  {
    hide Harmless;
    if low < high && NoWrap(low, high - 1) && Harmless(high - 1) {
      assert forall v :: low <= v < high ==> Harmless(v);
    }
    if low < high && NoWrap(low + 1, high) && Harmless(low) {
      assert forall v :: low <= v < high ==> Harmless(v);
    }
  }

  /** Taking `d` off a count of `n` works exactly if it passes no positive multiple of 256; otherwise it
      stops at a missing reference or leaves the reference missing although something is owed. */
  lemma {:induction false} DropManyExactly(refs: map<nat, int>, mob: nat, n: nat, d: nat)
    requires mob in refs && n > 0 && refs[mob] == ToInt8(n) && d <= n
    ensures var r := DropMany(refs, mob, d);
            && (r.Some? ==> forall m :: m != mob ==>
                  (m in r.value <==> m in refs) && (m in refs ==> r.value[m] == refs[m]))
            && (if NoWrap(n - d, n) then
                  && r.Some? && (mob in r.value <==> n - d > 0)
                  && (mob in r.value ==> r.value[mob] == ToInt8(n - d))
                else r.None? || (mob !in r.value && n - d > 0))
    decreases d
  {
    hide ToInt8, NoWrap;
    NoWrapGrows(n - d, n);
    if d > 0 {
      Int8Steps(n - 1);
      var next := DropRef(refs, mob);
      if n > 1 && Harmless(n - 1) {
        DropManyExactly(next, mob, n - 1, d - 1);
      } else {
        assert mob !in next;
        assert d > 1 ==> DropMany(next, mob, d - 1).None?;
        NoWrapGrows(n - d, n - 1);
      }
    }
  }

  /** Only the quests in `some` have been scanned. */
  ghost function BumpSome(mobs: Catalogue, quests: Progress, mob: nat, some: set<nat>): (r: Progress)
    requires Aligned(mobs, quests)
    ensures Aligned(mobs, r) && r.Keys == quests.Keys
  {
    map q | q in quests :: if q in some then Bumped(mobs(q), quests[q], mob) else quests[q]
  }

  lemma BumpOne(mobs: Catalogue, quests: Progress, leaked: multiset<nat>, q: nat, mob: nat)
    requires Aligned(mobs, quests) && q in quests
    ensures var after := quests[q := Bumped(mobs(q), quests[q], mob)];
            if Reaches(mobs(q), quests[q], mob) then Grows(mobs, after, leaked, quests, leaked, mob)
            else SameOwed(mobs, quests, leaked, after, leaked)
  {
    hide Owed;
    var i := FirstPending(mobs(q), quests[q], mob, 0);
    var after := quests[q := Bumped(mobs(q), quests[q], mob)];
    if i == |mobs(q)| {
      assert after == quests;
    } else if Reaches(mobs(q), quests[q], mob) {
      assert Opens(mobs, after, quests, q, i, mob);
      OpensGrows(mobs, after, quests, leaked, q, i, mob);
    } else {
      SamePending(mobs, quests, after, leaked);
    }
  }

  /** A scan takes one off for every quest that it lets reach a count. */
  lemma {:induction false} BumpSomeOwed(mobs: Catalogue, quests: Progress, leaked: multiset<nat>, mob: nat,
                                        some: set<nat>)
    requires Aligned(mobs, quests) && some <= quests.Keys
    ensures forall m :: Owed(mobs, quests, leaked, m)
                        == Owed(mobs, BumpSome(mobs, quests, mob, some), leaked, m)
                           + if m == mob then |Reached(mobs, quests, mob) * some| else 0
    decreases |some|
  {
    hide Owed, Bumped, Reaches;
    if some == {} {
      assert BumpSome(mobs, quests, mob, some) == quests;
      assert Reached(mobs, quests, mob) * some == {};
    } else {
      var q :| q in some;
      var fewer := some - {q};
      BumpSomeOwed(mobs, quests, leaked, mob, fewer);
      var before := BumpSome(mobs, quests, mob, fewer);
      assert BumpSome(mobs, quests, mob, some) == before[q := Bumped(mobs(q), before[q], mob)];
      BumpOne(mobs, before, leaked, q, mob);
      var r, r' := Reached(mobs, quests, mob) * fewer, Reached(mobs, quests, mob) * some;
      assert if q in Reached(mobs, quests, mob) then r' == r + {q} else r' == r;
    }
  }

  lemma ScannedOwed(mobs: Catalogue, quests: Progress, leaked: multiset<nat>, mob: nat)
    requires Aligned(mobs, quests)
    ensures forall m :: Owed(mobs, quests, leaked, m)
                        == Owed(mobs, Scanned(mobs, quests, mob), leaked, m)
                           + if m == mob then |Reached(mobs, quests, mob)| else 0
  {
    hide Owed, Bumped, Reaches;
    BumpSomeOwed(mobs, quests, leaked, mob, quests.Keys);
    assert BumpSome(mobs, quests, mob, quests.Keys) == Scanned(mobs, quests, mob);
    assert Reached(mobs, quests, mob) * quests.Keys == Reached(mobs, quests, mob);
  }

  lemma UnreferencedScan(mobs: Catalogue, quests: Progress, leaked: multiset<nat>, refs: map<nat, int>, mob: nat)
    requires Aligned(mobs, quests) && Counts(mobs, quests, leaked, refs) && mob !in refs
    ensures Scanned(mobs, quests, mob) == quests
  {
    hide Counts;
    forall q | q in quests
      ensures Bumped(mobs(q), quests[q], mob) == quests[q]
    {
      var i := FirstPending(mobs(q), quests[q], mob, 0);
      NotReferenced(mobs, quests, leaked, refs, q, i, mob);
    }
  }

  lemma SmoothForOne(mobs: Catalogue, before: Progress, after: Progress, leaked: multiset<nat>, mob: nat)
    requires forall m :: m != mob ==> Owed(mobs, before, leaked, m) == Owed(mobs, after, leaked, m)
    ensures Smooth(mobs, before, after, leaked)
            <==> NoWrap(Owed(mobs, after, leaked, mob), Owed(mobs, before, leaked, mob))
  {
    hide Owed, Harmless;
  }

  /** A scan keeps the counts right exactly if it takes none down to a positive multiple of 256, and then
      it has the effect of scanning unconditionally. */
  lemma ScanExactly(mobs: Catalogue, quests: Progress, leaked: multiset<nat>, refs: map<nat, int>, mob: nat)
    requires Aligned(mobs, quests) && Counts(mobs, quests, leaked, refs)
    ensures var r, after := ScanStep(mobs, quests, refs, mob), Scanned(mobs, quests, mob);
            if Smooth(mobs, quests, after, leaked) then
              r.Some? && r.value.0 == after && Counts(mobs, after, leaked, r.value.1)
            else
              r.None? || (mob !in r.value.1 && Owed(mobs, r.value.0, leaked, mob) > 0)
  {
    hide Owed, NoWrap, DropMany, Scanned, Reached, ToInt8;
    var after, d := Scanned(mobs, quests, mob), |Reached(mobs, quests, mob)|;
    ScannedOwed(mobs, quests, leaked, mob);
    SmoothForOne(mobs, quests, after, leaked, mob);
    var n := Owed(mobs, quests, leaked, mob);
    if mob in refs {
      DropManyExactly(refs, mob, n, d);
      if NoWrap(n - d, n) {
        var refs' := DropMany(refs, mob, d).value;
        forall m
          ensures var k := Owed(mobs, after, leaked, m);
                  (m in refs' <==> k > 0) && (m in refs' ==> refs'[m] == ToInt8(k))
        {
          assert Owed(mobs, quests, leaked, m) == Owed(mobs, after, leaked, m) + if m == mob then d else 0;
        }
      }
    } else {
      UnreferencedScan(mobs, quests, leaked, refs, mob);
      NoWrapGrows(n, n);
    }
  }

  /** A monster that is not referenced although something is owed for it stays so while others are scanned. */
  lemma StaysBroken(mobs: Catalogue, quests: Progress, leaked: multiset<nat>, refs: map<nat, int>, lost: nat, mob: nat)
    requires Aligned(mobs, quests) && lost != mob && lost !in refs && Owed(mobs, quests, leaked, lost) > 0
    ensures var r := ScanStep(mobs, quests, refs, mob);
            r.Some? ==> lost !in r.value.1 && Owed(mobs, r.value.0, leaked, lost) > 0
  {
    hide Owed, Scanned, Reached;
    ScannedOwed(mobs, quests, leaked, mob);
    DropsNoOther(refs, mob, |Reached(mobs, quests, mob)|, lost);
  }

  lemma {:induction false} DropsNoOther(refs: map<nat, int>, mob: nat, d: nat, m: nat)
    requires m != mob && m !in refs
    ensures DropMany(refs, mob, d).Some? ==> m !in DropMany(refs, mob, d).value
    decreases d
  {
    if d > 0 && mob in refs {
      DropsNoOther(DropRef(refs, mob), mob, d - 1, m);
    }
  }

  lemma KillExactly(mobs: Catalogue, quests: Progress, leaked: multiset<nat>, refs: map<nat, int>, id: nat)
    requires Aligned(mobs, quests) && Counts(mobs, quests, leaked, refs)
    ensures var r, after := KillStep(mobs, quests, refs, id), Killed(mobs, quests, id);
            if KillSmooth(mobs, quests, leaked, id) then
              r.Some? && r.value.0 == after && Counts(mobs, after, leaked, r.value.1)
            else
              r.None? || !Counts(mobs, r.value.0, leaked, r.value.1)
  {
    hide Owed, Scanned, ScanStep, Smooth, Counts;
    var group := GroupOf(id);
    if group == 0 {
      SmoothStay(mobs, quests, leaked);
      ScanExactly(mobs, quests, leaked, refs, id);
      BrokenCounts(mobs, leaked, ScanStep(mobs, quests, refs, id), id);
    } else {
      ScanExactly(mobs, quests, leaked, refs, group);
      var r := ScanStep(mobs, quests, refs, group);
      if Smooth(mobs, quests, Scanned(mobs, quests, group), leaked) {
        ScanExactly(mobs, r.value.0, leaked, r.value.1, id);
        BrokenCounts(mobs, leaked, ScanStep(mobs, r.value.0, r.value.1, id), id);
      } else if r.Some? {
        StaysBroken(mobs, r.value.0, leaked, r.value.1, group, id);
        BrokenCounts(mobs, leaked, ScanStep(mobs, r.value.0, r.value.1, id), group);
      }
    }
  }

  lemma SmoothStay(mobs: Catalogue, quests: Progress, leaked: multiset<nat>)
    ensures Smooth(mobs, quests, quests, leaked)
  {
  }

  lemma BrokenCounts(mobs: Catalogue, leaked: multiset<nat>, r: Option<(Progress, map<nat, int>)>, mob: nat)
    ensures r.Some? && mob !in r.value.1 && Owed(mobs, r.value.0, leaked, mob) > 0 ==>
              !Counts(mobs, r.value.0, leaked, r.value.1)
  {
    hide Owed;
  }

  // ---------- what quests leave behind ----------

  /** The monsters of the first `k` entries that are pending. */
  ghost function PendingIds(mobs: seq<Mob>, progress: seq<int>, k: nat): multiset<nat>
    requires k <= |mobs| == |progress|
  {
    if k == 0 then multiset{}
    else PendingIds(mobs, progress, k - 1)
         + if progress[k - 1] < mobs[k - 1].count then multiset{mobs[k - 1].id} else multiset{}
  }

  /** The monsters of the first `k` entries that ask for no kill at all. */
  ghost function IdleIds(mobs: seq<Mob>, k: nat): multiset<nat>
    requires k <= |mobs|
  {
    if k == 0 then multiset{}
    else IdleIds(mobs, k - 1) + if mobs[k - 1].count <= 0 then multiset{mobs[k - 1].id} else multiset{}
  }

  ghost function AllIds(mobs: seq<Mob>, k: nat): multiset<nat>
    requires k <= |mobs|
  {
    if k == 0 then multiset{} else AllIds(mobs, k - 1) + multiset{mobs[k - 1].id}
  }

  lemma Regroup(a: multiset<nat>, b: multiset<nat>, x: multiset<nat>)
    ensures (a + x) + b == (a + b) + x && a + (b + x) == (a + b) + x
  {
  }

  /** At the start every entry is either pending or asks for nothing. */
  lemma {:induction false} FreshIds(mobs: seq<Mob>, progress: seq<int>, k: nat)
    requires k <= |mobs| == |progress| && forall i :: 0 <= i < |progress| ==> progress[i] == 0
    ensures IdleIds(mobs, k) + PendingIds(mobs, progress, k) == AllIds(mobs, k)
  {
    if k > 0 {
      FreshIds(mobs, progress, k - 1);
      FreshId(mobs, progress, k);
      Regroup(IdleIds(mobs, k - 1), PendingIds(mobs, progress, k - 1), multiset{mobs[k - 1].id});
    }
  }

  lemma FreshId(mobs: seq<Mob>, progress: seq<int>, k: nat)
    requires 0 < k <= |mobs| == |progress| && progress[k - 1] == 0
    ensures var x := multiset{mobs[k - 1].id};
            || (&& IdleIds(mobs, k) == IdleIds(mobs, k - 1) + x
                && PendingIds(mobs, progress, k) == PendingIds(mobs, progress, k - 1))
            || (&& IdleIds(mobs, k) == IdleIds(mobs, k - 1)
                && PendingIds(mobs, progress, k) == PendingIds(mobs, progress, k - 1) + x)
  {
  }

  lemma {:induction false} AllIdsSize(mobs: seq<Mob>, k: nat)
    requires k <= |mobs|
    ensures |AllIds(mobs, k)| == k
  {
    if k > 0 {
      AllIdsSize(mobs, k - 1);
    }
  }

  lemma {:induction false} PendingIdsNone(mobs: seq<Mob>, progress: seq<int>, k: nat)
    requires k <= |mobs| == |progress|
    ensures PendingIds(mobs, progress, k) == multiset{} <==> forall i :: 0 <= i < k ==> progress[i] >= mobs[i].count
    ensures |PendingIds(mobs, progress, k)| <= k
  {
    if k > 0 {
      PendingIdsNone(mobs, progress, k - 1);
    }
  }

  lemma {:induction false} IdleIdsNone(mobs: seq<Mob>, k: nat)
    requires k <= |mobs|
    ensures IdleIds(mobs, k) == multiset{} <==> forall i :: 0 <= i < k ==> mobs[i].count > 0
    ensures |IdleIds(mobs, k)| <= k
  {
    if k > 0 {
      IdleIdsNone(mobs, k - 1);
    }
  }

  lemma IdleIdsStep(mobs: seq<Mob>, k: nat)
    requires k <= |mobs|
    ensures k == 0 ==> IdleIds(mobs, k) == multiset{}
    ensures k > 0 ==> IdleIds(mobs, k) == IdleIds(mobs, k - 1)
                                          + if mobs[k - 1].count <= 0 then multiset{mobs[k - 1].id} else multiset{}
  {
  }

  lemma FewOfEach(m: multiset<nat>, x: nat)
    ensures m[x] <= |m|
  {
    assert m == m[x := 0] + multiset{}[x := m[x]];
  }

  /** The progress list with its first `k` entries raised to their required counts. */
  ghost function Closed(mobs: seq<Mob>, progress: seq<int>, k: nat): (r: seq<int>)
    requires k <= |mobs| == |progress|
    ensures |r| == |progress|
  {
    seq(|progress|, i requires 0 <= i < |progress| =>
      if i < k && progress[i] < mobs[i].count then mobs[i].count else progress[i])
  }

  lemma CloseNothing(mobs: Catalogue, quests: Progress, qid: nat)
    requires Aligned(mobs, quests) && qid in quests
    ensures quests[qid := Closed(mobs(qid), quests[qid], 0)] == quests
  {
    assert Closed(mobs(qid), quests[qid], 0) == quests[qid];
  }

  lemma CloseEntry(mobs: Catalogue, quests: Progress, leaked: multiset<nat>, qid: nat, i: nat)
    requires Aligned(mobs, quests) && qid in quests && i < |mobs(qid)|
    ensures var before := quests[qid := Closed(mobs(qid), quests[qid], i)];
            var after := quests[qid := Closed(mobs(qid), quests[qid], i + 1)];
            if quests[qid][i] < mobs(qid)[i].count then Grows(mobs, after, leaked, before, leaked, mobs(qid)[i].id)
            else before == after
  {
    hide Owed;
    var before := quests[qid := Closed(mobs(qid), quests[qid], i)];
    var after := quests[qid := Closed(mobs(qid), quests[qid], i + 1)];
    if quests[qid][i] < mobs(qid)[i].count {
      assert Opens(mobs, after, before, qid, i, mobs(qid)[i].id);
      OpensGrows(mobs, after, before, leaked, qid, i, mobs(qid)[i].id);
    } else {
      assert Closed(mobs(qid), quests[qid], i) == Closed(mobs(qid), quests[qid], i + 1);
    }
  }

  lemma CloseAll(mobs: Catalogue, quests: Progress, leaked: multiset<nat>, qid: nat)
    requires Aligned(mobs, quests) && qid in quests
    ensures SameOwed(mobs, quests[qid := Closed(mobs(qid), quests[qid], |mobs(qid)|)], leaked, quests - {qid}, leaked)
  {
    hide Owed;
    SamePending(mobs, quests[qid := Closed(mobs(qid), quests[qid], |mobs(qid)|)], quests - {qid}, leaked);
  }

  /** Closing entries without taking their counts back loses exactly these counts. */
  lemma {:induction false} CloseLeaks(mobs: Catalogue, quests: Progress, leaked: multiset<nat>, qid: nat, k: nat)
    requires Aligned(mobs, quests) && qid in quests && k <= |mobs(qid)|
    ensures SameOwed(mobs, quests, leaked, quests[qid := Closed(mobs(qid), quests[qid], k)],
                     leaked + PendingIds(mobs(qid), quests[qid], k))
    decreases k
  {
    hide Closed, Owed, PendingIds;
    var progress := quests[qid];
    PendingIdsStep(mobs(qid), progress, k);
    if k == 0 {
      CloseNothing(mobs, quests, qid);
      assert leaked + multiset{} == leaked;
    } else {
      CloseLeaks(mobs, quests, leaked, qid, k - 1);
      CloseEntry(mobs, quests, leaked, qid, k - 1);
      var before := quests[qid := Closed(mobs(qid), progress, k - 1)];
      var after := quests[qid := Closed(mobs(qid), progress, k)];
      var ids, ids' := PendingIds(mobs(qid), progress, k - 1), PendingIds(mobs(qid), progress, k);
      forall m
        ensures Owed(mobs, after, leaked + ids', m) == Owed(mobs, quests, leaked, m)
      {
        OwedMore(mobs, before, leaked, ids, m);
        OwedMore(mobs, after, leaked, ids', m);
      }
    }
  }

  lemma PendingIdsStep(mobs: seq<Mob>, progress: seq<int>, k: nat)
    requires k <= |mobs| == |progress|
    ensures k == 0 ==> PendingIds(mobs, progress, k) == multiset{}
    ensures k > 0 ==> PendingIds(mobs, progress, k)
                      == PendingIds(mobs, progress, k - 1)
                         + if progress[k - 1] < mobs[k - 1].count then multiset{mobs[k - 1].id} else multiset{}
  {
  }

  lemma OwedMore(mobs: Catalogue, quests: Progress, leaked: multiset<nat>, more: multiset<nat>, m: nat)
    ensures Owed(mobs, quests, leaked + more, m) == Owed(mobs, quests, leaked, m) + more[m]
  {
  }

  /** Dropping a quest without touching the counts loses the counts of its pending entries. */
  lemma DropLeaks(mobs: Catalogue, quests: Progress, leaked: multiset<nat>, qid: nat)
    requires Aligned(mobs, quests) && qid in quests
    ensures SameOwed(mobs, quests, leaked, quests - {qid},
                     leaked + PendingIds(mobs(qid), quests[qid], |mobs(qid)|))
  {
    hide Owed, Closed, PendingIds;
    var ids := PendingIds(mobs(qid), quests[qid], |mobs(qid)|);
    CloseLeaks(mobs, quests, leaked, qid, |mobs(qid)|);
    CloseAll(mobs, quests, leaked + ids, qid);
  }

  lemma StartNothing(mobs: Catalogue, quests: Progress, leaked: multiset<nat>, qid: nat)
    requires qid !in quests
    ensures SameOwed(mobs, quests, leaked, quests[qid := []], leaked)
  {
    hide Owed;
    SamePending(mobs, quests, quests[qid := []], leaked);
  }

  /** Adding an entry with no progress owes one more; if it asks for no kill, that count is lost at once. */
  lemma StartEntry(mobs: Catalogue, quests: Progress, progress: seq<int>, leaked: multiset<nat>, qid: nat)
    requires |progress| < |mobs(qid)|
    ensures var mob := mobs(qid)[|progress|];
            Grows(mobs, quests[qid := progress], leaked, quests[qid := progress + [0]],
                  leaked + (if mob.count <= 0 then multiset{mob.id} else multiset{}), mob.id)
  {
    hide PendingSet;
    var i, before, after := |progress|, quests[qid := progress], quests[qid := progress + [0]];
    if mobs(qid)[i].count > 0 {
      assert Opens(mobs, before, after, qid, i, mobs(qid)[i].id);
      OpensGrows(mobs, before, after, leaked, qid, i, mobs(qid)[i].id);
    } else {
      SamePending(mobs, before, after, leaked);
    }
  }

  // ---------- what a forfeit does to the counts ----------

  /** Taking off a reference for every pending entry among the first `k`. */
  ghost function DropPending(refs: map<nat, int>, mobs: seq<Mob>, progress: seq<int>, k: nat): Option<map<nat, int>>
    requires k <= |mobs| == |progress|
  {
    if k == 0 then Some(refs)
    else
      match DropPending(refs, mobs, progress, k - 1)
      case None => None
      case Some(r) =>
        if progress[k - 1] >= mobs[k - 1].count then Some(r)
        else if mobs[k - 1].id in r then Some(DropRef(r, mobs[k - 1].id))
        else None
  }

  lemma SmoothStep(mobs: Catalogue, start: Progress, before: Progress, after: Progress, leaked: multiset<nat>, mob: nat)
    requires Grows(mobs, after, leaked, before, leaked, mob)
    requires forall m :: Owed(mobs, before, leaked, m) <= Owed(mobs, start, leaked, m)
    ensures Smooth(mobs, start, after, leaked)
            <==> Smooth(mobs, start, before, leaked) && Harmless(Owed(mobs, after, leaked, mob))
  {
    hide Owed, Harmless, NoWrap;
    forall m
      ensures NoWrap(Owed(mobs, after, leaked, m), Owed(mobs, start, leaked, m))
              <==> NoWrap(Owed(mobs, before, leaked, m), Owed(mobs, start, leaked, m))
                   && (m == mob ==> Harmless(Owed(mobs, after, leaked, mob)))
    {
      NoWrapGrows(Owed(mobs, after, leaked, m), Owed(mobs, start, leaked, m));
    }
  }

  lemma {:induction false} DropPendingExactly(mobs: Catalogue, quests: Progress, leaked: multiset<nat>,
                                              refs: map<nat, int>, qid: nat, k: nat)
    requires Aligned(mobs, quests) && Counts(mobs, quests, leaked, refs) && qid in quests && k <= |mobs(qid)|
    ensures var r := DropPending(refs, mobs(qid), quests[qid], k);
            var after := quests[qid := Closed(mobs(qid), quests[qid], k)];
            && (forall m :: Owed(mobs, after, leaked, m) <= Owed(mobs, quests, leaked, m))
            && if Smooth(mobs, quests, after, leaked) then r.Some? && Counts(mobs, after, leaked, r.value)
               else r.None? || Broken(mobs, after, leaked, r.value)
    decreases k
  {
    hide Owed, Closed, Smooth, Harmless, Counts;
    if k == 0 {
      CloseNothing(mobs, quests, qid);
      SmoothStay(mobs, quests, leaked);
    } else {
      DropPendingExactly(mobs, quests, leaked, refs, qid, k - 1);
      CloseEntry(mobs, quests, leaked, qid, k - 1);
      var before := quests[qid := Closed(mobs(qid), quests[qid], k - 1)];
      var after := quests[qid := Closed(mobs(qid), quests[qid], k)];
      var mob, r := mobs(qid)[k - 1], DropPending(refs, mobs(qid), quests[qid], k - 1);
      if quests[qid][k - 1] < mob.count {
        SmoothStep(mobs, quests, before, after, leaked, mob.id);
        if r.Some? {
          DropOneExactly(mobs, before, after, leaked, r.value, mob.id);
        }
      }
    }
  }

  lemma DropOneExactly(mobs: Catalogue, before: Progress, after: Progress, leaked: multiset<nat>,
                       refs: map<nat, int>, mob: nat)
    requires Grows(mobs, after, leaked, before, leaked, mob)
    requires Counts(mobs, before, leaked, refs) || Broken(mobs, before, leaked, refs)
    ensures Counts(mobs, before, leaked, refs) ==>
              && mob in refs
              && if Harmless(Owed(mobs, after, leaked, mob)) then Counts(mobs, after, leaked, DropRef(refs, mob))
                 else Broken(mobs, after, leaked, DropRef(refs, mob))
    ensures Broken(mobs, before, leaked, refs) && mob in refs ==> Broken(mobs, after, leaked, DropRef(refs, mob))
  {
    hide Owed, ToInt8;
    if Counts(mobs, before, leaked, refs) {
      DropRefExactly(mobs, before, leaked, after, leaked, refs, mob);
    }
    if m :| m !in refs && Owed(mobs, before, leaked, m) > 0 {
      assert m != mob ==> Owed(mobs, after, leaked, m) == Owed(mobs, before, leaked, m);
    }
  }

  /** A forfeit keeps the counts right exactly if it takes none down to a positive multiple of 256. */
  lemma ForfeitExactly(mobs: Catalogue, quests: Progress, leaked: multiset<nat>, refs: map<nat, int>, qid: nat)
    requires Aligned(mobs, quests) && Counts(mobs, quests, leaked, refs) && qid in quests
    ensures var r := DropPending(refs, mobs(qid), quests[qid], |mobs(qid)|);
            if Smooth(mobs, quests, quests - {qid}, leaked) then
              r.Some? && Counts(mobs, quests - {qid}, leaked, r.value)
            else
              r.None? || !Counts(mobs, quests - {qid}, leaked, r.value)
  {
    hide Owed, Closed, NoWrap, DropPending, ToInt8;
    var closed, after := quests[qid := Closed(mobs(qid), quests[qid], |mobs(qid)|)], quests - {qid};
    DropPendingExactly(mobs, quests, leaked, refs, qid, |mobs(qid)|);
    CloseAll(mobs, quests, leaked, qid);
    assert Smooth(mobs, quests, closed, leaked) <==> Smooth(mobs, quests, after, leaked);
  }
}
