/** The quests of a character with the reference counts of monsters, and whole runs of quest events. */
module Quests {
  import opened Common
  import opened QuestCounts

  class QuestLog {
    const mobs: Catalogue
    var quests: Progress
    var refs: map<nat, int>
    ghost var leaked: multiset<nat>  // counts whose entries are gone or never were pending

    /** Every active quest has a progress for each of its entries. */
    ghost predicate Shaped()
      reads this
    {
      WellFormed(mobs) && Aligned(mobs, quests)
    }

    /** The counts are what is pending and what was lost. */
    ghost predicate Valid()
      reads this
    {
      Shaped() && Counts(mobs, quests, leaked, refs)
    }

    ghost predicate ExactNow()
      reads this
    {
      Exact(mobs, quests, refs)
    }

    constructor (catalogue: Catalogue)
      requires WellFormed(catalogue)
      ensures Valid() && ExactNow() && mobs == catalogue && quests == map[] && refs == map[] && leaked == multiset{}
    {
      mobs, quests, refs, leaked := catalogue, map[], map[], multiset{};
    }

    /** Starts a quest unless it is active: counts every entry, adds the quest, and runs its start actions.
        When these fail the quest is taken out again but the counts stay. */
    method Start(qid: nat, actionsSucceed: bool)
      requires Shaped()
      modifies this
      ensures Shaped() && (old(Valid()) ==> Valid())
      ensures if qid in old(quests) then quests == old(quests) && refs == old(refs) && leaked == old(leaked)
              else if actionsSucceed then
                && quests == old(quests)[qid := seq(|mobs(qid)|, _ => 0)]
                && leaked == old(leaked) + IdleIds(mobs(qid), |mobs(qid)|)
              else quests == old(quests) && leaked == old(leaked) + AllIds(mobs(qid), |mobs(qid)|)
      ensures qid !in old(quests) && old(Valid()) && old(leaked) == multiset{} ==>
                (ExactNow() <==> if actionsSucceed then forall i :: 0 <= i < |mobs(qid)| ==> mobs(qid)[i].count > 0
                                 else mobs(qid) == [])
    {
      hide Counts, IdleIds, AllIds, PendingIds;
      if qid in quests {
        return;
      }
      CountEntries(qid);
      var progress := seq(|mobs(qid)|, _ => 0);
      IdleIdsNone(mobs(qid), |mobs(qid)|);
      if !actionsSucceed {
        FreshIds(mobs(qid), progress, |mobs(qid)|);
        AllIdsSize(mobs(qid), |mobs(qid)|);
        DropLeaks(mobs, quests, leaked, qid);
        ghost var lost := leaked + PendingIds(mobs(qid), progress, |mobs(qid)|);
        if Counts(mobs, quests, leaked, refs) {
          SameCounts(mobs, quests, leaked, quests - {qid}, lost, refs);
        }
        quests := quests - {qid};
        leaked := lost;
        assert quests == old(quests);
      }
      if old(Valid()) && old(leaked) == multiset{} {
        forall m
          ensures leaked[m] < 0x100
        {
          FewOfEach(leaked, m);
        }
        ExactIfNothingLeaked(mobs, quests, leaked, refs);
      }
    }

    /** The loop of a start: a reference for every entry, and no progress. */
    method CountEntries(qid: nat)
      requires Shaped() && qid !in quests
      modifies this
      ensures Shaped() && (old(Valid()) ==> Valid())
      ensures quests == old(quests)[qid := seq(|mobs(qid)|, _ => 0)]
      ensures leaked == old(leaked) + IdleIds(mobs(qid), |mobs(qid)|)
    {
      hide Counts, Grows, SameOwed, IdleIds, AddRef;
      var entries, progress: seq<int> := mobs(qid), [];
      IdleIdsStep(entries, 0);
      ghost var lost, right := leaked, Valid();
      StartNothing(mobs, quests, leaked, qid);
      if right {
        SameCounts(mobs, quests, leaked, quests[qid := []], leaked, refs);
      }
      for i := 0 to |entries|
        invariant quests == old(quests) && |progress| == i && forall k :: 0 <= k < i ==> progress[k] == 0
        invariant lost == old(leaked) + IdleIds(entries, i)
        invariant right ==> Counts(mobs, quests[qid := progress], lost, refs)
      {
        var id := entries[i].id;
        ghost var lost' := lost + if entries[i].count <= 0 then multiset{id} else multiset{};
        IdleIdsStep(entries, i + 1);
        assert lost' == old(leaked) + IdleIds(entries, i + 1);
        StartEntry(mobs, quests, progress, lost, qid);
        if right {
          AddRefOk(mobs, quests[qid := progress], lost, quests[qid := progress + [0]], lost', refs, id);
        }
        refs := AddRef(refs, id);
        progress, lost := progress + [0], lost';
      }
      quests := quests[qid := progress];
      leaked := lost;
      assert progress == seq(|mobs(qid)|, _ => 0);
    }

    /** One quest's share of a kill; it fails at a reference that is missing. */
    method CheckProgress(q: nat, mob: nat) returns (ok: bool)
      requires Shaped() && q in quests
      modifies this`quests, this`refs
      ensures Shaped() && quests == old(quests)[q := Bumped(mobs(q), old(quests[q]), mob)]
      ensures EntriesCounted(mobs(q), old(quests[q]), quests[q], mob)
      ensures if Reaches(mobs(q), old(quests[q]), mob) then
                (ok <==> mob in old(refs)) && (ok ==> refs == DropRef(old(refs), mob))
              else ok && refs == old(refs)
    {
      hide DropRef, EntriesCounted;
      ok := true;
      var entries, progress := mobs(q), quests[q];
      BumpedIsCounted(entries, progress, mob);
      ghost var before := quests;
      for i := 0 to |entries|
        invariant ok && quests == before && refs == old(refs)
        invariant FirstPending(entries, progress, mob, 0) == FirstPending(entries, progress, mob, i)
      {
        if entries[i].id == mob && progress[i] < entries[i].count {
          quests := quests[q := progress[i := progress[i] + 1]];
          if progress[i] + 1 == entries[i].count {
            if mob !in refs {
              return false;
            }
            refs := DropRef(refs, mob);
          }
          return;
        }
      }
      assert quests == before[q := progress];
    }

    /** Walks over all active quests in whatever order the set yields them. */
    method Scan(mob: nat) returns (ok: bool)
      requires Shaped()
      modifies this`quests, this`refs
      ensures Shaped()
      ensures var d := |Reached(mobs, old(quests), mob)|;
              && (ok <==> DropMany(old(refs), mob, d).Some?)
              && (ok ==> quests == Scanned(mobs, old(quests), mob) && Some(refs) == DropMany(old(refs), mob, d))
    {
      hide Walked, DropMany, Scanned, Reached;
      var todo := quests.Keys;
      ghost var before := quests;
      ghost var all := DropMany(refs, mob, |Reached(mobs, quests, mob)|);
      WalkStarts(mobs, quests, mob);
      ok := true;
      while todo != {}
        invariant ok && Shaped() && Walked(mobs, before, quests, todo, mob)
        invariant all == DropMany(refs, mob, |Reached(mobs, before, mob) * todo|)
        decreases |todo|
      {
        var q :| q in todo;
        ok := ScanNext(q, mob, before, todo, all);
        if !ok {
          return;
        }
        todo := todo - {q};
      }
      WalkEnds(mobs, before, quests, mob);
      DropManyStep(refs, mob, 0);
    }

    method ScanNext(q: nat, mob: nat, ghost before: Progress, ghost todo: set<nat>, ghost all: Option<map<nat, int>>)
      returns (ok: bool)
      requires Shaped() && Aligned(mobs, before) && Walked(mobs, before, quests, todo, mob) && q in todo
      requires all == DropMany(refs, mob, |Reached(mobs, before, mob) * todo|)
      modifies this`quests, this`refs
      ensures Shaped() && Walked(mobs, before, quests, todo - {q}, mob)
      ensures if ok then all == DropMany(refs, mob, |Reached(mobs, before, mob) * (todo - {q})|) else all == None
    {
      hide Bumped, Reaches, DropRef, DropMany, Reached, Walked;
      ghost var now := quests;
      WalkStep(mobs, before, now, todo, q, mob);
      DropManyStep(refs, mob, |Reached(mobs, before, mob) * todo|);
      OneFewer(Reached(mobs, before, mob), todo, q);
      ok := CheckProgress(q, mob);
    }

    /** A monster was killed: the scans are skipped when nobody references the id. As long as no count is
        taken down to a positive multiple of 256 the outcome is the same as if they never were, and exactly
        then the counts stay right. */
    method Kill(id: nat) returns (ok: bool)
      requires Shaped()
      modifies this`quests, this`refs
      ensures Shaped()
      ensures var r := KillStep(mobs, old(quests), old(refs), id);
              (ok <==> r.Some?) && (ok ==> (quests, refs) == r.value)
      ensures old(Valid()) ==> (ok && Valid() <==> KillSmooth(mobs, old(quests), leaked, id))
      ensures old(Valid()) && KillSmooth(mobs, old(quests), leaked, id) ==> quests == Killed(mobs, old(quests), id)
      ensures old(Valid()) && KillSmooth(mobs, old(quests), leaked, id) ==>
                if GroupOf(id) == 0 then Counted(mobs, old(quests), quests, id)
                else exists mid :: Aligned(mobs, mid) && Counted(mobs, old(quests), mid, GroupOf(id))
                                   && Counted(mobs, mid, quests, id)
    {
      hide Counts, Scanned, KillSmooth, Reached, DropMany, Killed, Counted;
      KilledIsCounted(mobs, quests, id);
      if Valid() {
        KillExactly(mobs, quests, leaked, refs, id);
      }
      var group := GroupOf(id);
      ok := true;
      if group != 0 && group in refs {
        ok := Scan(group);
        if !ok {
          return;
        }
      }
      if id in refs {
        ok := Scan(id);
      }
    }

    /** Gives up a quest, taking back a count for every entry that is still pending. */
    method Forfeit(qid: nat) returns (ok: bool)
      requires Shaped()
      modifies this`quests, this`refs
      ensures Shaped() && (ok ==> quests == old(quests) - {qid})
      ensures qid !in old(quests) ==> ok && refs == old(refs)
      ensures qid in old(quests) ==>
                var r := DropPending(old(refs), mobs(qid), old(quests[qid]), |mobs(qid)|);
                (ok <==> r.Some?) && (ok ==> refs == r.value)
      ensures old(Valid()) ==> (ok && Valid() <==> Smooth(mobs, old(quests), old(quests) - {qid}, leaked))
    {
      hide Counts, Smooth, DropRef;
      ok := true;
      if qid !in quests {
        assert quests - {qid} == quests;
        SmoothStay(mobs, quests, leaked);
        return;
      }
      if Valid() {
        ForfeitExactly(mobs, quests, leaked, refs, qid);
      }
      var entries, progress := mobs(qid), quests[qid];
      ghost var all := DropPending(refs, entries, progress, |entries|);
      for i := 0 to |entries|
        invariant quests == old(quests) && DropPending(old(refs), entries, progress, i) == Some(refs)
      {
        if progress[i] < entries[i].count {
          if entries[i].id !in refs {
            NothingAfter(old(refs), entries, progress, i + 1);
            return false;
          }
          refs := DropRef(refs, entries[i].id);
        }
      }
      quests := quests - {qid};
    }

    /** Completes an active quest if its end actions succeed. The counts are not touched, so they
        stay exact if and only if every entry has been met. */
    method End(qid: nat, actionsSucceed: bool)
      requires Shaped()
      modifies this`quests, this`leaked
      ensures Shaped() && (old(Valid()) ==> Valid())
      ensures if qid in old(quests) && actionsSucceed then
                && quests == old(quests) - {qid}
                && leaked == old(leaked) + PendingIds(mobs(qid), old(quests[qid]), |mobs(qid)|)
              else quests == old(quests) && leaked == old(leaked)
      ensures qid in old(quests) && actionsSucceed && old(Valid()) && old(leaked) == multiset{} ==>
                (ExactNow() <==> forall i :: 0 <= i < |mobs(qid)| ==> old(quests[qid])[i] >= mobs(qid)[i].count)
    {
      hide Counts, PendingIds;
      if qid !in quests || !actionsSucceed {
        return;
      }
      DropLeaks(mobs, quests, leaked, qid);
      ghost var lost := leaked + PendingIds(mobs(qid), quests[qid], |mobs(qid)|);
      if Valid() {
        SameCounts(mobs, quests, leaked, quests - {qid}, lost, refs);
      }
      PendingIdsNone(mobs(qid), quests[qid], |mobs(qid)|);
      quests := quests - {qid};
      leaked := lost;
      if old(Valid()) && old(leaked) == multiset{} {
        forall m
          ensures leaked[m] < 0x100
        {
          FewOfEach(leaked, m);
        }
        ExactIfNothingLeaked(mobs, quests, leaked, refs);
      }
    }
  }

  /** All quests but those in `todo` have been scanned. */
  ghost predicate Walked(mobs: Catalogue, before: Progress, now: Progress, todo: set<nat>, mob: nat)
    requires Aligned(mobs, before)
  {
    && todo <= now.Keys == before.Keys
    && forall q :: q in now ==> now[q] == if q in todo then before[q] else Bumped(mobs(q), before[q], mob)
  }

  lemma WalkStarts(mobs: Catalogue, quests: Progress, mob: nat)
    requires Aligned(mobs, quests)
    ensures Walked(mobs, quests, quests, quests.Keys, mob)
    ensures Reached(mobs, quests, mob) * quests.Keys == Reached(mobs, quests, mob)
  {
    hide Reaches;
  }

  lemma WalkStep(mobs: Catalogue, before: Progress, now: Progress, todo: set<nat>, q: nat, mob: nat)
    requires Aligned(mobs, before) && Walked(mobs, before, now, todo, mob) && q in todo
    ensures q in now && q in before && now[q] == before[q]
    ensures q in Reached(mobs, before, mob) <==> Reaches(mobs(q), now[q], mob)
    ensures Walked(mobs, before, now[q := Bumped(mobs(q), now[q], mob)], todo - {q}, mob)
  {
    hide Bumped, Reaches;
  }

  lemma WalkEnds(mobs: Catalogue, before: Progress, after: Progress, mob: nat)
    requires Aligned(mobs, before) && Walked(mobs, before, after, {}, mob)
    ensures after == Scanned(mobs, before, mob)
    ensures Reached(mobs, before, mob) * {} == {}
  {
    hide Bumped;
  }

  lemma OneFewer(reached: set<nat>, todo: set<nat>, q: nat)
    requires q in todo
    ensures |reached * todo| == |reached * (todo - {q})| + if q in reached then 1 else 0
  {
    if q in reached {
      assert reached * todo == reached * (todo - {q}) + {q};
    } else {
      assert reached * todo == reached * (todo - {q});
    }
  }

  lemma {:induction false} NothingAfter(refs: map<nat, int>, mobs: seq<Mob>, progress: seq<int>, k: nat)
    requires k <= |mobs| == |progress| && DropPending(refs, mobs, progress, k).None?
    ensures DropPending(refs, mobs, progress, |mobs|).None?
    decreases |mobs| - k
  {
    if k < |mobs| {
      NothingAfter(refs, mobs, progress, k + 1);
    }
  }

  // ---------- whole runs ----------

  datatype Event =
    | Started(quest: nat, succeeds: bool)
    | MonsterKilled(id: nat)
    | Forfeited(quest: nat)
    | Ended(quest: nat, succeeds: bool)

  /** The active quests, and the counts that were lost on the way. */
  datatype State = State(quests: Progress, leaked: multiset<nat>)

  /** The same events without reference counts: the quests never depend on what was lost, and every
      kill scans every quest. */
  ghost function Reference(mobs: Catalogue, st: State, e: Event): (r: State)
    requires Aligned(mobs, st.quests)
    ensures Aligned(mobs, r.quests)
  {
    match e
    case Started(q, ok) =>
      if q in st.quests then st
      else if ok then State(st.quests[q := seq(|mobs(q)|, _ => 0)], st.leaked + IdleIds(mobs(q), |mobs(q)|))
      else st.(leaked := st.leaked + AllIds(mobs(q), |mobs(q)|))
    case MonsterKilled(id) => st.(quests := Killed(mobs, st.quests, id))
    case Forfeited(q) => st.(quests := st.quests - {q})
    case Ended(q, ok) =>
      if q in st.quests && ok then
        State(st.quests - {q}, st.leaked + PendingIds(mobs(q), st.quests[q], |mobs(q)|))
      else st
  }

  ghost function ReferenceRun(mobs: Catalogue, events: seq<Event>): (r: State)
    ensures Aligned(mobs, r.quests)
  {
    if events == [] then State(map[], multiset{})
    else Reference(mobs, ReferenceRun(mobs, events[..|events| - 1]), events[|events| - 1])
  }

  /** The event takes no count down to a positive multiple of 256. */
  ghost predicate SmoothEvent(mobs: Catalogue, st: State, e: Event)
    requires Aligned(mobs, st.quests)
  {
    match e
    case MonsterKilled(id) => KillSmooth(mobs, st.quests, st.leaked, id)
    case Forfeited(q) => Smooth(mobs, st.quests, st.quests - {q}, st.leaked)
    case _ => true
  }

  ghost predicate SmoothRun(mobs: Catalogue, events: seq<Event>) {
    events == [] ||
    var n := |events| - 1;
    SmoothRun(mobs, events[..n]) && SmoothEvent(mobs, ReferenceRun(mobs, events[..n]), events[n])
  }

  /** An event that loses no counts: a start that succeeds with every entry asking for a kill, or fails
      with none to count, and an ending with every entry met. */
  ghost predicate Clean(mobs: Catalogue, st: State, e: Event)
    requires Aligned(mobs, st.quests)
  {
    match e
    case Started(q, ok) =>
      q in st.quests || if ok then forall i :: 0 <= i < |mobs(q)| ==> mobs(q)[i].count > 0 else mobs(q) == []
    case Ended(q, ok) =>
      q !in st.quests || !ok || forall i :: 0 <= i < |mobs(q)| ==> st.quests[q][i] >= mobs(q)[i].count
    case _ => true
  }

  ghost predicate CleanRun(mobs: Catalogue, events: seq<Event>) {
    forall n :: 0 <= n < |events| ==> Clean(mobs, ReferenceRun(mobs, events[..n]), events[n])
  }

  method Perform(log: QuestLog, e: Event) returns (ok: bool)
    requires log.Shaped()
    modifies log
    ensures log.Shaped()
    ensures old(log.Valid()) ==>
              var st := State(old(log.quests), old(log.leaked));
              && (ok && log.Valid() <==> SmoothEvent(log.mobs, st, e))
              && (ok && log.Valid() ==> State(log.quests, log.leaked) == Reference(log.mobs, st, e))
  {
    hide Counts, Smooth, KillSmooth, KillStep, Killed, WellFormed, IdleIds, AllIds, PendingIds, Exact, DropPending;
    ok := true;
    match e {
      case Started(q, succeeds) => log.Start(q, succeeds);
      case MonsterKilled(id) => ok := log.Kill(id);
      case Forfeited(q) => ok := log.Forfeit(q);
      case Ended(q, succeeds) => log.End(q, succeeds);
    }
  }

  /** In every run, failed starts and unmet endings included: the counts stay right throughout if and only if no
      count is ever taken down to a positive multiple of 256. Then the quests evolve as without reference
      counts, and if nothing was lost every count is exact. */
  method Play(mobs: Catalogue, events: seq<Event>) returns (log: QuestLog, ghost right: bool)
    requires WellFormed(mobs)
    ensures log.mobs == mobs
    ensures right <==> SmoothRun(mobs, events)
    ensures right ==> log.Valid() && State(log.quests, log.leaked) == ReferenceRun(mobs, events)
    ensures right && CleanRun(mobs, events) ==> log.ExactNow()
  {
    hide Counts, WellFormed, CleanRun, Exact, SmoothEvent, Reference, ReferenceRun, SmoothRun;
    log := new QuestLog(mobs);
    right := true;
    RunStarts(mobs);
    assert events[..0] == [] && events[..|events|] == events;
    for i := 0 to |events|
      invariant fresh(log) && log.mobs == mobs && log.Shaped()
      invariant right <==> SmoothRun(mobs, events[..i])
      invariant right ==> log.Valid() && State(log.quests, log.leaked) == ReferenceRun(mobs, events[..i])
    {
      RunStep(mobs, events, i);
      var ok := Perform(log, events[i]);
      right := right && ok && log.Valid();
      if !ok {
        SmoothPrefix(mobs, events, i + 1);
        return;
      }
    }
    if right && CleanRun(mobs, events) {
      CleanRunLosesNothing(mobs, events);
      ExactNowIf(log);
    }
  }

  lemma RunStarts(mobs: Catalogue)
    ensures ReferenceRun(mobs, []) == State(map[], multiset{}) && SmoothRun(mobs, [])
  {
  }

  lemma RunStep(mobs: Catalogue, events: seq<Event>, i: nat)
    requires i < |events|
    ensures var st := ReferenceRun(mobs, events[..i]);
            && ReferenceRun(mobs, events[..i + 1]) == Reference(mobs, st, events[i])
            && (SmoothRun(mobs, events[..i + 1]) <==> SmoothRun(mobs, events[..i]) && SmoothEvent(mobs, st, events[i]))
  {
    hide SmoothEvent, Reference;
    assert events[..i + 1][..i] == events[..i];
  }

  lemma {:induction false} SmoothPrefix(mobs: Catalogue, events: seq<Event>, i: nat)
    requires i <= |events|
    ensures SmoothRun(mobs, events) ==> SmoothRun(mobs, events[..i])
    decreases |events| - i
  {
    hide SmoothRun, ReferenceRun, SmoothEvent;
    if i < |events| {
      SmoothPrefix(mobs, events, i + 1);
      RunStep(mobs, events, i);
    } else {
      assert events[..i] == events;
    }
  }

  lemma ExactNowIf(log: QuestLog)
    requires log.Valid() && log.leaked == multiset{}
    ensures log.ExactNow()
  {
  }

  lemma {:induction false} CleanRunLosesNothing(mobs: Catalogue, events: seq<Event>)
    requires CleanRun(mobs, events)
    ensures ReferenceRun(mobs, events).leaked == multiset{}
  {
    hide Killed, IdleIds, AllIds, PendingIds;
    if events != [] {
      var n := |events| - 1;
      CleanPrefix(mobs, events, n);
      CleanRunLosesNothing(mobs, events[..n]);
      var st := ReferenceRun(mobs, events[..n]);
      assert Clean(mobs, st, events[n]);
      match events[n] {
        case Started(q, ok) =>
          IdleIdsNone(mobs(q), |mobs(q)|);
          NoIds(mobs(q));
        case Ended(q, _) =>
          if q in st.quests {
            PendingIdsNone(mobs(q), st.quests[q], |mobs(q)|);
          }
        case _ =>
      }
    }
  }

  lemma NoIds(mobs: seq<Mob>)
    ensures mobs == [] ==> AllIds(mobs, |mobs|) == multiset{}
  {
  }

  lemma CleanPrefix(mobs: Catalogue, events: seq<Event>, n: nat)
    requires CleanRun(mobs, events) && n <= |events|
    ensures CleanRun(mobs, events[..n])
  {
    hide Clean, ReferenceRun;
    forall k | 0 <= k < n
      ensures Clean(mobs, ReferenceRun(mobs, events[..n][..k]), events[..n][k])
    {
      assert events[..n][..k] == events[..k];
    }
  }

  // ---------- when 256 is never reached ----------

  ghost predicate AsksFor(mobs: Catalogue, mob: nat, entry: (nat, nat)) {
    entry.1 < |mobs(entry.0)| && mobs(entry.0)[entry.1].id == mob
  }

  /** No monster is asked for by more than 256 entries of all quests together. */
  ghost predicate Sparse(mobs: Catalogue) {
    forall mob, entries: set<(nat, nat)> :: AllAsk(mobs, mob, entries) ==> |entries| <= 0x100
  }

  ghost predicate AllAsk(mobs: Catalogue, mob: nat, entries: set<(nat, nat)>) {
    forall e :: e in entries ==> AsksFor(mobs, mob, e)
  }

  /** With such quests the counts stay right in every run that loses nothing. */
  lemma {:induction false} CleanRunIsSmooth(mobs: Catalogue, events: seq<Event>)
    requires Sparse(mobs) && CleanRun(mobs, events)
    ensures SmoothRun(mobs, events)
  {
    hide CleanRun, Sparse, SmoothEvent, ReferenceRun;
    if events != [] {
      var n := |events| - 1;
      CleanPrefix(mobs, events, n);
      CleanRunIsSmooth(mobs, events[..n]);
      CleanRunLosesNothing(mobs, events[..n]);
      SparseEventIsSmooth(mobs, ReferenceRun(mobs, events[..n]), events[n]);
    }
  }

  lemma SparseEventIsSmooth(mobs: Catalogue, st: State, e: Event)
    requires Sparse(mobs) && Aligned(mobs, st.quests) && st.leaked == multiset{}
    ensures SmoothEvent(mobs, st, e)
  {
    hide Sparse, Smooth, Scanned;
    match e {
      case MonsterKilled(id) =>
        var mid := if GroupOf(id) == 0 then st.quests else Scanned(mobs, st.quests, GroupOf(id));
        SparseIsSmooth(mobs, st.quests, mid);
        SparseIsSmooth(mobs, mid, Scanned(mobs, mid, id));
      case Forfeited(q) => SparseIsSmooth(mobs, st.quests, st.quests - {q});
      case _ =>
    }
  }

  lemma SparseIsSmooth(mobs: Catalogue, before: Progress, after: Progress)
    requires Sparse(mobs)
    ensures Smooth(mobs, before, after, multiset{})
  {
    forall mob
      ensures |PendingSet(mobs, before, mob)| <= 0x100
    {
      assert AllAsk(mobs, mob, PendingSet(mobs, before, mob));
    }
  }

  // ---------- kills that count ----------

  function TwoKinds(q: nat): seq<Mob> {
    if q == 1 then [Mob(100100, 10), Mob(1210100, 10)] else []
  }

  lemma TwoKindsOwed(leaked: multiset<nat>, refs: map<nat, int>)
    requires leaked == multiset{} && Counts(TwoKinds, map[1 := [0, 0]], leaked, refs)
    ensures 1210100 in refs
  {
    var quests := map[1 := [0, 0]];
    assert Pending(TwoKinds, quests, 1, 1, 1210100);
    assert (1, 1) in PendingSet(TwoKinds, quests, 1210100);
    assert Owed(TwoKinds, quests, leaked, 1210100) > 0;
  }

  lemma SecondKindCounts(refs: map<nat, int>)
    requires 1210100 in refs
    ensures KillStep(TwoKinds, map[1 := [0, 0]], refs, 1210100) == Some((map[1 := [0, 1]], refs))
  {
    hide Scanned, Reached, DropMany;
    SecondKindBumped();
    DropManyStep(refs, 1210100, 0);
  }

  lemma SecondKindBumped()
    ensures Scanned(TwoKinds, map[1 := [0, 0]], 1210100) == map[1 := [0, 1]]
    ensures Reached(TwoKinds, map[1 := [0, 0]], 1210100) == {}
  {
    assert Bumped(TwoKinds(1), [0, 0], 1210100) == [0, 1];
  }

  /** The kill of the second kind of monster a quest asks for counts for the second entry. */
  method KillOfSecondKind() returns (log: QuestLog)
    ensures fresh(log) && log.quests == map[1 := [0, 1]]
  {
    hide Counts, KillStep, Exact, KillSmooth, Killed, Counted;
    log := new QuestLog(TwoKinds);
    assert IdleIds(TwoKinds(1), 2) == multiset{};
    log.Start(1, true);
    assert log.quests[1] == [0, 0] && log.quests == map[1 := [0, 0]];
    TwoKindsOwed(log.leaked, log.refs);
    SecondKindCounts(log.refs);
    var ok := log.Kill(1210100);
  }

  /** A quest that asks for the four groups. */
  function Groups(q: nat): seq<Mob> {
    if q == 1 then [Mob(9101000, 5), Mob(9101001, 5), Mob(9101002, 5), Mob(9101003, 5)] else []
  }

  const MEMBERS: seq<nat> := [1110100, 1110130, 2230101, 2230131, 1140100, 1140130, 8830003, 8830010]

  ghost predicate GroupsReferenced(refs: map<nat, int>) {
    && 9101000 in refs && 9101001 in refs && 9101002 in refs && 9101003 in refs
    && forall i :: 0 <= i < 8 ==> MEMBERS[i] !in refs
  }

  lemma GroupsOwed(leaked: multiset<nat>, refs: map<nat, int>)
    requires leaked == multiset{} && Counts(Groups, map[1 := [0, 0, 0, 0]], leaked, refs)
    ensures GroupsReferenced(refs)
  {
    var quests := map[1 := [0, 0, 0, 0]];
    forall i: nat | i < 4
      ensures Groups(1)[i].id in refs
    {
      assert Pending(Groups, quests, 1, i, Groups(1)[i].id);
      assert (1, i) in PendingSet(Groups, quests, Groups(1)[i].id);
      assert Owed(Groups, quests, leaked, Groups(1)[i].id) > 0;
    }
    forall i | 0 <= i < 8
      ensures MEMBERS[i] !in refs
    {
      assert PendingSet(Groups, quests, MEMBERS[i]) == {};
      assert Owed(Groups, quests, leaked, MEMBERS[i]) == 0;
    }
    assert Groups(1)[0].id == 9101000 && Groups(1)[1].id == 9101001;
    assert Groups(1)[2].id == 9101002 && Groups(1)[3].id == 9101003;
  }

  /** The kill of the `i`-th member counts for its group only. */
  lemma MemberCounts(p: seq<int>, refs: map<nat, int>, i: nat)
    requires i < 8 && |p| == 4 && GroupsReferenced(refs) && 0 <= p[i / 2] < 3
    ensures KillStep(Groups, map[1 := p], refs, MEMBERS[i]) == Some((map[1 := p[i / 2 := p[i / 2] + 1]], refs))
  {
    hide Scanned, Reached, DropMany;
    MemberOf(i);
    MemberBumped(p, i / 2);
    DropManyStep(refs, GroupOf(MEMBERS[i]), 0);
  }

  lemma MemberBumped(p: seq<int>, k: nat)
    requires k < 4 && |p| == 4 && 0 <= p[k] < 3
    ensures var group := Groups(1)[k].id;
            && Scanned(Groups, map[1 := p], group) == map[1 := p[k := p[k] + 1]]
            && Reached(Groups, map[1 := p], group) == {}
  {
    var group := Groups(1)[k].id;
    var f := FirstPending(Groups(1), p, group, 0);
    assert Groups(1)[k].id == group && p[k] < Groups(1)[k].count;
    assert f == k;
    assert Bumped(Groups(1), p, group) == p[k := p[k] + 1] && !Reaches(Groups(1), p, group);
  }

  lemma MemberOf(i: nat)
    requires i < 8
    ensures GroupOf(MEMBERS[i]) == Groups(1)[i / 2].id != 0
    ensures Groups(1)[i / 2].id in {9101000, 9101001, 9101002, 9101003}
  {
    assert i / 2 == 0 || i / 2 == 1 || i / 2 == 2 || i / 2 == 3;
  }

  function UpToTwo(n: int): int { Max(0, Min(2, n)) }

  /** The progress after the first `n` of the eight kills. */
  function GroupProgress(n: nat): seq<int> { [UpToTwo(n), UpToTwo(n - 2), UpToTwo(n - 4), UpToTwo(n - 6)] }

  lemma NextProgress(n: nat)
    requires n < 8
    ensures var p := GroupProgress(n); 0 <= p[n / 2] < 3 && GroupProgress(n + 1) == p[n / 2 := p[n / 2] + 1]
  {
    assert n / 2 == 0 || n / 2 == 1 || n / 2 == 2 || n / 2 == 3;
  }

  /** One kill of each member of the four groups counts twice for every group. */
  method KillsOfGroups() returns (log: QuestLog)
    ensures fresh(log) && log.quests == map[1 := [2, 2, 2, 2]]
  {
    hide Counts, KillStep, Exact, KillSmooth, Killed, Counted, GroupsReferenced, IdleIds, GroupProgress;
    log := new QuestLog(Groups);
    NoGroupIdle();
    log.Start(1, true);
    assert log.quests[1] == [0, 0, 0, 0] && log.quests == map[1 := [0, 0, 0, 0]];
    GroupsOwed(log.leaked, log.refs);
    FirstAndLast();
    for i := 0 to 8
      invariant fresh(log) && log.Shaped() && log.mobs == Groups
      invariant log.quests == map[1 := GroupProgress(i)] && |GroupProgress(i)| == 4 && GroupsReferenced(log.refs)
    {
      NextProgress(i);
      MemberCounts(GroupProgress(i), log.refs, i);
      var ok := log.Kill(MEMBERS[i]);
    }
  }

  lemma FirstAndLast()
    ensures GroupProgress(0) == [0, 0, 0, 0] && GroupProgress(8) == [2, 2, 2, 2]
  {
  }

  lemma NoGroupIdle()
    ensures IdleIds(Groups(1), |Groups(1)|) == multiset{}
  {
    IdleIdsNone(Groups(1), |Groups(1)|);
  }

  // ---------- counts that go wrong ----------

  /** Quest 1 asks for ten snails, quest 2 for twenty. */
  const SNAIL := 100100

  function Snails(q: nat): seq<Mob> {
    if q == 1 then [Mob(SNAIL, 10)] else if q == 2 then [Mob(SNAIL, 20)] else []
  }

  /** A start whose actions fail leaves a reference although no quest is active. */
  method FailedStartLeaks() returns (log: QuestLog)
    ensures fresh(log) && log.quests == map[] && SNAIL in log.refs && !log.ExactNow()
  {
    log := new QuestLog(Snails);
    log.Start(1, false);
    assert AllIds(Snails(1), 1)[SNAIL] == 1;
    assert Owed(log.mobs, log.quests, log.leaked, SNAIL) > 0;
  }

  /** So does a quest that is ended before its monsters are killed. */
  method UnmetEndingLeaks() returns (log: QuestLog)
    ensures fresh(log) && log.quests == map[] && SNAIL in log.refs && !log.ExactNow()
  {
    hide Exact;
    log := new QuestLog(Snails);
    log.Start(1, true);
    assert IdleIds(Snails(1), 1) == multiset{};
    assert log.quests[1] == [0];
    log.End(1, true);
    assert PendingIds(Snails(1), [0], 1)[SNAIL] == 1;
    assert Owed(log.mobs, log.quests, log.leaked, SNAIL) > 0;
  }

  /** Both quests at the given progress. */
  ghost function Both(a: int, b: int): Progress { map[1 := [a], 2 := [b]] }

  lemma OneKill(a: int, b: int)
    requires 0 <= a <= 10 && 0 <= b < 20
    ensures Scanned(Snails, Both(a, b), SNAIL) == Both(if a < 10 then a + 1 else a, b + 1)
    ensures b < 19 ==> Reached(Snails, Both(a, b), SNAIL) == if a == 9 then {1} else {}
  {
    assert Bumped(Snails(1), [a], SNAIL) == [if a < 10 then a + 1 else a];
    assert Bumped(Snails(2), [b], SNAIL) == [b + 1];
  }

  lemma OneKillStep(a: int, refs: map<nat, int>)
    requires 0 <= a < 10 && SNAIL in refs && refs[SNAIL] == 1
    ensures KillStep(Snails, Both(a, a), refs, SNAIL)
            == Some((Both(a + 1, a + 1), if a == 9 then refs - {SNAIL} else refs))
  {
    hide Scanned, Reached;
    OneKill(a, a);
    assert |{1}| == 1;
    assert DropMany(refs, SNAIL, 0) == Some(refs);
    assert DropRef(refs, SNAIL) == refs - {SNAIL};
    assert DropMany(refs, SNAIL, 1) == Some(refs - {SNAIL});
  }

  method FailMany(log: QuestLog, n: nat)
    requires log.Valid() && log.mobs == Snails && log.quests == map[] && log.leaked == multiset{}
    modifies log
    ensures log.Valid() && log.quests == map[] && log.leaked == multiset{}[SNAIL := n]
  {
    hide Counts;
    assert AllIds(Snails(1), 1) == multiset{SNAIL};
    for i := 0 to n
      invariant log.Valid() && log.quests == map[] && log.leaked == multiset{}[SNAIL := i]
    {
      log.Start(1, false);
    }
  }

  /** After 255 failed starts and with both quests open the count has wrapped around to one. */
  method WrapCount() returns (log: QuestLog)
    ensures fresh(log) && log.Shaped() && log.mobs == Snails && log.quests == Both(0, 0)
    ensures SNAIL in log.refs && log.refs[SNAIL] == 1
  {
    hide Exact, Counts, IdleIds, AllIds;
    log := new QuestLog(Snails);
    FailMany(log, 255);
    NothingIdle();
    log.Start(1, true);
    assert log.quests[1] == [0];
    log.Start(2, true);
    assert log.quests[2] == [0] && log.quests == Both(0, 0);
    assert log.leaked == multiset{}[SNAIL := 255];
    WrappedToOne(log.leaked, log.refs);
  }

  lemma NothingIdle()
    ensures IdleIds(Snails(1), |Snails(1)|) == multiset{} && IdleIds(Snails(2), |Snails(2)|) == multiset{}
  {
  }

  lemma WrappedToOne(leaked: multiset<nat>, refs: map<nat, int>)
    requires leaked == multiset{}[SNAIL := 255] && Counts(Snails, Both(0, 0), leaked, refs)
    ensures SNAIL in refs && refs[SNAIL] == 1
  {
    var quests := Both(0, 0);
    assert Pending(Snails, quests, 1, 0, SNAIL) && Pending(Snails, quests, 2, 0, SNAIL);
    assert PendingSet(Snails, quests, SNAIL) == {(1, 0), (2, 0)};
    assert Owed(Snails, quests, leaked, SNAIL) == 257;
  }

  /** Meeting the first quest then drops the reference. */
  method WrappedCount() returns (log: QuestLog)
    ensures fresh(log) && log.Shaped() && log.mobs == Snails && log.quests == Both(10, 10) && SNAIL !in log.refs
  {
    hide Smooth, Scanned, Reached, Counts, KillStep;
    log := WrapCount();
    for i := 0 to 10
      invariant fresh(log) && log.Shaped() && log.mobs == Snails && log.quests == Both(i, i)
      invariant if i < 10 then SNAIL in log.refs && log.refs[SNAIL] == 1 else SNAIL !in log.refs
    {
      OneKillStep(i, log.refs);
      var ok := log.Kill(SNAIL);
    }
  }

  /** From then on kills are no longer counted for the second quest. */
  method WrappedCountIsLost() returns (log: QuestLog, ghost before: Progress)
    ensures fresh(log) && Aligned(Snails, before) && log.quests == before != Killed(Snails, before, SNAIL)
  {
    hide Scanned, Counts, KillStep, Killed, KillSmooth;
    log := WrappedCount();
    before := log.quests;
    MissedKill(log.refs);
    var ok := log.Kill(SNAIL);
  }

  lemma MissedKill(refs: map<nat, int>)
    requires SNAIL !in refs
    ensures KillStep(Snails, Both(10, 10), refs, SNAIL) == Some((Both(10, 10), refs))
    ensures Killed(Snails, Both(10, 10), SNAIL) == Both(10, 11) != Both(10, 10)
  {
    hide Scanned, Reached;
    OneKill(10, 10);
    assert Both(10, 10)[2] == [10] && Both(10, 11)[2] == [11];
  }
}
