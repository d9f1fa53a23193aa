/** What each report on an address does to the manager, field by field. */
module AddrManReports {
  import opened AddrManState
  import opened Common
  import opened AddrManSteps
  import opened AddrManSpec
  import opened AddrManEffects
  import Runs = AddrManRuns

  // ----- how entries change ------------------------------------------------

  /** Entry id is there and is entry, wherever it stands in the random order. */
  predicate Stands(info: map<Id, AddrInfo>, id: Id, entry: AddrInfo) {
    id in info && SameEntry(entry, info[id])
  }

  /** No entry outside but comes, goes or changes. */
  ghost predicate OthersStay(s: State, t: State, but: set<Id>) {
    forall x :: x in but || if x in s.info then Stands(t.info, x, s.info[x]) else x !in t.info
  }

  /** Entry x has one reference less, and is gone if that was its last. */
  predicate Loses(s: State, t: State, x: Id)
    requires x in s.info
  {
    if s.info[x].nRefCount == 1 then x !in t.info
    else Stands(t.info, x, s.info[x].(nRefCount := s.info[x].nRefCount - 1))
  }

  /** The new table without the references to id. */
  function Without(at: map<Slot, Id>, id: Id): map<Slot, Id> {
    map slot | slot in at && at[slot] != id :: at[slot]
  }

  // ----- promotion ---------------------------------------------------------

  /** id has gone to its slot of the tried table, with the statistics of entry. An occupant of
      that slot is new again, with one reference, in the slot that its own source gives it;
      whoever held that one has lost a reference. */
  ghost predicate MovedToTried(w: World, s: State, t: State, id: Id, entry: AddrInfo) {
    var slot := TriedSlot(w, s.key, s.asmap, entry.service);
    && t.triedAt == s.triedAt[slot := id]
    && Stands(t.info, id, entry.(fInTried := true, nRefCount := 0))
    && (slot !in s.triedAt ==> t.newAt == Without(s.newAt, id) && OthersStay(s, t, {id}))
    && (slot in s.triedAt ==> s.triedAt[slot] in s.info && SentBack(w, s, t, id, s.triedAt[slot]))
  }

  ghost predicate SentBack(w: World, s: State, t: State, id: Id, out: Id)
    requires out in s.info
  {
    var entry := s.info[out];
    var to := NewSlot(w, s.key, s.asmap, entry.service, entry.source);
    && Stands(t.info, out, entry.(fInTried := false, nRefCount := 1))
    && t.newAt == Without(s.newAt, id)[to := out]
    && if to in s.newAt && s.newAt[to] != id
       then s.newAt[to] in s.info && Loses(s, t, s.newAt[to]) && OthersStay(s, t, {id, out, s.newAt[to]})
       else OthersStay(s, t, {id, out})
  }

  lemma MakeTriedMoves(w: World, s: State, id: Id)
    requires Consistent(w, s) && id in s.info && !s.info[id].fInTried
    ensures MovedToTried(w, s, MakeTried(w, s, id), id, s.info[id])
  {
    hide Consistent, MakeTried, PromotedInfo, SameButPositions, TriedSlot, NewSlot;
    var t, p := MakeTried(w, s, id), PromotedInfo(w, s, id);
    MakeTriedKeeps(w, s, id);
    MakeTriedNew(w, s, id);
    PromotedIs(w, s, id);
    SameMembers(p, t.info);
    SameEntriesAt(p, t.info);
  }

  lemma SameEntriesAt(a: map<Id, AddrInfo>, b: map<Id, AddrInfo>)
    requires SameButPositions(a, b)
    ensures forall x <- a :: x in b && SameEntry(a[x], b[x])
  {
  }

  /** What a promotion makes of the new table. */
  lemma MakeTriedNew(w: World, s: State, id: Id)
    requires Consistent(w, s) && id in s.info && !s.info[id].fInTried
    ensures var slot := TriedSlot(w, s.key, s.asmap, s.info[id].service);
            if slot !in s.triedAt then MakeTried(w, s, id).newAt == Without(s.newAt, id)
            else
              && s.triedAt[slot] in s.info
              && var out := s.info[s.triedAt[slot]];
                 MakeTried(w, s, id).newAt == Without(s.newAt, id)[NewSlot(w, s.key, s.asmap, out.service, out.source) := s.triedAt[slot]]
  {
    hide RandomOk, AddrOk, NewOk, RefsOk, CountsOk, TriedSlot, NewSlot, Evict, SameButPositions, EvictedInfo;
    var s1 := DropRefs(s, id);
    DropRefsKeeps(w, s, id);
    DroppedIsWithout(s.newAt, id);
    var slot := TriedSlot(w, s.key, s.asmap, s.info[id].service);
    if slot in s.triedAt {
      EvictLeaves(w, s1, slot, id);
      EvictKeeps(w, s1, slot, {id});
    }
  }

  lemma DroppedIsWithout(at: map<Slot, Id>, id: Id)
    ensures at - SlotsOf(at, id) == Without(at, id)
  {
  }

  /** What it makes of the entries. */
  lemma PromotedIs(w: World, s: State, id: Id)
    requires Consistent(w, s) && id in s.info && !s.info[id].fInTried
    ensures var p := PromotedInfo(w, s, id);
            var slot := TriedSlot(w, s.key, s.asmap, s.info[id].service);
            var t := s.(info := p, triedAt := s.triedAt[slot := id],
                        newAt := if slot in s.triedAt && s.triedAt[slot] in s.info
                                 then Without(s.newAt, id)[NewSlot(w, s.key, s.asmap, s.info[s.triedAt[slot]].service, s.info[s.triedAt[slot]].source) := s.triedAt[slot]]
                                 else Without(s.newAt, id));
            MovedToTried(w, s, t, id, s.info[id])
  {
    hide RandomOk, AddrOk, NewOk, RefsOk, CountsOk, TriedSlot, NewSlot, ClearedInfo, OthersStay, Loses;
    DropRefsKeeps(w, s, id);
    DroppedIsWithout(s.newAt, id);
    var s1, slot, p := DropRefs(s, id), TriedSlot(w, s.key, s.asmap, s.info[id].service), PromotedInfo(w, s, id);
    if slot in s.triedAt {
      OccupantIsTried(w, s, slot);
      var out, to := s.triedAt[slot], EvictedTo(w, s1, slot);
      HolderKnown(w, s1, to, {id});
      HolderIsNew(w, s, to);
      var newAt := Without(s.newAt, id)[to := out];
      ClearedOthers(s, s.(info := p, triedAt := s.triedAt[slot := id], newAt := newAt), s1, id, out, to,
                    s1.info[out].(fInTried := false, nRefCount := 1), p[id]);
    } else {
      assert OthersStay(s, s.(info := p, triedAt := s.triedAt[slot := id], newAt := Without(s.newAt, id)), {id}) by { OneChanged(s, p, id, s1.info[id], p[id]); }
    }
  }

  lemma OneChanged(s: State, p: map<Id, AddrInfo>, id: Id, a: AddrInfo, b: AddrInfo)
    requires id in s.info && p == s.info[id := a][id := b]
    ensures forall t: State | t.info == p :: OthersStay(s, t, {id})
  {
  }

  lemma ClearedOthers(s: State, t: State, s1: State, id: Id, out: Id, to: Slot, a: AddrInfo, b: AddrInfo)
    requires id in s.info && out in s.info && id != out && s1 == DropRefs(s, id)
    requires to in s.newAt ==> s.newAt[to] in s.info && s.newAt[to] != out
    requires t.info == ClearedInfo(s1, to)[out := a][id := b]
    ensures if to in s.newAt && s.newAt[to] != id
            then Loses(s, t, s.newAt[to]) && OthersStay(s, t, {id, out, s.newAt[to]})
            else OthersStay(s, t, {id, out})
  {
  }

  lemma HolderIsNew(w: World, s: State, slot: Slot)
    requires Consistent(w, s)
    ensures slot in s.newAt ==> s.newAt[slot] in s.info && !s.info[s.newAt[slot]].fInTried && s.info[s.newAt[slot]].nRefCount > 0
  {
    hide RandomOk, AddrOk, TriedOk, CountsOk;
    if slot in s.newAt { assert slot in SlotsOf(s.newAt, s.newAt[slot]); }
  }

  // ----- a success ---------------------------------------------------------

  /** The address is known, with this port. */
  predicate IsKnown(s: State, a: Service) {
    a.ip in s.addr && s.addr[a.ip] in s.info && s.info[s.addr[a.ip]].service == a
  }

  /** Its entry has the statistics of a success. It moves to the tried table unless it is there,
      or its slot is taken and a test is asked for; in the latter case it is pending now if
      there was room among the pending. */
  ghost predicate Succeeded(w: World, m: Manager, after: Manager, a: Service, testBeforeEvict: bool, nTime: int)
  {
    var s, t := m.tables, after.tables;
    && after.nLastGood == nTime
    && (!IsKnown(s, a) ==> t == s && after.collisions == m.collisions)
    && (IsKnown(s, a) ==>
          var id := s.addr[a.ip];
          var was := s.info[id];
          var entry := was.(nLastSuccess := nTime, nLastTry := nTime, nAttempts := 0);
          var free := TriedSlot(w, s.key, s.asmap, a) !in s.triedAt;
          if was.fInTried then t == s.(info := s.info[id := entry]) && after.collisions == m.collisions
          else if testBeforeEvict && !free then
            && t == s.(info := s.info[id := entry])
            && after.collisions == m.collisions + if |m.collisions| < 10 then {id} else {}
          else
            MovedToTried(w, s, t, id, entry) && after.collisions == m.collisions)
  }

  lemma GoodSucceeds(w: World, m: Manager, a: Service, testBeforeEvict: bool, nTime: int)
    requires Consistent(w, m.tables)
    ensures Succeeded(w, m, Good(w, m, a, testBeforeEvict, nTime), a, testBeforeEvict, nTime)
  {
    hide RandomOk, AddrOk, NewOk, TriedOk, RefsOk, CountsOk, TriedSlot, NewSlot, MakeTried, MovedToTried;
    var s := m.tables;
    if IsKnown(s, a) && !s.info[s.addr[a.ip]].fInTried {
      var id := s.addr[a.ip];
      var s1 := Touch(s, id, MarkGood(s.info[id], nTime));
      TouchKeeps(w, s, id, MarkGood(s.info[id], nTime), {});
      MakeTriedMoves(w, s1, id);
      MovedFrom(w, s, s1, MakeTried(w, s1, id), id);
    }
  }

  /** A move seen from before the statistics were changed. */
  lemma MovedFrom(w: World, s: State, s1: State, t: State, id: Id)
    requires Consistent(w, s) && id in s.info && !s.info[id].fInTried
    requires id in s1.info && s1 == s.(info := s.info[id := s1.info[id]])
    requires s1.info[id].service == s.info[id].service && MovedToTried(w, s1, t, id, s1.info[id])
    ensures MovedToTried(w, s, t, id, s1.info[id])
  {
    hide RandomOk, AddrOk, NewOk, RefsOk, CountsOk, TriedSlot, NewSlot;
    var slot := TriedSlot(w, s.key, s.asmap, s.info[id].service);
    if slot in s.triedAt {
      OccupantIsTried(w, s, slot);
      var out := s.triedAt[slot];
      HolderIsNew(w, s, NewSlot(w, s.key, s.asmap, s.info[out].service, s.info[out].source));
    }
  }

  // ----- an announcement ---------------------------------------------------

  /** id has got slot of the new table, whose holder lost a reference. */
  ghost predicate TookSlot(s: State, t: State, id: Id, slot: Slot, entry: AddrInfo) {
    && t.newAt == s.newAt[slot := id]
    && Stands(t.info, id, entry)
    && if slot in s.newAt then s.newAt[slot] in s.info && Loses(s, t, s.newAt[slot]) && OthersStay(s, t, {id, s.newAt[slot]})
       else OthersStay(s, t, {id})
  }

  /** The time an entry has after an announcement: the announced one less the penalty, if that
      one is known and the entry has none or lags by an hour, or a day for an address that was
      not seen for a day. */
  function RefreshedTime(was: int, a: Address, penalty: int, now: int): int {
    if a.nTime != 0 && (was == 0 || was + (if now - a.nTime < 86400 then 3600 else 86400) + penalty < a.nTime)
    then Max(0, a.nTime - penalty) else was
  }

  /** A known address gains a reference, in the slot that the announcing source gives it, if the
      announcement is news, the entry is new, has not eight yet and wins the draw, and the slot
      is free or held by another one that is terrible. Otherwise the tables stay. */
  ghost predicate KnownAnnounced(w: World, s: State, t: State, a: Address, source: NetAddr, penalty: int, now1: int, now2: int, rnd: nat)
    requires a.service.ip in s.addr
  {
    var id := s.addr[a.service.ip];
    && id in s.info
    && var was := s.info[id];
       var entry := was.(services := was.services + a.services, nTime := RefreshedTime(was.nTime, a, penalty, now1));
       var slot := NewSlot(w, s.key, s.asmap, was.service, source);
       var news := a.nTime != 0 && (entry.nTime == 0 || entry.nTime < a.nTime);
       var drawn := !was.fInTried && 0 < was.nRefCount < 8 && rnd % Pow2(was.nRefCount) == 0;
       var room := slot in s.newAt ==> s.newAt[slot] in s.info && s.newAt[slot] != id && IsTerrible(s.info[s.newAt[slot]], now2);
       && t.triedAt == s.triedAt
       && if news && drawn && room then TookSlot(s, t, id, slot, entry.(nRefCount := was.nRefCount + 1))
          else t == s.(info := s.info[id := entry])
  }

  /** An unknown address gets a new entry if its slot is free, or held by one that is terrible
      or has other slots. */
  ghost predicate UnknownAnnounced(w: World, s: State, t: State, a: Address, source: NetAddr, penalty: int, now: int) {
    var id := Id(s.nIdCount);
    var slot := NewSlot(w, s.key, s.asmap, a.service, source);
    var entry := AddrInfo(a.service, a.services, Max(0, a.nTime - penalty), source, 0, 0, 0, 0, 1, false, 0);
    var room := slot in s.newAt ==> s.newAt[slot] in s.info && (IsTerrible(s.info[s.newAt[slot]], now) || s.info[s.newAt[slot]].nRefCount > 1);
    && t.triedAt == s.triedAt && t.nIdCount == s.nIdCount + 1
    && if room then TookSlot(s, t, id, slot, entry)
       else t.newAt == s.newAt && OthersStay(s, t, {}) && t.addr == s.addr
  }

  /** Addresses that cannot be reached are ignored; a source that announces itself has no penalty. */
  ghost predicate IsAnnounced(w: World, s: State, t: State, isNew: bool, a: Address, source: NetAddr, penalty: int,
                              now1: int, now2: int, rnd: nat)
  {
    var penalty := if a.service.ip == source then 0 else penalty;
    && (isNew <==> w.routable(a.service.ip) && a.service.ip !in s.addr)
    && (!w.routable(a.service.ip) ==> t == s)
    && (w.routable(a.service.ip) && a.service.ip in s.addr ==> KnownAnnounced(w, s, t, a, source, penalty, now1, now2, rnd))
    && (w.routable(a.service.ip) && a.service.ip !in s.addr ==> UnknownAnnounced(w, s, t, a, source, penalty, now2))
  }

  lemma TakingSlot(w: World, s: State, id: Id, slot: Slot, loose: set<Id>)
    requires ConsistentBut(w, s, loose) && id in s.info
    requires slot in s.newAt ==> s.newAt[slot] in s.info && s.newAt[slot] != id
    ensures id in ClearNew(s, slot).info
    ensures TookSlot(s, Ref(ClearNew(s, slot), id, slot), id, slot, s.info[id].(nRefCount := s.info[id].nRefCount + 1))
    ensures Ref(ClearNew(s, slot), id, slot).triedAt == s.triedAt
  {
    hide RandomOk, AddrOk, NewOk, TriedOk, RefsOk, CountsOk, ClearNew;
    ClearNewKeeps(w, s, slot, loose);
    PlacedStays(s, id, slot);
    SameMembers(ClearedInfo(s, slot), ClearNew(s, slot).info);
    SameEntriesAt(ClearedInfo(s, slot), ClearNew(s, slot).info);
  }

  lemma AnnouncedKnown(w: World, s: State, a: Address, source: NetAddr, penalty: int, now1: int, now2: int, rnd: nat)
    requires Consistent(w, s) && a.service.ip in s.addr
    ensures KnownAnnounced(w, s, AddKnown(w, s, a, source, penalty, now1, now2, rnd), a, source, penalty, now1, now2, rnd)
  {
    hide RandomOk, NewOk, TriedOk, CountsOk, NewSlot, ClearNew, Ref, Delete, IsTerrible, Pow2, TookSlot;
    var id := s.addr[a.service.ip];
    var entry := Announced(s.info[id], a, penalty, now1);
    var slot := NewSlot(w, s.key, s.asmap, entry.service, source);
    var s1 := Touch(s, id, entry);
    TouchKeeps(w, s, id, entry, {});
    HolderIsNew(w, s, slot);
    if MayAddRef(entry, a, rnd) && !(slot in s.newAt && s.newAt[slot] == id) && GivesWay(s1, id, slot, now2) {
      TakingSlot(w, s1, id, slot, {});
      TookFrom(s, s1, Ref(ClearNew(s1, slot), id, slot), id, slot);
    }
  }

  lemma TookFrom(s: State, s1: State, t: State, id: Id, slot: Slot)
    requires id in s.info && id in s1.info && s1 == s.(info := s.info[id := s1.info[id]])
    requires slot in s.newAt ==> s.newAt[slot] != id
    requires TookSlot(s1, t, id, slot, s1.info[id].(nRefCount := s1.info[id].nRefCount + 1))
    ensures TookSlot(s, t, id, slot, s1.info[id].(nRefCount := s1.info[id].nRefCount + 1))
  {
  }

  lemma UnknownIsAnnounced(w: World, s: State, a: Address, source: NetAddr, penalty: int, now: int)
    requires Consistent(w, s) && a.service.ip !in s.addr
    ensures UnknownAnnounced(w, s, AddUnknown(w, s, a, source, penalty, now), a, source, penalty, now)
  {
    hide RandomOk, AddrOk, NewOk, TriedOk, RefsOk, CountsOk, NewSlot, ClearNew, Ref, Delete, IsTerrible, TookSlot;
    var id := Id(s.nIdCount);
    var slot := NewSlot(w, s.key, s.asmap, a.service, source);
    var s1 := Created(s, a, source, penalty);
    CreatedKeeps(w, s, a, source, penalty);
    CreatedInfo(w, s, a, source, penalty);
    SlotHolder(w, s, slot);
    CreatedIs(s, a, source, penalty);
    if GivesWay(s1, id, slot, now) {
      TakingSlot(w, s1, id, slot, {id});
      TookFromCreated(s, s1, Ref(ClearNew(s1, slot), id, slot), id, slot, s1.info[id].(nRefCount := 1));
      TookStands(s, Ref(ClearNew(s1, slot), id, slot), id, slot, s1.info[id].(nRefCount := 1),
                 AddrInfo(a.service, a.services, Max(0, a.nTime - penalty), source, 0, 0, 0, 0, 1, false, 0));
      TookCount(s1, id, slot);
    } else {
      DeletedIs(w, s, s1, id);
    }
  }

  lemma CreatedIs(s: State, a: Address, source: NetAddr, penalty: int)
    ensures var t, id := Created(s, a, source, penalty), Id(s.nIdCount);
            && t.info == s.info[id := t.info[id]] && t.addr == s.addr[a.service.ip := id] && t.nIdCount == s.nIdCount + 1
            && SameEntry(AddrInfo(a.service, a.services, Max(0, a.nTime - penalty), source, 0, 0, 0, 0, 0, false, 0), t.info[id])
  {
  }

  lemma TookFromCreated(s: State, s1: State, t: State, id: Id, slot: Slot, entry: AddrInfo)
    requires id !in s.info && id in s1.info && s1.info == s.info[id := s1.info[id]] && s1.newAt == s.newAt
    requires slot in s.newAt ==> s.newAt[slot] in s.info
    requires TookSlot(s1, t, id, slot, entry)
    ensures TookSlot(s, t, id, slot, entry)
  {
  }

  lemma TookStands(s: State, t: State, id: Id, slot: Slot, a: AddrInfo, b: AddrInfo)
    requires TookSlot(s, t, id, slot, a) && SameEntry(b, a)
    ensures TookSlot(s, t, id, slot, b)
  {
  }

  lemma TookCount(s: State, id: Id, slot: Slot)
    requires RandomOk(s.info, s.random) && (slot in s.newAt ==> s.newAt[slot] in s.info)
    requires id in ClearNew(s, slot).info
    ensures Ref(ClearNew(s, slot), id, slot).nIdCount == s.nIdCount
  {
    hide RandomOk;
  }

  lemma DeletedIs(w: World, s: State, s1: State, id: Id)
    requires ConsistentBut(w, s1, {id}) && id in s1.info && !s1.info[id].fInTried && id !in s.info
    requires s1.info == s.info[id := s1.info[id]] && s1.info[id].service.ip !in s.addr && s1.newAt == s.newAt && s1.triedAt == s.triedAt
    requires s1.addr == s.addr[s1.info[id].service.ip := id]
    ensures var t := Delete(s1, id);
            && t.newAt == s.newAt && t.triedAt == s.triedAt && t.addr == s.addr && t.nIdCount == s1.nIdCount && OthersStay(s, t, {})
  {
    hide ConsistentBut, Delete, SwapRandom, RandomOk, SameButPositions;
    ButRandom(w, s1, {id});
    RandomPos(s1.info, s1.random, id);
    var last := |s1.random| - 1;
    var s2 := SwapRandom(s1, s1.info[id].nRandomPos, last);
    SwapRandomOk(s1, s1.info[id].nRandomPos, last);
    DeleteIs(s1, id, s2);
    DeleteKeeps(w, s1, id, {id});
    assert s1.addr - {s1.info[id].service.ip} == s.addr;
    SameMembers(s1.info - {id}, Delete(s1, id).info);
    SameEntriesAt(s1.info - {id}, Delete(s1, id).info);
  }

  lemma AddIsAnnounced(w: World, s: State, a: Address, source: NetAddr, penalty: int, now1: int, now2: int, rnd: nat)
    requires Consistent(w, s)
    ensures var (t, isNew) := Add(w, s, a, source, penalty, now1, now2, rnd);
            IsAnnounced(w, s, t, isNew, a, source, penalty, now1, now2, rnd)
  {
    hide Consistent, AddKnown, AddUnknown, KnownAnnounced, UnknownAnnounced;
    var penalty := if a.service.ip == source then 0 else penalty;
    if a.service.ip in s.addr { AnnouncedKnown(w, s, a, source, penalty, now1, now2, rnd); }
    else { UnknownIsAnnounced(w, s, a, source, penalty, now2); }
  }

  // ----- failures, connections and services --------------------------------

  /** Only the entry of a known address changes, to what change makes of it. */
  predicate OneEntry(s: State, t: State, a: Service, change: AddrInfo -> AddrInfo) {
    t == if IsKnown(s, a) then s.(info := s.info[s.addr[a.ip] := change(s.info[s.addr[a.ip]])]) else s
  }

  /** An attempt is a failure that counts if it is to be counted and none has been counted since
      the last success anywhere. */
  predicate IsAttempted(m: Manager, after: Manager, a: Service, countFailure: bool, nTime: int) {
    && after == m.(tables := after.tables)
    && OneEntry(m.tables, after.tables, a, (e: AddrInfo) =>
         if countFailure && e.nLastCountAttempt < m.nLastGood
         then e.(nLastTry := nTime, nLastCountAttempt := nTime, nAttempts := e.nAttempts + 1)
         else e.(nLastTry := nTime))
  }

  /** The time of a connected address moves on if it lags by more than twenty minutes. */
  predicate IsConnected(s: State, t: State, a: Service, nTime: int) {
    OneEntry(s, t, a, (e: AddrInfo) => if e.nTime + 1200 < nTime then e.(nTime := nTime) else e)
  }

  predicate IsServed(s: State, t: State, a: Service, services: set<nat>) {
    OneEntry(s, t, a, (e: AddrInfo) => e.(services := services))
  }

  lemma AttemptIs(m: Manager, a: Service, countFailure: bool, nTime: int)
    ensures IsAttempted(m, Runs.Attempt(m, a, countFailure, nTime), a, countFailure, nTime)
  {
  }

  lemma ConnectedIs(s: State, a: Service, nTime: int)
    ensures IsConnected(s, Runs.Connected(s, a, nTime), a, nTime)
  {
    if IsKnown(s, a) { assert s.info[s.addr[a.ip] := s.info[s.addr[a.ip]]] == s.info; }
  }

  lemma ServedIs(s: State, a: Service, services: set<nat>)
    ensures IsServed(s, Runs.SetServices(s, a, services), a, services)
  {
  }

  /** How many more failures of an entry may count before the next success. */
  function MayCount(entry: AddrInfo, nLastGood: int): nat {
    if entry.nLastCountAttempt < nLastGood then 1 else 0
  }

  /** Calls without a success, with a clock that does not run back behind the last one. */
  ghost predicate WithoutSuccess(op: Runs.Op, nLastGood: int) {
    match op
    case OpGood(_, _, _) => false
    case OpResolveCollisions(_) => false
    case OpAttempt(_, _, time) => time >= nLastGood
    case _ => true
  }

  /** No call without a success makes more failures count than that. */
  lemma ApplyCounts(w: World, m: Manager, op: Runs.Op, id: Id)
    requires Consistent(w, m.tables) && Runs.Safe(w, m, op) && WithoutSuccess(op, m.nLastGood)
    requires 0 <= id.n < m.tables.nIdCount && id in Runs.Apply(w, m, op).tables.info
    ensures id in m.tables.info && Runs.Apply(w, m, op).nLastGood == m.nLastGood
    ensures var was, now := m.tables.info[id], Runs.Apply(w, m, op).tables.info[id];
            now.nAttempts + MayCount(now, m.nLastGood) <= was.nAttempts + MayCount(was, m.nLastGood)
  {
    hide Consistent, Add, Runs.Attempt, Runs.Connected, Runs.SetServices, Runs.Shuffle, SameOldEntries, IsAnnounced, TriedSlot, SameButPositions;
    Runs.ApplyKeeps(w, m, op);
    var s, t := m.tables, Runs.Apply(w, m, op).tables;
    OldStays(s, t, id);
    match op
    case OpAdd(a, source, penalty, now1, now2, rnd) =>
      AddIsAnnounced(w, s, a, source, penalty, now1, now2, rnd);
      AnnouncedCounts(w, s, t, Add(w, s, a, source, penalty, now1, now2, rnd).1, a, source, penalty, now1, now2, rnd, id);
    case OpAttempt(a, count, time) => AttemptIs(m, a, count, time);
    case OpConnected(a, time) => ConnectedIs(s, a, time);
    case OpSetServices(a, services) => ServedIs(s, a, services);
    case OpGetAddr(rounds, draws) =>
      if rounds <= |s.random| { ShuffleCounts(w, s, rounds, draws); }
    case OpSelectCollision(pick) =>
  }

  lemma OldStays(s: State, t: State, id: Id)
    requires Grows(s, t) && id in t.info && id.n < s.nIdCount
    ensures id in s.info
  {
  }

  lemma ShuffleCounts(w: World, s: State, n: nat, draws: nat -> nat)
    requires Consistent(w, s) && n <= |s.random|
    ensures forall x <- s.info :: x in Runs.Shuffle(s, n, draws).info && SameEntry(s.info[x], Runs.Shuffle(s, n, draws).info[x])
  {
    hide RandomOk, AddrOk, NewOk, TriedOk, RefsOk, CountsOk, Runs.Shuffle, SameButPositions;
    Runs.ShuffleKeeps(w, s, n, draws);
    SameEntriesAt(s.info, Runs.Shuffle(s, n, draws).info);
  }

  lemma AnnouncedCounts(w: World, s: State, t: State, isNew: bool, a: Address, source: NetAddr, penalty: int,
                        now1: int, now2: int, rnd: nat, id: Id)
    requires IsAnnounced(w, s, t, isNew, a, source, penalty, now1, now2, rnd) && id in s.info && id in t.info && id.n < s.nIdCount
    ensures t.info[id].nAttempts == s.info[id].nAttempts && t.info[id].nLastCountAttempt == s.info[id].nLastCountAttempt
  {
    hide NewSlot, IsTerrible, Pow2;
  }

  /** Between two successes at most one failure of an address counts, over any run. */
  lemma {:induction false} CountedOnce(w: World, m: Manager, ops: seq<Runs.Op>, id: Id)
    requires Consistent(w, m.tables) && Runs.Sound(w, m, ops)
    requires forall k :: 0 <= k < |ops| ==> WithoutSuccess(ops[k], m.nLastGood)
    requires 0 <= id.n < m.tables.nIdCount && id in Runs.Run(w, m, ops).tables.info
    ensures id in m.tables.info
    ensures Runs.Run(w, m, ops).tables.info[id].nAttempts <= m.tables.info[id].nAttempts + MayCount(m.tables.info[id], m.nLastGood)
    decreases |ops|
  {
    hide Consistent, Runs.Sound, Runs.Safe, Runs.Apply, WithoutSuccess, MayCount;
    if ops != [] {
      Runs.SoundStays(w, m, ops);
      Runs.ApplyKeeps(w, m, ops[0]);
      var m1 := Runs.Apply(w, m, ops[0]);
      CountsMonotone(m.tables, m1.tables);
      KeepsLastGood(w, m, ops[0]);
      assert forall k :: 0 <= k < |ops[1..]| ==> ops[1..][k] == ops[k + 1];
      CountedOnce(w, m1, ops[1..], id);
      ApplyCounts(w, m, ops[0], id);
    }
  }

  lemma CountsMonotone(s: State, t: State)
    requires Grows(s, t)
    ensures s.nIdCount <= t.nIdCount
  {
  }

  lemma KeepsLastGood(w: World, m: Manager, op: Runs.Op)
    requires Consistent(w, m.tables) && WithoutSuccess(op, m.nLastGood)
    ensures Runs.Apply(w, m, op).nLastGood == m.nLastGood
  {
    hide Consistent, Add, Runs.Shuffle;
  }

  // ----- resolving a collision ---------------------------------------------

  /** A pending promotion is dropped if the entry is gone or not valid any more, or the occupant
      of its slot had a success in the last four hours. Otherwise it is carried out if the slot
      is free; if the occupant was tried in the last four hours, but not in the last minute; or
      if it was not, and the entry's own success is more than forty minutes ago. Otherwise it
      stays pending. */
  ghost predicate IsResolved(w: World, m: Manager, after: Manager, id: Id, clock: nat -> int) {
    var s, dropped := m.tables, m.(collisions := m.collisions - {id});
    if id !in s.info || !w.valid(s.info[id].service.ip) then after == dropped
    else
      var entry := s.info[id];
      var slot := TriedSlot(w, s.key, s.asmap, entry.service);
      if slot !in s.triedAt then Succeeded(w, dropped, after, entry.service, false, clock(0))
      else
        && s.triedAt[slot] in s.info
        && var occupant := s.info[s.triedAt[slot]];
           if clock(0) < occupant.nLastSuccess + 14400 then after == dropped
           else if (if clock(1) < occupant.nLastTry + 14400 then occupant.nLastTry + 60 < clock(2) else entry.nLastSuccess + 2400 < clock(2))
           then Succeeded(w, dropped, after, entry.service, false, clock(3))
           else after == m
  }

  lemma ResolvedIs(w: World, m: Manager, id: Id, clock: nat -> int)
    requires Consistent(w, m.tables)
    ensures IsResolved(w, m, Runs.ResolveOne(w, m, id, clock), id, clock)
  {
    hide RandomOk, AddrOk, NewOk, RefsOk, CountsOk, TriedSlot, Good, Succeeded;
    if id in m.tables.info {
      var dropped, a := m.(collisions := m.collisions - {id}), m.tables.info[id].service;
      GoodSucceeds(w, dropped, a, false, clock(0));
      GoodSucceeds(w, dropped, a, false, clock(3));
    }
  }
}
