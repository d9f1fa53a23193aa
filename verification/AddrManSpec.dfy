/** The operations of the address manager as functions on its tables, and the
    proof that every run of them keeps the tables consistent. */
module AddrManSpec {
  import opened AddrManState
  import opened Common
  import opened AddrManSteps

  /** The whole manager: the tables, the time of the last Good, and the ids whose
      promotion to tried waits for a collision to be resolved. */
  datatype Manager = Manager(tables: State, nLastGood: int, collisions: set<Id>)

  // ----- moving between new and tried --------------------------------------

  /** Every reference to id is gone. */
  function DropRefs(s: State, id: Id): State
    requires id in s.info
  {
    s.(info := s.info[id := s.info[id].(nRefCount := 0)], newAt := s.newAt - SlotsOf(s.newAt, id))
  }

  /** The entry in the tried slot is neither new nor tried. */
  function Untry(s: State, slot: Slot): State
    requires slot in s.triedAt && s.triedAt[slot] in s.info
  {
    var id := s.triedAt[slot];
    s.(info := s.info[id := s.info[id].(fInTried := false)], triedAt := s.triedAt - {slot},
       nTried := s.nTried - 1, nNew := s.nNew + 1)
  }

  function Try(s: State, id: Id, slot: Slot): State
    requires id in s.info
  {
    s.(info := s.info[id := s.info[id].(fInTried := true)], triedAt := s.triedAt[slot := id],
       nTried := s.nTried + 1, nNew := s.nNew - 1)
  }

  lemma DropRefsKeeps(w: World, s: State, id: Id)
    requires Consistent(w, s)
    requires id in s.info && !s.info[id].fInTried
    ensures ConsistentBut(w, DropRefs(s, id), {id})
  {
    hide RandomOk, AddrOk, TriedOk, RefsOk, CountsOk;
    RefCountIrrelevant(w, s, id, 0);
    RefCountAddr(s.info, s.addr, id, 0);
    DropRefsRefs(s.info, s.newAt, id);
  }

  lemma DropRefsRefs(info: map<Id, AddrInfo>, newAt: map<Slot, Id>, id: Id)
    requires RefsOk(info, newAt, {})
    requires id in info && !info[id].fInTried
    ensures RefsOk(info[id := info[id].(nRefCount := 0)], newAt - SlotsOf(newAt, id), {id})
  {
    forall x <- info
      ensures SlotsOf(newAt - SlotsOf(newAt, id), x) == if x == id then {} else SlotsOf(newAt, x)
    {
    }
  }

  lemma UntryKeeps(w: World, s: State, slot: Slot, loose: set<Id>)
    requires ConsistentBut(w, s, loose)
    requires slot in s.triedAt
    ensures s.triedAt[slot] in s.info
    ensures ConsistentBut(w, Untry(s, slot), loose + {s.triedAt[slot]})
  {
    hide RandomOk, AddrOk, NewOk, RefsOk, CountsOk;
    var id := s.triedAt[slot];
    var info := s.info[id := s.info[id].(fInTried := false)];
    MoveIrrelevant(w, s, id, false);
    UntryTried(w, s, slot);
    UntryRefs(s.info, s.newAt, id, loose);
    MoveCounts(s.info, s.nIdCount, s.nTried, s.nNew, id, false);
  }

  lemma MoveIrrelevant(w: World, s: State, id: Id, tried: bool)
    requires RandomOk(s.info, s.random) && AddrOk(s.info, s.addr) && NewOk(w, s.key, s.info, s.newAt)
    requires id in s.info
    ensures var info := s.info[id := s.info[id].(fInTried := tried)];
            RandomOk(info, s.random) && AddrOk(info, s.addr) && NewOk(w, s.key, info, s.newAt)
  {
    hide RandomOk, AddrOk, NewOk;
    var entry := s.info[id].(fInTried := tried);
    UpdateRandom(s.info, s.random, id, entry);
    UpdateAddr(s.info, s.addr, id, entry);
    UpdateNew(w, s.key, s.info, s.newAt, id, entry);
  }

  lemma UpdateRandom(info: map<Id, AddrInfo>, random: seq<Id>, id: Id, entry: AddrInfo)
    requires RandomOk(info, random) && id in info && entry.nRandomPos == info[id].nRandomPos
    ensures RandomOk(info[id := entry], random)
  {
  }

  lemma UpdateAddr(info: map<Id, AddrInfo>, addr: map<NetAddr, Id>, id: Id, entry: AddrInfo)
    requires AddrOk(info, addr) && id in info && entry.service == info[id].service
    ensures AddrOk(info[id := entry], addr)
  {
  }

  lemma UpdateNew(w: World, key: Key, info: map<Id, AddrInfo>, newAt: map<Slot, Id>, id: Id, entry: AddrInfo)
    requires NewOk(w, key, info, newAt) && id in info && entry.service == info[id].service
    ensures NewOk(w, key, info[id := entry], newAt)
  {
    hide NewSlotIn;
  }

  lemma UntryTried(w: World, s: State, slot: Slot)
    requires TriedOk(w, s.key, s.asmap, s.info, s.triedAt)
    requires slot in s.triedAt
    ensures var id := s.triedAt[slot];
            TriedOk(w, s.key, s.asmap, s.info[id := s.info[id].(fInTried := false)], s.triedAt - {slot})
  {
  }

  lemma UntryRefs(info: map<Id, AddrInfo>, newAt: map<Slot, Id>, id: Id, loose: set<Id>)
    requires RefsOk(info, newAt, loose)
    requires id in info && info[id].fInTried
    ensures RefsOk(info[id := info[id].(fInTried := false)], newAt, loose + {id})
  {
  }

  lemma MoveCounts(info: map<Id, AddrInfo>, nIdCount: int, nTried: int, nNew: int, id: Id, tried: bool)
    requires CountsOk(info, nIdCount, nTried, nNew)
    requires id in info && info[id].fInTried != tried
    ensures var d := if tried then 1 else -1;
            CountsOk(info[id := info[id].(fInTried := tried)], nIdCount, nTried + d, nNew - d)
  {
    var info' := info[id := info[id].(fInTried := tried)];
    if tried {
      assert TriedIds(info') == TriedIds(info) + {id};
      assert NewIds(info') == NewIds(info) - {id};
    } else {
      assert TriedIds(info') == TriedIds(info) - {id};
      assert NewIds(info') == NewIds(info) + {id};
    }
  }

  lemma TryKeeps(w: World, s: State, id: Id, slot: Slot, loose: set<Id>)
    requires ConsistentBut(w, s, loose)
    requires id in s.info && id in loose && !s.info[id].fInTried
    requires slot == TriedSlot(w, s.key, s.asmap, s.info[id].service) && slot !in s.triedAt
    ensures ConsistentBut(w, Try(s, id, slot), loose - {id})
  {
    hide RandomOk, AddrOk, NewOk, TriedOk, RefsOk, CountsOk;
    MoveIrrelevant(w, s, id, true);
    TryTried(w, s, id, slot);
    TryRefs(s.info, s.newAt, id, loose);
    MoveCounts(s.info, s.nIdCount, s.nTried, s.nNew, id, true);
  }

  lemma TryRefs(info: map<Id, AddrInfo>, newAt: map<Slot, Id>, id: Id, loose: set<Id>)
    requires RefsOk(info, newAt, loose)
    requires id in info && id in loose
    ensures RefsOk(info[id := info[id].(fInTried := true)], newAt, loose - {id})
  {
  }

  lemma TryTried(w: World, s: State, id: Id, slot: Slot)
    requires TriedOk(w, s.key, s.asmap, s.info, s.triedAt)
    requires id in s.info && !s.info[id].fInTried
    requires slot == TriedSlot(w, s.key, s.asmap, s.info[id].service) && slot !in s.triedAt
    ensures TriedOk(w, s.key, s.asmap, s.info[id := s.info[id].(fInTried := true)], s.triedAt[slot := id])
  {
    hide TriedSlot;
  }

  /** The occupant of a tried slot goes back to new, into the slot its own source
      gives it, whatever was there. */
  function Evict(w: World, s: State, slot: Slot, loose: set<Id>): State
    requires ConsistentBut(w, s, loose)
    requires slot in s.triedAt
  {
    UntryKeeps(w, s, slot, loose);
    var evicted := s.triedAt[slot];
    var entry := s.info[evicted];
    var s1 := Untry(s, slot);
    var newSlot := NewSlot(w, s.key, s.asmap, entry.service, entry.source);
    ClearNewKeeps(w, s1, newSlot, loose + {evicted});
    LooseStays(s1, newSlot, loose + {evicted}, evicted);
    Ref(ClearNew(s1, newSlot), evicted, newSlot)
  }

  /** Clearing a slot never removes an entry that has no reference. */
  lemma LooseStays(s: State, slot: Slot, loose: set<Id>, id: Id)
    requires RandomOk(s.info, s.random) && RefsOk(s.info, s.newAt, loose)
    requires slot in s.newAt ==> s.newAt[slot] in s.info
    requires SameButPositions(ClearedInfo(s, slot), ClearNew(s, slot).info)
    requires id in s.info && s.info[id].nRefCount == 0
    ensures slot in s.newAt ==> s.newAt[slot] != id
    ensures id in ClearNew(s, slot).info && SameEntry(s.info[id], ClearNew(s, slot).info[id])
  {
    hide RandomOk;
    hide ClearNew;
    if slot in s.newAt {
      assert slot in SlotsOf(s.newAt, s.newAt[slot]);
    }
    assert id in ClearedInfo(s, slot) && ClearedInfo(s, slot)[id] == s.info[id];
  }

  /** Half way through an eviction the evicted entry has no reference, and its own
      new slot is free. */
  lemma EvictHalfway(w: World, s: State, slot: Slot, loose: set<Id>)
    requires ConsistentBut(w, s, loose)
    requires slot in s.triedAt
    ensures s.triedAt[slot] in s.info
    ensures var evicted := s.triedAt[slot]; var s1 := Untry(s, slot); var to := EvictedTo(w, s, slot);
            && ConsistentBut(w, s1, loose + {evicted})
            && (to in s1.newAt ==> s1.newAt[to] in s1.info)
            && evicted in ClearNew(s1, to).info && ClearNew(s1, to).info[evicted].nRefCount == 0
            && to !in ClearNew(s1, to).newAt
            && Evict(w, s, slot, loose) == Ref(ClearNew(s1, to), evicted, to)
  {
    hide RandomOk, AddrOk, NewOk, TriedOk, RefsOk, CountsOk;
    UntryKeeps(w, s, slot, loose);
    var evicted := s.triedAt[slot];
    var s1 := Untry(s, slot);
    ClearNewKeeps(w, s1, EvictedTo(w, s, slot), loose + {evicted});
    LooseCount(s1.info, s1.newAt, loose + {evicted}, evicted);
    LooseStays(s1, EvictedTo(w, s, slot), loose + {evicted}, evicted);
  }

  /** The new slot the occupant of a tried slot falls back to. */
  function EvictedTo(w: World, s: State, slot: Slot): Slot
    requires slot in s.triedAt && s.triedAt[slot] in s.info
  {
    var entry := s.info[s.triedAt[slot]];
    NewSlot(w, s.key, s.asmap, entry.service, entry.source)
  }

  /** The entries after an eviction: the evicted one has its single new reference,
      the one that held its slot has one reference less or is gone. */
  function EvictedInfo(w: World, s: State, slot: Slot): map<Id, AddrInfo>
    requires slot in s.triedAt && s.triedAt[slot] in s.info
    requires EvictedTo(w, s, slot) in s.newAt ==> s.newAt[EvictedTo(w, s, slot)] in s.info
  {
    var evicted := s.triedAt[slot];
    ClearedInfo(s, EvictedTo(w, s, slot))[evicted := s.info[evicted].(fInTried := false, nRefCount := 1)]
  }

  lemma EvictKeeps(w: World, s: State, slot: Slot, loose: set<Id>)
    requires ConsistentBut(w, s, loose)
    requires slot in s.triedAt && s.triedAt[slot] !in loose
    ensures s.triedAt[slot] in s.info
    ensures EvictedTo(w, s, slot) in s.newAt ==> s.newAt[EvictedTo(w, s, slot)] in s.info
    ensures var t := Evict(w, s, slot, loose);
            && ConsistentBut(w, t, loose)
            && t.triedAt == s.triedAt - {slot}
            && t.key == s.key && t.asmap == s.asmap && t.nIdCount == s.nIdCount
            && t.newAt == s.newAt[EvictedTo(w, s, slot) := s.triedAt[slot]]
            && SameButPositions(EvictedInfo(w, s, slot), t.info)
  {
    hide ConsistentBut, Evict, ClearNew, SameButPositions, EvictedInfo, NewSlot;
    EvictHalfway(w, s, slot, loose);
    var evicted := s.triedAt[slot];
    var s1 := Untry(s, slot);
    var newSlot := EvictedTo(w, s, slot);
    ClearNewKeeps(w, s1, newSlot, loose + {evicted});
    EvictedEntry(w, s, slot, loose);
    RefKeeps(w, ClearNew(s1, newSlot), evicted, newSlot, loose + {evicted});
    assert loose + {evicted} - {evicted} == loose;
  }

  lemma EvictedEntry(w: World, s: State, slot: Slot, loose: set<Id>)
    requires ConsistentBut(w, s, loose)
    requires slot in s.triedAt && s.triedAt[slot] !in loose
    ensures s.triedAt[slot] in s.info
    ensures EvictedTo(w, s, slot) in s.newAt ==> s.newAt[EvictedTo(w, s, slot)] in s.info
    ensures var evicted := s.triedAt[slot]; var to := EvictedTo(w, s, slot);
            && RandomOk(Untry(s, slot).info, s.random)
            && (to in Untry(s, slot).newAt ==> Untry(s, slot).newAt[to] in Untry(s, slot).info)
            && var info := ClearNew(Untry(s, slot), to).info;
            && evicted in info && !info[evicted].fInTried && info[evicted].nRefCount == 0 && info[evicted].service == s.info[evicted].service
            && 0 <= to.bucket < NEW_BUCKET_COUNT && to == NewSlotIn(w, s.key, to.bucket, s.info[evicted].service)
            && SameButPositions(EvictedInfo(w, s, slot), info[evicted := info[evicted].(nRefCount := 1)])
  {
    hide RandomOk, AddrOk, NewOk, TriedOk, RefsOk, CountsOk, ClearNew;
    UntryKeeps(w, s, slot, loose);
    var evicted := s.triedAt[slot];
    var s1 := Untry(s, slot);
    var to := EvictedTo(w, s, slot);
    ClearNewKeeps(w, s1, to, loose + {evicted});
    LooseCount(s1.info, s1.newAt, loose + {evicted}, evicted);
    LooseStays(s1, to, loose + {evicted}, evicted);
    var info := ClearNew(s1, to).info;
    SameAfterUpdate(ClearedInfo(s1, to), info, evicted, s.info[evicted].(fInTried := false, nRefCount := 1), info[evicted].(nRefCount := 1));
  }

  lemma LooseCount(info: map<Id, AddrInfo>, newAt: map<Slot, Id>, loose: set<Id>, id: Id)
    requires RefsOk(info, newAt, loose)
    requires id in info && id in loose
    ensures info[id].nRefCount == 0
  {
  }

  /** Entry id moves from new to the tried slot its address hashes to; whoever was
      there goes back to new. */
  function MakeTried(w: World, s: State, id: Id): State
    requires Consistent(w, s)
    requires id in s.info && !s.info[id].fInTried
  {
    var s1 := DropRefs(s, id);
    DropRefsKeeps(w, s, id);
    var slot := TriedSlot(w, s.key, s.asmap, s.info[id].service);
    if slot in s1.triedAt then
      EvictLeaves(w, s1, slot, id);
      Try(Evict(w, s1, slot, {id}), id, slot)
    else
      Try(s1, id, slot)
  }

  /** Evicting some entry does not touch an entry that has no reference. */
  lemma EvictLeaves(w: World, s: State, slot: Slot, id: Id)
    requires ConsistentBut(w, s, {id})
    requires id in s.info && !s.info[id].fInTried
    requires slot in s.triedAt
    ensures s.triedAt[slot] != id
    ensures id in Evict(w, s, slot, {id}).info && SameEntry(s.info[id], Evict(w, s, slot, {id}).info[id])
  {
    hide RandomOk, AddrOk, NewOk, RefsOk, CountsOk;
    var evicted := s.triedAt[slot];
    UntryKeeps(w, s, slot, {id});
    var s1 := Untry(s, slot);
    LooseCount(s1.info, s1.newAt, {id} + {evicted}, id);
    var newSlot := NewSlot(w, s.key, s.asmap, s.info[evicted].service, s.info[evicted].source);
    ClearNewKeeps(w, s1, newSlot, {id} + {evicted});
    LooseStays(s1, newSlot, {id} + {evicted}, id);
  }

  /** The entries after promoting id: id is tried without references, and an evicted
      occupant of its tried slot has gone through EvictedInfo. */
  function PromotedInfo(w: World, s: State, id: Id): map<Id, AddrInfo>
    requires Consistent(w, s)
    requires id in s.info && !s.info[id].fInTried
  {
    var s1 := DropRefs(s, id);
    DropRefsKeeps(w, s, id);
    var slot := TriedSlot(w, s.key, s.asmap, s.info[id].service);
    var info := if slot in s.triedAt then EvictedInfo(w, s1, slot) else s1.info;
    info[id := s.info[id].(fInTried := true, nRefCount := 0)]
  }

  lemma MakeTriedKeeps(w: World, s: State, id: Id)
    requires Consistent(w, s)
    requires id in s.info && !s.info[id].fInTried
    ensures var t := MakeTried(w, s, id); var slot := TriedSlot(w, s.key, s.asmap, s.info[id].service);
            && Consistent(w, t)
            && t.triedAt == s.triedAt[slot := id]
            && t.key == s.key && t.asmap == s.asmap && t.nIdCount == s.nIdCount
            && SameButPositions(PromotedInfo(w, s, id), t.info)
  {
    hide RandomOk, AddrOk, NewOk, TriedOk, RefsOk, CountsOk;
    hide TriedSlot, SameButPositions, EvictedInfo;
    var s1 := DropRefs(s, id);
    DropRefsKeeps(w, s, id);
    var slot := TriedSlot(w, s.key, s.asmap, s.info[id].service);
    assert {id} - {id} == {};
    if slot in s1.triedAt {
      EvictLeaves(w, s1, slot, id);
      EvictKeeps(w, s1, slot, {id});
      var s2 := Evict(w, s1, slot, {id});
      TryKeeps(w, s2, id, slot, {id});
      assert s2.triedAt[slot := id] == s.triedAt[slot := id];
      SameAfterUpdate(EvictedInfo(w, s1, slot), s2.info, id, s.info[id].(fInTried := true, nRefCount := 0), s2.info[id].(fInTried := true));
    } else {
      TryKeeps(w, s1, id, slot, {id});
      SameAfterUpdate(s1.info, s1.info, id, s.info[id].(fInTried := true, nRefCount := 0), s1.info[id].(fInTried := true));
    }
  }

  lemma SameAfterUpdate(info: map<Id, AddrInfo>, info': map<Id, AddrInfo>, id: Id, a: AddrInfo, b: AddrInfo)
    requires info == info' || SameButPositions(info, info')
    requires SameEntry(a, b)
    ensures SameButPositions(info[id := a], info'[id := b])
  {
  }

  // ----- the manager's operations ------------------------------------------

  /** Rewriting the statistics of one entry. */
  function Touch(s: State, id: Id, entry: AddrInfo): State {
    s.(info := s.info[id := entry])
  }

  predicate SameStanding(a: AddrInfo, b: AddrInfo) {
    a.service == b.service && a.nRefCount == b.nRefCount && a.fInTried == b.fInTried && a.nRandomPos == b.nRandomPos
  }

  lemma TouchKeeps(w: World, s: State, id: Id, entry: AddrInfo, loose: set<Id>)
    requires ConsistentBut(w, s, loose)
    requires id in s.info && SameStanding(s.info[id], entry)
    ensures ConsistentBut(w, Touch(s, id, entry), loose)
  {
    hide RandomOk, AddrOk, NewOk, TriedOk, RefsOk, CountsOk;
    var info := s.info[id := entry];
    assert SameSplit(s.info, info);
    TouchRandom(s.info, s.random, id, entry);
    TouchRefs(s.info, s.newAt, id, entry, loose);
    SameAddr(s.info, info, s.addr);
    SameNew(w, s.key, s.info, info, s.newAt);
    SameTried(w, s.key, s.asmap, s.info, info, s.triedAt);
    TouchCounts(s.info, s.nIdCount, s.nTried, s.nNew, info);
  }

  lemma TouchRandom(info: map<Id, AddrInfo>, random: seq<Id>, id: Id, entry: AddrInfo)
    requires RandomOk(info, random)
    requires id in info && info[id].nRandomPos == entry.nRandomPos
    ensures RandomOk(info[id := entry], random)
  {
  }

  lemma TouchRefs(info: map<Id, AddrInfo>, newAt: map<Slot, Id>, id: Id, entry: AddrInfo, loose: set<Id>)
    requires RefsOk(info, newAt, loose)
    requires id in info && SameStanding(info[id], entry)
    ensures RefsOk(info[id := entry], newAt, loose)
  {
  }

  lemma TouchCounts(info: map<Id, AddrInfo>, nIdCount: int, nTried: int, nNew: int, info': map<Id, AddrInfo>)
    requires CountsOk(info, nIdCount, nTried, nNew) && SameSplit(info, info')
    ensures CountsOk(info', nIdCount, nTried, nNew)
  {
    SameIdSets(info, info');
  }

  /** The entry of exactly this address and port. */
  predicate Knows(s: State, a: Service) {
    a.ip in s.addr && s.addr[a.ip] in s.info && s.info[s.addr[a.ip]].service == a
  }

  function MarkGood(entry: AddrInfo, nTime: int): AddrInfo {
    entry.(nLastSuccess := nTime, nLastTry := nTime, nAttempts := 0)
  }

  function Good(w: World, m: Manager, a: Service, testBeforeEvict: bool, nTime: int): Manager
    requires Consistent(w, m.tables)
  {
    var s := m.tables;
    var m1 := m.(nLastGood := nTime);
    if !Knows(s, a) then m1 else
      var id := s.addr[a.ip];
      var s1 := Touch(s, id, MarkGood(s.info[id], nTime));
      TouchKeeps(w, s, id, MarkGood(s.info[id], nTime), {});
      if s.info[id].fInTried then m1.(tables := s1)
      else if testBeforeEvict && TriedSlot(w, s.key, s.asmap, a) in s.triedAt then
        if |m.collisions| < SET_TRIED_COLLISION_SIZE
        then m1.(tables := s1, collisions := m.collisions + {id})
        else m1.(tables := s1)
      else m1.(tables := MakeTried(w, s1, id))
  }

  /** What an announcement does to the statistics of an address already known. */
  function Announced(entry: AddrInfo, a: Address, penalty: int, now: int): (r: AddrInfo)
    ensures SameStanding(entry, r)
  {
    var interval := if now - a.nTime < 24 * 60 * 60 then 60 * 60 else 24 * 60 * 60;
    var nTime :=
      if a.nTime != 0 && (entry.nTime == 0 || entry.nTime < a.nTime - interval - penalty)
      then Max(0, a.nTime - penalty) else entry.nTime;
    entry.(nTime := nTime, services := entry.services + a.services)
  }

  /** Whether an announcement of a known address may earn it one more reference. */
  predicate MayAddRef(entry: AddrInfo, a: Address, rnd: nat)
    requires entry.nRefCount >= 0
  {
    && a.nTime != 0 && !(entry.nTime != 0 && a.nTime <= entry.nTime)
    && !entry.fInTried
    && entry.nRefCount != NEW_BUCKETS_PER_ADDRESS
    && rnd % Pow2(entry.nRefCount) == 0
  }

  /** Giving id a reference in slot, when the slot is free or its holder gives way. */
  function Place(w: World, s: State, id: Id, slot: Slot, now: int, loose: set<Id>): State
    requires ConsistentBut(w, s, loose)
    requires id in s.info && !s.info[id].fInTried
  {
    if slot in s.newAt && s.newAt[slot] == id then s
    else if GivesWay(s, id, slot, now) then
      ClearNewKeeps(w, s, slot, loose);
      PlacedStays(s, id, slot);
      Ref(ClearNew(s, slot), id, slot)
    else if s.info[id].nRefCount == 0 then Delete(s, id) else s
  }

  predicate GivesWay(s: State, id: Id, slot: Slot, now: int)
    requires id in s.info
    requires slot in s.newAt ==> s.newAt[slot] in s.info
  {
    slot in s.newAt ==>
      var existing := s.info[s.newAt[slot]];
      IsTerrible(existing, now) || (existing.nRefCount > 1 && s.info[id].nRefCount == 0)
  }

  lemma PlacedStays(s: State, id: Id, slot: Slot)
    requires RandomOk(s.info, s.random)
    requires slot in s.newAt ==> s.newAt[slot] in s.info && s.newAt[slot] != id
    requires SameButPositions(ClearedInfo(s, slot), ClearNew(s, slot).info)
    requires id in s.info
    ensures id in ClearNew(s, slot).info && SameEntry(s.info[id], ClearNew(s, slot).info[id])
  {
    hide RandomOk;
    hide ClearNew;
    assert id in ClearedInfo(s, slot) && ClearedInfo(s, slot)[id] == s.info[id];
  }

  lemma PlaceRefKeeps(w: World, s: State, id: Id, slot: Slot, loose: set<Id>)
    requires ConsistentBut(w, s, loose) && loose <= {id}
    requires id in s.info && !s.info[id].fInTried && s.info[id].nRefCount < NEW_BUCKETS_PER_ADDRESS
    requires 0 <= slot.bucket < NEW_BUCKET_COUNT && slot == NewSlotIn(w, s.key, slot.bucket, s.info[id].service)
    requires slot in s.newAt ==> s.newAt[slot] in s.info && s.newAt[slot] != id
    ensures id in ClearNew(s, slot).info
    ensures var t := Ref(ClearNew(s, slot), id, slot);
            && Consistent(w, t) && t.triedAt == s.triedAt && t.nIdCount == s.nIdCount && t.key == s.key && t.asmap == s.asmap
            && SameOldEntries(s.info, t.info, s.nIdCount)
  {
    hide RandomOk, AddrOk, TriedOk, CountsOk, NewOk, RefsOk;
    hide SameButPositions, SameOldEntries, ClearNew;
    ClearNewKeeps(w, s, slot, loose);
    PlacedStays(s, id, slot);
    var s1 := ClearNew(s, slot);
    RefKeeps(w, s1, id, slot, loose);
    assert loose - {id} == {};
    ClearNewOld(s, slot, s1, s.nIdCount);
    SameOldUpdate(s1.info, id, s1.info[id].(nRefCount := s1.info[id].nRefCount + 1), s.nIdCount);
    SameOldTwice(s.info, s1.info, Ref(s1, id, slot).info, s.nIdCount);
  }

  lemma PlaceDeleteKeeps(w: World, s: State, id: Id)
    requires ConsistentBut(w, s, {id})
    requires id in s.info && !s.info[id].fInTried
    ensures var t := Delete(s, id);
            && Consistent(w, t) && t.triedAt == s.triedAt && t.nIdCount == s.nIdCount && t.key == s.key && t.asmap == s.asmap
            && SameOldEntries(s.info, t.info, s.nIdCount)
  {
    hide RandomOk, AddrOk, TriedOk, CountsOk, NewOk, RefsOk;
    hide SameButPositions;
    DeleteKeeps(w, s, id, {id});
    assert {id} - {id} == {};
    SameOldButPositions(s.info - {id}, Delete(s, id).info, s.nIdCount);
  }

  lemma PlaceKeeps(w: World, s: State, id: Id, slot: Slot, now: int, loose: set<Id>)
    requires ConsistentBut(w, s, loose) && loose <= {id}
    requires id in s.info && !s.info[id].fInTried && s.info[id].nRefCount < NEW_BUCKETS_PER_ADDRESS
    requires 0 <= slot.bucket < NEW_BUCKET_COUNT && slot == NewSlotIn(w, s.key, slot.bucket, s.info[id].service)
    ensures var t := Place(w, s, id, slot, now, loose);
            Consistent(w, t) && t.triedAt == s.triedAt && t.nIdCount == s.nIdCount && t.key == s.key && t.asmap == s.asmap
            && SameOldEntries(s.info, t.info, s.nIdCount)
  {
    hide RandomOk, AddrOk, TriedOk, CountsOk, SameOldEntries;
    SameOldSelf(s.info, s.nIdCount);
    if slot in s.newAt && s.newAt[slot] == id {
      assert slot in SlotsOf(s.newAt, id);
      assert loose == {};
    } else if GivesWay(s, id, slot, now) {
      hide RefsOk;
      PlaceRefKeeps(w, s, id, slot, loose);
    } else if s.info[id].nRefCount == 0 {
      assert loose == {id};
      hide RefsOk, NewOk;
      PlaceDeleteKeeps(w, s, id);
    } else {
      assert loose == {};
    }
  }

  /** An announcement of a known address: fresher statistics, and perhaps one more reference. */
  function AddKnown(w: World, s: State, a: Address, source: NetAddr, penalty: int, now1: int, now2: int, rnd: nat): State
    requires Consistent(w, s) && a.service.ip in s.addr
  {
    var id := s.addr[a.service.ip];
    var entry := Announced(s.info[id], a, penalty, now1);
    var s1 := Touch(s, id, entry);
    TouchKeeps(w, s, id, entry, {});
    if !MayAddRef(entry, a, rnd) then s1
    else Place(w, s1, id, NewSlot(w, s.key, s.asmap, entry.service, source), now2, {})
  }

  /** An announcement of an unknown address: a new entry, if it finds a place. */
  function AddUnknown(w: World, s: State, a: Address, source: NetAddr, penalty: int, now: int): State
    requires Consistent(w, s) && a.service.ip !in s.addr
  {
    var id := Id(s.nIdCount);
    var s1 := Created(s, a, source, penalty);
    CreatedKeeps(w, s, a, source, penalty);
    Place(w, s1, id, NewSlot(w, s.key, s.asmap, a.service, source), now, {id})
  }

  /** An announcement of address a by source. The answer says whether a was unknown,
      even when the tables turn it away at once. */
  function Add(w: World, s: State, a: Address, source: NetAddr, penalty: int, now1: int, now2: int, rnd: nat): (r: (State, bool))
    requires Consistent(w, s)
  {
    var pen := if a.service.ip == source then 0 else penalty;
    if !w.routable(a.service.ip) then (s, false)
    else if a.service.ip in s.addr then (AddKnown(w, s, a, source, pen, now1, now2, rnd), false)
    else (AddUnknown(w, s, a, source, pen, now2), true)
  }

  /** The tables with a fresh entry for a, counted as new but without a reference. */
  function Created(s: State, a: Address, source: NetAddr, penalty: int): State {
    var s1 := Create(s, a, source);
    var id := Id(s.nIdCount);
    Touch(s1.(nNew := s.nNew + 1), id, s1.info[id].(nTime := Max(0, a.nTime - penalty)))
  }

  lemma CreatedOld(s: State, a: Address, source: NetAddr, penalty: int)
    ensures SameOldEntries(s.info, Created(s, a, source, penalty).info, s.nIdCount)
  {
  }

  lemma CreatedKeeps(w: World, s: State, a: Address, source: NetAddr, penalty: int)
    requires Consistent(w, s)
    requires a.service.ip !in s.addr
    ensures ConsistentBut(w, Created(s, a, source, penalty), {Id(s.nIdCount)})
  {
    hide RandomOk, AddrOk, NewOk, TriedOk, RefsOk, CountsOk;
    CreateKeeps(w, s, a, source);
    var s1 := Create(s, a, source).(nNew := s.nNew + 1);
    var id := Id(s.nIdCount);
    TouchKeeps(w, s1, id, s1.info[id].(nTime := Max(0, a.nTime - penalty)), {id});
  }

  lemma AddKeeps(w: World, s: State, a: Address, source: NetAddr, penalty: int, now1: int, now2: int, rnd: nat)
    requires Consistent(w, s)
    ensures var t := Add(w, s, a, source, penalty, now1, now2, rnd).0;
            Consistent(w, t) && Grows(s, t) && t.triedAt == s.triedAt
  {
    hide RandomOk, NewOk, TriedOk, CountsOk;
    hide SameOldEntries;
    var pen := if a.service.ip == source then 0 else penalty;
    SameOldSelf(s.info, s.nIdCount);
    if w.routable(a.service.ip) {
      if a.service.ip in s.addr {
        var id := s.addr[a.service.ip];
        var entry := Announced(s.info[id], a, pen, now1);
        var s1 := Touch(s, id, entry);
        TouchKeeps(w, s, id, entry, {});
        SameOldUpdate(s.info, id, entry, s.nIdCount);
        if MayAddRef(entry, a, rnd) {
          hide RefsOk, AddrOk;
          var slot := NewSlot(w, s.key, s.asmap, entry.service, source);
          PlaceKeeps(w, s1, id, slot, now2, {});
          SameOldTwice(s.info, s1.info, Place(w, s1, id, slot, now2, {}).info, s.nIdCount);
        }
      } else {
        hide RefsOk, AddrOk;
        var id := Id(s.nIdCount);
        CreatedKeeps(w, s, a, source, pen);
        CreatedOld(s, a, source, pen);
        var s1 := Created(s, a, source, pen);
        var slot := NewSlot(w, s.key, s.asmap, a.service, source);
        PlaceKeeps(w, s1, id, slot, now2, {id});
        SameOldFewer(s1.info, Place(w, s1, id, slot, now2, {id}).info, s.nIdCount, s1.nIdCount);
        SameOldTwice(s.info, s1.info, Place(w, s1, id, slot, now2, {id}).info, s.nIdCount);
      }
    }
  }

  lemma PromotedOld(w: World, s: State, id: Id, n: int)
    requires Consistent(w, s)
    requires id in s.info && !s.info[id].fInTried
    ensures SameOldEntries(s.info, PromotedInfo(w, s, id), n)
  {
    hide SameOldEntries, ConsistentBut, EvictedInfo, TriedSlot;
    var s1 := DropRefs(s, id);
    DropRefsKeeps(w, s, id);
    var slot := TriedSlot(w, s.key, s.asmap, s.info[id].service);
    SameOldUpdate(s.info, id, s1.info[id], n);
    if slot in s.triedAt {
      EvictedOld(w, s1, slot, {id}, n);
      var info := EvictedInfo(w, s1, slot);
      SameOldUpdateTwice(s.info, s1.info, info, id, s.info[id].(fInTried := true, nRefCount := 0), n);
    } else {
      SameOldUpdateTwice(s.info, s1.info, s1.info, id, s.info[id].(fInTried := true, nRefCount := 0), n);
    }
  }

  lemma SameOldUpdateTwice(a: map<Id, AddrInfo>, b: map<Id, AddrInfo>, c: map<Id, AddrInfo>, id: Id, entry: AddrInfo, n: int)
    requires SameOldEntries(a, b, n) && (b == c || SameOldEntries(b, c, n))
    requires id in a && a[id].service == entry.service
    ensures SameOldEntries(a, c[id := entry], n)
  {
  }

  lemma EvictedOld(w: World, s: State, slot: Slot, loose: set<Id>, n: int)
    requires ConsistentBut(w, s, loose) && slot in s.triedAt
    ensures s.triedAt[slot] in s.info
    ensures EvictedTo(w, s, slot) in s.newAt ==> s.newAt[EvictedTo(w, s, slot)] in s.info
    ensures SameOldEntries(s.info, EvictedInfo(w, s, slot), n)
  {
    hide RandomOk, AddrOk, RefsOk, CountsOk, EvictedTo;
  }

  lemma GoodKeeps(w: World, m: Manager, a: Service, testBeforeEvict: bool, nTime: int)
    requires Consistent(w, m.tables)
    ensures var m' := Good(w, m, a, testBeforeEvict, nTime);
            && Consistent(w, m'.tables)
            && Grows(m.tables, m'.tables)
  {
    hide SameOldEntries;
    hide RandomOk, AddrOk, NewOk, TriedOk, RefsOk, CountsOk;
    hide TriedSlot;
    hide MakeTried, PromotedInfo, SameButPositions;
    var s := m.tables;
    SameOldSelf(s.info, s.nIdCount);
    if Knows(s, a) {
      var id := s.addr[a.ip];
      var entry := MarkGood(s.info[id], nTime);
      var s1 := Touch(s, id, entry);
      TouchKeeps(w, s, id, entry, {});
      SameOldUpdate(s.info, id, entry, s.nIdCount);
      if !s.info[id].fInTried {
        MakeTriedKeeps(w, s1, id);
        PromotedOld(w, s1, id, s.nIdCount);
        SameOldButPositions(PromotedInfo(w, s1, id), MakeTried(w, s1, id).info, s.nIdCount);
        SameOldTwice(s1.info, PromotedInfo(w, s1, id), MakeTried(w, s1, id).info, s.nIdCount);
        SameOldTwice(s.info, s1.info, MakeTried(w, s1, id).info, s.nIdCount);
      }
    }
  }
}
