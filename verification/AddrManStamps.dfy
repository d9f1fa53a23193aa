/** The time stamps over whole runs, and the manager's own check after any run. */
module AddrManStamps {
  import opened AddrManState
  import opened AddrManSteps
  import opened AddrManSpec
  import opened AddrManRuns
  import opened AddrManCheck

  predicate StampOk(e: AddrInfo) {
    e.nLastTry >= 0 && e.nLastSuccess >= 0 && (e.fInTried ==> e.nLastSuccess != 0)
  }

  lemma SameKeeps(a: map<Id, AddrInfo>, b: map<Id, AddrInfo>)
    requires SameButPositions(a, b) && StampsOk(a)
    ensures StampsOk(b)
  {
    forall id | id in b ensures StampOk(b[id]) { assert SameEntry(a[id], b[id]); }
  }

  lemma StampAt(info: map<Id, AddrInfo>, id: Id)
    requires StampsOk(info) && id in info
    ensures StampOk(info[id])
  {
  }

  lemma UpdateStamps(info: map<Id, AddrInfo>, id: Id, entry: AddrInfo)
    requires StampsOk(info) && StampOk(entry)
    ensures StampsOk(info[id := entry])
  {
  }

  lemma ClearedStamps(s: State, slot: Slot)
    requires slot in s.newAt ==> s.newAt[slot] in s.info
    requires StampsOk(s.info)
    ensures StampsOk(ClearedInfo(s, slot))
  {
  }

  lemma ClearNewStamps(w: World, s: State, slot: Slot, loose: set<Id>)
    requires ConsistentBut(w, s, loose) && StampsOk(s.info)
    ensures slot in s.newAt ==> s.newAt[slot] in s.info
    ensures StampsOk(ClearNew(s, slot).info)
  {
    hide RandomOk, AddrOk, NewOk, TriedOk, RefsOk, CountsOk, ClearNew, SameButPositions, StampsOk, ClearedInfo;
    ClearNewKeeps(w, s, slot, loose);
    ClearedStamps(s, slot);
    SameKeeps(ClearedInfo(s, slot), ClearNew(s, slot).info);
  }

  lemma DeleteStamps(w: World, s: State, id: Id, loose: set<Id>)
    requires ConsistentBut(w, s, loose) && id in loose && id in s.info && !s.info[id].fInTried && StampsOk(s.info)
    ensures StampsOk(Delete(s, id).info)
  {
    hide RandomOk, AddrOk, NewOk, TriedOk, RefsOk, CountsOk, Delete, SameButPositions;
    DeleteKeeps(w, s, id, loose);
    SameKeeps(s.info - {id}, Delete(s, id).info);
  }

  lemma PlaceStamps(w: World, s: State, id: Id, slot: Slot, now: int, loose: set<Id>)
    requires ConsistentBut(w, s, loose) && loose <= {id} && StampsOk(s.info)
    requires id in s.info && !s.info[id].fInTried
    ensures StampsOk(Place(w, s, id, slot, now, loose).info)
  {
    hide RandomOk, AddrOk, NewOk, TriedOk, CountsOk, ClearNew, Delete, StampsOk, IsTerrible;
    ClearNewStamps(w, s, slot, loose);
    if slot in s.newAt && s.newAt[slot] == id {
    } else if GivesWay(s, id, slot, now) {
      ClearNewKeeps(w, s, slot, loose);
      PlacedStays(s, id, slot);
      var e := ClearNew(s, slot).info[id];
      StampAt(ClearNew(s, slot).info, id);
      UpdateStamps(ClearNew(s, slot).info, id, e.(nRefCount := e.nRefCount + 1));
    } else if s.info[id].nRefCount == 0 {
      LooseIfNone(s.info, s.newAt, loose, id);
      DeleteStamps(w, s, id, loose);
    }
  }

  lemma LooseIfNone(info: map<Id, AddrInfo>, newAt: map<Slot, Id>, loose: set<Id>, id: Id)
    requires RefsOk(info, newAt, loose) && id in info && !info[id].fInTried && info[id].nRefCount == 0
    ensures id in loose
  {
  }

  lemma AddStamps(w: World, s: State, a: Address, source: NetAddr, penalty: int, now1: int, now2: int, rnd: nat)
    requires Consistent(w, s) && StampsOk(s.info)
    ensures StampsOk(Add(w, s, a, source, penalty, now1, now2, rnd).0.info)
  {
    hide RandomOk, NewOk, TriedOk, RefsOk, CountsOk, Place, StampsOk, Announced, MayAddRef, NewSlot;
    var pen := if a.service.ip == source then 0 else penalty;
    if w.routable(a.service.ip) {
      if a.service.ip in s.addr {
        var id := s.addr[a.service.ip];
        var entry := Announced(s.info[id], a, pen, now1);
        StampAt(s.info, id);
        AnnouncedStamps(s.info[id], a, pen, now1);
        TouchKeeps(w, s, id, entry, {});
        UpdateStamps(s.info, id, entry);
        RefsCounted(s.info, s.newAt, {}, id);
        NotTried(entry, a, rnd);
        if MayAddRef(entry, a, rnd) { PlaceStamps(w, Touch(s, id, entry), id, NewSlot(w, s.key, s.asmap, entry.service, source), now2, {}); }
      } else {
        CreatedKeeps(w, s, a, source, pen);
        CreatedStamps(s, a, source, pen);
        PlaceStamps(w, Created(s, a, source, pen), Id(s.nIdCount), NewSlot(w, s.key, s.asmap, a.service, source), now2, {Id(s.nIdCount)});
      }
    }
  }

  lemma RefsCounted(info: map<Id, AddrInfo>, newAt: map<Slot, Id>, loose: set<Id>, id: Id)
    requires RefsOk(info, newAt, loose) && id in info
    ensures info[id].nRefCount >= 0
  {
  }

  lemma NotTried(entry: AddrInfo, a: Address, rnd: nat)
    requires entry.nRefCount >= 0
    ensures MayAddRef(entry, a, rnd) ==> !entry.fInTried
  {
  }

  lemma AnnouncedStamps(entry: AddrInfo, a: Address, penalty: int, now: int)
    requires StampOk(entry)
    ensures StampOk(Announced(entry, a, penalty, now))
  {
  }

  lemma CreatedStamps(s: State, a: Address, source: NetAddr, penalty: int)
    requires StampsOk(s.info)
    ensures StampsOk(Created(s, a, source, penalty).info)
  {
  }

  lemma PromotedStamps(w: World, s: State, id: Id)
    requires Consistent(w, s) && id in s.info && !s.info[id].fInTried
    requires StampsOk(s.info) && s.info[id].nLastSuccess != 0
    ensures StampsOk(PromotedInfo(w, s, id))
  {
    hide RandomOk, AddrOk, NewOk, RefsOk, CountsOk, TriedSlot, StampsOk, ClearedInfo, NewSlot;
    DropRefsKeeps(w, s, id);
    var s1 := DropRefs(s, id);
    var slot := TriedSlot(w, s.key, s.asmap, s.info[id].service);
    StampAt(s.info, id);
    UpdateStamps(s.info, id, s.info[id].(nRefCount := 0));
    if slot in s.triedAt {
      var out := s.triedAt[slot];
      StampAt(s1.info, out);
      ClearNewKeeps(w, s1, EvictedTo(w, s1, slot), {id});
      ClearedStamps(s1, EvictedTo(w, s1, slot));
      UpdateStamps(ClearedInfo(s1, EvictedTo(w, s1, slot)), out, s1.info[out].(fInTried := false, nRefCount := 1));
      UpdateStamps(EvictedInfo(w, s1, slot), id, s.info[id].(fInTried := true, nRefCount := 0));
    } else {
      UpdateStamps(s1.info, id, s.info[id].(fInTried := true, nRefCount := 0));
    }
  }

  lemma GoodStamps(w: World, m: Manager, a: Service, test: bool, nTime: int)
    requires Consistent(w, m.tables) && StampsOk(m.tables.info) && nTime > 0
    ensures StampsOk(Good(w, m, a, test, nTime).tables.info)
  {
    hide RandomOk, AddrOk, NewOk, TriedOk, RefsOk, CountsOk, TriedSlot, MakeTried, PromotedInfo, SameButPositions, StampsOk;
    var s := m.tables;
    if Knows(s, a) {
      var id := s.addr[a.ip];
      var entry := MarkGood(s.info[id], nTime);
      var s1 := Touch(s, id, entry);
      TouchKeeps(w, s, id, entry, {});
      UpdateStamps(s.info, id, entry);
      if !s.info[id].fInTried {
        MakeTriedKeeps(w, s1, id);
        PromotedStamps(w, s1, id);
        SameKeeps(PromotedInfo(w, s1, id), MakeTried(w, s1, id).info);
      }
    }
  }

  lemma ResolveOneStamps(w: World, m: Manager, id: Id, clock: nat -> int)
    requires Consistent(w, m.tables) && StampsOk(m.tables.info) && forall k :: clock(k) > 0
    ensures StampsOk(ResolveOne(w, m, id, clock).tables.info)
  {
    hide RandomOk, AddrOk, NewOk, RefsOk, CountsOk, TriedSlot, Good, StampsOk;
    if id in m.tables.info {
      var done := m.(collisions := m.collisions - {id});
      var a := m.tables.info[id].service;
      GoodStamps(w, done, a, false, clock(0));
      GoodStamps(w, done, a, false, clock(3));
    }
  }

  lemma ResolveAllStamps(w: World, m: Manager, rest: set<Id>, clock: (Id, nat) -> int)
    requires Consistent(w, m.tables) && StampsOk(m.tables.info) && forall id, k :: clock(id, k) > 0
    ensures StampsOk(ResolveAll(w, m, rest, clock).tables.info)
    decreases |rest|
  {
    hide Consistent, ResolveOne, StampsOk;
    if rest != {} {
      var id := LeastOf(rest);
      var readings := (k: nat) => clock(id, k);
      ResolveOneKeeps(w, m, id, readings);
      ResolveOneStamps(w, m, id, readings);
      ResolveAllStamps(w, ResolveOne(w, m, id, readings), rest - {id}, clock);
    }
  }

  /** The clock is past 1970. */
  ghost predicate TimesOk(op: Op) {
    match op
    case OpGood(_, _, time) => time > 0
    case OpAttempt(_, _, time) => time >= 0
    case OpResolveCollisions(clock) => forall id, k :: clock(id, k) > 0
    case _ => true
  }

  lemma ApplyStamps(w: World, m: Manager, op: Op)
    requires Consistent(w, m.tables) && StampsOk(m.tables.info) && TimesOk(op)
    ensures StampsOk(Apply(w, m, op).tables.info)
  {
    hide RandomOk, NewOk, TriedOk, RefsOk, CountsOk, Good, Add, Shuffle, ResolveAll, StampsOk, SameButPositions;
    var s := m.tables;
    match op
    case OpAdd(a, source, penalty, now1, now2, rnd) => AddStamps(w, s, a, source, penalty, now1, now2, rnd);
    case OpGood(a, test, time) => GoodStamps(w, m, a, test, time);
    case OpAttempt(a, count, time) =>
      if Knows(s, a) {
        StampAt(s.info, s.addr[a.ip]);
        UpdateStamps(s.info, s.addr[a.ip], Attempted(s.info[s.addr[a.ip]], count, time, m.nLastGood));
      }
    case OpConnected(a, time) =>
      if Knows(s, a) {
        StampAt(s.info, s.addr[a.ip]);
        UpdateStamps(s.info, s.addr[a.ip], Connected(s, a, time).info[s.addr[a.ip]]);
      }
    case OpSetServices(a, services) =>
      if Knows(s, a) {
        StampAt(s.info, s.addr[a.ip]);
        UpdateStamps(s.info, s.addr[a.ip], s.info[s.addr[a.ip]].(services := services));
      }
    case OpGetAddr(rounds, draws) =>
      if rounds <= |s.random| {
        ShuffleKeeps(w, s, rounds, draws);
        SameKeeps(s.info, Shuffle(s, rounds, draws).info);
      }
    case OpResolveCollisions(clock) => ResolveAllStamps(w, m, m.collisions, clock);
    case OpSelectCollision(pick) => UpdateStamps(s.info, NONE, PLANTED);
  }

  lemma {:induction false} RunStamps(w: World, m: Manager, ops: seq<Op>)
    requires Consistent(w, m.tables) && Sound(w, m, ops) && StampsOk(m.tables.info) && forall op <- ops :: TimesOk(op)
    ensures StampsOk(Run(w, m, ops).tables.info)
    decreases |ops|
  {
    hide Consistent, Apply, StampsOk, TimesOk, Sound, Safe;
    if ops != [] {
      SoundStays(w, m, ops);
      ApplyKeeps(w, m, ops[0]);
      ApplyStamps(w, m, ops[0]);
      RunStamps(w, Apply(w, m, ops[0]), ops[1..]);
    }
  }

  /** The manager's own check passes after every run from a fresh start with a key. */
  lemma RunPassesCheck(w: World, key: Key, asmap: seq<bool>, ops: seq<Op>)
    requires key != 0 && forall op <- ops :: TimesOk(op)
    ensures Consistent(w, Empty(key, asmap))
    ensures CheckPasses(w, Run(w, Manager(Empty(key, asmap), 1, {}), ops).tables)
  {
    hide Consistent, CheckPasses, TimesOk;
    var m := Manager(Empty(key, asmap), 1, {});
    FreshIsConsistent(w, key, asmap);
    RunKeeps(w, m, ops);
    RunStamps(w, m, ops);
    RunKeepsKey(w, m, ops);
    ConsistentPasses(w, Run(w, m, ops).tables);
  }

  lemma {:induction false} RunKeepsKey(w: World, m: Manager, ops: seq<Op>)
    requires Consistent(w, m.tables) && Sound(w, m, ops)
    ensures Run(w, m, ops).tables.key == m.tables.key
    decreases |ops|
  {
    hide Consistent, Apply, Sound, Safe;
    if ops != [] {
      SoundStays(w, m, ops);
      ApplyKeeps(w, m, ops[0]);
      RunKeepsKey(w, Apply(w, m, ops[0]), ops[1..]);
    }
  }
}
