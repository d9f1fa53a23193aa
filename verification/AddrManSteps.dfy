/** The primitive steps on the tables, as functions, and what each keeps. */
module AddrManSteps {
  import opened AddrManState

  // ----- steps -------------------------------------------------------------

  function SwapRandom(s: State, i: int, j: int): State
    requires RandomOk(s.info, s.random)
    requires i != j ==> 0 <= i < |s.random| && 0 <= j < |s.random|
  {
    if i == j then s else
      var id1, id2 := s.random[i], s.random[j];
      s.(info := SwappedInfo(s.info, id1, id2, i, j),
         random := s.random[i := id2][j := id1])
  }

  function Create(s: State, a: Address, source: NetAddr): State {
    var id := Id(s.nIdCount);
    var entry := AddrInfo(a.service, a.services, a.nTime, source, 0, 0, 0, 0, 0, false, |s.random|);
    s.(nIdCount := s.nIdCount + 1,
       info := s.info[id := entry],
       addr := s.addr[a.service.ip := id],
       random := s.random + [id])
  }

  function Delete(s: State, id: Id): State
    requires RandomOk(s.info, s.random)
    requires id in s.info
  {
    var s1 := SwapRandom(s, s.info[id].nRandomPos, |s.random| - 1);
    s1.(random := s1.random[..|s1.random| - 1],
        addr := s1.addr - {s1.info[id].service.ip},
        info := s1.info - {id},
        nNew := s1.nNew - 1)
  }

  /** One reference to whatever is in slot is gone; an entry left with none is deleted. */
  function ClearNew(s: State, slot: Slot): State
    requires RandomOk(s.info, s.random)
    requires slot in s.newAt ==> s.newAt[slot] in s.info
  {
    if slot !in s.newAt then s else
      var id := s.newAt[slot];
      var s1 := Unref(s, id, slot);
      UnrefRandom(s, id, slot);
      if s1.info[id].nRefCount == 0 then Delete(s1, id) else s1
  }

  function Unref(s: State, id: Id, slot: Slot): State
    requires id in s.info
  {
    s.(info := s.info[id := s.info[id].(nRefCount := s.info[id].nRefCount - 1)], newAt := s.newAt - {slot})
  }

  function Ref(s: State, id: Id, slot: Slot): State
    requires id in s.info
  {
    s.(info := s.info[id := s.info[id].(nRefCount := s.info[id].nRefCount + 1)], newAt := s.newAt[slot := id])
  }

  lemma UnrefRandom(s: State, id: Id, slot: Slot)
    requires id in s.info && RandomOk(s.info, s.random)
    ensures RandomOk(Unref(s, id, slot).info, s.random)
  {
  }

  // ----- what they keep ----------------------------------------------------

  predicate SameEntry(a: AddrInfo, b: AddrInfo) {
    a.(nRandomPos := b.nRandomPos) == b
  }

  /** Two entry tables that agree except on positions in the random order. */
  ghost predicate SameButPositions(info: map<Id, AddrInfo>, info': map<Id, AddrInfo>) {
    && (forall id :: id in info <==> id in info')
    && (forall id <- info :: SameEntry(info[id], info'[id]))
  }

  /** Two entry tables with the same addresses and the same new/tried split. */
  ghost predicate SameSplit(info: map<Id, AddrInfo>, info': map<Id, AddrInfo>) {
    && (forall id :: id in info <==> id in info')
    && (forall id <- info :: info[id].service == info'[id].service && info[id].fInTried == info'[id].fInTried)
  }

  lemma SameAddr(info: map<Id, AddrInfo>, info': map<Id, AddrInfo>, addr: map<NetAddr, Id>)
    requires SameSplit(info, info') && AddrOk(info, addr)
    ensures AddrOk(info', addr)
  {
  }

  lemma SameNew(w: World, key: Key, info: map<Id, AddrInfo>, info': map<Id, AddrInfo>, newAt: map<Slot, Id>)
    requires SameSplit(info, info') && NewOk(w, key, info, newAt)
    ensures NewOk(w, key, info', newAt)
  {
  }

  lemma SameTried(w: World, key: Key, asmap: seq<bool>, info: map<Id, AddrInfo>, info': map<Id, AddrInfo>, triedAt: map<Slot, Id>)
    requires SameSplit(info, info') && TriedOk(w, key, asmap, info, triedAt)
    ensures TriedOk(w, key, asmap, info', triedAt)
  {
  }

  lemma SameIdSets(info: map<Id, AddrInfo>, info': map<Id, AddrInfo>)
    requires SameSplit(info, info')
    ensures TriedIds(info) == TriedIds(info') && NewIds(info) == NewIds(info')
  {
    assert forall id :: id in TriedIds(info) <==> id in TriedIds(info');
    assert forall id :: id in NewIds(info) <==> id in NewIds(info');
  }

  lemma SameTables(w: World, s: State, t: State, loose: set<Id>)
    requires ConsistentBut(w, s, loose)
    requires t == s.(info := t.info, random := t.random)
    requires RandomOk(t.info, t.random)
    requires SameButPositions(s.info, t.info)
    ensures ConsistentBut(w, t, loose)
  {
    hide RandomOk, AddrOk, NewOk, TriedOk, RefsOk, CountsOk, SameButPositions, SameSplit;
    SameSplits(s.info, t.info);
    SameCounts(s.info, t.info, s.nIdCount, s.nTried, s.nNew);
    SameRefs(s.info, t.info, s.newAt, loose);
    SameAddr(s.info, t.info, t.addr);
    SameNew(w, t.key, s.info, t.info, t.newAt);
    SameTried(w, t.key, t.asmap, s.info, t.info, t.triedAt);
  }

  lemma SameSplits(info: map<Id, AddrInfo>, info': map<Id, AddrInfo>)
    requires SameButPositions(info, info')
    ensures SameSplit(info, info')
  {
    assert forall id <- info :: SameEntry(info[id], info'[id]);
  }

  lemma SameCounts(info: map<Id, AddrInfo>, info': map<Id, AddrInfo>, nIdCount: int, nTried: int, nNew: int)
    requires SameSplit(info, info') && CountsOk(info, nIdCount, nTried, nNew)
    ensures CountsOk(info', nIdCount, nTried, nNew)
  {
    hide TriedIds, NewIds;
    SameIdSets(info, info');
  }

  lemma SameRefs(info: map<Id, AddrInfo>, info': map<Id, AddrInfo>, newAt: map<Slot, Id>, loose: set<Id>)
    requires SameButPositions(info, info') && RefsOk(info, newAt, loose)
    ensures RefsOk(info', newAt, loose)
  {
    hide SlotsOf;
    assert forall id <- info' :: SameEntry(info[id], info'[id]);
  }

  lemma SwapStaysRandom(s: State, i: int, j: int)
    requires RandomOk(s.info, s.random)
    requires 0 <= i < |s.random| && 0 <= j < |s.random|
    ensures RandomOk(SwapRandom(s, i, j).info, SwapRandom(s, i, j).random)
    ensures |SwapRandom(s, i, j).random| == |s.random|
  {
    if i != j {
      SwapOk(s.info, s.random, i, j);
    }
  }

  lemma SwapRandomOk(s: State, i: int, j: int)
    requires RandomOk(s.info, s.random)
    requires 0 <= i < |s.random| && 0 <= j < |s.random|
    ensures RandomOk(SwapRandom(s, i, j).info, SwapRandom(s, i, j).random)
    ensures SameButPositions(s.info, SwapRandom(s, i, j).info)
  {
    if i != j {
      var id1, id2 := s.random[i], s.random[j];
      SwapOk(s.info, s.random, i, j);
      SwapSame(s.info, id1, id2, i, j);
    }
  }

  function SwappedInfo(info: map<Id, AddrInfo>, id1: Id, id2: Id, i: int, j: int): map<Id, AddrInfo>
    requires id1 in info && id2 in info
  {
    info[id1 := info[id1].(nRandomPos := j)][id2 := info[id2].(nRandomPos := i)]
  }

  lemma SwapOk(info: map<Id, AddrInfo>, random: seq<Id>, i: int, j: int)
    requires RandomOk(info, random)
    requires 0 <= i < |random| && 0 <= j < |random| && i != j
    ensures RandomOk(SwappedInfo(info, random[i], random[j], i, j), random[i := random[j]][j := random[i]])
  {
    var info' := SwappedInfo(info, random[i], random[j], i, j);
    var random' := random[i := random[j]][j := random[i]];
    assert random[i] != random[j];
    forall id <- info' ensures 0 <= info'[id].nRandomPos < |random'| && random'[info'[id].nRandomPos] == id {
      if id != random[i] && id != random[j] {
        assert info'[id] == info[id];
      }
    }
    forall k | 0 <= k < |random'| ensures random'[k] in info' && info'[random'[k]].nRandomPos == k {
      if k != i && k != j {
        assert random'[k] == random[k];
      }
    }
  }

  lemma SwapSame(info: map<Id, AddrInfo>, id1: Id, id2: Id, i: int, j: int)
    requires id1 in info && id2 in info && id1 != id2
    ensures SameButPositions(info, SwappedInfo(info, id1, id2, i, j))
  {
  }

  lemma SwapKeeps(w: World, s: State, i: int, j: int, loose: set<Id>)
    requires ConsistentBut(w, s, loose)
    requires 0 <= i < |s.random| && 0 <= j < |s.random|
    ensures ConsistentBut(w, SwapRandom(s, i, j), loose)
  {
    SwapRandomOk(s, i, j);
    SameTables(w, s, SwapRandom(s, i, j), loose);
  }

  // Adding an entry under a fresh number, with no reference yet.

  lemma AddRandom(info: map<Id, AddrInfo>, random: seq<Id>, id: Id, entry: AddrInfo)
    requires RandomOk(info, random)
    requires id !in info && entry.nRandomPos == |random|
    ensures RandomOk(info[id := entry], random + [id])
  {
  }

  lemma AddAddr(info: map<Id, AddrInfo>, addr: map<NetAddr, Id>, id: Id, entry: AddrInfo)
    requires AddrOk(info, addr)
    requires id !in info && entry.service.ip !in addr
    ensures AddrOk(info[id := entry], addr[entry.service.ip := id])
  {
  }

  lemma AddNew(w: World, key: Key, info: map<Id, AddrInfo>, newAt: map<Slot, Id>, id: Id, entry: AddrInfo)
    requires NewOk(w, key, info, newAt) && id !in info
    ensures NewOk(w, key, info[id := entry], newAt)
  {
  }

  lemma AddTried(w: World, key: Key, asmap: seq<bool>, info: map<Id, AddrInfo>, triedAt: map<Slot, Id>, id: Id, entry: AddrInfo)
    requires TriedOk(w, key, asmap, info, triedAt) && id !in info && !entry.fInTried
    ensures TriedOk(w, key, asmap, info[id := entry], triedAt)
  {
  }

  lemma AddRefs(w: World, key: Key, info: map<Id, AddrInfo>, newAt: map<Slot, Id>, id: Id, entry: AddrInfo)
    requires NewOk(w, key, info, newAt) && RefsOk(info, newAt, {})
    requires id !in info && !entry.fInTried && entry.nRefCount == 0
    ensures RefsOk(info[id := entry], newAt, {id})
  {
    assert SlotsOf(newAt, id) == {};
  }

  lemma IdsAfterAdd(info: map<Id, AddrInfo>, id: Id, entry: AddrInfo)
    requires id !in info
    ensures TriedIds(info[id := entry]) == TriedIds(info) + if entry.fInTried then {id} else {}
    ensures NewIds(info[id := entry]) == NewIds(info) + if entry.fInTried then {} else {id}
  {
  }

  lemma AddCounts(info: map<Id, AddrInfo>, nIdCount: int, nTried: int, nNew: int, entry: AddrInfo)
    requires CountsOk(info, nIdCount, nTried, nNew)
    requires nIdCount >= 0 && !entry.fInTried
    ensures CountsOk(info[Id(nIdCount) := entry], nIdCount + 1, nTried, nNew + 1)
  {
    IdsAfterAdd(info, Id(nIdCount), entry);
  }

  lemma CreateKeeps(w: World, s: State, a: Address, source: NetAddr)
    requires Consistent(w, s)
    requires a.service.ip !in s.addr
    ensures var t := Create(s, a, source); ConsistentBut(w, t.(nNew := s.nNew + 1), {Id(s.nIdCount)})
  {
    hide RandomOk, AddrOk, NewOk, TriedOk, RefsOk;
    var id := Id(s.nIdCount);
    assert id !in s.info;
    var entry := Create(s, a, source).info[id];
    hide CountsOk;
    AddRandom(s.info, s.random, id, entry);
    AddAddr(s.info, s.addr, id, entry);
    AddNew(w, s.key, s.info, s.newAt, id, entry);
    AddTried(w, s.key, s.asmap, s.info, s.triedAt, id, entry);
    AddRefs(w, s.key, s.info, s.newAt, id, entry);
    AddCounts(s.info, s.nIdCount, s.nTried, s.nNew, entry);
  }

  // Removing the entry at the end of the random order, which nothing refers to.

  lemma DropRandom(info: map<Id, AddrInfo>, random: seq<Id>, id: Id)
    requires RandomOk(info, random)
    requires id in info && |random| > 0 && random[|random| - 1] == id
    ensures RandomOk(info - {id}, random[..|random| - 1])
  {
  }

  lemma DropAddr(info: map<Id, AddrInfo>, addr: map<NetAddr, Id>, id: Id)
    requires AddrOk(info, addr)
    requires id in info
    ensures AddrOk(info - {id}, addr - {info[id].service.ip})
  {
  }

  lemma Unreferred(w: World, key: Key, info: map<Id, AddrInfo>, newAt: map<Slot, Id>, loose: set<Id>, id: Id)
    requires NewOk(w, key, info, newAt) && RefsOk(info, newAt, loose) && id in loose && id in info && !info[id].fInTried
    ensures forall slot <- newAt :: newAt[slot] != id
  {
    forall slot <- newAt ensures newAt[slot] != id {
      assert slot in SlotsOf(newAt, newAt[slot]);
    }
  }

  lemma DropNew(w: World, key: Key, info: map<Id, AddrInfo>, newAt: map<Slot, Id>, id: Id)
    requires NewOk(w, key, info, newAt) && forall slot <- newAt :: newAt[slot] != id
    ensures NewOk(w, key, info - {id}, newAt)
  {
  }

  lemma DropTried(w: World, key: Key, asmap: seq<bool>, info: map<Id, AddrInfo>, triedAt: map<Slot, Id>, id: Id)
    requires TriedOk(w, key, asmap, info, triedAt) && id in info && !info[id].fInTried
    ensures TriedOk(w, key, asmap, info - {id}, triedAt)
  {
  }

  lemma RefsWithout(info: map<Id, AddrInfo>, newAt: map<Slot, Id>, loose: set<Id>, id: Id)
    requires RefsOk(info, newAt, loose)
    ensures RefsOk(info - {id}, newAt, loose - {id})
  {
  }

  lemma DropTables(w: World, s: State, id: Id, loose: set<Id>)
    requires NewOk(w, s.key, s.info, s.newAt)
    requires TriedOk(w, s.key, s.asmap, s.info, s.triedAt)
    requires RefsOk(s.info, s.newAt, loose)
    requires id in loose && id in s.info && !s.info[id].fInTried
    ensures NewOk(w, s.key, s.info - {id}, s.newAt)
    ensures TriedOk(w, s.key, s.asmap, s.info - {id}, s.triedAt)
    ensures RefsOk(s.info - {id}, s.newAt, loose - {id})
  {
    hide NewOk, TriedOk, RefsOk;
    Unreferred(w, s.key, s.info, s.newAt, loose, id);
    DropNew(w, s.key, s.info, s.newAt, id);
    DropTried(w, s.key, s.asmap, s.info, s.triedAt, id);
    RefsWithout(s.info, s.newAt, loose, id);
  }

  lemma DropCounts(s: State, id: Id)
    requires CountsOk(s.info, s.nIdCount, s.nTried, s.nNew)
    requires id in s.info && !s.info[id].fInTried
    ensures CountsOk(s.info - {id}, s.nIdCount, s.nTried, s.nNew - 1)
  {
    assert NewIds(s.info - {id}) == NewIds(s.info) - {id};
    assert TriedIds(s.info - {id}) == TriedIds(s.info);
  }

  lemma DropKeeps(w: World, s: State, id: Id, loose: set<Id>)
    requires ConsistentBut(w, s, loose)
    requires id in loose && id in s.info && !s.info[id].fInTried && |s.random| > 0 && s.random[|s.random| - 1] == id
    ensures ConsistentBut(w, s.(random := s.random[..|s.random| - 1], addr := s.addr - {s.info[id].service.ip},
                                info := s.info - {id}, nNew := s.nNew - 1), loose - {id})
  {
    hide RandomOk, AddrOk, NewOk, TriedOk, RefsOk, CountsOk;
    DropRandom(s.info, s.random, id);
    DropAddr(s.info, s.addr, id);
    DropTables(w, s, id, loose);
    DropCounts(s, id);
  }

  lemma RandomIn(info: map<Id, AddrInfo>, random: seq<Id>)
    requires RandomOk(info, random)
    ensures forall k | 0 <= k < |random| :: random[k] in info
  {
  }

  lemma RandomPos(info: map<Id, AddrInfo>, random: seq<Id>, id: Id)
    requires RandomOk(info, random)
    requires id in info
    ensures 0 <= info[id].nRandomPos < |random| && random[info[id].nRandomPos] == id
  {
  }

  lemma SameWithout(info: map<Id, AddrInfo>, info': map<Id, AddrInfo>, id: Id)
    requires SameButPositions(info, info')
    ensures SameButPositions(info - {id}, info' - {id})
  {
  }

  lemma DeleteIs(s: State, id: Id, s1: State)
    requires RandomOk(s.info, s.random)
    requires id in s.info && 0 <= s.info[id].nRandomPos < |s.random|
    requires s1 == SwapRandom(s, s.info[id].nRandomPos, |s.random| - 1)
    requires SameButPositions(s.info, s1.info)
    ensures s1 == s.(info := s1.info, random := s1.random) && |s1.random| == |s.random|
    ensures s1.info[id].fInTried == s.info[id].fInTried && s1.info[id].service == s.info[id].service
    ensures Delete(s, id) == s1.(random := s1.random[..|s1.random| - 1], addr := s1.addr - {s1.info[id].service.ip},
                                 info := s1.info - {id}, nNew := s1.nNew - 1)
    ensures s.random[s.info[id].nRandomPos] == id ==> s1.random[|s1.random| - 1] == id
  {
    hide RandomOk;
    assert SameEntry(s.info[id], s1.info[id]);
  }

  lemma DeleteKeeps(w: World, s: State, id: Id, loose: set<Id>)
    requires ConsistentBut(w, s, loose)
    requires id in loose && id in s.info && !s.info[id].fInTried
    ensures ConsistentBut(w, Delete(s, id), loose - {id})
    ensures SameButPositions(s.info - {id}, Delete(s, id).info)
  {
    hide ConsistentBut, Delete, RandomOk, SwapRandom, SameButPositions;
    ButRandom(w, s, loose);
    RandomPos(s.info, s.random, id);
    var last := |s.random| - 1;
    var s1 := SwapRandom(s, s.info[id].nRandomPos, last);
    SwapRandomOk(s, s.info[id].nRandomPos, last);
    SwapKeeps(w, s, s.info[id].nRandomPos, last, loose);
    DeleteIs(s, id, s1);
    SameWithout(s.info, s1.info, id);
    SameKeys(s.info, s1.info);
    DropKeeps(w, s1, id, loose);
  }

  lemma ButRandom(w: World, s: State, loose: set<Id>)
    requires ConsistentBut(w, s, loose)
    ensures RandomOk(s.info, s.random)
  {
  }

  lemma SameKeys(info: map<Id, AddrInfo>, info': map<Id, AddrInfo>)
    requires SameButPositions(info, info')
    ensures info.Keys == info'.Keys
  {
  }

  // One reference less, one reference more.

  lemma SlotsAfterUnref(newAt: map<Slot, Id>, slot: Slot, x: Id)
    requires slot in newAt
    ensures |SlotsOf(newAt - {slot}, x)| == |SlotsOf(newAt, x)| - (if x == newAt[slot] then 1 else 0)
    ensures x == newAt[slot] ==> |SlotsOf(newAt, x)| > 0
  {
    assert SlotsOf(newAt - {slot}, x) == SlotsOf(newAt, x) - {slot};
  }

  lemma SlotsAfterRef(newAt: map<Slot, Id>, id: Id, slot: Slot, x: Id)
    requires slot !in newAt
    ensures |SlotsOf(newAt[slot := id], x)| == |SlotsOf(newAt, x)| + (if x == id then 1 else 0)
  {
    assert SlotsOf(newAt[slot := id], x) == SlotsOf(newAt, x) + (if x == id then {slot} else {});
  }

  lemma RefCountIrrelevant(w: World, s: State, id: Id, n: int)
    requires RandomOk(s.info, s.random) && CountsOk(s.info, s.nIdCount, s.nTried, s.nNew)
    requires TriedOk(w, s.key, s.asmap, s.info, s.triedAt) && NewOk(w, s.key, s.info, s.newAt)
    requires id in s.info
    ensures var info := s.info[id := s.info[id].(nRefCount := n)];
            && RandomOk(info, s.random) && CountsOk(info, s.nIdCount, s.nTried, s.nNew)
            && TriedOk(w, s.key, s.asmap, info, s.triedAt) && NewOk(w, s.key, info, s.newAt)
  {
    var info := s.info[id := s.info[id].(nRefCount := n)];
    assert SameSplit(s.info, info);
    SameNew(w, s.key, s.info, info, s.newAt);
    SameTried(w, s.key, s.asmap, s.info, info, s.triedAt);
    SameIdSets(s.info, info);
  }

  lemma RefCountAddr(info: map<Id, AddrInfo>, addr: map<NetAddr, Id>, id: Id, n: int)
    requires AddrOk(info, addr) && id in info
    ensures AddrOk(info[id := info[id].(nRefCount := n)], addr)
  {
  }

  lemma UnrefRefs(info: map<Id, AddrInfo>, newAt: map<Slot, Id>, slot: Slot, loose: set<Id>)
    requires RefsOk(info, newAt, loose)
    requires slot in newAt && newAt[slot] in info
    ensures var id := newAt[slot]; var n := info[id].nRefCount - 1;
            && n >= 0 && id !in loose && !info[id].fInTried
            && RefsOk(info[id := info[id].(nRefCount := n)], newAt - {slot}, if n == 0 then loose + {id} else loose)
  {
    var id := newAt[slot];
    SlotsAfterUnref(newAt, slot, id);
    var info' := info[id := info[id].(nRefCount := info[id].nRefCount - 1)];
    forall x <- info'
      ensures |SlotsOf(newAt - {slot}, x)| == |SlotsOf(newAt, x)| - (if x == id then 1 else 0)
    {
      SlotsAfterUnref(newAt, slot, x);
    }
  }

  lemma RefRefs(info: map<Id, AddrInfo>, newAt: map<Slot, Id>, id: Id, slot: Slot, loose: set<Id>)
    requires RefsOk(info, newAt, loose)
    requires slot !in newAt
    requires id in info && !info[id].fInTried && info[id].nRefCount < NEW_BUCKETS_PER_ADDRESS
    ensures RefsOk(info[id := info[id].(nRefCount := info[id].nRefCount + 1)], newAt[slot := id], loose - {id})
  {
    var info' := info[id := info[id].(nRefCount := info[id].nRefCount + 1)];
    forall x <- info'
      ensures |SlotsOf(newAt[slot := id], x)| == |SlotsOf(newAt, x)| + (if x == id then 1 else 0)
    {
      SlotsAfterRef(newAt, id, slot, x);
    }
  }

  lemma UnrefKeeps(w: World, s: State, slot: Slot, loose: set<Id>)
    requires ConsistentBut(w, s, loose)
    requires slot in s.newAt
    ensures s.newAt[slot] in s.info
    ensures var id := s.newAt[slot]; var t := Unref(s, id, slot);
            && !s.info[id].fInTried && s.info[id].nRefCount > 0 && id !in loose
            && ConsistentBut(w, t, if t.info[id].nRefCount == 0 then loose + {id} else loose)
  {
    hide RandomOk, AddrOk, TriedOk, RefsOk, CountsOk;
    var id := s.newAt[slot];
    RefCountIrrelevant(w, s, id, s.info[id].nRefCount - 1);
    RefCountAddr(s.info, s.addr, id, s.info[id].nRefCount - 1);
    UnrefRefs(s.info, s.newAt, slot, loose);
  }

  lemma RefKeeps(w: World, s: State, id: Id, slot: Slot, loose: set<Id>)
    requires ConsistentBut(w, s, loose)
    requires slot !in s.newAt
    requires id in s.info && !s.info[id].fInTried && s.info[id].nRefCount < NEW_BUCKETS_PER_ADDRESS
    requires 0 <= slot.bucket < NEW_BUCKET_COUNT && slot == NewSlotIn(w, s.key, slot.bucket, s.info[id].service)
    ensures ConsistentBut(w, Ref(s, id, slot), loose - {id})
  {
    hide RandomOk, AddrOk, TriedOk, RefsOk, CountsOk;
    RefCountIrrelevant(w, s, id, s.info[id].nRefCount + 1);
    RefCountAddr(s.info, s.addr, id, s.info[id].nRefCount + 1);
    RefRefs(s.info, s.newAt, id, slot, loose);
  }

  /** ClearNew empties the slot and touches nobody but its occupant. */
  lemma ClearNewKeeps(w: World, s: State, slot: Slot, loose: set<Id>)
    requires ConsistentBut(w, s, loose)
    ensures slot in s.newAt ==> s.newAt[slot] in s.info
    ensures var t := ClearNew(s, slot);
            && ConsistentBut(w, t, loose)
            && t.newAt == s.newAt - {slot}
            && t.triedAt == s.triedAt && t.nTried == s.nTried && t.nIdCount == s.nIdCount
            && t.key == s.key && t.asmap == s.asmap
            && SameButPositions(ClearedInfo(s, slot), t.info)
  {
    hide RandomOk, AddrOk, NewOk, TriedOk, RefsOk, CountsOk;
    if slot in s.newAt {
      UnrefKeeps(w, s, slot, loose);
      var id := s.newAt[slot];
      var s1 := Unref(s, id, slot);
      if s1.info[id].nRefCount == 0 {
        DeleteKeeps(w, s1, id, loose + {id});
        assert loose + {id} - {id} == loose;
        assert s1.info - {id} == s.info - {id};
      }
    } else {
      assert s.newAt - {slot} == s.newAt;
    }
  }

  /** The entries after clearing slot: its occupant has one reference less, and is
      gone if that was the last. */
  function ClearedInfo(s: State, slot: Slot): map<Id, AddrInfo>
    requires slot in s.newAt ==> s.newAt[slot] in s.info
  {
    if slot !in s.newAt then s.info else
      var id := s.newAt[slot];
      if s.info[id].nRefCount == 1 then s.info - {id}
      else s.info[id := s.info[id].(nRefCount := s.info[id].nRefCount - 1)]
  }

  /** What no operation undoes: numbers are never reused, an entry's address never
      changes, and a filled tried slot is never emptied. */
  ghost predicate Grows(s: State, t: State) {
    && s.key == t.key && s.asmap == t.asmap
    && s.nIdCount <= t.nIdCount
    && s.triedAt.Keys <= t.triedAt.Keys
    && SameOldEntries(s.info, t.info, s.nIdCount)
  }

  ghost predicate SameOldEntries(info: map<Id, AddrInfo>, info': map<Id, AddrInfo>, nIdCount: int) {
    forall id <- info' | id.n < nIdCount :: id in info && info'[id].service == info[id].service
  }

  lemma GrowsSelf(s: State)
    ensures Grows(s, s)
  {
  }

  lemma SameOldTwice(a: map<Id, AddrInfo>, b: map<Id, AddrInfo>, c: map<Id, AddrInfo>, n: int)
    requires SameOldEntries(a, b, n) && SameOldEntries(b, c, n)
    ensures SameOldEntries(a, c, n)
  {
  }

  lemma SameOldButPositions(a: map<Id, AddrInfo>, b: map<Id, AddrInfo>, n: int)
    requires SameButPositions(a, b)
    ensures SameOldEntries(a, b, n)
  {
    assert forall id <- b :: SameEntry(a[id], b[id]);
  }

  lemma SameOldUpdate(a: map<Id, AddrInfo>, id: Id, entry: AddrInfo, n: int)
    requires id in a && a[id].service == entry.service
    ensures SameOldEntries(a, a[id := entry], n)
  {
  }

  lemma ClearNewOld(s: State, slot: Slot, t: State, n: int)
    requires slot in s.newAt ==> s.newAt[slot] in s.info
    requires SameButPositions(ClearedInfo(s, slot), t.info)
    ensures SameOldEntries(s.info, t.info, n)
  {
    SameOldButPositions(ClearedInfo(s, slot), t.info, n);
  }

  lemma SameOldSelf(a: map<Id, AddrInfo>, n: int)
    ensures SameOldEntries(a, a, n)
  {
  }

  lemma SameOldFewer(a: map<Id, AddrInfo>, b: map<Id, AddrInfo>, n: int, n': int)
    requires SameOldEntries(a, b, n') && n <= n'
    ensures SameOldEntries(a, b, n)
  {
  }
}
