/** The manager's own consistency check, and what exactly it finds out. */
module AddrManCheck {
  import opened AddrManState
  import AddrMan

  // ----- what it looks for -------------------------------------------------

  /** The check of one entry. A missing address reads as the number 0. */
  predicate EntryPasses(s: State, id: Id)
    requires id in s.info
  {
    var info := s.info[id];
    && (if info.fInTried then info.nLastSuccess != 0 && info.nRefCount == 0 else 0 < info.nRefCount <= NEW_BUCKETS_PER_ADDRESS)
    && (if info.service.ip in s.addr then s.addr[info.service.ip] else Id(0)) == id
    && 0 <= info.nRandomPos < |s.random| && s.random[info.nRandomPos] == id
    && info.nLastTry >= 0 && info.nLastSuccess >= 0
  }

  ghost predicate EntriesPass(s: State) {
    && |s.random| == s.nTried + s.nNew
    && (forall id <- s.info :: EntryPasses(s, id))
    && s.nTried == |TriedIds(s.info)| && s.nNew == |NewIds(s.info)|
  }

  /** Every tried slot is the right one for a tried entry, and every tried entry has one. */
  ghost predicate TriedPasses(w: World, s: State) {
    && (forall slot <- s.triedAt :: TriedHolderPasses(w, s, slot))
    && (forall id <- TriedIds(s.info) :: SlotsOf(s.triedAt, id) != {})
  }

  predicate TriedHolderPasses(w: World, s: State, slot: Slot)
    requires slot in s.triedAt
  {
    var id := s.triedAt[slot];
    id in TriedIds(s.info) && slot == TriedSlot(w, s.key, s.asmap, s.info[id].service)
  }

  /** Every new slot is a right one for a new entry, which has as many as it counts. */
  ghost predicate NewPasses(w: World, s: State) {
    && (forall slot <- s.newAt :: NewHolderPasses(w, s, slot))
    && (forall id <- NewIds(s.info) :: s.info[id].nRefCount == |SlotsOf(s.newAt, id)|)
  }

  predicate NewHolderPasses(w: World, s: State, slot: Slot)
    requires slot in s.newAt
  {
    var id := s.newAt[slot];
    id in NewIds(s.info) && slot == NewSlotIn(w, s.key, slot.bucket, s.info[id].service)
  }

  ghost predicate CheckPasses(w: World, s: State) {
    EntriesPass(s) && TriedPasses(w, s) && NewPasses(w, s) && s.key != 0
  }

  // ----- what that amounts to ----------------------------------------------

  ghost predicate InTable(at: map<Slot, Id>, buckets: int) {
    forall slot <- at :: 0 <= slot.bucket < buckets && 0 <= slot.pos < BUCKET_SIZE
  }

  predicate StampsOk(info: map<Id, AddrInfo>) {
    forall id <- info :: info[id].nLastTry >= 0 && info[id].nLastSuccess >= 0 && (info[id].fInTried ==> info[id].nLastSuccess != 0)
  }

  /** Each entry is found by its address; only the entry 0 may be missing there. */
  predicate FoundByAddress(info: map<Id, AddrInfo>, addr: map<NetAddr, Id>) {
    forall id <- info :: if info[id].service.ip in addr then addr[info[id].service.ip] == id else id == Id(0)
  }

  /** The check passes exactly if the structural invariant holds, apart from stray
      addresses, a missing address of the entry 0, and the id counter, which it does not
      look at; and if the time stamps and the key are as expected. */
  lemma CheckMeans(w: World, s: State)
    requires InTable(s.newAt, NEW_BUCKET_COUNT) && InTable(s.triedAt, TRIED_BUCKET_COUNT)
    ensures CheckPasses(w, s) <==>
            && RandomOk(s.info, s.random) && FoundByAddress(s.info, s.addr)
            && NewOk(w, s.key, s.info, s.newAt) && TriedOk(w, s.key, s.asmap, s.info, s.triedAt)
            && RefsOk(s.info, s.newAt, {})
            && s.nTried == |TriedIds(s.info)| && s.nNew == |NewIds(s.info)|
            && StampsOk(s.info) && s.key != 0
  {
    if CheckPasses(w, s) {
      PassIsRandom(s);
      PassIsTried(w, s);
      PassIsNew(w, s);
    }
    if RandomOk(s.info, s.random) && NewOk(w, s.key, s.info, s.newAt) && TriedOk(w, s.key, s.asmap, s.info, s.triedAt)
       && RefsOk(s.info, s.newAt, {}) && s.nTried == |TriedIds(s.info)| && s.nNew == |NewIds(s.info)| {
      RandomCounts(s);
      TriedIsPass(w, s);
      NewIsPass(w, s);
    }
  }

  /** A manager without entries that still knows an address, or has given out fewer than no
      numbers: the check passes, and it is not consistent. */
  lemma OverlooksStray(w: World, key: Key, asmap: seq<bool>, ip: NetAddr)
    requires key != 0
    ensures var stray := Empty(key, asmap).(addr := map[ip := Id(0)]); CheckPasses(w, stray) && !Consistent(w, stray)
    ensures var uncounted := Empty(key, asmap).(nIdCount := -1); CheckPasses(w, uncounted) && !Consistent(w, uncounted)
  {
    var s := Empty(key, asmap);
    assert TriedIds(s.info) == {} && NewIds(s.info) == {};
    assert ip in map[ip := Id(0)];
  }

  /** In particular it passes between any two operations. */
  lemma ConsistentPasses(w: World, s: State)
    requires Consistent(w, s) && StampsOk(s.info) && s.key != 0
    ensures CheckPasses(w, s)
  {
    hide RandomOk, NewOk, TriedOk, RefsOk, CheckPasses;
    TablesInRange(w, s);
    FoundIfOk(s);
    CheckMeans(w, s);
  }

  lemma FoundIfOk(s: State)
    requires AddrOk(s.info, s.addr)
    ensures FoundByAddress(s.info, s.addr)
  {
  }

  lemma TablesInRange(w: World, s: State)
    requires NewOk(w, s.key, s.info, s.newAt) && TriedOk(w, s.key, s.asmap, s.info, s.triedAt)
    ensures InTable(s.newAt, NEW_BUCKET_COUNT) && InTable(s.triedAt, TRIED_BUCKET_COUNT)
  {
  }

  lemma IdsSplit(info: map<Id, AddrInfo>)
    ensures |info| == |TriedIds(info)| + |NewIds(info)|
  {
    assert info.Keys == TriedIds(info) + NewIds(info);
    assert |info| == |info.Keys|;
  }

  lemma PassIsRandom(s: State)
    requires EntriesPass(s)
    ensures RandomOk(s.info, s.random)
  {
    hide EntriesPass;
    EntriesFacts(s);
    IdsSplit(s.info);
    AllPositionsTaken(s.info, s.random);
  }

  lemma EntriesFacts(s: State)
    requires EntriesPass(s)
    ensures |s.random| == |TriedIds(s.info)| + |NewIds(s.info)|
    ensures forall id <- s.info :: 0 <= s.info[id].nRandomPos < |s.random| && s.random[s.info[id].nRandomPos] == id
  {
    forall id | id in s.info ensures 0 <= s.info[id].nRandomPos < |s.random| && s.random[s.info[id].nRandomPos] == id {
      assert EntryPasses(s, id);
    }
  }

  /** As many entries as positions, each at its own: every position holds an entry. */
  lemma AllPositionsTaken(info: map<Id, AddrInfo>, random: seq<Id>)
    requires |random| == |info|
    requires forall id <- info :: 0 <= info[id].nRandomPos < |random| && random[info[id].nRandomPos] == id
    ensures RandomOk(info, random)
  {
    var taken: set<Slot> := set id | id in info :: Slot(0, info[id].nRandomPos);
    var all: set<Slot> := set k | 0 <= k < |random| :: Slot(0, k);
    PositionCount(|random|);
    TakenCount(info, random);
    assert taken <= all;
    FullSubset(taken, all);
    forall k | 0 <= k < |random| ensures random[k] in info && info[random[k]].nRandomPos == k {
      assert Slot(0, k) in all;
      var id :| id in info && info[id].nRandomPos == k;
    }
  }

  lemma {:induction false} PositionCount(n: nat)
    ensures |set k | 0 <= k < n :: Slot(0, k)| == n
  {
    var all: set<Slot> := set k | 0 <= k < n :: Slot(0, k);
    if n > 0 {
      PositionCount(n - 1);
      var fewer: set<Slot> := set k | 0 <= k < n - 1 :: Slot(0, k);
      assert all == fewer + {Slot(0, n - 1)};
    } else {
      assert all == {};
    }
  }

  lemma {:induction false} TakenCount(info: map<Id, AddrInfo>, random: seq<Id>)
    requires forall id <- info :: 0 <= info[id].nRandomPos < |random| && random[info[id].nRandomPos] == id
    ensures |set id | id in info :: Slot(0, info[id].nRandomPos)| == |info|
    decreases |info|
  {
    var taken: set<Slot> := set id | id in info :: Slot(0, info[id].nRandomPos);
    if info == map[] {
      assert taken == {};
    } else {
      var id :| id in info;
      var rest := info - {id};
      TakenCount(rest, random);
      var fewer: set<Slot> := set x | x in rest :: Slot(0, rest[x].nRandomPos);
      var last := Slot(0, info[id].nRandomPos);
      forall slot ensures slot in taken <==> slot in fewer || slot == last {
        if slot in taken {
          var x :| x in info && slot == Slot(0, info[x].nRandomPos);
          if x != id { assert x in rest && rest[x] == info[x]; }
        }
        if slot in fewer {
          var x :| x in rest && slot == Slot(0, rest[x].nRandomPos);
          assert x in info && info[x] == rest[x];
        }
      }
      assert taken == fewer + {last};
      assert |info| == |rest| + 1;
    }
  }

  lemma {:induction false} FullSubset(a: set<Slot>, b: set<Slot>)
    requires a <= b && |a| == |b|
    ensures a == b
  {
    assert b == a + (b - a);
  }

  lemma RandomCounts(s: State)
    requires RandomOk(s.info, s.random)
    ensures |s.random| == |TriedIds(s.info)| + |NewIds(s.info)|
  {
    IdsSplit(s.info);
    TakenCount(s.info, s.random);
    PositionCount(|s.random|);
    var taken: set<Slot> := set id | id in s.info :: Slot(0, s.info[id].nRandomPos);
    var all: set<Slot> := set k | 0 <= k < |s.random| :: Slot(0, k);
    forall k | 0 <= k < |s.random| ensures Slot(0, k) in taken {
      assert s.info[s.random[k]].nRandomPos == k;
    }
    assert taken == all;
  }

  lemma PassIsTried(w: World, s: State)
    requires TriedPasses(w, s)
    ensures TriedOk(w, s.key, s.asmap, s.info, s.triedAt)
  {
    forall slot | slot in s.triedAt
      ensures s.triedAt[slot] in s.info && s.info[s.triedAt[slot]].fInTried
      ensures slot == TriedSlot(w, s.key, s.asmap, s.info[s.triedAt[slot]].service)
    {
      assert TriedHolderPasses(w, s, slot);
    }
    forall id | id in s.info && s.info[id].fInTried
      ensures var slot := TriedSlot(w, s.key, s.asmap, s.info[id].service); slot in s.triedAt && s.triedAt[slot] == id
    {
      assert id in TriedIds(s.info);
      var slot :| slot in SlotsOf(s.triedAt, id);
      assert TriedHolderPasses(w, s, slot);
    }
  }

  lemma TriedIsPass(w: World, s: State)
    requires TriedOk(w, s.key, s.asmap, s.info, s.triedAt)
    ensures TriedPasses(w, s)
  {
    forall id | id in TriedIds(s.info) ensures SlotsOf(s.triedAt, id) != {} {
      assert TriedSlot(w, s.key, s.asmap, s.info[id].service) in SlotsOf(s.triedAt, id);
    }
  }

  lemma PassIsNew(w: World, s: State)
    requires EntriesPass(s) && NewPasses(w, s) && InTable(s.newAt, NEW_BUCKET_COUNT)
    ensures NewOk(w, s.key, s.info, s.newAt) && RefsOk(s.info, s.newAt, {}) && StampsOk(s.info) && FoundByAddress(s.info, s.addr)
  {
    forall slot | slot in s.newAt
      ensures s.newAt[slot] in s.info && !s.info[s.newAt[slot]].fInTried
      ensures slot == NewSlotIn(w, s.key, slot.bucket, s.info[s.newAt[slot]].service)
    {
      assert NewHolderPasses(w, s, slot);
    }
    forall id | id in s.info
      ensures s.info[id].nRefCount == |SlotsOf(s.newAt, id)|
    {
      assert EntryPasses(s, id);
      if s.info[id].fInTried { assert SlotsOf(s.newAt, id) == {}; } else { assert id in NewIds(s.info); }
    }
    forall id | id in s.info ensures EntryPasses(s, id) {}
  }

  lemma NewIsPass(w: World, s: State)
    requires NewOk(w, s.key, s.info, s.newAt) && RefsOk(s.info, s.newAt, {})
    ensures NewPasses(w, s)
  {
    forall slot | slot in s.newAt ensures NewHolderPasses(w, s, slot) {
      var id := s.newAt[slot];
      assert slot in SlotsOf(s.newAt, id);
    }
  }

  // ----- the scans ---------------------------------------------------------

  /** The slots that a scan has passed when it comes to position i of bucket n. */
  predicate Before(slot: Slot, n: int, i: int) {
    slot.bucket < n || (slot.bucket == n && slot.pos < i)
  }

  function HeldBefore(at: map<Slot, Id>, id: Id, n: int, i: int): set<Slot> {
    set slot | slot in at && at[slot] == id && Before(slot, n, i)
  }

  ghost predicate TriedScanned(w: World, s: State, rest: set<Id>, n: int, i: int) {
    && (forall slot <- s.triedAt :: Before(slot, n, i) ==> TriedHolderPasses(w, s, slot))
    && (forall id :: id in rest <==> id in TriedIds(s.info) && HeldBefore(s.triedAt, id, n, i) == {})
  }

  ghost predicate NewScanned(w: World, s: State, rest: map<Id, int>, n: int, i: int) {
    && (forall slot <- s.newAt :: Before(slot, n, i) ==> NewHolderPasses(w, s, slot))
    && (forall id :: id in rest <==> id in NewIds(s.info) && s.info[id].nRefCount > |HeldBefore(s.newAt, id, n, i)|)
    && (forall id <- NewIds(s.info) :: s.info[id].nRefCount >= |HeldBefore(s.newAt, id, n, i)|)
    && (forall id <- rest :: id in s.info && rest[id] == s.info[id].nRefCount - |HeldBefore(s.newAt, id, n, i)|)
  }

  lemma HeldNext(at: map<Slot, Id>, id: Id, n: int, i: int)
    requires 0 <= i
    ensures var slot := Slot(n, i);
            HeldBefore(at, id, n, i + 1) == HeldBefore(at, id, n, i) + (if slot in at && at[slot] == id then {slot} else {})
            && slot !in HeldBefore(at, id, n, i)
  {
    var slot := Slot(n, i);
    var a, b := HeldBefore(at, id, n, i + 1), HeldBefore(at, id, n, i) + (if slot in at && at[slot] == id then {slot} else {});
    forall x ensures x in a <==> x in b {
      if x.bucket == n && x.pos == i { assert x == slot; }
    }
  }

  lemma HeldNextBucket(at: map<Slot, Id>, id: Id, n: int)
    requires forall slot <- at :: 0 <= slot.pos < BUCKET_SIZE
    ensures HeldBefore(at, id, n, BUCKET_SIZE) == HeldBefore(at, id, n + 1, 0)
  {
    var a, b := HeldBefore(at, id, n, BUCKET_SIZE), HeldBefore(at, id, n + 1, 0);
    assert forall x :: x in a <==> x in b;
  }

  lemma HeldAll(at: map<Slot, Id>, id: Id, buckets: int)
    requires InTable(at, buckets)
    ensures HeldBefore(at, id, buckets, 0) == SlotsOf(at, id) && HeldBefore(at, id, 0, 0) == {}
  {
    var a, b := HeldBefore(at, id, buckets, 0), SlotsOf(at, id);
    assert forall x :: x in a <==> x in b;
  }

  lemma TriedScanBucket(w: World, s: State, rest: set<Id>, n: int)
    requires InTable(s.triedAt, TRIED_BUCKET_COUNT) && TriedScanned(w, s, rest, n, BUCKET_SIZE)
    ensures TriedScanned(w, s, rest, n + 1, 0)
  {
    forall id ensures HeldBefore(s.triedAt, id, n, BUCKET_SIZE) == HeldBefore(s.triedAt, id, n + 1, 0) { HeldNextBucket(s.triedAt, id, n); }
  }

  lemma NewScanBucket(w: World, s: State, rest: map<Id, int>, n: int)
    requires InTable(s.newAt, NEW_BUCKET_COUNT) && NewScanned(w, s, rest, n, BUCKET_SIZE)
    ensures NewScanned(w, s, rest, n + 1, 0)
  {
    forall id ensures HeldBefore(s.newAt, id, n, BUCKET_SIZE) == HeldBefore(s.newAt, id, n + 1, 0) { HeldNextBucket(s.newAt, id, n); }
  }

  lemma SkipTried(w: World, s: State, rest: set<Id>, n: int, i: int)
    requires 0 <= i && TriedScanned(w, s, rest, n, i) && Slot(n, i) !in s.triedAt
    ensures TriedScanned(w, s, rest, n, i + 1)
  {
    forall id ensures HeldBefore(s.triedAt, id, n, i + 1) == HeldBefore(s.triedAt, id, n, i) { HeldNext(s.triedAt, id, n, i); }
    forall slot | slot in s.triedAt && Before(slot, n, i + 1) ensures TriedHolderPasses(w, s, slot) {
      assert slot == Slot(n, i) || Before(slot, n, i);
    }
  }

  /** A holder that was met before has its only right slot behind it. */
  lemma StepTried(w: World, s: State, rest: set<Id>, n: int, i: int)
    requires 0 <= i && TriedScanned(w, s, rest, n, i) && Slot(n, i) in s.triedAt
    ensures var slot := Slot(n, i); var id := s.triedAt[slot];
            && (TriedHolderPasses(w, s, slot) <==> id in rest && id in s.info && slot == TriedSlot(w, s.key, s.asmap, s.info[id].service))
            && (TriedHolderPasses(w, s, slot) ==> TriedScanned(w, s, rest - {id}, n, i + 1))
  {
    var slot := Slot(n, i);
    var id := s.triedAt[slot];
    if TriedHolderPasses(w, s, slot) {
      forall x | x in s.triedAt && Before(x, n, i) ensures s.triedAt[x] != id {
        assert TriedHolderPasses(w, s, x);
      }
      assert HeldBefore(s.triedAt, id, n, i) == {};
      forall x ensures x in rest - {id} <==> x in TriedIds(s.info) && HeldBefore(s.triedAt, x, n, i + 1) == {} {
        HeldNext(s.triedAt, x, n, i);
        if x == id { assert slot in HeldBefore(s.triedAt, x, n, i + 1); }
      }
      forall x | x in s.triedAt && Before(x, n, i + 1) ensures TriedHolderPasses(w, s, x) {
        assert x == slot || Before(x, n, i);
      }
    }
  }

  lemma SkipNew(w: World, s: State, rest: map<Id, int>, n: int, i: int)
    requires 0 <= i && NewScanned(w, s, rest, n, i) && Slot(n, i) !in s.newAt
    ensures NewScanned(w, s, rest, n, i + 1)
  {
    forall id ensures HeldBefore(s.newAt, id, n, i + 1) == HeldBefore(s.newAt, id, n, i) { HeldNext(s.newAt, id, n, i); }
    forall slot | slot in s.newAt && Before(slot, n, i + 1) ensures NewHolderPasses(w, s, slot) {
      assert slot == Slot(n, i) || Before(slot, n, i);
    }
  }

  lemma StepNew(w: World, s: State, rest: map<Id, int>, n: int, i: int)
    requires 0 <= i && NewScanned(w, s, rest, n, i) && Slot(n, i) in s.newAt
    requires var id := s.newAt[Slot(n, i)]; id in rest && NewHolderPasses(w, s, Slot(n, i))
    ensures var id := s.newAt[Slot(n, i)];
            NewScanned(w, s, if rest[id] == 1 then rest - {id} else rest[id := rest[id] - 1], n, i + 1)
  {
    hide HeldBefore, Before, NewHolderPasses, NewIds;
    var id := s.newAt[Slot(n, i)];
    HeldMore(s.newAt, n, i);
    PassMore(w, s, n, i);
  }

  lemma HeldMore(at: map<Slot, Id>, n: int, i: int)
    requires 0 <= i && Slot(n, i) in at
    ensures forall x :: |HeldBefore(at, x, n, i + 1)| == |HeldBefore(at, x, n, i)| + (if x == at[Slot(n, i)] then 1 else 0)
  {
    hide HeldBefore;
    forall x ensures |HeldBefore(at, x, n, i + 1)| == |HeldBefore(at, x, n, i)| + (if x == at[Slot(n, i)] then 1 else 0) {
      HeldNext(at, x, n, i);
    }
  }

  lemma PassMore(w: World, s: State, n: int, i: int)
    requires forall slot <- s.newAt :: Before(slot, n, i) ==> NewHolderPasses(w, s, slot)
    requires Slot(n, i) in s.newAt && NewHolderPasses(w, s, Slot(n, i))
    ensures forall slot <- s.newAt :: Before(slot, n, i + 1) ==> NewHolderPasses(w, s, slot)
  {
    hide NewHolderPasses;
    forall x | x in s.newAt && Before(x, n, i + 1) ensures NewHolderPasses(w, s, x) {
      assert x == Slot(n, i) || Before(x, n, i);
    }
  }

  /** A new slot too many for its holder, or of no new entry. */
  lemma TooManyNew(w: World, s: State, rest: map<Id, int>, n: int, i: int)
    requires 0 <= i && NewScanned(w, s, rest, n, i) && Slot(n, i) in s.newAt && s.newAt[Slot(n, i)] !in rest
    ensures !NewPasses(w, s)
  {
    var slot := Slot(n, i);
    var id := s.newAt[slot];
    if NewPasses(w, s) {
      assert NewHolderPasses(w, s, slot);
      HeldNext(s.newAt, id, n, i);
      assert HeldBefore(s.newAt, id, n, i) + {slot} <= SlotsOf(s.newAt, id);
      SubsetCount(HeldBefore(s.newAt, id, n, i) + {slot}, SlotsOf(s.newAt, id));
    }
  }

  lemma SubsetCount(a: set<Slot>, b: set<Slot>)
    requires a <= b
    ensures |a| <= |b|
  {
    assert b == a + (b - a);
  }

  method CheckEntries(m: AddrMan.AddrMan) returns (err: int, setTried: set<Id>, mapNew: map<Id, int>)
    requires m.Mirrored()
    ensures err == 0 <==> EntriesPass(m.Tables())
    ensures err == 0 ==> setTried == TriedIds(m.mapInfo) && mapNew.Keys == NewIds(m.mapInfo)
    ensures err == 0 ==> forall id <- mapNew :: mapNew[id] == m.mapInfo[id].nRefCount && mapNew[id] > 0
  {
    setTried, mapNew := {}, map[];
    if |m.vRandom| != m.nTried + m.nNew { return -7, setTried, mapNew; }
    var rest := m.mapInfo.Keys;
    ghost var s := m.Tables();
    while rest != {}
      invariant rest <= m.mapInfo.Keys
      invariant forall id <- m.mapInfo :: id !in rest ==> EntryPasses(s, id)
      invariant forall id :: id in setTried <==> id in TriedIds(m.mapInfo) && id !in rest
      invariant forall id :: id in mapNew <==> id in NewIds(m.mapInfo) && id !in rest
      invariant forall id <- mapNew :: id in m.mapInfo && mapNew[id] == m.mapInfo[id].nRefCount && mapNew[id] > 0
      decreases |rest|
    {
      var n :| n in rest;
      var info := m.mapInfo[n];
      if info.fInTried {
        if info.nLastSuccess == 0 { return -1, setTried, mapNew; }
        if info.nRefCount != 0 { return -2, setTried, mapNew; }
        setTried := setTried + {n};
      } else {
        if info.nRefCount < 0 || info.nRefCount > NEW_BUCKETS_PER_ADDRESS { return -3, setTried, mapNew; }
        if info.nRefCount == 0 { return -4, setTried, mapNew; }
        mapNew := mapNew[n := info.nRefCount];
      }
      if (if info.service.ip in m.mapAddr then m.mapAddr[info.service.ip] else Id(0)) != n { return -5, setTried, mapNew; }
      if info.nRandomPos < 0 || info.nRandomPos >= |m.vRandom| || m.vRandom[info.nRandomPos] != n { return -14, setTried, mapNew; }
      if info.nLastTry < 0 { return -6, setTried, mapNew; }
      if info.nLastSuccess < 0 { return -8, setTried, mapNew; }
      assert EntryPasses(s, n);
      rest := rest - {n};
    }
    assert setTried == TriedIds(m.mapInfo);
    assert mapNew.Keys == NewIds(m.mapInfo);
    assert |mapNew| == |mapNew.Keys|;
    if |setTried| != m.nTried { return -9, setTried, mapNew; }
    if |mapNew| != m.nNew { return -10, setTried, mapNew; }
    err := 0;
  }

  method CheckTriedSlot(m: AddrMan.AddrMan, setTried: set<Id>, n: int, i: int) returns (err: int, rest: set<Id>)
    requires m.Mirrored() && 0 <= n < TRIED_BUCKET_COUNT && 0 <= i < BUCKET_SIZE
    requires TriedScanned(m.world, m.Tables(), setTried, n, i)
    ensures err == 0 ==> TriedScanned(m.world, m.Tables(), rest, n, i + 1)
    ensures err != 0 ==> !TriedPasses(m.world, m.Tables())
  {
    hide TriedScanned, TriedHolderPasses;
    ghost var s := m.Tables();
    var id := m.GetTried(n, i);
    if id == NONE {
      SkipTried(m.world, s, setTried, n, i);
      return 0, setTried;
    }
    AddrMan.AtHere(m.triedAt, Slot(n, i));
    StepTried(m.world, s, setTried, n, i);
    RestIsTried(m.world, s, setTried, n, i);
    if id !in setTried { return -11, setTried; }
    var a := m.mapInfo[id].service;
    if TriedBucket(m.world, m.nKey, m.m_asmap, a) != n { return -17, setTried; }
    if BucketPosition(m.world, m.nKey, false, n, a) != i { return -18, setTried; }
    return 0, setTried - {id};
  }

  lemma RestIsTried(w: World, s: State, rest: set<Id>, n: int, i: int)
    requires TriedScanned(w, s, rest, n, i)
    ensures forall id <- rest :: id in s.info
  {
  }

  method CheckNewSlot(m: AddrMan.AddrMan, mapNew: map<Id, int>, n: int, i: int) returns (err: int, rest: map<Id, int>)
    requires m.Mirrored() && 0 <= n < NEW_BUCKET_COUNT && 0 <= i < BUCKET_SIZE
    requires NewScanned(m.world, m.Tables(), mapNew, n, i)
    ensures err == 0 ==> NewScanned(m.world, m.Tables(), rest, n, i + 1)
    ensures err != 0 ==> !NewPasses(m.world, m.Tables())
  {
    hide NewScanned;
    ghost var s := m.Tables();
    var id := m.GetNew(n, i);
    if id == NONE {
      SkipNew(m.world, s, mapNew, n, i);
      return 0, mapNew;
    }
    AddrMan.AtHere(m.newAt, Slot(n, i));
    if id !in mapNew {
      TooManyNew(m.world, s, mapNew, n, i);
      return -12, mapNew;
    }
    RestIsNew(m.world, s, mapNew, n, i);
    var a := m.mapInfo[id].service;
    if BucketPosition(m.world, m.nKey, true, n, a) != i {
      assert !NewHolderPasses(m.world, s, Slot(n, i));
      return -19, mapNew;
    }
    StepNew(m.world, s, mapNew, n, i);
    rest := mapNew[id := mapNew[id] - 1];
    if rest[id] == 0 {
      rest := rest - {id};
      assert rest == mapNew - {id};
    }
    return 0, rest;
  }

  lemma RestIsNew(w: World, s: State, rest: map<Id, int>, n: int, i: int)
    requires NewScanned(w, s, rest, n, i)
    ensures forall id <- rest :: id in NewIds(s.info) && id in s.info
  {
  }

  method CheckTried(m: AddrMan.AddrMan, setTried0: set<Id>) returns (err: int, setTried: set<Id>)
    requires m.Mirrored() && setTried0 == TriedIds(m.mapInfo)
    ensures err != 0 ==> !TriedPasses(m.world, m.Tables())
    ensures err == 0 ==> (setTried == {} <==> TriedPasses(m.world, m.Tables()))
  {
    hide TriedScanned, TriedPasses;
    setTried := setTried0;
    TriedScanStarts(m.world, m.Tables());
    MirroredInTable(m);
    for n := 0 to TRIED_BUCKET_COUNT
      invariant TriedScanned(m.world, m.Tables(), setTried, n, 0)
    {
      for i := 0 to BUCKET_SIZE
        invariant TriedScanned(m.world, m.Tables(), setTried, n, i)
      {
        err, setTried := CheckTriedSlot(m, setTried, n, i);
        if err != 0 { return; }
      }
      TriedScanBucket(m.world, m.Tables(), setTried, n);
    }
    TriedScanEnds(m.world, m.Tables(), setTried);
    err := 0;
  }

  method CheckNew(m: AddrMan.AddrMan, mapNew0: map<Id, int>) returns (err: int, mapNew: map<Id, int>)
    requires m.Mirrored() && mapNew0.Keys == NewIds(m.mapInfo)
    requires forall id <- mapNew0 :: mapNew0[id] == m.mapInfo[id].nRefCount && mapNew0[id] > 0
    ensures err != 0 ==> !NewPasses(m.world, m.Tables())
    ensures err == 0 ==> (mapNew == map[] <==> NewPasses(m.world, m.Tables()))
  {
    hide NewScanned, NewPasses;
    mapNew := mapNew0;
    NewScanStarts(m.world, m.Tables(), mapNew);
    MirroredInTable(m);
    for n := 0 to NEW_BUCKET_COUNT
      invariant NewScanned(m.world, m.Tables(), mapNew, n, 0)
    {
      for i := 0 to BUCKET_SIZE
        invariant NewScanned(m.world, m.Tables(), mapNew, n, i)
      {
        err, mapNew := CheckNewSlot(m, mapNew, n, i);
        if err != 0 { return; }
      }
      NewScanBucket(m.world, m.Tables(), mapNew, n);
    }
    NewScanEnds(m.world, m.Tables(), mapNew);
    err := 0;
  }

  lemma MirroredInTable(m: AddrMan.AddrMan)
    requires m.Mirrored()
    ensures InTable(m.newAt, NEW_BUCKET_COUNT) && InTable(m.triedAt, TRIED_BUCKET_COUNT)
  {
  }

  lemma NothingBefore(at: map<Slot, Id>, id: Id, buckets: int)
    requires InTable(at, buckets)
    ensures HeldBefore(at, id, 0, 0) == {}
  {
  }

  lemma TriedScanStarts(w: World, s: State)
    requires InTable(s.triedAt, TRIED_BUCKET_COUNT)
    ensures TriedScanned(w, s, TriedIds(s.info), 0, 0)
  {
    forall id ensures HeldBefore(s.triedAt, id, 0, 0) == {} { NothingBefore(s.triedAt, id, TRIED_BUCKET_COUNT); }
  }

  lemma NewScanStarts(w: World, s: State, mapNew: map<Id, int>)
    requires InTable(s.newAt, NEW_BUCKET_COUNT) && mapNew.Keys == NewIds(s.info)
    requires forall id <- mapNew :: mapNew[id] == s.info[id].nRefCount && mapNew[id] > 0
    ensures NewScanned(w, s, mapNew, 0, 0)
  {
    forall id ensures HeldBefore(s.newAt, id, 0, 0) == {} { NothingBefore(s.newAt, id, NEW_BUCKET_COUNT); }
  }

  lemma TriedScanEnds(w: World, s: State, rest: set<Id>)
    requires InTable(s.triedAt, TRIED_BUCKET_COUNT) && TriedScanned(w, s, rest, TRIED_BUCKET_COUNT, 0)
    ensures rest == {} <==> TriedPasses(w, s)
  {
    forall id ensures HeldBefore(s.triedAt, id, TRIED_BUCKET_COUNT, 0) == SlotsOf(s.triedAt, id) { HeldAll(s.triedAt, id, TRIED_BUCKET_COUNT); }
    if rest == {} {
      forall id | id in TriedIds(s.info) ensures SlotsOf(s.triedAt, id) != {} { assert id !in rest; }
    }
  }

  lemma NewScanEnds(w: World, s: State, rest: map<Id, int>)
    requires InTable(s.newAt, NEW_BUCKET_COUNT) && NewScanned(w, s, rest, NEW_BUCKET_COUNT, 0)
    ensures rest == map[] <==> NewPasses(w, s)
  {
    forall id ensures HeldBefore(s.newAt, id, NEW_BUCKET_COUNT, 0) == SlotsOf(s.newAt, id) { HeldAll(s.newAt, id, NEW_BUCKET_COUNT); }
    if rest == map[] {
      forall id | id in NewIds(s.info) ensures s.info[id].nRefCount == |SlotsOf(s.newAt, id)| { assert id !in rest; }
    } else {
      var id :| id in rest;
      assert s.info[id].nRefCount > |SlotsOf(s.newAt, id)|;
    }
  }

  /** Check_: 0 exactly if everything that it looks for is in order. */
  method Check_(m: AddrMan.AddrMan) returns (err: int)
    requires m.Mirrored()
    ensures err == 0 <==> CheckPasses(m.world, m.Tables())
  {
    hide EntriesPass, TriedPasses, NewPasses;
    var setTried, mapNew;
    err, setTried, mapNew := CheckEntries(m);
    if err != 0 { return; }
    err, setTried := CheckTried(m, setTried);
    if err != 0 { return; }
    err, mapNew := CheckNew(m, mapNew);
    if err != 0 { return; }
    if setTried != {} { return -13; }
    if mapNew != map[] { return -15; }
    if m.nKey == 0 { return -16; }
    err := 0;
  }
}
