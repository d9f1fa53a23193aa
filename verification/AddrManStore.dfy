/** Rebuilding the address manager from a stream: the shape of the stream, the rebuilding
    as functions, and what it keeps, whatever the stream says. */
module AddrManStore {
  import opened AddrManState
  import opened AddrManSteps
  import opened Common

  const FILE_FORMAT := 3
  const INCOMPATIBILITY_BASE := 32

  /** What a stream keeps of an entry. */
  datatype SavedInfo = SavedInfo(
    service: Service, services: set<nat>, nTime: int, source: NetAddr, nLastSuccess: int, nAttempts: int)

  /** The fields of a stream in order, as far as they are read. A stream may end before all
      that its counts announce; a negative count announces nothing. The bucket count is stored
      with bit 30 flipped. */
  datatype Stream = Stream(
    format: nat, compat: nat, key: Key, nNew: int, nTried: int, nUBuckets: int,
    newInfos: seq<SavedInfo>, triedInfos: seq<SavedInfo>, buckets: seq<seq<int>>, asmapVersion: Option<nat>)

  /** How reading ends: with all read, with a refusal, or with the end of the stream. */
  datatype Outcome = Done | Refusal | Ended

  function Save(info: AddrInfo): SavedInfo {
    SavedInfo(info.service, info.services, info.nTime, info.source, info.nLastSuccess, info.nAttempts)
  }

  /** An entry as it comes out of a stream. */
  function Load(saved: SavedInfo, tried: bool, pos: int): AddrInfo {
    AddrInfo(saved.service, saved.services, saved.nTime, saved.source,
             0, 0, saved.nLastSuccess, saved.nAttempts, 0, tried, pos)
  }

  const BIT30 := 1073741824

  /** n XOR 2^30 */
  function FlipBit30(n: int): int {
    if (n / BIT30) % 2 == 1 then n - BIT30 else n + BIT30
  }

  function BucketCount(st: Stream): int {
    if st.format >= 1 then FlipBit30(st.nUBuckets) else st.nUBuckets
  }

  function AsmapVersion(w: World, asmap: seq<bool>): nat {
    if asmap == [] then 0 else w.asmapHash(asmap)
  }

  /** The bucket numbers written may be used again: a format that has them, the same
      number of buckets, and the same map from addresses to groups. */
  predicate BucketsUsable(w: World, st: Stream, asmap: seq<bool>) {
    && st.format >= 2 && BucketCount(st) == NEW_BUCKET_COUNT
    && st.asmapVersion == Some(AsmapVersion(w, asmap))
  }

  /** The refusals of the reader. */
  predicate Refused(st: Stream) {
    || (st.compat - INCOMPATIBILITY_BASE) % 256 > FILE_FORMAT
    || st.nNew > NEW_BUCKET_COUNT * BUCKET_SIZE
    || st.nTried > TRIED_BUCKET_COUNT * BUCKET_SIZE
  }

  function AddressOf(st: Stream, i: nat): NetAddr
    requires i < |st.newInfos| + |st.triedInfos|
  {
    if i < |st.newInfos| then st.newInfos[i].service.ip else st.triedInfos[i - |st.newInfos|].service.ip
  }

  /** No more is read than the counts announce. */
  predicate Bounded(st: Stream) {
    && |st.newInfos| <= Max(st.nNew, 0) && |st.triedInfos| <= Max(st.nTried, 0)
    && |st.buckets| <= Max(BucketCount(st), 0)
  }

  /** The stream ends too early. */
  predicate CutShort(st: Stream) {
    || |st.newInfos| < st.nNew || |st.triedInfos| < st.nTried || |st.buckets| < BucketCount(st)
    || (st.format >= 2 && st.asmapVersion.None?)
  }

  /** The counts fit what follows them. */
  predicate Whole(st: Stream) {
    && st.nNew == |st.newInfos| && st.nTried == |st.triedInfos|
    && |st.buckets| == Max(BucketCount(st), 0)
    && (st.format >= 2 ==> st.asmapVersion.Some?)
  }

  lemma BucketCountIs(st: Stream)
    ensures BucketCount(st) == if st.format >= 1 then FlipBit30(st.nUBuckets) else st.nUBuckets
  {
  }

  lemma WholeIs(st: Stream)
    requires Bounded(st)
    ensures Whole(st) <==> !CutShort(st) && st.nNew >= 0 && st.nTried >= 0
  {
  }

  // ----- rebuilding, as functions ------------------------------------------

  function AddEntry(s: State, entry: AddrInfo): State {
    var id := Id(s.nIdCount);
    s.(nIdCount := s.nIdCount + 1, info := s.info[id := entry], addr := s.addr[entry.service.ip := id],
       random := s.random + [id])
  }

  /** After the first n new entries. The source takes the counts over unseen, so a negative
      one stays. */
  function LoadNew(asmap: seq<bool>, st: Stream, n: nat): State
    requires n <= |st.newInfos|
  {
    if n == 0
    then Empty(st.key, asmap).(nIdCount := Min(st.nNew, 0), nNew := Min(st.nNew, 0), nTried := Min(st.nTried, 0)) else
      var s := LoadNew(asmap, st, n - 1);
      AddEntry(s, Load(st.newInfos[n - 1], false, |s.random|)).(nNew := s.nNew + 1)
  }

  /** After the first k tried entries; one whose slot is taken is lost. */
  function LoadTried(w: World, asmap: seq<bool>, st: Stream, k: nat): State
    requires k <= |st.triedInfos|
  {
    if k == 0 then LoadNew(asmap, st, |st.newInfos|) else
      var s := LoadTried(w, asmap, st, k - 1);
      var slot := TriedSlot(w, s.key, asmap, st.triedInfos[k - 1].service);
      if slot in s.triedAt then s else
        AddEntry(s, Load(st.triedInfos[k - 1], true, |s.random|)).(
          triedAt := Filled(s.triedAt, slot, Id(s.nIdCount)), nTried := s.nTried + 1)
  }

  /** Writing NONE into a free slot leaves it free. */
  function Filled(at: map<Slot, Id>, slot: Slot, id: Id): map<Slot, Id> {
    if id == NONE then at else at[slot := id]
  }

  /** The last of the first upto buckets that lists index n, or bucket 0. */
  function LastBucket(buckets: seq<seq<int>>, n: int, upto: nat): (b: int)
    requires upto <= |buckets|
    ensures b == 0 || 0 <= b < upto
    ensures b != 0 ==> n in buckets[b]
    ensures forall k :: b < k < upto ==> n !in buckets[k]
  {
    if upto == 0 then 0 else if n in buckets[upto - 1] then upto - 1 else LastBucket(buckets, n, upto - 1)
  }

  /** After placing the first n new entries in the new table: at the bucket they had,
      else at the one their own source gives, else nowhere. */
  function PlaceNew(w: World, asmap: seq<bool>, st: Stream, n: nat): State
    requires n <= |st.newInfos|
  {
    if n == 0 then LoadTried(w, asmap, st, |st.triedInfos|) else
      PlaceOne(w, asmap, st, PlaceNew(w, asmap, st, n - 1), n - 1)
  }

  function PlaceOne(w: World, asmap: seq<bool>, st: Stream, s: State, n: nat): State
    requires n < |st.newInfos|
  {
    var id := Id(n);
    if id !in s.info then s else
      var entry := s.info[id];
      var former := NewSlotIn(w, s.key, LastBucket(st.buckets, n, |st.buckets|), entry.service);
      var own := NewSlot(w, s.key, asmap, entry.service, entry.source);
      if BucketsUsable(w, st, asmap) && former !in s.newAt && entry.nRefCount < NEW_BUCKETS_PER_ADDRESS
      then Ref(s, id, former)
      else if own !in s.newAt then Ref(s, id, own) else s
  }

  // ----- what rebuilding keeps ---------------------------------------------

  /** The entries outside tried that have no reference yet. */
  function Waiting(info: map<Id, AddrInfo>): set<Id> {
    set id | id in info && !info[id].fInTried && info[id].nRefCount == 0
  }

  /** All of consistency but the address table. */
  predicate TablesOk(w: World, s: State, loose: set<Id>) {
    && RandomOk(s.info, s.random)
    && NewOk(w, s.key, s.info, s.newAt)
    && TriedOk(w, s.key, s.asmap, s.info, s.triedAt)
    && RefsOk(s.info, s.newAt, loose)
    && CountsOk(s.info, s.nIdCount, s.nTried, s.nNew)
  }

  predicate Rebuilding(w: World, s: State) {
    TablesOk(w, s, Waiting(s.info))
  }

  /** What the address table is when addresses may repeat: it leads from every address that
      is there to one of the entries with it. */
  predicate Addressed(info: map<Id, AddrInfo>, addr: map<NetAddr, Id>) {
    && (forall ip <- addr :: addr[ip] in info && info[addr[ip]].service.ip == ip)
    && (forall id <- info :: info[id].service.ip in addr)
  }

  lemma AddAddressed(info: map<Id, AddrInfo>, addr: map<NetAddr, Id>, id: Id, entry: AddrInfo)
    requires Addressed(info, addr) && id !in info
    ensures Addressed(info[id := entry], addr[entry.service.ip := id])
  {
  }

  lemma RefAddressed(info: map<Id, AddrInfo>, info': map<Id, AddrInfo>, addr: map<NetAddr, Id>)
    requires Addressed(info, addr) && SameButRefs(info, info')
    ensures Addressed(info', addr)
  {
    assert forall id <- info :: info[id].service == info'[id].service;
  }

  lemma AddEntryTables(w: World, s: State, entry: AddrInfo)
    requires NewOk(w, s.key, s.info, s.newAt)
    requires RefsOk(s.info, s.newAt, Waiting(s.info))
    requires Id(s.nIdCount) !in s.info && entry.nRefCount == 0
    ensures var info := s.info[Id(s.nIdCount) := entry];
            NewOk(w, s.key, info, s.newAt) && RefsOk(info, s.newAt, Waiting(info))
  {
    assert SlotsOf(s.newAt, Id(s.nIdCount)) == {};
  }

  lemma AddTried(w: World, s: State, entry: AddrInfo, triedAt: map<Slot, Id>)
    requires TriedOk(w, s.key, s.asmap, s.info, s.triedAt)
    requires Id(s.nIdCount) !in s.info
    requires if entry.fInTried
             then var slot := TriedSlot(w, s.key, s.asmap, entry.service);
                  slot !in s.triedAt && triedAt == s.triedAt[slot := Id(s.nIdCount)]
             else triedAt == s.triedAt
    ensures TriedOk(w, s.key, s.asmap, s.info[Id(s.nIdCount) := entry], triedAt)
  {
    hide TriedSlot;
  }

  lemma AddEntryCounts(info: map<Id, AddrInfo>, nIdCount: int, nTried: int, nNew: int, entry: AddrInfo)
    requires CountsOk(info, nIdCount, nTried, nNew)
    ensures Id(nIdCount) !in info
    ensures var d := if entry.fInTried then 1 else 0;
            CountsOk(info[Id(nIdCount) := entry], nIdCount + 1, nTried + d, nNew + 1 - d)
  {
    var id := Id(nIdCount);
    IdsAfterAdd(info, id, entry);
  }

  lemma AddEntryKeeps(w: World, s: State, entry: AddrInfo, triedAt: map<Slot, Id>)
    requires Rebuilding(w, s)
    requires entry.nRefCount == 0 && entry.nRandomPos == |s.random|
    requires if entry.fInTried
             then var slot := TriedSlot(w, s.key, s.asmap, entry.service);
                  slot !in s.triedAt && triedAt == s.triedAt[slot := Id(s.nIdCount)]
             else triedAt == s.triedAt
    ensures var d := if entry.fInTried then 1 else 0;
            Rebuilding(w, AddEntry(s, entry).(triedAt := triedAt, nTried := s.nTried + d, nNew := s.nNew + 1 - d))
    ensures Addressed(s.info, s.addr) ==> Addressed(AddEntry(s, entry).info, AddEntry(s, entry).addr)
  {
    hide RandomOk, NewOk, TriedOk, RefsOk, CountsOk, Waiting, TriedSlot, Addressed;
    AddEntryCounts(s.info, s.nIdCount, s.nTried, s.nNew, entry);
    AddRandom(s.info, s.random, Id(s.nIdCount), entry);
    if Addressed(s.info, s.addr) { AddAddressed(s.info, s.addr, Id(s.nIdCount), entry); }
    AddEntryTables(w, s, entry);
    AddTried(w, s, entry, triedAt);
  }

  lemma RefWaiting(w: World, s: State, id: Id, slot: Slot)
    requires Rebuilding(w, s)
    requires slot !in s.newAt
    requires id in s.info && !s.info[id].fInTried && s.info[id].nRefCount < NEW_BUCKETS_PER_ADDRESS
    requires 0 <= slot.bucket < NEW_BUCKET_COUNT && slot == NewSlotIn(w, s.key, slot.bucket, s.info[id].service)
    ensures Rebuilding(w, Ref(s, id, slot))
  {
    hide RandomOk, TriedOk, CountsOk, RefsOk;
    RefCountIrrelevant(w, s, id, s.info[id].nRefCount + 1);
    RefRefs(s.info, s.newAt, id, slot, Waiting(s.info));
    WaitingAfterRef(s.info, s.newAt, id);
  }

  lemma WaitingAfterRef(info: map<Id, AddrInfo>, newAt: map<Slot, Id>, id: Id)
    requires RefsOk(info, newAt, Waiting(info)) && id in info
    ensures Waiting(info[id := info[id].(nRefCount := info[id].nRefCount + 1)]) == Waiting(info) - {id}
  {
    var info' := info[id := info[id].(nRefCount := info[id].nRefCount + 1)];
    assert forall x :: x in Waiting(info') <==> x in Waiting(info) - {id};
  }

  // ----- rebuilding from any whole stream ----------------------------------

  /** The new entries carry the first numbers, in stream order. */
  ghost predicate NewLoaded(st: Stream, s: State, n: nat)
    requires n <= |st.newInfos|
  {
    forall i | 0 <= i < n :: Id(i) in s.info && s.info[Id(i)] == Load(st.newInfos[i], false, i)
  }

  lemma {:induction false} LoadNewKeeps(w: World, asmap: seq<bool>, st: Stream, n: nat)
    requires Whole(st) && n <= |st.newInfos|
    ensures var s := LoadNew(asmap, st, n);
            && Rebuilding(w, s) && Addressed(s.info, s.addr) && NewLoaded(st, s, n)
            && s.nIdCount == |s.random| == n && s.nNew == n && s.nTried == 0
            && s.key == st.key && s.asmap == asmap && s.newAt == map[] && s.triedAt == map[]
  {
    hide RandomOk, AddrOk, NewOk, TriedOk, RefsOk, CountsOk, Waiting, TriedSlot, Rebuilding, Addressed, Whole, NewLoaded;
    if n == 0 {
      WholeCounts(st);
      EmptyRebuilding(w, st.key, asmap);
      NothingLoaded(st, st.key, asmap);
    } else {
      LoadNewKeeps(w, asmap, st, n - 1);
      var s := LoadNew(asmap, st, n - 1);
      var entry := Load(st.newInfos[n - 1], false, |s.random|);
      NewLoadedMore(st, s, n - 1, entry);
      AddEntryKeeps(w, s, entry, s.triedAt);
    }
  }

  lemma WholeCounts(st: Stream)
    requires Whole(st)
    ensures st.nNew >= 0 && st.nTried >= 0
  {
  }

  lemma NothingLoaded(st: Stream, key: Key, asmap: seq<bool>)
    ensures NewLoaded(st, Empty(key, asmap), 0)
  {
  }

  lemma NewLoadedMore(st: Stream, s: State, n: nat, entry: AddrInfo)
    requires n < |st.newInfos| && NewLoaded(st, s, n) && s.nIdCount == n
    requires entry == Load(st.newInfos[n], false, n)
    ensures forall t: State | t.info == AddEntry(s, entry).info :: NewLoaded(st, t, n + 1)
  {
  }

  lemma NewLoadedKept(st: Stream, s: State, n: nat, entry: AddrInfo)
    requires n <= |st.newInfos| <= s.nIdCount && NewLoaded(st, s, n)
    ensures forall t: State | t.info == AddEntry(s, entry).info :: NewLoaded(st, t, n)
  {
  }

  lemma EmptyRebuilding(w: World, key: Key, asmap: seq<bool>)
    ensures Rebuilding(w, Empty(key, asmap)) && Addressed(map[], Empty(key, asmap).addr)
  {
    var s := Empty(key, asmap);
    assert TriedIds(s.info) == {} && NewIds(s.info) == {} && Waiting(s.info) == {};
  }

  /** The first k tried entries of the stream find their slots taken. */
  ghost predicate TriedTaken(w: World, s: State, st: Stream, k: nat)
    requires k <= |st.triedInfos|
  {
    forall j | 0 <= j < k :: TriedSlot(w, s.key, s.asmap, st.triedInfos[j].service) in s.triedAt
  }

  /** The entries numbered after the new ones are among the first k tried entries of the stream. */
  ghost predicate TriedFrom(st: Stream, info: map<Id, AddrInfo>, k: nat)
    requires k <= |st.triedInfos|
  {
    forall id <- info | id.n >= |st.newInfos| ::
      info[id].fInTried && exists j :: 0 <= j < k && Save(info[id]) == st.triedInfos[j]
  }

  ghost predicate TriedLoaded(w: World, st: Stream, s: State, k: nat)
    requires k <= |st.triedInfos|
  {
    TriedTaken(w, s, st, k) && TriedFrom(st, s.info, k)
  }

  lemma {:induction false} LoadTriedKeeps(w: World, asmap: seq<bool>, st: Stream, k: nat)
    requires Whole(st) && k <= |st.triedInfos|
    ensures var s := LoadTried(w, asmap, st, k);
            && Rebuilding(w, s) && Addressed(s.info, s.addr) && NewLoaded(st, s, |st.newInfos|)
            && TriedLoaded(w, st, s, k)
            && |st.newInfos| <= s.nIdCount == |s.random| && s.nNew == |st.newInfos| && s.nTried <= k
            && s.key == st.key && s.asmap == asmap && s.newAt == map[]
  {
    hide RandomOk, AddrOk, NewOk, TriedOk, RefsOk, CountsOk, Waiting, TriedSlot, Rebuilding, Addressed, TriedLoaded;
    hide Whole, NewLoaded;
    if k == 0 {
      LoadNewKeeps(w, asmap, st, |st.newInfos|);
      NothingTried(w, st, LoadNew(asmap, st, |st.newInfos|));
    } else {
      LoadTriedKeeps(w, asmap, st, k - 1);
      var s := LoadTried(w, asmap, st, k - 1);
      var entry := Load(st.triedInfos[k - 1], true, |s.random|);
      NewLoadedKept(st, s, |st.newInfos|, entry);
      var slot := TriedSlot(w, s.key, asmap, st.triedInfos[k - 1].service);
      TriedLoadedMore(w, asmap, st, k);
      if slot !in s.triedAt {
        AddEntryKeeps(w, s, entry, s.triedAt[slot := Id(s.nIdCount)]);
      }
    }
  }

  lemma NothingTried(w: World, st: Stream, s: State)
    requires Rebuilding(w, s) && s.triedAt == map[] && s.nIdCount == |st.newInfos|
    ensures TriedLoaded(w, st, s, 0)
  {
  }

  lemma TriedLoadedMore(w: World, asmap: seq<bool>, st: Stream, k: nat)
    requires 0 < k <= |st.triedInfos|
    requires var s := LoadTried(w, asmap, st, k - 1);
             TriedLoaded(w, st, s, k - 1) && s.asmap == asmap && |st.newInfos| <= s.nIdCount
    ensures TriedLoaded(w, st, LoadTried(w, asmap, st, k), k)
  {
    hide TriedSlot, LoadTried, TriedFrom;
    var s := LoadTried(w, asmap, st, k - 1);
    LoadTriedOnce(w, asmap, st, k);
    TriedFromMore(st, s.info, k);
    TriedFromAdded(st, s.info, k, Id(s.nIdCount), Load(st.triedInfos[k - 1], true, |s.random|));
  }

  lemma TriedFromMore(st: Stream, info: map<Id, AddrInfo>, k: nat)
    requires 0 < k <= |st.triedInfos| && TriedFrom(st, info, k - 1)
    ensures TriedFrom(st, info, k)
  {
    forall id <- info | id.n >= |st.newInfos| ensures exists j :: 0 <= j < k && Save(info[id]) == st.triedInfos[j] {
      var j :| 0 <= j < k - 1 && Save(info[id]) == st.triedInfos[j];
    }
  }

  lemma TriedFromAdded(st: Stream, info: map<Id, AddrInfo>, k: nat, id: Id, entry: AddrInfo)
    requires 0 < k <= |st.triedInfos| && TriedFrom(st, info, k)
    requires Save(entry) == st.triedInfos[k - 1] && entry.fInTried
    ensures TriedFrom(st, info[id := entry], k)
  {
    var info' := info[id := entry];
    forall x <- info' | x.n >= |st.newInfos| ensures exists j :: 0 <= j < k && Save(info'[x]) == st.triedInfos[j] {
      if x != id {
        var j :| 0 <= j < k && Save(info[x]) == st.triedInfos[j];
      }
    }
  }

  lemma LoadTriedOnce(w: World, asmap: seq<bool>, st: Stream, k: nat)
    requires 0 < k <= |st.triedInfos|
    ensures var s := LoadTried(w, asmap, st, k - 1);
            var slot := TriedSlot(w, s.key, asmap, st.triedInfos[k - 1].service);
            LoadTried(w, asmap, st, k) == if slot in s.triedAt then s else
              AddEntry(s, Load(st.triedInfos[k - 1], true, |s.random|)).(
                triedAt := Filled(s.triedAt, slot, Id(s.nIdCount)), nTried := s.nTried + 1)
  {
    hide TriedSlot, Filled;
  }

  // ----- placing the new entries -------------------------------------------

  /** Entries that agree except on references. */
  ghost predicate SameButRefs(info: map<Id, AddrInfo>, info': map<Id, AddrInfo>) {
    && (forall id :: id in info <==> id in info')
    && (forall id <- info :: info[id].(nRefCount := info'[id].nRefCount) == info'[id])
  }

  lemma SameRefsAfterRef(a: map<Id, AddrInfo>, b: map<Id, AddrInfo>, id: Id, n: int)
    requires SameButRefs(a, b) && id in b
    ensures SameButRefs(a, b[id := b[id].(nRefCount := n)])
  {
  }

  lemma SameRefsSelf(a: map<Id, AddrInfo>)
    ensures SameButRefs(a, a)
  {
  }

  lemma {:induction false} PlaceNewKeeps(w: World, asmap: seq<bool>, st: Stream, n: nat)
    requires Whole(st) && n <= |st.newInfos|
    ensures var s, t := LoadTried(w, asmap, st, |st.triedInfos|), PlaceNew(w, asmap, st, n);
            && Rebuilding(w, t) && Addressed(t.info, t.addr)
            && t == s.(info := t.info, newAt := t.newAt)
            && SameButRefs(s.info, t.info)
            && (forall i | n <= i < |st.newInfos| :: Id(i) in t.info && t.info[Id(i)].nRefCount == 0)
            && s.asmap == asmap
  {
    hide RandomOk, AddrOk, NewOk, TriedOk, RefsOk, CountsOk, Waiting, Rebuilding, Whole, TriedLoaded;
    hide SameButRefs, LoadTried, NewSlotIn, NewSlot, Addressed;
    LoadTriedKeeps(w, asmap, st, |st.triedInfos|);
    var s := LoadTried(w, asmap, st, |st.triedInfos|);
    if n == 0 {
      SameRefsSelf(s.info);
    } else {
      PlaceNewKeeps(w, asmap, st, n - 1);
      BucketsRead(st);
      PlaceOneKeeps(w, asmap, st, s, PlaceNew(w, asmap, st, n - 1), n - 1);
      RefAddressed(s.info, PlaceNew(w, asmap, st, n).info, s.addr);
    }
  }

  lemma PlaceOneKeeps(w: World, asmap: seq<bool>, st: Stream, s0: State, s: State, n: nat)
    requires n < |st.newInfos|
    requires Rebuilding(w, s) && SameButRefs(s0.info, s.info) && s.asmap == asmap
    requires Id(n) in s.info && s.info[Id(n)].nRefCount == 0
    requires Id(n) in s0.info && !s0.info[Id(n)].fInTried
    requires BucketCount(st) == NEW_BUCKET_COUNT ==> |st.buckets| == NEW_BUCKET_COUNT
    ensures var t := PlaceOne(w, asmap, st, s, n);
            && Rebuilding(w, t)
            && t == s.(info := t.info, newAt := t.newAt)
            && SameButRefs(s0.info, t.info)
            && (forall id <- s.info | id != Id(n) :: id in t.info && t.info[id] == s.info[id])
  {
    hide RandomOk, AddrOk, NewOk, TriedOk, RefsOk, CountsOk, Waiting, Rebuilding, BucketPosition, NewBucket, LastBucket;
    var id := Id(n);
    var entry := s.info[id];
    var bucket := LastBucket(st.buckets, n, |st.buckets|);
    var former := NewSlotIn(w, s.key, bucket, entry.service);
    var own := NewSlot(w, s.key, asmap, entry.service, entry.source);
    assert !entry.fInTried;
    hide SameButRefs, Ref;
    var t := PlaceOne(w, asmap, st, s, n);
    if t == Ref(s, id, own) && own !in s.newAt {
      PlacedAt(w, s0, s, id, own);
    } else if t != s {
      PlacedAt(w, s0, s, id, former);
    }
  }

  lemma PlacedAt(w: World, s0: State, s: State, id: Id, slot: Slot)
    requires Rebuilding(w, s) && SameButRefs(s0.info, s.info) && slot !in s.newAt
    requires id in s.info && !s.info[id].fInTried && s.info[id].nRefCount < NEW_BUCKETS_PER_ADDRESS
    requires 0 <= slot.bucket < NEW_BUCKET_COUNT && slot == NewSlotIn(w, s.key, slot.bucket, s.info[id].service)
    ensures var t := Ref(s, id, slot);
            && Rebuilding(w, t)
            && t == s.(info := t.info, newAt := t.newAt)
            && SameButRefs(s0.info, t.info)
            && (forall x <- s.info | x != id :: x in t.info && t.info[x] == s.info[x])
  {
    hide Rebuilding, SameButRefs;
    SameRefsAfterRef(s0.info, s.info, id, s.info[id].nRefCount + 1);
    RefWaiting(w, s, id, slot);
  }

  lemma BucketsRead(st: Stream)
    requires Whole(st) || (Bounded(st) && !CutShort(st))
    ensures BucketCount(st) == NEW_BUCKET_COUNT ==> |st.buckets| == NEW_BUCKET_COUNT
  {
  }

  /** A new entry that found no place lost to another one in the slot of its own source. */
  lemma {:induction false} LostToCollision(w: World, asmap: seq<bool>, st: Stream, n: nat, i: nat)
    requires Whole(st) && i < n <= |st.newInfos|
    ensures var t := PlaceNew(w, asmap, st, n);
            && Id(i) in t.info
            && (t.info[Id(i)].nRefCount == 0 ==>
                  NewSlot(w, t.key, asmap, t.info[Id(i)].service, t.info[Id(i)].source) in t.newAt)
  {
    hide PlaceOne, NewSlot, Whole;
    PlacedKnown(w, asmap, st, n - 1);
    PlaceNewOnce(w, asmap, st, n - 1);
    PlaceOneEffect(w, asmap, st, PlaceNew(w, asmap, st, n - 1), n - 1);
    if i < n - 1 {
      LostToCollision(w, asmap, st, n - 1, i);
    }
  }

  lemma PlaceOneEffect(w: World, asmap: seq<bool>, st: Stream, s: State, n: nat)
    requires n < |st.newInfos| && Id(n) in s.info
    ensures var t := PlaceOne(w, asmap, st, s, n);
            && t.key == s.key && s.newAt.Keys <= t.newAt.Keys
            && (forall id <- s.info | id != Id(n) :: id in t.info && t.info[id] == s.info[id])
            && Id(n) in t.info
            && (t.info[Id(n)] == s.info[Id(n)] || t.info[Id(n)].nRefCount == s.info[Id(n)].nRefCount + 1)
            && (t.info[Id(n)] == s.info[Id(n)] ==> NewSlot(w, s.key, asmap, s.info[Id(n)].service, s.info[Id(n)].source) in t.newAt)
            && (s.info[Id(n)].nRefCount >= 0 && t.info[Id(n)].nRefCount == 0 ==> t.info[Id(n)] == s.info[Id(n)])
  {
    hide NewSlot, NewSlotIn, BucketsUsable, LastBucket;
  }

  lemma PlacedKnown(w: World, asmap: seq<bool>, st: Stream, n: nat)
    requires Whole(st) && n <= |st.newInfos|
    ensures forall i | 0 <= i < |st.newInfos| :: Id(i) in PlaceNew(w, asmap, st, n).info
    ensures forall id <- PlaceNew(w, asmap, st, n).info :: PlaceNew(w, asmap, st, n).info[id].nRefCount >= 0
  {
    hide RandomOk, AddrOk, NewOk, TriedOk, CountsOk, Waiting, Whole, LoadTried, PlaceNew, TriedLoaded;
    LoadTriedKeeps(w, asmap, st, |st.triedInfos|);
    PlaceNewKeeps(w, asmap, st, n);
  }

  // ----- pruning -----------------------------------------------------------

  function AddressesOf(info: map<Id, AddrInfo>, ids: set<Id>): set<NetAddr> {
    set id | id in ids && id in info :: info[id].service.ip
  }

  /** t is s without the entries in gone and their addresses, up to positions in the random
      order. */
  ghost predicate Pruned(s: State, t: State, gone: set<Id>) {
    && gone <= s.info.Keys
    && SameButPositions(s.info - gone, t.info)
    && t.addr == s.addr - AddressesOf(s.info, gone)
    && t.nNew == s.nNew - |gone| && t.nTried == s.nTried
    && t.newAt == s.newAt && t.triedAt == s.triedAt && t.nIdCount == s.nIdCount
    && t.key == s.key && t.asmap == s.asmap
  }

  lemma PrunedNothing(s: State)
    ensures Pruned(s, s, {})
  {
    assert s.info - {} == s.info;
    assert AddressesOf(s.info, {}) == {};
  }

  lemma PrunedMore(s: State, t: State, gone: set<Id>, id: Id)
    requires Pruned(s, t, gone) && RandomOk(t.info, t.random)
    requires id in Waiting(t.info)
    ensures RandomOk(Delete(t, id).info, Delete(t, id).random) && Pruned(s, Delete(t, id), gone + {id})
    ensures Waiting(Delete(t, id).info) == Waiting(t.info) - {id}
    ensures Delete(t, id).info.Keys == t.info.Keys - {id}
  {
    hide RandomOk, Delete, SameButPositions, AddressesOf;
    var u := Delete(t, id);
    DeleteOnly(t, id);
    PrunedInfo(s.info, t.info, u.info, gone, id);
    PrunedAddresses(s.info, t.info, gone, id);
    WaitingAfterDelete(t.info, u.info, id);
    KeysAfterDelete(t.info, u.info, id);
  }

  lemma DeleteOnly(s: State, id: Id)
    requires RandomOk(s.info, s.random) && id in s.info
    ensures var t := Delete(s, id);
            && RandomOk(t.info, t.random) && SameButPositions(s.info - {id}, t.info)
            && t.addr == s.addr - {s.info[id].service.ip} && t.nNew == s.nNew - 1 && t.nTried == s.nTried
            && t.newAt == s.newAt && t.triedAt == s.triedAt && t.nIdCount == s.nIdCount && t.key == s.key && t.asmap == s.asmap
  {
    hide RandomOk, Delete, SameButPositions, SwapRandom;
    RandomPos(s.info, s.random, id);
    var last := |s.random| - 1;
    SwapRandomOk(s, s.info[id].nRandomPos, last);
    var s1 := SwapRandom(s, s.info[id].nRandomPos, last);
    DeleteIs(s, id, s1);
    SameKeys(s.info, s1.info);
    SameWithout(s.info, s1.info, id);
    DropRandom(s1.info, s1.random, id);
  }

  lemma PrunedInfo(a: map<Id, AddrInfo>, b: map<Id, AddrInfo>, c: map<Id, AddrInfo>, gone: set<Id>, id: Id)
    requires SameButPositions(a - gone, b) && SameButPositions(b - {id}, c)
    ensures SameButPositions(a - (gone + {id}), c)
  {
    forall x <- a - (gone + {id}) ensures SameEntry((a - (gone + {id}))[x], c[x]) {
      assert SameEntry((a - gone)[x], b[x]) && SameEntry((b - {id})[x], c[x]);
    }
  }

  lemma PrunedAddresses(a: map<Id, AddrInfo>, b: map<Id, AddrInfo>, gone: set<Id>, id: Id)
    requires SameButPositions(a - gone, b) && id in b
    ensures id in a && id !in gone && a[id].service.ip == b[id].service.ip
    ensures AddressesOf(a, gone + {id}) == AddressesOf(a, gone) + {a[id].service.ip}
  {
    assert SameEntry((a - gone)[id], b[id]);
  }

  lemma WaitingAfterDelete(b: map<Id, AddrInfo>, c: map<Id, AddrInfo>, id: Id)
    requires SameButPositions(b - {id}, c)
    ensures Waiting(c) == Waiting(b) - {id}
  {
    assert forall x <- c :: SameEntry(b[x], c[x]);
    assert forall x :: x in Waiting(c) <==> x in Waiting(b) - {id};
  }

  lemma KeysAfterDelete(b: map<Id, AddrInfo>, c: map<Id, AddrInfo>, id: Id)
    requires SameButPositions(b - {id}, c)
    ensures c.Keys == b.Keys - {id}
  {
    assert forall x :: x in c.Keys <==> x in b.Keys - {id};
  }

  /** Once the entries without a reference are pruned, all but the address table is right. */
  lemma PrunedKeeps(w: World, s: State, t: State)
    requires Rebuilding(w, s) && Pruned(s, t, Waiting(s.info)) && RandomOk(t.info, t.random)
    ensures TablesOk(w, t, {})
  {
    hide RandomOk, CountsOk, NewOk, TriedOk, RefsOk, SameButPositions, Waiting;
    var gone := Waiting(s.info);
    WaitingIsNew(s.info);
    HeldStays(w, s, gone);
    PrunedNew(w, s.key, s.info, t.info, s.newAt, gone);
    PrunedTried(w, s.key, s.asmap, s.info, t.info, s.triedAt, gone);
    PrunedRefs(s.info, t.info, s.newAt);
    PrunedCounts(s, t, gone);
  }

  lemma WaitingIsNew(info: map<Id, AddrInfo>)
    ensures Waiting(info) <= NewIds(info) && forall id <- Waiting(info) :: id in info && !info[id].fInTried
  {
  }

  lemma HeldStays(w: World, s: State, gone: set<Id>)
    requires NewOk(w, s.key, s.info, s.newAt) && RefsOk(s.info, s.newAt, gone)
    requires forall id <- gone :: id in s.info && !s.info[id].fInTried
    ensures forall slot <- s.newAt :: s.newAt[slot] in s.info && s.newAt[slot] !in gone
  {
    forall slot <- s.newAt ensures s.newAt[slot] in s.info && s.newAt[slot] !in gone {
      assert slot in SlotsOf(s.newAt, s.newAt[slot]);
    }
  }

  lemma PrunedNew(w: World, key: Key, info: map<Id, AddrInfo>, info': map<Id, AddrInfo>, newAt: map<Slot, Id>, gone: set<Id>)
    requires NewOk(w, key, info, newAt) && SameButPositions(info - gone, info')
    requires forall slot <- newAt :: newAt[slot] in info && newAt[slot] !in gone
    ensures NewOk(w, key, info', newAt)
  {
    hide NewSlotIn;
    assert forall id <- info - gone :: SameEntry((info - gone)[id], info'[id]);
  }

  lemma PrunedTried(w: World, key: Key, asmap: seq<bool>, info: map<Id, AddrInfo>, info': map<Id, AddrInfo>, triedAt: map<Slot, Id>, gone: set<Id>)
    requires TriedOk(w, key, asmap, info, triedAt) && SameButPositions(info - gone, info')
    requires forall id <- gone :: id in info && !info[id].fInTried
    ensures TriedOk(w, key, asmap, info', triedAt)
  {
    hide TriedSlot;
    assert forall id <- info - gone :: SameEntry((info - gone)[id], info'[id]);
  }

  lemma PrunedRefs(info: map<Id, AddrInfo>, info': map<Id, AddrInfo>, newAt: map<Slot, Id>)
    requires RefsOk(info, newAt, Waiting(info)) && SameButPositions(info - Waiting(info), info')
    ensures RefsOk(info', newAt, {})
  {
    hide SlotsOf;
    assert forall id <- info' :: SameEntry((info - Waiting(info))[id], info'[id]);
  }

  lemma PrunedCounts(s: State, t: State, gone: set<Id>)
    requires CountsOk(s.info, s.nIdCount, s.nTried, s.nNew) && Pruned(s, t, gone) && gone <= NewIds(s.info)
    ensures CountsOk(t.info, t.nIdCount, t.nTried, t.nNew)
  {
    assert forall id <- t.info :: SameEntry(s.info[id], t.info[id]);
    assert forall id :: id in NewIds(t.info) <==> id in NewIds(s.info) - gone;
    assert forall id :: id in TriedIds(t.info) <==> id in TriedIds(s.info);
    assert NewIds(t.info) == NewIds(s.info) - gone && TriedIds(t.info) == TriedIds(s.info);
  }

  // ----- any stream at all -------------------------------------------------

  /** The random order, the numbering and the numbers of the new entries are right even
      after negative counts. */
  ghost predicate Lined(st: Stream, s: State, n: nat) {
    && RandomOk(s.info, s.random)
    && (forall id <- s.info :: id.n < s.nIdCount)
    && (forall i | 0 <= i < n :: Id(i) in s.info)
  }

  lemma LinedRandom(st: Stream, s: State, n: nat)
    requires Lined(st, s, n)
    ensures RandomOk(s.info, s.random)
  {
  }

  lemma AddEntryLined(st: Stream, s: State, n: nat, entry: AddrInfo)
    requires Lined(st, s, n) && entry.nRandomPos == |s.random|
    ensures Lined(st, AddEntry(s, entry), n)
    ensures s.nIdCount == n ==> Lined(st, AddEntry(s, entry), n + 1)
  {
    hide RandomOk;
    AddRandom(s.info, s.random, Id(s.nIdCount), entry);
  }

  lemma {:induction false} LoadNewLined(asmap: seq<bool>, st: Stream, n: nat)
    requires Bounded(st) && n <= |st.newInfos|
    ensures var s := LoadNew(asmap, st, n);
            && Lined(st, s, n) && s.nIdCount == Min(st.nNew, 0) + n && s.nNew == Min(st.nNew, 0) + n && s.nTried == Min(st.nTried, 0)
            && s.key == st.key && s.asmap == asmap && s.newAt == map[] && s.triedAt == map[]
  {
    hide RandomOk, Lined;
    if n == 0 {
      EmptyLined(st, LoadNew(asmap, st, 0));
    } else {
      LoadNewLined(asmap, st, n - 1);
      var s := LoadNew(asmap, st, n - 1);
      AddEntryLined(st, s, n - 1, Load(st.newInfos[n - 1], false, |s.random|));
      LinedAlike(st, AddEntry(s, Load(st.newInfos[n - 1], false, |s.random|)), LoadNew(asmap, st, n), n);
    }
  }

  lemma EmptyLined(st: Stream, s: State)
    requires s.info == map[] && s.random == []
    ensures Lined(st, s, 0)
  {
  }

  lemma LinedAlike(st: Stream, s: State, t: State, n: nat)
    requires Lined(st, s, n) && t.info == s.info && t.random == s.random && t.nIdCount == s.nIdCount
    ensures Lined(st, t, n)
  {
  }

  lemma {:induction false} LoadTriedLined(w: World, asmap: seq<bool>, st: Stream, k: nat)
    requires Bounded(st) && k <= |st.triedInfos|
    ensures var s := LoadTried(w, asmap, st, k);
            && Lined(st, s, |st.newInfos|) && s.nNew == Min(st.nNew, 0) + |st.newInfos| && s.newAt == map[]
            && Min(st.nTried, 0) <= s.nTried <= Min(st.nTried, 0) + k && s.key == st.key && s.asmap == asmap
  {
    hide Lined, TriedSlot;
    if k == 0 {
      LoadNewLined(asmap, st, |st.newInfos|);
    } else {
      LoadTriedLined(w, asmap, st, k - 1);
      LoadTriedOnce(w, asmap, st, k);
      var s := LoadTried(w, asmap, st, k - 1);
      AddEntryLined(st, s, |st.newInfos|, Load(st.triedInfos[k - 1], true, |s.random|));
      if TriedSlot(w, s.key, asmap, st.triedInfos[k - 1].service) !in s.triedAt {
        LinedAlike(st, AddEntry(s, Load(st.triedInfos[k - 1], true, |s.random|)), LoadTried(w, asmap, st, k), |st.newInfos|);
      }
    }
  }

  lemma {:induction false} PlaceNewLined(w: World, asmap: seq<bool>, st: Stream, n: nat)
    requires Bounded(st) && n <= |st.newInfos|
    ensures var s, t := LoadTried(w, asmap, st, |st.triedInfos|), PlaceNew(w, asmap, st, n);
            Lined(st, t, |st.newInfos|) && t.nNew == s.nNew && t.nTried == s.nTried && t.nIdCount == s.nIdCount
  {
    hide RandomOk, LoadTried, NewSlot, NewSlotIn, LastBucket, BucketsUsable;
    if n == 0 {
      LoadTriedLined(w, asmap, st, |st.triedInfos|);
    } else {
      PlaceNewLined(w, asmap, st, n - 1);
      var s := PlaceNew(w, asmap, st, n - 1);
      assert Id(n - 1) in s.info;
      RefRandom(s.info, s.random, Id(n - 1), s.info[Id(n - 1)].nRefCount + 1);
    }
  }

  lemma RefRandom(info: map<Id, AddrInfo>, random: seq<Id>, id: Id, n: int)
    requires RandomOk(info, random) && id in info
    ensures RandomOk(info[id := info[id].(nRefCount := n)], random)
  {
  }

  lemma {:induction false} NewAtMost(asmap: seq<bool>, st: Stream, n: nat)
    requires n <= |st.newInfos|
    ensures |LoadNew(asmap, st, n).info| <= n
  {
    if n > 0 { NewAtMost(asmap, st, n - 1); }
  }

  lemma {:induction false} TriedAtMost(w: World, asmap: seq<bool>, st: Stream, k: nat)
    requires k <= |st.triedInfos|
    ensures |TriedIds(LoadTried(w, asmap, st, k).info)| <= k
  {
    hide TriedSlot;
    if k == 0 {
      NoneTried(asmap, st, |st.newInfos|);
    } else {
      TriedAtMost(w, asmap, st, k - 1);
      var s, t := LoadTried(w, asmap, st, k - 1), LoadTried(w, asmap, st, k);
      assert TriedIds(t.info) <= TriedIds(s.info) + {Id(s.nIdCount)};
      SmallerSet(TriedIds(t.info), TriedIds(s.info) + {Id(s.nIdCount)});
    }
  }

  lemma {:induction false} NoneTried(asmap: seq<bool>, st: Stream, n: nat)
    requires n <= |st.newInfos|
    ensures TriedIds(LoadNew(asmap, st, n).info) == {}
  {
    if n > 0 { NoneTried(asmap, st, n - 1); }
  }

  lemma SmallerSet(a: set<Id>, b: set<Id>)
    requires a <= b
    ensures |a| <= |b|
  {
    assert b == a + (b - a);
  }

  /** A manager that was to get more entries than came is not consistent. */
  lemma ShortIsInconsistent(w: World, t: State)
    requires t.nNew > |t.info| || t.nTried > |TriedIds(t.info)|
    ensures !Consistent(w, t)
  {
    SmallerSet(NewIds(t.info), t.info.Keys);
  }

  /** A count below zero is never made good: the manager read back is not consistent. */
  lemma NegativeIsInconsistent(w: World, t: State)
    requires t.nNew < 0 || t.nTried < 0
    ensures !Consistent(w, t)
  {
  }

  lemma UsableIs(w: World, st: Stream, asmap: seq<bool>)
    ensures BucketsUsable(w, st, asmap) <==>
              && st.format >= 2 && BucketCount(st) == NEW_BUCKET_COUNT
              && st.asmapVersion == Some(if asmap == [] then 0 else w.asmapHash(asmap))
    ensures BucketsUsable(w, st, asmap) ==> BucketCount(st) == NEW_BUCKET_COUNT
  {
  }

  lemma LoadNewNone(asmap: seq<bool>, st: Stream)
    ensures LoadNew(asmap, st, 0)
         == Empty(st.key, asmap).(nIdCount := Min(st.nNew, 0), nNew := Min(st.nNew, 0), nTried := Min(st.nTried, 0))
  {
  }

  lemma LoadNewOnce(asmap: seq<bool>, st: Stream, n: nat)
    requires n < |st.newInfos|
    ensures var s := LoadNew(asmap, st, n);
            LoadNew(asmap, st, n + 1) == AddEntry(s, Load(st.newInfos[n], false, |s.random|)).(nNew := s.nNew + 1)
  {
  }

  lemma LoadTriedNone(w: World, asmap: seq<bool>, st: Stream)
    ensures LoadTried(w, asmap, st, 0) == LoadNew(asmap, st, |st.newInfos|)
  {
  }

  lemma PlaceNewNone(w: World, asmap: seq<bool>, st: Stream)
    ensures PlaceNew(w, asmap, st, 0) == LoadTried(w, asmap, st, |st.triedInfos|)
  {
  }

  lemma PlaceNewOnce(w: World, asmap: seq<bool>, st: Stream, n: nat)
    requires n < |st.newInfos|
    ensures PlaceNew(w, asmap, st, n + 1) == PlaceOne(w, asmap, st, PlaceNew(w, asmap, st, n), n)
  {
  }

  lemma WaitingKnown(info: map<Id, AddrInfo>)
    ensures Waiting(info) <= info.Keys
  {
  }

  lemma WaitingIs(info: map<Id, AddrInfo>, id: Id)
    ensures id in Waiting(info) <==> id in info && !info[id].fInTried && info[id].nRefCount == 0
  {
  }
}
