/** The address manager's tables as one value, the hashing that places entries,
    and the invariant that ties the five cross-linked structures together. */
module AddrManState {

  const NEW_BUCKET_COUNT := 1024
  const TRIED_BUCKET_COUNT := 256
  const BUCKET_SIZE := 64
  const TRIED_BUCKETS_PER_GROUP := 8
  const NEW_BUCKETS_PER_SOURCE_GROUP := 64
  const NEW_BUCKETS_PER_ADDRESS := 8
  const HORIZON_DAYS := 30
  const RETRIES := 3
  const MAX_FAILURES := 10
  const MIN_FAIL_DAYS := 7
  const REPLACEMENT_HOURS := 4
  const SET_TRIED_COLLISION_SIZE := 10
  const TEST_WINDOW := 40 * 60

  type Key = nat      // the 256-bit secret nKey

  /** A network address without a port. */
  datatype NetAddr = NetAddr(bits: nat)

  /** An entry's number; -1 marks an empty table slot. */
  datatype Id = Id(n: int)

  const NONE := Id(-1)

  datatype Service = Service(ip: NetAddr, port: nat)

  datatype Address = Address(service: Service, services: set<nat>, nTime: int)

  datatype AddrInfo = AddrInfo(
    service: Service, services: set<nat>, nTime: int, source: NetAddr,
    nLastTry: int, nLastCountAttempt: int, nLastSuccess: int, nAttempts: int,
    nRefCount: int, fInTried: bool, nRandomPos: int)

  datatype Slot = Slot(bucket: int, pos: int)

  /** Everything the manager calls but does not define: the keyed hashes, the
      address groups (which depend on the AS map) and the address predicates. */
  datatype World = World(
    hashTried: (Key, Service) -> nat,
    hashTriedGroup: (Key, nat, nat) -> nat,
    hashNew: (Key, nat, nat) -> nat,
    hashNewGroup: (Key, nat, nat) -> nat,
    hashPosition: (Key, bool, int, Service) -> nat,
    group: (seq<bool>, NetAddr) -> nat,
    routable: NetAddr -> bool,
    valid: NetAddr -> bool,
    network: NetAddr -> nat,
    asmapHash: seq<bool> -> nat)

  function TriedBucket(w: World, key: Key, asmap: seq<bool>, a: Service): (b: int)
    ensures 0 <= b < TRIED_BUCKET_COUNT
  {
    var hash1 := w.hashTried(key, a);
    w.hashTriedGroup(key, w.group(asmap, a.ip), hash1 % TRIED_BUCKETS_PER_GROUP) % TRIED_BUCKET_COUNT
  }

  function NewBucket(w: World, key: Key, asmap: seq<bool>, a: Service, src: NetAddr): (b: int)
    ensures 0 <= b < NEW_BUCKET_COUNT
  {
    var sourceGroup := w.group(asmap, src);
    var hash1 := w.hashNew(key, w.group(asmap, a.ip), sourceGroup);
    w.hashNewGroup(key, sourceGroup, hash1 % NEW_BUCKETS_PER_SOURCE_GROUP) % NEW_BUCKET_COUNT
  }

  function BucketPosition(w: World, key: Key, fNew: bool, bucket: int, a: Service): (p: int)
    ensures 0 <= p < BUCKET_SIZE
  {
    w.hashPosition(key, fNew, bucket, a) % BUCKET_SIZE
  }

  /** Where an entry may sit in the new table, bucket by bucket. */
  function NewSlotIn(w: World, key: Key, bucket: int, a: Service): Slot {
    Slot(bucket, BucketPosition(w, key, true, bucket, a))
  }

  function NewSlot(w: World, key: Key, asmap: seq<bool>, a: Service, src: NetAddr): Slot {
    NewSlotIn(w, key, NewBucket(w, key, asmap, a, src), a)
  }

  /** The one place an entry may occupy in the tried table. */
  function TriedSlot(w: World, key: Key, asmap: seq<bool>, a: Service): Slot {
    var bucket := TriedBucket(w, key, asmap, a);
    Slot(bucket, BucketPosition(w, key, false, bucket, a))
  }

  predicate IsTerrible(info: AddrInfo, now: int) {
    if info.nLastTry != 0 && info.nLastTry >= now - 60 then false
    else if info.nTime > now + 10 * 60 then true
    else if info.nTime == 0 || now - info.nTime > HORIZON_DAYS * 24 * 60 * 60 then true
    else if info.nLastSuccess == 0 && info.nAttempts >= RETRIES then true
    else now - info.nLastSuccess > MIN_FAIL_DAYS * 24 * 60 * 60 && info.nAttempts >= MAX_FAILURES
  }

  /** An entry tried in the last minute is not terrible. Any other one is, if its time lies more
      than ten minutes ahead, or is not known or more than thirty days back; if it never had a
      success in three attempts; or if it had none for a week and ten attempts in a row. */
  lemma TerribleIs(info: AddrInfo, now: int)
    ensures IsTerrible(info, now) <==>
            && (info.nLastTry == 0 || info.nLastTry + 60 < now)
            && (|| now + 600 < info.nTime || info.nTime == 0 || info.nTime + 2592000 < now
                || (info.nLastSuccess == 0 && info.nAttempts >= 3)
                || (info.nLastSuccess + 604800 < now && info.nAttempts >= 10))
  {
  }

  // ----- how far a group reaches -------------------------------------------

  lemma FewValues(f: nat -> int, n: nat)
    ensures var b := set k | 0 <= k < n :: f(k); |b| <= n
  {
    var b := set k | 0 <= k < n :: f(k);
    if n > 0 {
      FewValues(f, n - 1);
      var c := set k | 0 <= k < n - 1 :: f(k);
      assert b == c + {f(n - 1)};
    }
  }

  /** The addresses of one group get into no more than eight buckets of the tried table. */
  lemma GroupReachesTried(w: World, key: Key, asmap: seq<bool>, group: nat) returns (buckets: set<int>)
    ensures |buckets| <= 8
    ensures forall a: Service :: w.group(asmap, a.ip) == group ==> TriedBucket(w, key, asmap, a) in buckets
  {
    var f := (k: nat) => w.hashTriedGroup(key, group, k) % TRIED_BUCKET_COUNT;
    FewValues(f, 8);
    buckets := set k | 0 <= k < 8 :: f(k);
    forall a: Service | w.group(asmap, a.ip) == group ensures TriedBucket(w, key, asmap, a) in buckets {
      assert TriedBucket(w, key, asmap, a) == f(w.hashTried(key, a) % 8);
    }
  }

  /** What the sources of one group announce gets into no more than 64 buckets of the new one. */
  lemma GroupReachesNew(w: World, key: Key, asmap: seq<bool>, group: nat) returns (buckets: set<int>)
    ensures |buckets| <= 64
    ensures forall a: Service, src: NetAddr :: w.group(asmap, src) == group ==> NewBucket(w, key, asmap, a, src) in buckets
  {
    var f := (k: nat) => w.hashNewGroup(key, group, k) % NEW_BUCKET_COUNT;
    FewValues(f, 64);
    buckets := set k | 0 <= k < 64 :: f(k);
    forall a: Service, src: NetAddr | w.group(asmap, src) == group ensures NewBucket(w, key, asmap, a, src) in buckets {
      assert NewBucket(w, key, asmap, a, src) == f(w.hashNew(key, w.group(asmap, a.ip), group) % 64);
    }
  }

  /** The tables. A slot absent from newAt or triedAt is the source's -1. */
  datatype State = State(
    key: Key, asmap: seq<bool>, nIdCount: int,
    info: map<Id, AddrInfo>, addr: map<NetAddr, Id>, random: seq<Id>,
    nTried: int, nNew: int,
    newAt: map<Slot, Id>, triedAt: map<Slot, Id>)

  function SlotsOf(at: map<Slot, Id>, id: Id): set<Slot> {
    set slot | slot in at && at[slot] == id
  }

  function TriedIds(info: map<Id, AddrInfo>): set<Id> {
    set id | id in info && info[id].fInTried
  }

  function NewIds(info: map<Id, AddrInfo>): set<Id> {
    set id | id in info && !info[id].fInTried
  }

  predicate RandomOk(info: map<Id, AddrInfo>, random: seq<Id>) {
    && (forall id <- info :: 0 <= info[id].nRandomPos < |random| && random[info[id].nRandomPos] == id)
    && (forall k | 0 <= k < |random| :: random[k] in info && info[random[k]].nRandomPos == k)
  }

  predicate AddrOk(info: map<Id, AddrInfo>, addr: map<NetAddr, Id>) {
    && (forall ip <- addr :: addr[ip] in info && info[addr[ip]].service.ip == ip)
    && (forall id <- info :: info[id].service.ip in addr && addr[info[id].service.ip] == id)
  }

  predicate NewOk(w: World, key: Key, info: map<Id, AddrInfo>, newAt: map<Slot, Id>) {
    forall slot <- newAt ::
      && newAt[slot] in info
      && 0 <= slot.bucket < NEW_BUCKET_COUNT
      && slot == NewSlotIn(w, key, slot.bucket, info[newAt[slot]].service)
  }

  predicate TriedOk(w: World, key: Key, asmap: seq<bool>, info: map<Id, AddrInfo>, triedAt: map<Slot, Id>) {
    && (forall slot <- triedAt ::
          && triedAt[slot] in info
          && info[triedAt[slot]].fInTried
          && slot == TriedSlot(w, key, asmap, info[triedAt[slot]].service))
    && (forall id <- info | info[id].fInTried ::
          var slot := TriedSlot(w, key, asmap, info[id].service);
          slot in triedAt && triedAt[slot] == id)
  }

  predicate RefsOk(info: map<Id, AddrInfo>, newAt: map<Slot, Id>, loose: set<Id>) {
    forall id <- info ::
      && info[id].nRefCount == |SlotsOf(newAt, id)|
      && info[id].nRefCount <= NEW_BUCKETS_PER_ADDRESS
      && (info[id].fInTried ==> info[id].nRefCount == 0)
      && (!info[id].fInTried ==> id in loose || info[id].nRefCount > 0)
      && (id in loose ==> info[id].nRefCount == 0)
  }

  predicate CountsOk(info: map<Id, AddrInfo>, nIdCount: int, nTried: int, nNew: int) {
    && nTried == |TriedIds(info)|
    && nNew == |NewIds(info)|
    && 0 <= nIdCount
    && forall id <- info :: 0 <= id.n < nIdCount
  }

  /** The structural invariant. The entries in loose are the ones an operation is
      working on: in neither table, and with no reference yet. Between operations
      there are none. */
  predicate ConsistentBut(w: World, s: State, loose: set<Id>) {
    && RandomOk(s.info, s.random)
    && AddrOk(s.info, s.addr)
    && NewOk(w, s.key, s.info, s.newAt)
    && TriedOk(w, s.key, s.asmap, s.info, s.triedAt)
    && RefsOk(s.info, s.newAt, loose)
    && CountsOk(s.info, s.nIdCount, s.nTried, s.nNew)
  }

  predicate Consistent(w: World, s: State) {
    ConsistentBut(w, s, {})
  }

  function Empty(key: Key, asmap: seq<bool>): State {
    State(key, asmap, 0, map[], map[], [], 0, 0, map[], map[])
  }
}
