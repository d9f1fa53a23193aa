/** When the address table rebuilt from a stream is right. The reader does not look for
    addresses that a stream repeats, so it is right for some streams only. */
module AddrManApart {
  import opened AddrManState
  import opened AddrManSteps
  import opened AddrManStore
  import opened Common
  import Runs = AddrManRuns
  import Spec = AddrManSpec

  // ----- in terms of the stream --------------------------------------------

  function TriedSlotOf(w: World, asmap: seq<bool>, st: Stream, k: nat): Slot
    requires k < |st.triedInfos|
  {
    TriedSlot(w, st.key, asmap, st.triedInfos[k].service)
  }

  /** Entry i of the stream, new ones first, is taken over: a new one always, a tried one if
      no earlier one had its slot. */
  predicate Loaded(w: World, asmap: seq<bool>, st: Stream, i: nat)
    requires i < |st.newInfos| + |st.triedInfos|
  {
    var k := i - |st.newInfos|;
    k >= 0 ==> forall j | 0 <= j < k :: TriedSlotOf(w, asmap, st, j) != TriedSlotOf(w, asmap, st, k)
  }

  /** The slot of the last bucket that lists new entry i. */
  function FormerSlot(w: World, st: Stream, i: nat): Slot
    requires i < |st.newInfos|
  {
    NewSlotIn(w, st.key, LastBucket(st.buckets, i, |st.buckets|), st.newInfos[i].service)
  }

  /** The slot its own source gives it. */
  function OwnSlot(w: World, asmap: seq<bool>, st: Stream, i: nat): Slot
    requires i < |st.newInfos|
  {
    NewSlot(w, st.key, asmap, st.newInfos[i].service, st.newInfos[i].source)
  }

  /** The slots of the new table that the first n new entries take. */
  function TakenNew(w: World, asmap: seq<bool>, st: Stream, n: nat): set<Slot>
    requires n <= |st.newInfos|
  {
    if n == 0 then {} else
      var taken := TakenNew(w, asmap, st, n - 1);
      if BucketsUsable(w, st, asmap) && FormerSlot(w, st, n - 1) !in taken then taken + {FormerSlot(w, st, n - 1)}
      else taken + {OwnSlot(w, asmap, st, n - 1)}
  }

  /** Entry i is a new one that finds its slots taken by earlier ones, and so is pruned. */
  predicate Dropped(w: World, asmap: seq<bool>, st: Stream, i: nat) {
    && i < |st.newInfos|
    && (BucketsUsable(w, st, asmap) ==> FormerSlot(w, st, i) in TakenNew(w, asmap, st, i))
    && OwnSlot(w, asmap, st, i) in TakenNew(w, asmap, st, i)
  }

  /** Where the buckets are not usable, those are the slots of the earlier ones' own sources. */
  lemma {:induction false} TakenOwn(w: World, asmap: seq<bool>, st: Stream, n: nat)
    requires !BucketsUsable(w, st, asmap) && n <= |st.newInfos|
    ensures TakenNew(w, asmap, st, n) == set j | 0 <= j < n :: OwnSlot(w, asmap, st, j)
  {
    hide OwnSlot;
    if n > 0 {
      TakenOwn(w, asmap, st, n - 1);
      var now := set j | 0 <= j < n :: OwnSlot(w, asmap, st, j);
      forall x ensures x in TakenNew(w, asmap, st, n) <==> x in now {
        assert OwnSlot(w, asmap, st, n - 1) in now;
      }
    }
  }

  lemma {:induction false} TakenStays(w: World, asmap: seq<bool>, st: Stream, m: nat, n: nat)
    requires m <= n <= |st.newInfos|
    ensures TakenNew(w, asmap, st, m) <= TakenNew(w, asmap, st, n)
  {
    hide OwnSlot, FormerSlot, BucketsUsable;
    if m < n { TakenStays(w, asmap, st, m, n - 1); }
  }

  /** So a new entry is dropped just when an earlier one has the same slot. */
  lemma DroppedWithoutBuckets(w: World, asmap: seq<bool>, st: Stream, i: nat)
    requires !BucketsUsable(w, st, asmap) && i < |st.newInfos|
    ensures Dropped(w, asmap, st, i) <==> exists j :: 0 <= j < i && OwnSlot(w, asmap, st, j) == OwnSlot(w, asmap, st, i)
  {
    hide OwnSlot;
    TakenOwn(w, asmap, st, i);
  }

  /** Entries that repeat an address are all pruned. */
  predicate KeepsApart(w: World, asmap: seq<bool>, st: Stream) {
    forall i, j | 0 <= i < j < |st.newInfos| + |st.triedInfos| ::
      Loaded(w, asmap, st, i) && Loaded(w, asmap, st, j) && AddressOf(st, i) == AddressOf(st, j) ==>
        Dropped(w, asmap, st, i) && Dropped(w, asmap, st, j)
  }

  // ----- in terms of the tables --------------------------------------------

  ghost predicate Apart(info: map<Id, AddrInfo>) {
    forall a, b | a in info && b in info ::
      a != b && info[a].service.ip == info[b].service.ip ==> a in Waiting(info) && b in Waiting(info)
  }

  /** Pruning an entry takes its address out of the table, whoever else has it; and of two
      entries with an address the table knows one. So no two may share one, unless both go. */
  lemma AddressesAfterPruning(s: State, t: State)
    requires Addressed(s.info, s.addr) && Pruned(s, t, Waiting(s.info))
    ensures AddrOk(t.info, t.addr) <==> Apart(s.info)
  {
    var gone := Waiting(s.info);
    var left := s.info - gone;
    assert forall id <- left :: SameEntry(left[id], t.info[id]);
    if Apart(s.info) {
      forall ip <- t.addr ensures t.addr[ip] in t.info && t.info[t.addr[ip]].service.ip == ip {
        assert t.addr[ip] in gone ==> ip in AddressesOf(s.info, gone);
      }
      forall id <- t.info ensures t.info[id].service.ip in t.addr && t.addr[t.info[id].service.ip] == id {
        OnlyOne(s, id);
      }
    } else {
      var a, b :| a in s.info && b in s.info && a != b && s.info[a].service.ip == s.info[b].service.ip && !(a in gone && b in gone);
      if a in gone { SharedBreaks(s, t, b, a); } else { SharedBreaks(s, t, a, b); }
    }
  }

  lemma SharedBreaks(s: State, t: State, a: Id, b: Id)
    requires Pruned(s, t, Waiting(s.info)) && a in s.info && b in s.info && a != b && s.info[a].service.ip == s.info[b].service.ip
    requires a !in Waiting(s.info)
    ensures !AddrOk(t.info, t.addr)
  {
    var gone := Waiting(s.info);
    var left := s.info - gone;
    assert forall id <- left :: SameEntry(left[id], t.info[id]);
    assert b in gone ==> s.info[b].service.ip in AddressesOf(s.info, gone);
    assert a in left;
    if b !in gone { assert b in left; }
  }

  lemma OnlyOne(s: State, id: Id)
    requires Addressed(s.info, s.addr) && Apart(s.info) && id in s.info && id !in Waiting(s.info)
    ensures s.info[id].service.ip in s.addr && s.addr[s.info[id].service.ip] == id
    ensures s.info[id].service.ip !in AddressesOf(s.info, Waiting(s.info))
  {
  }

  // ----- from one to the other ---------------------------------------------

  /** The number entry i of the stream gets. */
  function NumberOf(w: World, asmap: seq<bool>, st: Stream, i: nat): Id
    requires i < |st.newInfos| + |st.triedInfos|
  {
    if i < |st.newInfos| then Id(i) else Id(LoadTried(w, asmap, st, i - |st.newInfos|).nIdCount)
  }

  function InfoOf(st: Stream, i: nat): SavedInfo
    requires i < |st.newInfos| + |st.triedInfos|
  {
    if i < |st.newInfos| then st.newInfos[i] else st.triedInfos[i - |st.newInfos|]
  }

  /** The slots taken, and the entries loaded, after k tried entries. */
  ghost predicate LoadedSoFar(w: World, asmap: seq<bool>, st: Stream, s: State, k: nat)
    requires k <= |st.triedInfos|
  {
    && (forall slot :: slot in s.triedAt <==> exists j :: 0 <= j < k && TriedSlotOf(w, asmap, st, j) == slot)
    && (forall i | 0 <= i < |st.newInfos| + k :: Loaded(w, asmap, st, i) ==> IsEntry(w, asmap, st, s, i))
    && (forall id <- s.info :: exists i :: 0 <= i < |st.newInfos| + k && Loaded(w, asmap, st, i) && NumberOf(w, asmap, st, i) == id)
  }

  ghost predicate IsEntry(w: World, asmap: seq<bool>, st: Stream, s: State, i: nat)
    requires i < |st.newInfos| + |st.triedInfos|
  {
    var id := NumberOf(w, asmap, st, i);
    && id in s.info && id.n < s.nIdCount && Save(s.info[id]) == InfoOf(st, i)
    && s.info[id].fInTried == (i >= |st.newInfos|)
  }

  lemma NewSoFar(w: World, asmap: seq<bool>, st: Stream)
    requires Whole(st)
    ensures LoadedSoFar(w, asmap, st, LoadTried(w, asmap, st, 0), 0)
  {
    hide RandomOk, NewOk, TriedOk, RefsOk, CountsOk, TriedSlot, Waiting, LoadNew, LoadTried, Addressed, Rebuilding, Whole;
    LoadNewKeeps(w, asmap, st, |st.newInfos|);
    LoadTriedNone(w, asmap, st);
    var s := LoadNew(asmap, st, |st.newInfos|);
    NumbersInRange(w, s);
    forall id <- s.info
      ensures exists i :: 0 <= i < |st.newInfos| && Loaded(w, asmap, st, i) && NumberOf(w, asmap, st, i) == id
    {
      assert 0 <= id.n < |st.newInfos| && NumberOf(w, asmap, st, id.n) == id;
    }
  }

  lemma NumbersInRange(w: World, s: State)
    requires Rebuilding(w, s)
    ensures forall id <- s.info :: 0 <= id.n < s.nIdCount
  {
  }

  lemma {:induction false} LoadedAre(w: World, asmap: seq<bool>, st: Stream, k: nat)
    requires Whole(st) && k <= |st.triedInfos|
    ensures LoadedSoFar(w, asmap, st, LoadTried(w, asmap, st, k), k)
  {
    hide LoadTried, LoadedSoFar, Whole;
    if k == 0 {
      NewSoFar(w, asmap, st);
    } else {
      LoadedAre(w, asmap, st, k - 1);
      LoadTriedFacts(w, asmap, st, k - 1);
      LoadTriedOnce(w, asmap, st, k);
      OneMoreLoaded(w, asmap, st, LoadTried(w, asmap, st, k - 1), LoadTried(w, asmap, st, k), k);
    }
  }

  lemma LoadTriedFacts(w: World, asmap: seq<bool>, st: Stream, k: nat)
    requires Whole(st) && k <= |st.triedInfos|
    ensures var s := LoadTried(w, asmap, st, k); s.key == st.key && s.nIdCount >= 0 && Id(s.nIdCount) !in s.info
  {
    hide RandomOk, NewOk, TriedOk, RefsOk, TriedSlot, Waiting, Whole, TriedLoaded, NewLoaded, Addressed;
    LoadTriedKeeps(w, asmap, st, k);
  }

  lemma OneMoreLoaded(w: World, asmap: seq<bool>, st: Stream, s: State, t: State, k: nat)
    requires 0 < k <= |st.triedInfos| && LoadedSoFar(w, asmap, st, s, k - 1)
    requires s == LoadTried(w, asmap, st, k - 1) && s.key == st.key && s.nIdCount >= 0 && Id(s.nIdCount) !in s.info
    requires var slot := TriedSlotOf(w, asmap, st, k - 1);
             t == if slot in s.triedAt then s else
               AddEntry(s, Load(st.triedInfos[k - 1], true, |s.random|)).(
                 triedAt := Filled(s.triedAt, slot, Id(s.nIdCount)), nTried := s.nTried + 1)
    ensures LoadedSoFar(w, asmap, st, t, k)
  {
    hide LoadTried, TriedSlotOf;
    var slot, last := TriedSlotOf(w, asmap, st, k - 1), |st.newInfos| + k - 1;
    assert NumberOf(w, asmap, st, last) == Id(s.nIdCount);
    assert Loaded(w, asmap, st, last) <==> slot !in s.triedAt;
    forall x ensures x in t.triedAt <==> exists j :: 0 <= j < k && TriedSlotOf(w, asmap, st, j) == x {
      if x in s.triedAt {
        var j :| 0 <= j < k - 1 && TriedSlotOf(w, asmap, st, j) == x;
      }
    }
    forall i | 0 <= i < |st.newInfos| + k && Loaded(w, asmap, st, i) ensures IsEntry(w, asmap, st, t, i) {
      assert i < last ==> IsEntry(w, asmap, st, s, i);
    }
    forall id <- t.info
      ensures exists i :: 0 <= i < |st.newInfos| + k && Loaded(w, asmap, st, i) && NumberOf(w, asmap, st, i) == id
    {
      if id in s.info {
        var i :| 0 <= i < |st.newInfos| + (k - 1) && Loaded(w, asmap, st, i) && NumberOf(w, asmap, st, i) == id;
      } else {
        assert id == NumberOf(w, asmap, st, last);
      }
    }
  }

  /** Different entries get different numbers. */
  lemma NumbersDiffer(w: World, asmap: seq<bool>, st: Stream, i: nat, j: nat)
    requires Whole(st) && i < j < |st.newInfos| + |st.triedInfos| && Loaded(w, asmap, st, i) && Loaded(w, asmap, st, j)
    ensures NumberOf(w, asmap, st, i) != NumberOf(w, asmap, st, j)
  {
    hide LoadTried, Whole, Loaded;
    if j >= |st.newInfos| {
      LoadedAre(w, asmap, st, j - |st.newInfos|);
      assert IsEntry(w, asmap, st, LoadTried(w, asmap, st, j - |st.newInfos|), i);
    }
  }

  /** The entries before pruning are those loaded, with their addresses. */
  lemma EntriesAre(w: World, asmap: seq<bool>, st: Stream)
    requires Whole(st)
    ensures var t := PlaceNew(w, asmap, st, |st.newInfos|);
            && (forall i | 0 <= i < |st.newInfos| + |st.triedInfos| :: Loaded(w, asmap, st, i) ==> IsEntry(w, asmap, st, t, i))
            && (forall id <- t.info :: exists i :: 0 <= i < |st.newInfos| + |st.triedInfos| && Loaded(w, asmap, st, i) && NumberOf(w, asmap, st, i) == id)
  {
    hide LoadTried, PlaceNew, Whole, Loaded, NumberOf, Rebuilding, Addressed;
    LoadedAre(w, asmap, st, |st.triedInfos|);
    PlaceNewKeeps(w, asmap, st, |st.newInfos|);
    var s, t := LoadTried(w, asmap, st, |st.triedInfos|), PlaceNew(w, asmap, st, |st.newInfos|);
    assert forall id <- s.info :: id in t.info && Save(s.info[id]) == Save(t.info[id]) && s.info[id].fInTried == t.info[id].fInTried;
    forall i | 0 <= i < |st.newInfos| + |st.triedInfos| && Loaded(w, asmap, st, i) ensures IsEntry(w, asmap, st, t, i) {
      assert IsEntry(w, asmap, st, s, i);
    }
  }

  lemma EntryOf(w: World, asmap: seq<bool>, st: Stream, id: Id) returns (i: nat)
    requires Whole(st) && id in PlaceNew(w, asmap, st, |st.newInfos|).info
    ensures i < |st.newInfos| + |st.triedInfos| && Loaded(w, asmap, st, i) && NumberOf(w, asmap, st, i) == id
    ensures IsEntry(w, asmap, st, PlaceNew(w, asmap, st, |st.newInfos|), i)
  {
    hide LoadTried, PlaceNew, Whole, Loaded, NumberOf, IsEntry;
    EntriesAre(w, asmap, st);
    i :| 0 <= i < |st.newInfos| + |st.triedInfos| && Loaded(w, asmap, st, i) && NumberOf(w, asmap, st, i) == id;
  }

  lemma ApartIs(w: World, asmap: seq<bool>, st: Stream)
    requires Whole(st)
    ensures Apart(PlaceNew(w, asmap, st, |st.newInfos|).info) <==> KeepsApart(w, asmap, st)
  {
    hide LoadTried, PlaceNew, Whole, Loaded, NumberOf;
    EntriesAre(w, asmap, st);
    var t := PlaceNew(w, asmap, st, |st.newInfos|);
    if KeepsApart(w, asmap, st) {
      forall a, b | a in t.info && b in t.info && a != b && t.info[a].service.ip == t.info[b].service.ip
        ensures a in Waiting(t.info) && b in Waiting(t.info)
      {
        var i := EntryOf(w, asmap, st, a);
        var j := EntryOf(w, asmap, st, b);
        DroppedIs(w, asmap, st, i);
        DroppedIs(w, asmap, st, j);
      }
    } else {
      var i, j :| 0 <= i < j < |st.newInfos| + |st.triedInfos| && Loaded(w, asmap, st, i) && Loaded(w, asmap, st, j)
        && AddressOf(st, i) == AddressOf(st, j) && !(Dropped(w, asmap, st, i) && Dropped(w, asmap, st, j));
      NumbersDiffer(w, asmap, st, i, j);
      assert IsEntry(w, asmap, st, t, i) && IsEntry(w, asmap, st, t, j);
      DroppedIs(w, asmap, st, i);
      DroppedIs(w, asmap, st, j);
    }
  }

  lemma DroppedIs(w: World, asmap: seq<bool>, st: Stream, i: nat)
    requires Whole(st) && i < |st.newInfos| + |st.triedInfos|
    requires IsEntry(w, asmap, st, PlaceNew(w, asmap, st, |st.newInfos|), i)
    ensures Dropped(w, asmap, st, i) <==> NumberOf(w, asmap, st, i) in Waiting(PlaceNew(w, asmap, st, |st.newInfos|).info)
  {
    hide PlaceNew, LoadTried, Whole, TakenNew, FormerSlot, OwnSlot, BucketsUsable;
    PlacedAre(w, asmap, st, |st.newInfos|);
  }

  /** After n new entries have been placed: the slots filled, and a reference for each of them
      that is not dropped. */
  ghost predicate PlacedSoFar(w: World, asmap: seq<bool>, st: Stream, t: State, n: nat)
    requires n <= |st.newInfos|
  {
    && t.key == st.key && t.asmap == asmap && t.newAt.Keys == TakenNew(w, asmap, st, n)
    && forall i | 0 <= i < |st.newInfos| ::
         Id(i) in t.info && Save(t.info[Id(i)]) == st.newInfos[i] && !t.info[Id(i)].fInTried
         && t.info[Id(i)].nRefCount == (if i < n && !Dropped(w, asmap, st, i) then 1 else 0)
         && t.info[Id(i)].nLastTry == 0 && t.info[Id(i)].nLastCountAttempt == 0
         && (i < n && !Dropped(w, asmap, st, i) ==>
               var slot := PlaceOf(w, asmap, st, i); slot in t.newAt && t.newAt[slot] == Id(i))
  }

  /** Where new entry i goes unless it is dropped: to its former slot if the buckets can be
      relied on and it is free, and to its own otherwise. */
  function PlaceOf(w: World, asmap: seq<bool>, st: Stream, i: nat): Slot
    requires i < |st.newInfos|
  {
    if BucketsUsable(w, st, asmap) && FormerSlot(w, st, i) !in TakenNew(w, asmap, st, i) then FormerSlot(w, st, i)
    else OwnSlot(w, asmap, st, i)
  }

  /** A stream of an older format, with another number of buckets or written under another AS
      map has every new entry that finds a place in the one its own source gives it. */
  lemma PlacedBySource(w: World, asmap: seq<bool>, st: Stream, i: nat)
    requires Whole(st) && i < |st.newInfos| && !Dropped(w, asmap, st, i)
    requires st.format < 2 || BucketCount(st) != 1024 || st.asmapVersion != Some(if asmap == [] then 0 else w.asmapHash(asmap))
    ensures var t := PlaceNew(w, asmap, st, |st.newInfos|);
            var slot := NewSlot(w, st.key, asmap, st.newInfos[i].service, st.newInfos[i].source);
            slot in t.newAt && t.newAt[slot] == Id(i)
  {
    hide PlaceNew, Whole, TakenNew, Dropped, NewSlot;
    PlacedAre(w, asmap, st, |st.newInfos|);
  }

  /** In any other one, an entry that the last bucket with it has room for is back there. */
  lemma PlacedByBucket(w: World, asmap: seq<bool>, st: Stream, i: nat, b: nat)
    requires Whole(st) && i < |st.newInfos| && b < |st.buckets| && i in st.buckets[b]
    requires forall k :: b < k < |st.buckets| ==> i !in st.buckets[k]
    requires st.format >= 2 && BucketCount(st) == 1024 && st.asmapVersion == Some(if asmap == [] then 0 else w.asmapHash(asmap))
    requires Slot(b, BucketPosition(w, st.key, true, b, st.newInfos[i].service)) !in TakenNew(w, asmap, st, i)
    ensures var t := PlaceNew(w, asmap, st, |st.newInfos|);
            var slot := Slot(b, BucketPosition(w, st.key, true, b, st.newInfos[i].service));
            slot in t.newAt && t.newAt[slot] == Id(i)
  {
    hide PlaceNew, Whole, TakenNew, BucketPosition, LastBucket;
    LastIs(st.buckets, i, b);
    PlacedAre(w, asmap, st, |st.newInfos|);
  }

  lemma LastIs(buckets: seq<seq<int>>, n: int, b: nat)
    requires b < |buckets| && n in buckets[b] && forall k :: b < k < |buckets| ==> n !in buckets[k]
    ensures LastBucket(buckets, n, |buckets|) == b
  {
    hide LastBucket;
    var l := LastBucket(buckets, n, |buckets|);
    assert l >= b;
  }

  lemma {:induction false} PlacedAre(w: World, asmap: seq<bool>, st: Stream, n: nat)
    requires Whole(st) && n <= |st.newInfos|
    ensures PlacedSoFar(w, asmap, st, PlaceNew(w, asmap, st, n), n)
  {
    hide PlaceNew, PlaceOne, LoadTried, Whole, Dropped, Rebuilding, Addressed, TriedLoaded;
    if n == 0 {
      PlaceNewNone(w, asmap, st);
      LoadTriedKeeps(w, asmap, st, |st.triedInfos|);
    } else {
      PlacedAre(w, asmap, st, n - 1);
      PlaceNewOnce(w, asmap, st, n - 1);
      OneMorePlaced(w, asmap, st, PlaceNew(w, asmap, st, n - 1), n - 1);
    }
  }

  lemma OneMorePlaced(w: World, asmap: seq<bool>, st: Stream, s: State, n: nat)
    requires n < |st.newInfos| && PlacedSoFar(w, asmap, st, s, n)
    ensures PlacedSoFar(w, asmap, st, PlaceOne(w, asmap, st, s, n), n + 1)
  {
    hide PlaceOne, BucketsUsable, FormerSlot, OwnSlot, PlacedSoFar, Ref;
    PlaceOneIs(w, asmap, st, s, n);
    if BucketsUsable(w, st, asmap) && FormerSlot(w, st, n) !in s.newAt {
      RefPlaced(w, asmap, st, s, n, FormerSlot(w, st, n));
    } else if OwnSlot(w, asmap, st, n) !in s.newAt {
      RefPlaced(w, asmap, st, s, n, OwnSlot(w, asmap, st, n));
    } else {
      assert TakenNew(w, asmap, st, n + 1) == TakenNew(w, asmap, st, n);
      NotPlaced(w, asmap, st, s, n);
    }
  }

  lemma PlaceOneIs(w: World, asmap: seq<bool>, st: Stream, s: State, n: nat)
    requires n < |st.newInfos| && PlacedSoFar(w, asmap, st, s, n)
    ensures Id(n) in s.info && s.newAt.Keys == TakenNew(w, asmap, st, n)
    ensures PlaceOne(w, asmap, st, s, n) ==
            if BucketsUsable(w, st, asmap) && FormerSlot(w, st, n) !in s.newAt then Ref(s, Id(n), FormerSlot(w, st, n))
            else if OwnSlot(w, asmap, st, n) !in s.newAt then Ref(s, Id(n), OwnSlot(w, asmap, st, n)) else s
  {
    hide NewSlot, NewSlotIn, BucketsUsable, LastBucket, TakenNew, Dropped;
    assert Save(s.info[Id(n)]) == st.newInfos[n];
  }

  lemma RefPlaced(w: World, asmap: seq<bool>, st: Stream, s: State, n: nat, slot: Slot)
    requires n < |st.newInfos| && PlacedSoFar(w, asmap, st, s, n)
    requires TakenNew(w, asmap, st, n + 1) == TakenNew(w, asmap, st, n) + {slot} && !Dropped(w, asmap, st, n)
    requires slot == PlaceOf(w, asmap, st, n) && slot !in s.newAt
    ensures Id(n) in s.info && PlacedSoFar(w, asmap, st, Ref(s, Id(n), slot), n + 1)
  {
    hide TakenNew, Dropped, PlaceOf;
    assert Ref(s, Id(n), slot).newAt.Keys == s.newAt.Keys + {slot};
  }

  lemma NotPlaced(w: World, asmap: seq<bool>, st: Stream, s: State, n: nat)
    requires n < |st.newInfos| && PlacedSoFar(w, asmap, st, s, n)
    requires TakenNew(w, asmap, st, n + 1) == TakenNew(w, asmap, st, n) && Dropped(w, asmap, st, n)
    ensures PlacedSoFar(w, asmap, st, s, n + 1)
  {
    hide TakenNew, Dropped;
  }

  /** The manager read from any stream that does not end too early is consistent just when no
      count is negative and entries that repeat an address are all pruned. */
  lemma ReadIsConsistent(w: World, asmap: seq<bool>, st: Stream, u: State)
    requires Bounded(st) && !CutShort(st)
    requires var t := PlaceNew(w, asmap, st, |st.newInfos|); Pruned(t, u, Waiting(t.info)) && RandomOk(u.info, u.random)
    ensures Consistent(w, u) <==> st.nNew >= 0 && st.nTried >= 0 && KeepsApart(w, asmap, st)
    ensures st.nNew >= 0 && st.nTried >= 0 ==> TablesOk(w, u, {})
  {
    hide RandomOk, AddrOk, NewOk, TriedOk, RefsOk, CountsOk, Waiting, PlaceNew, KeepsApart, Apart, CutShort, Bounded, Whole, Rebuilding;
    WholeIs(st);
    if Whole(st) {
      var t := PlaceNew(w, asmap, st, |st.newInfos|);
      PlaceNewKeeps(w, asmap, st, |st.newInfos|);
      PrunedKeeps(w, t, u);
      AddressesAfterPruning(t, u);
      ApartIs(w, asmap, st);
    } else {
      NegativeCount(w, asmap, st, u);
    }
  }

  lemma NegativeCount(w: World, asmap: seq<bool>, st: Stream, u: State)
    requires Bounded(st) && !CutShort(st) && (st.nNew < 0 || st.nTried < 0)
    requires var t := PlaceNew(w, asmap, st, |st.newInfos|); Pruned(t, u, Waiting(t.info))
    ensures !Consistent(w, u)
  {
    hide LoadTried, PlaceNew, RandomOk, Waiting, SameButPositions, AddressesOf, Lined;
    PlaceNewLined(w, asmap, st, |st.newInfos|);
    LoadTriedLined(w, asmap, st, |st.triedInfos|);
    NegativeIsInconsistent(w, u);
  }

  /** A stream without repeated addresses needs no pruning to be right. */
  lemma DistinctKeepsApart(w: World, asmap: seq<bool>, st: Stream)
    requires forall i, j | 0 <= i < j < |st.newInfos| + |st.triedInfos| :: AddressOf(st, i) != AddressOf(st, j)
    ensures KeepsApart(w, asmap, st)
  {
  }

  /** One new and one tried entry with the same address: a stream that is read without
      complaint and leaves a manager that is not consistent. */
  lemma SameAddressTwice(w: World, asmap: seq<bool>, key: Key, a: SavedInfo, b: SavedInfo)
    requires a.service.ip == b.service.ip
    ensures var st := Stream(0, INCOMPATIBILITY_BASE, key, 1, 1, 0, [a], [b], [], None);
            Bounded(st) && !CutShort(st) && !Refused(st) && !KeepsApart(w, asmap, st)
  {
    hide PlaceNew;
    var st := Stream(0, INCOMPATIBILITY_BASE, key, 1, 1, 0, [a], [b], [], None);
    assert Loaded(w, asmap, st, 0) && Loaded(w, asmap, st, 1) && !Dropped(w, asmap, st, 1);
    assert AddressOf(st, 0) == AddressOf(st, 1);
  }

  // ----- pending collisions ------------------------------------------------

  /** The new entry of that number was pruned, or its slot in the tried table is taken by a
      tried entry of the stream. Numbers past the new entries are tried ones. */
  ghost predicate Decided(w: World, asmap: seq<bool>, st: Stream, id: Id) {
    0 <= id.n < |st.newInfos| && !Dropped(w, asmap, st, id.n) ==>
      exists k :: 0 <= k < |st.triedInfos| && TriedSlotOf(w, asmap, st, k) == TriedSlot(w, st.key, asmap, st.newInfos[id.n].service)
  }

  /** Reading leaves the pending collisions as they were. They are sound afterwards just when
      each has a number that was given out, and leads to an occupied slot if it leads to a new
      entry at all. */
  lemma CollisionsAfterReading(w: World, asmap: seq<bool>, st: Stream, u: State, nLastGood: int, pending: set<Id>)
    requires Whole(st)
    requires var t := PlaceNew(w, asmap, st, |st.newInfos|); Pruned(t, u, Waiting(t.info)) && RandomOk(u.info, u.random)
    ensures Runs.CollisionsOk(w, Spec.Manager(u, nLastGood, pending)) <==>
            forall id <- pending :: 0 <= id.n < u.nIdCount && Decided(w, asmap, st, id)
  {
    hide LoadTried, PlaceNew, Whole, Decided, RandomOk, NewOk, TriedOk, RefsOk, CountsOk, Waiting, TriedSlot, Pruned;
    forall id: Id | 0 <= id.n < u.nIdCount
      ensures (id in u.info ==> TriedSlot(w, u.key, u.asmap, u.info[id].service) in u.triedAt) <==> Decided(w, asmap, st, id)
    {
      OneCollision(w, asmap, st, u, id);
    }
  }

  lemma OneCollision(w: World, asmap: seq<bool>, st: Stream, u: State, id: Id)
    requires Whole(st) && id.n >= 0
    requires var t := PlaceNew(w, asmap, st, |st.newInfos|); Pruned(t, u, Waiting(t.info)) && RandomOk(u.info, u.random)
    ensures (id in u.info ==> TriedSlot(w, u.key, u.asmap, u.info[id].service) in u.triedAt) <==> Decided(w, asmap, st, id)
  {
    hide LoadTried, PlaceNew, Whole, Loaded, RandomOk, NewOk, RefsOk, CountsOk, TriedSlot, Rebuilding, LoadedSoFar, SameButRefs, SameButPositions, Addressed;
    var s, t := LoadTried(w, asmap, st, |st.triedInfos|), PlaceNew(w, asmap, st, |st.newInfos|);
    PlaceNewKeeps(w, asmap, st, |st.newInfos|);
    PrunedKeeps(w, t, u);
    SlotsTaken(w, asmap, st);
    Survivors(t, u, id);
    if id.n < |st.newInfos| {
      NewIsEntry(w, asmap, st, id.n);
      assert id == Id(id.n);
      DroppedIs(w, asmap, st, id.n);
    } else if id in t.info {
      var i := EntryOf(w, asmap, st, id);
    }
  }

  lemma NewIsEntry(w: World, asmap: seq<bool>, st: Stream, i: nat)
    requires Whole(st) && i < |st.newInfos|
    ensures IsEntry(w, asmap, st, PlaceNew(w, asmap, st, |st.newInfos|), i)
  {
    hide LoadTried, PlaceNew, Whole, NumberOf, IsEntry;
    EntriesAre(w, asmap, st);
    assert Loaded(w, asmap, st, i);
  }

  lemma SlotsTaken(w: World, asmap: seq<bool>, st: Stream)
    requires Whole(st)
    ensures var t := PlaceNew(w, asmap, st, |st.newInfos|);
            && t.key == st.key && t.asmap == asmap
            && forall slot :: slot in t.triedAt <==> exists k :: 0 <= k < |st.triedInfos| && TriedSlotOf(w, asmap, st, k) == slot
  {
    hide LoadTried, PlaceNew, Whole, Rebuilding, Addressed, TriedSlotOf, TriedLoaded, NewLoaded;
    LoadedAre(w, asmap, st, |st.triedInfos|);
    LoadTriedKeeps(w, asmap, st, |st.triedInfos|);
    PlaceNewKeeps(w, asmap, st, |st.newInfos|);
  }

  lemma Survivors(t: State, u: State, id: Id)
    requires Pruned(t, u, Waiting(t.info))
    ensures id in u.info <==> id in t.info && id !in Waiting(t.info)
    ensures id in u.info ==> Save(u.info[id]) == Save(t.info[id]) && u.info[id].fInTried == t.info[id].fInTried
    ensures u.triedAt == t.triedAt && u.newAt == t.newAt && u.key == t.key && u.asmap == t.asmap
  {
    var left := t.info - Waiting(t.info);
    assert id in left <==> id in u.info;
    assert id in left ==> SameEntry(left[id], u.info[id]);
  }

  /** A collision still pending from before, and a stream with a single new entry: its number is
      the stale one, and no slot of the tried table is taken. */
  lemma StaleAfterReading(w: World, asmap: seq<bool>, key: Key, a: SavedInfo)
    ensures var st := Stream(0, INCOMPATIBILITY_BASE, key, 1, 0, 0, [a], [], [], None);
            Whole(st) && !Refused(st) && !Decided(w, asmap, st, Id(0))
  {
    var st := Stream(0, INCOMPATIBILITY_BASE, key, 1, 0, 0, [a], [], [], None);
    assert !Dropped(w, asmap, st, 0);
  }
}
