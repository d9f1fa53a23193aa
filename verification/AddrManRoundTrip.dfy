/** Writing the address manager to a stream, and that reading it back loses nothing. */
module AddrManRoundTrip {
  import opened AddrManState
  import opened AddrManSteps
  import opened AddrManStore
  import opened AddrManApart
  import opened Common

  // ----- what Serialize writes ---------------------------------------------

  /** st is what writing s yields, when the new entries are written in the order
      newIds and the tried ones in the order triedIds. */
  ghost predicate SavedAs(w: World, s: State, st: Stream, newIds: seq<Id>, triedIds: seq<Id>) {
    && st.format == FILE_FORMAT && st.compat == INCOMPATIBILITY_BASE + FILE_FORMAT
    && st.key == s.key && st.nNew == |newIds| && st.nTried == |triedIds|
    && st.nUBuckets == FlipBit30(NEW_BUCKET_COUNT)
    && st.asmapVersion == Some(AsmapVersion(w, s.asmap))
    && Lists(s.info, st.newInfos, newIds, false)
    && Lists(s.info, st.triedInfos, triedIds, true)
    && |st.buckets| == NEW_BUCKET_COUNT
    && forall b | 0 <= b < NEW_BUCKET_COUNT :: BucketLists(w, s, st.buckets[b], b, newIds)
  }

  /** ids are the entries inside, or outside, tried, each once, and saved has one record for each. */
  ghost predicate Lists(info: map<Id, AddrInfo>, saved: seq<SavedInfo>, ids: seq<Id>, tried: bool) {
    && |saved| == |ids|
    && (forall i | 0 <= i < |ids| :: ids[i] in info && info[ids[i]].fInTried == tried && saved[i] == Save(info[ids[i]]))
    && (forall i, j | 0 <= i < j < |ids| :: ids[i] != ids[j])
    && (forall id <- info | info[id].fInTried == tried :: id in ids)
  }

  lemma ListsNothing(info: map<Id, AddrInfo>, tried: bool)
    ensures Lists(info - info.Keys, [], [], tried)
  {
  }

  /** One entry less in rest, and listed if it is of the right kind; there were not yet
      as many listed as there are. */
  lemma ListsOneMore(s: State, rest: set<Id>, saved: seq<SavedInfo>, ids: seq<Id>, tried: bool, id: Id)
    requires CountsOk(s.info, s.nIdCount, s.nTried, s.nNew) && Lists(s.info - rest, saved, ids, tried) && id in rest && id in s.info
    ensures id !in ids
    ensures s.info[id].fInTried != tried ==> Lists(s.info - (rest - {id}), saved, ids, tried)
    ensures s.info[id].fInTried == tried ==>
              && Lists(s.info - (rest - {id}), saved + [Save(s.info[id])], ids + [id], tried)
              && |ids| < if tried then s.nTried else s.nNew
  {
    hide CountsOk, Save;
    if s.info[id].fInTried == tried { ListedFewer(s, ids, tried, id); }
  }

  lemma ListedFewer(s: State, ids: seq<Id>, tried: bool, id: Id)
    requires CountsOk(s.info, s.nIdCount, s.nTried, s.nNew)
    requires forall i, j | 0 <= i < j < |ids| :: ids[i] != ids[j]
    requires forall i | 0 <= i < |ids| :: ids[i] in s.info && s.info[ids[i]].fInTried == tried && ids[i] != id
    requires id in s.info && s.info[id].fInTried == tried
    ensures |ids| < if tried then s.nTried else s.nNew
  {
    DistinctCount(ids + [id], if tried then TriedIds(s.info) else NewIds(s.info));
  }

  /** A bucket lists the entries it holds by their index among the new entries. */
  ghost predicate BucketLists(w: World, s: State, listed: seq<int>, b: int, newIds: seq<Id>) {
    && (forall n <- listed :: 0 <= n < |newIds|)
    && forall n | 0 <= n < |newIds| ::
         n in listed <==>
         newIds[n] in s.info && var slot := NewSlotIn(w, s.key, b, s.info[newIds[n]].service);
         slot in s.newAt && s.newAt[slot] == newIds[n]
  }

  lemma Flips()
    ensures FlipBit30(FlipBit30(NEW_BUCKET_COUNT)) == NEW_BUCKET_COUNT
  {
  }

  /** A set of slots inside a table is no larger than the table. */
  lemma {:induction false} TableSize(slots: set<Slot>, buckets: nat, positions: nat)
    requires forall slot <- slots :: 0 <= slot.bucket < buckets && 0 <= slot.pos < positions
    ensures |slots| <= buckets * positions
  {
    if buckets == 0 {
      assert slots == {};
    } else {
      var top := Row(slots, buckets - 1);
      TableSize(slots - top, buckets - 1, positions);
      RowSize(top, buckets - 1, positions);
      assert slots == (slots - top) + top;
      OneRowMore(buckets - 1, positions);
    }
  }

  lemma OneRowMore(n: nat, positions: nat)
    ensures (n + 1) * positions == n * positions + positions
  {
  }

  function Row(slots: set<Slot>, bucket: int): set<Slot> {
    set slot | slot in slots && slot.bucket == bucket
  }

  lemma {:induction false} RowSize(row: set<Slot>, bucket: int, positions: nat)
    requires forall slot <- row :: slot.bucket == bucket && 0 <= slot.pos < positions
    ensures |row| <= positions
  {
    if positions == 0 {
      assert row == {};
    } else {
      var last := Slot(bucket, positions - 1);
      RowSize(row - {last}, bucket, positions - 1);
      assert last in row ==> row == (row - {last}) + {last};
    }
  }

  /** Distinct ids that each hold a slot are no more than the slots. */
  lemma {:induction false} Holders(ids: seq<Id>, at: map<Slot, Id>)
    requires forall i, j | 0 <= i < j < |ids| :: ids[i] != ids[j]
    requires forall i | 0 <= i < |ids| :: SlotsOf(at, ids[i]) != {}
    ensures |ids| <= |at|
  {
    if ids != [] {
      var last := ids[|ids| - 1];
      var slot :| slot in SlotsOf(at, last);
      var rest := at - {slot};
      forall i | 0 <= i < |ids| - 1 ensures SlotsOf(rest, ids[i]) != {} {
        assert SlotsOf(at, ids[i]) != {};
        var x :| x in SlotsOf(at, ids[i]);
        assert x in SlotsOf(rest, ids[i]);
      }
      Holders(ids[..|ids| - 1], rest);
    }
  }

  lemma SavedIdsKnown(s: State, st: Stream, newIds: seq<Id>, triedIds: seq<Id>, i: nat) returns (id: Id)
    requires Lists(s.info, st.newInfos, newIds, false) && Lists(s.info, st.triedInfos, triedIds, true)
    requires i < |st.newInfos| + |st.triedInfos|
    ensures id in s.info && s.info[id].service.ip == AddressOf(st, i)
    ensures id == if i < |newIds| then newIds[i] else triedIds[i - |newIds|]
    ensures Save(s.info[id]) == InfoOf(st, i)
    ensures s.info[id].fInTried <==> i >= |newIds|
  {
    id := if i < |newIds| then newIds[i] else triedIds[i - |newIds|];
  }

  lemma SavedDistinct(s: State, st: Stream, newIds: seq<Id>, triedIds: seq<Id>, i: nat, j: nat)
    requires AddrOk(s.info, s.addr)
    requires Lists(s.info, st.newInfos, newIds, false) && Lists(s.info, st.triedInfos, triedIds, true)
    requires i < j < |st.newInfos| + |st.triedInfos|
    ensures AddressOf(st, i) != AddressOf(st, j)
  {
    var a := SavedIdsKnown(s, st, newIds, triedIds, i);
    var b := SavedIdsKnown(s, st, newIds, triedIds, j);
    assert a != b;
  }

  lemma NewFit(w: World, s: State, saved: seq<SavedInfo>, newIds: seq<Id>)
    requires NewOk(w, s.key, s.info, s.newAt) && RefsOk(s.info, s.newAt, {})
    requires Lists(s.info, saved, newIds, false)
    ensures |newIds| <= NEW_BUCKET_COUNT * BUCKET_SIZE
  {
    TableSize(s.newAt.Keys, NEW_BUCKET_COUNT, BUCKET_SIZE);
    forall i | 0 <= i < |newIds| ensures SlotsOf(s.newAt, newIds[i]) != {} {
      assert s.info[newIds[i]].nRefCount > 0;
    }
    Holders(newIds, s.newAt);
  }

  lemma TriedFit(w: World, s: State, saved: seq<SavedInfo>, triedIds: seq<Id>)
    requires TriedOk(w, s.key, s.asmap, s.info, s.triedAt)
    requires Lists(s.info, saved, triedIds, true)
    ensures |triedIds| <= TRIED_BUCKET_COUNT * BUCKET_SIZE
  {
    TableSize(s.triedAt.Keys, TRIED_BUCKET_COUNT, BUCKET_SIZE);
    forall i | 0 <= i < |triedIds| ensures SlotsOf(s.triedAt, triedIds[i]) != {} {
      assert TriedSlot(w, s.key, s.asmap, s.info[triedIds[i]].service) in SlotsOf(s.triedAt, triedIds[i]);
    }
    Holders(triedIds, s.triedAt);
  }

  /** What a consistent manager writes repeats no address, so it can be read back under any
      AS map, and under the same one bucket by bucket. */
  lemma SavedReadable(w: World, s: State, st: Stream, newIds: seq<Id>, triedIds: seq<Id>)
    requires Consistent(w, s) && SavedAs(w, s, st, newIds, triedIds)
    ensures Whole(st) && !Refused(st) && BucketsUsable(w, st, s.asmap)
    ensures forall asmap :: KeepsApart(w, asmap, st)
  {
    hide RandomOk, AddrOk, NewOk, TriedOk, RefsOk, CountsOk, Lists, BucketLists;
    Flips();
    ListsLength(s.info, st.newInfos, newIds, false);
    ListsLength(s.info, st.triedInfos, triedIds, true);
    NewFit(w, s, st.newInfos, newIds);
    TriedFit(w, s, st.triedInfos, triedIds);
    forall i, j | 0 <= i < j < |st.newInfos| + |st.triedInfos| ensures AddressOf(st, i) != AddressOf(st, j) {
      SavedDistinct(s, st, newIds, triedIds, i, j);
    }
    forall asmap ensures KeepsApart(w, asmap, st) { DistinctKeepsApart(w, asmap, st); }
  }

  lemma ListsLength(info: map<Id, AddrInfo>, saved: seq<SavedInfo>, ids: seq<Id>, tried: bool)
    requires Lists(info, saved, ids, tried)
    ensures |saved| == |ids|
  {
  }

  // ----- the round trip ----------------------------------------------------

  /** The first k tried entries came back under the next numbers, each in its old slot. */
  ghost predicate TriedBack(w: World, s: State, t: State, st: Stream, triedIds: seq<Id>, k: nat)
    requires k <= |st.triedInfos| == |triedIds|
  {
    TriedEntriesBack(w, s, t, st, k) && TriedSlotsBack(s, t, st, triedIds, k)
  }

  ghost predicate TriedEntriesBack(w: World, s: State, t: State, st: Stream, k: nat)
    requires k <= |st.triedInfos|
  {
    forall j | 0 <= j < k ::
      && Numbered(st, j) in t.info && t.info[Numbered(st, j)] == Load(st.triedInfos[j], true, |st.newInfos| + j)
      && var slot := TriedSlot(w, s.key, s.asmap, st.triedInfos[j].service);
         slot in t.triedAt && t.triedAt[slot] == Numbered(st, j)
  }

  ghost predicate TriedSlotsBack(s: State, t: State, st: Stream, triedIds: seq<Id>, k: nat)
    requires k <= |triedIds|
  {
    forall slot <- t.triedAt ::
      slot in s.triedAt && 0 <= t.triedAt[slot].n - |st.newInfos| < k
      && s.triedAt[slot] == triedIds[t.triedAt[slot].n - |st.newInfos|]
  }

  /** The number the j-th tried entry gets when none before it is lost. */
  function Numbered(st: Stream, j: int): Id {
    Id(|st.newInfos| + j)
  }

  lemma {:induction false} RoundTripTried(w: World, s: State, st: Stream, newIds: seq<Id>, triedIds: seq<Id>, k: nat)
    requires Consistent(w, s) && SavedAs(w, s, st, newIds, triedIds) && k <= |triedIds| == |st.triedInfos|
    requires Whole(st)
    ensures var t := LoadTried(w, s.asmap, st, k);
            t.nIdCount == |t.random| == |newIds| + k && TriedBack(w, s, t, st, triedIds, k)
  {
    hide RandomOk, AddrOk, NewOk, RefsOk, CountsOk, TriedSlot, BucketLists, Whole, LoadTried, TriedBack, TriedOk;
    LoadTriedKeeps(w, s.asmap, st, k);
    if k == 0 {
      LoadNewKeeps(w, s.asmap, st, |st.newInfos|);
      TriedNone(w, s, st, triedIds);
    } else {
      LoadTriedKeeps(w, s.asmap, st, k - 1);
      RoundTripTried(w, s, st, newIds, triedIds, k - 1);
      LoadTriedOnce(w, s.asmap, st, k);
      TriedBackMore(w, s, st, triedIds, LoadTried(w, s.asmap, st, k - 1), k);
    }
  }

  lemma TriedNone(w: World, s: State, st: Stream, triedIds: seq<Id>)
    requires |st.triedInfos| == |triedIds|
    requires LoadNew(s.asmap, st, |st.newInfos|).triedAt == map[]
    ensures LoadTried(w, s.asmap, st, 0) == LoadNew(s.asmap, st, |st.newInfos|)
    ensures TriedBack(w, s, LoadTried(w, s.asmap, st, 0), st, triedIds, 0)
  {
  }

  lemma TriedBackMore(w: World, s: State, st: Stream, triedIds: seq<Id>, t: State, k: nat)
    requires TriedOk(w, s.key, s.asmap, s.info, s.triedAt)
    requires Lists(s.info, st.triedInfos, triedIds, true)
    requires 0 < k <= |triedIds| == |st.triedInfos|
    requires TriedBack(w, s, t, st, triedIds, k - 1)
    requires t.nIdCount == |t.random| == |st.newInfos| + k - 1 && t.key == s.key && t.asmap == s.asmap
    ensures var slot := TriedSlot(w, s.key, s.asmap, st.triedInfos[k - 1].service);
            slot !in t.triedAt && TriedBack(w, s, WithTried(t, st, k, slot), st, triedIds, k)
  {
    hide TriedSlot, TriedEntriesBack, TriedSlotsBack, TriedOk, Lists;
    var slot := TriedSlot(w, s.key, s.asmap, st.triedInfos[k - 1].service);
    TriedHome(w, s, st, triedIds, k - 1);
    SlotNotTaken(s, t, st, triedIds, k, slot);
    EntriesBackMore(w, s, t, st, k, slot);
    SlotsBackMore(s, t, st, triedIds, k, slot);
  }

  function WithTried(t: State, st: Stream, k: nat, slot: Slot): State
    requires 0 < k <= |st.triedInfos|
  {
    AddEntry(t, Load(st.triedInfos[k - 1], true, |t.random|)).(
      triedAt := t.triedAt[slot := Id(t.nIdCount)], nTried := t.nTried + 1)
  }

  lemma TriedHome(w: World, s: State, st: Stream, triedIds: seq<Id>, j: nat)
    requires TriedOk(w, s.key, s.asmap, s.info, s.triedAt)
    requires Lists(s.info, st.triedInfos, triedIds, true)
    requires j < |triedIds| == |st.triedInfos|
    ensures var slot := TriedSlot(w, s.key, s.asmap, st.triedInfos[j].service);
            slot in s.triedAt && s.triedAt[slot] == triedIds[j]
    ensures forall i | 0 <= i < |triedIds| && i != j :: triedIds[i] != triedIds[j]
  {
    hide TriedSlot;
  }

  lemma SlotNotTaken(s: State, t: State, st: Stream, triedIds: seq<Id>, k: nat, slot: Slot)
    requires 0 < k <= |triedIds| && TriedSlotsBack(s, t, st, triedIds, k - 1)
    requires slot in s.triedAt && s.triedAt[slot] == triedIds[k - 1]
    requires forall i | 0 <= i < |triedIds| && i != k - 1 :: triedIds[i] != triedIds[k - 1]
    ensures slot !in t.triedAt
  {
  }

  lemma EntriesBackMore(w: World, s: State, t: State, st: Stream, k: nat, slot: Slot)
    requires 0 < k <= |st.triedInfos| && TriedEntriesBack(w, s, t, st, k - 1)
    requires t.nIdCount == |t.random| == |st.newInfos| + k - 1
    requires slot == TriedSlot(w, s.key, s.asmap, st.triedInfos[k - 1].service) && slot !in t.triedAt
    ensures TriedEntriesBack(w, s, WithTried(t, st, k, slot), st, k)
  {
    hide TriedSlot;
  }

  lemma SlotsBackMore(s: State, t: State, st: Stream, triedIds: seq<Id>, k: nat, slot: Slot)
    requires 0 < k <= |triedIds| == |st.triedInfos| && TriedSlotsBack(s, t, st, triedIds, k - 1)
    requires t.nIdCount == |st.newInfos| + k - 1
    requires slot in s.triedAt && s.triedAt[slot] == triedIds[k - 1]
    ensures TriedSlotsBack(s, WithTried(t, st, k, slot), st, triedIds, k)
  {
  }

  /** The slot in which the i-th new entry is looked for: the last bucket that lists it. */
  function Former(w: World, s: State, st: Stream, i: int): Slot
    requires 0 <= i < |st.newInfos|
  {
    NewSlotIn(w, s.key, LastBucket(st.buckets, i, |st.buckets|), st.newInfos[i].service)
  }

  lemma {:induction false} LastBucketFound(buckets: seq<seq<int>>, n: int, upto: nat, b: nat)
    requires b < upto <= |buckets| && n in buckets[b]
    ensures LastBucket(buckets, n, upto) < upto && n in buckets[LastBucket(buckets, n, upto)]
  {
    if n !in buckets[upto - 1] {
      LastBucketFound(buckets, n, upto - 1, b);
    }
  }

  /** A new entry is looked for in a slot it really held. */
  lemma FormerHeld(w: World, s: State, st: Stream, newIds: seq<Id>, i: nat)
    requires NewOk(w, s.key, s.info, s.newAt) && RefsOk(s.info, s.newAt, {})
    requires Lists(s.info, st.newInfos, newIds, false) && i < |newIds| == |st.newInfos|
    requires |st.buckets| == NEW_BUCKET_COUNT
    requires forall b | 0 <= b < NEW_BUCKET_COUNT :: BucketLists(w, s, st.buckets[b], b, newIds)
    ensures var slot := Former(w, s, st, i); slot in s.newAt && s.newAt[slot] == newIds[i]
  {
    hide BucketPosition, LastBucket;
    var id := newIds[i];
    assert s.info[id].nRefCount > 0;
    var slot :| slot in SlotsOf(s.newAt, id);
    assert BucketLists(w, s, st.buckets[slot.bucket], slot.bucket, newIds);
    assert i in st.buckets[slot.bucket];
    LastBucketFound(st.buckets, i, |st.buckets|, slot.bucket);
    assert BucketLists(w, s, st.buckets[LastBucket(st.buckets, i, |st.buckets|)], LastBucket(st.buckets, i, |st.buckets|), newIds);
  }

  /** The first n new entries came back, each in exactly one slot, a former one of its own. */
  ghost predicate NewBack(w: World, s: State, t: State, st: Stream, newIds: seq<Id>, n: nat)
    requires n <= |st.newInfos| == |newIds|
  {
    NewEntriesBack(w, s, t, st, n) && NewSlotsBack(s, t, newIds, n)
  }

  ghost predicate NewEntriesBack(w: World, s: State, t: State, st: Stream, n: nat)
    requires n <= |st.newInfos|
  {
    forall i | 0 <= i < n ::
      && Id(i) in t.info && t.info[Id(i)] == Load(st.newInfos[i], false, i).(nRefCount := 1)
      && Former(w, s, st, i) in t.newAt && t.newAt[Former(w, s, st, i)] == Id(i)
  }

  ghost predicate NewSlotsBack(s: State, t: State, newIds: seq<Id>, n: nat)
    requires n <= |newIds|
  {
    forall slot <- t.newAt ::
      slot in s.newAt && 0 <= t.newAt[slot].n < n && s.newAt[slot] == newIds[t.newAt[slot].n]
  }

  ghost predicate NewPending(t: State, st: Stream, n: nat)
    requires n <= |st.newInfos|
  {
    forall i | n <= i < |st.newInfos| :: Id(i) in t.info && t.info[Id(i)] == Load(st.newInfos[i], false, i)
  }

  lemma {:induction false} RoundTripNew(w: World, s: State, st: Stream, newIds: seq<Id>, triedIds: seq<Id>, n: nat)
    requires Consistent(w, s) && SavedAs(w, s, st, newIds, triedIds) && n <= |newIds| == |st.newInfos|
    requires Whole(st) && BucketsUsable(w, st, s.asmap)
    ensures var t := PlaceNew(w, s.asmap, st, n);
            NewBack(w, s, t, st, newIds, n) && NewPending(t, st, n) && t.key == s.key
  {
    hide RandomOk, AddrOk, TriedOk, CountsOk, NewOk, RefsOk, Whole, BucketsUsable, BucketLists, Lists, LoadTried, NewBack, NewPending;
    LoadTriedKeeps(w, s.asmap, st, |st.triedInfos|);
    if n == 0 {
      NonePlaced(w, s, st, newIds);
    } else {
      RoundTripNew(w, s, st, newIds, triedIds, n - 1);
      FormerHeld(w, s, st, newIds, n - 1);
      ListsDistinct(s.info, st.newInfos, newIds, n - 1);
      NewBackMore(w, s, st, newIds, PlaceNew(w, s.asmap, st, n - 1), n);
    }
  }

  lemma NonePlaced(w: World, s: State, st: Stream, newIds: seq<Id>)
    requires |st.newInfos| == |newIds|
    requires var t := LoadTried(w, s.asmap, st, |st.triedInfos|);
             NewLoaded(st, t, |st.newInfos|) && t.newAt == map[]
    ensures NewBack(w, s, PlaceNew(w, s.asmap, st, 0), st, newIds, 0)
    ensures NewPending(PlaceNew(w, s.asmap, st, 0), st, 0)
  {
    hide LoadTried;
  }

  lemma ListsDistinct(info: map<Id, AddrInfo>, saved: seq<SavedInfo>, ids: seq<Id>, j: nat)
    requires Lists(info, saved, ids, false) && j < |ids|
    ensures forall i | 0 <= i < |ids| && i != j :: ids[i] != ids[j]
  {
  }

  lemma NewBackMore(w: World, s: State, st: Stream, newIds: seq<Id>, t: State, n: nat)
    requires 0 < n <= |newIds| == |st.newInfos|
    requires BucketsUsable(w, st, s.asmap)
    requires NewBack(w, s, t, st, newIds, n - 1) && NewPending(t, st, n - 1) && t.key == s.key
    requires var slot := Former(w, s, st, n - 1); slot in s.newAt && s.newAt[slot] == newIds[n - 1]
    requires forall i | 0 <= i < |newIds| && i != n - 1 :: newIds[i] != newIds[n - 1]
    ensures var t' := PlaceOne(w, s.asmap, st, t, n - 1);
            NewBack(w, s, t', st, newIds, n) && NewPending(t', st, n) && t'.key == s.key
  {
    hide NewSlotIn, NewSlot, LastBucket, BucketsUsable;
    var slot := Former(w, s, st, n - 1);
    assert slot !in t.newAt by { NewSlotNotTaken(s, t, newIds, n, slot); }
    assert t.info[Id(n - 1)] == Load(st.newInfos[n - 1], false, n - 1);
    assert PlaceOne(w, s.asmap, st, t, n - 1) == Ref(t, Id(n - 1), slot);
    PlacedEntries(w, s, st, t, n, slot);
  }

  lemma NewSlotNotTaken(s: State, t: State, newIds: seq<Id>, n: nat, slot: Slot)
    requires 0 < n <= |newIds| && NewSlotsBack(s, t, newIds, n - 1)
    requires slot in s.newAt && s.newAt[slot] == newIds[n - 1]
    requires forall i | 0 <= i < |newIds| && i != n - 1 :: newIds[i] != newIds[n - 1]
    ensures slot !in t.newAt
  {
  }

  lemma PlacedEntries(w: World, s: State, st: Stream, t: State, n: nat, slot: Slot)
    requires 0 < n <= |st.newInfos|
    requires NewEntriesBack(w, s, t, st, n - 1) && NewPending(t, st, n - 1)
    requires slot == Former(w, s, st, n - 1) && slot !in t.newAt && Id(n - 1) in t.info
    ensures NewEntriesBack(w, s, Ref(t, Id(n - 1), slot), st, n) && NewPending(Ref(t, Id(n - 1), slot), st, n)
  {
    hide Former;
  }

  /** The manager read back: the same addresses with the same records and on the same
      side of new/tried, the same tried table, and every new entry in exactly one
      slot, which it held before. Numbers may differ. */
  ghost predicate Restored(s: State, t: State) {
    && (forall ip <- s.addr :: ip in t.addr && s.addr[ip] in s.info && t.addr[ip] in t.info
                               && SameRecord(s.info[s.addr[ip]], t.info[t.addr[ip]]))
    && (forall ip <- t.addr :: ip in s.addr)
    && SameHolders(s, t, s.triedAt, t.triedAt) && s.triedAt.Keys == t.triedAt.Keys
    && SameHolders(s, t, s.newAt, t.newAt)
  }

  predicate SameRecord(a: AddrInfo, b: AddrInfo) {
    Save(a) == Save(b) && a.fInTried == b.fInTried && b.nRefCount == (if b.fInTried then 0 else 1)
  }

  /** A slot filled in t was filled in s, by an entry of the same address. */
  ghost predicate SameHolders(s: State, t: State, at: map<Slot, Id>, at': map<Slot, Id>) {
    forall slot <- at' ::
      && slot in at && at[slot] in s.info && at'[slot] in t.info
      && s.info[at[slot]].service == t.info[at'[slot]].service
  }

  /** All that RoundTripTried and RoundTripNew establish about the tables read back. */
  ghost predicate ReadBack(w: World, s: State, t: State, st: Stream, newIds: seq<Id>, triedIds: seq<Id>) {
    && |newIds| == |st.newInfos| && |triedIds| == |st.triedInfos|
    && NewBack(w, s, t, st, newIds, |newIds|) && TriedBack(w, s, t, st, triedIds, |triedIds|)
    && t.nIdCount == |newIds| + |triedIds|
  }

  lemma RoundTripTables(w: World, s: State, st: Stream, newIds: seq<Id>, triedIds: seq<Id>)
    requires Consistent(w, s) && SavedAs(w, s, st, newIds, triedIds) && Whole(st) && BucketsUsable(w, st, s.asmap)
    ensures |newIds| == |st.newInfos|
    ensures var t := PlaceNew(w, s.asmap, st, |newIds|);
            Rebuilding(w, t) && ReadBack(w, s, t, st, newIds, triedIds)
  {
    hide RandomOk, AddrOk, NewOk, TriedOk, RefsOk, CountsOk, TriedSlot, BucketLists, Whole, LoadTried, PlaceNew, NewBack;
    hide BucketsUsable, SavedAs, SameButRefs, TriedEntriesBack, TriedSlotsBack, NewLoaded, TriedLoaded;
    SavedLengths(w, s, st, newIds, triedIds);
    var u, t := LoadTried(w, s.asmap, st, |triedIds|), PlaceNew(w, s.asmap, st, |newIds|);
    RoundTripTried(w, s, st, newIds, triedIds, |triedIds|);
    RoundTripNew(w, s, st, newIds, triedIds, |newIds|);
    PlaceNewKeeps(w, s.asmap, st, |newIds|);
    TriedStay(w, s, st, u, t);
    SlotsStay(s, u, t, st, triedIds);
  }

  lemma SavedLengths(w: World, s: State, st: Stream, newIds: seq<Id>, triedIds: seq<Id>)
    requires SavedAs(w, s, st, newIds, triedIds)
    ensures |newIds| == |st.newInfos| && |triedIds| == |st.triedInfos|
  {
  }

  lemma SlotsStay(s: State, u: State, t: State, st: Stream, triedIds: seq<Id>)
    requires TriedSlotsBack(s, u, st, triedIds, |triedIds|) && u.triedAt == t.triedAt
    ensures TriedSlotsBack(s, t, st, triedIds, |triedIds|)
  {
  }

  /** Placing the new entries does not touch the tried ones. */
  lemma TriedStay(w: World, s: State, st: Stream, u: State, t: State)
    requires TriedEntriesBack(w, s, u, st, |st.triedInfos|)
    requires SameButRefs(u.info, t.info) && t.triedAt == u.triedAt
    requires Rebuilding(w, t)
    ensures TriedEntriesBack(w, s, t, st, |st.triedInfos|)
  {
    hide RandomOk, AddrOk, NewOk, TriedOk, CountsOk, TriedSlot;
  }

  lemma ToBack(w: World, s: State, t: State, st: Stream, newIds: seq<Id>, triedIds: seq<Id>, id: Id) returns (id': Id)
    requires ReadBack(w, s, t, st, newIds, triedIds) && SavedAs(w, s, st, newIds, triedIds)
    requires id in s.info
    ensures id' in t.info && SameRecord(s.info[id], t.info[id'])
  {
    hide TriedSlot, Former, BucketLists, NewSlotsBack, TriedSlotsBack;
    if s.info[id].fInTried {
      var j :| 0 <= j < |triedIds| && triedIds[j] == id;
      id' := Numbered(st, j);
    } else {
      var i :| 0 <= i < |newIds| && newIds[i] == id;
      id' := Id(i);
    }
  }

  lemma FromBack(w: World, s: State, t: State, st: Stream, newIds: seq<Id>, triedIds: seq<Id>, id': Id) returns (id: Id)
    requires ReadBack(w, s, t, st, newIds, triedIds) && SavedAs(w, s, st, newIds, triedIds)
    requires id' in t.info && 0 <= id'.n < t.nIdCount
    ensures id in s.info && SameRecord(s.info[id], t.info[id'])
    ensures id == if id'.n < |newIds| then newIds[id'.n] else triedIds[id'.n - |newIds|]
  {
    hide TriedSlot, Former, BucketLists, NewSlotsBack, TriedSlotsBack;
    if id'.n < |newIds| {
      assert id' == Id(id'.n);
      id := newIds[id'.n];
    } else {
      var j := id'.n - |newIds|;
      assert id' == Numbered(st, j);
      id := triedIds[j];
    }
  }

  /** Writing a consistent manager and reading it back, under the same AS map, loses nothing. */
  lemma RoundTrip(w: World, s: State, st: Stream, newIds: seq<Id>, triedIds: seq<Id>)
    requires Consistent(w, s) && SavedAs(w, s, st, newIds, triedIds)
    ensures Whole(st) && Bounded(st) && !CutShort(st) && !Refused(st) && KeepsApart(w, s.asmap, st)
    ensures var t := PlaceNew(w, s.asmap, st, |st.newInfos|);
            Consistent(w, t) && Waiting(t.info) == {} && Restored(s, t)
  {
    hide RandomOk, AddrOk, NewOk, TriedOk, RefsOk, CountsOk, SavedAs, Whole, BucketsUsable, ReadBack, PlaceNew, SameRecord;
    hide Pruned, KeepsApart, CutShort, Bounded, Waiting;
    SavedReadable(w, s, st, newIds, triedIds);
    RoundTripTables(w, s, st, newIds, triedIds);
    var t := PlaceNew(w, s.asmap, st, |st.newInfos|);
    forall id <- t.info ensures t.info[id].fInTried || t.info[id].nRefCount == 1 {
      BackInRange(w, t, id);
      var _ := FromBackRecord(w, s, t, st, newIds, triedIds, id);
    }
    NoneWaits(t.info);
    PrunedNothing(t);
    WholeIsBounded(st);
    ReadIsConsistent(w, s.asmap, st, t);
    RestoredAddresses(w, s, t, st, newIds, triedIds);
    RestoredSlots(w, s, t, st, newIds, triedIds);
  }

  lemma NoneWaits(info: map<Id, AddrInfo>)
    requires forall id <- info :: info[id].fInTried || info[id].nRefCount == 1
    ensures Waiting(info) == {}
  {
  }

  lemma WholeIsBounded(st: Stream)
    requires Whole(st)
    ensures Bounded(st) && !CutShort(st) && st.nNew >= 0 && st.nTried >= 0
  {
  }

  lemma BackInRange(w: World, t: State, id: Id)
    requires CountsOk(t.info, t.nIdCount, t.nTried, t.nNew) && id in t.info
    ensures 0 <= id.n < t.nIdCount
  {
  }

  lemma FromBackRecord(w: World, s: State, t: State, st: Stream, newIds: seq<Id>, triedIds: seq<Id>, id': Id) returns (id: Id)
    requires ReadBack(w, s, t, st, newIds, triedIds) && SavedAs(w, s, st, newIds, triedIds)
    requires id' in t.info && 0 <= id'.n < t.nIdCount
    ensures id in s.info && SameRecord(s.info[id], t.info[id'])
    ensures s.info[id].service == t.info[id'].service
    ensures |newIds| == |st.newInfos| && |triedIds| == |st.triedInfos| && t.nIdCount == |newIds| + |triedIds|
    ensures id == if id'.n < |newIds| then newIds[id'.n] else triedIds[id'.n - |newIds|]
    ensures t.info[id'].fInTried || t.info[id'].nRefCount == 1
  {
    hide SavedAs, NewBack, TriedBack;
    id := FromBack(w, s, t, st, newIds, triedIds, id');
  }

  lemma RestoredAddresses(w: World, s: State, t: State, st: Stream, newIds: seq<Id>, triedIds: seq<Id>)
    requires Consistent(w, s) && Rebuilding(w, t) && AddrOk(t.info, t.addr)
    requires ReadBack(w, s, t, st, newIds, triedIds) && SavedAs(w, s, st, newIds, triedIds)
    ensures forall ip <- s.addr :: ip in t.addr && s.addr[ip] in s.info && t.addr[ip] in t.info
                                   && SameRecord(s.info[s.addr[ip]], t.info[t.addr[ip]])
    ensures forall ip <- t.addr :: ip in s.addr
  {
    hide RandomOk, NewOk, TriedOk, RefsOk, CountsOk, ReadBack, SavedAs;
    forall ip <- s.addr
      ensures ip in t.addr && s.addr[ip] in s.info && t.addr[ip] in t.info
              && SameRecord(s.info[s.addr[ip]], t.info[t.addr[ip]])
    {
      var id := ToBack(w, s, t, st, newIds, triedIds, s.addr[ip]);
      assert t.info[id].service.ip == ip;
    }
    forall ip <- t.addr ensures ip in s.addr {
      BackInRange(w, t, t.addr[ip]);
      var id := FromBackRecord(w, s, t, st, newIds, triedIds, t.addr[ip]);
      assert s.info[id].service.ip == ip;
    }
  }

  lemma RestoredSlots(w: World, s: State, t: State, st: Stream, newIds: seq<Id>, triedIds: seq<Id>)
    requires Consistent(w, s) && Rebuilding(w, t)
    requires ReadBack(w, s, t, st, newIds, triedIds) && SavedAs(w, s, st, newIds, triedIds)
    ensures SameHolders(s, t, s.triedAt, t.triedAt) && s.triedAt.Keys == t.triedAt.Keys
    ensures SameHolders(s, t, s.newAt, t.newAt)
  {
    hide RandomOk, AddrOk, RefsOk, CountsOk, TriedSlot, NewSlotIn, SavedAs;
    forall slot <- t.triedAt
      ensures slot in s.triedAt && s.triedAt[slot] in s.info && s.info[s.triedAt[slot]].service == t.info[t.triedAt[slot]].service
    {
      BackInRange(w, t, t.triedAt[slot]);
      var id := FromBackRecord(w, s, t, st, newIds, triedIds, t.triedAt[slot]);
    }
    forall slot <- t.newAt
      ensures slot in s.newAt && s.newAt[slot] in s.info && s.info[s.newAt[slot]].service == t.info[t.newAt[slot]].service
    {
      BackInRange(w, t, t.newAt[slot]);
      var id := FromBackRecord(w, s, t, st, newIds, triedIds, t.newAt[slot]);
    }
    forall slot <- s.triedAt ensures slot in t.triedAt {
      var id := ToBack(w, s, t, st, newIds, triedIds, s.triedAt[slot]);
    }
  }

  /** Restored speaks of addresses only, so the random order does not matter to it. */
  lemma RestoredMoved(s: State, t: State, t': State)
    requires Restored(s, t) && Pruned(t, t', {})
    ensures Restored(s, t')
  {
    hide SameRecord, SameButPositions, AddressesOf, SameHolders;
    NoAddresses(t.info);
    assert t.info - {} == t.info && t.addr - {} == t.addr;
    SameKeys(t.info, t'.info);
    SameEntries(t.info, t'.info);
    forall ip <- s.addr
      ensures ip in t'.addr && s.addr[ip] in s.info && t'.addr[ip] in t'.info
              && SameRecord(s.info[s.addr[ip]], t'.info[t'.addr[ip]])
    {
      SameRecordMoved(s.info[s.addr[ip]], t.info[t.addr[ip]], t'.info[t.addr[ip]]);
    }
    HoldersMoved(s, t, t', s.triedAt, t.triedAt);
    HoldersMoved(s, t, t', s.newAt, t.newAt);
  }

  lemma NoAddresses(info: map<Id, AddrInfo>)
    ensures AddressesOf(info, {}) == {}
  {
  }

  lemma HoldersMoved(s: State, t: State, t': State, at: map<Slot, Id>, at': map<Slot, Id>)
    requires SameHolders(s, t, at, at')
    requires forall id <- t.info :: id in t'.info && SameEntry(t.info[id], t'.info[id])
    ensures SameHolders(s, t', at, at')
  {
  }

  lemma SameEntries(info: map<Id, AddrInfo>, info': map<Id, AddrInfo>)
    requires SameButPositions(info, info')
    ensures forall id <- info :: id in info' && SameEntry(info[id], info'[id])
  {
  }

  lemma SameRecordMoved(a: AddrInfo, b: AddrInfo, c: AddrInfo)
    requires SameRecord(a, b) && SameEntry(b, c)
    ensures SameRecord(a, c)
  {
  }

  // ----- counting for Serialize --------------------------------------------

  lemma {:induction false} DistinctCount(ids: seq<Id>, all: set<Id>)
    requires forall i, j | 0 <= i < j < |ids| :: ids[i] != ids[j]
    requires forall i | 0 <= i < |ids| :: ids[i] in all
    ensures |ids| <= |all|
  {
    if ids != [] {
      DistinctCount(ids[..|ids| - 1], all - {ids[|ids| - 1]});
    }
  }
}
