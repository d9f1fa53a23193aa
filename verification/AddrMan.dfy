/** The address manager itself: its fields, updated in place, each operation proved
    equal to its specification in AddrManSpec and AddrManRuns. */
module AddrMan {
  import opened AddrManState
  import opened Common
  import Steps = AddrManSteps
  import Spec = AddrManSpec
  import Runs = AddrManRuns
  import Store = AddrManStore
  import Apart = AddrManApart
  import Trip = AddrManRoundTrip
  import Salvage = AddrManSalvage
  import Reports = AddrManReports

  function At(at: map<Slot, Id>, slot: Slot): Id {
    if slot in at then at[slot] else NONE
  }

  /** The bucket array holds exactly the slots of the map, and NONE elsewhere. */
  ghost predicate Mirrors(table: array2<Id>, at: map<Slot, Id>)
    reads table
  {
    && (forall b, p | 0 <= b < table.Length0 && 0 <= p < table.Length1 :: table[b, p] == At(at, Slot(b, p)))
    && (forall slot <- at :: 0 <= slot.bucket < table.Length0 && 0 <= slot.pos < table.Length1 && at[slot] != NONE)
  }

  lemma NothingMirrored(table: array2<Id>)
    requires forall b, p | 0 <= b < table.Length0 && 0 <= p < table.Length1 :: table[b, p] == NONE
    ensures Mirrors(table, map[])
  {
  }

  /** How far a bucket lies after start, going round the new table. */
  function Turn(bucket: int, start: int): (n: int)
    ensures 0 <= n < NEW_BUCKET_COUNT
  {
    (bucket - start) % NEW_BUCKET_COUNT
  }

  lemma TurnInverse(bucket: int, start: int, n: int)
    requires 0 <= bucket < NEW_BUCKET_COUNT && 0 <= start < NEW_BUCKET_COUNT && 0 <= n < NEW_BUCKET_COUNT
    ensures (start + n) % NEW_BUCKET_COUNT == bucket <==> Turn(bucket, start) == n
  {
  }

  class AddrMan {
    const world: World
    var m_asmap: seq<bool>
    var nKey: Key
    var nIdCount: int
    var mapInfo: map<Id, AddrInfo>
    var mapAddr: map<NetAddr, Id>
    var vRandom: seq<Id>
    var nTried: int
    var nNew: int
    var nLastGood: int
    var m_tried_collisions: set<Id>
    const vvTried: array2<Id>
    const vvNew: array2<Id>
    ghost var newAt: map<Slot, Id>
    ghost var triedAt: map<Slot, Id>

    ghost predicate Mirrored()
      reads this`newAt, this`triedAt, vvTried, vvNew
    {
      && vvNew.Length0 == NEW_BUCKET_COUNT && vvNew.Length1 == BUCKET_SIZE
      && vvTried.Length0 == TRIED_BUCKET_COUNT && vvTried.Length1 == BUCKET_SIZE
      && vvNew != vvTried
      && Mirrors(vvNew, newAt)
      && Mirrors(vvTried, triedAt)
    }

    ghost function Tables(): State
      reads this
    {
      State(nKey, m_asmap, nIdCount, mapInfo, mapAddr, vRandom, nTried, nNew, newAt, triedAt)
    }

    ghost function Contents(): Spec.Manager
      reads this
    {
      Spec.Manager(Tables(), nLastGood, m_tried_collisions)
    }

    ghost predicate Valid()
      reads this, vvTried, vvNew
    {
      Mirrored() && Consistent(world, Tables())
    }

    lemma UnfoldValid()
      requires Valid()
      ensures Mirrored() && Consistent(world, Tables())
    {
    }

    lemma FoldValid()
      requires Mirrored() && Consistent(world, Tables())
      ensures Valid()
    {
    }

    method SwapRandom(nRndPos1: int, nRndPos2: int)
      requires RandomOk(mapInfo, vRandom)
      requires 0 <= nRndPos1 < |vRandom| && 0 <= nRndPos2 < |vRandom|
      modifies this`mapInfo, this`vRandom
      ensures Tables() == Steps.SwapRandom(old(Tables()), nRndPos1, nRndPos2)
    {
      if nRndPos1 == nRndPos2 {
        return;
      }
      var nId1 := vRandom[nRndPos1];
      var nId2 := vRandom[nRndPos2];
      assert nId1 in mapInfo && nId2 in mapInfo;
      mapInfo := mapInfo[nId1 := mapInfo[nId1].(nRandomPos := nRndPos2)];
      mapInfo := mapInfo[nId2 := mapInfo[nId2].(nRandomPos := nRndPos1)];
      vRandom := vRandom[nRndPos1 := nId2];
      vRandom := vRandom[nRndPos2 := nId1];
    }

    method Create(addr: Address, addrSource: NetAddr) returns (nId: Id)
      modifies this`nIdCount, this`mapInfo, this`mapAddr, this`vRandom
      ensures nId == Id(old(nIdCount))
      ensures Tables() == Steps.Create(old(Tables()), addr, addrSource)
    {
      nId := Id(nIdCount);
      nIdCount := nIdCount + 1;
      mapInfo := mapInfo[nId := AddrInfo(addr.service, addr.services, addr.nTime, addrSource, 0, 0, 0, 0, 0, false, -1)];
      mapAddr := mapAddr[addr.service.ip := nId];
      mapInfo := mapInfo[nId := mapInfo[nId].(nRandomPos := |vRandom|)];
      vRandom := vRandom + [nId];
    }

    /** Only an entry without references may be deleted. */
    method Delete(nId: Id)
      requires RandomOk(mapInfo, vRandom)
      requires nId in mapInfo && !mapInfo[nId].fInTried && mapInfo[nId].nRefCount == 0
      modifies this`mapInfo, this`vRandom, this`mapAddr, this`nNew
      ensures Tables() == Steps.Delete(old(Tables()), nId)
    {
      SwapRandom(mapInfo[nId].nRandomPos, |vRandom| - 1);
      vRandom := vRandom[..|vRandom| - 1];
      mapAddr := mapAddr - {mapInfo[nId].service.ip};
      mapInfo := mapInfo - {nId};
      nNew := nNew - 1;
    }

    method GetNew(bucket: int, pos: int) returns (id: Id)
      requires Mirrored()
      requires 0 <= bucket < NEW_BUCKET_COUNT && 0 <= pos < BUCKET_SIZE
      ensures id == At(newAt, Slot(bucket, pos))
      ensures id == NONE <==> Slot(bucket, pos) !in newAt
    {
      id := vvNew[bucket, pos];
    }

    method GetTried(bucket: int, pos: int) returns (id: Id)
      requires Mirrored()
      requires 0 <= bucket < TRIED_BUCKET_COUNT && 0 <= pos < BUCKET_SIZE
      ensures id == At(triedAt, Slot(bucket, pos))
      ensures id == NONE <==> Slot(bucket, pos) !in triedAt
    {
      id := vvTried[bucket, pos];
    }

    method SetNew(bucket: int, pos: int, id: Id)
      requires Mirrored()
      requires 0 <= bucket < NEW_BUCKET_COUNT && 0 <= pos < BUCKET_SIZE
      modifies this`newAt, vvNew
      ensures Mirrored()
      ensures newAt == if id == NONE then old(newAt) - {Slot(bucket, pos)} else old(newAt)[Slot(bucket, pos) := id]
    {
      vvNew[bucket, pos] := id;
      newAt := if id == NONE then newAt - {Slot(bucket, pos)} else newAt[Slot(bucket, pos) := id];
    }

    method SetTried(bucket: int, pos: int, id: Id)
      requires Mirrored()
      requires 0 <= bucket < TRIED_BUCKET_COUNT && 0 <= pos < BUCKET_SIZE
      modifies this`triedAt, vvTried
      ensures Mirrored()
      ensures triedAt == if id == NONE then old(triedAt) - {Slot(bucket, pos)} else old(triedAt)[Slot(bucket, pos) := id]
    {
      vvTried[bucket, pos] := id;
      triedAt := if id == NONE then triedAt - {Slot(bucket, pos)} else triedAt[Slot(bucket, pos) := id];
    }

    /** One reference less, and its slot free. */
    method Unref(nId: Id, bucket: int, pos: int)
      requires Mirrored()
      requires 0 <= bucket < NEW_BUCKET_COUNT && 0 <= pos < BUCKET_SIZE
      requires nId in mapInfo
      modifies this`mapInfo, this`newAt, vvNew
      ensures Mirrored()
      ensures Tables() == Steps.Unref(old(Tables()), nId, Slot(bucket, pos))
    {
      mapInfo := mapInfo[nId := mapInfo[nId].(nRefCount := mapInfo[nId].nRefCount - 1)];
      SetNew(bucket, pos, NONE);
    }

    method Ref(nId: Id, bucket: int, pos: int)
      requires Mirrored() && nId in mapInfo && nId != NONE
      requires 0 <= bucket < NEW_BUCKET_COUNT && 0 <= pos < BUCKET_SIZE
      modifies this`mapInfo, this`newAt, vvNew
      ensures Mirrored()
      ensures Tables() == Steps.Ref(old(Tables()), nId, Slot(bucket, pos))
    {
      mapInfo := mapInfo[nId := mapInfo[nId].(nRefCount := mapInfo[nId].nRefCount + 1)];
      SetNew(bucket, pos, nId);
    }

    /** behind is how far nNew lags the number of entries outside tried, which
        happens only in the middle of MakeTried. */
    method ClearNew(nUBucket: int, nUBucketPos: int, ghost loose: set<Id>, ghost behind: int)
      requires Mirrored() && ConsistentBut(world, Tables().(nNew := nNew + behind), loose)
      requires 0 <= nUBucket < NEW_BUCKET_COUNT && 0 <= nUBucketPos < BUCKET_SIZE
      modifies this, vvNew
      ensures Mirrored()
      ensures old(Slot(nUBucket, nUBucketPos) in newAt ==> newAt[Slot(nUBucket, nUBucketPos)] in mapInfo)
      ensures Tables() == Steps.ClearNew(old(Tables()), Slot(nUBucket, nUBucketPos))
      ensures m_tried_collisions == old(m_tried_collisions) && nLastGood == old(nLastGood)
    {
      hide RandomOk, AddrOk, TriedOk, CountsOk, NewOk, RefsOk;
      ghost var slot := Slot(nUBucket, nUBucketPos);
      var nIdDelete := vvNew[nUBucket, nUBucketPos];
      if nIdDelete != NONE {
        Steps.UnrefKeeps(world, Tables().(nNew := nNew + behind), slot, loose);
        assert mapInfo[nIdDelete].nRefCount > 0;
        Unref(nIdDelete, nUBucket, nUBucketPos);
        if mapInfo[nIdDelete].nRefCount == 0 {
          Delete(nIdDelete);
        }
      }
    }

    /** Takes entry nId out of every bucket of the new table, walking the buckets
        from its own one round until no reference is left. */
    method DropRefs(nId: Id)
      requires Valid()
      requires nId in mapInfo && !mapInfo[nId].fInTried
      modifies this`mapInfo, this`newAt, vvNew
      ensures Mirrored()
      ensures Tables() == Spec.DropRefs(old(Tables()), nId)
    {
      hide Valid, Consistent, Mirrored, SlotsOf, At, NewSlotIn, NewBucket, BucketPosition, Turn;
      hide WithoutRefs, Spec.DropRefs, Steps.Unref;
      UnfoldValid();
      ghost var s := Tables();
      ghost var refs := SlotsOf(newAt, nId);
      var service := mapInfo[nId].service;
      RefSlots(world, s, nId);
      ghost var cleared: set<Slot> := {};
      var start_bucket := NewBucket(world, nKey, m_asmap, service, mapInfo[nId].source);
      SomeDropped(s, nId);
      var n := 0;
      while n < NEW_BUCKET_COUNT
        invariant 0 <= n <= NEW_BUCKET_COUNT
        invariant Mirrored()
        invariant nId in s.info && Tables() == WithoutRefs(s, nId, cleared)
        invariant cleared <= refs && |cleared| < |refs|
        invariant forall slot <- refs :: slot in cleared <==> Turn(slot.bucket, start_bucket) < n
      {
        var bucket := (start_bucket + n) % NEW_BUCKET_COUNT;
        var pos := BucketPosition(world, nKey, true, bucket, service);
        ghost var slot := Slot(bucket, pos);
        OneSlotPerTurn(world, s.key, service, refs, start_bucket, n);
        SlotWithout(s, nId, cleared, slot);
        n := n + 1;
        var id := GetNew(bucket, pos);
        if id == nId {
          UnrefWithout(s, nId, cleared, slot);
          Unref(nId, bucket, pos);
          OneMore(cleared, slot, refs);
          cleared := cleared + {slot};
          if mapInfo[nId].nRefCount == 0 {
            break;
          }
        }
      }
      if |cleared| < |refs| {
        AllTurnsDone(refs, cleared, start_bucket);
      }
      SomeDropped(s, nId);
    }

    /** Takes an entry out of the tried table, without putting it anywhere. */
    method Untry(nIdEvict: Id, nKBucket: int, nKBucketPos: int)
      requires Mirrored() && nIdEvict in mapInfo
      requires 0 <= nKBucket < TRIED_BUCKET_COUNT && 0 <= nKBucketPos < BUCKET_SIZE
      requires Slot(nKBucket, nKBucketPos) in triedAt && triedAt[Slot(nKBucket, nKBucketPos)] == nIdEvict
      modifies this`mapInfo, this`triedAt, this`nTried, vvTried
      ensures Mirrored()
      ensures Tables() == Spec.Untry(old(Tables()), Slot(nKBucket, nKBucketPos)).(nNew := old(nNew))
    {
      hide Mirrored;
      mapInfo := mapInfo[nIdEvict := mapInfo[nIdEvict].(fInTried := false)];
      SetTried(nKBucket, nKBucketPos, NONE);
      nTried := nTried - 1;
    }

    method Try(nId: Id, nKBucket: int, nKBucketPos: int)
      requires Mirrored() && nId in mapInfo && nId != NONE
      requires 0 <= nKBucket < TRIED_BUCKET_COUNT && 0 <= nKBucketPos < BUCKET_SIZE
      modifies this`mapInfo, this`triedAt, this`nTried, vvTried
      ensures Mirrored()
      ensures Tables().(nNew := nNew - 1) == Spec.Try(old(Tables()), nId, Slot(nKBucket, nKBucketPos))
    {
      hide Mirrored;
      SetTried(nKBucket, nKBucketPos, nId);
      nTried := nTried + 1;
      mapInfo := mapInfo[nId := mapInfo[nId].(fInTried := true)];
    }

    /** Sends the occupant of a tried slot back to new, into the slot its own source
        gives it. The promoted entry, in loose, is not counted as new any more. */
    method EvictTried(nKBucket: int, nKBucketPos: int, ghost loose: set<Id>)
      requires Mirrored() && ConsistentBut(world, Tables().(nNew := nNew + 1), loose)
      requires 0 <= nKBucket < TRIED_BUCKET_COUNT && 0 <= nKBucketPos < BUCKET_SIZE
      requires Slot(nKBucket, nKBucketPos) in triedAt
      modifies this, vvNew, vvTried
      ensures Mirrored()
      ensures Tables().(nNew := nNew + 1)
           == Spec.Evict(world, old(Tables().(nNew := nNew + 1)), Slot(nKBucket, nKBucketPos), loose)
      ensures m_tried_collisions == old(m_tried_collisions) && nLastGood == old(nLastGood)
    {
      hide RandomOk, AddrOk, NewOk, TriedOk, RefsOk, CountsOk, Mirrored, BucketPosition, NewBucket;
      hide Steps.ClearNew, Spec.Evict, At;
      ghost var s := Tables().(nNew := nNew + 1);
      ghost var slot := Slot(nKBucket, nKBucketPos);
      Spec.EvictHalfway(world, s, slot, loose);
      NoneUnused(s);
      var nIdEvict := GetTried(nKBucket, nKBucketPos);
      AtHere(triedAt, slot);
      var infoOld := mapInfo[nIdEvict];
      Untry(nIdEvict, nKBucket, nKBucketPos);

      var nUBucket := NewBucket(world, nKey, m_asmap, infoOld.service, infoOld.source);
      var nUBucketPos := BucketPosition(world, nKey, true, nUBucket, infoOld.service);
      assert Tables().(nNew := nNew + 2) == Spec.Untry(s, slot);
      ClearShifted(Tables(), 2, Slot(nUBucket, nUBucketPos));
      ClearNew(nUBucket, nUBucketPos, loose + {nIdEvict}, 2);
      PutBack(nIdEvict, nUBucket, nUBucketPos);
    }

    /** Counts an entry without references as new again, with one reference. */
    method PutBack(nId: Id, bucket: int, pos: int)
      requires Mirrored() && nId in mapInfo && mapInfo[nId].nRefCount == 0 && nId != NONE
      requires 0 <= bucket < NEW_BUCKET_COUNT && 0 <= pos < BUCKET_SIZE
      modifies this`mapInfo, this`newAt, this`nNew, vvNew
      ensures Mirrored()
      ensures Tables() == Steps.Ref(old(Tables()), nId, Slot(bucket, pos)).(nNew := old(nNew) + 1)
    {
      hide Mirrored;
      mapInfo := mapInfo[nId := mapInfo[nId].(nRefCount := 1)];
      SetNew(bucket, pos, nId);
      nNew := nNew + 1;
    }

    /** Moves entry nId to the tried table, sending an occupant of its slot back to new. */
    method MakeTried(nId: Id)
      requires Valid()
      requires nId in mapInfo && !mapInfo[nId].fInTried
      modifies this, vvNew, vvTried
      ensures Valid()
      ensures Tables() == Spec.MakeTried(world, old(Tables()), nId)
      ensures m_tried_collisions == old(m_tried_collisions) && nLastGood == old(nLastGood)
    {
      hide RandomOk, AddrOk, NewOk, TriedOk, RefsOk, CountsOk, Mirrored, BucketPosition, TriedBucket;
      hide Spec.PromotedInfo, SlotsOf, Steps.SameButPositions, Spec.Evict, At, Valid;
      UnfoldValid();
      ghost var s := Tables();
      NoneUnused(s);
      Spec.DropRefsKeeps(world, s, nId);
      Spec.MakeTriedKeeps(world, s, nId);
      DropRefs(nId);
      ghost var s1 := Tables();
      nNew := nNew - 1;
      assert mapInfo[nId].nRefCount == 0;

      var info := mapInfo[nId];
      var nKBucket := TriedBucket(world, nKey, m_asmap, info.service);
      var nKBucketPos := BucketPosition(world, nKey, false, nKBucket, info.service);
      var occupant := GetTried(nKBucket, nKBucketPos);
      if occupant != NONE {
        Spec.EvictLeaves(world, s1, Slot(nKBucket, nKBucketPos), nId);
        assert Tables().(nNew := nNew + 1) == s1;
        EvictTried(nKBucket, nKBucketPos, {nId});
      }
      Try(nId, nKBucket, nKBucketPos);
      FoldValid();
    }

    /** The id known for exactly this address and port, if any. */
    method FindService(addr: Service) returns (found: bool, nId: Id)
      requires Valid()
      ensures found == Spec.Knows(Tables(), addr)
      ensures found ==> nId in mapInfo && mapAddr[addr.ip] == nId && mapInfo[nId].service == addr
    {
      found, nId := false, NONE;
      if addr.ip in mapAddr && mapAddr[addr.ip] in mapInfo {
        nId := mapAddr[addr.ip];
        found := mapInfo[nId].service == addr;
      }
    }

    method MarkGood(nId: Id, nTime: int)
      requires nId in mapInfo
      modifies this`mapInfo
      ensures Tables() == Spec.Touch(old(Tables()), nId, Spec.MarkGood(old(mapInfo)[nId], nTime))
    {
      mapInfo := mapInfo[nId := mapInfo[nId].(nLastSuccess := nTime)];
      mapInfo := mapInfo[nId := mapInfo[nId].(nLastTry := nTime)];
      mapInfo := mapInfo[nId := mapInfo[nId].(nAttempts := 0)];
    }

    method Good_(addr: Service, test_before_evict: bool, nTime: int)
      requires Valid()
      modifies this, vvNew, vvTried
      ensures Valid()
      ensures Contents() == Spec.Good(world, old(Contents()), addr, test_before_evict, nTime)
      ensures Reports.Succeeded(world, old(Contents()), Contents(), addr, test_before_evict, nTime)
    {
      hide Reports.Succeeded;
      hide Valid, Mirrored, RandomOk, AddrOk, NewOk, TriedOk, CountsOk, BucketPosition, TriedBucket, Spec.MakeTried, RefsOk;
      UnfoldValid();
      ghost var s := Tables();
      Reports.GoodSucceeds(world, Contents(), addr, test_before_evict, nTime);
      nLastGood := nTime;
      FoldValid();
      var found, nId := FindService(addr);
      if !found {
        return;
      }
      Spec.TouchKeeps(world, s, nId, Spec.MarkGood(mapInfo[nId], nTime), {});
      MarkGood(nId, nTime);
      FoldValid();
      if mapInfo[nId].fInTried {
        return;
      }
      ReferencedIfNew(Tables(), nId);
      var tried_bucket := TriedBucket(world, nKey, m_asmap, mapInfo[nId].service);
      var tried_bucket_pos := BucketPosition(world, nKey, false, tried_bucket, mapInfo[nId].service);
      var occupant := GetTried(tried_bucket, tried_bucket_pos);
      if test_before_evict && occupant != NONE {
        if |m_tried_collisions| < SET_TRIED_COLLISION_SIZE {
          m_tried_collisions := m_tried_collisions + {nId};
          FoldValid();
        }
      } else {
        MakeTried(nId);
      }
    }

    /** Gives entry nId a reference in the bucket that source chooses, if the position
        there is free or its holder gives way; an entry left without any is deleted. */
    method PlaceIn(nId: Id, source: NetAddr, now: int, ghost loose: set<Id>)
      requires Mirrored() && ConsistentBut(world, Tables(), loose) && loose <= {nId}
      requires nId in mapInfo && !mapInfo[nId].fInTried && mapInfo[nId].nRefCount < NEW_BUCKETS_PER_ADDRESS
      modifies this, vvNew
      ensures Valid()
      ensures old(nId in mapInfo)
      ensures var slot := old(NewSlot(world, nKey, m_asmap, mapInfo[nId].service, source));
              Tables() == Spec.Place(world, old(Tables()), nId, slot, now, loose)
      ensures nLastGood == old(nLastGood) && m_tried_collisions == old(m_tried_collisions)
    {
      hide Valid, Mirrored, RandomOk, AddrOk, TriedOk, CountsOk, RefsOk, BucketPosition, NewBucket;
      hide Steps.ClearNew, Steps.Delete, Steps.SameButPositions, Steps.SameOldEntries, IsTerrible, At;
      ghost var s := Tables();
      var info := mapInfo[nId];
      var nUBucket := NewBucket(world, nKey, m_asmap, info.service, source);
      var nUBucketPos := BucketPosition(world, nKey, true, nUBucket, info.service);
      ghost var slot := Slot(nUBucket, nUBucketPos);
      Spec.PlaceKeeps(world, s, nId, slot, now, loose);
      NoneUnused(s);
      var holder := GetNew(nUBucket, nUBucketPos);
      AtIs(newAt, slot);
      if holder != nId {
        var fInsert := holder == NONE;
        if !fInsert {
          var infoExisting := mapInfo[holder];
          if IsTerrible(infoExisting, now) || (infoExisting.nRefCount > 1 && info.nRefCount == 0) {
            fInsert := true;
          }
        }
        if fInsert {
          Steps.ClearNewKeeps(world, s, slot, loose);
          Spec.PlacedStays(s, nId, slot);
          assert Tables().(nNew := nNew + 0) == Tables();
          ClearNew(nUBucket, nUBucketPos, loose, 0);
          Ref(nId, nUBucket, nUBucketPos);
        } else if info.nRefCount == 0 {
          Delete(nId);
        }
      }
      FoldValid();
    }

    /** Refreshes the time and the services of a known address. */
    method Announce(nId: Id, addr: Address, penalty: int, now: int)
      requires nId in mapInfo
      modifies this`mapInfo
      ensures Tables() == Spec.Touch(old(Tables()), nId, Spec.Announced(old(mapInfo)[nId], addr, penalty, now))
    {
      var info := mapInfo[nId];
      var fCurrentlyOnline := now - addr.nTime < 24 * 60 * 60;
      var nUpdateInterval := if fCurrentlyOnline then 60 * 60 else 24 * 60 * 60;
      if addr.nTime != 0 && (info.nTime == 0 || info.nTime < addr.nTime - nUpdateInterval - penalty) {
        mapInfo := mapInfo[nId := mapInfo[nId].(nTime := Max(0, addr.nTime - penalty))];
      }
      mapInfo := mapInfo[nId := mapInfo[nId].(services := mapInfo[nId].services + addr.services)];
    }

    /** A known address is announced again. */
    method AddKnown(addr: Address, source: NetAddr, penalty: int, now1: int, now2: int, rnd: nat)
      requires Valid() && addr.service.ip in mapAddr
      modifies this, vvNew
      ensures Valid()
      ensures Tables() == Spec.AddKnown(world, old(Tables()), addr, source, penalty, now1, now2, rnd)
      ensures nLastGood == old(nLastGood) && m_tried_collisions == old(m_tried_collisions)
    {
      hide Valid, Mirrored, RandomOk, NewOk, TriedOk, CountsOk, RefsOk, BucketPosition, NewBucket;
      hide Spec.Place, Spec.Announced;
      UnfoldValid();
      ghost var s := Tables();
      var nId := mapAddr[addr.service.ip];
      Spec.TouchKeeps(world, s, nId, Spec.Announced(mapInfo[nId], addr, penalty, now1), {});
      Announce(nId, addr, penalty, now1);
      FoldValid();
      var info := mapInfo[nId];
      if addr.nTime == 0 || (info.nTime != 0 && addr.nTime <= info.nTime) {
        return;
      }
      if info.fInTried {
        return;
      }
      if info.nRefCount == NEW_BUCKETS_PER_ADDRESS {
        return;
      }
      ReferencedIfNew(Tables(), nId);
      var nFactor := PowerOfTwo(info.nRefCount);
      assert rnd % 1 == 0;
      if nFactor > 1 && rnd % nFactor != 0 {
        return;
      }
      PlaceIn(nId, source, now2, {});
    }

    /** An unknown address is announced. */
    method AddUnknown(addr: Address, source: NetAddr, penalty: int, now: int)
      requires Valid() && addr.service.ip !in mapAddr
      modifies this, vvNew
      ensures Valid()
      ensures Tables() == Spec.AddUnknown(world, old(Tables()), addr, source, penalty, now)
      ensures nLastGood == old(nLastGood) && m_tried_collisions == old(m_tried_collisions)
    {
      hide Valid, Mirrored, RandomOk, AddrOk, NewOk, TriedOk, CountsOk, RefsOk, BucketPosition, NewBucket;
      hide Steps.Create, Spec.Place;
      UnfoldValid();
      ghost var s := Tables();
      Spec.CreatedKeeps(world, s, addr, source, penalty);
      CreatedTwice(s, addr, source, penalty);
      var nId := Create(addr, source);
      mapInfo := mapInfo[nId := mapInfo[nId].(nTime := Max(0, mapInfo[nId].nTime - penalty))];
      nNew := nNew + 1;
      PlaceIn(nId, source, now, {nId});
    }

    /** Answers whether the address was unknown; its entry may be gone again by then. */
    method Add_(addr: Address, source: NetAddr, nTimePenalty: int, now1: int, now2: int, rnd: nat) returns (fNew: bool)
      requires Valid()
      modifies this, vvNew
      ensures Valid()
      ensures (Tables(), fNew) == Spec.Add(world, old(Tables()), addr, source, nTimePenalty, now1, now2, rnd)
      ensures Reports.IsAnnounced(world, old(Tables()), Tables(), fNew, addr, source, nTimePenalty, now1, now2, rnd)
      ensures nLastGood == old(nLastGood) && m_tried_collisions == old(m_tried_collisions)
    {
      hide Mirrored, RandomOk, AddrOk, NewOk, TriedOk, CountsOk, RefsOk, Spec.AddKnown, Spec.AddUnknown, Reports.IsAnnounced;
      Reports.AddIsAnnounced(world, Tables(), addr, source, nTimePenalty, now1, now2, rnd);
      if !world.routable(addr.service.ip) {
        return false;
      }
      var penalty := if addr.service.ip == source then 0 else nTimePenalty;
      if addr.service.ip in mapAddr {
        AddKnown(addr, source, penalty, now1, now2, rnd);
        fNew := false;
      } else {
        AddUnknown(addr, source, penalty, now2);
        fNew := true;
      }
    }

    method Attempt_(addr: Service, fCountFailure: bool, nTime: int)
      requires Valid()
      modifies this`mapInfo
      ensures Valid()
      ensures Contents() == Runs.Attempt(old(Contents()), addr, fCountFailure, nTime)
      ensures Reports.IsAttempted(old(Contents()), Contents(), addr, fCountFailure, nTime)
    {
      hide Valid, Mirrored, RandomOk, AddrOk, NewOk, TriedOk, CountsOk, RefsOk, Reports.IsAttempted;
      UnfoldValid();
      Reports.AttemptIs(Contents(), addr, fCountFailure, nTime);
      ghost var s := Tables();
      var found, nId := FindService(addr);
      if !found {
        return;
      }
      Spec.TouchKeeps(world, s, nId, Runs.Attempted(s.info[nId], fCountFailure, nTime, nLastGood), {});
      mapInfo := mapInfo[nId := mapInfo[nId].(nLastTry := nTime)];
      if fCountFailure && mapInfo[nId].nLastCountAttempt < nLastGood {
        mapInfo := mapInfo[nId := mapInfo[nId].(nLastCountAttempt := nTime)];
        mapInfo := mapInfo[nId := mapInfo[nId].(nAttempts := mapInfo[nId].nAttempts + 1)];
      }
      assert Tables() == Spec.Touch(s, nId, Runs.Attempted(s.info[nId], fCountFailure, nTime, nLastGood));
      FoldValid();
    }

    method Connected_(addr: Service, nTime: int)
      requires Valid()
      modifies this`mapInfo
      ensures Valid()
      ensures Tables() == Runs.Connected(old(Tables()), addr, nTime)
      ensures Reports.IsConnected(old(Tables()), Tables(), addr, nTime)
    {
      hide Valid, Mirrored, RandomOk, AddrOk, NewOk, TriedOk, CountsOk, RefsOk, Reports.IsConnected;
      UnfoldValid();
      Reports.ConnectedIs(Tables(), addr, nTime);
      ghost var s := Tables();
      var found, nId := FindService(addr);
      if !found {
        return;
      }
      Spec.TouchKeeps(world, s, nId, s.info[nId].(nTime := nTime), {});
      var nUpdateInterval := 20 * 60;
      if nTime - mapInfo[nId].nTime > nUpdateInterval {
        mapInfo := mapInfo[nId := mapInfo[nId].(nTime := nTime)];
      }
      assert Tables() == Runs.Connected(s, addr, nTime);
      FoldValid();
    }

    method SetServices_(addr: Service, nServices: set<nat>)
      requires Valid()
      modifies this`mapInfo
      ensures Valid()
      ensures Tables() == Runs.SetServices(old(Tables()), addr, nServices)
      ensures Reports.IsServed(old(Tables()), Tables(), addr, nServices)
    {
      hide Valid, Mirrored, RandomOk, AddrOk, NewOk, TriedOk, CountsOk, RefsOk, Reports.IsServed;
      UnfoldValid();
      Reports.ServedIs(Tables(), addr, nServices);
      ghost var s := Tables();
      var found, nId := FindService(addr);
      if !found {
        return;
      }
      Spec.TouchKeeps(world, s, nId, s.info[nId].(services := nServices), {});
      mapInfo := mapInfo[nId := mapInfo[nId].(services := nServices)];
      FoldValid();
    }

    /** Draws addresses at random until there are as many as asked for, or no entry is
        left to look at. */
    method GetAddr_(max_addresses: nat, max_pct: nat, network: Runs.Network, now: int, rnd: nat -> nat)
      returns (vAddr: seq<Address>, ghost rounds: nat)
      requires Valid()
      modifies this`mapInfo, this`vRandom
      ensures Valid()
      ensures rounds <= |old(vRandom)| == |vRandom| && Tables() == Runs.Shuffle(old(Tables()), rounds, rnd)
      ensures forall k | 0 <= k < |vRandom| :: vRandom[k] in mapInfo
      ensures vAddr == Runs.Picked(world, mapInfo, vRandom, rounds, network, now)
      ensures |vAddr| <= Runs.Limit(|vRandom|, max_addresses, max_pct)
      ensures rounds < |vRandom| ==> |vAddr| == Runs.Limit(|vRandom|, max_addresses, max_pct)
    {
      hide Valid, Mirrored, AddrOk, NewOk, TriedOk, CountsOk, RefsOk, RandomOk, IsTerrible, Runs.Wanted, Steps.SwapRandom, Runs.Shuffle, Runs.Picked, Runs.Limit;
      hide ConsistentBut, Runs.Drawn;
      UnfoldValid();
      RandomIfValid();
      ghost var s := Tables();
      var nNodes := MaxNodes(max_addresses, max_pct);
      vAddr := [];
      var n := 0;
      Runs.DrawNone(world, s, rnd, network, now);
      while n < |vRandom|
        invariant n <= |vRandom| == |s.random|
        invariant Tables() == Runs.Shuffle(s, n, rnd)
        invariant Mirrored() && Consistent(world, Tables())
        invariant forall k | 0 <= k < |vRandom| :: vRandom[k] in mapInfo
        invariant vAddr == Runs.Picked(world, mapInfo, vRandom, n, network, now)
        invariant |vAddr| <= nNodes
      {
        if |vAddr| >= nNodes {
          break;
        }
        var nRndPos := Runs.Drawn(|vRandom|, n, rnd(n));
        Runs.DrawOne(world, s, n, rnd, network, now);
        SwapRandom(n, nRndPos);
        var ai := mapInfo[vRandom[n]];
        n := n + 1;
        if Runs.Wanted(world, ai, network, now) {
          vAddr := vAddr + [Address(ai.service, ai.services, ai.nTime)];
        }
      }
      rounds := n;
      FoldValid();
    }

    method MaxNodes(max_addresses: nat, max_pct: nat) returns (nNodes: nat)
      ensures nNodes == Runs.Limit(|vRandom|, max_addresses, max_pct)
    {
      nNodes := |vRandom|;
      if max_pct != 0 {
        nNodes := max_pct * nNodes / 100;
      }
      if max_addresses != 0 {
        nNodes := if max_addresses < nNodes then max_addresses else nNodes;
      }
    }

    lemma RandomIfValid()
      requires Valid()
      ensures RandomOk(mapInfo, vRandom)
    {
    }

    /** Promoting first and then forgetting the pending promotion, or the other way round. */
    lemma PromoteCommutes(m: Spec.Manager, id: Id, a: Service, nTime: int)
      requires Consistent(world, m.tables)
      ensures var m' := Spec.Good(world, m, a, false, nTime);
              Spec.Good(world, m.(collisions := m.collisions - {id}), a, false, nTime) == m'.(collisions := m'.collisions - {id})
    {
      hide Consistent, Spec.Good;
      Runs.GoodCommutes(world, m, a, nTime, m.collisions - {id});
      Runs.GoodCollisions(world, m, a, nTime);
    }

    /** What becomes of the pending promotion of id_new. */
    method ResolveOne(id_new: Id, clock: nat -> int)
      requires Valid()
      modifies this, vvNew, vvTried
      ensures Valid()
      ensures Contents() == Runs.ResolveOne(world, old(Contents()), id_new, clock)
      ensures Reports.IsResolved(world, old(Contents()), Contents(), id_new, clock)
    {
      hide Valid, Mirrored, RandomOk, AddrOk, NewOk, CountsOk, RefsOk, BucketPosition, TriedBucket, Spec.Good, Reports.IsResolved, Reports.Succeeded;
      UnfoldValid();
      Reports.ResolvedIs(world, Contents(), id_new, clock);
      ghost var m := Contents();
      var erase_collision := false;
      if id_new !in mapInfo {
        erase_collision := true;
      } else {
        var info_new := mapInfo[id_new];
        var tried_bucket := TriedBucket(world, nKey, m_asmap, info_new.service);
        var tried_bucket_pos := BucketPosition(world, nKey, false, tried_bucket, info_new.service);
        var id_old := GetTried(tried_bucket, tried_bucket_pos);
        AtIs(triedAt, Slot(tried_bucket, tried_bucket_pos));
        if !world.valid(info_new.service.ip) {
          erase_collision := true;
        } else if id_old != NONE {
          var info_old := mapInfo[id_old];
          if clock(0) - info_old.nLastSuccess < REPLACEMENT_HOURS * (60 * 60) {
            erase_collision := true;
          } else if clock(1) - info_old.nLastTry < REPLACEMENT_HOURS * (60 * 60) {
            if clock(2) - info_old.nLastTry > 60 {
              PromoteCommutes(m, id_new, info_new.service, clock(3));
              Good_(info_new.service, false, clock(3));
              erase_collision := true;
            }
          } else if clock(2) - info_new.nLastSuccess > TEST_WINDOW {
            PromoteCommutes(m, id_new, info_new.service, clock(3));
            Good_(info_new.service, false, clock(3));
            erase_collision := true;
          }
        } else {
          PromoteCommutes(m, id_new, info_new.service, clock(0));
          Good_(info_new.service, false, clock(0));
          erase_collision := true;
        }
      }
      if erase_collision {
        UnfoldValid();
        m_tried_collisions := m_tried_collisions - {id_new};
        FoldValid();
      }
    }

    /** clock(id, k) is the k-th time the clock is read while id is looked at. */
    method ResolveCollisions_(clock: (Id, nat) -> int)
      requires Valid()
      modifies this, vvNew, vvTried
      ensures Valid()
      ensures Contents() == Runs.ResolveAll(world, old(Contents()), old(m_tried_collisions), clock)
    {
      hide Mirrored, Consistent, Runs.ResolveOne;
      var rest := m_tried_collisions;
      while rest != {}
        invariant Valid()
        invariant Runs.ResolveAll(world, Contents(), rest, clock)
               == Runs.ResolveAll(world, old(Contents()), old(m_tried_collisions), clock)
        decreases |rest|
      {
        Runs.HasLeast(rest);
        var id_new :| id_new in rest && forall x <- rest :: id_new.n <= x.n;
        assert Runs.IsLeast(id_new, rest);
        ResolveOne(id_new, (k: nat) => clock(id_new, k));
        rest := rest - {id_new};
      }
    }

    /** The tried entry that some pending promotion would replace. When that slot is
        empty the lookup plants an entry for id -1. */
    method SelectTriedCollision_(pick: Id) returns (r: Option<AddrInfo>)
      requires Valid()
      requires m_tried_collisions != {} ==> pick in m_tried_collisions
      modifies this`m_tried_collisions, this`mapInfo
      ensures Contents() == Runs.SelectCollision(world, old(Contents()), pick)
      ensures Valid() <==> (pick in old(m_tried_collisions) ==> Runs.Leads(world, old(Tables()), pick))
      ensures m_tried_collisions == old(m_tried_collisions) - if pick in old(mapInfo) then {} else {pick}
      ensures old(m_tried_collisions) == {} || pick !in old(mapInfo) ==> r.None?
      ensures old(m_tried_collisions) != {} && pick in old(mapInfo) ==>
                var slot := old(TriedSlot(world, nKey, m_asmap, mapInfo[pick].service));
                if slot in triedAt then triedAt[slot] in mapInfo && r == Some(mapInfo[triedAt[slot]]) else r == Some(Runs.PLANTED)
    {
      hide Mirrored, RandomOk, AddrOk, NewOk, RefsOk, BucketPosition, TriedBucket;
      Runs.SelectKeeps(world, Contents(), pick);
      if |m_tried_collisions| == 0 {
        return None;
      }
      var id_new := pick;
      if id_new !in mapInfo {
        m_tried_collisions := m_tried_collisions - {id_new};
        return None;
      }
      var newInfo := mapInfo[id_new];
      var tried_bucket := TriedBucket(world, nKey, m_asmap, newInfo.service);
      var tried_bucket_pos := BucketPosition(world, nKey, false, tried_bucket, newInfo.service);
      var id_old := GetTried(tried_bucket, tried_bucket_pos);
      AtIs(triedAt, Slot(tried_bucket, tried_bucket_pos));
      if id_old !in mapInfo {
        mapInfo := mapInfo[id_old := Runs.PLANTED];
      }
      return Some(mapInfo[id_old]);
    }

    /** Forgets every address. The pending collisions stay. */
    method Clear(newKey: Key)
      requires vvNew.Length0 == NEW_BUCKET_COUNT && vvNew.Length1 == BUCKET_SIZE
      requires vvTried.Length0 == TRIED_BUCKET_COUNT && vvTried.Length1 == BUCKET_SIZE
      requires vvNew != vvTried
      modifies this, vvNew, vvTried
      ensures Valid()
      ensures Contents() == Spec.Manager(Empty(newKey, old(m_asmap)), 1, old(m_tried_collisions))
      ensures Runs.CollisionsOk(world, Contents()) <==> m_tried_collisions == {}
    {
      hide Consistent, Runs.CollisionsOk, Mirrors;
      ResetFields(newKey);
      EmptyTable(vvNew);
      EmptyTable(vvTried);
      NothingMirrored(vvNew);
      NothingMirrored(vvTried);
      Runs.FreshIsConsistent(world, newKey, m_asmap);
      Runs.FreshCollisions(world, newKey, m_asmap, m_tried_collisions);
    }

    method ResetFields(newKey: Key)
      modifies this
      ensures Contents() == Spec.Manager(Empty(newKey, old(m_asmap)), 1, old(m_tried_collisions))
    {
      vRandom, nKey, nIdCount, nTried, nNew, nLastGood := [], newKey, 0, 0, 0, 1;
      mapInfo, mapAddr, newAt, triedAt := map[], map[], map[], map[];
    }

    constructor (w: World, asmap: seq<bool>, key: Key)
      ensures Valid() && fresh(vvNew) && fresh(vvTried)
      ensures world == w
      ensures Contents() == Spec.Manager(Empty(key, asmap), 1, {}) && Runs.CollisionsOk(w, Contents())
    {
      world := w;
      m_asmap := asmap;
      m_tried_collisions := {};
      vvNew := new Id[NEW_BUCKET_COUNT, BUCKET_SIZE];
      vvTried := new Id[TRIED_BUCKET_COUNT, BUCKET_SIZE];
      new;
      Clear(key);
    }

    /** Writes the manager: the entries outside tried, the tried ones, and the buckets
        of the new table by index. */
    method Serialize() returns (st: Store.Stream, ghost newIds: seq<Id>, ghost triedIds: seq<Id>)
      requires Valid()
      ensures Trip.SavedAs(world, Tables(), st, newIds, triedIds)
      ensures exists news, tries :: Trip.SavedAs(world, Tables(), st, news, tries)
    {
      hide Valid, Mirrored, RandomOk, AddrOk, NewOk, TriedOk, RefsOk, CountsOk, Trip.Lists, Trip.BucketLists;
      UnfoldValid();
      var newInfos, mapUnkIds;
      newInfos, mapUnkIds, newIds := WriteNew();
      var triedInfos;
      triedInfos, triedIds := WriteTried();
      var buckets: seq<seq<int>> := [];
      for bucket := 0 to NEW_BUCKET_COUNT
        invariant |buckets| == bucket
        invariant forall b | 0 <= b < bucket :: Trip.BucketLists(world, Tables(), buckets[b], b, newIds)
      {
        var listed := WriteBucket(bucket, mapUnkIds, newIds, newInfos);
        buckets := buckets + [listed];
      }
      ListsCounts(Tables(), newInfos, triedInfos, newIds, triedIds);
      st := Store.Stream(Store.FILE_FORMAT, Store.INCOMPATIBILITY_BASE + Store.FILE_FORMAT, nKey, nNew, nTried,
                         Store.FlipBit30(NEW_BUCKET_COUNT), newInfos, triedInfos, buckets,
                         Some(Store.AsmapVersion(world, m_asmap)));
    }

    /** The entries that have references, in ascending order of number, and the index each gets. */
    method WriteNew() returns (newInfos: seq<Store.SavedInfo>, mapUnkIds: map<Id, int>, ghost newIds: seq<Id>)
      requires Consistent(world, Tables())
      ensures Trip.Lists(mapInfo, newInfos, newIds, false)
      ensures exists ids :: Trip.Lists(mapInfo, newInfos, ids, false)
      ensures forall i | 0 <= i < |newIds| :: newIds[i] in mapUnkIds && mapUnkIds[newIds[i]] == i
    {
      hide RandomOk, AddrOk, NewOk, TriedOk, CountsOk, Trip.Lists, Store.Save;
      newInfos, mapUnkIds, newIds := [], map[], [];
      var nIds := 0;
      var rest := mapInfo.Keys;
      Trip.ListsNothing(mapInfo, false);
      while rest != {}
        invariant rest <= mapInfo.Keys
        invariant nIds == |newIds| && Trip.Lists(mapInfo - rest, newInfos, newIds, false)
        invariant forall i | 0 <= i < |newIds| :: newIds[i] in mapUnkIds && mapUnkIds[newIds[i]] == i
        decreases |rest|
      {
        Runs.HasLeast(rest);
        var id :| id in rest && forall x <- rest :: id.n <= x.n;
        var info := mapInfo[id];
        Trip.ListsOneMore(Tables(), rest, newInfos, newIds, false, id);
        mapUnkIds := mapUnkIds[id := nIds];
        if info.nRefCount != 0 {
          assert nIds != nNew;
          newInfos := newInfos + [Store.Save(info)];
          newIds := newIds + [id];
          nIds := nIds + 1;
        }
        rest := rest - {id};
      }
      assert mapInfo - rest == mapInfo;
    }

    method WriteTried() returns (triedInfos: seq<Store.SavedInfo>, ghost triedIds: seq<Id>)
      requires Consistent(world, Tables())
      ensures Trip.Lists(mapInfo, triedInfos, triedIds, true)
      ensures exists ids :: Trip.Lists(mapInfo, triedInfos, ids, true)
    {
      hide RandomOk, AddrOk, NewOk, TriedOk, RefsOk, CountsOk, Trip.Lists, Store.Save;
      triedInfos, triedIds := [], [];
      var nIds := 0;
      var rest := mapInfo.Keys;
      Trip.ListsNothing(mapInfo, true);
      while rest != {}
        invariant rest <= mapInfo.Keys
        invariant nIds == |triedIds| && Trip.Lists(mapInfo - rest, triedInfos, triedIds, true)
        decreases |rest|
      {
        Runs.HasLeast(rest);
        var id :| id in rest && forall x <- rest :: id.n <= x.n;
        var info := mapInfo[id];
        Trip.ListsOneMore(Tables(), rest, triedInfos, triedIds, true, id);
        if info.fInTried {
          assert nIds != nTried;
          triedInfos := triedInfos + [Store.Save(info)];
          triedIds := triedIds + [id];
          nIds := nIds + 1;
        }
        rest := rest - {id};
      }
      assert mapInfo - rest == mapInfo;
    }

    method WriteBucket(bucket: int, mapUnkIds: map<Id, int>, ghost newIds: seq<Id>, ghost newInfos: seq<Store.SavedInfo>)
      returns (listed: seq<int>)
      requires Valid() && 0 <= bucket < NEW_BUCKET_COUNT
      requires Trip.Lists(mapInfo, newInfos, newIds, false)
      requires forall i | 0 <= i < |newIds| :: newIds[i] in mapUnkIds && mapUnkIds[newIds[i]] == i
      ensures Trip.BucketLists(world, Tables(), listed, bucket, newIds)
    {
      hide Valid, Mirrored, Consistent, BucketPosition, Trip.Lists;
      UnfoldValid();
      HoldersListed(world, Tables(), newInfos, newIds);
      listed := [];
      for i := 0 to BUCKET_SIZE
        invariant forall n <- listed :: 0 <= n < |newIds| && exists p :: 0 <= p < i && Holds(newAt, bucket, p, newIds[n])
        invariant forall p | 0 <= p < i && Slot(bucket, p) in newAt :: mapUnkIds[newAt[Slot(bucket, p)]] in listed
      {
        var id := GetNew(bucket, i);
        AtIs(newAt, Slot(bucket, i));
        if id != NONE {
          ghost var k :| 0 <= k < |newIds| && newIds[k] == id;
          assert Holds(newAt, bucket, i, newIds[k]);
          listed := listed + [mapUnkIds[id]];
        }
      }
      forall n | 0 <= n < |newIds|
        ensures n in listed <==> Holds(newAt, bucket, NewSlotIn(world, nKey, bucket, mapInfo[newIds[n]].service).pos, newIds[n])
      {
      }
    }

    /** Rebuilds the manager from a stream, or refuses it and stays empty, or finds that it ends
        too early. New entries go back to the last bucket that lists them when the buckets are
        usable, else to the one their own source gives; those that find no free position are
        dropped, and so are tried entries whose slot an earlier one took. The source checks no
        more than the size of the counts: the manager is valid afterwards just when none is
        negative and entries that repeat an address are all dropped. */
    method Unserialize(st: Store.Stream, newKey: Key) returns (r: Store.Outcome)
      requires vvNew.Length0 == NEW_BUCKET_COUNT && vvNew.Length1 == BUCKET_SIZE
      requires vvTried.Length0 == TRIED_BUCKET_COUNT && vvTried.Length1 == BUCKET_SIZE
      requires vvNew != vvTried
      requires Store.Bounded(st)
      modifies this, vvNew, vvTried
      ensures r.Refusal? <==> Store.Refused(st)
      ensures r.Ended? <==> !Store.Refused(st) && Store.CutShort(st)
      ensures Mirrored() && m_tried_collisions == old(m_tried_collisions) && m_asmap == old(m_asmap)
      ensures r.Refusal? ==> mapInfo == map[]
      ensures r.Ended? && (|st.newInfos| < st.nNew || |st.triedInfos| < st.nTried) ==> !Valid()
      ensures r.Done? ==>
                && (var t := Store.PlaceNew(world, m_asmap, st, |st.newInfos|); Store.Pruned(t, Tables(), Store.Waiting(t.info)))
                && (Valid() <==> st.nNew >= 0 && st.nTried >= 0 && Apart.KeepsApart(world, m_asmap, st))
                && (st.nNew >= 0 && st.nTried >= 0 ==> Store.TablesOk(world, Tables(), {}))
      ensures r.Done? && st.nNew >= 0 && st.nTried >= 0 ==>
                (Runs.CollisionsOk(world, Contents()) <==>
                   forall id <- m_tried_collisions :: 0 <= id.n < nIdCount && Apart.Decided(world, m_asmap, st, id))
    {
      hide Valid, Mirrored, Consistent, Store.Bounded, Store.Pruned, Store.PlaceNew, Store.LoadTried, Store.LoadNew, Store.TablesOk,
        Apart.KeepsApart, Apart.Decided, Runs.CollisionsOk, Store.BucketCount, Store.Waiting, RandomOk;
      Clear(newKey);
      UnfoldValid();
      var lowest_compatible := (st.compat - Store.INCOMPATIBILITY_BASE) % 256;
      if lowest_compatible > Store.FILE_FORMAT {
        return Store.Refusal;
      }
      nKey := st.key;
      nNew := st.nNew;
      nTried := st.nTried;
      var nUBuckets := st.nUBuckets;
      if st.format >= 1 {
        nUBuckets := Store.FlipBit30(nUBuckets);
      }
      Store.BucketCountIs(st);
      if nNew > NEW_BUCKET_COUNT * BUCKET_SIZE || nTried > TRIED_BUCKET_COUNT * BUCKET_SIZE {
        return Store.Refusal;
      }
      var all := Rebuild(st, nUBuckets);
      ValidIs();
      if !all { return Store.Ended; }
      Apart.ReadIsConsistent(world, m_asmap, st, Tables());
      if st.nNew >= 0 && st.nTried >= 0 {
        Store.WholeIs(st);
        Apart.CollisionsAfterReading(world, m_asmap, st, Tables(), nLastGood, m_tried_collisions);
      }
      r := Store.Done;
    }

    lemma ValidIs()
      ensures Valid() <==> Mirrored() && Consistent(world, Tables())
    {
    }

    method Rebuild(st: Store.Stream, nUBuckets: int) returns (all: bool)
      requires Mirrored() && Store.Bounded(st) && nUBuckets == Store.BucketCount(st)
      requires Tables() == Empty(st.key, m_asmap).(nNew := st.nNew, nTried := st.nTried)
      modifies this`mapInfo, this`mapAddr, this`vRandom, this`nIdCount, this`nTried, this`nNew, this`newAt, this`triedAt
      modifies vvNew, vvTried
      ensures Mirrored() && (all <==> !Store.CutShort(st))
      ensures |st.newInfos| < st.nNew || |st.triedInfos| < st.nTried ==> !Consistent(world, Tables())
      ensures all ==>
                var t := Store.PlaceNew(world, m_asmap, st, |st.newInfos|);
                Store.Pruned(t, Tables(), Store.Waiting(t.info)) && RandomOk(mapInfo, vRandom)
    {
      hide Mirrored, Consistent, Store.Bounded, Store.Pruned, Store.PlaceNew, Store.LoadTried, Store.LoadNew;
      hide Store.Waiting, Store.BucketCount, RandomOk, Store.Lined;
      all := ReadNew(st);
      if !all { return; }
      all := ReadTried(st);
      if !all { return; }
      var entryToBucket;
      all, entryToBucket := ReadBuckets(st, nUBuckets);
      if !all { return; }
      if st.format >= 2 && st.asmapVersion.None? { return false; }
      PlaceEntries(st, nUBuckets, entryToBucket);
      Store.PlaceNewLined(world, m_asmap, st, |st.newInfos|);
      Store.LinedRandom(st, Tables(), |st.newInfos|);
      Prune();
    }

    method ReadNew(st: Store.Stream) returns (all: bool)
      requires Mirrored() && Store.Bounded(st) && Tables() == Empty(st.key, m_asmap).(nNew := st.nNew, nTried := st.nTried)
      modifies this`mapInfo, this`mapAddr, this`vRandom, this`nIdCount
      ensures Mirrored() && (all <==> |st.newInfos| >= st.nNew)
      ensures all ==> Tables().(nTried := Min(st.nTried, 0)) == Store.LoadNew(m_asmap, st, |st.newInfos|)
      ensures !all ==> !Consistent(world, Tables())
    {
      hide Mirrored, Store.LoadNew, Consistent;
      Store.LoadNewNone(m_asmap, st);
      var n := 0;
      while n < nNew
        invariant Mirrored() && 0 <= n <= |st.newInfos|
        invariant Tables().(nIdCount := Min(st.nNew, 0) + n, nNew := Min(st.nNew, 0) + n, nTried := Min(st.nTried, 0))
               == Store.LoadNew(m_asmap, st, n)
        decreases nNew - n
      {
        if n == |st.newInfos| {
          Store.NewAtMost(m_asmap, st, n);
          Store.ShortIsInconsistent(world, Tables());
          return false;
        }
        Store.LoadNewOnce(m_asmap, st, n);
        PutNew(n, Store.Load(st.newInfos[n], false, -1));
        n := n + 1;
      }
      nIdCount := nNew;
      all := true;
    }

    /** Files a new entry under its index. */
    method PutNew(n: int, info: AddrInfo)
      modifies this`mapInfo, this`mapAddr, this`vRandom
      ensures Tables().(nIdCount := n + 1)
           == Store.AddEntry(old(Tables()).(nIdCount := n), info.(nRandomPos := |old(vRandom)|))
    {
      mapInfo := mapInfo[Id(n) := info];
      mapAddr := mapAddr[info.service.ip := Id(n)];
      mapInfo := mapInfo[Id(n) := mapInfo[Id(n)].(nRandomPos := |vRandom|)];
      vRandom := vRandom + [Id(n)];
    }

    method Append(info: AddrInfo)
      modifies this`mapInfo, this`mapAddr, this`vRandom, this`nIdCount
      ensures Tables() == Store.AddEntry(old(Tables()), info)
    {
      vRandom := vRandom + [Id(nIdCount)];
      mapInfo := mapInfo[Id(nIdCount) := info];
      mapAddr := mapAddr[info.service.ip := Id(nIdCount)];
      nIdCount := nIdCount + 1;
    }

    method ReadTried(st: Store.Stream) returns (all: bool)
      requires Mirrored() && Store.Bounded(st) && nTried == st.nTried
      requires Tables().(nTried := Min(st.nTried, 0)) == Store.LoadNew(m_asmap, st, |st.newInfos|)
      modifies this`mapInfo, this`mapAddr, this`vRandom, this`nIdCount, this`nTried, this`triedAt, vvTried
      ensures Mirrored() && (all <==> |st.triedInfos| >= st.nTried)
      ensures all ==> Tables() == Store.LoadTried(world, m_asmap, st, |st.triedInfos|)
      ensures !all ==> !Consistent(world, Tables())
    {
      hide Mirrored, Store.LoadNew, Store.LoadTried, BucketPosition, TriedBucket, Consistent;
      Store.LoadTriedNone(world, m_asmap, st);
      var nLost := 0;
      var n := 0;
      while n < nTried
        invariant Mirrored() && 0 <= n <= |st.triedInfos| && nTried == st.nTried
        invariant Tables().(nTried := Min(st.nTried, 0) + n - nLost) == Store.LoadTried(world, m_asmap, st, n)
        decreases nTried - n
      {
        if n == |st.triedInfos| {
          Store.TriedAtMost(world, m_asmap, st, n);
          Store.ShortIsInconsistent(world, Tables());
          return false;
        }
        Store.LoadTriedOnce(world, m_asmap, st, n + 1);
        var info := Store.Load(st.triedInfos[n], false, -1);
        var nKBucket := TriedBucket(world, nKey, m_asmap, info.service);
        var nKBucketPos := BucketPosition(world, nKey, false, nKBucket, info.service);
        var occupant := GetTried(nKBucket, nKBucketPos);
        if occupant == NONE {
          info := info.(nRandomPos := |vRandom|);
          info := info.(fInTried := true);
          assert triedAt - {Slot(nKBucket, nKBucketPos)} == triedAt;
          SetTried(nKBucket, nKBucketPos, Id(nIdCount));
          Append(info);
        } else {
          nLost := nLost + 1;
        }
        n := n + 1;
      }
      nTried := nTried - nLost;
      all := true;
    }

    /** The last bucket that lists each index. */
    method ReadBuckets(st: Store.Stream, nUBuckets: int) returns (all: bool, entryToBucket: map<int, int>)
      requires Store.Bounded(st) && nUBuckets == Store.BucketCount(st)
      ensures all <==> |st.buckets| >= nUBuckets
      ensures all ==> forall n | 0 <= n < nNew ::
                (if n in entryToBucket then entryToBucket[n] else 0) == Store.LastBucket(st.buckets, n, |st.buckets|)
    {
      entryToBucket := map[];
      var bucket := 0;
      while bucket < nUBuckets
        invariant 0 <= bucket <= |st.buckets|
        invariant forall n | 0 <= n < nNew ::
                    (if n in entryToBucket then entryToBucket[n] else 0) == Store.LastBucket(st.buckets, n, bucket)
        decreases nUBuckets - bucket
      {
        if bucket == |st.buckets| { return false, entryToBucket; }
        var listed := st.buckets[bucket];
        for i := 0 to |listed|
          invariant forall n | 0 <= n < nNew ::
                      (if n in entryToBucket then entryToBucket[n] else 0)
                      == if n in listed[..i] then bucket else Store.LastBucket(st.buckets, n, bucket)
        {
          var nIndex := listed[i];
          assert listed[..i + 1] == listed[..i] + [nIndex];
          if nIndex >= 0 && nIndex < nNew {
            entryToBucket := entryToBucket[nIndex := bucket];
          }
        }
        assert listed[..|listed|] == listed;
        bucket := bucket + 1;
      }
      all := true;
    }

    method PlaceEntries(st: Store.Stream, nUBuckets: int, entryToBucket: map<int, int>)
      requires Mirrored() && Store.Bounded(st) && !Store.CutShort(st)
      requires Tables() == Store.LoadTried(world, m_asmap, st, |st.triedInfos|)
      requires nUBuckets == Store.BucketCount(st)
      requires forall n | 0 <= n < nNew ::
                 (if n in entryToBucket then entryToBucket[n] else 0) == Store.LastBucket(st.buckets, n, |st.buckets|)
      modifies this`mapInfo, this`newAt, vvNew
      ensures Mirrored()
      ensures Tables() == Store.PlaceNew(world, m_asmap, st, |st.newInfos|)
    {
      hide Mirrored, Store.LoadTried, Store.LastBucket, Store.PlaceNew, Store.PlaceOne, Store.BucketsUsable, Store.BucketCount, RandomOk;
      Store.LoadTriedLined(world, m_asmap, st, |st.triedInfos|);
      var supplied_asmap_version := if m_asmap == [] then 0 else world.asmapHash(m_asmap);
      var usable := st.format >= 2 && nUBuckets == NEW_BUCKET_COUNT && st.asmapVersion == Some(supplied_asmap_version);
      Store.UsableIs(world, st, m_asmap);
      Store.PlaceNewNone(world, m_asmap, st);
      var n := 0;
      while n < nNew
        invariant Mirrored() && 0 <= n <= |st.newInfos|
        invariant Tables() == Store.PlaceNew(world, m_asmap, st, n)
        decreases nNew - n
      {
        Store.PlaceNewLined(world, m_asmap, st, n);
        Store.PlaceNewOnce(world, m_asmap, st, n);
        Store.BucketsRead(st);
        PlaceEntry(st, n, if n in entryToBucket then entryToBucket[n] else 0, usable);
        n := n + 1;
      }
    }

    /** Places new entry n: back in its bucket, else where its own source puts it, else nowhere. */
    method PlaceEntry(ghost st: Store.Stream, n: int, bucket: int, usable: bool)
      requires Mirrored() && 0 <= n < |st.newInfos| && Id(n) in mapInfo
      requires usable == Store.BucketsUsable(world, st, m_asmap)
      requires bucket == Store.LastBucket(st.buckets, n, |st.buckets|)
      requires usable ==> |st.buckets| == NEW_BUCKET_COUNT
      modifies this`mapInfo, this`newAt, vvNew
      ensures Mirrored()
      ensures Tables() == Store.PlaceOne(world, m_asmap, st, old(Tables()), n)
    {
      hide Mirrored, Store.BucketsUsable, Store.LastBucket, BucketPosition, NewBucket;
      var info := mapInfo[Id(n)];
      var nUBucketPos := BucketPosition(world, nKey, true, bucket, info.service);
      if usable {
        var holder := GetNew(bucket, nUBucketPos);
        if holder == NONE && info.nRefCount < NEW_BUCKETS_PER_ADDRESS {
          SetNew(bucket, nUBucketPos, Id(n));
          mapInfo := mapInfo[Id(n) := mapInfo[Id(n)].(nRefCount := mapInfo[Id(n)].nRefCount + 1)];
          return;
        }
      }
      var own := NewBucket(world, nKey, m_asmap, info.service, info.source);
      nUBucketPos := BucketPosition(world, nKey, true, own, info.service);
      var holder := GetNew(own, nUBucketPos);
      if holder == NONE {
        SetNew(own, nUBucketPos, Id(n));
        mapInfo := mapInfo[Id(n) := mapInfo[Id(n)].(nRefCount := mapInfo[Id(n)].nRefCount + 1)];
      }
    }

    /** Drops the entries that found no place. */
    method Prune()
      requires Mirrored() && RandomOk(mapInfo, vRandom)
      modifies this`mapInfo, this`vRandom, this`mapAddr, this`nNew
      ensures Mirrored() && RandomOk(mapInfo, vRandom)
      ensures Store.Pruned(old(Tables()), Tables(), Store.Waiting(old(mapInfo)))
    {
      hide Mirrored, Store.Pruned, Store.Waiting, RandomOk;
      ghost var s := Tables();
      ghost var gone: set<Id> := {};
      Store.PrunedNothing(s);
      Store.WaitingKnown(s.info);
      var rest := mapInfo.Keys;
      while rest != {}
        invariant Mirrored() && RandomOk(mapInfo, vRandom)
        invariant Store.Pruned(s, Tables(), gone)
        invariant rest <= mapInfo.Keys
        invariant gone <= Store.Waiting(s.info) && Store.Waiting(mapInfo) == Store.Waiting(s.info) - gone <= rest
        decreases |rest|
      {
        Runs.HasLeast(rest);
        var id :| id in rest && forall x <- rest :: id.n <= x.n;
        rest := rest - {id};
        gone := PruneOne(id, s, gone);
      }
      assert gone == Store.Waiting(s.info);
    }

    method PruneOne(id: Id, ghost s: State, ghost gone: set<Id>) returns (ghost gone': set<Id>)
      requires Mirrored() && RandomOk(mapInfo, vRandom) && Store.Pruned(s, Tables(), gone) && id in mapInfo
      modifies this`mapInfo, this`vRandom, this`mapAddr, this`nNew
      ensures Mirrored() && RandomOk(mapInfo, vRandom) && Store.Pruned(s, Tables(), gone')
      ensures gone' == gone + (Store.Waiting(old(mapInfo)) * {id})
      ensures Store.Waiting(mapInfo) == Store.Waiting(old(mapInfo)) - {id}
      ensures old(mapInfo).Keys - {id} <= mapInfo.Keys
    {
      hide Mirrored, Steps.Delete, Store.Pruned, Store.Waiting, RandomOk;
      Store.WaitingIs(mapInfo, id);
      gone' := gone;
      if !mapInfo[id].fInTried && mapInfo[id].nRefCount == 0 {
        Store.PrunedMore(s, Tables(), gone, id);
        Delete(id);
        gone' := gone + {id};
      }
    }
  }

  /** A manager saved and loaded by another. Under the same AS map nothing is lost; under
      another one nothing is added, and the loader knows just the addresses that were loaded and
      not dropped, each as it was. */
  method SaveAndLoad(saver: AddrMan, loader: AddrMan, newKey: Key) returns (st: Store.Stream)
    requires saver.Valid() && loader.Valid() && saver.world == loader.world
    requires saver != loader && saver.vvNew != loader.vvNew && saver.vvTried != loader.vvTried
    requires saver.vvNew != loader.vvTried && saver.vvTried != loader.vvNew
    modifies loader, loader.vvNew, loader.vvTried
    ensures loader.Valid() && loader.m_asmap == old(loader.m_asmap)
    ensures exists news, tries :: Trip.SavedAs(saver.world, saver.Tables(), st, news, tries)
    ensures Salvage.Salvaged(saver.world, saver.Tables(), loader.Tables())
    ensures Salvage.KnownAre(saver.world, loader.m_asmap, st, loader.Tables())
    ensures saver.m_asmap == loader.m_asmap ==> Trip.Restored(saver.Tables(), loader.Tables())
  {
    hide Mirrors, Consistent, Trip.SavedAs, Store.Whole, Store.Bounded, Store.CutShort, Store.Refused, Trip.Restored, Store.Pruned, Store.PlaceNew;
    hide Apart.KeepsApart, Apart.Decided, Store.TablesOk, Store.Waiting;
    hide Salvage.Salvaged, Salvage.KnownAre;
    ghost var newIds, triedIds;
    st, newIds, triedIds := saver.Serialize();
    ghost var s := saver.Tables();
    Trip.SavedReadable(saver.world, s, st, newIds, triedIds);
    Trip.WholeIsBounded(st);
    var r := loader.Unserialize(st, newKey);
    assert saver.Tables() == s && Trip.SavedAs(saver.world, saver.Tables(), st, newIds, triedIds);
    Salvage.SalvagedIs(saver.world, s, st, newIds, triedIds, loader.m_asmap, loader.Tables());
    if saver.m_asmap == loader.m_asmap {
      Trip.RoundTrip(saver.world, s, st, newIds, triedIds);
      Trip.RestoredMoved(s, Store.PlaceNew(saver.world, saver.m_asmap, st, |st.newInfos|), loader.Tables());
    }
  }

  predicate Holds(at: map<Slot, Id>, bucket: int, pos: int, id: Id) {
    Slot(bucket, pos) in at && at[Slot(bucket, pos)] == id
  }

  /** Whoever holds a slot of the new table is listed, and sits where its address hashes to. */
  lemma HoldersListed(w: World, s: State, saved: seq<Store.SavedInfo>, newIds: seq<Id>)
    requires Consistent(w, s) && Trip.Lists(s.info, saved, newIds, false)
    ensures NONE !in s.newAt.Values
    ensures forall i | 0 <= i < |newIds| :: newIds[i] in s.info
    ensures forall slot <- s.newAt ::
              && s.newAt[slot] in newIds && s.newAt[slot] in s.info
              && slot == NewSlotIn(w, s.key, slot.bucket, s.info[s.newAt[slot]].service)
  {
    hide RandomOk, AddrOk, TriedOk;
    forall slot <- s.newAt ensures !s.info[s.newAt[slot]].fInTried {
      assert slot in SlotsOf(s.newAt, s.newAt[slot]);
    }
  }

  lemma ListsCounts(s: State, newInfos: seq<Store.SavedInfo>, triedInfos: seq<Store.SavedInfo>, newIds: seq<Id>, triedIds: seq<Id>)
    requires CountsOk(s.info, s.nIdCount, s.nTried, s.nNew)
    requires Trip.Lists(s.info, newInfos, newIds, false) && Trip.Lists(s.info, triedInfos, triedIds, true)
    ensures s.nNew == |newIds| && s.nTried == |triedIds|
  {
    ListedCount(newIds, NewIds(s.info));
    ListedCount(triedIds, TriedIds(s.info));
  }

  lemma {:induction false} ListedCount(ids: seq<Id>, all: set<Id>)
    requires forall i, j | 0 <= i < j < |ids| :: ids[i] != ids[j]
    requires forall id :: id in ids <==> id in all
    ensures |ids| == |all|
  {
    if ids == [] {
      assert all == {};
    } else {
      var last := ids[|ids| - 1];
      var rest := ids[..|ids| - 1];
      assert ids == rest + [last];
      assert forall id :: id in rest <==> id in all - {last};
      ListedCount(rest, all - {last});
    }
  }

  method EmptyTable(table: array2<Id>)
    modifies table
    ensures forall b, p | 0 <= b < table.Length0 && 0 <= p < table.Length1 :: table[b, p] == NONE
  {
    for bucket := 0 to table.Length0
      invariant forall b, p | 0 <= b < bucket && 0 <= p < table.Length1 :: table[b, p] == NONE
    {
      for entry := 0 to table.Length1
        invariant forall b, p | 0 <= b < bucket && 0 <= p < table.Length1 :: table[b, p] == NONE
        invariant forall p | 0 <= p < entry :: table[bucket, p] == NONE
      {
        table[bucket, entry] := NONE;
      }
    }
  }

  lemma CreatedTwice(s: State, a: Address, source: NetAddr, penalty: int)
    ensures var s1 := Steps.Create(s, a, source); var id := Id(s.nIdCount);
            && id in s1.info
            && Spec.Created(s, a, source, penalty)
            == s1.(info := s1.info[id := s1.info[id].(nTime := Max(0, s1.info[id].nTime - penalty))], nNew := s.nNew + 1)
            && s1.nNew == s.nNew && s1.info[id].service == a.service && s1.info[id].nRefCount == 0 && !s1.info[id].fInTried
  {
  }

  method PowerOfTwo(n: nat) returns (nFactor: nat)
    ensures nFactor == Pow2(n)
  {
    nFactor := 1;
    for i := 0 to n
      invariant nFactor == Pow2(i)
    {
      nFactor := nFactor * 2;
    }
  }

  lemma ReferencedIfNew(s: State, id: Id)
    requires RefsOk(s.info, s.newAt, {})
    requires id in s.info && !s.info[id].fInTried
    ensures 0 < s.info[id].nRefCount <= NEW_BUCKETS_PER_ADDRESS
  {
  }

  lemma AtIs(at: map<Slot, Id>, slot: Slot)
    ensures At(at, slot) == if slot in at then at[slot] else NONE
  {
  }

  lemma AtHere(at: map<Slot, Id>, slot: Slot)
    requires slot in at
    ensures At(at, slot) == at[slot]
  {
  }

  lemma NoneUnused(s: State)
    requires CountsOk(s.info, s.nIdCount, s.nTried, s.nNew)
    ensures NONE !in s.info
  {
  }

  /** Deleting an entry does not look at the number of new entries. */
  lemma DeleteShifted(s: State, d: int, id: Id)
    requires RandomOk(s.info, s.random) && id in s.info
    ensures Steps.Delete(s.(nNew := s.nNew + d), id) == Steps.Delete(s, id).(nNew := Steps.Delete(s, id).nNew + d)
  {
    hide Steps.SwappedInfo, RandomOk;
    Steps.RandomPos(s.info, s.random, id);
    Steps.RandomIn(s.info, s.random);
  }

  /** Neither does clearing a slot. */
  lemma ClearShifted(s: State, d: int, slot: Slot)
    requires RandomOk(s.info, s.random)
    requires slot in s.newAt ==> s.newAt[slot] in s.info
    ensures Steps.ClearNew(s.(nNew := s.nNew + d), slot)
         == Steps.ClearNew(s, slot).(nNew := Steps.ClearNew(s, slot).nNew + d)
  {
    hide RandomOk, Steps.Delete;
    if slot in s.newAt {
      var id := s.newAt[slot];
      Steps.UnrefRandom(s, id, slot);
      DeleteShifted(Steps.Unref(s, id, slot), d, id);
    }
  }

  /** The tables when id has lost the references in cleared. */
  ghost function WithoutRefs(s: State, id: Id, cleared: set<Slot>): State
    requires id in s.info
  {
    s.(info := s.info[id := s.info[id].(nRefCount := |SlotsOf(s.newAt, id)| - |cleared|)], newAt := s.newAt - cleared)
  }

  lemma SomeDropped(s: State, id: Id)
    requires id in s.info && s.info[id].nRefCount == |SlotsOf(s.newAt, id)|
    ensures WithoutRefs(s, id, {}) == s
    ensures WithoutRefs(s, id, SlotsOf(s.newAt, id)) == Spec.DropRefs(s, id)
  {
    assert s.newAt - {} == s.newAt;
    assert s.info[id := s.info[id]] == s.info;
  }

  lemma SlotWithout(s: State, id: Id, cleared: set<Slot>, slot: Slot)
    requires id in s.info && id != NONE
    ensures At(WithoutRefs(s, id, cleared).newAt, slot) == id <==> slot in SlotsOf(s.newAt, id) && slot !in cleared
    ensures id in WithoutRefs(s, id, cleared).info
  {
  }

  lemma UnrefWithout(s: State, id: Id, cleared: set<Slot>, slot: Slot)
    requires id in s.info && slot !in cleared
    ensures id in WithoutRefs(s, id, cleared).info
    ensures var t := WithoutRefs(s, id, cleared + {slot});
            && Steps.Unref(WithoutRefs(s, id, cleared), id, slot) == t
            && id in t.info && t.info[id].nRefCount == |SlotsOf(s.newAt, id)| - |cleared| - 1
  {
    assert s.newAt - cleared - {slot} == s.newAt - (cleared + {slot});
  }

  lemma RefSlots(w: World, s: State, id: Id)
    requires Consistent(w, s) && id in s.info && !s.info[id].fInTried
    ensures forall x <- SlotsOf(s.newAt, id) ::
              0 <= x.bucket < NEW_BUCKET_COUNT && x == NewSlotIn(w, s.key, x.bucket, s.info[id].service)
    ensures |SlotsOf(s.newAt, id)| == s.info[id].nRefCount > 0 && id != NONE
  {
  }

  lemma OneSlotPerTurn(w: World, key: Key, a: Service, refs: set<Slot>, start: int, n: int)
    requires forall x <- refs :: 0 <= x.bucket < NEW_BUCKET_COUNT && x == NewSlotIn(w, key, x.bucket, a)
    requires 0 <= start < NEW_BUCKET_COUNT && 0 <= n < NEW_BUCKET_COUNT
    ensures var b := (start + n) % NEW_BUCKET_COUNT;
            var slot := Slot(b, BucketPosition(w, key, true, b, a));
            forall x <- refs :: Turn(x.bucket, start) == n <==> x == slot
  {
    var b := (start + n) % NEW_BUCKET_COUNT;
    TurnInverse(b, start, n);
    forall x <- refs ensures Turn(x.bucket, start) == n <==> x == NewSlotIn(w, key, b, a) {
      TurnInverse(x.bucket, start, n);
    }
  }

  lemma AllTurnsDone(refs: set<Slot>, cleared: set<Slot>, start: int)
    requires forall slot <- refs :: slot in cleared <==> Turn(slot.bucket, start) < NEW_BUCKET_COUNT
    requires cleared <= refs
    ensures cleared == refs
  {
  }

  lemma OneMore(cleared: set<Slot>, slot: Slot, refs: set<Slot>)
    requires cleared <= refs && slot in refs && slot !in cleared
    ensures cleared + {slot} <= refs && |cleared + {slot}| == |cleared| + 1
    ensures |cleared| + 1 <= |refs|
    ensures |cleared| + 1 == |refs| ==> cleared + {slot} == refs
  {
    SubsetCount(cleared + {slot}, refs);
  }

  lemma SubsetCount(a: set<Slot>, b: set<Slot>)
    requires a <= b
    ensures |a| <= |b|
    ensures |a| == |b| ==> a == b
  {
    assert b == a + (b - a);
  }
}