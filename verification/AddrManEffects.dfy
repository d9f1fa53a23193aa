/** What an announcement and a promotion do to the addresses in the tables. */
module AddrManEffects {
  import opened AddrManState
  import opened AddrManSteps
  import opened AddrManSpec

  /** The entry that loses its last reference when slot is taken over. */
  predicate Displaced(s: State, slot: Slot, x: Id) {
    slot in s.newAt && s.newAt[slot] == x && x in s.info && s.info[x].nRefCount == 1
  }

  /** An unknown address gets in exactly if its slot is free or the holder gives way. Then
      at most one address is lost: the holder, if that was its last slot. Otherwise nothing
      is lost and nothing is stored. */
  lemma AnnouncedUnknown(w: World, s: State, a: Address, source: NetAddr, penalty: int, now: int)
    requires Consistent(w, s) && a.service.ip !in s.addr
    ensures var t := AddUnknown(w, s, a, source, penalty, now);
            var id := Id(s.nIdCount);
            var slot := NewSlot(w, s.key, s.asmap, a.service, source);
            var free := slot !in s.newAt || (s.newAt[slot] in s.info && (IsTerrible(s.info[s.newAt[slot]], now) || s.info[s.newAt[slot]].nRefCount > 1));
            && (id in t.info <==> free)
            && t.newAt == (if free then s.newAt[slot := id] else s.newAt)
            && (free ==> t.info[id].service == a.service && t.info[id].nRefCount == 1 && !t.info[id].fInTried)
            && (forall x :: x != id ==> (x in t.info <==> x in s.info && !(free && Displaced(s, slot, x))))
            && t.triedAt == s.triedAt
  {
    hide RandomOk, AddrOk, NewOk, TriedOk, RefsOk, CountsOk, Created, ClearNew, Delete, Ref, NewSlot, IsTerrible;
    var id := Id(s.nIdCount);
    var slot := NewSlot(w, s.key, s.asmap, a.service, source);
    var s1 := Created(s, a, source, penalty);
    CreatedKeeps(w, s, a, source, penalty);
    CreatedInfo(w, s, a, source, penalty);
    SlotHolder(w, s, slot);
    if GivesWay(s1, id, slot, now) { TakesSlot(w, s1, id, slot, {id}); } else { TurnedAway(w, s1, id); }
  }

  /** Taking a slot costs its holder one reference, and its entry if that was the last. */
  lemma TakesSlot(w: World, s: State, id: Id, slot: Slot, loose: set<Id>)
    requires ConsistentBut(w, s, loose) && id in s.info
    requires slot in s.newAt ==> s.newAt[slot] in s.info && s.newAt[slot] != id
    ensures id in ClearNew(s, slot).info
    ensures var t := Ref(ClearNew(s, slot), id, slot);
            && t.newAt == s.newAt[slot := id] && t.triedAt == s.triedAt
            && id in t.info && t.info[id].nRefCount == s.info[id].nRefCount + 1
            && t.info[id].service == s.info[id].service && t.info[id].fInTried == s.info[id].fInTried
            && forall x :: x != id ==> (x in t.info <==> x in s.info && !Displaced(s, slot, x))
  {
    hide RandomOk, AddrOk, NewOk, TriedOk, RefsOk, CountsOk, ClearNew;
    ClearNewKeeps(w, s, slot, loose);
    PlacedStays(s, id, slot);
    SameMembers(ClearedInfo(s, slot), ClearNew(s, slot).info);
  }

  lemma SameMembers(a: map<Id, AddrInfo>, b: map<Id, AddrInfo>)
    requires SameButPositions(a, b)
    ensures forall x :: x in a <==> x in b
  {
  }

  lemma TurnedAway(w: World, s: State, id: Id)
    requires ConsistentBut(w, s, {id}) && id in s.info && !s.info[id].fInTried
    ensures forall x :: x in Delete(s, id).info <==> x in s.info && x != id
    ensures Delete(s, id).newAt == s.newAt && Delete(s, id).triedAt == s.triedAt
  {
    hide RandomOk, AddrOk, NewOk, TriedOk, RefsOk, CountsOk, SameButPositions;
    DeleteKeeps(w, s, id, {id});
    SameMembers(s.info - {id}, Delete(s, id).info);
  }

  lemma SlotHolder(w: World, s: State, slot: Slot)
    requires Consistent(w, s)
    ensures slot in s.newAt ==> s.newAt[slot] in s.info && s.newAt[slot] != Id(s.nIdCount)
  {
    hide RandomOk, AddrOk, TriedOk, RefsOk;
  }

  lemma CreatedInfo(w: World, s: State, a: Address, source: NetAddr, penalty: int)
    requires Consistent(w, s)
    ensures var t := Created(s, a, source, penalty); var id := Id(s.nIdCount);
            && id !in s.info && (forall x :: x in t.info <==> x in s.info || x == id) && (forall x <- s.info :: t.info[x] == s.info[x])
            && t.info[id].nRefCount == 0 && t.info[id].service == a.service && !t.info[id].fInTried
            && t.newAt == s.newAt && t.triedAt == s.triedAt && t.key == s.key && t.asmap == s.asmap
  {
    hide RandomOk, AddrOk, NewOk, TriedOk, RefsOk;
  }

  /** A promotion puts the address into its tried slot. The occupant of that slot, if any,
      goes back to the new table and keeps its entry; at most one address is lost, the last
      reference of which the returning one took. */
  lemma Promoted(w: World, s: State, id: Id)
    requires Consistent(w, s) && id in s.info && !s.info[id].fInTried
    ensures var t := MakeTried(w, s, id);
            var slot := TriedSlot(w, s.key, s.asmap, s.info[id].service);
            && id in t.info && t.info[id].fInTried && t.triedAt == s.triedAt[slot := id]
            && (slot in s.triedAt ==>
                  var out := s.triedAt[slot];
                  out in t.info && !t.info[out].fInTried && t.info[out].nRefCount == 1 && out in s.info && t.info[out].service == s.info[out].service)
            && (slot !in s.triedAt ==> forall x :: x in t.info <==> x in s.info)
            && (forall x, y :: x in s.info && y in s.info && x !in t.info && y !in t.info ==> x == y)
            && (forall x <- t.info :: x in s.info)
  {
    hide Consistent, MakeTried, PromotedInfo, SameButPositions, TriedSlot;
    MakeTriedKeeps(w, s, id);
    PromotedEntries(w, s, id);
    var t, p := MakeTried(w, s, id), PromotedInfo(w, s, id);
    SameMembers(p, t.info);
    SameAt(p, t.info, id);
    var slot := TriedSlot(w, s.key, s.asmap, s.info[id].service);
    if slot in s.triedAt { SameAt(p, t.info, s.triedAt[slot]); }
  }

  lemma PromotedEntries(w: World, s: State, id: Id)
    requires Consistent(w, s) && id in s.info && !s.info[id].fInTried
    ensures var p := PromotedInfo(w, s, id);
            var slot := TriedSlot(w, s.key, s.asmap, s.info[id].service);
            && id in p && p[id].fInTried
            && (slot in s.triedAt ==>
                  var out := s.triedAt[slot];
                  out in p && !p[out].fInTried && p[out].nRefCount == 1 && out in s.info && p[out].service == s.info[out].service)
            && (slot !in s.triedAt ==> forall x :: x in p <==> x in s.info)
            && (forall x, y :: x in s.info && y in s.info && x !in p && y !in p ==> x == y)
            && (forall x <- p :: x in s.info)
  {
    hide RandomOk, AddrOk, NewOk, RefsOk, CountsOk, TriedSlot, ClearedInfo;
    DropRefsKeeps(w, s, id);
    var s1, slot := DropRefs(s, id), TriedSlot(w, s.key, s.asmap, s.info[id].service);
    if slot in s.triedAt {
      OccupantIsTried(w, s, slot);
      HolderKnown(w, s1, EvictedTo(w, s1, slot), {id});
      OneCleared(s1, EvictedTo(w, s1, slot));
    }
  }

  lemma OccupantIsTried(w: World, s: State, slot: Slot)
    requires Consistent(w, s) && slot in s.triedAt
    ensures s.triedAt[slot] in s.info && s.info[s.triedAt[slot]].fInTried
  {
    hide RandomOk, AddrOk, NewOk, RefsOk, CountsOk, TriedSlot;
  }

  lemma HolderKnown(w: World, s: State, slot: Slot, loose: set<Id>)
    requires ConsistentBut(w, s, loose)
    ensures slot in s.newAt ==> s.newAt[slot] in s.info
  {
    hide RandomOk, AddrOk, TriedOk, RefsOk, CountsOk;
  }

  lemma OneCleared(s: State, slot: Slot)
    requires slot in s.newAt ==> s.newAt[slot] in s.info
    ensures forall x <- ClearedInfo(s, slot) :: x in s.info
    ensures forall x, y :: x in s.info && y in s.info && x !in ClearedInfo(s, slot) && y !in ClearedInfo(s, slot) ==> x == y
  {
  }

  lemma SameAt(a: map<Id, AddrInfo>, b: map<Id, AddrInfo>, x: Id)
    requires SameButPositions(a, b) && x in a
    ensures x in b && SameEntry(a[x], b[x])
  {
  }
}
