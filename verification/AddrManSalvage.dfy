/** What is left of a manager that is written and read back under another AS map. */
module AddrManSalvage {
  import opened AddrManState
  import opened AddrManSteps
  import opened AddrManStore
  import opened AddrManApart
  import opened AddrManRoundTrip

  /** Nothing is added: each address that u knows was known to s, with the same record and on
      the same side of new/tried. What is missing lost its slot to another entry. */
  ghost predicate Salvaged(w: World, s: State, u: State) {
    && u.key == s.key
    && (forall ip <- u.addr :: ip in s.addr && CameBack(s, u, ip))
    && (forall ip <- s.addr :: ip in u.addr || LostSlot(w, s, u, ip))
  }

  predicate CameBack(s: State, u: State, ip: NetAddr)
    requires ip in s.addr && ip in u.addr
  {
    && s.addr[ip] in s.info && u.addr[ip] in u.info
    && Save(u.info[u.addr[ip]]) == Save(s.info[s.addr[ip]])
    && u.info[u.addr[ip]].fInTried == s.info[s.addr[ip]].fInTried
  }

  /** The slot that the address of s would have in u is taken. */
  predicate LostSlot(w: World, s: State, u: State, ip: NetAddr)
    requires ip in s.addr
  {
    && s.addr[ip] in s.info
    && var entry := s.info[s.addr[ip]];
       if entry.fInTried then TriedSlot(w, u.key, u.asmap, entry.service) in u.triedAt
       else NewSlot(w, u.key, u.asmap, entry.service, entry.source) in u.newAt
  }

  /** An entry of the stream is there after reading just when it was loaded and not dropped. */
  ghost predicate KnownAre(w: World, asmap: seq<bool>, st: Stream, u: State) {
    forall i | 0 <= i < |st.newInfos| + |st.triedInfos| ::
      AddressOf(st, i) in u.addr <==> Loaded(w, asmap, st, i) && !Dropped(w, asmap, st, i)
  }

  /** Under whatever AS map a written stream is read. */
  lemma SalvagedIs(w: World, s: State, st: Stream, newIds: seq<Id>, triedIds: seq<Id>, asmap: seq<bool>, u: State)
    requires Consistent(w, s) && SavedAs(w, s, st, newIds, triedIds) && Consistent(w, u)
    requires var t := PlaceNew(w, asmap, st, |st.newInfos|); Pruned(t, u, Waiting(t.info))
    ensures Salvaged(w, s, u) && KnownAre(w, asmap, st, u)
  {
    hide RandomOk, NewOk, TriedOk, RefsOk, CountsOk, Whole, PlaceNew, LoadTried, BucketsUsable, KeepsApart, Pruned, Waiting, Loaded, Dropped, Lists, BucketLists;
    hide LostSlot, CameBack;
    SavedReadable(w, s, st, newIds, triedIds);
    SlotsTaken(w, asmap, st);
    Survivors(PlaceNew(w, asmap, st, |st.newInfos|), u, Id(0));
    forall ip | ip in u.addr ensures ip in s.addr && CameBack(s, u, ip) {
      var i := EntryBehind(w, asmap, st, u, ip);
      WasKnown(w, s, st, newIds, triedIds, u, i, ip);
    }
    forall i | 0 <= i < |st.newInfos| + |st.triedInfos|
      ensures AddressOf(st, i) in u.addr <==> Loaded(w, asmap, st, i) && !Dropped(w, asmap, st, i)
    {
      KnownIs(w, s, st, newIds, triedIds, asmap, u, i);
    }
    forall ip | ip in s.addr ensures ip in u.addr || LostSlot(w, s, u, ip) {
      var i := IndexOf(s, st, newIds, triedIds, ip);
      if ip !in u.addr { LostIs(w, s, st, newIds, triedIds, asmap, u, i, ip); }
    }
  }

  /** The entry of the stream that a known address came from. */
  lemma EntryBehind(w: World, asmap: seq<bool>, st: Stream, u: State, ip: NetAddr) returns (i: nat)
    requires Whole(st) && AddrOk(u.info, u.addr) && ip in u.addr
    requires var t := PlaceNew(w, asmap, st, |st.newInfos|); Pruned(t, u, Waiting(t.info))
    ensures i < |st.newInfos| + |st.triedInfos| && Loaded(w, asmap, st, i) && !Dropped(w, asmap, st, i) && AddressOf(st, i) == ip
    ensures u.addr[ip] in u.info && Save(u.info[u.addr[ip]]) == InfoOf(st, i) && u.info[u.addr[ip]].fInTried == (i >= |st.newInfos|)
  {
    hide Whole, PlaceNew, LoadTried, Pruned, Waiting, Loaded, Dropped, NumberOf;
    var id := u.addr[ip];
    Survivors(PlaceNew(w, asmap, st, |st.newInfos|), u, id);
    i := EntryOf(w, asmap, st, id);
    DroppedIs(w, asmap, st, i);
    SavedService(st, i, u.info[id]);
  }

  lemma SavedService(st: Stream, i: nat, entry: AddrInfo)
    requires i < |st.newInfos| + |st.triedInfos| && Save(entry) == InfoOf(st, i)
    ensures entry.service.ip == AddressOf(st, i) && entry.service == InfoOf(st, i).service
  {
  }

  lemma WasKnown(w: World, s: State, st: Stream, newIds: seq<Id>, triedIds: seq<Id>, u: State, i: nat, ip: NetAddr)
    requires AddrOk(s.info, s.addr) && Lists(s.info, st.newInfos, newIds, false) && Lists(s.info, st.triedInfos, triedIds, true)
    requires i < |st.newInfos| + |st.triedInfos| && AddressOf(st, i) == ip && ip in u.addr
    requires u.addr[ip] in u.info && Save(u.info[u.addr[ip]]) == InfoOf(st, i) && u.info[u.addr[ip]].fInTried == (i >= |st.newInfos|)
    ensures ip in s.addr && CameBack(s, u, ip)
  {
    hide Lists;
    ListsLength(s.info, st.newInfos, newIds, false);
    var id := SavedIdsKnown(s, st, newIds, triedIds, i);
  }

  lemma KnownIs(w: World, s: State, st: Stream, newIds: seq<Id>, triedIds: seq<Id>, asmap: seq<bool>, u: State, i: nat)
    requires Whole(st) && AddrOk(s.info, s.addr) && AddrOk(u.info, u.addr)
    requires Lists(s.info, st.newInfos, newIds, false) && Lists(s.info, st.triedInfos, triedIds, true)
    requires var t := PlaceNew(w, asmap, st, |st.newInfos|); Pruned(t, u, Waiting(t.info))
    requires i < |st.newInfos| + |st.triedInfos|
    ensures AddressOf(st, i) in u.addr <==> Loaded(w, asmap, st, i) && !Dropped(w, asmap, st, i)
  {
    hide Whole, PlaceNew, LoadTried, Pruned, Waiting, Loaded, Dropped, NumberOf, Lists, AddressOf, InfoOf;
    var t := PlaceNew(w, asmap, st, |st.newInfos|);
    if AddressOf(st, i) in u.addr {
      var j := EntryBehind(w, asmap, st, u, AddressOf(st, i));
      if i < j { SavedDistinct(s, st, newIds, triedIds, i, j); }
      if j < i { SavedDistinct(s, st, newIds, triedIds, j, i); }
    }
    if Loaded(w, asmap, st, i) && !Dropped(w, asmap, st, i) {
      EntriesAre(w, asmap, st);
      var id := NumberOf(w, asmap, st, i);
      assert IsEntry(w, asmap, st, t, i);
      DroppedIs(w, asmap, st, i);
      Survivors(t, u, id);
      SavedService(st, i, u.info[id]);
    }
  }

  /** The entry of the stream that an address was written as. */
  lemma IndexOf(s: State, st: Stream, newIds: seq<Id>, triedIds: seq<Id>, ip: NetAddr) returns (i: nat)
    requires AddrOk(s.info, s.addr) && Lists(s.info, st.newInfos, newIds, false) && Lists(s.info, st.triedInfos, triedIds, true)
    requires ip in s.addr
    ensures i < |st.newInfos| + |st.triedInfos| && AddressOf(st, i) == ip
    ensures s.addr[ip] in s.info && Save(s.info[s.addr[ip]]) == InfoOf(st, i) && s.info[s.addr[ip]].fInTried == (i >= |st.newInfos|)
  {
    var id := s.addr[ip];
    var j: nat;
    if s.info[id].fInTried {
      j :| j < |triedIds| && triedIds[j] == id;
      i := |newIds| + j;
    } else {
      j :| j < |newIds| && newIds[j] == id;
      i := j;
    }
  }

  lemma LostIs(w: World, s: State, st: Stream, newIds: seq<Id>, triedIds: seq<Id>, asmap: seq<bool>, u: State, i: nat, ip: NetAddr)
    requires Whole(st) && ip in s.addr && s.addr[ip] in s.info && i < |st.newInfos| + |st.triedInfos|
    requires Save(s.info[s.addr[ip]]) == InfoOf(st, i) && s.info[s.addr[ip]].fInTried == (i >= |st.newInfos|)
    requires var t := PlaceNew(w, asmap, st, |st.newInfos|); Pruned(t, u, Waiting(t.info))
    requires !Loaded(w, asmap, st, i) || Dropped(w, asmap, st, i)
    ensures LostSlot(w, s, u, ip)
  {
    hide Whole, PlaceNew, LoadTried, Pruned, Waiting, TakenNew, TriedSlot, NewSlot, BucketsUsable, FormerSlot;
    var t := PlaceNew(w, asmap, st, |st.newInfos|);
    SlotsTaken(w, asmap, st);
    Survivors(t, u, Id(0));
    PlacedAre(w, asmap, st, |st.newInfos|);
    if i < |st.newInfos| {
      TakenStays(w, asmap, st, i, |st.newInfos|);
      assert OwnSlot(w, asmap, st, i) in u.newAt;
    } else {
      var k := i - |st.newInfos|;
      var j :| 0 <= j < k && TriedSlotOf(w, asmap, st, j) == TriedSlotOf(w, asmap, st, k);
      assert TriedSlotOf(w, asmap, st, k) in t.triedAt;
    }
  }
}
