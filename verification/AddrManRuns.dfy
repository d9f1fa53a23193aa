/** Whole runs of the address manager: every reachable state is consistent, tried
    slots once filled stay filled, and pending collisions always have an occupant
    to test. */
module AddrManRuns {
  import opened AddrManState
  import opened AddrManSteps
  import opened AddrManSpec

  // ----- the remaining operations ------------------------------------------

  function Attempt(m: Manager, a: Service, countFailure: bool, nTime: int): Manager {
    if !Knows(m.tables, a) then m else
      var id := m.tables.addr[a.ip];
      m.(tables := Touch(m.tables, id, Attempted(m.tables.info[id], countFailure, nTime, m.nLastGood)))
  }

  function Attempted(entry: AddrInfo, countFailure: bool, nTime: int, nLastGood: int): AddrInfo {
    if countFailure && entry.nLastCountAttempt < nLastGood
    then entry.(nLastTry := nTime, nLastCountAttempt := nTime, nAttempts := entry.nAttempts + 1)
    else entry.(nLastTry := nTime)
  }

  function Connected(s: State, a: Service, nTime: int): State {
    if !Knows(s, a) then s else
      var id := s.addr[a.ip];
      Touch(s, id, if nTime - s.info[id].nTime > 20 * 60 then s.info[id].(nTime := nTime) else s.info[id])
  }

  function SetServices(s: State, a: Service, services: set<nat>): State {
    if !Knows(s, a) then s else
      var id := s.addr[a.ip];
      Touch(s, id, s.info[id].(services := services))
  }

  /** The first n rounds of the partial shuffle that GetAddr draws from. */
  function Shuffle(s: State, n: nat, rnd: nat -> nat): (t: State)
    requires RandomOk(s.info, s.random) && n <= |s.random|
    ensures RandomOk(t.info, t.random) && |t.random| == |s.random|
  {
    hide RandomOk;
    if n == 0 then s else
      var t := Shuffle(s, n - 1, rnd);
      var k := Drawn(|s.random|, n - 1, rnd(n - 1));
      SwapStaysRandom(t, n - 1, k);
      SwapRandom(t, n - 1, k)
  }

  /** The position among those from n on that the draw r picks; a draw is below size - n, and
      any other number stands for 0. */
  function Drawn(size: nat, n: nat, r: nat): (k: nat)
    requires n < size
    ensures n <= k < size
  {
    if r < size - n then n + r else n
  }

  lemma ShuffleKeeps(w: World, s: State, n: nat, rnd: nat -> nat)
    requires Consistent(w, s) && n <= |s.random|
    ensures var t := Shuffle(s, n, rnd);
            && Consistent(w, t)
            && t == s.(info := t.info, random := t.random)
            && SameButPositions(s.info, t.info)
  {
    hide RandomOk, AddrOk, NewOk, TriedOk, RefsOk, CountsOk;
    hide SameButPositions, SameEntry, SwapRandom;
    if n == 0 {
      SameSelf(s.info);
    } else {
      ShuffleKeeps(w, s, n - 1, rnd);
      var t := Shuffle(s, n - 1, rnd);
      SwapKeeps(w, t, n - 1, Drawn(|s.random|, n - 1, rnd(n - 1)), {});
      SwapRandomOk(t, n - 1, Drawn(|s.random|, n - 1, rnd(n - 1)));
      SameTwice(s.info, t.info, Shuffle(s, n, rnd).info);
      SwapOnly(t, n - 1, Drawn(|s.random|, n - 1, rnd(n - 1)));
    }
  }

  lemma SwapOnly(s: State, i: int, j: int)
    requires RandomOk(s.info, s.random)
    requires 0 <= i < |s.random| && 0 <= j < |s.random|
    ensures var t := SwapRandom(s, i, j); t == s.(info := t.info, random := t.random)
  {
  }

  lemma SameSelf(a: map<Id, AddrInfo>)
    ensures SameButPositions(a, a)
  {
  }

  lemma SameTwice(a: map<Id, AddrInfo>, b: map<Id, AddrInfo>, c: map<Id, AddrInfo>)
    requires SameButPositions(a, b) && SameButPositions(b, c)
    ensures SameButPositions(a, c)
  {
    forall id <- a ensures SameEntry(a[id], c[id]) {
      assert SameEntry(a[id], b[id]) && SameEntry(b[id], c[id]);
    }
  }

  datatype Network = AnyNetwork | Only(id: nat)

  /** How many addresses a request may get out of size. */
  function Limit(size: nat, max_addresses: nat, max_pct: nat): nat {
    var n := if max_pct != 0 then max_pct * size / 100 else size;
    if max_addresses != 0 && max_addresses < n then max_addresses else n
  }

  /** Without limits that is all. A percentage is rounded down, and a number given is never
      exceeded; if it is the lesser, it is met. */
  lemma LimitIs(size: nat, max_addresses: nat, max_pct: nat)
    ensures max_pct == 0 && max_addresses == 0 ==> Limit(size, max_addresses, max_pct) == size
    ensures max_pct == 0 && max_addresses > 0 ==> Limit(size, max_addresses, max_pct) == if size < max_addresses then size else max_addresses
    ensures max_pct > 0 ==> 100 * Limit(size, max_addresses, max_pct) <= max_pct * size
    ensures max_addresses > 0 ==> Limit(size, max_addresses, max_pct) <= max_addresses
    ensures max_pct > 0 && (max_addresses == 0 || Limit(size, max_addresses, max_pct) < max_addresses) ==>
              max_pct * size < 100 * (Limit(size, max_addresses, max_pct) + 1)
  {
    var share := max_pct * size;
    assert 100 * (share / 100) <= share < 100 * (share / 100 + 1);
  }

  /** Whether an entry may be handed out: of the wanted network, and not terrible. */
  predicate Wanted(w: World, info: AddrInfo, network: Network, now: int) {
    (network.AnyNetwork? || w.network(info.service.ip) == network.id) && !IsTerrible(info, now)
  }

  /** The addresses handed out after drawing the first n entries of random. */
  function Picked(w: World, info: map<Id, AddrInfo>, random: seq<Id>, n: nat, network: Network, now: int): seq<Address>
    requires n <= |random|
    requires forall k | 0 <= k < |random| :: random[k] in info
  {
    if n == 0 then [] else
      var last := info[random[n - 1]];
      Picked(w, info, random, n - 1, network, now)
      + if Wanted(w, last, network, now) then [Address(last.service, last.services, last.nTime)] else []
  }

  lemma {:induction false} PickedSame(w: World, s: State, t: State, n: nat, network: Network, now: int)
    requires SameButPositions(s.info, t.info) && n <= |s.random| == |t.random|
    requires forall k | 0 <= k < |s.random| :: s.random[k] in s.info
    requires forall k | 0 <= k < |t.random| :: t.random[k] in t.info
    requires forall k | 0 <= k < n :: s.random[k] == t.random[k]
    ensures Picked(w, s.info, s.random, n, network, now) == Picked(w, t.info, t.random, n, network, now)
  {
    if n > 0 {
      PickedSame(w, s, t, n - 1, network, now);
      assert SameEntry(s.info[s.random[n - 1]], t.info[t.random[n - 1]]);
    }
  }

  /** Swapping from position n on leaves what was handed out before. */
  lemma PickedSwap(w: World, s: State, n: nat, k: nat, network: Network, now: int)
    requires RandomOk(s.info, s.random) && n <= k < |s.random|
    ensures var t := SwapRandom(s, n, k);
            && |t.random| == |s.random|
            && (forall i | 0 <= i < |t.random| :: t.random[i] in t.info)
            && (forall i | 0 <= i < |s.random| :: s.random[i] in s.info)
            && Picked(w, t.info, t.random, n, network, now) == Picked(w, s.info, s.random, n, network, now)
  {
    SwapRandomOk(s, n, k);
    PickedSame(w, s, SwapRandom(s, n, k), n, network, now);
  }

  predicate PickedFrom(w: World, s: State, k: int, a: Address, network: Network, now: int)
    requires 0 <= k < |s.random|
  {
    && s.random[k] in s.info
    && var entry := s.info[s.random[k]];
       a == Address(entry.service, entry.services, entry.nTime) && Wanted(w, entry, network, now)
  }

  /** Every handed-out address belongs to a drawn, wanted entry. */
  lemma {:induction false} PickedWanted(w: World, s: State, n: nat, network: Network, now: int, i: nat) returns (k: nat)
    requires n <= |s.random|
    requires forall k | 0 <= k < |s.random| :: s.random[k] in s.info
    requires i < |Picked(w, s.info, s.random, n, network, now)|
    ensures k < n && PickedFrom(w, s, k, Picked(w, s.info, s.random, n, network, now)[i], network, now)
  {
    hide Wanted;
    if n == 0 {
      assert false;
    } else {
      if i < |Picked(w, s.info, s.random, n - 1, network, now)| {
        k := PickedWanted(w, s, n - 1, network, now, i);
      } else {
        k := n - 1;
      }
    }
  }

  /** No address is handed out twice. */
  lemma {:induction false} PickedOnce(w: World, s: State, n: nat, network: Network, now: int, i: nat, j: nat)
    requires Consistent(w, s) && n <= |s.random|
    requires forall k | 0 <= k < |s.random| :: s.random[k] in s.info
    requires i < j < |Picked(w, s.info, s.random, n, network, now)|
    ensures var out := Picked(w, s.info, s.random, n, network, now); out[i].service.ip != out[j].service.ip
  {
    hide RandomOk, AddrOk, NewOk, TriedOk, RefsOk, CountsOk, Wanted;
    if n == 0 {
      assert false;
    } else {
      if j < |Picked(w, s.info, s.random, n - 1, network, now)| {
        PickedOnce(w, s, n - 1, network, now, i, j);
      } else {
        var k := PickedWanted(w, s, n - 1, network, now, i);
        DistinctDraws(s, k, n - 1);
      }
    }
  }

  /** Every wanted entry that was drawn is handed out. */
  lemma {:induction false} PickedAll(w: World, s: State, n: nat, network: Network, now: int, k: nat) returns (i: nat)
    requires k < n <= |s.random|
    requires forall k | 0 <= k < |s.random| :: s.random[k] in s.info
    requires Wanted(w, s.info[s.random[k]], network, now)
    ensures var out := Picked(w, s.info, s.random, n, network, now);
            i < |out| && out[i].service == s.info[s.random[k]].service
  {
    hide Wanted;
    if k == n - 1 {
      i := |Picked(w, s.info, s.random, n - 1, network, now)|;
    } else {
      i := PickedAll(w, s, n - 1, network, now, k);
    }
  }

  lemma DrawNone(w: World, s: State, rnd: nat -> nat, network: Network, now: int)
    requires RandomOk(s.info, s.random)
    ensures forall k | 0 <= k < |s.random| :: s.random[k] in s.info
    ensures Shuffle(s, 0, rnd) == s && Picked(w, s.info, s.random, 0, network, now) == []
  {
  }

  lemma DrawnKnown(s: State)
    requires RandomOk(s.info, s.random)
    ensures forall k | 0 <= k < |s.random| :: s.random[k] in s.info
  {
  }

  lemma DistinctDraws(s: State, j: nat, k: nat)
    requires RandomOk(s.info, s.random) && AddrOk(s.info, s.addr)
    requires j < k < |s.random|
    ensures s.random[j] in s.info && s.random[k] in s.info
    ensures s.info[s.random[j]].service.ip != s.info[s.random[k]].service.ip
  {
    assert s.random[j] != s.random[k];
  }

  lemma ShuffleMore(s: State, n: nat, rnd: nat -> nat)
    requires RandomOk(s.info, s.random) && n < |s.random|
    ensures Shuffle(s, n + 1, rnd) == SwapRandom(Shuffle(s, n, rnd), n, Drawn(|s.random|, n, rnd(n)))
  {
  }

  /** One more round of drawing. */
  lemma DrawOne(w: World, s: State, n: nat, rnd: nat -> nat, network: Network, now: int)
    requires Consistent(w, s) && n < |s.random|
    ensures var t, t' := Shuffle(s, n, rnd), Shuffle(s, n + 1, rnd);
            && Consistent(w, t) && Consistent(w, t') && RandomOk(t.info, t.random)
            && t' == SwapRandom(t, n, Drawn(|s.random|, n, rnd(n)))
            && |t.random| == |t'.random| == |s.random|
            && (forall k | 0 <= k < |t.random| :: t.random[k] in t.info)
            && (forall k | 0 <= k < |t'.random| :: t'.random[k] in t'.info)
            && Picked(w, t'.info, t'.random, n + 1, network, now)
            == Picked(w, t.info, t.random, n, network, now)
             + var last := t'.info[t'.random[n]];
               if Wanted(w, last, network, now) then [Address(last.service, last.services, last.nTime)] else []
  {
    hide RandomOk, AddrOk, NewOk, TriedOk, RefsOk, CountsOk, Wanted, SwapRandom, SameButPositions, Shuffle, Drawn;
    ShuffleKeeps(w, s, n, rnd);
    ShuffleKeeps(w, s, n + 1, rnd);
    ShuffleMore(s, n, rnd);
    var t, t' := Shuffle(s, n, rnd), Shuffle(s, n + 1, rnd);
    DrawnKnown(t);
    DrawnKnown(t');
    PickedSwap(w, t, n, Drawn(|s.random|, n, rnd(n)), network, now);
  }

  /** What becomes of one pending collision. The clock is read up to three times;
      reading k returns clock(k). */
  function ResolveOne(w: World, m: Manager, id: Id, clock: nat -> int): Manager
    requires Consistent(w, m.tables)
  {
    var s := m.tables;
    var done := m.(collisions := m.collisions - {id});
    if id !in s.info then done else
      var entry := s.info[id];
      var slot := TriedSlot(w, s.key, s.asmap, entry.service);
      if !w.valid(entry.service.ip) then done
      else if slot !in s.triedAt then Good(w, done, entry.service, false, clock(0))
      else
        var occupant := s.info[s.triedAt[slot]];
        if clock(0) - occupant.nLastSuccess < REPLACEMENT_HOURS * (60 * 60) then done
        else if clock(1) - occupant.nLastTry < REPLACEMENT_HOURS * (60 * 60) then
          if clock(2) - occupant.nLastTry > 60 then Good(w, done, entry.service, false, clock(3)) else m
        else if clock(2) - entry.nLastSuccess > TEST_WINDOW then Good(w, done, entry.service, false, clock(3))
        else m
  }

  ghost predicate IsLeast(id: Id, ids: set<Id>) {
    id in ids && forall x <- ids :: id.n <= x.n
  }

  lemma HasLeast(ids: set<Id>)
    requires ids != {}
    ensures exists id :: IsLeast(id, ids)
  {
    var x :| x in ids;
    if ids == {x} {
      assert IsLeast(x, ids);
    } else {
      HasLeast(ids - {x});
      var y :| IsLeast(y, ids - {x});
      assert IsLeast(if x.n <= y.n then x else y, ids);
    }
  }

  ghost function LeastOf(ids: set<Id>): (id: Id)
    requires ids != {}
    ensures IsLeast(id, ids)
  {
    HasLeast(ids);
    var id :| IsLeast(id, ids);
    id
  }

  /** The pending collisions in rest, in ascending order. */
  ghost function ResolveAll(w: World, m: Manager, rest: set<Id>, clock: (Id, nat) -> int): Manager
    requires Consistent(w, m.tables)
    decreases |rest|
  {
    if rest == {} then m else
      var id := LeastOf(rest);
      var readings := (k: nat) => clock(id, k);
      ResolveOneKeeps(w, m, id, readings);
      ResolveAll(w, ResolveOne(w, m, id, readings), rest - {id}, clock)
  }

  lemma ResolveOneKeeps(w: World, m: Manager, id: Id, clock: nat -> int)
    requires Consistent(w, m.tables)
    ensures var m' := ResolveOne(w, m, id, clock);
            && Consistent(w, m'.tables)
            && Grows(m.tables, m'.tables)
            && m'.collisions <= m.collisions
  {
    hide RandomOk, AddrOk, NewOk, RefsOk, CountsOk;
    hide TriedSlot, Good, Grows;
    GrowsSelf(m.tables);
    if id in m.tables.info {
      var done := m.(collisions := m.collisions - {id});
      var a := m.tables.info[id].service;
      GoodKeeps(w, done, a, false, clock(0));
      GoodKeeps(w, done, a, false, clock(3));
      GoodCollisions(w, done, a, clock(0));
      GoodCollisions(w, done, a, clock(3));
    }
  }

  lemma GoodCommutes(w: World, m: Manager, a: Service, nTime: int, pending: set<Id>)
    requires Consistent(w, m.tables)
    ensures Good(w, m.(collisions := pending), a, false, nTime) == Good(w, m, a, false, nTime).(collisions := pending)
  {
    hide RandomOk, AddrOk, NewOk, TriedOk, RefsOk, CountsOk, TriedSlot, MakeTried;
  }

  lemma GoodCollisions(w: World, m: Manager, a: Service, nTime: int)
    requires Consistent(w, m.tables)
    ensures Good(w, m, a, false, nTime).collisions == m.collisions
  {
    hide RandomOk, AddrOk, NewOk, TriedOk, RefsOk, CountsOk;
  }

  lemma GrowsTwice(a: State, b: State, c: State)
    requires Grows(a, b) && Grows(b, c)
    ensures Grows(a, c)
  {
  }

  lemma ResolveAllKeeps(w: World, m: Manager, rest: set<Id>, clock: (Id, nat) -> int)
    requires Consistent(w, m.tables)
    ensures var m' := ResolveAll(w, m, rest, clock);
            && Consistent(w, m'.tables)
            && Grows(m.tables, m'.tables)
            && m'.collisions <= m.collisions
    decreases |rest|
  {
    GrowsSelf(m.tables);
    hide Consistent, ResolveOne, Grows;
    if rest != {} {
      var id := LeastOf(rest);
      var readings := (k: nat) => clock(id, k);
      ResolveOneKeeps(w, m, id, readings);
      ResolveAllKeeps(w, ResolveOne(w, m, id, readings), rest - {id}, clock);
      var m1 := ResolveOne(w, m, id, readings);
      GrowsTwice(m.tables, m1.tables, ResolveAll(w, m1, rest - {id}, clock).tables);
    }
  }

  // ----- looking at a collision --------------------------------------------

  /** What reading a missing entry plants. */
  const PLANTED := AddrInfo(Service(NetAddr(0), 0), {}, 0, NetAddr(0), 0, 0, 0, 0, 0, false, -1)

  /** The tried slot of a pending entry is occupied, if the entry is still there. */
  predicate Leads(w: World, s: State, id: Id) {
    id in s.info ==> TriedSlot(w, s.key, s.asmap, s.info[id].service) in s.triedAt
  }

  /** Looking up the occupant that the pending promotion of pick would replace: a number that
      stands for nothing is struck off, and an empty slot makes the lookup plant an entry. */
  function SelectCollision(w: World, m: Manager, pick: Id): Manager {
    if pick !in m.collisions then m
    else if pick !in m.tables.info then m.(collisions := m.collisions - {pick})
    else if Leads(w, m.tables, pick) then m
    else m.(tables := m.tables.(info := m.tables.info[NONE := PLANTED]))
  }

  /** So it keeps the tables consistent just when it does not come to an empty slot. */
  lemma SelectKeeps(w: World, m: Manager, pick: Id)
    requires Consistent(w, m.tables)
    ensures Consistent(w, SelectCollision(w, m, pick).tables) <==> pick in m.collisions ==> Leads(w, m.tables, pick)
    ensures (pick in m.collisions ==> Leads(w, m.tables, pick)) ==> SelectCollision(w, m, pick).tables == m.tables
  {
    hide RandomOk, AddrOk, NewOk, TriedOk, RefsOk, TriedSlot;
    assert NONE in m.tables.info[NONE := PLANTED] && NONE.n < 0;
  }

  // ----- runs --------------------------------------------------------------

  /** One call on the manager, with every clock reading and random draw it makes. */
  datatype Op =
    | OpAdd(a: Address, source: NetAddr, penalty: int, now1: int, now2: int, rnd: nat)
    | OpGood(s: Service, testBeforeEvict: bool, time: int)
    | OpAttempt(s: Service, countFailure: bool, time: int)
    | OpConnected(s: Service, time: int)
    | OpSetServices(s: Service, services: set<nat>)
    | OpGetAddr(rounds: nat, draws: nat -> nat)
    | OpResolveCollisions(clock: (Id, nat) -> int)
    | OpSelectCollision(pick: Id)

  ghost function Apply(w: World, m: Manager, op: Op): Manager
    requires Consistent(w, m.tables)
  {
    match op
    case OpAdd(a, source, penalty, now1, now2, rnd) =>
      m.(tables := Add(w, m.tables, a, source, penalty, now1, now2, rnd).0)
    case OpGood(a, test, time) => Good(w, m, a, test, time)
    case OpAttempt(a, count, time) => Attempt(m, a, count, time)
    case OpConnected(a, time) => m.(tables := Connected(m.tables, a, time))
    case OpSetServices(a, services) => m.(tables := SetServices(m.tables, a, services))
    case OpGetAddr(rounds, draws) =>
      m.(tables := if rounds <= |m.tables.random| then Shuffle(m.tables, rounds, draws) else m.tables)
    case OpResolveCollisions(clock) => ResolveAll(w, m, m.collisions, clock)
    case OpSelectCollision(pick) => SelectCollision(w, m, pick)
  }

  /** Every pending collision is with an occupied tried slot. */
  predicate CollisionsOk(w: World, m: Manager) {
    forall id <- m.collisions :: 0 <= id.n < m.tables.nIdCount && Leads(w, m.tables, id)
  }

  /** No call looks at a pending collision, or the pending collisions are sound. */
  ghost predicate Sound(w: World, m: Manager, ops: seq<Op>) {
    CollisionsOk(w, m) || forall op <- ops :: !op.OpSelectCollision?
  }

  /** The call does not come to an empty slot. */
  predicate Safe(w: World, m: Manager, op: Op) {
    op.OpSelectCollision? && op.pick in m.collisions ==> Leads(w, m.tables, op.pick)
  }

  lemma SoundStays(w: World, m: Manager, ops: seq<Op>)
    requires Consistent(w, m.tables) && Sound(w, m, ops) && ops != []
    ensures Safe(w, m, ops[0]) && Sound(w, Apply(w, m, ops[0]), ops[1..])
  {
    hide Consistent, Apply, Leads;
    if CollisionsOk(w, m) { ApplyKeepsCollisions(w, m, ops[0]); }
  }

  ghost function Run(w: World, m: Manager, ops: seq<Op>): Manager
    requires Consistent(w, m.tables) && Sound(w, m, ops)
    decreases |ops|
  {
    hide Consistent, Sound, Safe, Apply;
    if ops == [] then m else
      SoundStays(w, m, ops);
      ApplyKeeps(w, m, ops[0]);
      Run(w, Apply(w, m, ops[0]), ops[1..])
  }

  lemma ApplyKeeps(w: World, m: Manager, op: Op)
    requires Consistent(w, m.tables) && Safe(w, m, op)
    ensures Consistent(w, Apply(w, m, op).tables)
    ensures Grows(m.tables, Apply(w, m, op).tables)
  {
    hide RandomOk, AddrOk, NewOk, TriedOk, RefsOk, CountsOk;
    hide TriedSlot, Good, Add, Shuffle, ResolveAll, Grows, SelectCollision;
    var s := m.tables;
    GrowsSelf(s);
    match op
    case OpAdd(a, source, penalty, now1, now2, rnd) => AddKeeps(w, s, a, source, penalty, now1, now2, rnd);
    case OpGood(a, test, time) => GoodKeeps(w, m, a, test, time);
    case OpAttempt(a, count, time) =>
      if Knows(s, a) {
        TouchGrows(w, s, s.addr[a.ip], Attempted(s.info[s.addr[a.ip]], count, time, m.nLastGood));
      }
    case OpConnected(a, time) =>
      if Knows(s, a) {
        TouchGrows(w, s, s.addr[a.ip], Connected(s, a, time).info[s.addr[a.ip]]);
      }
    case OpSetServices(a, services) =>
      if Knows(s, a) {
        TouchGrows(w, s, s.addr[a.ip], s.info[s.addr[a.ip]].(services := services));
      }
    case OpGetAddr(rounds, draws) =>
      if rounds <= |s.random| {
        ShuffleGrows(w, s, rounds, draws);
      }
    case OpResolveCollisions(clock) => ResolveAllKeeps(w, m, m.collisions, clock);
    case OpSelectCollision(pick) => SelectKeeps(w, m, pick);
  }

  lemma TouchGrows(w: World, s: State, id: Id, entry: AddrInfo)
    requires Consistent(w, s)
    requires id in s.info && SameStanding(s.info[id], entry)
    ensures Consistent(w, Touch(s, id, entry)) && Grows(s, Touch(s, id, entry))
  {
    hide RandomOk, AddrOk, NewOk, TriedOk, RefsOk, CountsOk;
    TouchKeeps(w, s, id, entry, {});
  }

  lemma ShuffleGrows(w: World, s: State, n: nat, draws: nat -> nat)
    requires Consistent(w, s) && n <= |s.random|
    ensures Consistent(w, Shuffle(s, n, draws)) && Grows(s, Shuffle(s, n, draws))
  {
    hide RandomOk, AddrOk, NewOk, TriedOk, RefsOk, CountsOk;
    ShuffleKeeps(w, s, n, draws);
    var t := Shuffle(s, n, draws);
    assert forall id <- t.info :: id in s.info && SameEntry(s.info[id], t.info[id]);
  }

  /** The tables are consistent after every run, and no run ever empties a tried slot. */
  lemma {:induction false} RunKeeps(w: World, m: Manager, ops: seq<Op>)
    requires Consistent(w, m.tables) && Sound(w, m, ops)
    ensures Consistent(w, Run(w, m, ops).tables)
    ensures m.tables.triedAt.Keys <= Run(w, m, ops).tables.triedAt.Keys
    decreases |ops|
  {
    hide Consistent, Apply, Sound, Safe;
    if ops != [] {
      SoundStays(w, m, ops);
      ApplyKeeps(w, m, ops[0]);
      RunKeeps(w, Apply(w, m, ops[0]), ops[1..]);
    }
  }

  lemma CollisionsKept(w: World, m: Manager, m': Manager)
    requires CollisionsOk(w, m)
    requires Grows(m.tables, m'.tables) && m'.collisions <= m.collisions
    ensures CollisionsOk(w, m')
  {
    hide TriedSlot;
  }

  lemma ApplyKeepsCollisions(w: World, m: Manager, op: Op)
    requires Consistent(w, m.tables) && CollisionsOk(w, m)
    ensures CollisionsOk(w, Apply(w, m, op))
  {
    hide RandomOk, NewOk, TriedOk, RefsOk;
    hide TriedSlot, Good, ResolveAll, Add, Shuffle, Touch, SelectCollision;
    ApplyKeeps(w, m, op);
    var m' := Apply(w, m, op);
    if op.OpGood? && op.testBeforeEvict {
      GoodPends(w, m, op.s, op.time);
      CollisionsKept(w, m, m'.(collisions := m.collisions));
    } else {
      if op.OpGood? { GoodCollisions(w, m, op.s, op.time); }
      if op.OpResolveCollisions? { ResolveAllKeeps(w, m, m.collisions, op.clock); }
      if op.OpSelectCollision? { SelectStrikes(w, m, op.pick); }
      CollisionsKept(w, m, m');
    }
  }

  lemma SelectStrikes(w: World, m: Manager, pick: Id)
    ensures SelectCollision(w, m, pick).collisions <= m.collisions
  {
  }

  /** A promotion is deferred only when the tried slot is taken. */
  lemma GoodPends(w: World, m: Manager, a: Service, nTime: int)
    requires Consistent(w, m.tables)
    ensures var s := m.tables; var m' := Good(w, m, a, true, nTime);
            forall id <- m'.collisions | id !in m.collisions ::
              id in s.info && 0 <= id.n < s.nIdCount && id in m'.tables.info && m'.tables.info[id].service == s.info[id].service
              && TriedSlot(w, s.key, s.asmap, s.info[id].service) in m'.tables.triedAt
  {
    hide RandomOk, NewOk, TriedOk, RefsOk;
    hide TriedSlot, MakeTried;
  }

  /** From a fresh manager no run reaches a pending collision whose tried slot is
      empty, so the slot that SelectTriedCollision reads is never -1. */
  lemma {:induction false} RunKeepsCollisions(w: World, m: Manager, ops: seq<Op>)
    requires Consistent(w, m.tables) && CollisionsOk(w, m)
    ensures CollisionsOk(w, Run(w, m, ops))
    decreases |ops|
  {
    hide Consistent, CollisionsOk, Apply, Safe;
    if ops != [] {
      SoundStays(w, m, ops);
      ApplyKeeps(w, m, ops[0]);
      ApplyKeepsCollisions(w, m, ops[0]);
      RunKeepsCollisions(w, Apply(w, m, ops[0]), ops[1..]);
    }
  }

  lemma FreshIsConsistent(w: World, key: Key, asmap: seq<bool>)
    ensures Consistent(w, Empty(key, asmap))
    ensures CollisionsOk(w, Manager(Empty(key, asmap), 1, {}))
  {
    var s := Empty(key, asmap);
    assert TriedIds(s.info) == {} && NewIds(s.info) == {};
  }

  lemma FreshCollisions(w: World, key: Key, asmap: seq<bool>, pending: set<Id>)
    ensures CollisionsOk(w, Manager(Empty(key, asmap), 1, pending)) <==> pending == {}
  {
    if pending != {} {
      var id :| id in pending;
      assert id in Manager(Empty(key, asmap), 1, pending).collisions;
    }
  }

  /** Clearing the manager does not clear the pending collisions. Once numbers are
      given out again, a number left pending stands for an entry whose tried slot
      nobody occupies. */
  lemma StaleCollision(w: World, key: Key, asmap: seq<bool>, a: Address, source: NetAddr, now: int)
    requires w.routable(a.service.ip)
    ensures var cleared := Manager(Empty(key, asmap), 1, {Id(0)});
            Consistent(w, cleared.tables) && !CollisionsOk(w, cleared)
            && var s := Add(w, cleared.tables, a, source, 0, now, now, 0).0;
               Id(0) in s.info && TriedSlot(w, key, asmap, s.info[Id(0)].service) !in s.triedAt
  {
    hide RandomOk, AddrOk, NewOk, TriedOk, RefsOk, CountsOk;
    FreshIsConsistent(w, key, asmap);
    var s := Empty(key, asmap);
    AddKeeps(w, s, a, source, 0, now, now, 0);
    CreatedKeeps(w, s, a, source, 0);
    assert Id(0) in Manager(Empty(key, asmap), 1, {Id(0)}).collisions;
  }
}
