/** The cache entries of a stack of coin views, key by key. */
module CoinEntries {
  import opened Common

  datatype OutPoint = OutPoint(hash: nat, n: nat)

  /** An output with the height and kind of its transaction; nValue -1 stands for a
      spent coin. */
  datatype Coin = Coin(nValue: int, script: seq<nat>, nHeight: nat, coinBase: bool, coinStake: bool) {
    predicate IsSpent() { nValue == -1 }
  }

  const EMPTY_COIN := Coin(-1, [], 0, false, false)

  const OP_RETURN: nat := 0x6a
  const MAX_SCRIPT_SIZE: nat := 10000
  const DIRECT_SIZE: nat := 28

  predicate IsUnspendable(script: seq<nat>) {
    (|script| > 0 && script[0] == OP_RETURN) || |script| > MAX_SCRIPT_SIZE
  }

  /** What allocating that many bytes takes on a 64-bit system. */
  function MallocUsage(alloc: nat): nat {
    if alloc == 0 then 0 else (alloc + 31) / 16 * 16
  }

  /** The memory of the script, which is kept in place when short. */
  function Usage(coin: Coin): nat {
    if |coin.script| <= DIRECT_SIZE then 0 else MallocUsage(|coin.script|)
  }

  lemma EmptyTakesNothing()
    ensures Usage(EMPTY_COIN) == 0
  {
  }

  /** isDirty: may differ from the view below. isFresh: the view below has no such coin. */
  datatype CacheEntry = CacheEntry(coin: Coin, isDirty: bool, isFresh: bool)

  type CoinsMap = map<OutPoint, CacheEntry>

  function Lookup<V>(m: map<OutPoint, V>, op: OutPoint): Option<V> {
    if op in m then Some(m[op]) else None
  }

  /** The coin seen through an entry, or through the lack of one, over what is below. */
  function Seen(e: Option<CacheEntry>, below: Option<Coin>): Option<Coin> {
    match e
    case None => below
    case Some(e) => if e.coin.IsSpent() then None else Some(e.coin)
  }

  /** What the flags promise about the view below. */
  predicate EntryValid(e: CacheEntry, below: Option<Coin>) {
    && (e.isFresh ==> below == None)
    && (!e.isDirty ==> Seen(Some(e), below) == below)
  }

  predicate SlotValid(e: Option<CacheEntry>, below: Option<Coin>) {
    e.Some? ==> EntryValid(e.value, below)
  }

  /** The flag that BatchWrite throws for: fresh over a coin that is there. */
  predicate Misapplied(us: Option<CacheEntry>, child: CacheEntry) {
    child.isDirty && us.Some? && child.isFresh && !us.value.coin.IsSpent()
  }

  /** What becomes of our entry when a child's entry is written over it. */
  function Written(us: Option<CacheEntry>, child: CacheEntry): Option<CacheEntry> {
    if !child.isDirty then us
    else if us.None? then
      if child.isFresh && child.coin.IsSpent() then None
      else Some(CacheEntry(child.coin, true, child.isFresh))
    else if us.value.isFresh && child.coin.IsSpent() then None
    else Some(CacheEntry(child.coin, true, us.value.isFresh))
  }

  /** Writing a child's entry down shows, through ours, what the child showed; our flags
      stay right about what is below us; and the throw does not happen. */
  lemma WrittenKeeps(us: Option<CacheEntry>, child: CacheEntry, below: Option<Coin>)
    requires SlotValid(us, below) && EntryValid(child, Seen(us, below))
    ensures !Misapplied(us, child)
    ensures SlotValid(Written(us, child), below)
    ensures Seen(Written(us, child), below) == Seen(Some(child), Seen(us, below))
  {
  }

  /** A misapplied FRESH flag is not harmless where it is not noticed: spending the coin
      then brings the one below back. */
  lemma MisappliedResurfaces(e: CacheEntry, below: Coin)
    requires e.isFresh && !below.IsSpent()
    ensures !EntryValid(e, Some(below))
    ensures Seen(None, Some(below)) == Some(below) && Seen(Some(e.(coin := EMPTY_COIN)), Some(below)) == None
  {
  }

  /** The entry of a coin found below. */
  function Fetched(coin: Coin): CacheEntry {
    CacheEntry(coin, false, coin.IsSpent())
  }

  /** The entry of a coin that is added. */
  function Added(e: Option<CacheEntry>, coin: Coin, possibleOverwrite: bool): CacheEntry {
    match e
    case None => CacheEntry(coin, true, !possibleOverwrite)
    case Some(e) => CacheEntry(coin, true, e.isFresh || (!possibleOverwrite && !e.isDirty))
  }

  /** What becomes of the entry of a coin that is spent. */
  function Spent(e: CacheEntry): Option<CacheEntry> {
    if e.isFresh then None else Some(CacheEntry(EMPTY_COIN, true, false))
  }

  /** A coin that is created in some cache of a stack, written down any number of layers, and
      then spent in the lowest it has come to, or in any cache above it that is then written
      down, leaves no entry behind: the layers below never hear of it. */
  lemma {:induction false} SpentLeavesNoTrace(coin: Coin, layers: nat)
    requires !coin.IsSpent()
    ensures var e := WrittenDown(Added(None, coin, false), layers);
            && e.Some? && e.value.coin == coin
            && Spent(e.value) == None
            && forall above: nat :: Written(e, SpentAbove(coin, above)) == None
    decreases layers
  {
    if layers > 0 { SpentLeavesNoTrace(coin, layers - 1); }
    forall above: nat ensures SpentAbove(coin, above) == CacheEntry(EMPTY_COIN, true, false) {
      SpentAboveIs(coin, above);
    }
  }

  /** An entry after so many flushes, each to a layer without one. */
  function WrittenDown(e: CacheEntry, layers: nat): Option<CacheEntry> {
    if layers == 0 then Some(e) else
      var d := WrittenDown(e, layers - 1);
      if d.None? then None else Written(None, d.value)
  }

  /** The entry that comes down when a coin is fetched through so many more layers, spent at
      the top and written down again. */
  function SpentAbove(coin: Coin, above: nat): CacheEntry {
    if above == 0 then
      var e := Spent(Fetched(coin));
      if e.None? then Fetched(coin) else e.value
    else
      var e := Written(Some(Fetched(coin)), SpentAbove(coin, above - 1));
      if e.None? then Fetched(coin) else e.value
  }

  lemma {:induction false} SpentAboveIs(coin: Coin, above: nat)
    requires !coin.IsSpent()
    ensures SpentAbove(coin, above) == CacheEntry(EMPTY_COIN, true, false)
    decreases above
  {
    if above > 0 { SpentAboveIs(coin, above - 1); }
  }

  /** What was only read leaves the layer below as it is. */
  lemma ReadLeavesNoTrace(us: Option<CacheEntry>, coin: Coin)
    ensures Written(us, Fetched(coin)) == us && (Spent(Fetched(coin)) == None <==> coin.IsSpent())
  {
  }

  // ----- memory ------------------------------------------------------------

  ghost function TotalUsage(m: CoinsMap): nat
    decreases |m|
  {
    if m == map[] then 0 else
      var op :| op in m;
      Usage(m[op].coin) + TotalUsage(m - {op})
  }

  lemma {:induction false} UsageWithout(m: CoinsMap, op: OutPoint)
    requires op in m
    ensures TotalUsage(m) == Usage(m[op].coin) + TotalUsage(m - {op})
    decreases |m|
  {
    var x :| x in m && TotalUsage(m) == Usage(m[x].coin) + TotalUsage(m - {x});
    if x != op {
      UsageWithout(m - {x}, op);
      UsageWithout(m - {op}, x);
      assert m - {x} - {op} == m - {op} - {x};
    }
  }

  /** Storing an entry changes the total by what it takes instead of what was there. */
  lemma UsageStored(m: CoinsMap, op: OutPoint, e: CacheEntry)
    ensures TotalUsage(m[op := e]) ==
            TotalUsage(m) + Usage(e.coin) - (if op in m then Usage(m[op].coin) else 0)
  {
    UsageWithout(m[op := e], op);
    assert m[op := e] - {op} == m - {op};
    if op in m { UsageWithout(m, op); } else { assert m - {op} == m; }
  }
}

/** A stack of coin caches over the coin database. */
module Coins {
  import opened Common
  import opened CoinEntries

  class CoinsViewDB {
    var coins: map<OutPoint, Coin>

    constructor (coins: map<OutPoint, Coin>)
      ensures this.coins == coins
    {
      this.coins := coins;
    }

    ghost predicate Valid() reads this {
      forall op <- coins :: !coins[op].IsSpent()
    }

    /** Erases the spent, writes the others, and skips what is not dirty. */
    method BatchWrite(mapCoins: CoinsMap)
      requires Valid()
      modifies this
      ensures Valid()
      ensures forall op :: op !in mapCoins || !mapCoins[op].isDirty ==> Lookup(coins, op) == Lookup(old(coins), op)
      ensures forall op :: op in mapCoins && mapCoins[op].isDirty ==> Lookup(coins, op) == Seen(Some(mapCoins[op]), None)
    {
      var rest := mapCoins;
      while rest != map[]
        invariant Valid()
        invariant rest.Keys <= mapCoins.Keys && forall op <- rest :: rest[op] == mapCoins[op]
        invariant forall op :: op in rest || op !in mapCoins || !mapCoins[op].isDirty ==> Lookup(coins, op) == Lookup(old(coins), op)
        invariant forall op :: op in mapCoins && op !in rest && mapCoins[op].isDirty ==> Lookup(coins, op) == Seen(Some(mapCoins[op]), None)
        decreases |rest|
      {
        var op :| op in rest;
        var e := rest[op];
        if e.isDirty {
          if e.coin.IsSpent() {
            coins := coins - {op};
          } else {
            coins := coins[op := e.coin];
          }
        }
        rest := rest - {op};
      }
    }
  }

  /** What a cache stands on. */
  datatype Backing = Database(db: CoinsViewDB) | Cache(cache: CoinsViewCache)

  class CoinsViewCache {
    const base: Backing
    var cacheCoins: CoinsMap
    var cachedCoinsUsage: int
    ghost const depth: nat
    ghost const repr: set<object>

    /** The stack below ends in a database, and no object occurs in it twice. */
    ghost predicate Linked()
      decreases depth
    {
      && this in repr
      && match base
         case Database(db) => repr == {this, db}
         case Cache(c) => c.depth < depth && this !in c.repr && repr == {this} + c.repr && c.Linked()
    }

    /** The coin that the view below has at op. */
    ghost function BaseAt(op: OutPoint): Option<Coin>
      requires Linked()
      reads repr - {this}
      decreases depth, 0
    {
      match base
      case Database(db) => Lookup(db.coins, op)
      case Cache(c) => c.At(op)
    }

    /** The unspent coin at op, as the whole stack from here down has it. */
    ghost function At(op: OutPoint): Option<Coin>
      requires Linked()
      reads repr
      decreases depth, 1
    {
      Seen(Lookup(cacheCoins, op), BaseAt(op))
    }

    ghost predicate BaseValid()
      requires Linked()
      reads repr - {this}
      decreases depth, 0
    {
      match base
      case Database(db) => db.Valid()
      case Cache(c) => c.Valid()
    }

    /** The flags of every entry are right about the view below. */
    ghost predicate FlagsValid()
      requires Linked()
      reads repr
    {
      forall op :: SlotValid(Lookup(cacheCoins, op), BaseAt(op))
    }

    /** All but the flags is right. */
    ghost predicate Counted()
      reads repr
      decreases depth, 1
    {
      && Linked()
      && BaseValid()
      && cachedCoinsUsage == TotalUsage(cacheCoins)
    }

    ghost predicate Valid()
      reads repr
      decreases depth, 1
    {
      && Linked()
      && BaseValid()
      && FlagsValid()
      && cachedCoinsUsage == TotalUsage(cacheCoins)
    }

    ghost predicate SlotRight(op: OutPoint)
      requires Linked()
      reads repr
    {
      SlotValid(Lookup(cacheCoins, op), BaseAt(op))
    }

    constructor OverDatabase(db: CoinsViewDB)
      requires db.Valid()
      ensures Valid() && base == Database(db) && fresh(repr - {db})
      ensures forall op :: At(op) == Lookup(db.coins, op)
    {
      base := Database(db);
      cacheCoins, cachedCoinsUsage := map[], 0;
      depth := 0;
      repr := {this, db};
    }

    constructor OverCache(c: CoinsViewCache)
      requires c.Valid()
      ensures Valid() && base == Cache(c) && fresh(repr - c.repr)
      ensures forall op :: At(op) == c.At(op)
    {
      base := Cache(c);
      cacheCoins, cachedCoinsUsage := map[], 0;
      depth := c.depth + 1;
      repr := {this} + c.repr;
    }

    // ----- reads -------------------------------------------------------------

    /** What the view below answers: it may answer with a spent coin. */
    method BaseGetCoin(op: OutPoint) returns (r: Option<Coin>)
      requires Counted()
      modifies repr - {this}
      ensures Linked() && BaseValid()
      ensures forall o :: BaseAt(o) == old(BaseAt(o))
      ensures BaseAt(op) == (if r.Some? && !r.value.IsSpent() then r else None)
      decreases depth, 0
    {
      match base
      case Database(db) =>
        r := if op in db.coins then Some(db.coins[op]) else None;
      case Cache(c) =>
        r := c.GetCoin(op);
    }

    /** Brings the entry of op in, if the view below answers. */
    method FetchCoin(op: OutPoint) returns (found: bool)
      requires Counted()
      modifies repr
      ensures Counted() && (old(Valid()) ==> Valid())
      ensures forall o :: At(o) == old(At(o))
      ensures forall o :: BaseAt(o) == old(BaseAt(o))
      ensures forall o :: o != op ==> Lookup(cacheCoins, o) == Lookup(old(cacheCoins), o)
      ensures op in old(cacheCoins) ==> cacheCoins == old(cacheCoins)
      ensures op !in old(cacheCoins) ==> SlotRight(op)
      ensures found <==> op in cacheCoins
      ensures found && op !in old(cacheCoins) ==> cacheCoins[op] == Fetched(cacheCoins[op].coin)
      ensures !found ==> At(op) == None
      decreases depth, 1
    {
      if op in cacheCoins { return true; }
      ghost var cached := cacheCoins;
      var r := BaseGetCoin(op);
      if r.None? { return false; }
      UsageStored(cacheCoins, op, Fetched(r.value));
      cacheCoins := cacheCoins[op := CacheEntry(r.value, false, r.value.IsSpent())];
      cachedCoinsUsage := cachedCoinsUsage + Usage(r.value);
      found := true;
      if old(FlagsValid()) {
        forall o ensures SlotValid(Lookup(cacheCoins, o), BaseAt(o)) {
          if o != op { assert SlotValid(Lookup(cached, o), old(BaseAt(o))); }
        }
      }
    }

    method GetCoin(op: OutPoint) returns (r: Option<Coin>)
      requires Valid()
      modifies repr
      ensures Valid()
      ensures forall o :: At(o) == old(At(o))
      ensures At(op) == (if r.Some? && !r.value.IsSpent() then r else None)
      decreases depth, 2
    {
      var found := FetchCoin(op);
      r := if found then Some(cacheCoins[op].coin) else None;
    }

    /** The coin at op, or an empty one. */
    method AccessCoin(op: OutPoint) returns (coin: Coin)
      requires Valid()
      modifies repr
      ensures Valid()
      ensures forall o :: At(o) == old(At(o))
      ensures At(op) == (if coin.IsSpent() then None else Some(coin))
    {
      var found := FetchCoin(op);
      coin := if found then cacheCoins[op].coin else EMPTY_COIN;
    }

    method HaveCoin(op: OutPoint) returns (have: bool)
      requires Counted()
      modifies repr
      ensures Counted() && (old(Valid()) ==> Valid())
      ensures forall o :: At(o) == old(At(o))
      ensures forall o :: BaseAt(o) == old(BaseAt(o))
      ensures forall o :: o != op ==> Lookup(cacheCoins, o) == Lookup(old(cacheCoins), o)
      ensures op in old(cacheCoins) ==> cacheCoins == old(cacheCoins)
      ensures op !in old(cacheCoins) ==> SlotRight(op)
      ensures have <==> At(op).Some?
      ensures have ==> op in cacheCoins
    {
      var found := FetchCoin(op);
      have := found && !cacheCoins[op].coin.IsSpent();
    }

    // ----- writes ------------------------------------------------------------

    /** Stores the coin. Without possible_overwrite the new entry is marked fresh unless it
        was dirty: right exactly if the coin was cached or is not in the view below. The
        throw leaves the memory count short of the coin it did not replace. */
    method AddCoin(op: OutPoint, coin: Coin, possibleOverwrite: bool) returns (thrown: bool)
      requires Counted() && !coin.IsSpent()
      modifies this
      ensures thrown <==> !IsUnspendable(coin.script) && !possibleOverwrite && op in old(cacheCoins) && !old(cacheCoins)[op].coin.IsSpent()
      ensures thrown ==> cacheCoins == old(cacheCoins) && cachedCoinsUsage == TotalUsage(cacheCoins) - Usage(cacheCoins[op].coin)
      ensures !thrown ==> Counted()
      ensures Linked() && forall o :: BaseAt(o) == old(BaseAt(o))
      ensures forall o :: o != op ==> Lookup(cacheCoins, o) == Lookup(old(cacheCoins), o)
      ensures !thrown && !IsUnspendable(coin.script) ==>
                Lookup(cacheCoins, op) == Some(Added(Lookup(old(cacheCoins), op), coin, possibleOverwrite))
      ensures forall o :: At(o) == (if o == op && !thrown && !IsUnspendable(coin.script) then Some(coin) else old(At(o)))
      ensures old(SlotRight(op)) ==>
                (SlotRight(op) <==>
                 thrown || IsUnspendable(coin.script) || possibleOverwrite || op in old(cacheCoins) || old(BaseAt(op)) == None)
      ensures old(Valid()) ==>
                (Valid() <==>
                 if thrown then Usage(cacheCoins[op].coin) == 0
                 else IsUnspendable(coin.script) || possibleOverwrite || op in old(cacheCoins) || old(BaseAt(op)) == None)
    {
      hide IsUnspendable, Usage, TotalUsage, BaseValid;
      if IsUnspendable(coin.script) { return false; }
      ghost var cached := cacheCoins;
      var e := CacheEntry(EMPTY_COIN, false, false);
      if op in cacheCoins {
        e := cacheCoins[op];
        cachedCoinsUsage := cachedCoinsUsage - Usage(e.coin);
      }
      var isFresh := false;
      if !possibleOverwrite {
        if !e.coin.IsSpent() { return true; }
        isFresh := !e.isDirty;
      }
      UsageStored(cacheCoins, op, CacheEntry(coin, true, e.isFresh || isFresh));
      cacheCoins := cacheCoins[op := CacheEntry(coin, true, e.isFresh || isFresh)];
      cachedCoinsUsage := cachedCoinsUsage + Usage(coin);
      thrown := false;
      if old(FlagsValid()) {
        forall o | o != op ensures SlotValid(Lookup(cacheCoins, o), BaseAt(o)) {
          assert SlotValid(Lookup(cached, o), old(BaseAt(o)));
        }
        assert SlotValid(Lookup(cached, op), old(BaseAt(op)));
        assert FlagsValid() <==> SlotValid(Lookup(cacheCoins, op), BaseAt(op));
      }
    }

    /** Removes the coin; moved is what was there. */
    method SpendCoin(op: OutPoint) returns (moved: Option<Coin>)
      requires Counted() && SlotRight(op)
      modifies repr
      ensures Counted() && SlotRight(op) && (old(Valid()) ==> Valid())
      ensures forall o :: BaseAt(o) == old(BaseAt(o))
      ensures forall o :: o != op ==> Lookup(cacheCoins, o) == Lookup(old(cacheCoins), o)
      ensures forall o :: At(o) == if o == op then None else old(At(o))
      ensures old(At(op)) == (if moved.Some? && !moved.value.IsSpent() then moved else None)
      ensures Lookup(cacheCoins, op) ==
              if op in old(cacheCoins) then Spent(old(cacheCoins)[op]) else if moved.Some? then Spent(Fetched(moved.value)) else None
    {
      hide Usage, TotalUsage, BaseValid;
      var found := FetchCoin(op);
      if !found { return None; }
      ghost var cached := cacheCoins;
      label fetched:
      var e := cacheCoins[op];
      cachedCoinsUsage := cachedCoinsUsage - Usage(e.coin);
      moved := Some(e.coin);
      assert Usage(EMPTY_COIN) == 0 by { EmptyTakesNothing(); }
      UsageWithout(cacheCoins, op);
      if e.isFresh {
        cacheCoins := cacheCoins - {op};
      } else {
        UsageStored(cacheCoins, op, CacheEntry(EMPTY_COIN, true, false));
        cacheCoins := cacheCoins[op := CacheEntry(EMPTY_COIN, true, false)];
      }
      forall o ensures At(o) == if o == op then None else old(At(o)) {
        assert BaseAt(o) == old@fetched(BaseAt(o)) && old@fetched(At(o)) == old(At(o));
      }
      if old(FlagsValid()) {
        forall o ensures SlotValid(Lookup(cacheCoins, o), BaseAt(o)) {
          assert SlotValid(Lookup(cached, o), old@fetched(BaseAt(o)));
        }
      }
    }

    /** Forgets the coin if it was not modified. */
    method Uncache(op: OutPoint)
      requires Valid()
      modifies this
      ensures Valid()
      ensures forall o :: At(o) == old(At(o))
      ensures cacheCoins == if op in old(cacheCoins) && !old(cacheCoins)[op].isDirty && !old(cacheCoins)[op].isFresh
                            then old(cacheCoins) - {op} else old(cacheCoins)
    {
      if op in cacheCoins && !cacheCoins[op].isDirty && !cacheCoins[op].isFresh {
        ghost var cached := cacheCoins;
        assert SlotValid(Lookup(cached, op), BaseAt(op));
        UsageWithout(cacheCoins, op);
        cachedCoinsUsage := cachedCoinsUsage - Usage(cacheCoins[op].coin);
        cacheCoins := cacheCoins - {op};
        forall o ensures SlotValid(Lookup(cacheCoins, o), BaseAt(o)) {
          assert SlotValid(Lookup(cached, o), old(BaseAt(o)));
        }
      }
    }

    method WriteOne(op: OutPoint, child: CacheEntry) returns (thrown: bool)
      requires cachedCoinsUsage == TotalUsage(cacheCoins)
      modifies this
      ensures thrown <==> Misapplied(Lookup(old(cacheCoins), op), child)
      ensures !thrown ==> cachedCoinsUsage == TotalUsage(cacheCoins)
      ensures !thrown ==> Lookup(cacheCoins, op) == Written(Lookup(old(cacheCoins), op), child)
      ensures forall o :: o != op ==> Lookup(cacheCoins, o) == Lookup(old(cacheCoins), o)
    {
      thrown := false;
      if !child.isDirty { return; }
      if op !in cacheCoins {
        if !(child.isFresh && child.coin.IsSpent()) {
          UsageStored(cacheCoins, op, CacheEntry(child.coin, true, child.isFresh));
          cacheCoins := cacheCoins[op := CacheEntry(child.coin, true, child.isFresh)];
          cachedCoinsUsage := cachedCoinsUsage + Usage(child.coin);
        }
      } else {
        var us := cacheCoins[op];
        if child.isFresh && !us.coin.IsSpent() { return true; }
        if us.isFresh && child.coin.IsSpent() {
          UsageWithout(cacheCoins, op);
          cachedCoinsUsage := cachedCoinsUsage - Usage(us.coin);
          cacheCoins := cacheCoins - {op};
        } else {
          UsageStored(cacheCoins, op, CacheEntry(child.coin, true, us.isFresh));
          cachedCoinsUsage := cachedCoinsUsage - Usage(us.coin) + Usage(child.coin);
          cacheCoins := cacheCoins[op := CacheEntry(child.coin, true, us.isFresh)];
        }
      }
    }

    method WriteAll(mapCoins: CoinsMap) returns (thrown: bool)
      requires Valid()
      modifies this
      ensures thrown <==> exists op :: op in mapCoins && Misapplied(Lookup(old(cacheCoins), op), mapCoins[op])
      ensures !thrown ==>
        && cachedCoinsUsage == TotalUsage(cacheCoins)
        && forall op :: Lookup(cacheCoins, op) ==
             if op in mapCoins then Written(Lookup(old(cacheCoins), op), mapCoins[op]) else Lookup(old(cacheCoins), op)
    {
      hide TotalUsage, Usage, Written, Misapplied;
      var rest := mapCoins;
      while rest != map[]
        invariant rest.Keys <= mapCoins.Keys && forall op <- rest :: rest[op] == mapCoins[op]
        invariant cachedCoinsUsage == TotalUsage(cacheCoins)
        invariant forall op :: Lookup(cacheCoins, op) == (if op in mapCoins && op !in rest
          then Written(Lookup(old(cacheCoins), op), mapCoins[op]) else Lookup(old(cacheCoins), op))
        invariant forall op :: op in mapCoins && op !in rest ==> !Misapplied(Lookup(old(cacheCoins), op), mapCoins[op])
        decreases |rest|
      {
        var op :| op in rest;
        assert Lookup(cacheCoins, op) == Lookup(old(cacheCoins), op);
        var bad := WriteOne(op, rest[op]);
        if bad { return true; }
        rest := rest - {op};
      }
      thrown := false;
    }

    /** Takes over the entries of a child. It throws exactly if some entry is marked fresh
        over a coin that is here. With a child whose flags are right it never throws,
        leaves every flag right, and shows what the child showed. */
    method BatchWrite(mapCoins: CoinsMap) returns (thrown: bool)
      requires Valid()
      modifies this
      ensures thrown <==> exists op :: op in mapCoins && Misapplied(Lookup(old(cacheCoins), op), mapCoins[op])
      ensures (forall op <- mapCoins :: EntryValid(mapCoins[op], old(At(op)))) ==>
                !thrown && Valid() && forall op :: At(op) == Seen(Lookup(mapCoins, op), old(At(op)))
    {
      hide Usage, TotalUsage;
      ghost var cached := cacheCoins;
      forall op | op in mapCoins && EntryValid(mapCoins[op], At(op))
        ensures !Misapplied(Lookup(cached, op), mapCoins[op])
        ensures SlotValid(Written(Lookup(cached, op), mapCoins[op]), BaseAt(op))
        ensures Seen(Written(Lookup(cached, op), mapCoins[op]), BaseAt(op)) == Seen(Some(mapCoins[op]), At(op))
      {
        assert SlotValid(Lookup(cached, op), BaseAt(op));
        WrittenKeeps(Lookup(cached, op), mapCoins[op], BaseAt(op));
      }
      thrown := WriteAll(mapCoins);
      if forall op <- mapCoins :: EntryValid(mapCoins[op], old(At(op))) {
        assert !thrown;
        forall op
          ensures SlotValid(Lookup(cacheCoins, op), BaseAt(op))
          ensures At(op) == Seen(Lookup(mapCoins, op), old(At(op)))
        {
          assert BaseAt(op) == old(BaseAt(op)) && SlotValid(Lookup(cached, op), old(BaseAt(op)));
        }
      }
    }

    /** Moves everything into the view below, which then shows what this view showed. */
    method Flush()
      requires Valid()
      modifies repr
      ensures Valid() && cacheCoins == map[] && cachedCoinsUsage == 0
      ensures forall op :: At(op) == old(At(op))
      ensures forall op :: BaseAt(op) == old(At(op))
    {
      ghost var cached := cacheCoins;
      match base {
        case Database(db) =>
          db.BatchWrite(cacheCoins);
          forall op ensures Lookup(db.coins, op) == old(At(op)) {
            assert SlotValid(Lookup(cached, op), old(BaseAt(op)));
          }
        case Cache(c) =>
          forall op ensures op in cacheCoins ==> EntryValid(cacheCoins[op], c.At(op)) {
            assert SlotValid(Lookup(cached, op), BaseAt(op));
          }
          var thrown := c.BatchWrite(cacheCoins);
      }
      cacheCoins := map[];
      cachedCoinsUsage := 0;
    }

  }
}
