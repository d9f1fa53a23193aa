/** Runs of operations on a stack of coin caches. */
module CoinsRuns {
  import opened Common
  import opened CoinEntries
  import opened Coins

  datatype Op =
    | Add(op: OutPoint, coin: Coin, mayOverwrite: bool)
    | Spend(op: OutPoint)
    | Access(op: OutPoint)
    | Have(op: OutPoint)
    | Uncache(op: OutPoint)
    | Flush
    | Push
    | FlushAndPop

  /** What an operation does to one plain map of unspent coins. */
  function Apply(m: map<OutPoint, Coin>, o: Op): map<OutPoint, Coin> {
    match o
    case Add(op, coin, _) => if coin.IsSpent() || IsUnspendable(coin.script) then m else m[op := coin]
    case Spend(op) => m - {op}
    case _ => m
  }

  function Run(m: map<OutPoint, Coin>, ops: seq<Op>): map<OutPoint, Coin> {
    if ops == [] then m else Apply(Run(m, ops[..|ops| - 1]), ops[|ops| - 1])
  }

  /** Any run over a stack of any depth, with caches pushed on it and flushed off it, shows
      what the run makes of one plain map. An addition that may not overwrite asks first whether the coin
      is there, as a caller has to. */
  method Simulate(start: CoinsViewCache, ghost m: map<OutPoint, Coin>, ops: seq<Op>) returns (top: CoinsViewCache)
    requires start.Valid() && forall op :: start.At(op) == Lookup(m, op)
    modifies start.repr
    ensures top.Valid() && fresh(top.repr - start.repr)
    ensures forall op :: top.At(op) == Lookup(Run(m, ops), op)
  {
    top := start;
    assert ops[..0] == [];
    for i := 0 to |ops|
      invariant top.Valid() && fresh(top.repr - start.repr)
      invariant forall op :: top.At(op) == Lookup(Run(m, ops[..i]), op)
    {
      assert ops[..i + 1][..i] == ops[..i];
      ghost var before := Run(m, ops[..i]);
      top := Step(top, before, ops[i]);
    }
    assert ops[..|ops|] == ops;
  }

  method OnTop(c: CoinsViewCache) returns (top: CoinsViewCache)
    requires c.Valid()
    ensures top.Valid() && fresh(top.repr - c.repr)
    ensures forall op :: top.At(op) == c.At(op)
  {
    top := new CoinsViewCache.OverCache(c);
  }

  method Step(start: CoinsViewCache, ghost m: map<OutPoint, Coin>, o: Op) returns (top: CoinsViewCache)
    requires start.Valid() && forall op :: start.At(op) == Lookup(m, op)
    modifies start.repr
    ensures top.Valid() && fresh(top.repr - start.repr)
    ensures forall op :: top.At(op) == Lookup(Apply(m, o), op)
  {
    top := start;
    match o {
      case Add(op, coin, mayOverwrite) =>
        if !coin.IsSpent() {
          var overwrite := mayOverwrite;
          if !overwrite { overwrite := top.HaveCoin(op); }
          var thrown := top.AddCoin(op, coin, overwrite);
        }
      case Spend(op) =>
        var moved := top.SpendCoin(op);
      case Access(op) =>
        var coin := top.AccessCoin(op);
      case Have(op) =>
        var have := top.HaveCoin(op);
      case Uncache(op) =>
        top.Uncache(op);
      case Flush =>
        top.Flush();
      case Push =>
        top := OnTop(top);
      case FlushAndPop =>
        top.Flush();
        match top.base {
          case Cache(c) => top := c;
          case Database(_) =>
        }
    }
  }

  /** The coin that an output of a transaction becomes. */
  function OutputCoin(out: Coin, nHeight: nat, coinBase: bool, coinStake: bool): Coin {
    out.(nHeight := nHeight, coinBase := coinBase, coinStake := coinStake)
  }

  /** The cache itself has an unspent coin at op. */
  predicate Holds(cached: CoinsMap, op: OutPoint) {
    op in cached && !cached[op].coin.IsSpent()
  }

  /** An output that AddCoins stores. */
  predicate Stored(hash: nat, vout: seq<Coin>, banned: set<OutPoint>, i: nat)
    requires i < |vout|
  {
    OutPoint(hash, i) !in banned && !IsUnspendable(vout[i].script)
  }

  /** Adds one output, whose entry so far is right about the view below. */
  method AddOutput(cache: CoinsViewCache, op: OutPoint, coin: Coin, check: bool, isBanned: bool) returns (thrown: bool)
    requires cache.Counted() && cache.SlotRight(op) && !coin.IsSpent()
    modifies cache.repr
    ensures cache.Linked() && (!thrown ==> cache.Counted())
    ensures forall o :: cache.BaseAt(o) == old(cache.BaseAt(o))
    ensures forall o :: o != op ==> Lookup(cache.cacheCoins, o) == Lookup(old(cache.cacheCoins), o)
    ensures thrown <==> !check && !isBanned && !IsUnspendable(coin.script) && Holds(old(cache.cacheCoins), op)
    ensures forall o :: cache.At(o) ==
              if o != op || thrown then old(cache.At(o))
              else if isBanned then None else if IsUnspendable(coin.script) then old(cache.At(o)) else Some(coin)
    ensures cache.SlotRight(op) <==>
              thrown || isBanned || IsUnspendable(coin.script) || check
              || op in old(cache.cacheCoins) || old(cache.BaseAt(op)) == None
  {
    thrown := false;
    if isBanned {
      var moved := cache.SpendCoin(op);
    } else {
      var overwrite := false;
      if check { overwrite := cache.HaveCoin(op); }
      thrown := cache.AddCoin(op, coin, overwrite);
    }
  }

  /** Adds the outputs of a transaction up to upTo, which is all of them unless it throws.
      Without check it throws for the first stored output whose coin is cached, and otherwise
      leaves the flags right exactly if no stored output hides a coin of the view below. */
  method AddCoins(cache: CoinsViewCache, hash: nat, vout: seq<Coin>, nHeight: nat, coinBase: bool, coinStake: bool,
                  check: bool, banned: set<OutPoint>)
    returns (thrown: bool, ghost upTo: nat)
    requires cache.Valid() && forall i :: 0 <= i < |vout| ==> !vout[i].IsSpent()
    modifies cache.repr
    ensures cache.Linked() && upTo <= |vout| && (thrown <==> upTo < |vout|)
    ensures forall i :: 0 <= i < upTo ==>
              cache.At(OutPoint(hash, i)) ==
                if OutPoint(hash, i) in banned then None
                else if IsUnspendable(vout[i].script) then old(cache.At(OutPoint(hash, i)))
                else Some(OutputCoin(vout[i], nHeight, coinBase, coinStake))
    ensures forall op: OutPoint :: (op.hash != hash || op.n >= upTo) ==> cache.At(op) == old(cache.At(op))
    ensures forall i :: 0 <= i < upTo && Stored(hash, vout, banned, i) && !check ==> !Holds(old(cache.cacheCoins), OutPoint(hash, i))
    ensures thrown ==> !check && Stored(hash, vout, banned, upTo) && Holds(old(cache.cacheCoins), OutPoint(hash, upTo))
    ensures !thrown ==>
              (cache.Valid() <==> check || forall i :: 0 <= i < |vout| && Stored(hash, vout, banned, i) ==>
                                    OutPoint(hash, i) in old(cache.cacheCoins) || old(cache.BaseAt(OutPoint(hash, i))) == None)
  {
    hide IsUnspendable, TotalUsage, Seen, SlotValid;
    for i := 0 to |vout|
      invariant cache.Counted()
      invariant forall op: OutPoint :: cache.BaseAt(op) == old(cache.BaseAt(op))
      invariant forall op: OutPoint :: (op.hash != hash || op.n >= i) ==>
                  Lookup(cache.cacheCoins, op) == Lookup(old(cache.cacheCoins), op) && cache.At(op) == old(cache.At(op))
      invariant forall k :: 0 <= k < i ==>
        cache.At(OutPoint(hash, k)) == (
          if OutPoint(hash, k) in banned then None
          else if IsUnspendable(vout[k].script) then old(cache.At(OutPoint(hash, k)))
          else Some(OutputCoin(vout[k], nHeight, coinBase, coinStake)))
      invariant forall k :: 0 <= k < i && Stored(hash, vout, banned, k) && !check ==> !Holds(old(cache.cacheCoins), OutPoint(hash, k))
      invariant forall k :: 0 <= k < i ==>
                  (cache.SlotRight(OutPoint(hash, k)) <==>
                   check || !Stored(hash, vout, banned, k)
                   || OutPoint(hash, k) in old(cache.cacheCoins) || old(cache.BaseAt(OutPoint(hash, k))) == None)
    {
      thrown := AddOutput(cache, OutPoint(hash, i), OutputCoin(vout[i], nHeight, coinBase, coinStake), check, OutPoint(hash, i) in banned);
      if thrown { return true, i; }
    }
    thrown, upTo := false, |vout|;
  }
}
