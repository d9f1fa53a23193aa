/** Iteration over a transaction: two cursors, one over the pending writes and one over the
    parent, merged as they go. */
module DBIterator {
  import opened Common
  import opened KeyOrder
  import opened DBOverlay
  import opened DBTransaction

  class CDBTransactionIterator {
    /** What the transaction holds and what its parent shows while the iterator is in use. */
    const writes: map<Key, Value>
    const deletes: set<Key>
    const parentData: map<Key, Value>
    /** Their keys in order. */
    const txKeys: seq<Key>
    const parentKeys: seq<Key>

    var transactionIt: nat
    var parentIt: nat
    var parentKey: Key
    var curIsParent: bool

    ghost predicate Shape() {
      Lists(txKeys, writes.Keys) && Lists(parentKeys, parentData.Keys) && writes.Keys !! deletes
    }

    /** Both cursors are in range, and the parent's is not on a key that the transaction
        deletes or writes. */
    ghost predicate Skipped()
      reads this
    {
      && Shape() && transactionIt <= |txKeys| && parentIt <= |parentKeys|
      && (parentIt < |parentKeys| ==> parentKey == parentKeys[parentIt] && parentKey !in deletes && parentKey !in writes)
    }

    /** The cursor with the smaller key is the current one. */
    ghost predicate Decided()
      reads this
    {
      && Skipped()
      && (curIsParent && AtSome() ==> parentIt < |parentKeys| && (transactionIt < |txKeys| ==> Less(parentKey, txKeys[transactionIt])))
      && (!curIsParent && AtSome() ==> transactionIt < |txKeys| && (parentIt < |parentKeys| ==> Less(txKeys[transactionIt], parentKey)))
    }

    /** Valid() of the original: whether there is a current key. */
    predicate AtSome() reads this {
      transactionIt < |txKeys| || parentIt < |parentKeys|
    }

    /** What the transaction shows at k. */
    function Shows(k: Key): Option<Value> {
      Over(writes, deletes, k, Lookup(parentData, k))
    }

    ghost predicate WriteAhead(k: Key) reads this {
      exists i :: transactionIt <= i < |txKeys| && txKeys[i] == k
    }

    ghost predicate ParentAhead(k: Key) reads this {
      k !in deletes && k !in writes && exists j :: parentIt <= j < |parentKeys| && parentKeys[j] == k
    }

    /** The key is still to come. */
    ghost predicate Ahead(k: Key) reads this {
      WriteAhead(k) || ParentAhead(k)
    }

    constructor (tx: CDBTransaction, parentData: map<Key, Value>)
      requires tx.Valid() && forall k :: tx.ParentAt(k) == Lookup(parentData, k)
      ensures Decided() && !AtSome()
      ensures forall k :: Shows(k) == tx.At(k)
    {
      writes, deletes, this.parentData := tx.writes, tx.deletes, parentData;
      var ts := InOrder(tx.writes.Keys);
      var ps := InOrder(parentData.Keys);
      txKeys, parentKeys := ts, ps;
      transactionIt, parentIt := |ts|, |ps|;
      parentKey, curIsParent := Key([]), false;
    }

    method SkipDeletedAndOverwritten()
      requires Shape() && transactionIt <= |txKeys| && parentIt <= |parentKeys|
      modifies this`parentIt, this`parentKey
      ensures Skipped() && parentIt >= old(parentIt)
      ensures forall k :: Ahead(k) <==> old(Ahead(k))
    {
      while parentIt < |parentKeys|
        invariant old(parentIt) <= parentIt <= |parentKeys|
        invariant forall j :: old(parentIt) <= j < parentIt ==> parentKeys[j] in deletes || parentKeys[j] in writes
        decreases |parentKeys| - parentIt
      {
        parentKey := parentKeys[parentIt];
        if parentKey !in deletes && parentKey !in writes { break; }
        parentIt := parentIt + 1;
      }
    }

    method DecideCur()
      requires Skipped()
      modifies this`curIsParent
      ensures Decided()
      ensures forall k :: Ahead(k) <==> old(Ahead(k))
    {
      if transactionIt < |txKeys| && parentIt == |parentKeys| {
        curIsParent := false;
      } else if transactionIt == |txKeys| && parentIt < |parentKeys| {
        curIsParent := true;
      } else if transactionIt < |txKeys| && parentIt < |parentKeys| {
        Total(txKeys[transactionIt], parentKey);
        assert txKeys[transactionIt] in writes.Keys;
        if Less(txKeys[transactionIt], parentKey) { curIsParent := false; } else { curIsParent := true; }
      }
    }

    /** Moves to the least key not below k. */
    method Seek(k: Key)
      requires Shape()
      modifies this
      ensures Decided()
      ensures forall x :: Ahead(x) <==> Shows(x).Some? && !Less(x, k)
    {
      transactionIt := LowerBound(txKeys, k);
      parentIt := LowerBound(parentKeys, k);
      AheadFrom(k);
      SkipDeletedAndOverwritten();
      DecideCur();
    }

    method SeekToFirst()
      requires Shape()
      modifies this
      ensures Decided()
      ensures forall x :: Ahead(x) <==> Shows(x).Some?
    {
      transactionIt := 0;
      parentIt := 0;
      SkipDeletedAndOverwritten();
      DecideCur();
    }

    lemma AheadFrom(k: Key)
      requires Shape() && transactionIt <= |txKeys| && parentIt <= |parentKeys|
      requires forall j :: 0 <= j < |txKeys| ==> (j < transactionIt <==> Less(txKeys[j], k))
      requires forall j :: 0 <= j < |parentKeys| ==> (j < parentIt <==> Less(parentKeys[j], k))
      ensures forall x :: Ahead(x) <==> Shows(x).Some? && !Less(x, k)
    {
    }

    function Cur(): Key
      requires transactionIt <= |txKeys| && AtSome() && (!curIsParent ==> transactionIt < |txKeys|)
      reads this
    {
      if curIsParent then parentKey else txKeys[transactionIt]
    }

    /** The current key is the least of those to come. */
    lemma CurIsLeast()
      requires Decided() && AtSome()
      ensures Ahead(Cur()) && Shows(Cur()).Some?
      ensures forall x :: Ahead(x) && x != Cur() ==> Less(Cur(), x)
    {
      forall x | Ahead(x) && x != Cur() ensures Less(Cur(), x) {
        if WriteAhead(x) {
          var i :| transactionIt <= i < |txKeys| && txKeys[i] == x;
          if curIsParent && i != transactionIt { Transitive(parentKey, txKeys[transactionIt], x); }
        } else {
          var j :| parentIt <= j < |parentKeys| && parentKeys[j] == x;
          if !curIsParent && j != parentIt { Transitive(txKeys[transactionIt], parentKey, x); }
        }
      }
    }

    /** Moves past the current key. */
    method Next()
      requires Decided()
      modifies this
      ensures Decided()
      ensures !old(AtSome()) ==> !AtSome()
      ensures old(AtSome()) ==> forall x :: Ahead(x) <==> old(Ahead(x)) && x != old(Cur())
      ensures old(AtSome()) ==> (|txKeys| - transactionIt) + (|parentKeys| - parentIt) < old((|txKeys| - transactionIt) + (|parentKeys| - parentIt))
    {
      if transactionIt == |txKeys| && parentIt == |parentKeys| { return; }
      if curIsParent {
        PassParent();
        parentIt := parentIt + 1;
        SkipDeletedAndOverwritten();
      } else {
        PassWrite();
        transactionIt := transactionIt + 1;
      }
      DecideCur();
    }

    lemma PassParent()
      requires Decided() && AtSome() && curIsParent
      ensures forall j :: parentIt < j < |parentKeys| ==> parentKeys[j] != parentKey
    {
      forall j | parentIt < j < |parentKeys| ensures parentKeys[j] != parentKey { Irreflexive(parentKey); }
    }

    lemma PassWrite()
      requires Decided() && AtSome() && !curIsParent
      ensures forall i :: transactionIt < i < |txKeys| ==> txKeys[i] != txKeys[transactionIt]
    {
      Irreflexive(txKeys[transactionIt]);
    }

    /** What a loop over the rest of the iterator sees: every key still to come, once, in
        strictly ascending order, with what the transaction shows there. */
    method Drain() returns (keys: seq<Key>, values: seq<Option<Value>>)
      requires Decided()
      modifies this
      ensures Ascending(keys) && forall x :: x in keys <==> old(Ahead(x))
      ensures |values| == |keys| && forall i :: 0 <= i < |keys| ==> values[i] == Shows(keys[i]) && values[i].Some?
    {
      keys, values := [], [];
      while AtSome()
        invariant Decided() && Ascending(keys)
        invariant forall x :: old(Ahead(x)) <==> x in keys || Ahead(x)
        invariant forall i, x :: 0 <= i < |keys| && Ahead(x) ==> Less(keys[i], x)
        invariant |values| == |keys| && forall i :: 0 <= i < |keys| ==> values[i] == Shows(keys[i]) && values[i].Some?
        decreases (|txKeys| - transactionIt) + (|parentKeys| - parentIt)
      {
        CurIsLeast();
        keys := keys + [Cur()];
        values := values + [Shows(Cur())];
        Next();
      }
    }
  }

  /** Seeking and running to the end lists the keys of the overlay from k on. */
  method ListFrom(tx: CDBTransaction, parentData: map<Key, Value>, k: Key) returns (keys: seq<Key>, values: seq<Option<Value>>)
    requires tx.Valid() && forall x :: tx.ParentAt(x) == Lookup(parentData, x)
    ensures Ascending(keys) && forall x :: x in keys <==> tx.At(x).Some? && !Less(x, k)
    ensures |values| == |keys| && forall i :: 0 <= i < |keys| ==> values[i] == tx.At(keys[i])
  {
    var it := new CDBTransactionIterator(tx, parentData);
    it.Seek(k);
    keys, values := it.Drain();
  }

  /** Everything a transaction shows, gathered with its iterator. The parent's part comes from
      the parent's own iterator if that is a transaction itself. */
  method Gather(tx: CDBTransaction) returns (m: map<Key, Value>)
    requires tx.Valid()
    ensures forall x :: Lookup(m, x) == tx.At(x)
    decreases tx.depth, 1
  {
    var below := GatherParent(tx);
    var it := new CDBTransactionIterator(tx, below);
    it.SeekToFirst();
    var keys, values := it.Drain();
    m := map[];
    for i := 0 to |keys|
      invariant forall x <- m :: x in keys[..i] && Some(m[x]) == tx.At(x)
      invariant forall j :: 0 <= j < i ==> keys[j] in m
    {
      assert keys[..i + 1] == keys[..i] + [keys[i]];
      m := m[keys[i] := values[i].value];
    }
    assert keys[..|keys|] == keys;
  }

  method GatherParent(tx: CDBTransaction) returns (m: map<Key, Value>)
    requires tx.Valid()
    ensures forall x :: Lookup(m, x) == tx.ParentAt(x)
    decreases tx.depth, 0
  {
    match tx.parent
    case OnStore(s) => m := s.data;
    case OnTransaction(t) => m := Gather(t);
  }

  /** The iterator of a transaction on transactions, to any depth, lists the keys of the whole
      stack from k on. */
  method ListStack(tx: CDBTransaction, k: Key) returns (keys: seq<Key>, values: seq<Option<Value>>)
    requires tx.Valid()
    ensures Ascending(keys) && forall x :: x in keys <==> tx.At(x).Some? && !Less(x, k)
    ensures |values| == |keys| && forall i :: 0 <= i < |keys| ==> values[i] == tx.At(keys[i])
  {
    var below := GatherParent(tx);
    keys, values := ListFrom(tx, below, k);
  }
}
