/** Pending writes and deletes over a key-value view, key by key. */
module DBOverlay {
  import opened Common
  import opened KeyOrder

  /** A value and the size of its serialization. */
  datatype Value = Value(id: nat, size: nat)

  function Lookup(m: map<Key, Value>, k: Key): Option<Value> {
    if k in m then Some(m[k]) else None
  }

  /** What the transaction shows at k over what is below it. */
  function Over(writes: map<Key, Value>, deletes: set<Key>, k: Key, below: Option<Value>): Option<Value> {
    if k in deletes then None else if k in writes then Some(writes[k]) else below
  }

  // ----- memory ------------------------------------------------------------

  ghost function DeletesUsage(deletes: set<Key>): nat
    decreases |deletes|
  {
    if deletes == {} then 0 else
      var k :| k in deletes;
      |k.bytes| + DeletesUsage(deletes - {k})
  }

  ghost function WritesUsage(writes: map<Key, Value>): nat
    decreases |writes|
  {
    if writes == map[] then 0 else
      var k :| k in writes;
      |k.bytes| + writes[k].size + WritesUsage(writes - {k})
  }

  lemma {:induction false} DeletesWithout(deletes: set<Key>, k: Key)
    requires k in deletes
    ensures DeletesUsage(deletes) == |k.bytes| + DeletesUsage(deletes - {k})
    decreases |deletes|
  {
    var x :| x in deletes && DeletesUsage(deletes) == |x.bytes| + DeletesUsage(deletes - {x});
    if x != k {
      DeletesWithout(deletes - {x}, k);
      DeletesWithout(deletes - {k}, x);
      assert deletes - {x} - {k} == deletes - {k} - {x};
    }
  }

  lemma {:induction false} WritesWithout(writes: map<Key, Value>, k: Key)
    requires k in writes
    ensures WritesUsage(writes) == |k.bytes| + writes[k].size + WritesUsage(writes - {k})
    decreases |writes|
  {
    var x :| x in writes && WritesUsage(writes) == |x.bytes| + writes[x].size + WritesUsage(writes - {x});
    if x != k {
      WritesWithout(writes - {x}, k);
      WritesWithout(writes - {k}, x);
      assert writes - {x} - {k} == writes - {k} - {x};
    }
  }

  lemma WriteUsage(writes: map<Key, Value>, k: Key, v: Value)
    ensures WritesUsage(writes[k := v]) ==
            WritesUsage(writes) + |k.bytes| + v.size - (if k in writes then |k.bytes| + writes[k].size else 0)
  {
    WritesWithout(writes[k := v], k);
    assert writes[k := v] - {k} == writes - {k};
    if k in writes { WritesWithout(writes, k); } else { assert writes - {k} == writes; }
  }

  lemma AddedUsage(deletes: set<Key>, k: Key)
    ensures DeletesUsage(deletes + {k}) == DeletesUsage(deletes) + (if k in deletes then 0 else |k.bytes|)
  {
    hide DeletesUsage;
    if k in deletes {
      assert deletes + {k} == deletes;
    } else {
      DeletesWithout(deletes + {k}, k);
      assert deletes + {k} - {k} == deletes;
    }
  }

  lemma RemovedUsage(deletes: set<Key>, k: Key)
    ensures DeletesUsage(deletes - {k}) == DeletesUsage(deletes) - (if k in deletes then |k.bytes| else 0)
  {
    hide DeletesUsage;
    if k in deletes { DeletesWithout(deletes, k); } else { assert deletes - {k} == deletes; }
  }
}

/** Transactions on a database or on other transactions. */
module DBTransaction {
  import opened Common
  import opened KeyOrder
  import opened DBOverlay

  class Store {
    var data: map<Key, Value>

    constructor (data: map<Key, Value>)
      ensures this.data == data
    {
      this.data := data;
    }

    method EraseAll(ks: set<Key>)
      modifies this
      ensures forall x :: Lookup(data, x) == Over(map[], ks, x, Lookup(old(data), x))
    {
      var rest := ks;
      while rest != {}
        invariant rest <= ks
        invariant forall x :: Lookup(data, x) == Over(map[], ks - rest, x, Lookup(old(data), x))
        decreases |rest|
      {
        var k :| k in rest;
        data := data - {k};
        rest := rest - {k};
      }
    }

    method WriteAll(ws: map<Key, Value>)
      modifies this
      ensures forall x :: Lookup(data, x) == Over(ws, {}, x, Lookup(old(data), x))
    {
      var rest := ws;
      while rest != map[]
        invariant rest.Keys <= ws.Keys && forall k <- rest :: rest[k] == ws[k]
        invariant forall x :: Lookup(data, x) == Over(ws - rest.Keys, {}, x, Lookup(old(data), x))
        decreases |rest|
      {
        var k :| k in rest;
        data := data[k := rest[k]];
        rest := rest - {k};
      }
    }
  }

  /** What a transaction reads from and commits to. */
  datatype Parent = OnStore(store: Store) | OnTransaction(tx: CDBTransaction)

  class CDBTransaction {
    const parent: Parent
    var writes: map<Key, Value>
    var deletes: set<Key>
    var memoryUsage: int
    ghost const depth: nat
    ghost const repr: set<object>

    ghost predicate Linked()
      decreases depth
    {
      && this in repr
      && match parent
         case OnStore(s) => repr == {this, s}
         case OnTransaction(t) => t.depth < depth && this !in t.repr && repr == {this} + t.repr && t.Linked()
    }

    /** What the parent has at k. */
    ghost function ParentAt(k: Key): Option<Value>
      requires Linked()
      reads repr - {this}
      decreases depth, 0
    {
      match parent
      case OnStore(s) => Lookup(s.data, k)
      case OnTransaction(t) => t.At(k)
    }

    /** What the transaction shows at k. */
    ghost function At(k: Key): Option<Value>
      requires Linked()
      reads repr
      decreases depth, 1
    {
      Over(writes, deletes, k, ParentAt(k))
    }

    ghost predicate ParentValid()
      requires Linked()
      reads repr - {this}
      decreases depth, 0
    {
      match parent
      case OnStore(s) => true
      case OnTransaction(t) => t.Valid()
    }

    /** No key is both written and deleted, and the memory count is exact. */
    ghost predicate Valid()
      reads repr
      decreases depth, 1
    {
      && Linked() && ParentValid()
      && writes.Keys !! deletes
      && memoryUsage == DeletesUsage(deletes) + WritesUsage(writes)
    }

    /** Whether nothing is pending. */
    predicate IsClean() reads this {
      writes == map[] && deletes == {}
    }

    constructor OverStore(s: Store)
      ensures Valid() && parent == OnStore(s) && fresh(repr - {s}) && IsClean()
    {
      parent := OnStore(s);
      writes, deletes, memoryUsage := map[], {}, 0;
      depth := 0;
      repr := {this, s};
    }

    constructor OverTransaction(t: CDBTransaction)
      requires t.Valid()
      ensures Valid() && parent == OnTransaction(t) && fresh(repr - t.repr) && IsClean()
    {
      parent := OnTransaction(t);
      writes, deletes, memoryUsage := map[], {}, 0;
      depth := t.depth + 1;
      repr := {this} + t.repr;
    }

    method Write(k: Key, v: Value)
      requires Valid()
      modifies this
      ensures Valid() && writes == old(writes)[k := v] && deletes == old(deletes) - {k}
      ensures forall x :: At(x) == if x == k then Some(v) else old(At(x))
    {
      hide DeletesUsage, WritesUsage;
      RemovedUsage(deletes, k);
      WriteUsage(writes, k, v);
      if k in deletes {
        deletes := deletes - {k};
        memoryUsage := memoryUsage - |k.bytes|;
      } else {
        assert deletes - {k} == deletes;
      }
      if k in writes {
        memoryUsage := memoryUsage - (|k.bytes| + writes[k].size);
      }
      writes := writes[k := v];
      memoryUsage := memoryUsage + |k.bytes| + v.size;
    }

    method Erase(k: Key)
      requires Valid()
      modifies this
      ensures Valid() && writes == old(writes) - {k} && deletes == old(deletes) + {k}
      ensures forall x :: At(x) == if x == k then None else old(At(x))
    {
      hide DeletesUsage, WritesUsage;
      AddedUsage(deletes, k);
      if k in writes {
        WritesWithout(writes, k);
        memoryUsage := memoryUsage - (|k.bytes| + writes[k].size);
        writes := writes - {k};
      } else {
        assert writes - {k} == writes;
      }
      if k !in deletes {
        deletes := deletes + {k};
        memoryUsage := memoryUsage + |k.bytes|;
      } else {
        assert deletes + {k} == deletes;
      }
    }

    method Read(k: Key) returns (r: Option<Value>)
      requires Valid()
      ensures r == At(k)
      decreases depth
    {
      if k in deletes { return None; }
      if k in writes { return Some(writes[k]); }
      match parent
      case OnStore(s) =>
        r := Lookup(s.data, k);
      case OnTransaction(t) =>
        r := t.Read(k);
    }

    method Exists(k: Key) returns (r: bool)
      requires Valid()
      ensures r <==> At(k).Some?
      decreases depth
    {
      if k in deletes { return false; }
      if k in writes { return true; }
      match parent
      case OnStore(s) =>
        r := k in s.data;
      case OnTransaction(t) =>
        r := t.Exists(k);
    }

    method Clear()
      requires Valid()
      modifies this
      ensures Valid() && IsClean() && memoryUsage == 0
      ensures forall k :: At(k) == ParentAt(k)
    {
      writes, deletes, memoryUsage := map[], {}, 0;
    }

    /** Takes what another transaction erases, one key after the other. */
    method EraseAll(ds: set<Key>)
      requires Valid()
      modifies this
      ensures Valid()
      ensures forall x :: At(x) == Over(map[], ds, x, old(At(x)))
    {
      hide DeletesUsage, WritesUsage;
      var rest := ds;
      while rest != {}
        invariant Valid() && rest <= ds
        invariant forall x :: At(x) == Over(map[], ds - rest, x, old(At(x)))
        decreases |rest|
      {
        var k :| k in rest;
        Erase(k);
        rest := rest - {k};
      }
    }

    method WriteAll(ws: map<Key, Value>)
      requires Valid()
      modifies this
      ensures Valid()
      ensures forall x :: At(x) == Over(ws, {}, x, old(At(x)))
    {
      hide DeletesUsage, WritesUsage;
      var rest := ws;
      while rest != map[]
        invariant Valid()
        invariant rest.Keys <= ws.Keys && forall k <- rest :: rest[k] == ws[k]
        invariant forall x :: At(x) == Over(ws - rest.Keys, {}, x, old(At(x)))
        decreases |rest|
      {
        var k :| k in rest;
        Write(k, rest[k]);
        rest := rest - {k};
      }
    }

    /** Makes the parent show what this transaction shows, and leaves nothing pending. */
    method Commit()
      requires Valid()
      modifies repr
      ensures Valid() && IsClean() && memoryUsage == 0
      ensures forall k :: ParentAt(k) == old(At(k))
      ensures forall k :: At(k) == old(At(k))
    {
      hide DeletesUsage, WritesUsage;
      match parent {
        case OnStore(s) =>
          s.EraseAll(deletes);
          s.WriteAll(writes);
        case OnTransaction(t) =>
          assert t.Linked();
          t.EraseAll(deletes);
          t.WriteAll(writes);
      }
      Clear();
    }

    /** Committing to another transaction. */
    method CommitToTransaction(target: CDBTransaction)
      requires Valid() && target.Valid() && target !in repr && this !in target.repr
      modifies this, target
      ensures Valid() && IsClean() && memoryUsage == 0 && target.Valid()
      ensures forall k :: target.At(k) == Over(old(writes), old(deletes), k, old(target.At(k)))
    {
      hide DeletesUsage, WritesUsage;
      target.EraseAll(deletes);
      target.WriteAll(writes);
      Clear();
    }

    /** Committing to another target, such as a batch, does to it what the transaction holds. */
    method CommitTo(target: Store)
      requires Valid() && target !in repr
      modifies this, target
      ensures Valid() && IsClean() && memoryUsage == 0
      ensures forall k :: Lookup(target.data, k) == Over(old(writes), old(deletes), k, Lookup(old(target.data), k))
    {
      hide DeletesUsage, WritesUsage;
      target.EraseAll(deletes);
      target.WriteAll(writes);
      Clear();
    }
  }
}
