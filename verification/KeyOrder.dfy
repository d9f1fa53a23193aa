/** Keys as byte strings in lexicographic order. */
module KeyOrder {

  datatype Key = Key(bytes: seq<nat>)

  predicate LessBytes(a: seq<nat>, b: seq<nat>) {
    if b == [] then false
    else if a == [] then true
    else if a[0] != b[0] then a[0] < b[0]
    else LessBytes(a[1..], b[1..])
  }

  predicate Less(a: Key, b: Key) {
    LessBytes(a.bytes, b.bytes)
  }

  lemma {:induction false} BytesOrder(a: seq<nat>, b: seq<nat>, c: seq<nat>)
    ensures LessBytes(a, b) && LessBytes(b, c) ==> LessBytes(a, c)
    ensures !LessBytes(a, a)
    ensures LessBytes(a, b) || LessBytes(b, a) || a == b
    decreases |a| + |b| + |c|
  {
    if a != [] && b != [] {
      BytesOrder(a[1..], b[1..], if c == [] then c else c[1..]);
      if a[0] == b[0] && a[1..] == b[1..] { assert a == [a[0]] + a[1..] && b == [b[0]] + b[1..]; }
    } else if a != [] {
      BytesOrder(a[1..], [], []);
    }
  }

  lemma Transitive(a: Key, b: Key, c: Key)
    requires Less(a, b) && Less(b, c)
    ensures Less(a, c)
  {
    BytesOrder(a.bytes, b.bytes, c.bytes);
  }

  lemma Irreflexive(a: Key)
    ensures !Less(a, a)
  {
    BytesOrder(a.bytes, a.bytes, a.bytes);
  }

  lemma Total(a: Key, b: Key)
    ensures Less(a, b) || Less(b, a) || a == b
  {
    BytesOrder(a.bytes, b.bytes, b.bytes);
  }

  predicate Ascending(s: seq<Key>) {
    forall i, j :: 0 <= i < j < |s| ==> Less(s[i], s[j])
  }

  /** s lists the keys of a set in order. */
  ghost predicate Lists(s: seq<Key>, keys: set<Key>) {
    Ascending(s) && forall k :: k in keys <==> k in s
  }

  /** The first position whose key is not less than k. */
  method LowerBound(s: seq<Key>, k: Key) returns (i: nat)
    requires Ascending(s)
    ensures i <= |s|
    ensures forall j :: 0 <= j < i ==> Less(s[j], k)
    ensures forall j :: i <= j < |s| ==> !Less(s[j], k)
  {
    i := 0;
    while i < |s| && Less(s[i], k)
      invariant 0 <= i <= |s|
      invariant forall j :: 0 <= j < i ==> Less(s[j], k)
    {
      i := i + 1;
    }
    forall j | i <= j < |s| ensures !Less(s[j], k) {
      if i < j && Less(s[j], k) { Transitive(s[i], s[j], k); }
    }
  }

  /** The keys of a set in order, as an ordered container keeps them. */
  method InOrder(keys: set<Key>) returns (s: seq<Key>)
    ensures Lists(s, keys)
  {
    s := [];
    var rest := keys;
    while rest != {}
      invariant rest <= keys && Lists(s, keys - rest)
      decreases |rest|
    {
      var k :| k in rest;
      s := Place(s, k, keys - rest);
      rest := rest - {k};
      assert keys - rest == keys - (rest + {k}) + {k};
    }
    assert keys - rest == keys;
  }

  method Place(s: seq<Key>, k: Key, ghost keys: set<Key>) returns (r: seq<Key>)
    requires Lists(s, keys) && k !in keys
    ensures Lists(r, keys + {k})
  {
    var i := LowerBound(s, k);
    r := s[..i] + [k] + s[i..];
    forall a, b | 0 <= a < b < |r| ensures Less(r[a], r[b]) {
      if a == i {
        Total(k, s[b - 1]);
      }
    }
    forall x ensures x in keys + {k} <==> x in r {
      if x in s {
        var j :| 0 <= j < |s| && s[j] == x;
        assert r[if j < i then j else j + 1] == x;
      }
      if x == k { assert r[i] == x; }
    }
  }
}
