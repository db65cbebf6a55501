/**
 * A JavaScript `Map` as the sequence of its entries in insertion order.
 * `set` on a key that is present replaces that entry where it stands and on
 * a new key appends one; `delete` takes the entry out and keeps the order of
 * the rest; `forEach` visits the entries front to back. `ToMap` forgets the
 * order and is the reference the operations are proved against.
 */
module JsMaps {

  datatype Entry<K, V> = Entry(key: K, value: V)

  type Entries<K, V> = seq<Entry<K, V>>

  /** A `Map` never holds two entries for one key. */
  predicate DistinctKeys<K(==), V>(e: Entries<K, V>) {
    forall i, j :: 0 <= i < j < |e| ==> e[i].key != e[j].key
  }

  /** The key/value view of the entries; the front entry for a key decides its value. */
  function ToMap<K(==), V>(e: Entries<K, V>): map<K, V> {
    if e == [] then map[] else ToMap(e[1..])[e[0].key := e[0].value]
  }

  /** The position of the first entry for `k`, or `|e|` when there is none. */
  function Find<K(==), V>(e: Entries<K, V>, k: K): (i: nat)
    ensures i <= |e|
    ensures i < |e| ==> e[i].key == k
    ensures forall j :: 0 <= j < i ==> e[j].key != k
  {
    if e == [] then 0
    else if e[0].key == k then 0
    else 1 + Find(e[1..], k)
  }

  /** `Map.prototype.has` */
  predicate Has<K(==), V>(e: Entries<K, V>, k: K) {
    Find(e, k) < |e|
  }

  /** `Map.prototype.set`: replace the entry for `k` in place, or append one. */
  function Set<K(==), V>(e: Entries<K, V>, k: K, v: V): (r: Entries<K, V>)
    ensures ToMap(r) == ToMap(e)[k := v]
    ensures DistinctKeys(e) ==> DistinctKeys(r)
    ensures Has(e, k) ==> |r| == |e|
    ensures !Has(e, k) ==> |r| == |e| + 1 && r[|e|] == Entry(k, v)
    ensures forall j :: 0 <= j < |e| && e[j].key != k ==> r[j] == e[j]
  {
    var i := Find(e, k);
    if i < |e| then
      ToMapReplace(e, i, v);
      e[i := Entry(k, v)]
    else
      ToMapAppend(e, Entry(k, v));
      e + [Entry(k, v)]
  }

  /** The entries whose key is not `k`, in their order. */
  function Without<K(==), V>(e: Entries<K, V>, k: K): Entries<K, V> {
    if e == [] then []
    else (if e[0].key == k then [] else [e[0]]) + Without(e[1..], k)
  }

  /** `Map.prototype.delete`: take out the entry for `k`, if there is one. */
  function Delete<K(==), V>(e: Entries<K, V>, k: K): (r: Entries<K, V>)
    ensures DistinctKeys(e) ==> ToMap(r) == ToMap(e) - {k}
    ensures DistinctKeys(e) ==> DistinctKeys(r)
    ensures DistinctKeys(e) ==> r == Without(e, k)
    ensures !Has(e, k) ==> r == e
    ensures Has(e, k) ==> |r| == |e| - 1
  {
    var i := Find(e, k);
    if i < |e| then
      var r := e[..i] + e[i + 1..];
      ToMapRemove(e, i);
      WithoutAt(e, i);
      r
    else
      ToMapFind(e, k);
      WithoutNone(e, k);
      e
  }

  /** With no entry for `k`, nothing is taken out. */
  lemma {:induction false} WithoutNone<K, V>(e: Entries<K, V>, k: K)
    requires forall j :: 0 <= j < |e| ==> e[j].key != k
    ensures Without(e, k) == e
  {
    if e != [] {
      WithoutNone(e[1..], k);
      assert e == [e[0]] + e[1..];
    }
  }

  /** With distinct keys, taking out the key of entry `i` takes out exactly that entry. */
  lemma {:induction false} WithoutAt<K, V>(e: Entries<K, V>, i: nat)
    requires i < |e|
    ensures DistinctKeys(e) ==> Without(e, e[i].key) == e[..i] + e[i + 1..]
  {
    if DistinctKeys(e) {
      var k := e[i].key;
      var t := e[1..];
      if i == 0 {
        WithoutNone(t, k);
        assert e[..0] + e[1..] == t;
      } else {
        assert t[i - 1] == e[i] && DistinctKeys(t);
        WithoutAt(t, i - 1);
        assert e[0].key != k;
        assert e[..i] + e[i + 1..] == [e[0]] + (t[..i - 1] + t[i..]);
      }
    }
  }

  /** Membership in the key/value view is exactly what `Find` locates. */
  lemma {:induction false} ToMapFind<K, V>(e: Entries<K, V>, k: K)
    ensures k in ToMap(e) <==> Find(e, k) < |e|
    ensures Find(e, k) < |e| ==> ToMap(e)[k] == e[Find(e, k)].value
  {
    if e != [] && e[0].key != k {
      ToMapFind(e[1..], k);
    }
  }

  lemma {:induction false} ToMapReplace<K, V>(e: Entries<K, V>, i: nat, v: V)
    requires i < |e| && Find(e, e[i].key) == i
    ensures ToMap(e[i := Entry(e[i].key, v)]) == ToMap(e)[e[i].key := v]
  {
    var k := e[i].key;
    var e' := e[i := Entry(k, v)];
    if i == 0 {
      assert e'[1..] == e[1..];
    } else {
      assert e'[1..] == e[1..][i - 1 := Entry(k, v)];
      assert e[0].key != k;
      ToMapReplace(e[1..], i - 1, v);
    }
  }

  lemma {:induction false} ToMapAppend<K, V>(e: Entries<K, V>, x: Entry<K, V>)
    requires Find(e, x.key) == |e|
    ensures ToMap(e + [x]) == ToMap(e)[x.key := x.value]
  {
    if e != [] {
      assert (e + [x])[1..] == e[1..] + [x];
      ToMapAppend(e[1..], x);
    }
  }

  lemma {:induction false} ToMapRemove<K, V>(e: Entries<K, V>, i: nat)
    requires i < |e|
    ensures DistinctKeys(e) ==> ToMap(e[..i] + e[i + 1..]) == ToMap(e) - {e[i].key}
  {
    if DistinctKeys(e) {
      var k := e[i].key;
      var r := e[..i] + e[i + 1..];
      var t := e[1..];
      assert DistinctKeys(t);
      if i == 0 {
        assert r == t;
        ToMapFind(t, k);
      } else {
        assert r[0] == e[0] && r[1..] == t[..i - 1] + t[i..];
        ToMapRemove(t, i - 1);
        assert t[i - 1].key == k && e[0].key != k;
        var m := ToMap(t);
        assert ToMap(r) == (m - {k})[e[0].key := e[0].value];
        assert ToMap(e) == m[e[0].key := e[0].value];
      }
    }
  }
}
