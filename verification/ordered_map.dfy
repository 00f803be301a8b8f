/** A model of a Python `dict`: a finite map that remembers the order in which
    its keys were first inserted. Assigning to a present key replaces the value in
    place; assigning to a new key appends it. Iteration follows that order. */
module OrderedMaps {

  /** No element occurs twice in `s`. */
  ghost predicate NoDuplicates<K>(s: seq<K>) {
    forall i, j | 0 <= i < j < |s| :: s[i] != s[j]
  }

  /** The distinct elements of a duplicate-free sequence are as many as its length. */
  lemma {:induction false} NoDuplicatesCardinality<K>(s: seq<K>)
    requires NoDuplicates(s)
    ensures |(set x | x in s)| == |s|
  {
    if s != [] {
      var last := s[|s| - 1];
      var prefix := s[..|s| - 1];
      assert NoDuplicates(prefix);
      NoDuplicatesCardinality(prefix);
      assert (set x | x in s) == (set x | x in prefix) + {last} by {
        forall x | x in s ensures x in prefix || x == last {
          var i :| 0 <= i < |s| && s[i] == x;
          if i < |s| - 1 {
            assert prefix[i] == x;
          }
        }
      }
      assert forall i | 0 <= i < |prefix| :: prefix[i] != last by {
        forall i | 0 <= i < |prefix| ensures prefix[i] != last {
          assert prefix[i] == s[i];
        }
      }
    }
  }

  /** Key order plus contents. Consistent values are described by `Dict`. */
  datatype OrderedMap<K(==), V> = OrderedMap(keys: seq<K>, entries: map<K, V>) {

    /** The key order lists every key of `entries` exactly once: its keys are
        distinct keys of `entries`, and as many as `entries` has. */
    ghost predicate Valid() {
      && NoDuplicates(keys)
      && (forall i | 0 <= i < |keys| :: keys[i] in entries)
      && |keys| == |entries|
    }
  }

  /** A Python `dict`: an ordered map whose key order and contents agree. */
  type Dict<K(==), V> = m: OrderedMap<K, V> | m.Valid() witness OrderedMap([], map[])

  /** The empty dict `{}`. */
  function Empty<K(==), V>(): (m: Dict<K, V>)
    ensures m.entries == map[]
    ensures m.keys == []
  {
    OrderedMap([], map[])
  }

  /** `d[k] = v`: the value at `k` becomes `v`; a new key goes to the end of the
      order, a present key keeps its place. */
  function Put<K(==), V>(d: Dict<K, V>, k: K, v: V): (r: Dict<K, V>)
    ensures r.entries == d.entries[k := v]
    ensures k in d.entries ==> r.keys == d.keys
    ensures k !in d.entries ==> r.keys == d.keys + [k]
  {
    if k in d.entries then
      OrderedMap(d.keys, d.entries[k := v])
    else
      assert forall i | 0 <= i < |d.keys| :: d.keys[i] != k;
      OrderedMap(d.keys + [k], d.entries[k := v])
  }

  /** `list(d.values())`: the values in key order. */
  function Values<K(==), V>(d: Dict<K, V>): (vs: seq<V>)
    ensures |vs| == |d.keys|
    ensures forall i | 0 <= i < |vs| :: vs[i] == d.entries[d.keys[i]]
  {
    seq(|d.keys|, i requires 0 <= i < |d.keys| => d.entries[d.keys[i]])
  }

  /** Every key of a dict occurs in its key order. */
  lemma KeysCoverEntries<K, V>(d: Dict<K, V>)
    ensures forall k | k in d.entries :: k in d.keys
  {
    var listed := set x | x in d.keys;
    NoDuplicatesCardinality(d.keys);
    assert listed <= d.entries.Keys;
    assert d.entries.Keys == listed + (d.entries.Keys - listed);
    assert |d.entries.Keys - listed| == 0;
  }

  /** `d.values()` holds exactly the values stored in the dict, one per key. */
  lemma ValuesAreEntries<K, V>(d: Dict<K, V>)
    ensures |Values(d)| == |d.entries|
    ensures forall v :: v in Values(d) <==> v in d.entries.Values
  {
    KeysCoverEntries(d);
    var vs := Values(d);
    forall v | v in d.entries.Values ensures v in vs {
      var k :| k in d.entries && d.entries[k] == v;
      var i :| 0 <= i < |d.keys| && d.keys[i] == k;
      assert vs[i] == v;
    }
  }

  /** Storing a new key appends its value to `d.values()`. */
  lemma ValuesOfPutNewKey<K, V>(d: Dict<K, V>, k: K, v: V)
    requires k !in d.entries
    ensures Values(Put(d, k, v)) == Values(d) + [v]
  {
    var after := Put(d, k, v);
    assert forall i | 0 <= i < |d.keys| :: d.keys[i] != k;
    assert forall i | 0 <= i < |d.keys| :: Values(after)[i] == Values(d)[i];
  }

  /** Two dicts with the same key order and the same value at every key are equal. */
  lemma SameKeysAndValuesAreEqual<K, V>(a: Dict<K, V>, b: Dict<K, V>)
    requires a.keys == b.keys
    requires forall i | 0 <= i < |a.keys| :: a.entries[a.keys[i]] == b.entries[a.keys[i]]
    ensures a == b
  {
    KeysCoverEntries(a);
    KeysCoverEntries(b);
    forall k | k in a.entries || k in b.entries
      ensures k in a.entries && k in b.entries && a.entries[k] == b.entries[k]
    {
      var i :| 0 <= i < |a.keys| && a.keys[i] == k;
    }
    assert a.entries == b.entries;
  }
}
