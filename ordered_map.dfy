/** An insertion-ordered dictionary with the behaviour of an ECMAScript `Map`:
    `set` on a new key appends it to the iteration order, `set` on a present
    key replaces its value in place, and `entries` enumerates in insertion order. */
module OrderedMaps {

  datatype OMap<K(!new), V> = OMap(keys: seq<K>, vals: map<K, V>) {

    /** The keys are listed once each, and exactly the keys of `vals` are listed. */
    ghost predicate Valid() {
      && (forall i, j | 0 <= i < j < |keys| :: keys[i] != keys[j])
      && (forall k :: k in vals <==> k in keys)
    }

    /** `Map.prototype.size` */
    function Size(): nat {
      |keys|
    }

    /** `Map.prototype.has` */
    predicate Has(k: K) {
      k in vals
    }

    /** `Map.prototype.get` on a present key */
    function Get(k: K): V
      requires Has(k)
    {
      vals[k]
    }

    /** `Map.prototype.set` */
    function Set(k: K, v: V): (m: OMap<K, V>)
      ensures Valid() ==> m.Valid()
    {
      if k in vals then OMap(keys, vals[k := v]) else OMap(keys + [k], vals[k := v])
    }

    /** `Map.prototype.entries`, materialised: the (key, value) pairs in insertion order. */
    function Entries(): (es: seq<(K, V)>)
      requires Valid()
      ensures |es| == |keys|
      ensures forall i | 0 <= i < |es| :: es[i].0 == keys[i] && es[i].0 in vals && es[i].1 == vals[keys[i]]
    {
      seq(|keys|, i requires 0 <= i < |keys| => (keys[i], vals[keys[i]]))
    }
  }

  /** `new Map()` */
  function Empty<K(!new), V>(): (m: OMap<K, V>)
    ensures m.Valid() && m.Size() == 0
    ensures forall k :: !m.Has(k)
  {
    OMap([], map[])
  }

  /** The position of a present key in the insertion order. */
  function IndexOf<K(!new), V>(m: OMap<K, V>, k: K): (i: nat)
    requires m.Valid() && m.Has(k)
    ensures i < |m.keys| && m.keys[i] == k
  {
    var i :| 0 <= i < |m.keys| && m.keys[i] == k;
    i
  }

  /** Setting a present key changes its entry in place and no other entry. */
  lemma SetPresentEntries<K(!new), V>(m: OMap<K, V>, k: K, v: V)
    requires m.Valid() && m.Has(k)
    ensures m.Set(k, v).Entries() == m.Entries()[IndexOf(m, k) := (k, v)]
  {
    var i := IndexOf(m, k);
    var l, r := m.Set(k, v).Entries(), m.Entries()[i := (k, v)];
    assert |l| == |r|;
    forall j | 0 <= j < |l| ensures l[j] == r[j] {
      if j != i {
        assert m.keys[j] != k;
      }
    }
  }

  /** Setting a new key appends one entry. */
  lemma SetAbsentEntries<K(!new), V>(m: OMap<K, V>, k: K, v: V)
    requires m.Valid() && !m.Has(k)
    ensures m.Set(k, v).Entries() == m.Entries() + [(k, v)]
  {
    var l, r := m.Set(k, v).Entries(), m.Entries() + [(k, v)];
    assert |l| == |r|;
    forall j | 0 <= j < |l| ensures l[j] == r[j] {
      if j < |m.keys| {
        assert m.keys[j] in m.vals;
      }
    }
  }

  /** A second `set` of the same key overrides the first and keeps its position. */
  lemma SetSet<K(!new), V>(m: OMap<K, V>, k: K, a: V, b: V)
    ensures m.Set(k, a).Set(k, b) == m.Set(k, b)
  {
  }

  /** In a valid map the number of entries is the number of distinct keys. */
  lemma {:induction false} SizeIsCardinality<K(!new), V>(m: OMap<K, V>)
    requires m.Valid()
    ensures m.Size() == |m.vals.Keys|
  {
    DistinctCard(m.keys);
    assert m.vals.Keys == set k | k in m.keys;
  }

  /** A sequence without repetitions has as many elements as its set of elements. */
  lemma {:induction false} DistinctCard<K>(s: seq<K>)
    requires forall i, j | 0 <= i < j < |s| :: s[i] != s[j]
    ensures |set k | k in s| == |s|
  {
    if s != [] {
      var t := s[..|s| - 1];
      DistinctCard(t);
      assert s == t + [s[|s| - 1]];
      assert s[|s| - 1] !in t;
      assert (set k | k in s) == (set k | k in t) + {s[|s| - 1]};
    }
  }
}
