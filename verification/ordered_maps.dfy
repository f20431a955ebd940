/**
 * An insertion-ordered map with the semantics of a JavaScript `Map`:
 * `set` on a present key overwrites its value in place, `set` on a new key
 * appends it, `delete` removes the key and keeps the order of the rest,
 * and `values()` walks the keys in insertion order.
 */
module OrderedMaps {
  import opened JsValues

  /** No element occurs twice. */
  predicate Distinct<K(==,!new)>(s: seq<K>)
  {
    forall i, j :: 0 <= i < j < |s| ==> s[i] != s[j]
  }

  lemma {:induction false} DistinctTail<K(!new)>(s: seq<K>)
    requires s != []
    ensures Distinct(s) ==> Distinct(s[1..]) && s[0] !in s[1..]
  {
  }

  /** A sequence without repetitions has as many elements as its set. */
  lemma {:induction false} DistinctCardinality<K(!new)>(s: seq<K>)
    requires Distinct(s)
    ensures |set x | x in s| == |s|
  {
    if s != [] {
      DistinctTail(s);
      DistinctCardinality(s[1..]);
      assert (set x | x in s) == (set x | x in s[1..]) + {s[0]};
    }
  }

  /** The key order after deleting `k`: every other key, in the same order. */
  function RemoveKey<K(==,!new)>(s: seq<K>, k: K): (r: seq<K>)
    ensures forall x :: x in r <==> x in s && x != k
    ensures Distinct(s) ==> Distinct(r)
    ensures Distinct(s) ==> |r| == if k in s then |s| - 1 else |s|
    ensures k !in s ==> r == s
  {
    if s == [] then []
    else if s[0] == k then
      DistinctTail(s); RemoveKey(s[1..], k)
    else
      DistinctTail(s); [s[0]] + RemoveKey(s[1..], k)
  }

  /** Removing a key that occurs once, at `i`, splices it out. */
  lemma {:induction false} RemoveKeyOnce<K(!new)>(s: seq<K>, i: nat)
    requires i < |s| && s[i] !in s[..i] && s[i] !in s[i + 1..]
    ensures RemoveKey(s, s[i]) == s[..i] + s[i + 1..]
  {
    var t := s[1..];
    if i == 0 {
      assert s[..0] + s[1..] == t;
    } else {
      var k := s[i];
      assert s[0] in s[..i];
      assert t[i - 1] == k;
      assert t[..i - 1] == s[1..i];
      assert t[i..] == s[i + 1..];
      RemoveKeyOnce(t, i - 1);
      assert s[..i] == [s[0]] + t[..i - 1];
    }
  }

  /** In a sequence without repetitions, removing the key at `i` splices it out. */
  lemma RemoveKeyAt<K(!new)>(s: seq<K>, i: nat)
    requires Distinct(s) && i < |s|
    ensures RemoveKey(s, s[i]) == s[..i] + s[i + 1..]
  {
    RemoveKeyOnce(s, i);
  }

  datatype OrderedMap<K(==,!new), V> = OrderedMap(keys: seq<K>, vals: map<K, V>)
  {
    /** The keys, in insertion order, are exactly the map's keys, each once. */
    ghost predicate Valid()
    {
      Distinct(keys) && forall k :: k in vals <==> k in keys
    }

    /** `Map.prototype.size`. */
    function Size(): (n: nat)
      requires Valid()
      ensures n == |keys|
    {
      assert vals.Keys == set x | x in keys;
      DistinctCardinality(keys);
      |vals|
    }

    /** `Map.prototype.get`; a missing key reads as `None`. */
    function Get(k: K): (r: Option<V>)
      ensures r.Some? <==> k in vals
      ensures r.Some? ==> r.value == vals[k]
    {
      if k in vals then Some(vals[k]) else None
    }

    /** `Array.from(map.values())`: one value per key, in insertion order. */
    function Values(): (r: seq<V>)
      requires Valid()
      ensures |r| == Size()
      ensures forall i :: 0 <= i < |r| ==> r[i] == vals[keys[i]]
    {
      seq(|keys|, i requires 0 <= i < |keys| => vals[keys[i]])
    }

    /** `Map.prototype.set`: `k` now maps to `v`, no other key changes. */
    function Set(k: K, v: V): (r: OrderedMap<K, V>)
      requires Valid()
      ensures r.Valid()
      ensures r.Get(k) == Some(v)
      ensures forall k' :: k' != k ==> r.Get(k') == Get(k')
      ensures r.Size() == if k in vals then Size() else Size() + 1
    {
      if k in vals then OrderedMap(keys, vals[k := v])
      else OrderedMap(keys + [k], vals[k := v])
    }

    /** `Map.prototype.delete`: `k` is gone, no other key changes. */
    function Delete(k: K): (r: OrderedMap<K, V>)
      requires Valid()
      ensures r.Valid()
      ensures r.Get(k) == None
      ensures forall k' :: k' != k ==> r.Get(k') == Get(k')
      ensures r.Size() == if k in vals then Size() - 1 else Size()
    {
      OrderedMap(RemoveKey(keys, k), vals - {k})
    }
  }

  /** The empty `new Map()`. */
  function Empty<K(==,!new), V>(): (m: OrderedMap<K, V>)
    ensures m.Valid() && m.Size() == 0
  {
    OrderedMap([], map[])
  }

  /**
   * Setting a present key keeps its position and replaces only its value;
   * setting a new key appends its value after all the others.
   */
  lemma SetValues<K(!new), V>(m: OrderedMap<K, V>, k: K, v: V)
    requires m.Valid()
    ensures k !in m.vals ==> m.Set(k, v).Values() == m.Values() + [v]
    ensures k in m.vals ==>
      |m.Set(k, v).Values()| == |m.Values()| &&
      forall i :: 0 <= i < |m.keys| ==>
        m.Set(k, v).Values()[i] == if m.keys[i] == k then v else m.Values()[i]
  {
    if k !in m.vals {
      var r := m.Set(k, v);
      assert |r.Values()| == |m.Values()| + 1;
      forall i | 0 <= i < |r.Values()|
        ensures r.Values()[i] == (m.Values() + [v])[i]
      {
        assert r.keys == m.keys + [k];
      }
    }
  }

  /** Deleting a key splices its value out and keeps the order of the rest. */
  lemma DeleteValues<K(!new), V>(m: OrderedMap<K, V>, i: nat)
    requires m.Valid() && i < |m.keys|
    ensures m.Delete(m.keys[i]).Values() == m.Values()[..i] + m.Values()[i + 1..]
  {
    var k := m.keys[i];
    RemoveKeyAt(m.keys, i);
    var r := m.Delete(k);
    var vs, rv := m.Values(), r.Values();
    var expected := vs[..i] + vs[i + 1..];
    assert r.keys == m.keys[..i] + m.keys[i + 1..];
    assert |rv| == |expected|;
    forall j | 0 <= j < |rv|
      ensures rv[j] == expected[j]
    {
      var src := if j < i then j else j + 1;
      assert r.keys[j] == m.keys[src];
      assert expected[j] == vs[src];
    }
  }

  /** Deleting a key that is not there changes nothing. */
  lemma DeleteAbsent<K(!new), V>(m: OrderedMap<K, V>, k: K)
    requires m.Valid() && k !in m.vals
    ensures m.Delete(k) == m
  {
    assert m.vals - {k} == m.vals;
  }

  /** A second delete of the same key is a no-op. */
  lemma DeleteIdempotent<K(!new), V>(m: OrderedMap<K, V>, k: K)
    requires m.Valid()
    ensures m.Delete(k).Delete(k) == m.Delete(k)
  {
    DeleteAbsent(m.Delete(k), k);
  }

  lemma {:induction false} RemoveKeyAppended<K(!new)>(s: seq<K>, k: K)
    requires k !in s
    ensures RemoveKey(s + [k], k) == s
  {
    if s != [] {
      assert (s + [k])[1..] == s[1..] + [k];
      RemoveKeyAppended(s[1..], k);
      assert [s[0]] + s[1..] == s;
    }
  }

  /** Setting a new key and deleting it again restores the original map. */
  lemma SetThenDelete<K(!new), V>(m: OrderedMap<K, V>, k: K, v: V)
    requires m.Valid() && k !in m.vals
    ensures m.Set(k, v).Delete(k) == m
  {
    RemoveKeyAppended(m.keys, k);
    assert m.vals[k := v] - {k} == m.vals;
  }
}
