/** A JavaScript `Map` as an insertion-ordered list of entries: `set` on a
    present key replaces its value in place, `set` on a new key appends, and
    `Array.from(map.values())` lists the values in key-insertion order. */
module OrderedMap {
  import opened Wrappers
  import Seqs

  datatype Entry<K, V> = Entry(key: K, value: V)

  function Keys<K, V>(m: seq<Entry<K, V>>): (ks: seq<K>)
    ensures |ks| == |m|
    ensures forall i :: 0 <= i < |m| ==> ks[i] == m[i].key
  {
    seq(|m|, i requires 0 <= i < |m| => m[i].key)
  }

  /** `Array.from(map.values())`. */
  function Values<K, V>(m: seq<Entry<K, V>>): (vs: seq<V>)
    ensures |vs| == |m|
    ensures forall i :: 0 <= i < |m| ==> vs[i] == m[i].value
  {
    seq(|m|, i requires 0 <= i < |m| => m[i].value)
  }

  /** `map.get(k)`: the value of the entry with key `k`, if any. */
  function Get<K(==), V>(m: seq<Entry<K, V>>, k: K): (r: Option<V>)
    ensures r.Some? <==> k in Keys(m)
    ensures r.Some? ==> exists i :: 0 <= i < |m| && m[i] == Entry(k, r.value)
    decreases |m|
  {
    if |m| == 0 then None
    else if m[0].key == k then Some(m[0].value)
    else
      assert Keys(m) == [m[0].key] + Keys(m[1..]);
      var r := Get(m[1..], k);
      assert r.Some? ==> exists i :: 0 <= i < |m| - 1 && m[1..][i] == Entry(k, r.value);
      r
  }

  /** `map.set(k, v)`: a present key keeps its position and takes the new
      value, a new key is appended. */
  function Put<K(==), V>(m: seq<Entry<K, V>>, k: K, v: V): (r: seq<Entry<K, V>>)
    ensures Keys(r) == if k in Keys(m) then Keys(m) else Keys(m) + [k]
    decreases |m|
  {
    if |m| == 0 then [Entry(k, v)]
    else if m[0].key == k then
      [Entry(k, v)] + m[1..]
    else
      var rest := Put(m[1..], k, v);
      assert Keys(m) == [m[0].key] + Keys(m[1..]);
      assert Keys([m[0]] + rest) == [m[0].key] + Keys(rest);
      [m[0]] + rest
  }

  /** After `map.set(k, v)`, `map.get(k)` is `v` and every other key reads
      what it read before. */
  lemma {:induction false} PutGet<K, V>(m: seq<Entry<K, V>>, k: K, v: V, j: K)
    ensures Get(Put(m, k, v), j) == if j == k then Some(v) else Get(m, j)
    decreases |m|
  {
    if |m| > 0 && m[0].key != k {
      PutGet(m[1..], k, v, j);
      assert Put(m, k, v)[1..] == Put(m[1..], k, v);
    } else if |m| > 0 {
      assert Put(m, k, v)[1..] == m[1..];
    }
  }

  /** `set` introduces no entry other than the one it was given. */
  lemma {:induction false} PutEntries<K, V>(m: seq<Entry<K, V>>, k: K, v: V)
    ensures forall e :: e in Put(m, k, v) ==> e == Entry(k, v) || e in m
    decreases |m|
  {
    if |m| > 0 && m[0].key != k {
      PutEntries(m[1..], k, v);
    }
  }

  /** With distinct keys, every entry is what `get` returns for its key. */
  lemma GetAtIndex<K, V>(m: seq<Entry<K, V>>, i: int)
    requires Seqs.NoDup(Keys(m))
    requires 0 <= i < |m|
    ensures Get(m, m[i].key) == Some(m[i].value)
  {
    var ks := Keys(m);
    assert ks[i] == m[i].key;
    var r := Get(m, m[i].key);
    var j :| 0 <= j < |m| && m[j] == Entry(m[i].key, r.value);
    assert ks[j] == ks[i];
    assert j == i;
  }

  /** The last value given to key `k` in a list of entries. */
  function LastValue<K(==), V>(es: seq<Entry<K, V>>, k: K): Option<V>
    decreases |es|
  {
    if |es| == 0 then None
    else if es[|es| - 1].key == k then Some(es[|es| - 1].value)
    else LastValue(es[..|es| - 1], k)
  }

  /** `new Map(entries)`: every entry `set` in order. */
  function FromEntries<K(==,!new), V>(es: seq<Entry<K, V>>): (m: seq<Entry<K, V>>)
    ensures Keys(m) == Seqs.Dedup(Keys(es))
    ensures forall k :: Get(m, k) == LastValue(es, k)
    decreases |es|
  {
    if |es| == 0 then []
    else
      var init := es[..|es| - 1];
      var e := es[|es| - 1];
      assert Keys(es) == Keys(init) + [e.key];
      Seqs.DedupSnoc(Keys(init), e.key);
      var m := Put(FromEntries(init), e.key, e.value);
      forall k ensures Get(m, k) == LastValue(es, k) {
        PutGet(FromEntries(init), e.key, e.value, k);
      }
      m
  }

  /** Every entry of the built map is one of the given entries. */
  lemma {:induction false} FromEntriesEntries<K(!new), V>(es: seq<Entry<K, V>>)
    ensures forall e :: e in FromEntries(es) ==> e in es
    decreases |es|
  {
    if |es| > 0 {
      var init := es[..|es| - 1];
      FromEntriesEntries(init);
      PutEntries(FromEntries(init), es[|es| - 1].key, es[|es| - 1].value);
      assert forall e :: e in init ==> e in es;
    }
  }
}
