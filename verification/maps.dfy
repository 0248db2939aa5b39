/** The two keyed maps the extension builds from stored lists:
    `new Map(channels.map(ch => [ch.id, ch]))` (or the equivalent
    `forEach`/`set` loop) and the same for categories. */
module Maps {
  import opened Wrappers
  import opened Model
  import opened OrderedMap
  import Seqs

  /** Every entry is filed under its channel's own id. */
  ghost predicate ChannelsKeyed(m: seq<Entry<string, Channel>>) {
    forall e :: e in m ==> e.value.id == e.key
  }

  /** Every entry is filed under its category's own id. */
  ghost predicate CategoriesKeyed(m: seq<Entry<string, Category>>) {
    forall e :: e in m ==> e.value.id == e.key
  }

  /** `channels.map(ch => [ch.id, ch])`. */
  function ChannelEntries(chs: seq<Channel>): (es: seq<Entry<string, Channel>>)
    ensures |es| == |chs|
    ensures forall i :: 0 <= i < |chs| ==> es[i] == Entry(chs[i].id, chs[i])
    ensures Keys(es) == ChannelIds(chs)
  {
    seq(|chs|, i requires 0 <= i < |chs| => Entry(chs[i].id, chs[i]))
  }

  /** `categories.map(c => [c.id, c])`. */
  function CategoryEntries(cs: seq<Category>): (es: seq<Entry<string, Category>>)
    ensures |es| == |cs|
    ensures forall i :: 0 <= i < |cs| ==> es[i] == Entry(cs[i].id, cs[i])
    ensures Keys(es) == CategoryIds(cs)
  {
    seq(|cs|, i requires 0 <= i < |cs| => Entry(cs[i].id, cs[i]))
  }

  /** The channel map: one key per distinct id in order of first
      appearance, each holding the last channel stored under it. */
  function ChannelMap(chs: seq<Channel>): (m: seq<Entry<string, Channel>>)
    ensures Keys(m) == Seqs.Dedup(ChannelIds(chs))
    ensures ChannelsKeyed(m)
    ensures forall k :: Get(m, k) == LastValue(ChannelEntries(chs), k)
  {
    var es := ChannelEntries(chs);
    FromEntriesEntries(es);
    FromEntries(es)
  }

  /** The category map, built the same way. */
  function CategoryMap(cs: seq<Category>): (m: seq<Entry<string, Category>>)
    ensures Keys(m) == Seqs.Dedup(CategoryIds(cs))
    ensures CategoriesKeyed(m)
    ensures forall k :: Get(m, k) == LastValue(CategoryEntries(cs), k)
  {
    var es := CategoryEntries(cs);
    FromEntriesEntries(es);
    FromEntries(es)
  }

  /** The values of a keyed channel map list their ids in key order. */
  lemma ChannelValuesIds(m: seq<Entry<string, Channel>>)
    requires ChannelsKeyed(m)
    ensures ChannelIds(Values(m)) == Keys(m)
  {
    assert forall i :: 0 <= i < |m| ==> m[i] in m;
  }

  /** The values of a keyed category map list their ids in key order. */
  lemma CategoryValuesIds(m: seq<Entry<string, Category>>)
    requires CategoriesKeyed(m)
    ensures CategoryIds(Values(m)) == Keys(m)
  {
    assert forall i :: 0 <= i < |m| ==> m[i] in m;
  }

  /** A keyed map with distinct keys answers `get` for the id of each of its
      values with that value. */
  lemma ChannelAt(m: seq<Entry<string, Channel>>, i: int)
    requires ChannelsKeyed(m) && Seqs.NoDup(Keys(m))
    requires 0 <= i < |m|
    ensures Values(m)[i].id == Keys(m)[i]
    ensures Get(m, Values(m)[i].id) == Some(Values(m)[i])
  {
    assert m[i] in m;
    GetAtIndex(m, i);
  }

  /** The same for categories. */
  lemma CategoryAt(m: seq<Entry<string, Category>>, i: int)
    requires CategoriesKeyed(m) && Seqs.NoDup(Keys(m))
    requires 0 <= i < |m|
    ensures Values(m)[i].id == Keys(m)[i]
    ensures Get(m, Values(m)[i].id) == Some(Values(m)[i])
  {
    assert m[i] in m;
    GetAtIndex(m, i);
  }

  /** A keyed channel map answers `get(k)` with a channel whose id is `k`. */
  lemma ChannelGetId(m: seq<Entry<string, Channel>>, k: string)
    requires ChannelsKeyed(m)
    requires Get(m, k).Some?
    ensures Get(m, k).value.id == k
  {
    var i :| 0 <= i < |m| && m[i] == Entry(k, Get(m, k).value);
    assert m[i] in m;
  }
}
