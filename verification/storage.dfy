/** The persistence layer (src/storage.ts). Everything lives as one
    `StorageData` record under one key of the browser's local storage; every
    helper reads the record, changes a copy and writes back the fields it
    changed, which the writer merges over what is stored.

    Storage itself is the value `stored`: the record under the key, or
    nothing when the key was never written. A helper is a function from it
    to the record it writes, or to `None` when it writes nothing. */
module Storage {
  import opened Wrappers
  import opened Model
  import Seqs

  const STORAGE_KEY: string := "youtube_collections_data"

  /** What a first read yields. */
  const EMPTY: StorageData := StorageData([], [], [])

  /** A `Partial<StorageData>`: the fields a write supplies. */
  datatype Patch = Patch(categories: Option<seq<Category>>, channels: Option<seq<Channel>>, activeFilters: Option<seq<string>>)

  const NO_CHANGE: Patch := Patch(None, None, None)

  /** `getStorageData`: the stored record, or the empty one when the key is
      absent. */
  function GetStorageData(stored: Option<StorageData>): (d: StorageData)
    ensures stored.None? ==> d.categories == [] && d.channels == [] && d.activeFilters == []
    ensures stored.Some? ==> d == stored.value
  {
    stored.GetOr(EMPTY)
  }

  /** `setStorageData`: the supplied fields over the current record. */
  function SetStorageData(stored: Option<StorageData>, p: Patch): (d: StorageData)
    ensures p.categories.Some? ==> d.categories == p.categories.value
    ensures p.channels.Some? ==> d.channels == p.channels.value
    ensures p.activeFilters.Some? ==> d.activeFilters == p.activeFilters.value
    ensures p.categories.None? ==> d.categories == GetStorageData(stored).categories
    ensures p.channels.None? ==> d.channels == GetStorageData(stored).channels
    ensures p.activeFilters.None? ==> d.activeFilters == GetStorageData(stored).activeFilters
  {
    var cur := GetStorageData(stored);
    StorageData(p.categories.GetOr(cur.categories), p.channels.GetOr(cur.channels),
                p.activeFilters.GetOr(cur.activeFilters))
  }

  /** `q` applied over `p`: the later write wins field by field. */
  function Then(p: Patch, q: Patch): Patch {
    Patch(if q.categories.Some? then q.categories else p.categories,
          if q.channels.Some? then q.channels else p.channels,
          if q.activeFilters.Some? then q.activeFilters else p.activeFilters)
  }

  /** Two writes in a row are the one write of their combined fields. */
  lemma SetStorageDataCompose(stored: Option<StorageData>, p: Patch, q: Patch)
    ensures SetStorageData(Some(SetStorageData(stored, p)), q) == SetStorageData(stored, Then(p, q))
  {
  }

  /** A write that supplies no field rewrites what a read returns. */
  lemma SetNothingKeeps(stored: Option<StorageData>)
    ensures SetStorageData(stored, NO_CHANGE) == GetStorageData(stored)
  {
  }

  /** `addCategory`: the category appended, nothing else changed. */
  function AddCategory(stored: Option<StorageData>, c: Category): (d: StorageData)
    ensures d.categories == GetStorageData(stored).categories + [c]
    ensures d.channels == GetStorageData(stored).channels
    ensures d.activeFilters == GetStorageData(stored).activeFilters
  {
    SetStorageData(stored, NO_CHANGE.(categories := Some(GetStorageData(stored).categories + [c])))
  }

  /** `categories.filter(c => c.id !== id)`. */
  function DropCategory(cs: seq<Category>, id: string): (r: seq<Category>)
    ensures |r| <= |cs|
    ensures forall c :: c in r <==> c in cs && c.id != id
    ensures forall c: Category :: c.id != id ==> multiset(r)[c] == multiset(cs)[c]
    decreases |cs|
  {
    if |cs| == 0 then []
    else
      var rest := DropCategory(cs[1..], id);
      assert cs == [cs[0]] + cs[1..];
      DropStep(cs[0], cs[1..], rest, id);
      (if cs[0].id == id then [] else [cs[0]]) + rest
  }

  /** One step of `DropCategory`: if `r` is `rest` without the id's
      categories, then putting `c` in front unless it has the id gives
      `[c] + rest` without them. */
  lemma {:induction false} DropStep(c: Category, rest: seq<Category>, r: seq<Category>, id: string)
    requires |r| <= |rest|
    requires forall x :: x in r <==> x in rest && x.id != id
    requires forall x: Category :: x.id != id ==> multiset(r)[x] == multiset(rest)[x]
    ensures var out := (if c.id == id then [] else [c]) + r;
            && |out| <= |[c] + rest|
            && (forall x :: x in out <==> x in [c] + rest && x.id != id)
            && (forall x: Category :: x.id != id ==> multiset(out)[x] == multiset([c] + rest)[x])
  {
    var out := (if c.id == id then [] else [c]) + r;
    assert multiset([c] + rest) == multiset([c]) + multiset(rest);
    assert multiset(out) == multiset(if c.id == id then [] else [c]) + multiset(r);
  }

  /** Dropping an id no category has changes nothing. */
  lemma {:induction false} DropAbsentCategory(cs: seq<Category>, id: string)
    requires forall i :: 0 <= i < |cs| ==> cs[i].id != id
    ensures DropCategory(cs, id) == cs
    decreases |cs|
  {
    if |cs| > 0 {
      DropAbsentCategory(cs[1..], id);
      assert cs == [cs[0]] + cs[1..];
      DropCategoryCons(cs[0], cs[1..], id);
    }
  }

  /** Dropping only leaves categories out: the rest keep their order. */
  lemma {:induction false} DropCategorySubseq(cs: seq<Category>, id: string)
    ensures Seqs.IsSubseq(DropCategory(cs, id), cs)
    decreases |cs|
  {
    if |cs| > 0 {
      DropCategorySubseq(cs[1..], id);
      var r := DropCategory(cs, id);
      if cs[0].id != id {
        assert r[0] == cs[0] && r[1..] == DropCategory(cs[1..], id);
      } else {
        assert r == DropCategory(cs[1..], id);
      }
    }
  }

  /** Dropping distributes over concatenation. */
  lemma {:induction false} DropCategoryConcat(a: seq<Category>, b: seq<Category>, id: string)
    ensures DropCategory(a + b, id) == DropCategory(a, id) + DropCategory(b, id)
    decreases |a|
  {
    if |a| == 0 {
      assert a + b == b;
    } else {
      var c, rest := a[0], a[1..];
      var h := if c.id == id then [] else [c];
      assert a == [c] + rest;
      Seqs.ConcatAssoc([c], rest, b);
      assert a + b == [c] + (rest + b);
      calc {
        DropCategory(a + b, id);
        { DropCategoryCons(c, rest + b, id); }
        h + DropCategory(rest + b, id);
        { DropCategoryConcat(rest, b, id); }
        h + (DropCategory(rest, id) + DropCategory(b, id));
        { Seqs.ConcatAssoc(h, DropCategory(rest, id), DropCategory(b, id)); }
        (h + DropCategory(rest, id)) + DropCategory(b, id);
        { DropCategoryCons(c, rest, id); }
        DropCategory(a, id) + DropCategory(b, id);
      }
    }
  }

  /** One step of `DropCategory`: the head stays exactly when its id differs. */
  lemma {:induction false} DropCategoryCons(c: Category, cs: seq<Category>, id: string)
    ensures DropCategory([c] + cs, id) == (if c.id == id then [] else [c]) + DropCategory(cs, id)
  {
    assert ([c] + cs)[0] == c;
    assert ([c] + cs)[1..] == cs;
  }

  /** A channel's membership with `id` removed. */
  function WithoutCategory(ch: Channel, id: string): (r: Channel)
    ensures r.id == ch.id && r.name == ch.name && r.thumbnailUrl == ch.thumbnailUrl
    ensures id !in r.categoryIds
    ensures forall x :: x != id ==> (x in r.categoryIds <==> x in ch.categoryIds)
    ensures forall x :: x != id ==> multiset(r.categoryIds)[x] == multiset(ch.categoryIds)[x]
    ensures Seqs.IsSubseq(r.categoryIds, ch.categoryIds)
  {
    Seqs.RemoveAllSubseq(ch.categoryIds, id);
    ch.(categoryIds := Seqs.RemoveAll(ch.categoryIds, id))
  }

  /** `deleteCategory`: every category with the id is gone, and no channel
      refers to it any more; the active filters are left as they were. */
  function DeleteCategory(stored: Option<StorageData>, id: string): (d: StorageData)
    ensures forall c :: c in d.categories <==> c in GetStorageData(stored).categories && c.id != id
    ensures forall c: Category :: c.id != id ==> multiset(d.categories)[c] == multiset(GetStorageData(stored).categories)[c]
    ensures |d.channels| == |GetStorageData(stored).channels|
    ensures forall i :: 0 <= i < |d.channels| ==>
              var before := GetStorageData(stored).channels[i];
              && d.channels[i].id == before.id
              && d.channels[i].name == before.name
              && d.channels[i].thumbnailUrl == before.thumbnailUrl
              && id !in d.channels[i].categoryIds
              && (forall x :: x != id ==> (x in d.channels[i].categoryIds <==> x in before.categoryIds))
              && (forall x :: x != id ==> multiset(d.channels[i].categoryIds)[x] == multiset(before.categoryIds)[x])
              && Seqs.IsSubseq(d.channels[i].categoryIds, before.categoryIds)
    ensures Seqs.IsSubseq(d.categories, GetStorageData(stored).categories)
    ensures d.activeFilters == GetStorageData(stored).activeFilters
  {
    var cur := GetStorageData(stored);
    DropCategorySubseq(cur.categories, id);
    SetStorageData(stored, Patch(Some(DropCategory(cur.categories, id)), Some(StripCategory(cur.channels, id)), None))
  }

  /** Every channel with `id` removed from its memberships, in place. */
  function StripCategory(chs: seq<Channel>, id: string): (r: seq<Channel>)
    ensures |r| == |chs|
    ensures forall i :: 0 <= i < |r| ==> r[i] == WithoutCategory(chs[i], id)
  {
    seq(|chs|, i requires 0 <= i < |chs| => WithoutCategory(chs[i], id))
  }

  /** Deleting a category twice is deleting it once. */
  lemma DeleteCategoryIdempotent(stored: Option<StorageData>, id: string)
    ensures DeleteCategory(Some(DeleteCategory(stored, id)), id) == DeleteCategory(stored, id)
  {
    var d := DeleteCategory(stored, id);
    var d2 := DeleteCategory(Some(d), id);
    forall i | 0 <= i < |d.categories| ensures d.categories[i].id != id {
      assert d.categories[i] in d.categories;
    }
    DropAbsentCategory(d.categories, id);
    forall i | 0 <= i < |d.channels| ensures d2.channels[i] == d.channels[i] {
      Seqs.RemoveAllAbsent(d.channels[i].categoryIds, id);
    }
  }

  /** Adding a category with a fresh id and deleting it again restores the
      stored record. */
  lemma AddThenDelete(d: StorageData, c: Category)
    requires forall i :: 0 <= i < |d.categories| ==> d.categories[i].id != c.id
    requires forall i :: 0 <= i < |d.channels| ==> c.id !in d.channels[i].categoryIds
    ensures DeleteCategory(Some(AddCategory(Some(d), c)), c.id) == d
  {
    var a := AddCategory(Some(d), c);
    var r := DeleteCategory(Some(a), c.id);
    AddThenDropCategories(d.categories, c);
    assert r.categories == d.categories;
    assert a.channels == d.channels;
    forall i | 0 <= i < |d.channels| ensures r.channels[i] == d.channels[i] {
      Seqs.RemoveAllAbsent(d.channels[i].categoryIds, c.id);
    }
    assert r.channels == d.channels;
  }

  /** Dropping a freshly appended id returns the list before the append. */
  lemma AddThenDropCategories(cs: seq<Category>, c: Category)
    requires forall i :: 0 <= i < |cs| ==> cs[i].id != c.id
    ensures DropCategory(cs + [c], c.id) == cs
  {
    DropCategoryConcat(cs, [c], c.id);
    DropAbsentCategory(cs, c.id);
    assert DropCategory([c], c.id) == [];
  }

  /** The first position holding a category with the id, if any (`findIndex`). */
  function FindCategory(cs: seq<Category>, id: string): (r: Option<nat>)
    ensures r.None? <==> forall i :: 0 <= i < |cs| ==> cs[i].id != id
    ensures r.Some? ==> r.value < |cs| && cs[r.value].id == id
                        && forall j :: 0 <= j < r.value ==> cs[j].id != id
    decreases |cs|
  {
    if |cs| == 0 then None
    else if cs[0].id == id then Some(0)
    else match FindCategory(cs[1..], id)
         case None => None
         case Some(k) => Some(k + 1)
  }

  /** `updateCategory`: the first category with the same id is replaced;
      when there is none, nothing is written. */
  function UpdateCategory(stored: Option<StorageData>, c: Category): (r: Option<StorageData>)
    ensures r.None? <==> forall i :: 0 <= i < |GetStorageData(stored).categories| ==>
                           GetStorageData(stored).categories[i].id != c.id
    ensures r.Some? ==>
              var before := GetStorageData(stored).categories;
              && |r.value.categories| == |before|
              && exists i :: 0 <= i < |before| && before[i].id == c.id
                   && r.value.categories == before[i := c]
                   && forall j :: 0 <= j < i ==> before[j].id != c.id
    ensures r.Some? ==> CategoryIds(r.value.categories) == CategoryIds(GetStorageData(stored).categories)
    ensures r.Some? ==> r.value.channels == GetStorageData(stored).channels
                        && r.value.activeFilters == GetStorageData(stored).activeFilters
  {
    var cur := GetStorageData(stored);
    match FindCategory(cur.categories, c.id)
    case None => None
    case Some(i) =>
      var cats := cur.categories[i := c];
      assert CategoryIds(cats) == CategoryIds(cur.categories);
      Some(SetStorageData(stored, NO_CHANGE.(categories := Some(cats))))
  }

  /** Writing back the first category with an id unchanged changes
      nothing. */
  lemma UpdateCategorySame(d: StorageData, i: nat)
    requires i < |d.categories|
    requires forall j :: 0 <= j < i ==> d.categories[j].id != d.categories[i].id
    ensures UpdateCategory(Some(d), d.categories[i]) == Some(d)
  {
    var c := d.categories[i];
    var r := UpdateCategory(Some(d), c);
    var k :| 0 <= k < |d.categories| && d.categories[k].id == c.id
             && r.value.categories == d.categories[k := c]
             && forall j :: 0 <= j < k ==> d.categories[j].id != c.id;
    assert k == i;
    assert r.value.categories == d.categories;
  }

  /** The first position holding a channel with the id, if any (`find`). */
  function FindChannel(chs: seq<Channel>, id: string): (r: Option<nat>)
    ensures r.None? <==> id !in ChannelIds(chs)
    ensures r.Some? ==> r.value < |chs| && chs[r.value].id == id
                        && forall j :: 0 <= j < r.value ==> chs[j].id != id
    decreases |chs|
  {
    if |chs| == 0 then None
    else
      assert ChannelIds(chs) == [chs[0].id] + ChannelIds(chs[1..]);
      if chs[0].id == id then Some(0)
      else match FindChannel(chs[1..], id)
           case None => None
           case Some(k) => Some(k + 1)
  }

  /** `updateChannelCategories`: the first channel with the id takes the new
      membership list; when there is none, nothing is written. */
  function UpdateChannelCategories(stored: Option<StorageData>, channelId: string, categoryIds: seq<string>): (r: Option<StorageData>)
    ensures r.None? <==> channelId !in ChannelIds(GetStorageData(stored).channels)
    ensures r.Some? ==>
              var before := GetStorageData(stored).channels;
              && |r.value.channels| == |before|
              && exists i :: 0 <= i < |before| && before[i].id == channelId
                   && r.value.channels == before[i := before[i].(categoryIds := categoryIds)]
                   && forall j :: 0 <= j < i ==> before[j].id != channelId
    ensures r.Some? ==> ChannelIds(r.value.channels) == ChannelIds(GetStorageData(stored).channels)
    ensures r.Some? ==> r.value.categories == GetStorageData(stored).categories
                        && r.value.activeFilters == GetStorageData(stored).activeFilters
  {
    var cur := GetStorageData(stored);
    match FindChannel(cur.channels, channelId)
    case None => None
    case Some(i) =>
      var chs := cur.channels[i := cur.channels[i].(categoryIds := categoryIds)];
      assert ChannelIds(chs) == ChannelIds(cur.channels);
      Some(SetStorageData(stored, NO_CHANGE.(channels := Some(chs))))
  }

  /** `updateChannels`: the channel list replaced, nothing else changed. */
  function UpdateChannels(stored: Option<StorageData>, channels: seq<Channel>): (d: StorageData)
    ensures d.channels == channels
    ensures d.categories == GetStorageData(stored).categories
    ensures d.activeFilters == GetStorageData(stored).activeFilters
  {
    SetStorageData(stored, NO_CHANGE.(channels := Some(channels)))
  }

  /** `setActiveFilters`: the filter list replaced, nothing else changed. */
  function SetActiveFilters(stored: Option<StorageData>, filterIds: seq<string>): (d: StorageData)
    ensures d.activeFilters == filterIds
    ensures d.categories == GetStorageData(stored).categories
    ensures d.channels == GetStorageData(stored).channels
  {
    SetStorageData(stored, NO_CHANGE.(activeFilters := Some(filterIds)))
  }

  /** `clearActiveFilters`: no filter active, nothing else changed. */
  function ClearActiveFilters(stored: Option<StorageData>): (d: StorageData)
    ensures d.activeFilters == []
    ensures d.categories == GetStorageData(stored).categories
    ensures d.channels == GetStorageData(stored).channels
  {
    SetActiveFilters(stored, [])
  }

  /** Clearing the filters is idempotent and undoes any earlier filter
      selection. */
  lemma ClearAfterSet(stored: Option<StorageData>, filterIds: seq<string>)
    ensures ClearActiveFilters(Some(SetActiveFilters(stored, filterIds))) == ClearActiveFilters(stored)
  {
  }
}
