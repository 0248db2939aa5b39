/** The channel list of the settings page (src/modules/settings/components/
    channels/channels-tab.tsx) and of the older popup panel
    (src/components/ChannelAssignment.tsx). Both sort a copy of the channels
    by name, filter it by `'all'`, `'unassigned'` or a category id, and edit a
    channel's membership list through `updateChannelCategories`; the panel
    also groups channels by category, keeps a set of expanded groups and
    edits membership through a multi-select. */
module ChannelViews {
  import opened Wrappers
  import opened Model
  import Seqs
  import Ordering
  import Text
  import Storage

  /** The sort key of both lists. */
  function ChannelName(ch: Channel): string {
    ch.name
  }

  /** `[...channels].sort((a, b) => a.name.localeCompare(b.name))`: a sorted
      copy; the argument itself is a value and cannot change. */
  function SortChannels(channels: seq<Channel>): (r: seq<Channel>)
    ensures Ordering.SortedBy(r, ChannelName)
    ensures multiset(r) == multiset(channels)
  {
    Ordering.SortBy(channels, ChannelName)
  }

  /** The channel has no category. */
  predicate IsUnassigned(ch: Channel) {
    |ch.categoryIds| == 0
  }

  /** The channel's membership list contains `id`. */
  function InCategory(id: string): Channel -> bool {
    (ch: Channel) => id in ch.categoryIds
  }

  /** What the filter select shows for a value: everything for `'all'`, the
      channels without a category for `'unassigned'`, and otherwise the
      members of the category with that id. */
  predicate Shows(filter: string, ch: Channel) {
    if filter == "all" then true
    else if filter == "unassigned" then IsUnassigned(ch)
    else filter in ch.categoryIds
  }

  /** `filteredChannels`, from the sorted copy. */
  function FilterChannels(channels: seq<Channel>, filter: string): (r: seq<Channel>)
    ensures forall ch :: ch in r <==> ch in channels && Shows(filter, ch)
    ensures forall ch :: multiset(r)[ch] == if Shows(filter, ch) then multiset(channels)[ch] else 0
    ensures Ordering.SortedBy(r, ChannelName)
    ensures Seqs.IsSubseq(r, SortChannels(channels))
  {
    var sorted := SortChannels(channels);
    assert forall ch :: ch in sorted <==> ch in multiset(channels);
    if filter == "all" then
      Seqs.SubseqRefl(sorted);
      sorted
    else
      var p := if filter == "unassigned" then (ch: Channel) => IsUnassigned(ch) else InCategory(filter);
      assert forall ch :: p(ch) == Shows(filter, ch);
      Ordering.FilterSorted(sorted, p, ChannelName);
      Seqs.FilterSubseq(sorted, p);
      Seqs.Filter(sorted, p)
  }

  /** `'all'` lists every channel, in sorted order. */
  lemma FilterAllIsSorted(channels: seq<Channel>)
    ensures FilterChannels(channels, "all") == SortChannels(channels)
  {
  }

  /** `groupedByCategory` of the panel: every category id maps to its
      members in original order, then `'unassigned'` is set to the channels
      without a category, overwriting a category that has that id. */
  function GroupByCategory(categories: seq<Category>, channels: seq<Channel>): (r: map<string, seq<Channel>>)
    ensures r.Keys == (set i | 0 <= i < |categories| :: categories[i].id) + {"unassigned"}
    ensures forall i :: 0 <= i < |categories| && categories[i].id != "unassigned" ==>
              r[categories[i].id] == Seqs.Filter(channels, InCategory(categories[i].id))
    ensures r["unassigned"] == Seqs.Filter(channels, (ch: Channel) => IsUnassigned(ch))
  {
    var groups := map i | 0 <= i < |categories| :: categories[i].id := Seqs.Filter(channels, InCategory(categories[i].id));
    groups["unassigned" := Seqs.Filter(channels, (ch: Channel) => IsUnassigned(ch))]
  }

  /** A group lists exactly the channels of its category, in the order of
      the channel list; the `'unassigned'` group lists exactly the channels
      without a category. */
  lemma GroupMembers(categories: seq<Category>, channels: seq<Channel>, k: string)
    requires k in GroupByCategory(categories, channels)
    ensures var g := GroupByCategory(categories, channels)[k];
            && (forall ch :: ch in g <==> ch in channels && (if k == "unassigned" then IsUnassigned(ch) else k in ch.categoryIds))
            && Seqs.IsSubseq(g, channels)
  {
    var groups := GroupByCategory(categories, channels);
    if k == "unassigned" {
      Seqs.FilterSubseq(channels, (ch: Channel) => IsUnassigned(ch));
    } else {
      var i :| 0 <= i < |categories| && categories[i].id == k;
      assert groups[k] == Seqs.Filter(channels, InCategory(k));
      Seqs.FilterSubseq(channels, InCategory(k));
    }
  }

  /** No channel is both unassigned and in a category group. */
  lemma UnassignedDisjoint(categories: seq<Category>, channels: seq<Channel>, k: string, ch: Channel)
    requires k in GroupByCategory(categories, channels) && k != "unassigned"
    ensures !(ch in GroupByCategory(categories, channels)[k] && ch in GroupByCategory(categories, channels)["unassigned"])
  {
    GroupMembers(categories, channels, k);
    GroupMembers(categories, channels, "unassigned");
  }

  /** Filtering the list by a category shows the same channels, as often,
      as that category's group; only the order differs (sorted by name). */
  lemma FilterMatchesGroup(categories: seq<Category>, channels: seq<Channel>, k: string)
    requires k in GroupByCategory(categories, channels) && k != "all"
    ensures multiset(FilterChannels(channels, k)) == multiset(GroupByCategory(categories, channels)[k])
  {
    var g := GroupByCategory(categories, channels)[k];
    var f := FilterChannels(channels, k);
    var p := GroupTest(k);
    GroupIsFilter(categories, channels, k);
    forall ch ensures multiset(g)[ch] == multiset(f)[ch] {
      assert p(ch) == Shows(k, ch);
    }
    assert multiset(g) == multiset(f);
  }

  /** The membership test of the group keyed `k`. */
  function GroupTest(k: string): Channel -> bool {
    if k == "unassigned" then (ch: Channel) => IsUnassigned(ch) else InCategory(k)
  }

  lemma GroupIsFilter(categories: seq<Category>, channels: seq<Channel>, k: string)
    requires k in GroupByCategory(categories, channels)
    ensures GroupByCategory(categories, channels)[k] == Seqs.Filter(channels, GroupTest(k))
  {
    if k != "unassigned" {
      var i :| 0 <= i < |categories| && categories[i].id == k;
    }
  }

  /** The membership list `handleCategoryChange` computes for the channel
      with the id in the rendered list: the category appended when checked
      (even when already present), every occurrence removed when unchecked;
      nothing when the rendered list has no such channel. */
  function ChangedCategories(channels: seq<Channel>, channelId: string, categoryId: string, isChecked: bool): (r: Option<seq<string>>)
    ensures r.None? <==> channelId !in ChannelIds(channels)
    ensures r.Some? ==>
              exists i ::
                && 0 <= i < |channels| && channels[i].id == channelId
                && (forall j :: 0 <= j < i ==> channels[j].id != channelId)
                && (isChecked ==> r.value == channels[i].categoryIds + [categoryId])
                && (!isChecked ==> (categoryId !in r.value
                                    && (forall x :: x != categoryId ==> (x in r.value <==> x in channels[i].categoryIds))
                                    && (forall x :: x != categoryId ==> multiset(r.value)[x] == multiset(channels[i].categoryIds)[x])
                                    && Seqs.IsSubseq(r.value, channels[i].categoryIds)))
  {
    match Storage.FindChannel(channels, channelId)
    case None => None
    case Some(i) =>
      Some(EditMembership(channels[i].categoryIds, categoryId, isChecked))
  }

  /** A membership list with `categoryId` appended when checked, or with
      every copy of it removed, the rest in order, when unchecked. */
  function EditMembership(ids: seq<string>, categoryId: string, isChecked: bool): (r: seq<string>)
    ensures isChecked ==> r == ids + [categoryId]
    ensures !isChecked ==> (categoryId !in r
                            && (forall x :: x != categoryId ==> (x in r <==> x in ids))
                            && (forall x :: x != categoryId ==> multiset(r)[x] == multiset(ids)[x])
                            && Seqs.IsSubseq(r, ids))
  {
    Seqs.RemoveAllSubseq(ids, categoryId);
    if isChecked then ids + [categoryId] else Seqs.RemoveAll(ids, categoryId)
  }

  /** `handleCategoryChange` of either list: the computed membership list is
      written with `updateChannelCategories`; an unknown channel writes
      nothing. */
  function HandleCategoryChange(stored: Option<StorageData>, channels: seq<Channel>, channelId: string, categoryId: string, isChecked: bool): (r: Option<StorageData>)
    ensures channelId !in ChannelIds(channels) ==> r.None?
    ensures channelId in ChannelIds(channels) ==>
              r == Storage.UpdateChannelCategories(stored, channelId, ChangedCategories(channels, channelId, categoryId, isChecked).value)
  {
    match ChangedCategories(channels, channelId, categoryId, isChecked)
    case None => None
    case Some(ids) => Storage.UpdateChannelCategories(stored, channelId, ids)
  }

  /** Unchecking right after checking leaves the list as unchecking alone
      would, and restores it when the category was not there before. */
  lemma {:induction false} CheckThenUncheck(ids: seq<string>, categoryId: string)
    ensures Seqs.RemoveAll(ids + [categoryId], categoryId) == Seqs.RemoveAll(ids, categoryId)
    ensures categoryId !in ids ==> Seqs.RemoveAll(ids + [categoryId], categoryId) == ids
    decreases |ids|
  {
    if |ids| == 0 {
      assert ids + [categoryId] == [categoryId];
      assert [categoryId][1..] == [];
    } else {
      CheckThenUncheck(ids[1..], categoryId);
      assert (ids + [categoryId])[1..] == ids[1..] + [categoryId];
    }
    if categoryId !in ids {
      Seqs.RemoveAllAbsent(ids, categoryId);
    }
  }

  /** `handleCategoryCreate` of the settings list: the category is appended,
      then, when the rendered list has the channel, its membership list with
      the new id appended is written. */
  function HandleCategoryCreate(stored: Option<StorageData>, channels: seq<Channel>, channelId: string, c: Category): (r: StorageData)
    ensures r.categories == Storage.GetStorageData(stored).categories + [c]
    ensures r.activeFilters == Storage.GetStorageData(stored).activeFilters
    ensures ChannelIds(r.channels) == ChannelIds(Storage.GetStorageData(stored).channels)
    ensures channelId !in ChannelIds(channels) || channelId !in ChannelIds(Storage.GetStorageData(stored).channels) ==>
              r.channels == Storage.GetStorageData(stored).channels
    ensures channelId in ChannelIds(channels) && channelId in ChannelIds(Storage.GetStorageData(stored).channels) ==>
              var before := Storage.GetStorageData(stored).channels;
              exists i :: 0 <= i < |before| && before[i].id == channelId
                && (forall j :: 0 <= j < i ==> before[j].id != channelId)
                && r.channels == before[i := before[i].(categoryIds := ChangedCategories(channels, channelId, c.id, true).value)]
    ensures channelId in ChannelIds(channels) ==>
              r == Storage.UpdateChannelCategories(Some(Storage.AddCategory(stored, c)), channelId,
                                                   ChangedCategories(channels, channelId, c.id, true).value)
                     .GetOr(Storage.AddCategory(stored, c))
  {
    var added := Storage.AddCategory(stored, c);
    match HandleCategoryChange(Some(added), channels, channelId, c.id, true)
    case None => added
    case Some(d) => d
  }

  /** The count label's noun: `channel`, plural unless the count is 1. */
  function CountNoun(count: nat): (r: string)
    ensures r == "channel" <==> count == 1
    ensures r == "channel" || r == "channels"
  {
    "channel" + Text.PluralSuffix(count)
  }

  /** `toggleCategory` of the panel: flips whether one group is expanded. */
  function ToggleExpanded(expanded: set<string>, categoryId: string): (r: set<string>)
    ensures categoryId in r <==> categoryId !in expanded
    ensures forall x :: x != categoryId ==> (x in r <==> x in expanded)
  {
    if categoryId in expanded then expanded - {categoryId} else expanded + {categoryId}
  }

  /** Expanding and collapsing a group restores the set. */
  lemma ToggleExpandedTwice(expanded: set<string>, categoryId: string)
    ensures ToggleExpanded(ToggleExpanded(expanded, categoryId), categoryId) == expanded
  {
  }

  /** The multi-select's `size`: one row per category plus one, at most five. */
  function ListboxSize(categoryCount: nat): (r: nat)
    ensures 1 <= r <= 5
    ensures r <= categoryCount + 1
    ensures categoryCount < 5 ==> r == categoryCount + 1
    ensures categoryCount >= 4 ==> r == 5
  {
    if categoryCount + 1 < 5 then categoryCount + 1 else 5
  }

  /** The ids the multi-select's handler adds: the selected ones not in the
      channel's list, in selection order. */
  function Added(current: seq<string>, selected: seq<string>): (r: seq<string>)
    ensures forall x :: x in r <==> x in selected && x !in current
  {
    Seqs.Filter(selected, NotIn(current))
  }

  /** The id is not in the list. */
  function NotIn(xs: seq<string>): string -> bool {
    x => x !in xs
  }

  /** The ids the handler removes: the listed ones no longer selected, in
      list order. */
  function Removed(current: seq<string>, selected: seq<string>): (r: seq<string>)
    ensures forall x :: x in r <==> x in current && x !in selected
  {
    Seqs.Filter(current, NotIn(selected))
  }

  /** The multi-select's `onChange` as written: one `handleCategoryChange`
      per added and per removed id, each computed from the same rendered
      list, so each write is that list with one id added or removed. The
      writes race; whichever lands last is what storage keeps. The ids to
      change come from the row's own channel, while each write starts from
      the first rendered channel with that id; `current` stands for both,
      which are the same list unless two rendered channels share an id. */
  function MultiSelectWrites(current: seq<string>, selected: seq<string>): (r: seq<seq<string>>)
    ensures |r| == |Added(current, selected)| + |Removed(current, selected)|
    ensures forall k :: 0 <= k < |Added(current, selected)| ==>
              r[k] == current + [Added(current, selected)[k]]
    ensures forall k :: 0 <= k < |Removed(current, selected)| ==>
              r[|Added(current, selected)| + k] == Seqs.RemoveAll(current, Removed(current, selected)[k])
  {
    WritesFor(current, Added(current, selected), Removed(current, selected))
  }

  /** The writes for given added and removed ids, adds first. */
  function WritesFor(current: seq<string>, add: seq<string>, rem: seq<string>): (r: seq<seq<string>>)
    ensures |r| == |add| + |rem|
    ensures forall k :: 0 <= k < |add| ==> r[k] == current + [add[k]]
    ensures forall k :: 0 <= k < |rem| ==> r[|add| + k] == Seqs.RemoveAll(current, rem[k])
  {
    var adds := AddWrites(current, add);
    var removes := RemoveWrites(current, rem);
    var r := adds + removes;
    forall k | 0 <= k < |rem| ensures r[|add| + k] == Seqs.RemoveAll(current, rem[k]) {
      assert r[|add| + k] == removes[k];
    }
    r
  }

  /** One write per added id: the snapshot with that id appended. */
  function AddWrites(current: seq<string>, ids: seq<string>): (r: seq<seq<string>>)
    ensures |r| == |ids|
    ensures forall k :: 0 <= k < |ids| ==> r[k] == current + [ids[k]]
  {
    seq(|ids|, k requires 0 <= k < |ids| => current + [ids[k]])
  }

  /** One write per removed id: the snapshot without that id. */
  function RemoveWrites(current: seq<string>, ids: seq<string>): (r: seq<seq<string>>)
    ensures |r| == |ids|
    ensures forall k :: 0 <= k < |ids| ==> r[k] == Seqs.RemoveAll(current, ids[k])
  {
    seq(|ids|, k requires 0 <= k < |ids| => Seqs.RemoveAll(current, ids[k]))
  }

  /** The ids in a list, forgetting order and repetition. */
  function Members(xs: seq<string>): set<string> {
    set x | x in xs
  }

  /** When a change adds or removes two or more different ids, no single
      write of the handler as written leaves the channel with the selected
      categories: whichever write lands last, all but one change is lost. */
  lemma MultiSelectLosesChanges(current: seq<string>, selected: seq<string>, a: string, b: string)
    requires a != b
    requires a in Added(current, selected) + Removed(current, selected)
    requires b in Added(current, selected) + Removed(current, selected)
    ensures forall w :: w in MultiSelectWrites(current, selected) ==> Members(w) != Members(selected)
  {
    forall w | w in MultiSelectWrites(current, selected) ensures Members(w) != Members(selected) {
      WriteInMisses(current, selected, a, b, w);
    }
  }

  /** Any one write misses the change of `a` or of `b`. */
  lemma WriteInMisses(current: seq<string>, selected: seq<string>, a: string, b: string, w: seq<string>)
    requires a != b && Changed(current, selected, a) && Changed(current, selected, b)
    requires w in MultiSelectWrites(current, selected)
    ensures Members(w) != Members(selected)
  {
    var writes := MultiSelectWrites(current, selected);
    var k :| 0 <= k < |writes| && writes[k] == w;
    WriteMisses(current, selected, a, b, k);
  }

  /** `id` is one of the ids the change adds or removes. */
  ghost predicate Changed(current: seq<string>, selected: seq<string>, id: string) {
    id in Added(current, selected) + Removed(current, selected)
  }

  /** The `k`-th write misses the change of one of `a`, `b`: whichever
      differs from the id this write changes. */
  lemma WriteMisses(current: seq<string>, selected: seq<string>, a: string, b: string, k: int)
    requires a != b && Changed(current, selected, a) && Changed(current, selected, b)
    requires 0 <= k < |MultiSelectWrites(current, selected)|
    ensures Members(MultiSelectWrites(current, selected)[k]) != Members(selected)
  {
    var add := Added(current, selected);
    var rem := Removed(current, selected);
    if k < |add| {
      var y := OtherChanged(current, selected, a, b, add[k]);
      AddedWriteMissesAt(current, selected, k, y);
    } else {
      var y := OtherChanged(current, selected, a, b, rem[k - |add|]);
      RemovedWriteMissesAt(current, selected, k, y);
    }
  }

  /** The write for the `k`-th added id misses the change of any other id. */
  lemma AddedWriteMissesAt(current: seq<string>, selected: seq<string>, k: int, y: string)
    requires 0 <= k < |Added(current, selected)|
    requires y != Added(current, selected)[k] && (y in selected <==> y !in current)
    ensures Members(MultiSelectWrites(current, selected)[k]) != Members(selected)
  {
    var x := Added(current, selected)[k];
    assert MultiSelectWrites(current, selected)[k] == current + [x];
    AddedWriteMisses(current, selected, x, y);
  }

  /** The `k`-th write, which removes an id, misses the change of any other
      id. */
  lemma RemovedWriteMissesAt(current: seq<string>, selected: seq<string>, k: int, y: string)
    requires |Added(current, selected)| <= k < |Added(current, selected)| + |Removed(current, selected)|
    requires y != Removed(current, selected)[k - |Added(current, selected)|] && (y in selected <==> y !in current)
    ensures Members(MultiSelectWrites(current, selected)[k]) != Members(selected)
  {
    var j := k - |Added(current, selected)|;
    var x := Removed(current, selected)[j];
    assert MultiSelectWrites(current, selected)[|Added(current, selected)| + j] == Seqs.RemoveAll(current, x);
    RemovedWriteMisses(current, selected, x, y);
  }

  /** Of two different changed ids, one differs from `x`; being changed, it
      is selected exactly when the channel did not have it. */
  lemma OtherChanged(current: seq<string>, selected: seq<string>, a: string, b: string, x: string) returns (y: string)
    requires a != b && Changed(current, selected, a) && Changed(current, selected, b)
    ensures y != x && (y in selected <==> y !in current)
  {
    y := if a == x then b else a;
    assert y in Added(current, selected) + Removed(current, selected);
  }

  /** A write adding `x` misses the change of any other id `y`. */
  lemma AddedWriteMisses(current: seq<string>, selected: seq<string>, x: string, y: string)
    requires y != x && (y in selected <==> y !in current)
    ensures Members(current + [x]) != Members(selected)
  {
    assert y in Members(current + [x]) <==> y in current;
  }

  /** A write removing `x` misses the change of any other id `y`. */
  lemma RemovedWriteMisses(current: seq<string>, selected: seq<string>, x: string, y: string)
    requires y != x && (y in selected <==> y !in current)
    ensures Members(Seqs.RemoveAll(current, x)) != Members(selected)
  {
    assert y in Members(Seqs.RemoveAll(current, x)) <==> y in current;
  }

  /** Concretely: a channel in categories `A` and `B` switched to just `C`
      gets three writes — `[A, B, C]`, `[B]` and `[A]` — and none of them is
      `{C}`. */
  lemma MultiSelectCounterexample()
    ensures var w := MultiSelectWrites(["A", "B"], ["C"]);
            |w| == 3 && w[0] == ["A", "B", "C"] && w[1] == ["B"] && w[2] == ["A"]
    ensures forall w :: w in MultiSelectWrites(["A", "B"], ["C"]) ==> Members(w) != Members(["C"])
  {
    CounterexampleWrites();
    CounterexampleDiff();
    MultiSelectLosesChanges(["A", "B"], ["C"], "A", "C");
  }

  /** The three writes of the example, one by one. */
  lemma CounterexampleWrites()
    ensures var w := MultiSelectWrites(["A", "B"], ["C"]);
            |w| == 3 && w[0] == ["A", "B", "C"] && w[1] == ["B"] && w[2] == ["A"]
  {
    CounterexampleAddWrite();
    CounterexampleRemoveWrites();
  }

  lemma CounterexampleAddWrite()
    ensures var w := MultiSelectWrites(["A", "B"], ["C"]);
            |w| == 3 && w[0] == ["A", "B", "C"]
  {
    CounterexampleDiff();
    OneAddTwoRemoves(["A", "B"], ["C"], "C");
    CounterexampleAppend();
  }

  lemma CounterexampleAppend()
    ensures ["A", "B"] + ["C"] == ["A", "B", "C"]
  {
    var l: seq<string> := ["A", "B"] + ["C"];
    assert |l| == 3 && l[0] == "A" && l[1] == "B" && l[2] == "C";
  }

  /** A change that adds one id `x` and removes two gets three writes, the
      first appending `x`. */
  lemma {:induction false} OneAddTwoRemoves(current: seq<string>, selected: seq<string>, x: string)
    requires Added(current, selected) == [x] && |Removed(current, selected)| == 2
    ensures var w := MultiSelectWrites(current, selected);
            |w| == 3 && w[0] == current + [x]
  {
    assert Added(current, selected)[0] == x;
  }

  lemma CounterexampleRemoveWrites()
    ensures var w := MultiSelectWrites(["A", "B"], ["C"]);
            |w| == 3 && w[1] == ["B"] && w[2] == ["A"]
  {
    var cur: seq<string> := ["A", "B"];
    CounterexampleDiff();
    CounterexampleRemovals();
    var w := MultiSelectWrites(cur, ["C"]);
    assert w[1] == Seqs.RemoveAll(cur, "A");
    assert w[2] == Seqs.RemoveAll(cur, "B");
  }

  lemma CounterexampleDiff()
    ensures Added(["A", "B"], ["C"]) == ["C"]
    ensures Removed(["A", "B"], ["C"]) == ["A", "B"]
  {
    var cur: seq<string> := ["A", "B"];
    var sel: seq<string> := ["C"];
    assert NotIn(cur)("C") && NotIn(sel)("A") && NotIn(sel)("B");
    assert sel[1..] == [] && cur[1..] == ["B"] && cur[1..][1..] == [];
    assert Seqs.Filter(sel, NotIn(cur)) == [sel[0]] + Seqs.Filter([], NotIn(cur));
    assert Seqs.Filter(["B"], NotIn(sel)) == ["B"] + Seqs.Filter([], NotIn(sel));
    assert Seqs.Filter(cur, NotIn(sel)) == ["A"] + Seqs.Filter(["B"], NotIn(sel));
  }

  lemma CounterexampleRemovals()
    ensures Seqs.RemoveAll(["A", "B"], "A") == ["B"]
    ensures Seqs.RemoveAll(["A", "B"], "B") == ["A"]
  {
    assert ["A", "B"][1..] == ["B"];
    assert Seqs.RemoveAll(["B"], "A") == ["B"];
    assert Seqs.RemoveAll(["B"], "B") == [];
  }

  /** The intended result of a multi-select change, as one list: the kept
      ids in their old order, then the newly selected ones. */
  function MultiSelectTarget(current: seq<string>, selected: seq<string>): (r: seq<string>)
    ensures Members(r) == Members(selected)
    ensures Seqs.IsSubseq(Seqs.Filter(current, x => x in selected), r)
  {
    var kept := Seqs.Filter(current, x => x in selected);
    SubseqPrefix(kept, Added(current, selected));
    kept + Added(current, selected)
  }

  lemma {:induction false} SubseqPrefix<T>(a: seq<T>, b: seq<T>)
    ensures Seqs.IsSubseq(a, a + b)
    decreases |a|
  {
    if |a| > 0 {
      SubseqPrefix(a[1..], b);
      assert (a + b)[1..] == a[1..] + b;
    }
  }

  /** The multi-select change written as one update: storage is written
      exactly when both the rendered list and storage have the channel; the
      first stored channel with the id then ends with exactly the selected
      categories, and nothing else changes. */
  function MultiSelectChange(stored: Option<StorageData>, channels: seq<Channel>, channelId: string, selected: seq<string>): (r: Option<StorageData>)
    ensures channelId !in ChannelIds(channels) ==> r.None?
    ensures channelId in ChannelIds(channels) ==>
              (r.Some? <==> channelId in ChannelIds(Storage.GetStorageData(stored).channels))
    ensures r.Some? ==>
              var before := Storage.GetStorageData(stored).channels;
              && |r.value.channels| == |before|
              && exists i :: WrittenAt(before, r.value.channels, i, channelId, selected)
    ensures r.Some? ==> r.value.categories == Storage.GetStorageData(stored).categories
                        && r.value.activeFilters == Storage.GetStorageData(stored).activeFilters
  {
    match Storage.FindChannel(channels, channelId)
    case None => None
    case Some(i) =>
      var target := MultiSelectTarget(channels[i].categoryIds, selected);
      var r := Storage.UpdateChannelCategories(stored, channelId, target);
      if r.Some? then
        var before := Storage.GetStorageData(stored).channels;
        var k :| 0 <= k < |before| && before[k].id == channelId
                 && r.value.channels == before[k := before[k].(categoryIds := target)]
                 && forall j :: 0 <= j < k ==> before[j].id != channelId;
        assert WrittenAt(before, r.value.channels, k, channelId, selected);
        r
      else r
  }

  /** `after` is `before` with the channel at `i` — the first with the id —
      given exactly the selected categories, and every other channel and
      field left as it was. */
  ghost predicate WrittenAt(before: seq<Channel>, after: seq<Channel>, i: int, channelId: string, selected: seq<string>) {
    && |after| == |before|
    && 0 <= i < |before| && before[i].id == channelId
    && (forall j :: 0 <= j < i ==> before[j].id != channelId)
    && Members(after[i].categoryIds) == Members(selected)
    && after[i].(categoryIds := before[i].categoryIds) == before[i]
    && (forall j :: 0 <= j < |before| && j != i ==> after[j] == before[j])
  }
}
