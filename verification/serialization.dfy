/** Backup export and import (src/modules/serialization/hooks.ts; the
    settings page's data tab, src/modules/settings/components/tabs/data-tab.tsx,
    carries a second copy of the same three routines).

    Export writes the categories and a field-by-field copy of the channels.
    Import is a merge, not a replace: stored categories win over imported
    ones with the same id, imported channels that are not stored locally
    are ignored, and a stored channel that the file also lists takes the
    union of both membership lists, restricted to the categories that exist
    after the merge. */
module Serialization {
  import opened Wrappers
  import opened Model
  import opened OrderedMap
  import Seqs
  import Maps
  import Storage

  /** The export format's version tag. */
  const EXPORT_VERSION: string := "1.0"

  /** An export file's content. `exportDate` is the moment of the export as
      the clock's ISO 8601 text, which the caller supplies. */
  datatype ExportData = ExportData(version: string, exportDate: string, categories: seq<Category>, channels: seq<Channel>)

  /** The export projection: every stored category and every stored channel
      with its four fields, in storage order. */
  function Export(stored: Option<StorageData>, now: string): (e: ExportData)
    ensures e.version == EXPORT_VERSION
    ensures e.exportDate == now
    ensures e.categories == Storage.GetStorageData(stored).categories
    ensures |e.channels| == |Storage.GetStorageData(stored).channels|
    ensures forall i :: 0 <= i < |e.channels| ==>
              var ch := Storage.GetStorageData(stored).channels[i];
              e.channels[i] == Channel(ch.id, ch.name, ch.thumbnailUrl, ch.categoryIds)
  {
    var d := Storage.GetStorageData(stored);
    var chs := seq(|d.channels|, i requires 0 <= i < |d.channels| =>
                 Channel(d.channels[i].id, d.channels[i].name, d.channels[i].thumbnailUrl, d.channels[i].categoryIds));
    ExportData(EXPORT_VERSION, now, d.categories, chs)
  }

  /** Nothing stored is lost by the projection: the exported lists are the
      stored lists. */
  lemma ExportIsLossless(stored: Option<StorageData>, now: string)
    ensures Export(stored, now).categories == Storage.GetStorageData(stored).categories
    ensures Export(stored, now).channels == Storage.GetStorageData(stored).channels
  {
  }

  // ----- categories -----

  /** The first category of `cs` with id `k`. */
  function FirstCategory(cs: seq<Category>, k: string): Option<Category>
    decreases |cs|
  {
    if |cs| == 0 then None
    else if cs[0].id == k then Some(cs[0])
    else FirstCategory(cs[1..], k)
  }

  lemma {:induction false} FirstCategorySnoc(cs: seq<Category>, c: Category, k: string)
    ensures FirstCategory(cs + [c], k)
            == if FirstCategory(cs, k).Some? then FirstCategory(cs, k)
               else if c.id == k then Some(c) else None
    decreases |cs|
  {
    if |cs| > 0 {
      FirstCategorySnoc(cs[1..], c, k);
      assert (cs + [c])[1..] == cs[1..] + [c];
    }
  }

  /** The loop over the imported categories: an id the map lacks is `set`,
      an id it has is left alone. */
  function AddMissing(m: seq<Entry<string, Category>>, imported: seq<Category>): (r: seq<Entry<string, Category>>)
    ensures Seqs.NoDup(Keys(m)) ==> Keys(r) == Seqs.Dedup(Keys(m) + CategoryIds(imported))
    ensures Maps.CategoriesKeyed(m) ==> Maps.CategoriesKeyed(r)
    decreases |imported|
  {
    if |imported| == 0 then
      assert Keys(m) + CategoryIds(imported) == Keys(m);
      Seqs.DedupIdentityIffNoDup(Keys(m));
      m
    else
      var init := imported[..|imported| - 1];
      var c := imported[|imported| - 1];
      var m' := AddMissing(m, init);
      assert CategoryIds(imported) == CategoryIds(init) + [c.id];
      assert Keys(m) + CategoryIds(imported) == (Keys(m) + CategoryIds(init)) + [c.id];
      Seqs.DedupSnoc(Keys(m) + CategoryIds(init), c.id);
      if Get(m', c.id).Some? then m'
      else
        PutEntries(m', c.id, c);
        Put(m', c.id, c)
  }

  /** Under every id the merged map holds the category the map already had,
      or else the first imported category with the id. */
  lemma {:induction false} AddMissingGet(m: seq<Entry<string, Category>>, imported: seq<Category>, k: string)
    ensures Get(AddMissing(m, imported), k) == if Get(m, k).Some? then Get(m, k) else FirstCategory(imported, k)
    decreases |imported|
  {
    if |imported| > 0 {
      var init := imported[..|imported| - 1];
      var c := imported[|imported| - 1];
      assert imported == init + [c];
      AddMissingGet(m, init, k);
      FirstCategorySnoc(init, c, k);
      var m' := AddMissing(m, init);
      if Get(m', c.id).None? {
        PutGet(m', c.id, c, k);
      }
    }
  }

  /** The category map after both loops of `mergeImportData`. */
  function MergedCategoryMap(current: seq<Category>, imported: seq<Category>): (m: seq<Entry<string, Category>>)
    ensures Keys(m) == Seqs.Dedup(CategoryIds(current) + CategoryIds(imported))
    ensures Maps.CategoriesKeyed(m)
  {
    Seqs.DedupOfDedupPrefix(CategoryIds(current), CategoryIds(imported));
    AddMissing(Maps.CategoryMap(current), imported)
  }

  // ----- channel assignments -----

  /** `xs.filter(id => categoryMap.has(id))`. */
  function KeepKnown(xs: seq<string>, known: seq<string>): (r: seq<string>)
    ensures forall x :: x in r <==> x in xs && x in known
    ensures Seqs.NoDup(xs) ==> Seqs.NoDup(r)
    decreases |xs|
  {
    if |xs| == 0 then []
    else
      var rest := KeepKnown(xs[1..], known);
      assert Seqs.NoDup(xs) ==> xs[0] !in xs[1..];
      (if xs[0] in known then [xs[0]] else []) + rest
  }

  /** One imported channel: when its id is stored, the stored record's
      membership becomes the union of both lists, in first-seen order,
      restricted to the known categories. */
  function AssignOne(m: seq<Entry<string, Channel>>, existingIds: seq<string>, known: seq<string>, imp: Channel): seq<Entry<string, Channel>> {
    if imp.id in existingIds then
      match Get(m, imp.id)
      case None => m
      case Some(ex) =>
        Put(m, imp.id, ex.(categoryIds := KeepKnown(Seqs.Dedup(ex.categoryIds + imp.categoryIds), known)))
    else m
  }

  /** The loop over the imported channels. */
  function AssignAll(m: seq<Entry<string, Channel>>, existingIds: seq<string>, known: seq<string>, imported: seq<Channel>): (r: seq<Entry<string, Channel>>)
    ensures Keys(r) == Keys(m)
    ensures Maps.ChannelsKeyed(m) ==> Maps.ChannelsKeyed(r)
    decreases |imported|
  {
    if |imported| == 0 then m
    else
      var init := imported[..|imported| - 1];
      var imp := imported[|imported| - 1];
      var m' := AssignAll(m, existingIds, known, init);
      if imp.id in existingIds && Get(m', imp.id).Some? then
        var ex := Get(m', imp.id).value;
        var ex' := ex.(categoryIds := KeepKnown(Seqs.Dedup(ex.categoryIds + imp.categoryIds), known));
        PutEntries(m', imp.id, ex');
        assert Get(m', imp.id).Some? ==> exists i :: 0 <= i < |m'| && m'[i] == Entry(imp.id, ex);
        AssignOne(m', existingIds, known, imp)
      else AssignOne(m', existingIds, known, imp)
  }

  /** Some imported channel carries the id `k`. */
  ghost predicate Listed(imported: seq<Channel>, k: string) {
    exists j :: 0 <= j < |imported| && imported[j].id == k
  }

  /** Every imported membership list for id `k`, concatenated in file order. */
  function AllImported(imported: seq<Channel>, k: string): seq<string>
    decreases |imported|
  {
    if |imported| == 0 then []
    else
      var last := imported[|imported| - 1];
      AllImported(imported[..|imported| - 1], k) + (if last.id == k then last.categoryIds else [])
  }

  lemma {:induction false} UnlistedImportsNothing(imported: seq<Channel>, k: string)
    requires !Listed(imported, k)
    ensures AllImported(imported, k) == []
    decreases |imported|
  {
    if |imported| > 0 {
      var init := imported[..|imported| - 1];
      assert forall j :: 0 <= j < |init| ==> init[j] == imported[j];
      UnlistedImportsNothing(init, k);
      assert imported[|imported| - 1].id != k;
    }
  }

  /** `after` is `before` with the import's assignments merged in: the same
      channel apart from its membership, which is unchanged when the file
      does not list the channel and otherwise is the stored list followed by
      every imported list, deduplicated in first-seen order and restricted
      to known categories. */
  ghost predicate AssignmentsMerged(before: Channel, after: Channel, imported: seq<Channel>, known: seq<string>) {
    && after.(categoryIds := before.categoryIds) == before
    && (if Listed(imported, before.id) then
          after.categoryIds == KeepKnown(Seqs.Dedup(before.categoryIds + AllImported(imported, before.id)), known)
        else after == before)
  }

  lemma {:induction false} KeepKnownConcat(xs: seq<string>, ys: seq<string>, known: seq<string>)
    ensures KeepKnown(xs + ys, known) == KeepKnown(xs, known) + KeepKnown(ys, known)
    decreases |xs|
  {
    if |xs| == 0 {
      assert xs + ys == ys;
    } else {
      assert (xs + ys)[1..] == xs[1..] + ys;
      KeepKnownConcat(xs[1..], ys, known);
    }
  }

  lemma {:induction false} KeepKnownAll(xs: seq<string>, known: seq<string>)
    requires forall x :: x in xs ==> x in known
    ensures KeepKnown(xs, known) == xs
    decreases |xs|
  {
    if |xs| > 0 {
      KeepKnownAll(xs[1..], known);
      assert xs == [xs[0]] + xs[1..];
    }
  }

  /** Merging in two steps, restricting after each, is merging once: what
      the first restriction dropped is dropped again by the second. */
  lemma {:induction false} KeepDedupAbsorb(xs: seq<string>, ys: seq<string>, known: seq<string>)
    ensures KeepKnown(Seqs.Dedup(KeepKnown(Seqs.Dedup(xs), known) + ys), known)
            == KeepKnown(Seqs.Dedup(xs + ys), known)
    decreases |ys|
  {
    if |ys| == 0 {
      RestrictedIsStable(xs, known);
    } else {
      KeepDedupAbsorb(xs, ys[..|ys| - 1], known);
      AbsorbSnoc(xs, ys, known);
    }
  }

  /** A restricted, deduplicated list is unchanged by doing both again. */
  lemma RestrictedIsStable(xs: seq<string>, known: seq<string>)
    ensures KeepKnown(Seqs.Dedup(KeepKnown(Seqs.Dedup(xs), known) + []), known) == KeepKnown(Seqs.Dedup(xs + []), known)
  {
    var kd := KeepKnown(Seqs.Dedup(xs), known);
    assert kd + [] == kd;
    assert xs + [] == xs;
    Seqs.DedupOfNoDup(kd);
    KeepKnownAll(kd, known);
  }

  lemma AbsorbSnoc(xs: seq<string>, ys: seq<string>, known: seq<string>)
    requires |ys| > 0
    requires var kd := KeepKnown(Seqs.Dedup(xs), known);
             KeepKnown(Seqs.Dedup(kd + ys[..|ys| - 1]), known) == KeepKnown(Seqs.Dedup(xs + ys[..|ys| - 1]), known)
    ensures KeepKnown(Seqs.Dedup(KeepKnown(Seqs.Dedup(xs), known) + ys), known) == KeepKnown(Seqs.Dedup(xs + ys), known)
  {
    var kd := KeepKnown(Seqs.Dedup(xs), known);
    var init := ys[..|ys| - 1];
    var y := ys[|ys| - 1];
    SnocShape(kd, ys);
    SnocShape(xs, ys);
    AbsorbCore(kd, xs, init, y, known);
  }

  lemma SnocShape(a: seq<string>, ys: seq<string>)
    requires |ys| > 0
    ensures a + ys == (a + ys[..|ys| - 1]) + [ys[|ys| - 1]]
  {
    assert ys == ys[..|ys| - 1] + [ys[|ys| - 1]];
  }

  lemma AbsorbCore(kd: seq<string>, xs: seq<string>, init: seq<string>, y: string, known: seq<string>)
    requires kd == KeepKnown(Seqs.Dedup(xs), known)
    requires KeepKnown(Seqs.Dedup(kd + init), known) == KeepKnown(Seqs.Dedup(xs + init), known)
    ensures KeepKnown(Seqs.Dedup((kd + init) + [y]), known) == KeepKnown(Seqs.Dedup((xs + init) + [y]), known)
  {
    Seqs.DedupSnoc(kd + init, y);
    Seqs.DedupSnoc(xs + init, y);
    KeepKnownConcat(Seqs.Dedup(kd + init), [y], known);
    KeepKnownConcat(Seqs.Dedup(xs + init), [y], known);
    assert [y][1..] == [];
    if y in known {
      assert y in Seqs.Dedup(kd + init) <==> y in Seqs.Dedup(xs + init);
    }
  }

  /** One more imported channel keeps the merge relation. */
  lemma AssignStep(before: Channel, mid: Channel, init: seq<Channel>, imp: Channel, known: seq<string>)
    requires AssignmentsMerged(before, mid, init, known)
    ensures AssignmentsMerged(before,
              if imp.id == before.id
              then mid.(categoryIds := KeepKnown(Seqs.Dedup(mid.categoryIds + imp.categoryIds), known))
              else mid,
              init + [imp], known)
  {
    var imported := init + [imp];
    var k := before.id;
    assert imported[..|imported| - 1] == init;
    assert forall j :: 0 <= j < |init| ==> imported[j] == init[j];
    assert imported[|init|] == imp;
    assert Listed(imported, k) <==> Listed(init, k) || imp.id == k;
    assert AllImported(imported, k) == AllImported(init, k) + (if imp.id == k then imp.categoryIds else []);
    if imp.id == k {
      var after := mid.(categoryIds := KeepKnown(Seqs.Dedup(mid.categoryIds + imp.categoryIds), known));
      assert Listed(imported, k);
      if Listed(init, k) {
        ListedStep(before.categoryIds, AllImported(init, k), imp.categoryIds, known);
        assert after.categoryIds == KeepKnown(Seqs.Dedup(before.categoryIds + AllImported(imported, k)), known);
      } else {
        UnlistedImportsNothing(init, k);
        assert AllImported(imported, k) == imp.categoryIds;
        assert after.categoryIds == KeepKnown(Seqs.Dedup(before.categoryIds + AllImported(imported, k)), known);
      }
      assert AssignmentsMerged(before, after, imported, known);
    } else {
      assert Listed(imported, k) == Listed(init, k);
      assert AllImported(imported, k) == AllImported(init, k);
      assert AssignmentsMerged(before, mid, imported, known);
    }
  }

  lemma ListedStep(stored: seq<string>, earlier: seq<string>, later: seq<string>, known: seq<string>)
    ensures KeepKnown(Seqs.Dedup(KeepKnown(Seqs.Dedup(stored + earlier), known) + later), known)
            == KeepKnown(Seqs.Dedup(stored + (earlier + later)), known)
  {
    var all := stored + (earlier + later);
    Seqs.ConcatAssoc(stored, earlier, later);
    assert all == (stored + earlier) + later;
    calc {
      KeepKnown(Seqs.Dedup(KeepKnown(Seqs.Dedup(stored + earlier), known) + later), known);
      { KeepDedupAbsorb(stored + earlier, later, known); }
      KeepKnown(Seqs.Dedup((stored + earlier) + later), known);
      KeepKnown(Seqs.Dedup(all), known);
    }
  }

  /** One iteration of the loop, read under one id. */
  lemma AssignOneGet(m: seq<Entry<string, Channel>>, existingIds: seq<string>, known: seq<string>, imp: Channel, k: string)
    requires imp.id == k ==> k in existingIds
    ensures Get(AssignOne(m, existingIds, known, imp), k)
            == if imp.id == k && Get(m, k).Some?
               then Some(Get(m, k).value.(categoryIds :=
                      KeepKnown(Seqs.Dedup(Get(m, k).value.categoryIds + imp.categoryIds), known)))
               else Get(m, k)
  {
    if imp.id in existingIds && Get(m, imp.id).Some? {
      var ex := Get(m, imp.id).value;
      PutGet(m, imp.id, ex.(categoryIds := KeepKnown(Seqs.Dedup(ex.categoryIds + imp.categoryIds), known)), k);
    }
  }

  lemma {:induction false} AssignAllGet(m: seq<Entry<string, Channel>>, existingIds: seq<string>, known: seq<string>,
                                        imported: seq<Channel>, k: string)
    requires Maps.ChannelsKeyed(m)
    requires k in existingIds <==> Get(m, k).Some?
    ensures Get(AssignAll(m, existingIds, known, imported), k).Some? == Get(m, k).Some?
    ensures Get(m, k).Some? ==>
              AssignmentsMerged(Get(m, k).value, Get(AssignAll(m, existingIds, known, imported), k).value, imported, known)
    decreases |imported|
  {
    if |imported| == 0 {
      return;
    }
    var init := imported[..|imported| - 1];
    var imp := imported[|imported| - 1];
    assert imported == init + [imp];
    AssignAllGet(m, existingIds, known, init, k);
    var m' := AssignAll(m, existingIds, known, init);
    assert AssignAll(m, existingIds, known, imported) == AssignOne(m', existingIds, known, imp);
    if Get(m, k).Some? {
      Maps.ChannelGetId(m, k);
      AssignOneGet(m', existingIds, known, imp, k);
      AssignStep(Get(m, k).value, Get(m', k).value, init, imp, known);
    } else if imp.id != k {
      AssignOneGet(m', existingIds, known, imp, k);
    } else {
      assert imp.id !in existingIds;
    }
  }

  // ----- the merge -----

  /** `mergeImportData`: the record written back after a valid file. */
  function MergeImport(stored: Option<StorageData>, categories: seq<Category>, channels: seq<Channel>): (d: StorageData)
    ensures var cur := Storage.GetStorageData(stored);
            && CategoryIds(d.categories) == Seqs.Dedup(CategoryIds(cur.categories) + CategoryIds(categories))
            && Model.ChannelIds(d.channels) == Seqs.Dedup(Model.ChannelIds(cur.channels))
            && d.activeFilters == cur.activeFilters
  {
    var cur := Storage.GetStorageData(stored);
    var catMap := MergedCategoryMap(cur.categories, categories);
    var chMap := AssignAll(Maps.ChannelMap(cur.channels), Model.ChannelIds(cur.channels), Keys(catMap), channels);
    Maps.CategoryValuesIds(catMap);
    Maps.ChannelValuesIds(chMap);
    Storage.SetStorageData(stored, Storage.Patch(Some(Values(catMap)), Some(Values(chMap)), None))
  }

  /** The last stored category with id `k`. */
  function StoredCategory(cs: seq<Category>, k: string): Option<Category> {
    LastValue(Maps.CategoryEntries(cs), k)
  }

  /** The last stored channel with id `k`. */
  function StoredChannel(chs: seq<Channel>, k: string): Option<Channel> {
    LastValue(Maps.ChannelEntries(chs), k)
  }

  /** Stored categories are never overwritten: a merged category is the
      stored one with its id when there is one, otherwise the first imported
      one. */
  lemma ImportKeepsStoredCategories(stored: Option<StorageData>, categories: seq<Category>, channels: seq<Channel>, i: int)
    requires 0 <= i < |MergeImport(stored, categories, channels).categories|
    ensures var c := MergeImport(stored, categories, channels).categories[i];
            var cur := Storage.GetStorageData(stored).categories;
            if StoredCategory(cur, c.id).Some? then StoredCategory(cur, c.id) == Some(c)
            else FirstCategory(categories, c.id) == Some(c)
  {
    var cur := Storage.GetStorageData(stored);
    var catMap := MergedCategoryMap(cur.categories, categories);
    Maps.CategoryAt(catMap, i);
    AddMissingGet(Maps.CategoryMap(cur.categories), categories, Values(catMap)[i].id);
  }

  /** Every merged channel is the stored channel with its id, with the
      file's assignments for it merged in. */
  lemma ImportMergesAssignments(stored: Option<StorageData>, categories: seq<Category>, channels: seq<Channel>, i: int)
    requires 0 <= i < |MergeImport(stored, categories, channels).channels|
    ensures var d := MergeImport(stored, categories, channels);
            var ch := d.channels[i];
            && StoredChannel(Storage.GetStorageData(stored).channels, ch.id).Some?
            && AssignmentsMerged(StoredChannel(Storage.GetStorageData(stored).channels, ch.id).value, ch,
                                 channels, CategoryIds(d.categories))
  {
    var cur := Storage.GetStorageData(stored);
    var catMap := MergedCategoryMap(cur.categories, categories);
    var m0 := Maps.ChannelMap(cur.channels);
    var chMap := AssignAll(m0, Model.ChannelIds(cur.channels), Keys(catMap), channels);
    Maps.ChannelAt(chMap, i);
    Maps.CategoryValuesIds(catMap);
    var k := Values(chMap)[i].id;
    assert k in Model.ChannelIds(cur.channels) <==> Get(m0, k).Some?;
    AssignAllGet(m0, Model.ChannelIds(cur.channels), Keys(catMap), channels, k);
  }

  // ----- the file handlers -----

  /** A chosen file as the handler reads it: text that does not parse as
      JSON; JSON that passes the field check but makes the merge throw
      (`null` itself, a truthy `categories` or `channels` that is not an
      array, a `null` entry, or an entry for a stored channel without
      `categoryIds`); or a parsed object whose `categories` and `channels`
      fields are well-formed lists (`Some`) or missing or falsy (`None`). */
  datatype ImportFile =
    | Unparseable
    | Malformed
    | Parsed(categories: Option<seq<Category>>, channels: Option<seq<Channel>>)

  /** What one import attempt ends in: nothing chosen (no alert), the
      "Invalid file format" alert, the "Failed to import" alert, or the
      record written before the success alert. */
  datatype ImportOutcome = NothingChosen | InvalidFormat | ImportFailed | Imported(data: StorageData)

  /** The shared body of both handlers once a file is in hand. */
  function ImportChosen(stored: Option<StorageData>, file: ImportFile): (o: ImportOutcome)
    ensures o.ImportFailed? <==> file.Unparseable? || file.Malformed?
    ensures o.InvalidFormat? <==> file.Parsed? && (file.categories.None? || file.channels.None?)
    ensures o.Imported? <==> file.Parsed? && file.categories.Some? && file.channels.Some?
    ensures o.Imported? ==> o.data == MergeImport(stored, file.categories.value, file.channels.value)
  {
    match file
    case Unparseable => ImportFailed
    case Malformed => ImportFailed
    case Parsed(cats, chs) =>
      if cats.None? || chs.None? then InvalidFormat
      else Imported(MergeImport(stored, cats.value, chs.value))
  }

  /** `handleImportedFile` of the serialization hook: an empty selection
      does nothing; otherwise the first file is imported. */
  function HandleImportedFile(stored: Option<StorageData>, files: seq<ImportFile>): (o: ImportOutcome)
    ensures o.NothingChosen? <==> |files| == 0
    ensures |files| > 0 ==> o == ImportChosen(stored, files[0])
  {
    if |files| == 0 then NothingChosen else ImportChosen(stored, files[0])
  }

  /** `handleImport` of the data tab: the input's first file, if any. */
  function DataTabHandleImport(stored: Option<StorageData>, file: Option<ImportFile>): (o: ImportOutcome)
    ensures o.NothingChosen? <==> file.None?
    ensures file.Some? ==> o == ImportChosen(stored, file.value)
  {
    match file
    case None => NothingChosen
    case Some(f) => ImportChosen(stored, f)
  }

  /** An import changes nothing but the categories and channels; the active
      filters survive it. */
  lemma ImportKeepsFilters(stored: Option<StorageData>, file: ImportFile)
    requires ImportChosen(stored, file).Imported?
    ensures ImportChosen(stored, file).data.activeFilters == Storage.GetStorageData(stored).activeFilters
  {
  }
}
