/** The category chips above the feed and the "Show All" button: the chip
    toggle of src/modules/feed/components/category-toggler.tsx, and the
    toggle and "Show All" of src/modules/feed/components/feed-section.tsx
    and its older copy src/components/CategorySection.tsx. All three compute
    the new filter list the same way. */
module FilterToggle {
  import opened Wrappers
  import opened Model
  import Seqs
  import Storage
  import VideoFilter

  /** A chip is drawn active exactly when its category is a filter. */
  predicate IsActive(activeFilters: seq<string>, categoryId: string) {
    categoryId in activeFilters
  }

  /** `toggleCategory`'s new filter list: an inactive category is appended,
      an active one is removed wherever it occurs, the rest kept in order. */
  function Toggle(activeFilters: seq<string>, categoryId: string): (r: seq<string>)
    ensures IsActive(r, categoryId) <==> !IsActive(activeFilters, categoryId)
    ensures forall x :: x != categoryId ==> (x in r <==> x in activeFilters)
    ensures !IsActive(activeFilters, categoryId) ==> r == activeFilters + [categoryId]
    ensures IsActive(activeFilters, categoryId) ==> |r| < |activeFilters| && Seqs.IsSubseq(r, activeFilters)
    ensures IsActive(activeFilters, categoryId) ==>
              forall x :: x != categoryId ==> multiset(r)[x] == multiset(activeFilters)[x]
  {
    if categoryId in activeFilters then
      Seqs.RemoveAllSubseq(activeFilters, categoryId);
      RemoveAllShrinks(activeFilters, categoryId);
      Seqs.RemoveAll(activeFilters, categoryId)
    else activeFilters + [categoryId]
  }

  lemma {:induction false} RemoveAllShrinks(xs: seq<string>, v: string)
    requires v in xs
    ensures |Seqs.RemoveAll(xs, v)| < |xs|
    decreases |xs|
  {
    if xs[0] != v {
      RemoveAllShrinks(xs[1..], v);
    }
  }

  /** Toggling keeps a duplicate-free filter list duplicate-free. */
  lemma ToggleNoDup(activeFilters: seq<string>, categoryId: string)
    requires Seqs.NoDup(activeFilters)
    ensures Seqs.NoDup(Toggle(activeFilters, categoryId))
  {
    if categoryId in activeFilters {
      Seqs.RemoveAllNoDup(activeFilters, categoryId);
    }
  }

  /** Switching a chip on and off again restores the filter list exactly. */
  lemma ToggleTwiceFromInactive(activeFilters: seq<string>, categoryId: string)
    requires !IsActive(activeFilters, categoryId)
    ensures Toggle(Toggle(activeFilters, categoryId), categoryId) == activeFilters
  {
    var once := activeFilters + [categoryId];
    assert categoryId in once;
    RemoveAppended(activeFilters, categoryId);
  }

  lemma {:induction false} RemoveAppended(xs: seq<string>, v: string)
    requires v !in xs
    ensures Seqs.RemoveAll(xs + [v], v) == xs
    decreases |xs|
  {
    if |xs| == 0 {
      assert [v][1..] == [];
    } else {
      RemoveAppended(xs[1..], v);
      assert (xs + [v])[1..] == xs[1..] + [v];
    }
  }

  /** Switching an active chip off and on again keeps the same filters but
      moves the category to the end. */
  lemma ToggleTwiceFromActive(activeFilters: seq<string>, categoryId: string)
    requires IsActive(activeFilters, categoryId)
    ensures Toggle(Toggle(activeFilters, categoryId), categoryId)
            == Seqs.RemoveAll(activeFilters, categoryId) + [categoryId]
    ensures forall x :: x in Toggle(Toggle(activeFilters, categoryId), categoryId) <==> x in activeFilters
  {
  }

  /** `toggleCategory` of the feed header: the new list is written to
      storage, then becomes the header's own state; the two agree. */
  function ToggleAndStore(stored: Option<StorageData>, activeFilters: seq<string>, categoryId: string): (r: (StorageData, seq<string>))
    ensures r.0.activeFilters == r.1 && r.1 == Toggle(activeFilters, categoryId)
    ensures r.0.categories == Storage.GetStorageData(stored).categories
    ensures r.0.channels == Storage.GetStorageData(stored).channels
  {
    var next := Toggle(activeFilters, categoryId);
    (Storage.SetActiveFilters(stored, next), next)
  }

  /** `showAll`: no filter in storage and none in the header's state. */
  function ShowAll(stored: Option<StorageData>): (r: (StorageData, seq<string>))
    ensures r.0.activeFilters == [] && r.1 == []
    ensures r.0.categories == Storage.GetStorageData(stored).categories
    ensures r.0.channels == Storage.GetStorageData(stored).channels
  {
    (Storage.SetActiveFilters(stored, []), [])
  }

  /** The "Show All" button: not drawn without categories; when drawn,
      highlighted exactly when no filter is active. */
  function ShowAllButton(categories: seq<Category>, activeFilters: seq<string>): (r: Option<bool>)
    ensures r.None? <==> |categories| == 0
    ensures r == Some(true) <==> |categories| > 0 && |activeFilters| == 0
  {
    if |categories| > 0 then Some(|activeFilters| == 0) else None
  }

  /** After "Show All" the button is highlighted (when drawn) and the feed
      filter, handed the stored list, shows every video. */
  lemma ShowAllShowsEverything(stored: Option<StorageData>, categories: seq<Category>, els: seq<VideoFilter.Element>)
    requires |categories| > 0
    ensures ShowAllButton(categories, ShowAll(stored).1) == Some(true)
    ensures var e := VideoFilter.Engine(Storage.GetStorageData(stored).channels, ShowAll(stored).0.activeFilters);
            forall i :: 0 <= i < |els| ==> VideoFilter.ApplyFilter(e, els)[i].display == VideoFilter.Shown
  {
  }

  /** Switching the first chip on turns the "Show All" highlight off. */
  lemma FirstToggleClearsHighlight(categories: seq<Category>, categoryId: string)
    requires |categories| > 0
    ensures ShowAllButton(categories, Toggle([], categoryId)) == Some(false)
  {
  }
}
