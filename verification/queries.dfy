/** The query layer of the settings page (src/modules/data/queries.ts): the
    cache keys and the three views of the one storage query. The query's
    data is `None` until the first fetch of the stored record completes. */
module Queries {
  import opened Wrappers
  import opened Model
  import Ordering

  /** `queryKeys.storage`, the key of the one storage query. */
  const STORAGE_QUERY_KEY: seq<string> := ["storage"]

  /** The three derived keys: `categories()`, `channels()` and
      `activeFilters()`. */
  datatype View = Categories | Channels | ActiveFilters

  function ViewName(v: View): string {
    match v
    case Categories => "categories"
    case Channels => "channels"
    case ActiveFilters => "activeFilters"
  }

  /** A derived key: the storage key followed by the view's name, so
      invalidating the storage key covers every view. */
  function QueryKey(v: View): (k: seq<string>)
    ensures |k| == 2 && STORAGE_QUERY_KEY <= k
    ensures k[1] == ViewName(v)
  {
    STORAGE_QUERY_KEY + [ViewName(v)]
  }

  /** Different views have different keys. */
  lemma QueryKeysDistinct(v: View, w: View)
    requires v != w
    ensures QueryKey(v) != QueryKey(w)
  {
    assert QueryKey(v)[1] == ViewName(v);
    assert QueryKey(w)[1] == ViewName(w);
    assert ViewName(v)[0] != ViewName(w)[0] || |ViewName(v)| != |ViewName(w)|;
  }

  /** The sort key of the category lists. */
  function CategoryName(c: Category): string {
    c.name
  }

  /** `sortCategories`: a name-ordered copy of the categories. */
  function SortCategories(categories: seq<Category>): (r: seq<Category>)
    ensures Ordering.SortedBy(r, CategoryName)
    ensures multiset(r) == multiset(categories)
  {
    Ordering.SortBy(categories, CategoryName)
  }

  /** Sorting the sorted list again changes nothing. */
  lemma SortCategoriesIdempotent(categories: seq<Category>)
    ensures SortCategories(SortCategories(categories)) == SortCategories(categories)
  {
    Ordering.SortBySorted(SortCategories(categories), CategoryName);
  }

  /** `useCategories`: the sorted categories as `data` once loaded, and as
      `categories` always, empty before the load. */
  function UseCategories(data: Option<StorageData>): (r: (Option<seq<Category>>, seq<Category>))
    ensures data.None? ==> r == (None, [])
    ensures data.Some? ==> r.0 == Some(r.1)
    ensures data.Some? ==> Ordering.SortedBy(r.1, CategoryName)
                           && multiset(r.1) == multiset(data.value.categories)
  {
    match data
    case None => (None, [])
    case Some(d) => var s := SortCategories(d.categories); (Some(s), s)
  }

  /** `useChannels`: the stored channels as they are, empty before the
      load. */
  function UseChannels(data: Option<StorageData>): (r: (Option<seq<Channel>>, seq<Channel>))
    ensures data.None? ==> r == (None, [])
    ensures data.Some? ==> r == (Some(data.value.channels), data.value.channels)
  {
    match data
    case None => (None, [])
    case Some(d) => (Some(d.channels), d.channels)
  }

  /** `useActiveFilters`: the stored filter list, empty before the load. */
  function UseActiveFilters(data: Option<StorageData>): (r: (Option<seq<string>>, seq<string>))
    ensures data.None? ==> r == (None, [])
    ensures data.Some? ==> r == (Some(data.value.activeFilters), data.value.activeFilters)
  {
    match data
    case None => (None, [])
    case Some(d) => (Some(d.activeFilters), d.activeFilters)
  }

  /** Before the first load every view reads as an empty list, which the
      feed filter treats as "no filter". */
  lemma UnloadedViewsAreEmpty()
    ensures UseCategories(None).1 == [] && UseChannels(None).1 == [] && UseActiveFilters(None).1 == []
  {
  }
}
