/** The category picker of a channel row
    (src/modules/settings/components/channels/category-combobox.tsx): a
    search box over the categories that can also create a category named
    after the search text. Its state is whether the dropdown is open and the
    search text; the random id and colour of a new category are inputs. */
module Combobox {
  import opened Wrappers
  import opened Model
  import Seqs
  import Text

  datatype ComboState = ComboState(isOpen: bool, searchText: string)

  /** The category's id is among the channel's. */
  function InSelection(selectedIds: seq<string>): Category -> bool {
    (c: Category) => c.id in selectedIds
  }

  /** The category's name matches the search text. */
  function MatchesSearch(searchText: string): Category -> bool {
    (c: Category) => Text.MatchesQuery(c.name, searchText)
  }

  /** `selectedCategories`: the channel's categories as chips, in category
      order; a selected id with no category shows nothing. */
  function SelectedCategories(categories: seq<Category>, selectedIds: seq<string>): (r: seq<Category>)
    ensures forall c :: c in r <==> c in categories && c.id in selectedIds
    ensures Seqs.IsSubseq(r, categories)
  {
    Seqs.FilterSubseq(categories, InSelection(selectedIds));
    Seqs.Filter(categories, InSelection(selectedIds))
  }

  /** `filteredCategories`: the categories whose name contains the search
      text, ignoring case, in category order. */
  function FilteredCategories(categories: seq<Category>, searchText: string): (r: seq<Category>)
    ensures forall c :: c in r <==> c in categories && Text.MatchesQuery(c.name, searchText)
    ensures Seqs.IsSubseq(r, categories)
  {
    Seqs.FilterSubseq(categories, MatchesSearch(searchText));
    Seqs.Filter(categories, MatchesSearch(searchText))
  }

  /** An empty search lists every category. */
  lemma EmptySearchListsAll(categories: seq<Category>)
    ensures FilteredCategories(categories, "") == categories
  {
    forall i | 0 <= i < |categories| ensures MatchesSearch("")(categories[i]) {
      Text.EmptyQueryMatchesAll(categories[i].name);
    }
    Seqs.FilterAll(categories, MatchesSearch(""));
  }

  /** `handleCreateCategory`: nothing happens when the trimmed search text
      is empty or some category matches the untrimmed text; otherwise a
      category named by the trimmed text, with the default icon and the
      drawn colour, is handed to `onCreate`, and the box is cleared and
      closed. */
  function HandleCreate(categories: seq<Category>, st: ComboState, newId: string, colorIndex: nat): (r: (Option<Category>, ComboState))
    requires colorIndex < |CATEGORY_COLORS|
    ensures r.0.None? <==>
              (Text.IsBlank(st.searchText) || exists c :: c in categories && Text.MatchesQuery(c.name, st.searchText))
    ensures r.0.None? ==> r.1 == st
    ensures r.0.Some? ==> r.1 == ComboState(false, "")
    ensures r.0.Some? ==> var c := r.0.value;
              && c.id == newId && c.icon == DEFAULT_ICON && c.color in CATEGORY_COLORS
              && c.name == Text.Trim(st.searchText) && |c.name| > 0
  {
    var trimmed := Text.Trim(st.searchText);
    Text.TrimEmptyIffBlank(st.searchText);
    var filtered := FilteredCategories(categories, st.searchText);
    if |filtered| > 0 then
      assert filtered[0] in categories && Text.MatchesQuery(filtered[0].name, st.searchText);
      (None, st)
    else if |trimmed| == 0 then
      (None, st)
    else
      (Some(Category(newId, trimmed, DEFAULT_ICON, CATEGORY_COLORS[colorIndex])), ComboState(false, ""))
  }

  /** Enter in the search box attempts a create; any other key does nothing. */
  function HandleKeyDown(categories: seq<Category>, st: ComboState, key: string, newId: string, colorIndex: nat): (r: (Option<Category>, ComboState))
    requires colorIndex < |CATEGORY_COLORS|
    ensures key != "Enter" ==> r == (None, st)
    ensures key == "Enter" ==> r == HandleCreate(categories, st, newId, colorIndex)
  {
    if key == "Enter" then HandleCreate(categories, st, newId, colorIndex) else (None, st)
  }

  /** A mouse press outside the picker closes it and clears the search. */
  function ClickOutside(st: ComboState, insidePicker: bool): (r: ComboState)
    ensures !insidePicker ==> !r.isOpen && r.searchText == ""
    ensures insidePicker ==> r == st
  {
    if insidePicker then st else ComboState(false, "")
  }

  /** A create clears the search, so pressing Enter again creates nothing:
      one press never yields two categories. */
  lemma NoSecondCreate(categories: seq<Category>, st: ComboState, newId: string, colorIndex: nat, id2: string, color2: nat)
    requires colorIndex < |CATEGORY_COLORS| && color2 < |CATEGORY_COLORS|
    requires HandleCreate(categories, st, newId, colorIndex).0.Some?
    ensures var r := HandleCreate(categories, st, newId, colorIndex);
            HandleKeyDown(categories + [r.0.value], r.1, "Enter", id2, color2).0.None?
  {
  }

  /** The guard tests the untrimmed text but the category takes the trimmed
      one: with a category `Music`, the text `Music ` matches nothing, and
      Enter creates a second category named `Music`. */
  lemma TrailingSpaceDuplicates()
    ensures var existing := Category("1", "Music", DEFAULT_ICON, CATEGORY_COLORS[0]);
            var r := HandleCreate([existing], ComboState(true, "Music "), "2", 0);
            r.0.Some? && r.0.value.name == existing.name
  {
    var existing := Category("1", "Music", DEFAULT_ICON, CATEGORY_COLORS[0]);
    TrimsToMusic();
    Text.TrimEmptyIffBlank("Music ");
    LongerQueryMissesMusic();
    assert forall c :: c in [existing] ==> !Text.MatchesQuery(c.name, "Music ");
  }

  /** `"Music "` trims to `"Music"`. */
  lemma TrimsToMusic()
    ensures Text.Trim("Music ") == "Music"
  {
    var s := "Music ";
    assert Text.TrimStart(s) == s;
    assert s[..|s| - 1] == "Music";
    assert Text.TrimEnd("Music") == "Music";
    assert Text.TrimEnd(s) == "Music";
  }

  /** A query longer than the name cannot occur in it. */
  lemma LongerQueryMissesMusic()
    ensures !Text.MatchesQuery("Music", "Music ")
  {
    assert |Text.ToLower("Music")| < |Text.ToLower("Music ")|;
  }

  /** `handleCreateCategory` with the guard on the trimmed text, the text
      the new category is named by. */
  function HandleCreateTrimmed(categories: seq<Category>, st: ComboState, newId: string, colorIndex: nat): (r: (Option<Category>, ComboState))
    requires colorIndex < |CATEGORY_COLORS|
    ensures r.0.None? <==>
              (Text.IsBlank(st.searchText) || exists c :: c in categories && Text.MatchesQuery(c.name, Text.Trim(st.searchText)))
    ensures r.0.None? ==> r.1 == st
    ensures r.0.Some? ==> r.1 == ComboState(false, "")
    ensures r.0.Some? ==> var c := r.0.value;
              && c.id == newId && c.icon == DEFAULT_ICON && c.color in CATEGORY_COLORS
              && c.name == Text.Trim(st.searchText) && |c.name| > 0
  {
    var trimmed := Text.Trim(st.searchText);
    Text.TrimEmptyIffBlank(st.searchText);
    var filtered := FilteredCategories(categories, trimmed);
    if |filtered| > 0 then
      assert filtered[0] in categories && Text.MatchesQuery(filtered[0].name, trimmed);
      (None, st)
    else if |trimmed| == 0 then
      (None, st)
    else
      (Some(Category(newId, trimmed, DEFAULT_ICON, CATEGORY_COLORS[colorIndex])), ComboState(false, ""))
  }

  /** With the trimmed guard a created category never repeats an existing
      name, even ignoring case. */
  lemma TrimmedCreateIsNew(categories: seq<Category>, st: ComboState, newId: string, colorIndex: nat)
    requires colorIndex < |CATEGORY_COLORS|
    requires HandleCreateTrimmed(categories, st, newId, colorIndex).0.Some?
    ensures var name := HandleCreateTrimmed(categories, st, newId, colorIndex).0.value.name;
            forall c :: c in categories ==> Text.ToLower(c.name) != Text.ToLower(name)
  {
    var name := Text.Trim(st.searchText);
    forall c | c in categories ensures Text.ToLower(c.name) != Text.ToLower(name) {
      assert !Text.MatchesQuery(c.name, name);
      SameLowerMatches(c.name, name);
    }
  }

  /** A name matches a query that lower-cases to the same text. */
  lemma SameLowerMatches(a: string, b: string)
    ensures Text.ToLower(a) == Text.ToLower(b) ==> Text.MatchesQuery(a, b)
  {
    if Text.ToLower(a) == Text.ToLower(b) {
      assert Text.OccursAt(Text.ToLower(a), Text.ToLower(b), 0);
    }
  }
}
