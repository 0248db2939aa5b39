# YouTube Collections — a Dafny model of the data core

YouTube Collections is a browser extension. Users sort the channels they
subscribe to into categories, and the subscription feed shows only videos
from channels in the active categories. All of its state lives under one
storage key as a `StorageData` record with three lists: categories, channels
and active filter ids. Every feature of the extension reads or rewrites that
record.

This project models that record and the operations on it as immutable Dafny
datatypes and pure functions:

- **Feed filter** (`VideoFilter`). The allowed-channel set uses OR semantics. Each feed element gets a visibility decision, and an element without a channel link is hidden. `showAllVideos`, and the state replacement in `updateChannels` and `updateFilters`.
- **Channel-id extraction** (`ChannelIds`). Both regular expressions are written as explicit scans. The scraper's stops at `/ ? & #` and yields nothing on failure. The feed filter's stops at `/ ?` only and falls back to the whole URL.
- **Scraper** (`Scraper`). Per-renderer validation in `scrapeChannels`, and the merge in `refreshChannelList`. The merge goes through a JavaScript `Map`, modelled in `OrderedMap`: insertion-ordered, and `set` on a known key replaces the value in place.
- **Storage** (`Storage`). The operations of `src/storage.ts`, each an atomic transformer of the stored record. `None` stands for a key that was never written.
- **Import and export** (`Serialization`). The export projection, the import validation guard, and `mergeImportData`. The serialization hook and the older data tab hold two copies of this logic; both are modelled by one definition.
- **Channel lists** (`ChannelViews`). Sorting, the `all`/`unassigned`/category filter, grouping by category, and checking or unchecking a category on a channel. Also creating a category from a row, the count label, the expanded-group toggle, the multi-select and its listbox size.
- **Active-filter chips** (`FilterToggle`). The toggle shared by the three chip components, "Show All", and its visibility and highlight.
- **Category combobox** (`Combobox`). Selected chips, search, the create guard, Enter and outside-click.
- **Icons** (`Icons`). The registry, `getIconComponent`, `ICON_LIST`, and both icon pickers with their search and the 100-name cap.
- **Category forms** (`CategoryForms`). Create, delete, start-edit, save and cancel, shared by the three category managers.
- **Query layer** (`Queries`). Query keys, sorted categories, and the empty lists shown before the first load.

Some inputs come from outside the code and are taken as parameters:
- the random id and colour of a new category;
- the answer to a confirmation dialog;
- the parsed content of a chosen file;
- the renderers of the subscriptions page.

Shared helpers:
- `Seqs` holds filter, remove-all and order-preserving deduplication (`[...new Set(xs)]`).
- `Text` holds `trim`, `includes`, ASCII `toLowerCase` and the plural suffix.
- `Ordering` holds the name order and a stable sort.
- `Maps` builds the id-keyed maps of channels and categories.

## Model

| member | source | states |
|---|---|---|
| VideoFilter.AnyActive | src/videoFilter.ts:56 | a channel's categories meet the active filters exactly when some id is in both lists |
| VideoFilter.AllowedIds | src/videoFilter.ts:53-59 | an id is allowed exactly when some channel with that id has at least one active category (OR semantics) |
| VideoFilter.ApplyFilter | src/videoFilter.ts:46-78 | one element per input element, links untouched; no active filter shows every element; with filters, a linkless element is hidden and a linked one is shown exactly when its extracted id is allowed |
| VideoFilter.ShowAllVideos | src/videoFilter.ts:80-85 | every element is shown and nothing else about it changes |
| VideoFilter.ApplyFilterIgnoresPriorDisplay | src/videoFilter.ts:64-77 | a pass's result depends only on the elements' links, not on what they displayed before |
| VideoFilter.ApplyFilterIdempotent | src/videoFilter.ts:64-77 | a second pass with the same state changes nothing |
| VideoFilter.NoMatchingChannelHidesAll | src/videoFilter.ts:53-76 | active filters that no channel carries hide every element: the filter fails closed |
| VideoFilter.UpdateChannels | src/videoFilter.ts:12-15 | only the channel list is replaced, and the result is a fresh pass under the new state |
| VideoFilter.UpdateFilters | src/videoFilter.ts:17-20 | only the filter list is replaced, and the result is a fresh pass under the new state |
| VideoFilter.TechScenario | src/videoFilter.ts:46-78 | with `tech` active, the `tech` channel's video shows and the `music` channel's video and a linkless element are hidden |
| VideoFilter.TechAllowed | src/videoFilter.ts:53-59 | the allowed set of that scenario is exactly the `tech` channel |
| VideoFilter.TechLinksResolve | src/videoFilter.ts:87-90 | the scenario's links resolve to the ids written in them |
| ChannelIds.RunLength | src/channelScraper.ts:50 | the captured run is maximal: it has no stop character and ends at a stop or at the end of the text |
| ChannelIds.RunLengthUnique | src/channelScraper.ts:50 | any run that is free of stops and ends at a stop or the end of the text is the one the scan measures |
| ChannelIds.MatchAtMeaning | src/channelScraper.ts:50 | a match tried at one position succeeds exactly when a `/` is followed there by `channel/` or `@` and a maximal non-empty run |
| ChannelIds.FirstMatchMeaning | src/channelScraper.ts:50-51 | the scan reports nothing exactly when no position from the start matches, and otherwise reports the leftmost match |
| ChannelIds.ScraperExtract | src/channelScraper.ts:47-52 | a result starts with `channel/` or `@` followed by a non-empty tail without `/ ? & #`; the result is null exactly when no `/` is followed by such a segment |
| ChannelIds.FilterExtract | src/videoFilter.ts:87-90 | the leftmost `channel/<x>` or `@<x>` after a `/`, where `<x>` stops only at `/` and `?`; otherwise the URL unchanged |
| ChannelIds.LeftmostMeaning | src/videoFilter.ts:88-89 | the scan from the start finds a match exactly when some position matches, and the match it reports is at the leftmost such position |
| ChannelIds.ExtractorsAgree | src/videoFilter.ts:87-90 | whenever the id the feed filter resolves holds no `&` and no `#`, it is the id registration stored, or the URL itself when registration found none |
| ChannelIds.FragmentMismatch | src/channelScraper.ts:50 | for `/@h#x` the scraper stores `@h` but the feed filter looks up `@h#x` |
| ChannelIds.EarlierSegmentMismatch | src/videoFilter.ts:88 | for `/channel/#x/@h` the scraper stores `@h` but the feed filter looks up `channel/#x`, although the scraper's capture contains neither `&` nor `#` |
| ChannelIds.FirstMatchSkips | src/channelScraper.ts:50 | positions without a match do not affect the leftmost match |
| ChannelIds.AlignedAgreesWithScraper | src/channelScraper.ts:47-52 | under a feed-side resolver using the scraper's stop set, every id registration stores resolves back to itself from its own path `/<id>` |
| ChannelIds.AlignedKeepsOrdinaryLinks | src/videoFilter.ts:87-90 | that resolver returns what the feed filter returns whenever the filter's id holds no `&` and no `#` |
| Scraper.ScrapeOne | src/channelScraper.ts:13-31 | a renderer yields a channel exactly when it has a link, a non-empty trimmed name and a thumbnail, and its id extracts; the channel's id is the one the scraper's pattern extracts from the link, its name is the trimmed text (non-empty, no whitespace at either end), with the thumbnail and no category |
| Scraper.Scrape | src/channelScraper.ts:11-45 | at most one channel per renderer |
| Scraper.ScrapeMembers | src/channelScraper.ts:11-45 | a channel is scraped exactly when some renderer yields it |
| Scraper.ScrapeConcat | src/channelScraper.ts:11-31 | renderers are scraped independently and in page order |
| Scraper.ScrapedHaveNoCategories | src/channelScraper.ts:26-31 | every scraped channel has an empty membership list |
| Scraper.MergeOneGet | src/channelScraper.ts:89-96 | one refresh step stores the scraped record under its id, keeping the categories already stored there |
| Scraper.MergeAll | src/channelScraper.ts:89-96 | the refresh loop keeps the keys already in the map in place and appends new ids in scrape order |
| Scraper.FirstIffLast | src/channelScraper.ts:89-96 | a scrape has a first record with an id exactly when it has a last one |
| Scraper.MergeAllGet | src/channelScraper.ts:89-96 | under each id the merged map holds the stored entry when the scrape lacks the id; otherwise it holds the last scraped record with the stored categories, or with the first scraped record's categories for a new id |
| Scraper.RefreshMap | src/channelScraper.ts:87-96 | the map's keys are the stored ids followed by the new scraped ids, each once, and every entry is filed under its own id |
| Scraper.RefreshMerge | src/channelScraper.ts:82-100 | the written list's ids are the stored ids in place, then the newly seen ids in scrape order, each once |
| Scraper.RefreshMergeMeaning | src/channelScraper.ts:87-98 | each written channel is determined by its id: untouched when not re-scraped, else the last scraped name and thumbnail with the stored categories |
| Scraper.RefreshKeepsAssignments | src/channelScraper.ts:87-98 | a refresh never drops a stored channel id, and the written channel keeps that id's stored categories |
| Scraper.RefreshFromPage | src/channelScraper.ts:82-100 | across the whole refresh, every written channel is either a stored one or a record some renderer on the page yields, with stored categories where the id was stored |
| Storage.GetStorageData | src/storage.ts:5-16 | an unwritten key reads as three empty lists; otherwise the stored record is read |
| Storage.SetStorageData | src/storage.ts:18-26 | a shallow merge: supplied fields replace, the others are read back unchanged |
| Storage.SetStorageDataCompose | src/storage.ts:18-26 | two writes in a row equal one write of their fields combined, the later winning |
| Storage.SetNothingKeeps | src/storage.ts:18-26 | a write that supplies nothing stores what a read returns |
| Storage.AddCategory | src/storage.ts:28-32 | the category is appended; channels and filters are unchanged |
| Storage.DropCategory | src/storage.ts:36 | exactly the categories with another id survive, each as often as before |
| Storage.DropAbsentCategory | src/storage.ts:36 | dropping an id no category has changes nothing |
| Storage.DropCategoryConcat | src/storage.ts:36 | dropping distributes over concatenation, so order is kept |
| Storage.DropCategorySubseq | src/storage.ts:36 | the surviving categories are a subsequence of the stored ones, in their stored order |
| Storage.WithoutCategory | src/storage.ts:39-42 | the channel loses every occurrence of that id and keeps every other id, as often as before and in order, and every other field |
| Storage.DeleteCategory | src/storage.ts:34-48 | every category with the id is gone and the others remain as often as before and in their stored order; channels keep count, order and fields but lose the id, keeping every other id as often as before and in order; the active filters are untouched |
| Storage.DeleteCategoryIdempotent | src/storage.ts:34-48 | deleting twice is deleting once |
| Storage.AddThenDelete | src/storage.ts:28-48 | adding a category with an unused id and deleting it restores the record |
| Storage.FindCategory | src/storage.ts:52 | `findIndex`: nothing exactly when no category has the id, otherwise a position holding it |
| Storage.UpdateCategory | src/storage.ts:50-57 | no write when the id is absent; otherwise only the first category with the id is replaced, ids and channels unchanged |
| Storage.UpdateCategorySame | src/storage.ts:50-57 | writing back the first category with an id unchanged stores the same record |
| Storage.FindChannel | src/storage.ts:65 | `find`: nothing exactly when no channel has the id, otherwise a position holding it |
| Storage.UpdateChannelCategories | src/storage.ts:63-70 | no write for an unknown id; otherwise only the first matching channel's membership list changes |
| Storage.UpdateChannels | src/storage.ts:59-61 | the channel list is replaced, nothing else |
| Storage.SetActiveFilters | src/storage.ts:72-74 | the filter list is replaced, nothing else |
| Storage.ClearActiveFilters | src/storage.ts:76-78 | the filter list is emptied, nothing else |
| Storage.ClearAfterSet | src/storage.ts:72-78 | clearing undoes any earlier filter write |
| OrderedMap.Get | src/channelScraper.ts:90 | `map.get` finds a value exactly for a present key, and the value is that key's entry |
| OrderedMap.Put | src/channelScraper.ts:95 | `map.set` keeps a present key's position and appends a new key |
| OrderedMap.PutGet | src/channelScraper.ts:90-95 | after `set(k, v)` the key reads `v` and every other key reads as before |
| OrderedMap.PutEntries | src/channelScraper.ts:95 | `set` introduces no entry but the one it was given |
| OrderedMap.GetAtIndex | src/channelScraper.ts:87 | with distinct keys, every entry is what `get` returns for its key |
| OrderedMap.FromEntries | src/channelScraper.ts:87 | `new Map(entries)`: keys in order of first appearance, each holding the last value given to it |
| OrderedMap.FromEntriesEntries | src/channelScraper.ts:87 | the built map holds only given entries |
| Maps.ChannelMap | src/channelScraper.ts:87 | the stored channels' map: distinct ids in order of first appearance, each holding the last stored channel with that id |
| Maps.CategoryMap | src/modules/serialization/hooks.ts:70-72 | the same for categories |
| Maps.ChannelValuesIds | src/channelScraper.ts:98 | the values of a keyed map list their ids in key order |
| Maps.ChannelAt | src/channelScraper.ts:98 | each value of a keyed, duplicate-free map is what `get` returns for its id |
| Maps.ChannelGetId | src/channelScraper.ts:90 | a keyed map answers `get(k)` with a channel whose id is `k` |
| Serialization.Export | src/modules/serialization/hooks.ts:8-35 | version `1.0`, the export date the clock gave, every stored category, and every stored channel projected to id, name, thumbnail and categories |
| Serialization.ExportIsLossless | src/modules/settings/components/tabs/data-tab.tsx:19-46 | the export's lists are exactly the stored lists |
| Serialization.AddMissing | src/modules/serialization/hooks.ts:70-82 | the category loop keeps existing keys in place and appends unseen imported ids in file order |
| Serialization.AddMissingGet | src/modules/serialization/hooks.ts:76-80 | an existing category is never overwritten; an unseen id takes its first imported category |
| Serialization.MergedCategoryMap | src/modules/settings/components/tabs/data-tab.tsx:82-98 | the merged categories' ids are the existing ids then the unseen imported ids, each once, each filed under its own id |
| Serialization.KeepKnown | src/modules/serialization/hooks.ts:99-101 | exactly the ids that name a merged category survive, and a duplicate-free list stays so |
| Serialization.AssignAll | src/modules/serialization/hooks.ts:90-106 | the channel loop changes no key of the local channel map |
| Serialization.KeepDedupAbsorb | src/modules/serialization/hooks.ts:94-103 | merging an imported list after an earlier merge equals merging both lists at once |
| Serialization.AssignStep | src/modules/serialization/hooks.ts:90-106 | one more imported channel keeps the merge relation between stored and written channel |
| Serialization.AssignOneGet | src/modules/serialization/hooks.ts:90-106 | one loop step touches only the imported channel's id, and only when it is a local channel |
| Serialization.AssignAllGet | src/modules/settings/components/tabs/data-tab.tsx:109-129 | under each local id the loop's result is the stored channel with every imported list for that id merged in; unknown ids stay absent |
| Serialization.MergeImport | src/modules/serialization/hooks.ts:65-114 | the written categories are the existing ones, then the unseen imported ones; the written channel ids are exactly the local ones in order; the filters are unchanged |
| Serialization.ImportKeepsStoredCategories | src/modules/settings/components/tabs/data-tab.tsx:82-98 | a merged category is the stored one when its id was stored, and the first imported one otherwise |
| Serialization.ImportMergesAssignments | src/modules/serialization/hooks.ts:84-106 | each written channel is the stored channel, name and thumbnail unchanged, with the deduplicated union of stored then imported ids restricted to known categories; an unlisted channel keeps its ids |
| Serialization.ImportChosen | src/modules/serialization/hooks.ts:47-62 | unreadable text, and JSON whose shape makes the merge throw, fail without a write; a file without `categories` or `channels` is rejected without a write; a well-formed file has the merge written |
| Serialization.HandleImportedFile | src/modules/serialization/hooks.ts:41-63 | an empty selection does nothing; otherwise the first file is imported |
| Serialization.DataTabHandleImport | src/modules/settings/components/tabs/data-tab.tsx:48-73 | no chosen file does nothing; otherwise that file is imported |
| Serialization.ImportKeepsFilters | src/modules/settings/components/tabs/data-tab.tsx:134-137 | an import leaves the active filters as stored |
| ChannelViews.SortChannels | src/modules/settings/components/channels/channels-tab.tsx:28-30 | a name-ordered permutation of the channels |
| ChannelViews.FilterChannels | src/components/ChannelAssignment.tsx:18-28 | from the sorted copy, the channels the filter value shows, each as often as in the input, still sorted, in sorted order |
| ChannelViews.FilterAllIsSorted | src/modules/settings/components/channels/channels-tab.tsx:33 | `all` lists every channel in sorted order |
| ChannelViews.GroupByCategory | src/components/ChannelAssignment.tsx:30-40 | one group per category id and one `unassigned`; a category's group lists the channels containing it and `unassigned` those with no category, in original order |
| ChannelViews.GroupMembers | src/components/ChannelAssignment.tsx:33-37 | a group holds exactly the channels that pass its test |
| ChannelViews.UnassignedDisjoint | src/components/ChannelAssignment.tsx:37 | no channel is both unassigned and in a category group |
| ChannelViews.FilterMatchesGroup | src/components/ChannelAssignment.tsx:22-40 | filtering by a group's key shows the group's channels, as often, only sorted |
| ChannelViews.ChangedCategories | src/modules/settings/components/channels/channels-tab.tsx:40-56 | nothing for a channel the rendered list lacks; otherwise from its first channel with the id: checking appends the id even when present; unchecking removes every occurrence and keeps every other id, as often as before and in order |
| ChannelViews.HandleCategoryChange | src/components/ChannelAssignment.tsx:42-52 | a channel the rendered list lacks writes nothing; otherwise the handler performs exactly `updateChannelCategories` with the computed list |
| ChannelViews.CheckThenUncheck | src/modules/settings/components/channels/channels-tab.tsx:45-55 | unchecking after checking equals unchecking alone, which restores a list that lacked the id |
| ChannelViews.HandleCategoryCreate | src/modules/settings/components/channels/channels-tab.tsx:58-75 | the category is appended; when both the rendered list and storage have the channel, the first stored channel with the id gets the row's list with the new id appended and nothing else changes; otherwise only the category is added. This is exactly `addCategory` followed by `updateChannelCategories` |
| ChannelViews.CountNoun | src/modules/settings/components/channels/channels-tab.tsx:81-83 | the noun is singular exactly when the count is one |
| ChannelViews.ToggleExpanded | src/components/ChannelAssignment.tsx:54-64 | exactly that group's membership in the expanded set flips |
| ChannelViews.ToggleExpandedTwice | src/components/ChannelAssignment.tsx:54-64 | toggling twice restores the set |
| ChannelViews.ListboxSize | src/components/ChannelAssignment.tsx:133 | one row per category plus one below four categories, five rows from four categories on |
| ChannelViews.Added | src/components/ChannelAssignment.tsx:119-124 | exactly the selected ids not yet on the channel |
| ChannelViews.Removed | src/components/ChannelAssignment.tsx:126-130 | exactly the channel's ids no longer selected |
| ChannelViews.MultiSelectWrites | src/components/ChannelAssignment.tsx:114-131 | as written: one write per added id (snapshot plus that id) and one per removed id (snapshot without it) |
| ChannelViews.MultiSelectLosesChanges | src/components/ChannelAssignment.tsx:114-131 | when two different ids change, no write stores the selected membership |
| ChannelViews.MultiSelectCounterexample | src/components/ChannelAssignment.tsx:114-131 | switching `A,B` to `C` writes `A,B,C`, then `B`, then `A`, none of which is `{C}` |
| ChannelViews.MultiSelectTarget | src/components/ChannelAssignment.tsx:114-131 | the intended list has exactly the selected ids, keeping the order of those already there |
| ChannelViews.MultiSelectChange | src/components/ChannelAssignment.tsx:114-131 | corrected: a write happens exactly when both the rendered list and storage have the channel; the first stored channel with the id then has exactly the selected categories, and every other channel, field, category and filter is unchanged |
| FilterToggle.Toggle | src/modules/feed/components/category-toggler.tsx:10-16 | the chip's state flips; an absent id is appended; a present one is removed everywhere, every other id kept as often as before and in order |
| FilterToggle.ToggleNoDup | src/modules/feed/components/feed-section.tsx:34-41 | a duplicate-free filter list stays duplicate-free |
| FilterToggle.ToggleTwiceFromInactive | src/modules/feed/components/category-toggler.tsx:11-13 | switching an inactive chip on and off restores the list exactly |
| FilterToggle.ToggleTwiceFromActive | src/components/CategorySection.tsx:29-36 | switching an active chip off and on keeps the same filters, with the id moved to the end |
| FilterToggle.ToggleAndStore | src/modules/feed/components/feed-section.tsx:34-41 | the stored filter list and the header's list are both the toggled list; categories and channels are unchanged |
| FilterToggle.ShowAll | src/modules/feed/components/feed-section.tsx:43-46 | no filter in storage or in the header; nothing else changes |
| FilterToggle.ShowAllButton | src/components/CategorySection.tsx:54-60 | the button is drawn exactly when a category exists, and highlighted exactly when no filter is active |
| FilterToggle.ShowAllShowsEverything | src/modules/feed/components/feed-section.tsx:43-62 | after "Show All" the button is highlighted and the feed filter shows every element |
| FilterToggle.FirstToggleClearsHighlight | src/modules/feed/components/feed-section.tsx:59-62 | switching the first chip on removes the highlight |
| Combobox.SelectedCategories | src/modules/settings/components/channels/category-combobox.tsx:19-21 | the categories whose id is selected, in category order; ids without a category drop out |
| Combobox.FilteredCategories | src/modules/settings/components/channels/category-combobox.tsx:22-24 | the categories whose lower-cased name contains the lower-cased search, in order |
| Combobox.EmptySearchListsAll | src/modules/settings/components/channels/category-combobox.tsx:22-24 | an empty search lists every category |
| Combobox.HandleCreate | src/modules/settings/components/channels/category-combobox.tsx:46-62 | no create exactly when the trimmed search is empty or a name matches the untrimmed search; a create has the trimmed name, `Circle` and a palette colour, then clears and closes |
| Combobox.HandleKeyDown | src/modules/settings/components/channels/category-combobox.tsx:64-69 | Enter attempts a create; other keys do nothing |
| Combobox.ClickOutside | src/modules/settings/components/channels/category-combobox.tsx:27-34 | a press outside closes the list and clears the search |
| Combobox.NoSecondCreate | src/modules/settings/components/channels/category-combobox.tsx:59-69 | after a create, Enter again creates nothing |
| Combobox.TrailingSpaceDuplicates | src/modules/settings/components/channels/category-combobox.tsx:47-50 | with `Music` stored, searching `Music ` creates a second `Music` |
| Combobox.HandleCreateTrimmed | src/modules/settings/components/channels/category-combobox.tsx:46-62 | corrected: the same handler with the guard on the trimmed search |
| Combobox.TrimmedCreateIsNew | src/modules/settings/components/channels/category-combobox.tsx:47-57 | with the trimmed guard, a created name equals no existing name up to case |
| Icons.CircleRegistered | src/iconRegistry.ts:20-21 | `Circle`, the form default, is the registry's first key; the registry has 107 keys |
| Icons.NamesCapitalised | src/iconRegistry.ts:20-35 | every key starts with a capital letter, so no inherited object property is a key |
| Icons.Registered | src/iconRegistry.ts:20-35 | a name resolves exactly when it is a registry key, to that key's component |
| Icons.GetIconComponent | src/iconRegistry.ts:37-39 | corrected: a key gives its component and any other name gives `Circle` |
| Icons.GetIconComponentAsWritten | src/iconRegistry.ts:37-39 | as written: a name the registry object inherits (the `Object.prototype` methods, `__proto__` and the legacy `__define*`/`__lookup*` methods) yields the inherited property, not `Circle` |
| Icons.InheritedKeyEscapesFallback | src/iconRegistry.ts:37-39 | `toString` resolves to the inherited function rather than `Circle` |
| Icons.LookupsAgreeOnOwnNames | src/iconRegistry.ts:37-39 | both lookups agree on every name an object does not inherit |
| Icons.IconList | src/iconRegistry.ts:41-44 | one entry per key, in key order, each with that key's component |
| Icons.FilteredIcons | src/components/icon-picker.tsx:14-19 | an empty query gives the whole list; otherwise the order-preserving entries whose name contains the query, ignoring case |
| Icons.FilteredIconsIsFilter | src/components/icon-picker.tsx:14-19 | the empty-query shortcut agrees with the general filter |
| Icons.PickerView | src/components/icon-picker.tsx:38-60 | a button is outlined exactly when it is the chosen icon; "No icons found" exactly for an empty result; the label is `icon` for one icon and `icons` otherwise |
| Icons.IconNames | src/components/IconPicker.tsx:10-13 | the function exports other than `default`, and `default` is never a name |
| Icons.IconNamesCons | src/components/IconPicker.tsx:10-13 | each export in turn: a function export other than `default` contributes its key once, in front of the rest |
| Icons.IconNamesConcat | src/components/IconPicker.tsx:10-13 | the names keep the export order and every occurrence: two tables in a row give the first's names, then the second's |
| Icons.FilteredIconNames | src/components/IconPicker.tsx:18-23 | at most 100 names: the first min(100, n) for an empty query, otherwise the first matches in order |
| Icons.ShownNamesMatch | src/components/IconPicker.tsx:10-23 | every shown name is an exported component matching the query |
| CategoryForms.HandleCreate | src/modules/settings/components/categories/categories-tab.tsx:26-42 | a blank name changes nothing; otherwise the trimmed category is appended with the form's icon and colour and the form resets and closes |
| CategoryForms.CreatedNameIsTrimmed | src/components/CategoryManagement.tsx:19-27 | a created name is non-blank and already trimmed |
| CategoryForms.HandleDelete | src/components/CategoryManagement.tsx:37-42 | nothing is written without confirmation; a confirmed delete writes exactly what `deleteCategory` writes, leaving no category with the id and the filters unchanged |
| CategoryForms.HandleStartEdit | src/modules/settings/components/tabs/categories-tab.tsx:58-64 | the edit form takes the category's fields; the create form closes and keeps its text |
| CategoryForms.HandleSaveEdit | src/modules/settings/components/categories/categories-tab.tsx:59-75 | a blank name or no target does nothing; otherwise the target takes the trimmed name, icon and colour, and the form resets |
| CategoryForms.HandleCancelEdit | src/modules/settings/components/tabs/categories-tab.tsx:84-89 | the edit form returns to its defaults and nothing is written |
| CategoryForms.StartThenCancel | src/modules/settings/components/categories/categories-tab.tsx:51-82 | opening and cancelling an edit leaves the edit form at its initial state |
| CategoryForms.SaveUnchangedWritesLoaded | src/modules/settings/components/tabs/categories-tab.tsx:58-82 | saving an untouched edit writes back the loaded category |
| Queries.QueryKey | src/modules/data/queries.ts:6-11 | each derived key is the storage key followed by the view's name |
| Queries.QueryKeysDistinct | src/modules/data/queries.ts:6-11 | different views have different keys |
| Queries.SortCategories | src/modules/data/queries.ts:14-16 | a name-ordered permutation of the categories |
| Queries.SortCategoriesIdempotent | src/modules/data/queries.ts:14-16 | sorting the sorted list changes nothing |
| Queries.UseCategories | src/modules/data/queries.ts:33-41 | before the load `data` is undefined and the list empty; after, both are the sorted categories |
| Queries.UseChannels | src/modules/data/queries.ts:44-52 | before the load the list is empty; after, it is the stored channels |
| Queries.UseActiveFilters | src/modules/data/queries.ts:55-63 | before the load the list is empty; after, it is the stored filters |
| Queries.UnloadedViewsAreEmpty | src/modules/data/queries.ts:39-61 | every view reads as an empty list before the first load |
| Seqs.Filter | src/modules/settings/components/channels/category-combobox.tsx:19-24 | `Array.filter`: the elements satisfying the predicate, each as often as before, in order |
| Seqs.RemoveAll | src/modules/feed/components/category-toggler.tsx:12 | every occurrence of the value removed, every other value kept as often as before |
| Seqs.Dedup | src/modules/serialization/hooks.ts:94-99 | `[...new Set(xs)]`: duplicate-free, with the same values |
| Seqs.DedupPrefix | src/modules/serialization/hooks.ts:94-99 | existing ids keep their positions when more ids are appended |
| Seqs.DedupIdentityIffNoDup | src/modules/serialization/hooks.ts:94-99 | deduplication changes nothing exactly when there are no duplicates |
| Seqs.DedupOfDedupPrefix | src/modules/serialization/hooks.ts:94-103 | deduplicating a prefix first changes nothing |
| Text.Trim | src/channelScraper.ts:15-17 | `trim`: a contiguous slice of the input without whitespace at either end |
| Text.TrimEmptyIffBlank | src/modules/settings/components/categories/categories-tab.tsx:27 | a name trims to empty exactly when it is all whitespace |
| Text.TrimIdempotent | src/modules/settings/components/tabs/categories-tab.tsx:36-41 | trimming twice equals trimming once |
| Text.Contains | src/modules/settings/components/channels/category-combobox.tsx:23 | `includes`: some position of the text holds the needle |
| Text.ToLower | src/components/icon-picker.tsx:17 | the same length, each letter lowered, and no capital letter left |
| Text.PluralSuffix | src/components/icon-picker.tsx:58-60 | the `s` suffix appears exactly when the count is not one |
| Ordering.SortBy | src/modules/data/queries.ts:14-16 | a name-ordered permutation |
| Ordering.SortByStable | src/modules/data/queries.ts:14-16 | the sort is stable: for every name, the elements carrying it keep their original relative order |
| Ordering.SortBySorted | src/modules/data/queries.ts:14-16 | a sorted list is its own sort |
| Ordering.FilterSorted | src/modules/settings/components/channels/channels-tab.tsx:32-38 | filtering a sorted list keeps it sorted |

## Left out

- DOM, observers and timers: the `MutationObserver` setup (src/videoFilter.ts:22-44), `waitForElement` and the scraper notices (src/channelScraper.ts:54-126), and the page-routing bootstrap in src/content/index.tsx. The feed and the subscriptions page are given as sequences of element records.
- `chrome.storage`, `onStorageChange` and asynchronous sequencing. Each storage operation is one atomic change to the stored record, and concurrent interleavings are not modelled.
- The React-query wiring (src/modules/data/mutations.ts, query-provider.tsx, src/modules/data/hooks.ts). It only invalidates a cache. `Queries.UseChannels` and `Queries.UseActiveFilters` have contracts that are little more than what the hooks read.
- Serialization.Export: the clock is a parameter. The export date is the text the caller passes, and `Date.prototype.toISOString`'s formatting is not modelled.
- File and browser plumbing: the Blob download, the timestamp in the export file name, `JSON.parse` and the file dialog. A chosen file is an `ImportFile`: unreadable, malformed, or parsed with each of its two lists present or missing. `alert` and `confirm` are outcomes and boolean inputs.
- Randomness: `crypto.randomUUID` and `Math.random` are parameters (the new id, a palette index).
- Ordering.SortBy: `localeCompare` is replaced by code-point lexicographic order. Any total order would do; the one the browser's locale uses is not modelled.
- Text.ToLower: lowers ASCII letters only, because `toLowerCase` over all of Unicode is not modelled.
- ChannelViews.MultiSelectWrites: the handler reads the ids to add and remove from the row's channel, but each write starts from the first rendered channel with that id. The model uses one list for both. The two differ only when the rendered list holds two channels with the same id, which a refresh never writes.
- ChannelViews.GroupByCategory: a JavaScript record's key order is not kept; the groups form a Dafny `map`. When a category's id is itself `unassigned`, its group is overwritten by the unassigned group, as in the code.
- FilterToggle.ToggleTwiceFromActive: toggling an active chip twice does not restore the list. The id moves to the end. Only the inactive case (`FilterToggle.ToggleTwiceFromInactive`) restores the list exactly.
- Storage.DeleteCategory: like the code, it does not remove the deleted id from the active filters. A deleted active category therefore stays a filter that no channel carries, and it hides the whole feed (`VideoFilter.NoMatchingChannelHidesAll`).
- Serialization.ImportChosen: JSON values are not modelled. Whether a parsed file makes the merge throw is given by the file (`Malformed`), not derived from its contents. Entries with missing or mistyped fields that do not throw are read as well-formed records.
- Icons.IconNames: the icon library's export table is an input. The library's actual list of exports is not modelled.
- Presentational components (buttons, inputs, modals, tabs, list items, cards), the development server and the build scripts.

## Findings

| source | as written | input that shows it | evidently intended | confidence | as-written member | corrected member |
|---|---|---|---|---|---|---|
| src/videoFilter.ts:88 | the feed filter's id pattern stops only at `/` and `?`, while the scraper's (src/channelScraper.ts:50) also stops at `&` and `#` | a channel link `/@h#x`: registration stores `@h`, the feed looks up `@h#x`, and the video is hidden | the feed resolves links with the same pattern registration used | not executed | ChannelIds.FragmentMismatch | ChannelIds.AlignedAgreesWithScraper |
| src/components/ChannelAssignment.tsx:114-131 | each added or removed id is written separately, every write computed from the same snapshot of the channel's categories | a channel in `A,B` switched to just `C` gets the writes `A,B,C`, then `B`, then `A` | the channel ends in exactly the selected categories | not executed | ChannelViews.MultiSelectCounterexample | ChannelViews.MultiSelectChange |
| src/modules/settings/components/channels/category-combobox.tsx:47-48 | the duplicate guard matches the untrimmed search, but the category gets the trimmed name | `Music` exists; typing `Music ` and Enter creates a second `Music` | no category is created with a name that already exists | not executed | Combobox.TrailingSpaceDuplicates | Combobox.TrimmedCreateIsNew |
| src/iconRegistry.ts:37-39 | `ICON_MAP[iconName] \|\| Circle` also finds properties every object inherits | a category whose icon is `toString` (reachable through an import) resolves to `Object.prototype.toString` instead of `Circle` | names outside the registry fall back to `Circle` | not executed | Icons.InheritedKeyEscapesFallback | Icons.GetIconComponent |
