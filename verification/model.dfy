/** The three persisted records (`Category`, `Channel`, `StorageData`) and the
    colour palette offered to new categories. */
module Model {

  /** A user-defined grouping label. `icon` names an entry of the icon
      registry and `color` is a CSS colour string. */
  datatype Category = Category(id: string, name: string, icon: string, color: string)

  /** A subscribed channel. `id` is the `channel/<x>` or `@<x>` path segment
      the scraper extracted; `categoryIds` is the channel's membership list. */
  datatype Channel = Channel(id: string, name: string, thumbnailUrl: string, categoryIds: seq<string>)

  /** Everything kept under the extension's single storage key. */
  datatype StorageData = StorageData(categories: seq<Category>, channels: seq<Channel>, activeFilters: seq<string>)

  /** The palette new categories draw their colour from; the forms start on
      the first entry. */
  const CATEGORY_COLORS: seq<string> := [
    "#e57373", "#f06292", "#ba68c8", "#7986cb", "#64b5f6", "#4dd0e1", "#4db6ac",
    "#81c784", "#aed581", "#ffd54f", "#ffb74d", "#a1887f", "#90a4ae"
  ]

  /** The icon name every category form starts from and falls back to. */
  const DEFAULT_ICON: string := "Circle"

  /** The channels' ids, position by position. */
  function ChannelIds(cs: seq<Channel>): (ids: seq<string>)
    ensures |ids| == |cs|
    ensures forall i :: 0 <= i < |cs| ==> ids[i] == cs[i].id
  {
    seq(|cs|, i requires 0 <= i < |cs| => cs[i].id)
  }

  /** The categories' ids, position by position. */
  function CategoryIds(cs: seq<Category>): (ids: seq<string>)
    ensures |ids| == |cs|
    ensures forall i :: 0 <= i < |cs| ==> ids[i] == cs[i].id
  {
    seq(|cs|, i requires 0 <= i < |cs| => cs[i].id)
  }
}
