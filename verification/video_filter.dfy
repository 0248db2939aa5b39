/** The feed filter (`VideoFilter` in src/videoFilter.ts): it caches the
    channel list and the active filter ids handed to it, and on every pass
    shows or hides each video renderer of the feed.

    The live document is replaced by a sequence of elements. An element
    records the `href` of the first channel link inside it (the anchor the
    source's `querySelector` would return, or nothing) and its inline
    `display` style. A pass maps the old sequence to the new one. */
module VideoFilter {
  import opened Wrappers
  import opened Model
  import ChannelIds

  /** The inline `display` style a pass assigns: `''` or `'none'`. */
  datatype Display = Shown | Hidden

  /** One `ytd-grid-video-renderer` or `ytd-rich-item-renderer`. */
  datatype Element = Element(channelHref: Option<string>, display: Display)

  /** The filter's cached state. */
  datatype Engine = Engine(channels: seq<Channel>, activeFilters: seq<string>)

  /** A freshly constructed filter knows no channels and no filters. */
  const INITIAL_ENGINE: Engine := Engine([], [])

  /** `categoryIds.some(catId => activeFilters.includes(catId))`. */
  function AnyActive(categoryIds: seq<string>, activeFilters: seq<string>): (b: bool)
    ensures b <==> exists c :: c in categoryIds && c in activeFilters
    decreases |categoryIds|
  {
    if |categoryIds| == 0 then false
    else
      assert forall c :: c in categoryIds <==> c == categoryIds[0] || c in categoryIds[1..];
      categoryIds[0] in activeFilters || AnyActive(categoryIds[1..], activeFilters)
  }

  /** A channel passes the filters when any of its categories is active. */
  ghost predicate Passes(ch: Channel, activeFilters: seq<string>) {
    exists c :: c in ch.categoryIds && c in activeFilters
  }

  /** The allowed-channel set built by the `forEach` over the channels:
      the ids of the channels that pass (categories combine with OR). */
  function AllowedIds(channels: seq<Channel>, activeFilters: seq<string>): (r: set<string>)
    ensures forall id :: id in r <==>
              exists i :: 0 <= i < |channels| && channels[i].id == id && Passes(channels[i], activeFilters)
    decreases |channels|
  {
    if |channels| == 0 then {}
    else
      var init := channels[..|channels| - 1];
      var last := channels[|channels| - 1];
      var r := AllowedIds(init, activeFilters);
      assert forall i :: 0 <= i < |init| ==> init[i] == channels[i];
      if AnyActive(last.categoryIds, activeFilters) then r + {last.id} else r
  }

  /** The visibility one element gets from a filtering pass: hidden when no
      channel link was found, otherwise shown exactly when the id the filter
      extracts from the link is allowed. */
  function Decide(e: Element, allowed: set<string>): Display {
    match e.channelHref
    case None => Hidden
    case Some(href) => if ChannelIds.FilterExtract(href) in allowed then Shown else Hidden
  }

  /** `showAllVideos`: every element shown. */
  function ShowAllVideos(els: seq<Element>): (r: seq<Element>)
    ensures |r| == |els|
    ensures forall i :: 0 <= i < |els| ==> r[i] == els[i].(display := Shown)
  {
    seq(|els|, i requires 0 <= i < |els| => els[i].(display := Shown))
  }

  /** `applyFilter`: with no active filter every element is shown; otherwise
      an element without a channel link is hidden (fail closed) and a linked
      element is shown exactly when some known channel with that id has an
      active category. Nothing but `display` changes. */
  function ApplyFilter(engine: Engine, els: seq<Element>): (r: seq<Element>)
    ensures |r| == |els|
    ensures forall i :: 0 <= i < |els| ==> r[i].channelHref == els[i].channelHref
    ensures |engine.activeFilters| == 0 ==> forall i :: 0 <= i < |r| ==> r[i].display == Shown
    ensures |engine.activeFilters| > 0 ==>
              forall i :: 0 <= i < |els| && els[i].channelHref.None? ==> r[i].display == Hidden
    ensures |engine.activeFilters| > 0 ==>
              forall i :: 0 <= i < |els| && els[i].channelHref.Some? ==>
                (r[i].display == Shown <==>
                   exists j :: 0 <= j < |engine.channels|
                     && engine.channels[j].id == ChannelIds.FilterExtract(els[i].channelHref.value)
                     && Passes(engine.channels[j], engine.activeFilters))
  {
    if |engine.activeFilters| == 0 then ShowAllVideos(els)
    else
      var allowed := AllowedIds(engine.channels, engine.activeFilters);
      seq(|els|, i requires 0 <= i < |els| => els[i].(display := Decide(els[i], allowed)))
  }

  /** A pass assigns every element's display, so what an element showed
      before the pass does not matter. */
  lemma ApplyFilterIgnoresPriorDisplay(engine: Engine, els1: seq<Element>, els2: seq<Element>)
    requires |els1| == |els2|
    requires forall i :: 0 <= i < |els1| ==> els1[i].channelHref == els2[i].channelHref
    ensures ApplyFilter(engine, els1) == ApplyFilter(engine, els2)
  {
    var r1 := ApplyFilter(engine, els1);
    var r2 := ApplyFilter(engine, els2);
    forall i | 0 <= i < |r1| ensures r1[i] == r2[i] {
      if |engine.activeFilters| > 0 && els1[i].channelHref.Some? {
        assert r1[i].display == Shown <==> r2[i].display == Shown;
      }
    }
  }

  /** A second pass with unchanged state changes nothing: the observer firing
      again, or a redundant update, is harmless. */
  lemma ApplyFilterIdempotent(engine: Engine, els: seq<Element>)
    ensures ApplyFilter(engine, ApplyFilter(engine, els)) == ApplyFilter(engine, els)
  {
    ApplyFilterIgnoresPriorDisplay(engine, ApplyFilter(engine, els), els);
  }

  /** Active filters that no channel carries hide the whole feed: an empty
      allowed set is not read as "show everything". */
  lemma NoMatchingChannelHidesAll(engine: Engine, els: seq<Element>)
    requires |engine.activeFilters| > 0
    requires forall j :: 0 <= j < |engine.channels| ==> !Passes(engine.channels[j], engine.activeFilters)
    ensures forall i :: 0 <= i < |els| ==> ApplyFilter(engine, els)[i].display == Hidden
  {
  }

  /** `updateChannels`: replaces the cached channels only, then runs a pass. */
  function UpdateChannels(engine: Engine, channels: seq<Channel>, els: seq<Element>): (r: (Engine, seq<Element>))
    ensures r.0.channels == channels && r.0.activeFilters == engine.activeFilters
    ensures r.1 == ApplyFilter(r.0, els)
  {
    var e := engine.(channels := channels);
    (e, ApplyFilter(e, els))
  }

  /** `updateFilters`: replaces the cached filter ids only, then runs a pass. */
  function UpdateFilters(engine: Engine, filterIds: seq<string>, els: seq<Element>): (r: (Engine, seq<Element>))
    ensures r.0.activeFilters == filterIds && r.0.channels == engine.channels
    ensures r.1 == ApplyFilter(r.0, els)
  {
    var e := engine.(activeFilters := filterIds);
    (e, ApplyFilter(e, els))
  }

  /** Two channels, one tagged `tech` and one `music`, with `tech` active:
      the `tech` channel's video shows, the other's is hidden, a video whose
      link names neither is hidden, and so is one without a channel link. */
  lemma TechScenario()
    ensures var r := ApplyFilter(Engine(TECH_CHANNELS, ["tech"]), TECH_FEED);
            |r| == 4 && r[0].display == Shown && r[1].display == Hidden
            && r[2].display == Hidden && r[3].display == Hidden
  {
    TechAllowed();
    TechDecisions();
    var allowed := AllowedIds(TECH_CHANNELS, ["tech"]);
    var r := ApplyFilter(Engine(TECH_CHANNELS, ["tech"]), TECH_FEED);
    assert forall i :: 0 <= i < 4 ==> r[i] == TECH_FEED[i].(display := Decide(TECH_FEED[i], allowed));
  }

  /** The example feed's four decisions when only `channel/UC1` is allowed. */
  lemma TechDecisions()
    ensures Decide(TECH_FEED[0], {"channel/UC1"}) == Shown
    ensures Decide(TECH_FEED[1], {"channel/UC1"}) == Hidden
    ensures Decide(TECH_FEED[2], {"channel/UC1"}) == Hidden
    ensures Decide(TECH_FEED[3], {"channel/UC1"}) == Hidden
  {
    TechLinksResolve();
    assert "channel/UC2"[10] != "channel/UC1"[10];
    assert "@abc"[0] != "channel/UC1"[0];
  }

  const TECH_CHANNELS: seq<Channel> :=
    [Channel("channel/UC1", "One", "t1", ["tech"]), Channel("channel/UC2", "Two", "t2", ["music"])]

  const TECH_FEED: seq<Element> :=
    [Element(Some("/channel/UC1"), Hidden), Element(Some("/channel/UC2"), Shown),
     Element(Some("/@abc"), Shown), Element(None, Shown)]

  lemma TechAllowed()
    ensures AllowedIds(TECH_CHANNELS, ["tech"]) == {"channel/UC1"}
  {
    assert AnyActive(TECH_CHANNELS[0].categoryIds, ["tech"]);
    assert !AnyActive(TECH_CHANNELS[1].categoryIds, ["tech"]);
    assert TECH_CHANNELS[..1] == [TECH_CHANNELS[0]];
    assert AllowedIds(TECH_CHANNELS[..1], ["tech"]) == {"channel/UC1"};
  }

  /** The three links of the feed above resolve to the ids written in them. */
  lemma TechLinksResolve()
    ensures ChannelIds.FilterExtract("/channel/UC1") == "channel/UC1"
    ensures ChannelIds.FilterExtract("/channel/UC2") == "channel/UC2"
    ensures ChannelIds.FilterExtract("/@abc") == "@abc"
  {
    ChannelLinkMatches("/channel/UC1");
    ChannelLinkMatches("/channel/UC2");
    HandleLinkMatches();
  }

  lemma ChannelLinkMatches(s: string)
    requires s == "/channel/UC1" || s == "/channel/UC2"
    ensures ChannelIds.MatchAt(s, 0, ChannelIds.FilterStops) == Some(s[1..])
  {
    assert s[1..9] == ChannelIds.CHANNEL_PREFIX;
    var run := s[9..12];
    assert run == "UC1" || run == "UC2";
    assert ChannelIds.NoStops(ChannelIds.FilterStops, run);
    ChannelIds.RunLengthUnique(s, 9, 3, ChannelIds.FilterStops);
    assert s[1..12] == s[1..];
  }

  lemma HandleLinkMatches()
    ensures ChannelIds.MatchAt("/@abc", 0, ChannelIds.FilterStops) == Some("@abc")
  {
    ChannelIds.WholeHandleMatch("/@abc", ChannelIds.FilterStops);
  }
}
