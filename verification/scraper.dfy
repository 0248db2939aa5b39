/** The subscription-page scraper (src/channelScraper.ts): one channel record
    per well-formed `ytd-channel-renderer`, and the refresh that merges a
    fresh scrape into the stored channel list without losing any category
    assignment. The wait for the first renderer and the page-level banners
    are not part of this model. */
module Scraper {
  import opened Wrappers
  import opened Model
  import opened OrderedMap
  import Seqs
  import Text
  import ChannelIds
  import Maps

  /** What the scraper reads from one renderer: the `href` of its
      `#main-link`, the text content of its `#text` node and the `src` of its
      `img#img`, each absent when the node is missing. */
  datatype Renderer = Renderer(mainLinkHref: Option<string>, nameText: Option<string>, thumbnailSrc: Option<string>)

  /** One loop iteration: a channel exactly when the link, a name that is
      not blank once trimmed, the thumbnail and a channel id are all there. */
  function ScrapeOne(e: Renderer): (r: Option<Channel>)
    ensures r.Some? <==>
              && e.mainLinkHref.Some?
              && e.nameText.Some? && !Text.IsBlank(e.nameText.value)
              && e.thumbnailSrc.Some?
              && ChannelIds.ScraperExtract(e.mainLinkHref.value).Some?
    ensures r.Some? ==>
              && ChannelIds.IdShape(ChannelIds.ScraperStops, r.value.id)
              && |r.value.name| > 0
              && !Text.IsWhitespace(r.value.name[0])
              && !Text.IsWhitespace(r.value.name[|r.value.name| - 1])
              && r.value.thumbnailUrl == e.thumbnailSrc.value
              && r.value.categoryIds == []
    ensures r.Some? ==>
              && ChannelIds.ScraperExtract(e.mainLinkHref.value) == Some(r.value.id)
              && r.value.name == Text.Trim(e.nameText.value)
  {
    if e.mainLinkHref.None? || e.nameText.None? || e.thumbnailSrc.None? then None
    else
      Text.TrimEmptyIffBlank(e.nameText.value);
      var name := Text.Trim(e.nameText.value);
      if name == [] then None
      else
        match ChannelIds.ScraperExtract(e.mainLinkHref.value)
        case None => None
        case Some(id) => Some(Channel(id, name, e.thumbnailSrc.value, []))
  }

  /** `scrapeChannels`: the channels of the renderers that yield one, in
      document order. */
  function Scrape(els: seq<Renderer>): (r: seq<Channel>)
    ensures |r| <= |els|
    decreases |els|
  {
    if |els| == 0 then []
    else
      var r := Scrape(els[..|els| - 1]);
      match ScrapeOne(els[|els| - 1])
      case None => r
      case Some(ch) => r + [ch]
  }

  /** The renderer at position `i` yields the record `ch`. */
  ghost predicate YieldsAt(els: seq<Renderer>, i: int, ch: Channel) {
    0 <= i < |els| && ScrapeOne(els[i]) == Some(ch)
  }

  /** A record is scraped exactly when some renderer yields it. */
  lemma {:induction false} ScrapeMembers(els: seq<Renderer>)
    ensures forall ch :: ch in Scrape(els) <==> exists i :: YieldsAt(els, i, ch)
    decreases |els|
  {
    if |els| > 0 {
      ScrapeMembers(els[..|els| - 1]);
      forall ch ensures ch in Scrape(els) <==> exists i :: YieldsAt(els, i, ch) {
        ScrapeMemberStep(els, els[..|els| - 1], ch);
      }
    }
  }

  /** One renderer more: membership of one record carries over from the
      shorter page. */
  lemma ScrapeMemberStep(els: seq<Renderer>, init: seq<Renderer>, ch: Channel)
    requires |els| > 0 && init == els[..|els| - 1]
    requires ch in Scrape(init) <==> exists i :: YieldsAt(init, i, ch)
    ensures ch in Scrape(els) <==> exists i :: YieldsAt(els, i, ch)
  {
    var last := els[|els| - 1];
    var y := ScrapeOne(last);
    assert Scrape(els) == if y.Some? then Scrape(init) + [y.value] else Scrape(init);
    if ch in Scrape(els) {
      if y == Some(ch) {
        assert YieldsAt(els, |els| - 1, ch);
      } else {
        assert ch in Scrape(init);
        var i :| YieldsAt(init, i, ch);
        YieldsAtPrefix(els, i, ch);
      }
    }
    if exists i :: YieldsAt(els, i, ch) {
      var i :| YieldsAt(els, i, ch);
      if i < |els| - 1 {
        YieldsAtPrefix(els, i, ch);
      }
    }
  }

  /** Positions before the last mean the same renderer on the shorter page. */
  lemma YieldsAtPrefix(els: seq<Renderer>, i: int, ch: Channel)
    requires 0 <= i < |els| - 1
    ensures YieldsAt(els[..|els| - 1], i, ch) <==> YieldsAt(els, i, ch)
  {
    assert els[..|els| - 1][i] == els[i];
  }

  /** The renderers are scraped independently: scraping two runs of the page
      one after the other gives the two results in sequence. */
  lemma {:induction false} ScrapeConcat(a: seq<Renderer>, b: seq<Renderer>)
    ensures Scrape(a + b) == Scrape(a) + Scrape(b)
    decreases |b|
  {
    if |b| > 0 {
      var b' := b[..|b| - 1];
      ScrapeConcat(a, b');
      assert (a + b)[..|a + b| - 1] == a + b';
      assert (a + b)[|a + b| - 1] == b[|b| - 1];
    } else {
      assert a + b == a;
    }
  }

  /** Every scraped record is fresh: it carries no category. */
  lemma ScrapedHaveNoCategories(els: seq<Renderer>)
    ensures forall ch :: ch in Scrape(els) ==> ch.categoryIds == []
  {
    ScrapeMembers(els);
    forall ch | ch in Scrape(els) ensures ch.categoryIds == [] {
      var i :| YieldsAt(els, i, ch);
    }
  }

  /** One iteration of the refresh loop: a channel already in the map keeps
      the map's category list; the record is then `set` under its id. */
  function MergeOne(m: seq<Entry<string, Channel>>, ch: Channel): seq<Entry<string, Channel>> {
    var existing := Get(m, ch.id);
    var ch' := if existing.Some? then ch.(categoryIds := existing.value.categoryIds) else ch;
    Put(m, ch.id, ch')
  }

  /** After one iteration the channel's id reads the new record, carrying
      the categories the map had for it if any; other ids are untouched. */
  lemma MergeOneGet(m: seq<Entry<string, Channel>>, ch: Channel, id: string)
    ensures Get(MergeOne(m, ch), id)
            == if ch.id != id then Get(m, id)
               else if Get(m, id).Some? then Some(ch.(categoryIds := Get(m, id).value.categoryIds))
               else Some(ch)
  {
    var existing := Get(m, ch.id);
    var ch' := if existing.Some? then ch.(categoryIds := existing.value.categoryIds) else ch;
    PutGet(m, ch.id, ch', id);
  }

  /** The refresh loop over every scraped channel, in order. */
  function MergeAll(m: seq<Entry<string, Channel>>, scraped: seq<Channel>): (r: seq<Entry<string, Channel>>)
    ensures Seqs.NoDup(Keys(m)) ==> Keys(r) == Seqs.Dedup(Keys(m) + Model.ChannelIds(scraped))
    ensures Maps.ChannelsKeyed(m) ==> Maps.ChannelsKeyed(r)
    decreases |scraped|
  {
    if |scraped| == 0 then
      assert Keys(m) + Model.ChannelIds(scraped) == Keys(m);
      Seqs.DedupIdentityIffNoDup(Keys(m));
      m
    else
      var init := scraped[..|scraped| - 1];
      var ch := scraped[|scraped| - 1];
      assert scraped == init + [ch];
      MergeStep(m, init, ch, MergeAll(m, init));
      MergeOne(MergeAll(m, init), ch)
  }

  /** One more iteration keeps `MergeAll`'s key order and keying. */
  lemma MergeStep(m: seq<Entry<string, Channel>>, init: seq<Channel>, ch: Channel, m': seq<Entry<string, Channel>>)
    requires Seqs.NoDup(Keys(m)) ==> Keys(m') == Seqs.Dedup(Keys(m) + Model.ChannelIds(init))
    requires Maps.ChannelsKeyed(m) ==> Maps.ChannelsKeyed(m')
    ensures Seqs.NoDup(Keys(m)) ==> Keys(MergeOne(m', ch)) == Seqs.Dedup(Keys(m) + Model.ChannelIds(init + [ch]))
    ensures Maps.ChannelsKeyed(m) ==> Maps.ChannelsKeyed(MergeOne(m', ch))
  {
    var base := Keys(m) + Model.ChannelIds(init);
    assert Model.ChannelIds(init + [ch]) == Model.ChannelIds(init) + [ch.id];
    Seqs.ConcatAssoc(Keys(m), Model.ChannelIds(init), [ch.id]);
    assert Keys(m) + Model.ChannelIds(init + [ch]) == base + [ch.id];
    Seqs.DedupSnoc(base, ch.id);
    PutEntries(m', ch.id, if Get(m', ch.id).Some? then ch.(categoryIds := Get(m', ch.id).value.categoryIds) else ch);
  }

  /** The last scraped record with id `id`. */
  function LastWithId(scraped: seq<Channel>, id: string): Option<Channel>
    decreases |scraped|
  {
    if |scraped| == 0 then None
    else if scraped[|scraped| - 1].id == id then Some(scraped[|scraped| - 1])
    else LastWithId(scraped[..|scraped| - 1], id)
  }

  /** The first scraped record with id `id`. */
  function FirstWithId(scraped: seq<Channel>, id: string): Option<Channel>
    decreases |scraped|
  {
    if |scraped| == 0 then None
    else if scraped[0].id == id then Some(scraped[0])
    else FirstWithId(scraped[1..], id)
  }

  lemma {:induction false} FirstWithIdSnoc(scraped: seq<Channel>, ch: Channel, id: string)
    ensures FirstWithId(scraped + [ch], id)
            == if FirstWithId(scraped, id).Some? then FirstWithId(scraped, id)
               else if ch.id == id then Some(ch) else None
    decreases |scraped|
  {
    if |scraped| > 0 {
      FirstWithIdSnoc(scraped[1..], ch, id);
      assert (scraped + [ch])[1..] == scraped[1..] + [ch];
    }
  }

  /** Some record has the id exactly when a first one does and exactly
      when a last one does. */
  lemma {:induction false} FirstIffLast(scraped: seq<Channel>, id: string)
    ensures FirstWithId(scraped, id).None? <==> LastWithId(scraped, id).None?
    decreases |scraped|
  {
    if |scraped| > 0 {
      var init := scraped[..|scraped| - 1];
      FirstIffLast(init, id);
      assert scraped == init + [scraped[|scraped| - 1]];
      FirstWithIdSnoc(init, scraped[|scraped| - 1], id);
    }
  }

  /** What the merged map holds under one id: untouched when the scrape did
      not see the id; otherwise the latest scraped record, carrying the
      categories the map already had for the id, or, for an id the map did
      not have, those of its first scraped record. */
  lemma {:induction false} MergeAllGet(m: seq<Entry<string, Channel>>, scraped: seq<Channel>, id: string)
    ensures Get(MergeAll(m, scraped), id)
            == match LastWithId(scraped, id)
               case None => Get(m, id)
               case Some(latest) =>
                 Some(latest.(categoryIds :=
                   if Get(m, id).Some? then Get(m, id).value.categoryIds
                   else FirstWithId(scraped, id).GetOr(latest).categoryIds))
    decreases |scraped|
  {
    if |scraped| > 0 {
      var init := scraped[..|scraped| - 1];
      var ch := scraped[|scraped| - 1];
      assert scraped == init + [ch];
      assert MergeAll(m, scraped) == MergeOne(MergeAll(m, init), ch);
      MergeAllGet(m, init, id);
      MergeGetStep(m, init, ch, id);
    }
  }

  /** What `MergeAllGet` says the merged map holds under `id`. */
  ghost function MergedAt(m: seq<Entry<string, Channel>>, scraped: seq<Channel>, id: string): Option<Channel> {
    match LastWithId(scraped, id)
    case None => Get(m, id)
    case Some(latest) =>
      Some(latest.(categoryIds :=
        if Get(m, id).Some? then Get(m, id).value.categoryIds
        else FirstWithId(scraped, id).GetOr(latest).categoryIds))
  }

  /** One iteration of the merge keeps `MergeAllGet`'s description true. */
  lemma {:induction false} MergeGetStep(m: seq<Entry<string, Channel>>, init: seq<Channel>, ch: Channel, id: string)
    requires Get(MergeAll(m, init), id) == MergedAt(m, init, id)
    ensures Get(MergeOne(MergeAll(m, init), ch), id) == MergedAt(m, init + [ch], id)
  {
    FirstWithIdSnoc(init, ch, id);
    FirstIffLast(init, id);
    MergeOneGet(MergeAll(m, init), ch, id);
    var s := init + [ch];
    assert s[..|s| - 1] == init && s[|s| - 1] == ch;
    if ch.id != id {
      assert LastWithId(s, id) == LastWithId(init, id);
    } else {
      assert LastWithId(s, id) == Some(ch);
    }
  }

  /** The merged map of `refreshChannelList`. */
  function RefreshMap(stored: seq<Channel>, scraped: seq<Channel>): (m: seq<Entry<string, Channel>>)
    ensures Keys(m) == Seqs.Dedup(Model.ChannelIds(stored) + Model.ChannelIds(scraped))
    ensures Maps.ChannelsKeyed(m)
  {
    var m0 := Maps.ChannelMap(stored);
    Seqs.DedupOfDedupPrefix(Model.ChannelIds(stored), Model.ChannelIds(scraped));
    MergeAll(m0, scraped)
  }

  /** `refreshChannelList`: the channel list written back to storage. */
  function RefreshMerge(stored: seq<Channel>, scraped: seq<Channel>): (r: seq<Channel>)
    ensures Model.ChannelIds(r) == Seqs.Dedup(Model.ChannelIds(stored) + Model.ChannelIds(scraped))
  {
    var m := RefreshMap(stored, scraped);
    Maps.ChannelValuesIds(m);
    Values(m)
  }

  /** The channel stored last under `id`, as the starting map reads it. */
  function LastStored(stored: seq<Channel>, id: string): Option<Channel> {
    LastWithId(stored, id)
  }

  lemma {:induction false} LastValueById(stored: seq<Channel>, id: string)
    ensures LastValue(Maps.ChannelEntries(stored), id) == match LastWithId(stored, id)
                                           case None => None
                                           case Some(ch) => Some(ch)
    decreases |stored|
  {
    if |stored| > 0 {
      var init := stored[..|stored| - 1];
      LastValueById(init, id);
      assert Maps.ChannelEntries(stored)[..|stored| - 1] == Maps.ChannelEntries(init);
    }
  }

  /** Each merged record is determined by its id: a stored channel the
      scrape did not see is kept as stored; a scraped channel takes its
      latest name and thumbnail and keeps the stored categories, or, when it
      was not stored, the (empty) categories of its first scrape. */
  lemma RefreshMergeMeaning(stored: seq<Channel>, scraped: seq<Channel>, i: int)
    requires 0 <= i < |RefreshMerge(stored, scraped)|
    ensures var ch := RefreshMerge(stored, scraped)[i];
            match LastWithId(scraped, ch.id)
            case None => Some(ch) == LastStored(stored, ch.id)
            case Some(latest) =>
              ch == latest.(categoryIds :=
                if LastStored(stored, ch.id).Some? then LastStored(stored, ch.id).value.categoryIds
                else FirstWithId(scraped, ch.id).GetOr(latest).categoryIds)
  {
    var m := RefreshMap(stored, scraped);
    var r := RefreshMerge(stored, scraped);
    assert m[i] in m;
    assert r[i] == m[i].value;
    var id := m[i].key;
    assert Keys(m)[i] == id;
    GetAtIndex(m, i);
    MergeAllGet(Maps.ChannelMap(stored), scraped, id);
    LastValueById(stored, id);
  }

  /** A refresh never loses a stored channel, and a stored channel keeps its
      category assignment whether or not the scrape saw it again. */
  lemma RefreshKeepsAssignments(stored: seq<Channel>, scraped: seq<Channel>, id: string)
    requires LastStored(stored, id).Some?
    ensures exists i :: 0 <= i < |RefreshMerge(stored, scraped)|
              && RefreshMerge(stored, scraped)[i].id == id
              && RefreshMerge(stored, scraped)[i].categoryIds == LastStored(stored, id).value.categoryIds
  {
    var r := RefreshMerge(stored, scraped);
    LastWithIdIn(stored, id);
    assert id in Model.ChannelIds(stored) + Model.ChannelIds(scraped);
    assert id in Model.ChannelIds(r);
    var i :| 0 <= i < |r| && Model.ChannelIds(r)[i] == id;
    RefreshMergeMeaning(stored, scraped, i);
  }

  lemma {:induction false} LastWithIdIn(chs: seq<Channel>, id: string)
    requires LastWithId(chs, id).Some?
    ensures LastWithId(chs, id).value.id == id
    ensures id in Model.ChannelIds(chs)
    decreases |chs|
  {
    var init := chs[..|chs| - 1];
    if chs[|chs| - 1].id != id {
      LastWithIdIn(init, id);
      var j :| 0 <= j < |init| && Model.ChannelIds(init)[j] == id;
      assert Model.ChannelIds(chs)[j] == id;
    } else {
      assert Model.ChannelIds(chs)[|chs| - 1] == id;
    }
  }

  lemma {:induction false} FirstWithIdIn(chs: seq<Channel>, id: string)
    requires FirstWithId(chs, id).Some?
    ensures FirstWithId(chs, id).value in chs
    decreases |chs|
  {
    if chs[0].id != id {
      FirstWithIdIn(chs[1..], id);
    }
  }

  /** The last record with an id is one of the records. */
  lemma {:induction false} LastWithIdMember(chs: seq<Channel>, id: string)
    requires LastWithId(chs, id).Some?
    ensures LastWithId(chs, id).value in chs
    decreases |chs|
  {
    if chs[|chs| - 1].id != id {
      LastWithIdMember(chs[..|chs| - 1], id);
    }
  }

  /** `refreshChannelList` as a whole: every channel of the written list is
      the record stored last under its id or, apart from its categories, a
      record some renderer on the page yields; it has the categories it had
      in storage, and a channel seen for the first time has none. */
  lemma RefreshFromPage(stored: seq<Channel>, page: seq<Renderer>, i: int)
    requires 0 <= i < |RefreshMerge(stored, Scrape(page))|
    ensures var ch := RefreshMerge(stored, Scrape(page))[i];
            Some(ch) == LastStored(stored, ch.id) || exists j :: YieldsAt(page, j, ch.(categoryIds := []))
    ensures var ch := RefreshMerge(stored, Scrape(page))[i];
            ch.categoryIds == if LastStored(stored, ch.id).Some? then LastStored(stored, ch.id).value.categoryIds else []
  {
    var scraped := Scrape(page);
    var ch := RefreshMerge(stored, scraped)[i];
    RefreshMergeMeaning(stored, scraped, i);
    ScrapedHaveNoCategories(page);
    if LastWithId(scraped, ch.id).Some? {
      var latest := LastWithId(scraped, ch.id).value;
      LastWithIdMember(scraped, ch.id);
      ScrapeMembers(page);
      assert ch.(categoryIds := []) == latest;
      if LastStored(stored, ch.id).None? {
        FirstIffLast(scraped, ch.id);
        FirstWithIdIn(scraped, ch.id);
      }
    }
  }
}
