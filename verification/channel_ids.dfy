/** The two channel-id extractors, written out as explicit scans of the
    regular expressions they use.

    The feed filter (src/videoFilter.ts) matches `/\/(channel\/[^/?]+|@[^/?]+)/`
    and falls back to the whole URL; the channel scraper (src/channelScraper.ts)
    matches `/\/(channel\/[^/?&#]+|@[^/?&#]+)/` and yields nothing on failure.
    Both take the leftmost `/` at which the group matches; the group is
    `channel/` or `@` followed by the longest non-empty run of characters
    outside the extractor's stop set. */
module ChannelIds {
  import opened Wrappers

  /** The characters that end a captured run. */
  datatype StopSet =
    | FilterStops   // `/` and `?`
    | ScraperStops  // `/`, `?`, `&` and `#`

  predicate IsStop(k: StopSet, c: char) {
    c == '/' || c == '?' || (k == ScraperStops && (c == '&' || c == '#'))
  }

  /** No character of `s` is a stop character. */
  ghost predicate NoStops(k: StopSet, s: string) {
    forall j :: 0 <= j < |s| ==> !IsStop(k, s[j])
  }

  const CHANNEL_PREFIX: string := "channel/"

  /** The length of the longest run of non-stop characters starting at `i`
      (the greedy `[^...]+`, before its non-emptiness check). */
  function RunLength(s: string, i: nat, k: StopSet): (n: nat)
    requires i <= |s|
    ensures i + n <= |s|
    ensures NoStops(k, s[i..i + n])
    ensures i + n == |s| || IsStop(k, s[i + n])
    decreases |s| - i
  {
    if i == |s| || IsStop(k, s[i]) then 0
    else
      var n := RunLength(s, i + 1, k);
      assert s[i..i + 1 + n] == [s[i]] + s[i + 1..i + 1 + n];
      1 + n
  }

  /** The group captured when the regular expression is tried with its `/`
      at position `p`. */
  function MatchAt(s: string, p: nat, k: StopSet): Option<string> {
    if p < |s| && s[p] == '/' then
      if p + 9 <= |s| && s[p + 1..p + 9] == CHANNEL_PREFIX && RunLength(s, p + 9, k) > 0 then
        Some(s[p + 1..p + 9 + RunLength(s, p + 9, k)])
      else if p + 2 <= |s| && s[p + 1] == '@' && RunLength(s, p + 2, k) > 0 then
        Some(s[p + 1..p + 2 + RunLength(s, p + 2, k)])
      else None
    else None
  }

  /** An id as the expression's group describes it: `channel/` or `@`
      followed by a non-empty run free of stop characters. */
  ghost predicate IdShape(k: StopSet, cap: string) {
    || (|cap| > 8 && cap[..8] == CHANNEL_PREFIX && NoStops(k, cap[8..]))
    || (|cap| > 1 && cap[0] == '@' && NoStops(k, cap[1..]))
  }

  /** Declarative reading of one match: a `/` at `p`, then `cap` in the text,
      of id shape, with its run ended by a stop character or the end of `s`. */
  ghost predicate Captures(s: string, p: int, k: StopSet, cap: string) {
    && 0 <= p && p + 1 + |cap| <= |s|
    && s[p] == '/'
    && s[p + 1..p + 1 + |cap|] == cap
    && IdShape(k, cap)
    && (p + 1 + |cap| == |s| || IsStop(k, s[p + 1 + |cap|]))
  }

  /** A run of non-stop characters that ends at a stop or at the end is the
      longest one. */
  lemma {:induction false} RunLengthUnique(s: string, i: nat, n: nat, k: StopSet)
    requires i + n <= |s|
    requires NoStops(k, s[i..i + n])
    requires i + n == |s| || IsStop(k, s[i + n])
    ensures RunLength(s, i, k) == n
    decreases n
  {
    if n > 0 {
      assert s[i..i + n][0] == s[i];
      assert s[i + 1..i + n] == s[i..i + n][1..];
      RunLengthUnique(s, i + 1, n - 1, k);
    }
  }

  /** `MatchAt` is exactly the declarative match. */
  lemma MatchAtMeaning(s: string, p: nat, k: StopSet, cap: string)
    ensures MatchAt(s, p, k) == Some(cap) <==> Captures(s, p, k, cap)
  {
    if MatchAt(s, p, k) == Some(cap) {
      MatchAtSound(s, p, k, cap);
    }
    if Captures(s, p, k, cap) {
      if |cap| > 8 && cap[..8] == CHANNEL_PREFIX && NoStops(k, cap[8..]) {
        ChannelCaptureMatches(s, p, k, cap);
      } else {
        HandleCaptureMatches(s, p, k, cap);
      }
    }
  }

  /** What the scan captures is a declarative match. */
  lemma MatchAtSound(s: string, p: nat, k: StopSet, cap: string)
    requires MatchAt(s, p, k) == Some(cap)
    ensures Captures(s, p, k, cap)
  {
    if p + 9 <= |s| && s[p + 1..p + 9] == CHANNEL_PREFIX && RunLength(s, p + 9, k) > 0 {
      var n := RunLength(s, p + 9, k);
      assert cap[..8] == s[p + 1..p + 9];
      assert cap[8..] == s[p + 9..p + 9 + n];
    } else {
      var n := RunLength(s, p + 2, k);
      assert cap[1..] == s[p + 2..p + 2 + n];
    }
  }

  /** A declarative `channel/` match is what the scan captures. */
  lemma ChannelCaptureMatches(s: string, p: nat, k: StopSet, cap: string)
    requires Captures(s, p, k, cap)
    requires |cap| > 8 && cap[..8] == CHANNEL_PREFIX && NoStops(k, cap[8..])
    ensures MatchAt(s, p, k) == Some(cap)
  {
    assert s[p + 1..p + 9] == cap[..8];
    assert s[p + 9..p + 1 + |cap|] == cap[8..];
    RunLengthUnique(s, p + 9, |cap| - 8, k);
  }

  /** A declarative `@` match that is not a `channel/` match is what the
      scan captures. */
  lemma HandleCaptureMatches(s: string, p: nat, k: StopSet, cap: string)
    requires Captures(s, p, k, cap)
    requires !(|cap| > 8 && cap[..8] == CHANNEL_PREFIX && NoStops(k, cap[8..]))
    ensures MatchAt(s, p, k) == Some(cap)
  {
    assert |cap| > 1 && cap[0] == '@' && NoStops(k, cap[1..]);
    assert s[p + 1] == cap[0];
    if p + 9 <= |s| {
      assert s[p + 1..p + 9][0] == s[p + 1];
    }
    assert s[p + 2..p + 1 + |cap|] == cap[1..];
    RunLengthUnique(s, p + 2, |cap| - 1, k);
  }

  /** The leftmost match at or after position `p`. */
  function FirstMatch(s: string, p: nat, k: StopSet): Option<string>
    requires p <= |s|
    decreases |s| - p
  {
    if p == |s| then None
    else if MatchAt(s, p, k).Some? then MatchAt(s, p, k)
    else FirstMatch(s, p + 1, k)
  }

  /** The scan reports nothing exactly when no position matches, and
      otherwise reports the match at the first position that matches. */
  lemma {:induction false} FirstMatchMeaning(s: string, p: nat, k: StopSet)
    requires p <= |s|
    ensures FirstMatch(s, p, k).None? <==> forall q :: p <= q <= |s| ==> MatchAt(s, q, k).None?
    ensures FirstMatch(s, p, k).Some? ==>
              exists q :: p <= q < |s| && MatchAt(s, q, k) == FirstMatch(s, p, k)
                && forall q' :: p <= q' < q ==> MatchAt(s, q', k).None?
    decreases |s| - p
  {
    if p == |s| {
      assert MatchAt(s, p, k).None?;
    } else if MatchAt(s, p, k).Some? {
      assert p <= p < |s| && MatchAt(s, p, k) == FirstMatch(s, p, k);
    } else {
      FirstMatchMeaning(s, p + 1, k);
      assert FirstMatch(s, p, k) == FirstMatch(s, p + 1, k);
      if FirstMatch(s, p, k).Some? {
        var q :| p + 1 <= q < |s| && MatchAt(s, q, k) == FirstMatch(s, p, k)
                 && forall q' :: p + 1 <= q' < q ==> MatchAt(s, q', k).None?;
        assert forall q' :: p <= q' < q ==> MatchAt(s, q', k).None?;
      } else {
        assert forall q :: p <= q <= |s| ==> MatchAt(s, q, k).None?;
      }
    }
  }

  /** The scraper's `extractChannelId`: the leftmost group, or nothing. */
  function ScraperExtract(url: string): (r: Option<string>)
    ensures r.Some? ==> IdShape(ScraperStops, r.value)
    ensures r.None? <==> forall p, cap :: !Captures(url, p, ScraperStops, cap)
    ensures r.Some? ==> exists p :: Captures(url, p, ScraperStops, r.value)
                          && forall q, cap :: 0 <= q < p ==> !Captures(url, q, ScraperStops, cap)
  {
    var r := FirstMatch(url, 0, ScraperStops);
    LeftmostMeaning(url, ScraperStops);
    r
  }

  /** The feed filter's `extractChannelId`: the leftmost group, or the whole
      URL unchanged when nothing matches. */
  function FilterExtract(url: string): (r: string)
    ensures (forall p, cap :: !Captures(url, p, FilterStops, cap)) ==> r == url
    ensures (exists p, cap :: Captures(url, p, FilterStops, cap)) ==>
              IdShape(FilterStops, r)
              && exists p :: Captures(url, p, FilterStops, r)
                   && forall q, cap :: 0 <= q < p ==> !Captures(url, q, FilterStops, cap)
  {
    LeftmostMeaning(url, FilterStops);
    FirstMatch(url, 0, FilterStops).GetOr(url)
  }

  /** The scan finds a match exactly when the declarative reading has one,
      and what it finds is the leftmost. */
  lemma LeftmostMeaning(url: string, k: StopSet)
    ensures FirstMatch(url, 0, k).None? <==> forall p, cap :: !Captures(url, p, k, cap)
    ensures FirstMatch(url, 0, k).Some? ==>
              IdShape(k, FirstMatch(url, 0, k).value)
              && exists p :: Captures(url, p, k, FirstMatch(url, 0, k).value)
                   && forall q, cap :: 0 <= q < p ==> !Captures(url, q, k, cap)
  {
    var r := FirstMatch(url, 0, k);
    FirstMatchMeaning(url, 0, k);
    forall p, cap | Captures(url, p, k, cap) ensures r.Some? {
      MatchAtMeaning(url, p, k, cap);
    }
    if r.Some? {
      var p :| 0 <= p < |url| && MatchAt(url, p, k) == r
               && forall q' :: 0 <= q' < p ==> MatchAt(url, q', k).None?;
      MatchAtMeaning(url, p, k, r.value);
      forall q, cap | 0 <= q < p ensures !Captures(url, q, k, cap) {
        MatchAtMeaning(url, q, k, cap);
      }
    }
  }

  /** No `&` and no `#`: where the two stop sets differ. */
  ghost predicate FreeOfAmpAndHash(s: string) {
    forall j :: 0 <= j < |s| ==> s[j] != '&' && s[j] != '#'
  }

  /** The scraper stops wherever the filter does, so its run is never the
      longer one. */
  lemma {:induction false} RunLengthMono(s: string, i: nat)
    requires i <= |s|
    ensures RunLength(s, i, ScraperStops) <= RunLength(s, i, FilterStops)
    decreases |s| - i
  {
    if i < |s| && !IsStop(ScraperStops, s[i]) {
      RunLengthMono(s, i + 1);
    }
  }

  /** When the filter's run holds no `&` and no `#`, the scraper's run is the
      same one. */
  lemma RunLengthFreeAgree(s: string, i: nat, run: string)
    requires i <= |s| && run == s[i..i + RunLength(s, i, FilterStops)]
    requires FreeOfAmpAndHash(run)
    ensures RunLength(s, i, ScraperStops) == RunLength(s, i, FilterStops)
  {
    forall j | 0 <= j < |run| ensures !IsStop(ScraperStops, run[j]) {
      assert !IsStop(FilterStops, run[j]);
    }
    RunLengthUnique(s, i, |run|, ScraperStops);
  }

  /** A string free of `&` and `#` has every slice free of them. */
  lemma FreeSlice(s: string, i: nat, j: nat)
    requires i <= j <= |s| && FreeOfAmpAndHash(s)
    ensures FreeOfAmpAndHash(s[i..j])
  {
    forall k | 0 <= k < j - i ensures s[i..j][k] != '&' && s[i..j][k] != '#' {
      assert s[i..j][k] == s[i + k];
    }
  }

  /** Wherever the scraper's expression matches, the filter's matches too. */
  lemma MatchAtMono(s: string, q: nat)
    requires MatchAt(s, q, ScraperStops).Some?
    ensures MatchAt(s, q, FilterStops).Some?
  {
    if q + 9 <= |s| { RunLengthMono(s, q + 9); }
    RunLengthMono(s, q + 2);
  }

  /** A filter match free of `&` and `#` is also the scraper's match there. */
  lemma MatchAtFreeAgree(s: string, p: nat)
    requires MatchAt(s, p, FilterStops).Some?
    requires FreeOfAmpAndHash(MatchAt(s, p, FilterStops).value)
    ensures MatchAt(s, p, ScraperStops) == MatchAt(s, p, FilterStops)
  {
    if p + 9 <= |s| && s[p + 1..p + 9] == CHANNEL_PREFIX && RunLength(s, p + 9, FilterStops) > 0 {
      ChannelBranchAgree(s, p, s[p + 1..p + 9 + RunLength(s, p + 9, FilterStops)]);
    } else {
      HandleBranchAgree(s, p, s[p + 1..p + 2 + RunLength(s, p + 2, FilterStops)]);
    }
  }

  lemma ChannelBranchAgree(s: string, p: nat, cap: string)
    requires p < |s| && s[p] == '/'
    requires p + 9 <= |s| && s[p + 1..p + 9] == CHANNEL_PREFIX && RunLength(s, p + 9, FilterStops) > 0
    requires cap == s[p + 1..p + 9 + RunLength(s, p + 9, FilterStops)] && FreeOfAmpAndHash(cap)
    ensures MatchAt(s, p, ScraperStops) == MatchAt(s, p, FilterStops)
  {
    ChannelRunAgree(s, p, cap);
    ChannelBranchMatch(s, p, FilterStops);
    ChannelBranchMatch(s, p, ScraperStops);
  }

  /** A `channel/` capture free of `&` and `#` ends where the scraper's run
      ends. */
  lemma ChannelRunAgree(s: string, p: nat, cap: string)
    requires p + 9 <= |s|
    requires cap == s[p + 1..p + 9 + RunLength(s, p + 9, FilterStops)] && FreeOfAmpAndHash(cap)
    ensures RunLength(s, p + 9, ScraperStops) == RunLength(s, p + 9, FilterStops)
  {
    var n := RunLength(s, p + 9, FilterStops);
    FreeSlice(cap, 8, |cap|);
    assert cap[8..] == s[p + 9..p + 9 + n];
    RunLengthFreeAgree(s, p + 9, cap[8..]);
  }

  /** Where `/channel/` is followed by a non-empty run, the match is
      `channel/` and that run. */
  lemma ChannelBranchMatch(s: string, p: nat, k: StopSet)
    requires p < |s| && s[p] == '/'
    requires p + 9 <= |s| && s[p + 1..p + 9] == CHANNEL_PREFIX && RunLength(s, p + 9, k) > 0
    ensures MatchAt(s, p, k) == Some(s[p + 1..p + 9 + RunLength(s, p + 9, k)])
  {
  }

  lemma HandleBranchAgree(s: string, p: nat, cap: string)
    requires p < |s| && s[p] == '/'
    requires !(p + 9 <= |s| && s[p + 1..p + 9] == CHANNEL_PREFIX && RunLength(s, p + 9, FilterStops) > 0)
    requires p + 2 <= |s| && s[p + 1] == '@' && RunLength(s, p + 2, FilterStops) > 0
    requires cap == s[p + 1..p + 2 + RunLength(s, p + 2, FilterStops)] && FreeOfAmpAndHash(cap)
    ensures MatchAt(s, p, ScraperStops) == MatchAt(s, p, FilterStops)
  {
    ChannelBranchFails(s, p);
    HandleRunAgree(s, p, cap);
    HandleBranchMatch(s, p, FilterStops);
    HandleBranchMatch(s, p, ScraperStops);
  }

  /** Where the filter's `channel/` alternative fails, the scraper's fails. */
  lemma ChannelBranchFails(s: string, p: nat)
    requires !(p + 9 <= |s| && s[p + 1..p + 9] == CHANNEL_PREFIX && RunLength(s, p + 9, FilterStops) > 0)
    ensures !(p + 9 <= |s| && s[p + 1..p + 9] == CHANNEL_PREFIX && RunLength(s, p + 9, ScraperStops) > 0)
  {
    if p + 9 <= |s| { RunLengthMono(s, p + 9); }
  }

  /** A handle capture free of `&` and `#` ends where the scraper's run ends. */
  lemma HandleRunAgree(s: string, p: nat, cap: string)
    requires p + 2 <= |s|
    requires cap == s[p + 1..p + 2 + RunLength(s, p + 2, FilterStops)] && FreeOfAmpAndHash(cap)
    ensures RunLength(s, p + 2, ScraperStops) == RunLength(s, p + 2, FilterStops)
  {
    var n := RunLength(s, p + 2, FilterStops);
    FreeSlice(cap, 1, |cap|);
    assert cap[1..] == s[p + 2..p + 2 + n];
    RunLengthFreeAgree(s, p + 2, cap[1..]);
  }

  /** Where the `channel/` alternative fails and a non-empty handle run
      follows `/@`, the match is that handle. */
  lemma HandleBranchMatch(s: string, p: nat, k: StopSet)
    requires p < |s| && s[p] == '/'
    requires !(p + 9 <= |s| && s[p + 1..p + 9] == CHANNEL_PREFIX && RunLength(s, p + 9, k) > 0)
    requires p + 2 <= |s| && s[p + 1] == '@' && RunLength(s, p + 2, k) > 0
    ensures MatchAt(s, p, k) == Some(s[p + 1..p + 2 + RunLength(s, p + 2, k)])
  {
  }

  /** Registration and filtering resolve the same id whenever the id the
      filter resolves holds no `&` and no `#`: the filter then yields the
      scraper's id when the scraper finds one, and the URL itself when it
      does not. */
  lemma ExtractorsAgree(url: string)
    requires FreeOfAmpAndHash(FilterExtract(url))
    ensures FilterExtract(url) == ScraperExtract(url).GetOr(url)
  {
    FirstMatchMeaning(url, 0, FilterStops);
    FirstMatchMeaning(url, 0, ScraperStops);
    if FirstMatch(url, 0, FilterStops).None? {
      forall q | 0 <= q <= |url| ensures MatchAt(url, q, ScraperStops).None? {
        if MatchAt(url, q, ScraperStops).Some? { MatchAtMono(url, q); }
      }
    } else {
      var p :| 0 <= p < |url| && MatchAt(url, p, FilterStops) == FirstMatch(url, 0, FilterStops)
               && forall q' :: 0 <= q' < p ==> MatchAt(url, q', FilterStops).None?;
      forall q | 0 <= q < p ensures MatchAt(url, q, ScraperStops).None? {
        if MatchAt(url, q, ScraperStops).Some? { MatchAtMono(url, q); }
      }
      MatchAtFreeAgree(url, p);
      FirstMatchSkips(url, 0, p, ScraperStops);
    }
  }

  /** A `#` right after a handle: the scraper stops at it, the filter does
      not, so the feed looks up `@h#x` while the stored id is `@h`. */
  lemma FragmentMismatch()
    ensures ScraperExtract("/@h#x") == Some("@h")
    ensures FilterExtract("/@h#x") == "@h#x"
  {
    FragmentScraperMatch();
    FragmentFilterMatch();
  }

  lemma FragmentScraperMatch()
    ensures MatchAt("/@h#x", 0, ScraperStops) == Some("@h")
  {
    var s := "/@h#x";
    assert IsStop(ScraperStops, s[3]);
    RunLengthUnique(s, 2, 1, ScraperStops);
    assert s[1..3] == "@h";
  }

  lemma FragmentFilterMatch()
    ensures MatchAt("/@h#x", 0, FilterStops) == Some("@h#x")
  {
    WholeHandleMatch("/@h#x", FilterStops);
  }

  /** A link too short to hold `/channel/`, starting `/@` and free of stop
      characters after that, captures everything after its `/`. */
  lemma WholeHandleMatch(s: string, k: StopSet)
    requires 2 < |s| < 9 && s[0] == '/' && s[1] == '@'
    requires NoStops(k, s[2..])
    ensures MatchAt(s, 0, k) == Some(s[1..])
  {
    assert s[2..2 + (|s| - 2)] == s[2..];
    RunLengthUnique(s, 2, |s| - 2, k);
    assert s[1..2 + (|s| - 2)] == s[1..];
  }

  /** A scraper capture free of `&` and `#` does not guarantee agreement:
      here the scraper rejects the first `channel/` segment (its run starts
      with `#`) and takes the handle further on, while the filter takes the
      `channel/` segment, whose capture holds the `#`. */
  lemma EarlierSegmentMismatch()
    ensures ScraperExtract("/channel/#x/@h") == Some("@h")
    ensures FilterExtract("/channel/#x/@h") == "channel/#x"
  {
    EarlierSegmentFilterMatch();
    EarlierSegmentScraperScan();
  }

  lemma EarlierSegmentFilterMatch()
    ensures MatchAt("/channel/#x/@h", 0, FilterStops) == Some("channel/#x")
  {
    var s := "/channel/#x/@h";
    assert s[1..9] == CHANNEL_PREFIX;
    assert NoStops(FilterStops, s[9..11]);
    RunLengthUnique(s, 9, 2, FilterStops);
    assert s[1..11] == "channel/#x";
  }

  lemma EarlierSegmentScraperScan()
    ensures FirstMatch("/channel/#x/@h", 0, ScraperStops) == Some("@h")
  {
    var s := "/channel/#x/@h";
    assert s[1..9] == CHANNEL_PREFIX;
    assert RunLength(s, 9, ScraperStops) == 0;
    assert MatchAt(s, 0, ScraperStops) == None;
    forall q | 1 <= q < 11 ensures MatchAt(s, q, ScraperStops).None? {
      assert s[q] != '/' || q == 8;
      if q == 8 { assert s[9] == '#'; }
    }
    RunLengthUnique(s, 13, 1, ScraperStops);
    assert s[12..14] == "@h";
    assert MatchAt(s, 11, ScraperStops) == Some("@h");
    assert FirstMatch(s, 11, ScraperStops) == Some("@h");
    FirstMatchSkips(s, 0, 11, ScraperStops);
  }

  /** Positions without a match are skipped. */
  lemma {:induction false} FirstMatchSkips(s: string, p: nat, q: nat, k: StopSet)
    requires p <= q <= |s|
    requires forall j :: p <= j < q ==> MatchAt(s, j, k).None?
    ensures FirstMatch(s, p, k) == FirstMatch(s, q, k)
    decreases q - p
  {
    if p < q {
      FirstMatchSkips(s, p + 1, q, k);
    }
  }

  /** The filter's extractor with the scraper's stop set: the resolver the
      feed filter evidently intends, since ids are registered by the scraper. */
  function AlignedExtract(url: string): string {
    ScraperExtract(url).GetOr(url)
  }

  /** A registered id resolves back to itself from its canonical path
      `/<id>` under the aligned resolver. */
  lemma AlignedAgreesWithScraper(url: string)
    requires ScraperExtract(url).Some?
    ensures AlignedExtract("/" + ScraperExtract(url).value) == ScraperExtract(url).value
  {
    var id := ScraperExtract(url).value;
    var s := "/" + id;
    assert s[1..1 + |id|] == id;
    assert Captures(s, 0, ScraperStops, id);
    MatchAtMeaning(s, 0, ScraperStops, id);
  }

  /** The aligned resolver changes nothing for links whose feed-side id holds
      no `&` and no `#`: it differs from the filter's only where the filter
      disagrees with registration. */
  lemma AlignedKeepsOrdinaryLinks(url: string)
    requires FreeOfAmpAndHash(FilterExtract(url))
    ensures AlignedExtract(url) == FilterExtract(url)
  {
    ExtractorsAgree(url);
  }
}
