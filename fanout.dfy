/**
 * `get_feed_data`: every RSS mirror of a channel is asked in turn, the
 * entries of every mirror that answers 200 with a non-empty feed are
 * concatenated, and the result is de-duplicated by post id, the first entry
 * with an id winning.
 */
module Fanout {
  import opened Wrappers
  import opened Strings

  /** A feed entry: the attributes the pipeline reads, each possibly missing. */
  datatype Entry = Entry(link: Option<string>, description: Option<string>, published: Option<string>)

  /** What one mirror gave: the request raised, or a status code and the parsed entries. */
  datatype SourceResponse = Unreachable | Response(status: int, entries: seq<Entry>)

  /**
   * The outcome of `get_feed_data`: `None`, a feed with its entries, or an
   * `AttributeError` from an entry without a link, which escapes the method.
   */
  datatype FeedResult = NoFeed | Feed(entries: seq<Entry>) | LinkMissing

  /** The mirror URL templates, in the order they are asked. */
  const RssSources: seq<string> := [
    "https://tg.i-c-a.su/rss/{channel}",
    "https://rsshub.app/telegram/channel/{channel}",
    "https://telegram.meta.ua/rss/{channel}",
    "https://tg.i-c-a.su/rss/{channel}?format=html"
  ]

  /** `template.format(channel=channel)`. */
  function SourceUrl(template: string, channel: string): string {
    ReplaceAll(template, "{channel}", channel)
  }

  /** `link.split('/')[-1]`: the identity key of a post. */
  function PostId(link: string): string {
    AfterLast(link, "/")
  }

  /** The post id is the part of the link after its last '/': a suffix holding no '/'. */
  lemma PostIdShape(link: string)
    ensures var id := PostId(link);
      && !Contains(id, "/") && EndsWith(link, id)
      && (id == link || EndsWith(link, "/" + id))
  {
    AfterLastNoSeparator(link, "/");
    AfterLastSuffix(link, "/");
    AfterLastFollowsSeparator(link, "/");
  }

  /** A mirror contributes when it answered 200 with at least one entry. */
  predicate Contributes(r: SourceResponse) {
    r.Response? && r.status == 200 && |r.entries| > 0
  }

  /** `all_entries` after the mirrors of `rs` were asked in order. */
  function Collected(rs: seq<SourceResponse>): seq<Entry> {
    if rs == [] then []
    else
      var r := rs[|rs| - 1];
      var before := Collected(rs[..|rs| - 1]);
      if Contributes(r) then before + r.entries else before
  }

  predicate AllLinked(es: seq<Entry>) {
    forall i :: 0 <= i < |es| ==> es[i].link.Some?
  }

  function Key(e: Entry): string
    requires e.link.Some?
  {
    PostId(e.link.value)
  }

  function Keys(es: seq<Entry>): set<string>
    requires AllLinked(es)
  {
    set i | 0 <= i < |es| :: Key(es[i])
  }

  /** The dictionary `unique_entries`, listed in insertion order. */
  function Dedup(es: seq<Entry>): (d: seq<Entry>)
    requires AllLinked(es)
    ensures AllLinked(d) && |d| <= |es|
  {
    if es == [] then []
    else
      var d := Dedup(es[..|es| - 1]);
      var e := es[|es| - 1];
      if Key(e) in Keys(d) then d else d + [e]
  }

  /** `get_feed_data` as a function of the mirrors' answers. */
  function Merge(rs: seq<SourceResponse>): FeedResult {
    var all := Collected(rs);
    if all == [] then NoFeed
    else if !AllLinked(all) then LinkMissing
    else Feed(Dedup(all))
  }

  /** The answers of the mirrors of `channel`, in order. */
  function Responses(fetch: string -> SourceResponse, channel: string): (rs: seq<SourceResponse>)
    ensures |rs| == |RssSources|
    ensures forall i :: 0 <= i < |rs| ==> rs[i] == fetch(SourceUrl(RssSources[i], channel))
  {
    seq(|RssSources|, i requires 0 <= i < |RssSources| => fetch(SourceUrl(RssSources[i], channel)))
  }

  /**
   * `get_feed_data(channel)`: the loop over the mirrors builds
   * `all_entries`, then the loop over the entries fills `unique_entries`.
   */
  method GetFeedData(fetch: string -> SourceResponse, channel: string) returns (r: FeedResult)
    ensures r == Merge(Responses(fetch, channel))
  {
    var all := CollectEntries(fetch, channel);
    if all == [] {
      return NoFeed;
    }
    r := UniqueEntries(all);
  }

  /** The loop over the mirrors: `all_entries.extend(feed.entries)` for each contributing one. */
  method CollectEntries(fetch: string -> SourceResponse, channel: string) returns (all: seq<Entry>)
    ensures all == Collected(Responses(fetch, channel))
  {
    ghost var rs := Responses(fetch, channel);
    all := [];
    var i := 0;
    while i < |RssSources|
      invariant 0 <= i <= |RssSources|
      invariant all == Collected(rs[..i])
    {
      var response := fetch(SourceUrl(RssSources[i], channel));
      if response.Response? && response.status == 200 && |response.entries| > 0 {
        all := all + response.entries;
      }
      CollectedStep(rs, i);
      i := i + 1;
    }
    assert rs[..i] == rs;
  }

  /**
   * The loop filling `unique_entries`: the first entry with each post id is
   * kept; an entry without a link raises.
   */
  method UniqueEntries(all: seq<Entry>) returns (r: FeedResult)
    ensures r == if AllLinked(all) then Feed(Dedup(all)) else LinkMissing
  {
    var unique: map<string, Entry> := map[];
    var kept: seq<Entry> := [];
    var j := 0;
    while j < |all|
      invariant 0 <= j <= |all|
      invariant AllLinked(all[..j]) && kept == Dedup(all[..j])
      invariant AllLinked(kept) && unique.Keys == Keys(kept)
    {
      var entry := all[j];
      if entry.link.None? {
        NotAllLinked(all, j);
        return LinkMissing;
      }
      var postId := PostId(entry.link.value);
      UniqueStep(all, j, kept, unique.Keys);
      if postId !in unique {
        unique := unique[postId := entry];
        kept := kept + [entry];
      }
      j := j + 1;
    }
    assert all[..j] == all;
    return Feed(kept);
  }

  lemma NotAllLinked(es: seq<Entry>, j: nat)
    requires j < |es| && es[j].link.None?
    ensures !AllLinked(es)
  {
  }

  /** One pass of the loop filling `unique_entries`, for an entry that has a link. */
  lemma UniqueStep(es: seq<Entry>, j: nat, kept: seq<Entry>, keys: set<string>)
    requires j < |es| && es[j].link.Some? && AllLinked(es[..j])
    requires kept == Dedup(es[..j]) && AllLinked(kept) && keys == Keys(kept)
    ensures AllLinked(es[..j + 1])
    ensures Key(es[j]) in keys ==> Dedup(es[..j + 1]) == kept
    ensures Key(es[j]) !in keys ==>
      && Dedup(es[..j + 1]) == kept + [es[j]]
      && AllLinked(kept + [es[j]]) && Keys(kept + [es[j]]) == keys + {Key(es[j])}
  {
    assert forall m :: 0 <= m < j ==> es[..j][m] == es[m];
    DedupStep(es, j);
    if Key(es[j]) !in keys {
      KeysSnoc(kept + [es[j]]);
      assert (kept + [es[j]])[..|kept|] == kept;
    }
  }

  lemma CollectedStep(rs: seq<SourceResponse>, i: nat)
    requires i < |rs|
    ensures Contributes(rs[i]) ==> Collected(rs[..i + 1]) == Collected(rs[..i]) + rs[i].entries
    ensures !Contributes(rs[i]) ==> Collected(rs[..i + 1]) == Collected(rs[..i])
  {
    assert rs[..i + 1][..i] == rs[..i];
  }

  lemma DedupStep(es: seq<Entry>, j: nat)
    requires j < |es| && forall m :: 0 <= m <= j ==> es[m].link.Some?
    ensures AllLinked(es[..j]) && AllLinked(es[..j + 1])
    ensures Key(es[j]) in Keys(Dedup(es[..j])) ==> Dedup(es[..j + 1]) == Dedup(es[..j])
    ensures Key(es[j]) !in Keys(Dedup(es[..j])) ==> Dedup(es[..j + 1]) == Dedup(es[..j]) + [es[j]]
  {
    assert es[..j + 1][..j] == es[..j];
  }

  lemma KeysSnoc(es: seq<Entry>)
    requires es != [] && AllLinked(es)
    ensures Keys(es) == Keys(es[..|es| - 1]) + {Key(es[|es| - 1])}
  {
    var init := es[..|es| - 1];
    forall k | k in Keys(es) ensures k in Keys(init) + {Key(es[|es| - 1])} {
      var i :| 0 <= i < |es| && Key(es[i]) == k;
      if i < |es| - 1 {
        assert init[i] == es[i];
      }
    }
    forall k | k in Keys(init) ensures k in Keys(es) {
      var i :| 0 <= i < |init| && Key(init[i]) == k;
      assert es[i] == init[i];
    }
  }

  lemma KeysCons(es: seq<Entry>)
    requires es != [] && AllLinked(es)
    ensures Keys(es) == {Key(es[0])} + Keys(es[1..])
  {
    var rest := es[1..];
    forall k | k in Keys(es) ensures k in {Key(es[0])} + Keys(rest) {
      var i :| 0 <= i < |es| && Key(es[i]) == k;
      if i > 0 {
        assert rest[i - 1] == es[i];
      }
    }
    forall k | k in Keys(rest) ensures k in Keys(es) {
      var i :| 0 <= i < |rest| && Key(rest[i]) == k;
      assert es[i + 1] == rest[i];
    }
  }

  // ---------------------------------------------------------------------
  // What the de-duplication keeps

  /** De-duplication keeps every post id of its input, and no other. */
  lemma {:induction false} DedupKeys(es: seq<Entry>)
    requires AllLinked(es)
    ensures Keys(Dedup(es)) == Keys(es)
    decreases |es|
  {
    if es != [] {
      var init := es[..|es| - 1];
      var e := es[|es| - 1];
      var d := Dedup(init);
      DedupKeys(init);
      KeysSnoc(es);
      if Key(e) !in Keys(d) {
        KeysSnoc(d + [e]);
        assert (d + [e])[..|d + [e]| - 1] == d;
      }
    }
  }

  /** De-duplication only drops entries: every kept entry comes from the input, no more often than there. */
  lemma {:induction false} DedupOnlyDrops(es: seq<Entry>)
    requires AllLinked(es)
    ensures multiset(Dedup(es)) <= multiset(es)
    decreases |es|
  {
    if es != [] {
      var init, e := es[..|es| - 1], es[|es| - 1];
      DedupOnlyDrops(init);
      assert multiset(es) == multiset(init) + multiset{e} by {
        assert es == init + [e];
      }
      var d := Dedup(init);
      if Key(e) in Keys(d) {
        assert Dedup(es) == d;
      } else {
        assert Dedup(es) == d + [e];
      }
    }
  }

  predicate DistinctKeys(es: seq<Entry>)
    requires AllLinked(es)
  {
    forall i, j :: 0 <= i < j < |es| ==> Key(es[i]) != Key(es[j])
  }

  /** No two kept entries share a post id. */
  lemma {:induction false} DedupDistinct(es: seq<Entry>)
    requires AllLinked(es)
    ensures DistinctKeys(Dedup(es))
    decreases |es|
  {
    if es != [] {
      var init := es[..|es| - 1];
      var e := es[|es| - 1];
      var d := Dedup(init);
      DedupDistinct(init);
      assert Dedup(es) == if Key(e) in Keys(d) then d else d + [e];
      if Key(e) !in Keys(d) {
        var d2 := d + [e];
        forall i, j | 0 <= i < j < |d2| ensures Key(d2[i]) != Key(d2[j]) {
          assert d2[i] == d[i];
          if j == |d| {
            assert d2[j] == e;
            assert Key(d[i]) in Keys(d);
            assert Key(d2[i]) != Key(e);
          } else {
            assert d2[j] == d[j];
            assert Key(d[i]) != Key(d[j]);
          }
        }
      }
    }
  }

  /**
   * The entries whose post id was not met before, in input order: an
   * independent left-to-right statement of "first occurrence wins".
   */
  function FirstOccurrences(es: seq<Entry>, seen: set<string>): seq<Entry>
    requires AllLinked(es)
    decreases |es|
  {
    if es == [] then []
    else if Key(es[0]) in seen then FirstOccurrences(es[1..], seen)
    else [es[0]] + FirstOccurrences(es[1..], seen + {Key(es[0])})
  }

  lemma {:induction false} FirstOccurrencesSnoc(es: seq<Entry>, e: Entry, seen: set<string>)
    requires AllLinked(es) && e.link.Some? && AllLinked(es + [e])
    ensures FirstOccurrences(es + [e], seen) ==
      FirstOccurrences(es, seen) + (if Key(e) in seen || Key(e) in Keys(es) then [] else [e])
    decreases |es|
  {
    if es == [] {
      assert [e][1..] == [];
    } else {
      var x := es[0];
      var rest := es[1..];
      assert (es + [e])[0] == x;
      assert (es + [e])[1..] == rest + [e];
      KeysCons(es);
      if Key(x) in seen {
        FirstOccurrencesSnoc(rest, e, seen);
      } else {
        FirstOccurrencesSnoc(rest, e, seen + {Key(x)});
      }
    }
  }

  /** The dictionary fill keeps exactly the first entry of each post id, in first-occurrence order. */
  lemma {:induction false} DedupIsFirstOccurrences(es: seq<Entry>)
    requires AllLinked(es)
    ensures Dedup(es) == FirstOccurrences(es, {})
    decreases |es|
  {
    if es != [] {
      var init := es[..|es| - 1];
      var e := es[|es| - 1];
      DedupIsFirstOccurrences(init);
      DedupKeys(init);
      FirstOccurrencesSnoc(init, e, {});
      assert init + [e] == es;
    }
  }

  // ---------------------------------------------------------------------
  // Which mirrors contribute

  /** An entry of a contributing mirror is among the collected entries. */
  lemma {:induction false} CollectedHas(rs: seq<SourceResponse>, i: nat, m: nat)
    requires i < |rs| && Contributes(rs[i]) && m < |rs[i].entries|
    ensures rs[i].entries[m] in Collected(rs)
    decreases |rs|
  {
    var init := rs[..|rs| - 1];
    if i == |rs| - 1 {
      assert Collected(rs) == Collected(init) + rs[i].entries;
      assert Collected(rs)[|Collected(init)| + m] == rs[i].entries[m];
    } else {
      assert init[i] == rs[i];
      CollectedHas(init, i, m);
    }
  }

  /** Nothing is collected exactly when no mirror contributes. */
  lemma {:induction false} CollectedEmpty(rs: seq<SourceResponse>)
    ensures Collected(rs) == [] <==> forall i :: 0 <= i < |rs| ==> !Contributes(rs[i])
    decreases |rs|
  {
    if rs != [] {
      var init := rs[..|rs| - 1];
      CollectedEmpty(init);
      if Contributes(rs[|rs| - 1]) {
        assert |Collected(rs)| >= |rs[|rs| - 1].entries| > 0;
      } else {
        forall i | 0 <= i < |rs| - 1 ensures rs[i] == init[i] { }
      }
    }
  }

  /** `get_feed_data` returns None exactly when no mirror answered 200 with entries. */
  lemma NoFeedIffNoContributor(rs: seq<SourceResponse>)
    ensures Merge(rs).NoFeed? <==> forall i :: 0 <= i < |rs| ==> !Contributes(rs[i])
  {
    CollectedEmpty(rs);
  }

  /**
   * Not first-success-wins: every entry of every contributing mirror has its
   * post id in the merged feed.
   */
  lemma EveryContributorKept(rs: seq<SourceResponse>, i: nat, m: nat)
    requires i < |rs| && Contributes(rs[i]) && m < |rs[i].entries|
    requires Merge(rs).Feed?
    ensures rs[i].entries[m].link.Some? && Key(rs[i].entries[m]) in Keys(Merge(rs).entries)
  {
    var all := Collected(rs);
    CollectedHas(rs, i, m);
    var n :| 0 <= n < |all| && all[n] == rs[i].entries[m];
    DedupKeys(all);
    assert Key(all[n]) in Keys(all);
  }
}
