/**
 * `parse_feed`, `save_post`, `save_to_txt`, `update_txt_summary` and
 * `check_duplicate` of the parser: the entries of one channel's feed are
 * turned into posts, each stored once under its post id and mirrored into the
 * flat file.
 */
module Ingestion {
  import opened Wrappers
  import opened Strings
  import opened Platform
  import opened Config
  import opened Normalizer
  import opened Dates
  import opened PostStore
  import opened Fanout
  import opened FlatFile

  /** The two stores the parser writes: the `posts` table and `tg-posts.txt` (`None` while absent). */
  datatype State = State(posts: Store, txt: Option<string>)

  /** `generate_summary` over the stored posts. */
  function SummaryOf(env: Env, posts: Store): string {
    GenerateSummary(|posts|, env.channelStats(posts))
  }

  /** What `update_txt_summary` leaves in the file: an empty file when there was none. */
  function SummaryUpdated(env: Env, txt: Option<string>, posts: Store): (r: string)
    ensures txt.None? ==> r == []
  {
    match txt
    case None => []
    case Some(content) => Summarized(content, SummaryOf(env, posts))
  }

  /**
   * An existing file keeps exactly its non-blank, marker-free blocks,
   * stripped and in order, and ends with the fresh summary.
   */
  lemma SummaryUpdatedShape(env: Env, content: string, posts: Store)
    ensures var kept := PostBlocks(Split(content, BlockSeparator));
      var r := SummaryUpdated(env, Some(content), posts);
      && r == (if kept == [] then [] else Join(kept, BlockSeparator)) + SummaryOf(env, posts)
      && EndsWith(r, SummaryOf(env, posts))
      && forall i :: 0 <= i < |kept| ==> kept[i] != [] && IsStripped(kept[i]) && !HasMarker(kept[i])
  {
    PostBlocksClean(Split(content, BlockSeparator));
  }

  /**
   * The file after `save_to_txt(p)`, with `posts` the table as the summary's
   * own connection sees it.
   */
  function TxtAfterSave(env: Env, txt: Option<string>, posts: Store, p: Post): string {
    Summarized(Join(SavedBlocks(env.fromIso, txt, p), BlockSeparator), SummaryOf(env, posts))
  }

  /**
   * `save_post`: insert-or-ignore, and on insertion the file is rewritten.
   * The insert is committed only when the `with` block ends, after
   * `save_to_txt` has returned, and the summary reads the table through a
   * connection of its own: the summary written here does not count `p`.
   */
  function Save(env: Env, s: State, p: Post): (r: (State, bool))
    ensures (r.0.posts, r.1) == InsertOrIgnore(s.posts, p)
    ensures !r.1 ==> r.0 == s
    ensures r.1 ==> r.0.txt == Some(TxtAfterSave(env, s.txt, s.posts, p))
  {
    var (posts', inserted) := InsertOrIgnore(s.posts, p);
    if inserted then (State(posts', Some(TxtAfterSave(env, s.txt, s.posts, p))), true) else (s, false)
  }

  /** What `parse_feed` does with one entry. */
  datatype Decision =
    | NoLink        // `entry.link` raises; the entry is skipped
    | Known         // `check_duplicate` finds the id
    | Incomplete    // `entry.description` or `entry.published` raises
    | NotNewer      // published at or before the channel's cursor
    | Fresh(p: Post)

  /** An entry that carries every attribute and was published strictly after the cursor. */
  predicate Admissible(env: Env, cursor: Option<DateTime>, now: int, e: Entry) {
    && e.link.Some? && e.description.Some? && e.published.Some?
    && (cursor.None? || Instant(ParseDate(env.strptime, e.published.value, now)) > Instant(cursor.value))
  }

  function Decide(env: Env, clean: string -> string, posts: Store, cursor: Option<DateTime>, now: int, e: Entry): (d: Decision)
    ensures d.Fresh? <==> Admissible(env, cursor, now, e) && PostId(e.link.value) !in posts
    ensures d.Fresh? ==> d.p.postId == PostId(e.link.value) && d.p.sourceUrl == e.link.value
  {
    match e.link
    case None => NoLink
    case Some(link) =>
      var id := PostId(link);
      if id in posts then Known
      else if e.description.None? || e.published.None? then Incomplete
      else
        var content := clean(e.description.value);
        var date := ParseDate(env.strptime, e.published.value, now);
        if cursor.Some? && Instant(date) <= Instant(cursor.value) then NotNewer
        else Fresh(Post(id, content, env.render(date), link))
  }

  /** One pass of the loop body: the new state and whether a post was added. */
  function Step(env: Env, clean: string -> string, cursor: Option<DateTime>, now: int, s: State, e: Entry): (r: (State, nat))
    ensures r.1 <= 1
    ensures r.1 == 0 ==> r.0 == s
  {
    var d := Decide(env, clean, s.posts, cursor, now, e);
    if d.Fresh? then
      var saved := Save(env, s, d.p);
      (saved.0, if saved.1 then 1 else 0)
    else (s, 0)
  }

  /** The loop's state and count after one more entry. */
  function Next(env: Env, clean: string -> string, cursor: Option<DateTime>, now: int, r: (State, nat), e: Entry): (r': (State, nat))
    ensures r'.1 <= r.1 + 1
    ensures r'.1 == r.1 ==> r'.0 == r.0
  {
    var t := Step(env, clean, cursor, now, r.0, e);
    (t.0, r.1 + t.1)
  }

  lemma StepSkips(env: Env, clean: string -> string, cursor: Option<DateTime>, now: int, s: State, e: Entry)
    requires !Decide(env, clean, s.posts, cursor, now, e).Fresh?
    ensures Step(env, clean, cursor, now, s, e) == (s, 0)
  {
  }

  lemma StepSaves(env: Env, clean: string -> string, cursor: Option<DateTime>, now: int, s: State, e: Entry, p: Post)
    requires Decide(env, clean, s.posts, cursor, now, e) == Fresh(p)
    ensures Step(env, clean, cursor, now, s, e).0 == Save(env, s, p).0
    ensures Step(env, clean, cursor, now, s, e).1 == if Save(env, s, p).1 then 1 else 0
  {
  }

  /** A step keeps every stored id, and afterwards its entry is inadmissible or stored. */
  lemma StepKeys(env: Env, clean: string -> string, cursor: Option<DateTime>, now: int, s: State, e: Entry)
    ensures s.posts.Keys <= Step(env, clean, cursor, now, s, e).0.posts.Keys
    ensures !Admissible(env, cursor, now, e) || PostId(e.link.value) in Step(env, clean, cursor, now, s, e).0.posts
  {
    var d := Decide(env, clean, s.posts, cursor, now, e);
    if d.Fresh? {
      StepSaves(env, clean, cursor, now, s, e, d.p);
    } else {
      StepSkips(env, clean, cursor, now, s, e);
    }
  }

  /**
   * An entry is counted exactly when it is admissible and its id is new, and
   * then the table gains exactly that id.
   */
  lemma StepCounts(env: Env, clean: string -> string, cursor: Option<DateTime>, now: int, s: State, e: Entry)
    ensures Step(env, clean, cursor, now, s, e).1 == 1
      <==> e.link.Some? && Admissible(env, cursor, now, e) && PostId(e.link.value) !in s.posts
    ensures Step(env, clean, cursor, now, s, e).1 == 1 ==>
      && e.link.Some?
      && Step(env, clean, cursor, now, s, e).0.posts.Keys == s.posts.Keys + {PostId(e.link.value)}
      && Step(env, clean, cursor, now, s, e).0 != s
  {
  }

  lemma NextParts(env: Env, clean: string -> string, cursor: Option<DateTime>, now: int, r: (State, nat), e: Entry)
    ensures Next(env, clean, cursor, now, r, e).0 == Step(env, clean, cursor, now, r.0, e).0
    ensures Next(env, clean, cursor, now, r, e).1 == r.1 + Step(env, clean, cursor, now, r.0, e).1
  {
  }

  /** The loop of `parse_feed` over `entries`, with the number of posts saved. */
  function Ingest(env: Env, clean: string -> string, cursor: Option<DateTime>, now: int, s: State, entries: seq<Entry>): (r: (State, nat))
    ensures r.1 <= |entries|
    ensures r.1 == 0 ==> r.0 == s
    decreases |entries|
  {
    if entries == [] then (s, 0)
    else Next(env, clean, cursor, now, Ingest(env, clean, cursor, now, s, entries[..|entries| - 1]), entries[|entries| - 1])
  }

  /**
   * `parse_feed`. An entry without a link raises inside the loop, and the
   * handler names `post_id`; for the first entry that name is still unbound,
   * so the handler itself raises and the outer handler returns 0.
   */
  function ParseFeedSpec(env: Env, clean: string -> string, cursor: Option<DateTime>, now: int, s: State, entries: seq<Entry>): (r: (State, nat))
  {
    if entries != [] && entries[0].link.None? then (s, 0)
    else Ingest(env, clean, cursor, now, s, entries)
  }

  lemma IngestStep(env: Env, clean: string -> string, cursor: Option<DateTime>, now: int, s: State, entries: seq<Entry>, i: nat)
    requires i < |entries|
    ensures Ingest(env, clean, cursor, now, s, entries[..i + 1])
      == Next(env, clean, cursor, now, Ingest(env, clean, cursor, now, s, entries[..i]), entries[i])
  {
    assert entries[..i + 1][..i] == entries[..i];
  }

  /** One more pass of the loop of `parse_feed` extends the fold by one entry. */
  lemma IngestLoopStep(env: Env, clean: string -> string, cursor: Option<DateTime>, now: int, s: State, entries: seq<Entry>, i: nat,
                       before: State, n: nat, after: State, added: nat)
    requires i < |entries|
    requires before == Ingest(env, clean, cursor, now, s, entries[..i]).0 && n == Ingest(env, clean, cursor, now, s, entries[..i]).1
    requires (after, added) == Step(env, clean, cursor, now, before, entries[i])
    ensures after == Ingest(env, clean, cursor, now, s, entries[..i + 1]).0
    ensures n + added == Ingest(env, clean, cursor, now, s, entries[..i + 1]).1
  {
    IngestStep(env, clean, cursor, now, s, entries, i);
    NextParts(env, clean, cursor, now, Ingest(env, clean, cursor, now, s, entries[..i]), entries[i]);
  }

  /** The table only grows: old rows are never replaced, and one row is added per counted post. */
  lemma {:induction false} IngestGrows(env: Env, clean: string -> string, cursor: Option<DateTime>, now: int, s: State, entries: seq<Entry>)
    ensures var r := Ingest(env, clean, cursor, now, s, entries);
      var s' := r.0;
      && |s'.posts| == |s.posts| + r.1
      && s.posts.Keys <= s'.posts.Keys
      && forall k :: k in s.posts ==> s'.posts[k] == s.posts[k]
    decreases |entries|
  {
    if entries != [] {
      IngestGrows(env, clean, cursor, now, s, entries[..|entries| - 1]);
    }
  }

  /** Some entry of `entries` is admissible and carries the post id `k`. */
  predicate FromAdmissible(env: Env, cursor: Option<DateTime>, now: int, entries: seq<Entry>, k: string) {
    exists i :: 0 <= i < |entries| && Admissible(env, cursor, now, entries[i]) && PostId(entries[i].link.value) == k
  }

  /** The one id a step can add is that of an admissible entry. */
  lemma StepNewId(env: Env, clean: string -> string, cursor: Option<DateTime>, now: int, s: State, e: Entry, k: string)
    requires k in Step(env, clean, cursor, now, s, e).0.posts && k !in s.posts
    ensures Admissible(env, cursor, now, e) && PostId(e.link.value) == k
  {
    var d := Decide(env, clean, s.posts, cursor, now, e);
    assert d.Fresh?;
    assert Step(env, clean, cursor, now, s, e).0.posts.Keys == s.posts.Keys + {d.p.postId};
  }

  /**
   * Every post id the loop adds belongs to an entry that has a link, a
   * description and a date, published strictly after the cursor; and ids
   * already stored are never written again.
   */
  lemma {:induction false} NewIdsAdmissible(env: Env, clean: string -> string, cursor: Option<DateTime>, now: int, s: State, entries: seq<Entry>)
    ensures var s' := Ingest(env, clean, cursor, now, s, entries).0;
      forall k :: k in s'.posts && k !in s.posts ==> FromAdmissible(env, cursor, now, entries, k)
    decreases |entries|
  {
    if entries != [] {
      var init := entries[..|entries| - 1];
      var last := entries[|entries| - 1];
      NewIdsAdmissible(env, clean, cursor, now, s, init);
      var mid := Ingest(env, clean, cursor, now, s, init).0;
      var s' := Step(env, clean, cursor, now, mid, last).0;
      IngestLast(env, clean, cursor, now, s, entries);
      forall k | k in s'.posts && k !in s.posts ensures FromAdmissible(env, cursor, now, entries, k) {
        if k in mid.posts {
          FromAdmissibleInit(env, cursor, now, entries, k);
        } else {
          StepNewId(env, clean, cursor, now, mid, last, k);
          assert Admissible(env, cursor, now, entries[|entries| - 1]);
        }
      }
    }
  }

  lemma FromAdmissibleInit(env: Env, cursor: Option<DateTime>, now: int, entries: seq<Entry>, k: string)
    requires entries != [] && FromAdmissible(env, cursor, now, entries[..|entries| - 1], k)
    ensures FromAdmissible(env, cursor, now, entries, k)
  {
    var init := entries[..|entries| - 1];
    var i :| 0 <= i < |init| && Admissible(env, cursor, now, init[i]) && PostId(init[i].link.value) == k;
    assert entries[i] == init[i];
  }

  /** No entry would be saved again against `posts`. */
  predicate Absorbed(env: Env, cursor: Option<DateTime>, now: int, posts: Store, entries: seq<Entry>) {
    forall i :: 0 <= i < |entries| ==> !Admissible(env, cursor, now, entries[i]) || PostId(entries[i].link.value) in posts
  }

  lemma {:induction false} AbsorbedGrows(env: Env, cursor: Option<DateTime>, now: int, posts: Store, more: Store, entries: seq<Entry>)
    requires Absorbed(env, cursor, now, posts, entries) && posts.Keys <= more.Keys
    ensures Absorbed(env, cursor, now, more, entries)
  {
  }

  /** After the loop every entry of the feed is either inadmissible or stored. */
  lemma {:induction false} IngestAbsorbs(env: Env, clean: string -> string, cursor: Option<DateTime>, now: int, s: State, entries: seq<Entry>)
    ensures Absorbed(env, cursor, now, Ingest(env, clean, cursor, now, s, entries).0.posts, entries)
    decreases |entries|
  {
    if entries != [] {
      var init := entries[..|entries| - 1];
      var last := entries[|entries| - 1];
      IngestAbsorbs(env, clean, cursor, now, s, init);
      var mid := Ingest(env, clean, cursor, now, s, init).0;
      IngestLast(env, clean, cursor, now, s, entries);
      var s' := Step(env, clean, cursor, now, mid, last).0;
      StepKeys(env, clean, cursor, now, mid, last);
      AbsorbedGrows(env, cursor, now, mid.posts, s'.posts, init);
      AbsorbedSnoc(env, cursor, now, s'.posts, entries);
    }
  }

  /** The loop's state after a non-empty feed is one step past its state before the last entry. */
  lemma IngestLast(env: Env, clean: string -> string, cursor: Option<DateTime>, now: int, s: State, entries: seq<Entry>)
    requires entries != []
    ensures var r := Ingest(env, clean, cursor, now, s, entries[..|entries| - 1]);
      && Ingest(env, clean, cursor, now, s, entries).0 == Step(env, clean, cursor, now, r.0, entries[|entries| - 1]).0
      && Ingest(env, clean, cursor, now, s, entries).1 == r.1 + Step(env, clean, cursor, now, r.0, entries[|entries| - 1]).1
  {
    var r := Ingest(env, clean, cursor, now, s, entries[..|entries| - 1]);
    NextParts(env, clean, cursor, now, r, entries[|entries| - 1]);
  }

  lemma AbsorbedSnoc(env: Env, cursor: Option<DateTime>, now: int, posts: Store, entries: seq<Entry>)
    requires entries != [] && Absorbed(env, cursor, now, posts, entries[..|entries| - 1])
    requires !Admissible(env, cursor, now, entries[|entries| - 1]) || PostId(entries[|entries| - 1].link.value) in posts
    ensures Absorbed(env, cursor, now, posts, entries)
  {
    var init := entries[..|entries| - 1];
    forall i | 0 <= i < |entries|
      ensures !Admissible(env, cursor, now, entries[i]) || PostId(entries[i].link.value) in posts
    {
      if i < |init| {
        assert entries[i] == init[i];
      }
    }
  }

  /** Against a table that already absorbs the feed, the loop saves nothing. */
  lemma {:induction false} AbsorbedAddsNothing(env: Env, clean: string -> string, cursor: Option<DateTime>, now: int, s: State, entries: seq<Entry>)
    requires Absorbed(env, cursor, now, s.posts, entries)
    ensures Ingest(env, clean, cursor, now, s, entries) == (s, 0)
    decreases |entries|
  {
    if entries != [] {
      var init := entries[..|entries| - 1];
      assert Absorbed(env, cursor, now, s.posts, init) by {
        forall i | 0 <= i < |init|
          ensures !Admissible(env, cursor, now, init[i]) || PostId(init[i].link.value) in s.posts
        {
          assert init[i] == entries[i];
        }
      }
      AbsorbedAddsNothing(env, clean, cursor, now, s, init);
    }
  }

  /** Parsing the same feed again, with the same cursor and clock, adds no post and changes nothing. */
  lemma RerunAddsNothing(env: Env, clean: string -> string, cursor: Option<DateTime>, now: int, s: State, entries: seq<Entry>)
    ensures var s1 := ParseFeedSpec(env, clean, cursor, now, s, entries).0;
      ParseFeedSpec(env, clean, cursor, now, s1, entries) == (s1, 0)
  {
    if !(entries != [] && entries[0].link.None?) {
      IngestAbsorbs(env, clean, cursor, now, s, entries);
      var s1 := Ingest(env, clean, cursor, now, s, entries).0;
      AbsorbedAddsNothing(env, clean, cursor, now, s1, entries);
    }
  }

  /** The parser's stores, with the environment and the `clean_text` of the configured cleanup rules. */
  class Ingestor {
    var posts: Store
    var txt: Option<string>
    const env: Env
    const clean: string -> string

    constructor (env: Env, cleanup: CleanupSection, posts: Store, txt: Option<string>)
      ensures this.env == env && this.clean == Cleaner(env, cleanup)
      ensures this.posts == posts && this.txt == txt
    {
      this.env := env;
      this.clean := Cleaner(env, cleanup);
      this.posts := posts;
      this.txt := txt;
    }

    function Current(): State
      reads this
    {
      State(posts, txt)
    }

    /** `check_duplicate`: whether the id is already stored. */
    method CheckDuplicate(postId: string) returns (dup: bool)
      ensures dup <==> postId in posts
    {
      dup := postId in posts;
    }

    /** `update_txt_summary`: the posts of the file, without any statistics block, then a fresh summary. */
    method UpdateTxtSummary()
      modifies this
      ensures posts == old(posts)
      ensures txt == Some(SummaryUpdated(env, old(txt), posts))
    {
      if txt.None? {
        txt := Some([]);
        return;
      }
      var kept := ReadPosts(txt.value);
      var summary := GenerateSummary(|posts|, env.channelStats(posts));
      if kept != [] {
        txt := Some(Join(kept, BlockSeparator) + summary);
      } else {
        txt := Some(summary);
      }
    }

    /** `save_to_txt`: the re-read blocks plus the new one, newest first, then the summary. */
    method SaveToTxt(p: Post)
      modifies this
      ensures posts == old(posts)
      ensures txt == Some(TxtAfterSave(env, old(txt), posts, p))
    {
      var entries := ReadEntries(txt);
      entries := entries + [NewBlock(p)];
      entries := SortByDate(env.fromIso, entries);
      txt := Some(Join(entries, BlockSeparator));
      UpdateTxtSummary();
    }

    /**
     * `save_post`: true exactly when the id was absent; then the file is
     * written while the insert is still uncommitted, and the row lands when
     * the transaction commits.
     */
    method SavePost(p: Post) returns (saved: bool)
      modifies this
      ensures (Current(), saved) == Save(env, old(Current()), p)
    {
      var r := InsertOrIgnore(posts, p);
      saved := r.1;
      if saved {
        SaveToTxt(p);
        posts := r.0;
      }
    }

    /**
     * The checks of `parse_feed`'s loop body up to the insert: the post to
     * save, or `None` when the entry is skipped.
     */
    method PreparePost(e: Entry, cursor: Option<DateTime>, now: int) returns (p: Option<Post>)
      ensures p.Some? <==> Decide(env, clean, posts, cursor, now, e).Fresh?
      ensures p.Some? ==> Decide(env, clean, posts, cursor, now, e) == Fresh(p.value)
    {
      if e.link.None? {
        return None;
      }
      var postId := PostId(e.link.value);
      var dup := CheckDuplicate(postId);
      if dup || e.description.None? {
        return None;
      }
      var content := clean(e.description.value);
      if e.published.None? {
        return None;
      }
      var date := ParseDate(env.strptime, e.published.value, now);
      if cursor.Some? && Instant(date) <= Instant(cursor.value) {
        return None;
      }
      return Some(Post(postId, content, env.render(date), e.link.value));
    }

    /** The body of `parse_feed`'s loop for one entry; the result is the number of posts saved. */
    method IngestEntry(e: Entry, cursor: Option<DateTime>, now: int) returns (added: nat)
      modifies this
      ensures (Current(), added) == Step(env, clean, cursor, now, old(Current()), e)
    {
      ghost var s := Current();
      var p := PreparePost(e, cursor, now);
      if p.None? {
        StepSkips(env, clean, cursor, now, s, e);
        return 0;
      }
      StepSaves(env, clean, cursor, now, s, e, p.value);
      added := 0;
      var saved := SavePost(p.value);
      if saved {
        added := 1;
      }
    }

    /** The loop of `parse_feed` over every entry. */
    method IngestAll(entries: seq<Entry>, cursor: Option<DateTime>, now: int) returns (newPosts: nat)
      modifies this
      ensures (Current(), newPosts) == Ingest(env, clean, cursor, now, old(Current()), entries)
    {
      ghost var s0 := Current();
      newPosts := 0;
      var i := 0;
      while i < |entries|
        invariant 0 <= i <= |entries|
        invariant Current() == Ingest(env, clean, cursor, now, s0, entries[..i]).0
        invariant newPosts == Ingest(env, clean, cursor, now, s0, entries[..i]).1
      {
        ghost var before := Current();
        var added := IngestEntry(entries[i], cursor, now);
        IngestLoopStep(env, clean, cursor, now, s0, entries, i, before, newPosts, Current(), added);
        newPosts := newPosts + added;
        i := i + 1;
      }
      assert entries[..i] == entries;
    }

    /** `parse_feed` with `cursor` the channel's last check time and `now` the clock during the pass. */
    method ParseFeed(entries: seq<Entry>, cursor: Option<DateTime>, now: int) returns (newPosts: nat)
      modifies this
      ensures (Current(), newPosts) == ParseFeedSpec(env, clean, cursor, now, old(Current()), entries)
    {
      if |entries| > 0 && entries[0].link.None? {
        return 0;
      }
      newPosts := IngestAll(entries, cursor, now);
    }
  }
}
