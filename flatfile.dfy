/**
 * The list logic behind `tg-posts.txt`: the file is a sequence of blocks
 * separated by blank lines; `save_to_txt` re-reads the blocks, appends the
 * new post's block and sorts by the date at the head of each block, newest
 * first; `update_txt_summary` drops every statistics block and appends a
 * fresh summary.
 */
module FlatFile {
  import opened Wrappers
  import opened Strings
  import opened Platform
  import opened Plural

  const BlockSeparator: string := "\n\n"

  // ---------------------------------------------------------------------
  // Reading the blocks back in `save_to_txt`

  /** A block is re-read when it is not blank and does not start with '='. */
  predicate IsPostBlock(b: string) {
    Strip(b) != [] && !StartsWith(b, "=")
  }

  /** The stripped blocks of `raw` that are re-read, in order. */
  function KeepBlocks(raw: seq<string>): seq<string> {
    if raw == [] then []
    else
      var b := raw[|raw| - 1];
      var kept := KeepBlocks(raw[..|raw| - 1]);
      if IsPostBlock(b) then kept + [Strip(b)] else kept
  }

  /** Every re-read block is non-blank and stripped, and there are no more of them than blocks. */
  lemma {:induction false} KeepBlocksClean(raw: seq<string>)
    ensures |KeepBlocks(raw)| <= |raw|
    ensures forall i :: 0 <= i < |KeepBlocks(raw)| ==> KeepBlocks(raw)[i] != [] && IsStripped(KeepBlocks(raw)[i])
  {
    if raw != [] {
      var b := raw[|raw| - 1];
      KeepBlocksClean(raw[..|raw| - 1]);
    }
  }

  lemma KeepBlocksStep(raw: seq<string>, i: nat)
    requires i < |raw|
    ensures IsPostBlock(raw[i]) ==> KeepBlocks(raw[..i + 1]) == KeepBlocks(raw[..i]) + [Strip(raw[i])]
    ensures !IsPostBlock(raw[i]) ==> KeepBlocks(raw[..i + 1]) == KeepBlocks(raw[..i])
  {
    assert raw[..i + 1][..i] == raw[..i];
  }

  /** The entries `save_to_txt` starts from: none when the file does not exist. */
  function ExistingBlocks(file: Option<string>): seq<string> {
    match file
    case None => []
    case Some(content) => KeepBlocks(Split(content, BlockSeparator))
  }

  /** The loop of `save_to_txt` that collects the existing entries. */
  method ReadEntries(file: Option<string>) returns (entries: seq<string>)
    ensures entries == ExistingBlocks(file)
  {
    entries := [];
    if file.None? {
      return;
    }
    var raw := Split(file.value, BlockSeparator);
    var i := 0;
    while i < |raw|
      invariant 0 <= i <= |raw|
      invariant entries == KeepBlocks(raw[..i])
    {
      KeepBlocksStep(raw, i);
      if IsPostBlock(raw[i]) {
        entries := entries + [Strip(raw[i])];
      }
      i := i + 1;
    }
    assert raw[..i] == raw;
  }

  /** The block written for a new post: its date in brackets, the text, and the link. */
  function NewBlock(p: Post): string {
    "[" + p.published + "] " + p.content + "\nИсточник: " + p.sourceUrl
  }

  // ---------------------------------------------------------------------
  // The sort key

  /** Python's `s[lo:hi]` for `lo >= 0`, with a negative `hi` counted from the end. */
  function PySlice(s: string, lo: nat, hi: int): (r: string)
    ensures |r| <= |s|
  {
    var h := if hi < 0 then |s| + hi else hi;
    var h' := if h > |s| then |s| else h;
    if h' <= lo then [] else s[lo..h']
  }

  /** `entry[1:entry.find(']')]`; when there is no ']' `find` gives -1. */
  function DateText(b: string): string {
    match Find(b, "]")
    case Some(i) => PySlice(b, 1, i)
    case None => PySlice(b, 1, -1)
  }

  /** `extract_date`: the parsed date, or `datetime.min` (0) when it does not parse. */
  function DateKey(fromIso: string -> Option<nat>, b: string): nat {
    match fromIso(DateText(b))
    case Some(k) => k
    case None => 0
  }

  /** A character's first position is what `find` reports for it. */
  lemma {:induction false} FindChar(s: string, c: char, i: nat)
    requires i < |s| && s[i] == c
    requires forall j :: 0 <= j < i ==> s[j] != c
    ensures Find(s, [c]) == Some(i)
    decreases i
  {
    if i > 0 {
      assert s[..1][0] == s[0];
      assert !StartsWith(s, [c]);
      assert s[1..][i - 1] == s[i];
      FindChar(s[1..], c, i - 1);
    } else {
      assert s[..1] == [c];
    }
  }

  /**
   * The new post's block sorts by its own publication date, provided the
   * date's text holds no ']'.
   */
  lemma NewBlockKey(fromIso: string -> Option<nat>, p: Post)
    requires ']' !in p.published
    ensures DateKey(fromIso, NewBlock(p)) == match fromIso(p.published) case Some(k) => k case None => 0
  {
    var b := NewBlock(p);
    var n := |p.published|;
    assert b == ("[" + p.published) + ("] " + p.content + "\nИсточник: " + p.sourceUrl);
    assert b[n + 1] == ']';
    forall j | 0 <= j < n + 1 ensures b[j] != ']' {
      if j > 0 {
        assert b[j] == p.published[j - 1];
      }
    }
    FindChar(b, ']', n + 1);
    assert b[1..n + 1] == p.published;
  }

  // ---------------------------------------------------------------------
  // entries.sort(key=extract_date, reverse=True)

  predicate SortedByDate(fromIso: string -> Option<nat>, s: seq<string>) {
    forall i, j :: 0 <= i < j < |s| ==> DateKey(fromIso, s[i]) >= DateKey(fromIso, s[j])
  }

  /** Every block of `s` is at least as recent as `k`. */
  predicate AllAtLeast(fromIso: string -> Option<nat>, s: seq<string>, k: nat) {
    forall i :: 0 <= i < |s| ==> DateKey(fromIso, s[i]) >= k
  }

  /**
   * Places `b` into a newest-first list after every block at least as
   * recent, so equal dates keep their order.
   */
  function InsertByDate(fromIso: string -> Option<nat>, sorted: seq<string>, b: string): seq<string>
    decreases |sorted|
  {
    if sorted == [] then [b]
    else
      var last := sorted[|sorted| - 1];
      var init := sorted[..|sorted| - 1];
      if DateKey(fromIso, last) >= DateKey(fromIso, b) then sorted + [b]
      else InsertByDate(fromIso, init, b) + [last]
  }

  /** Python's stable sort by date key, newest first, as insertions from the front of the list. */
  function SortByDate(fromIso: string -> Option<nat>, s: seq<string>): seq<string>
    decreases |s|
  {
    if s == [] then []
    else
      InsertByDate(fromIso, SortByDate(fromIso, s[..|s| - 1]), s[|s| - 1])
  }

  lemma AtLeastFromMultiset(fromIso: string -> Option<nat>, s: seq<string>, t: seq<string>, k: nat)
    requires AllAtLeast(fromIso, t, k) && multiset(s) <= multiset(t)
    ensures AllAtLeast(fromIso, s, k)
  {
    forall i | 0 <= i < |s| ensures DateKey(fromIso, s[i]) >= k {
      assert s[i] in multiset(s);
      assert s[i] in multiset(t);
      var j :| 0 <= j < |t| && t[j] == s[i];
    }
  }

  /** Insertion adds exactly the one block. */
  lemma {:induction false} InsertByDatePerm(fromIso: string -> Option<nat>, sorted: seq<string>, b: string)
    ensures multiset(InsertByDate(fromIso, sorted, b)) == multiset(sorted) + multiset{b}
    decreases |sorted|
  {
    if sorted != [] {
      var last := sorted[|sorted| - 1];
      var init := sorted[..|sorted| - 1];
      assert sorted == init + [last];
      if DateKey(fromIso, last) < DateKey(fromIso, b) {
        InsertByDatePerm(fromIso, init, b);
      }
    }
  }

  /** Insertion keeps a newest-first list newest-first. */
  lemma {:induction false} InsertByDateSorted(fromIso: string -> Option<nat>, sorted: seq<string>, b: string)
    requires SortedByDate(fromIso, sorted)
    ensures SortedByDate(fromIso, InsertByDate(fromIso, sorted, b))
    decreases |sorted|
  {
    if sorted != [] {
      var last := sorted[|sorted| - 1];
      var init := sorted[..|sorted| - 1];
      var kl := DateKey(fromIso, last);
      SortedTail(fromIso, sorted);
      if kl >= DateKey(fromIso, b) {
        AtLeastWeaker(fromIso, sorted, kl, DateKey(fromIso, b));
        SortedSnoc(fromIso, sorted, b);
      } else {
        SortedInit(fromIso, sorted);
        InsertByDateSorted(fromIso, init, b);
        var mid := InsertByDate(fromIso, init, b);
        assert AllAtLeast(fromIso, init + [b], kl);
        InsertByDatePerm(fromIso, init, b);
        AtLeastFromMultiset(fromIso, mid, init + [b], kl);
        SortedSnoc(fromIso, mid, last);
      }
    }
  }

  lemma SortedTail(fromIso: string -> Option<nat>, s: seq<string>)
    requires s != [] && SortedByDate(fromIso, s)
    ensures AllAtLeast(fromIso, s, DateKey(fromIso, s[|s| - 1]))
    ensures AllAtLeast(fromIso, s[..|s| - 1], DateKey(fromIso, s[|s| - 1]))
  {
  }

  lemma SortedInit(fromIso: string -> Option<nat>, s: seq<string>)
    requires s != [] && SortedByDate(fromIso, s)
    ensures SortedByDate(fromIso, s[..|s| - 1])
  {
  }

  lemma AtLeastWeaker(fromIso: string -> Option<nat>, s: seq<string>, k: nat, k': nat)
    requires AllAtLeast(fromIso, s, k) && k' <= k
    ensures AllAtLeast(fromIso, s, k')
  {
  }

  lemma SortedSnoc(fromIso: string -> Option<nat>, s: seq<string>, b: string)
    requires SortedByDate(fromIso, s) && AllAtLeast(fromIso, s, DateKey(fromIso, b))
    ensures SortedByDate(fromIso, s + [b])
  {
  }

  /** The sorted list is newest-first and a permutation of the input. */
  lemma {:induction false} SortByDateSorted(fromIso: string -> Option<nat>, s: seq<string>)
    ensures SortedByDate(fromIso, SortByDate(fromIso, s))
    ensures multiset(SortByDate(fromIso, s)) == multiset(s)
    decreases |s|
  {
    if s != [] {
      SortByDateSorted(fromIso, s[..|s| - 1]);
      InsertByDateSorted(fromIso, SortByDate(fromIso, s[..|s| - 1]), s[|s| - 1]);
      InsertByDatePerm(fromIso, SortByDate(fromIso, s[..|s| - 1]), s[|s| - 1]);
      assert s == s[..|s| - 1] + [s[|s| - 1]];
    }
  }

  /** The blocks `save_to_txt` writes, joined by blank lines. */
  function SavedBlocks(fromIso: string -> Option<nat>, file: Option<string>, p: Post): seq<string> {
    SortByDate(fromIso, ExistingBlocks(file) + [NewBlock(p)])
  }

  /**
   * The written list is the re-read blocks plus the new one, in some order,
   * newest first.
   */
  lemma SavedBlocksShape(fromIso: string -> Option<nat>, file: Option<string>, p: Post)
    ensures multiset(SavedBlocks(fromIso, file, p)) == multiset(ExistingBlocks(file)) + multiset{NewBlock(p)}
    ensures SortedByDate(fromIso, SavedBlocks(fromIso, file, p))
  {
    SortByDateSorted(fromIso, ExistingBlocks(file) + [NewBlock(p)]);
  }

  // ---------------------------------------------------------------------
  // update_txt_summary

  /** The strings that mark a statistics block. */
  const SummaryMarkers: seq<string> := [
    "Всего собрано постов:",
    "Статистика по каналам:",
    "СВОДКА ПО СОБРАННЫМ ДАННЫМИ",
    "=========="
  ]

  predicate HasMarker(b: string) {
    exists m :: 0 <= m < |SummaryMarkers| && Contains(b, SummaryMarkers[m])
  }

  /** The posts `update_txt_summary` keeps: stripped, non-blank, marker-free blocks. */
  function PostBlocks(raw: seq<string>): (r: seq<string>)
    ensures |r| <= |raw|
  {
    if raw == [] then []
    else
      var b := raw[|raw| - 1];
      var kept := PostBlocks(raw[..|raw| - 1]);
      if !HasMarker(b) && Strip(b) != [] then kept + [Strip(b)] else kept
  }

  lemma PostBlocksStep(raw: seq<string>, i: nat)
    requires i < |raw|
    ensures !HasMarker(raw[i]) && Strip(raw[i]) != [] ==> PostBlocks(raw[..i + 1]) == PostBlocks(raw[..i]) + [Strip(raw[i])]
    ensures HasMarker(raw[i]) || Strip(raw[i]) == [] ==> PostBlocks(raw[..i + 1]) == PostBlocks(raw[..i])
  {
    assert raw[..i + 1][..i] == raw[..i];
  }

  /** The four membership tests of the loop are `HasMarker`. */
  lemma MarkerTests(b: string)
    ensures HasMarker(b) <==> (Contains(b, SummaryMarkers[0]) || Contains(b, SummaryMarkers[1])
      || Contains(b, SummaryMarkers[2]) || Contains(b, SummaryMarkers[3]))
  {
  }

  /** The loop of `update_txt_summary` that keeps the posts. */
  method ReadPosts(content: string) returns (posts: seq<string>)
    ensures posts == PostBlocks(Split(content, BlockSeparator))
  {
    var raw := Split(content, BlockSeparator);
    posts := [];
    var i := 0;
    while i < |raw|
      invariant 0 <= i <= |raw|
      invariant posts == PostBlocks(raw[..i])
    {
      PostBlocksStep(raw, i);
      var entry := raw[i];
      MarkerTests(entry);
      if Contains(entry, SummaryMarkers[0]) || Contains(entry, SummaryMarkers[1])
        || Contains(entry, SummaryMarkers[2]) || Contains(entry, SummaryMarkers[3]) {
        i := i + 1;
        continue;
      }
      if Strip(entry) != [] {
        posts := posts + [Strip(entry)];
      }
      i := i + 1;
    }
    assert raw[..i] == raw;
  }

  lemma ContainsTrans(a: string, b: string, c: string)
    requires Contains(a, b) && Contains(b, c)
    ensures Contains(a, c)
  {
    var i := ContainsWitness(a, b);
    assert b == a[i..i + |b|];
    ContainsInSlice(a, c, i, i + |b|);
  }

  /** Every kept post is non-blank, stripped and free of every summary marker. */
  lemma {:induction false} PostBlocksClean(raw: seq<string>)
    ensures forall i :: 0 <= i < |PostBlocks(raw)| ==>
      var b := PostBlocks(raw)[i]; b != [] && IsStripped(b) && !HasMarker(b)
    decreases |raw|
  {
    if raw != [] {
      var b := raw[|raw| - 1];
      PostBlocksClean(raw[..|raw| - 1]);
      if !HasMarker(b) && Strip(b) != [] {
        StripInside(b);
        forall m | 0 <= m < |SummaryMarkers| ensures !Contains(Strip(b), SummaryMarkers[m]) {
          if Contains(Strip(b), SummaryMarkers[m]) {
            ContainsTrans(b, Strip(b), SummaryMarkers[m]);
          }
        }
      }
    }
  }

  /** What `update_txt_summary` writes: the kept posts, then the summary. */
  function Summarized(content: string, summary: string): string {
    var posts := PostBlocks(Split(content, BlockSeparator));
    if posts != [] then Join(posts, BlockSeparator) + summary else summary
  }

  // ---------------------------------------------------------------------
  // generate_summary

  const Rule: string := "=================================================="

  /** The line for one channel: "- name: count form". */
  function ChannelLine(name: string, count: nat): string {
    "- " + name + ": " + NatToString(count) + " " + PostsWord(count)
  }

  /** `for channel, count in channel_stats`: one line per channel, in order. */
  function ChannelLines(stats: seq<(string, nat)>): seq<string> {
    if stats == [] then []
    else [ChannelLine(stats[0].0, stats[0].1)] + ChannelLines(stats[1..])
  }

  /** There is exactly one line per channel, and the i-th line reports the i-th channel. */
  lemma {:induction false} ChannelLinesEach(stats: seq<(string, nat)>)
    ensures |ChannelLines(stats)| == |stats|
    ensures forall i :: 0 <= i < |stats| ==> ChannelLines(stats)[i] == ChannelLine(stats[i].0, stats[i].1)
  {
    if stats != [] {
      ChannelLinesEach(stats[1..]);
    }
  }

  /** The summary text for `total` posts and the per-channel counts. */
  function GenerateSummary(total: nat, stats: seq<(string, nat)>): string {
    var header := [
      "\n\n" + Rule,
      "СВОДКА ПО СОБРАННЫМ ДАННЫМ",
      Rule,
      "\nВсего собрано постов: " + NatToString(total),
      "\nСтатистика по каналам:"
    ];
    Join(header + ChannelLines(stats) + ["\n" + Rule], "\n")
  }
}
