/**
 * The text normaliser applied to every post body: `clean_text` of the
 * parser (Rsspars.py) and its variant in the migration script (migratedb.py).
 * Both are fixed pipelines of string rewrites over the configured
 * `remove_phrases` and `remove_patterns`.
 */
module Normalizer {
  import opened Wrappers
  import opened Strings
  import opened Platform
  import opened Config

  /** `<br>`, `<br/>`, `<p>` and `</p>` each become a line break, in that order. */
  function TagsToNewlines(t: string): string {
    ReplaceAll(ReplaceAll(ReplaceAll(ReplaceAll(t, "<br>", "\n"), "<br/>", "\n"), "<p>", "\n"), "</p>", "\n")
  }

  const ForwardMarker: string := "Forwarded From"
  const BoldClose: string := "</b>"
  const WidgetMarker: string := "<div class=\"tgme_widget_message_text"
  const WidgetOpen: string := "dir=\"auto\">"
  const DivClose: string := "</div>"

  /** A forwarded message keeps only what follows its last `</b>`, stripped. */
  function DropForwardPreamble(t: string): string {
    if Contains(t, ForwardMarker) then Strip(AfterLast(t, BoldClose)) else t
  }

  /**
   * Of a forwarded message only text after the last `</b>` is kept: the
   * result lies in a tail of `t` that holds no `</b>` and that is either all
   * of `t` or preceded by a `</b>`.
   */
  lemma ForwardKeepsTail(t: string) returns (tail: string)
    requires Contains(t, ForwardMarker)
    ensures EndsWith(t, tail) && !Contains(tail, BoldClose)
    ensures tail == t || EndsWith(t, BoldClose + tail)
    ensures Contains(tail, DropForwardPreamble(t)) && IsStripped(DropForwardPreamble(t))
  {
    tail := AfterLast(t, BoldClose);
    AfterLastSuffix(t, BoldClose);
    AfterLastNoSeparator(t, BoldClose);
    AfterLastFollowsSeparator(t, BoldClose);
    StripInside(tail);
  }

  /**
   * A Telegram widget page keeps what lies between the last `dir="auto">`
   * and the first `</div>` after it.
   */
  function ExtractWidgetText(t: string): string {
    if Contains(t, WidgetMarker) then BeforeFirst(AfterLast(t, WidgetOpen), DivClose) else t
  }

  /**
   * The extracted widget text starts a tail of `t` that follows the last
   * `dir="auto">`, and holds neither that marker nor `</div>`.
   */
  lemma WidgetTextClean(t: string) returns (tail: string)
    requires Contains(t, WidgetMarker)
    ensures EndsWith(t, tail) && !Contains(tail, WidgetOpen)
    ensures tail == t || EndsWith(t, WidgetOpen + tail)
    ensures var r := ExtractWidgetText(t);
      StartsWith(tail, r) && !Contains(r, DivClose) && !Contains(r, WidgetOpen)
  {
    tail := AfterLast(t, WidgetOpen);
    var r := BeforeFirst(tail, DivClose);
    AfterLastSuffix(t, WidgetOpen);
    AfterLastNoSeparator(t, WidgetOpen);
    AfterLastFollowsSeparator(t, WidgetOpen);
    BeforeFirstPrefix(tail, DivClose);
    if Contains(r, WidgetOpen) {
      assert r == tail[0..|r|];
      ContainsInSlice(tail, WidgetOpen, 0, |r|);
    }
  }

  /** `for phrase in remove_phrases: text = text.replace(phrase, '')`. */
  function RemovePhrases(t: string, phrases: seq<string>): (r: string)
    ensures |r| <= |t|
    decreases |phrases|
  {
    if phrases == [] then t else RemovePhrases(RemoveAll(t, phrases[0]), phrases[1..])
  }

  /** The pattern loop either finishes, or a pattern raises and the text reached so far is returned. */
  datatype Outcome = Finished(text: string) | Interrupted(partial: string)

  /** `for pattern in remove_patterns: text = re.sub(pattern, '', text)`. */
  function ApplyPatterns(regexRemove: (string, string) -> Option<string>, t: string, patterns: seq<string>): (o: Outcome)
    ensures patterns == [] ==> o == Finished(t)
    decreases |patterns|
  {
    if patterns == [] then Finished(t)
    else
      match regexRemove(patterns[0], t)
      case None => Interrupted(t)
      case Some(u) => ApplyPatterns(regexRemove, u, patterns[1..])
  }

  /** Running the loop over `k + 1` patterns is the first step followed by the loop over the next `k`. */
  lemma PatternsPrefixStep(regexRemove: (string, string) -> Option<string>, t: string, patterns: seq<string>, u: string, k: nat)
    requires k < |patterns| && regexRemove(patterns[0], t) == Some(u)
    ensures ApplyPatterns(regexRemove, t, patterns[..k + 1]) == ApplyPatterns(regexRemove, u, patterns[1..][..k])
  {
    assert patterns[..k + 1][0] == patterns[0];
    assert patterns[..k + 1][1..] == patterns[1..][..k];
  }

  /**
   * The loop finishes exactly when every pattern succeeds on the text the
   * earlier ones left; otherwise the text returned is the one reached just
   * before the first pattern that raised.
   */
  lemma {:induction false} ApplyPatternsOutcome(regexRemove: (string, string) -> Option<string>, t: string, patterns: seq<string>)
    ensures ApplyPatterns(regexRemove, t, patterns).Interrupted? ==>
      exists k :: 0 <= k < |patterns| && ApplyPatterns(regexRemove, t, patterns[..k]) == Finished(ApplyPatterns(regexRemove, t, patterns).partial)
        && regexRemove(patterns[k], ApplyPatterns(regexRemove, t, patterns).partial).None?
    ensures ApplyPatterns(regexRemove, t, patterns).Finished? ==>
      forall k :: 0 <= k < |patterns| ==>
        && ApplyPatterns(regexRemove, t, patterns[..k]).Finished?
        && regexRemove(patterns[k], ApplyPatterns(regexRemove, t, patterns[..k]).text).Some?
    decreases |patterns|
  {
    if patterns != [] {
      assert patterns[..0] == [];
      match regexRemove(patterns[0], t)
      case None =>
      case Some(u) =>
        var tail := patterns[1..];
        ApplyPatternsOutcome(regexRemove, u, tail);
        var o := ApplyPatterns(regexRemove, t, patterns);
        if o.Interrupted? {
          var k :| 0 <= k < |tail| && ApplyPatterns(regexRemove, u, tail[..k]) == Finished(o.partial)
            && regexRemove(tail[k], o.partial).None?;
          PatternsPrefixStep(regexRemove, t, patterns, u, k);
          assert patterns[k + 1] == tail[k];
        } else {
          forall k | 0 <= k < |patterns|
            ensures ApplyPatterns(regexRemove, t, patterns[..k]).Finished?
              && regexRemove(patterns[k], ApplyPatterns(regexRemove, t, patterns[..k]).text).Some?
          {
            if k > 0 {
              PatternsPrefixStep(regexRemove, t, patterns, u, k - 1);
              assert patterns[k] == tail[k - 1];
            }
          }
        }
    }
  }

  /** A line survives when it is non-empty and contains no configured phrase. */
  predicate KeepLine(line: string, phrases: seq<string>) {
    line != [] && forall i :: 0 <= i < |phrases| ==> !Contains(line, phrases[i])
  }

  /** `[line.strip() for line in lines if ...]`: the stripped lines that survive, in order. */
  function KeptLines(lines: seq<string>, phrases: seq<string>): (r: seq<string>)
    ensures |r| <= |lines|
    ensures forall i :: 0 <= i < |r| ==> IsStripped(r[i]) && KeepLine(r[i], phrases)
  {
    if lines == [] then []
    else
      var l := Strip(lines[0]);
      var rest := KeptLines(lines[1..], phrases);
      if KeepLine(l, phrases) then [l] + rest else rest
  }

  lemma {:induction false} KeptLinesNoBreak(lines: seq<string>, phrases: seq<string>)
    requires forall i :: 0 <= i < |lines| ==> NoLineBreak(lines[i])
    ensures forall i :: 0 <= i < |KeptLines(lines, phrases)| ==> NoLineBreak(KeptLines(lines, phrases)[i])
  {
    if lines != [] {
      var tail := lines[1..];
      forall i | 0 <= i < |tail| ensures NoLineBreak(tail[i]) {
        assert tail[i] == lines[i + 1];
      }
      KeptLinesNoBreak(tail, phrases);
      StripNoLineBreak(lines[0]);
      var l, rest := Strip(lines[0]), KeptLines(tail, phrases);
      if KeepLine(l, phrases) {
        ConsNoBreak(l, rest);
      }
    }
  }

  lemma ConsNoBreak(l: string, rest: seq<string>)
    requires NoLineBreak(l) && forall i :: 0 <= i < |rest| ==> NoLineBreak(rest[i])
    ensures forall i :: 0 <= i < |[l] + rest| ==> NoLineBreak(([l] + rest)[i])
  {
  }

  /**
   * The line tidying that ends both normalisers: strip every line, keep the
   * survivors, join with "\n", collapse blank-line runs, strip.
   */
  function TidyLines(t: string, phrases: seq<string>): string {
    Strip(CollapseBlankRuns(Join(KeptLines(SplitLines(t), phrases), "\n")))
  }

  /**
   * The tidied text has no outer whitespace, and its lines are exactly the
   * surviving lines of `t`: no empty line, no unstripped line, no phrase.
   */
  lemma TidyLinesShape(t: string, phrases: seq<string>)
    ensures IsStripped(TidyLines(t, phrases))
    ensures SplitLines(TidyLines(t, phrases)) == KeptLines(SplitLines(t), phrases)
  {
    var kept := KeptLines(SplitLines(t), phrases);
    KeptLinesNoBreak(SplitLines(t), phrases);
    var joined := Join(kept, "\n");
    CollapseJoinedLines(kept);
    JoinedLinesStripped(kept);
    StripStripped(joined);
    SplitLinesJoin(kept);
  }

  /** Everything `clean_text` of the parser does before tidying the lines. */
  function Prepared(env: Env, section: CleanupSection, text: string): Outcome {
    var t := ExtractWidgetText(DropForwardPreamble(TagsToNewlines(text)));
    ApplyPatterns(env.regexRemove, RemovePhrases(StripTags(t), Phrases(section)), Patterns(section))
  }

  /**
   * `clean_text` of the parser. When a configured pattern raises, the
   * exception handler returns the text as it stood, still holding its tags'
   * line breaks and entities.
   */
  function CleanText(env: Env, section: CleanupSection, text: string): string {
    match Prepared(env, section, text)
    case Interrupted(partial) => partial
    case Finished(u) => TidyLines(env.unescape(u), Phrases(section))
  }

  /** `clean_text` of the parser under the configured rules, as a value. */
  function Cleaner(env: Env, section: CleanupSection): (clean: string -> string)
    ensures forall t :: clean(t) == CleanText(env, section, t)
  {
    t => CleanText(env, section, t)
  }

  /**
   * A cleaned text: no outer whitespace, and every line non-empty, stripped
   * and free of every given phrase.
   */
  predicate Tidy(r: string, phrases: seq<string>) {
    && IsStripped(r)
    && forall i :: 0 <= i < |SplitLines(r)| ==> IsStripped(SplitLines(r)[i]) && KeepLine(SplitLines(r)[i], phrases)
  }

  lemma TidyOf(r: string, phrases: seq<string>, kept: seq<string>)
    requires IsStripped(r) && SplitLines(r) == kept
    requires forall i :: 0 <= i < |kept| ==> IsStripped(kept[i]) && KeepLine(kept[i], phrases)
    ensures Tidy(r, phrases)
  {
  }

  lemma TidyLinesTidy(t: string, phrases: seq<string>)
    ensures Tidy(TidyLines(t, phrases), phrases)
  {
    TidyLinesShape(t, phrases);
    TidyOf(TidyLines(t, phrases), phrases, KeptLines(SplitLines(t), phrases));
  }

  /** When every pattern compiles, the cleaned text is tidy for the configured phrases. */
  lemma CleanTextShape(env: Env, section: CleanupSection, text: string)
    requires Prepared(env, section, text).Finished?
    ensures Tidy(CleanText(env, section, text), Phrases(section))
  {
    var u := env.unescape(Prepared(env, section, text).text);
    assert CleanText(env, section, text) == TidyLines(u, Phrases(section));
    TidyLinesTidy(u, Phrases(section));
  }

  /** Without configured patterns nothing in the pipeline raises. */
  lemma NoPatternsNoFailure(env: Env, section: CleanupSection, text: string)
    requires Patterns(section) == []
    ensures Prepared(env, section, text).Finished?
  {
  }

  /**
   * Everything `clean_text` of the migration script does before tidying:
   * entities are decoded before the phrases and patterns are removed, and
   * there is no forwarded-message or widget handling.
   */
  function MigratePrepared(env: Env, section: CleanupSection, text: string): Outcome {
    var t := env.unescape(StripTags(TagsToNewlines(text)));
    ApplyPatterns(env.regexRemove, RemovePhrases(t, Phrases(section)), Patterns(section))
  }

  /** `clean_text` of the migration script: the line filter keeps every non-empty stripped line. */
  function MigrateCleanText(env: Env, section: CleanupSection, text: string): string {
    match MigratePrepared(env, section, text)
    case Interrupted(partial) => partial
    case Finished(u) => TidyLines(u, [])
  }

  /** `clean_text` of the migration script under the loaded rules, as a value. */
  function MigrateCleaner(env: Env, section: CleanupSection): (clean: string -> string)
    ensures forall t :: clean(t) == MigrateCleanText(env, section, t)
  {
    t => MigrateCleanText(env, section, t)
  }

  /** The migration cleaner's output is trimmed and its lines are non-empty and stripped. */
  lemma MigrateCleanTextShape(env: Env, section: CleanupSection, text: string)
    requires MigratePrepared(env, section, text).Finished?
    ensures Tidy(MigrateCleanText(env, section, text), [])
  {
    var u := MigratePrepared(env, section, text).text;
    assert MigrateCleanText(env, section, text) == TidyLines(u, []);
    TidyLinesTidy(u, []);
  }
}
