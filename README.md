# rss-owl ingestion core, modelled in Dafny

rss-owl polls a list of Telegram channels through several public RSS mirrors.
Each new post is stored once in the SQLite table `posts`, keyed by the post id
taken from its link. The post is also written into the flat file `tg-posts.txt`.
That file keeps its blocks newest first and ends with a per-channel summary.
A companion migration script merges every `.db` file into one table and re-cleans
the stored text.

This project models the decision logic of both programs:

- **Text normalisation** (`clean_text` in both programs). Tags become line breaks.
  Forwarded-message and widget wrappers are cut. The remaining tags, phrases and
  patterns are removed, lines are tidied and runs of blank lines are collapsed.
- **Feed collection and de-duplication** (`get_feed_data`). The mirrors are asked
  in order, their entries are concatenated, and the first entry with a given post
  id wins.
- **Per-entry ingestion** (`parse_feed`, `check_duplicate`, `save_post`).
  A post is stored only when its id is new and it was published strictly after
  the channel's cursor. `INSERT OR IGNORE` is insert-if-absent.
- **Flat file** (`save_to_txt`, `update_txt_summary`, `generate_summary`).
  Blocks are re-read, the new block is inserted in date order, statistics blocks
  are dropped, and the summary uses the Russian plural rule for "пост".
  `save_post` writes the file before its insert is committed, and the summary
  reads the table through its own connection, so that summary does not count
  the post just saved.
- **Date parsing** (`parse_date`). Five formats are tried in order, the first
  success wins, and the current time is the fallback.
- **The `main` tick.** Channel cursors move to the tick's start only when posts
  were added. The delay is reset to the minimum, backed off by the increment up
  to the maximum, or set to the maximum after an exception.
- **Migration** (`merge_databases`, `cleanup_database`, `load_cleanup_config`).

Modules:

| Module | What it holds |
|---|---|
| `Strings` | The Python string operations used, with Python's semantics. |
| `Platform` | The external services as parameters: the regex engine for configured patterns, `html.unescape`, `strptime`, `str(datetime)`, `fromisoformat` and the summary's GROUP BY query. |
| `Config` | The configuration and its defaults. |
| `Normalizer` | Both `clean_text` functions. |
| `Dates` | `parse_date`. |
| `PostStore` | The `posts` table as a map from post id to row. |
| `Fanout` | `get_feed_data`. |
| `FlatFile` | The list logic of `tg-posts.txt`. |
| `Plural` | The plural rule for "пост". |
| `Ingestion` | The parser's stores as the class `Ingestor`. |
| `Controller` | The tick of `main` as the class `Poller`. |
| `Migrate` | The migration script. |

The imperative parts stay imperative: the loops of `get_feed_data`,
`parse_feed`, `save_to_txt`, `update_txt_summary`, `cleanup_database` and
`merge_databases` are methods. Each such method is proved equal to a function
over the same inputs, and the properties are proved about those functions.

## Model

| member | source | states |
|---|---|---|
| Strings.FindContains | Rsspars.py:91 | `str.find` succeeds exactly when the substring occurs (`in`) |
| Strings.FindIsFirst | Rsspars.py:225 | `str.find` returns the first occurrence: no earlier index starts the pattern |
| Strings.SplitPiecesClean | Rsspars.py:92 | no piece of `str.split(sep)` contains the separator |
| Strings.JoinSplit | Rsspars.py:213 | joining the pieces of `split(sep)` with `sep` gives back the original text |
| Strings.AfterLastIsLastPiece | Rsspars.py:172 | the text after the last separator is `split(sep)[-1]` |
| Strings.AfterLastNoSeparator | Rsspars.py:172 | `split(sep)[-1]` contains no separator |
| Strings.AfterLastFollowsSeparator | Rsspars.py:92 | `split(sep)[-1]` is the whole text or is preceded by the separator |
| Strings.BeforeFirstPrefix | Rsspars.py:97 | `split(sep)[0]` is a prefix of the text, holds no separator and is the first piece |
| Strings.ReplaceAll | Rsspars.py:85-88 | `str.replace` leaves a text without the pattern unchanged |
| Strings.ReplaceAllAtFind | Rsspars.py:267-268 | `str.replace` copies the text up to the first occurrence, then the replacement, then carries on after the occurrence |
| Strings.ContainsAroundForeign | Rsspars.py:267-268 | an occurrence cannot straddle a piece whose characters are all foreign to the pattern |
| Strings.ReplaceAllRemoves | Rsspars.py:267-268 | replacing a pattern by text foreign to it leaves no occurrence of the pattern |
| Strings.RemoveShrinks | Rsspars.py:104-105 | removing a phrase never lengthens the text |
| Strings.Strip | Rsspars.py:117 | the result of `str.strip` has no whitespace at either end and is no longer than the input |
| Strings.StripBounds | Rsspars.py:117-118 | `strip` keeps a contiguous piece, and gives the empty string exactly for all-whitespace lines, which are then dropped |
| Strings.StripStripped | Rsspars.py:126 | `strip` is the identity on a stripped text (idempotence) |
| Strings.StripInside | Rsspars.py:92 | the stripped text occurs inside the original |
| Strings.SplitLines | Rsspars.py:116 | no line of `splitlines()` holds a line break |
| Strings.SplitLinesJoin | Rsspars.py:116-121 | `splitlines` undoes `'\n'.join` of non-empty lines that hold no line break |
| Strings.StripTags | Rsspars.py:101 | removing `<[^<]+?>` never lengthens the text and leaves a text without `<` unchanged |
| Strings.TagClose | Rsspars.py:101 | a found tag end is a `>` at or after the search start |
| Strings.TagCloseFirst | Rsspars.py:101 | the lazy `[^<]+?` stops at the first `>`: no `<` or `>` lies before it, and when none is found every `>` is preceded by a `<` after the opening |
| Strings.LastNewlineInRun | Rsspars.py:124 | a found match end is a line break, and a text not starting with whitespace has none |
| Strings.LastNewlineInRunIsLast | Rsspars.py:124 | the greedy `\s*` ends at the last line break of the leading whitespace run: everything up to it is whitespace and no later line break of the run exists |
| Strings.CollapseJoinedLines | Rsspars.py:121-124 | collapsing blank-line runs changes nothing in lines joined by `'\n'` that are non-empty and stripped |
| Strings.JoinedLinesStripped | Rsspars.py:121-126 | non-empty stripped lines joined by `'\n'` form a stripped text |
| Strings.NatToString | Rsspars.py:492 | a count is printed as a non-empty string of decimal digits |
| Config.LoadSettings | Rsspars.py:32-57 | an unreadable file gives no channels and no cleanup rules; a missing `check_intervals` gives 30/15/60/5 |
| Config.LoadCleanupSection | migratedb.py:10-18 | `text_cleanup` when the file reads and has it; `{}` otherwise |
| Normalizer.ForwardKeepsTail | Rsspars.py:91-92 | a forwarded message keeps stripped text from after its last `</b>`, in a tail holding no `</b>` |
| Normalizer.WidgetTextClean | Rsspars.py:95-97 | widget text starts right after the last `dir="auto">` and holds neither that marker nor `</div>` |
| Normalizer.RemovePhrases | Rsspars.py:104-105 | removing the configured phrases never lengthens the text |
| Normalizer.ApplyPatterns | Rsspars.py:108-109 | with no patterns the text passes through and nothing raises |
| Normalizer.PatternsPrefixStep | Rsspars.py:108-109 | the loop over a prefix of the patterns is the first substitution followed by the loop over the rest |
| Normalizer.ApplyPatternsOutcome | Rsspars.py:107-111 | the loop finishes exactly when every pattern succeeds on the text the earlier ones left; an interrupted loop returns the text reached just before the first pattern that raised |
| Normalizer.KeptLines | Rsspars.py:115-119 | every kept line is stripped, non-empty and free of every phrase, and no line is added |
| Normalizer.KeptLinesNoBreak | Rsspars.py:116-119 | kept lines still hold no line break |
| Normalizer.TidyLinesShape | Rsspars.py:114-126 | the tidied text is stripped, and its lines are exactly the kept lines of the input |
| Normalizer.CleanTextShape | Rsspars.py:76-126 | when no pattern raises, the cleaned text is stripped and each line is non-empty, stripped and free of every configured phrase |
| Normalizer.NoPatternsNoFailure | Rsspars.py:107-109 | with no patterns configured the pipeline does not reach the exception handler |
| Normalizer.MigrateCleanTextShape | migratedb.py:20-51 | the migration cleaner's output is stripped and its lines are non-empty and stripped |
| Dates.RewriteGmt | Rsspars.py:267-268 | no "GMT" is left for the `%Z` format, and a date without "GMT" is not rewritten |
| Dates.Attach | Rsspars.py:265-276 | every parsed date ends up aware with its wall-clock reading kept; an aware result of a format other than `%Z` is returned as parsed |
| Dates.TryFormats | Rsspars.py:262-278 | any date the format loop returns is aware |
| Dates.ParseDate | Rsspars.py:246-286 | `parse_date` always returns an aware datetime |
| Dates.ParseDateStep | Rsspars.py:259-269 | every format sees the stripped text with "GMT" rewritten, because the rewrite persists |
| Dates.FirstSuccessWins | Rsspars.py:262-278 | the first format that parses decides the result |
| Dates.AllFailGivesNow | Rsspars.py:280-282 | when no format parses, the result is the current UTC time |
| Dates.NumericOffsetKept | Rsspars.py:272-276 | a date with a numeric offset keeps that offset and wall-clock reading, without conversion |
| Plural.FormOf | Rsspars.py:486-490 | "пост" exactly for counts ending in 1 but not 11; "поста" exactly for 2–4 but not 12–14 |
| Plural.WordsDistinct | Rsspars.py:486-490 | the three forms are spelled differently, so the printed word determines the form |
| Plural.PostsWordPeriodic | Rsspars.py:487-490 | the word depends only on the count modulo 100 |
| Plural.TeensTakeGenitivePlural | Rsspars.py:487-490 | any count ending in 11–14 takes "постов" |
| PostStore.InsertOrIgnore | Rsspars.py:187-197 | reports an insertion exactly when the id was absent; existing rows are untouched; on insertion the row is filed and the table grows by one |
| PostStore.InsertIdempotent | Rsspars.py:187-200 | inserting the same row twice reports false the second time and changes nothing |
| PostStore.InsertAllKeys | migratedb.py:150-158 | after inserting a sequence of rows the ids are the old ids plus the rows' ids |
| PostStore.InsertAllKeepsOld | migratedb.py:150-158 | rows already in the table are never replaced |
| PostStore.InsertAllFirstWins | migratedb.py:150-158 | the first row carrying a new id is the one stored |
| PostStore.Inserted | migratedb.py:157-158 | the `rowcount > 0` count is at most the row count and equals the table's growth |
| Fanout.PostIdShape | Rsspars.py:172 | the post id is a suffix of the link with no '/', and is the whole link or follows a '/' |
| Fanout.GetFeedData | Rsspars.py:132-181 | the method's result equals the specification `Merge` of the mirrors' answers |
| Fanout.CollectEntries | Rsspars.py:141-167 | `all_entries` is the concatenation of the contributing mirrors' entries, in order |
| Fanout.UniqueEntries | Rsspars.py:169-178 | the dictionary fill gives the first-occurrence list, or the link error when an entry has no link |
| Fanout.Dedup | Rsspars.py:170-174 | de-duplication gives linked entries, no more than its input |
| Fanout.DedupOnlyDrops | Rsspars.py:170-174 | de-duplication only drops entries: the kept ones form a sub-multiset of the input |
| Fanout.DedupKeys | Rsspars.py:170-174 | de-duplication keeps every post id |
| Fanout.DedupDistinct | Rsspars.py:170-174 | no two kept entries share a post id |
| Fanout.DedupIsFirstOccurrences | Rsspars.py:171-174 | the kept entries are exactly the first occurrences, left to right |
| Fanout.CollectedEmpty | Rsspars.py:156-161 | nothing is collected exactly when no mirror answered 200 with entries |
| Fanout.NoFeedIffNoContributor | Rsspars.py:169-181 | `None` is returned exactly when no mirror contributed |
| Fanout.EveryContributorKept | Rsspars.py:157-174 | every entry of a contributing mirror has its post id in the returned feed |
| FlatFile.KeepBlocksClean | Rsspars.py:213-216 | the re-read entries are non-blank and stripped, and no more than the blocks |
| FlatFile.ReadEntries | Rsspars.py:209-216 | the reading loop gives the specified re-read entries, none when the file is absent |
| FlatFile.PySlice | Rsspars.py:225 | a Python slice is never longer than the text |
| FlatFile.NewBlockKey | Rsspars.py:219-232 | the sort key of a new block is the `fromisoformat` reading of its date, or `datetime.min` |
| FlatFile.InsertByDatePerm | Rsspars.py:234 | inserting into the sorted list adds exactly the new block |
| FlatFile.InsertByDateSorted | Rsspars.py:234 | inserting keeps the list sorted newest first |
| FlatFile.SortByDateSorted | Rsspars.py:234 | the sort yields a newest-first permutation of its input |
| FlatFile.SavedBlocksShape | Rsspars.py:209-238 | the written blocks are the re-read ones plus the new one, sorted newest first |
| FlatFile.PostBlocks | Rsspars.py:515-526 | the kept posts are no more than the blocks |
| FlatFile.ReadPosts | Rsspars.py:515-526 | the loop of `update_txt_summary` gives the specified kept posts |
| FlatFile.PostBlocksClean | Rsspars.py:515-526 | every kept post is non-blank, stripped and holds no marker |
| FlatFile.ChannelLinesEach | Rsspars.py:484-492 | one summary line per channel, the i-th reporting the i-th channel with its count and plural |
| Ingestion.SummaryUpdatedShape | Rsspars.py:501-539 | an existing file becomes its kept posts, each non-blank, stripped and free of markers, joined by the separator and followed by the summary |
| Ingestion.Save | Rsspars.py:183-203 | `save_post` is insert-or-ignore; on an ignore nothing changes; on an insert the file is rewritten with a summary that counts the committed rows only, without the new post |
| Ingestion.Decide | Rsspars.py:304-323 | an entry becomes a post exactly when it has every attribute, a new id, and a date after the cursor; the post carries the link's id and the link |
| Ingestion.Step | Rsspars.py:304-330 | one entry adds at most one post, and counting none means nothing changed |
| Ingestion.StepCounts | Rsspars.py:304-330 | an entry is counted exactly when it is linked, admissible and new; a counted entry adds exactly its id and changes the state |
| Ingestion.Next | Rsspars.py:325-326 | the counter grows by at most one per entry |
| Ingestion.StepSkips | Rsspars.py:306-316 | a duplicate, incomplete or not-newer entry changes nothing |
| Ingestion.StepSaves | Rsspars.py:318-326 | a fresh entry is saved and counted exactly when the insert happened |
| Ingestion.StepKeys | Rsspars.py:304-326 | ids are never removed, and an admissible entry's id is stored afterwards |
| Ingestion.Ingest | Rsspars.py:304-332 | the count is at most the number of entries; a zero count means nothing changed |
| Ingestion.IngestGrows | Rsspars.py:304-332 | the table only grows, old rows are never replaced, and it grows by exactly the returned count |
| Ingestion.NewIdsAdmissible | Rsspars.py:304-326 | every newly stored id comes from an admissible entry of the feed |
| Ingestion.IngestAbsorbs | Rsspars.py:304-332 | afterwards every admissible entry's id is stored |
| Ingestion.AbsorbedAddsNothing | Rsspars.py:308-310 | a feed whose admissible ids are all stored adds nothing |
| Ingestion.RerunAddsNothing | Rsspars.py:299-336 | parsing the same feed again with the same cursor and clock adds no post and changes nothing |
| Ingestion.Ingestor.constructor | Rsspars.py:16-30 | the parser starts from the given stores and the configured cleanup rules |
| Ingestion.Ingestor.CheckDuplicate | Rsspars.py:288-297 | reports exactly whether the id is stored |
| Ingestion.Ingestor.UpdateTxtSummary | Rsspars.py:501-539 | the table is untouched; the file becomes the kept posts followed by the summary |
| Ingestion.Ingestor.SaveToTxt | Rsspars.py:205-244 | the table is untouched; the file becomes the sorted blocks followed by the summary |
| Ingestion.Ingestor.SavePost | Rsspars.py:183-203 | the new state and result equal the specification `Save`; the file is written while the insert is uncommitted |
| Ingestion.Ingestor.PreparePost | Rsspars.py:306-323 | a post is prepared exactly when `Decide` finds the entry fresh, and it is that post |
| Ingestion.Ingestor.IngestEntry | Rsspars.py:305-330 | one loop pass equals the specification `Step` |
| Ingestion.Ingestor.IngestAll | Rsspars.py:301-332 | the entry loop equals the specification `Ingest` |
| Ingestion.Ingestor.ParseFeed | Rsspars.py:299-336 | `parse_feed` equals `ParseFeedSpec`, including the 0 returned when the first entry has no link |
| Controller.NextInterval | Rsspars.py:564-575 | after an exception the delay is the maximum; after new posts the minimum; otherwise it grows by the increment, capped at the maximum |
| Controller.IntervalAtMostMax | Rsspars.py:564-575 | the delay never exceeds the maximum when min ≤ max |
| Controller.IntervalStaysInRange | Rsspars.py:564-575 | a delay within [min, max] stays within it |
| Controller.Poll | Rsspars.py:553-559 | the channels stay the same, the count only grows, and after an exception nothing changes |
| Controller.PollAll | Rsspars.py:553-559 | the same over all channels |
| Controller.PollCursors | Rsspars.py:556-558 | after one channel's poll every cursor stays or becomes the tick's start, and a cursor moves only when the poll counted posts |
| Controller.PollMovesOwnCursor | Rsspars.py:554-558 | polling a channel leaves every other cursor alone, moves its own only when its posts were counted, and then sets it to the tick's start |
| Controller.CursorsFollowTrans | Rsspars.py:553-559 | that cursor discipline composes across channels |
| Controller.CursorsMoveForward | Rsspars.py:545-559 | over a whole tick every cursor stays or becomes the tick's start, and a cursor moves only when the tick counted posts |
| Controller.UnpolledCursorsKept | Rsspars.py:553-558 | a channel the tick does not poll keeps its cursor |
| Controller.ProductiveChannelCursorSet | Rsspars.py:553-558 | a channel whose own poll counted posts ends the tick with its cursor at the tick's start |
| Controller.Poller.constructor | Rsspars.py:543-545 | the delay starts at `initial` and every channel starts without a cursor |
| Controller.Poller.PollChannel | Rsspars.py:554-559 | one channel of the loop equals the specification `Poll` |
| Controller.Poller.PollChannels | Rsspars.py:553-559 | the channel loop equals `PollAll` and keeps every channel's cursor |
| Controller.Poller.Tick | Rsspars.py:547-575 | one tick: stores and cursors as in `PollAll`, and the next delay from `NextInterval` |
| Migrate.GoodPosts | migratedb.py:150-162 | rows whose insert raises are skipped, so no more rows are offered than exist |
| Migrate.Total | migratedb.py:136-138 | `total_posts` is at least the number of rows offered |
| Migrate.Processed | migratedb.py:125-170 | the output file is never processed, and no more files are processed than the glob lists |
| Migrate.InsertAllAppend | migratedb.py:125-164 | merging file after file is merging their concatenation |
| Migrate.InsertedAppend | migratedb.py:157-158 | `merged_posts` adds up across files |
| Migrate.MergedAtMostTotal | migratedb.py:157-158 | merged ≤ total, and the output table grows by exactly the merged count |
| Migrate.MergeFirstWins | migratedb.py:150-158 | the first row offered with a new id is the one kept, and every row stays filed under its own id |
| Migrate.InsertAllKeyed | migratedb.py:150-158 | merging keeps every row filed under its own id |
| Migrate.MergeRows | migratedb.py:148-164 | the row loop equals the specified fold and its count |
| Migrate.MergeFiles | migratedb.py:119-170 | the file loop gives the merged table, `total_posts`, `merged_posts` and `processed_files` as specified |
| Migrate.CleanedStore | migratedb.py:71-79 | cleaning keeps every row |
| Migrate.Changed | migratedb.py:73-79 | only stored rows are counted as updated |
| Migrate.CleanupOnlyContent | migratedb.py:71-79 | cleaning changes only the content; a row counts as updated exactly when it changed; ids stay filed |
| Migrate.CleanupDatabase | migratedb.py:56-90 | the update loop gives the cleaned table and the number of rows that changed |
| Migrate.MergeDatabases | migratedb.py:92-199 | the report's counts and files as specified; sources are retired only when something merged; the cleanup runs exactly when something merged and the rules are non-empty |

## Left out

- Network requests, SQLite, file reads and writes, `print` and `time.sleep` are not modelled. Their results are parameters: the mirrors' answers, the stored rows and the file's content.
- The regex engine for user-configured patterns, `html.unescape`, `strptime`, `str(datetime)`, `fromisoformat` and the summary's GROUP BY query are parameters of `Platform.Env` and are not interpreted.
- Database errors in `check_duplicate`, `save_post` and `generate_summary`, and file errors in `save_to_txt` and `update_txt_summary`, are not modelled. The model assumes those calls succeed.
- In `merge_databases`, a `sqlite3.Error` raised while iterating a file's rows is not modelled. Such a file is treated as unreadable from the start, and rows it already inserted are not counted.
- Errors raised while backing up or deleting a source file are not modelled, so every processed file counts as removed. The backup directory's name and timestamp are not modelled.
- A `config.json` whose top level is not a dictionary, and non-integer interval values, are not modelled.
- The clock is read once per tick. Every fallback date of that tick uses the same reading.
- `entries.sort(...)` is modelled as a functional stable insertion sort, not an in-place sort. Stability is not stated as a lemma.
- `cleanup_database` addresses rows by `post_id` rather than by the integer primary key. The two agree because `post_id` is unique.
- The `while True` loop of `main` is not modelled as a loop. `Controller.Poller.Tick` is one iteration of it.
- `print_cycle_stats`, `get_posts_stats`, `get_db_stats`, `print_db_stats` and `get_latest_posts` are left out: they only read or print. `init_db` creates the `posts` table and its index; the model starts from a given table instead.
- The `existing_posts` counter of `parse_feed` is never read, so it is left out.
- The interactive confirmation prompt of the migration script is left out.
- analytic-md.py is not part of this model.
