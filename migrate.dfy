/**
 * `merge_databases` and `cleanup_database` of the migration script: every
 * `.db` file other than the output is folded into the output table with
 * insert-or-ignore, the sources are retired when something was merged, and
 * the merged table is then re-cleaned with the configured rules.
 */
module Migrate {
  import opened Wrappers
  import opened Platform
  import opened Config
  import opened Normalizer
  import opened PostStore

  /** A row of a source table: one that inserts, or one whose insert raises `sqlite3.Error`. */
  datatype SourceRow = Good(post: Post) | Failing

  /** A `.db` file: its name, and its rows (`None` when reading it raises `sqlite3.Error`). */
  datatype SourceDb = SourceDb(name: string, rows: Option<seq<SourceRow>>)

  /** The rows of a table that insert without error, in order. */
  function GoodPosts(rows: seq<SourceRow>): (r: seq<Post>)
    ensures |r| <= |rows|
  {
    if rows == [] then []
    else GoodPosts(rows[..|rows| - 1]) + (if rows[|rows| - 1].Good? then [rows[|rows| - 1].post] else [])
  }

  /** Whether a file is merged: it is not the output and it can be read. */
  predicate IsSource(output: string, db: SourceDb) {
    db.name != output && db.rows.Some?
  }

  /** The rows offered to the output table, in file order and then row order. */
  function Sources(output: string, dbs: seq<SourceDb>): seq<Post> {
    if dbs == [] then []
    else
      var last := dbs[|dbs| - 1];
      Sources(output, dbs[..|dbs| - 1]) + (if IsSource(output, last) then GoodPosts(last.rows.value) else [])
  }

  /** `total_posts`: the `COUNT(*)` of every merged file. */
  function Total(output: string, dbs: seq<SourceDb>): (n: nat)
    ensures n >= |Sources(output, dbs)|
  {
    if dbs == [] then 0
    else
      var last := dbs[|dbs| - 1];
      Total(output, dbs[..|dbs| - 1]) + (if IsSource(output, last) then |last.rows.value| else 0)
  }

  /** `processed_files`: the merged files, in order. */
  function Processed(output: string, dbs: seq<SourceDb>): (r: seq<string>)
    ensures output !in r
    ensures |r| <= |dbs|
  {
    if dbs == [] then []
    else
      var last := dbs[|dbs| - 1];
      Processed(output, dbs[..|dbs| - 1]) + (if IsSource(output, last) then [last.name] else [])
  }

  lemma AppendInit(a: seq<Post>, b: seq<Post>)
    requires b != []
    ensures (a + b)[..|a + b| - 1] == a + b[..|b| - 1]
    ensures (a + b)[|a + b| - 1] == b[|b| - 1]
  {
  }

  /** Inserting two runs of rows is inserting their concatenation. */
  lemma {:induction false} InsertAllAppend(store: Store, a: seq<Post>, b: seq<Post>)
    ensures InsertAll(store, a + b) == InsertAll(InsertAll(store, a), b)
    decreases |b|
  {
    if b == [] {
      assert a + b == a;
    } else {
      AppendInit(a, b);
      InsertAllAppend(store, a, b[..|b| - 1]);
    }
  }

  /** The rows a concatenation inserts are those of the first run, then those of the second. */
  lemma {:induction false} InsertedAppend(store: Store, a: seq<Post>, b: seq<Post>)
    ensures Inserted(store, a + b) == Inserted(store, a) + Inserted(InsertAll(store, a), b)
    decreases |b|
  {
    if b == [] {
      assert a + b == a;
    } else {
      AppendInit(a, b);
      InsertedAppend(store, a, b[..|b| - 1]);
      InsertAllAppend(store, a, b[..|b| - 1]);
    }
  }

  /**
   * `merged_posts` counts exactly the rows the output table gained, so it
   * never exceeds `total_posts` and the reported duplicate count is not
   * negative.
   */
  lemma MergedAtMostTotal(output: string, dbs: seq<SourceDb>, initial: Store)
    ensures Inserted(initial, Sources(output, dbs)) <= Total(output, dbs)
    ensures |InsertAll(initial, Sources(output, dbs))| == |initial| + Inserted(initial, Sources(output, dbs))
  {
  }

  /**
   * After the merge the table holds one row per id; for an id it did not
   * hold before, the row kept is the first one offered.
   */
  lemma MergeFirstWins(output: string, dbs: seq<SourceDb>, initial: Store, i: nat)
    requires Keyed(initial)
    requires i < |Sources(output, dbs)|
    requires Sources(output, dbs)[i].postId !in initial
    requires forall j :: 0 <= j < i ==> Sources(output, dbs)[j].postId != Sources(output, dbs)[i].postId
    ensures Keyed(InsertAll(initial, Sources(output, dbs)))
    ensures Sources(output, dbs)[i].postId in InsertAll(initial, Sources(output, dbs))
    ensures InsertAll(initial, Sources(output, dbs))[Sources(output, dbs)[i].postId] == Sources(output, dbs)[i]
  {
    InsertAllFirstWins(initial, Sources(output, dbs), i);
    InsertAllKeyed(initial, Sources(output, dbs));
  }

  lemma {:induction false} InsertAllKeyed(store: Store, rows: seq<Post>)
    requires Keyed(store)
    ensures Keyed(InsertAll(store, rows))
    decreases |rows|
  {
    if rows != [] {
      InsertAllKeyed(store, rows[..|rows| - 1]);
    }
  }

  lemma GoodPostsStep(rows: seq<SourceRow>, i: nat)
    requires i < |rows|
    ensures rows[i].Good? ==> GoodPosts(rows[..i + 1]) == GoodPosts(rows[..i]) + [rows[i].post]
    ensures rows[i].Failing? ==> GoodPosts(rows[..i + 1]) == GoodPosts(rows[..i])
  {
    assert rows[..i + 1][..i] == rows[..i];
  }

  lemma InsertAllSnoc(store: Store, a: seq<Post>, p: Post)
    ensures p.postId in InsertAll(store, a) ==>
      InsertAll(store, a + [p]) == InsertAll(store, a) && Inserted(store, a + [p]) == Inserted(store, a)
    ensures p.postId !in InsertAll(store, a) ==>
      InsertAll(store, a + [p]) == InsertAll(store, a)[p.postId := p] && Inserted(store, a + [p]) == Inserted(store, a) + 1
  {
    assert (a + [p])[..|a|] == a;
  }

  /** The inner loop: each row of one file offered to the output table. */
  method MergeRows(store0: Store, rows: seq<SourceRow>) returns (store: Store, merged: nat)
    ensures store == InsertAll(store0, GoodPosts(rows))
    ensures merged == Inserted(store0, GoodPosts(rows))
  {
    store, merged := store0, 0;
    ghost var offered: seq<Post> := [];
    var i := 0;
    while i < |rows|
      invariant 0 <= i <= |rows|
      invariant offered == GoodPosts(rows[..i])
      invariant store == InsertAll(store0, offered) && merged == Inserted(store0, offered)
    {
      GoodPostsStep(rows, i);
      if rows[i].Good? {
        var p := rows[i].post;
        InsertAllSnoc(store0, offered, p);
        if p.postId !in store {
          store := store[p.postId := p];
          merged := merged + 1;
        }
        offered := offered + [p];
      }
      i := i + 1;
    }
    assert rows[..i] == rows;
  }

  lemma FilesStep(output: string, dbs: seq<SourceDb>, i: nat)
    requires i < |dbs|
    ensures IsSource(output, dbs[i]) ==>
      && Sources(output, dbs[..i + 1]) == Sources(output, dbs[..i]) + GoodPosts(dbs[i].rows.value)
      && Total(output, dbs[..i + 1]) == Total(output, dbs[..i]) + |dbs[i].rows.value|
      && Processed(output, dbs[..i + 1]) == Processed(output, dbs[..i]) + [dbs[i].name]
    ensures !IsSource(output, dbs[i]) ==>
      && Sources(output, dbs[..i + 1]) == Sources(output, dbs[..i])
      && Total(output, dbs[..i + 1]) == Total(output, dbs[..i])
      && Processed(output, dbs[..i + 1]) == Processed(output, dbs[..i])
  {
    assert dbs[..i + 1][..i] == dbs[..i];
  }

  /** The file loop of `merge_databases`. */
  method MergeFiles(output: string, dbs: seq<SourceDb>, initial: Store)
    returns (store: Store, total: nat, merged: nat, processed: seq<string>)
    ensures store == InsertAll(initial, Sources(output, dbs))
    ensures merged == Inserted(initial, Sources(output, dbs))
    ensures total == Total(output, dbs) && processed == Processed(output, dbs)
  {
    store, total, merged, processed := initial, 0, 0, [];
    ghost var offered: seq<Post> := [];
    var i := 0;
    while i < |dbs|
      invariant 0 <= i <= |dbs|
      invariant offered == Sources(output, dbs[..i])
      invariant store == InsertAll(initial, offered) && merged == Inserted(initial, offered)
      invariant total == Total(output, dbs[..i]) && processed == Processed(output, dbs[..i])
    {
      FilesStep(output, dbs, i);
      var db := dbs[i];
      if db.name != output && db.rows.Some? {
        var rows := db.rows.value;
        total := total + |rows|;
        InsertAllAppend(initial, offered, GoodPosts(rows));
        InsertedAppend(initial, offered, GoodPosts(rows));
        var n;
        store, n := MergeRows(store, rows);
        merged := merged + n;
        processed := processed + [db.name];
        offered := offered + GoodPosts(rows);
      }
      i := i + 1;
    }
    assert dbs[..i] == dbs;
  }

  // ---------------------------------------------------------------------
  // cleanup_database

  /** The table after every row's content went through `clean`. */
  function CleanedStore(clean: string -> string, store: Store): (r: Store)
    ensures r.Keys == store.Keys
  {
    map k | k in store :: store[k].(content := clean(store[k].content))
  }

  /** The rows whose cleaned content differs from the stored one. */
  function Changed(clean: string -> string, store: Store): (r: set<string>)
    ensures r <= store.Keys
  {
    set k | k in store && clean(store[k].content) != store[k].content
  }

  /**
   * The pass changes only contents: ids, dates and links stay; a row differs
   * exactly when it is counted, and `Keyed` is kept.
   */
  lemma CleanupOnlyContent(clean: string -> string, store: Store)
    ensures var r := CleanedStore(clean, store);
      && (forall k :: k in store ==>
        && r[k].postId == store[k].postId && r[k].published == store[k].published
        && r[k].sourceUrl == store[k].sourceUrl
        && (r[k] != store[k] <==> k in Changed(clean, store)))
      && (Keyed(store) ==> Keyed(r))
      && |Changed(clean, store)| <= |store|
  {
    var c := Changed(clean, store);
    assert |store.Keys| == |store|;
    SubsetCard(c, store.Keys);
  }

  lemma SubsetCard(a: set<string>, b: set<string>)
    requires a <= b
    ensures |a| <= |b|
  {
    assert b == a + (b - a);
  }

  /** The table with only the rows in `done` cleaned. */
  function CleanedPart(clean: string -> string, store: Store, done: set<string>): Store {
    map k | k in store :: if k in done then store[k].(content := clean(store[k].content)) else store[k]
  }

  lemma CleanedPartStep(clean: string -> string, store: Store, done: set<string>, k: string)
    requires k in store && k !in done
    ensures CleanedPart(clean, store, done)[k] == store[k]
    ensures CleanedPart(clean, store, done + {k})
      == CleanedPart(clean, store, done)[k := store[k].(content := clean(store[k].content))]
  {
  }

  lemma CleanedPartAll(clean: string -> string, store: Store)
    ensures CleanedPart(clean, store, store.Keys) == CleanedStore(clean, store)
  {
  }

  /** The rows of `done` whose content cleaning changes. */
  function ChangedIn(clean: string -> string, store: Store, done: set<string>): set<string> {
    set k | k in done && k in store && clean(store[k].content) != store[k].content
  }

  lemma ChangedInStep(clean: string -> string, store: Store, done: set<string>, k: string)
    requires k in store && k !in done
    ensures |ChangedIn(clean, store, done + {k})|
      == |ChangedIn(clean, store, done)| + (if clean(store[k].content) != store[k].content then 1 else 0)
  {
    if clean(store[k].content) != store[k].content {
      assert ChangedIn(clean, store, done + {k}) == ChangedIn(clean, store, done) + {k};
    } else {
      assert ChangedIn(clean, store, done + {k}) == ChangedIn(clean, store, done);
    }
  }

  /** The state of the cleanup loop once the rows of `done` were visited. */
  predicate CleanupInv(clean: string -> string, store: Store, done: set<string>, store': Store, cleaned: nat) {
    store' == CleanedPart(clean, store, done) && cleaned == |ChangedIn(clean, store, done)|
  }

  lemma CleanupStep(clean: string -> string, store: Store, done: set<string>, store': Store, cleaned: nat, k: string)
    requires k in store && k !in done
    requires CleanupInv(clean, store, done, store', cleaned)
    ensures k in store' && store'[k] == store[k]
    ensures var text := clean(store'[k].content);
      CleanupInv(clean, store, done + {k},
        if text != store'[k].content then store'[k := store'[k].(content := text)] else store',
        if text != store'[k].content then cleaned + 1 else cleaned)
  {
    CleanedPartStep(clean, store, done, k);
    ChangedInStep(clean, store, done, k);
    var text := clean(store[k].content);
    if text == store[k].content {
      assert store[k].(content := text) == store[k];
    }
  }

  lemma CleanupDone(clean: string -> string, store: Store, store': Store, cleaned: nat)
    requires CleanupInv(clean, store, store.Keys, store', cleaned)
    ensures store' == CleanedStore(clean, store) && cleaned == |Changed(clean, store)|
  {
    CleanedPartAll(clean, store);
    assert ChangedIn(clean, store, store.Keys) == Changed(clean, store);
  }

  /** `cleanup_database` with `clean` the script's `clean_text` under the loaded rules. */
  method CleanupDatabase(clean: string -> string, store: Store) returns (store': Store, cleaned: nat)
    ensures store' == CleanedStore(clean, store)
    ensures cleaned == |Changed(clean, store)|
  {
    store' := store;
    cleaned := 0;
    var todo := store.Keys;
    ghost var done: set<string> := {};
    assert CleanedPart(clean, store, done) == store;
    while todo != {}
      invariant todo <= store.Keys && done == store.Keys - todo
      invariant CleanupInv(clean, store, done, store', cleaned)
      decreases |todo|
    {
      var k :| k in todo;
      CleanupStep(clean, store, done, store', cleaned, k);
      var text := clean(store'[k].content);
      if text != store'[k].content {
        store' := store'[k := store'[k].(content := text)];
        cleaned := cleaned + 1;
      }
      todo := todo - {k};
      done := done + {k};
    }
    assert done == store.Keys;
    CleanupDone(clean, store, store', cleaned);
  }

  // ---------------------------------------------------------------------
  // merge_databases

  /** What `merge_databases` leaves behind and reports. */
  datatype MergeReport = MergeReport(
    store: Store,          // the output table
    total: nat,            // total_posts
    merged: nat,           // merged_posts
    processed: seq<string>,
    removed: seq<string>,  // files backed up and deleted
    cleaned: Option<nat>)  // rows updated by the cleanup pass, when it ran

  /**
   * `merge_databases` with `output` the output file's name, `dbs` what the
   * `*.db` glob lists, `initial` the output table's rows beforehand and
   * `config` the parsed `config.json`.
   */
  method MergeDatabases(env: Env, output: string, dbs: seq<SourceDb>, initial: Store, config: Option<RawConfig>)
    returns (r: MergeReport)
    ensures var merged := InsertAll(initial, Sources(output, dbs));
      var n := Inserted(initial, Sources(output, dbs));
      var section := LoadCleanupSection(config);
      var runs := n > 0 && section != map[];
      && r.total == Total(output, dbs) && r.merged == n && r.merged <= r.total
      && r.processed == Processed(output, dbs) && output !in r.processed
      && r.removed == (if n > 0 then r.processed else [])
      && r.store == (if runs then CleanedStore(MigrateCleaner(env, section), merged) else merged)
      && r.cleaned == (if runs then Some(|Changed(MigrateCleaner(env, section), merged)|) else None)
  {
    var store, total, merged, processed := MergeFiles(output, dbs, initial);
    MergedAtMostTotal(output, dbs, initial);
    var removed: seq<string> := [];
    var cleaned: Option<nat> := None;
    if merged > 0 {
      removed := processed;
      var section := LoadCleanupSection(config);
      if section != map[] {
        var count;
        store, count := CleanupDatabase(MigrateCleaner(env, section), store);
        cleaned := Some(count);
      }
    }
    r := MergeReport(store, total, merged, processed, removed, cleaned);
  }
}
