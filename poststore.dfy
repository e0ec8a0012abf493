/**
 * The `posts` table seen through its `post_id UNIQUE` column: a map from
 * post id to row, and `INSERT OR IGNORE` as insert-if-absent with
 * `cursor.rowcount > 0` as its result.
 */
module PostStore {
  import opened Platform

  type Store = map<string, Post>

  /** Every row is filed under its own post id. */
  predicate Keyed(store: Store) {
    forall k :: k in store ==> store[k].postId == k
  }

  /** `INSERT OR IGNORE INTO posts …` followed by `cursor.rowcount > 0`. */
  function InsertOrIgnore(store: Store, p: Post): (r: (Store, bool))
    ensures r.1 <==> p.postId !in store
    ensures r.0.Keys == store.Keys + {p.postId}
    ensures r.1 ==> r.0[p.postId] == p && |r.0| == |store| + 1
    ensures forall k :: k in store ==> r.0[k] == store[k]
    ensures Keyed(store) ==> Keyed(r.0)
  {
    if p.postId in store then (store, false) else (store[p.postId := p], true)
  }

  /** Inserting the same row again reports false and changes nothing. */
  lemma InsertIdempotent(store: Store, p: Post)
    ensures var once := InsertOrIgnore(store, p).0;
      InsertOrIgnore(once, p) == (once, false)
  {
  }

  /** Rows inserted one after another, each ignored when its id is taken. */
  function InsertAll(store: Store, rows: seq<Post>): (r: Store)
    ensures store.Keys <= r.Keys
    decreases |rows|
  {
    if rows == [] then store
    else InsertOrIgnore(InsertAll(store, rows[..|rows| - 1]), rows[|rows| - 1]).0
  }

  /** The ids of a sequence of rows. */
  function Ids(rows: seq<Post>): set<string> {
    set i | 0 <= i < |rows| :: rows[i].postId
  }

  lemma IdsSnoc(rows: seq<Post>)
    requires rows != []
    ensures Ids(rows) == Ids(rows[..|rows| - 1]) + {rows[|rows| - 1].postId}
  {
    var init := rows[..|rows| - 1];
    forall k | k in Ids(rows) ensures k in Ids(init) + {rows[|rows| - 1].postId} {
      var i :| 0 <= i < |rows| && rows[i].postId == k;
      if i < |rows| - 1 {
        assert init[i] == rows[i];
      }
    }
    forall k | k in Ids(init) ensures k in Ids(rows) {
      var i :| 0 <= i < |init| && init[i].postId == k;
      assert rows[i] == init[i];
    }
  }

  /** After the fold the table holds the old ids plus every inserted row's id. */
  lemma {:induction false} InsertAllKeys(store: Store, rows: seq<Post>)
    ensures InsertAll(store, rows).Keys == store.Keys + Ids(rows)
    decreases |rows|
  {
    if rows != [] {
      InsertAllKeys(store, rows[..|rows| - 1]);
      IdsSnoc(rows);
    }
  }

  /** Rows already in the table are never replaced. */
  lemma {:induction false} InsertAllKeepsOld(store: Store, rows: seq<Post>)
    ensures forall k :: k in store ==> InsertAll(store, rows)[k] == store[k]
    decreases |rows|
  {
    if rows != [] {
      InsertAllKeepsOld(store, rows[..|rows| - 1]);
    }
  }

  /** For an id new to the table, the first row carrying it is the one that stays. */
  lemma {:induction false} InsertAllFirstWins(store: Store, rows: seq<Post>, i: nat)
    requires i < |rows| && rows[i].postId !in store
    requires forall j :: 0 <= j < i ==> rows[j].postId != rows[i].postId
    ensures rows[i].postId in InsertAll(store, rows) && InsertAll(store, rows)[rows[i].postId] == rows[i]
    decreases |rows|
  {
    var init := rows[..|rows| - 1];
    if i == |rows| - 1 {
      assert rows[i].postId !in Ids(init);
      InsertAllKeys(store, init);
    } else {
      InsertAllFirstWins(store, init, i);
    }
  }

  /** The number of rows the fold actually inserts. */
  function Inserted(store: Store, rows: seq<Post>): (n: nat)
    ensures n <= |rows|
    ensures |InsertAll(store, rows)| == |store| + n
    decreases |rows|
  {
    if rows == [] then 0
    else
      var before := InsertAll(store, rows[..|rows| - 1]);
      Inserted(store, rows[..|rows| - 1]) + (if rows[|rows| - 1].postId in before then 0 else 1)
  }
}
