/**
 * One tick of the polling loop in `main`: every channel's feed is fetched and
 * parsed against that channel's cursor, the cursor moves to the tick's start
 * when the channel produced posts, and the delay before the next tick is
 * reset, backed off, or set to its maximum after an exception.
 */
module Controller {
  import opened Wrappers
  import opened Platform
  import opened Config
  import opened Fanout
  import opened Ingestion

  /** How a tick ended: normally with the number of new posts, or by an exception. */
  datatype TickOutcome = Completed(total: nat) | Failed

  /** The delay after a tick. */
  function NextInterval(iv: Intervals, current: int, outcome: TickOutcome): (next: int)
    ensures outcome.Failed? ==> next == iv.max
    ensures outcome.Completed? && outcome.total > 0 ==> next == iv.min
    ensures outcome == Completed(0) && current + iv.increment <= iv.max ==> next == current + iv.increment
    ensures outcome == Completed(0) && current + iv.increment > iv.max ==> next == iv.max
  {
    match outcome
    case Failed => iv.max
    case Completed(total) =>
      if total > 0 then iv.min
      else if current + iv.increment < iv.max then current + iv.increment else iv.max
  }

  /** With `min <= max` the delay never exceeds the maximum, whatever happened. */
  lemma IntervalAtMostMax(iv: Intervals, current: int, outcome: TickOutcome)
    requires iv.min <= iv.max
    ensures NextInterval(iv, current, outcome) <= iv.max
  {
  }

  /** A delay within [min, max] stays there when the increment is not negative. */
  lemma IntervalStaysInRange(iv: Intervals, current: int, outcome: TickOutcome)
    requires iv.min <= current <= iv.max && iv.increment >= 0
    ensures iv.min <= NextInterval(iv, current, outcome) <= iv.max
  {
  }

  /** With the default settings, quiet ticks back off 30, 35, …, 60 and a post brings back 15. */
  lemma DefaultBackoff()
    ensures var iv := LoadSettings(None).intervals;
      && NextInterval(iv, 30, Completed(0)) == 35
      && NextInterval(iv, 55, Completed(0)) == 60
      && NextInterval(iv, 60, Completed(0)) == 60
      && NextInterval(iv, 45, Completed(3)) == 15
      && NextInterval(iv, 15, Failed) == 60
  {
  }

  /** The loop state of a tick after some channels: stores, cursors, posts counted, and whether it raised. */
  datatype Pass = Pass(state: State, cursors: map<string, Option<DateTime>>, total: nat, failed: bool)

  /** One channel of the tick; after an exception the remaining channels are not visited. */
  function Poll(env: Env, clean: string -> string, fetch: string -> SourceResponse, now: int, p: Pass, channel: string): (q: Pass)
    requires channel in p.cursors
    ensures q.cursors.Keys == p.cursors.Keys
    ensures q.total >= p.total && (p.failed ==> q == p)
  {
    if p.failed then p
    else
      match Merge(Responses(fetch, channel))
      case LinkMissing => p.(failed := true)
      case NoFeed => p
      case Feed(entries) =>
        var r := ParseFeedSpec(env, clean, p.cursors[channel], now, p.state, entries);
        if r.1 > 0 then Pass(r.0, p.cursors[channel := Some(Utc(now))], p.total + r.1, false)
        else Pass(r.0, p.cursors, p.total, false)
  }

  /** The channels of the tick, in order. */
  function PollAll(env: Env, clean: string -> string, fetch: string -> SourceResponse, now: int, p: Pass, channels: seq<string>): (q: Pass)
    requires forall i :: 0 <= i < |channels| ==> channels[i] in p.cursors
    ensures q.cursors.Keys == p.cursors.Keys
    ensures q.total >= p.total
    decreases |channels|
  {
    if channels == [] then p
    else
      var mid := PollAll(env, clean, fetch, now, p, channels[..|channels| - 1]);
      Poll(env, clean, fetch, now, mid, channels[|channels| - 1])
  }

  /**
   * From `p` to `q` a cursor either stays or becomes the tick's start, and
   * it moves only when posts were counted in between.
   */
  predicate CursorsFollow(p: Pass, q: Pass, now: int) {
    && p.cursors.Keys <= q.cursors.Keys && p.total <= q.total
    && forall c :: c in p.cursors ==>
      (q.cursors[c] == p.cursors[c] || q.cursors[c] == Some(Utc(now)))
      && (q.cursors[c] != p.cursors[c] ==> q.total > p.total)
  }

  lemma CursorsFollowTrans(p: Pass, m: Pass, q: Pass, now: int)
    requires CursorsFollow(p, m, now) && CursorsFollow(m, q, now)
    ensures CursorsFollow(p, q, now)
  {
  }

  lemma PollCursors(env: Env, clean: string -> string, fetch: string -> SourceResponse, now: int, p: Pass, channel: string)
    requires channel in p.cursors
    ensures CursorsFollow(p, Poll(env, clean, fetch, now, p, channel), now)
  {
    var q := Poll(env, clean, fetch, now, p, channel);
    if !p.failed && Merge(Responses(fetch, channel)).Feed? {
      var entries := Merge(Responses(fetch, channel)).entries;
      var r := ParseFeedSpec(env, clean, p.cursors[channel], now, p.state, entries);
      if r.1 > 0 {
        FollowsByUpdate(p, q, now, channel);
        return;
      }
    }
    FollowsUnchanged(p, q, now);
  }

  lemma FollowsByUpdate(p: Pass, q: Pass, now: int, channel: string)
    requires q.cursors == p.cursors[channel := Some(Utc(now))] && q.total > p.total
    ensures CursorsFollow(p, q, now)
  {
  }

  lemma FollowsUnchanged(p: Pass, q: Pass, now: int)
    requires q.cursors == p.cursors && q.total >= p.total
    ensures CursorsFollow(p, q, now)
  {
  }

  /** Over a whole tick a cursor either stays or becomes the tick's start, and it moves only when posts were counted. */
  lemma {:induction false} CursorsMoveForward(env: Env, clean: string -> string, fetch: string -> SourceResponse, now: int, p: Pass, channels: seq<string>)
    requires forall i :: 0 <= i < |channels| ==> channels[i] in p.cursors
    ensures CursorsFollow(p, PollAll(env, clean, fetch, now, p, channels), now)
    decreases |channels|
  {
    if channels != [] {
      var init := channels[..|channels| - 1];
      assert forall i :: 0 <= i < |init| ==> init[i] == channels[i];
      CursorsMoveForward(env, clean, fetch, now, p, init);
      var mid := PollAll(env, clean, fetch, now, p, init);
      PollCursors(env, clean, fetch, now, mid, channels[|channels| - 1]);
      CursorsFollowTrans(p, mid, PollAll(env, clean, fetch, now, p, channels), now);
    }
  }

  lemma PollAllStep(env: Env, clean: string -> string, fetch: string -> SourceResponse, now: int, p: Pass, channels: seq<string>, i: nat)
    requires i < |channels|
    requires forall j :: 0 <= j < |channels| ==> channels[j] in p.cursors
    ensures PollAll(env, clean, fetch, now, p, channels[..i + 1])
      == Poll(env, clean, fetch, now, PollAll(env, clean, fetch, now, p, channels[..i]), channels[i])
  {
    assert channels[..i + 1][..i] == channels[..i];
  }

  /**
   * Polling `channel` touches only `channel`'s own cursor: the others stay,
   * and `last_check_times[channel]` moves exactly when the channel's own
   * posts were counted, to the tick's start.
   */
  lemma PollMovesOwnCursor(env: Env, clean: string -> string, fetch: string -> SourceResponse, now: int, p: Pass, channel: string)
    requires channel in p.cursors
    ensures var q := Poll(env, clean, fetch, now, p, channel);
      q.cursors == p.cursors[channel := q.cursors[channel]]
    ensures var q := Poll(env, clean, fetch, now, p, channel);
      q.cursors[channel] != p.cursors[channel] ==> q.total > p.total
    ensures var q := Poll(env, clean, fetch, now, p, channel);
      q.total > p.total ==> q.cursors[channel] == Some(Utc(now))
  {
  }

  /** A channel the tick does not poll keeps its cursor. */
  lemma {:induction false} UnpolledCursorsKept(env: Env, clean: string -> string, fetch: string -> SourceResponse, now: int, p: Pass, channels: seq<string>, c: string)
    requires forall i :: 0 <= i < |channels| ==> channels[i] in p.cursors
    requires c in p.cursors && c !in channels
    ensures PollAll(env, clean, fetch, now, p, channels).cursors[c] == p.cursors[c]
    decreases |channels|
  {
    if channels != [] {
      var init := channels[..|channels| - 1];
      assert forall i :: 0 <= i < |init| ==> init[i] == channels[i];
      UnpolledCursorsKept(env, clean, fetch, now, p, init, c);
      PollMovesOwnCursor(env, clean, fetch, now, PollAll(env, clean, fetch, now, p, init), channels[|channels| - 1]);
    }
  }

  /**
   * A channel whose poll counted posts ends the tick with its cursor at the
   * tick's start, whatever the channels polled after it did.
   */
  lemma ProductiveChannelCursorSet(env: Env, clean: string -> string, fetch: string -> SourceResponse, now: int, p: Pass, channels: seq<string>, i: nat)
    requires forall j :: 0 <= j < |channels| ==> channels[j] in p.cursors
    requires i < |channels|
    requires PollAll(env, clean, fetch, now, p, channels[..i + 1]).total > PollAll(env, clean, fetch, now, p, channels[..i]).total
    ensures PollAll(env, clean, fetch, now, p, channels).cursors[channels[i]] == Some(Utc(now))
  {
    CursorSetAfter(env, clean, fetch, now, p, channels, i, |channels|);
    assert channels[..|channels|] == channels;
  }

  /** The same after the first `n` channels of the tick, for any `n` past `i`. */
  lemma {:induction false} CursorSetAfter(env: Env, clean: string -> string, fetch: string -> SourceResponse, now: int, p: Pass, channels: seq<string>, i: nat, n: nat)
    requires forall j :: 0 <= j < |channels| ==> channels[j] in p.cursors
    requires i < n <= |channels|
    requires PollAll(env, clean, fetch, now, p, channels[..i + 1]).total > PollAll(env, clean, fetch, now, p, channels[..i]).total
    ensures PollAll(env, clean, fetch, now, p, channels[..n]).cursors[channels[i]] == Some(Utc(now))
    decreases n, 1
  {
    if i + 1 == n {
      ProductivePollSetsCursor(env, clean, fetch, now, p, channels, i);
    } else {
      CursorSetLater(env, clean, fetch, now, p, channels, i, n);
    }
  }

  /** The inductive step: the poll after the first `n - 1` channels keeps the cursor set. */
  lemma {:induction false} CursorSetLater(env: Env, clean: string -> string, fetch: string -> SourceResponse, now: int, p: Pass, channels: seq<string>, i: nat, n: nat)
    requires forall j :: 0 <= j < |channels| ==> channels[j] in p.cursors
    requires i + 1 < n <= |channels|
    requires PollAll(env, clean, fetch, now, p, channels[..i + 1]).total > PollAll(env, clean, fetch, now, p, channels[..i]).total
    ensures PollAll(env, clean, fetch, now, p, channels[..n]).cursors[channels[i]] == Some(Utc(now))
    decreases n, 0
  {
    var m := n - 1;
    CursorSetAfter(env, clean, fetch, now, p, channels, i, m);
    CursorStaysSet(env, clean, fetch, now, p, channels, m, channels[i]);
    assert channels[..m + 1] == channels[..n];
  }

  /** The poll that counted posts sets its channel's cursor to the tick's start. */
  lemma ProductivePollSetsCursor(env: Env, clean: string -> string, fetch: string -> SourceResponse, now: int, p: Pass, channels: seq<string>, i: nat)
    requires forall j :: 0 <= j < |channels| ==> channels[j] in p.cursors
    requires i < |channels|
    requires PollAll(env, clean, fetch, now, p, channels[..i + 1]).total > PollAll(env, clean, fetch, now, p, channels[..i]).total
    ensures PollAll(env, clean, fetch, now, p, channels[..i + 1]).cursors[channels[i]] == Some(Utc(now))
  {
    PollAllStep(env, clean, fetch, now, p, channels, i);
    PollMovesOwnCursor(env, clean, fetch, now, PollAll(env, clean, fetch, now, p, channels[..i]), channels[i]);
  }

  /** A cursor already at the tick's start stays there through the next poll. */
  lemma CursorStaysSet(env: Env, clean: string -> string, fetch: string -> SourceResponse, now: int, p: Pass, channels: seq<string>, m: nat, c: string)
    requires forall j :: 0 <= j < |channels| ==> channels[j] in p.cursors
    requires m < |channels| && c in p.cursors
    requires PollAll(env, clean, fetch, now, p, channels[..m]).cursors[c] == Some(Utc(now))
    ensures PollAll(env, clean, fetch, now, p, channels[..m + 1]).cursors[c] == Some(Utc(now))
  {
    var mid := PollAll(env, clean, fetch, now, p, channels[..m]);
    PollAllStep(env, clean, fetch, now, p, channels, m);
    PollMovesOwnCursor(env, clean, fetch, now, mid, channels[m]);
    CursorKept(mid, PollAll(env, clean, fetch, now, p, channels[..m + 1]), channels[m], c, now);
  }

  /** One poll's cursor discipline keeps a cursor that is already at the tick's start. */
  lemma CursorKept(mid: Pass, q: Pass, channel: string, c: string, now: int)
    requires c in mid.cursors && channel in mid.cursors && mid.cursors[c] == Some(Utc(now))
    requires channel in q.cursors && q.cursors == mid.cursors[channel := q.cursors[channel]]
    requires q.cursors[channel] != mid.cursors[channel] ==> q.total > mid.total
    requires q.total > mid.total ==> q.cursors[channel] == Some(Utc(now))
    ensures q.cursors[c] == Some(Utc(now))
  {
  }

  /** The polling loop's variables and the settings it reads. */
  class Poller {
    var interval: int
    var cursors: map<string, Option<DateTime>>
    const intervals: Intervals
    const channels: seq<string>

    /** Every configured channel has a cursor. */
    predicate Valid()
      reads this
    {
      forall i :: 0 <= i < |channels| ==> channels[i] in cursors
    }

    /** The start of `main`: the initial delay, and no cursor for any channel. */
    constructor (settings: Settings)
      ensures Valid()
      ensures intervals == settings.intervals && channels == settings.channels
      ensures interval == settings.intervals.initial
      ensures cursors.Keys == set i | 0 <= i < |channels| :: channels[i]
      ensures forall c :: c in cursors ==> cursors[c].None?
    {
      intervals := settings.intervals;
      channels := settings.channels;
      interval := settings.intervals.initial;
      cursors := map i | 0 <= i < |settings.channels| :: settings.channels[i] := None;
    }

    /** One channel of the tick: fetch, parse against its cursor, move the cursor on new posts. */
    method PollChannel(ing: Ingestor, fetch: string -> SourceResponse, now: int, channel: string, total: nat, failed: bool)
      returns (total': nat, failed': bool)
      requires channel in cursors
      modifies this, ing
      ensures interval == old(interval)
      ensures Pass(ing.Current(), cursors, total', failed')
        == Poll(ing.env, ing.clean, fetch, now, Pass(old(ing.Current()), old(cursors), total, failed), channel)
    {
      total', failed' := total, failed;
      if failed {
        return;
      }
      var feed := GetFeedData(fetch, channel);
      match feed {
        case LinkMissing =>
          failed' := true;
        case NoFeed =>
        case Feed(entries) =>
          var n := ing.ParseFeed(entries, cursors[channel], now);
          if n > 0 {
            cursors := cursors[channel := Some(Utc(now))];
            total' := total + n;
          }
      }
    }

    /** The channel loop of one tick. */
    method PollChannels(ing: Ingestor, fetch: string -> SourceResponse, now: int) returns (total: nat, failed: bool)
      requires Valid()
      modifies this, ing
      ensures Valid() && interval == old(interval)
      ensures Pass(ing.Current(), cursors, total, failed)
        == PollAll(ing.env, ing.clean, fetch, now, Pass(old(ing.Current()), old(cursors), 0, false), channels)
    {
      ghost var p0 := Pass(ing.Current(), cursors, 0, false);
      total, failed := 0, false;
      var i := 0;
      while i < |channels|
        invariant 0 <= i <= |channels|
        invariant cursors.Keys == p0.cursors.Keys && interval == old(interval)
        invariant Pass(ing.Current(), cursors, total, failed) == PollAll(ing.env, ing.clean, fetch, now, p0, channels[..i])
      {
        PollAllStep(ing.env, ing.clean, fetch, now, p0, channels, i);
        total, failed := PollChannel(ing, fetch, now, channels[i], total, failed);
        i := i + 1;
      }
      assert channels[..i] == channels;
    }

    /** One iteration of `while True` in `main`, without the sleep. */
    method Tick(ing: Ingestor, fetch: string -> SourceResponse, now: int) returns (total: nat)
      requires Valid()
      modifies this, ing
      ensures Valid()
      ensures var q := PollAll(ing.env, ing.clean, fetch, now, Pass(old(ing.Current()), old(cursors), 0, false), channels);
        && ing.Current() == q.state && cursors == q.cursors && total == q.total
        && interval == NextInterval(intervals, old(interval), if q.failed then Failed else Completed(q.total))
    {
      var failed;
      total, failed := PollChannels(ing, fetch, now);
      if failed {
        interval := intervals.max;
      } else if total > 0 {
        interval := intervals.min;
      } else {
        interval := if interval + intervals.increment < intervals.max then interval + intervals.increment else intervals.max;
      }
    }
  }
}
