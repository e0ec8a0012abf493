/**
 * `parse_date` of the parser: the published date of a feed entry is tried
 * against five `strptime` formats in order, the first success wins, and the
 * clock reading is the fallback. `strptime` itself is a parameter.
 */
module Dates {
  import opened Wrappers
  import opened Strings
  import opened Platform

  const DateFormats: seq<Format> := [NamedZone, NumericOffset, IsoFractionalZ, IsoZ, SpaceSeparated]

  /**
   * "GMT" becomes "+0000" before the `%Z` format is tried: no "GMT" is left
   * for `strptime` to see, and text without one is untouched.
   */
  function RewriteGmt(s: string): (r: string)
    ensures !Contains(r, "GMT")
    ensures !Contains(s, "GMT") ==> r == s
  {
    if Contains(s, "GMT") then
      ReplaceAllRemoves(s, "GMT", "+0000");
      ReplaceAll(s, "GMT", "+0000")
    else s
  }

  /**
   * What a successful format yields: the `%Z` format forces UTC onto its
   * result, the others attach UTC to a naive result and keep an aware
   * result's own offset, without converting it.
   */
  function Attach(f: Format, p: DateTime): (d: DateTime)
    ensures d.offset.Some? && d.wall == p.wall
    ensures f != NamedZone && p.offset.Some? ==> d == p
  {
    if f == NamedZone || p.offset.None? then p.(offset := Some(0)) else p
  }

  /**
   * The format loop over `formats`. The rewrite made for the `%Z` format is
   * an assignment to the loop's text, so every later format sees it too.
   */
  function TryFormats(strptime: (string, Format) -> Option<DateTime>, s: string, formats: seq<Format>): (r: Option<DateTime>)
    ensures r.Some? ==> r.value.offset.Some?
    decreases |formats|
  {
    if formats == [] then None
    else
      var t := if formats[0] == NamedZone then RewriteGmt(s) else s;
      match strptime(t, formats[0])
      case Some(p) => Some(Attach(formats[0], p))
      case None => TryFormats(strptime, t, formats[1..])
  }

  /** `parse_date(raw)` with `now` the reading of `datetime.now(timezone.utc)`. */
  function ParseDate(strptime: (string, Format) -> Option<DateTime>, raw: string, now: int): (d: DateTime)
    ensures d.offset.Some?
  {
    match TryFormats(strptime, Strip(raw), DateFormats)
    case Some(d) => d
    case None => Utc(now)
  }

  /** The text every format is tried on. */
  function Candidate(raw: string): string {
    RewriteGmt(Strip(raw))
  }

  /** The loop once the `%Z` pass has rewritten the text to `c`, with the clock fallback. */
  function FromCandidate(strptime: (string, Format) -> Option<DateTime>, c: string, now: int): DateTime {
    match strptime(c, NamedZone)
    case Some(p) => Attach(NamedZone, p)
    case None =>
      match TryFormats(strptime, c, DateFormats[1..])
      case Some(d) => d
      case None => Utc(now)
  }

  /** The first pass of the loop, on the `%Z` format, rewrites the text for all later passes. */
  lemma ParseDateStep(strptime: (string, Format) -> Option<DateTime>, raw: string, now: int)
    ensures ParseDate(strptime, raw, now) == FromCandidate(strptime, Candidate(raw), now)
  {
    assert DateFormats[0] == NamedZone;
  }

  /** Without a `%Z` format the loop is a plain first-success scan over one text. */
  lemma {:induction false} TryFormatsFirst(strptime: (string, Format) -> Option<DateTime>, s: string, formats: seq<Format>, k: nat)
    requires NamedZone !in formats && k < |formats|
    requires strptime(s, formats[k]).Some?
    requires forall j :: 0 <= j < k ==> strptime(s, formats[j]).None?
    ensures TryFormats(strptime, s, formats) == Some(Attach(formats[k], strptime(s, formats[k]).value))
    decreases k
  {
    if k > 0 {
      assert formats[0] != NamedZone && strptime(s, formats[0]).None?;
      assert formats[1..][k - 1] == formats[k];
      TryFormatsFirst(strptime, s, formats[1..], k - 1);
    }
  }

  lemma {:induction false} TryFormatsNone(strptime: (string, Format) -> Option<DateTime>, s: string, formats: seq<Format>)
    requires NamedZone !in formats
    requires forall j :: 0 <= j < |formats| ==> strptime(s, formats[j]).None?
    ensures TryFormats(strptime, s, formats) == None
    decreases |formats|
  {
    if formats != [] {
      assert formats[0] != NamedZone && strptime(s, formats[0]).None?;
      TryFormatsNone(strptime, s, formats[1..]);
    }
  }

  /**
   * The first format that parses the (stripped, GMT-rewritten) text decides
   * the result.
   */
  lemma FirstSuccessWins(strptime: (string, Format) -> Option<DateTime>, raw: string, now: int, k: nat)
    requires k < |DateFormats|
    requires strptime(Candidate(raw), DateFormats[k]).Some?
    requires forall j :: 0 <= j < k ==> strptime(Candidate(raw), DateFormats[j]).None?
    ensures ParseDate(strptime, raw, now) == Attach(DateFormats[k], strptime(Candidate(raw), DateFormats[k]).value)
  {
    ParseDateStep(strptime, raw, now);
    CandidateFirst(strptime, Candidate(raw), now, k);
  }

  lemma CandidateFirst(strptime: (string, Format) -> Option<DateTime>, c: string, now: int, k: nat)
    requires k < |DateFormats|
    requires strptime(c, DateFormats[k]).Some?
    requires forall j :: 0 <= j < k ==> strptime(c, DateFormats[j]).None?
    ensures FromCandidate(strptime, c, now) == Attach(DateFormats[k], strptime(c, DateFormats[k]).value)
  {
    if k > 0 {
      assert strptime(c, DateFormats[0]).None?;
      assert DateFormats[1..][k - 1] == DateFormats[k];
      forall j | 0 <= j < k - 1 ensures strptime(c, DateFormats[1..][j]).None? {
        assert DateFormats[1..][j] == DateFormats[j + 1];
      }
      TryFormatsFirst(strptime, c, DateFormats[1..], k - 1);
    }
  }

  /** When no format parses the text, the clock reading is returned, in UTC. */
  lemma AllFailGivesNow(strptime: (string, Format) -> Option<DateTime>, raw: string, now: int)
    requires forall j :: 0 <= j < |DateFormats| ==> strptime(Candidate(raw), DateFormats[j]).None?
    ensures ParseDate(strptime, raw, now) == Utc(now)
  {
    ParseDateStep(strptime, raw, now);
    CandidateNone(strptime, Candidate(raw), now);
  }

  lemma CandidateNone(strptime: (string, Format) -> Option<DateTime>, c: string, now: int)
    requires forall j :: 0 <= j < |DateFormats| ==> strptime(c, DateFormats[j]).None?
    ensures FromCandidate(strptime, c, now) == Utc(now)
  {
    assert strptime(c, DateFormats[0]).None?;
    forall j | 0 <= j < |DateFormats[1..]| ensures strptime(c, DateFormats[1..][j]).None? {
      assert DateFormats[1..][j] == DateFormats[j + 1];
    }
    TryFormatsNone(strptime, c, DateFormats[1..]);
  }

  /**
   * A date carrying a numeric offset keeps that offset and its wall-clock
   * reading: it is not converted to UTC.
   */
  lemma NumericOffsetKept(strptime: (string, Format) -> Option<DateTime>, raw: string, now: int, wall: int, offset: int)
    requires strptime(Candidate(raw), NamedZone).None?
    requires strptime(Candidate(raw), NumericOffset) == Some(DateTime(wall, Some(offset)))
    ensures ParseDate(strptime, raw, now) == DateTime(wall, Some(offset))
  {
    ParseDateStep(strptime, raw, now);
    CandidateFirst(strptime, Candidate(raw), now, 1);
  }
}
