/**
 * What the ingestion code takes from outside its own source: the regular
 * expression engine (for the user's configured patterns), the HTML entity
 * decoder, `strptime`, `str(datetime)`, `datetime.fromisoformat`, and the
 * per-channel GROUP BY query of the summary. Each is a parameter of the model;
 * none is interpreted.
 */
module Platform {
  import opened Wrappers

  /**
   * A `datetime`: the wall-clock reading, and the UTC offset for an aware
   * value (`None` for a naive one), both counted in one fixed unit of time
   * (Python's resolution is the microsecond). The model only compares
   * readings and subtracts offsets, so the unit itself is left abstract.
   */
  datatype DateTime = DateTime(wall: int, offset: Option<int>)

  /** An aware datetime in UTC, as `datetime.now(timezone.utc)` returns. */
  function Utc(wall: int): (d: DateTime)
    ensures d.offset == Some(0) && d.wall == wall
  {
    DateTime(wall, Some(0))
  }

  /**
   * The instant an aware datetime denotes, in the same unit; aware datetimes are
   * compared by this value in Python whatever their offsets.
   */
  function Instant(d: DateTime): int {
    d.wall - d.offset.GetOr(0)
  }

  /** The five `strptime` formats tried by the date parser, in their order. */
  datatype Format =
    | NamedZone       // '%a, %d %b %Y %H:%M:%S %Z'
    | NumericOffset   // '%a, %d %b %Y %H:%M:%S %z'
    | IsoFractionalZ  // '%Y-%m-%dT%H:%M:%S.%fZ'
    | IsoZ            // '%Y-%m-%dT%H:%M:%SZ'
    | SpaceSeparated  // '%Y-%m-%d %H:%M:%S'

  /** One stored post: a row of the `posts` table. */
  datatype Post = Post(postId: string, content: string, published: string, sourceUrl: string)

  datatype Env = Env(
    /** `re.sub(pattern, '', text)`; `None` when the pattern does not compile and `re.error` is raised. */
    regexRemove: (string, string) -> Option<string>,
    /** `html.unescape`. */
    unescape: string -> string,
    /** `datetime.strptime(text, format)`; `None` when it raises `ValueError`. */
    strptime: (string, Format) -> Option<DateTime>,
    /** `str(datetime)`, also what the database adapter stores. */
    render: DateTime -> string,
    /**
     * `datetime.fromisoformat(text)` with any zone dropped, as a count of
     * the `DateTime` unit after `datetime.min`; `None` when it raises.
     */
    fromIso: string -> Option<nat>,
    /** The channel/count rows of the summary's GROUP BY query over the stored posts. */
    channelStats: map<string, Post> -> seq<(string, nat)>
  )
}
