/**
 * The Python string operations the ingestion code relies on, defined with
 * Python's semantics: `str.isspace`, `in`, `str.find`, `str.replace`,
 * `str.split`, `str.strip`, `str.splitlines`, `str.join`, plus the two fixed
 * regular expressions of the text normaliser (`<[^<]+?>` removed, and
 * `\n\s*\n` replaced by a single blank line).
 */
module Strings {
  import opened Wrappers

  /** Python's `str.isspace()` for one character. */
  predicate IsSpace(c: char) {
    || ('\t' <= c <= '\r')
    || ('\U{1c}' <= c <= '\U{1f}')
    || c == ' ' || c == '\U{85}' || c == '\U{a0}' || c == '\U{1680}'
    || ('\U{2000}' <= c <= '\U{200a}')
    || c == '\U{2028}' || c == '\U{2029}' || c == '\U{202f}' || c == '\U{205f}' || c == '\U{3000}'
  }

  /** The line boundaries recognised by Python's `str.splitlines()`. */
  predicate IsLineBreak(c: char) {
    || ('\n' <= c <= '\r')
    || ('\U{1c}' <= c <= '\U{1e}')
    || c == '\U{85}' || c == '\U{2028}' || c == '\U{2029}'
  }

  predicate NoLineBreak(s: string) {
    forall i :: 0 <= i < |s| ==> !IsLineBreak(s[i])
  }

  /** No leading and no trailing whitespace: a fixed point of `str.strip()`. */
  predicate IsStripped(s: string) {
    s == [] || (!IsSpace(s[0]) && !IsSpace(s[|s| - 1]))
  }

  // ---------------------------------------------------------------------
  // Substring search

  /** Python's `s.startswith(p)`. */
  predicate StartsWith(s: string, p: string) {
    |p| <= |s| && s[..|p|] == p
  }

  /** Python's `s.endswith(p)`. */
  predicate EndsWith(s: string, p: string) {
    |p| <= |s| && s[|s| - |p|..] == p
  }

  /** Python's `p in s` (true for the empty `p`). */
  predicate Contains(s: string, p: string)
    decreases |s|
  {
    StartsWith(s, p) || (s != [] && Contains(s[1..], p))
  }

  lemma {:induction false} ContainsAt(s: string, p: string, i: nat)
    requires i <= |s| && StartsWith(s[i..], p)
    ensures Contains(s, p)
    decreases i
  {
    if i > 0 {
      assert s[1..][i - 1..] == s[i..];
      ContainsAt(s[1..], p, i - 1);
    }
  }

  lemma {:induction false} ContainsWitness(s: string, p: string) returns (i: nat)
    requires Contains(s, p)
    ensures i <= |s| && StartsWith(s[i..], p)
    decreases |s|
  {
    if StartsWith(s, p) {
      i := 0;
    } else {
      var j := ContainsWitness(s[1..], p);
      assert s[1..][j..] == s[j + 1..];
      i := j + 1;
    }
  }

  /** An occurrence inside a slice is an occurrence in the whole string. */
  lemma ContainsInSlice(s: string, p: string, lo: nat, hi: nat)
    requires lo <= hi <= |s| && Contains(s[lo..hi], p)
    ensures Contains(s, p)
  {
    var j := ContainsWitness(s[lo..hi], p);
    assert s[lo..hi][j..] == s[lo + j..hi];
    assert s[lo + j..hi][..|p|] == s[lo + j..][..|p|];
    ContainsAt(s, p, lo + j);
  }

  /** Python's `s.find(p)` for a non-empty `p`: the first index where `p` starts. */
  function Find(s: string, p: string): (r: Option<nat>)
    requires p != []
    ensures r.Some? ==> r.value + |p| <= |s|
    decreases |s|
  {
    if StartsWith(s, p) then Some(0)
    else if s == [] then None
    else
      match Find(s[1..], p)
      case None => None
      case Some(i) => Some(i + 1)
  }

  /** Where `Find` reports an index, `p` does start there. */
  lemma {:induction false} FindOccurs(s: string, p: string)
    requires p != [] && Find(s, p).Some?
    ensures StartsWith(s[Find(s, p).value..], p)
    decreases |s|
  {
    if !StartsWith(s, p) {
      FindOccurs(s[1..], p);
      assert s[1..][Find(s[1..], p).value..] == s[Find(s, p).value..];
    }
  }

  /** `Find` fails exactly when `p` does not occur. */
  lemma {:induction false} FindContains(s: string, p: string)
    requires p != []
    ensures Find(s, p).Some? <==> Contains(s, p)
    decreases |s|
  {
    if !StartsWith(s, p) && s != [] {
      FindContains(s[1..], p);
    }
  }

  /** `Find` reports the first occurrence: `p` starts at no earlier index. */
  lemma {:induction false} FindIsFirst(s: string, p: string)
    requires p != [] && Find(s, p).Some?
    ensures forall j :: 0 <= j < Find(s, p).value ==> !(StartsWith(s[j..], p))
    decreases |s|
  {
    if !(StartsWith(s, p)) {
      FindIsFirst(s[1..], p);
      forall j | 1 <= j < Find(s, p).value ensures !(StartsWith(s[j..], p)) {
        assert s[j..] == s[1..][j - 1..];
      }
    }
  }

  /** A prefix that ends before the first occurrence of `p` does not contain `p`. */
  lemma PrefixBeforeFirst(s: string, p: string, k: nat)
    requires p != [] && k <= |s|
    requires forall j :: 0 <= j < k ==> !(StartsWith(s[j..], p))
    ensures !Contains(s[..k], p)
  {
    forall j | 0 <= j <= k ensures !(StartsWith(s[..k][j..], p)) {
      assert s[..k][j..] == s[j..k];
      if j < k && |p| <= k - j {
        assert s[j..k][..|p|] == s[j..][..|p|];
      }
    }
    NotContains(s[..k], p);
  }

  /** No occurrence at any position means no occurrence. */
  lemma {:induction false} NotContains(s: string, p: string)
    requires forall j :: 0 <= j <= |s| ==> !(StartsWith(s[j..], p))
    ensures !Contains(s, p)
    decreases |s|
  {
    assert s[0..] == s;
    if s != [] {
      forall j | 0 <= j <= |s[1..]| ensures !(StartsWith(s[1..][j..], p)) {
        assert s[1..][j..] == s[j + 1..];
      }
      NotContains(s[1..], p);
    }
  }

  // ---------------------------------------------------------------------
  // split / join

  /** Python's `s.split(sep)` for a non-empty separator. */
  function Split(s: string, sep: string): (r: seq<string>)
    requires sep != []
    ensures |r| >= 1
    decreases |s|
  {
    match Find(s, sep)
    case None => [s]
    case Some(i) => [s[..i]] + Split(s[i + |sep|..], sep)
  }

  /** No piece of a split holds the separator. */
  lemma {:induction false} SplitPiecesClean(s: string, sep: string)
    requires sep != []
    ensures forall i :: 0 <= i < |Split(s, sep)| ==> !Contains(Split(s, sep)[i], sep)
    decreases |s|
  {
    match Find(s, sep)
    case None =>
      FindContains(s, sep);
    case Some(i) =>
      FindIsFirst(s, sep);
      PrefixBeforeFirst(s, sep, i);
      SplitPiecesClean(s[i + |sep|..], sep);
  }

  /** Python's `sep.join(xs)`. */
  function Join(xs: seq<string>, sep: string): string {
    if xs == [] then []
    else if |xs| == 1 then xs[0]
    else xs[0] + sep + Join(xs[1..], sep)
  }

  /** Splitting and joining back with the same separator gives the string back. */
  lemma {:induction false} JoinSplit(s: string, sep: string)
    requires sep != []
    ensures Join(Split(s, sep), sep) == s
    decreases |s|
  {
    match Find(s, sep)
    case None =>
    case Some(i) =>
      var rest := Split(s[i + |sep|..], sep);
      JoinSplit(s[i + |sep|..], sep);
      assert Split(s, sep) == [s[..i]] + rest;
      FindOccurs(s, sep);
      SeparatorThenRest(s, i, sep);
  }

  /** `s.split(sep)[-1]`: what follows the last occurrence of `sep` (all of `s` if none). */
  function AfterLast(s: string, sep: string): string
    requires sep != []
    decreases |s|
  {
    match Find(s, sep)
    case None => s
    case Some(i) => AfterLast(s[i + |sep|..], sep)
  }

  /** `AfterLast` is indeed the last piece of the split. */
  lemma {:induction false} AfterLastIsLastPiece(s: string, sep: string)
    requires sep != []
    ensures AfterLast(s, sep) == Split(s, sep)[|Split(s, sep)| - 1]
    decreases |s|
  {
    match Find(s, sep)
    case None =>
      assert Split(s, sep) == [s];
    case Some(i) =>
      var t := s[i + |sep|..];
      AfterLastIsLastPiece(t, sep);
      LastPieceStep(s, sep, i);
  }

  /** Past a first occurrence of `sep`, the last piece is that of the rest. */
  lemma LastPieceStep(s: string, sep: string, i: nat)
    requires sep != [] && Find(s, sep) == Some(i)
    ensures var t := s[i + |sep|..];
      Split(s, sep)[|Split(s, sep)| - 1] == Split(t, sep)[|Split(t, sep)| - 1]
  {
  }

  /** What follows the last separator holds no separator. */
  lemma {:induction false} AfterLastNoSeparator(s: string, sep: string)
    requires sep != []
    ensures !Contains(AfterLast(s, sep), sep)
    decreases |s|
  {
    match Find(s, sep)
    case None => FindContains(s, sep);
    case Some(i) => AfterLastNoSeparator(s[i + |sep|..], sep);
  }

  /** What follows the last separator is a suffix of `s`. */
  lemma {:induction false} AfterLastSuffix(s: string, sep: string)
    requires sep != []
    ensures EndsWith(s, AfterLast(s, sep))
    decreases |s|
  {
    match Find(s, sep)
    case None =>
      assert s[0..] == s;
    case Some(i) =>
      var t := s[i + |sep|..];
      AfterLastSuffix(t, sep);
      TailAfter(s, i, sep);
      EndsWithTrans(s, t, AfterLast(t, sep));
  }

  /** Unless it is all of `s`, what follows the last separator comes right after one. */
  lemma {:induction false} AfterLastFollowsSeparator(s: string, sep: string)
    requires sep != []
    ensures var r := AfterLast(s, sep); r == s || EndsWith(s, sep + r)
    decreases |s|
  {
    match Find(s, sep)
    case None =>
    case Some(i) =>
      var t := s[i + |sep|..];
      AfterLastFollowsSeparator(t, sep);
      var r := AfterLast(t, sep);
      FindOccurs(s, sep);
      SeparatorThenRest(s, i, sep);
      if r != t {
        TailAfter(s, i, sep);
        EndsWithTrans(s, t, sep + r);
      }
  }

  lemma SeparatorThenRest(s: string, i: nat, sep: string)
    requires i + |sep| <= |s| && StartsWith(s[i..], sep)
    ensures EndsWith(s, sep + s[i + |sep|..])
    ensures s == s[..i] + sep + s[i + |sep|..]
  {
    assert s[i..] == sep + s[i + |sep|..];
    assert s == s[..i] + s[i..];
  }

  lemma TailAfter(s: string, i: nat, sep: string)
    requires i + |sep| <= |s|
    ensures EndsWith(s, s[i + |sep|..])
  {
  }

  lemma EndsWithTrans(s: string, t: string, r: string)
    requires EndsWith(s, t) && EndsWith(t, r)
    ensures EndsWith(s, r)
  {
    assert t[|t| - |r|..] == s[|s| - |r|..];
  }

  lemma SplitStep(s: string, sep: string)
    requires sep != [] && Find(s, sep).Some?
    ensures var i := Find(s, sep).value; Split(s, sep) == [s[..i]] + Split(s[i + |sep|..], sep)
  {
  }

  /** `s.split(sep)[0]`: what precedes the first occurrence of `sep` (all of `s` if none). */
  function BeforeFirst(s: string, sep: string): string
    requires sep != []
  {
    match Find(s, sep)
    case None => s
    case Some(i) => s[..i]
  }

  /** What precedes the first separator is a prefix of `s`, holds no separator, and is the first piece of the split. */
  lemma BeforeFirstPrefix(s: string, sep: string)
    requires sep != []
    ensures StartsWith(s, BeforeFirst(s, sep))
    ensures !Contains(BeforeFirst(s, sep), sep)
    ensures BeforeFirst(s, sep) == Split(s, sep)[0]
  {
    SplitPiecesClean(s, sep);
    match Find(s, sep)
    case None =>
      FindContains(s, sep);
      assert s[..|s|] == s;
    case Some(i) =>
      assert Split(s, sep)[0] == s[..i];
  }

  // replace

  /** Python's `s.replace(pat, with)` for a non-empty `pat`: left to right, non-overlapping. */
  function ReplaceAll(s: string, pat: string, with: string): (r: string)
    requires pat != []
    ensures !Contains(s, pat) ==> r == s
    decreases |s|
  {
    if s == [] then []
    else if StartsWith(s, pat) then with + ReplaceAll(s[|pat|..], pat, with)
    else [s[0]] + ReplaceAll(s[1..], pat, with)
  }

  /** `s.replace(phrase, '')`; an empty phrase leaves `s` as it is, as in Python. */
  function RemoveAll(s: string, phrase: string): (r: string)
    ensures |r| <= |s|
    ensures !Contains(s, phrase) ==> r == s
  {
    if phrase == [] then s else RemoveShrinks(s, phrase); ReplaceAll(s, phrase, [])
  }

  lemma {:induction false} RemoveShrinks(s: string, phrase: string)
    requires phrase != []
    ensures |ReplaceAll(s, phrase, [])| <= |s|
    decreases |s|
  {
    if s == [] {
    } else if StartsWith(s, phrase) {
      RemoveShrinks(s[|phrase|..], phrase);
    } else {
      RemoveShrinks(s[1..], phrase);
    }
  }

  /** `replace` copies the text up to the first occurrence, then the replacement, then works on the rest. */
  lemma {:induction false} ReplaceAllAtFind(s: string, pat: string, with: string)
    requires pat != [] && Find(s, pat).Some?
    ensures var i := Find(s, pat).value;
      ReplaceAll(s, pat, with) == s[..i] + with + ReplaceAll(s[i + |pat|..], pat, with)
    decreases |s|
  {
    if StartsWith(s, pat) {
      assert s[..0] + with == with;
    } else {
      var t := s[1..];
      var i := Find(s, pat).value;
      assert Find(t, pat) == Some(i - 1);
      assert ReplaceAll(s, pat, with) == [s[0]] + ReplaceAll(t, pat, with);
      ReplaceAllAtFind(t, pat, with);
      assert t[i - 1 + |pat|..] == s[i + |pat|..];
      ConsBeforeFind(s, i, with, ReplaceAll(s[i + |pat|..], pat, with));
    }
  }

  lemma ConsBeforeFind(s: string, i: nat, w: string, rest: string)
    requires 1 <= i <= |s|
    ensures [s[0]] + (s[1..][..i - 1] + w + rest) == s[..i] + w + rest
  {
    assert [s[0]] + s[1..][..i - 1] == s[..i];
  }

  /** An occurrence of `p` that overlaps the piece `w` shares a character with it. */
  lemma OverlapShares(a: string, w: string, b: string, p: string, k: nat)
    requires k + |p| <= |a + w + b| && (a + w + b)[k..k + |p|] == p
    requires p != [] && w != [] && k < |a| + |w| && |a| < k + |p|
    ensures exists m :: 0 <= m < |w| && w[m] in p
  {
    var t := a + w + b;
    var j := if k < |a| then |a| else k;
    assert t[j] == w[j - |a|];
    assert t[k..k + |p|][j - k] == t[j];
    assert w[j - |a|] == p[j - k];
  }

  /** An occurrence of `p` cannot overlap a piece made of characters foreign to `p`. */
  lemma ContainsAroundForeign(a: string, w: string, b: string, p: string)
    requires p != [] && w != [] && forall m :: 0 <= m < |w| ==> w[m] !in p
    requires Contains(a + w + b, p)
    ensures Contains(a, p) || Contains(b, p)
  {
    var t := a + w + b;
    var k := ContainsWitness(t, p);
    assert t[k..][..|p|] == t[k..k + |p|];
    if k + |p| <= |a| {
      assert a[k..][..|p|] == t[k..][..|p|];
      ContainsAt(a, p, k);
    } else if k >= |a| + |w| {
      assert b[k - |a| - |w|..] == t[k..];
      ContainsAt(b, p, k - |a| - |w|);
    } else {
      OverlapShares(a, w, b, p, k);
    }
  }

  /** Replacing `pat` by text foreign to it leaves no occurrence of `pat`. */
  lemma {:induction false} ReplaceAllRemoves(s: string, pat: string, with: string)
    requires pat != [] && with != [] && forall m :: 0 <= m < |with| ==> with[m] !in pat
    ensures !Contains(ReplaceAll(s, pat, with), pat)
    decreases |s|
  {
    FindContains(s, pat);
    if Contains(s, pat) {
      var i := Find(s, pat).value;
      var rest := s[i + |pat|..];
      ReplaceAllAtFind(s, pat, with);
      FindIsFirst(s, pat);
      PrefixBeforeFirst(s, pat, i);
      ReplaceAllRemoves(rest, pat, with);
      if Contains(ReplaceAll(s, pat, with), pat) {
        ContainsAroundForeign(s[..i], with, ReplaceAll(rest, pat, with), pat);
      }
    }
  }

  // ---------------------------------------------------------------------
  // strip

  /** The first index from `k` on that does not hold whitespace (`|s|` if none). */
  function SpaceEnd(s: string, k: nat): (i: nat)
    requires k <= |s|
    ensures k <= i <= |s|
    ensures forall j :: k <= j < i ==> IsSpace(s[j])
    ensures i < |s| ==> !IsSpace(s[i])
    decreases |s| - k
  {
    if k == |s| || !IsSpace(s[k]) then k else SpaceEnd(s, k + 1)
  }

  /** The start of the whitespace run that ends at `k` (`k` itself if there is none). */
  function SpaceStart(s: string, k: nat): (i: nat)
    requires k <= |s|
    ensures i <= k
    ensures forall j :: i <= j < k ==> IsSpace(s[j])
    ensures i > 0 ==> !IsSpace(s[i - 1])
    decreases k
  {
    if k == 0 || !IsSpace(s[k - 1]) then k else SpaceStart(s, k - 1)
  }

  /** Python's `s.lstrip()`. */
  function LStrip(s: string): (r: string)
    ensures |r| <= |s| && r == s[|s| - |r|..]
    ensures forall i :: 0 <= i < |s| - |r| ==> IsSpace(s[i])
    ensures r == [] || !IsSpace(r[0])
  {
    s[SpaceEnd(s, 0)..]
  }

  /** Python's `s.rstrip()`. */
  function RStrip(s: string): (r: string)
    ensures |r| <= |s| && r == s[..|r|]
    ensures forall i :: |r| <= i < |s| ==> IsSpace(s[i])
    ensures r == [] || !IsSpace(r[|r| - 1])
  {
    s[..SpaceStart(s, |s|)]
  }

  /** Python's `s.strip()`: removes exactly the leading and trailing whitespace. */
  function Strip(s: string): (r: string)
    ensures IsStripped(r)
    ensures |r| <= |s|
  {
    RStrip(LStrip(s))
  }

  /** `strip()` keeps a contiguous piece, and empties exactly the all-whitespace strings. */
  lemma StripBounds(s: string)
    ensures var r := Strip(s);
      && (exists lo :: 0 <= lo <= |s| && r <= s[lo..])
      && (r == [] <==> forall i :: 0 <= i < |s| ==> IsSpace(s[i]))
  {
    var l := LStrip(s);
    var r := RStrip(l);
    var lo := |s| - |l|;
    assert r <= s[lo..];
    assert r == [] ==> l == [];
  }

  /** A string that is already stripped is left unchanged by `strip()`. */
  lemma StripStripped(s: string)
    requires IsStripped(s)
    ensures Strip(s) == s
  {
    if s != [] {
      assert SpaceEnd(s, 0) == 0 && s[0..] == s;
      assert SpaceStart(s, |s|) == |s| && s[..|s|] == s;
    }
  }

  /** `strip()` keeps a contiguous piece: `s` contains its stripped form. */
  lemma StripInside(s: string)
    ensures Contains(s, Strip(s))
  {
    var l := LStrip(s);
    var r := Strip(s);
    var lo := |s| - |l|;
    assert s[lo..] == l;
    assert StartsWith(s[lo..], r);
    ContainsAt(s, r, lo);
  }

  /** Stripping a line keeps it free of line boundaries. */
  lemma StripNoLineBreak(s: string)
    requires NoLineBreak(s)
    ensures NoLineBreak(Strip(s))
  {
    var l := LStrip(s);
    SliceNoLineBreak(s, |s| - |l|, |s|);
    SliceNoLineBreak(l, 0, |RStrip(l)|);
  }

  lemma SliceNoLineBreak(s: string, lo: nat, hi: nat)
    requires lo <= hi <= |s| && NoLineBreak(s)
    ensures NoLineBreak(s[lo..hi])
  {
    forall i | 0 <= i < hi - lo ensures !IsLineBreak(s[lo..hi][i]) {
      assert s[lo..hi][i] == s[lo + i];
    }
  }

  // ---------------------------------------------------------------------
  // splitlines

  /** The first line boundary at or after `k`, or `|s|` when there is none. */
  function LineEnd(s: string, k: nat): (i: nat)
    requires k <= |s|
    ensures k <= i <= |s|
    ensures i < |s| ==> IsLineBreak(s[i])
    ensures forall j :: k <= j < i ==> !IsLineBreak(s[j])
    decreases |s| - k
  {
    if k == |s| || IsLineBreak(s[k]) then k else LineEnd(s, k + 1)
  }

  /**
   * Python's `s.splitlines()`: cuts at every line boundary, "\r\n" counting as
   * one, and yields no final empty line for a trailing boundary.
   */
  function SplitLines(s: string): (r: seq<string>)
    ensures forall i :: 0 <= i < |r| ==> NoLineBreak(r[i])
    decreases |s|
  {
    if s == [] then []
    else
      var i := LineEnd(s, 0);
      if i == |s| then [s]
      else
        var next := if s[i] == '\r' && i + 1 < |s| && s[i + 1] == '\n' then i + 2 else i + 1;
        [s[..i]] + SplitLines(s[next..])
  }

  lemma {:induction false} JoinHead(xs: seq<string>, sep: string)
    requires xs != [] && xs[0] != []
    ensures Join(xs, sep) != [] && Join(xs, sep)[0] == xs[0][0]
  {
  }

  lemma {:induction false} JoinTail(xs: seq<string>, sep: string)
    requires xs != [] && xs[|xs| - 1] != []
    ensures Join(xs, sep) != []
    ensures Join(xs, sep)[|Join(xs, sep)| - 1] == xs[|xs| - 1][|xs[|xs| - 1]| - 1]
    decreases |xs|
  {
    if |xs| > 1 {
      JoinTail(xs[1..], sep);
    }
  }

  /** Non-empty lines without line boundaries, joined by "\n", split back into themselves. */
  lemma {:induction false} SplitLinesJoin(xs: seq<string>)
    requires forall i :: 0 <= i < |xs| ==> xs[i] != [] && NoLineBreak(xs[i])
    ensures SplitLines(Join(xs, "\n")) == xs
    decreases |xs|
  {
    if xs == [] {
    } else if |xs| == 1 {
      assert LineEnd(xs[0], 0) == |xs[0]|;
    } else {
      var t := Join(xs, "\n");
      var x := xs[0];
      assert t == x + "\n" + Join(xs[1..], "\n");
      assert forall j :: 0 <= j < |x| ==> t[j] == x[j];
      assert t[|x|] == '\n';
      LineEndSkips(t, 0, |x|);
      assert t[..|x|] == x;
      assert t[|x| + 1..] == Join(xs[1..], "\n");
      SplitLinesJoin(xs[1..]);
      assert SplitLines(t) == [x] + SplitLines(t[|x| + 1..]);
    }
  }

  lemma {:induction false} LineEndSkips(s: string, k: nat, n: nat)
    requires k <= n < |s| && IsLineBreak(s[n])
    requires forall j :: k <= j < n ==> !IsLineBreak(s[j])
    ensures LineEnd(s, k) == n
    decreases n - k
  {
    if k < n {
      LineEndSkips(s, k + 1, n);
    }
  }

  // ---------------------------------------------------------------------
  // re.sub('<[^<]+?>', '', s)

  /**
   * Lazy search for the end of a tag that opened at index 0: the first `j`
   * from `from` on with `s[j] == '>'`, failing when a '<' comes first.
   */
  function TagClose(s: string, from: nat): (j: Option<nat>)
    requires 2 <= from <= |s|
    ensures j.Some? ==> from <= j.value < |s| && s[j.value] == '>'
    decreases |s| - from
  {
    if from == |s| || s[from] == '<' then None
    else if s[from] == '>' then Some(from)
    else TagClose(s, from + 1)
  }

  /**
   * The lazy `+?` stops at the first '>': no '<' and no '>' lies between
   * `from` and the match, and when there is no match every '>' from `from`
   * on is preceded by a '<' after `from`.
   */
  lemma {:induction false} TagCloseFirst(s: string, from: nat)
    requires 2 <= from <= |s|
    ensures TagClose(s, from).Some? ==> forall i :: from <= i < TagClose(s, from).value ==> s[i] != '>' && s[i] != '<'
    ensures TagClose(s, from).None? ==> forall i :: from <= i < |s| && s[i] == '>' ==> '<' in s[from..i]
    decreases |s| - from
  {
    if from == |s| {
    } else if s[from] == '<' {
      forall i | from <= i < |s| && s[i] == '>' ensures '<' in s[from..i] {
        assert s[from..i][0] == '<';
      }
    } else if s[from] != '>' {
      TagCloseFirst(s, from + 1);
      if TagClose(s, from).None? {
        forall i | from <= i < |s| && s[i] == '>' ensures '<' in s[from..i] {
          assert s[from + 1..i] == s[from..i][1..];
        }
      }
    }
  }

  /**
   * Python's `re.sub('<[^<]+?>', '', s)`: from left to right, a '<' followed
   * by at least one character other than '<' and then, lazily, the first '>'
   * is deleted; a '<' that starts no such match is kept.
   */
  function StripTags(s: string): (r: string)
    ensures |r| <= |s|
    ensures '<' !in s ==> r == s
    decreases |s|
  {
    if s == [] then []
    else if s[0] == '<' && |s| >= 2 && s[1] != '<' then
      match TagClose(s, 2)
      case Some(j) => StripTags(s[j + 1..])
      case None => [s[0]] + StripTags(s[1..])
    else [s[0]] + StripTags(s[1..])
  }

  // ---------------------------------------------------------------------
  // re.sub(r'\n\s*\n', '\n\n', s)

  /**
   * Within the leading whitespace run of `u`, the last index holding "\n"
   * (where a greedy `\s*\n` ends after backtracking), if any.
   */
  function LastNewlineInRun(u: string): (k: Option<nat>)
    ensures k.Some? ==> k.value < |u| && u[k.value] == '\n'
    ensures u == [] || !IsSpace(u[0]) ==> k.None?
  {
    if u == [] || !IsSpace(u[0]) then None
    else
      match LastNewlineInRun(u[1..])
      case Some(k) => Some(k + 1)
      case None => if u[0] == '\n' then Some(0) else None
  }

  /** The first `n` characters of `u` are whitespace. */
  predicate SpaceRun(u: string, n: nat) {
    n <= |u| && forall m :: 0 <= m < n ==> IsSpace(u[m])
  }

  /**
   * The index found ends a whitespace stretch from the start of `u`, and
   * every "\n" inside the leading whitespace run lies at or before it.
   */
  lemma {:induction false} LastNewlineInRunIsLast(u: string)
    ensures LastNewlineInRun(u).Some? ==> SpaceRun(u, LastNewlineInRun(u).value + 1)
    ensures forall i :: 0 <= i < |u| && SpaceRun(u, i) && u[i] == '\n' ==>
      LastNewlineInRun(u).Some? && i <= LastNewlineInRun(u).value
    decreases |u|
  {
    if u != [] && IsSpace(u[0]) {
      var t := u[1..];
      LastNewlineInRunIsLast(t);
      forall i | 1 <= i <= |u| && SpaceRun(u, i) ensures SpaceRun(t, i - 1) {
        forall m | 0 <= m < i - 1 ensures IsSpace(t[m]) {
          assert t[m] == u[m + 1];
        }
      }
      if LastNewlineInRun(t).Some? {
        var k := LastNewlineInRun(t).value;
        forall m | 0 <= m < k + 2 ensures IsSpace(u[m]) {
          if m > 0 {
            assert u[m] == t[m - 1];
          }
        }
      }
      forall i | 0 <= i < |u| && SpaceRun(u, i) && u[i] == '\n'
        ensures LastNewlineInRun(u).Some? && i <= LastNewlineInRun(u).value
      {
        if i > 0 {
          assert t[i - 1] == u[i];
        }
      }
    }
  }

  /**
   * Python's `re.sub(r'\n\s*\n', '\n\n', t)`: every "\n", whitespace, "\n"
   * stretch (the longest one starting at that "\n") becomes one blank line.
   */
  function CollapseBlankRuns(t: string): string
    decreases |t|
  {
    if t == [] then []
    else if t[0] == '\n' then
      match LastNewlineInRun(t[1..])
      case Some(k) => "\n\n" + CollapseBlankRuns(t[k + 2..])
      case None => "\n" + CollapseBlankRuns(t[1..])
    else [t[0]] + CollapseBlankRuns(t[1..])
  }

  lemma {:induction false} CollapseSkipsPlain(a: string, b: string)
    requires NoLineBreak(a)
    ensures CollapseBlankRuns(a + b) == a + CollapseBlankRuns(b)
    decreases |a|
  {
    if a != [] {
      var t := a + b;
      assert !IsLineBreak(a[0]);
      CollapsePlainHead(t);
      assert t[1..] == a[1..] + b;
      SliceNoLineBreak(a, 1, |a|);
      CollapseSkipsPlain(a[1..], b);
      assert [a[0]] + a[1..] == a;
    } else {
      assert a + b == b;
    }
  }

  lemma CollapsePlainHead(t: string)
    requires t != [] && t[0] != '\n'
    ensures CollapseBlankRuns(t) == [t[0]] + CollapseBlankRuns(t[1..])
  {
  }

  /**
   * Non-empty stripped lines without line boundaries, joined by "\n", hold no
   * blank-line stretch: the collapse leaves them as they are.
   */
  lemma {:induction false} CollapseJoinedLines(xs: seq<string>)
    requires forall i :: 0 <= i < |xs| ==> xs[i] != [] && IsStripped(xs[i]) && NoLineBreak(xs[i])
    ensures CollapseBlankRuns(Join(xs, "\n")) == Join(xs, "\n")
    decreases |xs|
  {
    if xs == [] {
    } else if |xs| == 1 {
      CollapseSkipsPlain(xs[0], []);
      assert xs[0] + [] == xs[0];
    } else {
      var rest := Join(xs[1..], "\n");
      assert Join(xs, "\n") == xs[0] + ("\n" + rest);
      CollapseSkipsPlain(xs[0], "\n" + rest);
      JoinHead(xs[1..], "\n");
      assert ("\n" + rest)[1..] == rest;
      CollapseJoinedLines(xs[1..]);
    }
  }

  /** Non-empty stripped lines joined by "\n" have no outer whitespace. */
  lemma JoinedLinesStripped(xs: seq<string>)
    requires forall i :: 0 <= i < |xs| ==> xs[i] != [] && IsStripped(xs[i])
    ensures IsStripped(Join(xs, "\n"))
  {
    if xs != [] {
      JoinHead(xs, "\n");
      JoinTail(xs, "\n");
    }
  }

  // ---------------------------------------------------------------------
  // str(n)

  /** Python's `str(n)` for a non-negative integer. */
  function NatToString(n: nat): (r: string)
    ensures r != [] && forall i :: 0 <= i < |r| ==> '0' <= r[i] <= '9'
  {
    if n < 10 then [(n + '0' as int) as char]
    else NatToString(n / 10) + [(n % 10 + '0' as int) as char]
  }
}
