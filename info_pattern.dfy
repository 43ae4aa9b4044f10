/**
 * The Equity page recogniser `^ *[a-z0-5]+\.unitAvailability = (?P<info>\{.*\})`
 * applied with `search` to one line, written as a scanner and proved equal
 * to the declarative meaning of the pattern.
 */
module InfoPattern {
  import opened Wrappers

  /** The literal between the identifier and the captured group. */
  const Marker: string := ".unitAvailability = "

  /** The character class `[a-z0-5]`. */
  predicate IdentChar(c: char)
  {
    'a' <= c <= 'z' || '0' <= c <= '5'
  }

  /** End of the run of spaces starting at `i`. */
  function SpacesEnd(s: string, i: nat): (r: nat)
    requires i <= |s|
    ensures i <= r <= |s|
    ensures forall h :: i <= h < r ==> s[h] == ' '
    ensures r == |s| || s[r] != ' '
    decreases |s| - i
  {
    if i == |s| || s[i] != ' ' then i else SpacesEnd(s, i + 1)
  }

  /** End of the run of `[a-z0-5]` characters starting at `i`. */
  function IdentEnd(s: string, i: nat): (r: nat)
    requires i <= |s|
    ensures i <= r <= |s|
    ensures forall h :: i <= h < r ==> IdentChar(s[h])
    ensures r == |s| || !IdentChar(s[r])
    decreases |s| - i
  {
    if i == |s| || !IdentChar(s[i]) then i else IdentEnd(s, i + 1)
  }

  /** Index of the first newline at or after `i`, or the length: how far `.` can reach. */
  function LineEnd(s: string, i: nat): (r: nat)
    requires i <= |s|
    ensures i <= r <= |s|
    ensures forall h :: i <= h < r ==> s[h] != '\n'
    ensures r == |s| || s[r] == '\n'
    decreases |s| - i
  {
    if i == |s| || s[i] == '\n' then i else LineEnd(s, i + 1)
  }

  /** Index of the last `}` in `s[lo..hi]`, if any: where greedy `.*\}` stops. */
  function LastBrace(s: string, lo: nat, hi: nat): (r: Option<nat>)
    requires lo <= hi <= |s|
    ensures r.Some? ==> lo <= r.value < hi && s[r.value] == '}'
    ensures r.Some? ==> forall h :: r.value < h < hi ==> s[h] != '}'
    ensures r.None? ==> forall h :: lo <= h < hi ==> s[h] != '}'
    decreases hi - lo
  {
    if hi == lo then None
    else if s[hi - 1] == '}' then Some(hi - 1)
    else LastBrace(s, lo, hi - 1)
  }

  /** The `info` group of the first match in `line`, or `None` when the pattern does not match. */
  function MatchInfo(line: string): Option<string>
  {
    var n := SpacesEnd(line, 0);
    var m := IdentEnd(line, n);
    var k := m + |Marker|;
    if n < m && k < |line| && line[m..k] == Marker && line[k] == '{' then
      match LastBrace(line, k + 1, LineEnd(line, k))
      case Some(c) => Some(line[k..c + 1])
      case None => None
    else None
  }

  /**
   * The pattern matches `line` with the spaces `line[..n]`, the identifier
   * `line[n..m]`, the marker, and the group `line[m + |Marker|..e]`, which
   * opens with `{`, closes with `}` and holds no newline.
   */
  ghost predicate RegexMatch(line: string, n: nat, m: nat, e: nat)
  {
    && n < m
    && m + |Marker| + 1 < e <= |line|
    && (forall h :: 0 <= h < n ==> line[h] == ' ')
    && (forall h :: n <= h < m ==> IdentChar(line[h]))
    && line[m..m + |Marker|] == Marker
    && line[m + |Marker|] == '{'
    && line[e - 1] == '}'
    && (forall h :: m + |Marker| <= h < e ==> line[h] != '\n')
  }

  /** Any way the pattern matches has the scanner's spaces and identifier, and a group no longer than its own. */
  lemma MatchIsScanned(line: string, n: nat, m: nat, e: nat)
    requires RegexMatch(line, n, m, e)
    ensures n == SpacesEnd(line, 0) && m == IdentEnd(line, n)
    ensures var k := m + |Marker|;
            var c := LastBrace(line, k + 1, LineEnd(line, k));
            c.Some? && e - 1 <= c.value
  {
    assert IdentChar(line[n]);
    assert n == SpacesEnd(line, 0);
    assert line[m] == Marker[0];
    assert m == IdentEnd(line, n);
    var k := m + |Marker|;
    assert e - 1 < LineEnd(line, k);
  }

  /** A match of the pattern that every other match agrees with, and whose group is the longest. */
  ghost predicate GreedyMatch(line: string, n: nat, m: nat, e: nat)
  {
    && RegexMatch(line, n, m, e)
    && forall n': nat, m': nat, e': nat :: RegexMatch(line, n', m', e') ==> n' == n && m' == m && e' <= e
  }

  /** The recogniser's own match: the scanned spaces and identifier, and the group up to the last brace. */
  lemma MatchInfoMatches(line: string)
    requires MatchInfo(line).Some?
    ensures var n := SpacesEnd(line, 0);
            var m := IdentEnd(line, n);
            var k := m + |Marker|;
            var c := LastBrace(line, k + 1, LineEnd(line, k));
            && c.Some?
            && RegexMatch(line, n, m, c.value + 1)
            && MatchInfo(line).value == line[k..c.value + 1]
  {
  }

  /** Every match of the pattern agrees with the recogniser's spaces and identifier, and ends no later. */
  lemma OnlyScannedMatches(line: string, n: nat, m: nat, c: nat)
    requires n == SpacesEnd(line, 0) && m == IdentEnd(line, n) && m + |Marker| < |line|
    requires m + |Marker| < LineEnd(line, m + |Marker|)
    requires LastBrace(line, m + |Marker| + 1, LineEnd(line, m + |Marker|)) == Some(c)
    ensures forall n': nat, m': nat, e': nat :: RegexMatch(line, n', m', e') ==> n' == n && m' == m && e' <= c + 1
  {
    forall n': nat, m': nat, e': nat | RegexMatch(line, n', m', e') ensures n' == n && m' == m && e' <= c + 1 {
      MatchIsScanned(line, n', m', e');
    }
  }

  /** The recogniser's own match is the greedy one. */
  lemma ScannedIsGreedy(line: string, n: nat, m: nat, c: nat)
    requires n == SpacesEnd(line, 0) && m == IdentEnd(line, n) && m + |Marker| < |line|
    requires m + |Marker| < LineEnd(line, m + |Marker|)
    requires LastBrace(line, m + |Marker| + 1, LineEnd(line, m + |Marker|)) == Some(c)
    requires RegexMatch(line, n, m, c + 1)
    ensures GreedyMatch(line, n, m, c + 1)
  {
    OnlyScannedMatches(line, n, m, c);
  }

  /** When the recogniser returns a group, it is the group of the greedy match. */
  lemma MatchInfoSound(line: string)
    requires MatchInfo(line).Some?
    ensures exists n: nat, m: nat, e: nat :: GreedyMatch(line, n, m, e)
              && MatchInfo(line).value == line[m + |Marker|..e]
  {
    var n := SpacesEnd(line, 0);
    var m := IdentEnd(line, n);
    var k := m + |Marker|;
    MatchInfoMatches(line);
    var c := LastBrace(line, k + 1, LineEnd(line, k)).value;
    ScannedIsGreedy(line, n, m, c);
  }

  /** Whenever the pattern matches, the recogniser returns a group. */
  lemma MatchInfoComplete(line: string, n: nat, m: nat, e: nat)
    requires RegexMatch(line, n, m, e)
    ensures MatchInfo(line).Some?
  {
    MatchIsScanned(line, n, m, e);
  }

  /**
   * `MatchInfo` is the pattern: it finds a group exactly when some match
   * exists, and the group it returns is that of the greedy match.
   */
  lemma MatchInfoCorrect(line: string)
    ensures MatchInfo(line).Some? <==> exists n: nat, m: nat, e: nat :: RegexMatch(line, n, m, e)
    ensures MatchInfo(line).Some? ==>
              exists n: nat, m: nat, e: nat :: GreedyMatch(line, n, m, e)
                && MatchInfo(line).value == line[m + |Marker|..e]
  {
    if MatchInfo(line).Some? {
      MatchInfoSound(line);
    }
    if exists n: nat, m: nat, e: nat :: RegexMatch(line, n, m, e) {
      var n: nat, m: nat, e: nat :| RegexMatch(line, n, m, e);
      MatchInfoComplete(line, n, m, e);
    }
  }
}
