/**
  The text splitter of `TTSEngine.split_post`: every match of
  ` *(((.|\n){0,N})(\.|.$))` found by `re.finditer`, each stripped of
  surrounding whitespace. `N` is the speech backend's `max_chars`.

  The matcher follows the order in which Python's backtracking engine tries
  alternatives: ` *` first takes every space and gives them back one at a
  time; for each choice `{0,N}` first takes as many characters as it can and
  gives them back one at a time; the first way that ends on a terminator wins.
  `re.finditer` then tries each start position from left to right and resumes
  after the end of every match.
 */
module Chunker {
  import opened Results
  import opened Text

  /** One match: it begins at `start`, ` *` consumed `spaces` spaces, and
      `stop` is the index of the character matched by `(\.|.$)`; the matched
      text is `t[start..stop + 1]`. */
  datatype Match = Match(start: nat, spaces: nat, stop: nat)

  /** `$` without MULTILINE: the end of the text, or just before a final newline. */
  predicate AtEnd(t: string, i: nat) {
    i == |t| || (i + 1 == |t| && t[i] == '\n')
  }

  /** `(\.|.$)` matches the single character `t[j]`. */
  predicate Terminates(t: string, j: nat)
    requires j < |t|
  {
    t[j] == '.' || (t[j] != '\n' && AtEnd(t, j + 1))
  }

  /** What a match of the pattern looks like: spaces, at most `n` arbitrary
      characters, then a terminator. */
  predicate WellShaped(t: string, n: nat, m: Match) {
    && m.start + m.spaces <= m.stop < |t|
    && (forall k :: m.start <= k < m.start + m.spaces ==> t[k] == ' ')
    && m.stop - (m.start + m.spaces) <= n
    && Terminates(t, m.stop)
  }

  function Min(a: int, b: int): int {
    if a <= b then a else b
  }

  /** The last index `{0,n}` can reach when ` *` kept `s` spaces at `p`. */
  function WindowEnd(t: string, n: nat, p: nat, s: nat): int
    requires |t| > 0
  {
    Min(p + s + n, |t| - 1)
  }

  /** No terminator can close a match that starts at `p` with `s` spaces. */
  predicate NoTerminator(t: string, n: nat, p: nat, s: nat) {
    p + s >= |t| || forall j :: p + s <= j <= WindowEnd(t, n, p, s) ==> !Terminates(t, j)
  }

  /** The number of consecutive spaces at `p`: what the greedy ` *` takes first. */
  function LeadingSpaces(t: string, p: nat): (n: nat)
    requires p <= |t|
    ensures p + n <= |t|
    ensures forall k :: p <= k < p + n ==> t[k] == ' '
    ensures p + n == |t| || t[p + n] != ' '
    decreases |t| - p
  {
    if p < |t| && t[p] == ' ' then 1 + LeadingSpaces(t, p + 1) else 0
  }

  /** The greedy `{0,n}` followed by `(\.|.$)`: the last terminator in `[lo, hi]`. */
  function LastTerminator(t: string, lo: nat, hi: int): (r: Option<nat>)
    requires hi < |t|
    ensures r.Some? ==> lo <= r.value <= hi && Terminates(t, r.value)
    decreases hi - lo + 1
  {
    if hi < lo then None
    else if Terminates(t, hi) then Some(hi)
    else LastTerminator(t, lo, hi - 1)
  }

  /** `LastTerminator` finds the last terminator in reach, and reports none
      only when there is none. */
  lemma {:induction false} LastTerminatorIsLast(t: string, lo: nat, hi: int)
    requires hi < |t|
    ensures var r := LastTerminator(t, lo, hi);
      && (r.Some? ==> forall j :: r.value < j <= hi ==> !Terminates(t, j))
      && (r.None? ==> forall j :: lo <= j <= hi ==> !Terminates(t, j))
    decreases hi - lo + 1
  {
    if lo <= hi && !Terminates(t, hi) {
      LastTerminatorIsLast(t, lo, hi - 1);
    }
  }

  /** Backtracking of ` *` at `p`: try keeping `s` spaces, then fewer. */
  function TryFrom(t: string, n: nat, p: nat, s: nat): (r: Option<Match>)
    requires p + s <= |t|
    requires forall k :: p <= k < p + s ==> t[k] == ' '
    ensures r.Some? ==> r.value.start == p && r.value.spaces <= s && WellShaped(t, n, r.value)
    decreases s
  {
    var found := if p + s < |t| then LastTerminator(t, p + s, WindowEnd(t, n, p, s)) else None;
    if found.Some? then Some(Match(p, s, found.value))
    else if s == 0 then None
    else TryFrom(t, n, p, s - 1)
  }

  /** `TryFrom` follows the backtracking order: the match it returns keeps
      as many spaces as any match can, and within that window it ends on the
      last terminator. */
  lemma {:induction false} TryFromIsGreedy(t: string, n: nat, p: nat, s: nat)
    requires p + s <= |t|
    requires forall k :: p <= k < p + s ==> t[k] == ' '
    requires TryFrom(t, n, p, s).Some?
    ensures var m := TryFrom(t, n, p, s).value;
      && (forall j :: m.stop < j <= WindowEnd(t, n, p, m.spaces) ==> !Terminates(t, j))
      && (forall s' :: m.spaces < s' <= s ==> NoTerminator(t, n, p, s'))
    decreases s
  {
    var found := if p + s < |t| then LastTerminator(t, p + s, WindowEnd(t, n, p, s)) else None;
    if p + s < |t| {
      LastTerminatorIsLast(t, p + s, WindowEnd(t, n, p, s));
    }
    if found.None? {
      assert NoTerminator(t, n, p, s);
      TryFromIsGreedy(t, n, p, s - 1);
    }
  }

  /** `TryFrom` finds nothing only when no number of spaces leads to a
      terminator. */
  lemma {:induction false} TryFromFailsOnlyWithoutTerminator(t: string, n: nat, p: nat, s: nat)
    requires p + s <= |t|
    requires forall k :: p <= k < p + s ==> t[k] == ' '
    requires TryFrom(t, n, p, s).None?
    ensures forall s' :: 0 <= s' <= s ==> NoTerminator(t, n, p, s')
    decreases s
  {
    if p + s < |t| {
      LastTerminatorIsLast(t, p + s, WindowEnd(t, n, p, s));
    }
    assert NoTerminator(t, n, p, s);
    if s > 0 {
      TryFromFailsOnlyWithoutTerminator(t, n, p, s - 1);
    }
  }

  /** The match the pattern finds when it is tried at position `p`, if any. */
  function MatchAt(t: string, n: nat, p: nat): (r: Option<Match>)
    requires p <= |t|
    ensures r.Some? ==> r.value.start == p && WellShaped(t, n, r.value)
    ensures r.Some? ==> r.value.spaces <= LeadingSpaces(t, p)
  {
    TryFrom(t, n, p, LeadingSpaces(t, p))
  }

  /** No match can start anywhere in `[lo, hi)`. */
  ghost predicate NoMatchIn(t: string, n: nat, lo: nat, hi: nat)
    requires hi <= |t|
  {
    forall q :: lo <= q < hi ==> MatchAt(t, n, q).None?
  }

  /** `re.search` from position `p`: the match at the first position, from
      `p` on, where the pattern matches at all. */
  function Search(t: string, n: nat, p: nat): (r: Option<Match>)
    requires p <= |t|
    ensures r.Some? ==> p <= r.value.start <= r.value.stop < |t|
    decreases |t| - p
  {
    if p == |t| then None
    else
      var here := MatchAt(t, n, p);
      if here.Some? then here
      else
        Search(t, n, p + 1)
  }

  /** `Search` returns what the pattern finds at the first position where it
      finds anything, and no match can start at a position it passed over. */
  lemma {:induction false} SearchIsLeftmost(t: string, n: nat, p: nat)
    requires p <= |t|
    ensures var r := Search(t, n, p);
      && (r.Some? ==> MatchAt(t, n, r.value.start) == r)
      && NoMatchIn(t, n, p, if r.Some? then r.value.start else |t|)
    decreases |t| - p
  {
    if p < |t| && MatchAt(t, n, p).None? {
      SearchIsLeftmost(t, n, p + 1);
    }
  }

  /** `re.finditer` from position `p`: repeated searches, each resuming after
      the end of the previous match; the matches come in order and do not
      overlap. */
  function FindAll(t: string, n: nat, p: nat): (r: seq<Match>)
    requires p <= |t|
    ensures forall k :: 0 <= k < |r| ==> p <= r[k].start <= r[k].stop < |t|
    ensures forall i, j :: 0 <= i < j < |r| ==> r[i].stop < r[j].start
    decreases |t| - p
  {
    match Search(t, n, p)
    case None => []
    case Some(m) =>
      var rest := FindAll(t, n, m.stop + 1);
      var r := [m] + rest;
      assert forall k :: 0 < k < |r| ==> r[k] == rest[k - 1];
      r
  }

  /** Every match `FindAll` reports is what the pattern finds at its start,
      so it has the pattern's shape. */
  lemma {:induction false} FindAllMatches(t: string, n: nat, p: nat)
    requires p <= |t|
    ensures forall k :: 0 <= k < |FindAll(t, n, p)| ==>
      MatchAt(t, n, FindAll(t, n, p)[k].start) == Some(FindAll(t, n, p)[k])
      && WellShaped(t, n, FindAll(t, n, p)[k])
    decreases |t| - p
  {
    var o := Search(t, n, p);
    SearchIsLeftmost(t, n, p);
    if o.Some? {
      var m := o.value;
      var rest := FindAll(t, n, m.stop + 1);
      FindAllMatches(t, n, m.stop + 1);
      var r := FindAll(t, n, p);
      assert r == [m] + rest;
      assert forall k :: 0 < k < |r| ==> r[k] == rest[k - 1];
    }
  }

  /** Every match `FindAll` reports has the pattern's shape. */
  lemma FindAllWellShaped(t: string, n: nat, p: nat)
    requires p <= |t|
    ensures var ms := FindAll(t, n, p);
      forall k :: 0 <= k < |ms| ==> WellShaped(t, n, ms[k])
  {
    FindAllMatches(t, n, p);
  }

  /** No match can start at a position the scan of `FindAll` skipped. */
  lemma {:induction false} FindAllSkipsOnlyNonMatches(t: string, n: nat, p: nat)
    requires p <= |t|
    ensures GapsHaveNoMatch(t, n, p, FindAll(t, n, p))
    decreases |t| - p
  {
    var o := Search(t, n, p);
    SearchIsLeftmost(t, n, p);
    if o.Some? {
      var m := o.value;
      var rest := FindAll(t, n, m.stop + 1);
      FindAllSkipsOnlyNonMatches(t, n, m.stop + 1);
      assert FindAll(t, n, p) == [m] + rest;
      assert ([m] + rest)[1..] == rest;
    }
  }

  /** The gaps `re.finditer` leaves before, between and after the matches
      `r` (found from `p` on) hold no position where the pattern matches. */
  ghost predicate GapsHaveNoMatch(t: string, n: nat, p: nat, r: seq<Match>)
    requires p <= |t|
    requires forall k :: 0 <= k < |r| ==> p <= r[k].start <= r[k].stop < |t|
    requires forall i, j :: 0 <= i < j < |r| ==> r[i].stop < r[j].start
    decreases |r|
  {
    if |r| == 0 then NoMatchIn(t, n, p, |t|)
    else
      assert forall k :: 0 <= k < |r| - 1 ==> r[1..][k] == r[k + 1];
      && NoMatchIn(t, n, p, r[0].start)
      && GapsHaveNoMatch(t, n, r[0].stop + 1, r[1..])
  }

  /** The text of a match. */
  function MatchText(t: string, m: Match): string
    requires m.start <= m.stop < |t|
  {
    t[m.start..m.stop + 1]
  }

  /** The matches from position `p` on, each stripped. */
  function ChunksFrom(t: string, n: nat, p: nat): seq<string>
    requires p <= |t|
    decreases |t| - p
  {
    match Search(t, n, p)
    case None => []
    case Some(m) => [Strip(MatchText(t, m))] + ChunksFrom(t, n, m.stop + 1)
  }

  /** `split_text` in `split_post`: every match, stripped. */
  function Chunks(t: string, n: nat): seq<string> {
    ChunksFrom(t, n, 0)
  }

  /** The chunks are the matches `FindAll` reports, in order, stripped. */
  lemma {:induction false} ChunksFromAreMatches(t: string, n: nat, p: nat)
    requires p <= |t|
    ensures var ms := FindAll(t, n, p);
      var cs := ChunksFrom(t, n, p);
      |cs| == |ms| && forall k :: 0 <= k < |cs| ==> cs[k] == Strip(MatchText(t, ms[k]))
    decreases |t| - p
  {
    match Search(t, n, p)
    case None =>
    case Some(m) =>
      ChunksFromAreMatches(t, n, m.stop + 1);
      var rest := ChunksFrom(t, n, m.stop + 1);
      var cs := [Strip(MatchText(t, m))] + rest;
      var ms := FindAll(t, n, p);
      assert ms == [m] + FindAll(t, n, m.stop + 1);
      assert forall k :: 0 < k < |cs| ==> cs[k] == rest[k - 1] && ms[k] == FindAll(t, n, m.stop + 1)[k - 1];
  }

  /** Stripping a text that starts with blanks leaves no more than the rest. */
  lemma TrimStartPastBlanks(x: string, y: string)
    requires IsBlank(x)
    ensures |TrimStart(x + y)| <= |y|
  {
    forall k | 0 <= k < |x| ensures IsWhitespace((x + y)[k]) {
      assert (x + y)[k] == x[k];
    }
    SkipBlanksPast(x + y, 0, |x|);
  }

  /** A match's text, stripped, keeps at most the `n` characters and the
      terminator: the leading spaces are whitespace. */
  lemma StrippedMatchBound(t: string, n: nat, m: Match)
    requires WellShaped(t, n, m)
    ensures |Strip(MatchText(t, m))| <= n + 1
  {
    var x := t[m.start..m.start + m.spaces];
    var y := t[m.start + m.spaces..m.stop + 1];
    assert MatchText(t, m) == x + y;
    assert IsBlank(x) by {
      forall i | 0 <= i < |x| ensures IsWhitespace(x[i]) {
        assert x[i] == t[m.start + i];
      }
    }
    TrimStartPastBlanks(x, y);
  }

  /** A stripped match is at most `n + 1` characters long and has no
      whitespace at either end. */
  lemma StrippedMatchShape(t: string, n: nat, m: Match)
    requires WellShaped(t, n, m)
    ensures var c := Strip(MatchText(t, m));
      |c| <= n + 1 && (c != "" ==> !IsWhitespace(c[0]) && !IsWhitespace(c[|c| - 1]))
  {
    StrippedMatchBound(t, n, m);
    StripSpec(MatchText(t, m));
  }

  /** Every chunk is at most `n + 1` characters long (`n` characters and the
      terminator; the leading spaces are stripped) and has no whitespace at
      either end. */
  lemma ChunkBounds(t: string, n: nat)
    ensures var cs := Chunks(t, n);
      forall k :: 0 <= k < |cs| ==>
        |cs[k]| <= n + 1 && (cs[k] != "" ==> !IsWhitespace(cs[k][0]) && !IsWhitespace(cs[k][|cs[k]| - 1]))
  {
    var ms := FindAll(t, n, 0);
    var cs := Chunks(t, n);
    FindAllWellShaped(t, n, 0);
    ChunksFromAreMatches(t, n, 0);
    forall k | 0 <= k < |cs|
      ensures |cs[k]| <= n + 1 && (cs[k] != "" ==> !IsWhitespace(cs[k][0]) && !IsWhitespace(cs[k][|cs[k]| - 1]))
    {
      StrippedMatchShape(t, n, ms[k]);
    }
  }

  /** Text before the last terminator in reach is lost: with `max_chars` 1,
      "abc" has no match at 0 (no terminator within two characters), so the
      only match is "bc" and the "a" is never spoken. */
  lemma DropsUnterminatedText()
    ensures FindAll("abc", 1, 0) == [Match(1, 0, 2)]
    ensures Chunks("abc", 1) == ["bc"]
  {
    AbcFindAll();
    AbcSearch();
    var t := "abc";
    assert ChunksFrom(t, 1, 3) == [];
    assert MatchText(t, Match(1, 0, 2)) == "bc";
    StripKeepsTrimmed("bc");
    assert ChunksFrom(t, 1, 0) == [Strip("bc")] + ChunksFrom(t, 1, 3);
  }

  lemma AbcFindAll()
    ensures FindAll("abc", 1, 0) == [Match(1, 0, 2)]
  {
    AbcSearch();
    assert FindAll("abc", 1, 3) == [];
  }

  lemma AbcSearch()
    ensures Search("abc", 1, 0) == Some(Match(1, 0, 2))
    ensures Search("abc", 1, 3) == None
  {
    var t := "abc";
    assert !Terminates(t, 0) && !Terminates(t, 1) && Terminates(t, 2);
    assert LeadingSpaces(t, 0) == 0 && LeadingSpaces(t, 1) == 0;
    assert LastTerminator(t, 0, -1) == None;
    assert LastTerminator(t, 0, 0) == None;
    assert LastTerminator(t, 0, 1) == None;
    assert MatchAt(t, 1, 0) == None;
    assert LastTerminator(t, 1, 2) == Some(2);
    assert MatchAt(t, 1, 1) == Some(Match(1, 0, 2));
    assert Search(t, 1, 1) == Some(Match(1, 0, 2));
  }
}
