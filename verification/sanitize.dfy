/**
  The string sanitisers of video_creation/final_video.py: the character
  filter `re.sub(r"[^\w\s-]", "", s)` applied to thread ids and titles,
  and `name_normalize` on its non-translating path, which makes a title
  safe as a file name and spells out slashes.
 */
module Sanitize {
  import opened Results
  import opened Text

  /** What `[^\w\s-]` does not remove: word characters, whitespace, `-`. */
  predicate IdChar(c: char) {
    IsWordChar(c) || IsWhitespace(c) || c == '-'
  }

  /** `re.sub(r"[^\w\s-]", "", s)`. */
  function IdFilter(s: string): (r: string)
    ensures |r| <= |s|
    ensures forall c :: c in r <==> c in s && IdChar(c)
  {
    Filter(s, IdChar)
  }

  /** The filter keeps the surviving characters in their original order. */
  lemma IdFilterKeepsOrder(a: string, b: string)
    ensures IdFilter(a + b) == IdFilter(a) + IdFilter(b)
  {
    FilterAppend(a, b, IdChar);
  }

  /** Sanitising an already sanitised id changes nothing. */
  lemma IdFilterIdempotent(s: string)
    ensures IdFilter(IdFilter(s)) == IdFilter(s)
  {
    FilterIdempotent(s, IdChar);
  }

  /** An id made only of kept characters is left as it is. */
  lemma IdFilterKeepsCleanIds(s: string)
    requires forall i :: 0 <= i < |s| ==> IdChar(s[i])
    ensures IdFilter(s) == s
  {
    FilterKeepsAll(s, IdChar);
  }

  // ---------------------------------------------------------------------
  // name_normalize

  /** The characters `[?\\"%*:|<>]` strips. */
  predicate Forbidden(c: char) {
    c == '?' || c == '\\' || c == '"' || c == '%' || c == '*' || c == ':' || c == '|' || c == '<' || c == '>'
  }

  predicate Allowed(c: char) {
    !Forbidden(c)
  }

  predicate NotSlash(c: char) {
    c != '/'
  }

  /** `[w,W]`: the comma is part of the class. */
  predicate WClass(c: char) {
    c == 'w' || c == ',' || c == 'W'
  }

  /** `[o,O,0]`: the comma is part of the class. */
  predicate OClass(c: char) {
    c == 'o' || c == ',' || c == 'O' || c == '0'
  }

  /** The characters the replacement templates " without", " with",
      " of " and " or " add. */
  predicate TemplateChar(c: char) {
    c == ' ' || c == 'w' || c == 'i' || c == 't' || c == 'h' || c == 'o' || c == 'u' || c == 'r' || c == 'f'
  }

  /** The four rewrites, in the order they are applied. */
  datatype Rule =
    | Without   // `( [w,W]\s?\/\s?[o,O,0])` -> " without"
    | With      // `( [w,W]\s?\/)` -> " with"
    | NumberOf  // `(\d+)\s?\/\s?(\d+)` -> `\1 of \2`
    | WordOr    // `(\w+)\s?\/\s?(\w+)` -> `\1 or \2`

  /** A match: how many characters it spans and what replaces them. */
  datatype Hit = Hit(len: nat, out: string)

  /** `\s?` in front of a token that whitespace cannot match: it takes one
      whitespace character when there is one, and backing off could not
      help. */
  function OptSpace(t: string, q: nat): (n: nat)
    ensures n <= 1
    ensures n == 1 ==> q < |t| && IsWhitespace(t[q])
    ensures n == 0 ==> q >= |t| || !IsWhitespace(t[q])
  {
    if q < |t| && IsWhitespace(t[q]) then 1 else 0
  }

  /** A greedy `+` run of `cls` from `q`; backing off could not help either,
      since the token after each run can never be one of its characters. */
  function RunOf(t: string, q: nat, cls: char -> bool): (n: nat)
    requires q <= |t|
    ensures q + n <= |t|
    ensures forall k :: q <= k < q + n ==> cls(t[k])
    ensures q + n == |t| || !cls(t[q + n])
    decreases |t| - q
  {
    if q < |t| && cls(t[q]) then 1 + RunOf(t, q + 1, cls) else 0
  }

  /** `\s?\/` from `q`: where the match continues after the slash. */
  function SlashAfter(t: string, q: nat): (r: Option<nat>)
    requires q <= |t|
    ensures r.Some? ==> q < r.value <= |t| && t[r.value - 1] == '/' && r.value <= q + 2
  {
    var q' := q + OptSpace(t, q);
    if q' < |t| && t[q'] == '/' then Some(q' + 1) else None
  }

  /** `\1 <word> \2` for two groups of a match. */
  function Joined(t: string, a: nat, b: nat, word: string, c: nat, d: nat): string
    requires a <= b <= |t| && c <= d <= |t|
  {
    t[a..b] + word + t[c..d]
  }

  /** Whether `rule` matches at `p`, following Python's backtracking
      matcher; a match is never empty. */
  function MatchRule(rule: Rule, t: string, p: nat): (r: Option<Hit>)
    requires p <= |t|
    ensures r.Some? ==> 1 <= r.value.len <= |t| - p
  {
    match rule
    case Without =>
      if p + 1 < |t| && t[p] == ' ' && WClass(t[p + 1]) then
        match SlashAfter(t, p + 2)
        case None => None
        case Some(q) =>
          var q2 := q + OptSpace(t, q);
          if q2 < |t| && OClass(t[q2]) then Some(Hit(q2 + 1 - p, " without")) else None
      else None
    case With =>
      if p + 1 < |t| && t[p] == ' ' && WClass(t[p + 1]) then
        match SlashAfter(t, p + 2)
        case None => None
        case Some(q) => Some(Hit(q - p, " with"))
      else None
    case NumberOf =>
      GroupsAround(t, p, IsDigit, " of ")
    case WordOr =>
      GroupsAround(t, p, IsWordChar, " or ")
  }

  /** `(X+)\s?\/\s?(X+)` at `p`, replaced by `\1 <word> \2`. */
  function GroupsAround(t: string, p: nat, cls: char -> bool, word: string): (r: Option<Hit>)
    requires p <= |t|
    ensures r.Some? ==> 1 <= r.value.len <= |t| - p
  {
    var d1 := RunOf(t, p, cls);
    if d1 == 0 then None
    else
      match SlashAfter(t, p + d1)
      case None => None
      case Some(q) =>
        var q2 := q + OptSpace(t, q);
        var d2 := RunOf(t, q2, cls);
        if d2 == 0 then None
        else Some(Hit(q2 + d2 - p, Joined(t, p, p + d1, word, q2, q2 + d2)))
  }

  /** Some character of `t[p..q]` is a slash. */
  ghost predicate HasSlash(t: string, p: nat, q: nat) {
    exists k :: p <= k < q && k < |t| && t[k] == '/'
  }

  /** Every character of `out` is a template character or one of `t[p..q]`. */
  ghost predicate DrawnFrom(out: string, t: string, p: nat, q: nat) {
    forall j :: 0 <= j < |out| ==>
      TemplateChar(out[j]) || exists k :: p <= k < q && k < |t| && t[k] == out[j]
  }

  /** Two runs of `cls` joined by a template word: every character is of
      the class or the template's, and is drawn from the span the runs
      cover. */
  lemma JoinedShape(t: string, p: nat, d1: nat, q2: nat, d2: nat, cls: char -> bool, word: string)
    requires p + d1 <= q2 && q2 + d2 <= |t|
    requires forall k :: p <= k < p + d1 ==> cls(t[k])
    requires forall k :: q2 <= k < q2 + d2 ==> cls(t[k])
    requires forall i :: 0 <= i < |word| ==> TemplateChar(word[i])
    ensures var out := Joined(t, p, p + d1, word, q2, q2 + d2);
      && DrawnFrom(out, t, p, q2 + d2)
      && forall j :: 0 <= j < |out| ==> cls(out[j]) || TemplateChar(out[j])
  {
    var out := Joined(t, p, p + d1, word, q2, q2 + d2);
    forall j | 0 <= j < |out|
      ensures TemplateChar(out[j]) || exists k :: p <= k < q2 + d2 && k < |t| && t[k] == out[j]
      ensures cls(out[j]) || TemplateChar(out[j])
    {
      if j < d1 {
        assert out[j] == t[p + j];
      } else if j < d1 + |word| {
        assert out[j] == word[j - d1];
      } else {
        assert out[j] == t[q2 + (j - d1 - |word|)];
      }
    }
  }

  /** A two-group match spans a slash, and its replacement is made of the
      two groups and the template's word: every character of it is of the
      groups' class or the template's: the slash and the whitespace
      around it are consumed. */
  lemma GroupsAroundShape(t: string, p: nat, cls: char -> bool, word: string)
    requires p <= |t|
    requires forall i :: 0 <= i < |word| ==> TemplateChar(word[i])
    ensures var r := GroupsAround(t, p, cls, word);
      r.Some? ==> HasSlash(t, p, p + r.value.len) && DrawnFrom(r.value.out, t, p, p + r.value.len)
    ensures var r := GroupsAround(t, p, cls, word);
      r.Some? ==> forall j :: 0 <= j < |r.value.out| ==> cls(r.value.out[j]) || TemplateChar(r.value.out[j])
  {
    var d1 := RunOf(t, p, cls);
    if d1 > 0 {
      match SlashAfter(t, p + d1)
      case None =>
      case Some(q) =>
        var q2 := q + OptSpace(t, q);
        var d2 := RunOf(t, q2, cls);
        if d2 > 0 {
          assert p <= q - 1 < q2 + d2 && t[q - 1] == '/';
          JoinedShape(t, p, d1, q2, d2, cls, word);
        }
    }
  }

  /** Every pattern contains a slash, so every match spans one; the
      replacement adds nothing but the matched characters and the
      template's own. */
  lemma MatchRuleShape(rule: Rule, t: string, p: nat)
    requires p <= |t|
    ensures var r := MatchRule(rule, t, p);
      r.Some? ==> HasSlash(t, p, p + r.value.len) && DrawnFrom(r.value.out, t, p, p + r.value.len)
  {
    match rule
    case Without =>
      var r := MatchRule(rule, t, p);
      if r.Some? {
        var q := SlashAfter(t, p + 2).value;
        assert p <= q - 1 < p + r.value.len && t[q - 1] == '/';
        forall j | 0 <= j < |r.value.out| ensures TemplateChar(r.value.out[j]) {
        }
      }
    case With =>
      var r := MatchRule(rule, t, p);
      if r.Some? {
        var q := SlashAfter(t, p + 2).value;
        assert p <= q - 1 < p + r.value.len && t[q - 1] == '/';
        forall j | 0 <= j < |r.value.out| ensures TemplateChar(r.value.out[j]) {
        }
      }
    case NumberOf =>
      GroupsAroundShape(t, p, IsDigit, " of ");
    case WordOr =>
      GroupsAroundShape(t, p, IsWordChar, " or ");
  }

  /** No rule matches where no slash follows. */
  lemma NoSlashNoMatch(rule: Rule, t: string, p: nat)
    requires p <= |t|
    requires forall k :: p <= k < |t| ==> t[k] != '/'
    ensures MatchRule(rule, t, p).None?
  {
    MatchRuleShape(rule, t, p);
  }

  /** Where a rule matches in `t`: entry `p` is its match starting at `p`,
      if any. */
  function Hits(rule: Rule, t: string): (hs: seq<Option<Hit>>)
    ensures |hs| == |t|
    ensures forall p :: 0 <= p < |t| ==> hs[p] == MatchRule(rule, t, p)
  {
    seq(|t|, p requires 0 <= p < |t| => MatchRule(rule, t, p))
  }

  /** One possible match per position of `t`, none of them empty and none
      running past the end. */
  predicate Fits(t: string, hs: seq<Option<Hit>>) {
    && |hs| == |t|
    && forall p :: 0 <= p < |hs| && hs[p].Some? ==> 1 <= hs[p].value.len <= |t| - p
  }

  /** `re.sub` from position `i`, given where the pattern matches: at each
      position either a match starts and its replacement is emitted, or
      the character is kept; scanning resumes after the match. */
  function Replace(t: string, hs: seq<Option<Hit>>, i: nat): string
    requires Fits(t, hs) && i <= |t|
    decreases |t| - i
  {
    if i == |t| then ""
    else
      match hs[i]
      case Some(h) => h.out + Replace(t, hs, i + h.len)
      case None => [t[i]] + Replace(t, hs, i + 1)
  }

  /** `re.sub(pattern, template, t)` for one of the four rules. */
  function Sub(rule: Rule, t: string): string {
    Replace(t, Hits(rule, t), 0)
  }

  /** Where nothing matches, the text is copied unchanged. */
  lemma {:induction false} ReplaceWithoutHits(t: string, hs: seq<Option<Hit>>, i: nat)
    requires Fits(t, hs) && i <= |t|
    requires forall p :: i <= p < |t| ==> hs[p].None?
    ensures Replace(t, hs, i) == t[i..]
    decreases |t| - i
  {
    if i < |t| {
      ReplaceWithoutHits(t, hs, i + 1);
      assert t[i..] == [t[i]] + t[i + 1..];
    }
  }

  /** A text without a slash is left alone by every rewrite. */
  lemma SubWithoutSlash(rule: Rule, t: string)
    requires forall k :: 0 <= k < |t| ==> t[k] != '/'
    ensures Sub(rule, t) == t
  {
    var hs := Hits(rule, t);
    forall p | 0 <= p < |t| ensures hs[p].None? {
      NoSlashNoMatch(rule, t, p);
    }
    ReplaceWithoutHits(t, hs, 0);
    assert t[0..] == t;
  }

  /** The rewrites add only template characters, so they never bring back
      a character the first step removed. */
  predicate AllAllowed(s: string) {
    forall k :: 0 <= k < |s| ==> Allowed(s[k])
  }

  lemma HitAllowed(t: string, i: nat, h: Hit)
    requires i + h.len <= |t|
    requires forall k :: i <= k < |t| ==> Allowed(t[k])
    requires DrawnFrom(h.out, t, i, i + h.len)
    ensures AllAllowed(h.out)
  {
    forall j | 0 <= j < |h.out| ensures Allowed(h.out[j]) {
      if !TemplateChar(h.out[j]) {
        var k :| i <= k < i + h.len && k < |t| && t[k] == h.out[j];
      }
    }
  }

  lemma AllAllowedAppend(a: string, b: string)
    requires AllAllowed(a) && AllAllowed(b)
    ensures AllAllowed(a + b)
  {
    forall k | 0 <= k < |a + b| ensures Allowed((a + b)[k]) {
      if k < |a| {
        assert (a + b)[k] == a[k];
      } else {
        assert (a + b)[k] == b[k - |a|];
      }
    }
  }

  lemma {:induction false} ReplaceKeepsAllowed(t: string, hs: seq<Option<Hit>>, i: nat)
    requires Fits(t, hs) && i <= |t|
    requires forall k :: i <= k < |t| ==> Allowed(t[k])
    requires forall p :: i <= p < |t| && hs[p].Some? ==> DrawnFrom(hs[p].value.out, t, p, p + hs[p].value.len)
    ensures AllAllowed(Replace(t, hs, i))
    decreases |t| - i
  {
    if i < |t| {
      match hs[i]
      case Some(h) =>
        HitAllowed(t, i, h);
        ReplaceKeepsAllowed(t, hs, i + h.len);
        AllAllowedAppend(h.out, Replace(t, hs, i + h.len));
      case None =>
        ReplaceKeepsAllowed(t, hs, i + 1);
        AllAllowedAppend([t[i]], Replace(t, hs, i + 1));
    }
  }

  /** A rewrite of a text free of forbidden characters is free of them. */
  lemma SubKeepsAllowed(rule: Rule, t: string)
    requires forall k :: 0 <= k < |t| ==> Allowed(t[k])
    ensures AllAllowed(Sub(rule, t))
  {
    var hs := Hits(rule, t);
    forall p | 0 <= p < |t| && hs[p].Some? ensures DrawnFrom(hs[p].value.out, t, p, p + hs[p].value.len) {
      MatchRuleShape(rule, t, p);
    }
    ReplaceKeepsAllowed(t, hs, 0);
  }

  /** The four rewrites in order. */
  function Rewrite(s: string): string {
    Sub(WordOr, Sub(NumberOf, Sub(With, Sub(Without, s))))
  }

  /** `name_normalize` with no translation language: strip
      `?\"%*:|<>`, spell out "w/o", "w/", "n/m" and "a/b", drop the
      remaining slashes. The `name[:30]` statement discards its result, so
      nothing is truncated. */
  function NameNormalize(name: string): (r: string)
    ensures forall c :: c in r ==> Allowed(c) && c != '/'
  {
    var s := Filter(name, Allowed);
    assert AllAllowed(s) by {
      forall k | 0 <= k < |s| ensures Allowed(s[k]) {
        assert s[k] in s;
      }
    }
    NameNormalizeClean(s);
    var w := Rewrite(s);
    assert forall c :: c in w ==> Allowed(c);
    Filter(w, NotSlash)
  }

  /** The four rewrites never bring back a forbidden character. */
  lemma NameNormalizeClean(s: string)
    requires AllAllowed(s)
    ensures AllAllowed(Rewrite(s))
  {
    var s1 := Sub(Without, s);
    SubKeepsAllowed(Without, s);
    var s2 := Sub(With, s1);
    SubKeepsAllowed(With, s1);
    var s3 := Sub(NumberOf, s2);
    SubKeepsAllowed(NumberOf, s2);
    SubKeepsAllowed(WordOr, s3);
  }

  /** The last three rewrites leave a text without slashes alone. */
  lemma LaterRulesKeep(s1: string)
    requires forall i :: 0 <= i < |s1| ==> s1[i] != '/'
    ensures Sub(WordOr, Sub(NumberOf, Sub(With, s1))) == s1
  {
    SubWithoutSlash(With, s1);
    SubWithoutSlash(NumberOf, s1);
    SubWithoutSlash(WordOr, s1);
  }

  /** A name with no slash and no forbidden character comes back unchanged,
      however long it is. */
  lemma NameNormalizeKeepsPlainNames(name: string)
    requires forall i :: 0 <= i < |name| ==> name[i] != '/' && Allowed(name[i])
    ensures NameNormalize(name) == name
  {
    FilterKeepsAll(name, Allowed);
    SubWithoutSlash(Without, name);
    LaterRulesKeep(name);
    FilterKeepsAll(name, NotSlash);
  }

  /** Applying `name_normalize` twice is applying it once. */
  lemma NameNormalizeIdempotent(name: string)
    ensures NameNormalize(NameNormalize(name)) == NameNormalize(name)
  {
    var r := NameNormalize(name);
    forall i | 0 <= i < |r| ensures r[i] != '/' && Allowed(r[i]) {
      assert r[i] in r;
    }
    NameNormalizeKeepsPlainNames(r);
  }

  /** "w/o" after a space becomes "without". */
  lemma WithoutExample()
    ensures Sub(Without, "a w/o b") == "a without b"
  {
    var t := "a w/o b";
    var hs := Hits(Without, t);
    assert hs[0] == None;
    assert hs[1] == Some(Hit(4, " without"));
    NoSlashNoMatch(Without, t, 5);
    NoSlashNoMatch(Without, t, 6);
    ReplaceWithoutHits(t, hs, 5);
    assert t[5..] == " b";
  }

  /** The classes `[w,W]` and `[o,O,0]` also contain the comma, so " ,/,"
      is read as " w/o". */
  lemma CommaIsReadAsWithout(t: string, p: nat)
    requires p + 3 < |t|
    requires t[p] == ' ' && t[p + 1] == ',' && t[p + 2] == '/' && t[p + 3] == ','
    ensures MatchRule(Without, t, p) == Some(Hit(4, " without"))
  {
    assert OptSpace(t, p + 2) == 0;
    assert SlashAfter(t, p + 2) == Some(p + 3);
    assert OptSpace(t, p + 3) == 0;
  }

  /** Numbers around a slash become "n of m". */
  lemma NumberOfExample()
    ensures Sub(NumberOf, "1/2") == "1 of 2"
  {
    var t := "1/2";
    assert RunOf(t, 3, IsDigit) == 0;
    assert RunOf(t, 2, IsDigit) == 1;
    assert RunOf(t, 1, IsDigit) == 0;
    assert RunOf(t, 0, IsDigit) == 1;
    assert SlashAfter(t, 1) == Some(2);
    assert OptSpace(t, 2) == 0;
    assert Joined(t, 0, 1, " of ", 2, 3) == "1 of 2";
    var hs := Hits(NumberOf, t);
    assert hs[0] == Some(Hit(3, "1 of 2"));
    assert Replace(t, hs, 3) == "";
  }

  // ---------------------------------------------------------------------
  // The output file name

  /** Python's `s[:n]`. */
  function Take(s: string, n: nat): (r: string)
    ensures |r| == (if |s| <= n then |s| else n)
    ensures r == s[..|r|]
  {
    if |s| <= n then s else s[..n]
  }

  /** `f"{name_normalize(title)[:251]}.mp4"` for the sanitised title. */
  function Filename(threadTitle: string): (r: string)
    ensures 4 <= |r| <= 255
    ensures r[|r| - 4..] == ".mp4"
  {
    Take(NameNormalize(IdFilter(threadTitle)), 251) + ".mp4"
  }

  /** The title reaches `name_normalize` already stripped to word
      characters, whitespace and `-`, so none of its rewrites can fire:
      the file name is the sanitised title, cut to 251 characters. */
  lemma FilenameIsSanitisedTitle(threadTitle: string)
    ensures Filename(threadTitle) == Take(IdFilter(threadTitle), 251) + ".mp4"
  {
    var s := IdFilter(threadTitle);
    forall i | 0 <= i < |s| ensures s[i] != '/' && Allowed(s[i]) {
      assert s[i] in s;
    }
    NameNormalizeKeepsPlainNames(s);
  }
}
