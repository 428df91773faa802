/** The marker search (`_next_marker`) and the guarantee it buys: however the input is cut into chunks,
    a known secret reaches the published output only inside a quoted key that begins with a direct
    token marker; and exactly the secrets that fit into such a key can get there. */
module RedactionSafety {
  import opened Basics
  import opened Redaction

  ghost predicate Occurs(s: string, secret: string, i: int) {
    0 <= i && i + |secret| <= |s| && s[i..i + |secret|] == secret
  }

  /** Some secret occurs in `s` at `i`; the longest that does. */
  function LongestAt(secrets: seq<string>, s: string, i: nat): (r: Option<string>)
    requires i <= |s|
  {
    if secrets == [] then None
    else
      var best := LongestAt(secrets[1..], s, i);
      var n := |secrets[0]|;
      if i + n <= |s| && s[i..i + n] == secrets[0] && (best.None? || |best.value| <= n)
      then Some(secrets[0]) else best
  }

  /** The compiled alternation of all secrets: leftmost match, longest secret first. */
  function SearchLiteral(secrets: seq<string>, s: string, i: nat): (r: Option<Marker>)
    requires i <= |s|
    decreases |s| - i
  {
    var here := LongestAt(secrets, s, i);
    if here.Some? then Some(Marker(Literal, i, i + |here.value|, None))
    else if i == |s| then None
    else SearchLiteral(secrets, s, i + 1)
  }

  // ----- the direct-token pattern -----

  /** Folding under the ignore-case flag: four letters outside ASCII count as i, s and k. */
  function Folded(c: char): char {
    if 'A' <= c <= 'Z' then (c as int + 32) as char
    else if c == '\U{0130}' || c == '\U{0131}' then 'i'
    else if c == '\U{017F}' then 's'
    else if c == '\U{212A}' then 'k'
    else c
  }

  predicate IsAlnum(c: char) {
    'a' <= Folded(c) <= 'z' || '0' <= c <= '9'
  }

  predicate Spells(t: string, word: string) {
    |word| <= |t| && forall j | 0 <= j < |word| :: Folded(t[j]) == word[j]
  }

  /** The length of the marker of `_DIRECT_TOKEN` that a text begins with, or 0. */
  function MarkerOf(t: string): (n: nat)
    ensures n <= 11 && n <= |t|
  {
    if Spells(t, "github_pat_") then 11
    else if Spells(t, "gh") && 4 <= |t| && Folded(t[2]) in ['o', 'p', 'r', 's', 'u'] && t[3] == '_' then 4
    else if Spells(t, "hf_") then 3
    else if Spells(t, "dgx_") then 4
    else if Spells(t, "sk-") then 3
    else if Spells(t, "xox") && 5 <= |t| && Folded(t[3]) in ['b', 'a', 'p', 'r', 's'] && t[4] == '-' then 5
    else 0
  }

  /** The search of `_DIRECT_TOKEN`: no word character before the marker, a letter or digit after it. */
  function DirectTokenFrom(s: string, i: nat): Option<Marker>
    requires i <= |s|
    decreases |s| - i
  {
    var n := MarkerOf(s[i..]);
    if n > 0 && i + n < |s| && IsAlnum(s[i + n]) && (i == 0 || !(IsAlnum(s[i - 1]) || s[i - 1] == '_'))
    then Some(Marker(DirectToken, i, i + n, None))
    else if i == |s| then None
    else DirectTokenFrom(s, i + 1)
  }

  function DirectTokens(s: string): Option<Marker> {
    DirectTokenFrom(s, 0)
  }

  lemma SpellsLocal(s: string, t: string, n: nat, word: string)
    requires n <= |s| && n <= |t| && s[..n] == t[..n] && |word| <= n
    ensures Spells(s, word) <==> Spells(t, word)
  {
    forall k | 0 <= k < n ensures s[k] == t[k] {
      assert s[..n][k] == t[..n][k];
    }
  }

  lemma SpellsLetter(t: string, word: string, k: nat)
    requires k < |word|
    ensures Spells(t, word) ==> Folded(t[k]) == word[k]
  {
  }

  /** The marker is read off its own characters alone. */
  lemma MarkerIsLocal(s: string, t: string)
    requires 0 < MarkerOf(s) <= |t| && s[..MarkerOf(s)] == t[..MarkerOf(s)]
    ensures MarkerOf(t) == MarkerOf(s)
  {
    var n := MarkerOf(s);
    forall k | 0 <= k < n ensures s[k] == t[k] {
      assert s[..n][k] == t[..n][k];
    }
    SpellsLetter(t, "github_pat_", 0);
    SpellsLetter(t, "github_pat_", 2);
    SpellsLetter(t, "gh", 0);
    SpellsLetter(t, "hf_", 0);
    SpellsLetter(t, "dgx_", 0);
    SpellsLetter(t, "sk-", 0);
    SpellsLetter(s, "gh", 0);
    SpellsLetter(s, "hf_", 0);
    SpellsLetter(s, "dgx_", 0);
    SpellsLetter(s, "sk-", 0);
    SpellsLetter(s, "xox", 0);
    if Spells(s, "github_pat_") {
      SpellsLocal(s, t, n, "github_pat_");
    } else {
      SpellsLocal(s, t, n, "gh");
      SpellsLocal(s, t, n, "hf_");
      SpellsLocal(s, t, n, "sk-");
      if 4 <= n {
        SpellsLocal(s, t, n, "dgx_");
        SpellsLocal(s, t, n, "xox");
      }
    }
    hide Spells, Folded;
  }

  lemma MarkerText(s: string, i: nat)
    requires i <= |s| && 0 < MarkerOf(s[i..])
    ensures MarkerOf(s[i..i + MarkerOf(s[i..])]) == MarkerOf(s[i..])
  {
    hide Spells, Folded;
    var n := MarkerOf(s[i..]);
    assert s[i..][..n] == s[i..i + n][..n];
    MarkerIsLocal(s[i..], s[i..i + n]);
  }

  lemma {:induction false} DirectTokensMatch(s: string, i: nat)
    requires i <= |s|
    ensures MatchOf(DirectTokenFrom(s, i), s, DirectToken)
    decreases |s| - i
  {
    hide MarkerOf, IsAlnum;
    if 0 < MarkerOf(s[i..]) {
      MarkerText(s, i);
    }
    if i < |s| {
      DirectTokensMatch(s, i + 1);
    }
  }

  // ----- the four patterns -----

  /** The four credential patterns; each returns its first match. */
  datatype Patterns = Patterns(authorization: Finder, assignmentKey: Finder, assignment: Finder,
                               direct: Finder)

  /** What is known about the patterns: matches are non-empty and inside the text, an assignment key
      ends with its quote, a captured quote is one, and a direct match is a marker with a letter or digit
      behind it. */
  ghost predicate PatternsMatch(p: Patterns) {
    && (forall s: string :: MatchOf(p.authorization(s), s, Authorization))
    && (forall s: string :: MatchOf(p.assignmentKey(s), s, AssignmentKey))
    && (forall s: string :: MatchOf(p.assignment(s), s, Assignment))
    && (forall s: string :: MatchOf(p.direct(s), s, DirectToken))
  }

  ghost predicate MatchOf(m: Option<Marker>, s: string, kind: Kind) {
    m.Some? ==>
      && m.value.kind == kind
      && m.value.start < m.value.end <= |s|
      && (kind.AssignmentKey? ==> IsQuote(s[m.value.end - 1]))
      && (kind.DirectToken? ==>
            && MarkerOf(s[m.value.start..m.value.end]) == m.value.end - m.value.start
            && m.value.end < |s| && IsAlnum(s[m.value.end]))
      && (m.value.quote.Some? ==> IsQuote(m.value.quote.value))
  }

  function Priority(k: Kind): nat {
    match k
    case Literal => 0
    case DirectToken => 1
    case AssignmentKey => 2
    case Assignment => 3
    case Authorization => 3
  }

  predicate Before(a: Marker, b: Marker) {
    a.start < b.start || (a.start == b.start && Priority(a.kind) < Priority(b.kind))
  }

  /** `min` over the candidates, the first of equals. */
  function Least(candidates: seq<Marker>): (m: Marker)
    requires candidates != []
    ensures m in candidates
    ensures forall c | c in candidates :: m.start <= c.start
  {
    if |candidates| == 1 then candidates[0]
    else
      var rest := Least(candidates[1..]);
      if Before(rest, candidates[0]) then rest else candidates[0]
  }

  function Listed(m: Option<Marker>): seq<Marker> {
    if m.Some? then [m.value] else []
  }

  function PatternMatches(p: Patterns, s: string): seq<Marker> {
    Listed(p.authorization(s)) + Listed(p.assignmentKey(s)) + Listed(p.assignment(s)) + Listed(p.direct(s))
  }

  /** `_next_marker`: a literal that starts inside any pattern's match wins at once. */
  function NextMarker(p: Patterns, secrets: seq<string>, s: string): Option<Marker> {
    var candidates := PatternMatches(p, s);
    var literal := SearchLiteral(secrets, s, 0);
    if literal.Some? && exists c :: c in candidates && c.start <= literal.value.start < c.end
    then literal
    else
      var all := candidates + Listed(literal);
      if all == [] then None else Some(Least(all))
  }

  lemma {:induction false} LeastIsFirst(candidates: seq<Marker>)
    requires candidates != []
    ensures forall c | c in candidates :: !Before(c, Least(candidates))
  {
    if |candidates| > 1 {
      LeastIsFirst(candidates[1..]);
      var m := Least(candidates);
      forall c | c in candidates ensures !Before(c, m) {
        assert c == candidates[0] || c in candidates[1..];
      }
    }
  }

  /** Of two matches at the same place a secret is taken before a token, a token before a quoted key, and
      that before the other patterns. */
  predicate NotOutranked(m: Marker, c: Marker) {
    && (c.kind.Literal? ==> m.kind.Literal?)
    && (c.kind.DirectToken? ==> m.kind.Literal? || m.kind.DirectToken?)
    && (c.kind.AssignmentKey? ==> !m.kind.Assignment? && !m.kind.Authorization?)
  }

  lemma BeforeOrOutranked(m: Marker, c: Marker)
    requires !Before(c, m)
    ensures m.start < c.start || (m.start == c.start && NotOutranked(m, c))
  {
  }

  /** A known secret that begins inside a pattern's match is taken; otherwise the match that begins first. */
  lemma NextMarkerIsFirst(p: Patterns, secrets: seq<string>, s: string)
    ensures var candidates, literal, next := PatternMatches(p, s), SearchLiteral(secrets, s, 0), NextMarker(p, secrets, s);
            var all := candidates + Listed(literal);
            && (next.None? <==> all == [])
            && (next.Some? ==> next.value in all)
            && (if literal.Some? && exists c :: c in candidates && c.start <= literal.value.start < c.end then next == literal
                else next.Some? ==>
                       forall c | c in all ::
                         next.value.start < c.start || (next.value.start == c.start && NotOutranked(next.value, c)))
  {
    var candidates, literal := PatternMatches(p, s), SearchLiteral(secrets, s, 0);
    var all := candidates + Listed(literal);
    if literal.Some? {
      assert literal.value == all[|candidates|];
    }
    if all != [] {
      var first := Least(all);
      LeastIsFirst(all);
      forall c | c in all
        ensures first.start < c.start || (first.start == c.start && NotOutranked(first, c))
      {
        BeforeOrOutranked(first, c);
      }
    }
    hide SearchLiteral, PatternMatches, Least, NotOutranked, Before, Listed;
  }

  function MarkerFinder(p: Patterns, secrets: seq<string>): Finder {
    s => NextMarker(p, secrets, s)
  }

  // ----- the search finds every occurrence -----

  lemma {:induction false} LongestAtFinds(secrets: seq<string>, s: string, i: nat)
    requires i <= |s|
    ensures LongestAt(secrets, s, i).Some? ==>
              LongestAt(secrets, s, i).value in secrets && Occurs(s, LongestAt(secrets, s, i).value, i)
    ensures LongestAt(secrets, s, i).None? ==> forall secret | secret in secrets :: !Occurs(s, secret, i)
    ensures LongestAt(secrets, s, i).Some? ==>
              forall secret | secret in secrets && Occurs(s, secret, i) ::
                |secret| <= |LongestAt(secrets, s, i).value|
  {
    if secrets != [] {
      LongestAtFinds(secrets[1..], s, i);
      assert forall secret | secret in secrets :: secret == secrets[0] || secret in secrets[1..];
    }
  }

  /** No secret starts in `s` before `end`. */
  ghost predicate NoneBefore(secrets: seq<string>, s: string, end: int) {
    forall secret, i | secret in secrets && 0 <= i < end :: !Occurs(s, secret, i)
  }

  lemma {:induction false} SearchIsLeftmost(secrets: seq<string>, s: string, i: nat)
    requires i <= |s| && NoneBefore(secrets, s, i)
    requires forall secret | secret in secrets :: secret != ""
    ensures var r := SearchLiteral(secrets, s, i);
            && (r.None? ==> NoneBefore(secrets, s, |s|))
            && (r.Some? ==>
                  && r.value.kind == Literal && r.value.quote.None?
                  && r.value.start < r.value.end <= |s|
                  && NoneBefore(secrets, s, r.value.start))
    decreases |s| - i
  {
    LongestAtFinds(secrets, s, i);
    if LongestAt(secrets, s, i).None? && i < |s| {
      SearchIsLeftmost(secrets, s, i + 1);
    }
  }

  lemma PatternMatchesAre(p: Patterns, s: string, m: Marker)
    requires PatternsMatch(p) && m in PatternMatches(p, s)
    ensures !m.kind.Literal? && MatchOf(Some(m), s, m.kind)
  {
    assert MatchOf(p.authorization(s), s, Authorization) && MatchOf(p.assignmentKey(s), s, AssignmentKey)
        && MatchOf(p.assignment(s), s, Assignment) && MatchOf(p.direct(s), s, DirectToken);
  }

  /** What a chosen marker guarantees: a non-empty match, and no secret starting before its end (before
      its start, for a literal). */
  ghost predicate Chosen(p: Patterns, secrets: seq<string>, s: string, m: Marker) {
    && MatchOf(Some(m), s, m.kind)
    && NoneBefore(secrets, s, if m.kind.Literal? then m.start else m.end)
  }

  /** No secret starts before the end of a chosen pattern match, nor before a chosen literal; when
      nothing is chosen no secret is present at all. */
  lemma NextMarkerMissesNothing(p: Patterns, secrets: seq<string>, s: string)
    requires PatternsMatch(p) && forall secret | secret in secrets :: secret != ""
    ensures NextMarker(p, secrets, s).None? ==> NoneBefore(secrets, s, |s|)
    ensures NextMarker(p, secrets, s).Some? ==> Chosen(p, secrets, s, NextMarker(p, secrets, s).value)
  {
    SearchIsLeftmost(secrets, s, 0);
    var candidates, literal := PatternMatches(p, s), SearchLiteral(secrets, s, 0);
    var all := candidates + Listed(literal);
    hide SearchLiteral, PatternMatches, Occurs;
    if literal.Some? {
      assert literal.value == all[|candidates|];
    }
    if all != [] {
      var m := Least(all);
      if m in candidates {
        PatternMatchesAre(p, s, m);
      }
    }
  }

  lemma FinderFindsInside(p: Patterns, secrets: seq<string>)
    requires PatternsMatch(p) && forall secret | secret in secrets :: secret != ""
    ensures FindsInside(MarkerFinder(p, secrets))
  {
    forall s: string
      ensures MarkerFinder(p, secrets)(s).Some? ==>
                MarkerFinder(p, secrets)(s).value.start < MarkerFinder(p, secrets)(s).value.end <= |s|
    {
      NextMarkerMissesNothing(p, secrets, s);
    }
  }

  // ----- clean output -----

  ghost predicate Clean(secrets: seq<string>, s: string) {
    forall secret, i | secret in secrets :: !Occurs(s, secret, i)
  }

  /** The secrets the guarantee is about: tokens that are not part of the replacement text. */
  ghost predicate Guarded(secrets: seq<string>, carry: nat) {
    forall secret | secret in secrets ::
      && secret != "" && |secret| <= carry
      && AllTokenChars(secret)
      && forall i :: !Occurs("REDACTED", secret, i)
  }

  lemma GuardedByMore(secrets: seq<string>, carry: nat, more: nat)
    requires Guarded(secrets, carry) && carry <= more
    ensures Guarded(secrets, more)
  {
    hide Occurs, AllTokenChars;
  }

  predicate Sealed(s: string) {
    s != "" && !IsTokenChar(s[|s| - 1])
  }

  lemma OccursAt(s: string, secret: string, i: int, j: int)
    requires Occurs(s, secret, i) && i <= j < i + |secret|
    ensures s[j] == secret[j - i]
  {
    assert s[i..i + |secret|][j - i] == secret[j - i];
  }

  lemma OccursIn(s: string, t: string, secret: string, offset: int, i: int)
    requires 0 <= offset <= i && offset + |t| <= |s| && t == s[offset..offset + |t|]
    requires Occurs(s, secret, i) && i + |secret| <= offset + |t|
    ensures Occurs(t, secret, i - offset)
  {
    SubSlice(s, offset, |t|, i - offset, i - offset + |secret|);
  }

  lemma SubSlice(s: string, offset: int, n: int, a: int, b: int)
    requires 0 <= offset && 0 <= a <= b <= n && offset + n <= |s|
    ensures s[offset..offset + n][a..b] == s[offset + a..offset + b]
  {
    var part, direct := s[offset..offset + n][a..b], s[offset + a..offset + b];
    forall j | 0 <= j < b - a ensures part[j] == direct[j] {
      assert part[j] == s[offset..offset + n][a + j];
    }
    assert |part| == |direct|;
  }

  lemma OccursAcross(a: string, b: string, secret: string, i: int)
    requires Occurs(a + b, secret, i)
    ensures || Occurs(a, secret, i)
            || Occurs(b, secret, i - |a|)
            || (i < |a| < i + |secret| && a[|a| - 1] == secret[|a| - 1 - i] && b[0] == secret[|a| - i])
  {
    assert (a + b)[0..|a|] == a && (a + b)[|a|..|a| + |b|] == b;
    if i + |secret| <= |a| {
      OccursIn(a + b, a, secret, 0, i);
    } else if |a| <= i {
      OccursIn(a + b, b, secret, |a|, i);
    } else {
      OccursAt(a + b, secret, i, |a| - 1);
      OccursAt(a + b, secret, i, |a|);
    }
  }

  /** A seam with a non-token character on one side cannot complete a secret. */
  lemma CleanConcat(secrets: seq<string>, carry: nat, a: string, b: string)
    requires Guarded(secrets, carry) && Clean(secrets, a) && Clean(secrets, b)
    requires Sealed(a) || b == "" || !IsTokenChar(b[0])
    ensures Clean(secrets, a + b)
  {
    forall secret, i | secret in secrets ensures !Occurs(a + b, secret, i) {
      if Occurs(a + b, secret, i) {
        OccursAcross(a, b, secret, i);
      }
    }
  }

  lemma CleanNonToken(secrets: seq<string>, carry: nat, s: string)
    requires Guarded(secrets, carry) && forall i | 0 <= i < |s| :: !IsTokenChar(s[i])
    ensures Clean(secrets, s)
  {
    forall secret, i | secret in secrets ensures !Occurs(s, secret, i) {
      if Occurs(s, secret, i) {
        OccursAt(s, secret, i, i);
      }
    }
  }

  lemma CleanRedacted(secrets: seq<string>, carry: nat)
    requires Guarded(secrets, carry)
    ensures Clean(secrets, REDACTED)
  {
    assert Clean(secrets, "REDACTED");
    CleanNonToken(secrets, carry, "[");
    CleanNonToken(secrets, carry, "]");
    CleanConcat(secrets, carry, "[", "REDACTED");
    assert "[" + "REDACTED" == "[REDACTED";
    CleanConcat(secrets, carry, "[REDACTED", "]");
    assert "[REDACTED" + "]" == REDACTED;
  }

  // ----- keys in the input -----

  predicate Reads(all: string, at: int, s: string) {
    0 <= at && at + |s| <= |all| && all[at..at + |s|] == s
  }

  /** A token that begins with a direct marker and goes on with a letter or digit. */
  predicate MarkedToken(t: string) {
    var n := MarkerOf(t);
    0 < n < |t| && IsAlnum(t[n]) && AllTokenChars(t[n..])
  }

  /** The input has, at i, a quoted marked token of n characters, k spaces and a colon. */
  predicate KeyAt(all: string, i: nat, n: nat, k: nat) {
    && i + n + k + 2 < |all|
    && IsQuote(all[i]) && all[i + 1 + n] == all[i]
    && n <= MAX_DIRECT_KEY_LENGTH && MarkedToken(all[i + 1..i + 1 + n])
    && k <= MAX_KEY_WHITESPACE && AllSpaces(all[i + 2 + n..i + 2 + n + k])
    && all[i + 2 + n + k] == ':'
  }

  /** No such key of the input holds a secret. */
  ghost predicate KeysClean(secrets: seq<string>, all: string) {
    forall i: nat, n: nat, k: nat | KeyAt(all, i, n, k) :: Clean(secrets, all[i + 1..i + 1 + n])
  }

  /** What was read of a possible key: the quote, the marker with the token so far, and `after`. */
  predicate KeyRead(all: string, at: nat, quote: char, text: string, after: string) {
    var n := MarkerOf(text);
    && |text| <= MAX_DIRECT_KEY_LENGTH && IsQuote(quote)
    && Reads(all, at - |after| - |text| - 1, [quote] + text + after)
    && 0 < n && AllTokenChars(text[n..])
    && (if n == |text| then after == "" && at < |all| && IsAlnum(all[at]) else IsAlnum(text[n]))
  }

  lemma ReadsMore(all: string, at: int, s: string, c: char)
    requires Reads(all, at, s) && at + |s| < |all| && all[at + |s|] == c
    ensures Reads(all, at, s + [c])
  {
  }

  lemma ReadsOne(all: string, at: int, s: string)
    requires Reads(all, at, s) && s != ""
    ensures all[at] == s[0] && Reads(all, at + 1, s[1..])
  {
    SubSlice(all, at, |s|, 1, |s|);
    assert all[at] == all[at..at + |s|][0];
  }

  lemma KeyReadToken(all: string, at: nat, quote: char, text: string, c: char)
    requires KeyRead(all, at, quote, text, "") && |text| < MAX_DIRECT_KEY_LENGTH
    requires at < |all| && all[at] == c && IsTokenChar(c)
    ensures KeyRead(all, at + 1, quote, text + [c], "")
  {
    var n, longer := MarkerOf(text), text + [c];
    assert longer[..n] == text[..n];
    MarkerIsLocal(text, longer);
    hide MarkerOf, Folded;
    assert [quote] + text + "" == [quote] + text;
    ReadsMore(all, at - |text| - 1, [quote] + text, c);
    assert [quote] + longer + "" == [quote] + text + [c];
    assert longer[n..] == text[n..] + [c];
  }

  /** The closing quote cannot follow the bare marker. */
  lemma KeyReadQuote(all: string, at: nat, quote: char, text: string)
    requires KeyRead(all, at, quote, text, "") && at < |all| && all[at] == quote
    ensures KeyRead(all, at + 1, quote, text, [quote]) && MarkedToken(text)
  {
    hide MarkerOf;
    assert [quote] + text + "" == [quote] + text;
    ReadsMore(all, at - |text| - 1, [quote] + text, quote);
  }

  lemma KeyReadSpace(all: string, at: nat, quote: char, text: string, after: string, c: char)
    requires KeyRead(all, at, quote, text, after) && after != "" && at < |all| && all[at] == c
    ensures KeyRead(all, at + 1, quote, text, after + [c])
  {
    hide MarkerOf;
    ReadsMore(all, at - |after| - |text| - 1, [quote] + text + after, c);
    ConcatAssociative([quote] + text, after, [c]);
  }

  /** A completed key is one of the input's keys. */
  lemma KeyReadIsKey(secrets: seq<string>, all: string, at: nat, quote: char, text: string, spaces: string)
    requires KeysClean(secrets, all) && KeyRead(all, at, quote, text, [quote] + spaces)
    requires AllSpaces(spaces) && |spaces| <= MAX_KEY_WHITESPACE && at < |all| && all[at] == ':'
    ensures Clean(secrets, text)
  {
    hide MarkerOf, Folded, IsAlnum;
    var read, i := [quote] + text + ([quote] + spaces), at - |spaces| - |text| - 2;
    var n, k := |text|, |spaces|;
    assert all[i] == read[0] && all[i + 1 + n] == read[1 + n];
    SubSlice(all, i, |read|, 1, 1 + n);
    assert read[1..1 + n] == text;
    SubSlice(all, i, |read|, 2 + n, 2 + n + k);
    assert read[2 + n..2 + n + k] == spaces;
    assert KeyAt(all, i, n, k);
  }

  // ----- the hiding modes -----

  /** The invariant of the non-normal modes over everything published so far, `at` characters into the
      input. A token that may still be shown as a key stands behind a quote that was published last. */
  ghost predicate Hidden(secrets: seq<string>, all: string, at: nat, published: string, m: Mode) {
    && Clean(secrets, published)
    && match m
       case Normal => Sealed(published)
       case KeyColon => Sealed(published)
       case Direct(text, preservable, keyQuote) =>
         && (keyQuote.Some? ==> IsQuote(keyQuote.value))
         && (preservable && keyQuote.Some? && text.Some? ==>
               Sealed(published) && KeyRead(all, at, keyQuote.value, text.value, ""))
       case DirectKey(text, preservable, quote, spaces) =>
         && IsQuote(quote) && AllSpaces(spaces) && |spaces| <= MAX_KEY_WHITESPACE
         && (preservable && text.Some? ==>
               Sealed(published) && KeyRead(all, at, quote, text.value, [quote] + spaces))
       case Quoted(quote, _) => IsQuote(quote)
       case _ => true
  }

  /** Publishing a replacement text (or nothing) and then separators. */
  lemma PublishReplaced(secrets: seq<string>, carry: nat, published: string, text: Option<string>, tail: string)
    requires Guarded(secrets, carry) && Clean(secrets, published)
    requires forall i | 0 <= i < |tail| :: !IsTokenChar(tail[i])
    ensures Clean(secrets, published + (EmitText(text, false) + tail))
    ensures tail != "" ==> Sealed(published + (EmitText(text, false) + tail))
  {
    CleanRedacted(secrets, carry);
    CleanNonToken(secrets, carry, tail);
    CleanConcat(secrets, carry, REDACTED, tail);
    assert "" + tail == tail;
    CleanConcat(secrets, carry, published, EmitText(text, false) + tail);
  }

  /** Publishing a key as it stands, behind its quote. */
  lemma PublishKey(secrets: seq<string>, carry: nat, published: string, text: string, tail: string)
    requires Guarded(secrets, carry) && Clean(secrets, published) && Sealed(published) && Clean(secrets, text)
    requires tail != "" && forall i | 0 <= i < |tail| :: !IsTokenChar(tail[i])
    ensures Clean(secrets, published + (text + tail)) && Sealed(published + (text + tail))
  {
    CleanNonToken(secrets, carry, tail);
    CleanConcat(secrets, carry, text, tail);
    CleanConcat(secrets, carry, published, text + tail);
  }

  lemma PublishSeparator(secrets: seq<string>, carry: nat, published: string, c: char)
    requires Guarded(secrets, carry) && Clean(secrets, published) && !IsTokenChar(c)
    ensures Clean(secrets, published + [c]) && Sealed(published + [c])
  {
    CleanNonToken(secrets, carry, [c]);
    CleanConcat(secrets, carry, published, [c]);
  }

  lemma StepHidesToken(secrets: seq<string>, carry: nat, all: string, at: nat, published: string, m: Mode, c: char)
    requires Guarded(secrets, carry) && Hidden(secrets, all, at, published, m) && m.Direct?
    requires at < |all| && all[at] == c
    ensures Hidden(secrets, all, at + 1, published + Step(m, c).output, Step(m, c).mode)
  {
    hide Occurs, Clean, Guarded, KeyRead, MarkedToken, Sealed;
    assert published + "" == published;
    var live := m.preservable && m.keyQuote.Some? && m.text.Some?;
    if IsTokenChar(c) {
      PublishReplaced(secrets, carry, published, m.text, "");
      assert EmitText(m.text, false) + "" == EmitText(m.text, false);
      if live && |m.text.value| < MAX_DIRECT_KEY_LENGTH {
        KeyReadToken(all, at, m.keyQuote.value, m.text.value, c);
      }
    } else {
      PublishReplaced(secrets, carry, published, m.text, [c]);
      if live && m.keyQuote == Some(c) {
        KeyReadQuote(all, at, c, m.text.value);
        assert [c] + "" == [c];
      }
    }
  }

  lemma StepHidesKey(secrets: seq<string>, carry: nat, all: string, at: nat, published: string, m: Mode, c: char)
    requires Guarded(secrets, carry) && KeysClean(secrets, all) && Hidden(secrets, all, at, published, m) && m.DirectKey?
    requires at < |all| && all[at] == c
    ensures var s := Step(m, c); Hidden(secrets, all, if s.consumed then at + 1 else at, published + s.output, s.mode)
  {
    hide Occurs, Clean, Guarded, KeysClean, KeyRead, Sealed;
    var s := Step(m, c);
    var live := m.preservable && m.text.Some?;
    if IsJsonSpace(c) && |m.spaces| < MAX_KEY_WHITESPACE {
      assert published + "" == published;
      if live {
        KeyReadSpace(all, at, m.quote, m.text.value, [m.quote] + m.spaces, c);
        ConcatAssociative([m.quote], m.spaces, [c]);
      }
    } else if c == ':' && live {
      KeyReadIsKey(secrets, all, at, m.quote, m.text.value, m.spaces);
      PublishKey(secrets, carry, published, m.text.value, [m.quote] + m.spaces + ":");
      assert s.output == m.text.value + ([m.quote] + m.spaces + ":");
    } else {
      var last := if IsJsonSpace(c) then [c] else if c == ':' then ":" else "";
      var tail := [m.quote] + m.spaces + last;
      PublishReplaced(secrets, carry, published, m.text, tail);
      assert s.output == EmitText(m.text, false) + tail;
    }
  }

  lemma StepHidesValue(secrets: seq<string>, carry: nat, all: string, at: nat, published: string, c: char)
    requires Guarded(secrets, carry) && Hidden(secrets, all, at, published, AssignmentValue)
    ensures Hidden(secrets, all, at, published + Step(AssignmentValue, c).output, Step(AssignmentValue, c).mode)
  {
    hide Occurs, Clean, Guarded;
    CleanRedacted(secrets, carry);
    if IsJsonSpace(c) || IsQuote(c) {
      PublishSeparator(secrets, carry, published, c);
      CleanConcat(secrets, carry, published + [c], REDACTED);
      ConcatAssociative(published, [c], REDACTED);
    } else {
      CleanConcat(secrets, carry, published, REDACTED);
    }
  }

  lemma StepHidesSeparator(secrets: seq<string>, carry: nat, all: string, at: nat, published: string, m: Mode, c: char)
    requires Guarded(secrets, carry) && Hidden(secrets, all, at, published, m)
    requires m.KeyColon? || m.Quoted? || m.Unquoted?
    ensures Hidden(secrets, all, at, published + Step(m, c).output, Step(m, c).mode)
  {
    hide Occurs, Clean, Guarded;
    assert published + "" == published;
    if Step(m, c).output != "" {
      PublishSeparator(secrets, carry, published, c);
    }
  }

  /** Outside the token modes the place in the input does not matter. */
  lemma HiddenAnywhere(secrets: seq<string>, all: string, at: nat, at': nat, published: string, m: Mode)
    requires Hidden(secrets, all, at, published, m) && !m.Direct? && !m.DirectKey?
    ensures Hidden(secrets, all, at', published, m)
  {
  }

  lemma StepHides(secrets: seq<string>, carry: nat, all: string, at: nat, published: string, m: Mode, c: char)
    requires Guarded(secrets, carry) && KeysClean(secrets, all) && Hidden(secrets, all, at, published, m) && !m.Normal?
    requires at < |all| && all[at] == c
    ensures var s := Step(m, c); Hidden(secrets, all, if s.consumed then at + 1 else at, published + s.output, s.mode)
  {
    hide Hidden, Guarded, KeysClean, Clean, EmitText;
    var s := Step(m, c);
    match m {
      case Direct(_, _, _) => StepHidesToken(secrets, carry, all, at, published, m, c);
      case DirectKey(_, _, _, _) => StepHidesKey(secrets, carry, all, at, published, m, c);
      case AssignmentValue => StepHidesValue(secrets, carry, all, at, published, c);
      case KeyColon => StepHidesSeparator(secrets, carry, all, at, published, m, c);
      case Quoted(_, _) => StepHidesSeparator(secrets, carry, all, at, published, m, c);
      case Unquoted => StepHidesSeparator(secrets, carry, all, at, published, m, c);
    }
    if !m.Direct? && !m.DirectKey? {
      HiddenAnywhere(secrets, all, at, at + 1, published + s.output, s.mode);
    }
  }

  lemma {:induction false} RunHides(secrets: seq<string>, carry: nat, all: string, at: nat, published: string, m: Mode,
                                    text: string)
    requires Guarded(secrets, carry) && KeysClean(secrets, all) && Hidden(secrets, all, at, published, m)
    requires Reads(all, at, text)
    ensures var r := Run(m, text);
            var end := at + |text| - |r.rest|;
            Hidden(secrets, all, end, published + r.output, r.mode) && Reads(all, end, r.rest)
    decreases |text|, Rank(m)
  {
    hide Hidden, KeysClean, Guarded, Clean, EmitText;
    if m.Normal? || text == "" {
      assert published + "" == published;
    } else {
      ReadsOne(all, at, text);
      StepHides(secrets, carry, all, at, published, m, text[0]);
      var s := Step(m, text[0]);
      var next := if s.consumed then text[1..] else text;
      RunOne(m, text);
      hide Run, Step, Reads;
      RunHides(secrets, carry, all, if s.consumed then at + 1 else at, published + s.output, s.mode, next);
      ConcatAssociative(published, s.output, Run(s.mode, next).output);
    }
  }

  /** `secret` may still turn out to occur at `i` when `s` is extended. */
  ghost predicate Agrees(s: string, secret: string, i: nat) {
    forall j | 0 <= j < |secret| && i + j < |s| :: s[i + j] == secret[j]
  }

  /** The invariant of normal mode: in no extension of published text plus buffer does a secret start
      inside what is already published. */
  ghost predicate NoneStarted(secrets: seq<string>, published: string, buffer: string) {
    forall secret, i | secret in secrets && 0 <= i < |published| :: !Agrees(published + buffer, secret, i)
  }

  lemma AgreesBefore(s: string, more: string, secret: string, i: nat)
    requires Agrees(s + more, secret, i)
    ensures Agrees(s, secret, i)
  {
    forall j | 0 <= j < |secret| && i + j < |s| ensures s[i + j] == secret[j] {
      assert (s + more)[i + j] == s[i + j];
    }
  }

  lemma NoneStartedExtends(secrets: seq<string>, published: string, buffer: string, more: string)
    requires NoneStarted(secrets, published, buffer)
    ensures NoneStarted(secrets, published, buffer + more)
  {
    ConcatAssociative(published, buffer, more);
    forall secret, i | secret in secrets && 0 <= i < |published|
      ensures !Agrees(published + (buffer + more), secret, i)
    {
      if Agrees(published + (buffer + more), secret, i) {
        AgreesBefore(published + buffer, more, secret, i);
      }
    }
  }

  lemma AgreesFromPublished(published: string, buffer: string, secret: string, i: nat)
    requires i < |published| && Agrees(published + buffer, secret, i)
    ensures || Occurs(published, secret, i)
            || (|published| < i + |secret| && published[|published| - 1] == secret[|published| - 1 - i])
  {
    var whole := published + buffer;
    if i + |secret| <= |published| {
      forall j | 0 <= j < |secret| ensures published[i + j] == secret[j] {
        assert whole[i + j] == secret[j];
      }
      assert published[i..i + |secret|] == secret;
    } else {
      var j := |published| - 1 - i;
      assert whole[i + j] == secret[j];
    }
  }

  lemma SealedStartsNothing(secrets: seq<string>, carry: nat, published: string, buffer: string)
    requires Guarded(secrets, carry) && Clean(secrets, published) && Sealed(published)
    ensures NoneStarted(secrets, published, buffer)
  {
    forall secret, i | secret in secrets && 0 <= i < |published|
      ensures !Agrees(published + buffer, secret, i)
    {
      if Agrees(published + buffer, secret, i) {
        AgreesFromPublished(published, buffer, secret, i);
      }
    }
  }

  lemma AgreesWhenComplete(s: string, secret: string, i: int)
    requires Occurs(s, secret, i)
    ensures Agrees(s, secret, i)
  {
    forall j | 0 <= j < |secret| && i + j < |s| ensures s[i + j] == secret[j] {
      OccursAt(s, secret, i, i + j);
    }
  }

  lemma OccursInPrefix(published: string, buffer: string, k: nat, secret: string, i: int)
    requires k <= |buffer| && Occurs(published + buffer[..k], secret, i)
    ensures i < |published| ==> Agrees(published + buffer, secret, i)
    ensures |published| <= i ==> Occurs(buffer, secret, i - |published|) && (secret != "" ==> i - |published| < k)
  {
    var out, whole := published + buffer[..k], published + buffer;
    assert out == whole[0..|out|] && buffer == whole[|published|..|published| + |buffer|];
    SubSlice(whole, 0, |out|, i, i + |secret|);
    AgreesWhenComplete(whole, secret, i);
    if |published| <= i {
      OccursIn(whole, buffer, secret, |published|, i);
    }
  }

  /** Publishing a prefix of the buffer in which no secret starts keeps the output clean. */
  lemma PublishPrefix(secrets: seq<string>, carry: nat, published: string, buffer: string, k: nat)
    requires Guarded(secrets, carry) && NoneStarted(secrets, published, buffer)
    requires k <= |buffer| && NoneBefore(secrets, buffer, k)
    ensures Clean(secrets, published + buffer[..k])
  {
    forall secret, i | secret in secrets ensures !Occurs(published + buffer[..k], secret, i) {
      if Occurs(published + buffer[..k], secret, i) {
        OccursInPrefix(published, buffer, k, secret, i);
      }
    }
  }

  lemma AgreesInBuffer(published: string, buffer: string, secret: string, i: nat)
    requires |published| <= i && i + |secret| <= |published| + |buffer|
    requires Agrees(published + buffer, secret, i)
    ensures Occurs(buffer, secret, i - |published|)
  {
    var at := i - |published|;
    forall j | 0 <= j < |secret| ensures buffer[at + j] == secret[j] {
      assert (published + buffer)[i + j] == secret[j];
    }
    assert buffer[at..at + |secret|] == secret;
  }

  /** The carry is long enough: nothing that could still complete starts in the released prefix. */
  lemma CarryHoldsBack(secrets: seq<string>, carry: nat, published: string, buffer: string, k: nat)
    requires Guarded(secrets, carry) && NoneStarted(secrets, published, buffer)
    requires k + carry == |buffer| && NoneBefore(secrets, buffer, |buffer|)
    ensures NoneStarted(secrets, published + buffer[..k], buffer[k..])
  {
    assert published + buffer[..k] + buffer[k..] == published + buffer;
    forall secret, i | secret in secrets && 0 <= i < |published + buffer[..k]|
      ensures !Agrees(published + buffer, secret, i)
    {
      if Agrees(published + buffer, secret, i) && |published| <= i {
        AgreesInBuffer(published, buffer, secret, i);
      }
    }
  }

  /** The invariant between and during scans. */
  ghost predicate Safe(secrets: seq<string>, all: string, at: nat, published: string, m: Mode, buffer: string) {
    && Reads(all, at, buffer)
    && if m.Normal? then NoneStarted(secrets, published, buffer) && Clean(secrets, published)
       else Hidden(secrets, all, at, published, m)
  }

  lemma EnterHides(secrets: seq<string>, carry: nat, all: string, at: nat, published: string, buffer: string, mk: Marker)
    requires Guarded(secrets, carry) && Safe(secrets, all, at, published, Normal, buffer)
    requires MatchOf(Some(mk), buffer, mk.kind)
    requires NoneBefore(secrets, buffer, if mk.kind.Literal? then mk.start else mk.end)
    ensures var (shown, mode) := Enter(mk.kind, buffer[mk.start..mk.end], Preceding(buffer, mk.start), mk.quote);
            Safe(secrets, all, at + mk.end, published + (buffer[..mk.start] + shown), mode, buffer[mk.end..])
  {
    ReadsTail(all, at, buffer, mk.end);
    var before, marker := buffer[..mk.start], buffer[mk.start..mk.end];
    CleanRedacted(secrets, carry);
    assert before + "" == before;
    assert buffer[..mk.end] == before + marker;
    var unshown := mk.kind.Literal? || mk.kind.DirectToken?;
    PublishPrefix(secrets, carry, published, buffer, if unshown then mk.start else mk.end);
    if mk.kind.DirectToken? && Preceding(buffer, mk.start).Some? {
      MarkerReads(all, at, published, buffer, mk);
    }
    hide Occurs, Clean, Guarded, NoneStarted, NoneBefore, KeyRead, MarkerOf, Reads;
    if unshown {
      CleanConcat(secrets, carry, published + before, REDACTED);
      ConcatAssociative(published, before, REDACTED);
    } else {
      CleanConcat(secrets, carry, published + (before + marker), REDACTED);
      ConcatAssociative(published, before + marker, REDACTED);
      ConcatAssociative(before, marker, REDACTED);
    }
  }

  /** A direct marker behind a quote begins a possible key. */
  lemma MarkerReads(all: string, at: nat, published: string, buffer: string, mk: Marker)
    requires Reads(all, at, buffer) && MatchOf(Some(mk), buffer, DirectToken)
    requires Preceding(buffer, mk.start).Some? && mk.end - mk.start <= MAX_DIRECT_KEY_LENGTH
    ensures Sealed(published + buffer[..mk.start])
    ensures KeyRead(all, at + mk.end, Preceding(buffer, mk.start).value, buffer[mk.start..mk.end], "")
  {
    hide MarkerOf;
    var quote, marker := buffer[mk.start - 1], buffer[mk.start..mk.end];
    assert [quote] + marker + "" == buffer[mk.start - 1..mk.end];
    SubSlice(all, at, |buffer|, mk.start - 1, mk.end);
    assert all[at..at + |buffer|][mk.end] == all[at + mk.end];
  }

  /** What one scan must leave behind. */
  ghost predicate ScanSafe(secrets: seq<string>, all: string, end: nat, published: string, r: Result, final: bool) {
    && |r.rest| <= end
    && Clean(secrets, published + r.output)
    && (!final ==> Safe(secrets, all, end - |r.rest|, published + r.output, r.mode, r.rest))
    && (!r.mode.Normal? ==> r.rest == "")
  }

  lemma ScanSafePrepended(secrets: seq<string>, all: string, end: nat, published: string, output: string, r: Result,
                          final: bool)
    requires ScanSafe(secrets, all, end, published + output, r, final)
    ensures ScanSafe(secrets, all, end, published, Prepend(output, r), final)
  {
    ConcatAssociative(published, output, r.output);
  }

  lemma ReadsTail(all: string, at: nat, s: string, k: nat)
    requires Reads(all, at, s) && k <= |s|
    ensures Reads(all, at + k, s[k..])
  {
    SubSlice(all, at, |s|, k, |s|);
  }

  /** A scan that finds no marker. */
  lemma NoMarkerSafe(secrets: seq<string>, carry: nat, all: string, at: nat, published: string, buffer: string, final: bool)
    requires Guarded(secrets, carry) && Safe(secrets, all, at, published, Normal, buffer)
    requires NoneBefore(secrets, buffer, |buffer|)
    ensures var end := at + |buffer|;
            if final then ScanSafe(secrets, all, end, published, Result(buffer, Normal, ""), final)
            else if carry < |buffer| then
              var k := |buffer| - carry;
              ScanSafe(secrets, all, end, published, Result(buffer[..k], Normal, buffer[k..]), final)
            else ScanSafe(secrets, all, end, published, Result("", Normal, buffer), final)
  {
    assert published + "" == published;
    if final {
      PublishPrefix(secrets, carry, published, buffer, |buffer|);
      assert buffer[..|buffer|] == buffer;
    } else if carry < |buffer| {
      PublishPrefix(secrets, carry, published, buffer, |buffer| - carry);
      CarryHoldsBack(secrets, carry, published, buffer, |buffer| - carry);
      ReadsTail(all, at, buffer, |buffer| - carry);
    }
  }

  lemma EmptySafe(secrets: seq<string>, all: string, at: nat, published: string, final: bool)
    requires Safe(secrets, all, at, published, Normal, "")
    ensures ScanSafe(secrets, all, at, published, Result("", Normal, ""), final)
  {
    assert published + "" == published;
  }

  /** The secrets searched for, and among them those whose hiding is followed. */
  ghost predicate Searched(secrets: seq<string>, hidden: seq<string>) {
    && (forall secret | secret in secrets :: secret != "")
    && (forall secret | secret in hidden :: secret in secrets)
  }

  lemma {:induction false} ScanHides(p: Patterns, secrets: seq<string>, hidden: seq<string>, carry: nat, all: string,
                                     at: nat, published: string, m: Mode, buffer: string, final: bool)
    requires PatternsMatch(p) && Searched(secrets, hidden) && Guarded(hidden, carry) && KeysClean(hidden, all)
    requires FindsInside(MarkerFinder(p, secrets))
    requires Safe(hidden, all, at, published, m, buffer)
    ensures ScanSafe(hidden, all, at + |buffer|, published, Scan(MarkerFinder(p, secrets), carry, m, buffer, final), final)
    decreases |buffer|, if m.Normal? then 0 else 1
  {
    hide Run, NextMarker, Enter, Safe, NoneBefore, ScanSafe, KeysClean, Guarded, PatternsMatch, MatchOf, Preceding, Scan,
      Flush, Prepend, FindsInside, MarkerFinder, Searched;
    var find := MarkerFinder(p, secrets);
    if !m.Normal? {
      var r := Run(m, buffer);
      ScanRuns(find, carry, m, buffer, final);
      RunSafe(hidden, carry, all, at, published, m, buffer, final);
      if r.mode.Normal? {
        var end := at + |buffer| - |r.rest|;
        ScanHides(p, secrets, hidden, carry, all, end, published + r.output, Normal, r.rest, final);
        ScanSafePrepended(hidden, all, at + |buffer|, published, r.output, Scan(find, carry, Normal, r.rest, final), final);
      }
    } else if buffer == "" {
      ScanEnds(find, carry, buffer, final);
      EmptySafe(hidden, all, at, published, final);
    } else {
      FinderHides(p, secrets, hidden, buffer);
      var candidate := find(buffer);
      if candidate.None? {
        ScanEnds(find, carry, buffer, final);
        NoMarkerSafe(hidden, carry, all, at, published, buffer, final);
      } else {
        var mk := candidate.value;
        ScanEnters(find, carry, buffer, mk, final);
        EnterHides(hidden, carry, all, at, published, buffer, mk);
        var (shown, mode) := Enter(mk.kind, buffer[mk.start..mk.end], Preceding(buffer, mk.start), mk.quote);
        var lead := buffer[..mk.start] + shown;
        ScanHides(p, secrets, hidden, carry, all, at + mk.end, published + lead, mode, buffer[mk.end..], final);
        ScanSafePrepended(hidden, all, at + |buffer|, published, lead, Scan(find, carry, mode, buffer[mk.end..], final), final);
      }
    }
  }

  /** Running the transducer: back to normal mode, or the scan ends inside a hidden value. */
  lemma RunSafe(secrets: seq<string>, carry: nat, all: string, at: nat, published: string, m: Mode, buffer: string,
                final: bool)
    requires Guarded(secrets, carry) && KeysClean(secrets, all) && Safe(secrets, all, at, published, m, buffer) && !m.Normal?
    ensures var r, end := Run(m, buffer), at + |buffer|;
            if r.mode.Normal? then Safe(secrets, all, end - |r.rest|, published + r.output, Normal, r.rest)
            else if final
            then ScanSafe(secrets, all, end, published, Result(r.output + Flush(r.mode).0, Flush(r.mode).1, ""), final)
            else ScanSafe(secrets, all, end, published, r, final)
  {
    hide Run, Hidden, KeysClean, Guarded, Reads, ScanSafe, Flush, Clean, NoneStarted;
    var r := Run(m, buffer);
    var end := at + |buffer| - |r.rest|;
    RunHides(secrets, carry, all, at, published, m, buffer);
    if r.mode.Normal? {
      BackToNormal(secrets, carry, all, end, published + r.output, r.rest);
    } else {
      StaysHidden(secrets, carry, all, end, published, r, final);
    }
  }

  lemma FinderHides(p: Patterns, secrets: seq<string>, hidden: seq<string>, s: string)
    requires PatternsMatch(p) && Searched(secrets, hidden)
    ensures var m := MarkerFinder(p, secrets)(s);
            if m.None? then NoneBefore(hidden, s, |s|)
            else MatchOf(m, s, m.value.kind)
                 && NoneBefore(hidden, s, if m.value.kind.Literal? then m.value.start else m.value.end)
  {
    NextMarkerMissesNothing(p, secrets, s);
    hide NextMarker, Occurs;
  }

  lemma BackToNormal(secrets: seq<string>, carry: nat, all: string, at: nat, published: string, rest: string)
    requires Guarded(secrets, carry) && Hidden(secrets, all, at, published, Normal) && Reads(all, at, rest)
    ensures Safe(secrets, all, at, published, Normal, rest)
  {
    SealedStartsNothing(secrets, carry, published, rest);
  }

  /** A scan that ends inside a hidden value. */
  lemma StaysHidden(secrets: seq<string>, carry: nat, all: string, end: nat, published: string, r: Result, final: bool)
    requires Guarded(secrets, carry) && Hidden(secrets, all, end, published + r.output, r.mode) && !r.mode.Normal?
    requires r.rest == "" && Reads(all, end, "")
    ensures if final then ScanSafe(secrets, all, end, published, Result(r.output + Flush(r.mode).0, Flush(r.mode).1, ""), final)
            else ScanSafe(secrets, all, end, published, r, final)
  {
    if final {
      FlushHides(secrets, carry, all, end, published + r.output, r.mode);
      ConcatAssociative(published, r.output, Flush(r.mode).0);
    }
  }

  lemma FlushHides(secrets: seq<string>, carry: nat, all: string, at: nat, published: string, m: Mode)
    requires Guarded(secrets, carry) && Hidden(secrets, all, at, published, m) && !m.Normal?
    ensures Clean(secrets, published + Flush(m).0)
  {
    hide KeyRead;
    assert published + "" == published;
    match m
    case Direct(text, _, _) =>
      PublishReplaced(secrets, carry, published, text, "");
      assert EmitText(text, false) + "" == EmitText(text, false);
    case DirectKey(text, _, quote, spaces) =>
      PublishReplaced(secrets, carry, published, text, [quote] + spaces);
      ConcatAssociative(EmitText(text, false), [quote], spaces);
    case _ =>
  }

  /** The invariant after some chunks of an input that may go on. */
  lemma {:induction false} FeedsHide(p: Patterns, secrets: seq<string>, hidden: seq<string>, carry: nat, all: string,
                                     chunks: seq<string>)
    requires PatternsMatch(p) && Searched(secrets, hidden) && Guarded(hidden, carry) && KeysClean(hidden, all)
    requires FindsInside(MarkerFinder(p, secrets)) && Reads(all, 0, Concat(chunks))
    ensures var fed := Feeds(MarkerFinder(p, secrets), carry, chunks);
            && |fed.rest| <= |Concat(chunks)|
            && Safe(hidden, all, |Concat(chunks)| - |fed.rest|, fed.output, fed.mode, fed.rest)
            && (!fed.mode.Normal? ==> fed.rest == "")
  {
    hide Scan, Safe, KeysClean, Guarded, PatternsMatch, Searched, MarkerFinder;
    if chunks != [] {
      var find := MarkerFinder(p, secrets);
      var earlier, last := chunks[..|chunks| - 1], chunks[|chunks| - 1];
      SubSlice(all, 0, |Concat(chunks)|, 0, |Concat(earlier)|);
      assert Concat(chunks)[..|Concat(earlier)|] == Concat(earlier);
      FeedsHide(p, secrets, hidden, carry, all, earlier);
      var before := Feeds(find, carry, earlier);
      var at := |Concat(earlier)| - |before.rest|;
      SafeExtends(hidden, all, Concat(earlier), last, before);
      hide Reads;
      ScanHides(p, secrets, hidden, carry, all, at, before.output, before.mode, before.rest + last, false);
      ScanSafeParts(hidden, all, |Concat(chunks)|, before.output, Scan(find, carry, before.mode, before.rest + last, false));
    } else {
      NothingPublished(hidden, carry, all);
    }
  }

  lemma SafeExtends(secrets: seq<string>, all: string, earlier: string, last: string, before: Result)
    requires |before.rest| <= |earlier| && Reads(all, 0, earlier + last) && (!before.mode.Normal? ==> before.rest == "")
    requires Safe(secrets, all, |earlier| - |before.rest|, before.output, before.mode, before.rest)
    ensures Safe(secrets, all, |earlier| - |before.rest|, before.output, before.mode, before.rest + last)
  {
    ReadsChunk(all, earlier, last, before.rest);
    hide Hidden, Clean, NoneStarted;
    if before.mode.Normal? {
      NoneStartedExtends(secrets, before.output, before.rest, last);
    }
  }

  lemma ScanSafeParts(secrets: seq<string>, all: string, end: nat, published: string, r: Result)
    requires ScanSafe(secrets, all, end, published, r, false)
    ensures |r.rest| <= end && Safe(secrets, all, end - |r.rest|, published + r.output, r.mode, r.rest)
    ensures !r.mode.Normal? ==> r.rest == ""
  {
  }

  lemma ReadsChunk(all: string, earlier: string, last: string, rest: string)
    requires Reads(all, 0, earlier + last) && |rest| <= |earlier| && Reads(all, |earlier| - |rest|, rest)
    ensures Reads(all, |earlier| - |rest|, rest + last)
  {
    var at := |earlier| - |rest|;
    SubSlice(all, 0, |earlier + last|, |earlier|, |earlier + last|);
    assert (earlier + last)[|earlier|..] == last;
    assert all[at..at + |rest + last|] == all[at..at + |rest|] + all[|earlier|..|earlier| + |last|];
  }

  lemma NothingPublished(secrets: seq<string>, carry: nat, all: string)
    requires Guarded(secrets, carry)
    ensures Safe(secrets, all, 0, "", Normal, "")
  {
    CleanNonToken(secrets, carry, "");
  }

  // ----- what is always hidden -----

  /** For every input and every chunking, whatever the patterns match: a known secret made of token
      characters and not part of "REDACTED" is published only if the input has it inside a key, that is
      a quoted token of at most 256 characters which begins with a direct marker and is followed, after
      at most 128 spaces, by a colon. */
  lemma PublishedOnlyInKeys(p: Patterns, secrets: seq<string>, secret: string, carry: nat, chunks: seq<string>)
    requires PatternsMatch(p) && Searched(secrets, [secret]) && Guarded([secret], carry)
    requires KeysClean([secret], Concat(chunks))
    ensures FindsInside(MarkerFinder(p, secrets))
    ensures forall i :: !Occurs(Published(MarkerFinder(p, secrets), carry, chunks), secret, i)
  {
    FinderFindsInside(p, secrets);
    EverythingHidden(p, secrets, [secret], carry, chunks);
    hide Published, Occurs;
    assert secret in [secret];
  }

  lemma EverythingHidden(p: Patterns, secrets: seq<string>, hidden: seq<string>, carry: nat, chunks: seq<string>)
    requires PatternsMatch(p) && Searched(secrets, hidden) && Guarded(hidden, carry)
    requires FindsInside(MarkerFinder(p, secrets)) && KeysClean(hidden, Concat(chunks))
    ensures Clean(hidden, Published(MarkerFinder(p, secrets), carry, chunks))
  {
    hide *;
    var find, all := MarkerFinder(p, secrets), Concat(chunks);
    var fed := Feeds(find, carry, chunks);
    ReadsItself(all);
    FeedsHide(p, secrets, hidden, carry, all, chunks);
    ScanHides(p, secrets, hidden, carry, all, |all| - |fed.rest|, fed.output, fed.mode, fed.rest, true);
    FinalScanClean(hidden, all, |all|, find, carry, chunks);
  }

  lemma ReadsItself(all: string)
    ensures Reads(all, 0, all)
  {
    assert all[0..|all|] == all;
  }

  lemma FinalScanClean(secrets: seq<string>, all: string, end: nat, find: Finder, carry: nat, chunks: seq<string>)
    requires FindsInside(find)
    requires var fed := Feeds(find, carry, chunks);
             ScanSafe(secrets, all, end, fed.output, Scan(find, carry, fed.mode, fed.rest, true), true)
    ensures Clean(secrets, Published(find, carry, chunks))
  {
    hide Feeds, Scan, Clean, Safe;
  }

  /** A secret that fits into a key: some marked token of at most 256 characters contains it. */
  ghost predicate FitsKey(secret: string) {
    exists t: string, i: int :: MarkedToken(t) && |t| <= MAX_DIRECT_KEY_LENGTH && Occurs(t, secret, i)
  }

  lemma UnfitKeysAreClean(secret: string, all: string)
    requires !FitsKey(secret)
    ensures KeysClean([secret], all)
  {
    hide MarkedToken, Occurs;
    forall i: nat, n: nat, k: nat | KeyAt(all, i, n, k) ensures Clean([secret], all[i + 1..i + 1 + n]) {
      var t := all[i + 1..i + 1 + n];
      assert MarkedToken(t) && |t| <= MAX_DIRECT_KEY_LENGTH;
    }
  }

  /** A secret of more than 256 characters is always hidden, whatever the input. */
  lemma LongSecretsAlwaysHidden(p: Patterns, secrets: seq<string>, secret: string, carry: nat, chunks: seq<string>)
    requires PatternsMatch(p) && Searched(secrets, [secret]) && Guarded([secret], carry)
    requires MAX_DIRECT_KEY_LENGTH < |secret|
    ensures FindsInside(MarkerFinder(p, secrets))
    ensures forall i :: !Occurs(Published(MarkerFinder(p, secrets), carry, chunks), secret, i)
  {
    assert !FitsKey(secret);
    UnfitKeysAreClean(secret, Concat(chunks));
    PublishedOnlyInKeys(p, secrets, secret, carry, chunks);
  }
}
