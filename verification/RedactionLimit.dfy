/** How far the redactor's guarantee reaches: which known secrets an input can bring into the published
    output, with the direct-token pattern of the source. */
module RedactionLimit {
  import opened Basics
  import opened Redaction
  import opened RedactionSafety

  /** The shortest text in which a direct marker is found: the marker and one letter or digit. */
  predicate IsLead(lead: string) {
    0 < MarkerOf(lead) == |lead| - 1 && IsAlnum(lead[|lead| - 1]) && IsTokenChar(lead[|lead| - 1])
  }

  /** The direct pattern is the source's; the others find nothing in a quoted lead, which holds none of
      their words. */
  ghost predicate SourceLike(p: Patterns) {
    && (forall s: string :: p.direct(s) == DirectTokens(s))
    && forall quote: char, lead: string | IsQuote(quote) && IsLead(lead) ::
         p.authorization([quote] + lead).None? && p.assignmentKey([quote] + lead).None?
         && p.assignment([quote] + lead).None?
  }

  lemma NoMarkerAtQuote(quote: char, s: string)
    requires IsQuote(quote)
    ensures MarkerOf([quote] + s) == 0
  {
    var t := [quote] + s;
    assert t[0] == quote && Folded(t[0]) == quote;
    SpellsLetter(t, "github_pat_", 0);
    SpellsLetter(t, "gh", 0);
    SpellsLetter(t, "hf_", 0);
    SpellsLetter(t, "dgx_", 0);
    SpellsLetter(t, "sk-", 0);
    SpellsLetter(t, "xox", 0);
    hide Spells;
  }

  lemma LeadIsFound(quote: char, lead: string)
    requires IsQuote(quote) && IsLead(lead)
    ensures DirectTokens([quote] + lead) == Some(Marker(DirectToken, 1, |lead|, None))
  {
    var b := [quote] + lead;
    assert b[0..] == b && b[1..] == lead;
    NoMarkerAtQuote(quote, lead);
    assert !IsAlnum(b[0]) && b[0] != '_';
    hide MarkerOf, IsAlnum;
    assert DirectTokenFrom(b, 0) == DirectTokenFrom(b, 1);
  }

  lemma {:induction false} NothingToSearch(secrets: seq<string>, s: string, i: nat)
    requires i <= |s| && Clean(secrets, s)
    ensures SearchLiteral(secrets, s, i).None?
    decreases |s| - i
  {
    LongestAtFinds(secrets, s, i);
    hide Occurs;
    if i < |s| {
      NothingToSearch(secrets, s, i + 1);
    }
  }

  lemma NextIsDirect(p: Patterns, secrets: seq<string>, quote: char, lead: string)
    requires SourceLike(p) && IsQuote(quote) && IsLead(lead) && Clean(secrets, [quote] + lead)
    ensures NextMarker(p, secrets, [quote] + lead) == Some(Marker(DirectToken, 1, |lead|, None))
  {
    var b := [quote] + lead;
    LeadIsFound(quote, lead);
    NothingToSearch(secrets, b, 0);
    assert p.direct(b) == DirectTokens(b);
    hide DirectTokens, SearchLiteral, Occurs, IsLead;
    var m := Marker(DirectToken, 1, |lead|, None);
    assert PatternMatches(p, b) == [m] && [m] + Listed(None) == [m];
  }

  /** The lead alone leaves the redactor inside a token that may still be shown. */
  lemma LeadScanned(p: Patterns, secrets: seq<string>, carry: nat, quote: char, lead: string)
    requires SourceLike(p) && IsQuote(quote) && IsLead(lead) && Clean(secrets, [quote] + lead)
    requires FindsInside(MarkerFinder(p, secrets))
    ensures Scan(MarkerFinder(p, secrets), carry, Normal, [quote] + lead, false)
         == Result([quote], Direct(Some(lead), true, Some(quote)), "")
  {
    hide *;
    NextIsDirect(p, secrets, quote, lead);
    FinderIs(p, secrets, [quote] + lead);
    var marker, last := LeadParts(lead);
    EntersDirect(MarkerFinder(p, secrets), carry, quote, marker, last);
  }

  lemma FinderIs(p: Patterns, secrets: seq<string>, s: string)
    ensures MarkerFinder(p, secrets)(s) == NextMarker(p, secrets, s)
  {
  }

  lemma LeadParts(lead: string) returns (marker: string, last: char)
    requires IsLead(lead)
    ensures marker + [last] == lead && 0 < |marker| < MAX_DIRECT_KEY_LENGTH && IsTokenChar(last)
  {
    marker, last := lead[..|lead| - 1], lead[|lead| - 1];
  }

  lemma EntersDirect(find: Finder, carry: nat, quote: char, marker: string, last: char)
    requires FindsInside(find) && IsQuote(quote) && IsTokenChar(last) && 0 < |marker| < MAX_DIRECT_KEY_LENGTH
    requires find([quote] + (marker + [last])) == Some(Marker(DirectToken, 1, 1 + |marker|, None))
    ensures Scan(find, carry, Normal, [quote] + (marker + [last]), false)
         == Result([quote], Direct(Some(marker + [last]), true, Some(quote)), "")
  {
    var b, mk := [quote] + (marker + [last]), Marker(DirectToken, 1, 1 + |marker|, None);
    assert b[1..1 + |marker|] == marker && b[1 + |marker|..] == [last] && b[..1] == [quote];
    hide FindsInside, Scan, Run, IsTokenChar;
    ScanEnters(find, carry, b, mk, false);
    LastOfLead(marker, quote, last);
    ScanRuns(find, carry, Direct(Some(marker), true, Some(quote)), [last], false);
    assert [quote] + "" + "" == [quote];
  }

  lemma LastOfLead(marker: string, quote: char, last: char)
    requires IsTokenChar(last) && |marker| < MAX_DIRECT_KEY_LENGTH
    ensures Run(Direct(Some(marker), true, Some(quote)), [last])
         == Result("", Direct(Some(marker + [last]), true, Some(quote)), "")
  {
    RunOne(Direct(Some(marker), true, Some(quote)), [last]);
    assert [last][1..] == "";
  }

  lemma FeedsTwo(find: Finder, carry: nat, a: string, b: string)
    requires FindsInside(find)
    ensures var first := Scan(find, carry, Normal, a, false);
            Feeds(find, carry, [a, b]) == Prepend(first.output, Scan(find, carry, first.mode, first.rest + b, false))
  {
    FeedsMore(find, carry, [], a);
    FeedsMore(find, carry, [a], b);
    assert Feeds(find, carry, []) == Result("", Normal, "");
    hide Feeds, Scan;
    assert [] + [a] == [a] && [a] + [b] == [a, b] && "" + a == a;
    PrependNothing(Scan(find, carry, Normal, a, false));
  }

  lemma AfterColon(find: Finder, carry: nat, text: string, m: Mode, shown: string)
    requires FindsInside(find) && !m.Normal?
    requires Run(m, text) == Prepend(shown, Run(AssignmentValue, ""))
    ensures Scan(find, carry, m, text, false) == Result(shown, AssignmentValue, "")
    ensures Scan(find, carry, AssignmentValue, "", true).output == ""
  {
    assert shown + "" == shown;
  }

  /** A quoted token that begins with a lead, closed and followed by a colon, is published as it stands
      when it has at most 256 characters. */
  lemma KeyIsPublished(p: Patterns, secrets: seq<string>, carry: nat, quote: char, lead: string, rest: string,
                       spaces: string)
    requires SourceLike(p) && FindsInside(MarkerFinder(p, secrets)) && Clean(secrets, [quote] + lead)
    requires IsQuote(quote) && IsLead(lead) && AllTokenChars(rest) && |lead| + |rest| <= MAX_DIRECT_KEY_LENGTH
    requires AllSpaces(spaces) && |spaces| <= MAX_KEY_WHITESPACE
    ensures Published(MarkerFinder(p, secrets), carry, [[quote] + lead, rest + ([quote] + (spaces + ":"))])
         == [quote] + (lead + rest + ([quote] + spaces + ":"))
  {
    hide IsLead, SourceLike, Clean, MarkerFinder, FindsInside, AllTokenChars, AllSpaces, Run, Scan, Feeds;
    var find, m := MarkerFinder(p, secrets), Direct(Some(lead), true, Some(quote));
    var a, b := [quote] + lead, rest + ([quote] + (spaces + ":"));
    var shown := lead + rest + ([quote] + spaces + ":");
    LeadScanned(p, secrets, carry, quote, lead);
    TokenAsKey(lead, true, quote, rest, spaces, "");
    assert ":" + "" == ":";
    AfterColon(find, carry, b, m, shown);
    FeedsTwo(find, carry, a, b);
    assert "" + b == b;
    assert [quote] + shown + "" == [quote] + shown;
  }

  /** Some input brings the secret into the output. */
  ghost predicate CanPublish(p: Patterns, secrets: seq<string>, carry: nat, secret: string)
    requires FindsInside(MarkerFinder(p, secrets))
  {
    exists chunks: seq<string>, i: int :: Occurs(Published(MarkerFinder(p, secrets), carry, chunks), secret, i)
  }

  lemma KeyPublishes(p: Patterns, secrets: seq<string>, carry: nat, lead: string, rest: string, secret: string, i: int)
    requires SourceLike(p) && FindsInside(MarkerFinder(p, secrets)) && Clean(secrets, "\"" + lead)
    requires IsLead(lead) && AllTokenChars(rest) && |lead| + |rest| <= MAX_DIRECT_KEY_LENGTH
    requires Occurs(lead + rest, secret, i)
    ensures CanPublish(p, secrets, carry, secret)
  {
    hide IsLead, SourceLike, Clean, MarkerFinder, FindsInside, AllTokenChars, Published;
    KeyIsPublished(p, secrets, carry, '"', lead, rest, "");
    var chunks := [['"'] + lead, rest + (['"'] + ("" + ":"))];
    var out, token, tail := Published(MarkerFinder(p, secrets), carry, chunks), lead + rest, ['"'] + "" + ":";
    assert out == ['"'] + (token + tail);
    assert out[1..1 + |token|] == token;
    SubSlice(out, 1, |token|, i, i + |secret|);
    assert Occurs(out, secret, 1 + i);
  }

  /** A secret that is already there in no lead of its own choosing. */
  lemma LeadWithout(c: char) returns (lead: string)
    ensures IsLead(lead) && |lead| == 4 && c !in lead && AllTokenChars(lead)
  {
    var digit := if c == '0' then '1' else '0';
    if c in ['s', 'k', '-'] {
      lead := "hf_" + [digit];
      assert Spells(lead, "hf_");
    } else {
      lead := "sk-" + [digit];
      assert Spells(lead, "sk-");
    }
    SpellsLetter(lead, "github_pat_", 0);
    SpellsLetter(lead, "gh", 0);
    SpellsLetter(lead, "hf_", 0);
    SpellsLetter(lead, "dgx_", 0);
    SpellsLetter(lead, "xox", 0);
    hide Spells;
  }

  lemma LeadAndTokens(lead: string, rest: string)
    requires IsLead(lead) && AllTokenChars(rest)
    ensures MarkedToken(lead + rest)
  {
    var n, t := MarkerOf(lead), lead + rest;
    assert lead[..n] == t[..n];
    MarkerIsLocal(lead, t);
    hide MarkerOf, IsAlnum;
    assert t[n..] == [lead[n]] + rest;
  }

  lemma CleanWithout(secret: string, c: char, s: string)
    requires secret != "" && secret[0] == c && c !in s
    ensures Clean([secret], s)
  {
    forall i ensures !Occurs(s, secret, i) {
      if Occurs(s, secret, i) {
        OccursAt(s, secret, i, i);
      }
    }
  }

  /** Every secret of at most 252 characters fits into a key, none of more than 256 does. */
  lemma FitsKeyByLength(secret: string)
    requires secret != "" && AllTokenChars(secret)
    ensures |secret| + 4 <= MAX_DIRECT_KEY_LENGTH ==> FitsKey(secret)
    ensures FitsKey(secret) ==> |secret| <= MAX_DIRECT_KEY_LENGTH
  {
    var lead := LeadWithout(secret[0]);
    LeadAndTokens(lead, secret);
    var t := lead + secret;
    assert t[4..4 + |secret|] == secret;
    assert Occurs(t, secret, 4);
    hide MarkedToken;
  }

  /** A marked token is a lead and more. */
  lemma LeadOf(t: string) returns (lead: string, rest: string)
    requires MarkedToken(t)
    ensures IsLead(lead) && AllTokenChars(rest) && lead + rest == t && |lead| <= 12
  {
    var n := MarkerOf(t);
    lead, rest := t[..n + 1], t[n + 1..];
    assert t[..n] == lead[..n];
    MarkerIsLocal(t, lead);
    hide MarkerOf, IsAlnum;
    assert t[n..][0] == t[n] && rest == t[n..][1..];
  }

  lemma CleanShort(secret: string, s: string)
    requires |s| < |secret|
    ensures Clean([secret], s)
  {
  }

  /** A long secret is published through the very token it fits into: no lead is long enough to hold it. */
  lemma LongPublishable(p: Patterns, secret: string, carry: nat, t: string, i: int)
    requires SourceLike(p) && FindsInside(MarkerFinder(p, [secret]))
    requires MarkedToken(t) && |t| <= MAX_DIRECT_KEY_LENGTH && Occurs(t, secret, i) && 252 < |secret|
    ensures CanPublish(p, [secret], carry, secret)
  {
    hide *;
    var lead, rest := LeadOf(t);
    CleanShort(secret, "\"" + lead);
    KeyPublishes(p, [secret], carry, lead, rest, secret, i);
  }

  lemma Behind(lead: string, secret: string)
    ensures Occurs(lead + secret, secret, |lead|)
  {
  }

  lemma QuotedWithout(c: char, s: string)
    requires c !in s && c != '"'
    ensures c !in "\"" + s
  {
  }

  lemma ShortPublishable(p: Patterns, secret: string, carry: nat)
    requires SourceLike(p) && FindsInside(MarkerFinder(p, [secret]))
    requires secret != "" && AllTokenChars(secret) && |secret| <= 252
    ensures CanPublish(p, [secret], carry, secret)
  {
    assert '"' != secret[0];
    hide *;
    var lead := LeadWithout(secret[0]);
    QuotedWithout(secret[0], lead);
    CleanWithout(secret, secret[0], "\"" + lead);
    Behind(lead, secret);
    KeyPublishes(p, [secret], carry, lead, secret, secret, 4);
  }

  /** The exact limit of the guarantee, over all inputs and chunkings: with the source's direct pattern,
      an input that publishes the secret exists if and only if the secret fits into a key. */
  lemma PublishableExactlyWhenItFitsAKey(p: Patterns, secret: string, carry: nat)
    requires PatternsMatch(p) && SourceLike(p) && Guarded([secret], carry)
    ensures FindsInside(MarkerFinder(p, [secret]))
    ensures CanPublish(p, [secret], carry, secret) <==> FitsKey(secret)
  {
    assert secret in [secret] && Searched([secret], [secret]);
    assert secret != "" && AllTokenChars(secret);
    FinderFindsInside(p, [secret]);
    if FitsKey(secret) {
      var t: string, i: int :| MarkedToken(t) && |t| <= MAX_DIRECT_KEY_LENGTH && Occurs(t, secret, i);
      if |secret| <= 252 {
        ShortPublishable(p, secret, carry);
      } else {
        LongPublishable(p, secret, carry, t, i);
      }
    } else {
      UnfitNeverPublished(p, secret, carry);
    }
  }

  lemma UnfitNeverPublished(p: Patterns, secret: string, carry: nat)
    requires PatternsMatch(p) && Guarded([secret], carry) && Searched([secret], [secret]) && !FitsKey(secret)
    requires FindsInside(MarkerFinder(p, [secret]))
    ensures !CanPublish(p, [secret], carry, secret)
  {
    hide PatternsMatch, Guarded, Searched, FitsKey, FindsInside, MarkerFinder, Published, Occurs, Concat, KeysClean;
    forall chunks: seq<string>, i: int
      ensures !Occurs(Published(MarkerFinder(p, [secret]), carry, chunks), secret, i)
    {
      UnfitKeysAreClean(secret, Concat(chunks));
      PublishedOnlyInKeys(p, [secret], secret, carry, chunks);
    }
  }

  // ----- a run that publishes a secret -----

  /** The source's direct pattern, with input in which the others find nothing. */
  function DirectOnly(): Patterns {
    Patterns(s => None, s => None, s => None, s => DirectTokens(s))
  }

  lemma DirectOnlyIsSourceLike()
    ensures PatternsMatch(DirectOnly()) && SourceLike(DirectOnly())
  {
    forall s: string ensures MatchOf(DirectOnly().direct(s), s, DirectToken) {
      DirectTokensMatch(s, 0);
    }
    hide DirectTokens, IsLead;
  }

  /** The known secret "hf_abcd" arrives in two chunks as a JSON key, and is published whole. */
  lemma KnownSecretIsPublished()
    ensures Guarded(["hf_abcd"], NORMAL_CARRY) && PatternsMatch(DirectOnly())
    ensures FindsInside(MarkerFinder(DirectOnly(), ["hf_abcd"]))
    ensures Published(MarkerFinder(DirectOnly(), ["hf_abcd"]), NORMAL_CARRY, ["\"hf_a", "bcd\":"]) == "\"hf_abcd\":"
  {
    DirectOnlyIsSourceLike();
    ExampleIsGuarded("hf_abcd");
    ExampleLead();
    ExampleTexts();
    ExampleRun("hf_abcd");
  }

  lemma ExampleRun(secret: string)
    requires PatternsMatch(DirectOnly()) && SourceLike(DirectOnly()) && |secret| == 7 && secret != ""
    requires IsLead("hf_a") && AllTokenChars("bcd")
    ensures FindsInside(MarkerFinder(DirectOnly(), [secret]))
    ensures Published(MarkerFinder(DirectOnly(), [secret]), NORMAL_CARRY,
                      [['"'] + "hf_a", "bcd" + (['"'] + ("" + ":"))]) == ['"'] + ("hf_a" + "bcd" + (['"'] + "" + ":"))
  {
    hide PatternsMatch, SourceLike, DirectOnly, MarkerFinder, FindsInside, Published, IsLead, AllTokenChars;
    FinderFindsInside(DirectOnly(), [secret]);
    CleanShort(secret, ['"'] + "hf_a");
    hide Clean;
    KeyIsPublished(DirectOnly(), [secret], NORMAL_CARRY, '"', "hf_a", "bcd", "");
  }

  lemma ExampleTexts()
    ensures AllTokenChars("bcd")
    ensures ['"'] + "hf_a" == "\"hf_a" && "bcd" + (['"'] + ("" + ":")) == "bcd\":"
    ensures ['"'] + ("hf_a" + "bcd" + (['"'] + "" + ":")) == "\"hf_abcd\":"
  {
  }

  lemma ExampleIsGuarded(secret: string)
    requires secret == "hf_abcd"
    ensures Guarded([secret], NORMAL_CARRY)
  {
    forall i ensures !Occurs("REDACTED", secret, i) {
      if Occurs("REDACTED", secret, i) {
        OccursAt("REDACTED", secret, i, i);
      }
    }
    hide Occurs;
  }

  lemma ExampleLead()
    ensures IsLead("hf_a")
  {
    assert Spells("hf_a", "hf_");
    SpellsLetter("hf_a", "github_pat_", 0);
    SpellsLetter("hf_a", "gh", 0);
  }
}
