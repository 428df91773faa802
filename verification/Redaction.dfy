/** What the streaming redactor computes, one character at a time.
    `Run` is the transducer for everything after a credential marker; `Scan` adds the search for the
    next marker and is what one `_scan` call does to a buffer. */
module Redaction {
  import opened Basics

  const REDACTED := "[REDACTED]"
  const NORMAL_CARRY: nat := 96
  const MAX_DIRECT_KEY_LENGTH: nat := 256
  const MAX_KEY_WHITESPACE: nat := 128

  predicate IsJsonSpace(c: char) {
    c == ' ' || c == '\t' || c == '\r' || c == '\n'
  }

  predicate IsQuote(c: char) {
    c == '"' || c == '\''
  }

  predicate IsTokenChar(c: char) {
    || 'a' <= c <= 'z' || 'A' <= c <= 'Z' || '0' <= c <= '9'
    || c == '.' || c == '_' || c == '~' || c == '+' || c == '/' || c == '=' || c == '-'
  }

  predicate IsUnquotedTerminator(c: char) {
    IsJsonSpace(c) || c == ',' || c == ';' || c == '&'
  }

  /** The redactor's mode with the fields that matter in it. A `text` of None means the token grew
      past the limit and was replaced already. */
  datatype Mode =
    | Normal
    | Direct(text: Option<string>, preservable: bool, keyQuote: Option<char>)
    | DirectKey(text: Option<string>, preservable: bool, quote: char, spaces: string)
    | KeyColon
    | AssignmentValue
    | Quoted(quote: char, escaped: bool)
    | Unquoted

  function EmitText(text: Option<string>, preserve: bool): string {
    if text.None? then "" else if preserve then text.value else REDACTED
  }

  datatype StepResult = StepResult(output: string, mode: Mode, consumed: bool)

  function Step(m: Mode, c: char): StepResult
    requires !m.Normal?
  {
    match m
    case Direct(text, preservable, keyQuote) =>
      if IsTokenChar(c) then
        if text.None? then StepResult("", m, true)
        else if |text.value| < MAX_DIRECT_KEY_LENGTH then
          StepResult("", Direct(Some(text.value + [c]), preservable, keyQuote), true)
        else StepResult(REDACTED, Direct(None, preservable, keyQuote), true)
      else if keyQuote == Some(c) then StepResult("", DirectKey(text, preservable, c, ""), true)
      else StepResult(EmitText(text, false) + [c], Normal, true)
    case DirectKey(text, preservable, quote, spaces) =>
      if IsJsonSpace(c) then
        if |spaces| < MAX_KEY_WHITESPACE then
          StepResult("", DirectKey(text, preservable, quote, spaces + [c]), true)
        else StepResult(EmitText(text, false) + [quote] + spaces + [c], KeyColon, true)
      else if c == ':' then
        StepResult(EmitText(text, preservable) + [quote] + spaces + ":", AssignmentValue, true)
      else StepResult(EmitText(text, false) + [quote] + spaces, Normal, false)
    case KeyColon =>
      if IsJsonSpace(c) then StepResult([c], KeyColon, true)
      else if c == ':' then StepResult(":", AssignmentValue, true)
      else StepResult("", Normal, false)
    case AssignmentValue =>
      if IsJsonSpace(c) then StepResult([c], AssignmentValue, true)
      else if IsQuote(c) then StepResult([c] + REDACTED, Quoted(c, false), true)
      else StepResult(REDACTED, Unquoted, false)
    case Quoted(quote, escaped) =>
      if c == '\\' then StepResult("", Quoted(quote, !escaped), true)
      else if c == quote && !escaped then StepResult([c], Normal, true)
      else StepResult("", Quoted(quote, false), true)
    case Unquoted =>
      if IsUnquotedTerminator(c) then StepResult([c], Normal, true)
      else StepResult("", Unquoted, true)
  }

  /** Mode changes that consume nothing go down in rank. */
  function Rank(m: Mode): nat {
    match m
    case Normal => 0
    case Direct(_, _, _) => 1
    case Unquoted => 1
    case Quoted(_, _) => 1
    case AssignmentValue => 2
    case KeyColon => 2
    case DirectKey(_, _, _, _) => 2
  }

  /** Output, mode, and the input that was not looked at. */
  datatype Result = Result(output: string, mode: Mode, rest: string)

  function Prepend(output: string, r: Result): Result {
    Result(output + r.output, r.mode, r.rest)
  }

  /** Feed characters until the text is used up or the redactor is back in normal mode. */
  function Run(m: Mode, text: string): (r: Result)
    ensures |r.rest| <= |text|
    ensures r.mode.Normal? || r.rest == ""
    decreases |text|, Rank(m)
  {
    if m.Normal? || text == "" then Result("", m, text)
    else
      var s := Step(m, text[0]);
      Prepend(s.output, Run(s.mode, if s.consumed then text[1..] else text))
  }

  /** What end of input adds in a non-normal mode. A quoted value stays open. */
  function Flush(m: Mode): (string, Mode) {
    match m
    case Normal => ("", Normal)
    case Direct(text, _, _) => (EmitText(text, false), Normal)
    case DirectKey(text, _, quote, spaces) => (EmitText(text, false) + [quote] + spaces, Normal)
    case KeyColon => ("", Normal)
    case AssignmentValue => ("", Normal)
    case Quoted(quote, _) => ("", Quoted(quote, false))
    case Unquoted => ("", Normal)
  }

  // ----- chunk independence once a marker was entered -----

  lemma PrependTwice(a: string, b: string, r: Result)
    ensures Prepend(a, Prepend(b, r)) == Prepend(a + b, r)
  {
    ConcatAssociative(a, b, r.output);
  }

  function Continue(r: Result, more: string): Result {
    if r.mode.Normal? then Result(r.output, r.mode, r.rest + more)
    else Prepend(r.output, Run(r.mode, more))
  }

  lemma ContinuePrepended(a: string, r: Result, more: string)
    ensures Continue(Prepend(a, r), more) == Prepend(a, Continue(r, more))
  {
    if !r.mode.Normal? {
      PrependTwice(a, r.output, Run(r.mode, more));
    }
  }

  lemma {:induction false} RunSplit(m: Mode, a: string, b: string)
    ensures Run(m, a + b) == Continue(Run(m, a), b)
    decreases |a|, Rank(m)
  {
    if a == "" {
      assert a + b == b;
      assert Prepend("", Run(m, b)) == Run(m, b);
    } else if !m.Normal? {
      var s := Step(m, a[0]);
      assert (a + b)[0] == a[0] && (a + b)[1..] == a[1..] + b;
      var next := if s.consumed then a[1..] else a;
      RunSplit(s.mode, next, b);
      ContinuePrepended(s.output, Run(s.mode, next), b);
    }
  }

  /** Feeding a redactor chunk by chunk; what follows the return to normal mode is left alone. */
  function RunChunks(m: Mode, chunks: seq<string>): Result {
    if chunks == [] then Result("", m, "")
    else Continue(RunChunks(m, chunks[..|chunks| - 1]), chunks[|chunks| - 1])
  }

  /** However the text is cut, output, next mode and leftover input are those of one feed. */
  lemma {:induction false} ChunkIndependent(m: Mode, chunks: seq<string>)
    ensures RunChunks(m, chunks) == Run(m, Concat(chunks))
  {
    if chunks != [] {
      var before := chunks[..|chunks| - 1];
      ChunkIndependent(m, before);
      RunSplit(m, Concat(before), chunks[|chunks| - 1]);
    }
  }

  // ----- what a value becomes -----

  predicate AllTokenChars(s: string) {
    forall i | 0 <= i < |s| :: IsTokenChar(s[i])
  }

  predicate AllSpaces(s: string) {
    forall i | 0 <= i < |s| :: IsJsonSpace(s[i])
  }

  /** Growing a token by a block: text kept while it fits, replaced once when it does not. */
  function Grow(text: Option<string>, value: string): (string, Option<string>) {
    if text.None? then ("", None)
    else if |text.value| + |value| <= MAX_DIRECT_KEY_LENGTH then ("", Some(text.value + value))
    else (REDACTED, None)
  }

  lemma PrependNothing(r: Result)
    ensures Prepend("", r) == r
  {
  }

  lemma RunOne(m: Mode, text: string)
    requires !m.Normal? && text != ""
    ensures Run(m, text)
         == Prepend(Step(m, text[0]).output,
                    Run(Step(m, text[0]).mode, if Step(m, text[0]).consumed then text[1..] else text))
  {
  }

  lemma GrowByNothing(text: Option<string>)
    requires text.Some? ==> |text.value| <= MAX_DIRECT_KEY_LENGTH
    ensures Grow(text, "") == ("", text)
  {
    if text.Some? {
      assert text.value + "" == text.value;
    }
  }

  lemma GrowTwice(text: Option<string>, c: char, value: string)
    requires text.Some? ==> |text.value| <= MAX_DIRECT_KEY_LENGTH
    ensures Grow(Grow(text, [c]).1, value).1 == Grow(text, [c] + value).1
    ensures Grow(text, [c]).0 + Grow(Grow(text, [c]).1, value).0 == Grow(text, [c] + value).0
  {
    assert REDACTED + "" == REDACTED && "" + REDACTED == REDACTED;
    if text.Some? {
      ConcatAssociative(text.value, [c], value);
    }
  }

  lemma GrowBounded(text: Option<string>, value: string)
    requires text.Some? ==> |text.value| <= MAX_DIRECT_KEY_LENGTH
    ensures Grow(text, value).1.Some? ==> |Grow(text, value).1.value| <= MAX_DIRECT_KEY_LENGTH
  {
  }

  lemma StepToken(m: Mode, c: char)
    requires m.Direct? && IsTokenChar(c)
    requires m.text.Some? ==> |m.text.value| <= MAX_DIRECT_KEY_LENGTH
    ensures Step(m, c) == StepResult(Grow(m.text, [c]).0,
                                     Direct(Grow(m.text, [c]).1, m.preservable, m.keyQuote), true)
  {
  }

  lemma {:induction false} RunToken(m: Mode, text: string, k: nat)
    requires m.Direct? && (m.text.Some? ==> |m.text.value| <= MAX_DIRECT_KEY_LENGTH)
    requires k <= |text| && forall i | 0 <= i < k :: IsTokenChar(text[i])
    ensures Run(m, text)
         == Prepend(Grow(m.text, text[..k]).0,
                    Run(Direct(Grow(m.text, text[..k]).1, m.preservable, m.keyQuote), text[k..]))
    decreases k
  {
    hide Run, Step, Grow;
    if k == 0 {
      assert text[0..] == text && text[..0] == "";
      GrowByNothing(m.text);
      PrependNothing(Run(m, text));
    } else {
      var s := Step(m, text[0]);
      var tail, value := text[1..], text[1..k];
      RunOne(m, text);
      StepToken(m, text[0]);
      GrowBounded(m.text, [text[0]]);
      RunToken(s.mode, tail, k - 1);
      assert tail[k - 1..] == text[k..] && tail[..k - 1] == value && text[..k] == [text[0]] + value;
      GrowTwice(m.text, text[0], value);
      var r := Run(Direct(Grow(m.text, text[..k]).1, m.preservable, m.keyQuote), text[k..]);
      PrependTwice(s.output, Grow(s.mode.text, value).0, r);
    }
  }

  /** A token, however long and however it is cut, becomes `[REDACTED]` plus its delimiter. */
  lemma TokenBecomesRedacted(marker: string, preservable: bool, keyQuote: Option<char>,
                             token: string, delimiter: char, rest: string)
    requires |marker| <= MAX_DIRECT_KEY_LENGTH && AllTokenChars(token)
    requires !IsTokenChar(delimiter) && keyQuote != Some(delimiter)
    ensures Run(Direct(Some(marker), preservable, keyQuote), token + [delimiter] + rest)
         == Result(REDACTED + [delimiter], Normal, rest)
  {
    var text := token + [delimiter] + rest;
    assert text[..|token|] == token && text[|token|..] == [delimiter] + rest;
    RunToken(Direct(Some(marker), preservable, keyQuote), text, |token|);
    assert ([delimiter] + rest)[1..] == rest;
  }

  lemma {:induction false} RunKeySpaces(m: Mode, spaces: string, rest: string)
    requires m.DirectKey? && AllSpaces(spaces) && |m.spaces| + |spaces| <= MAX_KEY_WHITESPACE
    ensures Run(m, spaces + rest)
         == Run(DirectKey(m.text, m.preservable, m.quote, m.spaces + spaces), rest)
    decreases |spaces|
  {
    if spaces == "" {
      assert spaces + rest == rest && m.spaces + spaces == m.spaces;
    } else {
      var s := Step(m, spaces[0]);
      assert (spaces + rest)[1..] == spaces[1..] + rest;
      RunKeySpaces(s.mode, spaces[1..], rest);
      assert m.spaces + spaces == s.mode.spaces + spaces[1..];
      assert Prepend("", Run(s.mode, spaces[1..] + rest)) == Run(s.mode, spaces[1..] + rest);
    }
  }

  lemma KeyColonEnds(text: Option<string>, preservable: bool, quote: char, spaces: string, rest: string)
    requires AllSpaces(spaces) && |spaces| <= MAX_KEY_WHITESPACE
    ensures Run(DirectKey(text, preservable, quote, ""), spaces + (":" + rest))
         == Prepend(EmitText(text, preservable) + [quote] + spaces + ":", Run(AssignmentValue, rest))
  {
    RunKeySpaces(DirectKey(text, preservable, quote, ""), spaces, ":" + rest);
    assert "" + spaces == spaces;
    assert (":" + rest)[0] == ':' && (":" + rest)[1..] == rest;
  }

  function ShownKey(marker: string, preservable: bool, token: string): string {
    if preservable && |marker| + |token| <= MAX_DIRECT_KEY_LENGTH then marker + token else REDACTED
  }

  lemma ShownKeyIsEmitted(marker: string, preservable: bool, token: string, tail: string)
    requires |marker| <= MAX_DIRECT_KEY_LENGTH
    ensures Grow(Some(marker), token).0 + (EmitText(Grow(Some(marker), token).1, preservable) + tail)
         == ShownKey(marker, preservable, token) + tail
  {
    if |marker| + |token| <= MAX_DIRECT_KEY_LENGTH {
      assert "" + (EmitText(Some(marker + token), preservable) + tail)
          == EmitText(Some(marker + token), preservable) + tail;
    } else {
      assert "" + tail == tail;
    }
  }

  /** A quoted token used as a JSON key is shown only if it is preservable and short enough;
      in every case the value after its colon is still to be redacted. */
  lemma TokenAsKey(marker: string, preservable: bool, quote: char, token: string, spaces: string,
                   rest: string)
    requires |marker| <= MAX_DIRECT_KEY_LENGTH && AllTokenChars(token) && IsQuote(quote)
    requires AllSpaces(spaces) && |spaces| <= MAX_KEY_WHITESPACE
    ensures Run(Direct(Some(marker), preservable, Some(quote)), token + ([quote] + (spaces + (":" + rest))))
         == Prepend(ShownKey(marker, preservable, token) + ([quote] + spaces + ":"), Run(AssignmentValue, rest))
  {
    var tail := spaces + (":" + rest);
    var text := token + ([quote] + tail);
    TokenThen(token, [quote] + tail);
    hide Run, Grow;
    RunToken(Direct(Some(marker), preservable, Some(quote)), text, |token|);
    var emitted, grown := Grow(Some(marker), token).0, Grow(Some(marker), token).1;
    KeyQuoteEnds(grown, preservable, quote, tail);
    KeyColonEnds(grown, preservable, quote, spaces, rest);
    var shown := EmitText(grown, preservable);
    var mark := [quote] + spaces + ":";
    KeyTail(shown, quote, spaces);
    PrependTwice(emitted, shown + mark, Run(AssignmentValue, rest));
    ShownKeyIsEmitted(marker, preservable, token, mark);
  }

  lemma TokenThen(token: string, tail: string)
    requires AllTokenChars(token)
    ensures (token + tail)[..|token|] == token && (token + tail)[|token|..] == tail
    ensures forall i | 0 <= i < |token| :: IsTokenChar((token + tail)[i])
  {
  }

  lemma KeyTail(shown: string, quote: char, spaces: string)
    ensures shown + [quote] + spaces + ":" == shown + ([quote] + spaces + ":")
  {
  }

  lemma KeyQuoteEnds(text: Option<string>, preservable: bool, quote: char, tail: string)
    requires IsQuote(quote)
    ensures Run(Direct(text, preservable, Some(quote)), [quote] + tail)
         == Run(DirectKey(text, preservable, quote, ""), tail)
  {
    assert ([quote] + tail)[1..] == tail;
    var r := Run(DirectKey(text, preservable, quote, ""), tail);
    assert Prepend("", r) == r;
  }

  /** Whether `body` contains no unescaped `quote`, starting with escape flag `escaped`; and the
      flag it ends with. */
  function Escape(body: string, quote: char, escaped: bool): Option<bool> {
    if body == "" then Some(escaped)
    else if body[0] == '\\' then Escape(body[1..], quote, !escaped)
    else if body[0] == quote && !escaped then None
    else Escape(body[1..], quote, false)
  }

  lemma {:induction false} RunQuotedBody(quote: char, escaped: bool, body: string, rest: string)
    requires Escape(body, quote, escaped).Some? && quote != '\\'
    ensures Run(Quoted(quote, escaped), body + rest)
         == Run(Quoted(quote, Escape(body, quote, escaped).value), rest)
    decreases |body|
  {
    if body == "" {
      assert body + rest == rest;
    } else {
      var s := Step(Quoted(quote, escaped), body[0]);
      assert (body + rest)[1..] == body[1..] + rest;
      RunQuotedBody(quote, s.mode.escaped, body[1..], rest);
      assert Prepend("", Run(s.mode, body[1..] + rest)) == Run(s.mode, body[1..] + rest);
    }
  }

  /** A quoted value vanishes up to and including its closing quote, which is kept. */
  lemma QuotedValueVanishes(quote: char, body: string, rest: string)
    requires IsQuote(quote) && Escape(body, quote, false) == Some(false)
    ensures Run(Quoted(quote, false), body + ([quote] + rest)) == Result([quote], Normal, rest)
  {
    RunQuotedBody(quote, false, body, [quote] + rest);
    assert ([quote] + rest)[1..] == rest;
  }

  lemma {:induction false} RunUnquotedBody(body: string, rest: string)
    requires forall i | 0 <= i < |body| :: !IsUnquotedTerminator(body[i])
    ensures Run(Unquoted, body + rest) == Run(Unquoted, rest)
    decreases |body|
  {
    if body == "" {
      assert body + rest == rest;
    } else {
      assert (body + rest)[1..] == body[1..] + rest;
      RunUnquotedBody(body[1..], rest);
      assert Prepend("", Run(Unquoted, body[1..] + rest)) == Run(Unquoted, body[1..] + rest);
    }
  }

  /** The value of `key: value` outside quotes becomes `[REDACTED]` plus its terminator. */
  lemma UnquotedValueBecomesRedacted(body: string, terminator: char, rest: string)
    requires forall i | 0 <= i < |body| :: !IsUnquotedTerminator(body[i])
    requires body != "" && !IsQuote(body[0]) && IsUnquotedTerminator(terminator)
    ensures Run(AssignmentValue, body + ([terminator] + rest))
         == Result(REDACTED + [terminator], Normal, rest)
  {
    var text := body + ([terminator] + rest);
    assert text[0] == body[0];
    RunUnquotedBody(body, [terminator] + rest);
    assert ([terminator] + rest)[1..] == rest;
  }

  // ----- scanning a buffer -----

  datatype Kind = Literal | DirectToken | AssignmentKey | Assignment | Authorization

  /** A match of one of the credential patterns: `[start, end)` in the buffer, and the quote an
      assignment match captured. */
  datatype Marker = Marker(kind: Kind, start: nat, end: nat, quote: Option<char>)

  type Finder = string -> Option<Marker>

  /** What every marker search guarantees: a non-empty match inside the buffer. */
  ghost predicate FindsInside(find: Finder) {
    forall s: string :: find(s).Some? ==> find(s).value.start < find(s).value.end <= |s|
  }

  function Preceding(buffer: string, i: nat): Option<char>
    requires i <= |buffer|
  {
    if 0 < i && IsQuote(buffer[i - 1]) then Some(buffer[i - 1]) else None
  }

  /** A token's marker is held back, unless it is too long to be part of a key. */
  function EnterToken(marker: string, preservable: bool, preceding: Option<char>): (string, Mode) {
    if MAX_DIRECT_KEY_LENGTH < |marker| then (REDACTED, Direct(None, preservable, preceding))
    else ("", Direct(Some(marker), preservable, preceding))
  }

  /** Entering a marker: what is shown of it, and the mode that follows. */
  function Enter(kind: Kind, marker: string, preceding: Option<char>, quote: Option<char>): (string, Mode) {
    match kind
    case Literal => EnterToken(marker, false, preceding)
    case DirectToken => EnterToken(marker, true, preceding)
    case AssignmentKey => (marker, KeyColon)
    case Assignment =>
      if quote.Some? then (marker + REDACTED, Quoted(quote.value, false)) else (marker, AssignmentValue)
    case Authorization => (marker + REDACTED, Unquoted)
  }

  /** One `_scan` call. */
  function Scan(find: Finder, carry: nat, m: Mode, buffer: string, final: bool): (r: Result)
    requires FindsInside(find)
    ensures final ==> r.rest == ""
    decreases |buffer|, if m.Normal? then 0 else 1
  {
    if !m.Normal? then
      var r := Run(m, buffer);
      if r.mode.Normal? then Prepend(r.output, Scan(find, carry, Normal, r.rest, final))
      else if final then Result(r.output + Flush(r.mode).0, Flush(r.mode).1, "")
      else r
    else if buffer == "" then Result("", Normal, "")
    else
      var candidate := find(buffer);
      if candidate.None? then
        if final then Result(buffer, Normal, "")
        else if carry < |buffer| then Result(buffer[..|buffer| - carry], Normal, buffer[|buffer| - carry..])
        else Result("", Normal, buffer)
      else
        var mk := candidate.value;
        var (shown, mode) := Enter(mk.kind, buffer[mk.start..mk.end], Preceding(buffer, mk.start), mk.quote);
        Prepend(buffer[..mk.start] + shown, Scan(find, carry, mode, buffer[mk.end..], final))
  }

  // One step of a scan, case by case.

  lemma ScanRuns(find: Finder, carry: nat, m: Mode, buffer: string, final: bool)
    requires FindsInside(find) && !m.Normal?
    ensures var r := Run(m, buffer);
            Scan(find, carry, m, buffer, final)
            == if r.mode.Normal? then Prepend(r.output, Scan(find, carry, Normal, r.rest, final))
               else if final then Result(r.output + Flush(r.mode).0, Flush(r.mode).1, "")
               else r
  {
    hide Run, Flush;
  }

  lemma ScanEnds(find: Finder, carry: nat, buffer: string, final: bool)
    requires FindsInside(find) && (buffer == "" || find(buffer).None?)
    ensures Scan(find, carry, Normal, buffer, final)
         == if final || buffer == "" then Result(buffer, Normal, "")
            else if carry < |buffer| then Result(buffer[..|buffer| - carry], Normal, buffer[|buffer| - carry..])
            else Result("", Normal, buffer)
  {
  }

  lemma ScanEnters(find: Finder, carry: nat, buffer: string, mk: Marker, final: bool)
    requires FindsInside(find) && buffer != "" && find(buffer) == Some(mk)
    ensures mk.start < mk.end <= |buffer|
    ensures var (shown, mode) := Enter(mk.kind, buffer[mk.start..mk.end], Preceding(buffer, mk.start), mk.quote);
            Scan(find, carry, Normal, buffer, final)
            == Prepend(buffer[..mk.start] + shown, Scan(find, carry, mode, buffer[mk.end..], final))
  {
    hide Enter, Preceding, Run;
  }

  /** The whole life of a redactor: one feed per chunk, then `finish`. */
  function Feeds(find: Finder, carry: nat, chunks: seq<string>): Result
    requires FindsInside(find)
  {
    if chunks == [] then Result("", Normal, "")
    else
      var before := Feeds(find, carry, chunks[..|chunks| - 1]);
      Prepend(before.output, Scan(find, carry, before.mode, before.rest + chunks[|chunks| - 1], false))
  }

  lemma FeedsMore(find: Finder, carry: nat, chunks: seq<string>, c: string)
    requires FindsInside(find)
    ensures var before := Feeds(find, carry, chunks);
            Feeds(find, carry, chunks + [c])
            == Prepend(before.output, Scan(find, carry, before.mode, before.rest + c, false))
  {
    hide Scan;
    assert (chunks + [c])[..|chunks|] == chunks;
  }

  function Published(find: Finder, carry: nat, chunks: seq<string>): string
    requires FindsInside(find)
  {
    var fed := Feeds(find, carry, chunks);
    fed.output + Scan(find, carry, fed.mode, fed.rest, true).output
  }

  // ----- what becomes of a credential -----

  /** A value behind an assignment: bare up to a terminator, or in quotes with escapes. */
  datatype Value =
    | Bare(spaces: string, body: string, terminator: char)
    | InQuotes(spaces: string, quote: char, body: string)

  predicate IsBare(body: string) {
    forall i | 0 <= i < |body| :: !IsUnquotedTerminator(body[i])
  }

  predicate IsQuoted(quote: char, body: string) {
    IsQuote(quote) && Escape(body, quote, false) == Some(false)
  }

  predicate ProperValue(v: Value) {
    && AllSpaces(v.spaces)
    && match v
       case Bare(_, body, terminator) =>
         body != "" && !IsQuote(body[0]) && IsBare(body) && IsUnquotedTerminator(terminator)
       case InQuotes(_, quote, body) => IsQuoted(quote, body)
  }

  function ValueText(v: Value): string {
    match v
    case Bare(spaces, body, terminator) => spaces + (body + [terminator])
    case InQuotes(spaces, quote, body) => spaces + ([quote] + (body + [quote]))
  }

  function ValueShown(v: Value): string {
    match v
    case Bare(spaces, _, terminator) => spaces + (REDACTED + [terminator])
    case InQuotes(spaces, quote, _) => spaces + ([quote] + (REDACTED + [quote]))
  }

  /** What can stand behind a marker: credentials behind "Authorization: Bearer ", behind an assignment whose
      quote was captured, behind any other assignment, behind the quoted key of one; the rest of a token,
      and the rest of a token that is itself a key. */
  datatype Credential =
    | Bearer(body: string, terminator: char)
    | Captured(quote: char, body: string)
    | Assigned(value: Value)
    | Keyed(spaces: string, value: Value)
    | Token(text: string, delimiter: char)
    | TokenKey(text: string, quote: char, spaces: string, value: Value)

  /** The credential is of the marker's kind. */
  predicate Behind(mk: Marker, preceding: Option<char>, c: Credential) {
    match c
    case Bearer(body, terminator) => mk.kind.Authorization? && IsBare(body) && IsUnquotedTerminator(terminator)
    case Captured(quote, body) => mk.kind.Assignment? && mk.quote == Some(quote) && IsQuoted(quote, body)
    case Assigned(value) => mk.kind.Assignment? && mk.quote.None? && ProperValue(value)
    case Keyed(spaces, value) => mk.kind.AssignmentKey? && AllSpaces(spaces) && ProperValue(value)
    case Token(text, delimiter) =>
      && (mk.kind.DirectToken? || mk.kind.Literal?)
      && AllTokenChars(text) && !IsTokenChar(delimiter) && preceding != Some(delimiter)
    case TokenKey(text, quote, spaces, value) =>
      && (mk.kind.DirectToken? || mk.kind.Literal?) && preceding == Some(quote) && IsQuote(quote)
      && AllTokenChars(text) && AllSpaces(spaces) && |spaces| <= MAX_KEY_WHITESPACE && ProperValue(value)
  }

  function CredentialText(c: Credential): string {
    match c
    case Bearer(body, terminator) => body + [terminator]
    case Captured(quote, body) => body + [quote]
    case Assigned(value) => ValueText(value)
    case Keyed(spaces, value) => spaces + (":" + ValueText(value))
    case Token(text, delimiter) => text + [delimiter]
    case TokenKey(text, quote, spaces, value) => text + ([quote] + (spaces + (":" + ValueText(value))))
  }

  /** What is published for marker and credential together. */
  function CredentialShown(kind: Kind, marker: string, c: Credential): string {
    match c
    case Bearer(_, terminator) => marker + (REDACTED + [terminator])
    case Captured(quote, _) => marker + (REDACTED + [quote])
    case Assigned(value) => marker + ValueShown(value)
    case Keyed(spaces, value) => marker + (spaces + (":" + ValueShown(value)))
    case Token(_, delimiter) => REDACTED + [delimiter]
    case TokenKey(text, quote, spaces, value) =>
      ShownKey(marker, kind.DirectToken?, text) + ([quote] + (spaces + (":" + ValueShown(value))))
  }

  lemma {:induction false} ValueSpacesStay(spaces: string, rest: string)
    requires AllSpaces(spaces)
    ensures Run(AssignmentValue, spaces + rest) == Prepend(spaces, Run(AssignmentValue, rest))
    decreases |spaces|
  {
    if spaces == "" {
      assert spaces + rest == rest;
      PrependNothing(Run(AssignmentValue, rest));
    } else {
      assert (spaces + rest)[0] == spaces[0] && (spaces + rest)[1..] == spaces[1..] + rest;
      RunOne(AssignmentValue, spaces + rest);
      ValueSpacesStay(spaces[1..], rest);
      PrependTwice([spaces[0]], spaces[1..], Run(AssignmentValue, rest));
      assert [spaces[0]] + spaces[1..] == spaces;
    }
  }

  lemma {:induction false} ColonSpacesStay(spaces: string, rest: string)
    requires AllSpaces(spaces)
    ensures Run(KeyColon, spaces + (":" + rest)) == Prepend(spaces + ":", Run(AssignmentValue, rest))
    decreases |spaces|
  {
    var text := spaces + (":" + rest);
    RunOne(KeyColon, text);
    if spaces == "" {
      assert text == ":" + rest && text[1..] == rest && spaces + ":" == ":";
    } else {
      assert text[0] == spaces[0] && text[1..] == spaces[1..] + (":" + rest);
      ColonSpacesStay(spaces[1..], rest);
      PrependTwice([spaces[0]], spaces[1..] + ":", Run(AssignmentValue, rest));
      assert [spaces[0]] + (spaces[1..] + ":") == spaces + ":";
    }
  }

  lemma QuoteOpens(quote: char, rest: string)
    requires IsQuote(quote)
    ensures Run(AssignmentValue, [quote] + rest) == Prepend([quote] + REDACTED, Run(Quoted(quote, false), rest))
  {
    RunOne(AssignmentValue, [quote] + rest);
    assert ([quote] + rest)[1..] == rest;
  }

  lemma QuotedEnds(quote: char, body: string, rest: string)
    requires IsQuoted(quote, body)
    ensures Run(Quoted(quote, false), body + [quote] + rest) == Result([quote], Normal, rest)
  {
    QuotedValueVanishes(quote, body, rest);
    ConcatAssociative(body, [quote], rest);
  }

  lemma BareEnds(body: string, terminator: char, rest: string)
    requires IsBare(body) && IsUnquotedTerminator(terminator)
    ensures Run(Unquoted, body + [terminator] + rest) == Result([terminator], Normal, rest)
  {
    RunUnquotedBody(body, [terminator] + rest);
    ConcatAssociative(body, [terminator], rest);
    assert ([terminator] + rest)[1..] == rest;
  }

  /** Every value vanishes; what surrounds it stays. */
  lemma ValueVanishes(v: Value, rest: string)
    requires ProperValue(v)
    ensures Run(AssignmentValue, ValueText(v) + rest) == Result(ValueShown(v), Normal, rest)
  {
    hide Run, Escape;
    match v
    case Bare(spaces, body, terminator) =>
      ConcatAssociative(spaces, body + [terminator], rest);
      ValueSpacesStay(spaces, body + [terminator] + rest);
      UnquotedValueBecomesRedacted(body, terminator, rest);
      ConcatAssociative(body, [terminator], rest);
    case InQuotes(spaces, quote, body) =>
      ConcatAssociative(spaces, [quote] + (body + [quote]), rest);
      ConcatAssociative([quote], body + [quote], rest);
      ValueSpacesStay(spaces, [quote] + (body + [quote] + rest));
      QuoteOpens(quote, body + [quote] + rest);
      QuotedEnds(quote, body, rest);
      ConcatAssociative([quote], REDACTED, [quote]);
  }

  lemma OversizedToken(preservable: bool, keyQuote: Option<char>, token: string, tail: string)
    requires AllTokenChars(token)
    ensures Run(Direct(None, preservable, keyQuote), token + tail) == Run(Direct(None, preservable, keyQuote), tail)
  {
    TokenThen(token, tail);
    RunToken(Direct(None, preservable, keyQuote), token + tail, |token|);
    hide Run;
    PrependNothing(Run(Direct(None, preservable, keyQuote), tail));
  }

  /** A token with its delimiter, whatever the marker's length. */
  lemma TokenVanishes(marker: string, preservable: bool, preceding: Option<char>, text: string, delimiter: char, rest: string)
    requires AllTokenChars(text) && !IsTokenChar(delimiter) && preceding != Some(delimiter)
    ensures var (shown, mode) := EnterToken(marker, preservable, preceding);
            Prepend(shown, Run(mode, text + [delimiter] + rest)) == Result(REDACTED + [delimiter], Normal, rest)
  {
    if |marker| <= MAX_DIRECT_KEY_LENGTH {
      TokenBecomesRedacted(marker, preservable, preceding, text, delimiter, rest);
      assert "" + (REDACTED + [delimiter]) == REDACTED + [delimiter];
    } else {
      ConcatAssociative(text, [delimiter], rest);
      OversizedToken(preservable, preceding, text, [delimiter] + rest);
      RunOne(Direct(None, preservable, preceding), [delimiter] + rest);
      assert ([delimiter] + rest)[1..] == rest;
      assert Run(Normal, rest) == Result("", Normal, rest) && "" + [delimiter] == [delimiter] + "" == [delimiter];
    }
  }

  /** A token as a key, whatever the marker's length. */
  lemma TokenKeyShown(marker: string, preservable: bool, quote: char, text: string, spaces: string, rest: string)
    requires AllTokenChars(text) && IsQuote(quote) && AllSpaces(spaces) && |spaces| <= MAX_KEY_WHITESPACE
    ensures var (shown, mode) := EnterToken(marker, preservable, Some(quote));
            Prepend(shown, Run(mode, text + ([quote] + (spaces + (":" + rest)))))
            == Prepend(ShownKey(marker, preservable, text) + ([quote] + spaces + ":"), Run(AssignmentValue, rest))
  {
    hide Run;
    var tail := spaces + (":" + rest);
    var colon, r := [quote] + spaces + ":", Run(AssignmentValue, rest);
    if |marker| <= MAX_DIRECT_KEY_LENGTH {
      TokenAsKey(marker, preservable, quote, text, spaces, rest);
      PrependNothing(Run(Direct(Some(marker), preservable, Some(quote)), text + ([quote] + tail)));
    } else {
      OversizedToken(preservable, Some(quote), text, [quote] + tail);
      KeyQuoteEnds(None, preservable, quote, tail);
      KeyColonEnds(None, preservable, quote, spaces, rest);
      assert "" + [quote] + spaces + ":" == colon;
      PrependTwice(REDACTED, colon, r);
    }
  }

  lemma KeyedShown(spaces: string, v: Value, rest: string)
    requires AllSpaces(spaces) && ProperValue(v)
    ensures Run(KeyColon, spaces + (":" + ValueText(v)) + rest) == Result(spaces + (":" + ValueShown(v)), Normal, rest)
  {
    hide Run, ProperValue;
    ConcatAssociative(spaces, ":" + ValueText(v), rest);
    ConcatAssociative(":", ValueText(v), rest);
    ColonSpacesStay(spaces, ValueText(v) + rest);
    ValueVanishes(v, rest);
    ConcatAssociative(spaces, ":", ValueShown(v));
  }

  lemma TokenKeyVanishes(marker: string, preservable: bool, quote: char, text: string, spaces: string, v: Value, rest: string)
    requires AllTokenChars(text) && IsQuote(quote) && AllSpaces(spaces) && |spaces| <= MAX_KEY_WHITESPACE && ProperValue(v)
    ensures var (shown, mode) := EnterToken(marker, preservable, Some(quote));
            Prepend(shown, Run(mode, text + ([quote] + (spaces + (":" + ValueText(v)))) + rest))
            == Result(ShownKey(marker, preservable, text) + ([quote] + (spaces + (":" + ValueShown(v)))), Normal, rest)
  {
    hide Run, ProperValue, ShownKey, EnterToken;
    var value, key := ValueText(v), ShownKey(marker, preservable, text);
    ConcatAssociative(text, [quote] + (spaces + (":" + value)), rest);
    ConcatAssociative([quote], spaces + (":" + value), rest);
    ConcatAssociative(spaces, ":" + value, rest);
    ConcatAssociative(":", value, rest);
    TokenKeyShown(marker, preservable, quote, text, spaces, value + rest);
    ValueVanishes(v, rest);
    KeyAndValue(key, [quote], spaces, ":", ValueShown(v));
  }

  lemma KeyAndValue(key: string, quote: string, spaces: string, colon: string, value: string)
    ensures key + (quote + spaces + colon) + value == key + (quote + (spaces + (colon + value)))
  {
  }

  /** Entering any marker and running over the credential behind it. */
  lemma CredentialVanishes(mk: Marker, marker: string, preceding: Option<char>, c: Credential, rest: string)
    requires Behind(mk, preceding, c)
    ensures var (shown, mode) := Enter(mk.kind, marker, preceding, mk.quote);
            && !mode.Normal?
            && Prepend(shown, Run(mode, CredentialText(c) + rest))
               == Result(CredentialShown(mk.kind, marker, c), Normal, rest)
  {
    hide Run, ProperValue, Escape;
    match c
    case Bearer(body, terminator) =>
      BareEnds(body, terminator, rest);
      ConcatAssociative(marker, REDACTED, [terminator]);
    case Captured(quote, body) =>
      QuotedEnds(quote, body, rest);
      ConcatAssociative(marker, REDACTED, [quote]);
    case Assigned(value) => ValueVanishes(value, rest);
    case Keyed(spaces, value) => KeyedShown(spaces, value, rest);
    case Token(text, delimiter) => TokenVanishes(marker, mk.kind.DirectToken?, preceding, text, delimiter, rest);
    case TokenKey(text, quote, spaces, value) =>
      TokenKeyVanishes(marker, mk.kind.DirectToken?, quote, text, spaces, value, rest);
  }

  /** Whatever credential stands behind the marker that the search returns, one scan publishes the text
      before the marker, the marker unless it is part of a token, `[REDACTED]` for the credential, and what
      ends it; and goes on behind it in normal mode. */
  lemma ScanHidesCredential(find: Finder, carry: nat, buffer: string, mk: Marker, c: Credential, rest: string, final: bool)
    requires FindsInside(find) && buffer != "" && find(buffer) == Some(mk)
    requires Behind(mk, Preceding(buffer, mk.start), c) && buffer[mk.end..] == CredentialText(c) + rest
    ensures Scan(find, carry, Normal, buffer, final)
         == Prepend(buffer[..mk.start] + CredentialShown(mk.kind, buffer[mk.start..mk.end], c),
                    Scan(find, carry, Normal, rest, final))
  {
    var marker, preceding := buffer[mk.start..mk.end], Preceding(buffer, mk.start);
    ScanEnters(find, carry, buffer, mk, final);
    CredentialVanishes(mk, marker, preceding, c, rest);
    hide Run, Scan, Enter, Behind, CredentialText, CredentialShown, Preceding;
    var (shown, mode) := Enter(mk.kind, marker, preceding, mk.quote);
    var r := Run(mode, buffer[mk.end..]);
    ScanRuns(find, carry, mode, buffer[mk.end..], final);
    PrependTwice(buffer[..mk.start] + shown, r.output, Scan(find, carry, Normal, rest, final));
    ConcatAssociative(buffer[..mk.start], shown, r.output);
  }

  lemma NothingLeft(m: Mode)
    ensures Run(m, "") == Result("", m, "")
  {
  }

  // ----- a credential that arrives in pieces -----

  /** While the credential has not ended, every chunk is swallowed whole. */
  lemma {:induction false} StillHidden(find: Finder, carry: nat, chunks: seq<string>, more: seq<string>)
    requires FindsInside(find) && !Feeds(find, carry, chunks).mode.Normal? && Feeds(find, carry, chunks).rest == ""
    requires !Run(Feeds(find, carry, chunks).mode, Concat(more)).mode.Normal?
    ensures var fed := Feeds(find, carry, chunks);
            var r := Run(fed.mode, Concat(more));
            Feeds(find, carry, chunks + more) == Result(fed.output + r.output, r.mode, "")
    decreases |more|
  {
    var fed := Feeds(find, carry, chunks);
    if more == [] {
      assert chunks + more == chunks && fed.output + "" == fed.output;
      NothingLeft(fed.mode);
    } else {
      var n := |more| - 1;
      var before, last := more[..n], more[n];
      assert Concat(more) == Concat(before) + last;
      LastChunk(chunks, more);
      hide Run, Scan, Feeds, Concat;
      var earlier := Run(fed.mode, Concat(before));
      RunSplit(fed.mode, Concat(before), last);
      StillHidden(find, carry, chunks, before);
      FeedsMore(find, carry, chunks + before, last);
      assert "" + last == last;
      ScanRuns(find, carry, earlier.mode, last, false);
      ConcatAssociative(fed.output, earlier.output, Run(earlier.mode, last).output);
    }
  }

  lemma LastChunk(chunks: seq<string>, more: seq<string>)
    requires more != []
    ensures chunks + more == (chunks + more[..|more| - 1]) + [more[|more| - 1]]
  {
  }

  /** The chunk with the end of the credential in it. */
  lemma HiddenToTheEnd(find: Finder, carry: nat, chunks: seq<string>, more: seq<string>, output: string, rest: string)
    requires FindsInside(find) && !Feeds(find, carry, chunks).mode.Normal? && Feeds(find, carry, chunks).rest == ""
    requires more != [] && |rest| < |more[|more| - 1]|
    requires Run(Feeds(find, carry, chunks).mode, Concat(more)) == Result(output, Normal, rest)
    ensures Feeds(find, carry, chunks + more)
         == Prepend(Feeds(find, carry, chunks).output + output, Scan(find, carry, Normal, rest, false))
  {
    hide Run, Scan, Feeds;
    var fed, n := Feeds(find, carry, chunks), |more| - 1;
    var earlier := Run(fed.mode, Concat(more[..n]));
    RunSplit(fed.mode, Concat(more[..n]), more[n]);
    StillHidden(find, carry, chunks, more[..n]);
    assert chunks + more == (chunks + more[..n]) + [more[n]];
    FeedsMore(find, carry, chunks + more[..n], more[n]);
    assert "" + more[n] == more[n];
    ScanRuns(find, carry, earlier.mode, more[n], false);
    var last := Run(earlier.mode, more[n]);
    PrependTwice(fed.output + earlier.output, last.output, Scan(find, carry, Normal, rest, false));
    ConcatAssociative(fed.output, earlier.output, last.output);
  }

  /** The same when the credential arrives in any number of chunks after the marker was found, the last of
      which holds its end. */
  lemma FeedsHideCredential(find: Finder, carry: nat, chunks: seq<string>, last: string, more: seq<string>, mk: Marker,
                            c: Credential, rest: string)
    requires FindsInside(find) && Feeds(find, carry, chunks).mode.Normal?
    requires var buffer := Feeds(find, carry, chunks).rest + last;
             && buffer != "" && find(buffer) == Some(mk) && Behind(mk, Preceding(buffer, mk.start), c)
             && buffer[mk.end..] + Concat(more) == CredentialText(c) + rest
    requires more != [] && |rest| < |more[|more| - 1]|
    ensures var before := Feeds(find, carry, chunks);
            var buffer := before.rest + last;
            Feeds(find, carry, chunks + [last] + more)
            == Prepend(before.output + (buffer[..mk.start] + CredentialShown(mk.kind, buffer[mk.start..mk.end], c)),
                       Scan(find, carry, Normal, rest, false))
  {
    var before := Feeds(find, carry, chunks);
    var buffer := before.rest + last;
    var marker, preceding, after := buffer[mk.start..mk.end], Preceding(buffer, mk.start), buffer[mk.end..];
    ScanEnters(find, carry, buffer, mk, false);
    FeedsMore(find, carry, chunks, last);
    CredentialVanishes(mk, marker, preceding, c, rest);
    hide Run, Scan, Feeds, Enter, Behind, CredentialText, CredentialShown, Preceding;
    var (shown, mode) := Enter(mk.kind, marker, preceding, mk.quote);
    var r, start := Run(mode, after), buffer[..mk.start];
    RunSplit(mode, after, Concat(more));
    ConcatLonger(more);
    ScanRuns(find, carry, mode, after, false);
    PrependTwice(before.output, start + shown, r);
    var whole := Run(mode, CredentialText(c) + rest);
    HiddenToTheEnd(find, carry, chunks + [last], more, Run(r.mode, Concat(more)).output, rest);
    Outputs(before.output, start, shown, r.output, Run(r.mode, Concat(more)).output);
  }

  lemma ConcatLonger(more: seq<string>)
    requires more != []
    ensures |more[|more| - 1]| <= |Concat(more)|
  {
  }

  lemma Outputs(a: string, b: string, c: string, d: string, e: string)
    ensures a + (b + c + d) + e == a + (b + (c + (d + e)))
    ensures a + (b + c) + d + e == a + (b + (c + (d + e)))
  {
  }

  // ----- a credential that does not end -----

  predicate Hiding(m: Mode) {
    m.Direct? || m.Quoted? || m.Unquoted?
  }

  /** What the end of input publishes is what a delimiter would have, without the delimiter. */
  lemma FlushIsDelimited(m: Mode, x: char, output: string)
    requires Hiding(m) && Run(m, [x]) == Result(output, Normal, "")
    ensures output == Flush(m).0 + [x]
  {
    RunOne(m, [x]);
    assert [x][1..] == "";
    assert "" + [x] == [x] == [x] + "";
  }

  lemma ValueStaysOpen(v: Value, text: string, x: char)
    requires ProperValue(v) && ValueText(v) == text + [x]
    ensures Hiding(Run(AssignmentValue, text).mode)
  {
    match v
    case Bare(spaces, body, terminator) =>
      CutLast(spaces + body, terminator, text, x);
      ConcatAssociative(spaces, body, [terminator]);
      ValueSpacesStay(spaces, body);
      RunOne(AssignmentValue, body);
      RunUnquotedBody(body, "");
      assert body + "" == body;
    case InQuotes(spaces, quote, body) =>
      CutLast(spaces + ([quote] + body), quote, text, x);
      ConcatAssociative([quote], body, [quote]);
      ConcatAssociative(spaces, [quote] + body, [quote]);
      ValueSpacesStay(spaces, [quote] + body);
      QuoteOpens(quote, body);
      RunQuotedBody(quote, false, body, "");
      assert body + "" == body;
  }

  lemma CutLast(a: string, x: char, b: string, y: char)
    requires a + [x] == b + [y]
    ensures a == b && x == y
  {
    assert (a + [x])[..|a|] == a && (b + [y])[..|b|] == b && |a| == |b|;
    assert (a + [x])[|a|] == x && (b + [y])[|b|] == y;
  }

  lemma CredentialStaysOpen(mk: Marker, marker: string, preceding: Option<char>, c: Credential, text: string, x: char)
    requires Behind(mk, preceding, c) && CredentialText(c) == text + [x]
    ensures Hiding(Run(Enter(mk.kind, marker, preceding, mk.quote).1, text).mode)
  {
    hide Run, ProperValue, Escape;
    match c
    case Bearer(body, terminator) =>
      CutLast(body, terminator, text, x);
      RunUnquotedBody(body, "");
      assert body + "" == body;
      NothingLeft(Unquoted);
    case Captured(quote, body) =>
      CutLast(body, quote, text, x);
      RunQuotedBody(quote, false, body, "");
      assert body + "" == body;
      NothingLeft(Quoted(quote, false));
    case Assigned(value) => ValueStaysOpen(value, text, x);
    case Keyed(spaces, value) =>
      var open := LastOfValue(spaces + ":", value, text, x);
      ConcatAssociative(spaces, ":", ValueText(value));
      ValueStaysOpen(value, open, x);
      ConcatAssociative(spaces, ":", open);
      ColonSpacesStay(spaces, open);
    case Token(token, delimiter) =>
      CutLast(token, delimiter, text, x);
      var mode := EnterToken(marker, mk.kind.DirectToken?, preceding).1;
      assert token[..|token|] == token && token[|token|..] == "";
      RunToken(mode, token, |token|);
      NothingLeft(Direct(Grow(mode.text, token).1, mode.preservable, mode.keyQuote));
    case TokenKey(token, quote, spaces, value) =>
      KeyAndValue(token, [quote], spaces, ":", ValueText(value));
      var open := LastOfValue(token + ([quote] + spaces + ":"), value, text, x);
      ValueStaysOpen(value, open, x);
      KeyAndValue(token, [quote], spaces, ":", open);
      TokenKeyShown(marker, mk.kind.DirectToken?, quote, token, spaces, open);
  }

  lemma LastOfValue(before: string, v: Value, text: string, x: char) returns (open: string)
    requires before + ValueText(v) == text + [x]
    ensures ValueText(v) == open + [x] && text == before + open
  {
    var value := ValueText(v);
    open := value[..|value| - 1];
    assert value == open + [value[|value| - 1]];
    ConcatAssociative(before, open, [value[|value| - 1]]);
    CutLast(before + open, value[|value| - 1], text, x);
  }

  /** A credential that the input ends in, right before its delimiter, is published as with the delimiter,
      which is missing. */
  lemma ScanHidesOpenCredential(find: Finder, carry: nat, buffer: string, mk: Marker, c: Credential, x: char)
    requires FindsInside(find) && buffer != "" && find(buffer) == Some(mk)
    requires Behind(mk, Preceding(buffer, mk.start), c) && buffer[mk.end..] + [x] == CredentialText(c)
    ensures Scan(find, carry, Normal, buffer, true).output + [x]
         == buffer[..mk.start] + CredentialShown(mk.kind, buffer[mk.start..mk.end], c)
  {
    var marker, preceding, text := buffer[mk.start..mk.end], Preceding(buffer, mk.start), buffer[mk.end..];
    ScanEnters(find, carry, buffer, mk, true);
    CredentialVanishes(mk, marker, preceding, c, "");
    CredentialStaysOpen(mk, marker, preceding, c, text, x);
    hide Run, Scan, Enter, Behind, CredentialText, CredentialShown, Preceding, Flush;
    assert CredentialText(c) + "" == CredentialText(c);
    var (shown, mode) := Enter(mk.kind, marker, preceding, mk.quote);
    var r := Run(mode, text);
    RunSplit(mode, text, [x]);
    ScanRuns(find, carry, mode, text, true);
    FlushIsDelimited(r.mode, x, Run(r.mode, [x]).output);
    var start := buffer[..mk.start];
    OpenOutputs(start, shown, r.output, Flush(r.mode).0, [x]);
  }

  lemma OpenOutputs(a: string, b: string, c: string, d: string, e: string)
    ensures a + b + (c + d) + e == a + (b + (c + (d + e)))
  {
  }

  // ----- text without credentials -----

  /** The search finds nothing in any part of the text. */
  ghost predicate Clear(find: Finder, text: string) {
    forall i, j | 0 <= i <= j <= |text| :: find(text[i..j]).None?
  }

  lemma ClearPrefix(find: Finder, text: string, more: string)
    requires Clear(find, text + more)
    ensures Clear(find, text)
  {
    forall i, j | 0 <= i <= j <= |text| ensures find(text[i..j]).None? {
      assert text[i..j] == (text + more)[i..j];
    }
  }

  lemma ClearRest(find: Finder, before: string, rest: string)
    requires Clear(find, before + rest)
    ensures find(rest).None?
  {
    assert (before + rest)[|before|..|before + rest|] == rest;
  }

  /** Where the search finds nothing, whatever part of the text it is given, nothing is changed. */
  lemma NothingFoundNothingChanged(find: Finder, carry: nat, chunks: seq<string>)
    requires FindsInside(find) && Clear(find, Concat(chunks))
    ensures Published(find, carry, chunks) == Concat(chunks)
  {
    hide Scan, Feeds, Clear;
    NothingFoundSoFar(find, carry, chunks);
    var fed := Feeds(find, carry, chunks);
    ClearRest(find, fed.output, fed.rest);
    ScanEnds(find, carry, fed.rest, true);
  }

  lemma {:induction false} NothingFoundSoFar(find: Finder, carry: nat, chunks: seq<string>)
    requires FindsInside(find) && Clear(find, Concat(chunks))
    ensures var fed := Feeds(find, carry, chunks); fed.mode.Normal? && fed.output + fed.rest == Concat(chunks)
  {
    if chunks != [] {
      var n := |chunks| - 1;
      var before := Feeds(find, carry, chunks[..n]);
      var buffer := before.rest + chunks[n];
      hide Scan, Clear;
      ClearPrefix(find, Concat(chunks[..n]), chunks[n]);
      NothingFoundSoFar(find, carry, chunks[..n]);
      ConcatAssociative(before.output, before.rest, chunks[n]);
      ClearRest(find, before.output, buffer);
      ScanEnds(find, carry, buffer, false);
      Released(before.output, buffer, carry);
    }
  }

  lemma Released(output: string, buffer: string, carry: nat)
    ensures carry < |buffer| ==> output + buffer[..|buffer| - carry] + buffer[|buffer| - carry..] == output + buffer
    ensures output + "" + buffer == output + buffer
  {
  }
}
