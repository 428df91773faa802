/** `StreamingRedactor` as the source writes it: block-wise consumption of a shrinking buffer over
    mutable fields, proved equal to the one-character transducer of `Redaction`. */
module StreamingRedaction {
  import opened Basics
  import opened Redaction
  import RedactionSafety

  datatype ModeName =
    | NormalMode | DirectMode | DirectKeyMode | KeyColonMode | AssignmentValueMode
    | QuotedMode | AssignmentMode | AuthorizationMode

  // ----- runs of the transducer over the blocks the loops cut out -----

  lemma {:induction false} RunValueSpaces(m: Mode, text: string, k: nat)
    requires m.KeyColon? || m.AssignmentValue?
    requires k <= |text| && AllSpaces(text[..k])
    ensures Run(m, text) == Prepend(text[..k], Run(m, text[k..]))
    decreases k
  {
    hide Run;
    if k == 0 {
      assert text[0..] == text && text[..0] == "";
      PrependNothing(Run(m, text));
    } else {
      assert text[..k][0] == text[0] && text[1..][..k - 1] == text[..k][1..];
      RunOne(m, text);
      RunValueSpaces(m, text[1..], k - 1);
      assert text[1..][k - 1..] == text[k..];
      PrependTwice([text[0]], text[1..][..k - 1], Run(m, text[k..]));
      assert [text[0]] + text[1..][..k - 1] == text[..k];
    }
  }

  /** More whitespace than a key may have before its colon: the held token is given up. */
  lemma {:induction false} RunKeyOverflow(m: Mode, text: string, k: nat)
    requires m.DirectKey? && |m.spaces| <= MAX_KEY_WHITESPACE < |m.spaces| + k
    requires k <= |text| && AllSpaces(text[..k])
    ensures Run(m, text)
         == Prepend(EmitText(m.text, false) + [m.quote] + m.spaces + text[..k], Run(KeyColon, text[k..]))
    decreases k
  {
    hide Run;
    var s := Step(m, text[0]);
    var tail := text[1..];
    assert text[..k][0] == text[0] && tail[..k - 1] == text[..k][1..] && tail[k - 1..] == text[k..];
    assert text[..k] == [text[0]] + tail[..k - 1];
    RunOne(m, text);
    var lead := EmitText(m.text, false) + [m.quote];
    if |m.spaces| < MAX_KEY_WHITESPACE {
      RunKeyOverflow(s.mode, tail, k - 1);
      PrependNothing(Run(s.mode, tail));
      SpacesShift(lead, m.spaces, text[0], tail[..k - 1]);
    } else {
      RunValueSpaces(KeyColon, tail, k - 1);
      PrependTwice(s.output, tail[..k - 1], Run(KeyColon, text[k..]));
      SpacesShift(lead, m.spaces, text[0], tail[..k - 1]);
    }
  }

  lemma SpacesShift(lead: string, spaces: string, c: char, more: string)
    ensures lead + (spaces + [c]) + more == lead + spaces + ([c] + more)
    ensures lead + spaces + [c] + more == lead + spaces + ([c] + more)
  {
  }

  lemma SplitAt(text: string, k: nat)
    requires k <= |text|
    ensures text[..k] + text[k..] == text
  {
  }

  /** What one `_consume_*` call must achieve, in terms of the transducer. */
  ghost predicate Consumed(m: Mode, text: string, final: bool, output: string, more: bool, m': Mode, rest: string) {
    if more then
      && Run(m, text) == Prepend(output, Run(m', rest))
      && (|rest| < |text| || (rest == text && Rank(m') < Rank(m)))
    else
      && rest == ""
      && var r := Run(m, text);
      && !r.mode.Normal?
      && (if final then output == r.output + Flush(r.mode).0 && m' == Flush(r.mode).1
          else output == r.output && m' == r.mode)
  }

  lemma ScanFollowsConsume(find: Finder, carry: nat, m: Mode, text: string, final: bool, output: string,
                           more: bool, m': Mode, rest: string)
    requires FindsInside(find) && !m.Normal? && Consumed(m, text, final, output, more, m', rest)
    ensures Scan(find, carry, m, text, final)
         == if more then Prepend(output, Scan(find, carry, m', rest, final)) else Result(output, m', rest)
  {
    if more {
      var r := Run(m', rest);
      if m'.Normal? {
        assert r == Result("", Normal, rest);
        assert output + "" == output;
      } else if r.mode.Normal? {
        PrependTwice(output, r.output, Scan(find, carry, Normal, r.rest, final));
      } else if final {
        ConcatAssociative(output, r.output, Flush(r.mode).0);
      }
    }
  }

  lemma GoesOn(m: Mode, text: string, final: bool, output: string, m': Mode, rest: string)
    requires Run(m, text) == Prepend(output, Run(m', rest))
    requires |rest| < |text| || (rest == text && Rank(m') < Rank(m))
    ensures Consumed(m, text, final, output, true, m', rest)
  {
  }

  lemma RunsOut(m: Mode, text: string, final: bool, output: string, m': Mode)
    requires Run(m, text) == Result(output, m', "") && !m'.Normal?
    ensures if final then Consumed(m, text, final, output + Flush(m').0, false, Flush(m').1, "")
            else Consumed(m, text, final, output, false, m', "")
  {
  }

  lemma ScanWithoutMarker(find: Finder, carry: nat, buffer: string, final: bool)
    requires FindsInside(find) && buffer != "" && find(buffer).None?
    ensures final ==> Scan(find, carry, Normal, buffer, final) == Result(buffer, Normal, "")
    ensures !final && carry < |buffer| ==>
              Scan(find, carry, Normal, buffer, final)
              == Result(buffer[..|buffer| - carry], Normal, buffer[|buffer| - carry..])
    ensures !final && |buffer| <= carry ==>
              Scan(find, carry, Normal, buffer, final) == Result("", Normal, buffer)
  {
  }

  function Entered(buffer: string, m: Marker): (string, Mode)
    requires m.start < m.end <= |buffer|
  {
    Enter(m.kind, buffer[m.start..m.end], Preceding(buffer, m.start), m.quote)
  }

  lemma ScanEntersMarker(find: Finder, carry: nat, buffer: string, final: bool, m: Marker)
    requires FindsInside(find) && buffer != "" && find(buffer) == Some(m)
    requires m.start < m.end <= |buffer|
    ensures Scan(find, carry, Normal, buffer, final)
         == Prepend(buffer[..m.start] + Entered(buffer, m).0,
                    Scan(find, carry, Entered(buffer, m).1, buffer[m.end..], final))
  {
  }

  class StreamingRedactor {
    const find: Finder
    const normalCarry: nat
    var buffer: string
    var mode: ModeName
    var quote: Option<char>
    var quotedEscape: bool
    var directText: Option<string>
    var directPreservable: bool
    var directKeyQuote: Option<char>
    var keyWhitespace: string
    var finished: bool

    ghost predicate Valid()
      reads this
    {
      && FindsInside(find)
      && (directText.Some? ==> |directText.value| <= MAX_DIRECT_KEY_LENGTH)
      && |keyWhitespace| <= MAX_KEY_WHITESPACE
      && (mode.DirectKeyMode? || mode.QuotedMode? ==> quote.Some?)
    }

    /** The fields that matter in the current mode. */
    ghost function Current(): Mode
      requires Valid()
      reads this
    {
      match mode
      case NormalMode => Normal
      case DirectMode => Direct(directText, directPreservable, directKeyQuote)
      case DirectKeyMode => DirectKey(directText, directPreservable, quote.value, keyWhitespace)
      case KeyColonMode => KeyColon
      case AssignmentValueMode => AssignmentValue
      case QuotedMode => Quoted(quote.value, quotedEscape)
      case AssignmentMode => Unquoted
      case AuthorizationMode => Unquoted
    }

    constructor (find: Finder, secretLengths: seq<nat>)
      requires FindsInside(find)
      ensures Valid() && Current() == Normal && buffer == "" && !finished && this.find == find
      ensures normalCarry == Largest(NORMAL_CARRY, secretLengths)
      ensures NORMAL_CARRY <= normalCarry && forall n | n in secretLengths :: n <= normalCarry
    {
      this.find := find;
      this.normalCarry := Largest(NORMAL_CARRY, secretLengths);
      buffer, mode, quote, quotedEscape := "", NormalMode, None, false;
      directText, directPreservable, directKeyQuote := Some(""), false, None;
      keyWhitespace, finished := "", false;
    }

    static function Largest(least: nat, lengths: seq<nat>): (r: nat)
      ensures least <= r && forall n | n in lengths :: n <= r
    {
      if lengths == [] then least
      else
        var rest := Largest(least, lengths[1..]);
        assert forall n | n in lengths :: n == lengths[0] || n in lengths[1..];
        if rest < lengths[0] then lengths[0] else rest
    }

    /** `feed`, over already decoded text. */
    method Feed(chunk: string) returns (output: string)
      requires Valid() && !finished
      modifies this
      ensures Valid() && !finished
      ensures Result(output, Current(), buffer)
           == Redaction.Scan(find, normalCarry, old(Current()), old(buffer) + chunk, false)
    {
      hide Redaction.Scan;
      buffer := buffer + chunk;
      output := Scan(false);
    }

    /** `finish`: flush once; later calls publish nothing. */
    method Finish() returns (output: string)
      requires Valid()
      modifies this
      ensures Valid() && finished
      ensures old(finished) ==> output == "" && buffer == old(buffer)
      ensures !old(finished) ==>
                Result(output, Current(), buffer)
                == Redaction.Scan(find, normalCarry, old(Current()), old(buffer), true)
    {
      hide Redaction.Scan;
      if finished {
        return "";
      }
      finished := true;
      output := Scan(true);
    }

    method Scan(final: bool) returns (output: string)
      requires Valid()
      modifies this
      ensures Valid() && finished == old(finished)
      ensures Result(output, Current(), buffer)
           == Redaction.Scan(find, normalCarry, old(Current()), old(buffer), final)
    {
      output := "";
      ghost var goal := Redaction.Scan(find, normalCarry, Current(), buffer, final);
      PrependNothing(goal);
      hide Redaction.Scan, Run, Consumed;
      while buffer != "" || (final && mode != NormalMode)
        invariant Valid() && finished == old(finished)
        invariant Prepend(output, Redaction.Scan(find, normalCarry, Current(), buffer, final)) == goal
        decreases |buffer|, Rank(Current())
      {
        ghost var m, text := Current(), buffer;
        if mode != NormalMode {
          var piece, more := ConsumeSecret(final);
          ScanFollowsConsume(find, normalCarry, m, text, final, piece, more, Current(), buffer);
          ConsumeDecreases(m, text, final, piece, more, Current(), buffer);
          ghost var after := if more then Redaction.Scan(find, normalCarry, Current(), buffer, final)
                             else Result("", Current(), buffer);
          assert piece + "" == piece;
          PrependTwice(output, piece, after);
          output := output + piece;
          if !more {
            assert output + "" == output;
            return;
          }
        } else {
          var piece, more := EnterMarker(final);
          ghost var after := if more then Redaction.Scan(find, normalCarry, Current(), buffer, final)
                             else Result("", Current(), buffer);
          PrependTwice(output, piece, after);
          output := output + piece;
          if !more {
            assert output + "" == output;
            return;
          }
        }
      }
      NothingToScan(find, normalCarry, Current(), final);
      assert output + "" == output;
    }

    static lemma ConsumeDecreases(m: Mode, text: string, final: bool, output: string, more: bool, m': Mode, rest: string)
      requires Consumed(m, text, final, output, more, m', rest)
      ensures more ==> |rest| < |text| || (rest == text && Rank(m') < Rank(m))
    {
    }

    static lemma NothingToScan(find: Finder, carry: nat, m: Mode, final: bool)
      requires FindsInside(find) && (final ==> m.Normal?)
      ensures Redaction.Scan(find, carry, m, "", final) == Result("", m, "")
    {
    }

    /** The normal-mode half of `_scan`'s loop body. */
    method EnterMarker(final: bool) returns (output: string, more: bool)
      requires Valid() && mode == NormalMode && buffer != ""
      modifies this
      ensures Valid() && finished == old(finished)
      ensures Redaction.Scan(find, normalCarry, Normal, old(buffer), final)
           == Prepend(output, if more then Redaction.Scan(find, normalCarry, Current(), buffer, final)
                              else Result("", Current(), buffer))
      ensures more ==> |buffer| < |old(buffer)|
    {
      hide Redaction.Scan;
      ghost var text := buffer;
      var candidate := find(buffer);
      if candidate.None? {
        ScanWithoutMarker(find, normalCarry, text, final);
        output := "";
        if final {
          output := buffer;
          buffer := "";
        } else if normalCarry < |buffer| {
          var stable := |buffer| - normalCarry;
          output := buffer[..stable];
          buffer := buffer[stable..];
        }
        assert output + "" == output;
        return output, false;
      }
      ScanEntersMarker(find, normalCarry, text, final, candidate.value);
      hide Entered;
      output := ConsumeMarker(candidate.value);
      more := true;
    }

    /** What `_scan` does with a match: publish up to it, and set up the mode it starts. */
    method ConsumeMarker(m: Marker) returns (output: string)
      requires Valid() && m.start < m.end <= |buffer|
      modifies this
      ensures Valid() && finished == old(finished)
      ensures output == old(buffer)[..m.start] + Entered(old(buffer), m).0
      ensures Current() == Entered(old(buffer), m).1
      ensures buffer == old(buffer)[m.end..]
    {
      var before := buffer[..m.start];
      var marker := buffer[m.start..m.end];
      var preceding := Preceding(buffer, m.start);
      buffer := buffer[m.end..];
      match m.kind {
        case Literal =>
          output := EnterDirect(before, marker, false, preceding);
        case DirectToken =>
          output := EnterDirect(before, marker, true, preceding);
        case AssignmentKey =>
          output := before + marker;
          mode := KeyColonMode;
        case Assignment =>
          output := before + marker;
          if m.quote.Some? {
            output := output + REDACTED;
            mode, quote, quotedEscape := QuotedMode, m.quote, false;
            ConcatAssociative(before, marker, REDACTED);
          } else {
            mode := AssignmentValueMode;
          }
        case Authorization =>
          output := before + marker + REDACTED;
          mode := AuthorizationMode;
          ConcatAssociative(before, marker, REDACTED);
      }
    }

    method EnterDirect(before: string, marker: string, preservable: bool, preceding: Option<char>)
      returns (output: string)
      requires Valid()
      modifies this
      ensures Valid() && buffer == old(buffer) && finished == old(finished) && mode == DirectMode
      ensures output == before + (if MAX_DIRECT_KEY_LENGTH < |marker| then REDACTED else "")
      ensures directText == if MAX_DIRECT_KEY_LENGTH < |marker| then None else Some(marker)
      ensures directPreservable == preservable && directKeyQuote == preceding
    {
      mode := DirectMode;
      output := before;
      if MAX_DIRECT_KEY_LENGTH < |marker| {
        output := output + REDACTED;
        directText := None;
      } else {
        directText := Some(marker);
        assert before + "" == before;
      }
      directPreservable := preservable;
      directKeyQuote := preceding;
    }

    method ConsumeSecret(final: bool) returns (output: string, more: bool)
      requires Valid() && mode != NormalMode && (buffer != "" || final)
      modifies this
      ensures Valid() && finished == old(finished)
      ensures Consumed(old(Current()), old(buffer), final, output, more, Current(), buffer)
    {
      hide Consumed, Run;
      match mode {
        case DirectMode => output, more := ConsumeDirect(final);
        case KeyColonMode => output, more := ConsumeKeyColon(final);
        case DirectKeyMode => output, more := ConsumeDirectKey(final);
        case AssignmentValueMode => output, more := ConsumeAssignmentValue(final);
        case QuotedMode => output, more := ConsumeQuoted(final);
        case AssignmentMode => output, more := ConsumeUnquoted(final);
        case AuthorizationMode => output, more := ConsumeUnquoted(final);
      }
    }

    method ConsumeQuoted(final: bool) returns (output: string, more: bool)
      requires Valid() && mode == QuotedMode
      modifies this
      ensures Valid() && finished == old(finished)
      ensures Consumed(old(Current()), old(buffer), final, output, more, Current(), buffer)
    {
      hide Run, FindsInside;
      var delimiter, trailingEscape := FindUnescapedQuote(buffer, quote.value, quotedEscape);
      if delimiter.None? {
        buffer := "";
        quotedEscape := if final then false else trailingEscape;
        assert "" + "" == "";
        return "", false;
      }
      output := [quote.value];
      buffer := buffer[delimiter.value + 1..];
      RunOfNormal(buffer);
      assert output + "" == output;
      mode, quote, quotedEscape := NormalMode, None, false;
      more := true;
    }

    static lemma RunOfNormal(text: string)
      ensures Run(Normal, text) == Result("", Normal, text)
    {
    }

    static lemma RunOfNothing(m: Mode)
      ensures Run(m, "") == Result("", m, "")
    {
    }

    /** The shared tail of `_consume_secret`, for authorization and plain assignment values. */
    method ConsumeUnquoted(final: bool) returns (output: string, more: bool)
      requires Valid() && (mode == AssignmentMode || mode == AuthorizationMode)
      modifies this
      ensures Valid() && finished == old(finished)
      ensures Consumed(old(Current()), old(buffer), final, output, more, Current(), buffer)
    {
      hide Run, Consumed;
      var index := FindTerminator(buffer);
      if index.None? {
        RunsOut(Unquoted, buffer, final, "", Unquoted);
        assert "" + "" == "";
        buffer := "";
        if final {
          mode := NormalMode;
        }
        return "", false;
      }
      GoesOn(Unquoted, buffer, final, [buffer[index.value]], Normal, buffer[index.value + 1..]);
      output := [buffer[index.value]];
      buffer := buffer[index.value + 1..];
      mode := NormalMode;
      more := true;
    }

    static method FindTerminator(text: string) returns (index: Option<nat>)
      ensures index.Some? ==>
                index.value < |text|
                && Run(Unquoted, text) == Prepend([text[index.value]], Run(Normal, text[index.value + 1..]))
      ensures index.None? ==> Run(Unquoted, text) == Result("", Unquoted, "")
    {
      hide Run;
      var i: nat := 0;
      assert text[0..] == text;
      while i < |text|
        invariant i <= |text|
        invariant Run(Unquoted, text) == Run(Unquoted, text[i..])
      {
        RunOne(Unquoted, text[i..]);
        assert text[i..][1..] == text[i + 1..];
        if IsUnquotedTerminator(text[i]) {
          return Some(i);
        }
        PrependNothing(Run(Unquoted, text[i + 1..]));
        i := i + 1;
      }
      RunOfNothing(Unquoted);
      index := None;
    }

    method ConsumeDirect(final: bool) returns (output: string, more: bool)
      requires Valid() && mode == DirectMode
      modifies this
      ensures Valid() && finished == old(finished)
      ensures Consumed(old(Current()), old(buffer), final, output, more, Current(), buffer)
    {
      hide Run, Grow, Consumed;
      ghost var m, text := Current(), buffer;
      var index := TokenLength(buffer);
      RunToken(m, text, index);
      var emitted := ExtendDirectText(buffer[..index]);
      ghost var grown := Direct(directText, directPreservable, directKeyQuote);
      if index == |buffer| {
        RunOfNothing(grown);
        assert emitted + "" == emitted;
        RunsOut(m, text, final, emitted, grown);
        buffer := "";
        output := emitted;
        if final {
          var held := EmitDirectText(false);
          output := output + held;
          ResetDirect(NormalMode);
        }
        return output, false;
      }
      var terminator := buffer[index];
      buffer := buffer[index + 1..];
      DirectEnds(m, text, final, emitted, grown, index);
      if directKeyQuote == Some(terminator) {
        mode, quote, keyWhitespace := DirectKeyMode, Some(terminator), "";
        return emitted, true;
      }
      var held := EmitDirectText(false);
      output := emitted + (held + [terminator]);
      ResetDirect(NormalMode);
      more := true;
    }

    static method TokenLength(text: string) returns (index: nat)
      ensures index <= |text| && forall i | 0 <= i < index :: IsTokenChar(text[i])
      ensures index < |text| ==> !IsTokenChar(text[index])
    {
      index := 0;
      while index < |text| && IsTokenChar(text[index])
        invariant index <= |text| && forall i | 0 <= i < index :: IsTokenChar(text[i])
      {
        index := index + 1;
      }
    }

    static lemma DirectEnds(m: Mode, text: string, final: bool, emitted: string, grown: Mode, index: nat)
      requires grown.Direct? && index < |text| && !IsTokenChar(text[index])
      requires Run(m, text) == Prepend(emitted, Run(grown, text[index..]))
      ensures if grown.keyQuote == Some(text[index])
              then Consumed(m, text, final, emitted, true,
                            DirectKey(grown.text, grown.preservable, text[index], ""), text[index + 1..])
              else Consumed(m, text, final, emitted + (EmitText(grown.text, false) + [text[index]]), true,
                            Normal, text[index + 1..])
    {
      hide Run, Consumed;
      RunOne(grown, text[index..]);
      assert text[index..][1..] == text[index + 1..];
      var s := Step(grown, text[index]);
      PrependTwice(emitted, s.output, Run(s.mode, text[index + 1..]));
      assert emitted + "" == emitted;
      GoesOn(m, text, final, emitted + s.output, s.mode, text[index + 1..]);
    }

    method ConsumeKeyColon(final: bool) returns (output: string, more: bool)
      requires Valid() && mode == KeyColonMode && (buffer != "" || final)
      modifies this
      ensures Valid() && finished == old(finished)
      ensures Consumed(old(Current()), old(buffer), final, output, more, Current(), buffer)
    {
      hide Run, Consumed;
      ghost var text := buffer;
      var k := LeadingSpaces(buffer);
      RunValueSpaces(KeyColon, text, k);
      output := buffer[..k];
      buffer := buffer[k..];
      if buffer == "" {
        RunOfNothing(KeyColon);
        assert output + "" == output;
        RunsOut(KeyColon, text, final, output, KeyColon);
        if final {
          mode := NormalMode;
        }
        return output, false;
      }
      ValueEnds(KeyColon, text, final, k);
      assert output + "" == output;
      more := true;
      if buffer[0] == ':' {
        output := output + ":";
        buffer := buffer[1..];
        mode := AssignmentValueMode;
        return;
      }
      mode := NormalMode;
    }

    method ConsumeDirectKey(final: bool) returns (output: string, more: bool)
      requires Valid() && mode == DirectKeyMode && (buffer != "" || final)
      modifies this
      ensures Valid() && finished == old(finished)
      ensures Consumed(old(Current()), old(buffer), final, output, more, Current(), buffer)
    {
      hide Run, Consumed;
      ghost var m, text := Current(), buffer;
      var k := LeadingSpaces(buffer);
      var whitespace := buffer[..k];
      buffer := buffer[k..];
      if MAX_KEY_WHITESPACE < |keyWhitespace| + |whitespace| {
        RunKeyOverflow(m, text, k);
        var held := EmitDirectText(false);
        output := held + [quote.value] + keyWhitespace + whitespace;
        GoesOn(m, text, final, output, KeyColon, text[k..]);
        ResetDirect(KeyColonMode);
        return output, true;
      }
      SplitAt(text, k);
      RunKeySpaces(m, whitespace, buffer);
      keyWhitespace := keyWhitespace + whitespace;
      ghost var spaced := Current();
      if buffer == "" {
        RunOfNothing(spaced);
        RunsOut(m, text, final, "", spaced);
        output := "";
        if final {
          var held := EmitDirectText(false);
          output := held + [quote.value] + keyWhitespace;
          assert "" + output == output;
          ResetDirect(NormalMode);
        }
        return output, false;
      }
      KeyEnds(m, text, final, spaced, k);
      more := true;
      if buffer[0] == ':' {
        var held := EmitDirectText(true);
        output := held + [quote.value] + keyWhitespace + ":";
        buffer := buffer[1..];
        ResetDirect(AssignmentValueMode);
        return;
      }
      var held := EmitDirectText(false);
      output := held + [quote.value] + keyWhitespace;
      ResetDirect(NormalMode);
    }

    static lemma KeyEnds(m: Mode, text: string, final: bool, spaced: Mode, k: nat)
      requires m.DirectKey? && spaced.DirectKey? && k < |text| && !IsJsonSpace(text[k])
      requires Run(m, text) == Run(spaced, text[k..])
      ensures if text[k] == ':'
              then Consumed(m, text, final, Step(spaced, ':').output, true, AssignmentValue, text[k..][1..])
              else Consumed(m, text, final, Step(spaced, text[k]).output, true, Normal, text[k..])
    {
      hide Run, Consumed;
      RunOne(spaced, text[k..]);
      var s := Step(spaced, text[k]);
      var rest := if s.consumed then text[k..][1..] else text[k..];
      assert k == 0 ==> text[k..] == text;
      GoesOn(m, text, final, s.output, s.mode, rest);
    }

    method ConsumeAssignmentValue(final: bool) returns (output: string, more: bool)
      requires Valid() && mode == AssignmentValueMode && (buffer != "" || final)
      modifies this
      ensures Valid() && finished == old(finished)
      ensures Consumed(old(Current()), old(buffer), final, output, more, Current(), buffer)
    {
      hide Run, Consumed;
      ghost var text := buffer;
      var k := LeadingSpaces(buffer);
      RunValueSpaces(AssignmentValue, text, k);
      output := buffer[..k];
      buffer := buffer[k..];
      if buffer == "" {
        RunOfNothing(AssignmentValue);
        assert output + "" == output;
        RunsOut(AssignmentValue, text, final, output, AssignmentValue);
        if final {
          mode := NormalMode;
        }
        return output, false;
      }
      ValueEnds(AssignmentValue, text, final, k);
      more := true;
      if IsQuote(buffer[0]) {
        quote := Some(buffer[0]);
        buffer := buffer[1..];
        output := output + ([quote.value] + REDACTED);
        quotedEscape := false;
        mode := QuotedMode;
      } else {
        output := output + REDACTED;
        mode := AssignmentMode;
      }
    }

    /** The first character after the whitespace of the key-colon and assignment-value modes. */
    static lemma ValueEnds(m: Mode, text: string, final: bool, k: nat)
      requires m.KeyColon? || m.AssignmentValue?
      requires k < |text| && !IsJsonSpace(text[k])
      requires Run(m, text) == Prepend(text[..k], Run(m, text[k..]))
      ensures var s := Step(m, text[k]);
              Consumed(m, text, final, text[..k] + s.output, true, s.mode,
                       if s.consumed then text[k..][1..] else text[k..])
    {
      hide Run, Consumed;
      RunOne(m, text[k..]);
      var s := Step(m, text[k]);
      var rest := if s.consumed then text[k..][1..] else text[k..];
      PrependTwice(text[..k], s.output, Run(s.mode, rest));
      assert k == 0 ==> text[k..] == text;
      GoesOn(m, text, final, text[..k] + s.output, s.mode, rest);
    }

    /** The whitespace loop of the three key and value modes. */
    static method LeadingSpaces(text: string) returns (k: nat)
      ensures k <= |text| && AllSpaces(text[..k])
      ensures k < |text| ==> !IsJsonSpace(text[k])
    {
      k := 0;
      while k < |text| && IsJsonSpace(text[k])
        invariant k <= |text| && forall i | 0 <= i < k :: IsJsonSpace(text[i])
      {
        k := k + 1;
      }
    }

    method ExtendDirectText(value: string) returns (output: string)
      requires Valid()
      modifies this`directText
      ensures Valid()
      ensures (output, directText) == Grow(old(directText), value)
    {
      if directText.None? {
        return "";
      }
      if |directText.value| + |value| <= MAX_DIRECT_KEY_LENGTH {
        directText := Some(directText.value + value);
        return "";
      }
      output := REDACTED;
      directText := None;
    }

    method EmitDirectText(preserve: bool) returns (output: string)
      requires Valid()
      ensures output == EmitText(directText, preserve && directPreservable)
    {
      if directText.None? {
        return "";
      }
      output := if preserve && directPreservable then directText.value else REDACTED;
    }

    method ResetDirect(next: ModeName)
      requires Valid() && !next.DirectKeyMode? && !next.QuotedMode?
      modifies this`mode, this`directText, this`directPreservable, this`directKeyQuote, this`quote, this`keyWhitespace
      ensures Valid() && mode == next
    {
      mode := next;
      directText, directPreservable, directKeyQuote := Some(""), false, None;
      quote, keyWhitespace := None, "";
    }

    /** The first quote that ends the value, with the escape state the text leaves behind. */
    static method FindUnescapedQuote(value: string, quote: char, escaped: bool)
      returns (index: Option<nat>, trailing: bool)
      ensures index.Some? ==>
                index.value < |value|
                && Run(Quoted(quote, escaped), value) == Result([quote], Normal, value[index.value + 1..])
      ensures index.None? ==> Run(Quoted(quote, escaped), value) == Result("", Quoted(quote, trailing), "")
    {
      trailing := escaped;
      var i: nat := 0;
      hide Run;
      assert value[0..] == value;
      while i < |value|
        invariant i <= |value|
        invariant Run(Quoted(quote, escaped), value) == Run(Quoted(quote, trailing), value[i..])
      {
        RunOne(Quoted(quote, trailing), value[i..]);
        assert value[i..][1..] == value[i + 1..];
        if value[i] == '\\' {
          trailing := !trailing;
        } else if value[i] == quote && !trailing {
          RunOfNormal(value[i + 1..]);
          return Some(i), false;
        } else {
          trailing := false;
        }
        PrependNothing(Run(Quoted(quote, trailing), value[i + 1..]));
        i := i + 1;
      }
      RunOfNothing(Quoted(quote, trailing));
      index := None;
    }
  }

  /** One redactor over a whole stream: a feed per chunk, then the flush. */
  method Redact(find: Finder, secretLengths: seq<nat>, chunks: seq<string>) returns (output: string)
    requires FindsInside(find)
    ensures output == Published(find, StreamingRedactor.Largest(NORMAL_CARRY, secretLengths), chunks)
  {
    hide Redaction.Scan, Feeds;
    var carry := StreamingRedactor.Largest(NORMAL_CARRY, secretLengths);
    var redactor := new StreamingRedactor(find, secretLengths);
    output := "";
    assert chunks[..0] == [];
    NothingFed(find, carry);
    for i := 0 to |chunks|
      invariant fresh(redactor) && redactor.Valid() && !redactor.finished
      invariant redactor.find == find && redactor.normalCarry == carry
      invariant Result(output, redactor.Current(), redactor.buffer) == Feeds(find, carry, chunks[..i])
    {
      assert chunks[..i + 1] == chunks[..i] + [chunks[i]];
      FeedsMore(find, carry, chunks[..i], chunks[i]);
      var more := redactor.Feed(chunks[i]);
      output := output + more;
    }
    assert chunks[..|chunks|] == chunks;
    var last := redactor.Finish();
    output := output + last;
  }

  lemma NothingFed(find: Finder, carry: nat)
    requires FindsInside(find)
    ensures Feeds(find, carry, []) == Result("", Normal, "")
  {
  }

  /** The redactor as it is built for some known secrets: each of them that is made of token characters
      and not part of "REDACTED" stays out of the output unless the input has it inside a key. */
  method RedactSecrets(p: RedactionSafety.Patterns, secrets: seq<string>, chunks: seq<string>) returns (output: string)
    requires RedactionSafety.PatternsMatch(p) && forall secret | secret in secrets :: secret != ""
    ensures forall secret, i | secret in secrets && RedactionSafety.Guarded([secret], |secret|)
                               && RedactionSafety.KeysClean([secret], Concat(chunks)) ::
              !RedactionSafety.Occurs(output, secret, i)
  {
    RedactionSafety.FinderFindsInside(p, secrets);
    hide Published, RedactionSafety.MarkerFinder, RedactionSafety.Occurs, RedactionSafety.KeysClean,
      RedactionSafety.PatternsMatch, FindsInside, StreamingRedactor.Largest;
    var find := RedactionSafety.MarkerFinder(p, secrets);
    var lengths := seq(|secrets|, i requires 0 <= i < |secrets| => |secrets[i]|);
    output := Redact(find, lengths, chunks);
    var carry := StreamingRedactor.Largest(NORMAL_CARRY, lengths);
    forall secret, i | secret in secrets && RedactionSafety.Guarded([secret], |secret|)
                       && RedactionSafety.KeysClean([secret], Concat(chunks))
      ensures !RedactionSafety.Occurs(output, secret, i)
    {
      var k :| 0 <= k < |secrets| && secrets[k] == secret;
      assert lengths[k] in lengths;
      RedactionSafety.GuardedByMore([secret], |secret|, carry);
      hide RedactionSafety.Guarded;
      RedactionSafety.PublishedOnlyInKeys(p, secrets, secret, carry, chunks);
    }
  }
}
