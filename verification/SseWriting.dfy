/** Event streams as a server writes them, and the round trip through the gateway's parser: what is read is
    what was written, whatever line breaks, padding, comments and chunks. */
module SseWriting {
  import opened Basics
  import opened Utf8
  import opened Sse

  /** One line of an event and its line break: data with padding around the payload, the end marker, or a
      comment or any other field. */
  datatype Line =
    | Data(before: seq<Byte>, payload: seq<Byte>, after: seq<Byte>, crlf: bool)
    | Done(before: seq<Byte>, after: seq<Byte>, crlf: bool)
    | Other(text: seq<Byte>, crlf: bool)

  predicate Breakless(b: seq<Byte>) {
    forall i | 0 <= i < |b| :: b[i] != LF && b[i] != CR
  }

  predicate Padding(b: seq<Byte>) {
    Breakless(b) && AllSpace(b)
  }

  predicate Trimmed(b: seq<Byte>) {
    b == [] || (!IsSpace(b[0]) && !IsSpace(b[|b| - 1]))
  }

  predicate ProperLine(l: Line) {
    match l
    case Data(before, payload, after, _) =>
      Padding(before) && Padding(after) && Breakless(payload) && Trimmed(payload) && payload != DONE_MARKER
    case Done(before, after, _) => Padding(before) && Padding(after)
    case Other(text, _) => Breakless(text) && text != [] && !(DATA_PREFIX <= text)
  }

  /** An event has at least one line. */
  predicate ProperEvent(lines: seq<Line>) {
    lines != [] && forall i | 0 <= i < |lines| :: ProperLine(lines[i])
  }

  function LineText(l: Line): seq<Byte> {
    match l
    case Data(before, payload, after, _) => DATA_PREFIX + (before + payload + after)
    case Done(before, after, _) => DATA_PREFIX + (before + DONE_MARKER + after)
    case Other(text, _) => text
  }

  function LineBreak(l: Line): seq<Byte> {
    if l.crlf then [CR, LF] else [LF]
  }

  function Body(lines: seq<Line>): seq<Byte> {
    if lines == [] then []
    else if |lines| == 1 then LineText(lines[0])
    else LineText(lines[0]) + (LineBreak(lines[0]) + Body(lines[1..]))
  }

  /** The last line break, twice. */
  function Delimiter(lines: seq<Line>): seq<Byte> {
    if lines != [] && lines[|lines| - 1].crlf then CRLF_CRLF else LF_LF
  }

  function FrameFor(lines: seq<Line>): Frame {
    Frame(Body(lines), Delimiter(lines))
  }

  /** What the parser makes of the payloads, in order; nothing for the other lines. */
  function Objects<E>(parse: Parser<E>, lines: seq<Line>): seq<E> {
    if lines == [] then []
    else
      (if lines[0].Data? && parse(lines[0].payload).Some? then [parse(lines[0].payload).value] else [])
      + Objects(parse, lines[1..])
  }

  function Written(events: seq<seq<Line>>): seq<Byte> {
    if events == [] then [] else Wire(FrameFor(events[0])) + Written(events[1..])
  }

  function AllObjects<E>(parse: Parser<E>, events: seq<seq<Line>>): seq<E> {
    if events == [] then [] else Objects(parse, events[0]) + AllObjects(parse, events[1..])
  }

  // ----- one line -----

  lemma {:induction false} StripLeftPadding(before: seq<Byte>, b: seq<Byte>)
    requires AllSpace(before)
    ensures StripLeft(before + b) == StripLeft(b)
  {
    if before == [] {
      assert before + b == b;
    } else {
      assert (before + b)[1..] == before[1..] + b;
      StripLeftPadding(before[1..], b);
    }
  }

  lemma {:induction false} StripRightPadding(b: seq<Byte>, after: seq<Byte>)
    requires AllSpace(after) && (b == [] || !IsSpace(b[|b| - 1]))
    ensures StripRight(b + after) == b
  {
    if after == [] {
      assert b + after == b;
    } else {
      var n := |after| - 1;
      assert (b + after)[..|b + after| - 1] == b + after[..n];
      StripRightPadding(b, after[..n]);
    }
  }

  lemma StripPadded(before: seq<Byte>, payload: seq<Byte>, after: seq<Byte>)
    requires AllSpace(before) && AllSpace(after) && Trimmed(payload)
    ensures Strip(before + payload + after) == payload
  {
    if payload == [] {
      assert before + payload + after == before + after;
      StripIsEmpty(before + after);
    } else {
      ConcatAssociative(before, payload, after);
      StripLeftPadding(before, payload + after);
      StripRightPadding(payload, after);
    }
  }

  lemma LineIsParsed<E>(parse: Parser<E>, l: Line)
    requires ProperLine(l)
    ensures EventOfLine(parse, LineText(l)) == if l.Data? then parse(l.payload) else None
  {
    match l
    case Data(before, payload, after, _) =>
      StripPadded(before, payload, after);
      assert LineText(l)[5..] == before + payload + after && LineText(l)[..5] == DATA_PREFIX;
    case Done(before, after, _) =>
      StripPadded(before, DONE_MARKER, after);
      assert LineText(l)[5..] == before + DONE_MARKER + after && LineText(l)[..5] == DATA_PREFIX;
    case Other(text, _) =>
  }

  lemma LineIsBreakless(l: Line)
    requires ProperLine(l)
    ensures Breakless(LineText(l)) && LineText(l) != []
  {
  }

  // ----- one event -----

  lemma {:induction false} NormalizePast(text: seq<Byte>, rest: seq<Byte>)
    requires Breakless(text)
    ensures NormalizeNewlines(text + rest) == text + NormalizeNewlines(rest)
  {
    if text == [] {
      assert text + rest == rest;
    } else {
      assert (text + rest)[0] == text[0] && (text + rest)[1..] == text[1..] + rest;
      NormalizePast(text[1..], rest);
    }
  }

  lemma NormalizeBreak(l: Line, rest: seq<Byte>)
    ensures NormalizeNewlines(LineBreak(l) + rest) == [LF] + NormalizeNewlines(rest)
  {
    var b := LineBreak(l) + rest;
    assert if l.crlf then b[2..] == rest else b[1..] == rest;
  }

  lemma {:induction false} LinesPast(line: seq<Byte>, text: seq<Byte>, rest: seq<Byte>)
    requires Breakless(text)
    ensures LinesFrom(line, text + rest) == LinesFrom(line + text, rest)
    decreases |text|
  {
    if text == [] {
      assert text + rest == rest && line + text == line;
    } else {
      assert (text + rest)[0] == text[0] && (text + rest)[1..] == text[1..] + rest;
      LinesPast(line + [text[0]], text[1..], rest);
      assert line + [text[0]] + text[1..] == line + text;
    }
  }

  lemma FirstLine(l: Line, rest: seq<Byte>)
    requires ProperLine(l)
    ensures LinesOf(LineText(l) + (LineBreak(l) + rest)) == [LineText(l)] + LinesOf(rest)
  {
    hide LineText, LineBreak, NormalizeNewlines;
    var text, normal := LineText(l), NormalizeNewlines(rest);
    LineIsBreakless(l);
    NormalizePast(text, LineBreak(l) + rest);
    NormalizeBreak(l, rest);
    LinesPast([], text, [LF] + normal);
    assert [] + text == text && ([LF] + normal)[1..] == normal;
  }

  lemma OnlyLine(l: Line)
    requires ProperLine(l)
    ensures LinesOf(LineText(l)) == [LineText(l)]
  {
    var text := LineText(l);
    LineIsBreakless(l);
    NormalizePast(text, []);
    LinesPast([], text, []);
    assert text + [] == text && [] + text == text;
  }

  lemma {:induction false} LinesAreParsed<E>(parse: Parser<E>, lines: seq<Line>)
    requires ProperEvent(lines)
    ensures EventsOfLines(parse, LinesOf(Body(lines))) == Objects(parse, lines)
  {
    hide LinesOf, EventOfLine, LineText, LineBreak, ProperLine;
    LineIsParsed(parse, lines[0]);
    var text, rest := LineText(lines[0]), lines[1..];
    if rest == [] {
      OnlyLine(lines[0]);
      assert [text][1..] == [];
    } else {
      FirstLine(lines[0], Body(rest));
      LinesAreParsed(parse, rest);
      assert ([text] + LinesOf(Body(rest)))[1..] == LinesOf(Body(rest));
    }
  }

  // ----- where an event ends -----

  lemma DelimiterShifted(a: seq<Byte>, b: seq<Byte>, k: nat)
    ensures DelimiterAt(a + b, |a| + k) == DelimiterAt(b, k)
  {
  }

  lemma NoDelimiterInLine(l: Line, rest: seq<Byte>, j: nat)
    requires ProperLine(l) && rest != [] && rest[0] != LF && rest[0] != CR
    requires j < |LineText(l)| + |LineBreak(l)|
    ensures DelimiterAt(LineText(l) + (LineBreak(l) + rest), j) == 0
  {
    LineIsBreakless(l);
    var text, b := LineText(l), LineText(l) + (LineBreak(l) + rest);
    hide LineText;
    if j < |text| {
      assert b[j] == text[j];
    } else if l.crlf {
      assert b[|text|] == CR && b[|text| + 1] == LF && b[|text| + 2] == rest[0];
    } else {
      assert b[|text|] == LF && b[|text| + 1] == rest[0];
    }
  }

  lemma {:induction false} BodyIsClear(lines: seq<Line>, delimiter: seq<Byte>, j: nat)
    requires ProperEvent(lines) && (delimiter == LF_LF || delimiter == CRLF_CRLF) && j < |Body(lines)|
    ensures DelimiterAt(Body(lines) + delimiter, j) == 0
    decreases |lines|
  {
    var text, rest := LineText(lines[0]), lines[1..];
    LineIsBreakless(lines[0]);
    hide LineText;
    if rest == [] {
      assert (text + delimiter)[j] == text[j];
    } else {
      var head, tail := text + LineBreak(lines[0]), Body(rest) + delimiter;
      BodyStarts(rest, delimiter);
      LastParts(text, LineBreak(lines[0]), Body(rest), delimiter);
      if j < |head| {
        NoDelimiterInLine(lines[0], tail, j);
      } else {
        BodyIsClear(rest, delimiter, j - |head|);
        DelimiterShifted(head, tail, j - |head|);
      }
    }
  }

  lemma LastParts(a: seq<Byte>, b: seq<Byte>, c: seq<Byte>, d: seq<Byte>)
    ensures a + (b + c) + d == a + (b + (c + d)) == (a + b) + (c + d)
  {
  }

  lemma BodyStarts(lines: seq<Line>, delimiter: seq<Byte>)
    requires ProperEvent(lines)
    ensures Body(lines) != [] && (Body(lines) + delimiter)[0] != LF && (Body(lines) + delimiter)[0] != CR
  {
    LineIsBreakless(lines[0]);
    hide LineText;
    assert Body(lines)[0] == LineText(lines[0])[0];
  }

  lemma EventIsWhole(lines: seq<Line>)
    requires ProperEvent(lines)
    ensures Whole(FrameFor(lines))
  {
    var body, delimiter := Body(lines), Delimiter(lines);
    hide Body;
    forall j | 0 <= j < |body| ensures DelimiterAt(body + delimiter, j) == 0 {
      BodyIsClear(lines, delimiter, j);
    }
    DelimiterShifted(body, delimiter, 0);
    CutFromIs(body + delimiter, 0, |body|);
  }

  // ----- the round trip -----

  lemma {:induction false} WrittenIsRead<E>(parse: Parser<E>, events: seq<seq<Line>>)
    returns (frames: seq<Frame>)
    requires forall i | 0 <= i < |events| :: ProperEvent(events[i])
    ensures AllWhole(frames) && Join(frames) == Written(events)
    ensures EventsOf(parse, frames) == AllObjects(parse, events)
  {
    frames := [];
    if events != [] {
      var f := FrameFor(events[0]);
      EventIsWhole(events[0]);
      LinesAreParsed(parse, events[0]);
      hide Body, Objects, LinesOf, EventsOfLines, Whole;
      var later := WrittenIsRead(parse, events[1..]);
      frames := [f] + later;
      JoinCons(f, later);
      assert frames[1..] == later;
    }
  }

  /** Whatever a server writes is read back as the objects of its payloads, in order, and what has not been
      delimited yet is left over; the end marker and other lines add nothing. */
  lemma RoundTrip<E>(parse: Parser<E>, events: seq<seq<Line>>, tail: seq<Byte>)
    requires (forall i | 0 <= i < |events| :: ProperEvent(events[i])) && FirstCut(tail).NoCut?
    ensures EventsOf(parse, Split(Written(events) + tail).frames) == AllObjects(parse, events)
    ensures Split(Written(events) + tail).tail == tail
  {
    var frames := WrittenIsRead(parse, events);
    SplitOfJoin(frames);
    SplitAppend(Join(frames), tail);
    assert Split(tail) == Frames([], tail);
    hide Split, EventsOf, Written, AllObjects;
    assert [] + tail == tail && frames + [] == frames;
  }

  /** The same for the parser's loop. */
  method ReadBack<E>(parse: Parser<E>, events: seq<seq<Line>>, tail: seq<Byte>) returns (objects: seq<E>, buffer: seq<Byte>)
    requires (forall i | 0 <= i < |events| :: ProperEvent(events[i])) && FirstCut(tail).NoCut?
    ensures objects == AllObjects(parse, events) && buffer == tail
  {
    RoundTrip(parse, events, tail);
    hide Written, AllObjects, Split;
    objects, buffer := ParseChatSseFrames(parse, Written(events) + tail);
  }

  /** The translator is fed these objects however the stream is cut into chunks, even when the last
      delimiter never comes. */
  method Translated<E>(parse: Parser<E>, events: seq<seq<Line>>, chunks: seq<seq<Byte>>) returns (fed: seq<E>)
    requires forall i | 0 <= i < |events| :: ProperEvent(events[i])
    requires Concat(chunks) == Written(events) || Concat(chunks) + LF_LF == Written(events)
    ensures fed == AllObjects(parse, events)
  {
    CutFromIsNone([], 0);
    RoundTrip(parse, events, []);
    FlushIsLastEvent(parse, Written(events));
    hide Written, AllObjects, Split, EventsOf, CutFrom;
    assert Written(events) + [] == Written(events);
    assert AllObjects(parse, events) + [] == AllObjects(parse, events);
    fed := TranslatedEvents(parse, chunks);
  }

  /** The usage of the last object that has one. */
  ghost predicate IsLastUsage<E(!new), U(!new)>(usageOf: E -> Option<U>, objects: seq<E>, usage: Option<U>) {
    if usage.None? then forall i | 0 <= i < |objects| :: usageOf(objects[i]).None?
    else exists i | 0 <= i < |objects| ::
           usageOf(objects[i]) == usage && forall j | i < j < |objects| :: usageOf(objects[j]).None?
  }

  lemma {:induction false} LastUsageIsLast<E(!new), U(!new)>(usageOf: E -> Option<U>, objects: seq<E>)
    ensures IsLastUsage(usageOf, objects, LastUsage(usageOf, None, objects))
  {
    if objects != [] {
      var n := |objects| - 1;
      LastUsageIsLast(usageOf, objects[..n]);
      LastUsageConcat(usageOf, None, objects[..n], [objects[n]]);
      assert objects[..n] + [objects[n]] == objects && [objects[n]][1..] == [];
    }
  }

  /** The usage that the gateway records for a stream is that of the last written object that has one, as
      long as the scanner trims nothing. */
  lemma RecordedUsage<E(!new), U(!new)>(parse: Parser<E>, usageOf: E -> Option<U>, events: seq<seq<Line>>,
                                        chunks: seq<seq<Byte>>)
    requires (forall i | 0 <= i < |events| :: ProperEvent(events[i])) && Concat(chunks) == Written(events)
    requires NothingTrimmed([], chunks)
    ensures IsLastUsage(usageOf, AllObjects(parse, events),
                        LastUsage(usageOf, None, EventsOf(parse, ScanChunks([], chunks).frames)))
  {
    CutFromIsNone([], 0);
    RoundTrip(parse, events, []);
    ScannedUsageIsLastUsage(parse, usageOf, chunks);
    LastUsageIsLast(usageOf, AllObjects(parse, events));
    hide Written, AllObjects, Split, EventsOf, CutFrom, IsLastUsage, NothingTrimmed;
    assert Written(events) + [] == Written(events);
  }
}
