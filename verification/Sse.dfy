/** Splitting a server-sent event stream at LF LF or CR LF CR LF, as the gateway does in three places,
    and the usage scanner that keeps only the last 64 KiB of an unfinished event. */
module Sse {
  import opened Basics
  import opened Utf8

  const LF: Byte := 10
  const CR: Byte := 13
  const LF_LF: seq<Byte> := [10, 10]
  const CRLF_CRLF: seq<Byte> := [13, 10, 13, 10]

  // ----- the earliest delimiter -----

  /** The length of the delimiter that starts at position i, or 0. */
  function DelimiterAt(b: seq<Byte>, i: nat): nat {
    if i + 2 <= |b| && b[i] == LF && b[i + 1] == LF then 2
    else if i + 4 <= |b| && b[i] == CR && b[i + 1] == LF && b[i + 2] == CR && b[i + 3] == LF then 4
    else 0
  }

  datatype Cut = NoCut | Cut(index: nat, length: nat)

  function CutFrom(b: seq<Byte>, i: nat): (c: Cut)
    requires i <= |b|
    ensures c.Cut? ==> i <= c.index && c.index + c.length <= |b| && c.length == DelimiterAt(b, c.index) >= 2
    decreases |b| - i
  {
    if DelimiterAt(b, i) > 0 then Cut(i, DelimiterAt(b, i))
    else if i == |b| then NoCut
    else CutFrom(b, i + 1)
  }

  function FirstCut(b: seq<Byte>): Cut {
    CutFrom(b, 0)
  }

  /** No delimiter starts in [i, k). */
  ghost predicate ClearOf(b: seq<Byte>, i: nat, k: nat) {
    forall j | i <= j < k :: DelimiterAt(b, j) == 0
  }

  lemma {:induction false} CutFromIsEarliest(b: seq<Byte>, i: nat)
    requires i <= |b|
    ensures CutFrom(b, i).NoCut? ==> ClearOf(b, i, |b| + 1)
    ensures CutFrom(b, i).Cut? ==> ClearOf(b, i, CutFrom(b, i).index)
    decreases |b| - i
  {
    if DelimiterAt(b, i) == 0 && i < |b| {
      CutFromIsEarliest(b, i + 1);
    }
  }

  lemma {:induction false} CutFromIs(b: seq<Byte>, i: nat, k: nat)
    requires i <= k <= |b| && DelimiterAt(b, k) > 0 && ClearOf(b, i, k)
    ensures CutFrom(b, i) == Cut(k, DelimiterAt(b, k))
    decreases k - i
  {
    if i < k {
      CutFromIs(b, i + 1, k);
    }
  }

  lemma {:induction false} CutFromIsNone(b: seq<Byte>, i: nat)
    requires i <= |b| && ClearOf(b, i, |b|)
    ensures CutFrom(b, i).NoCut?
    decreases |b| - i
  {
    if i < |b| {
      CutFromIsNone(b, i + 1);
    }
  }

  lemma DelimiterInPrefix(a: seq<Byte>, b: seq<Byte>, k: nat, j: nat)
    requires DelimiterAt(a, k) > 0 && j <= k
    ensures j == k || DelimiterAt(a, j) == 0 ==> DelimiterAt(a + b, j) == DelimiterAt(a, j)
  {
  }

  lemma DelimiterOfPrefix(a: seq<Byte>, b: seq<Byte>, j: nat)
    ensures DelimiterAt(a, j) > 0 ==> DelimiterAt(a + b, j) == DelimiterAt(a, j)
    ensures DelimiterAt(a, j) == 0 ==> DelimiterAt(a + b, j) == 0 || |a| < j + DelimiterAt(a + b, j)
  {
  }

  /** The earliest delimiter of a prefix stays the earliest in every extension: a CR LF CR LF that the
      extension completes cannot start before it. */
  lemma EarliestStaysEarliest(a: seq<Byte>, b: seq<Byte>)
    requires FirstCut(a).Cut?
    ensures FirstCut(a + b) == FirstCut(a)
  {
    var k := FirstCut(a).index;
    CutFromIsEarliest(a, 0);
    forall j | 0 <= j <= k ensures DelimiterAt(a + b, j) == DelimiterAt(a, j) {
      DelimiterInPrefix(a, b, k, j);
    }
    CutFromIs(a + b, 0, k);
  }

  /** Dropping a prefix that ends before the earliest delimiter moves it and nothing else. */
  lemma DropBeforeCut(b: seq<Byte>, d: nat)
    requires d <= |b|
    requires FirstCut(b).Cut? ==> d <= FirstCut(b).index
    ensures FirstCut(b).NoCut? ==> FirstCut(b[d..]).NoCut?
    ensures FirstCut(b).Cut? ==> FirstCut(b[d..]) == Cut(FirstCut(b).index - d, FirstCut(b).length)
  {
    CutFromIsEarliest(b, 0);
    forall j | 0 <= j <= |b| - d ensures DelimiterAt(b[d..], j) == DelimiterAt(b, d + j) {
    }
    if FirstCut(b).Cut? {
      CutFromIs(b[d..], 0, FirstCut(b).index - d);
    } else {
      CutFromIsNone(b[d..], 0);
    }
  }

  // ----- whole streams -----

  datatype Frame = Frame(body: seq<Byte>, delimiter: seq<Byte>)

  datatype Frames = Frames(frames: seq<Frame>, tail: seq<Byte>)

  /** The delimited frames of a byte string and what is left unterminated. */
  function Split(b: seq<Byte>): Frames
    decreases |b|
  {
    match FirstCut(b)
    case NoCut => Frames([], b)
    case Cut(i, n) =>
      var rest := Split(b[i + n..]);
      Frames([Frame(b[..i], b[i..i + n])] + rest.frames, rest.tail)
  }

  function Wire(f: Frame): seq<Byte> {
    f.body + f.delimiter
  }

  function Join(frames: seq<Frame>): seq<Byte> {
    if frames == [] then [] else Wire(frames[0]) + Join(frames[1..])
  }

  lemma SplitOne(b: seq<Byte>, f: Frame, rest: seq<Byte>)
    requires b == Wire(f) + rest && FirstCut(b) == Cut(|f.body|, |f.delimiter|)
    ensures Split(b) == Frames([f] + Split(rest).frames, Split(rest).tail)
  {
    assert b[..|f.body|] == f.body;
    assert b[|f.body|..|f.body| + |f.delimiter|] == f.delimiter;
    assert b[|f.body| + |f.delimiter|..] == rest;
  }

  lemma FrameOf(b: seq<Byte>, i: nat, n: nat) returns (f: Frame, rest: seq<Byte>)
    requires FirstCut(b) == Cut(i, n)
    ensures b == Wire(f) + rest && |f.body| == i && |f.delimiter| == n && |rest| < |b|
    ensures Split(b) == Frames([f] + Split(rest).frames, Split(rest).tail)
  {
    f, rest := Frame(b[..i], b[i..i + n]), b[i + n..];
  }

  /** Splitting what arrives next behind the unterminated tail gives the frames of the whole. */
  lemma {:induction false} SplitAppend(a: seq<Byte>, b: seq<Byte>)
    ensures Split(a + b) == Frames(Split(a).frames + Split(Split(a).tail + b).frames, Split(Split(a).tail + b).tail)
    decreases |a|
  {
    if FirstCut(a).Cut? {
      var f, rest := FrameOf(a, FirstCut(a).index, FirstCut(a).length);
      EarliestStaysEarliest(a, b);
      ConcatAssociative(Wire(f), rest, b);
      SplitOne(a + b, f, rest + b);
      SplitAppend(rest, b);
      hide Split, FirstCut;
      ConcatAssociative([f], Split(rest).frames, Split(Split(rest).tail + b).frames);
    } else {
      assert Split(a) == Frames([], a);
      assert [] + Split(a + b).frames == Split(a + b).frames;
    }
  }

  /** Nothing is lost or invented, and no delimiter is left in the tail. */
  lemma {:induction false} SplitConserves(b: seq<Byte>)
    ensures Join(Split(b).frames) + Split(b).tail == b
    ensures FirstCut(Split(b).tail).NoCut?
    decreases |b|
  {
    if FirstCut(b).Cut? {
      var f, rest := FrameOf(b, FirstCut(b).index, FirstCut(b).length);
      SplitConserves(rest);
      hide Split, FirstCut;
      JoinCons(f, Split(rest).frames);
      ConcatAssociative(Wire(f), Join(Split(rest).frames), Split(rest).tail);
    }
  }

  lemma JoinCons(f: Frame, rest: seq<Frame>)
    ensures Join([f] + rest) == Wire(f) + Join(rest)
  {
    assert ([f] + rest)[1..] == rest;
  }

  /** A frame that a stream can contain: its own delimiter is the first one in it. */
  predicate Whole(f: Frame) {
    FirstCut(Wire(f)) == Cut(|f.body|, |f.delimiter|)
  }

  ghost predicate AllWhole(frames: seq<Frame>) {
    forall i | 0 <= i < |frames| :: Whole(frames[i])
  }

  /** Putting whole frames on the wire and splitting again gives the same frames. */
  lemma {:induction false} SplitOfJoin(frames: seq<Frame>)
    requires AllWhole(frames)
    ensures Split(Join(frames)) == Frames(frames, [])
  {
    if frames == [] {
      CutFromIsNone([], 0);
    } else {
      hide Split, FirstCut;
      var f, rest := frames[0], frames[1..];
      assert AllWhole(rest) && Whole(f);
      SplitOfJoin(rest);
      EarliestStaysEarliest(Wire(f), Join(rest));
      SplitOne(Join(frames), f, Join(rest));
      assert [f] + rest == frames;
    }
  }

  lemma CutOfPrefix(b: seq<Byte>, i: nat, n: nat)
    requires FirstCut(b) == Cut(i, n)
    ensures FirstCut(b[..i + n]) == Cut(i, n)
  {
    CutFromIsEarliest(b, 0);
    var p := b[..i + n];
    assert b == p + b[i + n..];
    forall j | 0 <= j < i ensures DelimiterAt(p, j) == 0 {
      DelimiterOfPrefix(p, b[i + n..], j);
    }
    CutFromIs(p, 0, i);
  }

  lemma {:induction false} SplitFramesAreWhole(b: seq<Byte>)
    ensures AllWhole(Split(b).frames)
    decreases |b|
  {
    if FirstCut(b).Cut? {
      var i, n := FirstCut(b).index, FirstCut(b).length;
      var f, rest := FrameOf(b, i, n);
      SplitFramesAreWhole(rest);
      CutOfPrefix(b, i, n);
      assert b[..i + n] == Wire(f);
    }
  }

  /** Feeding chunk by chunk, keeping the tail between chunks. */
  function SplitChunks(tail: seq<Byte>, chunks: seq<seq<Byte>>): Frames
    decreases |chunks|
  {
    if chunks == [] then Frames([], tail)
    else
      var now := Split(tail + chunks[0]);
      var later := SplitChunks(now.tail, chunks[1..]);
      Frames(now.frames + later.frames, later.tail)
  }

  lemma {:induction false} SplitChunksIsSplit(tail: seq<Byte>, chunks: seq<seq<Byte>>)
    requires FirstCut(tail).NoCut?
    ensures SplitChunks(tail, chunks) == Split(tail + Concat(chunks))
    decreases |chunks|
  {
    if chunks == [] {
      assert tail + Concat(chunks) == tail;
    } else {
      var now := Split(tail + chunks[0]);
      SplitConserves(tail + chunks[0]);
      SplitChunksIsSplit(now.tail, chunks[1..]);
      SplitAppend(tail + chunks[0], Concat(chunks[1..]));
      ConcatFirst(chunks);
      ConcatAssociative(tail, chunks[0], Concat(chunks[1..]));
    }
  }

  /** However the bytes are cut into chunks, the frames are those of the whole. */
  lemma ChunkingDoesNotMatter(chunks: seq<seq<Byte>>)
    ensures SplitChunks([], chunks) == Split(Concat(chunks))
  {
    CutFromIsNone([], 0);
    SplitChunksIsSplit([], chunks);
    assert [] + Concat(chunks) == Concat(chunks);
  }

  lemma {:induction false} SplitChunksSnoc(tail: seq<Byte>, chunks: seq<seq<Byte>>, c: seq<Byte>)
    ensures var before := SplitChunks(tail, chunks);
            var now := Split(before.tail + c);
            SplitChunks(tail, chunks + [c]) == Frames(before.frames + now.frames, now.tail)
    decreases |chunks|
  {
    hide Split;
    if chunks == [] {
      assert [c][1..] == [];
      var now := Split(tail + c);
      assert SplitChunks(now.tail, []) == Frames([], now.tail);
      assert chunks + [c] == [c];
      assert now.frames + [] == now.frames && [] + now.frames == now.frames;
    } else {
      var now := Split(tail + chunks[0]);
      assert (chunks + [c])[1..] == chunks[1..] + [c];
      SplitChunksSnoc(now.tail, chunks[1..], c);
      var middle := SplitChunks(now.tail, chunks[1..]);
      ConcatAssociative(now.frames, middle.frames, Split(middle.tail + c).frames);
    }
  }

  // ----- the events in a frame -----

  type Parser<!E> = seq<Byte> -> Option<E>

  const DATA_PREFIX: seq<Byte> := [100, 97, 116, 97, 58]
  const DONE_MARKER: seq<Byte> := [91, 68, 79, 78, 69, 93]

  /** What `bytes.strip` removes. */
  predicate IsSpace(c: Byte) {
    c == 32 || 9 <= c <= 13
  }

  function StripLeft(b: seq<Byte>): seq<Byte> {
    if b != [] && IsSpace(b[0]) then StripLeft(b[1..]) else b
  }

  function StripRight(b: seq<Byte>): seq<Byte> {
    if b != [] && IsSpace(b[|b| - 1]) then StripRight(b[..|b| - 1]) else b
  }

  function Strip(b: seq<Byte>): seq<Byte> {
    StripRight(StripLeft(b))
  }

  function NormalizeNewlines(b: seq<Byte>): seq<Byte> {
    if |b| >= 2 && b[0] == CR && b[1] == LF then [LF] + NormalizeNewlines(b[2..])
    else if b == [] then []
    else [b[0]] + NormalizeNewlines(b[1..])
  }

  /** `split` at LF, with the line read so far. */
  function LinesFrom(line: seq<Byte>, b: seq<Byte>): seq<seq<Byte>>
    decreases |b|
  {
    if b == [] then [line]
    else if b[0] == LF then [line] + LinesFrom([], b[1..])
    else LinesFrom(line + [b[0]], b[1..])
  }

  function LinesOf(body: seq<Byte>): seq<seq<Byte>> {
    LinesFrom([], NormalizeNewlines(body))
  }

  /** The event on one line; the parser answers None for invalid JSON and for anything but an object. */
  function EventOfLine<E>(parse: Parser<E>, line: seq<Byte>): Option<E> {
    if |line| < 5 || line[..5] != DATA_PREFIX then None
    else if Strip(line[5..]) == DONE_MARKER then None
    else parse(Strip(line[5..]))
  }

  function EventsOfLines<E>(parse: Parser<E>, lines: seq<seq<Byte>>): seq<E> {
    if lines == [] then []
    else
      var first := EventOfLine(parse, lines[0]);
      (if first.Some? then [first.value] else []) + EventsOfLines(parse, lines[1..])
  }

  function EventsOfFrame<E>(parse: Parser<E>, f: Frame): seq<E> {
    EventsOfLines(parse, LinesOf(f.body))
  }

  function EventsOf<E>(parse: Parser<E>, frames: seq<Frame>): seq<E> {
    if frames == [] then [] else EventsOfFrame(parse, frames[0]) + EventsOf(parse, frames[1..])
  }

  lemma {:induction false} EventsOfConcat<E>(parse: Parser<E>, a: seq<Frame>, b: seq<Frame>)
    ensures EventsOf(parse, a + b) == EventsOf(parse, a) + EventsOf(parse, b)
  {
    hide EventsOfFrame;
    if a == [] {
      assert a + b == b;
      assert [] + EventsOf(parse, b) == EventsOf(parse, b);
    } else {
      assert (a + b)[0] == a[0] && (a + b)[1..] == a[1..] + b;
      EventsOfConcat(parse, a[1..], b);
      ConcatAssociative(EventsOfFrame(parse, a[0]), EventsOf(parse, a[1..]), EventsOf(parse, b));
    }
  }

  lemma EventsOfSingle<E>(parse: Parser<E>, f: Frame)
    ensures EventsOf(parse, [f]) == EventsOfFrame(parse, f)
  {
    assert [f][1..] == [];
    hide EventsOfFrame;
    assert EventsOf(parse, []) == [];
    assert EventsOfFrame(parse, f) + [] == EventsOfFrame(parse, f);
  }

  lemma {:induction false} EventsOfLinesSnoc<E>(parse: Parser<E>, lines: seq<seq<Byte>>, line: seq<Byte>)
    ensures EventsOfLines(parse, lines + [line])
         == EventsOfLines(parse, lines)
            + (var e := EventOfLine(parse, line); if e.Some? then [e.value] else [])
  {
    hide EventOfLine;
    if lines == [] {
      assert [line][1..] == [] && lines + [line] == [line];
    } else {
      assert (lines + [line])[1..] == lines[1..] + [line];
      EventsOfLinesSnoc(parse, lines[1..], line);
    }
  }

  // ----- the parsing loop -----

  predicate OccursAt(b: seq<Byte>, needle: seq<Byte>, i: nat) {
    i + |needle| <= |b| && b[i..i + |needle|] == needle
  }

  /** `bytes.find`. */
  method Find(b: seq<Byte>, needle: seq<Byte>) returns (index: int)
    ensures index < 0 ==> forall j: nat | j <= |b| :: !OccursAt(b, needle, j)
    ensures index >= 0 ==> OccursAt(b, needle, index) && forall j: nat | j < index :: !OccursAt(b, needle, j)
  {
    var i := 0;
    while i <= |b|
      invariant forall j: nat | j < i :: !OccursAt(b, needle, j)
    {
      if OccursAt(b, needle, i) {
        return i;
      }
      i := i + 1;
    }
    index := -1;
  }

  lemma DelimiterOccurs(b: seq<Byte>, i: nat)
    ensures DelimiterAt(b, i) == 2 <==> OccursAt(b, LF_LF, i)
    ensures DelimiterAt(b, i) == 4 <==> OccursAt(b, CRLF_CRLF, i)
  {
    if OccursAt(b, LF_LF, i) {
      assert b[i] == b[i..i + 2][0] && b[i + 1] == b[i..i + 2][1];
    }
    if OccursAt(b, CRLF_CRLF, i) {
      assert b[i..i + 4][0] == b[i] && b[i..i + 4][1] == b[i + 1] && b[i..i + 4][2] == b[i + 2] && b[i..i + 4][3] == b[i + 3];
    }
  }

  /** The smaller of the two searches is the earliest delimiter. */
  method FirstDelimiter(b: seq<Byte>) returns (c: Cut)
    ensures c == FirstCut(b)
  {
    var short := Find(b, LF_LF);
    var long := Find(b, CRLF_CRLF);
    forall j: nat | j <= |b|
      ensures DelimiterAt(b, j) == 2 <==> OccursAt(b, LF_LF, j)
      ensures DelimiterAt(b, j) == 4 <==> OccursAt(b, CRLF_CRLF, j)
    {
      DelimiterOccurs(b, j);
    }
    hide OccursAt;
    if short < 0 && long < 0 {
      CutFromIsNone(b, 0);
      return NoCut;
    } else if long < 0 || (0 <= short && short < long) {
      CutFromIs(b, 0, short);
      return Cut(short, 2);
    } else {
      CutFromIs(b, 0, long);
      return Cut(long, 4);
    }
  }

  /** The loop over the lines of one frame. */
  method ParseFrame<E>(parse: Parser<E>, f: Frame) returns (events: seq<E>)
    ensures events == EventsOfFrame(parse, f)
  {
    var lines := LinesOf(f.body);
    events := [];
    hide EventOfLine, LinesOf;
    for i := 0 to |lines|
      invariant events == EventsOfLines(parse, lines[..i])
    {
      assert lines[..i + 1] == lines[..i] + [lines[i]];
      EventsOfLinesSnoc(parse, lines[..i], lines[i]);
      var event := EventOfLine(parse, lines[i]);
      if event.Some? {
        events := events + [event.value];
      }
    }
    assert lines[..|lines|] == lines;
  }

  /** One turn of the splitting loop. */
  lemma LoopStep(whole: seq<Byte>, done: seq<Frame>, buffer: seq<Byte>, f: Frame, rest: seq<Byte>)
    requires Split(whole) == Frames(done + Split(buffer).frames, Split(buffer).tail)
    requires Split(buffer) == Frames([f] + Split(rest).frames, Split(rest).tail)
    ensures Split(whole) == Frames((done + [f]) + Split(rest).frames, Split(rest).tail)
  {
    hide Split;
    ConcatAssociative(done, [f], Split(rest).frames);
  }

  lemma LoopEnd(whole: seq<Byte>, done: seq<Frame>, buffer: seq<Byte>)
    requires Split(whole) == Frames(done + Split(buffer).frames, Split(buffer).tail)
    requires FirstCut(buffer).NoCut?
    ensures Split(whole) == Frames(done, buffer)
  {
    assert Split(buffer) == Frames([], buffer);
    assert done + [] == done;
  }

  /** Cutting the first frame off a buffer. */
  method TakeFrame(b: seq<Byte>, cut: Cut) returns (f: Frame, rest: seq<Byte>)
    requires cut.Cut? && cut == FirstCut(b)
    ensures b == Wire(f) + rest && |rest| < |b|
    ensures f == Frame(b[..cut.index], b[cut.index..cut.index + cut.length])
    ensures Split(b) == Frames([f] + Split(rest).frames, Split(rest).tail)
  {
    f, rest := Frame(b[..cut.index], b[cut.index..cut.index + cut.length]), b[cut.index + cut.length..];
  }

  /** `parse_chat_sse_frames`. */
  method ParseChatSseFrames<E>(parse: Parser<E>, input: seq<Byte>) returns (events: seq<E>, buffer: seq<Byte>)
    ensures events == EventsOf(parse, Split(input).frames) && buffer == Split(input).tail
  {
    ghost var done: seq<Frame> := [];
    events, buffer := [], input;
    assert [] + Split(input).frames == Split(input).frames;
    assert events == EventsOf(parse, done);
    hide Split, EventsOfFrame, EventsOf;
    while true
      invariant Split(input) == Frames(done + Split(buffer).frames, Split(buffer).tail)
      invariant events == EventsOf(parse, done)
      decreases |buffer|
    {
      var cut := FirstDelimiter(buffer);
      if cut.NoCut? {
        LoopEnd(input, done, buffer);
        break;
      }
      var f, rest := TakeFrame(buffer, cut);
      LoopStep(input, done, buffer, f, rest);
      EventsOfConcat(parse, done, [f]);
      EventsOfSingle(parse, f);
      done := done + [f];
      buffer := rest;
      var found := ParseFrame(parse, f);
      events := events + found;
    }
  }

  // ----- the flush at the end of a translated stream -----

  predicate AllSpace(b: seq<Byte>) {
    forall i | 0 <= i < |b| :: IsSpace(b[i])
  }

  lemma {:induction false} StripRightIsEmpty(b: seq<Byte>)
    ensures StripRight(b) == [] <==> AllSpace(b)
    decreases |b|
  {
    if b != [] && IsSpace(b[|b| - 1]) {
      StripRightIsEmpty(b[..|b| - 1]);
    }
  }

  lemma {:induction false} StripLeftKeeps(b: seq<Byte>)
    ensures AllSpace(StripLeft(b)) <==> AllSpace(b)
  {
    if b != [] && IsSpace(b[0]) {
      StripLeftKeeps(b[1..]);
      assert AllSpace(b) <==> AllSpace(b[1..]) by {
        if AllSpace(b[1..]) {
          forall i | 0 <= i < |b| ensures IsSpace(b[i]) {
            assert i == 0 || b[i] == b[1..][i - 1];
          }
        }
      }
    }
  }

  lemma StripIsEmpty(b: seq<Byte>)
    ensures Strip(b) == [] <==> AllSpace(b)
  {
    StripLeftKeeps(b);
    StripRightIsEmpty(StripLeft(b));
  }

  lemma {:induction false} NormalizeKeepsSpace(b: seq<Byte>)
    requires AllSpace(b)
    ensures AllSpace(NormalizeNewlines(b))
  {
    if |b| >= 2 && b[0] == CR && b[1] == LF {
      NormalizeKeepsSpace(b[2..]);
    } else if b != [] {
      NormalizeKeepsSpace(b[1..]);
    }
  }

  lemma {:induction false} BlankLines<E>(parse: Parser<E>, line: seq<Byte>, b: seq<Byte>)
    requires AllSpace(line) && AllSpace(b)
    ensures EventsOfLines(parse, LinesFrom(line, b)) == []
    decreases |b|
  {
    assert EventOfLine(parse, line).None? by {
      if |line| >= 5 {
        assert line[..5][0] == line[0] && IsSpace(line[0]);
      }
    }
    hide EventOfLine;
    if b == [] {
      assert [line][1..] == [];
    } else if b[0] == LF {
      BlankLines(parse, [], b[1..]);
      var later := LinesFrom([], b[1..]);
      assert ([line] + later)[0] == line && ([line] + later)[1..] == later;
    } else {
      BlankLines(parse, line + [b[0]], b[1..]);
    }
  }

  /** Blank bytes hold no event. */
  lemma {:induction false} BlankHasNoEvents<E>(parse: Parser<E>, b: seq<Byte>)
    requires AllSpace(b)
    ensures EventsOf(parse, Split(b).frames) == []
    decreases |b|
  {
    if FirstCut(b).Cut? {
      var f, rest := FrameOf(b, FirstCut(b).index, FirstCut(b).length);
      assert AllSpace(f.body) by {
        forall k | 0 <= k < |f.body| ensures IsSpace(f.body[k]) {
          assert f.body[k] == b[k];
        }
      }
      assert AllSpace(rest) by {
        forall k | 0 <= k < |rest| ensures IsSpace(rest[k]) {
          assert rest[k] == b[|b| - |rest| + k];
        }
      }
      NormalizeKeepsSpace(f.body);
      BlankLines(parse, [], NormalizeNewlines(f.body));
      BlankHasNoEvents(parse, rest);
      hide Split, FirstCut, EventsOfFrame;
      EventsOfConcat(parse, [f], Split(rest).frames);
      EventsOfSingle(parse, f);
    }
  }

  /** All the events of a stream, an unterminated last one included. */
  function StreamEvents<E>(parse: Parser<E>, bytes: seq<Byte>): seq<E> {
    EventsOf(parse, Split(bytes + LF_LF).frames)
  }

  /** What the flush finds is what a delimiter at the end of the stream would have produced. */
  lemma FlushIsLastEvent<E>(parse: Parser<E>, bytes: seq<Byte>)
    ensures var tail := Split(bytes).tail;
            StreamEvents(parse, bytes)
            == EventsOf(parse, Split(bytes).frames)
               + if Strip(tail) == [] then [] else EventsOf(parse, Split(tail + LF_LF).frames)
  {
    var tail := Split(bytes).tail;
    SplitAppend(bytes, LF_LF);
    StripIsEmpty(tail);
    if Strip(tail) == [] {
      BlankHasNoEvents(parse, tail + LF_LF);
    }
    hide Split, Strip;
    EventsOfConcat(parse, Split(bytes).frames, Split(tail + LF_LF).frames);
  }

  /** The events `_translate_responses_stream` feeds to the translator: they depend on the bytes alone. */
  method TranslatedEvents<E>(parse: Parser<E>, chunks: seq<seq<Byte>>) returns (fed: seq<E>)
    ensures fed == StreamEvents(parse, Concat(chunks))
  {
    var buffer: seq<Byte> := [];
    fed := [];
    assert SplitChunks([], chunks[..0]) == Frames([], []);
    assert EventsOf(parse, []) == [];
    hide Split, SplitChunks, EventsOf, Strip, StreamEvents, Concat;
    for i := 0 to |chunks|
      invariant fed == EventsOf(parse, SplitChunks([], chunks[..i]).frames)
      invariant buffer == SplitChunks([], chunks[..i]).tail
    {
      assert chunks[..i + 1] == chunks[..i] + [chunks[i]];
      SplitChunksSnoc([], chunks[..i], chunks[i]);
      EventsOfConcat(parse, SplitChunks([], chunks[..i]).frames, Split(buffer + chunks[i]).frames);
      var events;
      events, buffer := ParseChatSseFrames(parse, buffer + chunks[i]);
      fed := fed + events;
    }
    assert chunks[..|chunks|] == chunks;
    ChunkingDoesNotMatter(chunks);
    FlushIsLastEvent(parse, Concat(chunks));
    if Strip(buffer) != [] {
      var events, _ := ParseChatSseFrames(parse, buffer + LF_LF);
      fed := fed + events;
    } else {
      assert fed + [] == fed;
    }
  }

  // ----- the usage scanner -----

  const MAX_BUFFER: nat := 65_536

  /** `self._buffer[-MAX_BUFFER:]` when the buffer is longer than that. */
  function Keep(b: seq<Byte>): seq<Byte> {
    if |b| > MAX_BUFFER then b[|b| - MAX_BUFFER..] else b
  }

  /** The frames the scanner sees, and its buffer. */
  function ScanChunks(buffer: seq<Byte>, chunks: seq<seq<Byte>>): Frames
    decreases |chunks|
  {
    if chunks == [] then Frames([], buffer)
    else
      var now := Split(buffer + chunks[0]);
      var later := ScanChunks(Keep(now.tail), chunks[1..]);
      Frames(now.frames + later.frames, later.tail)
  }

  /** No chunk completes an event of which more than the limit had arrived before it. */
  predicate NothingTrimmed(tail: seq<Byte>, chunks: seq<seq<Byte>>)
    decreases |chunks|
  {
    chunks == []
    || (var now := Split(tail + chunks[0]);
        (now.frames == [] || |tail| <= MAX_BUFFER) && NothingTrimmed(now.tail, chunks[1..]))
  }

  /** A frame as the scanner sees it: the end of the real one, all of it if it is not too long. */
  predicate SeenAs(actual: Frame, seen: Frame) {
    && seen.delimiter == actual.delimiter
    && |seen.body| <= |actual.body| && actual.body[|actual.body| - |seen.body|..] == seen.body
    && (|Wire(actual)| <= MAX_BUFFER + 1 ==> seen == actual)
  }

  ghost predicate AllSeenAs(actual: seq<Frame>, seen: seq<Frame>) {
    |actual| == |seen| && forall i | 0 <= i < |actual| :: SeenAs(actual[i], seen[i])
  }

  lemma KeepTwice(tail: seq<Byte>, chunk: seq<Byte>)
    ensures Keep(Keep(tail) + chunk) == Keep(tail + chunk)
  {
  }

  /** A frame that begins in a tail without a delimiter ends after it. */
  lemma CutEndsInChunk(tail: seq<Byte>, chunk: seq<Byte>)
    requires FirstCut(tail).NoCut? && FirstCut(tail + chunk).Cut?
    ensures var c := FirstCut(tail + chunk); |tail| < c.index + c.length
  {
    var c := FirstCut(tail + chunk);
    CutFromIsEarliest(tail, 0);
    DelimiterOfPrefix(tail, chunk, c.index);
    hide DelimiterAt;
    if c.index <= |tail| {
      assert DelimiterAt(tail, c.index) == 0;
    }
  }

  /** The first frame loses the d bytes cut off in front of it; the rest stays as it is. */
  lemma TrimmedFrame(b: seq<Byte>, d: nat, c: Cut)
    requires c.Cut? && c == FirstCut(b) && 0 < d && d + MAX_BUFFER < c.index + c.length
    ensures var actual, seen := Split(b), Split(b[d..]);
            && AllSeenAs(actual.frames, seen.frames) && seen.tail == actual.tail
            && actual.frames != [] && seen.frames != actual.frames
  {
    DropBeforeCut(b, d);
    var f, rest := FrameOf(b, c.index, c.length);
    var seen := Frame(f.body[d..], f.delimiter);
    assert b[d..] == Wire(seen) + rest;
    SplitOne(b[d..], seen, rest);
    assert SeenAs(f, seen);
    hide Split, FirstCut, SeenAs, Wire;
    AllSeenAsItself(Split(rest).frames);
    AllSeenAsCons(f, seen, Split(rest).frames);
  }

  lemma AllSeenAsItself(frames: seq<Frame>)
    ensures AllSeenAs(frames, frames)
  {
  }

  lemma AllSeenAsCons(f: Frame, seen: Frame, rest: seq<Frame>)
    requires SeenAs(f, seen) && AllSeenAs(rest, rest) && |seen.body| < |f.body|
    ensures AllSeenAs([f] + rest, [seen] + rest) && [f] + rest != [seen] + rest
  {
    hide SeenAs;
    assert ([f] + rest)[0] == f && ([seen] + rest)[0] == seen;
  }

  /** One chunk behind a trimmed tail: the cut points are the real ones, so only the first frame can be
      short, and it is short exactly when the tail had been trimmed. */
  lemma TrimmedStep(tail: seq<Byte>, chunk: seq<Byte>)
    requires FirstCut(tail).NoCut? && |tail| > MAX_BUFFER
    ensures var actual, seen := Split(tail + chunk), Split(Keep(tail) + chunk);
            && AllSeenAs(actual.frames, seen.frames)
            && Keep(seen.tail) == Keep(actual.tail)
            && (seen.frames == actual.frames <==> actual.frames == [])
  {
    var d := |tail| - MAX_BUFFER;
    var b := tail + chunk;
    assert Keep(tail) + chunk == b[d..];
    if FirstCut(b).Cut? {
      TrimmedFrame(b, d, FirstCut(b)) by {
        CutEndsInChunk(tail, chunk);
      }
    } else {
      DropBeforeCut(b, d);
      KeepTwice(tail, chunk);
      assert Split(b) == Frames([], b) && Split(b[d..]) == Frames([], b[d..]);
    }
  }

  lemma ScanStep(tail: seq<Byte>, chunk: seq<Byte>)
    requires FirstCut(tail).NoCut?
    ensures var actual, seen := Split(tail + chunk), Split(Keep(tail) + chunk);
            && AllSeenAs(actual.frames, seen.frames)
            && Keep(seen.tail) == Keep(actual.tail)
            && (seen.frames == actual.frames <==> actual.frames == [] || |tail| <= MAX_BUFFER)
  {
    if |tail| > MAX_BUFFER {
      TrimmedStep(tail, chunk);
    }
  }

  lemma AllSeenAsConcat(a: seq<Frame>, a': seq<Frame>, b: seq<Frame>, b': seq<Frame>)
    requires AllSeenAs(a, a') && AllSeenAs(b, b')
    ensures AllSeenAs(a + b, a' + b')
    ensures a + b == a' + b' <==> a == a' && b == b'
  {
    hide SeenAs;
    assert (a + b)[..|a|] == a && (a + b)[|a|..] == b && (a' + b')[..|a|] == a' && (a' + b')[|a|..] == b';
  }

  /** The scanner stays in step with the stream whatever the chunks and however long the events: its
      buffer is the last 64 KiB of the real tail, and it sees every event, whole unless the event is
      longer than the limit. It sees exactly the real frames if and only if nothing was trimmed. */
  lemma {:induction false} ScannerStaysInStep(tail: seq<Byte>, chunks: seq<seq<Byte>>)
    requires FirstCut(tail).NoCut?
    ensures var actual, seen := SplitChunks(tail, chunks), ScanChunks(Keep(tail), chunks);
            && AllSeenAs(actual.frames, seen.frames)
            && seen.tail == Keep(actual.tail)
            && (seen.frames == actual.frames <==> NothingTrimmed(tail, chunks))
    decreases |chunks|
  {
    if chunks != [] {
      ScanStep(tail, chunks[0]);
      SplitConserves(tail + chunks[0]);
      var actual, seen := Split(tail + chunks[0]), Split(Keep(tail) + chunks[0]);
      hide Split, Keep, FirstCut, AllSeenAs;
      ScannerStaysInStep(actual.tail, chunks[1..]);
      var laterReal, laterSeen := SplitChunks(actual.tail, chunks[1..]), ScanChunks(Keep(actual.tail), chunks[1..]);
      AllSeenAsConcat(actual.frames, seen.frames, laterReal.frames, laterSeen.frames);
    }
  }

  /** The last usage among some events, or the one known before. */
  function LastUsage<E, U>(usageOf: E -> Option<U>, before: Option<U>, events: seq<E>): Option<U>
    decreases |events|
  {
    if events == [] then before
    else LastUsage(usageOf, if usageOf(events[0]).Some? then usageOf(events[0]) else before, events[1..])
  }

  lemma {:induction false} LastUsageConcat<E, U>(usageOf: E -> Option<U>, before: Option<U>, a: seq<E>, b: seq<E>)
    ensures LastUsage(usageOf, before, a + b) == LastUsage(usageOf, LastUsage(usageOf, before, a), b)
    decreases |a|
  {
    if a == [] {
      assert a + b == b;
    } else {
      assert (a + b)[1..] == a[1..] + b;
      LastUsageConcat(usageOf, if usageOf(a[0]).Some? then usageOf(a[0]) else before, a[1..], b);
    }
  }

  class UsageScanner<!E, U> {
    var buffer: seq<Byte>
    var usage: Option<U>

    constructor ()
      ensures buffer == [] && usage == None
    {
      buffer, usage := [], None;
    }

    /** One chunk: every event it completes is read, then the buffer is cut to its last 64 KiB. */
    method Feed(parse: Parser<E>, usageOf: E -> Option<U>, chunk: seq<Byte>)
      modifies this
      ensures var now := Split(old(buffer) + chunk);
              buffer == Keep(now.tail) && usage == LastUsage(usageOf, old(usage), EventsOf(parse, now.frames))
    {
      buffer := buffer + chunk;
      ghost var whole := buffer;
      ghost var done: seq<Frame> := [];
      assert [] + Split(buffer).frames == Split(buffer).frames;
      assert EventsOf(parse, done) == [];
      assert LastUsage(usageOf, old(usage), []) == old(usage);
      hide Split, EventsOfFrame, EventsOf, LastUsage, FirstCut;
      while true
        invariant Split(whole) == Frames(done + Split(buffer).frames, Split(buffer).tail)
        invariant usage == LastUsage(usageOf, old(usage), EventsOf(parse, done))
        decreases |buffer|
      {
        var cut := FirstDelimiter(buffer);
        if cut.NoCut? {
          LoopEnd(whole, done, buffer);
          break;
        }
        var f, rest := TakeFrame(buffer, cut);
        LoopStep(whole, done, buffer, f, rest);
        EventsOfConcat(parse, done, [f]);
        EventsOfSingle(parse, f);
        LastUsageConcat(usageOf, old(usage), EventsOf(parse, done), EventsOfFrame(parse, f));
        done := done + [f];
        buffer := rest;
        ReadUsage(parse, usageOf, f);
      }
      if |buffer| > MAX_BUFFER {
        buffer := buffer[|buffer| - MAX_BUFFER..];
      }
    }

    method ReadUsage(parse: Parser<E>, usageOf: E -> Option<U>, f: Frame)
      modifies `usage
      ensures usage == LastUsage(usageOf, old(usage), EventsOfFrame(parse, f))
    {
      var events := ParseFrame(parse, f);
      ghost var before := usage;
      for i := 0 to |events|
        invariant LastUsage(usageOf, before, events) == LastUsage(usageOf, usage, events[i..])
      {
        var found := usageOf(events[i]);
        if found.Some? {
          usage := found;
        }
      }
    }
  }

  lemma NothingRead<E, U>(parse: Parser<E>, usageOf: E -> Option<U>)
    ensures ScanChunks([], []) == Frames([], []) && LastUsage(usageOf, None, EventsOf(parse, [])) == None
  {
  }

  /** Reading a whole stream. */
  method ScanStream<E, U>(parse: Parser<E>, usageOf: E -> Option<U>, chunks: seq<seq<Byte>>) returns (usage: Option<U>)
    ensures usage == LastUsage(usageOf, None, EventsOf(parse, ScanChunks([], chunks).frames))
  {
    hide Split, EventsOf, LastUsage, ScanChunks, Keep;
    var scanner := new UsageScanner();
    assert chunks[..0] == [];
    NothingRead(parse, usageOf);
    for i := 0 to |chunks|
      invariant scanner.buffer == ScanChunks([], chunks[..i]).tail
      invariant scanner.usage == LastUsage(usageOf, None, EventsOf(parse, ScanChunks([], chunks[..i]).frames))
    {
      assert chunks[..i + 1] == chunks[..i] + [chunks[i]];
      ghost var before := ScanChunks([], chunks[..i]);
      ghost var now := Split(before.tail + chunks[i]);
      ScanChunksSnoc([], chunks[..i], chunks[i]);
      EventsOfConcat(parse, before.frames, now.frames);
      LastUsageConcat(usageOf, None, EventsOf(parse, before.frames), EventsOf(parse, now.frames));
      scanner.Feed(parse, usageOf, chunks[i]);
    }
    assert chunks[..|chunks|] == chunks;
    usage := scanner.usage;
  }

  lemma {:induction false} ScanChunksSnoc(tail: seq<Byte>, chunks: seq<seq<Byte>>, c: seq<Byte>)
    ensures var before := ScanChunks(tail, chunks);
            var now := Split(before.tail + c);
            ScanChunks(tail, chunks + [c]) == Frames(before.frames + now.frames, Keep(now.tail))
    decreases |chunks|
  {
    hide Split, Keep;
    if chunks == [] {
      assert [c][1..] == [];
      var now := Split(tail + c);
      assert ScanChunks(Keep(now.tail), []) == Frames([], Keep(now.tail));
      assert chunks + [c] == [c];
      assert now.frames + [] == now.frames && [] + now.frames == now.frames;
    } else {
      var now := Split(tail + chunks[0]);
      assert (chunks + [c])[1..] == chunks[1..] + [c];
      ScanChunksSnoc(Keep(now.tail), chunks[1..], c);
      var middle := ScanChunks(Keep(now.tail), chunks[1..]);
      ConcatAssociative(now.frames, middle.frames, Split(middle.tail + c).frames);
    }
  }

  /** The usage recorded is the last one among the stream's events whenever nothing was trimmed. */
  lemma ScannedUsageIsLastUsage<E, U>(parse: Parser<E>, usageOf: E -> Option<U>, chunks: seq<seq<Byte>>)
    requires NothingTrimmed([], chunks)
    ensures LastUsage(usageOf, None, EventsOf(parse, ScanChunks([], chunks).frames))
         == LastUsage(usageOf, None, EventsOf(parse, Split(Concat(chunks)).frames))
  {
    CutFromIsNone([], 0);
    ScannerStaysInStep([], chunks);
    ChunkingDoesNotMatter(chunks);
  }

  /** Events within the limit are never trimmed, whatever the chunks they arrive in. */
  lemma ShortEventsAreNeverTrimmed(chunks: seq<seq<Byte>>)
    requires forall i | 0 <= i < |Split(Concat(chunks)).frames| ::
               |Wire(Split(Concat(chunks)).frames[i])| <= MAX_BUFFER + 1
    ensures NothingTrimmed([], chunks)
  {
    CutFromIsNone([], 0);
    ScannerStaysInStep([], chunks);
    ChunkingDoesNotMatter(chunks);
    hide Split, SplitChunks, ScanChunks, NothingTrimmed;
    var actual, seen := Split(Concat(chunks)).frames, ScanChunks(Keep([]), chunks).frames;
    assert forall i | 0 <= i < |actual| :: SeenAs(actual[i], seen[i]);
    assert seen == actual;
  }
}
