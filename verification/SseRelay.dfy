/** The gateway's streaming relay: upstream chunks go out one whole event at a time, with keepalive
    comments while the upstream is silent. */
module SseRelay {
  import opened Basics
  import opened Utf8
  import opened Sse

  /** What ends a wait: the heartbeat timer, or the next upstream chunk. */
  datatype Wakeup = Timer | Chunk(bytes: seq<Byte>)

  /** What the relay yields. */
  datatype Yield = KeepAlive | Event(frame: Frame)

  /** The comment line ": keepalive", delimited. */
  const KEEP_ALIVE_FRAME: Frame := Frame([58, 32, 107, 101, 101, 112, 97, 108, 105, 118, 101], LF_LF)

  function YieldedFrame(y: Yield): Frame {
    if y.KeepAlive? then KEEP_ALIVE_FRAME else y.frame
  }

  /** The yields as one client sees them: comment frames included. */
  function AllFrames(out: seq<Yield>): seq<Frame> {
    if out == [] then [] else [YieldedFrame(out[0])] + AllFrames(out[1..])
  }

  /** The yields without the keepalives. */
  function EventFrames(out: seq<Yield>): seq<Frame> {
    if out == [] then []
    else (if out[0].Event? then [out[0].frame] else []) + EventFrames(out[1..])
  }

  function ChunksOf(wakeups: seq<Wakeup>): seq<seq<Byte>> {
    if wakeups == [] then []
    else (if wakeups[0].Chunk? then [wakeups[0].bytes] else []) + ChunksOf(wakeups[1..])
  }

  /** The upstream bytes that have arrived. */
  function Upstream(wakeups: seq<Wakeup>): seq<Byte> {
    Concat(ChunksOf(wakeups))
  }

  // ----- sequences growing at the end -----

  lemma {:induction false} EventFramesSnoc(out: seq<Yield>, y: Yield)
    ensures EventFrames(out + [y]) == EventFrames(out) + if y.Event? then [y.frame] else []
  {
    if out == [] {
      assert out + [y] == [y] && [y][1..] == [];
    } else {
      assert (out + [y])[0] == out[0] && (out + [y])[1..] == out[1..] + [y];
      EventFramesSnoc(out[1..], y);
    }
  }

  lemma {:induction false} ChunksOfSnoc(wakeups: seq<Wakeup>, w: Wakeup)
    ensures ChunksOf(wakeups + [w]) == ChunksOf(wakeups) + if w.Chunk? then [w.bytes] else []
  {
    if wakeups == [] {
      assert wakeups + [w] == [w] && [w][1..] == [];
    } else {
      assert (wakeups + [w])[0] == wakeups[0] && (wakeups + [w])[1..] == wakeups[1..] + [w];
      ChunksOfSnoc(wakeups[1..], w);
    }
  }

  lemma UpstreamSnoc(wakeups: seq<Wakeup>, w: Wakeup)
    ensures Upstream(wakeups + [w]) == Upstream(wakeups) + if w.Chunk? then w.bytes else []
  {
    ChunksOfSnoc(wakeups, w);
    hide ChunksOf, Concat;
    if w.Chunk? {
      ConcatMore(ChunksOf(wakeups), w.bytes);
    } else {
      assert ChunksOf(wakeups) + [] == ChunksOf(wakeups);
    }
  }

  // ----- what is held back at an event boundary -----

  function LastFour(b: seq<Byte>): seq<Byte> {
    if |b| <= 4 then b else b[|b| - 4..]
  }

  predicate EndsWith(b: seq<Byte>, suffix: seq<Byte>) {
    |suffix| <= |b| && b[|b| - |suffix|..] == suffix
  }

  predicate EndsWithDelimiter(b: seq<Byte>) {
    EndsWith(b, LF_LF) || EndsWith(b, CRLF_CRLF)
  }

  lemma LastFourAppend(b: seq<Byte>, chunk: seq<Byte>)
    ensures LastFour(LastFour(b) + chunk) == LastFour(b + chunk)
  {
  }

  lemma LastFourIsEnough(b: seq<Byte>)
    ensures EndsWithDelimiter(LastFour(b)) <==> EndsWithDelimiter(b)
  {
    if |b| > 4 {
      assert b[|b| - 2..] == LastFour(b)[2..];
    }
  }

  lemma NoDelimiterAtEnd(tail: seq<Byte>)
    requires FirstCut(tail).NoCut?
    ensures |tail| >= 2 ==> !(tail[|tail| - 2] == LF && tail[|tail| - 1] == LF)
    ensures |tail| >= 4 ==> !(tail[|tail| - 4] == CR && tail[|tail| - 3] == LF && tail[|tail| - 2] == CR
                              && tail[|tail| - 1] == LF)
  {
    CutFromIsEarliest(tail, 0);
    hide CutFrom;
    assert |tail| >= 2 ==> DelimiterAt(tail, |tail| - 2) == 0;
    assert |tail| >= 4 ==> DelimiterAt(tail, |tail| - 4) == 0;
  }

  /** The last bytes of a stream, after its last delimiter: at most a line break if the stream ends with
      a delimiter that overlaps the one before it. */
  lemma OnlyALineBreakIsHeldBack(before: seq<Byte>, tail: seq<Byte>)
    requires FirstCut(tail).NoCut?
    requires before == [] || before[|before| - 1] == LF
    requires EndsWithDelimiter(before + tail)
    ensures tail == [] || tail == [LF] || tail == [CR, LF]
  {
    var b, n := before + tail, |before|;
    NoDelimiterAtEnd(tail);
    hide CutFrom, DelimiterAt;
    if EndsWith(b, LF_LF) {
      assert b[|b| - 2..][0] == b[|b| - 2] == LF && b[|b| - 2..][1] == b[|b| - 1] == LF;
      assert |tail| == 1 ==> tail[0] == b[n];
    } else {
      var e := b[|b| - 4..];
      assert e[0] == b[|b| - 4] == CR && e[1] == b[|b| - 3] == LF && e[2] == b[|b| - 2] == CR && e[3] == b[|b| - 1] == LF;
      assert n > 0 ==> b[n - 1] == LF;
    }
  }

  lemma {:induction false} JoinEndsWithLf(frames: seq<Frame>)
    requires AllWhole(frames)
    ensures Join(frames) == [] || Join(frames)[|Join(frames)| - 1] == LF
    ensures frames != [] ==> Join(frames) != []
  {
    if frames != [] {
      var f, rest := frames[0], frames[1..];
      assert AllWhole(rest) && Whole(f);
      JoinEndsWithLf(rest);
      assert DelimiterAt(Wire(f), |f.body|) == |f.delimiter| > 0;
      assert Wire(f)[|Wire(f)| - 1] == LF;
      hide Wire, FirstCut;
      if rest != [] {
        assert Join(frames)[|Join(frames)| - 1] == Join(rest)[|Join(rest)| - 1];
      } else {
        assert Join(frames) == Wire(f) + Join([]) == Wire(f);
      }
    }
  }

  /** When the bytes read so far end with a delimiter, no part of an event is held back. */
  lemma BoundaryHoldsNothingBack(upstream: seq<Byte>)
    requires EndsWithDelimiter(upstream)
    ensures var tail := Split(upstream).tail; tail == [] || tail == [LF] || tail == [CR, LF]
  {
    SplitConserves(upstream);
    SplitFramesAreWhole(upstream);
    JoinEndsWithLf(Split(upstream).frames);
    OnlyALineBreakIsHeldBack(Join(Split(upstream).frames), Split(upstream).tail);
  }

  // ----- the relay -----

  /** `at_event_boundary`: nothing has arrived yet, or what has arrived ends with a delimiter. */
  predicate AtBoundary(wakeups: seq<Wakeup>) {
    ChunksOf(wakeups) == [] || EndsWithDelimiter(Upstream(wakeups))
  }

  function AsEvents(frames: seq<Frame>): seq<Yield> {
    seq(|frames|, i requires 0 <= i < |frames| => Event(frames[i]))
  }

  /** What the relay sends at one wakeup, after the earlier ones. */
  function SentAt(before: seq<Wakeup>, w: Wakeup): seq<Yield> {
    match w
    case Timer => if AtBoundary(before) then [KeepAlive] else []
    case Chunk(bytes) => AsEvents(Split(Split(Upstream(before)).tail + bytes).frames)
  }

  /** Everything the relay sends. */
  function Sent(wakeups: seq<Wakeup>): seq<Yield>
    decreases |wakeups|
  {
    if wakeups == [] then []
    else
      var n := |wakeups| - 1;
      Sent(wakeups[..n]) + SentAt(wakeups[..n], wakeups[n])
  }

  lemma SentSnoc(before: seq<Wakeup>, w: Wakeup)
    ensures Sent(before + [w]) == Sent(before) + SentAt(before, w)
  {
    assert (before + [w])[..|before|] == before;
  }

  lemma {:induction false} EventFramesConcat(a: seq<Yield>, b: seq<Yield>)
    ensures EventFrames(a + b) == EventFrames(a) + EventFrames(b)
  {
    if a == [] {
      assert a + b == b;
    } else {
      assert (a + b)[0] == a[0] && (a + b)[1..] == a[1..] + b;
      EventFramesConcat(a[1..], b);
    }
  }

  lemma {:induction false} AllFramesConcat(a: seq<Yield>, b: seq<Yield>)
    ensures AllFrames(a + b) == AllFrames(a) + AllFrames(b)
  {
    if a == [] {
      assert a + b == b;
    } else {
      assert (a + b)[0] == a[0] && (a + b)[1..] == a[1..] + b;
      AllFramesConcat(a[1..], b);
    }
  }

  lemma {:induction false} FramesOfEvents(frames: seq<Frame>)
    ensures EventFrames(AsEvents(frames)) == frames && AllFrames(AsEvents(frames)) == frames
  {
    if frames != [] {
      assert AsEvents(frames)[0] == Event(frames[0]) && AsEvents(frames)[1..] == AsEvents(frames[1..]);
      FramesOfEvents(frames[1..]);
      assert [frames[0]] + frames[1..] == frames;
    }
  }

  /** Without the keepalives the client gets the upstream's events, up to the last delimiter. */
  lemma {:induction false} SentEventsAreUpstreams(wakeups: seq<Wakeup>)
    ensures EventFrames(Sent(wakeups)) == Split(Upstream(wakeups)).frames
    ensures Join(EventFrames(Sent(wakeups))) + Split(Upstream(wakeups)).tail == Upstream(wakeups)
    decreases |wakeups|
  {
    SplitConserves(Upstream(wakeups));
    if wakeups == [] {
      CutFromIsNone([], 0);
    } else {
      var n := |wakeups| - 1;
      var before, w := wakeups[..n], wakeups[n];
      assert before + [w] == wakeups;
      SentEventsAreUpstreams(before);
      UpstreamSnoc(before, w);
      hide Split, Upstream, AtBoundary, EventFrames, AsEvents;
      EventFramesConcat(Sent(before), SentAt(before, w));
      match w {
        case Timer =>
          assert Upstream(before) + [] == Upstream(before);
          KeepAlivesAreNotEvents(SentAt(before, w));
          assert EventFrames(Sent(before)) + [] == EventFrames(Sent(before));
        case Chunk(bytes) =>
          FramesOfEvents(Split(Split(Upstream(before)).tail + bytes).frames);
          SplitAppend(Upstream(before), bytes);
      }
    }
  }

  lemma KeepAlivesAreNotEvents(out: seq<Yield>)
    requires out == [] || out == [KeepAlive]
    ensures EventFrames(out) == []
    ensures AllFrames(out) == [] || AllFrames(out) == [KEEP_ALIVE_FRAME]
  {
  }

  lemma KeepAliveIsWhole()
    ensures Whole(KEEP_ALIVE_FRAME)
  {
    CutFromIs(Wire(KEEP_ALIVE_FRAME), 0, 11);
  }

  /** A single line that does not begin with the d of "data:". */
  lemma CommentHasNoEvents<E>(parse: Parser<E>, f: Frame)
    requires CR !in f.body && LF !in f.body && f.body != [] && f.body[0] != DATA_PREFIX[0]
    ensures EventsOfFrame(parse, f) == []
  {
    var body := f.body;
    NormalizeKeepsLine(body);
    OneLine([], body);
    assert [] + body == body;
    var lines: seq<seq<Byte>> := [body];
    assert lines[1..] == [];
    assert EventOfLine(parse, body).None? by {
      if |body| >= 5 {
        assert body[..5][0] == body[0];
      }
    }
    hide EventOfLine;
    assert EventsOfLines(parse, lines[1..]) == [];
    assert EventsOfLines(parse, lines) == [];
  }

  lemma KeepAliveHasNoEvents<E>(parse: Parser<E>)
    ensures EventsOfFrame(parse, KEEP_ALIVE_FRAME) == []
  {
    hide EventsOfFrame;
    CommentHasNoEvents(parse, KEEP_ALIVE_FRAME);
  }

  lemma {:induction false} NormalizeKeepsLine(b: seq<Byte>)
    requires CR !in b
    ensures NormalizeNewlines(b) == b
  {
    if b != [] {
      NormalizeKeepsLine(b[1..]);
    }
  }

  lemma {:induction false} OneLine(line: seq<Byte>, b: seq<Byte>)
    requires LF !in b
    ensures LinesFrom(line, b) == [line + b]
    decreases |b|
  {
    if b == [] {
      assert line + b == line;
    } else {
      OneLine(line + [b[0]], b[1..]);
      assert line + [b[0]] + b[1..] == line + b;
    }
  }

  lemma {:induction false} SentIsWhole(wakeups: seq<Wakeup>)
    ensures AllWhole(AllFrames(Sent(wakeups)))
    decreases |wakeups|
  {
    if wakeups != [] {
      var n := |wakeups| - 1;
      var before, w := wakeups[..n], wakeups[n];
      SentIsWhole(before);
      hide Split, Upstream, AtBoundary, Whole, AsEvents, AllFrames;
      AllFramesConcat(Sent(before), SentAt(before, w));
      match w {
        case Timer =>
          KeepAlivesAreNotEvents(SentAt(before, w));
          KeepAliveIsWhole();
        case Chunk(bytes) =>
          var b := Split(Upstream(before)).tail + bytes;
          FramesOfEvents(Split(b).frames);
          SplitFramesAreWhole(b);
      }
    }
  }

  /** Splitting the client's bytes, keepalives left in, gives exactly the frames that were sent: a
      keepalive never ends up inside an event. */
  lemma ClientSeesTheSameFrames(wakeups: seq<Wakeup>)
    ensures Split(Join(AllFrames(Sent(wakeups)))) == Frames(AllFrames(Sent(wakeups)), [])
  {
    SentIsWhole(wakeups);
    SplitOfJoin(AllFrames(Sent(wakeups)));
  }

  lemma {:induction false} KeepAlivesAddNoEvents<E>(parse: Parser<E>, out: seq<Yield>)
    ensures EventsOf(parse, AllFrames(out)) == EventsOf(parse, EventFrames(out))
  {
    if out != [] {
      KeepAlivesAddNoEvents(parse, out[1..]);
      KeepAliveHasNoEvents(parse);
      hide EventsOfFrame;
      var rest, f := AllFrames(out[1..]), YieldedFrame(out[0]);
      assert ([f] + rest)[0] == f && ([f] + rest)[1..] == rest;
      if out[0].Event? {
        var events := EventFrames(out[1..]);
        assert ([f] + events)[0] == f && ([f] + events)[1..] == events;
      } else {
        assert [] + EventsOf(parse, rest) == EventsOf(parse, rest);
        assert EventFrames(out) == EventFrames(out[1..]);
      }
    }
  }

  /** A client that parses what it receives gets the events of the upstream's complete frames. */
  lemma ClientGetsUpstreamEvents<E>(parse: Parser<E>, wakeups: seq<Wakeup>)
    ensures EventsOf(parse, Split(Join(AllFrames(Sent(wakeups)))).frames)
         == EventsOf(parse, Split(Upstream(wakeups)).frames)
  {
    ClientSeesTheSameFrames(wakeups);
    SentEventsAreUpstreams(wakeups);
    KeepAlivesAddNoEvents(parse, Sent(wakeups));
  }

  /** A keepalive goes out only when the relay holds back no part of an event. */
  lemma KeepAliveOnlyBetweenEvents(before: seq<Wakeup>)
    requires SentAt(before, Timer) != []
    ensures var pending := Split(Upstream(before)).tail; pending == [] || pending == [LF] || pending == [CR, LF]
  {
    if ChunksOf(before) == [] {
      CutFromIsNone([], 0);
    } else {
      BoundaryHoldsNothingBack(Upstream(before));
    }
  }

  lemma WholeEndsWithDelimiter(f: Frame)
    requires Whole(f)
    ensures EndsWithDelimiter(Wire(f))
  {
    var b, i := Wire(f), |f.body|;
    if |f.delimiter| == 2 {
      assert b[|b| - 2..] == [b[i], b[i + 1]] == LF_LF;
    } else {
      assert b[|b| - 4..] == [b[i], b[i + 1], b[i + 2], b[i + 3]] == CRLF_CRLF;
    }
  }

  lemma EndsWithLonger(a: seq<Byte>, b: seq<Byte>)
    requires EndsWithDelimiter(b)
    ensures EndsWithDelimiter(a + b)
  {
    assert |b| >= 2 ==> (a + b)[|a + b| - 2..] == b[|b| - 2..];
    assert |b| >= 4 ==> (a + b)[|a + b| - 4..] == b[|b| - 4..];
  }

  lemma {:induction false} JoinEndsWithDelimiter(frames: seq<Frame>)
    requires AllWhole(frames) && frames != []
    ensures EndsWithDelimiter(Join(frames))
  {
    hide EndsWithDelimiter, Whole;
    WholeEndsWithDelimiter(frames[0]);
    if |frames| == 1 {
      assert Join(frames) == Wire(frames[0]) + Join([]) == Wire(frames[0]);
    } else {
      assert AllWhole(frames[1..]);
      JoinEndsWithDelimiter(frames[1..]);
      EndsWithLonger(Wire(frames[0]), Join(frames[1..]));
    }
  }

  /** And whenever nothing is held back it does: before the first chunk, and after whole events. */
  lemma KeepAliveWhenNothingIsHeldBack(before: seq<Wakeup>)
    requires ChunksOf(before) == [] || (Upstream(before) != [] && Split(Upstream(before)).tail == [])
    ensures SentAt(before, Timer) == [KeepAlive]
  {
    var upstream := Upstream(before);
    SplitConserves(upstream);
    SplitFramesAreWhole(upstream);
    hide Split, EndsWithDelimiter, Whole, ChunksOf;
    var frames := Split(upstream).frames;
    if frames != [] && Split(upstream).tail == [] {
      JoinEndsWithDelimiter(frames);
      assert Join(frames) + [] == Join(frames);
    }
  }

  /** The usage among the events sent, as the relay records it. */
  function SentUsage<E, U>(parse: Parser<E>, usageOf: E -> Option<U>, out: seq<Yield>): Option<U> {
    LastUsage(usageOf, None, EventsOf(parse, EventFrames(out)))
  }

  lemma SentUsageSnoc<E, U>(parse: Parser<E>, usageOf: E -> Option<U>, out: seq<Yield>, f: Frame)
    ensures SentUsage(parse, usageOf, out + [Event(f)])
         == LastUsage(usageOf, SentUsage(parse, usageOf, out), EventsOfFrame(parse, f))
  {
    EventFramesSnoc(out, Event(f));
    hide EventsOf, EventsOfFrame, LastUsage;
    EventsOfConcat(parse, EventFrames(out), [f]);
    EventsOfSingle(parse, f);
    LastUsageConcat(usageOf, None, EventsOf(parse, EventFrames(out)), EventsOfFrame(parse, f));
  }

  lemma AsEventsSnoc(out: seq<Yield>, done: seq<Frame>, f: Frame)
    ensures out + AsEvents(done) + [Event(f)] == out + AsEvents(done + [f])
  {
  }

  /** The splitting loop for one upstream chunk. */
  method RelayChunk<E, U>(parse: Parser<E>, usageOf: E -> Option<U>, out0: seq<Yield>, input: seq<Byte>,
                          usage0: Option<U>)
    returns (out: seq<Yield>, pending: seq<Byte>, usage: Option<U>)
    requires usage0 == SentUsage(parse, usageOf, out0)
    ensures out == out0 + AsEvents(Split(input).frames) && pending == Split(input).tail
    ensures usage == SentUsage(parse, usageOf, out)
  {
    out, pending, usage := out0, input, usage0;
    ghost var done: seq<Frame> := [];
    assert [] + Split(input).frames == Split(input).frames;
    assert out0 + AsEvents([]) == out0;
    hide Split, SentUsage, FirstCut, EventsOfFrame, LastUsage, AsEvents;
    while true
      invariant Split(input) == Frames(done + Split(pending).frames, Split(pending).tail)
      invariant out == out0 + AsEvents(done)
      invariant usage == SentUsage(parse, usageOf, out)
      decreases |pending|
    {
      var cut := FirstDelimiter(pending);
      if cut.NoCut? {
        LoopEnd(input, done, pending);
        break;
      }
      var f, rest := TakeFrame(pending, cut);
      LoopStep(input, done, pending, f, rest);
      pending := rest;
      var events := ParseFrame(parse, f);
      usage := LatestUsage(usageOf, usage, events);
      SentUsageSnoc(parse, usageOf, out, f);
      AsEventsSnoc(out0, done, f);
      done := done + [f];
      out := out + [Event(f)];
    }
  }

  method LatestUsage<E, U>(usageOf: E -> Option<U>, before: Option<U>, events: seq<E>) returns (usage: Option<U>)
    ensures usage == LastUsage(usageOf, before, events)
  {
    usage := before;
    for i := 0 to |events|
      invariant LastUsage(usageOf, before, events) == LastUsage(usageOf, usage, events[i..])
    {
      var found := usageOf(events[i]);
      if found.Some? {
        usage := found;
      }
    }
  }

  lemma UsageIsUpstreams<E, U>(parse: Parser<E>, usageOf: E -> Option<U>, wakeups: seq<Wakeup>)
    ensures SentUsage(parse, usageOf, Sent(wakeups))
         == LastUsage(usageOf, None, EventsOf(parse, Split(Upstream(wakeups)).frames))
  {
    SentEventsAreUpstreams(wakeups);
  }

  lemma KeepAliveAddsNoUsage<E, U>(parse: Parser<E>, usageOf: E -> Option<U>, out: seq<Yield>)
    ensures SentUsage(parse, usageOf, out + [KeepAlive]) == SentUsage(parse, usageOf, out)
  {
    EventFramesSnoc(out, KeepAlive);
    assert EventFrames(out) + [] == EventFrames(out);
  }

  lemma LastFourOf(before: seq<Wakeup>, chunk: seq<Byte>)
    ensures LastFour(LastFour(Upstream(before)) + chunk) == LastFour(Upstream(before) + chunk)
    ensures EndsWithDelimiter(LastFour(Upstream(before) + chunk)) <==> EndsWithDelimiter(Upstream(before) + chunk)
  {
    hide LastFour, EndsWithDelimiter;
    LastFourAppend(Upstream(before), chunk);
    LastFourIsEnough(Upstream(before) + chunk);
  }

  lemma AfterWakeup(before: seq<Wakeup>, w: Wakeup)
    ensures w.Timer? ==>
              && Upstream(before + [w]) == Upstream(before)
              && (AtBoundary(before + [w]) <==> AtBoundary(before))
              && SentAt(before, w) == if AtBoundary(before) then [KeepAlive] else []
    ensures w.Chunk? ==>
              && Upstream(before + [w]) == Upstream(before) + w.bytes
              && (AtBoundary(before + [w]) <==> EndsWithDelimiter(Upstream(before) + w.bytes))
              && Split(Upstream(before + [w])).tail == Split(Split(Upstream(before)).tail + w.bytes).tail
              && SentAt(before, w) == AsEvents(Split(Split(Upstream(before)).tail + w.bytes).frames)
  {
    UpstreamSnoc(before, w);
    ChunksOfSnoc(before, w);
    hide Split, EndsWithDelimiter, ChunksOf;
    if w.Timer? {
      assert Upstream(before) + [] == Upstream(before);
      assert ChunksOf(before) + [] == ChunksOf(before);
    } else {
      SplitAppend(Upstream(before), w.bytes);
    }
  }

  /** The relay's variables after some wakeups. */
  ghost predicate RelayState<E, U>(parse: Parser<E>, usageOf: E -> Option<U>, wakeups: seq<Wakeup>, out: seq<Yield>,
                                   pending: seq<Byte>, streamTail: seq<Byte>, atEventBoundary: bool, usage: Option<U>) {
    && out == Sent(wakeups)
    && pending == Split(Upstream(wakeups)).tail
    && streamTail == LastFour(Upstream(wakeups))
    && (atEventBoundary <==> AtBoundary(wakeups))
    && usage == SentUsage(parse, usageOf, out)
  }

  lemma NothingSent<E, U>(parse: Parser<E>, usageOf: E -> Option<U>)
    ensures RelayState(parse, usageOf, [], [], [], [], true, None)
  {
    CutFromIsNone([], 0);
  }

  lemma AfterTimer<E, U>(parse: Parser<E>, usageOf: E -> Option<U>, before: seq<Wakeup>, out: seq<Yield>,
                         pending: seq<Byte>, streamTail: seq<Byte>, atEventBoundary: bool, usage: Option<U>)
    requires RelayState(parse, usageOf, before, out, pending, streamTail, atEventBoundary, usage)
    ensures RelayState(parse, usageOf, before + [Timer], if atEventBoundary then out + [KeepAlive] else out, pending,
                       streamTail, atEventBoundary, usage)
  {
    hide SentUsage, Split, Upstream, AtBoundary, LastFour, Sent, SentAt;
    AfterWakeup(before, Timer);
    SentSnoc(before, Timer);
    assert out + [] == out;
    KeepAliveAddsNoUsage(parse, usageOf, out);
  }

  lemma AfterChunk<E, U>(parse: Parser<E>, usageOf: E -> Option<U>, before: seq<Wakeup>, chunk: seq<Byte>,
                         out: seq<Yield>, pending: seq<Byte>, streamTail: seq<Byte>, atEventBoundary: bool,
                         usage: Option<U>, usage': Option<U>)
    requires RelayState(parse, usageOf, before, out, pending, streamTail, atEventBoundary, usage)
    requires usage' == SentUsage(parse, usageOf, out + AsEvents(Split(pending + chunk).frames))
    ensures RelayState(parse, usageOf, before + [Chunk(chunk)], out + AsEvents(Split(pending + chunk).frames),
                       Split(pending + chunk).tail, LastFour(streamTail + chunk),
                       EndsWithDelimiter(LastFour(streamTail + chunk)), usage')
  {
    hide SentUsage, Split, Upstream, AtBoundary, LastFour, Sent, SentAt, EndsWithDelimiter, AsEvents;
    AfterWakeup(before, Chunk(chunk));
    SentSnoc(before, Chunk(chunk));
    LastFourOf(before, chunk);
  }

  /** One turn of the relay's loop. */
  method OnWakeup<E, U>(parse: Parser<E>, usageOf: E -> Option<U>, ghost before: seq<Wakeup>, w: Wakeup, out0: seq<Yield>,
                        pending0: seq<Byte>, streamTail0: seq<Byte>, atEventBoundary0: bool, usage0: Option<U>)
    returns (out: seq<Yield>, pending: seq<Byte>, streamTail: seq<Byte>, atEventBoundary: bool, usage: Option<U>)
    requires RelayState(parse, usageOf, before, out0, pending0, streamTail0, atEventBoundary0, usage0)
    ensures RelayState(parse, usageOf, before + [w], out, pending, streamTail, atEventBoundary, usage)
  {
    hide *;
    out, pending, streamTail, atEventBoundary, usage := out0, pending0, streamTail0, atEventBoundary0, usage0;
    match w {
      case Timer =>
        AfterTimer(parse, usageOf, before, out, pending, streamTail, atEventBoundary, usage);
        if atEventBoundary {
          out := out + [KeepAlive];
        }
      case Chunk(chunk) =>
        UsageOfState(parse, usageOf, before, out, pending, streamTail, atEventBoundary, usage);
        out, pending, usage := RelayChunk(parse, usageOf, out, pending + chunk, usage);
        AfterChunk(parse, usageOf, before, chunk, out0, pending0, streamTail, atEventBoundary, usage0, usage);
        streamTail := LastFour(streamTail + chunk);
        atEventBoundary := EndsWithDelimiter(streamTail);
    }
  }

  /** `stream_body`, for one interleaving of upstream chunks and timer firings that ends with the stream. */
  method StreamBody<E, U>(parse: Parser<E>, usageOf: E -> Option<U>, wakeups: seq<Wakeup>)
    returns (out: seq<Yield>, usage: Option<U>)
    ensures out == Sent(wakeups)
    ensures usage == LastUsage(usageOf, None, EventsOf(parse, Split(Upstream(wakeups)).frames))
  {
    var pending, streamTail: seq<Byte> := [], [];
    var atEventBoundary := true;
    out, usage := [], None;
    hide *;
    assert wakeups[..0] == [];
    NothingSent(parse, usageOf);
    for i := 0 to |wakeups|
      invariant RelayState(parse, usageOf, wakeups[..i], out, pending, streamTail, atEventBoundary, usage)
    {
      assert wakeups[..i + 1] == wakeups[..i] + [wakeups[i]];
      out, pending, streamTail, atEventBoundary, usage :=
        OnWakeup(parse, usageOf, wakeups[..i], wakeups[i], out, pending, streamTail, atEventBoundary, usage);
    }
    assert wakeups[..|wakeups|] == wakeups;
    UsageOfState(parse, usageOf, wakeups, out, pending, streamTail, atEventBoundary, usage);
    UsageIsUpstreams(parse, usageOf, wakeups);
  }

  lemma UsageOfState<E, U>(parse: Parser<E>, usageOf: E -> Option<U>, wakeups: seq<Wakeup>, out: seq<Yield>,
                           pending: seq<Byte>, streamTail: seq<Byte>, atEventBoundary: bool, usage: Option<U>)
    requires RelayState(parse, usageOf, wakeups, out, pending, streamTail, atEventBoundary, usage)
    ensures out == Sent(wakeups) && usage == SentUsage(parse, usageOf, out)
  {
  }
}
