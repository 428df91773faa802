/** What a Shell step collects from its job: polls, the redactor, a marker for every gap, and the bound,
    put together (`OperationExecutor._execute_shell`). */
module StepCollection {
  import opened Basics
  import opened Utf8
  import opened OutputWindow
  import Redaction
  import RedactionSafety
  import StreamingRedaction

  /** The text of the segments that are closed, and the chunks of the present one: a gap in the job's
      output ends a segment, and nothing is redacted across it. */
  datatype Gathering = Gathering(closed: string, chunks: seq<string>, offset: int)

  function Gather(find: Redaction.Finder, carry: nat, g: Gathering, v: View): Gathering
    requires Redaction.FindsInside(find)
  {
    if g.offset < v.truncatedBefore then
      Gathering(g.closed + Redaction.Published(find, carry, g.chunks) + TRUNCATION_MARKER, [v.output], v.outputOffset)
    else Gathering(g.closed, g.chunks + [v.output], v.outputOffset)
  }

  function Gathered(find: Redaction.Finder, carry: nat, views: seq<View>): Gathering
    requires Redaction.FindsInside(find)
  {
    if views == [] then Gathering("", [], 0)
    else Gather(find, carry, Gathered(find, carry, views[..|views| - 1]), views[|views| - 1])
  }

  /** Every segment redacted as a whole, with one marker between two segments. */
  function Offered(find: Redaction.Finder, carry: nat, views: seq<View>): string
    requires Redaction.FindsInside(find)
  {
    var g := Gathered(find, carry, views);
    g.closed + Redaction.Published(find, carry, g.chunks)
  }

  function OffsetAfter(views: seq<View>): int {
    if views == [] then 0 else views[|views| - 1].outputOffset
  }

  /** No snapshot goes back behind the one before it. */
  predicate OffsetsGrow(views: seq<View>) {
    forall i | 0 <= i < |views| ::
      OffsetAfter(views[..i]) <= views[i].truncatedBefore && OffsetAfter(views[..i]) <= views[i].outputOffset
  }

  // ----- the text so far -----

  function Ideal(find: Redaction.Finder, carry: nat, g: Gathering): string
    requires Redaction.FindsInside(find)
  {
    g.closed + Redaction.Feeds(find, carry, g.chunks).output
  }

  /** The collected text is that of the gathering, and while it is not full the redactor is where one
      would be that was fed the present segment. */
  ghost predicate Follows(find: Redaction.Finder, carry: nat, g: Gathering, offered: string, mode: Redaction.Mode,
                          buffer: string)
    requires Redaction.FindsInside(find)
  {
    var fed := Redaction.Feeds(find, carry, g.chunks);
    && Bounded(offered) == Bounded(Ideal(find, carry, g))
    && (|offered| < MAX_STEP_OUTPUT_CHARS ==> offered == Ideal(find, carry, g) && mode == fed.mode && buffer == fed.rest)
  }

  lemma BoundedExtends(a: string, b: string, more: string, more': string)
    requires Bounded(a) == Bounded(b) && MAX_STEP_OUTPUT_CHARS <= |a|
    ensures Bounded(a + more) == Bounded(b + more')
  {
    assert (a + more)[..MAX_STEP_OUTPUT_CHARS] == a[..MAX_STEP_OUTPUT_CHARS];
    assert |Bounded(b)| == MAX_STEP_OUTPUT_CHARS;
    assert (b + more')[..MAX_STEP_OUTPUT_CHARS] == b[..MAX_STEP_OUTPUT_CHARS];
  }

  lemma BoundedMarker(text: string, more: string)
    ensures var marked := text + StepOutput.Marker(|Bounded(text)|);
            && Bounded(marked + more) == Bounded(text + TRUNCATION_MARKER + more)
            && (|marked| < MAX_STEP_OUTPUT_CHARS ==> marked == text + TRUNCATION_MARKER)
  {
    var marker := StepOutput.Marker(|Bounded(text)|);
    if MAX_STEP_OUTPUT_CHARS <= |text| {
      assert TRUNCATION_MARKER[..0] == "" && text + "" == text;
      BoundedExtends(text, text, more, TRUNCATION_MARKER + more);
      assert text + (TRUNCATION_MARKER + more) == text + TRUNCATION_MARKER + more;
    } else if marker != TRUNCATION_MARKER {
      var a, b := text + marker, text + TRUNCATION_MARKER;
      assert a == b[..MAX_STEP_OUTPUT_CHARS];
      BoundedExtends(a, b, more, more);
    }
  }

  /** A snapshot that goes on where the last one ended. */
  lemma FedStep(find: Redaction.Finder, carry: nat, g: Gathering, offered: string, mode: Redaction.Mode, buffer: string,
                v: View, r: Redaction.Result)
    requires Redaction.FindsInside(find) && Follows(find, carry, g, offered, mode, buffer) && v.truncatedBefore <= g.offset
    requires r == Redaction.Scan(find, carry, mode, buffer + v.output, false)
    ensures Follows(find, carry, Gather(find, carry, g, v), offered + r.output, r.mode, r.rest)
  {
    Redaction.FeedsMore(find, carry, g.chunks, v.output);
    hide Redaction.Feeds, Redaction.Scan, Bounded;
    var before := Redaction.Feeds(find, carry, g.chunks);
    var scanned := Redaction.Scan(find, carry, before.mode, before.rest + v.output, false);
    ConcatAssociative(g.closed, before.output, scanned.output);
    if MAX_STEP_OUTPUT_CHARS <= |offered| {
      BoundedExtends(offered, Ideal(find, carry, g), r.output, scanned.output);
    }
  }

  lemma FirstFeed(find: Redaction.Finder, carry: nat, text: string)
    requires Redaction.FindsInside(find)
    ensures Redaction.Feeds(find, carry, [text]) == Redaction.Scan(find, carry, Redaction.Normal, text, false)
  {
    Redaction.FeedsMore(find, carry, [], text);
    assert Redaction.Feeds(find, carry, []) == Redaction.Result("", Redaction.Normal, "");
    hide Redaction.Feeds, Redaction.Scan;
    assert [] + [text] == [text] && "" + text == text;
    Redaction.PrependNothing(Redaction.Scan(find, carry, Redaction.Normal, text, false));
  }

  /** A gap: the old redactor is flushed, the marker goes in, a new redactor starts. */
  lemma GapStep(find: Redaction.Finder, carry: nat, g: Gathering, offered: string, mode: Redaction.Mode, buffer: string,
                v: View, flushed: string, r: Redaction.Result)
    requires Redaction.FindsInside(find) && Follows(find, carry, g, offered, mode, buffer) && g.offset < v.truncatedBefore
    requires |offered| < MAX_STEP_OUTPUT_CHARS
    requires flushed == Redaction.Scan(find, carry, mode, buffer, true).output
    requires r == Redaction.Scan(find, carry, Redaction.Normal, v.output, false)
    ensures Follows(find, carry, Gather(find, carry, g, v),
                    offered + (flushed + StepOutput.Marker(|Bounded(offered + flushed)|)) + r.output, r.mode, r.rest)
  {
    FirstFeed(find, carry, v.output);
    BoundedMarker(offered + flushed, r.output);
    ConcatAssociative(offered, flushed, StepOutput.Marker(|Bounded(offered + flushed)|));
    hide Redaction.Feeds, Redaction.Scan, Bounded, StepOutput.Marker;
    ConcatAssociative(g.closed, Redaction.Feeds(find, carry, g.chunks).output, flushed);
    assert offered + flushed == g.closed + Redaction.Published(find, carry, g.chunks);
  }

  lemma Regroup(a: string, b: string, c: string, d: string, e: string)
    ensures a + b + (c + d + e) == a + (b + c) + d + e
  {
  }

  /** A gap once the text is full changes nothing any more. */
  lemma FullStep(find: Redaction.Finder, carry: nat, g: Gathering, offered: string, mode: Redaction.Mode, buffer: string,
                 v: View, released: string, mode': Redaction.Mode, buffer': string)
    requires Redaction.FindsInside(find) && Follows(find, carry, g, offered, mode, buffer) && g.offset < v.truncatedBefore
    requires MAX_STEP_OUTPUT_CHARS <= |offered|
    ensures Follows(find, carry, Gather(find, carry, g, v), offered + released, mode', buffer')
  {
    hide Redaction.Feeds, Redaction.Scan, Bounded;
    var fed := Redaction.Feeds(find, carry, g.chunks);
    var last := Redaction.Scan(find, carry, fed.mode, fed.rest, true).output;
    var first := Redaction.Feeds(find, carry, [v.output]).output;
    var tail := last + TRUNCATION_MARKER + first;
    BoundedExtends(offered, Ideal(find, carry, g), released, tail);
    Regroup(g.closed, fed.output, last, TRUNCATION_MARKER, first);
  }

  /** The flush at the end. */
  lemma LastStep(find: Redaction.Finder, carry: nat, g: Gathering, offered: string, mode: Redaction.Mode, buffer: string)
    requires Redaction.FindsInside(find) && Follows(find, carry, g, offered, mode, buffer)
    ensures Bounded(offered + Redaction.Scan(find, carry, mode, buffer, true).output)
         == Bounded(g.closed + Redaction.Published(find, carry, g.chunks))
  {
    hide Redaction.Feeds, Redaction.Scan, Bounded;
    var fed := Redaction.Feeds(find, carry, g.chunks);
    var last := Redaction.Scan(find, carry, fed.mode, fed.rest, true).output;
    ConcatAssociative(g.closed, fed.output, last);
    if MAX_STEP_OUTPUT_CHARS <= |offered| {
      BoundedExtends(offered, Ideal(find, carry, g), Redaction.Scan(find, carry, mode, buffer, true).output, last);
    }
  }

  // ----- the poll loop -----

  lemma GatheredMore(find: Redaction.Finder, carry: nat, views: seq<View>, v: View)
    requires Redaction.FindsInside(find)
    ensures Gathered(find, carry, views + [v]) == Gather(find, carry, Gathered(find, carry, views), v)
  {
    hide Gather;
    assert (views + [v])[..|views|] == views;
  }

  lemma {:induction false} GatheredOffset(find: Redaction.Finder, carry: nat, views: seq<View>)
    requires Redaction.FindsInside(find)
    ensures Gathered(find, carry, views).offset == OffsetAfter(views)
  {
  }

  lemma NothingGathered(find: Redaction.Finder, carry: nat)
    requires Redaction.FindsInside(find)
    ensures Follows(find, carry, Gathered(find, carry, []), "", Redaction.Normal, "")
  {
    assert "" + "" == "";
  }

  lemma OffsetsGrowMore(views: seq<View>, i: nat)
    requires i < |views|
    ensures OffsetsGrow(views[..i + 1]) <==>
              OffsetsGrow(views[..i]) && OffsetAfter(views[..i]) <= views[i].truncatedBefore
              && OffsetAfter(views[..i]) <= views[i].outputOffset
    ensures OffsetsGrow(views) ==> OffsetsGrow(views[..i + 1])
  {
    hide OffsetAfter;
    forall k | 0 <= k <= i ensures views[..i + 1][..k] == views[..k] && (k < i ==> views[..i][..k] == views[..k]) {
    }
  }

  /** One snapshot: the offset checks, the redactor, the collected text. */
  method TakeSnapshot(find: Redaction.Finder, secretLengths: seq<nat>, ghost g: Gathering, step: StepOutput,
              redactor: StreamingRedaction.StreamingRedactor, v: View, last: bool)
    returns (accepted: bool, current: StreamingRedaction.StreamingRedactor)
    requires Redaction.FindsInside(find) && step.Valid() && redactor.Valid() && !redactor.finished && g.offset == step.offset
    requires redactor.find == find
          && redactor.normalCarry == StreamingRedaction.StreamingRedactor.Largest(Redaction.NORMAL_CARRY, secretLengths)
    requires Follows(find, redactor.normalCarry, g, step.offered, redactor.Current(), redactor.buffer)
    modifies step, redactor
    ensures step.Valid() && current.Valid() && (current == redactor || fresh(current))
    ensures current.find == find && current.normalCarry == redactor.normalCarry
    ensures accepted <==> old(step.offset) <= v.truncatedBefore && old(step.offset) <= v.outputOffset
    ensures accepted ==> step.offset == v.outputOffset
    ensures var after := Gather(find, redactor.normalCarry, g, v);
            && (accepted && !last ==>
                  !current.finished
                  && Follows(find, redactor.normalCarry, after, step.offered, current.Current(), current.buffer))
            && (accepted && last ==>
                  step.Collected() == Bounded(after.closed + Redaction.Published(find, redactor.normalCarry, after.chunks)))
  {
    hide Redaction.Scan, Follows, Gather, Bounded, StepOutput.Marker, Redaction.Published, Concat,
      StreamingRedaction.StreamingRedactor.Largest;
    ghost var carry, offered := redactor.normalCarry, step.offered;
    ghost var mode, buffer := redactor.Current(), redactor.buffer;
    current := redactor;
    if v.truncatedBefore < step.offset || v.outputOffset < step.offset {
      return false, current;
    }
    CollectedLength(step);
    var flushed := "";
    if step.offset < v.truncatedBefore && step.outputChars < MAX_STEP_OUTPUT_CHARS {
      flushed := redactor.Finish();
      current := new StreamingRedaction.StreamingRedactor(find, secretLengths);
    }
    var released := current.Feed(v.output);
    ghost var fed := Redaction.Result(released, current.Current(), current.buffer);
    ghost var full := MAX_STEP_OUTPUT_CHARS <= |offered|;
    assert "" + v.output == v.output;
    if step.offset == v.truncatedBefore {
      FedStep(find, carry, g, offered, mode, buffer, v, fed);
    } else if full {
      FullStep(find, carry, g, offered, mode, buffer, v, released, fed.mode, fed.rest);
    } else {
      GapStep(find, carry, g, offered, mode, buffer, v, flushed, fed);
    }
    BoundedFits(offered + flushed);
    ghost var gap := if step.offset < v.truncatedBefore && !full
                     then flushed + StepOutput.Marker(|Bounded(offered + flushed)|) else "";
    assert offered + "" == offered;
    ghost var after := Gather(find, carry, g, v);
    assert Follows(find, carry, after, offered + gap + released, fed.mode, fed.rest);
    if last {
      var rest := current.Finish();
      LastStep(find, carry, after, offered + gap + released, fed.mode, fed.rest);
      ConcatAssociative(offered + gap, released, rest);
      released := released + rest;
    }
    var r := step.Consume(v, flushed, released);
    accepted := true;
  }

  lemma BoundedFits(text: string)
    ensures |Bounded(text)| <= MAX_STEP_OUTPUT_CHARS
  {
  }

  lemma CollectedLength(step: StepOutput)
    requires step.Valid()
    ensures step.outputChars == |step.Collected()| && step.Collected() == Bounded(step.offered)
    ensures step.outputChars < MAX_STEP_OUTPUT_CHARS <==> |step.offered| < MAX_STEP_OUTPUT_CHARS
  {
  }

  /** A whole Shell step, the last snapshot being that of the ended job: refused exactly when an offset
      goes back, and otherwise the redacted segments with one marker per gap, cut at the bound. */
  method CollectStep(find: Redaction.Finder, secretLengths: seq<nat>, views: seq<View>) returns (text: Option<string>)
    requires Redaction.FindsInside(find) && views != []
    ensures text.Some? <==> OffsetsGrow(views)
    ensures var carry := StreamingRedaction.StreamingRedactor.Largest(Redaction.NORMAL_CARRY, secretLengths);
            text.Some? ==> text.value == Bounded(Offered(find, carry, views)) && |text.value| <= MAX_STEP_OUTPUT_CHARS
  {
    hide Redaction.Scan, Follows, Gather, Gathered, Redaction.Published, Concat, OffsetsGrow,
      StreamingRedaction.StreamingRedactor.Largest, Redaction.FindsInside;
    var step := new StepOutput();
    var redactor := new StreamingRedaction.StreamingRedactor(find, secretLengths);
    ghost var carry := redactor.normalCarry;
    NothingGathered(find, carry);
    NoOffsets(views);
    var n := |views| - 1;
    for i := 0 to n
      invariant fresh(step) && fresh(redactor) && step.Valid() && redactor.Valid() && !redactor.finished
      invariant redactor.find == find && redactor.normalCarry == carry
      invariant step.offset == OffsetAfter(views[..i]) && OffsetsGrow(views[..i])
      invariant Follows(find, carry, Gathered(find, carry, views[..i]), step.offered, redactor.Current(), redactor.buffer)
    {
      ghost var g := Gathered(find, carry, views[..i]);
      NextView(find, carry, views, i);
      var accepted;
      accepted, redactor := TakeSnapshot(find, secretLengths, g, step, redactor, views[i], false);
      if !accepted {
        return None;
      }
    }
    NextView(find, carry, views, n);
    var accepted;
    accepted, redactor := TakeSnapshot(find, secretLengths, Gathered(find, carry, views[..n]), step, redactor, views[n], true);
    assert views[..n + 1] == views;
    if accepted {
      CollectedLength(step);
      var joined := step.Joined();
      text := Some(joined);
    } else {
      text := None;
    }
  }

  lemma NoOffsets(views: seq<View>)
    ensures views[..0] == [] && OffsetsGrow(views[..0]) && OffsetAfter(views[..0]) == 0
  {
  }

  lemma NextView(find: Redaction.Finder, carry: nat, views: seq<View>, i: nat)
    requires Redaction.FindsInside(find) && i < |views|
    ensures Gathered(find, carry, views[..i]).offset == OffsetAfter(views[..i])
    ensures Gathered(find, carry, views[..i + 1]) == Gather(find, carry, Gathered(find, carry, views[..i]), views[i])
    ensures OffsetAfter(views[..i + 1]) == views[i].outputOffset
    ensures OffsetsGrow(views[..i + 1]) <==>
              OffsetsGrow(views[..i]) && OffsetAfter(views[..i]) <= views[i].truncatedBefore
              && OffsetAfter(views[..i]) <= views[i].outputOffset
    ensures OffsetsGrow(views) ==> OffsetsGrow(views[..i + 1])
  {
    assert views[..i + 1] == views[..i] + [views[i]];
    GatheredOffset(find, carry, views[..i]);
    GatheredMore(find, carry, views[..i], views[i]);
    OffsetsGrowMore(views, i);
  }

  // ----- over a run of agent and poller -----

  /** The snapshot behind a piece the poller took. */
  function ViewOf(p: Piece): View
    requires Valid(p.bytes)
  {
    View(Decode(p.bytes).value, p.start + |p.bytes|, p.start)
  }

  ghost predicate Decodable(pieces: seq<Piece>) {
    pieces == [] || (Decodable(pieces[..|pieces| - 1]) && Valid(pieces[|pieces| - 1].bytes))
  }

  ghost function ViewsOf(pieces: seq<Piece>): seq<View>
    requires Decodable(pieces)
  {
    if pieces == [] then [] else ViewsOf(pieces[..|pieces| - 1]) + [ViewOf(pieces[|pieces| - 1])]
  }

  lemma {:induction false} PiecesDecode(events: seq<Event>, limit: nat)
    requires Execute(events, limit).Some?
    ensures Decodable(Execute(events, limit).value.pieces)
  {
    if events != [] {
      var before, last := events[..|events| - 1], events[|events| - 1];
      PiecesDecode(before, limit);
      var r := Execute(before, limit).value;
      hide Answer, Encode, Decode, Appended;
      if last.Poll? {
        var v := Answer(r.window, Some(r.position)).view;
        DecodeOfEncode(v.output);
        var pieces := Execute(events, limit).value.pieces;
        assert pieces[..|pieces| - 1] == r.pieces;
      }
    }
  }

  /** The poller's offsets never go back: the executor accepts every snapshot of every run. */
  lemma {:induction false} ViewsGrow(pieces: seq<Piece>, log: seq<Byte>)
    requires Decodable(pieces) && Tiles(pieces, log)
    ensures OffsetsGrow(ViewsOf(pieces)) && OffsetAfter(ViewsOf(pieces)) == PieceEnd(pieces)
  {
    hide Decode;
    if pieces != [] {
      var before, last := pieces[..|pieces| - 1], pieces[|pieces| - 1];
      ViewsGrow(before, log);
      var views := ViewsOf(pieces);
      assert views[..|views| - 1] == ViewsOf(before) && views[..|views|] == views;
      OffsetsGrowMore(views, |views| - 1);
    }
  }

  // ----- the segments of a run -----

  /** The chunks that one redactor was fed, and where in the job's output they begin. */
  datatype Segment = Segment(start: nat, chunks: seq<string>)

  function End(s: Segment): nat {
    s.start + |Concat(s.chunks)|
  }

  /** The segment's text is the job's at that place. */
  predicate LiesIn(s: Segment, text: string) {
    End(s) <= |text| && text[s.start..End(s)] == Concat(s.chunks)
  }

  /** Segments follow each other with something missing between any two. */
  ghost predicate Spread(segments: seq<Segment>, text: string) {
    && (forall i | 0 <= i < |segments| :: LiesIn(segments[i], text))
    && (forall i | 0 < i < |segments| :: End(segments[i - 1]) < segments[i].start)
  }

  /** The closed segments, each redacted as a whole and followed by a marker. */
  function Marked(find: Redaction.Finder, carry: nat, segments: seq<Segment>): string
    requires Redaction.FindsInside(find)
  {
    if segments == [] then ""
    else
      var n := |segments| - 1;
      Marked(find, carry, segments[..n]) + Redaction.Published(find, carry, segments[n].chunks) + TRUNCATION_MARKER
  }

  /** All segments, with a marker between any two. */
  function Shown(find: Redaction.Finder, carry: nat, segments: seq<Segment>): string
    requires Redaction.FindsInside(find) && segments != []
  {
    var n := |segments| - 1;
    Marked(find, carry, segments[..n]) + Redaction.Published(find, carry, segments[n].chunks)
  }

  /** The gathering after some snapshots: the last segment is the open one, and ends where the poller is. */
  ghost predicate GatheredAs(find: Redaction.Finder, carry: nat, g: Gathering, segments: seq<Segment>, text: string)
    requires Redaction.FindsInside(find)
  {
    && segments != [] && Spread(segments, text)
    && g.closed == Marked(find, carry, segments[..|segments| - 1])
    && g.chunks == segments[|segments| - 1].chunks
    && g.offset == |Encode(text[..End(segments[|segments| - 1])])|
  }

  lemma LiesInExtension(s: Segment, text: string, more: string)
    requires LiesIn(s, text)
    ensures LiesIn(s, text + more) && (text + more)[..End(s)] == text[..End(s)]
  {
  }

  /** More output does not move what was gathered. */
  lemma GatheredStays(find: Redaction.Finder, carry: nat, g: Gathering, segments: seq<Segment>, text: string, more: string)
    requires Redaction.FindsInside(find) && GatheredAs(find, carry, g, segments, text)
    ensures GatheredAs(find, carry, g, segments, text + more)
  {
    hide LiesIn, Marked, Encode, End;
    forall i | 0 <= i < |segments| ensures LiesIn(segments[i], text) && End(segments[i]) <= |text| {
      LiesEnds(segments[i], text);
    }
    forall i | 0 <= i < |segments|
      ensures LiesIn(segments[i], text + more) && (text + more)[..End(segments[i])] == text[..End(segments[i])]
    {
      LiesInExtension(segments[i], text, more);
    }
  }

  lemma LiesEnds(s: Segment, text: string)
    requires LiesIn(s, text)
    ensures End(s) <= |text|
  {
  }

  /** Equal encodings are of equal texts. */
  lemma SameText(a: string, b: string)
    requires Encode(a) == Encode(b)
    ensures a == b
  {
    DecodeOfEncode(a);
    DecodeOfEncode(b);
  }

  lemma SplitText(text: string, k: nat)
    requires k <= |text|
    ensures text == text[..k] + text[k..]
  {
  }

  /** What an encoding shows from a place on where text was cut. */
  lemma RestOfText(text: string, k: nat, shown: string)
    requires k <= |text| && |Encode(text[..k])| <= |Encode(text)|
    requires Encode(shown) == Encode(text)[|Encode(text[..k])|..]
    ensures shown == text[k..]
  {
    SplitText(text, k);
    EncodeConcat(text[..k], text[k..]);
    hide Encode;
    var a, b := Encode(text[..k]), Encode(text[k..]);
    assert (a + b)[|a|..] == b;
    SameText(shown, text[k..]);
  }

  lemma NotContinued(shown: string)
    requires shown != ""
    ensures Encode(shown) != [] && !IsContinuation(Encode(shown)[0])
  {
    assert Encode(shown)[0] == EncodeChar(shown[0])[0];
  }

  /** Where a shown suffix begins, a character begins. */
  lemma SuffixBegins(text: string, at: nat, shown: string) returns (k: nat)
    requires at <= |Encode(text)| && Encode(shown) == Encode(text)[at..]
    ensures k <= |text| && |Encode(text[..k])| == at && shown == text[k..]
  {
    hide Encode, IsContinuation;
    if shown == "" {
      NothingEncoded();
    } else {
      NotContinued(shown);
      assert Encode(text)[at] == Encode(shown)[0];
    }
    k := CutAtBoundary(text, at);
    RestOfText(text, k, shown);
  }

  lemma NothingEncoded()
    ensures Encode("") == []
  {
  }

  lemma LongerPrefix(text: string, a: nat, b: nat)
    requires a <= |text| && b <= |text|
    ensures b <= a ==> |Encode(text[..b])| <= |Encode(text[..a])|
  {
    if b <= a {
      EncodeConcat(text[..b], text[b..a]);
      assert text[..b] + text[b..a] == text[..a];
    }
  }

  lemma ContinuedLies(s: Segment, text: string)
    requires LiesIn(s, text)
    ensures var longer := Segment(s.start, s.chunks + [text[End(s)..]]); LiesIn(longer, text) && End(longer) == |text|
  {
    ConcatMore(s.chunks, text[End(s)..]);
    hide Concat;
    assert text[s.start..End(s)] + text[End(s)..] == text[s.start..];
  }

  lemma StartedLies(text: string, k: nat)
    requires k <= |text|
    ensures var s := Segment(k, [text[k..]]); LiesIn(s, text) && End(s) == |text|
  {
    ConcatMore([], text[k..]);
    assert [] + [text[k..]] == [text[k..]] && [] + text[k..] == text[k..];
  }

  lemma WholePrefix(text: string)
    ensures text[..|text|] == text
  {
  }

  lemma SpreadMore(closed: seq<Segment>, last: Segment, text: string)
    requires Spread(closed, text) && LiesIn(last, text)
    requires closed != [] ==> End(closed[|closed| - 1]) < last.start
    ensures Spread(closed + [last], text)
  {
    hide LiesIn, End;
  }

  lemma SpreadLess(segments: seq<Segment>, text: string)
    requires Spread(segments, text) && segments != []
    ensures var n := |segments| - 1;
            && Spread(segments[..n], text) && LiesIn(segments[n], text) && End(segments[n]) <= |text|
            && (n > 0 ==> End(segments[n - 1]) < segments[n].start)
  {
    hide End, Concat;
    assert LiesIn(segments[|segments| - 1], text);
    LiesEnds(segments[|segments| - 1], text);
    hide LiesIn;
  }

  /** A gathering put together from closed segments and an open one that reaches the end. */
  lemma GatheredFrom(find: Redaction.Finder, carry: nat, g: Gathering, closed: seq<Segment>, last: Segment, text: string)
    requires Redaction.FindsInside(find) && Spread(closed, text) && LiesIn(last, text) && End(last) == |text|
    requires closed != [] ==> End(closed[|closed| - 1]) < last.start
    requires g == Gathering(Marked(find, carry, closed), last.chunks, |Encode(text)|)
    ensures GatheredAs(find, carry, g, closed + [last], text)
  {
    SpreadMore(closed, last, text);
    hide LiesIn, End, Spread, Marked, Encode;
    assert (closed + [last])[..|closed|] == closed;
    WholePrefix(text);
  }

  /** A snapshot that goes on: the open segment grows to the end of the output. */
  lemma GoesOn(find: Redaction.Finder, carry: nat, g: Gathering, segments: seq<Segment>, text: string, v: View)
    returns (later: seq<Segment>)
    requires Redaction.FindsInside(find) && GatheredAs(find, carry, g, segments, text)
    requires v.truncatedBefore == g.offset && v.outputOffset == |Encode(text)| && g.offset <= |Encode(text)|
    requires Encode(v.output) == Encode(text)[v.truncatedBefore..]
    ensures GatheredAs(find, carry, Gather(find, carry, g, v), later, text) && |later| == |segments|
    ensures later[0].start == segments[0].start && End(later[|later| - 1]) == |text|
  {
    hide LiesIn, Encode, Marked, Redaction.Published, Spread, End, Redaction.FindsInside;
    SpreadLess(segments, text);
    var n := |segments| - 1;
    var last := segments[n];
    RestOfText(text, End(last), v.output);
    ContinuedLies(last, text);
    var longer := Segment(last.start, last.chunks + [v.output]);
    GatheredFrom(find, carry, Gather(find, carry, g, v), segments[..n], longer, text);
    later := segments[..n] + [longer];
  }

  /** A gap: the open segment is closed and a new one starts behind what was lost. */
  lemma StartsOver(find: Redaction.Finder, carry: nat, g: Gathering, segments: seq<Segment>, text: string, v: View)
    returns (later: seq<Segment>)
    requires Redaction.FindsInside(find) && GatheredAs(find, carry, g, segments, text)
    requires g.offset < v.truncatedBefore <= |Encode(text)| && v.outputOffset == |Encode(text)|
    requires Encode(v.output) == Encode(text)[v.truncatedBefore..]
    ensures GatheredAs(find, carry, Gather(find, carry, g, v), later, text) && |later| == |segments| + 1
    ensures End(later[|later| - 1]) == |text|
  {
    hide LiesIn, Encode, Redaction.Published, Marked, Spread, End, Redaction.FindsInside;
    SpreadLess(segments, text);
    var k := SuffixBegins(text, v.truncatedBefore, v.output);
    LongerPrefix(text, End(segments[|segments| - 1]), k);
    StartedLies(text, k);
    MarkedMore(find, carry, segments);
    GatheredFrom(find, carry, Gather(find, carry, g, v), segments, Segment(k, [v.output]), text);
    later := segments + [Segment(k, [v.output])];
  }

  lemma MarkedMore(find: Redaction.Finder, carry: nat, segments: seq<Segment>)
    requires Redaction.FindsInside(find)
    ensures segments == [] ==> Marked(find, carry, segments) == ""
    ensures segments != [] ==>
              Marked(find, carry, segments)
              == Marked(find, carry, segments[..|segments| - 1])
                 + Redaction.Published(find, carry, segments[|segments| - 1].chunks) + TRUNCATION_MARKER
  {
  }

  lemma FirstSegment(find: Redaction.Finder, carry: nat)
    requires Redaction.FindsInside(find)
    ensures GatheredAs(find, carry, Gathered(find, carry, []), [Segment(0, [])], "")
  {
    NothingEncoded();
    assert [Segment(0, [])][..0] == [] && ""[..0] == "";
  }

  lemma PieceGathered(find: Redaction.Finder, carry: nat, pieces: seq<Piece>, p: Piece)
    requires Redaction.FindsInside(find) && Decodable(pieces + [p])
    ensures Decodable(pieces) && Valid(p.bytes)
    ensures Gathered(find, carry, ViewsOf(pieces + [p])) == Gather(find, carry, Gathered(find, carry, ViewsOf(pieces)), ViewOf(p))
  {
    hide Gather, Decode;
    assert (pieces + [p])[..|pieces|] == pieces;
    GatheredMore(find, carry, ViewsOf(pieces), ViewOf(p));
  }

  lemma PieceShows(v: View)
    ensures Valid(Encode(v.output)) && Decode(Encode(v.output)).value == v.output
  {
    DecodeOfEncode(v.output);
  }

  /** What one poll takes. */
  lemma PollTakes(r: Run, log: seq<Byte>, limit: nat) returns (v: View)
    requires RunInvariant(r, log, limit) && Step(r, Poll, limit).Some?
    ensures 0 <= r.position <= v.truncatedBefore <= |log| && v.outputOffset == |log|
    ensures Step(r, Poll, limit).value.pieces
         == r.pieces + [Piece(v.truncatedBefore, Encode(v.output), r.window.truncatedBefore)]
    ensures Encode(v.output) == log[v.truncatedBefore..]
    ensures r.position < v.truncatedBefore ==> r.position < r.window.truncatedBefore
  {
    AnswerIsLogSuffix(r.window, log, limit, Some(r.position));
    hide Answer, Encode, Decode, Retains, Tiles, AtBoundary;
    v := Answer(r.window, Some(r.position)).view;
  }

  /** One poll. */
  lemma PollGathers(find: Redaction.Finder, carry: nat, r: Run, segments: seq<Segment>, text: string, limit: nat)
    returns (later: seq<Segment>)
    requires Redaction.FindsInside(find) && RunInvariant(r, Encode(text), limit) && Decodable(r.pieces)
    requires GatheredAs(find, carry, Gathered(find, carry, ViewsOf(r.pieces)), segments, text)
    requires Step(r, Poll, limit).Some? && Decodable(Step(r, Poll, limit).value.pieces)
    ensures GatheredAs(find, carry, Gathered(find, carry, ViewsOf(Step(r, Poll, limit).value.pieces)), later, text)
    ensures later != [] && End(later[|later| - 1]) == |text|
    ensures (|later| == |segments| && later[0].start == segments[0].start) || r.position < r.window.truncatedBefore
  {
    var v := PollTakes(r, Encode(text), limit);
    PieceShows(v);
    assert r.position == PieceEnd(r.pieces) && Tiles(r.pieces, Encode(text));
    hide *;
    PieceGathered(find, carry, r.pieces, Piece(v.truncatedBefore, Encode(v.output), r.window.truncatedBefore));
    PieceView(v, r.window.truncatedBefore);
    ViewsGrow(r.pieces, Encode(text));
    GatheredOffset(find, carry, ViewsOf(r.pieces));
    NonEmptySegments(find, carry, Gathered(find, carry, ViewsOf(r.pieces)), segments, text);
    var g := Gathered(find, carry, ViewsOf(r.pieces));
    if r.position < v.truncatedBefore {
      later := StartsOver(find, carry, g, segments, text, v);
    } else {
      later := GoesOn(find, carry, g, segments, text, v);
    }
  }

  lemma NonEmptySegments(find: Redaction.Finder, carry: nat, g: Gathering, segments: seq<Segment>, text: string)
    requires Redaction.FindsInside(find) && GatheredAs(find, carry, g, segments, text)
    ensures segments != []
  {
  }

  lemma PieceView(v: View, trimmedTo: int)
    requires 0 <= v.truncatedBefore && Valid(Encode(v.output)) && Decode(Encode(v.output)).value == v.output
    requires v.outputOffset == v.truncatedBefore + |Encode(v.output)|
    ensures ViewOf(Piece(v.truncatedBefore, Encode(v.output), trimmedTo)) == v
  {
  }

  /** The segments after any run of agent and poller. */
  lemma {:induction false} SegmentsOfRun(events: seq<Event>, limit: nat, find: Redaction.Finder, carry: nat)
    returns (segments: seq<Segment>)
    requires Redaction.FindsInside(find)
    ensures Execute(events, limit).Some? && Decodable(Execute(events, limit).value.pieces)
    ensures GatheredAs(find, carry, Gathered(find, carry, ViewsOf(Execute(events, limit).value.pieces)), segments,
                       Emitted(events))
    ensures segments != []
    ensures events != [] && events[|events| - 1].Poll? ==> End(segments[|segments| - 1]) == |Emitted(events)|
    ensures |Encode(Emitted(events))| <= limit ==> |segments| == 1 && segments[0].start == 0
  {
    hide Encode, Decode, Retains, Tiles, AtBoundary, Redaction.FindsInside, GatheredAs, Gathered, Decodable, End, Untrimmed,
      Appended, Answer;
    PollerFollowsLog(events, limit);
    PiecesDecode(events, limit);
    if events == [] {
      FirstSegment(find, carry);
      segments := [Segment(0, [])];
    } else {
      var before, last := events[..|events| - 1], events[|events| - 1];
      segments := SegmentsOfRun(before, limit, find, carry);
      PollerFollowsLog(before, limit);
      var r, text := Execute(before, limit).value, Emitted(before);
      var more := if last.Emit? then last.text else "";
      EncodeConcat(text, more);
      if |Encode(Emitted(events))| <= limit {
        NothingTrimmed(before, limit);
      }
      if last.Emit? {
        GatheredStays(find, carry, Gathered(find, carry, ViewsOf(r.pieces)), segments, text, more);
      } else {
        assert text + "" == text;
        segments := PollGathers(find, carry, r, segments, text, limit);
      }
    }
  }

  /** What the executor collects over any interleaving of appends, trims and polls, the last poll being
      after the job ended: no snapshot is refused; the job's output falls into segments between which
      something was lost, up to its very end; each is redacted as a whole, with a marker between any two.
      A job within the window limit has one segment, everything it printed. */
  lemma CollectedOverRun(events: seq<Event>, limit: nat, find: Redaction.Finder, carry: nat) returns (segments: seq<Segment>)
    requires Redaction.FindsInside(find)
    ensures Execute(events + [Poll], limit).Some?
    ensures Decodable(Execute(events + [Poll], limit).value.pieces)
    ensures OffsetsGrow(ViewsOf(Execute(events + [Poll], limit).value.pieces))
    ensures segments != [] && Spread(segments, Emitted(events)) && End(segments[|segments| - 1]) == |Emitted(events)|
    ensures Offered(find, carry, ViewsOf(Execute(events + [Poll], limit).value.pieces)) == Shown(find, carry, segments)
    ensures |Encode(Emitted(events))| <= limit ==> |segments| == 1 && Concat(segments[0].chunks) == Emitted(events)
  {
    hide Redaction.FindsInside, Encode, Decode, Concat, Execute, OffsetsGrow, ViewsOf, Gathered, Tiles, Retains,
      AtBoundary, Redaction.Published, Decodable, Marked, Spread;
    var all := events + [Poll];
    EmittedThenPoll(events);
    PollerFollowsLog(all, limit);
    segments := SegmentsOfRun(all, limit, find, carry);
    var pieces := Execute(all, limit).value.pieces;
    ViewsGrow(pieces, Encode(Emitted(all)));
    if |Encode(Emitted(events))| <= limit {
      OnlySegment(segments, Emitted(events));
    }
  }

  lemma OnlySegment(segments: seq<Segment>, text: string)
    requires |segments| == 1 && Spread(segments, text) && segments[0].start == 0 && End(segments[0]) == |text|
    ensures Concat(segments[0].chunks) == text
  {
    hide Concat;
    WholePrefix(text);
    assert LiesIn(segments[0], text);
  }

  lemma EmittedThenPoll(events: seq<Event>)
    ensures Emitted(events + [Poll]) == Emitted(events)
  {
    assert (events + [Poll])[..|events|] == events;
    assert Emitted(events) + "" == Emitted(events);
  }

  lemma PrefixOccurs(text: string, secret: string, i: int)
    ensures RedactionSafety.Occurs(Bounded(text), secret, i) ==> RedactionSafety.Occurs(text, secret, i)
  {
    var cut := Bounded(text);
    if RedactionSafety.Occurs(cut, secret, i) {
      assert cut[i..i + |secret|] == text[i..i + |secret|];
    }
  }

  /** A key inside a part of the text is a key of the text. */
  lemma KeyInPart(text: string, from: nat, to: nat, i: nat, n: nat, k: nat)
    requires from <= to <= |text| && RedactionSafety.KeyAt(text[from..to], i, n, k)
    ensures RedactionSafety.KeyAt(text, from + i, n, k)
    ensures text[from..to][i + 1..i + 1 + n] == text[from + i + 1..from + i + 1 + n]
  {
    hide RedactionSafety.MarkedToken;
    var part := text[from..to];
    assert part == text[from..from + |part|];
    RedactionSafety.SubSlice(text, from, |part|, i + 1, i + 1 + n);
    RedactionSafety.SubSlice(text, from, |part|, i + 2 + n, i + 2 + n + k);
    assert part[i] == text[from + i] && part[i + 1 + n] == text[from + i + 1 + n]
        && part[i + 2 + n + k] == text[from + i + 2 + n + k];
  }

  lemma PartKeysClean(secrets: seq<string>, text: string, from: nat, to: nat)
    requires from <= to <= |text| && RedactionSafety.KeysClean(secrets, text)
    ensures RedactionSafety.KeysClean(secrets, text[from..to])
  {
    hide RedactionSafety.KeyAt, RedactionSafety.Clean;
    forall i: nat, n: nat, k: nat | RedactionSafety.KeyAt(text[from..to], i, n, k)
      ensures i + 1 + n <= to - from && RedactionSafety.Clean(secrets, text[from..to][i + 1..i + 1 + n])
    {
      KeyInside(text[from..to], i, n, k);
      KeyInPart(text, from, to, i, n, k);
    }
  }

  lemma KeyInside(text: string, i: nat, n: nat, k: nat)
    requires RedactionSafety.KeyAt(text, i, n, k)
    ensures i + 1 + n <= |text|
  {
  }

  /** A segment whose text is part of one with clean keys is published clean. */
  lemma SegmentClean(p: RedactionSafety.Patterns, secrets: seq<string>, secret: string, carry: nat, s: Segment, text: string)
    requires RedactionSafety.PatternsMatch(p) && RedactionSafety.Searched(secrets, [secret])
    requires RedactionSafety.Guarded([secret], carry) && RedactionSafety.KeysClean([secret], text) && LiesIn(s, text)
    ensures Redaction.FindsInside(RedactionSafety.MarkerFinder(p, secrets))
    ensures RedactionSafety.Clean([secret], Redaction.Published(RedactionSafety.MarkerFinder(p, secrets), carry, s.chunks))
  {
    hide RedactionSafety.PatternsMatch, RedactionSafety.KeysClean, RedactionSafety.Guarded, RedactionSafety.Occurs,
      RedactionSafety.MarkerFinder, Redaction.FindsInside, Redaction.Published, Concat;
    SearchedNonEmpty(secrets, secret);
    RedactionSafety.FinderFindsInside(p, secrets);
    PartKeysClean([secret], text, s.start, End(s));
    RedactionSafety.PublishedOnlyInKeys(p, secrets, secret, carry, s.chunks);
  }

  /** The marker is closed in characters that no token has, so nothing is put together across it. */
  lemma MarkerSeparates(secret: string, carry: nat, a: string, b: string)
    requires RedactionSafety.Guarded([secret], carry)
    requires RedactionSafety.Clean([secret], a) && RedactionSafety.Clean([secret], b)
    requires RedactionSafety.Clean([secret], TRUNCATION_MARKER)
    ensures RedactionSafety.Clean([secret], a + TRUNCATION_MARKER)
    ensures RedactionSafety.Clean([secret], a + TRUNCATION_MARKER + b)
  {
    var marked := a + TRUNCATION_MARKER;
    assert TRUNCATION_MARKER[0] == '[' && TRUNCATION_MARKER[|TRUNCATION_MARKER| - 1] == '\n';
    assert marked[|marked| - 1] == '\n';
    assert RedactionSafety.Sealed(marked);
    hide RedactionSafety.Clean, RedactionSafety.Guarded, RedactionSafety.Sealed;
    RedactionSafety.CleanConcat([secret], carry, a, TRUNCATION_MARKER);
    RedactionSafety.CleanConcat([secret], carry, marked, b);
  }

  /** No matter how many segments. */
  lemma {:induction false} MarkedClean(p: RedactionSafety.Patterns, secrets: seq<string>, secret: string, carry: nat,
                                       segments: seq<Segment>, text: string, last: string)
    requires RedactionSafety.PatternsMatch(p) && RedactionSafety.Searched(secrets, [secret])
    requires RedactionSafety.Guarded([secret], carry) && RedactionSafety.KeysClean([secret], text)
    requires RedactionSafety.Clean([secret], TRUNCATION_MARKER) && RedactionSafety.Clean([secret], last)
    requires forall i | 0 <= i < |segments| :: LiesIn(segments[i], text)
    ensures Redaction.FindsInside(RedactionSafety.MarkerFinder(p, secrets))
    ensures RedactionSafety.Clean([secret], Marked(RedactionSafety.MarkerFinder(p, secrets), carry, segments) + last)
    decreases |segments|
  {
    hide *;
    SearchedNonEmpty(secrets, secret);
    RedactionSafety.FinderFindsInside(p, secrets);
    var find := RedactionSafety.MarkerFinder(p, secrets);
    MarkedMore(find, carry, segments);
    if segments == [] {
      assert "" + last == last;
    } else {
      var n := |segments| - 1;
      var shown := Redaction.Published(find, carry, segments[n].chunks);
      SegmentClean(p, secrets, secret, carry, segments[n], text);
      MarkedClean(p, secrets, secret, carry, segments[..n], text, shown);
      MarkerSeparates(secret, carry, Marked(find, carry, segments[..n]) + shown, last);
    }
  }

  lemma ShownIs(find: Redaction.Finder, carry: nat, segments: seq<Segment>)
    requires Redaction.FindsInside(find) && segments != []
    ensures var n := |segments| - 1;
            Shown(find, carry, segments)
            == Marked(find, carry, segments[..n]) + Redaction.Published(find, carry, segments[n].chunks)
  {
  }

  lemma SpreadLies(segments: seq<Segment>, text: string)
    requires Spread(segments, text)
    ensures forall i | 0 <= i < |segments| :: LiesIn(segments[i], text)
  {
  }

  lemma BoundedClean(secret: string, text: string)
    requires RedactionSafety.Clean([secret], text)
    ensures forall i :: !RedactionSafety.Occurs(Bounded(text), secret, i)
  {
    assert secret in [secret];
    forall i ensures !RedactionSafety.Occurs(Bounded(text), secret, i) {
      PrefixOccurs(text, secret, i);
    }
  }

  /** A known secret that a job prints nowhere inside a key, and that is not part of the marker, is nowhere
      in the collected text, whenever the job was polled and whatever was lost in between. */
  lemma StepKeepsSecrets(events: seq<Event>, limit: nat, p: RedactionSafety.Patterns, secrets: seq<string>, secret: string,
                         carry: nat)
    requires RedactionSafety.PatternsMatch(p) && RedactionSafety.Searched(secrets, [secret])
    requires RedactionSafety.Guarded([secret], carry) && RedactionSafety.KeysClean([secret], Emitted(events))
    requires RedactionSafety.Clean([secret], TRUNCATION_MARKER)
    ensures Execute(events + [Poll], limit).Some? && Decodable(Execute(events + [Poll], limit).value.pieces)
    ensures var find := RedactionSafety.MarkerFinder(p, secrets);
            && Redaction.FindsInside(find)
            && forall i ::
                 !RedactionSafety.Occurs(Bounded(Offered(find, carry, ViewsOf(Execute(events + [Poll], limit).value.pieces))),
                                         secret, i)
  {
    hide *;
    SearchedNonEmpty(secrets, secret);
    RedactionSafety.FinderFindsInside(p, secrets);
    var find := RedactionSafety.MarkerFinder(p, secrets);
    var segments := CollectedOverRun(events, limit, find, carry);
    var text, n := Emitted(events), |segments| - 1;
    SpreadLies(segments, text);
    SegmentClean(p, secrets, secret, carry, segments[n], text);
    ShownIs(find, carry, segments);
    MarkedClean(p, secrets, secret, carry, segments[..n], text, Redaction.Published(find, carry, segments[n].chunks));
    BoundedClean(secret, Offered(find, carry, ViewsOf(Execute(events + [Poll], limit).value.pieces)));
  }

  lemma SearchedNonEmpty(secrets: seq<string>, secret: string)
    requires RedactionSafety.Searched(secrets, [secret])
    ensures forall s | s in secrets :: s != ""
  {
  }
}
