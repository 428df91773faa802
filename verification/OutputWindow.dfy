/** The bounded output window of a job (`JobRunner._append_output`, `JobRunner.get`) and the poller
    that follows it by absolute offset (`OperationExecutor._execute_shell`). */
module OutputWindow {
  import opened Basics
  import opened Utf8

  /** The retained suffix of everything a job has emitted, with absolute byte offsets. */
  datatype Window = Window(output: seq<Byte>, outputOffset: nat, truncatedBefore: int)

  const EMPTY_WINDOW := Window([], 0, 0)

  /** The output fields of a job snapshot. */
  datatype View = View(output: string, outputOffset: nat, truncatedBefore: int)

  /** What `get` does: reject the offset, fail to decode, or return a view. */
  datatype GetResult = InvalidOffset | DecodeError | Got(view: View)

  function Max(a: int, b: int): int {
    if a < b then b else a
  }

  /** The least code-point boundary of `bytes` that is not before `i`. */
  function NextBoundary(bytes: seq<Byte>, i: nat): (k: nat)
    requires i <= |bytes|
    ensures i <= k <= |bytes| && AtBoundary(bytes, k)
    decreases |bytes| - i
  {
    if AtBoundary(bytes, i) then i else NextBoundary(bytes, i + 1)
  }

  lemma NextBoundaryIsNext(bytes: seq<Byte>, i: nat, j: nat)
    requires i <= |bytes| && i <= j < NextBoundary(bytes, i)
    ensures !AtBoundary(bytes, j)
    decreases |bytes| - i
  {
    if i < j {
      NextBoundaryIsNext(bytes, i + 1, j);
    }
  }

  /** The window after `value` was emitted under a byte limit. */
  function Appended(w: Window, value: seq<Byte>, limit: nat): Window {
    if value == [] then w
    else
      var all := w.output + value;
      var kept := all[NextBoundary(all, Max(0, |all| - limit))..];
      var offset := w.outputOffset + |value|;
      Window(kept, offset, offset - |kept|)
  }

  /** `w` is what a job that has emitted `log` retains: a suffix of at most `limit` bytes that starts at
      a code-point boundary, with the absolute offsets of its two ends. */
  ghost predicate Retains(w: Window, log: seq<Byte>, limit: nat) {
    && Valid(log)
    && w.outputOffset == |log|
    && 0 <= w.truncatedBefore <= |log|
    && w.output == log[w.truncatedBefore..]
    && |w.output| <= limit
    && AtBoundary(log, w.truncatedBefore)
  }

  lemma BoundaryInSuffix(log: seq<Byte>, start: nat, i: nat)
    requires start <= |log| && i <= |log| - start
    ensures AtBoundary(log[start..], i) <==> AtBoundary(log, start + i)
  {
  }

  lemma BoundaryInExtension(log: seq<Byte>, more: seq<Byte>, i: nat)
    requires i <= |log| && AtBoundary(log, i) && Valid(more)
    ensures AtBoundary(log + more, i)
  {
    if more != [] {
      ValidStart(more);
    }
  }

  lemma AppendedUnfolds(w: Window, value: seq<Byte>, limit: nat)
    ensures 0 <= Max(0, |w.output + value| - limit) <= |w.output + value|
    ensures value != [] ==>
              var all := w.output + value;
              var offset := w.outputOffset + |value|;
              var kept := all[NextBoundary(all, Max(0, |all| - limit))..];
              Appended(w, value, limit) == Window(kept, offset, offset - |kept|)
  {
  }

  lemma NothingAppended(w: Window, log: seq<Byte>, limit: nat)
    ensures Appended(w, [], limit) == w && log + [] == log
  {
  }

  /** One append keeps the window invariant, and trims only what the limit forces out: every boundary
      it drops would have left more than `limit` bytes. */
  lemma AppendRetains(w: Window, log: seq<Byte>, value: seq<Byte>, limit: nat)
    requires Retains(w, log, limit) && Valid(value)
    ensures Retains(Appended(w, value, limit), log + value, limit)
    ensures w.truncatedBefore <= Appended(w, value, limit).truncatedBefore
    ensures forall k: nat | w.truncatedBefore <= k < Appended(w, value, limit).truncatedBefore
              && AtBoundary(log + value, k) :: limit < |log + value| - k
  {
    hide Decode, IsContinuation;
    var log' := log + value;
    var w' := Appended(w, value, limit);
    if value == [] {
      assert log' == log;
    } else {
      ValidConcat(log, value);
      var all := w.output + value;
      assert all == log'[w.truncatedBefore..];
      var start := NextBoundary(all, Max(0, |all| - limit));
      assert w'.truncatedBefore == w.truncatedBefore + start;
      assert w'.output == log'[w'.truncatedBefore..];
      BoundaryInSuffix(log', w.truncatedBefore, start);
      forall k: nat | w.truncatedBefore <= k < w'.truncatedBefore && AtBoundary(log', k)
        ensures limit < |log'| - k
      {
        var j := k - w.truncatedBefore;
        BoundaryInSuffix(log', w.truncatedBefore, j);
        if Max(0, |all| - limit) <= j {
          NextBoundaryIsNext(all, Max(0, |all| - limit), j);
        }
      }
    }
  }

  /** No longer suffix would do: every earlier boundary leaves more than `limit` bytes. */
  ghost predicate Longest(w: Window, log: seq<Byte>, limit: nat) {
    forall k: nat | k < w.truncatedBefore && k <= |log| && AtBoundary(log, k) :: limit < |log| - k
  }

  lemma AppendKeepsLongest(w: Window, log: seq<Byte>, value: seq<Byte>, limit: nat)
    requires Retains(w, log, limit) && Longest(w, log, limit) && Valid(value)
    ensures Longest(Appended(w, value, limit), log + value, limit)
  {
    AppendRetains(w, log, value, limit);
    assert w.truncatedBefore <= |log|;
    hide Appended, Retains, Valid;
    forall k: nat | k < w.truncatedBefore && AtBoundary(log + value, k) ensures limit < |log + value| - k {
      assert k < |log| && (log + value)[k] == log[k];
      assert AtBoundary(log, k);
    }
  }

  /** Where a request for `offset` (or for everything) starts reading, relative to the window. */
  function ReadIndex(w: Window, offset: Option<int>): int {
    var index := RequestedFrom(w, offset) - w.truncatedBefore;
    if index <= |w.output| then NextBoundary(w.output, index) else index
  }

  function Answer(w: Window, offset: Option<int>): GetResult {
    if offset.Some? && !(0 <= offset.value <= w.outputOffset) then InvalidOffset
    else
      var index := ReadIndex(w, offset);
      var text := if index <= |w.output| then Decode(w.output[index..]) else Some("");
      if text.None? then DecodeError
      else Got(View(text.value, w.outputOffset, w.truncatedBefore + index))
  }

  /** Where a read is to start: at the offset asked for, or at the trim point if that is later. */
  function RequestedFrom(w: Window, offset: Option<int>): int {
    if offset.None? then w.truncatedBefore else Max(offset.value, w.truncatedBefore)
  }

  lemma ReadIsLogSuffix(w: Window, log: seq<Byte>, limit: nat, offset: Option<int>, index: int)
    requires Retains(w, log, limit)
    requires offset.Some? ==> 0 <= offset.value <= w.outputOffset
    requires index == ReadIndex(w, offset)
    ensures 0 <= index <= |w.output|
    ensures w.output[index..] == log[w.truncatedBefore + index..]
    ensures Valid(log[w.truncatedBefore + index..]) && AtBoundary(log, w.truncatedBefore + index)
    ensures forall k: nat | RequestedFrom(w, offset) <= k < w.truncatedBefore + index :: !AtBoundary(log, k)
    ensures offset.None? ==> index == 0
    ensures offset.Some? && AtBoundary(log, offset.value) ==>
              w.truncatedBefore + index == Max(offset.value, w.truncatedBefore)
  {
    hide Decode, Encode;
    BoundaryInSuffix(log, w.truncatedBefore, index);
    ValidCut(log, w.truncatedBefore + index);
    BoundaryInSuffix(log, w.truncatedBefore, 0);
    if offset.Some? {
      var requested := Max(offset.value, w.truncatedBefore);
      BoundaryInSuffix(log, w.truncatedBefore, requested - w.truncatedBefore);
    }
    forall k: nat | RequestedFrom(w, offset) <= k < w.truncatedBefore + index ensures !AtBoundary(log, k) {
      BoundaryInSuffix(log, w.truncatedBefore, k - w.truncatedBefore);
      NextBoundaryIsNext(w.output, RequestedFrom(w, offset) - w.truncatedBefore, k - w.truncatedBefore);
    }
  }

  /** Every read of a retained window decodes, and returns exactly the emitted bytes from the first
      code-point boundary at or after both the requested offset and the trim point; only an offset
      beyond what was emitted is refused. */
  lemma AnswerIsLogSuffix(w: Window, log: seq<Byte>, limit: nat, offset: Option<int>)
    requires Retains(w, log, limit)
    ensures Answer(w, offset).InvalidOffset? <==> offset.Some? && !(0 <= offset.value <= |log|)
    ensures !Answer(w, offset).DecodeError?
    ensures Answer(w, offset).Got? ==> IsLogSuffix(Answer(w, offset).view, w, log, offset)
  {
    if offset.None? || 0 <= offset.value <= |log| {
      var index := ReadIndex(w, offset);
      ReadIsLogSuffix(w, log, limit, offset, index);
      EncodeOfDecode(log[w.truncatedBefore + index..]);
    }
  }

  /** `v` shows the log from `v.truncatedBefore` on, which is the first code-point boundary from the place
      requested on. */
  ghost predicate IsLogSuffix(v: View, w: Window, log: seq<Byte>, offset: Option<int>) {
    && v.outputOffset == |log|
    && 0 <= w.truncatedBefore <= v.truncatedBefore <= |log|
    && Encode(v.output) == log[v.truncatedBefore..]
    && (offset.None? ==> v.truncatedBefore == w.truncatedBefore)
    && RequestedFrom(w, offset) <= v.truncatedBefore && AtBoundary(log, v.truncatedBefore)
    && (forall k: nat | RequestedFrom(w, offset) <= k < v.truncatedBefore :: !AtBoundary(log, k))
    && (offset.Some? ==> offset.value <= v.truncatedBefore)
    && (offset.Some? && 0 <= offset.value <= |log| && AtBoundary(log, offset.value) ==>
          v.truncatedBefore == Max(offset.value, w.truncatedBefore))
  }

  /** The loop both `get` and `_append_output` run over continuation bytes. */
  method SkipContinuation(bytes: seq<Byte>, from: nat) returns (index: nat)
    requires from <= |bytes|
    ensures index == NextBoundary(bytes, from)
  {
    index := from;
    while index < |bytes| && IsContinuation(bytes[index])
      invariant from <= index <= |bytes|
      invariant NextBoundary(bytes, index) == NextBoundary(bytes, from)
    {
      index := index + 1;
    }
  }

  /** A job's output state. `emitted` is the ghost log of every byte ever appended. */
  class JobOutput {
    const outputLimit: nat
    var output: seq<Byte>
    var outputOffset: nat
    var truncatedBefore: int
    ghost var emitted: seq<Byte>

    ghost predicate Valid()
      reads this
    {
      Retains(Contents(), emitted, outputLimit)
    }

    ghost function Contents(): Window
      reads this
    {
      Window(output, outputOffset, truncatedBefore)
    }

    constructor (outputLimit: nat)
      ensures Valid() && this.outputLimit == outputLimit
      ensures Contents() == EMPTY_WINDOW && emitted == []
    {
      this.outputLimit := outputLimit;
      output, outputOffset, truncatedBefore := [], 0, 0;
      emitted := [];
    }

    /** `_append_output`: the redactor hands over whole encoded strings, hence `Utf8.Valid`. */
    method Append(value: seq<Byte>)
      requires Valid() && Utf8.Valid(value)
      modifies this
      ensures Valid()
      ensures emitted == old(emitted) + value
      ensures Contents() == Appended(old(Contents()), value, outputLimit)
      ensures old(truncatedBefore) <= truncatedBefore
    {
      hide IsContinuation, Decode, Encode, AtBoundary, Utf8.Valid, NextBoundary, Retains, Appended, Max;
      ghost var w, log := Contents(), emitted;
      AppendRetains(w, log, value, outputLimit);
      AppendedUnfolds(w, value, outputLimit);
      if value == [] {
        NothingAppended(w, log, outputLimit);
      } else {
        output := output + value;
        outputOffset := outputOffset + |value|;
        ghost var all := output;
        var remove := SkipContinuation(output, Max(0, |output| - outputLimit));
        if remove != 0 {
          output := output[remove..];
        }
        assert output == all[remove..];
        truncatedBefore := outputOffset - |output|;
      }
      emitted := emitted + value;
    }

    /** `get`: retained output at or after an absolute offset. */
    method Get(offset: Option<int>) returns (r: GetResult)
      requires Valid()
      ensures r == Answer(Contents(), offset)
    {
      hide Decode;
      if offset.Some? && !(0 <= offset.value <= outputOffset) {
        return InvalidOffset;
      }
      var requested := if offset.None? then truncatedBefore else Max(offset.value, truncatedBefore);
      var index := SkipContinuation(output, requested - truncatedBefore);
      requested := truncatedBefore + index;
      var text := Decode(output[index..]);
      if text.None? {
        return DecodeError;
      }
      r := Got(View(text.value, outputOffset, requested));
    }
  }

  // ----- the poller -----

  /** One answer the poller accepted: `bytes` sit at `start` in the job's log. `trimmedTo` is the
      window's trim point when the answer was made. */
  datatype Piece = Piece(start: nat, bytes: seq<Byte>, trimmedTo: int)

  datatype Event = Emit(text: string) | Poll

  datatype Run = Run(window: Window, position: nat, pieces: seq<Piece>)

  /** `_validate_job_snapshot` (offset arithmetic) and the offset check of `_consume_output`. */
  predicate SnapshotAccepted(v: View, previousOffset: nat) {
    && 0 <= v.truncatedBefore
    && v.outputOffset == v.truncatedBefore + |Encode(v.output)|
    && previousOffset <= v.truncatedBefore
    && previousOffset <= v.outputOffset
  }

  /** One step of agent and poller together; None when the poller rejects an answer. */
  function Step(r: Run, e: Event, limit: nat): Option<Run> {
    match e
    case Emit(text) => Some(r.(window := Appended(r.window, Encode(text), limit)))
    case Poll =>
      var answer := Answer(r.window, Some(r.position));
      if answer.Got? then Take(r, answer.view) else None
  }

  function Take(r: Run, v: View): Option<Run> {
    if !SnapshotAccepted(v, r.position) then None
    else
      var piece := Piece(v.truncatedBefore, Encode(v.output), r.window.truncatedBefore);
      Some(Run(r.window, v.outputOffset, r.pieces + [piece]))
  }

  function Execute(events: seq<Event>, limit: nat): Option<Run> {
    if events == [] then Some(Run(EMPTY_WINDOW, 0, []))
    else
      var before := Execute(events[..|events| - 1], limit);
      if before.None? then None else Step(before.value, events[|events| - 1], limit)
  }

  function Emitted(events: seq<Event>): string {
    if events == [] then ""
    else
      var last := events[|events| - 1];
      Emitted(events[..|events| - 1]) + (if last.Emit? then last.text else "")
  }

  function PieceEnd(pieces: seq<Piece>): nat {
    if pieces == [] then 0
    else pieces[|pieces| - 1].start + |pieces[|pieces| - 1].bytes|
  }

  /** The pieces are the log from 0 to the last piece's end, in order, without overlap; what is
      missing before a piece is exactly the range the window had trimmed by then. */
  ghost predicate Tiles(pieces: seq<Piece>, log: seq<Byte>) {
    pieces == [] ||
    var p := pieces[|pieces| - 1];
    var before := pieces[..|pieces| - 1];
    && Tiles(before, log)
    && p.start == Max(PieceEnd(before), p.trimmedTo)
    && p.start + |p.bytes| <= |log|
    && p.bytes == log[p.start..p.start + |p.bytes|]
  }

  ghost predicate RunInvariant(r: Run, log: seq<Byte>, limit: nat) {
    && Retains(r.window, log, limit)
    && r.position <= |log|
    && AtBoundary(log, r.position)
    && r.position == PieceEnd(r.pieces)
    && Tiles(r.pieces, log)
  }

  lemma SliceOfExtension(log: seq<Byte>, more: seq<Byte>, i: nat, j: nat)
    requires i <= j <= |log|
    ensures (log + more)[i..j] == log[i..j]
  {
  }

  lemma {:induction false} TilesInExtension(pieces: seq<Piece>, log: seq<Byte>, more: seq<Byte>)
    requires Tiles(pieces, log)
    ensures Tiles(pieces, log + more)
  {
    if pieces != [] {
      var p := pieces[|pieces| - 1];
      TilesInExtension(pieces[..|pieces| - 1], log, more);
      SliceOfExtension(log, more, p.start, p.start + |p.bytes|);
    }
  }

  lemma TilesAppended(pieces: seq<Piece>, p: Piece, log: seq<Byte>)
    requires Tiles(pieces, log)
    requires p.start == Max(PieceEnd(pieces), p.trimmedTo)
    requires p.start + |p.bytes| <= |log| && p.bytes == log[p.start..p.start + |p.bytes|]
    ensures Tiles(pieces + [p], log) && PieceEnd(pieces + [p]) == p.start + |p.bytes|
  {
    assert (pieces + [p])[..|pieces + [p]| - 1] == pieces;
  }

  lemma TakeStep(r: Run, v: View, log: seq<Byte>, limit: nat)
    requires RunInvariant(r, log, limit)
    requires 0 <= v.truncatedBefore <= |log| == v.outputOffset
    requires v.truncatedBefore == Max(r.position, r.window.truncatedBefore)
    requires Encode(v.output) == log[v.truncatedBefore..]
    ensures Take(r, v).Some?
    ensures RunInvariant(Take(r, v).value, log, limit) && Take(r, v).value.position == |log|
  {
    hide Encode, Retains, Tiles;
    var start := v.truncatedBefore;
    var piece := Piece(start, Encode(v.output), r.window.truncatedBefore);
    SliceToEnd(log, start);
    TilesAppended(r.pieces, piece, log);
  }

  lemma SliceToEnd(s: seq<Byte>, i: nat)
    requires i <= |s|
    ensures s[i..i + |s[i..]|] == s[i..]
  {
  }

  lemma PollStep(r: Run, log: seq<Byte>, limit: nat)
    requires RunInvariant(r, log, limit)
    ensures Step(r, Poll, limit).Some?
    ensures RunInvariant(Step(r, Poll, limit).value, log, limit)
    ensures Step(r, Poll, limit).value.position == |log|
  {
    AnswerIsLogSuffix(r.window, log, limit, Some(r.position));
    hide Answer, Take, Decode, Encode;
    TakeStep(r, Answer(r.window, Some(r.position)).view, log, limit);
  }

  lemma EmitStep(r: Run, log: seq<Byte>, text: string, limit: nat)
    requires RunInvariant(r, log, limit)
    ensures RunInvariant(Step(r, Emit(text), limit).value, log + Encode(text), limit)
  {
    DecodeOfEncode(text);
    AppendRetains(r.window, log, Encode(text), limit);
    BoundaryInExtension(log, Encode(text), r.position);
    TilesInExtension(r.pieces, log, Encode(text));
  }

  /** In every interleaving of appends, trims and polls no answer is rejected, and the pieces the
      poller took tile the emitted byte stream up to its position. */
  lemma {:induction false} PollerFollowsLog(events: seq<Event>, limit: nat)
    ensures Execute(events, limit).Some?
    ensures RunInvariant(Execute(events, limit).value, Encode(Emitted(events)), limit)
  {
    if events == [] {
      assert Encode("") == [];
    } else {
      var before := events[..|events| - 1];
      PollerFollowsLog(before, limit);
      var r := Execute(before, limit).value;
      var log := Encode(Emitted(before));
      match events[|events| - 1]
      case Emit(text) =>
        EmitStep(r, log, text, limit);
        EncodeConcat(Emitted(before), text);
      case Poll =>
        PollStep(r, log, limit);
        assert Emitted(before) + "" == Emitted(before);
    }
  }

  /** In every run the job retains the longest suffix of its output that the limit and the code-point
      boundaries allow. */
  lemma {:induction false} WindowIsLongestSuffix(events: seq<Event>, limit: nat)
    ensures Execute(events, limit).Some?
    ensures var w, log := Execute(events, limit).value.window, Encode(Emitted(events));
            Retains(w, log, limit) && Longest(w, log, limit)
  {
    PollerFollowsLog(events, limit);
    if events != [] {
      var before := events[..|events| - 1];
      var r, log := Execute(before, limit).value, Encode(Emitted(before));
      PollerFollowsLog(before, limit);
      WindowIsLongestSuffix(before, limit);
      hide Longest, Retains, Encode, Tiles, AtBoundary, Appended, Answer;
      match events[|events| - 1]
      case Emit(text) =>
        DecodeOfEncode(text);
        AppendKeepsLongest(r.window, log, Encode(text), limit);
        EncodeConcat(Emitted(before), text);
      case Poll =>
        assert Emitted(before) + "" == Emitted(before);
    }
  }

  function Joined(pieces: seq<Piece>): seq<Byte> {
    if pieces == [] then [] else Joined(pieces[..|pieces| - 1]) + pieces[|pieces| - 1].bytes
  }

  ghost predicate Untrimmed(pieces: seq<Piece>) {
    pieces == [] || (pieces[|pieces| - 1].trimmedTo == 0 && Untrimmed(pieces[..|pieces| - 1]))
  }

  lemma {:induction false} UntrimmedTiles(pieces: seq<Piece>, log: seq<Byte>)
    requires Tiles(pieces, log) && Untrimmed(pieces)
    ensures PieceEnd(pieces) <= |log| && Joined(pieces) == log[..PieceEnd(pieces)]
  {
    if pieces != [] {
      var before := pieces[..|pieces| - 1];
      UntrimmedTiles(before, log);
      var p := pieces[|pieces| - 1];
      assert log[..p.start] + p.bytes == log[..p.start + |p.bytes|];
    }
  }

  lemma TakeUntrimmed(r: Run, v: View)
    requires r.window.truncatedBefore == 0 && Untrimmed(r.pieces) && SnapshotAccepted(v, r.position)
    ensures Untrimmed(Take(r, v).value.pieces)
  {
    var pieces := Take(r, v).value.pieces;
    assert pieces[..|pieces| - 1] == r.pieces;
  }

  lemma StepUntrimmed(r: Run, e: Event, log: seq<Byte>, limit: nat)
    requires RunInvariant(r, log, limit)
    requires r.window.truncatedBefore == 0 && Untrimmed(r.pieces)
    requires e.Emit? ==> |log + Encode(e.text)| <= limit
    requires Step(r, e, limit).Some?
    ensures var r' := Step(r, e, limit).value;
            r'.window.truncatedBefore == 0 && Untrimmed(r'.pieces)
  {
    match e
    case Emit(text) =>
      DecodeOfEncode(text);
      AppendRetains(r.window, log, Encode(text), limit);
      ValidConcat(log, Encode(text));
      assert AtBoundary(log + Encode(text), 0);
    case Poll =>
      TakeUntrimmed(r, Answer(r.window, Some(r.position)).view);
  }

  lemma {:induction false} NothingTrimmed(events: seq<Event>, limit: nat)
    requires |Encode(Emitted(events))| <= limit
    ensures var r := Execute(events, limit);
            r.Some? && r.value.window.truncatedBefore == 0 && Untrimmed(r.value.pieces)
  {
    PollerFollowsLog(events, limit);
    if events != [] {
      var before := events[..|events| - 1];
      var last := events[|events| - 1];
      EncodeConcat(Emitted(before), if last.Emit? then last.text else "");
      NothingTrimmed(before, limit);
      PollerFollowsLog(before, limit);
      StepUntrimmed(Execute(before, limit).value, last, Encode(Emitted(before)), limit);
    }
  }

  /** A job whose whole output fits the limit reaches the poller byte for byte: after a last poll the
      joined pieces are the entire output, whatever was polled when. */
  lemma LosslessWithinLimit(events: seq<Event>, limit: nat)
    requires |Encode(Emitted(events))| <= limit
    ensures Execute(events + [Poll], limit).Some?
    ensures Joined(Execute(events + [Poll], limit).value.pieces) == Encode(Emitted(events))
  {
    hide Step, Encode, Retains, Tiles, Untrimmed, Execute, Emitted, Joined, AtBoundary;
    var log := Encode(Emitted(events));
    PollerFollowsLog(events, limit);
    NothingTrimmed(events, limit);
    var r := Execute(events, limit).value;
    PollStep(r, log, limit);
    StepUntrimmed(r, Poll, log, limit);
    ExecuteOne(events, Poll, limit);
    UntrimmedTiles(Step(r, Poll, limit).value.pieces, log);
    WholeSlice(log);
  }

  lemma ExecuteOne(events: seq<Event>, e: Event, limit: nat)
    requires Execute(events, limit).Some?
    ensures Execute(events + [e], limit) == Step(Execute(events, limit).value, e, limit)
  {
    hide Step;
    assert (events + [e])[..|events|] == events;
  }

  lemma WholeSlice(s: seq<Byte>)
    ensures s[..|s|] == s
  {
  }

  // ----- what the executor collects -----

  const MAX_STEP_OUTPUT_CHARS: nat := 100_000
  const TRUNCATION_MARKER := "[Earlier Agent output was truncated]\n"

  function Bounded(text: string): string {
    if |text| <= MAX_STEP_OUTPUT_CHARS then text else text[..MAX_STEP_OUTPUT_CHARS]
  }

  datatype ConsumeResult = OffsetInvalid | Consumed(restarted: bool)

  /** The executor's side of one Shell step. `offered` is the ghost text it would have collected
      without a bound. */
  class StepOutput {
    var offset: nat
    var outputParts: seq<string>
    var outputChars: nat
    ghost var offered: string

    ghost function Collected(): string
      reads this
    {
      Concat(outputParts)
    }

    ghost predicate Valid()
      reads this
    {
      Collected() == Bounded(offered) && outputChars == |Collected()|
    }

    constructor ()
      ensures Valid() && Collected() == "" && offset == 0 && offered == ""
    {
      offset, outputParts, outputChars := 0, [], 0;
      offered := "";
    }

    /** `"".join(output_parts)`. */
    method Joined() returns (text: string)
      ensures text == Collected()
    {
      text := "";
      assert outputParts[..0] == [];
      for i := 0 to |outputParts|
        invariant text == Concat(outputParts[..i])
      {
        assert outputParts[..i + 1][..i] == outputParts[..i];
        text := text + outputParts[i];
      }
      assert outputParts[..|outputParts|] == outputParts;
    }

    /** `_append_output` of the executor. */
    method AppendOutput(chunk: string)
      requires Valid()
      modifies this`outputParts, this`outputChars, this`offered
      ensures Valid() && offered == old(offered) + chunk
      ensures |Collected()| <= MAX_STEP_OUTPUT_CHARS
    {
      offered := offered + chunk;
      if chunk == "" || MAX_STEP_OUTPUT_CHARS <= outputChars {
        assert chunk == "" ==> offered == old(offered);
        return;
      }
      var remaining := MAX_STEP_OUTPUT_CHARS - outputChars;
      var bounded := if |chunk| <= remaining then chunk else chunk[..remaining];
      ghost var before := outputParts;
      outputParts := outputParts + [bounded];
      assert outputParts[..|outputParts| - 1] == before;
      outputChars := outputChars + |bounded|;
    }

    /** The marker for a gap, cut to what room is left. */
    method AppendMarker()
      requires Valid()
      modifies this`outputParts, this`outputChars, this`offered
      ensures Valid() && offered == old(offered) + Marker(old(outputChars))
      ensures |Collected()| <= MAX_STEP_OUTPUT_CHARS
    {
      var remaining := MAX_STEP_OUTPUT_CHARS - outputChars;
      var marker := if |TRUNCATION_MARKER| <= remaining then TRUNCATION_MARKER else TRUNCATION_MARKER[..remaining];
      assert marker == Marker(outputChars);
      hide Marker;
      ghost var parts := outputParts;
      outputParts := outputParts + [marker];
      assert outputParts[..|outputParts| - 1] == parts;
      outputChars := outputChars + |marker|;
      offered := offered + marker;
    }

    /** `_consume_output`. The redactor is a parameter: `flushed` is what it gives up when it is
        finished early, `released` what feeding the snapshot (and finishing, on a terminal status)
        yields; a fresh redactor is used when the result says `restarted`. */
    method Consume(v: View, flushed: string, released: string) returns (r: ConsumeResult)
      requires Valid()
      modifies this
      ensures Valid() && |Collected()| <= MAX_STEP_OUTPUT_CHARS
      ensures r.OffsetInvalid? <==> v.truncatedBefore < old(offset) || v.outputOffset < old(offset)
      ensures r.OffsetInvalid? ==> offset == old(offset) && offered == old(offered)
      ensures r.Consumed? ==>
                && offset == v.outputOffset
                && (r.restarted <==> old(offset) < v.truncatedBefore
                                     && |old(Collected())| < MAX_STEP_OUTPUT_CHARS)
                && offered == old(offered)
                     + (if r.restarted then flushed + Marker(|Bounded(old(offered) + flushed)|) else "")
                     + released
    {
      if v.truncatedBefore < offset || v.outputOffset < offset {
        return OffsetInvalid;
      }
      ghost var text := offered;
      ghost var gap := "";
      hide Marker, Concat;
      var restarted := offset < v.truncatedBefore && outputChars < MAX_STEP_OUTPUT_CHARS;
      if restarted {
        AppendOutput(flushed);
        gap := flushed + Marker(outputChars);
        AppendMarker();
        assert offered == text + gap;
      }
      assert offered == text + gap;
      AppendOutput(released);
      offset := v.outputOffset;
      r := Consumed(restarted);
    }

    static function Marker(collected: nat): string
      requires collected <= MAX_STEP_OUTPUT_CHARS
    {
      var remaining := MAX_STEP_OUTPUT_CHARS - collected;
      if |TRUNCATION_MARKER| <= remaining then TRUNCATION_MARKER else TRUNCATION_MARKER[..remaining]
    }
  }
}
