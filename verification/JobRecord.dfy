/** Durable job records: what `_persist` writes and what `_state_from_metadata` accepts. */
module JobRecord {
  import opened Basics
  import opened Utf8
  import opened OutputWindow

  /** A parsed JSON value. */
  datatype Json =
    | JNull
    | JBool(flag: bool)
    | JInt(number: int)
    | JFloat(value: real)
    | JString(text: string)
    | JArray(items: seq<Json>)
    | JObject(fields: map<string, Json>)

  datatype Status = Queued | Running | Succeeded | Failed | TimedOut | Cancelled

  datatype Phase = Prepared | Ready

  datatype Identity = Identity(pid: int, processGroup: Option<int>, sessionId: Option<int>,
                               startTimeTicks: Option<int>, bootId: Option<string>, recoveryToken: string)

  /** The durable part of `_JobState`. */
  datatype Job = Job(id: string, status: Status, output: seq<Byte>, outputOffset: int, truncatedBefore: int,
                     exitCode: Option<int>, started: Option<real>, finished: Option<real>,
                     error: Option<string>, identity: Option<Identity>, launchPhase: Option<Phase>,
                     recoveryToken: Option<string>)

  const MAX_ERROR_BYTES: nat := 512
  const INTERRUPTED := "interrupted by agent restart"

  predicate Terminal(s: Status) {
    s.Succeeded? || s.Failed? || s.TimedOut? || s.Cancelled?
  }

  function StatusText(s: Status): string {
    match s
    case Queued => "queued"
    case Running => "running"
    case Succeeded => "succeeded"
    case Failed => "failed"
    case TimedOut => "timed_out"
    case Cancelled => "cancelled"
  }

  function ParseStatus(v: Json): Option<Status> {
    if v == JString("queued") then Some(Queued)
    else if v == JString("running") then Some(Running)
    else if v == JString("succeeded") then Some(Succeeded)
    else if v == JString("failed") then Some(Failed)
    else if v == JString("timed_out") then Some(TimedOut)
    else if v == JString("cancelled") then Some(Cancelled)
    else None
  }

  predicate IsAscii(s: string) {
    forall c | c in s :: c as int < 128
  }

  // ----- writing -----

  function IntOrNull(v: Option<int>): Json {
    if v.None? then JNull else JInt(v.value)
  }

  function FloatOrNull(v: Option<real>): Json {
    if v.None? then JNull else JFloat(v.value)
  }

  function StringOrNull(v: Option<string>): Json {
    if v.None? then JNull else JString(v.value)
  }

  function IdentityRecord(i: Identity): Json {
    JObject(map["pid" := JInt(i.pid), "process_group" := IntOrNull(i.processGroup),
                "session_id" := IntOrNull(i.sessionId), "start_time_ticks" := IntOrNull(i.startTimeTicks),
                "boot_id" := StringOrNull(i.bootId), "recovery_token" := JString(i.recoveryToken)])
  }

  function LaunchRecord(phase: Option<Phase>, token: Option<string>): Json {
    if phase.None? || token.None? then JNull
    else JObject(map["phase" := JString(if phase.value.Prepared? then "prepared" else "ready"),
                     "recovery_token" := JString(token.value)])
  }

  /** `_persist`'s metadata object. */
  function Metadata(j: Job): Json
    requires Valid(j.output)
  {
    JObject(map["job_id" := JString(j.id), "status" := JString(StatusText(j.status)),
                "output" := JString(Decode(j.output).value), "output_offset" := JInt(j.outputOffset),
                "truncated_before" := JInt(j.truncatedBefore), "exit_code" := IntOrNull(j.exitCode),
                "started" := FloatOrNull(j.started), "finished" := FloatOrNull(j.finished),
                "error" := StringOrNull(j.error),
                "process_identity" := if j.identity.None? then JNull else IdentityRecord(j.identity.value),
                "launch" := LaunchRecord(j.launchPhase, j.recoveryToken)])
  }

  // ----- reading -----

  /** `data.get(key)`. */
  function Get(fields: map<string, Json>, key: string): Json {
    if key in fields then fields[key] else JNull
  }

  /** A parsed field, the rejection of the whole record, or an exception that the loading loop does not
      catch. */
  datatype Parsed<+T> = Rejected | Raised | Accepted(value: T)

  function Power2(k: nat): nat {
    if k == 0 then 1 else 2 * Power2(k - 1)
  }

  /** The least integer that `float` cannot convert: halfway from the largest double to 2^1024. */
  const FLOAT_OVERFLOW: int := Power2(1024) - Power2(970)

  function ParsePositive(v: Json): (r: Parsed<Option<int>>)
    ensures !r.Raised?
  {
    if v.JNull? then Accepted(None)
    else if v.JInt? && 0 < v.number then Accepted(Some(v.number))
    else Rejected
  }

  /** A boolean counts as a number here. */
  function ParseTime(v: Json): Parsed<Option<real>> {
    match v
    case JNull => Accepted(None)
    case JBool(flag) => Accepted(Some(if flag then 1.0 else 0.0))
    case JInt(n) => if -FLOAT_OVERFLOW < n < FLOAT_OVERFLOW then Accepted(Some(n as real)) else Raised
    case JFloat(x) => Accepted(Some(x))
    case _ => Rejected
  }

  function ParseExit(v: Json): (r: Parsed<Option<int>>)
    ensures !r.Raised?
  {
    match v
    case JNull => Accepted(None)
    case JInt(n) => Accepted(Some(n))
    case _ => Rejected
  }

  function ParseError(v: Json): (r: Parsed<Option<string>>)
    ensures !r.Raised?
  {
    match v
    case JNull => Accepted(None)
    case JString(s) => if |Encode(s)| <= MAX_ERROR_BYTES then Accepted(Some(s)) else Rejected
    case _ => Rejected
  }

  function ParseBootId(v: Json): (r: Parsed<Option<string>>)
    ensures !r.Raised?
  {
    match v
    case JNull => Accepted(None)
    case JString(s) => if 1 <= |s| <= 128 then Accepted(Some(s)) else Rejected
    case _ => Rejected
  }

  predicate TokenAccepted(v: Json, least: nat) {
    v.JString? && least <= |v.text| <= 128 && IsAscii(v.text)
  }

  function ParseIdentity(v: Json): (r: Parsed<Option<Identity>>)
    ensures !r.Raised?
  {
    if v.JNull? then Accepted(None)
    else if !v.JObject? || v.fields.Keys != {"pid", "process_group", "session_id", "start_time_ticks",
                                             "boot_id", "recovery_token"} then Rejected
    else
      var f := v.fields;
      var group, session := ParsePositive(f["process_group"]), ParsePositive(f["session_id"]);
      var ticks, boot := ParsePositive(f["start_time_ticks"]), ParseBootId(f["boot_id"]);
      if !f["pid"].JInt? || f["pid"].number <= 0 || group.Rejected? || session.Rejected? || ticks.Rejected?
         || boot.Rejected? || !TokenAccepted(f["recovery_token"], 16) then Rejected
      else Accepted(Some(Identity(f["pid"].number, group.value, session.value, ticks.value, boot.value,
                                  f["recovery_token"].text)))
  }

  function ParseLaunch(v: Json): (r: Parsed<(Option<Phase>, Option<string>)>)
    ensures !r.Raised?
  {
    if v.JNull? then Accepted((None, None))
    else if !v.JObject? || v.fields.Keys != {"phase", "recovery_token"} then Rejected
    else
      var phase, token := v.fields["phase"], v.fields["recovery_token"];
      if (phase != JString("prepared") && phase != JString("ready")) || !TokenAccepted(token, 32) then Rejected
      else Accepted((Some(if phase == JString("prepared") then Prepared else Ready), Some(token.text)))
  }

  /** `_state_from_metadata`. */
  function FromMetadata(jobId: string, data: Json, outputLimit: nat): Parsed<Job> {
    if !data.JObject? || Get(data.fields, "job_id") != JString(jobId) then Rejected
    else
      var f := data.fields;
      var status, output := ParseStatus(Get(f, "status")), Get(f, "output");
      var offset, truncated := Get(f, "output_offset"), Get(f, "truncated_before");
      if status.None? || !output.JString? || !offset.JInt? || !truncated.JInt? then Rejected
      else
        var encoded := Encode(output.text);
        if outputLimit < |encoded| || truncated.number < 0 || offset.number != truncated.number + |encoded|
        then Rejected
        else
          var exitCode, error := ParseExit(Get(f, "exit_code")), ParseError(Get(f, "error"));
          var started, finished := ParseTime(Get(f, "started")), ParseTime(Get(f, "finished"));
          var identity := ParseIdentity(Get(f, "process_identity"));
          var launch := ParseLaunch(Get(f, "launch"));
          if identity.Rejected? || launch.Rejected? || exitCode.Rejected? || started.Rejected?
             || finished.Rejected? || error.Rejected? then Rejected
          else if started.Raised? || finished.Raised? then Raised
          else Accepted(Job(jobId, status.value, encoded, offset.number, truncated.number, exitCode.value,
                            started.value, finished.value, error.value, identity.value, launch.value.0,
                            launch.value.1))
  }

  // ----- round trip -----

  predicate PositiveIfSome(v: Option<int>) {
    v.Some? ==> 0 < v.value
  }

  predicate IdentityWellFormed(i: Identity) {
    && 0 < i.pid
    && PositiveIfSome(i.processGroup) && PositiveIfSome(i.sessionId) && PositiveIfSome(i.startTimeTicks)
    && (i.bootId.Some? ==> 1 <= |i.bootId.value| <= 128)
    && 16 <= |i.recoveryToken| <= 128 && IsAscii(i.recoveryToken)
  }

  /** What every durable record keeps: a decodable window within the limit, a bounded error, and
      launch data that is all there or not there. */
  predicate WellFormed(j: Job, outputLimit: nat) {
    && Valid(j.output)
    && |j.output| <= outputLimit
    && 0 <= j.truncatedBefore && j.outputOffset == j.truncatedBefore + |j.output|
    && (j.error.Some? ==> |Encode(j.error.value)| <= MAX_ERROR_BYTES)
    && (j.identity.Some? ==> IdentityWellFormed(j.identity.value))
    && (j.launchPhase.Some? <==> j.recoveryToken.Some?)
    && (j.recoveryToken.Some? ==> 32 <= |j.recoveryToken.value| <= 128 && IsAscii(j.recoveryToken.value))
  }

  lemma IdentityRoundTrip(i: Identity)
    ensures IdentityWellFormed(i) ==> ParseIdentity(IdentityRecord(i)) == Accepted(Some(i))
    ensures !IdentityWellFormed(i) ==> ParseIdentity(IdentityRecord(i)) == Rejected
  {
    var f := IdentityRecord(i).fields;
    assert f.Keys == {"pid", "process_group", "session_id", "start_time_ticks", "boot_id", "recovery_token"};
  }

  lemma NoIdentityRoundTrip()
    ensures ParseIdentity(JNull) == Accepted(None)
  {
  }

  lemma LaunchRoundTrip(phase: Option<Phase>, token: Option<string>)
    requires phase.Some? <==> token.Some?
    requires token.Some? ==> 32 <= |token.value| <= 128 && IsAscii(token.value)
    ensures ParseLaunch(LaunchRecord(phase, token)) == Accepted((phase, token))
  {
    if token.Some? {
      var f := LaunchRecord(phase, token).fields;
      assert f.Keys == {"phase", "recovery_token"};
    }
  }

  lemma StatusRoundTrip(s: Status)
    ensures ParseStatus(JString(StatusText(s))) == Some(s)
  {
  }

  /** Everything `_persist` can write is read back as it was: window, offsets, identity, phase. */
  lemma PersistLoadRoundTrip(j: Job, outputLimit: nat)
    requires WellFormed(j, outputLimit)
    ensures FromMetadata(j.id, Metadata(j), outputLimit) == Accepted(j)
  {
    hide Encode, Decode, ParseStatus, StatusText, ParseIdentity, IdentityRecord, ParseLaunch, LaunchRecord,
         IdentityWellFormed, IsAscii, Metadata, Get, ParseExit, ParseTime, ParseError, IntOrNull, FloatOrNull, StringOrNull;
    EncodeOfDecode(j.output);
    StatusRoundTrip(j.status);
    LaunchRoundTrip(j.launchPhase, j.recoveryToken);
    if j.identity.Some? {
      IdentityRoundTrip(j.identity.value);
    } else {
      NoIdentityRoundTrip();
    }
    MetadataOutputFields(j);
    MetadataOtherFields(j);
    PlainFieldsRoundTrip(j.exitCode, j.started, j.error);
    PlainFieldsRoundTrip(j.exitCode, j.finished, j.error);
  }

  lemma PlainFieldsRoundTrip(exitCode: Option<int>, at: Option<real>, error: Option<string>)
    ensures ParseExit(IntOrNull(exitCode)) == Accepted(exitCode)
    ensures ParseTime(FloatOrNull(at)) == Accepted(at)
    ensures (error.Some? ==> |Encode(error.value)| <= MAX_ERROR_BYTES) ==> ParseError(StringOrNull(error)) == Accepted(error)
  {
    hide Encode;
  }

  lemma MetadataOutputFields(j: Job)
    requires Valid(j.output)
    ensures Metadata(j).JObject?
    ensures Get(Metadata(j).fields, "job_id") == JString(j.id)
    ensures Get(Metadata(j).fields, "status") == JString(StatusText(j.status))
    ensures Get(Metadata(j).fields, "output") == JString(Decode(j.output).value)
    ensures Get(Metadata(j).fields, "output_offset") == JInt(j.outputOffset)
    ensures Get(Metadata(j).fields, "truncated_before") == JInt(j.truncatedBefore)
  {
    hide Decode, StatusText, IdentityRecord, LaunchRecord;
  }

  lemma MetadataOtherFields(j: Job)
    requires Valid(j.output)
    ensures Get(Metadata(j).fields, "exit_code") == IntOrNull(j.exitCode)
    ensures Get(Metadata(j).fields, "started") == FloatOrNull(j.started)
    ensures Get(Metadata(j).fields, "finished") == FloatOrNull(j.finished)
    ensures Get(Metadata(j).fields, "error") == StringOrNull(j.error)
    ensures Get(Metadata(j).fields, "process_identity")
         == if j.identity.None? then JNull else IdentityRecord(j.identity.value)
    ensures Get(Metadata(j).fields, "launch") == LaunchRecord(j.launchPhase, j.recoveryToken)
  {
    hide Decode, StatusText, IdentityRecord, LaunchRecord;
  }

  lemma ParsedIdentityWellFormed(v: Json)
    requires ParseIdentity(v).Accepted? && ParseIdentity(v).value.Some?
    ensures IdentityWellFormed(ParseIdentity(v).value.value)
  {
  }

  /** Whatever record the agent accepts, even one it did not write, restores a well-formed job. */
  lemma LoadedIsWellFormed(jobId: string, data: Json, outputLimit: nat)
    requires FromMetadata(jobId, data, outputLimit).Accepted?
    ensures WellFormed(FromMetadata(jobId, data, outputLimit).value, outputLimit)
    ensures FromMetadata(jobId, data, outputLimit).value.id == jobId
  {
    var f := data.fields;
    DecodeOfEncode(Get(f, "output").text);
    var identity := ParseIdentity(Get(f, "process_identity"));
    if identity.Accepted? && identity.value.Some? {
      ParsedIdentityWellFormed(Get(f, "process_identity"));
    }
    hide Encode, Decode, ParseStatus, ParseIdentity, IdentityWellFormed, IsAscii;
  }

  // ----- the life of a job -----

  /** The state changes of `_run`, `_append_output` and `_finish`, in the order the worker can make
      them. */
  datatype Change =
    | Start(at: real)
    | Prepare(token: string)
    | PreparationFailed(at: real, reason: string)
    | MarkReady(identity: Identity)
    | Append(value: seq<Byte>)
    | Finish(status: Status, exitCode: Option<int>, at: real, error: Option<string>)

  /** What the surrounding code guarantees about each change: tokens are 43 URL-safe characters, a
      captured identity carries positive numbers, appended bytes are encoded text, errors come from
      `_bounded_error`, and a job is made ready only after it was prepared and before it ended. */
  ghost predicate Enabled(j: Job, c: Change) {
    match c
    case Start(_) => j.status.Queued?
    case Prepare(token) => j.status.Queued? && |token| == 43 && IsAscii(token)
    case PreparationFailed(_, error) => j.status.Queued? && |Encode(error)| <= MAX_ERROR_BYTES
    case MarkReady(identity) => j.status.Queued? && j.launchPhase == Some(Prepared) && IdentityWellFormed(identity)
    case Append(value) => Valid(value)
    case Finish(status, _, _, error) =>
      Terminal(status) && (error.Some? ==> |Encode(error.value)| <= MAX_ERROR_BYTES)
  }

  function Apply(j: Job, c: Change, outputLimit: nat): Job {
    match c
    case Start(at) => j.(started := Some(at))
    case Prepare(token) => j.(launchPhase := Some(Prepared), recoveryToken := Some(token))
    case PreparationFailed(at, error) => j.(status := Failed, finished := Some(at), error := Some(error))
    case MarkReady(identity) => j.(identity := Some(identity), status := Running, launchPhase := Some(Ready))
    case Append(value) =>
      var w := Appended(Window(j.output, if j.outputOffset < 0 then 0 else j.outputOffset, j.truncatedBefore),
                        value, outputLimit);
      j.(output := w.output, outputOffset := w.outputOffset, truncatedBefore := w.truncatedBefore)
    case Finish(status, exitCode, at, error) =>
      if Terminal(j.status) then j
      else j.(status := status, exitCode := exitCode, finished := Some(at), error := error)
  }

  function NewJob(id: string): Job {
    Job(id, Queued, [], 0, 0, None, None, None, None, None, None, None)
  }

  ghost predicate Runs(j: Job, changes: seq<Change>, outputLimit: nat)
    decreases |changes|
  {
    changes == [] || (Enabled(j, changes[0]) && Runs(Apply(j, changes[0], outputLimit), changes[1..], outputLimit))
  }

  function After(j: Job, changes: seq<Change>, outputLimit: nat): Job
    decreases |changes|
  {
    if changes == [] then j else After(Apply(j, changes[0], outputLimit), changes[1..], outputLimit)
  }

  lemma AppendWellFormed(j: Job, value: seq<Byte>, outputLimit: nat)
    requires WellFormed(j, outputLimit) && Valid(value)
    ensures WellFormed(Apply(j, Append(value), outputLimit), outputLimit)
  {
    hide Encode, Decode, IdentityWellFormed, IsAscii;
    if value != [] {
      ValidConcat(j.output, value);
      var all := j.output + value;
      ValidCut(all, NextBoundary(all, Max(0, |all| - outputLimit)));
    }
  }

  lemma ApplyWellFormed(j: Job, c: Change, outputLimit: nat)
    requires WellFormed(j, outputLimit) && Enabled(j, c)
    ensures WellFormed(Apply(j, c, outputLimit), outputLimit)
    ensures Apply(j, c, outputLimit).id == j.id
  {
    if c.Append? {
      AppendWellFormed(j, c.value, outputLimit);
    }
    hide Encode, Decode, IdentityWellFormed, IsAscii;
  }

  /** Terminal status is absorbing: nothing the worker does later changes how the job ended. */
  lemma {:induction false} TerminalIsFinal(j: Job, changes: seq<Change>, outputLimit: nat)
    requires Terminal(j.status) && Runs(j, changes, outputLimit)
    ensures var k := After(j, changes, outputLimit);
            k.status == j.status && k.exitCode == j.exitCode && k.error == j.error && k.finished == j.finished
    decreases |changes|
  {
    hide Encode, Decode;
    if changes != [] {
      TerminalIsFinal(Apply(j, changes[0], outputLimit), changes[1..], outputLimit);
    }
  }

  predicate Ends(c: Change) {
    c.Finish? || c.PreparationFailed?
  }

  /** How a job is left by a change that ends it. */
  predicate EndedBy(j: Job, c: Change) {
    match c
    case Finish(status, exitCode, at, error) =>
      j.status == status && j.exitCode == exitCode && j.finished == Some(at) && j.error == error
    case PreparationFailed(at, error) =>
      j.status == Failed && j.exitCode == None && j.finished == Some(at) && j.error == Some(error)
    case _ => false
  }

  predicate Untouched(j: Job) {
    !Terminal(j.status) && j.exitCode == None && j.finished == None && j.error == None
  }

  /** The first change that ends a job decides how it ended, whatever comes later; a job without one has no
      end. */
  lemma {:induction false} FirstEndDecides(j: Job, changes: seq<Change>, i: nat, outputLimit: nat)
    requires Untouched(j) && Runs(j, changes, outputLimit)
    requires i <= |changes| && forall k | 0 <= k < i :: !Ends(changes[k])
    ensures i == |changes| ==> Untouched(After(j, changes, outputLimit))
    ensures i < |changes| && Ends(changes[i]) ==> EndedBy(After(j, changes, outputLimit), changes[i])
    decreases |changes|
  {
    hide Encode, Decode, Appended, IdentityWellFormed, IsAscii;
    if changes != [] {
      var next := Apply(j, changes[0], outputLimit);
      if i == 0 {
        if Ends(changes[0]) {
          TerminalIsFinal(next, changes[1..], outputLimit);
        }
      } else {
        FirstEndDecides(next, changes[1..], i - 1, outputLimit);
      }
    }
  }

  /** Until then a job is running exactly when it was made ready, and keeps the process it was made ready
      with. */
  lemma {:induction false} RunningOnceReady(j: Job, changes: seq<Change>, outputLimit: nat)
    requires Runs(j, changes, outputLimit) && (j.status.Queued? || j.status.Running?)
    requires forall c | c in changes :: !Ends(c)
    ensures var k, ready := After(j, changes, outputLimit), exists c :: c in changes && c.MarkReady?;
            && k.status == (if ready then Running else j.status)
            && (!ready ==> k.identity == j.identity)
            && (forall c | c in changes && c.MarkReady? ::
                  j.status.Queued? && k.identity == Some(c.identity) && k.launchPhase == Some(Ready))
            && (j.status.Running? ==> k.launchPhase == j.launchPhase)
    decreases |changes|
  {
    hide Encode, Decode, Appended, IdentityWellFormed, IsAscii;
    if changes != [] {
      var c, rest := changes[0], changes[1..];
      assert c in changes && forall d :: d in changes <==> d == c || d in rest;
      RunningOnceReady(Apply(j, c, outputLimit), rest, outputLimit);
    }
  }

  lemma {:induction false} RunsWellFormed(j: Job, changes: seq<Change>, outputLimit: nat)
    requires WellFormed(j, outputLimit) && Runs(j, changes, outputLimit)
    ensures WellFormed(After(j, changes, outputLimit), outputLimit)
    ensures After(j, changes, outputLimit).id == j.id
    decreases |changes|
  {
    hide WellFormed, Enabled, Apply;
    if changes != [] {
      ApplyWellFormed(j, changes[0], outputLimit);
      RunsWellFormed(Apply(j, changes[0], outputLimit), changes[1..], outputLimit);
    }
  }

  // ----- bounded error text -----

  /** `bytes.decode("utf-8", errors="ignore")`. */
  function DecodeIgnoring(bytes: seq<Byte>): string {
    if bytes == [] then ""
    else
      var first := DecodeFirst(bytes);
      if first.None? then DecodeIgnoring(bytes[1..])
      else
        DecodeFirstSound(bytes);
        [first.value] + DecodeIgnoring(bytes[|EncodeChar(first.value)|..])
  }

  lemma {:induction false} DecodeIgnoringEncoded(s: string, tail: seq<Byte>)
    ensures DecodeIgnoring(Encode(s) + tail) == s + DecodeIgnoring(tail)
  {
    if s == "" {
      assert Encode(s) + tail == tail && s + DecodeIgnoring(tail) == DecodeIgnoring(tail);
    } else {
      var rest := Encode(s[1..]) + tail;
      DecodeFirstOfEncoded(s[0], rest);
      DecodeIgnoringEncoded(s[1..], tail);
      hide Encode, EncodeChar;
      EncodeCons(s[0], s[1..]);
      assert [s[0]] + s[1..] == s;
      ConcatAssociative(EncodeChar(s[0]), Encode(s[1..]), tail);
      DropFirst(EncodeChar(s[0]), rest);
      ConcatAssociative([s[0]], s[1..], DecodeIgnoring(tail));
    }
  }

  lemma DropFirst(a: seq<Byte>, b: seq<Byte>)
    ensures (a + b)[|a|..] == b
  {
  }

  lemma LoneLeadIgnored(b: Byte)
    requires !IsContinuation(b) && !(0 <= b < 0x80)
    ensures DecodeIgnoring([b]) == ""
  {
    assert [b][1..] == [];
  }

  /** Among any four consecutive bytes of an encoding one starts a code point. */
  lemma {:induction false} BoundaryWithinFour(s: string, i: nat)
    requires i + 4 <= |Encode(s)|
    ensures exists j | i <= j < i + 4 :: !IsContinuation(Encode(s)[j])
  {
    if s != "" {
      var head, tail := EncodeChar(s[0]), Encode(s[1..]);
      assert Encode(s) == head + tail;
      if |head| <= i {
        BoundaryWithinFour(s[1..], i - |head|);
        var j :| i - |head| <= j < i - |head| + 4 && !IsContinuation(tail[j]);
        assert Encode(s)[j + |head|] == tail[j];
      } else if i == 0 {
        assert Encode(s)[0] == head[0];
      } else {
        assert tail != [];
        assert s[1..] != "";
        assert Encode(s)[|head|] == tail[0] == EncodeChar(s[1])[0];
      }
    }
  }

  /** `_bounded_error` on already redacted text: a prefix of it, of at most 512 bytes and, when
      something was cut, of at least 508. */
  method BoundedError(value: string) returns (r: string)
    ensures r <= value && |Encode(r)| <= MAX_ERROR_BYTES
    ensures |Encode(value)| <= MAX_ERROR_BYTES ==> r == value
    ensures MAX_ERROR_BYTES < |Encode(value)| ==> MAX_ERROR_BYTES - 4 <= |Encode(r)|
  {
    var encoded := Encode(value);
    if |encoded| <= MAX_ERROR_BYTES {
      return value;
    }
    BoundaryWithinFour(value, MAX_ERROR_BYTES - 4);
    hide Encode, DecodeIgnoring;
    ghost var whole := encoded;
    var length := MAX_ERROR_BYTES;
    encoded := encoded[..MAX_ERROR_BYTES];
    while encoded != [] && IsContinuation(encoded[|encoded| - 1])
      invariant |encoded| <= MAX_ERROR_BYTES && encoded == whole[..|encoded|]
      invariant forall j | |encoded| <= j < MAX_ERROR_BYTES :: IsContinuation(whole[j])
    {
      encoded := encoded[..|encoded| - 1];
    }
    var k := TrimmedDecodes(value, |encoded|);
    r := DecodeIgnoring(encoded);
  }

  /** Decoding a prefix that ends right after the first byte of a code point. */
  lemma TrimmedDecodes(value: string, n: nat) returns (k: nat)
    requires 0 < n <= |Encode(value)| && !IsContinuation(Encode(value)[n - 1])
    ensures k <= |value| && DecodeIgnoring(Encode(value)[..n]) == value[..k]
    ensures n - 1 <= |Encode(value[..k])| <= n
  {
    var cut := CutAtBoundary(value, n - 1);
    TrimmedAt(value, cut, n);
    k := if 0 <= Encode(value)[n - 1] < 0x80 then cut + 1 else cut;
  }

  lemma TrimmedAt(value: string, cut: nat, n: nat)
    requires cut <= |value| && 0 < n <= |Encode(value)| && !IsContinuation(Encode(value)[n - 1])
    requires Encode(value[..cut]) == Encode(value)[..n - 1] && Encode(value[cut..]) == Encode(value)[n - 1..]
    ensures var k := if 0 <= Encode(value)[n - 1] < 0x80 then cut + 1 else cut;
            && k <= |value| && DecodeIgnoring(Encode(value)[..n]) == value[..k]
            && n - 1 <= |Encode(value[..k])| <= n
  {
    var bytes, last := Encode(value), Encode(value)[n - 1];
    hide DecodeIgnoring, Encode, EncodeChar, Decode;
    TakeOneMore(bytes, n);
    DecodeIgnoringEncoded(value[..cut], [last]);
    if 0 <= last < 0x80 {
      FirstByteOfRest(value, cut, n - 1);
      LoneAscii(value[cut]);
      TakeOneMore(value, cut + 1);
      EncodeConcat(value[..cut], [value[cut]]);
    } else {
      LoneLeadIgnored(last);
      assert value[..cut] + "" == value[..cut];
    }
  }

  lemma TakeOneMore<T>(s: seq<T>, n: nat)
    requires 0 < n <= |s|
    ensures s[..n] == s[..n - 1] + [s[n - 1]]
  {
  }

  lemma LoneAscii(c: char)
    requires c as int < 0x80
    ensures DecodeIgnoring([c as int]) == [c] && |Encode([c])| == 1
  {
    assert DecodeFirst([c as int]) == Some(c) && EncodeChar(c) == [c as int];
    assert [c as int][1..] == [];
    assert [c][1..] == "";
  }

  lemma FirstByteOfRest(value: string, cut: nat, i: nat)
    requires cut <= |value| && i < |Encode(value)|
    requires Encode(value[cut..]) == Encode(value)[i..] && 0 <= Encode(value)[i] < 0x80
    ensures cut < |value| && value[cut] as int == Encode(value)[i]
  {
    assert Encode(value[cut..])[0] == Encode(value)[i];
    assert value[cut..] != "";
    assert EncodeChar(value[cut])[0] == Encode(value)[i];
  }
}
