/** One authenticated exchange: what `AgentServer.handle` answers, what the manager's client makes of
    it (`_validate_response`, `_validate_output_limit`), and how large a job reply can get. */
module AgentExchange {
  import opened Basics
  import opened Utf8
  import opened JsonText
  import Framing
  import JobRecord
  import Replay

  const PROTOCOL_VERSION := 1
  const SIGNATURE_LENGTH: nat := 64
  const MAX_RESPONSE_AGE := 30
  const MAX_ERROR_MESSAGE_LENGTH: nat := 1024

  // ----- the client's output limit -----

  /** The bytes of every string stored under an "output" key, anywhere in the value. */
  function OutputBytes(v: Wire): nat {
    match v
    case JArray(items) => OutputBytesOfItems(items)
    case JObject(entries) => OutputBytesOfEntries(entries)
    case _ => 0
  }

  function OutputBytesOfItems(items: seq<Wire>): nat {
    if items == [] then 0 else OutputBytes(items[0]) + OutputBytesOfItems(items[1..])
  }

  function OutputBytesOfEntries(entries: seq<Entry>): nat {
    if entries == [] then 0
    else
      var Entry(key, value) := entries[0];
      (if key == "output" then (if value.JString? then |Encode(value.text)| else 0) else OutputBytes(value))
      + OutputBytesOfEntries(entries[1..])
  }

  /** Everything stored under an "output" key is a string. */
  predicate OutputsAreText(v: Wire) {
    match v
    case JArray(items) => ItemsAreText(items)
    case JObject(entries) => EntriesAreText(entries)
    case _ => true
  }

  predicate ItemsAreText(items: seq<Wire>) {
    items == [] || (OutputsAreText(items[0]) && ItemsAreText(items[1..]))
  }

  predicate EntriesAreText(entries: seq<Entry>) {
    entries == [] ||
    var Entry(key, value) := entries[0];
    (if key == "output" then value.JString? else OutputsAreText(value)) && EntriesAreText(entries[1..])
  }

  /** The accepted results: string outputs only, together within the limit. */
  predicate OutputsFit(v: Wire, limit: nat) {
    OutputsAreText(v) && OutputBytes(v) <= limit
  }

  function Size(v: Wire): nat {
    match v
    case JArray(items) => 1 + SizeOfItems(items)
    case JObject(entries) => 1 + SizeOfEntries(entries)
    case _ => 1
  }

  function SizeOfItems(items: seq<Wire>): nat {
    if items == [] then 0 else Size(items[0]) + SizeOfItems(items[1..])
  }

  function SizeOfEntries(entries: seq<Entry>): nat {
    if entries == [] then 0 else Size(entries[0].value) + SizeOfEntries(entries[1..])
  }

  lemma {:induction false} ItemsOfConcat(a: seq<Wire>, b: seq<Wire>)
    ensures OutputBytesOfItems(a + b) == OutputBytesOfItems(a) + OutputBytesOfItems(b)
    ensures ItemsAreText(a + b) <==> ItemsAreText(a) && ItemsAreText(b)
    ensures SizeOfItems(a + b) == SizeOfItems(a) + SizeOfItems(b)
  {
    if a == [] {
      assert a + b == b;
    } else {
      ItemsOfConcat(a[1..], b);
      assert (a + b)[0] == a[0] && (a + b)[1..] == a[1..] + b;
    }
  }

  lemma SingleItem(v: Wire)
    ensures OutputBytesOfItems([v]) == OutputBytes(v)
    ensures ItemsAreText([v]) <==> OutputsAreText(v)
    ensures SizeOfItems([v]) == Size(v)
  {
    assert [v][1..] == [];
  }

  /** Taking the last item off the stack. */
  lemma StackPopped(stack: seq<Wire>)
    requires stack != []
    ensures var top, below := stack[|stack| - 1], stack[..|stack| - 1];
            && OutputBytesOfItems(stack) == OutputBytesOfItems(below) + OutputBytes(top)
            && (ItemsAreText(stack) <==> ItemsAreText(below) && OutputsAreText(top))
            && SizeOfItems(stack) == SizeOfItems(below) + Size(top)
  {
    var top, below := stack[|stack| - 1], stack[..|stack| - 1];
    assert stack == below + [top];
    ItemsOfConcat(below, [top]);
    SingleItem(top);
  }

  lemma StackPushed(stack: seq<Wire>, v: Wire)
    ensures OutputBytesOfItems(stack + [v]) == OutputBytesOfItems(stack) + OutputBytes(v)
    ensures ItemsAreText(stack + [v]) <==> ItemsAreText(stack) && OutputsAreText(v)
    ensures SizeOfItems(stack + [v]) == SizeOfItems(stack) + Size(v)
  {
    ItemsOfConcat(stack, [v]);
    SingleItem(v);
  }

  /** `_validate_output_limit`: the stack walk accepts exactly when the recursive sum fits. */
  method ValidateOutputLimit(result: Wire, limit: nat) returns (ok: bool)
    ensures ok <==> OutputsFit(result, limit)
  {
    var total: nat := 0;
    var stack := [result];
    SingleItem(result);
    hide OutputBytesOfItems, ItemsAreText, SizeOfItems, Encode;
    while stack != []
      invariant total <= limit
      invariant total + OutputBytesOfItems(stack) == OutputBytes(result)
      invariant OutputsAreText(result) <==> ItemsAreText(stack)
      decreases SizeOfItems(stack)
    {
      var current := stack[|stack| - 1];
      StackPopped(stack);
      stack := stack[..|stack| - 1];
      match current {
        case JObject(entries) =>
          var walked: bool;
          total, stack, walked := WalkEntries(entries, stack, total, limit);
          if !walked {
            return false;
          }
        case JArray(items) =>
          ItemsOfConcat(stack, items);
          stack := stack + items;
        case _ =>
      }
    }
    EmptyStack();
    ok := true;
  }

  lemma EmptyStack()
    ensures OutputBytesOfItems([]) == 0 && ItemsAreText([]) && SizeOfItems([]) == 0
  {
  }

  /** The entries of one object: count its own outputs, push everything else. */
  method WalkEntries(entries: seq<Entry>, below: seq<Wire>, before: nat, limit: nat)
    returns (total: nat, stack: seq<Wire>, ok: bool)
    requires before <= limit
    ensures !ok ==> !EntriesAreText(entries) || limit < before + OutputBytesOfEntries(entries)
    ensures ok ==>
              && total <= limit
              && total + OutputBytesOfItems(stack)
                 == before + OutputBytesOfItems(below) + OutputBytesOfEntries(entries)
              && (ItemsAreText(stack) <==> ItemsAreText(below) && EntriesAreText(entries))
              && SizeOfItems(stack) <= SizeOfItems(below) + SizeOfEntries(entries)
  {
    total, stack := before, below;
    hide OutputBytes, OutputBytesOfItems, ItemsAreText, OutputsAreText, Size, SizeOfItems, Encode;
    ghost var rest := entries;
    var i := 0;
    while i < |entries|
      invariant 0 <= i <= |entries| && rest == entries[i..]
      invariant total <= limit && before <= total
      invariant total + OutputBytesOfItems(stack) + OutputBytesOfEntries(rest)
             == before + OutputBytesOfItems(below) + OutputBytesOfEntries(entries)
      invariant before + OutputBytesOfEntries(entries) >= total + OutputBytesOfEntries(rest)
      invariant (ItemsAreText(stack) && EntriesAreText(rest)) <==> (ItemsAreText(below) && EntriesAreText(entries))
      invariant EntriesAreText(entries) ==> EntriesAreText(rest)
      invariant SizeOfItems(stack) + SizeOfEntries(rest) <= SizeOfItems(below) + SizeOfEntries(entries)
    {
      var Entry(key, value) := entries[i];
      assert rest[0] == entries[i] && rest[1..] == entries[i + 1..];
      if key == "output" {
        if !value.JString? {
          return total, stack, false;
        }
        total := total + |Encode(value.text)|;
        if limit < total {
          return total, stack, false;
        }
      } else {
        StackPushed(stack, value);
        stack := stack + [value];
      }
      rest := rest[1..];
      i := i + 1;
    }
    ok := true;
  }

  // ----- the server's answer -----

  /** How an authenticated request is dispatched: a result, or one of the handled exceptions. */
  datatype Outcome =
    | Done(result: Wire)
    | UnknownAction
    | ApprovalRequired
    | PolicyRejected
    | OperationTimeout(jobId: string)
    | JobNotFound
    | InvalidParameters
    | OperationFailed

  /** Why a request is not authenticated, or not even a frame. */
  datatype Refusal = BadSignature | BadRequest | Refused(outcome: Replay.Outcome) | ReadTimeout | FrameTooLarge | InvalidFrame

  datatype Answer = Answer(result: Wire, error: Wire)

  function ErrorValue(code: string, message: string): Wire {
    JObject([Entry("code", JString(code)), Entry("message", JString(message))])
  }

  function OutcomeCode(o: Outcome): string
    requires !o.Done?
  {
    match o
    case UnknownAction => "unknown_action"
    case ApprovalRequired => "approval_required"
    case PolicyRejected => "policy_rejected"
    case OperationTimeout(_) => "operation_timeout"
    case JobNotFound => "job_not_found"
    case InvalidParameters => "invalid_parameters"
    case OperationFailed => "operation_failed"
  }

  function OutcomeMessage(o: Outcome): string
    requires !o.Done?
  {
    match o
    case UnknownAction => "unknown action"
    case ApprovalRequired => "shell execution requires approval"
    case PolicyRejected => "request rejected by policy"
    case OperationTimeout(_) => "operation did not finish before the server deadline"
    case JobNotFound => "job not found"
    case InvalidParameters => "invalid parameters"
    case OperationFailed => "operation failed"
  }

  function AnswerTo(o: Outcome): Answer {
    match o
    case Done(result) => Answer(result, JNull)
    case OperationTimeout(jobId) =>
      Answer(JObject([Entry("job_id", JString(jobId))]), ErrorValue(OutcomeCode(o), OutcomeMessage(o)))
    case _ => Answer(JNull, ErrorValue(OutcomeCode(o), OutcomeMessage(o)))
  }

  function RefusalCode(r: Refusal): string {
    match r
    case BadSignature => "authentication_failed"
    case BadRequest => "invalid_request"
    case Refused(outcome) =>
      if outcome.Replayed? then "replay_detected"
      else if outcome.Expired? || outcome.TooFarInFuture? then "expired_request"
      else "invalid_request"
    case ReadTimeout => "read_timeout"
    case FrameTooLarge => "frame_too_large"
    case InvalidFrame => "invalid_frame"
  }

  /** The response fields other than the signature. */
  datatype Unsigned = Unsigned(version: Wire, requestId: Wire, ok: Wire, result: Wire, error: Wire, timestamp: Wire)

  /** A parsed response: the field names present, their values, and the signature. */
  datatype Response = Response(names: set<string>, body: Unsigned, signature: Wire)

  /** A keyed hash of the canonical bytes of a message (RFC 2104 with SHA-256, as 64 hex digits). */
  type Mac = (seq<Byte>, Unsigned) -> string

  const RESPONSE_FIELDS: set<string> :=
    {"protocol_version", "request_id", "ok", "result", "error", "timestamp", "signature"}

  /** `_response`. */
  function Respond(mac: Mac, secret: seq<Byte>, requestId: Wire, a: Answer, now: int): Response {
    var body := Unsigned(JInt(PROTOCOL_VERSION), requestId, JBool(a.error.JNull?), a.result, a.error, JInt(now));
    Response(RESPONSE_FIELDS, body, JString(mac(secret, body)))
  }

  // ----- the client -----

  datatype ClientResult = ProtocolError | RemoteError(code: string) | Returned(result: Wire)

  predicate IsRemoteErrorCode(code: string) {
    || code == "approval_required" || code == "authentication_failed" || code == "expired_request"
    || code == "frame_too_large" || code == "invalid_frame" || code == "invalid_parameters"
    || code == "invalid_request" || code == "job_not_found" || code == "operation_failed"
    || code == "operation_timeout" || code == "policy_rejected" || code == "read_timeout"
    || code == "replay_detected" || code == "unknown_action"
  }

  function ErrorCode(error: Wire): Option<string> {
    if error.JObject? && |error.entries| == 2
       && error.entries[0].key == "code" && error.entries[1].key == "message"
       && error.entries[0].value.JString? && IsRemoteErrorCode(error.entries[0].value.text)
       && error.entries[1].value.JString? && 1 <= |error.entries[1].value.text| <= MAX_ERROR_MESSAGE_LENGTH
    then Some(error.entries[0].value.text)
    else None
  }

  predicate WithinAge(now: int, timestamp: Wire) {
    timestamp.JInt? && -MAX_RESPONSE_AGE <= now - timestamp.number <= MAX_RESPONSE_AGE
  }

  /** `_validate_response`. */
  function ValidateResponse(mac: Mac, secret: seq<Byte>, r: Response, requestId: string, now: int,
                            outputLimit: nat): ClientResult {
    var b := r.body;
    if r.names != RESPONSE_FIELDS || b.version != JInt(PROTOCOL_VERSION) || b.requestId != JString(requestId)
       || !WithinAge(now, b.timestamp)
       || !r.signature.JString? || |r.signature.text| != SIGNATURE_LENGTH || r.signature.text != mac(secret, b)
       || !b.ok.JBool? || (!b.result.JNull? && !b.result.JObject?)
       || !(b.result.JNull? || OutputsFit(b.result, outputLimit))
    then ProtocolError
    else if b.ok.flag then
      if b.result.JObject? && b.error.JNull? then Returned(b.result) else ProtocolError
    else
      var code := ErrorCode(b.error);
      if code.Some? then RemoteError(code.value) else ProtocolError
  }

  /** What an honest server and an honest client make of a dispatch outcome. */
  function Expected(o: Outcome): ClientResult {
    if o.Done? then Returned(o.result) else RemoteError(OutcomeCode(o))
  }

  /** The codes that go over the wire. */
  lemma CodesOnTheWire(o: Outcome)
    ensures o.UnknownAction? ==> Expected(o) == RemoteError("unknown_action")
    ensures o.ApprovalRequired? ==> Expected(o) == RemoteError("approval_required")
    ensures o.PolicyRejected? ==> Expected(o) == RemoteError("policy_rejected")
    ensures o.OperationTimeout? ==> Expected(o) == RemoteError("operation_timeout")
    ensures o.JobNotFound? ==> Expected(o) == RemoteError("job_not_found")
    ensures o.InvalidParameters? ==> Expected(o) == RemoteError("invalid_parameters")
    ensures o.OperationFailed? ==> Expected(o) == RemoteError("operation_failed")
  {
  }

  /** What a refused message is told, by what the nonce cache answers over its history. */
  lemma RefusalsOnTheWire(attempts: seq<Replay.Attempt>, j: nat, capacity: nat, maxAge: int)
    requires j < |attempts| && Replay.TimestampValid(attempts[j].now) && 0 <= maxAge <= Replay.MAX_AGE_LIMIT
    ensures var a, live := attempts[j], Replay.LiveNonces(attempts[..j], attempts[j].now, capacity, maxAge);
            var outcome := Replay.OutcomeAt(attempts, j, capacity, maxAge);
            var code := RefusalCode(Refused(outcome));
            && (!(-maxAge <= a.now - a.message.timestamp <= maxAge) <==> code == "expired_request")
            && (outcome != Replay.Accepted ==>
                  && (code == "replay_detected" <==>
                        -maxAge <= a.now - a.message.timestamp <= maxAge && a.message.nonce in live)
                  && (code == "invalid_request" <==>
                        -maxAge <= a.now - a.message.timestamp <= maxAge && a.message.nonce !in live))
    ensures RefusalCode(BadSignature) == "authentication_failed" && RefusalCode(BadRequest) == "invalid_request"
    ensures RefusalCode(ReadTimeout) == "read_timeout" && RefusalCode(FrameTooLarge) == "frame_too_large"
    ensures RefusalCode(InvalidFrame) == "invalid_frame"
  {
    Replay.AnswersByHistory(attempts, j, capacity, maxAge);
    hide Replay.OutcomeAt, Replay.LiveNonces;
  }

  lemma KnownCode(o: Outcome)
    requires !o.Done?
    ensures IsRemoteErrorCode(OutcomeCode(o))
    ensures 1 <= |OutcomeMessage(o)| <= MAX_ERROR_MESSAGE_LENGTH
  {
  }

  lemma TimeoutResultFits(jobId: string, limit: nat)
    ensures OutputsFit(JObject([Entry("job_id", JString(jobId))]), limit)
  {
    var entries := [Entry("job_id", JString(jobId))];
    assert entries[1..] == [];
    assert "job_id"[0] != "output"[0];
    assert entries[0].key != "output" && OutputsAreText(entries[0].value) && OutputBytes(entries[0].value) == 0;
    assert EntriesAreText(entries[1..]) && OutputBytesOfEntries(entries[1..]) == 0;
    assert OutputBytesOfEntries(entries) == 0;
  }

  /** For every authenticated request and every dispatch outcome, the client returns the server's
      result or raises the server's own code; a protocol error is raised exactly when the server's
      timestamp, taken as the request came in, is more than 30 seconds from the client's clock, or the
      result's output is over the client's limit. */
  lemma ClientGetsServersAnswer(mac: Mac, secret: seq<Byte>, requestId: string, o: Outcome, serverNow: int,
                                clientNow: int, outputLimit: nat)
    requires forall body :: |mac(secret, body)| == SIGNATURE_LENGTH
    requires o.Done? ==> o.result.JObject?
    ensures var r := ValidateResponse(mac, secret, Respond(mac, secret, JString(requestId), AnswerTo(o), serverNow),
                                      requestId, clientNow, outputLimit);
            var agreed := -MAX_RESPONSE_AGE <= clientNow - serverNow <= MAX_RESPONSE_AGE
                          && (o.Done? ==> OutputsFit(o.result, outputLimit));
            r == if agreed then Expected(o) else ProtocolError
  {
    if !o.Done? {
      KnownCode(o);
      if o.OperationTimeout? {
        TimeoutResultFits(o.jobId, outputLimit);
      }
    }
    hide OutputsFit, IsRemoteErrorCode, OutcomeCode, OutcomeMessage;
  }

  /** Whatever the client does not reject is signed with its secret over every field, answers its request, is
      recent and within its output limit; so a changed answer whose signature the changer cannot make is
      rejected. */
  lemma AcceptedIsAuthentic(mac: Mac, secret: seq<Byte>, r: Response, requestId: string, now: int, outputLimit: nat)
    ensures !ValidateResponse(mac, secret, r, requestId, now, outputLimit).ProtocolError? ==>
              && r.names == RESPONSE_FIELDS && r.signature == JString(mac(secret, r.body))
              && r.body.requestId == JString(requestId) && r.body.version == JInt(PROTOCOL_VERSION)
              && WithinAge(now, r.body.timestamp)
              && (r.body.result.JNull? || (r.body.result.JObject? && OutputsFit(r.body.result, outputLimit)))
    ensures r.signature != JString(mac(secret, r.body)) ==>
              ValidateResponse(mac, secret, r, requestId, now, outputLimit).ProtocolError?
    ensures ValidateResponse(mac, secret, r, requestId, now, outputLimit).Returned? <==>
              && r.names == RESPONSE_FIELDS && r.signature == JString(mac(secret, r.body))
              && |mac(secret, r.body)| == SIGNATURE_LENGTH
              && r.body == Unsigned(JInt(PROTOCOL_VERSION), JString(requestId), JBool(true), r.body.result, JNull,
                                    r.body.timestamp)
              && r.body.result.JObject? && OutputsFit(r.body.result, outputLimit) && WithinAge(now, r.body.timestamp)
  {
    hide OutputsFit, ErrorCode;
  }

  /** A refusal carries no request id, so its code never reaches the caller: the client rejects the
      answer itself, although every refusal code is one it would know. */
  lemma RefusalIsAlwaysProtocolError(mac: Mac, secret: seq<Byte>, requestId: string, refusal: Refusal,
                                     message: string, serverNow: int, clientNow: int, outputLimit: nat)
    ensures IsRemoteErrorCode(RefusalCode(refusal))
    ensures var answer := Answer(JNull, ErrorValue(RefusalCode(refusal), message));
            ValidateResponse(mac, secret, Respond(mac, secret, JNull, answer, serverNow), requestId, clientNow,
                             outputLimit).ProtocolError?
  {
  }

  // ----- the size of a job reply -----

  const DEFAULT_OUTPUT_LIMIT: nat := 65_536

  /** A float, an integer or null, as `started`, `finished` and `exit_code` hold it. */
  predicate ShortNumber(v: Wire) {
    v.JNull? || (v.JFloat? && |v.repr| <= 24) || (v.JInt? && -INT_BOUND < v.number < INT_BOUND)
  }

  lemma ShortNumberLength(v: Wire)
    requires ShortNumber(v)
    ensures JsonLength(v) <= 24
  {
    if v.JInt? {
      IntLengthBound(v.number);
    }
  }

  /** The fields of a job snapshot and of a response. */
  datatype Field =
    | JobId | Status | Output | OutputOffset | TruncatedBefore | ExitCode | Started | Finished | Failure
    | Version | RequestId | Success | Result | Timestamp | Signature

  function Name(f: Field): string {
    match f
    case JobId => "job_id"
    case Status => "status"
    case Output => "output"
    case OutputOffset => "output_offset"
    case TruncatedBefore => "truncated_before"
    case ExitCode => "exit_code"
    case Started => "started"
    case Finished => "finished"
    case Failure => "error"
    case Version => "protocol_version"
    case RequestId => "request_id"
    case Success => "ok"
    case Result => "result"
    case Timestamp => "timestamp"
    case Signature => "signature"
  }

  lemma NameIsShort(f: Field)
    ensures |Name(f)| <= 16
  {
  }

  /** The job part of a `job.get` reply. */
  function JobResult(jobId: string, status: string, output: string, outputOffset: int, truncatedBefore: int,
                     exitCode: Wire, started: Wire, finished: Wire, error: Wire): Wire {
    JObject([Entry(Name(JobId), JString(jobId)), Entry(Name(Status), JString(status)),
             Entry(Name(Output), JString(output)), Entry(Name(OutputOffset), JInt(outputOffset)),
             Entry(Name(TruncatedBefore), JInt(truncatedBefore)), Entry(Name(ExitCode), exitCode),
             Entry(Name(Started), started), Entry(Name(Finished), finished), Entry(Name(Failure), error)])
  }

  /** The signed reply as it is written into a frame. */
  function Reply(requestId: string, result: Wire, now: int, signature: string): Wire {
    JObject([Entry(Name(Version), JInt(PROTOCOL_VERSION)), Entry(Name(RequestId), JString(requestId)),
             Entry(Name(Success), JBool(true)), Entry(Name(Result), result), Entry(Name(Failure), JNull),
             Entry(Name(Timestamp), JInt(now)), Entry(Name(Signature), JString(signature))])
  }

  /** Room enough for any field of a reply but its output or its result. */
  const SMALL_ENTRY: nat := 3_300

  lemma EntryFits(f: Field, v: Wire, bound: nat)
    requires JsonLength(v) <= bound
    ensures EntryLength(Entry(Name(f), v)) <= bound + 200
  {
    NameIsShort(f);
    EscapingAtMostTwelvefold(Name(f));
    hide TextLength, JsonLength, Name;
  }

  /** An object whose entries are all small but one. */
  lemma {:induction false} OneLargeEntry(entries: seq<Entry>, k: nat, large: nat)
    requires forall i | 0 <= i < |entries| && i != k :: EntryLength(entries[i]) <= SMALL_ENTRY
    requires k < |entries| ==> EntryLength(entries[k]) <= large
    ensures EntriesLength(entries) <= |entries| * (SMALL_ENTRY + 1) + (if k < |entries| then large else 0)
    decreases |entries|
  {
    if entries != [] {
      OneLargeEntry(entries[1..], if k == 0 then |entries| else k - 1, large);
    }
  }

  lemma ErrorLength(error: Wire)
    requires error.JNull? || (error.JString? && |Encode(error.text)| <= JobRecord.MAX_ERROR_BYTES)
    ensures JsonLength(error) <= 3_074
  {
    if error.JString? {
      StringLength(error.text);
    }
  }

  /** The fields of a job snapshot that are short whatever the job printed. */
  lemma ShortJobFields(jobId: string, status: string, outputOffset: int, truncatedBefore: int, exitCode: Wire,
                       started: Wire, finished: Wire, error: Wire)
    requires |jobId| <= 36 && |status| <= 9
    requires 0 <= outputOffset < INT_BOUND && 0 <= truncatedBefore < INT_BOUND
    requires ShortNumber(exitCode) && ShortNumber(started) && ShortNumber(finished)
    requires error.JNull? || (error.JString? && |Encode(error.text)| <= JobRecord.MAX_ERROR_BYTES)
    ensures JsonLength(JString(jobId)) <= 3_074 && JsonLength(JString(status)) <= 3_074
    ensures JsonLength(JInt(outputOffset)) <= 3_074 && JsonLength(JInt(truncatedBefore)) <= 3_074
    ensures JsonLength(exitCode) <= 3_074 && JsonLength(started) <= 3_074
    ensures JsonLength(finished) <= 3_074 && JsonLength(error) <= 3_074
  {
    hide JsonLength, TextLength, Encode, DigitCount, ShortNumber;
    StringLength(jobId);
    StringLength(status);
    IntLengthBound(outputOffset);
    IntLengthBound(truncatedBefore);
    ShortNumberLength(exitCode);
    ShortNumberLength(started);
    ShortNumberLength(finished);
    ErrorLength(error);
  }

  /** A job snapshot whose output is within the default 64 KiB window. */
  lemma JobResultLength(jobId: string, status: string, output: string, outputOffset: int, truncatedBefore: int,
                        exitCode: Wire, started: Wire, finished: Wire, error: Wire)
    requires |jobId| <= 36 && |status| <= 9 && |Encode(output)| <= DEFAULT_OUTPUT_LIMIT
    requires 0 <= outputOffset < INT_BOUND && 0 <= truncatedBefore < INT_BOUND
    requires ShortNumber(exitCode) && ShortNumber(started) && ShortNumber(finished)
    requires error.JNull? || (error.JString? && |Encode(error.text)| <= JobRecord.MAX_ERROR_BYTES)
    ensures JsonLength(JobResult(jobId, status, output, outputOffset, truncatedBefore, exitCode, started, finished,
                                 error)) <= 430_000
  {
    hide JsonLength, TextLength, Encode, EntriesLength, EntryLength, ShortNumber, Name;
    var entries := JobResult(jobId, status, output, outputOffset, truncatedBefore, exitCode, started, finished, error).entries;
    ObjectLength(entries);
    ShortJobFields(jobId, status, outputOffset, truncatedBefore, exitCode, started, finished, error);
    StringLength(output);
    EntryFits(JobId, JString(jobId), 3_074);
    EntryFits(Status, JString(status), 3_074);
    EntryFits(Output, JString(output), 393_220);
    EntryFits(OutputOffset, JInt(outputOffset), 3_074);
    EntryFits(TruncatedBefore, JInt(truncatedBefore), 3_074);
    EntryFits(ExitCode, exitCode, 3_074);
    EntryFits(Started, started, 3_074);
    EntryFits(Finished, finished, 3_074);
    EntryFits(Failure, error, 3_074);
    OneLargeEntry(entries, 2, 393_420);
  }

  lemma ReplyLength(requestId: string, result: Wire, now: int, signature: string)
    requires |requestId| <= 128 && |signature| == SIGNATURE_LENGTH && 0 <= now < INT_BOUND
    requires JsonLength(result) <= 430_000
    ensures JsonLength(Reply(requestId, result, now, signature)) <= Framing.MAX_FRAME_SIZE
  {
    var entries := Reply(requestId, result, now, signature).entries;
    ObjectLength(entries);
    assert JsonLength(JBool(true)) == 4 && JsonLength(JNull) == 4;
    hide JsonLength, TextLength, EntriesLength, EntryLength, Encode, Name;
    StringLength(requestId);
    StringLength(signature);
    IntLengthBound(now);
    IntLengthBound(PROTOCOL_VERSION);
    EntryFits(Version, JInt(PROTOCOL_VERSION), 3_074);
    EntryFits(RequestId, JString(requestId), 3_074);
    EntryFits(Success, JBool(true), 3_074);
    EntryFits(Result, result, 430_000);
    EntryFits(Failure, JNull, 3_074);
    EntryFits(Timestamp, JInt(now), 3_074);
    EntryFits(Signature, JString(signature), 3_074);
    OneLargeEntry(entries, 3, 430_200);
  }

  /** A `job.get` reply from the default 64 KiB window always fits a frame. */
  lemma JobReplyFitsFrame(requestId: string, jobId: string, status: string, output: string, outputOffset: int,
                          truncatedBefore: int, exitCode: Wire, started: Wire, finished: Wire, error: Wire, now: int,
                          signature: string)
    requires |requestId| <= 128 && |signature| == SIGNATURE_LENGTH && 0 <= now < INT_BOUND
    requires |jobId| <= 36 && |status| <= 9 && |Encode(output)| <= DEFAULT_OUTPUT_LIMIT
    requires 0 <= outputOffset < INT_BOUND && 0 <= truncatedBefore < INT_BOUND
    requires ShortNumber(exitCode) && ShortNumber(started) && ShortNumber(finished)
    requires error.JNull? || (error.JString? && |Encode(error.text)| <= JobRecord.MAX_ERROR_BYTES)
    ensures var job := JobResult(jobId, status, output, outputOffset, truncatedBefore, exitCode, started, finished, error);
            JsonLength(Reply(requestId, job, now, signature)) <= Framing.MAX_FRAME_SIZE
  {
    hide JsonLength, Encode;
    JobResultLength(jobId, status, output, outputOffset, truncatedBefore, exitCode, started, finished, error);
    ReplyLength(requestId, JobResult(jobId, status, output, outputOffset, truncatedBefore, exitCode, started, finished, error),
                now, signature);
  }
}
