/** The directory of job records: how long a record gets when it is printed, the size check that start-up
    makes first, and what the agent makes of the records it finds. */
module JobStore {
  import opened Basics
  import opened Utf8
  import opened OutputWindow
  import opened JobRecord
  import JsonText

  type Wire = JsonText.Wire
  type Entry = JsonText.Entry

  /** How a float is printed. */
  type Printer = real -> string

  // ----- the printed record -----

  function Whole(n: int): Wire {
    JsonText.Wire.JInt(n)
  }

  function Text(s: string): Wire {
    JsonText.Wire.JString(s)
  }

  function WholeOrNull(v: Option<int>): Wire {
    if v.None? then JsonText.Wire.JNull else Whole(v.value)
  }

  function TimeOrNull(v: Option<real>, repr: Printer): Wire {
    if v.None? then JsonText.Wire.JNull else JsonText.Wire.JFloat(repr(v.value))
  }

  function TextOrNull(v: Option<string>): Wire {
    if v.None? then JsonText.Wire.JNull else Text(v.value)
  }

  function Object(entries: seq<Entry>): Wire {
    JsonText.Wire.JObject(entries)
  }

  function Field(key: string, value: Wire): Entry {
    JsonText.Entry(key, value)
  }

  function IdentityFields(i: Identity): seq<Entry> {
    [Field("pid", Whole(i.pid)), Field("process_group", WholeOrNull(i.processGroup)),
     Field("session_id", WholeOrNull(i.sessionId))]
    + [Field("start_time_ticks", WholeOrNull(i.startTimeTicks)), Field("boot_id", TextOrNull(i.bootId)),
       Field("recovery_token", Text(i.recoveryToken))]
  }

  function IdentityPrinted(i: Option<Identity>): Wire {
    if i.None? then JsonText.Wire.JNull else Object(IdentityFields(i.value))
  }

  function LaunchPrinted(phase: Option<Phase>, token: Option<string>): Wire {
    if phase.None? || token.None? then JsonText.Wire.JNull
    else Object([Field("phase", Text(if phase.value.Prepared? then "prepared" else "ready")),
                 Field("recovery_token", Text(token.value))])
  }

  function OutputFields(j: Job): seq<Entry>
    requires Valid(j.output)
  {
    [Field("job_id", Text(j.id)), Field("status", Text(StatusText(j.status))),
     Field("output", Text(Decode(j.output).value))]
  }

  function OffsetFields(j: Job): seq<Entry> {
    [Field("output_offset", Whole(j.outputOffset)), Field("truncated_before", Whole(j.truncatedBefore)),
     Field("exit_code", WholeOrNull(j.exitCode))]
  }

  function EndFields(j: Job, repr: Printer): seq<Entry> {
    [Field("started", TimeOrNull(j.started, repr)), Field("finished", TimeOrNull(j.finished, repr)),
     Field("error", TextOrNull(j.error))]
  }

  function LaunchFields(j: Job): seq<Entry> {
    [Field("process_identity", IdentityPrinted(j.identity)), Field("launch", LaunchPrinted(j.launchPhase, j.recoveryToken))]
  }

  /** What `_persist` prints, entry by entry. */
  function Printed(j: Job, repr: Printer): Wire
    requires Valid(j.output)
  {
    Object(OutputFields(j) + OffsetFields(j) + EndFields(j, repr) + LaunchFields(j))
  }

  function RecordLength(j: Job, repr: Printer): nat
    requires Valid(j.output)
  {
    JsonText.JsonLength(Printed(j, repr))
  }

  // ----- the printed record is the metadata object -----

  /** The value that a printed one is read as; a later entry of the same key wins. */
  function Read(w: Wire, parse: string -> real): Json {
    match w
    case JNull => Json.JNull
    case JBool(flag) => Json.JBool(flag)
    case JInt(n) => Json.JInt(n)
    case JFloat(text) => Json.JFloat(parse(text))
    case JString(s) => Json.JString(s)
    case JArray(items) => Json.JArray(ReadItems(items, parse))
    case JObject(entries) => Json.JObject(ReadEntries(entries, parse))
  }

  function ReadItems(items: seq<Wire>, parse: string -> real): seq<Json> {
    if items == [] then [] else [Read(items[0], parse)] + ReadItems(items[1..], parse)
  }

  function ReadEntries(entries: seq<Entry>, parse: string -> real): map<string, Json> {
    if entries == [] then map[] else map[entries[0].key := Read(entries[0].value, parse)] + ReadEntries(entries[1..], parse)
  }

  lemma ReadFront(e: Entry, rest: seq<Entry>, parse: string -> real)
    ensures ReadEntries([e] + rest, parse) == map[e.key := Read(e.value, parse)] + ReadEntries(rest, parse)
  {
    assert ([e] + rest)[1..] == rest;
  }

  lemma MergeAssociative<K, V>(a: map<K, V>, b: map<K, V>, c: map<K, V>)
    ensures a + (b + c) == (a + b) + c
  {
  }

  lemma {:induction false} ReadConcat(a: seq<Entry>, b: seq<Entry>, parse: string -> real)
    ensures ReadEntries(a + b, parse) == ReadEntries(a, parse) + ReadEntries(b, parse)
  {
    if a == [] {
      assert a + b == b;
    } else {
      ReadConcat(a[1..], b, parse);
      hide ReadEntries, Read;
      assert [a[0]] + a[1..] == a && [a[0]] + (a[1..] + b) == a + b;
      ReadFront(a[0], a[1..], parse);
      ReadFront(a[0], a[1..] + b, parse);
      MergeAssociative(map[a[0].key := Read(a[0].value, parse)], ReadEntries(a[1..], parse), ReadEntries(b, parse));
    }
  }

  lemma ReadTwo(a: Entry, b: Entry, parse: string -> real)
    requires a.key != b.key
    ensures ReadEntries([a, b], parse) == map[a.key := Read(a.value, parse), b.key := Read(b.value, parse)]
  {
    ReadFront(a, [b], parse);
    ReadFront(b, [], parse);
    hide Read;
    assert [a] + [b] == [a, b] && [b] + [] == [b] && ReadEntries([], parse) == map[];
  }

  lemma ReadThree(a: Entry, b: Entry, c: Entry, parse: string -> real)
    requires a.key != b.key && a.key != c.key && b.key != c.key
    ensures ReadEntries([a, b, c], parse)
         == map[a.key := Read(a.value, parse), b.key := Read(b.value, parse), c.key := Read(c.value, parse)]
  {
    ReadFront(a, [b, c], parse);
    ReadTwo(b, c, parse);
    hide Read, ReadEntries;
    assert [a] + [b, c] == [a, b, c];
  }

  lemma ReadSimple(n: Option<int>, s: Option<string>, parse: string -> real)
    ensures Read(WholeOrNull(n), parse) == IntOrNull(n)
    ensures Read(TextOrNull(s), parse) == StringOrNull(s)
  {
  }

  lemma ReadTime(t: Option<real>, repr: Printer, parse: string -> real)
    requires t.Some? ==> parse(repr(t.value)) == t.value
    ensures Read(TimeOrNull(t, repr), parse) == FloatOrNull(t)
  {
  }

  lemma MergeTwo<K, V>(m: map<K, V>, a: K, x: V, b: K, y: V)
    ensures m + map[a := x, b := y] == m[a := x][b := y]
  {
  }

  lemma MergeThree<K, V>(m: map<K, V>, a: K, x: V, b: K, y: V, c: K, z: V)
    ensures m + map[a := x, b := y, c := z] == m[a := x][b := y][c := z]
  {
  }

  lemma ReadIdentity(i: Option<Identity>, parse: string -> real)
    ensures Read(IdentityPrinted(i), parse) == if i.None? then Json.JNull else IdentityRecord(i.value)
  {
    if i.Some? {
      ReadIdentityFields(i.value, parse);
      hide ReadEntries;
    }
  }

  lemma ReadIdentityFields(i: Identity, parse: string -> real)
    ensures ReadEntries(IdentityFields(i), parse) == IdentityRecord(i).fields
  {
    var a, b, c := Field("pid", Whole(i.pid)), Field("process_group", WholeOrNull(i.processGroup)),
                   Field("session_id", WholeOrNull(i.sessionId));
    var d, e, f := Field("start_time_ticks", WholeOrNull(i.startTimeTicks)), Field("boot_id", TextOrNull(i.bootId)),
                   Field("recovery_token", Text(i.recoveryToken));
    ReadConcat([a, b, c], [d, e, f], parse);
    ReadThree(a, b, c, parse);
    ReadThree(d, e, f, parse);
    ReadSimple(i.processGroup, i.bootId, parse);
    ReadSimple(i.sessionId, None, parse);
    ReadSimple(i.startTimeTicks, None, parse);
    MergeThree(ReadEntries([a, b, c], parse), "start_time_ticks", Read(d.value, parse), "boot_id", Read(e.value, parse),
               "recovery_token", Read(f.value, parse));
    hide ReadEntries, WholeOrNull, TextOrNull, IntOrNull, StringOrNull;
  }

  lemma ReadLaunch(phase: Option<Phase>, token: Option<string>, parse: string -> real)
    ensures Read(LaunchPrinted(phase, token), parse) == LaunchRecord(phase, token)
  {
    if phase.Some? && token.Some? {
      var a := Field("phase", Text(if phase.value.Prepared? then "prepared" else "ready"));
      ReadTwo(a, Field("recovery_token", Text(token.value)), parse);
    }
  }

  lemma ReadFieldGroups(j: Job, repr: Printer, parse: string -> real)
    requires Valid(j.output)
    requires j.started.Some? ==> parse(repr(j.started.value)) == j.started.value
    requires j.finished.Some? ==> parse(repr(j.finished.value)) == j.finished.value
    ensures ReadEntries(OutputFields(j), parse)
         == map["job_id" := Json.JString(j.id), "status" := Json.JString(StatusText(j.status)),
                "output" := Json.JString(Decode(j.output).value)]
    ensures ReadEntries(OffsetFields(j), parse)
         == map["output_offset" := Json.JInt(j.outputOffset), "truncated_before" := Json.JInt(j.truncatedBefore),
                "exit_code" := IntOrNull(j.exitCode)]
    ensures ReadEntries(EndFields(j, repr), parse)
         == map["started" := FloatOrNull(j.started), "finished" := FloatOrNull(j.finished), "error" := StringOrNull(j.error)]
    ensures ReadEntries(LaunchFields(j), parse)
         == map["process_identity" := if j.identity.None? then Json.JNull else IdentityRecord(j.identity.value),
                "launch" := LaunchRecord(j.launchPhase, j.recoveryToken)]
  {
    var a, b, c, d := OutputFields(j), OffsetFields(j), EndFields(j, repr), LaunchFields(j);
    ReadThree(a[0], a[1], a[2], parse);
    ReadThree(b[0], b[1], b[2], parse);
    ReadThree(c[0], c[1], c[2], parse);
    ReadTwo(d[0], d[1], parse);
    ReadSimple(j.exitCode, j.error, parse);
    ReadTime(j.started, repr, parse);
    ReadTime(j.finished, repr, parse);
    ReadIdentity(j.identity, parse);
    ReadLaunch(j.launchPhase, j.recoveryToken, parse);
    hide ReadEntries, Decode, StatusText, IdentityPrinted, LaunchPrinted, IdentityRecord, LaunchRecord, WholeOrNull,
      TextOrNull, TimeOrNull, IntOrNull, StringOrNull, FloatOrNull;
  }

  /** What is printed is the metadata object, for a printer of floats that a parser undoes. */
  lemma PrintedIsMetadata(j: Job, repr: Printer, parse: string -> real)
    requires Valid(j.output)
    requires j.started.Some? ==> parse(repr(j.started.value)) == j.started.value
    requires j.finished.Some? ==> parse(repr(j.finished.value)) == j.finished.value
    ensures Read(Printed(j, repr), parse) == Metadata(j)
  {
    var a, b, c, d := OutputFields(j), OffsetFields(j), EndFields(j, repr), LaunchFields(j);
    ReadFieldGroups(j, repr, parse);
    ReadConcat(a, b, parse);
    ReadConcat(a + b, c, parse);
    ReadConcat(a + b + c, d, parse);
    hide ReadEntries, Decode, StatusText, IdentityRecord, LaunchRecord, IntOrNull, StringOrNull, FloatOrNull, OutputFields,
      OffsetFields, EndFields, LaunchFields;
    MergeThree(ReadEntries(a, parse), "output_offset", Json.JInt(j.outputOffset), "truncated_before",
               Json.JInt(j.truncatedBefore), "exit_code", IntOrNull(j.exitCode));
    MergeThree(ReadEntries(a + b, parse), "started", FloatOrNull(j.started), "finished", FloatOrNull(j.finished), "error",
               StringOrNull(j.error));
    MergeTwo(ReadEntries(a + b + c, parse), "process_identity",
             if j.identity.None? then Json.JNull else IdentityRecord(j.identity.value), "launch",
             LaunchRecord(j.launchPhase, j.recoveryToken));
  }

  // ----- its length -----

  /** `uuid.UUID(value)` printed again is the value: 32 lower-case hexadecimal digits in five groups. */
  predicate ValidJobId(id: string) {
    |id| == 36 && forall i | 0 <= i < 36 ::
      if i == 8 || i == 13 || i == 18 || i == 23 then id[i] == '-' else '0' <= id[i] <= '9' || 'a' <= id[i] <= 'f'
  }

  /** Nothing in it has to be escaped. */
  predicate Plain(s: string) {
    forall c | c in s :: JsonText.EscapedLength(c) == 1
  }

  lemma JobIdIsPlain(id: string)
    requires ValidJobId(id)
    ensures Plain(id)
  {
    forall c | c in id ensures JsonText.EscapedLength(c) == 1 {
      var i :| 0 <= i < |id| && id[i] == c;
      assert '0' <= c <= '9' || 'a' <= c <= 'f' || c == '-';
    }
  }

  lemma PlainText(s: string)
    requires Plain(s)
    ensures JsonText.JsonLength(Text(s)) == |s| + 2
  {
    JsonText.PlainLength(s);
  }

  lemma FieldLength(key: string, value: Wire)
    requires Plain(key)
    ensures JsonText.EntryLength(Field(key, value)) == |key| + 3 + JsonText.JsonLength(value)
  {
    JsonText.PlainLength(key);
  }

  lemma TwoFields(a: Entry, b: Entry)
    ensures JsonText.EntriesLength([a, b]) == JsonText.EntryLength(a) + JsonText.EntryLength(b) + 1
  {
    JsonText.EntriesLengthConcat([a], [b]);
    JsonText.OneEntry(a);
    JsonText.OneEntry(b);
    assert [a] + [b] == [a, b];
  }

  lemma ThreeFields(a: Entry, b: Entry, c: Entry)
    ensures JsonText.EntriesLength([a, b, c])
         == JsonText.EntryLength(a) + JsonText.EntryLength(b) + JsonText.EntryLength(c) + 2
  {
    JsonText.EntriesLengthConcat([a], [b, c]);
    JsonText.OneEntry(a);
    TwoFields(b, c);
    assert [a] + [b, c] == [a, b, c];
  }

  lemma OutputKeysArePlain()
    ensures Plain("job_id") && Plain("status") && Plain("output") && Plain("output_offset") && Plain("truncated_before")
  {
  }

  lemma EndKeysArePlain()
    ensures Plain("exit_code") && Plain("started") && Plain("finished") && Plain("error")
    ensures Plain("process_identity") && Plain("launch")
  {
  }

  lemma IdentityKeysArePlain()
    ensures Plain("pid") && Plain("process_group") && Plain("session_id") && Plain("start_time_ticks")
    ensures Plain("boot_id")
  {
  }

  lemma LaunchKeysArePlain()
    ensures Plain("recovery_token") && Plain("phase") && Plain("prepared") && Plain("ready")
  {
  }

  lemma StatusIsPlain(s: Status)
    ensures Plain(StatusText(s)) && 6 <= |StatusText(s)| <= 9
  {
  }

  function LengthOf(v: Wire): nat {
    JsonText.JsonLength(v)
  }

  /** The frame of keys, quotes, colons, commas and braces takes 143 characters. */
  const FRAME: nat := 143

  lemma RecordLengthIs(j: Job, repr: Printer)
    requires Valid(j.output)
    ensures RecordLength(j, repr)
         == FRAME + LengthOf(Text(j.id)) + LengthOf(Text(StatusText(j.status))) + LengthOf(Text(Decode(j.output).value))
            + LengthOf(Whole(j.outputOffset)) + LengthOf(Whole(j.truncatedBefore)) + LengthOf(WholeOrNull(j.exitCode))
            + LengthOf(TimeOrNull(j.started, repr)) + LengthOf(TimeOrNull(j.finished, repr)) + LengthOf(TextOrNull(j.error))
            + LengthOf(IdentityPrinted(j.identity)) + LengthOf(LaunchPrinted(j.launchPhase, j.recoveryToken))
  {
    hide Decode, StatusText, Text, Whole, WholeOrNull, TimeOrNull, TextOrNull, IdentityPrinted, LaunchPrinted, Plain, Field,
      JsonText.EntriesLength, JsonText.EntryLength;
    var a, b, c, d := OutputFields(j), OffsetFields(j), EndFields(j, repr), LaunchFields(j);
    OutputKeysArePlain();
    EndKeysArePlain();
    FieldLength("job_id", Text(j.id));
    FieldLength("status", Text(StatusText(j.status)));
    FieldLength("output", Text(Decode(j.output).value));
    FieldLength("output_offset", Whole(j.outputOffset));
    FieldLength("truncated_before", Whole(j.truncatedBefore));
    FieldLength("exit_code", WholeOrNull(j.exitCode));
    FieldLength("started", TimeOrNull(j.started, repr));
    FieldLength("finished", TimeOrNull(j.finished, repr));
    FieldLength("error", TextOrNull(j.error));
    FieldLength("process_identity", IdentityPrinted(j.identity));
    FieldLength("launch", LaunchPrinted(j.launchPhase, j.recoveryToken));
    ThreeFields(a[0], a[1], a[2]);
    ThreeFields(b[0], b[1], b[2]);
    ThreeFields(c[0], c[1], c[2]);
    TwoFields(d[0], d[1]);
    JsonText.EntriesLengthConcat(a, b);
    JsonText.EntriesLengthConcat(a + b, c);
    JsonText.EntriesLengthConcat(a + b + c, d);
  }

  /** What a record takes besides the text of its output. */
  function Overhead(j: Job, repr: Printer): nat
    requires Valid(j.output)
  {
    RecordLength(j.(output := []), repr)
  }

  lemma OutputAndOverhead(j: Job, repr: Printer)
    requires Valid(j.output)
    ensures RecordLength(j, repr) == JsonText.TextLength(Decode(j.output).value) + Overhead(j, repr)
  {
    RecordLengthIs(j, repr);
    RecordLengthIs(j.(output := []), repr);
    assert Decode([]).value == "";
    hide RecordLength, Decode;
  }

  /** A number that fits into 64 bits with its sign. */
  predicate ShortWhole(v: Option<int>) {
    v.Some? ==> -JsonText.INT_BOUND < v.value < JsonText.INT_BOUND
  }

  predicate PlainToken(v: Option<string>) {
    v.Some? ==> Plain(v.value)
  }

  predicate OrdinaryIdentity(i: Identity) {
    && ShortWhole(Some(i.pid)) && ShortWhole(i.processGroup) && ShortWhole(i.sessionId) && ShortWhole(i.startTimeTicks)
    && PlainToken(i.bootId) && Plain(i.recoveryToken)
  }

  predicate ShortTime(t: Option<real>, repr: Printer) {
    t.Some? ==> |repr(t.value)| <= 24
  }

  /** What the system puts into a record: numbers of 64 bits, floats of at most 24 characters, a boot id and
      tokens without anything to escape. The error text may be anything. */
  predicate Ordinary(j: Job, repr: Printer) {
    && ShortWhole(Some(j.outputOffset)) && ShortWhole(Some(j.truncatedBefore)) && ShortWhole(j.exitCode)
    && ShortTime(j.started, repr) && ShortTime(j.finished, repr)
    && PlainToken(j.recoveryToken) && (j.identity.Some? ==> OrdinaryIdentity(j.identity.value))
  }

  lemma WholeFits(v: Option<int>)
    requires ShortWhole(v)
    ensures LengthOf(WholeOrNull(v)) <= 20
  {
    if v.Some? {
      JsonText.IntLengthBound(v.value);
    }
  }

  lemma TokenFits(v: Option<string>)
    requires PlainToken(v) && (v.Some? ==> |v.value| <= 128)
    ensures LengthOf(TextOrNull(v)) <= 130
  {
    if v.Some? {
      PlainText(v.value);
    }
  }

  lemma IdentityFits(i: Identity)
    requires IdentityWellFormed(i) && OrdinaryIdentity(i)
    ensures LengthOf(IdentityPrinted(Some(i))) <= 428
  {
    hide Plain, Field, JsonText.EntriesLength, JsonText.EntryLength, WholeOrNull, TextOrNull, Whole, IsAscii;
    var a, b, c := Field("pid", Whole(i.pid)), Field("process_group", WholeOrNull(i.processGroup)),
                   Field("session_id", WholeOrNull(i.sessionId));
    var d, e, f := Field("start_time_ticks", WholeOrNull(i.startTimeTicks)), Field("boot_id", TextOrNull(i.bootId)),
                   Field("recovery_token", Text(i.recoveryToken));
    IdentityKeysArePlain();
    LaunchKeysArePlain();
    WholeFits(Some(i.pid));
    WholeIs(i.pid);
    WholeFits(i.processGroup);
    WholeFits(i.sessionId);
    WholeFits(i.startTimeTicks);
    TokenFits(i.bootId);
    PlainText(i.recoveryToken);
    FieldLength("pid", Whole(i.pid));
    FieldLength("process_group", WholeOrNull(i.processGroup));
    FieldLength("session_id", WholeOrNull(i.sessionId));
    FieldLength("start_time_ticks", WholeOrNull(i.startTimeTicks));
    FieldLength("boot_id", TextOrNull(i.bootId));
    FieldLength("recovery_token", Text(i.recoveryToken));
    ThreeFields(a, b, c);
    ThreeFields(d, e, f);
    JsonText.EntriesLengthConcat([a, b, c], [d, e, f]);
  }

  lemma WholeIs(n: int)
    ensures Whole(n) == WholeOrNull(Some(n))
  {
  }

  lemma LaunchFits(phase: Option<Phase>, token: Option<string>)
    requires PlainToken(token) && (token.Some? ==> |token.value| <= 128)
    ensures LengthOf(LaunchPrinted(phase, token)) <= 168
  {
    if phase.Some? && token.Some? {
      var name := if phase.value.Prepared? then "prepared" else "ready";
      hide Plain, Field, JsonText.EntriesLength, JsonText.EntryLength;
      LaunchKeysArePlain();
      PlainText(token.value);
      PlainText(name);
      FieldLength("phase", Text(name));
      FieldLength("recovery_token", Text(token.value));
      TwoFields(Field("phase", Text(name)), Field("recovery_token", Text(token.value)));
    }
  }

  lemma ErrorFits(error: Option<string>)
    requires error.Some? ==> |Encode(error.value)| <= MAX_ERROR_BYTES
    ensures LengthOf(TextOrNull(error)) <= 3_074
  {
    if error.Some? {
      JsonText.EscapingAtMostSixfold(error.value);
    }
  }

  /** An ordinary record takes less than 4096 characters besides its output. */
  lemma OverheadFits(j: Job, repr: Printer, outputLimit: nat)
    requires WellFormed(j, outputLimit) && Ordinary(j, repr) && ValidJobId(j.id)
    ensures Overhead(j, repr) <= 4_096
  {
    var empty := j.(output := []);
    RecordLengthIs(empty, repr);
    assert Decode(empty.output).value == "";
    JobIdIsPlain(j.id);
    PlainText(j.id);
    StatusIsPlain(j.status);
    PlainText(StatusText(j.status));
    WholeIs(j.outputOffset);
    WholeIs(j.truncatedBefore);
    hide Decode, Encode, Plain, StatusText, WholeOrNull, TextOrNull, IdentityPrinted, LaunchPrinted, IsAscii,
      IdentityWellFormed, OrdinaryIdentity, RecordLength, Whole, ShortWhole, ValidJobId, PlainToken;
    WholeFits(Some(j.outputOffset));
    WholeFits(Some(j.truncatedBefore));
    WholeFits(j.exitCode);
    ErrorFits(j.error);
    LaunchFits(j.launchPhase, j.recoveryToken);
    if j.identity.Some? {
      IdentityFits(j.identity.value);
    } else {
      NoIdentityLength();
    }
  }

  lemma NoIdentityLength()
    ensures LengthOf(IdentityPrinted(None)) == 4
  {
  }

  // ----- the size check -----

  /** A file as start-up finds it. Its content is None when it cannot be read or is not JSON; it is
      private when it is a regular file of this user that nobody else may read. */
  datatype File = File(private: bool, size: nat, content: Option<Json>)

  /** What `_persist` leaves behind. */
  function Written(j: Job, repr: Printer): File
    requires Valid(j.output)
  {
    File(true, RecordLength(j, repr), Some(Metadata(j)))
  }

  function SizeBound(outputLimit: nat): nat {
    outputLimit * 4 + 4_096
  }

  /** What `_load_jobs` reads from one file: nothing if the name is no job id or the file too large. */
  function Load(id: string, f: File, outputLimit: nat): Parsed<Job> {
    if !ValidJobId(id) then Rejected
    else if !f.private then Raised
    else if SizeBound(outputLimit) < f.size || f.content.None? then Rejected
    else FromMetadata(id, f.content.value, outputLimit)
  }

  /** A record that was written is skipped if and only if it is printed longer than the bound, and is
      otherwise read back as it was. */
  lemma WrittenLoads(j: Job, repr: Printer, outputLimit: nat)
    requires WellFormed(j, outputLimit) && ValidJobId(j.id)
    ensures Load(j.id, Written(j, repr), outputLimit)
         == if SizeBound(outputLimit) < RecordLength(j, repr) then Rejected else Accepted(j)
  {
    hide RecordLength, Metadata, FromMetadata, WellFormed, ValidJobId;
    PersistLoadRoundTrip(j, outputLimit);
  }

  /** At every point of every job's life: the record is skipped by the next start exactly when its output,
      as it is printed, and the rest of the record exceed the bound. */
  lemma SkippedExactlyWhenTooLong(id: string, changes: seq<Change>, repr: Printer, outputLimit: nat)
    requires ValidJobId(id) && Runs(NewJob(id), changes, outputLimit)
    ensures var j := After(NewJob(id), changes, outputLimit);
            && Valid(j.output)
            && RecordLength(j, repr) == JsonText.TextLength(Decode(j.output).value) + Overhead(j, repr)
            && Load(id, Written(j, repr), outputLimit)
               == if SizeBound(outputLimit) < RecordLength(j, repr) then Rejected else Accepted(j)
  {
    assert WellFormed(NewJob(id), outputLimit);
    RunsWellFormed(NewJob(id), changes, outputLimit);
    var j := After(NewJob(id), changes, outputLimit);
    hide Runs, After, ValidJobId, RecordLength, Overhead, Decode, Written;
    OutputAndOverhead(j, repr);
    WrittenLoads(j, repr, outputLimit);
  }

  /** What the system passes to a change. */
  predicate OrdinaryChange(c: Change, repr: Printer) {
    match c
    case Start(at) => ShortTime(Some(at), repr)
    case Prepare(token) => Plain(token)
    case PreparationFailed(at, _) => ShortTime(Some(at), repr)
    case MarkReady(identity) => OrdinaryIdentity(identity)
    case Append(_) => true
    case Finish(_, exitCode, at, _) => ShortTime(Some(at), repr) && ShortWhole(exitCode)
  }

  /** Everything ordinary about a record but its offsets. */
  predicate OrdinaryButOffsets(j: Job, repr: Printer) {
    Ordinary(j.(outputOffset := 0, truncatedBefore := 0), repr)
  }

  lemma ChangeOrdinary(j: Job, c: Change, repr: Printer, outputLimit: nat)
    requires OrdinaryButOffsets(j, repr) && OrdinaryChange(c, repr)
    ensures OrdinaryButOffsets(Apply(j, c, outputLimit), repr)
  {
    hide Plain, OrdinaryIdentity, Appended;
  }

  lemma {:induction false} RunsOrdinary(j: Job, changes: seq<Change>, repr: Printer, outputLimit: nat)
    requires OrdinaryButOffsets(j, repr) && forall c | c in changes :: OrdinaryChange(c, repr)
    ensures OrdinaryButOffsets(After(j, changes, outputLimit), repr)
    decreases |changes|
  {
    if changes != [] {
      assert changes[0] in changes;
      ChangeOrdinary(j, changes[0], repr, outputLimit);
      hide OrdinaryChange, OrdinaryButOffsets, Apply;
      RunsOrdinary(Apply(j, changes[0], outputLimit), changes[1..], repr, outputLimit);
    }
  }

  /** How many characters take six in the record but only one byte in the window. */
  function Controls(s: string): nat {
    if s == "" then 0
    else (if |EncodeChar(s[0])| == 1 && JsonText.EscapedLength(s[0]) == 6 then 1 else 0) + Controls(s[1..])
  }

  lemma {:induction false} ControlsOnlyGrow(s: string)
    ensures JsonText.TextLength(s) <= 3 * |Encode(s)| + 3 * Controls(s)
  {
    if s != "" {
      ControlsOnlyGrow(s[1..]);
      assert JsonText.EscapedLength(s[0]) <= 3 * |EncodeChar(s[0])| || JsonText.EscapedLength(s[0]) == 6;
    }
  }

  /** A job of which the system knows nothing extraordinary always loads back when its output is printed in
      at most four times the limit, and in particular when at most a third of the limit are control
      characters. */
  lemma OrdinaryOutputLoads(id: string, changes: seq<Change>, repr: Printer, outputLimit: nat)
    requires ValidJobId(id) && Runs(NewJob(id), changes, outputLimit)
    requires forall c | c in changes :: OrdinaryChange(c, repr)
    requires After(NewJob(id), changes, outputLimit).outputOffset < JsonText.INT_BOUND
    ensures var j := After(NewJob(id), changes, outputLimit);
            && Valid(j.output)
            && var text := Decode(j.output).value;
            && (3 * Controls(text) <= outputLimit ==> JsonText.TextLength(text) <= 4 * outputLimit)
            && (JsonText.TextLength(text) <= 4 * outputLimit ==> Load(id, Written(j, repr), outputLimit) == Accepted(j))
  {
    var j := After(NewJob(id), changes, outputLimit);
    assert WellFormed(NewJob(id), outputLimit);
    RunsWellFormed(NewJob(id), changes, outputLimit);
    RunsOrdinary(NewJob(id), changes, repr, outputLimit);
    SkippedExactlyWhenTooLong(id, changes, repr, outputLimit);
    assert Ordinary(j, repr);
    hide Runs, After, ValidJobId, RecordLength, Overhead, Decode, Written, Encode, Ordinary, IsAscii, IdentityWellFormed;
    OverheadFits(j, repr, outputLimit);
    ControlsOnlyGrow(Decode(j.output).value);
    EncodeOfDecode(j.output);
  }

  const ESCAPE: char := 27 as char

  function Escapes(n: nat): string {
    if n == 0 then "" else [ESCAPE] + Escapes(n - 1)
  }

  lemma {:induction false} EscapesGrowSixfold(n: nat)
    ensures JsonText.TextLength(Escapes(n)) == 6 * n && |Encode(Escapes(n))| == n
    ensures n > 0 ==> Encode(Escapes(n))[0] == 27
  {
    if n > 0 {
      EscapesGrowSixfold(n - 1);
      assert ([ESCAPE] + Escapes(n - 1))[1..] == Escapes(n - 1);
      EncodeCons(ESCAPE, Escapes(n - 1));
    }
  }

  /** The failing input: a job that fills its window with control characters is skipped. */
  lemma EscapesOutgrowSizeCheck(id: string, repr: Printer, outputLimit: nat)
    requires ValidJobId(id) && 2_048 < outputLimit
    ensures var changes := [Append(Encode(Escapes(outputLimit)))];
            var j := After(NewJob(id), changes, outputLimit);
            && Runs(NewJob(id), changes, outputLimit) && Valid(j.output) && Decode(j.output).value == Escapes(outputLimit)
            && SizeBound(outputLimit) < RecordLength(j, repr)
            && Load(id, Written(j, repr), outputLimit) == Rejected
  {
    var output := Encode(Escapes(outputLimit));
    var changes := [Append(output)];
    EscapesGrowSixfold(outputLimit);
    DecodeOfEncode(Escapes(outputLimit));
    hide Encode, Decode, Escapes, IsAscii, ValidJobId, RecordLength, Overhead, Written, Load;
    assert changes[1..] == [];
    assert [] + output == output && output[0..] == output;
    assert AtBoundary(output, 0);
    var j := Apply(NewJob(id), Append(output), outputLimit);
    assert j.output == output;
    assert After(NewJob(id), changes, outputLimit) == After(j, [], outputLimit);
    SkippedExactlyWhenTooLong(id, changes, repr, outputLimit);
  }

  // ----- start-up -----

  /** What `_load_jobs` makes of an accepted record: a job that was still going is failed. */
  function Recovered(j: Job, now: real): Job {
    if Terminal(j.status) then j
    else j.(status := Failed, exitCode := None, finished := Some(now), error := Some(INTERRUPTED))
  }

  lemma RecoveredWellFormed(j: Job, now: real, outputLimit: nat)
    requires WellFormed(j, outputLimit)
    ensures WellFormed(Recovered(j, now), outputLimit) && Terminal(Recovered(j, now).status)
  {
    assert |INTERRUPTED| == 28;
    hide Encode, Decode, IdentityWellFormed, IsAscii;
  }

  /** A job has no end before it has ended. */
  predicate EndsTogether(j: Job) {
    !Terminal(j.status) ==> j.exitCode.None? && j.finished.None? && j.error.None?
  }

  lemma {:induction false} RunsEndTogether(j: Job, changes: seq<Change>, outputLimit: nat)
    requires EndsTogether(j) && Runs(j, changes, outputLimit)
    ensures EndsTogether(After(j, changes, outputLimit))
    decreases |changes|
  {
    hide Appended, Encode, Decode, IdentityWellFormed, IsAscii;
    if changes != [] {
      RunsEndTogether(Apply(j, changes[0], outputLimit), changes[1..], outputLimit);
    }
  }

  lemma InterruptedLength()
    ensures LengthOf(TextOrNull(Some(INTERRUPTED))) == 30
  {
    assert Plain(INTERRUPTED);
    PlainText(INTERRUPTED);
  }

  lemma StatusLengths()
    ensures LengthOf(Text(StatusText(Queued))) == 8 && LengthOf(Text(StatusText(Running))) == 9
    ensures LengthOf(Text(StatusText(Failed))) == 8
  {
    StatusIsPlain(Queued);
    StatusIsPlain(Running);
    StatusIsPlain(Failed);
    PlainText("queued");
    PlainText("running");
    PlainText("failed");
  }

  /** Failing an interrupted job makes its record longer. */
  lemma RecoveryGrows(j: Job, now: real, repr: Printer)
    requires Valid(j.output) && EndsTogether(j) && !Terminal(j.status)
    ensures RecordLength(Recovered(j, now), repr)
         == RecordLength(j, repr) + |repr(now)| + (if j.status.Running? then 21 else 22)
  {
    var k := Recovered(j, now);
    assert k == j.(status := Failed, finished := Some(now), error := Some(INTERRUPTED));
    RecordLengthIs(j, repr);
    RecordLengthIs(k, repr);
    InterruptedLength();
    StatusLengths();
    NullLengths(now, repr);
    hide RecordLength, Text, IdentityPrinted, LaunchPrinted, Whole, WholeOrNull, TimeOrNull, TextOrNull, Decode, StatusText,
      Recovered, LengthOf;
  }

  lemma NullLengths(now: real, repr: Printer)
    ensures LengthOf(TimeOrNull(None, repr)) == 4 && LengthOf(TextOrNull(None)) == 4
    ensures LengthOf(TimeOrNull(Some(now), repr)) == |repr(now)|
  {
  }

  /** So an interrupted job whose record just fits is restored by one start and skipped by the next: exactly
      when its record is within the bound, and beyond it with the new end. */
  lemma RestoredOnlyOnce(id: string, changes: seq<Change>, now: real, repr: Printer, outputLimit: nat)
    requires ValidJobId(id) && Runs(NewJob(id), changes, outputLimit)
    requires !Terminal(After(NewJob(id), changes, outputLimit).status)
    ensures var j := After(NewJob(id), changes, outputLimit);
            var again := Recovered(j, now);
            && Valid(j.output)
            && (Load(id, Written(j, repr), outputLimit).Accepted? && Load(id, Written(again, repr), outputLimit).Rejected?
                <==> SizeBound(outputLimit) - |repr(now)| - (if j.status.Running? then 21 else 22)
                     < RecordLength(j, repr) <= SizeBound(outputLimit))
  {
    var j := After(NewJob(id), changes, outputLimit);
    assert WellFormed(NewJob(id), outputLimit);
    RunsWellFormed(NewJob(id), changes, outputLimit);
    RunsEndTogether(NewJob(id), changes, outputLimit);
    RecoveredWellFormed(j, now, outputLimit);
    assert Recovered(j, now).output == j.output && Recovered(j, now).id == id;
    hide Runs, After, ValidJobId, RecordLength, Written, Load, Recovered, WellFormed;
    WrittenLoads(j, repr, outputLimit);
    WrittenLoads(Recovered(j, now), repr, outputLimit);
    RecoveryGrows(j, now, repr);
  }

  /** The metadata object with an integer for the start time. */
  function WithIntegerStart(j: Job, n: int): Json
    requires Valid(j.output)
  {
    Json.JObject(Metadata(j).fields["started" := Json.JInt(n)])
  }

  lemma GetUpdated(fields: map<string, Json>, v: Json, other: string)
    ensures Get(fields["started" := v], other) == if other == "started" then v else Get(fields, other)
  {
  }

  lemma IntegerStartFields(j: Job, n: int)
    requires Valid(j.output)
    ensures WithIntegerStart(j, n).JObject?
    ensures var f, g := Metadata(j).fields, WithIntegerStart(j, n).fields;
            && Get(g, "started") == Json.JInt(n)
            && Get(g, "job_id") == Get(f, "job_id") && Get(g, "status") == Get(f, "status")
            && Get(g, "output") == Get(f, "output") && Get(g, "output_offset") == Get(f, "output_offset")
            && Get(g, "truncated_before") == Get(f, "truncated_before") && Get(g, "exit_code") == Get(f, "exit_code")
            && Get(g, "finished") == Get(f, "finished") && Get(g, "error") == Get(f, "error")
            && Get(g, "process_identity") == Get(f, "process_identity") && Get(g, "launch") == Get(f, "launch")
  {
    var f, v := Metadata(j).fields, Json.JInt(n);
    hide Get, Metadata;
    GetUpdated(f, v, "started");
    GetUpdated(f, v, "job_id");
    GetUpdated(f, v, "status");
    GetUpdated(f, v, "output");
    GetUpdated(f, v, "output_offset");
    GetUpdated(f, v, "truncated_before");
    GetUpdated(f, v, "exit_code");
    GetUpdated(f, v, "finished");
    GetUpdated(f, v, "error");
    GetUpdated(f, v, "process_identity");
    GetUpdated(f, v, "launch");
  }

  /** Such a record loads if and only if a float can hold the integer, and otherwise stops the start. */
  lemma IntegerStartLoads(j: Job, n: int, size: nat, outputLimit: nat)
    requires WellFormed(j, outputLimit) && ValidJobId(j.id) && size <= SizeBound(outputLimit)
    ensures Load(j.id, File(true, size, Some(WithIntegerStart(j, n))), outputLimit)
         == if -FLOAT_OVERFLOW < n < FLOAT_OVERFLOW then Accepted(j.(started := Some(n as real))) else Raised
  {
    hide Encode, Decode, ParseStatus, StatusText, ParseIdentity, IdentityRecord, ParseLaunch, LaunchRecord,
      IdentityWellFormed, IsAscii, Metadata, Get, ParseExit, ParseTime, ParseError, IntOrNull, FloatOrNull, StringOrNull,
      FLOAT_OVERFLOW, ValidJobId, WithIntegerStart;
    EncodeOfDecode(j.output);
    StatusRoundTrip(j.status);
    LaunchRoundTrip(j.launchPhase, j.recoveryToken);
    if j.identity.Some? {
      IdentityRoundTrip(j.identity.value);
    } else {
      NoIdentityRoundTrip();
    }
    MetadataOutputFields(j);
    MetadataOtherFields(j);
    IntegerStartFields(j, n);
    PlainFieldsRoundTrip(j.exitCode, j.finished, j.error);
    IntegerTime(n);
  }

  lemma IntegerTime(n: int)
    ensures ParseTime(Json.JInt(n)) == if -FLOAT_OVERFLOW < n < FLOAT_OVERFLOW then Accepted(Some(n as real)) else Raised
  {
    hide FLOAT_OVERFLOW;
  }

  /** The failing input: 2^1024 seconds. */
  lemma EnormousTimeStopsStart(j: Job, size: nat, outputLimit: nat)
    requires WellFormed(j, outputLimit) && ValidJobId(j.id) && size <= SizeBound(outputLimit)
    ensures Load(j.id, File(true, size, Some(WithIntegerStart(j, Power2(1024)))), outputLimit).Raised?
  {
    hide Power2, Load, WellFormed, ValidJobId, WithIntegerStart;
    IntegerStartLoads(j, Power2(1024), size, outputLimit);
  }

  /** The agent's job table and its directory of records, one per job id. */
  class JobRunner {
    const outputLimit: nat
    const repr: Printer
    var jobs: map<string, Job>
    var disk: map<string, File>

    constructor (outputLimit: nat, repr: Printer, disk: map<string, File>)
      ensures jobs == map[] && this.disk == disk && this.outputLimit == outputLimit && this.repr == repr
    {
      this.outputLimit := outputLimit;
      this.repr := repr;
      this.jobs := map[];
      this.disk := disk;
    }

    /** The job a file yields at start-up. */
    function Restored(files: map<string, File>, now: real, id: string): Parsed<Job>
      requires id in files
    {
      var parsed := Load(id, files[id], outputLimit);
      if parsed.Accepted? then Accepted(Recovered(parsed.value, now)) else Rejected
    }

    /** A file that stops the agent's start: it is named like a record but not private, its integer time is
        too large for a float, or its job was still going and the new end cannot be written (`writable` are
        those that can). */
    predicate StopsStart(files: map<string, File>, writable: set<string>, id: string)
      requires id in files
    {
      var parsed := Load(id, files[id], outputLimit);
      parsed.Raised? || (parsed.Accepted? && !Terminal(parsed.value.status) && id !in writable)
    }

    /** The file after start-up: rewritten for a job that was still going. */
    function FileAfter(files: map<string, File>, now: real, id: string): File
      requires id in files
    {
      var parsed := Load(id, files[id], outputLimit);
      if parsed.Accepted? && !Terminal(parsed.value.status) then
        RestoredWellFormed(id, files[id], now, outputLimit);
        Written(Recovered(parsed.value, now), repr)
      else files[id]
    }

    /** `_load_jobs`. What it raises is not caught, so one such file keeps the agent from starting. */
    method LoadJobs(paths: seq<string>, writable: set<string>, now: real) returns (started: bool)
      requires jobs == map[]
      requires forall id :: id in paths <==> id in disk
      requires forall i, j | 0 <= i < j < |paths| :: paths[i] != paths[j]
      modifies this
      ensures started <==> forall id | id in old(disk) :: !StopsStart(old(disk), writable, id)
      ensures jobs.Keys <= disk.Keys == old(disk).Keys
      ensures started ==> forall id | id in disk :: id in jobs <==> Restored(old(disk), now, id).Accepted?
      ensures started ==> forall id | id in disk :: disk[id] == FileAfter(old(disk), now, id)
      ensures started ==>
                forall id | id in jobs ::
                  && jobs[id] == Restored(old(disk), now, id).value
                  && Terminal(jobs[id].status) && WellFormed(jobs[id], outputLimit)
                  && Load(id, disk[id], outputLimit)
                     == if SizeBound(outputLimit) < disk[id].size then Rejected else Accepted(jobs[id])
    {
      hide WellFormed, Recovered, Written, Terminal, Settled, Restored, FileAfter, Load, Valid;
      ghost var files := disk;
      for i := 0 to |paths|
        invariant jobs.Keys <= disk.Keys == files.Keys
        invariant forall k | 0 <= k < i :: Settled(files, now, jobs, disk, paths[k])
        invariant forall k | i <= k < |paths| :: paths[k] !in jobs && disk[paths[k]] == files[paths[k]]
        invariant forall k | 0 <= k < i :: !StopsStart(files, writable, paths[k])
      {
        var id := paths[i];
        ghost var jobs0, disk0 := jobs, disk;
        var parsed := Load(id, disk[id], outputLimit);
        if parsed.Raised? {
          return false;
        }
        if parsed.Accepted? {
          RestoredWellFormed(id, disk[id], now, outputLimit);
          var job := Recovered(parsed.value, now);
          jobs := jobs[id := job];
          if !Terminal(parsed.value.status) {
            if id !in writable {
              return false;
            }
            disk := disk[id := Written(job, repr)];
          }
        }
        SettledNow(files, now, jobs0, disk0, jobs, disk, id);
        forall k | 0 <= k < i ensures Settled(files, now, jobs, disk, paths[k]) {
          SettledStays(files, now, jobs0, disk0, jobs, disk, paths[k]);
        }
      }
      AllSettled(files, now, paths);
      started := true;
    }

    /** A file the loading loop has dealt with. */
    ghost predicate Settled(files: map<string, File>, now: real, jobs: map<string, Job>, disk: map<string, File>, id: string)
      requires id in disk && jobs.Keys <= disk.Keys == files.Keys
    {
      && disk[id] == FileAfter(files, now, id)
      && (id in jobs <==> Restored(files, now, id).Accepted?)
      && (id in jobs ==>
            && jobs[id] == Restored(files, now, id).value
            && Terminal(jobs[id].status) && WellFormed(jobs[id], outputLimit)
            && Load(id, disk[id], outputLimit)
               == if SizeBound(outputLimit) < disk[id].size then Rejected else Accepted(jobs[id]))
    }

    lemma SettledNow(files: map<string, File>, now: real, jobs0: map<string, Job>, disk0: map<string, File>,
                     jobs: map<string, Job>, disk: map<string, File>, id: string)
      requires id in files && jobs.Keys <= disk.Keys == disk0.Keys == files.Keys
      requires id !in jobs0 && disk0[id] == files[id]
      requires var parsed := Load(id, files[id], outputLimit);
               if parsed.Accepted? then
                 var job := Recovered(parsed.value, now);
                 && jobs == jobs0[id := job] && Valid(job.output)
                 && disk == if Terminal(parsed.value.status) then disk0 else disk0[id := Written(job, repr)]
               else jobs == jobs0 && disk == disk0
      ensures Settled(files, now, jobs, disk, id)
    {
      hide WellFormed, Recovered, Terminal, Written, Load, Valid;
      var parsed := Load(id, files[id], outputLimit);
      if parsed.Accepted? {
        RestoredWellFormed(id, files[id], now, outputLimit);
        FileLoads(id, files[id], parsed.value, now);
      }
    }

    /** The file after start-up is read as the job in memory, unless it has grown too large. */
    lemma FileLoads(id: string, f: File, j: Job, now: real)
      requires Load(id, f, outputLimit) == Accepted(j)
      ensures Valid(j.output) && Valid(Recovered(j, now).output)
      ensures Load(id, if Terminal(j.status) then f else Written(Recovered(j, now), repr), outputLimit)
           == if SizeBound(outputLimit) < (if Terminal(j.status) then f else Written(Recovered(j, now), repr)).size
              then Rejected else Accepted(Recovered(j, now))
    {
      LoadedIsWellFormed(id, f.content.value, outputLimit);
      RecoveredWellFormed(j, now, outputLimit);
      hide FromMetadata, ValidJobId, RecordLength, Metadata, Encode, Decode, IdentityWellFormed, IsAscii;
      WrittenLoads(Recovered(j, now), repr, outputLimit);
    }

    lemma SettledStays(files: map<string, File>, now: real, jobs0: map<string, Job>, disk0: map<string, File>,
                       jobs: map<string, Job>, disk: map<string, File>, id: string)
      requires id in files && jobs0.Keys <= files.Keys && jobs.Keys <= disk.Keys == disk0.Keys == files.Keys
      requires Settled(files, now, jobs0, disk0, id)
      requires (id in jobs <==> id in jobs0) && (id in jobs ==> jobs[id] == jobs0[id]) && disk[id] == disk0[id]
      ensures Settled(files, now, jobs, disk, id)
    {
      hide WellFormed, Terminal, Load, Restored, FileAfter;
    }

    lemma AllSettled(files: map<string, File>, now: real, paths: seq<string>)
      requires jobs.Keys <= disk.Keys == files.Keys && forall id :: id in paths <==> id in disk
      requires forall k | 0 <= k < |paths| :: Settled(files, now, jobs, disk, paths[k])
      ensures forall id | id in disk :: Settled(files, now, jobs, disk, id)
      ensures forall id | id in disk :: id in jobs <==> Restored(files, now, id).Accepted?
      ensures forall id | id in disk :: disk[id] == FileAfter(files, now, id)
      ensures forall id | id in jobs ::
                && jobs[id] == Restored(files, now, id).value
                && Terminal(jobs[id].status) && WellFormed(jobs[id], outputLimit)
                && Load(id, disk[id], outputLimit)
                   == if SizeBound(outputLimit) < disk[id].size then Rejected else Accepted(jobs[id])
    {
      hide WellFormed, Terminal, Load, Restored, FileAfter;
      assert forall id | id in disk :: id in paths;
    }

    static lemma RestoredWellFormed(id: string, f: File, now: real, outputLimit: nat)
      requires Load(id, f, outputLimit).Accepted?
      ensures var j := Load(id, f, outputLimit).value;
              && j.id == id && Valid(j.output) && Valid(Recovered(j, now).output)
              && WellFormed(Recovered(j, now), outputLimit) && Terminal(Recovered(j, now).status)
    {
      LoadedIsWellFormed(id, f.content.value, outputLimit);
      RecoveredWellFormed(Load(id, f, outputLimit).value, now, outputLimit);
      hide Encode, Decode, IdentityWellFormed, IsAscii, FromMetadata, ValidJobId;
    }
  }

  /** A new agent on a directory with one file: with `EscapesOutgrowSizeCheck` the job is not there, with
      `EnormousTimeStopsStart` neither is the agent. */
  method Restart(id: string, file: File, outputLimit: nat, repr: Printer, writable: bool, now: real)
    returns (started: bool, runner: JobRunner)
    ensures var parsed := Load(id, file, outputLimit);
            && (started <==> !parsed.Raised? && (parsed.Accepted? ==> Terminal(parsed.value.status) || writable))
            && (started ==> runner.jobs == if parsed.Accepted? then map[id := Recovered(parsed.value, now)] else map[])
  {
    var files, able := map[id := file], if writable then {id} else {};
    runner := new JobRunner(outputLimit, repr, files);
    hide Load, Recovered, Terminal;
    started := runner.LoadJobs([id], able, now);
    assert id in files && (started ==> !runner.StopsStart(files, able, id));
  }
}
