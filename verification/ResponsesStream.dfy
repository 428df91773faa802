/** Chat completion chunks turned into Responses events, and the agreement of that translation with the
    one for a buffered message. Item ids are generated and left out: an item is known by its index. */
module ResponsesStream {
  import opened Basics

  // ----- what arrives -----

  /** One entry of a delta's tool calls. Absent texts are empty; absent arguments are None. */
  datatype CallPiece = CallPiece(index: Option<int>, id: string, name: string, arguments: Option<string>)

  datatype Delta = Delta(reasoning: string, content: string, calls: seq<CallPiece>)

  /** A chunk without choices carries at most a usage block. */
  datatype Chunk = NoChoice | Choice(delta: Option<Delta>, finish: string)

  // ----- what leaves -----

  datatype Kind = Reasoning | Message | FunctionCall

  datatype CallId = NoCall | Given(text: string) | Generated(index: nat)

  datatype OutputItem =
    | ReasoningItem(text: string)
    | MessageItem(text: string)
    | CallItem(callId: CallId, name: string, arguments: string)

  datatype Status = Complete | Incomplete

  /** The event types, with the kind of item in place of separate names for the same step. */
  datatype Event =
    | Created
    | InProgress
    | ItemAdded(index: nat, kind: Kind, callId: CallId)
    | PartAdded(index: nat, kind: Kind)
    | TextDelta(index: nat, kind: Kind, text: string)
    | TextDone(index: nat, kind: Kind, text: string)
    | PartDone(index: nat, kind: Kind, text: string)
    | ItemDone(index: nat, item: OutputItem)
    | Completed(status: Status, output: seq<OutputItem>)

  datatype Frame = Frame(number: nat, event: Event)

  function Numbered(n: nat, events: seq<Event>): seq<Frame> {
    seq(|events|, i requires 0 <= i < |events| => Frame(n + i, events[i]))
  }

  lemma NumberedConcat(n: nat, a: seq<Event>, b: seq<Event>)
    ensures Numbered(n, a + b) == Numbered(n, a) + Numbered(n + |a|, b)
  {
  }

  // ----- tool names -----

  /** The position of the first "__" from i on, or the length of the name. */
  function Namespace(name: string, i: nat): (end: nat)
    requires i <= |name|
    ensures i <= end <= |name|
    ensures end < |name| ==> end + 2 <= |name|
    decreases |name| - i
  {
    if i + 2 <= |name| && name[i] == '_' && name[i + 1] == '_' then i
    else if i == |name| then i
    else Namespace(name, i + 1)
  }

  /** `chat_tool_name_to_client_name`. */
  function ClientName(name: string): string {
    var end := Namespace(name, 0);
    if end < |name| then name[end + 2..] else name
  }

  // ----- the translator's state -----

  datatype TextState = TextState(index: nat, text: string)

  datatype CallState = CallState(index: nat, callId: CallId, name: string, arguments: string)

  datatype State = State(nextIndex: nat, reasoning: Option<TextState>, message: Option<TextState>,
                         calls: map<int, CallState>, order: seq<int>, finishReason: string, completed: bool)

  datatype Effect = Effect(state: State, events: seq<Event>)

  const INITIAL: State := State(0, None, None, map[], [], "", false)

  predicate OrderIsKeys(s: State) {
    && (forall i | 0 <= i < |s.order| :: s.order[i] in s.calls)
    && (forall i, j | 0 <= i < j < |s.order| :: s.order[i] != s.order[j])
    && (forall k | k in s.calls :: k in s.order)
  }

  function EnsureReasoning(s: State): Effect {
    if s.reasoning.Some? then Effect(s, [])
    else Effect(s.(nextIndex := s.nextIndex + 1, reasoning := Some(TextState(s.nextIndex, ""))),
                [ItemAdded(s.nextIndex, Reasoning, NoCall), PartAdded(s.nextIndex, Reasoning)])
  }

  function AddReasoning(s: State, text: string): Effect {
    if text == "" then Effect(s, [])
    else
      var e := EnsureReasoning(s);
      var r := e.state.reasoning.value;
      Effect(e.state.(reasoning := Some(r.(text := r.text + text))), e.events + [TextDelta(r.index, Reasoning, text)])
  }

  function EnsureMessage(s: State): Effect {
    if s.message.Some? then Effect(s, [])
    else Effect(s.(nextIndex := s.nextIndex + 1, message := Some(TextState(s.nextIndex, ""))),
                [ItemAdded(s.nextIndex, Message, NoCall), PartAdded(s.nextIndex, Message)])
  }

  function AddContent(s: State, text: string): Effect {
    if text == "" then Effect(s, [])
    else
      var e := EnsureMessage(s);
      var m := e.state.message.value;
      Effect(e.state.(message := Some(m.(text := m.text + text))), e.events + [TextDelta(m.index, Message, text)])
  }

  function KeyOf(s: State, p: CallPiece): int {
    if p.index.Some? then p.index.value else |s.order|
  }

  function EnsureCall(s: State, key: int, id: string, name: string): (e: Effect)
    ensures key in e.state.calls
  {
    if key in s.calls then Effect(s, [])
    else
      var call := CallState(s.nextIndex, if id == "" then Generated(s.nextIndex) else Given(id), ClientName(name), "");
      Effect(s.(nextIndex := s.nextIndex + 1, calls := s.calls[key := call], order := s.order + [key]),
             [ItemAdded(s.nextIndex, FunctionCall, call.callId)])
  }

  /** One tool call entry: a name still empty is taken from a later piece, arguments are appended. */
  function AddPiece(s: State, p: CallPiece): Effect {
    var key := KeyOf(s, p);
    var e := EnsureCall(s, key, p.id, p.name);
    var call := e.state.calls[key];
    var named := if p.name != "" && call.name == "" then call.(name := ClientName(p.name)) else call;
    if p.arguments.Some? && p.arguments.value != "" then
      Effect(e.state.(calls := e.state.calls[key := named.(arguments := named.arguments + p.arguments.value)]),
             e.events + [TextDelta(named.index, FunctionCall, p.arguments.value)])
    else Effect(e.state.(calls := e.state.calls[key := named]), e.events)
  }

  function AddPieces(s: State, pieces: seq<CallPiece>): Effect
    decreases |pieces|
  {
    if pieces == [] then Effect(s, [])
    else
      var first := AddPiece(s, pieces[0]);
      var rest := AddPieces(first.state, pieces[1..]);
      Effect(rest.state, first.events + rest.events)
  }

  function AddDelta(s: State, d: Delta): Effect {
    var r := AddReasoning(s, d.reasoning);
    var m := AddContent(r.state, d.content);
    var c := AddPieces(m.state, d.calls);
    Effect(c.state, r.events + m.events + c.events)
  }

  function FeedChunk(s: State, c: Chunk): Effect {
    match c
    case NoChoice => Effect(s, [])
    case Choice(delta, finish) =>
      var e := if delta.Some? then AddDelta(s, delta.value) else Effect(s, []);
      Effect(if finish == "" then e.state else e.state.(finishReason := finish), e.events)
  }

  function FeedAll(s: State, chunks: seq<Chunk>): Effect
    decreases |chunks|
  {
    if chunks == [] then Effect(s, [])
    else
      var first := FeedChunk(s, chunks[0]);
      var rest := FeedAll(first.state, chunks[1..]);
      Effect(rest.state, first.events + rest.events)
  }

  // ----- finishing -----

  function CallItemOf(c: CallState): OutputItem {
    CallItem(c.callId, c.name, c.arguments)
  }

  function CloseReasoning(r: TextState): seq<Event> {
    [TextDone(r.index, Reasoning, r.text), PartDone(r.index, Reasoning, r.text), ItemDone(r.index, ReasoningItem(r.text))]
  }

  function CloseMessage(m: TextState): seq<Event> {
    [TextDone(m.index, Message, m.text), PartDone(m.index, Message, m.text), ItemDone(m.index, MessageItem(m.text))]
  }

  function CloseCall(c: CallState): seq<Event> {
    [TextDone(c.index, FunctionCall, c.arguments), ItemDone(c.index, CallItemOf(c))]
  }

  function CloseCalls(s: State, keys: seq<int>): seq<Event>
    requires forall i | 0 <= i < |keys| :: keys[i] in s.calls
  {
    if keys == [] then [] else CloseCall(s.calls[keys[0]]) + CloseCalls(s, keys[1..])
  }

  function CallItems(s: State, keys: seq<int>): seq<OutputItem>
    requires forall i | 0 <= i < |keys| :: keys[i] in s.calls
  {
    if keys == [] then [] else [CallItemOf(s.calls[keys[0]])] + CallItems(s, keys[1..])
  }

  function ReasoningItems(s: State): seq<OutputItem> {
    if s.reasoning.Some? then [ReasoningItem(s.reasoning.value.text)] else []
  }

  function MessageItems(s: State): seq<OutputItem> {
    if s.message.Some? then [MessageItem(s.message.value.text)] else []
  }

  function Output(s: State): seq<OutputItem>
    requires OrderIsKeys(s)
  {
    ReasoningItems(s) + MessageItems(s) + CallItems(s, s.order)
  }

  function StatusOf(finish: string): Status {
    if finish == "length" then Incomplete else Complete
  }

  function CloseTextsOf(s: State): seq<Event> {
    (if s.reasoning.Some? then CloseReasoning(s.reasoning.value) else [])
    + (if s.message.Some? then CloseMessage(s.message.value) else [])
  }

  function FinishEvents(s: State): seq<Event>
    requires OrderIsKeys(s)
  {
    if s.completed then []
    else CloseTextsOf(s) + CloseCalls(s, s.order) + [Completed(StatusOf(s.finishReason), Output(s))]
  }

  // ----- the tool-call table stays consistent -----

  lemma AddPieceKeepsOrder(s: State, p: CallPiece)
    requires OrderIsKeys(s)
    ensures OrderIsKeys(AddPiece(s, p).state)
  {
    hide ClientName;
    var key := KeyOf(s, p);
    var t := AddPiece(s, p).state;
    if key !in s.calls {
      assert t.order == s.order + [key];
      assert t.order[|s.order|] == key;
    }
  }

  lemma {:induction false} AddPiecesKeepsOrder(s: State, pieces: seq<CallPiece>)
    requires OrderIsKeys(s)
    ensures OrderIsKeys(AddPieces(s, pieces).state)
    decreases |pieces|
  {
    if pieces != [] {
      AddPieceKeepsOrder(s, pieces[0]);
      AddPiecesKeepsOrder(AddPiece(s, pieces[0]).state, pieces[1..]);
    }
  }

  lemma FeedChunkKeepsOrder(s: State, c: Chunk)
    requires OrderIsKeys(s)
    ensures OrderIsKeys(FeedChunk(s, c).state)
  {
    if c.Choice? && c.delta.Some? {
      var d := c.delta.value;
      AddPiecesKeepsOrder(AddContent(AddReasoning(s, d.reasoning).state, d.content).state, d.calls);
    }
  }

  lemma {:induction false} FeedAllKeepsOrder(s: State, chunks: seq<Chunk>)
    requires OrderIsKeys(s)
    ensures OrderIsKeys(FeedAll(s, chunks).state)
    decreases |chunks|
  {
    if chunks != [] {
      FeedChunkKeepsOrder(s, chunks[0]);
      FeedAllKeepsOrder(FeedChunk(s, chunks[0]).state, chunks[1..]);
    }
  }

  // ----- a client that checks the event protocol -----

  /** An item as the client has seen it grow. */
  datatype Seen = Seen(kind: Kind, callId: CallId, text: string, textDone: bool, closed: bool)

  datatype Client = Client(stage: nat, items: seq<Seen>, output: seq<OutputItem>, finished: bool)

  function KindOf(item: OutputItem): Kind {
    match item
    case ReasoningItem(_) => Reasoning
    case MessageItem(_) => Message
    case CallItem(_, _, _) => FunctionCall
  }

  function TextOf(item: OutputItem): string {
    if item.CallItem? then item.arguments else item.text
  }

  function CallIdOf(item: OutputItem): CallId {
    if item.CallItem? then item.callId else NoCall
  }

  /** One event. Items are added at the next index, grow by deltas while open, and are closed once, with
      the text their deltas add up to; the response completes when every item is closed, with exactly
      the closed items. None is a protocol violation. */
  function Observe(c: Client, e: Event): Option<Client> {
    match e
    case Created => if c.stage == 0 then Some(c.(stage := 1)) else None
    case InProgress => if c.stage == 1 then Some(c.(stage := 2)) else None
    case ItemAdded(i, kind, callId) =>
      if c.stage == 2 && !c.finished && i == |c.items|
      then Some(c.(items := c.items + [Seen(kind, callId, "", false, false)])) else None
    case PartAdded(i, kind) =>
      if !c.finished && i < |c.items| && c.items[i].kind == kind && c.items[i].text == "" && !c.items[i].textDone
      then Some(c) else None
    case TextDelta(i, kind, text) =>
      if !c.finished && i < |c.items| && c.items[i].kind == kind && !c.items[i].textDone && text != ""
      then Some(c.(items := c.items[i := c.items[i].(text := c.items[i].text + text)])) else None
    case TextDone(i, kind, text) =>
      if !c.finished && i < |c.items| && c.items[i].kind == kind && !c.items[i].textDone && c.items[i].text == text
      then Some(c.(items := c.items[i := c.items[i].(textDone := true)])) else None
    case PartDone(i, kind, text) =>
      if !c.finished && i < |c.items| && c.items[i].kind == kind && c.items[i].textDone && !c.items[i].closed
         && c.items[i].text == text
      then Some(c) else None
    case ItemDone(i, item) =>
      if !c.finished && i < |c.items| && c.items[i].kind == KindOf(item) && c.items[i].textDone && !c.items[i].closed
         && c.items[i].text == TextOf(item) && c.items[i].callId == CallIdOf(item)
      then Some(c.(items := c.items[i := c.items[i].(closed := true)], output := c.output + [item])) else None
    case Completed(_, output) =>
      if !c.finished && (forall i | 0 <= i < |c.items| :: c.items[i].closed) && output == c.output
      then Some(c.(finished := true)) else None
  }

  function ObserveAll(c: Client, events: seq<Event>): Option<Client>
    decreases |events|
  {
    if events == [] then Some(c)
    else
      var next := Observe(c, events[0]);
      if next.Some? then ObserveAll(next.value, events[1..]) else None
  }

  lemma {:induction false} ObserveConcat(c: Client, a: seq<Event>, b: seq<Event>)
    requires ObserveAll(c, a).Some?
    ensures ObserveAll(c, a + b) == ObserveAll(ObserveAll(c, a).value, b)
    decreases |a|
  {
    hide Observe;
    if a == [] {
      assert a + b == b;
    } else {
      assert (a + b)[0] == a[0] && (a + b)[1..] == a[1..] + b;
      ObserveConcat(Observe(c, a[0]).value, a[1..], b);
    }
  }

  lemma ObserveOne(c: Client, e: Event)
    ensures ObserveAll(c, [e]) == Observe(c, e)
  {
    assert [e][1..] == [];
    hide Observe;
    if Observe(c, e).Some? {
      assert ObserveAll(Observe(c, e).value, []) == Observe(c, e);
    }
  }

  // ----- the client's items and the translator's -----

  /** Which of the translator's items stands at an index. */
  datatype Owner = OwnReasoning | OwnMessage | OwnCall(key: int)

  predicate Owned(s: State, o: Owner) {
    match o
    case OwnReasoning => s.reasoning.Some?
    case OwnMessage => s.message.Some?
    case OwnCall(key) => key in s.calls
  }

  function IndexOf(s: State, o: Owner): nat
    requires Owned(s, o)
  {
    match o
    case OwnReasoning => s.reasoning.value.index
    case OwnMessage => s.message.value.index
    case OwnCall(key) => s.calls[key].index
  }

  function SeenItem(s: State, o: Owner, closed: bool): Seen
    requires Owned(s, o)
  {
    match o
    case OwnReasoning => Seen(Reasoning, NoCall, s.reasoning.value.text, closed, closed)
    case OwnMessage => Seen(Message, NoCall, s.message.value.text, closed, closed)
    case OwnCall(key) => Seen(FunctionCall, s.calls[key].callId, s.calls[key].arguments, closed, closed)
  }

  /** The client has seen exactly the translator's items, of which those in `done` are closed. */
  ghost predicate InStep(s: State, owners: seq<Owner>, c: Client, done: set<Owner>) {
    && c.stage == 2 && !c.finished
    && |owners| == |c.items| == s.nextIndex
    && (forall i | 0 <= i < |owners| ::
          Owned(s, owners[i]) && IndexOf(s, owners[i]) == i && c.items[i] == SeenItem(s, owners[i], owners[i] in done))
    && (forall o | Owned(s, o) :: IndexOf(s, o) < |owners| && owners[IndexOf(s, o)] == o)
  }

  /** Adding an item. */
  lemma ItemAddedInStep(s: State, owners: seq<Owner>, c: Client, o: Owner, s': State, kind: Kind, callId: CallId)
    requires InStep(s, owners, c, {}) && !Owned(s, o)
    requires s'.nextIndex == s.nextIndex + 1 && Owned(s', o) && IndexOf(s', o) == s.nextIndex
    requires SeenItem(s', o, false) == Seen(kind, callId, "", false, false)
    requires forall q | q != o :: (Owned(s', q) <==> Owned(s, q)) &&
                                  (Owned(s, q) ==> IndexOf(s', q) == IndexOf(s, q)
                                                   && SeenItem(s', q, false) == SeenItem(s, q, false))
    ensures var next := Observe(c, ItemAdded(s.nextIndex, kind, callId));
            next.Some? && InStep(s', owners + [o], next.value, {})
            && next.value == c.(items := c.items + [Seen(kind, callId, "", false, false)])
  {
    hide SeenItem, IndexOf, Owned;
    var owners' := owners + [o];
    forall i | 0 <= i < |owners| ensures owners'[i] == owners[i] && owners[i] != o {
    }
  }

  /** A delta for an open item. */
  lemma DeltaInStep(s: State, owners: seq<Owner>, c: Client, o: Owner, s': State, kind: Kind, text: string)
    requires InStep(s, owners, c, {}) && Owned(s, o) && text != "" && SeenItem(s, o, false).kind == kind
    requires s'.nextIndex == s.nextIndex && Owned(s', o) && IndexOf(s', o) == IndexOf(s, o)
    requires var seen := SeenItem(s, o, false); SeenItem(s', o, false) == seen.(text := seen.text + text)
    requires forall q | q != o :: (Owned(s', q) <==> Owned(s, q)) &&
                                  (Owned(s, q) ==> IndexOf(s', q) == IndexOf(s, q)
                                                   && SeenItem(s', q, false) == SeenItem(s, q, false))
    ensures var next := Observe(c, TextDelta(IndexOf(s, o), kind, text));
            next.Some? && InStep(s', owners, next.value, {}) && next.value.output == c.output
  {
    assert !SeenItem(s, o, false).textDone;
    hide SeenItem, IndexOf, Owned;
    var i := IndexOf(s, o);
    assert c.items[i] == SeenItem(s, o, false);
  }

  /** Closing an item. */
  lemma ClosedInStep(s: State, owners: seq<Owner>, c: Client, done: set<Owner>, o: Owner, item: OutputItem)
    requires InStep(s, owners, c, done) && Owned(s, o) && o !in done
    requires SeenItem(s, o, false) == Seen(KindOf(item), CallIdOf(item), TextOf(item), false, false)
    ensures var i := IndexOf(s, o);
            var first := Observe(c, TextDone(i, KindOf(item), TextOf(item)));
            && first.Some?
            && Observe(first.value, PartDone(i, KindOf(item), TextOf(item))) == first
            && var second := Observe(first.value, ItemDone(i, item));
               second.Some? && InStep(s, owners, second.value, done + {o}) && second.value.output == c.output + [item]
  {
    var i := IndexOf(s, o);
    assert c.items[i] == SeenItem(s, o, false);
    assert SeenItem(s, o, true) == SeenItem(s, o, false).(textDone := true, closed := true);
    hide SeenItem, IndexOf, Owned, KindOf, CallIdOf, TextOf;
  }

  lemma ObserveTwo(c: Client, a: Event, b: Event)
    requires Observe(c, a).Some?
    ensures ObserveAll(c, [a, b]) == Observe(Observe(c, a).value, b)
  {
    assert [a, b][1..] == [b];
    hide Observe;
    ObserveOne(Observe(c, a).value, b);
  }

  lemma ObserveThree(c: Client, a: Event, b: Event, d: Event)
    requires Observe(c, a).Some? && Observe(Observe(c, a).value, b).Some?
    ensures ObserveAll(c, [a, b, d]) == Observe(Observe(Observe(c, a).value, b).value, d)
  {
    assert [a, b, d][1..] == [b, d];
    hide Observe;
    ObserveTwo(Observe(c, a).value, b, d);
  }

  /** The events are accepted, and the client stays in step with the translator's new state. */
  ghost predicate Accepted(c: Client, e: Effect, owners: seq<Owner>, c': Client) {
    ObserveAll(c, e.events) == Some(c') && InStep(e.state, owners, c', {}) && c'.output == c.output
  }

  lemma EnsureReasoningInStep(s: State, owners: seq<Owner>, c: Client) returns (owners': seq<Owner>, c': Client)
    requires InStep(s, owners, c, {})
    ensures Accepted(c, EnsureReasoning(s), owners', c')
  {
    owners', c' := owners, c;
    if s.reasoning.None? {
      var s' := EnsureReasoning(s).state;
      ItemAddedInStep(s, owners, c, OwnReasoning, s', Reasoning, NoCall);
      owners', c' := owners + [OwnReasoning], Observe(c, ItemAdded(s.nextIndex, Reasoning, NoCall)).value;
      hide InStep;
      ObserveTwo(c, ItemAdded(s.nextIndex, Reasoning, NoCall), PartAdded(s.nextIndex, Reasoning));
    }
  }

  lemma AddReasoningInStep(s: State, owners: seq<Owner>, c: Client, text: string)
    returns (owners': seq<Owner>, c': Client)
    requires InStep(s, owners, c, {})
    ensures Accepted(c, AddReasoning(s, text), owners', c')
  {
    owners', c' := owners, c;
    if text != "" {
      var e := EnsureReasoning(s);
      owners', c' := EnsureReasoningInStep(s, owners, c);
      var delta := TextDelta(e.state.reasoning.value.index, Reasoning, text);
      DeltaInStep(e.state, owners', c', OwnReasoning, AddReasoning(s, text).state, Reasoning, text);
      hide InStep, Observe, ObserveAll;
      ObserveConcat(c, e.events, [delta]);
      ObserveOne(c', delta);
      c' := Observe(c', delta).value;
    }
  }

  lemma EnsureMessageInStep(s: State, owners: seq<Owner>, c: Client) returns (owners': seq<Owner>, c': Client)
    requires InStep(s, owners, c, {})
    ensures Accepted(c, EnsureMessage(s), owners', c')
  {
    owners', c' := owners, c;
    if s.message.None? {
      var s' := EnsureMessage(s).state;
      ItemAddedInStep(s, owners, c, OwnMessage, s', Message, NoCall);
      owners', c' := owners + [OwnMessage], Observe(c, ItemAdded(s.nextIndex, Message, NoCall)).value;
      hide InStep;
      ObserveTwo(c, ItemAdded(s.nextIndex, Message, NoCall), PartAdded(s.nextIndex, Message));
    }
  }

  lemma AddContentInStep(s: State, owners: seq<Owner>, c: Client, text: string)
    returns (owners': seq<Owner>, c': Client)
    requires InStep(s, owners, c, {})
    ensures Accepted(c, AddContent(s, text), owners', c')
  {
    owners', c' := owners, c;
    if text != "" {
      var e := EnsureMessage(s);
      owners', c' := EnsureMessageInStep(s, owners, c);
      var delta := TextDelta(e.state.message.value.index, Message, text);
      DeltaInStep(e.state, owners', c', OwnMessage, AddContent(s, text).state, Message, text);
      hide InStep, Observe, ObserveAll;
      ObserveConcat(c, e.events, [delta]);
      ObserveOne(c', delta);
      c' := Observe(c', delta).value;
    }
  }

  lemma EnsureCallInStep(s: State, owners: seq<Owner>, c: Client, key: int, id: string, name: string)
    returns (owners': seq<Owner>, c': Client)
    requires InStep(s, owners, c, {})
    ensures Accepted(c, EnsureCall(s, key, id, name), owners', c')
  {
    owners', c' := owners, c;
    if key !in s.calls {
      var e := EnsureCall(s, key, id, name);
      hide ClientName;
      ItemAddedInStep(s, owners, c, OwnCall(key), e.state, FunctionCall, e.state.calls[key].callId);
      owners', c' := owners + [OwnCall(key)], Observe(c, e.events[0]).value;
      hide InStep;
      ObserveOne(c, e.events[0]);
    }
  }

  /** Nothing the client sees depends on the name. */
  lemma RenamedInStep(s: State, owners: seq<Owner>, c: Client, key: int, name: string)
    requires InStep(s, owners, c, {}) && key in s.calls
    ensures InStep(s.(calls := s.calls[key := s.calls[key].(name := name)]), owners, c, {})
  {
    var s' := s.(calls := s.calls[key := s.calls[key].(name := name)]);
    forall o: Owner
      ensures Owned(s', o) <==> Owned(s, o)
      ensures Owned(s, o) ==> IndexOf(s', o) == IndexOf(s, o) && SeenItem(s', o, false) == SeenItem(s, o, false)
    {
    }
    hide Owned, IndexOf, SeenItem;
  }

  lemma AddPieceInStep(s: State, owners: seq<Owner>, c: Client, p: CallPiece)
    returns (owners': seq<Owner>, c': Client)
    requires InStep(s, owners, c, {})
    ensures Accepted(c, AddPiece(s, p), owners', c')
  {
    hide ClientName, InStep, Observe, ObserveAll;
    var key := KeyOf(s, p);
    var e := EnsureCall(s, key, p.id, p.name);
    owners', c' := EnsureCallInStep(s, owners, c, key, p.id, p.name);
    var call := e.state.calls[key];
    var name := if p.name != "" && call.name == "" then ClientName(p.name) else call.name;
    var s1 := e.state.(calls := e.state.calls[key := call.(name := name)]);
    RenamedInStep(e.state, owners', c', key, name);
    if p.arguments.Some? && p.arguments.value != "" {
      var text := p.arguments.value;
      var s2 := s1.(calls := s1.calls[key := s1.calls[key].(arguments := call.arguments + text)]);
      assert s2.calls == AddPiece(s, p).state.calls;
      assert s2 == AddPiece(s, p).state;
      var delta := TextDelta(call.index, FunctionCall, text);
      DeltaInStep(s1, owners', c', OwnCall(key), s2, FunctionCall, text);
      ObserveConcat(c, e.events, [delta]);
      ObserveOne(c', delta);
      c' := Observe(c', delta).value;
    } else {
      assert s1 == AddPiece(s, p).state;
    }
  }

  lemma {:induction false} AddPiecesInStep(s: State, owners: seq<Owner>, c: Client, pieces: seq<CallPiece>)
    returns (owners': seq<Owner>, c': Client)
    requires InStep(s, owners, c, {})
    ensures Accepted(c, AddPieces(s, pieces), owners', c')
    decreases |pieces|
  {
    owners', c' := owners, c;
    if pieces != [] {
      hide AddPiece, InStep, Observe;
      var first := AddPiece(s, pieces[0]);
      owners', c' := AddPieceInStep(s, owners, c, pieces[0]);
      ObserveConcat(c, first.events, AddPieces(first.state, pieces[1..]).events);
      owners', c' := AddPiecesInStep(first.state, owners', c', pieces[1..]);
    }
  }

  lemma FeedChunkInStep(s: State, owners: seq<Owner>, c: Client, chunk: Chunk)
    returns (owners': seq<Owner>, c': Client)
    requires InStep(s, owners, c, {})
    ensures Accepted(c, FeedChunk(s, chunk), owners', c')
  {
    hide AddPieces, AddReasoning, AddContent, Observe, Owned, SeenItem, IndexOf;
    owners', c' := owners, c;
    if chunk.Choice? && chunk.delta.Some? {
      var d := chunk.delta.value;
      var r := AddReasoning(s, d.reasoning);
      var m := AddContent(r.state, d.content);
      var p := AddPieces(m.state, d.calls);
      owners', c' := AddReasoningInStep(s, owners, c, d.reasoning);
      ObserveConcat(c, r.events, m.events);
      owners', c' := AddContentInStep(r.state, owners', c', d.content);
      ObserveConcat(c, r.events + m.events, p.events);
      owners', c' := AddPiecesInStep(m.state, owners', c', d.calls);
      FinishReasonInStep(p.state, owners', c', chunk.finish);
    } else if chunk.Choice? {
      FinishReasonInStep(s, owners, c, chunk.finish);
    }
  }

  lemma FinishReasonInStep(s: State, owners: seq<Owner>, c: Client, finish: string)
    requires InStep(s, owners, c, {})
    ensures InStep(s.(finishReason := finish), owners, c, {})
  {
    var s' := s.(finishReason := finish);
    forall o: Owner
      ensures Owned(s', o) <==> Owned(s, o)
      ensures Owned(s, o) ==> IndexOf(s', o) == IndexOf(s, o) && SeenItem(s', o, false) == SeenItem(s, o, false)
    {
    }
    hide Owned, IndexOf, SeenItem;
  }

  lemma {:induction false} FeedAllInStep(s: State, owners: seq<Owner>, c: Client, chunks: seq<Chunk>)
    returns (owners': seq<Owner>, c': Client)
    requires InStep(s, owners, c, {})
    ensures Accepted(c, FeedAll(s, chunks), owners', c')
    decreases |chunks|
  {
    owners', c' := owners, c;
    if chunks != [] {
      hide FeedChunk, InStep, Observe;
      var first := FeedChunk(s, chunks[0]);
      owners', c' := FeedChunkInStep(s, owners, c, chunks[0]);
      ObserveConcat(c, first.events, FeedAll(first.state, chunks[1..]).events);
      owners', c' := FeedAllInStep(first.state, owners', c', chunks[1..]);
    }
  }

  // ----- closing -----

  lemma CloseItem(s: State, owners: seq<Owner>, c: Client, done: set<Owner>, o: Owner, item: OutputItem,
                  parts: bool) returns (c': Client)
    requires InStep(s, owners, c, done) && Owned(s, o) && o !in done
    requires SeenItem(s, o, false) == Seen(KindOf(item), CallIdOf(item), TextOf(item), false, false)
    ensures var i := IndexOf(s, o);
            var textDone, itemDone := TextDone(i, KindOf(item), TextOf(item)), ItemDone(i, item);
            ObserveAll(c, if parts then [textDone, PartDone(i, KindOf(item), TextOf(item)), itemDone]
                          else [textDone, itemDone]) == Some(c')
    ensures InStep(s, owners, c', done + {o}) && c'.output == c.output + [item]
  {
    ClosedInStep(s, owners, c, done, o, item);
    hide InStep, Observe, KindOf, TextOf, IndexOf;
    var i := IndexOf(s, o);
    var textDone, itemDone := TextDone(i, KindOf(item), TextOf(item)), ItemDone(i, item);
    var partDone := PartDone(i, KindOf(item), TextOf(item));
    ObserveTwo(c, textDone, itemDone);
    ObserveThree(c, textDone, partDone, itemDone);
    c' := Observe(Observe(c, textDone).value, itemDone).value;
  }

  lemma CloseReasoningInStep(s: State, owners: seq<Owner>, c: Client, done: set<Owner>)
    returns (c': Client, done': set<Owner>)
    requires InStep(s, owners, c, done) && OwnReasoning !in done
    ensures ObserveAll(c, if s.reasoning.Some? then CloseReasoning(s.reasoning.value) else []) == Some(c')
    ensures InStep(s, owners, c', done') && c'.output == c.output + ReasoningItems(s)
    ensures done' == if s.reasoning.Some? then done + {OwnReasoning} else done
  {
    c', done' := c, done;
    if s.reasoning.Some? {
      c' := CloseItem(s, owners, c, done, OwnReasoning, ReasoningItem(s.reasoning.value.text), true);
      done' := done + {OwnReasoning};
    } else {
      assert c.output + [] == c.output;
    }
  }

  lemma CloseMessageInStep(s: State, owners: seq<Owner>, c: Client, done: set<Owner>)
    returns (c': Client, done': set<Owner>)
    requires InStep(s, owners, c, done) && OwnMessage !in done
    ensures ObserveAll(c, if s.message.Some? then CloseMessage(s.message.value) else []) == Some(c')
    ensures InStep(s, owners, c', done') && c'.output == c.output + MessageItems(s)
    ensures done' == if s.message.Some? then done + {OwnMessage} else done
  {
    c', done' := c, done;
    if s.message.Some? {
      c' := CloseItem(s, owners, c, done, OwnMessage, MessageItem(s.message.value.text), true);
      done' := done + {OwnMessage};
    } else {
      assert c.output + [] == c.output;
    }
  }

  lemma {:induction false} CloseCallsInStep(s: State, owners: seq<Owner>, c: Client, done: set<Owner>, keys: seq<int>)
    returns (c': Client, done': set<Owner>)
    requires InStep(s, owners, c, done)
    requires forall i | 0 <= i < |keys| :: keys[i] in s.calls && OwnCall(keys[i]) !in done
    requires forall i, j | 0 <= i < j < |keys| :: keys[i] != keys[j]
    ensures ObserveAll(c, CloseCalls(s, keys)) == Some(c')
    ensures InStep(s, owners, c', done') && c'.output == c.output + CallItems(s, keys)
    ensures done <= done' && forall i | 0 <= i < |keys| :: OwnCall(keys[i]) in done'
    decreases |keys|
  {
    c', done' := c, done;
    if keys == [] {
      assert c.output + [] == c.output;
    } else {
      var call := s.calls[keys[0]];
      c' := CloseItem(s, owners, c, done, OwnCall(keys[0]), CallItemOf(call), false);
      hide InStep, Observe, ObserveAll;
      ObserveConcat(c, CloseCall(call), CloseCalls(s, keys[1..]));
      c', done' := CloseCallsInStep(s, owners, c', done + {OwnCall(keys[0])}, keys[1..]);
      ConcatAssociative(c.output, [CallItemOf(call)], CallItems(s, keys[1..]));
    }
  }

  lemma AllClosed(s: State, owners: seq<Owner>, c: Client, done: set<Owner>)
    requires InStep(s, owners, c, done)
    requires forall o | Owned(s, o) :: o in done
    ensures forall i | 0 <= i < |c.items| :: c.items[i].closed
  {
  }

  lemma FinishIsAccepted(s: State, owners: seq<Owner>, c: Client) returns (c': Client)
    requires InStep(s, owners, c, {}) && OrderIsKeys(s) && !s.completed && c.output == []
    ensures ObserveAll(c, FinishEvents(s)) == Some(c')
    ensures c'.finished && c'.output == Output(s) && |c'.items| == s.nextIndex
  {
    hide InStep, Observe, ObserveAll, CloseReasoning, CloseMessage, CloseCall, CloseCalls, CallItems, ReasoningItems,
      MessageItems, StatusOf;
    var a := if s.reasoning.Some? then CloseReasoning(s.reasoning.value) else [];
    var b := if s.message.Some? then CloseMessage(s.message.value) else [];
    var last := Completed(StatusOf(s.finishReason), Output(s));
    var c1, done1 := CloseReasoningInStep(s, owners, c, {});
    var c2, done2 := CloseMessageInStep(s, owners, c1, done1);
    var c3, done3 := CloseCallsInStep(s, owners, c2, done2, s.order);
    assert [] + ReasoningItems(s) == ReasoningItems(s);
    assert c3.output == Output(s);
    assert forall o | Owned(s, o) :: o in done3;
    AllClosed(s, owners, c3, done3);
    ObserveConcat(c, a, b);
    ObserveConcat(c, a + b, CloseCalls(s, s.order));
    ObserveConcat(c, a + b + CloseCalls(s, s.order), [last]);
    ObserveOne(c3, last);
    c' := CompletedIsAccepted(s, owners, c3, done3, last);
  }

  lemma CompletedIsAccepted(s: State, owners: seq<Owner>, c: Client, done: set<Owner>, last: Event) returns (c': Client)
    requires InStep(s, owners, c, done) && last.Completed? && last.output == c.output
    requires forall i | 0 <= i < |c.items| :: c.items[i].closed
    ensures Observe(c, last) == Some(c') && c'.finished && c'.output == c.output && |c'.items| == s.nextIndex
  {
    c' := c.(finished := true);
  }

  // ----- whole runs -----

  /** The events of start, feed for every chunk, finish. */
  function RunEvents(chunks: seq<Chunk>): seq<Event> {
    var fed := FeedAll(INITIAL, chunks);
    FeedAllKeepsOrder(INITIAL, chunks);
    [Created, InProgress] + fed.events + FinishEvents(fed.state)
  }

  lemma {:induction false} FeedAllKeepsOpen(s: State, chunks: seq<Chunk>)
    ensures FeedAll(s, chunks).state.completed == s.completed
    decreases |chunks|
  {
    if chunks != [] {
      assert FeedChunk(s, chunks[0]).state.completed == s.completed by {
        if chunks[0].Choice? && chunks[0].delta.Some? {
          var d := chunks[0].delta.value;
          AddPiecesKeepsOpen(AddContent(AddReasoning(s, d.reasoning).state, d.content).state, d.calls);
        }
      }
      FeedAllKeepsOpen(FeedChunk(s, chunks[0]).state, chunks[1..]);
    }
  }

  lemma {:induction false} AddPiecesKeepsOpen(s: State, pieces: seq<CallPiece>)
    ensures AddPieces(s, pieces).state.completed == s.completed
    decreases |pieces|
  {
    if pieces != [] {
      AddPiecesKeepsOpen(AddPiece(s, pieces[0]).state, pieces[1..]);
    }
  }

  /** Every run is accepted to the end by a client that checks the protocol: indices are 0, 1, ... and
      each added once, deltas and closings name open items, every item is closed exactly once with the
      concatenation of its deltas, and the final output is the closed items. */
  lemma EveryRunIsWellFormed(chunks: seq<Chunk>)
    ensures var c := ObserveAll(Client(0, [], [], false), RunEvents(chunks));
            var final := FeedAll(INITIAL, chunks).state;
            OrderIsKeys(final) && c.Some? && c.value.finished && c.value.output == Output(final)
            && |c.value.items| == final.nextIndex
  {
    FeedAllKeepsOrder(INITIAL, chunks);
    FeedAllKeepsOpen(INITIAL, chunks);
    var start, c0 := Client(0, [], [], false), Client(2, [], [], false);
    assert InStep(INITIAL, [], c0, {});
    ObserveTwo(start, Created, InProgress);
    var fed := FeedAll(INITIAL, chunks);
    hide FeedAll, InStep, FinishEvents, Observe, ObserveAll, Output;
    var owners, c1 := FeedAllInStep(INITIAL, [], c0, chunks);
    var c2 := FinishIsAccepted(fed.state, owners, c1);
    ObserveConcat(start, [Created, InProgress], fed.events);
    ObserveConcat(start, [Created, InProgress] + fed.events, FinishEvents(fed.state));
  }

  // ----- output order and indices -----

  function CallIndices(s: State, keys: seq<int>): seq<nat>
    requires forall i | 0 <= i < |keys| :: keys[i] in s.calls
  {
    seq(|keys|, i requires 0 <= i < |keys| => s.calls[keys[i]].index)
  }

  function TextIndices(s: State): seq<nat> {
    (if s.reasoning.Some? then [s.reasoning.value.index] else [])
    + (if s.message.Some? then [s.message.value.index] else [])
  }

  /** The output index of each item, in the order of the final output. */
  function OutputIndices(s: State): seq<nat>
    requires OrderIsKeys(s)
  {
    TextIndices(s) + CallIndices(s, s.order)
  }

  /** Indices are given out in turn, and calls keep the order they were seen in. */
  predicate IndicesOk(s: State) {
    && OrderIsKeys(s)
    && s.nextIndex == (if s.reasoning.Some? then 1 else 0) + (if s.message.Some? then 1 else 0) + |s.order|
    && (s.reasoning.Some? ==> s.reasoning.value.index < s.nextIndex)
    && (s.message.Some? ==> s.message.value.index < s.nextIndex)
    && (forall i | 0 <= i < |s.order| :: s.calls[s.order[i]].index < s.nextIndex)
    && (forall i, j | 0 <= i < j < |s.order| :: s.calls[s.order[i]].index < s.calls[s.order[j]].index)
  }

  /** Reasoning came first, then the message, then the calls, as far as there were any. */
  predicate FirstSeenInOrder(s: State)
    requires OrderIsKeys(s)
  {
    && (s.reasoning.Some? && s.message.Some? ==> s.reasoning.value.index < s.message.value.index)
    && (s.order != [] ==>
          && (s.reasoning.Some? ==> s.reasoning.value.index < s.calls[s.order[0]].index)
          && (s.message.Some? ==> s.message.value.index < s.calls[s.order[0]].index))
  }

  lemma EnsureCallIndices(s: State, key: int, id: string, name: string)
    requires IndicesOk(s)
    ensures IndicesOk(EnsureCall(s, key, id, name).state)
  {
    hide ClientName;
    if key !in s.calls {
      var t := EnsureCall(s, key, id, name).state;
      assert t.order == s.order + [key] && t.calls[key].index == s.nextIndex;
      forall i | 0 <= i < |s.order| ensures t.order[i] == s.order[i] && t.calls[t.order[i]] == s.calls[s.order[i]] {
      }
      assert OrderIsKeys(t);
    }
  }

  /** Changing a call's name or arguments moves nothing. */
  lemma ChangedCallIndices(s: State, key: int, call: CallState)
    requires IndicesOk(s) && key in s.calls && call.index == s.calls[key].index
    ensures IndicesOk(s.(calls := s.calls[key := call]))
  {
    var t := s.(calls := s.calls[key := call]);
    assert OrderIsKeys(t);
    forall i | 0 <= i < |s.order| ensures t.calls[s.order[i]].index == s.calls[s.order[i]].index {
    }
  }

  lemma AddPieceIndices(s: State, p: CallPiece)
    requires IndicesOk(s)
    ensures IndicesOk(AddPiece(s, p).state)
  {
    hide ClientName, IndicesOk, EnsureCall;
    var key := KeyOf(s, p);
    var t := EnsureCall(s, key, p.id, p.name).state;
    EnsureCallIndices(s, key, p.id, p.name);
    ChangedCallIndices(t, key, AddPiece(s, p).state.calls[key]);
  }

  lemma AddReasoningIndices(s: State, text: string)
    requires IndicesOk(s)
    ensures IndicesOk(AddReasoning(s, text).state)
  {
    hide OrderIsKeys;
    OrderSurvives(s, AddReasoning(s, text).state);
  }

  lemma AddContentIndices(s: State, text: string)
    requires IndicesOk(s)
    ensures IndicesOk(AddContent(s, text).state)
  {
    hide OrderIsKeys;
    OrderSurvives(s, AddContent(s, text).state);
  }

  lemma OrderSurvives(s: State, t: State)
    requires OrderIsKeys(s) && t.order == s.order && t.calls == s.calls
    ensures OrderIsKeys(t)
  {
  }

  ghost predicate Increasing(a: seq<nat>) {
    forall i, j | 0 <= i < j < |a| :: a[i] < a[j]
  }

  /** A strictly increasing sequence of n numbers below n counts from 0. */
  lemma {:induction false} IncreasingCounts(a: seq<nat>, i: nat)
    requires Increasing(a) && i < |a| && forall k | 0 <= k < |a| :: a[k] < |a|
    ensures i <= a[i]
    ensures a[i] <= i
    decreases i
  {
    IncreasingFrom(a, i);
    if 0 < i {
      IncreasingCounts(a, i - 1);
    }
  }

  lemma {:induction false} IncreasingFrom(a: seq<nat>, i: nat)
    requires Increasing(a) && i < |a| && forall k | 0 <= k < |a| :: a[k] < |a|
    ensures a[i] <= i
    decreases |a| - i
  {
    if i + 1 < |a| {
      IncreasingFrom(a, i + 1);
    }
  }

  // ----- what was sent first -----

  predicate HasDelta(c: Chunk) {
    c.Choice? && c.delta.Some?
  }

  predicate HasReasoning(c: Chunk) {
    HasDelta(c) && c.delta.value.reasoning != ""
  }

  predicate HasContent(c: Chunk) {
    HasDelta(c) && c.delta.value.content != ""
  }

  predicate HasCalls(c: Chunk) {
    HasDelta(c) && c.delta.value.calls != []
  }

  /** The number of the first chunk with a property, or the number of chunks. */
  function First(p: Chunk -> bool, chunks: seq<Chunk>): (n: nat)
    ensures n <= |chunks|
    ensures n < |chunks| ==> p(chunks[n])
    ensures forall i | 0 <= i < n :: !p(chunks[i])
  {
    if chunks == [] || p(chunks[0]) then 0 else 1 + First(p, chunks[1..])
  }

  /** What comes at `a` came before what comes at `b`, if both came among n chunks; within one chunk
      reasoning precedes content and content precedes calls. */
  predicate InTurn(a: int, b: int, n: nat) {
    a < n && b < n ==> a <= b
  }

  /** The first reasoning came before the first content, and both before the first call piece. */
  predicate SentInOrder(chunks: seq<Chunk>) {
    var r, m, c := First(HasReasoning, chunks), First(HasContent, chunks), First(HasCalls, chunks);
    InTurn(r, m, |chunks|) && InTurn(r, c, |chunks|) && InTurn(m, c, |chunks|)
  }

  /** `First` from a state in which the thing may have been seen already. */
  function FirstFrom(seen: bool, p: Chunk -> bool, chunks: seq<Chunk>): int {
    if seen then -1 else First(p, chunks)
  }

  predicate OrderFrom(s: State, chunks: seq<Chunk>) {
    var r := FirstFrom(s.reasoning.Some?, HasReasoning, chunks);
    var m := FirstFrom(s.message.Some?, HasContent, chunks);
    var c := FirstFrom(s.order != [], HasCalls, chunks);
    InTurn(r, m, |chunks|) && InTurn(r, c, |chunks|) && InTurn(m, c, |chunks|)
  }

  /** What one chunk may not bring: reasoning after a message or a call, or a message after a call. */
  predicate ChunkInTurn(s: State, c: Chunk) {
    && (HasReasoning(c) && s.reasoning.None? ==> s.message.None? && s.order == [])
    && (HasContent(c) && s.message.None? ==> s.order == [])
  }

  lemma EnsureCallOrder(s: State, key: int, id: string, name: string)
    requires IndicesOk(s)
    ensures var t := EnsureCall(s, key, id, name).state;
            IndicesOk(t) && t.order != [] && (FirstSeenInOrder(t) <==> FirstSeenInOrder(s))
  {
    EnsureCallIndices(s, key, id, name);
    hide ClientName;
    if key !in s.calls {
      var t := EnsureCall(s, key, id, name).state;
      assert t.order == s.order + [key] && t.calls[key].index == s.nextIndex;
      assert t.order[0] == if s.order == [] then key else s.order[0];
    }
  }

  lemma AddPieceOrder(s: State, p: CallPiece)
    requires IndicesOk(s)
    ensures var t := AddPiece(s, p).state;
            && IndicesOk(t) && t.order != [] && t.reasoning == s.reasoning && t.message == s.message
            && (FirstSeenInOrder(t) <==> FirstSeenInOrder(s))
  {
    var key := KeyOf(s, p);
    AddPieceIndices(s, p);
    EnsureCallOrder(s, key, p.id, p.name);
    hide ClientName;
  }

  lemma {:induction false} AddPiecesOrder(s: State, pieces: seq<CallPiece>)
    requires IndicesOk(s)
    ensures var t := AddPieces(s, pieces).state;
            && IndicesOk(t) && t.reasoning == s.reasoning && t.message == s.message
            && (t.order != [] <==> s.order != [] || pieces != [])
            && (FirstSeenInOrder(t) <==> FirstSeenInOrder(s))
    decreases |pieces|
  {
    if pieces != [] {
      AddPieceOrder(s, pieces[0]);
      hide IndicesOk, AddPiece, FirstSeenInOrder;
      AddPiecesOrder(AddPiece(s, pieces[0]).state, pieces[1..]);
    }
  }

  lemma AddTextOrder(s: State, d: Delta)
    requires IndicesOk(s)
    ensures var t := AddContent(AddReasoning(s, d.reasoning).state, d.content).state;
            && IndicesOk(t) && t.order == s.order
            && (t.reasoning.Some? <==> s.reasoning.Some? || d.reasoning != "")
            && (t.message.Some? <==> s.message.Some? || d.content != "")
            && (FirstSeenInOrder(t) <==> FirstSeenInOrder(s) && ChunkInTurn(s, Choice(Some(d), "")))
  {
    AddReasoningIndices(s, d.reasoning);
    AddContentIndices(AddReasoning(s, d.reasoning).state, d.content);
    hide OrderIsKeys;
  }

  lemma FeedChunkOrder(s: State, c: Chunk)
    requires IndicesOk(s)
    ensures var t := FeedChunk(s, c).state;
            && IndicesOk(t)
            && (t.reasoning.Some? <==> s.reasoning.Some? || HasReasoning(c))
            && (t.message.Some? <==> s.message.Some? || HasContent(c))
            && (t.order != [] <==> s.order != [] || HasCalls(c))
            && (FirstSeenInOrder(t) <==> FirstSeenInOrder(s) && ChunkInTurn(s, c))
  {
    hide IndicesOk, AddReasoning, AddContent, AddPieces;
    if HasDelta(c) {
      var d := c.delta.value;
      AddTextOrder(s, d);
      AddPiecesOrder(AddContent(AddReasoning(s, d.reasoning).state, d.content).state, d.calls);
      FinishKeepsIndices(AddDelta(s, d).state, c.finish);
    } else if c.Choice? {
      FinishKeepsIndices(s, c.finish);
    }
  }

  lemma FinishKeepsIndices(s: State, finish: string)
    requires IndicesOk(s)
    ensures IndicesOk(s.(finishReason := finish))
    ensures FirstSeenInOrder(s.(finishReason := finish)) <==> FirstSeenInOrder(s)
  {
  }

  /** One chunk taken off the front moves every first occurrence by one, and what it brings is seen then. */
  lemma FirstStep(seen: bool, p: Chunk -> bool, c: Chunk, rest: seq<Chunk>)
    ensures var here, later := FirstFrom(seen, p, [c] + rest), FirstFrom(seen || p(c), p, rest);
            && -1 <= here <= |rest| + 1 && -1 <= later <= |rest|
            && (seen ==> here == -1 == later)
            && (!seen && p(c) ==> here == 0 && later == -1)
            && (!seen && !p(c) ==> here == later + 1 && 0 <= later)
  {
    assert ([c] + rest)[1..] == rest;
  }

  /** One chunk taken off the front. */
  lemma OrderStep(s: State, c: Chunk, rest: seq<Chunk>, t: State)
    requires t.reasoning.Some? <==> s.reasoning.Some? || HasReasoning(c)
    requires t.message.Some? <==> s.message.Some? || HasContent(c)
    requires t.order != [] <==> s.order != [] || HasCalls(c)
    ensures OrderFrom(s, [c] + rest) <==> ChunkInTurn(s, c) && OrderFrom(t, rest)
  {
    FirstStep(s.reasoning.Some?, HasReasoning, c, rest);
    FirstStep(s.message.Some?, HasContent, c, rest);
    FirstStep(s.order != [], HasCalls, c, rest);
    hide HasReasoning, HasContent, HasCalls, FirstFrom;
  }

  lemma NoChunks(s: State)
    ensures OrderFrom(s, []) && FeedAll(s, []).state == s
  {
  }

  lemma FirstChunk(s: State, chunks: seq<Chunk>)
    requires chunks != []
    ensures FeedAll(s, chunks).state == FeedAll(FeedChunk(s, chunks[0]).state, chunks[1..]).state
    ensures [chunks[0]] + chunks[1..] == chunks
  {
    hide FeedChunk;
  }

  lemma {:induction false} FeedAllOrder(s: State, chunks: seq<Chunk>)
    requires IndicesOk(s)
    ensures IndicesOk(FeedAll(s, chunks).state)
    ensures FirstSeenInOrder(FeedAll(s, chunks).state) <==> FirstSeenInOrder(s) && OrderFrom(s, chunks)
    decreases |chunks|
  {
    NoChunks(s);
    if chunks != [] {
      var t := FeedChunk(s, chunks[0]).state;
      FeedChunkOrder(s, chunks[0]);
      hide IndicesOk, FeedChunk, FeedAll, FirstSeenInOrder, HasReasoning, HasContent, HasCalls, ChunkInTurn, OrderFrom;
      FeedAllOrder(t, chunks[1..]);
      OrderStep(s, chunks[0], chunks[1..], t);
      FirstChunk(s, chunks);
    }
  }

  /** The final output lists the items by their output index if and only if they were first sent in the
      order reasoning, message, calls; otherwise position and index of some item differ. */
  lemma OutputFollowsIndices(chunks: seq<Chunk>)
    ensures var final := FeedAll(INITIAL, chunks).state;
            && OrderIsKeys(final)
            && |OutputIndices(final)| == |Output(final)| == final.nextIndex
            && ((forall i | 0 <= i < final.nextIndex :: OutputIndices(final)[i] == i) <==> SentInOrder(chunks))
  {
    FeedAllOrder(INITIAL, chunks);
    var final := FeedAll(INITIAL, chunks).state;
    hide FeedAll;
    CallItemsLength(final, final.order);
    IndicesInOrder(final);
  }

  /** It does not when content comes before reasoning. */
  lemma ContentBeforeReasoning(content: string, reasoning: string)
    requires content != "" && reasoning != ""
    ensures var chunks := [Choice(Some(Delta("", content, [])), ""), Choice(Some(Delta(reasoning, "", [])), "stop")];
            var final := FeedAll(INITIAL, chunks).state;
            && OrderIsKeys(final) && !SentInOrder(chunks)
            && Output(final) == [ReasoningItem(reasoning), MessageItem(content)]
            && OutputIndices(final) == [1, 0]
  {
    var first, second := Choice(Some(Delta("", content, [])), ""), Choice(Some(Delta(reasoning, "", [])), "stop");
    var chunks := [first, second];
    assert chunks[1..] == [second] && [second][1..] == [];
    assert "" + content == content && "" + reasoning == reasoning;
    var s := FeedChunk(INITIAL, first).state;
    assert s == INITIAL.(nextIndex := 1, message := Some(TextState(0, content)));
    var t := FeedChunk(s, second).state;
    assert t == s.(nextIndex := 2, reasoning := Some(TextState(1, reasoning)), finishReason := "stop");
    assert FeedAll(INITIAL, chunks).state == FeedAll(s, [second]).state == FeedAll(t, []).state == t;
  }

  lemma {:induction false} CallItemsLength(s: State, keys: seq<int>)
    requires forall i | 0 <= i < |keys| :: keys[i] in s.calls
    ensures |CallItems(s, keys)| == |keys|
  {
    if keys != [] {
      CallItemsLength(s, keys[1..]);
    }
  }

  lemma IndicesInOrder(s: State)
    requires IndicesOk(s)
    ensures |OutputIndices(s)| == s.nextIndex
    ensures (forall i | 0 <= i < s.nextIndex :: OutputIndices(s)[i] == i) <==> FirstSeenInOrder(s)
  {
    var a, texts, calls := OutputIndices(s), TextIndices(s), CallIndices(s, s.order);
    hide OrderIsKeys;
    if FirstSeenInOrder(s) {
      assert Increasing(texts) && Increasing(calls);
      IncreasingConcat(texts, calls);
      forall i | 0 <= i < |a| ensures a[i] < |a| {
        assert a[i] == if i < |texts| then texts[i] else calls[i - |texts|];
      }
      forall i | 0 <= i < |a| ensures a[i] == i {
        IncreasingCounts(a, i);
      }
    }
    if forall i | 0 <= i < s.nextIndex :: a[i] == i {
      CountedInOrder(s);
    }
  }

  lemma CountedInOrder(s: State)
    requires IndicesOk(s) && |OutputIndices(s)| == s.nextIndex
    requires forall i | 0 <= i < s.nextIndex :: OutputIndices(s)[i] == i
    ensures FirstSeenInOrder(s)
  {
    var a, texts := OutputIndices(s), TextIndices(s);
    assert s.order != [] ==> a[|texts|] == s.calls[s.order[0]].index;
    assert s.reasoning.Some? ==> a[0] == s.reasoning.value.index;
    assert s.message.Some? ==> a[|texts| - 1] == s.message.value.index;
  }

  lemma IncreasingConcat(a: seq<nat>, b: seq<nat>)
    requires Increasing(a) && Increasing(b)
    requires b != [] ==> forall i | 0 <= i < |a| :: a[i] < b[0]
    ensures Increasing(a + b)
  {
    forall i | 0 <= i < |b| ensures b[0] <= b[i] {
    }
  }

  // ----- the translator itself -----

  class ResponsesStreamTranslator {
    var sequence: nat
    var nextIndex: nat
    var reasoning: Option<TextState>
    var message: Option<TextState>
    var toolCalls: map<int, CallState>
    var toolOrder: seq<int>
    var finishReason: string
    var completed: bool

    ghost function View(): State
      reads this
    {
      State(nextIndex, reasoning, message, toolCalls, toolOrder, finishReason, completed)
    }

    /** The state and the frames are those of the effect, numbered from n. */
    ghost predicate Reached(n: nat, e: Effect, frames: seq<Frame>)
      reads this
    {
      View() == e.state && frames == Numbered(n, e.events) && sequence == n + |e.events|
    }

    constructor ()
      ensures View() == INITIAL && sequence == 0
    {
      sequence, nextIndex, reasoning, message := 0, 0, None, None;
      toolCalls, toolOrder, finishReason, completed := map[], [], "", false;
    }

    method Emit(event: Event) returns (frame: Frame)
      modifies `sequence
      ensures frame == Frame(old(sequence), event) && sequence == old(sequence) + 1
    {
      frame := Frame(sequence, event);
      sequence := sequence + 1;
    }

    method Start() returns (frames: seq<Frame>)
      modifies this
      ensures Reached(old(sequence), Effect(old(View()), [Created, InProgress]), frames)
    {
      var created := Emit(Created);
      var inProgress := Emit(InProgress);
      frames := [created, inProgress];
    }

    method OpenReasoning() returns (frames: seq<Frame>)
      modifies this
      ensures Reached(old(sequence), EnsureReasoning(old(View())), frames)
    {
      frames := [];
      if reasoning.None? {
        var state := TextState(nextIndex, "");
        nextIndex := nextIndex + 1;
        reasoning := Some(state);
        var added := Emit(ItemAdded(state.index, Reasoning, NoCall));
        var part := Emit(PartAdded(state.index, Reasoning));
        frames := [added, part];
      }
    }

    method OpenMessage() returns (frames: seq<Frame>)
      modifies this
      ensures Reached(old(sequence), EnsureMessage(old(View())), frames)
    {
      frames := [];
      if message.None? {
        var state := TextState(nextIndex, "");
        nextIndex := nextIndex + 1;
        message := Some(state);
        var added := Emit(ItemAdded(state.index, Message, NoCall));
        var part := Emit(PartAdded(state.index, Message));
        frames := [added, part];
      }
    }

    method OpenCall(key: int, id: string, name: string) returns (frames: seq<Frame>)
      modifies this
      ensures Reached(old(sequence), EnsureCall(old(View()), key, id, name), frames)
    {
      frames := [];
      if key !in toolCalls {
        var state := CallState(nextIndex, if id == "" then Generated(nextIndex) else Given(id), ClientName(name), "");
        nextIndex := nextIndex + 1;
        toolCalls := toolCalls[key := state];
        toolOrder := toolOrder + [key];
        var added := Emit(ItemAdded(state.index, FunctionCall, state.callId));
        frames := [added];
      }
    }

    method FeedReasoning(text: string) returns (frames: seq<Frame>)
      modifies this
      ensures Reached(old(sequence), AddReasoning(old(View()), text), frames)
    {
      frames := [];
      if text != "" {
        frames := OpenReasoning();
        var state := reasoning.value;
        reasoning := Some(state.(text := state.text + text));
        var delta := Emit(TextDelta(state.index, Reasoning, text));
        frames := frames + [delta];
      }
    }

    method FeedContent(text: string) returns (frames: seq<Frame>)
      modifies this
      ensures Reached(old(sequence), AddContent(old(View()), text), frames)
    {
      frames := [];
      if text != "" {
        frames := OpenMessage();
        var state := message.value;
        message := Some(state.(text := state.text + text));
        var delta := Emit(TextDelta(state.index, Message, text));
        frames := frames + [delta];
      }
    }

    method FeedPiece(p: CallPiece) returns (frames: seq<Frame>)
      modifies this
      ensures Reached(old(sequence), AddPiece(old(View()), p), frames)
    {
      hide ClientName;
      var key := if p.index.Some? then p.index.value else |toolOrder|;
      frames := OpenCall(key, p.id, p.name);
      var state := toolCalls[key];
      if p.name != "" && state.name == "" {
        state := state.(name := ClientName(p.name));
      }
      toolCalls := toolCalls[key := state];
      if p.arguments.Some? && p.arguments.value != "" {
        toolCalls := toolCalls[key := state.(arguments := state.arguments + p.arguments.value)];
        var delta := Emit(TextDelta(state.index, FunctionCall, p.arguments.value));
        frames := frames + [delta];
      }
    }

    method FeedPieces(pieces: seq<CallPiece>) returns (frames: seq<Frame>)
      modifies this
      ensures Reached(old(sequence), AddPieces(old(View()), pieces), frames)
    {
      frames := [];
      ghost var n, all := sequence, AddPieces(View(), pieces);
      ghost var events: seq<Event> := [];
      assert all.events == events + all.events;
      hide AddPiece;
      for i := 0 to |pieces|
        invariant frames == Numbered(n, events) && sequence == n + |events|
        invariant var rest := AddPieces(View(), pieces[i..]);
                  all.state == rest.state && all.events == events + rest.events
      {
        ghost var first := AddPiece(View(), pieces[i]);
        ghost var rest := AddPieces(first.state, pieces[i + 1..]);
        assert pieces[i..][0] == pieces[i] && pieces[i..][1..] == pieces[i + 1..];
        var more := FeedPiece(pieces[i]);
        ConcatAssociative(events, first.events, rest.events);
        NumberedConcat(n, events, first.events);
        events := events + first.events;
        frames := frames + more;
      }
      assert AddPieces(View(), pieces[|pieces|..]) == Effect(View(), []);
      assert events + [] == events;
    }

    /** `feed`. */
    method Feed(chunk: Chunk) returns (frames: seq<Frame>)
      modifies this
      ensures Reached(old(sequence), FeedChunk(old(View()), chunk), frames)
    {
      frames := [];
      hide AddReasoning, AddContent, AddPieces;
      match chunk {
        case NoChoice =>
        case Choice(delta, finish) =>
          if delta.Some? {
            frames := FeedDelta(delta.value);
          }
          if finish != "" {
            finishReason := finish;
          }
      }
    }

    method FeedDelta(d: Delta) returns (frames: seq<Frame>)
      modifies this
      ensures Reached(old(sequence), AddDelta(old(View()), d), frames)
    {
      hide AddReasoning, AddContent, AddPieces;
      ghost var n := sequence;
      ghost var r := AddReasoning(View(), d.reasoning);
      ghost var m := AddContent(r.state, d.content);
      ghost var c := AddPieces(m.state, d.calls);
      var a := FeedReasoning(d.reasoning);
      var b := FeedContent(d.content);
      var e := FeedPieces(d.calls);
      NumberedConcat(n, r.events, m.events);
      NumberedConcat(n, r.events + m.events, c.events);
      frames := a + b + e;
    }

    method CloseText(kind: Kind, state: TextState, item: OutputItem) returns (frames: seq<Frame>)
      modifies `sequence
      ensures frames == Numbered(old(sequence), [TextDone(state.index, kind, state.text),
                                                 PartDone(state.index, kind, state.text), ItemDone(state.index, item)])
      ensures sequence == old(sequence) + 3
    {
      var textDone := Emit(TextDone(state.index, kind, state.text));
      var partDone := Emit(PartDone(state.index, kind, state.text));
      var itemDone := Emit(ItemDone(state.index, item));
      frames := [textDone, partDone, itemDone];
    }

    method CloseToolCall(state: CallState) returns (frames: seq<Frame>)
      modifies `sequence
      ensures frames == Numbered(old(sequence), CloseCall(state)) && sequence == old(sequence) + |CloseCall(state)|
    {
      var argumentsDone := Emit(TextDone(state.index, FunctionCall, state.arguments));
      var itemDone := Emit(ItemDone(state.index, CallItemOf(state)));
      frames := [argumentsDone, itemDone];
    }

    method CloseToolCalls() returns (frames: seq<Frame>, output: seq<OutputItem>)
      requires OrderIsKeys(View())
      modifies `sequence
      ensures frames == Numbered(old(sequence), CloseCalls(View(), toolOrder)) && output == CallItems(View(), toolOrder)
      ensures sequence == old(sequence) + |CloseCalls(View(), toolOrder)|
    {
      hide CloseCall, CallItemOf, CloseCalls, CallItems;
      frames, output := [], [];
      ghost var n, s := sequence, View();
      ghost var all, items := CloseCalls(s, toolOrder), CallItems(s, toolOrder);
      ghost var events: seq<Event> := [];
      assert toolOrder[0..] == toolOrder;
      assert all == events + CloseCalls(s, toolOrder) && items == output + CallItems(s, toolOrder);
      for i := 0 to |toolOrder|
        invariant View() == s
        invariant frames == Numbered(n, events) && sequence == n + |events|
        invariant all == events + CloseCalls(s, toolOrder[i..])
        invariant items == output + CallItems(s, toolOrder[i..])
      {
        var state := toolCalls[toolOrder[i]];
        ghost var rest := toolOrder[i + 1..];
        CloseCallsFirst(s, i);
        CallItemsFirst(s, i);
        ConcatAssociative(events, CloseCall(state), CloseCalls(s, rest));
        ConcatAssociative(output, [CallItemOf(state)], CallItems(s, rest));
        NumberedConcat(n, events, CloseCall(state));
        var closing := CloseToolCall(state);
        events := events + CloseCall(state);
        frames := frames + closing;
        output := output + [CallItemOf(state)];
      }
      NoCallsLeft(s);
      assert events + [] == events && output + [] == output;
    }

    method CloseTexts() returns (frames: seq<Frame>, output: seq<OutputItem>)
      modifies `sequence
      ensures frames == Numbered(old(sequence), CloseTextsOf(View())) && sequence == old(sequence) + |CloseTextsOf(View())|
      ensures output == ReasoningItems(View()) + MessageItems(View())
    {
      frames, output := [], [];
      ghost var n := sequence;
      ghost var a := if reasoning.Some? then CloseReasoning(reasoning.value) else [];
      ghost var b := if message.Some? then CloseMessage(message.value) else [];
      if reasoning.Some? {
        frames := CloseText(Reasoning, reasoning.value, ReasoningItem(reasoning.value.text));
        output := [ReasoningItem(reasoning.value.text)];
      }
      assert frames == Numbered(n, a) && sequence == n + |a|;
      if message.Some? {
        var more := CloseText(Message, message.value, MessageItem(message.value.text));
        frames := frames + more;
        output := output + [MessageItem(message.value.text)];
      }
      NumberedConcat(n, a, b);
    }

    /** `finish`: a second call emits nothing. */
    method Finish() returns (frames: seq<Frame>)
      requires OrderIsKeys(View())
      modifies this
      ensures Reached(old(sequence), Effect(old(View()).(completed := true), FinishEvents(old(View()))), frames)
    {
      hide CloseTextsOf, ReasoningItems, MessageItems, CloseCalls, CallItems, Numbered;
      NumberedNothing(sequence);
      frames := [];
      if completed {
        return;
      }
      completed := true;
      ghost var n, was := sequence, old(View());
      ghost var a, c := CloseTextsOf(was), CloseCalls(was, toolOrder);
      TextsDoNotSeeCompletion(was);
      CallsDoNotSeeCompletion(was, toolOrder);
      var texts, output := CloseTexts();
      var calls, items := CloseToolCalls();
      output := output + items;
      var last := Emit(Completed(StatusOf(finishReason), output));
      NumberedConcat(n, a, c);
      NumberedConcat(n, a + c, [last.event]);
      NumberedOne(last);
      frames := texts + calls + [last];
    }
  }

  lemma CloseCallsFirst(s: State, i: nat)
    requires i < |s.order| && forall j | i <= j < |s.order| :: s.order[j] in s.calls
    ensures CloseCalls(s, s.order[i..]) == CloseCall(s.calls[s.order[i]]) + CloseCalls(s, s.order[i + 1..])
  {
    assert s.order[i..][0] == s.order[i] && s.order[i..][1..] == s.order[i + 1..];
    hide CloseCall;
  }

  lemma NoCallsLeft(s: State)
    ensures CloseCalls(s, s.order[|s.order|..]) == [] && CallItems(s, s.order[|s.order|..]) == []
  {
  }

  lemma NumberedNothing(n: nat)
    ensures Numbered(n, []) == []
  {
  }

  lemma NumberedOne(f: Frame)
    ensures Numbered(f.number, [f.event]) == [f]
  {
  }

  lemma TextsDoNotSeeCompletion(s: State)
    ensures CloseTextsOf(s.(completed := true)) == CloseTextsOf(s)
    ensures ReasoningItems(s.(completed := true)) == ReasoningItems(s)
    ensures MessageItems(s.(completed := true)) == MessageItems(s)
  {
  }

  lemma {:induction false} CallsDoNotSeeCompletion(s: State, keys: seq<int>)
    requires forall i | 0 <= i < |keys| :: keys[i] in s.calls
    ensures CloseCalls(s.(completed := true), keys) == CloseCalls(s, keys)
    ensures CallItems(s.(completed := true), keys) == CallItems(s, keys)
  {
    if keys != [] {
      CallsDoNotSeeCompletion(s, keys[1..]);
    }
  }

  /** Feeding every chunk. */
  method FeedEach(translator: ResponsesStreamTranslator, chunks: seq<Chunk>) returns (frames: seq<Frame>)
    modifies translator
    ensures translator.Reached(old(translator.sequence), FeedAll(old(translator.View()), chunks), frames)
  {
    hide FeedAll, FeedChunk;
    frames := [];
    ghost var n, all := translator.sequence, FeedAll(translator.View(), chunks);
    ghost var events: seq<Event> := [];
    FeedAllFrom(translator.View(), chunks);
    assert events + all.events == all.events;
    for i := 0 to |chunks|
      invariant frames == Numbered(n, events) && translator.sequence == n + |events|
      invariant var rest := FeedAll(translator.View(), chunks[i..]);
                all.state == rest.state && all.events == events + rest.events
    {
      ghost var first := FeedChunk(translator.View(), chunks[i]);
      ghost var rest := FeedAll(first.state, chunks[i + 1..]);
      assert chunks[i..][0] == chunks[i] && chunks[i..][1..] == chunks[i + 1..];
      FeedAllFrom(translator.View(), chunks[i..]);
      ConcatAssociative(events, first.events, rest.events);
      NumberedConcat(n, events, first.events);
      var more := translator.Feed(chunks[i]);
      events := events + first.events;
      frames := frames + more;
    }
    FeedAllFrom(translator.View(), chunks[|chunks|..]);
    assert events + [] == events;
  }

  /** A whole stream through the translator: the frames carry numbers 0, 1, ... in order. */
  method TranslateStream(chunks: seq<Chunk>) returns (frames: seq<Frame>)
    ensures frames == Numbered(0, RunEvents(chunks))
  {
    hide FeedAll, FinishEvents, Numbered;
    FeedAllKeepsOrder(INITIAL, chunks);
    ghost var fed := FeedAll(INITIAL, chunks);
    ghost var head := [Created, InProgress];
    var translator := new ResponsesStreamTranslator();
    var opening := translator.Start();
    var middle := FeedEach(translator, chunks);
    var closing := translator.Finish();
    NumberedConcat(0, head, fed.events);
    NumberedConcat(0, head + fed.events, FinishEvents(fed.state));
    frames := opening + middle + closing;
  }

  lemma FeedAllFrom(s: State, chunks: seq<Chunk>)
    ensures chunks == [] ==> FeedAll(s, chunks) == Effect(s, [])
    ensures chunks != [] ==>
              var first := FeedChunk(s, chunks[0]);
              var rest := FeedAll(first.state, chunks[1..]);
              FeedAll(s, chunks) == Effect(rest.state, first.events + rest.events)
    ensures FeedAll(s, chunks[0..]) == FeedAll(s, chunks)
  {
    hide FeedChunk;
    assert chunks[0..] == chunks;
  }

  // ----- agreement with the buffered translation -----

  /** A tool call of a whole chat message; arguments are None when the message has none. */
  datatype Call = Call(id: string, name: string, arguments: Option<string>)

  datatype ChatMessage = ChatMessage(reasoning: string, content: string, calls: seq<Call>)

  datatype Turn = Turn(status: Status, output: seq<OutputItem>)

  /** `_iter_tool_calls`: nameless calls are skipped, missing arguments become an empty JSON object. */
  function BufferedCalls(calls: seq<Call>, index: nat): seq<OutputItem>
    decreases |calls|
  {
    if calls == [] then []
    else
      var c := calls[0];
      (if c.name == "" then []
       else [CallItem(if c.id == "" then Generated(index) else Given(c.id), ClientName(c.name),
                      if c.arguments.Some? then c.arguments.value else "{}")])
      + BufferedCalls(calls[1..], index + 1)
  }

  /** `from_chat_response`. */
  function FromChatResponse(m: ChatMessage, finish: string): Turn {
    Turn(StatusOf(finish),
         (if m.reasoning == "" then [] else [ReasoningItem(m.reasoning)])
         + (if m.content == "" then [] else [MessageItem(m.content)])
         + BufferedCalls(m.calls, 0))
  }

  /** The loop of `_iter_tool_calls`. */
  method IterToolCalls(calls: seq<Call>) returns (resolved: seq<OutputItem>)
    ensures resolved == BufferedCalls(calls, 0)
  {
    hide ClientName;
    resolved := [];
    assert calls[0..] == calls;
    for i := 0 to |calls|
      invariant BufferedCalls(calls, 0) == resolved + BufferedCalls(calls[i..], i)
    {
      var c := calls[i];
      assert calls[i..][0] == c && calls[i..][1..] == calls[i + 1..];
      if c.name != "" {
        var item := CallItem(if c.id == "" then Generated(i) else Given(c.id), ClientName(c.name),
                             if c.arguments.Some? then c.arguments.value else "{}");
        ConcatAssociative(resolved, [item], BufferedCalls(calls[i + 1..], i + 1));
        resolved := resolved + [item];
      } else {
        assert [] + BufferedCalls(calls[i + 1..], i + 1) == BufferedCalls(calls[i + 1..], i + 1);
      }
    }
    assert resolved + [] == resolved;
  }

  function Joined(a: Option<string>, b: Option<string>): Option<string> {
    if a.None? then b else if b.None? then a else Some(a.value + b.value)
  }

  /** The calls that pieces add up to. */
  function MergePiece(calls: seq<Call>, p: CallPiece): seq<Call> {
    if p.index.Some? && 0 <= p.index.value < |calls| then
      var c := calls[p.index.value];
      calls[p.index.value := c.(arguments := Joined(c.arguments, p.arguments))]
    else calls + [Call(p.id, p.name, p.arguments)]
  }

  function MergePieces(calls: seq<Call>, pieces: seq<CallPiece>): seq<Call>
    decreases |pieces|
  {
    if pieces == [] then calls else MergePieces(MergePiece(calls, pieces[0]), pieces[1..])
  }

  function MergeChunk(m: ChatMessage, c: Chunk): ChatMessage {
    if c.NoChoice? || c.delta.None? then m
    else
      var d := c.delta.value;
      ChatMessage(m.reasoning + d.reasoning, m.content + d.content, MergePieces(m.calls, d.calls))
  }

  /** The chat message that chunks add up to. */
  function Merge(m: ChatMessage, chunks: seq<Chunk>): ChatMessage
    decreases |chunks|
  {
    if chunks == [] then m else Merge(MergeChunk(m, chunks[0]), chunks[1..])
  }

  function FinishReasonOf(before: string, chunks: seq<Chunk>): string
    decreases |chunks|
  {
    if chunks == [] then before
    else FinishReasonOf(if chunks[0].Choice? && chunks[0].finish != "" then chunks[0].finish else before, chunks[1..])
  }

  /** Explicit indices in first-seen order, id and name in a call's first piece, no other name later. */
  predicate OrderlyPiece(calls: seq<Call>, p: CallPiece) {
    && p.index.Some? && 0 <= p.index.value <= |calls|
    && (if p.index.value == |calls| then p.id != "" && p.name != ""
        else p.name == "" || p.name == calls[p.index.value].name)
  }

  predicate OrderlyPieces(calls: seq<Call>, pieces: seq<CallPiece>)
    decreases |pieces|
  {
    pieces == [] || (OrderlyPiece(calls, pieces[0]) && OrderlyPieces(MergePiece(calls, pieces[0]), pieces[1..]))
  }

  predicate Orderly(m: ChatMessage, chunks: seq<Chunk>)
    decreases |chunks|
  {
    chunks == []
    || ((chunks[0].Choice? && chunks[0].delta.Some? ==> OrderlyPieces(m.calls, chunks[0].delta.value.calls))
        && Orderly(MergeChunk(m, chunks[0]), chunks[1..]))
  }

  /** One call as both translations have it. */
  predicate SameCall(s: CallState, c: Call) {
    && c.id != "" && c.name != ""
    && s.callId == Given(c.id) && s.name == ClientName(c.name)
    && s.arguments == if c.arguments.Some? then c.arguments.value else ""
  }

  ghost predicate SameCalls(s: State, calls: seq<Call>) {
    && |s.order| == |calls|
    && (forall i: int :: i in s.calls <==> 0 <= i < |calls|)
    && forall i: int | 0 <= i < |calls| :: s.order[i] == i && SameCall(s.calls[i], calls[i])
  }

  predicate SameText(t: Option<TextState>, text: string) {
    if text == "" then t.None? else t.Some? && t.value.text == text
  }

  ghost predicate SameMessage(s: State, m: ChatMessage) {
    SameText(s.reasoning, m.reasoning) && SameText(s.message, m.content) && SameCalls(s, m.calls)
  }

  lemma AddPieceMerges(s: State, calls: seq<Call>, p: CallPiece)
    requires SameCalls(s, calls) && OrderlyPiece(calls, p)
    ensures SameCalls(AddPiece(s, p).state, MergePiece(calls, p))
  {
    hide ClientName;
    var key := p.index.value;
    var t, merged := AddPiece(s, p).state, MergePiece(calls, p);
    if key == |calls| {
      assert t.order == s.order + [key];
      assert SameCall(t.calls[key], merged[key]);
    } else {
      assert t.order == s.order;
      assert SameCall(t.calls[key], merged[key]);
    }
    hide SameCall;
    forall i: int | 0 <= i < |merged| && i != key ensures t.calls[i] == s.calls[i] && merged[i] == calls[i] {
    }
  }

  lemma {:induction false} AddPiecesMerge(s: State, calls: seq<Call>, pieces: seq<CallPiece>)
    requires SameCalls(s, calls) && OrderlyPieces(calls, pieces)
    ensures SameCalls(AddPieces(s, pieces).state, MergePieces(calls, pieces))
    ensures var t := AddPieces(s, pieces).state; t.reasoning == s.reasoning && t.message == s.message
    decreases |pieces|
  {
    if pieces != [] {
      AddPieceMerges(s, calls, pieces[0]);
      hide SameCalls;
      AddPiecesMerge(AddPiece(s, pieces[0]).state, MergePiece(calls, pieces[0]), pieces[1..]);
    }
  }

  lemma AddTextMerges(s: State, m: ChatMessage, d: Delta)
    requires SameMessage(s, m)
    ensures SameMessage(AddContent(AddReasoning(s, d.reasoning).state, d.content).state,
                        ChatMessage(m.reasoning + d.reasoning, m.content + d.content, m.calls))
  {
    assert m.reasoning + "" == m.reasoning && m.content + "" == m.content;
    assert "" + d.reasoning == d.reasoning && "" + d.content == d.content;
    hide SameCall;
  }

  lemma FeedChunkMerges(s: State, m: ChatMessage, c: Chunk)
    requires SameMessage(s, m)
    requires c.Choice? && c.delta.Some? ==> OrderlyPieces(m.calls, c.delta.value.calls)
    ensures SameMessage(FeedChunk(s, c).state, MergeChunk(m, c))
    ensures FeedChunk(s, c).state.finishReason == if c.Choice? && c.finish != "" then c.finish else s.finishReason
  {
    if c.Choice? && c.delta.Some? {
      var d := c.delta.value;
      var t := AddContent(AddReasoning(s, d.reasoning).state, d.content).state;
      AddTextMerges(s, m, d);
      AddPiecesMerge(t, m.calls, d.calls);
      AddPiecesKeepFinish(t, d.calls);
    }
  }

  lemma {:induction false} AddPiecesKeepFinish(s: State, pieces: seq<CallPiece>)
    ensures AddPieces(s, pieces).state.finishReason == s.finishReason
    decreases |pieces|
  {
    if pieces != [] {
      AddPiecesKeepFinish(AddPiece(s, pieces[0]).state, pieces[1..]);
    }
  }

  lemma {:induction false} FeedAllMerges(s: State, m: ChatMessage, chunks: seq<Chunk>)
    requires SameMessage(s, m) && Orderly(m, chunks)
    ensures SameMessage(FeedAll(s, chunks).state, Merge(m, chunks))
    ensures FeedAll(s, chunks).state.finishReason == FinishReasonOf(s.finishReason, chunks)
    decreases |chunks|
  {
    if chunks != [] {
      FeedChunkMerges(s, m, chunks[0]);
      hide SameMessage, FeedChunk, MergeChunk;
      FeedAllMerges(FeedChunk(s, chunks[0]).state, MergeChunk(m, chunks[0]), chunks[1..]);
    }
  }

  /** Every call carried arguments, be they empty. */
  predicate ArgumentsPresent(calls: seq<Call>) {
    forall i | 0 <= i < |calls| :: calls[i].arguments.Some?
  }

  /** The call items from position i on agree exactly when each of these calls has arguments. */
  lemma {:induction false} CallItemsAgree(s: State, calls: seq<Call>, i: nat)
    requires SameCalls(s, calls) && i <= |calls|
    requires forall j | 0 <= j < |s.order| :: s.order[j] in s.calls
    ensures CallItems(s, s.order[i..]) == BufferedCalls(calls[i..], i) <==> ArgumentsPresent(calls[i..])
    decreases |calls| - i
  {
    hide CallItems, BufferedCalls, ArgumentsPresent, CallItemOf, BufferedCall, SameCall;
    if i == |calls| {
      NoItemsLeft(s, calls);
    } else {
      CallItemsAgree(s, calls, i + 1);
      FirstItemsAgree(s, calls, i);
    }
  }

  lemma NoItemsLeft(s: State, calls: seq<Call>)
    requires |s.order| == |calls|
    ensures CallItems(s, s.order[|calls|..]) == [] && BufferedCalls(calls[|calls|..], |calls|) == []
    ensures ArgumentsPresent(calls[|calls|..])
  {
  }

  lemma FirstItemsAgree(s: State, calls: seq<Call>, i: nat)
    requires SameCalls(s, calls) && i < |calls|
    requires forall j | 0 <= j < |s.order| :: s.order[j] in s.calls
    requires CallItems(s, s.order[i + 1..]) == BufferedCalls(calls[i + 1..], i + 1) <==> ArgumentsPresent(calls[i + 1..])
    ensures CallItems(s, s.order[i..]) == BufferedCalls(calls[i..], i) <==> ArgumentsPresent(calls[i..])
  {
    hide CallItems, BufferedCalls, ArgumentsPresent, CallItemOf, BufferedCall, SameCall;
    assert s.order[i] == i && SameCall(s.calls[i], calls[i]);
    CallItemsFirst(s, i);
    BufferedCallsFirst(calls, i, s.calls[i]);
    HeadAndTail(CallItemOf(s.calls[i]), CallItems(s, s.order[i + 1..]), BufferedCall(calls[i]),
                BufferedCalls(calls[i + 1..], i + 1));
    ItemAgrees(s.calls[i], calls[i]);
    FirstAndRest(calls, i);
  }

  function BufferedCall(c: Call): OutputItem {
    CallItem(Given(c.id), ClientName(c.name), if c.arguments.Some? then c.arguments.value else "{}")
  }

  lemma ItemAgrees(s: CallState, c: Call)
    requires SameCall(s, c)
    ensures CallItemOf(s) == BufferedCall(c) <==> c.arguments.Some?
  {
    hide ClientName;
    assert "" != "{}";
  }

  lemma CallItemsFirst(s: State, i: nat)
    requires i < |s.order| && forall j | i <= j < |s.order| :: s.order[j] in s.calls
    ensures CallItems(s, s.order[i..]) == [CallItemOf(s.calls[s.order[i]])] + CallItems(s, s.order[i + 1..])
  {
    assert s.order[i..][0] == s.order[i] && s.order[i..][1..] == s.order[i + 1..];
  }

  lemma BufferedCallsFirst(calls: seq<Call>, i: nat, s: CallState)
    requires i < |calls| && SameCall(s, calls[i])
    ensures BufferedCalls(calls[i..], i) == [BufferedCall(calls[i])] + BufferedCalls(calls[i + 1..], i + 1)
  {
    hide ClientName;
    assert calls[i..][0] == calls[i] && calls[i..][1..] == calls[i + 1..];
  }

  lemma HeadAndTail<T>(x: T, xs: seq<T>, y: T, ys: seq<T>)
    ensures [x] + xs == [y] + ys <==> x == y && xs == ys
  {
    assert ([x] + xs)[0] == x && ([y] + ys)[0] == y;
    assert ([x] + xs)[1..] == xs && ([y] + ys)[1..] == ys;
  }

  lemma FirstAndRest(calls: seq<Call>, i: nat)
    requires i < |calls|
    ensures ArgumentsPresent(calls[i..]) <==> calls[i].arguments.Some? && ArgumentsPresent(calls[i + 1..])
  {
    assert calls[i..] == [calls[i]] + calls[i + 1..];
    var rest := calls[i + 1..];
    assert forall j | 0 <= j < |rest| :: rest[j] == calls[i..][j + 1];
  }

  /** However a chat message is cut into chunks, the stream ends with the same status as the buffered
      translation of the whole message, and with the same items if and only if every tool call carried
      arguments: without them the buffered item says "{}" and the streamed one "". */
  lemma StreamAgreesWithBuffered(chunks: seq<Chunk>)
    requires Orderly(ChatMessage("", "", []), chunks)
    ensures var final := FeedAll(INITIAL, chunks).state;
            var message := Merge(ChatMessage("", "", []), chunks);
            var turn := FromChatResponse(message, FinishReasonOf("", chunks));
            && OrderIsKeys(final)
            && StatusOf(final.finishReason) == turn.status
            && (Output(final) == turn.output <==> ArgumentsPresent(message.calls))
  {
    FeedAllKeepsOrder(INITIAL, chunks);
    FeedAllMerges(INITIAL, ChatMessage("", "", []), chunks);
    var final := FeedAll(INITIAL, chunks).state;
    var message := Merge(ChatMessage("", "", []), chunks);
    hide FeedAll, Merge, SameCalls, CallItems, BufferedCalls;
    CallItemsAgree(final, message.calls, 0);
    assert final.order[0..] == final.order && message.calls[0..] == message.calls;
    var texts := ReasoningItems(final) + MessageItems(final);
    PrefixCancels(texts, CallItems(final, final.order), BufferedCalls(message.calls, 0));
  }

  // ----- the final status -----

  /** The chunk has the last finish reason there is. */
  predicate IsLastFinish(chunks: seq<Chunk>, i: nat) {
    && i < |chunks| && chunks[i].Choice? && chunks[i].finish != ""
    && forall j | i < j < |chunks| :: chunks[j].Choice? ==> chunks[j].finish == ""
  }

  lemma {:induction false} FinishReasonIsLast(before: string, chunks: seq<Chunk>)
    ensures (forall i: nat :: !IsLastFinish(chunks, i)) ==> FinishReasonOf(before, chunks) == before
    ensures forall i: nat | IsLastFinish(chunks, i) :: FinishReasonOf(before, chunks) == chunks[i].finish
    decreases |chunks|
  {
    if chunks != [] {
      var c, rest := chunks[0], chunks[1..];
      var now := if c.Choice? && c.finish != "" then c.finish else before;
      FinishReasonIsLast(now, rest);
      forall i: nat ensures IsLastFinish(chunks, i + 1) <==> IsLastFinish(rest, i) {
        FinishShifted(chunks, i);
      }
      if forall i: nat :: !IsLastFinish(rest, i) {
        assert c.Choice? && c.finish != "" ==> IsLastFinish(chunks, 0) by {
          NoFinishLater(rest);
        }
        forall i: nat | 0 < i ensures !IsLastFinish(chunks, i) {
          FinishShifted(chunks, i - 1);
        }
      } else {
        forall i: nat | IsLastFinish(chunks, i) ensures i > 0 {
          var k: nat :| IsLastFinish(rest, k);
          assert chunks[k + 1] == rest[k];
        }
        forall i: nat | IsLastFinish(chunks, i) ensures FinishReasonOf(before, chunks) == chunks[i].finish {
          assert IsLastFinish(rest, i - 1);
        }
      }
    }
  }

  lemma FinishShifted(chunks: seq<Chunk>, i: nat)
    requires chunks != []
    ensures IsLastFinish(chunks, i + 1) <==> IsLastFinish(chunks[1..], i)
  {
    var rest := chunks[1..];
    if IsLastFinish(rest, i) {
      forall j | i + 1 < j < |chunks| ensures chunks[j].Choice? ==> chunks[j].finish == "" {
        assert chunks[j] == rest[j - 1];
      }
    }
  }

  lemma {:induction false} NoFinishLater(chunks: seq<Chunk>)
    requires forall i: nat :: !IsLastFinish(chunks, i)
    ensures forall j | 0 <= j < |chunks| :: chunks[j].Choice? ==> chunks[j].finish == ""
  {
    if chunks != [] {
      forall i: nat ensures !IsLastFinish(chunks[1..], i) {
        FinishShifted(chunks, i);
      }
      NoFinishLater(chunks[1..]);
      forall j | 0 < j < |chunks| ensures chunks[j].Choice? ==> chunks[j].finish == "" {
        assert chunks[j] == chunks[1..][j - 1];
      }
      assert !IsLastFinish(chunks, 0);
    }
  }

  lemma {:induction false} FeedAllFinish(s: State, chunks: seq<Chunk>)
    ensures FeedAll(s, chunks).state.finishReason == FinishReasonOf(s.finishReason, chunks)
    decreases |chunks|
  {
    if chunks != [] {
      var c := chunks[0];
      if c.Choice? && c.delta.Some? {
        var d := c.delta.value;
        AddPiecesKeepFinish(AddContent(AddReasoning(s, d.reasoning).state, d.content).state, d.calls);
      }
      FeedAllFinish(FeedChunk(s, c).state, chunks[1..]);
    }
  }

  /** The last event of every run completes the response, as incomplete if and only if the last finish
      reason among the chunks is "length". */
  lemma IncompleteExactlyOnLength(chunks: seq<Chunk>)
    ensures var events := RunEvents(chunks);
            && events != [] && events[|events| - 1].Completed?
            && (events[|events| - 1].status.Incomplete?
                <==> exists i: nat :: IsLastFinish(chunks, i) && chunks[i].finish == "length")
  {
    FeedAllKeepsOrder(INITIAL, chunks);
    FeedAllKeepsOpen(INITIAL, chunks);
    FeedAllFinish(INITIAL, chunks);
    FinishReasonIsLast("", chunks);
    hide FeedAll, FinishReasonOf, IsLastFinish, CloseTextsOf, CloseCalls, Output;
  }

  /** And so is the buffered response. */
  lemma BufferedIncompleteExactlyOnLength(m: ChatMessage, finish: string)
    ensures FromChatResponse(m, finish).status.Incomplete? <==> finish == "length"
  {
  }

  // ----- tool names -----

  ghost predicate NoSeparator(name: string) {
    forall i | 0 <= i && i + 1 < |name| :: !(name[i] == '_' && name[i + 1] == '_')
  }

  lemma {:induction false} NamespaceEndsAt(name: string, i: nat, end: nat)
    requires i <= end <= |name| && (end == |name| || (end + 2 <= |name| && name[end] == '_' && name[end + 1] == '_'))
    requires forall k | i <= k < end && k + 1 < |name| :: !(name[k] == '_' && name[k + 1] == '_')
    ensures Namespace(name, i) == end
    decreases end - i
  {
    if i < end {
      NamespaceEndsAt(name, i + 1, end);
    }
  }

  /** The client's name is what follows the first "__", or the whole name. */
  lemma ClientNameDropsNamespace(namespace: string, name: string)
    ensures NoSeparator(name) ==> ClientName(name) == name
    ensures NoSeparator(namespace + "_") ==> ClientName(namespace + "__" + name) == name
  {
    if NoSeparator(name) {
      NamespaceEndsAt(name, 0, |name|);
    }
    if NoSeparator(namespace + "_") {
      var full, n := namespace + "__" + name, |namespace|;
      forall k | 0 <= k < n ensures !(full[k] == '_' && full[k + 1] == '_') {
        assert full[k] == (namespace + "_")[k] && full[k + 1] == (namespace + "_")[k + 1];
      }
      NamespaceEndsAt(full, 0, n);
      assert full[n + 2..] == name;
    }
  }

  // ----- what the pieces of one call add up to -----

  /** The pieces of one call, all of which say which call they belong to. */
  function PiecesOf(pieces: seq<CallPiece>, key: int): seq<CallPiece> {
    if pieces == [] then []
    else (if pieces[0].index == Some(key) then [pieces[0]] else []) + PiecesOf(pieces[1..], key)
  }

  /** The first client name that is not empty. */
  function FirstName(pieces: seq<CallPiece>): string {
    if pieces == [] then ""
    else if ClientName(pieces[0].name) != "" then ClientName(pieces[0].name)
    else FirstName(pieces[1..])
  }

  function AllArguments(pieces: seq<CallPiece>): string {
    if pieces == [] then ""
    else (if pieces[0].arguments.Some? then pieces[0].arguments.value else "") + AllArguments(pieces[1..])
  }

  /** A call after more pieces of it. */
  function Grown(c: CallState, pieces: seq<CallPiece>): CallState {
    c.(name := if c.name == "" then FirstName(pieces) else c.name, arguments := c.arguments + AllArguments(pieces))
  }

  lemma NoName()
    ensures ClientName("") == ""
  {
  }

  lemma PieceGrows(s: State, p: CallPiece, key: int)
    requires p.index.Some? && key in s.calls
    ensures var t := AddPiece(s, p).state;
            key in t.calls && t.calls[key] == if p.index == Some(key) then Grown(s.calls[key], [p]) else s.calls[key]
  {
    NoName();
    hide ClientName;
    assert [p][1..] == [];
    assert FirstName([p]) == ClientName(p.name)
        && AllArguments([p]) == if p.arguments.Some? then p.arguments.value else "" by {
      assert FirstName([]) == "" && AllArguments([]) == "";
      assert p.arguments.Some? ==> p.arguments.value + "" == p.arguments.value;
    }
    var c := s.calls[key];
    assert c.arguments + "" == c.arguments;
  }

  lemma GrownTwice(c: CallState, p: CallPiece, rest: seq<CallPiece>)
    ensures Grown(Grown(c, [p]), rest) == Grown(c, [p] + rest)
  {
    hide ClientName;
    assert [p][1..] == [] && ([p] + rest)[1..] == rest;
    assert FirstName([]) == "" && AllArguments([]) == "";
    var a := if p.arguments.Some? then p.arguments.value else "";
    assert a + "" == a;
    ConcatAssociative(c.arguments, a, AllArguments(rest));
  }

  lemma {:induction false} CallGrows(s: State, pieces: seq<CallPiece>, key: int)
    requires key in s.calls && forall i | 0 <= i < |pieces| :: pieces[i].index.Some?
    ensures key in AddPieces(s, pieces).state.calls
    ensures AddPieces(s, pieces).state.calls[key] == Grown(s.calls[key], PiecesOf(pieces, key))
    decreases |pieces|
  {
    var c := s.calls[key];
    if pieces == [] {
      assert c.arguments + "" == c.arguments;
    } else {
      var p, rest := pieces[0], pieces[1..];
      PieceGrows(s, p, key);
      hide AddPiece, Grown;
      CallGrows(AddPiece(s, p).state, rest, key);
      if p.index == Some(key) {
        GrownTwice(c, p, PiecesOf(rest, key));
      } else {
        assert [] + PiecesOf(rest, key) == PiecesOf(rest, key);
      }
    }
  }

  lemma NewCall(s: State, p: CallPiece, key: int)
    requires p.index == Some(key) && key !in s.calls
    ensures var t := AddPiece(s, p).state;
            key in t.calls
            && t.calls[key] == Grown(CallState(s.nextIndex, if p.id == "" then Generated(s.nextIndex) else Given(p.id), "", ""), [p])
  {
    NoName();
    hide ClientName;
    assert [p][1..] == [] && FirstName([]) == "" && AllArguments([]) == "";
    var a := if p.arguments.Some? then p.arguments.value else "";
    assert "" + a == a + "" == a && "" + (a + "") == a;
  }

  lemma OtherPieceAddsNothing(s: State, p: CallPiece, key: int)
    requires p.index.Some? && p.index != Some(key) && key !in s.calls
    ensures key !in AddPiece(s, p).state.calls
  {
    hide ClientName;
  }

  /** Over any pieces that say which call they belong to, in any order: a call has the id of its first piece,
      or a generated one, the first name that is not empty, and all its arguments joined; and there is a
      call for a key only if there was a piece for it. */
  lemma {:induction false} CallsAddUp(s: State, pieces: seq<CallPiece>, key: int)
    requires key !in s.calls && forall i | 0 <= i < |pieces| :: pieces[i].index.Some?
    ensures var mine, t := PiecesOf(pieces, key), AddPieces(s, pieces).state;
            && (key in t.calls <==> mine != [])
            && (mine != [] ==>
                  && t.calls[key].name == FirstName(mine) && t.calls[key].arguments == AllArguments(mine)
                  && t.calls[key].callId == (if mine[0].id == "" then Generated(t.calls[key].index) else Given(mine[0].id)))
    decreases |pieces|
  {
    if pieces != [] {
      var p, rest := pieces[0], pieces[1..];
      if p.index == Some(key) {
        NewCall(s, p, key);
        CallGrows(AddPiece(s, p).state, rest, key);
        hide AddPiece, Grown, ClientName;
        var empty := CallState(s.nextIndex, if p.id == "" then Generated(s.nextIndex) else Given(p.id), "", "");
        GrownTwice(empty, p, PiecesOf(rest, key));
        FromEmpty(empty, [p] + PiecesOf(rest, key));
      } else {
        OtherPieceAddsNothing(s, p, key);
        hide AddPiece;
        CallsAddUp(AddPiece(s, p).state, rest, key);
        assert [] + PiecesOf(rest, key) == PiecesOf(rest, key);
      }
    }
  }

  lemma FromEmpty(c: CallState, pieces: seq<CallPiece>)
    requires c.name == "" && c.arguments == ""
    ensures Grown(c, pieces) == c.(name := FirstName(pieces), arguments := AllArguments(pieces))
  {
    assert "" + AllArguments(pieces) == AllArguments(pieces);
  }

  /** The buffered translation keeps exactly the named calls, in order; the one at position i has its own id,
      or one generated from i. */
  lemma {:induction false} NamedCallsAreKept(calls: seq<Call>, last: Call, index: nat)
    ensures BufferedCalls(calls + [last], index)
         == BufferedCalls(calls, index)
            + if last.name == "" then []
              else [CallItem(if last.id == "" then Generated(index + |calls|) else Given(last.id), ClientName(last.name),
                             if last.arguments.Some? then last.arguments.value else "{}")]
    decreases |calls|
  {
    hide ClientName;
    if calls == [] {
      assert calls + [last] == [last] && [last][1..] == [];
      assert BufferedCalls([], index + 1) == [];
    } else {
      var rest := calls[1..];
      assert (calls + [last])[0] == calls[0] && (calls + [last])[1..] == rest + [last];
      NamedCallsAreKept(rest, last, index + 1);
      var first := BufferedCalls([calls[0]], index);
      OneBufferedCall(calls[0], rest, index);
      OneBufferedCall(calls[0], rest + [last], index);
      assert [calls[0]] + rest == calls && [calls[0]] + (rest + [last]) == calls + [last];
      hide BufferedCalls;
      ConcatAssociative(first, BufferedCalls(rest, index + 1),
                        BufferedCalls(rest + [last], index + 1)[|BufferedCalls(rest, index + 1)|..]);
    }
  }

  lemma OneBufferedCall(c: Call, rest: seq<Call>, index: nat)
    ensures BufferedCalls([c] + rest, index) == BufferedCalls([c], index) + BufferedCalls(rest, index + 1)
  {
    hide ClientName;
    assert ([c] + rest)[1..] == rest && [c][1..] == [];
    assert BufferedCalls([], index + 1) == [];
  }

  /** They differ for a single call without arguments. */
  lemma CallWithoutArguments(id: string, name: string)
    requires id != "" && name != ""
    ensures var chunks := [Choice(Some(Delta("", "", [CallPiece(Some(0), id, name, None)])), "tool_calls")];
            var final := FeedAll(INITIAL, chunks).state;
            && Orderly(ChatMessage("", "", []), chunks) && OrderIsKeys(final)
            && Output(final) == [CallItem(Given(id), ClientName(name), "")]
            && FromChatResponse(Merge(ChatMessage("", "", []), chunks), FinishReasonOf("", chunks)).output
               == [CallItem(Given(id), ClientName(name), "{}")]
  {
    hide ClientName;
    var piece := CallPiece(Some(0), id, name, None);
    var chunk := Choice(Some(Delta("", "", [piece])), "tool_calls");
    var empty := ChatMessage("", "", []);
    assert [piece][1..] == [] && [chunk][1..] == [];
    assert AddPieces(INITIAL, [piece]).state == AddPiece(INITIAL, piece).state;
    var s := FeedChunk(INITIAL, chunk).state;
    assert s.order == [0] && s.calls[0] == CallState(0, Given(id), ClientName(name), "");
    assert FeedAll(INITIAL, [chunk]).state == FeedAll(s, []).state == s;
    assert CallItems(s, [0][1..]) == [];
    var merged := ChatMessage("", "", [Call(id, name, None)]);
    assert MergePieces([], [piece]) == MergePieces([Call(id, name, None)], []) == [Call(id, name, None)];
    assert MergeChunk(empty, chunk) == merged;
    assert Merge(empty, [chunk]) == Merge(merged, []) == merged;
    assert OrderlyPieces(MergePiece([], piece), []) && OrderlyPieces([], [piece]);
    assert Orderly(merged, []) && Orderly(empty, [chunk]);
    assert [Call(id, name, None)][1..] == [];
    assert BufferedCalls([Call(id, name, None)], 0) == [CallItem(Given(id), ClientName(name), "{}")] + BufferedCalls([], 1);
  }

  lemma PrefixCancels<T>(p: seq<T>, a: seq<T>, b: seq<T>)
    ensures p + a == p + b <==> a == b
  {
    assert (p + a)[|p|..] == a && (p + b)[|p|..] == b;
  }
}
