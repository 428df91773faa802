/** The gated launch of a job: the agent's worker thread (`JobRunner._run`), the launcher process
    (`run_launcher`), the two pipes between them and the durable record, as one state machine in which
    cancellation, failed writes, signals, an agent crash and a restart can happen at any point. */
module JobLaunch {
  import opened Basics
  import opened JobRecord

  /** Where the worker thread is. `Sending` holds the spawned launcher's request pipe; in `Stopping`
      the gate is closed without GO and the process is being terminated. */
  datatype Worker =
    | Begin | Preparing | Spawning | Sending | Capturing | Persisting | Gate | Watching
    | Stopping(outcome: Status) | Done | Gone

  datatype Launcher = NotStarted | AwaitingRequest | AwaitingGate | Executing | Exited

  /** The launch-relevant part of the durable record. A process is named by its instance, not by a
      reusable number. */
  datatype Record = Record(status: Status, phase: Option<Phase>, identity: Option<nat>)

  /** `up` says whether an agent process is running; while none is, `memory` is what the last one had. */
  datatype State = State(
    up: bool,
    worker: Worker,
    memory: Record,
    cancelRequested: bool,
    disk: Record,
    launcher: Launcher,
    process: nat,
    requestSent: bool,
    requestOpen: bool,
    gateOpen: bool,
    goSent: bool,
    cancelledBeforeGo: bool)   // history: a cancel was accepted while GO had not been written

  /** How a durable write ends: done, or failed with the old or the new record left behind. */
  datatype Write = Written | FailedOld | FailedNew

  datatype Action =
    | WorkerStarts(write: Write)
    | WorkerPrepares(first: Write, second: Write)
    | WorkerSpawns(process: nat)
    | SpawnFails(write: Write)
    | RequestWritten
    | RequestFails
    | IdentityCaptured
    | IdentityFails
    | WorkerPersistsReady(write: Write)
    | GateDecision(writeFails: bool)
    | OutputAppended(write: Write)
    | WorkerFinishes(outcome: Status, write: Write)
    | StoppedFinishes(write: Write)
    | Cancel
    | LauncherReads(valid: bool)
    | LauncherPassesGate(execFails: bool)
    | ProcessEnds
    | AgentCrashes
    | AgentRestarts(write: Write)

  /** The agent was started, `start` persisted a queued job, and the worker thread begins. */
  predicate Init(s: State) {
    && s.up && s.worker == Begin && s.memory == Record(Queued, None, None) && s.disk == s.memory
    && s.launcher == NotStarted
    && !s.cancelRequested && !s.requestSent && !s.requestOpen && !s.gateOpen && !s.goSent
    && !s.cancelledBeforeGo
  }

  function Persist(s: State, w: Write): State {
    if w == FailedOld then s else s.(disk := s.memory)
  }

  /** `_finish`: a terminal status is kept. */
  function FinishAs(s: State, outcome: Status, w: Write): State {
    if Terminal(s.memory.status) then s.(worker := Done)
    else Persist(s.(memory := s.memory.(status := outcome), worker := Done), w)
  }

  /** The output reader is started after GO. The worker waits for it only so long, so it can still write
      when the job has ended; it dies with the agent. */
  predicate ReaderMayRun(s: State) {
    s.worker.Watching? || (s.worker.Done? && s.goSent)
  }

  function CloseGate(s: State, next: Worker): State {
    s.(gateOpen := false, worker := next)
  }

  /** One action; None where it cannot happen. */
  function Do(s: State, a: Action): Option<State> {
    match a
    case WorkerStarts(w) =>
      if s.worker != Begin then None
      else if s.cancelRequested then Some(FinishAs(s, Cancelled, w))
      else Some(s.(worker := Preparing))
    case WorkerPrepares(first, second) =>
      if s.worker != Preparing then None
      else
        var prepared := Persist(s.(memory := s.memory.(phase := Some(Prepared))), first);
        if first == Written then Some(prepared.(worker := Spawning))
        else Some(Persist(prepared.(memory := prepared.memory.(status := Failed), worker := Done), second))
    case WorkerSpawns(process) =>
      if s.worker != Spawning then None
      else Some(s.(worker := Sending, launcher := AwaitingRequest, process := process, requestOpen := true,
                   gateOpen := true))
    case SpawnFails(w) => if s.worker != Spawning then None else Some(FinishAs(s, Failed, w))
    case RequestWritten =>
      if s.worker != Sending then None
      else Some(s.(worker := Capturing, requestSent := true, requestOpen := false))
    case RequestFails =>
      if s.worker != Sending then None
      else Some(CloseGate(s.(requestOpen := false), Stopping(Failed)))
    case IdentityCaptured => if s.worker != Capturing then None else Some(s.(worker := Persisting))
    case IdentityFails => if s.worker != Capturing then None else Some(CloseGate(s, Stopping(Failed)))
    case WorkerPersistsReady(w) =>
      if s.worker != Persisting then None
      else
        var ready := Persist(s.(memory := Record(Running, Some(Ready), Some(s.process))), w);
        if w == Written then Some(ready.(worker := Gate)) else Some(CloseGate(ready, Stopping(Failed)))
    case GateDecision(writeFails) =>
      if s.worker != Gate then None
      else if s.cancelRequested then Some(CloseGate(s, Stopping(Cancelled)))
      else if writeFails then Some(CloseGate(s, Stopping(Failed)))
      else Some(CloseGate(s.(goSent := true), Watching))
    case OutputAppended(w) => if !ReaderMayRun(s) then None else Some(Persist(s, w))
    case WorkerFinishes(outcome, w) =>
      if s.worker != Watching || !Terminal(outcome) then None else Some(FinishAs(s, outcome, w))
    case StoppedFinishes(w) =>
      if !s.worker.Stopping? || s.launcher != Exited then None else Some(FinishAs(s, s.worker.outcome, w))
    case Cancel =>
      if s.worker == Gone || Terminal(s.memory.status) then None
      else Some(s.(cancelRequested := true, cancelledBeforeGo := s.cancelledBeforeGo || !s.goSent))
    case LauncherReads(valid) =>
      if s.launcher != AwaitingRequest || (!s.requestSent && s.requestOpen) then None
      else Some(s.(launcher := if s.requestSent && valid then AwaitingGate else Exited))
    case LauncherPassesGate(execFails) =>
      if s.launcher != AwaitingGate || (!s.goSent && s.gateOpen) then None
      else Some(s.(launcher := if s.goSent && !execFails then Executing else Exited))
    case ProcessEnds => if s.launcher == NotStarted then None else Some(s.(launcher := Exited))
    case AgentCrashes =>
      Some(s.(up := false, worker := Gone, requestOpen := false, gateOpen := false, cancelRequested := false))
    case AgentRestarts(w) =>
      if s.up then None
      else if Terminal(s.disk.status) then Some(s.(up := true, memory := s.disk))
      else
        // Recovery signals may end the process: that is a `ProcessEnds`. A failed write stops the start.
        var failed := s.disk.(status := Failed);
        if w == Written then Some(s.(up := true, memory := failed, disk := failed))
        else Some(if w == FailedNew then s.(disk := failed) else s)
  }

  /** The states a run passes through; None once an action was not possible. */
  function Run(s: State, actions: seq<Action>): Option<State> {
    if actions == [] then Some(s)
    else
      var before := Run(s, actions[..|actions| - 1]);
      if before.None? then None else Do(before.value, actions[|actions| - 1])
  }

  ghost predicate Released(r: Record, process: nat) {
    r.phase == Some(Ready) && r.identity == Some(process)
  }

  /** No process yet. */
  predicate Early(w: Worker) {
    w.Begin? || w.Preparing? || w.Spawning?
  }

  /** The worker holds the open gate. */
  predicate HoldsGate(w: Worker) {
    w.Sending? || w.Capturing? || w.Persisting? || w.Gate?
  }

  predicate Ran(s: Status) {
    s.Succeeded? || s.TimedOut?
  }

  ghost predicate Invariant(s: State) {
    && (s.goSent ==> Released(s.disk, s.process) && Released(s.memory, s.process))
    && (s.worker.Watching? ==> s.goSent)
    && (s.goSent ==> s.worker.Watching? || s.worker.Done? || s.worker.Gone?)
    && (s.worker.Gate? ==> Released(s.disk, s.process) && Released(s.memory, s.process))
    && (s.launcher.Executing? ==> s.goSent)
    && (s.gateOpen ==> HoldsGate(s.worker))
    && (s.requestOpen ==> s.worker.Sending?)
    && (Early(s.worker) || HoldsGate(s.worker) || s.worker.Stopping? ==> !Terminal(s.memory.status))
    && (s.worker.Stopping? ==> s.worker.outcome.Failed? || s.worker.outcome.Cancelled?)
    && (s.worker.Done? ==> Terminal(s.memory.status))
    && (Ran(s.memory.status) || Ran(s.disk.status) ==> s.goSent)
    && (!s.up ==> s.worker.Gone?)
    && (s.cancelledBeforeGo ==> !s.goSent && (s.cancelRequested || s.worker.Gone?))
  }

  predicate LaunchAction(a: Action) {
    a.WorkerStarts? || a.WorkerPrepares? || a.WorkerSpawns? || a.SpawnFails? || a.RequestWritten? || a.RequestFails?
  }

  predicate GateAction(a: Action) {
    a.IdentityCaptured? || a.IdentityFails? || a.WorkerPersistsReady? || a.GateDecision?
  }

  lemma LaunchStep(s: State, a: Action)
    requires Invariant(s) && LaunchAction(a) && Do(s, a).Some?
    ensures Invariant(Do(s, a).value)
  {
  }

  lemma GateStep(s: State, a: Action)
    requires Invariant(s) && GateAction(a) && Do(s, a).Some?
    ensures Invariant(Do(s, a).value)
  {
  }

  lemma EndStep(s: State, a: Action)
    requires Invariant(s) && (a.OutputAppended? || a.WorkerFinishes? || a.StoppedFinishes?) && Do(s, a).Some?
    ensures Invariant(Do(s, a).value)
  {
  }

  lemma OutsideStep(s: State, a: Action)
    requires Invariant(s) && Do(s, a).Some?
    requires a.Cancel? || a.LauncherReads? || a.LauncherPassesGate? || a.ProcessEnds? || a.AgentCrashes? || a.AgentRestarts?
    ensures Invariant(Do(s, a).value)
  {
  }

  lemma InvariantStep(s: State, a: Action)
    requires Invariant(s) && Do(s, a).Some?
    ensures Invariant(Do(s, a).value)
  {
    if LaunchAction(a) {
      LaunchStep(s, a);
    } else if GateAction(a) {
      GateStep(s, a);
    } else if a.OutputAppended? || a.WorkerFinishes? || a.StoppedFinishes? {
      EndStep(s, a);
    } else {
      OutsideStep(s, a);
    }
    hide Invariant, Do;
  }

  lemma {:induction false} InvariantHolds(s: State, actions: seq<Action>)
    requires Init(s) && Run(s, actions).Some?
    ensures Invariant(Run(s, actions).value)
  {
    if actions != [] {
      var before := actions[..|actions| - 1];
      InvariantHolds(s, before);
      InvariantStep(Run(s, before).value, actions[|actions| - 1]);
    }
  }

  /** In every interleaving with failures and crashes, when the launcher becomes the command the
      durable record already names this very process with phase "ready"; and while the command runs,
      the record keeps naming it, so a restarted agent can find it. */
  lemma ExecOnlyWhenDurablyReady(s: State, actions: seq<Action>, last: Action)
    requires Init(s) && Run(s, actions).Some?
    ensures var before := Run(s, actions).value;
            Do(before, last).Some? && Do(before, last).value.launcher == Executing ==>
              && Released(Do(before, last).value.disk, Do(before, last).value.process)
              && (before.launcher != Executing ==> Released(before.disk, before.process))
  {
    InvariantHolds(s, actions);
    if Do(Run(s, actions).value, last).Some? {
      InvariantStep(Run(s, actions).value, last);
    }
  }

  /** A job whose cancellation was accepted before GO was written never runs its command, and if its
      worker ends the job it is reported cancelled or failed. */
  lemma CancelledBeforeGoNeverRuns(s: State, actions: seq<Action>)
    requires Init(s) && Run(s, actions).Some? && Run(s, actions).value.cancelledBeforeGo
    ensures Run(s, actions).value.launcher != Executing
    ensures Run(s, actions).value.worker.Done? ==>
              Run(s, actions).value.memory.status.Cancelled? || Run(s, actions).value.memory.status.Failed?
  {
    InvariantHolds(s, actions);
  }

  /** A job that is reported to have succeeded or timed out was released through the gate. */
  lemma SuccessMeansReleased(s: State, actions: seq<Action>)
    requires Init(s) && Run(s, actions).Some?
    ensures var now := Run(s, actions).value;
            Ran(now.memory.status) || Ran(now.disk.status) ==> now.goSent
  {
    InvariantHolds(s, actions);
  }

  /** A run's last action, taken off. */
  lemma RunLast(s: State, actions: seq<Action>, later: seq<Action>)
    requires later != [] && Run(s, actions + later).Some?
    ensures var before := actions + later[..|later| - 1];
            && Run(s, before).Some?
            && Run(s, actions + later) == Do(Run(s, before).value, later[|later| - 1])
  {
    hide Do;
    var all := actions + later;
    assert all[..|all| - 1] == actions + later[..|later| - 1] && all[|all| - 1] == later[|later| - 1];
  }

  lemma StaysUnreleased(s: State, a: Action)
    requires Invariant(s) && s.worker == Gone && !s.goSent && Do(s, a).Some?
    ensures Do(s, a).value.worker == Gone && !Do(s, a).value.goSent
  {
  }

  /** When the agent dies before writing GO, the launcher can only exit, whatever happens next. */
  lemma {:induction false} CrashBeforeGoNeverRuns(s: State, actions: seq<Action>, later: seq<Action>)
    requires Init(s) && Run(s, actions).Some?
    requires Run(s, actions).value.worker == Gone && !Run(s, actions).value.goSent
    requires Run(s, actions + later).Some?
    ensures Run(s, actions + later).value.worker == Gone && !Run(s, actions + later).value.goSent
    ensures Run(s, actions + later).value.launcher != Executing
  {
    hide Run, Do, Invariant, Init;
    InvariantHolds(s, actions + later);
    UnreleasedDoesNotRun(Run(s, actions + later).value);
    if later == [] {
      assert actions + later == actions;
    } else {
      var before := later[..|later| - 1];
      RunLast(s, actions, later);
      CrashBeforeGoNeverRuns(s, actions, before);
      InvariantHolds(s, actions + before);
      StaysUnreleased(Run(s, actions + before).value, later[|later| - 1]);
    }
  }

  lemma UnreleasedDoesNotRun(s: State)
    requires Invariant(s)
    ensures !s.goSent ==> s.launcher != Executing
  {
  }

  /** No run can get the launcher stuck: once the gate is closed a waiting launcher can always move. */
  lemma GateNeverBlocksForever(s: State, actions: seq<Action>)
    requires Init(s) && Run(s, actions).Some?
    requires !Early(Run(s, actions).value.worker) && !HoldsGate(Run(s, actions).value.worker)
    ensures var now := Run(s, actions).value;
            && (now.launcher.AwaitingGate? ==> Do(now, LauncherPassesGate(false)).Some?)
            && (now.launcher.AwaitingRequest? ==> Do(now, LauncherReads(true)).Some?)
  {
    InvariantHolds(s, actions);
  }

  // ----- how a job ended stays so -----

  /** A terminal durable status is the one in memory, unless a start that failed left "failed" behind; a
      worker still at work has not ended the job. */
  predicate EndInvariant(s: State) {
    && (Terminal(s.disk.status) ==> s.memory.status == s.disk.status || (!s.up && s.disk.status.Failed?))
    && (s.worker.Watching? ==> !Terminal(s.memory.status))
  }

  /** What the worker's program order protects: no step changes a terminal durable status, and only a
      restart of the agent can change a terminal status in memory. */
  lemma EndStays(s: State, a: Action)
    requires Invariant(s) && EndInvariant(s) && Do(s, a).Some?
    ensures EndInvariant(Do(s, a).value)
    ensures Terminal(s.disk.status) ==> Do(s, a).value.disk.status == s.disk.status
    ensures Terminal(s.memory.status) && !a.AgentRestarts? ==> Do(s, a).value.memory.status == s.memory.status
  {
  }

  lemma {:induction false} EndInvariantHolds(s: State, actions: seq<Action>)
    requires Init(s) && Run(s, actions).Some?
    ensures Invariant(Run(s, actions).value) && EndInvariant(Run(s, actions).value)
  {
    InvariantHolds(s, actions);
    if actions != [] {
      var before := actions[..|actions| - 1];
      EndInvariantHolds(s, before);
      hide Invariant, Do, EndInvariant, Init;
      EndStays(Run(s, before).value, actions[|actions| - 1]);
    }
  }

  lemma RunMore(s: State, actions: seq<Action>, last: Action)
    requires Run(s, actions).Some?
    ensures Run(s, actions + [last]) == Do(Run(s, actions).value, last)
  {
    hide Do;
    assert (actions + [last])[..|actions|] == actions;
  }

  /** In every run, a job that has ended stays as it ended: on disk for ever, and with that in the memory
      of every agent that runs; in memory alone for as long as the agent is not restarted. */
  lemma {:induction false} EndIsFinal(s: State, actions: seq<Action>, later: seq<Action>)
    requires Init(s) && Run(s, actions).Some? && Run(s, actions + later).Some?
    ensures var earlier, now := Run(s, actions).value, Run(s, actions + later).value;
            && (Terminal(earlier.disk.status) ==>
                  now.disk.status == earlier.disk.status && (now.up ==> now.memory.status == earlier.disk.status))
            && (Terminal(earlier.memory.status) && (forall i | 0 <= i < |later| :: !later[i].AgentRestarts?) ==>
                  now.memory.status == earlier.memory.status)
    decreases |later|
  {
    hide Run, Do, Invariant, Init;
    EndInvariantHolds(s, actions);
    if later == [] {
      assert actions + later == actions;
    } else {
      var before := later[..|later| - 1];
      RunLast(s, actions, later);
      EndIsFinal(s, actions, before);
      EndInvariantHolds(s, actions + before);
      EndStays(Run(s, actions + before).value, later[|later| - 1]);
    }
  }

  /** A restart comes up if and only if the job's end was durable or can be written now. It keeps how the
      job ended if and only if that was made durable, or the job had failed anyway; in every other case the
      job is failed. */
  lemma RestartKeepsDurableEnd(s: State, actions: seq<Action>, w: Write)
    requires Init(s) && Run(s, actions).Some? && !Run(s, actions).value.up
    ensures var before := Run(s, actions).value;
            Run(s, actions + [AgentRestarts(w)]).Some?
            && var after := Run(s, actions + [AgentRestarts(w)]).value;
            && (after.up <==> Terminal(before.disk.status) || w == Written)
            && (after.up ==>
                  && after.memory.status == (if Terminal(before.disk.status) then before.disk.status else Failed)
                  && after.disk.status == after.memory.status)
            && (after.up && Terminal(before.memory.status) ==>
                  (after.memory.status == before.memory.status <==>
                     before.disk.status == before.memory.status || before.memory.status.Failed?))
  {
    EndInvariantHolds(s, actions);
    RunMore(s, actions, AgentRestarts(w));
  }

  /** When the last write of a command that succeeded fails, the success is lost with the agent: the
      restarted agent reports the job failed. A late write of the output reader saves it. */
  lemma FailedFinalWriteLosesSuccess(s: State, actions: seq<Action>)
    requires Init(s) && Run(s, actions).Some? && Run(s, actions).value.worker.Watching?
    ensures var finished := actions + [WorkerFinishes(Succeeded, FailedOld)];
            var lost := Run(s, finished + [AgentCrashes] + [AgentRestarts(Written)]);
            var saved := Run(s, finished + [OutputAppended(Written)] + [AgentCrashes] + [AgentRestarts(Written)]);
            && Run(s, finished).Some? && Run(s, finished).value.memory.status.Succeeded?
            && lost.Some? && lost.value.up && lost.value.memory.status.Failed?
            && saved.Some? && saved.value.up && saved.value.memory.status.Succeeded?
  {
    EndInvariantHolds(s, actions);
    var finished := actions + [WorkerFinishes(Succeeded, FailedOld)];
    var late := finished + [OutputAppended(Written)];
    RunMore(s, actions, WorkerFinishes(Succeeded, FailedOld));
    RunMore(s, finished, AgentCrashes);
    RunMore(s, finished + [AgentCrashes], AgentRestarts(Written));
    RunMore(s, finished, OutputAppended(Written));
    RunMore(s, late, AgentCrashes);
    RunMore(s, late + [AgentCrashes], AgentRestarts(Written));
    hide Run, Invariant;
    FinishedInMemory(Run(s, actions).value);
    CrashAndRestart(Run(s, finished).value);
    CrashAndRestart(Run(s, late).value);
    hide Do;
  }

  lemma FinishedInMemory(s: State)
    requires s.worker.Watching? && !Terminal(s.memory.status) && s.goSent
    ensures var finished := Do(s, WorkerFinishes(Succeeded, FailedOld));
            && finished.Some? && finished.value.memory.status.Succeeded? && finished.value.disk == s.disk
            && var late := Do(finished.value, OutputAppended(Written));
            && late.Some? && late.value.disk.status.Succeeded?
  {
  }

  lemma CrashAndRestart(s: State)
    ensures var crashed := Do(s, AgentCrashes);
            && crashed.Some?
            && var restarted := Do(crashed.value, AgentRestarts(Written));
            && restarted.Some? && restarted.value.up
            && restarted.value.memory.status == if Terminal(s.disk.status) then s.disk.status else Failed
  {
  }

  // ----- an uncancelled job is released -----

  /** How every remaining step of worker and launcher turns out. */
  datatype Plan = Plan(process: nat, prepared: Write, spawned: bool, requestSent: bool, captured: bool, ready: Write,
                       goSent: bool, requestValid: bool, executed: bool)

  /** The next step of worker and launcher left alone: the launcher has its turn when the gate is decided. */
  function Next(s: State, plan: Plan): Option<Action> {
    match s.worker
    case Begin => Some(WorkerStarts(Written))
    case Preparing => Some(WorkerPrepares(plan.prepared, Written))
    case Spawning => Some(if plan.spawned then WorkerSpawns(plan.process) else SpawnFails(Written))
    case Sending => Some(if plan.requestSent then RequestWritten else RequestFails)
    case Capturing => Some(if plan.captured then IdentityCaptured else IdentityFails)
    case Persisting => Some(WorkerPersistsReady(plan.ready))
    case Gate => Some(GateDecision(!plan.goSent))
    case _ =>
      if s.launcher.AwaitingRequest? then Some(LauncherReads(plan.requestValid))
      else if s.launcher.AwaitingGate? then Some(LauncherPassesGate(!plan.executed))
      else None
  }

  function Step(s: State, plan: Plan): Option<State> {
    var a := Next(s, plan);
    if a.None? then None else Do(s, a.value)
  }

  /** At most n such steps, and where they lead. */
  function Steps(s: State, plan: Plan, n: nat): seq<Action>
    decreases n
  {
    if n == 0 || Step(s, plan).None? then [] else [Next(s, plan).value] + Steps(Step(s, plan).value, plan, n - 1)
  }

  function Led(s: State, plan: Plan, n: nat): State
    decreases n
  {
    if n == 0 || Step(s, plan).None? then s else Led(Step(s, plan).value, plan, n - 1)
  }

  /** How far the worker is. */
  function Stage(w: Worker): nat {
    match w
    case Begin => 0
    case Preparing => 1
    case Spawning => 2
    case Sending => 3
    case Capturing => 4
    case Persisting => 5
    case Gate => 6
    case _ => 7
  }

  /** None of the steps up to the gate fails that the worker has yet to take. */
  predicate WorkerSucceeds(w: Worker, plan: Plan) {
    && (Stage(w) <= 1 ==> plan.prepared == Written)
    && (Stage(w) <= 2 ==> plan.spawned)
    && (Stage(w) <= 3 ==> plan.requestSent)
    && (Stage(w) <= 4 ==> plan.captured)
    && (Stage(w) <= 5 ==> plan.ready == Written)
  }

  predicate LauncherSucceeds(l: Launcher, plan: Plan) {
    (l.NotStarted? || l.AwaitingRequest? ==> plan.requestValid) && plan.executed
  }

  /** Where the launcher is while the worker is before the gate. */
  predicate LaunchShape(s: State) {
    && (Early(s.worker) ==> s.launcher.NotStarted? && !s.requestSent && !s.goSent)
    && (HoldsGate(s.worker) ==>
          && !s.launcher.NotStarted? && s.gateOpen && !s.goSent
          && s.requestOpen == s.worker.Sending? && s.requestSent == !s.worker.Sending?)
    && (s.launcher.AwaitingGate? ==> s.requestSent)
    && (s.goSent ==> s.requestSent)
    && (!HoldsGate(s.worker) ==> !s.gateOpen && !s.requestOpen)
    && (s.cancelRequested ==> s.up)
  }

  lemma ShapeOfLaunchStep(s: State, a: Action)
    requires Invariant(s) && LaunchShape(s) && Do(s, a).Some? && (LaunchAction(a) || GateAction(a))
    ensures LaunchShape(Do(s, a).value)
  {
  }

  lemma ShapeOfOtherStep(s: State, a: Action)
    requires Invariant(s) && LaunchShape(s) && Do(s, a).Some? && !LaunchAction(a) && !GateAction(a)
    ensures LaunchShape(Do(s, a).value)
  {
  }

  lemma ShapeStep(s: State, a: Action)
    requires Invariant(s) && LaunchShape(s) && Do(s, a).Some?
    ensures LaunchShape(Do(s, a).value)
  {
    hide Invariant, LaunchShape, Do;
    if LaunchAction(a) || GateAction(a) {
      ShapeOfLaunchStep(s, a);
    } else {
      ShapeOfOtherStep(s, a);
    }
  }

  lemma {:induction false} ShapeHolds(s: State, actions: seq<Action>)
    requires Init(s) && Run(s, actions).Some?
    ensures Invariant(Run(s, actions).value) && LaunchShape(Run(s, actions).value)
  {
    InvariantHolds(s, actions);
    if actions != [] {
      var before := actions[..|actions| - 1];
      ShapeHolds(s, before);
      hide Invariant, Do, LaunchShape, Init;
      ShapeStep(Run(s, before).value, actions[|actions| - 1]);
    }
  }

  lemma {:induction false} RunSteps(s: State, actions: seq<Action>, plan: Plan, n: nat)
    requires Run(s, actions).Some?
    ensures Run(s, actions + Steps(Run(s, actions).value, plan, n)) == Some(Led(Run(s, actions).value, plan, n))
    decreases n
  {
    hide Run, Do, Next;
    var now := Run(s, actions).value;
    if n == 0 || Step(now, plan).None? {
      assert actions + [] == actions;
    } else {
      var a, next := Next(now, plan).value, Step(now, plan).value;
      RunMore(s, actions, a);
      RunSteps(s, actions + [a], plan, n - 1);
      ConcatAssociative(actions, [a], Steps(next, plan, n - 1));
    }
  }

  /** The launcher once the gate is decided. */
  lemma LauncherLed(s: State, plan: Plan, n: nat)
    requires Invariant(s) && LaunchShape(s) && Stage(s.worker) == 7 && 2 <= n
    requires s.launcher.AwaitingRequest? || s.launcher.AwaitingGate?
    ensures var after := Led(s, plan, n);
            && (after.launcher.Executing? <==> s.goSent && LauncherSucceeds(s.launcher, plan))
            && after.worker == s.worker && after.memory == s.memory && after.goSent == s.goSent
  {
    var next := Step(s, plan).value;
    LauncherLedOnce(s, plan, n);
    if s.launcher.AwaitingRequest? {
      LauncherLedOnce(next, plan, n - 1);
      hide Led;
      if next.launcher.AwaitingGate? {
        NothingLeft(Step(next, plan).value, plan, n - 2);
      } else {
        NothingLeft(next, plan, n - 1);
      }
    } else {
      NothingLeft(next, plan, n - 1);
    }
  }

  lemma LauncherLedOnce(s: State, plan: Plan, n: nat)
    requires 0 < n
    ensures Led(s, plan, n) == if Step(s, plan).None? then s else Led(Step(s, plan).value, plan, n - 1)
  {
  }

  lemma NothingLeft(s: State, plan: Plan, n: nat)
    requires Stage(s.worker) == 7 && !s.launcher.AwaitingRequest? && !s.launcher.AwaitingGate?
    ensures Led(s, plan, n) == s
  {
  }

  /** What the steps lead to, from any state before the gate with a live launcher or none yet. */
  ghost predicate LeadsRight(s: State, plan: Plan, after: State) {
    && (after.launcher.Executing?
        <==> !s.cancelRequested && WorkerSucceeds(s.worker, plan) && plan.goSent && LauncherSucceeds(s.launcher, plan))
    && (after.worker.Watching? <==> !s.cancelRequested && WorkerSucceeds(s.worker, plan) && plan.goSent)
    && (s.cancelRequested && WorkerSucceeds(s.worker, plan) ==>
          after.worker == Stopping(Cancelled) || (after.worker.Done? && after.memory.status.Cancelled?))
    && (!s.cancelRequested && !(WorkerSucceeds(s.worker, plan) && plan.goSent) ==>
          after.worker == Stopping(Failed) || (after.worker.Done? && after.memory.status.Failed?))
  }

  /** One step before the gate: on to the next stage with everything as it was, or out of the launch. */
  lemma OneStep(s: State, plan: Plan)
    requires Invariant(s) && LaunchShape(s) && s.up && !s.launcher.Exited?
    requires Early(s.worker) || HoldsGate(s.worker)
    ensures Step(s, plan).Some?
    ensures var next := Step(s, plan).value;
            && next.up && next.cancelRequested == s.cancelRequested && !next.launcher.Exited?
            && (Early(next.worker) || HoldsGate(next.worker) ==>
                  && Stage(next.worker) == Stage(s.worker) + 1
                  && WorkerSucceeds(next.worker, plan) == WorkerSucceeds(s.worker, plan)
                  && LauncherSucceeds(next.launcher, plan) == LauncherSucceeds(s.launcher, plan))
            && (!Early(next.worker) && !HoldsGate(next.worker) ==>
                  && Stage(next.worker) == 7 && next.launcher == s.launcher
                  && (next.goSent <==> !s.cancelRequested && WorkerSucceeds(s.worker, plan) && plan.goSent)
                  && (next.worker.Watching? <==> next.goSent)
                  && (s.cancelRequested && WorkerSucceeds(s.worker, plan) ==>
                        next.worker == Stopping(Cancelled) || (next.worker.Done? && next.memory.status.Cancelled?))
                  && (!s.cancelRequested && !next.goSent ==>
                        next.worker == Stopping(Failed) || (next.worker.Done? && next.memory.status.Failed?)))
  {
  }

  lemma {:induction false} StepsLeadRight(s: State, plan: Plan, n: nat)
    requires Invariant(s) && LaunchShape(s) && s.up && !s.launcher.Exited? && 9 <= n + Stage(s.worker)
    requires Early(s.worker) || HoldsGate(s.worker)
    ensures LeadsRight(s, plan, Led(s, plan, n))
    decreases 7 - Stage(s.worker)
  {
    OneStep(s, plan);
    var next := Step(s, plan).value;
    LauncherLedOnce(s, plan, n);
    InvariantStep(s, Next(s, plan).value);
    ShapeStep(s, Next(s, plan).value);
    ShapeOfLauncher(s);
    hide Led, Next, Do, Invariant, LaunchShape, WorkerSucceeds, LauncherSucceeds;
    if Early(next.worker) || HoldsGate(next.worker) {
      StepsLeadRight(next, plan, n - 1);
    } else if next.launcher.NotStarted? {
      NothingLeft(next, plan, n - 1);
    } else {
      LauncherLed(next, plan, n - 1);
    }
  }

  lemma ShapeOfLauncher(s: State)
    requires Invariant(s) && LaunchShape(s)
    ensures Early(s.worker) ==> s.launcher.NotStarted?
    ensures HoldsGate(s.worker) ==> !s.launcher.NotStarted? && !s.launcher.Executing?
  {
  }

  /** From every reachable state before the gate in which the agent is up and the launcher, if there is one,
      alive: the steps that remain end with the command running if and only if no cancellation was requested
      and none of them fails; otherwise the job ends cancelled or failed. */
  lemma RunsExactlyWhenReleased(s: State, actions: seq<Action>, plan: Plan)
    requires Init(s) && Run(s, actions).Some?
    requires var now := Run(s, actions).value;
             now.up && !now.launcher.Exited? && (Early(now.worker) || HoldsGate(now.worker))
    ensures var now := Run(s, actions).value;
            var after := Run(s, actions + Steps(now, plan, 9));
            after.Some? && LeadsRight(now, plan, after.value)
  {
    ShapeHolds(s, actions);
    hide Run, Invariant, LaunchShape, Led, Steps, LeadsRight;
    StepsLeadRight(Run(s, actions).value, plan, 9);
    RunSteps(s, actions, plan, 9);
  }

  /** The job then ends with the outcome that the worker observed, on disk too unless the write failed
      without leaving anything. */
  lemma EndsAsObserved(s: State, actions: seq<Action>, outcome: Status, w: Write)
    requires Init(s) && Run(s, actions).Some? && Run(s, actions).value.worker.Watching? && Terminal(outcome)
    ensures var after := Run(s, actions + [WorkerFinishes(outcome, w)]);
            && after.Some? && after.value.worker.Done? && after.value.memory.status == outcome
            && (w != FailedOld ==> after.value.disk.status == outcome)
  {
    EndInvariantHolds(s, actions);
    RunMore(s, actions, WorkerFinishes(outcome, w));
    hide Run, Invariant;
  }

  /** And so does one that is stopped before the gate, once its process is gone. */
  lemma StoppedEndsAsDecided(s: State, actions: seq<Action>, w: Write)
    requires Init(s) && Run(s, actions).Some? && Run(s, actions).value.worker.Stopping?
    requires !Run(s, actions).value.launcher.NotStarted?
    ensures var outcome := Run(s, actions).value.worker.outcome;
            var after := Run(s, actions + [ProcessEnds] + [StoppedFinishes(w)]);
            && after.Some? && after.value.worker.Done? && after.value.memory.status == outcome
            && (w != FailedOld ==> after.value.disk.status == outcome)
  {
    InvariantHolds(s, actions);
    RunMore(s, actions, ProcessEnds);
    RunMore(s, actions + [ProcessEnds], StoppedFinishes(w));
    hide Run;
  }

  // ----- and only then -----

  /** GO is written by the i-th action: the gate is decided, nothing fails, nobody cancelled before. */
  predicate GoAt(actions: seq<Action>, i: nat) {
    && i < |actions| && actions[i] == GateDecision(false)
    && forall m | 0 <= m < i :: !actions[m].Cancel?
  }

  lemma GoAtLonger(actions: seq<Action>, a: Action, i: nat)
    ensures i < |actions| ==> (GoAt(actions + [a], i) <==> GoAt(actions, i))
    ensures i == |actions| ==>
              (GoAt(actions + [a], i) <==> a == GateDecision(false) && forall m | 0 <= m < |actions| :: !actions[m].Cancel?)
  {
    assert forall m | 0 <= m < |actions| :: (actions + [a])[m] == actions[m];
  }

  lemma GoStep(s: State, a: Action)
    requires Invariant(s) && LaunchShape(s) && Do(s, a).Some?
    ensures var t := Do(s, a).value;
            && (t.goSent <==> s.goSent || (a == GateDecision(false) && !s.cancelRequested))
            && (a.GateDecision? ==> s.up && !s.worker.Gone?)
            && (t.up && !t.worker.Gone? ==> s.up && !s.worker.Gone? && (t.cancelRequested <==> s.cancelRequested || a.Cancel?))
  {
  }

  ghost predicate Cancels(actions: seq<Action>) {
    exists m :: 0 <= m < |actions| && actions[m].Cancel?
  }

  lemma CancelsLonger(actions: seq<Action>, a: Action)
    ensures Cancels(actions + [a]) <==> Cancels(actions) || a.Cancel?
  {
    assert forall m | 0 <= m < |actions| :: (actions + [a])[m] == actions[m];
    assert (actions + [a])[|actions|] == a;
  }

  /** What a run remembers of cancellations, and when GO was written. */
  lemma {:induction false} GoWasWritten(s: State, actions: seq<Action>)
    requires Init(s) && Run(s, actions).Some?
    ensures var now := Run(s, actions).value;
            && (now.up && !now.worker.Gone? ==> (now.cancelRequested <==> Cancels(actions)))
            && (now.goSent <==> exists i :: GoAt(actions, i))
    decreases |actions|
  {
    if actions != [] {
      var earlier, a := actions[..|actions| - 1], actions[|actions| - 1];
      var before := Run(s, earlier).value;
      assert Do(before, a) == Run(s, actions);
      GoWasWritten(s, earlier);
      assert actions == earlier + [a];
      forall i: nat ensures i < |earlier| ==> (GoAt(actions, i) <==> GoAt(earlier, i)) {
        GoAtLonger(earlier, a, i);
      }
      GoAtLonger(earlier, a, |earlier|);
      CancelsLonger(earlier, a);
      assert !Cancels(earlier) <==> forall m | 0 <= m < |earlier| :: !earlier[m].Cancel?;
      ShapeHolds(s, earlier);
      GoStep(before, a);
      hide Run, Do, Cancels, Invariant, LaunchShape;
      assert forall i: nat | GoAt(actions, i) :: i < |actions|;
      assert forall i: nat | GoAt(earlier, i) :: i < |earlier|;
      hide GoAt;
    }
  }

  /** The command runs at some point of the run. */
  ghost predicate Executes(s: State, actions: seq<Action>) {
    exists k :: 0 <= k <= |actions| && Run(s, actions[..k]).Some? && Run(s, actions[..k]).value.launcher.Executing?
  }

  /** The launcher passes the gate at j after GO was written at i. */
  predicate PassesAfterGo(actions: seq<Action>, i: nat, j: nat) {
    i < j < |actions| && GoAt(actions, i) && actions[j] == LauncherPassesGate(false)
  }

  lemma RunUpTo(s: State, actions: seq<Action>, k: nat)
    requires k <= |actions| && Run(s, actions).Some?
    ensures Run(s, actions[..k]).Some?
    decreases |actions|
  {
    hide Do;
    if k < |actions| {
      var earlier := actions[..|actions| - 1];
      assert earlier[..k] == actions[..k];
      RunUpTo(s, earlier, k);
    } else {
      assert actions[..k] == actions;
    }
  }

  lemma RunNext(s: State, actions: seq<Action>, k: nat)
    requires k < |actions| && Run(s, actions[..k + 1]).Some?
    ensures Run(s, actions[..k]).Some? && Do(Run(s, actions[..k]).value, actions[k]) == Run(s, actions[..k + 1])
  {
    hide Do;
    assert actions[..k + 1][..k] == actions[..k];
  }

  lemma GateLeavesLauncher(s: State)
    requires Do(s, GateDecision(false)).Some?
    ensures Do(s, GateDecision(false)).value.launcher == s.launcher
  {
  }

  /** After GO the worker only writes and ends. */
  lemma AfterGo(s: State, a: Action)
    requires s.goSent && (s.worker.Watching? || s.worker.Done? || s.worker.Gone?) && Do(s, a).Some?
    ensures a.OutputAppended? || a.WorkerFinishes? || a.Cancel? || a.LauncherReads? || a.LauncherPassesGate? || a.ProcessEnds?
            || a.AgentCrashes? || a.AgentRestarts?
  {
    hide Persist, FinishAs, CloseGate;
  }

  lemma RunningLeavesLauncher(s: State, a: Action)
    requires !s.launcher.Executing? && Do(s, a).Some?
    requires a.OutputAppended? || a.WorkerFinishes? || a.Cancel? || a.LauncherReads? || a.ProcessEnds? || a.AgentCrashes?
             || a.AgentRestarts?
    ensures !Do(s, a).value.launcher.Executing?
  {
  }

  lemma BecameExecuting(s: State, a: Action)
    requires Invariant(s) && LaunchShape(s)
    requires !s.launcher.Executing? && Do(s, a).Some? && Do(s, a).value.launcher.Executing?
    ensures a == LauncherPassesGate(false) && s.goSent
  {
    InvariantStep(s, a);
    GoStep(s, a);
    hide Persist, FinishAs, CloseGate;
    if a == GateDecision(false) {
      GateLeavesLauncher(s);
    } else {
      AfterGo(s, a);
      if !a.LauncherPassesGate? {
        RunningLeavesLauncher(s, a);
      }
    }
  }

  lemma NotExecutingYet(s: State, actions: seq<Action>)
    requires Init(s)
    ensures Run(s, actions[..0]) == Some(s) && !s.launcher.Executing?
  {
  }

  /** The first state of a run in which the command runs comes from passing the gate. */
  lemma {:induction false} ExecutionCameFrom(s: State, actions: seq<Action>, k: nat) returns (j: nat)
    requires Init(s) && k <= |actions| && Run(s, actions[..k]).Some? && Run(s, actions[..k]).value.launcher.Executing?
    ensures j < k && actions[j] == LauncherPassesGate(false)
    ensures Run(s, actions[..j]).Some? && Run(s, actions[..j]).value.goSent
  {
    hide Run, Do, Init, Invariant, LaunchShape;
    NotExecutingYet(s, actions);
    RunNext(s, actions, k - 1);
    if Run(s, actions[..k - 1]).value.launcher.Executing? {
      j := ExecutionCameFrom(s, actions, k - 1);
    } else {
      ShapeHolds(s, actions[..k - 1]);
      BecameExecuting(Run(s, actions[..k - 1]).value, actions[k - 1]);
      j := k - 1;
    }
  }

  /** In every run: the command runs if and only if GO was written, nobody having cancelled before, and the
      launcher then passed the gate and its exec did not fail. */
  lemma ExecutesExactlyWhenReleased(s: State, actions: seq<Action>)
    requires Init(s) && Run(s, actions).Some?
    ensures Executes(s, actions) <==> exists i, j :: PassesAfterGo(actions, i, j)
  {
    hide Run, Do, Init, GoAt;
    if Executes(s, actions) {
      var k :| 0 <= k <= |actions| && Run(s, actions[..k]).Some? && Run(s, actions[..k]).value.launcher.Executing?;
      var j := ExecutionCameFrom(s, actions, k);
      GoWasWritten(s, actions[..j]);
      var i: nat :| GoAt(actions[..j], i);
      GoAtUpTo(actions, i, j);
      assert PassesAfterGo(actions, i, j);
    }
    if i: nat, j: nat :| PassesAfterGo(actions, i, j) {
      RunUpTo(s, actions, j + 1);
      RunNext(s, actions, j);
      GoAtUpTo(actions, i, j);
      GoWasWritten(s, actions[..j]);
      PassesReleased(Run(s, actions[..j]).value);
    }
  }

  lemma PassesReleased(s: State)
    requires s.goSent && Do(s, LauncherPassesGate(false)).Some?
    ensures Do(s, LauncherPassesGate(false)).value.launcher.Executing?
  {
  }

  lemma GoAtUpTo(actions: seq<Action>, i: nat, j: nat)
    requires j <= |actions|
    ensures GoAt(actions[..j], i) ==> i < j && GoAt(actions, i)
    ensures i < j && GoAt(actions, i) ==> GoAt(actions[..j], i)
  {
    assert forall m | 0 <= m < j :: actions[..j][m] == actions[m];
  }
}
