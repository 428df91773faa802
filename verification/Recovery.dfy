/** Start-up recovery (`_recover_with_pidfds`): signals are sent through pidfds while processes exit,
    pids are reused and processes change group, session or environment between any two steps. */
module Recovery {
  import opened Basics
  import JobRecord

  /** A running process. `instance` is never reused, unlike its pid. */
  datatype Process = Process(instance: nat, group: int, session: int, startTime: int, environment: set<string>)

  /** The stored identity of the interrupted job. */
  type Identity = JobRecord.Identity

  type Table = map<nat, Process>

  /** First half of `_recovery_process_matches`: `/proc/<pid>/stat`. */
  predicate StatMatches(id: Identity, pid: nat, p: Process) {
    && id.processGroup == Some(p.group) && id.sessionId == Some(p.session)
    && (pid == id.pid ==> id.startTimeTicks == Some(p.startTime))
  }

  /** Second half: `/proc/<pid>/environ`. */
  predicate TokenMatches(id: Identity, p: Process) {
    id.recoveryToken in p.environment
  }

  /** `_recovery_identity_is_current`: a whole identity of a session leader, stored in the boot that is
      running (None when the boot id cannot be read). */
  predicate Current(id: Identity, boot: Option<string>) {
    && id.processGroup == Some(id.pid) && id.sessionId == Some(id.pid)
    && id.startTimeTicks.Some? && id.bootId.Some? && boot == id.bootId
  }

  /** Where `_signal_recovery_pids` is with one pid: the descriptor is bound to the instance that had
      the pid when it was opened. */
  datatype Check =
    | Idle
    | Opened(pid: nat, bound: nat)
    | StatRead(pid: nat, bound: nat)
    | TokenRead(pid: nat, bound: nat)

  /** History: which instances were seen to match each half, and which were sent a signal. */
  datatype State = State(boot: Option<string>, processes: Table, nextInstance: nat, check: Check,
                         statSeen: set<nat>, tokenSeen: set<nat>, signalled: set<nat>)

  datatype Action =
    | Open(pid: nat)
    | ReadStat
    | ReadToken
    | Send
    | Close
    | Exits(pid: nat)
    | Spawns(pid: nat, group: int, session: int, startTime: int, environment: set<string>)
    | Changes(pid: nat, group: int, session: int, environment: set<string>)

  /** The recovering agent has done nothing yet. */
  predicate Init(s: State) {
    && s.check == Idle && s.statSeen == {} && s.tokenSeen == {} && s.signalled == {}
    && DistinctInstances(s)
  }

  /** No two pids name the same process, and none names one from the future. */
  predicate DistinctInstances(s: State) {
    && (forall a, b | a in s.processes && b in s.processes && a != b ::
          s.processes[a].instance != s.processes[b].instance)
    && (forall a | a in s.processes :: s.processes[a].instance < s.nextInstance)
  }

  function Do(id: Identity, s: State, a: Action): Option<State> {
    match a
    case Open(pid) =>
      if s.check != Idle || pid !in s.processes || !Current(id, s.boot) then None
      else Some(s.(check := Opened(pid, s.processes[pid].instance)))
    case ReadStat =>
      if !s.check.Opened? then None
      else
        var pid := s.check.pid;
        if pid in s.processes && StatMatches(id, pid, s.processes[pid])
        then Some(s.(check := StatRead(pid, s.check.bound), statSeen := s.statSeen + {s.processes[pid].instance}))
        else Some(s.(check := Idle))
    case ReadToken =>
      if !s.check.StatRead? then None
      else
        var pid := s.check.pid;
        if pid in s.processes && TokenMatches(id, s.processes[pid])
        then Some(s.(check := TokenRead(pid, s.check.bound), tokenSeen := s.tokenSeen + {s.processes[pid].instance}))
        else Some(s.(check := Idle))
    case Send =>
      if !s.check.TokenRead? then None
      else
        // A pidfd signals its instance or fails; it never reaches another process.
        var pid, bound := s.check.pid, s.check.bound;
        if pid in s.processes && s.processes[pid].instance == bound
        then Some(s.(check := Idle, signalled := s.signalled + {bound}))
        else Some(s.(check := Idle))
    case Close => Some(s.(check := Idle))
    case Exits(pid) => if pid !in s.processes then None else Some(s.(processes := s.processes - {pid}))
    case Spawns(pid, group, session, startTime, environment) =>
      if pid in s.processes then None
      else Some(s.(processes := s.processes[pid := Process(s.nextInstance, group, session, startTime, environment)],
                   nextInstance := s.nextInstance + 1))
    case Changes(pid, group, session, environment) =>
      if pid !in s.processes then None
      else
        var p := s.processes[pid];
        Some(s.(processes := s.processes[pid := Process(p.instance, group, session, p.startTime, environment)]))
  }

  function Run(id: Identity, s: State, actions: seq<Action>): Option<State> {
    if actions == [] then Some(s)
    else
      var before := Run(id, s, actions[..|actions| - 1]);
      if before.None? then None else Do(id, before.value, actions[|actions| - 1])
  }

  /** A live instance keeps its pid: as long as the bound instance is alive, the pid still names it. */
  predicate BoundHere(s: State, pid: nat, bound: nat) {
    && bound < s.nextInstance
    && (forall a | a in s.processes && s.processes[a].instance == bound :: a == pid)
  }

  predicate Alive(s: State, instance: nat) {
    exists a :: a in s.processes && s.processes[a].instance == instance
  }

  ghost predicate Invariant(s: State) {
    && DistinctInstances(s)
    && (!s.check.Idle? ==> BoundHere(s, s.check.pid, s.check.bound))
    && (s.check.StatRead? || s.check.TokenRead? ==> Alive(s, s.check.bound) ==> s.check.bound in s.statSeen)
    && (s.check.TokenRead? ==> Alive(s, s.check.bound) ==> s.check.bound in s.tokenSeen)
    && s.signalled <= s.statSeen && s.signalled <= s.tokenSeen
  }

  lemma AgentStep(id: Identity, s: State, a: Action)
    requires Invariant(s) && Do(id, s, a).Some?
    requires a.Open? || a.ReadStat? || a.ReadToken? || a.Send? || a.Close?
    ensures Invariant(Do(id, s, a).value)
  {
  }

  lemma SystemStep(id: Identity, s: State, a: Action)
    requires Invariant(s) && Do(id, s, a).Some?
    requires a.Exits? || a.Spawns? || a.Changes?
    ensures Invariant(Do(id, s, a).value)
  {
    var s' := Do(id, s, a).value;
    assert forall i: nat | i < s.nextInstance && Alive(s', i) :: Alive(s, i) by {
      forall i: nat | i < s.nextInstance && Alive(s', i) ensures Alive(s, i) {
        var p :| p in s'.processes && s'.processes[p].instance == i;
        assert p in s.processes && s.processes[p].instance == i;
      }
    }
  }

  lemma {:induction false} InvariantHolds(id: Identity, s: State, actions: seq<Action>)
    requires Init(s) && Run(id, s, actions).Some?
    ensures Invariant(Run(id, s, actions).value)
  {
    if actions != [] {
      var before := actions[..|actions| - 1];
      InvariantHolds(id, s, before);
      var a := actions[|actions| - 1];
      hide Invariant;
      if a.Exits? || a.Spawns? || a.Changes? {
        SystemStep(id, Run(id, s, before).value, a);
      } else {
        AgentStep(id, Run(id, s, before).value, a);
      }
    }
  }

  /** Every process instance that receives a signal was itself seen in the stored group and session
      (with the stored start time, for the leader's pid) and itself seen carrying the token. */
  lemma OnlyMatchingInstancesSignalled(id: Identity, s: State, actions: seq<Action>)
    requires Init(s) && Run(id, s, actions).Some?
    ensures var now := Run(id, s, actions).value;
            now.signalled <= now.statSeen * now.tokenSeen
  {
    InvariantHolds(id, s, actions);
  }

  /** The history means what it says: an instance enters it only while it holds a pid under which it
      matches, the stored start time included when that pid is the leader's. */
  lemma SeenMeansMatched(id: Identity, s: State, a: Action, instance: nat)
    requires Do(id, s, a).Some?
    ensures instance in Do(id, s, a).value.statSeen - s.statSeen ==>
              exists pid :: pid in s.processes && s.processes[pid].instance == instance
                            && StatMatches(id, pid, s.processes[pid])
    ensures instance in Do(id, s, a).value.tokenSeen - s.tokenSeen ==>
              exists pid :: pid in s.processes && s.processes[pid].instance == instance
                            && TokenMatches(id, s.processes[pid])
    ensures instance in Do(id, s, a).value.signalled - s.signalled ==> a.Send?
  {
    if a.ReadStat? || a.ReadToken? {
      var pid := s.check.pid;
      assert instance in Do(id, s, a).value.statSeen - s.statSeen || instance in Do(id, s, a).value.tokenSeen - s.tokenSeen ==>
          pid in s.processes && s.processes[pid].instance == instance;
    }
  }

  // ----- and exactly the right one is signalled -----

  /** The state before the i-th action of a run. */
  function Before(id: Identity, s: State, actions: seq<Action>, i: nat): Option<State>
    requires i <= |actions|
  {
    Run(id, s, actions[..i])
  }

  predicate IsSystem(a: Action) {
    a.Exits? || a.Spawns? || a.Changes?
  }

  /** The agent does nothing from i up to k. */
  predicate Quiet(actions: seq<Action>, i: int, k: int) {
    forall j | i <= j < k && 0 <= j < |actions| :: IsSystem(actions[j])
  }

  /** Before the i-th action the pid names this instance. */
  ghost predicate Names(id: Identity, s: State, actions: seq<Action>, i: nat, pid: nat, instance: nat) {
    && i <= |actions| && Before(id, s, actions, i).Some?
    && pid in Before(id, s, actions, i).value.processes
    && Before(id, s, actions, i).value.processes[pid].instance == instance
  }

  /** The instance is opened at i and nothing else is done up to n. */
  ghost predicate OpenedAt(id: Identity, s: State, actions: seq<Action>, i: nat, n: nat, pid: nat, instance: nat) {
    && i < n <= |actions| && actions[i] == Open(pid) && Names(id, s, actions, i, pid, instance)
    && Quiet(actions, i + 1, n)
  }

  /** Opened at i, it matches the first half at j. */
  ghost predicate StatReadAt(id: Identity, s: State, actions: seq<Action>, i: nat, j: nat, n: nat, pid: nat, instance: nat) {
    && j < n <= |actions| && OpenedAt(id, s, actions, i, j, pid, instance)
    && actions[j] == ReadStat && Names(id, s, actions, j, pid, instance)
    && StatMatches(id, pid, Before(id, s, actions, j).value.processes[pid])
    && Quiet(actions, j + 1, n)
  }

  /** And the second half at k. */
  ghost predicate TokenReadAt(id: Identity, s: State, actions: seq<Action>, i: nat, j: nat, k: nat, n: nat, pid: nat,
                              instance: nat)
  {
    && k < n <= |actions| && StatReadAt(id, s, actions, i, j, k, pid, instance)
    && actions[k] == ReadToken && Names(id, s, actions, k, pid, instance)
    && TokenMatches(id, Before(id, s, actions, k).value.processes[pid])
    && Quiet(actions, k + 1, n)
  }

  /** And it is alive when the signal is sent at n. */
  ghost predicate SentAt(id: Identity, s: State, actions: seq<Action>, i: nat, j: nat, k: nat, n: nat, pid: nat, instance: nat) {
    && n < |actions| && TokenReadAt(id, s, actions, i, j, k, n, pid, instance)
    && actions[n] == Send && Before(id, s, actions, n).Some? && Alive(Before(id, s, actions, n).value, instance)
  }

  lemma RunPrefix(id: Identity, s: State, actions: seq<Action>, i: nat)
    requires i < |actions| && Before(id, s, actions, i + 1).Some?
    ensures Before(id, s, actions, i).Some?
    ensures Before(id, s, actions, i + 1) == Do(id, Before(id, s, actions, i).value, actions[i])
  {
    hide Do;
    assert actions[..i + 1][..i] == actions[..i];
  }

  lemma {:induction false} RunsBefore(id: Identity, s: State, actions: seq<Action>, i: nat)
    requires i <= |actions| && Run(id, s, actions).Some?
    ensures Before(id, s, actions, i).Some?
    decreases |actions| - i
  {
    if i == |actions| {
      assert actions[..i] == actions;
    } else {
      RunsBefore(id, s, actions, i + 1);
      RunPrefix(id, s, actions, i);
    }
  }

  lemma SystemKeepsCheck(id: Identity, s: State, a: Action)
    requires IsSystem(a) && Do(id, s, a).Some?
    ensures Do(id, s, a).value.check == s.check && Do(id, s, a).value.signalled == s.signalled
  {
  }

  /** While only the system acts, the check stays where it is. */
  lemma {:induction false} QuietKeepsCheck(id: Identity, s: State, actions: seq<Action>, i: nat, k: nat)
    requires i <= k <= |actions| && Quiet(actions, i, k) && Before(id, s, actions, k).Some?
    ensures Before(id, s, actions, i).Some?
    ensures Before(id, s, actions, k).value.check == Before(id, s, actions, i).value.check
    decreases k - i
  {
    hide Do, Run;
    if i < k {
      RunPrefix(id, s, actions, k - 1);
      SystemKeepsCheck(id, Before(id, s, actions, k - 1).value, actions[k - 1]);
      QuietKeepsCheck(id, s, actions, i, k - 1);
    }
  }

  lemma {:induction false} SignalledGrows(id: Identity, s: State, actions: seq<Action>, i: nat, k: nat)
    requires i <= k <= |actions| && Before(id, s, actions, k).Some?
    ensures Before(id, s, actions, i).Some?
    ensures Before(id, s, actions, i).value.signalled <= Before(id, s, actions, k).value.signalled
    decreases k - i
  {
    if i < k {
      RunPrefix(id, s, actions, k - 1);
      hide Run;
      SignalledGrows(id, s, actions, i, k - 1);
    }
  }

  lemma OpenedCheck(id: Identity, s: State, actions: seq<Action>, i: nat, n: nat, pid: nat, instance: nat)
    requires OpenedAt(id, s, actions, i, n, pid, instance) && Before(id, s, actions, n).Some?
    ensures Before(id, s, actions, n).value.check == Opened(pid, instance)
  {
    hide Run;
    QuietKeepsCheck(id, s, actions, i + 1, n);
    RunPrefix(id, s, actions, i);
  }

  lemma StatReadCheck(id: Identity, s: State, actions: seq<Action>, i: nat, j: nat, n: nat, pid: nat, instance: nat)
    requires StatReadAt(id, s, actions, i, j, n, pid, instance) && Before(id, s, actions, n).Some?
    ensures Before(id, s, actions, n).value.check == StatRead(pid, instance)
  {
    hide Run, StatMatches;
    QuietKeepsCheck(id, s, actions, j + 1, n);
    RunPrefix(id, s, actions, j);
    OpenedCheck(id, s, actions, i, j, pid, instance);
  }

  lemma TokenReadCheck(id: Identity, s: State, actions: seq<Action>, i: nat, j: nat, k: nat, n: nat, pid: nat, instance: nat)
    requires TokenReadAt(id, s, actions, i, j, k, n, pid, instance) && Before(id, s, actions, n).Some?
    ensures Before(id, s, actions, n).value.check == TokenRead(pid, instance)
  {
    hide Run, TokenMatches;
    QuietKeepsCheck(id, s, actions, k + 1, n);
    RunPrefix(id, s, actions, k);
    StatReadCheck(id, s, actions, i, j, k, pid, instance);
  }

  /** One send. */
  lemma SendReaches(id: Identity, s: State)
    requires Invariant(s) && s.check.TokenRead?
    ensures Do(id, s, Send).value.signalled == s.signalled + if Alive(s, s.check.bound) then {s.check.bound} else {}
  {
  }

  /** If: an instance that was opened, matched both halves and is alive at the send is signalled. */
  lemma SentIsSignalled(id: Identity, s: State, actions: seq<Action>, i: nat, j: nat, k: nat, n: nat, pid: nat, instance: nat)
    requires Init(s) && Run(id, s, actions).Some? && SentAt(id, s, actions, i, j, k, n, pid, instance)
    ensures instance in Run(id, s, actions).value.signalled
  {
    hide Do, Run, Invariant, TokenReadAt, Alive, Init;
    RunsBefore(id, s, actions, n + 1);
    RunPrefix(id, s, actions, n);
    TokenReadCheck(id, s, actions, i, j, k, n, pid, instance);
    InvariantHolds(id, s, actions[..n]);
    SendReaches(id, Before(id, s, actions, n).value);
    assert actions[..|actions|] == actions;
    SignalledGrows(id, s, actions, n + 1, |actions|);
  }

  /** Where the check is, the run has taken it, for as long as the bound instance is alive. */
  ghost predicate CheckHistory(id: Identity, s: State, actions: seq<Action>, n: nat)
    requires n <= |actions| && Before(id, s, actions, n).Some?
  {
    var now := Before(id, s, actions, n).value;
    match now.check
    case Idle => true
    case Opened(pid, bound) => exists i :: OpenedAt(id, s, actions, i, n, pid, bound)
    case StatRead(pid, bound) =>
      Alive(now, bound) ==> exists i, j :: StatReadAt(id, s, actions, i, j, n, pid, bound)
    case TokenRead(pid, bound) =>
      Alive(now, bound) ==> exists i, j, k :: TokenReadAt(id, s, actions, i, j, k, n, pid, bound)
  }

  /** The dead stay dead. */
  lemma AliveBefore(id: Identity, s: State, a: Action, instance: nat)
    requires Do(id, s, a).Some? && instance < s.nextInstance && Alive(Do(id, s, a).value, instance)
    ensures Alive(s, instance)
  {
    var t := Do(id, s, a).value;
    var p :| p in t.processes && t.processes[p].instance == instance;
    assert p in s.processes && s.processes[p].instance == instance;
  }

  lemma QuietMore(actions: seq<Action>, i: nat, n: nat)
    requires n < |actions| && Quiet(actions, i, n) && IsSystem(actions[n])
    ensures Quiet(actions, i, n + 1)
  {
    hide IsSystem;
  }

  lemma SystemHistory(id: Identity, s: State, actions: seq<Action>, n: nat)
    requires n < |actions| && Before(id, s, actions, n + 1).Some? && Before(id, s, actions, n).Some?
    requires Invariant(Before(id, s, actions, n).value) && CheckHistory(id, s, actions, n) && IsSystem(actions[n])
    ensures CheckHistory(id, s, actions, n + 1)
  {
    var now, a := Before(id, s, actions, n).value, actions[n];
    RunPrefix(id, s, actions, n);
    SystemKeepsCheck(id, now, a);
    if !now.check.Idle? && Alive(Do(id, now, a).value, now.check.bound) {
      AliveBefore(id, now, a, now.check.bound);
    }
    hide Run, Do, Before, Alive, Names, StatMatches, TokenMatches, Invariant, Quiet, IsSystem;
    if now.check.Opened? {
      var i: nat :| OpenedAt(id, s, actions, i, n, now.check.pid, now.check.bound);
      QuietMore(actions, i + 1, n);
      assert OpenedAt(id, s, actions, i, n + 1, now.check.pid, now.check.bound);
    } else if now.check.StatRead? && Alive(now, now.check.bound) {
      var i: nat, j: nat :| StatReadAt(id, s, actions, i, j, n, now.check.pid, now.check.bound);
      QuietMore(actions, j + 1, n);
      hide OpenedAt;
      assert StatReadAt(id, s, actions, i, j, n + 1, now.check.pid, now.check.bound);
    } else if now.check.TokenRead? && Alive(now, now.check.bound) {
      var i: nat, j: nat, k: nat :| TokenReadAt(id, s, actions, i, j, k, n, now.check.pid, now.check.bound);
      QuietMore(actions, k + 1, n);
      hide StatReadAt;
      assert TokenReadAt(id, s, actions, i, j, k, n + 1, now.check.pid, now.check.bound);
    }
  }

  /** A live bound instance is still what its pid names. */
  lemma BoundIsNamed(s: State)
    requires Invariant(s) && !s.check.Idle? && Alive(s, s.check.bound)
    ensures s.check.pid in s.processes && s.processes[s.check.pid].instance == s.check.bound
  {
  }

  lemma AgentHistory(id: Identity, s: State, actions: seq<Action>, n: nat)
    requires n < |actions| && Before(id, s, actions, n + 1).Some? && Before(id, s, actions, n).Some?
    requires Invariant(Before(id, s, actions, n).value) && CheckHistory(id, s, actions, n) && !IsSystem(actions[n])
    ensures CheckHistory(id, s, actions, n + 1)
  {
    var now, a := Before(id, s, actions, n).value, actions[n];
    RunPrefix(id, s, actions, n);
    var next := Do(id, now, a).value;
    assert next.processes == now.processes;
    assert !now.check.Idle? ==> Alive(next, now.check.bound) == Alive(now, now.check.bound);
    if !now.check.Idle? && Alive(now, now.check.bound) {
      BoundIsNamed(now);
    }
    hide Run, Alive, StatMatches, TokenMatches, Invariant;
    match a {
      case Open(pid) => assert OpenedAt(id, s, actions, n, n + 1, pid, now.processes[pid].instance);
      case ReadStat =>
        if next.check.StatRead? && Alive(now, now.check.bound) {
          var i: nat :| OpenedAt(id, s, actions, i, n, now.check.pid, now.check.bound);
          assert StatReadAt(id, s, actions, i, n, n + 1, now.check.pid, now.check.bound);
        }
      case ReadToken =>
        if next.check.TokenRead? && Alive(now, now.check.bound) {
          var i: nat, j: nat :| StatReadAt(id, s, actions, i, j, n, now.check.pid, now.check.bound);
          assert TokenReadAt(id, s, actions, i, j, n, n + 1, now.check.pid, now.check.bound);
        }
      case _ =>
    }
  }

  lemma {:induction false} HistoryHolds(id: Identity, s: State, actions: seq<Action>, n: nat)
    requires Init(s) && n <= |actions| && Before(id, s, actions, n).Some?
    ensures CheckHistory(id, s, actions, n)
  {
    if n == 0 {
      assert actions[..0] == [];
    } else {
      hide Do, Invariant, CheckHistory;
      RunPrefix(id, s, actions, n - 1);
      HistoryHolds(id, s, actions, n - 1);
      InvariantHolds(id, s, actions[..n - 1]);
      if IsSystem(actions[n - 1]) {
        SystemHistory(id, s, actions, n - 1);
      } else {
        AgentHistory(id, s, actions, n - 1);
      }
    }
  }

  /** Only if: whatever is signalled was opened, matched both halves and was alive at a send. */
  lemma {:induction false} SignalledWasSent(id: Identity, s: State, actions: seq<Action>, m: nat, instance: nat)
    requires Init(s) && m <= |actions| && Before(id, s, actions, m).Some?
    requires instance in Before(id, s, actions, m).value.signalled
    ensures exists i, j, k, n, pid :: SentAt(id, s, actions, i, j, k, n, pid, instance)
  {
    assert actions[..0] == [];
    if m > 0 {
      RunPrefix(id, s, actions, m - 1);
      var before := Before(id, s, actions, m - 1).value;
      if instance in before.signalled {
        SignalledWasSent(id, s, actions, m - 1, instance);
      } else {
        var pid := before.check.pid;
        assert actions[m - 1] == Send && before.check == TokenRead(pid, instance) && Alive(before, instance);
        HistoryHolds(id, s, actions, m - 1);
        hide Run, Do, Alive, Init;
        var i: nat, j: nat, k: nat :| TokenReadAt(id, s, actions, i, j, k, m - 1, pid, instance);
        assert SentAt(id, s, actions, i, j, k, m - 1, pid, instance);
      }
    }
  }

  /** In every run, with pids reused and processes changing at any point: an instance is signalled if and
      only if it had a pid when that was opened, was what the pid named and matched at both reads that
      followed, and is alive when the signal is sent. */
  lemma SignalledExactlyWhenMatched(id: Identity, s: State, actions: seq<Action>, instance: nat)
    requires Init(s) && Run(id, s, actions).Some?
    ensures instance in Run(id, s, actions).value.signalled
            <==> exists i, j, k, n, pid :: SentAt(id, s, actions, i, j, k, n, pid, instance)
  {
    assert actions[..|actions|] == actions;
    hide Do, Run, Init, SentAt;
    if instance in Run(id, s, actions).value.signalled {
      SignalledWasSent(id, s, actions, |actions|, instance);
    }
    if i, j, k, n, pid :| SentAt(id, s, actions, i, j, k, n, pid, instance) {
      SentIsSignalled(id, s, actions, i, j, k, n, pid, instance);
    }
  }

  lemma RunMore(id: Identity, s: State, actions: seq<Action>, last: Action)
    requires Run(id, s, actions).Some?
    ensures Run(id, s, actions + [last]) == Do(id, Run(id, s, actions).value, last)
  {
    hide Do;
    assert (actions + [last])[..|actions|] == actions;
  }

  lemma {:induction false} BootStays(id: Identity, s: State, actions: seq<Action>)
    requires Run(id, s, actions).Some?
    ensures Run(id, s, actions).value.boot == s.boot
  {
    if actions != [] {
      BootStays(id, s, actions[..|actions| - 1]);
    }
  }

  /** After a reboot, or with an identity that is not whole, nothing is signalled whatever has the pids. */
  lemma OnlyCurrentIdentitiesSignal(id: Identity, s: State, actions: seq<Action>)
    requires Init(s) && Run(id, s, actions).Some? && Run(id, s, actions).value.signalled != {}
    ensures Current(id, s.boot)
  {
    var instance :| instance in Run(id, s, actions).value.signalled;
    SignalledExactlyWhenMatched(id, s, actions, instance);
    var i: nat, j: nat, k: nat, n: nat, pid: nat :| SentAt(id, s, actions, i, j, k, n, pid, instance);
    RunsBefore(id, s, actions, i + 1);
    RunPrefix(id, s, actions, i);
    BootStays(id, s, actions[..i]);
    hide Run, Init;
  }

  /** And the four steps can always be taken: a live process that matches is signalled by them. */
  lemma OrphanIsSignalled(id: Identity, s: State, actions: seq<Action>, pid: nat)
    requires Init(s) && Run(id, s, actions).Some? && Run(id, s, actions).value.check.Idle? && Current(id, s.boot)
    requires var processes := Run(id, s, actions).value.processes;
             pid in processes && StatMatches(id, pid, processes[pid]) && TokenMatches(id, processes[pid])
    ensures var now := Run(id, s, actions).value;
            var after := Run(id, s, actions + [Open(pid)] + [ReadStat] + [ReadToken] + [Send]);
            after.Some? && after.value.signalled == now.signalled + {now.processes[pid].instance}
            && after.value.processes == now.processes
  {
    BootStays(id, s, actions);
    RunMore(id, s, actions, Open(pid));
    RunMore(id, s, actions + [Open(pid)], ReadStat);
    RunMore(id, s, actions + [Open(pid)] + [ReadStat], ReadToken);
    RunMore(id, s, actions + [Open(pid)] + [ReadStat] + [ReadToken], Send);
    hide Run, StatMatches, TokenMatches;
  }
}
