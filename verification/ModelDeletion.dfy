/** Deleting a model: handlers of several tasks, their crashes and re-entries, and inventory scans, over
    one database row and the model's files. Every database transaction is one atomic step. */
module ModelDeletion {
  import opened Basics

  datatype Status = Available | Unavailable | Deleting | DeleteFailed | Other(name: string)

  /** The row, with its two deletion entries of `metadata_json`. */
  datatype Row = Row(status: Status, taskId: Option<string>, original: Option<Status>)

  function Normalized(s: Status): Status {
    if s == Available || s == Unavailable then s else Available
  }

  function OriginalOf(r: Row): Status {
    if r.original.Some? then r.original.value else Available
  }

  predicate InDeletion(r: Row) {
    r.status == Deleting || r.status == DeleteFailed
  }

  // ----- the transactions -----

  datatype Claim =
    | NotFound
    | OwnedByAnother
    | InUse
    | Claimed(reentry: bool, missingCanReconcile: bool)

  function ClaimAnswer(row: Option<Row>, task: string, referenced: bool): Claim {
    if row.None? then NotFound
    else
      var r := row.value;
      var reentry := r.status == Deleting;
      if reentry && r.taskId != Some(task) then OwnedByAnother
      else if referenced then InUse
      else
        var original := if InDeletion(r) then OriginalOf(r) else r.status;
        Claimed(reentry, reentry || r.status == DeleteFailed || original == Unavailable)
  }

  /** The row after the claim. A re-entry that finds the model in use gives the row back at once. */
  function ClaimRow(row: Option<Row>, task: string, referenced: bool): Option<Row> {
    match ClaimAnswer(row, task, referenced)
    case NotFound => None
    case OwnedByAnother => row
    case InUse =>
      if row.value.status == Deleting then Some(Row(Normalized(OriginalOf(row.value)), None, None)) else row
    case Claimed(reentry, _) =>
      var r := row.value;
      if reentry then row
      else
        var original := if r.status == DeleteFailed then OriginalOf(r) else r.status;
        Some(Row(Deleting, Some(task), Some(Normalized(original))))
  }

  function RestoreRow(row: Option<Row>, task: string): Option<Row> {
    if row.None? || row.value.taskId != Some(task) then row
    else Some(Row(Normalized(OriginalOf(row.value)), None, None))
  }

  function FailRow(row: Option<Row>): Option<Row> {
    if row.None? then None else Some(row.value.(status := DeleteFailed))
  }

  /** What a scan makes of the row: found completely, found incomplete, or not found under a scanned root. */
  datatype Found = Complete | Partial | Missing | RootUnreadable

  function ScanRow(row: Option<Row>, found: Found): Option<Row> {
    if row.None? then None
    else
      var r := row.value;
      match found
      case Complete => if InDeletion(r) then row else Some(r.(status := Available))
      case Partial => if InDeletion(r) then row else Some(Row(Unavailable, None, None))
      case Missing => if r.status == Available then Some(Row(Unavailable, None, None)) else row
      case RootUnreadable => row
  }

  /** The row as the service changes it. */
  class ModelStore {
    var row: Option<Row>

    constructor (row: Option<Row>)
      ensures this.row == row
    {
      this.row := row;
    }

    /** The first transaction of `delete_handler`. */
    method ClaimDeletion(task: string, referenced: bool) returns (answer: Claim)
      modifies this
      ensures answer == ClaimAnswer(old(row), task, referenced) && row == ClaimRow(old(row), task, referenced)
    {
      if row.None? {
        return NotFound;
      }
      var model := row.value;
      var original := model.status;
      var reentry := model.status == Deleting;
      var failedRetry := model.status == DeleteFailed;
      if model.status == Deleting {
        if model.taskId != Some(task) {
          return OwnedByAnother;
        }
        original := if model.original.Some? then model.original.value else Available;
      }
      if referenced {
        if reentry {
          if original != Available && original != Unavailable {
            original := Available;
          }
          row := Some(Row(original, None, None));
        }
        return InUse;
      }
      if !reentry {
        if model.status == DeleteFailed {
          original := if model.original.Some? then model.original.value else Available;
        }
        var kept := original;
        if kept != Available && kept != Unavailable {
          kept := Available;
        }
        model := model.(taskId := Some(task), original := Some(kept));
        original := kept;
      }
      row := Some(model.(status := Deleting));
      answer := Claimed(reentry, original == Unavailable || reentry || failedRetry);
    }

    /** `_restore_delete_state`. */
    method RestoreDeleteState(task: string)
      modifies this
      ensures row == RestoreRow(old(row), task)
    {
      if row.None? || row.value.taskId != Some(task) {
        return;
      }
      var original := if row.value.original.Some? then row.value.original.value else Available;
      if original != Available && original != Unavailable {
        original := Available;
      }
      row := Some(Row(original, None, None));
    }

    /** `_mark_delete_failed`, whoever owns the deletion. */
    method MarkDeleteFailed()
      modifies this
      ensures row == FailRow(old(row))
    {
      if row.Some? {
        row := Some(row.value.(status := DeleteFailed));
      }
    }

    /** `_remove_database_record`. */
    method RemoveDatabaseRecord()
      modifies this
      ensures row == None
    {
      row := None;
    }

    /** What `scan_models` does to this row: the lifecycle status and metadata are put back afterwards. */
    method Scan(found: Found)
      modifies this
      ensures row == ScanRow(old(row), found)
    {
      if row.None? {
        return;
      }
      var existing := row.value;
      match found {
        case Complete =>
          if existing.status != Deleting && existing.status != DeleteFailed {
            existing := existing.(status := Available);
          }
        case Partial =>
          var lifecycle := existing.status == Deleting || existing.status == DeleteFailed;
          var kept := existing;
          existing := Row(Unavailable, None, None);
          if lifecycle {
            existing := kept;
          }
        case Missing =>
          if existing.status == Available {
            existing := Row(Unavailable, None, None);
          }
        case RootUnreadable =>
      }
      row := Some(existing);
    }
  }

  // ----- the handlers and everything else as steps -----

  /** Where a handler is after its claim. */
  datatype Phase =
    | Checking(reentry: bool, missingCanReconcile: bool)
    | Ready
    | Destroying
    | Gone(destructive: bool, reappeared: bool)
    | Raised(destructive: bool, cancelled: bool)
    | Restoring
    | Failing

  /** The row, whether the files are there, the running handlers by task, and (for the proofs) the
      normalized status the row had when the present series of attempts began. */
  datatype World = World(row: Option<Row>, present: bool, handlers: map<string, Phase>, first: Status)

  datatype Action =
    | Start(task: string, referenced: bool)
    | FindAbsent(task: string, cancelled: bool)
    | FindPresent(task: string)
    | Destroy(task: string, cancelled: bool)
    | DeleteFiles(task: string, all: bool)
    | CheckGone(task: string)
    | Raise(task: string, cancelled: bool)
    | Handle(task: string)
    | RemoveRecord(task: string)
    | RemoveFails(task: string)
    | Restore(task: string)
    | MarkFailed(task: string)
    | Crash(task: string)
    | Scan(found: Found)
    | FilesAppear
    | FilesVanish

  predicate ByTask(a: Action) {
    !a.Scan? && !a.FilesAppear? && !a.FilesVanish?
  }

  function To(w: World, task: string, p: Phase): World {
    w.(handlers := w.handlers[task := p])
  }

  function Ended(w: World, task: string): World {
    w.(handlers := w.handlers - {task})
  }

  /** One step; a step that is not enabled changes nothing. */
  function Do(w: World, a: Action): World {
    if a.Start? then
      if a.task == "" || a.task in w.handlers then w
      else
        var answer := ClaimAnswer(w.row, a.task, a.referenced);
        var claimed := w.(row := ClaimRow(w.row, a.task, a.referenced),
                          first := if answer.Claimed? && !InDeletion(w.row.value) then Normalized(w.row.value.status)
                                   else w.first);
        if answer.Claimed? then To(claimed, a.task, Checking(answer.reentry, answer.missingCanReconcile)) else claimed
    else if ByTask(a) then
      if a.task in w.handlers then Handler(w, a, w.handlers[a.task]) else w
    else
      match a
      case Scan(found) => if (found == Complete || found == Partial) && !w.present then w else w.(row := ScanRow(w.row, found))
      case FilesAppear => w.(present := true, handlers := map t | t in w.handlers :: Since(w.handlers[t], true))
      case FilesVanish => w.(present := false, handlers := map t | t in w.handlers :: Since(w.handlers[t], false))
  }

  /** Whether the files are back since a handler saw them gone. */
  function Since(p: Phase, back: bool): Phase {
    if p.Gone? then p.(reappeared := back) else p
  }

  function Handler(w: World, a: Action, p: Phase): World
    requires ByTask(a) && !a.Start?
  {
    match a
    case FindAbsent(t, cancelled) =>
      if p.Checking? && p.missingCanReconcile && !w.present
      then To(w, t, if cancelled && !p.reentry then Raised(false, true) else Gone(false, false)) else w
    case FindPresent(t) =>
      if p.Checking? && (w.present || !p.missingCanReconcile) then To(w, t, Ready) else w
    case Destroy(t, cancelled) =>
      if p.Ready? then To(w, t, if cancelled then Raised(false, true) else Destroying) else w
    case DeleteFiles(t, all) =>
      if p.Destroying? then w.(present := w.present && !all) else w
    case CheckGone(t) =>
      if p.Destroying? then To(w, t, if w.present then Raised(true, false) else Gone(true, false)) else w
    case Raise(t, cancelled) =>
      if p.Checking? || p.Ready? then To(w, t, Raised(false, cancelled))
      else if p.Destroying? then To(w, t, Raised(true, cancelled))
      else w
    case Handle(t) =>
      if p.Raised? then
        To(w, t, if p.cancelled && !p.destructive then Restoring
                 else if p.destructive && !w.present then Gone(true, false)
                 else Failing)
      else w
    case RemoveRecord(t) => if p.Gone? then Ended(w.(row := None), t) else w
    case RemoveFails(t) => if p.Gone? then To(w, t, Raised(p.destructive, false)) else w
    case Restore(t) => if p.Restoring? then Ended(w.(row := RestoreRow(w.row, t)), t) else w
    case MarkFailed(t) => if p.Failing? then Ended(w.(row := FailRow(w.row)), t) else w
    case Crash(t) => Ended(w, t)
    case Start(_, _) => w
  }

  function Run(w: World, actions: seq<Action>): World
    decreases |actions|
  {
    if actions == [] then w else Run(Do(w, actions[0]), actions[1..])
  }

  // ----- what every run keeps -----

  /** Every running handler owns the row, which is being deleted; a handler that has seen the files gone
      is right exactly as long as they were not put back. */
  predicate HandlerOk(w: World, t: string)
    requires t in w.handlers
  {
    && w.row.Some? && w.row.value.status == Deleting && w.row.value.taskId == Some(t)
    && (w.handlers[t].Gone? ==> (w.handlers[t].reappeared <==> w.present))
  }

  ghost predicate Invariant(w: World) {
    && (forall t | t in w.handlers :: HandlerOk(w, t))
    && (w.row.Some? && InDeletion(w.row.value) ==>
          w.row.value.original == Some(w.first) && (w.first == Available || w.first == Unavailable))
  }

  lemma StartKeeps(w: World, a: Action)
    requires Invariant(w) && a.Start?
    ensures Invariant(Do(w, a))
  {
    if a.task != "" && a.task !in w.handlers && ClaimRow(w.row, a.task, a.referenced) != w.row {
      NoHandlerBeside(w, a.task, a.referenced);
    }
  }

  /** A claim that changes the row finds no handler running. */
  lemma NoHandlerBeside(w: World, task: string, referenced: bool)
    requires Invariant(w) && task !in w.handlers && ClaimRow(w.row, task, referenced) != w.row
    ensures w.handlers == map[]
  {
    assert forall t | t in w.handlers :: HandlerOk(w, t) && t != task;
  }

  lemma HandlerKeeps(w: World, a: Action)
    requires Invariant(w) && ByTask(a) && !a.Start?
    ensures Invariant(Do(w, a))
  {
    if a.task in w.handlers {
      OneHandler(w, a.task);
    }
  }

  /** At most one handler runs. */
  lemma OneHandler(w: World, t: string)
    requires Invariant(w) && t in w.handlers
    ensures forall u | u in w.handlers :: u == t
  {
    assert HandlerOk(w, t);
    assert forall u | u in w.handlers :: HandlerOk(w, u);
  }

  lemma EnvironmentKeeps(w: World, a: Action)
    requires Invariant(w) && !ByTask(a)
    ensures Invariant(Do(w, a))
  {
    var w' := Do(w, a);
    forall t | t in w'.handlers ensures HandlerOk(w', t) {
      assert HandlerOk(w, t);
    }
  }

  lemma StepKeeps(w: World, a: Action)
    requires Invariant(w)
    ensures Invariant(Do(w, a))
  {
    if a.Start? {
      StartKeeps(w, a);
    } else if ByTask(a) {
      HandlerKeeps(w, a);
    } else {
      EnvironmentKeeps(w, a);
    }
  }

  lemma {:induction false} RunKeeps(w: World, actions: seq<Action>)
    requires Invariant(w)
    ensures Invariant(Run(w, actions))
    decreases |actions|
  {
    if actions != [] {
      StepKeeps(w, actions[0]);
      RunKeeps(Do(w, actions[0]), actions[1..]);
    }
  }

  /** A world in which no deletion has begun. */
  predicate Fresh(w: World) {
    w.handlers == map[] && (w.row.Some? ==> !InDeletion(w.row.value))
  }

  // ----- the results -----

  /** In every run, the row disappears only when its owner removes it after having seen the files gone,
      and then the files are there exactly if somebody has put them back in between. */
  lemma RemovedOnlyWhenAbsent(w: World, actions: seq<Action>, a: Action)
    requires Fresh(w)
    requires var now := Run(w, actions); now.row.Some? && Do(now, a).row.None?
    ensures var now := Run(w, actions);
            && a.RemoveRecord? && a.task in now.handlers && now.handlers[a.task].Gone?
            && now.row.value.taskId == Some(a.task)
            && (now.present <==> now.handlers[a.task].reappeared)
  {
    RunKeeps(w, actions);
    var now := Run(w, actions);
    if ByTask(a) && a.task in now.handlers {
      assert HandlerOk(now, a.task);
    }
  }

  /** That exception is real: when the files come back between the last look and the removal, the row
      goes although they are there. Whoever has seen them gone, putting them back suffices. */
  lemma RemovedAlthoughBack(w: World, actions: seq<Action>, task: string)
    requires Fresh(w)
    requires var now := Run(w, actions); task in now.handlers && now.handlers[task].Gone?
    ensures var now := Do(Run(w, actions), FilesAppear);
            var end := Do(now, RemoveRecord(task));
            now.row.Some? && now.present && end.row.None? && end.present
  {
    RunKeeps(w, actions);
    assert HandlerOk(Run(w, actions), task);
  }

  predicate NothingAppears(actions: seq<Action>) {
    forall i | 0 <= i < |actions| :: !actions[i].FilesAppear?
  }

  predicate NoneReappeared(w: World) {
    forall t | t in w.handlers :: w.handlers[t].Gone? ==> !w.handlers[t].reappeared
  }

  lemma {:induction false} NothingReappears(w: World, actions: seq<Action>)
    requires NoneReappeared(w) && NothingAppears(actions)
    ensures NoneReappeared(Run(w, actions))
    decreases |actions|
  {
    if actions != [] {
      assert NoneReappeared(Do(w, actions[0]));
      NothingReappears(Do(w, actions[0]), actions[1..]);
    }
  }

  /** If nobody puts the files back, the row is never removed while they are there. */
  lemma NeverRemovedWithFiles(w: World, actions: seq<Action>, a: Action)
    requires Fresh(w) && NothingAppears(actions)
    requires var now := Run(w, actions); now.row.Some? && Do(now, a).row.None?
    ensures !Run(w, actions).present
  {
    RemovedOnlyWhenAbsent(w, actions, a);
    NothingReappears(w, actions);
  }

  predicate NotBy(actions: seq<Action>, task: string) {
    forall i | 0 <= i < |actions| :: ByTask(actions[i]) ==> actions[i].task != task
  }

  lemma OthersCannotTouch(w: World, a: Action, owner: string)
    requires Invariant(w) && w.row.Some? && w.row.value.status == Deleting && w.row.value.taskId == Some(owner)
    requires ByTask(a) ==> a.task != owner
    ensures Do(w, a).row == w.row
    ensures ByTask(a) ==> Do(w, a).present == w.present
  {
    HandlersAreTheOwners(w, owner);
  }

  lemma HandlersAreTheOwners(w: World, owner: string)
    requires Invariant(w) && w.row.Some? && w.row.value.taskId == Some(owner)
    ensures forall t | t in w.handlers :: t == owner
  {
    forall t | t in w.handlers ensures t == owner {
      assert HandlerOk(w, t);
    }
  }

  /** While the row says "deleting", only the task it names can change it or touch the files: whatever
      the others and the scans do, the row stays exactly as it is. After a crash that task alone can
      take the deletion up again. */
  lemma {:induction false} OnlyTheOwnerProceeds(w: World, actions: seq<Action>, owner: string)
    requires Invariant(w) && w.row.Some? && w.row.value.status == Deleting && w.row.value.taskId == Some(owner)
    requires NotBy(actions, owner)
    ensures Run(w, actions).row == w.row
    decreases |actions|
  {
    if actions != [] {
      OthersCannotTouch(w, actions[0], owner);
      StepKeeps(w, actions[0]);
      OnlyTheOwnerProceeds(Do(w, actions[0]), actions[1..], owner);
    }
  }

  /** A crashed owner's re-entry is always admitted, to the phase after the claim. */
  lemma OwnerReenters(w: World, owner: string)
    requires Invariant(w) && w.row.Some? && w.row.value.status == Deleting && w.row.value.taskId == Some(owner)
    requires owner != "" && owner !in w.handlers
    ensures var after := Do(w, Start(owner, false));
            after.row == w.row && owner in after.handlers && after.handlers[owner] == Checking(true, true)
  {
  }

  /** The row stays in deletion, claimed or failed, along a run. */
  predicate StaysInDeletion(w: World, actions: seq<Action>)
    decreases |actions|
  {
    && w.row.Some? && InDeletion(w.row.value)
    && (actions == [] || StaysInDeletion(Do(w, actions[0]), actions[1..]))
  }

  lemma {:induction false} FirstStays(w: World, actions: seq<Action>)
    requires Invariant(w) && StaysInDeletion(w, actions)
    ensures Run(w, actions).first == w.first
    ensures var end := Run(w, actions);
            end.row.Some? && InDeletion(end.row.value) && end.row.value.original == Some(w.first)
    decreases |actions|
  {
    if actions != [] {
      StepKeeps(w, actions[0]);
      assert Do(w, actions[0]).first == w.first;
      FirstStays(Do(w, actions[0]), actions[1..]);
    }
  }

  /** Through every retry, crash, re-entry and scan of one series of attempts the row remembers the
      normalized status it had before the first one. */
  lemma OriginalStatusIsKept(w: World, task: string, actions: seq<Action>)
    requires Invariant(w) && w.row.Some? && !InDeletion(w.row.value)
    requires StaysInDeletion(Do(w, Start(task, false)), actions)
    ensures var end := Run(Do(w, Start(task, false)), actions);
            end.row.Some? && end.row.value.original == Some(Normalized(w.row.value.status))
  {
    StepKeeps(w, Start(task, false));
    FirstStays(Do(w, Start(task, false)), actions);
  }

  lemma LeavingDeletion(w: World, a: Action)
    requires Invariant(w) && w.row.Some? && InDeletion(w.row.value)
    requires Do(w, a).row.Some? && !InDeletion(Do(w, a).row.value)
    ensures Do(w, a).row == Some(Row(w.first, None, None))
    ensures a.Restore? || a.Start?
  {
    if ByTask(a) && a.task in w.handlers {
      assert HandlerOk(w, a.task);
    }
  }

  /** When a deletion is given up, after however many attempts, the row gets back exactly that status. */
  lemma GivenUpRestoresOriginal(w: World, task: string, actions: seq<Action>, a: Action)
    requires Invariant(w) && w.row.Some? && !InDeletion(w.row.value)
    requires StaysInDeletion(Do(w, Start(task, false)), actions)
    requires var end := Do(Run(Do(w, Start(task, false)), actions), a); end.row.Some? && !InDeletion(end.row.value)
    ensures Do(Run(Do(w, Start(task, false)), actions), a).row == Some(Row(Normalized(w.row.value.status), None, None))
  {
    OriginalStatusIsKept(w, task, actions);
    StepKeeps(w, Start(task, false));
    RunKeeps(Do(w, Start(task, false)), actions);
    FirstStays(Do(w, Start(task, false)), actions);
    LeavingDeletion(Run(Do(w, Start(task, false)), actions), a);
  }

  // ----- what an attempt and a scan come to -----

  /** The status before the present attempts, normalised. */
  function StatusBefore(r: Row): Status {
    if r.status == DeleteFailed then Normalized(OriginalOf(r)) else Normalized(r.status)
  }

  lemma RunOne(w: World, a: Action, rest: seq<Action>)
    ensures Run(w, [a] + rest) == Run(Do(w, a), rest)
  {
    assert ([a] + rest)[1..] == rest;
  }

  /** Up to the point where the files are about to be removed. */
  lemma AttemptBegins(w: World, task: string)
    requires w.row.Some? && w.row.value.status != Deleting && task != "" && task !in w.handlers && w.present
    ensures var ready := Do(Do(w, Start(task, false)), FindPresent(task));
            && task in ready.handlers && ready.handlers[task] == Ready && ready.present
            && ready.handlers - {task} == w.handlers
            && ready.row == Some(Row(Deleting, Some(task), Some(StatusBefore(w.row.value))))
  {
    var ready := Do(Do(w, Start(task, false)), FindPresent(task));
    assert ready.handlers == w.handlers[task := Ready];
  }

  /** An attempt on a model that is there and not in use: cancelled before anything is removed, it gives
      back the status from before; when all files go, so does the row; when some stay, the row stays, as
      failed, with owner and status from before. */
  lemma AttemptEnds(w: World, task: string)
    requires w.row.Some? && w.row.value.status != Deleting && task != "" && task !in w.handlers && w.present
    ensures var start, before := [Start(task, false), FindPresent(task)], StatusBefore(w.row.value);
            var cancelled := Run(w, start + [Destroy(task, true), Handle(task), Restore(task)]);
            var removed := Run(w, start + [Destroy(task, false), DeleteFiles(task, true), CheckGone(task), RemoveRecord(task)]);
            var kept := Run(w, start + [Destroy(task, false), DeleteFiles(task, false), CheckGone(task), Handle(task),
                                        MarkFailed(task)]);
            && cancelled.row == Some(Row(before, None, None)) && cancelled.present && cancelled.handlers == w.handlers
            && removed.row == None && !removed.present && removed.handlers == w.handlers
            && kept.row == Some(Row(DeleteFailed, Some(task), Some(before))) && kept.present && kept.handlers == w.handlers
  {
    AttemptBegins(w, task);
    var ready := Do(Do(w, Start(task, false)), FindPresent(task));
    StartThen(w, task, [Destroy(task, true), Handle(task), Restore(task)]);
    StartThen(w, task, [Destroy(task, false), DeleteFiles(task, true), CheckGone(task), RemoveRecord(task)]);
    StartThen(w, task, [Destroy(task, false), DeleteFiles(task, false), CheckGone(task), Handle(task), MarkFailed(task)]);
    CancelledBack(ready, task);
    AllRemoved(ready, task);
    SomeKept(ready, task);
    hide Run, Do;
  }

  lemma StartThen(w: World, task: string, rest: seq<Action>)
    ensures Run(w, [Start(task, false), FindPresent(task)] + rest) == Run(Do(Do(w, Start(task, false)), FindPresent(task)), rest)
  {
    hide Do;
    assert [Start(task, false), FindPresent(task)] + rest == [Start(task, false)] + ([FindPresent(task)] + rest);
    RunOne(w, Start(task, false), [FindPresent(task)] + rest);
    RunOne(Do(w, Start(task, false)), FindPresent(task), rest);
  }

  lemma CancelledBack(w: World, task: string)
    requires task in w.handlers && w.handlers[task] == Ready && w.row.Some? && w.row.value.taskId == Some(task)
    ensures var after := Run(w, [Destroy(task, true), Handle(task), Restore(task)]);
            after.row == Some(Row(Normalized(OriginalOf(w.row.value)), None, None))
            && after.present == w.present && after.handlers == w.handlers - {task}
  {
    var a := Do(w, Destroy(task, true));
    var b := Do(a, Handle(task));
    RunThree(w, Destroy(task, true), Handle(task), Restore(task));
    assert b.handlers == w.handlers[task := Restoring];
  }

  lemma RunThree(w: World, a: Action, b: Action, c: Action)
    ensures Run(w, [a, b, c]) == Do(Do(Do(w, a), b), c)
  {
    hide Do;
    assert [a, b, c] == [a] + [b, c] && [b, c] == [b] + [c] && [c] == [c] + [];
    RunOne(w, a, [b, c]);
    RunOne(Do(w, a), b, [c]);
    RunOne(Do(Do(w, a), b), c, []);
  }

  lemma AllRemoved(w: World, task: string)
    requires task in w.handlers && w.handlers[task] == Ready
    ensures var removed := Run(w, [Destroy(task, false), DeleteFiles(task, true), CheckGone(task), RemoveRecord(task)]);
            removed.row == None && !removed.present && removed.handlers == w.handlers - {task}
  {
    var a := Do(w, Destroy(task, false));
    var b := Do(a, DeleteFiles(task, true));
    assert [Destroy(task, false), DeleteFiles(task, true), CheckGone(task), RemoveRecord(task)]
        == [Destroy(task, false)] + [DeleteFiles(task, true), CheckGone(task), RemoveRecord(task)];
    RunOne(w, Destroy(task, false), [DeleteFiles(task, true), CheckGone(task), RemoveRecord(task)]);
    RunThree(a, DeleteFiles(task, true), CheckGone(task), RemoveRecord(task));
    assert Do(b, CheckGone(task)).handlers == w.handlers[task := Gone(true, false)];
    hide Run;
  }

  lemma SomeKept(w: World, task: string)
    requires task in w.handlers && w.handlers[task] == Ready && w.row.Some? && w.present
    ensures var kept := Run(w, [Destroy(task, false), DeleteFiles(task, false), CheckGone(task), Handle(task), MarkFailed(task)]);
            kept.row == Some(w.row.value.(status := DeleteFailed)) && kept.present && kept.handlers == w.handlers - {task}
  {
    var a := Do(w, Destroy(task, false));
    var c := Do(a, DeleteFiles(task, false));
    var rest := [CheckGone(task), Handle(task), MarkFailed(task)];
    assert [Destroy(task, false), DeleteFiles(task, false), CheckGone(task), Handle(task), MarkFailed(task)]
        == [Destroy(task, false)] + ([DeleteFiles(task, false)] + rest);
    RunOne(w, Destroy(task, false), [DeleteFiles(task, false)] + rest);
    RunOne(a, DeleteFiles(task, false), rest);
    RunThree(c, CheckGone(task), Handle(task), MarkFailed(task));
    var d := Do(c, CheckGone(task));
    assert c == w.(handlers := w.handlers[task := Destroying]);
    assert d == w.(handlers := w.handlers[task := Raised(true, false)]);
    assert Do(d, Handle(task)) == w.(handlers := w.handlers[task := Failing]);
    hide Run;
  }

  /** A scan of a readable root tells how the files are, for a row outside deletion: available exactly when
      they are complete, without deletion entries when they are not; and a second scan changes nothing. */
  lemma ScanTellsTheFiles(row: Option<Row>, found: Found)
    ensures row.Some? && !InDeletion(row.value) && found != RootUnreadable ==>
              && ScanRow(row, found).Some?
              && (ScanRow(row, found).value.status == Available <==> found == Complete)
              && (found == Complete ==> ScanRow(row, found).value == row.value.(status := Available))
              && (found == Partial || (found == Missing && row.value.status == Available) ==>
                    ScanRow(row, found) == Some(Row(Unavailable, None, None)))
              && (found == Missing && row.value.status != Available ==> ScanRow(row, found) == row)
    ensures row.None? || InDeletion(row.value) || found == RootUnreadable ==> ScanRow(row, found) == row
    ensures ScanRow(ScanRow(row, found), found) == ScanRow(row, found)
  {
  }

  /** A model that is in use is never claimed: no handler starts, and a deletion that was under way is given
      back by its own re-entry. */
  lemma InUseIsNeverClaimed(w: World, task: string)
    ensures var after := Do(w, Start(task, true));
            && after.handlers == w.handlers && after.present == w.present
            && (after.row == w.row
                || (w.row.Some? && w.row.value.status == Deleting && w.row.value.taskId == Some(task)
                    && after.row == Some(Row(Normalized(OriginalOf(w.row.value)), None, None))))
  {
  }

  /** A model whose files are gone: its row is removed at once exactly when they can have gone by a deletion
      or were missing before; otherwise the handler goes on as for a model that is there. */
  lemma AbsentModelEnds(w: World, task: string)
    requires w.row.Some? && task != "" && task !in w.handlers && !w.present
    requires w.row.value.status == Deleting ==> w.row.value.taskId == Some(task)
    ensures var after := Run(w, [Start(task, false), FindAbsent(task, false), RemoveRecord(task)]);
            var goneBefore := InDeletion(w.row.value) || w.row.value.status == Unavailable;
            && (after.row == None <==> goneBefore)
            && (goneBefore ==> after.handlers == w.handlers)
            && (!goneBefore ==> Do(after, FindPresent(task)).handlers == w.handlers[task := Ready])
  {
    RunThree(w, Start(task, false), FindAbsent(task, false), RemoveRecord(task));
    var a := Do(w, Start(task, false));
    var b := Do(a, FindAbsent(task, false));
    assert a.handlers - {task} == w.handlers && b.handlers - {task} == w.handlers;
    hide Run;
  }
}
