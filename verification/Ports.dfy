/** Host ports of deployments: the two-stage automatic choice, the checks on a requested port, and creates
    and deletes over time. */
module Ports {
  import opened Basics

  const FIRST_PORT: int := 8000

  function AtOrAbove(reserved: set<int>, from: int): set<int> {
    set p | p in reserved && from <= p
  }

  /** The lowest port from a given one upward that is not reserved. */
  function LowestFrom(reserved: set<int>, from: int): (port: int)
    ensures from <= port && port !in reserved
    decreases |AtOrAbove(reserved, from)|
  {
    if from in reserved then
      Shrinks(reserved, from);
      LowestFrom(reserved, from + 1)
    else from
  }

  lemma Shrinks(reserved: set<int>, from: int)
    requires from in reserved
    ensures |AtOrAbove(reserved, from + 1)| < |AtOrAbove(reserved, from)|
  {
    assert AtOrAbove(reserved, from) == AtOrAbove(reserved, from + 1) + {from};
  }

  function LowestFree(reserved: set<int>): int {
    LowestFrom(reserved, FIRST_PORT)
  }

  /** A free port below which every port from the first on is reserved. */
  predicate IsLowestFree(reserved: set<int>, port: int) {
    FIRST_PORT <= port && port !in reserved && forall q | FIRST_PORT <= q < port :: q in reserved
  }

  lemma {:induction false} LowestFromIsLowest(reserved: set<int>, from: int, q: int)
    requires from <= q < LowestFrom(reserved, from)
    ensures q in reserved
    decreases |AtOrAbove(reserved, from)|
  {
    if from in reserved && from < q {
      Shrinks(reserved, from);
      LowestFromIsLowest(reserved, from + 1, q);
    }
  }

  lemma LowestFreeIsLowest(reserved: set<int>)
    ensures IsLowestFree(reserved, LowestFree(reserved))
  {
    forall q | FIRST_PORT <= q < LowestFree(reserved) ensures q in reserved {
      LowestFromIsLowest(reserved, FIRST_PORT, q);
    }
  }

  lemma LowestIsUnique(reserved: set<int>, port: int)
    requires IsLowestFree(reserved, port)
    ensures port == LowestFree(reserved)
  {
    LowestFreeIsLowest(reserved);
  }

  /** The search loop of `_prepare_spec_port` and `_allocate_deployment_port`: it ends, at the lowest free port. */
  method SearchPort(reserved: set<int>) returns (port: int)
    ensures port == LowestFree(reserved)
  {
    port := FIRST_PORT;
    while port in reserved
      invariant LowestFrom(reserved, port) == LowestFree(reserved)
      decreases |AtOrAbove(reserved, port)|
    {
      Shrinks(reserved, port);
      port := port + 1;
    }
  }

  // ----- the two stages -----

  datatype Choice = Chosen(port: int) | InUse(port: int)

  /** `_prepare_spec_port`: by the database rows alone, for an automatic port and for a requested one. */
  function Prepared(request: Option<int>, db: set<int>): Choice {
    match request
    case None => Chosen(LowestFree(db))
    case Some(port) => if port in db then InUse(port) else Chosen(port)
  }

  /** The port part of `_preflight`: rows and containers together, read again for a second choice. */
  function Preflighted(auto: bool, port: int, db: set<int>, docker: set<int>, db': set<int>, docker': set<int>): Choice {
    if port !in db + docker then Chosen(port)
    else if !auto then InUse(port)
    else Chosen(LowestFree(db' + docker'))
  }

  method PrepareSpecPort(request: Option<int>, db: set<int>) returns (choice: Choice)
    ensures choice == Prepared(request, db)
  {
    if request.None? {
      var port := SearchPort(db);
      return Chosen(port);
    }
    if request.value in db {
      return InUse(request.value);
    }
    choice := Chosen(request.value);
  }

  method PreflightPort(auto: bool, port: int, db: set<int>, docker: set<int>, db': set<int>, docker': set<int>)
    returns (choice: Choice)
    ensures choice == Preflighted(auto, port, db, docker, db', docker')
  {
    if port in db + docker {
      if !auto {
        return InUse(port);
      }
      var again := SearchPort(db' + docker');
      return Chosen(again);
    }
    choice := Chosen(port);
  }

  /** While rows and containers do not change between the reads, the two stages find the lowest port
      outside both sets, and reject a requested port exactly when it is in one of them. */
  lemma TwoStagesFindTheLowest(request: Option<int>, db: set<int>, docker: set<int>)
    ensures var first := Prepared(request, db);
            var final := if first.InUse? then first
                         else Preflighted(request.None?, first.port, db, docker, db, docker);
            && (request.None? ==> final.Chosen? && IsLowestFree(db + docker, final.port))
            && (request.Some? ==> final == if request.value in db + docker then InUse(request.value)
                                           else Chosen(request.value))
  {
    LowestFreeIsLowest(db);
    LowestFreeIsLowest(db + docker);
  }

  /** With reads that differ, the automatic port is still the lowest outside one of the two unions: the
      one the check read, or the one the second search read. */
  lemma LowestOfOneReading(db: set<int>, docker: set<int>, db': set<int>, docker': set<int>)
    ensures var final := Preflighted(true, Prepared(None, db).port, db, docker, db', docker');
            final.Chosen? && (IsLowestFree(db + docker, final.port) || IsLowestFree(db' + docker', final.port))
  {
    LowestFreeIsLowest(db);
    LowestFreeIsLowest(db' + docker');
  }

  /** Deleting a deployment releases its port: the next automatic port is that one, if it is lower than
      the port that would have come next. */
  lemma DeletingReleasesPort(db: set<int>, docker: set<int>, port: int)
    requires port in db && port !in docker && FIRST_PORT <= port
    ensures var next := LowestFree(db + docker);
            LowestFree((db - {port}) + docker) == if port < next then port else next
  {
    LowestFreeIsLowest(db + docker);
    var next := LowestFree(db + docker);
    var after, lowest := (db - {port}) + docker, if port < next then port else next;
    forall q | FIRST_PORT <= q < lowest ensures q in after {
      assert q in db + docker;
    }
    LowestIsUnique(after, lowest);
  }

  // ----- creates and deletes -----

  /** A create holds the allocation lock from its first look at the rows until its row is committed. */
  datatype Creation = Idle | Preparing(name: string, auto: bool, port: int) | Starting(name: string, port: int)

  datatype World = World(rows: map<string, Option<int>>, creation: Creation)

  function RowPorts(rows: map<string, Option<int>>): set<int> {
    set n | n in rows && rows[n].Some? :: rows[n].value
  }

  datatype Action =
    | Prepare(name: string, request: Option<int>)
    | Preflight(docker: set<int>, rowsGone: set<string>, docker': set<int>)
    | Commit
    | Fail
    | Delete(name: string)

  /** One step. While the preflight runs, rows may be deleted between its two readings. */
  function Do(w: World, a: Action): World {
    match a
    case Prepare(name, request) =>
      if w.creation.Idle? && name !in w.rows then
        var choice := Prepared(request, RowPorts(w.rows));
        if choice.InUse? then w else w.(creation := Preparing(name, request.None?, choice.port))
      else w
    case Preflight(docker, gone, docker') =>
      if w.creation.Preparing? then
        var rows := w.rows - gone;
        var choice := Preflighted(w.creation.auto, w.creation.port, RowPorts(w.rows), docker, RowPorts(rows), docker');
        World(rows, if choice.InUse? then Idle else Starting(w.creation.name, choice.port))
      else w
    case Commit =>
      if w.creation.Starting? then World(w.rows[w.creation.name := Some(w.creation.port)], Idle) else w
    case Fail => w.(creation := Idle)
    case Delete(name) => w.(rows := w.rows - {name})
  }

  function Run(w: World, actions: seq<Action>): World
    decreases |actions|
  {
    if actions == [] then w else Run(Do(w, actions[0]), actions[1..])
  }

  predicate Distinct(rows: map<string, Option<int>>) {
    forall m, n | m in rows && n in rows && rows[m].Some? && rows[m] == rows[n] :: m == n
  }

  /** Row ports are distinct, and no row has the port or the name of the creation under way. */
  predicate Invariant(w: World) {
    && Distinct(w.rows)
    && (!w.creation.Idle? ==> w.creation.name !in w.rows && w.creation.port !in RowPorts(w.rows))
  }

  lemma StepKeeps(w: World, a: Action)
    requires Invariant(w)
    ensures Invariant(Do(w, a))
  {
    match a {
      case Prepare(name, request) =>
      case Preflight(docker, gone, docker') =>
        assert RowPorts(w.rows - gone) <= RowPorts(w.rows);
      case Commit =>
        if w.creation.Starting? {
          CommitKeeps(w.rows, w.creation.name, w.creation.port);
        }
      case Fail =>
      case Delete(name) =>
        assert RowPorts(w.rows - {name}) <= RowPorts(w.rows);
    }
  }

  lemma CommitKeeps(rows: map<string, Option<int>>, name: string, port: int)
    requires Distinct(rows) && port !in RowPorts(rows)
    ensures Distinct(rows[name := Some(port)])
  {
    forall n | n in rows && rows[n].Some? ensures rows[n].value in RowPorts(rows) {
    }
  }

  /** Whatever the containers reserve and whenever rows are deleted, creates and deletes never give two
      deployments the same port, not even with a creation under way. */
  lemma {:induction false} PortsStayDistinct(w: World, actions: seq<Action>)
    requires Invariant(w)
    ensures var end := Run(w, actions);
            && (forall m, n | m in end.rows && n in end.rows && end.rows[m].Some? && m != n :: end.rows[m] != end.rows[n])
            && (!end.creation.Idle? ==> end.creation.port !in RowPorts(end.rows))
    decreases |actions|
  {
    if actions != [] {
      StepKeeps(w, actions[0]);
      PortsStayDistinct(Do(w, actions[0]), actions[1..]);
    }
  }
}
