/**
 Safety of admission over every interleaving: capacity, one active job per
 tenant and per workspace, and exclusion of jobs by a granted workspace guard.
 */
module Admission {
  import opened Wrappers
  import opened JobTable
  import opened SandboxProtocol

  ghost predicate Unique(rows: Rows) {
    forall i, j | i in rows && j in rows && i != j && rows[i].Active() && rows[j].Active() ::
      rows[i].request.tenant != rows[j].request.tenant && rows[i].request.workspace != rows[j].request.workspace
  }

  ghost predicate WithinCapacity(c: Config, rows: Rows) {
    |ActiveIds(rows)| == 0 || |ActiveIds(rows)| <= c.concurrency
  }

  ghost predicate Holds(locks: map<int, Holder>, key: int, h: Holder) {
    key in locks && locks[key] == h
  }

  // What tool thread `p` knows at its point of the `create` transaction.
  ghost predicate ToolInv(c: Config, s: State, p: nat)
    requires p in s.tools
  {
    var tool := s.tools[p];
    && (tool.phase.InTransaction() ==> Holds(s.locks, c.admissionKey, ToolTx(p)))
    && (tool.phase.HoldsWorkspace() ==> Holds(s.locks, c.key(tool.request.workspace), ToolTx(p)))
    && (tool.phase.Counted? || tool.phase.Inserted? ==> |ActiveIds(s.table.rows)| < c.concurrency)
    && (tool.phase.Inserted? ==> tool.phase.id !in s.table.used && !Conflicts(s.table.rows, tool.request))
  }

  ghost predicate GuardHeld(guard: Guard) {
    if guard.phase.Tried? then guard.phase.locked else guard.phase.granted
  }

  ghost predicate GuardInv(c: Config, s: State, g: nat)
    requires g in s.guards
  {
    var guard := s.guards[g];
    && (GuardHeld(guard) ==> Holds(s.locks, c.key(guard.workspace), GuardTx(g)))
    && (guard.phase.Open? && guard.phase.granted ==> !WorkspaceActive(s.table.rows, guard.workspace))
  }

  ghost predicate AdmissionInv(c: Config, s: State) {
    && TableInv(s.table)
    && Unique(s.table.rows)
    && WithinCapacity(c, s.table.rows)
    && (forall p | p in s.tools :: ToolInv(c, s, p))
    && (forall g | g in s.guards :: GuardInv(c, s, g))
  }

  // Statements other than an insertion: no row is new or becomes active, and none changes its request.
  ghost predicate Quiet(t: Table, t': Table) {
    && t'.used == t.used
    && t'.rows.Keys <= t.rows.Keys
    && (forall id | id in t'.rows :: t'.rows[id].request == t.rows[id].request)
    && (forall id | id in t'.rows && t'.rows[id].Active() :: t.rows[id].Active())
  }

  lemma StatementIsQuiet(t: Table, statement: JobStep)
    requires TableInv(t) && !statement.Insert?
    ensures TableInv(JobTable.Apply(t, statement)) && Quiet(t, JobTable.Apply(t, statement))
  {
    StepEvolves(t, statement);
    KeysAfter(t, statement);
  }

  lemma QuietRows(c: Config, t: Table, t': Table)
    requires Quiet(t, t')
    ensures |ActiveIds(t'.rows)| <= |ActiveIds(t.rows)|
    ensures Unique(t.rows) ==> Unique(t'.rows)
    ensures forall request :: !Conflicts(t.rows, request) ==> !Conflicts(t'.rows, request)
    ensures forall workspace :: !WorkspaceActive(t.rows, workspace) ==> !WorkspaceActive(t'.rows, workspace)
  {
    assert ActiveIds(t'.rows) <= ActiveIds(t.rows);
    SubsetCardinality(ActiveIds(t'.rows), ActiveIds(t.rows));
  }

  // A quiet change of the table, with locks, tools and guards as they were.
  lemma QuietKeeps(c: Config, s: State, s': State)
    requires AdmissionInv(c, s) && TableInv(s'.table) && Quiet(s.table, s'.table)
    requires s'.locks == s.locks && s'.tools == s.tools && s'.guards == s.guards
    ensures AdmissionInv(c, s')
  {
    QuietRows(c, s.table, s'.table);
    forall p | p in s'.tools
      ensures ToolInv(c, s', p)
    {
      assert ToolInv(c, s, p);
    }
    forall g | g in s'.guards
      ensures GuardInv(c, s', g)
    {
      assert GuardInv(c, s, g);
    }
  }

  lemma WorkerKeeps(c: Config, s: State, step: WorkerStep)
    requires AdmissionInv(c, s) && WorkerEnabled(s, step)
    ensures AdmissionInv(c, WorkerEffect(s, step))
  {
    var s' := WorkerEffect(s, step);
    match step {
    case SlotClaim(_, id, now, skipped) => StatementIsQuiet(s.table, JobStep.Claim(id, now, skipped));
    case SlotFinish(w, run, now) => StatementIsQuiet(s.table, FinishOf(s.slots[w].job, run, now));
    case Restart(output, now) => StatementIsQuiet(s.table, JobStep.FailActive(output, now));
    case Background(statement) => StatementIsQuiet(s.table, statement);
    case _ =>
    }
    QuietKeeps(c, s, s');
  }

  lemma RunKeeps(c: Config, s: State, step: OwnerStep)
    requires AdmissionInv(c, s) && OwnerEnabled(s, step)
    ensures AdmissionInv(c, OwnerEffect(s, step))
  {
    var s' := OwnerEffect(s, step);
    if step.CancelMark? && s.runs[step.r].published {
      StatementIsQuiet(s.table, JobStep.CancelRun(step.r, step.now));
    }
    QuietKeeps(c, s, s');
  }

  // Only guard `g` and its locks changed.
  lemma GuardMoves(c: Config, s: State, s': State, g: nat)
    requires AdmissionInv(c, s) && s'.table == s.table && s'.tools == s.tools
    requires g in s'.guards ==> GuardInv(c, s', g)
    requires forall h | h in s'.guards && h != g :: h in s.guards && s'.guards[h] == s.guards[h]
    requires forall k, h | Holds(s.locks, k, h) && h != GuardTx(g) :: Holds(s'.locks, k, h)
    ensures AdmissionInv(c, s')
  {
    forall p | p in s'.tools
      ensures ToolInv(c, s', p)
    {
      assert ToolInv(c, s, p);
    }
    forall h | h in s'.guards
      ensures GuardInv(c, s', h)
    {
      assert h != g ==> GuardInv(c, s, h);
    }
  }

  lemma GuardKeeps(c: Config, s: State, step: GuardStep)
    requires AdmissionInv(c, s) && GuardEnabled(s, step)
    ensures AdmissionInv(c, GuardEffect(c, s, step))
  {
    assert step.GuardQuery? ==> GuardInv(c, s, step.g);
    GuardMoves(c, s, GuardEffect(c, s, step), step.g);
  }

  // Tool steps that neither commit a row nor end the thread.
  lemma ToolMoves(c: Config, s: State, s': State, p: nat)
    requires AdmissionInv(c, s) && s'.table == s.table && s'.guards == s.guards
    requires p !in s'.tools || ToolInv(c, s', p)
    requires s'.tools.Keys <= s.tools.Keys + {p}
    requires forall q | q in s'.tools && q != p :: s'.tools[q] == s.tools[q]
    requires forall k, h | Holds(s.locks, k, h) && h != ToolTx(p) :: Holds(s'.locks, k, h)
    ensures AdmissionInv(c, s')
  {
    forall q | q in s'.tools
      ensures ToolInv(c, s', q)
    {
      assert q != p ==> ToolInv(c, s, q);
    }
    forall g | g in s'.guards
      ensures GuardInv(c, s', g)
    {
      assert GuardInv(c, s, g);
    }
  }

  // No other transaction is inside `create` while `p` holds the admission lock.
  lemma Alone(c: Config, s: State, p: nat, q: nat)
    requires AdmissionInv(c, s) && p in s.tools && q in s.tools && p != q
    requires s.tools[p].phase.InTransaction()
    ensures !s.tools[q].phase.InTransaction()
  {
    assert ToolInv(c, s, p) && ToolInv(c, s, q);
  }

  // The workspace of an uncommitted row is locked, so no granted guard is open on it.
  lemma GuardsAfterCommit(c: Config, s: State, p: nat, g: nat)
    requires AdmissionInv(c, s) && ToolEnabled(c, s, Commit(p)) && g in s.guards
    ensures GuardInv(c, ToolEffect(c, s, Commit(p)), g)
  {
    assert ToolInv(c, s, p) && GuardInv(c, s, g);
    assert s.guards[g].workspace == s.tools[p].request.workspace ==> !GuardHeld(s.guards[g]);
  }

  lemma ToolsAfterCommit(c: Config, s: State, p: nat, q: nat)
    requires AdmissionInv(c, s) && ToolEnabled(c, s, Commit(p)) && q in s.tools
    ensures ToolInv(c, ToolEffect(c, s, Commit(p)), q)
  {
    if q != p {
      Alone(c, s, p, q);
    }
  }

  lemma CommittedRows(c: Config, s: State, p: nat)
    requires AdmissionInv(c, s) && ToolEnabled(c, s, Commit(p))
    ensures var t := ToolEffect(c, s, Commit(p)).table; TableInv(t) && Unique(t.rows) && WithinCapacity(c, t.rows)
  {
    var t := ToolEffect(c, s, Commit(p)).table;
    var tool := s.tools[p];
    var id := tool.phase.id;
    assert ToolInv(c, s, p);
    assert t.rows == s.table.rows[id := NewRow(tool.request, tool.phase.now)];
    assert ActiveIds(t.rows) == ActiveIds(s.table.rows) + {id};
    StepEvolves(s.table, Insert(id, tool.request, tool.phase.now));
  }

  lemma CommitKeeps(c: Config, s: State, p: nat)
    requires AdmissionInv(c, s) && ToolEnabled(c, s, Commit(p))
    ensures AdmissionInv(c, ToolEffect(c, s, Commit(p)))
  {
    var s' := ToolEffect(c, s, Commit(p));
    CommittedRows(c, s, p);
    forall q | q in s'.tools
      ensures ToolInv(c, s', q)
    {
      ToolsAfterCommit(c, s, p, q);
    }
    forall g | g in s'.guards
      ensures GuardInv(c, s', g)
    {
      GuardsAfterCommit(c, s, p, g);
    }
  }

  lemma SpawnKeeps(c: Config, s: State, p: nat, request: Request, controlled: bool)
    requires AdmissionInv(c, s) && ToolEnabled(c, s, Spawn(p, request, controlled))
    ensures AdmissionInv(c, ToolEffect(c, s, Spawn(p, request, controlled)))
  {
    ToolMoves(c, s, ToolEffect(c, s, Spawn(p, request, controlled)), p);
  }

  lemma EnterKeeps(c: Config, s: State, step: ToolStep)
    requires AdmissionInv(c, s) && ToolEnabled(c, s, step) && (step.Publish? || step.Enter?)
    ensures AdmissionInv(c, ToolEffect(c, s, step))
  {
    ToolMoves(c, s, ToolEffect(c, s, step), step.p);
  }

  lemma LeaveKeeps(c: Config, s: State, p: nat, abandoned: set<JobId>)
    requires AdmissionInv(c, s) && p in s.tools
    ensures AdmissionInv(c, LeaveOperation(s, p, abandoned))
  {
    ToolMoves(c, s, LeaveOperation(s, p, abandoned), p);
  }

  lemma TakeKeeps(c: Config, s: State, p: nat)
    requires AdmissionInv(c, s) && ToolEnabled(c, s, TakeAdmission(p))
    ensures AdmissionInv(c, ToolEffect(c, s, TakeAdmission(p)))
  {
    ToolMoves(c, s, ToolEffect(c, s, TakeAdmission(p)), p);
  }

  lemma TryKeeps(c: Config, s: State, p: nat)
    requires AdmissionInv(c, s) && ToolEnabled(c, s, TryWorkspace(p))
    ensures AdmissionInv(c, ToolEffect(c, s, TryWorkspace(p)))
  {
    assert ToolInv(c, s, p);
    ToolMoves(c, s, ToolEffect(c, s, TryWorkspace(p)), p);
  }

  lemma RollbackKeeps(c: Config, s: State, p: nat)
    requires AdmissionInv(c, s) && ToolEnabled(c, s, Rollback(p))
    ensures AdmissionInv(c, ToolEffect(c, s, Rollback(p)))
  {
    ToolMoves(c, s, ToolEffect(c, s, Rollback(p)), p);
  }

  lemma CountKeeps(c: Config, s: State, p: nat)
    requires AdmissionInv(c, s) && ToolEnabled(c, s, Count(p))
    ensures AdmissionInv(c, ToolEffect(c, s, Count(p)))
  {
    assert ToolInv(c, s, p);
    ToolMoves(c, s, ToolEffect(c, s, Count(p)), p);
  }

  lemma InsertKeeps(c: Config, s: State, p: nat, id: JobId, now: Instant)
    requires AdmissionInv(c, s) && ToolEnabled(c, s, InsertRow(p, id, now))
    ensures AdmissionInv(c, ToolEffect(c, s, InsertRow(p, id, now)))
  {
    assert ToolInv(c, s, p);
    ToolMoves(c, s, ToolEffect(c, s, InsertRow(p, id, now)), p);
  }

  lemma ToolKeeps(c: Config, s: State, step: ToolStep)
    requires AdmissionInv(c, s) && ToolEnabled(c, s, step)
    ensures AdmissionInv(c, ToolEffect(c, s, step))
  {
    match step {
    case Spawn(p, request, controlled) => SpawnKeeps(c, s, p, request, controlled);
    case Publish(_) => EnterKeeps(c, s, step);
    case Enter(_) => EnterKeeps(c, s, step);
    case TakeAdmission(p) => TakeKeeps(c, s, p);
    case TryWorkspace(p) => TryKeeps(c, s, p);
    case Count(p) => CountKeeps(c, s, p);
    case InsertRow(p, id, now) => InsertKeeps(c, s, p, id, now);
    case Commit(p) => CommitKeeps(c, s, p);
    case Rollback(p) => RollbackKeeps(c, s, p);
    case Return(p) => LeaveKeeps(c, s, p, {});
    case Raise(p) => LeaveKeeps(c, s, p, {s.tools[p].phase.id});
    }
  }

  lemma StepKeeps(c: Config, s: State, step: Step)
    requires AdmissionInv(c, s)
    ensures AdmissionInv(c, Next(c, s, step))
  {
    if Enabled(c, s, step) {
      match step
      case ByTool(tool) => ToolKeeps(c, s, tool);
      case ByGuard(guard) => GuardKeeps(c, s, guard);
      case ByWorker(worker) => WorkerKeeps(c, s, worker);
      case ByOwner(owner) => RunKeeps(c, s, owner);
    }
  }

  lemma {:induction false} RunsKeep(c: Config, s: State, steps: seq<Step>)
    requires AdmissionInv(c, s)
    ensures AdmissionInv(c, After(c, s, steps))
    decreases |steps|
  {
    if steps != [] {
      StepKeeps(c, s, steps[0]);
      RunsKeep(c, Next(c, s, steps[0]), steps[1..]);
    }
  }

  /** In every reachable state active rows never exceed `concurrency`, and active tenants and workspaces are pairwise distinct. */
  lemma CapacityAndUniqueness(c: Config, steps: seq<Step>)
    ensures var rows := After(c, INITIAL, steps).table.rows;
      && (|ActiveIds(rows)| == 0 || |ActiveIds(rows)| <= c.concurrency)
      && forall i, j | i in rows && j in rows && i != j && rows[i].Active() && rows[j].Active() ::
        rows[i].request.tenant != rows[j].request.tenant && rows[i].request.workspace != rows[j].request.workspace
  {
    RunsKeep(c, INITIAL, steps);
  }

  /** While a granted workspace guard is open its workspace has no active row and no second granted guard. */
  lemma GrantedGuardExcludesJobs(c: Config, steps: seq<Step>, g: nat)
    requires var s := After(c, INITIAL, steps); g in s.guards && s.guards[g].phase == Open(true)
    ensures var s := After(c, INITIAL, steps);
      && (forall id | id in s.table.rows && s.table.rows[id].Active() :: s.table.rows[id].request.workspace != s.guards[g].workspace)
      && (forall h | h in s.guards && s.guards[h].phase == Open(true) && s.guards[h].workspace == s.guards[g].workspace :: h == g)
  {
    RunsKeep(c, INITIAL, steps);
    var s := After(c, INITIAL, steps);
    assert GuardInv(c, s, g);
    forall h | h in s.guards && s.guards[h].phase == Open(true) && s.guards[h].workspace == s.guards[g].workspace
      ensures h == g
    {
      assert GuardInv(c, s, h);
    }
  }

  // ---- What is granted ----

  predicate OfGuard(step: Step, g: nat) {
    step.ByGuard? && step.guard.g == g
  }

  lemma OtherGuards(c: Config, s: State, step: Step, g: nat)
    requires g in s.guards && !OfGuard(step, g)
    ensures g in Next(c, s, step).guards && Next(c, s, step).guards[g] == s.guards[g]
  {
    if Enabled(c, s, step) {
      match step
      case ByTool(tool) => assert ToolEffect(c, s, tool).guards == s.guards;
      case ByGuard(_) =>
      case ByWorker(_) =>
      case ByOwner(_) =>
    }
  }

  lemma {:induction false} GuardWaits(c: Config, s: State, steps: seq<Step>, g: nat)
    requires g in s.guards && forall step | step in steps :: !OfGuard(step, g)
    ensures g in After(c, s, steps).guards && After(c, s, steps).guards[g] == s.guards[g]
    decreases |steps|
  {
    if steps != [] {
      assert steps[0] in steps;
      OtherGuards(c, s, steps[0], g);
      GuardWaits(c, Next(c, s, steps[0]), steps[1..], g);
    }
  }

  /**
   A workspace guard is granted if and only if nobody held the lock of its workspace
   when it tried and no job of the workspace is active when it looks, whatever
   happened in between.
   */
  lemma GuardGrantedExactly(c: Config, s: State, g: nat, workspace: string, between: seq<Step>)
    requires g !in s.guards && forall step | step in between :: !OfGuard(step, g)
    ensures var tried := After(c, Next(c, s, ByGuard(GuardTry(g, workspace))), between);
      var s' := Next(c, tried, ByGuard(GuardQuery(g)));
      && g in s'.guards && s'.guards[g].workspace == workspace && s'.guards[g].phase.Open?
      && (s'.guards[g].phase.granted <==>
        && (c.key(workspace) in s.locks ==> s.locks[c.key(workspace)] == GuardTx(g))
        && forall id | id in tried.table.rows && tried.table.rows[id].Active() :: tried.table.rows[id].request.workspace != workspace)
  {
    GuardWaits(c, Next(c, s, ByGuard(GuardTry(g, workspace))), between, g);
  }

  // The steps of one `create`, with nobody else's in between.
  function CreateSteps(p: nat, id: JobId, now: Instant): seq<Step> {
    [ByTool(TakeAdmission(p)), ByTool(TryWorkspace(p)), ByTool(Count(p)), ByTool(InsertRow(p, id, now)), ByTool(Commit(p))]
  }

  lemma FirstStep(c: Config, s: State, step: Step, rest: seq<Step>)
    ensures After(c, s, [step] + rest) == After(c, Next(c, s, step), rest)
  {
    assert ([step] + rest)[1..] == rest;
  }

  // The state before the commit.
  function UpToInsert(c: Config, s: State, p: nat, id: JobId, now: Instant): State {
    var tried := Next(c, Next(c, s, ByTool(TakeAdmission(p))), ByTool(TryWorkspace(p)));
    Next(c, Next(c, tried, ByTool(Count(p))), ByTool(InsertRow(p, id, now)))
  }

  lemma FiveSteps(c: Config, s: State, p: nat, id: JobId, now: Instant)
    ensures After(c, s, CreateSteps(p, id, now)) == Next(c, UpToInsert(c, s, p, id, now), ByTool(Commit(p)))
  {
    var a, b, d, e, f: Step := ByTool(TakeAdmission(p)), ByTool(TryWorkspace(p)), ByTool(Count(p)), ByTool(InsertRow(p, id, now)), ByTool(Commit(p));
    var s1 := Next(c, s, a);
    var s2 := Next(c, s1, b);
    var s3 := Next(c, s2, d);
    var s4 := Next(c, s3, e);
    FirstStep(c, s, a, [b, d, e, f]);
    FirstStep(c, s1, b, [d, e, f]);
    FirstStep(c, s2, d, [e, f]);
    FirstStep(c, s3, e, [f]);
    FirstStep(c, s4, f, []);
    assert CreateSteps(p, id, now) == [a] + [b, d, e, f] && [b, d, e, f] == [b] + [d, e, f] && [d, e, f] == [d] + [e, f];
    assert [e, f] == [e] + [f] && [f] == [f] + [];
  }

  // The workspace lock and the admission lock are `p`'s to take.
  predicate LocksFree(c: Config, s: State, p: nat, workspace: string) {
    Free(s.locks, c.admissionKey, ToolTx(p)) && (c.key(workspace) == c.admissionKey || Free(s.locks, c.key(workspace), ToolTx(p)))
  }

  // A refused transaction is rolled back: the thread is where it was, without a lock.
  ghost predicate RolledBack(s: State, p: nat, s': State) {
    && p in s.tools && s' == s.(locks := ReleaseAll(s.locks, ToolTx(p)), tools := At(s.tools, p, Ready))
  }

  lemma Attempt(c: Config, s: State, p: nat)
    requires ToolAt(s, p, Ready) && Free(s.locks, c.admissionKey, ToolTx(p))
    ensures var s2 := Next(c, Next(c, s, ByTool(TakeAdmission(p))), ByTool(TryWorkspace(p)));
      if LocksFree(c, s, p, s.tools[p].request.workspace) then
        && s2 == s.(locks := s2.locks, tools := At(s.tools, p, Locked))
        && ReleaseAll(s2.locks, ToolTx(p)) == ReleaseAll(s.locks, ToolTx(p))
      else RolledBack(s, p, s2)
  {
    var s1 := Next(c, s, ByTool(TakeAdmission(p)));
    assert s1.locks == s.locks[c.admissionKey := ToolTx(p)] && s1.tools == At(s.tools, p, Admitting);
    assert ReleaseAll(s1.locks, ToolTx(p)) == ReleaseAll(s.locks, ToolTx(p));
    assert At(s1.tools, p, Ready) == At(s.tools, p, Ready) && At(s1.tools, p, Locked) == At(s.tools, p, Locked);
  }

  // Whether a new row may be inserted.
  predicate Room(c: Config, s: State, request: Request) {
    |ActiveIds(s.table.rows)| < c.concurrency && forall id | id in s.table.rows && s.table.rows[id].Active() ::
      s.table.rows[id].request.tenant != request.tenant && s.table.rows[id].request.workspace != request.workspace
  }

  lemma Insertion(c: Config, s: State, p: nat, id: JobId, now: Instant)
    requires ToolAt(s, p, Locked) && id !in s.table.used
    ensures var s4 := Next(c, Next(c, s, ByTool(Count(p))), ByTool(InsertRow(p, id, now)));
      if Room(c, s, s.tools[p].request) then s4 == s.(tools := At(s.tools, p, Inserted(id, now))) else RolledBack(s, p, s4)
  {
    var s3 := Next(c, s, ByTool(Count(p)));
    if |ActiveIds(s.table.rows)| < c.concurrency {
      assert s3 == s.(tools := At(s.tools, p, Counted));
      assert At(s3.tools, p, Inserted(id, now)) == At(s.tools, p, Inserted(id, now)) && At(s3.tools, p, Ready) == At(s.tools, p, Ready);
    }
  }

  lemma Committing(c: Config, s: State, p: nat, id: JobId, now: Instant)
    requires TableInv(s.table) && ToolAt(s, p, Inserted(id, now)) && id !in s.table.used && !Conflicts(s.table.rows, s.tools[p].request)
    ensures Next(c, s, ByTool(Commit(p))) == Committed(s, p, id, now)
  {
  }

  // The row is in the table and the thread waits for its result, without a lock.
  function Committed(s: State, p: nat, id: JobId, now: Instant): State
    requires p in s.tools
  {
    var row := Row(s.tools[p].request, now, Outcome(Queued, "", None, false, []), false, None, None);
    s.(table := Table(s.table.rows[id := row], s.table.used + {id}), locks := ReleaseAll(s.locks, ToolTx(p)), tools := At(s.tools, p, Waiting(id)))
  }

  // The row is inserted but not committed.
  ghost predicate Prepared(s: State, p: nat, id: JobId, now: Instant, s4: State)
    requires p in s.tools
  {
    && s4 == s.(locks := s4.locks, tools := At(s.tools, p, Inserted(id, now)))
    && ReleaseAll(s4.locks, ToolTx(p)) == ReleaseAll(s.locks, ToolTx(p))
  }

  lemma Reaches(c: Config, s: State, p: nat, id: JobId, now: Instant)
    requires ToolAt(s, p, Ready) && Free(s.locks, c.admissionKey, ToolTx(p)) && id !in s.table.used
    ensures var request := s.tools[p].request;
      var s4 := UpToInsert(c, s, p, id, now);
      if LocksFree(c, s, p, request.workspace) && Room(c, s, request) then Prepared(s, p, id, now, s4) else RolledBack(s, p, s4)
  {
    Attempt(c, s, p);
    var tried := Next(c, Next(c, s, ByTool(TakeAdmission(p))), ByTool(TryWorkspace(p)));
    if LocksFree(c, s, p, s.tools[p].request.workspace) {
      LaterSame(s, tried, p);
      Insertion(c, tried, p, id, now);
    }
  }

  /**
   An undisturbed `create` commits a queued row if and only if the workspace is not
   locked, fewer rows than the limit are active, and neither the tenant nor the
   workspace has an active one. Otherwise it changes nothing, and in either case
   the thread keeps no lock.
   */
  lemma CreateAdmitsExactly(c: Config, s: State, p: nat, id: JobId, now: Instant)
    requires TableInv(s.table) && ToolAt(s, p, Ready) && Free(s.locks, c.admissionKey, ToolTx(p)) && id !in s.table.used
    ensures var request := s.tools[p].request; var s' := After(c, s, CreateSteps(p, id, now));
      if LocksFree(c, s, p, request.workspace) && Room(c, s, request) then s' == Committed(s, p, id, now) else RolledBack(s, p, s')
  {
    FiveSteps(c, s, p, id, now);
    Reaches(c, s, p, id, now);
    CommitsOrNot(c, s, UpToInsert(c, s, p, id, now), p, id, now);
  }

  lemma CommitsOrNot(c: Config, s: State, s4: State, p: nat, id: JobId, now: Instant)
    requires TableInv(s.table) && ToolAt(s, p, Ready) && id !in s.table.used
    ensures Prepared(s, p, id, now, s4) && !Conflicts(s.table.rows, s.tools[p].request) ==> Next(c, s4, ByTool(Commit(p))) == Committed(s, p, id, now)
    ensures RolledBack(s, p, s4) ==> Next(c, s4, ByTool(Commit(p))) == s4
  {
    if Prepared(s, p, id, now, s4) && !Conflicts(s.table.rows, s.tools[p].request) {
      Committing(c, s4, p, id, now);
      assert At(s4.tools, p, Waiting(id)) == At(s.tools, p, Waiting(id));
    }
  }

  // What later phases of `p` and its locks do not depend on.
  lemma LaterSame(s: State, s2: State, p: nat)
    requires p in s.tools && s2.tools == At(s.tools, p, Locked)
    ensures forall phase, phase' :: At(At(s2.tools, p, phase'), p, phase) == At(s2.tools, p, phase) == At(s.tools, p, phase)
  {
    forall phase, phase'
      ensures At(At(s2.tools, p, phase'), p, phase) == At(s2.tools, p, phase) == At(s.tools, p, phase)
    {
    }
  }
}
