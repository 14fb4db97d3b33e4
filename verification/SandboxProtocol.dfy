/**
 The sandbox job protocol as one interleaved state machine: tool threads that
 bracket an operation around the multi-step `create` transaction, workspace
 guards, worker slots, the cleanup thread, and the canceller of each run.

 Every transaction is split at its statements. Advisory transaction locks are
 entries of one lock table, released when the transaction ends.
 */
module SandboxProtocol {
  import opened Wrappers
  import opened JobTable
  import RC = RunControl
  import X = Executor

  // `key` is the 64-bit digest of a workspace identifier. Nothing below assumes
  // that it is injective or that it avoids the admission key.
  datatype Config = Config(concurrency: int, admissionKey: int, key: string -> int)

  datatype Holder = ToolTx(p: nat) | GuardTx(g: nat)

  datatype ToolPhase =
    | Outside                                // before `control.operation()`
    | Ready                                  // operation counted, no transaction
    | Admitting                              // holds the admission lock
    | Locked                                 // and the workspace lock
    | Counted                                // and saw fewer active rows than the limit
    | Inserted(id: JobId, now: Instant)      // and inserted a row, not yet committed
    | Waiting(id: JobId)                     // committed; polling for the result
  {
    predicate InTransaction() { Admitting? || Locked? || Counted? || Inserted? }

    predicate HoldsWorkspace() { Locked? || Counted? || Inserted? }
  }

  datatype Tool = Tool(request: Request, controlled: bool, phase: ToolPhase)

  datatype GuardPhase = Tried(locked: bool) | Open(granted: bool)

  datatype Guard = Guard(workspace: string, phase: GuardPhase)

  // The looks a slot has taken at the row of its job; jobs without a run are not polled.
  datatype Slot = Slot(job: JobId, polled: bool, looks: seq<bool>)

  datatype CancelPhase =
    | Live
    | NotCancelled               // finalizing a run nobody cancelled
    | Cancelling                 // about to issue `cancel_run`
    | Marked                     // its UPDATE is done
    | CountedActive(active: nat) // its SELECT count is done
    | Confirmed                  // `_cancel_sandbox` returned
    | Unconfirmed                // `_cancel_sandbox` raised

  // `orphans` are the rows whose operation ended by an exception since the
  // canceller last counted: the bracket was left while the row was active.
  datatype Run = Run(
    thread: string,
    control: RC.Control,
    published: bool,
    phase: CancelPhase,
    orphans: set<JobId>,
    finished: bool,
    cleanupFailed: bool,
    released: bool)

  datatype State = State(
    table: Table,
    locks: map<int, Holder>,
    tools: map<nat, Tool>,
    guards: map<nat, Guard>,
    slots: map<nat, Slot>,
    runs: map<string, Run>)

  // A tool thread of the API process.
  datatype ToolStep =
    | Spawn(p: nat, request: Request, controlled: bool)
    | Publish(p: nat)
    | Enter(p: nat)
    | TakeAdmission(p: nat)
    | TryWorkspace(p: nat)
    | Count(p: nat)
    | InsertRow(p: nat, id: JobId, now: Instant)
    | Commit(p: nat)
    | Rollback(p: nat)
    | Return(p: nat)
    | Raise(p: nat)

  // A workspace guard.
  datatype GuardStep =
    | GuardTry(g: nat, workspace: string)
    | GuardQuery(g: nat)
    | GuardClose(g: nat)

  // The worker process and the statements anybody may issue.
  datatype WorkerStep =
    | SlotClaim(w: nat, id: JobId, now: Instant, skipped: set<JobId>)
    | SlotPoll(w: nat)
    | SlotFinish(w: nat, run: X.Run, now: Instant)
    | SlotDie(w: nat)
    | Restart(output: string, now: Instant)
    | Background(statement: JobStep)

  // The owner of one run.
  datatype OwnerStep =
    | StartRun(r: string, thread: string)
    | Control(r: string, step: RC.ControlStep)
    | Finalize(r: string, completed: bool)
    | CancelMark(r: string, now: Instant)
    | CancelCount(r: string)
    | ReadOperations(r: string)
    | GiveUp(r: string)
    | EndFinalize(r: string, state: RC.RunState)
    | ResponseTimeout(r: string)
    | Close(r: string)

  datatype Step = ByTool(tool: ToolStep) | ByGuard(guard: GuardStep) | ByWorker(worker: WorkerStep) | ByOwner(owner: OwnerStep)

  // ---- Helpers on the components ----

  function Free(locks: map<int, Holder>, key: int, h: Holder): bool {
    key !in locks || locks[key] == h
  }

  function ReleaseAll(locks: map<int, Holder>, h: Holder): map<int, Holder> {
    map k | k in locks && locks[k] != h :: locks[k]
  }

  function At(tools: map<nat, Tool>, p: nat, phase: ToolPhase): map<nat, Tool>
    requires p in tools
  {
    tools[p := tools[p].(phase := phase)]
  }

  predicate WorkspaceActive(rows: Rows, workspace: string) {
    exists id | id in rows :: rows[id].Active() && rows[id].request.workspace == workspace
  }

  // Statements with no precondition of their own: the API's result deadline, its
  // claim deadline, the cleanup thread.
  predicate Unconditional(statement: JobStep) {
    statement.FailStale? || statement.FailQueued? || statement.Cleanup? ||
    (statement.Finish? && statement.outcome.status.Failed?)
  }

  function WithRun(s: State, r: string, run: Run): State {
    s.(runs := s.runs[r := run])
  }

  // The control block a controlled tool shares with its run.
  predicate ControlledBy(tool: Tool, r: string) {
    tool.controlled && tool.request.run == Some(r)
  }

  function InFlight(tools: map<nat, Tool>, r: string): set<nat> {
    set p | p in tools && ControlledBy(tools[p], r) && !tools[p].phase.Outside?
  }

  // ---- When a step can happen ----

  predicate ToolAt(s: State, p: nat, phase: ToolPhase) {
    p in s.tools && s.tools[p].phase == phase
  }

  predicate ToolEnabled(c: Config, s: State, step: ToolStep) {
    match step
    case Spawn(p, request, controlled) =>
      && p !in s.tools
      && (controlled ==> request.run.Some? && request.run.value in s.runs)
      && (!controlled && request.run.Some? ==> request.run.value !in s.runs)
    case Publish(p) => ToolAt(s, p, Outside) && s.tools[p].controlled && s.tools[p].request.run.Some? && s.tools[p].request.run.value in s.runs
    case Enter(p) =>
      && ToolAt(s, p, Outside)
      && (s.tools[p].controlled ==> s.tools[p].request.run.Some? && s.tools[p].request.run.value in s.runs && s.runs[s.tools[p].request.run.value].published)
    case TakeAdmission(p) => ToolAt(s, p, Ready) && Free(s.locks, c.admissionKey, ToolTx(p))
    case TryWorkspace(p) => ToolAt(s, p, Admitting)
    case Count(p) => ToolAt(s, p, Locked)
    case InsertRow(p, id, _) => ToolAt(s, p, Counted) && id !in s.table.used
    case Commit(p) => p in s.tools && s.tools[p].phase.Inserted?
    case Rollback(p) => p in s.tools && s.tools[p].phase.InTransaction()
    case Return(p) => p in s.tools && (s.tools[p].phase.Ready? ||
      (s.tools[p].phase.Waiting? && (s.tools[p].phase.id in s.table.rows ==> !s.table.rows[s.tools[p].phase.id].Active())))
    case Raise(p) => p in s.tools && s.tools[p].phase.Waiting?
  }

  predicate GuardEnabled(s: State, step: GuardStep) {
    match step
    case GuardTry(g, _) => g !in s.guards
    case GuardQuery(g) => g in s.guards && s.guards[g].phase.Tried?
    case GuardClose(g) => g in s.guards
  }

  predicate WorkerEnabled(s: State, step: WorkerStep) {
    match step
    case SlotClaim(w, id, now, skipped) => w !in s.slots && OldestClaimable(s.table.rows, id, now, skipped)
    case SlotPoll(w) => w in s.slots && s.slots[w].polled && s.slots[w].job in s.table.rows
    case SlotFinish(w, run, _) =>
      w in s.slots && X.Looked(run, s.slots[w].polled, s.slots[w].looks) && X.Recorded(run, X.RunSpec(run)).Some?
    case SlotDie(w) => w in s.slots
    case Restart(_, _) => true
    case Background(statement) => Unconditional(statement)
  }

  predicate OwnerEnabled(s: State, step: OwnerStep) {
    match step
    case StartRun(r, thread) =>
      && r !in s.runs
      && (forall p | p in s.tools :: s.tools[p].request.run != Some(r))
      && (forall id | id in s.table.rows :: s.table.rows[id].request.run != Some(r))
      && (forall other | other in s.runs :: s.runs[other].thread == thread ==> s.runs[other].released)
    case Control(r, cs) => r in s.runs && (cs.Steer? || cs.Stop? || cs.Deliver? || (cs.Prepare? && s.runs[r].phase.Live?))
    case Finalize(r, _) => r in s.runs && s.runs[r].phase.Live?
    case CancelMark(r, _) => r in s.runs && s.runs[r].phase.Cancelling?
    case CancelCount(r) => r in s.runs && s.runs[r].phase.Marked?
    case ReadOperations(r) => r in s.runs && s.runs[r].phase.CountedActive?
    case GiveUp(r) => r in s.runs && (s.runs[r].phase.Cancelling? || s.runs[r].phase.Marked? || s.runs[r].phase.CountedActive?)
    case EndFinalize(r, state) =>
      && r in s.runs
      && (s.runs[r].phase.Confirmed? || s.runs[r].phase.NotCancelled?)
      && !s.runs[r].finished
      && state.Terminal()
    case ResponseTimeout(r) => r in s.runs && !s.runs[r].finished
    case Close(r) => r in s.runs && (s.runs[r].finished || s.runs[r].cleanupFailed)
  }

  predicate Enabled(c: Config, s: State, step: Step) {
    match step
    case ByTool(tool) => ToolEnabled(c, s, tool)
    case ByGuard(guard) => GuardEnabled(s, guard)
    case ByWorker(worker) => WorkerEnabled(s, worker)
    case ByOwner(owner) => OwnerEnabled(s, owner)
  }

  // ---- What a step does ----

  function ToolEffect(c: Config, s: State, step: ToolStep): State
    requires ToolEnabled(c, s, step)
  {
    match step
    case Spawn(p, request, controlled) => s.(tools := s.tools[p := Tool(request, controlled, Outside)])
    case Publish(p) =>
      var r := s.tools[p].request.run.value;
      WithRun(s, r, s.runs[r].(published := true))
    case Enter(p) =>
      if s.tools[p].controlled then
        var r := s.tools[p].request.run.value;
        if s.runs[r].control.cancelled then s.(tools := s.tools - {p})
        else
          WithRun(s, r, s.runs[r].(control := RC.EnterSpec(s.runs[r].control))).(tools := At(s.tools, p, Ready))
      else s.(tools := At(s.tools, p, Ready))
    case TakeAdmission(p) =>
      s.(locks := s.locks[c.admissionKey := ToolTx(p)], tools := At(s.tools, p, Admitting))
    case TryWorkspace(p) =>
      var k := c.key(s.tools[p].request.workspace);
      if Free(s.locks, k, ToolTx(p)) then s.(locks := s.locks[k := ToolTx(p)], tools := At(s.tools, p, Locked))
      else s.(locks := ReleaseAll(s.locks, ToolTx(p)), tools := At(s.tools, p, Ready))
    case Count(p) =>
      if |ActiveIds(s.table.rows)| >= c.concurrency then
        s.(locks := ReleaseAll(s.locks, ToolTx(p)), tools := At(s.tools, p, Ready))
      else s.(tools := At(s.tools, p, Counted))
    case InsertRow(p, id, now) =>
      if Conflicts(s.table.rows, s.tools[p].request) then
        s.(locks := ReleaseAll(s.locks, ToolTx(p)), tools := At(s.tools, p, Ready))
      else s.(tools := At(s.tools, p, Inserted(id, now)))
    case Commit(p) =>
      var phase := s.tools[p].phase;
      s.(table := JobTable.Apply(s.table, Insert(phase.id, s.tools[p].request, phase.now)),
         locks := ReleaseAll(s.locks, ToolTx(p)),
         tools := At(s.tools, p, Waiting(phase.id)))
    case Rollback(p) => s.(locks := ReleaseAll(s.locks, ToolTx(p)), tools := At(s.tools, p, Ready))
    case Return(p) => LeaveOperation(s, p, {})
    case Raise(p) => LeaveOperation(s, p, {s.tools[p].phase.id})
  }

  // The end of the operation bracket, leaving behind the rows in `abandoned`.
  function LeaveOperation(s: State, p: nat, abandoned: set<JobId>): State
    requires p in s.tools
  {
    var s1 := s.(tools := s.tools - {p});
    var run := s.tools[p].request.run;
    if s.tools[p].controlled && run.Some? && run.value in s.runs then
      var control := s.runs[run.value];
      WithRun(s1, run.value, control.(control := RC.LeaveSpec(control.control), orphans := control.orphans + abandoned))
    else s1
  }

  function GuardEffect(c: Config, s: State, step: GuardStep): State
    requires GuardEnabled(s, step)
  {
    match step
    case GuardTry(g, workspace) =>
      var k := c.key(workspace);
      if Free(s.locks, k, GuardTx(g)) then
        s.(locks := s.locks[k := GuardTx(g)], guards := s.guards[g := Guard(workspace, Tried(true))])
      else s.(guards := s.guards[g := Guard(workspace, Tried(false))])
    case GuardQuery(g) =>
      var guard := s.guards[g];
      var granted := guard.phase.locked && !WorkspaceActive(s.table.rows, guard.workspace);
      s.(guards := s.guards[g := guard.(phase := Open(granted))])
    case GuardClose(g) => s.(locks := ReleaseAll(s.locks, GuardTx(g)), guards := s.guards - {g})
  }

  // What a slot records for an execution; an active status is never recorded.
  function FinishOf(job: JobId, run: X.Run, now: Instant): JobStep
    requires (run.polled ==> X.Finite(run.ticks)) && X.Recorded(run, X.RunSpec(run)).Some?
  {
    JobStep.Finish(job, X.Recorded(run, X.RunSpec(run)).value, now)
  }

  function WorkerEffect(s: State, step: WorkerStep): State
    requires WorkerEnabled(s, step)
  {
    match step
    case SlotClaim(w, id, now, skipped) =>
      s.(table := JobTable.Apply(s.table, JobStep.Claim(id, now, skipped)), slots := s.slots[w := Slot(id, s.table.rows[id].request.run.Some?, [])])
    case SlotPoll(w) =>
      var row := s.table.rows[s.slots[w].job];
      s.(slots := s.slots[w := s.slots[w].(looks := s.slots[w].looks + [row.cancelRequested])])
    case SlotFinish(w, run, now) =>
      s.(table := JobTable.Apply(s.table, FinishOf(s.slots[w].job, run, now)), slots := s.slots - {w})
    case SlotDie(w) => s.(slots := s.slots - {w})
    case Restart(output, now) => s.(table := JobTable.Apply(s.table, JobStep.FailActive(output, now)), slots := map[])
    case Background(statement) => s.(table := JobTable.Apply(s.table, statement))
  }

  function OwnerEffect(s: State, step: OwnerStep): State
    requires OwnerEnabled(s, step)
  {
    match step
    case StartRun(r, thread) =>
      WithRun(s, r, Run(thread, RC.Control(RC.Preparing, [], false, 0), false, Live, {}, false, false, false))
    case Control(r, cs) => WithRun(s, r, s.runs[r].(control := RC.Apply(s.runs[r].control, cs)))
    case Finalize(r, completed) =>
      var control := RC.BeginFinalizeSpec(s.runs[r].control, completed);
      WithRun(s, r, s.runs[r].(control := control, phase := if control.cancelled then Cancelling else NotCancelled))
    case CancelMark(r, now) =>
      if s.runs[r].published then
        WithRun(s, r, s.runs[r].(phase := Marked)).(table := JobTable.Apply(s.table, JobStep.CancelRun(r, now)))
      else WithRun(s, r, s.runs[r].(phase := CountedActive(0), orphans := {}))
    case CancelCount(r) =>
      WithRun(s, r, s.runs[r].(phase := CountedActive(|ActiveOfRun(s.table.rows, r)|), orphans := {}))
    case ReadOperations(r) =>
      var run := s.runs[r];
      WithRun(s, r, run.(phase := if run.phase.active == 0 && run.control.operations == 0 then Confirmed else Cancelling))
    case GiveUp(r) =>
      WithRun(s, r, s.runs[r].(phase := Unconfirmed, finished := true, cleanupFailed := true,
        control := RC.Apply(s.runs[r].control, RC.Finish(RC.Failed))))
    case EndFinalize(r, state) =>
      WithRun(s, r, s.runs[r].(finished := true, control := RC.Apply(s.runs[r].control, RC.Finish(state))))
    case ResponseTimeout(r) =>
      WithRun(s, r, s.runs[r].(cleanupFailed := true, control := RC.Apply(s.runs[r].control, RC.Finish(RC.Failed))))
    case Close(r) => WithRun(s, r, s.runs[r].(released := s.runs[r].released || !s.runs[r].cleanupFailed))
  }

  // A step that cannot happen changes nothing, so every sequence of steps is a run.
  function Next(c: Config, s: State, step: Step): State {
    if !Enabled(c, s, step) then s
    else
      match step
      case ByTool(tool) => ToolEffect(c, s, tool)
      case ByGuard(guard) => GuardEffect(c, s, guard)
      case ByWorker(worker) => WorkerEffect(s, worker)
      case ByOwner(owner) => OwnerEffect(s, owner)
  }

  const INITIAL: State := State(Table(map[], {}), map[], map[], map[], map[], map[])

  function After(c: Config, s: State, steps: seq<Step>): State
    decreases |steps|
  {
    if steps == [] then s else After(c, Next(c, s, steps[0]), steps[1..])
  }
}
