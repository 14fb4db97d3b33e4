/**
 Over every interleaving of the whole system: whose stop marks a row, and whose
 outcome an ended row holds.
 */
module Stops {
  import opened Wrappers
  import opened JobTable
  import opened SandboxProtocol
  import opened Cancellation
  import H = JobHistory
  import RC = RunControl
  import W = WorkerSlots
  import X = Executor

  // ---- Whose stop it was ----

  // The step is a stop that was in time, or finds that the run did not complete.
  ghost predicate StopsIn(s: State, step: Step, r: string) {
    && step.ByOwner? && r in s.runs && step.owner.r == r && OwnerEnabled(s, step.owner)
    && match step.owner
      case Control(_, cs) => cs.Stop? && (s.runs[r].control.state.Preparing? || s.runs[r].control.state.Running?)
      case Finalize(_, completed) => !completed
      case _ => false
  }

  ghost predicate StopsAt(c: Config, steps: seq<Step>, k: nat, r: string) {
    k < |steps| && StopsIn(Before(c, steps, k), steps[k], r)
  }

  // The step is `cancel_run` of the row's own run, while the row is active.
  ghost predicate MarksIn(s: State, step: Step, id: JobId) {
    && step.ByOwner? && step.owner.CancelMark? && OwnerEnabled(s, step.owner)
    && s.runs[step.owner.r].published && id in ActiveOfRun(s.table.rows, step.owner.r)
  }

  ghost predicate MarksAt(c: Config, steps: seq<Step>, k: nat, id: JobId) {
    k < |steps| && MarksIn(Before(c, steps, k), steps[k], id)
  }

  lemma ToolFlag(c: Config, s: State, tool: ToolStep, r: string)
    requires ToolEnabled(c, s, tool) && r in s.runs
    ensures r in ToolEffect(c, s, tool).runs
    ensures ToolEffect(c, s, tool).runs[r].control.cancelled == s.runs[r].control.cancelled
  {
    match tool {
    case Publish(_) =>
    case Enter(_) =>
    case Return(p) => LeaveFlag(s, p, {}, r);
    case Raise(p) => LeaveFlag(s, p, {s.tools[p].phase.id}, r);
    case _ => assert ToolEffect(c, s, tool).runs == s.runs;
    }
  }

  lemma LeaveFlag(s: State, p: nat, abandoned: set<JobId>, r: string)
    requires p in s.tools && r in s.runs
    ensures r in LeaveOperation(s, p, abandoned).runs
    ensures LeaveOperation(s, p, abandoned).runs[r].control.cancelled == s.runs[r].control.cancelled
  {
  }

  lemma OwnerFlag(s: State, owner: OwnerStep, r: string)
    requires OwnerEnabled(s, owner) && r in s.runs
    ensures r in OwnerEffect(s, owner).runs
    ensures OwnerEffect(s, owner).runs[r].control.cancelled <==> s.runs[r].control.cancelled || StopsIn(s, ByOwner(owner), r)
  {
    if owner.r != r {
      assert OwnerEffect(s, owner).runs[r] == s.runs[r];
    } else {
      OwnFlag(s, owner);
    }
  }

  lemma OwnFlag(s: State, owner: OwnerStep)
    requires OwnerEnabled(s, owner) && owner.r in s.runs
    ensures owner.r in OwnerEffect(s, owner).runs
    ensures OwnerEffect(s, owner).runs[owner.r].control.cancelled <==> s.runs[owner.r].control.cancelled || StopsIn(s, ByOwner(owner), owner.r)
  {
    match owner {
    case Control(_, cs) => match cs { case Stop => case _ => }
    case _ =>
    }
  }

  lemma StepFlag(c: Config, s: State, step: Step, r: string)
    requires r in s.runs
    ensures r in Next(c, s, step).runs
    ensures Next(c, s, step).runs[r].control.cancelled <==> s.runs[r].control.cancelled || StopsIn(s, step, r)
  {
    if Enabled(c, s, step) {
      match step {
      case ByTool(tool) => ToolFlag(c, s, tool, r);
      case ByOwner(owner) => OwnerFlag(s, owner, r);
      case ByGuard(guard) => assert GuardEffect(c, s, guard).runs == s.runs;
      case ByWorker(worker) => assert WorkerEffect(s, worker).runs == s.runs;
      }
    }
  }

  lemma OwnerNew(s: State, owner: OwnerStep, r: string)
    requires OwnerEnabled(s, owner) && r !in s.runs
    ensures r in OwnerEffect(s, owner).runs ==> !OwnerEffect(s, owner).runs[r].control.cancelled
  {
    if !owner.StartRun? {
      assert OwnerEffect(s, owner).runs.Keys == s.runs.Keys;
    }
  }

  lemma NewFlag(c: Config, s: State, step: Step, r: string)
    requires OperationInv(s) && r !in s.runs
    ensures r in Next(c, s, step).runs ==> !Next(c, s, step).runs[r].control.cancelled
  {
    if Enabled(c, s, step) {
      match step {
      case ByTool(tool) => ToolsStartNoRun(c, s, tool, r);
      case ByOwner(owner) => OwnerNew(s, owner, r);
      case _ =>
      }
    }
  }

  lemma {:induction false} RunStays(c: Config, s: State, steps: seq<Step>, r: string)
    requires r in s.runs
    ensures r in After(c, s, steps).runs
    decreases |steps|
  {
    if steps != [] {
      StepFlag(c, s, steps[0], r);
      RunStays(c, Next(c, s, steps[0]), steps[1..], r);
    }
  }

  lemma NeverStoppedBefore(c: Config, steps: seq<Step>, r: string)
    requires r !in After(c, INITIAL, steps).runs
    ensures forall k: nat :: !StopsAt(c, steps, k, r)
  {
    forall k: nat | k < |steps|
      ensures !StopsAt(c, steps, k, r)
    {
      assert steps == steps[..k] + steps[k..];
      AfterSplit(c, INITIAL, steps[..k], steps[k..]);
      if r in Before(c, steps, k).runs {
        RunStays(c, Before(c, steps, k), steps[k..], r);
      }
    }
  }

  // The past of a step does not depend on later ones.
  lemma SamePast(c: Config, steps: seq<Step>, n: nat, k: nat)
    requires k < n <= |steps|
    ensures Before(c, steps[..n], k) == Before(c, steps, k) && steps[..n][k] == steps[k]
  {
    assert steps[..n][..k] == steps[..k];
  }

  lemma LastStep(c: Config, steps: seq<Step>)
    requires steps != []
    ensures var n := |steps| - 1;
      Before(c, steps, n) == After(c, INITIAL, steps[..n]) && After(c, INITIAL, steps) == Next(c, Before(c, steps, n), steps[n])
  {
    var n := |steps| - 1;
    AfterAppend(c, INITIAL, steps[..n], steps[n]);
    assert steps == steps[..n] + [steps[n]];
  }

  lemma StopsPrefix(c: Config, steps: seq<Step>, r: string)
    requires steps != []
    ensures var n := |steps| - 1;
      (exists k: nat :: StopsAt(c, steps, k, r)) <==> (exists k: nat :: StopsAt(c, steps[..n], k, r)) || StopsAt(c, steps, n, r)
  {
    var n := |steps| - 1;
    forall k: nat | k < n
      ensures StopsAt(c, steps, k, r) <==> StopsAt(c, steps[..n], k, r)
    {
      SamePast(c, steps, n, k);
    }
  }

  /** A run is cancelled if and only if it was stopped in time or did not complete. */
  lemma {:induction false} CancelledIfStopped(c: Config, steps: seq<Step>, r: string)
    requires r in After(c, INITIAL, steps).runs
    ensures After(c, INITIAL, steps).runs[r].control.cancelled <==> exists k: nat :: StopsAt(c, steps, k, r)
    decreases |steps|
  {
    if steps != [] {
      var n := |steps| - 1;
      var s := After(c, INITIAL, steps[..n]);
      StopsPrefix(c, steps, r);
      LastStep(c, steps);
      if r in s.runs {
        CancelledIfStopped(c, steps[..n], r);
        StepFlag(c, s, steps[n], r);
      } else {
        RunsKeep(c, INITIAL, steps[..n]);
        NeverStoppedBefore(c, steps[..n], r);
        NewFlag(c, s, steps[n], r);
      }
    }
  }

  // ---- Which rows it marks ----

  lemma MarkingIsOwn(c: Config, s: State, step: Step, id: JobId)
    requires Enabled(c, s, step)
    ensures MarksIn(s, step, id) <==>
      W.Statement(s, step).Some? && H.Does(H.Marking, s.table, W.Statement(s, step).value, id)
  {
  }

  // What one step does to a row.
  lemma RowMoves(c: Config, s: State, step: Step, id: JobId)
    requires TableInv(s.table) && id in s.table.rows && id in Next(c, s, step).table.rows
    ensures var r, r' := s.table.rows[id], Next(c, s, step).table.rows[id];
      && r'.request == r.request
      && (r'.cancelRequested <==> r.cancelRequested || MarksIn(s, step, id))
      && (!r.Active() ==> r' == r)
      && (r.Active() && !r'.Active() ==>
        && EndedBy(c, s, step, id)
        && r'.outcome == H.Settled(H.Presented(W.Statement(s, step).value), r'.cancelRequested))
  {
    if Enabled(c, s, step) {
      MarkingIsOwn(c, s, step, id);
      W.OneStatement(c, s, step);
      if W.Statement(s, step).Some? {
        H.RowMoves(s.table, W.Statement(s, step).value, id);
      }
    }
  }

  lemma RowAppears(c: Config, s: State, step: Step, id: JobId)
    requires TableInv(s.table) && id !in s.table.rows && id in Next(c, s, step).table.rows
    ensures id !in s.table.used && Next(c, s, step).table.rows[id].Active() && !Next(c, s, step).table.rows[id].cancelRequested
  {
    W.OneStatement(c, s, step);
    H.RowAppears(s.table, W.Statement(s, step).value, id);
  }

  lemma NeverMarkedBefore(c: Config, steps: seq<Step>, id: JobId)
    requires id !in After(c, INITIAL, steps).table.used
    ensures forall k: nat :: !MarksAt(c, steps, k, id)
  {
    assert steps[..|steps|] == steps;
    forall k: nat | k < |steps|
      ensures !MarksAt(c, steps, k, id)
    {
      RunsKeep(c, INITIAL, steps[..k]);
      if id in Before(c, steps, k).table.rows {
        UsedStays(c, steps, k, |steps|, id);
      }
    }
  }

  lemma MarksPrefix(c: Config, steps: seq<Step>, id: JobId)
    requires steps != []
    ensures var n := |steps| - 1;
      (exists k: nat :: MarksAt(c, steps, k, id)) <==> (exists k: nat :: MarksAt(c, steps[..n], k, id)) || MarksAt(c, steps, n, id)
  {
    var n := |steps| - 1;
    forall k: nat | k < n
      ensures MarksAt(c, steps, k, id) <==> MarksAt(c, steps[..n], k, id)
    {
      SamePast(c, steps, n, k);
    }
  }

  /** Over every interleaving a row is marked if and only if `cancel_run` of its own run met it while it was active. */
  lemma {:induction false} MarkedByOwnRun(c: Config, steps: seq<Step>, id: JobId)
    requires id in After(c, INITIAL, steps).table.rows
    ensures After(c, INITIAL, steps).table.rows[id].cancelRequested <==> exists k: nat :: MarksAt(c, steps, k, id)
    decreases |steps|
  {
    if steps != [] {
      var n := |steps| - 1;
      var s := After(c, INITIAL, steps[..n]);
      MarksPrefix(c, steps, id);
      LastStep(c, steps);
      RunsKeep(c, INITIAL, steps[..n]);
      if id in s.table.rows {
        MarkedByOwnRun(c, steps[..n], id);
        RowMoves(c, s, steps[n], id);
      } else {
        RowAppears(c, s, steps[n], id);
        NeverMarkedBefore(c, steps[..n], id);
      }
    }
  }

  lemma MovedOn(c: Config, steps: seq<Step>, k: nat)
    requires k <= |steps|
    ensures Evolves(Before(c, steps, k).table, After(c, INITIAL, steps).table)
  {
    W.RowsMoveForward(c, INITIAL, steps[..k]);
    W.RowsMoveForward(c, Before(c, steps, k), steps[k..]);
    AfterSplit(c, INITIAL, steps[..k], steps[k..]);
    assert steps == steps[..k] + steps[k..];
  }

  lemma MarkedRunWasCancelled(c: Config, steps: seq<Step>, k: nat, id: JobId) returns (r: string)
    requires id in After(c, INITIAL, steps).table.rows && MarksAt(c, steps, k, id)
    ensures After(c, INITIAL, steps).table.rows[id].request.run == Some(r)
    ensures exists j: nat :: StopsAt(c, steps, j, r)
  {
    var s := Before(c, steps, k);
    r := steps[k].owner.r;
    RunsKeep(c, INITIAL, steps[..k]);
    assert RunInv(s, r);
    CancelledIfStopped(c, steps[..k], r);
    var j: nat :| StopsAt(c, steps[..k], j, r);
    SamePast(c, steps, k, j);
    assert StopsAt(c, steps, j, r);
    MovedOn(c, steps, k);
  }

  /**
   Nobody's stop ends another run's command: in every reachable state a row that is
   marked or `Cancelled` belongs to a run, and that very run was stopped in time or
   did not complete.
   */
  lemma OnlyItsOwnStop(c: Config, steps: seq<Step>, id: JobId)
    requires var rows := After(c, INITIAL, steps).table.rows; id in rows && (rows[id].cancelRequested || rows[id].outcome.status.Cancelled?)
    ensures var run := After(c, INITIAL, steps).table.rows[id].request.run;
      run.Some? && exists k: nat :: StopsAt(c, steps, k, run.value)
  {
    W.CancelledOnlyIfRequested(c, steps);
    MarkedByOwnRun(c, steps, id);
    var k: nat :| MarksAt(c, steps, k, id);
    var r := MarkedRunWasCancelled(c, steps, k, id);
  }

  // ---- A stop reaches the slot that runs the job ----

  // The slot goes on with its job.
  predicate GoesOn(step: Step, w: nat) {
    step.ByWorker? ==> !step.worker.Restart? && ((step.worker.SlotFinish? || step.worker.SlotDie?) ==> step.worker.w != w)
  }

  ghost predicate HasSeen(s: State, w: nat) {
    w in s.slots && true in s.slots[w].looks
  }

  lemma LookKept(c: Config, s: State, step: Step, w: nat)
    requires HasSeen(s, w) && GoesOn(step, w)
    ensures HasSeen(Next(c, s, step), w)
  {
    if Enabled(c, s, step) && !step.ByWorker? {
      W.OneStatement(c, s, step);
    }
  }

  lemma {:induction false} LooksKept(c: Config, s: State, steps: seq<Step>, w: nat)
    requires HasSeen(s, w) && forall step | step in steps :: GoesOn(step, w)
    ensures HasSeen(After(c, s, steps), w)
    decreases |steps|
  {
    if steps != [] {
      assert steps[0] in steps;
      LookKept(c, s, steps[0], w);
      LooksKept(c, Next(c, s, steps[0]), steps[1..], w);
    }
  }

  /**
   Once a slot has looked at its row after a stop marked it, then, whatever else
   happens while it goes on, the executor can report nothing but `Cancelled` for it,
   unless it raises.
   */
  lemma StopReachesTheSlot(c: Config, s: State, w: nat, more: seq<Step>, run: X.Run, now: Instant)
    requires WorkerEnabled(s, SlotPoll(w)) && s.table.rows[s.slots[w].job].cancelRequested
    requires forall step | step in more :: GoesOn(step, w)
    requires WorkerEnabled(After(c, Next(c, s, ByWorker(SlotPoll(w))), more), SlotFinish(w, run, now)) && X.RunSpec(run).Ok?
    ensures X.RunSpec(run).value.status.Cancelled?
  {
    var seen := Next(c, s, ByWorker(SlotPoll(w)));
    assert seen.slots[w].looks[|s.slots[w].looks|];
    LooksKept(c, seen, more, w);
    var s' := After(c, seen, more);
    X.SeenIsCancelled(run, s'.slots[w].polled, s'.slots[w].looks);
  }

  // ---- A run that could not be cleaned up keeps its thread ----

  // The canceller gave up, or the response waited too long for the cleanup.
  predicate CleanupFails(step: Step, r: string) {
    step == ByOwner(GiveUp(r)) || step == ByOwner(ResponseTimeout(r))
  }

  ghost predicate KeepsThread(s: State, r: string) {
    r in s.runs && s.runs[r].cleanupFailed && !s.runs[r].released
  }

  lemma ToolKeepsThread(c: Config, s: State, tool: ToolStep, r: string)
    requires ToolEnabled(c, s, tool) && KeepsThread(s, r)
    ensures KeepsThread(ToolEffect(c, s, tool), r)
  {
    match tool {
    case Publish(_) =>
    case Enter(_) =>
    case Return(p) =>
    case Raise(p) =>
    case _ => assert ToolEffect(c, s, tool).runs == s.runs;
    }
  }

  lemma OwnerKeepsThread(s: State, owner: OwnerStep, r: string)
    requires OwnerEnabled(s, owner) && KeepsThread(s, r)
    ensures KeepsThread(OwnerEffect(s, owner), r)
  {
    if owner.r != r {
      assert OwnerEffect(s, owner).runs[r] == s.runs[r];
    }
  }

  lemma {:induction false} ThreadStaysTaken(c: Config, s: State, r: string, more: seq<Step>)
    requires KeepsThread(s, r)
    ensures KeepsThread(After(c, s, more), r)
    decreases |more|
  {
    if more != [] {
      if Enabled(c, s, more[0]) {
        match more[0] {
        case ByTool(tool) => ToolKeepsThread(c, s, tool, r);
        case ByOwner(owner) => OwnerKeepsThread(s, owner, r);
        case ByGuard(guard) => assert GuardEffect(c, s, guard).runs == s.runs;
        case ByWorker(worker) => assert WorkerEffect(s, worker).runs == s.runs;
        }
      }
      ThreadStaysTaken(c, Next(c, s, more[0]), r, more[1..]);
    }
  }

  /**
   Once the cleanup of a run has failed or taken too long, its thread is never
   released, and no later run of the thread starts, whatever happens.
   */
  lemma FailedCleanupKeepsThread(c: Config, steps: seq<Step>, step: Step, r: string, more: seq<Step>, next: string)
    requires var s := After(c, INITIAL, steps); CleanupFails(step, r) && Enabled(c, s, step) && !s.runs[r].released
    ensures var s := After(c, INITIAL, steps); var s' := After(c, Next(c, s, step), more);
      r in s'.runs && !s'.runs[r].released && !OwnerEnabled(s', StartRun(next, s'.runs[r].thread))
  {
    var s := After(c, INITIAL, steps);
    ThreadStaysTaken(c, Next(c, s, step), r, more);
  }

  // ---- Whose outcome an ended row holds ----

  // Step `k` ended the row, and the row holds what its statement presented.
  ghost predicate HoldsOutcomeOf(c: Config, steps: seq<Step>, k: nat, id: JobId, row: Row) {
    && EndedAt(c, steps, k, id)
    && row.outcome == H.Settled(H.Presented(W.Statement(Before(c, steps, k), steps[k]).value), row.cancelRequested)
  }

  /** Over every interleaving an ended row holds the outcome presented by a step that ended it, but for what a requested cancellation overrides. */
  lemma {:induction false} OutcomeIsPresented(c: Config, steps: seq<Step>, id: JobId)
    requires var rows := After(c, INITIAL, steps).table.rows; id in rows && !rows[id].Active()
    ensures exists k: nat :: HoldsOutcomeOf(c, steps, k, id, After(c, INITIAL, steps).table.rows[id])
    decreases |steps|
  {
    var n := |steps| - 1;
    var s := After(c, INITIAL, steps[..n]);
    RunsKeep(c, INITIAL, steps[..n]);
    AfterAppend(c, INITIAL, steps[..n], steps[n]);
    assert steps == steps[..n] + [steps[n]];
    if id in s.table.rows {
      RowMoves(c, s, steps[n], id);
      var row := After(c, INITIAL, steps).table.rows[id];
      if s.table.rows[id].Active() {
        assert HoldsOutcomeOf(c, steps, n, id, row);
      } else {
        OutcomeIsPresented(c, steps[..n], id);
        var k: nat :| HoldsOutcomeOf(c, steps[..n], k, id, row);
        assert steps[..n][..k] == steps[..k];
        assert HoldsOutcomeOf(c, steps, k, id, row);
      }
    } else {
      RowAppears(c, s, steps[n], id);
    }
  }

  // The step is the report of a slot on job `id`, of a command that ended by itself with exit code 0.
  ghost predicate Reports(s: State, step: Step, id: JobId, row: Row) {
    && step.ByWorker? && step.worker.SlotFinish? && WorkerEnabled(s, step.worker) && s.slots[step.worker.w].job == id
    && var run := step.worker.run;
      && X.Succeeds(run) && X.EndedByItself(run)
      && row.outcome == Outcome(Completed, run.output, Some(0), run.truncated, run.accepted)
  }

  lemma ReportedBySlot(s: State, step: Step, id: JobId, row: Row)
    requires row.outcome.status.Completed? && W.Statement(s, step).Some? && id in ActiveIds(s.table.rows)
    requires (exists c :: Enabled(c, s, step)) && Ends(W.Statement(s, step).value, id, s.table.rows[id])
    requires row.outcome == H.Settled(H.Presented(W.Statement(s, step).value), row.cancelRequested)
    ensures Reports(s, step, id, row)
  {
    assert W.Statement(s, step).value.Finish?;
    assert step.ByWorker? && step.worker.SlotFinish?;
  }

  /** A `Completed` row holds the output, exit code and artifacts of a command that one of the slots ran for that very job. */
  lemma CompletedIsReported(c: Config, steps: seq<Step>, id: JobId)
    requires var rows := After(c, INITIAL, steps).table.rows; id in rows && rows[id].outcome.status.Completed?
    ensures exists k: nat | k < |steps| :: Reports(Before(c, steps, k), steps[k], id, After(c, INITIAL, steps).table.rows[id])
  {
    OutcomeIsPresented(c, steps, id);
    var row := After(c, INITIAL, steps).table.rows[id];
    var k: nat :| HoldsOutcomeOf(c, steps, k, id, row);
    ReportedBySlot(Before(c, steps, k), steps[k], id, row);
  }
}
