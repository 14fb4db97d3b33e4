/**
 Confirmed cancellation is final. `_cancel_sandbox` counts the active rows and
 then reads the operation counter; the two reads are separate steps, so tool
 threads, worker slots and the cleanup thread run between them.
 */
module Cancellation {
  import opened Wrappers
  import opened JobTable
  import opened SandboxProtocol
  import RC = RunControl
  import A = Admission
  import W = WorkerSlots

  // The row `id` belongs to an operation still counted by run `r`.
  ghost predicate Owned(tools: map<nat, Tool>, r: string, id: JobId) {
    exists p | p in tools :: ControlledBy(tools[p], r) && tools[p].phase == Waiting(id)
  }

  ghost predicate ToolKnown(s: State, p: nat)
    requires p in s.tools
  {
    var tool := s.tools[p];
    && (if tool.controlled then tool.request.run.Some? && tool.request.run.value in s.runs
        else tool.request.run.Some? ==> tool.request.run.value !in s.runs)
    && (tool.phase.Waiting? ==> OwnRow(s.table, tool.phase.id, tool.request.run))
  }

  // The identifier was issued, and its row, while it exists, carries `run`.
  ghost predicate OwnRow(t: Table, id: JobId, run: Option<string>) {
    id in t.used && (id in t.rows ==> t.rows[id].request.run == run)
  }

  predicate Unwinding(phase: CancelPhase) {
    phase.Cancelling? || phase.Marked? || phase.CountedActive? || phase.Confirmed? || phase.Unconfirmed?
  }

  ghost predicate PhaseInv(run: Run) {
    && (Unwinding(run.phase) ==> run.control.cancelled)
    && (run.phase.NotCancelled? ==> !run.control.cancelled)
    && (!run.phase.Live? ==> run.control.state.Finalizing? || run.control.state.Terminal())
    && (run.finished ==> run.phase.Confirmed? || run.phase.NotCancelled? || (run.phase.Unconfirmed? && run.cleanupFailed))
    && (run.released ==> run.phase.Confirmed? || run.phase.NotCancelled?)
  }

  ghost predicate RunInv(s: State, r: string)
    requires r in s.runs
  {
    var run := s.runs[r];
    && PhaseInv(run)
    && run.control.operations == |InFlight(s.tools, r)|
    && (forall id | id in run.orphans :: OwnRow(s.table, id, Some(r)))
    && (!run.published ==> InFlight(s.tools, r) == {} && ActiveOfRun(s.table.rows, r) == {})
    && (run.phase == CountedActive(0) ==>
      forall id | id in ActiveOfRun(s.table.rows, r) :: Owned(s.tools, r, id) || id in run.orphans)
    && (run.phase.Confirmed? ==> InFlight(s.tools, r) == {} && ActiveOfRun(s.table.rows, r) <= run.orphans)
  }

  ghost predicate OperationInv(s: State) {
    && (forall p | p in s.tools :: ToolKnown(s, p))
    && (forall r | r in s.runs :: RunInv(s, r))
  }

  // ---- Steps of the worker, the guards and the statements of others ----

  lemma QuietKeeps(s: State, s': State)
    requires OperationInv(s) && A.Quiet(s.table, s'.table)
    requires s'.tools == s.tools && s'.runs == s.runs
    ensures OperationInv(s')
  {
    forall p | p in s'.tools
      ensures ToolKnown(s', p)
    {
      assert ToolKnown(s, p);
    }
    forall r | r in s'.runs
      ensures RunInv(s', r)
    {
      assert RunInv(s, r);
      assert ActiveOfRun(s'.table.rows, r) <= ActiveOfRun(s.table.rows, r);
    }
  }

  lemma WorkerKeeps(c: Config, s: State, step: WorkerStep)
    requires TableInv(s.table) && OperationInv(s) && WorkerEnabled(s, step)
    ensures OperationInv(WorkerEffect(s, step))
  {
    match step {
    case SlotClaim(_, id, now, skipped) => A.StatementIsQuiet(s.table, JobStep.Claim(id, now, skipped));
    case SlotFinish(w, run, now) => A.StatementIsQuiet(s.table, FinishOf(s.slots[w].job, run, now));
    case Restart(output, now) => A.StatementIsQuiet(s.table, JobStep.FailActive(output, now));
    case Background(statement) => A.StatementIsQuiet(s.table, statement);
    case _ =>
    }
    QuietKeeps(s, WorkerEffect(s, step));
  }

  // ---- Steps of a run's owner ----

  // Only run `r` changed; the rows may have changed quietly.
  lemma OwnerMoves(s: State, s': State, r: string)
    requires OperationInv(s) && s'.tools == s.tools && A.Quiet(s.table, s'.table)
    requires r in s'.runs && s'.runs == s.runs[r := s'.runs[r]]
    requires r !in s.runs ==> forall p | p in s.tools :: s.tools[p].request.run != Some(r)
    requires RunInv(s', r)
    ensures OperationInv(s')
  {
    forall p | p in s'.tools
      ensures ToolKnown(s', p)
    {
      assert ToolKnown(s, p);
    }
    forall q | q in s'.runs
      ensures RunInv(s', q)
    {
      if q != r {
        assert RunInv(s, q);
        assert ActiveOfRun(s'.table.rows, q) <= ActiveOfRun(s.table.rows, q);
      }
    }
  }

  lemma StartKeeps(c: Config, s: State, r: string, thread: string)
    requires OperationInv(s) && OwnerEnabled(s, StartRun(r, thread))
    ensures OperationInv(OwnerEffect(s, StartRun(r, thread)))
  {
    var s' := OwnerEffect(s, StartRun(r, thread));
    assert InFlight(s.tools, r) == {};
    assert ActiveOfRun(s.table.rows, r) == {};
    OwnerMoves(s, s', r);
  }

  lemma OwnerInFlight(tools: map<nat, Tool>, r: string, id: JobId)
    ensures Owned(tools, r, id) ==> InFlight(tools, r) != {}
  {
    if Owned(tools, r, id) {
      var p :| p in tools && ControlledBy(tools[p], r) && tools[p].phase == Waiting(id);
      assert p in InFlight(tools, r);
    }
  }

  lemma MarkKeeps(s: State, r: string, now: Instant)
    requires TableInv(s.table) && OperationInv(s) && OwnerEnabled(s, CancelMark(r, now))
    ensures OperationInv(OwnerEffect(s, CancelMark(r, now)))
  {
    var s' := OwnerEffect(s, CancelMark(r, now));
    assert RunInv(s, r);
    if s.runs[r].published {
      A.StatementIsQuiet(s.table, JobStep.CancelRun(r, now));
      assert ActiveOfRun(s'.table.rows, r) <= ActiveOfRun(s.table.rows, r);
    }
    OwnerMoves(s, s', r);
  }

  lemma ReadKeeps(s: State, r: string)
    requires OperationInv(s) && OwnerEnabled(s, ReadOperations(r))
    ensures OperationInv(OwnerEffect(s, ReadOperations(r)))
  {
    var s' := OwnerEffect(s, ReadOperations(r));
    assert RunInv(s, r);
    forall id {
      OwnerInFlight(s.tools, r, id);
    }
    OwnerMoves(s, s', r);
  }

  lemma CountKeeps(s: State, step: OwnerStep)
    requires OperationInv(s) && OwnerEnabled(s, step) && (step.CancelCount? || step.GiveUp?)
    ensures OperationInv(OwnerEffect(s, step))
  {
    assert RunInv(s, step.r);
    OwnerMoves(s, OwnerEffect(s, step), step.r);
  }

  lemma ControlKeeps(s: State, r: string, step: RC.ControlStep)
    requires OperationInv(s) && OwnerEnabled(s, OwnerStep.Control(r, step))
    ensures OperationInv(OwnerEffect(s, OwnerStep.Control(r, step)))
  {
    assert RunInv(s, r);
    OwnerMoves(s, OwnerEffect(s, OwnerStep.Control(r, step)), r);
  }

  lemma FinalizeKeeps(s: State, r: string, completed: bool)
    requires OperationInv(s) && OwnerEnabled(s, Finalize(r, completed))
    ensures OperationInv(OwnerEffect(s, Finalize(r, completed)))
  {
    assert RunInv(s, r);
    OwnerMoves(s, OwnerEffect(s, Finalize(r, completed)), r);
  }

  lemma EndKeeps(s: State, r: string, state: RC.RunState)
    requires OperationInv(s) && OwnerEnabled(s, EndFinalize(r, state))
    ensures OperationInv(OwnerEffect(s, EndFinalize(r, state)))
  {
    assert RunInv(s, r);
    OwnerMoves(s, OwnerEffect(s, EndFinalize(r, state)), r);
  }

  lemma TimeoutKeeps(s: State, r: string)
    requires OperationInv(s) && OwnerEnabled(s, ResponseTimeout(r))
    ensures OperationInv(OwnerEffect(s, ResponseTimeout(r)))
  {
    assert RunInv(s, r);
    OwnerMoves(s, OwnerEffect(s, ResponseTimeout(r)), r);
  }

  lemma CloseKeeps(s: State, r: string)
    requires OperationInv(s) && OwnerEnabled(s, Close(r))
    ensures OperationInv(OwnerEffect(s, Close(r)))
  {
    assert RunInv(s, r);
    OwnerMoves(s, OwnerEffect(s, Close(r)), r);
  }

  // ---- Steps of a tool thread ----

  // Run `q` is not the one tool `p` belongs to, so it sees no difference.
  lemma OthersUnchanged(s: State, s': State, p: nat, q: string)
    requires OperationInv(s) && q in s.runs && q in s'.runs && s'.runs[q] == s.runs[q]
    requires s'.tools.Keys <= s.tools.Keys + {p}
    requires forall o | o in s.tools && o != p :: o in s'.tools && s'.tools[o] == s.tools[o]
    requires p in s.tools ==> !ControlledBy(s.tools[p], q)
    requires p in s'.tools ==> !ControlledBy(s'.tools[p], q)
    requires forall id | id in s'.table.rows && s'.table.rows[id].Active() && s'.table.rows[id].request.run == Some(q) ::
      id in s.table.rows && s.table.rows[id] == s'.table.rows[id]
    requires forall id, run | OwnRow(s.table, id, run) :: OwnRow(s'.table, id, run)
    ensures RunInv(s', q)
  {
    assert RunInv(s, q);
    assert InFlight(s'.tools, q) == InFlight(s.tools, q);
    forall id | id in ActiveOfRun(s'.table.rows, q)
      ensures id in ActiveOfRun(s.table.rows, q)
      ensures Owned(s.tools, q, id) ==> Owned(s'.tools, q, id)
    {
      if Owned(s.tools, q, id) {
        var o :| o in s.tools && ControlledBy(s.tools[o], q) && s.tools[o].phase == Waiting(id);
        assert o in s'.tools;
      }
    }
  }

  // The rows of run `r` keep their owners when thread `p`, not waiting, moves.
  lemma OwnersKept(tools: map<nat, Tool>, tools': map<nat, Tool>, p: nat, r: string)
    requires p in tools ==> !tools[p].phase.Waiting?
    requires forall o | o in tools && o != p :: o in tools' && tools'[o] == tools[o]
    ensures forall id | Owned(tools, r, id) :: Owned(tools', r, id)
  {
    forall id | Owned(tools, r, id)
      ensures Owned(tools', r, id)
    {
      var o :| o in tools && ControlledBy(tools[o], r) && tools[o].phase == Waiting(id);
      assert o in tools';
    }
  }

  lemma OthersKnown(s: State, s': State, p: nat)
    requires OperationInv(s) && s'.runs.Keys == s.runs.Keys
    requires s'.tools.Keys <= s.tools.Keys + {p}
    requires forall o | o in s.tools && o != p :: o in s'.tools && s'.tools[o] == s.tools[o]
    requires p in s'.tools ==> ToolKnown(s', p)
    requires forall id, run | OwnRow(s.table, id, run) :: OwnRow(s'.table, id, run)
    ensures forall o | o in s'.tools :: ToolKnown(s', o)
  {
    forall o | o in s'.tools
      ensures ToolKnown(s', o)
    {
      assert o != p ==> ToolKnown(s, o);
    }
  }

  // A thread enters the system, or moves inside its bracket without committing.
  lemma MoveKeeps(s: State, s': State, p: nat, tool: Tool)
    requires OperationInv(s) && s'.tools == s.tools[p := tool] && s'.runs == s.runs && s'.table == s.table
    requires if p in s.tools then
        && !s.tools[p].phase.Outside? && !s.tools[p].phase.Waiting?
        && tool == s.tools[p].(phase := tool.phase) && !tool.phase.Outside?
      else tool.phase.Outside?
    requires ToolKnown(s', p)
    ensures OperationInv(s')
  {
    OthersKnown(s, s', p);
    forall q | q in s'.runs
      ensures RunInv(s', q)
    {
      assert RunInv(s, q);
      assert InFlight(s'.tools, q) == InFlight(s.tools, q);
      OwnersKept(s.tools, s'.tools, p, q);
    }
  }

  lemma LockedKeeps(c: Config, s: State, step: ToolStep)
    requires OperationInv(s) && ToolEnabled(c, s, step)
    requires step.TakeAdmission? || step.TryWorkspace? || step.Rollback?
    ensures OperationInv(ToolEffect(c, s, step))
  {
    var s' := ToolEffect(c, s, step);
    assert ToolKnown(s, step.p);
    MoveKeeps(s, s', step.p, s'.tools[step.p]);
  }

  lemma CountedKeeps(c: Config, s: State, p: nat)
    requires OperationInv(s) && ToolEnabled(c, s, Count(p))
    ensures OperationInv(ToolEffect(c, s, Count(p)))
  {
    var s' := ToolEffect(c, s, Count(p));
    assert ToolKnown(s, p);
    MoveKeeps(s, s', p, s'.tools[p]);
  }

  lemma InsertedKeeps(c: Config, s: State, p: nat, id: JobId, now: Instant)
    requires OperationInv(s) && ToolEnabled(c, s, InsertRow(p, id, now))
    ensures OperationInv(ToolEffect(c, s, InsertRow(p, id, now)))
  {
    var s' := ToolEffect(c, s, InsertRow(p, id, now));
    assert ToolKnown(s, p);
    MoveKeeps(s, s', p, s'.tools[p]);
  }

  lemma EnteredRun(s: State, s': State, p: nat, r: string)
    requires p in s.tools && s.tools[p].phase.Outside? && ControlledBy(s.tools[p], r) && r in s.runs && RunInv(s, r)
    requires s.runs[r].published && !s.runs[r].control.cancelled
    requires s'.tools == At(s.tools, p, Ready) && s'.table == s.table
    requires r in s'.runs && s'.runs[r] == s.runs[r].(control := RC.EnterSpec(s.runs[r].control))
    ensures RunInv(s', r)
  {
    assert InFlight(s'.tools, r) == InFlight(s.tools, r) + {p};
    OwnersKept(s.tools, s'.tools, p, r);
  }

  // `operation()` was entered: the counter and the set of operations grow together.
  lemma EnteredKeeps(s: State, s': State, p: nat, r: string)
    requires OperationInv(s) && p in s.tools && s.tools[p].phase.Outside? && ControlledBy(s.tools[p], r) && r in s.runs
    requires s.runs[r].published && !s.runs[r].control.cancelled
    requires s'.tools == At(s.tools, p, Ready) && s'.table == s.table
    requires s'.runs == s.runs[r := s.runs[r].(control := RC.EnterSpec(s.runs[r].control))]
    ensures OperationInv(s')
  {
    assert ToolKnown(s, p);
    OthersKnown(s, s', p);
    EnteredRun(s, s', p, r);
    forall q | q in s'.runs && q != r
      ensures RunInv(s', q)
    {
      OthersUnchanged(s, s', p, q);
    }
  }

  // A thread that never entered, or that no run controls, comes or goes unseen.
  lemma UnseenKeeps(s: State, s': State, p: nat)
    requires OperationInv(s) && s'.runs == s.runs && s'.table == s.table
    requires s'.tools == s.tools - {p} || (p in s.tools && s'.tools == At(s.tools, p, Ready) && !s.tools[p].controlled)
    requires p in s.tools && (s.tools[p].phase.Outside? || !s.tools[p].controlled)
    ensures OperationInv(s')
  {
    assert ToolKnown(s, p);
    OthersKnown(s, s', p);
    forall q | q in s'.runs
      ensures RunInv(s', q)
    {
      assert RunInv(s, q);
      assert InFlight(s'.tools, q) == InFlight(s.tools, q);
      forall id | Owned(s.tools, q, id)
        ensures Owned(s'.tools, q, id)
      {
        var o :| o in s.tools && ControlledBy(s.tools[o], q) && s.tools[o].phase == Waiting(id);
        assert o in s'.tools;
      }
    }
  }

  lemma EnterKeeps(c: Config, s: State, step: ToolStep)
    requires OperationInv(s) && ToolEnabled(c, s, step)
    requires step.Spawn? || step.Publish? || step.Enter?
    ensures OperationInv(ToolEffect(c, s, step))
  {
    var s' := ToolEffect(c, s, step);
    var p := step.p;
    assert p in s.tools ==> ToolKnown(s, p);
    match step {
    case Spawn(_, _, _) => MoveKeeps(s, s', p, s'.tools[p]);
    case Publish(_) =>
      var r := s.tools[p].request.run.value;
      assert RunInv(s, r);
      OwnerMoves(s, s', r);
    case Enter(_) =>
      if s.tools[p].controlled && !s.runs[s.tools[p].request.run.value].control.cancelled {
        EnteredKeeps(s, s', p, s.tools[p].request.run.value);
      } else {
        UnseenKeeps(s, s', p);
      }
    }
  }

  lemma CommitKeeps(c: Config, s: State, p: nat)
    requires A.AdmissionInv(c, s) && OperationInv(s) && ToolEnabled(c, s, Commit(p))
    ensures OperationInv(ToolEffect(c, s, Commit(p)))
  {
    var s' := ToolEffect(c, s, Commit(p));
    var tool := s.tools[p];
    var id := tool.phase.id;
    assert A.ToolInv(c, s, p) && ToolKnown(s, p);
    assert s'.table.rows == s.table.rows[id := NewRow(tool.request, tool.phase.now)];
    OthersKnown(s, s', p);
    forall q | q in s'.runs
      ensures RunInv(s', q)
    {
      if ControlledBy(tool, q) {
        CommittedRun(s, s', p, q);
      } else {
        OthersUnchanged(s, s', p, q);
      }
    }
  }

  // The new row is owned by the thread that committed it.
  lemma CommittedRun(s: State, s': State, p: nat, q: string)
    requires OperationInv(s) && p in s.tools && s.tools[p].phase.Inserted? && ControlledBy(s.tools[p], q) && q in s.runs
    requires s'.tools == At(s.tools, p, Waiting(s.tools[p].phase.id)) && s'.runs == s.runs
    requires s'.table.rows == s.table.rows[s.tools[p].phase.id := NewRow(s.tools[p].request, s.tools[p].phase.now)]
    requires forall id, run | OwnRow(s.table, id, run) :: OwnRow(s'.table, id, run)
    ensures RunInv(s', q)
  {
    assert RunInv(s, q);
    assert p in InFlight(s.tools, q);
    assert InFlight(s'.tools, q) == InFlight(s.tools, q);
    assert Owned(s'.tools, q, s.tools[p].phase.id) by {
      assert p in s'.tools && ControlledBy(s'.tools[p], q) && s'.tools[p].phase == Waiting(s.tools[p].phase.id);
    }
    OwnersKept(s.tools, s'.tools, p, q);
  }

  // The bracket is left: a settled row needs no owner, an abandoned one is an orphan.
  lemma LeftRun(s: State, s': State, p: nat, q: string, abandoned: set<JobId>)
    requires OperationInv(s) && p in s.tools && !s.tools[p].phase.Outside? && ControlledBy(s.tools[p], q) && q in s.runs
    requires s' == LeaveOperation(s, p, abandoned)
    requires abandoned == {} || (s.tools[p].phase.Waiting? && abandoned == {s.tools[p].phase.id})
    requires s.tools[p].phase.Waiting? ==>
      s.tools[p].phase.id in abandoned || s.tools[p].phase.id !in ActiveIds(s.table.rows)
    ensures RunInv(s', q)
  {
    assert RunInv(s, q) && ToolKnown(s, p);
    assert p in InFlight(s.tools, q);
    assert InFlight(s'.tools, q) == InFlight(s.tools, q) - {p};
    forall id | id in ActiveOfRun(s.table.rows, q) && Owned(s.tools, q, id)
      ensures Owned(s'.tools, q, id) || id in abandoned
    {
      var o :| o in s.tools && ControlledBy(s.tools[o], q) && s.tools[o].phase == Waiting(id);
      assert id in ActiveIds(s.table.rows);
      assert o != p ==> o in s'.tools;
    }
  }

  lemma LeaveKeeps(s: State, p: nat, abandoned: set<JobId>)
    requires OperationInv(s) && p in s.tools && !s.tools[p].phase.Outside?
    requires abandoned == {} || (s.tools[p].phase.Waiting? && abandoned == {s.tools[p].phase.id})
    requires s.tools[p].phase.Waiting? ==>
      s.tools[p].phase.id in abandoned || s.tools[p].phase.id !in ActiveIds(s.table.rows)
    ensures OperationInv(LeaveOperation(s, p, abandoned))
  {
    var s' := LeaveOperation(s, p, abandoned);
    assert ToolKnown(s, p);
    if s.tools[p].controlled {
      OthersKnown(s, s', p);
      forall q | q in s'.runs
        ensures RunInv(s', q)
      {
        if ControlledBy(s.tools[p], q) {
          LeftRun(s, s', p, q, abandoned);
        } else {
          OthersUnchanged(s, s', p, q);
        }
      }
    } else {
      UnseenKeeps(s, s', p);
    }
  }

  // ---- Whole runs ----

  lemma ToolStepKeeps(c: Config, s: State, step: ToolStep)
    requires A.AdmissionInv(c, s) && OperationInv(s) && ToolEnabled(c, s, step)
    ensures OperationInv(ToolEffect(c, s, step))
  {
    if step.Spawn? || step.Publish? || step.Enter? {
      EnterKeeps(c, s, step);
    } else if step.Return? {
      LeaveKeeps(s, step.p, {});
    } else if step.Raise? {
      LeaveKeeps(s, step.p, {s.tools[step.p].phase.id});
    } else if step.Commit? {
      CommitKeeps(c, s, step.p);
    } else if step.TakeAdmission? || step.TryWorkspace? || step.Rollback? {
      LockedKeeps(c, s, step);
    } else if step.Count? {
      CountedKeeps(c, s, step.p);
    } else {
      InsertedKeeps(c, s, step.p, step.id, step.now);
    }
  }

  lemma RunStepKeeps(c: Config, s: State, step: OwnerStep)
    requires TableInv(s.table) && OperationInv(s) && OwnerEnabled(s, step)
    ensures OperationInv(OwnerEffect(s, step))
  {
    match step {
    case StartRun(r, thread) => StartKeeps(c, s, r, thread);
    case Control(r, more) => ControlKeeps(s, r, more);
    case CancelMark(r, now) => MarkKeeps(s, r, now);
    case ReadOperations(r) => ReadKeeps(s, r);
    case CancelCount(_) => CountKeeps(s, step);
    case GiveUp(_) => CountKeeps(s, step);
    case Finalize(r, completed) => FinalizeKeeps(s, r, completed);
    case EndFinalize(r, state) => EndKeeps(s, r, state);
    case ResponseTimeout(r) => TimeoutKeeps(s, r);
    case Close(r) => CloseKeeps(s, r);
    }
  }

  lemma StepKeeps(c: Config, s: State, step: Step)
    requires A.AdmissionInv(c, s) && OperationInv(s)
    ensures OperationInv(Next(c, s, step))
  {
    if Enabled(c, s, step) {
      match step
      case ByTool(tool) => ToolStepKeeps(c, s, tool);
      case ByGuard(guard) => QuietKeeps(s, GuardEffect(c, s, guard));
      case ByWorker(worker) => WorkerKeeps(c, s, worker);
      case ByOwner(owner) => RunStepKeeps(c, s, owner);
    }
  }

  lemma {:induction false} RunsKeep(c: Config, s: State, steps: seq<Step>)
    requires A.AdmissionInv(c, s) && OperationInv(s)
    ensures A.AdmissionInv(c, After(c, s, steps)) && OperationInv(After(c, s, steps))
    decreases |steps|
  {
    if steps != [] {
      A.StepKeeps(c, s, steps[0]);
      StepKeeps(c, s, steps[0]);
      RunsKeep(c, Next(c, s, steps[0]), steps[1..]);
    }
  }

  // ---- Confirmation ----

  // A tool step reaches a run's orphans only by leaving its bracket on an exception.
  lemma ToolOrphans(c: Config, s: State, step: ToolStep, r: string)
    requires r in s.runs && ToolEnabled(c, s, step)
    ensures var s' := ToolEffect(c, s, step);
      && s'.runs.Keys == s.runs.Keys && s'.runs[r].phase == s.runs[r].phase
      && s'.runs[r].orphans == s.runs[r].orphans +
        if step.Raise? && ControlledBy(s.tools[step.p], r) then {s.tools[step.p].phase.id} else {}
  {
    if step.Return? || step.Raise? {
      LeftOrphans(s, step.p, if step.Raise? then {s.tools[step.p].phase.id} else {}, r);
    } else if !step.Publish? && !step.Enter? {
      assert ToolEffect(c, s, step).runs == s.runs;
    }
  }

  lemma LeftOrphans(s: State, p: nat, abandoned: set<JobId>, r: string)
    requires r in s.runs && p in s.tools
    ensures var s' := LeaveOperation(s, p, abandoned);
      && s'.runs.Keys == s.runs.Keys && s'.runs[r].phase == s.runs[r].phase
      && s'.runs[r].orphans == s.runs[r].orphans + if ControlledBy(s.tools[p], r) then abandoned else {}
  {
  }

  // The canceller of `r` counts its active rows; before the run published its job store there are none to count.
  predicate Recounts(s: State, step: OwnerStep, r: string) {
    && OwnerEnabled(s, step)
    && ((step.CancelCount? && step.r == r) || (step.CancelMark? && step.r == r && !s.runs[r].published))
  }

  lemma OwnerOrphans(c: Config, s: State, step: OwnerStep, r: string)
    requires r in s.runs && OwnerEnabled(s, step)
    ensures var s' := OwnerEffect(s, step);
      && r in s'.runs && s'.runs[r].orphans == (if Recounts(s, step, r) then {} else s.runs[r].orphans)
      && (s.runs[r].phase.Confirmed? ==> s'.runs[r].phase.Confirmed? && !Recounts(s, step, r))
  {
    if step.r != r {
      assert OwnerEffect(s, step).runs[r] == s.runs[r];
    }
  }

  lemma ConfirmedByTool(c: Config, s: State, tool: ToolStep, r: string)
    requires r in s.runs && s.runs[r].phase.Confirmed? && InFlight(s.tools, r) == {} && ToolEnabled(c, s, tool)
    ensures var s' := ToolEffect(c, s, tool);
      r in s'.runs && s'.runs[r].phase.Confirmed? && s'.runs[r].orphans == s.runs[r].orphans
  {
    assert tool.Raise? && ControlledBy(s.tools[tool.p], r) ==> tool.p in InFlight(s.tools, r);
    ToolOrphans(c, s, tool, r);
  }

  // A confirmed cancellation is never reopened and its orphans are fixed.
  lemma ConfirmedStays(c: Config, s: State, step: Step, r: string)
    requires r in s.runs && s.runs[r].phase.Confirmed? && InFlight(s.tools, r) == {}
    ensures var s' := Next(c, s, step);
      r in s'.runs && s'.runs[r].phase.Confirmed? && s'.runs[r].orphans == s.runs[r].orphans
  {
    if Enabled(c, s, step) {
      match step {
      case ByTool(tool) => ConfirmedByTool(c, s, tool, r);
      case ByGuard(guard) => assert GuardEffect(c, s, guard).runs == s.runs;
      case ByWorker(worker) => assert WorkerEffect(s, worker).runs == s.runs;
      case ByOwner(owner) => OwnerOrphans(c, s, owner, r);
      }
    }
  }

  /**
   Whatever the tool threads, worker slots, guards and other runs do, once
   `_cancel_sandbox` has returned no active row carries the run, at that moment
   or ever after, except rows that an operation abandoned by an exception
   between the last count and the last read of the operation counter.
   */
  lemma {:induction false} ConfirmedIsFinal(c: Config, steps: seq<Step>, r: string, more: seq<Step>)
    requires var s := After(c, INITIAL, steps); r in s.runs && s.runs[r].phase.Confirmed?
    ensures var s := After(c, INITIAL, steps);
      && InFlight(After(c, s, more).tools, r) == {}
      && (forall id | id in ActiveOfRun(After(c, s, more).table.rows, r) :: exists i: nat :: LeftBehind(c, steps, r, i, id))
  {
    RunsKeep(c, INITIAL, steps);
    OrphansAreLeftBehind(c, steps, r);
    StaysFinal(c, After(c, INITIAL, steps), r, more);
  }

  lemma {:induction false} StaysFinal(c: Config, s: State, r: string, more: seq<Step>)
    requires A.AdmissionInv(c, s) && OperationInv(s) && r in s.runs && s.runs[r].phase.Confirmed?
    ensures InFlight(After(c, s, more).tools, r) == {}
    ensures ActiveOfRun(After(c, s, more).table.rows, r) <= s.runs[r].orphans
    decreases |more|
  {
    assert RunInv(s, r);
    if more != [] {
      ConfirmedStays(c, s, more[0], r);
      A.StepKeeps(c, s, more[0]);
      StepKeeps(c, s, more[0]);
      StaysFinal(c, Next(c, s, more[0]), r, more[1..]);
    }
  }

  // ---- Operations that end by an exception ----

  lemma {:induction false} AfterAppend(c: Config, s: State, steps: seq<Step>, step: Step)
    ensures After(c, s, steps + [step]) == Next(c, After(c, s, steps), step)
    decreases |steps|
  {
    if steps == [] {
      assert After(c, Next(c, s, step), []) == Next(c, s, step);
    } else {
      assert (steps + [step])[1..] == steps[1..] + [step];
      AfterAppend(c, Next(c, s, steps[0]), steps[1..], step);
    }
  }

  // The state before step `i`.
  ghost function Before(c: Config, steps: seq<Step>, i: nat): State
    requires i <= |steps|
  {
    After(c, INITIAL, steps[..i])
  }

  // Step `i` ends an operation of run `r` by an exception while it waits for job `id`.
  ghost predicate RaisesAt(c: Config, steps: seq<Step>, i: nat, r: string, id: JobId)
    requires i < |steps|
  {
    RaisesIn(c, Before(c, steps, i), steps[i], r, id)
  }

  ghost predicate RaisesIn(c: Config, s: State, step: Step, r: string, id: JobId) {
    && step.ByTool? && step.tool.Raise? && ToolEnabled(c, s, step.tool)
    && ControlledBy(s.tools[step.tool.p], r) && s.tools[step.tool.p].phase.id == id
  }

  ghost predicate RecountsAt(c: Config, steps: seq<Step>, i: nat, r: string)
    requires i < |steps|
  {
    steps[i].ByOwner? && Recounts(Before(c, steps, i), steps[i].owner, r)
  }

  // The job was left by an exception after which the canceller never counted again.
  ghost predicate LeftBehind(c: Config, steps: seq<Step>, r: string, i: nat, id: JobId) {
    i < |steps| && RaisesAt(c, steps, i, r, id) && forall j | i < j < |steps| :: !RecountsAt(c, steps, j, r)
  }

  // Every exception in an operation of `r` came before the canceller's last count.
  ghost predicate NothingLeftBehind(c: Config, steps: seq<Step>, r: string) {
    forall i: nat, id :: !LeftBehind(c, steps, r, i, id)
  }

  lemma OrphansNext(c: Config, s: State, step: Step, r: string)
    requires r in s.runs
    ensures var s' := Next(c, s, step);
      && r in s'.runs
      && forall id :: id in s'.runs[r].orphans <==>
        RaisesIn(c, s, step, r, id) || (id in s.runs[r].orphans && !(step.ByOwner? && Recounts(s, step.owner, r)))
  {
    if Enabled(c, s, step) {
      match step {
      case ByTool(tool) => ToolOrphans(c, s, tool, r);
      case ByOwner(owner) => OwnerOrphans(c, s, owner, r);
      case _ =>
      }
    }
  }

  lemma NewRunIsClean(c: Config, s: State, step: Step, r: string)
    requires OperationInv(s) && r !in s.runs
    ensures r in Next(c, s, step).runs ==> Next(c, s, step).runs[r].orphans == {}
    ensures forall id :: !RaisesIn(c, s, step, r, id)
  {
    if Enabled(c, s, step) {
      match step {
      case ByTool(tool) => ToolsStartNoRun(c, s, tool, r);
      case ByGuard(_) =>
      case ByWorker(_) =>
      case ByOwner(owner) => OwnerStartsClean(s, owner, r);
      }
    }
  }

  lemma OwnerStartsClean(s: State, owner: OwnerStep, r: string)
    requires r !in s.runs && OwnerEnabled(s, owner)
    ensures r in OwnerEffect(s, owner).runs ==> OwnerEffect(s, owner).runs[r].orphans == {}
  {
    if !owner.StartRun? {
      assert OwnerEffect(s, owner).runs.Keys == s.runs.Keys;
    }
  }

  lemma ToolsStartNoRun(c: Config, s: State, tool: ToolStep, r: string)
    requires OperationInv(s) && r !in s.runs && ToolEnabled(c, s, tool)
    ensures r !in ToolEffect(c, s, tool).runs
    ensures tool.p in s.tools ==> !ControlledBy(s.tools[tool.p], r)
  {
    assert tool.p in s.tools ==> ToolKnown(s, tool.p);
  }

  // What happened at step `j` does not depend on later steps.
  lemma SameBefore(c: Config, steps: seq<Step>, n: nat, j: nat, r: string)
    requires j < n <= |steps|
    ensures RecountsAt(c, steps[..n], j, r) <==> RecountsAt(c, steps, j, r)
    ensures forall id :: RaisesAt(c, steps[..n], j, r, id) <==> RaisesAt(c, steps, j, r, id)
  {
    assert steps[..n][..j] == steps[..j];
  }

  lemma LeftBehindNext(c: Config, steps: seq<Step>, r: string, i: nat, id: JobId)
    requires i < |steps| - 1
    ensures var n := |steps| - 1;
      LeftBehind(c, steps, r, i, id) <==> LeftBehind(c, steps[..n], r, i, id) && !RecountsAt(c, steps, n, r)
  {
    var n := |steps| - 1;
    forall j: nat | j < n
      ensures RecountsAt(c, steps[..n], j, r) <==> RecountsAt(c, steps, j, r)
    {
      SameBefore(c, steps, n, j, r);
    }
    SameBefore(c, steps, n, i, r);
  }

  /** `orphans` is exactly what exceptions after the last count left behind. */
  lemma {:induction false} OrphansAreLeftBehind(c: Config, steps: seq<Step>, r: string)
    ensures var s := After(c, INITIAL, steps);
      if r in s.runs then forall id :: id in s.runs[r].orphans <==> exists i: nat :: LeftBehind(c, steps, r, i, id)
      else NothingLeftBehind(c, steps, r)
  {
    if steps != [] {
      var n := |steps| - 1;
      var front, last := steps[..n], steps[n];
      OrphansAreLeftBehind(c, front, r);
      AfterAppend(c, INITIAL, front, last);
      assert steps == front + [last];
      var s := After(c, INITIAL, front);
      if r in s.runs {
        OrphansNext(c, s, last, r);
        forall id
          ensures id in After(c, INITIAL, steps).runs[r].orphans <==> exists i: nat :: LeftBehind(c, steps, r, i, id)
        {
          OrphanSteps(c, steps, r, id);
        }
      } else {
        RunsKeep(c, INITIAL, front);
        NewRunIsClean(c, s, last, r);
        forall i: nat, id
          ensures !LeftBehind(c, steps, r, i, id)
        {
          if i < n {
            LeftBehindNext(c, steps, r, i, id);
          }
        }
      }
    }
  }

  lemma OrphanSteps(c: Config, steps: seq<Step>, r: string, id: JobId)
    requires steps != []
    ensures var n := |steps| - 1;
      (exists i: nat :: LeftBehind(c, steps, r, i, id)) <==>
        RaisesAt(c, steps, n, r, id) || ((exists i: nat :: LeftBehind(c, steps[..n], r, i, id)) && !RecountsAt(c, steps, n, r))
  {
    var n := |steps| - 1;
    assert RaisesAt(c, steps, n, r, id) ==> LeftBehind(c, steps, r, n, id);
    forall i: nat | i < n
      ensures LeftBehind(c, steps, r, i, id) <==> LeftBehind(c, steps[..n], r, i, id) && !RecountsAt(c, steps, n, r)
    {
      LeftBehindNext(c, steps, r, i, id);
    }
  }

  // Step `k` issues a statement that ends the active row `id`.
  ghost predicate EndedAt(c: Config, steps: seq<Step>, k: nat, id: JobId) {
    k < |steps| && EndedBy(c, Before(c, steps, k), steps[k], id)
  }

  ghost predicate EndedBy(c: Config, s: State, step: Step, id: JobId) {
    && Enabled(c, s, step) && id in ActiveIds(s.table.rows)
    && var statement := W.Statement(s, step); statement.Some? && Ends(statement.value, id, s.table.rows[id])
  }

  lemma StepEnds(c: Config, s: State, step: Step, id: JobId)
    requires id in ActiveIds(s.table.rows)
    ensures id !in ActiveIds(Next(c, s, step).table.rows) <==> EndedBy(c, s, step, id)
  {
    if Enabled(c, s, step) {
      W.OneStatement(c, s, step);
      if W.Statement(s, step).Some? {
        EndsExactly(s.table, W.Statement(s, step).value, id);
      }
    }
  }

  // An identifier is first used by a commit, whose row is active.
  lemma NewIsActive(c: Config, s: State, step: Step, id: JobId)
    requires A.AdmissionInv(c, s) && id !in s.table.used && id in Next(c, s, step).table.used
    ensures id in ActiveIds(Next(c, s, step).table.rows)
  {
    W.OneStatement(c, s, step);
    var statement := W.Statement(s, step).value;
    KeysAfter(s.table, statement);
    assert statement.Insert? && step.ByTool? && step.tool.Commit?;
    assert A.ToolInv(c, s, step.tool.p);
  }

  /** A job is active if and only if it was once committed and no statement since ended it. */
  lemma {:induction false} ActiveUntilEnded(c: Config, steps: seq<Step>, id: JobId)
    ensures var t := After(c, INITIAL, steps).table;
      id in ActiveIds(t.rows) <==> id in t.used && forall k: nat :: !EndedAt(c, steps, k, id)
  {
    if steps != [] {
      var n := |steps| - 1;
      var s := After(c, INITIAL, steps[..n]);
      ActiveUntilEnded(c, steps[..n], id);
      RunsKeep(c, INITIAL, steps[..n]);
      AfterAppend(c, INITIAL, steps[..n], steps[n]);
      assert steps == steps[..n] + [steps[n]];
      EndedPrefix(c, steps, id);
      W.StepMovesForward(c, s, steps[n]);
      if id in ActiveIds(s.table.rows) {
        StepEnds(c, s, steps[n], id);
      } else if id in s.table.used {
        SettledByEvolving(s.table, Next(c, s, steps[n]).table, id);
      } else {
        NeverEndedBefore(c, steps, id);
        if id in Next(c, s, steps[n]).table.used {
          NewIsActive(c, s, steps[n], id);
        }
      }
    }
  }

  lemma EndedPrefix(c: Config, steps: seq<Step>, id: JobId)
    requires steps != []
    ensures var n := |steps| - 1;
      && (EndedAt(c, steps, n, id) <==> EndedBy(c, After(c, INITIAL, steps[..n]), steps[n], id))
      && forall k: nat | k != n :: EndedAt(c, steps, k, id) <==> EndedAt(c, steps[..n], k, id)
  {
    var n := |steps| - 1;
    forall k: nat | k != n
      ensures EndedAt(c, steps, k, id) <==> EndedAt(c, steps[..n], k, id)
    {
      if k < n {
        assert steps[..n][..k] == steps[..k];
      }
    }
  }

  lemma {:induction false} AfterSplit(c: Config, s: State, a: seq<Step>, b: seq<Step>)
    ensures After(c, s, a + b) == After(c, After(c, s, a), b)
    decreases |a|
  {
    if a == [] {
      assert a + b == b;
    } else {
      assert (a + b)[0] == a[0] && (a + b)[1..] == a[1..] + b;
      AfterSplit(c, Next(c, s, a[0]), a[1..], b);
    }
  }

  lemma UsedStays(c: Config, steps: seq<Step>, i: nat, k: nat, id: JobId)
    requires i <= k <= |steps| && id in Before(c, steps, i).table.used
    ensures id in Before(c, steps, k).table.used
  {
    AfterSplit(c, INITIAL, steps[..i], steps[i..k]);
    assert steps[..i] + steps[i..k] == steps[..k];
    RunsKeep(c, INITIAL, steps[..i]);
    W.RowsMoveForward(c, Before(c, steps, i), steps[i..k]);
  }

  // A row ended by some step was in use from then on.
  lemma NeverEndedBefore(c: Config, steps: seq<Step>, id: JobId)
    requires steps != [] && id !in After(c, INITIAL, steps[..|steps| - 1]).table.used
    ensures forall k: nat :: !EndedAt(c, steps, k, id)
  {
    var n := |steps| - 1;
    forall k: nat | k < |steps|
      ensures !EndedAt(c, steps, k, id)
    {
      RunsKeep(c, INITIAL, steps[..k]);
      if id in ActiveIds(Before(c, steps, k).table.rows) {
        UsedStays(c, steps, k, n, id);
      }
    }
  }

  lemma RaisedIsUsed(c: Config, steps: seq<Step>, i: nat, r: string, id: JobId)
    requires i < |steps| && RaisesAt(c, steps, i, r, id)
    ensures id in After(c, INITIAL, steps).table.used
  {
    RunsKeep(c, INITIAL, steps[..i]);
    assert ToolKnown(Before(c, steps, i), steps[i].tool.p);
    UsedStays(c, steps, i, |steps|, id);
    assert steps[..|steps|] == steps;
  }

  /**
   The exact condition: a confirmed run has no active job if and only if every
   job that one of its operations left by an exception after the canceller's last
   count was ended by some statement of the history.
   */
  lemma FinalExactlyWhenSettled(c: Config, steps: seq<Step>, r: string)
    requires var s := After(c, INITIAL, steps); r in s.runs && s.runs[r].phase.Confirmed?
    ensures var s := After(c, INITIAL, steps);
      ActiveOfRun(s.table.rows, r) == {} <==> forall i: nat, id | LeftBehind(c, steps, r, i, id) :: exists k: nat :: EndedAt(c, steps, k, id)
  {
    RunsKeep(c, INITIAL, steps);
    var s := After(c, INITIAL, steps);
    assert RunInv(s, r);
    OrphansAreLeftBehind(c, steps, r);
    forall i: nat, id | LeftBehind(c, steps, r, i, id)
      ensures (exists k: nat :: EndedAt(c, steps, k, id)) <==> id !in ActiveOfRun(s.table.rows, r)
    {
      RaisedIsUsed(c, steps, i, r, id);
      ActiveUntilEnded(c, steps, id);
      assert OwnRow(s.table, id, Some(r));
    }
    assert forall id | id in ActiveOfRun(s.table.rows, r) :: exists i: nat :: LeftBehind(c, steps, r, i, id);
  }

  /** When no operation of the run ended by an exception after the last count, a confirmed run has no active row from then on, whatever else happened and happens. */
  lemma ConfirmedCancellationIsFinal(c: Config, steps: seq<Step>, r: string, more: seq<Step>)
    requires NothingLeftBehind(c, steps, r)
    requires var s := After(c, INITIAL, steps); r in s.runs && s.runs[r].phase.Confirmed?
    ensures ActiveOfRun(After(c, After(c, INITIAL, steps), more).table.rows, r) == {}
  {
    ConfirmedIsFinal(c, steps, r, more);
    OrphansAreLeftBehind(c, steps, r);
  }

  /** The thread of a cancelled run is released only after its cancellation was confirmed, so no job of it is active. */
  lemma ReleasedIsClean(c: Config, steps: seq<Step>, r: string)
    requires var s := After(c, INITIAL, steps); r in s.runs && s.runs[r].released && s.runs[r].control.cancelled
    ensures var s := After(c, INITIAL, steps);
      && s.runs[r].phase.Confirmed?
      && InFlight(s.tools, r) == {}
      && (forall id | id in ActiveOfRun(s.table.rows, r) :: exists i: nat :: LeftBehind(c, steps, r, i, id))
      && (NothingLeftBehind(c, steps, r) ==> ActiveOfRun(s.table.rows, r) == {})
  {
    RunsKeep(c, INITIAL, steps);
    var s := After(c, INITIAL, steps);
    assert RunInv(s, r);
    OrphansAreLeftBehind(c, steps, r);
  }

  /** The next run of a thread starts only when no earlier cancelled run of that thread has a job left. */
  lemma NextRunStartsClean(c: Config, steps: seq<Step>, r: string, thread: string, earlier: string)
    requires NothingLeftBehind(c, steps, earlier) && OwnerEnabled(After(c, INITIAL, steps), StartRun(r, thread))
    requires var s := After(c, INITIAL, steps);
      earlier in s.runs && s.runs[earlier].thread == thread && s.runs[earlier].control.cancelled
    ensures ActiveOfRun(After(c, INITIAL, steps).table.rows, earlier) == {}
  {
    ReleasedIsClean(c, steps, earlier);
  }

  // ---- What goes wrong when an operation ends by an exception ----

  lemma Extend(c: Config, steps: seq<Step>, s: State, step: Step) returns (steps': seq<Step>, s': State)
    requires s == After(c, INITIAL, steps)
    ensures steps' == steps + [step] && s' == Next(c, s, step) && s' == After(c, INITIAL, steps')
  {
    AfterAppend(c, INITIAL, steps, step);
    steps', s' := steps + [step], Next(c, s, step);
  }

  // The one run, tool thread and job of the scenario below.
  const SMALL: Config := Config(1, 0, (w: string) => 1)
  const REQUEST: Request := Request("tenant", "workspace", "true", 60, 1000, Some("run"))

  function Scene(table: Table, locks: map<int, Holder>, tools: map<nat, Tool>, run: Run): State {
    State(table, locks, tools, map[], map[], map["run" := run])
  }

  function SceneRun(state: RC.RunState, cancelled: bool, operations: int, phase: CancelPhase, orphans: set<JobId>, ended: bool): Run {
    Run("thread", RC.Control(state, [], cancelled, operations), true, phase, orphans, ended, false, ended)
  }

  lemma RunStarted() returns (steps: seq<Step>)
    ensures After(SMALL, INITIAL, steps) == Scene(Table(map[], {}), map[], map[0 := Tool(REQUEST, true, Outside)],
      SceneRun(RC.Preparing, false, 0, Live, {}, false).(published := false))
  {
    var s;
    steps, s := Extend(SMALL, [], INITIAL, ByOwner(StartRun("run", "thread")));
    assert s.tools == map[] && "run" in s.runs;
    steps, s := Extend(SMALL, steps, s, ByTool(Spawn(0, REQUEST, true)));
  }

  lemma OperationEntered() returns (steps: seq<Step>)
    ensures After(SMALL, INITIAL, steps) ==
      Scene(Table(map[], {}), map[], map[0 := Tool(REQUEST, true, Ready)], SceneRun(RC.Preparing, false, 1, Live, {}, false))
  {
    steps := RunStarted();
    var s := After(SMALL, INITIAL, steps);
    steps, s := Extend(SMALL, steps, s, ByTool(Publish(0)));
    steps, s := Extend(SMALL, steps, s, ByTool(Enter(0)));
  }

  lemma RunStopped() returns (steps: seq<Step>)
    ensures After(SMALL, INITIAL, steps) ==
      Scene(Table(map[], {}), map[], map[0 := Tool(REQUEST, true, Ready)], SceneRun(RC.Finalizing, true, 1, Cancelling, {}, false))
  {
    steps := OperationEntered();
    var s := After(SMALL, INITIAL, steps);
    steps, s := Extend(SMALL, steps, s, ByOwner(Control("run", RC.Stop)));
    steps, s := Extend(SMALL, steps, s, ByOwner(Finalize("run", false)));
  }

  lemma RowsMarked() returns (steps: seq<Step>)
    ensures After(SMALL, INITIAL, steps) ==
      Scene(Table(map[], {}), map[], map[0 := Tool(REQUEST, true, Ready)], SceneRun(RC.Finalizing, true, 1, Marked, {}, false))
  {
    steps := RunStopped();
    var s := After(SMALL, INITIAL, steps);
    steps, s := Extend(SMALL, steps, s, ByOwner(CancelMark("run", 0)));
    assert s.table.rows == map[];
  }

  lemma CountedZero() returns (steps: seq<Step>)
    ensures After(SMALL, INITIAL, steps) ==
      Scene(Table(map[], {}), map[], map[0 := Tool(REQUEST, true, Ready)], SceneRun(RC.Finalizing, true, 1, CountedActive(0), {}, false))
  {
    steps := RowsMarked();
    var s := After(SMALL, INITIAL, steps);
    assert ActiveOfRun(s.table.rows, "run") == {};
    steps, s := Extend(SMALL, steps, s, ByOwner(CancelCount("run")));
  }

  lemma JobAdmitted() returns (steps: seq<Step>)
    ensures After(SMALL, INITIAL, steps) ==
      Scene(Table(map[], {}), map[0 := ToolTx(0), 1 := ToolTx(0)], map[0 := Tool(REQUEST, true, Counted)],
        SceneRun(RC.Finalizing, true, 1, CountedActive(0), {}, false))
  {
    steps := CountedZero();
    var s := After(SMALL, INITIAL, steps);
    steps, s := Extend(SMALL, steps, s, ByTool(TakeAdmission(0)));
    steps, s := Extend(SMALL, steps, s, ByTool(TryWorkspace(0)));
    assert ActiveIds(s.table.rows) == {};
    steps, s := Extend(SMALL, steps, s, ByTool(Count(0)));
  }

  lemma JobCommitted() returns (steps: seq<Step>)
    ensures After(SMALL, INITIAL, steps) == Scene(Table(map[7 := NewRow(REQUEST, 0)], {7}), map[],
      map[0 := Tool(REQUEST, true, Waiting(7))], SceneRun(RC.Finalizing, true, 1, CountedActive(0), {}, false))
  {
    steps := JobAdmitted();
    var s := After(SMALL, INITIAL, steps);
    steps, s := Extend(SMALL, steps, s, ByTool(InsertRow(0, 7, 0)));
    steps, s := Extend(SMALL, steps, s, ByTool(Commit(0)));
  }

  lemma JobAbandoned() returns (steps: seq<Step>)
    ensures After(SMALL, INITIAL, steps) ==
      Scene(Table(map[7 := NewRow(REQUEST, 0)], {7}), map[], map[], SceneRun(RC.Finalizing, true, 0, CountedActive(0), {7}, false))
  {
    steps := JobCommitted();
    var s := After(SMALL, INITIAL, steps);
    assert s.tools - {0} == map[] && s.runs["run"].orphans + {7} == {7};
    assert LeaveOperation(s, 0, {7}).runs == map["run" := SceneRun(RC.Finalizing, true, 0, CountedActive(0), {7}, false)];
    steps, s := Extend(SMALL, steps, s, ByTool(Raise(0)));
  }

  lemma RunConfirmed() returns (steps: seq<Step>)
    ensures After(SMALL, INITIAL, steps) ==
      Scene(Table(map[7 := NewRow(REQUEST, 0)], {7}), map[], map[], SceneRun(RC.Finalizing, true, 0, Confirmed, {7}, false))
  {
    steps := JobAbandoned();
    var s := After(SMALL, INITIAL, steps);
    steps, s := Extend(SMALL, steps, s, ByOwner(ReadOperations("run")));
  }

  lemma RunEnded() returns (steps: seq<Step>)
    ensures After(SMALL, INITIAL, steps) == Scene(Table(map[7 := NewRow(REQUEST, 0)], {7}), map[], map[],
      SceneRun(RC.Cancelled, true, 0, Confirmed, {7}, true).(released := false))
  {
    steps := RunConfirmed();
    var s := After(SMALL, INITIAL, steps);
    steps, s := Extend(SMALL, steps, s, ByOwner(EndFinalize("run", RC.Cancelled)));
  }

  lemma RunReleased() returns (steps: seq<Step>)
    ensures After(SMALL, INITIAL, steps) ==
      Scene(Table(map[7 := NewRow(REQUEST, 0)], {7}), map[], map[], SceneRun(RC.Cancelled, true, 0, Confirmed, {7}, true))
  {
    steps := RunEnded();
    var s := After(SMALL, INITIAL, steps);
    steps, s := Extend(SMALL, steps, s, ByOwner(Close("run")));
  }

  /**
   `execute` of the backend turns any exception into a result, so a database
   error while polling leaves the bracket with the row still queued. When that
   happens between the two reads of `_cancel_sandbox`, the cancellation is
   confirmed, the thread released, and a worker slot then starts the job.
   */
  lemma AbandonedJobStartsAfterConfirmation() returns (steps: seq<Step>)
    ensures var s := After(SMALL, INITIAL, steps);
      && "run" in s.runs && s.runs["run"].phase.Confirmed? && s.runs["run"].released
      && 7 in ActiveOfRun(s.table.rows, "run") && s.table.rows[7].outcome.status.Running?
  {
    steps := RunReleased();
    var s := After(SMALL, INITIAL, steps);
    steps, s := Extend(SMALL, steps, s, ByWorker(SlotClaim(0, 7, 0, {})));
  }
}
