/**
 Worker slots inside the whole protocol: rows only move forward, no job is run
 by two slots, and a row ends `Cancelled` only when cancellation was requested.
 */
module WorkerSlots {
  import opened Wrappers
  import opened JobTable
  import opened SandboxProtocol
  import X = Executor

  ghost predicate SlotInv(s: State, w: nat)
    requires w in s.slots
  {
    var slot := s.slots[w];
    && slot.job in s.table.used
    && (slot.job in s.table.rows ==> !s.table.rows[slot.job].Queued())
    && (true in slot.looks && slot.job in s.table.rows ==> s.table.rows[slot.job].cancelRequested)
  }

  ghost predicate Honest(rows: Rows) {
    forall id | id in rows :: rows[id].outcome.status.Cancelled? ==> rows[id].cancelRequested
  }

  ghost predicate SlotsInv(s: State) {
    && (forall w | w in s.slots :: SlotInv(s, w))
    && (forall v, w | v in s.slots && w in s.slots && v != w :: s.slots[v].job != s.slots[w].job)
    && Honest(s.table.rows)
  }

  // The statement a step issues, if any.
  function Statement(s: State, step: Step): Option<JobStep> {
    match step
    case ByTool(Commit(p)) =>
      if p in s.tools && s.tools[p].phase.Inserted? then
        Some(Insert(s.tools[p].phase.id, s.tools[p].request, s.tools[p].phase.now))
      else None
    case ByWorker(SlotClaim(_, id, now, skipped)) => Some(JobStep.Claim(id, now, skipped))
    case ByWorker(SlotFinish(w, run, now)) => if WorkerEnabled(s, step.worker) then Some(FinishOf(s.slots[w].job, run, now)) else None
    case ByWorker(Restart(output, now)) => Some(JobStep.FailActive(output, now))
    case ByWorker(Background(statement)) => Some(statement)
    case ByOwner(CancelMark(r, now)) => if r in s.runs && s.runs[r].published then Some(JobStep.CancelRun(r, now)) else None
    case _ => None
  }

  lemma ToolTable(c: Config, s: State, step: ToolStep)
    requires ToolEnabled(c, s, step)
    ensures var statement := Statement(s, ByTool(step)); var s' := ToolEffect(c, s, step);
      && s'.slots == s.slots
      && s'.table == if statement.Some? then JobTable.Apply(s.table, statement.value) else s.table
  {
  }

  lemma RunTable(s: State, step: OwnerStep)
    requires OwnerEnabled(s, step)
    ensures var statement := Statement(s, ByOwner(step)); var s' := OwnerEffect(s, step);
      && s'.slots == s.slots
      && s'.table == if statement.Some? then JobTable.Apply(s.table, statement.value) else s.table
  {
  }

  /** Every step of the system issues at most one statement of the table. */
  lemma OneStatement(c: Config, s: State, step: Step)
    requires Enabled(c, s, step)
    ensures var statement := Statement(s, step);
      Next(c, s, step).table == if statement.Some? then JobTable.Apply(s.table, statement.value) else s.table
    ensures !step.ByWorker? ==> Next(c, s, step).slots == s.slots
  {
    match step {
    case ByTool(tool) => ToolTable(c, s, tool);
    case ByOwner(owner) => RunTable(s, owner);
    case _ =>
    }
  }

  lemma EvolvesReflexive(t: Table)
    ensures Evolves(t, t)
  {
  }

  lemma StepMovesForward(c: Config, s: State, step: Step)
    requires TableInv(s.table)
    ensures TableInv(Next(c, s, step).table) && Evolves(s.table, Next(c, s, step).table)
  {
    EvolvesReflexive(s.table);
    if Enabled(c, s, step) {
      OneStatement(c, s, step);
      if Statement(s, step).Some? {
        StepEvolves(s.table, Statement(s, step).value);
      }
    }
  }

  /** Over every interleaving, surviving rows only move forward and a deleted row never comes back. */
  lemma {:induction false} RowsMoveForward(c: Config, s: State, steps: seq<Step>)
    requires TableInv(s.table)
    ensures TableInv(After(c, s, steps).table) && Evolves(s.table, After(c, s, steps).table)
    decreases |steps|
  {
    EvolvesReflexive(s.table);
    if steps != [] {
      StepMovesForward(c, s, steps[0]);
      RowsMoveForward(c, Next(c, s, steps[0]), steps[1..]);
      EvolvesTransitive(s.table, Next(c, s, steps[0]).table, After(c, s, steps).table);
    }
  }

  // What a slot knows about its job survives every later statement.
  lemma SlotKept(t: Table, t': Table, id: JobId)
    requires Evolves(t, t') && id in t.used
    ensures id in t'.used
    ensures (id in t.rows ==> !t.rows[id].Queued()) ==> (id in t'.rows ==> !t'.rows[id].Queued())
    ensures (id in t.rows ==> t.rows[id].cancelRequested) ==> (id in t'.rows ==> t'.rows[id].cancelRequested)
  {
  }

  // Only a finishing statement with outcome `Cancelled` can record one unasked.
  lemma StatementIsHonest(t: Table, statement: JobStep)
    requires Honest(t.rows)
    requires statement.Finish? && statement.outcome.status.Cancelled? && statement.id in t.rows ==> t.rows[statement.id].cancelRequested
    ensures Honest(JobTable.Apply(t, statement).rows)
  {
    var t' := JobTable.Apply(t, statement);
    forall id | id in t'.rows && t'.rows[id].outcome.status.Cancelled?
      ensures t'.rows[id].cancelRequested
    {
      if id in t.rows {
        RowIsHonest(t, statement, id);
      }
    }
  }

  lemma RowIsHonest(t: Table, statement: JobStep, id: JobId)
    requires id in t.rows && (t.rows[id].outcome.status.Cancelled? ==> t.rows[id].cancelRequested)
    requires statement.Finish? && statement.outcome.status.Cancelled? && statement.id in t.rows ==> t.rows[statement.id].cancelRequested
    requires id in JobTable.Apply(t, statement).rows
    ensures JobTable.Apply(t, statement).rows[id].outcome.status.Cancelled? ==> JobTable.Apply(t, statement).rows[id].cancelRequested
  {
  }

  // A slot that reports `Cancelled` looked at the row last when it was marked, and marks stay.
  lemma FinishIsHonest(s: State, w: nat, run: X.Run, now: Instant)
    requires SlotsInv(s) && WorkerEnabled(s, SlotFinish(w, run, now))
    ensures var statement := FinishOf(s.slots[w].job, run, now);
      statement.outcome.status.Cancelled? && statement.id in s.table.rows ==> s.table.rows[statement.id].cancelRequested
  {
    assert SlotInv(s, w);
    if X.RunSpec(run).Ok? && X.RunSpec(run).value.status.Cancelled? {
      X.CancelledWasSeen(run, s.slots[w].polled, s.slots[w].looks);
      assert s.slots[w].looks[|s.slots[w].looks| - 1] in s.slots[w].looks;
    }
  }

  lemma RowsStayHonest(c: Config, s: State, step: Step)
    requires SlotsInv(s) && Enabled(c, s, step)
    ensures Honest(Next(c, s, step).table.rows)
  {
    OneStatement(c, s, step);
    if Statement(s, step).Some? {
      if step.ByWorker? && step.worker.SlotFinish? {
        FinishIsHonest(s, step.worker.w, step.worker.run, step.worker.now);
      }
      StatementIsHonest(s.table, Statement(s, step).value);
    }
  }

  // Slots that keep their jobs keep what they know.
  lemma SlotStays(s: State, s': State, w: nat)
    requires Evolves(s.table, s'.table) && w in s.slots && SlotInv(s, w)
    requires w in s'.slots && s'.slots[w].job == s.slots[w].job
    requires true in s'.slots[w].looks && s.slots[w].job in s.table.rows ==> s.table.rows[s.slots[w].job].cancelRequested
    ensures SlotInv(s', w)
  {
    SlotKept(s.table, s'.table, s.slots[w].job);
  }

  // A claimed row was queued, so no slot has its job.
  lemma ClaimIsNew(s: State, step: WorkerStep)
    requires TableInv(s.table) && SlotsInv(s) && WorkerEnabled(s, step) && step.SlotClaim?
    ensures forall v | v in s.slots :: s.slots[v].job != step.id
    ensures SlotInv(WorkerEffect(s, step), step.w)
  {
    forall v | v in s.slots
      ensures s.slots[v].job != step.id
    {
      assert SlotInv(s, v);
    }
  }

  lemma OldSlotsKeep(s: State, step: WorkerStep, w: nat)
    requires SlotsInv(s) && WorkerEnabled(s, step) && Evolves(s.table, WorkerEffect(s, step).table)
    requires w in s.slots && w in WorkerEffect(s, step).slots
    ensures SlotInv(WorkerEffect(s, step), w) && WorkerEffect(s, step).slots[w].job == s.slots[w].job
  {
    assert SlotInv(s, w);
    if step.SlotPoll? && step.w == w {
      assert true in WorkerEffect(s, step).slots[w].looks ==>
        true in s.slots[w].looks || s.table.rows[s.slots[w].job].cancelRequested;
    }
    SlotStays(s, WorkerEffect(s, step), w);
  }

  lemma WorkerSlotsKeep(s: State, step: WorkerStep)
    requires TableInv(s.table) && SlotsInv(s) && WorkerEnabled(s, step) && Evolves(s.table, WorkerEffect(s, step).table)
    requires Honest(WorkerEffect(s, step).table.rows)
    ensures SlotsInv(WorkerEffect(s, step))
  {
    var s' := WorkerEffect(s, step);
    if step.SlotClaim? {
      ClaimIsNew(s, step);
    }
    forall w | w in s'.slots
      ensures SlotInv(s', w)
      ensures if w in s.slots then s'.slots[w].job == s.slots[w].job else step.SlotClaim? && w == step.w && s'.slots[w].job == step.id
    {
      if w in s.slots {
        OldSlotsKeep(s, step, w);
      }
    }
  }

  lemma SlotsKeep(c: Config, s: State, step: Step)
    requires TableInv(s.table) && SlotsInv(s) && Enabled(c, s, step)
    ensures SlotsInv(Next(c, s, step))
  {
    var s' := Next(c, s, step);
    StepMovesForward(c, s, step);
    RowsStayHonest(c, s, step);
    if step.ByWorker? {
      WorkerSlotsKeep(s, step.worker);
    } else {
      OneStatement(c, s, step);
      forall w | w in s'.slots
        ensures SlotInv(s', w)
      {
        SlotStays(s, s', w);
      }
    }
  }

  lemma {:induction false} RunsKeep(c: Config, s: State, steps: seq<Step>)
    requires TableInv(s.table) && SlotsInv(s)
    ensures SlotsInv(After(c, s, steps))
    decreases |steps|
  {
    if steps != [] {
      StepMovesForward(c, s, steps[0]);
      if Enabled(c, s, steps[0]) {
        SlotsKeep(c, s, steps[0]);
      }
      RunsKeep(c, Next(c, s, steps[0]), steps[1..]);
    }
  }

  /** In every reachable state a `Cancelled` row was asked to cancel, and no two slots run the same job. */
  lemma CancelledOnlyIfRequested(c: Config, steps: seq<Step>)
    ensures var s := After(c, INITIAL, steps);
      && (forall id | id in s.table.rows :: s.table.rows[id].outcome.status.Cancelled? ==> s.table.rows[id].cancelRequested)
      && (forall v, w | v in s.slots && w in s.slots && v != w :: s.slots[v].job != s.slots[w].job)
  {
    RunsKeep(c, INITIAL, steps);
  }
}
