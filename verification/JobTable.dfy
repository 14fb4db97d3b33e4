/**
 The `sandbox_jobs` table and every SQL statement that changes it.

 Each statement is one atomic step that re-tests its own WHERE clause, so a run
 of the whole system is a sequence of `JobStep`s. Rows only ever move forward,
 and a cancellation request always wins.
 */
module JobTable {
  import opened Wrappers

  type JobId = nat

  // Microseconds on one clock.
  type Instant = int

  const CLAIM_DEADLINE: int := 15_000_000

  datatype Status = Queued | Running | Completed | Failed | TimedOut | Cancelled
  {
    predicate Active() { Queued? || Running? }
  }

  // The columns a row is created with and never changes.
  datatype Request = Request(
    tenant: string,
    workspace: string,
    command: string,
    timeoutSeconds: nat,
    maxOutputBytes: nat,
    run: Option<string>)

  datatype Outcome = Outcome(
    status: Status,
    output: string,
    exitCode: Option<int>,
    truncated: bool,
    artifacts: seq<string>)

  datatype Row = Row(
    request: Request,
    createdAt: Instant,
    outcome: Outcome,
    cancelRequested: bool,
    startedAt: Option<Instant>,
    finishedAt: Option<Instant>)
  {
    predicate Active() { outcome.status.Active() }

    predicate Queued() { outcome.status.Queued? }
  }

  type Rows = map<JobId, Row>

  // `used` is every identifier ever issued: a fresh uuid4 is never one of them.
  datatype Table = Table(rows: Rows, used: set<JobId>)

  datatype JobStep =
    | Insert(id: JobId, request: Request, now: Instant)
    | Claim(id: JobId, now: Instant, skipped: set<JobId>)
    | Finish(id: JobId, outcome: Outcome, now: Instant)
    | CancelRun(run: string, now: Instant)
    | FailActive(output: string, now: Instant)
    | FailStale(now: Instant)
    | FailQueued(id: JobId, output: string, now: Instant)
    | Cleanup(olderThan: Instant)

  // ---- Row-level effect of each statement ----

  function NewRow(request: Request, now: Instant): Row {
    Row(request, now, Outcome(Queued, "", None, false, []), false, None, None)
  }

  function ClaimRow(r: Row, now: Instant): Row {
    r.(outcome := r.outcome.(status := Running), startedAt := Some(now))
  }

  function FinishRow(r: Row, outcome: Outcome, now: Instant): Row {
    if !r.Active() then r
    else if r.cancelRequested then
      r.(outcome := outcome.(status := Cancelled, artifacts := []), finishedAt := Some(now))
    else
      r.(outcome := outcome, finishedAt := Some(now))
  }

  function CancelRow(r: Row, run: string, now: Instant): Row {
    if r.request.run != Some(run) || !r.Active() then r
    else if r.Queued() then
      r.(cancelRequested := true, outcome := r.outcome.(status := Cancelled), finishedAt := Some(now))
    else
      r.(cancelRequested := true)
  }

  function FailActiveRow(r: Row, output: string, now: Instant): Row {
    if !r.Active() then r
    else
      r.(outcome := r.outcome.(status := if r.cancelRequested then Cancelled else Failed, output := output),
      finishedAt := Some(now))
  }

  function FailQueuedRow(r: Row, output: string, now: Instant): Row {
    if !r.Queued() then r
    else r.(outcome := r.outcome.(status := Failed, output := output), finishedAt := Some(now))
  }

  function FailStaleRow(r: Row, now: Instant): Row {
    if r.createdAt < now - CLAIM_DEADLINE then FailQueuedRow(r, "Sandbox worker was unavailable", now) else r
  }

  predicate Expired(r: Row, olderThan: Instant) {
    !r.Active() && r.finishedAt.Some? && r.finishedAt.value < olderThan
  }

  // ---- Queries ----

  function ActiveIds(rows: Rows): set<JobId> {
    set id | id in rows && rows[id].Active()
  }

  function ActiveOfRun(rows: Rows, run: string): set<JobId> {
    set id | id in rows && rows[id].Active() && rows[id].request.run == Some(run)
  }

  // The two partial unique indexes over active rows.
  predicate Conflicts(rows: Rows, request: Request) {
    exists id | id in rows ::
      rows[id].Active() && (rows[id].request.tenant == request.tenant || rows[id].request.workspace == request.workspace)
  }

  // The rows `claim` may take when other transactions hold the row locks in `skipped`.
  predicate Claimable(rows: Rows, id: JobId, now: Instant, skipped: set<JobId>) {
    && id in rows
    && id !in skipped
    && rows[id].Queued()
    && !rows[id].cancelRequested
    && rows[id].createdAt >= now - CLAIM_DEADLINE
  }

  predicate OldestClaimable(rows: Rows, id: JobId, now: Instant, skipped: set<JobId>) {
    && Claimable(rows, id, now, skipped)
    && forall other | other in rows :: Claimable(rows, other, now, skipped) ==> rows[id].createdAt <= rows[other].createdAt
  }

  // ---- Statements ----

  function Effect(rows: Rows, step: JobStep): Rows {
    match step
    case Insert(id, request, now) =>
      if id in rows || Conflicts(rows, request) then rows else rows[id := NewRow(request, now)]
    case Claim(id, now, skipped) =>
      if OldestClaimable(rows, id, now, skipped) then rows[id := ClaimRow(rows[id], now)] else rows
    case Finish(id, outcome, now) =>
      if id in rows && !outcome.status.Active() then rows[id := FinishRow(rows[id], outcome, now)] else rows
    case CancelRun(run, now) => map id | id in rows :: CancelRow(rows[id], run, now)
    case FailActive(output, now) => map id | id in rows :: FailActiveRow(rows[id], output, now)
    case FailStale(now) => map id | id in rows :: FailStaleRow(rows[id], now)
    case FailQueued(id, output, now) =>
      if id in rows then rows[id := FailQueuedRow(rows[id], output, now)] else rows
    case Cleanup(olderThan) => map id | id in rows && !Expired(rows[id], olderThan) :: rows[id]
  }

  function Apply(t: Table, step: JobStep): Table {
    if step.Insert? then
      if step.id in t.used then t else Table(Effect(t.rows, step), t.used + {step.id})
    else
      Table(Effect(t.rows, step), t.used)
  }

  function ApplyAll(t: Table, steps: seq<JobStep>): Table
    decreases |steps|
  {
    if steps == [] then t else ApplyAll(Apply(t, steps[0]), steps[1..])
  }

  // ---- What every statement keeps ----

  ghost predicate RowInv(r: Row) {
    && (r.cancelRequested ==> r.outcome.status.Running? || (r.outcome.status.Cancelled? && r.outcome.artifacts == []))
    && (r.Active() ==> r.outcome == Outcome(r.outcome.status, "", None, false, []) && r.finishedAt == None)
    && (!r.Active() ==> r.finishedAt.Some?)
    && (r.Queued() ==> r.startedAt == None)
  }

  ghost predicate TableInv(t: Table) {
    && (forall id | id in t.rows :: RowInv(t.rows[id]))
    && t.rows.Keys <= t.used
  }

  function Rank(s: Status): nat {
    match s
    case Queued => 0
    case Running => 1
    case _ => 2
  }

  ghost predicate Forward(r: Row, r': Row) {
    && r'.request == r.request
    && r'.createdAt == r.createdAt
    && Rank(r.outcome.status) <= Rank(r'.outcome.status)
    && (!r.Active() ==> r' == r)
    && (r.cancelRequested ==> r'.cancelRequested)
  }

  // From `t` to `t'`: surviving rows moved forward and every other row of `t'`
  // has an identifier `t` had never issued, so a deleted row never comes back.
  ghost predicate Evolves(t: Table, t': Table) {
    && t.used <= t'.used
    && (forall id | id in t.rows && id in t'.rows :: Forward(t.rows[id], t'.rows[id]))
    && (forall id | id in t'.rows && id !in t.rows :: id !in t.used)
  }

  // Every row-level effect is one step forward.
  lemma RowsMoveForward(r: Row, outcome: Outcome, run: string, output: string, now: Instant)
    requires RowInv(r)
    ensures RowInv(NewRow(r.request, now))
    ensures r.Queued() && !r.cancelRequested ==> RowInv(ClaimRow(r, now)) && Forward(r, ClaimRow(r, now))
    ensures !outcome.status.Active() ==> RowInv(FinishRow(r, outcome, now)) && Forward(r, FinishRow(r, outcome, now))
    ensures RowInv(CancelRow(r, run, now)) && Forward(r, CancelRow(r, run, now))
    ensures RowInv(FailActiveRow(r, output, now)) && Forward(r, FailActiveRow(r, output, now))
    ensures RowInv(FailQueuedRow(r, output, now)) && Forward(r, FailQueuedRow(r, output, now))
    ensures RowInv(FailStaleRow(r, now)) && Forward(r, FailStaleRow(r, now))
  {
  }

  // The row that statement `step` leaves in place of `r`, if it keeps the row at all.
  lemma RowAfter(t: Table, step: JobStep, id: JobId)
    requires TableInv(t) && id in t.rows
    ensures var rows := Apply(t, step).rows;
      if id in rows then RowInv(rows[id]) && Forward(t.rows[id], rows[id])
      else step.Cleanup? && !t.rows[id].Active()
  {
    var r := t.rows[id];
    match step
    case Insert(_, _, _) =>
    case Claim(_, now, _) => RowsMoveForward(r, r.outcome, "", "", now);
    case Finish(_, outcome, now) => RowsMoveForward(r, outcome, "", "", now);
    case CancelRun(run, now) => RowsMoveForward(r, r.outcome, run, "", now);
    case FailActive(output, now) => RowsMoveForward(r, r.outcome, "", output, now);
    case FailStale(now) => RowsMoveForward(r, r.outcome, "", "", now);
    case FailQueued(_, output, now) => RowsMoveForward(r, r.outcome, "", output, now);
    case Cleanup(_) =>
  }

  lemma KeysAfter(t: Table, step: JobStep)
    requires TableInv(t)
    ensures Apply(t, step).rows.Keys <= t.rows.Keys + (if step.Insert? && step.id !in t.used then {step.id} else {})
    ensures Apply(t, step).used == t.used + (if step.Insert? then {step.id} else {})
  {
  }

  /** One statement keeps the table invariant, moves rows only forward and deletes only terminal rows. */
  lemma StepEvolves(t: Table, step: JobStep)
    requires TableInv(t)
    ensures TableInv(Apply(t, step))
    ensures Evolves(t, Apply(t, step))
    ensures forall id | id in t.rows && id !in Apply(t, step).rows :: !t.rows[id].Active() && step.Cleanup?
  {
    var t' := Apply(t, step);
    KeysAfter(t, step);
    forall id | id in t.rows
      ensures if id in t'.rows then RowInv(t'.rows[id]) && Forward(t.rows[id], t'.rows[id])
        else step.Cleanup? && !t.rows[id].Active()
    {
      RowAfter(t, step, id);
    }
    forall id | id in t'.rows && id !in t.rows
      ensures id !in t.used && RowInv(t'.rows[id])
    {
      assert step.Insert? && id == step.id;
    }
  }

  lemma EvolvesTransitive(t: Table, t': Table, t'': Table)
    requires TableInv(t) && Evolves(t, t') && Evolves(t', t'')
    ensures Evolves(t, t'')
  {
    forall id | id in t.rows && id in t''.rows
      ensures Forward(t.rows[id], t''.rows[id])
    {
      assert id in t'.rows;
    }
  }

  /** Over every run of statements, rows only move forward and a terminal row never changes. */
  lemma {:induction false} RunEvolves(t: Table, steps: seq<JobStep>)
    requires TableInv(t)
    ensures TableInv(ApplyAll(t, steps))
    ensures Evolves(t, ApplyAll(t, steps))
    decreases |steps|
  {
    if steps != [] {
      StepEvolves(t, steps[0]);
      RunEvolves(Apply(t, steps[0]), steps[1..]);
      EvolvesTransitive(t, Apply(t, steps[0]), ApplyAll(t, steps));
    }
  }

  lemma {:induction false} ApplyAllAppend(t: Table, a: seq<JobStep>, b: seq<JobStep>)
    ensures ApplyAll(t, a + b) == ApplyAll(ApplyAll(t, a), b)
    decreases |a|
  {
    if a == [] {
      assert a + b == b;
    } else {
      assert (a + b)[0] == a[0] && (a + b)[1..] == a[1..] + b;
      ApplyAllAppend(Apply(t, a[0]), a[1..], b);
    }
  }

  // The statement `step` hands row `id` to a worker slot.
  ghost predicate Claims(t: Table, step: JobStep, id: JobId) {
    step.Claim? && step.id == id && OldestClaimable(t.rows, id, step.now, step.skipped)
  }

  /** Over all runs each row is claimed at most once, even after `cleanup` deleted it. */
  lemma ClaimedAtMostOnce(t: Table, steps: seq<JobStep>, i: nat, j: nat, id: JobId)
    requires TableInv(t) && i < j < |steps|
    requires Claims(ApplyAll(t, steps[..i]), steps[i], id)
    ensures !Claims(ApplyAll(t, steps[..j]), steps[j], id)
  {
    var before := ApplyAll(t, steps[..i]);
    RunEvolves(t, steps[..i]);
    var after := Apply(before, steps[i]);
    StepEvolves(before, steps[i]);
    assert steps[..j] == steps[..i] + ([steps[i]] + steps[i + 1..j]);
    ApplyAllAppend(t, steps[..i], [steps[i]] + steps[i + 1..j]);
    assert ([steps[i]] + steps[i + 1..j])[1..] == steps[i + 1..j];
    RunEvolves(after, steps[i + 1..j]);
    assert ApplyAll(t, steps[..j]) == ApplyAll(after, steps[i + 1..j]);
    assert id in after.rows && after.rows[id].outcome.status.Running?;
  }

  /** Cancellation wins: once requested on an active row, that row can only end `Cancelled` without artifacts. */
  lemma CancellationWins(t: Table, steps: seq<JobStep>, id: JobId)
    requires TableInv(t) && id in t.rows && t.rows[id].cancelRequested
    ensures var t' := ApplyAll(t, steps);
      id in t'.rows && !t'.rows[id].Active() ==>
        t'.rows[id].outcome.status.Cancelled? && t'.rows[id].outcome.artifacts == []
  {
    RunEvolves(t, steps);
  }

  // ---- How the statements move the active rows ----

  // The statement ends the active row `row`.
  predicate Ends(statement: JobStep, id: JobId, row: Row) {
    match statement
    case Finish(job, outcome, _) => job == id && !outcome.status.Active()
    case CancelRun(run, _) => row.request.run == Some(run) && row.Queued()
    case FailActive(_, _) => true
    case FailStale(now) => row.Queued() && row.createdAt < now - CLAIM_DEADLINE
    case FailQueued(job, _, _) => job == id && row.Queued()
    case _ => false
  }

  lemma EndsExactly(t: Table, statement: JobStep, id: JobId)
    requires id in ActiveIds(t.rows)
    ensures id !in ActiveIds(Apply(t, statement).rows) <==> Ends(statement, id, t.rows[id])
  {
  }

  lemma SettledByEvolving(t: Table, t': Table, id: JobId)
    requires Evolves(t, t') && id in t.used && id !in ActiveIds(t.rows)
    ensures id !in ActiveIds(t'.rows)
  {
  }

  /** After `cancel_run`, every active row of the run is running and marked; no queued row is left to claim. */
  lemma CancelRunLeavesOnlyRunning(rows: Rows, run: string, now: Instant, id: JobId)
    requires id in ActiveOfRun(Effect(rows, CancelRun(run, now)), run)
    ensures id in rows && rows[id].outcome.status.Running?
    ensures Effect(rows, CancelRun(run, now))[id].cancelRequested
  {
  }
}
