/**
 The `SandboxJobs` class: each method issues statements of `JobTable` against
 the shared table. `Execute` polls in a loop while the rest of the system keeps
 changing the table between its own statements.
 */
module SandboxJobs {
  import opened Wrappers
  import opened JobTable
  import opened JobHistory

  datatype ExecutionStatus = Unavailable | Busy | Job(status: Status)

  datatype ExecutionResult = ExecutionResult(
    status: ExecutionStatus,
    output: string,
    job: Option<JobId>,
    exitCode: Option<int>,
    truncated: bool,
    artifacts: seq<string>)

  datatype FinishError = NotTerminal

  // One pass of the polling loop: the statements other processes issue while it
  // sleeps, the clock it then reads, and what happens before its next statement.
  datatype Tick = Tick(during: seq<JobStep>, now: Instant, between: seq<JobStep>)

  function ResultOf(id: JobId, r: Row): ExecutionResult {
    ExecutionResult(Job(r.outcome.status), r.outcome.output, Some(id), r.outcome.exitCode, r.outcome.truncated,
      r.outcome.artifacts)
  }

  function Refusal(status: ExecutionStatus, output: string): ExecutionResult {
    ExecutionResult(status, output, None, None, false, [])
  }

  function Lookup(rows: Rows, id: JobId): Option<Row> {
    if id in rows then Some(rows[id]) else None
  }

  predicate Over(rows: Rows, id: JobId) {
    id in rows ==> !rows[id].Active()
  }

  // A queued row that nobody cancelled and that is not past the claim deadline.
  predicate Waits(r: Row, now: Instant) {
    r.Queued() && !r.cancelRequested && now - r.createdAt <= CLAIM_DEADLINE
  }

  /** At any moment a queued row that nobody cancelled is either claimable or failed as stale, never both and never neither. */
  lemma ClaimableOrStale(t: Table, id: JobId, now: Instant)
    requires TableInv(t) && id in t.rows && t.rows[id].Queued()
    ensures Claimable(t.rows, id, now, {}) <==> Apply(t, FailStale(now)).rows[id].Queued()
    ensures !Claimable(t.rows, id, now, {}) ==> Apply(t, FailStale(now)).rows[id].outcome.status.Failed?
  {
    assert RowInv(t.rows[id]);
  }

  /** A terminal or deleted row stays terminal or deleted whatever statements follow. */
  lemma SettledForever(t: Table, steps: seq<JobStep>, id: JobId)
    requires TableInv(t) && id in t.used && Over(t.rows, id)
    ensures Over(ApplyAll(t, steps).rows, id)
    ensures id in ApplyAll(t, steps).used
    ensures id in ApplyAll(t, steps).rows ==> id in t.rows && ApplyAll(t, steps).rows[id] == t.rows[id]
  {
    RunEvolves(t, steps);
  }

  class SandboxJobs {
    const concurrency: int
    var rows: Rows
    var used: set<JobId>

    ghost predicate Valid()
      reads this
    {
      TableInv(Contents())
    }

    function Contents(): Table
      reads this
    {
      Table(rows, used)
    }

    constructor (concurrency: int)
      ensures Valid() && Contents() == Table(map[], {}) && this.concurrency == concurrency
    {
      this.concurrency := concurrency;
      rows, used := map[], {};
    }

    // Statements issued by every other process of the system.
    method Interleave(steps: seq<JobStep>)
      requires Valid()
      modifies this
      ensures Valid() && Evolves(old(Contents()), Contents())
      ensures Contents() == ApplyAll(old(Contents()), steps)
    {
      RunEvolves(Contents(), steps);
      var t := ApplyAll(Contents(), steps);
      rows, used := t.rows, t.used;
    }

    /** Admits a job only below capacity, with the workspace lock, and without a second active job of the tenant or workspace. */
    method Create(id: JobId, request: Request, workspaceLocked: bool, now: Instant) returns (record: Option<Row>)
      requires Valid() && id !in used
      modifies this
      ensures Valid()
      ensures record.Some? <==> workspaceLocked && |ActiveIds(old(rows))| < concurrency && !Conflicts(old(rows), request)
      ensures record.Some? <==> workspaceLocked && |ActiveIds(old(rows))| < concurrency && forall other | other in old(rows) && old(rows)[other].Active() ::
        old(rows)[other].request.tenant != request.tenant && old(rows)[other].request.workspace != request.workspace
      ensures record.Some? ==> record.value == NewRow(request, now) && Contents() == Apply(old(Contents()), Insert(id, request, now))
      ensures record.None? ==> rows == old(rows) && used == old(used)
    {
      if !workspaceLocked {
        return None;
      }
      if |ActiveIds(rows)| >= concurrency {
        return None;
      }
      if Conflicts(rows, request) {
        return None;
      }
      StepEvolves(Contents(), Insert(id, request, now));
      rows, used := rows[id := NewRow(request, now)], used + {id};
      return Some(rows[id]);
    }

    method Get(id: JobId) returns (record: Option<Row>)
      ensures record == Lookup(rows, id)
    {
      record := if id in rows then Some(rows[id]) else None;
    }

    /** Takes the oldest claimable row, and takes none only when there is none. */
    method Claim(now: Instant, skipped: set<JobId>) returns (claimed: Option<JobId>)
      requires Valid()
      modifies this`rows
      ensures Valid()
      ensures claimed.None? ==> rows == old(rows) && forall id :: !Claimable(rows, id, now, skipped)
      ensures claimed.Some? ==> OldestClaimable(old(rows), claimed.value, now, skipped)
      ensures claimed.Some? ==> Waits(old(rows)[claimed.value], now)
      ensures claimed.None? ==> forall id | id in rows && id !in skipped :: !Waits(rows[id], now)
      ensures claimed.Some? ==> Contents() == Apply(old(Contents()), JobStep.Claim(claimed.value, now, skipped))
    {
      claimed := None;
      var left := rows.Keys;
      while left != {}
        invariant left <= rows.Keys
        invariant claimed.Some? ==> Claimable(rows, claimed.value, now, skipped) && claimed.value !in left
        invariant forall id | id in rows && id !in left && Claimable(rows, id, now, skipped) ::
          claimed.Some? && rows[claimed.value].createdAt <= rows[id].createdAt
        decreases left
      {
        var id :| id in left;
        left := left - {id};
        if Claimable(rows, id, now, skipped) &&
          (claimed.None? || rows[id].createdAt < rows[claimed.value].createdAt)
        {
          claimed := Some(id);
        }
      }
      if claimed.Some? {
        StepEvolves(Contents(), JobStep.Claim(claimed.value, now, skipped));
        rows := rows[claimed.value := ClaimRow(rows[claimed.value], now)];
      }
    }

    /** Ends an active row; a row that is already terminal keeps its outcome and is read back instead. */
    method Finish(id: JobId, outcome: Outcome, now: Instant, between: seq<JobStep>)
      returns (record: Result<Option<Row>, FinishError>)
      requires Valid()
      modifies this
      ensures Valid() && Evolves(old(Contents()), Contents())
      ensures record.Err? <==> outcome.status.Active()
      ensures record.Err? ==> Contents() == old(Contents())
      ensures record.Ok? ==> record.value == Lookup(rows, id) && (id in old(used) ==> Over(rows, id))
      ensures record.Ok? ==>
        if id in old(rows) && old(rows)[id].Active() then Contents() == Apply(old(Contents()), JobStep.Finish(id, outcome, now))
        else Contents() == ApplyAll(old(Contents()), between)
      ensures record.Ok? && id in old(rows) && old(rows)[id].Active() ==>
        && rows.Keys == old(rows).Keys && (forall other | other in rows && other != id :: rows[other] == old(rows)[other])
        && rows[id].request == old(rows)[id].request && rows[id].finishedAt == Some(now)
        && rows[id].outcome == if old(rows)[id].cancelRequested then
            Outcome(Cancelled, outcome.output, outcome.exitCode, outcome.truncated, [])
          else outcome
    {
      if outcome.status.Active() {
        return Err(NotTerminal);
      }
      StepEvolves(Contents(), JobStep.Finish(id, outcome, now));
      if id in rows && rows[id].Active() {
        rows := rows[id := FinishRow(rows[id], outcome, now)];
        return Ok(Some(rows[id]));
      }
      if id in used {
        SettledForever(Contents(), between, id);
      }
      Interleave(between);
      var found := Get(id);
      return Ok(found);
    }

    /** Cancels queued rows of the run, marks running ones, and returns how many are still active. */
    method CancelRun(run: string, now: Instant) returns (count: nat)
      requires Valid()
      modifies this`rows
      ensures Valid()
      ensures Contents() == Apply(old(Contents()), JobStep.CancelRun(run, now))
      ensures count == |ActiveOfRun(rows, run)|
      ensures rows.Keys == old(rows).Keys
      ensures forall id | id in rows && old(rows)[id].request.run != Some(run) :: rows[id] == old(rows)[id]
      ensures forall id | id in rows && old(rows)[id].request.run == Some(run) ::
        if old(rows)[id].Queued() then rows[id].outcome.status.Cancelled? && rows[id].finishedAt == Some(now) && rows[id].cancelRequested
        else if old(rows)[id].Active() then rows[id] == old(rows)[id].(cancelRequested := true)
        else rows[id] == old(rows)[id]
    {
      StepEvolves(Contents(), JobStep.CancelRun(run, now));
      rows := map id | id in rows :: CancelRow(rows[id], run, now);
      count := |ActiveOfRun(rows, run)|;
    }

    /** Ends every row a previous worker process left active, and counts them. */
    method FailActive(output: string, now: Instant) returns (count: nat)
      requires Valid()
      modifies this`rows
      ensures Valid() && ActiveIds(rows) == {}
      ensures Contents() == Apply(old(Contents()), JobStep.FailActive(output, now))
      ensures count == |ActiveIds(old(rows))|
      ensures rows.Keys == old(rows).Keys
      ensures forall id | id in rows :: if !old(rows)[id].Active() then rows[id] == old(rows)[id] else
        && rows[id].outcome == Outcome(if old(rows)[id].cancelRequested then Cancelled else Failed, output, None, false, [])
        && rows[id].finishedAt == Some(now)
    {
      StepEvolves(Contents(), JobStep.FailActive(output, now));
      count := |ActiveIds(rows)|;
      rows := map id | id in rows :: FailActiveRow(rows[id], output, now);
    }

    /** Afterwards no queued row is older than the claim deadline. */
    method FailStaleQueued(now: Instant) returns (count: nat)
      requires Valid()
      modifies this`rows
      ensures Valid()
      ensures Contents() == Apply(old(Contents()), JobStep.FailStale(now))
      ensures forall id | id in rows && rows[id].Queued() :: rows[id].createdAt >= now - CLAIM_DEADLINE
      ensures count == |set id | id in old(rows) && old(rows)[id].Queued() && old(rows)[id].createdAt < now - CLAIM_DEADLINE|
    {
      StepEvolves(Contents(), JobStep.FailStale(now));
      var stale := set id | id in rows && rows[id].Queued() && rows[id].createdAt < now - CLAIM_DEADLINE;
      count := |stale|;
      rows := map id | id in rows :: FailStaleRow(rows[id], now);
    }

    method FailQueued(id: JobId, output: string, now: Instant) returns (record: Option<Row>)
      requires Valid()
      modifies this`rows
      ensures Valid()
      ensures Contents() == Apply(old(Contents()), JobStep.FailQueued(id, output, now))
      ensures record.Some? <==> id in old(rows) && old(rows)[id].Queued()
      ensures record.Some? ==> id in rows && record.value == rows[id] && rows == old(rows)[id := rows[id]]
      ensures record.Some? ==> rows[id].outcome == Outcome(Failed, output, None, false, []) && rows[id].finishedAt == Some(now)
      ensures record.None? ==> rows == old(rows)
    {
      StepEvolves(Contents(), JobStep.FailQueued(id, output, now));
      if id !in rows || !rows[id].Queued() {
        assert id in rows ==> rows[id := FailQueuedRow(rows[id], output, now)] == rows;
        return None;
      }
      rows := rows[id := FailQueuedRow(rows[id], output, now)];
      return Some(rows[id]);
    }

    /** Deletes terminal rows only, and counts them. */
    method Cleanup(olderThan: Instant) returns (count: nat)
      requires Valid()
      modifies this`rows
      ensures Valid()
      ensures Contents() == Apply(old(Contents()), JobStep.Cleanup(olderThan))
      ensures ActiveIds(rows) == ActiveIds(old(rows))
      ensures forall id | id in old(rows) ::
        if !old(rows)[id].Active() && old(rows)[id].finishedAt.value < olderThan then id !in rows else id in rows && rows[id] == old(rows)[id]
      ensures count == |old(rows).Keys - rows.Keys|
    {
      StepEvolves(Contents(), JobStep.Cleanup(olderThan));
      var expired := set id | id in rows && Expired(rows[id], olderThan);
      count := |expired|;
      ghost var before := rows;
      rows := map id | id in rows && !Expired(rows[id], olderThan) :: rows[id];
      assert expired == before.Keys - rows.Keys;
    }

    /**
     Submits one command and waits. Whatever the other processes do meanwhile,
     and however long the wait lasts, the submitted row is terminal or gone on
     return, and the result carries the output, exit code, truncation and artifacts
     of the one statement that ended the row. `history` are all statements since
     the call, and each status is reported once.
     */
    method Execute(id: JobId, request: Request, workerAlive: bool, workspaceLocked: bool, now: Instant,
                   ticks: seq<Tick>, last: Tick)
      returns (result: ExecutionResult, reported: seq<Status>, ghost history: seq<JobStep>)
      requires Valid() && id !in used
      modifies this
      ensures Valid() && Evolves(old(Contents()), Contents())
      ensures result.job.Some? <==>
        workerAlive && workspaceLocked && |ActiveIds(old(rows))| < concurrency && !Conflicts(old(rows), request)
      ensures result.job.None? ==> Contents() == old(Contents()) && history == [] && reported == []
      ensures result.job.None? ==> result.status == (if workerAlive then Busy else Unavailable) && result.exitCode == None && result.artifacts == []
      ensures result.job.Some? ==> Answered(old(Contents()), Contents(), history, Submission(id, request, now, ticks, last), result)
      ensures result.job.Some? ==> reported == [Queued] || reported == [Queued, Running]
    {
      reported, history := [], [];
      ghost var start := Contents();
      if !workerAlive {
        return Refusal(Unavailable, "Sandbox worker is unavailable"), reported, history;
      }
      var job := Create(id, request, workspaceLocked, now);
      if job.None? {
        return Refusal(Busy, "Sandbox capacity or workspace is busy"), reported, history;
      }
      history := [Insert(id, request, now)];
      var submission := Submission(id, request, now, ticks, last);
      Submitted(start, submission);
      reported := [Queued];
      var lastStatus := Queued;
      var i := 0;
      while i < |ticks|
        invariant 0 <= i <= |ticks|
        invariant Polling(start, Contents(), history, submission)
        invariant id in rows ==> Rank(lastStatus) <= Rank(rows[id].outcome.status)
        invariant (lastStatus.Queued? && reported == [Queued]) || (lastStatus.Running? && reported == [Queued, Running])
      {
        var tick := ticks[i];
        i := i + 1;
        Advance(start, Contents(), history, submission, tick.during);
        Interleave(tick.during);
        history := history + tick.during;
        var record := Get(id);
        if record.None? {
          result := ExecutionResult(Job(Failed), "Sandbox job disappeared", Some(id), None, false, []);
          Finished(start, Contents(), history, submission, result);
          return result, reported, history;
        }
        if !record.value.Active() {
          result := ResultOf(id, record.value);
          Finished(start, Contents(), history, submission, result);
          return result, reported, history;
        }
        if record.value.Queued() && tick.now > job.value.createdAt + CLAIM_DEADLINE {
          var failed;
          failed, history := FailUnclaimed(start, history, submission, tick);
          if failed.Some? {
            result := ResultOf(id, failed.value);
            Finished(start, Contents(), history, submission, result);
            return result, reported, history;
          }
        } else if record.value.outcome.status != lastStatus {
          lastStatus := record.value.outcome.status;
          reported := reported + [lastStatus];
        }
      }
      result, history := GiveUp(start, history, submission, job.value);
    }

    // What `execute` does about a row that nobody claimed in time.
    method FailUnclaimed(ghost start: Table, ghost history: seq<JobStep>, call: Submission, tick: Tick)
      returns (failed: Option<Row>, ghost history': seq<JobStep>)
      requires Valid() && Polling(start, Contents(), history, call) && tick in call.ticks && tick.now > call.now + CLAIM_DEADLINE
      modifies this
      ensures Valid() && Polling(start, Contents(), history', call) && Evolves(old(Contents()), Contents())
      ensures failed.Some? ==> call.id in rows && failed.value == rows[call.id] && !rows[call.id].Active()
    {
      assert tick in call.ticks + [call.last];
      Advance(start, Contents(), history, call, tick.between);
      Interleave(tick.between);
      history' := history + tick.between;
      ghost var failing := JobStep.FailQueued(call.id, "Sandbox worker is unavailable", tick.now);
      Advance(start, Contents(), history', call, [failing]);
      EvolvesTransitive(old(Contents()), Contents(), Apply(Contents(), failing));
      failed := FailQueued(call.id, "Sandbox worker is unavailable", tick.now);
      history' := history' + [failing];
    }

    // What `execute` does once its own deadline has passed.
    method GiveUp(ghost start: Table, ghost history: seq<JobStep>, call: Submission, job: Row) returns (result: ExecutionResult, ghost history': seq<JobStep>)
      requires Valid() && Polling(start, Contents(), history, call) && job == NewRow(call.request, call.now)
      modifies this
      ensures Valid() && Evolves(start, Contents())
      ensures Answered(start, Contents(), history', call, result)
    {
      var id, last := call.id, call.last;
      assert last in call.ticks + [last];
      Advance(start, Contents(), history, call, last.during);
      Interleave(last.during);
      history' := history + last.during;
      ghost var ending := TimedOutAt(id, last.now);
      Advance(start, Contents(), history', call, [ending]);
      Advance(start, Contents(), history', call, last.between);
      ghost var ends := id in rows && rows[id].Active();
      var ended := Finish(id, Outcome(Failed, "Sandbox result wait timed out", None, false, []), last.now, last.between);
      history' := history' + if ends then [ending] else last.between;
      result := ResultOf(id, if ended.value.Some? then ended.value.value else job);
      Finished(start, Contents(), history', call, result);
    }
  }

  /** Failing stale rows changes exactly the queued rows past the deadline. */
  lemma OnlyStaleFail(t: Table, now: Instant, id: JobId)
    requires TableInv(t) && id in t.rows
    ensures var r, rows := t.rows[id], Apply(t, FailStale(now)).rows;
      && id in rows
      && if r.Queued() && now - r.createdAt > CLAIM_DEADLINE then
          rows[id] == r.(outcome := Outcome(Failed, "Sandbox worker was unavailable", None, false, []), finishedAt := Some(now))
        else rows[id] == r
  {
    assert RowInv(t.rows[id]);
  }

  function TimedOutAt(id: JobId, now: Instant): JobStep {
    JobStep.Finish(id, Outcome(Failed, "Sandbox result wait timed out", None, false, []), now)
  }

  // One call of `execute` and what goes on around it.
  datatype Submission = Submission(id: JobId, request: Request, now: Instant, ticks: seq<Tick>, last: Tick)

  // The statement is the submission, one of the two by which the submitter gives up, or somebody else's.
  ghost predicate IssuedBy(call: Submission, step: JobStep) {
    || step == Insert(call.id, call.request, call.now)
    || (step.FailQueued? && step.id == call.id && step.output == "Sandbox worker is unavailable" && step.now > call.now + CLAIM_DEADLINE)
    || step == TimedOutAt(call.id, call.last.now)
    || (exists t | t in call.ticks + [call.last] :: step in t.during || step in t.between)
  }

  // The table after `history`, which began with the submission.
  ghost predicate Polling(start: Table, t: Table, history: seq<JobStep>, call: Submission) {
    && TableInv(start) && call.id !in start.used && !Conflicts(start.rows, call.request)
    && TableInv(t) && Evolves(start, t) && t == ApplyAll(start, history) && call.id in t.used
    && history != [] && history[0] == Insert(call.id, call.request, call.now)
    && (forall step | step in history :: IssuedBy(call, step))
    && (call.id in t.rows ==> t.rows[call.id].request == call.request)
  }

  // The result is what the statement that ended the row presented for it.
  ghost predicate Carries(start: Table, history: seq<JobStep>, id: JobId, result: ExecutionResult) {
    && Done(Ending, start, history, id)
    && forall k: nat | DoneAt(Ending, start, history, k, id) ::
      && result.output == Presented(history[k]).output
      && result.exitCode == Presented(history[k]).exitCode
      && result.truncated == Presented(history[k]).truncated
      && (if Done(Marking, start, history, id) then result.status == Job(Cancelled) && result.artifacts == []
          else result.status == Job(Presented(history[k]).status) && result.artifacts == Presented(history[k]).artifacts)
  }

  // What `execute` returns once it has submitted its row: that row as it ended, unless
  // it was deleted meanwhile.
  ghost predicate Answered(start: Table, t: Table, history: seq<JobStep>, call: Submission, result: ExecutionResult) {
    && Polling(start, t, history, call) && Done(Insertion, start, history, call.id)
    && result.job == Some(call.id)
    && if call.id in t.rows then Carries(start, history, call.id, result)
      else
        && Done(Deletion, start, history, call.id)
        && (result == ExecutionResult(Job(Failed), "Sandbox job disappeared", Some(call.id), None, false, []) ||
            result == ResultOf(call.id, NewRow(call.request, call.now)))
  }

  lemma Submitted(start: Table, call: Submission)
    requires TableInv(start) && call.id !in start.used && !Conflicts(start.rows, call.request)
    ensures var step := Insert(call.id, call.request, call.now); Polling(start, Apply(start, step), [step], call)
  {
    var step := Insert(call.id, call.request, call.now);
    StepEvolves(start, step);
    assert [step][1..] == [] && ApplyAll(Apply(start, step), []) == Apply(start, step);
  }

  // Nothing is left to wait for.
  lemma Finished(start: Table, t: Table, history: seq<JobStep>, call: Submission, result: ExecutionResult)
    requires Polling(start, t, history, call) && Over(t.rows, call.id) && result.job == Some(call.id)
    requires if call.id in t.rows then result == ResultOf(call.id, t.rows[call.id])
      else result == Refusal(Job(Failed), "Sandbox job disappeared").(job := Some(call.id)) || result == ResultOf(call.id, NewRow(call.request, call.now))
    ensures Answered(start, t, history, call, result)
  {
    assert history[..0] == [] && DoneAt(Insertion, start, history, 0, call.id);
    if call.id in t.rows {
      RowIsItsHistory(start, history, call.id);
    } else {
      GoneOnlyByCleanup(start, history, call.id);
    }
  }

  // More statements, somebody else's or the submitter's own.
  lemma Advance(start: Table, t: Table, history: seq<JobStep>, call: Submission, steps: seq<JobStep>)
    requires Polling(start, t, history, call) && forall step | step in steps :: IssuedBy(call, step)
    ensures Evolves(t, ApplyAll(t, steps)) && Polling(start, ApplyAll(t, steps), history + steps, call)
    ensures |steps| == 1 ==> ApplyAll(t, steps) == Apply(t, steps[0])
  {
    RunEvolves(t, steps);
    EvolvesTransitive(start, t, ApplyAll(t, steps));
    ApplyAllAppend(start, history, steps);
    if |steps| == 1 {
      assert ApplyAll(Apply(t, steps[0]), steps[1..]) == Apply(t, steps[0]);
    }
  }
}
