/**
 Every column of a row as a function of the statements that were issued: who
 inserted it, who claimed it, who asked for its cancellation, and whose outcome
 it holds. Nothing here refers to how a statement changes a row.
 */
module JobHistory {
  import opened Wrappers
  import opened JobTable

  // What a statement can do to one row.
  datatype Deed = Insertion | Claiming | Marking | Ending | Deletion

  ghost predicate Does(deed: Deed, t: Table, step: JobStep, id: JobId) {
    match deed
    case Insertion => step.Insert? && step.id == id && id !in t.used && !Conflicts(t.rows, step.request)
    case Claiming => Claims(t, step, id)
    case Marking => step.CancelRun? && id in ActiveOfRun(t.rows, step.run)
    case Ending => id in ActiveIds(t.rows) && Ends(step, id, t.rows[id])
    case Deletion =>
      && step.Cleanup? && id in t.rows && !t.rows[id].Active()
      && t.rows[id].finishedAt.Some? && t.rows[id].finishedAt.value < step.olderThan
  }

  // The table before statement `k` of a history.
  ghost function Before(start: Table, steps: seq<JobStep>, k: nat): Table
    requires k <= |steps|
  {
    ApplyAll(start, steps[..k])
  }

  ghost predicate DoneAt(deed: Deed, start: Table, steps: seq<JobStep>, k: nat, id: JobId) {
    k < |steps| && Does(deed, Before(start, steps, k), steps[k], id)
  }

  ghost predicate Done(deed: Deed, start: Table, steps: seq<JobStep>, id: JobId) {
    exists k: nat :: DoneAt(deed, start, steps, k, id)
  }

  // The outcome that a statement which ends rows presents for them.
  function Presented(step: JobStep): Outcome {
    match step
    case Finish(_, outcome, _) => outcome
    case CancelRun(_, _) => Outcome(Cancelled, "", None, false, [])
    case FailActive(output, _) => Outcome(Failed, output, None, false, [])
    case FailStale(_) => Outcome(Failed, "Sandbox worker was unavailable", None, false, [])
    case FailQueued(_, output, _) => Outcome(Failed, output, None, false, [])
    case _ => Outcome(Failed, "", None, false, [])
  }

  function Moment(step: JobStep): Instant {
    if step.Cleanup? then step.olderThan else step.now
  }

  // A requested cancellation overrides the status and withholds the artifacts, nothing else.
  function Settled(presented: Outcome, requested: bool): Outcome {
    if requested then Outcome(Cancelled, presented.output, presented.exitCode, presented.truncated, []) else presented
  }

  // ---- One more statement ----

  lemma BeforeNext(start: Table, steps: seq<JobStep>, k: nat)
    requires k < |steps|
    ensures Before(start, steps, k + 1) == Apply(Before(start, steps, k), steps[k])
  {
    assert steps[..k + 1] == steps[..k] + [steps[k]];
    ApplyAllAppend(start, steps[..k], [steps[k]]);
    var t := Apply(Before(start, steps, k), steps[k]);
    assert [steps[k]][1..] == [] && ApplyAll(t, []) == t;
  }

  lemma DonePrefix(deed: Deed, start: Table, steps: seq<JobStep>, id: JobId)
    requires steps != []
    ensures var n := |steps| - 1;
      && (forall k: nat | k < n :: DoneAt(deed, start, steps, k, id) <==> DoneAt(deed, start, steps[..n], k, id))
      && (Done(deed, start, steps, id) <==> Done(deed, start, steps[..n], id) || DoneAt(deed, start, steps, n, id))
  {
    var n := |steps| - 1;
    forall k: nat | k < n
      ensures DoneAt(deed, start, steps, k, id) <==> DoneAt(deed, start, steps[..n], k, id)
    {
      assert steps[..n][..k] == steps[..k];
    }
  }

  lemma TableOf(start: Table, steps: seq<JobStep>)
    requires TableInv(start)
    ensures TableInv(ApplyAll(start, steps))
    ensures steps != [] ==> var n := |steps| - 1;
      ApplyAll(start, steps) == Apply(ApplyAll(start, steps[..n]), steps[n]) && Before(start, steps, n) == ApplyAll(start, steps[..n])
  {
    RunEvolves(start, steps);
    if steps != [] {
      BeforeNext(start, steps, |steps| - 1);
      assert steps[..|steps|] == steps;
    }
  }

  // One statement, seen from one row that it does not delete.
  ghost predicate Moves(t: Table, step: JobStep, id: JobId, r: Row, r': Row) {
    && r'.request == r.request && r'.createdAt == r.createdAt
    && (r'.cancelRequested <==> r.cancelRequested || Does(Marking, t, step, id))
    && r'.startedAt == (if Does(Claiming, t, step, id) then Some(Moment(step)) else r.startedAt)
    && (r'.Active() <==> r.Active() && !Does(Ending, t, step, id))
    && (r'.Active() ==> (r'.Queued() <==> r.Queued() && !Does(Claiming, t, step, id)))
    && (Does(Ending, t, step, id) ==> r'.finishedAt == Some(Moment(step)) && r'.outcome == Settled(Presented(step), r'.cancelRequested))
    && (!r.Active() ==> r' == r)
  }

  lemma RowMoves(t: Table, step: JobStep, id: JobId)
    requires TableInv(t) && id in t.rows
    ensures var rows := Apply(t, step).rows;
      && (id !in rows <==> Does(Deletion, t, step, id))
      && (id in rows ==> Moves(t, step, id, t.rows[id], rows[id]))
  {
    var r := t.rows[id];
    assert RowInv(r);
    match step {
    case Insert(_, _, _) =>
    case Claim(_, _, _) =>
    case Finish(_, _, _) =>
    case CancelRun(_, _) =>
    case FailActive(_, _) =>
    case FailStale(_) =>
    case FailQueued(_, _, _) =>
    case Cleanup(_) =>
    }
  }

  lemma RowAppears(t: Table, step: JobStep, id: JobId)
    requires TableInv(t) && id !in t.rows
    ensures var rows := Apply(t, step).rows;
      && (id in rows <==> Does(Insertion, t, step, id))
      && (id in rows ==> rows[id] == Row(step.request, step.now, Outcome(Queued, "", None, false, []), false, None, None))
  {
  }

  // ---- Whole histories ----

  // Nothing was done to a row whose identifier was never used.
  lemma UnusedUntouched(deed: Deed, start: Table, steps: seq<JobStep>, id: JobId)
    requires TableInv(start) && id !in ApplyAll(start, steps).used
    ensures !Done(deed, start, steps, id)
  {
    forall k: nat | k < |steps|
      ensures !DoneAt(deed, start, steps, k, id)
    {
      assert steps == steps[..k] + steps[k..];
      ApplyAllAppend(start, steps[..k], steps[k..]);
      TableOf(start, steps[..k]);
      RunEvolves(Before(start, steps, k), steps[k..]);
      var later := Apply(Before(start, steps, k), steps[k]);
      StepEvolves(Before(start, steps, k), steps[k]);
      RunEvolves(later, steps[k..][1..]);
      assert steps[k..][0] == steps[k];
    }
  }

  // The columns of a row, told by its history.
  ghost predicate Told(start: Table, steps: seq<JobStep>, id: JobId, r: Row) {
    && (exists k: nat :: DoneAt(Insertion, start, steps, k, id) && r.request == steps[k].request && r.createdAt == steps[k].now)
    && (r.cancelRequested <==> Done(Marking, start, steps, id))
    && (r.startedAt.Some? <==> Done(Claiming, start, steps, id))
    && (forall k: nat | DoneAt(Claiming, start, steps, k, id) :: r.startedAt == Some(Moment(steps[k])))
    && (r.Active() <==> !Done(Ending, start, steps, id))
    && (r.Queued() <==> !Done(Ending, start, steps, id) && !Done(Claiming, start, steps, id))
    && (forall k: nat | DoneAt(Ending, start, steps, k, id) ::
      r.finishedAt == Some(Moment(steps[k])) && r.outcome == Settled(Presented(steps[k]), r.cancelRequested))
  }

  lemma PrefixesOf(start: Table, steps: seq<JobStep>, id: JobId)
    requires steps != []
    ensures forall deed :: Done(deed, start, steps, id) <==> Done(deed, start, steps[..|steps| - 1], id) || DoneAt(deed, start, steps, |steps| - 1, id)
    ensures forall deed, k: nat | k < |steps| - 1 :: DoneAt(deed, start, steps, k, id) <==> DoneAt(deed, start, steps[..|steps| - 1], k, id)
  {
    forall deed: Deed
      ensures Done(deed, start, steps, id) <==> Done(deed, start, steps[..|steps| - 1], id) || DoneAt(deed, start, steps, |steps| - 1, id)
    {
      DonePrefix(deed, start, steps, id);
    }
    forall deed, k: nat | k < |steps| - 1
      ensures DoneAt(deed, start, steps, k, id) <==> DoneAt(deed, start, steps[..|steps| - 1], k, id)
    {
      DonePrefix(deed, start, steps, id);
    }
  }

  /**
   Over every history of statements a row is exactly what was done to it: it holds
   the request of its insertion, it is marked if and only if `cancel_run` of its own
   run met it while it was active, it started when it was claimed, and it holds the
   outcome, exit code, output and artifacts of the one statement that ended it, or,
   if it was marked, all of them but the status and the artifacts.
   */
  lemma {:induction false} RowIsItsHistory(start: Table, steps: seq<JobStep>, id: JobId)
    requires TableInv(start) && id !in start.used && id in ApplyAll(start, steps).rows
    ensures Told(start, steps, id, ApplyAll(start, steps).rows[id])
    decreases |steps|
  {
    var n := |steps| - 1;
    var t := ApplyAll(start, steps[..n]);
    TableOf(start, steps);
    TableOf(start, steps[..n]);
    PrefixesOf(start, steps, id);
    if id in t.rows {
      RowIsItsHistory(start, steps[..n], id);
      RowMoves(t, steps[n], id);
      ToldNext(start, steps, id, t.rows[id], ApplyAll(start, steps).rows[id]);
    } else {
      RowAppears(t, steps[n], id);
      forall deed: Deed
        ensures !Done(deed, start, steps[..n], id)
      {
        UnusedUntouched(deed, start, steps[..n], id);
      }
      assert DoneAt(Insertion, start, steps, n, id);
    }
  }

  lemma ToldNext(start: Table, steps: seq<JobStep>, id: JobId, r: Row, r': Row)
    requires steps != [] && TableInv(Before(start, steps, |steps| - 1)) && id in Before(start, steps, |steps| - 1).rows && Before(start, steps, |steps| - 1).rows[id] == r
    requires Told(start, steps[..|steps| - 1], id, r) && Moves(Before(start, steps, |steps| - 1), steps[|steps| - 1], id, r, r')
    ensures Told(start, steps, id, r')
  {
    var n := |steps| - 1;
    PrefixesOf(start, steps, id);
    assert RowInv(r);
    var k: nat :| DoneAt(Insertion, start, steps[..n], k, id) && r.request == steps[..n][k].request && r.createdAt == steps[..n][k].now;
    assert DoneAt(Insertion, start, steps, k, id) && steps[k] == steps[..n][k];
    forall k: nat | DoneAt(Claiming, start, steps, k, id)
      ensures r'.startedAt == Some(Moment(steps[k]))
    {
      assert k < n ==> DoneAt(Claiming, start, steps[..n], k, id) && steps[k] == steps[..n][k];
    }
    forall k: nat | DoneAt(Ending, start, steps, k, id)
      ensures r'.finishedAt == Some(Moment(steps[k])) && r'.outcome == Settled(Presented(steps[k]), r'.cancelRequested)
    {
      assert k < n ==> DoneAt(Ending, start, steps[..n], k, id) && steps[k] == steps[..n][k];
    }
  }

  lemma Onwards(start: Table, steps: seq<JobStep>, j: nat, k: nat)
    requires TableInv(start) && j <= k <= |steps|
    ensures TableInv(Before(start, steps, j)) && Evolves(Before(start, steps, j), Before(start, steps, k))
  {
    RunEvolves(start, steps[..j]);
    ApplyAllAppend(start, steps[..j], steps[j..k]);
    assert steps[..j] + steps[j..k] == steps[..k];
    RunEvolves(Before(start, steps, j), steps[j..k]);
  }

  /** No row is ended twice. */
  lemma EndedOnce(start: Table, steps: seq<JobStep>, j: nat, k: nat, id: JobId)
    requires TableInv(start) && j < k && DoneAt(Ending, start, steps, j, id)
    ensures !DoneAt(Ending, start, steps, k, id)
  {
    if k < |steps| {
      Onwards(start, steps, j, j + 1);
      Onwards(start, steps, j + 1, k);
      BeforeNext(start, steps, j);
      EndsExactly(Before(start, steps, j), steps[j], id);
      SettledByEvolving(Before(start, steps, j + 1), Before(start, steps, k), id);
    }
  }

  /** A row is gone if and only if some `cleanup` deleted it, after its end and with a cutoff after its end. */
  lemma {:induction false} GoneOnlyByCleanup(start: Table, steps: seq<JobStep>, id: JobId)
    requires TableInv(start) && id !in start.used && Done(Insertion, start, steps, id)
    ensures id !in ApplyAll(start, steps).rows <==> Done(Deletion, start, steps, id)
    decreases |steps|
  {
    if steps != [] {
      var n := |steps| - 1;
      var t := ApplyAll(start, steps[..n]);
      TableOf(start, steps);
      TableOf(start, steps[..n]);
      PrefixesOf(start, steps, id);
      if id in t.rows {
        GoneOnlyByCleanup(start, steps[..n], id);
        RowMoves(t, steps[n], id);
      } else {
        RowAppears(t, steps[n], id);
        if id !in t.used {
          UnusedUntouched(Deletion, start, steps[..n], id);
          UnusedUntouched(Insertion, start, steps[..n], id);
        } else {
          GoneOnlyByCleanup(start, steps[..n], id);
        }
      }
    }
  }
}
