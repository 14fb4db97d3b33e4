/**
 One claimed job in the worker: how polling the row and the container becomes
 an outcome, and how that outcome and a late cancellation settle the row.
 */
module Executor {
  import opened Wrappers
  import opened JobTable

  // What one look at the container shows; a failed connection shows nothing.
  datatype Sight = Unreachable | Running | Stopped(exitCode: Option<int>)

  // One pass of the waiting loop: the row's flag, the container, the deadline.
  datatype Tick = Tick(cancelRequested: bool, sight: Sight, late: bool)
  {
    predicate Ends() { cancelRequested || sight.Stopped? || late }
  }

  // How the wait ended.
  datatype Wait = Wait(exitCode: Option<int>, cancelled: bool, hostTimedOut: bool)

  // `CleanupFailed` ends the worker; any other exception fails the job.
  datatype Error = Raised | CleanupFailed

  // Everything the run depends on. The limit checks and
  // everything between start and removal raise when their field is false.
  datatype Run = Run(
    polled: bool,
    prepared: bool,
    cancelledFirst: bool,
    started: bool,
    ticks: seq<Tick>,
    waited: (Option<int>, bool),
    waitedAndRead: bool,
    removed: bool,
    withinLimit: bool,
    output: string,
    truncated: bool,
    accepted: seq<string>,
    error: string)

  const TIMEOUT_EXIT_CODES: set<int> := {124, 137}

  function WaitOf(t: Tick): Wait
    requires t.Ends()
  {
    if t.cancelRequested then Wait(None, true, false)
    else if t.sight.Stopped? then Wait(t.sight.exitCode, false, false)
    else Wait(None, false, true)
  }

  // The first pass that ends the wait.
  function FirstEnd(ticks: seq<Tick>): (first: Option<nat>)
    ensures first.Some? ==> first.value < |ticks| && ticks[first.value].Ends() && forall i | 0 <= i < first.value :: !ticks[i].Ends()
    ensures first.None? ==> forall i | 0 <= i < |ticks| :: !ticks[i].Ends()
  {
    if ticks == [] then None
    else if ticks[0].Ends() then Some(0)
    else
      var later := FirstEnd(ticks[1..]);
      if later.None? then assert forall i | 1 <= i < |ticks| :: ticks[i] == ticks[1..][i - 1]; None
      else assert forall i | 1 <= i <= later.value :: ticks[i] == ticks[1..][i - 1]; Some(later.value + 1)
  }

  // The deadline makes some pass the last one.
  predicate Finite(ticks: seq<Tick>) {
    FirstEnd(ticks).Some?
  }

  // The pass `last` is the first that ends the wait, with `wait`.
  ghost predicate EndsAt(ticks: seq<Tick>, wait: Wait, last: nat) {
    && last < |ticks| && ticks[last].Ends() && wait == WaitOf(ticks[last])
    && forall i | 0 <= i < last :: !ticks[i].Ends()
  }

  /** The waiting loop stops at the first pass that ends it, and at no earlier one. */
  method Poll(ticks: seq<Tick>) returns (wait: Wait)
    requires Finite(ticks)
    ensures exists last :: EndsAt(ticks, wait, last)
    ensures wait == WaitOf(ticks[FirstEnd(ticks).value])
  {
    var i := 0;
    while !ticks[i].Ends()
      invariant i <= FirstEnd(ticks).value && (forall j | 0 <= j < i :: !ticks[j].Ends())
      decreases |ticks| - i
    {
      i := i + 1;
    }
    wait := WaitOf(ticks[i]);
    assert EndsAt(ticks, wait, i);
  }

  // How the wait of a started container ended: by polling, or by one bounded wait.
  ghost predicate Waited(r: Run, wait: Wait) {
    if r.polled then exists last :: EndsAt(r.ticks, wait, last) else wait == Wait(r.waited.0, false, r.waited.1)
  }

  ghost predicate NeverStarted(r: Run) {
    r.polled && r.cancelledFirst
  }

  // Whether nothing raised.
  ghost predicate Succeeds(r: Run) {
    r.prepared && (NeverStarted(r) || (r.started && r.removed && r.waitedAndRead && r.withinLimit))
  }

  // The outcome of a container whose wait ended with `wait`.
  ghost predicate Reports(o: Outcome, r: Run, wait: Wait) {
    && o.output == (if wait.cancelled then "Cancelled by the user" else r.output)
    && o.exitCode == wait.exitCode && o.truncated == r.truncated
    && (o.status.Cancelled? <==> wait.cancelled)
    && (o.status.TimedOut? <==> !wait.cancelled && (wait.hostTimedOut || wait.exitCode == Some(124) || wait.exitCode == Some(137)))
    && (o.status.Completed? <==> !wait.cancelled && !wait.hostTimedOut && wait.exitCode == Some(0))
    && o.artifacts == if wait.cancelled then [] else r.accepted
  }

  function StatusOf(wait: Wait): Status {
    if wait.hostTimedOut || (wait.exitCode.Some? && wait.exitCode.value in TIMEOUT_EXIT_CODES) then TimedOut
    else if wait.exitCode != Some(0) then Failed
    else Completed
  }

  // The result of a run, whose every look at the row is one of `LooksOf`.
  function RunSpec(r: Run): (outcome: Result<Outcome, Error>)
    requires r.polled ==> Finite(r.ticks)
  {
    if !r.prepared then Err(Raised)
    else if r.polled && r.cancelledFirst then Ok(Outcome(Cancelled, "Cancelled before execution", None, false, []))
    else if !r.removed then Err(CleanupFailed)
    else if !r.started || !r.waitedAndRead || !r.withinLimit then Err(Raised)
    else
      var wait := if r.polled then WaitOf(r.ticks[FirstEnd(r.ticks).value]) else Wait(r.waited.0, false, r.waited.1);
      if wait.cancelled then Ok(Outcome(Cancelled, "Cancelled by the user", wait.exitCode, r.truncated, []))
      else Ok(Outcome(StatusOf(wait), r.output, wait.exitCode, r.truncated, r.accepted))
  }

  function Flags(ticks: seq<Tick>): seq<bool> {
    seq(|ticks|, i requires 0 <= i < |ticks| => ticks[i].cancelRequested)
  }

  // What each look at the row saw, in order, if nothing raised in between.
  function LooksOf(r: Run): seq<bool>
    requires r.polled ==> Finite(r.ticks)
  {
    if !r.polled || !r.prepared then []
    else if r.cancelledFirst || !r.started then [r.cancelledFirst]
    else [false] + Flags(r.ticks[..FirstEnd(r.ticks).value + 1])
  }

  // The run made exactly these looks; one that raised may have made only the first of them.
  predicate Looked(r: Run, polled: bool, looks: seq<bool>) {
    && r.polled == polled && (polled ==> Finite(r.ticks))
    && (looks == LooksOf(r) || (RunSpec(r).Err? && looks <= LooksOf(r)))
  }

  /** A run reports `Cancelled` only if one of its looks at the row saw the request, and then its last look did. */
  lemma CancelledWasSeen(r: Run, polled: bool, looks: seq<bool>)
    requires Looked(r, polled, looks) && RunSpec(r).Ok? && RunSpec(r).value.status.Cancelled?
    ensures polled && looks != [] && looks[|looks| - 1]
  {
    if !r.cancelledFirst {
      var last := FirstEnd(r.ticks).value;
      assert Flags(r.ticks[..last + 1])[last] == r.ticks[last].cancelRequested;
    }
  }

  /** A run one of whose looks saw the request can report nothing but `Cancelled`, if it reports at all. */
  lemma SeenIsCancelled(r: Run, polled: bool, looks: seq<bool>)
    requires Looked(r, polled, looks) && RunSpec(r).Ok? && true in looks
    ensures RunSpec(r).value.status.Cancelled?
  {
    assert looks == LooksOf(r);
    if !r.cancelledFirst {
      var last := FirstEnd(r.ticks).value;
      var i :| 0 <= i < |Flags(r.ticks[..last + 1])| && Flags(r.ticks[..last + 1])[i];
      assert r.ticks[i].Ends() && i == last;
    }
  }

  // Whether some look at the row saw the request.
  ghost predicate SawRequest(r: Run) {
    r.polled && (r.cancelledFirst || exists i | 0 <= i < |r.ticks| :: r.ticks[i].cancelRequested)
  }

  /**
   `_run_locked`. It succeeds exactly when nothing raises, its outcome is that of
   the first pass that ended the wait, and a container it started is removed or
   the worker ends.
   */
  method RunLocked(r: Run) returns (outcome: Result<Outcome, Error>)
    requires r.polled ==> Finite(r.ticks)
    ensures outcome == RunSpec(r)
    ensures outcome.Ok? <==> Succeeds(r)
    ensures outcome.Err? ==> (outcome.error.CleanupFailed? <==> r.prepared && !NeverStarted(r) && !r.removed)
    ensures outcome.Ok? && NeverStarted(r) ==> outcome.value == Outcome(Cancelled, "Cancelled before execution", None, false, [])
    ensures outcome.Ok? && !NeverStarted(r) ==> exists wait :: Waited(r, wait) && Reports(outcome.value, r, wait)
    ensures outcome.Ok? ==> !outcome.value.status.Active() && (outcome.value.status.Cancelled? ==> SawRequest(r))
  {
    if !r.prepared {
      return Err(Raised);
    }
    if r.polled && r.cancelledFirst {
      return Ok(Outcome(Cancelled, "Cancelled before execution", None, false, []));
    }
    if !r.started {
      return Err(if r.removed then Raised else CleanupFailed);
    }
    var wait := Wait(r.waited.0, false, r.waited.1);
    if r.polled {
      wait := Poll(r.ticks);
    }
    assert Waited(r, wait);
    if !r.removed {
      return Err(CleanupFailed);
    }
    if !r.waitedAndRead || !r.withinLimit {
      return Err(Raised);
    }
    var result := if wait.cancelled then Outcome(Cancelled, "Cancelled by the user", wait.exitCode, r.truncated, [])
      else Outcome(StatusOf(wait), r.output, wait.exitCode, r.truncated, r.accepted);
    assert Reports(result, r, wait);
    return Ok(result);
  }

  // What `_execute` asks `finish` to record; `None` when the worker dies instead.
  function Recorded(r: Run, outcome: Result<Outcome, Error>): Option<Outcome> {
    match outcome
    case Ok(o) => Some(o)
    case Err(Raised) => Some(Outcome(Failed, "Sandbox job failed: " + r.error, None, false, []))
    case Err(CleanupFailed) => None
  }

  /**
   The row of a finished job is `Cancelled` exactly if cancellation was requested
   by then, whatever the executor made of it: a request that came too late for
   the poll, or an exception after it, changes nothing, and no output of a
   cancelled job is handed over. It is `Completed` exactly if nobody cancelled
   and the command ended by itself with exit code 0.
   */
  lemma CancellationSettlesTheRow(row: Row, r: Run, looks: seq<bool>, now: Instant)
    requires row.outcome.status.Running? && Looked(r, row.request.run.Some?, looks) && Recorded(r, RunSpec(r)).Some?
    requires true in looks ==> row.cancelRequested
    ensures var after := FinishRow(row, Recorded(r, RunSpec(r)).value, now);
      && !after.Active()
      && (after.outcome.status.Cancelled? <==> row.cancelRequested)
      && (row.cancelRequested ==> after.outcome.artifacts == [])
      && after.outcome.output == (if Succeeds(r) then RunSpec(r).value.output else "Sandbox job failed: " + r.error)
      && (after.outcome.status.Completed? <==> !row.cancelRequested && Succeeds(r) && !NeverStarted(r) && EndedByItself(r))
  {
    if RunSpec(r).Ok? && RunSpec(r).value.status.Cancelled? {
      CancelledWasSeen(r, row.request.run.Some?, looks);
      assert looks[|looks| - 1] in looks;
    }
  }

  // The command stopped with exit code 0 before anything else ended the wait.
  predicate EndedByItself(r: Run)
    requires r.polled ==> Finite(r.ticks)
  {
    if r.polled then
      var t := r.ticks[FirstEnd(r.ticks).value];
      !t.cancelRequested && t.sight == Stopped(Some(0))
    else r.waited == (Some(0), false)
  }
}
