/**
 Which threads have a run and which are being deleted, as leases that request
 handlers take and give back in any order.
 */
module ThreadActivity {
  datatype Activity = Activity(active: map<string, nat>, deleting: set<string>)

  function Count(a: Activity, thread: string): nat {
    if thread in a.active then a.active[thread] else 0
  }

  // Whether a run may start, and what it records.
  function ReserveRunSpec(a: Activity, thread: string, exclusive: bool): (Activity, bool) {
    if thread in a.deleting || (exclusive && Count(a, thread) > 0) then (a, false)
    else (a.(active := a.active[thread := Count(a, thread) + 1]), true)
  }

  function ReleaseRunSpec(a: Activity, thread: string): Activity {
    if Count(a, thread) <= 1 then a.(active := a.active - {thread})
    else a.(active := a.active[thread := Count(a, thread) - 1])
  }

  function ReserveDeleteSpec(a: Activity, thread: string): (Activity, bool) {
    if thread in a.deleting || Count(a, thread) > 0 then (a, false) else (a.(deleting := a.deleting + {thread}), true)
  }

  function ReleaseDeleteSpec(a: Activity, thread: string): Activity {
    a.(deleting := a.deleting - {thread})
  }

  // The lock around each method makes it one step.
  class ThreadActivity {
    var active: map<string, nat>
    var deleting: set<string>

    function Value(): Activity
      reads this
    {
      Activity(active, deleting)
    }

    constructor ()
      ensures Value() == Activity(map[], {})
    {
      active, deleting := map[], {};
    }

    method ReserveRun(thread: string, exclusive: bool) returns (granted: bool)
      modifies this
      ensures (Value(), granted) == ReserveRunSpec(old(Value()), thread, exclusive)
    {
      if thread in deleting || (exclusive && Count(Value(), thread) > 0) {
        return false;
      }
      active := active[thread := Count(Value(), thread) + 1];
      return true;
    }

    method ReleaseRun(thread: string)
      modifies this
      ensures Value() == ReleaseRunSpec(old(Value()), thread)
    {
      var count := Count(Value(), thread);
      if count <= 1 {
        active := active - {thread};
      } else {
        active := active[thread := count - 1];
      }
    }

    method ReserveDelete(thread: string) returns (granted: bool)
      modifies this
      ensures (Value(), granted) == ReserveDeleteSpec(old(Value()), thread)
    {
      if thread in deleting || Count(Value(), thread) > 0 {
        return false;
      }
      deleting := deleting + {thread};
      return true;
    }

    method ReleaseDelete(thread: string)
      modifies this
      ensures Value() == ReleaseDeleteSpec(old(Value()), thread)
    {
      deleting := deleting - {thread};
    }
  }

  // ---- Every interleaving of request handlers ----

  // `runs` and `deletes` are the granted reservations not yet given back.
  datatype State = State(activity: Activity, runs: map<nat, string>, deletes: map<nat, string>)

  datatype Step =
    | StartRun(lease: nat, thread: string, exclusive: bool)
    | EndRun(lease: nat)
    | StartDelete(lease: nat, thread: string)
    | EndDelete(lease: nat)

  const IDLE: State := State(Activity(map[], {}), map[], map[])

  // A lease is new when taken and given back at most once.
  function Next(s: State, step: Step): State {
    match step
    case StartRun(lease, thread, exclusive) =>
      var (activity, granted) := ReserveRunSpec(s.activity, thread, exclusive);
      if lease in s.runs || !granted then s else s.(activity := activity, runs := s.runs[lease := thread])
    case EndRun(lease) =>
      if lease !in s.runs then s else s.(activity := ReleaseRunSpec(s.activity, s.runs[lease]), runs := s.runs - {lease})
    case StartDelete(lease, thread) =>
      var (activity, granted) := ReserveDeleteSpec(s.activity, thread);
      if lease in s.deletes || !granted then s else s.(activity := activity, deletes := s.deletes[lease := thread])
    case EndDelete(lease) =>
      if lease !in s.deletes then s
      else s.(activity := ReleaseDeleteSpec(s.activity, s.deletes[lease]), deletes := s.deletes - {lease})
  }

  function After(s: State, steps: seq<Step>): State
    decreases |steps|
  {
    if steps == [] then s else After(Next(s, steps[0]), steps[1..])
  }

  function RunsOf(runs: map<nat, string>, thread: string): set<nat> {
    set l | l in runs && runs[l] == thread
  }

  ghost predicate Counted(s: State) {
    && (forall t :: Count(s.activity, t) == |RunsOf(s.runs, t)|)
    && (forall t | t in s.activity.active :: s.activity.active[t] > 0)
  }

  ghost predicate DeletingOnce(s: State) {
    && (forall t :: t in s.activity.deleting <==> exists l | l in s.deletes :: s.deletes[l] == t)
    && (forall l, m | l in s.deletes && m in s.deletes && s.deletes[l] == s.deletes[m] :: l == m)
    && (forall t | t in s.activity.deleting :: Count(s.activity, t) == 0)
  }

  lemma RunAdded(runs: map<nat, string>, lease: nat, thread: string, t: string)
    requires lease !in runs
    ensures |RunsOf(runs[lease := thread], t)| == |RunsOf(runs, t)| + (if t == thread then 1 else 0)
  {
    if t == thread {
      assert RunsOf(runs[lease := thread], t) == RunsOf(runs, t) + {lease};
    } else {
      assert RunsOf(runs[lease := thread], t) == RunsOf(runs, t);
    }
  }

  lemma RunRemoved(runs: map<nat, string>, lease: nat, t: string)
    requires lease in runs
    ensures |RunsOf(runs, t)| == |RunsOf(runs - {lease}, t)| + (if t == runs[lease] then 1 else 0)
  {
    RunAdded(runs - {lease}, lease, runs[lease], t);
    assert (runs - {lease})[lease := runs[lease]] == runs;
  }

  lemma StepKeeps(s: State, step: Step)
    requires Counted(s) && DeletingOnce(s)
    ensures Counted(Next(s, step)) && DeletingOnce(Next(s, step))
  {
    match step {
    case StartRun(lease, thread, _) =>
      if lease !in s.runs {
        forall t {
          RunAdded(s.runs, lease, thread, t);
        }
      }
    case EndRun(lease) =>
      if lease in s.runs {
        forall t {
          RunRemoved(s.runs, lease, t);
        }
      }
    case StartDelete(lease, thread) => DeleteStarts(s, lease, thread);
    case EndDelete(lease) => DeleteEnds(s, lease);
    }
  }

  lemma DeleteStarts(s: State, lease: nat, thread: string)
    requires DeletingOnce(s)
    ensures DeletingOnce(Next(s, StartDelete(lease, thread)))
  {
    var s' := Next(s, StartDelete(lease, thread));
    if s' != s {
      assert s'.deletes[lease] == thread;
      assert forall l | l in s.deletes :: s'.deletes[l] == s.deletes[l];
    }
  }

  lemma DeleteEnds(s: State, lease: nat)
    requires DeletingOnce(s)
    ensures DeletingOnce(Next(s, EndDelete(lease)))
  {
    var s' := Next(s, EndDelete(lease));
    forall t | t in s'.activity.deleting
      ensures exists l | l in s'.deletes :: s'.deletes[l] == t
    {
      var l :| l in s.deletes && s.deletes[l] == t;
      assert lease in s.deletes ==> l != lease;
      assert s'.deletes[l] == t;
    }
  }

  lemma {:induction false} RunsKeep(s: State, steps: seq<Step>)
    requires Counted(s) && DeletingOnce(s)
    ensures Counted(After(s, steps)) && DeletingOnce(After(s, steps))
    decreases |steps|
  {
    if steps != [] {
      StepKeeps(s, steps[0]);
      RunsKeep(Next(s, steps[0]), steps[1..]);
    }
  }

  lemma IdleIsFine()
    ensures Counted(IDLE) && DeletingOnce(IDLE)
  {
    assert forall t :: RunsOf(IDLE.runs, t) == {};
  }

  /** However requests interleave, a thread is never both in use and being deleted, and never deleted by two requests. */
  lemma NeverUsedWhileDeleted(steps: seq<Step>, l: nat, m: nat)
    requires var s := After(IDLE, steps); m in s.deletes
    ensures var s := After(IDLE, steps);
      && (l in s.runs ==> s.runs[l] != s.deletes[m])
      && (l in s.deletes && l != m ==> s.deletes[l] != s.deletes[m])
  {
    IdleIsFine();
    RunsKeep(IDLE, steps);
    var s := After(IDLE, steps);
    if l in s.runs {
      assert l in RunsOf(s.runs, s.runs[l]);
    }
  }

  /**
   However requests interleaved, a run is granted exactly when no deletion of its
   thread is going on and, if it must be alone, no run is; a deletion is granted
   exactly when nothing is going on in the thread.
   */
  lemma GrantedExactly(steps: seq<Step>, thread: string, exclusive: bool)
    ensures var s := After(IDLE, steps);
      && (ReserveRunSpec(s.activity, thread, exclusive).1 <==>
        (forall m | m in s.deletes :: s.deletes[m] != thread) && (exclusive ==> forall l | l in s.runs :: s.runs[l] != thread))
      && (ReserveDeleteSpec(s.activity, thread).1 <==>
        (forall m | m in s.deletes :: s.deletes[m] != thread) && (forall l | l in s.runs :: s.runs[l] != thread))
  {
    IdleIsFine();
    RunsKeep(IDLE, steps);
    var s := After(IDLE, steps);
    assert Count(s.activity, thread) > 0 <==> RunsOf(s.runs, thread) != {};
    if l :| l in s.runs && s.runs[l] == thread {
      assert l in RunsOf(s.runs, thread);
    }
  }

  ghost predicate AllExclusive(steps: seq<Step>) {
    forall step | step in steps && step.StartRun? :: step.exclusive
  }

  ghost predicate OneRunEach(s: State) {
    forall l, m | l in s.runs && m in s.runs && s.runs[l] == s.runs[m] :: l == m
  }

  lemma {:induction false} StaysOneRun(s: State, steps: seq<Step>)
    requires AllExclusive(steps) && Counted(s) && DeletingOnce(s) && OneRunEach(s)
    ensures OneRunEach(After(s, steps))
    decreases |steps|
  {
    if steps != [] {
      var step := steps[0];
      assert step in steps;
      StepKeeps(s, step);
      if step.StartRun? && Count(s.activity, step.thread) == 0 {
        assert forall l | l in s.runs && s.runs[l] == step.thread :: l in RunsOf(s.runs, step.thread);
      }
      StaysOneRun(Next(s, step), steps[1..]);
    }
  }

  /** With run controls every reservation is exclusive, so a thread's next run starts only after the last one was released. */
  lemma OneControlledRunPerThread(steps: seq<Step>)
    requires AllExclusive(steps)
    ensures OneRunEach(After(IDLE, steps))
  {
    IdleIsFine();
    StaysOneRun(IDLE, steps);
  }
}
