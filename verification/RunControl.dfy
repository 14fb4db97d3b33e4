/**
 One foreground run: its mailbox of corrections, its operation counter and its
 stop and finalize flags. `Control` is the value of those fields; the class
 `RunControl` holds them and each method is one critical section of its lock.
 */
module RunControl {
  import opened Wrappers

  datatype RunState = Preparing | Running | Stopping | Finalizing | Completed | Paused | Cancelled | Failed
  {
    predicate Terminal() { Completed? || Paused? || Cancelled? || Failed? }
  }

  datatype Instruction = Instruction(id: string, text: string, recipients: set<string>)

  // The dictionary of instructions keeps insertion order, so it is a sequence
  // whose identifiers are distinct.
  datatype Control = Control(state: RunState, instructions: seq<Instruction>, cancelled: bool, operations: int)
  {
    predicate Has(id: string) {
      exists i | 0 <= i < |instructions| :: instructions[i].id == id
    }

    predicate HasText(id: string, text: string) {
      exists i | 0 <= i < |instructions| :: instructions[i].id == id && instructions[i].text == text
    }
  }

  datatype SteerError = DifferentText | NotAccepting
  datatype Stopped = Stopped

  datatype ControlStep =
    | Prepare
    | Steer(id: string, text: string)
    | Stop
    | Enter
    | Leave
    | Deliver(ids: set<string>, recipient: string)
    | BeginFinalize(completed: bool)
    | Finish(state: RunState)

  ghost predicate DistinctIds(instructions: seq<Instruction>) {
    forall i, j | 0 <= i < j < |instructions| :: instructions[i].id != instructions[j].id
  }

  // ---- The critical sections, as functions of the fields ----

  function PrepareSpec(c: Control): Control {
    if c.cancelled then c else c.(state := Running)
  }

  function SteerSpec(c: Control, id: string, text: string): Control {
    if c.Has(id) || !c.state.Running? then c
    else c.(instructions := c.instructions + [Instruction(id, text, {})])
  }

  function StopSpec(c: Control): Control {
    if c.state.Preparing? || c.state.Running? then c.(state := Stopping, cancelled := true) else c
  }

  function EnterSpec(c: Control): Control {
    if c.cancelled then c else c.(operations := c.operations + 1)
  }

  function LeaveSpec(c: Control): Control {
    c.(operations := c.operations - 1)
  }

  function DeliverOne(item: Instruction, ids: set<string>, recipient: string): Instruction {
    if item.id in ids then item.(recipients := item.recipients + {recipient}) else item
  }

  function DeliverTo(items: seq<Instruction>, ids: set<string>, recipient: string): seq<Instruction> {
    seq(|items|, i requires 0 <= i < |items| => DeliverOne(items[i], ids, recipient))
  }

  function DeliverSpec(c: Control, ids: set<string>, recipient: string): Control {
    c.(instructions := DeliverTo(c.instructions, ids, recipient))
  }

  function BeginFinalizeSpec(c: Control, completed: bool): Control {
    c.(state := Finalizing, cancelled := c.cancelled || !completed)
  }

  function Apply(c: Control, step: ControlStep): Control {
    match step
    case Prepare => PrepareSpec(c)
    case Steer(id, text) => SteerSpec(c, id, text)
    case Stop => StopSpec(c)
    case Enter => EnterSpec(c)
    case Leave => LeaveSpec(c)
    case Deliver(ids, recipient) => DeliverSpec(c, ids, recipient)
    case BeginFinalize(completed) => BeginFinalizeSpec(c, completed)
    case Finish(state) => c.(state := state)
  }

  function ApplyAll(c: Control, steps: seq<ControlStep>): Control
    decreases |steps|
  {
    if steps == [] then c else ApplyAll(Apply(c, steps[0]), steps[1..])
  }

  // ---- Whole runs ----

  // What was accepted: identifiers and texts, in order of acceptance.
  function Accepted(c: Control): seq<(string, string)> {
    seq(|c.instructions|, i requires 0 <= i < |c.instructions| => (c.instructions[i].id, c.instructions[i].text))
  }

  ghost predicate DeliveriesKept(c: Control, c': Control) {
    && |c.instructions| <= |c'.instructions|
    && forall i | 0 <= i < |c.instructions| :: c.instructions[i].recipients <= c'.instructions[i].recipients
  }

  /**
   Over every run, an accepted correction is never dropped, reordered or given
   another text, no delivery is forgotten, and cancellation is never withdrawn.
   */
  lemma {:induction false} AcceptedOnce(c: Control, steps: seq<ControlStep>)
    requires DistinctIds(c.instructions)
    ensures var c' := ApplyAll(c, steps);
      && DistinctIds(c'.instructions)
      && Accepted(c) <= Accepted(c')
      && DeliveriesKept(c, c')
      && (c.cancelled ==> c'.cancelled)
    decreases |steps|
  {
    if steps != [] {
      var c1 := Apply(c, steps[0]);
      AcceptedOnce(c1, steps[1..]);
      assert Accepted(c) <= Accepted(c1);
    }
  }

  // Step `k` of a run, and the control block it meets.
  function Before(c: Control, steps: seq<ControlStep>, k: nat): Control
    requires k <= |steps|
  {
    ApplyAll(c, steps[..k])
  }

  lemma {:induction false} ApplyAllAppend(c: Control, a: seq<ControlStep>, b: seq<ControlStep>)
    ensures ApplyAll(c, a + b) == ApplyAll(ApplyAll(c, a), b)
    decreases |a|
  {
    if a == [] {
      assert a + b == b;
    } else {
      assert (a + b)[0] == a[0] && (a + b)[1..] == a[1..] + b;
      ApplyAllAppend(Apply(c, a[0]), a[1..], b);
    }
  }

  lemma LastStep(c: Control, steps: seq<ControlStep>)
    requires steps != []
    ensures var n := |steps| - 1;
      ApplyAll(c, steps) == Apply(Before(c, steps, n), steps[n]) && forall k | 0 <= k <= n :: Before(c, steps[..n], k) == Before(c, steps, k)
  {
    var n := |steps| - 1;
    var t := Before(c, steps, n);
    ApplyAllAppend(c, steps[..n], [steps[n]]);
    assert steps == steps[..n] + [steps[n]] && [steps[n]][1..] == [] && ApplyAll(Apply(t, steps[n]), []) == Apply(t, steps[n]);
    assert forall k | 0 <= k <= n :: steps[..n][..k] == steps[..k];
  }

  // The step is a stop in time, or finds that the run did not complete.
  predicate StopsRun(c: Control, step: ControlStep) {
    (step.Stop? && (c.state.Preparing? || c.state.Running?)) || (step.BeginFinalize? && !step.completed)
  }

  ghost predicate StopsAt(c: Control, steps: seq<ControlStep>, k: nat) {
    k < |steps| && StopsRun(Before(c, steps, k), steps[k])
  }

  /** A run is cancelled if and only if it was stopped while preparing or running, or did not complete. */
  lemma {:induction false} CancelledIfStopped(c: Control, steps: seq<ControlStep>)
    requires !c.cancelled
    ensures ApplyAll(c, steps).cancelled <==> exists k: nat :: StopsAt(c, steps, k)
  {
    if steps != [] {
      var n := |steps| - 1;
      LastStep(c, steps);
      CancelledIfStopped(c, steps[..n]);
      assert forall k: nat | k < n :: StopsAt(c, steps, k) <==> StopsAt(c, steps[..n], k);
      assert StopsAt(c, steps, n) <==> StopsRun(Before(c, steps, n), steps[n]);
    }
  }

  // The step accepts a new correction.
  predicate AcceptsAt(c: Control, steps: seq<ControlStep>, k: nat) {
    k < |steps| && steps[k].Steer? && Before(c, steps, k).state.Running? && !Before(c, steps, k).Has(steps[k].id)
  }

  // The corrections that the first `n` steps accept, in order.
  function AcceptedBy(c: Control, steps: seq<ControlStep>, n: nat): seq<(string, string)>
    requires n <= |steps|
  {
    if n == 0 then []
    else AcceptedBy(c, steps, n - 1) + if AcceptsAt(c, steps, n - 1) then [(steps[n - 1].id, steps[n - 1].text)] else []
  }

  /** The mailbox holds exactly the corrections that were new when the run was running, in the order they came. */
  lemma {:induction false} AcceptsExactly(c: Control, steps: seq<ControlStep>, n: nat)
    requires n <= |steps|
    ensures Accepted(Before(c, steps, n)) == Accepted(c) + AcceptedBy(c, steps, n)
  {
    if n == 0 {
      assert steps[..0] == [];
    } else {
      AcceptsExactly(c, steps, n - 1);
      LastStep(c, steps[..n]);
      assert steps[..n][..n - 1] == steps[..n - 1];
      var before := Before(c, steps, n - 1);
      assert Before(c, steps, n) == Apply(before, steps[n - 1]);
      assert Accepted(Before(c, steps, n)) == Accepted(before) + if AcceptsAt(c, steps, n - 1) then [(steps[n - 1].id, steps[n - 1].text)] else [];
    }
  }

  // Step `k` acknowledges the correction `id`, accepted before, to `recipient`.
  ghost predicate DeliversAt(c: Control, steps: seq<ControlStep>, k: nat, id: string, recipient: string) {
    k < |steps| && steps[k].Deliver? && id in steps[k].ids && steps[k].recipient == recipient && Before(c, steps, k).Has(id)
  }

  /** A correction counts as delivered to exactly the recipients that acknowledged it after it was accepted. */
  lemma {:induction false} DeliveredExactly(c: Control, steps: seq<ControlStep>, item: Instruction, recipient: string)
    requires c.instructions == [] && item in ApplyAll(c, steps).instructions
    ensures recipient in item.recipients <==> exists k: nat :: DeliversAt(c, steps, k, item.id, recipient)
  {
    if steps != [] {
      var n := |steps| - 1;
      var before := Before(c, steps, n);
      LastStep(c, steps);
      var i :| 0 <= i < |ApplyAll(c, steps).instructions| && ApplyAll(c, steps).instructions[i] == item;
      assert forall k: nat | k < n :: DeliversAt(c, steps, k, item.id, recipient) <==> DeliversAt(c, steps[..n], k, item.id, recipient);
      AcceptedOnce(c, steps[..n]);
      if i < |before.instructions| {
        DeliveredExactly(c, steps[..n], before.instructions[i], recipient);
        assert before.Has(item.id);
        assert DeliversAt(c, steps, n, item.id, recipient) ==> recipient in item.recipients;
      } else {
        assert steps[n].Steer? && !before.Has(item.id) && item.recipients == {};
        NeverHad(c, steps, n, item.id);
      }
    }
  }

  // A correction that is not in the mailbox was never there.
  lemma {:induction false} NeverHad(c: Control, steps: seq<ControlStep>, n: nat, id: string)
    requires n <= |steps| && c.instructions == [] && !Before(c, steps, n).Has(id)
    ensures forall k: nat | k <= n :: !Before(c, steps, k).Has(id)
  {
    forall k: nat | k <= n
      ensures !Before(c, steps, k).Has(id)
    {
      ApplyAllAppend(c, steps[..k], steps[k..n]);
      assert steps[..k] + steps[k..n] == steps[..n];
      AcceptedOnce(c, steps[..k]);
      var early, late := Before(c, steps, k), Before(c, steps, n);
      AcceptedOnce(early, steps[k..n]);
      forall i | 0 <= i < |early.instructions|
        ensures early.instructions[i].id == late.instructions[i].id
      {
        assert Accepted(early)[i] == Accepted(late)[i];
      }
    }
  }

  /** A cancelled run never runs again, and nothing more is accepted for it. */
  lemma {:induction false} CancelledStays(c: Control, steps: seq<ControlStep>)
    requires c.cancelled && !c.state.Running? && forall step | step in steps :: step.Finish? ==> step.state.Terminal()
    ensures ApplyAll(c, steps).cancelled && !ApplyAll(c, steps).state.Running? && Accepted(ApplyAll(c, steps)) == Accepted(c)
    ensures ApplyAll(c, steps).operations <= c.operations
    decreases |steps|
  {
    if steps != [] {
      assert steps[0] in steps && Accepted(Apply(c, steps[0])) == Accepted(c);
      CancelledStays(Apply(c, steps[0]), steps[1..]);
    }
  }

  // The steps that can still happen once `finalize` closed admission: retries of
  // `steer`, late stops, operations unwinding, deliveries and the terminal state.
  // `Prepare` and a second `BeginFinalize` belong to the generator that has ended.
  predicate AfterClose(step: ControlStep) {
    !step.Prepare? && !step.BeginFinalize? && (step.Finish? ==> step.state.Terminal())
  }

  /**
   Once `finalize` has started nothing more is accepted and the cancellation
   flag is fixed, so the snapshot that `_reconcile` takes later misses nothing.
   */
  lemma {:induction false} ClosedAfterFinalize(c: Control, completed: bool, steps: seq<ControlStep>)
    requires forall step | step in steps :: AfterClose(step)
    ensures var closed := BeginFinalizeSpec(c, completed);
      && Accepted(ApplyAll(closed, steps)) == Accepted(c)
      && ApplyAll(closed, steps).cancelled == (c.cancelled || !completed)
  {
    StaysClosed(BeginFinalizeSpec(c, completed), steps);
    assert Accepted(BeginFinalizeSpec(c, completed)) == Accepted(c);
  }

  lemma {:induction false} StaysClosed(c: Control, steps: seq<ControlStep>)
    requires c.state.Finalizing? || c.state.Terminal()
    requires forall step | step in steps :: AfterClose(step)
    ensures Accepted(ApplyAll(c, steps)) == Accepted(c)
    ensures ApplyAll(c, steps).cancelled == c.cancelled
    ensures c.cancelled ==> ApplyAll(c, steps).operations <= c.operations
    decreases |steps|
  {
    if steps != [] {
      assert AfterClose(steps[0]);
      var c1 := Apply(c, steps[0]);
      assert Accepted(c1) == Accepted(c);
      StaysClosed(c1, steps[1..]);
    }
  }

  class RunControl {
    var state: RunState
    var instructions: seq<Instruction>
    var cancelled: bool
    var operations: int

    function Value(): Control
      reads this
    {
      Control(state, instructions, cancelled, operations)
    }

    ghost predicate Valid()
      reads this
    {
      DistinctIds(instructions)
    }

    constructor ()
      ensures Valid() && Value() == Control(Running, [], false, 0)
    {
      state, instructions, cancelled, operations := Running, [], false, 0;
    }

    // The dictionary lookup `instructions.get(id)`.
    method Find(id: string) returns (index: Option<nat>)
      ensures index.Some? ==> index.value < |instructions| && instructions[index.value].id == id
      ensures index.None? <==> !Value().Has(id)
    {
      for i := 0 to |instructions|
        invariant forall j | 0 <= j < i :: instructions[j].id != id
      {
        if instructions[i].id == id {
          return Some(i);
        }
      }
      return None;
    }

    /** Accepts a correction once; a retry changes nothing, and another text under the same identifier is refused. */
    method Steer(id: string, text: string) returns (refused: Option<SteerError>)
      requires Valid()
      modifies this`instructions
      ensures Valid() && Value() == SteerSpec(old(Value()), id, text)
      ensures refused.None? <==> Value().HasText(id, text)
      ensures refused == Some(DifferentText) <==> old(Value().Has(id) && !Value().HasText(id, text))
      ensures refused == Some(NotAccepting) <==> old(!Value().Has(id) && !state.Running?)
      ensures Accepted(Value()) == old(Accepted(Value())) + if old(!Value().Has(id) && state.Running?) then [(id, text)] else []
    {
      var existing := Find(id);
      if existing.Some? {
        if instructions[existing.value].text != text {
          return Some(DifferentText);
        }
        return None;
      }
      if !state.Running? {
        return Some(NotAccepting);
      }
      instructions := instructions + [Instruction(id, text, {})];
      assert instructions[|instructions| - 1].id == id;
      return None;
    }

    method Stop()
      modifies this`state, this`cancelled
      ensures Value() == StopSpec(old(Value()))
      ensures cancelled == (old(cancelled) || old(state) in {Preparing, RunState.Running})
      ensures state == if old(state) in {Preparing, RunState.Running} then Stopping else old(state)
    {
      if !(state.Preparing? || state.Running?) {
        return;
      }
      state, cancelled := Stopping, true;
    }

    /** Registers an operation unless the run is cancelled; the test and the count are one critical section. */
    method EnterOperation() returns (stopped: Option<Stopped>)
      modifies this`operations
      ensures Value() == EnterSpec(old(Value()))
      ensures stopped.None? <==> !cancelled
      ensures operations == old(operations) + if stopped.None? then 1 else 0
    {
      if cancelled {
        return Some(Stopped);
      }
      operations := operations + 1;
      return None;
    }

    method LeaveOperation()
      modifies this`operations
      ensures Value() == LeaveSpec(old(Value()))
    {
      operations := operations - 1;
    }

    /** Acknowledges that the corrections in `ids` reached the model of `recipient`. */
    method Applied(ids: set<string>, recipient: string)
      requires Valid()
      modifies this`instructions
      ensures Valid() && Value() == DeliverSpec(old(Value()), ids, recipient)
    {
      var left := ids;
      while left != {}
        invariant left <= ids
        invariant Valid() && instructions == DeliverTo(old(instructions), ids - left, recipient)
        decreases left
      {
        ghost var before := instructions;
        var key :| key in left;
        left := left - {key};
        var found := Find(key);
        if found.Some? && recipient !in instructions[found.value].recipients {
          var item := instructions[found.value];
          instructions := instructions[found.value := item.(recipients := item.recipients + {recipient})];
        }
        forall i | 0 <= i < |before|
          ensures instructions[i] == DeliverOne(before[i], {key}, recipient)
        {
          if before[i].id == key && recipient in before[i].recipients {
            assert before[i].recipients + {recipient} == before[i].recipients;
          }
        }
        assert instructions == DeliverTo(before, {key}, recipient);
        DeliverStep(old(instructions), ids - left - {key}, key, recipient);
        assert ids - left == ids - left - {key} + {key};
      }
      assert ids - left == ids;
    }

    method Prepare()
      modifies this`state
      ensures Value() == PrepareSpec(old(Value()))
      ensures state == (if cancelled then old(state) else RunState.Running) && cancelled == old(cancelled)
    {
      if !cancelled {
        state := Running;
      }
    }

    method BeginFinalize(completed: bool)
      modifies this`state, this`cancelled
      ensures Value() == BeginFinalizeSpec(old(Value()), completed)
    {
      if !completed {
        cancelled := true;
      }
      state := Finalizing;
    }
  }

  lemma DeliverStep(items: seq<Instruction>, ids: set<string>, key: string, recipient: string)
    ensures DeliverTo(items, ids + {key}, recipient) == DeliverTo(DeliverTo(items, ids, recipient), {key}, recipient)
  {
  }
}
