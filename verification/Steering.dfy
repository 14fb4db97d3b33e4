/**
 How one graph receives the corrections of a run: `before_model` adds what the
 graph has not seen, and the identifiers it has seen are saved with its state.
 */
module Steering {
  import opened Wrappers
  import opened Sequences
  import RC = RunControl

  // The saved part of a graph's state.
  datatype GraphState = GraphState(run: Option<string>, seen: set<string>)

  function IdsOf(items: seq<RC.Instruction>): seq<string> {
    seq(|items|, i requires 0 <= i < |items| => items[i].id)
  }

  function Unseen(items: seq<RC.Instruction>, seen: set<string>): seq<string> {
    if items == [] then []
    else if items[0].id in seen then Unseen(items[1..], seen)
    else [items[0].id] + Unseen(items[1..], seen)
  }

  function AsSet(ids: seq<string>): set<string> {
    set id | id in ids
  }

  // What an earlier call of this run recorded; another run's record does not count.
  function SeenIn(state: GraphState, run: string): set<string> {
    if state.run == Some(run) then state.seen else {}
  }

  // What one call adds, `None` if the run is cancelled, and the state saved with it.
  function BeforeModelSpec(c: RC.Control, run: string, state: GraphState): (Option<seq<string>>, GraphState) {
    if c.cancelled then (None, state)
    else
      var seen := SeenIn(state, run);
      var added := Unseen(c.instructions, seen);
      (Some(added), if added == [] then state else GraphState(Some(run), seen + AsSet(added)))
  }

  /** One call before the model: the corrections to add, and the state saved with them. */
  method BeforeModel(c: RC.Control, run: string, state: GraphState) returns (added: Option<seq<string>>, saved: GraphState)
    ensures (added, saved) == BeforeModelSpec(c, run, state)
    ensures added.None? <==> c.cancelled
    ensures added.None? || added.value == [] ==> saved == state
  {
    if c.cancelled {
      return None, state;
    }
    var seen := if state.run == Some(run) then state.seen else {};
    var messages: seq<string> := [];
    assert c.instructions[0..] == c.instructions;
    for i := 0 to |c.instructions|
      invariant messages + Unseen(c.instructions[i..], seen) == Unseen(c.instructions, seen)
    {
      assert c.instructions[i..][1..] == c.instructions[i + 1..];
      if c.instructions[i].id !in seen {
        messages := messages + [c.instructions[i].id];
      }
    }
    assert messages + [] == messages == Unseen(c.instructions, seen);
    if messages == [] {
      return Some([]), state;
    }
    return Some(messages), GraphState(Some(run), seen + AsSet(messages));
  }

  // ---- All calls of one run ----

  // Successive calls of one graph, each with the mailbox as it is then and the state
  // that the call before saved: all that was added, and the last state.
  function Calls(rounds: seq<RC.Control>, run: string, state: GraphState): (seq<string>, GraphState) {
    if rounds == [] then ([], state)
    else
      var (added, saved) := BeforeModelSpec(rounds[0], run, state);
      var (more, last) := Calls(rounds[1..], run, saved);
      ((if added.Some? then added.value else []) + more, last)
  }

  // Each mailbox extends the one before, and nobody stopped the run.
  ghost predicate Growing(rounds: seq<RC.Control>) {
    && (forall i | 0 <= i < |rounds| :: RC.DistinctIds(rounds[i].instructions) && !rounds[i].cancelled)
    && (forall i | 0 <= i < |rounds| - 1 :: IdsOf(rounds[i].instructions) <= IdsOf(rounds[i + 1].instructions))
  }

  // The graph was given exactly `before` by this run so far; at first that is nothing.
  ghost predicate HasSeen(state: GraphState, run: string, before: seq<string>) {
    if state.run == Some(run) then state.seen == AsSet(before) else before == []
  }

  lemma {:induction false} UnseenIsTail(items: seq<RC.Instruction>, seen: set<string>, n: nat)
    requires RC.DistinctIds(items) && n <= |items|
    requires forall i | 0 <= i < n :: items[i].id in seen
    requires forall i | n <= i < |items| :: items[i].id !in seen
    ensures Unseen(items, seen) == IdsOf(items)[n..]
  {
    if items != [] {
      UnseenIsTail(items[1..], seen, if n == 0 then 0 else n - 1);
      assert IdsOf(items)[1..] == IdsOf(items[1..]);
    }
  }

  lemma FirstRound(items: seq<RC.Instruction>, before: seq<string>)
    requires RC.DistinctIds(items) && before <= IdsOf(items)
    ensures before + Unseen(items, AsSet(before)) == IdsOf(items)
    ensures AsSet(before) + AsSet(Unseen(items, AsSet(before))) == AsSet(IdsOf(items))
  {
    var ids := IdsOf(items);
    forall i | 0 <= i < |items|
      ensures i < |before| ==> items[i].id in AsSet(before)
      ensures i >= |before| ==> items[i].id !in AsSet(before)
    {
      assert ids[i] == items[i].id;
      assert forall j | 0 <= j < |before| :: before[j] == ids[j] == items[j].id;
    }
    UnseenIsTail(items, AsSet(before), |before|);
    assert before + ids[|before|..] == ids;
    assert forall id | id in ids :: id in before || id in ids[|before|..];
  }

  // After one call the graph has been given the whole mailbox.
  lemma OneCall(c: RC.Control, run: string, state: GraphState, before: seq<string>)
    requires RC.DistinctIds(c.instructions) && !c.cancelled && HasSeen(state, run, before) && before <= IdsOf(c.instructions)
    ensures var (added, saved) := BeforeModelSpec(c, run, state);
      added.Some? && before + added.value == IdsOf(c.instructions) && HasSeen(saved, run, IdsOf(c.instructions))
  {
    assert SeenIn(state, run) == AsSet(before);
    FirstRound(c.instructions, before);
  }

  lemma GrowingTail(rounds: seq<RC.Control>)
    requires Growing(rounds) && rounds != []
    ensures Growing(rounds[1..])
    ensures |rounds| > 1 ==> IdsOf(rounds[0].instructions) <= IdsOf(rounds[1..][0].instructions)
  {
    assert |rounds| > 1 ==> IdsOf(rounds[0].instructions) <= IdsOf(rounds[0 + 1].instructions);
    forall i | 0 <= i < |rounds[1..]| - 1
      ensures IdsOf(rounds[1..][i].instructions) <= IdsOf(rounds[1..][i + 1].instructions)
    {
      assert IdsOf(rounds[i + 1].instructions) <= IdsOf(rounds[i + 2].instructions);
    }
  }

  lemma {:induction false} GivenSoFar(rounds: seq<RC.Control>, run: string, state: GraphState, before: seq<string>)
    requires rounds != [] && Growing(rounds) && HasSeen(state, run, before) && before <= IdsOf(rounds[0].instructions)
    ensures var (given, last) := Calls(rounds, run, state); var mailbox := IdsOf(rounds[|rounds| - 1].instructions);
      before + given == mailbox && HasSeen(last, run, mailbox)
    decreases |rounds|
  {
    var ids := IdsOf(rounds[0].instructions);
    OneCall(rounds[0], run, state, before);
    var (added, saved) := BeforeModelSpec(rounds[0], run, state);
    var (more, last) := Calls(rounds[1..], run, saved);
    Regroup(before, added.value, more);
    if |rounds| > 1 {
      GrowingTail(rounds);
      GivenSoFar(rounds[1..], run, saved, ids);
      assert rounds[1..][|rounds| - 2] == rounds[|rounds| - 1];
    } else {
      assert more == [] && ids + more == ids;
    }
  }

  /**
   However its calls interleave with new corrections, and whatever another run left
   in its state, a graph is given every correction of the run exactly once, in order
   of acceptance, and one more call gives it nothing.
   */
  lemma GivenOnceInOrder(rounds: seq<RC.Control>, run: string, state: GraphState)
    requires rounds != [] && Growing(rounds) && state.run != Some(run)
    ensures var (given, last) := Calls(rounds, run, state); var final := rounds[|rounds| - 1];
      given == IdsOf(final.instructions) && BeforeModelSpec(final, run, last) == (Some([]), last)
  {
    GivenSoFar(rounds, run, state, []);
    var (given, last) := Calls(rounds, run, state);
    var final := rounds[|rounds| - 1];
    var mailbox := IdsOf(final.instructions);
    assert [] + given == given;
    assert Growing(rounds) ==> RC.DistinctIds(final.instructions) && !final.cancelled;
    OneCall(final, run, last, mailbox);
    assert mailbox + BeforeModelSpec(final, run, last).0.value == mailbox;
  }
}
