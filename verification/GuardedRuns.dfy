/**
 Every run of a guarded agent: several calls in a message, runs that are stopped
 and whose open calls reconciliation answers, processes that die, and receipts
 saved around a pause.
 */
module GuardedRuns {
  import opened Wrappers
  import opened LoopGuard
  import opened GuardedBatches

  // ---- Runs ----

  datatype Phase = Ready | Called(calls: seq<Call>) | Ended

  // `executed` are all calls whose result entered the history; `refused` those whose refusals close
  // the history; the last two numbers count executions and refusals since the
  // last human message or stop.
  datatype Run = Run(
    messages: seq<Message>,
    phase: Phase,
    batches: seq<Batch>,
    executed: seq<Call>,
    refused: seq<Call>,
    worked: nat,
    wasted: nat)

  // `Die` is the end of the process, which leaves calls open. `Cancel` is the
  // reconciliation of a stopped run: `left` is the history without the
  // corrections it takes back. `Deliver` saves receipts of a run that was not
  // stopped, before the pending calls if it is paused.
  datatype Event =
    | HumanSpeaks
    | ModelCalls(calls: seq<Call>)
    | ModelAnswers
    | ToolStep
    | Die
    | Deliver(receipts: nat)
    | Cancel(left: seq<Message>, receipts: nat, partial: bool)

  const START: Run := Run([], Ended, [], [], [], 0, 0)

  function IssuedCalls(messages: seq<Message>): seq<Call> {
    if messages == [] then []
    else
      var front, last := messages[..|messages| - 1], messages[|messages| - 1];
      if last.Issues() then IssuedCalls(front) + last.calls else IssuedCalls(front)
  }

  // New identifiers, all different.
  ghost predicate NewCalls(messages: seq<Message>, calls: seq<Call>) {
    && calls != []
    && (forall c | c in calls :: c.Identified())
    && (forall i, j | 0 <= i < j < |calls| :: calls[i].id != calls[j].id)
    && (forall c, d | c in calls && d in IssuedCalls(messages) :: c.id != d.id)
    && (forall c, m | c in calls && m in messages && m.Tool? :: c.id != Some(m.callId))
  }

  predicate IsOpen(messages: seq<Message>, call: Call) {
    call.Identified() && forall m | m in messages && m.Tool? :: call.id != Some(m.callId)
  }

  // The issued calls without a result, in order.
  function OpenAmong(messages: seq<Message>, calls: seq<Call>): seq<Call> {
    if calls == [] then []
    else
      var front, last := calls[..|calls| - 1], calls[|calls| - 1];
      if IsOpen(messages, last) then OpenAmong(messages, front) + [last] else OpenAmong(messages, front)
  }

  function Open(messages: seq<Message>): seq<Call> {
    OpenAmong(messages, IssuedCalls(messages))
  }

  function Humans(n: nat): seq<Message> {
    seq(n, _ => Human)
  }

  ghost predicate DropsHumans(messages: seq<Message>, left: seq<Message>)
    decreases |messages|
  {
    if messages == [] then left == []
    else
      var front, last := messages[..|messages| - 1], messages[|messages| - 1];
      || (left != [] && left[|left| - 1] == last && DropsHumans(front, left[..|left| - 1]))
      || (last.Human? && DropsHumans(front, left))
  }

  // The result of one tested call.
  function Answer(p: Option<Signature>, call: Call): Message {
    if Stops(p, call) then Refusal(call) else Tool(Or(call.id, ""), call.name, false)
  }

  function Answers(p: Option<Signature>, calls: seq<Call>): seq<Message> {
    if calls == [] then [] else Answers(p, calls[..|calls| - 1]) + [Answer(p, calls[|calls| - 1])]
  }

  function CancelledResults(calls: seq<Call>): seq<Message> {
    if calls == [] then [] else CancelledResults(calls[..|calls| - 1]) + [Tool(Or(calls[|calls| - 1].id, ""), None, false)]
  }

  // The refusals that close the history once these calls were tested.
  function Streak(p: Option<Signature>, refused: seq<Call>, calls: seq<Call>): seq<Call> {
    if calls == [] then refused
    else
      var front, last := calls[..|calls| - 1], calls[|calls| - 1];
      if Stops(p, last) then Streak(p, refused, front) + [last] else []
  }

  ghost function ModelStep(s: Run, limit: nat, event: Event): Run
    requires s.phase.Ready? && (event.ModelCalls? || event.ModelAnswers?)
  {
    var stop := StopSpec(s.messages, limit);
    if stop.Some? then s.(messages := s.messages + [stop.value], phase := Ended)
    else if event.ModelAnswers? then s.(messages := s.messages + [Ai([])], phase := Ended)
    else if NewCalls(s.messages, event.calls) then s.(messages := s.messages + [Ai(event.calls)], phase := Called(event.calls))
    else s
  }

  // All calls of a message are tested against the history that ends with it.
  function ToolRuns(s: Run): Run
    requires s.phase.Called?
  {
    var p, calls := Previous(s.messages), s.phase.calls;
    var passed := Passed(p, calls);
    Run(s.messages + Answers(p, calls), Ready, s.batches + [Ran(calls)], s.executed + passed, Streak(p, s.refused, calls),
      s.worked + |passed|, s.wasted + if |calls| >= |passed| then |calls| - |passed| else 0)
  }

  // What reconciliation adds after the results: receipts and the closing answers.
  function Closing(receipts: nat, partial: bool): seq<Message> {
    Humans(receipts) + (if partial then [Ai([]), Ai([])] else [Ai([])])
  }

  function CancelledBatch(left: seq<Message>): seq<Batch> {
    var open := Open(left);
    if open == [] then [] else [Cancelled(open, Issued(left, Or(open[|open| - 1].id, "")).Some?)]
  }

  function CancelRun(s: Run, left: seq<Message>, receipts: nat, partial: bool): Run {
    Run(left + CancelledResults(Open(left)) + Closing(receipts, partial), Ended, s.batches + CancelledBatch(left), s.executed, [], 0, 0)
  }

  function DeliverReceipts(s: Run, receipts: nat): Run {
    var n := if s.phase.Called? && s.messages != [] then |s.messages| - 1 else |s.messages|;
    s.(messages := s.messages[..n] + Humans(receipts) + s.messages[n..], refused := [], worked := 0, wasted := 0)
  }

  ghost function Next(s: Run, limit: nat, event: Event): Run {
    match event
    case HumanSpeaks =>
      if s.phase.Called? then s else s.(messages := s.messages + [Human], phase := Ready, refused := [], worked := 0, wasted := 0)
    case ModelCalls(_) => if s.phase.Ready? then ModelStep(s, limit, event) else s
    case ModelAnswers => if s.phase.Ready? then ModelStep(s, limit, event) else s
    case ToolStep => if s.phase.Called? then ToolRuns(s) else s
    case Die => s.(phase := Ended)
    case Deliver(receipts) => if s.phase.Ready? || receipts == 0 then s else DeliverReceipts(s, receipts)
    case Cancel(left, receipts, partial) => if DropsHumans(s.messages, left) then CancelRun(s, left, receipts, partial) else s
  }

  ghost function After(s: Run, limit: nat, events: seq<Event>): Run
    decreases |events|
  {
    if events == [] then s else After(Next(s, limit, events[0]), limit, events[1..])
  }

  // ---- What every step keeps ----

  ghost predicate AllRepeat(refused: seq<Call>, p: Option<Signature>) {
    forall i | 0 <= i < |refused| :: Stops(p, refused[i])
  }

  // The scan counts exactly `refused`, and ends with the name of the first of them.
  ghost predicate CountsTrailing(messages: seq<Message>, refused: seq<Call>) {
    forall count: nat, name ::
      Trailing(messages, count, name) == (count + |refused|, if refused == [] then name else Or(refused[0].name, "tool"))
  }

  // One identifier, one call.
  ghost predicate Consistent(messages: seq<Message>) {
    forall c, d | c in IssuedCalls(messages) && d in IssuedCalls(messages) && c.id == d.id :: c == d
  }

  ghost predicate Pending(messages: seq<Message>, calls: seq<Call>) {
    && messages != [] && messages[|messages| - 1] == Ai(calls)
    && NewCalls(messages[..|messages| - 1], calls)
  }

  ghost predicate Inv(s: Run, limit: nat) {
    && Previous(s.messages) == LastKey(s.batches)
    && s.executed == Executions(s.batches)
    && Nonempty(s.batches)
    && Consistent(s.messages)
    && (s.phase.Called? ==> Pending(s.messages, s.phase.calls) && |s.refused| < limit)
    && (!s.phase.Ended? ==> CountsTrailing(s.messages, s.refused) && AllRepeat(s.refused, LastKey(s.batches)))
  }

  lemma AppendPrevious(messages: seq<Message>, m: Message)
    ensures Previous(messages + [m]) == if m.Tool? then Issued(messages, m.callId) else Previous(messages)
    ensures IssuedCalls(messages + [m]) == if m.Issues() then IssuedCalls(messages) + m.calls else IssuedCalls(messages)
    ensures forall id :: Issued(messages + [m], id) == if m.Issues() then FindCall(m.calls, id) else Issued(messages, id)
  {
    assert (messages + [m])[..|messages|] == messages;
  }

  lemma AppendAi(messages: seq<Message>, m: Message, refused: seq<Call>)
    requires CountsTrailing(messages, refused) && m.IsAi()
    ensures CountsTrailing(messages + [m], refused)
  {
    assert (messages + [m])[..|messages|] == messages;
  }

  lemma AppendRefusal(messages: seq<Message>, call: Call, refused: seq<Call>)
    requires CountsTrailing(messages, refused)
    ensures CountsTrailing(messages + [Refusal(call)], refused + [call])
  {
    assert (messages + [Refusal(call)])[..|messages|] == messages;
  }

  lemma AppendOther(messages: seq<Message>, m: Message)
    requires m.Human? || (m.Tool? && !m.refusal)
    ensures CountsTrailing(messages + [m], [])
  {
  }

  // Results leave the issued calls alone.
  lemma {:induction false} AppendTools(messages: seq<Message>, tools: seq<Message>)
    requires forall m | m in tools :: m.Tool?
    ensures IssuedCalls(messages + tools) == IssuedCalls(messages)
    ensures forall id :: Issued(messages + tools, id) == Issued(messages, id)
    ensures tools != [] ==> Previous(messages + tools) == Issued(messages, tools[|tools| - 1].callId)
  {
    if tools == [] {
      assert messages + tools == messages;
    } else {
      var n := |tools| - 1;
      AppendTools(messages, tools[..n]);
      AppendPrevious(messages + tools[..n], tools[n]);
      assert messages + tools == (messages + tools[..n]) + [tools[n]];
    }
  }

  // Messages without calls or results change nothing the guard looks up.
  lemma {:induction false} AppendQuiet(messages: seq<Message>, more: seq<Message>)
    requires forall m | m in more :: m.Human? || m == Ai([])
    ensures Previous(messages + more) == Previous(messages) && IssuedCalls(messages + more) == IssuedCalls(messages)
  {
    if more == [] {
      assert messages + more == messages;
    } else {
      var n := |more| - 1;
      assert more[n] in more && forall m | m in more[..n] :: m in more;
      AppendQuiet(messages, more[..n]);
      AppendPrevious(messages + more[..n], more[n]);
      assert !Ai([]).Issues();
      assert messages + more == (messages + more[..n]) + [more[n]];
    }
  }

  lemma {:induction false} AnswersShape(p: Option<Signature>, calls: seq<Call>)
    ensures |Answers(p, calls)| == |calls| && forall m | m in Answers(p, calls) :: m.Tool?
    ensures forall i | 0 <= i < |calls| :: Answers(p, calls)[i] == Answer(p, calls[i])
  {
    if calls != [] {
      AnswersShape(p, calls[..|calls| - 1]);
    }
  }

  lemma {:induction false} CancelledShape(calls: seq<Call>)
    ensures |CancelledResults(calls)| == |calls| && forall m | m in CancelledResults(calls) :: m.Tool? && !m.refusal
    ensures forall i | 0 <= i < |calls| :: CancelledResults(calls)[i] == Tool(Or(calls[i].id, ""), None, false)
  {
    if calls != [] {
      CancelledShape(calls[..|calls| - 1]);
    }
  }

  lemma {:induction false} CountsAnswers(messages: seq<Message>, p: Option<Signature>, calls: seq<Call>, refused: seq<Call>)
    requires CountsTrailing(messages, refused)
    ensures CountsTrailing(messages + Answers(p, calls), Streak(p, refused, calls))
  {
    if calls == [] {
      assert messages + [] == messages;
    } else {
      var front, last := calls[..|calls| - 1], calls[|calls| - 1];
      CountsAnswers(messages, p, front, refused);
      var before := messages + Answers(p, front);
      assert messages + Answers(p, calls) == before + [Answer(p, last)];
      if Stops(p, last) {
        AppendRefusal(before, last, Streak(p, refused, front));
      } else {
        AppendOther(before, Answer(p, last));
      }
    }
  }

  lemma {:induction false} StreakRepeats(p: Option<Signature>, refused: seq<Call>, calls: seq<Call>)
    requires AllRepeat(refused, p)
    ensures AllRepeat(Streak(p, refused, calls), p)
    ensures calls != [] && !Stops(p, calls[|calls| - 1]) ==> Streak(p, refused, calls) == []
  {
    if calls != [] {
      StreakRepeats(p, refused, calls[..|calls| - 1]);
    }
  }

  lemma {:induction false} FindOwn(calls: seq<Call>, i: nat)
    requires i < |calls| && calls[i].id.Some? && forall k, j | 0 <= k < j < |calls| :: calls[k].id != calls[j].id
    ensures FindCall(calls, calls[i].id.value) == Some(calls[i].Key())
  {
    if i > 0 {
      FindOwn(calls[1..], i - 1);
    }
  }

  // The result of a call of the last message is found again.
  lemma FindLast(messages: seq<Message>, calls: seq<Call>, i: nat)
    requires Pending(messages, calls) && i < |calls|
    ensures Issued(messages, Or(calls[i].id, "")) == Some(calls[i].Key())
  {
    assert calls[i] in calls && Ai(calls).Issues();
    FindOwn(calls, i);
  }

  lemma ToolKeeps(s: Run, limit: nat)
    requires Inv(s, limit) && s.phase.Called?
    ensures Inv(ToolRuns(s), limit)
  {
    var p, calls := Previous(s.messages), s.phase.calls;
    var n := |calls| - 1;
    AnswersShape(p, calls);
    AppendTools(s.messages, Answers(p, calls));
    assert calls[n] in calls;
    FindLast(s.messages, calls, n);
    CountsAnswers(s.messages, p, calls, s.refused);
    StreakRepeats(p, s.refused, calls);
    assert (s.batches + [Ran(calls)])[..|s.batches|] == s.batches;
  }

  lemma ModelKeeps(s: Run, limit: nat, event: Event)
    requires Inv(s, limit) && s.phase.Ready? && (event.ModelCalls? || event.ModelAnswers?)
    ensures Inv(ModelStep(s, limit, event), limit)
  {
    var stop := StopSpec(s.messages, limit);
    var m := if stop.Some? then stop.value else if event.ModelAnswers? then Ai([]) else Ai(event.calls);
    AppendPrevious(s.messages, m);
    AppendAi(s.messages, m, s.refused);
    assert stop.Some? <==> |s.refused| >= limit;
    assert (s.messages + [m])[..|s.messages|] == s.messages;
    if stop.None? && event.ModelCalls? && NewCalls(s.messages, event.calls) {
      NewIsConsistent(s.messages, event.calls);
    }
  }

  lemma NewIsConsistent(messages: seq<Message>, calls: seq<Call>)
    requires Consistent(messages) && NewCalls(messages, calls)
    ensures Consistent(messages + [Ai(calls)])
  {
    AppendPrevious(messages, Ai(calls));
    var all := IssuedCalls(messages) + calls;
    forall c, d | c in all && d in all && c.id == d.id
      ensures c == d
    {
      if c in calls && d in calls {
        var i :| 0 <= i < |calls| && calls[i] == c;
        var j :| 0 <= j < |calls| && calls[j] == d;
      }
    }
  }

  // ---- Stopped runs ----

  lemma {:induction false} DropKeeps(messages: seq<Message>, left: seq<Message>)
    requires DropsHumans(messages, left)
    ensures Previous(left) == Previous(messages) && IssuedCalls(left) == IssuedCalls(messages)
    ensures forall id :: Issued(left, id) == Issued(messages, id)
    ensures forall m: Message | m.Tool? :: m in left <==> m in messages
    decreases |messages|
  {
    if messages != [] {
      var front, last := messages[..|messages| - 1], messages[|messages| - 1];
      assert messages == front + [last];
      if left != [] && left[|left| - 1] == last && DropsHumans(front, left[..|left| - 1]) {
        DropKeeps(front, left[..|left| - 1]);
        assert left == left[..|left| - 1] + [last];
      } else {
        DropKeeps(front, left);
      }
    }
  }

  lemma {:induction false} OpenShape(messages: seq<Message>, calls: seq<Call>)
    ensures forall c | c in OpenAmong(messages, calls) :: c in calls && IsOpen(messages, c)
    ensures calls != [] && IsOpen(messages, calls[|calls| - 1]) ==>
      OpenAmong(messages, calls) != [] && OpenAmong(messages, calls)[|OpenAmong(messages, calls)| - 1] == calls[|calls| - 1]
  {
    if calls != [] {
      OpenShape(messages, calls[..|calls| - 1]);
      assert calls == calls[..|calls| - 1] + [calls[|calls| - 1]];
    }
  }

  lemma {:induction false} FoundCall(calls: seq<Call>, id: string) returns (c: Call)
    requires FindCall(calls, id).Some?
    ensures c in calls && c.id == Some(id) && FindCall(calls, id) == Some(c.Key())
  {
    if calls[0].id == Some(id) {
      c := calls[0];
    } else {
      c := FoundCall(calls[1..], id);
    }
  }

  lemma {:induction false} FoundIssued(messages: seq<Message>, id: string) returns (c: Call)
    requires Issued(messages, id).Some?
    ensures c in IssuedCalls(messages) && c.id == Some(id) && Issued(messages, id) == Some(c.Key())
  {
    var front, last := messages[..|messages| - 1], messages[|messages| - 1];
    if last.Issues() {
      c := FoundCall(last.calls, id);
    } else {
      c := FoundIssued(front, id);
    }
  }

  // A result of an open call shows that call, or nothing if its message is no longer the latest.
  lemma CancelledKey(messages: seq<Message>)
    requires Consistent(messages) && Open(messages) != []
    ensures var open := Open(messages); var last := open[|open| - 1];
      && last.Identified()
      && (Issued(messages, Or(last.id, "")).Some? ==> Issued(messages, Or(last.id, "")) == Some(last.Key()))
  {
    var open := Open(messages);
    var last := open[|open| - 1];
    OpenShape(messages, IssuedCalls(messages));
    assert last in open;
    if Issued(messages, last.id.value).Some? {
      var c := FoundIssued(messages, last.id.value);
    }
  }

  lemma CancelledHistory(left: seq<Message>, receipts: nat, partial: bool)
    requires Consistent(left)
    ensures var after := left + CancelledResults(Open(left)) + Closing(receipts, partial);
      && IssuedCalls(after) == IssuedCalls(left)
      && Previous(after) == if Open(left) == [] then Previous(left) else LastKey(CancelledBatch(left))
  {
    var open := Open(left);
    var results := CancelledResults(open);
    CancelledShape(open);
    AppendTools(left, results);
    AppendQuiet(left + results, Closing(receipts, partial));
    if open == [] {
      assert left + results == left;
    } else {
      CancelledKey(left);
    }
  }

  lemma CancelledExecutes(batches: seq<Batch>, left: seq<Message>)
    requires Nonempty(batches)
    ensures Executions(batches + CancelledBatch(left)) == Executions(batches) && Nonempty(batches + CancelledBatch(left))
    ensures LastKey(batches + CancelledBatch(left)) == if Open(left) == [] then LastKey(batches) else LastKey(CancelledBatch(left))
  {
    if Open(left) == [] {
      assert batches + CancelledBatch(left) == batches;
    } else {
      assert (batches + CancelledBatch(left))[..|batches|] == batches;
    }
  }

  lemma CancelKeeps(s: Run, limit: nat, left: seq<Message>, receipts: nat, partial: bool)
    requires Inv(s, limit) && DropsHumans(s.messages, left)
    ensures Inv(CancelRun(s, left, receipts, partial), limit)
  {
    DropKeeps(s.messages, left);
    CancelledHistory(left, receipts, partial);
    CancelledExecutes(s.batches, left);
  }

  lemma PendingIsOpen(messages: seq<Message>, calls: seq<Call>, left: seq<Message>)
    requires Pending(messages, calls) && DropsHumans(messages, left)
    ensures var open := Open(left); open != [] && open[|open| - 1] == calls[|calls| - 1]
  {
    var front, last := messages[..|messages| - 1], calls[|calls| - 1];
    DropKeeps(messages, left);
    assert last in calls && messages == front + [Ai(calls)];
    AppendPrevious(front, Ai(calls));
    assert Ai(calls).Issues();
    var issued := IssuedCalls(left);
    assert issued == IssuedCalls(front) + calls;
    assert forall m | m in left && m.Tool? :: m in front;
    OpenShape(left, issued);
  }

  /** Stopping a run while calls are pending shows the guard the last of them, though no result of them enters the history. */
  lemma StopShowsPendingCall(s: Run, limit: nat, left: seq<Message>, receipts: nat, partial: bool)
    requires Inv(s, limit) && s.phase.Called? && DropsHumans(s.messages, left)
    ensures var s' := CancelRun(s, left, receipts, partial); var calls := s.phase.calls;
      LastKey(s'.batches) == Previous(s'.messages) == Some(calls[|calls| - 1].Key()) && s'.executed == s.executed
  {
    CancelKeeps(s, limit, left, receipts, partial);
    PendingIsOpen(s.messages, s.phase.calls, left);
    FindLast(s.messages, s.phase.calls, |s.phase.calls| - 1);
    DropKeeps(s.messages, left);
    CancelledExecutes(s.batches, left);
  }

  // Receipts put before the pending calls interrupt the refusals and nothing else.
  lemma DeliverBefore(front: seq<Message>, last: Message, humans: seq<Message>)
    requires last.IsAi() && humans != [] && forall m | m in humans :: m.Human?
    ensures Previous(front + humans + [last]) == Previous(front + [last])
    ensures IssuedCalls(front + humans + [last]) == IssuedCalls(front + [last]) && IssuedCalls(front + humans) == IssuedCalls(front)
    ensures CountsTrailing(front + humans + [last], [])
  {
    var n := |humans| - 1;
    AppendQuiet(front, humans);
    AppendPrevious(front, last);
    AppendPrevious(front + humans, last);
    assert front + humans == (front + humans[..n]) + [humans[n]];
    assert humans[n] in humans;
    AppendOther(front + humans[..n], humans[n]);
    AppendAi(front + humans, last, []);
  }

  lemma StillNew(front: seq<Message>, humans: seq<Message>, calls: seq<Call>)
    requires NewCalls(front, calls) && (forall m | m in humans :: m.Human?) && IssuedCalls(front + humans) == IssuedCalls(front)
    ensures NewCalls(front + humans, calls)
  {
  }

  lemma DeliverKeeps(s: Run, limit: nat, receipts: nat)
    requires Inv(s, limit) && !s.phase.Ready? && receipts > 0
    ensures Inv(DeliverReceipts(s, receipts), limit)
  {
    var humans := Humans(receipts);
    if s.phase.Called? {
      var n := |s.messages| - 1;
      var front, last := s.messages[..n], s.messages[n];
      assert s.messages == front + [last] && s.messages[n..] == [last];
      DeliverBefore(front, last, humans);
      StillNew(front, humans, s.phase.calls);
      assert (front + humans + [last])[..|front + humans|] == front + humans;
    } else {
      AppendQuiet(s.messages, humans);
      assert s.messages[..|s.messages|] + humans + s.messages[|s.messages|..] == s.messages + humans;
    }
  }

  lemma StepKeeps(s: Run, limit: nat, event: Event)
    requires Inv(s, limit)
    ensures Inv(Next(s, limit, event), limit)
  {
    match event
    case HumanSpeaks =>
      AppendPrevious(s.messages, Human);
      AppendOther(s.messages, Human);
    case ModelCalls(_) => if s.phase.Ready? { ModelKeeps(s, limit, event); }
    case ModelAnswers => if s.phase.Ready? { ModelKeeps(s, limit, event); }
    case ToolStep => if s.phase.Called? { ToolKeeps(s, limit); }
    case Die =>
    case Deliver(receipts) => if !s.phase.Ready? && receipts > 0 { DeliverKeeps(s, limit, receipts); }
    case Cancel(left, receipts, partial) => if DropsHumans(s.messages, left) { CancelKeeps(s, limit, left, receipts, partial); }
  }

  lemma {:induction false} RunsKeep(s: Run, limit: nat, events: seq<Event>)
    requires Inv(s, limit)
    ensures Inv(After(s, limit, events), limit)
    decreases |events|
  {
    if events != [] {
      StepKeeps(s, limit, events[0]);
      RunsKeep(Next(s, limit, events[0]), limit, events[1..]);
    }
  }

  // ---- Refusals are bounded ----

  ghost predicate Narrow(events: seq<Event>, width: nat) {
    forall e | e in events && e.ModelCalls? :: |e.calls| <= width
  }

  ghost predicate Bounded(s: Run, limit: nat, width: nat) {
    && 1 <= width
    && |s.refused| <= limit - 1 + width
    && (s.phase.Called? ==> |s.phase.calls| <= width)
    && s.wasted <= s.worked * (limit + width - 2) + |s.refused|
  }

  lemma {:induction false} StreakSize(p: Option<Signature>, refused: seq<Call>, calls: seq<Call>)
    ensures |Passed(p, calls)| <= |calls|
    ensures Passed(p, calls) == [] ==> |Streak(p, refused, calls)| == |refused| + |calls|
    ensures Passed(p, calls) != [] ==> |Streak(p, refused, calls)| <= |calls| - |Passed(p, calls)|
  {
    if calls != [] {
      StreakSize(p, refused, calls[..|calls| - 1]);
    }
  }

  lemma Product(worked: nat, more: nat, k: int)
    requires more >= 1 && k >= 0
    ensures worked * k + k <= (worked + more) * k
  {
    assert (worked + more) * k == worked * k + more * k;
    assert more * k >= k;
  }

  // The counters before and after a message of `n` calls of which `passed` ran.
  lemma StillBounded(wasted: nat, worked: nat, refused: nat, n: nat, passed: nat, streak: nat, limit: nat, width: nat)
    requires refused < limit && passed <= n <= width && 1 <= width
    requires if passed == 0 then streak == refused + n else streak <= n - passed
    requires wasted <= worked * (limit + width - 2) + refused
    ensures streak <= limit - 1 + width
    ensures wasted + (n - passed) <= (worked + passed) * (limit + width - 2) + streak
  {
    if passed > 0 {
      Product(worked, passed, limit + width - 2);
    }
  }

  lemma ToolBounded(s: Run, limit: nat, width: nat)
    requires s.phase.Called? && |s.refused| < limit && Bounded(s, limit, width)
    ensures Bounded(ToolRuns(s), limit, width)
  {
    var p, calls := Previous(s.messages), s.phase.calls;
    StreakSize(p, s.refused, calls);
    StillBounded(s.wasted, s.worked, |s.refused|, |calls|, |Passed(p, calls)|, |Streak(p, s.refused, calls)|, limit, width);
  }

  lemma {:induction false} StaysBounded(s: Run, limit: nat, width: nat, events: seq<Event>)
    requires Inv(s, limit) && Bounded(s, limit, width) && Narrow(events, width)
    ensures Bounded(After(s, limit, events), limit, width)
    decreases |events|
  {
    if events != [] {
      var e := events[0];
      assert e in events;
      if e.ToolStep? && s.phase.Called? {
        ToolBounded(s, limit, width);
      }
      StepKeeps(s, limit, e);
      StaysBounded(Next(s, limit, e), limit, width, events[1..]);
    }
  }

  // ---- The guarantees of a run ----

  /** Whatever happened, the guard compares with the last call of the last answered message, and what ran is `Executions`. */
  lemma GuardComparesWithLastAnswer(limit: nat, events: seq<Event>)
    ensures var s := After(START, limit, events);
      Previous(s.messages) == LastKey(s.batches) && s.executed == Executions(s.batches)
  {
    RunsKeep(START, limit, events);
  }

  /** The last result is that of the last execution if and only if no later batch diverted the guard. */
  lemma LastResultIsLastExecution(limit: nat, events: seq<Event>)
    ensures var s := After(START, limit, events);
      Previous(s.messages) == LastSignature(s.executed) <==> forall j: nat :: !Drifts(s.batches, j)
  {
    RunsKeep(START, limit, events);
    SeesLastExecution(After(START, limit, events).batches);
  }

  /** No call is executed twice in a row, across all turns of a history, if and only if every message is clean. */
  lemma NoImmediateRepeat(limit: nat, events: seq<Event>)
    ensures var s := After(START, limit, events);
      NeverTwice(s.executed) <==> forall i | 0 <= i < |s.batches| :: CleanBatch(s.batches, i)
  {
    RunsKeep(START, limit, events);
    RunsTwiceExactly(After(START, limit, events).batches);
  }

  /**
   Without a human message in between, and with at most `width` calls in a
   message, at most `limit - 1 + width` refusals follow one another, and a turn
   that executes `worked` calls has at most `worked * (limit + width - 2)` more.
   */
  lemma RefusalsAreBounded(limit: nat, width: nat, events: seq<Event>)
    requires 1 <= width && Narrow(events, width)
    ensures var s := After(START, limit, events);
      && |s.refused| <= limit - 1 + width
      && s.wasted <= s.worked * (limit + width - 2) + |s.refused|
      && (!s.phase.Ended? ==> Trailing(s.messages, 0, "tool").0 == |s.refused|)
  {
    RunsKeep(START, limit, events);
    StaysBounded(START, limit, width, events);
  }

  /** The next model turn ends the run exactly when `limit` refusals close the history. */
  lemma EndsAtTheLimit(limit: nat, events: seq<Event>, calls: seq<Call>)
    requires var s := After(START, limit, events); s.phase.Ready? && NewCalls(s.messages, calls)
    ensures var s := After(START, limit, events);
      Next(s, limit, ModelCalls(calls)).phase.Ended? <==> |s.refused| >= limit
  {
    RunsKeep(START, limit, events);
  }

  /**
   The closing message names the one call of all counted refusals. That call was
   executed if and only if some tested message issued it when the guard compared
   with another call, and certainly if no call was ever cancelled.
   */
  lemma StopTellsTheTruth(limit: nat, events: seq<Event>)
    requires var s := After(START, limit, events); limit > 0 && s.phase.Ready? && StopSpec(s.messages, limit).Some?
    ensures var s := After(START, limit, events); var stop := StopSpec(s.messages, limit).value;
      && LastKey(s.batches).Some? && |s.refused| >= limit && AllRepeat(s.refused, LastKey(s.batches))
      && stop == Stopped(|s.refused| + 1, Or(LastKey(s.batches).value.name, "tool"))
      && (Has(s.executed, LastKey(s.batches).value) <==> IssuedAfresh(s.batches, LastKey(s.batches).value))
      && ((forall b | b in s.batches :: b.Ran?) ==> Has(s.executed, LastKey(s.batches).value))
  {
    RunsKeep(START, limit, events);
    var s := After(START, limit, events);
    StopNames(s, limit);
    ExecutedExactly(s.batches, LastKey(s.batches).value);
    if forall b | b in s.batches :: b.Ran? {
      RefusedWasExecuted(s.batches);
    }
  }

  lemma StopNames(s: Run, limit: nat)
    requires Inv(s, limit) && limit > 0 && s.phase.Ready? && StopSpec(s.messages, limit).Some?
    ensures LastKey(s.batches).Some? && |s.refused| >= limit
    ensures StopSpec(s.messages, limit).value == Stopped(|s.refused| + 1, Or(LastKey(s.batches).value.name, "tool"))
  {
    assert Stops(LastKey(s.batches), s.refused[0]);
  }

  // ---- One call in a message ----

  ghost predicate OneEach(events: seq<Event>) {
    forall e | e in events && e.ModelCalls? :: |e.calls| == 1
  }

  ghost predicate OneCalls(s: Run) {
    (forall b | b in s.batches && b.Ran? :: |b.calls| == 1) && (s.phase.Called? ==> |s.phase.calls| == 1)
  }

  lemma {:induction false} StaysOneCall(s: Run, limit: nat, events: seq<Event>)
    requires OneCalls(s) && OneEach(events)
    ensures OneCalls(After(s, limit, events))
    ensures (forall b | b in s.batches :: b.Ran?) && (forall e | e in events :: !e.Cancel?) ==>
      forall b | b in After(s, limit, events).batches :: b.Ran?
    decreases |events|
  {
    if events != [] {
      assert events[0] in events;
      StaysOneCall(Next(s, limit, events[0]), limit, events[1..]);
    }
  }

  lemma OnlyCancelledDiverts(batches: seq<Batch>, j: nat)
    requires (forall b | b in batches && b.Ran? :: |b.calls| == 1) && Drifts(batches, j)
    ensures batches[j].Cancelled?
  {
    var b, p := batches[j], LastKey(batches[..j]);
    assert b in batches && batches[..j + 1][j] == b;
    assert |b.calls| == 1 ==> (AllStop(p, b.calls) <==> Stops(p, b.calls[0]));
  }

  /**
   With one call in a message the guard loses sight of the last execution if and
   only if a call with another signature was cancelled after it and since then
   only that call was repeated; without cancelled calls nothing is executed twice
   in a row.
   */
  lemma OneCallPerMessage(limit: nat, events: seq<Event>)
    requires OneEach(events)
    ensures var s := After(START, limit, events);
      && (Previous(s.messages) == LastSignature(s.executed) <==> forall j: nat | j < |s.batches| && s.batches[j].Cancelled? :: !Drifts(s.batches, j))
      && ((forall e | e in events :: !e.Cancel?) ==> NeverTwice(s.executed) && Previous(s.messages) == LastSignature(s.executed))
  {
    var s := After(START, limit, events);
    LastResultIsLastExecution(limit, events);
    NoImmediateRepeat(limit, events);
    StaysOneCall(START, limit, events);
    forall j: nat | Drifts(s.batches, j)
      ensures s.batches[j].Cancelled?
    {
      OnlyCancelledDiverts(s.batches, j);
    }
    if forall e | e in events :: !e.Cancel? {
      RunsKeep(START, limit, events);
      forall i | 0 <= i < |s.batches|
        ensures CleanBatch(s.batches, i)
      {
        CleanWhenSingle(s.batches, i);
      }
    }
  }

  lemma CleanWhenSingle(batches: seq<Batch>, i: nat)
    requires Nonempty(batches) && i < |batches| && forall b | b in batches :: b.Ran? && |b.calls| == 1
    ensures CleanBatch(batches, i)
  {
    var before := batches[..i];
    assert forall b | b in before :: b in batches;
    SeesLastExecution(before);
    assert forall j | 0 <= j < |before| :: before[j] in before;
    forall j: nat | Drifts(before, j)
      ensures false
    {
      OnlyCancelledDiverts(before, j);
    }
    assert batches[i] in batches;
  }

  // ---- Runs in which the guard fails ----

  ghost predicate Used(messages: seq<Message>, ids: set<string>) {
    && (forall c | c in IssuedCalls(messages) :: c.id.Some? && c.id.value in ids)
    && (forall m | m in messages && m.Tool? :: m.callId in ids)
  }

  function IdsOf(calls: seq<Call>): set<string> {
    set c | c in calls && c.id.Some? :: c.id.value
  }

  ghost predicate NewIds(calls: seq<Call>, ids: set<string>) {
    && calls != []
    && (forall c | c in calls :: c.Identified() && c.id.value !in ids)
    && (forall i, j | 0 <= i < j < |calls| :: calls[i].id != calls[j].id)
  }

  // Between two model turns, with room for another.
  ghost predicate AtWork(s: Run, limit: nat, ids: set<string>) {
    Inv(s, limit) && s.phase.Ready? && |s.refused| < limit && Used(s.messages, ids)
  }

  // Where a run stands between two model turns.
  ghost predicate Stands(limit: nat, events: seq<Event>, ids: set<string>, last: Option<Signature>, executed: seq<Call>, refused: seq<Call>) {
    var s := After(START, limit, events);
    && Inv(s, limit) && s.phase.Ready? && Used(s.messages, ids)
    && LastKey(s.batches) == last && s.executed == executed && s.refused == refused
  }

  lemma AfterTwo(s: Run, limit: nat, a: Event, b: Event)
    ensures After(s, limit, [a, b]) == Next(Next(s, limit, a), limit, b)
  {
    assert [a, b][1..] == [b] && [b][1..] == [];
    assert After(Next(s, limit, a), limit, [b]) == After(Next(Next(s, limit, a), limit, b), limit, []);
  }

  lemma {:induction false} AfterConcat(s: Run, limit: nat, a: seq<Event>, b: seq<Event>)
    ensures After(s, limit, a + b) == After(After(s, limit, a), limit, b)
    decreases |a|
  {
    if a == [] {
      assert a + b == b;
    } else {
      assert (a + b)[0] == a[0] && (a + b)[1..] == a[1..] + b;
      AfterConcat(Next(s, limit, a[0]), limit, a[1..], b);
    }
  }

  lemma Issue(s: Run, limit: nat, ids: set<string>, calls: seq<Call>)
    requires AtWork(s, limit, ids) && NewIds(calls, ids)
    ensures Next(s, limit, ModelCalls(calls)) == s.(messages := s.messages + [Ai(calls)], phase := Called(calls))
    ensures Inv(Next(s, limit, ModelCalls(calls)), limit) && Used(s.messages + [Ai(calls)], ids + IdsOf(calls))
  {
    AppendPrevious(s.messages, Ai(calls));
    StepKeeps(s, limit, ModelCalls(calls));
    assert NewCalls(s.messages, calls);
  }

  lemma {:induction false} AnswersNamed(p: Option<Signature>, calls: seq<Call>, ids: set<string>)
    requires forall c | c in calls :: c.Identified() && c.id.value in ids
    ensures forall m | m in Answers(p, calls) :: m.Tool? && m.callId in ids
  {
    if calls != [] {
      var n := |calls| - 1;
      assert calls[n] in calls && forall c | c in calls[..n] :: c in calls;
      AnswersNamed(p, calls[..n], ids);
    }
  }

  lemma AnswersUsed(messages: seq<Message>, p: Option<Signature>, calls: seq<Call>, ids: set<string>)
    requires Used(messages, ids) && forall c | c in calls :: c.Identified() && c.id.value in ids
    ensures Used(messages + Answers(p, calls), ids)
  {
    AnswersNamed(p, calls, ids);
    AppendTools(messages, Answers(p, calls));
  }

  lemma Tested(s: Run, limit: nat, ids: set<string>)
    requires Inv(s, limit) && s.phase.Called? && Used(s.messages, ids)
    ensures var calls := s.phase.calls; var p := LastKey(s.batches); var s' := Next(s, limit, ToolStep);
      && Inv(s', limit) && s'.phase.Ready? && Used(s'.messages, ids)
      && calls != [] && LastKey(s'.batches) == Some(calls[|calls| - 1].Key())
      && s'.executed == s.executed + Passed(p, calls) && s'.refused == Streak(p, s.refused, calls)
  {
    var calls := s.phase.calls;
    StepKeeps(s, limit, ToolStep);
    PendingUsed(s.messages, calls, ids);
    AnswersUsed(s.messages, LastKey(s.batches), calls, ids);
  }

  lemma PendingUsed(messages: seq<Message>, calls: seq<Call>, ids: set<string>)
    requires Pending(messages, calls) && Used(messages, ids)
    ensures forall c | c in calls :: c.Identified() && c.id.value in ids
  {
    var front := messages[..|messages| - 1];
    assert messages == front + [Ai(calls)] && Ai(calls).Issues();
    AppendPrevious(front, Ai(calls));
    assert forall c | c in calls :: c in IssuedCalls(messages);
  }

  // A message is issued and its calls are tested.
  lemma Turn(limit: nat, events: seq<Event>, ids: set<string>, last: Option<Signature>, executed: seq<Call>, refused: seq<Call>, calls: seq<Call>)
    returns (more: seq<Event>)
    requires Stands(limit, events, ids, last, executed, refused) && |refused| < limit && NewIds(calls, ids)
    ensures Stands(limit, more, ids + IdsOf(calls), Some(calls[|calls| - 1].Key()), executed + Passed(last, calls), Streak(last, refused, calls))
  {
    var s := After(START, limit, events);
    Issue(s, limit, ids, calls);
    Tested(Next(s, limit, ModelCalls(calls)), limit, ids + IdsOf(calls));
    more := events + [ModelCalls(calls), ToolStep];
    AfterConcat(START, limit, events, [ModelCalls(calls), ToolStep]);
    AfterTwo(s, limit, ModelCalls(calls), ToolStep);
  }

  lemma StoppedThere(s: Run, limit: nat, ids: set<string>)
    requires Inv(s, limit) && s.phase.Called? && Used(s.messages, ids)
    ensures var calls := s.phase.calls; var s' := Next(s, limit, Cancel(s.messages, 0, false));
      && Inv(s', limit) && s'.phase.Ended? && Used(s'.messages, ids)
      && calls != [] && LastKey(s'.batches) == Some(calls[|calls| - 1].Key()) && s'.executed == s.executed
  {
    DropsNone(s.messages);
    StopShowsPendingCall(s, limit, s.messages, 0, false);
    StepKeeps(s, limit, Cancel(s.messages, 0, false));
    CancelledUsed(s.messages, ids);
  }

  lemma AskedAgain(s: Run, limit: nat, ids: set<string>)
    requires Inv(s, limit) && s.phase.Ended? && Used(s.messages, ids)
    ensures var s' := Next(s, limit, HumanSpeaks);
      && Inv(s', limit) && s'.phase.Ready? && Used(s'.messages, ids)
      && s'.batches == s.batches && s'.executed == s.executed && s'.refused == []
  {
    StepKeeps(s, limit, HumanSpeaks);
    AppendPrevious(s.messages, Human);
  }

  // A message is issued, the run is stopped, and a person asks again.
  lemma StoppedTurn(limit: nat, events: seq<Event>, ids: set<string>, last: Option<Signature>, executed: seq<Call>, refused: seq<Call>, call: Call)
    returns (more: seq<Event>)
    requires Stands(limit, events, ids, last, executed, refused) && |refused| < limit && NewIds([call], ids)
    ensures Stands(limit, more, ids + IdsOf([call]), Some(call.Key()), executed, [])
  {
    var s := After(START, limit, events);
    Issue(s, limit, ids, [call]);
    var issued := Next(s, limit, ModelCalls([call]));
    var stop := Cancel(issued.messages, 0, false);
    StoppedThere(issued, limit, ids + IdsOf([call]));
    AskedAgain(Next(issued, limit, stop), limit, ids + IdsOf([call]));
    AfterConcat(START, limit, events, [ModelCalls([call]), stop]);
    AfterTwo(s, limit, ModelCalls([call]), stop);
    var stopped := events + [ModelCalls([call]), stop];
    more := stopped + [HumanSpeaks];
    AfterConcat(START, limit, stopped, [HumanSpeaks]);
    AfterOne(After(START, limit, stopped), limit, HumanSpeaks);
  }

  lemma AfterOne(s: Run, limit: nat, a: Event)
    ensures After(s, limit, [a]) == Next(s, limit, a)
  {
    assert After(s, limit, [a]) == After(Next(s, limit, a), limit, []);
  }

  lemma {:induction false} DropsNone(messages: seq<Message>)
    ensures DropsHumans(messages, messages)
    decreases |messages|
  {
    if messages != [] {
      DropsNone(messages[..|messages| - 1]);
    }
  }

  lemma CancelledUsed(messages: seq<Message>, ids: set<string>)
    requires Used(messages, ids)
    ensures Used(messages + CancelledResults(Open(messages)) + Closing(0, false), ids)
  {
    var open := Open(messages);
    OpenShape(messages, IssuedCalls(messages));
    CancelledShape(open);
    AppendTools(messages, CancelledResults(open));
    AppendQuiet(messages + CancelledResults(open), Closing(0, false));
    forall m | m in CancelledResults(open)
      ensures m.callId in ids
    {
      var i :| 0 <= i < |open| && CancelledResults(open)[i] == m;
      assert open[i] in open;
    }
  }

  // A person has asked; nothing else has happened.
  lemma Asked(limit: nat)
    ensures Stands(limit, [HumanSpeaks], {}, None, [], [])
  {
    AfterOne(START, limit, HumanSpeaks);
    AskedAgain(START, limit, {});
  }

  lemma PassedOne(p: Option<Signature>, call: Call)
    ensures Passed(p, [call]) == if Stops(p, call) then [] else [call]
    ensures forall refused :: Streak(p, refused, [call]) == if Stops(p, call) then refused + [call] else []
  {
    assert [call][..0] == [];
  }

  lemma PassedTwo(p: Option<Signature>, a: Call, b: Call)
    ensures Passed(p, [a, b]) == Passed(p, [a]) + if Stops(p, b) then [] else [b]
    ensures forall refused :: Streak(p, refused, [a, b]) == if Stops(p, b) then Streak(p, refused, [a]) + [b] else []
  {
    assert [a, b][..1] == [a];
  }

  // A message with one new call.
  lemma OneCall(limit: nat, events: seq<Event>, ids: set<string>, last: Option<Signature>, executed: seq<Call>, refused: seq<Call>, call: Call)
    returns (more: seq<Event>)
    requires Stands(limit, events, ids, last, executed, refused) && |refused| < limit
    requires call.Identified() && call.id.value !in ids
    ensures Stops(last, call) ==> Stands(limit, more, ids + {call.id.value}, Some(call.Key()), executed, refused + [call])
    ensures !Stops(last, call) ==> Stands(limit, more, ids + {call.id.value}, Some(call.Key()), executed + [call], [])
  {
    OneNewId(ids, call);
    more := Turn(limit, events, ids, last, executed, refused, [call]);
    PassedOne(last, call);
    if Stops(last, call) {
      assert executed + [] == executed;
    }
  }

  lemma OneNewId(ids: set<string>, call: Call)
    requires call.Identified() && call.id.value !in ids
    ensures NewIds([call], ids) && IdsOf([call]) == {call.id.value}
  {
    assert [call][0] == call;
  }

  lemma OneStopped(limit: nat, events: seq<Event>, ids: set<string>, last: Option<Signature>, executed: seq<Call>, refused: seq<Call>, call: Call)
    returns (more: seq<Event>)
    requires Stands(limit, events, ids, last, executed, refused) && |refused| < limit
    requires call.Identified() && call.id.value !in ids
    ensures Stands(limit, more, ids + {call.id.value}, Some(call.Key()), executed, [])
  {
    OneNewId(ids, call);
    more := StoppedTurn(limit, events, ids, last, executed, refused, call);
  }

  // A message whose second call repeats the one the guard compares with.
  lemma RunAndRefused(limit: nat, events: seq<Event>, ids: set<string>, last: Signature, executed: seq<Call>, a: Call, b: Call)
    returns (more: seq<Event>)
    requires Stands(limit, events, ids, Some(last), executed, []) && 0 < limit
    requires a.Identified() && b.Identified() && a.id != b.id && a.id.value !in ids && b.id.value !in ids
    requires a.Key() != last && b.Key() == last
    ensures Stands(limit, more, ids + {a.id.value, b.id.value}, Some(last), executed + [a], [b])
  {
    assert NewIds([a, b], ids) && IdsOf([a, b]) == {a.id.value, b.id.value};
    more := Turn(limit, events, ids, Some(last), executed, [], [a, b]);
    PassedOne(Some(last), a);
    PassedTwo(Some(last), a, b);
    assert [a] + [] == [a] && [] + [b] == [b];
  }

  ghost predicate DifferentIds(calls: seq<Call>) {
    (forall c | c in calls :: c.Identified()) && forall i, j | 0 <= i < j < |calls| :: calls[i].id != calls[j].id
  }

  lemma StopAfter(limit: nat, events: seq<Event>, ids: set<string>, last: Option<Signature>, executed: seq<Call>, refused: seq<Call>)
    requires Stands(limit, events, ids, last, executed, refused) && |refused| >= limit > 0
    ensures StopSpec(After(START, limit, events).messages, limit) == Some(Stopped(|refused| + 1, Or(refused[0].name, "tool")))
  {
  }

  // Two refusals of the call the guard compares with.
  lemma RefusedTwice(events: seq<Event>, ids: set<string>, last: Signature, d: Call, e: Call) returns (more: seq<Event>)
    requires Stands(2, events, ids, Some(last), [], []) && d.Key() == e.Key() == last
    requires d.Identified() && e.Identified() && d.id != e.id && d.id.value !in ids && e.id.value !in ids
    ensures Stands(2, more, ids + {d.id.value} + {e.id.value}, Some(last), [], [d, e])
  {
    more := OneCall(2, events, ids, Some(last), [], [], d);
    assert [] + [d] == [d];
    more := OneCall(2, more, ids + {d.id.value}, Some(last), [], [d], e);
    assert [d] + [e] == [d, e];
  }

  /**
   A cancelled call is refused when it is asked for again, and two refusals later
   the closing message says it was repeated three times, though no result of it
   ever entered the history.
   */
  lemma CancelledCallIsRefused(c: Call, d: Call, e: Call) returns (events: seq<Event>)
    requires DifferentIds([c, d, e]) && c.Key() == d.Key() == e.Key()
    ensures var s := After(START, 2, events);
      s.executed == [] && s.refused == [d, e] && StopSpec(s.messages, 2) == Some(Stopped(3, Or(c.name, "tool")))
  {
    var calls := [c, d, e];
    assert calls[0] == c && calls[1] == d && calls[2] == e;
    Asked(2);
    events := OneStopped(2, [HumanSpeaks], {}, None, [], [], c);
    events := RefusedTwice(events, {} + {c.id.value}, c.Key(), d, e);
    StopAfter(2, events, {} + {c.id.value} + {d.id.value} + {e.id.value}, Some(e.Key()), [], [d, e]);
  }

  /** A cancelled call between two equal ones lets the second run. */
  lemma CancelledCallHidesTheLast(x: Call, y: Call, again: Call) returns (events: seq<Event>)
    requires DifferentIds([x, y, again]) && x.Key() == again.Key() != y.Key()
    ensures After(START, 2, events).executed == [x, again]
  {
    var calls := [x, y, again];
    assert calls[0] == x && calls[1] == y && calls[2] == again;
    Asked(2);
    events := OneCall(2, [HumanSpeaks], {}, None, [], [], x);
    assert [] + [x] == [x];
    events := OneStopped(2, events, {} + {x.id.value}, Some(x.Key()), [x], [], y);
    events := OneCall(2, events, {} + {x.id.value} + {y.id.value}, Some(y.Key()), [x], [], again);
    assert [x] + [again] == [x, again];
  }

  // `x` is executed, then `y` beside a refused repetition of `x`.
  lemma RefusedBeside(x: Call, y: Call, x2: Call) returns (events: seq<Event>)
    requires DifferentIds([x, y, x2]) && x.Key() == x2.Key() != y.Key()
    ensures Stands(2, events, IdsOf([x, y, x2]), Some(x.Key()), [x, y], [x2])
  {
    var calls := [x, y, x2];
    assert calls[0] == x && calls[1] == y && calls[2] == x2;
    Asked(2);
    events := OneCall(2, [HumanSpeaks], {}, None, [], [], x);
    assert [] + [x] == [x];
    events := RunAndRefused(2, events, {} + {x.id.value}, x.Key(), [x], y, x2);
    assert [x] + [y] == [x, y];
    assert {} + {x.id.value} + {y.id.value, x2.id.value} == IdsOf(calls);
  }

  /** A call refused beside another hides the latter, which then runs twice in a row, though no message repeats a call. */
  lemma RefusedCallHidesTheLast(x: Call, y: Call, x2: Call, y2: Call) returns (events: seq<Event>)
    requires DifferentIds([x, y, x2, y2]) && x.Key() == x2.Key() != y.Key() == y2.Key()
    ensures After(START, 2, events).executed == [x, y, y2]
  {
    var calls := [x, y, x2, y2];
    assert calls[0] == x && calls[1] == y && calls[2] == x2 && calls[3] == y2;
    assert calls[..3] == [x, y, x2];
    events := RefusedBeside(x, y, x2);
    events := OneCall(2, events, IdsOf([x, y, x2]), Some(x.Key()), [x, y], [x2], y2);
    assert [x, y] + [y2] == [x, y, y2];
  }

  /** Two equal calls of one message both run. */
  lemma ParallelRepeatsRun(a: Call, b: Call) returns (events: seq<Event>)
    requires DifferentIds([a, b]) && a.Key() == b.Key()
    ensures After(START, 2, events).executed == [a, b]
  {
    var calls := [a, b];
    assert calls[0] == a && calls[1] == b;
    Asked(2);
    events := Turn(2, [HumanSpeaks], {}, None, [], [], calls);
    PassedOne(None, a);
    PassedTwo(None, a, b);
    assert [] + ([a] + [b]) == [a, b];
  }
}
