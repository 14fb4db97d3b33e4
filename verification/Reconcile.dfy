/**
 The end of a run: `_reconcile` turns the mailbox into updates of the two
 message channels, `_save_delivery` applies them to a paused or completed run.
 */
module Reconcile {
  import opened Wrappers
  import opened Sequences
  import opened History
  import RC = RunControl

  datatype Checkpoint = Checkpoint(messages: seq<Message>, unapplied: seq<Message>)

  // ---- The parts of the update list ----

  function ReceiptOf(run: string, item: RC.Instruction, after: Option<MessageId>): Message {
    Human(Steering(run, item.id), item.text, Some(Receipt(item.recipients != {}, item.recipients, after)))
  }

  function LastId(messages: seq<Message>): Option<MessageId> {
    if messages == [] then None else Some(messages[|messages| - 1].id)
  }

  function Delivered(run: string, items: seq<RC.Instruction>): seq<Update> {
    if items == [] then []
    else (if items[0].recipients != {} then [Put(ReceiptOf(run, items[0], None))] else []) + Delivered(run, items[1..])
  }

  function Undelivered(run: string, items: seq<RC.Instruction>, after: Option<MessageId>): seq<Update> {
    if items == [] then []
    else (if items[0].recipients == {} then [Put(ReceiptOf(run, items[0], after))] else []) + Undelivered(run, items[1..], after)
  }

  function UpdateIds(updates: seq<Update>): set<MessageId> {
    set u | u in updates :: u.Id()
  }

  function Removals(messages: seq<Message>, ids: set<MessageId>): seq<Update> {
    if messages == [] then []
    else (if messages[0].id in ids then [Remove(messages[0].id)] else []) + Removals(messages[1..], ids)
  }

  function Answered(messages: seq<Message>): set<string> {
    set m | m in messages && m.Tool? :: m.call
  }

  function OpenCalls(calls: seq<Option<string>>, answered: set<string>): seq<string> {
    if calls == [] then []
    else
      (if calls[0].Some? && calls[0].value != "" && calls[0].value !in answered then [calls[0].value] else [])
      + OpenCalls(calls[1..], answered)
  }

  function Unanswered(messages: seq<Message>, answered: set<string>): seq<string> {
    if messages == [] then []
    else (if messages[0].AI? then OpenCalls(messages[0].calls, answered) else []) + Unanswered(messages[1..], answered)
  }

  function Results(calls: seq<string>, serial: nat): seq<Update> {
    seq(|calls|, i requires 0 <= i < |calls| =>
      Put(Tool(Generated(serial + i), "Cancelled by the user. Do not resume this action.", calls[i])))
  }

  function Closing(run: string, partialText: string): seq<Update> {
    (if partialText != "" then [Put(AI(Partial(run), partialText, []))] else [])
    + [Put(AI(StoppedAt(run), "Response stopped.", []))]
  }

  function Deliveries(run: string, items: seq<RC.Instruction>, messages: seq<Message>): seq<Update> {
    Removals(messages, UpdateIds(Undelivered(run, items, LastId(messages)))) + Delivered(run, items)
  }

  function CancelledUpdates(run: string, items: seq<RC.Instruction>, messages: seq<Message>, partialText: string, serial: nat): seq<Update> {
    Results(Unanswered(messages, Answered(messages)), serial) + Deliveries(run, items, messages) + Closing(run, partialText)
  }

  // ---- `_save_delivery` on the messages channel ----

  function NewHumans(previous: seq<Message>, updates: seq<Update>): seq<Message> {
    if updates == [] then []
    else
      var u := updates[|updates| - 1];
      NewHumans(previous, updates[..|updates| - 1])
      + (if u.Put? && u.message.Human? && u.message.id !in Ids(previous) then [u.message] else [])
  }

  predicate Pending(m: Message, answered: set<string>) {
    m.AI? && exists c | c in m.calls :: c == None || c.value !in answered
  }

  function FirstPending(messages: seq<Message>, answered: set<string>): (i: nat)
    ensures i <= |messages|
    ensures forall j | 0 <= j < i :: !Pending(messages[j], answered)
    ensures i < |messages| ==> Pending(messages[i], answered)
  {
    if messages == [] || Pending(messages[0], answered) then 0 else 1 + FirstPending(messages[1..], answered)
  }

  function SaveDelivery(previous: seq<Message>, updates: seq<Update>): Option<seq<Message>> {
    var merged := AddMessages(previous, updates);
    if merged.None? then None
    else
      var added := NewHumans(previous, updates);
      var rest := Filter(merged.value, (m: Message) => m.id !in Ids(added));
      var position := FirstPending(rest, Answered(rest));
      Some(rest[..position] + added + rest[position..])
  }

  // ---- The whole of `_reconcile` ----

  function ReconcileSpec(c: RC.Control, run: string, saved: Checkpoint, partialText: string, serial: nat): Option<Checkpoint> {
    var items := c.instructions;
    var messages :=
      if c.cancelled then AddMessages(saved.messages, CancelledUpdates(run, items, saved.messages, partialText, serial))
      else SaveDelivery(saved.messages, Deliveries(run, items, saved.messages));
    var unapplied := AddMessages(saved.unapplied, Undelivered(run, items, LastId(saved.messages)));
    if messages.None? || unapplied.None? then None else Some(Checkpoint(messages.value, unapplied.value))
  }

  // What the owner of a run can rely on: channels written by the reducer, a run
  // identifier used by no earlier run, and uuids that are new.
  ghost predicate Sound(run: string, saved: Checkpoint, serial: nat) {
    && UniqueIds(saved.messages) && UniqueIds(saved.unapplied)
    && (forall m | m in saved.unapplied :: !(m.id.Steering? && m.id.run == run))
    && (forall m | m in saved.messages :: m.id != Partial(run) && m.id != StoppedAt(run))
    && (forall m | m in saved.messages && m.id.Generated? :: m.id.n < serial)
    && (forall m | m in saved.messages && m.id.Steering? :: m.Human?)
  }

  // ---- Distinct updates ----

  lemma DistinctAppend(a: seq<Update>, b: seq<Update>)
    requires DistinctUpdates(a) && DistinctUpdates(b) && UpdateIds(a) !! UpdateIds(b)
    ensures DistinctUpdates(a + b) && UpdateIds(a + b) == UpdateIds(a) + UpdateIds(b)
  {
    forall i, j | 0 <= i < |a| && 0 <= j < |b|
      ensures a[i].Id() != b[j].Id()
    {
      assert a[i].Id() in UpdateIds(a) && b[j].Id() in UpdateIds(b);
    }
    forall id | id in UpdateIds(a) + UpdateIds(b)
      ensures id in UpdateIds(a + b)
    {
      if id in UpdateIds(a) {
        var u :| u in a && u.Id() == id;
        assert u in a + b;
      } else {
        var u :| u in b && u.Id() == id;
        assert u in a + b;
      }
    }
  }

  // The identifiers of the instructions with (or without) a recipient.
  function ItemIds(run: string, items: seq<RC.Instruction>, delivered: bool): set<MessageId> {
    set item | item in items && (item.recipients != {}) == delivered :: Steering(run, item.id)
  }

  lemma {:induction false} DeliveredShape(run: string, items: seq<RC.Instruction>)
    requires RC.DistinctIds(items)
    ensures DistinctUpdates(Delivered(run, items)) && UpdateIds(Delivered(run, items)) == ItemIds(run, items, true)
    ensures forall u | u in Delivered(run, items) :: u.Put? && u.message.Human?
    ensures forall item | item in items && item.recipients != {} :: Put(ReceiptOf(run, item, None)) in Delivered(run, items)
  {
    if items != [] {
      DeliveredShape(run, items[1..]);
      var head := if items[0].recipients != {} then [Put(ReceiptOf(run, items[0], None))] else [];
      assert items == [items[0]] + items[1..];
      assert head != [] ==> head[0] in head && head[0].Id() == Steering(run, items[0].id);
      assert UpdateIds(head) == if items[0].recipients != {} then {Steering(run, items[0].id)} else {};
      assert forall item | item in items[1..] :: item.id != items[0].id;
      DistinctAppend(head, Delivered(run, items[1..]));
      assert ItemIds(run, items, true) == UpdateIds(head) + ItemIds(run, items[1..], true);
    }
  }

  lemma {:induction false} UndeliveredShape(run: string, items: seq<RC.Instruction>, after: Option<MessageId>)
    requires RC.DistinctIds(items)
    ensures DistinctUpdates(Undelivered(run, items, after)) && UpdateIds(Undelivered(run, items, after)) == ItemIds(run, items, false)
    ensures forall u | u in Undelivered(run, items, after) :: u.Put? && u.message.Human?
    ensures forall item | item in items && item.recipients == {} :: Put(ReceiptOf(run, item, after)) in Undelivered(run, items, after)
  {
    if items != [] {
      UndeliveredShape(run, items[1..], after);
      var head := if items[0].recipients == {} then [Put(ReceiptOf(run, items[0], after))] else [];
      assert items == [items[0]] + items[1..];
      assert head != [] ==> head[0] in head && head[0].Id() == Steering(run, items[0].id);
      assert UpdateIds(head) == if items[0].recipients == {} then {Steering(run, items[0].id)} else {};
      assert forall item | item in items[1..] :: item.id != items[0].id;
      DistinctAppend(head, Undelivered(run, items[1..], after));
      assert ItemIds(run, items, false) == UpdateIds(head) + ItemIds(run, items[1..], false);
    }
  }

  lemma {:induction false} RemovalsShape(messages: seq<Message>, ids: set<MessageId>)
    requires UniqueIds(messages)
    ensures DistinctUpdates(Removals(messages, ids)) && UpdateIds(Removals(messages, ids)) == ids * Ids(messages)
    ensures forall u | u in Removals(messages, ids) :: u.Remove? && u.target in ids && u.target in Ids(messages)
    ensures forall m | m in messages && m.id in ids :: Remove(m.id) in Removals(messages, ids)
  {
    if messages != [] {
      RemovalsShape(messages[1..], ids);
      var head := if messages[0].id in ids then [Remove(messages[0].id)] else [];
      assert messages == [messages[0]] + messages[1..];
      assert UpdateIds(head) == if messages[0].id in ids then {messages[0].id} else {};
      assert forall m | m in messages[1..] :: m.id != messages[0].id;
      DistinctAppend(head, Removals(messages[1..], ids));
      assert Ids(messages) == {messages[0].id} + Ids(messages[1..]);
    }
  }

  lemma DisjointItems(run: string, items: seq<RC.Instruction>)
    requires RC.DistinctIds(items)
    ensures ItemIds(run, items, true) !! ItemIds(run, items, false)
  {
    forall a, b | a in items && b in items && a.recipients != {} && b.recipients == {}
      ensures a.id != b.id
    {
    }
  }

  lemma DeliveriesShape(run: string, items: seq<RC.Instruction>, messages: seq<Message>)
    requires RC.DistinctIds(items) && UniqueIds(messages)
    ensures DistinctUpdates(Deliveries(run, items, messages)) && RemovesKnown(messages, Deliveries(run, items, messages))
    ensures forall id | id in UpdateIds(Deliveries(run, items, messages)) :: id.Steering? && id.run == run
    ensures forall u | u in Deliveries(run, items, messages) && u.Put? :: u.message.Human?
    ensures forall item | item in items && item.recipients != {} :: Put(ReceiptOf(run, item, None)) in Deliveries(run, items, messages)
    ensures forall id | id in ItemIds(run, items, false) && id in Ids(messages) :: Remove(id) in Deliveries(run, items, messages)
    ensures forall u | u in Deliveries(run, items, messages) && u.Id() in ItemIds(run, items, false) :: u.Remove?
  {
    var undelivered := Undelivered(run, items, LastId(messages));
    UndeliveredShape(run, items, LastId(messages));
    DeliveredShape(run, items);
    RemovalsShape(messages, UpdateIds(undelivered));
    DisjointItems(run, items);
    DistinctAppend(Removals(messages, UpdateIds(undelivered)), Delivered(run, items));
    forall u | u in Delivered(run, items)
      ensures u.Id() in ItemIds(run, items, true)
    {
      assert u.Id() in UpdateIds(Delivered(run, items));
    }
  }

  // ---- What a reducer result contains ----

  lemma {:induction false} FilterUnique(messages: seq<Message>, keep: Message -> bool)
    requires UniqueIds(messages)
    ensures UniqueIds(Filter(messages, keep))
  {
    if messages != [] {
      FilterUnique(messages[1..], keep);
      assert forall m | m in Filter(messages[1..], keep) :: m in messages[1..];
      assert forall i | 0 <= i < |Filter(messages[1..], keep)| :: Filter(messages[1..], keep)[i] in Filter(messages[1..], keep);
    }
  }

  lemma {:induction false} KeptMembers(left: seq<Message>, updates: seq<Update>)
    ensures forall m | m in left && !Removed(updates, m.id) :: Replacement(updates, m) in Kept(left, updates)
    ensures forall x | x in Kept(left, updates) :: exists m | m in left :: !Removed(updates, m.id) && x == Replacement(updates, m)
  {
    if left != [] {
      KeptMembers(left[1..], updates);
      assert left == [left[0]] + left[1..];
    }
  }

  // Which messages the reducer leaves, by membership.
  lemma ResultMembers(left: seq<Message>, updates: seq<Update>, result: seq<Message>)
    requires UniqueIds(left) && DistinctUpdates(updates) && RemovesKnown(left, updates)
    requires AddMessages(left, updates) == Some(result)
    ensures UniqueIds(result)
    ensures forall u | u in updates && u.Put? :: u.message in result
    ensures forall u | u in updates && u.Remove? :: u.target !in Ids(result)
    ensures forall m | m in left && m.id !in UpdateIds(updates) :: m in result
    ensures forall x | x in result :: Put(x) in updates || (x in left && x.id !in UpdateIds(updates))
  {
    MergeShape(left, updates);
    FilterUnique(Replaced(left, updates) + Added(left, updates), (x: Message) => x.id !in RemovedIds(updates));
    AddMessagesShape(left, updates);
    KeptMembers(left, updates);
    AddedIds(left, updates);
    forall u | u in updates && u.Put?
      ensures u.message in result
    {
      UpdateForIs(updates, u);
      if u.message.id in Ids(left) {
        var m :| m in left && m.id == u.message.id;
        assert Replacement(updates, m) == u.message;
      }
    }
    forall x | x in result
      ensures Put(x) in updates || (x in left && x.id !in UpdateIds(updates))
      ensures !Removed(updates, x.id)
    {
      if x in Kept(left, updates) {
        var m :| m in left && !Removed(updates, m.id) && x == Replacement(updates, m);
        UpdateForFound(updates, m.id);
      } else {
        assert Put(x) in updates;
        UpdateForIs(updates, Put(x));
      }
    }
    forall u | u in updates && u.Remove?
      ensures u.target !in Ids(result)
    {
      UpdateForIs(updates, u);
    }
    forall m | m in left && m.id !in UpdateIds(updates)
      ensures m in result
    {
      UpdateForFound(updates, m.id);
      assert Replacement(updates, m) == m;
    }
  }

  // ---- A cancelled run ----

  lemma ResultsShape(calls: seq<string>, serial: nat)
    ensures DistinctUpdates(Results(calls, serial))
    ensures forall u | u in Results(calls, serial) :: u.Put? && u.message.Tool? && u.Id().Generated? && u.Id().n >= serial
    ensures forall c | c in calls :: exists u | u in Results(calls, serial) :: u.Put? && u.message.Tool? && u.message.call == c
  {
    forall c | c in calls
      ensures exists u | u in Results(calls, serial) :: u.Put? && u.message.Tool? && u.message.call == c
    {
      var i :| 0 <= i < |calls| && calls[i] == c;
      assert Results(calls, serial)[i] in Results(calls, serial);
    }
  }

  lemma ClosingShape(run: string, partialText: string)
    ensures DistinctUpdates(Closing(run, partialText))
    ensures forall u | u in Closing(run, partialText) ::
      u.Put? && u.message.AI? && u.message.calls == [] && (u.Id() == Partial(run) || u.Id() == StoppedAt(run))
  {
  }

  // A synthetic tool result or a closing answer.
  ghost predicate CancelUpdate(run: string, serial: nat, u: Update) {
    && u.Put?
    && (if u.message.Tool? then u.Id().Generated? && u.Id().n >= serial
        else u.message.AI? && u.message.calls == [] && (u.Id() == Partial(run) || u.Id() == StoppedAt(run)))
  }

  lemma CancelledShape(run: string, items: seq<RC.Instruction>, messages: seq<Message>, partialText: string, serial: nat)
    requires RC.DistinctIds(items) && UniqueIds(messages)
    ensures var updates := CancelledUpdates(run, items, messages, partialText, serial);
      && DistinctUpdates(updates) && RemovesKnown(messages, updates)
      && forall u | u in updates && u !in Deliveries(run, items, messages) :: CancelUpdate(run, serial, u)
  {
    var results := Results(Unanswered(messages, Answered(messages)), serial);
    var deliveries := Deliveries(run, items, messages);
    ResultsShape(Unanswered(messages, Answered(messages)), serial);
    DeliveriesShape(run, items, messages);
    ClosingShape(run, partialText);
    assert forall id | id in UpdateIds(results) :: id.Generated?;
    DistinctAppend(results, deliveries);
    assert forall id | id in UpdateIds(Closing(run, partialText)) :: id.Partial? || id.StoppedAt?;
    DistinctAppend(results + deliveries, Closing(run, partialText));
  }

  lemma {:induction false} OpenCallsComplete(calls: seq<Option<string>>, answered: set<string>, c: string)
    requires Some(c) in calls && c != "" && c !in answered
    ensures c in OpenCalls(calls, answered)
  {
    if calls[0] != Some(c) {
      OpenCallsComplete(calls[1..], answered, c);
    }
  }

  lemma {:induction false} UnansweredComplete(messages: seq<Message>, answered: set<string>, m: Message, c: string)
    requires m in messages && m.AI? && Some(c) in m.calls && c != "" && c !in answered
    ensures c in Unanswered(messages, answered)
  {
    if messages[0] == m {
      OpenCallsComplete(m.calls, answered, c);
    } else {
      UnansweredComplete(messages[1..], answered, m, c);
    }
  }

  // Every identified tool call of the history has a tool result.
  ghost predicate Paired(messages: seq<Message>) {
    forall m, c | m in messages && m.AI? && Some(c) in m.calls && c != "" :: c in Answered(messages)
  }

  /**
   After a cancelled run the next turn starts from a history in which every
   tool call is answered and no undelivered correction is left.
   */
  lemma CancelledHistoryIsPaired(run: string, items: seq<RC.Instruction>, saved: Checkpoint, partialText: string, serial: nat)
    requires RC.DistinctIds(items) && Sound(run, saved, serial)
    ensures var result := AddMessages(saved.messages, CancelledUpdates(run, items, saved.messages, partialText, serial));
      && result.Some? && UniqueIds(result.value)
      && Paired(result.value)
      && (forall item | item in items && item.recipients == {} :: Steering(run, item.id) !in Ids(result.value))
      && (forall item | item in items && item.recipients != {} :: ReceiptOf(run, item, None) in result.value)
  {
    var messages := saved.messages;
    var updates := CancelledUpdates(run, items, messages, partialText, serial);
    CancelledShape(run, items, messages, partialText, serial);
    DeliveriesShape(run, items, messages);
    AddMessagesShape(messages, updates);
    var result := AddMessages(messages, updates).value;
    ResultMembers(messages, updates, result);
    ToolsUntouched(run, items, saved, partialText, serial);
    forall m, c | m in result && m.AI? && Some(c) in m.calls && c != ""
      ensures c in Answered(result)
    {
      assert m in messages;
      CallIsAnswered(run, items, messages, partialText, serial, result, m, c);
    }
    NoneLeft(run, items, messages, updates, result);
  }

  // A call of the old history has its old result, or a cancelled one.
  lemma CallIsAnswered(run: string, items: seq<RC.Instruction>, messages: seq<Message>, partialText: string, serial: nat, result: seq<Message>,
                       m: Message, c: string)
    requires m in messages && m.AI? && Some(c) in m.calls && c != ""
    requires var updates := CancelledUpdates(run, items, messages, partialText, serial);
      && (forall u | u in updates && u.Put? :: u.message in result)
      && (forall t | t in messages && t.Tool? :: t.id !in UpdateIds(updates))
      && (forall t | t in messages && t.id !in UpdateIds(updates) :: t in result)
    ensures c in Answered(result)
  {
    var updates := CancelledUpdates(run, items, messages, partialText, serial);
    if c in Answered(messages) {
      var t :| t in messages && t.Tool? && t.call == c;
      assert t in result;
    } else {
      var calls := Unanswered(messages, Answered(messages));
      UnansweredComplete(messages, Answered(messages), m, c);
      ResultsShape(calls, serial);
      var u :| u in Results(calls, serial) && u.Put? && u.message.Tool? && u.message.call == c;
      assert u in updates;
    }
  }

  // No update of a stopped run touches an old tool result.
  lemma ToolsUntouched(run: string, items: seq<RC.Instruction>, saved: Checkpoint, partialText: string, serial: nat)
    requires RC.DistinctIds(items) && Sound(run, saved, serial)
    ensures forall t | t in saved.messages && t.Tool? :: t.id !in UpdateIds(CancelledUpdates(run, items, saved.messages, partialText, serial))
  {
    CancelledShape(run, items, saved.messages, partialText, serial);
    DeliveriesShape(run, items, saved.messages);
    var updates := CancelledUpdates(run, items, saved.messages, partialText, serial);
    forall t, u | t in saved.messages && t.Tool? && u in updates
      ensures u.Id() != t.id
    {
      if u in Deliveries(run, items, saved.messages) {
        assert u.Id() in UpdateIds(Deliveries(run, items, saved.messages));
      }
    }
  }

  // A correction nobody received is in no result of these updates.
  lemma NoneLeft(run: string, items: seq<RC.Instruction>, messages: seq<Message>, updates: seq<Update>, result: seq<Message>)
    requires RC.DistinctIds(items) && UniqueIds(messages) && DistinctUpdates(updates) && RemovesKnown(messages, updates)
    requires AddMessages(messages, updates) == Some(result)
    requires forall u | u in Deliveries(run, items, messages) :: u in updates
    requires forall u | u in updates && u.Id().Steering? :: u in Deliveries(run, items, messages)
    ensures forall item | item in items && item.recipients == {} :: Steering(run, item.id) !in Ids(result)
    ensures forall item | item in items && item.recipients != {} :: ReceiptOf(run, item, None) in result
  {
    DeliveriesShape(run, items, messages);
    ResultMembers(messages, updates, result);
    forall item | item in items && item.recipients == {}
      ensures Steering(run, item.id) !in Ids(result)
    {
      var id := Steering(run, item.id);
      assert id in ItemIds(run, items, false);
      if id in Ids(messages) {
        assert Remove(id) in updates;
      } else {
        forall x | x in result
          ensures x.id != id
        {
          assert Put(x) in updates && x.id == id ==> Put(x) in Deliveries(run, items, messages);
        }
      }
    }
    forall item | item in items && item.recipients != {}
      ensures ReceiptOf(run, item, None) in result
    {
      assert Put(ReceiptOf(run, item, None)) in updates;
    }
  }

  // ---- A run that was not cancelled ----

  lemma {:induction false} NewHumansAreAdded(previous: seq<Message>, updates: seq<Update>)
    requires forall u | u in updates && u.Put? :: u.message.Human?
    ensures NewHumans(previous, updates) == Added(previous, updates)
  {
    if updates != [] {
      NewHumansAreAdded(previous, updates[..|updates| - 1]);
      assert updates[|updates| - 1] in updates;
      assert forall u | u in updates[..|updates| - 1] :: u in updates;
    }
  }

  ghost predicate HasResult(messages: seq<Message>, call: string) {
    exists m | m in messages :: m.Tool? && m.call == call
  }

  // Where delivery receipts are inserted: all calls before have their results, and
  // the next message, if any, has a call without one.
  ghost predicate InsertedBeforePending(a: seq<Message>, b: seq<Message>) {
    && (forall m, c | m in a && m.AI? && c in m.calls :: c.Some? && HasResult(a + b, c.value))
    && (b != [] ==> b[0].AI? && exists c | c in b[0].calls :: c == None || !HasResult(a + b, c.value))
  }

  lemma KeptIds(left: seq<Message>, updates: seq<Update>)
    ensures Ids(Kept(left, updates)) <= Ids(left)
  {
    KeptMembers(left, updates);
    forall x | x in Kept(left, updates)
      ensures x.id in Ids(left)
    {
      var m :| m in left && !Removed(updates, m.id) && x == Replacement(updates, m);
      UpdateForFound(updates, m.id);
    }
  }

  lemma WithoutAdded(kept: seq<Message>, added: seq<Message>, notAdded: Message -> bool)
    requires (forall m | m in kept :: notAdded(m)) && (forall m | m in added :: !notAdded(m))
    ensures Filter(kept + added, notAdded) == kept
  {
    FilterAppend(kept, added, notAdded);
    FilterAll(kept, notAdded);
    FilterNone(added, notAdded);
  }

  /**
   `_save_delivery` yields A, the new receipts, then B: A followed by B is the old
   history in its old order, replaced in place or dropped, and B starts at the
   first AI message with an unanswered call.
   */
  lemma SaveDeliveryShape(previous: seq<Message>, updates: seq<Update>) returns (a: seq<Message>, b: seq<Message>)
    requires UniqueIds(previous) && DistinctUpdates(updates) && RemovesKnown(previous, updates)
    requires forall u | u in updates && u.Put? :: u.message.Human?
    ensures SaveDelivery(previous, updates) == Some(a + Added(previous, updates) + b)
    ensures a + b == Kept(previous, updates)
    ensures InsertedBeforePending(a, b)
  {
    SavedAroundPending(previous, updates);
    var rest := Kept(previous, updates);
    var position := FirstPending(rest, Answered(rest));
    a, b := rest[..position], rest[position..];
    assert a + b == rest;
    assert forall i | 0 <= i < |a| :: a[i] == rest[i];
  }

  // Taking the new receipts out of the merged history leaves the old one.
  lemma SavedAroundPending(previous: seq<Message>, updates: seq<Update>)
    requires UniqueIds(previous) && DistinctUpdates(updates) && RemovesKnown(previous, updates)
    requires forall u | u in updates && u.Put? :: u.message.Human?
    ensures var rest := Kept(previous, updates); var position := FirstPending(rest, Answered(rest));
      SaveDelivery(previous, updates) == Some(rest[..position] + Added(previous, updates) + rest[position..])
  {
    var added := Added(previous, updates);
    NewHumansAreAdded(previous, updates);
    AddMessagesShape(previous, updates);
    AddedIds(previous, updates);
    KeptIds(previous, updates);
    WithoutAdded(Kept(previous, updates), added, (m: Message) => m.id !in Ids(added));
  }

  // Every tool result directly follows an AI message or another tool result.
  ghost predicate ToolsFollow(messages: seq<Message>) {
    forall i | 0 <= i < |messages| && messages[i].Tool? :: i > 0 && (messages[i - 1].Tool? || messages[i - 1].AI?)
  }

  lemma InsertKeepsToolsFollow(a: seq<Message>, added: seq<Message>, b: seq<Message>)
    requires ToolsFollow(a + b) && InsertedBeforePending(a, b)
    requires forall m | m in added :: m.Human?
    ensures ToolsFollow(a + added + b)
  {
    var all, whole := a + added + b, a + b;
    forall j | |a| <= j < |a| + |added|
      ensures !all[j].Tool?
    {
      assert all[j] == added[j - |a|] && added[j - |a|] in added;
    }
    assert b != [] ==> all[|a| + |added|] == b[0] && !b[0].Tool?;
    forall i | 0 <= i < |all| && all[i].Tool?
      ensures i > 0 && (all[i - 1].Tool? || all[i - 1].AI?)
    {
      var k := if i < |a| then i else i - |added|;
      assert all[i] == whole[k];
      assert k > 0 && all[i - 1] == whole[k - 1];
    }
  }

  lemma FollowAppend(messages: seq<Message>, m: Message)
    requires ToolsFollow(messages)
    requires m.Tool? ==> messages != [] && (messages[|messages| - 1].Tool? || messages[|messages| - 1].AI?)
    ensures ToolsFollow(messages + [m])
  {
  }

  // What becomes of one message: a human one stays human or goes, any other stays.
  lemma OneKept(updates: seq<Update>, m: Message)
    requires m.id in UpdateIds(updates) ==> m.Human?
    requires forall u | u in updates && u.Put? :: u.message.Human?
    ensures if m.Human? then Replacement(updates, m).Human? else !Removed(updates, m.id) && Replacement(updates, m) == m
  {
    UpdateForFound(updates, m.id);
  }

  // Dropping and replacing corrections, which are human messages, keeps results in place.
  lemma {:induction false} KeptToolsFollow(left: seq<Message>, updates: seq<Update>)
    requires ToolsFollow(left)
    requires forall m | m in left && m.id in UpdateIds(updates) :: m.Human?
    requires forall u | u in updates && u.Put? :: u.message.Human?
    ensures ToolsFollow(Kept(left, updates))
    ensures left != [] && !left[|left| - 1].Human? ==>
      Kept(left, updates) != [] && Kept(left, updates)[|Kept(left, updates)| - 1] == left[|left| - 1]
  {
    if left != [] {
      var n := |left| - 1;
      var front, last := left[..n], left[n];
      assert left == front + [last] && last in left;
      assert ToolsFollow(front) && forall m | m in front :: m in left;
      KeptToolsFollow(front, updates);
      KeptAppend(front, last, updates);
      OneKept(updates, last);
      if !Removed(updates, last.id) {
        assert last.Tool? ==> n > 0 && front[n - 1] == left[n - 1];
        FollowAppend(Kept(front, updates), Replacement(updates, last));
      }
    }
  }

  lemma {:induction false} KeptAppend(front: seq<Message>, last: Message, updates: seq<Update>)
    ensures Kept(front + [last], updates) ==
      Kept(front, updates) + (if Removed(updates, last.id) then [] else [Replacement(updates, last)])
  {
    if front == [] {
      assert front + [last] == [last];
    } else {
      assert (front + [last])[0] == front[0] && (front + [last])[1..] == front[1..] + [last];
      KeptAppend(front[1..], last, updates);
    }
  }

  /** Saving deliveries never separates a tool result from the message it follows. */
  lemma DeliveryKeepsToolResultsAdjacent(run: string, items: seq<RC.Instruction>, saved: Checkpoint, serial: nat)
    requires RC.DistinctIds(items) && Sound(run, saved, serial) && ToolsFollow(saved.messages)
    ensures var result := SaveDelivery(saved.messages, Deliveries(run, items, saved.messages));
      result.Some? && ToolsFollow(result.value)
  {
    var updates := Deliveries(run, items, saved.messages);
    DeliveriesShape(run, items, saved.messages);
    var a, b := SaveDeliveryShape(saved.messages, updates);
    forall m | m in saved.messages && m.id in UpdateIds(updates)
      ensures m.Human?
    {
      assert m.id.Steering?;
    }
    KeptToolsFollow(saved.messages, updates);
    AddedIds(saved.messages, updates);
    forall m | m in Added(saved.messages, updates)
      ensures m.Human?
    {
      assert Put(m) in updates;
    }
    InsertKeepsToolsFollow(a, Added(saved.messages, updates), b);
  }

  // ---- Every accepted correction exactly once ----

  // The correction is in the model history exactly when it was delivered, and in
  // the undelivered channel exactly when it was not.
  // An undelivered one is anchored to the last message of the history that was saved.
  ghost predicate Settled(run: string, item: RC.Instruction, saved: Checkpoint, cp: Checkpoint) {
    var id := Steering(run, item.id);
    if item.recipients != {} then Shows(run, item, saved) in cp.messages && id !in Ids(cp.unapplied)
    else id !in Ids(cp.messages) && Shows(run, item, saved) in cp.unapplied
  }

  // The message by which a correction is kept.
  function Shows(run: string, item: RC.Instruction, saved: Checkpoint): Message {
    var delivered := item.recipients != {};
    var last := if saved.messages == [] then None else Some(saved.messages[|saved.messages| - 1].id);
    Human(Steering(run, item.id), item.text, Some(Receipt(delivered, item.recipients, if delivered then None else last)))
  }

  lemma DeliveredHistory(run: string, items: seq<RC.Instruction>, saved: Checkpoint, serial: nat)
    requires RC.DistinctIds(items) && Sound(run, saved, serial)
    ensures var result := SaveDelivery(saved.messages, Deliveries(run, items, saved.messages));
      && result.Some? && UniqueIds(result.value)
      && (forall item | item in items && item.recipients == {} :: Steering(run, item.id) !in Ids(result.value))
      && (forall item | item in items && item.recipients != {} :: ReceiptOf(run, item, None) in result.value)
  {
    var updates := Deliveries(run, items, saved.messages);
    DeliveriesShape(run, items, saved.messages);
    var a, b := SaveDeliveryShape(saved.messages, updates);
    AddMessagesShape(saved.messages, updates);
    var merged := AddMessages(saved.messages, updates).value;
    var result := a + Added(saved.messages, updates) + b;
    ResultMembers(saved.messages, updates, merged);
    NoneLeft(run, items, saved.messages, updates, merged);
    assert merged == a + b + Added(saved.messages, updates);
    RotateUnique(a, b, Added(saved.messages, updates));
    forall m
      ensures m in result <==> m in merged
    {
    }
  }

  lemma RotateUnique(a: seq<Message>, b: seq<Message>, c: seq<Message>)
    requires UniqueIds(a + b + c)
    ensures UniqueIds(a + c + b)
  {
    var was, now := a + b + c, a + c + b;
    forall i, j | 0 <= i < j < |now|
      ensures now[i].id != now[j].id
    {
      var p := if i < |a| then i else if i < |a| + |c| then i + |b| else i - |c|;
      var q := if j < |a| then j else if j < |a| + |c| then j + |b| else j - |c|;
      assert now[i] == was[p] && now[j] == was[q] && p != q;
    }
  }

  lemma UndeliveredChannel(run: string, items: seq<RC.Instruction>, saved: Checkpoint, serial: nat)
    requires RC.DistinctIds(items) && Sound(run, saved, serial)
    ensures var after := LastId(saved.messages); var result := AddMessages(saved.unapplied, Undelivered(run, items, after));
      && result.Some? && UniqueIds(result.value)
      && (forall item | item in items && item.recipients != {} :: Steering(run, item.id) !in Ids(result.value))
      && (forall item | item in items && item.recipients == {} :: ReceiptOf(run, item, after) in result.value)
      && (forall m | m in saved.unapplied :: m in result.value)
  {
    var after := LastId(saved.messages);
    var undelivered := Undelivered(run, items, after);
    UndeliveredShape(run, items, after);
    AddMessagesShape(saved.unapplied, undelivered);
    var result := AddMessages(saved.unapplied, undelivered).value;
    ResultMembers(saved.unapplied, undelivered, result);
    DisjointItems(run, items);
    forall item | item in items && item.recipients != {}
      ensures Steering(run, item.id) !in Ids(result)
    {
      var id := Steering(run, item.id);
      assert id in ItemIds(run, items, true);
      forall x | x in result
        ensures x.id != id
      {
        assert Put(x) in undelivered ==> Put(x).Id() in UpdateIds(undelivered);
      }
    }
    forall item | item in items && item.recipients == {}
      ensures ReceiptOf(run, item, after) in result
    {
      assert Put(ReceiptOf(run, item, after)) in undelivered;
    }
    forall m | m in saved.unapplied
      ensures m.id !in UpdateIds(undelivered)
    {
    }
  }

  /**
   `_reconcile` succeeds, keeps identifiers unique in both channels, and settles
   every correction the run accepted, delivered or not, cancelled or not.
   */
  lemma ReconcileSettlesEveryCorrection(c: RC.Control, run: string, saved: Checkpoint, partialText: string, serial: nat)
    requires RC.DistinctIds(c.instructions) && Sound(run, saved, serial)
    ensures var cp := ReconcileSpec(c, run, saved, partialText, serial);
      && cp.Some? && UniqueIds(cp.value.messages) && UniqueIds(cp.value.unapplied)
      && (forall item | item in c.instructions :: Settled(run, item, saved, cp.value))
      && (forall m | m in saved.unapplied :: m in cp.value.unapplied)
  {
    var items := c.instructions;
    if c.cancelled {
      CancelledHistoryIsPaired(run, items, saved, partialText, serial);
    } else {
      DeliveredHistory(run, items, saved, serial);
    }
    UndeliveredChannel(run, items, saved, serial);
    forall item | item in items
      ensures Settled(run, item, saved, ReconcileSpec(c, run, saved, partialText, serial).value)
    {
      ShowsReceipt(run, item, saved);
    }
  }

  lemma ShowsReceipt(run: string, item: RC.Instruction, saved: Checkpoint)
    ensures Shows(run, item, saved) == ReceiptOf(run, item, if item.recipients != {} then None else LastId(saved.messages))
  {
  }

  // ---- The code of `_reconcile` ----

  lemma {:induction false} DeliveredAppend(run: string, items: seq<RC.Instruction>, item: RC.Instruction)
    ensures Delivered(run, items + [item]) ==
      Delivered(run, items) + (if item.recipients != {} then [Put(ReceiptOf(run, item, None))] else [])
  {
    if items == [] {
      assert items + [item] == [item] && Delivered(run, [item][1..]) == [];
    } else {
      var all := items + [item];
      assert all[0] == items[0] && all[1..] == items[1..] + [item];
      DeliveredAppend(run, items[1..], item);
      var last := if item.recipients != {} then [Put(ReceiptOf(run, item, None))] else [];
      Regroup(if items[0].recipients != {} then [Put(ReceiptOf(run, items[0], None))] else [], Delivered(run, items[1..]), last);
    }
  }

  lemma {:induction false} UndeliveredAppend(run: string, items: seq<RC.Instruction>, item: RC.Instruction, after: Option<MessageId>)
    ensures Undelivered(run, items + [item], after) ==
      Undelivered(run, items, after) + (if item.recipients == {} then [Put(ReceiptOf(run, item, after))] else [])
  {
    if items == [] {
      assert items + [item] == [item] && Undelivered(run, [item][1..], after) == [];
    } else {
      var all := items + [item];
      assert all[0] == items[0] && all[1..] == items[1..] + [item];
      UndeliveredAppend(run, items[1..], item, after);
      var last := if item.recipients == {} then [Put(ReceiptOf(run, item, after))] else [];
      Regroup(if items[0].recipients == {} then [Put(ReceiptOf(run, items[0], after))] else [], Undelivered(run, items[1..], after), last);
    }
  }

  // A channel without updates is not written, which is what the reducer would do.
  lemma NothingToSave(left: seq<Message>)
    ensures AddMessages(left, []) == Some(left) && SaveDelivery(left, []) == Some(left)
  {
    FilterAll(left, (x: Message) => x.id !in Merge(left, {}).removed);
    var added: seq<Message> := [];
    FilterAll(left, (m: Message) => m.id !in Ids(added));
    var position := FirstPending(left, Answered(left));
    assert left[..position] + added + left[position..] == left;
  }

  // The loop over `control.messages(final=True)`.
  method SplitReceipts(run: string, items: seq<RC.Instruction>, after: Option<MessageId>)
    returns (updates: seq<Update>, unapplied: seq<Update>)
    ensures updates == Delivered(run, items) && unapplied == Undelivered(run, items, after)
  {
    updates, unapplied := [], [];
    for i := 0 to |items|
      invariant updates == Delivered(run, items[..i]) && unapplied == Undelivered(run, items[..i], after)
    {
      assert items[..i + 1] == items[..i] + [items[i]];
      DeliveredAppend(run, items[..i], items[i]);
      UndeliveredAppend(run, items[..i], items[i], after);
      if items[i].recipients == {} {
        unapplied := unapplied + [Put(ReceiptOf(run, items[i], after))];
      } else {
        updates := updates + [Put(ReceiptOf(run, items[i], None))];
      }
    }
    assert items[..|items|] == items;
  }

  // Receipts, removals and, after a stop, tool results and closing answers.
  method PrepareUpdates(c: RC.Control, run: string, messages: seq<Message>, partialText: string, serial: nat)
    returns (updates: seq<Update>, unapplied: seq<Update>)
    ensures unapplied == Undelivered(run, c.instructions, LastId(messages))
    ensures updates == if c.cancelled then CancelledUpdates(run, c.instructions, messages, partialText, serial)
      else Deliveries(run, c.instructions, messages)
  {
    updates, unapplied := SplitReceipts(run, c.instructions, LastId(messages));
    updates := Removals(messages, UpdateIds(unapplied)) + updates;
    if c.cancelled {
      updates := Results(Unanswered(messages, Answered(messages)), serial) + updates;
      ghost var stopping := updates;
      if partialText != "" {
        updates := updates + [Put(AI(Partial(run), partialText, []))];
      }
      updates := updates + [Put(AI(StoppedAt(run), "Response stopped.", []))];
      assert updates == stopping + Closing(run, partialText);
    }
  }

  /** Splices the update list together as the code does, and writes only the channels that have updates. */
  method ReconcileRun(c: RC.Control, run: string, saved: Checkpoint, partialText: string, serial: nat)
    returns (written: Option<Checkpoint>)
    ensures written == ReconcileSpec(c, run, saved, partialText, serial)
  {
    var updates, unapplied := PrepareUpdates(c, run, saved.messages, partialText, serial);
    NothingToSave(saved.messages);
    NothingToSave(saved.unapplied);
    var messages := Some(saved.messages);
    if updates != [] {
      messages := if c.cancelled then AddMessages(saved.messages, updates) else SaveDelivery(saved.messages, updates);
    }
    var receipts := Some(saved.unapplied);
    if unapplied != [] {
      receipts := AddMessages(saved.unapplied, unapplied);
    }
    if messages.None? || receipts.None? {
      return None;
    }
    return Some(Checkpoint(messages.value, receipts.value));
  }
}
