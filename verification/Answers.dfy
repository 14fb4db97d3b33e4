/**
 What a stopped run leaves to read: the history with a result for every open call,
 the receipts, the answer as far as it was streamed, and the closing message; and
 what of it the reloaded transcript shows.
 */
module Answers {
  import opened Wrappers
  import opened Sequences
  import opened History
  import opened Reconcile
  import opened Transcript
  import RC = RunControl

  // ---- The history of a stopped run ----

  lemma {:induction false} AddedConcat(left: seq<Message>, a: seq<Update>, b: seq<Update>)
    ensures Added(left, a + b) == Added(left, a) + Added(left, b)
  {
    if b == [] {
      assert a + b == a;
    } else {
      var n := |b| - 1;
      AddedConcat(left, a, b[..n]);
      assert (a + b)[..|a + b| - 1] == a + b[..n] && (a + b)[|a + b| - 1] == b[n];
    }
  }

  function Puts(messages: seq<Message>): seq<Update> {
    seq(|messages|, i requires 0 <= i < |messages| => Put(messages[i]))
  }

  // Messages with new identifiers are added as they are.
  lemma {:induction false} AddedPuts(left: seq<Message>, messages: seq<Message>)
    requires Ids(messages) !! Ids(left)
    ensures Added(left, Puts(messages)) == messages
  {
    if messages != [] {
      var n := |messages| - 1;
      assert messages == messages[..n] + [messages[n]] && messages[n].id in Ids(messages);
      assert Puts(messages)[..n] == Puts(messages[..n]);
      AddedPuts(left, messages[..n]);
    }
  }

  lemma {:induction false} AddedRemovals(left: seq<Message>, messages: seq<Message>, ids: set<MessageId>)
    ensures Added(left, Removals(messages, ids)) == []
  {
    if messages != [] {
      AddedRemovals(left, messages[1..], ids);
      var head := if messages[0].id in ids then [Remove(messages[0].id)] else [];
      AddedConcat(left, head, Removals(messages[1..], ids));
      assert head != [] ==> head[..0] == [] && Added(left, head) == [];
    }
  }

  // The results of calls that were left open, one for each, in order.
  function CancelledResults(calls: seq<string>, serial: nat): seq<Message> {
    seq(|calls|, i requires 0 <= i < |calls| => Tool(Generated(serial + i), "Cancelled by the user. Do not resume this action.", calls[i]))
  }

  // The answer as far as it was streamed, if at all, and the closing message.
  function LastWords(run: string, partialText: string): seq<Message> {
    if partialText == "" then [AI(StoppedAt(run), "Response stopped.", [])]
    else [AI(Partial(run), partialText, []), AI(StoppedAt(run), "Response stopped.", [])]
  }

  predicate OfRun(run: string, m: Message) {
    m.id.Steering? && m.id.run == run
  }

  // The calls with an identifier that no result of the history answers, in order.
  ghost predicate OpenIn(messages: seq<Message>, c: string) {
    && c != "" && (exists m | m in messages :: m.AI? && Some(c) in m.calls)
    && forall m | m in messages && m.Tool? :: m.call != c
  }

  lemma {:induction false} OpenCallsSound(calls: seq<Option<string>>, answered: set<string>, c: string)
    requires c in OpenCalls(calls, answered)
    ensures Some(c) in calls && c != "" && c !in answered
  {
    if !(calls[0] == Some(c) && c != "" && c !in answered) {
      OpenCallsSound(calls[1..], answered, c);
    }
  }

  lemma {:induction false} UnansweredSound(messages: seq<Message>, answered: set<string>, c: string)
    requires c in Unanswered(messages, answered)
    ensures c != "" && c !in answered && exists m | m in messages :: m.AI? && Some(c) in m.calls
  {
    if messages[0].AI? && c in OpenCalls(messages[0].calls, answered) {
      OpenCallsSound(messages[0].calls, answered, c);
    } else {
      UnansweredSound(messages[1..], answered, c);
    }
  }

  lemma UnansweredIsOpen(messages: seq<Message>, c: string)
    ensures c in Unanswered(messages, Answered(messages)) <==> OpenIn(messages, c)
  {
    if c in Unanswered(messages, Answered(messages)) {
      UnansweredSound(messages, Answered(messages), c);
    }
    if OpenIn(messages, c) {
      var m :| m in messages && m.AI? && Some(c) in m.calls;
      UnansweredComplete(messages, Answered(messages), m, c);
    }
  }

  // What reconciliation puts between the old history and the last words.
  ghost predicate Receipts(run: string, receipts: seq<Message>) {
    forall m | m in receipts :: m.Human? && OfRun(run, m)
  }

  lemma {:induction false} KeptOthers(left: seq<Message>, updates: seq<Update>, others: Message -> bool)
    requires forall u | u in updates :: forall m: Message | m.id == u.Id() && m in left :: !others(m)
    requires forall u | u in updates && u.Put? && u.Id() in Ids(left) :: !others(u.message)
    ensures Filter(Kept(left, updates), others) == Filter(left, others)
  {
    if left != [] {
      assert left == [left[0]] + left[1..];
      KeptOthers(left[1..], updates, others);
      UpdateForFound(updates, left[0].id);
      FilterAppend(if Removed(updates, left[0].id) then [] else [Replacement(updates, left[0])], Kept(left[1..], updates), others);
      assert left[0].id in Ids(left);
      FilterOne(Replacement(updates, left[0]), others);
    }
  }

  lemma FilterOne(m: Message, p: Message -> bool)
    ensures Filter([m], p) == if p(m) then [m] else []
  {
    assert [m][1..] == [] && Filter([m][1..], p) == [];
  }

  /**
   The history of a stopped run is the old one, in its order and without this run's
   own corrections, then exactly one result for each call that was left open, the
   receipts of delivered corrections, and the last words.
   */
  lemma StoppedHistory(run: string, items: seq<RC.Instruction>, saved: Checkpoint, partialText: string, serial: nat)
    returns (kept: seq<Message>, calls: seq<string>, receipts: seq<Message>)
    requires RC.DistinctIds(items) && Sound(run, saved, serial)
    ensures AddMessages(saved.messages, CancelledUpdates(run, items, saved.messages, partialText, serial)) ==
      Some(kept + CancelledResults(calls, serial) + receipts + LastWords(run, partialText))
    ensures Filter(kept, (m: Message) => !OfRun(run, m)) == Filter(saved.messages, (m: Message) => !OfRun(run, m))
    ensures forall c :: c in calls <==> OpenIn(saved.messages, c)
    ensures Receipts(run, receipts)
  {
    var messages := saved.messages;
    var updates := CancelledUpdates(run, items, messages, partialText, serial);
    CancelledShape(run, items, messages, partialText, serial);
    AddMessagesShape(messages, updates);
    kept, calls, receipts := Kept(messages, updates), Unanswered(messages, Answered(messages)), Added(messages, Delivered(run, items));
    AddedParts(run, items, saved, partialText, serial);
    forall c
      ensures c in calls <==> OpenIn(messages, c)
    {
      UnansweredIsOpen(messages, c);
    }
    AddedReceipts(run, items, messages);
    OthersKept(run, items, saved, partialText, serial);
    Regrouped(kept, CancelledResults(calls, serial), receipts, LastWords(run, partialText));
  }

  lemma AddedReceipts(run: string, items: seq<RC.Instruction>, messages: seq<Message>)
    requires RC.DistinctIds(items)
    ensures Receipts(run, Added(messages, Delivered(run, items)))
  {
    DeliveredShape(run, items);
    AddedIds(messages, Delivered(run, items));
    forall m | m in Added(messages, Delivered(run, items))
      ensures m.Human? && OfRun(run, m)
    {
      assert Put(m) in Delivered(run, items) && Put(m).Id() in UpdateIds(Delivered(run, items));
    }
  }

  // What is added, part by part.
  lemma AddedParts(run: string, items: seq<RC.Instruction>, saved: Checkpoint, partialText: string, serial: nat)
    requires RC.DistinctIds(items) && Sound(run, saved, serial)
    ensures Added(saved.messages, CancelledUpdates(run, items, saved.messages, partialText, serial)) ==
      CancelledResults(Unanswered(saved.messages, Answered(saved.messages)), serial) + Added(saved.messages, Delivered(run, items)) + LastWords(run, partialText)
  {
    var messages := saved.messages;
    var calls := Unanswered(messages, Answered(messages));
    var removals := Removals(messages, UpdateIds(Undelivered(run, items, LastId(messages))));
    var results, words := CancelledResults(calls, serial), LastWords(run, partialText);
    assert Results(calls, serial) == Puts(results) && Closing(run, partialText) == Puts(words);
    AddedPuts(messages, results);
    AddedPuts(messages, words);
    AddedRemovals(messages, messages, UpdateIds(Undelivered(run, items, LastId(messages))));
    AddedConcat(messages, removals, Delivered(run, items));
    AddedConcat(messages, Puts(results), removals + Delivered(run, items));
    AddedConcat(messages, Puts(results) + (removals + Delivered(run, items)), Puts(words));
    assert [] + Added(messages, Delivered(run, items)) == Added(messages, Delivered(run, items));
  }

  lemma Regrouped<T>(a: seq<T>, b: seq<T>, c: seq<T>, d: seq<T>)
    ensures a + (b + c + d) == a + b + c + d
  {
  }

  lemma OthersKept(run: string, items: seq<RC.Instruction>, saved: Checkpoint, partialText: string, serial: nat)
    requires RC.DistinctIds(items) && Sound(run, saved, serial)
    ensures var others := (m: Message) => !OfRun(run, m);
      Filter(Kept(saved.messages, CancelledUpdates(run, items, saved.messages, partialText, serial)), others) == Filter(saved.messages, others)
  {
    OthersUntouched(run, items, saved, partialText, serial);
    forall u: Update, m: Message | u in CancelledUpdates(run, items, saved.messages, partialText, serial) && m in saved.messages && m.id == u.Id()
      ensures OfRun(run, m)
    {
      assert m.id in Ids(saved.messages);
    }
    KeptOthers(saved.messages, CancelledUpdates(run, items, saved.messages, partialText, serial), (m: Message) => !OfRun(run, m));
  }

  // The updates meet no old message but this run's own corrections.
  lemma OthersUntouched(run: string, items: seq<RC.Instruction>, saved: Checkpoint, partialText: string, serial: nat)
    requires RC.DistinctIds(items) && Sound(run, saved, serial)
    ensures forall u | u in CancelledUpdates(run, items, saved.messages, partialText, serial) && u.Id() in Ids(saved.messages) ::
      u.Id().Steering? && u.Id().run == run
  {
    CancelledShape(run, items, saved.messages, partialText, serial);
    DeliveriesShape(run, items, saved.messages);
    forall u | u in CancelledUpdates(run, items, saved.messages, partialText, serial) && u.Id() in Ids(saved.messages)
      ensures u.Id().Steering? && u.Id().run == run
    {
      if u in Deliveries(run, items, saved.messages) {
        assert u.Id() in UpdateIds(Deliveries(run, items, saved.messages));
      }
    }
  }

  // ---- The channels stay apart ----

  // The undelivered channel holds receipts only, and none of the model history.
  ghost predicate Apart(cp: Checkpoint) {
    && (forall m | m in cp.unapplied :: m.Human? && m.id.Steering?)
    && Ids(cp.messages) !! Ids(cp.unapplied)
  }

  // ---- What the transcript shows ----

  // The messages a reader sees: everything said by a human, every answer, and tool
  // results on request; neither system messages nor bare announcements of calls.
  predicate Readable(includeTools: bool, m: Message) {
    || m.Human?
    || (m.AI? && (m.text != "" || m.calls == []))
    || (m.Tool? && includeTools)
  }

  /** The transcript shows every readable message as often as the two channels hold it, and nothing else. */
  lemma ShowsReadable(cp: Checkpoint, includeTools: bool, m: Message)
    ensures multiset(Reload(cp, includeTools))[m] == if Readable(includeTools, m) then multiset(cp.messages)[m] + multiset(cp.unapplied)[m] else 0
  {
    FilterCount(Weave(cp.messages, cp.unapplied), (m: Message) => Shown(includeTools, m), m);
    WeaveOnce(cp.messages, cp.unapplied);
  }

  lemma {:induction false} FilterFilter<T>(s: seq<T>, p: T -> bool, q: T -> bool)
    ensures Filter(Filter(s, p), q) == Filter(Filter(s, q), p)
  {
    if s != [] {
      FilterFilter(s[1..], p, q);
      FilterAppend(if p(s[0]) then [s[0]] else [], Filter(s[1..], p), q);
      FilterAppend(if q(s[0]) then [s[0]] else [], Filter(s[1..], q), p);
      assert [s[0]][1..] == [];
    }
  }

  /** Without the undelivered corrections the transcript is the readable part of the model history, in its order. */
  lemma ShowsInOrder(cp: Checkpoint, includeTools: bool)
    requires Ids(cp.messages) !! Ids(cp.unapplied)
    ensures Filter(Reload(cp, includeTools), (m: Message) => m.id !in Ids(cp.unapplied)) == Filter(cp.messages, (m: Message) => Readable(includeTools, m))
  {
    var all := Ids(cp.unapplied);
    var shown, own := (m: Message) => Shown(includeTools, m), (m: Message) => m.id !in all;
    WeaveKeepsOrder(cp.messages, cp.unapplied, all);
    FilterFilter(Weave(cp.messages, cp.unapplied), shown, own);
    FilterSame(cp.messages, shown, (m: Message) => Readable(includeTools, m));
    FilterSame(Reload(cp, includeTools), own, (m: Message) => m.id !in Ids(cp.unapplied));
  }

  // The receipt was saved behind the message `id`.
  predicate SavedBehind(id: MessageId, r: Message) {
    r.Human? && r.receipt.Some? && r.receipt.value.after == Some(id)
  }

  lemma {:induction false} AnchoredIs(receipts: seq<Message>, id: MessageId)
    ensures AnchoredTo(receipts, Some(id)) == Filter(receipts, (r: Message) => SavedBehind(id, r))
  {
    if receipts != [] {
      AnchoredIs(receipts[1..], id);
    }
  }

  /**
   Behind a message that is still in the history come, in the order they were saved,
   all undelivered corrections that were saved behind it.
   */
  lemma CorrectionsKeepTheirPlace(cp: Checkpoint, i: nat)
    requires UniqueIds(cp.messages) && i < |cp.messages|
    ensures Follows(Weave(cp.messages, cp.unapplied), cp.messages[i], Filter(cp.unapplied, (r: Message) => SavedBehind(cp.messages[i].id, r)))
  {
    ReceiptsFollowTheirAnchor(cp.messages, cp.unapplied, i);
    AnchoredIs(cp.unapplied, cp.messages[i].id);
  }

  // ---- The answer of a stopped run is kept ----

  // What an update of reconciliation can be.
  ghost predicate Ours(run: string, items: seq<RC.Instruction>, messages: seq<Message>, serial: nat, updates: seq<Update>) {
    && (forall u | u in updates :: u in Deliveries(run, items, messages) || CancelUpdate(run, serial, u))
    && (forall u | u in Deliveries(run, items, messages) :: u in updates)
  }

  // The messages channel holds old messages and updates, whether or not the run was stopped.
  lemma HistoryMembers(c: RC.Control, run: string, saved: Checkpoint, partialText: string, serial: nat) returns (updates: seq<Update>)
    requires RC.DistinctIds(c.instructions) && Sound(run, saved, serial)
    ensures Ours(run, c.instructions, saved.messages, serial, updates)
    ensures var cp := ReconcileSpec(c, run, saved, partialText, serial);
      cp.Some? && forall x | x in cp.value.messages :: Put(x) in updates || (x in saved.messages && x.id !in UpdateIds(updates))
  {
    ReconcileSettlesEveryCorrection(c, run, saved, partialText, serial);
    var items, messages := c.instructions, saved.messages;
    DeliveriesShape(run, items, messages);
    if c.cancelled {
      updates := CancelledUpdates(run, items, messages, partialText, serial);
      CancelledShape(run, items, messages, partialText, serial);
      AddMessagesShape(messages, updates);
      ResultMembers(messages, updates, Kept(messages, updates) + Added(messages, updates));
    } else {
      updates := Deliveries(run, items, messages);
      AddMessagesShape(messages, updates);
      ResultMembers(messages, updates, Kept(messages, updates) + Added(messages, updates));
      var a, b := SaveDeliveryShape(messages, updates);
      var result := ReconcileSpec(c, run, saved, partialText, serial).value.messages;
      assert forall x | x in result :: x in a + b || x in Added(messages, updates);
    }
  }

  /** Reconciliation, of whatever run, leaves no message in both channels. */
  lemma ChannelsStayApart(c: RC.Control, run: string, saved: Checkpoint, partialText: string, serial: nat)
    requires RC.DistinctIds(c.instructions) && Sound(run, saved, serial) && Apart(saved)
    ensures var cp := ReconcileSpec(c, run, saved, partialText, serial); cp.Some? && Apart(cp.value)
  {
    var updates := HistoryMembers(c, run, saved, partialText, serial);
    var cp := ReconcileSpec(c, run, saved, partialText, serial).value;
    UndeliveredMembers(run, c.instructions, saved, cp.unapplied);
    forall x, y | x in cp.messages && y in cp.unapplied
      ensures x.id != y.id
    {
      OneChannel(run, c.instructions, saved, updates, serial, x, y);
    }
  }

  lemma UndeliveredMembers(run: string, items: seq<RC.Instruction>, saved: Checkpoint, unapplied: seq<Message>)
    requires RC.DistinctIds(items) && UniqueIds(saved.unapplied)
    requires AddMessages(saved.unapplied, Undelivered(run, items, LastId(saved.messages))) == Some(unapplied)
    ensures forall y | y in unapplied :: y in saved.unapplied || (y.Human? && y.id in ItemIds(run, items, false))
  {
    var undelivered := Undelivered(run, items, LastId(saved.messages));
    UndeliveredShape(run, items, LastId(saved.messages));
    ResultMembers(saved.unapplied, undelivered, unapplied);
    forall y | y in unapplied && y !in saved.unapplied
      ensures y.Human? && y.id in ItemIds(run, items, false)
    {
      assert Put(y) in undelivered && Put(y).Id() in UpdateIds(undelivered);
    }
  }

  lemma OneChannel(run: string, items: seq<RC.Instruction>, saved: Checkpoint, updates: seq<Update>, serial: nat, x: Message, y: Message)
    requires RC.DistinctIds(items) && Sound(run, saved, serial) && Apart(saved) && Ours(run, items, saved.messages, serial, updates)
    requires Put(x) in updates || (x in saved.messages && x.id !in UpdateIds(updates))
    requires y in saved.unapplied || (y.Human? && y.id in ItemIds(run, items, false))
    ensures x.id != y.id
  {
    DeliveriesShape(run, items, saved.messages);
    assert Put(x).Id() == x.id;
    assert x in saved.messages ==> x.id in Ids(saved.messages);
    assert y in saved.unapplied ==> y.id in Ids(saved.unapplied);
    if Put(x) in updates && Put(x) in Deliveries(run, items, saved.messages) {
      assert Put(x).Id() in UpdateIds(Deliveries(run, items, saved.messages));
    }
    if y !in saved.unapplied && y.id in Ids(saved.messages) {
      assert Remove(y.id) in updates;
      assert Remove(y.id).Id() in UpdateIds(updates);
    }
  }

  /**
   After a stopped run the answer as far as it was streamed, and the message that
   the response was stopped, are each shown exactly once, they are the last of what
   the transcript shows of the model history, and no answer given before is lost.
   */
  lemma StoppedAnswerIsKept(c: RC.Control, run: string, saved: Checkpoint, partialText: string, serial: nat, includeTools: bool)
    requires RC.DistinctIds(c.instructions) && Sound(run, saved, serial) && Apart(saved) && c.cancelled
    ensures var cp := ReconcileSpec(c, run, saved, partialText, serial);
      && cp.Some?
      && (forall m | m in LastWords(run, partialText) :: Filter(Reload(cp.value, includeTools), (x: Message) => x.id == m.id) == [m])
      && (exists front :: Filter(Reload(cp.value, includeTools), (m: Message) => m.id !in Ids(cp.value.unapplied)) == front + LastWords(run, partialText))
      && (forall m | m in saved.messages && m.AI? :: multiset(Reload(cp.value, includeTools))[m] == if m.text != "" || m.calls == [] then 1 else 0)
  {
    ChannelsStayApart(c, run, saved, partialText, serial);
    ReconcileSettlesEveryCorrection(c, run, saved, partialText, serial);
    var cp := ReconcileSpec(c, run, saved, partialText, serial).value;
    var kept, calls, receipts := StoppedHistory(run, c.instructions, saved, partialText, serial);
    var words := LastWords(run, partialText);
    var before := kept + CancelledResults(calls, serial) + receipts;
    var readable := (m: Message) => Readable(includeTools, m);
    assert cp.messages == before + words;
    ShowsInOrder(cp, includeTools);
    FilterAppend(before, words, readable);
    FilterAll(words, readable);
    forall m | m in words
      ensures Filter(Reload(cp, includeTools), (x: Message) => x.id == m.id) == [m]
    {
      assert m in cp.messages && m.id in Ids(cp.messages);
      ShownOnce(cp, includeTools, m);
    }
    forall m | m in saved.messages && m.AI?
      ensures multiset(Reload(cp, includeTools))[m] == if m.text != "" || m.calls == [] then 1 else 0
    {
      AnswerStays(run, saved, kept, m);
      UniqueCount(cp.messages, m);
      UniqueCount(cp.unapplied, m);
      ShowsReadable(cp, includeTools, m);
      assert m in cp.messages && m.id in Ids(cp.messages);
    }
  }

  lemma AnswerStays(run: string, saved: Checkpoint, kept: seq<Message>, m: Message)
    requires Filter(kept, (x: Message) => !OfRun(run, x)) == Filter(saved.messages, (x: Message) => !OfRun(run, x))
    requires (forall x | x in saved.messages && x.id.Steering? :: x.Human?) && m in saved.messages && m.AI?
    ensures m in kept
  {
    assert m in Filter(saved.messages, (x: Message) => !OfRun(run, x));
    assert m in Filter(kept, (x: Message) => !OfRun(run, x));
  }
}
