/**
 Message history and the `add_messages` reducer: its index-based loop and the
 closed form of what it yields.
 */
module History {
  import opened Wrappers
  import opened Sequences

  // Identifiers are strings built from these parts; `Generated` stands for the
  // uuid4 that the reducer gives a message created without one.
  datatype MessageId =
    | Steering(run: string, instruction: string)
    | Partial(run: string)
    | StoppedAt(run: string)
    | Generated(n: nat)
    | Named(name: string)

  datatype Receipt = Receipt(applied: bool, recipients: set<string>, after: Option<MessageId>)

  datatype Message =
    | Human(id: MessageId, text: string, receipt: Option<Receipt>)
    | AI(id: MessageId, text: string, calls: seq<Option<string>>)
    | Tool(id: MessageId, text: string, call: string)
    | System(id: MessageId, text: string)

  datatype Update = Put(message: Message) | Remove(target: MessageId)
  {
    function Id(): MessageId {
      if Put? then message.id else target
    }
  }

  function Ids(messages: seq<Message>): set<MessageId> {
    set m | m in messages :: m.id
  }

  ghost predicate UniqueIds(messages: seq<Message>) {
    forall i, j | 0 <= i < j < |messages| :: messages[i].id != messages[j].id
  }

  ghost predicate DistinctUpdates(updates: seq<Update>) {
    forall i, j | 0 <= i < j < |updates| :: updates[i].Id() != updates[j].Id()
  }

  // ---- The reducer ----

  datatype Merge = Merge(messages: seq<Message>, removed: set<MessageId>)

  // Where the reducer's index points for `id`: the last message that has it.
  function IndexOf(messages: seq<Message>, id: MessageId): (i: Option<nat>)
    ensures i.Some? ==> i.value < |messages| && messages[i.value].id == id
    ensures i.None? <==> id !in Ids(messages)
  {
    if messages == [] then None
    else if messages[|messages| - 1].id == id then Some(|messages| - 1)
    else IndexOf(messages[..|messages| - 1], id)
  }

  // Replace in place by identifier, append a new identifier, mark a removal.
  // Removing an identifier that is not there is an error.
  function MergeOne(m: Merge, u: Update): Option<Merge> {
    var i := IndexOf(m.messages, u.Id());
    match u
    case Put(message) =>
      if i.Some? then Some(Merge(m.messages[i.value := message], m.removed - {message.id}))
      else Some(Merge(m.messages + [message], m.removed))
    case Remove(id) => if i.Some? then Some(Merge(m.messages, m.removed + {id})) else None
  }

  function MergeAll(left: seq<Message>, updates: seq<Update>): Option<Merge> {
    if updates == [] then Some(Merge(left, {}))
    else
      var m := MergeAll(left, updates[..|updates| - 1]);
      if m.None? then None else MergeOne(m.value, updates[|updates| - 1])
  }

  function AddMessages(left: seq<Message>, updates: seq<Update>): Option<seq<Message>> {
    var m := MergeAll(left, updates);
    if m.None? then None else Some(Filter(m.value.messages, (x: Message) => x.id !in m.value.removed))
  }

  // ---- What the reducer does to a history, in closed form ----

  function UpdateFor(updates: seq<Update>, id: MessageId): Option<Update> {
    if updates == [] then None
    else if updates[0].Id() == id then Some(updates[0])
    else UpdateFor(updates[1..], id)
  }

  function Replacement(updates: seq<Update>, m: Message): Message {
    var u := UpdateFor(updates, m.id);
    if u.Some? && u.value.Put? then u.value.message else m
  }

  predicate Removed(updates: seq<Update>, id: MessageId) {
    var u := UpdateFor(updates, id);
    u.Some? && u.value.Remove?
  }

  // The old messages in their old order, replaced in place or dropped.
  function Kept(left: seq<Message>, updates: seq<Update>): seq<Message> {
    if left == [] then []
    else (if Removed(updates, left[0].id) then [] else [Replacement(updates, left[0])]) + Kept(left[1..], updates)
  }

  // The messages with identifiers the history did not have, in order of arrival.
  function Added(left: seq<Message>, updates: seq<Update>): seq<Message> {
    if updates == [] then []
    else
      var u := updates[|updates| - 1];
      Added(left, updates[..|updates| - 1]) + (if u.Put? && u.message.id !in Ids(left) then [u.message] else [])
  }

  function Replaced(left: seq<Message>, updates: seq<Update>): seq<Message> {
    seq(|left|, i requires 0 <= i < |left| => Replacement(updates, left[i]))
  }

  ghost predicate RemovesKnown(left: seq<Message>, updates: seq<Update>) {
    forall u | u in updates && u.Remove? :: u.target in Ids(left)
  }

  lemma {:induction false} UpdateForAppend(updates: seq<Update>, u: Update, id: MessageId)
    ensures UpdateFor(updates + [u], id) ==
      if UpdateFor(updates, id).Some? then UpdateFor(updates, id) else if u.Id() == id then Some(u) else None
  {
    if updates == [] {
      assert UpdateFor([u], id) == if u.Id() == id then Some(u) else UpdateFor([], id);
    } else {
      assert (updates + [u])[0] == updates[0] && (updates + [u])[1..] == updates[1..] + [u];
      UpdateForAppend(updates[1..], u, id);
    }
  }

  lemma {:induction false} UpdateForFound(updates: seq<Update>, id: MessageId)
    ensures UpdateFor(updates, id).Some? ==> UpdateFor(updates, id).value in updates && UpdateFor(updates, id).value.Id() == id
    ensures UpdateFor(updates, id).None? ==> forall u | u in updates :: u.Id() != id
  {
    if updates != [] {
      UpdateForFound(updates[1..], id);
    }
  }

  lemma UpdateForIs(updates: seq<Update>, u: Update)
    requires DistinctUpdates(updates) && u in updates
    ensures UpdateFor(updates, u.Id()) == Some(u)
  {
    UpdateForFound(updates, u.Id());
  }

  lemma {:induction false} AddedIds(left: seq<Message>, updates: seq<Update>)
    ensures forall x | x in Added(left, updates) :: Put(x) in updates && x.id !in Ids(left)
    ensures forall u | u in updates && u.Put? && u.message.id !in Ids(left) :: u.message in Added(left, updates)
  {
    if updates != [] {
      AddedIds(left, updates[..|updates| - 1]);
      assert updates == updates[..|updates| - 1] + [updates[|updates| - 1]];
    }
  }

  lemma ReplacedIds(left: seq<Message>, updates: seq<Update>)
    ensures forall i | 0 <= i < |left| :: Replaced(left, updates)[i].id == left[i].id
    ensures Ids(Replaced(left, updates)) == Ids(left)
  {
    forall i | 0 <= i < |left|
      ensures Replaced(left, updates)[i].id == left[i].id
    {
      UpdateForFound(updates, left[i].id);
    }
    forall i | 0 <= i < |left|
      ensures left[i].id in Ids(Replaced(left, updates))
    {
      assert Replaced(left, updates)[i] in Replaced(left, updates);
    }
  }

  function RemovedIds(updates: seq<Update>): set<MessageId> {
    set u | u in updates && u.Remove? :: u.target
  }

  lemma UniqueIndex(messages: seq<Message>, i: nat)
    requires UniqueIds(messages) && i < |messages|
    ensures IndexOf(messages, messages[i].id) == Some(i)
  {
  }

  // The merged list before removals: the history replaced in place, then the new messages.
  lemma {:induction false} MergeShape(left: seq<Message>, updates: seq<Update>)
    requires UniqueIds(left) && DistinctUpdates(updates) && RemovesKnown(left, updates)
    ensures MergeAll(left, updates) == Some(Merge(Replaced(left, updates) + Added(left, updates), RemovedIds(updates)))
    ensures UniqueIds(Replaced(left, updates) + Added(left, updates))
    decreases |updates|
  {
    if updates == [] {
      assert Replaced(left, updates) + Added(left, updates) == left;
      assert RemovedIds(updates) == {};
    } else {
      var before := updates[..|updates| - 1];
      var u := updates[|updates| - 1];
      assert updates == before + [u];
      MergeShape(left, before);
      MergeLast(left, before, u);
    }
  }

  // One more update, distinct from the earlier ones, seen from each closed form.
  lemma OneMore(left: seq<Message>, before: seq<Update>, u: Update)
    requires DistinctUpdates(before + [u])
    ensures Replaced(left, before + [u]) ==
      seq(|left|, i requires 0 <= i < |left| => if u.Put? && left[i].id == u.message.id then u.message else Replaced(left, before)[i])
    ensures Added(left, before + [u]) == Added(left, before) + (if u.Put? && u.message.id !in Ids(left) then [u.message] else [])
    ensures RemovedIds(before + [u]) == RemovedIds(before) + (if u.Remove? then {u.target} else {})
    ensures u.Id() !in RemovedIds(before)
    ensures forall x | x in Added(left, before) :: x.id != u.Id()
  {
    var updates := before + [u];
    assert updates[..|updates| - 1] == before && updates[|updates| - 1] == u;
    assert forall i | 0 <= i < |before| :: updates[i] == before[i];
    assert forall b | b in before :: b.Id() != u.Id();
    AddedIds(left, before);
    forall i | 0 <= i < |left|
      ensures Replaced(left, updates)[i] == if u.Put? && left[i].id == u.message.id then u.message else Replaced(left, before)[i]
    {
      UpdateForAppend(before, u, left[i].id);
      UpdateForFound(before, left[i].id);
    }
  }

  lemma MergeLast(left: seq<Message>, before: seq<Update>, u: Update)
    requires UniqueIds(left) && DistinctUpdates(before + [u]) && RemovesKnown(left, before + [u])
    requires UniqueIds(Replaced(left, before) + Added(left, before))
    ensures MergeOne(Merge(Replaced(left, before) + Added(left, before), RemovedIds(before)), u) ==
      Some(Merge(Replaced(left, before + [u]) + Added(left, before + [u]), RemovedIds(before + [u])))
    ensures UniqueIds(Replaced(left, before + [u]) + Added(left, before + [u]))
  {
    OneMore(left, before, u);
    ReplacedIds(left, before);
    assert (before + [u])[|before|] == u;
    if u.Id() in Ids(left) {
      MergeKnown(left, before, u);
    } else {
      MergeNew(left, before, u.message);
    }
  }

  lemma MergeReplaces(list: seq<Message>, removed: set<MessageId>, i: nat, m: Message)
    requires UniqueIds(list) && i < |list| && list[i].id == m.id && m.id !in removed
    ensures MergeOne(Merge(list, removed), Put(m)) == Some(Merge(list[i := m], removed))
    ensures UniqueIds(list[i := m])
  {
    UniqueIndex(list, i);
    assert removed - {m.id} == removed;
  }

  lemma MergeAppends(list: seq<Message>, removed: set<MessageId>, m: Message)
    requires UniqueIds(list) && m.id !in Ids(list)
    ensures MergeOne(Merge(list, removed), Put(m)) == Some(Merge(list + [m], removed))
    ensures UniqueIds(list + [m])
  {
    assert forall i | 0 <= i < |list| :: list[i] in list;
  }

  lemma MergeRemoves(list: seq<Message>, removed: set<MessageId>, i: nat, id: MessageId)
    requires UniqueIds(list) && i < |list| && list[i].id == id
    ensures MergeOne(Merge(list, removed), Remove(id)) == Some(Merge(list, removed + {id}))
  {
    UniqueIndex(list, i);
  }

  lemma ReplacedAt(left: seq<Message>, before: seq<Update>, u: Update, i: nat)
    requires UniqueIds(left) && DistinctUpdates(before + [u]) && i < |left| && left[i].id == u.Id()
    ensures Replaced(left, before + [u]) == if u.Put? then Replaced(left, before)[i := u.message] else Replaced(left, before)
    ensures Added(left, before + [u]) == Added(left, before)
  {
    forall j | 0 <= j < |left|
      ensures Replacement(before + [u], left[j]) == if u.Put? && j == i then u.message else Replacement(before, left[j])
    {
      OneReplaced(before, u, left[j]);
      assert left[j].id == left[i].id ==> j == i;
    }
    assert left[i].id in Ids(left);
    assert (before + [u])[..|before|] == before;
  }

  lemma OneReplaced(before: seq<Update>, u: Update, m: Message)
    requires DistinctUpdates(before + [u])
    ensures Replacement(before + [u], m) == if u.Put? && m.id == u.Id() then u.message else Replacement(before, m)
  {
    UpdateForAppend(before, u, m.id);
    if m.id == u.Id() {
      UpdateForFound(before, m.id);
      forall k | 0 <= k < |before|
        ensures before[k].Id() != u.Id()
      {
        assert (before + [u])[k] == before[k] && (before + [u])[|before|] == u;
      }
    }
  }

  // The identifier has a place in the list merged so far.
  lemma PlaceOf(left: seq<Message>, before: seq<Update>, id: MessageId) returns (i: nat)
    requires id in Ids(left)
    ensures i < |left| && left[i].id == id && (Replaced(left, before) + Added(left, before))[i].id == id
  {
    i :| 0 <= i < |left| && left[i].id == id;
    ReplacedIds(left, before);
    assert (Replaced(left, before) + Added(left, before))[i] == Replaced(left, before)[i];
  }

  lemma RemovedIdsAppend(before: seq<Update>, u: Update)
    requires DistinctUpdates(before + [u])
    ensures RemovedIds(before + [u]) == RemovedIds(before) + (if u.Remove? then {u.target} else {})
    ensures u.Id() !in RemovedIds(before)
  {
    OneMore([], before, u);
  }

  lemma MergeKnown(left: seq<Message>, before: seq<Update>, u: Update)
    requires UniqueIds(left) && DistinctUpdates(before + [u]) && u.Id() in Ids(left)
    requires UniqueIds(Replaced(left, before) + Added(left, before))
    ensures MergeOne(Merge(Replaced(left, before) + Added(left, before), RemovedIds(before)), u) ==
      Some(Merge(Replaced(left, before + [u]) + Added(left, before + [u]), RemovedIds(before + [u])))
    ensures UniqueIds(Replaced(left, before + [u]) + Added(left, before + [u]))
  {
    var i := PlaceOf(left, before, u.Id());
    ReplacedAt(left, before, u, i);
    RemovedIdsAppend(before, u);
    var list, after := Replaced(left, before) + Added(left, before), Replaced(left, before + [u]) + Added(left, before + [u]);
    var gone, goneAfter := RemovedIds(before), RemovedIds(before + [u]);
    assert after == (if u.Put? then list[i := u.message] else list);
    MergeAt(list, gone, i, u, after, goneAfter);
  }

  lemma MergeAt(list: seq<Message>, gone: set<MessageId>, i: nat, u: Update, after: seq<Message>, goneAfter: set<MessageId>)
    requires UniqueIds(list) && i < |list| && list[i].id == u.Id() && u.Id() !in gone
    requires after == (if u.Put? then list[i := u.message] else list)
    requires goneAfter == gone + (if u.Remove? then {u.target} else {})
    ensures MergeOne(Merge(list, gone), u) == Some(Merge(after, goneAfter)) && UniqueIds(after)
  {
    match u
    case Put(message) =>
      assert goneAfter == gone;
      MergeReplaces(list, gone, i, message);
    case Remove(id) => MergeRemoves(list, gone, i, id);
  }

  lemma MergeNew(left: seq<Message>, before: seq<Update>, m: Message)
    requires UniqueIds(left) && DistinctUpdates(before + [Put(m)]) && m.id !in Ids(left)
    requires UniqueIds(Replaced(left, before) + Added(left, before))
    ensures MergeOne(Merge(Replaced(left, before) + Added(left, before), RemovedIds(before)), Put(m)) ==
      Some(Merge(Replaced(left, before + [Put(m)]) + Added(left, before + [Put(m)]), RemovedIds(before + [Put(m)])))
    ensures UniqueIds(Replaced(left, before + [Put(m)]) + Added(left, before + [Put(m)]))
  {
    OneMore(left, before, Put(m));
    ReplacedIds(left, before);
    var was, now, list := Replaced(left, before), Replaced(left, before + [Put(m)]), Replaced(left, before) + Added(left, before);
    forall i | 0 <= i < |left|
      ensures now[i] == was[i]
    {
      assert left[i] in left;
    }
    assert now == was;
    forall x | x in list
      ensures x.id != m.id
    {
      assert x in was || x in Added(left, before);
    }
    MergeAppends(list, RemovedIds(before), m);
    assert list + [m] == now + Added(left, before + [Put(m)]);
    assert RemovedIds(before + [Put(m)]) == RemovedIds(before);
  }

  lemma {:induction false} KeptIsFiltered(left: seq<Message>, updates: seq<Update>, gone: set<MessageId>)
    requires forall m | m in left :: Removed(updates, m.id) <==> m.id in gone
    ensures Filter(Replaced(left, updates), (x: Message) => x.id !in gone) == Kept(left, updates)
  {
    if left == [] {
      assert Replaced(left, updates) == [];
    } else {
      var rest := Replaced(left[1..], updates);
      assert Replaced(left, updates) == [Replacement(updates, left[0])] + rest;
      UpdateForFound(updates, left[0].id);
      KeptIsFiltered(left[1..], updates, gone);
    }
  }

  /** With distinct identifiers, the reducer yields the old messages, replaced in place or dropped, followed by the new ones. */
  lemma AddMessagesShape(left: seq<Message>, updates: seq<Update>)
    requires UniqueIds(left) && DistinctUpdates(updates) && RemovesKnown(left, updates)
    ensures AddMessages(left, updates) == Some(Kept(left, updates) + Added(left, updates))
  {
    MergeShape(left, updates);
    var gone := RemovedIds(updates);
    var keep := (x: Message) => x.id !in gone;
    FilterAppend(Replaced(left, updates), Added(left, updates), keep);
    forall m | m in left
      ensures Removed(updates, m.id) <==> m.id in gone
    {
      UpdateForFound(updates, m.id);
      if m.id in gone {
        UpdateForIs(updates, Remove(m.id));
      }
    }
    KeptIsFiltered(left, updates, gone);
    AddedIds(left, updates);
    forall x | x in Added(left, updates)
      ensures keep(x)
    {
      forall u | u in updates && u.Id() == x.id
        ensures u == Put(x)
      {
        UpdateForIs(updates, Put(x));
        UpdateForIs(updates, u);
      }
    }
    FilterAll(Added(left, updates), keep);
  }
}
