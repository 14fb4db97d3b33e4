/**
 The artifact store for one conversation, and the client that folds its events.
 `Store` is the value of the store's fields; a `Trace` adds what has happened to
 it since the turn began.
 */
module ArtifactStore {
  import opened Wrappers
  import opened Sequences
  import opened Artifacts

  datatype Store = Store(turn: Option<Turn>, queued: seq<ArtifactId>, metadata: map<ArtifactId, Entry>)

  datatype Outcome = Accepted | Refused(error: AdmitError) | VersionLost

  function SetDefault(s: Store): Turn {
    if s.turn.Some? then s.turn.value else NO_TURN
  }

  function WithdrawEvent(queued: seq<ArtifactId>, id: ArtifactId): seq<ArtifactId> {
    var left := RemoveFirst(queued, id);
    if left.Some? then left.value else queued
  }

  // `register_artifact`, given that writing the two files succeeds or fails.
  function RegisterSpec(s: Store, e: Entry, writeFails: bool): (Store, Outcome) {
    var turn := SetDefault(s);
    var replacing := Replacing(turn, e);
    var refused := AdmitSpec(turn, e.category, e.kind, e.size, replacing);
    if refused.Some? then (s.(turn := Some(turn)), Refused(refused.value))
    else if writeFails then (s.(turn := Some(turn)), Refused(WriteFailed))
    else
      var metadata := s.metadata[e.id := e];
      if replacing.None? then (Store(Some(AddSpec(turn, e)), s.queued + [e.id], metadata), Accepted)
      else
        var withdrawn := WithdrawSpec(turn, replacing.value);
        if withdrawn.None? then (Store(Some(turn), s.queued, metadata), VersionLost)
        else (Store(Some(AddSpec(withdrawn.value, e)), WithdrawEvent(s.queued, replacing.value.id) + [e.id], metadata), Accepted)
  }

  // ---- The store's methods ----

  // The fields of the store that belong to one conversation.
  class ArtifactStore {
    var turn: PendingTurn?
    var queued: seq<ArtifactId>
    var metadata: map<ArtifactId, Entry>

    function Value(): Store
      reads this, turn
    {
      Store(if turn == null then None else Some(turn.Value()), queued, metadata)
    }

    constructor ()
      ensures Value() == EMPTY.store
    {
      turn, queued, metadata := null, [], map[];
    }

    /** `register_artifact`: admission first, then the files, then the two queues. */
    method Register(e: Entry, writeFails: bool) returns (outcome: Outcome)
      modifies this, turn
      ensures turn != null && (turn == old(turn) || fresh(turn))
      ensures outcome == RegisterSpec(old(Value()), e, writeFails).1
      ensures outcome != VersionLost ==> Value() == RegisterSpec(old(Value()), e, writeFails).0
    {
      ghost var before := Value();
      if turn == null {
        turn := new PendingTurn();
      }
      var replacing: Option<Version> := None;
      if e.Tracked() && e.path in turn.byPath {
        replacing := Some(turn.byPath[e.path]);
      }
      assert turn.Value() == SetDefault(before) && replacing == Replacing(SetDefault(before), e);
      var refused := turn.Admit(e.category, e.kind, e.size, replacing);
      if refused.Some? {
        return Refused(refused.value);
      }
      if writeFails {
        return Refused(WriteFailed);
      }
      metadata := metadata[e.id := e];
      if replacing.Some? {
        var found := turn.Withdraw(replacing.value);
        if !found {
          return VersionLost;
        }
        var left := RemoveFirst(queued, replacing.value.id);
        if left.Some? {
          queued := left.value;
        }
      }
      turn.Add(e);
      queued := queued + [e.id];
      return Accepted;
    }

    /** `drain_events`: the queued events whose files can still be read, in order. */
    method DrainEvents() returns (events: seq<Entry>)
      modifies this
      ensures Value() == old(Value()).(queued := [])
      ensures old(Known(queued, metadata)) ==> events == old(EntriesOf(queued, metadata))
    {
      var ids := queued;
      queued := [];
      events := [];
      for i := 0 to |ids|
        invariant Known(ids, metadata) ==> events + EntriesOf(ids[i..], metadata) == EntriesOf(ids, metadata)
      {
        if ids[i] in metadata {
          assert ids[i..][1..] == ids[i + 1..];
          events := events + [metadata[ids[i]]];
        }
      }
    }

    /** `claim_for_message`: the identifiers of the turn, which is then over. */
    method ClaimForMessage() returns (ids: seq<ArtifactId>)
      modifies this
      ensures ids == SetDefault(old(Value())).ids
      ensures Value() == old(Value()).(turn := None)
    {
      ids := [];
      if turn != null {
        ids := turn.ids;
      }
      turn := null;
    }

    method BeginTurn()
      modifies this
      ensures Value() == old(Value()).(turn := None, queued := [])
    {
      turn, queued := null, [];
    }
  }

  // ---- Histories of a store ----

  // `entries` survive in the pending turn; `drained` are the events handed out
  // since the turn began; `pathless` says no record had a workspace path.
  datatype Trace = Trace(store: Store, entries: seq<Entry>, drained: seq<Entry>, claimed: bool, pathless: bool)

  datatype Event =
    | Register(e: Entry, writeFails: bool)
    | DrainEvents
    | Claim
    | BeginTurn

  const EMPTY: Trace := Trace(Store(None, [], map[]), [], [], false, true)

  function Queue(t: Trace): seq<Entry>
    requires Known(t.store.queued, t.store.metadata)
  {
    EntriesOf(t.store.queued, t.store.metadata)
  }

  // A new artifact has a fresh identifier; anything else cannot happen.
  function Next(t: Trace, event: Event): Trace {
    match event
    case Register(e, writeFails) =>
      if e.id in t.store.metadata then t
      else
        var (store, outcome) := RegisterSpec(t.store, e, writeFails);
        if outcome.Accepted? then
          Trace(store, Registered(t.entries, e), t.drained, t.claimed, t.pathless && (e.category.Record? ==> e.path == ""))
        else t.(store := store)
    case DrainEvents =>
      if Known(t.store.queued, t.store.metadata) then t.(store := t.store.(queued := []), drained := t.drained + Queue(t)) else t
    case Claim => t.(store := t.store.(turn := None), entries := [], claimed := true)
    case BeginTurn => Trace(t.store.(turn := None, queued := []), [], [], false, true)
  }

  function After(t: Trace, events: seq<Event>): Trace
    decreases |events|
  {
    if events == [] then t else After(Next(t, events[0]), events[1..])
  }

  // ---- The accounting agrees with a recomputation ----

  ghost predicate Accounted(t: Turn, entries: seq<Entry>) {
    && t.ids == Ids(entries)
    && t.resultIds == ResultIds(entries)
    && t.images == Images(entries)
    && t.resultBytes == Bytes(entries)
    && t.records == Records(entries)
  }

  ghost predicate TurnInv(t: Turn, entries: seq<Entry>) {
    Accounted(t, entries) && Distinct(entries) && Indexed(entries, t.byPath) && WithinLimits(entries)
  }

  ghost predicate OnFile(entries: seq<Entry>, metadata: map<ArtifactId, Entry>) {
    forall e | e in entries :: e.id in metadata && metadata[e.id] == e
  }

  ghost predicate StoreInv(t: Trace) {
    && Known(t.store.queued, t.store.metadata)
    && Sane(t.store.metadata)
    && OnFile(t.entries, t.store.metadata)
    && OnFile(t.drained, t.store.metadata)
    && (forall d | d in t.drained :: d.id !in t.store.queued)
    && TurnInv(SetDefault(t.store), t.entries)
  }

  ghost predicate Agrees(t: Trace)
    requires Known(t.store.queued, t.store.metadata)
  {
    !t.claimed && t.pathless ==> PathlessRecords(t.entries) && Newest(t.drained + Queue(t)) == t.entries
  }

  /** `admit` refuses exactly when the turn would exceed a limit once the superseded version is gone. */
  lemma AdmissionIsExact(t: Turn, entries: seq<Entry>, e: Entry)
    requires TurnInv(t, entries)
    ensures AdmitSpec(t, e.category, e.kind, e.size, Replacing(t, e)).None? <==> WithinLimits(Registered(entries, e))
  {
    RegisteredTotals(entries, e);
    Totals(entries);
    if Replacing(t, e).Some? {
      var o :| o in entries && o.Tracked() && o.path == e.path;
      assert t.byPath[e.path] == VersionOf(o);
    }
  }

  /** A refusal names the limit that would be broken, images before bytes. */
  lemma RefusalIsTrue(t: Turn, entries: seq<Entry>, e: Entry)
    requires TurnInv(t, entries)
    ensures match AdmitSpec(t, e.category, e.kind, e.size, Replacing(t, e))
      case None => WithinLimits(Registered(entries, e))
      case Some(TooManyRecords) => e.category.Record? && Records(Registered(entries, e)) > 40
      case Some(TooManyImages) => e.category.Result? && Images(Registered(entries, e)) > 8
      case Some(OverBudget) => e.category.Result? && Bytes(Registered(entries, e)) > 64 * 1048576 && Images(Registered(entries, e)) <= 8
      case Some(WriteFailed) => false
  {
    RegisteredTotals(entries, e);
    Totals(entries);
    if Replacing(t, e).Some? {
      var o :| o in entries && o.Tracked() && o.path == e.path;
      assert t.byPath[e.path] == VersionOf(o);
    }
  }

  /** The superseded version is always found, and withdrawing it leaves the accounting of the others. */
  lemma VersionIsFound(t: Turn, entries: seq<Entry>, e: Entry)
    requires TurnInv(t, entries) && Replacing(t, e).Some?
    ensures var withdrawn := WithdrawSpec(t, Replacing(t, e).value);
      && withdrawn.Some? && Accounted(withdrawn.value, Superseded(entries, e)) && withdrawn.value.byPath == t.byPath
    ensures exists o | o in entries :: o.id == Replacing(t, e).value.id && o.path == e.path
  {
    var o :| o in entries && o.Tracked() && o.path == e.path;
    var i :| 0 <= i < |entries| && entries[i] == o;
    assert t.byPath[e.path] == VersionOf(o);
    RemoveId(entries, i);
    RemoveResultId(entries, i);
    DropTotals(entries, i);
    SupersededOne(entries, e, i);
  }

  lemma AddAccounts(t: Turn, entries: seq<Entry>, e: Entry)
    requires Accounted(t, entries)
    ensures Accounted(AddSpec(t, e), entries + [e])
    ensures AddSpec(t, e).byPath == if e.Tracked() then t.byPath[e.path := VersionOf(e)] else t.byPath
  {
    AppendTotals(entries, e);
  }

  // The turn after an accepted registration.
  lemma RegisteredTurn(t: Turn, entries: seq<Entry>, e: Entry)
    requires TurnInv(t, entries) && WithinLimits(Registered(entries, e)) && forall o | o in entries :: o.id != e.id
    ensures var left := if Replacing(t, e).Some? then WithdrawSpec(t, Replacing(t, e).value) else Some(t);
      left.Some? && TurnInv(AddSpec(left.value, e), Registered(entries, e))
  {
    RegisteredKeeps(entries, e, t.byPath);
    if Replacing(t, e).Some? {
      VersionIsFound(t, entries, e);
      AddAccounts(WithdrawSpec(t, Replacing(t, e).value).value, Superseded(entries, e), e);
    } else {
      assert Superseded(entries, e) == entries by {
        SupersededNone(entries, e);
      }
      AddAccounts(t, entries, e);
    }
  }

  lemma {:induction false} RemoveFirstMember(s: seq<ArtifactId>, x: ArtifactId)
    ensures RemoveFirst(s, x).Some? <==> x in s
  {
    if s != [] {
      RemoveFirstMember(s[1..], x);
    }
  }

  // The queue without the superseded event: no event of another file is lost.
  lemma QueueAfterWithdrawal(queued: seq<ArtifactId>, metadata: map<ArtifactId, Entry>, id: ArtifactId)
    requires Known(queued, metadata) && id in metadata
    ensures Known(WithdrawEvent(queued, id), metadata)
    ensures OffPath(EntriesOf(WithdrawEvent(queued, id), metadata), metadata[id].path) ==
      OffPath(EntriesOf(queued, metadata), metadata[id].path)
  {
    RemoveFirstMember(queued, id);
    if id in queued {
      WithdrawnEvent(queued, metadata, id);
    }
  }

  // The queue just before the new event is appended.
  function QueueLeft(s: Store, e: Entry): seq<ArtifactId> {
    var replacing := Replacing(SetDefault(s), e);
    if replacing.Some? then WithdrawEvent(s.queued, replacing.value.id) else s.queued
  }

  lemma QueueLeftSame(t: Trace, e: Entry)
    requires StoreInv(t) && e.id !in t.store.metadata
    ensures Known(QueueLeft(t.store, e), t.store.metadata)
    ensures if e.Tracked() then
        OffPath(EntriesOf(QueueLeft(t.store, e), t.store.metadata), e.path) == OffPath(Queue(t), e.path)
      else QueueLeft(t.store, e) == t.store.queued
  {
    var turn := SetDefault(t.store);
    if Replacing(turn, e).Some? {
      VersionIsFound(turn, t.entries, e);
      var o :| o in t.entries && o.id == Replacing(turn, e).value.id && o.path == e.path;
      assert t.store.metadata[o.id] == o;
      QueueAfterWithdrawal(t.store.queued, t.store.metadata, o.id);
    }
  }

  lemma {:induction false} RemoveFirstSubset(s: seq<ArtifactId>, x: ArtifactId)
    ensures RemoveFirst(s, x).Some? ==> forall y | y in RemoveFirst(s, x).value :: y in s
  {
    if s != [] {
      RemoveFirstSubset(s[1..], x);
    }
  }

  lemma QueueLeftSubset(s: Store, e: Entry)
    ensures forall id | id in QueueLeft(s, e) :: id in s.queued
  {
    if Replacing(SetDefault(s), e).Some? {
      RemoveFirstSubset(s.queued, Replacing(SetDefault(s), e).value.id);
    }
  }

  ghost predicate Sane(metadata: map<ArtifactId, Entry>) {
    forall id | id in metadata :: metadata[id].id == id
  }

  lemma {:induction false} EntriesOfMembers(queue: seq<ArtifactId>, metadata: map<ArtifactId, Entry>)
    requires Known(queue, metadata) && Sane(metadata)
    ensures forall b | b in EntriesOf(queue, metadata) :: b.id in queue && b.id in metadata && metadata[b.id] == b
  {
    if queue != [] {
      EntriesOfMembers(queue[1..], metadata);
      forall b | b in EntriesOf(queue, metadata)
        ensures b.id in queue && b.id in metadata && metadata[b.id] == b
      {
        var first := queue[0];
        assert first in metadata && metadata[first].id == first;
        if b != metadata[first] {
          assert b in EntriesOf(queue[1..], metadata);
          assert b.id in queue[1..];
        }
      }
    }
  }

  // What an accepted registration does to the store.
  lemma RegisterOutcome(t: Trace, e: Entry, writeFails: bool)
    requires StoreInv(t) && e.id !in t.store.metadata
    ensures RegisterSpec(t.store, e, writeFails).1 != VersionLost
    ensures RegisterSpec(t.store, e, writeFails).1.Accepted? <==> !writeFails && WithinLimits(Registered(t.entries, e))
    ensures var s := RegisterSpec(t.store, e, writeFails).0;
      if RegisterSpec(t.store, e, writeFails).1.Accepted? then
        && s.turn.Some? && TurnInv(s.turn.value, Registered(t.entries, e))
        && s.queued == QueueLeft(t.store, e) + [e.id]
        && s.metadata == t.store.metadata[e.id := e]
      else s == t.store.(turn := Some(SetDefault(t.store)))
  {
    var turn := SetDefault(t.store);
    AdmissionIsExact(turn, t.entries, e);
    if WithinLimits(Registered(t.entries, e)) {
      RegisteredTurn(turn, t.entries, e);
    }
  }

  // The trace `t'` after `e` was accepted in `t`.
  ghost predicate Accepts(t: Trace, e: Entry, t': Trace) {
    && t'.store.turn.Some? && TurnInv(t'.store.turn.value, Registered(t.entries, e))
    && t'.store.queued == QueueLeft(t.store, e) + [e.id]
    && t'.store.metadata == t.store.metadata[e.id := e]
    && t'.entries == Registered(t.entries, e) && t'.drained == t.drained && t'.claimed == t.claimed
    && t'.pathless == (t.pathless && (e.category.Record? ==> e.path == ""))
  }

  lemma NewFile(entries: seq<Entry>, metadata: map<ArtifactId, Entry>, e: Entry)
    requires OnFile(entries, metadata) && e.id !in metadata
    ensures OnFile(entries, metadata[e.id := e])
    ensures OnFile(Registered(entries, e), metadata[e.id := e])
  {
    SupersededMembers(entries, e);
  }

  lemma StillDrained(drained: seq<Entry>, queued: seq<ArtifactId>, left: seq<ArtifactId>, metadata: map<ArtifactId, Entry>, e: Entry)
    requires OnFile(drained, metadata) && e.id !in metadata && (forall id | id in left :: id in queued)
    requires forall d | d in drained :: d.id !in queued
    ensures forall d | d in drained :: d.id !in left + [e.id]
  {
  }

  lemma AcceptedKeeps(t: Trace, e: Entry, t': Trace)
    requires StoreInv(t) && e.id !in t.store.metadata && Accepts(t, e, t')
    ensures StoreInv(t')
  {
    var left := QueueLeft(t.store, e);
    QueueLeftSame(t, e);
    QueueLeftSubset(t.store, e);
    EntriesOfAppend(left, t.store.metadata, e);
    NewFile(t.entries, t.store.metadata, e);
    NewFile(t.drained, t.store.metadata, e);
    StillDrained(t.drained, t.store.queued, left, t.store.metadata, e);
  }

  lemma AcceptedAgrees(t: Trace, e: Entry, t': Trace)
    requires StoreInv(t) && Agrees(t) && e.id !in t.store.metadata && Accepts(t, e, t')
    ensures Known(t'.store.queued, t'.store.metadata) && Agrees(t')
  {
    var left := QueueLeft(t.store, e);
    QueueLeftSame(t, e);
    EntriesOfAppend(left, t.store.metadata, e);
    assert t'.drained + Queue(t') == t.drained + EntriesOf(left, t.store.metadata) + [e];
    if !t'.claimed && t'.pathless {
      NextAgrees(t.drained, Queue(t), EntriesOf(left, t.store.metadata), t.entries, e);
    }
  }

  lemma DrainKeeps(t: Trace)
    requires StoreInv(t) && Agrees(t)
    ensures StoreInv(Next(t, DrainEvents)) && Agrees(Next(t, DrainEvents))
  {
    var t' := Next(t, DrainEvents);
    EntriesOfMembers(t.store.queued, t.store.metadata);
    assert t'.drained + Queue(t') == t.drained + Queue(t);
  }

  lemma StepKeeps(t: Trace, event: Event)
    requires StoreInv(t) && Agrees(t)
    ensures StoreInv(Next(t, event)) && Agrees(Next(t, event))
  {
    match event
    case Register(e, writeFails) =>
      if e.id !in t.store.metadata {
        RegisterOutcome(t, e, writeFails);
        if RegisterSpec(t.store, e, writeFails).1.Accepted? {
          AcceptedKeeps(t, e, Next(t, event));
          AcceptedAgrees(t, e, Next(t, event));
        }
      }
    case DrainEvents => DrainKeeps(t);
    case Claim =>
    case BeginTurn =>
  }

  lemma {:induction false} RunsKeep(t: Trace, events: seq<Event>)
    requires StoreInv(t) && Agrees(t)
    ensures StoreInv(After(t, events)) && Agrees(After(t, events))
    decreases |events|
  {
    if events != [] {
      StepKeeps(t, events[0]);
      RunsKeep(Next(t, events[0]), events[1..]);
    }
  }

  /**
   After any sequence of registrations, rejections, drains, claims and new turns,
   the incremental accounting of the pending turn is the recomputation over its
   surviving entries, all limits hold, and `byPath` points at distinct results.
   */
  lemma AccountingIsExact(events: seq<Event>)
    ensures var t := After(EMPTY, events); var turn := SetDefault(t.store);
      && turn.ids == Ids(t.entries) && turn.resultIds == ResultIds(t.entries)
      && turn.images == Images(t.entries) && turn.resultBytes == Bytes(t.entries) && turn.records == Records(t.entries)
      && turn.images <= MAX_IMAGES && turn.resultBytes <= MAX_BYTES && turn.records <= MAX_RECORDS
      && (forall p, q | p in turn.byPath && q in turn.byPath && p != q :: turn.byPath[p].id != turn.byPath[q].id)
      && (forall p | p in turn.byPath :: turn.byPath[p].id in turn.resultIds)
  {
    RunsKeep(EMPTY, events);
    var t := After(EMPTY, events);
    var turn := SetDefault(t.store);
    forall p, q | p in turn.byPath && q in turn.byPath && p != q
      ensures turn.byPath[p].id != turn.byPath[q].id
    {
      var a :| a in t.entries && a.Tracked() && a.path == p;
      var b :| b in t.entries && b.Tracked() && b.path == q;
    }
    forall p | p in turn.byPath
      ensures turn.byPath[p].id in turn.resultIds
    {
      var a :| a in t.entries && a.Tracked() && a.path == p;
      ResultListed(t.entries, a);
    }
  }

  lemma {:induction false} ResultListed(entries: seq<Entry>, e: Entry)
    requires e in entries && e.category.Result?
    ensures e.id in ResultIds(entries)
  {
    var n := |entries| - 1;
    if entries[n] != e {
      assert entries == entries[..n] + [entries[n]];
      ResultListed(entries[..n], e);
    }
  }

  /**
   Inside one turn, over every interleaving of registrations and drains, the
   client's filter over the events it has and those still queued gives the very
   identifiers that `claim_for_message` will return, provided records carry no path.
   */
  lemma ClientAgreesWithServer(events: seq<Event>)
    requires var t := After(EMPTY, events); !t.claimed && t.pathless
    ensures var t := After(EMPTY, events);
      Known(t.store.queued, t.store.metadata) && Ids(Newest(t.drained + Queue(t))) == SetDefault(t.store).ids
  {
    RunsKeep(EMPTY, events);
  }

  // ---- What is queued ----

  // The surviving entries whose events were not handed out yet.
  function Undrained(t: Trace): seq<Entry> {
    Filter(t.entries, (e: Entry) => e !in t.drained)
  }

  ghost predicate QueueExact(t: Trace) {
    !t.claimed ==> t.store.queued == Ids(Undrained(t))
  }

  lemma {:induction false} FilterDistinct(entries: seq<Entry>, keep: Entry -> bool)
    requires Distinct(entries)
    ensures Distinct(Filter(entries, keep))
  {
    if entries != [] {
      FilterDistinct(entries[1..], keep);
      forall j | 0 <= j < |Filter(entries[1..], keep)|
        ensures Filter(entries[1..], keep)[j].id != entries[0].id
      {
        assert Filter(entries[1..], keep)[j] in entries[1..];
      }
    }
  }

  lemma FilterAround(a: seq<Entry>, e: Entry, b: seq<Entry>, keep: Entry -> bool)
    ensures Filter(a + [e] + b, keep) == Filter(a, keep) + (if keep(e) then [e] else []) + Filter(b, keep)
    ensures Filter(a + b, keep) == Filter(a, keep) + Filter(b, keep)
  {
    FilterAppend(a + [e], b, keep);
    FilterAppend(a, [e], keep);
    FilterAppend(a, b, keep);
    assert [e][1..] == [] && Filter([e], keep) == if keep(e) then [e] else [];
  }

  lemma RemoveMiddle(a: seq<Entry>, e: Entry, b: seq<Entry>)
    requires Distinct(a + [e] + b)
    ensures RemoveFirst(Ids(a + [e] + b), e.id) == Some(Ids(a + b))
  {
    var all := a + [e] + b;
    RemoveId(all, |a|);
    assert Drop(all, |a|) == a + b;
  }

  lemma FilterMiddle(a: seq<Entry>, e: Entry, b: seq<Entry>, keep: Entry -> bool)
    requires Distinct(a + [e] + b) && keep(e)
    ensures RemoveFirst(Ids(Filter(a + [e] + b, keep)), e.id) == Some(Ids(Filter(a + b, keep)))
  {
    FilterAround(a, e, b, keep);
    FilterDistinct(a + [e] + b, keep);
    RemoveMiddle(Filter(a, keep), e, Filter(b, keep));
  }

  // Dropping the entry at `i` drops it from the filtered list, if it is there.
  lemma FilterDrop(entries: seq<Entry>, i: nat, keep: Entry -> bool)
    requires Distinct(entries) && i < |entries|
    ensures if keep(entries[i]) then RemoveFirst(Ids(Filter(entries, keep)), entries[i].id) == Some(Ids(Filter(Drop(entries, i), keep)))
      else Filter(Drop(entries, i), keep) == Filter(entries, keep)
  {
    var a, e, b := entries[..i], entries[i], entries[i + 1..];
    PartsOf(entries, i);
    if keep(e) {
      FilterMiddle(a, e, b, keep);
    } else {
      FilterSkips(a, e, b, keep);
    }
  }

  lemma PartsOf(entries: seq<Entry>, i: nat)
    requires i < |entries|
    ensures entries[..i] + [entries[i]] + entries[i + 1..] == entries
  {
  }

  lemma FilterSkips(a: seq<Entry>, e: Entry, b: seq<Entry>, keep: Entry -> bool)
    requires !keep(e)
    ensures Filter(a + [e] + b, keep) == Filter(a + b, keep)
  {
    FilterAround(a, e, b, keep);
    assert Filter(a, keep) + [] == Filter(a, keep);
  }

  // The queue after an accepted registration: the superseded event is gone, if it was still there.
  lemma QueueAfter(t: Trace, e: Entry)
    requires StoreInv(t) && QueueExact(t) && !t.claimed && e.id !in t.store.metadata
    ensures QueueLeft(t.store, e) == Ids(Filter(Superseded(t.entries, e), (x: Entry) => x !in t.drained))
  {
    var turn := SetDefault(t.store);
    var keep := (x: Entry) => x !in t.drained;
    if Replacing(turn, e).Some? {
      var o :| o in t.entries && o.Tracked() && o.path == e.path;
      var i :| 0 <= i < |t.entries| && t.entries[i] == o;
      assert turn.byPath[e.path] == VersionOf(o);
      SupersededOne(t.entries, e, i);
      FilterDrop(t.entries, i, keep);
      RemoveFirstMember(t.store.queued, o.id);
    } else {
      SupersededNone(t.entries, e);
    }
  }

  lemma QueueKeeps(t: Trace, event: Event)
    requires StoreInv(t) && Agrees(t) && QueueExact(t)
    ensures QueueExact(Next(t, event))
  {
    match event
    case Register(e, writeFails) =>
      if e.id !in t.store.metadata {
        RegisterOutcome(t, e, writeFails);
        if RegisterSpec(t.store, e, writeFails).1.Accepted? && !t.claimed {
          QueueAfter(t, e);
          NewIsUndrained(t, e);
        }
      }
    case DrainEvents =>
      if !t.claimed {
        AllDrained(t);
      }
    case Claim =>
    case BeginTurn =>
  }

  lemma NewIsUndrained(t: Trace, e: Entry)
    requires StoreInv(t) && e.id !in t.store.metadata
    ensures var keep := (x: Entry) => x !in t.drained;
      Ids(Filter(Registered(t.entries, e), keep)) == Ids(Filter(Superseded(t.entries, e), keep)) + [e.id]
  {
    var keep := (x: Entry) => x !in t.drained;
    FilterAppend(Superseded(t.entries, e), [e], keep);
    assert [e][1..] == [] && Filter([e], keep) == [e];
  }

  // Whatever survives is drained once the queue is.
  lemma AllDrained(t: Trace)
    requires StoreInv(t) && QueueExact(t) && !t.claimed
    ensures Undrained(Next(t, DrainEvents)) == []
  {
    var t' := Next(t, DrainEvents);
    forall e | e in t.entries
      ensures e in t'.drained
    {
      if e !in t.drained {
        assert e in Undrained(t);
        var i :| 0 <= i < |Undrained(t)| && Undrained(t)[i] == e;
        assert t.store.queued[i] == e.id;
        QueueHas(t.store.queued, t.store.metadata, i);
      }
    }
    FilterNone(t'.entries, (e: Entry) => e !in t'.drained);
  }

  lemma {:induction false} QueueHas(queue: seq<ArtifactId>, metadata: map<ArtifactId, Entry>, i: nat)
    requires Known(queue, metadata) && i < |queue|
    ensures metadata[queue[i]] in EntriesOf(queue, metadata)
  {
    if i > 0 {
      QueueHas(queue[1..], metadata, i - 1);
    }
  }

  lemma {:induction false} QueuesKeep(t: Trace, events: seq<Event>)
    requires StoreInv(t) && Agrees(t) && QueueExact(t)
    ensures QueueExact(After(t, events))
    decreases |events|
  {
    if events != [] {
      StepKeeps(t, events[0]);
      QueueKeeps(t, events[0]);
      QueuesKeep(Next(t, events[0]), events[1..]);
    }
  }

  /**
   Until the message claims the turn, the queue holds exactly the events of the
   surviving artifacts that were not handed out yet, in order of registration: no
   event of a superseded version is left in it.
   */
  lemma QueueIsExact(events: seq<Event>)
    requires !After(EMPTY, events).claimed
    ensures var t := After(EMPTY, events); t.store.queued == Ids(Filter(t.entries, (e: Entry) => e !in t.drained))
  {
    QueuesKeep(EMPTY, events);
  }

  // A result and a record of the same workspace file.
  const RESULT: Entry := Entry(1, Result, File, 1, "/workspace/outputs/a.csv")
  const RECORD: Entry := Entry(2, Record, File, 1, "/workspace/outputs/a.csv")

  lemma FirstRegistration()
    ensures Next(EMPTY, Register(RESULT, false)) ==
      Trace(Store(Some(Turn([1], [1], 0, 1, 0, map[RESULT.path := Version(1, File, 1)])), [1], map[1 := RESULT]), [RESULT], [], false, true)
  {
    assert AddSpec(NO_TURN, RESULT) == Turn([1], [1], 0, 1, 0, map[RESULT.path := Version(1, File, 1)]) by {
      assert [] + [1 as ArtifactId] == [1];
    }
    assert Registered([], RESULT) == [RESULT];
    assert RegisterSpec(EMPTY.store, RESULT, false).0.queued == [1];
  }

  lemma SecondRegistration(t: Trace)
    requires t.store == Store(Some(Turn([1], [1], 0, 1, 0, map[RESULT.path := Version(1, File, 1)])), [1], map[1 := RESULT])
    requires t.entries == [RESULT] && t.drained == []
    ensures var t' := Next(t, Register(RECORD, false));
      && t'.store.turn.Some? && t'.store.turn.value.ids == [1, 2] && t'.store.queued == [1, 2]
      && t'.store.metadata == map[1 := RESULT, 2 := RECORD] && t'.drained == [] && t'.claimed == t.claimed
  {
    assert [1 as ArtifactId] + [2] == [1, 2];
  }

  lemma AfterTwo(t: Trace, a: Event, b: Event)
    ensures After(t, [a, b]) == Next(Next(t, a), b)
  {
    assert [a, b][1..] == [b] && [b][1..] == [];
    assert After(Next(t, a), [b]) == After(Next(Next(t, a), b), []);
  }

  lemma TwoRegistrations()
    ensures var t := After(EMPTY, [Register(RESULT, false), Register(RECORD, false)]);
      && t.store.turn.Some? && t.store.turn.value.ids == [1, 2] && t.store.queued == [1, 2]
      && t.store.metadata == map[1 := RESULT, 2 := RECORD] && t.drained == [] && !t.claimed
  {
    FirstRegistration();
    SecondRegistration(Next(EMPTY, Register(RESULT, false)));
    AfterTwo(EMPTY, Register(RESULT, false), Register(RECORD, false));
  }

  /** A record with the workspace path of a result would hide that result from the client but not from the message. */
  lemma RecordWithPathBreaksAgreement()
    ensures var t := After(EMPTY, [Register(RESULT, false), Register(RECORD, false)]);
      && !t.claimed && SetDefault(t.store).ids == [1, 2]
      && Known(t.store.queued, t.store.metadata) && Ids(Newest(t.drained + Queue(t))) == [2]
  {
    TwoRegistrations();
    BothQueued();
    RecordHidesResult();
  }

  lemma BothQueued()
    ensures EntriesOf([1, 2], map[1 := RESULT, 2 := RECORD]) == [RESULT, RECORD]
  {
    var metadata := map[1 := RESULT, 2 := RECORD];
    assert [1, 2][1..] == [2] && [2][1..] == [];
    assert EntriesOf([2], metadata) == [RECORD] + EntriesOf([], metadata);
  }

  lemma RecordHidesResult()
    ensures Ids(Newest([] + [RESULT, RECORD])) == [2]
  {
    assert [] + [RESULT, RECORD] == [RESULT] + [RECORD];
    NewestLast([RESULT], RECORD);
    NewestLast([], RESULT);
    assert [] + [RESULT] == [RESULT];
    OffPathLast([], RESULT, RECORD.path);
  }

  // ---- The client ----

  // Event `j` is the last of its workspace file, or has none.
  predicate Latest(items: seq<Entry>, j: nat)
    requires j < |items|
  {
    items[j].path == "" || forall k | j < k < |items| :: items[k].path != items[j].path
  }

  ghost function Selected(items: seq<Entry>, n: nat): seq<Entry>
    requires n <= |items|
  {
    if n == 0 then [] else Selected(items, n - 1) + (if Latest(items, n - 1) then [items[n - 1]] else [])
  }

  lemma {:induction false} SelectedAppend(items: seq<Entry>, e: Entry, n: nat)
    requires n <= |items|
    ensures Selected(items + [e], n) == if e.path == "" then Selected(items, n) else OffPath(Selected(items, n), e.path)
  {
    if n > 0 {
      SelectedAppend(items, e, n - 1);
      var x := items[n - 1];
      assert (items + [e])[n - 1] == x;
      assert Latest(items + [e], n - 1) <==> Latest(items, n - 1) && (x.path == "" || x.path != e.path) by {
        assert (items + [e])[|items|] == e;
        assert forall k | n - 1 < k < |items| :: (items + [e])[k] == items[k];
      }
      if e.path != "" {
        if Latest(items, n - 1) {
          OffPathLast(Selected(items, n - 1), x, e.path);
        } else {
          assert Selected(items, n) == Selected(items, n - 1);
        }
      }
    }
  }

  /** Keeping the last event per path is keeping each event that no later one of its path follows. */
  lemma {:induction false} NewestIsSelected(items: seq<Entry>)
    ensures Newest(items) == Selected(items, |items|)
  {
    if items != [] {
      var n := |items| - 1;
      assert items == items[..n] + [items[n]];
      NewestIsSelected(items[..n]);
      SelectedAppend(items[..n], items[n], n);
      assert Latest(items, n);
    }
  }

  /** `_newest_per_workspace_file`, with its dictionary of last positions. */
  method NewestPerWorkspaceFile(items: seq<Entry>) returns (kept: seq<Entry>)
    ensures kept == Newest(items)
  {
    var last: map<string, nat> := map[];
    for i := 0 to |items|
      invariant forall j | 0 <= j < i :: items[j].path in last && j <= last[items[j].path] < i
      invariant forall p | p in last :: last[p] < i && items[last[p]].path == p
    {
      last := last[items[i].path := i];
    }
    kept := [];
    for i := 0 to |items|
      invariant kept == Selected(items, i)
    {
      assert Latest(items, i) <==> items[i].path == "" || last[items[i].path] == i;
      if items[i].path == "" || last[items[i].path] == i {
        kept := kept + [items[i]];
      }
    }
    NewestIsSelected(items);
  }

  // The artifacts of the final message: the stored ones in their order, then the
  // live ones the message did not bring.
  function Extra(stored: seq<ArtifactId>, live: seq<Entry>): seq<ArtifactId> {
    if live == [] then []
    else if live[0].id in stored then Extra(stored, live[1..])
    else [live[0].id] + Extra(stored, live[1..])
  }

  function Shown(stored: seq<ArtifactId>, pending: seq<Entry>): seq<ArtifactId> {
    stored + Extra(stored, Newest(pending))
  }

  lemma {:induction false} NoExtra(stored: seq<ArtifactId>, live: seq<Entry>)
    ensures Extra(stored, live) == [] <==> forall e | e in live :: e.id in stored
  {
    if live != [] {
      NoExtra(stored, live[1..]);
    }
  }

  // Whether no event of `later` is a new version of a file of `earlier`.
  ghost predicate NoneRewritten(earlier: seq<Entry>, later: seq<Entry>) {
    forall a, b | a in earlier && b in later :: a.path == "" || a.path != b.path
  }

  lemma {:induction false} NewestMembers(events: seq<Entry>)
    ensures forall e | e in Newest(events) :: e in events
    ensures forall e | e in events && e.path != "" :: exists x | x in Newest(events) :: x.path == e.path
  {
    if events != [] {
      var n := |events| - 1;
      var front, last := events[..n], events[n];
      assert events == front + [last];
      NewestMembers(front);
      OffPathMembers(Newest(front), last.path);
      assert last in Newest(events);
      forall e | e in events && e.path != ""
        ensures exists x | x in Newest(events) :: x.path == e.path
      {
        if e.path != last.path {
          var x :| x in Newest(front) && x.path == e.path;
          assert x in Newest(events);
        }
      }
    }
  }

  lemma SurvivesOne(events: seq<Entry>, last: Entry, e: Entry)
    requires e != last
    ensures e in Newest(events + [last]) <==> e in Newest(events) && (e.path == "" || last.path != e.path)
  {
    NewestLast(events, last);
    OffPathMembers(Newest(events), last.path);
  }

  // An event of the earlier part survives the later part unless its file was rewritten.
  lemma {:induction false} NewestSurvives(earlier: seq<Entry>, later: seq<Entry>, e: Entry)
    requires e in Newest(earlier) && e !in later
    ensures e in Newest(earlier + later) <==> forall b | b in later :: e.path == "" || b.path != e.path
  {
    if later == [] {
      assert earlier + later == earlier;
    } else {
      var n := |later| - 1;
      assert later == later[..n] + [later[n]] && later[n] in later;
      NewestSurvives(earlier, later[..n], e);
      assert earlier + later == (earlier + later[..n]) + [later[n]];
      SurvivesOne(earlier + later[..n], later[n], e);
    }
  }

  lemma ClaimedIsSurviving(t: Trace, e: Entry)
    requires StoreInv(t) && e.id in t.store.metadata && t.store.metadata[e.id] == e
    ensures e.id in SetDefault(t.store).ids <==> e in t.entries
  {
    var ids := SetDefault(t.store).ids;
    if e.id in ids {
      var i :| 0 <= i < |ids| && ids[i] == e.id;
      assert t.entries[i].id == e.id && t.entries[i] in t.entries;
    }
    if e in t.entries {
      var i :| 0 <= i < |t.entries| && t.entries[i] == e;
      assert ids[i] == e.id;
    }
  }

  // A drained event is claimed unless a queued event is a newer version of its file.
  lemma LiveIsClaimed(t: Trace, e: Entry)
    requires StoreInv(t) && Agrees(t) && !t.claimed && t.pathless && e in Newest(t.drained)
    ensures e.id in SetDefault(t.store).ids <==> forall b | b in Queue(t) :: e.path == "" || b.path != e.path
  {
    NewestMembers(t.drained);
    EntriesOfMembers(t.store.queued, t.store.metadata);
    ClaimedIsSurviving(t, e);
    NewestSurvives(t.drained, Queue(t), e);
  }

  lemma {:induction false} NewestOfSuffix(a: seq<Entry>, b: seq<Entry>)
    ensures forall e | e in Newest(b) :: e in Newest(a + b)
  {
    if b != [] {
      var n := |b| - 1;
      NewestOfSuffix(a, b[..n]);
      assert b == b[..n] + [b[n]] && a + b == (a + b[..n]) + [b[n]];
      NewestLast(b[..n], b[n]);
      NewestLast(a + b[..n], b[n]);
      OffPathMembers(Newest(b[..n]), b[n].path);
      OffPathMembers(Newest(a + b[..n]), b[n].path);
    }
  }

  lemma LiveSuffixIsClaimed(t: Trace, cleared: nat, e: Entry)
    requires StoreInv(t) && Agrees(t) && !t.claimed && t.pathless && cleared <= |t.drained| && e in Newest(t.drained[cleared..])
    ensures e.id in SetDefault(t.store).ids <==> forall b | b in Queue(t) :: e.path == "" || b.path != e.path
  {
    NewestOfSuffix(t.drained[..cleared], t.drained[cleared..]);
    assert t.drained == t.drained[..cleared] + t.drained[cleared..];
    LiveIsClaimed(t, e);
  }

  lemma UnionOf(t: Trace, cleared: nat)
    requires StoreInv(t) && Agrees(t) && !t.claimed && t.pathless && cleared <= |t.drained|
    ensures var claimed := SetDefault(t.store).ids; var live := t.drained[cleared..];
      Shown(claimed, live) == claimed <==> NoneRewritten(Newest(live), Queue(t))
  {
    var claimed := SetDefault(t.store).ids;
    var live := t.drained[cleared..];
    NoExtra(claimed, Newest(live));
    assert Shown(claimed, live) == claimed <==> Extra(claimed, Newest(live)) == [];
    forall e | e in Newest(live)
      ensures e.id in claimed <==> forall b | b in Queue(t) :: e.path == "" || b.path != e.path
    {
      LiveSuffixIsClaimed(t, cleared, e);
    }
  }

  /**
   The client starts a new list of live artifacts at every AI message. At an AI
   message that claims the turn it shows exactly what the message claims, each
   file once in its latest version, if and only if no event still queued is a new
   version of a file in the list, wherever in the turn that list began.
   */
  lemma UnionShowsEachFileOnce(events: seq<Event>, cleared: nat)
    requires var t := After(EMPTY, events); !t.claimed && t.pathless && cleared <= |t.drained|
    ensures var t := After(EMPTY, events); var claimed := SetDefault(t.store).ids; var live := t.drained[cleared..];
      Known(t.store.queued, t.store.metadata) &&
      (Shown(claimed, live) == claimed <==> NoneRewritten(Newest(live), Queue(t)))
  {
    RunsKeep(EMPTY, events);
    UnionOf(After(EMPTY, events), cleared);
  }

  // A second version of the file of `RESULT`.
  const REWRITE: Entry := Entry(3, Result, File, 1, "/workspace/outputs/a.csv")

  lemma RewriteRegistered(t: Trace)
    requires t.store == Store(Some(Turn([1], [1], 0, 1, 0, map[RESULT.path := Version(1, File, 1)])), [], map[1 := RESULT])
    requires t.entries == [RESULT] && t.drained == [RESULT] && !t.claimed
    ensures var t' := Next(t, Register(REWRITE, false));
      t'.store.turn.Some? && t'.store.turn.value.ids == [3] && t'.store.queued == [3] && t'.drained == [RESULT] && !t'.claimed
  {
    var turn := t.store.turn.value;
    assert Replacing(turn, REWRITE) == Some(Version(1, File, 1));
    assert RemoveFirst([1], 1) == Some([1 as ArtifactId][1..]) && [1 as ArtifactId][1..] == [];
    assert [] + [3 as ArtifactId] == [3];
  }

  /**
   A file is registered and streamed, then registered again, and the message
   comes before the second event: the client shows both versions.
   */
  lemma QueuedRewriteShowsTwoVersions()
    ensures var t := After(EMPTY, [Register(RESULT, false), DrainEvents, Register(REWRITE, false)]);
      !t.claimed && SetDefault(t.store).ids == [3] && t.drained == [RESULT] && Shown([3], t.drained) == [3, 1]
  {
    FirstRegistration();
    var t1 := Next(EMPTY, Register(RESULT, false));
    FirstDrained(t1);
    RewriteRegistered(Next(t1, DrainEvents));
    AfterThree(EMPTY, Register(RESULT, false), DrainEvents, Register(REWRITE, false));
    BothShown();
  }

  lemma FirstDrained(t: Trace)
    requires t.store.queued == [1] && t.store.metadata == map[1 := RESULT] && t.drained == []
    ensures Next(t, DrainEvents) == t.(store := t.store.(queued := []), drained := [RESULT])
  {
    var metadata := t.store.metadata;
    assert [1 as ArtifactId][1..] == [] && EntriesOf([1], metadata) == [RESULT] + EntriesOf([], metadata);
    assert [] + [RESULT] == [RESULT];
  }

  lemma BothShown()
    ensures Shown([3], [RESULT]) == [3, 1]
  {
    NewestLast([], RESULT);
    assert [] + [RESULT] == [RESULT] && [RESULT][1..] == [];
    assert Newest([RESULT]) == [RESULT];
    assert Extra([3], [RESULT]) == [1] + Extra([3], []);
  }

  lemma AfterThree(t: Trace, a: Event, b: Event, c: Event)
    ensures After(t, [a, b, c]) == Next(Next(Next(t, a), b), c)
  {
    assert [a, b, c][1..] == [b, c];
    AfterTwo(Next(t, a), b, c);
  }
}
