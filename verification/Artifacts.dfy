/**
 Artifacts of one turn of one conversation: the incremental accounting of
 `_PendingTurn`, the store's two queues, and the filter and union by which the
 client decides which versions to show.
 */
module Artifacts {
  import opened Wrappers

  type ArtifactId = int

  datatype Category = Result | Record
  datatype Kind = Image | File

  // One registered artifact; an empty path is the source's absent one.
  datatype Entry = Entry(id: ArtifactId, category: Category, kind: Kind, size: nat, path: string)
  {
    predicate Tracked() { category.Result? && path != "" }
  }

  datatype Version = Version(id: ArtifactId, kind: Kind, size: nat)

  datatype AdmitError = TooManyRecords | TooManyImages | OverBudget | WriteFailed

  const MAX_IMAGES := 8
  const MAX_BYTES := 64 * 1024 * 1024
  const MAX_RECORDS := 40

  // ---- The plain recomputation over the surviving entries ----

  function Ids(entries: seq<Entry>): seq<ArtifactId> {
    seq(|entries|, i requires 0 <= i < |entries| => entries[i].id)
  }

  function ResultIds(entries: seq<Entry>): seq<ArtifactId> {
    if entries == [] then []
    else if entries[|entries| - 1].category.Result? then ResultIds(entries[..|entries| - 1]) + [entries[|entries| - 1].id]
    else ResultIds(entries[..|entries| - 1])
  }

  function ImageOf(e: Entry): int {
    if e.category.Result? && e.kind.Image? then 1 else 0
  }

  function BytesOf(e: Entry): int {
    if e.category.Result? then e.size else 0
  }

  function RecordOf(e: Entry): int {
    if e.category.Record? then 1 else 0
  }

  function Images(entries: seq<Entry>): int {
    if entries == [] then 0 else Images(entries[..|entries| - 1]) + ImageOf(entries[|entries| - 1])
  }

  function Bytes(entries: seq<Entry>): int {
    if entries == [] then 0 else Bytes(entries[..|entries| - 1]) + BytesOf(entries[|entries| - 1])
  }

  function Records(entries: seq<Entry>): int {
    if entries == [] then 0 else Records(entries[..|entries| - 1]) + RecordOf(entries[|entries| - 1])
  }

  function Drop(entries: seq<Entry>, i: nat): seq<Entry>
    requires i < |entries|
  {
    entries[..i] + entries[i + 1..]
  }

  lemma AppendTotals(entries: seq<Entry>, e: Entry)
    ensures Ids(entries + [e]) == Ids(entries) + [e.id]
    ensures ResultIds(entries + [e]) == ResultIds(entries) + (if e.category.Result? then [e.id] else [])
    ensures Images(entries + [e]) == Images(entries) + ImageOf(e)
    ensures Bytes(entries + [e]) == Bytes(entries) + BytesOf(e)
    ensures Records(entries + [e]) == Records(entries) + RecordOf(e)
  {
    assert (entries + [e])[..|entries|] == entries;
  }

  lemma {:induction false} DropTotals(entries: seq<Entry>, i: nat)
    requires i < |entries|
    ensures Images(Drop(entries, i)) == Images(entries) - ImageOf(entries[i])
    ensures Bytes(Drop(entries, i)) == Bytes(entries) - BytesOf(entries[i])
    ensures Records(Drop(entries, i)) == Records(entries) - RecordOf(entries[i])
  {
    var n := |entries| - 1;
    if i == n {
      assert Drop(entries, i) == entries[..n];
    } else {
      DropTotals(entries[..n], i);
      assert Drop(entries, i) == Drop(entries[..n], i) + [entries[n]];
      AppendTotals(Drop(entries[..n], i), entries[n]);
    }
  }

  lemma {:induction false} Totals(entries: seq<Entry>)
    ensures Images(entries) >= 0 && Bytes(entries) >= 0 && Records(entries) >= 0
    ensures forall e | e in entries :: ImageOf(e) <= Images(entries) && BytesOf(e) <= Bytes(entries)
    ensures forall id | id in ResultIds(entries) :: id in Ids(entries)
  {
    if entries != [] {
      var n := |entries| - 1;
      Totals(entries[..n]);
      AppendTotals(entries[..n], entries[n]);
      assert entries == entries[..n] + [entries[n]];
    }
  }

  // `list.remove(x)`: the first occurrence goes; an absent element raises.
  function RemoveFirst(s: seq<ArtifactId>, x: ArtifactId): Option<seq<ArtifactId>> {
    if s == [] then None
    else if s[0] == x then Some(s[1..])
    else
      var rest := RemoveFirst(s[1..], x);
      if rest.None? then None else Some([s[0]] + rest.value)
  }

  ghost predicate Distinct(entries: seq<Entry>) {
    forall i, j | 0 <= i < j < |entries| :: entries[i].id != entries[j].id
  }

  lemma {:induction false} RemoveFirstAt(s: seq<ArtifactId>, i: nat)
    requires i < |s| && forall j | 0 <= j < i :: s[j] != s[i]
    ensures RemoveFirst(s, s[i]) == Some(s[..i] + s[i + 1..])
  {
    if i == 0 {
      assert s[..i] + s[i + 1..] == s[1..];
    } else {
      RemoveFirstAt(s[1..], i - 1);
      assert [s[0]] + (s[1..][..i - 1] + s[1..][i..]) == s[..i] + s[i + 1..];
    }
  }

  lemma RemoveId(entries: seq<Entry>, i: nat)
    requires Distinct(entries) && i < |entries|
    ensures RemoveFirst(Ids(entries), entries[i].id) == Some(Ids(Drop(entries, i)))
  {
    RemoveFirstAt(Ids(entries), i);
    assert Ids(entries)[..i] + Ids(entries)[i + 1..] == Ids(Drop(entries, i));
  }

  lemma {:induction false} RemoveFirstAppend(s: seq<ArtifactId>, y: ArtifactId, x: ArtifactId)
    ensures RemoveFirst(s + [y], x) ==
      if RemoveFirst(s, x).Some? then Some(RemoveFirst(s, x).value + [y]) else if x == y then Some(s) else None
  {
    if s == [] {
      assert s + [y] == [y] && RemoveFirst([y][1..], x) == None;
      assert [y][1..] == s;
    } else {
      assert (s + [y])[0] == s[0] && (s + [y])[1..] == s[1..] + [y];
      RemoveFirstAppend(s[1..], y, x);
      assert [s[0]] + s[1..] == s;
      var rest := RemoveFirst(s[1..], x);
      if rest.Some? {
        assert [s[0]] + (rest.value + [y]) == ([s[0]] + rest.value) + [y];
      }
    }
  }

  lemma {:induction false} RemoveResultId(entries: seq<Entry>, i: nat)
    requires Distinct(entries) && i < |entries| && entries[i].category.Result?
    ensures RemoveFirst(ResultIds(entries), entries[i].id) == Some(ResultIds(Drop(entries, i)))
  {
    var n := |entries| - 1;
    var front, last := entries[..n], entries[n];
    assert entries == front + [last];
    if last.category.Result? {
      RemoveFirstAppend(ResultIds(front), last.id, entries[i].id);
    }
    if i == n {
      assert Drop(entries, i) == front;
      NotAResult(front, last.id);
    } else {
      RemoveResultId(front, i);
      assert Drop(entries, i) == Drop(front, i) + [last];
      AppendTotals(Drop(front, i), last);
    }
  }

  lemma {:induction false} NotAResult(entries: seq<Entry>, id: ArtifactId)
    requires forall e | e in entries :: e.id != id
    ensures RemoveFirst(ResultIds(entries), id) == None
  {
    if entries != [] {
      var n := |entries| - 1;
      NotAResult(entries[..n], id);
      RemoveFirstAppend(ResultIds(entries[..n]), entries[n].id, id);
    }
  }

  // ---- The accounting of one turn ----

  // The fields of `_PendingTurn`.
  datatype Turn = Turn(
    ids: seq<ArtifactId>,
    resultIds: seq<ArtifactId>,
    images: int,
    resultBytes: int,
    records: int,
    byPath: map<string, Version>)

  const NO_TURN: Turn := Turn([], [], 0, 0, 0, map[])

  function VersionOf(e: Entry): Version {
    Version(e.id, e.kind, e.size)
  }

  function Replacing(t: Turn, e: Entry): Option<Version> {
    if e.Tracked() && e.path in t.byPath then Some(t.byPath[e.path]) else None
  }

  function AdmitSpec(t: Turn, category: Category, kind: Kind, size: nat, replacing: Option<Version>): Option<AdmitError> {
    if category.Record? then if t.records >= MAX_RECORDS then Some(TooManyRecords) else None
    else
      var images := t.images - (if replacing.Some? && replacing.value.kind.Image? then 1 else 0);
      var bytes := t.resultBytes - (if replacing.Some? then replacing.value.size else 0);
      if kind.Image? && images >= MAX_IMAGES then Some(TooManyImages)
      else if bytes + size > MAX_BYTES then Some(OverBudget)
      else None
  }

  function AddSpec(t: Turn, e: Entry): Turn {
    if e.category.Record? then t.(ids := t.ids + [e.id], records := t.records + 1)
    else t.(
      ids := t.ids + [e.id],
      resultIds := t.resultIds + [e.id],
      resultBytes := t.resultBytes + e.size,
      images := t.images + (if e.kind.Image? then 1 else 0),
      byPath := if e.path != "" then t.byPath[e.path := VersionOf(e)] else t.byPath)
  }

  // `None` when `list.remove` raises.
  function WithdrawSpec(t: Turn, version: Version): Option<Turn> {
    var ids, resultIds := RemoveFirst(t.ids, version.id), RemoveFirst(t.resultIds, version.id);
    if ids.None? || resultIds.None? then None
    else Some(t.(
      ids := ids.value,
      resultIds := resultIds.value,
      resultBytes := t.resultBytes - version.size,
      images := t.images - (if version.kind.Image? then 1 else 0)))
  }

  class PendingTurn {
    var ids: seq<ArtifactId>
    var resultIds: seq<ArtifactId>
    var images: int
    var resultBytes: int
    var records: int
    var byPath: map<string, Version>

    function Value(): Turn
      reads this
    {
      Turn(ids, resultIds, images, resultBytes, records, byPath)
    }

    constructor ()
      ensures Value() == NO_TURN
    {
      ids, resultIds, images, resultBytes, records, byPath := [], [], 0, 0, 0, map[];
    }

    method Admit(category: Category, kind: Kind, size: nat, replacing: Option<Version>) returns (refused: Option<AdmitError>)
      ensures refused == AdmitSpec(Value(), category, kind, size, replacing)
    {
      if category.Record? {
        if records >= MAX_RECORDS {
          return Some(TooManyRecords);
        }
        return None;
      }
      var images', bytes' := images, resultBytes;
      if replacing.Some? {
        bytes' := bytes' - replacing.value.size;
        if replacing.value.kind.Image? {
          images' := images' - 1;
        }
      }
      if kind.Image? && images' >= MAX_IMAGES {
        return Some(TooManyImages);
      }
      if bytes' + size > MAX_BYTES {
        return Some(OverBudget);
      }
      return None;
    }

    method Add(e: Entry)
      modifies this
      ensures Value() == AddSpec(old(Value()), e)
    {
      ids := ids + [e.id];
      if e.category.Record? {
        records := records + 1;
        return;
      }
      resultIds := resultIds + [e.id];
      resultBytes := resultBytes + e.size;
      if e.kind.Image? {
        images := images + 1;
      }
      if e.path != "" {
        byPath := byPath[e.path := Version(e.id, e.kind, e.size)];
      }
    }

    method Withdraw(version: Version) returns (found: bool)
      modifies this
      ensures found == WithdrawSpec(old(Value()), version).Some?
      ensures found ==> Value() == WithdrawSpec(old(Value()), version).value
    {
      var left := RemoveFirst(ids, version.id);
      if left.None? {
        return false;
      }
      var leftResults := RemoveFirst(resultIds, version.id);
      ids := left.value;
      if leftResults.None? {
        return false;
      }
      resultIds := leftResults.value;
      resultBytes := resultBytes - version.size;
      if version.kind.Image? {
        images := images - 1;
      }
      return true;
    }
  }

  // ---- Limits of one turn ----

  ghost predicate WithinLimits(entries: seq<Entry>) {
    Images(entries) <= MAX_IMAGES && Bytes(entries) <= MAX_BYTES && Records(entries) <= MAX_RECORDS
  }

  // At most one surviving result per workspace file.
  ghost predicate OnePerFile(entries: seq<Entry>) {
    forall i, j | 0 <= i < j < |entries| && entries[i].Tracked() && entries[j].Tracked() :: entries[i].path != entries[j].path
  }

  // `byPath` points at exactly the tracked survivors.
  ghost predicate Indexed(entries: seq<Entry>, byPath: map<string, Version>) {
    && OnePerFile(entries)
    && (forall e | e in entries && e.Tracked() :: e.path in byPath && byPath[e.path] == VersionOf(e))
    && (forall path | path in byPath :: exists e | e in entries :: e.Tracked() && e.path == path)
  }

  // ---- The survivors after one registration ----

  // Everything but the result that `e` supersedes.
  function Superseded(entries: seq<Entry>, e: Entry): seq<Entry> {
    if entries == [] then []
    else
      var n := |entries| - 1;
      if e.Tracked() && entries[n].Tracked() && entries[n].path == e.path then Superseded(entries[..n], e)
      else Superseded(entries[..n], e) + [entries[n]]
  }

  function Registered(entries: seq<Entry>, e: Entry): seq<Entry> {
    Superseded(entries, e) + [e]
  }

  lemma {:induction false} SupersededNone(entries: seq<Entry>, e: Entry)
    requires forall o | o in entries && o.Tracked() && e.Tracked() :: o.path != e.path
    ensures Superseded(entries, e) == entries
  {
    if entries != [] {
      SupersededNone(entries[..|entries| - 1], e);
    }
  }

  lemma {:induction false} SupersededOne(entries: seq<Entry>, e: Entry, i: nat)
    requires OnePerFile(entries) && i < |entries| && e.Tracked() && entries[i].Tracked() && entries[i].path == e.path
    ensures Superseded(entries, e) == Drop(entries, i)
  {
    var n := |entries| - 1;
    if i == n {
      SupersededNone(entries[..n], e);
      assert Drop(entries, i) == entries[..n];
    } else {
      SupersededOne(entries[..n], e, i);
      assert Drop(entries, i) == Drop(entries[..n], i) + [entries[n]];
    }
  }

  // The totals after a registration, from those before it and the superseded version.
  lemma {:induction false} RegisteredTotals(entries: seq<Entry>, e: Entry)
    requires OnePerFile(entries)
    ensures Records(Registered(entries, e)) == Records(entries) + RecordOf(e)
    ensures (exists o | o in entries :: o.Tracked() && e.Tracked() && o.path == e.path) ||
      (Images(Registered(entries, e)) == Images(entries) + ImageOf(e) && Bytes(Registered(entries, e)) == Bytes(entries) + BytesOf(e))
    ensures forall o | o in entries && o.Tracked() && e.Tracked() && o.path == e.path ::
      && Images(Registered(entries, e)) == Images(entries) - ImageOf(o) + ImageOf(e)
      && Bytes(Registered(entries, e)) == Bytes(entries) - BytesOf(o) + BytesOf(e)
  {
    AppendTotals(Superseded(entries, e), e);
    if i: nat :| i < |entries| && entries[i].Tracked() && e.Tracked() && entries[i].path == e.path {
      SupersededOne(entries, e, i);
      DropTotals(entries, i);
    } else {
      SupersededNone(entries, e);
    }
  }

  lemma {:induction false} SupersededMembers(entries: seq<Entry>, e: Entry)
    ensures forall o :: o in Superseded(entries, e) <==> o in entries && !(o.Tracked() && e.Tracked() && o.path == e.path)
  {
    if entries != [] {
      SupersededMembers(entries[..|entries| - 1], e);
      assert entries == entries[..|entries| - 1] + [entries[|entries| - 1]];
    }
  }

  lemma SupersededKeeps(entries: seq<Entry>, e: Entry)
    requires Distinct(entries) && OnePerFile(entries)
    ensures Distinct(Superseded(entries, e)) && OnePerFile(Superseded(entries, e))
  {
    if i: nat :| i < |entries| && entries[i].Tracked() && e.Tracked() && entries[i].path == e.path {
      SupersededOne(entries, e, i);
    } else {
      SupersededNone(entries, e);
    }
  }

  // A registration keeps identifiers distinct and the index exact.
  lemma RegisteredKeeps(entries: seq<Entry>, e: Entry, byPath: map<string, Version>)
    requires Distinct(entries) && Indexed(entries, byPath) && forall o | o in entries :: o.id != e.id
    ensures Distinct(Registered(entries, e))
    ensures Indexed(Registered(entries, e), if e.Tracked() then byPath[e.path := VersionOf(e)] else byPath)
  {
    var left, all := Superseded(entries, e), Registered(entries, e);
    SupersededMembers(entries, e);
    SupersededKeeps(entries, e);
    assert forall i | 0 <= i < |left| :: left[i] in left;
    assert all[|left|] == e;
    IndexKept(entries, e, byPath);
  }

  // Every path of the index still has its survivor, or the new entry.
  lemma IndexKept(entries: seq<Entry>, e: Entry, byPath: map<string, Version>)
    requires Indexed(entries, byPath)
    ensures var index := if e.Tracked() then byPath[e.path := VersionOf(e)] else byPath;
      forall path | path in index :: exists o | o in Registered(entries, e) :: o.Tracked() && o.path == path
  {
    var left, all := Superseded(entries, e), Registered(entries, e);
    var index := if e.Tracked() then byPath[e.path := VersionOf(e)] else byPath;
    SupersededMembers(entries, e);
    forall path | path in index
      ensures exists o | o in all :: o.Tracked() && o.path == path
    {
      if e.Tracked() && path == e.path {
        assert e in all;
      } else {
        var o :| o in entries && o.Tracked() && o.path == path;
        assert o in left && o in all;
      }
    }
  }

  // ---- The client's filter ----

  function OffPath(events: seq<Entry>, path: string): seq<Entry> {
    if events == [] then []
    else if events[0].path == path then OffPath(events[1..], path)
    else [events[0]] + OffPath(events[1..], path)
  }

  // The last event of each workspace file, and every event without one, in order.
  function Newest(events: seq<Entry>): seq<Entry> {
    if events == [] then []
    else
      var last := events[|events| - 1];
      var earlier := Newest(events[..|events| - 1]);
      (if last.path == "" then earlier else OffPath(earlier, last.path)) + [last]
  }

  lemma {:induction false} OffPathAppend(a: seq<Entry>, b: seq<Entry>, path: string)
    ensures OffPath(a + b, path) == OffPath(a, path) + OffPath(b, path)
  {
    if a == [] {
      assert a + b == b;
    } else {
      assert (a + b)[0] == a[0] && (a + b)[1..] == a[1..] + b;
      OffPathAppend(a[1..], b, path);
    }
  }

  lemma {:induction false} OffPathSwap(events: seq<Entry>, p: string, q: string)
    ensures OffPath(OffPath(events, p), q) == OffPath(OffPath(events, q), p)
  {
    if events != [] {
      OffPathSwap(events[1..], p, q);
    }
  }

  lemma {:induction false} OffPathTwice(events: seq<Entry>, p: string)
    ensures OffPath(OffPath(events, p), p) == OffPath(events, p)
  {
    if events != [] {
      OffPathTwice(events[1..], p);
    }
  }

  lemma {:induction false} OffPathMembers(events: seq<Entry>, path: string)
    ensures forall e :: e in OffPath(events, path) <==> e in events && e.path != path
  {
    if events != [] {
      OffPathMembers(events[1..], path);
    }
  }

  lemma OffPathLast(events: seq<Entry>, e: Entry, path: string)
    ensures OffPath(events + [e], path) == if e.path == path then OffPath(events, path) else OffPath(events, path) + [e]
  {
    OffPathAppend(events, [e], path);
    assert OffPath([e][1..], path) == [];
  }

  /** Forgetting one file before or after filtering gives the same. */
  lemma {:induction false} NewestOffPath(events: seq<Entry>, path: string)
    requires path != ""
    ensures Newest(OffPath(events, path)) == OffPath(Newest(events), path)
  {
    if events != [] {
      var n := |events| - 1;
      var front, last := events[..n], events[n];
      assert events == front + [last];
      NewestOffPath(front, path);
      OffPathLast(front, last, path);
      var earlier := Newest(front);
      var kept := if last.path == "" then earlier else OffPath(earlier, last.path);
      OffPathLast(kept, last, path);
      OffPathTwice(earlier, path);
      OffPathSwap(earlier, last.path, path);
      if last.path != path {
        NewestLast(OffPath(front, path), last);
      }
    }
  }

  lemma NewestLast(events: seq<Entry>, e: Entry)
    ensures Newest(events + [e]) == (if e.path == "" then Newest(events) else OffPath(Newest(events), e.path)) + [e]
  {
    assert (events + [e])[..|events|] == events;
  }

  // Records carry no workspace path.
  ghost predicate PathlessRecords(events: seq<Entry>) {
    forall e | e in events && e.category.Record? :: e.path == ""
  }

  lemma {:induction false} SupersededIsOffPath(entries: seq<Entry>, e: Entry)
    requires PathlessRecords(entries) && e.Tracked()
    ensures Superseded(entries, e) == OffPath(entries, e.path)
  {
    if entries != [] {
      var n := |entries| - 1;
      assert entries == entries[..n] + [entries[n]];
      assert entries[n] in entries;
      SupersededIsOffPath(entries[..n], e);
      OffPathLast(entries[..n], entries[n], e.path);
    }
  }

  /**
   One registration keeps the agreement: whether or not the event of the
   superseded version was still queued and withdrawn, the newest events are
   again the survivors.
   */
  lemma RegistrationAgrees(events: seq<Entry>, withdrawn: seq<Entry>, entries: seq<Entry>, e: Entry)
    requires Newest(events) == entries && PathlessRecords(entries) && (e.category.Record? ==> e.path == "")
    requires if e.Tracked() then OffPath(withdrawn, e.path) == OffPath(events, e.path) else withdrawn == events
    ensures Newest(withdrawn + [e]) == Registered(entries, e)
  {
    NewestLast(withdrawn, e);
    if e.Tracked() {
      NewestOffPath(events, e.path);
      NewestOffPath(withdrawn, e.path);
      SupersededIsOffPath(entries, e);
    } else {
      SupersededNone(entries, e);
    }
  }

  lemma NextAgrees(drained: seq<Entry>, events: seq<Entry>, withdrawn: seq<Entry>, entries: seq<Entry>, e: Entry)
    requires Newest(drained + events) == entries && PathlessRecords(entries) && (e.category.Record? ==> e.path == "")
    requires if e.Tracked() then OffPath(withdrawn, e.path) == OffPath(events, e.path) else withdrawn == events
    ensures Newest(drained + withdrawn + [e]) == Registered(entries, e)
    ensures PathlessRecords(Registered(entries, e))
  {
    OffPathAppend(drained, withdrawn, e.path);
    OffPathAppend(drained, events, e.path);
    RegistrationAgrees(drained + events, drained + withdrawn, entries, e);
    SupersededMembers(entries, e);
  }

  // ---- The store, for one conversation ----

  predicate Known(queue: seq<ArtifactId>, metadata: map<ArtifactId, Entry>) {
    forall i | 0 <= i < |queue| :: queue[i] in metadata
  }

  function EntriesOf(queue: seq<ArtifactId>, metadata: map<ArtifactId, Entry>): seq<Entry>
    requires Known(queue, metadata)
  {
    if queue == [] then [] else [metadata[queue[0]]] + EntriesOf(queue[1..], metadata)
  }

  lemma {:induction false} EntriesOfAppend(queue: seq<ArtifactId>, metadata: map<ArtifactId, Entry>, e: Entry)
    requires Known(queue, metadata) && e.id !in metadata
    ensures Known(queue + [e.id], metadata[e.id := e])
    ensures EntriesOf(queue + [e.id], metadata[e.id := e]) == EntriesOf(queue, metadata) + [e]
  {
    if queue == [] {
      assert queue + [e.id] == [e.id] && [e.id][1..] == [];
      assert EntriesOf([e.id], metadata[e.id := e]) == [e] + EntriesOf([], metadata[e.id := e]);
    } else {
      assert (queue + [e.id])[0] == queue[0] && (queue + [e.id])[1..] == queue[1..] + [e.id];
      EntriesOfAppend(queue[1..], metadata, e);
    }
  }

  // Withdrawing a queued event loses no event of any other file.
  lemma {:induction false} WithdrawnEvent(queue: seq<ArtifactId>, metadata: map<ArtifactId, Entry>, id: ArtifactId)
    requires Known(queue, metadata) && id in queue && id in metadata
    ensures RemoveFirst(queue, id).Some? && Known(RemoveFirst(queue, id).value, metadata)
    ensures OffPath(EntriesOf(RemoveFirst(queue, id).value, metadata), metadata[id].path) ==
      OffPath(EntriesOf(queue, metadata), metadata[id].path)
  {
    if queue[0] != id {
      WithdrawnEvent(queue[1..], metadata, id);
      var left := RemoveFirst(queue, id).value;
      assert left[0] == queue[0] && left[1..] == RemoveFirst(queue[1..], id).value;
    }
  }
}
