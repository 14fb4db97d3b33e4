/**
 A batch of uploads that fails, seen from its caller: which upload failed, what
 the roll-back leaves when an unlink raises, and when the cached total is then
 wrong, and by how much.
 */
module Batches {
  import opened Wrappers
  import opened Workspace
  import opened Uploads

  // From upload `i` on, the first whose `put` fails, if any, and the disk before that `put`.
  ghost function FailsFrom(limit: int, hash: Bytes -> Digest, d: Disk, uploads: seq<Upload>, faults: seq<Option<Stage>>, i: nat): (failure: (nat, Disk))
    requires |faults| == |uploads| && i <= |uploads|
    ensures i <= failure.0 <= |uploads|
    decreases |uploads| - i
  {
    if i == |uploads| then (i, d)
    else
      var path := Find(d, uploads[i].name, "_", None).value;
      var (after, put) := PutSpec(limit, hash, d, path, uploads[i].content, None, true, faults[i]);
      if put.Err? then (i, d) else FailsFrom(limit, hash, after, uploads, faults, i + 1)
  }

  ghost function FailsAt(limit: int, hash: Bytes -> Digest, d: Disk, uploads: seq<Upload>, faults: seq<Option<Stage>>): (failure: (nat, Disk))
    requires |faults| == |uploads|
    ensures failure.0 <= |uploads|
  {
    FailsFrom(limit, hash, d, uploads, faults, 0)
  }

  // The bytes of the first `n` uploads.
  function Sizes(uploads: seq<Upload>, n: nat): nat
    requires n <= |uploads|
  {
    if n == 0 then 0 else Sizes(uploads, n - 1) + |uploads[n - 1].content|
  }

  // The failing `put` of `upload` left a cached total: it was refused by the
  // quota, with a total known before it, or it raised only in its last operation.
  ghost predicate LeavesTotal(limit: int, hash: Bytes -> Digest, d: Disk, upload: Upload, fault: Option<Stage>) {
    var path := Find(d, upload.name, "_", None).value;
    if OverLimit(limit, d, upload) then d.usage.Some?
    else WroteAndRaised(limit, hash, d, upload, fault)
  }

  // The upload was written and its total recorded before the last operation raised.
  ghost predicate WroteAndRaised(limit: int, hash: Bytes -> Digest, d: Disk, upload: Upload, fault: Option<Stage>) {
    fault == Some(Touch) && Takes(limit, hash, d, Find(d, upload.name, "_", None).value, upload.content, None, true, fault)
  }

  ghost predicate OverLimit(limit: int, d: Disk, upload: Upload) {
    NewSize(d, Find(d, upload.name, "_", None).value, upload.content) > limit
  }

  // An unlink of the roll-back raises: the batch fails at an upload at or after it.
  ghost predicate Interrupted(limit: int, hash: Bytes -> Digest, d: Disk, uploads: seq<Upload>, faults: seq<Option<Stage>>, stops: Option<nat>)
    requires |faults| == |uploads|
  {
    var f := FailsAt(limit, hash, d, uploads, faults).0;
    f < |uploads| && stops.Some? && stops.value <= f
  }

  lemma FailedTotal(limit: int, hash: Bytes -> Digest, d: Disk, upload: Upload, fault: Option<Stage>)
    ensures var path := Find(d, upload.name, "_", None).value;
      var (after, put) := PutSpec(limit, hash, d, path, upload.content, None, true, fault);
      put.Err? ==> (after.usage.Some? <==> LeavesTotal(limit, hash, d, upload, fault))
  {
    var path := Find(d, upload.name, "_", None).value;
    assert !Exists(d, path) && path !in Ancestors(path);
    if fault.Some? {
      match fault.value {
      case MakeDir => case OpenTemporary => case WriteTemporary => case Replace => case RecordUsage => case Touch =>
      }
    }
  }

  lemma {:induction false} WithoutSizes(files: Files, created: seq<Path>, uploads: seq<Upload>, n: nat)
    requires n <= |created| <= |uploads| && forall i, j | 0 <= i < j < |created| :: created[i] != created[j]
    requires forall i | 0 <= i < n :: created[i] in files && files[created[i]] == uploads[i].content
    ensures Total(Without(files, created[..n])) == Total(files) - Sizes(uploads, n)
  {
    if n == 0 {
      assert Without(files, created[..0]) == files;
    } else {
      WithoutSizes(files, created, uploads, n - 1);
      var before, p := Without(files, created[..n - 1]), created[n - 1];
      assert created[..n] == created[..n - 1] + [p];
      assert Without(files, created[..n]) == before - {p};
      TotalRemove(before, p);
    }
  }

  // What a failing `put` and the roll-back after it leave.
  ghost predicate FailureLeaves(limit: int, hash: Bytes -> Digest, start: Disk, after: Disk, uploads: seq<Upload>, faults: seq<Option<Stage>>, f: nat, at: Disk, stops: Option<nat>)
    requires f < |uploads| == |faults|
  {
    if stops.Some? && stops.value <= f then
      && (after.usage.Some? <==> LeavesTotal(limit, hash, at, uploads[f], faults[f]))
      && (after.usage.Some? ==> Excess(after) == Excess(start) + Sizes(uploads, stops.value))
    else after.usage.None?
  }

  // How a batch ends: `f` is the upload it failed at, on disk `at`, or the number of uploads.
  ghost predicate Ends(limit: int, hash: Bytes -> Digest, start: Disk, after: Disk, r: Result<seq<Path>, PutError>, uploads: seq<Upload>, faults: seq<Option<Stage>>, f: nat, at: Disk, stops: Option<nat>)
    requires |uploads| == |faults|
  {
    && f <= |uploads| && (r.Ok? <==> f == |uploads|) && (f > 0 ==> at.usage.Some?)
    && (r.Err? ==>
      && (r.error.QuotaExceeded? <==> OverLimit(limit, at, uploads[f]))
      && FailureLeaves(limit, hash, start, after, uploads, faults, f, at, stops))
  }

  // The uploads so far are published and the cached total, if any, is as it was at the start.
  ghost predicate Underway(start: Disk, d: Disk, uploads: seq<Upload>, created: seq<Path>) {
    && Tidy(d) && start.dirs <= d.dirs && Published(start, d.files, uploads, created)
    && Excess(d) == Excess(start) && (created != [] ==> d.usage.Some?)
  }

  lemma RolledBack(limit: int, hash: Bytes -> Digest, start: Disk, at: Disk, uploads: seq<Upload>, faults: seq<Option<Stage>>, created: seq<Path>, stops: Option<nat>)
    requires |faults| == |uploads| && |created| < |uploads| && Underway(start, at, uploads, created)
    ensures var f := |created|; var path := Find(at, uploads[f].name, "_", None).value;
      var (after, put) := PutSpec(limit, hash, at, path, uploads[f].content, None, true, faults[f]);
      put.Err? ==> Ends(limit, hash, start, RollBackSpec(after, created + [path], stops), Err(put.error), uploads, faults, f, at, stops)
  {
    var f := |created|;
    var path := Find(at, uploads[f].name, "_", None).value;
    var (after, put) := PutSpec(limit, hash, at, path, uploads[f].content, None, true, faults[f]);
    FailedTotal(limit, hash, at, uploads[f], faults[f]);
    PutShape(limit, hash, at, path, uploads[f].content, None, true, faults[f]);
    if stops.Some? && stops.value <= f {
      assert (created + [path])[..stops.value] == created[..stops.value];
      assert forall i | 0 <= i < f :: created[i] in after.files && after.files[created[i]] == uploads[i].content;
      WithoutSizes(after.files, created, uploads, stops.value);
    }
  }

  lemma NextUnderway(limit: int, hash: Bytes -> Digest, start: Disk, d: Disk, uploads: seq<Upload>, fault: Option<Stage>, created: seq<Path>)
    requires Underway(start, d, uploads, created) && |created| < |uploads|
    ensures var upload := uploads[|created|]; var path := Find(d, upload.name, "_", None).value;
      var (after, put) := PutSpec(limit, hash, d, path, upload.content, None, true, fault);
      put.Ok? ==> Underway(start, after, uploads, created + [path])
  {
    OnePublished(limit, hash, start, d, uploads, fault, created);
  }

  // One step of both functions.
  lemma OneUpload(limit: int, hash: Bytes -> Digest, d: Disk, uploads: seq<Upload>, faults: seq<Option<Stage>>, created: seq<Path>, stops: Option<nat>)
    requires |faults| == |uploads| && |created| < |uploads|
    ensures var i := |created|; var path := Find(d, uploads[i].name, "_", None).value;
      var (after, put) := PutSpec(limit, hash, d, path, uploads[i].content, None, true, faults[i]);
      && FailsFrom(limit, hash, d, uploads, faults, i) == (if put.Err? then (i, d) else FailsFrom(limit, hash, after, uploads, faults, i + 1))
      && UploadsFrom(limit, hash, d, uploads, faults, created, stops) ==
        if put.Err? then (RollBackSpec(after, created + [path], stops), Err(put.error))
        else UploadsFrom(limit, hash, after, uploads, faults, created + [path], stops)
  {
  }

  // `FailureContinues` for what is left of a batch.
  ghost predicate LeftEnds(limit: int, hash: Bytes -> Digest, start: Disk, d: Disk, uploads: seq<Upload>, faults: seq<Option<Stage>>, created: seq<Path>, stops: Option<nat>)
    requires |faults| == |uploads| && |created| <= |uploads|
  {
    var (f, at) := FailsFrom(limit, hash, d, uploads, faults, |created|);
    var (after, r) := UploadsFrom(limit, hash, d, uploads, faults, created, stops);
    Ends(limit, hash, start, after, r, uploads, faults, f, at, stops)
  }

  lemma {:induction false} FailureContinues(limit: int, hash: Bytes -> Digest, start: Disk, d: Disk, uploads: seq<Upload>, faults: seq<Option<Stage>>, created: seq<Path>, stops: Option<nat>)
    requires |faults| == |uploads| && |created| <= |uploads| && Underway(start, d, uploads, created)
    ensures LeftEnds(limit, hash, start, d, uploads, faults, created, stops)
    decreases |uploads| - |created|
  {
    var i := |created|;
    if i < |uploads| {
      var path := Find(d, uploads[i].name, "_", None).value;
      var (after, put) := PutSpec(limit, hash, d, path, uploads[i].content, None, true, faults[i]);
      OneUpload(limit, hash, d, uploads, faults, created, stops);
      if put.Ok? {
        NextUnderway(limit, hash, start, d, uploads, faults[i], created);
        FailureContinues(limit, hash, start, after, uploads, faults, created + [path], stops);
        assert |created + [path]| == i + 1;
      } else {
        RolledBack(limit, hash, start, d, uploads, faults, created, stops);
      }
    }
  }

  /**
   What a batch does to the cached total: a batch that succeeds leaves it as right
   or wrong as it was; one that is taken back leaves none; and one whose roll-back
   is interrupted leaves, if the failing `put` left any, one that claims all the
   bytes already unlinked.
   */
  lemma BatchTotal(limit: int, hash: Bytes -> Digest, d: Disk, uploads: seq<Upload>, faults: seq<Option<Stage>>, stops: Option<nat>)
    requires |faults| == |uploads| && Tidy(d)
    ensures var (after, r) := UploadsFrom(limit, hash, d, uploads, faults, [], stops);
      var (f, at) := FailsAt(limit, hash, d, uploads, faults);
      && (r.Ok? ==> Excess(after) == Excess(d))
      && Ends(limit, hash, d, after, r, uploads, faults, f, at, stops)
  {
    UploadsShape(limit, hash, d, uploads, faults, stops);
    assert Without(d.files, []) == d.files;
    FailureContinues(limit, hash, d, d, uploads, faults, [], stops);
  }

  lemma {:induction false} SizesPositive(uploads: seq<Upload>, n: nat)
    requires n <= |uploads|
    ensures Sizes(uploads, n) > 0 <==> exists k | 0 <= k < n :: uploads[k].content != []
  {
    if n > 0 {
      SizesPositive(uploads, n - 1);
    }
  }

  /**
   Starting from an exact total, or none, a batch leaves a wrong one if and only if
   it failed at an upload that the quota refused or that raised in its last
   operation, and an unlink raised after a non-empty upload was already gone.
   */
  lemma UndoneIsExact(limit: int, hash: Bytes -> Digest, d: Disk, uploads: seq<Upload>, faults: seq<Option<Stage>>, stops: Option<nat>)
    requires |faults| == |uploads| && Tidy(d) && CacheExact(d)
    ensures var (after, r) := UploadsFrom(limit, hash, d, uploads, faults, [], stops);
      var (f, at) := FailsAt(limit, hash, d, uploads, faults);
      !CacheExact(after) <==>
        && r.Err? && Interrupted(limit, hash, d, uploads, faults, stops)
        && (r.error.QuotaExceeded? || WroteAndRaised(limit, hash, at, uploads[f], faults[f]))
        && exists k | 0 <= k < stops.value :: uploads[k].content != []
  {
    BatchTotal(limit, hash, d, uploads, faults, stops);
    var (after, r) := UploadsFrom(limit, hash, d, uploads, faults, [], stops);
    assert CacheExact(after) <==> after.usage.None? || Excess(after) == 0;
    if Interrupted(limit, hash, d, uploads, faults, stops) {
      SizesPositive(uploads, stops.value);
      assert Excess(d) == 0 && r.Err?;
    } else if r.Ok? {
      assert Excess(after) == 0;
    }
  }

  // ---- A roll-back that is interrupted ----

  // Two uploads of one byte each.
  const BOTH: seq<Upload> := [Upload("a", [0]), Upload("b", [0])]
  const NO_FAULTS: seq<Option<Stage>> := [None, None]
  const FIRST: Path := UPLOADS + "a"
  const SECOND: Path := UPLOADS + "b"

  lemma NewName(d: Disk, name: string)
    requires !Exists(d, UPLOADS + name)
    ensures Find(d, name, "_", None) == Some(UPLOADS + name)
  {
    assert Tried(name, "_", 0) == {};
    assert Candidate(name, "_", 0) == UPLOADS + name;
  }

  // The first upload fills the workspace.
  lemma FirstFills(limit: int, hash: Bytes -> Digest, start: Disk)
    requires Tidy(start) && start.usage.None? && Total(start.files) + 1 == limit && !Exists(start, FIRST)
    requires forall a | a in Ancestors(FIRST) :: a !in start.files
    ensures Find(start, "a", "_", None) == Some(FIRST)
    ensures var (one, put) := PutSpec(limit, hash, start, FIRST, [0], None, true, None);
      put.Ok? && one == Disk(start.files[FIRST := [0]], start.dirs + Ancestors(FIRST), Some(limit))
  {
    NewName(start, "a");
    TotalPut(start.files, FIRST, [0]);
    NewSizeIs(start, FIRST, [0]);
    assert FIRST !in Ancestors(FIRST);
  }

  // The second is refused by the quota.
  lemma SecondRefused(limit: int, hash: Bytes -> Digest, one: Disk)
    requires one.usage == Some(limit) && !Exists(one, SECOND)
    ensures Find(one, "b", "_", None) == Some(SECOND)
    ensures PutSpec(limit, hash, one, SECOND, [0], None, true, None) == (one, Err(QuotaExceeded))
  {
    NewName(one, "b");
  }

  lemma DifferentNames()
    ensures FIRST != SECOND
  {
    assert FIRST[|UPLOADS|] == 'a' && SECOND[|UPLOADS|] == 'b';
  }

  // The unlink of the second raises, when the first is already gone.
  lemma FirstIsLost(limit: int, hash: Bytes -> Digest, start: Disk)
    requires Tidy(start) && start.usage.None? && Total(start.files) + 1 == limit && !Exists(start, FIRST) && !Exists(start, SECOND)
    requires (forall a | a in Ancestors(FIRST) :: a !in start.files) && SECOND !in Ancestors(FIRST)
    ensures UploadsFrom(limit, hash, start, BOTH, NO_FAULTS, [], Some(1)).0 == Disk(start.files, start.dirs + Ancestors(FIRST), Some(limit))
  {
    FirstFills(limit, hash, start);
    DifferentNames();
    var one := PutSpec(limit, hash, start, FIRST, [0], None, true, None).0;
    SecondRefused(limit, hash, one);
    assert [] + [FIRST] == [FIRST] && ([FIRST] + [SECOND])[..1] == [FIRST];
    assert UploadsFrom(limit, hash, one, BOTH, NO_FAULTS, [FIRST], Some(1)).0 == RollBackSpec(one, [FIRST] + [SECOND], Some(1));
    assert Without(one.files, [FIRST]) == start.files;
  }

  lemma NoAncestor(path: Path, d: Path)
    requires |d| == |path| && path != d
    ensures d !in Ancestors(path)
  {
  }

  /** One byte is uploaded, the next exceeds the quota, and an unlink raises: the cache claims a byte that is gone. */
  lemma InterruptedRollBackLies(hash: Bytes -> Digest)
    ensures var d := UploadsFrom(1, hash, Disk(map[], {"/workspace"}, None), BOTH, NO_FAULTS, [], Some(1)).0;
      d.files == map[] && d.usage == Some(1) && !CacheExact(d)
  {
    DifferentNames();
    NoAncestor(FIRST, SECOND);
    FirstIsLost(1, hash, Disk(map[], {"/workspace"}, None));
  }
}
