/**
 Browser saves among everything else that changes a workspace. Each operation
 runs under the exclusive files guard or the execution guard, so a history is a
 sequence of steps, each the value of one method of the store.
 */
module Saves {
  import opened Wrappers
  import opened Workspace
  import opened Uploads
  import opened Batches

  datatype Rules = Rules(limit: int, hash: Bytes -> Digest, decodes: Bytes -> bool)

  datatype World = World(disk: Disk, aliases: map<Path, Path>)

  // `AgentPut` is a file tool of an agent, `Command` leaves any files behind, and
  // `Delete` removes the workspace.
  datatype Step =
    | Save(path: Path, draft: Bytes, revision: Digest, fault: Option<Stage>)
    | AgentPut(path: Path, content: Bytes, create: bool, fault: Option<Stage>)
    | Upload(uploads: seq<Upload>, faults: seq<Option<Stage>>, stops: Option<nat>)
    | Command(after: Files, afterDirs: set<Path>)
    | Clean
    | Migrate(items: seq<Legacy>, faults: seq<Option<Stage>>, saveFails: bool)
    | Delete

  ghost function Next(r: Rules, w: World, step: Step): World {
    match step
    case Save(path, draft, revision, fault) => w.(disk := SaveSpec(r.limit, r.hash, r.decodes, w.disk, path, draft, revision, fault).0)
    case AgentPut(path, content, create, fault) => w.(disk := PutSpec(r.limit, r.hash, w.disk, path, content, None, create, fault).0)
    case Upload(uploads, faults, stops) =>
      if |uploads| != |faults| then w else w.(disk := UploadsFrom(r.limit, r.hash, w.disk, uploads, faults, [], stops).0)
    case Command(after, afterDirs) => if Tidy(Disk(after, afterDirs, None)) then w.(disk := CommandSpec(r.limit, w.disk, after, afterDirs)) else w
    case Clean => w.(disk := CleanSpec(w.disk))
    case Migrate(items, faults, saveFails) =>
      if |items| != |faults| then w
      else
        var (disk, aliases) := MigrateSpec(r.limit, r.hash, w.disk, w.aliases, items, faults, saveFails);
        World(disk, if aliases.Ok? then aliases.value else w.aliases)
    case Delete => World(Disk(map[], {"/workspace", SCRATCH}, None), map[])
  }

  ghost function After(r: Rules, w: World, steps: seq<Step>): World {
    if steps == [] then w else Next(r, After(r, w, steps[..|steps| - 1]), steps[|steps| - 1])
  }

  // What a step installs at `p`: `None` if it leaves `p` alone, `Some(None)` if it removes it.
  ghost function Installs(r: Rules, w: World, step: Step, p: Path): Option<Option<Bytes>> {
    match step
    case Save(path, draft, revision, fault) => if p == path && SaveTakes(r, w.disk, step) then Some(Some(draft)) else None
    case AgentPut(path, content, create, fault) =>
      if p == path && Takes(r.limit, r.hash, w.disk, path, content, None, create, fault) then Some(Some(content)) else None
    case Delete => Some(None)
    case _ => if Current(Next(r, w, step).disk.files, p) == Current(w.disk.files, p) then None else Some(Current(Next(r, w, step).disk.files, p))
  }

  ghost predicate SaveTakes(r: Rules, d: Disk, step: Step)
    requires step.Save?
  {
    && Writable(step.path) && Editable(step.draft)
    && step.path in d.files && Editable(d.files[step.path]) && r.decodes(d.files[step.path])
    && Takes(r.limit, r.hash, d, step.path, step.draft, Some(step.revision), false, step.fault)
  }

  // The content that the last effective write installed at `p`, or what was there at the start.
  ghost function LastWritten(r: Rules, w: World, steps: seq<Step>, p: Path): Option<Bytes> {
    if steps == [] then Current(w.disk.files, p)
    else
      var front := steps[..|steps| - 1];
      var x := Installs(r, After(r, w, front), steps[|steps| - 1], p);
      if x.Some? then x.value else LastWritten(r, w, front, p)
  }

  lemma SaveShape(r: Rules, d: Disk, step: Step)
    requires step.Save?
    ensures var (after, result) := SaveSpec(r.limit, r.hash, r.decodes, d, step.path, step.draft, step.revision, step.fault);
      && after.files == (if SaveTakes(r, d, step) then d.files[step.path := step.draft] else d.files)
      && (result.Ok? <==> SaveTakes(r, d, step) && step.fault.None?)
  {
    PutTakes(r.limit, r.hash, d, step.path, step.draft, Some(step.revision), false, step.fault);
  }

  lemma StepInstalls(r: Rules, w: World, step: Step, p: Path)
    ensures var x := Installs(r, w, step, p);
      Current(Next(r, w, step).disk.files, p) == if x.Some? then x.value else Current(w.disk.files, p)
  {
    match step {
    case Save(_, _, _, _) => SaveShape(r, w.disk, step);
    case AgentPut(path, content, create, fault) => PutTakes(r.limit, r.hash, w.disk, path, content, None, create, fault);
    case _ =>
    }
  }

  /** Over every history, each file holds what the last effective write installed. */
  lemma {:induction false} HoldsLastWritten(r: Rules, w: World, steps: seq<Step>, p: Path)
    ensures Current(After(r, w, steps).disk.files, p) == LastWritten(r, w, steps, p)
  {
    if steps != [] {
      HoldsLastWritten(r, w, steps[..|steps| - 1], p);
      StepInstalls(r, After(r, w, steps[..|steps| - 1]), steps[|steps| - 1], p);
    }
  }

  // ---- Where installed content comes from ----

  // `content` at `p` is one of the arguments of the step.
  ghost predicate Supplies(step: Step, p: Path, content: Bytes) {
    match step
    case Save(path, draft, _, _) => path == p && draft == content
    case AgentPut(path, written, _, _) => path == p && written == content
    case Upload(uploads, _, _) => exists u | u in uploads :: u.content == content
    case Command(after, _) => p in after && after[p] == content
    case Clean => false
    case Migrate(items, _, _) => exists item | item in items :: item.Live() && item.data == Some(content)
    case Delete => false
  }

  // What a batch may leave: the files from before and contents of its uploads.
  ghost predicate OnlyUploads(start: Files, files: Files, uploads: seq<Upload>) {
    && (forall p | p in start :: p in files && files[p] == start[p])
    && (forall p | p in files && p !in start :: exists u | u in uploads :: u.content == files[p])
  }

  lemma {:induction false} UploadsSupply(r: Rules, start: Files, d: Disk, uploads: seq<Upload>, faults: seq<Option<Stage>>, created: seq<Path>, stops: Option<nat>)
    requires |uploads| == |faults| && |created| <= |uploads|
    requires OnlyUploads(start, d.files, uploads) && forall p | p in created :: p !in start
    ensures OnlyUploads(start, UploadsFrom(r.limit, r.hash, d, uploads, faults, created, stops).0.files, uploads)
    decreases |uploads| - |created|
  {
    var i := |created|;
    if i < |uploads| {
      var path := Find(d, uploads[i].name, "_", None).value;
      var (after, put) := PutSpec(r.limit, r.hash, d, path, uploads[i].content, None, true, faults[i]);
      PutTakes(r.limit, r.hash, d, path, uploads[i].content, None, true, faults[i]);
      assert uploads[i] in uploads && path !in start;
      assert OnlyUploads(start, after.files, uploads);
      if put.Ok? {
        UploadsSupply(r, start, after, uploads, faults, created + [path], stops);
      } else {
        UndoSupplies(start, after, uploads, created + [path], stops);
      }
    }
  }

  lemma UndoSupplies(start: Files, d: Disk, all: seq<Upload>, created: seq<Path>, stops: Option<nat>)
    requires OnlyUploads(start, d.files, all) && forall p | p in created :: p !in start
    ensures OnlyUploads(start, RollBackSpec(d, created, stops).files, all)
  {
  }

  ghost predicate OnlyItems(start: Files, files: Files, items: seq<Legacy>) {
    && (forall p | p in start :: p in files && files[p] == start[p])
    && (forall p | p in files && p !in start :: exists item | item in items :: item.Live() && item.data == Some(files[p]))
  }

  lemma {:induction false} MigrateSupplies(r: Rules, start: Files, d: Disk, found: map<Path, Path>, all: seq<Legacy>, items: seq<Legacy>, faults: seq<Option<Stage>>)
    requires |items| == |faults| && (forall item | item in items :: item in all) && OnlyItems(start, d.files, all)
    ensures OnlyItems(start, MigrateFrom(r.limit, r.hash, d, found, items, faults).0.files, all)
    decreases |items|
  {
    if items != [] {
      var item := items[0];
      if !item.Live() || item.path in found {
        MigrateSupplies(r, start, d, found, all, items[1..], faults[1..]);
      } else {
        var (after, target) := AdoptSpec(r.limit, r.hash, d, item, faults[0]);
        AdoptSupplies(r, start, d, all, item, faults[0]);
        if target.Ok? {
          MigrateSupplies(r, start, after, found[item.path := target.value], all, items[1..], faults[1..]);
        }
      }
    }
  }

  lemma AdoptSupplies(r: Rules, start: Files, d: Disk, all: seq<Legacy>, item: Legacy, fault: Option<Stage>)
    requires item in all && item.Live() && OnlyItems(start, d.files, all)
    ensures OnlyItems(start, AdoptSpec(r.limit, r.hash, d, item, fault).0.files, all)
  {
    var candidate := Find(d, BaseName(item.path), "_legacy", item.data);
    if candidate.Some? && candidate.value !in d.files {
      PutTakes(r.limit, r.hash, d, candidate.value, item.data.value, None, true, fault);
    }
  }

  /** Whatever content a step installs is one of its own arguments: a draft, a tool's text, an upload, a legacy file, a command's output. */
  lemma InstalledIsSupplied(r: Rules, w: World, step: Step, p: Path)
    ensures Installs(r, w, step, p).Some? && Installs(r, w, step, p).value.Some? ==> Supplies(step, p, Installs(r, w, step, p).value.value)
  {
    match step {
    case Upload(uploads, faults, stops) =>
      if |uploads| == |faults| {
        UploadsSupply(r, w.disk.files, w.disk, uploads, faults, [], stops);
      }
    case Migrate(items, faults, _) =>
      if |items| == |faults| {
        MigrateSupplies(r, w.disk.files, w.disk, w.aliases, items, items, faults);
      }
    case _ =>
    }
  }

  /** What a file holds was there at the start or is an argument of some step since. */
  lemma {:induction false} EveryContentHasASource(r: Rules, w: World, steps: seq<Step>, p: Path)
    requires LastWritten(r, w, steps, p).Some?
    ensures var content := LastWritten(r, w, steps, p).value;
      Current(w.disk.files, p) == Some(content) || exists i | 0 <= i < |steps| :: Supplies(steps[i], p, content)
  {
    if steps != [] {
      var n := |steps| - 1;
      InstalledIsSupplied(r, After(r, w, steps[..n]), steps[n], p);
      if Installs(r, After(r, w, steps[..n]), steps[n], p).None? {
        EveryContentHasASource(r, w, steps[..n], p);
        if i :| 0 <= i < n && Supplies(steps[..n][i], p, LastWritten(r, w, steps, p).value) {
          assert steps[i] == steps[..n][i];
        }
      }
    }
  }

  /**
   A save succeeds only on the content that the last effective write to the file
   installed, whatever kind that write was: the revision it presents is the
   digest of that content, and it replaces exactly that content and nothing else.
   */
  lemma SaveReplacesLastWrite(r: Rules, w: World, steps: seq<Step>, save: Step)
    requires save.Save?
    requires SaveSpec(r.limit, r.hash, r.decodes, After(r, w, steps).disk, save.path, save.draft, save.revision, save.fault).1.Ok?
    ensures var last := LastWritten(r, w, steps, save.path);
      && last.Some? && r.hash(last.value) == save.revision
      && After(r, w, steps).disk.files[save.path] == last.value
      && After(r, w, steps + [save]).disk.files == After(r, w, steps).disk.files[save.path := save.draft]
  {
    HoldsLastWritten(r, w, steps, save.path);
    SaveShape(r, After(r, w, steps).disk, save);
    assert (steps + [save])[..|steps|] == steps;
  }

  ghost predicate CollisionFree(hash: Bytes -> Digest) {
    forall a, b | hash(a) == hash(b) :: a == b
  }

  // ---- The cached total over a history ----

  // The bytes by which a batch whose roll-back is interrupted falsifies a total that it leaves.
  ghost function Lost(r: Rules, w: World, step: Step): nat {
    if step.Upload? && |step.uploads| == |step.faults| && Interrupted(r.limit, r.hash, w.disk, step.uploads, step.faults, step.stops) then
      Sizes(step.uploads, step.stops.value)
    else 0
  }

  // The bytes lost by interrupted roll-backs since there was last no cached total.
  ghost function Claimed(r: Rules, w: World, steps: seq<Step>): int {
    if steps == [] then Excess(w.disk)
    else
      var front, last := steps[..|steps| - 1], steps[|steps| - 1];
      if After(r, w, steps).disk.usage.None? then 0 else Claimed(r, w, front) + Lost(r, After(r, w, front), last)
  }

  // What one step does to the shape of the disk and to the cached total.
  ghost predicate Keeps(d: Disk, after: Disk, lost: int) {
    Tidy(after) && (after.usage.Some? ==> Excess(after) == Excess(d) + lost)
  }

  lemma {:induction false} MigrateKeeps(limit: int, hash: Bytes -> Digest, d: Disk, found: map<Path, Path>, items: seq<Legacy>, faults: seq<Option<Stage>>)
    requires |items| == |faults| && Tidy(d)
    ensures Keeps(d, MigrateFrom(limit, hash, d, found, items, faults).0, 0)
    decreases |items|
  {
    if items != [] {
      var item := items[0];
      if !item.Live() || item.path in found {
        MigrateKeeps(limit, hash, d, found, items[1..], faults[1..]);
      } else {
        AdoptKeeps(limit, hash, d, item, faults[0]);
        var (after, target) := AdoptSpec(limit, hash, d, item, faults[0]);
        if target.Ok? {
          MigrateKeeps(limit, hash, after, found[item.path := target.value], items[1..], faults[1..]);
        }
      }
    }
  }

  lemma AdoptKeeps(limit: int, hash: Bytes -> Digest, d: Disk, item: Legacy, fault: Option<Stage>)
    requires Tidy(d) && item.data.Some?
    ensures var (after, target) := AdoptSpec(limit, hash, d, item, fault);
      Keeps(d, after, 0) && (target.Ok? ==> Excess(after) == Excess(d))
  {
    var candidate := Find(d, BaseName(item.path), "_legacy", item.data);
    if candidate.Some? && candidate.value !in d.files {
      PutShape(limit, hash, d, candidate.value, item.data.value, None, true, fault);
    }
  }

  lemma StepKeeps(r: Rules, w: World, step: Step)
    requires Tidy(w.disk)
    ensures Keeps(w.disk, Next(r, w, step).disk, Lost(r, w, step))
  {
    match step {
    case Save(path, draft, revision, fault) => PutShape(r.limit, r.hash, w.disk, path, draft, Some(revision), false, fault);
    case AgentPut(path, content, create, fault) => PutShape(r.limit, r.hash, w.disk, path, content, None, create, fault);
    case Upload(uploads, faults, stops) =>
      if |uploads| == |faults| {
        UploadsShape(r.limit, r.hash, w.disk, uploads, faults, stops);
        BatchTotal(r.limit, r.hash, w.disk, uploads, faults, stops);
      }
    case Migrate(items, faults, _) =>
      if |items| == |faults| {
        MigrateKeeps(r.limit, r.hash, w.disk, w.aliases, items, faults);
      }
    case _ =>
    }
  }

  /**
   Over every history the cached total, while there is one, claims beyond the bytes
   on disk exactly those that interrupted roll-backs have unlinked since there was
   last none.
   */
  lemma {:induction false} ClaimedIsExcess(r: Rules, w: World, steps: seq<Step>)
    requires Tidy(w.disk)
    ensures Tidy(After(r, w, steps).disk) && Excess(After(r, w, steps).disk) == Claimed(r, w, steps)
  {
    if steps != [] {
      var n := |steps| - 1;
      ClaimedIsExcess(r, w, steps[..n]);
      StepKeeps(r, After(r, w, steps[..n]), steps[n]);
    }
  }

  // No roll-back of a batch with content is interrupted.
  ghost predicate NothingLost(r: Rules, w: World, steps: seq<Step>) {
    forall i | 0 <= i < |steps| :: Lost(r, After(r, w, steps[..i]), steps[i]) == 0
  }

  /** Without interrupted roll-backs the cached total always agrees with a full scan, if it did at the start. */
  lemma {:induction false} CacheStaysExact(r: Rules, w: World, steps: seq<Step>)
    requires Tidy(w.disk) && CacheExact(w.disk) && NothingLost(r, w, steps)
    ensures CacheExact(After(r, w, steps).disk) && Claimed(r, w, steps) == 0
  {
    if steps != [] {
      var n := |steps| - 1;
      assert forall i | 0 <= i < n :: steps[..n][..i] == steps[..i] && steps[..n][i] == steps[i];
      CacheStaysExact(r, w, steps[..n]);
    }
    ClaimedIsExcess(r, w, steps);
  }

  // ---- Stale drafts ----

  // What a save demands besides an unchanged file: by the real total there is room for it.
  ghost predicate Acceptable(r: Rules, d: Disk, save: Step)
    requires save.Save?
  {
    && Writable(save.path) && Editable(save.draft) && save.fault.None?
    && (save.path in d.files ==> Editable(d.files[save.path]) && r.decodes(d.files[save.path]))
    && Total(d.files[save.path := save.draft]) <= r.limit
    && (forall a | a in Ancestors(save.path) :: a !in d.files) && save.path !in d.dirs
  }

  /**
   An editor opened on `base` saves after any history. An otherwise acceptable save
   goes through if and only if `base` is what the last effective write installed
   and there is still room when the bytes claimed by interrupted roll-backs are
   counted. A refused save changes no file, and it is refused for the quota exactly
   when those bytes are the reason.
   */
  lemma StaleDraftNeverWins(r: Rules, w: World, steps: seq<Step>, save: Step, base: Bytes)
    requires CollisionFree(r.hash) && Tidy(w.disk) && save.Save? && save.revision == r.hash(base)
    requires Acceptable(r, After(r, w, steps).disk, save)
    ensures var d := After(r, w, steps).disk;
      var (after, result) := SaveSpec(r.limit, r.hash, r.decodes, d, save.path, save.draft, save.revision, save.fault);
      var fits := Total(d.files[save.path := save.draft]) + Claimed(r, w, steps) <= r.limit;
      && (result.Ok? <==> LastWritten(r, w, steps, save.path) == Some(base) && fits)
      && (result == Err(Refused(QuotaExceeded)) <==> LastWritten(r, w, steps, save.path) == Some(base) && !fits)
      && (result.Err? ==> after.files == d.files)
  {
    var d := After(r, w, steps).disk;
    HoldsLastWritten(r, w, steps, save.path);
    SaveShape(r, d, save);
    ClaimedIsExcess(r, w, steps);
    NewSizeIs(d, save.path, save.draft);
  }

  /** Without interrupted roll-backs only stale drafts are refused. */
  lemma OnlyStaleDraftsAreRefused(r: Rules, w: World, steps: seq<Step>, save: Step, base: Bytes)
    requires CollisionFree(r.hash) && Tidy(w.disk) && save.Save? && save.revision == r.hash(base)
    requires Acceptable(r, After(r, w, steps).disk, save) && CacheExact(w.disk) && NothingLost(r, w, steps)
    ensures SaveSpec(r.limit, r.hash, r.decodes, After(r, w, steps).disk, save.path, save.draft, save.revision, save.fault).1.Ok? <==>
      LastWritten(r, w, steps, save.path) == Some(base)
  {
    StaleDraftNeverWins(r, w, steps, save, base);
    CacheStaysExact(r, w, steps);
  }

  const NOTES: Path := "/workspace/x"

  /**
   After an interrupted roll-back a save is refused for the quota although the file
   is unchanged and there is room for it: the limit is two bytes, one is used, the
   draft has two, and one byte is claimed by an upload that is gone.
   */
  lemma InterruptedRollBackRefusesSave(r: Rules, base: Bytes, draft: Bytes)
    requires r.limit == 2 && base == [1] && draft == [1, 1] && r.decodes(base)
    ensures var w := World(Disk(map[NOTES := base], {"/workspace"}, None), map[]);
      var d := After(r, w, [Step.Upload(BOTH, NO_FAULTS, Some(1))]).disk;
      && d.files == map[NOTES := base] && Acceptable(r, d, Save(NOTES, draft, r.hash(base), None))
      && SaveSpec(r.limit, r.hash, r.decodes, d, NOTES, draft, r.hash(base), None) == (d, Err(Refused(QuotaExceeded)))
  {
    var start := Disk(map[NOTES := base], {"/workspace"}, None);
    var w := World(start, map[]);
    var batch := Step.Upload(BOTH, NO_FAULTS, Some(1));
    OneFile(base);
    NotesApart();
    FirstIsLost(2, r.hash, start);
    assert [batch][..0] == [] && After(r, w, [batch]) == Next(r, w, batch);
    var d := Next(r, w, batch).disk;
    TotalPut(d.files, NOTES, draft);
    assert Ancestors(NOTES) !! {NOTES};
  }

  lemma OneFile(content: Bytes)
    ensures Total(map[NOTES := content]) == |content|
  {
    TotalPut(map[], NOTES, content);
    assert map[][NOTES := content] == map[NOTES := content];
  }

  // The uploads and the file that is saved have nothing to do with each other.
  lemma NotesApart()
    ensures NOTES != FIRST && NOTES != SECOND && NOTES !in Ancestors(FIRST) && SECOND !in Ancestors(FIRST)
    ensures FIRST != "/workspace" && SECOND != "/workspace" && NOTES != "/workspace"
  {
    DifferentNames();
    NoAncestor(FIRST, SECOND);
    assert |NOTES| == 12 && |FIRST| == |SECOND| == 20;
    assert FIRST[11] == 'u' && NOTES[11] == 'x';
    forall a | a in Ancestors(FIRST) && |a| == 12
      ensures a != NOTES
    {
      assert a[11] == FIRST[11];
    }
  }

  // Step `k` is no effective write to `p`.
  ghost predicate LeavesAlone(r: Rules, w: World, steps: seq<Step>, k: nat, p: Path)
    requires k < |steps|
  {
    Installs(r, After(r, w, steps[..k]), steps[k], p).None?
  }

  lemma LastWrittenNext(r: Rules, w: World, steps: seq<Step>, step: Step, p: Path)
    ensures var x := Installs(r, After(r, w, steps), step, p);
      LastWritten(r, w, steps + [step], p) == if x.Some? then x.value else LastWritten(r, w, steps, p)
  {
    assert (steps + [step])[..|steps|] == steps;
  }

  lemma {:induction false} LeftAlone(r: Rules, w: World, steps: seq<Step>, a: nat, b: nat, p: Path)
    requires a <= b <= |steps| && forall k | a <= k < b :: LeavesAlone(r, w, steps, k, p)
    ensures LastWritten(r, w, steps[..b], p) == LastWritten(r, w, steps[..a], p)
    decreases b
  {
    if a < b {
      LeftAlone(r, w, steps, a, b - 1, p);
      assert LeavesAlone(r, w, steps, b - 1, p);
      LastWrittenNext(r, w, steps[..b - 1], steps[b - 1], p);
      assert steps[..b] == steps[..b - 1] + [steps[b - 1]];
    }
  }

  /**
   Successful saves form a chain: when the last effective write before a save
   was another save, whatever else ran in between, the later one presented the
   digest of the earlier draft.
   */
  lemma SavesFormAChain(r: Rules, w: World, steps: seq<Step>, i: nat, j: nat)
    requires i < j < |steps| && steps[i].Save? && steps[j].Save? && steps[j].path == steps[i].path
    requires SaveTakes(r, After(r, w, steps[..i]).disk, steps[i]) && SaveTakes(r, After(r, w, steps[..j]).disk, steps[j])
    requires forall k | i < k < j :: LeavesAlone(r, w, steps, k, steps[i].path)
    ensures steps[j].revision == r.hash(steps[i].draft)
  {
    var p := steps[i].path;
    LastWrittenNext(r, w, steps[..i], steps[i], p);
    assert steps[..i + 1] == steps[..i] + [steps[i]];
    LeftAlone(r, w, steps, i + 1, j, p);
    HoldsLastWritten(r, w, steps[..j], p);
  }
}
