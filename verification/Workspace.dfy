/**
 One conversation workspace on disk: its files, its directories and the cached
 byte total in `.usage`. The operations never make a cached total wrong: at every
 point where the process may die it is absent or as far from a full scan as it
 was before, so an exact one stays exact.
 */
module Workspace {
  import opened Wrappers

  newtype Byte = b: int | 0 <= b < 256
  type Bytes = seq<Byte>
  type Path = string
  type Digest = int
  type Files = map<Path, Bytes>

  datatype Disk = Disk(files: Files, dirs: set<Path>, usage: Option<int>)

  datatype PutError = FileExists | RevisionConflict | QuotaExceeded | Io

  // The file operations of `put` that may raise.
  datatype Stage = MakeDir | OpenTemporary | WriteTemporary | Replace | RecordUsage | Touch

  // ---- The full scan ----

  ghost function Total(files: Files): int
    decreases |files|
  {
    if files == map[] then 0
    else
      var p :| p in files;
      |files[p]| + Total(files - {p})
  }

  lemma {:induction false} TotalRemove(files: Files, p: Path)
    requires p in files
    ensures Total(files) == |files[p]| + Total(files - {p})
    decreases |files|
  {
    var q :| q in files && Total(files) == |files[q]| + Total(files - {q});
    if q != p {
      TotalRemove(files - {q}, p);
      TotalRemove(files - {p}, q);
      assert files - {q} - {p} == files - {p} - {q};
    }
  }

  function SizeAt(files: Files, p: Path): int {
    if p in files then |files[p]| else 0
  }

  /** Replacing or creating one file changes the scan by exactly the difference of its sizes. */
  lemma TotalPut(files: Files, p: Path, content: Bytes)
    ensures Total(files[p := content]) == Total(files) - SizeAt(files, p) + |content|
  {
    TotalRemove(files[p := content], p);
    if p in files {
      TotalRemove(files, p);
      assert files[p := content] - {p} == files - {p};
    } else {
      assert files[p := content] - {p} == files;
    }
  }

  ghost predicate CacheExact(d: Disk) {
    d.usage.Some? ==> d.usage.value == Total(d.files)
  }

  // How many bytes the cached total claims beyond those on disk.
  ghost function Excess(d: Disk): int {
    if d.usage.Some? then d.usage.value - Total(d.files) else 0
  }

  // From `before` to `d` a cached total was dropped or stayed as right or wrong as it was.
  ghost predicate Carries(before: Disk, d: Disk) {
    d.usage.None? || Excess(d) == Excess(before)
  }

  // Files are not directories.
  predicate Tidy(d: Disk) {
    d.files.Keys !! d.dirs
  }

  // The total `put` starts from: the cached one if there is one, or a scan.
  ghost function Known(d: Disk): int {
    if d.usage.Some? then d.usage.value else Total(d.files)
  }

  // The total `put` would record.
  ghost function NewSize(d: Disk, path: Path, content: Bytes): int {
    Known(d) - SizeAt(d.files, path) + |content|
  }

  /** What `put` compares with the limit is the real new total and whatever the cache claims beyond the real old one. */
  lemma NewSizeIs(d: Disk, path: Path, content: Bytes)
    ensures NewSize(d, path, content) == Total(d.files[path := content]) + Excess(d)
  {
    TotalPut(d.files, path, content);
  }

  // Every directory above `path`.
  function Ancestors(path: Path): set<Path> {
    set i | 0 <= i < |path| && path[i] == '/' :: path[..i]
  }

  predicate Exists(d: Disk, path: Path) {
    path in d.files || path in d.dirs
  }

  function Without(files: Files, paths: seq<Path>): Files {
    map p | p in files && p !in paths :: files[p]
  }

  const SCRATCH: Path := "/workspace/.scratch"

  predicate InScratch(path: Path) {
    SCRATCH + "/" <= path
  }

  // A disk that a crash inside `put` may leave: the target is whole, old or new,
  // the only other file is the temporary one, and the cache is gone or no worse.
  ghost predicate CrashSafe(before: Disk, d: Disk, path: Path, content: Bytes, temporary: Path) {
    && Carries(before, d)
    && (d.files - {temporary} == before.files || d.files == before.files[path := content])
  }

  // The same while the file is written: a total is recorded only once the new file is there.
  ghost predicate WhileWriting(before: Files, d: Disk, path: Path, content: Bytes, newSize: int, temporary: Path) {
    && (d.usage == None || (d.usage == Some(newSize) && d.files == before[path := content]))
    && (d.files - {temporary} == before || d.files == before[path := content])
  }

  lemma WritingIsSafe(before: Disk, d: Disk, path: Path, content: Bytes, temporary: Path)
    requires WhileWriting(before.files, d, path, content, NewSize(before, path, content), temporary)
    ensures CrashSafe(before, d, path, content, temporary)
  {
    NewSizeIs(before, path, content);
  }

  // ---- The operations on values ----

  // What `put` does once it passed its checks, up to the first operation that raises.
  function PublishSpec(hash: Bytes -> Digest, d: Disk, path: Path, content: Bytes, newSize: int, fault: Option<Stage>)
    : (Disk, Result<Digest, PutError>)
  {
    var made := d.(dirs := d.dirs + Ancestors(path));
    var replaced := made.(files := d.files[path := content]);
    if fault == Some(MakeDir) || (exists a | a in Ancestors(path) :: a in d.files) then (d, Err(Io))
    else if fault == Some(OpenTemporary) || fault == Some(WriteTemporary) || fault == Some(Replace) || path in made.dirs then (made, Err(Io))
    else if fault == Some(RecordUsage) then (replaced, Err(Io))
    else if fault == Some(Touch) then (replaced.(usage := Some(newSize)), Err(Io))
    else (replaced.(usage := Some(newSize)), Ok(hash(content)))
  }

  ghost function PutSpec(limit: int, hash: Bytes -> Digest, d: Disk, path: Path, content: Bytes, revision: Option<Digest>, create: bool, fault: Option<Stage>)
    : (Disk, Result<Digest, PutError>)
  {
    var newSize := NewSize(d, path, content);
    if create && Exists(d, path) then (d, Err(FileExists))
    else if revision.Some? && (path !in d.files || hash(d.files[path]) != revision.value) then (d, Err(RevisionConflict))
    else if newSize > limit then (d, Err(QuotaExceeded))
    else PublishSpec(hash, d.(usage := None), path, content, newSize, fault)
  }

  lemma PutShape(limit: int, hash: Bytes -> Digest, d: Disk, path: Path, content: Bytes, revision: Option<Digest>, create: bool, fault: Option<Stage>)
    requires Tidy(d)
    ensures var (after, r) := PutSpec(limit, hash, d, path, content, revision, create, fault);
      && Tidy(after) && Carries(d, after) && d.dirs <= after.dirs
      && (after.files == d.files || after.files == d.files[path := content])
      && (r.Ok? ==> after.files == d.files[path := content] && after.usage == Some(NewSize(d, path, content)) && NewSize(d, path, content) <= limit)
      && (r.Ok? ==> r.value == hash(content) && (create ==> !Exists(d, path)))
      && (r.Ok? && revision.Some? ==> path in d.files && hash(d.files[path]) == revision.value)
      && (create && Exists(d, path) ==> after == d)
  {
    assert path !in Ancestors(path);
    NewSizeIs(d, path, content);
  }

  // When a `put` is refused, and what each refusal leaves.
  lemma PutRefusals(limit: int, hash: Bytes -> Digest, d: Disk, path: Path, content: Bytes, revision: Option<Digest>, create: bool, fault: Option<Stage>)
    requires Tidy(d)
    ensures var (after, r) := PutSpec(limit, hash, d, path, content, revision, create, fault);
      && (r.Err? && !r.error.Io? ==> after == d)
      && (r == Err(FileExists) <==> create && Exists(d, path))
      && (r == Err(RevisionConflict) <==>
        !(create && Exists(d, path)) && revision.Some? && (path in d.files ==> hash(d.files[path]) != revision.value))
      && (r == Err(QuotaExceeded) <==>
        r != Err(FileExists) && r != Err(RevisionConflict) && Total(d.files[path := content]) + Excess(d) > limit)
      && (r == Err(Io) && fault.None? ==> after.files == d.files)
      && (fault == None && path !in d.dirs && Ancestors(path) !! d.files.Keys ==> r != Err(Io))
      && after.dirs <= d.dirs + Ancestors(path)
  {
    NewSizeIs(d, path, content);
    assert path !in Ancestors(path);
  }

  // Whether a `put` gets as far as replacing the file.
  ghost predicate Takes(limit: int, hash: Bytes -> Digest, d: Disk, path: Path, content: Bytes, revision: Option<Digest>, create: bool, fault: Option<Stage>) {
    && !(create && Exists(d, path))
    && (revision.Some? ==> path in d.files && hash(d.files[path]) == revision.value)
    && NewSize(d, path, content) <= limit
    && (forall a | a in Ancestors(path) :: a !in d.files) && path !in d.dirs
    && fault !in {Some(MakeDir), Some(OpenTemporary), Some(WriteTemporary), Some(Replace)}
  }

  /** A `put` changes its file exactly when it takes, and no other file ever; it succeeds when nothing raises later. */
  lemma PutTakes(limit: int, hash: Bytes -> Digest, d: Disk, path: Path, content: Bytes, revision: Option<Digest>, create: bool, fault: Option<Stage>)
    ensures var (after, r) := PutSpec(limit, hash, d, path, content, revision, create, fault);
      && after.files == (if Takes(limit, hash, d, path, content, revision, create, fault) then d.files[path := content] else d.files)
      && (r.Ok? <==> Takes(limit, hash, d, path, content, revision, create, fault) && fault.None?)
  {
    assert path !in Ancestors(path);
    if fault.Some? {
      match fault.value {
      case MakeDir => case OpenTemporary => case WriteTemporary => case Replace => case RecordUsage => case Touch =>
      }
    }
  }

  // The scratch directory goes with everything in it; without one nothing happens.
  function CleanSpec(d: Disk): Disk {
    if SCRATCH !in d.dirs then d
    else Disk(map p | p in d.files && !InScratch(p) :: d.files[p], (set p | p in d.dirs && !InScratch(p) && p != SCRATCH), None)
  }

  // The paths of a scratch directory, in the order they are removed.
  ghost predicate ScratchPaths(d: Disk, removed: seq<Path>) {
    forall p :: p in removed <==> (p in d.files && InScratch(p)) || (p in d.dirs && (InScratch(p) || p == SCRATCH))
  }

  // The disk once the first `i` paths are removed.
  function Partly(d: Disk, removed: seq<Path>, i: nat): Disk
    requires i <= |removed|
  {
    Disk(Without(d.files, removed[..i]), (set p | p in d.dirs && p !in removed[..i]), None)
  }

  // A command over the limit before it starts does not run.
  ghost function CommandSpec(limit: int, d: Disk, after: Files, afterDirs: set<Path>): Disk {
    if Total(d.files) > limit then d.(usage := None) else Disk(after, afterDirs, None)
  }

  class WorkspaceStore {
    const limit: int
    const hash: Bytes -> Digest
    var files: Files
    var dirs: set<Path>
    var usage: Option<int>

    function OnDisk(): Disk
      reads this
    {
      Disk(files, dirs, usage)
    }

    ghost predicate Valid()
      reads this
    {
      Tidy(OnDisk())
    }

    constructor (limit: int, hash: Bytes -> Digest)
      ensures Valid() && OnDisk() == Disk(map[], {"/workspace", SCRATCH}, None)
      ensures this.limit == limit && this.hash == hash
    {
      this.limit, this.hash := limit, hash;
      files, dirs, usage := map[], {"/workspace", SCRATCH}, None;
    }

    // The recursive scan of the workspace directory.
    method DirectorySize() returns (size: int)
      ensures size == Total(files)
    {
      size := 0;
      var left := files;
      while left != map[]
        invariant Total(files) == size + Total(left)
        decreases |left|
      {
        var p :| p in left;
        TotalRemove(left, p);
        size := size + |left[p]|;
        left := left - {p};
      }
    }

    // The cached total, or a scan.
    method KnownSize() returns (size: int)
      ensures size == Known(OnDisk())
    {
      if usage.Some? {
        return usage.value;
      }
      size := DirectorySize();
    }

    method InvalidateUsage()
      modifies this`usage
      ensures usage == None
    {
      usage := None;
    }

    method Record(size: int)
      modifies this`usage
      ensures usage == Some(size)
    {
      usage := Some(size);
    }

    /** Records the scan, and reports whether it is within the limit. */
    method EnforceLimit() returns (within: bool)
      modifies this`usage
      ensures usage == Some(Total(files))
      ensures within <==> Total(files) <= limit
    {
      var size := DirectorySize();
      Record(size);
      within := size <= limit;
    }

    // A name no file or directory has, standing for a name with a fresh uuid4.
    method NewTemporary(path: Path) returns (temporary: Path)
      ensures !Exists(OnDisk(), temporary) && temporary != path
    {
      var occupied := files.Keys + dirs + {path};
      temporary := path + ".tmp";
      ghost var tried: set<Path> := {};
      while temporary in occupied
        invariant tried <= occupied && forall t | t in tried :: |t| < |temporary|
        decreases |occupied| - |tried|
      {
        tried := tried + {temporary};
        SubsetCardinality(tried, occupied);
        temporary := temporary + "0";
      }
    }

    /**
     Writes one file under the files guard. `fault` is the file operation that
     raises, if any; `written` is how much of the temporary file is on disk when
     it does. `crashes` are all the disks on which the process may die.
     */
    method Put(path: Path, content: Bytes, revision: Option<Digest>, create: bool, fault: Option<Stage>, written: nat)
      returns (r: Result<Digest, PutError>, ghost temporary: Path, ghost crashes: seq<Disk>)
      requires Valid() && written <= |content|
      modifies this
      ensures Valid()
      ensures (OnDisk(), r) == PutSpec(limit, hash, old(OnDisk()), path, content, revision, create, fault)
      ensures Carries(old(OnDisk()), OnDisk())
      ensures r.Ok? ==>
        && files == old(files)[path := content]
        && usage == Some(Total(files) + Excess(old(OnDisk()))) && Total(files) + Excess(old(OnDisk())) <= limit
        && r.value == hash(content)
      ensures r.Ok? && create ==> !Exists(old(OnDisk()), path)
      ensures r.Ok? && revision.Some? ==> path in old(files) && hash(old(files)[path]) == revision.value
      ensures r.Err? && !r.error.Io? ==> OnDisk() == old(OnDisk())
      ensures r == Err(FileExists) <==> create && Exists(old(OnDisk()), path)
      ensures r == Err(RevisionConflict) <==>
        !(create && Exists(old(OnDisk()), path)) && revision.Some? &&
        (path in old(files) ==> hash(old(files)[path]) != revision.value)
      ensures r == Err(QuotaExceeded) <==>
        r != Err(FileExists) && r != Err(RevisionConflict) && Total(old(files)[path := content]) + Excess(old(OnDisk())) > limit
      ensures r == Err(Io) ==>
        (files == old(files) || files == old(files)[path := content]) && (fault.None? ==> files == old(files))
      ensures fault == None && path !in old(dirs) && Ancestors(path) !! old(files).Keys ==> r != Err(Io)
      ensures old(dirs) <= dirs <= old(dirs) + Ancestors(path)
      ensures !Exists(old(OnDisk()), temporary) && temporary != path
      ensures forall d | d in crashes :: CrashSafe(old(OnDisk()), d, path, content, temporary)
      ensures crashes != [] && crashes[0] == old(OnDisk()) && crashes[|crashes| - 1] == OnDisk()
    {
      PutShape(limit, hash, OnDisk(), path, content, revision, create, fault);
      PutRefusals(limit, hash, OnDisk(), path, content, revision, create, fault);
      NewSizeIs(OnDisk(), path, content);
      var name := NewTemporary(path);
      temporary := name;
      crashes := [OnDisk()];
      assert files - {temporary} == files;
      if create && (path in files || path in dirs) {
        return Err(FileExists), temporary, crashes;
      }
      if revision.Some? {
        if path !in files || hash(files[path]) != revision.value {
          return Err(RevisionConflict), temporary, crashes;
        }
      }
      var oldSize := if path in files then |files[path]| else 0;
      var size := KnownSize();
      var newSize := size - oldSize + |content|;
      assert newSize == NewSize(OnDisk(), path, content);
      if newSize > limit {
        return Err(QuotaExceeded), temporary, crashes;
      }
      // From here until the new total is recorded there is none, so it cannot be wrong.
      InvalidateUsage();
      ghost var rest;
      r, rest := Publish(path, content, newSize, name, fault, written);
      forall d | d in rest
        ensures CrashSafe(old(OnDisk()), d, path, content, temporary)
      {
        WritingIsSafe(old(OnDisk()), d, path, content, temporary);
      }
      crashes := crashes + rest;
    }

    // The part of `put` that touches the file: parent directories, temporary
    // file, replacement, accounting; the temporary file never survives a raise.
    method Publish(path: Path, content: Bytes, newSize: int, temporary: Path, fault: Option<Stage>, written: nat)
      returns (r: Result<Digest, PutError>, ghost crashes: seq<Disk>)
      requires Valid() && usage == None
      requires !Exists(OnDisk(), temporary) && temporary != path && written <= |content|
      modifies this
      ensures Valid()
      ensures (OnDisk(), r) == PublishSpec(hash, old(OnDisk()), path, content, newSize, fault)
      ensures forall d | d in crashes :: WhileWriting(old(files), d, path, content, newSize, temporary)
      ensures crashes != [] && crashes[0] == old(OnDisk()) && crashes[|crashes| - 1] == OnDisk()
    {
      ghost var before := files;
      assert before - {temporary} == before;
      crashes := [OnDisk()];
      if fault == Some(MakeDir) || (exists a | a in Ancestors(path) :: a in files) {
        return Err(Io), crashes;
      }
      assert path !in Ancestors(path);
      dirs := dirs + Ancestors(path);
      crashes := crashes + [OnDisk()];
      if fault == Some(OpenTemporary) {
        return Err(Io), crashes;
      }
      files := files[temporary := content[..written]];
      crashes := crashes + [OnDisk()];
      assert files - {temporary} == before;
      if fault != Some(WriteTemporary) {
        files := files[temporary := content];
        crashes := crashes + [OnDisk()];
        assert files - {temporary} == before;
      }
      if fault == Some(WriteTemporary) || fault == Some(Replace) || path in dirs {
        Unlink(temporary);
        crashes := crashes + [OnDisk()];
        return Err(Io), crashes;
      }
      files := (files - {temporary})[path := content];
      crashes := crashes + [OnDisk()];
      if fault == Some(RecordUsage) {
        return Err(Io), crashes;
      }
      Record(newSize);
      crashes := crashes + [OnDisk()];
      if fault == Some(Touch) {
        return Err(Io), crashes;
      }
      return Ok(hash(content)), crashes;
    }

    method Unlink(path: Path)
      modifies this`files
      ensures files == old(files) - {path}
    {
      files := files - {path};
    }

    /**
     Scratch cleanup: the cache is dropped before the first path goes, so every
     disk on which the process may die is exact from then on, however far the
     removal got. `removed` is the order in which the paths are removed.
     */
    method CleanScratch(removed: seq<Path>) returns (ghost crashes: seq<Disk>)
      requires Valid() && ScratchPaths(OnDisk(), removed)
      modifies this
      ensures Valid() && OnDisk() == CleanSpec(old(OnDisk()))
      ensures crashes != [] && crashes[0] == old(OnDisk()) && crashes[|crashes| - 1] == OnDisk()
      ensures SCRATCH in old(dirs) ==> |crashes| == |removed| + 2 && forall i | 0 <= i <= |removed| :: crashes[i + 1] == Partly(old(OnDisk()), removed, i)
      ensures forall i | 0 < i < |crashes| :: CacheExact(crashes[i])
      ensures SCRATCH in old(dirs) ==> SCRATCH !in dirs && usage == None
      ensures SCRATCH in old(dirs) ==> forall p :: p in files <==> p in old(files) && !InScratch(p)
      ensures forall p | p in files :: files[p] == old(files)[p]
      ensures SCRATCH !in old(dirs) ==> OnDisk() == old(OnDisk())
    {
      crashes := [OnDisk()];
      if SCRATCH !in dirs {
        return;
      }
      InvalidateUsage();
      crashes := crashes + [OnDisk()];
      assert OnDisk() == Partly(old(OnDisk()), removed, 0);
      for i := 0 to |removed|
        invariant OnDisk() == Partly(old(OnDisk()), removed, i)
        invariant |crashes| == i + 2 && crashes[0] == old(OnDisk())
        invariant forall j | 0 < j < |crashes| :: crashes[j].usage == None
        invariant forall j | 0 <= j <= i :: crashes[j + 1] == Partly(old(OnDisk()), removed, j)
      {
        files, dirs := files - {removed[i]}, dirs - {removed[i]};
        assert removed[..i + 1] == removed[..i] + [removed[i]];
        crashes := crashes + [OnDisk()];
      }
      assert removed[..|removed|] == removed;
    }

    /**
     One command under the execution guard. It may leave any files behind, and
     the totals recorded around it are dropped again on every way out.
     */
    method RunCommand(after: Files, afterDirs: set<Path>, raises: bool) returns (completed: bool)
      requires Valid() && after.Keys !! afterDirs
      modifies this
      ensures Valid() && OnDisk() == CommandSpec(limit, old(OnDisk()), after, afterDirs)
      ensures (files == old(files) && dirs == old(dirs) && !completed) || (files == after && dirs == afterDirs)
      ensures Total(old(files)) > limit ==> files == old(files) && !completed
      ensures Total(old(files)) <= limit ==> files == after && dirs == afterDirs
      ensures completed <==> Total(old(files)) <= limit && Total(after) <= limit && !raises
      ensures usage == None
    {
      InvalidateUsage();
      var within := EnforceLimit();
      if !within {
        InvalidateUsage();
        return false;
      }
      files, dirs := after, afterDirs;
      if raises {
        InvalidateUsage();
        return false;
      }
      completed := EnforceLimit();
      InvalidateUsage();
    }
  }
}
