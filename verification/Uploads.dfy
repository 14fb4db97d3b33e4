/**
 Uploads, migration and browser saves of one conversation, on top of the
 workspace store. All of them run under the exclusive files guard.
 */
module Uploads {
  import opened Wrappers
  import opened Workspace

  // ---- Candidate names ----

  function Decimal(n: nat): (s: string)
    ensures if n < 10 then |s| == 1 else |s| >= 2
  {
    if n < 10 then ["0123456789"[n]] else Decimal(n / 10) + ["0123456789"[n % 10]]
  }

  lemma {:induction false} DecimalInjective(m: nat, n: nat)
    requires Decimal(m) == Decimal(n)
    ensures m == n
    decreases m
  {
    var s, t := Decimal(m), Decimal(n);
    assert s[|s| - 1] == t[|t| - 1];
    if m >= 10 && n >= 10 {
      assert s[..|s| - 1] == Decimal(m / 10) && t[..|t| - 1] == Decimal(n / 10);
      DecimalInjective(m / 10, n / 10);
    }
  }

  // Position of the last dot of `name`, or -1.
  function LastDot(name: string): (i: int)
    ensures -1 <= i < |name|
  {
    if name == [] then -1
    else if name[|name| - 1] == '.' then |name| - 1
    else LastDot(name[..|name| - 1])
  }

  function Stem(name: string): string {
    var i := LastDot(name);
    if 0 < i < |name| - 1 then name[..i] else name
  }

  function Suffix(name: string): string {
    var i := LastDot(name);
    if 0 < i < |name| - 1 then name[i..] else ""
  }

  const UPLOADS: Path := "/workspace/uploads/"

  // The `k`-th name tried: the plain one, then `<stem><infix>2<suffix>` and so on.
  function Candidate(name: string, infix: string, k: nat): Path {
    if k == 0 then UPLOADS + name else UPLOADS + Stem(name) + infix + Decimal(k + 1) + Suffix(name)
  }

  lemma SameMiddle(a: string, x: string, y: string, b: string)
    requires a + x + b == a + y + b
    ensures x == y
  {
    assert |x| == |y|;
    assert (a + x + b)[|a|..|a| + |x|] == x;
    assert (a + y + b)[|a|..|a| + |y|] == y;
  }

  /** Different attempts give different names, so only finitely many can be taken. */
  lemma CandidatesDiffer(name: string, infix: string, j: nat, k: nat)
    requires j != k && infix != ""
    ensures Candidate(name, infix, j) != Candidate(name, infix, k)
  {
    assert Stem(name) + Suffix(name) == name;
    if j == 0 || k == 0 {
    } else if Candidate(name, infix, j) == Candidate(name, infix, k) {
      SameMiddle(UPLOADS + Stem(name) + infix, Decimal(j + 1), Decimal(k + 1), Suffix(name));
      DecimalInjective(j + 1, k + 1);
    }
  }

  ghost function Tried(name: string, infix: string, n: nat): set<Path> {
    set k | 0 <= k < n :: Candidate(name, infix, k)
  }

  lemma NotTried(name: string, infix: string, n: nat)
    requires infix != ""
    ensures Candidate(name, infix, n) !in Tried(name, infix, n)
  {
    forall k | 0 <= k < n
      ensures Candidate(name, infix, k) != Candidate(name, infix, n)
    {
      CandidatesDiffer(name, infix, k, n);
    }
  }

  lemma TriedGrows(name: string, infix: string, n: nat)
    ensures Tried(name, infix, n + 1) == Tried(name, infix, n) + {Candidate(name, infix, n)}
  {
  }

  lemma {:induction false} TriedSize(name: string, infix: string, n: nat)
    requires infix != ""
    ensures |Tried(name, infix, n)| == n
  {
    if n == 0 {
      assert Tried(name, infix, 0) == {};
    } else {
      TriedSize(name, infix, n - 1);
      NotTried(name, infix, n - 1);
      TriedGrows(name, infix, n - 1);
    }
  }

  // The last component of a legacy path.
  function BaseName(path: Path): string {
    if path == [] || path[|path| - 1] == '/' then "" else BaseName(path[..|path| - 1]) + [path[|path| - 1]]
  }

  const LEGACY: Path := "/inputs/uploads/"

  datatype Upload = Upload(name: string, content: Bytes)

  // A file of the old agent state; `None` is a deleted one.
  datatype Legacy = Legacy(path: Path, data: Option<Bytes>)
  {
    predicate Live() { LEGACY <= path && data.Some? }
  }

  datatype SaveError = ReadOnly | NotEditable | NotFound | Refused(error: PutError)

  const MAX_EDIT: int := 1024 * 1024

  predicate Writable(path: Path) {
    "/workspace/" <= path && path != SCRATCH && !InScratch(path)
  }

  lemma TriedNext(name: string, infix: string, n: nat, occupied: set<Path>)
    requires infix != "" && Tried(name, infix, n) <= occupied && Candidate(name, infix, n) in occupied
    ensures Tried(name, infix, n + 1) == Tried(name, infix, n) + {Candidate(name, infix, n)} <= occupied
    ensures n < |occupied|
  {
    TriedGrows(name, infix, n);
    TriedSize(name, infix, n + 1);
    SubsetCardinality(Tried(name, infix, n + 1), occupied);
  }

  ghost predicate IsCandidate(name: string, infix: string, path: Path) {
    exists k: nat :: path == Candidate(name, infix, k)
  }

  // The uploads `created` are on disk, each at its own path that was unused in
  // `start`, and every file of `start` is as it was.
  ghost predicate Published(start: Disk, files: Files, uploads: seq<Upload>, created: seq<Path>) {
    && |created| <= |uploads|
    && (forall i, j | 0 <= i < j < |created| :: created[i] != created[j])
    && (forall i | 0 <= i < |created| ::
      && !Exists(start, created[i])
      && created[i] in files && files[created[i]] == uploads[i].content
      && IsCandidate(uploads[i].name, "_", created[i]))
    && Without(files, created) == start.files
  }

  lemma PublishedNext(start: Disk, files: Files, uploads: seq<Upload>, created: seq<Path>, path: Path, k: nat)
    requires Published(start, files, uploads, created) && |created| < |uploads|
    requires path !in files && path !in start.dirs && path == Candidate(uploads[|created|].name, "_", k)
    ensures Published(start, files[path := uploads[|created|].content], uploads, created + [path])
  {
    assert path !in start.files;
    assert IsCandidate(uploads[|created|].name, "_", path);
    assert Without(files[path := uploads[|created|].content], created + [path]) == Without(files, created);
  }

  // Whether or not the last write reached the disk, taking the batch back restores the start.
  lemma Unpublished(start: Disk, before: Files, now: Files, uploads: seq<Upload>, created: seq<Path>, path: Path)
    requires Published(start, before, uploads, created) && path !in before
    requires now.Keys <= before.Keys + {path} && before.Keys <= now.Keys
    requires forall p | p in before :: now[p] == before[p]
    ensures Without(now, created + [path]) == start.files
  {
    assert Without(now, created + [path]) == Without(before, created);
  }

  datatype MigrateError = CandidateIsDirectory | WriteFailed(error: PutError) | AliasesNotSaved

  // No file of `start` was touched.
  ghost predicate Extends(start: Files, files: Files) {
    forall p | p in start :: p in files && files[p] == start[p]
  }

  // A live upload that `known` lacks is aliased to a file holding exactly its bytes.
  ghost predicate ItemMigrated(known: map<Path, Path>, aliases: map<Path, Path>, files: Files, item: Legacy) {
    item.Live() ==>
      && item.path in aliases
      && (item.path !in known ==>
        && aliases[item.path] in files && files[aliases[item.path]] == item.data.value
        && IsCandidate(BaseName(item.path), "_legacy", aliases[item.path]))
  }

  ghost predicate LiveAmong(items: seq<Legacy>, n: nat, path: Path)
    requires n <= |items|
  {
    exists i | 0 <= i < n :: items[i].Live() && items[i].path == path
  }

  // The first `n` items are migrated, and `known` grew by their paths only.
  ghost predicate Migrated(known: map<Path, Path>, aliases: map<Path, Path>, files: Files, items: seq<Legacy>, n: nat)
    requires n <= |items|
  {
    && (forall legacy | legacy in known :: legacy in aliases && aliases[legacy] == known[legacy])
    && (forall legacy | legacy in aliases :: legacy in known || LiveAmong(items, n, legacy))
    && (forall i | 0 <= i < n :: ItemMigrated(known, aliases, files, items[i]))
  }

  ghost predicate DistinctPaths(items: seq<Legacy>) {
    forall i, j | 0 <= i < j < |items| :: items[i].path != items[j].path
  }

  lemma LiveAmongMore(items: seq<Legacy>, n: nat)
    requires n < |items|
    ensures forall path | LiveAmong(items, n, path) :: LiveAmong(items, n + 1, path)
  {
  }

  lemma MigratedSkip(known: map<Path, Path>, aliases: map<Path, Path>, files: Files, items: seq<Legacy>, n: nat)
    requires n < |items| && Migrated(known, aliases, files, items, n) && DistinctPaths(items)
    requires !items[n].Live() || items[n].path in aliases
    ensures Migrated(known, aliases, files, items, n + 1)
  {
    LiveAmongMore(items, n);
    assert !LiveAmong(items, n, items[n].path);
  }

  lemma ItemStays(known: map<Path, Path>, aliases: map<Path, Path>, before: Files, files: Files, item: Legacy, path: Path, target: Path)
    requires ItemMigrated(known, aliases, before, item) && Extends(before, files) && path !in aliases
    ensures ItemMigrated(known, aliases[path := target], files, item)
  {
  }

  lemma MigratedNext(known: map<Path, Path>, aliases: map<Path, Path>, before: Files, files: Files, items: seq<Legacy>,
                     n: nat, target: Path)
    requires n < |items| && Migrated(known, aliases, before, items, n) && Extends(before, files)
    requires items[n].Live() && items[n].path !in aliases
    requires target in files && files[target] == items[n].data.value
    requires IsCandidate(BaseName(items[n].path), "_legacy", target)
    ensures Migrated(known, aliases[items[n].path := target], files, items, n + 1)
  {
    var path := items[n].path;
    LiveAmongMore(items, n);
    assert LiveAmong(items, n + 1, path) && path !in known;
    ItemsStay(known, aliases, before, files, items, n, target);
  }

  lemma ItemsStay(known: map<Path, Path>, aliases: map<Path, Path>, before: Files, files: Files, items: seq<Legacy>, n: nat, target: Path)
    requires n < |items| && (forall i | 0 <= i < n :: ItemMigrated(known, aliases, before, items[i])) && Extends(before, files)
    requires items[n].Live() && items[n].path !in aliases
    requires target in files && files[target] == items[n].data.value
    requires IsCandidate(BaseName(items[n].path), "_legacy", target)
    ensures forall i | 0 <= i < n + 1 :: ItemMigrated(known, aliases[items[n].path := target], files, items[i])
  {
    forall i | 0 <= i < n
      ensures ItemMigrated(known, aliases[items[n].path := target], files, items[i])
    {
      ItemStays(known, aliases, before, files, items[i], items[n].path, target);
    }
  }

  // ---- The operations on values ----

  // The first candidate from the `n`-th on that is free, or that already holds
  // `reuse`; `None` if comparing a candidate fails because it is a directory.
  ghost function FindFrom(d: Disk, name: string, infix: string, reuse: Option<Bytes>, n: nat): (found: Option<Path>)
    requires infix != "" && Tried(name, infix, n) <= d.files.Keys + d.dirs
    ensures reuse.None? ==> found.Some? && !Exists(d, found.value)
    decreases |d.files.Keys + d.dirs| - n
  {
    var path := Candidate(name, infix, n);
    if !Exists(d, path) then Some(path)
    else if reuse.Some? && path in d.dirs then None
    else if reuse.Some? && d.files[path] == reuse.value then Some(path)
    else TriedNext(name, infix, n, d.files.Keys + d.dirs); FindFrom(d, name, infix, reuse, n + 1)
  }

  ghost function Find(d: Disk, name: string, infix: string, reuse: Option<Bytes>): (found: Option<Path>)
    requires infix != ""
    ensures reuse.None? ==> found.Some? && !Exists(d, found.value)
  {
    assert Tried(name, infix, 0) == {};
    FindFrom(d, name, infix, reuse, 0)
  }

  // The roll-back of a batch; `stops` is the unlink that raises, if any.
  function RollBackSpec(d: Disk, created: seq<Path>, stops: Option<nat>): Disk {
    if stops.Some? && stops.value < |created| then d.(files := Without(d.files, created[..stops.value]))
    else Disk(Without(d.files, created), d.dirs, None)
  }

  // The uploads after those already at `created`.
  ghost function UploadsFrom(limit: int, hash: Bytes -> Digest, d: Disk, uploads: seq<Upload>, faults: seq<Option<Stage>>,
                             created: seq<Path>, stops: Option<nat>): (Disk, Result<seq<Path>, PutError>)
    requires |faults| == |uploads| && |created| <= |uploads|
    decreases |uploads| - |created|
  {
    var i := |created|;
    if i == |uploads| then (d, Ok(created))
    else
      var path := Find(d, uploads[i].name, "_", None).value;
      var (after, put) := PutSpec(limit, hash, d, path, uploads[i].content, None, true, faults[i]);
      if put.Err? then (RollBackSpec(after, created + [path], stops), Err(put.error))
      else UploadsFrom(limit, hash, after, uploads, faults, created + [path], stops)
  }

  lemma {:induction false} FindIsCandidate(d: Disk, name: string, infix: string, reuse: Option<Bytes>, n: nat) returns (k: nat)
    requires infix != "" && Tried(name, infix, n) <= d.files.Keys + d.dirs && FindFrom(d, name, infix, reuse, n).Some?
    ensures FindFrom(d, name, infix, reuse, n).value == Candidate(name, infix, k)
    decreases |d.files.Keys + d.dirs| - n
  {
    k := n;
    if FindFrom(d, name, infix, reuse, n) != Some(Candidate(name, infix, n)) {
      TriedNext(name, infix, n, d.files.Keys + d.dirs);
      k := FindIsCandidate(d, name, infix, reuse, n + 1);
    }
  }

  lemma FoundAt(d: Disk, name: string, infix: string, reuse: Option<Bytes>) returns (k: nat)
    requires infix != "" && Find(d, name, infix, reuse).Some?
    ensures Find(d, name, infix, reuse).value == Candidate(name, infix, k)
  {
    assert Tried(name, infix, 0) == {};
    k := FindIsCandidate(d, name, infix, reuse, 0);
  }

  // What a batch leaves: all uploads at new paths of their own, or the files from before.
  ghost predicate BatchDone(limit: int, start: Disk, after: Disk, r: Result<seq<Path>, PutError>, uploads: seq<Upload>, stops: Option<nat>) {
    && Tidy(after) && start.dirs <= after.dirs
    && (r.Ok? ==> |r.value| == |uploads| && Published(start, after.files, uploads, r.value) && Excess(after) == Excess(start))
    && (r.Ok? && uploads != [] ==> after.usage.Some? && after.usage.value <= limit)
    && (r.Err? && stops.None? ==> after.files == start.files && after.usage == None)
  }

  lemma {:induction false} UploadsContinue(limit: int, hash: Bytes -> Digest, start: Disk, d: Disk, uploads: seq<Upload>, faults: seq<Option<Stage>>, created: seq<Path>, stops: Option<nat>)
    requires |faults| == |uploads| && Tidy(d) && start.dirs <= d.dirs && Published(start, d.files, uploads, created)
    requires Excess(d) == Excess(start) && (created != [] ==> d.usage.Some? && d.usage.value <= limit)
    ensures var (after, r) := UploadsFrom(limit, hash, d, uploads, faults, created, stops);
      BatchDone(limit, start, after, r, uploads, stops)
    decreases |uploads| - |created|
  {
    var i := |created|;
    if i < |uploads| {
      OnePublished(limit, hash, start, d, uploads, faults[i], created);
      var path := Find(d, uploads[i].name, "_", None).value;
      var (after, put) := PutSpec(limit, hash, d, path, uploads[i].content, None, true, faults[i]);
      if put.Ok? {
        UploadsContinue(limit, hash, start, after, uploads, faults, created + [path], stops);
      }
    }
  }

  // One more upload is published, or can be taken back with the others.
  lemma OnePublished(limit: int, hash: Bytes -> Digest, start: Disk, d: Disk, uploads: seq<Upload>, fault: Option<Stage>, created: seq<Path>)
    requires Tidy(d) && start.dirs <= d.dirs && Published(start, d.files, uploads, created) && |created| < |uploads|
    ensures var upload := uploads[|created|]; var path := Find(d, upload.name, "_", None).value;
      var (after, put) := PutSpec(limit, hash, d, path, upload.content, None, true, fault);
      && Tidy(after) && start.dirs <= after.dirs && Carries(d, after)
      && (put.Ok? ==> Published(start, after.files, uploads, created + [path]) && after.usage.Some? && after.usage.value <= limit)
      && (put.Err? ==> Without(after.files, created + [path]) == start.files)
  {
    var upload := uploads[|created|];
    var path := Find(d, upload.name, "_", None).value;
    var k := FoundAt(d, upload.name, "_", None);
    PutShape(limit, hash, d, path, upload.content, None, true, fault);
    PublishedNext(start, d.files, uploads, created, path, k);
    var (after, put) := PutSpec(limit, hash, d, path, upload.content, None, true, fault);
    Unpublished(start, d.files, after.files, uploads, created, path);
  }

  lemma UploadsShape(limit: int, hash: Bytes -> Digest, d: Disk, uploads: seq<Upload>, faults: seq<Option<Stage>>, stops: Option<nat>)
    requires |faults| == |uploads| && Tidy(d)
    ensures var (after, r) := UploadsFrom(limit, hash, d, uploads, faults, [], stops); BatchDone(limit, d, after, r, uploads, stops)
  {
    assert Without(d.files, []) == d.files;
    UploadsContinue(limit, hash, d, d, uploads, faults, [], stops);
  }

  ghost function AdoptSpec(limit: int, hash: Bytes -> Digest, d: Disk, item: Legacy, fault: Option<Stage>): (Disk, Result<Path, MigrateError>)
    requires item.data.Some?
  {
    var candidate := Find(d, BaseName(item.path), "_legacy", item.data);
    if candidate.None? then (d, Err(CandidateIsDirectory))
    else if candidate.value in d.files then (d, Ok(candidate.value))
    else
      var (after, put) := PutSpec(limit, hash, d, candidate.value, item.data.value, None, true, fault);
      if put.Err? then (after, Err(WriteFailed(put.error))) else (after, Ok(candidate.value))
  }

  ghost function MigrateFrom(limit: int, hash: Bytes -> Digest, d: Disk, found: map<Path, Path>, items: seq<Legacy>, faults: seq<Option<Stage>>)
    : (Disk, Result<map<Path, Path>, MigrateError>)
    requires |faults| == |items|
    decreases |items|
  {
    if items == [] then (d, Ok(found))
    else if !items[0].Live() || items[0].path in found then MigrateFrom(limit, hash, d, found, items[1..], faults[1..])
    else
      var (after, target) := AdoptSpec(limit, hash, d, items[0], faults[0]);
      if target.Err? then (after, Err(target.error))
      else MigrateFrom(limit, hash, after, found[items[0].path := target.value], items[1..], faults[1..])
  }

  lemma MigrateNext(limit: int, hash: Bytes -> Digest, d: Disk, found: map<Path, Path>, items: seq<Legacy>, faults: seq<Option<Stage>>, i: nat)
    requires |faults| == |items| && i < |items|
    ensures MigrateFrom(limit, hash, d, found, items[i..], faults[i..]) ==
      if !items[i].Live() || items[i].path in found then MigrateFrom(limit, hash, d, found, items[i + 1..], faults[i + 1..])
      else
        var (after, target) := AdoptSpec(limit, hash, d, items[i], faults[i]);
        if target.Err? then (after, Err(target.error))
        else MigrateFrom(limit, hash, after, found[items[i].path := target.value], items[i + 1..], faults[i + 1..])
  {
    assert items[i..][1..] == items[i + 1..] && faults[i..][1..] == faults[i + 1..];
  }

  ghost function MigrateSpec(limit: int, hash: Bytes -> Digest, d: Disk, aliases: map<Path, Path>, items: seq<Legacy>, faults: seq<Option<Stage>>, saveFails: bool)
    : (Disk, Result<map<Path, Path>, MigrateError>)
    requires |faults| == |items|
  {
    var (after, r) := MigrateFrom(limit, hash, d, aliases, items, faults);
    if r.Ok? && r.value != aliases && saveFails then (after, Err(AliasesNotSaved)) else (after, r)
  }

  ghost function SaveSpec(limit: int, hash: Bytes -> Digest, decodes: Bytes -> bool, d: Disk, path: Path, content: Bytes, revision: Digest, fault: Option<Stage>)
    : (Disk, Result<Digest, SaveError>)
  {
    if !Writable(path) then (d, Err(ReadOnly))
    else if !Editable(content) then (d, Err(NotEditable))
    else if path !in d.files then (d, Err(NotFound))
    else if !Editable(d.files[path]) || !decodes(d.files[path]) then (d, Err(NotEditable))
    else
      var (after, put) := PutSpec(limit, hash, d, path, content, Some(revision), false, fault);
      (after, if put.Err? then Err(Refused(put.error)) else Ok(put.value))
  }

  // ---- A batch that is undone ----

  // The disks on which the process may die during a roll-back.
  function RollBackDisks(d: Disk, created: seq<Path>, stops: Option<nat>): seq<Disk> {
    if stops.Some? && stops.value < |created| then seq(stops.value + 1, i requires 0 <= i <= stops.value => Undone(d, created, i))
    else seq(|created| + 1, i requires 0 <= i <= |created| => Undone(d, created, i)) + [RollBackSpec(d, created, stops)]
  }

  function Undone(d: Disk, created: seq<Path>, i: nat): Disk
    requires i <= |created|
  {
    d.(files := Without(d.files, created[..i]))
  }

  class ThreadFiles {
    const store: WorkspaceStore
    const decodes: Bytes -> bool
    var aliases: map<Path, Path>

    ghost predicate Valid()
      reads this, store
    {
      store.Valid() && forall legacy | legacy in aliases :: LEGACY <= legacy
    }

    constructor (store: WorkspaceStore, decodes: Bytes -> bool)
      requires store.Valid()
      ensures Valid() && this.store == store && this.decodes == decodes && aliases == map[]
    {
      this.store, this.decodes, this.aliases := store, decodes, map[];
    }

    // The first candidate that is free, or that already holds `reuse`; `None`
    // when reading a candidate to compare it fails because it is a directory.
    method FindCandidate(name: string, infix: string, reuse: Option<Bytes>) returns (candidate: Option<Path>, ghost k: nat)
      requires infix != ""
      ensures candidate == Find(store.OnDisk(), name, infix, reuse)
      ensures candidate.Some? ==> candidate.value == Candidate(name, infix, k)
      ensures candidate.Some? ==>
        !Exists(store.OnDisk(), candidate.value) ||
        (reuse.Some? && candidate.value in store.files && store.files[candidate.value] == reuse.value)
      ensures candidate.None? ==> reuse.Some? && Candidate(name, infix, k) in store.dirs
      ensures forall p | p in Tried(name, infix, k) :: Exists(store.OnDisk(), p) && (reuse.Some? ==> p in store.files ==> store.files[p] != reuse.value)
    {
      var n := 0;
      k := 0;
      var path := Candidate(name, infix, n);
      var occupied := store.files.Keys + store.dirs;
      while path in occupied
        invariant k == n && path == Candidate(name, infix, n)
        invariant Tried(name, infix, n) <= occupied
        invariant FindFrom(store.OnDisk(), name, infix, reuse, n) == Find(store.OnDisk(), name, infix, reuse)
        invariant reuse.Some? ==> forall p | p in Tried(name, infix, n) && p in store.files :: store.files[p] != reuse.value
        decreases |occupied| - n
      {
        if reuse.Some? {
          if path in store.dirs {
            return None, k;
          }
          if store.files[path] == reuse.value {
            return Some(path), k;
          }
        }
        TriedNext(name, infix, n, occupied);
        n := n + 1;
        k := n;
        path := Candidate(name, infix, n);
      }
      return Some(path), k;
    }

    /**
     Publishes a batch. On success every upload sits at its own path that was
     unused before and nothing else changed; on a failure at any write the files
     are exactly those from before the call, unless an unlink raises as well.
     `crashes` and `undoing` are the disks on which the process may die while it
     writes and while it takes the batch back.
     */
    method AddUploads(uploads: seq<Upload>, faults: seq<Option<Stage>>, stops: Option<nat>)
      returns (r: Result<seq<Path>, PutError>, ghost crashes: seq<Disk>, ghost undoing: seq<Disk>)
      requires Valid() && |faults| == |uploads|
      modifies store
      ensures Valid()
      ensures (store.OnDisk(), r) == UploadsFrom(store.limit, store.hash, old(store.OnDisk()), uploads, faults, [], stops)
      ensures r.Ok? ==> |r.value| == |uploads| && Published(old(store.OnDisk()), store.files, uploads, r.value)
      ensures r.Ok? ==> Excess(store.OnDisk()) == Excess(old(store.OnDisk()))
      ensures r.Ok? && uploads != [] ==> store.usage.Some? && store.usage.value <= store.limit
      ensures r.Err? && stops.None? ==> store.files == old(store.files) && store.usage == None
      ensures old(store.dirs) <= store.dirs
      ensures forall d | d in crashes :: Carries(old(store.OnDisk()), d)
      ensures r.Err? ==> undoing != [] && Carries(old(store.OnDisk()), undoing[0]) && undoing[|undoing| - 1] == store.OnDisk()
      ensures r.Err? ==> exists created :: undoing == RollBackDisks(undoing[0], created, stops)
    {
      var created: seq<Path> := [];
      crashes, undoing := [], [];
      UploadsShape(store.limit, store.hash, store.OnDisk(), uploads, faults, stops);
      for i := 0 to |uploads|
        invariant Valid() && Excess(store.OnDisk()) == Excess(old(store.OnDisk()))
        invariant forall d | d in crashes :: Carries(old(store.OnDisk()), d)
        invariant |created| == i
        invariant UploadsFrom(store.limit, store.hash, store.OnDisk(), uploads, faults, created, stops) ==
          UploadsFrom(store.limit, store.hash, old(store.OnDisk()), uploads, faults, [], stops)
      {
        var path, put, during := PublishOne(uploads[i], faults[i]);
        crashes := crashes + during;
        if put.Err? {
          undoing := RollBack(created + [path], stops);
          return Err(put.error), crashes, undoing;
        }
        created := created + [path];
      }
      return Ok(created), crashes, undoing;
    }

    // Writes one upload under the first free candidate name.
    method PublishOne(upload: Upload, fault: Option<Stage>) returns (path: Path, put: Result<Digest, PutError>, ghost during: seq<Disk>)
      requires Valid()
      modifies store
      ensures Valid()
      ensures path == Find(old(store.OnDisk()), upload.name, "_", None).value
      ensures (store.OnDisk(), put) == PutSpec(store.limit, store.hash, old(store.OnDisk()), path, upload.content, None, true, fault)
      ensures forall d | d in during :: Carries(old(store.OnDisk()), d)
      ensures Carries(old(store.OnDisk()), store.OnDisk()) && (put.Ok? ==> store.usage.Some?)
    {
      var candidate, _ := FindCandidate(upload.name, "_", None);
      path := candidate.value;
      ghost var temporary;
      put, temporary, during := store.Put(path, upload.content, None, true, fault, 0);
    }

    // Removes what a failed batch had written, and forces a fresh scan, unless
    // the unlink `stops` raises.
    method RollBack(created: seq<Path>, stops: Option<nat>) returns (ghost disks: seq<Disk>)
      modifies store`files, store`usage
      ensures store.OnDisk() == RollBackSpec(old(store.OnDisk()), created, stops)
      ensures disks == RollBackDisks(old(store.OnDisk()), created, stops)
      ensures disks[0] == old(store.OnDisk()) && disks[|disks| - 1] == store.OnDisk()
    {
      disks := [store.OnDisk()];
      assert Without(store.files, created[..0]) == store.files;
      for i := 0 to |created|
        invariant store.files == Without(old(store.files), created[..i]) && store.usage == old(store.usage)
        invariant stops.Some? ==> i <= stops.value
        invariant |disks| == i + 1 && forall j | 0 <= j <= i :: disks[j] == Undone(old(store.OnDisk()), created, j)
      {
        if stops == Some(i) {
          return disks;
        }
        store.Unlink(created[i]);
        assert created[..i + 1] == created[..i] + [created[i]];
        disks := disks + [store.OnDisk()];
      }
      assert created[..|created|] == created;
      store.InvalidateUsage();
      disks := disks + [store.OnDisk()];
    }

    // Finds or creates a workspace file with exactly `content`.
    method Adopt(name: string, content: Bytes, fault: Option<Stage>) returns (target: Result<Path, MigrateError>, ghost k: nat)
      requires Valid()
      modifies store
      ensures Valid() && Extends(old(store.files), store.files)
      ensures forall path | BaseName(path) == name :: (store.OnDisk(), target) == AdoptSpec(store.limit, store.hash, old(store.OnDisk()), Legacy(path, Some(content)), fault)
      ensures target.Ok? ==>
        target.value in store.files && store.files[target.value] == content && target.value == Candidate(name, "_legacy", k)
    {
      var candidate, n := FindCandidate(name, "_legacy", Some(content));
      k := n;
      if candidate.None? {
        return Err(CandidateIsDirectory), k;
      }
      if candidate.value !in store.files {
        var put, _, _ := store.Put(candidate.value, content, None, true, fault, 0);
        if put.Err? {
          return Err(WriteFailed(put.error)), k;
        }
      }
      return Ok(candidate.value), k;
    }

    /**
     Gives every live legacy upload that has no alias yet a workspace file with
     exactly its bytes. No file is overwritten and no alias is ever re-pointed;
     when every live upload has an alias already, nothing at all changes.
     */
    method Migrate(items: seq<Legacy>, faults: seq<Option<Stage>>, saveFails: bool)
      returns (r: Result<map<Path, Path>, MigrateError>)
      requires Valid() && DistinctPaths(items) && |faults| == |items|
      modifies this`aliases, store
      ensures Valid()
      ensures (store.OnDisk(), r) == MigrateSpec(store.limit, store.hash, old(store.OnDisk()), old(aliases), items, faults, saveFails)
      ensures Extends(old(store.files), store.files)
      ensures r.Ok? ==> r.value == aliases && Migrated(old(aliases), aliases, store.files, items, |items|)
      ensures r.Ok? ==> forall i | 0 <= i < |items| && "/inputs/uploads/" <= items[i].path && items[i].data.Some? ::
        && items[i].path in aliases
        && (items[i].path !in old(aliases) ==> Current(store.files, aliases[items[i].path]) == items[i].data)
      ensures r.Err? ==> aliases == old(aliases)
      ensures (forall i | 0 <= i < |items| && items[i].Live() :: items[i].path in old(aliases)) ==>
        r.Ok? && aliases == old(aliases) && store.OnDisk() == old(store.OnDisk())
    {
      var found := aliases;
      var changed := false;
      for i := 0 to |items|
        invariant Valid() && aliases == old(aliases)
        invariant Extends(old(store.files), store.files)
        invariant Migrated(old(aliases), found, store.files, items, i)
        invariant !changed ==> found == old(aliases) && store.OnDisk() == old(store.OnDisk())
        invariant changed ==> found != old(aliases)
        invariant MigrateFrom(store.limit, store.hash, store.OnDisk(), found, items[i..], faults[i..]) ==
          MigrateFrom(store.limit, store.hash, old(store.OnDisk()), old(aliases), items, faults)
        invariant changed ==> exists j | 0 <= j < i :: items[j].Live() && items[j].path !in old(aliases)
      {
        MigrateNext(store.limit, store.hash, store.OnDisk(), found, items, faults, i);
        if !items[i].Live() || items[i].path in found {
          MigratedSkip(old(aliases), found, store.files, items, i);
        } else {
          ghost var before := store.files;
          var target, k := Adopt(BaseName(items[i].path), items[i].data.value, faults[i]);
          if target.Err? {
            return Err(target.error);
          }
          assert IsCandidate(BaseName(items[i].path), "_legacy", target.value);
          MigratedNext(old(aliases), found, before, store.files, items, i, target.value);
          found, changed := found[items[i].path := target.value], true;
        }
      }
      if changed && saveFails {
        return Err(AliasesNotSaved);
      }
      aliases := found;
      return Ok(found);
    }

    /**
     Replaces the text of one workspace file, but only the very content whose
     digest the editor presents.
     */
    method Save(path: Path, content: Bytes, revision: Digest, fault: Option<Stage>) returns (r: Result<Digest, SaveError>)
      requires Valid()
      modifies store
      ensures Valid()
      ensures (store.OnDisk(), r) == SaveSpec(store.limit, store.hash, decodes, old(store.OnDisk()), path, content, revision, fault)
      ensures r.Ok? ==> Writable(path) && Editable(content) && r.value == store.hash(content)
      ensures r == Err(ReadOnly) <==> !("/workspace/" <= path) || path == SCRATCH || SCRATCH + "/" <= path
      ensures r != Err(ReadOnly) && (|content| > 1_048_576 || 0 in content) ==> r == Err(NotEditable)
      ensures r == Err(NotFound) <==> r != Err(ReadOnly) && |content| <= 1_048_576 && 0 !in content && path !in old(store.files)
      ensures r.Err? && !r.error.Refused? ==> store.OnDisk() == old(store.OnDisk())
      ensures r.Ok? ==> Current(store.files, path) == Some(content)
      ensures store.files == old(store.files) || store.files == old(store.files)[path := content]
      ensures store.files != old(store.files) || r.Ok? ==>
        path in old(store.files) && Editable(old(store.files)[path]) && store.hash(old(store.files)[path]) == revision
      ensures (Writable(path) && Editable(content) && path in old(store.files) && Editable(old(store.files)[path]) &&
        decodes(old(store.files)[path]) && store.hash(old(store.files)[path]) != revision) ==>
          r == Err(Refused(RevisionConflict)) && store.OnDisk() == old(store.OnDisk())
    {
      if !Writable(path) {
        return Err(ReadOnly);
      }
      if !Editable(content) {
        return Err(NotEditable);
      }
      // Aliases rename legacy paths only, so the file read is the one saved.
      assert path !in aliases by {
        assert path[1] == 'w' && LEGACY[1] == 'i';
      }
      if path !in store.files {
        return Err(NotFound);
      }
      var original := store.files[path];
      if !Editable(original) || !decodes(original) {
        return Err(NotEditable);
      }
      var put, _, _ := store.Put(path, content, Some(revision), false, fault, 0);
      if put.Err? {
        return Err(Refused(put.error));
      }
      return Ok(put.value);
    }
  }

  predicate Editable(content: Bytes) {
    |content| <= MAX_EDIT && 0 !in content
  }

  function Current(files: Files, path: Path): Option<Bytes> {
    if path in files then Some(files[path]) else None
  }

  // ---- Migration happens once ----

  ghost predicate AllAliased(found: map<Path, Path>, items: seq<Legacy>) {
    forall item | item in items && item.Live() :: item.path in found
  }

  lemma {:induction false} MigrateAliases(limit: int, hash: Bytes -> Digest, d: Disk, found: map<Path, Path>, items: seq<Legacy>, faults: seq<Option<Stage>>)
    requires |faults| == |items|
    ensures var r := MigrateFrom(limit, hash, d, found, items, faults).1;
      r.Ok? ==> AllAliased(r.value, items) && forall legacy | legacy in found :: legacy in r.value && r.value[legacy] == found[legacy]
    decreases |items|
  {
    if items != [] {
      assert items == [items[0]] + items[1..];
      if !items[0].Live() || items[0].path in found {
        MigrateAliases(limit, hash, d, found, items[1..], faults[1..]);
      } else {
        var (after, target) := AdoptSpec(limit, hash, d, items[0], faults[0]);
        if target.Ok? {
          MigrateAliases(limit, hash, after, found[items[0].path := target.value], items[1..], faults[1..]);
        }
      }
    }
  }

  lemma {:induction false} NothingToMigrate(limit: int, hash: Bytes -> Digest, d: Disk, found: map<Path, Path>, items: seq<Legacy>, faults: seq<Option<Stage>>)
    requires |faults| == |items| && AllAliased(found, items)
    ensures MigrateFrom(limit, hash, d, found, items, faults) == (d, Ok(found))
    decreases |items|
  {
    if items != [] {
      assert items[0] in items;
      NothingToMigrate(limit, hash, d, found, items[1..], faults[1..]);
    }
  }

  /** After one migration a second one changes neither aliases nor disk, whatever became of the disk in between and whatever would fail. */
  lemma MigratesOnce(limit: int, hash: Bytes -> Digest, d: Disk, aliases: map<Path, Path>, items: seq<Legacy>, faults: seq<Option<Stage>>, saveFails: bool,
                     later: Disk, faults': seq<Option<Stage>>, saveFails': bool)
    requires |faults| == |items| == |faults'| && MigrateSpec(limit, hash, d, aliases, items, faults, saveFails).1.Ok?
    ensures var known := MigrateSpec(limit, hash, d, aliases, items, faults, saveFails).1.value;
      MigrateSpec(limit, hash, later, known, items, faults', saveFails') == (later, Ok(known))
  {
    MigrateAliases(limit, hash, d, aliases, items, faults);
    NothingToMigrate(limit, hash, later, MigrateFrom(limit, hash, d, aliases, items, faults).1.value, items, faults');
  }

  /** A migration, a command that may change any file, and a second migration, which leaves the disk as the command left it. */
  method MigrateAgain(files: ThreadFiles, items: seq<Legacy>, faults: seq<Option<Stage>>, edited: Files, dirs: set<Path>)
    returns (first: Result<map<Path, Path>, MigrateError>, second: Result<map<Path, Path>, MigrateError>)
    requires files.Valid() && DistinctPaths(items) && |faults| == |items| && edited.Keys !! dirs
    modifies files`aliases, files.store
    ensures files.Valid()
    ensures first.Ok? ==> second == first && files.aliases == first.value
    ensures var migrated := MigrateSpec(files.store.limit, files.store.hash, old(files.store.OnDisk()), old(files.aliases), items, faults, false).0;
      first.Ok? ==> files.store.OnDisk() == CommandSpec(files.store.limit, migrated, edited, dirs)
  {
    first := files.Migrate(items, faults, false);
    ghost var start, known := old(files.store.OnDisk()), old(files.aliases);
    var _ := files.store.RunCommand(edited, dirs, false);
    if first.Ok? {
      MigratesOnce(files.store.limit, files.store.hash, start, known, items, faults, false, files.store.OnDisk(), faults, true);
    }
    second := files.Migrate(items, faults, true);
  }
}
