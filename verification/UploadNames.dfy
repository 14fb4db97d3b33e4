/**
 The names that uploads get: the plain one while it is free, otherwise the first
 free one with a number before its extension.
 */
module UploadNames {
  import opened Wrappers
  import opened Workspace
  import opened Uploads

  // ---- A name and its extension ----

  // The last dot of the name, with something before and behind it.
  ghost predicate ExtensionAt(name: string, i: nat) {
    && 0 < i < |name| - 1 && name[i] == '.'
    && forall k | i < k < |name| :: name[k] != '.'
  }

  lemma {:induction false} LastDotIs(name: string)
    ensures LastDot(name) >= 0 ==> name[LastDot(name)] == '.'
    ensures forall k | LastDot(name) < k < |name| :: name[k] != '.'
  {
    if name != [] && name[|name| - 1] != '.' {
      LastDotIs(name[..|name| - 1]);
    }
  }

  /** A name is its stem and its extension, which begins at the last dot, unless that is the first or last character. */
  lemma NameSplits(name: string)
    ensures Stem(name) + Suffix(name) == name
    ensures forall i: nat | ExtensionAt(name, i) :: Stem(name) == name[..i] && Suffix(name) == name[i..]
    ensures (forall i: nat :: !ExtensionAt(name, i)) ==> Suffix(name) == ""
  {
    LastDotIs(name);
    var i := LastDot(name);
    if 0 < i < |name| - 1 {
      assert ExtensionAt(name, i);
    }
  }

  // The number that a text of digits stands for.
  function Value(s: string): int {
    if s == [] then 0 else 10 * Value(s[..|s| - 1]) + (s[|s| - 1] as int - '0' as int)
  }

  lemma {:induction false} DecimalStandsFor(n: nat)
    ensures Value(Decimal(n)) == n && forall c | c in Decimal(n) :: '0' <= c <= '9'
    ensures n > 0 ==> Decimal(n)[0] != '0'
  {
    if n < 10 {
      assert Decimal(n)[..0] == [];
    } else {
      DecimalStandsFor(n / 10);
      assert Decimal(n)[..|Decimal(n)| - 1] == Decimal(n / 10);
    }
  }

  // ---- The first free name ----

  // The candidates from the `n`-th to the one before the `k`-th are taken.
  ghost predicate Taken(d: Disk, name: string, n: nat, k: nat) {
    forall j | n <= j < k :: Exists(d, Candidate(name, "_", j))
  }

  lemma {:induction false} FindsFirst(d: Disk, name: string, n: nat) returns (k: nat)
    requires Tried(name, "_", n) <= d.files.Keys + d.dirs
    ensures n <= k && FindFrom(d, name, "_", None, n) == Some(Candidate(name, "_", k)) && Taken(d, name, n, k)
    decreases |d.files.Keys + d.dirs| - n
  {
    if Exists(d, Candidate(name, "_", n)) {
      TriedNext(name, "_", n, d.files.Keys + d.dirs);
      k := FindsFirst(d, name, n + 1);
    } else {
      k := n;
    }
  }

  /**
   An upload is stored under its own name if that is free, and otherwise under the
   first free one of `stem_2.ext`, `stem_3.ext` and so on.
   */
  lemma StoredUnder(d: Disk, name: string) returns (k: nat)
    ensures var path := Find(d, name, "_", None);
      && path == Some(if k == 0 then UPLOADS + name else UPLOADS + Stem(name) + "_" + Decimal(k + 1) + Suffix(name))
      && !Exists(d, path.value) && forall j | 0 <= j < k :: Exists(d, Candidate(name, "_", j))
    ensures !Exists(d, UPLOADS + name) <==> k == 0
  {
    assert Tried(name, "_", 0) == {};
    k := FindsFirst(d, name, 0);
    assert Taken(d, name, 0, k);
    assert k > 0 ==> Exists(d, Candidate(name, "_", 0));
  }

  // ---- A whole batch ----

  // Different plain names, none of them taken.
  ghost predicate AllFree(d: Disk, uploads: seq<Upload>, from: nat) {
    && (forall i | from <= i < |uploads| :: !Exists(d, UPLOADS + uploads[i].name))
    && (forall i, j | 0 <= i < j < |uploads| :: uploads[i].name != uploads[j].name)
    && (forall i | 0 <= i < |uploads| :: '/' !in uploads[i].name)
  }

  ghost predicate Plain(uploads: seq<Upload>, paths: seq<Path>) {
    |paths| <= |uploads| && forall i | 0 <= i < |paths| :: paths[i] == UPLOADS + uploads[i].name
  }

  lemma NoDirectoryOf(name: string, other: string)
    requires '/' !in name
    ensures UPLOADS + other !in Ancestors(UPLOADS + name)
  {
    var path := UPLOADS + name;
    assert forall x | |UPLOADS| <= x < |path| :: path[x] == name[x - |UPLOADS|] && path[x] in name;
    assert |UPLOADS + other| >= |UPLOADS|;
  }

  lemma StaysFree(limit: int, hash: Bytes -> Digest, d: Disk, uploads: seq<Upload>, fault: Option<Stage>, i: nat)
    requires Tidy(d) && i < |uploads| && AllFree(d, uploads, i)
    ensures var path := UPLOADS + uploads[i].name; var (after, put) := PutSpec(limit, hash, d, path, uploads[i].content, None, true, fault);
      Tidy(after) && AllFree(after, uploads, i + 1)
  {
    var path := UPLOADS + uploads[i].name;
    PutShape(limit, hash, d, path, uploads[i].content, None, true, fault);
    PutRefusals(limit, hash, d, path, uploads[i].content, None, true, fault);
    var after := PutSpec(limit, hash, d, path, uploads[i].content, None, true, fault).0;
    forall j | i < j < |uploads|
      ensures !Exists(after, UPLOADS + uploads[j].name)
    {
      NoDirectoryOf(uploads[i].name, uploads[j].name);
      SameName(uploads[i].name, uploads[j].name);
    }
  }

  lemma SameName(a: string, b: string)
    requires a != b
    ensures UPLOADS + a != UPLOADS + b
  {
    assert (UPLOADS + a)[|UPLOADS|..] == a && (UPLOADS + b)[|UPLOADS|..] == b;
  }

  lemma {:induction false} BatchKeepsNames(limit: int, hash: Bytes -> Digest, d: Disk, uploads: seq<Upload>, faults: seq<Option<Stage>>, created: seq<Path>, stops: Option<nat>)
    requires |faults| == |uploads| && Tidy(d) && Plain(uploads, created) && AllFree(d, uploads, |created|)
    ensures var r := UploadsFrom(limit, hash, d, uploads, faults, created, stops).1;
      r.Ok? ==> |r.value| == |uploads| && Plain(uploads, r.value)
    decreases |uploads| - |created|
  {
    var i := |created|;
    if i < |uploads| {
      var k := StoredUnder(d, uploads[i].name);
      StaysFree(limit, hash, d, uploads, faults[i], i);
      var path := UPLOADS + uploads[i].name;
      BatchKeepsNames(limit, hash, PutSpec(limit, hash, d, path, uploads[i].content, None, true, faults[i]).0, uploads, faults, created + [path], stops);
    }
  }

  /** A batch of different names, none of them taken, is stored under exactly these names. */
  lemma NamesAreKept(limit: int, hash: Bytes -> Digest, d: Disk, uploads: seq<Upload>, faults: seq<Option<Stage>>, stops: Option<nat>)
    requires |faults| == |uploads| && Tidy(d) && AllFree(d, uploads, 0)
    ensures var r := UploadsFrom(limit, hash, d, uploads, faults, [], stops).1;
      r.Ok? ==> |r.value| == |uploads| && forall i | 0 <= i < |uploads| :: r.value[i] == UPLOADS + uploads[i].name
  {
    BatchKeepsNames(limit, hash, d, uploads, faults, [], stops);
  }

  // ---- What a migration writes ----

  // The candidates before the `k`-th are files with other contents.
  ghost predicate OthersHold(d: Disk, name: string, content: Bytes, k: nat) {
    forall j | 0 <= j < k :: HoldsOther(d, Candidate(name, "_legacy", j), content)
  }

  ghost predicate HoldsOther(d: Disk, path: Path, content: Bytes) {
    path in d.files && path !in d.dirs && d.files[path] != content
  }

  ghost predicate Usable(d: Disk, path: Path, content: Bytes) {
    !Exists(d, path) || (path in d.files && path !in d.dirs && d.files[path] == content)
  }

  lemma FindHere(d: Disk, name: string, content: Bytes, n: nat)
    requires Tried(name, "_legacy", n) <= d.files.Keys + d.dirs && Usable(d, Candidate(name, "_legacy", n), content)
    ensures FindFrom(d, name, "_legacy", Some(content), n) == Some(Candidate(name, "_legacy", n))
  {
  }

  lemma FindLater(d: Disk, name: string, content: Bytes, n: nat)
    requires Tried(name, "_legacy", n) <= d.files.Keys + d.dirs && HoldsOther(d, Candidate(name, "_legacy", n), content)
    ensures Tried(name, "_legacy", n + 1) <= d.files.Keys + d.dirs
    ensures FindFrom(d, name, "_legacy", Some(content), n) == FindFrom(d, name, "_legacy", Some(content), n + 1)
  {
    TriedNext(name, "_legacy", n, d.files.Keys + d.dirs);
  }

  lemma {:induction false} FindsReusable(d: Disk, name: string, content: Bytes, n: nat, k: nat)
    requires Tried(name, "_legacy", n) <= d.files.Keys + d.dirs && n <= k && OthersHold(d, name, content, k)
    requires Usable(d, Candidate(name, "_legacy", k), content)
    ensures FindFrom(d, name, "_legacy", Some(content), n) == Some(Candidate(name, "_legacy", k))
    decreases k - n
  {
    if n < k {
      FindLater(d, name, content, n);
      FindsReusable(d, name, content, n + 1, k);
    } else {
      FindHere(d, name, content, k);
    }
  }

  /**
   A legacy upload is aliased to the first candidate that is free or already holds
   its bytes. One that holds them is taken as it is and nothing is written, so a
   migration that was cut short does not make second copies.
   */
  lemma AdoptsExisting(limit: int, hash: Bytes -> Digest, d: Disk, item: Legacy, fault: Option<Stage>, k: nat)
    requires item.data.Some? && OthersHold(d, BaseName(item.path), item.data.value, k)
    ensures var path := Candidate(BaseName(item.path), "_legacy", k); var (after, target) := AdoptSpec(limit, hash, d, item, fault);
      && (path in d.files && path !in d.dirs && d.files[path] == item.data.value ==> after == d && target == Ok(path))
      && (!Exists(d, path) ==>
        && after == PutSpec(limit, hash, d, path, item.data.value, None, true, fault).0
        && (target.Ok? <==> Takes(limit, hash, d, path, item.data.value, None, true, fault) && fault.None?)
        && (target.Ok? ==> target.value == path))
  {
    var name, content := BaseName(item.path), item.data.value;
    var path := Candidate(name, "_legacy", k);
    assert Tried(name, "_legacy", 0) == {};
    if Usable(d, path, content) {
      FindsReusable(d, name, content, 0, k);
      PutTakes(limit, hash, d, path, content, None, true, fault);
    }
  }

  /** A legacy upload is migrated under the last component of its path. */
  lemma {:induction false} BaseNameIs(path: Path)
    ensures '/' !in BaseName(path) && |BaseName(path)| <= |path|
    ensures var k := |path| - |BaseName(path)|; path[k..] == BaseName(path) && (k > 0 ==> path[k - 1] == '/')
  {
    if path != [] && path[|path| - 1] != '/' {
      var n := |path| - 1;
      var front := path[..n];
      BaseNameIs(front);
      var k := n - |BaseName(front)|;
      assert path[k..] == front[k..] + [path[n]];
    } else {
      assert path[|path|..] == [];
    }
  }
}
