/**
 * The generation-addressed snapshot store (src/opfs-directory-store.ts): what a commit writes, in
 * order, and what a restore makes of a store.
 */
module Snapshots {
  import opened Options
  import opened Json
  import opened ByteStrings
  import opened SnapshotPaths

  const MAX_FILES := 20_000
  const MAX_PAYLOAD_BYTES := 512 * 1024 * 1024
  const MAX_SAFE_INTEGER := 0x1F_FFFF_FFFF_FFFF

  datatype SnapshotFile = SnapshotFile(bytes: int, path: JsString, sha256: JsString)

  datatype Manifest = Manifest(
    schemaVersion: int, storeId: JsString, generationId: JsString, rootPath: JsString, createdAt: JsString,
    directories: seq<JsString>, files: seq<SnapshotFile>, payloadBytes: int)

  datatype Head = Head(schemaVersion: int, generationId: JsString, manifestSha256: JsString)

  /**
   * The environment: SHA-256, the JSON text of manifest and head and its parser, and the sort of
   * the manifest's directories.  Everything below is for all platforms.
   */
  datatype Platform = Platform(
    sha256: Bytes -> JsString,
    encodeManifest: Manifest -> Bytes,
    decodeManifest: Bytes -> Option<Manifest>,
    encodeHead: Head -> Bytes,
    decodeHead: Bytes -> Option<Head>,
    sorted: seq<JsString> -> seq<JsString>)

  predicate IsHexDigit(u: CodeUnit) { 48 <= u < 58 || 97 <= u < 103 }

  predicate IsDigest(s: JsString) {
    |s| == 64 && forall i :: 0 <= i < |s| ==> IsHexDigit(s[i])
  }

  predicate IsGenerationId(s: JsString) {
    |s| == 36 && forall i :: 0 <= i < |s| ==> IsHexDigit(s[i]) || s[i] == 45
  }

  predicate IsStoreIdUnit(u: CodeUnit) { 97 <= u < 123 || 48 <= u < 58 }

  /** validateStoreId does not throw. */
  predicate ValidStoreId(s: JsString) {
    && 1 <= |s| <= 64 && IsStoreIdUnit(s[0])
    && forall i :: 1 <= i < |s| ==> IsStoreIdUnit(s[i]) || s[i] in {46, 95, 45}
  }

  /** Parsing inverts printing, the empty file is no JSON, a digest has 64 digits, sorting permutes. */
  ghost predicate Lawful(p: Platform) {
    && (forall m :: p.decodeManifest(p.encodeManifest(m)) == Some(m))
    && (forall h :: p.decodeHead(p.encodeHead(h)) == Some(h))
    && p.decodeHead([]) == None
    && (forall b :: IsDigest(p.sha256(b)))
    && (forall s :: multiset(p.sorted(s)) == multiset(s))
  }

  // ---- Manifests ------------------------------------------------------------------------------

  predicate ValidFileEntry(f: SnapshotFile, directories: seq<JsString>) {
    && ValidAbsolutePath(f.path) && f.path != ROOT
    && 0 <= f.bytes <= MAX_SAFE_INTEGER
    && IsDigest(f.sha256)
    && ParentOf(f.path) in directories
  }

  function TotalBytes(files: seq<SnapshotFile>): int {
    if files == [] then 0 else TotalBytes(files[..|files| - 1]) + files[|files| - 1].bytes
  }

  predicate SameIdentity(m: Manifest, generationId: JsString, rootPath: JsString, storeId: JsString) {
    m.schemaVersion == 1 && m.generationId == generationId && m.rootPath == rootPath && m.storeId == storeId
  }

  /** The loop of validateManifest over the directories does not throw. */
  predicate ValidDirectories(directories: seq<JsString>) {
    && (forall i :: 0 <= i < |directories| ==> ValidAbsolutePath(directories[i]))
    && (forall i, j :: 0 <= i < j < |directories| ==> directories[i] != directories[j])
  }

  predicate EntriesValid(files: seq<SnapshotFile>, directories: seq<JsString>) {
    files == [] || (EntriesValid(files[..|files| - 1], directories) && ValidFileEntry(files[|files| - 1], directories))
  }

  lemma {:induction false} EntriesValidEach(files: seq<SnapshotFile>, directories: seq<JsString>)
    ensures EntriesValid(files, directories) <==> forall i :: 0 <= i < |files| ==> ValidFileEntry(files[i], directories)
  {
    if files != [] {
      var n := |files| - 1;
      EntriesValidEach(files[..n], directories);
      assert forall i :: 0 <= i < n ==> files[..n][i] == files[i];
    }
  }

  /** The loop of validateManifest over the files does not throw. */
  predicate ValidFiles(files: seq<SnapshotFile>, directories: seq<JsString>) {
    && EntriesValid(files, directories)
    && (forall i, j :: 0 <= i < j < |files| ==> files[i].path != files[j].path)
    && TotalBytes(files) <= MAX_PAYLOAD_BYTES
  }

  /** validateManifest does not throw. */
  predicate ValidManifest(m: Manifest, generationId: JsString, rootPath: JsString, storeId: JsString) {
    && SameIdentity(m, generationId, rootPath, storeId)
    && ValidSubtreeRoot(m.rootPath)
    && m.directories != [] && m.directories[0] == ROOT && |m.files| <= MAX_FILES
    && ValidDirectories(m.directories)
    && ValidFiles(m.files, m.directories)
    && m.payloadBytes == TotalBytes(m.files)
  }

  lemma {:induction false} TotalMonotone(files: seq<SnapshotFile>, n: nat)
    requires n <= |files| && forall i :: 0 <= i < |files| ==> files[i].bytes >= 0
    ensures 0 <= TotalBytes(files[..n]) <= TotalBytes(files)
    decreases |files|
  {
    var m := |files| - 1;
    if n < |files| {
      TotalMonotone(files[..m], n);
      assert files[..m][..n] == files[..n];
    } else if files != [] {
      TotalMonotone(files[..m], m);
      assert files[..m][..m] == files[..m] && files[..n] == files;
    }
  }

  lemma {:induction false} OverTheLimit(files: seq<SnapshotFile>, directories: seq<JsString>, n: nat)
    requires n <= |files| && TotalBytes(files[..n]) > MAX_PAYLOAD_BYTES
    ensures !ValidFiles(files, directories)
  {
    EntriesValidEach(files, directories);
    if EntriesValid(files, directories) { TotalMonotone(files, n); }
  }

  lemma {:induction false} InvalidEntry(files: seq<SnapshotFile>, directories: seq<JsString>, n: nat)
    requires n < |files| && !ValidFileEntry(files[n], directories)
    ensures !ValidFiles(files, directories)
  {
    EntriesValidEach(files, directories);
  }

  method ValidateDirectories(directories: seq<JsString>) returns (ok: bool, seen: set<JsString>)
    ensures ok == ValidDirectories(directories)
    ensures ok ==> forall path :: path in seen <==> path in directories
  {
    seen := {};
    for i := 0 to |directories|
      invariant forall path :: path in seen <==> path in directories[..i]
      invariant forall k :: 0 <= k < i ==> ValidAbsolutePath(directories[k])
      invariant forall j, k :: 0 <= j < k < i ==> directories[j] != directories[k]
    {
      if !ValidAbsolutePath(directories[i]) { return false, seen; }
      if directories[i] in seen { return false, seen; }
      assert forall k :: 0 <= k < i ==> directories[k] in directories[..i];
      assert directories[..i + 1] == directories[..i] + [directories[i]];
      seen := seen + {directories[i]};
    }
    assert directories[..|directories|] == directories;
    ok := true;
  }

  method ValidateEntry(file: SnapshotFile, ghost directories: seq<JsString>, seen: set<JsString>) returns (ok: bool)
    requires forall path :: path in seen <==> path in directories
    ensures ok == ValidFileEntry(file, directories)
  {
    if !ValidAbsolutePath(file.path) { return false; }
    if file.path == ROOT || file.bytes < 0 || file.bytes > MAX_SAFE_INTEGER || !IsDigest(file.sha256) { return false; }
    return ParentOf(file.path) in seen;
  }

  /** `paths` are the paths of the first `n` files, which differ. */
  ghost predicate Collected(paths: set<JsString>, files: seq<SnapshotFile>, n: nat) {
    && n <= |files|
    && (forall path :: path in paths ==> exists k :: 0 <= k < n && files[k].path == path)
    && (forall k :: 0 <= k < n ==> files[k].path in paths)
    && (forall j, k :: 0 <= j < k < n ==> files[j].path != files[k].path)
  }

  lemma {:induction false} CollectMore(paths: set<JsString>, files: seq<SnapshotFile>, directories: seq<JsString>,
                                       n: nat)
    requires Collected(paths, files, n) && n < |files|
    ensures files[n].path in paths ==> !ValidFiles(files, directories)
    ensures files[n].path !in paths ==> Collected(paths + {files[n].path}, files, n + 1)
  {
    if files[n].path in paths {
      var k :| 0 <= k < n && files[k].path == files[n].path;
    }
  }

  method ValidateFiles(files: seq<SnapshotFile>, ghost directories: seq<JsString>, seen: set<JsString>)
    returns (ok: bool, payloadBytes: int)
    requires forall path :: path in seen <==> path in directories
    ensures ok == ValidFiles(files, directories)
    ensures ok ==> payloadBytes == TotalBytes(files)
  {
    payloadBytes := 0;
    var paths: set<JsString> := {};
    for i := 0 to |files|
      invariant Collected(paths, files, i) && EntriesValid(files[..i], directories)
      invariant payloadBytes == TotalBytes(files[..i]) <= MAX_PAYLOAD_BYTES
    {
      var file := files[i];
      var valid := ValidateEntry(file, directories, seen);
      if !valid {
        InvalidEntry(files, directories, i);
        return false, payloadBytes;
      }
      CollectMore(paths, files, directories, i);
      if file.path in paths { return false, payloadBytes; }
      paths := paths + {file.path};
      payloadBytes := payloadBytes + file.bytes;
      assert files[..i + 1][..i] == files[..i];
      if payloadBytes > MAX_PAYLOAD_BYTES {
        OverTheLimit(files, directories, i + 1);
        return false, payloadBytes;
      }
    }
    assert files[..|files|] == files;
    ok := true;
  }

  method ValidateManifest(m: Manifest, generationId: JsString, rootPath: JsString, storeId: JsString)
    returns (ok: bool)
    ensures ok == ValidManifest(m, generationId, rootPath, storeId)
  {
    if !SameIdentity(m, generationId, rootPath, storeId) { return false; }
    if !ValidSubtreeRoot(m.rootPath) { return false; }
    if m.directories == [] || m.directories[0] != ROOT || |m.files| > MAX_FILES { return false; }
    var valid, seen := ValidateDirectories(m.directories);
    if !valid { return false; }
    var payloadBytes;
    valid, payloadBytes := ValidateFiles(m.files, m.directories, seen);
    return valid && m.payloadBytes == payloadBytes;
  }

  // ---- Stores ---------------------------------------------------------------------------------

  /** Names below the directory of one store. */
  type Path = seq<JsString>

  /** The directory of one store in the origin-private file system. */
  datatype Store = Store(dirs: set<Path>, files: map<Path, Bytes>)

  const EMPTY_STORE := Store({}, map[])

  /**
   * What a commit does to a store: getDirectoryHandle and getFileHandle with `create`, and the
   * close of a writable, which replaces the contents at once.
   */
  datatype Op = MakeDirectory(path: Path) | MakeFile(path: Path) | Replace(path: Path, bytes: Bytes)

  function Apply(s: Store, op: Op): Store {
    match op
    case MakeDirectory(path) => s.(dirs := s.dirs + {path})
    case MakeFile(path) => if path in s.files then s else s.(files := s.files[path := []])
    case Replace(path, bytes) => s.(files := s.files[path := bytes])
  }

  function Execute(s: Store, ops: seq<Op>): Store {
    if ops == [] then s else Apply(Execute(s, ops[..|ops| - 1]), ops[|ops| - 1])
  }

  const GENERATIONS: JsString := Ascii("generations")
  const PAYLOAD: JsString := Ascii("payload")
  const MANIFEST: JsString := Ascii("manifest.json")
  const HEAD: JsString := Ascii("HEAD.json")

  const HEAD_PATH: Path := [HEAD]

  function GenerationPath(generationId: JsString): Path { [GENERATIONS, generationId] }

  function ManifestPath(generationId: JsString): Path { [GENERATIONS, generationId, MANIFEST] }

  function PayloadPath(generationId: JsString): Path { [GENERATIONS, generationId, PAYLOAD] }

  // ---- Commits --------------------------------------------------------------------------------

  /** A directory of the guest with everything below, in the order in which the commit visits it. */
  datatype Listing =
    | Done
    | FileEntry(name: JsString, bytes: Bytes, rest: Listing)
    | DirEntry(name: JsString, children: Listing, rest: Listing)
    | OtherEntry(name: JsString, rest: Listing)

  /** The local variables that `visit` updates, and whether it threw. */
  datatype Progress = Progress(
    ops: seq<Op>, directories: seq<JsString>, files: seq<SnapshotFile>, payloadBytes: nat, failed: bool)

  function WriteFileOps(path: Path, bytes: Bytes): seq<Op> {
    [MakeFile(path), Replace(path, bytes)]
  }

  function WithFile(p: Platform, acc: Progress, path: JsString, destination: Path, bytes: Bytes): Progress {
    acc.(ops := acc.ops + WriteFileOps(destination, bytes),
         files := acc.files + [SnapshotFile(|bytes|, path, p.sha256(bytes))],
         payloadBytes := acc.payloadBytes + |bytes|)
  }

  function WithDirectory(acc: Progress, path: JsString, destination: Path): Progress {
    acc.(ops := acc.ops + [MakeDirectory(destination)], directories := acc.directories + [path])
  }

  function Visit(p: Platform, listing: Listing, relativePath: JsString, destination: Path, acc: Progress): Progress {
    match listing
    case Done => acc
    case FileEntry(name, bytes, rest) =>
      if !ValidSegment(name) || |acc.files| >= MAX_FILES || acc.payloadBytes + |bytes| > MAX_PAYLOAD_BYTES then
        acc.(failed := true)
      else
        Visit(p, rest, relativePath, destination,
              WithFile(p, acc, RelativeChild(relativePath, name), destination + [name], bytes))
    case DirEntry(name, children, rest) =>
      if !ValidSegment(name) || |acc.directories| + |acc.files| >= MAX_FILES then acc.(failed := true)
      else
        var child := RelativeChild(relativePath, name);
        var inner := Visit(p, children, child, destination + [name], WithDirectory(acc, child, destination + [name]));
        if inner.failed then inner else Visit(p, rest, relativePath, destination, inner)
    case OtherEntry(_, _) => acc.(failed := true)
  }

  datatype CommitOptions = CommitOptions(
    storeId: JsString, rootPath: JsString, generationId: JsString, createdAt: JsString, listing: Listing)

  /** Everything a commit does to the store, in order, and its manifest if it does not throw. */
  datatype Plan = Plan(ops: seq<Op>, manifest: Option<Manifest>)

  function OpeningOps(generationId: JsString): seq<Op> {
    [MakeDirectory([]), MakeDirectory([GENERATIONS]), MakeDirectory(GenerationPath(generationId)),
     MakeDirectory(PayloadPath(generationId))]
  }

  function HeadFor(p: Platform, m: Manifest): Head {
    Head(1, m.generationId, p.sha256(p.encodeManifest(m)))
  }

  function ClosingOps(p: Platform, m: Manifest): seq<Op> {
    WriteFileOps(ManifestPath(m.generationId), p.encodeManifest(m))
      + WriteFileOps(HEAD_PATH, p.encodeHead(HeadFor(p, m)))
  }

  function Visited(p: Platform, o: CommitOptions): Progress {
    Visit(p, o.listing, ROOT, PayloadPath(o.generationId), Progress(OpeningOps(o.generationId), [ROOT], [], 0, false))
  }

  function ManifestOf(o: CommitOptions, v: Progress): Manifest {
    Manifest(1, o.storeId, o.generationId, o.rootPath, o.createdAt, v.directories, v.files, v.payloadBytes)
  }

  function PlanCommit(p: Platform, o: CommitOptions): Plan {
    if !ValidSubtreeRoot(o.rootPath) || !ValidStoreId(o.storeId) then Plan([], None)
    else
      var v := Visited(p, o);
      var m := ManifestOf(o, v);
      if v.failed || !ValidManifest(m, o.generationId, o.rootPath, o.storeId) then Plan(v.ops, None)
      else Plan(v.ops + ClosingOps(p, m), Some(m))
  }

  // ---- The guest's directory ------------------------------------------------------------------

  /** A guest directory: the paths of its directories and files. */
  datatype Guest = Guest(dirs: set<JsString>, files: map<JsString, Bytes>)

  /** createDir: the parent exists and the path does not. */
  predicate CanCreateDir(g: Guest, path: JsString) {
    SLASH in path && path !in g.dirs && path !in g.files && ParentOf(path) in g.dirs
  }

  predicate CanWriteFile(g: Guest, path: JsString) {
    SLASH in path && path !in g.dirs && ParentOf(path) in g.dirs
  }

  /** createWasmerDirectory below `parent`; a directory that exists already is taken as it is. */
  function MakeDirs(g: Guest, parent: JsString, segs: seq<JsString>): (Guest, bool)
    decreases |segs|
  {
    if segs == [] then (g, true)
    else
      var current := RelativeChild(parent, segs[0]);
      if CanCreateDir(g, current) then MakeDirs(g.(dirs := g.dirs + {current}), current, segs[1..])
      else if parent in g.dirs && current in g.dirs then MakeDirs(g, current, segs[1..])
      else (g, false)
  }

  function CreateWasmerDirectory(g: Guest, path: JsString): (Guest, bool) {
    if ValidAbsolutePath(path) then MakeDirs(g, ROOT, PathSegments(path)) else (g, false)
  }

  // ---- Restores -------------------------------------------------------------------------------

  /** A guest after a restore, whether the restore completed, and the files it wrote. */
  datatype Restoration = Restoration(guest: Guest, ok: bool, written: seq<Written>)

  datatype Written = Written(path: JsString, bytes: Bytes, entry: SnapshotFile)

  function RestoreDirs(g: Guest, rootPath: JsString, directories: seq<JsString>): (Guest, bool)
    decreases |directories|
  {
    if directories == [] then (g, true)
    else
      var (g', ok) := CreateWasmerDirectory(g, MountedPath(rootPath, directories[0]));
      if ok then RestoreDirs(g', rootPath, directories[1..]) else (g', false)
  }

  /** getNestedDirectory and readFile find the file. */
  predicate Readable(s: Store, base: Path, segs: seq<JsString>) {
    && (forall i :: 0 <= i < |segs| ==> ValidSegment(segs[i]) && base + segs[..i] in s.dirs)
    && base + segs in s.files
  }

  predicate Verified(p: Platform, f: SnapshotFile, bytes: Bytes) {
    |bytes| == f.bytes && p.sha256(bytes) == f.sha256
  }

  function WithWritten(r: Restoration, target: JsString, bytes: Bytes, f: SnapshotFile): Restoration {
    r.(guest := r.guest.(files := r.guest.files[target := bytes]), written := r.written + [Written(target, bytes, f)])
  }

  /** The loop over the manifest's files; the n-th file is read from `view(from + n)`. */
  function RestoreFiles(p: Platform, view: nat -> Store, from: nat, m: Manifest, files: seq<SnapshotFile>,
                        r: Restoration): Restoration
    decreases |files|
  {
    if files == [] then r
    else
      var f := files[0];
      var s := view(from);
      var target := MountedPath(m.rootPath, f.path);
      if PathSegments(f.path) == [] || !Readable(s, PayloadPath(m.generationId), PathSegments(f.path))
      then r.(ok := false)
      else
        var bytes := s.files[PayloadPath(m.generationId) + PathSegments(f.path)];
        if !Verified(p, f, bytes) || !CanWriteFile(r.guest, target) then r.(ok := false)
        else
          RestoreFiles(p, view, from + 1, m, files[1..], WithWritten(r, target, bytes, f))
  }

  function WrittenBytes(written: seq<Written>): nat {
    if written == [] then 0 else WrittenBytes(written[..|written| - 1]) + |written[|written| - 1].bytes|
  }

  /** The head of the store, if it is there and valid. */
  function ReadHead(p: Platform, s: Store): Option<Head> {
    if [] !in s.dirs || HEAD_PATH !in s.files then None
    else match p.decodeHead(s.files[HEAD_PATH])
      case None => None
      case Some(h) =>
        if h.schemaVersion == 1 && IsGenerationId(h.generationId) && IsDigest(h.manifestSha256) then Some(h) else None
  }

  /** The manifest a head names, if it is there, hashes as the head says and is valid. */
  function ReadManifest(p: Platform, s: Store, head: Head, rootPath: JsString, storeId: JsString): Option<Manifest> {
    var id := head.generationId;
    if [GENERATIONS] !in s.dirs || GenerationPath(id) !in s.dirs || ManifestPath(id) !in s.files then None
    else
      var bytes := s.files[ManifestPath(id)];
      if p.sha256(bytes) != head.manifestSha256 then None
      else match p.decodeManifest(bytes)
        case None => None
        case Some(m) => if ValidManifest(m, id, rootPath, storeId) then Some(m) else None
  }

  /**
   * restoreDirectoryTreeFromOpfs.  Commits may run between its reads: the n-th thing it reads is
   * read from `view(n)`.
   */
  function Restore(p: Platform, view: nat -> Store, rootPath: JsString, storeId: JsString, guest: Guest): Restoration {
    var failed := Restoration(guest, false, []);
    if !ValidSubtreeRoot(rootPath) || !ValidStoreId(storeId) then failed
    else match ReadHead(p, view(0))
      case None => failed
      case Some(head) =>
        match ReadManifest(p, view(1), head, rootPath, storeId)
        case None => failed
        case Some(m) =>
          if PayloadPath(m.generationId) !in view(2).dirs then failed
          else
            var (g, ok) := RestoreDirs(guest, m.rootPath, p.sorted(m.directories));
            if !ok then Restoration(g, false, [])
            else
              var r := RestoreFiles(p, view, 3, m, m.files, Restoration(g, true, []));
              if WrittenBytes(r.written) != m.payloadBytes then r.(ok := false) else r
  }
}
