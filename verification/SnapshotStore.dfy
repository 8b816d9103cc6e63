/** The loops of src/opfs-directory-store.ts over a disk and a guest directory that change in place. */
module SnapshotStore {
  import opened Options
  import opened Json
  import opened ByteStrings
  import opened SnapshotPaths
  import opened Snapshots

  /** The directory of one store, with every operation done on it since it was opened. */
  class Disk {
    var store: Store
    ghost const initial: Store
    ghost var log: seq<Op>

    ghost predicate Valid()
      reads this
    {
      store == Execute(initial, log)
    }

    constructor (store: Store)
      ensures Valid() && this.store == store && initial == store && log == []
    {
      this.store, this.initial, this.log := store, store, [];
    }

    method Perform(op: Op)
      requires Valid()
      modifies this
      ensures Valid() && log == old(log) + [op]
    {
      store := Apply(store, op);
      log := log + [op];
    }

    method GetDirectory(path: Path)
      requires Valid()
      modifies this
      ensures Valid() && log == old(log) + [MakeDirectory(path)]
    {
      Perform(MakeDirectory(path));
    }

    method WriteFile(path: Path, bytes: Bytes)
      requires Valid()
      modifies this
      ensures Valid() && log == old(log) + WriteFileOps(path, bytes)
    {
      Perform(MakeFile(path));
      Perform(Replace(path, bytes));
      assert old(log) + [MakeFile(path)] + [Replace(path, bytes)] == old(log) + WriteFileOps(path, bytes);
    }
  }

  /** A commit, with the variables that its traversal updates. */
  class Commit {
    const platform: Platform
    const disk: Disk
    var directories: seq<JsString>
    var files: seq<SnapshotFile>
    var payloadBytes: nat

    constructor (platform: Platform, disk: Disk)
      ensures this.platform == platform && this.disk == disk
      ensures directories == [ROOT] && files == [] && payloadBytes == 0
    {
      this.platform, this.disk := platform, disk;
      directories, files, payloadBytes := [ROOT], [], 0;
    }

    ghost function Now(failed: bool): Progress
      reads this, disk
    {
      Progress(disk.log, directories, files, payloadBytes, failed)
    }

    method VisitFile(name: JsString, bytes: Bytes, relativePath: JsString, destination: Path) returns (ok: bool)
      requires disk.Valid()
      modifies this, disk
      ensures disk.Valid()
      ensures ok == (ValidSegment(name) && old(|files|) < MAX_FILES && old(payloadBytes) + |bytes| <= MAX_PAYLOAD_BYTES)
      ensures ok ==> var path := RelativeChild(relativePath, name);
                     Now(false) == WithFile(platform, old(Now(false)), path, destination + [name], bytes)
      ensures !ok ==> (disk.log, directories, files) == old((disk.log, directories, files))
      ensures !ok ==> payloadBytes == old(payloadBytes)
    {
      if !ValidSegment(name) || |files| >= MAX_FILES { return false; }
      if payloadBytes + |bytes| > MAX_PAYLOAD_BYTES { return false; }
      payloadBytes := payloadBytes + |bytes|;
      disk.WriteFile(destination + [name], bytes);
      files := files + [SnapshotFile(|bytes|, RelativeChild(relativePath, name), platform.sha256(bytes))];
      ok := true;
    }

    /** `visit`: what it does in place is what the function says. */
    method VisitAll(listing: Listing, relativePath: JsString, destination: Path) returns (ok: bool)
      requires disk.Valid()
      modifies this, disk
      ensures disk.Valid()
      ensures Now(!ok) == Visit(platform, listing, relativePath, destination, old(Now(false)))
      decreases listing
    {
      var l := listing;
      while !l.Done?
        invariant disk.Valid()
        invariant l == listing || l < listing
        invariant Visit(platform, l, relativePath, destination, Now(false))
               == Visit(platform, listing, relativePath, destination, old(Now(false)))
        decreases l
      {
        match l
        case FileEntry(name, bytes, rest) =>
          ok := VisitFile(name, bytes, relativePath, destination);
          if !ok { return; }
          l := rest;
        case DirEntry(name, children, rest) =>
          if !ValidSegment(name) || |directories| + |files| >= MAX_FILES { return false; }
          var child := RelativeChild(relativePath, name);
          directories := directories + [child];
          disk.GetDirectory(destination + [name]);
          ok := VisitAll(children, child, destination + [name]);
          if !ok { return; }
          l := rest;
        case OtherEntry(_, _) => return false;
      }
      ok := true;
    }
  }

  /** commitDirectoryTreeToOpfs, running to its end: it does exactly the operations of the plan. */
  method CommitTree(p: Platform, disk: Disk, o: CommitOptions) returns (manifest: Option<Manifest>)
    requires disk.Valid() && disk.log == []
    modifies disk
    ensures disk.Valid() && disk.log == PlanCommit(p, o).ops && manifest == PlanCommit(p, o).manifest
    ensures disk.store == Execute(disk.initial, PlanCommit(p, o).ops)
  {
    if !ValidSubtreeRoot(o.rootPath) || !ValidStoreId(o.storeId) { return None; }
    disk.GetDirectory([]);
    disk.GetDirectory([GENERATIONS]);
    disk.GetDirectory(GenerationPath(o.generationId));
    disk.GetDirectory(PayloadPath(o.generationId));
    assert disk.log == OpeningOps(o.generationId);
    var commit := new Commit(p, disk);
    var ok := commit.VisitAll(o.listing, ROOT, PayloadPath(o.generationId));
    if !ok { return None; }
    var m := Manifest(1, o.storeId, o.generationId, o.rootPath, o.createdAt, commit.directories, commit.files,
      commit.payloadBytes);
    ok := ValidateManifest(m, o.generationId, o.rootPath, o.storeId);
    if !ok { return None; }
    var bytes := p.encodeManifest(m);
    disk.WriteFile(ManifestPath(o.generationId), bytes);
    disk.WriteFile(HEAD_PATH, p.encodeHead(Head(1, o.generationId, p.sha256(bytes))));
    manifest := Some(m);
  }

  lemma {:induction false} MakeDirsNext(g: Guest, parent: JsString, segs: seq<JsString>, i: nat)
    requires i < |segs|
    ensures var current := RelativeChild(parent, segs[i]);
      MakeDirs(g, parent, segs[i..])
      == if CanCreateDir(g, current) then MakeDirs(g.(dirs := g.dirs + {current}), current, segs[i + 1..])
         else if parent in g.dirs && current in g.dirs then MakeDirs(g, current, segs[i + 1..])
         else (g, false)
  {
    assert segs[i..][0] == segs[i] && segs[i..][1..] == segs[i + 1..];
  }

  /** The guest's file system. */
  class GuestDirectory {
    var dirs: set<JsString>
    var files: map<JsString, Bytes>

    constructor (guest: Guest)
      ensures Now() == guest
    {
      dirs, files := guest.dirs, guest.files;
    }

    ghost function Now(): Guest
      reads this
    {
      Guest(dirs, files)
    }

    method CreateDir(path: JsString) returns (ok: bool)
      modifies this`dirs
      ensures ok == CanCreateDir(old(Now()), path)
      ensures dirs == if ok then old(dirs) + {path} else old(dirs)
    {
      ok := SLASH in path && path !in dirs && path !in files && ParentOf(path) in dirs;
      if ok { dirs := dirs + {path}; }
    }

    method WriteFile(path: JsString, bytes: Bytes) returns (ok: bool)
      modifies this`files
      ensures ok == CanWriteFile(old(Now()), path)
      ensures files == if ok then old(files)[path := bytes] else old(files)
    {
      ok := SLASH in path && path !in dirs && ParentOf(path) in dirs;
      if ok { files := files[path := bytes]; }
    }

    method CreateWasmerDirectory(absolutePath: JsString) returns (ok: bool)
      modifies this`dirs
      ensures (Now(), ok) == Snapshots.CreateWasmerDirectory(old(Now()), absolutePath)
    {
      if !ValidAbsolutePath(absolutePath) { return false; }
      var segments := PathSegments(absolutePath);
      var parent := ROOT;
      for i := 0 to |segments|
        invariant files == old(files)
        invariant MakeDirs(Now(), parent, segments[i..]) == MakeDirs(old(Now()), ROOT, segments)
      {
        MakeDirsNext(Now(), parent, segments, i);
        var current := RelativeChild(parent, segments[i]);
        ok := CreateDir(current);
        if !ok && !(parent in dirs && current in dirs) { return false; }
        parent := current;
      }
      ok := true;
    }

    method CreateDirectories(rootPath: JsString, directories: seq<JsString>) returns (ok: bool)
      modifies this`dirs
      ensures (Now(), ok) == RestoreDirs(old(Now()), rootPath, directories)
    {
      for i := 0 to |directories|
        invariant files == old(files)
        invariant RestoreDirs(Now(), rootPath, directories[i..]) == RestoreDirs(old(Now()), rootPath, directories)
      {
        assert directories[i..][0] == directories[i] && directories[i..][1..] == directories[i + 1..];
        ok := CreateWasmerDirectory(MountedPath(rootPath, directories[i]));
        if !ok { return; }
      }
      ok := true;
    }

    /** One file of the manifest, read from `s`. */
    method WriteVerified(p: Platform, s: Store, m: Manifest, file: SnapshotFile) returns (ok: bool, bytes: Bytes)
      modifies this`files
      ensures var base, segs := PayloadPath(m.generationId), PathSegments(file.path);
        var target := MountedPath(m.rootPath, file.path);
        && ok == (segs != [] && Readable(s, base, segs) && Verified(p, file, s.files[base + segs])
                  && CanWriteFile(old(Now()), target))
        && (ok ==> bytes == s.files[base + segs] && files == old(files)[target := bytes])
        && (!ok ==> files == old(files))
    {
      var segments := PathSegments(file.path);
      var base := PayloadPath(m.generationId);
      bytes := [];
      if segments == [] || !Readable(s, base, segments) { return false, bytes; }
      bytes := s.files[base + segments];
      if |bytes| != file.bytes || p.sha256(bytes) != file.sha256 { return false, bytes; }
      ok := WriteFile(MountedPath(m.rootPath, file.path), bytes);
    }

    /** The loop over the manifest's files, with the running byte count. */
    method WriteFiles(p: Platform, view: nat -> Store, m: Manifest)
      returns (ok: bool, payloadBytes: nat, ghost written: seq<Written>)
      modifies this`files
      ensures Restoration(Now(), ok, written)
           == RestoreFiles(p, view, 3, m, m.files, Restoration(old(Now()), true, []))
      ensures payloadBytes == WrittenBytes(written)
    {
      payloadBytes, written := 0, [];
      for i := 0 to |m.files|
        invariant dirs == old(dirs) && payloadBytes == WrittenBytes(written)
        invariant RestoreFiles(p, view, 3 + i, m, m.files[i..], Restoration(Now(), true, written))
               == RestoreFiles(p, view, 3, m, m.files, Restoration(old(Now()), true, []))
      {
        assert m.files[i..][0] == m.files[i] && m.files[i..][1..] == m.files[i + 1..];
        var bytes;
        ok, bytes := WriteVerified(p, view(3 + i), m, m.files[i]);
        if !ok { return; }
        payloadBytes := payloadBytes + |bytes|;
        ghost var one := Written(MountedPath(m.rootPath, m.files[i].path), bytes, m.files[i]);
        assert (written + [one])[..|written|] == written;
        written := written + [one];
      }
      ok := true;
    }
  }

  /** restoreDirectoryTreeFromOpfs: what it does to the guest in place is what the function says. */
  method RestoreTree(p: Platform, view: nat -> Store, rootPath: JsString, storeId: JsString, guest: GuestDirectory)
    returns (ok: bool, ghost written: seq<Written>)
    modifies guest
    ensures Restoration(guest.Now(), ok, written) == Restore(p, view, rootPath, storeId, old(guest.Now()))
  {
    ok, written := false, [];
    if !ValidSubtreeRoot(rootPath) || !ValidStoreId(storeId) { return; }
    var head := ReadHead(p, view(0));
    if head.None? { return; }
    var manifest := ReadManifest(p, view(1), head.value, rootPath, storeId);
    if manifest.None? { return; }
    var m := manifest.value;
    if PayloadPath(m.generationId) !in view(2).dirs { return; }
    var made := guest.CreateDirectories(m.rootPath, p.sorted(m.directories));
    if !made { return; }
    var payloadBytes;
    ok, payloadBytes, written := guest.WriteFiles(p, view, m);
    if payloadBytes != m.payloadBytes { ok := false; }
  }
}
