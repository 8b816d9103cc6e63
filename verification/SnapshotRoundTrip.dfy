/** Commit, then restore: when both succeed and what the restore rebuilds. */
module SnapshotRoundTrip {
  import opened Options
  import opened Json
  import opened ByteStrings
  import opened SnapshotPaths
  import opened Snapshots
  import opened SnapshotTrees

  /** The directories of a snapshot, its root included. */
  function AllDirs(l: Listing): seq<Path> {
    [[]] + Dirs(l, [])
  }

  function PathLength(path: Path): nat { |Join(path)| }

  /** The paths that the manifest of a listing names are not too long. */
  ghost predicate PathsFit(l: Listing) {
    && (forall i :: 0 <= i < |Dirs(l, [])| ==> PathLength(Dirs(l, [])[i]) <= MAX_PATH_LENGTH)
    && (forall i :: 0 <= i < |Files(l, [])| ==> PathLength(Files(l, [])[i].path) <= MAX_PATH_LENGTH)
  }

  /** The subtree root has no empty segments. */
  ghost predicate RootIs(rootPath: JsString, root: Path) {
    rootPath == Join(root) && root != [] && ValidSegments(root)
  }

  /** What the caller of a commit and the platform provide. */
  ghost predicate Proper(o: CommitOptions, root: Path) {
    RootIs(o.rootPath, root) && IsGenerationId(o.generationId) && NamesDiffer(o.listing)
  }

  /** What a commit asks of its arguments and of the tree, all of which a caller could check. */
  ghost predicate Committable(o: CommitOptions) {
    && ValidSubtreeRoot(o.rootPath) && ValidStoreId(o.storeId)
    && NamesValid(o.listing) && PathsFit(o.listing) && Fits(o.listing, 1, 0, 0)
  }

  function TheManifest(p: Platform, o: CommitOptions): Manifest {
    Manifest(1, o.storeId, o.generationId, o.rootPath, o.createdAt,
             Joined(AllDirs(o.listing)), Described(p, Files(o.listing, [])), Size(o.listing))
  }

  ghost predicate Completes(p: Platform, o: CommitOptions) {
    PlanCommit(p, o).manifest.Some?
  }

  // ---- The commit -----------------------------------------------------------------------------

  lemma {:induction false} VisitedNamesValid(p: Platform, l: Listing, rel: JsString, dest: Path, acc: Progress)
    requires !acc.failed && !Visit(p, l, rel, dest, acc).failed && NamesDiffer(l)
    ensures WellFormed(l)
    decreases l
  {
    match l
    case Done =>
    case FileEntry(name, bytes, rest) =>
      VisitedNamesValid(p, rest, rel, dest, WithFile(p, acc, RelativeChild(rel, name), dest + [name], bytes));
    case DirEntry(name, children, rest) =>
      var acc1 := WithDirectory(acc, RelativeChild(rel, name), dest + [name]);
      VisitedNamesValid(p, children, RelativeChild(rel, name), dest + [name], acc1);
      VisitedNamesValid(p, rest, rel, dest, Visit(p, children, RelativeChild(rel, name), dest + [name], acc1));
  }

  /** The manifest and the operations of a commit that does not throw. */
  lemma {:induction false} CompletedPlan(p: Platform, o: CommitOptions)
    requires Completes(p, o) && NamesDiffer(o.listing)
    ensures WellFormed(o.listing)
    ensures PlanCommit(p, o) == Plan(
      OpeningOps(o.generationId) + Ops(o.listing, PayloadPath(o.generationId)) + ClosingOps(p, TheManifest(p, o)),
      Some(TheManifest(p, o)))
    ensures ValidManifest(TheManifest(p, o), o.generationId, o.rootPath, o.storeId)
  {
    VisitedNamesValid(p, o.listing, ROOT, PayloadPath(o.generationId),
                      Progress(OpeningOps(o.generationId), [ROOT], [], 0, false));
    VisitedManifest(p, o);
  }

  lemma {:induction false} TotalFirst(f: SnapshotFile, files: seq<SnapshotFile>)
    ensures TotalBytes([f] + files) == f.bytes + TotalBytes(files)
  {
    if files == [] {
      assert [f] + files == [f] && [f][..0] == [];
    } else {
      assert ([f] + files)[..|files|] == [f] + files[..|files| - 1];
      TotalFirst(f, files[..|files| - 1]);
    }
  }

  lemma {:induction false} TotalAppend(a: seq<SnapshotFile>, b: seq<SnapshotFile>)
    ensures TotalBytes(a + b) == TotalBytes(a) + TotalBytes(b)
  {
    if b == [] {
      assert a + b == a;
    } else {
      assert (a + b)[..|a + b| - 1] == a + b[..|b| - 1];
      TotalAppend(a, b[..|b| - 1]);
    }
  }

  lemma {:induction false} TotalIsSize(p: Platform, l: Listing, prefix: Path)
    ensures TotalBytes(Described(p, Files(l, prefix))) == Size(l)
  {
    match l
    case Done =>
    case FileEntry(name, bytes, rest) =>
      TotalIsSize(p, rest, prefix);
      DescribedAppend(p, [FileAt(prefix + [name], bytes)], Files(rest, prefix));
      TotalFirst(Described(p, [FileAt(prefix + [name], bytes)])[0], Described(p, Files(rest, prefix)));
      assert Described(p, [FileAt(prefix + [name], bytes)]) == [Described(p, [FileAt(prefix + [name], bytes)])[0]];
    case DirEntry(name, children, rest) =>
      TotalIsSize(p, children, prefix + [name]);
      TotalIsSize(p, rest, prefix);
      DescribedAppend(p, Files(children, prefix + [name]), Files(rest, prefix));
      TotalAppend(Described(p, Files(children, prefix + [name])), Described(p, Files(rest, prefix)));
    case OtherEntry(_, rest) => TotalIsSize(p, rest, prefix);
  }

  lemma {:induction false} SizesFit(l: Listing, prefix: Path, i: nat)
    requires i < |Files(l, prefix)|
    ensures |Files(l, prefix)[i].bytes| <= Size(l)
  {
    match l
    case FileEntry(_, _, rest) => if i > 0 { SizesFit(rest, prefix, i - 1); }
    case DirEntry(name, children, rest) =>
      var n := |Files(children, prefix + [name])|;
      if i < n { SizesFit(children, prefix + [name], i); } else { SizesFit(rest, prefix, i - n); }
    case OtherEntry(_, rest) => SizesFit(rest, prefix, i);
  }

  lemma {:induction false} AllDirsValid(l: Listing, i: nat)
    requires WellFormed(l) && i < |AllDirs(l)|
    ensures ValidSegments(AllDirs(l)[i])
  {
    PathsValid(l, []);
    if i > 0 { assert AllDirs(l)[i] == Dirs(l, [])[i - 1]; }
  }

  lemma {:induction false} DirectoryValid(l: Listing, i: nat)
    requires WellFormed(l) && PathsFit(l) && i < |AllDirs(l)|
    ensures ValidAbsolutePath(Join(AllDirs(l)[i]))
  {
    AllDirsValid(l, i);
    JoinValid(AllDirs(l)[i]);
    if i > 0 { assert AllDirs(l)[i] == Dirs(l, [])[i - 1]; }
  }

  lemma {:induction false} AllDirsDistinct(l: Listing, i: nat, j: nat)
    requires WellFormed(l) && i < j < |AllDirs(l)|
    ensures AllDirs(l)[i] != AllDirs(l)[j]
  {
    var dirs := Dirs(l, []);
    assert AllDirs(l)[j] == dirs[j - 1] && AllDirs(l)[i] == if i == 0 then [] else dirs[i - 1];
    if i == 0 { DirsThrough(l, [], j - 1); } else { DirsDistinct(l, [], i - 1, j - 1); }
  }

  lemma {:induction false} DirectoriesDiffer(l: Listing, i: nat, j: nat)
    requires WellFormed(l) && i < j < |AllDirs(l)|
    ensures Join(AllDirs(l)[i]) != Join(AllDirs(l)[j])
  {
    AllDirsValid(l, i);
    AllDirsValid(l, j);
    AllDirsDistinct(l, i, j);
    JoinIsPath(AllDirs(l)[i]);
    JoinIsPath(AllDirs(l)[j]);
  }

  lemma {:induction false} DirectoriesValid(l: Listing)
    requires WellFormed(l) && PathsFit(l)
    ensures ValidDirectories(Joined(AllDirs(l)))
  {
    forall i | 0 <= i < |AllDirs(l)| ensures ValidAbsolutePath(Joined(AllDirs(l))[i]) {
      DirectoryValid(l, i);
    }
    forall i, j | 0 <= i < j < |AllDirs(l)| ensures Joined(AllDirs(l))[i] != Joined(AllDirs(l))[j] {
      DirectoriesDiffer(l, i, j);
    }
  }

  lemma {:induction false} InAllDirs(l: Listing, path: Path)
    requires path == [] || path in Dirs(l, [])
    ensures path in AllDirs(l) && Join(path) in Joined(AllDirs(l))
  {
    var dirs := AllDirs(l);
    var i: nat;
    if path == [] {
      i := 0;
    } else {
      var k :| 0 <= k < |Dirs(l, [])| && Dirs(l, [])[k] == path;
      i := k + 1;
    }
    assert dirs[i] == path && Joined(dirs)[i] == Join(path);
  }

  lemma {:induction false} FileParent(l: Listing, i: nat)
    requires WellFormed(l) && i < |Files(l, [])|
    ensures var path := Files(l, [])[i].path;
      ValidSegments(path) && path != [] && SLASH in Join(path) && ParentOf(Join(path)) in Joined(AllDirs(l))
  {
    var path := Files(l, [])[i].path;
    PathsValid(l, []);
    FilesContained(l, [], i);
    var parent, name := Container(path), path[|path| - 1];
    assert path == parent + [name];
    JoinIsPath(path);
    JoinChild(parent, name);
    InAllDirs(l, parent);
  }

  lemma {:induction false} FileEntryValid(p: Platform, l: Listing, i: nat)
    requires Lawful(p) && WellFormed(l) && PathsFit(l) && Size(l) <= MAX_PAYLOAD_BYTES && i < |Files(l, [])|
    ensures ValidFileEntry(Described(p, Files(l, []))[i], Joined(AllDirs(l)))
  {
    FileParent(l, i);
    JoinValid(Files(l, [])[i].path);
    JoinIsPath(Files(l, [])[i].path);
    SizesFit(l, [], i);
  }

  lemma {:induction false} FilesValid(p: Platform, l: Listing)
    requires Lawful(p) && WellFormed(l) && PathsFit(l) && Size(l) <= MAX_PAYLOAD_BYTES
    ensures ValidFiles(Described(p, Files(l, [])), Joined(AllDirs(l)))
  {
    var files := Files(l, []);
    PathsValid(l, []);
    forall i | 0 <= i < |files| ensures ValidFileEntry(Described(p, files)[i], Joined(AllDirs(l))) {
      FileEntryValid(p, l, i);
    }
    forall i, j | 0 <= i < j < |files| ensures Described(p, files)[i].path != Described(p, files)[j].path {
      FilesDistinct(l, [], i, j);
      if Join(files[i].path) == Join(files[j].path) { JoinInjective(files[i].path, files[j].path); }
    }
    TotalIsSize(p, l, []);
    EntriesValidEach(Described(p, files), Joined(AllDirs(l)));
  }

  lemma {:induction false} VisitedManifest(p: Platform, o: CommitOptions)
    requires !Visited(p, o).failed
    ensures ManifestOf(o, Visited(p, o)) == TheManifest(p, o)
    ensures Visited(p, o).ops == OpeningOps(o.generationId) + Ops(o.listing, PayloadPath(o.generationId))
  {
    var start := Progress(OpeningOps(o.generationId), [ROOT], [], 0, false);
    VisitDoes(p, o.listing, [], PayloadPath(o.generationId), start);
    JoinedAppend([[]], Dirs(o.listing, []));
    assert Joined([[]]) == [ROOT];
    assert [] + Described(p, Files(o.listing, [])) == Described(p, Files(o.listing, []));
  }

  lemma {:induction false} ManifestValid(p: Platform, o: CommitOptions)
    requires Lawful(p) && NamesDiffer(o.listing) && Committable(o)
    ensures ValidManifest(TheManifest(p, o), o.generationId, o.rootPath, o.storeId)
  {
    WellFormedNames(o.listing);
    TotalIsSize(p, o.listing, []);
    DirectoriesValid(o.listing);
    FilesValid(p, o.listing);
    Counts(o.listing, []);
  }

  lemma {:induction false} DirPathFits(l: Listing, i: nat)
    requires i < |Dirs(l, [])| && ValidDirectories(Joined(AllDirs(l)))
    ensures PathLength(Dirs(l, [])[i]) <= MAX_PATH_LENGTH
  {
    assert AllDirs(l)[i + 1] == Dirs(l, [])[i];
    assert ValidAbsolutePath(Joined(AllDirs(l))[i + 1]);
  }

  lemma {:induction false} FilePathFits(p: Platform, l: Listing, directories: seq<JsString>, i: nat)
    requires i < |Files(l, [])| && EntriesValid(Described(p, Files(l, [])), directories)
    ensures PathLength(Files(l, [])[i].path) <= MAX_PATH_LENGTH
  {
    EntriesValidEach(Described(p, Files(l, [])), directories);
    assert ValidFileEntry(Described(p, Files(l, []))[i], directories);
  }

  /** The paths in a valid manifest are not too long. */
  lemma {:induction false} ManifestPathsFit(p: Platform, o: CommitOptions)
    requires ValidManifest(TheManifest(p, o), o.generationId, o.rootPath, o.storeId)
    ensures PathsFit(o.listing)
  {
    forall i | 0 <= i < |Dirs(o.listing, [])| ensures PathLength(Dirs(o.listing, [])[i]) <= MAX_PATH_LENGTH {
      DirPathFits(o.listing, i);
    }
    forall i | 0 <= i < |Files(o.listing, [])|
      ensures PathLength(Files(o.listing, [])[i].path) <= MAX_PATH_LENGTH
    {
      FilePathFits(p, o.listing, TheManifest(p, o).directories, i);
    }
  }

  lemma {:induction false} VisitedExactly(p: Platform, o: CommitOptions)
    ensures !Visited(p, o).failed <==> NamesValid(o.listing) && Fits(o.listing, 1, 0, 0)
  {
    var start := Progress(OpeningOps(o.generationId), [ROOT], [], 0, false);
    VisitCompletesExactly(p, o.listing, [], PayloadPath(o.generationId), start);
  }

  /** A commit does not throw, and its own manifest is valid, exactly when the tree is committable. */
  lemma {:induction false} CommitCompletesExactly(p: Platform, o: CommitOptions)
    requires Lawful(p) && NamesDiffer(o.listing)
    ensures Completes(p, o) <==> Committable(o)
  {
    VisitedExactly(p, o);
    if !Visited(p, o).failed { VisitedManifest(p, o); }
    if Committable(o) { ManifestValid(p, o); }
    if Completes(p, o) { ManifestPathsFit(p, o); }
  }

  // ---- What a completed commit leaves in the store --------------------------------------------

  /** The generation is in the store, complete. */
  ghost predicate Holds(p: Platform, s: Store, o: CommitOptions) {
    var base := PayloadPath(o.generationId);
    && [] in s.dirs && [GENERATIONS] in s.dirs && GenerationPath(o.generationId) in s.dirs && base in s.dirs
    && Lookup(s.files, ManifestPath(o.generationId)) == Some(p.encodeManifest(TheManifest(p, o)))
    && (forall i :: 0 <= i < |Dirs(o.listing, base)| ==> Dirs(o.listing, base)[i] in s.dirs)
    && (forall i :: 0 <= i < |Files(o.listing, base)| ==>
          Lookup(s.files, Files(o.listing, base)[i].path) == Some(Files(o.listing, base)[i].bytes))
  }

  ghost predicate HeadNames(p: Platform, s: Store, o: CommitOptions) {
    [] in s.dirs && Lookup(s.files, HEAD_PATH) == Some(p.encodeHead(HeadFor(p, TheManifest(p, o))))
  }

  lemma {:induction false} ExecuteOne(s: Store, op: Op)
    ensures Execute(s, [op]) == Apply(s, op)
  {
    assert [op][..0] == [];
  }

  lemma {:induction false} ExecutePair(s: Store, path: Path, bytes: Bytes)
    ensures Execute(s, WriteFileOps(path, bytes)) == s.(files := s.files[path := bytes])
  {
    var ops := WriteFileOps(path, bytes);
    assert ops[..1] == [MakeFile(path)];
    ExecuteOne(s, MakeFile(path));
    assert Execute(s, ops) == Apply(Apply(s, MakeFile(path)), Replace(path, bytes));
  }

  /** The store between the traversal and the closing writes of a commit. */
  function Traversed(s: Store, o: CommitOptions): Store {
    Execute(Execute(s, OpeningOps(o.generationId)), Ops(o.listing, PayloadPath(o.generationId)))
  }

  lemma {:induction false} CommitExecutes(p: Platform, o: CommitOptions, s: Store)
    requires Completes(p, o) && NamesDiffer(o.listing)
    ensures var m := TheManifest(p, o);
      Execute(s, PlanCommit(p, o).ops)
      == Traversed(s, o).(files := Traversed(s, o).files[ManifestPath(o.generationId) := p.encodeManifest(m)]
                                                        [HEAD_PATH := p.encodeHead(HeadFor(p, m))])
  {
    CompletedPlan(p, o);
    var id, m := o.generationId, TheManifest(p, o);
    var first, second := WriteFileOps(ManifestPath(id), p.encodeManifest(m)),
                         WriteFileOps(HEAD_PATH, p.encodeHead(HeadFor(p, m)));
    var s2 := Traversed(s, o);
    ExecuteAppend(s, OpeningOps(id) + Ops(o.listing, PayloadPath(id)), first + second);
    ExecuteAppend(s, OpeningOps(id), Ops(o.listing, PayloadPath(id)));
    ExecuteAppend(s2, first, second);
    ExecutePair(s2, ManifestPath(id), p.encodeManifest(m));
    ExecutePair(Execute(s2, first), HEAD_PATH, p.encodeHead(HeadFor(p, m)));
  }

  lemma {:induction false} OpeningMakes(s: Store, id: JsString)
    ensures var dirs := Execute(s, OpeningOps(id)).dirs;
      [] in dirs && [GENERATIONS] in dirs && GenerationPath(id) in dirs && PayloadPath(id) in dirs
  {
    var opening := OpeningOps(id);
    ExecuteDirs(s, opening);
    assert opening[0].path == [] && opening[1].path == [GENERATIONS];
    assert opening[2].path == GenerationPath(id) && opening[3].path == PayloadPath(id);
  }

  /** A completed commit, run on any store, leaves its generation complete and HEAD naming it. */
  lemma {:induction false} CommitStores(p: Platform, o: CommitOptions, s: Store)
    requires Completes(p, o) && NamesDiffer(o.listing)
    ensures var r := Execute(s, PlanCommit(p, o).ops); Holds(p, r, o) && HeadNames(p, r, o)
  {
    var base := PayloadPath(o.generationId);
    var r := Execute(s, PlanCommit(p, o).ops);
    CompletedPlan(p, o);
    CommitExecutes(p, o, s);
    OpeningMakes(s, o.generationId);
    var s1 := Execute(s, OpeningOps(o.generationId));
    ExecuteDirs(s1, Ops(o.listing, base));
    forall i | 0 <= i < |Dirs(o.listing, base)| ensures Dirs(o.listing, base)[i] in r.dirs {
      DirsMade(o.listing, base, i);
    }
    forall i | 0 <= i < |Files(o.listing, base)|
      ensures Lookup(r.files, Files(o.listing, base)[i].path) == Some(Files(o.listing, base)[i].bytes)
    {
      FilesStored(s1, o.listing, base, i);
      FilesThrough(o.listing, base, i);
    }
  }

  // ---- The guest's directories ----------------------------------------------------------------

  /** The directories on the way to `segs`, below its first `from` segments, and `segs` itself. */
  ghost function Prefixes(segs: Path, from: nat): set<JsString> {
    set i | from < i <= |segs| :: Join(segs[..i])
  }

  lemma {:induction false} PrefixesFirst(segs: Path, k: nat)
    requires k < |segs|
    ensures Prefixes(segs, k) == {Join(segs[..k + 1])} + Prefixes(segs, k + 1)
  {
    forall x | x in Prefixes(segs, k) ensures x in {Join(segs[..k + 1])} + Prefixes(segs, k + 1) {
      var i :| k < i <= |segs| && x == Join(segs[..i]);
    }
  }

  /** One step of createWasmerDirectory's loop: the directory exists afterwards, and nothing else changed. */
  lemma {:induction false} MakeDirsStep(g: Guest, segs: Path, k: nat)
    requires k < |segs| && ValidSegments(segs) && Join(segs[..k]) in g.dirs && Join(segs[..k + 1]) !in g.files
    ensures MakeDirs(g, Join(segs[..k]), segs[k..])
         == MakeDirs(g.(dirs := g.dirs + {Join(segs[..k + 1])}), Join(segs[..k + 1]), segs[k + 1..])
  {
    var current := Join(segs[..k + 1]);
    assert segs[..k + 1] == segs[..k] + [segs[k]];
    JoinChild(segs[..k], segs[k]);
    JoinIsPath(segs[..k + 1]);
    assert segs[k..][1..] == segs[k + 1..];
    if current in g.dirs { assert g.dirs + {current} == g.dirs; }
  }

  lemma {:induction false} MakeDirsMakes(g: Guest, segs: Path, k: nat)
    requires k <= |segs| && ValidSegments(segs) && Join(segs[..k]) in g.dirs
    requires forall i :: k < i <= |segs| ==> Join(segs[..i]) !in g.files
    ensures MakeDirs(g, Join(segs[..k]), segs[k..]) == (g.(dirs := g.dirs + Prefixes(segs, k)), true)
    decreases |segs| - k
  {
    if k == |segs| {
      assert g.dirs + Prefixes(segs, k) == g.dirs;
    } else {
      var g1 := g.(dirs := g.dirs + {Join(segs[..k + 1])});
      MakeDirsStep(g, segs, k);
      MakeDirsMakes(g1, segs, k + 1);
      PrefixesFirst(segs, k);
      assert g.dirs + Prefixes(segs, k) == g1.dirs + Prefixes(segs, k + 1);
    }
  }

  /** createWasmerDirectory works, on an existing directory too, unless the path is too long. */
  lemma {:induction false} CreatesDirectory(g: Guest, segs: Path)
    requires ValidSegments(segs) && ROOT in g.dirs
    requires forall i :: 0 < i <= |segs| ==> Join(segs[..i]) !in g.files
    ensures CreateWasmerDirectory(g, Join(segs))
         == if PathLength(segs) <= MAX_PATH_LENGTH then (g.(dirs := g.dirs + Prefixes(segs, 0)), true) else (g, false)
  {
    JoinValid(segs);
    JoinIsPath(segs);
    assert segs[..0] == [] && segs[0..] == segs;
    if PathLength(segs) <= MAX_PATH_LENGTH { MakeDirsMakes(g, segs, 0); }
  }

  /** The directories made for `paths` below `root`. */
  ghost function MadeDirs(root: Path, paths: seq<Path>): set<JsString> {
    set n, i | 0 <= n < |paths| && 0 < i <= |root + paths[n]| :: Join((root + paths[n])[..i])
  }

  lemma {:induction false} MadeDirsFirst(root: Path, paths: seq<Path>)
    requires paths != []
    ensures MadeDirs(root, paths) == Prefixes(root + paths[0], 0) + MadeDirs(root, paths[1..])
  {
    forall x | x in MadeDirs(root, paths) ensures x in Prefixes(root + paths[0], 0) + MadeDirs(root, paths[1..]) {
      var n, i :| 0 <= n < |paths| && 0 < i <= |root + paths[n]| && x == Join((root + paths[n])[..i]);
      if n > 0 { assert paths[1..][n - 1] == paths[n]; }
    }
    forall x | x in MadeDirs(root, paths[1..]) ensures x in MadeDirs(root, paths) {
      var n, i :| 0 <= n < |paths[1..]| && 0 < i <= |root + paths[1..][n]| && x == Join((root + paths[1..][n])[..i]);
      assert paths[n + 1] == paths[1..][n];
    }
  }

  ghost predicate MountsFit(root: Path, paths: seq<Path>) {
    forall n :: 0 <= n < |paths| ==> PathLength(root + paths[n]) <= MAX_PATH_LENGTH
  }

  /** None of the directories to be made is a file in the guest. */
  ghost predicate NoFileInTheWay(g: Guest, root: Path, paths: seq<Path>) {
    forall n, i :: 0 <= n < |paths| && 0 < i <= |root + paths[n]| ==> Join((root + paths[n])[..i]) !in g.files
  }

  lemma {:induction false} MountsFitFirst(root: Path, paths: seq<Path>)
    requires paths != []
    ensures MountsFit(root, paths) <==> PathLength(root + paths[0]) <= MAX_PATH_LENGTH && MountsFit(root, paths[1..])
  {
    assert forall n :: 1 <= n < |paths| ==> paths[n] == paths[1..][n - 1];
  }

  lemma {:induction false} NoFileInTheWayRest(g: Guest, root: Path, paths: seq<Path>)
    requires paths != [] && NoFileInTheWay(g, root, paths)
    ensures NoFileInTheWay(g, root, paths[1..])
  {
    forall n, i | 0 <= n < |paths[1..]| && 0 < i <= |root + paths[1..][n]|
      ensures Join((root + paths[1..][n])[..i]) !in g.files
    {
      assert paths[1..][n] == paths[n + 1];
    }
  }

  /** The directories of a snapshot are all made unless a mounted path is too long. */
  lemma {:induction false} RestoreDirsMakes(g: Guest, root: Path, paths: seq<Path>)
    requires ValidSegments(root) && forall n :: 0 <= n < |paths| ==> ValidSegments(paths[n])
    requires ROOT in g.dirs && NoFileInTheWay(g, root, paths)
    ensures var (g', ok) := RestoreDirs(g, Join(root), Joined(paths));
      && (ok <==> MountsFit(root, paths))
      && (ok ==> g' == g.(dirs := g.dirs + MadeDirs(root, paths)))
    decreases |paths|
  {
    if paths == [] {
      assert g.dirs + MadeDirs(root, paths) == g.dirs;
    } else {
      MountedJoin(root, paths[0]);
      CreatesDirectory(g, root + paths[0]);
      assert Joined(paths)[1..] == Joined(paths[1..]);
      MountsFitFirst(root, paths);
      if PathLength(root + paths[0]) <= MAX_PATH_LENGTH {
        var g1 := g.(dirs := g.dirs + Prefixes(root + paths[0], 0));
        NoFileInTheWayRest(g, root, paths);
        RestoreDirsMakes(g1, root, paths[1..]);
        MadeDirsFirst(root, paths);
        assert g1.dirs + MadeDirs(root, paths[1..]) == g.dirs + MadeDirs(root, paths);
      }
    }
  }

  /** Every non-empty beginning of a directory's path is a directory of the listing. */
  lemma {:induction false} DirsClosed(l: Listing, path: Path, k: nat)
    requires path in Dirs(l, []) && 1 <= k <= |path|
    ensures path[..k] in Dirs(l, [])
    decreases |path|
  {
    if k == |path| {
      assert path[..k] == path;
    } else {
      var i :| 0 <= i < |Dirs(l, [])| && Dirs(l, [])[i] == path;
      DirsContained(l, [], i);
      DirsClosed(l, Container(path), k);
      assert Container(path)[..k] == path[..k];
    }
  }

  /** The mounted directories of a listing. */
  ghost function MountedDirs(root: Path, l: Listing): set<JsString> {
    set i | 0 <= i < |Dirs(l, [])| :: Join(root + Dirs(l, [])[i])
  }

  lemma {:induction false} MadeIsExpected(root: Path, l: Listing, paths: seq<Path>, n: nat, i: nat)
    requires n < |paths| && paths[n] in AllDirs(l) && 0 < i <= |root + paths[n]|
    ensures Join((root + paths[n])[..i]) in Prefixes(root, 0) + MountedDirs(root, l)
  {
    var path := paths[n];
    if i <= |root| {
      assert (root + path)[..i] == root[..i];
    } else {
      assert (root + path)[..i] == root + path[..i - |root|];
      var k :| 0 <= k < |AllDirs(l)| && AllDirs(l)[k] == path;
      assert path == Dirs(l, [])[k - 1];
      DirsClosed(l, path, i - |root|);
      var j :| 0 <= j < |Dirs(l, [])| && Dirs(l, [])[j] == path[..i - |root|];
    }
  }

  lemma {:induction false} ExpectedIsMade(root: Path, paths: seq<Path>, path: Path, i: nat)
    requires path in paths && 0 < i <= |root + path|
    ensures Join((root + path)[..i]) in MadeDirs(root, paths)
  {
    var n :| 0 <= n < |paths| && paths[n] == path;
  }

  /** In whatever order the directories of a listing are made, the same ones exist afterwards. */
  lemma {:induction false} MadeDirsExpected(root: Path, l: Listing, paths: seq<Path>)
    requires forall path :: path in paths <==> path in AllDirs(l)
    ensures MadeDirs(root, paths) == Prefixes(root, 0) + MountedDirs(root, l)
  {
    forall x | x in MadeDirs(root, paths) ensures x in Prefixes(root, 0) + MountedDirs(root, l) {
      var n, i :| 0 <= n < |paths| && 0 < i <= |root + paths[n]| && x == Join((root + paths[n])[..i]);
      MadeIsExpected(root, l, paths, n, i);
    }
    forall x | x in Prefixes(root, 0) ensures x in MadeDirs(root, paths) {
      var i :| 0 < i <= |root| && x == Join(root[..i]);
      InAllDirs(l, []);
      ExpectedIsMade(root, paths, [], i);
      assert (root + [])[..i] == root[..i];
    }
    forall x | x in MountedDirs(root, l) ensures x in MadeDirs(root, paths) {
      var i :| 0 <= i < |Dirs(l, [])| && x == Join(root + Dirs(l, [])[i]);
      var path := Dirs(l, [])[i];
      InAllDirs(l, path);
      DirsThrough(l, [], i);
      ExpectedIsMade(root, paths, path, |root + path|);
      assert (root + path)[..|root + path|] == root + path;
    }
  }

  // ---- The guest's files ----------------------------------------------------------------------

  /** The guest has room for a listing at `root`: nothing below it, and no file at it or on the way to it. */
  ghost predicate Clear(g: Guest, root: Path) {
    && ROOT in g.dirs
    && (forall i :: 0 < i <= |root| ==> Join(root[..i]) !in g.files)
    && (forall path :: Below(root, path) && ValidSegments(path) ==> Join(path) !in g.dirs && Join(path) !in g.files)
  }

  /** Where a file of a listing is mounted. */
  function Target(root: Path, f: FileAt): JsString {
    Join(root + f.path)
  }

  /** `after` has the directories and files of the listing at `root`, everything it had before, and nothing else. */
  ghost predicate Rebuilt(before: Guest, after: Guest, root: Path, l: Listing) {
    && after.dirs == before.dirs + (Prefixes(root, 0) + MountedDirs(root, l))
    && FilesWritten(before, after, root, Files(l, []), |Files(l, [])|)
  }

  /** `after` has the first `n` of `files`, every file it had before, and no other. */
  ghost predicate FilesWritten(before: Guest, after: Guest, root: Path, files: seq<FileAt>, n: nat)
    requires n <= |files|
  {
    && (forall i :: 0 <= i < n ==> Lookup(after.files, Target(root, files[i])) == Some(files[i].bytes))
    && (forall path :: path in before.files ==> Lookup(after.files, path) == Some(before.files[path]))
    && (forall path :: path in after.files ==>
          path in before.files || exists i :: 0 <= i < n && path == Target(root, files[i]))
  }

  /** The store's `view` shows the generation of `o` complete. */
  ghost predicate Shows(p: Platform, view: nat -> Store, o: CommitOptions, from: nat) {
    forall n :: n >= from ==> Holds(p, view(n), o)
  }

  lemma {:induction false} FileReadable(p: Platform, s: Store, o: CommitOptions, i: nat)
    requires Holds(p, s, o) && WellFormed(o.listing) && i < |Files(o.listing, [])|
    ensures var file := Files(o.listing, [])[i]; var base := PayloadPath(o.generationId);
      && Readable(s, base, file.path) && s.files[base + file.path] == file.bytes
  {
    var l, base := o.listing, PayloadPath(o.generationId);
    var file := Files(l, [])[i];
    Shifted(l, base, []);
    assert base + [] == base;
    PathsValid(l, []);
    assert Files(l, base)[i] == FileAt(base + file.path, file.bytes);
    forall k | 0 <= k < |file.path| ensures base + file.path[..k] in s.dirs {
      FileDirStored(p, s, o, i, k);
    }
  }

  lemma {:induction false} FileDirStored(p: Platform, s: Store, o: CommitOptions, i: nat, k: nat)
    requires Holds(p, s, o) && i < |Files(o.listing, [])| && k < |Files(o.listing, [])[i].path|
    ensures PayloadPath(o.generationId) + Files(o.listing, [])[i].path[..k] in s.dirs
  {
    var l, base, path := o.listing, PayloadPath(o.generationId), Files(o.listing, [])[i].path;
    Shifted(l, base, []);
    assert base + [] == base;
    if k == 0 {
      assert base + path[..0] == base;
    } else {
      FilesContained(l, [], i);
      DirsClosed(l, Container(path), k);
      assert Container(path)[..k] == path[..k];
      var j :| 0 <= j < |Dirs(l, [])| && Dirs(l, [])[j] == path[..k];
      assert Dirs(l, base)[j] == base + path[..k];
    }
  }

  /** Different paths mount differently. */
  lemma {:induction false} MountsDiffer(root: Path, a: Path, b: Path)
    requires ValidSegments(root) && ValidSegments(a) && ValidSegments(b) && a != b
    ensures Join(root + a) != Join(root + b)
  {
    assert (root + a)[|root|..] == a && (root + b)[|root|..] == b;
    JoinIsPath(root + a);
    JoinIsPath(root + b);
  }

  lemma {:induction false} ContainerExists(g: Guest, root: Path, l: Listing, i: nat)
    requires root != [] && i < |Files(l, [])|
    requires Prefixes(root, 0) + MountedDirs(root, l) <= g.dirs
    ensures Files(l, [])[i].path != [] && Join(root + Container(Files(l, [])[i].path)) in g.dirs
  {
    FilesContained(l, [], i);
    var parent := Container(Files(l, [])[i].path);
    if parent == [] {
      assert root + parent == root[..|root|];
    } else {
      var j :| 0 <= j < |Dirs(l, [])| && Dirs(l, [])[j] == parent;
    }
  }

  /** A file of the listing can be written once its directories exist. */
  lemma {:induction false} FileWritable(g: Guest, root: Path, l: Listing, i: nat)
    requires WellFormed(l) && ValidSegments(root) && root != [] && i < |Files(l, [])|
    requires Prefixes(root, 0) + MountedDirs(root, l) <= g.dirs
    requires Join(root + Files(l, [])[i].path) !in g.dirs
    ensures CanWriteFile(g, Join(root + Files(l, [])[i].path))
  {
    var path := Files(l, [])[i].path;
    PathsValid(l, []);
    ContainerExists(g, root, l, i);
    var parent, name := Container(path), path[|path| - 1];
    assert root + path == root + parent + [name];
    JoinChild(root + parent, name);
  }

  lemma {:induction false} FileNoDirectory(g: Guest, root: Path, l: Listing, i: nat)
    requires WellFormed(l) && ValidSegments(root) && i < |Files(l, [])| && Clear(g, root)
    ensures Join(root + Files(l, [])[i].path) !in g.dirs + (Prefixes(root, 0) + MountedDirs(root, l))
    ensures Join(root + Files(l, [])[i].path) !in g.files
  {
    var path := Files(l, [])[i].path;
    PathsValid(l, []);
    FilesThrough(l, [], i);
    assert Below(root, root + path);
    JoinIsPath(root + path);
    forall k | 0 < k <= |root| ensures Join(root[..k]) != Join(root + path) {
      JoinIsPath(root[..k]);
    }
    forall j | 0 <= j < |Dirs(l, [])| ensures Join(root + Dirs(l, [])[j]) != Join(root + path) {
      FileIsNoDir(l, [], i, j);
      MountsDiffer(root, Dirs(l, [])[j], path);
    }
  }

  lemma {:induction false} EarlierTargetsDiffer(root: Path, l: Listing, n: nat)
    requires WellFormed(l) && ValidSegments(root) && n < |Files(l, [])|
    ensures forall i :: 0 <= i < n ==> Target(root, Files(l, [])[i]) != Target(root, Files(l, [])[n])
  {
    PathsValid(l, []);
    forall i | 0 <= i < n ensures Target(root, Files(l, [])[i]) != Target(root, Files(l, [])[n]) {
      FilesDistinct(l, [], i, n);
      MountsDiffer(root, Files(l, [])[i].path, Files(l, [])[n].path);
    }
  }

  /** Writing one more file of the listing. */
  lemma {:induction false} OneMoreWritten(before: Guest, g: Guest, root: Path, files: seq<FileAt>, n: nat)
    requires n < |files| && FilesWritten(before, g, root, files, n) && Target(root, files[n]) !in before.files
    requires forall i :: 0 <= i < n ==> Target(root, files[i]) != Target(root, files[n])
    ensures FilesWritten(before, g.(files := g.files[Target(root, files[n]) := files[n].bytes]), root, files, n + 1)
  {
    var after := g.(files := g.files[Target(root, files[n]) := files[n].bytes]);
    forall path | path in after.files && path !in before.files
      ensures exists i :: 0 <= i < n + 1 && path == Target(root, files[i])
    {
      if path != Target(root, files[n]) {
        var i :| 0 <= i < n && path == Target(root, files[i]);
      }
    }
  }

  /** One round of the loop over the manifest's files, when the generation is complete. */
  lemma {:induction false} RestoreFilesStep(p: Platform, view: nat -> Store, from: nat, o: CommitOptions, root: Path,
                         before: Guest, n: nat, r: Restoration)
    requires RootIs(o.rootPath, root) && WellFormed(o.listing) && Holds(p, view(from), o)
    requires Clear(before, root) && n < |Files(o.listing, [])|
    requires r.guest.dirs == before.dirs + (Prefixes(root, 0) + MountedDirs(root, o.listing))
    ensures var m, file := TheManifest(p, o), Files(o.listing, [])[n];
      RestoreFiles(p, view, from, m, m.files[n..], r)
      == RestoreFiles(p, view, from + 1, m, m.files[n + 1..],
                      WithWritten(r, Target(root, file), file.bytes, m.files[n]))
  {
    var m, file := TheManifest(p, o), Files(o.listing, [])[n];
    assert m.files[n..][0] == m.files[n] && m.files[n..][1..] == m.files[n + 1..];
    PathsValid(o.listing, []);
    FilesThrough(o.listing, [], n);
    JoinIsPath(file.path);
    assert PathSegments(m.files[n].path) == file.path;
    FileReadable(p, view(from), o, n);
    MountedJoin(root, file.path);
    FileNoDirectory(before, root, o.listing, n);
    FileWritable(r.guest, root, o.listing, n);
  }

  /** The loop over the manifest's files, from the n-th on, when the generation is complete. */
  lemma {:induction false} RestoreFilesRestores(p: Platform, view: nat -> Store, from: nat, o: CommitOptions,
                                                root: Path, before: Guest, n: nat, r: Restoration)
    requires Lawful(p) && RootIs(o.rootPath, root) && WellFormed(o.listing) && Shows(p, view, o, from)
    requires Clear(before, root) && r.ok && n <= |Files(o.listing, [])|
    requires r.guest.dirs == before.dirs + (Prefixes(root, 0) + MountedDirs(root, o.listing))
    requires FilesWritten(before, r.guest, root, Files(o.listing, []), n)
    ensures var m := TheManifest(p, o);
      var end := RestoreFiles(p, view, from, m, m.files[n..], r);
      && end.ok && end.guest.dirs == r.guest.dirs
      && FilesWritten(before, end.guest, root, Files(o.listing, []), |Files(o.listing, [])|)
    decreases |Files(o.listing, [])| - n
  {
    var m, files := TheManifest(p, o), Files(o.listing, []);
    if n < |files| {
      RestoreFilesStep(p, view, from, o, root, before, n, r);
      EarlierTargetsDiffer(root, o.listing, n);
      FileNoDirectory(before, root, o.listing, n);
      OneMoreWritten(before, r.guest, root, files, n);
      RestoreFilesRestores(p, view, from + 1, o, root, before, n + 1,
                           WithWritten(r, Target(root, files[n]), files[n].bytes, m.files[n]));
    }
  }

  // ---- What a restore writes, whatever it finds -----------------------------------------------

  /** The files written are the first of the manifest's, each with the bytes its entry describes. */
  ghost predicate AllVerified(p: Platform, m: Manifest, written: seq<Written>) {
    && |written| <= |m.files|
    && (forall i :: 0 <= i < |written| ==>
          && written[i].entry == m.files[i]
          && written[i].path == MountedPath(m.rootPath, m.files[i].path)
          && Verified(p, m.files[i], written[i].bytes))
  }

  /** Every write is of bytes that match the manifest's entry, also when the loop stops early. */
  lemma {:induction false} RestoreFilesVerifies(p: Platform, view: nat -> Store, from: nat, m: Manifest, n: nat,
                                                r: Restoration)
    requires n == |r.written| && AllVerified(p, m, r.written)
    ensures var end := RestoreFiles(p, view, from, m, m.files[n..], r);
      AllVerified(p, m, end.written) && (end.ok ==> |end.written| == |m.files|)
    decreases |m.files| - n
  {
    if n < |m.files| {
      var f, s, target := m.files[n], view(from), MountedPath(m.rootPath, m.files[n].path);
      var base := PayloadPath(m.generationId);
      assert m.files[n..][1..] == m.files[n + 1..];
      if PathSegments(f.path) != [] && Readable(s, base, PathSegments(f.path)) {
        var bytes := s.files[base + PathSegments(f.path)];
        if Verified(p, f, bytes) && CanWriteFile(r.guest, target) {
          RestoreFilesVerifies(p, view, from + 1, m, n + 1, WithWritten(r, target, bytes, f));
        }
      }
    }
  }

  lemma {:induction false} VerifiedBytes(p: Platform, m: Manifest, written: seq<Written>)
    requires AllVerified(p, m, written)
    ensures WrittenBytes(written) == TotalBytes(m.files[..|written|])
  {
    if written != [] {
      var n := |written| - 1;
      VerifiedBytes(p, m, written[..n]);
      assert m.files[..|written|][..n] == m.files[..n];
    }
  }

  // ---- The restore ----------------------------------------------------------------------------

  lemma {:induction false} HeadIsRead(p: Platform, s: Store, o: CommitOptions)
    requires Lawful(p) && IsGenerationId(o.generationId) && HeadNames(p, s, o)
    ensures ReadHead(p, s) == Some(HeadFor(p, TheManifest(p, o)))
  {
  }

  lemma {:induction false} ManifestIsRead(p: Platform, s: Store, o: CommitOptions)
    requires Lawful(p) && Holds(p, s, o)
    requires ValidManifest(TheManifest(p, o), o.generationId, o.rootPath, o.storeId)
    ensures ReadManifest(p, s, HeadFor(p, TheManifest(p, o)), o.rootPath, o.storeId) == Some(TheManifest(p, o))
  {
  }

  lemma {:induction false} PermutationHas<T>(a: seq<T>, b: seq<T>, x: T)
    requires multiset(a) == multiset(b)
    ensures x in a <==> x in b
  {
    assert x in a <==> x in multiset(a);
    assert x in b <==> x in multiset(b);
  }

  /** The sorted directories, as segments. */
  function SortedDirs(p: Platform, l: Listing): seq<Path> {
    var sorted := p.sorted(Joined(AllDirs(l)));
    seq(|sorted|, i requires 0 <= i < |sorted| => PathSegments(sorted[i]))
  }

  lemma {:induction false} SortedDirIsPath(p: Platform, l: Listing, i: nat)
    requires Lawful(p) && WellFormed(l) && i < |SortedDirs(p, l)|
    ensures SortedDirs(p, l)[i] in AllDirs(l) && Join(SortedDirs(p, l)[i]) == p.sorted(Joined(AllDirs(l)))[i]
  {
    var sorted := p.sorted(Joined(AllDirs(l)));
    assert sorted[i] in sorted;
    PermutationHas(sorted, Joined(AllDirs(l)), sorted[i]);
    var k :| 0 <= k < |AllDirs(l)| && Joined(AllDirs(l))[k] == sorted[i];
    AllDirsValid(l, k);
    JoinIsPath(AllDirs(l)[k]);
  }

  lemma {:induction false} PathIsSorted(p: Platform, l: Listing, k: nat)
    requires Lawful(p) && WellFormed(l) && k < |AllDirs(l)|
    ensures AllDirs(l)[k] in SortedDirs(p, l)
  {
    var sorted, path := p.sorted(Joined(AllDirs(l))), AllDirs(l)[k];
    AllDirsValid(l, k);
    JoinIsPath(path);
    assert Joined(AllDirs(l))[k] == Join(path);
    PermutationHas(sorted, Joined(AllDirs(l)), Join(path));
    var i :| 0 <= i < |sorted| && sorted[i] == Join(path);
    assert SortedDirs(p, l)[i] == path;
  }

  lemma {:induction false} SortedDirsArePaths(p: Platform, l: Listing)
    requires Lawful(p) && WellFormed(l)
    ensures Joined(SortedDirs(p, l)) == p.sorted(Joined(AllDirs(l)))
    ensures forall path :: path in SortedDirs(p, l) <==> path in AllDirs(l)
  {
    forall i | 0 <= i < |SortedDirs(p, l)|
      ensures SortedDirs(p, l)[i] in AllDirs(l) && Join(SortedDirs(p, l)[i]) == p.sorted(Joined(AllDirs(l)))[i]
    {
      SortedDirIsPath(p, l, i);
    }
    forall k | 0 <= k < |AllDirs(l)| ensures AllDirs(l)[k] in SortedDirs(p, l) { PathIsSorted(p, l, k); }
  }

  lemma {:induction false} ClearMeansNoFileInTheWay(g: Guest, root: Path, l: Listing, paths: seq<Path>)
    requires ValidSegments(root) && Clear(g, root) && WellFormed(l)
    requires forall path :: path in paths ==> path in AllDirs(l)
    ensures NoFileInTheWay(g, root, paths)
    ensures forall n :: 0 <= n < |paths| ==> ValidSegments(paths[n])
  {
    forall n | 0 <= n < |paths| ensures ValidSegments(paths[n]) {
      assert paths[n] in paths;
      var k :| 0 <= k < |AllDirs(l)| && AllDirs(l)[k] == paths[n];
      AllDirsValid(l, k);
    }
    forall n, i | 0 <= n < |paths| && 0 < i <= |root + paths[n]|
      ensures Join((root + paths[n])[..i]) !in g.files
    {
      if i <= |root| {
        assert (root + paths[n])[..i] == root[..i];
      } else {
        assert Below(root, (root + paths[n])[..i]);
      }
    }
  }

  /** The mounted paths of a snapshot's directories are not too long for the guest. */
  ghost predicate DirectoriesMount(root: Path, l: Listing) {
    forall i :: 0 <= i < |AllDirs(l)| ==> PathLength(root + AllDirs(l)[i]) <= MAX_PATH_LENGTH
  }

  /** The same directories in another order fit alike. */
  lemma {:induction false} MountsFitAlike(root: Path, l: Listing, paths: seq<Path>)
    requires forall path :: path in paths <==> path in AllDirs(l)
    ensures MountsFit(root, paths) <==> DirectoriesMount(root, l)
  {
    forall i | 0 <= i < |AllDirs(l)| ensures AllDirs(l)[i] in paths { assert AllDirs(l)[i] in AllDirs(l); }
    forall n | 0 <= n < |paths| ensures paths[n] in AllDirs(l) { assert paths[n] in paths; }
  }

  lemma {:induction false} RestoreDirsOf(p: Platform, l: Listing, root: Path, g: Guest)
    requires Lawful(p) && WellFormed(l) && ValidSegments(root) && Clear(g, root)
    ensures var (g', ok) := RestoreDirs(g, Join(root), p.sorted(Joined(AllDirs(l))));
      && (ok <==> DirectoriesMount(root, l))
      && (ok ==> g' == g.(dirs := g.dirs + (Prefixes(root, 0) + MountedDirs(root, l))))
  {
    SortedDirsArePaths(p, l);
    MountsFitAlike(root, l, SortedDirs(p, l));
    RestoreOrdered(root, l, g, SortedDirs(p, l));
  }

  lemma {:induction false} RestoreOrdered(root: Path, l: Listing, g: Guest, paths: seq<Path>)
    requires WellFormed(l) && ValidSegments(root) && Clear(g, root)
    requires forall path :: path in paths <==> path in AllDirs(l)
    ensures var (g', ok) := RestoreDirs(g, Join(root), Joined(paths));
      && (ok <==> MountsFit(root, paths))
      && (ok ==> g' == g.(dirs := g.dirs + (Prefixes(root, 0) + MountedDirs(root, l))))
  {
    ClearMeansNoFileInTheWay(g, root, l, paths);
    RestoreDirsMakes(g, root, paths);
    MadeDirsExpected(root, l, paths);
  }

  lemma {:induction false} RestoreFilesOf(p: Platform, view: nat -> Store, o: CommitOptions, root: Path,
                                          guest: Guest, g: Guest)
    requires Lawful(p) && Proper(o, root) && Completes(p, o) && WellFormed(o.listing) && Clear(guest, root)
    requires Shows(p, view, o, 3) && g.files == guest.files
    requires g.dirs == guest.dirs + (Prefixes(root, 0) + MountedDirs(root, o.listing))
    ensures var m := TheManifest(p, o);
      var r := RestoreFiles(p, view, 3, m, m.files, Restoration(g, true, []));
      r.ok && Rebuilt(guest, r.guest, root, o.listing) && WrittenBytes(r.written) == m.payloadBytes
  {
    var m, r0 := TheManifest(p, o), Restoration(g, true, []);
    assert m.files[0..] == m.files && m.files[..|m.files|] == m.files;
    assert FilesWritten(guest, g, root, Files(o.listing, []), 0);
    RestoreFilesRestores(p, view, 3, o, root, guest, 0, r0);
    RestoreFilesVerifies(p, view, 3, m, 0, r0);
    VerifiedBytes(p, m, RestoreFiles(p, view, 3, m, m.files, r0).written);
    TotalIsSize(p, o.listing, []);
  }

  /**
   * Restoring a committed snapshot into a clear subtree at its own root completes exactly when the
   * mounted paths of its directories are not too long, and then rebuilds the committed tree.
   */
  lemma {:induction false} RestoreCommitted(p: Platform, view: nat -> Store, o: CommitOptions, root: Path, guest: Guest)
    requires Lawful(p) && Proper(o, root) && Completes(p, o) && Clear(guest, root)
    requires HeadNames(p, view(0), o) && Shows(p, view, o, 1)
    ensures var r := Restore(p, view, o.rootPath, o.storeId, guest);
      && (r.ok <==> DirectoriesMount(root, o.listing))
      && (r.ok ==> Rebuilt(guest, r.guest, root, o.listing))
  {
    CompletedPlan(p, o);
    var l, m := o.listing, TheManifest(p, o);
    HeadIsRead(p, view(0), o);
    ManifestIsRead(p, view(1), o);
    RestoreDirsOf(p, l, root, guest);
    var (g, ok) := RestoreDirs(guest, m.rootPath, p.sorted(m.directories));
    if ok { RestoreFilesOf(p, view, o, root, guest, g); }
  }

  /** Commit and restore, with nothing in between. */
  lemma {:induction false} RoundTrip(p: Platform, o: CommitOptions, root: Path, store: Store, guest: Guest)
    requires Lawful(p) && Proper(o, root) && Committable(o) && Clear(guest, root)
    ensures Completes(p, o)
    ensures var after := Execute(store, PlanCommit(p, o).ops);
      var r := Restore(p, n => after, o.rootPath, o.storeId, guest);
      && (r.ok <==> DirectoriesMount(root, o.listing))
      && (r.ok ==> Rebuilt(guest, r.guest, root, o.listing))
  {
    CommitCompletesExactly(p, o);
    CommitStores(p, o, store);
    var after := Execute(store, PlanCommit(p, o).ops);
    RestoreCommitted(p, n => after, o, root, guest);
  }

  /** A directory whose name has 4095 units: its path is just short enough for the manifest. */
  function DeepTree(): Listing {
    DirEntry(seq(MAX_PATH_LENGTH - 1, _ => 97), Done, Done)
  }

  /** A commit of that directory below "/r". */
  function DeepCommit(generationId: JsString): CommitOptions {
    CommitOptions(Ascii("s"), Ascii("/r"), generationId, [], DeepTree())
  }

  lemma {:induction false} DeepNames()
    ensures ValidSegment(DeepTree().name) && |DeepTree().name| == MAX_PATH_LENGTH - 1
    ensures ValidSegment(Ascii("r")) && |Ascii("r")| == 1
  {
    var name := DeepTree().name;
    assert forall i :: 0 <= i < |name| ==> name[i] == 97;
    assert Ascii("r")[0] == 114;
  }

  lemma {:induction false} OneSegment(name: JsString)
    ensures Join([name]) == [SLASH] + name
  {
    assert [name][..0] == [];
    assert Slashed([name]) == Slashed([]) + [SLASH] + name;
  }

  lemma {:induction false} DeepShape()
    ensures Dirs(DeepTree(), []) == [[DeepTree().name]] && Files(DeepTree(), []) == []
  {
    var name := DeepTree().name;
    assert Dirs(Done, [name]) == [] && Dirs(Done, []) == [] && Files(Done, [name]) == [] && Files(Done, []) == [];
    assert [] + [name] == [name];
  }

  lemma {:induction false} DeepPaths()
    ensures WellFormed(DeepTree()) && PathsFit(DeepTree())
    ensures !DirectoriesMount([Ascii("r")], DeepTree())
  {
    var name, root := DeepTree().name, [Ascii("r")];
    DeepNames();
    DeepShape();
    OneSegment(name);
    SlashedAppend(root, [name]);
    OneSegment(root[0]);
    assert AllDirs(DeepTree())[1] == [name];
  }

  lemma {:induction false} DeepRoot()
    ensures RootIs(Ascii("/r"), [Ascii("r")]) && ValidSubtreeRoot(Ascii("/r")) && ValidStoreId(Ascii("s"))
  {
    DeepNames();
    OneSegment(Ascii("r"));
    assert [SLASH] + Ascii("r") == Ascii("/r");
    JoinValid([Ascii("r")]);
    assert Ascii("s")[0] == 115;
  }

  /** This commit does not throw, on any store, and its restore always does. */
  lemma {:induction false} CommittedButNotRestored(p: Platform, generationId: JsString, store: Store, guest: Guest)
    requires Lawful(p) && IsGenerationId(generationId) && Clear(guest, [Ascii("r")])
    ensures var o := DeepCommit(generationId); var after := Execute(store, PlanCommit(p, o).ops);
      Completes(p, o) && !Restore(p, n => after, o.rootPath, o.storeId, guest).ok
  {
    var o := DeepCommit(generationId);
    DeepPaths();
    DeepRoot();
    WellFormedNames(o.listing);
    RoundTrip(p, o, [Ascii("r")], store, guest);
  }

  /** On any store, whatever a restore writes matches the manifest it read, even if it throws later. */
  lemma {:induction false} WritesMatchTheManifest(p: Platform, view: nat -> Store, rootPath: JsString,
                                                  storeId: JsString, guest: Guest)
    ensures var r := Restore(p, view, rootPath, storeId, guest);
      r.written != [] || r.ok ==>
        && ReadHead(p, view(0)).Some?
        && var m := ReadManifest(p, view(1), ReadHead(p, view(0)).value, rootPath, storeId);
        && m.Some? && AllVerified(p, m.value, r.written) && (r.ok ==> |r.written| == |m.value.files|)
  {
    if ValidSubtreeRoot(rootPath) && ValidStoreId(storeId) && ReadHead(p, view(0)).Some? {
      var manifest := ReadManifest(p, view(1), ReadHead(p, view(0)).value, rootPath, storeId);
      if manifest.Some? {
        var m := manifest.value;
        var (g, ok) := RestoreDirs(guest, m.rootPath, p.sorted(m.directories));
        assert m.files[0..] == m.files;
        RestoreFilesVerifies(p, view, 3, m, 0, Restoration(g, true, []));
      }
    }
  }

  /** A restore that completes, or has written anything, has found everything it relies on to be as it must be. */
  lemma {:induction false} RestoreChecks(p: Platform, view: nat -> Store, rootPath: JsString, storeId: JsString,
                                         guest: Guest)
    ensures var r := Restore(p, view, rootPath, storeId, guest);
      r.ok || r.written != [] || r.guest != guest ==>
        && ValidSubtreeRoot(rootPath) && ValidStoreId(storeId)
        && HEAD_PATH in view(0).files && p.decodeHead(view(0).files[HEAD_PATH]).Some?
        && var head := p.decodeHead(view(0).files[HEAD_PATH]).value; var path := ManifestPath(head.generationId);
        && head.schemaVersion == 1 && IsGenerationId(head.generationId)
        && path in view(1).files && p.sha256(view(1).files[path]) == head.manifestSha256
        && p.decodeManifest(view(1).files[path]).Some?
        && var m := p.decodeManifest(view(1).files[path]).value;
        && m.schemaVersion == 1 && m.generationId == head.generationId && m.rootPath == rootPath && m.storeId == storeId
        && ValidManifest(m, head.generationId, rootPath, storeId)
        && (r.ok ==> TotalBytes(m.files) == WrittenBytes(r.written) && |r.written| == |m.files|)
  {
    WritesMatchTheManifest(p, view, rootPath, storeId, guest);
    var r := Restore(p, view, rootPath, storeId, guest);
    if r.ok {
      var m := ReadManifest(p, view(1), ReadHead(p, view(0)).value, rootPath, storeId).value;
      VerifiedBytes(p, m, r.written);
      assert m.files[..|m.files|] == m.files;
    }
  }

  /** Two different byte strings with one digest. */
  ghost predicate Collide(p: Platform, a: Bytes, b: Bytes) {
    a != b && p.sha256(a) == p.sha256(b)
  }

  /**
   * A restore that completes from a store whose HEAD is intact, whatever else in the store was
   * changed: the manifest it read collides with the committed one, or it wrote every committed file
   * to its place, each with the committed bytes or with bytes that collide with those.
   */
  lemma {:induction false} CorruptionIsDetected(p: Platform, view: nat -> Store, o: CommitOptions, guest: Guest)
    requires Lawful(p) && Completes(p, o) && NamesDiffer(o.listing) && IsGenerationId(o.generationId)
    requires HeadNames(p, view(0), o)
    requires Restore(p, view, o.rootPath, o.storeId, guest).ok
    ensures var r, files := Restore(p, view, o.rootPath, o.storeId, guest), Files(o.listing, []);
      var path := ManifestPath(o.generationId);
      && path in view(1).files
      && (Collide(p, view(1).files[path], p.encodeManifest(TheManifest(p, o)))
          || (|r.written| == |files|
              && forall i :: 0 <= i < |files| ==>
                   && r.written[i].path == MountedPath(o.rootPath, Join(files[i].path))
                   && (r.written[i].bytes == files[i].bytes || Collide(p, r.written[i].bytes, files[i].bytes))))
  {
    var mine := TheManifest(p, o);
    HeadIsRead(p, view(0), o);
    WritesMatchTheManifest(p, view, o.rootPath, o.storeId, guest);
    assert p.decodeManifest(p.encodeManifest(mine)) == Some(mine);
    if view(1).files[ManifestPath(o.generationId)] == p.encodeManifest(mine) {
      assert ReadManifest(p, view(1), HeadFor(p, mine), o.rootPath, o.storeId) == Some(mine);
    }
  }
}
