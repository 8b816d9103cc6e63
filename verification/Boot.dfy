/**
 * How the gateway's directory comes about (src/openclaw-boot-cache.ts and the boot block of
 * src/openclaw-gateway-health-probe.ts): from a verified snapshot, or afresh.
 */
module Boot {
  import opened Options
  import opened Json
  import opened SnapshotPaths
  import opened Snapshots
  import opened SnapshotTrees
  import opened SnapshotRoundTrip
  import opened SnapshotRuns
  import opened SnapshotStore

  const STATE_NAME: JsString := Ascii(".clawsembly-gateway-state")
  const WORKSPACE_NAME: JsString := Ascii(".clawsembly-gateway-workspace")
  const STATE_ROOT: Path := [STATE_NAME]
  const DATABASE_PATH: Path := [Ascii("state"), Ascii("openclaw.sqlite")]
  const MIN_DATABASE_BYTES := 4096

  // ---- Store ids ------------------------------------------------------------------------------

  const STORE_PREFIX: JsString := Ascii("clawsembly-onboard-v1-")

  /** createOpenClawBootStoreId. */
  function BootStoreId(artifactSha256: JsString, imageSha256: JsString): Option<JsString> {
    if !IsDigest(artifactSha256) || !IsDigest(imageSha256) then None
    else Some(STORE_PREFIX + artifactSha256[..12] + [45] + imageSha256[..12])
  }

  /** The id is one the store accepts, and tells apart artifacts and images by their first twelve digits. */
  lemma {:induction false} BootStoreIds(a1: JsString, i1: JsString, a2: JsString, i2: JsString)
    ensures var id1, id2 := BootStoreId(a1, i1), BootStoreId(a2, i2);
      && (id1.Some? <==> IsDigest(a1) && IsDigest(i1))
      && (id1.Some? ==> ValidStoreId(id1.value))
      && (id1.Some? && id2.Some? ==> (id1 == id2 <==> a1[..12] == a2[..12] && i1[..12] == i2[..12]))
  {
    if IsDigest(a1) && IsDigest(i1) {
      var id := BootStoreId(a1, i1).value;
      PrefixUnits();
      assert forall k :: 22 <= k < 34 ==> id[k] == a1[k - 22];
      assert forall k :: 35 <= k < 47 ==> id[k] == i1[k - 35];
      if IsDigest(a2) && IsDigest(i2) {
        var other := BootStoreId(a2, i2).value;
        assert id[22..34] == a1[..12] && id[35..47] == i1[..12];
        assert other[22..34] == a2[..12] && other[35..47] == i2[..12];
      }
    }
  }

  lemma {:induction false} PrefixUnits()
    ensures |STORE_PREFIX| == 22 && IsStoreIdUnit(STORE_PREFIX[0])
    ensures forall k :: 0 <= k < 22 ==> IsStoreIdUnit(STORE_PREFIX[k]) || STORE_PREFIX[k] == 45
  {
  }

  // ---- The two ways to boot -------------------------------------------------------------------

  /** The package image, the cold boot's effects on a directory and whether they succeed, the check in the guest. */
  datatype Environment = Environment(
    platform: Platform, image: Guest, lifecycle: Guest -> (Guest, bool), inspect: Guest -> bool)

  datatype Mode = Cold | Warm

  /** The gateway's directory, the restore evidence, how it booted; or the boot threw. */
  datatype Booted = Booted(guest: Guest, evidence: Option<JsString>, mode: Mode, ok: bool)

  function WithDirectoryMade(g: Guest, path: JsString): (Guest, bool) {
    if CanCreateDir(g, path) then (g.(dirs := g.dirs + {path}), true) else (g, false)
  }

  /** prepareFreshGatewayDirectory and the lifecycle. */
  function ColdBoot(e: Environment): (Guest, bool) {
    var (g1, ok1) := WithDirectoryMade(e.image, Join(STATE_ROOT));
    if !ok1 then (g1, false)
    else
      var (g2, ok2) := WithDirectoryMade(g1, Join([WORKSPACE_NAME]));
      if !ok2 then (g2, false) else e.lifecycle(g2)
  }

  predicate HasDatabase(g: Guest) {
    var path := Join(STATE_ROOT + DATABASE_PATH);
    path in g.files && |g.files[path]| >= MIN_DATABASE_BYTES
  }

  function RestoreState(e: Environment, view: nat -> Store, storeId: JsString): Restoration {
    Restore(e.platform, view, Join(STATE_ROOT), storeId, e.image)
  }

  /** restoreBootState on a fresh image. */
  function WarmBoot(e: Environment, view: nat -> Store, storeId: JsString, inGuest: bool): (Guest, bool) {
    var r := RestoreState(e, view, storeId);
    if !r.ok then (r.guest, false)
    else
      var (g, ok) := WithDirectoryMade(r.guest, Join([WORKSPACE_NAME]));
      (g, ok && if inGuest then e.inspect(g) else HasDatabase(g))
  }

  /** hasDirectoryTreeSnapshot, on the store that `view` shows first. */
  predicate SnapshotPresent(s: Store) { [] in s.dirs && HEAD_PATH in s.files }

  /** The automatic boot: warm if a snapshot is there and all of it checks, cold otherwise. */
  function AutomaticBoot(e: Environment, view: nat -> Store, storeId: JsString, present: bool): Booted {
    if present && WarmBoot(e, view, storeId, false).1 then
      Booted(WarmBoot(e, view, storeId, false).0, Some(storeId), Warm, true)
    else Booted(ColdBoot(e).0, None, Cold, ColdBoot(e).1)
  }

  // ---- What a cold boot is --------------------------------------------------------------------

  const STATE_DIRECTORY: JsString := [SLASH] + Ascii(".clawsembly-gateway-state")
  const WORKSPACE_DIRECTORY: JsString := [SLASH] + Ascii(".clawsembly-gateway-workspace")

  /** Both directories can be made on the image: it has a root, and nothing is where they go. */
  ghost predicate HasRoom(image: Guest) {
    && ROOT in image.dirs
    && STATE_DIRECTORY !in image.dirs && STATE_DIRECTORY !in image.files
    && WORKSPACE_DIRECTORY !in image.dirs && WORKSPACE_DIRECTORY !in image.files
  }

  /** `guest` and `ok` are what the install lifecycle makes of the image with the two directories, if it has room. */
  ghost predicate Installed(e: Environment, guest: Guest, ok: bool) {
    if HasRoom(e.image)
    then (guest, ok) == e.lifecycle(e.image.(dirs := e.image.dirs + {STATE_DIRECTORY, WORKSPACE_DIRECTORY}))
    else !ok
  }

  lemma {:induction false} TopDirectory(name: JsString)
    requires SLASH !in name
    ensures Join([name]) == [SLASH] + name && SLASH in Join([name]) && ParentOf(Join([name])) == ROOT
  {
    assert Slashed([name]) == Slashed([]) + [SLASH] + name;
    var path := Join([name]);
    assert path[0] == SLASH;
    assert forall k :: 1 <= k < |path| ==> path[k] == name[k - 1];
    assert LastSlash(path) == 0;
  }

  lemma {:induction false} DirectoryNames()
    ensures Join(STATE_ROOT) == STATE_DIRECTORY && Join([WORKSPACE_NAME]) == WORKSPACE_DIRECTORY
    ensures STATE_DIRECTORY != WORKSPACE_DIRECTORY
    ensures SLASH in STATE_DIRECTORY && ParentOf(STATE_DIRECTORY) == ROOT
    ensures SLASH in WORKSPACE_DIRECTORY && ParentOf(WORKSPACE_DIRECTORY) == ROOT
  {
    NamesValid();
    TopDirectory(STATE_NAME);
    TopDirectory(WORKSPACE_NAME);
    assert |STATE_DIRECTORY| == 1 + |STATE_NAME| && |WORKSPACE_DIRECTORY| == 1 + |WORKSPACE_NAME|;
    assert |STATE_NAME| == 25 && |WORKSPACE_NAME| == 29;
  }

  /** The cold boot makes the two directories, runs the lifecycle on the result, and fails without room for them. */
  lemma {:induction false} ColdBootExactly(e: Environment)
    ensures Installed(e, ColdBoot(e).0, ColdBoot(e).1)
  {
    DirectoryNames();
    if HasRoom(e.image) {
      assert e.image.dirs + {STATE_DIRECTORY} + {WORKSPACE_DIRECTORY}
          == e.image.dirs + {STATE_DIRECTORY, WORKSPACE_DIRECTORY};
    }
  }

  // ---- The boot block -------------------------------------------------------------------------

  class Gateway {
    const env: Environment
    var directory: GuestDirectory
    var evidence: Option<JsString>
    var mode: Mode

    constructor (env: Environment)
      ensures this.env == env && fresh(directory) && evidence == None && mode == Cold
    {
      this.env := env;
      directory := new GuestDirectory(env.image);
      evidence, mode := None, Cold;
    }

    /** runColdBoot: everything before it is left behind with the old directory. */
    method RunColdBoot() returns (ok: bool)
      modifies this`directory
      ensures fresh(directory) && (directory.Now(), ok) == ColdBoot(env) && Installed(env, directory.Now(), ok)
    {
      ColdBootExactly(env);
      directory := new GuestDirectory(env.image);
      ok := directory.CreateDir(Join(STATE_ROOT));
      if !ok { return; }
      ok := directory.CreateDir(Join([WORKSPACE_NAME]));
      if !ok { return; }
      var (guest, done) := env.lifecycle(Guest(directory.dirs, directory.files));
      directory.dirs, directory.files := guest.dirs, guest.files;
      ok := done;
    }

    /** restoreBootState; the evidence is set as soon as the tree is restored, before the checks behind it. */
    method RestoreBootState(view: nat -> Store, storeId: JsString, inGuest: bool) returns (ok: bool)
      requires directory.Now() == env.image
      modifies this`evidence, directory
      ensures (directory.Now(), ok) == WarmBoot(env, view, storeId, inGuest)
      ensures evidence == if RestoreState(env, view, storeId).ok then Some(storeId) else old(evidence)
    {
      ghost var written;
      ok, written := RestoreTree(env.platform, view, Join(STATE_ROOT), storeId, directory);
      if !ok { return; }
      evidence := Some(storeId);
      ok := directory.CreateDir(Join([WORKSPACE_NAME]));
      if !ok { return; }
      var now := Guest(directory.dirs, directory.files);
      ok := if inGuest then env.inspect(now) else HasDatabase(now);
    }

    /**
     * The boot block with an automatic store; `present` is hasDirectoryTreeSnapshot's answer, false if
     * it threw.  A cold boot has a directory of its own, whatever a restore that failed at any step
     * left in the one it was given.
     */
    method BootAutomatically(view: nat -> Store, storeId: JsString, present: bool) returns (ok: bool)
      requires evidence == None && mode == Cold
      modifies this`directory, this`evidence, this`mode
      ensures Booted(directory.Now(), evidence, mode, ok) == AutomaticBoot(env, view, storeId, present)
      ensures fresh(directory)
      ensures mode == Cold ==> Installed(env, directory.Now(), ok) && evidence == None
    {
      if present {
        directory := new GuestDirectory(env.image);
        ok := RestoreBootState(view, storeId, false);
        if ok {
          mode := Warm;
          return;
        }
        evidence := None;
      }
      ok := RunColdBoot();
    }

    /** The boot block with an explicit store: there is no fallback. */
    method BootExplicitly(view: nat -> Store, storeId: JsString) returns (ok: bool)
      requires evidence == None && mode == Cold
      modifies this`directory, this`evidence, this`mode
      ensures fresh(directory) && (directory.Now(), ok) == WarmBoot(env, view, storeId, true)
      ensures mode == if ok then Warm else Cold
      ensures evidence == if RestoreState(env, view, storeId).ok then Some(storeId) else None
    {
      directory := new GuestDirectory(env.image);
      ok := RestoreBootState(view, storeId, true);
      if ok { mode := Warm; }
    }
  }

  // ---- What a boot leaves ---------------------------------------------------------------------

  /** The snapshot has the state database, and not too small. */
  ghost predicate ListsDatabase(l: Listing) {
    exists i :: 0 <= i < |Files(l, [])| && Files(l, [])[i].path == DATABASE_PATH
      && |Files(l, [])[i].bytes| >= MIN_DATABASE_BYTES
  }

  /** The image has nothing where the state and the workspace go. */
  ghost predicate ImageClear(image: Guest) {
    Clear(image, STATE_ROOT) && Join([WORKSPACE_NAME]) !in image.dirs && Join([WORKSPACE_NAME]) !in image.files
  }

  lemma {:induction false} NamesValid()
    ensures ValidSegment(STATE_NAME) && ValidSegment(WORKSPACE_NAME) && STATE_NAME != WORKSPACE_NAME
    ensures ValidSegments(DATABASE_PATH) && DATABASE_PATH != []
    ensures ValidSegments(STATE_ROOT) && ValidSegments([WORKSPACE_NAME])
    ensures ValidSegments(STATE_ROOT + DATABASE_PATH)
  {
    assert |STATE_NAME| == 25 && |WORKSPACE_NAME| == 29;
    assert |DATABASE_PATH[0]| == 5 && |DATABASE_PATH[1]| == 15;
  }

  /** A path below the state's root is not the workspace. */
  lemma {:induction false} NotWorkspace(path: Path)
    requires ValidSegments(path) && path != [] && path[0] == STATE_NAME
    ensures Join(path) != Join([WORKSPACE_NAME])
  {
    NamesValid();
    if Join(path) == Join([WORKSPACE_NAME]) { JoinInjective(path, [WORKSPACE_NAME]); }
  }

  lemma {:induction false} TargetBelow(l: Listing, i: nat)
    requires WellFormed(l) && i < |Files(l, [])|
    ensures var path := STATE_ROOT + Files(l, [])[i].path;
      ValidSegments(path) && path[0] == STATE_NAME && Target(STATE_ROOT, Files(l, [])[i]) == Join(path)
  {
    NamesValid();
    PathsValid(l, []);
  }

  lemma {:induction false} DirBelow(l: Listing, i: nat)
    requires WellFormed(l) && i < |Dirs(l, [])|
    ensures var path := STATE_ROOT + Dirs(l, [])[i]; ValidSegments(path) && path[0] == STATE_NAME
  {
    NamesValid();
    PathsValid(l, []);
  }

  /** After a restore the workspace can still be made. */
  lemma {:induction false} WorkspaceFree(image: Guest, after: Guest, l: Listing)
    requires ImageClear(image) && WellFormed(l) && Rebuilt(image, after, STATE_ROOT, l)
    ensures CanCreateDir(after, Join([WORKSPACE_NAME]))
  {
    NamesValid();
    var path := Join([WORKSPACE_NAME]);
    assert [WORKSPACE_NAME] == [] + [WORKSPACE_NAME];
    JoinChild([], WORKSPACE_NAME);
    assert STATE_ROOT[..1] == STATE_ROOT;
    NotWorkspace(STATE_ROOT);
    if path in MountedDirs(STATE_ROOT, l) {
      var i :| 0 <= i < |Dirs(l, [])| && path == Join(STATE_ROOT + Dirs(l, [])[i]);
      DirBelow(l, i);
      NotWorkspace(STATE_ROOT + Dirs(l, [])[i]);
    }
    if path in after.files {
      var i :| 0 <= i < |Files(l, [])| && path == Target(STATE_ROOT, Files(l, [])[i]);
      TargetBelow(l, i);
      NotWorkspace(STATE_ROOT + Files(l, [])[i].path);
    }
  }

  /** The restored tree has the database exactly if the snapshot does. */
  lemma {:induction false} DatabaseRestored(image: Guest, after: Guest, l: Listing)
    requires ImageClear(image) && WellFormed(l) && Rebuilt(image, after, STATE_ROOT, l)
    ensures HasDatabase(after) <==> ListsDatabase(l)
  {
    NamesValid();
    var path := Join(STATE_ROOT + DATABASE_PATH);
    assert Below(STATE_ROOT, STATE_ROOT + DATABASE_PATH);
    assert path !in image.files;
    if path in after.files {
      var i :| 0 <= i < |Files(l, [])| && path == Target(STATE_ROOT, Files(l, [])[i]);
      TargetBelow(l, i);
      JoinInjective(STATE_ROOT + DATABASE_PATH, STATE_ROOT + Files(l, [])[i].path);
      assert (STATE_ROOT + Files(l, [])[i].path)[1..] == Files(l, [])[i].path
        && (STATE_ROOT + DATABASE_PATH)[1..] == DATABASE_PATH;
      assert Lookup(after.files, path) == Some(Files(l, [])[i].bytes);
      OneDatabase(l, i);
    }
    if ListsDatabase(l) {
      var i :| 0 <= i < |Files(l, [])| && Files(l, [])[i].path == DATABASE_PATH;
      assert Target(STATE_ROOT, Files(l, [])[i]) == path;
      assert Lookup(after.files, path) == Some(Files(l, [])[i].bytes);
    }
  }

  lemma {:induction false} OneDatabase(l: Listing, i: nat)
    requires WellFormed(l) && i < |Files(l, [])| && Files(l, [])[i].path == DATABASE_PATH
    ensures ListsDatabase(l) <==> |Files(l, [])[i].bytes| >= MIN_DATABASE_BYTES
  {
    forall j | 0 <= j < |Files(l, [])| && Files(l, [])[j].path == DATABASE_PATH ensures j == i {
      if j < i { FilesDistinct(l, [], j, i); }
      if i < j { FilesDistinct(l, [], i, j); }
    }
  }

  /** The snapshot that HEAD names is of the state's root and the store, and its paths can be mounted. */
  ghost predicate Mountable(current: Option<CommitOptions>, storeId: JsString) {
    && current.Some? && current.value.rootPath == STATE_DIRECTORY && current.value.storeId == storeId
    && DirectoriesMount(STATE_ROOT, current.value.listing)
  }

  /** And it has the database, which is what the automatic boot asks for besides. */
  ghost predicate Bootable(current: Option<CommitOptions>, storeId: JsString) {
    Mountable(current, storeId) && ListsDatabase(current.value.listing)
  }

  lemma {:induction false} CurrentIs(p: Platform, events: seq<Event>)
    ensures var s := Run(p, events);
      if s.published.None? then Current(s) == None
      else Current(s).Some? && WellFormed(Current(s).value.listing) && HeadNames(p, s.store, Current(s).value)
  {
    var s := Run(p, events);
    RunConsistent(p, events);
    if s.published.Some? {
      PublishedHead(p, s);
      assert Isolated(p, s.store, s.published.value, s.commits[s.published.value]);
      CompletedPlan(p, Current(s).value);
    }
  }

  lemma {:induction false} WarmTree(e: Environment, view: nat -> Store, storeId: JsString, l: Listing)
    requires ImageClear(e.image) && WellFormed(l)
    requires var r := RestoreState(e, view, storeId);
      (r.ok <==> DirectoriesMount(STATE_ROOT, l)) && (r.ok ==> Rebuilt(e.image, r.guest, STATE_ROOT, l))
    ensures var r, (g, ok) := RestoreState(e, view, storeId), WarmBoot(e, view, storeId, false);
      && (ok <==> DirectoriesMount(STATE_ROOT, l) && ListsDatabase(l))
      && (ok ==> g == r.guest.(dirs := r.guest.dirs + {Join([WORKSPACE_NAME])}))
    ensures var r, (g, ok) := RestoreState(e, view, storeId), WarmBoot(e, view, storeId, true);
      if r.ok then g == r.guest.(dirs := r.guest.dirs + {Join([WORKSPACE_NAME])}) && ok == e.inspect(g) else !ok
  {
    var r := RestoreState(e, view, storeId);
    if r.ok {
      WorkspaceFree(e.image, r.guest, l);
      DatabaseRestored(e.image, r.guest, l);
    }
  }

  /** A store with a published generation has a HEAD, and a HEAD is all that makes a snapshot present. */
  lemma {:induction false} PresentExactly(p: Platform, events: seq<Event>)
    ensures Current(Run(p, events)).Some? ==> SnapshotPresent(Run(p, events).store)
    ensures SnapshotPresent(Run(p, events).store) <==> [Ascii("HEAD.json")] in Run(p, events).store.files
  {
    CurrentIs(p, events);
    HeadHasRoot(p, events);
  }

  /** The guest has the whole tree of the listing at the state's root, and the workspace, on the image. */
  ghost predicate BootedFrom(e: Environment, guest: Guest, l: Listing) {
    exists g :: Rebuilt(e.image, g, STATE_ROOT, l) && guest == g.(dirs := g.dirs + {WORKSPACE_DIRECTORY})
  }

  /**
   * While commits run and crash on the store, the boot asks for a snapshot after `asked` events and
   * then restores.  It is warm exactly if there was a HEAD when it asked, which there is once a
   * generation was published, and the generation that HEAD names when the restore reads it is
   * bootable; its directory then is the image with that whole tree and the workspace.  Otherwise it is
   * what the install lifecycle makes of the image, with no evidence of a restore.
   */
  lemma {:induction false} BootsExactly(e: Environment, events: seq<Event>, asked: nat, at: nat -> nat,
                                        view: nat -> Store, storeId: JsString)
    requires Lawful(e.platform) && Sees(e.platform, events, at, view) && ImageClear(e.image) && asked <= at(0)
    ensures var before, current := Run(e.platform, events[..asked]), Current(Run(e.platform, events[..at(0)]));
      var b := AutomaticBoot(e, view, storeId, SnapshotPresent(before.store));
      var present := [Ascii("HEAD.json")] in before.store.files;
      && (Current(before).Some? ==> present)
      && if present && Bootable(current, storeId) then
           && b.mode == Warm && b.ok && b.evidence == Some(storeId)
           && BootedFrom(e, b.guest, current.value.listing)
         else b.mode == Cold && b.evidence == None && Installed(e, b.guest, b.ok)
  {
    var p, current := e.platform, Current(Run(e.platform, events[..at(0)]));
    PresentExactly(p, events[..asked]);
    ColdBootExactly(e);
    RestoredState(e, events, at, view, storeId);
  }

  /** What the boot's restore comes to, while commits run. */
  lemma {:induction false} RestoredState(e: Environment, events: seq<Event>, at: nat -> nat, view: nat -> Store,
                                         storeId: JsString)
    requires Lawful(e.platform) && Sees(e.platform, events, at, view) && ImageClear(e.image)
    ensures var current := Current(Run(e.platform, events[..at(0)]));
      var quick, thorough := WarmBoot(e, view, storeId, false), WarmBoot(e, view, storeId, true);
      && (quick.1 <==> Bootable(current, storeId))
      && (quick.1 ==> BootedFrom(e, quick.0, current.value.listing))
      && (thorough.1 <==> Mountable(current, storeId) && e.inspect(thorough.0))
      && (Mountable(current, storeId) ==> BootedFrom(e, thorough.0, current.value.listing))
  {
    var p, current := e.platform, Current(Run(e.platform, events[..at(0)]));
    CurrentIs(p, events[..at(0)]);
    RestoreIsolated(p, events, at, view, Join(STATE_ROOT), storeId, e.image);
    NamesValid();
    DirectoryNames();
    assert RootIs(Join(STATE_ROOT), STATE_ROOT);
    if current.Some? && current.value.rootPath == Join(STATE_ROOT) && current.value.storeId == storeId {
      WarmTree(e, view, storeId, current.value.listing);
    }
  }

  /**
   * With an explicit store the boot succeeds exactly if the generation that HEAD names can be mounted
   * and the inspection in the guest accepts the result, which is the image with that whole tree and
   * the workspace.
   */
  lemma {:induction false} BootsExplicitlyExactly(e: Environment, events: seq<Event>, at: nat -> nat,
                                                  view: nat -> Store, storeId: JsString)
    requires Lawful(e.platform) && Sees(e.platform, events, at, view) && ImageClear(e.image)
    ensures var current, (g, ok) := Current(Run(e.platform, events[..at(0)])), WarmBoot(e, view, storeId, true);
      && (ok <==> Mountable(current, storeId) && e.inspect(g))
      && (Mountable(current, storeId) ==> BootedFrom(e, g, current.value.listing))
  {
    RestoredState(e, events, at, view, storeId);
  }
}
