/**
 * Commits that run side by side, each one step at a time and each stopped anywhere, and restores
 * that read while they run.
 */
module SnapshotRuns {
  import opened Options
  import opened Json
  import opened SnapshotPaths
  import opened Snapshots
  import opened SnapshotTrees
  import opened SnapshotRoundTrip

  /** A commit and how many of its operations it has done. */
  datatype Commit = Commit(options: CommitOptions, done: nat)

  /** One store, the commits begun on it by generation, and the generation published last. */
  datatype System = System(store: Store, commits: map<JsString, Commit>, published: Option<JsString>)

  /** A commit that crashes is one that is not advanced any more. */
  datatype Event = Begin(options: CommitOptions) | Advance(generationId: JsString)

  const NOTHING_COMMITTED := System(EMPTY_STORE, map[], None)

  function OpsOf(p: Platform, c: Commit): seq<Op> { PlanCommit(p, c.options).ops }

  predicate Finished(p: Platform, c: Commit) {
    PlanCommit(p, c.options).manifest.Some? && c.done == |OpsOf(p, c)|
  }

  /** Generation ids are fresh, and directory listings have no name twice. */
  predicate CanBegin(s: System, o: CommitOptions) {
    o.generationId !in s.commits && IsGenerationId(o.generationId) && NamesDiffer(o.listing)
  }

  predicate CanAdvance(p: Platform, s: System, id: JsString) {
    id in s.commits && s.commits[id].done < |OpsOf(p, s.commits[id])|
  }

  /** The next operation of one commit. */
  function Advanced(p: Platform, s: System, id: JsString): System
    requires CanAdvance(p, s, id)
  {
    var c := s.commits[id].(done := s.commits[id].done + 1);
    System(Apply(s.store, OpsOf(p, c)[c.done - 1]), s.commits[id := c],
      if Finished(p, c) then Some(id) else s.published)
  }

  /** An event that cannot happen changes nothing. */
  function Step(p: Platform, s: System, e: Event): System {
    match e
    case Begin(o) => if CanBegin(s, o) then s.(commits := s.commits[o.generationId := Commit(o, 0)]) else s
    case Advance(id) => if CanAdvance(p, s, id) then Advanced(p, s, id) else s
  }

  function Run(p: Platform, events: seq<Event>): System {
    if events == [] then NOTHING_COMMITTED else Step(p, Run(p, events[..|events| - 1]), events[|events| - 1])
  }

  // ---- What a commit writes -------------------------------------------------------------------

  /** Makes a directory, or writes below the commit's own generation. */
  predicate Own(op: Op, id: JsString) {
    op.MakeDirectory? || Below(GenerationPath(id), op.path)
  }

  predicate AllOwn(ops: seq<Op>, id: JsString) {
    forall i :: 0 <= i < |ops| ==> Own(ops[i], id)
  }

  /** The traversal, also one that throws, writes only below its destination. */
  lemma {:induction false} VisitOwn(p: Platform, l: Listing, rel: JsString, dest: Path, acc: Progress, id: JsString)
    requires AllOwn(acc.ops, id) && (dest == PayloadPath(id) || Below(PayloadPath(id), dest))
    ensures AllOwn(Visit(p, l, rel, dest, acc).ops, id)
    decreases l
  {
    match l
    case Done =>
    case FileEntry(name, bytes, rest) =>
      assert Below(GenerationPath(id), dest + [name]);
      VisitOwn(p, rest, rel, dest, WithFile(p, acc, RelativeChild(rel, name), dest + [name], bytes), id);
    case DirEntry(name, children, rest) =>
      var acc1 := WithDirectory(acc, RelativeChild(rel, name), dest + [name]);
      VisitOwn(p, children, RelativeChild(rel, name), dest + [name], acc1, id);
      VisitOwn(p, rest, rel, dest, Visit(p, children, RelativeChild(rel, name), dest + [name], acc1), id);
    case OtherEntry(_, _) =>
  }

  /** Only the last two operations of a commit, and only of one that completes, are on HEAD. */
  lemma {:induction false} PlanOwn(p: Platform, o: CommitOptions)
    ensures var plan := PlanCommit(p, o); var n := |plan.ops|;
      if plan.manifest.None? then AllOwn(plan.ops, o.generationId)
      else
        && n >= 2 && AllOwn(plan.ops[..n - 2], o.generationId)
        && plan.ops[n - 2] == MakeFile(HEAD_PATH)
        && plan.ops[n - 1] == Replace(HEAD_PATH, p.encodeHead(HeadFor(p, plan.manifest.value)))
  {
    var id, plan := o.generationId, PlanCommit(p, o);
    VisitOwn(p, o.listing, ROOT, PayloadPath(id), Progress(OpeningOps(id), [ROOT], [], 0, false), id);
    if plan.manifest.Some? {
      var v, m := Visited(p, o), plan.manifest.value;
      assert plan.ops[..|plan.ops| - 2] == v.ops + WriteFileOps(ManifestPath(id), p.encodeManifest(m));
    }
  }

  // ---- What holds in every reachable state ----------------------------------------------------

  /** What a commit has written so far, on its own. */
  function Alone(p: Platform, c: Commit): Store
    requires c.done <= |OpsOf(p, c)|
  {
    Execute(EMPTY_STORE, OpsOf(p, c)[..c.done])
  }

  /** A commit's generation holds what the commit has written there, and nothing else. */
  ghost predicate Isolated(p: Platform, store: Store, id: JsString, c: Commit) {
    && c.options.generationId == id && IsGenerationId(id) && NamesDiffer(c.options.listing)
    && c.done <= |OpsOf(p, c)|
    && Alone(p, c).dirs <= store.dirs
    && forall path :: Below(GenerationPath(id), path) ==> Lookup(store.files, path) == Lookup(Alone(p, c).files, path)
  }

  ghost predicate NoneFrom(store: Store, id: JsString) {
    forall path :: Below(GenerationPath(id), path) ==> path !in store.files
  }

  /** HEAD is absent or empty, or names the generation published last. */
  ghost predicate HeadPublished(p: Platform, s: System) {
    match s.published
    case None => HEAD_PATH in s.store.files ==> s.store.files[HEAD_PATH] == []
    case Some(id) =>
      && id in s.commits && Finished(p, s.commits[id]) && s.commits[id].options.generationId == id
      && Lookup(s.store.files, HEAD_PATH)
         == Some(p.encodeHead(HeadFor(p, PlanCommit(p, s.commits[id].options).manifest.value)))
  }

  ghost predicate Consistent(p: Platform, s: System) {
    && (forall id :: id in s.commits ==> Isolated(p, s.store, id, s.commits[id]))
    && (forall id :: id !in s.commits ==> NoneFrom(s.store, id))
    && HeadPublished(p, s)
  }

  lemma {:induction false} ApplyOther(store: Store, op: Op, id: JsString, path: Path)
    requires (Own(op, id) && !Below(GenerationPath(id), path)) || (op.path == HEAD_PATH && path != HEAD_PATH)
    ensures Lookup(Apply(store, op).files, path) == Lookup(store.files, path)
    ensures store.dirs <= Apply(store, op).dirs
  {
  }

  lemma {:induction false} OtherGeneration(id: JsString, other: JsString, path: Path)
    requires id != other && Below(GenerationPath(id), path)
    ensures !Below(GenerationPath(other), path) && path != HEAD_PATH
  {
    assert path[..2][1] == id;
    assert GenerationPath(other)[1] == other;
  }

  lemma {:induction false} AloneNext(p: Platform, c: Commit)
    requires c.done < |OpsOf(p, c)|
    ensures Alone(p, c.(done := c.done + 1)) == Apply(Alone(p, c), OpsOf(p, c)[c.done])
  {
    assert OpsOf(p, c)[..c.done + 1][..c.done] == OpsOf(p, c)[..c.done];
  }

  /** The next operation of a commit is on its own generation, or one of the last two, on HEAD. */
  lemma {:induction false} NextOp(p: Platform, c: Commit)
    requires c.done < |OpsOf(p, c)|
    ensures var op, plan, n := OpsOf(p, c)[c.done], PlanCommit(p, c.options), |OpsOf(p, c)|;
      if plan.manifest.None? || c.done < n - 2 then Own(op, c.options.generationId)
      else if c.done == n - 2 then op == MakeFile(HEAD_PATH)
      else op == Replace(HEAD_PATH, p.encodeHead(HeadFor(p, plan.manifest.value)))
  {
    PlanOwn(p, c.options);
    var plan := PlanCommit(p, c.options);
    if plan.manifest.Some? && c.done < |plan.ops| - 2 {
      assert plan.ops[..|plan.ops| - 2][c.done] == plan.ops[c.done];
    }
  }

  lemma {:induction false} ApplyAlike(a: Store, b: Store, op: Op, path: Path)
    requires Lookup(a.files, path) == Lookup(b.files, path)
    ensures Lookup(Apply(a, op).files, path) == Lookup(Apply(b, op).files, path)
  {
  }

  lemma {:induction false} ApplyDirs(a: Store, b: Store, op: Op)
    requires a.dirs <= b.dirs
    ensures Apply(a, op).dirs <= Apply(b, op).dirs
  {
  }

  lemma {:induction false} AdvanceIsolatesOwn(p: Platform, s: System, id: JsString)
    requires Consistent(p, s) && CanAdvance(p, s, id)
    ensures Isolated(p, Advanced(p, s, id).store, id, Advanced(p, s, id).commits[id])
  {
    var c := s.commits[id];
    assert Isolated(p, s.store, id, c);
    AloneNext(p, c);
    var op := OpsOf(p, c)[c.done];
    ApplyDirs(Alone(p, c), s.store, op);
    forall path | Below(GenerationPath(id), path)
      ensures Lookup(Apply(s.store, op).files, path) == Lookup(Apply(Alone(p, c), op).files, path)
    {
      ApplyAlike(s.store, Alone(p, c), op, path);
    }
  }

  lemma {:induction false} AdvanceIsolatesOther(p: Platform, s: System, id: JsString, other: JsString)
    requires Consistent(p, s) && CanAdvance(p, s, id) && other != id
    ensures other in s.commits ==> Isolated(p, Advanced(p, s, id).store, other, s.commits[other])
    ensures other !in s.commits ==> NoneFrom(Advanced(p, s, id).store, other)
  {
    var c, after := s.commits[id], Advanced(p, s, id).store;
    assert Isolated(p, s.store, id, c);
    NextOp(p, c);
    var op := OpsOf(p, c)[c.done];
    forall path | Below(GenerationPath(other), path)
      ensures Lookup(after.files, path) == Lookup(s.store.files, path)
    {
      OtherGeneration(other, id, path);
      ApplyOther(s.store, op, id, path);
    }
    assert s.store.dirs <= after.dirs;
    if other in s.commits { assert Isolated(p, s.store, other, s.commits[other]); }
    else { assert NoneFrom(s.store, other); }
  }

  /** While nothing is published, HEAD keeps what it says. */
  lemma {:induction false} HeadKept(p: Platform, s: System, id: JsString, t: System)
    requires HeadPublished(p, s) && CanAdvance(p, s, id) && t.published == s.published
    requires t.commits == s.commits[id := s.commits[id].(done := s.commits[id].done + 1)]
    requires Lookup(t.store.files, HEAD_PATH) == Lookup(s.store.files, HEAD_PATH)
      || (Lookup(s.store.files, HEAD_PATH) == None && Lookup(t.store.files, HEAD_PATH) == Some([]))
    ensures HeadPublished(p, t)
  {
    if s.published.Some? {
      assert Finished(p, s.commits[s.published.value]);
      assert s.published.value != id;
    }
  }

  /** The last operation of a commit that completes publishes it. */
  lemma {:induction false} HeadWritten(p: Platform, t: System, id: JsString)
    requires id in t.commits && t.commits[id].options.generationId == id && Finished(p, t.commits[id])
    requires t.published == Some(id)
    requires Lookup(t.store.files, HEAD_PATH)
          == Some(p.encodeHead(HeadFor(p, PlanCommit(p, t.commits[id].options).manifest.value)))
    ensures HeadPublished(p, t)
  {
  }

  lemma {:induction false} HeadOps(store: Store, op: Op, id: JsString)
    ensures Own(op, id) || op == MakeFile(HEAD_PATH) ==>
      Lookup(Apply(store, op).files, HEAD_PATH) == Lookup(store.files, HEAD_PATH)
      || (Lookup(store.files, HEAD_PATH) == None && Lookup(Apply(store, op).files, HEAD_PATH) == Some([]))
  {
  }

  /** HEAD is rewritten exactly by the last operation of a commit that completes. */
  lemma {:induction false} AdvanceHead(p: Platform, s: System, id: JsString)
    requires Consistent(p, s) && CanAdvance(p, s, id)
    ensures HeadPublished(p, Advanced(p, s, id))
  {
    var c, t := s.commits[id], Advanced(p, s, id);
    assert Isolated(p, s.store, id, c);
    NextOp(p, c);
    HeadOps(s.store, OpsOf(p, c)[c.done], id);
    if Finished(p, t.commits[id]) { HeadWritten(p, t, id); } else { HeadKept(p, s, id, t); }
  }

  lemma {:induction false} StepKeepsConsistent(p: Platform, s: System, e: Event)
    requires Consistent(p, s)
    ensures Consistent(p, Step(p, s, e))
  {
    match e
    case Begin(o) =>
      if CanBegin(s, o) {
        var c := Commit(o, 0);
        assert OpsOf(p, c)[..0] == [];
        assert NoneFrom(s.store, o.generationId);
        assert Isolated(p, s.store, o.generationId, c);
      }
    case Advance(id) =>
      if CanAdvance(p, s, id) {
        AdvanceIsolatesOwn(p, s, id);
        forall other | other != id
          ensures other in s.commits ==> Isolated(p, Advanced(p, s, id).store, other, s.commits[other])
          ensures other !in s.commits ==> NoneFrom(Advanced(p, s, id).store, other)
        {
          AdvanceIsolatesOther(p, s, id, other);
        }
        AdvanceHead(p, s, id);
      }
  }

  lemma {:induction false} RunConsistent(p: Platform, events: seq<Event>)
    ensures Consistent(p, Run(p, events))
  {
    if events != [] {
      RunConsistent(p, events[..|events| - 1]);
      StepKeepsConsistent(p, Run(p, events[..|events| - 1]), events[|events| - 1]);
    }
  }

  // ---- Published generations ------------------------------------------------------------------

  lemma {:induction false} StepKeepsFinished(p: Platform, s: System, e: Event, id: JsString)
    requires id in s.commits && s.commits[id].done == |OpsOf(p, s.commits[id])|
    ensures id in Step(p, s, e).commits && Step(p, s, e).commits[id] == s.commits[id]
  {
  }

  lemma {:induction false} RunKeepsFinished(p: Platform, events: seq<Event>, n: nat, id: JsString)
    requires n <= |events| && id in Run(p, events[..n]).commits
    requires var c := Run(p, events[..n]).commits[id]; c.done == |OpsOf(p, c)|
    ensures id in Run(p, events).commits && Run(p, events).commits[id] == Run(p, events[..n]).commits[id]
    decreases |events|
  {
    if n == |events| {
      assert events[..n] == events;
    } else {
      var before := events[..|events| - 1];
      assert before[..n] == events[..n];
      RunKeepsFinished(p, before, n, id);
      StepKeepsFinished(p, Run(p, before), events[|events| - 1], id);
    }
  }

  /** Once HEAD has named a generation, nothing below it changes again. */
  lemma {:induction false} GenerationFrozen(p: Platform, events: seq<Event>, n: nat, path: Path)
    requires n <= |events| && Run(p, events[..n]).published.Some?
    requires Below(GenerationPath(Run(p, events[..n]).published.value), path)
    ensures Lookup(Run(p, events).store.files, path) == Lookup(Run(p, events[..n]).store.files, path)
  {
    var id := Run(p, events[..n]).published.value;
    RunConsistent(p, events);
    RunConsistent(p, events[..n]);
    RunKeepsFinished(p, events, n, id);
    assert Isolated(p, Run(p, events).store, id, Run(p, events).commits[id]);
    assert Isolated(p, Run(p, events[..n]).store, id, Run(p, events[..n]).commits[id]);
  }

  lemma {:induction false} BelowPayload(id: JsString, path: Path)
    requires Below(PayloadPath(id), path)
    ensures Below(GenerationPath(id), path)
  {
    assert path[..3][..2] == path[..2];
  }

  /** A finished commit's generation is complete. */
  lemma {:induction false} FinishedHolds(p: Platform, s: System, id: JsString)
    requires Consistent(p, s) && id in s.commits && Finished(p, s.commits[id])
    ensures Holds(p, s.store, s.commits[id].options)
  {
    var c, o := s.commits[id], s.commits[id].options;
    assert Isolated(p, s.store, id, c);
    assert OpsOf(p, c)[..c.done] == OpsOf(p, c);
    CommitStores(p, o, EMPTY_STORE);
    forall i | 0 <= i < |Files(o.listing, PayloadPath(id))|
      ensures Lookup(s.store.files, Files(o.listing, PayloadPath(id))[i].path)
           == Some(Files(o.listing, PayloadPath(id))[i].bytes)
    {
      FilesThrough(o.listing, PayloadPath(id), i);
      BelowPayload(id, Files(o.listing, PayloadPath(id))[i].path);
    }
    assert Below(GenerationPath(id), ManifestPath(id));
  }

  lemma {:induction false} PublishedHead(p: Platform, s: System)
    requires Consistent(p, s) && s.published.Some?
    ensures HeadNames(p, s.store, s.commits[s.published.value].options)
  {
    var id := s.published.value;
    assert Isolated(p, s.store, id, s.commits[id]);
    CompletedPlan(p, s.commits[id].options);
    FinishedHolds(p, s, id);
  }

  // ---- Restores -------------------------------------------------------------------------------

  /** A restore's n-th read sees the store after the first `at(n)` events. */
  ghost predicate Sees(p: Platform, events: seq<Event>, at: nat -> nat, view: nat -> Store) {
    && (forall n :: at(n) <= |events|)
    && (forall m, n :: m <= n ==> at(m) <= at(n))
    && (forall n :: view(n) == Run(p, events[..at(n)]).store)
  }

  /** The first operation of a plan that completes makes the directory of the store. */
  lemma {:induction false} FirstMakesRoot(ops: seq<Op>, n: nat)
    requires 0 < n <= |ops| && ops[0] == MakeDirectory([])
    ensures [] in Execute(EMPTY_STORE, ops[..n]).dirs
  {
    if n > 1 {
      FirstMakesRoot(ops, n - 1);
      assert ops[..n][..n - 1] == ops[..n - 1];
    }
  }

  lemma {:induction false} HeadOpHasRoot(p: Platform, s: System, id: JsString, t: System)
    requires CanAdvance(p, s, id) && t == Advanced(p, s, id) && Consistent(p, t)
    requires HEAD_PATH !in s.store.files && HEAD_PATH in t.store.files
    ensures [] in t.store.dirs
  {
    var c := t.commits[id];
    PlanOwn(p, c.options);
    var op := OpsOf(p, c)[c.done - 1];
    assert op.path == HEAD_PATH && !op.MakeDirectory?;
    assert Isolated(p, t.store, id, c);
    assert AllOwn(OpsOf(p, c), c.options.generationId) ==> Own(op, c.options.generationId);
    CompletedPlan(p, c.options);
    FirstMakesRoot(OpsOf(p, c), c.done);
  }

  /** A store that has a HEAD has its directory. */
  lemma {:induction false} HeadHasRoot(p: Platform, events: seq<Event>)
    ensures HEAD_PATH in Run(p, events).store.files ==> [] in Run(p, events).store.dirs
  {
    if events != [] {
      var before, e := Run(p, events[..|events| - 1]), events[|events| - 1];
      HeadHasRoot(p, events[..|events| - 1]);
      RunConsistent(p, events);
      if e.Advance? && CanAdvance(p, before, e.generationId) {
        var t := Run(p, events);
        if HEAD_PATH !in before.store.files && HEAD_PATH in t.store.files {
          HeadOpHasRoot(p, before, e.generationId, t);
        }
      }
    }
  }

  /** The commit that HEAD names. */
  function Current(s: System): Option<CommitOptions> {
    if s.published.Some? && s.published.value in s.commits then Some(s.commits[s.published.value].options) else None
  }

  /** What a restore makes of a store that has `current`. */
  ghost predicate Outcome(current: Option<CommitOptions>, rootPath: JsString, storeId: JsString,
                          guest: Guest, r: Restoration) {
    match current
    case None => r == Restoration(guest, false, [])
    case Some(o) =>
      if o.rootPath != rootPath || o.storeId != storeId then r == Restoration(guest, false, [])
      else forall root :: RootIs(rootPath, root) && Clear(guest, root) ==>
        && (r.ok <==> DirectoriesMount(root, o.listing))
        && (r.ok ==> Rebuilt(guest, r.guest, root, o.listing))
  }

  /** The published generation is in every store that a restore sees after it read HEAD. */
  lemma {:induction false} PublishedShows(p: Platform, events: seq<Event>, at: nat -> nat, view: nat -> Store)
    requires Sees(p, events, at, view) && Run(p, events[..at(0)]).published.Some?
    ensures Current(Run(p, events[..at(0)])).Some?
    ensures Shows(p, view, Current(Run(p, events[..at(0)])).value, 1)
  {
    var s := Run(p, events[..at(0)]);
    var id := s.published.value;
    RunConsistent(p, events[..at(0)]);
    forall n: nat | n >= 1 ensures Holds(p, view(n), s.commits[id].options) {
      assert at(0) <= at(n);
      assert events[..at(n)][..at(0)] == events[..at(0)];
      RunKeepsFinished(p, events[..at(n)], at(0), id);
      RunConsistent(p, events[..at(n)]);
      FinishedHolds(p, Run(p, events[..at(n)]), id);
    }
  }

  /** Asked for another root or store, a restore fails before it touches the guest. */
  lemma {:induction false} RestoreOther(p: Platform, view: nat -> Store, o: CommitOptions,
                                        rootPath: JsString, storeId: JsString, guest: Guest)
    requires Lawful(p) && IsGenerationId(o.generationId) && HeadNames(p, view(0), o) && Holds(p, view(1), o)
    requires o.rootPath != rootPath || o.storeId != storeId
    ensures Restore(p, view, rootPath, storeId, guest) == Restoration(guest, false, [])
  {
    HeadIsRead(p, view(0), o);
    assert p.decodeManifest(p.encodeManifest(TheManifest(p, o))) == Some(TheManifest(p, o));
  }

  /** What a restore makes of a store that shows the generation of `o`. */
  lemma {:induction false} RestoreOutcome(p: Platform, view: nat -> Store, o: CommitOptions,
                                          rootPath: JsString, storeId: JsString, guest: Guest)
    requires Lawful(p) && IsGenerationId(o.generationId) && NamesDiffer(o.listing) && Completes(p, o)
    requires HeadNames(p, view(0), o) && Shows(p, view, o, 1)
    ensures Outcome(Some(o), rootPath, storeId, guest, Restore(p, view, rootPath, storeId, guest))
  {
    if o.rootPath != rootPath || o.storeId != storeId {
      RestoreOther(p, view, o, rootPath, storeId, guest);
    } else {
      forall root | RootIs(rootPath, root) && Clear(guest, root)
        ensures var r := Restore(p, view, rootPath, storeId, guest);
          && (r.ok <==> DirectoriesMount(root, o.listing))
          && (r.ok ==> Rebuilt(guest, r.guest, root, o.listing))
      {
        RestoreCommitted(p, view, o, root, guest);
      }
    }
  }

  /**
   * A restore that runs while commits begin, advance and crash gives the tree of the one generation
   * that HEAD named when it started, whole, or fails because nothing was committed or because it
   * asked for another root or store.
   */
  lemma {:induction false} RestoreIsolated(p: Platform, events: seq<Event>, at: nat -> nat, view: nat -> Store,
                        rootPath: JsString, storeId: JsString, guest: Guest)
    requires Lawful(p) && Sees(p, events, at, view)
    ensures Outcome(Current(Run(p, events[..at(0)])), rootPath, storeId, guest,
            Restore(p, view, rootPath, storeId, guest))
  {
    var s := Run(p, events[..at(0)]);
    RunConsistent(p, events[..at(0)]);
    assert view(0) == s.store;
    if s.published.Some? {
      var id := s.published.value;
      PublishedHead(p, s);
      PublishedShows(p, events, at, view);
      assert Isolated(p, s.store, id, s.commits[id]);
      RestoreOutcome(p, view, s.commits[id].options, rootPath, storeId, guest);
    }
  }

  /** A restore of a store that nobody changes. */
  lemma {:induction false} RestoreAtRest(p: Platform, events: seq<Event>, view: nat -> Store,
                                         rootPath: JsString, storeId: JsString, guest: Guest)
    requires Lawful(p) && forall k :: view(k) == Run(p, events).store
    ensures Outcome(Current(Run(p, events)), rootPath, storeId, guest, Restore(p, view, rootPath, storeId, guest))
  {
    assert events[..|events|] == events;
    RestoreIsolated(p, events, _ => |events|, view, rootPath, storeId, guest);
  }

  // ---- Crashes --------------------------------------------------------------------------------

  /** The first `n` operations of one new commit, with nothing else running. */
  function CommitEvents(o: CommitOptions, n: nat): seq<Event> {
    if n == 0 then [Begin(o)] else CommitEvents(o, n - 1) + [Advance(o.generationId)]
  }

  /** A system in which a new commit has done `n` operations. */
  function During(p: Platform, s: System, o: CommitOptions, n: nat): System
    requires n <= |PlanCommit(p, o).ops|
  {
    var plan := PlanCommit(p, o);
    System(Execute(s.store, plan.ops[..n]), s.commits[o.generationId := Commit(o, n)],
           if n > 0 && n == |plan.ops| && plan.manifest.Some? then Some(o.generationId) else s.published)
  }

  lemma {:induction false} CommitRunsOn(p: Platform, s: System, o: CommitOptions, n: nat)
    requires 0 < n <= |PlanCommit(p, o).ops|
    ensures Step(p, During(p, s, o, n - 1), Advance(o.generationId)) == During(p, s, o, n)
  {
    var ops := PlanCommit(p, o).ops;
    assert ops[..n][..n - 1] == ops[..n - 1];
    var c := Commit(o, n - 1);
    assert OpsOf(p, c) == ops && c.(done := n) == Commit(o, n);
    assert s.commits[o.generationId := c][o.generationId := Commit(o, n)] == s.commits[o.generationId := Commit(o, n)];
  }

  lemma {:induction false} RunLast(p: Platform, events: seq<Event>, e: Event)
    ensures Run(p, events + [e]) == Step(p, Run(p, events), e)
  {
    assert (events + [e])[..|events|] == events;
  }

  lemma {:induction false} CommitBegins(p: Platform, events: seq<Event>, o: CommitOptions)
    requires CanBegin(Run(p, events), o)
    ensures Run(p, events + CommitEvents(o, 0)) == During(p, Run(p, events), o, 0)
  {
    RunLast(p, events, Begin(o));
    assert PlanCommit(p, o).ops[..0] == [];
  }

  lemma {:induction false} CommitGoesOn(p: Platform, events: seq<Event>, o: CommitOptions, n: nat)
    requires n > 0
    ensures Run(p, events + CommitEvents(o, n))
            == Step(p, Run(p, events + CommitEvents(o, n - 1)), Advance(o.generationId))
  {
    RunLast(p, events + CommitEvents(o, n - 1), Advance(o.generationId));
    assert events + CommitEvents(o, n) == events + CommitEvents(o, n - 1) + [Advance(o.generationId)];
  }

  lemma {:induction false} CommitRunsNext(p: Platform, events: seq<Event>, o: CommitOptions, n: nat)
    requires 0 < n <= |PlanCommit(p, o).ops|
    requires Run(p, events + CommitEvents(o, n - 1)) == During(p, Run(p, events), o, n - 1)
    ensures Run(p, events + CommitEvents(o, n)) == During(p, Run(p, events), o, n)
  {
    CommitGoesOn(p, events, o, n);
    CommitRunsOn(p, Run(p, events), o, n);
  }

  lemma {:induction false} CommitRuns(p: Platform, events: seq<Event>, o: CommitOptions, n: nat)
    requires CanBegin(Run(p, events), o) && n <= |PlanCommit(p, o).ops|
    ensures Run(p, events + CommitEvents(o, n)) == During(p, Run(p, events), o, n)
  {
    if n == 0 {
      CommitBegins(p, events, o);
    } else {
      CommitRuns(p, events, o, n - 1);
      CommitRunsNext(p, events, o, n);
    }
  }

  lemma {:induction false} DuringCurrent(p: Platform, s: System, o: CommitOptions, n: nat)
    requires Consistent(p, s) && CanBegin(s, o) && n <= |PlanCommit(p, o).ops|
    ensures Current(During(p, s, o, n))
         == if PlanCommit(p, o).manifest.Some? && n == |PlanCommit(p, o).ops| then Some(o) else Current(s)
  {
    PlanOwn(p, o);
  }

  /**
   * A commit stopped after any number of its operations leaves a store from which a restore gives
   * what it gave before, unless the last operation of a commit that does not throw was done: then
   * it gives the new tree.
   */
  lemma {:induction false} CrashConsistent(p: Platform, events: seq<Event>, o: CommitOptions, n: nat,
                        view: nat -> Store, rootPath: JsString, storeId: JsString, guest: Guest)
    requires Lawful(p) && CanBegin(Run(p, events), o) && n <= |PlanCommit(p, o).ops|
    requires forall k :: view(k) == Execute(Run(p, events).store, PlanCommit(p, o).ops[..n])
    ensures var s, plan := Run(p, events), PlanCommit(p, o);
      var r := Restore(p, view, rootPath, storeId, guest);
      Outcome(if plan.manifest.Some? && n == |plan.ops| then Some(o) else Current(s), rootPath, storeId, guest, r)
  {
    CommitRuns(p, events, o, n);
    RunConsistent(p, events);
    DuringCurrent(p, Run(p, events), o, n);
    RestoreAtRest(p, events + CommitEvents(o, n), view, rootPath, storeId, guest);
  }
}
