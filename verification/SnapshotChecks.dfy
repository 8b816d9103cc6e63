/**
 * What the snapshot store accepts, said of characters and entries alone: paths, ids and manifests; and
 * that a restore reads nothing else and writes only below its root.
 */
module SnapshotChecks {
  import opened Options
  import opened Json
  import opened Splitting
  import opened SnapshotPaths
  import opened Snapshots
  import opened SnapshotRoundTrip

  // ---- Paths ----------------------------------------------------------------------------------

  /**
   * At most 4096 units that start with a slash and do not end with one, unless it is the only one,
   * without 0 and backslash, and behind no slash there are one or two dots and then a slash or the end.
   */
  ghost predicate SafePath(s: JsString) {
    && s != [] && |s| <= 4096 && s[0] == 47 && 0 !in s && 92 !in s
    && (|s| > 1 ==> s[|s| - 1] != 47)
    && !HasDots(s, 47, 46, 1) && !HasDots(s, 47, 46, 2)
  }

  lemma {:induction false} PathExactly(s: JsString)
    ensures ValidAbsolutePath(s) <==> SafePath(s)
  {
    if s != [] && s[0] == SLASH {
      var segments := Split(s[1..]);
      DotsExactly(s, SLASH, DOT, 1, [DOT]);
      DotsExactly(s, SLASH, DOT, 2, [DOT, DOT]);
      if BACKSLASH !in s && 0 !in s {
        forall i | 0 <= i < |segments|
          ensures segments[i] == [] || ValidSegment(segments[i]) || segments[i] == [DOT] || segments[i] == [DOT, DOT]
        {
          PartHasUnits(s[1..], segments[i]);
        }
      }
    }
  }

  /** A segment has no slash, and only units of the path. */
  lemma {:induction false} PartHasUnits(s: JsString, segment: JsString)
    requires segment in Split(s)
    ensures SLASH !in segment && forall u :: u in segment ==> u in s
  {
    PartsExactly(s, SLASH, segment);
    var i: nat :| i <= |s| && PartAt(s, SLASH, i, segment);
    forall u | u in segment ensures u in s {
      var k :| 0 <= k < |segment| && segment[k] == u;
      assert s[i..i + |segment|][k] == s[i + k];
    }
  }

  /** Behind a path that does not end with a slash, another brings no segment of dots of its own. */
  lemma {:induction false} NoNewDots(a: JsString, b: JsString, n: nat)
    requires n > 0 && b != [] && b[0] == SLASH && HasDots(a + b, SLASH, DOT, n)
    ensures HasDots(a, SLASH, DOT, n) || HasDots(b, SLASH, DOT, n)
  {
    var s := a + b;
    var i: nat :| i < |s| && s[i] == SLASH && DotsAt(s, SLASH, DOT, i + 1, n);
    if i >= |a| {
      assert forall k :: 0 <= k < |b| ==> b[k] == s[k + |a|];
      assert DotsAt(b, SLASH, DOT, i - |a| + 1, n);
    } else {
      assert s[|a|] == SLASH;
      assert forall k :: 0 <= k < |a| ==> s[k] == a[k];
      assert DotsAt(a, SLASH, DOT, i + 1, n);
    }
  }

  // ---- Ids ------------------------------------------------------------------------------------

  predicate IsLowerHex(u: CodeUnit) { 48 <= u <= 57 || 97 <= u <= 102 }

  predicate Hex64(s: JsString) { |s| == 64 && forall i :: 0 <= i < 64 ==> IsLowerHex(s[i]) }

  predicate Hex36(s: JsString) { |s| == 36 && forall i :: 0 <= i < 36 ==> IsLowerHex(s[i]) || s[i] == 45 }

  predicate IsLowerAlphanumeric(u: CodeUnit) { 97 <= u <= 122 || 48 <= u <= 57 }

  /** One to 64 lower-case letters, digits, points, underscores and hyphens, the first a letter or digit. */
  predicate PlainStoreId(s: JsString) {
    && 0 < |s| <= 64 && IsLowerAlphanumeric(s[0])
    && forall i :: 0 <= i < |s| ==> IsLowerAlphanumeric(s[i]) || s[i] == 46 || s[i] == 95 || s[i] == 45
  }

  lemma {:induction false} IdsExactly(s: JsString)
    ensures IsDigest(s) <==> Hex64(s)
    ensures IsGenerationId(s) <==> Hex36(s)
    ensures ValidStoreId(s) <==> PlainStoreId(s)
  {
    assert forall u :: IsHexDigit(u) <==> IsLowerHex(u);
    assert forall u :: IsStoreIdUnit(u) <==> IsLowerAlphanumeric(u);
  }

  // ---- Manifests ------------------------------------------------------------------------------

  /** `path` is the directory's, a slash and a name; in the root, a slash and a name. */
  predicate Contains(directory: JsString, path: JsString, name: JsString) {
    SLASH !in name
    && ((directory != [] && path == directory + [SLASH] + name) || (directory == ROOT && path == [SLASH] + name))
  }

  lemma {:induction false} ParentExactly(path: JsString, directory: JsString)
    requires SLASH in path && path[0] == SLASH
    ensures directory == ParentOf(path) <==> exists name :: Contains(directory, path, name)
  {
    var slash := LastSlash(path);
    var last := path[slash + 1..];
    assert forall k :: 0 <= k < |last| ==> last[k] == path[slash + 1 + k];
    assert path == path[..slash] + [SLASH] + last;
    if directory == ParentOf(path) { assert Contains(directory, path, last); }
    if name :| Contains(directory, path, name) {
      if directory != [] && path == directory + [SLASH] + name { ParentOfSlashed(directory, name); }
      else {
        ParentOfSlashed([], name);
        assert [] + [SLASH] + name == path;
      }
    }
  }

  ghost predicate SoundEntry(f: SnapshotFile, directories: seq<JsString>) {
    && SafePath(f.path) && f.path != [47] && 0 <= f.bytes <= 9_007_199_254_740_991 && Hex64(f.sha256)
    && exists k, name :: 0 <= k < |directories| && Contains(directories[k], f.path, name)
  }

  /**
   * The manifest is the one asked for; the root is a path but not "/"; the directories are distinct
   * paths, "/" the first; the files are at most 20,000, each with a path of its own in one of the
   * directories, a size and a digest; and their sizes add up to its byte count, at most 512 MiB.
   */
  ghost predicate SoundManifest(m: Manifest, generationId: JsString, rootPath: JsString, storeId: JsString) {
    && m.schemaVersion == 1 && m.generationId == generationId && m.rootPath == rootPath && m.storeId == storeId
    && SafePath(rootPath) && rootPath != [47]
    && m.directories != [] && m.directories[0] == [47]
    && (forall i :: 0 <= i < |m.directories| ==> SafePath(m.directories[i]))
    && (forall i, j :: 0 <= i < j < |m.directories| ==> m.directories[i] != m.directories[j])
    && |m.files| <= 20_000
    && (forall i :: 0 <= i < |m.files| ==> SoundEntry(m.files[i], m.directories))
    && (forall i, j :: 0 <= i < j < |m.files| ==> m.files[i].path != m.files[j].path)
    && m.payloadBytes == TotalBytes(m.files) <= 536_870_912
  }

  lemma {:induction false} EntryExactly(f: SnapshotFile, directories: seq<JsString>)
    ensures ValidFileEntry(f, directories) <==> SoundEntry(f, directories)
  {
    PathExactly(f.path);
    IdsExactly(f.sha256);
    if ValidAbsolutePath(f.path) {
      if ParentOf(f.path) in directories {
        var k :| 0 <= k < |directories| && directories[k] == ParentOf(f.path);
        ParentExactly(f.path, directories[k]);
        var name :| Contains(directories[k], f.path, name);
      }
      if k, name :| 0 <= k < |directories| && Contains(directories[k], f.path, name) {
        ParentExactly(f.path, directories[k]);
      }
    }
  }

  lemma {:induction false} ManifestExactly(m: Manifest, generationId: JsString, rootPath: JsString, storeId: JsString)
    ensures ValidManifest(m, generationId, rootPath, storeId) <==> SoundManifest(m, generationId, rootPath, storeId)
  {
    PathExactly(m.rootPath);
    EntriesValidEach(m.files, m.directories);
    forall i | 0 <= i < |m.directories| ensures ValidAbsolutePath(m.directories[i]) <==> SafePath(m.directories[i]) {
      PathExactly(m.directories[i]);
    }
    forall i | 0 <= i < |m.files|
      ensures ValidFileEntry(m.files[i], m.directories) <==> SoundEntry(m.files[i], m.directories)
    {
      EntryExactly(m.files[i], m.directories);
    }
  }

  // ---- Restores -------------------------------------------------------------------------------

  ghost predicate Touched(guest: Guest, r: Restoration) { r.ok || r.written != [] || r.guest != guest }

  /** The head and the manifest that a restore reads. */
  ghost predicate ReadFor(p: Platform, view: nat -> Store, rootPath: JsString, storeId: JsString, m: Manifest) {
    && Lookup(view(0).files, [Ascii("HEAD.json")]).Some?
    && var head := p.decodeHead(view(0).files[[Ascii("HEAD.json")]]);
    && head.Some? && head.value.schemaVersion == 1 && Hex36(head.value.generationId)
    && var path := [Ascii("generations"), head.value.generationId, Ascii("manifest.json")];
    && Lookup(view(1).files, path).Some?
    && p.sha256(view(1).files[path]) == head.value.manifestSha256 && Hex64(head.value.manifestSha256)
    && p.decodeManifest(view(1).files[path]) == Some(m)
    && SoundManifest(m, head.value.generationId, rootPath, storeId)
  }

  /** The written file is the manifest's: its place, its size and its digest. */
  predicate WrittenFor(p: Platform, rootPath: JsString, f: SnapshotFile, w: Written) {
    w.path == rootPath + f.path && |w.bytes| == f.bytes && p.sha256(w.bytes) == f.sha256
  }

  /**
   * A restore that completes or changes anything was asked for a safe root and a plain store, and has
   * read a sound manifest; what it writes are its files, in order, each with the size and digest stated
   * there, and all of them if it completes.
   */
  lemma {:induction false} RestoreAccepts(p: Platform, view: nat -> Store, rootPath: JsString, storeId: JsString,
                                          guest: Guest)
    returns (m: Manifest)
    requires Touched(guest, Restore(p, view, rootPath, storeId, guest))
    ensures SafePath(rootPath) && rootPath != [47] && PlainStoreId(storeId)
    ensures ReadFor(p, view, rootPath, storeId, m)
    ensures var written := Restore(p, view, rootPath, storeId, guest).written;
      && |written| <= |m.files| && (forall i :: 0 <= i < |written| ==> WrittenFor(p, rootPath, m.files[i], written[i]))
      && (Restore(p, view, rootPath, storeId, guest).ok ==> |written| == |m.files|)
  {
    RestoreChecks(p, view, rootPath, storeId, guest);
    WritesMatchTheManifest(p, view, rootPath, storeId, guest);
    var head := p.decodeHead(view(0).files[HEAD_PATH]).value;
    m := p.decodeManifest(view(1).files[ManifestPath(head.generationId)]).value;
    PathExactly(rootPath);
    IdsExactly(storeId);
    IdsExactly(head.generationId);
    ManifestExactly(m, head.generationId, rootPath, storeId);
    HeadIsThere(p, view, rootPath, storeId, guest);
    IdsExactly(head.manifestSha256);
    var written := Restore(p, view, rootPath, storeId, guest).written;
    forall i | 0 <= i < |written| ensures WrittenFor(p, rootPath, m.files[i], written[i]) {
      assert SoundEntry(m.files[i], m.directories);
    }
  }

  lemma {:induction false} HeadIsThere(p: Platform, view: nat -> Store, rootPath: JsString, storeId: JsString,
                                       guest: Guest)
    requires Touched(guest, Restore(p, view, rootPath, storeId, guest))
    ensures ReadHead(p, view(0)).Some?
  {
  }

  /** So a restore writes below its root alone: no written path leaves it by a segment of dots. */
  lemma {:induction false} RestoreStaysBelow(p: Platform, view: nat -> Store, rootPath: JsString, storeId: JsString,
                                             guest: Guest, i: nat)
    requires i < |Restore(p, view, rootPath, storeId, guest).written|
    ensures var path := Restore(p, view, rootPath, storeId, guest).written[i].path;
      && |path| > |rootPath| + 1 && path[..|rootPath|] == rootPath && path[|rootPath|] == 47
      && !HasDots(path, 47, 46, 1) && !HasDots(path, 47, 46, 2) && 0 !in path && 92 !in path
  {
    var m := RestoreAccepts(p, view, rootPath, storeId, guest);
    var f := m.files[i];
    assert WrittenFor(p, rootPath, f, Restore(p, view, rootPath, storeId, guest).written[i]);
    assert SoundEntry(f, m.directories);
    if HasDots(rootPath + f.path, SLASH, DOT, 1) { NoNewDots(rootPath, f.path, 1); }
    if HasDots(rootPath + f.path, SLASH, DOT, 2) { NoNewDots(rootPath, f.path, 2); }
  }
}
