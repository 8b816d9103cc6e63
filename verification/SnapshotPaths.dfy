/** The path helpers of src/opfs-directory-store.ts: slash-separated strings and their segments. */
module SnapshotPaths {
  import opened Json
  import opened Splitting

  const SLASH: CodeUnit := 47
  const BACKSLASH: CodeUnit := 92
  const DOT: CodeUnit := 46

  const MAX_PATH_LENGTH := 4096

  const ROOT: JsString := [SLASH]

  /** validateSegment does not throw. */
  predicate ValidSegment(s: JsString) {
    s != [] && s != [DOT] && s != [DOT, DOT] && SLASH !in s && BACKSLASH !in s && 0 !in s
  }

  /** A string split at every slash. */
  function Split(s: JsString): seq<JsString> { SplitAt(s, SLASH) }

  /** validateAbsolutePath does not throw; empty segments pass. */
  predicate ValidAbsolutePath(s: JsString) {
    && s != [] && |s| <= MAX_PATH_LENGTH && s[0] == SLASH
    && BACKSLASH !in s && 0 !in s
    && (|s| > 1 ==> s[|s| - 1] != SLASH)
    && (forall i :: 0 <= i < |Split(s[1..])| ==> Split(s[1..])[i] == [] || ValidSegment(Split(s[1..])[i]))
  }

  /** validateSubtreeRoot does not throw. */
  predicate ValidSubtreeRoot(s: JsString) {
    ValidAbsolutePath(s) && s != ROOT
  }

  function RelativeChild(parent: JsString, name: JsString): JsString {
    if parent == ROOT then [SLASH] + name else parent + [SLASH] + name
  }

  function MountedPath(rootPath: JsString, relativePath: JsString): JsString {
    if relativePath == ROOT then rootPath
    else if rootPath == ROOT then relativePath
    else rootPath + relativePath
  }

  /** pathSegments of a valid path; no valid path is empty. */
  function PathSegments(s: JsString): seq<JsString> {
    if s == ROOT || s == [] then [] else Split(s[1..])
  }

  /** The path before the last slash; the root for a path with one slash. */
  function ParentOf(s: JsString): JsString
    requires SLASH in s
  {
    var slash := LastSlash(s);
    if slash == 0 then ROOT else s[..slash]
  }

  function LastSlash(s: JsString): (i: nat)
    requires SLASH in s
    ensures i < |s| && s[i] == SLASH && forall k :: i < k < |s| ==> s[k] != SLASH
  {
    if s[|s| - 1] == SLASH then |s| - 1 else LastSlash(s[..|s| - 1])
  }

  // ---- Paths made of valid segments -----------------------------------------------------------

  ghost predicate ValidSegments(segs: seq<JsString>) {
    forall i :: 0 <= i < |segs| ==> ValidSegment(segs[i])
  }

  /** Every segment behind a slash. */
  function Slashed(segs: seq<JsString>): JsString {
    if segs == [] then [] else Slashed(segs[..|segs| - 1]) + [SLASH] + segs[|segs| - 1]
  }

  function Join(segs: seq<JsString>): JsString {
    if segs == [] then ROOT else Slashed(segs)
  }

  lemma {:induction false} SlashedHead(segs: seq<JsString>)
    requires segs != []
    ensures Slashed(segs) == [SLASH] + segs[0] + Slashed(segs[1..])
  {
    if |segs| > 1 {
      var init, last := segs[..|segs| - 1], segs[|segs| - 1];
      SlashedHead(init);
      assert segs[1..][..|segs| - 2] == init[1..] && init[0] == segs[0];
      assert Slashed(segs[1..]) == Slashed(init[1..]) + [SLASH] + last;
    }
  }

  lemma {:induction false} SplitFirst(u: CodeUnit, s: JsString)
    requires u != SLASH
    ensures Split([u] + s) == [[u] + Split(s)[0]] + Split(s)[1..]
  {
    assert ([u] + s)[1..] == s;
  }

  lemma {:induction false} SplitSlash(s: JsString)
    ensures Split([SLASH] + s) == [[]] + Split(s)
  {
    assert ([SLASH] + s)[1..] == s;
  }

  /** A word is the first part of what follows it up to a slash. */
  lemma {:induction false} SplitWord(word: JsString, rest: JsString)
    requires SLASH !in word && (rest == [] || rest[0] == SLASH)
    ensures Split(word + rest) == if rest == [] then [word] else [word] + Split(rest[1..])
  {
    if word == [] {
      assert word + rest == rest;
      if rest != [] {
        SplitSlash(rest[1..]);
        assert [SLASH] + rest[1..] == rest;
      }
    } else {
      var u, tail := word[0], word[1..];
      assert word == [u] + tail && word + rest == [u] + (tail + rest);
      SplitWord(tail, rest);
      SplitFirst(u, tail + rest);
    }
  }

  /** Splitting inverts joining. */
  lemma {:induction false} SplitJoin(segs: seq<JsString>)
    requires ValidSegments(segs) && segs != []
    ensures Split(Join(segs)[1..]) == segs
  {
    SlashedHead(segs);
    var rest := Slashed(segs[1..]);
    assert ([SLASH] + segs[0] + rest)[1..] == segs[0] + rest;
    if |segs| > 1 {
      SlashedHead(segs[1..]);
      SplitWord(segs[0], rest);
      SplitJoin(segs[1..]);
      assert segs == [segs[0]] + segs[1..];
    } else {
      SplitWord(segs[0], []);
      assert segs[0] + rest == segs[0] + [];
      assert segs == [segs[0]];
    }
  }

  lemma {:induction false} JoinIsPath(segs: seq<JsString>)
    requires ValidSegments(segs)
    ensures Join(segs) != [] && Join(segs)[0] == SLASH
    ensures segs != [] ==> Join(segs) != ROOT && |Join(segs)| > 1
    ensures PathSegments(Join(segs)) == segs
  {
    if segs != [] {
      SlashedHead(segs);
      SplitJoin(segs);
      assert |segs[0]| > 0;
    }
  }

  lemma {:induction false} JoinInjective(a: seq<JsString>, b: seq<JsString>)
    requires ValidSegments(a) && ValidSegments(b) && Join(a) == Join(b)
    ensures a == b
  {
    JoinIsPath(a);
    JoinIsPath(b);
  }

  lemma {:induction false} SlashedChild(segs: seq<JsString>, name: JsString)
    ensures Slashed(segs + [name]) == Slashed(segs) + [SLASH] + name
  {
    assert (segs + [name])[..|segs|] == segs;
  }

  lemma {:induction false} ParentOfSlashed(s: JsString, name: JsString)
    requires SLASH !in name
    ensures SLASH in s + [SLASH] + name
    ensures ParentOf(s + [SLASH] + name) == if s == [] then ROOT else s
  {
    assert (s + [SLASH] + name)[|s|] == SLASH;
    LastSlashIs(s, name);
    assert (s + [SLASH] + name)[..|s|] == s;
  }

  lemma {:induction false} JoinChild(segs: seq<JsString>, name: JsString)
    requires ValidSegments(segs) && ValidSegment(name)
    ensures Join(segs + [name]) == RelativeChild(Join(segs), name)
    ensures SLASH in Join(segs + [name]) && ParentOf(Join(segs + [name])) == Join(segs)
  {
    SlashedChild(segs, name);
    JoinIsPath(segs);
    ParentOfSlashed(Slashed(segs), name);
    if segs == [] { assert [] + [SLASH] + name == [SLASH] + name; }
  }

  lemma {:induction false} LastSlashIs(s: JsString, name: JsString)
    requires SLASH !in name
    ensures LastSlash(s + [SLASH] + name) == |s|
  {
    var t := s + [SLASH] + name;
    assert t[|s|] == SLASH;
    assert forall k :: |s| < k < |t| ==> t[k] == name[k - |s| - 1];
  }

  lemma {:induction false} SlashedUnits(segs: seq<JsString>)
    requires ValidSegments(segs)
    ensures BACKSLASH !in Slashed(segs) && 0 !in Slashed(segs)
    ensures segs != [] ==> Slashed(segs)[|Slashed(segs)| - 1] != SLASH
  {
    if segs != [] {
      SlashedUnits(segs[..|segs| - 1]);
      var last := segs[|segs| - 1];
      assert Slashed(segs)[|Slashed(segs)| - 1] == last[|last| - 1];
    }
  }

  /** A path joined from valid segments is valid exactly when it is not too long. */
  lemma {:induction false} JoinValid(segs: seq<JsString>)
    requires ValidSegments(segs)
    ensures ValidAbsolutePath(Join(segs)) <==> |Join(segs)| <= MAX_PATH_LENGTH
  {
    JoinIsPath(segs);
    SlashedUnits(segs);
    if segs == [] {
      assert Split(ROOT[1..]) == [[]];
    } else {
      SplitJoin(segs);
    }
  }

  lemma {:induction false} SlashedAppend(a: seq<JsString>, b: seq<JsString>)
    ensures Slashed(a + b) == Slashed(a) + Slashed(b)
  {
    if b == [] {
      assert a + b == a;
    } else {
      var n := |b| - 1;
      assert (a + b)[..|a + b| - 1] == a + b[..n];
      SlashedAppend(a, b[..n]);
    }
  }

  /** Mounting concatenates segments. */
  lemma {:induction false} MountedJoin(root: seq<JsString>, segs: seq<JsString>)
    requires ValidSegments(root) && ValidSegments(segs)
    ensures MountedPath(Join(root), Join(segs)) == Join(root + segs)
  {
    JoinIsPath(root);
    JoinIsPath(segs);
    SlashedAppend(root, segs);
    if segs == [] { assert root + segs == root; }
    if root == [] { assert root + segs == segs; }
  }
}
