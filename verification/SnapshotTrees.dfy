/** What a commit's traversal visits, and what its operations leave in the store. */
module SnapshotTrees {
  import opened Options
  import opened Json
  import opened ByteStrings
  import opened SnapshotPaths
  import opened Snapshots

  datatype FileAt = FileAt(path: Path, bytes: Bytes)

  /** The names at the top of a listing. */
  function Names(l: Listing): set<JsString> {
    match l
    case Done => {}
    case FileEntry(name, _, rest) => {name} + Names(rest)
    case DirEntry(name, _, rest) => {name} + Names(rest)
    case OtherEntry(name, rest) => {name} + Names(rest)
  }

  /** Files and directories only, with valid names that differ within each directory. */
  predicate WellFormed(l: Listing) {
    match l
    case Done => true
    case FileEntry(name, _, rest) => ValidSegment(name) && name !in Names(rest) && WellFormed(rest)
    case DirEntry(name, children, rest) =>
      ValidSegment(name) && name !in Names(rest) && WellFormed(children) && WellFormed(rest)
    case OtherEntry(_, _) => false
  }

  /** The directories of a listing, below `prefix`. */
  function Dirs(l: Listing, prefix: Path): seq<Path> {
    match l
    case Done => []
    case FileEntry(_, _, rest) => Dirs(rest, prefix)
    case DirEntry(name, children, rest) => [prefix + [name]] + Dirs(children, prefix + [name]) + Dirs(rest, prefix)
    case OtherEntry(_, rest) => Dirs(rest, prefix)
  }

  /** The files of a listing, below `prefix`. */
  function Files(l: Listing, prefix: Path): seq<FileAt> {
    match l
    case Done => []
    case FileEntry(name, bytes, rest) => [FileAt(prefix + [name], bytes)] + Files(rest, prefix)
    case DirEntry(name, children, rest) => Files(children, prefix + [name]) + Files(rest, prefix)
    case OtherEntry(_, rest) => Files(rest, prefix)
  }

  function Ops(l: Listing, destination: Path): seq<Op> {
    match l
    case Done => []
    case FileEntry(name, bytes, rest) => WriteFileOps(destination + [name], bytes) + Ops(rest, destination)
    case DirEntry(name, children, rest) =>
      [MakeDirectory(destination + [name])] + Ops(children, destination + [name]) + Ops(rest, destination)
    case OtherEntry(_, rest) => Ops(rest, destination)
  }

  function Size(l: Listing): nat {
    match l
    case Done => 0
    case FileEntry(_, bytes, rest) => |bytes| + Size(rest)
    case DirEntry(_, children, rest) => Size(children) + Size(rest)
    case OtherEntry(_, rest) => Size(rest)
  }

  function Joined(paths: seq<Path>): (r: seq<JsString>)
    ensures |r| == |paths| && forall i :: 0 <= i < |paths| ==> r[i] == Join(paths[i])
  {
    seq(|paths|, i requires 0 <= i < |paths| => Join(paths[i]))
  }

  function Described(p: Platform, files: seq<FileAt>): (r: seq<SnapshotFile>)
    ensures |r| == |files|
    ensures forall i :: 0 <= i < |files| ==>
      r[i] == SnapshotFile(|files[i].bytes|, Join(files[i].path), p.sha256(files[i].bytes))
  {
    seq(|files|, i requires 0 <= i < |files| =>
      SnapshotFile(|files[i].bytes|, Join(files[i].path), p.sha256(files[i].bytes)))
  }

  // ---- The traversal --------------------------------------------------------------------------

  /** What `visit` has done to `acc` when it returns. */
  function Visits(p: Platform, l: Listing, prefix: Path, destination: Path, acc: Progress): Progress {
    acc.(ops := acc.ops + Ops(l, destination),
         directories := acc.directories + Joined(Dirs(l, prefix)),
         files := acc.files + Described(p, Files(l, prefix)),
         payloadBytes := acc.payloadBytes + Size(l))
  }

  lemma {:induction false} JoinedAppend(a: seq<Path>, b: seq<Path>)
    ensures Joined(a + b) == Joined(a) + Joined(b)
  {
  }

  lemma {:induction false} DescribedAppend(p: Platform, a: seq<FileAt>, b: seq<FileAt>)
    ensures Described(p, a + b) == Described(p, a) + Described(p, b)
  {
  }

  lemma {:induction false} VisitsFile(p: Platform, l: Listing, prefix: Path, destination: Path, acc: Progress)
    requires l.FileEntry? && ValidSegments(prefix) && ValidSegment(l.name)
    ensures var acc1 := WithFile(p, acc, RelativeChild(Join(prefix), l.name), destination + [l.name], l.bytes);
      Visits(p, l.rest, prefix, destination, acc1) == Visits(p, l, prefix, destination, acc)
  {
    JoinChild(prefix, l.name);
    var file := FileAt(prefix + [l.name], l.bytes);
    DescribedAppend(p, [file], Files(l.rest, prefix));
    assert Described(p, [file]) == [SnapshotFile(|l.bytes|, RelativeChild(Join(prefix), l.name), p.sha256(l.bytes))];
  }

  lemma {:induction false} Associative<T>(a: seq<T>, b: seq<T>, c: seq<T>, d: seq<T>)
    ensures a + b + c + d == a + (b + c + d)
  {
  }

  lemma {:induction false} JoinedDir(l: Listing, prefix: Path)
    requires l.DirEntry? && ValidSegments(prefix) && ValidSegment(l.name)
    ensures Joined(Dirs(l, prefix))
         == [RelativeChild(Join(prefix), l.name)] + Joined(Dirs(l.children, prefix + [l.name]))
           + Joined(Dirs(l.rest, prefix))
  {
    JoinChild(prefix, l.name);
    JoinedAppend([prefix + [l.name]] + Dirs(l.children, prefix + [l.name]), Dirs(l.rest, prefix));
    JoinedAppend([prefix + [l.name]], Dirs(l.children, prefix + [l.name]));
    assert Joined([prefix + [l.name]]) == [RelativeChild(Join(prefix), l.name)];
  }

  lemma {:induction false} VisitsDir(p: Platform, l: Listing, prefix: Path, destination: Path, acc: Progress)
    requires l.DirEntry? && ValidSegments(prefix) && ValidSegment(l.name)
    ensures var acc1 := WithDirectory(acc, RelativeChild(Join(prefix), l.name), destination + [l.name]);
      var inner := Visits(p, l.children, prefix + [l.name], destination + [l.name], acc1);
      Visits(p, l.rest, prefix, destination, inner) == Visits(p, l, prefix, destination, acc)
  {
    var child := RelativeChild(Join(prefix), l.name);
    JoinedDir(l, prefix);
    Associative(acc.directories, [child], Joined(Dirs(l.children, prefix + [l.name])), Joined(Dirs(l.rest, prefix)));
    var inside, outside := Files(l.children, prefix + [l.name]), Files(l.rest, prefix);
    DescribedAppend(p, inside, outside);
    Associative(acc.files, [], Described(p, inside), Described(p, outside));
    assert acc.files + [] == acc.files && [] + Described(p, inside) == Described(p, inside);
    Associative(acc.ops, [MakeDirectory(destination + [l.name])],
                Ops(l.children, destination + [l.name]), Ops(l.rest, destination));
  }

  /** A traversal that does not throw has visited every entry in order, and everything in it was valid. */
  lemma {:induction false} VisitDoes(p: Platform, l: Listing, prefix: Path, destination: Path, acc: Progress)
    requires ValidSegments(prefix) && !acc.failed
    requires !Visit(p, l, Join(prefix), destination, acc).failed
    ensures Visit(p, l, Join(prefix), destination, acc) == Visits(p, l, prefix, destination, acc)
  {
    match l
    case Done =>
    case FileEntry(name, bytes, rest) =>
      VisitDoes(p, rest, prefix, destination,
                WithFile(p, acc, RelativeChild(Join(prefix), name), destination + [name], bytes));
      VisitsFile(p, l, prefix, destination, acc);
    case DirEntry(name, children, rest) =>
      JoinChild(prefix, name);
      var acc1 := WithDirectory(acc, RelativeChild(Join(prefix), name), destination + [name]);
      VisitDoes(p, children, prefix + [name], destination + [name], acc1);
      VisitDoes(p, rest, prefix, destination, Visits(p, children, prefix + [name], destination + [name], acc1));
      VisitsDir(p, l, prefix, destination, acc);
  }

  // ---- When the traversal completes -----------------------------------------------------------

  /** No two entries of one directory share a name, as in any directory. */
  predicate NamesDiffer(l: Listing) {
    match l
    case Done => true
    case FileEntry(name, _, rest) => name !in Names(rest) && NamesDiffer(rest)
    case DirEntry(name, children, rest) => name !in Names(rest) && NamesDiffer(children) && NamesDiffer(rest)
    case OtherEntry(name, rest) => name !in Names(rest) && NamesDiffer(rest)
  }

  /** Files and directories only, with valid names. */
  predicate NamesValid(l: Listing) {
    match l
    case Done => true
    case FileEntry(name, _, rest) => ValidSegment(name) && NamesValid(rest)
    case DirEntry(name, children, rest) => ValidSegment(name) && NamesValid(children) && NamesValid(rest)
    case OtherEntry(_, _) => false
  }

  lemma {:induction false} WellFormedNames(l: Listing)
    ensures WellFormed(l) <==> NamesValid(l) && NamesDiffer(l)
  {
    match l
    case Done =>
    case FileEntry(_, _, rest) => WellFormedNames(rest);
    case DirEntry(_, children, rest) =>
      WellFormedNames(children);
      WellFormedNames(rest);
    case OtherEntry(_, _) =>
  }

  function FileCount(l: Listing): nat {
    match l
    case Done => 0
    case FileEntry(_, _, rest) => 1 + FileCount(rest)
    case DirEntry(_, children, rest) => FileCount(children) + FileCount(rest)
    case OtherEntry(_, rest) => FileCount(rest)
  }

  function DirCount(l: Listing): nat {
    match l
    case Done => 0
    case FileEntry(_, _, rest) => DirCount(rest)
    case DirEntry(_, children, rest) => 1 + DirCount(children) + DirCount(rest)
    case OtherEntry(_, rest) => DirCount(rest)
  }

  /** How many files come before the last directory. */
  function FilesBeforeLastDir(l: Listing): (n: nat)
    ensures n <= FileCount(l) && (DirCount(l) == 0 ==> n == 0)
  {
    match l
    case Done => 0
    case FileEntry(_, _, rest) => if DirCount(rest) > 0 then 1 + FilesBeforeLastDir(rest) else 0
    case DirEntry(_, children, rest) =>
      if DirCount(rest) > 0 then FileCount(children) + FilesBeforeLastDir(rest) else FilesBeforeLastDir(children)
    case OtherEntry(_, rest) => FilesBeforeLastDir(rest)
  }

  /**
   * The limits, after so many directories, files and bytes: the files alone are limited, the bytes,
   * and directories and files together each time a directory is reached, the last one most of all.
   */
  predicate Fits(l: Listing, directories: nat, files: nat, bytes: nat) {
    && files + FileCount(l) <= MAX_FILES && bytes + Size(l) <= MAX_PAYLOAD_BYTES
    && (DirCount(l) > 0 ==> directories + files + (DirCount(l) - 1) + FilesBeforeLastDir(l) < MAX_FILES)
  }

  lemma {:induction false} Counts(l: Listing, prefix: Path)
    ensures |Dirs(l, prefix)| == DirCount(l) && |Files(l, prefix)| == FileCount(l)
  {
    match l
    case Done =>
    case FileEntry(_, _, rest) => Counts(rest, prefix);
    case DirEntry(name, children, rest) =>
      Counts(children, prefix + [name]);
      Counts(rest, prefix);
    case OtherEntry(_, rest) => Counts(rest, prefix);
  }

  /** A directory fits exactly when it can be entered, its children fit, and the rest fits behind them. */
  lemma {:induction false} DirFits(l: Listing, d: nat, f: nat, b: nat)
    requires l.DirEntry? && f <= MAX_FILES && b <= MAX_PAYLOAD_BYTES
    ensures Fits(l, d, f, b) <==>
      && d + f < MAX_FILES && Fits(l.children, d + 1, f, b)
      && Fits(l.rest, d + 1 + DirCount(l.children), f + FileCount(l.children), b + Size(l.children))
  {
  }

  /** The traversal does not throw exactly when every name is valid and the limits are kept. */
  lemma {:induction false} VisitCompletesExactly(p: Platform, l: Listing, prefix: Path, destination: Path,
                                                 acc: Progress)
    requires ValidSegments(prefix) && !acc.failed
    requires |acc.files| <= MAX_FILES && acc.payloadBytes <= MAX_PAYLOAD_BYTES
    ensures !Visit(p, l, Join(prefix), destination, acc).failed
       <==> NamesValid(l) && Fits(l, |acc.directories|, |acc.files|, acc.payloadBytes)
    decreases l, 1
  {
    match l
    case Done =>
    case FileEntry(name, bytes, rest) =>
      if ValidSegment(name) && |acc.files| < MAX_FILES && acc.payloadBytes + |bytes| <= MAX_PAYLOAD_BYTES {
        VisitCompletesExactly(p, rest, prefix, destination,
                              WithFile(p, acc, RelativeChild(Join(prefix), name), destination + [name], bytes));
      }
    case DirEntry(name, children, rest) =>
      DirFits(l, |acc.directories|, |acc.files|, acc.payloadBytes);
      if ValidSegment(name) && |acc.directories| + |acc.files| < MAX_FILES {
        VisitDirExactly(p, l, prefix, destination, acc);
      }
    case OtherEntry(_, _) =>
  }

  lemma {:induction false} VisitDirExactly(p: Platform, l: Listing, prefix: Path, destination: Path, acc: Progress)
    requires l.DirEntry? && ValidSegments(prefix) && ValidSegment(l.name) && !acc.failed
    requires |acc.files| <= MAX_FILES && acc.payloadBytes <= MAX_PAYLOAD_BYTES
    requires |acc.directories| + |acc.files| < MAX_FILES
    ensures !Visit(p, l, Join(prefix), destination, acc).failed
       <==> && NamesValid(l.children) && Fits(l.children, |acc.directories| + 1, |acc.files|, acc.payloadBytes)
            && NamesValid(l.rest)
            && Fits(l.rest, |acc.directories| + 1 + DirCount(l.children), |acc.files| + FileCount(l.children),
                    acc.payloadBytes + Size(l.children))
    decreases l, 0
  {
    var here := prefix + [l.name];
    var acc1 := WithDirectory(acc, RelativeChild(Join(prefix), l.name), destination + [l.name]);
    JoinChild(prefix, l.name);
    VisitCompletesExactly(p, l.children, here, destination + [l.name], acc1);
    var inner := Visit(p, l.children, Join(here), destination + [l.name], acc1);
    if !inner.failed {
      VisitCounts(p, l.children, here, destination + [l.name], acc1);
      VisitCompletesExactly(p, l.rest, prefix, destination, inner);
    }
  }

  lemma {:induction false} VisitCounts(p: Platform, l: Listing, prefix: Path, destination: Path, acc: Progress)
    requires ValidSegments(prefix) && !acc.failed && !Visit(p, l, Join(prefix), destination, acc).failed
    ensures var r := Visit(p, l, Join(prefix), destination, acc);
      && |r.directories| == |acc.directories| + DirCount(l)
      && |r.files| == |acc.files| + FileCount(l)
      && r.payloadBytes == acc.payloadBytes + Size(l)
  {
    VisitDoes(p, l, prefix, destination, acc);
    Counts(l, prefix);
  }

  // ---- Paths of a listing ---------------------------------------------------------------------

  predicate Below(prefix: Path, path: Path) {
    |path| > |prefix| && path[..|prefix|] == prefix
  }

  /** Below `prefix`, by way of one of `names`. */
  predicate Through(prefix: Path, names: set<JsString>, path: Path) {
    Below(prefix, path) && path[|prefix|] in names
  }

  lemma {:induction false} ThroughChild(prefix: Path, name: JsString, path: Path)
    requires Below(prefix + [name], path)
    ensures Through(prefix, {name}, path)
  {
    assert path[..|prefix|] == path[..|prefix| + 1][..|prefix|];
    assert path[|prefix|] == path[..|prefix| + 1][|prefix|];
  }

  lemma {:induction false} OpsThrough(l: Listing, destination: Path, i: nat)
    requires i < |Ops(l, destination)|
    ensures Through(destination, Names(l), Ops(l, destination)[i].path)
  {
    match l
    case FileEntry(name, _, rest) => if i >= 2 { OpsThrough(rest, destination, i - 2); }
    case DirEntry(name, children, rest) =>
      var n := |Ops(children, destination + [name])|;
      if 1 <= i < n + 1 {
        OpsThrough(children, destination + [name], i - 1);
        ThroughChild(destination, name, Ops(l, destination)[i].path);
      } else if i > n {
        OpsThrough(rest, destination, i - n - 1);
      }
    case OtherEntry(_, rest) => OpsThrough(rest, destination, i);
  }

  lemma {:induction false} FilesThrough(l: Listing, prefix: Path, i: nat)
    requires i < |Files(l, prefix)|
    ensures Through(prefix, Names(l), Files(l, prefix)[i].path)
  {
    match l
    case FileEntry(_, _, rest) => if i > 0 { FilesThrough(rest, prefix, i - 1); }
    case DirEntry(name, children, rest) =>
      var n := |Files(children, prefix + [name])|;
      if i < n {
        FilesThrough(children, prefix + [name], i);
        ThroughChild(prefix, name, Files(l, prefix)[i].path);
      } else {
        FilesThrough(rest, prefix, i - n);
      }
    case OtherEntry(_, rest) => FilesThrough(rest, prefix, i);
  }

  lemma {:induction false} DirsThrough(l: Listing, prefix: Path, i: nat)
    requires i < |Dirs(l, prefix)|
    ensures Through(prefix, Names(l), Dirs(l, prefix)[i])
  {
    match l
    case FileEntry(_, _, rest) => DirsThrough(rest, prefix, i);
    case DirEntry(name, children, rest) =>
      var n := |Dirs(children, prefix + [name])|;
      if 1 <= i < n + 1 {
        DirsThrough(children, prefix + [name], i - 1);
        ThroughChild(prefix, name, Dirs(l, prefix)[i]);
      } else if i > n {
        DirsThrough(rest, prefix, i - n - 1);
      }
    case OtherEntry(_, rest) => DirsThrough(rest, prefix, i);
  }

  /** No two entries of a well-formed listing have the same path. */
  lemma {:induction false} FilesDistinct(l: Listing, prefix: Path, i: nat, j: nat)
    requires WellFormed(l) && i < j < |Files(l, prefix)|
    ensures Files(l, prefix)[i].path != Files(l, prefix)[j].path
  {
    match l
    case FileEntry(name, _, rest) =>
      FilesThrough(rest, prefix, j - 1);
      if i > 0 { FilesDistinct(rest, prefix, i - 1, j - 1); }
    case DirEntry(name, children, rest) =>
      var n := |Files(children, prefix + [name])|;
      if j < n {
        FilesDistinct(children, prefix + [name], i, j);
      } else {
        FilesThrough(rest, prefix, j - n);
        if i < n {
          FilesThrough(children, prefix + [name], i);
          ThroughChild(prefix, name, Files(l, prefix)[i].path);
        } else {
          FilesDistinct(rest, prefix, i - n, j - n);
        }
      }
  }

  lemma {:induction false} DirsDistinct(l: Listing, prefix: Path, i: nat, j: nat)
    requires WellFormed(l) && i < j < |Dirs(l, prefix)|
    ensures Dirs(l, prefix)[i] != Dirs(l, prefix)[j]
  {
    match l
    case FileEntry(_, _, rest) => DirsDistinct(rest, prefix, i, j);
    case DirEntry(name, children, rest) =>
      var n := |Dirs(children, prefix + [name])|;
      if j < n + 1 {
        DirsThrough(children, prefix + [name], j - 1);
        if i > 0 { DirsDistinct(children, prefix + [name], i - 1, j - 1); }
      } else {
        DirsThrough(rest, prefix, j - n - 1);
        if i == 0 {
        } else if i < n + 1 {
          DirsThrough(children, prefix + [name], i - 1);
          ThroughChild(prefix, name, Dirs(l, prefix)[i]);
        } else {
          DirsDistinct(rest, prefix, i - n - 1, j - n - 1);
        }
      }
  }

  lemma {:induction false} FileIsNoDir(l: Listing, prefix: Path, i: nat, j: nat)
    requires WellFormed(l) && i < |Files(l, prefix)| && j < |Dirs(l, prefix)|
    ensures Files(l, prefix)[i].path != Dirs(l, prefix)[j]
  {
    match l
    case FileEntry(name, _, rest) =>
      DirsThrough(rest, prefix, j);
      if i > 0 { FileIsNoDir(rest, prefix, i - 1, j); }
    case DirEntry(name, children, rest) =>
      var m, n := |Files(children, prefix + [name])|, |Dirs(children, prefix + [name])|;
      if i < m {
        FilesThrough(children, prefix + [name], i);
        ThroughChild(prefix, name, Files(l, prefix)[i].path);
        if j == 0 {
        } else if j < n + 1 {
          FileIsNoDir(children, prefix + [name], i, j - 1);
        } else {
          DirsThrough(rest, prefix, j - n - 1);
        }
      } else {
        FilesThrough(rest, prefix, i - m);
        if j == 0 {
        } else if j < n + 1 {
          DirsThrough(children, prefix + [name], j - 1);
          ThroughChild(prefix, name, Dirs(l, prefix)[j]);
        } else {
          FileIsNoDir(rest, prefix, i - m, j - n - 1);
        }
      }
  }

  /** The directory that contains `path`. */
  function Container(path: Path): Path
    requires path != []
  {
    path[..|path| - 1]
  }

  lemma {:induction false} FilesContained(l: Listing, prefix: Path, i: nat)
    requires i < |Files(l, prefix)|
    ensures var path := Files(l, prefix)[i].path;
            path != [] && (Container(path) == prefix || Container(path) in Dirs(l, prefix))
  {
    match l
    case FileEntry(_, _, rest) => if i > 0 { FilesContained(rest, prefix, i - 1); }
    case DirEntry(name, children, rest) =>
      var n := |Files(children, prefix + [name])|;
      if i < n { FilesContained(children, prefix + [name], i); } else { FilesContained(rest, prefix, i - n); }
    case OtherEntry(_, rest) => FilesContained(rest, prefix, i);
  }

  lemma {:induction false} DirsContained(l: Listing, prefix: Path, i: nat)
    requires i < |Dirs(l, prefix)|
    ensures var path := Dirs(l, prefix)[i];
            path != [] && (Container(path) == prefix || Container(path) in Dirs(l, prefix))
  {
    match l
    case FileEntry(_, _, rest) => DirsContained(rest, prefix, i);
    case DirEntry(name, children, rest) =>
      var n := |Dirs(children, prefix + [name])|;
      if 1 <= i < n + 1 { DirsContained(children, prefix + [name], i - 1); }
      else if i > n { DirsContained(rest, prefix, i - n - 1); }
    case OtherEntry(_, rest) => DirsContained(rest, prefix, i);
  }

  lemma {:induction false} PathsValid(l: Listing, prefix: Path)
    requires WellFormed(l) && ValidSegments(prefix)
    ensures forall i :: 0 <= i < |Files(l, prefix)| ==> ValidSegments(Files(l, prefix)[i].path)
    ensures forall i :: 0 <= i < |Dirs(l, prefix)| ==> ValidSegments(Dirs(l, prefix)[i])
  {
    match l
    case Done =>
    case FileEntry(_, _, rest) => PathsValid(rest, prefix);
    case DirEntry(name, children, rest) =>
      PathsValid(children, prefix + [name]);
      PathsValid(rest, prefix);
  }

  function Deeper(base: Path, paths: seq<Path>): (r: seq<Path>)
    ensures |r| == |paths| && forall i :: 0 <= i < |r| ==> r[i] == base + paths[i]
  {
    seq(|paths|, i requires 0 <= i < |paths| => base + paths[i])
  }

  function FilesDeeper(base: Path, files: seq<FileAt>): (r: seq<FileAt>)
    ensures |r| == |files| && forall i :: 0 <= i < |r| ==> r[i] == FileAt(base + files[i].path, files[i].bytes)
  {
    seq(|files|, i requires 0 <= i < |files| => FileAt(base + files[i].path, files[i].bytes))
  }

  lemma {:induction false} DeeperAppend(base: Path, a: seq<Path>, b: seq<Path>)
    ensures Deeper(base, a + b) == Deeper(base, a) + Deeper(base, b)
  {
  }

  lemma {:induction false} FilesDeeperAppend(base: Path, a: seq<FileAt>, b: seq<FileAt>)
    ensures FilesDeeper(base, a + b) == FilesDeeper(base, a) + FilesDeeper(base, b)
  {
  }

  lemma {:induction false} ShiftedDirs(l: Listing, base: Path, prefix: Path)
    ensures Dirs(l, base + prefix) == Deeper(base, Dirs(l, prefix))
  {
    match l
    case Done =>
    case FileEntry(_, _, rest) => ShiftedDirs(rest, base, prefix);
    case DirEntry(name, children, rest) =>
      var here := prefix + [name];
      assert base + prefix + [name] == base + here;
      ShiftedDirs(children, base, here);
      ShiftedDirs(rest, base, prefix);
      DeeperAppend(base, [here] + Dirs(children, here), Dirs(rest, prefix));
      DeeperAppend(base, [here], Dirs(children, here));
      assert Deeper(base, [here]) == [base + here];
    case OtherEntry(_, rest) => ShiftedDirs(rest, base, prefix);
  }

  lemma {:induction false} ShiftedFiles(l: Listing, base: Path, prefix: Path)
    ensures Files(l, base + prefix) == FilesDeeper(base, Files(l, prefix))
  {
    match l
    case Done =>
    case FileEntry(name, bytes, rest) =>
      assert base + prefix + [name] == base + (prefix + [name]);
      ShiftedFiles(rest, base, prefix);
      FilesDeeperAppend(base, [FileAt(prefix + [name], bytes)], Files(rest, prefix));
      assert FilesDeeper(base, [FileAt(prefix + [name], bytes)]) == [FileAt(base + (prefix + [name]), bytes)];
    case DirEntry(name, children, rest) =>
      assert base + prefix + [name] == base + (prefix + [name]);
      ShiftedFiles(children, base, prefix + [name]);
      ShiftedFiles(rest, base, prefix);
      FilesDeeperAppend(base, Files(children, prefix + [name]), Files(rest, prefix));
    case OtherEntry(_, rest) => ShiftedFiles(rest, base, prefix);
  }

  /** Listing below a longer prefix only prepends to the paths. */
  lemma {:induction false} Shifted(l: Listing, base: Path, prefix: Path)
    ensures |Files(l, base + prefix)| == |Files(l, prefix)| && |Dirs(l, base + prefix)| == |Dirs(l, prefix)|
    ensures forall i :: 0 <= i < |Files(l, prefix)| ==>
      Files(l, base + prefix)[i] == FileAt(base + Files(l, prefix)[i].path, Files(l, prefix)[i].bytes)
    ensures forall i :: 0 <= i < |Dirs(l, prefix)| ==> Dirs(l, base + prefix)[i] == base + Dirs(l, prefix)[i]
  {
    ShiftedFiles(l, base, prefix);
    ShiftedDirs(l, base, prefix);
  }

  // ---- Running operations ---------------------------------------------------------------------

  lemma {:induction false} ExecuteAppend(s: Store, a: seq<Op>, b: seq<Op>)
    ensures Execute(s, a + b) == Execute(Execute(s, a), b)
  {
    if b == [] {
      assert a + b == a;
    } else {
      assert (a + b)[..|a + b| - 1] == a + b[..|b| - 1];
      ExecuteAppend(s, a, b[..|b| - 1]);
    }
  }

  predicate Writes(op: Op, path: Path) {
    !op.MakeDirectory? && op.path == path
  }

  lemma {:induction false} ExecuteFrame(s: Store, ops: seq<Op>, path: Path)
    requires forall i :: 0 <= i < |ops| ==> !Writes(ops[i], path)
    ensures Lookup(Execute(s, ops).files, path) == Lookup(s.files, path)
  {
    if ops != [] { ExecuteFrame(s, ops[..|ops| - 1], path); }
  }

  lemma {:induction false} ExecuteDirs(s: Store, ops: seq<Op>)
    ensures s.dirs <= Execute(s, ops).dirs
    ensures forall i :: 0 <= i < |ops| && ops[i].MakeDirectory? ==> ops[i].path in Execute(s, ops).dirs
  {
    if ops != [] { ExecuteDirs(s, ops[..|ops| - 1]); }
  }

  lemma {:induction false} DirsMade(l: Listing, destination: Path, i: nat)
    requires i < |Dirs(l, destination)|
    ensures MakeDirectory(Dirs(l, destination)[i]) in Ops(l, destination)
  {
    match l
    case FileEntry(_, _, rest) => DirsMade(rest, destination, i);
    case DirEntry(name, children, rest) =>
      var n := |Dirs(children, destination + [name])|;
      if 1 <= i < n + 1 { DirsMade(children, destination + [name], i - 1); }
      else if i > n { DirsMade(rest, destination, i - n - 1); }
    case OtherEntry(_, rest) => DirsMade(rest, destination, i);
  }

  /** Later entries do not touch a path that goes through another name. */
  lemma {:induction false} RestKeeps(s: Store, l: Listing, destination: Path, name: JsString, path: Path)
    requires name !in Names(l) && Through(destination, {name}, path)
    ensures Lookup(Execute(s, Ops(l, destination)).files, path) == Lookup(s.files, path)
  {
    forall i | 0 <= i < |Ops(l, destination)| ensures !Writes(Ops(l, destination)[i], path) {
      OpsThrough(l, destination, i);
    }
    ExecuteFrame(s, Ops(l, destination), path);
  }

  /** After a listing's operations every file of it is in the store. */
  lemma {:induction false} FilesStored(s: Store, l: Listing, destination: Path, i: nat)
    requires WellFormed(l) && i < |Files(l, destination)|
    ensures Lookup(Execute(s, Ops(l, destination)).files, Files(l, destination)[i].path)
         == Some(Files(l, destination)[i].bytes)
    decreases l
  {
    match l
    case FileEntry(name, bytes, rest) =>
      var path := destination + [name];
      var first := WriteFileOps(path, bytes);
      ExecuteAppend(s, first, Ops(rest, destination));
      if i == 0 {
        assert first[..1] == [MakeFile(path)] && first[..1][..0] == [];
        RestKeeps(Execute(s, first), rest, destination, name, path);
      } else {
        FilesStored(Execute(s, first), rest, destination, i - 1);
      }
    case DirEntry(name, children, rest) =>
      var made := [MakeDirectory(destination + [name])];
      var below, beside := Ops(children, destination + [name]), Ops(rest, destination);
      ExecuteAppend(s, made + below, beside);
      ExecuteAppend(s, made, below);
      var s1 := Execute(s, made);
      var n := |Files(children, destination + [name])|;
      if i < n {
        FilesStored(s1, children, destination + [name], i);
        FilesThrough(children, destination + [name], i);
        ThroughChild(destination, name, Files(l, destination)[i].path);
        RestKeeps(Execute(s1, below), rest, destination, name, Files(l, destination)[i].path);
      } else {
        FilesStored(Execute(s1, below), rest, destination, i - n);
      }
  }
}
