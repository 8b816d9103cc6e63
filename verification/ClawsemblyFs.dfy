/** The ClawsemblyFS image parser (src/clawsemblyfs.ts) and the images it accepts. */
module ClawsemblyFs {
  import opened Options
  import opened ByteStrings
  import opened Splitting
  import opened Utf8

  const MAX_FILES := 100_000
  const MAX_PATH_BYTES := 16 * 1024
  const MAX_SAFE_INTEGER := 0x1F_FFFF_FFFF_FFFF
  const ENTRY_HEADER_BYTES := 16

  /** "CLAWSEMBLYFS1" and a line feed. */
  const MAGIC: Bytes := [67, 76, 65, 87, 83, 69, 77, 66, 76, 89, 70, 83, 49, 10]
  const PREAMBLE_BYTES := |MAGIC| + 8

  const SLASH: Scalar := 47
  const DOT: Scalar := 46
  const BACKSLASH: Scalar := 92
  const MARK: Scalar := 0xFEFF

  datatype File = File(path: Unicode, content: Bytes)

  datatype Error =
    | Truncated | InvalidMagic | UnsupportedVersion | TooManyFiles | InvalidPathLength | TooLarge
    | InvalidUtf8 | InvalidPath | DuplicatePath | TrailingBytes

  datatype Result = Parsed(files: seq<File>, payloadBytes: nat) | Failed(error: Error)

  // ---- Bounds ---------------------------------------------------------------------------------

  /**
   * The sum of two safe integers as a binary64: exact up to 2^53, and beyond that rounded to a
   * multiple of two, ties to a multiple of four.
   */
  function Plus(a: nat, b: nat): nat {
    var sum := a + b;
    if sum <= MAX_SAFE_INTEGER + 1 || sum % 2 == 0 then sum
    else if (sum - 1) % 4 == 0 then sum - 1 else sum + 1
  }

  /** requireBytes does not throw. */
  predicate HasBytes(bytes: Bytes, offset: nat, length: nat) {
    offset <= MAX_SAFE_INTEGER && length <= MAX_SAFE_INTEGER && Plus(offset, length) <= |bytes|
  }

  /** The bounds test is exact although the sum is rounded. */
  lemma {:induction false} BoundsExact(bytes: Bytes, offset: nat, length: nat)
    requires |bytes| <= MAX_SAFE_INTEGER
    ensures HasBytes(bytes, offset, length) <==> offset + length <= |bytes|
  {
  }

  // ---- Paths ----------------------------------------------------------------------------------

  predicate SafeSegment(segment: Unicode) {
    segment != [] && segment != [DOT] && segment != [DOT, DOT]
  }

  /** validatePath does not throw. */
  predicate ValidPath(path: Unicode) {
    && |path| > 1 && path[0] == SLASH && path[|path| - 1] != SLASH && 0 !in path && BACKSLASH !in path
    && var segments := SplitAt(path[1..], SLASH);
    forall i :: 0 <= i < |segments| ==> SafeSegment(segments[i])
  }

  /** The decoder takes a byte order mark off the front. */
  function DecodeText(bytes: Bytes): Option<Unicode> {
    match Decode(bytes)
    case None => None
    case Some(s) => Some(if s != [] && s[0] == MARK then s[1..] else s)
  }

  // ---- The parser -----------------------------------------------------------------------------

  predicate Has(files: seq<File>, path: Unicode) {
    exists i :: 0 <= i < |files| && files[i].path == path
  }

  function Slice(bytes: Bytes, offset: nat, length: nat): Bytes {
    if offset + length <= |bytes| then bytes[offset..offset + length] else []
  }

  datatype Step = Next(file: File, end: nat) | Bad(error: Error)

  /** One round of the loop over the entries. */
  function ReadEntry(bytes: Bytes, offset: nat, files: seq<File>): Step {
    if !HasBytes(bytes, offset, ENTRY_HEADER_BYTES) then Bad(Truncated)
    else
      var pathLength, contentLength := Number(Slice(bytes, offset, 4)), Number(Slice(bytes, offset + 8, 8));
      if pathLength == 0 || pathLength > MAX_PATH_BYTES then Bad(InvalidPathLength)
      else if contentLength > MAX_SAFE_INTEGER then Bad(TooLarge)
      else ReadBody(bytes, offset + ENTRY_HEADER_BYTES, pathLength, contentLength, files)
  }

  function ReadBody(bytes: Bytes, pathAt: nat, pathLength: nat, contentLength: nat, files: seq<File>): Step {
    if !HasBytes(bytes, pathAt, pathLength) then Bad(Truncated)
    else
      var path := DecodeText(Slice(bytes, pathAt, pathLength));
      if path.None? then Bad(InvalidUtf8)
      else if !ValidPath(path.value) then Bad(InvalidPath)
      else if !HasBytes(bytes, pathAt + pathLength, contentLength) then Bad(Truncated)
      else if Has(files, path.value) then Bad(DuplicatePath)
      else Next(File(path.value, Slice(bytes, pathAt + pathLength, contentLength)), pathAt + pathLength + contentLength)
  }

  /** The loop over the entries, for any way to read one. */
  function Loop(read: (nat, seq<File>) -> Step, size: nat, offset: nat, count: nat, files: seq<File>,
                payloadBytes: nat): Result
    decreases count
  {
    if count == 0 then (if offset != size then Failed(TrailingBytes) else Parsed(files, payloadBytes))
    else
      match read(offset, files)
      case Bad(error) => Failed(error)
      case Next(file, end) => Loop(read, size, end, count - 1, files + [file], payloadBytes + |file.content|)
  }

  function Reader(bytes: Bytes): (nat, seq<File>) -> Step {
    (offset: nat, files: seq<File>) => ReadEntry(bytes, offset, files)
  }

  function Parse(bytes: Bytes): Result {
    if !HasBytes(bytes, 0, PREAMBLE_BYTES) then Failed(Truncated)
    else if Slice(bytes, 0, |MAGIC|) != MAGIC then Failed(InvalidMagic)
    else if Number(Slice(bytes, |MAGIC|, 4)) != 1 then Failed(UnsupportedVersion)
    else if Number(Slice(bytes, |MAGIC| + 4, 4)) > MAX_FILES then Failed(TooManyFiles)
    else Loop(Reader(bytes), |bytes|, PREAMBLE_BYTES, Number(Slice(bytes, |MAGIC| + 4, 4)), [], 0)
  }

  method HasMagic(bytes: Bytes) returns (ok: bool)
    requires |bytes| >= |MAGIC|
    ensures ok <==> Slice(bytes, 0, |MAGIC|) == MAGIC
  {
    for index := 0 to |MAGIC|
      invariant bytes[..index] == MAGIC[..index]
    {
      if bytes[index] != MAGIC[index] {
        assert Slice(bytes, 0, |MAGIC|)[index] == bytes[index];
        return false;
      }
      assert bytes[..index + 1] == bytes[..index] + [bytes[index]];
      assert MAGIC[..index + 1] == MAGIC[..index] + [MAGIC[index]];
    }
    assert MAGIC[..|MAGIC|] == MAGIC;
    ok := true;
  }

  /** parseClawsemblyFs: the loop over offset, files and byte count. */
  method ParseClawsemblyFs(bytes: Bytes) returns (result: Result)
    ensures result == Parse(bytes)
  {
    if !HasBytes(bytes, 0, PREAMBLE_BYTES) { return Failed(Truncated); }
    var magic := HasMagic(bytes);
    if !magic { return Failed(InvalidMagic); }
    var version := Number(Slice(bytes, |MAGIC|, 4));
    if version != 1 { return Failed(UnsupportedVersion); }
    var fileCount := Number(Slice(bytes, |MAGIC| + 4, 4));
    if fileCount > MAX_FILES { return Failed(TooManyFiles); }
    result := ReadAll(Reader(bytes), |bytes|, fileCount);
  }

  method ReadAll(read: (nat, seq<File>) -> Step, size: nat, fileCount: nat) returns (result: Result)
    ensures result == Loop(read, size, PREAMBLE_BYTES, fileCount, [], 0)
  {
    var files: seq<File> := [];
    var offset: nat, payloadBytes: nat := PREAMBLE_BYTES, 0;
    for index := 0 to fileCount
      invariant Loop(read, size, offset, fileCount - index, files, payloadBytes)
             == Loop(read, size, PREAMBLE_BYTES, fileCount, [], 0)
    {
      var step := read(offset, files);
      if step.Bad? { return Failed(step.error); }
      files := files + [step.file];
      offset := step.end;
      payloadBytes := payloadBytes + |step.file.content|;
    }
    if offset != size { return Failed(TrailingBytes); }
    result := Parsed(files, payloadBytes);
  }

  // ---- Images ---------------------------------------------------------------------------------

  /** An entry with what parsing drops: the mode word, and whether the path has a byte order mark. */
  datatype Entry = Entry(mode: nat, marked: bool, file: File)

  function PathBytes(e: Entry): Bytes {
    Encode(if e.marked then [MARK] + e.file.path else e.file.path)
  }

  function EntryBytes(e: Entry): Bytes {
    BigEndian(|PathBytes(e)|, 4) + BigEndian(e.mode, 4) + BigEndian(|e.file.content|, 8) + PathBytes(e) + e.file.content
  }

  function EntriesBytes(entries: seq<Entry>): Bytes {
    if entries == [] then [] else EntriesBytes(entries[..|entries| - 1]) + EntryBytes(entries[|entries| - 1])
  }

  function Image(entries: seq<Entry>): Bytes {
    MAGIC + BigEndian(1, 4) + BigEndian(|entries|, 4) + EntriesBytes(entries)
  }

  function FilesOf(entries: seq<Entry>): (files: seq<File>)
    ensures |files| == |entries| && forall i :: 0 <= i < |files| ==> files[i] == entries[i].file
  {
    seq(|entries|, i requires 0 <= i < |entries| => entries[i].file)
  }

  function Payload(files: seq<File>): nat {
    if files == [] then 0 else Payload(files[..|files| - 1]) + |files[|files| - 1].content|
  }

  predicate ValidEntry(e: Entry) {
    && ValidPath(e.file.path) && 0 < |PathBytes(e)| <= MAX_PATH_BYTES && e.mode < Pow256(4)
    && |e.file.content| <= MAX_SAFE_INTEGER
  }

  predicate ValidEntries(entries: seq<Entry>) {
    && |entries| <= MAX_FILES && (forall i :: 0 <= i < |entries| ==> ValidEntry(entries[i]))
    && Distinct(FilesOf(entries))
  }

  predicate Distinct(files: seq<File>) {
    forall i, j :: 0 <= i < j < |files| ==> files[i].path != files[j].path
  }

  /** A path with or without a mark decodes to the path, and nothing else does. */
  lemma {:induction false} PathDecodes(bytes: Bytes, path: Unicode)
    requires ValidPath(path)
    ensures DecodeText(bytes) == Some(path) <==> bytes == Encode(path) || bytes == Encode([MARK] + path)
  {
    DecodesExactly(bytes, path);
    DecodesExactly(bytes, [MARK] + path);
    assert ([MARK] + path)[1..] == path;
    if DecodeText(bytes) == Some(path) {
      var s := Decode(bytes).value;
      if s != [] && s[0] == MARK { assert s == [MARK] + path; }
    }
  }

  // ---- Where bytes are ------------------------------------------------------------------------

  /** `part` stands in `bytes` at `offset`. */
  predicate At(bytes: Bytes, offset: nat, part: Bytes)
    decreases |part|
  {
    if part == [] then offset <= |bytes|
    else offset < |bytes| && bytes[offset] == part[0] && At(bytes, offset + 1, part[1..])
  }

  lemma {:induction false} AtFits(bytes: Bytes, offset: nat, part: Bytes)
    requires At(bytes, offset, part)
    ensures offset + |part| <= |bytes|
    decreases |part|
  {
    if part != [] { AtFits(bytes, offset + 1, part[1..]); }
  }

  lemma {:induction false} AtAppend(bytes: Bytes, offset: nat, a: Bytes, b: Bytes)
    ensures At(bytes, offset, a + b) <==> At(bytes, offset, a) && At(bytes, offset + |a|, b)
    decreases |a|
  {
    if a == [] {
      assert a + b == b;
      if At(bytes, offset, b) { AtFits(bytes, offset, b); }
    } else {
      assert (a + b)[1..] == a[1..] + b && (a + b)[0] == a[0];
      AtAppend(bytes, offset + 1, a[1..], b);
    }
  }

  lemma {:induction false} AtSlice(bytes: Bytes, offset: nat, n: nat, part: Bytes)
    requires offset + n <= |bytes|
    ensures Slice(bytes, offset, n) == part <==> At(bytes, offset, part) && |part| == n
    decreases n
  {
    if n == 0 || part == [] {
      if At(bytes, offset, part) { AtFits(bytes, offset, part); }
    } else {
      var slice := bytes[offset..offset + n];
      assert slice == [bytes[offset]] + bytes[offset + 1..offset + n];
      assert part == [part[0]] + part[1..];
      AtSlice(bytes, offset + 1, n - 1, part[1..]);
    }
  }

  /** Bytes that stand in others of the same length are those. */
  lemma {:induction false} AtWhole(bytes: Bytes, part: Bytes)
    ensures At(bytes, 0, part) && |part| == |bytes| <==> part == bytes
  {
    AtSlice(bytes, 0, |bytes|, part);
    assert bytes[0..|bytes|] == bytes;
  }

  /** A number stands where it is read. */
  lemma {:induction false} NumberAt(bytes: Bytes, offset: nat, width: nat, n: nat)
    requires offset + width <= |bytes| && n < Pow256(width)
    ensures Number(Slice(bytes, offset, width)) == n <==> At(bytes, offset, BigEndian(n, width))
  {
    var slice := Slice(bytes, offset, width);
    NumberOfBigEndian(n, width);
    BigEndianOfNumber(slice);
    AtSlice(bytes, offset, width, BigEndian(n, width));
  }

  /** What is read as a number is small enough. */
  lemma {:induction false} NumberFits(bytes: Bytes, offset: nat, width: nat)
    requires offset + width <= |bytes|
    ensures Number(Slice(bytes, offset, width)) < Pow256(width)
  {
    BigEndianOfNumber(Slice(bytes, offset, width));
  }

  lemma {:induction false} Powers()
    ensures Pow256(4) == 0x1_0000_0000 && Pow256(8) == 0x1_0000_0000_0000_0000
  {
    assert Pow256(1) == 256 && Pow256(2) == 0x1_0000 && Pow256(3) == 0x100_0000;
    assert Pow256(5) == Pow256(4) * 256 && Pow256(6) == Pow256(5) * 256 && Pow256(7) == Pow256(6) * 256;
  }

  // ---- One entry ------------------------------------------------------------------------------

  /** What one round of the loop demands of the bytes, without rounding. */
  ghost predicate Reads(bytes: Bytes, offset: nat, file: File, end: nat) {
    && offset + ENTRY_HEADER_BYTES <= |bytes|
    && var n, m := Number(Slice(bytes, offset, 4)), Number(Slice(bytes, offset + 8, 8));
    && var pathAt := offset + ENTRY_HEADER_BYTES;
    && 0 < n <= MAX_PATH_BYTES && m <= MAX_SAFE_INTEGER && end == pathAt + n + m <= |bytes|
    && DecodeText(Slice(bytes, pathAt, n)) == Some(file.path) && ValidPath(file.path)
    && Slice(bytes, pathAt + n, m) == file.content
  }

  lemma {:induction false} ReadBodyExactly(bytes: Bytes, pathAt: nat, n: nat, m: nat, files: seq<File>, file: File,
                                           end: nat)
    requires |bytes| <= MAX_SAFE_INTEGER
    ensures ReadBody(bytes, pathAt, n, m, files) == Next(file, end)
       <==> && end == pathAt + n + m <= |bytes|
            && DecodeText(Slice(bytes, pathAt, n)) == Some(file.path) && ValidPath(file.path)
            && Slice(bytes, pathAt + n, m) == file.content && !Has(files, file.path)
  {
    BoundsExact(bytes, pathAt, n);
    BoundsExact(bytes, pathAt + n, m);
  }

  lemma {:induction false} ReadEntryExactly(bytes: Bytes, offset: nat, files: seq<File>, file: File, end: nat)
    requires |bytes| <= MAX_SAFE_INTEGER
    ensures ReadEntry(bytes, offset, files) == Next(file, end) <==>
            Reads(bytes, offset, file, end) && !Has(files, file.path)
  {
    var n, m := Number(Slice(bytes, offset, 4)), Number(Slice(bytes, offset + 8, 8));
    BoundsExact(bytes, offset, ENTRY_HEADER_BYTES);
    ReadBodyExactly(bytes, offset + ENTRY_HEADER_BYTES, n, m, files, file, end);
  }

  /** An entry's five parts stand one after the other, given its mode, its path's bytes and its content. */
  ghost predicate Stands(bytes: Bytes, offset: nat, mode: nat, path: Bytes, content: Bytes) {
    && At(bytes, offset, BigEndian(|path|, 4)) && At(bytes, offset + 4, BigEndian(mode, 4))
    && At(bytes, offset + 8, BigEndian(|content|, 8))
    && At(bytes, offset + ENTRY_HEADER_BYTES, path) && At(bytes, offset + ENTRY_HEADER_BYTES + |path|, content)
  }

  ghost predicate PartsAt(bytes: Bytes, offset: nat, e: Entry) {
    Stands(bytes, offset, e.mode, PathBytes(e), e.file.content)
  }

  lemma {:induction false} FiveAt(bytes: Bytes, offset: nat, a: Bytes, b: Bytes, c: Bytes, d: Bytes, e: Bytes)
    ensures At(bytes, offset, a + b + c + d + e) <==>
      && At(bytes, offset, a) && At(bytes, offset + |a|, b) && At(bytes, offset + |a| + |b|, c)
      && At(bytes, offset + |a| + |b| + |c|, d) && At(bytes, offset + |a| + |b| + |c| + |d|, e)
  {
    AtAppend(bytes, offset, a + b + c + d, e);
    AtAppend(bytes, offset, a + b + c, d);
    AtAppend(bytes, offset, a + b, c);
    AtAppend(bytes, offset, a, b);
  }

  lemma {:induction false} EntryParts(bytes: Bytes, offset: nat, e: Entry)
    ensures |EntryBytes(e)| == ENTRY_HEADER_BYTES + |PathBytes(e)| + |e.file.content|
    ensures At(bytes, offset, EntryBytes(e)) <==> PartsAt(bytes, offset, e)
  {
    FiveAt(bytes, offset, BigEndian(|PathBytes(e)|, 4), BigEndian(e.mode, 4), BigEndian(|e.file.content|, 8),
           PathBytes(e), e.file.content);
  }

  /** The bytes at `offset` are read as that mode, path and content. */
  ghost predicate CutAs(bytes: Bytes, offset: nat, mode: nat, path: Bytes, content: Bytes) {
    && Number(Slice(bytes, offset, 4)) == |path| && Number(Slice(bytes, offset + 4, 4)) == mode
    && Number(Slice(bytes, offset + 8, 8)) == |content|
    && Slice(bytes, offset + ENTRY_HEADER_BYTES, |path|) == path
    && Slice(bytes, offset + ENTRY_HEADER_BYTES + |path|, |content|) == content
  }

  lemma {:induction false} HeaderStands(bytes: Bytes, offset: nat, n: nat, mode: nat, m: nat)
    requires offset + ENTRY_HEADER_BYTES <= |bytes|
    requires n <= MAX_PATH_BYTES && m <= MAX_SAFE_INTEGER && mode < Pow256(4)
    ensures Number(Slice(bytes, offset, 4)) == n <==> At(bytes, offset, BigEndian(n, 4))
    ensures Number(Slice(bytes, offset + 4, 4)) == mode <==> At(bytes, offset + 4, BigEndian(mode, 4))
    ensures Number(Slice(bytes, offset + 8, 8)) == m <==> At(bytes, offset + 8, BigEndian(m, 8))
  {
    Powers();
    NumberAt(bytes, offset, 4, n);
    NumberAt(bytes, offset + 4, 4, mode);
    NumberAt(bytes, offset + 8, 8, m);
  }

  /** What is read is what stands there. */
  lemma {:induction false} CutStands(bytes: Bytes, offset: nat, mode: nat, path: Bytes, content: Bytes)
    requires offset + ENTRY_HEADER_BYTES + |path| + |content| <= |bytes|
    requires |path| <= MAX_PATH_BYTES && |content| <= MAX_SAFE_INTEGER && mode < Pow256(4)
    ensures CutAs(bytes, offset, mode, path, content) <==> Stands(bytes, offset, mode, path, content)
  {
    HeaderStands(bytes, offset, |path|, mode, |content|);
    AtSlice(bytes, offset + ENTRY_HEADER_BYTES, |path|, path);
    AtSlice(bytes, offset + ENTRY_HEADER_BYTES + |path|, |content|, content);
  }

  lemma {:induction false} CutIsRead(bytes: Bytes, offset: nat, mode: nat, path: Bytes, file: File)
    requires offset + ENTRY_HEADER_BYTES + |path| + |file.content| <= |bytes|
    requires CutAs(bytes, offset, mode, path, file.content)
    requires 0 < |path| <= MAX_PATH_BYTES && |file.content| <= MAX_SAFE_INTEGER
    requires DecodeText(path) == Some(file.path) && ValidPath(file.path)
    ensures Reads(bytes, offset, file, offset + ENTRY_HEADER_BYTES + |path| + |file.content|)
  {
  }

  /** An entry that is there is read. */
  lemma {:induction false} ReadsEntry(bytes: Bytes, offset: nat, e: Entry)
    requires PartsAt(bytes, offset, e) && ValidEntry(e)
    ensures Reads(bytes, offset, e.file, offset + ENTRY_HEADER_BYTES + |PathBytes(e)| + |e.file.content|)
  {
    var path := PathBytes(e);
    AtFits(bytes, offset + ENTRY_HEADER_BYTES + |path|, e.file.content);
    CutStands(bytes, offset, e.mode, path, e.file.content);
    PathDecodes(path, e.file.path);
    CutIsRead(bytes, offset, e.mode, path, e.file);
  }

  /** The entry that was read at `offset`. */
  function EntryRead(bytes: Bytes, offset: nat, file: File): Entry {
    var n := Number(Slice(bytes, offset, 4));
    Entry(Number(Slice(bytes, offset + 4, 4)), Slice(bytes, offset + ENTRY_HEADER_BYTES, n) != Encode(file.path), file)
  }

  lemma {:induction false} PathRead(bytes: Bytes, offset: nat, file: File, end: nat)
    requires Reads(bytes, offset, file, end)
    ensures PathBytes(EntryRead(bytes, offset, file))
            == Slice(bytes, offset + ENTRY_HEADER_BYTES, Number(Slice(bytes, offset, 4)))
  {
    PathDecodes(Slice(bytes, offset + ENTRY_HEADER_BYTES, Number(Slice(bytes, offset, 4))), file.path);
  }

  lemma {:induction false} EntryReadValid(bytes: Bytes, offset: nat, file: File, end: nat)
    requires Reads(bytes, offset, file, end)
    ensures var e := EntryRead(bytes, offset, file);
      ValidEntry(e) && end == offset + ENTRY_HEADER_BYTES + |PathBytes(e)| + |e.file.content|
  {
    PathRead(bytes, offset, file, end);
    NumberFits(bytes, offset + 4, 4);
  }

  lemma {:induction false} EntryReadCut(bytes: Bytes, offset: nat, file: File, end: nat)
    requires Reads(bytes, offset, file, end)
    ensures var e := EntryRead(bytes, offset, file); CutAs(bytes, offset, e.mode, PathBytes(e), file.content)
  {
    PathRead(bytes, offset, file, end);
  }

  /** What is read is an entry, and stands there. */
  lemma {:induction false} EntryReadStands(bytes: Bytes, offset: nat, file: File, end: nat)
    requires Reads(bytes, offset, file, end)
    ensures PartsAt(bytes, offset, EntryRead(bytes, offset, file))
  {
    var e := EntryRead(bytes, offset, file);
    EntryReadValid(bytes, offset, file, end);
    EntryReadCut(bytes, offset, file, end);
    CutStands(bytes, offset, e.mode, PathBytes(e), file.content);
  }

  // ---- The loop -------------------------------------------------------------------------------

  /** The loop's rounds: where each entry starts, and what is read there. */
  ghost predicate Rounds(read: (nat, seq<File>) -> Step, offsets: seq<nat>, files: seq<File>) {
    && |offsets| == |files| + 1
    && forall i :: 0 <= i < |files| ==> read(offsets[i], files[..i]) == Next(files[i], offsets[i + 1])
  }

  lemma {:induction false} LoopFollows(read: (nat, seq<File>) -> Step, size: nat, offsets: seq<nat>,
                                       files: seq<File>, n: nat)
    requires Rounds(read, offsets, files) && n <= |files|
    ensures Loop(read, size, offsets[n], |files| - n, files[..n], Payload(files[..n]))
         == if offsets[|files|] == size then Parsed(files, Payload(files)) else Failed(TrailingBytes)
    decreases |files| - n
  {
    if n < |files| {
      assert files[..n + 1] == files[..n] + [files[n]] && files[..n + 1][..n] == files[..n];
      LoopFollows(read, size, offsets, files, n + 1);
    } else {
      assert files[..n] == files;
    }
  }

  /** A loop that accepts has gone through rounds. */
  lemma {:induction false} LoopRounds(read: (nat, seq<File>) -> Step, size: nat, offset: nat, count: nat,
                                      before: seq<File>, offsets: seq<nat>, payloadBytes: nat)
    returns (ends: seq<nat>, files: seq<File>)
    requires Rounds(read, offsets, before) && offsets[|before|] == offset
    requires Loop(read, size, offset, count, before, payloadBytes).Parsed?
    ensures Rounds(read, ends, files) && |files| == |before| + count && ends[0] == offsets[0] && ends[|files|] == size
    decreases count
  {
    if count == 0 {
      ends, files := offsets, before;
    } else {
      var step := read(offset, before);
      assert (before + [step.file])[..|before|] == before;
      forall i | 0 <= i < |before| ensures (before + [step.file])[..i] == before[..i] {}
      ends, files := LoopRounds(read, size, step.end, count - 1, before + [step.file], offsets + [step.end],
                                payloadBytes + |step.file.content|);
    }
  }

  // ---- Images are parsed ----------------------------------------------------------------------

  lemma {:induction false} EntriesMore(entries: seq<Entry>, n: nat)
    requires n < |entries|
    ensures EntriesBytes(entries[..n + 1]) == EntriesBytes(entries[..n]) + EntryBytes(entries[n])
  {
    assert entries[..n + 1][..n] == entries[..n];
  }

  /** Where the `n`-th entry of an image starts. */
  function StartOf(entries: seq<Entry>, n: nat): nat
    requires n <= |entries|
  {
    PREAMBLE_BYTES + |EntriesBytes(entries[..n])|
  }

  /** When the entries stand somewhere, so does each of them. */
  lemma {:induction false} PrefixStands(bytes: Bytes, entries: seq<Entry>, n: nat)
    requires At(bytes, PREAMBLE_BYTES, EntriesBytes(entries)) && n <= |entries|
    ensures At(bytes, PREAMBLE_BYTES, EntriesBytes(entries[..n]))
    decreases |entries| - n
  {
    if n == |entries| {
      assert entries[..n] == entries;
    } else {
      PrefixStands(bytes, entries, n + 1);
      EntriesMore(entries, n);
      AtAppend(bytes, PREAMBLE_BYTES, EntriesBytes(entries[..n]), EntryBytes(entries[n]));
    }
  }

  lemma {:induction false} EntryStandsAt(bytes: Bytes, entries: seq<Entry>, n: nat)
    requires At(bytes, PREAMBLE_BYTES, EntriesBytes(entries)) && n < |entries|
    ensures At(bytes, StartOf(entries, n), EntryBytes(entries[n]))
    ensures StartOf(entries, n + 1) == StartOf(entries, n) + |EntryBytes(entries[n])|
  {
    PrefixStands(bytes, entries, n + 1);
    EntriesMore(entries, n);
    AtAppend(bytes, PREAMBLE_BYTES, EntriesBytes(entries[..n]), EntryBytes(entries[n]));
  }

  lemma {:induction false} NotYet(entries: seq<Entry>, n: nat)
    requires Distinct(FilesOf(entries)) && n < |entries|
    ensures !Has(FilesOf(entries)[..n], entries[n].file.path)
  {
  }

  /** The round that reads the `n`-th entry. */
  lemma {:induction false} RoundOf(bytes: Bytes, entries: seq<Entry>, n: nat)
    requires |bytes| <= MAX_SAFE_INTEGER && At(bytes, PREAMBLE_BYTES, EntriesBytes(entries))
    requires ValidEntries(entries) && n < |entries|
    ensures ReadEntry(bytes, StartOf(entries, n), FilesOf(entries)[..n])
            == Next(entries[n].file, StartOf(entries, n + 1))
  {
    EntryStandsAt(bytes, entries, n);
    EntryParts(bytes, StartOf(entries, n), entries[n]);
    ReadsEntry(bytes, StartOf(entries, n), entries[n]);
    NotYet(entries, n);
    ReadEntryExactly(bytes, StartOf(entries, n), FilesOf(entries)[..n], entries[n].file, StartOf(entries, n + 1));
  }

  lemma {:induction false} EntriesAreRead(bytes: Bytes, entries: seq<Entry>) returns (offsets: seq<nat>)
    requires |bytes| <= MAX_SAFE_INTEGER && At(bytes, PREAMBLE_BYTES, EntriesBytes(entries)) && ValidEntries(entries)
    ensures Rounds(Reader(bytes), offsets, FilesOf(entries))
    ensures offsets[0] == PREAMBLE_BYTES && offsets[|entries|] == PREAMBLE_BYTES + |EntriesBytes(entries)|
  {
    offsets := seq(|entries| + 1, i requires 0 <= i <= |entries| => StartOf(entries, i));
    forall i | 0 <= i < |entries|
      ensures Reader(bytes)(offsets[i], FilesOf(entries)[..i]) == Next(FilesOf(entries)[i], offsets[i + 1])
    {
      RoundOf(bytes, entries, i);
    }
    assert entries[..0] == [] && entries[..|entries|] == entries;
  }

  lemma {:induction false} FourAt(bytes: Bytes, a: Bytes, b: Bytes, c: Bytes, d: Bytes)
    ensures At(bytes, 0, a + b + c + d) <==>
      At(bytes, 0, a) && At(bytes, |a|, b) && At(bytes, |a| + |b|, c) && At(bytes, |a| + |b| + |c|, d)
  {
    AtAppend(bytes, 0, a + b + c, d);
    AtAppend(bytes, 0, a + b, c);
    AtAppend(bytes, 0, a, b);
  }

  /** The preamble for `count` entries. */
  ghost predicate PreambleStands(bytes: Bytes, magic: Bytes, count: nat) {
    At(bytes, 0, magic) && At(bytes, |magic|, BigEndian(1, 4)) && At(bytes, |magic| + 4, BigEndian(count, 4))
  }

  /** The parts of an image. */
  lemma {:induction false} ImageParts(bytes: Bytes, magic: Bytes, entries: seq<Entry>)
    requires magic == MAGIC
    ensures |Image(entries)| == PREAMBLE_BYTES + |EntriesBytes(entries)|
    ensures At(bytes, 0, Image(entries)) <==>
      PreambleStands(bytes, magic, |entries|) && At(bytes, PREAMBLE_BYTES, EntriesBytes(entries))
  {
    FourAt(bytes, magic, BigEndian(1, 4), BigEndian(|entries|, 4), EntriesBytes(entries));
  }

  /** The preamble is accepted exactly when it stands there. */
  lemma {:induction false} PreambleAt(bytes: Bytes, magic: Bytes, count: nat)
    requires magic == MAGIC && |bytes| >= PREAMBLE_BYTES && count <= MAX_FILES
    ensures PreambleStands(bytes, magic, count) <==>
      && Slice(bytes, 0, |magic|) == magic && Number(Slice(bytes, |magic|, 4)) == 1
      && Number(Slice(bytes, |magic| + 4, 4)) == count
  {
    Powers();
    AtSlice(bytes, 0, |magic|, magic);
    NumberAt(bytes, |magic|, 4, 1);
    NumberAt(bytes, |magic| + 4, 4, count);
  }

  /** Behind an accepted preamble, parsing is the loop. */
  lemma {:induction false} ParseIsLoop(bytes: Bytes, magic: Bytes, count: nat)
    requires magic == MAGIC && PREAMBLE_BYTES <= |bytes| <= MAX_SAFE_INTEGER && count <= MAX_FILES
    requires PreambleStands(bytes, magic, count)
    ensures Parse(bytes) == Loop(Reader(bytes), |bytes|, PREAMBLE_BYTES, count, [], 0)
  {
    PreambleAt(bytes, magic, count);
    BoundsExact(bytes, 0, PREAMBLE_BYTES);
  }

  lemma {:induction false} ParsedPreamble(bytes: Bytes, magic: Bytes) returns (count: nat)
    requires magic == MAGIC && |bytes| <= MAX_SAFE_INTEGER && Parse(bytes).Parsed?
    ensures |bytes| >= PREAMBLE_BYTES && count <= MAX_FILES && PreambleStands(bytes, magic, count)
  {
    count := Number(Slice(bytes, |magic| + 4, 4));
    BoundsExact(bytes, 0, PREAMBLE_BYTES);
    PreambleAt(bytes, magic, count);
  }

  /** Parsing the image of valid entries gives their files, in order, and the sum of their sizes. */
  lemma {:induction false} ParsesImage(entries: seq<Entry>)
    requires ValidEntries(entries) && |Image(entries)| <= MAX_SAFE_INTEGER
    ensures Parse(Image(entries)) == Parsed(FilesOf(entries), Payload(FilesOf(entries)))
  {
    var bytes, files := Image(entries), FilesOf(entries);
    AtWhole(bytes, bytes);
    ImageParts(bytes, MAGIC, entries);
    ParseIsLoop(bytes, MAGIC, |entries|);
    var offsets := EntriesAreRead(bytes, entries);
    assert files[..0] == [];
    LoopFollows(Reader(bytes), |bytes|, offsets, files, 0);
  }

  // ---- What is accepted -----------------------------------------------------------------------

  /** The entries that the rounds of the loop have read. */
  function EntriesRead(bytes: Bytes, offsets: seq<nat>, files: seq<File>): (entries: seq<Entry>)
    requires |offsets| == |files| + 1
    ensures |entries| == |files|
    ensures forall i :: 0 <= i < |files| ==> entries[i] == EntryRead(bytes, offsets[i], files[i])
  {
    seq(|files|, i requires 0 <= i < |files| => EntryRead(bytes, offsets[i], files[i]))
  }

  /** The `n`-th round's entry is valid and new, and fills the bytes up to the next. */
  ghost predicate Fills(bytes: Bytes, offsets: seq<nat>, files: seq<File>, n: nat) {
    && n < |files| && |offsets| == |files| + 1 && !Has(files[..n], files[n].path)
    && var e := EntryRead(bytes, offsets[n], files[n]);
    ValidEntry(e) && At(bytes, offsets[n], EntryBytes(e)) && offsets[n + 1] == offsets[n] + |EntryBytes(e)|
  }

  lemma {:induction false} RoundFills(bytes: Bytes, offsets: seq<nat>, files: seq<File>, n: nat)
    requires |bytes| <= MAX_SAFE_INTEGER && n < |files| && |offsets| == |files| + 1
    requires ReadEntry(bytes, offsets[n], files[..n]) == Next(files[n], offsets[n + 1])
    ensures Fills(bytes, offsets, files, n)
  {
    ReadEntryExactly(bytes, offsets[n], files[..n], files[n], offsets[n + 1]);
    EntryReadValid(bytes, offsets[n], files[n], offsets[n + 1]);
    EntryReadStands(bytes, offsets[n], files[n], offsets[n + 1]);
    EntryParts(bytes, offsets[n], EntryRead(bytes, offsets[n], files[n]));
  }

  lemma {:induction false} EachRoundFills(bytes: Bytes, offsets: seq<nat>, files: seq<File>)
    requires |bytes| <= MAX_SAFE_INTEGER && Rounds(Reader(bytes), offsets, files)
    ensures forall n :: 0 <= n < |files| ==> Fills(bytes, offsets, files, n)
  {
    forall n | 0 <= n < |files| ensures Fills(bytes, offsets, files, n) {
      assert Reader(bytes)(offsets[n], files[..n]) == Next(files[n], offsets[n + 1]);
      RoundFills(bytes, offsets, files, n);
    }
  }

  lemma {:induction false} EntriesTileMore(bytes: Bytes, offsets: seq<nat>, files: seq<File>, n: nat)
    requires Fills(bytes, offsets, files, n)
    requires var part := EntriesBytes(EntriesRead(bytes, offsets, files)[..n]);
      At(bytes, offsets[0], part) && offsets[n] == offsets[0] + |part|
    ensures var part := EntriesBytes(EntriesRead(bytes, offsets, files)[..n + 1]);
      At(bytes, offsets[0], part) && offsets[n + 1] == offsets[0] + |part|
  {
    var entries := EntriesRead(bytes, offsets, files);
    assert entries[n] == EntryRead(bytes, offsets[n], files[n]);
    OneMoreEntry(bytes, offsets[0], entries, n);
  }

  lemma {:induction false} OneMoreEntry(bytes: Bytes, start: nat, entries: seq<Entry>, n: nat)
    requires n < |entries| && At(bytes, start, EntriesBytes(entries[..n]))
    requires At(bytes, start + |EntriesBytes(entries[..n])|, EntryBytes(entries[n]))
    ensures var part := EntriesBytes(entries[..n + 1]);
      At(bytes, start, part) && |part| == |EntriesBytes(entries[..n])| + |EntryBytes(entries[n])|
  {
    EntriesMore(entries, n);
    AtAppend(bytes, start, EntriesBytes(entries[..n]), EntryBytes(entries[n]));
  }

  /** The entries lie end to end. */
  lemma {:induction false} EntriesTile(bytes: Bytes, offsets: seq<nat>, files: seq<File>, n: nat)
    requires |offsets| == |files| + 1 && n <= |files| && offsets[0] <= |bytes|
    requires forall i :: 0 <= i < |files| ==> Fills(bytes, offsets, files, i)
    ensures var part := EntriesBytes(EntriesRead(bytes, offsets, files)[..n]);
      At(bytes, offsets[0], part) && offsets[n] == offsets[0] + |part|
  {
    var entries := EntriesRead(bytes, offsets, files);
    if n > 0 {
      EntriesTile(bytes, offsets, files, n - 1);
      EntriesTileMore(bytes, offsets, files, n - 1);
    }
  }

  lemma {:induction false} DistinctInTurn(bytes: Bytes, offsets: seq<nat>, files: seq<File>)
    requires forall n :: 0 <= n < |files| ==> Fills(bytes, offsets, files, n)
    ensures Distinct(files)
  {
    forall i, j | 0 <= i < j < |files| ensures files[i].path != files[j].path {
      assert Fills(bytes, offsets, files, j);
      assert files[..j][i] == files[i];
    }
  }

  lemma {:induction false} EntriesReadValid(bytes: Bytes, offsets: seq<nat>, files: seq<File>)
    requires |offsets| == |files| + 1 && |files| <= MAX_FILES
    requires forall n :: 0 <= n < |files| ==> Fills(bytes, offsets, files, n)
    ensures ValidEntries(EntriesRead(bytes, offsets, files)) && FilesOf(EntriesRead(bytes, offsets, files)) == files
  {
    var entries := EntriesRead(bytes, offsets, files);
    forall n | 0 <= n < |files| ensures ValidEntry(entries[n]) { assert Fills(bytes, offsets, files, n); }
    DistinctInTurn(bytes, offsets, files);
    assert FilesOf(entries) == files;
  }

  lemma {:induction false} TileAll(bytes: Bytes, offsets: seq<nat>, files: seq<File>) returns (entries: seq<Entry>)
    requires |offsets| == |files| + 1 && |files| <= MAX_FILES && offsets[0] <= |bytes| == offsets[|files|]
    requires forall n :: 0 <= n < |files| ==> Fills(bytes, offsets, files, n)
    ensures ValidEntries(entries) && |entries| == |files|
    ensures At(bytes, offsets[0], EntriesBytes(entries)) && offsets[0] + |EntriesBytes(entries)| == |bytes|
  {
    entries := EntriesRead(bytes, offsets, files);
    EntriesReadValid(bytes, offsets, files);
    EntriesTile(bytes, offsets, files, |files|);
    assert entries[..|files|] == entries;
  }

  lemma {:induction false} LoopFills(bytes: Bytes, count: nat) returns (offsets: seq<nat>, files: seq<File>)
    requires |bytes| <= MAX_SAFE_INTEGER && Loop(Reader(bytes), |bytes|, PREAMBLE_BYTES, count, [], 0).Parsed?
    ensures |files| == count && |offsets| == count + 1 && offsets[0] == PREAMBLE_BYTES && offsets[count] == |bytes|
    ensures forall n :: 0 <= n < |files| ==> Fills(bytes, offsets, files, n)
  {
    offsets, files := LoopRounds(Reader(bytes), |bytes|, PREAMBLE_BYTES, count, [], [PREAMBLE_BYTES], 0);
    EachRoundFills(bytes, offsets, files);
  }

  lemma {:induction false} AcceptedEntries(bytes: Bytes, magic: Bytes, offsets: seq<nat>, files: seq<File>)
    returns (entries: seq<Entry>)
    requires magic == MAGIC && |offsets| == |files| + 1 && |files| <= MAX_FILES
    requires offsets[0] == PREAMBLE_BYTES <= |bytes| == offsets[|files|]
    requires PreambleStands(bytes, magic, |files|) && forall n :: 0 <= n < |files| ==> Fills(bytes, offsets, files, n)
    ensures ValidEntries(entries) && At(bytes, 0, Image(entries)) && |Image(entries)| == |bytes|
  {
    entries := TileAll(bytes, offsets, files);
    ImageParts(bytes, magic, entries);
  }

  /** An accepted image is its preamble and its entries end to end: it re-encodes to itself. */
  lemma {:induction false} AcceptedIsImage(bytes: Bytes) returns (entries: seq<Entry>)
    requires |bytes| <= MAX_SAFE_INTEGER && Parse(bytes).Parsed?
    ensures ValidEntries(entries) && Image(entries) == bytes
  {
    var count := ParsedPreamble(bytes, MAGIC);
    ParseIsLoop(bytes, MAGIC, count);
    var offsets, files := LoopFills(bytes, count);
    entries := AcceptedEntries(bytes, MAGIC, offsets, files);
    AtWhole(bytes, Image(entries));
  }

  /** The parser accepts exactly the images of valid entries, and gives back their files. */
  lemma {:induction false} ParsesExactlyImages(bytes: Bytes, files: seq<File>, payloadBytes: nat)
    requires |bytes| <= MAX_SAFE_INTEGER
    ensures Parse(bytes) == Parsed(files, payloadBytes) <==>
      exists entries :: ValidEntries(entries) && bytes == Image(entries)
                     && files == FilesOf(entries) && payloadBytes == Payload(files)
  {
    if Parse(bytes) == Parsed(files, payloadBytes) {
      var entries := AcceptedIsImage(bytes);
      ParsesImage(entries);
    }
    if entries :| ValidEntries(entries) && bytes == Image(entries)
                  && files == FilesOf(entries) && payloadBytes == Payload(files) {
      ParsesImage(entries);
    }
  }
}
