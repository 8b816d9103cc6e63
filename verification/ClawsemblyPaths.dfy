/**
 * Which paths the ClawsemblyFS parser accepts, said of their characters alone, and for which reason
 * it rejects an image.
 */
module ClawsemblyPaths {
  import opened ByteStrings
  import opened Splitting
  import opened Utf8
  import opened ClawsemblyFs

  /**
   * The path starts with a slash and has no 0 and no backslash, and behind no slash there are none,
   * one or two dots and then a slash or the end.
   */
  ghost predicate Harmless(path: Unicode) {
    && path != [] && path[0] == 47 && 0 !in path && 92 !in path
    && !HasDots(path, 47, 46, 0) && !HasDots(path, 47, 46, 1) && !HasDots(path, 47, 46, 2)
  }

  /** A path is valid exactly if it is harmless. */
  lemma {:induction false} ValidExactly(path: Unicode)
    ensures ValidPath(path) <==> Harmless(path)
  {
    if path != [] && path[0] == SLASH {
      var segments := SplitAt(path[1..], SLASH);
      DotsExactly(path, SLASH, DOT, 0, []);
      DotsExactly(path, SLASH, DOT, 1, [DOT]);
      DotsExactly(path, SLASH, DOT, 2, [DOT, DOT]);
      assert [] in segments || [DOT] in segments || [DOT, DOT] in segments
        <==> exists i :: 0 <= i < |segments| && !SafeSegment(segments[i]);
      var last := |path| - 1;
      if path[last] == SLASH { assert DotsAt(path, SLASH, DOT, last + 1, 0); }
    }
  }

  /** No image with another path is parsed. */
  lemma {:induction false} ParsedIsHarmless(bytes: Bytes, i: nat)
    requires |bytes| <= MAX_SAFE_INTEGER && Parse(bytes).Parsed? && i < |Parse(bytes).files|
    ensures Harmless(Parse(bytes).files[i].path)
  {
    var entries := AcceptedIsImage(bytes);
    ParsesImage(entries);
    assert ValidEntry(entries[i]);
    ValidExactly(entries[i].file.path);
  }

  /** And every such path of up to 16384 bytes is: its image of one entry. */
  lemma {:induction false} HarmlessIsParsed(path: Unicode, content: Bytes)
    requires Harmless(path) && 0 < |Encode(path)| <= 16_384
    requires |Image([Entry(0, false, File(path, content))])| <= MAX_SAFE_INTEGER
    ensures Parse(Image([Entry(0, false, File(path, content))])) == Parsed([File(path, content)], |content|)
  {
    var e := Entry(0, false, File(path, content));
    ValidExactly(path);
    ContentFits(e);
    assert Pow256(4) == Pow256(3) * 256;
    assert ValidEntry(e);
    ParsesImage([e]);
    assert FilesOf([e]) == [e.file] && Payload([e.file]) == Payload([]) + |content|;
  }

  lemma {:induction false} ContentFits(e: Entry)
    ensures |Image([e])| >= |e.file.content|
  {
    EntriesMore([e], 0);
    assert [e][..1] == [e];
  }

  // ---- Why an image is rejected ---------------------------------------------------------------

  /** What the header of an entry says of the lengths of its path and its content. */
  function PathLength(bytes: Bytes, offset: nat): nat { Number(Slice(bytes, offset, 4)) }

  function ContentLength(bytes: Bytes, offset: nat): nat { Number(Slice(bytes, offset + 8, 8)) }

  /** The first thing wrong with the entry at `offset`, behind `files`. */
  ghost predicate Wrong(bytes: Bytes, offset: nat, files: seq<File>, error: Error) {
    var n, m := PathLength(bytes, offset), ContentLength(bytes, offset);
    if offset + 16 > |bytes| then error == Truncated
    else if n == 0 || n > 16_384 then error == InvalidPathLength
    else if m > 9_007_199_254_740_991 then error == TooLarge
    else WrongBody(bytes, offset + 16, n, m, files, error)
  }

  /** The first thing wrong with `n` bytes of path and `m` of content. */
  ghost predicate WrongBody(bytes: Bytes, pathAt: nat, n: nat, m: nat, files: seq<File>, error: Error) {
    if pathAt + n > |bytes| then error == Truncated
    else
      match DecodeText(bytes[pathAt..pathAt + n])
      case None => error == InvalidUtf8
      case Some(path) =>
        if !Harmless(path) then error == InvalidPath
        else if pathAt + n + m > |bytes| then error == Truncated
        else error == DuplicatePath && exists i :: 0 <= i < |files| && files[i].path == path
  }

  lemma {:induction false} BodyFails(bytes: Bytes, pathAt: nat, n: nat, m: nat, files: seq<File>, error: Error)
    requires |bytes| <= MAX_SAFE_INTEGER
    ensures ReadBody(bytes, pathAt, n, m, files) == Bad(error) <==> WrongBody(bytes, pathAt, n, m, files, error)
  {
    BoundsExact(bytes, pathAt, n);
    BoundsExact(bytes, pathAt + n, m);
    if pathAt + n <= |bytes| {
      var path := DecodeText(Slice(bytes, pathAt, n));
      if path.Some? { ValidExactly(path.value); }
    }
  }

  lemma {:induction false} RoundFails(bytes: Bytes, offset: nat, files: seq<File>, error: Error)
    requires |bytes| <= MAX_SAFE_INTEGER
    ensures ReadEntry(bytes, offset, files) == Bad(error) <==> Wrong(bytes, offset, files, error)
  {
    BoundsExact(bytes, offset, ENTRY_HEADER_BYTES);
    BodyFails(bytes, offset + 16, PathLength(bytes, offset), ContentLength(bytes, offset), files, error);
  }

  /** The loop goes through these rounds, and then cannot read on, or has bytes left. */
  ghost predicate Stops(read: (nat, seq<File>) -> Step, size: nat, count: nat, offsets: seq<nat>, files: seq<File>,
                        error: Error) {
    && Rounds(read, offsets, files) && |files| <= count
    && if |files| == count then offsets[count] != size && error == TrailingBytes
       else read(offsets[|files|], files) == Bad(error)
  }

  lemma {:induction false} LoopStops(read: (nat, seq<File>) -> Step, size: nat, offsets: seq<nat>, files: seq<File>,
                                     count: nat, payloadBytes: nat, error: Error)
    returns (ends: seq<nat>, all: seq<File>)
    requires Rounds(read, offsets, files)
    requires Loop(read, size, offsets[|files|], count, files, payloadBytes) == Failed(error)
    ensures Stops(read, size, |files| + count, ends, all, error) && ends[0] == offsets[0]
    decreases count
  {
    var offset := offsets[|files|];
    if count > 0 && read(offset, files).Next? {
      var step := read(offset, files);
      assert (files + [step.file])[..|files|] == files;
      forall i | 0 <= i < |files| ensures (files + [step.file])[..i] == files[..i] {}
      ends, all := LoopStops(read, size, offsets + [step.end], files + [step.file], count - 1,
                             payloadBytes + |step.file.content|, error);
    } else {
      ends, all := offsets, files;
    }
  }

  lemma {:induction false} StopsLoop(read: (nat, seq<File>) -> Step, size: nat, count: nat, offsets: seq<nat>,
                                     files: seq<File>, error: Error, n: nat)
    requires Stops(read, size, count, offsets, files, error) && n <= |files|
    ensures Loop(read, size, offsets[n], count - n, files[..n], Payload(files[..n])) == Failed(error)
    decreases |files| - n
  {
    if n < |files| {
      assert files[..n + 1] == files[..n] + [files[n]] && files[..n + 1][..n] == files[..n];
      StopsLoop(read, size, count, offsets, files, error, n + 1);
    } else {
      assert files[..n] == files;
    }
  }

  /** So many entries were read, and then something was wrong with the next one, or there were bytes left. */
  ghost predicate StopsAt(bytes: Bytes, count: nat, offsets: seq<nat>, files: seq<File>, error: Error) {
    && Rounds(Reader(bytes), offsets, files) && offsets[0] == 22 && |files| <= count
    && if |files| == count then offsets[count] != |bytes| && error == TrailingBytes
       else Wrong(bytes, offsets[|files|], files, error)
  }

  lemma {:induction false} StopsExactly(bytes: Bytes, count: nat, offsets: seq<nat>, files: seq<File>, error: Error)
    requires |bytes| <= MAX_SAFE_INTEGER && |offsets| == |files| + 1
    ensures StopsAt(bytes, count, offsets, files, error)
       <==> Stops(Reader(bytes), |bytes|, count, offsets, files, error) && offsets[0] == 22
  {
    RoundFails(bytes, offsets[|files|], files, error);
    assert Reader(bytes)(offsets[|files|], files) == ReadEntry(bytes, offsets[|files|], files);
  }

  lemma {:induction false} LoopFailed(bytes: Bytes, read: (nat, seq<File>) -> Step, count: nat, error: Error)
    returns (offsets: seq<nat>, files: seq<File>)
    requires |bytes| <= MAX_SAFE_INTEGER && read == Reader(bytes)
    requires Loop(read, |bytes|, 22, count, [], 0) == Failed(error)
    ensures StopsAt(bytes, count, offsets, files, error)
  {
    offsets, files := LoopStops(read, |bytes|, [22], [], count, 0, error);
    StopsExactly(bytes, count, offsets, files, error);
  }

  lemma {:induction false} LoopFails(bytes: Bytes, read: (nat, seq<File>) -> Step, count: nat, offsets: seq<nat>,
                                     files: seq<File>, error: Error)
    requires |bytes| <= MAX_SAFE_INTEGER && read == Reader(bytes) && StopsAt(bytes, count, offsets, files, error)
    ensures Loop(read, |bytes|, 22, count, [], 0) == Failed(error)
  {
    StopsExactly(bytes, count, offsets, files, error);
    StopsFromStart(read, |bytes|, count, offsets, files, error);
  }

  lemma {:induction false} StopsFromStart(read: (nat, seq<File>) -> Step, size: nat, count: nat, offsets: seq<nat>,
                                          files: seq<File>, error: Error)
    requires Stops(read, size, count, offsets, files, error)
    ensures Loop(read, size, offsets[0], count, [], 0) == Failed(error)
  {
    var none := files[..0];
    StopsLoop(read, size, count, offsets, files, error, 0);
    assert none == [];
    assert Payload(none) == 0 && count - 0 == count;
  }

  lemma {:induction false} VersionOne(bytes: Bytes)
    requires |bytes| >= 22
    ensures Number(Slice(bytes, |MAGIC|, 4)) == 1 <==> bytes[14..18] == [0, 0, 0, 1]
    ensures Slice(bytes, 0, |MAGIC|) == bytes[..14]
  {
    var version := bytes[14..18];
    BigEndianOfNumber(version);
    BigEndianOne();
    assert Slice(bytes, |MAGIC|, 4) == version;
    if Number(version) == 1 { assert version == BigEndian(1, 4); }
    NumberOfBigEndian(1, 4);
  }

  lemma {:induction false} BigEndianOne()
    ensures BigEndian(1, 4) == [0, 0, 0, 1] && Pow256(4) > 1
  {
    assert BigEndian(0, 0) == [];
    assert BigEndian(0, 1) == [0];
    assert BigEndian(0, 2) == [0, 0];
    assert BigEndian(0, 3) == [0, 0, 0];
    assert Pow256(4) == Pow256(3) * 256 && Pow256(3) == Pow256(2) * 256 && Pow256(2) == Pow256(1) * 256;
  }

  /** A rejected image has the first of these reasons, and only that. */
  lemma {:induction false} FailsExactly(bytes: Bytes, error: Error)
    requires |bytes| <= MAX_SAFE_INTEGER
    ensures Parse(bytes) == Failed(error) <==>
      if |bytes| < 22 then error == Truncated
      else if bytes[..14] != MAGIC then error == InvalidMagic
      else if bytes[14..18] != [0, 0, 0, 1] then error == UnsupportedVersion
      else if Number(bytes[18..22]) > 100_000 then error == TooManyFiles
      else exists offsets, files :: StopsAt(bytes, Number(bytes[18..22]), offsets, files, error)
  {
    BoundsExact(bytes, 0, PREAMBLE_BYTES);
    if |bytes| >= 22 {
      VersionOne(bytes);
      var count := Number(bytes[18..22]);
      assert Slice(bytes, |MAGIC| + 4, 4) == bytes[18..22];
      if bytes[..14] == MAGIC && bytes[14..18] == [0, 0, 0, 1] && count <= 100_000 {
        assert Parse(bytes) == Loop(Reader(bytes), |bytes|, 22, count, [], 0);
        if Parse(bytes) == Failed(error) {
          var offsets, files := LoopFailed(bytes, Reader(bytes), count, error);
        }
        if offsets, files :| StopsAt(bytes, count, offsets, files, error) {
          LoopFails(bytes, Reader(bytes), count, offsets, files, error);
        }
      }
    }
  }
}
