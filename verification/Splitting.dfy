/** Splitting a string at a separator, as `split` does. */
module Splitting {

  /** There is always one part. */
  function SplitAt<T(==)>(s: seq<T>, separator: T): (parts: seq<seq<T>>)
    ensures |parts| > 0
  {
    if s == [] then [[]]
    else
      var parts := SplitAt(s[1..], separator);
      if s[0] == separator then [[]] + parts else [[s[0]] + parts[0]] + parts[1..]
  }

  // ---- Where the parts are --------------------------------------------------------------------

  /** From `i` on up to a separator or the end, `s` reads `part`. */
  predicate Reads<T(==)>(s: seq<T>, separator: T, i: nat, part: seq<T>) {
    && i + |part| <= |s| && s[i..i + |part|] == part && separator !in part
    && (i + |part| == |s| || s[i + |part|] == separator)
  }

  /** And it does so from the beginning, or right behind a separator. */
  predicate PartAt<T(==)>(s: seq<T>, separator: T, i: nat, part: seq<T>) {
    Reads(s, separator, i, part) && (i == 0 || s[i - 1] == separator)
  }

  lemma {:induction false} ReadsTail<T>(s: seq<T>, separator: T, i: nat, part: seq<T>)
    requires s != []
    ensures Reads(s[1..], separator, i, part) <==> Reads(s, separator, i + 1, part)
  {
    if i + |part| < |s| { assert s[1..][i..i + |part|] == s[i + 1..i + 1 + |part|]; }
  }

  lemma {:induction false} FirstPart<T>(s: seq<T>, separator: T, part: seq<T>)
    ensures Reads(s, separator, 0, part) <==> part == SplitAt(s, separator)[0]
  {
    if s != [] && s[0] != separator {
      var first := SplitAt(s[1..], separator)[0];
      FirstPart(s[1..], separator, first);
      ReadsTail(s, separator, 0, first);
      assert s[0..1 + |first|] == [s[0]] + s[1..1 + |first|];
      if part != [] {
        FirstPart(s[1..], separator, part[1..]);
        ReadsTail(s, separator, 0, part[1..]);
        if Reads(s, separator, 0, part) {
          assert s[1..|part|] == s[0..|part|][1..] == part[1..];
          assert part == [part[0]] + part[1..];
        }
      }
    }
  }

  lemma {:induction false} LaterPart<T>(s: seq<T>, separator: T, part: seq<T>)
    ensures part in SplitAt(s, separator)[1..] <==> exists i: nat :: 0 < i <= |s| && PartAt(s, separator, i, part)
  {
    if s != [] {
      var tail := s[1..];
      LaterPart(tail, separator, part);
      FirstPart(tail, separator, part);
      forall i: nat | i <= |tail| ensures Reads(tail, separator, i, part) <==> Reads(s, separator, i + 1, part) {
        ReadsTail(s, separator, i, part);
      }
      if i: nat :| 0 < i <= |s| && PartAt(s, separator, i, part) {
        if i > 1 { assert PartAt(tail, separator, i - 1, part); }
      }
      if i: nat :| 0 < i <= |tail| && PartAt(tail, separator, i, part) {
        assert PartAt(s, separator, i + 1, part);
      }
      if s[0] == separator {
        assert SplitAt(s, separator)[1..] == SplitAt(tail, separator);
        if part == SplitAt(tail, separator)[0] { assert PartAt(s, separator, 1, part); }
      } else {
        assert SplitAt(s, separator)[1..] == SplitAt(tail, separator)[1..];
      }
    }
  }

  /** The parts of a string are what it reads from its beginning and behind its separators. */
  lemma {:induction false} PartsExactly<T>(s: seq<T>, separator: T, part: seq<T>)
    ensures part in SplitAt(s, separator) <==> exists i: nat :: i <= |s| && PartAt(s, separator, i, part)
  {
    FirstPart(s, separator, part);
    LaterPart(s, separator, part);
    var parts := SplitAt(s, separator);
    assert part in parts <==> part == parts[0] || part in parts[1..];
    if part == parts[0] { assert PartAt(s, separator, 0, part); }
  }

  // ---- Segments of dots -----------------------------------------------------------------------

  /** From `i` on there are `n` dots, and then a separator or the end. */
  predicate DotsAt<T(==)>(s: seq<T>, separator: T, dot: T, i: nat, n: nat) {
    && i + n <= |s| && (forall k :: i <= k < i + n ==> s[k] == dot)
    && (i + n == |s| || s[i + n] == separator)
  }

  /** Somewhere behind a separator there are `n` dots and nothing else up to the next. */
  ghost predicate HasDots<T>(s: seq<T>, separator: T, dot: T, n: nat) {
    exists i: nat :: i < |s| && s[i] == separator && DotsAt(s, separator, dot, i + 1, n)
  }

  /** A path has such a segment exactly if splitting it behind its first slash gives one. */
  lemma {:induction false} DotsExactly<T>(s: seq<T>, separator: T, dot: T, n: nat, part: seq<T>)
    requires s != [] && s[0] == separator && dot != separator
    requires |part| == n && forall k :: 0 <= k < n ==> part[k] == dot
    ensures part in SplitAt(s[1..], separator) <==> HasDots(s, separator, dot, n)
  {
    var tail := s[1..];
    PartsExactly(tail, separator, part);
    forall i: nat | i <= |tail|
      ensures PartAt(tail, separator, i, part) <==> s[i] == separator && DotsAt(s, separator, dot, i + 1, n)
    {
      DotsRead(s, separator, dot, i + 1, part);
      ReadsTail(s, separator, i, part);
      assert i > 0 ==> tail[i - 1] == s[i];
    }
  }

  lemma {:induction false} DotsRead<T>(s: seq<T>, separator: T, dot: T, i: nat, part: seq<T>)
    requires dot != separator && forall k :: 0 <= k < |part| ==> part[k] == dot
    ensures Reads(s, separator, i, part) <==> DotsAt(s, separator, dot, i, |part|)
  {
    if i + |part| <= |s| {
      var read := s[i..i + |part|];
      if read == part {
        forall k | i <= k < i + |part| ensures s[k] == dot { assert read[k - i] == part[k - i]; }
      }
    }
  }
}
