/** redactSensitiveValues (src/openclaw-gateway-health-probe.ts): secrets are replaced in every string of a JSON
    value. */
module Redaction {
  import opened Json

  const OPEN: CodeUnit := 91
  const CLOSE: CodeUnit := 93
  const WORD: JsString := Ascii("REDACTED")
  const REPLACEMENT: JsString := [OPEN] + WORD + [CLOSE]

  predicate StartsWith(s: JsString, prefix: JsString) {
    |prefix| <= |s| && s[..|prefix|] == prefix
  }

  predicate OccursAt(secret: JsString, s: JsString, i: nat) {
    i <= |s| && StartsWith(s[i..], secret)
  }

  predicate Occurs(secret: JsString, s: JsString) {
    exists i :: 0 <= i <= |s| && OccursAt(secret, s, i)
  }

  /** `replaceAll`, from left to right; an empty pattern matches before every unit and at the end. */
  function ReplaceAll(s: JsString, secret: JsString): JsString {
    if secret == [] then REPLACEMENT + (if s == [] then [] else [s[0]] + ReplaceAll(s[1..], secret))
    else if StartsWith(s, secret) then REPLACEMENT + ReplaceAll(s[|secret|..], secret)
    else if s == [] then []
    else [s[0]] + ReplaceAll(s[1..], secret)
  }

  function RedactText(s: JsString, secrets: seq<JsString>): JsString {
    if secrets == [] then s else ReplaceAll(RedactText(s, secrets[..|secrets| - 1]), secrets[|secrets| - 1])
  }

  function Redact(v: Value, secrets: seq<JsString>): Value {
    match v
    case Text(chars) => Text(RedactText(chars, secrets))
    case Array(items) => Array(RedactItems(items, secrets))
    case Object(fields) => Object(RedactFields(fields, secrets))
    case _ => v
  }

  function RedactItems(items: Items, secrets: seq<JsString>): Items {
    match items
    case NoItems => NoItems
    case Item(head, tail) => Item(Redact(head, secrets), RedactItems(tail, secrets))
  }

  function RedactFields(fields: Fields, secrets: seq<JsString>): Fields {
    match fields
    case NoFields => NoFields
    case Field(name, value, rest) => Field(name, Redact(value, secrets), RedactFields(rest, secrets))
  }

  // ---- One secret -----------------------------------------------------------------------------

  predicate BracketFree(s: JsString) { OPEN !in s && CLOSE !in s }

  lemma {:induction false} OccursInTail(secret: JsString, s: JsString, n: nat)
    requires n <= |s| && Occurs(secret, s[n..])
    ensures Occurs(secret, s)
  {
    var i :| 0 <= i <= |s[n..]| && OccursAt(secret, s[n..], i);
    assert s[n..][i..] == s[n + i..];
    assert OccursAt(secret, s, n + i);
  }

  /** A secret occurs at the front or further on. */
  lemma {:induction false} OccursSplit(secret: JsString, s: JsString)
    requires s != []
    ensures Occurs(secret, s) <==> StartsWith(s, secret) || Occurs(secret, s[1..])
  {
    assert s[0..] == s;
    if StartsWith(s, secret) { assert OccursAt(secret, s, 0); }
    if Occurs(secret, s[1..]) { OccursInTail(secret, s, 1); }
    if i :| 0 <= i <= |s| && OccursAt(secret, s, i) && i > 0 {
      assert s[1..][i - 1..] == s[i..];
      assert OccursAt(secret, s[1..], i - 1);
    }
  }

  lemma {:induction false} OccursInside(secret: JsString, before: JsString, s: JsString, after: JsString)
    requires Occurs(secret, s)
    ensures Occurs(secret, before + s + after)
  {
    var i :| 0 <= i <= |s| && OccursAt(secret, s, i);
    var whole := before + s + after;
    assert whole[|before| + i..] == s[i..] + after;
    assert (s[i..] + after)[..|secret|] == s[i..][..|secret|];
    assert OccursAt(secret, whole, |before| + i);
  }

  /** Nothing without brackets occurs across a replacement: only inside the word, or behind it. */
  lemma {:induction false} OccursBehind(secret: JsString, rest: JsString)
    requires secret != [] && BracketFree(secret)
    ensures Occurs(secret, REPLACEMENT + rest) <==> Occurs(secret, WORD) || Occurs(secret, rest)
  {
    var s := REPLACEMENT + rest;
    assert s[10..] == rest;
    if Occurs(secret, rest) { OccursInTail(secret, s, 10); }
    if Occurs(secret, WORD) { OccursInside(secret, [OPEN], WORD, [CLOSE] + rest); }
    assert s == [OPEN] + WORD + ([CLOSE] + rest);
    if i :| 0 <= i <= |s| && OccursAt(secret, s, i) { OccurrenceBehind(secret, rest, i); }
  }

  lemma {:induction false} OccurrenceBehind(secret: JsString, rest: JsString, i: nat)
    requires secret != [] && BracketFree(secret) && OccursAt(secret, REPLACEMENT + rest, i)
    ensures Occurs(secret, WORD) || Occurs(secret, rest)
  {
    var s := REPLACEMENT + rest;
    if i >= 10 {
      assert s[i..] == rest[i - 10..];
      assert OccursAt(secret, rest, i - 10);
    } else {
      assert forall k :: i <= k < i + |secret| ==> s[k] == secret[k - i] && s[k] != OPEN && s[k] != CLOSE;
      assert s[0] == OPEN && s[9] == CLOSE;
      assert WORD[i - 1..][..|secret|] == secret;
      assert OccursAt(secret, WORD, i - 1);
    }
  }

  lemma {:induction false} OneCopied(u: CodeUnit, tail: JsString, secret: JsString)
    requires secret != [] && !StartsWith([u] + tail, secret)
    ensures ReplaceAll([u] + tail, secret) == [u] + ReplaceAll(tail, secret)
  {
    assert ([u] + tail)[1..] == tail;
  }

  lemma {:induction false} TakeOne(u: CodeUnit, tail: JsString, m: nat)
    requires 0 < m <= |tail| + 1
    ensures ([u] + tail)[..m] == [u] + tail[..m - 1]
  {
  }

  /** Up to its first opening bracket, a result is a copy. */
  lemma {:induction false} CopiedPrefix(s: JsString, secret: JsString, m: nat)
    requires secret != [] && m <= |ReplaceAll(s, secret)| && OPEN !in ReplaceAll(s, secret)[..m]
    ensures m <= |s| && ReplaceAll(s, secret)[..m] == s[..m]
    decreases |s|
  {
    if m > 0 {
      assert ReplaceAll(s, secret)[0] in ReplaceAll(s, secret)[..m];
      var u, tail := s[0], s[1..];
      assert s == [u] + tail;
      OneCopied(u, tail, secret);
      TakeOne(u, ReplaceAll(tail, secret), m);
      CopiedPrefix(tail, secret, m - 1);
      TakeOne(u, tail, m);
    }
  }

  /** A string without opening brackets that starts a result has started the string before. */
  lemma {:induction false} FrontKept(s: JsString, secret: JsString, other: JsString)
    requires secret != [] && s != [] && !StartsWith(s, secret)
    requires OPEN !in other && StartsWith(ReplaceAll(s, secret), other)
    ensures StartsWith(s, other)
  {
    CopiedPrefix(s, secret, |other|);
  }

  /** What did not occur before a pass does not occur after it, so later passes never recreate a secret. */
  lemma {:induction false} NothingNew(s: JsString, secret: JsString, other: JsString)
    requires secret != [] && other != [] && BracketFree(other) && !Occurs(other, WORD) && !Occurs(other, s)
    ensures !Occurs(other, ReplaceAll(s, secret))
    decreases |s|
  {
    if StartsWith(s, secret) {
      if Occurs(other, s[|secret|..]) { OccursInTail(other, s, |secret|); }
      NothingNew(s[|secret|..], secret, other);
      OccursBehind(other, ReplaceAll(s[|secret|..], secret));
    } else if s != [] {
      OccursSplit(other, s);
      NothingNew(s[1..], secret, other);
      var r := ReplaceAll(s, secret);
      assert r[1..] == ReplaceAll(s[1..], secret);
      OccursSplit(other, r);
      if StartsWith(r, other) { FrontKept(s, secret, other); }
    }
  }

  /** A bracket-free secret survives its own pass exactly when it was there and is part of "REDACTED". */
  lemma {:induction false} SurvivesExactlyWhen(s: JsString, secret: JsString)
    requires secret != [] && BracketFree(secret)
    ensures Occurs(secret, ReplaceAll(s, secret)) <==> Occurs(secret, s) && Occurs(secret, WORD)
    decreases |s|
  {
    if StartsWith(s, secret) {
      assert s[0..] == s;
      assert OccursAt(secret, s, 0);
      SurvivesExactlyWhen(s[|secret|..], secret);
      OccursBehind(secret, ReplaceAll(s[|secret|..], secret));
    } else if s != [] {
      OccursSplit(secret, s);
      SurvivesExactlyWhen(s[1..], secret);
      var r := ReplaceAll(s, secret);
      assert r[1..] == ReplaceAll(s[1..], secret);
      OccursSplit(secret, r);
      if StartsWith(r, secret) { FrontKept(s, secret, secret); }
    }
  }

  // ---- Any secret at all ----------------------------------------------------------------------

  /**
   * The last part of the secret, from `n` on, starts the replacement or is started by it, and a string
   * that reads the first `n` units and then the secret has no earlier match that would take them away.
   */
  predicate RunsInto(secret: JsString, n: nat) {
    && n < |secret| && (StartsWith(REPLACEMENT, secret[n..]) || StartsWith(secret[n..], REPLACEMENT))
    && forall j :: 0 <= j < n ==> !OccursAt(secret, secret[..n] + secret, j)
  }

  /** The first `n` units of the secret end the replacement. */
  predicate RunsOutOf(secret: JsString, n: nat) {
    0 < n < |secret| && n < |REPLACEMENT| && secret[..n] == REPLACEMENT[|REPLACEMENT| - n..]
  }

  /** What it takes for a secret to occur after its own pass over some string. */
  ghost predicate Survivable(secret: JsString) {
    Occurs(secret, REPLACEMENT) || (exists n :: RunsOutOf(secret, n)) || (exists n :: RunsInto(secret, n))
  }

  lemma {:induction false} ShortKept(s: JsString, secret: JsString)
    requires |s| < |secret|
    ensures ReplaceAll(s, secret) == s
  {
    if s != [] { ShortKept(s[1..], secret); }
  }

  lemma {:induction false} FirstReplaced(secret: JsString, rest: JsString)
    requires secret != []
    ensures ReplaceAll(secret + rest, secret) == REPLACEMENT + ReplaceAll(rest, secret)
  {
    assert (secret + rest)[..|secret|] == secret && (secret + rest)[|secret|..] == rest;
  }

  lemma {:induction false} OneLater(u: CodeUnit, tail: JsString, secret: JsString, j: nat)
    ensures OccursAt(secret, [u] + tail, j + 1) <==> OccursAt(secret, tail, j)
    ensures OccursAt(secret, [u] + tail, 0) <==> StartsWith([u] + tail, secret)
  {
    if j <= |tail| { assert ([u] + tail)[j + 1..] == tail[j..]; }
    assert ([u] + tail)[0..] == [u] + tail;
  }

  /** Up to the first match the string is copied. */
  lemma {:induction false} CopiedUntil(before: JsString, secret: JsString, rest: JsString)
    requires secret != [] && forall j :: 0 <= j < |before| ==> !OccursAt(secret, before + secret + rest, j)
    ensures ReplaceAll(before + secret + rest, secret) == before + REPLACEMENT + ReplaceAll(rest, secret)
  {
    if before == [] {
      assert before + secret + rest == secret + rest;
      FirstReplaced(secret, rest);
    } else {
      var u, others := before[0], before[1..];
      var tail := others + secret + rest;
      assert before == [u] + others;
      Associative([u], others, secret, rest);
      forall j | 0 <= j < |others| ensures !OccursAt(secret, tail, j) {
        assert !OccursAt(secret, [u] + tail, j + 1);
        OneLater(u, tail, secret, j);
      }
      CopiedUntil(others, secret, rest);
      assert !OccursAt(secret, [u] + tail, 0);
      OneLater(u, tail, secret, 0);
      OneCopied(u, tail, secret);
      Associative([u], others, REPLACEMENT, ReplaceAll(rest, secret));
    }
  }

  lemma {:induction false} Associative(a: JsString, b: JsString, c: JsString, d: JsString)
    ensures a + b + c + d == a + (b + c + d)
  {
  }

  /** A match that starts early does not reach what follows the secret. */
  lemma {:induction false} EarlyAlike(secret: JsString, n: nat, rest: JsString, j: nat)
    requires j < n <= |secret|
    ensures OccursAt(secret, secret[..n] + secret + rest, j) <==> OccursAt(secret, secret[..n] + secret, j)
  {
    var s := secret[..n] + secret;
    assert (s + rest)[j..] == s[j..] + rest;
    assert (s[j..] + rest)[..|secret|] == s[j..][..|secret|];
  }

  lemma {:induction false} OccursFirst(secret: JsString, s: JsString)
    requires StartsWith(s, secret)
    ensures Occurs(secret, s)
  {
    assert s[0..] == s;
    assert OccursAt(secret, s, 0);
  }

  /** A string over which the secret survives its own pass. */
  lemma {:induction false} SurvivesSomewhere(secret: JsString) returns (s: JsString)
    requires secret != [] && Survivable(secret)
    ensures Occurs(secret, ReplaceAll(s, secret))
  {
    if Occurs(secret, REPLACEMENT) {
      s := secret;
      FirstReplaced(secret, []);
      assert secret + [] == secret && REPLACEMENT + [] == REPLACEMENT && ReplaceAll([], secret) == [];
    } else if n: nat :| RunsOutOf(secret, n) {
      s := secret + secret[n..];
      RunOut(secret, n);
    } else {
      var n: nat :| RunsInto(secret, n);
      s := RunIn(secret, n);
    }
  }

  lemma {:induction false} RunOut(secret: JsString, n: nat)
    requires RunsOutOf(secret, n)
    ensures Occurs(secret, ReplaceAll(secret + secret[n..], secret))
  {
    FirstReplaced(secret, secret[n..]);
    ShortKept(secret[n..], secret);
    EndsWithin(REPLACEMENT, secret, n);
  }

  lemma {:induction false} EndsWithin(word: JsString, secret: JsString, n: nat)
    requires n <= |word| && n <= |secret| && secret[..n] == word[|word| - n..]
    ensures Occurs(secret, word + secret[n..])
  {
    var r := word + secret[n..];
    assert r[|word| - n..] == word[|word| - n..] + secret[n..] == secret;
    assert OccursAt(secret, r, |word| - n);
  }

  lemma {:induction false} RunIn(secret: JsString, n: nat) returns (s: JsString)
    requires secret != [] && RunsInto(secret, n)
    ensures Occurs(secret, ReplaceAll(s, secret))
  {
    var first, last := secret[..n], secret[n..];
    var rest := if |last| > |REPLACEMENT| then last[|REPLACEMENT|..] else [];
    s := first + secret + rest;
    forall j | 0 <= j < n ensures !OccursAt(secret, s, j) { EarlyAlike(secret, n, rest, j); }
    CopiedUntil(first, secret, rest);
    ShortKept(rest, secret);
    assert secret == first + last;
    Covers(first, last, rest);
  }

  lemma {:induction false} Covers(first: JsString, last: JsString, rest: JsString)
    requires StartsWith(REPLACEMENT, last) || StartsWith(last, REPLACEMENT)
    requires rest == if |last| > |REPLACEMENT| then last[|REPLACEMENT|..] else []
    ensures Occurs(first + last, first + REPLACEMENT + rest)
  {
    var behind := REPLACEMENT + rest;
    if |last| > |REPLACEMENT| {
      assert last[..|REPLACEMENT|] == REPLACEMENT && behind == last;
    } else {
      assert behind == REPLACEMENT && StartsWith(behind, last);
    }
    Starts(first, last, behind);
    assert first + REPLACEMENT + rest == first + behind;
    OccursFirst(first + last, first + behind);
  }

  lemma {:induction false} Starts(first: JsString, last: JsString, behind: JsString)
    requires StartsWith(behind, last)
    ensures StartsWith(first + behind, first + last)
  {
    assert (first + behind)[..|first| + |last|] == first + behind[..|last|];
  }

  /** The first match in a string, if there is one. */
  lemma {:induction false} FirstMatch(s: JsString, secret: JsString) returns (found: bool, m: nat)
    requires secret != []
    ensures m <= |s| && forall j :: 0 <= j < m ==> !OccursAt(secret, s, j)
    ensures if found then StartsWith(s[m..], secret) else !Occurs(secret, s)
  {
    if s == [] {
      found, m := false, 0;
    } else if StartsWith(s, secret) {
      found, m := true, 0;
      assert s[0..] == s;
    } else {
      var u, tail := s[0], s[1..];
      assert s == [u] + tail;
      found, m := FirstMatch(tail, secret);
      forall j | 0 <= j < m + 1 ensures !OccursAt(secret, s, j) {
        OneLater(u, tail, secret, if j > 0 then j - 1 else 0);
      }
      assert tail[m..] == s[m + 1..];
      OccursSplit(secret, s);
      m := m + 1;
    }
  }

  /** What the pass makes of a string with a match. */
  lemma {:induction false} MatchReplaced(s: JsString, secret: JsString, m: nat)
    requires secret != [] && m <= |s| && StartsWith(s[m..], secret)
    requires forall j :: 0 <= j < m ==> !OccursAt(secret, s, j)
    ensures ReplaceAll(s, secret) == s[..m] + REPLACEMENT + ReplaceAll(s[m + |secret|..], secret)
  {
    var before, rest := s[..m], s[m + |secret|..];
    assert s[m..] == secret + rest by { assert s[m..][|secret|..] == rest; }
    assert s == before + secret + rest;
    CopiedUntil(before, secret, rest);
  }

  /** A place in three strings one after the other is in the second or third, past the first. */
  lemma {:induction false} PastFirst(secret: JsString, a: JsString, b: JsString, c: JsString, i: nat)
    requires OccursAt(secret, a + b + c, i) && |a| <= i
    ensures i < |a| + |b| ==> StartsWith((b + c)[i - |a|..], secret)
    ensures |a| + |b| <= i ==> OccursAt(secret, c, i - |a| - |b|)
  {
    assert a + b + c == a + (b + c);
    assert (a + (b + c))[i..] == (b + c)[i - |a|..];
    if |a| + |b| <= i { assert (b + c)[i - |a|..] == c[i - |a| - |b|..]; }
  }

  /** Wherever the secret is found after its pass, it is survivable. */
  lemma {:induction false} SurvivorIsSurvivable(s: JsString, secret: JsString, i: nat)
    requires secret != [] && OccursAt(secret, ReplaceAll(s, secret), i)
    ensures Survivable(secret)
    decreases |s|
  {
    var found, m := FirstMatch(s, secret);
    if !found {
      OtherKept(s, secret);
    } else {
      MatchReplaced(s, secret, m);
      var after := s[m + |secret|..];
      var rest := ReplaceAll(after, secret);
      if i < m {
        BeforeReplacement(s, secret, m, rest, i);
      } else {
        PastFirst(secret, s[..m], REPLACEMENT, rest, i);
        if i < m + |REPLACEMENT| { InReplacement(secret, rest, i - m); }
        else { SurvivorIsSurvivable(after, secret, i - m - |REPLACEMENT|); }
      }
    }
  }

  lemma {:induction false} InReplacement(secret: JsString, rest: JsString, i: nat)
    requires secret != [] && i < |REPLACEMENT| && StartsWith((REPLACEMENT + rest)[i..], secret)
    ensures Survivable(secret)
  {
    var left := REPLACEMENT[i..];
    assert (REPLACEMENT + rest)[i..] == left + rest;
    if |secret| <= |left| {
      assert (left + rest)[..|secret|] == left[..|secret|];
      assert OccursAt(secret, REPLACEMENT, i);
    } else {
      assert secret[..|left|] == (left + rest)[..|secret|][..|left|] == left;
      if i > 0 {
        assert RunsOutOf(secret, |left|);
      } else {
        assert secret[0..] == secret && left == REPLACEMENT;
        assert RunsInto(secret, 0);
      }
    }
  }

  lemma {:induction false} BeforeReplacement(s: JsString, secret: JsString, m: nat, rest: JsString, i: nat)
    requires secret != [] && i < m <= |s| && StartsWith(s[m..], secret)
    requires forall j :: 0 <= j < m ==> !OccursAt(secret, s, j)
    requires OccursAt(secret, s[..m] + REPLACEMENT + rest, i)
    ensures Survivable(secret)
  {
    var first, behind := s[i..m], REPLACEMENT + rest;
    assert (s[..m] + REPLACEMENT + rest)[i..] == first + behind;
    assert s[..m] + REPLACEMENT + rest == s[..m] + behind;
    if |secret| <= m - i { InCopy(s, secret, m, behind, i); }
    var n := |first|;
    PartsOf(secret, first, behind);
    StartsAlike(secret[n..], rest);
    forall j | 0 <= j < n ensures !OccursAt(secret, first + secret, j) { EarlyInString(s, secret, i, m, j); }
    assert RunsInto(secret, n);
  }

  /** What occurs within a copied part occurs in the string. */
  lemma {:induction false} InCopy(s: JsString, secret: JsString, m: nat, behind: JsString, i: nat)
    requires i < m <= |s| && |secret| <= m - i && OccursAt(secret, s[..m] + behind, i)
    ensures OccursAt(secret, s, i)
  {
    var r := s[..m] + behind;
    assert forall k :: i <= k < m ==> r[k] == s[k];
    assert s[i..][..|secret|] == r[i..][..|secret|];
  }

  lemma {:induction false} PartsOf(secret: JsString, first: JsString, behind: JsString)
    requires StartsWith(first + behind, secret) && |first| < |secret|
    ensures secret[..|first|] == first && StartsWith(behind, secret[|first|..])
  {
    var n := |first|;
    assert secret[..n] == (first + behind)[..|secret|][..n] == first;
    assert secret[n..] == (first + behind)[..|secret|][n..] == behind[..|secret| - n];
  }

  lemma {:induction false} StartsAlike(part: JsString, rest: JsString)
    requires StartsWith(REPLACEMENT + rest, part)
    ensures StartsWith(REPLACEMENT, part) || StartsWith(part, REPLACEMENT)
  {
    if |part| <= |REPLACEMENT| {
      assert (REPLACEMENT + rest)[..|part|] == REPLACEMENT[..|part|];
    } else {
      assert part[..|REPLACEMENT|] == (REPLACEMENT + rest)[..|part|][..|REPLACEMENT|] == REPLACEMENT;
    }
  }

  lemma {:induction false} EarlyInString(s: JsString, secret: JsString, i: nat, m: nat, j: nat)
    requires i < m <= |s| && StartsWith(s[m..], secret) && j < m - i
    requires !OccursAt(secret, s, i + j)
    ensures !OccursAt(secret, s[i..m] + secret, j)
  {
    var t := s[i..m] + secret;
    assert s[i..m + |secret|] == t by { assert s[m..m + |secret|] == secret; }
    assert t[j..] == s[i + j..m + |secret|];
    assert |t[j..]| >= |secret| && s[i + j..][..|secret|] == t[j..][..|secret|];
  }

  ghost predicate SurvivesOver(s: JsString, secret: JsString) { Occurs(secret, ReplaceAll(s, secret)) }

  /** A secret can occur after its own pass over some string exactly if it is survivable. */
  lemma {:induction false} SurvivableExactly(secret: JsString)
    requires secret != []
    ensures (exists s :: SurvivesOver(s, secret)) <==> Survivable(secret)
  {
    if Survivable(secret) {
      var s := SurvivesSomewhere(secret);
      assert SurvivesOver(s, secret);
    }
    forall s | SurvivesOver(s, secret) ensures Survivable(secret) {
      var i :| 0 <= i <= |ReplaceAll(s, secret)| && OccursAt(secret, ReplaceAll(s, secret), i);
      SurvivorIsSurvivable(s, secret, i);
    }
  }

  /** A bracket may let a secret survive, as in "]x", or not, as in "a]b". */
  lemma {:induction false} BracketsMatter()
    ensures Survivable([CLOSE, 120]) && !Survivable([97, CLOSE, 98])
  {
    var out: JsString := [CLOSE, 120];
    assert REPLACEMENT[9..] == [CLOSE] && out[..1] == [CLOSE];
    assert RunsOutOf(out, 1);
    var safe: JsString := [97, CLOSE, 98];
    assert forall i :: 0 <= i < 10 ==> REPLACEMENT[i] != 97;
    assert forall i :: 0 <= i <= 10 && OccursAt(safe, REPLACEMENT, i) ==> REPLACEMENT[i..][0] == 97;
    assert forall i :: 0 <= i < 10 ==> REPLACEMENT[i..][0] == REPLACEMENT[i];
    forall n | 0 <= n < 3 ensures !RunsInto(safe, n) && !RunsOutOf(safe, n) {
      assert safe[n..][0] == safe[n] != OPEN && REPLACEMENT[0] == OPEN;
      assert n > 0 ==> safe[..n][0] == 97 && REPLACEMENT[10 - n..][0] == REPLACEMENT[10 - n];
    }
  }

  // ---- Any list of secrets, any value ---------------------------------------------------------

  predicate Redactable(secret: JsString) {
    secret != [] && BracketFree(secret) && !Occurs(secret, WORD)
  }

  lemma {:induction false} NoSecretInText(s: JsString, secrets: seq<JsString>)
    requires forall k :: 0 <= k < |secrets| ==> Redactable(secrets[k])
    ensures forall k :: 0 <= k < |secrets| ==> !Occurs(secrets[k], RedactText(s, secrets))
  {
    if secrets != [] {
      var n := |secrets| - 1;
      var before := RedactText(s, secrets[..n]);
      NoSecretInText(s, secrets[..n]);
      SurvivesExactlyWhen(before, secrets[n]);
      forall k | 0 <= k < n ensures !Occurs(secrets[k], RedactText(s, secrets)) {
        assert secrets[..n][k] == secrets[k];
        NothingNew(before, secrets[n], secrets[k]);
      }
    }
  }

  /** No string of the value has any of the secrets in it. */
  predicate Clean(v: Value, secrets: seq<JsString>) {
    match v
    case Text(chars) => forall k :: 0 <= k < |secrets| ==> !Occurs(secrets[k], chars)
    case Array(items) => CleanItems(items, secrets)
    case Object(fields) => CleanFields(fields, secrets)
    case _ => true
  }

  predicate CleanItems(items: Items, secrets: seq<JsString>) {
    items.Item? ==> Clean(items.head, secrets) && CleanItems(items.tail, secrets)
  }

  predicate CleanFields(fields: Fields, secrets: seq<JsString>) {
    fields.Field? ==> Clean(fields.value, secrets) && CleanFields(fields.rest, secrets)
  }

  /** The values differ in their strings alone: same arrays, same objects, same keys in the same order. */
  predicate SameShape(v: Value, w: Value) {
    match v
    case Text(_) => w.Text?
    case Array(items) => w.Array? && SameItems(items, w.items)
    case Object(fields) => w.Object? && SameFields(fields, w.fields)
    case _ => v == w
  }

  predicate SameItems(a: Items, b: Items) {
    if a.NoItems? then b.NoItems? else b.Item? && SameShape(a.head, b.head) && SameItems(a.tail, b.tail)
  }

  predicate SameFields(a: Fields, b: Fields) {
    if a.NoFields? then b.NoFields?
    else b.Field? && a.name == b.name && SameShape(a.value, b.value) && SameFields(a.rest, b.rest)
  }

  /** No secret is left in any string of the result, and nothing but strings has changed. */
  lemma {:induction false} Redacts(v: Value, secrets: seq<JsString>)
    requires forall k :: 0 <= k < |secrets| ==> Redactable(secrets[k])
    ensures Clean(Redact(v, secrets), secrets) && SameShape(v, Redact(v, secrets))
  {
    match v
    case Text(chars) => NoSecretInText(chars, secrets);
    case Array(items) => RedactsItems(items, secrets);
    case Object(fields) => RedactsFields(fields, secrets);
    case _ =>
  }

  lemma {:induction false} RedactsItems(items: Items, secrets: seq<JsString>)
    requires forall k :: 0 <= k < |secrets| ==> Redactable(secrets[k])
    ensures CleanItems(RedactItems(items, secrets), secrets) && SameItems(items, RedactItems(items, secrets))
  {
    if items.Item? {
      Redacts(items.head, secrets);
      RedactsItems(items.tail, secrets);
    }
  }

  lemma {:induction false} RedactsFields(fields: Fields, secrets: seq<JsString>)
    requires forall k :: 0 <= k < |secrets| ==> Redactable(secrets[k])
    ensures CleanFields(RedactFields(fields, secrets), secrets) && SameFields(fields, RedactFields(fields, secrets))
  {
    if fields.Field? {
      Redacts(fields.value, secrets);
      RedactsFields(fields.rest, secrets);
    }
  }

  lemma {:induction false} OtherKept(s: JsString, secret: JsString)
    requires secret != [] && !Occurs(secret, s)
    ensures ReplaceAll(s, secret) == s
    decreases |s|
  {
    assert s[0..] == s && OccursAt(secret, s, 0) == StartsWith(s, secret);
    if s != [] {
      OccursSplit(secret, s);
      OtherKept(s[1..], secret);
    }
  }

  /** A string in which none of the secrets occurs is left as it is. */
  lemma {:induction false} OthersKept(s: JsString, secrets: seq<JsString>)
    requires forall k :: 0 <= k < |secrets| ==> secrets[k] != [] && !Occurs(secrets[k], s)
    ensures RedactText(s, secrets) == s
  {
    if secrets != [] {
      OthersKept(s, secrets[..|secrets| - 1]);
      OtherKept(s, secrets[|secrets| - 1]);
    }
  }
}
