/**
 * What a redaction makes of a text, said of the parts between the occurrences of a secret alone, and of
 * a JSON value, text by text.
 */
module RedactionParts {
  import opened Json
  import opened Redaction

  /** The parts, with `between` between them. */
  function Joined(parts: seq<JsString>, between: JsString): JsString
    requires parts != []
  {
    if |parts| == 1 then parts[0] else parts[0] + between + Joined(parts[1..], between)
  }

  /** The first occurrence of the secret in `part + secret + rest` is the one behind `part`. */
  ghost predicate FirstBehind(part: JsString, secret: JsString, rest: JsString) {
    forall j :: 0 <= j < |part| ==> !OccursAt(secret, part + secret + rest, j)
  }

  /** From left to right, each part ends at the first occurrence of the secret behind the part before. */
  ghost predicate Leftmost(parts: seq<JsString>, secret: JsString)
    requires parts != []
    decreases |parts|
  {
    if |parts| == 1 then !Occurs(secret, parts[0])
    else FirstBehind(parts[0], secret, Joined(parts[1..], secret)) && Leftmost(parts[1..], secret)
  }

  /** `s` is cut at the occurrences of the secret, from left to right, and `t` has "[REDACTED]" at each of them. */
  ghost predicate CutAt(s: JsString, t: JsString, secret: JsString, parts: seq<JsString>) {
    && parts != [] && Leftmost(parts, secret)
    && s == Joined(parts, secret) && t == Joined(parts, Ascii("[REDACTED]"))
  }

  /** The empty secret occurs before every unit and at the end. */
  function Spaced(s: JsString): JsString {
    Ascii("[REDACTED]") + if s == [] then [] else [s[0]] + Spaced(s[1..])
  }

  ghost predicate Replaced(s: JsString, t: JsString, secret: JsString) {
    if secret == [] then t == Spaced(s) else exists parts :: CutAt(s, t, secret, parts)
  }

  lemma {:induction false} ReplacementText()
    ensures REPLACEMENT == Ascii("[REDACTED]")
  {
  }

  lemma {:induction false} JoinedLeads(parts: seq<JsString>, secret: JsString)
    requires parts != [] && secret != [] && Leftmost(parts, secret)
    ensures ReplaceAll(Joined(parts, secret), secret) == Joined(parts, Ascii("[REDACTED]"))
    decreases |parts|
  {
    ReplacementText();
    if |parts| == 1 {
      OtherKept(parts[0], secret);
    } else {
      var rest := Joined(parts[1..], secret);
      CopiedUntil(parts[0], secret, rest);
      JoinedLeads(parts[1..], secret);
    }
  }

  /** Where a secret occurs, it occurs first somewhere. */
  lemma {:induction false} FirstOccurrence(s: JsString, secret: JsString) returns (i: nat)
    requires Occurs(secret, s)
    ensures i <= |s| && OccursAt(secret, s, i) && forall j :: 0 <= j < i ==> !OccursAt(secret, s, j)
    decreases |s|
  {
    if OccursAt(secret, s, 0) {
      i := 0;
    } else {
      assert s[0..] == s;
      assert s != [];
      OccursSplit(secret, s);
      var k := FirstOccurrence(s[1..], secret);
      i := k + 1;
      assert s[1..][k..] == s[i..];
      forall j | 1 <= j < i ensures !OccursAt(secret, s, j) {
        assert s[1..][j - 1..] == s[j..];
        assert !OccursAt(secret, s[1..], j - 1);
      }
    }
  }

  lemma {:induction false} Cuts(s: JsString, secret: JsString) returns (parts: seq<JsString>)
    requires secret != []
    ensures parts != [] && Leftmost(parts, secret) && s == Joined(parts, secret)
    decreases |s|
  {
    if Occurs(secret, s) {
      var i := FirstOccurrence(s, secret);
      var rest := s[i + |secret|..];
      var others := Cuts(rest, secret);
      parts := [s[..i]] + others;
      assert parts[1..] == others;
      assert s[i..][..|secret|] == secret;
      assert s == s[..i] + secret + rest;
    } else {
      parts := [s];
    }
  }

  lemma {:induction false} EmptySpaced(s: JsString)
    ensures ReplaceAll(s, []) == Spaced(s)
  {
    ReplacementText();
    if s != [] { EmptySpaced(s[1..]); }
  }

  /** One pass replaces exactly the leftmost occurrences, and keeps what is between them. */
  lemma {:induction false} ReplacesExactly(s: JsString, t: JsString, secret: JsString)
    ensures ReplaceAll(s, secret) == t <==> Replaced(s, t, secret)
  {
    if secret == [] {
      EmptySpaced(s);
    } else {
      var parts := Cuts(s, secret);
      JoinedLeads(parts, secret);
      if ReplaceAll(s, secret) == t { assert CutAt(s, t, secret, parts); }
      if other :| CutAt(s, t, secret, other) { JoinedLeads(other, secret); }
    }
  }

  // ---- All secrets, and values ----------------------------------------------------------------

  /** The texts between the passes. */
  ghost predicate InTurn(texts: seq<JsString>, secrets: seq<JsString>) {
    |texts| == |secrets| + 1 && forall i :: 0 <= i < |secrets| ==> Replaced(texts[i], texts[i + 1], secrets[i])
  }

  ghost predicate ReplacedInTurn(s: JsString, t: JsString, secrets: seq<JsString>) {
    exists texts :: InTurn(texts, secrets) && texts[0] == s && texts[|secrets|] == t
  }

  lemma {:induction false} Passes(s: JsString, secrets: seq<JsString>) returns (texts: seq<JsString>)
    ensures InTurn(texts, secrets) && texts[0] == s && texts[|secrets|] == RedactText(s, secrets)
  {
    if secrets == [] {
      texts := [s];
    } else {
      var n := |secrets| - 1;
      var before := Passes(s, secrets[..n]);
      texts := before + [RedactText(s, secrets)];
      ReplacesExactly(before[n], RedactText(s, secrets), secrets[n]);
      forall i | 0 <= i < n ensures Replaced(texts[i], texts[i + 1], secrets[i]) {
        assert Replaced(before[i], before[i + 1], secrets[..n][i]);
      }
    }
  }

  /** Every text of the value is replaced, secret by secret, and everything else is as it was. */
  ghost predicate Redacted(v: Value, w: Value, secrets: seq<JsString>) {
    match v
    case Text(chars) => w.Text? && ReplacedInTurn(chars, w.chars, secrets)
    case Array(items) => w.Array? && RedactedItems(items, w.items, secrets)
    case Object(fields) => w.Object? && RedactedFields(fields, w.fields, secrets)
    case _ => v == w
  }

  ghost predicate RedactedItems(a: Items, b: Items, secrets: seq<JsString>) {
    if a.NoItems? then b.NoItems?
    else b.Item? && Redacted(a.head, b.head, secrets) && RedactedItems(a.tail, b.tail, secrets)
  }

  ghost predicate RedactedFields(a: Fields, b: Fields, secrets: seq<JsString>) {
    if a.NoFields? then b.NoFields?
    else
      b.Field? && a.name == b.name && Redacted(a.value, b.value, secrets) && RedactedFields(a.rest, b.rest, secrets)
  }

  lemma {:induction false} ValueRedacted(v: Value, secrets: seq<JsString>)
    ensures Redacted(v, Redact(v, secrets), secrets)
  {
    match v
    case Text(chars) => var texts := Passes(chars, secrets);
    case Array(items) => ItemsRedacted(items, secrets);
    case Object(fields) => FieldsRedacted(fields, secrets);
    case _ =>
  }

  lemma {:induction false} ItemsRedacted(items: Items, secrets: seq<JsString>)
    ensures RedactedItems(items, RedactItems(items, secrets), secrets)
  {
    if items.Item? {
      ValueRedacted(items.head, secrets);
      ItemsRedacted(items.tail, secrets);
    }
  }

  lemma {:induction false} FieldsRedacted(fields: Fields, secrets: seq<JsString>)
    ensures RedactedFields(fields, RedactFields(fields, secrets), secrets)
  {
    if fields.Field? {
      ValueRedacted(fields.value, secrets);
      FieldsRedacted(fields.rest, secrets);
    }
  }
}
