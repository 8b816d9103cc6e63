/**
 * The deduplication key of a `wizard.next` request (src/openclaw-shared-worker.ts, wizardNextKey):
 * `JSON.stringify([sessionId, stepId, text])`, where `text` is itself a serialised JSON value or
 * one of two marks.  The key is a nested quotation, so that its injectivity is the injectivity of
 * JSON string quoting (section 7 of RFC 8259) with the escapes JSON.stringify chooses.
 */
module WizardKey {
  import opened Json
  import opened JsonText

  /**
   * What `answer.value` may be: not present, present but without a JSON text (`undefined`), one
   * that JSON.stringify throws on (a BigInt), or a JSON value.
   */
  datatype Answer = Absent | Unprintable | Throwing | Printable(value: Value)

  /** Request parameters: of the shape wizardNextKey looks for, or of any other shape. */
  datatype Params =
    | Answering(sessionId: JsString, stepId: JsString, answer: Answer)
    | OtherParams

  predicate Keyed(p: Params) {
    p.Answering? && !p.answer.Throwing?
  }

  function AnswerText(a: Answer): JsString
    requires !a.Throwing?
  {
    match a
    case Absent => Ascii("<no-value>")
    case Unprintable => Ascii("undefined")
    case Printable(v) => Stringify(v)
  }

  /** A serialised array of strings, from its second character on. */
  function Elements(texts: seq<JsString>): JsString {
    if texts == [] then Ascii("]")
    else if |texts| == 1 then Quote(texts[0]) + Ascii("]")
    else Quote(texts[0]) + ([COMMA] + Elements(texts[1..]))
  }

  function Key(p: Params): JsString
    requires Keyed(p)
  {
    Ascii("[") + Elements([p.sessionId, p.stepId, AnswerText(p.answer)])
  }

  lemma {:induction false} ElementsInjective(a: seq<JsString>, b: seq<JsString>)
    requires |a| == |b| && Elements(a) == Elements(b)
    ensures a == b
  {
    if |a| == 1 {
      QuoteInjective(a[0], b[0], Ascii("]"), Ascii("]"));
    } else if |a| > 1 {
      var restA, restB := [COMMA] + Elements(a[1..]), [COMMA] + Elements(b[1..]);
      QuoteInjective(a[0], b[0], restA, restB);
      assert restA[1..] == Elements(a[1..]) && restB[1..] == Elements(b[1..]);
      ElementsInjective(a[1..], b[1..]);
      assert a == [a[0]] + a[1..] && b == [b[0]] + b[1..];
    }
  }

  /** The marks of a missing and of an unprintable answer start as no JSON text does. */
  lemma {:induction false} AnswerStart(a: Answer)
    requires !a.Throwing?
    ensures AnswerText(a) != [] && (AnswerText(a)[0] == 60 <==> a.Absent?)
            && (AnswerText(a)[0] == 117 <==> a.Unprintable?)
  {
    if a.Printable? { StringifyStart(a.value); }
  }

  /** A missing answer, an unprintable one and every JSON value read differently. */
  lemma {:induction false} AnswerTextInjective(a: Answer, b: Answer)
    requires !a.Throwing? && !b.Throwing?
    ensures AnswerText(a) == AnswerText(b) <==> a == b
  {
    AnswerStart(a);
    AnswerStart(b);
    if a.Printable? && b.Printable? { TextsInjective(a.value, b.value); }
  }

  /** Two requests share a key exactly when they are the same: session, step and answer. */
  lemma {:induction false} KeyInjective(p: Params, q: Params)
    requires Keyed(p) && Keyed(q)
    ensures Key(p) == Key(q) <==> p == q
  {
    var texts, texts' := [p.sessionId, p.stepId, AnswerText(p.answer)], [q.sessionId, q.stepId, AnswerText(q.answer)];
    AnswerTextInjective(p.answer, q.answer);
    if Key(p) == Key(q) {
      assert Key(p)[1..] == Elements(texts) && Key(q)[1..] == Elements(texts');
      ElementsInjective(texts, texts');
      assert texts[0] == texts'[0] && texts[1] == texts'[1] && texts[2] == texts'[2];
    }
  }
}
