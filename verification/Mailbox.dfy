/**
 * The HTTP mailbox between the guest (src/byok-loopback-broker.ts) and the host
 * (src/byok-http-bridge.ts): two processes over a shared directory, each moving one step at a time.
 */
module Mailbox {
  import opened Options
  import opened Json
  import opened ByteStrings
  import opened Base64

  const MAX_BODY_BYTES := 2 * 1024 * 1024
  const CHAT: JsString := Ascii("/v1/chat/completions")
  const RESPONSES: JsString := Ascii("/v1/responses")
  const BEARER: JsString := Ascii("Bearer ")
  const JSON: JsString := Ascii(".json")
  const TEMPORARY: JsString := Ascii(".tmp_")
  const UNDERSCORE: CodeUnit := 95

  datatype Capability = Capability(apiPath: JsString, model: JsString, apiKey: JsString)

  datatype BridgeRequest = BridgeRequest(id: JsString, path: JsString, authorization: JsString, body: JsString)

  datatype BridgeResponse = BridgeResponse(status: nat, contentType: Option<JsString>, bodyBase64: JsString)

  datatype Refusal = Unparsable | NullValue | InvalidRequest | OutsideCapability | IdMismatch | Unauthorized
                   | Unreadable

  /** What fetch gives: a reply, or an error. */
  datatype Upstream = Reached(status: nat, contentType: Option<JsString>, body: Bytes) | Unreachable

  /** JSON texts of records and responses, error bodies, and the length of a string in UTF-8. */
  datatype Platform = Platform(
    parse: JsString -> Option<Value>,
    printRequest: BridgeRequest -> JsString,
    parseResponse: JsString -> Option<BridgeResponse>,
    printResponse: BridgeResponse -> JsString,
    refusalBody: Refusal -> Bytes,
    failureBody: Upstream -> Bytes,
    utf8Length: JsString -> nat)

  function RecordEntries(r: BridgeRequest): seq<Entry> {
    [Entry(Ascii("schemaVersion"), Number(WholeNumber("1"))), Entry(Ascii("id"), Text(r.id)),
     Entry(Ascii("method"), Text(Ascii("POST"))), Entry(Ascii("path"), Text(r.path)),
     Entry(Ascii("authorization"), Text(r.authorization)), Entry(Ascii("body"), Text(r.body))]
  }

  /** The value that the guest prints. */
  function RecordValue(r: BridgeRequest): Value { Object(Literal(RecordEntries(r))) }

  /** Parsing inverts printing, and no proper prefix of a printed response is JSON. */
  ghost predicate Lawful(p: Platform) {
    && (forall r :: p.parse(p.printRequest(r)) == Some(RecordValue(r)))
    && (forall r :: p.parseResponse(p.printResponse(r)) == Some(r))
    && (forall r, n: nat :: n < |p.printResponse(r)| ==> p.parseResponse(p.printResponse(r)[..n]) == None)
  }

  // ---- Requests -------------------------------------------------------------------------------

  predicate IsIdUnit(u: CodeUnit) {
    65 <= u < 91 || 97 <= u < 123 || 48 <= u < 58 || u == UNDERSCORE || u == 45
  }

  predicate IsId(s: JsString) {
    1 <= |s| <= 128 && forall i :: 0 <= i < |s| ==> IsIdUnit(s[i])
  }

  /** A property of a value that is not null. */
  function Property(v: Value, name: JsString): Option<Value> {
    if v.Object? then Get(v.fields, name) else None
  }

  predicate IsText(v: Option<Value>) { v.Some? && v.value.Text? }

  /** The payload is an array of the kind the path asks for, and names the model. */
  predicate BodyGranted(c: Capability, body: Value) {
    var payload := Property(body, if c.apiPath == RESPONSES then Ascii("input") else Ascii("messages"));
    payload.Some? && payload.value.Array? && Property(body, Ascii("model")) == Some(Text(c.model))
  }

  datatype Checked = Fine(request: BridgeRequest) | Refused(refusal: Refusal)

  function CheckBody(p: Platform, c: Capability, r: BridgeRequest): Checked {
    match p.parse(r.body)
    case None => Refused(Unparsable)
    case Some(body) =>
      if body.Null? then Refused(NullValue) else if !BodyGranted(c, body) then Refused(OutsideCapability) else Fine(r)
  }

  function ParseRequest(p: Platform, c: Capability, text: JsString): Checked {
    match p.parse(text)
    case None => Refused(Unparsable)
    case Some(v) =>
      if v.Null? then Refused(NullValue)
      else
        var id, auth, body := Property(v, Ascii("id")), Property(v, Ascii("authorization")), Property(v, Ascii("body"));
        if Property(v, Ascii("schemaVersion")) != Some(Number(WholeNumber("1")))
          || Property(v, Ascii("method")) != Some(Text(Ascii("POST")))
          || Property(v, Ascii("path")) != Some(Text(c.apiPath))
          || !IsText(id) || !IsId(id.value.chars) || !IsText(auth) || !IsText(body)
          || p.utf8Length(body.value.chars) > MAX_BODY_BYTES
        then Refused(InvalidRequest)
        else CheckBody(p, c, BridgeRequest(id.value.chars, c.apiPath, auth.value.chars, body.value.chars))
  }

  /** Everything the host checks before it forwards the request in the file of `id`. */
  function Examine(p: Platform, c: Capability, text: JsString, id: JsString): Checked {
    match ParseRequest(p, c, text)
    case Refused(refusal) => Refused(refusal)
    case Fine(r) =>
      if r.id != id then Refused(IdMismatch)
      else if r.authorization != BEARER + c.apiKey then Refused(Unauthorized)
      else Fine(r)
  }

  predicate Granted(p: Platform, c: Capability, r: BridgeRequest) {
    && r.path == c.apiPath && IsId(r.id) && r.authorization == BEARER + c.apiKey
    && p.utf8Length(r.body) <= MAX_BODY_BYTES
    && p.parse(r.body).Some? && !p.parse(r.body).value.Null? && BodyGranted(c, p.parse(r.body).value)
  }

  /** On any file at all, the host forwards only what the capability grants, under the file's own id. */
  lemma {:induction false} FineIsGranted(p: Platform, c: Capability, text: JsString, id: JsString)
    ensures Examine(p, c, text, id).Fine? ==>
      Granted(p, c, Examine(p, c, text, id).request) && Examine(p, c, text, id).request.id == id
  {
  }

  lemma {:induction false} RecordNamesDiffer(r: BridgeRequest)
    ensures forall i, j :: 0 <= i < j < 6 ==> RecordEntries(r)[i].name != RecordEntries(r)[j].name
  {
    var entries := RecordEntries(r);
    var lengths := [13, 2, 6, 4, 13, 4];
    assert forall i :: 0 <= i < 6 ==> |entries[i].name| == lengths[i];
    assert entries[0].name[0] == 115 && entries[3].name[0] == 112 && entries[4].name[0] == 97
      && entries[5].name[0] == 98;
  }

  lemma {:induction false} RecordHas(r: BridgeRequest)
    ensures var v := RecordValue(r);
      && Property(v, Ascii("schemaVersion")) == Some(Number(WholeNumber("1")))
      && Property(v, Ascii("method")) == Some(Text(Ascii("POST")))
      && Property(v, Ascii("path")) == Some(Text(r.path)) && Property(v, Ascii("id")) == Some(Text(r.id))
      && Property(v, Ascii("authorization")) == Some(Text(r.authorization))
      && Property(v, Ascii("body")) == Some(Text(r.body))
  {
    var entries := RecordEntries(r);
    RecordNamesDiffer(r);
    forall i | 0 <= i < 6 ensures Property(RecordValue(r), entries[i].name) == Some(entries[i].value) {
      GetLiteral(entries, i);
    }
    assert entries[0].name == Ascii("schemaVersion") && entries[1].name == Ascii("id")
      && entries[2].name == Ascii("method");
    assert entries[3].name == Ascii("path") && entries[4].name == Ascii("authorization")
      && entries[5].name == Ascii("body");
  }

  /** A record written by the guest is forwarded, as it is, exactly when the capability grants it. */
  lemma {:induction false} FineExactly(p: Platform, c: Capability, r: BridgeRequest)
    requires Lawful(p)
    ensures Examine(p, c, p.printRequest(r), r.id) == Fine(r) <==> Granted(p, c, r)
    ensures Examine(p, c, p.printRequest(r), r.id).Fine? <==> Granted(p, c, r)
  {
    RecordHas(r);
  }

  /** `^` and `|` on non-negative numbers, bit by bit. */
  function Xor(a: nat, b: nat): nat {
    if a == 0 && b == 0 then 0 else Xor(a / 2, b / 2) * 2 + (a % 2 + b % 2) % 2
  }

  function Or(a: nat, b: nat): nat {
    if a == 0 && b == 0 then 0 else Or(a / 2, b / 2) * 2 + (if a % 2 + b % 2 == 0 then 0 else 1)
  }

  lemma {:induction false} XorZero(a: nat, b: nat)
    ensures Xor(a, b) == 0 <==> a == b
  {
    if a != 0 || b != 0 { XorZero(a / 2, b / 2); }
  }

  lemma {:induction false} OrZero(a: nat, b: nat)
    ensures Or(a, b) == 0 <==> a == 0 && b == 0
  {
    if a != 0 || b != 0 { OrZero(a / 2, b / 2); }
  }

  /** `fixedLengthEqual` decides string equality. */
  method FixedLengthEqual(left: JsString, right: JsString) returns (equal: bool)
    ensures equal <==> left == right
  {
    if |left| != |right| { return false; }
    var difference: nat := 0;
    for i := 0 to |left|
      invariant difference == 0 <==> left[..i] == right[..i]
    {
      XorZero(left[i] as nat, right[i] as nat);
      OrZero(difference, Xor(left[i] as nat, right[i] as nat));
      assert left[..i + 1] == left[..i] + [left[i]] && right[..i + 1] == right[..i] + [right[i]];
      difference := Or(difference, Xor(left[i] as nat, right[i] as nat));
    }
    assert left[..|left|] == left && right[..|right|] == right;
    equal := difference == 0;
  }

  // ---- Responses ------------------------------------------------------------------------------

  function RefusalResponse(p: Platform, refusal: Refusal): BridgeResponse {
    var status := if refusal == Unauthorized then 401 else 400;
    BridgeResponse(status, Some(Ascii("application/json")), Encode(p.refusalBody(refusal)))
  }

  predicate Forwards(u: Upstream) { u.Reached? && |u.body| <= MAX_BODY_BYTES }

  function Respond(p: Platform, u: Upstream): BridgeResponse {
    if Forwards(u) then BridgeResponse(u.status, u.contentType, Encode(u.body))
    else BridgeResponse(502, Some(Ascii("application/json")), Encode(p.failureBody(u)))
  }

  /** What the guest sends on: the status, the content type and the decoded body. */
  datatype Delivery = Delivery(status: nat, contentType: Option<JsString>, body: Option<Bytes>)

  function Deliver(r: BridgeResponse): Delivery {
    Delivery(if r.status == 0 then 502 else r.status, r.contentType, Decode(r.bodyBase64))
  }

  /** The bytes that reach the caller are the upstream's. */
  lemma {:induction false} BodyFidelity(p: Platform, u: Upstream)
    requires Forwards(u)
    ensures Deliver(Respond(p, u)).body == Some(u.body)
  {
    DecodeEncode(u.body);
  }

  // ---- Ids ------------------------------------------------------------------------------------

  function Base36(n: nat): (s: JsString)
    ensures |s| > 0 && UNDERSCORE !in s
  {
    var digit: CodeUnit := if n % 36 < 10 then (48 + n % 36) as CodeUnit else (97 + n % 36 - 10) as CodeUnit;
    if n < 36 then [digit] else Base36(n / 36) + [digit]
  }

  lemma {:induction false} Base36Injective(m: nat, n: nat)
    requires Base36(m) == Base36(n)
    ensures m == n
  {
    var a, b := Base36(m), Base36(n);
    assert a[|a| - 1] == b[|b| - 1];
    assert m % 36 == n % 36;
    if m >= 36 && n >= 36 {
      assert a[..|a| - 1] == b[..|b| - 1];
      Base36Injective(m / 36, n / 36);
    }
  }

  /** Date.now() and the sequence number, in base 36. */
  function Id(time: nat, sequence: nat): JsString {
    Base36(time) + [UNDERSCORE] + Base36(sequence)
  }

  function UntilUnderscore(s: JsString): JsString {
    if s == [] || s[0] == UNDERSCORE then [] else [s[0]] + UntilUnderscore(s[1..])
  }

  lemma {:induction false} UntilFirst(a: JsString, b: JsString)
    requires UNDERSCORE !in a
    ensures UntilUnderscore(a + [UNDERSCORE] + b) == a
  {
    if a != [] {
      assert (a + [UNDERSCORE] + b)[1..] == a[1..] + [UNDERSCORE] + b;
      UntilFirst(a[1..], b);
    }
  }

  lemma {:induction false} IdInjective(t1: nat, n1: nat, t2: nat, n2: nat)
    requires Id(t1, n1) == Id(t2, n2)
    ensures n1 == n2
  {
    UntilFirst(Base36(t1), Base36(n1));
    UntilFirst(Base36(t2), Base36(n2));
    assert Id(t1, n1)[|Base36(t1)| + 1..] == Base36(n1) && Id(t2, n2)[|Base36(t2)| + 1..] == Base36(n2);
    Base36Injective(n1, n2);
  }

  /** The file of an id, in the directory of requests and in that of responses. */
  function FileName(id: JsString): JsString { id + JSON }

  predicate IsRequestName(name: JsString) {
    |name| > |JSON| && name[|name| - |JSON|..] == JSON && IsId(name[..|name| - |JSON|])
  }

  function IdOfName(name: JsString): (id: JsString)
    requires IsRequestName(name)
    ensures FileName(id) == name
  {
    name[..|name| - |JSON|]
  }

  lemma {:induction false} FileNameInjective(a: JsString, b: JsString)
    requires FileName(a) == FileName(b)
    ensures a == b
  {
    assert FileName(a)[..|a|] == a && FileName(b)[..|b|] == b;
  }

  lemma {:induction false} TemporaryIsNoRequest(id: JsString)
    ensures !IsRequestName(TEMPORARY + id)
  {
    assert (TEMPORARY + id)[0] == 46;
  }
}
