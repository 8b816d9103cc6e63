/**
 * What the host demands of a request, said of the text of its file, and of every fetch of every run;
 * and what the guest's caller is told.
 */
module MailboxRequests {
  import opened Options
  import opened Json
  import opened Base64
  import opened Mailbox
  import opened MailboxRuns

  /** The property of a value that is an object. */
  function Named(v: Option<Value>, name: JsString): Option<Value> {
    if v.Some? && v.value.Object? then Get(v.value.fields, name) else None
  }

  /** At most 128 letters, digits, underscores and hyphens, and at least one. */
  predicate PlainId(id: JsString) {
    && 0 < |id| <= 128
    && forall i :: 0 <= i < |id| ==>
         || 65 <= id[i] <= 90 || 97 <= id[i] <= 122 || 48 <= id[i] <= 57 || id[i] == 95 || id[i] == 45
  }

  /** The value in the file is a record of the version, method and path, with the fields of `r`. */
  predicate Records(p: Platform, c: Capability, v: Option<Value>, r: BridgeRequest) {
    && Named(v, Ascii("schemaVersion")) == Some(Number(WholeNumber("1")))
    && Named(v, Ascii("method")) == Some(Text(Ascii("POST")))
    && Named(v, Ascii("path")) == Some(Text(c.apiPath)) && r.path == c.apiPath
    && Named(v, Ascii("id")) == Some(Text(r.id)) && PlainId(r.id)
    && Named(v, Ascii("authorization")) == Some(Text(r.authorization))
    && Named(v, Ascii("body")) == Some(Text(r.body)) && p.utf8Length(r.body) <= 2_097_152
  }

  predicate IsList(v: Option<Value>) { v.Some? && v.value.Array? }

  /** The parsed body is an object with the granted model, and with a list where the path wants one. */
  predicate PayloadIsGranted(c: Capability, body: Option<Value>) {
    && Named(body, Ascii("model")) == Some(Text(c.model))
    && IsList(Named(body, if c.apiPath == Ascii("/v1/responses") then Ascii("input") else Ascii("messages")))
  }

  /** It carries the capability's key. */
  predicate Bears(c: Capability, r: BridgeRequest) { r.authorization == Ascii("Bearer ") + c.apiKey }

  // ---- What is forwarded ----------------------------------------------------------------------

  /** Of any file, exactly a granted record under the file's own id is forwarded, and as it is. */
  lemma {:induction false} ForwardedExactly(p: Platform, c: Capability, text: JsString, id: JsString, r: BridgeRequest)
    ensures Examine(p, c, text, id) == Fine(r) <==>
      Records(p, c, p.parse(text), r) && PayloadIsGranted(c, p.parse(r.body)) && r.id == id && Bears(c, r)
  {
    IdsArePlain(r.id);
    if Examine(p, c, text, id).Fine? { IdsArePlain(Examine(p, c, text, id).request.id); }
  }

  lemma {:induction false} IdsArePlain(id: JsString)
    ensures IsId(id) <==> PlainId(id)
  {
    forall i | 0 <= i < |id|
      ensures IsIdUnit(id[i]) <==>
        || 65 <= id[i] <= 90 || 97 <= id[i] <= 122 || 48 <= id[i] <= 57 || id[i] == 95 || id[i] == 45 {}
  }

  /** Everything else is refused, for the first of these reasons. */
  lemma {:induction false} FirstRefusal(p: Platform, c: Capability, text: JsString, id: JsString, r: BridgeRequest)
    ensures p.parse(text).None? ==> Examine(p, c, text, id) == Refused(Unparsable)
    ensures p.parse(text) == Some(Null) ==> Examine(p, c, text, id) == Refused(NullValue)
    ensures (p.parse(text).Some? && p.parse(text) != Some(Null) && forall q :: !Records(p, c, p.parse(text), q)) ==>
              Examine(p, c, text, id) == Refused(InvalidRequest)
    ensures Records(p, c, p.parse(text), r) ==>
      var body := p.parse(r.body);
      Examine(p, c, text, id)
      == if body.None? then Refused(Unparsable)
         else if body.value.Null? then Refused(NullValue)
         else if !PayloadIsGranted(c, body) then Refused(OutsideCapability)
         else if r.id != id then Refused(IdMismatch)
         else if !Bears(c, r) then Refused(Unauthorized)
         else Fine(r)
  {
    IdsArePlain(r.id);
    var v := p.parse(text);
    if v.Some? && !v.value.Null? && forall q :: !Records(p, c, v, q) {
      var given, auth, body := Named(v, Ascii("id")), Named(v, Ascii("authorization")), Named(v, Ascii("body"));
      if given.Some? && given.value.Text? && auth.Some? && auth.value.Text? && body.Some? && body.value.Text? {
        IdsArePlain(given.value.chars);
        assert !Records(p, c, v, BridgeRequest(given.value.chars, c.apiPath, auth.value.chars, body.value.chars));
      }
    }
  }

  // ---- Every fetch of every run ---------------------------------------------------------------

  predicate FetchIsGranted(p: Platform, c: Capability, r: BridgeRequest) {
    r.path == c.apiPath && PlainId(r.id) && Bears(c, r) && p.utf8Length(r.body) <= 2_097_152
    && PayloadIsGranted(c, p.parse(r.body))
  }

  ghost predicate AllGranted(p: Platform, c: Capability, h: Host) {
    && (h.phase.Fetching? ==> FetchIsGranted(p, c, h.phase.request))
    && (forall k :: 0 <= k < |h.fetches| ==> FetchIsGranted(p, c, h.fetches[k].request))
  }

  lemma {:induction false} HostKeepsGranted(p: Platform, c: Capability, h: Host, e: HostEvent)
    requires AllGranted(p, c, h)
    ensures AllGranted(p, c, HostStep(p, c, h, e))
  {
    if e.Read? && h.phase.Reading? {
      var t := AfterRead(p, c, h, e.ok);
      if t.phase.Fetching? {
        ForwardedExactly(p, c, h.requests[h.phase.name], IdOfName(h.phase.name), t.phase.request);
      }
    }
  }

  lemma {:induction false} GuestKeepsGranted(p: Platform, c: Capability, s: System, e: Event)
    requires !e.HostDoes?
    ensures Step(p, c, s, e).host.phase == s.host.phase && Step(p, c, s, e).host.fetches == s.host.fetches
  {
  }

  /** In every run, whatever fails in it, nothing is fetched for but granted requests. */
  lemma {:induction false} RunKeepsGranted(p: Platform, c: Capability, events: seq<Event>)
    ensures AllGranted(p, c, Run(p, c, events).host)
  {
    if events != [] {
      var before, e := events[..|events| - 1], events[|events| - 1];
      RunKeepsGranted(p, c, before);
      if e.HostDoes? { HostKeepsGranted(p, c, Run(p, c, before).host, e.event); }
      else { GuestKeepsGranted(p, c, Run(p, c, before), e); }
    }
  }

  /** How many fetches brought an answer of at most 2 MiB. */
  function Answered(fetches: seq<Fetch>): nat {
    if fetches == [] then 0
    else
      var u := fetches[|fetches| - 1].upstream;
      Answered(fetches[..|fetches| - 1]) + if u.Reached? && |u.body| <= 2_097_152 then 1 else 0
  }

  lemma {:induction false} HostCountsForwarded(p: Platform, c: Capability, h: Host, e: HostEvent)
    requires h.stats.forwarded == Answered(h.fetches)
    ensures HostStep(p, c, h, e).stats.forwarded == Answered(HostStep(p, c, h, e).fetches)
  {
    if e.Exchange? && h.phase.Fetching? {
      var t := AfterFetch(p, h, e.upstream);
      assert t.fetches[..|t.fetches| - 1] == h.fetches;
    }
  }

  /** In every run exactly those are counted as forwarded. */
  lemma {:induction false} RunCountsForwarded(p: Platform, c: Capability, events: seq<Event>)
    ensures var h := Run(p, c, events).host; h.stats.forwarded == Answered(h.fetches)
  {
    if events != [] {
      var before, e := events[..|events| - 1], events[|events| - 1];
      RunCountsForwarded(p, c, before);
      if e.HostDoes? { HostCountsForwarded(p, c, Run(p, c, before).host, e.event); }
      else {
        GuestKeepsGranted(p, c, Run(p, c, before), e);
        GuestCountsNothing(p, c, Run(p, c, before), e);
      }
    }
  }

  // ---- What is asked, and what the caller is told ---------------------------------------------

  /** The guest passes on exactly what is asked under one of two paths with at most 2 MiB. */
  lemma {:induction false} AskedExactly(p: Platform, c: Capability, s: System, e: Event)
    requires e.Ask?
    ensures Step(p, c, s, e)
         == if (e.path == Ascii("/v1/chat/completions") || e.path == Ascii("/v1/responses")) && e.bytes <= 2_097_152
            then s.(calls := s.calls + [Call(e.time, e.path, e.authorization, e.body, Writing)]) else s
  {
  }

  const JSON_TYPE: JsString := Ascii("application/json")

  /**
   * The caller of a refused request is told 401 if it does not bear the key and 400 otherwise, with
   * the reason; that of a forwarded one gets the upstream's status, content type and bytes, or 502 if
   * it was not reached or its body exceeds 2 MiB.
   */
  lemma {:induction false} AnswerTold(p: Platform, c: Capability, s: System, i: nat, r: BridgeResponse)
    requires i < |s.calls| && Answers(p, c, s, i, r)
    ensures var checked := Examine(p, c, TextAt(p, s.calls, i), IdAt(s.calls, i));
      match checked
      case Refused(why) =>
        Deliver(r) == Delivery(if why.Unauthorized? then 401 else 400, Some(JSON_TYPE), Some(p.refusalBody(why)))
      case Fine(_) =>
        exists k :: 0 <= k < |s.host.fetches| && s.host.fetches[k].id == IdAt(s.calls, i)
                 && Told(p, s.host.fetches[k].upstream, Deliver(r))
  {
    var checked := Examine(p, c, TextAt(p, s.calls, i), IdAt(s.calls, i));
    if checked.Refused? {
      DecodeEncode(p.refusalBody(checked.refusal));
    } else {
      var k :| 0 <= k < |s.host.fetches| && s.host.fetches[k].id == IdAt(s.calls, i)
               && r == Respond(p, s.host.fetches[k].upstream);
      RespondTells(p, s.host.fetches[k].upstream);
      assert Told(p, s.host.fetches[k].upstream, Deliver(r));
    }
  }

  /** What the caller gets of the upstream's answer; a status of zero is no status. */
  predicate Told(p: Platform, u: Upstream, d: Delivery) {
    if u.Reached? && |u.body| <= 2_097_152
    then d == Delivery(if u.status == 0 then 502 else u.status, u.contentType, Some(u.body))
    else d == Delivery(502, Some(JSON_TYPE), Some(p.failureBody(u)))
  }

  lemma {:induction false} RespondTells(p: Platform, u: Upstream)
    ensures Told(p, u, Deliver(Respond(p, u)))
  {
    if Forwards(u) { DecodeEncode(u.body); } else { DecodeEncode(p.failureBody(u)); }
  }
}
