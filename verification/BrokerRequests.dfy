/**
 * What the broker demands of a request, said of whole runs and of the answers: which bodies are
 * forwarded, which reason is given first, when the capability is revoked, and how a stream ends.
 */
module BrokerRequests {
  import opened Options
  import opened Json
  import opened ByteStrings
  import opened Broker

  /** The property of a body that is an object. */
  function Demanded(body: Option<Value>, name: JsString): Option<Value> {
    if body.Some? && body.value.Object? then Get(body.value.fields, name) else None
  }

  predicate IsObject(body: Option<Value>) { body.Some? && body.value.Object? }

  predicate NamesModel(c: Config, body: Option<Value>) { Demanded(body, Ascii("model")) == Some(Text(c.model)) }

  predicate AsksForStream(body: Option<Value>) { Demanded(body, Ascii("stream")) == Some(Bool(true)) }

  ghost predicate IsCold(c: Config, body: Option<Value>) {
    exists t: NumberText :: Demanded(body, Ascii("temperature")) == Some(Number(t)) && c.isZero(t)
  }

  ghost predicate HasMessages(body: Option<Value>) {
    exists first: Value, rest: Items :: Demanded(body, Ascii("messages")) == Some(Array(Item(first, rest)))
  }

  ghost predicate BodyIsGranted(c: Config, body: Option<Value>) {
    NamesModel(c, body) && AsksForStream(body) && IsCold(c, body) && HasMessages(body)
  }

  /** "Bearer ", and the token. */
  predicate Bears(r: Request, token: Bytes) {
    r.authorization == Some([66, 101, 97, 114, 101, 114, 32] + token)
  }

  // ---- What is forwarded ----------------------------------------------------------------------

  lemma {:induction false} TemperatureIsZero(c: Config, body: Option<Value>)
    ensures var t := Demanded(body, Ascii("temperature"));
      IsCold(c, body) <==> t.Some? && t.value.Number? && c.isZero(t.value.text)
  {
    var t := Demanded(body, Ascii("temperature"));
    if t.Some? && t.value.Number? && c.isZero(t.value.text) { assert t == Some(Number(t.value.text)); }
  }

  lemma {:induction false} SomeMessages(body: Option<Value>)
    ensures var m := Demanded(body, Ascii("messages"));
      HasMessages(body) <==> m.Some? && m.value.Array? && m.value.items.Item?
  {
    var m := Demanded(body, Ascii("messages"));
    if m.Some? && m.value.Array? && m.value.items.Item? {
      assert m == Some(Array(Item(m.value.items.head, m.value.items.tail)));
    }
  }

  lemma {:induction false} ValidExactly(c: Config, r: Request)
    ensures Valid(c, r) <==> Bears(r, c.brokerToken) && r.isJson && BodyIsGranted(c, r.body)
  {
    TemperatureIsZero(c, r.body);
    SomeMessages(r.body);
  }

  /**
   * In every interleaving each forwarded request bears the broker's token and JSON content, and its
   * body is an object with the granted model, streaming, temperature zero and messages.
   */
  lemma {:induction false} ForwardedIsGranted(c: Config, clock: int, events: seq<Event>, k: nat)
    requires k < |Run(c, clock, events).forwards|
    ensures var s := Run(c, clock, events); var i := s.forwards[k].handler;
      && i < |s.handlers|
      && var r := s.handlers[i].request;
      && Bears(r, c.brokerToken) && r.isJson && IsObject(r.body) && BodyIsGranted(c, r.body)
  {
    var s := Run(c, clock, events);
    BrokerSafe(c, clock, events);
    ValidExactly(c, s.handlers[s.forwards[k].handler].request);
  }

  /**
   * Alone, a request is forwarded exactly when the shared state admits it and all of that holds; one
   * that is admitted within the budget and has JSON content is otherwise told the first thing wrong
   * with its body.
   */
  lemma {:induction false} FirstReason(c: Config, s: Shared, r: Request, clock: int, at: nat)
    requires Bears(r, c.brokerToken) && !s.revoked && clock < c.expiresAt && s.permitFree
    requires (s.count + 1) % U64 <= c.maxRequests && r.isJson
    ensures var pc := Serve(c, s, r, Arrived, clock, at, true).1;
      && (pc.Sent? <==> BodyIsGranted(c, r.body))
      && (pc == Done(BadBody(InvalidJson)) <==> r.body.None?)
      && (pc == Done(BadBody(BodyMustBeObject)) <==> r.body.Some? && !IsObject(r.body))
      && (pc == Done(BadBody(ModelNotGranted)) <==> IsObject(r.body) && !NamesModel(c, r.body))
      && (pc == Done(BadBody(StreamingRequired)) <==> NamesModel(c, r.body) && !AsksForStream(r.body))
      && (pc == Done(BadBody(TemperatureZeroRequired)) <==>
            NamesModel(c, r.body) && AsksForStream(r.body) && !IsCold(c, r.body))
      && (pc == Done(BadBody(MessagesRequired)) <==>
            NamesModel(c, r.body) && AsksForStream(r.body) && IsCold(c, r.body) && !HasMessages(r.body))
  {
    ForwardedExactlyWhen(c, s, r, clock, at, true);
    TemperatureIsZero(c, r.body);
    SomeMessages(r.body);
  }

  /** Before the body: the token, the revocation, the expiry, the permit, the budget and the content, in order. */
  lemma {:induction false} EarlierReasons(c: Config, s: Shared, r: Request, clock: int, at: nat)
    ensures var pc := Serve(c, s, r, Arrived, clock, at, true).1; var number := (s.count + 1) % U64;
      if !Bears(r, c.brokerToken) then pc == Done(Unauthorized)
      else if s.revoked then pc == Done(CapabilityRevoked)
      else if clock >= c.expiresAt then pc == Done(CapabilityExpired)
      else if !s.permitFree then pc == Done(ConcurrentRequest)
      else if number > c.maxRequests then pc == Done(BudgetExhausted)
      else if !r.isJson then pc == Done(NotJson)
      else pc.Sent? || (pc.Done? && pc.reply.BadBody?)
  {
    ForwardedExactlyWhen(c, s, r, clock, at, true);
  }

  // ---- Revocation -----------------------------------------------------------------------------

  predicate Revokes(c: Config, e: Event) {
    e.Revoke? && e.authorization == Some([66, 101, 97, 114, 101, 114, 32] + c.adminToken)
  }

  /** The capability is revoked exactly once somebody has asked with the admin's token. */
  lemma {:induction false} RevokedExactlyWhen(c: Config, clock: int, events: seq<Event>)
    ensures Run(c, clock, events).shared.revoked <==> exists i :: 0 <= i < |events| && Revokes(c, events[i])
  {
    if events != [] {
      var n := |events| - 1;
      var before := Run(c, clock, events[..n]);
      RevokedExactlyWhen(c, clock, events[..n]);
      StepRevokes(c, before, events[n]);
      if Revokes(c, events[n]) { assert Revokes(c, events[|events| - 1]); }
      forall i | 0 <= i < n ensures events[..n][i] == events[i] {}
    }
  }

  lemma {:induction false} StepRevokes(c: Config, s: System, e: Event)
    ensures Step(c, s, e).shared.revoked == (s.shared.revoked || Revokes(c, e))
  {
    if e.Go? && e.handler < |s.handlers| {
      var h := s.handlers[e.handler];
      NextPermit(c, s.shared, h.request, h.pc, s.clock, s.steps, e.choice);
    }
  }

  // ---- The stream of a forwarded request ------------------------------------------------------

  /** No stream has passed on more than 2 MiB. */
  ghost predicate StreamsBounded(s: System) {
    forall i :: 0 <= i < |s.handlers| && s.handlers[i].pc.Streaming? ==> s.handlers[i].pc.received <= 2_097_152
  }

  lemma {:induction false} StreamBounded(c: Config, s: Shared, r: Request, pc: Pc, clock: int, at: nat, choice: Choice)
    requires pc.Streaming? ==> pc.received <= 2_097_152
    ensures var next := Next(c, s, r, pc, clock, at, choice).1; next.Streaming? ==> next.received <= 2_097_152
  {
  }

  lemma {:induction false} RunKeepsStreams(c: Config, clock: int, events: seq<Event>)
    ensures StreamsBounded(Run(c, clock, events))
  {
    if events != [] {
      var before, e := Run(c, clock, events[..|events| - 1]), events[|events| - 1];
      RunKeepsStreams(c, clock, events[..|events| - 1]);
      if e.Go? && e.handler < |before.handlers| {
        var h := before.handlers[e.handler];
        StreamBounded(c, before.shared, h.request, h.pc, before.clock, before.steps, e.choice);
      }
    }
  }

  /** A streaming request after these chunks. */
  function AfterChunks(pc: Pc, chunks: seq<Bytes>): Pc {
    if chunks == [] then pc
    else
      var before := AfterChunks(pc, chunks[..|chunks| - 1]);
      if before.Streaming? then Stream(before, Chunk(chunks[|chunks| - 1])) else before
  }

  /**
   * After a forward and these chunks the stream goes on exactly if they are within 2 MiB together, and
   * is cut otherwise.
   */
  lemma {:induction false} StreamEndsExactly(check: Check, number: nat, chunks: seq<Bytes>)
    ensures AfterChunks(Streaming(check, number, 0), chunks)
         == if Total(chunks) <= 2_097_152 then Streaming(check, number, Total(chunks)) else Releasing(StreamCut)
  {
    if chunks != [] { StreamEndsExactly(check, number, chunks[..|chunks| - 1]); }
  }

  /** What a forward and a stream come to, and that the permit is free afterwards. */
  lemma {:induction false} ForwardEnds(c: Config, s: Shared, r: Request, pc: Pc, clock: int, at: nat, choice: Choice)
    requires pc.Sent? || (pc.Streaming? && !choice.Chunk?)
    ensures var (s1, pc1) := Next(c, s, r, pc, clock, at, choice);
      if pc.Sent? && (choice == Proceed || choice.Chunk?) then s1 == s && pc1 == Streaming(pc.check, pc.number, 0)
      else
        Next(c, s1, r, pc1, clock, at, choice)
        == (s.(permitFree := true),
            Done(if choice == Leave then Abandoned
                 else if pc.Sent? then UpstreamFailed
                 else if choice == Fail then StreamCut else Streamed))
  {
  }
}
