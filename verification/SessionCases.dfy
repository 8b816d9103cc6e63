/** Runs of the shared worker in which readiness, session and starts go wrong, from the first connection on. */
module SessionCases {
  import opened Options
  import opened Json
  import opened WizardKey
  import opened Coordination
  import opened WizardSession
  import opened RequestLedger
  import opened CoordinationPosts

  const EVERY_POST: nat -> bool := _ => true

  function Plain(kind: Kind, rpcMethod: Option<Method>, requestId: Option<JsString>, result: Option<Value>): Message {
    Message(kind, rpcMethod, requestId, OtherParams, true, result, None, None, NoFields)
  }

  const FIRST: Event := Connecting(0)

  lemma {:induction false} RunMore(s: State, events: seq<Event>, e: Event)
    requires Elected(s)
    ensures Run(s, events + [e]) == Step(Run(s, events), e)
  {
    assert (events + [e])[..|events|] == events;
  }

  lemma {:induction false} RunTwo(s: State, a: Event, b: Event)
    requires Elected(s)
    ensures Run(s, [a, b]) == Step(Run(s, [a]), b)
  {
    RunMore(s, [a], b);
    assert [a] + [b] == [a, b];
  }

  lemma {:induction false} RunFour(s: State, a: Event, b: Event, c: Event, d: Event)
    requires Elected(s)
    ensures Run(s, [a, b, c, d]) == Step(Step(Step(Run(s, [a]), b), c), d)
  {
    RunTwo(s, a, b);
    RunMore(s, [a, b], c);
    RunMore(s, [a, b, c], d);
    assert [a, b] + [c] == [a, b, c] && [a, b, c] + [d] == [a, b, c, d];
  }

  lemma {:induction false} RunFive(s: State, a: Event, b: Event, c: Event, d: Event, e: Event)
    requires Elected(s)
    ensures Run(s, [a, b, c, d, e]) == Step(Step(Step(Step(Run(s, [a]), b), c), d), e)
  {
    RunFour(s, a, b, c, d);
    RunMore(s, [a, b, c, d], e);
    assert [a, b, c, d] + [e] == [a, b, c, d, e];
  }

  /** The first port connects, and is the owner. */
  lemma {:induction false} FirstConnects()
    ensures var s := Run(Initial(EVERY_POST), [FIRST]);
      && s.owner == Some(0) && s.ports == [0] && s.book == EMPTY_BOOK && Reliable(s)
      && s.board == Initial(EVERY_POST).board && s.tenure == 0
  {
    var s0 := Initial(EVERY_POST);
    RunMore(s0, [], FIRST);
    assert [] + [FIRST] == [FIRST];
    ReliableConnect(s0, 0);
    StepReliable(s0, FIRST);
  }

  const READY: Message := Plain(GatewayReady, None, None, None)

  /** The owner is ready and leaves, the last port; the next port is told that it is ready. */
  const STALE: seq<Event> := [FIRST, Receiving(0, OwnerOutput(READY)), Receiving(0, Disconnecting), Connecting(1)]

  lemma {:induction false} StaleReadinessReached()
    ensures !Current(Run(Initial(EVERY_POST), STALE))
  {
    var s0 := Initial(EVERY_POST);
    FirstConnects();
    var s1 := Run(s0, [FIRST]);
    RunFour(s0, FIRST, STALE[1], STALE[2], STALE[3]);
    OutputIsKept(s1);
    OwnerLeaves(Step(s1, STALE[1]));
    StrangerIsTold(Step(Step(s1, STALE[1]), STALE[2]));
  }

  lemma {:induction false} StrangerIsTold(s: State)
    requires Elected(s) && Reliable(s) && s.ports == [] && s.board.readyMessage.Some? && s.board.readyTenure < s.tenure
    ensures !Current(Step(s, Connecting(1)))
  {
    ReadinessExactly(s, Connecting(1));
  }

  lemma {:induction false} OutputIsKept(s: State)
    requires Elected(s) && Reliable(s) && s.ports == [0] && s.book == EMPTY_BOOK
    ensures var r := Step(s, Receiving(0, OwnerOutput(READY)));
      && r.ports == [0] && r.board.readyMessage == Some(READY) && r.board.readyTenure == s.tenure == r.tenure
      && Reliable(r)
  {
    StepReliable(s, Receiving(0, OwnerOutput(READY)));
    AnnouncePosts(Posted(s, READY), s.ports, READY);
  }

  lemma {:induction false} OwnerLeaves(s: State)
    requires Elected(s) && s.ports == [0]
    ensures var r := Step(s, Receiving(0, Disconnecting));
      r.ports == [] && r.board == s.board && r.tenure == s.tenure + 1 && r.wire == s.wire
  {
    assert Orphaned(s, Some(0)).ports == [];
    assert Disconnect(s, Some(0)) == ChooseOwner(Orphaned(s, Some(0)));
  }

  // ---- A session id that is no string ---------------------------------------------------------

  function Session(id: Value): Option<Value> { Some(Object(Field(SESSION_ID, id, NoFields))) }

  /** A result with a session, then one whose session id is null. */
  const ODD: seq<Event> := [
    FIRST,
    Receiving(0, Ordinary(StatusRequest(Ascii("a")))),
    Receiving(0, OwnerOutput(StatusReply(Ascii("a"), Session(Text(Ascii("s")))))),
    Receiving(0, Ordinary(StatusRequest(Ascii("b")))),
    Receiving(0, OwnerOutput(StatusReply(Ascii("b"), Session(Null))))]

  function StatusRequest(id: JsString): Message { Plain(RpcRequest, Some(Status), Some(id), None) }

  function StatusReply(id: JsString, result: Option<Value>): Message { Plain(RpcResponse, None, Some(id), result) }

  /** Only port 0 is connected, nothing but the session is on the book, and posts go through. */
  ghost predicate Quiescent(s: State) {
    Elected(s) && Reliable(s) && s.ports == [0]
    && s.book == EMPTY_BOOK.(sessionId := s.book.sessionId, snapshot := s.book.snapshot)
  }

  lemma {:induction false} StatusAsked(s: State, id: JsString)
    requires Quiescent(s)
    ensures var r := Step(s, Receiving(0, Ordinary(StatusRequest(id))));
      r.book == Enter(s.book, 0, id, StatusRequest(id)) && r.ports == [0] && Reliable(r)
  {
    StepReliable(s, Receiving(0, Ordinary(StatusRequest(id))));
  }

  /** What a status request is answered with is remembered, and the book is as before. */
  lemma {:induction false} StatusAnswered(s: State, id: JsString, result: Option<Value>)
    requires Quiescent(s)
    ensures var s1 := Step(s, Receiving(0, Ordinary(StatusRequest(id))));
      var r := Step(s1, Receiving(0, OwnerOutput(StatusReply(id, result))));
      Quiescent(r) && r.book == RememberResult(s.book, result)
  {
    var s1 := Step(s, Receiving(0, Ordinary(StatusRequest(id))));
    StatusAsked(s, id);
    StepReliable(s1, Receiving(0, OwnerOutput(StatusReply(id, result))));
    InformedReliably(s1, id, StatusReply(id, result));
    StruckIsAsBefore(s.book, id);
    assert s1.book.requestMethods[id] == Status;
  }

  lemma {:induction false} StruckIsAsBefore(book: Book, id: JsString)
    requires book == EMPTY_BOOK.(sessionId := book.sessionId, snapshot := book.snapshot)
    ensures Struck(Enter(book, 0, id, StatusRequest(id)), id) == book
  {
    var r := Struck(Enter(book, 0, id, StatusRequest(id)), id);
    assert r.requestOwners == map[] && r.requestMethods == map[] && r.dedup.requestKeys == map[];
  }

  lemma {:induction false} OddSessionReached()
    ensures !Coherent(Run(Initial(EVERY_POST), ODD).book)
  {
    var s0 := Initial(EVERY_POST);
    FirstConnects();
    var s1 := Run(s0, [FIRST]);
    StatusAnswered(s1, Ascii("a"), Session(Text(Ascii("s"))));
    var s3 := Step(Step(s1, ODD[1]), ODD[2]);
    StatusAnswered(s3, Ascii("b"), Session(Null));
    RunFive(s0, FIRST, ODD[1], ODD[2], ODD[3], ODD[4]);
    assert Ascii("s")[0] == 115;
  }

  // ---- A capability operation that names wizard.start -----------------------------------------

  const MISLABELLED: seq<Event> :=
    [FIRST, Receiving(0, Ordinary(Plain(CapabilityAttach, Some(Start), Some(Ascii("a")), None)))]

  lemma {:induction false} MislabelledStartReached()
    ensures !StartCoalesced(Run(Initial(EVERY_POST), MISLABELLED).book)
  {
    FirstConnects();
    var s1 := Run(Initial(EVERY_POST), [FIRST]);
    assert forall id :: !IsOutstandingStart(s1.book, id);
    RunTwo(Initial(EVERY_POST), FIRST, MISLABELLED[1]);
    StartExactly(s1, MISLABELLED[1]);
  }
}
