/**
 * The single `wizard.start`, the remembered session and the replayed readiness, for every pattern
 * of failing sends.
 */
module WizardSession {
  import opened Options
  import opened Json
  import opened Coordination

  // ---- Start coalescing -----------------------------------------------------------------------

  ghost predicate IsOutstandingStart(book: Book, id: JsString) {
    Lookup(book.requestMethods, id) == Some(Start)
  }

  /** At most one `wizard.start` is outstanding; the flag says whether one is; only then do others wait. */
  ghost predicate StartCoalesced(book: Book) {
    && (forall id, id' :: IsOutstandingStart(book, id) && IsOutstandingStart(book, id') ==> id == id')
    && (book.startInFlight <==> exists id :: IsOutstandingStart(book, id))
    && (book.startWaiters != [] ==> book.startInFlight)
  }

  /** A capability operation that names the method `wizard.start`: it goes to the owner and is booked as a start. */
  predicate Mislabelled(s: State, e: Event) {
    && e.Receiving? && e.inbound.Ordinary? && IsRuntimeOperation(e.inbound.message) && s.owner.Some?
    && e.inbound.message.kind != RpcRequest && e.inbound.message.rpcMethod == Some(Start)
    && e.inbound.message.requestId.Some?
  }

  /** The request id of a runtime operation is not that of a request still on the book. */
  ghost predicate FreshStart(book: Book, e: Event) {
    e.Receiving? && e.inbound.Ordinary? && e.inbound.message.requestId.Some? ==>
      e.inbound.message.requestId.value !in book.requestMethods
  }

  lemma {:induction false} EvolvesKeepsStart(s: State, r: State)
    requires Evolves(s, r) && StartCoalesced(s.book)
    ensures StartCoalesced(r.book)
  {
    if NewTenure(s, r) { assert forall id :: !IsOutstandingStart(r.book, id); }
    else { assert forall id :: IsOutstandingStart(r.book, id) <==> IsOutstandingStart(s.book, id); }
  }

  /** No start is outstanding any more, but its flag and waiters are still there. */
  ghost predicate StartLanding(book: Book) {
    forall id :: !IsOutstandingStart(book, id)
  }

  lemma {:induction false} RecordKeepsMethods(book: Book, rpcMethod: Option<Method>, m: Message)
    ensures var r := Record(book, rpcMethod, m);
      && r.requestMethods == book.requestMethods
      && r.startInFlight == book.startInFlight && r.startWaiters == book.startWaiters
  {
  }

  lemma {:induction false} SettleNextKeepsMethods(s: State, key: JsString, m: Message)
    requires Elected(s)
    ensures var r := SettleNext(s, key, m);
      || (r.book.requestMethods == s.book.requestMethods && r.book.startInFlight == s.book.startInFlight
          && r.book.startWaiters == s.book.startWaiters)
      || (r.book.requestMethods == map[] && !r.book.startInFlight && r.book.startWaiters == [])
  {
  }

  lemma {:induction false} SameMethodsKeepStart(b: Book, r: Book)
    requires StartCoalesced(b)
    requires || (r.requestMethods == b.requestMethods
                 && r.startInFlight == b.startInFlight && r.startWaiters == b.startWaiters)
             || (r.requestMethods == map[] && !r.startInFlight && r.startWaiters == [])
    ensures StartCoalesced(r)
  {
    if r.requestMethods == map[] { assert forall id :: !IsOutstandingStart(r, id); }
    else { assert forall id :: IsOutstandingStart(r, id) <==> IsOutstandingStart(b, id); }
  }

  lemma {:induction false} StruckKeepsStart(book: Book, id: JsString)
    requires StartCoalesced(book)
    ensures if IsOutstandingStart(book, id) then StartLanding(Struck(book, id)) else StartCoalesced(Struck(book, id))
  {
    forall other ensures IsOutstandingStart(Struck(book, id), other) <==>
      IsOutstandingStart(book, other) && other != id {}
    if book.startInFlight && !IsOutstandingStart(book, id) {
      var other :| IsOutstandingStart(book, other);
      assert IsOutstandingStart(Struck(book, id), other);
    }
  }

  lemma {:induction false} SettleStartKeepsStart(s: State, m: Message)
    requires Elected(s) && StartLanding(s.book)
    ensures StartCoalesced(SettleStart(s, m).book)
  {
    forall id ensures !IsOutstandingStart(StartOver(s).book, id) { assert !IsOutstandingStart(s.book, id); }
    EvolvesKeepsStart(StartOver(s), SettleStart(s, m));
  }

  lemma {:induction false} EvolvesKeepsLanding(s: State, r: State)
    requires Evolves(s, r) && StartLanding(s.book)
    ensures StartLanding(r.book)
  {
    forall id ensures !IsOutstandingStart(r.book, id) { assert !IsOutstandingStart(s.book, id); }
  }

  lemma {:induction false} SettleKeepsStart(s: State, id: JsString, m: Message)
    requires Elected(s) && StartCoalesced(s.book)
    ensures StartCoalesced(Settle(s, id, m).book)
  {
    var rpcMethod := Lookup(s.book.requestMethods, id);
    var nextKey := Lookup(s.book.dedup.requestKeys, id);
    var s1, s2 := Recorded(s, id, m), Informed(s, id, m);
    StruckKeepsStart(s.book, id);
    RecordKeepsMethods(Struck(s.book, id), rpcMethod, m);
    if rpcMethod == Some(Start) {
      forall other ensures !IsOutstandingStart(s1.book, other) {
        assert !IsOutstandingStart(Struck(s.book, id), other);
      }
      EvolvesKeepsLanding(s1, s2);
      SettleStartKeepsStart(s2, m);
    } else {
      SameMethodsKeepStart(Struck(s.book, id), s1.book);
      EvolvesKeepsStart(s1, s2);
      if rpcMethod == Some(Next) && nextKey.Some? {
        SettleNextKeepsMethods(s2, nextKey.value, m);
        SameMethodsKeepStart(s2.book, SettleNext(s2, nextKey.value, m).book);
      }
    }
  }

  lemma {:induction false} EnterKeepsStart(book: Book, port: Port, id: JsString, m: Message)
    requires StartCoalesced(book) && id !in book.requestMethods
    requires m.rpcMethod == Some(Start) ==> m.kind == RpcRequest
    requires RoutingOf(book, m).ToOwner?
    ensures StartCoalesced(Enter(book, port, id, m))
  {
    var r := Enter(book, port, id, m);
    forall other
      ensures IsOutstandingStart(r, other) <==> IsOutstandingStart(book, other) || (other == id && IsStart(m)) {}
    if r.startInFlight {
      if IsStart(m) { assert IsOutstandingStart(r, id); }
      else {
        var other :| IsOutstandingStart(book, other);
        assert IsOutstandingStart(r, other);
      }
    }
  }

  lemma {:induction false} OperateKeepsStart(s: State, port: Port, m: Message)
    requires Elected(s) && StartCoalesced(s.book) && FreshStart(s.book, Receiving(port, Ordinary(m)))
    requires m.rpcMethod == Some(Start) && m.requestId.Some? ==> m.kind == RpcRequest
    ensures StartCoalesced(Operate(s, port, m).book)
  {
    var r := Operate(s, port, m);
    if m.requestId.None? {
      EvolvesKeepsStart(s, r);
    } else {
      var id := m.requestId.value;
      match RoutingOf(s.book, m)
      case FromCache(_) => EvolvesKeepsStart(s, r);
      case BehindNext(_) => SameMethodsKeepStart(s.book, r.book);
      case FromSnapshot => EvolvesKeepsStart(s, r);
      case BehindStart =>
        assert forall other :: IsOutstandingStart(r.book, other) <==> IsOutstandingStart(s.book, other);
      case ToOwner =>
        EnterKeepsStart(s.book, port, id, m);
        EvolvesKeepsStart(s.(book := Enter(s.book, port, id, m)), r);
    }
  }

  lemma {:induction false} StepKeepsStart(s: State, e: Event)
    requires Elected(s) && StartCoalesced(s.book) && FreshStart(s.book, e) && !Mislabelled(s, e)
    ensures StartCoalesced(Step(s, e).book)
  {
    var r := Step(s, e);
    match e
    case Connecting(port) =>
      ConnectEvolves(s, port);
      EvolvesKeepsStart(Admitted(s, port), r);
    case Receiving(_, Disconnecting) => EvolvesKeepsStart(s, r);
    case Receiving(port, OwnerOutput(m)) =>
      if Some(port) == s.owner {
        if Settles(s.book, m) { SettleKeepsStart(s, m.requestId.value, m); }
        else { EvolvesKeepsStart(Posted(s, m), r); }
      }
    case Receiving(_, RuntimeStart) =>
      if s.owner.Some? { EvolvesKeepsStart(s.(runtimeRequested := true), r); }
    case Receiving(port, Ordinary(m)) =>
      if IsRuntimeOperation(m) && s.owner.Some? { OperateKeepsStart(s, port, m); }
  }

  /** Entering a mislabelled operation: two starts, or one without its flag. */
  lemma {:induction false} EnterMislabelled(book: Book, port: Port, id: JsString, m: Message)
    requires StartCoalesced(book) && id !in book.requestMethods && m.kind != RpcRequest && m.rpcMethod == Some(Start)
    ensures !StartCoalesced(Enter(book, port, id, m))
  {
    var r := Enter(book, port, id, m);
    assert IsOutstandingStart(r, id);
    if book.startInFlight {
      var other :| IsOutstandingStart(book, other);
      assert IsOutstandingStart(r, other);
    }
  }

  /** When posts go through, the condition is exact. */
  lemma {:induction false} StartExactly(s: State, e: Event)
    requires Elected(s) && Reliable(s) && StartCoalesced(s.book) && FreshStart(s.book, e)
    ensures StartCoalesced(Step(s, e).book) <==> !Mislabelled(s, e)
  {
    if !Mislabelled(s, e) {
      StepKeepsStart(s, e);
    } else {
      EnterMislabelled(s.book, e.port, e.inbound.message.requestId.value, e.inbound.message);
    }
  }

  /** At every state of every run of fresh requests, none of them mislabelled, starts are coalesced. */
  lemma {:induction false} RunKeepsStart(s: State, events: seq<Event>)
    requires Elected(s) && StartCoalesced(s.book)
    requires forall i :: 0 <= i < |events| ==>
      FreshStart(Run(s, events[..i]).book, events[i]) && !Mislabelled(Run(s, events[..i]), events[i])
    ensures StartCoalesced(Run(s, events).book)
  {
    if events != [] {
      var n := |events| - 1;
      forall i | 0 <= i < n
        ensures FreshStart(Run(s, events[..n][..i]).book, events[..n][i])
                && !Mislabelled(Run(s, events[..n][..i]), events[..n][i])
      {
        assert events[..n][..i] == events[..i];
      }
      RunKeepsStart(s, events[..n]);
      StepKeepsStart(Run(s, events[..n]), events[n]);
    }
  }

  // ---- Session coherence ----------------------------------------------------------------------

  predicate Remembered(id: Option<JsString>) {
    id.Some? && id.value != []
  }

  /** A remembered object snapshot carries the remembered session id. */
  ghost predicate Coherent(book: Book) {
    book.snapshot.Some? && book.snapshot.value.Object? && Remembered(book.sessionId) ==>
      Get(book.snapshot.value.fields, SESSION_ID) == Some(Text(book.sessionId.value))
  }

  /** The result is an object whose session id is present and not a string. */
  predicate OddSession(result: Option<Value>) {
    result.Some? && result.value.Object? &&
      var id := Get(result.value.fields, SESSION_ID); id.Some? && !id.value.Text?
  }

  /** Remembering a result leaves a coherent book unless a session is known and the result's id is not a string. */
  lemma {:induction false} CoherentExactlyUnlessOdd(book: Book, result: Option<Value>)
    ensures Coherent(RememberResult(book, result))
       <==> !(OddSession(result) && Remembered(book.sessionId))
  {
    if result.Some? && result.value.Object? && Remembered(book.sessionId) {
      GetPut(result.value.fields, SESSION_ID, Text(book.sessionId.value), SESSION_ID);
    }
  }

  /**
   * What is remembered of a result: a string session id is the session from then on; an object
   * without a session id gets the session's, and keeps everything else; any other result is kept as
   * it is.
   */
  ghost predicate Remembers(book: Book, result: Option<Value>, sessionId: Option<JsString>, snapshot: Option<Value>) {
    var id := if result.Some? && result.value.Object? then Get(result.value.fields, Ascii("sessionId")) else None;
    && sessionId == (if id.Some? && id.value.Text? then Some(id.value.chars) else book.sessionId)
    && (result.None? || !result.value.Object? || id.Some? ==> snapshot == result)
    && (result.Some? && result.value.Object? ==>
          && snapshot.Some? && snapshot.value.Object?
          && (forall name :: name != Ascii("sessionId") ==>
                Get(snapshot.value.fields, name) == Get(result.value.fields, name))
          && (id.None? ==> Get(snapshot.value.fields, Ascii("sessionId"))
                           == if Remembered(book.sessionId) then Some(Text(book.sessionId.value)) else None))
  }

  /** That is kept, and the deduplication is cleared exactly when a non-empty session is replaced by another. */
  lemma {:induction false} RememberedResult(book: Book, result: Option<Value>)
    ensures var r := RememberResult(book, result);
      && Remembers(book, result, r.sessionId, r.snapshot)
      && r.dedup == (if Remembered(book.sessionId) && r.sessionId != book.sessionId then EMPTY_DEDUP else book.dedup)
  {
    if result.Some? && result.value.Object? && Remembered(book.sessionId) {
      forall name ensures
        Get(Put(result.value.fields, SESSION_ID, Text(book.sessionId.value)), name)
        == if name == SESSION_ID then Some(Text(book.sessionId.value)) else Get(result.value.fields, name)
      {
        GetPut(result.value.fields, SESSION_ID, Text(book.sessionId.value), name);
      }
    }
  }

  /** `book` has the session and snapshot of `b`, or none at all. */
  ghost predicate SameSession(b: Book, book: Book) {
    (book.snapshot == b.snapshot && book.sessionId == b.sessionId) || (book.snapshot.None? && book.sessionId.None?)
  }

  lemma {:induction false} EvolvesSession(s: State, r: State)
    requires Evolves(s, r)
    ensures SameSession(s.book, r.book)
  {
  }

  lemma {:induction false} SettleNextSession(s: State, key: JsString, m: Message)
    requires Elected(s)
    ensures SameSession(s.book, SettleNext(s, key, m).book)
  {
  }

  lemma {:induction false} SettleSession(s: State, id: JsString, m: Message)
    requires Elected(s)
    ensures SameSession(Recorded(s, id, m).book, Settle(s, id, m).book)
  {
    var rpcMethod := Lookup(s.book.requestMethods, id);
    var nextKey := Lookup(s.book.dedup.requestKeys, id);
    var s2 := Informed(s, id, m);
    EvolvesSession(Recorded(s, id, m), s2);
    if rpcMethod == Some(Next) && nextKey.Some? { SettleNextSession(s2, nextKey.value, m); }
    if rpcMethod == Some(Start) { EvolvesSession(StartOver(s2), SettleStart(s2, m)); }
  }

  lemma {:induction false} RouteKeepsCoherent(s: State, m: Message)
    requires Elected(s) && Coherent(s.book) && !OddSession(m.result)
    ensures Coherent(RouteOwnerOutput(s, m).book)
  {
    if Settles(s.book, m) {
      var id := m.requestId.value;
      SettleSession(s, id, m);
      CoherentExactlyUnlessOdd(Struck(s.book, id), m.result);
    }
  }

  lemma {:induction false} OperateSession(s: State, port: Port, m: Message)
    requires Elected(s)
    ensures SameSession(s.book, Operate(s, port, m).book)
  {
    var r := Operate(s, port, m);
    if m.requestId.None? { EvolvesSession(s, r); }
    else if RoutingOf(s.book, m).ToOwner? {
      EvolvesSession(s.(book := Enter(s.book, port, m.requestId.value, m)), r);
    }
  }

  lemma {:induction false} StepKeepsCoherent(s: State, e: Event)
    requires Elected(s) && Coherent(s.book)
    requires e.Receiving? && e.inbound.OwnerOutput? ==> !OddSession(e.inbound.message.result)
    ensures Coherent(Step(s, e).book)
  {
    var r := Step(s, e);
    match e
    case Connecting(port) =>
      ConnectEvolves(s, port);
      EvolvesSession(Admitted(s, port), r);
    case Receiving(_, Disconnecting) => EvolvesSession(s, r);
    case Receiving(port, OwnerOutput(m)) => if Some(port) == s.owner { RouteKeepsCoherent(s, m); }
    case Receiving(_, RuntimeStart) => if s.owner.Some? { EvolvesSession(s.(runtimeRequested := true), r); }
    case Receiving(port, Ordinary(m)) =>
      if IsRuntimeOperation(m) && s.owner.Some? { OperateSession(s, port, m); }
  }

  /** At every state of every run the snapshot carries the session, unless a result had an odd session id. */
  lemma {:induction false} RunKeepsCoherent(s: State, events: seq<Event>)
    requires Elected(s) && Coherent(s.book)
    requires forall e :: e in events && e.Receiving? && e.inbound.OwnerOutput? ==> !OddSession(e.inbound.message.result)
    ensures Coherent(Run(s, events).book)
  {
    if events != [] {
      var n := |events| - 1;
      assert forall e :: e in events[..n] ==> e in events;
      RunKeepsCoherent(s, events[..n]);
      assert events[n] in events;
      StepKeepsCoherent(Run(s, events[..n]), events[n]);
    }
  }

  // ---- Readiness ------------------------------------------------------------------------------

  /** The readiness that would be replayed came from the present owner. */
  ghost predicate ReadinessIsCurrent(s: State) {
    s.ports != [] && s.board.readyMessage.Some? ==> s.board.readyTenure == s.tenure
  }

  /** Readiness outlives its owner exactly when the last port leaves, and is then replayed to the next one. */
  ghost predicate ReplaysToStranger(s: State, e: Event) {
    e.Connecting? && s.ports == [] && s.board.readyMessage.Some?
  }

  /** On the board left behind by the last port, readiness belongs to an owner that was lost. */
  ghost predicate BoardIsPast(s: State) {
    s.board.readyTenure <= s.tenure
    && (s.ports == [] && s.board.readyMessage.Some? ==> s.board.readyTenure < s.tenure)
  }

  ghost predicate Current(s: State) {
    ReadinessIsCurrent(s) && BoardIsPast(s)
  }

  lemma {:induction false} EvolvesKeepsCurrent(s: State, r: State)
    requires Elected(s) && Elected(r) && (s == r || Evolves(s, r)) && Current(s)
    ensures Current(r)
  {
  }

  lemma {:induction false} SettleNextKeepsCurrent(s: State, key: JsString, m: Message)
    requires Elected(s) && Current(s)
    ensures Current(SettleNext(s, key, m))
  {
    EvolvesKeepsCurrent(WithDedup(s, Landed(s.book.dedup, key, m)), NextTold(s, key, m));
  }

  lemma {:induction false} SettleKeepsCurrent(s: State, id: JsString, m: Message)
    requires Elected(s) && Current(s)
    ensures Current(Settle(s, id, m))
  {
    var rpcMethod := Lookup(s.book.requestMethods, id);
    var nextKey := Lookup(s.book.dedup.requestKeys, id);
    var s2 := Informed(s, id, m);
    EvolvesKeepsCurrent(Recorded(s, id, m), s2);
    if rpcMethod == Some(Next) && nextKey.Some? { SettleNextKeepsCurrent(s2, nextKey.value, m); }
    if rpcMethod == Some(Start) { EvolvesKeepsCurrent(StartOver(s2), SettleStart(s2, m)); }
  }

  lemma {:induction false} RouteKeepsCurrent(s: State, m: Message)
    requires Elected(s) && Current(s) && s.ports != []
    ensures Current(RouteOwnerOutput(s, m))
  {
    if Settles(s.book, m) {
      SettleKeepsCurrent(s, m.requestId.value, m);
    } else {
      EvolvesKeepsCurrent(Posted(s, m), RouteOwnerOutput(s, m));
    }
  }

  lemma {:induction false} OperateKeepsCurrent(s: State, port: Port, m: Message)
    requires Elected(s) && Current(s)
    ensures Current(Operate(s, port, m))
  {
    var r := Operate(s, port, m);
    if m.requestId.None? { EvolvesKeepsCurrent(s, r); }
    else {
      match RoutingOf(s.book, m)
      case FromCache(_) => EvolvesKeepsCurrent(s, r);
      case BehindNext(_) =>
      case FromSnapshot => EvolvesKeepsCurrent(s, r);
      case BehindStart =>
      case ToOwner => EvolvesKeepsCurrent(s.(book := Enter(s.book, port, m.requestId.value, m)), r);
    }
  }

  /** An event keeps the replayed readiness that of the present owner unless it replays it to a stranger. */
  lemma {:induction false} StepKeepsCurrent(s: State, e: Event)
    requires Elected(s) && Current(s) && !ReplaysToStranger(s, e)
    ensures Current(Step(s, e))
  {
    var r := Step(s, e);
    match e
    case Connecting(port) =>
      ConnectEvolves(s, port);
      EvolvesKeepsCurrent(Admitted(s, port), r);
    case Receiving(_, Disconnecting) => EvolvesKeepsCurrent(s, r);
    case Receiving(port, OwnerOutput(m)) => if Some(port) == s.owner { RouteKeepsCurrent(s, m); }
    case Receiving(_, RuntimeStart) => if s.owner.Some? { EvolvesKeepsCurrent(s.(runtimeRequested := true), r); }
    case Receiving(port, Ordinary(m)) =>
      if IsRuntimeOperation(m) && s.owner.Some? { OperateKeepsCurrent(s, port, m); }
  }

  /** When posts go through, the condition is exact. */
  lemma {:induction false} ReadinessExactly(s: State, e: Event)
    requires Elected(s) && Current(s) && Reliable(s)
    ensures Current(Step(s, e)) <==> !ReplaysToStranger(s, e)
  {
    if !ReplaysToStranger(s, e) {
      StepKeepsCurrent(s, e);
    } else {
      ReliableConnect(s, e.port);
    }
  }

  /** With reliable posts, connecting posts the replayed messages and changes nothing else. */
  lemma {:induction false} ReliableConnect(s: State, port: Port)
    requires Elected(s) && Reliable(s)
    ensures Connect(s, port).(wire := s.wire) == Admitted(s, port)
  {
  }

  /** Along any run in which no event replays readiness to a stranger, readiness stays current. */
  lemma {:induction false} RunKeepsCurrent(s: State, events: seq<Event>)
    requires Elected(s) && Current(s)
    requires forall i :: 0 <= i < |events| ==> !ReplaysToStranger(Run(s, events[..i]), events[i])
    ensures Current(Run(s, events))
  {
    if events != [] {
      var n := |events| - 1;
      forall i | 0 <= i < n ensures !ReplaysToStranger(Run(s, events[..n][..i]), events[..n][i]) {
        assert events[..n][..i] == events[..i];
      }
      RunKeepsCurrent(s, events[..n]);
      StepKeepsCurrent(Run(s, events[..n]), events[n]);
    }
  }
}
