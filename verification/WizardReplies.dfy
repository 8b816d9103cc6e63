/**
 * What the worker does with replies and requests, said of its steps and posts alone: which replies
 * change the remembered wizard, which are kept for repetitions, and who is told what.
 */
module WizardReplies {
  import opened Options
  import opened Json
  import opened WizardKey
  import opened Coordination
  import opened WizardSession
  import opened RequestLedger
  import opened CoordinationPosts

  /** A reply of the owner to a request that is booked under method `rpcMethod`. */
  ghost predicate Replies(s: State, owner: Port, m: Message, rpcMethod: Method) {
    && Elected(s) && s.owner == Some(owner) && m.requestId.Some?
    && (m.kind == RpcResponse || m.kind == CapabilityResponse || m.kind == ConfigResponse)
    && Lookup(s.book.requestMethods, m.requestId.value) == Some(rpcMethod)
  }

  function AfterOutput(s: State, owner: Port, m: Message): (r: State)
    requires Elected(s)
    ensures Elected(r)
  {
    Step(s, Receiving(owner, OwnerOutput(m)))
  }

  predicate Forgotten(book: Book) { book.snapshot.None? && book.sessionId.None? }

  // ---- The remembered wizard ------------------------------------------------------------------

  lemma {:induction false} ReplySettles(s: State, owner: Port, m: Message, rpcMethod: Method)
    requires Replies(s, owner, m, rpcMethod) && rpcMethod != OtherMethod([])
    ensures AfterOutput(s, owner, m) == Settle(s, m.requestId.value, m)
    ensures Recorded(s, m.requestId.value, m).book
         == Record(Struck(s.book, m.requestId.value), Some(rpcMethod), m)
  {
  }

  /** After the reply to a cancel, whichever posts fail, nothing of the wizard is remembered. */
  lemma {:induction false} CancelForgets(s: State, owner: Port, m: Message)
    requires Replies(s, owner, m, Cancel)
    ensures Forgotten(AfterOutput(s, owner, m).book)
  {
    ReplySettles(s, owner, m, Cancel);
    SettleSession(s, m.requestId.value, m);
  }

  /** A successful reply to a start, a next or a status is remembered, unless its posts lose the owner. */
  lemma {:induction false} SuccessIsRemembered(s: State, owner: Port, m: Message, rpcMethod: Method)
    requires Replies(s, owner, m, rpcMethod) && m.ok && rpcMethod in {Start, Next, Status}
    ensures var b := AfterOutput(s, owner, m).book;
      Remembers(s.book, m.result, b.sessionId, b.snapshot) || Forgotten(b)
    ensures Reliable(s) ==> var b := AfterOutput(s, owner, m).book;
      Remembers(s.book, m.result, b.sessionId, b.snapshot)
  {
    var id := m.requestId.value;
    ReplySettles(s, owner, m, rpcMethod);
    SettleSession(s, id, m);
    RememberedResult(Struck(s.book, id), m.result);
    if Reliable(s) { SettleKeepsSession(s, id, m); }
  }

  /** Every other reply leaves it alone, unless its posts lose the owner. */
  lemma {:induction false} OtherRepliesLeaveIt(s: State, owner: Port, m: Message, rpcMethod: Method)
    requires Replies(s, owner, m, rpcMethod) && rpcMethod != Cancel
    requires !m.ok || rpcMethod !in {Start, Next, Status}
    ensures SameSession(s.book, AfterOutput(s, owner, m).book)
    ensures Reliable(s) ==> var b := AfterOutput(s, owner, m).book;
      b.snapshot == s.book.snapshot && b.sessionId == s.book.sessionId
  {
    var id := m.requestId.value;
    if Settles(s.book, m) {
      SettleSession(s, id, m);
      if Reliable(s) { SettleKeepsSession(s, id, m); }
    } else {
      EvolvesSession(Posted(s, m), AfterOutput(s, owner, m));
      if Reliable(s) { BroadcastReliably(Posted(s, m), s.ports, Relayed(m)); }
    }
  }

  lemma {:induction false} NotifyKeepsBook(s: State, waiters: seq<Waiter>, m: Message)
    requires Elected(s) && Reliable(s)
    ensures Notify(s, waiters, m).book == s.book && Notify(s, waiters, m).ports == s.ports
    ensures Notify(s, waiters, m).wire.delivers == s.wire.delivers
  {
    NotifyReliably(s, waiters, m);
  }

  /** When posts go through, telling people changes nothing of the session. */
  lemma {:induction false} SettleKeepsSession(s: State, id: JsString, m: Message)
    requires Elected(s) && Reliable(s)
    ensures var a, b := Recorded(s, id, m).book, Settle(s, id, m).book;
      b.snapshot == a.snapshot && b.sessionId == a.sessionId
  {
    var rpcMethod := Lookup(s.book.requestMethods, id);
    var nextKey := Lookup(s.book.dedup.requestKeys, id);
    var s1 := Informed(s, id, m);
    if rpcMethod == Some(Next) && nextKey.Some? {
      var d := WithDedup(s1, Landed(s1.book.dedup, nextKey.value, m));
      var waiting := Lookup(d.book.dedup.waiters, nextKey.value);
      NotifyKeepsBook(d, if waiting.Some? then waiting.value else [], m);
    } else if rpcMethod == Some(Start) {
      NotifyKeepsBook(StartOver(s1), s1.book.startWaiters, m);
    }
  }

  // ---- Starts ---------------------------------------------------------------------------------

  predicate IsStartRequest(m: Message) {
    m.kind == RpcRequest && m.rpcMethod == Some(Start) && m.requestId.Some?
  }

  function AfterRequestOf(s: State, port: Port, m: Message): (r: State)
    requires Elected(s)
    ensures Elected(r)
  {
    Step(s, Receiving(port, Ordinary(m)))
  }

  /** The one message that `r` posted besides what `s` had posted. */
  ghost predicate PostsOne(s: State, r: State, port: Port, d: Delivery) {
    r.wire.log == s.wire.log + [Post(port, d)]
  }

  /**
   * A start is answered with the remembered snapshot if there is one, waits if a start is in flight,
   * and otherwise goes to the owner, who is asked on behalf of the port.
   */
  lemma {:induction false} StartRouted(s: State, port: Port, m: Message, owner: Port)
    requires Elected(s) && Reliable(s) && s.owner == Some(owner) && IsStartRequest(m)
    ensures var r, id := AfterRequestOf(s, port, m), m.requestId.value;
      if s.book.snapshot.Some? then
        && r.book == s.book && |r.wire.log| == |s.wire.log| + 1 && r.wire.log[..|s.wire.log|] == s.wire.log
        && var post := r.wire.log[|s.wire.log|];
        && post.port == port && post.delivery.Relayed?
        && var answer := post.delivery.message;
        && answer.kind == RpcResponse && answer.requestId == Some(id) && answer.ok && answer.result == s.book.snapshot
      else if s.book.startInFlight then
        r.wire.log == s.wire.log && r.book == s.book.(startWaiters := s.book.startWaiters + [Waiter(port, id)])
      else
        && PostsOne(s, r, owner, Input(m))
        && r.book.startInFlight && Lookup(r.book.requestOwners, id) == Some(port)
  {
  }

  /** After a cancel, the next start goes to the owner if none is in flight. */
  lemma {:induction false} StartAfterCancel(s: State, owner: Port, m: Message, port: Port, start: Message)
    requires Replies(s, owner, m, Cancel) && Reliable(s) && !s.book.startInFlight && IsStartRequest(start)
    ensures var r := AfterOutput(s, owner, m); PostsOne(r, AfterRequestOf(r, port, start), owner, Input(start))
  {
    var r := AfterOutput(s, owner, m);
    ReplySettles(s, owner, m, Cancel);
    CancelForgets(s, owner, m);
    InformedReliably(s, m.requestId.value, m);
    StartRouted(r, port, start, owner);
  }

  // ---- Successes are kept ---------------------------------------------------------------------

  /** Nothing but successful replies is kept for repetitions. */
  ghost predicate OnlySuccesses(d: Dedup) {
    && (forall i :: 0 <= i < |d.replies| ==> d.replies[i].response.ok)
    && (forall key :: key in d.cache.responses ==> d.cache.responses[key].ok)
  }

  lemma {:induction false} EvolvesKeepsSuccesses(s: State, r: State)
    requires Evolves(s, r) && OnlySuccesses(s.book.dedup)
    ensures OnlySuccesses(r.book.dedup)
  {
  }

  lemma {:induction false} TrimKeeps(c: Cache)
    ensures forall key :: key in CacheTrim(c).responses ==>
      key in c.responses && CacheTrim(c).responses[key] == c.responses[key]
    decreases |c.keys|
  {
    if |c.keys| > CACHE_LIMIT { TrimKeeps(Cache(c.keys[1..], c.responses - {c.keys[0]})); }
  }

  lemma {:induction false} LandedSuccesses(d: Dedup, key: JsString, m: Message)
    requires OnlySuccesses(d)
    ensures OnlySuccesses(Landed(d, key, m))
  {
    TrimKeeps(CacheSet(d.cache, key, m));
  }

  lemma {:induction false} SettleNextKeepsSuccesses(s: State, key: JsString, m: Message)
    requires Elected(s) && OnlySuccesses(s.book.dedup)
    ensures OnlySuccesses(SettleNext(s, key, m).book.dedup)
  {
    LandedSuccesses(s.book.dedup, key, m);
    EvolvesKeepsSuccesses(WithDedup(s, Landed(s.book.dedup, key, m)), NextTold(s, key, m));
  }

  lemma {:induction false} SettleKeepsSuccesses(s: State, id: JsString, m: Message)
    requires Elected(s) && OnlySuccesses(s.book.dedup)
    ensures OnlySuccesses(Settle(s, id, m).book.dedup)
  {
    var rpcMethod := Lookup(s.book.requestMethods, id);
    var nextKey := Lookup(s.book.dedup.requestKeys, id);
    var s1 := Informed(s, id, m);
    EvolvesKeepsSuccesses(Recorded(s, id, m), s1);
    if rpcMethod == Some(Next) && nextKey.Some? { SettleNextKeepsSuccesses(s1, nextKey.value, m); }
    if rpcMethod == Some(Start) { EvolvesKeepsSuccesses(StartOver(s1), SettleStart(s1, m)); }
  }

  lemma {:induction false} StepKeepsSuccesses(s: State, e: Event)
    requires Elected(s) && OnlySuccesses(s.book.dedup)
    ensures OnlySuccesses(Step(s, e).book.dedup)
  {
    var r := Step(s, e);
    match e
    case Connecting(port) =>
      ConnectEvolves(s, port);
      EvolvesKeepsSuccesses(Admitted(s, port), r);
    case Receiving(_, Disconnecting) => EvolvesKeepsSuccesses(s, r);
    case Receiving(port, OwnerOutput(m)) =>
      if Some(port) == s.owner {
        if Settles(s.book, m) { SettleKeepsSuccesses(s, m.requestId.value, m); }
        else { EvolvesKeepsSuccesses(Posted(s, m), r); }
      }
    case Receiving(_, RuntimeStart) => if s.owner.Some? { EvolvesKeepsSuccesses(s.(runtimeRequested := true), r); }
    case Receiving(port, Ordinary(m)) =>
      if IsRuntimeOperation(m) && s.owner.Some? { OperateKeepsSuccesses(s, port, m); }
  }

  lemma {:induction false} OperateKeepsSuccesses(s: State, port: Port, m: Message)
    requires Elected(s) && OnlySuccesses(s.book.dedup)
    ensures OnlySuccesses(Operate(s, port, m).book.dedup)
  {
    var r := Operate(s, port, m);
    if m.requestId.None? { EvolvesKeepsSuccesses(s, r); }
    else {
      match RoutingOf(s.book, m)
      case FromCache(_) => EvolvesKeepsSuccesses(s, r);
      case BehindNext(_) =>
      case FromSnapshot => EvolvesKeepsSuccesses(s, r);
      case BehindStart =>
      case ToOwner => EvolvesKeepsSuccesses(s.(book := Enter(s.book, port, m.requestId.value, m)), r);
    }
  }

  /** At every state of every run, whichever posts fail. */
  lemma {:induction false} RunKeepsSuccesses(delivers: nat -> bool, events: seq<Event>)
    ensures OnlySuccesses(Run(Initial(delivers), events).book.dedup)
  {
    if events != [] {
      RunKeepsSuccesses(delivers, events[..|events| - 1]);
      StepKeepsSuccesses(Run(Initial(delivers), events[..|events| - 1]), events[|events| - 1]);
    }
  }

  /**
   * When posts go through, a successful reply to a keyed next is added to what is kept, after
   * whatever its own session change or nothing cleared, and a failed one is not; either way its key
   * is free again.
   */
  lemma {:induction false} SuccessIsKept(s: State, owner: Port, m: Message, key: JsString)
    requires Replies(s, owner, m, Next) && Reliable(s)
    requires Lookup(s.book.dedup.requestKeys, m.requestId.value) == Some(key)
    ensures var after := AfterOutput(s, owner, m).book; var d := after.dedup;
      var changed := Remembered(s.book.sessionId) && after.sessionId != s.book.sessionId;
      var before := if changed then [] else s.book.dedup.replies;
      && d.replies == (if m.ok then before + [Reply(key, m)] else s.book.dedup.replies)
      && key !in d.inFlight && key !in d.waiters
  {
    var id := m.requestId.value;
    ReplySettles(s, owner, m, Next);
    RecordFacts(s.book, id, m);
    RememberedResult(Struck(s.book, id), m.result);
    SettleKeepsSession(s, id, m);
    InformedReliably(s, id, m);
    var s1 := Informed(s, id, m);
    var d := WithDedup(s1, Landed(s1.book.dedup, key, m));
    var waiting := Lookup(d.book.dedup.waiters, key);
    NotifyKeepsBook(d, if waiting.Some? then waiting.value else [], m);
  }

  // ---- Who is told ----------------------------------------------------------------------------

  /** A keyed next is answered from the cache, waits for the one in flight, or goes to the owner. */
  lemma {:induction false} NextRouted(s: State, port: Port, m: Message, owner: Port)
    requires Elected(s) && Reliable(s) && s.owner == Some(owner) && m.requestId.Some?
    requires m.kind == RpcRequest && m.rpcMethod == Some(Next) && m.params.Answering? && !m.params.answer.Throwing?
    ensures var r, id, key, d := AfterRequestOf(s, port, m), m.requestId.value, Key(m.params), s.book.dedup;
      if key in d.cache.responses then
        && r.book == s.book
        && PostsOne(s, r, port, Relayed(d.cache.responses[key].(requestId := Some(id))))
      else if key in d.inFlight then
        && r.wire.log == s.wire.log
        && key in r.book.dedup.waiters
        && r.book.dedup.waiters[key] == (if key in d.waiters then d.waiters[key] else []) + [Waiter(port, id)]
      else
        && PostsOne(s, r, owner, Input(m))
        && key in r.book.dedup.inFlight && Lookup(r.book.dedup.requestKeys, id) == Some(key)
  {
  }

  /** Any other operation goes to the owner, and no other message has any effect. */
  lemma {:induction false} OthersRouted(s: State, port: Port, m: Message, owner: Port)
    requires Elected(s) && Reliable(s) && s.owner == Some(owner)
    ensures m.kind == CapabilityAttach || m.kind == CapabilityConfigure ==>
      PostsOne(s, AfterRequestOf(s, port, m), owner, Input(m))
    ensures m.kind == RpcRequest && m.rpcMethod != Some(Start) && m.rpcMethod != Some(Next) ==>
      PostsOne(s, AfterRequestOf(s, port, m), owner, Input(m))
    ensures m.kind == RpcRequest && m.rpcMethod == Some(Next)
            && (m.params.OtherParams? || m.params.answer.Throwing?) ==>
      PostsOne(s, AfterRequestOf(s, port, m), owner, Input(m))
    ensures m.kind == RpcRequest && m.requestId.None? ==> PostsOne(s, AfterRequestOf(s, port, m), owner, Input(m))
    ensures m.kind != RpcRequest && m.kind != CapabilityAttach && m.kind != CapabilityConfigure ==>
      AfterRequestOf(s, port, m) == s
  {
  }

  predicate IsReply(m: Message) {
    m.requestId.Some? && (m.kind == RpcResponse || m.kind == CapabilityResponse || m.kind == ConfigResponse)
  }

  /** Every port is told the message, in order, and nobody anything else. */
  ghost predicate ToldToAll(s: State, r: State, m: Message) {
    && |r.wire.log| == |s.wire.log| + |s.ports| && r.wire.log[..|s.wire.log|] == s.wire.log
    && forall i :: 0 <= i < |s.ports| ==> r.wire.log[|s.wire.log| + i] == Post(s.ports[i], Relayed(m))
  }

  /**
   * A reply goes to its requester first.  One whose requester is gone goes to nobody, but for waiters,
   * while the method of its request is known, and to everybody otherwise, like output that is no reply.
   */
  lemma {:induction false} OutputRouted(s: State, owner: Port, m: Message)
    requires Elected(s) && Reliable(s) && s.owner == Some(owner)
    ensures var r, n := AfterOutput(s, owner, m), |s.wire.log|;
      if IsReply(m) && m.requestId.value in s.book.requestOwners then
        |r.wire.log| > n && r.wire.log[n] == Post(s.book.requestOwners[m.requestId.value], Relayed(m))
      else
        var rpcMethod := if IsReply(m) then Lookup(s.book.requestMethods, m.requestId.value) else None;
        if rpcMethod.Some? && rpcMethod != Some(OtherMethod([]))
        then rpcMethod.value !in {Start, Next} ==> r.wire.log == s.wire.log
        else m.kind != GatewayReady ==> ToldToAll(s, r, m)
  {
    OutputPosts(s, m);
  }

  /** `told` is `m` as a follower is to see it: its boot mode is "shared", the owner's stands beside it. */
  ghost predicate SharedCopy(m: Message, told: Message) {
    && told.bootMode == Some(Text(Ascii("shared"))) && told.ownerBootMode == m.bootMode
    && told.kind == m.kind && told.rpcMethod == m.rpcMethod && told.requestId == m.requestId
    && told.params == m.params && told.ok == m.ok && told.result == m.result && told.rest == m.rest
  }

  /** The owner's readiness reaches the owner as it is and every other port as a shared copy. */
  lemma {:induction false} ReadinessTold(s: State, owner: Port, m: Message)
    requires Elected(s) && Reliable(s) && s.owner == Some(owner) && m.kind == GatewayReady
    ensures var r := AfterOutput(s, owner, m); var n := |s.wire.log|;
      && |r.wire.log| == n + |s.ports| && r.wire.log[n] == Post(owner, Relayed(m))
      && forall i :: 1 <= i < |s.ports| ==>
           && r.wire.log[n + i].port == s.ports[i] && r.wire.log[n + i].delivery.Relayed?
           && SharedCopy(m, r.wire.log[n + i].delivery.message)
  {
    OutputPosts(s, m);
  }

  lemma {:induction false} GreetKeeps(s: State)
    requires Elected(s) && Reliable(s) && s.ports != []
    ensures Greeted(s).(wire := s.wire) == s && Greeted(s).wire.delivers == s.wire.delivers
  {
  }

  /** After the loss of an owner, a port that connects is told to wait, and nothing of the owner that left. */
  lemma {:induction false} LossIsReplayed(s: State, owner: Port, port: Port)
    requires Elected(s) && Reliable(s) && s.owner == Some(owner) && |s.ports| > 1 && port !in s.ports
    ensures var r := Step(s, Receiving(owner, Disconnecting));
      Step(r, Connecting(port)).wire.log
      == r.wire.log + [Post(port, FollowerNotice), Post(port, Relayed(RESTORING))]
  {
    LossLeaves(s, owner);
    var r := Step(s, Receiving(owner, Disconnecting));
    ConnectPosts(r, port);
    assert PostsOnConnect(r, port) == [Post(port, FollowerNotice), Post(port, Relayed(RESTORING))];
  }

  lemma {:induction false} LossLeaves(s: State, owner: Port)
    requires Elected(s) && Reliable(s) && s.owner == Some(owner) && |s.ports| > 1
    ensures var r := Disconnect(s, Some(owner));
      r.owner.Some? && Reliable(r)
      && r.board.statusMessage == RESTORING && r.board.resultMessage.None? && r.board.readyMessage.None?
  {
    var orphaned := Orphaned(s, s.owner);
    assert s.ports[1] in orphaned.ports;
    var chosen := Chosen(orphaned);
    BroadcastReliably(chosen, chosen.ports, Relayed(RESTORING));
    GreetKeeps(Broadcast(chosen, chosen.ports, Relayed(RESTORING)));
  }

  // ---- The runtime is requested ---------------------------------------------------------------

  predicate AsksForRuntime(e: Event) { e.Receiving? && e.inbound.RuntimeStart? }

  lemma {:induction false} StepKeepsRequested(s: State, e: Event)
    requires Elected(s)
    ensures Step(s, e).runtimeRequested == (s.runtimeRequested || AsksForRuntime(e))
  {
    if e.Connecting? { ConnectEvolves(s, e.port); }
  }

  predicate SomebodyAsked(events: seq<Event>) {
    exists i :: 0 <= i < |events| && AsksForRuntime(events[i])
  }

  lemma {:induction false} AskedBefore(events: seq<Event>)
    requires events != []
    ensures var n := |events| - 1; SomebodyAsked(events) <==> SomebodyAsked(events[..n]) || AsksForRuntime(events[n])
  {
    var n := |events| - 1;
    if SomebodyAsked(events[..n]) {
      var i :| 0 <= i < n && AsksForRuntime(events[..n][i]);
      assert AsksForRuntime(events[i]);
    }
    if i :| 0 <= i < |events| && AsksForRuntime(events[i]) && i < n { assert AsksForRuntime(events[..n][i]); }
  }

  /** Whichever posts fail, a later owner is told to start the runtime exactly if somebody has asked for it. */
  lemma {:induction false} RequestedExactlyWhen(delivers: nat -> bool, events: seq<Event>)
    ensures Run(Initial(delivers), events).runtimeRequested == SomebodyAsked(events)
  {
    if events != [] {
      var before := events[..|events| - 1];
      RequestedExactlyWhen(delivers, before);
      StepKeepsRequested(Run(Initial(delivers), before), events[|events| - 1]);
      AskedBefore(events);
    }
  }
}
