/**
 * The requests that the owner holds: what was posted to it and not answered, with the messages, and
 * how the worker's maps agree with that.
 */
module Outstanding {
  import opened Options
  import opened Json
  import opened Coordination
  import opened Deduplication
  import opened WizardSession
  import opened RequestLedger
  import opened CoordinationPosts

  /** The message of each request that the present owner was given and has not answered. */
  type Held = map<JsString, Message>

  function FollowHeld(s: State, held: Held, e: Event): Held {
    match e
    case Receiving(port, Disconnecting) => if Some(port) == s.owner then map[] else held
    case Receiving(port, OwnerOutput(m)) =>
      if Some(port) == s.owner && IsResponse(m.kind) && m.requestId.Some? then held - {m.requestId.value} else held
    case Receiving(_, Ordinary(m)) =>
      if IsRuntimeOperation(m) && s.owner.Some? && m.requestId.Some? && RoutingOf(s.book, m).ToOwner?
      then held[m.requestId.value := m] else held
    case _ => held
  }

  function FollowHeldRun(s: State, held: Held, events: seq<Event>): Held
    requires Elected(s)
  {
    if events == [] then held
    else
      var before := events[..|events| - 1];
      FollowHeld(Run(s, before), FollowHeldRun(s, held, before), events[|events| - 1])
  }

  /** The ledger's outstanding requests are those held, and the worker's maps say of each what its message says. */
  ghost predicate Agrees(book: Book, led: Ledger, held: Held) {
    && held.Keys == led.outstanding
    && (forall id :: Truthy(Lookup(book.requestMethods, id)) ==> id in held)
    && (forall id :: id in held ==>
          held[id].requestId == Some(id) && Lookup(book.requestMethods, id) == held[id].rpcMethod)
    && (forall id :: id in book.dedup.requestKeys ==>
          id in held && NextKey(held[id]) == Some(book.dedup.requestKeys[id]))
  }

  lemma {:induction false} HeldAlike(b: Book, b': Book, led: Ledger, led': Ledger, held: Held)
    requires Agrees(b, led, held) && led'.outstanding == led.outstanding
    requires b'.requestMethods == b.requestMethods && b'.dedup.requestKeys == b.dedup.requestKeys
    ensures Agrees(b', led', held)
  {
  }

  /** A request that goes to the owner is held. */
  lemma {:induction false} HeldMore(b: Book, led: Ledger, led': Ledger, held: Held, port: Port, id: JsString,
                                    m: Message)
    requires Agrees(b, led, held) && id !in b.requestMethods && m.requestId == Some(id)
    requires led'.outstanding == led.outstanding + {id}
    ensures Agrees(Enter(b, port, id, m), led', held[id := m])
  {
  }

  /** A request that is answered is not held any more. */
  lemma {:induction false} HeldLess(b: Book, b': Book, led: Ledger, led': Ledger, held: Held, id: JsString)
    requires Agrees(b, led, held) && led'.outstanding == led.outstanding - {id}
    requires b'.requestMethods == b.requestMethods - {id}
    requires b'.dedup.requestKeys == map[] || b'.dedup.requestKeys == b.dedup.requestKeys - {id}
    ensures Agrees(b', led', held - {id})
  {
  }

  /** A late reply is to a request without a method, which has no key. */
  lemma {:induction false} HeldLate(b: Book, led: Ledger, led': Ledger, held: Held, id: JsString)
    requires Agrees(b, led, held) && led'.outstanding == led.outstanding - {id}
    requires !Truthy(Lookup(b.requestMethods, id)) && NextMethods(b)
    ensures Agrees(b, led', held - {id})
  {
  }

  lemma {:induction false} ReplyIsHeld(s: State, led: Ledger, held: Held, m: Message)
    requires Elected(s) && Reliable(s) && Agrees(s.book, led, held) && NextMethods(s.book)
    requires IsResponse(m.kind) && m.requestId.Some?
    ensures Agrees(RouteOwnerOutput(s, m).book, AfterReply(s, led, m.requestId.value, m), held - {m.requestId.value})
  {
    var id := m.requestId.value;
    var led' := AfterReply(s, led, id, m);
    if Settles(s.book, m) {
      SettleReliably(s, id, m);
      HeldLess(s.book, Settle(s, id, m).book, led, led', held, id);
    } else {
      HeldLate(s.book, led, led', held, id);
      BroadcastReliably(s, s.ports, Relayed(m));
    }
  }

  lemma {:induction false} OutputKeepsBook(s: State, m: Message)
    requires Elected(s) && Reliable(s) && !Settles(s.book, m)
    ensures RouteOwnerOutput(s, m).book == s.book
  {
    if m.kind == GatewayReady {
      AnnouncePosts(Posted(s, m), s.ports, m);
    } else {
      BroadcastReliably(Posted(s, m), s.ports, Relayed(m));
    }
  }

  lemma {:induction false} RequestIsHeld(s: State, led: Ledger, held: Held, port: Port, m: Message)
    requires Elected(s) && Reliable(s) && Agrees(s.book, led, held) && s.owner.Some?
    requires m.requestId.Some? && m.requestId.value !in s.book.requestMethods
    ensures Agrees(Operate(s, port, m).book, AfterRequest(s, led, port, m.requestId.value, m),
                   if RoutingOf(s.book, m).ToOwner? then held[m.requestId.value := m] else held)
  {
    var id := m.requestId.value;
    var led', b' := AfterRequest(s, led, port, id, m), Operate(s, port, m).book;
    if RoutingOf(s.book, m).ToOwner? {
      ForwardedIsEntered(s, port, id, m);
      HeldMore(s.book, led, led', held, port, id, m);
    } else {
      KeptBackIsNotEntered(s, port, m);
      HeldAlike(s.book, b', led, led', held);
    }
  }

  lemma {:induction false} ForwardedIsEntered(s: State, port: Port, id: JsString, m: Message)
    requires Elected(s) && Reliable(s) && m.requestId == Some(id) && RoutingOf(s.book, m).ToOwner? && s.owner.Some?
    ensures Operate(s, port, m).book == Enter(s.book, port, id, m)
  {
  }

  lemma {:induction false} KeptBackIsNotEntered(s: State, port: Port, m: Message)
    requires Elected(s) && Reliable(s) && m.requestId.Some? && !RoutingOf(s.book, m).ToOwner?
    ensures var b := Operate(s, port, m).book;
      b.requestMethods == s.book.requestMethods && b.dedup.requestKeys == s.book.dedup.requestKeys
  {
  }

  lemma {:induction false} DisconnectKeepsHeld(s: State, led: Ledger, held: Held, port: Port)
    requires Elected(s) && Agrees(s.book, led, held)
    ensures var e := Receiving(port, Disconnecting); Agrees(Step(s, e).book, Follow(s, led, e), FollowHeld(s, held, e))
  {
    if Some(port) != s.owner {
      HeldAlike(s.book, Disconnect(s, Some(port)).book, led, AfterDeparture(led, port), held);
    }
  }

  lemma {:induction false} StepKeepsHeld(s: State, led: Ledger, held: Held, e: Event)
    requires Elected(s) && InOrder(s, led) && Lawful(s, led, e) && Agrees(s.book, led, held)
    ensures Agrees(Step(s, e).book, Follow(s, led, e), FollowHeld(s, held, e))
  {
    match e
    case Connecting(port) =>
      ConnectPosts(s, port);
      ReliableConnect(s, port);
    case Receiving(port, Disconnecting) => DisconnectKeepsHeld(s, led, held, port);
    case Receiving(port, OwnerOutput(m)) =>
      if Some(port) == s.owner {
        if IsResponse(m.kind) && m.requestId.Some? { ReplyIsHeld(s, led, held, m); } else { OutputKeepsBook(s, m); }
      }
    case Receiving(_, RuntimeStart) =>
    case Receiving(port, Ordinary(m)) =>
      if IsRuntimeOperation(m) && s.owner.Some? && m.requestId.Some? {
        LawfulIsFresh(s, led, e);
        RequestIsHeld(s, led, held, port, m);
      }
  }

  /** The worker's maps describe what the owner holds, at every state of every lawful run. */
  lemma {:induction false} RunKeepsHeld(s: State, led: Ledger, held: Held, events: seq<Event>)
    requires Elected(s) && InOrder(s, led) && LawfulRun(s, led, events) && Agrees(s.book, led, held)
    ensures Agrees(Run(s, events).book, FollowRun(s, led, events), FollowHeldRun(s, held, events))
  {
    if events != [] {
      var n := |events| - 1;
      LawfulBefore(s, led, events, n);
      RunKeepsHeld(s, led, held, events[..n]);
      RunKeepsOrder(s, led, events[..n]);
      assert Lawful(Run(s, events[..n]), FollowRun(s, led, events[..n]), events[n]);
      LastKeepsHeld(s, led, held, events);
    }
  }

  lemma {:induction false} LastKeepsHeld(s: State, led: Ledger, held: Held, events: seq<Event>)
    requires Elected(s) && events != []
    requires var before, e := events[..|events| - 1], events[|events| - 1];
      && InOrder(Run(s, before), FollowRun(s, led, before)) && Lawful(Run(s, before), FollowRun(s, led, before), e)
      && Agrees(Run(s, before).book, FollowRun(s, led, before), FollowHeldRun(s, held, before))
    ensures Agrees(Run(s, events).book, FollowRun(s, led, events), FollowHeldRun(s, held, events))
  {
    var before, e := events[..|events| - 1], events[|events| - 1];
    StepKeepsHeld(Run(s, before), FollowRun(s, led, before), FollowHeldRun(s, held, before), e);
  }

  /** What is held was posted to the owner, as it is. */
  lemma {:induction false} HeldWasPosted(s: State, led: Ledger, held: Held, e: Event, id: JsString)
    requires Elected(s) && Reliable(s) && Lawful(s, led, e) && held.Keys <= led.requester.Keys
    requires id in FollowHeld(s, held, e) && id !in held
    ensures s.owner.Some? && Step(s, e).wire.log
            == s.wire.log + [Post(s.owner.value, Input(FollowHeld(s, held, e)[id]))]
  {
    StepPosts(s, e);
  }

  predicate KeyedFor(book: Book, held: Held, id: JsString, key: JsString) {
    id in book.dedup.requestKeys && id in held && NextKey(held[id]) == Some(key)
  }

  /**
   * Every `wizard.next` request with a key on the book is held, no two of them under one key, and the
   * keys in flight are theirs.
   */
  ghost predicate OneNextPerKey(book: Book, held: Held) {
    && book.dedup.requestKeys.Keys <= held.Keys
    && (forall id, id', key :: KeyedFor(book, held, id, key) && KeyedFor(book, held, id', key) ==> id == id')
    && (forall key :: key in book.dedup.inFlight <==> exists id :: KeyedFor(book, held, id, key))
  }

  predicate IsHeldStart(held: Held, id: JsString) { id in held && held[id].rpcMethod == Some(Start) }

  /** At most one held request names `wizard.start`, and one does exactly while the flag is set. */
  ghost predicate OneStart(book: Book, held: Held) {
    && (forall id, id' :: IsHeldStart(held, id) && IsHeldStart(held, id') ==> id == id')
    && (book.startInFlight <==> exists id :: IsHeldStart(held, id))
  }

  lemma {:induction false} KeysHeld(book: Book, led: Ledger, held: Held)
    requires Agrees(book, led, held) && OneRequestPerKey(book.dedup)
    ensures OneNextPerKey(book, held)
  {
    forall key | key in book.dedup.inFlight ensures exists id :: KeyedFor(book, held, id, key) {
      var id :| id in book.dedup.requestKeys && book.dedup.requestKeys[id] == key;
      assert KeyedFor(book, held, id, key);
    }
  }

  lemma {:induction false} StartsHeld(book: Book, led: Ledger, held: Held)
    requires Agrees(book, led, held) && StartCoalesced(book)
    ensures OneStart(book, held)
  {
    forall id ensures IsOutstandingStart(book, id) <==> IsHeldStart(held, id) {}
  }

  /** The owner holds at most one `wizard.next` per key on the book, at every state of every lawful run. */
  lemma {:induction false} OwnerHoldsOneNextPerKey(delivers: nat -> bool, events: seq<Event>)
    requires Reliable(Initial(delivers)) && LawfulRun(Initial(delivers), EMPTY_LEDGER, events)
    ensures OneNextPerKey(Run(Initial(delivers), events).book, FollowHeldRun(Initial(delivers), map[], events))
  {
    var s0 := Initial(delivers);
    RunKeepsOrder(s0, EMPTY_LEDGER, events);
    RunKeepsHeld(s0, EMPTY_LEDGER, map[], events);
    KeysHeld(Run(s0, events).book, FollowRun(s0, EMPTY_LEDGER, events), FollowHeldRun(s0, map[], events));
  }

  /** And, along every lawful run without a mislabelled operation, at most one `wizard.start`. */
  lemma {:induction false} OwnerHoldsOneStart(delivers: nat -> bool, events: seq<Event>)
    requires Reliable(Initial(delivers)) && LawfulRun(Initial(delivers), EMPTY_LEDGER, events)
    requires forall i :: 0 <= i < |events| ==> !Mislabelled(Run(Initial(delivers), events[..i]), events[i])
    ensures OneStart(Run(Initial(delivers), events).book, FollowHeldRun(Initial(delivers), map[], events))
  {
    var s0 := Initial(delivers);
    RunKeepsHeld(s0, EMPTY_LEDGER, map[], events);
    StartsStayCoalesced(s0, EMPTY_LEDGER, events);
    StartsHeld(Run(s0, events).book, FollowRun(s0, EMPTY_LEDGER, events), FollowHeldRun(s0, map[], events));
  }

  lemma {:induction false} StartsStayCoalesced(s: State, led: Ledger, events: seq<Event>)
    requires Elected(s) && InOrder(s, led) && LawfulRun(s, led, events) && s.book == EMPTY_BOOK
    requires forall i :: 0 <= i < |events| ==> !Mislabelled(Run(s, events[..i]), events[i])
    ensures StartCoalesced(Run(s, events).book)
  {
    StartsAreFresh(s, led, events);
    assert forall id :: !IsOutstandingStart(s.book, id);
    RunKeepsStart(s, events);
  }

  lemma {:induction false} StartsAreFresh(s: State, led: Ledger, events: seq<Event>)
    requires Elected(s) && InOrder(s, led) && LawfulRun(s, led, events)
    ensures forall i :: 0 <= i < |events| ==> FreshStart(Run(s, events[..i]).book, events[i])
  {
    forall i | 0 <= i < |events| ensures FreshStart(Run(s, events[..i]).book, events[i]) {
      LawfulBefore(s, led, events, i);
      RunKeepsOrder(s, led, events[..i]);
      LawfulIsFresh(Run(s, events[..i]), FollowRun(s, led, events[..i]), events[i]);
    }
  }
}
