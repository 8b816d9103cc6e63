/**
 * The request ledger.  When posts go through, request ids are fresh, connecting ports are new and
 * the owner answers only what it was given and has not answered yet, every accepted operation is
 * at each moment in exactly one place: with the owner, behind the reply to an equal `wizard.next`,
 * behind the reply to a `wizard.start`, answered once, or discarded.
 */
module RequestLedger {
  import opened Options
  import opened Json
  import opened Coordination
  import opened Deduplication

  datatype Place =
    | WithOwner
    | BehindNextReply(key: JsString, index: nat)   // in the waiter list of `key`
    | BehindStartReply(index: nat)                 // in the list of start waiters
    | Answered(index: nat)                         // by this post of the log
    | Discarded

  /**
   * For each accepted request id the port it came from and its place; `outstanding` are the ids
   * that the present owner was given and has not answered.
   */
  datatype Ledger = Ledger(requester: map<JsString, Port>, place: map<JsString, Place>, outstanding: set<JsString>)

  const EMPTY_LEDGER := Ledger(map[], map[], {})

  predicate AnswersTo(d: Delivery, id: JsString) {
    d.Relayed? && IsResponse(d.message.kind) && d.message.requestId == Some(id)
  }

  /** Is the operation `id` really there, in the worker's variables or on the wire? */
  ghost predicate Located(s: State, requester: map<JsString, Port>, id: JsString, place: Place) {
    match place
    case WithOwner => id in s.book.requestOwners
    case BehindNextReply(key, i) =>
      && key in s.book.dedup.waiters && i < |s.book.dedup.waiters[key]|
      && s.book.dedup.waiters[key][i].requestId == id
    case BehindStartReply(i) => i < |s.book.startWaiters| && s.book.startWaiters[i].requestId == id
    case Answered(i) =>
      && i < |s.wire.log| && AnswersTo(s.wire.log[i].delivery, id)
      && id in requester && s.wire.log[i].port == requester[id]
    case Discarded => false
  }

  /** An operation is found in the place the ledger gives and in no other; a discarded one is found nowhere. */
  ghost predicate Accounted(s: State, led: Ledger) {
    && led.place.Keys == led.requester.Keys
    && (forall id, place :: Located(s, led.requester, id, place) ==> Lookup(led.place, id) == Some(place))
    && (forall id :: id in led.place && !led.place[id].Discarded? ==> Located(s, led.requester, id, led.place[id]))
  }

  /** Whoever is recorded for a request is the port it came from. */
  ghost predicate RequestersAgree(s: State, led: Ledger) {
    && (forall id :: id in s.book.requestOwners ==> Lookup(led.requester, id) == Some(s.book.requestOwners[id]))
    && (forall key, i :: key in s.book.dedup.waiters && 0 <= i < |s.book.dedup.waiters[key]| ==>
          var w := s.book.dedup.waiters[key][i]; Lookup(led.requester, w.requestId) == Some(w.port))
    && (forall i :: 0 <= i < |s.book.startWaiters| ==>
          var w := s.book.startWaiters[i]; Lookup(led.requester, w.requestId) == Some(w.port))
  }

  /** What is kept for replay is no reply. */
  predicate BoardKinds(board: Board) {
    && board.statusMessage.kind == RuntimeStatus
    && (board.readyMessage.Some? ==> board.readyMessage.value.kind == GatewayReady)
    && (board.resultMessage.Some? ==> board.resultMessage.value.kind == RuntimeResult)
  }

  /** Nothing on the book, in the cache or on the wire speaks of a request that was never accepted. */
  ghost predicate NothingForeign(s: State, led: Ledger) {
    && BoardKinds(s.board)
    && s.book.requestMethods.Keys <= led.requester.Keys
    && s.book.dedup.requestKeys.Keys <= led.requester.Keys
    && (forall key :: key in s.book.dedup.cache.responses ==> IsResponse(s.book.dedup.cache.responses[key].kind))
    && (forall i, id :: 0 <= i < |s.wire.log| && AnswersTo(s.wire.log[i].delivery, id) ==> id in led.requester)
  }

  /** The owner holds what is pending, and replies still due to requesters that left. */
  ghost predicate OutstandingAgrees(s: State, led: Ledger) {
    && (forall id :: id in led.place && led.place[id].WithOwner? ==> id in led.outstanding)
    && (forall id :: id in led.outstanding ==>
          && id in led.place && id in led.requester
          && (led.place[id].WithOwner? || (led.place[id].Discarded? && led.requester[id] !in s.ports)))
  }

  ghost predicate Sound(s: State, led: Ledger) {
    Accounted(s, led) && RequestersAgree(s, led) && NothingForeign(s, led) && OutstandingAgrees(s, led)
  }

  /** What the environment does: new ports connect, fresh requests arrive, the owner answers what is outstanding. */
  ghost predicate Lawful(s: State, led: Ledger, e: Event) {
    match e
    case Connecting(port) => port !in s.ports && forall id :: id in led.requester ==> led.requester[id] != port
    case Receiving(port, OwnerOutput(m)) =>
      Some(port) == s.owner && IsResponse(m.kind) && m.requestId.Some? ==> m.requestId.value in led.outstanding
    case Receiving(_, Ordinary(m)) => m.requestId.Some? ==> m.requestId.value !in led.requester
    case Receiving(_, _) => true
  }

  // ---- How the ledger moves -------------------------------------------------------------------

  /** Where the worker puts an accepted operation. */
  function Placement(s: State, m: Message): Place {
    match RoutingOf(s.book, m)
    case FromCache(_) => Answered(|s.wire.log|)
    case BehindNext(key) =>
      BehindNextReply(key, if key in s.book.dedup.waiters then |s.book.dedup.waiters[key]| else 0)
    case FromSnapshot => Answered(|s.wire.log|)
    case BehindStart => BehindStartReply(|s.book.startWaiters|)
    case ToOwner => WithOwner
  }

  function AfterRequest(s: State, led: Ledger, port: Port, id: JsString, m: Message): Ledger {
    var place := Placement(s, m);
    Ledger(led.requester[id := port], led.place[id := place],
           if place.WithOwner? then led.outstanding + {id} else led.outstanding)
  }

  /** The owner left: every operation that is not answered is gone. */
  function AfterOwnerLoss(led: Ledger): Ledger {
    led.(place := map id | id in led.place :: if led.place[id].Answered? then led.place[id] else Discarded,
         outstanding := {})
  }

  /** Another port left: what it had with the owner is gone. */
  function AfterDeparture(led: Ledger, port: Port): Ledger {
    led.(place := map id | id in led.place ::
      if led.place[id].WithOwner? && Lookup(led.requester, id) == Some(port) then Discarded else led.place[id])
  }

  /** Does the reply change the session, or is it one to `wizard.cancel`? */
  predicate ClearsDeduplication(book: Book, id: JsString, m: Message) {
    var rpcMethod := Lookup(book.requestMethods, id);
    || rpcMethod == Some(Cancel)
    || (m.ok && rpcMethod in {Some(Start), Some(Next), Some(Status)} && ChangesSession(book, m.result))
  }

  function PlaceAfterReply(s: State, place: Place, other: JsString, id: JsString, m: Message): Place {
    var rpcMethod := Lookup(s.book.requestMethods, id);
    var told := |s.wire.log| + if id in s.book.requestOwners then 1 else 0;
    match place
    case WithOwner => if other == id then Answered(|s.wire.log|) else place
    case BehindNextReply(key, i) =>
      if ClearsDeduplication(s.book, id, m) then Discarded
      else if rpcMethod == Some(Next) && Lookup(s.book.dedup.requestKeys, id) == Some(key) then Answered(told + i)
      else place
    case BehindStartReply(i) => if rpcMethod == Some(Start) then Answered(told + i) else place
    case _ => place
  }

  function AfterReply(s: State, led: Ledger, id: JsString, m: Message): Ledger {
    led.(place := if Settles(s.book, m)
                  then map other | other in led.place :: PlaceAfterReply(s, led.place[other], other, id, m)
                  else led.place,
         outstanding := led.outstanding - {id})
  }

  function Follow(s: State, led: Ledger, e: Event): Ledger {
    match e
    case Receiving(port, Disconnecting) =>
      if Some(port) == s.owner then AfterOwnerLoss(led) else AfterDeparture(led, port)
    case Receiving(port, OwnerOutput(m)) =>
      if Some(port) == s.owner && IsResponse(m.kind) && m.requestId.Some?
      then AfterReply(s, led, m.requestId.value, m) else led
    case Receiving(port, Ordinary(m)) =>
      if IsRuntimeOperation(m) && s.owner.Some? && m.requestId.Some?
      then AfterRequest(s, led, port, m.requestId.value, m) else led
    case _ => led
  }

  // ---- Posts that go through ------------------------------------------------------------------

  /** `s` after posting `posts`. */
  ghost predicate PostedExactly(s: State, r: State, posts: seq<Post>) {
    && r.(wire := s.wire) == s
    && r.wire.delivers == s.wire.delivers
    && r.wire.log == s.wire.log + posts
  }

  function ToAll(targets: seq<Port>, d: Delivery): seq<Post> {
    seq(|targets|, i requires 0 <= i < |targets| => Post(targets[i], d))
  }

  function ToWaiters(waiters: seq<Waiter>, m: Message): seq<Post> {
    seq(|waiters|, i requires 0 <= i < |waiters| =>
      Post(waiters[i].port, Relayed(Addressed(m, waiters[i].requestId))))
  }

  lemma {:induction false} SendReliably(s: State, port: Port, d: Delivery)
    requires Elected(s) && Reliable(s)
    ensures PostedExactly(s, Send(s, Some(port), d), [Post(port, d)])
  {
  }

  lemma {:induction false} BroadcastReliably(s: State, targets: seq<Port>, d: Delivery)
    requires Elected(s) && Reliable(s)
    ensures PostedExactly(s, Broadcast(s, targets, d), ToAll(targets, d))
    decreases |targets|
  {
    if targets == [] {
      assert s.wire.log + ToAll(targets, d) == s.wire.log;
    } else {
      var s1 := Send(s, Some(targets[0]), d);
      BroadcastReliably(s1, targets[1..], d);
      assert [Post(targets[0], d)] + ToAll(targets[1..], d) == ToAll(targets, d);
    }
  }

  lemma {:induction false} NotifyReliably(s: State, waiters: seq<Waiter>, m: Message)
    requires Elected(s) && Reliable(s)
    ensures PostedExactly(s, Notify(s, waiters, m), ToWaiters(waiters, m))
    decreases |waiters|
  {
    if waiters == [] {
      assert s.wire.log + ToWaiters(waiters, m) == s.wire.log;
    } else {
      var post := Post(waiters[0].port, Relayed(Addressed(m, waiters[0].requestId)));
      var s1 := Send(s, Some(waiters[0].port), Relayed(Addressed(m, waiters[0].requestId)));
      NotifyReliably(s1, waiters[1..], m);
      assert [post] + ToWaiters(waiters[1..], m) == ToWaiters(waiters, m);
      assert s.wire.log + [post] + ToWaiters(waiters[1..], m) == s.wire.log + ([post] + ToWaiters(waiters[1..], m));
    }
  }

  // ---- Posts that answer nobody ---------------------------------------------------------------

  /** The post is no answer for the port it goes to. */
  ghost predicate Harmless(led: Ledger, post: Post) {
    forall id :: AnswersTo(post.delivery, id) ==> id in led.requester && led.requester[id] != post.port
  }

  /** `r` differs from `s` only in ports, messages kept for replay and harmless posts. */
  ghost predicate Quiet(s: State, r: State, led: Ledger) {
    && r.book == s.book && BoardKinds(r.board)
    && |s.wire.log| <= |r.wire.log| && r.wire.log[..|s.wire.log|] == s.wire.log
    && (forall i :: |s.wire.log| <= i < |r.wire.log| ==> Harmless(led, r.wire.log[i]))
    && (forall id :: id in led.requester && led.requester[id] in r.ports ==> led.requester[id] in s.ports)
  }

  lemma {:induction false} QuietKeepsSound(s: State, r: State, led: Ledger)
    requires Sound(s, led) && Quiet(s, r, led)
    ensures Sound(r, led)
  {
    assert forall i :: 0 <= i < |s.wire.log| ==> r.wire.log[i] == s.wire.log[..][i];
    forall id, place | Located(r, led.requester, id, place)
      ensures Located(s, led.requester, id, place)
    {
    }
    forall id | id in led.place && !led.place[id].Discarded?
      ensures Located(r, led.requester, id, led.place[id])
    {
      assert Located(s, led.requester, id, led.place[id]);
    }
  }

  lemma {:induction false} QuietPosts(s: State, r: State, led: Ledger, posts: seq<Post>)
    requires r.book == s.book && BoardKinds(r.board) && r.wire.log == s.wire.log + posts
    requires forall i :: 0 <= i < |posts| ==> Harmless(led, posts[i])
    requires forall id :: id in led.requester && led.requester[id] in r.ports ==> led.requester[id] in s.ports
    ensures Quiet(s, r, led)
  {
    forall i | |s.wire.log| <= i < |r.wire.log| ensures Harmless(led, r.wire.log[i]) {
      assert r.wire.log[i] == posts[i - |s.wire.log|];
    }
  }

  // ---- Ports come and go ----------------------------------------------------------------------

  lemma {:induction false} QuietTransitive(s: State, m: State, r: State, led: Ledger)
    requires Quiet(s, m, led) && Quiet(m, r, led)
    ensures Quiet(s, r, led)
  {
    var n := |s.wire.log|;
    assert r.wire.log[..n] == r.wire.log[..|m.wire.log|][..n];
    forall i | n <= i < |r.wire.log| ensures Harmless(led, r.wire.log[i]) {
      if i < |m.wire.log| { assert r.wire.log[i] == r.wire.log[..|m.wire.log|][i]; }
    }
  }

  /** Another harmless post. */
  lemma {:induction false} QuietSend(s: State, m: State, led: Ledger, port: Port, d: Delivery)
    requires Quiet(s, m, led) && Elected(m) && Reliable(m) && Harmless(led, Post(port, d))
    ensures var r := Send(m, Some(port), d);
      Quiet(s, r, led) && Reliable(r) && r.(wire := m.wire) == m
  {
    SendReliably(m, port, d);
    QuietPosts(m, Send(m, Some(port), d), led, [Post(port, d)]);
    QuietTransitive(s, m, Send(m, Some(port), d), led);
  }

  lemma {:induction false} ConnectReliably(s: State, led: Ledger, port: Port)
    requires Elected(s) && Reliable(s) && BoardKinds(s.board)
    requires forall id :: id in led.requester ==> led.requester[id] != port
    ensures Quiet(s, Connect(s, port), led)
  {
    var s1 := Admitted(s, port);
    QuietPosts(s, s1, led, []);
    var notice := if s.owner.None? then OwnerNotice else FollowerNotice;
    QuietSend(s, s1, led, port, notice);
    var s2 := Send(s1, Some(port), notice);
    QuietSend(s, s2, led, port, Relayed(s2.board.statusMessage));
    var s3 := Send(s2, Some(port), Relayed(s2.board.statusMessage));
    if s.board.resultMessage.Some? { QuietSend(s, s3, led, port, Relayed(s.board.resultMessage.value)); }
    if s.board.readyMessage.Some? {
      var s4 := if s.board.resultMessage.Some? then Send(s3, Some(port), Relayed(s.board.resultMessage.value)) else s3;
      var ready := s.board.readyMessage.value;
      QuietSend(s, s4, led, port, Relayed(if Some(port) == s4.owner then ready else SharedReady(ready)));
    }
  }

  lemma {:induction false} GreetReliably(s: State, m: State, led: Ledger)
    requires Quiet(s, m, led) && Elected(m) && Reliable(m) && m.owner.Some?
    ensures Quiet(s, Greeted(m), led) && Greeted(m).(wire := m.wire) == m
  {
    QuietSend(s, m, led, m.owner.value, OwnerNotice);
    QuietSend(s, Send(m, m.owner, OwnerNotice), led, m.owner.value, StartNotice);
  }

  lemma {:induction false} RestoringReliably(s: State, led: Ledger)
    requires Distinct(s.ports) && Reliable(s) && s.ports != []
    ensures var r := Broadcast(Chosen(s), s.ports, Relayed(RESTORING));
      Quiet(s, r, led) && r.(wire := s.wire) == Chosen(s) && r.wire.delivers == s.wire.delivers
  {
    BroadcastReliably(Chosen(s), s.ports, Relayed(RESTORING));
    QuietPosts(s, Broadcast(Chosen(s), s.ports, Relayed(RESTORING)), led, ToAll(s.ports, Relayed(RESTORING)));
  }

  lemma {:induction false} ChooseReliably(s: State, led: Ledger)
    requires Distinct(s.ports) && s.book == EMPTY_BOOK && Reliable(s) && BoardKinds(s.board)
    ensures Quiet(s, ChooseOwner(s), led) && ChooseOwner(s).ports == s.ports
  {
    if s.ports == [] {
      QuietPosts(s, ChooseOwner(s), led, []);
    } else {
      RestoringReliably(s, led);
      GreetReliably(s, Broadcast(Chosen(s), s.ports, Relayed(RESTORING)), led);
    }
  }

  lemma {:induction false} OwnerLossKeepsSound(s: State, led: Ledger, port: Port)
    requires Elected(s) && Reliable(s) && Sound(s, led) && Some(port) == s.owner
    ensures Sound(Disconnect(s, Some(port)), AfterOwnerLoss(led))
  {
    var led' := AfterOwnerLoss(led);
    var s1 := s.(ports := Without(s.ports, Some(port)), owner := None, book := EMPTY_BOOK, tenure := s.tenure + 1);
    assert Sound(s1, led') by {
      forall id, place | Located(s1, led'.requester, id, place)
        ensures Lookup(led'.place, id) == Some(place)
      {
        assert Located(s, led.requester, id, place);
      }
      forall id | id in led'.place && !led'.place[id].Discarded?
        ensures Located(s1, led'.requester, id, led'.place[id])
      {
        assert Located(s, led.requester, id, led.place[id]);
      }
    }
    ChooseReliably(s1, led');
    QuietKeepsSound(s1, Disconnect(s, Some(port)), led');
  }

  lemma {:induction false} DepartureKeepsSound(s: State, led: Ledger, port: Port)
    requires Elected(s) && Sound(s, led) && Some(port) != s.owner
    ensures Sound(Disconnect(s, Some(port)), AfterDeparture(led, port))
  {
    var r, led' := Disconnect(s, Some(port)), AfterDeparture(led, port);
    forall id, place | Located(r, led'.requester, id, place)
      ensures Lookup(led'.place, id) == Some(place)
    {
      assert Located(s, led.requester, id, place);
    }
    forall id | id in led'.place && !led'.place[id].Discarded?
      ensures Located(r, led'.requester, id, led'.place[id])
    {
      assert Located(s, led.requester, id, led.place[id]);
    }
  }

  // ---- Requests -------------------------------------------------------------------------------

  lemma {:induction false} FreshIsNowhere(s: State, led: Ledger, id: JsString)
    requires Accounted(s, led) && id !in led.requester
    ensures forall place :: !Located(s, led.requester, id, place)
  {
  }

  /** A state that differs by one more operation, found in `place` only. */
  lemma {:induction false} NewPlaceKeepsAccounted(s: State, r: State, led: Ledger, port: Port, id: JsString, m: Message)
    requires Sound(s, led) && id !in led.requester
    requires var led' := AfterRequest(s, led, port, id, m);
      && (forall other, place :: other != id ==>
            (Located(r, led'.requester, other, place) <==> Located(s, led.requester, other, place)))
      && (forall place :: Located(r, led'.requester, id, place) <==> place == Placement(s, m))
    ensures Accounted(r, AfterRequest(s, led, port, id, m))
  {
  }

  lemma {:induction false} AnsweredAtOnceKeepsSound(s: State, r: State, led: Ledger, port: Port, id: JsString,
                                                    m: Message, answer: Message)
    requires Sound(s, led) && id !in led.requester && IsResponse(answer.kind)
    requires PostedExactly(s, r, [Post(port, Relayed(Addressed(answer, id)))])
    requires Placement(s, m) == Answered(|s.wire.log|)
    ensures Sound(r, AfterRequest(s, led, port, id, m))
  {
    var led' := AfterRequest(s, led, port, id, m);
    AnsweredPlaces(s, r, led, port, id, m, answer);
    NewPlaceKeepsAccounted(s, r, led, port, id, m);
  }

  lemma {:induction false} AnsweredPlaces(s: State, r: State, led: Ledger, port: Port, id: JsString, m: Message,
                                          answer: Message)
    requires Sound(s, led) && id !in led.requester && IsResponse(answer.kind)
    requires PostedExactly(s, r, [Post(port, Relayed(Addressed(answer, id)))])
    requires Placement(s, m) == Answered(|s.wire.log|)
    ensures var requester := led.requester[id := port];
      && (forall other, place :: other != id ==>
            (Located(r, requester, other, place) <==> Located(s, led.requester, other, place)))
      && (forall place :: Located(r, requester, id, place) <==> place == Placement(s, m))
      && (forall i, other :: 0 <= i < |r.wire.log| && AnswersTo(r.wire.log[i].delivery, other) ==> other in requester)
  {
    assert forall other :: AnswersTo(r.wire.log[|s.wire.log|].delivery, other) <==> other == id;
    assert forall i :: 0 <= i < |s.wire.log| ==> r.wire.log[i] == s.wire.log[i];
    FreshIsNowhere(s, led, id);
    var requester := led.requester[id := port];
    forall place ensures Located(r, requester, id, place) <==> place == Placement(s, m) {
      assert !Located(s, led.requester, id, place);
    }
  }

  /** After joining a queue, the newcomer is last in it and everybody else where they were. */
  lemma {:induction false} EnqueuePlaces(waiters: map<JsString, seq<Waiter>>, key: JsString, w: Waiter,
                                         key': JsString, i: nat)
    ensures var r := Enqueue(waiters, key, w);
      var end := if key in waiters then |waiters[key]| else 0;
      && (key' in r && i < |r[key']| <==> (key' in waiters && i < |waiters[key']|) || (key' == key && i == end))
      && (key' in r && i < |r[key']| ==> r[key'][i] == if key' == key && i == end then w else waiters[key'][i])
  {
  }

  lemma {:induction false} BehindNextLocated(s: State, r: State, requester: map<JsString, Port>, key: JsString,
                                             w: Waiter, other: JsString, place: Place)
    requires r == WithDedup(s, s.book.dedup.(waiters := Enqueue(s.book.dedup.waiters, key, w)))
    requires place.BehindNextReply?
    ensures var end := if key in s.book.dedup.waiters then |s.book.dedup.waiters[key]| else 0;
      Located(r, requester, other, place)
      <==> Located(s, requester, other, place) || (place == BehindNextReply(key, end) && other == w.requestId)
  {
    EnqueuePlaces(s.book.dedup.waiters, key, w, place.key, place.index);
  }

  lemma {:induction false} BehindNextAccounted(s: State, r: State, led: Ledger, port: Port, id: JsString, m: Message)
    requires Sound(s, led) && id !in led.requester && RoutingOf(s.book, m).BehindNext?
    requires var key := RoutingOf(s.book, m).key;
      r == WithDedup(s, s.book.dedup.(waiters := Enqueue(s.book.dedup.waiters, key, Waiter(port, id))))
    ensures Accounted(r, AfterRequest(s, led, port, id, m))
  {
    var led' := AfterRequest(s, led, port, id, m);
    FreshIsNowhere(s, led, id);
    forall other, place | other != id
      ensures Located(r, led'.requester, other, place) <==> Located(s, led.requester, other, place)
    {
      if place.BehindNextReply? {
        BehindNextLocated(s, r, led.requester, RoutingOf(s.book, m).key, Waiter(port, id), other, place);
      }
    }
    forall place ensures Located(r, led'.requester, id, place) <==> place == Placement(s, m) {
      assert !Located(s, led.requester, id, place);
      if place.BehindNextReply? {
        BehindNextLocated(s, r, led.requester, RoutingOf(s.book, m).key, Waiter(port, id), id, place);
      }
    }
    NewPlaceKeepsAccounted(s, r, led, port, id, m);
  }

  lemma {:induction false} BehindNextAgrees(s: State, r: State, led: Ledger, port: Port, id: JsString, m: Message)
    requires RequestersAgree(s, led) && id !in led.requester && RoutingOf(s.book, m).BehindNext?
    requires var key := RoutingOf(s.book, m).key;
      r == WithDedup(s, s.book.dedup.(waiters := Enqueue(s.book.dedup.waiters, key, Waiter(port, id))))
    ensures RequestersAgree(r, AfterRequest(s, led, port, id, m))
  {
    var led' := AfterRequest(s, led, port, id, m);
    forall key, i | key in r.book.dedup.waiters && 0 <= i < |r.book.dedup.waiters[key]|
      ensures var w := r.book.dedup.waiters[key][i]; Lookup(led'.requester, w.requestId) == Some(w.port)
    {
      EnqueuePlaces(s.book.dedup.waiters, RoutingOf(s.book, m).key, Waiter(port, id), key, i);
    }
  }

  /** One more requester does no harm to what is on the book and on the wire. */
  lemma {:induction false} RequesterAdded(s: State, r: State, led: Ledger, led': Ledger, id: JsString)
    requires NothingForeign(s, led) && OutstandingAgrees(s, led) && id !in led.requester
    requires r.ports == s.ports && r.board == s.board && r.wire == s.wire
    requires r.book.requestMethods == s.book.requestMethods
    requires r.book.dedup.requestKeys == s.book.dedup.requestKeys && r.book.dedup.cache == s.book.dedup.cache
    requires led.requester.Keys <= led'.requester.Keys && led'.outstanding == led.outstanding
    requires forall other :: other in led.requester ==> led'.requester[other] == led.requester[other]
    requires led.place.Keys == led.requester.Keys && led'.place.Keys == led.place.Keys + {id}
    requires forall other :: other in led.place ==> led'.place[other] == led.place[other]
    requires !led'.place[id].WithOwner?
    ensures NothingForeign(r, led') && OutstandingAgrees(r, led')
  {
  }

  lemma {:induction false} BehindNextKeepsSound(s: State, r: State, led: Ledger, port: Port, id: JsString, m: Message)
    requires Sound(s, led) && id !in led.requester && RoutingOf(s.book, m).BehindNext?
    requires var key := RoutingOf(s.book, m).key;
      r == WithDedup(s, s.book.dedup.(waiters := Enqueue(s.book.dedup.waiters, key, Waiter(port, id))))
    ensures Sound(r, AfterRequest(s, led, port, id, m))
  {
    BehindNextAccounted(s, r, led, port, id, m);
    BehindNextAgrees(s, r, led, port, id, m);
    RequesterAdded(s, r, led, AfterRequest(s, led, port, id, m), id);
  }

  lemma {:induction false} BehindStartKeepsSound(s: State, r: State, led: Ledger, port: Port, id: JsString, m: Message)
    requires Sound(s, led) && id !in led.requester && RoutingOf(s.book, m).BehindStart?
    requires r == s.(book := s.book.(startWaiters := s.book.startWaiters + [Waiter(port, id)]))
    ensures Sound(r, AfterRequest(s, led, port, id, m))
  {
    var led' := AfterRequest(s, led, port, id, m);
    FreshIsNowhere(s, led, id);
    forall place ensures Located(r, led'.requester, id, place) <==> place == Placement(s, m) {
      assert !Located(s, led.requester, id, place);
    }
    NewPlaceKeepsAccounted(s, r, led, port, id, m);
  }

  lemma {:induction false} ToOwnerAccounted(s: State, r: State, led: Ledger, port: Port, id: JsString, m: Message)
    requires Sound(s, led) && id !in led.requester && RoutingOf(s.book, m).ToOwner?
    requires r == s.(book := Enter(s.book, port, id, m))
    ensures Accounted(r, AfterRequest(s, led, port, id, m))
  {
    var led' := AfterRequest(s, led, port, id, m);
    FreshIsNowhere(s, led, id);
    forall place ensures Located(r, led'.requester, id, place) <==> place == Placement(s, m) {
      assert !Located(s, led.requester, id, place);
    }
    NewPlaceKeepsAccounted(s, r, led, port, id, m);
  }

  lemma {:induction false} ToOwnerKeepsSound(s: State, r: State, led: Ledger, port: Port, id: JsString, m: Message)
    requires Sound(s, led) && id !in led.requester && RoutingOf(s.book, m).ToOwner?
    requires r == s.(book := Enter(s.book, port, id, m))
    ensures Sound(r, AfterRequest(s, led, port, id, m))
  {
    ToOwnerAccounted(s, r, led, port, id, m);
    EnteredAgrees(s, r, led, port, id, m);
  }

  lemma {:induction false} EnteredAgrees(s: State, r: State, led: Ledger, port: Port, id: JsString, m: Message)
    requires Sound(s, led) && id !in led.requester && RoutingOf(s.book, m).ToOwner?
    requires r == s.(book := Enter(s.book, port, id, m))
    ensures var led' := AfterRequest(s, led, port, id, m);
      RequestersAgree(r, led') && NothingForeign(r, led') && OutstandingAgrees(r, led')
  {
    assert r.book.requestOwners == s.book.requestOwners[id := port];
    assert r.book.dedup.waiters == s.book.dedup.waiters && r.book.startWaiters == s.book.startWaiters;
    assert r.book.dedup.cache == s.book.dedup.cache && r.wire == s.wire;
  }

  // ---- Replies --------------------------------------------------------------------------------

  /** The waiter lists that a reply to `id` leaves. */
  function WaitersLeft(book: Book, id: JsString, m: Message): map<JsString, seq<Waiter>> {
    if ClearsDeduplication(book, id, m) then map[]
    else if Lookup(book.requestMethods, id) == Some(Next) && id in book.dedup.requestKeys
    then book.dedup.waiters - {book.dedup.requestKeys[id]}
    else book.dedup.waiters
  }

  /** The waiters a reply to `id` is passed on to, under their own request ids. */
  function WaitersTold(book: Book, id: JsString, m: Message): seq<Waiter> {
    var rpcMethod := Lookup(book.requestMethods, id);
    if rpcMethod == Some(Start) then book.startWaiters
    else if rpcMethod == Some(Next) && id in book.dedup.requestKeys && !ClearsDeduplication(book, id, m)
            && book.dedup.requestKeys[id] in book.dedup.waiters
    then book.dedup.waiters[book.dedup.requestKeys[id]]
    else []
  }

  function RequesterTold(book: Book, id: JsString, m: Message): seq<Post> {
    if id in book.requestOwners then [Post(book.requestOwners[id], Relayed(m))] else []
  }

  /** What the reply `m` to `id` does when posts go through. */
  ghost predicate Replied(s: State, r: State, id: JsString, m: Message) {
    && r.ports == s.ports && r.board == s.board
    && r.book.requestOwners == s.book.requestOwners - {id}
    && r.book.requestMethods == s.book.requestMethods - {id}
    && r.book.dedup.requestKeys
       == (if ClearsDeduplication(s.book, id, m) then map[] else s.book.dedup.requestKeys - {id})
    && (forall key :: key in r.book.dedup.cache.responses ==>
          r.book.dedup.cache.responses[key] == m
            || Lookup(s.book.dedup.cache.responses, key) == Some(r.book.dedup.cache.responses[key]))
    && r.book.dedup.waiters == WaitersLeft(s.book, id, m)
    && r.book.startWaiters == (if Lookup(s.book.requestMethods, id) == Some(Start) then [] else s.book.startWaiters)
    && r.wire.log == s.wire.log + (RequesterTold(s.book, id, m) + ToWaiters(WaitersTold(s.book, id, m), m))
  }

  lemma {:induction false} RecordFacts(book: Book, id: JsString, m: Message)
    ensures var r := Record(Struck(book, id), Lookup(book.requestMethods, id), m);
      && r.requestOwners == book.requestOwners - {id} && r.requestMethods == book.requestMethods - {id}
      && r.startWaiters == book.startWaiters
      && r.dedup == (if ClearsDeduplication(book, id, m) then EMPTY_DEDUP else Struck(book, id).dedup)
  {
  }

  lemma {:induction false} TrimKeepsResponses(c: Cache)
    ensures forall key :: key in CacheTrim(c).responses ==>
              Lookup(c.responses, key) == Some(CacheTrim(c).responses[key])
    decreases |c.keys|
  {
    if |c.keys| > CACHE_LIMIT { TrimKeepsResponses(Cache(c.keys[1..], c.responses - {c.keys[0]})); }
  }

  lemma {:induction false} LandedFacts(d: Dedup, key: JsString, m: Message)
    ensures var r := Landed(d, key, m);
      && r.requestKeys == d.requestKeys && r.waiters == d.waiters
      && (forall k :: k in r.cache.responses ==>
            r.cache.responses[k] == m || Lookup(d.cache.responses, k) == Some(r.cache.responses[k]))
  {
    TrimKeepsResponses(CacheSet(d.cache, key, m));
  }

  /** A reply to a keyed `wizard.next` when posts go through. */
  lemma {:induction false} SettleNextReliably(s: State, key: JsString, m: Message)
    requires Elected(s) && Reliable(s)
    ensures var r := SettleNext(s, key, m);
      && r.ports == s.ports && r.board == s.board
      && r.book == s.book.(dedup := Landed(s.book.dedup, key, m).(waiters := s.book.dedup.waiters - {key}))
      && r.wire.log == s.wire.log
           + ToWaiters(if key in s.book.dedup.waiters then s.book.dedup.waiters[key] else [], m)
  {
    var s1 := WithDedup(s, Landed(s.book.dedup, key, m));
    LandedFacts(s.book.dedup, key, m);
    NotifyReliably(s1, if key in s.book.dedup.waiters then s.book.dedup.waiters[key] else [], m);
  }

  lemma {:induction false} InformedReliably(s: State, id: JsString, m: Message)
    requires Elected(s) && Reliable(s)
    ensures PostedExactly(Recorded(s, id, m), Informed(s, id, m), RequesterTold(s.book, id, m))
    ensures Reliable(Informed(s, id, m))
  {
    if id in s.book.requestOwners {
      SendReliably(Recorded(s, id, m), s.book.requestOwners[id], Relayed(m));
    } else {
      assert s.wire.log + [] == s.wire.log;
    }
  }

  lemma {:induction false} Associative(log: seq<Post>, head: seq<Post>, tail: seq<Post>)
    ensures log + head + tail == log + (head + tail)
  {
  }

  /** The dedup that SettleNext finds when the reply to `id` was recorded and its requester told. */
  lemma {:induction false} InformedDedup(s: State, id: JsString, m: Message)
    requires Elected(s) && Reliable(s)
    ensures var d := Informed(s, id, m).book.dedup;
      && d.requestKeys == (if ClearsDeduplication(s.book, id, m) then map[] else s.book.dedup.requestKeys - {id})
      && d.waiters == (if ClearsDeduplication(s.book, id, m) then map[] else s.book.dedup.waiters)
      && (forall k :: k in d.cache.responses ==> Lookup(s.book.dedup.cache.responses, k) == Some(d.cache.responses[k]))
  {
    RecordFacts(s.book, id, m);
    InformedReliably(s, id, m);
  }

  lemma {:induction false} SettleNextReplied(s: State, id: JsString, m: Message)
    requires Elected(s) && Reliable(s)
    requires Lookup(s.book.requestMethods, id) == Some(Next) && id in s.book.dedup.requestKeys
    ensures Replied(s, Settle(s, id, m), id, m)
  {
    var key, s1 := s.book.dedup.requestKeys[id], Informed(s, id, m);
    RecordFacts(s.book, id, m);
    InformedReliably(s, id, m);
    InformedDedup(s, id, m);
    var r := Settle(s, id, m);
    assert r == SettleNext(s1, key, m);
    SettleNextReliably(s1, key, m);
    LandedFacts(s1.book.dedup, key, m);
    var d := s1.book.dedup;
    assert r.book.dedup.waiters == d.waiters - {key} == WaitersLeft(s.book, id, m);
    assert (if key in d.waiters then d.waiters[key] else []) == WaitersTold(s.book, id, m);
    Associative(s.wire.log, RequesterTold(s.book, id, m), ToWaiters(WaitersTold(s.book, id, m), m));
  }

  lemma {:induction false} SettleStartReplied(s: State, id: JsString, m: Message)
    requires Elected(s) && Reliable(s) && Lookup(s.book.requestMethods, id) == Some(Start)
    ensures Replied(s, Settle(s, id, m), id, m)
  {
    var s1 := Informed(s, id, m);
    RecordFacts(s.book, id, m);
    InformedReliably(s, id, m);
    NotifyReliably(StartOver(s1), s1.book.startWaiters, m);
  }

  lemma {:induction false} SettleReliably(s: State, id: JsString, m: Message)
    requires Elected(s) && Reliable(s)
    ensures Replied(s, Settle(s, id, m), id, m)
  {
    var rpcMethod := Lookup(s.book.requestMethods, id);
    if rpcMethod == Some(Next) && id in s.book.dedup.requestKeys {
      SettleNextReplied(s, id, m);
    } else if rpcMethod == Some(Start) {
      SettleStartReplied(s, id, m);
    } else {
      RecordFacts(s.book, id, m);
      InformedReliably(s, id, m);
      assert RequesterTold(s.book, id, m) + ToWaiters([], m) == RequesterTold(s.book, id, m);
    }
  }

  /** Where the posts of a reply are found in the log. */
  lemma {:induction false} RepliedLog(s: State, r: State, id: JsString, m: Message, i: nat)
    requires Replied(s, r, id, m) && i < |r.wire.log|
    ensures var told := |s.wire.log| + if id in s.book.requestOwners then 1 else 0;
      var waiters := WaitersTold(s.book, id, m);
      && |r.wire.log| == told + |waiters|
      && (i < |s.wire.log| ==> r.wire.log[i] == s.wire.log[i])
      && (i == |s.wire.log| < told ==> r.wire.log[i] == Post(s.book.requestOwners[id], Relayed(m)))
      && (told <= i ==>
            r.wire.log[i] == Post(waiters[i - told].port, Relayed(Addressed(m, waiters[i - told].requestId))))
  {
  }

  /** A reply to a request on the book, as the ledger sees it. */
  ghost predicate ReplyArrives(s: State, r: State, led: Ledger, id: JsString, m: Message) {
    && Sound(s, led) && id in led.outstanding && Settles(s.book, m)
    && IsResponse(m.kind) && m.requestId == Some(id) && Replied(s, r, id, m)
  }

  /** An answer in the log after a reply was there before, or is the requester's, or a waiter's. */
  lemma {:induction false} RepliedAnswerThere(s: State, r: State, led: Ledger, id: JsString, m: Message,
                                              other: JsString, index: nat)
    requires ReplyArrives(s, r, led, id, m) && Located(r, led.requester, other, Answered(index))
    ensures Lookup(AfterReply(s, led, id, m).place, other) == Some(Answered(index))
  {
    RepliedLog(s, r, id, m, index);
    var told := |s.wire.log| + if id in s.book.requestOwners then 1 else 0;
    if index < |s.wire.log| {
      assert Located(s, led.requester, other, Answered(index));
    } else if index < told {
      assert Located(s, led.requester, other, WithOwner);
    } else {
      RepliedWaiterThere(s, r, led, id, m, other, index);
    }
  }

  lemma {:induction false} RepliedWaiterThere(s: State, r: State, led: Ledger, id: JsString, m: Message,
                                              other: JsString, index: nat)
    requires ReplyArrives(s, r, led, id, m) && Located(r, led.requester, other, Answered(index))
    requires index >= |s.wire.log| + if id in s.book.requestOwners then 1 else 0
    ensures Lookup(AfterReply(s, led, id, m).place, other) == Some(Answered(index))
  {
    var place := WaiterWaited(s, r, led, id, m, other, index);
    assert Lookup(led.place, other) == Some(place);
  }

  /** Whoever is answered as a waiter was waiting for this reply. */
  lemma {:induction false} WaiterWaited(s: State, r: State, led: Ledger, id: JsString, m: Message,
                                        other: JsString, index: nat) returns (place: Place)
    requires ReplyArrives(s, r, led, id, m) && Located(r, led.requester, other, Answered(index))
    requires index >= |s.wire.log| + if id in s.book.requestOwners then 1 else 0
    ensures Located(s, led.requester, other, place)
    ensures var waited := index - |s.wire.log| - if id in s.book.requestOwners then 1 else 0;
      place == if Lookup(s.book.requestMethods, id) == Some(Start) then BehindStartReply(waited)
               else BehindNextReply(s.book.dedup.requestKeys[id], waited)
  {
    RepliedLog(s, r, id, m, index);
    var told := |s.wire.log| + if id in s.book.requestOwners then 1 else 0;
    place := if Lookup(s.book.requestMethods, id) == Some(Start) then BehindStartReply(index - told)
             else BehindNextReply(s.book.dedup.requestKeys[id], index - told);
  }

  /** Nobody is where the ledger does not put them. */
  lemma {:induction false} RepliedOnlyThere(s: State, r: State, led: Ledger, id: JsString, m: Message,
                                            other: JsString, place: Place)
    requires ReplyArrives(s, r, led, id, m) && Located(r, led.requester, other, place)
    ensures Lookup(AfterReply(s, led, id, m).place, other) == Some(place)
  {
    if place.Answered? {
      RepliedAnswerThere(s, r, led, id, m, other, place.index);
    } else {
      assert Located(s, led.requester, other, place);
    }
  }

  /** Everybody is where the ledger puts them. */
  lemma {:induction false} RepliedThere(s: State, r: State, led: Ledger, id: JsString, m: Message, other: JsString)
    requires ReplyArrives(s, r, led, id, m) && other in led.place
    requires !AfterReply(s, led, id, m).place[other].Discarded?
    ensures Located(r, led.requester, other, AfterReply(s, led, id, m).place[other])
  {
    var place, place' := led.place[other], AfterReply(s, led, id, m).place[other];
    assert Located(s, led.requester, other, place);
    if place' == place { RepliedStill(s, r, led, id, m, other); } else { RepliedNow(s, r, led, id, m, other); }
  }

  /** What the reply does not concern stays where it is. */
  lemma {:induction false} RepliedStill(s: State, r: State, led: Ledger, id: JsString, m: Message, other: JsString)
    requires ReplyArrives(s, r, led, id, m) && other in led.place && Located(s, led.requester, other, led.place[other])
    requires AfterReply(s, led, id, m).place[other] == led.place[other]
    ensures Located(r, led.requester, other, led.place[other])
  {
    if led.place[other].Answered? { RepliedLog(s, r, id, m, led.place[other].index); }
  }

  /** Whom the reply concerns it answers, or gives up. */
  lemma {:induction false} RepliedNow(s: State, r: State, led: Ledger, id: JsString, m: Message, other: JsString)
    requires ReplyArrives(s, r, led, id, m) && other in led.place && Located(s, led.requester, other, led.place[other])
    requires AfterReply(s, led, id, m).place[other] != led.place[other]
    requires !AfterReply(s, led, id, m).place[other].Discarded?
    ensures Located(r, led.requester, other, AfterReply(s, led, id, m).place[other])
  {
    var index := AfterReply(s, led, id, m).place[other].index;
    var told := |s.wire.log| + if id in s.book.requestOwners then 1 else 0;
    assert |r.wire.log| == told + |WaitersTold(s.book, id, m)|;
    RepliedLog(s, r, id, m, index);
  }

  lemma {:induction false} RepliedNothingForeign(s: State, r: State, led: Ledger, id: JsString, m: Message)
    requires ReplyArrives(s, r, led, id, m)
    ensures NothingForeign(r, AfterReply(s, led, id, m))
  {
    forall i, other | 0 <= i < |r.wire.log| && AnswersTo(r.wire.log[i].delivery, other)
      ensures other in led.requester
    {
      RepliedLog(s, r, id, m, i);
      var told := |s.wire.log| + if id in s.book.requestOwners then 1 else 0;
      if told <= i {
        var w := WaitersTold(s.book, id, m)[i - told];
        assert Lookup(led.requester, w.requestId) == Some(w.port);
      }
    }
  }

  lemma {:induction false} ReplyKeepsSound(s: State, r: State, led: Ledger, id: JsString, m: Message)
    requires ReplyArrives(s, r, led, id, m)
    ensures Sound(r, AfterReply(s, led, id, m))
  {
    ReplyKeepsAccounted(s, r, led, id, m);
    RepliedNothingForeign(s, r, led, id, m);
  }

  lemma {:induction false} ReplyKeepsAccounted(s: State, r: State, led: Ledger, id: JsString, m: Message)
    requires ReplyArrives(s, r, led, id, m)
    ensures Accounted(r, AfterReply(s, led, id, m))
  {
    var led' := AfterReply(s, led, id, m);
    forall other, place | Located(r, led'.requester, other, place)
      ensures Lookup(led'.place, other) == Some(place)
    {
      RepliedOnlyThere(s, r, led, id, m, other, place);
    }
    forall other | other in led'.place && !led'.place[other].Discarded?
      ensures Located(r, led'.requester, other, led'.place[other])
    {
      RepliedThere(s, r, led, id, m, other);
    }
  }

  /** A reply whose requester left and whose method is unknown goes to every port, none of them its requester. */
  lemma {:induction false} LateReplyKeepsSound(s: State, led: Ledger, id: JsString, m: Message)
    requires Elected(s) && Reliable(s) && Sound(s, led) && id in led.outstanding && !Settles(s.book, m)
    requires IsResponse(m.kind) && m.requestId == Some(id)
    ensures Sound(RouteOwnerOutput(s, m), AfterReply(s, led, id, m))
  {
    var r := RouteOwnerOutput(s, m);
    assert !Located(s, led.requester, id, WithOwner);
    BroadcastReliably(s, s.ports, Relayed(m));
    QuietPosts(s, r, led, ToAll(s.ports, Relayed(m)));
    QuietKeepsSound(s, r, led);
  }

  lemma {:induction false} AnnounceReliably(s: State, targets: seq<Port>, m: Message, led: Ledger)
    requires Elected(s) && Reliable(s) && BoardKinds(s.board) && m.kind == GatewayReady
    ensures var r := Announce(s, targets, m); Quiet(s, r, led) && r.ports == s.ports
    decreases |targets|
  {
    if targets == [] {
      QuietPosts(s, s, led, []);
    } else {
      var told := Relayed(if Some(targets[0]) == s.owner then m else SharedReady(m));
      QuietPosts(s, s, led, []);
      QuietSend(s, s, led, targets[0], told);
      var s1 := Send(s, Some(targets[0]), told);
      AnnounceReliably(s1, targets[1..], m, led);
      QuietTransitive(s, s1, Announce(s1, targets[1..], m), led);
    }
  }

  /** Output that is no reply to a request. */
  lemma {:induction false} OutputKeepsSound(s: State, led: Ledger, m: Message)
    requires Elected(s) && Reliable(s) && Sound(s, led)
    requires !(IsResponse(m.kind) && m.requestId.Some?)
    ensures Sound(RouteOwnerOutput(s, m), led)
  {
    var s1, r := Posted(s, m), RouteOwnerOutput(s, m);
    QuietPosts(s, s1, led, []);
    if m.kind == GatewayReady {
      AnnounceReliably(s1, s1.ports, m, led);
      QuietTransitive(s, s1, r, led);
    } else {
      BroadcastReliably(s1, s1.ports, Relayed(m));
      QuietPosts(s, r, led, ToAll(s1.ports, Relayed(m)));
    }
    QuietKeepsSound(s, r, led);
  }

  // ---- Every event, every run -----------------------------------------------------------------

  lemma {:induction false} RouteKeepsSound(s: State, led: Ledger, port: Port, m: Message)
    requires Elected(s) && Reliable(s) && Sound(s, led) && Some(port) == s.owner
    requires Lawful(s, led, Receiving(port, OwnerOutput(m)))
    ensures Sound(RouteOwnerOutput(s, m), Follow(s, led, Receiving(port, OwnerOutput(m))))
  {
    if !(IsResponse(m.kind) && m.requestId.Some?) {
      OutputKeepsSound(s, led, m);
    } else if Settles(s.book, m) {
      SettleReliably(s, m.requestId.value, m);
      ReplyKeepsSound(s, RouteOwnerOutput(s, m), led, m.requestId.value, m);
    } else {
      LateReplyKeepsSound(s, led, m.requestId.value, m);
    }
  }

  lemma {:induction false} PassedOnKeepsSound(s: State, led: Ledger, port: Port, d: Delivery)
    requires Elected(s) && Reliable(s) && Sound(s, led) && !d.Relayed?
    ensures Sound(Send(s, Some(port), d), led)
  {
    QuietPosts(s, s, led, []);
    QuietSend(s, s, led, port, d);
    QuietKeepsSound(s, Send(s, Some(port), d), led);
  }

  lemma {:induction false} OperateKeepsSound(s: State, led: Ledger, port: Port, m: Message)
    requires Elected(s) && Reliable(s) && Sound(s, led) && s.owner.Some?
    requires m.requestId.Some? ==> m.requestId.value !in led.requester
    ensures Sound(Operate(s, port, m),
                  if m.requestId.Some? then AfterRequest(s, led, port, m.requestId.value, m) else led)
  {
    var r := Operate(s, port, m);
    if m.requestId.None? {
      PassedOnKeepsSound(s, led, s.owner.value, Input(m));
    } else {
      var id := m.requestId.value;
      match RoutingOf(s.book, m)
      case FromCache(response) =>
        SendReliably(s, port, Relayed(Addressed(response, id)));
        AnsweredAtOnceKeepsSound(s, r, led, port, id, m, response);
      case BehindNext(_) => BehindNextKeepsSound(s, r, led, port, id, m);
      case FromSnapshot =>
        var response := SnapshotResponse(id, s.book.snapshot);
        assert Addressed(response, id) == response;
        SendReliably(s, port, Relayed(response));
        AnsweredAtOnceKeepsSound(s, r, led, port, id, m, response);
      case BehindStart => BehindStartKeepsSound(s, r, led, port, id, m);
      case ToOwner =>
        var s1 := s.(book := Enter(s.book, port, id, m));
        ToOwnerKeepsSound(s, s1, led, port, id, m);
        PassedOnKeepsSound(s1, AfterRequest(s, led, port, id, m), s.owner.value, Input(m));
    }
  }

  /** Every lawful event keeps every operation accounted for. */
  lemma {:induction false} StepKeepsSound(s: State, led: Ledger, e: Event)
    requires Elected(s) && Reliable(s) && Sound(s, led) && Lawful(s, led, e)
    ensures Sound(Step(s, e), Follow(s, led, e))
  {
    match e
    case Connecting(port) =>
      ConnectReliably(s, led, port);
      QuietKeepsSound(s, Step(s, e), led);
    case Receiving(port, Disconnecting) =>
      if Some(port) == s.owner { OwnerLossKeepsSound(s, led, port); } else { DepartureKeepsSound(s, led, port); }
    case Receiving(port, OwnerOutput(m)) => if Some(port) == s.owner { RouteKeepsSound(s, led, port, m); }
    case Receiving(port, RuntimeStart) =>
      var s1 := s.(runtimeRequested := true);
      QuietPosts(s, s1, led, []);
      QuietKeepsSound(s, s1, led);
      if s.owner.Some? { PassedOnKeepsSound(s1, led, s.owner.value, StartNotice); }
    case Receiving(port, Ordinary(m)) =>
      if IsRuntimeOperation(m) && s.owner.Some? { OperateKeepsSound(s, led, port, m); }
  }

  /** The ledger after a run. */
  function FollowRun(s: State, led: Ledger, events: seq<Event>): Ledger
    requires Elected(s)
  {
    if events == [] then led
    else
      var before := events[..|events| - 1];
      Follow(Run(s, before), FollowRun(s, led, before), events[|events| - 1])
  }

  ghost predicate LawfulRun(s: State, led: Ledger, events: seq<Event>)
    requires Elected(s)
  {
    forall i :: 0 <= i < |events| ==> Lawful(Run(s, events[..i]), FollowRun(s, led, events[..i]), events[i])
  }

  /** A lawful event's request is also new to the collections that deduplicate. */
  lemma {:induction false} LawfulIsFresh(s: State, led: Ledger, e: Event)
    requires Sound(s, led) && Lawful(s, led, e)
    ensures FreshRequest(s.book, e)
  {
  }

  lemma {:induction false} StepReliable(s: State, e: Event)
    requires Elected(s) && Reliable(s)
    ensures Reliable(Step(s, e))
  {
    match e
    case Connecting(port) => ConnectEvolves(s, port);
    case Receiving(_, _) =>
  }

  /** Posts go through, every operation is accounted for and the deduplication is consistent. */
  ghost predicate InOrder(s: State, led: Ledger) {
    Reliable(s) && Sound(s, led) && BookConsistent(s.book)
  }

  lemma {:induction false} StepKeepsOrder(s: State, led: Ledger, e: Event)
    requires Elected(s) && InOrder(s, led) && Lawful(s, led, e)
    ensures InOrder(Step(s, e), Follow(s, led, e))
  {
    StepReliable(s, e);
    StepKeepsSound(s, led, e);
    LawfulIsFresh(s, led, e);
    StepKeepsBook(s, e);
  }

  lemma {:induction false} LawfulBefore(s: State, led: Ledger, events: seq<Event>, n: nat)
    requires Elected(s) && LawfulRun(s, led, events) && n <= |events|
    ensures LawfulRun(s, led, events[..n])
  {
    forall i | 0 <= i < n
      ensures Lawful(Run(s, events[..n][..i]), FollowRun(s, led, events[..n][..i]), events[..n][i])
    {
      assert events[..n][..i] == events[..i];
    }
  }

  lemma {:induction false} RunKeepsOrder(s: State, led: Ledger, events: seq<Event>)
    requires Elected(s) && InOrder(s, led) && LawfulRun(s, led, events)
    ensures InOrder(Run(s, events), FollowRun(s, led, events))
  {
    if events != [] {
      var n := |events| - 1;
      LawfulBefore(s, led, events, n);
      RunKeepsOrder(s, led, events[..n]);
      assert Lawful(Run(s, events[..n]), FollowRun(s, led, events[..n]), events[n]);
      StepKeepsOrder(Run(s, events[..n]), FollowRun(s, led, events[..n]), events[n]);
    }
  }

  /**
   * At every state of every lawful run, each accepted operation is in exactly one place, or is
   * discarded and nowhere; a waiter for a `wizard.next` reply waits under a key in flight.
   */
  lemma {:induction false} EveryOperationInOnePlace(delivers: nat -> bool, events: seq<Event>, id: JsString)
    requires Reliable(Initial(delivers)) && LawfulRun(Initial(delivers), EMPTY_LEDGER, events)
    ensures var s, led := Run(Initial(delivers), events), FollowRun(Initial(delivers), EMPTY_LEDGER, events);
      && (forall place :: Located(s, led.requester, id, place)
            <==> Lookup(led.place, id) == Some(place) && place != Discarded)
      && (forall key, i :: Lookup(led.place, id) == Some(BehindNextReply(key, i)) ==> key in s.book.dedup.inFlight)
  {
    RunKeepsOrder(Initial(delivers), EMPTY_LEDGER, events);
    var s, led := Run(Initial(delivers), events), FollowRun(Initial(delivers), EMPTY_LEDGER, events);
    forall key, i | Lookup(led.place, id) == Some(BehindNextReply(key, i)) ensures key in s.book.dedup.inFlight {
      assert Located(s, led.requester, id, BehindNextReply(key, i));
    }
  }

  /**
   * The only reasons for which an operation that is at `place` is given up: the owner leaves, or its
   * requester leaves while the owner has it, or it waits for a `wizard.next` reply and the session
   * changes or ends.
   */
  ghost predicate MayDiscard(s: State, e: Event, id: JsString, place: Place) {
    && e.Receiving?
    && ((e.inbound.Disconnecting? && Some(e.port) == s.owner)
       || (e.inbound.Disconnecting? && place.WithOwner? && Lookup(s.book.requestOwners, id) == Some(e.port))
       || (e.inbound.OwnerOutput? && Some(e.port) == s.owner && place.BehindNextReply?
           && Settles(s.book, e.inbound.message)
           && ClearsDeduplication(s.book, e.inbound.message.requestId.value, e.inbound.message)))
  }

  /** The ledger gives an operation up for one of those reasons exactly, and leaves answers as they are. */
  lemma {:induction false} LedgerDiscards(s: State, led: Ledger, e: Event, id: JsString)
    requires Elected(s) && Sound(s, led) && Lawful(s, led, e) && id in led.place
    ensures id in Follow(s, led, e).place && id in led.requester
    ensures Lookup(Follow(s, led, e).requester, id) == Some(led.requester[id])
    ensures led.place[id].Answered? || led.place[id].Discarded? ==> Follow(s, led, e).place[id] == led.place[id]
    ensures !led.place[id].Answered? && !led.place[id].Discarded? ==>
      (Follow(s, led, e).place[id].Discarded? <==> MayDiscard(s, e, id, led.place[id]))
  {
    if led.place[id].WithOwner? { assert Located(s, led.requester, id, WithOwner); }
  }

  /** Where an operation is depends on the ledger only through its own requester. */
  lemma {:induction false} LocatedAlike(s: State, a: map<JsString, Port>, b: map<JsString, Port>, id: JsString,
                                        place: Place)
    requires Lookup(a, id) == Lookup(b, id)
    ensures Located(s, a, id, place) <==> Located(s, b, id, place)
  {
  }

  /** An operation that is found somewhere and not answered is found nowhere after the event exactly for those
      reasons. */
  lemma {:induction false} DiscardedExactlyWhen(s: State, led: Ledger, e: Event, id: JsString, place: Place)
    requires Elected(s) && Reliable(s) && Sound(s, led) && Lawful(s, led, e)
    requires Located(s, led.requester, id, place) && !place.Answered?
    ensures (forall later :: !Located(Step(s, e), led.requester, id, later)) <==> MayDiscard(s, e, id, place)
  {
    var r, led' := Step(s, e), Follow(s, led, e);
    assert Lookup(led.place, id) == Some(place);
    LedgerDiscards(s, led, e, id);
    StepKeepsSound(s, led, e);
    forall later ensures Located(r, led'.requester, id, later) <==> Located(r, led.requester, id, later) {
      LocatedAlike(r, led'.requester, led.requester, id, later);
    }
    if !led'.place[id].Discarded? { assert Located(r, led'.requester, id, led'.place[id]); }
  }

  /** An answer stays where it is, and the operation is answered only once. */
  lemma {:induction false} AnswersStay(s: State, led: Ledger, e: Event, id: JsString, index: nat, later: Place)
    requires Elected(s) && Reliable(s) && Sound(s, led) && Lawful(s, led, e)
    requires Located(s, led.requester, id, Answered(index))
    ensures Located(Step(s, e), led.requester, id, later) <==> later == Answered(index)
  {
    var r, led' := Step(s, e), Follow(s, led, e);
    assert Lookup(led.place, id) == Some(Answered(index));
    LedgerDiscards(s, led, e, id);
    StepKeepsSound(s, led, e);
    LocatedAlike(r, led'.requester, led.requester, id, later);
  }
}
