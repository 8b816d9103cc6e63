/**
 * The shared worker as the source has it: one object whose fields are the module-level variables
 * of src/openclaw-shared-worker.ts and whose methods update them in place.  Every method leaves
 * exactly the state that its function in Coordination.dfy gives, so that what is proved about the
 * functions holds of the object.
 */
module Coordinator {
  import opened Options
  import opened Json
  import C = Coordination

  class SharedWorker {
    var ports: seq<C.Port>
    var requestOwners: map<JsString, C.Port>
    var requestMethods: map<JsString, C.Method>
    var requestWizardNextKeys: map<JsString, JsString>
    var wizardNextInFlight: set<JsString>
    var wizardNextResponseCache: C.Cache
    var wizardNextWaiters: map<JsString, seq<C.Waiter>>
    var wizardStartWaiters: seq<C.Waiter>
    var owner: Option<C.Port>
    var readyMessage: Option<C.Message>
    var resultMessage: Option<C.Message>
    var statusMessage: C.Message
    var runtimeRequested: bool
    var wizardSessionId: Option<JsString>
    var wizardSnapshot: Option<Value>
    var wizardStartInFlight: bool

    // The environment: which posts go through, how many were tried, and those that did.
    const delivers: nat -> bool
    var attempts: nat
    var log: seq<C.Post>

    // History.
    ghost var tenure: nat
    ghost var readyTenure: nat
    ghost var replies: seq<C.Reply>

    ghost function Dedup(): C.Dedup
      reads this
    {
      C.Dedup(requestWizardNextKeys, wizardNextInFlight, wizardNextResponseCache, wizardNextWaiters, replies)
    }

    ghost function Book(): C.Book
      reads this
    {
      C.Book(requestOwners, requestMethods, Dedup(), wizardStartInFlight, wizardStartWaiters, wizardSessionId,
        wizardSnapshot)
    }

    ghost function Now(): C.State
      reads this
    {
      C.State(ports, owner, Book(), C.Board(readyMessage, resultMessage, statusMessage, readyTenure),
              runtimeRequested, tenure, C.Wire(delivers, attempts, log))
    }

    constructor (delivers: nat -> bool)
      ensures Now() == C.Initial(delivers)
    {
      ports, owner := [], None;
      requestOwners, requestMethods, requestWizardNextKeys := map[], map[], map[];
      wizardNextInFlight, wizardNextResponseCache, wizardNextWaiters := {}, C.Cache([], map[]), map[];
      wizardStartWaiters, wizardStartInFlight := [], false;
      readyMessage, resultMessage, statusMessage := None, None, C.WAITING;
      runtimeRequested, wizardSessionId, wizardSnapshot := false, None, None;
      this.delivers := delivers;
      attempts, log := 0, [];
      tenure, readyTenure, replies := 0, 0, [];
    }

    method ClearWizardNextDeduplication()
      modifies `requestWizardNextKeys, `wizardNextInFlight, `wizardNextResponseCache, `wizardNextWaiters, `replies
      ensures Dedup() == C.EMPTY_DEDUP
    {
      requestWizardNextKeys, wizardNextInFlight := map[], {};
      wizardNextResponseCache, wizardNextWaiters := C.Cache([], map[]), map[];
      replies := [];
    }

    method RememberWizardNextResponse(key: JsString, response: C.Message)
      modifies `wizardNextResponseCache, `replies
      ensures Dedup() == C.RememberNextResponse(old(Dedup()), key, response)
    {
      wizardNextResponseCache := C.CacheSet(wizardNextResponseCache, key, response);
      ghost var grown := wizardNextResponseCache;
      while |wizardNextResponseCache.keys| > C.CACHE_LIMIT
        invariant C.CacheTrim(wizardNextResponseCache) == C.CacheTrim(grown)
        invariant replies == old(replies)
        decreases |wizardNextResponseCache.keys|
      {
        var oldest := wizardNextResponseCache.keys[0];
        wizardNextResponseCache := C.Cache(wizardNextResponseCache.keys[1..],
          wizardNextResponseCache.responses - {oldest});
      }
      replies := replies + [C.Reply(key, response)];
    }

    // ---- Posting and failing over -------------------------------------------------------------

    method Send(target: Option<C.Port>, d: C.Delivery)
      requires C.Elected(Now())
      modifies this
      ensures Now() == C.Send(old(Now()), target, d)
      decreases |ports|, 3
    {
      var delivered := target.Some? && delivers(attempts);
      attempts := attempts + 1;
      if delivered {
        log := log + [C.Post(target.value, d)];
      } else {
        Disconnect(target);
      }
    }

    method Broadcast(d: C.Delivery)
      requires C.Elected(Now())
      modifies this
      ensures Now() == C.Broadcast(old(Now()), old(ports), d)
      decreases |ports|, 5
    {
      var targets := ports;
      var i := 0;
      while i < |targets|
        invariant 0 <= i <= |targets| && |ports| <= |old(ports)| && C.Elected(Now())
        invariant C.Broadcast(Now(), targets[i..], d) == C.Broadcast(old(Now()), targets, d)
      {
        assert targets[i..][1..] == targets[i + 1..];
        Send(Some(targets[i]), d);
        i := i + 1;
      }
    }

    /** The notices at the end of chooseOwner; `owner` may have changed since it was chosen. */
    method Greet()
      requires C.Elected(Now())
      modifies this
      ensures Now() == C.Greeted(old(Now()))
      decreases |ports|, 4
    {
      Send(owner, C.OwnerNotice);
      if runtimeRequested { Send(owner, C.StartNotice); }
    }

    method ChooseOwner()
      requires C.Distinct(ports) && Book() == C.EMPTY_BOOK
      modifies this
      ensures Now() == C.ChooseOwner(old(Now()))
      decreases |ports|, if ports == [] then 0 else 6
    {
      owner := if ports == [] then None else Some(ports[0]);
      if owner.None? { return; }
      readyMessage, resultMessage := None, None;
      statusMessage := C.RESTORING;
      ghost var s1 := Now();
      assert s1 == C.Chosen(old(Now()));
      Broadcast(C.Relayed(statusMessage));
      Greet();
    }

    /** The beginning of disconnect: the port leaves the set, and requestOwners forgets it. */
    method Remove(port: Option<C.Port>)
      modifies `ports, `requestOwners
      ensures Now() == C.Departed(old(Now()), port)
    {
      ports := C.Without(ports, port);
      var remaining := requestOwners.Keys;
      while remaining != {}
        invariant remaining <= requestOwners.Keys <= old(requestOwners).Keys
        invariant forall id :: id in old(requestOwners) ==>
          (id in requestOwners <==> id in remaining || Some(old(requestOwners)[id]) != port)
        invariant forall id :: id in requestOwners ==> requestOwners[id] == old(requestOwners)[id]
        invariant ports == C.Without(old(ports), port)
        decreases remaining
      {
        var id :| id in remaining;
        remaining := remaining - {id};
        if Some(requestOwners[id]) == port { requestOwners := requestOwners - {id}; }
      }
      assert requestOwners == C.WithoutRequester(old(requestOwners), port);
    }

    /** The assignments of disconnect when the owner is lost. */
    method ForgetOwner()
      modifies `requestWizardNextKeys, `wizardNextInFlight, `wizardNextResponseCache, `wizardNextWaiters, `replies
      modifies `owner, `requestOwners, `requestMethods, `wizardSnapshot, `wizardSessionId
      modifies `wizardStartInFlight, `wizardStartWaiters, `tenure
      ensures owner == None && Book() == C.EMPTY_BOOK && tenure == old(tenure) + 1
    {
      owner := None;
      requestOwners, requestMethods := map[], map[];
      ClearWizardNextDeduplication();
      wizardSnapshot, wizardSessionId := None, None;
      wizardStartInFlight, wizardStartWaiters := false, [];
      tenure := tenure + 1;
    }

    /** The owner is lost and the next one chosen. */
    method FailOver()
      requires C.Distinct(ports)
      modifies this
      ensures Now() == C.ChooseOwner(old(Now()).(owner := None, book := C.EMPTY_BOOK, tenure := old(tenure) + 1))
      decreases |ports|, if ports == [] then 1 else 7
    {
      ForgetOwner();
      ChooseOwner();
    }

    method Disconnect(port: Option<C.Port>)
      requires C.Elected(Now())
      modifies this
      ensures Now() == C.Disconnect(old(Now()), port)
      decreases |ports|, 2
    {
      ghost var s := Now();
      Remove(port);
      if owner == port {
        assert Now().(owner := None, book := C.EMPTY_BOOK, tenure := tenure + 1) == C.Orphaned(s, port);
        FailOver();
      }
    }

    // ---- The owner's output -------------------------------------------------------------------

    method RememberWizardResult(result: Option<Value>)
      modifies `requestWizardNextKeys, `wizardNextInFlight, `wizardNextResponseCache, `wizardNextWaiters, `replies
      modifies `wizardSnapshot, `wizardSessionId
      ensures Book() == C.RememberResult(old(Book()), result)
    {
      if result.None? || !result.value.Object? {
        wizardSnapshot := result;
        return;
      }
      var id := Get(result.value.fields, C.SESSION_ID);
      if id.Some? && id.value.Text? {
        if wizardSessionId.Some? && wizardSessionId.value != [] && id.value.chars != wizardSessionId.value {
          ClearWizardNextDeduplication();
        }
        wizardSessionId := Some(id.value.chars);
      }
      if wizardSessionId.Some? && wizardSessionId.value != [] && id.None? {
        wizardSnapshot := Some(Object(Put(result.value.fields, C.SESSION_ID, Text(wizardSessionId.value))));
      } else {
        wizardSnapshot := result;
      }
    }

    /** The loop over waiters that both kinds of replies end with. */
    method Notify(waiters: seq<C.Waiter>, m: C.Message)
      requires C.Elected(Now())
      modifies this
      ensures Now() == C.Notify(old(Now()), waiters, m)
    {
      var i := 0;
      while i < |waiters|
        invariant 0 <= i <= |waiters| && C.Elected(Now())
        invariant C.Notify(Now(), waiters[i..], m) == C.Notify(old(Now()), waiters, m)
      {
        assert waiters[i..][1..] == waiters[i + 1..];
        Send(Some(waiters[i].port), C.Relayed(C.Addressed(m, waiters[i].requestId)));
        i := i + 1;
      }
    }

    /** The part of routeOwnerOutput that updates the book. */
    method Record(id: JsString, m: C.Message)
      modifies `requestWizardNextKeys, `wizardNextInFlight, `wizardNextResponseCache, `wizardNextWaiters, `replies
      modifies `requestOwners, `requestMethods, `wizardSnapshot, `wizardSessionId
      ensures Book() == C.Record(C.Struck(old(Book()), id), Lookup(old(requestMethods), id), m)
    {
      var rpcMethod := Lookup(requestMethods, id);
      requestOwners := requestOwners - {id};
      requestMethods := requestMethods - {id};
      requestWizardNextKeys := requestWizardNextKeys - {id};
      if m.ok && (rpcMethod == Some(C.Start) || rpcMethod == Some(C.Next) || rpcMethod == Some(C.Status)) {
        RememberWizardResult(m.result);
      } else if rpcMethod == Some(C.Cancel) {
        wizardSnapshot, wizardSessionId := None, None;
        ClearWizardNextDeduplication();
      }
    }

    method Inform(id: JsString, m: C.Message)
      requires C.Elected(Now())
      modifies this
      ensures Now() == C.Informed(old(Now()), id, m)
    {
      var requester := Lookup(requestOwners, id);
      Record(id, m);
      assert Now() == C.Recorded(old(Now()), id, m);
      if requester.Some? { Send(requester, C.Relayed(m)); }
    }

    /** The reply has landed: its key is free again and, after a success, cached. */
    method Land(key: JsString, m: C.Message)
      modifies `wizardNextInFlight, `wizardNextResponseCache, `replies
      ensures Dedup() == C.Landed(old(Dedup()), key, m)
    {
      wizardNextInFlight := wizardNextInFlight - {key};
      if m.ok { RememberWizardNextResponse(key, m); }
    }

    method SettleNext(key: JsString, m: C.Message)
      requires C.Elected(Now())
      modifies this
      ensures Now() == C.SettleNext(old(Now()), key, m)
    {
      Land(key, m);
      ghost var s1 := Now();
      assert s1 == C.WithDedup(old(Now()), C.Landed(old(Dedup()), key, m));
      var waiting := Lookup(wizardNextWaiters, key);
      var waiters := if waiting.Some? then waiting.value else [];
      Notify(waiters, m);
      ghost var s2 := Now();
      assert s2 == C.NextTold(old(Now()), key, m);
      wizardNextWaiters := wizardNextWaiters - {key};
      assert Now() == C.WithDedup(s2, s2.book.dedup.(waiters := s2.book.dedup.waiters - {key}));
    }

    method SettleStart(m: C.Message)
      requires C.Elected(Now())
      modifies this
      ensures Now() == C.SettleStart(old(Now()), m)
    {
      wizardStartInFlight := false;
      var waiters := wizardStartWaiters;
      wizardStartWaiters := [];
      Notify(waiters, m);
    }

    method Settle(id: JsString, m: C.Message)
      requires C.Elected(Now())
      modifies this
      ensures Now() == C.Settle(old(Now()), id, m)
    {
      var rpcMethod := Lookup(requestMethods, id);
      var nextKey := Lookup(requestWizardNextKeys, id);
      Inform(id, m);
      if rpcMethod == Some(C.Next) && nextKey.Some? { SettleNext(nextKey.value, m); }
      if rpcMethod == Some(C.Start) { SettleStart(m); }
    }

    method Announce(m: C.Message)
      requires C.Elected(Now())
      modifies this
      ensures Now() == C.Announce(old(Now()), old(ports), m)
    {
      var targets := ports;
      var i := 0;
      while i < |targets|
        invariant 0 <= i <= |targets| && C.Elected(Now())
        invariant C.Announce(Now(), targets[i..], m) == C.Announce(old(Now()), targets, m)
      {
        assert targets[i..][1..] == targets[i + 1..];
        Send(Some(targets[i]), C.Relayed(if Some(targets[i]) == owner then m else C.SharedReady(m)));
        i := i + 1;
      }
    }

    /** The assignments of routeOwnerOutput to the messages kept for replay. */
    method Keep(m: C.Message)
      modifies `readyMessage, `resultMessage, `statusMessage, `readyTenure
      ensures Now() == C.Posted(old(Now()), m)
    {
      if m.kind == C.GatewayReady {
        readyMessage := Some(m);
        readyTenure := tenure;
      } else if m.kind == C.RuntimeStatus {
        statusMessage := m;
      } else if m.kind == C.RuntimeResult {
        resultMessage := Some(m);
      }
    }

    method RouteOwnerOutput(m: C.Message)
      requires C.Elected(Now())
      modifies this
      ensures Now() == C.RouteOwnerOutput(old(Now()), m)
    {
      if m.requestId.Some? && C.IsResponse(m.kind) {
        var requester := Lookup(requestOwners, m.requestId.value);
        var rpcMethod := Lookup(requestMethods, m.requestId.value);
        if requester.Some? || C.Truthy(rpcMethod) {
          assert C.Settles(Book(), m);
          Settle(m.requestId.value, m);
          return;
        }
      }
      assert !C.Settles(Book(), m);
      Keep(m);
      if m.kind == C.GatewayReady { Announce(m); } else { Broadcast(C.Relayed(m)); }
    }

    // ---- Requests -----------------------------------------------------------------------------

    /** A request with a string id that goes to the owner. */
    method Enter(port: C.Port, id: JsString, m: C.Message)
      modifies `requestOwners, `requestMethods, `requestWizardNextKeys, `wizardNextInFlight, `wizardStartInFlight
      ensures Book() == C.Enter(old(Book()), port, id, m)
    {
      var nextKey := C.NextKey(m);
      if nextKey.Some? { wizardNextInFlight := wizardNextInFlight + {nextKey.value}; }
      requestOwners := requestOwners[id := port];
      if m.rpcMethod.Some? { requestMethods := requestMethods[id := m.rpcMethod.value]; }
      if C.IsStart(m) { wizardStartInFlight := true; }
      if nextKey.Some? { requestWizardNextKeys := requestWizardNextKeys[id := nextKey.value]; }
    }

    method Forward(port: C.Port, id: JsString, m: C.Message)
      requires C.Elected(Now())
      modifies this
      ensures Now() == C.Send(old(Now()).(book := C.Enter(old(Book()), port, id, m)), old(owner), C.Input(m))
    {
      Enter(port, id, m);
      Send(owner, C.Input(m));
    }

    /** A `wizard.next` whose key is cached is answered, and one whose key is in flight waits. */
    method KeepBackNext(port: C.Port, id: JsString, m: C.Message) returns (kept: bool)
      requires C.Elected(Now()) && m.requestId == Some(id)
      modifies this
      ensures var routing := C.RoutingOf(old(Book()), m); kept == (routing.FromCache? || routing.BehindNext?)
      ensures Now() == if kept then C.Operate(old(Now()), port, m) else old(Now())
    {
      var nextKey := C.NextKey(m);
      if nextKey.Some? {
        var key := nextKey.value;
        if key in wizardNextResponseCache.responses {
          var cached := wizardNextResponseCache.responses[key];
          assert C.RoutingOf(Book(), m) == C.FromCache(cached);
          Send(Some(port), C.Relayed(C.Addressed(cached, id)));
          return true;
        }
        if key in wizardNextInFlight {
          assert C.RoutingOf(Book(), m) == C.BehindNext(key);
          wizardNextWaiters := C.Enqueue(wizardNextWaiters, key, C.Waiter(port, id));
          return true;
        }
      }
      return false;
    }

    /** The part of port.onmessage that deals with a runtime operation of a connected runtime. */
    method Operate(port: C.Port, m: C.Message)
      requires C.Elected(Now())
      modifies this
      ensures Now() == C.Operate(old(Now()), port, m)
    {
      if m.requestId.Some? {
        var id := m.requestId.value;
        var kept := KeepBackNext(port, id, m);
        if kept { return; }
        if C.IsStart(m) && wizardSnapshot.Some? {
          assert C.RoutingOf(Book(), m) == C.FromSnapshot;
          Send(Some(port), C.Relayed(C.SnapshotResponse(id, wizardSnapshot)));
          return;
        }
        if C.IsStart(m) && wizardStartInFlight {
          assert C.RoutingOf(Book(), m) == C.BehindStart;
          wizardStartWaiters := wizardStartWaiters + [C.Waiter(port, id)];
          return;
        }
        assert C.RoutingOf(Book(), m) == C.ToOwner;
        Forward(port, id, m);
      } else {
        Send(owner, C.Input(m));
      }
    }

    /** port.onmessage */
    method Receive(port: C.Port, inbound: C.Inbound)
      requires C.Elected(Now())
      modifies this
      ensures Now() == C.Receive(old(Now()), port, inbound)
    {
      match inbound
      case Disconnecting => Disconnect(Some(port));
      case OwnerOutput(m) => if Some(port) == owner { RouteOwnerOutput(m); }
      case RuntimeStart =>
        runtimeRequested := true;
        if owner.Some? { Send(owner, C.StartNotice); }
      case Ordinary(m) => if C.IsRuntimeOperation(m) && owner.Some? { Operate(port, m); }
    }

    /** onconnect */
    method Connect(port: C.Port)
      requires C.Elected(Now())
      modifies this
      ensures Now() == C.Connect(old(Now()), port)
    {
      if port !in ports { ports := ports + [port]; }
      var becomesOwner := owner.None?;
      if becomesOwner { owner := Some(port); }
      assert Now() == C.Admitted(old(Now()), port);
      Send(Some(port), if becomesOwner then C.OwnerNotice else C.FollowerNotice);
      Send(Some(port), C.Relayed(statusMessage));
      if resultMessage.Some? { Send(Some(port), C.Relayed(resultMessage.value)); }
      if readyMessage.Some? {
        var message := if Some(port) == owner then readyMessage.value else C.SharedReady(readyMessage.value);
        Send(Some(port), C.Relayed(message));
      }
    }
  }
}
