/**
 * The shared worker that connects several tabs to one runtime owner
 * (src/openclaw-shared-worker.ts), as functions on the values of its module-level variables.
 * The class in Coordinator.dfy updates those variables in place and refines these functions.
 *
 * Whether a call of postMessage returns or throws is decided by `Wire.delivers`, an arbitrary
 * function of the call's number: what is proved without assuming `Reliable` holds for every
 * pattern of failing sends.
 */
module Coordination {
  import opened Options
  import opened Json
  import opened WizardKey

  /** The identity of a MessagePort. */
  type Port = nat

  /** The `type` of a message; the source's names are prefixed with "clawsembly:". */
  datatype Kind =
    | RpcRequest           // wizard-rpc-request
    | CapabilityAttach     // wizard-capability-attach
    | CapabilityConfigure  // wizard-capability-configure
    | RpcResponse          // wizard-rpc-response
    | CapabilityResponse   // wizard-capability-response
    | ConfigResponse       // wizard-capability-config-response
    | GatewayReady         // wizard-gateway-ready
    | RuntimeStatus        // byok-runtime-status
    | RuntimeResult        // shared-runtime-result
    | OtherKind(name: JsString)

  datatype Method = Start | Next | Status | Cancel | OtherMethod(name: JsString)

  /**
   * A runtime message.  `rpcMethod` (its `method`) and `requestId` are None when they are not strings, `ok` says
   * whether the field is exactly `true`, and `rest` holds the fields nobody here looks at.
   */
  datatype Message = Message(
    kind: Kind,
    rpcMethod: Option<Method>,
    requestId: Option<JsString>,
    params: Params,
    ok: bool,
    result: Option<Value>,
    bootMode: Option<Value>,
    ownerBootMode: Option<Value>,
    rest: Fields)

  /** What the worker posts to a port. */
  datatype Delivery =
    | OwnerNotice              // shared-runtime-owner
    | FollowerNotice           // shared-runtime-follower
    | StartNotice              // shared-runtime-owner-start
    | Input(message: Message)  // shared-runtime-owner-input
    | Relayed(message: Message)

  /** What a port's onmessage handler distinguishes. */
  datatype Inbound =
    | Disconnecting                  // shared-runtime-disconnect
    | OwnerOutput(message: Message)  // shared-runtime-owner-output
    | RuntimeStart                   // onboarding-runtime-start, byok-runtime-start
    | Ordinary(message: Message)

  datatype Post = Post(port: Port, delivery: Delivery)

  datatype Waiter = Waiter(port: Port, requestId: JsString)

  /** A JavaScript Map from keys to responses, which remembers insertion order. */
  datatype Cache = Cache(keys: seq<JsString>, responses: map<JsString, Message>)

  datatype Reply = Reply(key: JsString, response: Message)

  const CACHE_LIMIT := 32

  /** The variables clearWizardNextDeduplication clears; `replies` is history. */
  datatype Dedup = Dedup(
    requestKeys: map<JsString, JsString>,     // requestWizardNextKeys
    inFlight: set<JsString>,                  // wizardNextInFlight
    cache: Cache,                             // wizardNextResponseCache
    waiters: map<JsString, seq<Waiter>>,      // wizardNextWaiters
    replies: seq<Reply>)                      // successful replies since the last clear

  /** The variables that losing the owner clears. */
  datatype Book = Book(
    requestOwners: map<JsString, Port>,
    requestMethods: map<JsString, Method>,
    dedup: Dedup,
    startInFlight: bool,
    startWaiters: seq<Waiter>,
    sessionId: Option<JsString>,
    snapshot: Option<Value>)

  /** The messages replayed to a port that connects; `readyTenure` is history. */
  datatype Board = Board(
    readyMessage: Option<Message>,
    resultMessage: Option<Message>,
    statusMessage: Message,
    readyTenure: nat)

  /** The environment's side of postMessage and the posts that went through. */
  datatype Wire = Wire(delivers: nat -> bool, attempts: nat, log: seq<Post>)

  /** `tenure` is history: it counts the owners that were lost. */
  datatype State = State(
    ports: seq<Port>,
    owner: Option<Port>,
    book: Book,
    board: Board,
    runtimeRequested: bool,
    tenure: nat,
    wire: Wire)

  function StatusMessage(text: JsString): Message {
    Message(RuntimeStatus, None, None, OtherParams, false, None, None, None,
            Field(Ascii("state"), Text(Ascii("running")), Field(Ascii("label"), Text(text), NoFields)))
  }

  const WAITING: Message := StatusMessage(Ascii("Waiting for the shared OpenClaw owner") + [0x2026])

  const RESTORING: Message := StatusMessage(Ascii("Restoring the shared OpenClaw owner") + [0x2026])

  const EMPTY_DEDUP := Dedup(map[], {}, Cache([], map[]), map[], [])

  const EMPTY_BOOK := Book(map[], map[], EMPTY_DEDUP, false, [], None, None)

  function Initial(delivers: nat -> bool): State {
    State([], None, EMPTY_BOOK, Board(None, None, WAITING, 0), false, 0, Wire(delivers, 0, []))
  }

  /** Every post goes through. */
  ghost predicate Reliable(s: State) {
    forall n :: s.wire.delivers(n)
  }

  // ---- Ports and election ---------------------------------------------------------------------

  predicate Distinct(ports: seq<Port>) {
    forall i, j :: 0 <= i < j < |ports| ==> ports[i] != ports[j]
  }

  /** Set.delete; deleting `undefined` does nothing. */
  function Without(ports: seq<Port>, port: Option<Port>): (r: seq<Port>)
    ensures forall p :: p in r <==> p in ports && Some(p) != port
    ensures |r| <= |ports| && (port.Some? && port.value in ports ==> |r| < |ports|)
    ensures Distinct(ports) ==> Distinct(r)
    ensures ports != [] && Some(ports[0]) != port ==> r != [] && r[0] == ports[0]
  {
    if ports == [] then []
    else if Some(ports[0]) == port then Without(ports[1..], port)
    else [ports[0]] + Without(ports[1..], port)
  }

  /** There is an owner exactly when a port is connected, and it is the one connected longest. */
  ghost predicate Elected(s: State) {
    && Distinct(s.ports)
    && s.owner == if s.ports == [] then None else Some(s.ports[0])
  }

  /** What a post may change besides the wire: ports leave and, if the owner left, the book is empty. */
  ghost predicate Evolves(s: State, r: State) {
    && (forall p :: p in r.ports ==> p in s.ports)
    && |r.ports| <= |s.ports|
    && r.runtimeRequested == s.runtimeRequested
    && r.wire.delivers == s.wire.delivers
    && (SameTenure(s, r) || NewTenure(s, r))
  }

  ghost predicate SameTenure(s: State, r: State) {
    && r.tenure == s.tenure && r.owner == s.owner && r.board == s.board
    && r.book == s.book.(requestOwners := r.book.requestOwners)
    && (forall id :: id in r.book.requestOwners ==>
          id in s.book.requestOwners && r.book.requestOwners[id] == s.book.requestOwners[id])
  }

  ghost predicate NewTenure(s: State, r: State) {
    && r.tenure > s.tenure && r.book == EMPTY_BOOK
    && r.board.readyTenure == s.board.readyTenure
    && (r.ports != [] ==> r.board.readyMessage == None && r.board.resultMessage == None)
  }

  lemma {:induction false} EvolvesTransitive(s: State, m: State, r: State)
    requires Evolves(s, m) && Evolves(m, r)
    ensures Evolves(s, r)
  {
    if NewTenure(s, m) && SameTenure(m, r) {
      assert r.book.requestOwners == map[];
    }
  }

  function WithoutRequester(owners: map<JsString, Port>, port: Option<Port>): map<JsString, Port> {
    map id | id in owners && Some(owners[id]) != port :: owners[id]
  }

  /** `target` is None where the source passes an `owner` that is undefined: postMessage throws. */
  function Send(s: State, target: Option<Port>, d: Delivery): (r: State)
    requires Elected(s)
    ensures Elected(r) && Evolves(s, r)
    decreases |s.ports|, 2
  {
    var s1 := s.(wire := s.wire.(attempts := s.wire.attempts + 1));
    if target.Some? && s.wire.delivers(s.wire.attempts) then
      s1.(wire := s1.wire.(log := s.wire.log + [Post(target.value, d)]))
    else
      Disconnect(s1, target)
  }

  function Disconnect(s: State, port: Option<Port>): (r: State)
    requires Elected(s)
    ensures Elected(r) && Evolves(s, r)
    ensures port.Some? ==> port.value !in r.ports
    decreases |s.ports|, 1
  {
    if s.owner == port then ChooseOwner(Orphaned(s, port)) else Departed(s, port)
  }

  /** The owner is gone, and with it everything on the book. */
  function Orphaned(s: State, port: Option<Port>): State {
    Departed(s, port).(owner := None, book := EMPTY_BOOK, tenure := s.tenure + 1)
  }

  /** Another port is gone, and nobody is told about its requests any more. */
  function Departed(s: State, port: Option<Port>): State {
    s.(ports := Without(s.ports, port),
       book := s.book.(requestOwners := WithoutRequester(s.book.requestOwners, port)))
  }

  /** The first port is the new owner, and nothing of the old owner is kept for replay. */
  function Chosen(s: State): (r: State)
    requires Distinct(s.ports) && s.ports != []
    ensures Elected(r)
  {
    s.(owner := Some(s.ports[0]), board := Board(None, None, RESTORING, s.board.readyTenure))
  }

  function ChooseOwner(s: State): (r: State)
    requires Distinct(s.ports) && s.book == EMPTY_BOOK
    ensures Elected(r) && r.book == EMPTY_BOOK
    ensures r.tenure >= s.tenure && r.board.readyTenure == s.board.readyTenure
    ensures r.ports != [] ==> r.board.readyMessage == None && r.board.resultMessage == None
    ensures (forall p :: p in r.ports ==> p in s.ports) && |r.ports| <= |s.ports|
    ensures r.runtimeRequested == s.runtimeRequested && r.wire.delivers == s.wire.delivers
    decreases |s.ports|, if s.ports == [] then 0 else 5
  {
    if s.ports == [] then s.(owner := None)
    else
      var s1 := Broadcast(Chosen(s), s.ports, Relayed(RESTORING));
      EvolvesTransitive(Chosen(s), s1, Greeted(s1));
      Greeted(s1)
  }

  /** The notices to the owner, who may be another port than the one chosen, or none, by now. */
  function Greeted(s: State): (r: State)
    requires Elected(s)
    ensures Elected(r) && Evolves(s, r)
    decreases |s.ports|, 3
  {
    var s1 := Send(s, s.owner, OwnerNotice);
    if s1.runtimeRequested then
      EvolvesTransitive(s, s1, Send(s1, s1.owner, StartNotice));
      Send(s1, s1.owner, StartNotice)
    else s1
  }

  /** Posts to each of `targets`, a copy of the port set taken before the first post. */
  function Broadcast(s: State, targets: seq<Port>, d: Delivery): (r: State)
    requires Elected(s)
    ensures Elected(r) && Evolves(s, r)
    decreases |s.ports|, 4, |targets|
  {
    if targets == [] then s
    else
      var s1 := Send(s, Some(targets[0]), d);
      var s2 := Broadcast(s1, targets[1..], d);
      EvolvesTransitive(s, s1, s2);
      s2
  }

  // ---- Replies of the owner -------------------------------------------------------------------

  predicate IsResponse(kind: Kind) {
    kind == RpcResponse || kind == CapabilityResponse || kind == ConfigResponse
  }

  predicate IsRuntimeOperation(m: Message) {
    m.kind == RpcRequest || m.kind == CapabilityAttach || m.kind == CapabilityConfigure
  }

  /** wizardNextKey */
  function NextKey(m: Message): Option<JsString> {
    if m.kind == RpcRequest && m.rpcMethod == Some(Next) && Keyed(m.params) then Some(Key(m.params)) else None
  }

  /** A string is truthy unless it is empty. */
  predicate Truthy(method_: Option<Method>) {
    method_.Some? && method_ != Some(OtherMethod([]))
  }

  /** `{...m, requestId: id}` */
  function Addressed(m: Message, id: JsString): Message {
    m.(requestId := Some(id))
  }

  function SharedReady(m: Message): Message {
    m.(ownerBootMode := m.bootMode, bootMode := Some(Text(Ascii("shared"))))
  }

  const SESSION_ID: JsString := Ascii("sessionId")

  function CacheSet(c: Cache, key: JsString, m: Message): Cache {
    Cache(if key in c.responses then c.keys else c.keys + [key], c.responses[key := m])
  }

  /** rememberWizardNextResponse's loop: the oldest entries go until 32 are left. */
  function CacheTrim(c: Cache): Cache
    decreases |c.keys|
  {
    if |c.keys| > CACHE_LIMIT then CacheTrim(Cache(c.keys[1..], c.responses - {c.keys[0]})) else c
  }

  function RememberNextResponse(d: Dedup, key: JsString, m: Message): Dedup {
    d.(cache := CacheTrim(CacheSet(d.cache, key, m)), replies := d.replies + [Reply(key, m)])
  }

  /** Does this result carry a session id other than a remembered, non-empty one? */
  predicate ChangesSession(book: Book, result: Option<Value>) {
    && result.Some? && result.value.Object?
    && var id := Get(result.value.fields, SESSION_ID);
    && id.Some? && id.value.Text?
    && book.sessionId.Some? && book.sessionId.value != [] && book.sessionId.value != id.value.chars
  }

  /** rememberWizardResult */
  function RememberResult(book: Book, result: Option<Value>): Book {
    if result.None? || !result.value.Object? then book.(snapshot := result)
    else
      var fields := result.value.fields;
      var id := Get(fields, SESSION_ID);
      var sessionId := if id.Some? && id.value.Text? then Some(id.value.chars) else book.sessionId;
      var dedup := if ChangesSession(book, result) then EMPTY_DEDUP else book.dedup;
      var snapshot :=
        if sessionId.Some? && sessionId.value != [] && id.None?
        then Some(Object(Put(fields, SESSION_ID, Text(sessionId.value))))
        else result;
      book.(dedup := dedup, sessionId := sessionId, snapshot := snapshot)
  }

  /** What a reply to a request of method `rpcMethod` does to the book before anyone is told. */
  function Record(book: Book, rpcMethod: Option<Method>, m: Message): Book {
    if m.ok && rpcMethod in {Some(Start), Some(Next), Some(Status)} then RememberResult(book, m.result)
    else if rpcMethod == Some(Cancel) then book.(snapshot := None, sessionId := None, dedup := EMPTY_DEDUP)
    else book
  }

  function Notify(s: State, waiters: seq<Waiter>, m: Message): (r: State)
    requires Elected(s)
    ensures Elected(r) && Evolves(s, r)
    decreases |waiters|
  {
    if waiters == [] then s
    else
      var s1 := Send(s, Some(waiters[0].port), Relayed(Addressed(m, waiters[0].requestId)));
      var s2 := Notify(s1, waiters[1..], m);
      EvolvesTransitive(s, s1, s2);
      s2
  }

  function WithDedup(s: State, d: Dedup): State {
    s.(book := s.book.(dedup := d))
  }

  /** The reply has landed: its key is free again and, after a success, cached. */
  function Landed(d: Dedup, key: JsString, m: Message): Dedup {
    var landed := d.(inFlight := d.inFlight - {key});
    if m.ok then RememberNextResponse(landed, key, m) else landed
  }

  /** The reply to the `wizard.next` request under `key` has landed and its waiters are told. */
  function NextTold(s: State, key: JsString, m: Message): (r: State)
    requires Elected(s)
    ensures Elected(r) && Evolves(WithDedup(s, Landed(s.book.dedup, key, m)), r)
  {
    var s1 := WithDedup(s, Landed(s.book.dedup, key, m));
    var waiting := Lookup(s1.book.dedup.waiters, key);
    Notify(s1, if waiting.Some? then waiting.value else [], m)
  }

  /** The deduplication part of a reply to the `wizard.next` request that was in flight under `key`. */
  function SettleNext(s: State, key: JsString, m: Message): (r: State)
    requires Elected(s)
    ensures Elected(r)
  {
    var told := NextTold(s, key, m);
    WithDedup(told, told.book.dedup.(waiters := told.book.dedup.waiters - {key}))
  }

  /** No start is in flight and nobody waits for one. */
  function StartOver(s: State): State {
    s.(book := s.book.(startInFlight := false, startWaiters := []))
  }

  function SettleStart(s: State, m: Message): (r: State)
    requires Elected(s)
    ensures Elected(r)
  {
    Notify(StartOver(s), s.book.startWaiters, m)
  }

  /** The book without the request `id`. */
  function Struck(book: Book, id: JsString): Book {
    book.(requestOwners := book.requestOwners - {id},
          requestMethods := book.requestMethods - {id},
          dedup := book.dedup.(requestKeys := book.dedup.requestKeys - {id}))
  }

  /** A reply is recorded. */
  function Recorded(s: State, id: JsString, m: Message): (r: State)
    requires Elected(s)
    ensures Elected(r)
  {
    s.(book := Record(Struck(s.book, id), Lookup(s.book.requestMethods, id), m))
  }

  /** A reply is recorded and passed on to its requester, if that port is still there. */
  function Informed(s: State, id: JsString, m: Message): (r: State)
    requires Elected(s)
    ensures Elected(r) && Evolves(Recorded(s, id, m), r)
  {
    if id in s.book.requestOwners then Send(Recorded(s, id, m), Some(s.book.requestOwners[id]), Relayed(m))
    else Recorded(s, id, m)
  }

  /** A reply to a request that is on the book. */
  function Settle(s: State, id: JsString, m: Message): (r: State)
    requires Elected(s)
    ensures Elected(r)
  {
    var rpcMethod := Lookup(s.book.requestMethods, id);
    var nextKey := Lookup(s.book.dedup.requestKeys, id);
    var s1 := Informed(s, id, m);
    var s2 := if rpcMethod == Some(Next) && nextKey.Some? then SettleNext(s1, nextKey.value, m) else s1;
    if rpcMethod == Some(Start) then SettleStart(s2, m) else s2
  }

  /** The owner's readiness goes out as it is to the owner of the moment, rewritten to the others. */
  function Announce(s: State, targets: seq<Port>, m: Message): (r: State)
    requires Elected(s)
    ensures Elected(r) && Evolves(s, r)
    decreases |targets|
  {
    if targets == [] then s
    else
      var told := if Some(targets[0]) == s.owner then m else SharedReady(m);
      var s1 := Send(s, Some(targets[0]), Relayed(told));
      var s2 := Announce(s1, targets[1..], m);
      EvolvesTransitive(s, s1, s2);
      s2
  }

  /** Is `m` a reply to a request that is still on the book? */
  predicate Settles(book: Book, m: Message) {
    && m.requestId.Some? && IsResponse(m.kind)
    && (m.requestId.value in book.requestOwners || Truthy(Lookup(book.requestMethods, m.requestId.value)))
  }

  /** The state in which output that is no reply is passed on: it is noted for ports to come. */
  function Posted(s: State, m: Message): State {
    s.(board :=
      if m.kind == GatewayReady then s.board.(readyMessage := Some(m), readyTenure := s.tenure)
      else if m.kind == RuntimeStatus then s.board.(statusMessage := m)
      else if m.kind == RuntimeResult then s.board.(resultMessage := Some(m))
      else s.board)
  }

  /** routeOwnerOutput */
  function RouteOwnerOutput(s: State, m: Message): (r: State)
    requires Elected(s)
    ensures Elected(r)
  {
    if Settles(s.book, m) then Settle(s, m.requestId.value, m)
    else if m.kind == GatewayReady then Announce(Posted(s, m), s.ports, m)
    else Broadcast(Posted(s, m), s.ports, Relayed(m))
  }

  // ---- Requests -------------------------------------------------------------------------------

  predicate IsStart(m: Message) {
    m.kind == RpcRequest && m.rpcMethod == Some(Start)
  }

  /** Enters a request with a string id that goes to the owner. */
  function Enter(book: Book, port: Port, id: JsString, m: Message): Book {
    var nextKey := NextKey(m);
    book.(requestOwners := book.requestOwners[id := port],
          requestMethods := if m.rpcMethod.Some? then book.requestMethods[id := m.rpcMethod.value]
                            else book.requestMethods,
          startInFlight := book.startInFlight || IsStart(m),
          dedup := if nextKey.None? then book.dedup
                   else book.dedup.(inFlight := book.dedup.inFlight + {nextKey.value},
                                    requestKeys := book.dedup.requestKeys[id := nextKey.value]))
  }

  function Enqueue(waiters: map<JsString, seq<Waiter>>, key: JsString, w: Waiter): map<JsString, seq<Waiter>> {
    waiters[key := (if key in waiters then waiters[key] else []) + [w]]
  }

  /** How a runtime operation with request id `id` is dealt with. */
  datatype Routing = FromCache(response: Message) | BehindNext(key: JsString) | FromSnapshot | BehindStart | ToOwner

  function RoutingOf(book: Book, m: Message): Routing {
    var nextKey := NextKey(m);
    if nextKey.Some? && nextKey.value in book.dedup.cache.responses then
      FromCache(book.dedup.cache.responses[nextKey.value])
    else if nextKey.Some? && nextKey.value in book.dedup.inFlight then BehindNext(nextKey.value)
    else if IsStart(m) && book.snapshot.Some? then FromSnapshot
    else if IsStart(m) && book.startInFlight then BehindStart
    else ToOwner
  }

  function SnapshotResponse(id: JsString, snapshot: Option<Value>): Message {
    Message(RpcResponse, None, Some(id), OtherParams, true, snapshot, None, None, NoFields)
  }

  /** A runtime operation; without a string request id it only passes through to the owner. */
  function Operate(s: State, port: Port, m: Message): (r: State)
    requires Elected(s)
    ensures Elected(r)
  {
    if m.requestId.None? then Send(s, s.owner, Input(m))
    else
      var id := m.requestId.value;
      match RoutingOf(s.book, m)
      case FromCache(response) => Send(s, Some(port), Relayed(Addressed(response, id)))
      case BehindNext(key) =>
        WithDedup(s, s.book.dedup.(waiters := Enqueue(s.book.dedup.waiters, key, Waiter(port, id))))
      case FromSnapshot => Send(s, Some(port), Relayed(SnapshotResponse(id, s.book.snapshot)))
      case BehindStart => s.(book := s.book.(startWaiters := s.book.startWaiters + [Waiter(port, id)]))
      case ToOwner => Send(s.(book := Enter(s.book, port, id, m)), s.owner, Input(m))
  }

  /** port.onmessage */
  function Receive(s: State, port: Port, inbound: Inbound): (r: State)
    requires Elected(s)
    ensures Elected(r)
  {
    match inbound
    case Disconnecting => Disconnect(s, Some(port))
    case OwnerOutput(m) => if Some(port) == s.owner then RouteOwnerOutput(s, m) else s
    case RuntimeStart =>
      var s1 := s.(runtimeRequested := true);
      if s.owner.Some? then Send(s1, s.owner, StartNotice) else s1
    case Ordinary(m) =>
      if IsRuntimeOperation(m) && s.owner.Some? then Operate(s, port, m) else s
  }

  /** The port joins; the first one becomes the owner. */
  function Admitted(s: State, port: Port): (r: State)
    requires Elected(s)
    ensures Elected(r)
  {
    s.(ports := if port in s.ports then s.ports else s.ports + [port],
       owner := if s.owner.None? then Some(port) else s.owner)
  }

  /** onconnect */
  function Connect(s: State, port: Port): (r: State)
    requires Elected(s)
    ensures Elected(r)
  {
    var s1 := Admitted(s, port);
    var s2 := Send(s1, Some(port), if s.owner.None? then OwnerNotice else FollowerNotice);
    var s3 := Send(s2, Some(port), Relayed(s2.board.statusMessage));
    var s4 := if s3.board.resultMessage.Some? then Send(s3, Some(port), Relayed(s3.board.resultMessage.value)) else s3;
    if s4.board.readyMessage.Some? then
      var ready := s4.board.readyMessage.value;
      Send(s4, Some(port), Relayed(if Some(port) == s4.owner then ready else SharedReady(ready)))
    else s4
  }

  lemma {:induction false} ConnectEvolves(s: State, port: Port)
    requires Elected(s)
    ensures Evolves(Admitted(s, port), Connect(s, port))
  {
    var s1 := Admitted(s, port);
    var s2 := Send(s1, Some(port), if s.owner.None? then OwnerNotice else FollowerNotice);
    var s3 := Send(s2, Some(port), Relayed(s2.board.statusMessage));
    var s4 := if s3.board.resultMessage.Some? then Send(s3, Some(port), Relayed(s3.board.resultMessage.value)) else s3;
    EvolvesTransitive(s1, s2, s3);
    EvolvesTransitive(s1, s3, s4);
    EvolvesTransitive(s1, s4, Connect(s, port));
  }

  // ---- Runs -----------------------------------------------------------------------------------

  datatype Event = Connecting(port: Port) | Receiving(port: Port, inbound: Inbound)

  function Step(s: State, e: Event): (r: State)
    requires Elected(s)
    ensures Elected(r)
  {
    match e
    case Connecting(port) => Connect(s, port)
    case Receiving(port, inbound) => Receive(s, port, inbound)
  }

  function Run(s: State, events: seq<Event>): (r: State)
    requires Elected(s)
    ensures Elected(r)
  {
    if events == [] then s else Step(Run(s, events[..|events| - 1]), events[|events| - 1])
  }
}
