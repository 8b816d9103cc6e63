/**
 * The capability broker (provider-broker/src/main.rs): concurrent requests over one permit, a request
 * counter and a revocation flag, each request a program counter that moves one step at a time.
 */
module Broker {
  import opened Options
  import opened Json
  import opened ByteStrings

  const U64 := 0x1_0000_0000_0000_0000
  const MAX_RESPONSE_BYTES := 2 * 1024 * 1024

  /** `isZero` says whether a number is 0.0 as a binary64. */
  datatype Config = Config(
    adminToken: Bytes, brokerToken: Bytes, maxRequests: nat, expiresAt: int, model: JsString,
    isZero: NumberText -> bool)

  /** The authorization header, what is_json_content_type says, and the body as parsed. */
  datatype Request = Request(authorization: Option<Bytes>, isJson: bool, body: Option<Value>)

  datatype Invalid = InvalidJson | BodyMustBeObject | ModelNotGranted | StreamingRequired
                   | TemperatureZeroRequired | MessagesRequired

  datatype Reply =
    | Unauthorized | CapabilityRevoked | CapabilityExpired | ConcurrentRequest | BudgetExhausted | NotJson
    | BadBody(reason: Invalid) | BuildFailed | UpstreamFailed | Streamed | StreamCut | Abandoned

  const BEARER: Bytes := [66, 101, 97, 114, 101, 114, 32]

  predicate Authorized(authorization: Option<Bytes>, token: Bytes) {
    authorization.Some? && authorization.value == BEARER + token
  }

  function ValidateBody(c: Config, body: Option<Value>): Option<Invalid> {
    if body.None? then Some(InvalidJson)
    else if !body.value.Object? then Some(BodyMustBeObject)
    else
      var fields := body.value.fields;
      if Get(fields, Ascii("model")) != Some(Text(c.model)) then Some(ModelNotGranted)
      else if Get(fields, Ascii("stream")) != Some(Bool(true)) then Some(StreamingRequired)
      else
        var temperature, messages := Get(fields, Ascii("temperature")), Get(fields, Ascii("messages"));
        if !(temperature.Some? && temperature.value.Number? && c.isZero(temperature.value.text)) then
          Some(TemperatureZeroRequired)
        else if !(messages.Some? && messages.value.Array? && messages.value.items.Item?) then Some(MessagesRequired)
        else None
  }

  /** What the atomics and the semaphore hold. */
  datatype Shared = Shared(permitFree: bool, count: nat, revoked: bool)

  /** The instant a request read, and when its denial check ran. */
  datatype Check = Check(now: int, at: nat)

  /** Where a request is in `chat_completions`.  From `Admitted` to `Releasing` it holds the permit. */
  datatype Pc =
    | Arrived
    | Timed(now: int)
    | Cleared(check: Check)
    | Admitted(check: Check)
    | Numbered(check: Check, number: nat)
    | Validated(check: Check, number: nat)
    | Sent(check: Check, number: nat)
    | Streaming(check: Check, number: nat, received: nat)
    | Releasing(reply: Reply)
    | Done(reply: Reply)

  /** What the environment answers: building and sending succeed or not, chunks come, the client leaves. */
  datatype Choice = Proceed | Fail | Chunk(bytes: Bytes) | Leave

  predicate Holds(pc: Pc) {
    pc.Admitted? || pc.Numbered? || pc.Validated? || pc.Sent? || pc.Streaming? || pc.Releasing?
  }

  function Clear(c: Config, s: Shared, now: int, at: nat): Pc {
    if s.revoked then Done(CapabilityRevoked)
    else if now >= c.expiresAt then Done(CapabilityExpired)
    else Cleared(Check(now, at))
  }

  function Validate(c: Config, r: Request, check: Check, number: nat): Pc {
    if number > c.maxRequests then Releasing(BudgetExhausted)
    else if !r.isJson then Releasing(NotJson)
    else
      var invalid := ValidateBody(c, r.body);
      if invalid.Some? then Releasing(BadBody(invalid.value)) else Validated(check, number)
  }

  /** The stream's next item; only here and while sending can the client's leaving be noticed. */
  function Stream(pc: Pc, choice: Choice): Pc
    requires pc.Streaming?
  {
    match choice
    case Proceed => Releasing(Streamed)
    case Fail => Releasing(StreamCut)
    case Leave => Releasing(Abandoned)
    case Chunk(bytes) =>
      if pc.received + |bytes| > MAX_RESPONSE_BYTES then Releasing(StreamCut)
      else pc.(received := pc.received + |bytes|)
  }

  /** One step of one request. */
  function Next(c: Config, s: Shared, r: Request, pc: Pc, clock: int, at: nat, choice: Choice): (Shared, Pc) {
    match pc
    case Arrived => (s, if Authorized(r.authorization, c.brokerToken) then Timed(clock) else Done(Unauthorized))
    case Timed(now) => (s, Clear(c, s, now, at))
    case Cleared(check) =>
      if s.permitFree then (s.(permitFree := false), Admitted(check)) else (s, Done(ConcurrentRequest))
    case Admitted(check) => (s.(count := (s.count + 1) % U64), Numbered(check, (s.count + 1) % U64))
    case Numbered(check, number) => (s, Validate(c, r, check, number))
    case Validated(check, number) => (s, if choice == Fail then Releasing(BuildFailed) else Sent(check, number))
    case Sent(check, number) =>
      (s, if choice == Fail then Releasing(UpstreamFailed)
          else if choice == Leave then Releasing(Abandoned)
          else Streaming(check, number, 0))
    case Streaming(_, _, _) => (s, Stream(pc, choice))
    case Releasing(reply) => (s.(permitFree := true), Done(reply))
    case Done(_) => (s, pc)
  }

  // ---- Any number of requests -----------------------------------------------------------------

  datatype Handler = Handler(request: Request, pc: Pc)

  datatype Forward = Forward(handler: nat, check: Check, number: nat)

  /** `admissions` and `forwards` are histories; `revokedAt` is when the capability was revoked first. */
  datatype System = System(
    shared: Shared, clock: int, steps: nat, handlers: seq<Handler>,
    admissions: nat, revokedAt: nat, forwards: seq<Forward>)

  datatype Event =
    | Arrive(request: Request)
    | Go(handler: nat, choice: Choice)
    | Revoke(authorization: Option<Bytes>)
    | Tick(clock: int)

  function Start(clock: int): System {
    System(Shared(true, 0, false), clock, 0, [], 0, 0, [])
  }

  /** The system after request `i` has moved to `pc`. */
  function Moved(s: System, i: nat, shared: Shared, pc: Pc): System
    requires i < |s.handlers|
  {
    var h := s.handlers[i];
    s.(shared := shared, handlers := s.handlers[i := Handler(h.request, pc)], steps := s.steps + 1,
       admissions := if h.pc.Admitted? then s.admissions + 1 else s.admissions,
       forwards := if pc.Sent? then s.forwards + [Forward(i, pc.check, pc.number)] else s.forwards)
  }

  function Went(c: Config, s: System, i: nat, choice: Choice): System
    requires i < |s.handlers|
  {
    var h := s.handlers[i];
    var (shared, pc) := Next(c, s.shared, h.request, h.pc, s.clock, s.steps, choice);
    Moved(s, i, shared, pc)
  }

  function Step(c: Config, s: System, e: Event): System {
    match e
    case Arrive(r) => s.(handlers := s.handlers + [Handler(r, Arrived)], steps := s.steps + 1)
    case Go(i, choice) => if i < |s.handlers| then Went(c, s, i, choice) else s
    case Revoke(authorization) =>
      if Authorized(authorization, c.adminToken) && !s.shared.revoked
      then s.(shared := s.shared.(revoked := true), revokedAt := s.steps, steps := s.steps + 1)
      else s.(steps := s.steps + 1)
    case Tick(clock) => if clock > s.clock then s.(clock := clock, steps := s.steps + 1) else s
  }

  function Run(c: Config, clock: int, events: seq<Event>): System {
    if events == [] then Start(clock) else Step(c, Run(c, clock, events[..|events| - 1]), events[|events| - 1])
  }

  // ---- One permit -----------------------------------------------------------------------------

  /** At most one request holds the permit, and it is free exactly when none does. */
  ghost predicate OnePermit(s: System) {
    && (forall i, j :: 0 <= i < j < |s.handlers| ==> !(Holds(s.handlers[i].pc) && Holds(s.handlers[j].pc)))
    && (s.shared.permitFree <==> forall i :: 0 <= i < |s.handlers| ==> !Holds(s.handlers[i].pc))
  }

  /** A step takes the permit only if it is free, and gives it back only if it had it. */
  lemma {:induction false} NextPermit(c: Config, s: Shared, r: Request, pc: Pc, clock: int, at: nat, choice: Choice)
    ensures var (s', pc') := Next(c, s, r, pc, clock, at, choice);
      && s'.revoked == s.revoked
      && (!Holds(pc) && Holds(pc') ==> s.permitFree && !s'.permitFree)
      && (Holds(pc) && !Holds(pc') ==> s'.permitFree)
      && (Holds(pc) == Holds(pc') ==> s'.permitFree == s.permitFree)
  {
  }

  lemma {:induction false} WentKeepsPermit(c: Config, s: System, i: nat, choice: Choice)
    requires OnePermit(s) && i < |s.handlers|
    ensures OnePermit(Went(c, s, i, choice))
  {
    var h, t := s.handlers[i], Went(c, s, i, choice);
    NextPermit(c, s.shared, h.request, h.pc, s.clock, s.steps, choice);
    assert forall j :: 0 <= j < |s.handlers| && j != i ==> t.handlers[j] == s.handlers[j];
    if Holds(h.pc) || Holds(t.handlers[i].pc) {
      forall j | 0 <= j < |s.handlers| && j != i ensures !Holds(t.handlers[j].pc) {
        assert !Holds(s.handlers[j].pc);
      }
      assert !s.shared.permitFree == Holds(h.pc);
      assert !t.shared.permitFree == Holds(t.handlers[i].pc);
    } else {
      assert t.shared.permitFree == s.shared.permitFree;
      forall j | 0 <= j < |s.handlers| ensures Holds(t.handlers[j].pc) == Holds(s.handlers[j].pc) {}
      if forall j :: 0 <= j < |t.handlers| ==> !Holds(t.handlers[j].pc) {
        forall j | 0 <= j < |s.handlers| ensures !Holds(s.handlers[j].pc) { assert !Holds(t.handlers[j].pc); }
      }
    }
  }

  lemma {:induction false} StepKeepsPermit(c: Config, s: System, e: Event)
    requires OnePermit(s)
    ensures OnePermit(Step(c, s, e))
  {
    if e.Go? && e.handler < |s.handlers| {
      WentKeepsPermit(c, s, e.handler, e.choice);
    } else if e.Arrive? {
      var t := Step(c, s, e);
      assert forall j :: 0 <= j < |s.handlers| ==> t.handlers[j] == s.handlers[j];
    }
  }

  // ---- Checks ---------------------------------------------------------------------------------

  function CheckOf(pc: Pc): Option<Check> {
    match pc
    case Cleared(check) => Some(check)
    case Admitted(check) => Some(check)
    case Numbered(check, _) => Some(check)
    case Validated(check, _) => Some(check)
    case Sent(check, _) => Some(check)
    case Streaming(check, _, _) => Some(check)
    case _ => None
  }

  /** The check saw an instant before expiry, not in the future, and ran before the revocation. */
  ghost predicate Good(c: Config, s: System, check: Check) {
    check.now < c.expiresAt && check.now <= s.clock && check.at < s.steps
      && (s.shared.revoked ==> check.at < s.revokedAt)
  }

  predicate Valid(c: Config, r: Request) {
    Authorized(r.authorization, c.brokerToken) && r.isJson && ValidateBody(c, r.body) == None
  }

  ghost predicate Checked(c: Config, s: System) {
    && (s.shared.revoked ==> s.revokedAt < s.steps)
    && (forall i :: 0 <= i < |s.handlers| && s.handlers[i].pc.Timed? ==> s.handlers[i].pc.now <= s.clock)
    && (forall i :: 0 <= i < |s.handlers| && CheckOf(s.handlers[i].pc).Some? ==>
          Good(c, s, CheckOf(s.handlers[i].pc).value))
    && (forall k :: 0 <= k < |s.forwards| ==> Good(c, s, s.forwards[k].check))
  }

  lemma {:induction false} GoodLater(c: Config, s: System, e: Event, check: Check)
    requires Good(c, s, check)
    ensures Good(c, Step(c, s, e), check)
  {
  }

  lemma {:induction false} NextCheck(c: Config, s: Shared, r: Request, pc: Pc, clock: int, at: nat, choice: Choice)
    ensures var (_, pc') := Next(c, s, r, pc, clock, at, choice);
      && (pc'.Timed? ==> pc'.now == clock)
      && (CheckOf(pc').Some? ==>
            CheckOf(pc') == CheckOf(pc)
            || (pc.Timed? && CheckOf(pc').value == Check(pc.now, at) && !s.revoked && pc.now < c.expiresAt))
  {
  }

  lemma {:induction false} StepKeepsChecked(c: Config, s: System, e: Event)
    requires Checked(c, s)
    ensures Checked(c, Step(c, s, e))
  {
    var t := Step(c, s, e);
    forall check | Good(c, s, check) ensures Good(c, t, check) { GoodLater(c, s, e, check); }
    if e.Go? && e.handler < |s.handlers| {
      var h := s.handlers[e.handler];
      NextCheck(c, s.shared, h.request, h.pc, s.clock, s.steps, e.choice);
      NextPermit(c, s.shared, h.request, h.pc, s.clock, s.steps, e.choice);
      var pc := t.handlers[e.handler].pc;
      if CheckOf(pc).Some? { assert Good(c, t, CheckOf(pc).value); }
    }
  }

  // ---- Numbers --------------------------------------------------------------------------------

  predicate Accepted(c: Config, r: Request, pc: Pc) {
    match pc
    case Arrived => true
    case Validated(_, number) => Valid(c, r) && number <= c.maxRequests
    case Sent(_, number) => Valid(c, r) && number <= c.maxRequests
    case Streaming(_, number, received) => Valid(c, r) && number <= c.maxRequests && received <= MAX_RESPONSE_BYTES
    case Releasing(_) => true
    case Done(_) => true
    case _ => Authorized(r.authorization, c.brokerToken)
  }

  predicate Forwarded(pc: Pc) {
    pc.Sent? || pc.Streaming? || pc.Releasing? || pc.Done?
  }

  predicate Waits(pc: Pc) { pc.Numbered? || pc.Validated? }

  /** The forwards so far have increasing numbers, and the request with the last number is yet to be
      forwarded or not. */
  ghost predicate NumbersIncrease(s: System) {
    && (forall k :: 0 <= k < |s.forwards| ==> 1 <= s.forwards[k].number <= s.admissions)
    && (forall j, k :: 0 <= j < k < |s.forwards| ==> s.forwards[j].number < s.forwards[k].number)
    && (forall i :: 0 <= i < |s.handlers| && Waits(s.handlers[i].pc) ==>
          && s.handlers[i].pc.number == s.admissions >= 1
          && forall k :: 0 <= k < |s.forwards| ==> s.forwards[k].number < s.admissions)
  }

  /** A forward is of a valid request that has been forwarded, within the budget. */
  predicate GoodForward(c: Config, handlers: seq<Handler>, f: Forward) {
    && f.number <= c.maxRequests && f.handler < |handlers|
    && Valid(c, handlers[f.handler].request) && Forwarded(handlers[f.handler].pc)
  }

  ghost predicate Counted(c: Config, s: System) {
    && s.shared.count == s.admissions % U64
    && (forall i :: 0 <= i < |s.handlers| ==> Accepted(c, s.handlers[i].request, s.handlers[i].pc))
    && (forall k :: 0 <= k < |s.forwards| ==> GoodForward(c, s.handlers, s.forwards[k]))
    && (forall j, k :: 0 <= j < k < |s.forwards| ==> s.forwards[j].handler != s.forwards[k].handler)
  }

  /** What a step does to the counter, and where forwards come from. */
  ghost predicate Counts(c: Config, r: Request, s: Shared, pc: Pc, s': Shared, pc': Pc) {
    && Accepted(c, r, pc')
    && (Forwarded(pc) ==> Forwarded(pc') && !pc'.Sent?)
    && (pc'.Sent? ==> pc == Validated(pc'.check, pc'.number))
    && (pc'.Numbered? <==> pc.Admitted?)
    && (pc'.Numbered? ==> pc'.number == (s.count + 1) % U64)
    && (pc'.Validated? ==> pc == Numbered(pc'.check, pc'.number))
    && s'.count == if pc.Admitted? then (s.count + 1) % U64 else s.count
  }

  lemma {:induction false} NextCounts(c: Config, s: Shared, r: Request, pc: Pc, clock: int, at: nat, choice: Choice)
    requires Accepted(c, r, pc)
    ensures var (s', pc') := Next(c, s, r, pc, clock, at, choice); Counts(c, r, s, pc, s', pc')
  {
  }

  lemma {:induction false} MovedKeepsCounted(c: Config, s: System, i: nat, shared: Shared, pc: Pc)
    requires Counted(c, s) && i < |s.handlers|
    requires Counts(c, s.handlers[i].request, s.shared, s.handlers[i].pc, shared, pc)
    ensures Counted(c, Moved(s, i, shared, pc))
  {
    var t := Moved(s, i, shared, pc);
    forall k | 0 <= k < |t.forwards| ensures GoodForward(c, t.handlers, t.forwards[k]) {
      if k < |s.forwards| {
        assert GoodForward(c, s.handlers, s.forwards[k]);
        if s.forwards[k].handler == i { assert Forwarded(pc); }
      }
    }
    forall j, k | 0 <= j < k < |t.forwards| ensures t.forwards[j].handler != t.forwards[k].handler {
      assert GoodForward(c, s.handlers, s.forwards[j]);
    }
  }

  lemma {:induction false} StepKeepsCounted(c: Config, s: System, e: Event)
    requires Counted(c, s)
    ensures Counted(c, Step(c, s, e))
  {
    if e.Go? && e.handler < |s.handlers| {
      var h := s.handlers[e.handler];
      NextCounts(c, s.shared, h.request, h.pc, s.clock, s.steps, e.choice);
      var (shared, pc) := Next(c, s.shared, h.request, h.pc, s.clock, s.steps, e.choice);
      MovedKeepsCounted(c, s, e.handler, shared, pc);
    }
  }

  lemma {:induction false} HolderAlone(s: System, i: nat)
    requires OnePermit(s) && i < |s.handlers| && Holds(s.handlers[i].pc)
    ensures forall j :: 0 <= j < |s.handlers| && j != i ==> !Waits(s.handlers[j].pc)
  {
    forall j | 0 <= j < |s.handlers| && j != i ensures !Holds(s.handlers[j].pc) {}
  }

  lemma {:induction false} MovedKeepsNumbers(c: Config, s: System, i: nat, shared: Shared, pc: Pc)
    requires OnePermit(s) && Counted(c, s) && NumbersIncrease(s) && i < |s.handlers|
    requires Counts(c, s.handlers[i].request, s.shared, s.handlers[i].pc, shared, pc)
    requires Moved(s, i, shared, pc).admissions < U64
    ensures NumbersIncrease(Moved(s, i, shared, pc))
  {
    var h, t := s.handlers[i], Moved(s, i, shared, pc);
    if h.pc.Admitted? || pc.Sent? { HolderAlone(s, i); }
  }

  /** The permit makes the counter and the forwards agree: nobody is numbered while a number waits. */
  lemma {:induction false} StepKeepsNumbers(c: Config, s: System, e: Event)
    requires OnePermit(s) && Counted(c, s) && NumbersIncrease(s)
    requires Step(c, s, e).admissions < U64
    ensures NumbersIncrease(Step(c, s, e))
  {
    if e.Go? && e.handler < |s.handlers| {
      var h := s.handlers[e.handler];
      NextCounts(c, s.shared, h.request, h.pc, s.clock, s.steps, e.choice);
      var (shared, pc) := Next(c, s.shared, h.request, h.pc, s.clock, s.steps, e.choice);
      MovedKeepsNumbers(c, s, e.handler, shared, pc);
    }
  }

  // ---- Every run ------------------------------------------------------------------------------

  lemma {:induction false} AdmissionsGrow(c: Config, s: System, e: Event)
    ensures s.admissions <= Step(c, s, e).admissions
  {
  }

  lemma {:induction false} RunSafe(c: Config, clock: int, events: seq<Event>)
    ensures var s := Run(c, clock, events);
      OnePermit(s) && Checked(c, s) && Counted(c, s) && (s.admissions < U64 ==> NumbersIncrease(s))
  {
    if events != [] {
      var before, e := Run(c, clock, events[..|events| - 1]), events[|events| - 1];
      RunSafe(c, clock, events[..|events| - 1]);
      StepKeepsPermit(c, before, e);
      StepKeepsChecked(c, before, e);
      StepKeepsCounted(c, before, e);
      AdmissionsGrow(c, before, e);
      if Step(c, before, e).admissions < U64 { StepKeepsNumbers(c, before, e); }
    }
  }

  lemma {:induction false} IncreasingAtLeast(forwards: seq<Forward>, k: nat)
    requires k < |forwards| && (forall i :: 0 <= i < |forwards| ==> forwards[i].number >= 1)
    requires forall i, j :: 0 <= i < j < |forwards| ==> forwards[i].number < forwards[j].number
    ensures forwards[k].number >= k + 1
  {
    if k > 0 { IncreasingAtLeast(forwards, k - 1); }
  }

  /**
   * In every interleaving: at most one request is between taking the permit and the end of its
   * stream; every forward is of a different, authorized and valid request, whose check preceded
   * revocation and expiry; and below 2^64 admissions the forwards have distinct numbers up to
   * max_requests, so there are no more of them than that.
   */
  lemma {:induction false} BrokerSafe(c: Config, clock: int, events: seq<Event>)
    ensures var s := Run(c, clock, events);
      && (forall i, j :: 0 <= i < j < |s.handlers| ==> !(Holds(s.handlers[i].pc) && Holds(s.handlers[j].pc)))
      && (forall j, k :: 0 <= j < k < |s.forwards| ==> s.forwards[j].handler != s.forwards[k].handler)
      && (forall k :: 0 <= k < |s.forwards| ==>
            && s.forwards[k].handler < |s.handlers| && Valid(c, s.handlers[s.forwards[k].handler].request)
            && s.forwards[k].check.now < c.expiresAt
            && (s.shared.revoked ==> s.forwards[k].check.at < s.revokedAt))
      && (s.admissions < U64 ==>
            && |s.forwards| <= c.maxRequests
            && (forall k :: 0 <= k < |s.forwards| ==> 1 <= s.forwards[k].number <= c.maxRequests)
            && (forall j, k :: 0 <= j < k < |s.forwards| ==> s.forwards[j].number != s.forwards[k].number))
  {
    var s := Run(c, clock, events);
    RunSafe(c, clock, events);
    if s.admissions < U64 && s.forwards != [] { IncreasingAtLeast(s.forwards, |s.forwards| - 1); }
  }

  // ---- One request with nothing in between ----------------------------------------------------

  function Rank(pc: Pc): nat {
    match pc
    case Arrived => 9
    case Timed(_) => 8
    case Cleared(_) => 7
    case Admitted(_) => 6
    case Numbered(_, _) => 5
    case Validated(_, _) => 4
    case Sent(_, _) => 3
    case Streaming(_, _, _) => 2
    case Releasing(_) => 1
    case Done(_) => 0
  }

  /** The steps of one request until it is forwarded or answered. */
  function Serve(c: Config, s: Shared, r: Request, pc: Pc, clock: int, at: nat, built: bool): (Shared, Pc)
    decreases Rank(pc)
  {
    if pc.Sent? || pc.Streaming? || pc.Done? then (s, pc)
    else
      var (s', pc') := Next(c, s, r, pc, clock, at, if built then Proceed else Fail);
      Serve(c, s', r, pc', clock, at, built)
  }

  predicate Admits(c: Config, s: Shared, r: Request, clock: int) {
    Authorized(r.authorization, c.brokerToken) && !s.revoked && clock < c.expiresAt && s.permitFree
  }

  /** The answer of a request that is not forwarded: the first reason, in this order. */
  function Refusal(c: Config, s: Shared, r: Request, clock: int, built: bool): Option<Reply> {
    if !Authorized(r.authorization, c.brokerToken) then Some(Unauthorized)
    else if s.revoked then Some(CapabilityRevoked)
    else if clock >= c.expiresAt then Some(CapabilityExpired)
    else if !s.permitFree then Some(ConcurrentRequest)
    else Rejection(c, r, (s.count + 1) % U64, built)
  }

  function Rejection(c: Config, r: Request, number: nat, built: bool): Option<Reply> {
    if number > c.maxRequests then Some(BudgetExhausted)
    else if !r.isJson then Some(NotJson)
    else if ValidateBody(c, r.body).Some? then Some(BadBody(ValidateBody(c, r.body).value))
    else if !built then Some(BuildFailed)
    else None
  }

  lemma {:induction false} ServeNext(c: Config, s: Shared, r: Request, pc: Pc, clock: int, at: nat, built: bool)
    requires !pc.Sent? && !pc.Streaming? && !pc.Done?
    ensures var (s', pc') := Next(c, s, r, pc, clock, at, if built then Proceed else Fail);
      Serve(c, s, r, pc, clock, at, built) == Serve(c, s', r, pc', clock, at, built)
  {
  }

  /** From its number on, a request keeps the counter as it is and is forwarded exactly if it is valid and in the
      budget. */
  lemma {:induction false} ServeNumbered(c: Config, s: Shared, r: Request, check: Check, number: nat, clock: int,
                                         at: nat, built: bool)
    requires Authorized(r.authorization, c.brokerToken) && !s.permitFree
    ensures var (s', pc') := Serve(c, s, r, Numbered(check, number), clock, at, built);
      && (pc'.Sent? <==> Valid(c, r) && number <= c.maxRequests && built)
      && s' == s.(permitFree := !pc'.Sent?)
      && pc' == (var why := Rejection(c, r, number, built); if why.Some? then Done(why.value) else Sent(check, number))
  {
    ServeNext(c, s, r, Numbered(check, number), clock, at, built);
    var pc := Validate(c, r, check, number);
    ServeNext(c, s, r, pc, clock, at, built);
    if pc.Validated? && !built { ServeNext(c, s, r, Releasing(BuildFailed), clock, at, built); }
  }

  /**
   * A request is forwarded exactly when every condition holds; otherwise it is answered with the first
   * reason against it and the permit is as it was.  It uses up the budget whenever it gets the permit,
   * also when its body is refused afterwards.
   */
  lemma {:induction false} ForwardedExactlyWhen(c: Config, s: Shared, r: Request, clock: int, at: nat, built: bool)
    ensures var (s', pc') := Serve(c, s, r, Arrived, clock, at, built);
      && (pc'.Sent? <==> Admits(c, s, r, clock) && (s.count + 1) % U64 <= c.maxRequests && Valid(c, r) && built)
      && s'.permitFree == (s.permitFree && !pc'.Sent?)
      && s'.count == (if Admits(c, s, r, clock) then (s.count + 1) % U64 else s.count)
      && s'.revoked == s.revoked
      && (var why := Refusal(c, s, r, clock, built);
          pc' == if why.Some? then Done(why.value) else Sent(Check(clock, at), (s.count + 1) % U64))
  {
    ServeNext(c, s, r, Arrived, clock, at, built);
    if Authorized(r.authorization, c.brokerToken) {
      ServeNext(c, s, r, Timed(clock), clock, at, built);
      if !s.revoked && clock < c.expiresAt {
        var check := Check(clock, at);
        ServeNext(c, s, r, Cleared(check), clock, at, built);
        if s.permitFree {
          var s1 := s.(permitFree := false);
          ServeNext(c, s1, r, Admitted(check), clock, at, built);
          ServeNumbered(c, s1.(count := (s.count + 1) % U64), r, check, (s.count + 1) % U64, clock, at, built);
        }
      }
    }
  }

  /** What the handlers share. */
  class BrokerState {
    const config: Config
    var permitFree: bool
    var requestCount: nat
    var revoked: bool

    constructor (config: Config)
      ensures this.config == config && Now() == Start(0).shared
    {
      this.config := config;
      permitFree, requestCount, revoked := true, 0, false;
    }

    ghost function Now(): Shared
      reads this
    {
      Shared(permitFree, requestCount, revoked)
    }

    /** `chat_completions`, up to the forward or the answer: the steps of the program counter. */
    method ChatCompletions(r: Request, clock: int, ghost at: nat, built: bool)
      returns (reply: Option<Reply>, number: nat)
      modifies this`permitFree, this`requestCount
      ensures var (s', pc') := Serve(config, old(Now()), r, Arrived, clock, at, built);
        Now() == s' && pc' == if reply.Some? then Done(reply.value) else Sent(Check(clock, at), number)
    {
      number := 0;
      ServeNext(config, Now(), r, Arrived, clock, at, built);
      if !Authorized(r.authorization, config.brokerToken) { return Some(Unauthorized), number; }
      ServeNext(config, Now(), r, Timed(clock), clock, at, built);
      if revoked { return Some(CapabilityRevoked), number; }
      if clock >= config.expiresAt { return Some(CapabilityExpired), number; }
      ghost var check := Check(clock, at);
      ServeNext(config, Now(), r, Cleared(check), clock, at, built);
      if !permitFree { return Some(ConcurrentRequest), number; }
      permitFree := false;
      ServeNext(config, Now(), r, Admitted(check), clock, at, built);
      requestCount := (requestCount + 1) % U64;
      number := requestCount;
      ServeNext(config, Now(), r, Numbered(check, number), clock, at, built);
      var invalid := ValidateBody(config, r.body);
      if number > config.maxRequests { reply := Some(BudgetExhausted); }
      else if !r.isJson { reply := Some(NotJson); }
      else if invalid.Some? { reply := Some(BadBody(invalid.value)); }
      else {
        ServeNext(config, Now(), r, Validated(check, number), clock, at, built);
        reply := if built then None else Some(BuildFailed);
      }
      if reply.Some? {
        ServeNext(config, Now(), r, Releasing(reply.value), clock, at, built);
        permitFree := true;
      }
    }

    method RevokeCapability(authorization: Option<Bytes>) returns (alreadyRevoked: Option<bool>)
      modifies this`revoked
      ensures alreadyRevoked.Some? <==> authorization == Some(BEARER + config.adminToken)
      ensures alreadyRevoked.Some? ==> alreadyRevoked.value == old(revoked)
      ensures revoked == (old(revoked) || alreadyRevoked.Some?)
    {
      if !Authorized(authorization, config.adminToken) { return None; }
      alreadyRevoked := Some(revoked);
      revoked := true;
    }
  }

  // ---- The response stream --------------------------------------------------------------------

  function Total(chunks: seq<Bytes>): nat {
    if chunks == [] then 0 else Total(chunks[..|chunks| - 1]) + |chunks[|chunks| - 1]|
  }

  /** The first `n` items from upstream are the chunks `sent`, within the limit. */
  predicate Passes(upstream: seq<Option<Bytes>>, sent: seq<Bytes>) {
    && |sent| <= |upstream| && Total(sent) <= MAX_RESPONSE_BYTES
    && forall i :: 0 <= i < |sent| ==> upstream[i] == Some(sent[i])
  }

  /** guarded_provider_stream; an item is a chunk or an upstream error, and chunk lengths fit a usize. */
  method GuardedStream(upstream: seq<Option<Bytes>>) returns (sent: seq<Bytes>, ok: bool)
    requires forall i :: 0 <= i < |upstream| && upstream[i].Some? ==> |upstream[i].value| < U64
    ensures Passes(upstream, sent)
    ensures ok <==> |sent| == |upstream|
    ensures !ok ==> upstream[|sent|].None? || Total(sent) + |upstream[|sent|].value| > MAX_RESPONSE_BYTES
  {
    sent := [];
    var responseBytes: nat := 0;
    for i := 0 to |upstream|
      invariant |sent| == i && Passes(upstream, sent)
      invariant responseBytes == Total(sent)
    {
      if upstream[i].None? { return sent, false; }
      var chunk := upstream[i].value;
      if responseBytes + |chunk| >= U64 { return sent, false; }
      responseBytes := responseBytes + |chunk|;
      if responseBytes > MAX_RESPONSE_BYTES { return sent, false; }
      assert (sent + [chunk])[..i] == sent;
      sent := sent + [chunk];
    }
    ok := true;
  }

  lemma {:induction false} TotalPrefix(chunks: seq<Bytes>, n: nat)
    requires n <= |chunks|
    ensures Total(chunks[..n]) <= Total(chunks)
    decreases |chunks|
  {
    if n < |chunks| {
      TotalPrefix(chunks[..|chunks| - 1], n);
      assert chunks[..|chunks| - 1][..n] == chunks[..n];
    } else {
      assert chunks[..n] == chunks;
    }
  }

  lemma {:induction false} MoreBytes(sent: seq<Bytes>, other: seq<Bytes>)
    requires |sent| < |other| && sent == other[..|sent|]
    ensures Total(other) >= Total(sent) + |other[|sent|]|
  {
    var n := |sent|;
    TotalPrefix(other, n + 1);
    assert other[..n + 1][..n] == sent;
  }

  /** Nothing longer than what GuardedStream sends passes, so what it sends is the longest prefix that does. */
  lemma {:induction false} SentIsLongest(upstream: seq<Option<Bytes>>, sent: seq<Bytes>, other: seq<Bytes>)
    requires Passes(upstream, sent) && Passes(upstream, other)
    requires |sent| < |upstream| ==>
      upstream[|sent|].None? || Total(sent) + |upstream[|sent|].value| > MAX_RESPONSE_BYTES
    ensures |other| <= |sent| && other == sent[..|other|]
  {
    assert forall i :: 0 <= i < |sent| && i < |other| ==> Some(other[i]) == upstream[i] == Some(sent[i]);
    if |other| > |sent| {
      assert upstream[|sent|] == Some(other[|sent|]);
      MoreBytes(sent, other);
    }
  }
}
