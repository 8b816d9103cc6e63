/** Runs of the mailbox: any number of concurrent guest calls and one host, in every interleaving. */
module MailboxRuns {
  import opened Options
  import opened Json
  import opened Mailbox

  /** Where a guest call is: writing its record, polling, or done. */
  datatype Stage = Writing | Waiting | Delivered(delivery: Delivery) | Garbled | TimedOut

  datatype Call = Call(time: nat, path: JsString, authorization: JsString, body: JsString, stage: Stage)

  /** Where the host's loop is, with the directory entries still to come. */
  datatype Phase =
    | Idle
    | Scanning(names: seq<JsString>)
    | Reading(name: JsString, rest: seq<JsString>)
    | Fetching(name: JsString, request: BridgeRequest, rest: seq<JsString>)
    | Replying(name: JsString, response: BridgeResponse, rest: seq<JsString>)
    | Removing(name: JsString, rest: seq<JsString>)

  datatype Stats = Stats(seen: nat, failed: nat, forwarded: nat)

  datatype Fetch = Fetch(id: JsString, request: BridgeRequest, upstream: Upstream)

  /** The shared directory and the host; `fetches` is a history, `faulted` says that a directory operation failed. */
  datatype Host = Host(
    requests: map<JsString, JsString>, responses: map<JsString, JsString>,
    stats: Stats, phase: Phase, fetches: seq<Fetch>, faulted: bool)

  datatype System = System(host: Host, calls: seq<Call>)

  datatype HostEvent =
    | List(names: seq<JsString>) | Take | Read(ok: bool) | Exchange(upstream: Upstream)
    | Write(units: nat) | Remove | Break | Fault

  datatype Event =
    | HostDoes(event: HostEvent)
    | Ask(time: nat, path: JsString, authorization: JsString, body: JsString, bytes: nat)
    | WriteTemporary(call: nat, units: nat)
    | Rename(call: nat)
    | Poll(call: nat)
    | Expire(call: nat)

  const START := System(Host(map[], map[], Stats(0, 0, 0), Idle, [], false), [])

  // ---- The host -------------------------------------------------------------------------------

  predicate NoDuplicates(names: seq<JsString>) {
    forall i, j :: 0 <= i < j < |names| ==> names[i] != names[j]
  }

  predicate Lists(names: seq<JsString>, files: map<JsString, JsString>) {
    NoDuplicates(names) && |names| == |files| && forall i :: 0 <= i < |names| ==> names[i] in files
  }

  function Refuse(p: Platform, h: Host, name: JsString, rest: seq<JsString>, refusal: Refusal): Host {
    h.(stats := h.stats.(failed := h.stats.failed + 1), phase := Replying(name, RefusalResponse(p, refusal), rest))
  }

  function AfterRead(p: Platform, c: Capability, h: Host, ok: bool): Host
    requires h.phase.Reading?
  {
    var name, rest := h.phase.name, h.phase.rest;
    if !ok || name !in h.requests || !IsRequestName(name) then Refuse(p, h, name, rest, Unreadable).(faulted := true)
    else
      match Examine(p, c, h.requests[name], IdOfName(name))
      case Refused(refusal) => Refuse(p, h, name, rest, refusal)
      case Fine(r) => h.(phase := Fetching(name, r, rest))
  }

  function AfterFetch(p: Platform, h: Host, u: Upstream): Host
    requires h.phase.Fetching?
  {
    var phase := h.phase;
    h.(stats := if Forwards(u) then h.stats.(forwarded := h.stats.forwarded + 1)
                else h.stats.(failed := h.stats.failed + 1),
       fetches := h.fetches + [Fetch(phase.request.id, phase.request, u)],
       phase := Replying(phase.name, Respond(p, u), phase.rest))
  }

  /** The response file while `units` of it have been written. */
  function AfterWrite(p: Platform, h: Host, units: nat): Host
    requires h.phase.Replying?
  {
    var text := p.printResponse(h.phase.response);
    if units < |text| then h.(responses := h.responses[h.phase.name := text[..units]])
    else h.(responses := h.responses[h.phase.name := text], phase := Removing(h.phase.name, h.phase.rest))
  }

  function HostStep(p: Platform, c: Capability, h: Host, e: HostEvent): Host {
    match e
    case List(names) => if h.phase.Idle? && Lists(names, h.requests) then h.(phase := Scanning(names)) else h
    case Take =>
      if !h.phase.Scanning? then h
      else if h.phase.names == [] then h.(phase := Idle)
      else if IsRequestName(h.phase.names[0]) then
        h.(stats := h.stats.(seen := h.stats.seen + 1), phase := Reading(h.phase.names[0], h.phase.names[1..]))
      else h.(phase := Scanning(h.phase.names[1..]))
    case Read(ok) => if h.phase.Reading? then AfterRead(p, c, h, ok) else h
    case Exchange(u) => if h.phase.Fetching? then AfterFetch(p, h, u) else h
    case Write(units) => if h.phase.Replying? then AfterWrite(p, h, units) else h
    case Remove =>
      if h.phase.Removing? then h.(requests := h.requests - {h.phase.name}, phase := Scanning(h.phase.rest)) else h
    case Break => if h.phase.Scanning? then h.(phase := Idle) else h
    case Fault => if h.phase.Replying? || h.phase.Removing? then h.(phase := Idle, faulted := true) else h
  }

  // ---- The guest ------------------------------------------------------------------------------

  function IdAt(calls: seq<Call>, i: nat): JsString
    requires i < |calls|
  {
    Id(calls[i].time, i + 1)
  }

  function RecordAt(calls: seq<Call>, i: nat): BridgeRequest
    requires i < |calls|
  {
    BridgeRequest(IdAt(calls, i), calls[i].path, calls[i].authorization, calls[i].body)
  }

  function TextAt(p: Platform, calls: seq<Call>, i: nat): JsString
    requires i < |calls|
  {
    p.printRequest(RecordAt(calls, i))
  }

  predicate At(s: System, i: nat, stage: Stage) { i < |s.calls| && s.calls[i].stage == stage }

  function SetStage(s: System, i: nat, stage: Stage): System
    requires i < |s.calls|
  {
    s.(calls := s.calls[i := s.calls[i].(stage := stage)])
  }

  function AfterPoll(p: Platform, s: System, i: nat): System
    requires i < |s.calls|
  {
    var name := FileName(IdAt(s.calls, i));
    if name !in s.host.responses then s
    else
      match p.parseResponse(s.host.responses[name])
      case None => SetStage(s, i, Garbled)
      case Some(r) => SetStage(s, i, Delivered(Deliver(r))).(host := s.host.(responses := s.host.responses - {name}))
  }

  function AfterRename(p: Platform, s: System, i: nat): System
    requires i < |s.calls|
  {
    var id, text := IdAt(s.calls, i), TextAt(p, s.calls, i);
    if Lookup(s.host.requests, TEMPORARY + id) != Some(text) then s
    else
      var requests := (s.host.requests - {TEMPORARY + id})[FileName(id) := text];
      SetStage(s, i, Waiting).(host := s.host.(requests := requests))
  }

  function Step(p: Platform, c: Capability, s: System, e: Event): System {
    match e
    case HostDoes(event) => s.(host := HostStep(p, c, s.host, event))
    case Ask(time, path, authorization, body, bytes) =>
      if (path == CHAT || path == RESPONSES) && bytes <= MAX_BODY_BYTES
      then s.(calls := s.calls + [Call(time, path, authorization, body, Writing)]) else s
    case WriteTemporary(i, units) =>
      if !At(s, i, Writing) then s
      else
        var text := TextAt(p, s.calls, i);
        s.(host := s.host.(requests := s.host.requests[TEMPORARY + IdAt(s.calls, i)
                             := if units < |text| then text[..units] else text]))
    case Rename(i) => if At(s, i, Writing) then AfterRename(p, s, i) else s
    case Poll(i) => if At(s, i, Waiting) then AfterPoll(p, s, i) else s
    case Expire(i) => if At(s, i, Waiting) then SetStage(s, i, TimedOut) else s
  }

  function Run(p: Platform, c: Capability, events: seq<Event>): System {
    if events == [] then START else Step(p, c, Run(p, c, events[..|events| - 1]), events[|events| - 1])
  }

  // ---- What holds in every reachable state ----------------------------------------------------

  /** The file the host is working on. */
  function Busy(phase: Phase): Option<JsString> {
    if phase.Idle? || phase.Scanning? then None else Some(phase.name)
  }

  function Rest(phase: Phase): seq<JsString> {
    if phase.Idle? then [] else if phase.Scanning? then phase.names else phase.rest
  }

  predicate Counts(h: Host) {
    h.stats.seen == h.stats.failed + h.stats.forwarded + if h.phase.Reading? || h.phase.Fetching? then 1 else 0
  }

  /** The host works through distinct files, all of which are there. */
  ghost predicate Names(h: Host) {
    && NoDuplicates(Rest(h.phase))
    && (forall name :: name in Rest(h.phase) && IsRequestName(name) ==> name in h.requests)
    && (Busy(h.phase).Some? ==>
          IsRequestName(h.phase.name) && h.phase.name in h.requests && h.phase.name !in Rest(h.phase))
  }

  predicate Published(s: System, i: nat) { i < |s.calls| && s.calls[i].stage != Writing }

  /** A request file is the whole record of a call. */
  ghost predicate Whole(p: Platform, s: System, name: JsString) {
    exists i :: Published(s, i) && name == FileName(IdAt(s.calls, i))
      && Lookup(s.host.requests, name) == Some(TextAt(p, s.calls, i))
  }

  ghost predicate RequestsWhole(p: Platform, s: System) {
    forall name :: name in s.host.requests && IsRequestName(name) ==> Whole(p, s, name)
  }

  /** The request was fetched for is out of the way: its file is gone, or about to be. */
  predicate Settled(h: Host, id: JsString) {
    FileName(id) !in h.requests || ((h.phase.Replying? || h.phase.Removing?) && h.phase.name == FileName(id))
  }

  ghost predicate FetchOf(p: Platform, c: Capability, s: System, f: Fetch) {
    exists i :: Published(s, i) && f.id == IdAt(s.calls, i) && f.request == RecordAt(s.calls, i)
      && Granted(p, c, f.request)
  }

  ghost predicate FetchesOnce(p: Platform, c: Capability, s: System) {
    && (forall k :: 0 <= k < |s.host.fetches| ==>
          Settled(s.host, s.host.fetches[k].id) && FetchOf(p, c, s, s.host.fetches[k]))
    && (forall j, k :: 0 <= j < k < |s.host.fetches| ==> s.host.fetches[j].id != s.host.fetches[k].id)
  }

  /** The response is the answer to call `i`: a refusal of its record, or what its one fetch gave. */
  ghost predicate Answers(p: Platform, c: Capability, s: System, i: nat, r: BridgeResponse)
    requires i < |s.calls|
  {
    match Examine(p, c, TextAt(p, s.calls, i), IdAt(s.calls, i))
    case Refused(refusal) => r == RefusalResponse(p, refusal)
    case Fine(_) =>
      exists k :: 0 <= k < |s.host.fetches| && s.host.fetches[k].id == IdAt(s.calls, i)
               && r == Respond(p, s.host.fetches[k].upstream)
  }

  ghost predicate AnswersFile(p: Platform, c: Capability, s: System, name: JsString, r: BridgeResponse) {
    exists i :: 0 <= i < |s.calls| && name == FileName(IdAt(s.calls, i)) && Answers(p, c, s, i, r)
  }

  /** What the host is about to do follows from the file it read. */
  ghost predicate WorkRight(p: Platform, c: Capability, s: System) {
    match s.host.phase
    case Fetching(name, request, _) =>
      name in s.host.requests && IsRequestName(name)
        && Examine(p, c, s.host.requests[name], IdOfName(name)) == Fine(request)
    case Replying(name, response, _) => AnswersFile(p, c, s, name, response)
    case _ => true
  }

  /** A response file is the whole answer to its call, or the host is still writing it. */
  ghost predicate ResponseRight(p: Platform, c: Capability, s: System, name: JsString, text: JsString) {
    || (exists r :: text == p.printResponse(r) && AnswersFile(p, c, s, name, r))
    || (s.host.phase.Replying? && s.host.phase.name == name && p.parseResponse(text) == None)
  }

  ghost predicate ResponsesRight(p: Platform, c: Capability, s: System) {
    forall name :: name in s.host.responses ==> ResponseRight(p, c, s, name, s.host.responses[name])
  }

  /** What a call gives its caller is the answer to its own record. */
  ghost predicate DeliveredRight(p: Platform, c: Capability, s: System, i: nat)
    requires i < |s.calls|
  {
    s.calls[i].stage.Delivered? ==> exists r :: Answers(p, c, s, i, r) && s.calls[i].stage.delivery == Deliver(r)
  }

  ghost predicate Correct(p: Platform, c: Capability, s: System) {
    && Names(s.host) && RequestsWhole(p, s) && FetchesOnce(p, c, s)
    && WorkRight(p, c, s) && ResponsesRight(p, c, s)
    && forall i :: 0 <= i < |s.calls| ==> DeliveredRight(p, c, s, i)
  }

  // ---- Time goes on ---------------------------------------------------------------------------

  /** Calls keep their records and fetches stay. */
  ghost predicate Extends(s: System, t: System) {
    && |s.calls| <= |t.calls|
    && (forall i :: 0 <= i < |s.calls| ==>
          IdAt(t.calls, i) == IdAt(s.calls, i) && RecordAt(t.calls, i) == RecordAt(s.calls, i)
          && (s.calls[i].stage != Writing ==> t.calls[i].stage != Writing))
    && s.host.fetches <= t.host.fetches
  }

  lemma {:induction false} AnswersLater(p: Platform, c: Capability, s: System, t: System, i: nat, r: BridgeResponse)
    requires Extends(s, t) && i < |s.calls| && Answers(p, c, s, i, r)
    ensures Answers(p, c, t, i, r)
  {
    if Examine(p, c, TextAt(p, s.calls, i), IdAt(s.calls, i)).Fine? {
      var k :| 0 <= k < |s.host.fetches| && s.host.fetches[k].id == IdAt(s.calls, i)
            && r == Respond(p, s.host.fetches[k].upstream);
      assert t.host.fetches[k] == s.host.fetches[k];
    }
  }

  lemma {:induction false} AnswersFileLater(p: Platform, c: Capability, s: System, t: System, name: JsString,
                                            r: BridgeResponse)
    requires Extends(s, t) && AnswersFile(p, c, s, name, r)
    ensures AnswersFile(p, c, t, name, r)
  {
    var i :| 0 <= i < |s.calls| && name == FileName(IdAt(s.calls, i)) && Answers(p, c, s, i, r);
    AnswersLater(p, c, s, t, i, r);
  }

  lemma {:induction false} WholeLater(p: Platform, s: System, t: System, name: JsString)
    requires Extends(s, t) && Whole(p, s, name) && Lookup(t.host.requests, name) == Lookup(s.host.requests, name)
    ensures Whole(p, t, name)
  {
    var i :| Published(s, i) && name == FileName(IdAt(s.calls, i))
      && Lookup(s.host.requests, name) == Some(TextAt(p, s.calls, i));
    assert Published(t, i) && TextAt(p, t.calls, i) == TextAt(p, s.calls, i);
  }

  lemma {:induction false} FetchOfLater(p: Platform, c: Capability, s: System, t: System, f: Fetch)
    requires Extends(s, t) && FetchOf(p, c, s, f)
    ensures FetchOf(p, c, t, f)
  {
    var i :| Published(s, i) && f.id == IdAt(s.calls, i) && f.request == RecordAt(s.calls, i)
      && Granted(p, c, f.request);
    assert Published(t, i);
  }

  lemma {:induction false} ResponseLater(p: Platform, c: Capability, s: System, t: System, name: JsString,
                                         text: JsString)
    requires Extends(s, t) && ResponseRight(p, c, s, name, text)
    requires s.host.phase.Replying? && s.host.phase.name == name && p.parseResponse(text) == None ==>
      t.host.phase.Replying? && t.host.phase.name == name
    ensures ResponseRight(p, c, t, name, text)
  {
    if r :| text == p.printResponse(r) && AnswersFile(p, c, s, name, r) { AnswersFileLater(p, c, s, t, name, r); }
  }

  lemma {:induction false} DeliveredLater(p: Platform, c: Capability, s: System, t: System, i: nat)
    requires Extends(s, t) && i < |s.calls| && DeliveredRight(p, c, s, i) && t.calls[i].stage == s.calls[i].stage
    ensures DeliveredRight(p, c, t, i)
  {
    if s.calls[i].stage.Delivered? {
      var r :| Answers(p, c, s, i, r) && s.calls[i].stage.delivery == Deliver(r);
      AnswersLater(p, c, s, t, i, r);
    }
  }

  /** Ids differ in their sequence numbers, so a file belongs to one call. */
  lemma {:induction false} OneOwner(s: System, i: nat, j: nat)
    requires i < |s.calls| && j < |s.calls| && FileName(IdAt(s.calls, i)) == FileName(IdAt(s.calls, j))
    ensures i == j
  {
    FileNameInjective(IdAt(s.calls, i), IdAt(s.calls, j));
    IdInjective(s.calls[i].time, i + 1, s.calls[j].time, j + 1);
  }

  // ---- The host's steps keep it ---------------------------------------------------------------

  lemma {:induction false} HostExtends(p: Platform, c: Capability, s: System, e: HostEvent)
    ensures Extends(s, s.(host := HostStep(p, c, s.host, e)))
  {
  }

  lemma {:induction false} TakeKeepsNames(p: Platform, c: Capability, h: Host)
    requires Names(h) && h.phase.Scanning? && h.phase.names != []
    ensures Names(HostStep(p, c, h, Take))
  {
    assert h.phase.names[0] in h.phase.names;
    assert forall name :: name in h.phase.names[1..] ==> name in h.phase.names;
  }

  lemma {:induction false} NamesKept(h: Host, h': Host)
    requires Names(h) && Rest(h'.phase) == Rest(h.phase)
    requires h'.requests == h.requests ==> Busy(h'.phase) == Busy(h.phase)
    requires h'.requests != h.requests ==>
      Busy(h.phase).Some? && h'.requests == h.requests - {h.phase.name} && Busy(h'.phase) == None
    ensures Names(h')
  {
  }

  /** Only List, Take and Break move on in the listing, and only Remove removes. */
  lemma {:induction false} OtherStepsKeepPlace(p: Platform, c: Capability, h: Host, e: HostEvent)
    requires !e.List? && !e.Break? && !e.Remove? && !(e.Take? && h.phase.Scanning? && h.phase.names != [])
             && !HostStep(p, c, h, e).faulted
    ensures var h' := HostStep(p, c, h, e);
      h'.requests == h.requests && Rest(h'.phase) == Rest(h.phase) && Busy(h'.phase) == Busy(h.phase)
  {
  }

  lemma {:induction false} HostKeepsNames(p: Platform, c: Capability, h: Host, e: HostEvent)
    requires Names(h) && !HostStep(p, c, h, e).faulted
    ensures Names(HostStep(p, c, h, e))
  {
    if e.Take? && h.phase.Scanning? && h.phase.names != [] {
      TakeKeepsNames(p, c, h);
    } else if e.Remove? {
      if h.phase.Removing? { NamesKept(h, HostStep(p, c, h, e)); }
    } else if !e.List? && !e.Break? {
      OtherStepsKeepPlace(p, c, h, e);
      NamesKept(h, HostStep(p, c, h, e));
    }
  }

  lemma {:induction false} HostKeepsRequests(p: Platform, c: Capability, s: System, e: HostEvent)
    requires RequestsWhole(p, s)
    ensures RequestsWhole(p, s.(host := HostStep(p, c, s.host, e)))
  {
    var t := s.(host := HostStep(p, c, s.host, e));
    HostExtends(p, c, s, e);
    forall name | name in t.host.requests && IsRequestName(name) ensures Whole(p, t, name) {
      WholeLater(p, s, t, name);
    }
  }

  lemma {:induction false} HostKeepsSettled(p: Platform, c: Capability, h: Host, e: HostEvent, id: JsString)
    requires Settled(h, id) && !HostStep(p, c, h, e).faulted
    ensures Settled(HostStep(p, c, h, e), id)
  {
  }

  lemma {:induction false} FetchesKept(p: Platform, c: Capability, s: System, t: System)
    requires FetchesOnce(p, c, s) && Extends(s, t) && t.host.fetches == s.host.fetches
    requires forall k :: 0 <= k < |s.host.fetches| ==> Settled(t.host, s.host.fetches[k].id)
    ensures FetchesOnce(p, c, t)
  {
    forall k | 0 <= k < |t.host.fetches| ensures FetchOf(p, c, t, t.host.fetches[k]) {
      FetchOfLater(p, c, s, t, s.host.fetches[k]);
    }
  }

  /** What is fetched is the whole record of a call, and it is fetched for the first time. */
  lemma {:induction false} ExchangeFetches(p: Platform, c: Capability, s: System, u: Upstream)
    requires Lawful(p) && Correct(p, c, s) && s.host.phase.Fetching?
    ensures var t := s.(host := AfterFetch(p, s.host, u));
            var f := Fetch(s.host.phase.request.id, s.host.phase.request, u);
      && FetchOf(p, c, t, f) && Settled(t.host, f.id)
      && AnswersFile(p, c, t, s.host.phase.name, Respond(p, u))
      && forall k :: 0 <= k < |s.host.fetches| ==> s.host.fetches[k].id != f.id
  {
    var t, name, r := s.(host := AfterFetch(p, s.host, u)), s.host.phase.name, s.host.phase.request;
    assert Whole(p, s, name);
    var i :| Published(s, i) && name == FileName(IdAt(s.calls, i))
      && Lookup(s.host.requests, name) == Some(TextAt(p, s.calls, i));
    FileNameInjective(IdAt(s.calls, i), IdOfName(name));
    FineExactly(p, c, RecordAt(s.calls, i));
    assert r == RecordAt(s.calls, i) && Published(t, i);
    assert t.host.fetches[|s.host.fetches|] == Fetch(r.id, r, u);
    assert Answers(p, c, t, i, Respond(p, u));
  }

  lemma {:induction false} FetchAdded(p: Platform, c: Capability, s: System, t: System, f: Fetch)
    requires FetchesOnce(p, c, s) && Extends(s, t) && t.host.fetches == s.host.fetches + [f]
    requires forall k :: 0 <= k < |s.host.fetches| ==>
               Settled(t.host, s.host.fetches[k].id) && s.host.fetches[k].id != f.id
    requires Settled(t.host, f.id) && FetchOf(p, c, t, f)
    ensures FetchesOnce(p, c, t)
  {
    forall k | 0 <= k < |s.host.fetches| ensures FetchOf(p, c, t, s.host.fetches[k]) {
      FetchOfLater(p, c, s, t, s.host.fetches[k]);
    }
  }

  lemma {:induction false} AllSettled(p: Platform, c: Capability, s: System, e: HostEvent)
    requires FetchesOnce(p, c, s) && !HostStep(p, c, s.host, e).faulted
    ensures forall k :: 0 <= k < |s.host.fetches| ==> Settled(HostStep(p, c, s.host, e), s.host.fetches[k].id)
  {
    forall k | 0 <= k < |s.host.fetches| ensures Settled(HostStep(p, c, s.host, e), s.host.fetches[k].id) {
      HostKeepsSettled(p, c, s.host, e, s.host.fetches[k].id);
    }
  }

  lemma {:induction false} ExchangeKeepsFetches(p: Platform, c: Capability, s: System, u: Upstream)
    requires Lawful(p) && Correct(p, c, s) && s.host.phase.Fetching?
    requires forall k :: 0 <= k < |s.host.fetches| ==> Settled(AfterFetch(p, s.host, u), s.host.fetches[k].id)
    ensures FetchesOnce(p, c, s.(host := AfterFetch(p, s.host, u)))
  {
    ExchangeFetches(p, c, s, u);
    FetchAdded(p, c, s, s.(host := AfterFetch(p, s.host, u)), Fetch(s.host.phase.request.id, s.host.phase.request, u));
  }

  lemma {:induction false} HostKeepsFetches(p: Platform, c: Capability, s: System, e: HostEvent)
    requires Lawful(p) && Correct(p, c, s) && !HostStep(p, c, s.host, e).faulted
    ensures FetchesOnce(p, c, s.(host := HostStep(p, c, s.host, e)))
  {
    AllSettled(p, c, s, e);
    if e.Exchange? && s.host.phase.Fetching? {
      ExchangeKeepsFetches(p, c, s, e.upstream);
    } else {
      HostExtends(p, c, s, e);
      OtherStepsFetchNothing(p, c, s.host, e);
      FetchesKept(p, c, s, s.(host := HostStep(p, c, s.host, e)));
    }
  }

  lemma {:induction false} OtherStepsFetchNothing(p: Platform, c: Capability, h: Host, e: HostEvent)
    requires !(e.Exchange? && h.phase.Fetching?)
    ensures HostStep(p, c, h, e).fetches == h.fetches
  {
  }

  /** A refusal answers the call whose file was read. */
  lemma {:induction false} ReadAnswers(p: Platform, c: Capability, s: System)
    requires Correct(p, c, s) && s.host.phase.Reading?
    requires !AfterRead(p, c, s.host, true).faulted
    ensures WorkRight(p, c, s.(host := AfterRead(p, c, s.host, true)))
  {
    var t, name := s.(host := AfterRead(p, c, s.host, true)), s.host.phase.name;
    if t.host.phase.Replying? {
      assert Whole(p, s, name);
      var i :| Published(s, i) && name == FileName(IdAt(s.calls, i))
        && Lookup(s.host.requests, name) == Some(TextAt(p, s.calls, i));
      FileNameInjective(IdAt(s.calls, i), IdOfName(name));
      assert Answers(p, c, t, i, t.host.phase.response);
    }
  }

  /** No other step gives the host work. */
  lemma {:induction false} OtherStepsGiveNoWork(p: Platform, c: Capability, h: Host, e: HostEvent)
    requires !(e.Read? && h.phase.Reading?) && !(e.Exchange? && h.phase.Fetching?)
    ensures HostStep(p, c, h, e).phase.Fetching? ==> HostStep(p, c, h, e) == h
    ensures HostStep(p, c, h, e).phase.Replying? ==> HostStep(p, c, h, e).phase == h.phase
  {
  }

  lemma {:induction false} HostKeepsWork(p: Platform, c: Capability, s: System, e: HostEvent, t: System)
    requires Lawful(p) && Correct(p, c, s) && t == s.(host := HostStep(p, c, s.host, e)) && !t.host.faulted
    ensures WorkRight(p, c, t)
  {
    if e.Read? && s.host.phase.Reading? {
      ReadAnswers(p, c, s);
    } else if e.Exchange? && s.host.phase.Fetching? {
      ExchangeFetches(p, c, s, e.upstream);
    } else {
      HostExtends(p, c, s, e);
      OtherStepsGiveNoWork(p, c, s.host, e);
      if t.host.phase.Replying? { AnswersFileLater(p, c, s, t, t.host.phase.name, t.host.phase.response); }
    }
  }

  lemma {:induction false} ResponsesKept(p: Platform, c: Capability, s: System, t: System)
    requires ResponsesRight(p, c, s) && Extends(s, t)
    requires forall name :: name in t.host.responses ==> Lookup(s.host.responses, name) == Some(t.host.responses[name])
    requires s.host.phase.Replying? ==> t.host.phase == s.host.phase
    ensures ResponsesRight(p, c, t)
  {
    forall name | name in t.host.responses ensures ResponseRight(p, c, t, name, t.host.responses[name]) {
      ResponseLater(p, c, s, t, name, s.host.responses[name]);
    }
  }

  /** While the host writes a response nobody can parse it; afterwards it is the whole answer. */
  lemma {:induction false} WriteKeepsResponses(p: Platform, c: Capability, s: System, units: nat)
    requires Lawful(p) && Correct(p, c, s) && s.host.phase.Replying?
    ensures ResponsesRight(p, c, s.(host := AfterWrite(p, s.host, units)))
  {
    var t := s.(host := AfterWrite(p, s.host, units));
    forall name | name in t.host.responses ensures ResponseRight(p, c, t, name, t.host.responses[name]) {
      if name == s.host.phase.name {
        AnswersFileLater(p, c, s, t, name, s.host.phase.response);
      } else {
        ResponseLater(p, c, s, t, name, s.host.responses[name]);
      }
    }
  }

  lemma {:induction false} OtherStepsWriteNothing(p: Platform, c: Capability, h: Host, e: HostEvent)
    requires !(e.Write? && h.phase.Replying?) && !HostStep(p, c, h, e).faulted
    ensures HostStep(p, c, h, e).responses == h.responses
    ensures h.phase.Replying? ==> HostStep(p, c, h, e).phase == h.phase
  {
  }

  lemma {:induction false} HostKeepsResponses(p: Platform, c: Capability, s: System, e: HostEvent, t: System)
    requires Lawful(p) && Correct(p, c, s) && t == s.(host := HostStep(p, c, s.host, e)) && !t.host.faulted
    ensures ResponsesRight(p, c, t)
  {
    if e.Write? && s.host.phase.Replying? {
      WriteKeepsResponses(p, c, s, e.units);
    } else {
      OtherStepsKeepResponses(p, c, s, e, t);
    }
  }

  lemma {:induction false} OtherStepsKeepResponses(p: Platform, c: Capability, s: System, e: HostEvent, t: System)
    requires Lawful(p) && Correct(p, c, s) && t == s.(host := HostStep(p, c, s.host, e)) && !t.host.faulted
    requires !(e.Write? && s.host.phase.Replying?)
    ensures ResponsesRight(p, c, t)
  {
    HostExtends(p, c, s, e);
    OtherStepsWriteNothing(p, c, s.host, e);
    ResponsesKept(p, c, s, t);
  }

  lemma {:induction false} HostKeepsCorrect(p: Platform, c: Capability, s: System, e: HostEvent)
    requires Lawful(p) && Correct(p, c, s) && !HostStep(p, c, s.host, e).faulted
    ensures Correct(p, c, s.(host := HostStep(p, c, s.host, e)))
  {
    var t := s.(host := HostStep(p, c, s.host, e));
    HostKeepsNames(p, c, s.host, e);
    HostKeepsRequests(p, c, s, e);
    HostKeepsFetches(p, c, s, e);
    HostKeepsWork(p, c, s, e, t);
    HostKeepsResponses(p, c, s, e, t);
    HostExtends(p, c, s, e);
    forall i | 0 <= i < |t.calls| ensures DeliveredRight(p, c, t, i) { DeliveredLater(p, c, s, t, i); }
  }

  // ---- The guest's steps keep it --------------------------------------------------------------

  /** What a step of the guest may do to the directory: add whole new records, and take responses. */
  ghost predicate GuestMoves(p: Platform, s: System, t: System) {
    && Extends(s, t) && t.host.phase == s.host.phase && t.host.fetches == s.host.fetches
    && (forall name :: name in s.host.requests && IsRequestName(name) ==>
          Lookup(t.host.requests, name) == Some(s.host.requests[name]))
    && (forall name :: name in t.host.requests && name !in s.host.requests && IsRequestName(name) ==>
          Whole(p, t, name) && forall k :: 0 <= k < |s.host.fetches| ==> FileName(s.host.fetches[k].id) != name)
    && (forall name :: name in t.host.responses ==> Lookup(s.host.responses, name) == Some(t.host.responses[name]))
  }

  lemma {:induction false} GuestKeepsFiles(p: Platform, c: Capability, s: System, t: System)
    requires Correct(p, c, s) && GuestMoves(p, s, t)
    ensures Names(t.host) && RequestsWhole(p, t) && ResponsesRight(p, c, t)
  {
    forall name | name in t.host.requests && IsRequestName(name) ensures Whole(p, t, name) {
      if name in s.host.requests { WholeLater(p, s, t, name); }
    }
    ResponsesKept(p, c, s, t);
  }

  lemma {:induction false} FetchedNameIsRequest(p: Platform, c: Capability, s: System, f: Fetch)
    requires FetchOf(p, c, s, f)
    ensures IsRequestName(FileName(f.id))
  {
    assert FileName(f.id)[..|f.id|] == f.id;
  }

  lemma {:induction false} GuestKeepsWork(p: Platform, c: Capability, s: System, t: System)
    requires Correct(p, c, s) && GuestMoves(p, s, t)
    ensures FetchesOnce(p, c, t) && WorkRight(p, c, t)
  {
    forall k | 0 <= k < |s.host.fetches| ensures Settled(t.host, s.host.fetches[k].id) {
      FetchedNameIsRequest(p, c, s, s.host.fetches[k]);
    }
    FetchesKept(p, c, s, t);
    if s.host.phase.Replying? { AnswersFileLater(p, c, s, t, s.host.phase.name, s.host.phase.response); }
  }

  lemma {:induction false} StageExtends(s: System, i: nat, stage: Stage)
    requires i < |s.calls| && stage != Writing
    ensures Extends(s, SetStage(s, i, stage))
  {
  }

  lemma {:induction false} AskMoves(p: Platform, s: System, call: Call)
    ensures GuestMoves(p, s, s.(calls := s.calls + [call]))
  {
  }

  lemma {:induction false} WriteTemporaryMoves(p: Platform, s: System, i: nat, text: JsString)
    requires i < |s.calls|
    ensures var t := s.(host := s.host.(requests := s.host.requests[TEMPORARY + IdAt(s.calls, i) := text]));
            GuestMoves(p, s, t)
  {
    TemporaryIsNoRequest(IdAt(s.calls, i));
  }

  lemma {:induction false} StandingStill(p: Platform, s: System)
    ensures GuestMoves(p, s, s)
  {
  }

  lemma {:induction false} ExpireMoves(p: Platform, s: System, i: nat)
    requires i < |s.calls|
    ensures GuestMoves(p, s, SetStage(s, i, TimedOut))
  {
    StageExtends(s, i, TimedOut);
  }

  /** Before its record is renamed, nothing has the name of a call's file and nothing was fetched for it. */
  lemma {:induction false} NameIsNew(p: Platform, c: Capability, s: System, i: nat)
    requires Correct(p, c, s) && At(s, i, Writing)
    ensures var name := FileName(IdAt(s.calls, i));
      && !(name in s.host.requests && IsRequestName(name))
      && forall k :: 0 <= k < |s.host.fetches| ==> FileName(s.host.fetches[k].id) != name
  {
    var name := FileName(IdAt(s.calls, i));
    if name in s.host.requests && IsRequestName(name) {
      assert Whole(p, s, name);
      var j :| Published(s, j) && name == FileName(IdAt(s.calls, j));
      OneOwner(s, i, j);
    }
    forall k | 0 <= k < |s.host.fetches| ensures FileName(s.host.fetches[k].id) != name {
      assert FetchOf(p, c, s, s.host.fetches[k]);
      var j :| Published(s, j) && s.host.fetches[k].id == IdAt(s.calls, j);
      if FileName(IdAt(s.calls, j)) == name { OneOwner(s, i, j); }
    }
  }

  lemma {:induction false} RenameWrites(p: Platform, s: System, i: nat)
    requires At(s, i, Writing) && AfterRename(p, s, i) != s
    ensures var t, name := AfterRename(p, s, i), FileName(IdAt(s.calls, i));
      Extends(s, t) && Whole(p, t, name)
      && var left := s.host.requests - {TEMPORARY + IdAt(s.calls, i)};
      && t.host == s.host.(requests := left[name := TextAt(p, s.calls, i)])
  {
    StageExtends(s, i, Waiting);
    var t := AfterRename(p, s, i);
    assert Published(t, i) && TextAt(p, t.calls, i) == TextAt(p, s.calls, i);
  }

  lemma {:induction false} AddingMoves(p: Platform, s: System, t: System, temporary: JsString, name: JsString,
                                       text: JsString)
    requires Extends(s, t) && Whole(p, t, name) && !IsRequestName(temporary)
    requires t.host == s.host.(requests := (s.host.requests - {temporary})[name := text])
    requires !(name in s.host.requests && IsRequestName(name))
    requires forall k :: 0 <= k < |s.host.fetches| ==> FileName(s.host.fetches[k].id) != name
    ensures GuestMoves(p, s, t)
  {
  }

  /** The record appears under its name whole, and for the first time. */
  lemma {:induction false} RenameMoves(p: Platform, c: Capability, s: System, i: nat)
    requires Correct(p, c, s) && At(s, i, Writing)
    ensures GuestMoves(p, s, AfterRename(p, s, i))
  {
    if AfterRename(p, s, i) == s {
      StandingStill(p, s);
    } else {
      NameIsNew(p, c, s, i);
      RenameWrites(p, s, i);
      var id := IdAt(s.calls, i);
      TemporaryIsNoRequest(id);
      AddingMoves(p, s, AfterRename(p, s, i), TEMPORARY + id, FileName(id), TextAt(p, s.calls, i));
    }
  }

  lemma {:induction false} PollMoves(p: Platform, s: System, i: nat)
    requires At(s, i, Waiting)
    ensures GuestMoves(p, s, AfterPoll(p, s, i))
  {
    StageExtends(s, i, Garbled);
  }

  /** What a poll finds in the call's response file is the answer to the call. */
  lemma {:induction false} PollDelivers(p: Platform, c: Capability, s: System, i: nat)
    requires Lawful(p) && Correct(p, c, s) && At(s, i, Waiting)
    ensures DeliveredRight(p, c, AfterPoll(p, s, i), i)
  {
    var t, name := AfterPoll(p, s, i), FileName(IdAt(s.calls, i));
    if t.calls[i].stage.Delivered? {
      var text := s.host.responses[name];
      assert ResponseRight(p, c, s, name, text);
      var r :| text == p.printResponse(r) && AnswersFile(p, c, s, name, r);
      var j :| 0 <= j < |s.calls| && name == FileName(IdAt(s.calls, j)) && Answers(p, c, s, j, r);
      OneOwner(s, i, j);
      PollMoves(p, s, i);
      AnswersLater(p, c, s, t, i, r);
      assert p.parseResponse(text) == Some(r);
    }
  }

  lemma {:induction false} GuestStepMoves(p: Platform, c: Capability, s: System, e: Event)
    requires Correct(p, c, s) && !e.HostDoes?
    ensures GuestMoves(p, s, Step(p, c, s, e))
  {
    if e.Ask? {
      AskMoves(p, s, Call(e.time, e.path, e.authorization, e.body, Writing));
      StandingStill(p, s);
    } else if e.WriteTemporary? && At(s, e.call, Writing) {
      var text := TextAt(p, s.calls, e.call);
      WriteTemporaryMoves(p, s, e.call, if e.units < |text| then text[..e.units] else text);
    } else if e.Rename? && At(s, e.call, Writing) {
      RenameMoves(p, c, s, e.call);
    } else if e.Poll? && At(s, e.call, Waiting) {
      PollMoves(p, s, e.call);
    } else if e.Expire? && At(s, e.call, Waiting) {
      ExpireMoves(p, s, e.call);
    } else {
      StandingStill(p, s);
    }
  }

  /** Only a poll gives a call its delivery. */
  lemma {:induction false} OnlyPollDelivers(p: Platform, c: Capability, s: System, e: Event, i: nat)
    requires !e.HostDoes? && !(e == Poll(i) && At(s, i, Waiting)) && i < |Step(p, c, s, e).calls|
    ensures var stage := Step(p, c, s, e).calls[i].stage;
      stage.Delivered? ==> i < |s.calls| && stage == s.calls[i].stage
  {
  }

  lemma {:induction false} GuestKeepsDelivered(p: Platform, c: Capability, s: System, e: Event, i: nat)
    requires Lawful(p) && Correct(p, c, s) && !e.HostDoes? && i < |Step(p, c, s, e).calls|
    ensures DeliveredRight(p, c, Step(p, c, s, e), i)
  {
    if e == Poll(i) && At(s, i, Waiting) {
      PollDelivers(p, c, s, i);
    } else {
      GuestStepMoves(p, c, s, e);
      OnlyPollDelivers(p, c, s, e, i);
      if Step(p, c, s, e).calls[i].stage.Delivered? { DeliveredLater(p, c, s, Step(p, c, s, e), i); }
    }
  }

  lemma {:induction false} StepKeepsCorrect(p: Platform, c: Capability, s: System, e: Event)
    requires Lawful(p) && Correct(p, c, s) && !Step(p, c, s, e).host.faulted
    ensures Correct(p, c, Step(p, c, s, e))
  {
    if e.HostDoes? {
      HostKeepsCorrect(p, c, s, e.event);
    } else {
      var t := Step(p, c, s, e);
      GuestStepMoves(p, c, s, e);
      GuestKeepsFiles(p, c, s, t);
      GuestKeepsWork(p, c, s, t);
      forall i | 0 <= i < |t.calls| ensures DeliveredRight(p, c, t, i) { GuestKeepsDelivered(p, c, s, e, i); }
    }
  }

  // ---- Every run ------------------------------------------------------------------------------

  lemma {:induction false} FaultsStay(p: Platform, c: Capability, s: System, e: Event)
    ensures s.host.faulted ==> Step(p, c, s, e).host.faulted
  {
  }

  lemma {:induction false} RunCorrect(p: Platform, c: Capability, events: seq<Event>)
    requires Lawful(p) && !Run(p, c, events).host.faulted
    ensures Correct(p, c, Run(p, c, events))
  {
    if events != [] {
      var before, e := events[..|events| - 1], events[|events| - 1];
      FaultsStay(p, c, Run(p, c, before), e);
      RunCorrect(p, c, before);
      StepKeepsCorrect(p, c, Run(p, c, before), e);
    }
  }

  lemma {:induction false} HostCounts(p: Platform, c: Capability, h: Host, e: HostEvent)
    requires Counts(h)
    ensures Counts(HostStep(p, c, h, e))
  {
  }

  lemma {:induction false} GuestCountsNothing(p: Platform, c: Capability, s: System, e: Event)
    requires !e.HostDoes?
    ensures Step(p, c, s, e).host.stats == s.host.stats && Step(p, c, s, e).host.phase == s.host.phase
  {
  }

  /** Between requests the counters add up, also when directory operations fail. */
  lemma {:induction false} RunCounts(p: Platform, c: Capability, events: seq<Event>)
    ensures Counts(Run(p, c, events).host)
  {
    if events != [] {
      var before, e := events[..|events| - 1], events[|events| - 1];
      RunCounts(p, c, before);
      if e.HostDoes? { HostCounts(p, c, Run(p, c, before).host, e.event); }
      else { GuestCountsNothing(p, c, Run(p, c, before), e); }
    }
  }

  /**
   * If directory operations succeed, in every interleaving of any number of calls: the request files
   * that the host can read are whole records; every fetch is of a different call, with that call's
   * own record, and granted by the capability; and what a call delivers is the refusal of its own
   * record or the reply to the one fetch made for it.
   */
  lemma {:induction false} MailboxCorrect(p: Platform, c: Capability, events: seq<Event>)
    requires Lawful(p) && !Run(p, c, events).host.faulted
    ensures var s := Run(p, c, events);
      && (forall name :: name in s.host.requests && IsRequestName(name) ==> Whole(p, s, name))
      && (forall j, k :: 0 <= j < k < |s.host.fetches| ==> s.host.fetches[j].id != s.host.fetches[k].id)
      && (forall k :: 0 <= k < |s.host.fetches| ==> FetchOf(p, c, s, s.host.fetches[k]))
      && (forall i :: 0 <= i < |s.calls| && s.calls[i].stage.Delivered? ==>
            exists r :: Answers(p, c, s, i, r) && s.calls[i].stage.delivery == Deliver(r))
  {
    var s := Run(p, c, events);
    RunCorrect(p, c, events);
    forall i | 0 <= i < |s.calls| && s.calls[i].stage.Delivered?
      ensures exists r :: Answers(p, c, s, i, r) && s.calls[i].stage.delivery == Deliver(r)
    {
      assert DeliveredRight(p, c, s, i);
    }
  }
}
