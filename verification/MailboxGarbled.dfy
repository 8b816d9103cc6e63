/**
 * When a guest call ends with a response it cannot parse: exactly when it polls while the host is
 * writing that response.
 */
module MailboxGarbled {
  import opened Options
  import opened Json
  import opened Mailbox
  import opened MailboxRuns

  /** The response file of the call is there, and the host is still writing it. */
  predicate Midway(s: System, i: nat) {
    && i < |s.calls| && s.host.phase.Replying?
    && s.host.phase.name == FileName(IdAt(s.calls, i)) && s.host.phase.name in s.host.responses
  }

  /** The request is gone, or the host is replying to it. */
  predicate Dealt(h: Host, name: JsString) {
    name !in h.requests || ((h.phase.Replying? || h.phase.Removing?) && h.phase.name == name)
  }

  /** The name is that of a published call. */
  ghost predicate Known(s: System, name: JsString) {
    IsRequestName(name) && exists i :: Published(s, i) && name == FileName(IdAt(s.calls, i))
  }

  /** Responses are to requests that were dealt with, and one that is being written cannot be parsed. */
  ghost predicate Fresh(p: Platform, s: System) {
    && (forall name :: name in s.host.responses ==> Known(s, name) && Dealt(s.host, name))
    && (s.host.phase.Replying? && s.host.phase.name in s.host.responses ==>
          p.parseResponse(s.host.responses[s.host.phase.name]) == None)
  }

  lemma {:induction false} KnownLater(s: System, t: System, name: JsString)
    requires Extends(s, t) && Known(s, name)
    ensures Known(t, name)
  {
    var i :| Published(s, i) && name == FileName(IdAt(s.calls, i));
    assert Published(t, i);
  }

  lemma {:induction false} HostKeepsDealt(p: Platform, c: Capability, h: Host, e: HostEvent, name: JsString)
    requires Dealt(h, name) && !HostStep(p, c, h, e).faulted
    ensures Dealt(HostStep(p, c, h, e), name)
  {
  }

  /** The host is about to write a response where there is none. */
  lemma {:induction false} NoneYet(p: Platform, s: System)
    requires Names(s.host) && Fresh(p, s) && (s.host.phase.Reading? || s.host.phase.Fetching?)
    ensures s.host.phase.name !in s.host.responses
  {
  }

  lemma {:induction false} BusyIsKnown(p: Platform, s: System)
    requires Names(s.host) && RequestsWhole(p, s) && Busy(s.host.phase).Some?
    ensures Known(s, s.host.phase.name)
  {
    assert Whole(p, s, s.host.phase.name);
    var i :| Published(s, i) && s.host.phase.name == FileName(IdAt(s.calls, i));
  }

  lemma {:induction false} WriteKeepsFresh(p: Platform, s: System, units: nat)
    requires Lawful(p) && Names(s.host) && RequestsWhole(p, s) && Fresh(p, s) && s.host.phase.Replying?
    ensures Fresh(p, s.(host := AfterWrite(p, s.host, units)))
  {
    var t := s.(host := AfterWrite(p, s.host, units));
    BusyIsKnown(p, s);
    assert Extends(s, t);
    forall name | name in t.host.responses ensures Known(t, name) && Dealt(t.host, name) {
      KnownLater(s, t, name);
    }
  }

  /** Nothing is added to the responses, and the host replies to what it did or to what has no response. */
  lemma {:induction false} FreshKept(p: Platform, s: System, t: System)
    requires Fresh(p, s) && Extends(s, t)
    requires forall name :: name in t.host.responses ==>
      Lookup(s.host.responses, name) == Some(t.host.responses[name]) && Dealt(t.host, name)
    requires t.host.phase.Replying? ==> t.host.phase == s.host.phase || t.host.phase.name !in s.host.responses
    ensures Fresh(p, t)
  {
    forall name | name in t.host.responses ensures Known(t, name) { KnownLater(s, t, name); }
  }

  /** A host that replies was replying to the same request, or had read it or fetched for it. */
  lemma {:induction false} ReplyingBegins(p: Platform, c: Capability, h: Host, e: HostEvent)
    requires HostStep(p, c, h, e).phase.Replying?
    ensures h.phase == HostStep(p, c, h, e).phase
         || ((h.phase.Reading? || h.phase.Fetching?) && HostStep(p, c, h, e).phase.name == h.phase.name)
  {
  }

  lemma {:induction false} ReplyingIsNew(p: Platform, c: Capability, s: System, e: HostEvent)
    requires Names(s.host) && Fresh(p, s) && HostStep(p, c, s.host, e).phase.Replying?
    ensures HostStep(p, c, s.host, e).phase == s.host.phase || HostStep(p, c, s.host, e).phase.name !in s.host.responses
  {
    ReplyingBegins(p, c, s.host, e);
    if s.host.phase.Reading? || s.host.phase.Fetching? { NoneYet(p, s); }
  }

  lemma {:induction false} AllDealt(p: Platform, c: Capability, s: System, e: HostEvent)
    requires Fresh(p, s) && !HostStep(p, c, s.host, e).faulted
    ensures forall name :: name in s.host.responses ==> Dealt(HostStep(p, c, s.host, e), name)
  {
    forall name | name in s.host.responses ensures Dealt(HostStep(p, c, s.host, e), name) {
      HostKeepsDealt(p, c, s.host, e, name);
    }
  }

  lemma {:induction false} QuietKeepsFresh(p: Platform, c: Capability, s: System, e: HostEvent, t: System)
    requires Names(s.host) && Fresh(p, s) && t == s.(host := HostStep(p, c, s.host, e)) && !t.host.faulted
    requires !(e.Write? && s.host.phase.Replying?)
    ensures Fresh(p, t)
  {
    HostExtends(p, c, s, e);
    OtherStepsWriteNothing(p, c, s.host, e);
    AllDealt(p, c, s, e);
    if t.host.phase.Replying? { ReplyingIsNew(p, c, s, e); }
    FreshKept(p, s, t);
  }

  lemma {:induction false} HostKeepsFresh(p: Platform, c: Capability, s: System, e: HostEvent)
    requires Lawful(p) && Names(s.host) && RequestsWhole(p, s) && Fresh(p, s)
    requires !HostStep(p, c, s.host, e).faulted
    ensures Fresh(p, s.(host := HostStep(p, c, s.host, e)))
  {
    if e.Write? && s.host.phase.Replying? {
      WriteKeepsFresh(p, s, e.units);
    } else {
      QuietKeepsFresh(p, c, s, e, s.(host := HostStep(p, c, s.host, e)));
    }
  }

  /** A step of the guest brings back no request that was dealt with. */
  lemma {:induction false} GuestKeepsDealt(p: Platform, c: Capability, s: System, e: Event, name: JsString)
    requires Correct(p, c, s) && !e.HostDoes? && Known(s, name) && Dealt(s.host, name)
    ensures Dealt(Step(p, c, s, e).host, name)
  {
    var j :| Published(s, j) && name == FileName(IdAt(s.calls, j));
    if e.Rename? && At(s, e.call, Writing) {
      if FileName(IdAt(s.calls, e.call)) == name { OneOwner(s, e.call, j); }
    } else if e.WriteTemporary? && e.call < |s.calls| {
      TemporaryIsNoRequest(IdAt(s.calls, e.call));
    }
  }

  lemma {:induction false} GuestKeepsFresh(p: Platform, c: Capability, s: System, e: Event, t: System)
    requires Correct(p, c, s) && Fresh(p, s) && !e.HostDoes? && t == Step(p, c, s, e)
    ensures Fresh(p, t)
  {
    GuestStepMoves(p, c, s, e);
    AllStayDealt(p, c, s, e);
    FreshKept(p, s, t);
  }

  lemma {:induction false} AllStayDealt(p: Platform, c: Capability, s: System, e: Event)
    requires Correct(p, c, s) && Fresh(p, s) && !e.HostDoes?
    ensures forall name :: name in s.host.responses ==> Dealt(Step(p, c, s, e).host, name)
  {
    forall name | name in s.host.responses ensures Dealt(Step(p, c, s, e).host, name) {
      GuestKeepsDealt(p, c, s, e, name);
    }
  }

  lemma {:induction false} RunFresh(p: Platform, c: Capability, events: seq<Event>)
    requires Lawful(p) && !Run(p, c, events).host.faulted
    ensures Correct(p, c, Run(p, c, events)) && Fresh(p, Run(p, c, events))
  {
    RunCorrect(p, c, events);
    if events != [] {
      var before, e := events[..|events| - 1], events[|events| - 1];
      FaultsStay(p, c, Run(p, c, before), e);
      RunFresh(p, c, before);
      if e.HostDoes? { HostKeepsFresh(p, c, Run(p, c, before), e.event); }
      else { GuestKeepsFresh(p, c, Run(p, c, before), e, Run(p, c, events)); }
    }
  }

  // ---- The exact condition --------------------------------------------------------------------

  /** A poll ends the call with an unparsable response exactly if the host is writing it. */
  lemma {:induction false} PollGarblesExactly(p: Platform, c: Capability, s: System, i: nat)
    requires Lawful(p) && Correct(p, c, s) && Fresh(p, s) && At(s, i, Waiting)
    ensures AfterPoll(p, s, i).calls[i].stage == Garbled <==> Midway(s, i)
  {
    var name := FileName(IdAt(s.calls, i));
    if name in s.host.responses {
      assert ResponseRight(p, c, s, name, s.host.responses[name]);
    }
  }

  predicate IsGarbled(s: System, i: nat) { i < |s.calls| && s.calls[i].stage == Garbled }

  /** Event `n` is a poll of the call while its response is being written. */
  predicate PolledMidway(p: Platform, c: Capability, events: seq<Event>, i: nat, n: nat) {
    && n < |events| && events[n] == Poll(i)
    && At(Run(p, c, events[..n]), i, Waiting) && Midway(Run(p, c, events[..n]), i)
  }

  lemma {:induction false} OnlyPollGarbles(p: Platform, c: Capability, s: System, e: Event, i: nat)
    requires !(e == Poll(i) && At(s, i, Waiting))
    ensures IsGarbled(Step(p, c, s, e), i) <==> IsGarbled(s, i)
  {
  }

  /** A call that is garbled stays so, and becomes so only by such a poll. */
  lemma {:induction false} StepGarblesExactly(p: Platform, c: Capability, s: System, e: Event, i: nat)
    requires Lawful(p) && Correct(p, c, s) && Fresh(p, s)
    ensures IsGarbled(Step(p, c, s, e), i) <==> IsGarbled(s, i) || (e == Poll(i) && At(s, i, Waiting) && Midway(s, i))
  {
    if e == Poll(i) && At(s, i, Waiting) { PollGarblesExactly(p, c, s, i); } else { OnlyPollGarbles(p, c, s, e, i); }
  }

  /** In a run without faults, a call is garbled exactly if it was polled while the host wrote its response. */
  lemma {:induction false} GarbledExactlyWhen(p: Platform, c: Capability, events: seq<Event>, i: nat)
    requires Lawful(p) && !Run(p, c, events).host.faulted
    ensures IsGarbled(Run(p, c, events), i) <==> exists n :: PolledMidway(p, c, events, i, n)
  {
    if events != [] {
      var before, e := events[..|events| - 1], events[|events| - 1];
      FaultsStay(p, c, Run(p, c, before), e);
      GarbledExactlyWhen(p, c, before, i);
      PolledBefore(p, c, events, i);
      RunFresh(p, c, before);
      StepGarblesExactly(p, c, Run(p, c, before), e, i);
    }
  }

  /**
   * In a run without faults every call is still under way, timed out, delivered the answer to its own
   * record, or was polled while the host wrote its response; and it was so polled in the last case only.
   */
  lemma {:induction false} CallOutcome(p: Platform, c: Capability, events: seq<Event>, i: nat)
    requires Lawful(p) && !Run(p, c, events).host.faulted && i < |Run(p, c, events).calls|
    ensures var s := Run(p, c, events);
      match s.calls[i].stage
      case Delivered(d) => (exists r :: Answers(p, c, s, i, r) && d == Deliver(r))
        && !exists n :: PolledMidway(p, c, events, i, n)
      case Garbled => exists n :: PolledMidway(p, c, events, i, n)
      case _ => !exists n :: PolledMidway(p, c, events, i, n)
  {
    MailboxCorrect(p, c, events);
    GarbledExactlyWhen(p, c, events, i);
  }

  lemma {:induction false} PolledBefore(p: Platform, c: Capability, events: seq<Event>, i: nat)
    requires events != []
    ensures var last := |events| - 1;
      (exists n :: PolledMidway(p, c, events, i, n))
      <==> (exists n :: PolledMidway(p, c, events[..last], i, n)) || PolledMidway(p, c, events, i, last)
  {
    var last := |events| - 1;
    forall n: nat | n < last ensures PolledMidway(p, c, events, i, n) <==> PolledMidway(p, c, events[..last], i, n) {
      assert events[..last][..n] == events[..n];
    }
    if n: nat :| PolledMidway(p, c, events, i, n) {
      if n < last { assert PolledMidway(p, c, events[..last], i, n); }
    }
    if n: nat :| PolledMidway(p, c, events[..last], i, n) { assert PolledMidway(p, c, events, i, n); }
  }

  // ---- It happens -----------------------------------------------------------------------------

  const FIRST_ID: JsString := Id(0, 1)

  const FIRST_RECORD: BridgeRequest := BridgeRequest(FIRST_ID, CHAT, [], [])

  /** One call, whose response the host has created but not filled when it is polled. */
  function Garbling(p: Platform): seq<Event> {
    [Ask(0, CHAT, [], [], 0), WriteTemporary(0, |p.printRequest(FIRST_RECORD)|), Rename(0),
     HostDoes(List([FileName(FIRST_ID)])), HostDoes(Take), HostDoes(Read(true)), HostDoes(Exchange(Unreachable)),
     HostDoes(Write(0)), Poll(0)]
  }

  lemma {:induction false} RunMore(p: Platform, c: Capability, events: seq<Event>, n: nat)
    requires n < |events|
    ensures Run(p, c, events[..n + 1]) == Step(p, c, Run(p, c, events[..n]), events[n])
  {
    assert events[..n + 1][..n] == events[..n];
  }

  lemma {:induction false} FirstName()
    ensures IsRequestName(FileName(FIRST_ID)) && IdOfName(FileName(FIRST_ID)) == FIRST_ID
  {
    assert FIRST_ID == [48, UNDERSCORE, 49];
    assert FileName(FIRST_ID)[..3] == FIRST_ID;
  }

  /** After three events the record is published. */
  lemma {:induction false} FirstPublished(p: Platform, c: Capability)
    ensures var s := Run(p, c, Garbling(p)[..3]);
      && s.calls == [Call(0, CHAT, [], [], Waiting)]
      && s.host == START.host.(requests := map[FileName(FIRST_ID) := p.printRequest(FIRST_RECORD)])
  {
    var events := Garbling(p);
    assert events[..0] == [];
    RunMore(p, c, events, 0);
    RunMore(p, c, events, 1);
    RunMore(p, c, events, 2);
    FirstWrites(p, c, Run(p, c, events[..1]));
    FirstRenames(p, c, Run(p, c, events[..2]));
  }

  const FIRST_CALL := Call(0, CHAT, [], [], Writing)

  lemma {:induction false} FirstWrites(p: Platform, c: Capability, s: System)
    requires s.calls == [FIRST_CALL]
    ensures var text := p.printRequest(FIRST_RECORD); var t := Step(p, c, s, WriteTemporary(0, |text|));
      t.calls == s.calls && t.host == s.host.(requests := s.host.requests[TEMPORARY + FIRST_ID := text])
  {
    var text := p.printRequest(FIRST_RECORD);
    assert RecordAt([FIRST_CALL], 0) == FIRST_RECORD;
    assert text[..|text|] == text;
  }

  lemma {:induction false} FirstRenames(p: Platform, c: Capability, s: System)
    requires s.calls == [FIRST_CALL]
    requires s.host.requests == map[TEMPORARY + FIRST_ID := p.printRequest(FIRST_RECORD)]
    ensures var t := Step(p, c, s, Rename(0)); t.calls == [FIRST_CALL.(stage := Waiting)]
    ensures Step(p, c, s, Rename(0)).host
         == s.host.(requests := map[FileName(FIRST_ID) := p.printRequest(FIRST_RECORD)])
  {
    var text := p.printRequest(FIRST_RECORD);
    FirstName();
    TemporaryIsNoRequest(FIRST_ID);
    assert RecordAt([FIRST_CALL], 0) == FIRST_RECORD;
    assert (map[TEMPORARY + FIRST_ID := text] - {TEMPORARY + FIRST_ID})[FileName(FIRST_ID) := text]
      == map[FileName(FIRST_ID) := text];
  }

  /** A host that reads a request, and fetches if it may, replies to it. */
  lemma {:induction false} ReadReplies(p: Platform, c: Capability, h: Host)
    requires h.phase.Reading? && IsRequestName(h.phase.name) && h.phase.name in h.requests && !h.faulted
    ensures var h2 := HostStep(p, c, HostStep(p, c, h, Read(true)), Exchange(Unreachable));
      h2.phase.Replying? && h2.phase.name == h.phase.name && h2.responses == h.responses && !h2.faulted
  {
  }

  lemma {:induction false} ListTake(p: Platform, c: Capability, h: Host, name: JsString)
    requires h.phase.Idle? && h.requests.Keys == {name} && IsRequestName(name)
    ensures var h2 := HostStep(p, c, HostStep(p, c, h, List([name])), Take);
      h2.phase == Reading(name, []) && h2 == h.(stats := h2.stats, phase := h2.phase)
  {
    assert name in h.requests && |h.requests| == |h.requests.Keys| == 1;
    assert Lists([name], h.requests);
  }

  /** After five more the host has read it, and fetched for it if it may, and has begun to reply. */
  lemma {:induction false} FirstReplied(p: Platform, c: Capability)
    ensures var s := Run(p, c, Garbling(p)[..7]);
      && s.calls == [Call(0, CHAT, [], [], Waiting)] && !s.host.faulted && s.host.responses == map[]
      && s.host.phase.Replying? && s.host.phase.name == FileName(FIRST_ID)
  {
    FirstTaken(p, c);
    FirstName();
    HostRuns(p, c, Garbling(p), 5);
    ReadReplies(p, c, Run(p, c, Garbling(p)[..5]).host);
  }

  lemma {:induction false} FirstTaken(p: Platform, c: Capability)
    ensures var s := Run(p, c, Garbling(p)[..5]);
      && s.calls == [Call(0, CHAT, [], [], Waiting)] && !s.host.faulted && s.host.responses == map[]
      && s.host.phase == Reading(FileName(FIRST_ID), []) && FileName(FIRST_ID) in s.host.requests
  {
    FirstPublished(p, c);
    FirstName();
    HostRuns(p, c, Garbling(p), 3);
    ListTake(p, c, Run(p, c, Garbling(p)[..3]).host, FileName(FIRST_ID));
  }

  /** Two events of the host. */
  lemma {:induction false} HostRuns(p: Platform, c: Capability, events: seq<Event>, n: nat)
    requires n + 1 < |events| && events[n].HostDoes? && events[n + 1].HostDoes?
    ensures var s, t := Run(p, c, events[..n]), Run(p, c, events[..n + 2]);
      t == s.(host := HostStep(p, c, HostStep(p, c, s.host, events[n].event), events[n + 1].event))
  {
    RunMore(p, c, events, n);
    RunMore(p, c, events, n + 1);
  }

  /** No printed response is empty: two responses have two texts. */
  lemma {:induction false} PrintedNotEmpty(p: Platform, r: BridgeResponse)
    requires Lawful(p)
    ensures p.printResponse(r) != []
  {
    var other := BridgeResponse(r.status + 1, None, []);
    assert p.parseResponse(p.printResponse(r)) == Some(r) && p.parseResponse(p.printResponse(other)) == Some(other);
    assert p.printResponse(other)[..0] == [];
  }

  lemma {:induction false} FirstMidway(p: Platform, c: Capability)
    requires Lawful(p)
    ensures var t := Run(p, c, Garbling(p)[..8]); Midway(t, 0) && At(t, 0, Waiting) && !t.host.faulted
  {
    FirstReplied(p, c);
    RunMore(p, c, Garbling(p), 7);
    WriteBegins(p, c, Run(p, c, Garbling(p)[..7]), Write(0));
  }

  lemma {:induction false} PollAfter(p: Platform, c: Capability, events: seq<Event>)
    requires Lawful(p) && Midway(Run(p, c, events), 0) && At(Run(p, c, events), 0, Waiting)
             && !Run(p, c, events).host.faulted
    ensures var s := Run(p, c, events + [Poll(0)]); !s.host.faulted && IsGarbled(s, 0)
  {
    RunFresh(p, c, events);
    PollFails(p, c, Run(p, c, events));
    RunOneMore(p, c, events, Poll(0));
  }

  lemma {:induction false} RunOneMore(p: Platform, c: Capability, events: seq<Event>, e: Event)
    ensures Run(p, c, events + [e]) == Step(p, c, Run(p, c, events), e)
  {
    assert (events + [e])[..|events|] == events;
  }

  lemma {:induction false} PollFails(p: Platform, c: Capability, s: System)
    requires Lawful(p) && Correct(p, c, s) && Fresh(p, s) && Midway(s, 0) && At(s, 0, Waiting)
    ensures var t := Step(p, c, s, Poll(0)); t.host.faulted == s.host.faulted && IsGarbled(t, 0)
  {
    PollGarblesExactly(p, c, s, 0);
    PollFaultless(p, c, s, 0);
  }

  lemma {:induction false} PollFaultless(p: Platform, c: Capability, s: System, i: nat)
    requires At(s, i, Waiting)
    ensures Step(p, c, s, Poll(i)) == AfterPoll(p, s, i) && AfterPoll(p, s, i).host.faulted == s.host.faulted
  {
  }

  /** In this run no directory operation fails, and the call ends with an unparsable response. */
  lemma {:induction false} GarbledReached(p: Platform, c: Capability)
    requires Lawful(p)
    ensures var s := Run(p, c, Garbling(p)); !s.host.faulted && IsGarbled(s, 0)
  {
    FirstMidway(p, c);
    PollAfter(p, c, Garbling(p)[..8]);
    assert Garbling(p)[..8] + [Poll(0)] == Garbling(p);
  }

  lemma {:induction false} WriteBegins(p: Platform, c: Capability, s: System, e: HostEvent)
    requires Lawful(p) && s.calls == [Call(0, CHAT, [], [], Waiting)] && e == Write(0)
    requires s.host.phase.Replying? && s.host.phase.name == FileName(FIRST_ID) && !s.host.faulted
    ensures var t := Step(p, c, s, HostDoes(e)); Midway(t, 0) && At(t, 0, Waiting) && !t.host.faulted
  {
    PrintedNotEmpty(p, s.host.phase.response);
    assert IdAt(s.calls, 0) == FIRST_ID;
  }
}
