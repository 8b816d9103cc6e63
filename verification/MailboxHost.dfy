/** The host's poll loop (src/byok-http-bridge.ts) over a directory and counters that change in place. */
module MailboxHost {
  import opened Options
  import opened Json
  import opened Base64
  import opened Mailbox
  import opened MailboxRuns

  /**
   * What happens around one directory entry: whether stop() has been called when its turn comes, and
   * how the directory and the network behave for it; `cut` is where a failing write stops.
   */
  datatype Environment = Environment(stopped: bool, readOk: bool, upstream: Upstream, cut: Option<nat>, removeOk: bool)

  /** The steps that write the response and remove the request, or throw. */
  function Replied(p: Platform, c: Capability, h: Host, env: Environment): Host
    requires h.phase.Replying?
  {
    if env.cut.Some? then HostStep(p, c, HostStep(p, c, h, Write(env.cut.value)), Fault)
    else
      var h1 := HostStep(p, c, h, Write(|p.printResponse(h.phase.response)|));
      HostStep(p, c, h1, if env.removeOk then Remove else Fault)
  }

  /** The steps of processRequest on a request file. */
  function Processed(p: Platform, c: Capability, h: Host, env: Environment): Host
    requires h.phase.Reading?
  {
    var h1 := HostStep(p, c, h, Read(env.readOk));
    Replied(p, c, if h1.phase.Fetching? then HostStep(p, c, h1, Exchange(env.upstream)) else h1, env)
  }

  /** The steps of one round of the poll loop; stop() ends it before the next entry, a request that throws at once. */
  function Round(p: Platform, c: Capability, h: Host, envs: seq<Environment>): Host
    requires h.phase.Scanning? && |envs| == |h.phase.names|
    decreases |envs|
  {
    if envs == [] then HostStep(p, c, h, Take)
    else if envs[0].stopped then HostStep(p, c, h, Break)
    else
      var h1 := HostStep(p, c, h, Take);
      if h1.phase.Scanning? then Round(p, c, h1, envs[1..])
      else
        var h2 := Processed(p, c, h1, envs[0]);
        if h2.phase.Scanning? && |h2.phase.names| == |envs[1..]| then Round(p, c, h2, envs[1..]) else h2
  }

  /** After every round the counters add up, whatever failed in it. */
  lemma {:induction false} RoundCounts(p: Platform, c: Capability, h: Host, envs: seq<Environment>)
    requires h.phase.Scanning? && |envs| == |h.phase.names| && Counts(h)
    ensures Round(p, c, h, envs).phase == Idle
    ensures var end := Round(p, c, h, envs); end.stats.seen == end.stats.failed + end.stats.forwarded
    decreases |envs|
  {
    if envs != [] && !envs[0].stopped {
      var h1 := HostStep(p, c, h, Take);
      HostCounts(p, c, h, Take);
      if h1.phase.Scanning? {
        RoundCounts(p, c, h1, envs[1..]);
      } else {
        ProcessedCounts(p, c, h1, envs[0]);
        var h2 := Processed(p, c, h1, envs[0]);
        if h2.phase.Scanning? { RoundCounts(p, c, h2, envs[1..]); }
      }
    }
  }

  lemma {:induction false} ProcessedCounts(p: Platform, c: Capability, h: Host, env: Environment)
    requires h.phase.Reading? && Counts(h)
    ensures var end := Processed(p, c, h, env);
      Counts(end) && (end.phase == Idle || end.phase == Scanning(h.phase.rest))
  {
    var h1 := HostStep(p, c, h, Read(env.readOk));
    HostCounts(p, c, h, Read(env.readOk));
    var h2 := if h1.phase.Fetching? then HostStep(p, c, h1, Exchange(env.upstream)) else h1;
    HostCounts(p, c, h1, Exchange(env.upstream));
    assert h2.phase.Replying? && h2.phase.rest == h.phase.rest;
    var write := Write(if env.cut.Some? then env.cut.value else |p.printResponse(h2.phase.response)|);
    HostCounts(p, c, h2, write);
    HostCounts(p, c, HostStep(p, c, h2, write), Fault);
    HostCounts(p, c, HostStep(p, c, h2, write), Remove);
  }

  /** The host when it has taken the next request file. */
  function Taken(h: Host): Host
    requires h.phase.Scanning? && h.phase.names != []
  {
    h.(stats := h.stats.(seen := h.stats.seen + 1), phase := Reading(h.phase.names[0], h.phase.names[1..]))
  }

  lemma {:induction false} RoundSkips(p: Platform, c: Capability, h: Host, envs: seq<Environment>)
    requires h.phase.Scanning? && |envs| == |h.phase.names| > 0 && !IsRequestName(h.phase.names[0])
    requires !envs[0].stopped
    ensures Round(p, c, h, envs) == Round(p, c, h.(phase := Scanning(h.phase.names[1..])), envs[1..])
  {
  }

  lemma {:induction false} RoundProcesses(p: Platform, c: Capability, h: Host, envs: seq<Environment>)
    requires h.phase.Scanning? && |envs| == |h.phase.names| > 0 && IsRequestName(h.phase.names[0]) && Counts(h)
    requires !envs[0].stopped
    ensures var h2 := Processed(p, c, Taken(h), envs[0]);
      if h2.phase == Idle then Round(p, c, h, envs) == h2
      else h2.phase == Scanning(h.phase.names[1..]) && Round(p, c, h, envs) == Round(p, c, h2, envs[1..])
  {
    ProcessedCounts(p, c, Taken(h), envs[0]);
  }

  class Bridge {
    const platform: Platform
    const capability: Capability
    var requests: map<JsString, JsString>
    var responses: map<JsString, JsString>
    var requestsSeen: nat
    var failed: nat
    var forwarded: nat
    var stopped: bool
    ghost var fetches: seq<Fetch>
    ghost var faulted: bool

    constructor (platform: Platform, capability: Capability)
      ensures this.platform == platform && this.capability == capability && Now(Idle) == START.host && !stopped
    {
      this.platform, this.capability := platform, capability;
      requests, responses := map[], map[];
      requestsSeen, failed, forwarded := 0, 0, 0;
      stopped, fetches, faulted := false, [], false;
    }

    /** The host at `phase` of its loop. */
    ghost function Now(phase: Phase): Host
      reads this
    {
      Host(requests, responses, Stats(requestsSeen, failed, forwarded), phase, fetches, faulted)
    }

    /** Writes the response and removes the request; a failure is thrown to the poll loop. */
    method Reply(name: JsString, response: BridgeResponse, env: Environment, ghost rest: seq<JsString>)
      returns (threw: bool)
      modifies this`requests, this`responses, this`faulted
      ensures Now(if threw then Idle else Scanning(rest))
           == Replied(platform, capability, old(Now(Replying(name, response, rest))), env)
    {
      var text := platform.printResponse(response);
      if env.cut.Some? {
        responses := responses[name := if env.cut.value < |text| then text[..env.cut.value] else text];
        faulted := true;
        return true;
      }
      responses := responses[name := text];
      if !env.removeOk {
        faulted := true;
        return true;
      }
      requests := requests - {name};
      threw := false;
    }

    /** Everything checked before the request is forwarded, with the authorization compared unit by unit. */
    method Check(name: JsString, readOk: bool) returns (checked: Checked)
      requires IsRequestName(name)
      ensures checked == if !readOk || name !in requests then Refused(Unreadable)
                         else Examine(platform, capability, requests[name], IdOfName(name))
    {
      if !readOk || name !in requests { return Refused(Unreadable); }
      checked := ParseRequest(platform, capability, requests[name]);
      if checked.Fine? {
        if checked.request.id != IdOfName(name) { return Refused(IdMismatch); }
        var same := FixedLengthEqual(checked.request.authorization, BEARER + capability.apiKey);
        if !same { return Refused(Mailbox.Unauthorized); }
      }
    }

    /** Reads and checks the request; a refusal is counted. */
    method Receive(name: JsString, readOk: bool, ghost rest: seq<JsString>) returns (checked: Checked)
      requires IsRequestName(name)
      modifies this`failed, this`faulted
      ensures Now(if checked.Fine? then Fetching(name, checked.request, rest)
                  else Replying(name, RefusalResponse(platform, checked.refusal), rest))
           == HostStep(platform, capability, old(Now(Reading(name, rest))), Read(readOk))
    {
      checked := Check(name, readOk);
      if checked.Refused? {
        failed := failed + 1;
        faulted := faulted || !readOk || name !in requests;
      }
    }

    /** Fetches for a request that was checked; a reply that is too large counts as a failure. */
    method Forward(name: JsString, request: BridgeRequest, u: Upstream, ghost rest: seq<JsString>)
      returns (response: BridgeResponse)
      modifies this`failed, this`forwarded, this`fetches
      ensures Now(Replying(name, response, rest))
           == HostStep(platform, capability, old(Now(Fetching(name, request, rest))), Exchange(u))
    {
      fetches := fetches + [Fetch(request.id, request, u)];
      if u.Unreachable? || |u.body| > MAX_BODY_BYTES {
        failed := failed + 1;
        response := BridgeResponse(502, Some(Ascii("application/json")), Encode(platform.failureBody(u)));
      } else {
        forwarded := forwarded + 1;
        var text := EncodeInChunks(u.body);
        response := BridgeResponse(u.status, u.contentType, text.value);
      }
    }

    /** processRequest on a request file: the steps of the host, one after the other. */
    method ProcessRequest(name: JsString, env: Environment, ghost rest: seq<JsString>) returns (threw: bool)
      requires IsRequestName(name)
      modifies this
      ensures stopped == old(stopped)
      ensures Now(if threw then Idle else Scanning(rest))
           == Processed(platform, capability, Taken(old(Now(Scanning([name] + rest)))), env)
    {
      requestsSeen := requestsSeen + 1;
      assert ([name] + rest)[1..] == rest;
      ghost var taken := Now(Reading(name, rest));
      assert taken == Taken(old(Now(Scanning([name] + rest))));
      threw := Answer(name, env, rest);
    }

    method Answer(name: JsString, env: Environment, ghost rest: seq<JsString>) returns (threw: bool)
      requires IsRequestName(name)
      modifies this
      ensures requestsSeen == old(requestsSeen) && stopped == old(stopped)
      ensures Now(if threw then Idle else Scanning(rest))
           == Processed(platform, capability, old(Now(Reading(name, rest))), env)
    {
      var checked := Receive(name, env.readOk, rest);
      var response;
      if checked.Fine? {
        response := Forward(name, checked.request, env.upstream, rest);
      } else {
        response := RefusalResponse(platform, checked.refusal);
      }
      threw := Reply(name, response, env, rest);
    }

    /** One round of the poll loop over a listing of the requests, while stop() has not been called. */
    method PollOnce(names: seq<JsString>, envs: seq<Environment>)
      requires |envs| == |names| && requestsSeen == failed + forwarded && !stopped
      modifies this
      ensures Now(Idle) == Round(platform, capability, old(Now(Scanning(names))), envs)
      ensures requestsSeen == failed + forwarded
      ensures stopped ==> exists i :: 0 <= i < |envs| && envs[i].stopped
    {
      RoundCounts(platform, capability, Now(Scanning(names)), envs);
      for i := 0 to |names|
        invariant Counts(Now(Scanning(names[i..]))) && !stopped
        invariant Round(platform, capability, Now(Scanning(names[i..])), envs[i..])
               == Round(platform, capability, old(Now(Scanning(names))), envs)
      {
        ghost var here := Now(Scanning(names[i..]));
        assert names[i..] == [names[i]] + names[i + 1..] && names[i..][1..] == names[i + 1..];
        assert envs[i..][0] == envs[i] && envs[i..][1..] == envs[i + 1..];
        stopped := envs[i].stopped;
        if stopped { return; }
        if IsRequestName(names[i]) {
          RoundProcesses(platform, capability, here, envs[i..]);
          ProcessedCounts(platform, capability, Taken(here), envs[i]);
          var threw := ProcessRequest(names[i], envs[i], names[i + 1..]);
          if threw { return; }
        } else {
          RoundSkips(platform, capability, here, envs[i..]);
        }
      }
    }
  }
}
