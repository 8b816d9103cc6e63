/**
 * The deduplication of `wizard.next`: the five collections of `Dedup` agree after every event,
 * whatever sends fail, as long as request ids are fresh.
 */
module Deduplication {
  import opened Options
  import opened Json
  import opened Coordination

  /** Each key in flight belongs to exactly one request that awaits its reply. */
  ghost predicate OneRequestPerKey(d: Dedup) {
    && (forall id :: id in d.requestKeys ==> d.requestKeys[id] in d.inFlight)
    && (forall key :: key in d.inFlight ==> exists id :: id in d.requestKeys && d.requestKeys[id] == key)
    && (forall id, id' :: id in d.requestKeys && id' in d.requestKeys && d.requestKeys[id] == d.requestKeys[id']
          ==> id == id')
  }

  /** The last 32 replies. */
  ghost function Window(replies: seq<Reply>): seq<Reply> {
    if |replies| <= CACHE_LIMIT then replies else replies[|replies| - CACHE_LIMIT..]
  }

  /** The cache holds the replies of `window`, in order, and nothing else. */
  ghost predicate Mirrors(cache: Cache, window: seq<Reply>) {
    && |cache.keys| == |window|
    && (forall i :: 0 <= i < |window| ==>
          && cache.keys[i] == window[i].key
          && cache.keys[i] in cache.responses
          && cache.responses[cache.keys[i]] == window[i].response)
    && (forall key :: key in cache.responses ==> key in cache.keys)
    && (forall i, j :: 0 <= i < j < |cache.keys| ==> cache.keys[i] != cache.keys[j])
  }

  ghost predicate Consistent(d: Dedup) {
    && OneRequestPerKey(d)
    && d.waiters.Keys <= d.inFlight
    && d.cache.responses.Keys !! d.inFlight
    && Mirrors(d.cache, Window(d.replies))
  }

  ghost predicate BookConsistent(book: Book) {
    && Consistent(book.dedup)
    && NextMethods(book)
  }

  /** The requests that await a `wizard.next` reply are `wizard.next` requests. */
  ghost predicate NextMethods(book: Book) {
    forall id :: id in book.dedup.requestKeys ==> Lookup(book.requestMethods, id) == Some(Next)
  }

  /** The request id of a runtime operation is not one that still awaits its reply. */
  ghost predicate FreshRequest(book: Book, e: Event) {
    e.Receiving? && e.inbound.Ordinary? && e.inbound.message.requestId.Some? ==>
      var id := e.inbound.message.requestId.value;
      id !in book.requestOwners && id !in book.requestMethods && id !in book.dedup.requestKeys
  }

  lemma {:induction false} EvolvesKeepsBook(s: State, r: State)
    requires Evolves(s, r) && BookConsistent(s.book)
    ensures BookConsistent(r.book)
  {
  }

  lemma {:induction false} GrowMirror(c: Cache, window: seq<Reply>, key: JsString, m: Message)
    requires Mirrors(c, window) && key !in c.responses
    ensures Mirrors(CacheSet(c, key, m), window + [Reply(key, m)])
  {
    forall i | 0 <= i < |c.keys| ensures c.keys[i] != key { assert c.keys[i] in c.responses; }
  }

  lemma {:induction false} ShrinkMirror(c: Cache, window: seq<Reply>)
    requires Mirrors(c, window) && window != []
    ensures Mirrors(Cache(c.keys[1..], c.responses - {c.keys[0]}), window[1..])
  {
    var r := Cache(c.keys[1..], c.responses - {c.keys[0]});
    forall key | key in r.responses ensures key in r.keys {
      var i :| 0 <= i < |c.keys| && c.keys[i] == key;
      assert r.keys[i - 1] == key;
    }
  }

  lemma {:induction false} WindowGrows(replies: seq<Reply>, reply: Reply)
    ensures Window(replies + [reply])
         == if |replies| < CACHE_LIMIT then Window(replies) + [reply] else (Window(replies) + [reply])[1..]
  {
  }

  /** Remembering one more reply shifts the window of the cache by one. */
  lemma {:induction false} RememberKeepsCache(c: Cache, replies: seq<Reply>, key: JsString, m: Message)
    requires Mirrors(c, Window(replies)) && key !in c.responses
    ensures var r := CacheTrim(CacheSet(c, key, m));
      && Mirrors(r, Window(replies + [Reply(key, m)]))
      && r.responses.Keys <= c.responses.Keys + {key}
  {
    GrowMirror(c, Window(replies), key, m);
    WindowGrows(replies, Reply(key, m));
    if |replies| >= CACHE_LIMIT { ShrinkMirror(CacheSet(c, key, m), Window(replies) + [Reply(key, m)]); }
  }

  /** `d` is consistent but for the reply to the request under `key`, which is being dealt with. */
  ghost predicate Landing(d: Dedup, key: JsString) {
    && Consistent(d.(inFlight := d.inFlight - {key}, waiters := d.waiters - {key}))
    && key !in d.cache.responses
  }

  lemma {:induction false} StruckIsLanding(book: Book, id: JsString)
    requires BookConsistent(book) && id in book.dedup.requestKeys
    ensures Landing(Struck(book, id).dedup, book.dedup.requestKeys[id])
  {
    var d, key := book.dedup, book.dedup.requestKeys[id];
    var r := Struck(book, id).dedup;
    forall k | k in r.inFlight - {key}
      ensures exists i :: i in r.requestKeys && r.requestKeys[i] == k
    {
      var i :| i in d.requestKeys && d.requestKeys[i] == k;
      assert i in r.requestKeys;
    }
  }

  lemma {:induction false} LandedIsConsistent(d: Dedup, key: JsString, m: Message)
    requires Landing(d, key)
    ensures Consistent(Landed(d, key, m).(waiters := d.waiters - {key}))
  {
    if m.ok { RememberKeepsCache(d.cache, d.replies, key, m); }
  }

  /** Consistent but for the waiters under `key`, who have just been told. */
  ghost predicate Telling(book: Book, key: JsString) {
    Consistent(book.dedup.(waiters := book.dedup.waiters - {key})) && NextMethods(book)
  }

  lemma {:induction false} EvolvesKeepsTelling(s: State, r: State, key: JsString)
    requires Evolves(s, r) && Telling(s.book, key)
    ensures Telling(r.book, key)
  {
    if NewTenure(s, r) { assert EMPTY_DEDUP.waiters - {key} == EMPTY_DEDUP.waiters; }
  }

  lemma {:induction false} SettleNextKeepsBook(s: State, key: JsString, m: Message)
    requires Elected(s) && Landing(s.book.dedup, key) && NextMethods(s.book)
    ensures BookConsistent(SettleNext(s, key, m).book)
  {
    var s1 := WithDedup(s, Landed(s.book.dedup, key, m));
    LandedIsConsistent(s.book.dedup, key, m);
    EvolvesKeepsTelling(s1, NextTold(s, key, m), key);
  }

  lemma {:induction false} RecordKeepsDedup(book: Book, rpcMethod: Option<Method>, m: Message)
    ensures var r := Record(book, rpcMethod, m);
      && (r.dedup == book.dedup || r.dedup == EMPTY_DEDUP)
      && r.requestMethods == book.requestMethods && r.requestOwners == book.requestOwners
      && r.startInFlight == book.startInFlight && r.startWaiters == book.startWaiters
  {
  }

  lemma {:induction false} EvolvesKeepsLanding(s: State, r: State, key: JsString)
    requires Evolves(s, r) && Landing(s.book.dedup, key) && NextMethods(s.book)
    ensures Landing(r.book.dedup, key) && NextMethods(r.book)
  {
  }

  lemma {:induction false} StruckWithoutKey(book: Book, id: JsString, rpcMethod: Option<Method>, m: Message)
    requires BookConsistent(book) && id !in book.dedup.requestKeys
    ensures BookConsistent(Record(Struck(book, id), rpcMethod, m))
  {
    assert book.dedup.requestKeys - {id} == book.dedup.requestKeys;
    RecordKeepsDedup(Struck(book, id), rpcMethod, m);
  }

  lemma {:induction false} StruckWithKey(book: Book, id: JsString, rpcMethod: Option<Method>, m: Message)
    requires BookConsistent(book) && id in book.dedup.requestKeys
    ensures var r := Record(Struck(book, id), rpcMethod, m);
      Landing(r.dedup, book.dedup.requestKeys[id]) && NextMethods(r)
  {
    StruckIsLanding(book, id);
    RecordKeepsDedup(Struck(book, id), rpcMethod, m);
    assert Landing(EMPTY_DEDUP, book.dedup.requestKeys[id]);
  }

  lemma {:induction false} SettleKeepsBook(s: State, id: JsString, m: Message)
    requires Elected(s) && BookConsistent(s.book)
    ensures BookConsistent(Settle(s, id, m).book)
  {
    var rpcMethod := Lookup(s.book.requestMethods, id);
    var s1, s2 := Recorded(s, id, m), Informed(s, id, m);
    if id in s.book.dedup.requestKeys {
      var key := s.book.dedup.requestKeys[id];
      StruckWithKey(s.book, id, rpcMethod, m);
      EvolvesKeepsLanding(s1, s2, key);
      SettleNextKeepsBook(s2, key, m);
    } else {
      StruckWithoutKey(s.book, id, rpcMethod, m);
      EvolvesKeepsBook(s1, s2);
      if rpcMethod == Some(Start) { EvolvesKeepsBook(StartOver(s2), SettleStart(s2, m)); }
    }
  }

  lemma {:induction false} EnterKeepsBook(book: Book, port: Port, id: JsString, m: Message)
    requires BookConsistent(book) && id !in book.requestMethods && id !in book.dedup.requestKeys
    requires RoutingOf(book, m).ToOwner?
    ensures BookConsistent(Enter(book, port, id, m))
  {
    var nextKey := NextKey(m);
    if nextKey.Some? {
      var d, r := book.dedup, Enter(book, port, id, m).dedup;
      forall key | key in r.inFlight
        ensures exists i :: i in r.requestKeys && r.requestKeys[i] == key
      {
        if key == nextKey.value {
          assert r.requestKeys[id] == key;
        } else {
          var i :| i in d.requestKeys && d.requestKeys[i] == key;
          assert i in r.requestKeys && r.requestKeys[i] == key;
        }
      }
    }
  }

  lemma {:induction false} RouteKeepsBook(s: State, m: Message)
    requires Elected(s) && BookConsistent(s.book)
    ensures BookConsistent(RouteOwnerOutput(s, m).book)
  {
    if Settles(s.book, m) {
      SettleKeepsBook(s, m.requestId.value, m);
    } else {
      EvolvesKeepsBook(Posted(s, m), RouteOwnerOutput(s, m));
    }
  }

  lemma {:induction false} EnqueueKeepsBook(book: Book, key: JsString, w: Waiter)
    requires BookConsistent(book) && key in book.dedup.inFlight
    ensures BookConsistent(book.(dedup := book.dedup.(waiters := Enqueue(book.dedup.waiters, key, w))))
  {
    assert Enqueue(book.dedup.waiters, key, w).Keys == book.dedup.waiters.Keys + {key};
  }

  lemma {:induction false} OperateKeepsBook(s: State, port: Port, m: Message)
    requires Elected(s) && BookConsistent(s.book)
    requires FreshRequest(s.book, Receiving(port, Ordinary(m)))
    ensures BookConsistent(Operate(s, port, m).book)
  {
    var r := Operate(s, port, m);
    if m.requestId.None? {
      EvolvesKeepsBook(s, r);
    } else {
      var id := m.requestId.value;
      match RoutingOf(s.book, m)
      case FromCache(_) => EvolvesKeepsBook(s, r);
      case BehindNext(key) => EnqueueKeepsBook(s.book, key, Waiter(port, id));
      case FromSnapshot => EvolvesKeepsBook(s, r);
      case BehindStart =>
      case ToOwner =>
        EnterKeepsBook(s.book, port, id, m);
        EvolvesKeepsBook(s.(book := Enter(s.book, port, id, m)), r);
    }
  }

  lemma {:induction false} ConnectKeepsBook(s: State, port: Port)
    requires Elected(s) && BookConsistent(s.book)
    ensures BookConsistent(Connect(s, port).book)
  {
    ConnectEvolves(s, port);
    EvolvesKeepsBook(Admitted(s, port), Connect(s, port));
  }

  /** Every event keeps the collections in agreement, for every pattern of failing sends. */
  lemma {:induction false} StepKeepsBook(s: State, e: Event)
    requires Elected(s) && BookConsistent(s.book) && FreshRequest(s.book, e)
    ensures BookConsistent(Step(s, e).book)
  {
    var r := Step(s, e);
    match e
    case Connecting(port) => ConnectKeepsBook(s, port);
    case Receiving(_, Disconnecting) => EvolvesKeepsBook(s, r);
    case Receiving(port, OwnerOutput(m)) => if Some(port) == s.owner { RouteKeepsBook(s, m); }
    case Receiving(_, RuntimeStart) =>
      if s.owner.Some? { EvolvesKeepsBook(s.(runtimeRequested := true), r); }
    case Receiving(port, Ordinary(m)) =>
      if IsRuntimeOperation(m) && s.owner.Some? { OperateKeepsBook(s, port, m); }
  }

  ghost predicate FreshRun(s: State, events: seq<Event>)
    requires Elected(s)
  {
    forall i :: 0 <= i < |events| ==> FreshRequest(Run(s, events[..i]).book, events[i])
  }

  /** At every reachable state the in-flight keys are, one for one, those of the awaited requests. */
  lemma {:induction false} RunKeepsBook(s: State, events: seq<Event>)
    requires Elected(s) && BookConsistent(s.book) && FreshRun(s, events)
    ensures BookConsistent(Run(s, events).book)
  {
    if events != [] {
      var n := |events| - 1;
      forall i | 0 <= i < n ensures FreshRequest(Run(s, events[..n][..i]).book, events[..n][i]) {
        assert events[..n][..i] == events[..i];
      }
      RunKeepsBook(s, events[..n]);
      StepKeepsBook(Run(s, events[..n]), events[n]);
    }
  }

  /** What a mirrored window knows about a key. */
  lemma {:induction false} CachedExactlyWhenRecent(c: Cache, replies: seq<Reply>, key: JsString)
    requires Mirrors(c, Window(replies))
    ensures key in c.responses <==>
            exists i :: 0 <= i < |replies| && |replies| - CACHE_LIMIT <= i && replies[i].key == key
  {
    var window := Window(replies);
    var skipped := |replies| - |window|;
    if key in c.responses {
      var i :| 0 <= i < |c.keys| && c.keys[i] == key;
      assert window[i] == replies[skipped + i];
    }
    if i :| 0 <= i < |replies| && |replies| - CACHE_LIMIT <= i && replies[i].key == key {
      assert window[i - skipped] == replies[i] && c.keys[i - skipped] == key;
    }
  }

  /**
   * A keyed request goes to the owner exactly when its key is not outstanding and every successful
   * reply to it since the last clear has been followed by 32 others, which evicted it.
   */
  lemma {:induction false} ForwardedExactlyWhenUnknown(book: Book, m: Message)
    requires BookConsistent(book) && NextKey(m).Some?
    ensures RoutingOf(book, m).ToOwner?
       <==> && NextKey(m).value !in book.dedup.inFlight
            && (forall i :: 0 <= i < |book.dedup.replies| && book.dedup.replies[i].key == NextKey(m).value
                  ==> i < |book.dedup.replies| - CACHE_LIMIT)
  {
    CachedExactlyWhenRecent(book.dedup.cache, book.dedup.replies, NextKey(m).value);
  }
}
