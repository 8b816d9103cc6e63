/** Everything the shared worker posts, event by event, when posts go through. */
module CoordinationPosts {
  import opened Options
  import opened Coordination
  import opened RequestLedger

  /** The owner's readiness: as it is to the owner, rewritten to the others. */
  function ToEach(owner: Option<Port>, targets: seq<Port>, m: Message): seq<Post> {
    seq(|targets|, i requires 0 <= i < |targets| =>
      Post(targets[i], Relayed(if Some(targets[i]) == owner then m else SharedReady(m))))
  }

  /** The notice, the status, and what is kept for replay. */
  function PostsOnConnect(s: State, port: Port): seq<Post> {
    var first := s.owner.None?;
    [Post(port, if first then OwnerNotice else FollowerNotice), Post(port, Relayed(s.board.statusMessage))]
    + (if s.board.resultMessage.None? then [] else [Post(port, Relayed(s.board.resultMessage.value))])
    + (if s.board.readyMessage.None? then []
       else
         var ready := s.board.readyMessage.value;
         [Post(port, Relayed(if first || Some(port) == s.owner then ready else SharedReady(ready)))])
  }

  /** When the owner leaves: the status to all who stay, then the notices to the first of them. */
  function PostsOnOwnerLoss(s: State): seq<Post> {
    var rest := Without(s.ports, s.owner);
    if rest == [] then []
    else
      ToAll(rest, Relayed(RESTORING)) + [Post(rest[0], OwnerNotice)]
      + if s.runtimeRequested then [Post(rest[0], StartNotice)] else []
  }

  function PostsOnOutput(s: State, m: Message): seq<Post> {
    if Settles(s.book, m) then
      var id := m.requestId.value;
      RequesterTold(s.book, id, m) + ToWaiters(WaitersTold(s.book, id, m), m)
    else if m.kind == GatewayReady then ToEach(s.owner, s.ports, m)
    else ToAll(s.ports, Relayed(m))
  }

  function PostsOnRequest(s: State, port: Port, m: Message): seq<Post>
    requires s.owner.Some?
  {
    if m.requestId.None? then [Post(s.owner.value, Input(m))]
    else
      match RoutingOf(s.book, m)
      case FromCache(response) => [Post(port, Relayed(Addressed(response, m.requestId.value)))]
      case FromSnapshot => [Post(port, Relayed(SnapshotResponse(m.requestId.value, s.book.snapshot)))]
      case ToOwner => [Post(s.owner.value, Input(m))]
      case _ => []
  }

  function PostsOn(s: State, e: Event): seq<Post> {
    match e
    case Connecting(port) => PostsOnConnect(s, port)
    case Receiving(port, Disconnecting) => if Some(port) == s.owner then PostsOnOwnerLoss(s) else []
    case Receiving(port, OwnerOutput(m)) => if Some(port) == s.owner then PostsOnOutput(s, m) else []
    case Receiving(_, RuntimeStart) => if s.owner.Some? then [Post(s.owner.value, StartNotice)] else []
    case Receiving(port, Ordinary(m)) =>
      if IsRuntimeOperation(m) && s.owner.Some? then PostsOnRequest(s, port, m) else []
  }

  lemma {:induction false} ToEachFirst(owner: Option<Port>, targets: seq<Port>, m: Message)
    requires targets != []
    ensures ToEach(owner, targets, m)
         == [Post(targets[0], Relayed(if Some(targets[0]) == owner then m else SharedReady(m)))]
           + ToEach(owner, targets[1..], m)
  {
    var rest := ToEach(owner, targets[1..], m);
    forall i | 1 <= i < |targets| ensures ToEach(owner, targets, m)[i] == rest[i - 1] {
      assert targets[1..][i - 1] == targets[i];
    }
  }

  lemma {:induction false} AnnouncePosts(s: State, targets: seq<Port>, m: Message)
    requires Elected(s) && Reliable(s)
    ensures PostedExactly(s, Announce(s, targets, m), ToEach(s.owner, targets, m))
    decreases |targets|
  {
    if targets == [] {
      assert s.wire.log + ToEach(s.owner, targets, m) == s.wire.log;
    } else {
      var post := Post(targets[0], Relayed(if Some(targets[0]) == s.owner then m else SharedReady(m)));
      var s1 := Send(s, Some(targets[0]), post.delivery);
      AnnouncePosts(s1, targets[1..], m);
      ToEachFirst(s.owner, targets, m);
      Associative(s.wire.log, [post], ToEach(s.owner, targets[1..], m));
    }
  }

  lemma {:induction false} ConnectPosts(s: State, port: Port)
    requires Elected(s) && Reliable(s)
    ensures Connect(s, port).wire.log == s.wire.log + PostsOnConnect(s, port)
  {
  }

  lemma {:induction false} GreetPosts(s: State)
    requires Elected(s) && Reliable(s) && s.ports != []
    ensures Greeted(s).wire.log
         == s.wire.log + [Post(s.ports[0], OwnerNotice)]
             + if s.runtimeRequested then [Post(s.ports[0], StartNotice)] else []
  {
  }

  lemma {:induction false} OwnerLossPosts(s: State)
    requires Elected(s) && Reliable(s) && s.owner.Some?
    ensures Disconnect(s, s.owner).wire.log == s.wire.log + PostsOnOwnerLoss(s)
  {
    var orphaned := Orphaned(s, s.owner);
    if orphaned.ports != [] {
      var chosen := Chosen(orphaned);
      BroadcastReliably(chosen, chosen.ports, Relayed(RESTORING));
      GreetPosts(Broadcast(chosen, chosen.ports, Relayed(RESTORING)));
    }
  }

  lemma {:induction false} OutputPosts(s: State, m: Message)
    requires Elected(s) && Reliable(s)
    ensures RouteOwnerOutput(s, m).wire.log == s.wire.log + PostsOnOutput(s, m)
  {
    if Settles(s.book, m) {
      SettleReliably(s, m.requestId.value, m);
    } else if m.kind == GatewayReady {
      AnnouncePosts(Posted(s, m), s.ports, m);
    } else {
      BroadcastReliably(Posted(s, m), s.ports, Relayed(m));
    }
  }

  /** Every event posts exactly this, to exactly these ports, in this order. */
  lemma {:induction false} StepPosts(s: State, e: Event)
    requires Elected(s) && Reliable(s)
    ensures Step(s, e).wire.log == s.wire.log + PostsOn(s, e)
  {
    match e
    case Connecting(port) => ConnectPosts(s, port);
    case Receiving(port, Disconnecting) => if Some(port) == s.owner { OwnerLossPosts(s); }
    case Receiving(port, OwnerOutput(m)) => if Some(port) == s.owner { OutputPosts(s, m); }
    case Receiving(_, _) =>
  }

  /** What the owner last said is what the next port to connect is told. */
  lemma {:induction false} ReplayedLater(s: State, owner: Port, m: Message, port: Port)
    requires Elected(s) && Reliable(s) && s.owner == Some(owner) && !Settles(s.book, m) && port !in s.ports
    ensures var posts, board := PostsOn(Step(s, Receiving(owner, OwnerOutput(m))), Connecting(port)), s.board;
      posts
      == [Post(port, FollowerNotice), Post(port, Relayed(if m.kind == RuntimeStatus then m else board.statusMessage))]
         + (if m.kind == RuntimeResult then [Post(port, Relayed(m))]
            else if board.resultMessage.Some? then [Post(port, Relayed(board.resultMessage.value))] else [])
         + (if m.kind == GatewayReady then [Post(port, Relayed(SharedReady(m)))]
            else if board.readyMessage.Some? then [Post(port, Relayed(SharedReady(board.readyMessage.value)))] else [])
  {
    if m.kind == GatewayReady {
      AnnouncePosts(Posted(s, m), s.ports, m);
    } else {
      BroadcastReliably(Posted(s, m), s.ports, Relayed(m));
    }
  }
}
