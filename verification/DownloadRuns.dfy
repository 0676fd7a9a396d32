/** Runs of the world download: how every admitted client can be served, and runs that go wrong. */
module DownloadRuns {
  import opened Wrappers
  import opened Bits
  import opened NetBuffer
  import opened WorldTransfer
  import opened DownloadSystem
  import opened DownloadProtocol

  // ---- serving a client ----

  /** The client reads the size of the world from this message. */
  predicate RightSize(w: World, m: Msg)
  {
    SizeIn(m) == (w.x, w.y)
  }

  /** The server runs and has admitted the client, and the message in the place of the announcement has, or can have,
      the right size: before the client waits for it, the client can take one message, and may find none. */
  ghost predicate OnTrack(s: System)
  {
    var c, p := s.client, Pending(s);
    && Inv(s) && s.running && s.peer.Some? && !s.wild && Listening(c)
    && match c.phase
       case HELLO => false
       case HELLO_SENT => |p| <= 2 || RightSize(s.world, p[1]) || RightSize(s.world, p[2])
       case DOWNLOAD_WORLD =>
         |p| <= 1 || RightSize(s.world, p[1]) || (s.buffer == [] && RightSize(s.world, p[0]))
       case DOWNLOAD_WORLD_SENT => p == [] || RightSize(s.world, p[0])
       case DOWNLOADING_WORLD => (c.world.x, c.world.y) == (s.world.x, s.world.y)
       case LETS_GO => (c.world.x, c.world.y) == (s.world.x, s.world.y)
  }

  function Phases(c: ClientView): nat
  {
    if c.state == CONNECTED then 0
    else match c.phase
         case LETS_GO => 1
         case DOWNLOADING_WORLD => 2
         case DOWNLOAD_WORLD_SENT => 3
         case DOWNLOAD_WORLD => 4
         case HELLO_SENT => 5
         case HELLO => 6
  }

  function Unsent(s: System): nat
  {
    if s.peer.Some? && s.peer.value.progress <= |s.world.tiles| then |s.world.tiles| - s.peer.value.progress else 0
  }

  /** b is closer to the end of the download than a. */
  predicate Closer(a: System, b: System)
  {
    var i, j := Phases(a.client), Phases(b.client);
    || j < i
    || (j == i && (|b.up| < |a.up|
        || (|b.up| == |a.up| && (Unsent(b) < Unsent(a)
            || (Unsent(b) == Unsent(a) && (|Pending(b)| < |Pending(a)|
                || (|Pending(b)| == |Pending(a)| && |b.down| < |a.down|)))))))
  }

  /** The client's tick with the message in its buffer, or without one. */
  function Ticked(s: System, c: ClientView, sent: seq<Msg>): System
  {
    var msg := Newest(s);
    s.(client := c, buffer := [], up := s.up + sent,
       reply := if TakenForReply(s.client, msg) then msg else s.reply,
       taken := if TakenForAnnouncement(s.client, msg) then msg else s.taken,
       got := if TakesChunk(s.client, msg) then s.got + [msg.value.data] else s.got)
  }

  lemma TickIsStep(s: System, c: ClientView, sent: seq<Msg>)
    requires !s.wild && |s.buffer| <= 1 && Listening(s.client) && !Overruns(s.client, Newest(s))
    requires ClientTick(s.client, Newest(s), c, sent)
    ensures Step(s, Ticked(s, c, sent))
  {
    hide ClientTick, Overruns;
    var t := Ticked(s, c, sent);
    assert t.up[|s.up|..] == sent;
    assert Pop(s.buffer) == [];
    assert ClientStep(s, t);
    if s.buffer != [] {
      NoDelivery(s, t);
    }
  }

  /** A tick takes a message out of the buffer, so it is not a delivery. */
  lemma NoDelivery(s: System, t: System)
    requires |s.buffer| == 1 && t.buffer == []
    ensures !Deliver(s, t)
  {
  }

  /** The next message arrives. */
  lemma Arrives(s: System) returns (t: System)
    requires Inv(s) && !s.wild && Listening(s.client) && s.buffer == [] && s.down != []
    ensures Step(s, t) && t == s.(down := s.down[1..], buffer := [s.down[0]])
    ensures Pending(t) == Pending(s)
  {
    hide PhaseInv, Law, Complete, Accepted;
    var m := s.down[0];
    assert Pending(s) == s.down;
    PendingAccepted(s, s.down);
    assert Push([], m) == [m];
    t := s.(down := s.down[1..], buffer := [m]);
    assert [m] + s.down[1..] == s.down;
    assert Deliver(s, t);
  }

  lemma ServerIsStep(s: System, t: System)
    requires ServerStep(s, t) && s.buffer == t.buffer && (s.buffer == [] || |t.down| >= |s.down|)
    ensures Step(s, t)
  {
    hide ServerStep;
  }

  // ---- one step closer ----

  lemma FromHelloSent(s: System) returns (t: System)
    requires OnTrack(s) && s.client.phase == HELLO_SENT && s.client.state == CONNECTING
    ensures Step(s, t) && OnTrack(t) && Closer(s, t) && t.world == s.world
  {
    hide Complete, Accepted, Carries, Announced;
    if s.buffer == [] {
      assert Pending(s) == s.down;
      t := Arrives(s);
    } else {
      var c := s.client.(phase := DOWNLOAD_WORLD);
      t := Ticked(s, c, []);
      TickIsStep(s, c, []);
    }
    StepInv(s, t);
  }

  lemma FromDownloadWorld(s: System) returns (t: System)
    requires OnTrack(s) && s.client.phase == DOWNLOAD_WORLD && s.client.state == CONNECTING
    ensures Step(s, t) && OnTrack(t) && Closer(s, t) && t.world == s.world
  {
    hide Complete, Accepted, Carries, Announced;
    var p := Pending(s);
    if s.buffer == [] && s.down != [] && (|p| <= 1 || RightSize(s.world, p[1])) {
      t := Arrives(s);
    } else {
      var c := s.client.(phase := DOWNLOAD_WORLD_SENT);
      t := Ticked(s, c, [REQUEST_MSG]);
      NotShutdown(s);
      TickIsStep(s, c, [REQUEST_MSG]);
      assert s.up + [REQUEST_MSG] == [REQUEST_MSG];
    }
    StepInv(s, t);
  }

  /** A running server has not sent the message that ends it. */
  lemma NotShutdown(s: System)
    requires Inv(s) && !s.wild && s.running && Listening(s.client)
    ensures s.buffer != [] ==> s.buffer[0].kind != NETMSG_SERVER_SHUTDOWN
  {
    hide Law, PhaseInv;
    PendingAccepted(s, Pending(s));
    assert s.buffer != [] ==> Pending(s)[0] == s.buffer[0];
  }

  lemma FromRequest(s: System) returns (t: System)
    requires OnTrack(s) && s.client.state == CONNECTING && s.up == [REQUEST_MSG] && Pending(s) == []
    requires s.client.phase == DOWNLOAD_WORLD_SENT || s.client.phase == DOWNLOADING_WORLD
    ensures Step(s, t) && OnTrack(t) && Closer(s, t) && t.world == s.world
  {
    HeaderRoundTrip(s.world, s.name);
    hide Complete, Accepted, Carries, Announced, SizeIn, Header;
    t := s.(peer := Some(Peer(DOWNLOADING_WORLD, 0)), up := [], down := [Header(s.world, s.name)]);
    RequestHandled(s, t);
    ServerIsStep(s, t);
    StepInv(s, t);
  }

  lemma RequestHandled(s: System, t: System)
    requires Inv(s) && s.running && !s.wild && Listening(s.client) && s.up == [REQUEST_MSG] && Pending(s) == []
    requires s.client.phase == DOWNLOAD_WORLD_SENT || s.client.phase == DOWNLOADING_WORLD
    requires t == s.(peer := Some(Peer(DOWNLOADING_WORLD, 0)), up := [], down := [Header(s.world, s.name)])
    ensures ServerStep(s, t)
  {
    hide Complete, Accepted, Carries, Announced, SizeIn, Law, Header;
    assert s.up[1..] == [] && s.down == [];
    assert [] + [Header(s.world, s.name)] == [Header(s.world, s.name)];
  }

  lemma FromSent(s: System) returns (t: System)
    requires OnTrack(s) && s.client.phase == DOWNLOAD_WORLD_SENT && s.client.state == CONNECTING
    ensures Step(s, t) && OnTrack(t) && Closer(s, t) && t.world == s.world
  {
    hide Complete, Accepted, Carries, SizeIn, Header, Law;
    if Pending(s) == [] {
      t := FromRequest(s);
    } else if s.buffer == [] {
      t := Arrives(s);
      StepInv(s, t);
    } else {
      NotShutdown(s);
      t := TakesAnnouncement(s);
      StepInv(s, t);
    }
  }

  lemma TakesAnnouncement(s: System) returns (t: System)
    requires Inv(s) && s.running && !s.wild && s.client.phase == DOWNLOAD_WORLD_SENT && s.client.state == CONNECTING
    requires |s.buffer| == 1 && RightSize(s.world, s.buffer[0]) && s.buffer[0].kind != NETMSG_SERVER_SHUTDOWN
    ensures Step(s, t) && t.world == s.world && t.client.phase == DOWNLOADING_WORLD && t.client.state == CONNECTING
    ensures (t.client.world.x, t.client.world.y) == (s.world.x, s.world.y) && t.running && t.peer == s.peer && !t.wild
  {
    hide Law, PhaseInv, Bytes;
    hide SizeIn, Header;
    var c := s.client.(phase := DOWNLOADING_WORLD,
                       world := World(s.world.x, s.world.y, seq(Bytes(s.world.x, s.world.y), _ => 0)));
    t := Ticked(s, c, []);
    TickIsStep(s, c, []);
  }

  lemma FromDownloading(s: System) returns (t: System)
    requires OnTrack(s) && s.client.phase == DOWNLOADING_WORLD && s.client.state == CONNECTING
    ensures Step(s, t) && OnTrack(t) && Closer(s, t) && t.world == s.world
  {
    hide Complete, Accepted, Carries, Announced, SizeIn, Header, Law, PhaseInv, Inv;
    if Pending(s) == [] {
      DownloadingNext(s);
      if s.up != [] {
        t := FromRequest(s);
      } else {
        t := Downloads(s);
        ServerIsStep(s, t);
        StepInv(s, t);
      }
    } else if s.buffer == [] {
      t := Arrives(s);
      StepInv(s, t);
    } else {
      t := TakesMessage(s);
      StepInv(s, t);
    }
  }

  /** With nothing on its way the server has a request to handle, or something left to send. */
  lemma DownloadingNext(s: System)
    requires OnTrack(s) && s.client.phase == DOWNLOADING_WORLD && s.client.state == CONNECTING && Pending(s) == []
    ensures s.up == [REQUEST_MSG] || (s.up == [] && ServerStep(s, Downloads(s)))
    ensures s.up == [] ==> Unsent(Downloads(s)) < Unsent(s) && Downloads(s).buffer == s.buffer == []
  {
    hide Accepted, SizeIn, Header, Concat;
  }

  lemma TakesMessage(s: System) returns (t: System)
    requires OnTrack(s) && s.client.phase == DOWNLOADING_WORLD && s.client.state == CONNECTING && s.buffer != []
    ensures Step(s, t) && t.world == s.world && Listening(t.client) && t.running && t.peer == s.peer && !t.wild
    ensures t.up == s.up
    ensures (t.client.world.x, t.client.world.y) == (s.world.x, s.world.y)
    ensures t.client.phase == LETS_GO || (t.client.phase == DOWNLOADING_WORLD && |Pending(t)| < |Pending(s)|)
    ensures Unsent(t) == Unsent(s)
  {
    NotShutdown(s);
    TakenFits(s);
    hide Inv, Header, SizeIn, Copied;
    var m := s.buffer[0];
    assert Newest(s) == Some(m);
    var c := if m.kind == NETMSG_WORLD_DOWNLOAD_PACKET then WithChunk(s.client, m.data) else s.client;
    t := Ticked(s, c, []);
    assert s.up + [] == s.up;
    TickIsStep(s, c, []);
  }

  /** A client that knows the size has room for every chunk. */
  lemma TakenFits(s: System)
    requires OnTrack(s) && s.client.phase == DOWNLOADING_WORLD && s.client.state == CONNECTING && s.buffer != []
    ensures |s.buffer| == 1 && !Overruns(s.client, Some(s.buffer[0]))
  {
    hide PhaseInv, Header, SizeIn, Concat;
    if Overruns(s.client, Some(s.buffer[0])) {
      OverrunMeans(s, Pending(s));
    }
  }

  lemma FromLetsGo(s: System) returns (t: System)
    requires OnTrack(s) && s.client.phase == LETS_GO && s.client.state == CONNECTING
    ensures Step(s, t) && OnTrack(t) && Closer(s, t) && t.world == s.world
  {
    NotShutdown(s);
    hide Complete, Accepted, SizeIn, PhaseInv, Law, Concat;
    var c := s.client.(state := CONNECTED);
    t := Ticked(s, c, []);
    TickIsStep(s, c, []);
    StepInv(s, t);
  }

  lemma OneStepCloser(s: System) returns (t: System)
    requires OnTrack(s) && s.client.state == CONNECTING
    ensures Step(s, t) && OnTrack(t) && Closer(s, t) && t.world == s.world
  {
    match s.client.phase
    case HELLO_SENT => t := FromHelloSent(s);
    case DOWNLOAD_WORLD => t := FromDownloadWorld(s);
    case DOWNLOAD_WORLD_SENT => t := FromSent(s);
    case DOWNLOADING_WORLD => t := FromDownloading(s);
    case LETS_GO => t := FromLetsGo(s);
  }

  // ---- complete runs ----

  lemma Longer(s: System, run: seq<System>)
    requires run != [] && Step(s, run[0]) && Steps(run)
    ensures Steps([s] + run)
  {
    hide Step;
    var longer := [s] + run;
    forall i | 0 <= i < |longer| - 1
      ensures Step(longer[i], longer[i + 1])
    {
      if i > 0 {
        assert longer[i] == run[i - 1] && longer[i + 1] == run[i];
      }
    }
  }

  lemma Alone(s: System)
    ensures Steps([s])
  {
  }

  /** The client is connected, and has the server's map. */
  predicate Completed(t: System, w: World)
  {
    !t.wild && t.client.state == CONNECTED && t.client.world == w
  }

  /** From a state that is on track some steps complete the download. */
  lemma {:induction false} CanComplete(s: System) returns (run: seq<System>)
    requires OnTrack(s)
    ensures run != [] && run[0] == s && Steps(run)
    ensures Completed(run[|run| - 1], s.world)
    decreases Phases(s.client), |s.up|, Unsent(s), |Pending(s)|, |s.down|
  {
    hide Inv, Steps, Step;
    if s.client.state == CONNECTED {
      Alone(s);
      run := [s];
      ConnectedHasMap(s);
    } else {
      var t := OneStepCloser(s);
      run := CanComplete(t);
      Longer(s, run);
      run := [s] + run;
    }
  }

  lemma ConnectedHasMap(s: System)
    requires OnTrack(s) && s.client.state == CONNECTED
    ensures s.client.world == s.world
  {
    hide SizeIn, Concat;
    assert s.world.tiles[..|s.world.tiles|] == s.world.tiles;
  }

  // ---- how long it takes ----

  /** The packets that n bytes make. */
  function PacketCount(n: nat): nat
  {
    if n <= MAX_PACKET_SIZE then 1 else 1 + PacketCount(n - MAX_PACKET_SIZE)
  }

  lemma {:induction false} PacketsRoundUp(n: nat)
    requires n > 0
    ensures PacketCount(n) == (n + 1399) / 1400
  {
    if n > MAX_PACKET_SIZE {
      PacketsRoundUp(n - MAX_PACKET_SIZE);
    }
  }

  /** The server sends a chunk, it arrives, and the client takes it. */
  lemma Round(s: System) returns (a: System, b: System, t: System)
    requires OnTrack(s) && s.client.state == CONNECTING && s.client.phase == DOWNLOADING_WORLD
    requires Pending(s) == [] && s.up == []
    ensures Step(s, a) && Step(a, b) && Step(b, t)
    ensures OnTrack(t) && t.world == s.world && Pending(t) == [] && t.up == [] && t.client.state == CONNECTING
    ensures t.client.progress == s.client.progress + Least(|s.world.tiles| - s.client.progress, MAX_PACKET_SIZE)
    ensures s.client.progress < |s.world.tiles|
    ensures t.client.phase == if t.client.progress < |s.world.tiles| then DOWNLOADING_WORLD else LETS_GO
  {
    DownloadingNext(s);
    a := Downloads(s);
    RoundStarts(s);
    hide OnTrack, Inv, ServerStep, Downloads, Complete, Law, PhaseInv;
    ServerIsStep(s, a);
    assert Inv(s) && s.running && s.peer.Some? && !s.wild by {
      TrackFacts(s);
    }
    StepInv(s, a);
    b := Arrives(a);
    StepInv(a, b);
    t := RoundEnds(s, a, b);
  }

  lemma TrackFacts(s: System)
    requires OnTrack(s)
    ensures Inv(s) && s.running && s.peer.Some? && !s.wild && Listening(s.client)
  {
  }

  lemma RoundStarts(s: System)
    requires OnTrack(s) && s.client.state == CONNECTING && s.client.phase == DOWNLOADING_WORLD
    requires Pending(s) == [] && s.up == []
    ensures s.client.progress < |s.world.tiles|
    ensures var m := Msg(NETMSG_WORLD_DOWNLOAD_PACKET, Piece(s.world.tiles, s.client.progress));
      var next := Downloads(s);
      next == s.(peer := next.peer, down := [m]) && next.peer.Some?
  {
    hide SizeIn, Concat;
  }

  lemma RoundEnds(s: System, a: System, b: System) returns (t: System)
    requires OnTrack(s) && s.client.state == CONNECTING && s.client.phase == DOWNLOADING_WORLD && Inv(b)
    requires s.client.progress < |s.world.tiles| && s.up == [] && a.peer.Some?
    requires a
      == s.(peer := a.peer, down := [Msg(NETMSG_WORLD_DOWNLOAD_PACKET, Piece(s.world.tiles, s.client.progress))])
    requires b == a.(down := [], buffer := a.down)
    ensures Step(b, t)
    ensures OnTrack(t) && t.world == s.world && Pending(t) == [] && t.up == [] && t.client.state == CONNECTING
    ensures t.client.progress == s.client.progress + Least(|s.world.tiles| - s.client.progress, MAX_PACKET_SIZE)
    ensures t.client.phase == if t.client.progress < |s.world.tiles| then DOWNLOADING_WORLD else LETS_GO
  {
    var m := b.buffer[0];
    assert Newest(b) == Some(m);
    assert OnTrack(b);
    TakenFits(b);
    SizeIsLength(b);
    hide Inv, SizeIn, Copied, Header, OnTrack, Bytes;
    t := Ticked(b, WithChunk(b.client, m.data), []);
    assert b.up + [] == [];
    TickIsStep(b, t.client, []);
    StepInv(b, t);
    TrackAgain(t);
  }

  lemma SizeIsLength(s: System)
    requires OnTrack(s) && s.client.phase == DOWNLOADING_WORLD
    ensures Bytes(s.client.world.x, s.client.world.y) == |s.world.tiles| && s.running && !s.wild
    ensures (s.client.world.x, s.client.world.y) == (s.world.x, s.world.y)
  {
  }

  lemma TrackAgain(t: System)
    requires Inv(t) && t.running && t.peer.Some? && !t.wild && Listening(t.client)
    requires t.client.phase == DOWNLOADING_WORLD || t.client.phase == LETS_GO
    requires (t.client.world.x, t.client.world.y) == (t.world.x, t.world.y)
    ensures OnTrack(t)
  {
  }

  /** When nothing is on its way, the rest of the map takes as many rounds as there are packets left to send. */
  lemma {:induction false} InRounds(s: System) returns (run: seq<System>)
    requires OnTrack(s) && s.client.state == CONNECTING && s.client.phase == DOWNLOADING_WORLD
    requires Pending(s) == [] && s.up == [] && s.client.progress < |s.world.tiles|
    ensures |run| == 1 + 3 * PacketCount(|s.world.tiles| - s.client.progress)
    ensures run[0] == s && Steps(run) && run[|run| - 1].client.phase == LETS_GO && OnTrack(run[|run| - 1])
    decreases |s.world.tiles| - s.client.progress
  {
    hide OnTrack, Step, Pending, Steps, PacketCount;
    var a, b, t := Round(s);
    CountSplit(|s.world.tiles| - s.client.progress);
    if t.client.phase == LETS_GO {
      run := [t];
      Alone(t);
    } else {
      run := InRounds(t);
    }
    run := ThreeMore(s, a, b, run);
  }

  lemma CountSplit(n: nat)
    ensures PacketCount(n) == if n <= MAX_PACKET_SIZE then 1 else 1 + PacketCount(n - MAX_PACKET_SIZE)
  {
  }

  lemma ThreeMore(s: System, a: System, b: System, run: seq<System>) returns (longer: seq<System>)
    requires run != [] && Steps(run) && Step(s, a) && Step(a, b) && Step(b, run[0])
    ensures |longer| == |run| + 3 && Steps(longer) && longer[0] == s && longer[|longer| - 1] == run[|run| - 1]
  {
    hide Step, Steps;
    Longer(b, run);
    Longer(a, [b] + run);
    Longer(s, [a] + ([b] + run));
    longer := [s] + ([a] + ([b] + run));
  }
}
