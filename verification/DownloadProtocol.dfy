/** The world download when messages arrive only at an empty receive buffer: what every run keeps, and exactly when the
    client ends with the server's map. */
module DownloadProtocol {
  import opened Wrappers
  import opened Bits
  import opened NetBuffer
  import opened WorldTransfer
  import opened DownloadSystem

  /** Any step, but a message is delivered only when the client has taken the one before it. */
  ghost predicate Step(s: System, s': System)
  {
    AnyStep(s, s') && (Deliver(s, s') ==> s.buffer == [])
  }

  ghost predicate Steps(run: seq<System>)
  {
    forall i :: 0 <= i < |run| - 1 ==> Step(run[i], run[i + 1])
  }

  ghost predicate Run(run: seq<System>)
  {
    run != [] && Init(run[0]) && Steps(run)
  }

  // ---- messages on their way ----

  function Pending(s: System): seq<Msg>
  {
    s.buffer + s.down
  }

  /** Notices and the end of the server; a server that runs has not sent the latter. */
  predicate Aside(m: Msg, running: bool)
  {
    && |m.data| <= MAX_PACKET_SIZE
    && (m.kind == NETMSG_SERVER_RPC || (m.kind == NETMSG_SERVER_SHUTDOWN && !running))
  }

  predicate AllAside(p: seq<Msg>, running: bool)
  {
    forall i :: 0 <= i < |p| ==> Aside(p[i], running)
  }

  /** The piece of the map that starts at a. */
  function Piece(tiles: seq<byte>, a: nat): seq<byte>
    requires a <= |tiles|
  {
    tiles[a..a + Least(|tiles| - a, MAX_PACKET_SIZE)]
  }

  /** How far a client gets with the message m that has the first a bytes. */
  function After(a: nat, m: Msg): nat
  {
    if m.kind == NETMSG_WORLD_DOWNLOAD_PACKET then a + |m.data| else a
  }

  /** The message goes on with the map at a, or has nothing to do with it. */
  predicate GoesOn(w: World, running: bool, a: nat, m: Msg)
  {
    if m.kind == NETMSG_WORLD_DOWNLOAD_PACKET then a < |w.tiles| && m.data == Piece(w.tiles, a)
    else Announces(w, m) || Aside(m, running)
  }

  /** The messages p carry the map from a to b, in pieces, among other messages. */
  predicate Carries(w: World, running: bool, a: nat, p: seq<Msg>, b: nat)
    decreases |p|
  {
    if p == [] then a == b else GoesOn(w, running, a, p[0]) && Carries(w, running, After(a, p[0]), p[1..], b)
  }

  /** Perhaps other messages, then the announcement, then the map up to b. */
  predicate Announced(w: World, running: bool, p: seq<Msg>, b: nat)
  {
    p != [] &&
    if Announces(w, p[0]) then Carries(w, running, 0, p[1..], b)
    else Aside(p[0], running) && Announced(w, running, p[1..], b)
  }

  /** The bytes of the world in a sequence of messages. */
  function ChunkData(p: seq<Msg>): seq<byte>
  {
    if p == [] then []
    else (if p[0].kind == NETMSG_WORLD_DOWNLOAD_PACKET then p[0].data else []) + ChunkData(p[1..])
  }

  /** Everything passes the checks of the receiving end. */
  predicate AllAccepted(p: seq<Msg>, running: bool)
  {
    forall i :: 0 <= i < |p| ==> Accepted(OnWire(p[i])) && (running ==> p[i].kind != NETMSG_SERVER_SHUTDOWN)
  }

  // ---- the invariant ----

  const WELCOME := Some(Peer(HELLO, 0))

  /** A whole number of packets, or everything. */
  predicate AtBoundary(w: World, a: nat)
  {
    a <= |w.tiles| && (a % MAX_PACKET_SIZE == 0 || a == |w.tiles|)
  }

  /** The server has announced the world, and sends it. */
  predicate Serving(w: World, peer: Option<Peer>)
  {
    && peer.Some? && AtBoundary(w, peer.value.progress)
    && peer.value.phase == (if peer.value.progress < |w.tiles| then DOWNLOADING_WORLD else LETS_GO)
  }

  /** The server has not handled the request yet, or it is serving; p are the messages on their way to a client that has
      the first a bytes. */
  predicate Between(s: System, a: nat, p: seq<Msg>)
  {
    || (s.peer == WELCOME && s.up == [REQUEST_MSG] && AllAside(p, s.running) && a == 0)
    || (s.up == [] && Serving(s.world, s.peer) && Carries(s.world, s.running, a, p, s.peer.value.progress))
  }

  /** What holds in each phase of a client that listens when the messages p are still to come. */
  ghost predicate PhaseInv(s: System, p: seq<Msg>)
  {
    var c := s.client;
    match c.phase
    case HELLO => s.peer == None && s.up == [] && p == []
    case HELLO_SENT =>
      || (s.peer == None && p == [] && (s.up == [] || s.up == [HELLO_MSG]))
      || (s.peer == None && s.up == [] && |p| == 1 && Refusal(p[0]))
      || (s.peer == WELCOME && s.up == [] && p != [] && p[0] == ACCEPT_MSG && AllAside(p[1..], s.running))
    case DOWNLOAD_WORLD => s.peer == WELCOME && s.up == [] && AllAside(p, s.running)
    case DOWNLOAD_WORLD_SENT =>
      || (s.peer == WELCOME && s.up == [REQUEST_MSG] && AllAside(p, s.running))
      || (s.up == [] && Serving(s.world, s.peer) && Announced(s.world, s.running, p, s.peer.value.progress))
    case DOWNLOADING_WORLD =>
      && Between(s, c.progress, p) && AtBoundary(s.world, c.progress)
      && c.progress <= |c.world.tiles| && c.world.tiles[..c.progress] == s.world.tiles[..c.progress]
      && (Bytes(c.world.x, c.world.y) <= c.progress ==> Bytes(c.world.x, c.world.y) == 0)
    case LETS_GO => AllAccepted(p, s.running)
  }

  /** What makes a chunk run past the end of the client's map: a size that has been misread, with no packet boundary of
      the server's map where the client's map ends. */
  predicate SizeOverruns(w: World, m: Msg)
  {
    var n := Bytes(SizeIn(m).0, SizeIn(m).1);
    n < |w.tiles| && (n % MAX_PACKET_SIZE != 0 || n == 0)
  }

  ghost predicate Inv(s: System)
  {
    && Complete(s.world) && |s.buffer| <= 1 && Law(s)
    && (s.wild ==> s.taken.Some? && SizeOverruns(s.world, s.taken.value))
    && (!s.wild && Listening(s.client) ==> PhaseInv(s, Pending(s)))
    && (!s.wild && s.client.phase == LETS_GO ==> GoodEnd(s.world, s.client))
  }

  /** The client that has let go has a part of the server's map, up to a packet boundary. */
  predicate GoodEnd(w: World, c: ClientView)
  {
    && 0 < |c.world.tiles| == Bytes(c.world.x, c.world.y) && AtBoundary(w, |c.world.tiles|)
    && c.world.tiles == w.tiles[..|c.world.tiles|]
  }

  // ---- the messages ----

  lemma {:induction false} CarriesWithin(w: World, running: bool, a: nat, p: seq<Msg>, b: nat)
    requires Carries(w, running, a, p, b) && AtBoundary(w, a)
    ensures a <= b <= |w.tiles| && AtBoundary(w, b) && ChunkData(p) == w.tiles[a..b]
    decreases |p|
  {
    if p != [] {
      var a1 := After(a, p[0]);
      OneCarried(w, running, a, p[0]);
      hide AtBoundary, GoesOn, After, Piece, SizeIn, Aside;
      CarriesWithin(w, running, a1, p[1..], b);
      SlicesJoin(w.tiles, a, a1, b);
    }
  }

  lemma OneCarried(w: World, running: bool, a: nat, m: Msg)
    requires GoesOn(w, running, a, m) && AtBoundary(w, a)
    ensures var a1 := After(a, m);
      && a <= a1 && AtBoundary(w, a1)
      && (if m.kind == NETMSG_WORLD_DOWNLOAD_PACKET then m.data else []) == w.tiles[a..a1]
  {
  }

  lemma SlicesJoin(t: seq<byte>, a: nat, b: nat, c: nat)
    requires a <= b <= c <= |t|
    ensures t[a..c] == t[a..b] + t[b..c]
  {
  }

  lemma {:induction false} CarriesMore(w: World, running: bool, a: nat, p: seq<Msg>, b: nat, m: Msg, b': nat)
    requires Carries(w, running, a, p, b) && Carries(w, running, b, [m], b')
    ensures Carries(w, running, a, p + [m], b')
    decreases |p|
  {
    if p == [] {
      assert p + [m] == [m];
    } else {
      assert (p + [m])[1..] == p[1..] + [m];
      CarriesMore(w, running, After(a, p[0]), p[1..], b, m, b');
    }
  }

  lemma {:induction false} AnnouncedMore(w: World, running: bool, p: seq<Msg>, b: nat, m: Msg, b': nat)
    requires Announced(w, running, p, b) && Carries(w, running, b, [m], b')
    ensures Announced(w, running, p + [m], b')
  {
    assert (p + [m])[1..] == p[1..] + [m];
    if Announces(w, p[0]) {
      CarriesMore(w, running, 0, p[1..], b, m, b');
    } else {
      AnnouncedMore(w, running, p[1..], b, m, b');
    }
  }

  /** Messages that come before the announcement. */
  lemma {:induction false} AsideAnnounced(w: World, running: bool, p: seq<Msg>, m: Msg)
    requires AllAside(p, running) && Announces(w, m)
    ensures Announced(w, running, p + [m], 0) && Carries(w, running, 0, p + [m], 0)
  {
    hide SizeIn;
    if p == [] {
      assert p + [m] == [m];
    } else {
      assert (p + [m])[1..] == p[1..] + [m];
      AsideAnnounced(w, running, p[1..], m);
    }
  }

  lemma {:induction false} CarriesStopped(w: World, a: nat, p: seq<Msg>, b: nat)
    requires Carries(w, true, a, p, b)
    ensures Carries(w, false, a, p, b)
    decreases |p|
  {
    if p != [] {
      CarriesStopped(w, After(a, p[0]), p[1..], b);
    }
  }

  lemma {:induction false} AnnouncedStopped(w: World, p: seq<Msg>, b: nat)
    requires Announced(w, true, p, b)
    ensures Announced(w, false, p, b)
  {
    if Announces(w, p[0]) {
      CarriesStopped(w, 0, p[1..], b);
    } else {
      AnnouncedStopped(w, p[1..], b);
    }
  }

  lemma {:induction false} CarriesAccepted(w: World, running: bool, a: nat, p: seq<Msg>, b: nat)
    requires Carries(w, running, a, p, b)
    ensures AllAccepted(p, running)
    decreases |p|
  {
    if p != [] {
      CarriesAccepted(w, running, After(a, p[0]), p[1..], b);
      HeadAccepted(p, running);
    }
  }

  lemma HeadAccepted(p: seq<Msg>, running: bool)
    requires p != [] && AllAccepted(p[1..], running)
    requires Accepted(OnWire(p[0])) && (running ==> p[0].kind != NETMSG_SERVER_SHUTDOWN)
    ensures AllAccepted(p, running)
  {
    forall i | 0 <= i < |p|
      ensures Accepted(OnWire(p[i])) && (running ==> p[i].kind != NETMSG_SERVER_SHUTDOWN)
    {
      assert i > 0 ==> p[i] == p[1..][i - 1];
    }
  }

  lemma {:induction false} AnnouncedAccepted(w: World, running: bool, p: seq<Msg>, b: nat)
    requires Announced(w, running, p, b)
    ensures AllAccepted(p, running)
  {
    if Announces(w, p[0]) {
      CarriesAccepted(w, running, 0, p[1..], b);
    } else {
      AnnouncedAccepted(w, running, p[1..], b);
    }
    HeadAccepted(p, running);
  }

  /** Every message that is on its way passes the checks of the receiving end. */
  lemma PendingAccepted(s: System, p: seq<Msg>)
    requires PhaseInv(s, p)
    ensures AllAccepted(p, s.running)
  {
    hide Carries, Announced, SizeIn;
    match s.client.phase
    case HELLO_SENT =>
      if p != [] {
        HeadAccepted(p, s.running);
      }
    case DOWNLOAD_WORLD_SENT =>
      if s.up == [] {
        AnnouncedAccepted(s.world, s.running, p, s.peer.value.progress);
      }
    case DOWNLOADING_WORLD =>
      if s.up == [] {
        CarriesAccepted(s.world, s.running, s.client.progress, p, s.peer.value.progress);
      }
    case _ =>
  }

  // ---- the steps of the link and the server ----

  /** PhaseInv looks only at these parts of the state. */
  lemma PhaseInvFrame(s: System, s': System, p: seq<Msg>)
    requires PhaseInv(s, p) && s'.world == s.world && s'.running == s.running && s'.peer == s.peer
    requires s'.client == s.client && s'.up == s.up
    ensures PhaseInv(s', p)
  {
  }

  lemma SameLaw(s: System, s': System)
    requires Law(s) && s'.client == s.client && s'.taken == s.taken && s'.got == s.got && s'.wild == s.wild
    ensures Law(s')
  {
  }

  lemma DeliverInv(s: System, s': System)
    requires Inv(s) && s.buffer == [] && Deliver(s, s')
    ensures Inv(s')
  {
    hide PhaseInv, Accepted, Complete, Assembled;
    var m := s.down[0];
    assert Push([], m) == [m];
    SameLaw(s, s');
    if !s.wild && Listening(s.client) {
      assert Pending(s) == s.down;
      PendingAccepted(s, s.down);
      assert [m] + s.down[1..] == s.down;
      PhaseInvFrame(s, s', s.down);
    }
  }

  lemma AsideMore(p: seq<Msg>, running: bool, m: Msg)
    requires AllAside(p, running) && Aside(m, running)
    ensures AllAside(p + [m], running)
  {
  }

  lemma AcceptedMore(p: seq<Msg>, running: bool, m: Msg)
    requires AllAccepted(p, running) && Accepted(OnWire(m)) && (running ==> m.kind != NETMSG_SERVER_SHUTDOWN)
    ensures AllAccepted(p + [m], running)
  {
  }

  /** The server sends something that has nothing to do with the map. */
  lemma AsideSent(s: System, s': System, p: seq<Msg>, m: Msg)
    requires PhaseInv(s, p) && s.peer.Some? && Aside(m, s.running) && s' == s.(down := s'.down)
    ensures PhaseInv(s', p + [m])
  {
    hide SizeIn;
    match s.client.phase
    case HELLO_SENT =>
      assert (p + [m])[1..] == p[1..] + [m];
      AsideMore(p[1..], s.running, m);
    case DOWNLOAD_WORLD => AsideMore(p, s.running, m);
    case DOWNLOAD_WORLD_SENT =>
      if s.up == [] {
        CarriesAside(s.world, s.running, s.peer.value.progress, m);
        AnnouncedMore(s.world, s.running, p, s.peer.value.progress, m, s.peer.value.progress);
      } else {
        AsideMore(p, s.running, m);
      }
    case DOWNLOADING_WORLD =>
      if s.up == [] {
        CarriesAside(s.world, s.running, s.peer.value.progress, m);
        CarriesMore(s.world, s.running, s.client.progress, p, s.peer.value.progress, m, s.peer.value.progress);
      } else {
        AsideMore(p, s.running, m);
      }
    case LETS_GO => AcceptedMore(p, s.running, m);
  }

  lemma CarriesAside(w: World, running: bool, b: nat, m: Msg)
    requires Aside(m, running) || Announces(w, m)
    ensures Carries(w, running, b, [m], b)
  {
  }

  lemma NotifyInv(s: System, s': System)
    requires Inv(s) && Notify(s, s')
    ensures Inv(s')
  {
    hide PhaseInv, Assembled, Complete;
    var m := s'.down[|s'.down| - 1];
    SameLaw(s, s');
    if !s.wild && Listening(s.client) {
      assert Pending(s') == Pending(s) + [m];
      AsideSent(s, s', Pending(s), m);
    }
  }

  /** What holds while the server runs also holds when it has stopped. */
  lemma StoppedInv(s: System, s': System, p: seq<Msg>)
    requires PhaseInv(s, p) && s.running && s' == s.(running := false, down := s'.down)
    ensures PhaseInv(s', p)
  {
    hide SizeIn;
    match s.client.phase
    case DOWNLOAD_WORLD_SENT =>
      if s.up == [] {
        AnnouncedStopped(s.world, p, s.peer.value.progress);
      }
    case DOWNLOADING_WORLD =>
      if s.up == [] {
        CarriesStopped(s.world, s.client.progress, p, s.peer.value.progress);
      }
    case _ =>
  }

  lemma ShutDownInv(s: System, s': System)
    requires Inv(s) && ShutDown(s, s')
    ensures Inv(s')
  {
    hide PhaseInv, Assembled, Complete;
    SameLaw(s, s');
    if !s.wild && Listening(s.client) {
      var t := s.(running := false);
      StoppedInv(s, t, Pending(s));
      if s.peer.Some? {
        assert Pending(s') == Pending(s) + [SHUTDOWN_MSG];
        AsideSent(t, s', Pending(s), SHUTDOWN_MSG);
      } else {
        assert Pending(s') == Pending(s);
      }
    }
  }

  lemma NextPiece(w: World, peer: Option<Peer>, running: bool)
    requires Serving(w, peer) && peer.value.progress < |w.tiles|
    ensures var b := peer.value.progress;
      var m, next := Msg(NETMSG_WORLD_DOWNLOAD_PACKET, NextChunk(w.tiles, peer.value)), AfterChunk(w.tiles, peer.value);
      Carries(w, running, b, [m], next.progress) && Serving(w, Some(next))
  {
  }

  lemma DownloadsInv(s: System)
    requires Inv(s)
    ensures Inv(Downloads(s))
  {
    hide PhaseInv, Assembled, Complete, NextChunk, AfterChunk;
    var s' := Downloads(s);
    SameLaw(s, s');
    if s' != s && !s.wild && Listening(s.client) {
      var m := Msg(NETMSG_WORLD_DOWNLOAD_PACKET, NextChunk(s.world.tiles, s.peer.value));
      assert Pending(s') == Pending(s) + [m];
      ChunkSent(s, s', Pending(s), m);
    }
  }

  lemma ChunkSent(s: System, s': System, p: seq<Msg>, m: Msg)
    requires PhaseInv(s, p) && s' == Downloads(s) && s' != s
    requires m == Msg(NETMSG_WORLD_DOWNLOAD_PACKET, NextChunk(s.world.tiles, s.peer.value))
    ensures PhaseInv(s', p + [m])
  {
    hide SizeIn;
    match s.client.phase
    case DOWNLOAD_WORLD_SENT =>
      NextPiece(s.world, s.peer, s.running);
      AnnouncedMore(s.world, s.running, p, s.peer.value.progress, m, s'.peer.value.progress);
    case DOWNLOADING_WORLD =>
      NextPiece(s.world, s.peer, s.running);
      CarriesMore(s.world, s.running, s.client.progress, p, s.peer.value.progress, m, s'.peer.value.progress);
    case LETS_GO => AcceptedMore(p, s.running, m);
    case _ =>
  }

  /** The server takes a message from the client and answers with m, or not at all. */
  lemma HandlesInv(s: System, s': System)
    requires Inv(s) && s.running && s.up != [] && Handles(s, s')
    ensures Inv(s')
  {
    hide PhaseInv, Assembled, Complete;
    SameLaw(s, s');
    if !s.wild && Listening(s.client) {
      var p := Pending(s);
      if s'.down == s.down {
        Unanswered(s, s', p);
      } else {
        var m := s'.down[|s'.down| - 1];
        assert Pending(s') == p + [m];
        Answered(s, s', p, m);
      }
    }
  }

  lemma Unanswered(s: System, s': System, p: seq<Msg>)
    requires PhaseInv(s, p) && s.up != [] && Handles(s, s') && s'.down == s.down
    ensures PhaseInv(s', p)
  {
    hide SizeIn, Carries, Announced;
    assert |s.down + [ACCEPT_MSG]| != |s.down| && |s.down + [Header(s.world, s.name)]| != |s.down|;
  }

  lemma Answered(s: System, s': System, p: seq<Msg>, m: Msg)
    requires Complete(s.world) && PhaseInv(s, p) && s.running && s.up != [] && Handles(s, s')
    requires s'.down == s.down + [m] != s.down
    ensures PhaseInv(s', p + [m])
  {
    Answer(s, s', m);
    hide SizeIn, Carries, Announced;
    match s.client.phase
    case HELLO_SENT => assert p + [m] == [m] && [m][1..] == [];
    case DOWNLOAD_WORLD_SENT => AsideAnnounced(s.world, s.running, p, m);
    case DOWNLOADING_WORLD => AsideAnnounced(s.world, s.running, p, m);
    case LETS_GO => AcceptedMore(p, s.running, m);
    case _ =>
  }

  lemma Answer(s: System, s': System, m: Msg)
    requires Complete(s.world) && s.up != [] && Handles(s, s') && s'.down == s.down + [m]
    ensures Accepted(OnWire(m)) && m.kind != NETMSG_SERVER_SHUTDOWN
    ensures m == ACCEPT_MSG || Announces(s.world, m) || Refusal(m)
    ensures s.up[0] == HELLO_MSG ==> (m == ACCEPT_MSG && s'.peer == WELCOME) || (Refusal(m) && s'.peer == s.peer)
    ensures s.up[0] == REQUEST_MSG ==> Announces(s.world, m) && s.peer.Some?
                                       && s'.peer == Some(s.peer.value.(phase := DOWNLOADING_WORLD))
  {
    HeaderRoundTrip(s.world, s.name);
    hide SizeIn;
    var h := Header(s.world, s.name);
    assert (s.down + [m])[|s.down|] == m;
    assert (s.down + [ACCEPT_MSG])[|s.down|] == ACCEPT_MSG && (s.down + [h])[|s.down|] == h;
  }

  lemma ServerInv(s: System, s': System)
    requires Inv(s) && ServerStep(s, s')
    ensures Inv(s')
  {
    DownloadsInv(s);
    hide Inv, Handles;
    if s' != Downloads(s) {
      HandlesInv(Downloads(s), s');
    }
  }

  // ---- the client's step ----

  lemma {:induction false} FirstCarried(s: System, p: seq<Msg>)
    requires p != [] && Between(s, s.client.progress, p) && AtBoundary(s.world, s.client.progress)
    ensures var a := After(s.client.progress, p[0]);
      && Between(s, a, p[1..]) && AtBoundary(s.world, a) && a >= s.client.progress
      && (p[0].kind == NETMSG_WORLD_DOWNLOAD_PACKET ==>
          s.client.progress < |s.world.tiles| && p[0].data == Piece(s.world.tiles, s.client.progress))
  {
    hide SizeIn;
  }

  /** A downloading client takes a message, and there is room for it. */
  lemma DownloadingTakes(s: System, p: seq<Msg>, c': ClientView)
    requires Complete(s.world) && s.client.state == CONNECTING && s.client.phase == DOWNLOADING_WORLD
    requires Law(s) && !s.wild && PhaseInv(s, p) && p != [] && p[0].kind != NETMSG_SERVER_SHUTDOWN
    requires Connecting(s.client, Some(p[0]), c', []) && !Overruns(s.client, Some(p[0]))
    ensures c'.phase == DOWNLOADING_WORLD ==> PhaseInv(s.(client := c'), p[1..])
    ensures c'.phase == LETS_GO ==> GoodEnd(s.world, c') && PhaseInv(s.(client := c'), p[1..])
    ensures c'.state == CONNECTING && (c'.phase == DOWNLOADING_WORLD || c'.phase == LETS_GO)
  {
    hide Carries, SizeIn, Complete, Concat, Copied;
    FirstCarried(s, p);
    PendingAccepted(s, p);
    RestAccepted(p, s.running);
    var c := s.client;
    if p[0].kind == NETMSG_WORLD_DOWNLOAD_PACKET {
      PieceCopied(c.world.tiles, s.world.tiles, c.progress);
      NoMoreThan(c.world.x, c.world.y);
    }
  }

  lemma RestAccepted(p: seq<Msg>, running: bool)
    requires p != [] && AllAccepted(p, running)
    ensures AllAccepted(p[1..], running)
  {
  }

  lemma NoMoreThan(x: nat, y: nat)
    ensures x == 0 || y == 0 ==> Bytes(x, y) == 0
  {
  }

  lemma PieceCopied(tiles: seq<byte>, goal: seq<byte>, a: nat)
    requires a < |goal| && a <= |tiles| && tiles[..a] == goal[..a]
    ensures var piece := Piece(goal, a);
      0 < |piece| <= MAX_PACKET_SIZE && a + |piece| <= |goal|
      && (a + |piece| <= |tiles| ==>
          |Copied(tiles, a, piece)| == |tiles| && Copied(tiles, a, piece)[..a + |piece|] == goal[..a + |piece|])
  {
    assert goal[..a + |Piece(goal, a)|] == goal[..a] + Piece(goal, a);
  }

  /** A chunk that does not fit: the client's map ends between two packet boundaries. */
  lemma OverrunMeans(s: System, p: seq<Msg>)
    requires Complete(s.world) && Law(s) && !s.wild && PhaseInv(s, p) && p != [] && Overruns(s.client, Some(p[0]))
    ensures s.taken.Some? && SizeOverruns(s.world, s.taken.value)
  {
    hide Carries, SizeIn, Complete, Concat;
    FirstCarried(s, p);
    var c := s.client;
    PieceCopied(c.world.tiles, s.world.tiles, c.progress);
    NoMoreThan(c.world.x, c.world.y);
    var n := Bytes(c.world.x, c.world.y);
    if n > 0 {
      NotAtBoundary(c.progress, n);
    }
  }

  lemma NotAtBoundary(a: nat, n: nat)
    requires a % MAX_PACKET_SIZE == 0 && a < n < a + MAX_PACKET_SIZE
    ensures n % MAX_PACKET_SIZE != 0
  {
  }

  /** What is left of the messages when the client has taken one, or found none. */
  function Rest(p: seq<Msg>, msg: Option<Msg>): seq<Msg>
  {
    if msg.Some? && p != [] then p[1..] else p
  }

  /** The phases before the download: the client sends its messages, and takes the answers. */
  lemma EarlyTakes(s: System, p: seq<Msg>, msg: Option<Msg>, c': ClientView, sent: seq<Msg>)
    requires Complete(s.world) && s.client.state == CONNECTING && Law(s) && !s.wild && PhaseInv(s, p)
    requires s.client.phase != DOWNLOADING_WORLD && s.client.phase != LETS_GO
    requires msg.Some? ==> p != [] && p[0] == msg.value && msg.value.kind != NETMSG_SERVER_SHUTDOWN
    requires Connecting(s.client, msg, c', sent)
    ensures c'.state == CONNECTING || c'.state == UNCONNECTED
    ensures c'.phase != LETS_GO && (Listening(c') ==> PhaseInv(s.(client := c', up := s.up + sent), Rest(p, msg)))
  {
    hide SizeIn, Concat;
    match s.client.phase
    case HELLO_SENT =>
      if msg.Some? {
        assert p[0] == ACCEPT_MSG || Refusal(p[0]);
      }
    case DOWNLOAD_WORLD =>
      assert s.up + sent == [REQUEST_MSG];
      if msg.Some? {
        RestAside(p, s.running);
      }
    case DOWNLOAD_WORLD_SENT =>
      if msg.Some? {
        NoMoreThan(c'.world.x, c'.world.y);
        assert c'.world.tiles[..0] == s.world.tiles[..0];
        AnnouncementTaken(s, p);
      }
    case _ =>
  }

  lemma RestAside(p: seq<Msg>, running: bool)
    requires p != [] && AllAside(p, running)
    ensures AllAside(p[1..], running)
  {
  }

  /** Whatever is taken for the announcement, the whole map is still to come. */
  lemma AnnouncementTaken(s: System, p: seq<Msg>)
    requires s.client.phase == DOWNLOAD_WORLD_SENT && PhaseInv(s, p) && p != []
    ensures Between(s, 0, p[1..])
  {
    hide SizeIn;
    if s.up == [] {
      AnnouncedCarries(s.world, s.running, p, s.peer.value.progress);
    } else {
      RestAside(p, s.running);
    }
  }

  lemma {:induction false} AnnouncedCarries(w: World, running: bool, p: seq<Msg>, b: nat)
    requires Announced(w, running, p, b)
    ensures Carries(w, running, 0, p[1..], b) && Carries(w, running, 0, p, b)
  {
    hide SizeIn;
    if !Announces(w, p[0]) {
      AnnouncedCarries(w, running, p[1..], b);
    }
  }

  lemma ClientInv(s: System, s': System)
    requires Inv(s) && ClientStep(s, s')
    ensures Inv(s')
  {
    hide Law, PhaseInv, Complete, GoodEnd, ClientStep, ClientTick, SizeOverruns, Newest, Pending, Rest, Overruns;
    ClientLaw(s, s');
    StepKeepsRest(s, s');
    if !s.wild && Listening(s.client) {
      var msg, p, sent := Newest(s), Pending(s), s'.up[|s.up|..];
      TickFacts(s, s');
      if s'.wild {
        OverrunMeans(s, p);
      } else if s'.client.state != DISCONNECTED {
        TickInv(s, p, msg, s', sent);
      } else {
        Disconnects(s, s', msg, sent, p);
        SameEnd(s.world, s.client, s'.client);
      }
    }
  }

  lemma SameEnd(w: World, c: ClientView, c': ClientView)
    requires c'.world == c.world
    ensures GoodEnd(w, c') == GoodEnd(w, c)
  {
  }

  /** What the client's tick leaves alone. */
  lemma StepKeepsRest(s: System, s': System)
    requires ClientStep(s, s') && |s.buffer| <= 1
    ensures s'.world == s.world && s'.running == s.running && s'.peer == s.peer && |s'.buffer| <= 1 && s.up <= s'.up
    ensures !Listening(s.client) ==> s'.buffer == s.buffer && s'.up == s.up
    ensures s.wild ==> s'.wild && s'.taken == s.taken
    ensures !Listening(s.client) ==> s'.client == s.client && s'.wild == s.wild
  {
    hide Connecting, Law;
  }

  lemma TickFacts(s: System, s': System)
    requires ClientStep(s, s') && |s.buffer| <= 1 && !s.wild && Listening(s.client)
    ensures var msg, p, sent := Newest(s), Pending(s), s'.up[|s.up|..];
      && s'.up == s.up + sent && Pending(s') == Rest(p, msg) && ClientTick(s.client, msg, s'.client, sent)
      && (msg.Some? ==> p != [] && p[0] == msg.value) && (s'.wild <==> Overruns(s.client, msg))
      && (s'.wild ==> p != [] && Overruns(s.client, Some(p[0])) && s'.taken == s.taken)
  {
    hide Connecting, FitsWorld;
  }

  lemma Disconnects(s: System, s': System, msg: Option<Msg>, sent: seq<Msg>, p: seq<Msg>)
    requires Listening(s.client) && ClientTick(s.client, msg, s'.client, sent) && s'.client.state == DISCONNECTED
    requires msg == Newest(s) && !Overruns(s.client, msg)
    ensures s'.client == s.client.(state := DISCONNECTED)
  {
    hide Copied, SizeIn;
  }

  lemma TickInv(s: System, p: seq<Msg>, msg: Option<Msg>, s': System, sent: seq<Msg>)
    requires Complete(s.world) && Law(s) && !s.wild && PhaseInv(s, p) && Listening(s.client)
    requires s.client.phase == LETS_GO ==> GoodEnd(s.world, s.client)
    requires msg.Some? ==> p != [] && p[0] == msg.value
    requires ClientTick(s.client, msg, s'.client, sent) && s'.client.state != DISCONNECTED && !Overruns(s.client, msg)
    requires s'.world == s.world && s'.running == s.running && s'.peer == s.peer && s'.up == s.up + sent
    ensures Listening(s'.client) ==> PhaseInv(s', Rest(p, msg))
    ensures s'.client.phase == LETS_GO ==> GoodEnd(s.world, s'.client)
  {
    hide Law, PhaseInv, Complete, GoodEnd;
    var t := s.(client := s'.client, up := s'.up);
    if s.client.state == CONNECTING && s.client.phase == DOWNLOADING_WORLD {
      assert sent == [] && s'.up == s.up;
      if msg.Some? {
        DownloadingTakes(s, p, s'.client);
      } else {
        assert s'.client == s.client && t == s;
      }
    } else if s.client.state == CONNECTING && s.client.phase != LETS_GO {
      EarlyTakes(s, p, msg, s'.client, sent);
    } else {
      LateTakes(s, p, msg, s', sent);
    }
    if Listening(s'.client) {
      PhaseInvFrame(t, s', Rest(p, msg));
    }
  }

  /** A client that has let go, or is connected, takes messages and does nothing with them. */
  lemma LateTakes(s: System, p: seq<Msg>, msg: Option<Msg>, s': System, sent: seq<Msg>)
    requires Law(s) && !s.wild && PhaseInv(s, p) && Listening(s.client)
    requires s.client.phase == LETS_GO || s.client.state == CONNECTED
    requires s.client.phase == LETS_GO ==> GoodEnd(s.world, s.client)
    requires msg.Some? ==> p != [] && p[0] == msg.value
    requires ClientTick(s.client, msg, s'.client, sent) && s'.client.state != DISCONNECTED
    ensures PhaseInv(s.(client := s'.client, up := s.up + sent), Rest(p, msg)) && GoodEnd(s.world, s'.client)
  {
    if p != [] {
      RestAccepted(p, s.running);
    }
  }

  // ---- runs ----

  lemma StepInv(s: System, s': System)
    requires Inv(s) && Step(s, s')
    ensures Inv(s')
  {
    hide Inv, ClientStep, Deliver, ServerStep, Notify, ShutDown;
    if ClientStep(s, s') {
      ClientInv(s, s');
    } else if Deliver(s, s') {
      DeliverInv(s, s');
    } else if ServerStep(s, s') {
      ServerInv(s, s');
    } else if Notify(s, s') {
      NotifyInv(s, s');
    } else {
      ShutDownInv(s, s');
    }
  }

  lemma InitInv(s: System)
    requires Init(s)
    ensures Inv(s)
  {
    NothingTaken();
  }

  lemma {:induction false} RunInv(run: seq<System>, k: nat)
    requires Run(run) && k < |run|
    ensures Inv(run[k]) && run[k].world == run[0].world
    decreases k
  {
    hide Inv, Init, Law;
    if k == 0 {
      InitInv(run[0]);
    } else {
      hide AnyStep;
      RunInv(run, k - 1);
      StepInv(run[k - 1], run[k]);
      WorldStays(run[k - 1], run[k]);
    }
  }

  lemma WorldStays(s: System, s': System)
    requires AnyStep(s, s')
    ensures s'.world == s.world
  {
  }

  /** In every reachable state of a download, whatever notices the server sends and whatever size the client has read:
      the client has an initial part of the server's map, and its progress and the bytes on their way add up to the
      server's progress, which never exceeds the size of the world. */
  lemma Conservation(run: seq<System>, k: nat)
    requires Run(run) && k < |run| && !run[k].wild
    requires run[k].client.state == CONNECTING && run[k].client.phase == DOWNLOADING_WORLD
    ensures var s := run[k];
      && s.peer.Some? && s.client.progress + |ChunkData(Pending(s))| == s.peer.value.progress <= |s.world.tiles|
      && s.client.progress <= |s.client.world.tiles|
      && s.client.world.tiles[..s.client.progress] == s.world.tiles[..s.client.progress]
  {
    RunInv(run, k);
    var s := run[k];
    hide Law, Complete;
    if s.up == [] {
      CarriesWithin(s.world, s.running, s.client.progress, Pending(s), s.peer.value.progress);
    } else {
      AsideHasNoData(Pending(s), s.running);
    }
  }

  lemma {:induction false} AsideHasNoData(p: seq<Msg>, running: bool)
    requires AllAside(p, running)
    ensures ChunkData(p) == []
  {
    if p != [] {
      RestAside(p, running);
      AsideHasNoData(p[1..], running);
    }
  }

  /** When the client lets go, its map is the server's map exactly if the message it took for the announcement holds the
      size of the world.  In any case its map is a part of the server's map, up to a packet boundary. */
  lemma EqualMapsIffSizeRead(run: seq<System>, k: nat)
    requires Run(run) && k < |run| && !run[k].wild
    requires run[k].client.phase == LETS_GO || run[k].client.state == CONNECTED
    ensures var s, w := run[k], run[0].world;
      && s.taken.Some?
      && (s.client.world == w <==> SizeIn(s.taken.value) == (w.x, w.y))
      && var n := Bytes(SizeIn(s.taken.value).0, SizeIn(s.taken.value).1);
         0 < n && AtBoundary(w, n) && s.client.world.tiles == w.tiles[..n]
  {
    RunInv(run, k);
    var s := run[k];
    hide SizeIn, Concat;
    assert s.world.tiles[..|s.world.tiles|] == s.world.tiles;
  }

  /** A chunk runs past the end of the client's map only if the size was misread, and the misread map ends between two
      packet boundaries of the server's map, or nowhere. */
  lemma OverrunOnlyIfSizeMisread(run: seq<System>, k: nat)
    requires Run(run) && k < |run| && run[k].wild
    ensures run[k].taken.Some? && SizeOverruns(run[0].world, run[k].taken.value)
    ensures SizeIn(run[k].taken.value) != (run[0].world.x, run[0].world.y)
  {
    RunInv(run, k);
    hide SizeIn, Law;
  }
}
