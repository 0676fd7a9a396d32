/** Runs of the world download from its beginning: one that ends well for every world, one in which a notice is taken
    for the announcement, and one in which two chunks wait in the receive buffer. */
module DownloadExamples {
  import opened Wrappers
  import opened Bits
  import opened NetBuffer
  import opened WorldTransfer
  import opened DownloadSystem
  import opened DownloadProtocol
  import opened DownloadRuns

  lemma StepsAreAnySteps(run: seq<System>)
    requires Steps(run)
    ensures AnySteps(run)
  {
    hide AnyStep;
  }

  lemma Joined(run: seq<System>, more: seq<System>)
    requires run != [] && more != [] && Steps(run) && Steps(more) && run[|run| - 1] == more[0]
    ensures Steps(run[..|run| - 1] + more)
  {
    hide Step;
    var n := |run| - 1;
    var all := run[..n] + more;
    forall i | 0 <= i < |all| - 1
      ensures Step(all[i], all[i + 1])
    {
      if i >= n {
        assert all[i] == more[i - n] && all[i + 1] == more[i - n + 1];
      } else {
        assert all[i] == run[i] && all[i + 1] == run[i + 1];
      }
    }
  }

  // ---- the greeting ----

  lemma SaysHello(s: System) returns (t: System)
    requires Init(s)
    ensures Step(s, t) && t == s.(client := s.client.(phase := HELLO_SENT), up := [HELLO_MSG])
  {
    hide Complete;
    var c := s.client.(phase := HELLO_SENT);
    t := Ticked(s, c, [HELLO_MSG]);
    TickIsStep(s, c, [HELLO_MSG]);
    assert [] + [HELLO_MSG] == [HELLO_MSG];
  }

  lemma IsAdmitted(s: System, t: System)
    requires s.running && s.peer == None && s.up == [HELLO_MSG] && s.down == [] && s.buffer == []
    requires t == s.(peer := WELCOME, up := [], down := [ACCEPT_MSG])
    ensures Step(s, t)
  {
    assert s.up[1..] == [] && [] + [ACCEPT_MSG] == [ACCEPT_MSG];
    assert ServerStep(s, t);
    ServerIsStep(s, t);
  }

  /** The client says hello and is let in. */
  lemma Admitted(s: System) returns (run: seq<System>)
    requires Init(s)
    ensures |run| == 3 && run[0] == s && Steps(run) && Run(run) && OnTrack(run[2])
    ensures run[2] == s.(peer := WELCOME, down := [ACCEPT_MSG], client := s.client.(phase := HELLO_SENT))
  {
    var a := SaysHello(s);
    var b := a.(peer := WELCOME, up := [], down := [ACCEPT_MSG]);
    IsAdmitted(a, b);
    InitInv(s);
    StepInv(s, a);
    StepInv(a, b);
    hide Step, Init, Inv;
    run := [s, a, b];
    assert OnTrack(b) by {
      OnTrackAfterHello(b);
    }
  }

  lemma OnTrackAfterHello(b: System)
    requires Inv(b) && b.running && b.peer == WELCOME && !b.wild && b.down == [ACCEPT_MSG] && b.buffer == []
    requires b.client.state == CONNECTING && b.client.phase == HELLO_SENT
    ensures OnTrack(b)
  {
    hide Inv;
  }

  /** For every world some run takes the client from its hello to the state CONNECTED, with the server's map. */
  lemma EveryWorldCanBeDownloaded(s: System) returns (run: seq<System>)
    requires Init(s)
    ensures Run(run) && run[0] == s
    ensures var t := run[|run| - 1]; t.client.state == CONNECTED && t.client.world == s.world
  {
    var first := Admitted(s);
    var second := CanComplete(first[2]);
    hide Steps, Init, OnTrack, Step;
    Joined(first, second);
    run := first[..2] + second;
  }

  // ---- a notice in the place of the announcement ----

  predicate IsNotice(m: Msg)
  {
    m.kind == NETMSG_SERVER_RPC && |m.data| <= MAX_PACKET_SIZE
  }

  /** From the greeting to a client that waits for the announcement. */
  lemma Waits(s: System) returns (run: seq<System>)
    requires Init(s)
    ensures run != [] && run[0] == s && Run(run)
    ensures run[|run| - 1] ==
            s.(peer := WELCOME, up := [REQUEST_MSG], client := s.client.(phase := DOWNLOAD_WORLD_SENT),
               reply := Some(ACCEPT_MSG))
  {
    var first := Admitted(s);
    var a := first[2];
    var b := Arrives(a);
    hide OnTrack, Inv, Complete;
    var c := TakesAccept(b);
    var d := Requests(c);
    var second := [a, b, c, d];
    hide Step, Init;
    assert Steps(second);
    Joined(first, second);
    run := first[..2] + second;
  }

  lemma TakesAccept(b: System) returns (c: System)
    requires !b.wild && b.buffer == [ACCEPT_MSG] && b.up == [] && b.client.state == CONNECTING
    requires b.client.phase == HELLO_SENT
    ensures Step(b, c) && c == b.(client := b.client.(phase := DOWNLOAD_WORLD), buffer := [], reply := Some(ACCEPT_MSG))
  {
    c := Ticked(b, b.client.(phase := DOWNLOAD_WORLD), []);
    TickIsStep(b, b.client.(phase := DOWNLOAD_WORLD), []);
    assert b.up + [] == b.up;
  }

  lemma Requests(c: System) returns (d: System)
    requires !c.wild && c.buffer == [] && c.up == [] && c.client.state == CONNECTING && c.client.phase == DOWNLOAD_WORLD
    ensures Step(c, d) && d == c.(client := c.client.(phase := DOWNLOAD_WORLD_SENT), up := [REQUEST_MSG])
  {
    d := Ticked(c, c.client.(phase := DOWNLOAD_WORLD_SENT), [REQUEST_MSG]);
    TickIsStep(c, c.client.(phase := DOWNLOAD_WORLD_SENT), [REQUEST_MSG]);
    assert [] + [REQUEST_MSG] == [REQUEST_MSG];
  }

  lemma IsNotified(s: System, t: System, n: Msg)
    requires IsNotice(n) && s.running && s.peer.Some? && s.down == [] && s.buffer == [] && t == s.(down := [n])
    ensures Step(s, t)
  {
    assert t.down[|t.down| - 1] == n && s.down + [n] == [n];
    assert Notify(s, t);
  }

  lemma NoticeArrives(s: System, t: System, n: Msg)
    requires IsNotice(n) && s.down == [n] && s.buffer == [] && t == s.(down := [], buffer := [n])
    ensures Step(s, t)
  {
    assert Push([], n) == [n];
    assert Deliver(s, t);
  }

  /** A map of that size, as WorldGenerator::Init makes it of an empty one. */
  function Blank(size: (nat, nat)): World
  {
    World(size.0, size.1, if size.0 == 0 || size.1 == 0 then [] else seq(Bytes(size.0, size.1), _ => 0))
  }

  lemma TakesNotice(s: System, t: System, n: Msg)
    requires IsNotice(n) && !s.wild && s.buffer == [n]
    requires s.client == ClientView(CONNECTING, DOWNLOAD_WORLD_SENT, 0, World(0, 0, []))
    requires t
      == s.(client := s.client.(phase := DOWNLOADING_WORLD, world := Blank(SizeIn(n))), buffer := [], taken := Some(n))
    ensures Step(s, t)
  {
    hide SizeIn, Complete;
    var c := s.client.(phase := DOWNLOADING_WORLD, world := Blank(SizeIn(n)));
    assert Newest(s) == Some(n);
    TickIsStep(s, c, []);
    assert s.up + [] == s.up;
    assert t == Ticked(s, c, []);
  }

  /** For every world and every notice there is a run, with messages delivered only to an empty buffer, in which the
      notice reaches the client before the announcement, and the client starts to download a map of the size that it
      reads from the notice. */
  lemma NoticeTakenForAnnouncement(s: System, n: Msg) returns (run: seq<System>)
    requires Init(s) && IsNotice(n)
    ensures Run(run) && run[0] == s
    ensures var t := run[|run| - 1];
      && t.client.phase == DOWNLOADING_WORLD && t.taken == Some(n) && !t.wild
      && (t.client.world.x, t.client.world.y) == SizeIn(n)
  {
    hide Step, Steps, Init, SizeIn;
    var first := Waits(s);
    var a := first[|first| - 1];
    EmptyAtFirst(s);
    var b := a.(down := [n]);
    var c := b.(down := [], buffer := [n]);
    var d := c.(client := c.client.(phase := DOWNLOADING_WORLD, world := Blank(SizeIn(n))), buffer := [],
                taken := Some(n));
    IsNotified(a, b, n);
    NoticeArrives(b, c, n);
    TakesNotice(c, d, n);
    Alone(d);
    Longer(c, [d]);
    Longer(b, [c] + [d]);
    Longer(a, [b] + ([c] + [d]));
    var second := [a] + ([b] + ([c] + [d]));
    Joined(first, second);
    run := first[..|first| - 1] + second;
    assert run[0] == s by {
      assert |first| == 1 ==> a == s;
    }
  }

  /** A notice without data has the size 0, which is not the size of the server's map. */
  lemma NoticeWithoutSize(s: System)
    requires Init(s)
    ensures var n := Msg(NETMSG_SERVER_RPC, []); IsNotice(n) && SizeIn(n) == (0, 0) != (s.world.x, s.world.y)
  {
  }

  lemma EmptyAtFirst(s: System)
    requires Init(s)
    ensures s.running && s.down == [] && s.buffer == [] && !s.wild
    ensures s.client == ClientView(CONNECTING, HELLO, 0, World(0, 0, []))
  {
  }

  lemma TakenStays(s: System, s': System)
    requires Law(s) && AnyStep(s, s') && s.taken.Some?
    ensures s'.taken == s.taken
  {
    hide ClientTick;
  }

  lemma {:induction false} TakenForGood(run: seq<System>, j: nat, k: nat)
    requires Run(run) && j <= k < |run| && run[j].taken.Some?
    ensures run[k].taken == run[j].taken
    decreases k
  {
    hide Inv, AnyStep, Init, Law;
    if j < k {
      TakenForGood(run, j, k - 1);
      RunInv(run, k - 1);
      assert Law(run[k - 1]) by {
        LawOf(run[k - 1]);
      }
      TakenStays(run[k - 1], run[k]);
    }
  }

  lemma LawOf(s: System)
    requires Inv(s)
    ensures Law(s)
  {
  }

  /** Once the wrong size has been read, no continuation ends with the server's map. */
  lemma WrongForGood(run: seq<System>, j: nat, k: nat)
    requires Run(run) && j <= k < |run| && run[j].taken.Some?
    requires SizeIn(run[j].taken.value) != (run[0].world.x, run[0].world.y)
    requires !run[k].wild && (run[k].client.phase == LETS_GO || run[k].client.state == CONNECTED)
    ensures run[k].client.world != run[0].world
  {
    hide SizeIn, Init, Steps;
    TakenForGood(run, j, k);
    EqualMapsIffSizeRead(run, k);
  }

  // ---- chunks that wait together ----

  /** The announcement is sent and taken. */
  lemma Announce(a: System) returns (run: seq<System>)
    requires Complete(a.world) && a.running && !a.wild && a.peer == WELCOME && a.up == [REQUEST_MSG]
    requires a.down == [] && a.buffer == [] && a.taken == None && a.got == []
    requires a.client == ClientView(CONNECTING, DOWNLOAD_WORLD_SENT, 0, World(0, 0, [])) && Inv(a)
    ensures run != [] && run[0] == a && Steps(run)
    ensures var t := run[|run| - 1];
      && t == a.(peer := Some(Peer(DOWNLOADING_WORLD, 0)), up := [], client := t.client,
                 taken := Some(Header(a.world, a.name)))
      && t.client == ClientView(CONNECTING, DOWNLOADING_WORLD, 0, World(a.world.x, a.world.y, t.client.world.tiles))
      && |t.client.world.tiles| == |a.world.tiles|
  {
    hide PhaseInv, Law, Accepted;
    var b := a.(peer := Some(Peer(DOWNLOADING_WORLD, 0)), up := [], down := [Header(a.world, a.name)]);
    AnnouncementSent(a, b);
    StepInv(a, b);
    hide Inv;
    var c := Arrives(b);
    var d := AnnouncementRead(c);
    run := [a, b, c, d];
    hide Step;
    assert Steps(run);
  }

  lemma AnnouncementSent(a: System, b: System)
    requires a.running && a.peer == WELCOME && a.up == [REQUEST_MSG] && a.down == [] && a.buffer == []
    requires b == a.(peer := Some(Peer(DOWNLOADING_WORLD, 0)), up := [], down := [Header(a.world, a.name)])
    ensures Step(a, b)
  {
    hide Header;
    assert a.up[1..] == [] && [] + [Header(a.world, a.name)] == [Header(a.world, a.name)];
    assert ServerStep(a, b);
    ServerIsStep(a, b);
  }

  lemma AnnouncementRead(c: System) returns (d: System)
    requires Complete(c.world) && !c.wild && c.buffer == [Header(c.world, c.name)] && c.up == [] && c.taken == None
    requires c.client == ClientView(CONNECTING, DOWNLOAD_WORLD_SENT, 0, World(0, 0, []))
    ensures Step(c, d) && d == c.(client := d.client, buffer := [], taken := Some(Header(c.world, c.name)))
    ensures d.client == ClientView(CONNECTING, DOWNLOADING_WORLD, 0, World(c.world.x, c.world.y, d.client.world.tiles))
    ensures |d.client.world.tiles| == |c.world.tiles|
  {
    HeaderRoundTrip(c.world, c.name);
    var w := World(c.world.x, c.world.y, seq(|c.world.tiles|, _ => 0));
    hide SizeIn, Header, Bytes;
    assert Newest(c) == Some(Header(c.world, c.name));
    d := Ticked(c, c.client.(phase := DOWNLOADING_WORLD, world := w), []);
    TickIsStep(c, d.client, []);
    assert c.up + [] == [];
  }

  /** Two chunks are sent, arrive, and are taken, the newer one first. */
  lemma TakenNewestFirst(s: System) returns (run: seq<System>)
    requires s.running && !s.wild && s.down == [] && s.buffer == [] && s.up == []
    requires s.peer == Some(Peer(DOWNLOADING_WORLD, 0)) && MAX_PACKET_SIZE < |s.world.tiles| <= 2 * MAX_PACKET_SIZE
    requires s.client == ClientView(CONNECTING, DOWNLOADING_WORLD, 0, s.client.world)
    requires |s.client.world.tiles| == Bytes(s.client.world.x, s.client.world.y) == |s.world.tiles|
    ensures run != [] && run[0] == s && AnySteps(run)
    ensures var t := run[|run| - 1];
      && t.client.phase == LETS_GO && t.world == s.world && !t.wild
      && t.client.world == s.client.world.(tiles := s.world.tiles[MAX_PACKET_SIZE..] + s.world.tiles[..MAX_PACKET_SIZE])
  {
    hide AnyStep, Bytes;
    var w := s.world.tiles;
    var m := Msg(NETMSG_WORLD_DOWNLOAD_PACKET, w[..MAX_PACKET_SIZE]);
    var n := Msg(NETMSG_WORLD_DOWNLOAD_PACKET, w[MAX_PACKET_SIZE..]);
    var a := s.(peer := Some(Peer(DOWNLOADING_WORLD, MAX_PACKET_SIZE)), down := [m]);
    var b := a.(peer := Some(Peer(LETS_GO, |w|)), down := [m, n]);
    BothSent(s, a, b, m, n);
    var c := b.(down := [n], buffer := [m]);
    var d := c.(down := [], buffer := [m, n]);
    BothArrive(b, c, d, m, n);
    var e, t := BothTaken(d, m, n);
    run := [s, a, b, c, d, e, t];
  }

  lemma BothSent(s: System, a: System, b: System, m: Msg, n: Msg)
    requires s.running && s.down == [] && s.peer == Some(Peer(DOWNLOADING_WORLD, 0))
    requires MAX_PACKET_SIZE < |s.world.tiles| <= 2 * MAX_PACKET_SIZE
    requires m == Msg(NETMSG_WORLD_DOWNLOAD_PACKET, s.world.tiles[..MAX_PACKET_SIZE])
    requires n == Msg(NETMSG_WORLD_DOWNLOAD_PACKET, s.world.tiles[MAX_PACKET_SIZE..])
    requires a == s.(peer := Some(Peer(DOWNLOADING_WORLD, MAX_PACKET_SIZE)), down := [m])
    requires b == a.(peer := Some(Peer(LETS_GO, |s.world.tiles|)), down := [m, n])
    ensures AnyStep(s, a) && AnyStep(a, b)
  {
    var w := s.world.tiles;
    assert [] + [m] == [m] && [m] + [n] == [m, n];
    assert NextChunk(w, s.peer.value) == w[..MAX_PACKET_SIZE];
    assert Downloads(s) == a;
    assert NextChunk(w, a.peer.value) == w[MAX_PACKET_SIZE..];
    assert Downloads(a) == b;
    assert ServerStep(s, a) && ServerStep(a, b);
  }

  lemma BothArrive(b: System, c: System, d: System, m: Msg, n: Msg)
    requires b.down == [m, n] && b.buffer == [] && Accepted(OnWire(m)) && Accepted(OnWire(n))
    requires c == b.(down := [n], buffer := [m]) && d == c.(down := [], buffer := [m, n])
    ensures AnyStep(b, c) && AnyStep(c, d)
  {
    assert b.down[1..] == [n] && c.down[1..] == [];
    assert Push([], m) == [m] && Push([m], n) == [m, n];
    assert Deliver(b, c) && Deliver(c, d);
  }

  lemma BothTaken(d: System, m: Msg, n: Msg) returns (e: System, t: System)
    requires !d.wild && d.buffer == [m, n] && m.kind == n.kind == NETMSG_WORLD_DOWNLOAD_PACKET && |m.data| > 0
    requires d.client == ClientView(CONNECTING, DOWNLOADING_WORLD, 0, d.client.world)
    requires |d.client.world.tiles| == Bytes(d.client.world.x, d.client.world.y) == |m.data| + |n.data|
    ensures AnyStep(d, e) && AnyStep(e, t)
    ensures t.client.phase == LETS_GO && t.world == d.world && !t.wild
    ensures t.client.world == d.client.world.(tiles := n.data + m.data)
  {
    hide Bytes;
    var c1 := WithChunk(d.client, n.data);
    SwappedCopies(d.client.world.tiles, m.data, n.data);
    hide Copied;
    e := d.(client := c1, buffer := [m], got := d.got + [n.data]);
    var c2 := WithChunk(c1, m.data);
    t := e.(client := c2, buffer := [], got := e.got + [m.data]);
    assert e.up[|d.up|..] == [] && t.up[|e.up|..] == [];
    assert Newest(d) == Some(n) && Newest(e) == Some(m);
    assert ClientStep(d, e) && ClientStep(e, t);
  }

  lemma SwappedCopies(tiles: seq<byte>, m: seq<byte>, n: seq<byte>)
    requires |m| + |n| == |tiles|
    ensures |Copied(tiles, 0, n)| == |tiles| && Copied(Copied(tiles, 0, n), |n|, m) == n + m
  {
  }

  /** For every world of two packets there is a run in which both chunks wait in the buffer together, and the client
      lets go with the two parts of the map exchanged. FinalTiles tells for all runs when the maps are equal. */
  lemma WaitingChunksAreSwapped(s: System) returns (run: seq<System>)
    requires Init(s) && MAX_PACKET_SIZE < |s.world.tiles| <= 2 * MAX_PACKET_SIZE
    ensures AnyRun(run) && run[0] == s
    ensures var t, w := run[|run| - 1], s.world.tiles;
      && t.client.phase == LETS_GO && !t.wild
      && t.client.world == s.world.(tiles := w[MAX_PACKET_SIZE..] + w[..MAX_PACKET_SIZE])
  {
    var first := Waits(s);
    RunInv(first, |first| - 1);
    var second := Announce(first[|first| - 1]);
    hide Step, AnyStep, Inv, Law;
    Joined(first, second);
    var both := first[..|first| - 1] + second;
    StepsAreAnySteps(both);
    var third := TakenNewestFirst(both[|both| - 1]);
    JoinedAny(both, third);
    run := both[..|both| - 1] + third;
    assert run[0] == s by {
      assert |both| > 1;
    }
  }

  lemma JoinedAny(run: seq<System>, more: seq<System>)
    requires run != [] && more != [] && AnySteps(run) && AnySteps(more) && run[|run| - 1] == more[0]
    ensures AnySteps(run[..|run| - 1] + more)
  {
    hide AnyStep;
    var n := |run| - 1;
    var all := run[..n] + more;
    forall i | 0 <= i < |all| - 1
      ensures AnyStep(all[i], all[i + 1])
    {
      if i >= n {
        assert all[i] == more[i - n] && all[i + 1] == more[i - n + 1];
      } else {
        assert all[i] == run[i] && all[i + 1] == run[i + 1];
      }
    }
  }
}
