/** The world download as a system: the server, one client, and the messages between them.  Any order of steps is a run
    here; the receive buffer takes the newest message first. */
module DownloadSystem {
  import opened Wrappers
  import opened Bits
  import opened NetBuffer
  import opened WorldTransfer

  /** `down` holds the messages on their way to the client, oldest first, `buffer` those in its receive buffer, and `up`
      those on their way to the server. The last four fields record what has happened: the message that the client has
      taken for the announcement, the chunks it has taken, and whether one of them did not fit its tile map. */
  datatype System = System(world: World, name: MapName, running: bool, peer: Option<Peer>, client: ClientView,
                           down: seq<Msg>, buffer: seq<Msg>, up: seq<Msg>,
                           reply: Option<Msg>, taken: Option<Msg>, got: seq<seq<byte>>, wild: bool)

  const HELLO_MSG := Msg(NETMSG_HELLO, [])
  const REQUEST_MSG := Msg(NETMSG_WORLD_DOWNLOAD_START, [])
  const ACCEPT_MSG := Msg(NETMSG_SERVER_HELLO, [0])
  const SHUTDOWN_MSG := Msg(NETMSG_SERVER_SHUTDOWN, [])

  ghost predicate Init(s: System)
  {
    && Complete(s.world) && s.running && s.peer == None
    && s.client == ClientView(CONNECTING, HELLO, 0, World(0, 0, []))
    && s.down == [] && s.buffer == [] && s.up == []
    && s.reply == None && s.taken == None && s.got == [] && !s.wild
  }

  // ---- steps ----

  function OnWire(m: Msg): Datagram
  {
    Whole(NETMSG_MAGIC, |m.data|, m.kind, m.data)
  }

  /** Client::Frame: the next message arrives. */
  ghost predicate Deliver(s: System, s': System)
  {
    && s.down != [] && |s.buffer| <= NET_BUFFER_SIZE
    && s' == s.(down := s.down[1..],
                buffer := if Accepted(OnWire(s.down[0])) then Push(s.buffer, s.down[0]) else s.buffer)
  }

  /** The message that the client's tick takes. */
  function Newest(s: System): Option<Msg>
  {
    if !Listening(s.client) || s.buffer == [] then None else Some(s.buffer[|s.buffer| - 1])
  }

  /** A client that waits for the announcement takes this message for it. */
  predicate TakenForAnnouncement(c: ClientView, msg: Option<Msg>)
  {
    c.state == CONNECTING && c.phase == DOWNLOAD_WORLD_SENT && msg.Some? && msg.value.kind != NETMSG_SERVER_SHUTDOWN
  }

  /** A client that has said hello takes this message for the answer. */
  predicate TakenForReply(c: ClientView, msg: Option<Msg>)
  {
    c.state == CONNECTING && c.phase == HELLO_SENT && msg.Some? && msg.value.kind == NETMSG_SERVER_HELLO
  }

  /** Client::Tick. */
  ghost predicate ClientStep(s: System, s': System)
  {
    var msg := Newest(s);
    && s' == s.(client := s'.client, buffer := if Listening(s.client) then Pop(s.buffer) else s.buffer, up := s'.up,
                reply := if !s.wild && TakenForReply(s.client, msg) then msg else s.reply,
                taken := if !s.wild && TakenForAnnouncement(s.client, msg) then msg else s.taken,
                got := if TakesChunk(s.client, msg) then s.got + [msg.value.data] else s.got,
                wild := s.wild || Overruns(s.client, msg))
    && s.up <= s'.up
    && ClientTick(s.client, msg, s'.client, s'.up[|s.up|..])
  }

  /** Server::TickDownloads for this client. */
  function Downloads(s: System): System
  {
    if s.peer.Some? && s.peer.value.phase == DOWNLOADING_WORLD && s.peer.value.progress <= |s.world.tiles|
    then s.(peer := Some(AfterChunk(s.world.tiles, s.peer.value)),
            down := s.down + [Msg(NETMSG_WORLD_DOWNLOAD_PACKET, NextChunk(s.world.tiles, s.peer.value))])
    else s
  }

  /** An answer that does not let the client in. */
  predicate Refusal(m: Msg)
  {
    m.kind == NETMSG_SERVER_HELLO && |m.data| == 1 && m.data[0] != 0
  }

  /** The client is refused, with any status.  The server of the original computes a status and then sends nothing; runs
      in which it does are also covered. */
  ghost predicate Refuses(s: System, s': System)
  {
    s'.down != [] && Refusal(s'.down[|s'.down| - 1]) && s' == s.(down := s.down + [s'.down[|s'.down| - 1]])
  }

  /** Server::TickNetwork with a message from this client; a client that says hello is let in or not. */
  ghost predicate Handles(s: System, s': System)
    requires s.up != []
  {
    var kind := s.up[0].kind;
    var t := s.(up := s.up[1..]);
    if kind == NETMSG_HELLO then
      s' == t || s' == t.(peer := Some(Peer(HELLO, 0)), down := t.down + [ACCEPT_MSG]) || Refuses(t, s')
    else if kind == NETMSG_WORLD_DOWNLOAD_START && t.peer.Some? then
      s' == t.(peer := Some(t.peer.value.(phase := DOWNLOADING_WORLD)), down := t.down + [Header(t.world, t.name)])
    else if kind == NETMSG_DISCONNECT then s' == t.(peer := None)
    else s' == t
  }

  ghost predicate ServerStep(s: System, s': System)
  {
    s.running && (s' == Downloads(s) || (Downloads(s).up != [] && Handles(Downloads(s), s')))
  }

  /** The server tells an admitted client about another client, whatever the two are doing. */
  ghost predicate Notify(s: System, s': System)
  {
    && s.running && s.peer.Some? && s'.down != []
    && s' == s.(down := s.down + [s'.down[|s'.down| - 1]])
    && s'.down[|s'.down| - 1].kind == NETMSG_SERVER_RPC && |s'.down[|s'.down| - 1].data| <= MAX_PACKET_SIZE
  }

  ghost predicate ShutDown(s: System, s': System)
  {
    s.running && s' == s.(running := false, down := if s.peer.Some? then s.down + [SHUTDOWN_MSG] else s.down)
  }

  /** Any step of the client, the link or the server. */
  ghost predicate AnyStep(s: System, s': System)
  {
    ClientStep(s, s') || Deliver(s, s') || ServerStep(s, s') || Notify(s, s') || ShutDown(s, s')
  }

  ghost predicate AnySteps(run: seq<System>)
  {
    forall i :: 0 <= i < |run| - 1 ==> AnyStep(run[i], run[i + 1])
  }

  ghost predicate AnyRun(run: seq<System>)
  {
    run != [] && Init(run[0]) && AnySteps(run)
  }

  // ---- what every run keeps, in whatever order messages are taken ----

  function Concat(chunks: seq<seq<byte>>): seq<byte>
  {
    if chunks == [] then [] else Concat(chunks[..|chunks| - 1]) + chunks[|chunks| - 1]
  }

  lemma ConcatMore(chunks: seq<seq<byte>>, chunk: seq<byte>)
    ensures Concat(chunks + [chunk]) == Concat(chunks) + chunk
  {
    assert (chunks + [chunk])[..|chunks|] == chunks;
  }

  /** The map has the size that the client has read from the message it took for the announcement. */
  predicate Sized(w: World, m: Msg)
  {
    && (w.x, w.y) == SizeIn(m)
    && |w.tiles| == (if w.x == 0 || w.y == 0 then 0 else Bytes(w.x, w.y))
  }

  /** The client's map begins with the chunks it has taken, in the order in which it took them. */
  ghost predicate Assembled(s: System)
  {
    var c := s.client;
    if c.phase == DOWNLOADING_WORLD || c.phase == LETS_GO then
      && s.taken.Some? && Sized(c.world, s.taken.value)
      && c.progress == |Concat(s.got)| <= |c.world.tiles| && c.world.tiles[..c.progress] == Concat(s.got)
      && (c.phase == LETS_GO ==> Bytes(c.world.x, c.world.y) <= c.progress)
    else s.taken == None && s.got == [] && c.progress == 0 && c.world == World(0, 0, [])
  }

  ghost predicate Law(s: System)
  {
    !s.wild ==> Assembled(s) && (s.client.state == CONNECTED ==> s.client.phase == LETS_GO)
  }

  lemma CopiedAfter(tiles: seq<byte>, have: seq<byte>, data: seq<byte>)
    requires |have| + |data| <= |tiles| && tiles[..|have|] == have
    ensures |Copied(tiles, |have|, data)| == |tiles|
    ensures Copied(tiles, |have|, data)[..|have| + |data|] == have + data
  {
  }

  lemma ConnectingLaw(c: ClientView, msg: Option<Msg>, c': ClientView, sent: seq<Msg>, s: System, s': System)
    requires Assembled(s) && s.client == c && s'.client == c' && c.state == CONNECTING
    requires Connecting(c, msg, c', sent) && !Overruns(c, msg)
    requires msg.Some? ==> msg.value.kind != NETMSG_SERVER_SHUTDOWN
    requires s'.taken == (if TakenForAnnouncement(c, msg) then msg else s.taken)
    requires s'.got == (if TakesChunk(c, msg) then s.got + [msg.value.data] else s.got)
    ensures Assembled(s') && (c'.state == CONNECTED ==> c'.phase == LETS_GO)
  {
    hide SizeIn, Concat, Copied;
    if TakesChunk(c, msg) {
      ConcatMore(s.got, msg.value.data);
      CopiedAfter(c.world.tiles, Concat(s.got), msg.value.data);
    }
    if TakenForAnnouncement(c, msg) {
      NothingTaken();
      assert c'.world.tiles[..0] == [];
    }
  }

  lemma NothingTaken()
    ensures Concat([]) == []
  {
  }

  lemma ClientLaw(s: System, s': System)
    requires Law(s) && ClientStep(s, s')
    ensures Law(s')
  {
    hide Connecting, Assembled;
    var msg, sent := Newest(s), s'.up[|s.up|..];
    if !s'.wild && Listening(s.client) {
      if msg.Some? && msg.value.kind == NETMSG_SERVER_SHUTDOWN {
        StateOnly(s, s');
      } else if s.client.state == CONNECTING {
        ConnectingLaw(s.client, msg, s'.client, sent, s, s');
      } else {
        StateOnly(s, s');
      }
    } else if !s'.wild {
      StateOnly(s, s');
    }
  }

  lemma StateOnly(s: System, s': System)
    requires Assembled(s) && s'.client == s.client.(state := s'.client.state) && s'.taken == s.taken && s'.got == s.got
    ensures Assembled(s')
  {
  }

  lemma StepLaw(s: System, s': System)
    requires Law(s) && AnyStep(s, s')
    ensures Law(s') && s'.world == s.world
  {
    hide Assembled, ClientTick, ClientStep;
    if ClientStep(s, s') {
      ClientLaw(s, s');
      ClientKeepsWorld(s, s');
    } else if !s.wild {
      OthersKeepClient(s, s');
      StateOnly(s, s');
    }
  }

  lemma ClientKeepsWorld(s: System, s': System)
    requires ClientStep(s, s')
    ensures s'.world == s.world
  {
    hide ClientTick, Newest, TakenForAnnouncement, TakesChunk, Overruns;
  }

  lemma OthersKeepClient(s: System, s': System)
    requires Deliver(s, s') || ServerStep(s, s') || Notify(s, s') || ShutDown(s, s')
    ensures s'.world == s.world && s'.client == s.client && s'.taken == s.taken && s'.got == s.got && s'.wild == s.wild
  {
    hide Accepted, Push, Header, NextChunk, AfterChunk;
  }

  lemma {:induction false} RunLaw(run: seq<System>, k: nat)
    requires AnyRun(run) && k < |run|
    ensures Law(run[k]) && run[k].world == run[0].world
    decreases k
  {
    if k == 0 {
      NothingTaken();
    } else {
      hide Law, Init, AnyStep;
      RunLaw(run, k - 1);
      StepLaw(run[k - 1], run[k]);
    }
  }

  /** In every run, whatever the order in which messages are delivered and taken: a client that lets go has the chunks
      it took, one behind the other, and so it has the server's map exactly if it has read the right size and these
      chunks make up the map. */
  lemma FinalTiles(run: seq<System>, k: nat)
    requires AnyRun(run) && k < |run| && !run[k].wild
    requires run[k].client.phase == LETS_GO || run[k].client.state == CONNECTED
    ensures var s := run[k];
      && s.taken.Some? && s.client.world.tiles == Concat(s.got)
      && (s.client.world == run[0].world
          <==> SizeIn(s.taken.value) == (run[0].world.x, run[0].world.y) && Concat(s.got) == run[0].world.tiles)
  {
    RunLaw(run, k);
    var s := run[k];
    hide SizeIn, Concat;
    ZeroBytes(s.client.world.x, s.client.world.y);
    assert s.client.world.tiles[..|s.client.world.tiles|] == s.client.world.tiles;
  }

  lemma ZeroBytes(x: nat, y: nat)
    ensures Bytes(x, y) >= 0 && (x == 0 || y == 0 ==> Bytes(x, y) == 0)
  {
  }

  // ---- chunks in their places ----

  /** The map cut into packets. */
  function Cut(tiles: seq<byte>): seq<seq<byte>>
  {
    if |tiles| <= MAX_PACKET_SIZE then (if tiles == [] then [] else [tiles])
    else [tiles[..MAX_PACKET_SIZE]] + Cut(tiles[MAX_PACKET_SIZE..])
  }

  /** Full packets, but for the last one. */
  predicate Packets(chunks: seq<seq<byte>>)
  {
    forall i :: 0 <= i < |chunks| ==>
      0 < |chunks[i]| <= MAX_PACKET_SIZE && (i < |chunks| - 1 ==> |chunks[i]| == MAX_PACKET_SIZE)
  }

  lemma {:induction false} ConcatHead(chunks: seq<seq<byte>>)
    requires chunks != []
    ensures Concat(chunks) == chunks[0] + Concat(chunks[1..])
    decreases |chunks|
  {
    if |chunks| > 1 {
      var n := |chunks| - 1;
      ConcatHead(chunks[..n]);
      assert chunks[..n][1..] == chunks[1..][..n - 1];
    }
  }

  /** When no short chunk was taken out of turn, the chunks make up the map exactly if each of them is the chunk of the
      map in its place. */
  lemma {:induction false} EachInItsPlace(chunks: seq<seq<byte>>, tiles: seq<byte>)
    requires Packets(chunks)
    ensures Concat(chunks) == tiles <==> chunks == Cut(tiles)
    decreases |chunks|
  {
    if chunks != [] {
      ConcatHead(chunks);
      var rest := chunks[1..];
      assert Packets(rest) by {
        assert forall i :: 0 <= i < |rest| ==> rest[i] == chunks[i + 1];
      }
      assert chunks == [chunks[0]] + rest;
      if |chunks| == 1 {
        OnePacket(chunks, tiles);
      } else {
        if |tiles| >= MAX_PACKET_SIZE {
          EachInItsPlace(rest, tiles[MAX_PACKET_SIZE..]);
        }
        FirstPacket(chunks[0], rest, tiles);
      }
    }
  }

  lemma OnePacket(chunks: seq<seq<byte>>, tiles: seq<byte>)
    requires |chunks| == 1 && 0 < |chunks[0]| <= MAX_PACKET_SIZE
    ensures Concat(chunks) == tiles <==> chunks == Cut(tiles)
  {
    assert Concat(chunks) == [] + chunks[0] == chunks[0];
    if |tiles| > MAX_PACKET_SIZE {
      CutNotEmpty(tiles[MAX_PACKET_SIZE..]);
      assert |Cut(tiles)| > 1;
    } else if tiles != [] {
      assert Cut(tiles) == [tiles] && (chunks == [tiles] <==> chunks[0] == tiles);
    }
  }

  lemma CutNotEmpty(tiles: seq<byte>)
    requires tiles != []
    ensures Cut(tiles) != []
  {
  }

  lemma FirstPacket(first: seq<byte>, rest: seq<seq<byte>>, tiles: seq<byte>)
    requires |first| == MAX_PACKET_SIZE && rest != [] && rest[0] != []
    requires |tiles| >= MAX_PACKET_SIZE ==>
      (Concat(rest) == tiles[MAX_PACKET_SIZE..] <==> rest == Cut(tiles[MAX_PACKET_SIZE..]))
    ensures Concat([first] + rest) == tiles <==> [first] + rest == Cut(tiles)
  {
    ConcatHead([first] + rest);
    ConcatHead(rest);
    assert ([first] + rest)[1..] == rest;
    hide Concat;
    if |tiles| > MAX_PACKET_SIZE {
      assert tiles == tiles[..MAX_PACKET_SIZE] + tiles[MAX_PACKET_SIZE..];
      assert first + Concat(rest) == tiles <==>
        first == tiles[..MAX_PACKET_SIZE] && Concat(rest) == tiles[MAX_PACKET_SIZE..] by {
        SplitAt(first, Concat(rest), tiles);
      }
      assert [first] + rest == Cut(tiles) <==>
        first == tiles[..MAX_PACKET_SIZE] && rest == Cut(tiles[MAX_PACKET_SIZE..]) by {
        SameHead(first, rest, tiles[..MAX_PACKET_SIZE], Cut(tiles[MAX_PACKET_SIZE..]));
      }
    } else {
      assert |first + Concat(rest)| > MAX_PACKET_SIZE;
      assert |Cut(tiles)| <= 1 && |[first] + rest| > 1;
    }
  }

  lemma SplitAt(a: seq<byte>, b: seq<byte>, t: seq<byte>)
    requires |a| <= |t|
    ensures a + b == t <==> a == t[..|a|] && b == t[|a|..]
  {
  }

  lemma SameHead(a: seq<byte>, s: seq<seq<byte>>, b: seq<byte>, t: seq<seq<byte>>)
    ensures [a] + s == [b] + t <==> a == b && s == t
  {
    if [a] + s == [b] + t {
      assert ([a] + s)[0] == ([b] + t)[0];
      assert ([a] + s)[1..] == s && ([b] + t)[1..] == t;
    }
  }
}
