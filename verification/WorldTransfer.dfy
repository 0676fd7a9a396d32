/** The two ends of the world download: the server's record of a client and the connecting client. */
module WorldTransfer {
  import opened Wrappers
  import opened Bits
  import opened NetBuffer

  datatype Phase = HELLO | HELLO_SENT | DOWNLOAD_WORLD | DOWNLOAD_WORLD_SENT | DOWNLOADING_WORLD | LETS_GO

  datatype State = UNCONNECTED | CONNECTING | CONNECTED | DISCONNECTED

  const NETMSG_DISCONNECT: nat := 0x6
  const NET_PROTOCOL_VERSION: nat := 5
  const HELLO_OK: nat := 0
  const HELLO_TOO_MANY: nat := 3
  const HELLO_DUPLICATE_CLIENT: nat := 4
  const HELLO_INVALID_VERSION: nat := 5

  // ---- the world ----

  datatype World = World(x: nat, y: nat, tiles: seq<byte>)

  function Bytes(x: nat, y: nat): nat
  {
    x * y
  }

  predicate Complete(w: World)
  {
    0 < w.x < 0x8000_0000 && 0 < w.y < 0x8000_0000 && |w.tiles| == Bytes(w.x, w.y) && 0 < |w.tiles| < 0x8000_0000
  }

  function Le32(n: nat): (r: seq<byte>)
    ensures |r| == 4
  {
    [n % 256, n / 256 % 256, n / 0x1_0000 % 256, n / 0x100_0000 % 256]
  }

  function At(data: seq<byte>, k: nat): byte
  {
    if k < |data| then data[k] else 0
  }

  function ReadLe32(data: seq<byte>, k: nat): nat
  {
    At(data, k) + 256 * At(data, k + 1) + 0x1_0000 * At(data, k + 2) + 0x100_0000 * At(data, k + 3)
  }

  const WORLD_NAME_LENGTH: nat := 48

  /** A name that fits the field for it, with the zero that ends it. */
  type MapName = s: seq<byte> | |s| < WORLD_NAME_LENGTH && 0 !in s

  /** The message that announces a world: the name, the size and the number of bytes, in a field of fixed length. */
  function Header(w: World, name: MapName): Msg
  {
    var padding := seq<byte>(WORLD_NAME_LENGTH - 1 - |name|, _ => 0);
    Msg(NETMSG_WORLD_DOWNLOAD_START, name + [0] + Le32(w.x) + Le32(w.y) + Le32(|w.tiles|) + padding)
  }

  /** strlen; a message is followed by zeros here. */
  function NameLength(data: seq<byte>): nat
  {
    if data == [] || data[0] == 0 then 0 else 1 + NameLength(data[1..])
  }

  /** Where the reading goes on after a name: behind the zero, but not behind the longest message. */
  function AfterName(data: seq<byte>): nat
  {
    if NameLength(data) + 1 <= MAX_PACKET_SIZE then NameLength(data) + 1 else 0
  }

  /** The map size that a client reads from a message that it takes for the announcement. */
  function SizeIn(m: Msg): (nat, nat)
  {
    (ReadLe32(m.data, AfterName(m.data)), ReadLe32(m.data, AfterName(m.data) + 4))
  }

  /** A message of the announcing kind from which the client reads the size of the world. */
  predicate Announces(w: World, m: Msg)
  {
    m.kind == NETMSG_WORLD_DOWNLOAD_START && |m.data| <= MAX_PACKET_SIZE && SizeIn(m) == (w.x, w.y)
  }

  lemma {:induction false} NameEnds(name: MapName, rest: seq<byte>)
    ensures NameLength(name + [0] + rest) == |name|
    decreases |name|
  {
    var data := name + [0] + rest;
    if name != [] {
      assert data[0] == name[0] && data[1..] == name[1..] + [0] + rest;
      NameEnds(name[1..], rest);
    }
  }

  lemma Le32RoundTrip(n: nat, before: seq<byte>, after: seq<byte>)
    requires n < 0x1_0000_0000
    ensures ReadLe32(before + Le32(n) + after, |before|) == n
  {
    var s := before + Le32(n) + after;
    assert forall i :: 0 <= i < 4 ==> s[|before| + i] == Le32(n)[i];
    assert s[|before|] == Le32(n)[0] && s[|before| + 1] == Le32(n)[1];
    assert s[|before| + 2] == Le32(n)[2] && s[|before| + 3] == Le32(n)[3];
  }

  /** The client learns the size of the server's world, whatever the map is called. */
  lemma HeaderRoundTrip(w: World, name: MapName)
    requires Complete(w)
    ensures Announces(w, Header(w, name))
  {
    var padding := seq<byte>(WORLD_NAME_LENGTH - 1 - |name|, _ => 0);
    var x, y, n := Le32(w.x), Le32(w.y), Le32(|w.tiles|);
    var data := Header(w, name).data;
    hide Le32, ReadLe32;
    assert data == name + [0] + (x + y + n + padding) == name + [0] + x + (y + n + padding)
                == name + [0] + x + y + (n + padding);
    NameEnds(name, x + y + n + padding);
    Le32RoundTrip(w.x, name + [0], y + n + padding);
    Le32RoundTrip(w.y, name + [0] + x, n + padding);
  }

  /** An announcement, byte for byte: "ab", two columns and three rows, six bytes. */
  lemma KnownHeader(w: World, name: MapName)
    requires w.x == 2 && w.y == 3 && |w.tiles| == 6 && name == [97, 98]
    ensures Complete(w) && Header(w, name).kind == 0x2 && |Header(w, name).data| == 60
    ensures Header(w, name).data[..15] == [97, 98, 0, 2, 0, 0, 0, 3, 0, 0, 0, 6, 0, 0, 0]
  {
    assert name + [0] + Le32(2) == [97, 98, 0, 2, 0, 0, 0];
    assert name + [0] + Le32(2) + Le32(3) == [97, 98, 0, 2, 0, 0, 0, 3, 0, 0, 0];
  }

  // ---- the server's side ----

  /** What the server keeps about a client. */
  datatype Peer = Peer(phase: Phase, progress: nat)

  function Least(a: nat, b: nat): nat
  {
    if a < b then a else b
  }

  /** The bytes of the next chunk. */
  function NextChunk(tiles: seq<byte>, p: Peer): seq<byte>
    requires p.progress <= |tiles|
  {
    tiles[p.progress..p.progress + Least(|tiles| - p.progress, MAX_PACKET_SIZE)]
  }

  function AfterChunk(tiles: seq<byte>, p: Peer): Peer
    requires p.progress <= |tiles|
  {
    var progress := p.progress + |NextChunk(tiles, p)|;
    Peer(if progress >= |tiles| then LETS_GO else p.phase, progress)
  }

  // ---- the client's side ----

  datatype ClientView = ClientView(state: State, phase: Phase, progress: nat, world: World)

  /** memcpy of a chunk into the tile map. */
  function Copied(tiles: seq<byte>, progress: nat, data: seq<byte>): seq<byte>
    requires progress + |data| <= |tiles|
  {
    tiles[..progress] + data + tiles[progress + |data|..]
  }

  predicate FitsWorld(c: ClientView, data: seq<byte>)
  {
    c.progress + |data| <= |c.world.tiles|
  }

  /** A downloading client is given a chunk. */
  predicate TakesChunk(c: ClientView, msg: Option<Msg>)
  {
    c.state == CONNECTING && c.phase == DOWNLOADING_WORLD && msg.Some? && msg.value.kind == NETMSG_WORLD_DOWNLOAD_PACKET
  }

  /** The chunk does not fit the tile map: the memcpy would run past the end of it. */
  predicate Overruns(c: ClientView, msg: Option<Msg>)
  {
    TakesChunk(c, msg) && !FitsWorld(c, msg.value.data)
  }

  /** WorldGenerator::Init: a new tile map, with any contents. */
  predicate Initialised(w: World, x: nat, y: nat, w': World)
  {
    w'.x == x && w'.y == y && if x == 0 || y == 0 then w'.tiles == w.tiles else |w'.tiles| == Bytes(x, y)
  }

  /** Client::TickNetworkConnecting.  A chunk that does not fit the tile map would be written past its end; nothing is
      said about the client after that. */
  predicate Connecting(c: ClientView, msg: Option<Msg>, c': ClientView, sent: seq<Msg>)
  {
    match c.phase
    case HELLO => c' == c.(phase := HELLO_SENT) && sent == [Msg(NETMSG_HELLO, [])]
    case HELLO_SENT =>
      && sent == []
      && if msg.None? || msg.value.kind != NETMSG_SERVER_HELLO then c' == c
         else if At(msg.value.data, 0) == HELLO_OK then c' == c.(phase := DOWNLOAD_WORLD)
         else c' == c.(state := UNCONNECTED)
    case DOWNLOAD_WORLD => c' == c.(phase := DOWNLOAD_WORLD_SENT) && sent == [Msg(NETMSG_WORLD_DOWNLOAD_START, [])]
    case DOWNLOAD_WORLD_SENT =>
      && sent == []
      && if msg.None? then c' == c
         else Initialised(c.world, SizeIn(msg.value).0, SizeIn(msg.value).1, c'.world)
              && c' == c.(phase := DOWNLOADING_WORLD, world := c'.world)
    case DOWNLOADING_WORLD =>
      && sent == []
      && if msg.None? || msg.value.kind != NETMSG_WORLD_DOWNLOAD_PACKET then c' == c
         else FitsWorld(c, msg.value.data) ==> c' == WithChunk(c, msg.value.data)
    case LETS_GO => c' == c.(state := CONNECTED) && sent == []
  }

  function WithChunk(c: ClientView, data: seq<byte>): ClientView
    requires FitsWorld(c, data)
  {
    var progress := c.progress + |data|;
    c.(progress := progress, world := c.world.(tiles := Copied(c.world.tiles, c.progress, data)),
       phase := if progress >= Bytes(c.world.x, c.world.y) then LETS_GO else c.phase)
  }

  predicate Listening(c: ClientView)
  {
    c.state == CONNECTING || c.state == CONNECTED
  }

  /** Client::Tick with the message that was taken from the buffer. */
  predicate ClientTick(c: ClientView, msg: Option<Msg>, c': ClientView, sent: seq<Msg>)
  {
    if !Listening(c) then c' == c && sent == [] && msg.None?
    else if msg.Some? && msg.value.kind == NETMSG_SERVER_SHUTDOWN then
      c' == c.(state := DISCONNECTED) && sent == [Msg(NETMSG_DISCONNECT, [])]
    else if c.state == CONNECTING then Connecting(c, msg, c', sent)
    else c' == c && sent == []
  }

  // ---- the classes ----

  /** Client, as far as it takes part in the download. */
  class Client {
    const net: NetMode
    var state: State
    var connectPhase: Phase
    var downloadProgress: nat
    var sizeX: nat
    var sizeY: nat
    var tileData: array<byte>

    ghost function View(): ClientView
      reads this, tileData
    {
      ClientView(state, connectPhase, downloadProgress, World(sizeX, sizeY, tileData[..]))
    }

    ghost predicate Valid()
      reads this, net
    {
      net.Valid()
    }

    constructor ()
      ensures Valid() && net.Buffered() == [] && fresh(net)
      ensures View() == ClientView(CONNECTING, HELLO, 0, World(0, 0, []))
    {
      net := new NetMode();
      state, connectPhase, downloadProgress, sizeX, sizeY := CONNECTING, HELLO, 0, 0, 0;
      tileData := new byte[0];
    }

    method InitWorld(x: nat, y: nat)
      modifies this`sizeX, this`sizeY, this`tileData
      ensures Initialised(old(View()).world, x, y, View().world)
      ensures tileData == old(tileData) || fresh(tileData)
      ensures View().state == old(state) && View().phase == old(connectPhase)
      ensures View().progress == old(downloadProgress)
    {
      sizeX, sizeY := x, y;
      if sizeX == 0 || sizeY == 0 {
        return;
      }
      tileData := new byte[Bytes(sizeX, sizeY)];
    }

    /** Client::ConnectDownloadWorldChunk.  The flag tells that the chunk does not fit; nothing is said about what the
        original does then. */
    method ConnectDownloadWorldChunk(msg: Option<Msg>) returns (wild: bool)
      modifies this`connectPhase, this`downloadProgress, tileData
      ensures wild <==>
        msg.Some? && msg.value.kind == NETMSG_WORLD_DOWNLOAD_PACKET && !FitsWorld(old(View()), msg.value.data)
      ensures !wild ==>
        View() == if msg.Some? && msg.value.kind == NETMSG_WORLD_DOWNLOAD_PACKET
                  then WithChunk(old(View()), msg.value.data) else old(View())
    {
      wild := false;
      if msg.None? || msg.value.kind != NETMSG_WORLD_DOWNLOAD_PACKET {
        return;
      }
      var data := msg.value.data;
      if downloadProgress + |data| > tileData.Length {
        return true;
      }
      CopyTiles(data);
      downloadProgress := downloadProgress + |data|;
      if downloadProgress >= Bytes(sizeX, sizeY) {
        connectPhase := LETS_GO;
      }
    }

    /** memcpy into the tile map. */
    method CopyTiles(data: seq<byte>)
      requires downloadProgress + |data| <= tileData.Length
      modifies tileData
      ensures tileData[..] == Copied(old(tileData[..]), downloadProgress, data)
    {
      ghost var tiles := tileData[..];
      var p := downloadProgress;
      for k := 0 to |data|
        invariant forall i :: 0 <= i < tileData.Length && !(p <= i < p + k) ==> tileData[i] == tiles[i]
        invariant forall i :: 0 <= i < k ==> tileData[p + i] == data[i]
      {
        tileData[p + k] := data[k];
      }
    }

    /** Client::TickNetworkConnecting; returns what it sends to the server. */
    method TickNetworkConnecting(msg: Option<Msg>) returns (sent: seq<Msg>, wild: bool)
      requires state == CONNECTING
      modifies this`state, this`connectPhase, this`downloadProgress, this`sizeX, this`sizeY, this`tileData, tileData
      ensures Connecting(old(View()), msg, View(), sent)
      ensures wild <==> Overruns(old(View()), msg)
      ensures sent != [] ==> sent == [Msg(if old(connectPhase) == HELLO then 0x0 else 0x2, [])]
    {
      sent, wild := [], false;
      match connectPhase
      case HELLO =>
        sent := [Msg(NETMSG_HELLO, [])];
        connectPhase := HELLO_SENT;
      case HELLO_SENT =>
        if msg.Some? && msg.value.kind == NETMSG_SERVER_HELLO {
          if At(msg.value.data, 0) == HELLO_OK {
            connectPhase := DOWNLOAD_WORLD;
          } else {
            state := UNCONNECTED;
          }
        }
      case DOWNLOAD_WORLD =>
        sent := [Msg(NETMSG_WORLD_DOWNLOAD_START, [])];
        connectPhase := DOWNLOAD_WORLD_SENT;
      case DOWNLOAD_WORLD_SENT =>
        if msg.Some? {
          InitWorld(SizeIn(msg.value).0, SizeIn(msg.value).1);
          connectPhase := DOWNLOADING_WORLD;
        }
      case DOWNLOADING_WORLD =>
        wild := ConnectDownloadWorldChunk(msg);
      case LETS_GO =>
        state := CONNECTED;
    }

    /** Client::Tick: takes the newest message and handles it; returns both. */
    method Tick() returns (msg: Option<Msg>, sent: seq<Msg>, wild: bool)
      requires Valid()
      modifies this`state, this`connectPhase, this`downloadProgress, this`sizeX, this`sizeY, this`tileData, tileData
      modifies net`netBufferPtr
      ensures Valid()
      ensures !Listening(old(View())) ==> net.Buffered() == old(net.Buffered()) && msg == None
      ensures Listening(old(View())) ==> net.Buffered() == Pop(old(net.Buffered()))
      ensures Listening(old(View())) ==>
        msg == if old(net.Buffered()) == [] then None else Some(old(net.Buffered())[|old(net.Buffered())| - 1])
      ensures ClientTick(old(View()), msg, View(), sent)
      ensures wild <==> Overruns(old(View()), msg)
    {
      msg, sent, wild := None, [], false;
      if state == CONNECTING || state == CONNECTED {
        msg := net.GetMessage();
        if msg.Some? && msg.value.kind == NETMSG_SERVER_SHUTDOWN {
          sent := [Msg(NETMSG_DISCONNECT, [])];
          state := DISCONNECTED;
        } else if state == CONNECTING {
          sent, wild := TickNetworkConnecting(msg);
        }
      }
    }
  }

  /** The server's Client object. */
  class Record {
    var connectPhase: Phase
    var downloadProgress: nat
    const name: string
    const address: string

    function View(): Peer
      reads this
    {
      Peer(connectPhase, downloadProgress)
    }

    /** The name of a client is its address in print. */
    constructor (from: string)
      ensures View() == Peer(HELLO, 0) && name == address == from
    {
      connectPhase, downloadProgress := HELLO, 0;
      name, address := from, from;
    }
  }

  /** Server, as far as it sends the world. */
  class Server {
    const world: World
    const clients: array<Record?>
    const netMaxPlayers: nat
    var numClients: nat

    ghost function Records(): set<Record?>
      reads clients
    {
      set i | 0 <= i < clients.Length && clients[i] != null :: clients[i]
    }

    /** The clients are different objects, and none has been sent more than the world. */
    ghost predicate Valid()
      reads this, clients, Records()
    {
      && (forall i, j :: 0 <= i < j < clients.Length && clients[i] != null ==> clients[i] != clients[j])
      && (forall i :: 0 <= i < clients.Length && clients[i] != null ==> clients[i].downloadProgress <= |world.tiles|)
    }

    constructor (w: World, records: array<Record?>, maxPlayers: nat, count: nat)
      ensures world == w && clients == records && netMaxPlayers == maxPlayers && numClients == count
    {
      world, clients, netMaxPlayers, numClients := w, records, maxPlayers, count;
    }

    ghost predicate HasAddress(from: string)
      reads clients, Records()
    {
      exists i :: 0 <= i < clients.Length && clients[i] != null && clients[i].address == from
    }

    ghost predicate HasName(username: string)
      reads clients, Records()
    {
      exists i :: 0 <= i < clients.Length && clients[i] != null && clients[i].name == username
    }

    /** Server::ClientIsNew. */
    method ClientIsNew(from: string, username: string) returns (isNew: bool)
      ensures isNew <==> !(HasAddress(from) && HasName(username))
    {
      var address, name := false, false;
      for k := 0 to clients.Length
        invariant address <==> exists i :: 0 <= i < k && clients[i] != null && clients[i].address == from
        invariant name <==> exists i :: 0 <= i < k && clients[i] != null && clients[i].name == username
      {
        var client := clients[k];
        address := address || (client != null && client.address == from);
        name := name || (client != null && client.name == username);
      }
      isNew := !address || !name;
    }

    /** Server::ClientNew: a hello is answered exactly if the version is right, the client is new and there is room;
        then the client is entered, and the answer has the status 0. Otherwise nothing is sent. */
    method ClientNew(version: nat, username: string, from: string) returns (answer: Option<Msg>)
      requires Valid() && netMaxPlayers <= clients.Length
      modifies this`numClients, clients
      ensures Valid()
      ensures answer.Some? <==>
        version == 5 && !(old(HasAddress(from)) && old(HasName(username))) && old(numClients) < netMaxPlayers
      ensures answer.Some? ==>
        && answer == Some(Msg(0x80, [0])) && numClients == old(numClients) + 1
        && clients[..] == old(clients[..])[old(numClients) := clients[old(numClients)]]
        && clients[old(numClients)] != null && fresh(clients[old(numClients)])
        && clients[old(numClients)].View() == Peer(HELLO, 0) && clients[old(numClients)].address == from
      ensures answer.None? ==> numClients == old(numClients) && clients[..] == old(clients[..])
    {
      var status := HELLO_OK;
      if version != NET_PROTOCOL_VERSION {
        status := HELLO_INVALID_VERSION;
      }
      var isNew := ClientIsNew(from, username);
      if !isNew {
        status := HELLO_DUPLICATE_CLIENT;
      }
      if numClients >= netMaxPlayers {
        status := HELLO_TOO_MANY;
      }
      answer := None;
      if status == HELLO_OK {
        var client := new Record(from);
        clients[numClients] := client;
        numClients := numClients + 1;
        answer := Some(Msg(NETMSG_SERVER_HELLO, [HELLO_OK]));
      }
    }

    /** Server::ClientSendWorldChunk; returns the message it sends. */
    method ClientSendWorldChunk(client: Record) returns (packet: Msg)
      requires client.downloadProgress <= |world.tiles|
      modifies client
      ensures client.View() == AfterChunk(world.tiles, old(client.View()))
      ensures packet == Msg(NETMSG_WORLD_DOWNLOAD_PACKET, NextChunk(world.tiles, old(client.View())))
      ensures packet.kind == 0x3 && |packet.data| == Least(|world.tiles| - old(client.downloadProgress), 1400)
    {
      var worldSize := |world.tiles|;
      var remainingBytes := worldSize - client.downloadProgress;
      var size := if remainingBytes < MAX_PACKET_SIZE then remainingBytes else MAX_PACKET_SIZE;
      packet := Msg(NETMSG_WORLD_DOWNLOAD_PACKET, world.tiles[client.downloadProgress..client.downloadProgress + size]);
      client.downloadProgress := client.downloadProgress + size;
      if client.downloadProgress >= worldSize {
        client.connectPhase := LETS_GO;
      }
    }

    /** Server::TickDownloads: every client that is downloading is sent its next chunk, and no other one anything. */
    method TickDownloads() returns (sent: map<int, Msg>)
      requires Valid()
      modifies Records()
      ensures Valid()
      ensures forall i ::
        0 <= i < clients.Length && clients[i] != null && old(clients[i].connectPhase) == DOWNLOADING_WORLD ==>
        && clients[i].View() == AfterChunk(world.tiles, old(clients[i].View()))
        && i in sent && sent[i] == Msg(NETMSG_WORLD_DOWNLOAD_PACKET, NextChunk(world.tiles, old(clients[i].View())))
      ensures forall i ::
        0 <= i < clients.Length && clients[i] != null && old(clients[i].connectPhase) != DOWNLOADING_WORLD ==>
        clients[i].View() == old(clients[i].View())
      ensures forall i :: i in sent ==>
        0 <= i < clients.Length && clients[i] != null && old(clients[i].connectPhase) == DOWNLOADING_WORLD
    {
      sent := map[];
      for k := 0 to clients.Length
        invariant forall i :: k <= i < clients.Length && clients[i] != null ==>
          clients[i].View() == old(clients[i].View())
        invariant forall i :: 0 <= i < k && clients[i] != null && old(clients[i].connectPhase) == DOWNLOADING_WORLD ==>
          && clients[i].View() == AfterChunk(world.tiles, old(clients[i].View()))
          && i in sent && sent[i] == Msg(NETMSG_WORLD_DOWNLOAD_PACKET, NextChunk(world.tiles, old(clients[i].View())))
        invariant forall i :: 0 <= i < k && clients[i] != null && old(clients[i].connectPhase) != DOWNLOADING_WORLD ==>
          clients[i].View() == old(clients[i].View())
        invariant forall i :: i in sent ==>
          0 <= i < k && clients[i] != null && old(clients[i].connectPhase) == DOWNLOADING_WORLD
      {
        var client := clients[k];
        if client != null && client.connectPhase == DOWNLOADING_WORLD {
          var packet := ClientSendWorldChunk(client);
          sent := sent[k := packet];
        }
      }
    }
  }
}
