/** The receive buffer of NetMode: GetAllIncomingMessages and GetMessage, and what its order means for a stream. */
module NetBuffer {
  import opened Wrappers
  import opened Bits

  const NETMSG_MAGIC: nat := 0x00FF55AA
  const MAX_PACKET_SIZE: nat := 1400
  const NETMSG_LAST_VALID: nat := 0x83
  const NET_BUFFER_SIZE: nat := 64

  const NETMSG_HELLO: nat := 0x0
  const NETMSG_WORLD_DOWNLOAD_START: nat := 0x2
  const NETMSG_WORLD_DOWNLOAD_PACKET: nat := 0x3
  const NETMSG_SERVER_HELLO: nat := 0x80
  const NETMSG_SERVER_RPC: nat := 0x82
  const NETMSG_SERVER_SHUTDOWN: nat := 0x83

  /** A message; its header's size field is the length of its data. */
  datatype Msg = Msg(kind: nat, data: seq<byte>)

  /** What arrives on the socket: too short for a header, or the header's fields and what follows them. */
  datatype Datagram = Short | Whole(magic: nat, size: nat, kind: nat, payload: seq<byte>)

  predicate Accepted(d: Datagram)
  {
    d.Whole? && d.magic == NETMSG_MAGIC && d.size <= MAX_PACKET_SIZE && d.kind <= NETMSG_LAST_VALID
  }

  /** The buffer after a message has arrived; the 65th message is lost, and so are all others but the oldest. */
  function Push(buffer: seq<Msg>, m: Msg): seq<Msg>
    requires |buffer| <= NET_BUFFER_SIZE
  {
    if |buffer| < NET_BUFFER_SIZE then buffer + [m] else buffer[..1]
  }

  function Pop(buffer: seq<Msg>): seq<Msg>
  {
    if buffer == [] then [] else buffer[..|buffer| - 1]
  }

  class NetMode {
    const netBuffer: array<Msg>
    var netBufferPtr: int
    var seqNumber: nat

    ghost predicate Valid()
      reads this
    {
      netBuffer.Length == NET_BUFFER_SIZE && -1 <= netBufferPtr < NET_BUFFER_SIZE
    }

    /** The messages not yet taken, oldest first. */
    ghost function Buffered(): (r: seq<Msg>)
      requires Valid()
      reads this, netBuffer
      ensures |r| <= NET_BUFFER_SIZE
    {
      netBuffer[..netBufferPtr + 1]
    }

    constructor ()
      ensures Valid() && Buffered() == [] && fresh(netBuffer)
    {
      netBuffer := new Msg[NET_BUFFER_SIZE](_ => Msg(0, []));
      netBufferPtr, seqNumber := -1, 0;
    }

    /** Takes one datagram from the socket, if there is one.  `beyond` is what stands in memory behind the datagram: a
        size field that is too large makes the code read that. */
    method GetAllIncomingMessages(dgram: Option<Datagram>, beyond: seq<byte>)
      requires Valid() && |beyond| >= MAX_PACKET_SIZE
      modifies this, netBuffer
      ensures Valid()
      ensures dgram.None? || !Accepted(dgram.value) ==> Buffered() == old(Buffered()) && seqNumber == old(seqNumber)
      ensures dgram.Some? && dgram.value.Whole? ==>
        (Accepted(dgram.value) <==>
          dgram.value.magic == 0x00FF55AA && dgram.value.size <= 1400 && dgram.value.kind <= 0x83)
      ensures dgram.Some? && Accepted(dgram.value) ==>
        var d := dgram.value;
        && Buffered() == Push(old(Buffered()), Msg(d.kind, (d.payload + beyond)[..d.size]))
        && seqNumber == old(seqNumber) + 1
    {
      if dgram.None? || dgram.value.Short? {
        return;
      }
      var d := dgram.value;
      if d.magic != NETMSG_MAGIC || d.size > MAX_PACKET_SIZE || d.kind > NETMSG_LAST_VALID {
        return;
      }
      seqNumber := seqNumber + 1;
      netBufferPtr := netBufferPtr + 1;
      if netBufferPtr >= NET_BUFFER_SIZE {
        netBufferPtr := 0;
        return;
      }
      netBuffer[netBufferPtr] := Msg(d.kind, (d.payload + beyond)[..d.size]);
    }

    /** Takes the newest message. */
    method GetMessage() returns (msg: Option<Msg>)
      requires Valid()
      modifies this`netBufferPtr
      ensures Valid() && Buffered() == Pop(old(Buffered()))
      ensures msg == if old(Buffered()) == [] then None else Some(old(Buffered())[|old(Buffered())| - 1])
    {
      if netBufferPtr < 0 {
        return None;
      }
      msg := Some(netBuffer[netBufferPtr]);
      netBufferPtr := netBufferPtr - 1;
    }
  }

  // ---- when messages are taken in the order in which they arrived ----

  datatype Event = Arrive(m: Msg) | Take

  /** What is taken from the buffer in a run. */
  function Taken(es: seq<Event>, buffer: seq<Msg>): seq<Msg>
    requires |buffer| <= NET_BUFFER_SIZE
  {
    if es == [] then []
    else
      match es[0]
      case Arrive(m) => Taken(es[1..], Push(buffer, m))
      case Take => (if buffer == [] then [] else [buffer[|buffer| - 1]]) + Taken(es[1..], Pop(buffer))
  }

  function Arrivals(es: seq<Event>): seq<Msg>
  {
    if es == [] then []
    else (match es[0] case Arrive(m) => [m] case Take => []) + Arrivals(es[1..])
  }

  /** Every message arrives at an empty buffer, and the last one is taken. */
  predicate Drained(es: seq<Event>, buffer: seq<Msg>)
    requires |buffer| <= NET_BUFFER_SIZE
  {
    if es == [] then buffer == []
    else
      match es[0]
      case Arrive(m) => buffer == [] && Drained(es[1..], [m])
      case Take => Drained(es[1..], Pop(buffer))
  }

  predicate Distinct(ms: seq<Msg>)
  {
    forall i, j :: 0 <= i < j < |ms| ==> ms[i] != ms[j]
  }

  lemma {:induction false} TakenFrom(es: seq<Event>, buffer: seq<Msg>, x: Msg)
    requires |buffer| <= NET_BUFFER_SIZE && x !in buffer && x !in Arrivals(es)
    ensures x !in Taken(es, buffer)
  {
    if es != [] {
      TakenFrom(es[1..], if es[0].Arrive? then Push(buffer, es[0].m) else Pop(buffer), x);
    }
  }

  /** A full buffer keeps only its oldest message. */
  lemma LostWhenFull(es: seq<Event>, buffer: seq<Msg>, j: nat)
    requires |buffer| == NET_BUFFER_SIZE && Distinct(buffer + Arrivals(es)) && 0 < j < |buffer|
    requires es != [] && es[0].Arrive?
    ensures buffer[j] !in Taken(es, buffer)
  {
    hide Distinct;
    NotLater(buffer, Arrivals(es), j);
    assert buffer[j] !in buffer[..1];
    TakenFrom(es[1..], buffer[..1], buffer[j]);
  }

  /** An older message is never taken before a newer one of the buffer. */
  lemma {:induction false} OlderIsNotFirst(es: seq<Event>, buffer: seq<Msg>, i: nat, j: nat, p: nat, q: nat)
    requires |buffer| <= NET_BUFFER_SIZE && Distinct(buffer + Arrivals(es)) && i < j < |buffer|
    requires p < q < |Taken(es, buffer)|
    ensures !(Taken(es, buffer)[p] == buffer[i] && Taken(es, buffer)[q] == buffer[j])
  {
    hide Distinct;
    if es[0].Arrive? {
      var m := es[0].m;
      assert buffer + Arrivals(es) == buffer + [m] + Arrivals(es[1..]);
      if |buffer| < NET_BUFFER_SIZE {
        OlderIsNotFirst(es[1..], buffer + [m], i, j, p, q);
      } else {
        LostWhenFull(es, buffer, j);
      }
    } else {
      var rest := Pop(buffer);
      DistinctPart(buffer, Arrivals(es), |rest|);
      assert Arrivals(es) == [] + Arrivals(es[1..]) == Arrivals(es[1..]);
      NotLater(buffer, Arrivals(es), j);
      if j == |rest| {
        TakenFrom(es[1..], rest, buffer[j]);
      } else if p > 0 {
        OlderIsNotFirst(es[1..], rest, i, j, p - 1, q - 1);
      } else {
        NotLater(buffer, Arrivals(es), i);
      }
    }
  }

  lemma NotLater(s: seq<Msg>, t: seq<Msg>, j: nat)
    requires Distinct(s + t) && j < |s|
    ensures s[j] !in t && s[j] !in s[..j] && forall k :: 0 <= k < |s| && k != j ==> s[k] != s[j]
  {
    forall k | 0 <= k < |t| ensures t[k] != s[j] {
      assert (s + t)[j] == s[j] && (s + t)[|s| + k] == t[k];
    }
    forall k | 0 <= k < |s| && k != j ensures s[k] != s[j] {
      assert (s + t)[j] == s[j] && (s + t)[k] == s[k];
    }
  }

  lemma DistinctPart(s: seq<Msg>, t: seq<Msg>, n: nat)
    requires Distinct(s + t) && n <= |s|
    ensures Distinct(s[..n] + t)
  {
    forall i, j | 0 <= i < j < |s[..n] + t|
      ensures (s[..n] + t)[i] != (s[..n] + t)[j]
    {
      var i', j' := if i < n then i else i + |s| - n, if j < n then j else j + |s| - n;
      assert (s + t)[i'] == (s[..n] + t)[i] && (s + t)[j'] == (s[..n] + t)[j];
    }
  }

  /** Messages arrive one after the other. */
  function AllArrive(ms: seq<Msg>): seq<Event>
  {
    seq(|ms|, i requires 0 <= i < |ms| => Arrive(ms[i]))
  }

  lemma {:induction false} WaitTogether(ms: seq<Msg>, buffer: seq<Msg>, es: seq<Event>)
    requires |buffer| + |ms| <= NET_BUFFER_SIZE
    ensures Taken(AllArrive(ms) + es, buffer) == Taken(es, buffer + ms)
    decreases |ms|
  {
    if ms == [] {
      assert AllArrive(ms) + es == es && buffer + ms == buffer;
    } else {
      var all := AllArrive(ms) + es;
      assert all[0] == Arrive(ms[0]) && all[1..] == AllArrive(ms[1..]) + es;
      assert buffer + [ms[0]] + ms[1..] == buffer + ms;
      WaitTogether(ms[1..], buffer + [ms[0]], es);
    }
  }

  /** When 65 messages arrive before one is taken, only the oldest is ever taken. */
  lemma TooManyWait(ms: seq<Msg>)
    requires |ms| == 65
    ensures Taken(AllArrive(ms) + [Take, Take], []) == [ms[0]]
  {
    var first, last := ms[..64], [Arrive(ms[64]), Take, Take];
    assert AllArrive(ms) + [Take, Take] == AllArrive(first) + last;
    WaitTogether(first, [], last);
    assert [] + first == first;
    OldestLeft(first, ms[64]);
  }

  lemma OldestLeft(buffer: seq<Msg>, m: Msg)
    requires |buffer| == 64
    ensures Taken([Arrive(m), Take, Take], buffer) == [buffer[0]]
  {
    var es := [Arrive(m), Take, Take];
    assert es[1..] == [Take, Take] && es[1..][1..] == [Take] && [Take][1..] == [];
    assert buffer[..1] == [buffer[0]];
    assert Taken([], []) == [] && Taken([Take], []) == [] + [];
    assert Taken([Take, Take], [buffer[0]]) == [buffer[0]] + Taken([Take], []);
  }

  /** Different messages are taken in the order of their arrival, and all of them, exactly when the buffer is
      drained between arrivals. */
  lemma {:induction false} InOrderIffDrained(es: seq<Event>, buffer: seq<Msg>)
    requires |buffer| <= 1 && Distinct(buffer + Arrivals(es))
    ensures Taken(es, buffer) == buffer + Arrivals(es) <==> Drained(es, buffer)
  {
    if es == [] {
    } else if es[0].Take? {
      DistinctPart(buffer, Arrivals(es), 0);
      assert buffer[..0] + Arrivals(es) == Arrivals(es[1..]);
      assert Pop(buffer) == [] && [] + Arrivals(es[1..]) == Arrivals(es[1..]);
      InOrderIffDrained(es[1..], []);
      if buffer == [] {
        assert Taken(es, buffer) == Taken(es[1..], []);
      } else {
        assert Taken(es, buffer)[1..] == Taken(es[1..], []);
        assert (buffer + Arrivals(es))[1..] == Arrivals(es[1..]);
        assert Taken(es, buffer) == buffer + Taken(es[1..], []);
      }
    } else {
      var m := es[0].m;
      assert buffer + Arrivals(es) == buffer + [m] + Arrivals(es[1..]);
      if buffer == [] {
        assert buffer + [m] == [m];
        InOrderIffDrained(es[1..], [m]);
      } else if Taken(es, buffer) == buffer + Arrivals(es) {
        OlderIsNotFirst(es[1..], buffer + [m], 0, 1, 0, 1);
      }
    }
  }
}
