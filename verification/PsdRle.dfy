/** stbi__psd_decode_rle and the compressed branch of stbi__psd_load: PackBits (section 9 of TIFF 6.0). */
module PsdRle {
  import opened Wrappers
  import opened Bits
  import opened BitStream

  // ---- PackBits ----

  datatype Packet = Literal(bytes: seq<byte>) | Run(count: nat, value: byte) | NoOp

  predicate Legal(p: Packet)
  {
    match p
    case Literal(bytes) => 1 <= |bytes| <= 128
    case Run(count, _) => 2 <= count <= 128
    case NoOp => true
  }

  /** A packet as bytes: its signed length byte and what follows. */
  function Encode(p: Packet): seq<byte>
    requires Legal(p)
  {
    match p
    case Literal(bytes) => [|bytes| - 1] + bytes
    case Run(count, value) => [257 - count, value]
    case NoOp => [128]
  }

  function Copies(n: nat, v: byte): (r: seq<byte>)
    ensures |r| == n
  {
    seq<byte>(n, _ => v)
  }

  function Meaning(p: Packet): seq<byte>
  {
    match p
    case Literal(bytes) => bytes
    case Run(count, value) => Copies(count, value)
    case NoOp => []
  }

  predicate AllLegal(ps: seq<Packet>)
  {
    forall i :: 0 <= i < |ps| ==> Legal(ps[i])
  }

  function EncodeAll(ps: seq<Packet>): seq<byte>
    requires AllLegal(ps)
  {
    if ps == [] then [] else Encode(ps[0]) + EncodeAll(ps[1..])
  }

  function MeaningOf(ps: seq<Packet>): seq<byte>
  {
    if ps == [] then [] else Meaning(ps[0]) + MeaningOf(ps[1..])
  }

  /** The bytes s stand at pos, where bytes past the end of the input are 0. */
  ghost predicate At(input: seq<byte>, pos: nat, s: seq<byte>)
  {
    forall i :: 0 <= i < |s| ==> ByteAt(input, pos + i) == s[i]
  }

  lemma AtSplit(input: seq<byte>, pos: nat, s: seq<byte>, t: seq<byte>)
    ensures At(input, pos, s + t) <==> At(input, pos, s) && At(input, pos + |s|, t)
  {
    if At(input, pos, s + t) {
      forall i | 0 <= i < |s| ensures ByteAt(input, pos + i) == s[i] { assert (s + t)[i] == s[i]; }
      forall i | 0 <= i < |t| ensures ByteAt(input, pos + |s| + i) == t[i] { assert (s + t)[|s| + i] == t[i]; }
    }
    if At(input, pos, s) && At(input, pos + |s|, t) {
      forall i | 0 <= i < |s + t| ensures ByteAt(input, pos + i) == (s + t)[i] {
        if i >= |s| {
          assert ByteAt(input, pos + |s| + (i - |s|)) == t[i - |s|];
        }
      }
    }
  }

  // ---- what the decoder computes ----

  datatype Unpacked = Done(bytes: seq<byte>, pos: nat) | Corrupt

  function Stored(input: seq<byte>, pos: nat, n: nat): (r: seq<byte>)
    ensures |r| == n
  {
    seq<byte>(n, i requires 0 <= i < n => ByteAt(input, pos + i))
  }

  function Prepend(s: seq<byte>, u: Unpacked): Unpacked
  {
    match u
    case Done(bytes, pos) => Done(s + bytes, pos)
    case Corrupt => Corrupt
  }

  /** The next `left` bytes of unpacked data. */
  function Unpack(input: seq<byte>, pos: nat, left: nat): Unpacked
    decreases left, if pos < |input| then |input| - pos else 0
  {
    if left == 0 then Done([], pos)
    else
      var len := ByteAt(input, pos);
      var next := Next(input, pos);
      if len == 128 then Unpack(input, next, left)
      else if len < 128 then
        if len + 1 > left then Corrupt
        else Prepend(Stored(input, next, len + 1), Unpack(input, Skip(input, next, len + 1), left - (len + 1)))
      else if 257 - len > left then Corrupt
      else Prepend(Copies(257 - len, ByteAt(input, next)), Unpack(input, Next(input, next), left - (257 - len)))
  }

  lemma {:induction false} UnpackLength(input: seq<byte>, pos: nat, left: nat)
    ensures Unpack(input, pos, left).Done? ==> |Unpack(input, pos, left).bytes| == left
    decreases left, if pos < |input| then |input| - pos else 0
  {
    if left > 0 {
      var len := ByteAt(input, pos);
      var next := Next(input, pos);
      if len == 128 {
        UnpackLength(input, next, left);
      } else if len < 128 && len + 1 <= left {
        UnpackLength(input, Skip(input, next, len + 1), left - (len + 1));
      } else if len > 128 && 257 - len <= left {
        UnpackLength(input, Next(input, next), left - (257 - len));
      }
    }
  }

  /** Past the end of the input the position no longer matters. */
  lemma AtClipped(input: seq<byte>, pos: nat, n: nat, s: seq<byte>)
    ensures At(input, Skip(input, pos, n), s) <==> At(input, pos + n, s)
  {
    var clipped := Skip(input, pos, n);
    if At(input, clipped, s) {
      forall i | 0 <= i < |s| ensures ByteAt(input, pos + n + i) == s[i] {
        assert ByteAt(input, clipped + i) == s[i];
      }
    }
    if At(input, pos + n, s) {
      forall i | 0 <= i < |s| ensures ByteAt(input, clipped + i) == s[i] {
        assert ByteAt(input, pos + n + i) == s[i];
      }
    }
  }

  /** Unpacking inverts every encoding, whatever follows it in the input. */
  lemma {:induction false} UnpackInvertsPacking(input: seq<byte>, pos: nat, ps: seq<Packet>)
    requires AllLegal(ps) && At(input, pos, EncodeAll(ps))
    ensures Unpack(input, pos, |MeaningOf(ps)|).Done?
    ensures Unpack(input, pos, |MeaningOf(ps)|).bytes == MeaningOf(ps)
    decreases |ps|
  {
    if ps != [] {
      hide Encode, Meaning, Unpack, At;
      var s, rest := Encode(ps[0]), ps[1..];
      AtSplit(input, pos, s, EncodeAll(rest));
      AtClipped(input, pos, |s|, EncodeAll(rest));
      UnpackInvertsPacking(input, Skip(input, pos, |s|), rest);
      UnpackPacket(input, pos, ps[0], |MeaningOf(rest)|);
    }
  }

  lemma UnpackStep(input: seq<byte>, pos: nat, left: nat)
    requires left > 0
    ensures var len, next, u := ByteAt(input, pos), Next(input, pos), Unpack(input, pos, left);
      if len == 128 then u == Unpack(input, next, left)
      else if len < 128 then
        u == if len + 1 > left then Corrupt
             else Prepend(Stored(input, next, len + 1), Unpack(input, Skip(input, next, len + 1), left - (len + 1)))
      else
        u == if 257 - len > left then Corrupt
             else Prepend(Copies(257 - len, ByteAt(input, next)), Unpack(input, Next(input, next), left - (257 - len)))
  {
  }

  lemma UnpackPacket(input: seq<byte>, pos: nat, p: Packet, left: nat)
    requires Legal(p) && At(input, pos, Encode(p))
    ensures left + |Meaning(p)| > 0 ==>
      Unpack(input, pos, |Meaning(p)| + left)
      == Prepend(Meaning(p), Unpack(input, Skip(input, pos, |Encode(p)|), left))
  {
    hide Unpack, Prepend;
    var s := Encode(p);
    assert ByteAt(input, pos) == s[0];
    if left + |Meaning(p)| > 0 {
      UnpackStep(input, pos, left + |Meaning(p)|);
    }
    match p
    case NoOp =>
      PrependNothing(Unpack(input, Skip(input, pos, 1), left));
    case Run(count, value) =>
      assert ByteAt(input, pos + 1) == s[1];
    case Literal(bytes) =>
      LiteralStored(input, pos, bytes);
      StoredClipped(input, pos, |bytes|);
  }

  lemma LiteralStored(input: seq<byte>, pos: nat, bytes: seq<byte>)
    requires Legal(Literal(bytes)) && At(input, pos, Encode(Literal(bytes)))
    ensures Stored(input, pos + 1, |bytes|) == bytes
  {
    forall i | 0 <= i < |bytes| ensures ByteAt(input, pos + 1 + i) == bytes[i] {
      assert ByteAt(input, pos + (1 + i)) == Encode(Literal(bytes))[1 + i];
    }
  }

  lemma StoredClipped(input: seq<byte>, pos: nat, n: nat)
    ensures Stored(input, Next(input, pos), n) == Stored(input, pos + 1, n)
  {
    forall i | 0 <= i < n
      ensures Stored(input, Next(input, pos), n)[i] == Stored(input, pos + 1, n)[i]
    {
      assert ByteAt(input, Next(input, pos) + i) == ByteAt(input, pos + 1 + i);
    }
  }

  /** Whatever is unpacked is the meaning of the packets that stand in the input. */
  lemma {:induction false} UnpackReadsPackets(input: seq<byte>, pos: nat, left: nat) returns (ps: seq<Packet>)
    requires Unpack(input, pos, left).Done?
    ensures AllLegal(ps) && At(input, pos, EncodeAll(ps)) && MeaningOf(ps) == Unpack(input, pos, left).bytes
    ensures Unpack(input, pos, left).pos == if ps == [] then pos else Skip(input, pos, |EncodeAll(ps)|)
    decreases left, if pos < |input| then |input| - pos else 0
  {
    hide Unpack, PacketAt, Meaning, Encode, Legal, At;
    ps := [];
    if left == 0 {
      UnpackNothing(input, pos);
      NothingAt(input, pos);
    } else {
      var p := PacketAt(input, pos);
      var n := |Encode(p)|;
      PacketFits(input, pos, left);
      var rest := UnpackReadsPackets(input, Skip(input, pos, n), left - |Meaning(p)|);
      ps := [p] + rest;
      assert ps[1..] == rest;
      AtClipped(input, pos, n, EncodeAll(rest));
      AtSplit(input, pos, Encode(p), EncodeAll(rest));
    }
  }

  lemma NothingAt(input: seq<byte>, pos: nat)
    ensures At(input, pos, [])
  {
  }

  lemma PacketFits(input: seq<byte>, pos: nat, left: nat)
    requires left > 0 && Unpack(input, pos, left).Done?
    ensures var p := PacketAt(input, pos);
      |Meaning(p)| <= left
      && Unpack(input, pos, left)
        == Prepend(Meaning(p), Unpack(input, Skip(input, pos, |Encode(p)|), left - |Meaning(p)|))
      && (|Meaning(p)| > 0 || Skip(input, pos, |Encode(p)|) > pos)
  {
    UnpackPacket(input, pos, PacketAt(input, pos), left - |Meaning(PacketAt(input, pos))|);
  }

  function PacketAt(input: seq<byte>, pos: nat): (p: Packet)
    ensures Legal(p) && At(input, pos, Encode(p))
  {
    var len := ByteAt(input, pos);
    if len == 128 then NoOp
    else if len < 128 then
      var p := Literal(Stored(input, pos + 1, len + 1));
      assert forall i :: 0 <= i < |Encode(p)| ==> ByteAt(input, pos + i) == Encode(p)[i] by {
        forall i | 0 <= i < |Encode(p)| ensures ByteAt(input, pos + i) == Encode(p)[i] {
          if i > 0 {
            assert Encode(p)[i] == p.bytes[i - 1];
          }
        }
      }
      p
    else Run(257 - len, ByteAt(input, pos + 1))
  }

  // ---- the decoder ----

  /** What the decoder has written so far: the pixels before `count` in one channel, and nothing else. */
  ghost predicate Filled(before: seq<byte>, now: seq<byte>, channel: nat, count: nat, bytes: seq<byte>)
  {
    && |now| == |before| && count == |bytes| && 4 * count <= |now| && channel < 4
    && (forall i :: 0 <= i < count ==> now[channel + 4 * i] == bytes[i])
    && (forall j :: 0 <= j < |now| && (j % 4 != channel || 4 * count <= j) ==> now[j] == before[j])
  }

  lemma FillOne(before: seq<byte>, now: seq<byte>, channel: nat, count: nat, bytes: seq<byte>, v: byte)
    requires Filled(before, now, channel, count, bytes) && 4 * count + 4 <= |now|
    ensures Filled(before, now[channel + 4 * count := v], channel, count + 1, bytes + [v])
  {
  }

  /** `*p = v; p += 4`. */
  method Put(out: array<byte>, channel: nat, count: nat, v: byte, ghost before: seq<byte>, ghost bytes: seq<byte>)
    requires Filled(before, out[..], channel, count, bytes) && 4 * count + 4 <= out.Length
    modifies out
    ensures Filled(before, out[..], channel, count + 1, bytes + [v])
  {
    FillOne(before, out[..], channel, count, bytes, v);
    out[channel + 4 * count] := v;
    assert out[..] == old(out[..])[channel + 4 * count := v];
  }

  lemma StoredNext(input: seq<byte>, pos: nat, k: nat)
    ensures Stored(input, pos, k + 1) == Stored(input, pos, k) + [ByteAt(input, Skip(input, pos, k))]
  {
    assert Stored(input, pos, k + 1)[k] == ByteAt(input, pos + k);
  }

  /** The copying loop for a literal packet. */
  method CopyLiteral(input: seq<byte>, pos0: nat, out: array<byte>, channel: nat, count: nat, len: nat,
                     ghost before: seq<byte>, ghost bytes: seq<byte>)
    returns (pos: nat)
    requires Filled(before, out[..], channel, count, bytes) && 4 * (count + len) <= out.Length && pos0 <= |input|
    modifies out
    ensures Filled(before, out[..], channel, count + len, bytes + Stored(input, pos0, len))
    ensures pos == Skip(input, pos0, len)
  {
    hide Filled;
    pos := pos0;
    assert bytes + Stored(input, pos0, 0) == bytes;
    for k := 0 to len
      invariant Filled(before, out[..], channel, count + k, bytes + Stored(input, pos0, k))
      invariant pos == Skip(input, pos0, k)
    {
      Put(out, channel, count + k, ByteAt(input, pos), before, bytes + Stored(input, pos0, k));
      StoredNext(input, pos0, k);
      assert bytes + Stored(input, pos0, k + 1) == bytes + Stored(input, pos0, k) + [ByteAt(input, pos)];
      pos := Next(input, pos);
    }
  }

  /** The loop for a packet that repeats a byte. */
  method Replicate(val: byte, out: array<byte>, channel: nat, count: nat, len: nat,
                   ghost before: seq<byte>, ghost bytes: seq<byte>)
    requires Filled(before, out[..], channel, count, bytes) && 4 * (count + len) <= out.Length
    modifies out
    ensures Filled(before, out[..], channel, count + len, bytes + Copies(len, val))
  {
    hide Filled;
    assert bytes + Copies(0, val) == bytes;
    for k := 0 to len
      invariant Filled(before, out[..], channel, count + k, bytes + Copies(k, val))
    {
      Put(out, channel, count + k, val, before, bytes + Copies(k, val));
      assert bytes + Copies(k + 1, val) == bytes + Copies(k, val) + [val];
    }
  }

  lemma PrependTwice(s: seq<byte>, t: seq<byte>, u: Unpacked)
    ensures Prepend(s, Prepend(t, u)) == Prepend(s + t, u)
  {
    if u.Done? {
      assert s + (t + u.bytes) == s + t + u.bytes;
    }
  }

  lemma PrependNothing(u: Unpacked)
    ensures Prepend([], u) == u
  {
    if u.Done? {
      assert [] + u.bytes == u.bytes;
    }
  }

  lemma PrependToNothing(s: seq<byte>, pos: nat)
    ensures Prepend(s, Done([], pos)) == Done(s, pos)
  {
    assert s + [] == s;
  }

  lemma PrependFails(s: seq<byte>, u: Unpacked)
    ensures Prepend(s, u).Corrupt? <==> u.Corrupt?
  {
  }

  lemma UnpackNothing(input: seq<byte>, pos: nat)
    ensures Unpack(input, pos, 0) == Done([], pos)
  {
  }

  lemma NothingFilled(before: seq<byte>, channel: nat)
    requires channel < 4
    ensures Filled(before, before, channel, 0, [])
  {
  }

  lemma FilledFrame(before: seq<byte>, now: seq<byte>, channel: nat, count: nat, bytes: seq<byte>)
    requires Filled(before, now, channel, count, bytes)
    ensures |now| == |before| && 4 * count <= |now|
    ensures forall j :: 0 <= j < |now| && (j % 4 != channel || 4 * count <= j) ==> now[j] == before[j]
  {
  }

  /** stbi__psd_decode_rle: it fails exactly when a packet is too long for the pixels left; otherwise it fills
      pixelCount bytes, four apart, with the unpacked data.  It never touches another byte. */
  method DecodeRle(input: seq<byte>, pos0: nat, out: array<byte>, channel: nat, pixelCount: nat)
    returns (ok: bool, pos: nat)
    requires channel < 4 && 4 * pixelCount <= out.Length && pos0 <= |input|
    modifies out
    ensures pos <= |input|
    ensures ok <==> Unpack(input, pos0, pixelCount).Done?
    ensures ok ==> Filled(old(out[..]), out[..], channel, pixelCount, Unpack(input, pos0, pixelCount).bytes)
    ensures ok ==> pos == Unpack(input, pos0, pixelCount).pos
    ensures forall j :: 0 <= j < out.Length && (j % 4 != channel || 4 * pixelCount <= j) ==> out[j] == old(out[j])
  {
    hide Filled, Stored, Copies, Unpack, Prepend;
    pos := pos0;
    var count := 0;
    ghost var before, done := out[..], [];
    NothingFilled(before, channel);
    assert Prepend([], Unpack(input, pos0, pixelCount)) == Unpack(input, pos0, pixelCount) by {
      PrependNothing(Unpack(input, pos0, pixelCount));
    }
    while pixelCount - count > 0
      invariant count <= pixelCount && |done| == count && pos <= |input|
      invariant Unpack(input, pos0, pixelCount) == Prepend(done, Unpack(input, pos, pixelCount - count))
      invariant before == old(out[..]) && Filled(before, out[..], channel, count, done)
      decreases pixelCount - count, |input| - pos
    {
      var nleft := pixelCount - count;
      UnpackStep(input, pos, nleft);
      FilledFrame(before, out[..], channel, count, done);
      PrependFails(done, Unpack(input, pos, nleft));
      var len := ByteAt(input, pos);
      pos := Next(input, pos);
      if len == 128 {
      } else if len < 128 {
        len := len + 1;
        if len > nleft {
          ok := false;
          return;
        }
        PrependTwice(done, Stored(input, pos, len), Unpack(input, Skip(input, pos, len), nleft - len));
        ghost var more := Stored(input, pos, len);
        pos := CopyLiteral(input, pos, out, channel, count, len, before, done);
        done := done + more;
        count := count + len;
      } else {
        len := 257 - len;
        if len > nleft {
          ok := false;
          return;
        }
        var val := ByteAt(input, pos);
        pos := Next(input, pos);
        PrependTwice(done, Copies(len, val), Unpack(input, pos, nleft - len));
        Replicate(val, out, channel, count, len, before, done);
        done := done + Copies(len, val);
        count := count + len;
      }
    }
    ok := true;
    assert Unpack(input, pos, 0) == Done([], pos) by {
      UnpackNothing(input, pos);
    }
    assert Prepend(done, Done([], pos)) == Done(done, pos) by {
      PrependToNothing(done, pos);
    }
    FilledFrame(before, out[..], channel, count, done);
  }

  // ---- all channels ----

  /** The planes of the channels from c to 3: the stored ones are read in turn, the others are 0, or 255 for opacity. */
  function Planes(input: seq<byte>, pos: nat, c: nat, channelCount: nat, pixelCount: nat): (r: Option<seq<seq<byte>>>)
    requires c <= 4
    decreases 4 - c
  {
    if c == 4 then Some([])
    else if c >= channelCount then
      match Planes(input, pos, c + 1, channelCount, pixelCount)
      case None => None
      case Some(rest) => Some([Copies(pixelCount, if c == 3 then 255 else 0)] + rest)
    else
      match Unpack(input, pos, pixelCount)
      case Corrupt => None
      case Done(plane, next) =>
        match Planes(input, next, c + 1, channelCount, pixelCount)
        case None => None
        case Some(rest) => Some([plane] + rest)
  }

  /** The compressed branch of stbi__psd_load, after the row lengths have been skipped. */
  method LoadChannels(input: seq<byte>, pos0: nat, out: array<byte>, channelCount: nat, pixelCount: nat)
    returns (ok: bool)
    requires out.Length == 4 * pixelCount && pos0 <= |input|
    modifies out
    ensures ok <==> Planes(input, pos0, 0, channelCount, pixelCount).Some?
    ensures ok ==> |Planes(input, pos0, 0, channelCount, pixelCount).value| == 4
    ensures ok ==> forall c :: 0 <= c < 4 ==>
      Holds(out[..], c, pixelCount, Planes(input, pos0, 0, channelCount, pixelCount).value[c])
  {
    ok := true;
    var pos: nat := pos0;
    ghost var planes: seq<seq<byte>> := [];
    hide Planes, Unpack, Filled;
    PlanesSplit(input, pos0, 0, channelCount, pixelCount);
    for channel := 0 to 4
      invariant pos <= |input| && ok && |planes| == channel
      invariant Joined(planes, Planes(input, pos, channel, channelCount, pixelCount))
             == Planes(input, pos0, 0, channelCount, pixelCount)
      invariant forall c :: 0 <= c < channel ==> Holds(out[..], c, pixelCount, planes[c])
    {
      ghost var before := out[..];
      PlanesSplit(input, pos, channel, channelCount, pixelCount);
      ghost var plane: seq<byte>;
      if channel >= channelCount {
        var value: byte := if channel == 3 then 255 else 0;
        NothingFilled(out[..], channel);
        Replicate(value, out, channel, 0, pixelCount, before, []);
        plane := Copies(pixelCount, value);
        assert [] + plane == plane;
      } else {
        plane := if Unpack(input, pos, pixelCount).Done? then Unpack(input, pos, pixelCount).bytes else [];
        ok, pos := DecodeRle(input, pos, out, channel, pixelCount);
        if !ok {
          JoinedFails(planes);
          return;
        }
      }
      forall c | 0 <= c <= channel
        ensures Holds(out[..], c, pixelCount, (planes + [plane])[c])
      {
        HoldsAfter(before, out[..], channel, pixelCount, plane, c, (planes + [plane])[c]);
      }
      JoinedMore(planes, plane, Planes(input, pos, channel + 1, channelCount, pixelCount));
      planes := planes + [plane];
    }
    PlanesSplit(input, pos, 4, channelCount, pixelCount);
    assert planes + [] == planes;
  }

  /** Channel `channel` of the image is the plane. */
  ghost predicate Holds(out: seq<byte>, channel: nat, count: nat, plane: seq<byte>)
  {
    |out| == 4 * count && |plane| == count && channel < 4
    && forall i :: 0 <= i < count ==> out[channel + 4 * i] == plane[i]
  }

  /** Filling one channel leaves the others as they are. */
  lemma HoldsAfter(before: seq<byte>, now: seq<byte>, channel: nat, count: nat, plane: seq<byte>, c: nat, p: seq<byte>)
    requires Filled(before, now, channel, count, plane) && |now| == 4 * count && c <= channel
    requires if c == channel then p == plane else Holds(before, c, count, p)
    ensures Holds(now, c, count, p)
  {
    forall i | 0 <= i < count
      ensures now[c + 4 * i] == p[i]
    {
      assert (c + 4 * i) % 4 == c;
      assert c < channel ==> before[c + 4 * i] == p[i];
    }
  }

  function Joined(planes: seq<seq<byte>>, rest: Option<seq<seq<byte>>>): Option<seq<seq<byte>>>
  {
    match rest
    case None => None
    case Some(more) => Some(planes + more)
  }

  lemma JoinedFails(planes: seq<seq<byte>>)
    ensures Joined(planes, None) == None
  {
  }

  lemma JoinedMore(planes: seq<seq<byte>>, plane: seq<byte>, rest: Option<seq<seq<byte>>>)
    ensures Joined(planes, Joined([plane], rest)) == Joined(planes + [plane], rest)
  {
    if rest.Some? {
      assert planes + ([plane] + rest.value) == planes + [plane] + rest.value;
    }
  }

  lemma PlanesSplit(input: seq<byte>, pos: nat, c: nat, channelCount: nat, pixelCount: nat)
    requires c <= 4
    ensures c == 4 ==> Planes(input, pos, c, channelCount, pixelCount) == Some([])
    ensures c == 0 ==>
      Joined([], Planes(input, pos, c, channelCount, pixelCount)) == Planes(input, pos, c, channelCount, pixelCount)
    ensures channelCount <= c < 4 ==>
      Planes(input, pos, c, channelCount, pixelCount)
      == Joined([Copies(pixelCount, if c == 3 then 255 else 0)], Planes(input, pos, c + 1, channelCount, pixelCount))
    ensures c < 4 && c < channelCount ==>
      Planes(input, pos, c, channelCount, pixelCount)
      == match Unpack(input, pos, pixelCount)
         case Corrupt => None
         case Done(plane, next) => Joined([plane], Planes(input, next, c + 1, channelCount, pixelCount))
  {
    if c == 0 && Planes(input, pos, c, channelCount, pixelCount).Some? {
      assert [] + Planes(input, pos, c, channelCount, pixelCount).value
        == Planes(input, pos, c, channelCount, pixelCount).value;
    }
  }
}
