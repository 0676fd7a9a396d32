/** The four channels of a compressed PSD image, given what an encoder has put into each of them. */
module PsdChannels {
  import opened Wrappers
  import opened Bits
  import opened BitStream
  import opened PsdRle

  /** The last packet holds data: no-op bytes behind it would be left to the next channel. */
  predicate EndsWithData(ps: seq<Packet>)
  {
    AllLegal(ps) && (ps == [] || ps[|ps| - 1] != NoOp)
  }

  lemma {:induction false} HasData(ps: seq<Packet>)
    requires EndsWithData(ps) && ps != []
    ensures |MeaningOf(ps)| > 0
  {
    if |ps| > 1 {
      HasData(ps[1..]);
    }
  }

  lemma Clipped(input: seq<byte>, pos: nat, m: nat, n: nat)
    requires pos <= |input|
    ensures Skip(input, Skip(input, pos, m), n) == Skip(input, pos, m + n) && Skip(input, pos, m) <= |input|
  {
  }

  /** Reading stops behind the packets. */
  lemma {:induction false} UnpackStops(input: seq<byte>, pos: nat, ps: seq<Packet>)
    requires EndsWithData(ps) && At(input, pos, EncodeAll(ps)) && pos <= |input|
    ensures Unpack(input, pos, |MeaningOf(ps)|) == Done(MeaningOf(ps), Skip(input, pos, |EncodeAll(ps)|))
    decreases |ps|
  {
    if ps != [] {
      hide Encode, Meaning, Unpack, At;
      var s, rest := Encode(ps[0]), ps[1..];
      HasData(ps);
      AtSplit(input, pos, s, EncodeAll(rest));
      AtClipped(input, pos, |s|, EncodeAll(rest));
      Clipped(input, pos, |s|, |EncodeAll(rest)|);
      UnpackStops(input, Skip(input, pos, |s|), rest);
      UnpackPacket(input, pos, ps[0], |MeaningOf(rest)|);
    } else {
      hide At;
    }
  }

  // ---- all channels ----

  /** Each plane of n bytes is written with packets that end with data. */
  predicate Planar(pss: seq<seq<Packet>>, n: nat)
  {
    forall i :: 0 <= i < |pss| ==> EndsWithData(pss[i]) && |MeaningOf(pss[i])| == n
  }

  function Encoded(pss: seq<seq<Packet>>, n: nat): seq<byte>
    requires Planar(pss, n)
  {
    if pss == [] then [] else EncodeAll(pss[0]) + Encoded(pss[1..], n)
  }

  /** The plane of channel c + i when packets pss have been written for the channels from c on: the data of a written
      one; 0 for a missing colour, 255 for a missing opacity. */
  predicate IsPlane(plane: seq<byte>, pss: seq<seq<Packet>>, c: nat, i: nat, n: nat)
  {
    if i < |pss| then plane == MeaningOf(pss[i])
    else |plane| == n && forall k :: 0 <= k < n ==> plane[k] == if c + i == 3 then 255 else 0
  }

  /** The planes from channel c on are as they should be. */
  ghost predicate Right(planes: Option<seq<seq<byte>>>, pss: seq<seq<Packet>>, c: nat, n: nat)
    requires c <= 4
  {
    planes.Some? && |planes.value| == 4 - c && forall i: nat :: i < 4 - c ==> IsPlane(planes.value[i], pss, c, i, n)
  }

  /** Decoding inverts packing, channel by channel, whatever stands behind the data; missing channels get defaults. */
  lemma {:induction false} PlanesInvertPacking(input: seq<byte>, pos: nat, pss: seq<seq<Packet>>, c: nat,
                                               channelCount: nat, n: nat)
    requires c <= 4 && Planar(pss, n) && At(input, pos, Encoded(pss, n)) && pos <= |input|
    requires |pss| == (if channelCount <= c then 0 else if channelCount <= 4 then channelCount - c else 4 - c)
    ensures Right(Planes(input, pos, c, channelCount, n), pss, c, n)
    decreases 4 - c
  {
    hide Planes, IsPlane, Unpack, At, EncodeAll, MeaningOf, EndsWithData;
    if c == 4 {
      NoPlanes(input, pos, channelCount, n);
    } else if c < channelCount {
      FirstPlane(input, pos, pss, n);
      var next := Skip(input, pos, |EncodeAll(pss[0])|);
      PlanesInvertPacking(input, next, pss[1..], c + 1, channelCount, n);
      PlaneWritten(input, pos, pss, c, channelCount, n, next);
    } else {
      PlanesInvertPacking(input, pos, pss, c + 1, channelCount, n);
      PlaneMissing(input, pos, pss, c, channelCount, n);
    }
  }

  lemma NoPlanes(input: seq<byte>, pos: nat, channelCount: nat, n: nat)
    ensures Planes(input, pos, 4, channelCount, n) == Some([])
  {
  }

  lemma PlaneWritten(input: seq<byte>, pos: nat, pss: seq<seq<Packet>>, c: nat, channelCount: nat, n: nat, next: nat)
    requires c < 4 && c < channelCount && pss != [] && Unpack(input, pos, n) == Done(MeaningOf(pss[0]), next)
    requires Right(Planes(input, next, c + 1, channelCount, n), pss[1..], c + 1, n)
    ensures Right(Planes(input, pos, c, channelCount, n), pss, c, n)
  {
    hide Unpack, MeaningOf;
    var rest := Planes(input, next, c + 1, channelCount, n).value;
    assert Planes(input, pos, c, channelCount, n) == Some([MeaningOf(pss[0])] + rest);
    hide Planes;
    forall i: nat | i < 4 - c
      ensures IsPlane(([MeaningOf(pss[0])] + rest)[i], pss, c, i, n)
    {
      if i > 0 {
        assert IsPlane(rest[i - 1], pss[1..], c + 1, i - 1, n);
      }
    }
  }

  lemma PlaneMissing(input: seq<byte>, pos: nat, pss: seq<seq<Packet>>, c: nat, channelCount: nat, n: nat)
    requires c < 4 && channelCount <= c && pss == [] && Right(Planes(input, pos, c + 1, channelCount, n), pss, c + 1, n)
    ensures Right(Planes(input, pos, c, channelCount, n), pss, c, n)
  {
    hide MeaningOf;
    var rest, plane := Planes(input, pos, c + 1, channelCount, n).value, Copies(n, if c == 3 then 255 else 0);
    assert Planes(input, pos, c, channelCount, n) == Some([plane] + rest);
    hide Planes;
    forall i: nat | i < 4 - c
      ensures IsPlane(([plane] + rest)[i], pss, c, i, n)
    {
      if i > 0 {
        assert IsPlane(rest[i - 1], pss, c + 1, i - 1, n);
      }
    }
  }

  lemma FirstPlane(input: seq<byte>, pos: nat, pss: seq<seq<Packet>>, n: nat)
    requires Planar(pss, n) && pss != [] && At(input, pos, Encoded(pss, n)) && pos <= |input|
    ensures AllLegal(pss[0]) && Planar(pss[1..], n)
    ensures var next := Skip(input, pos, |EncodeAll(pss[0])|);
      && next <= |input| && At(input, next, Encoded(pss[1..], n))
      && Unpack(input, pos, n) == Done(MeaningOf(pss[0]), next)
  {
    hide Unpack, At, EncodeAll, MeaningOf;
    AtSplit(input, pos, EncodeAll(pss[0]), Encoded(pss[1..], n));
    AtClipped(input, pos, |EncodeAll(pss[0])|, Encoded(pss[1..], n));
    Clipped(input, pos, |EncodeAll(pss[0])|, 0);
    UnpackStops(input, pos, pss[0]);
  }
}
