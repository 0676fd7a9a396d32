/** Writing bits: numbers with their least significant bit first, and bits packed into bytes. */
module BitWriter {
  import opened Bits
  import opened BitStream

  predicate AreBits(bs: seq<nat>)
  {
    forall i :: 0 <= i < |bs| ==> bs[i] < 2
  }

  /** The input has the bits bs at position p. */
  ghost predicate BitsAt(input: seq<byte>, p: nat, bs: seq<nat>)
  {
    forall i :: 0 <= i < |bs| ==> Bit(input, p + i) == bs[i]
  }

  lemma BitsSplit(input: seq<byte>, p: nat, s: seq<nat>, t: seq<nat>)
    requires BitsAt(input, p, s + t)
    ensures BitsAt(input, p, s) && BitsAt(input, p + |s|, t)
  {
    forall i | 0 <= i < |s| ensures Bit(input, p + i) == s[i] {
      assert (s + t)[i] == s[i];
    }
    forall i | 0 <= i < |t| ensures Bit(input, p + |s| + i) == t[i] {
      assert Bit(input, p + (|s| + i)) == (s + t)[|s| + i];
    }
  }

  /** An n-bit number, least significant bit first. */
  function Number(v: nat, n: nat): (r: seq<nat>)
    ensures |r| == n
  {
    if n == 0 then [] else [v % 2] + Number(v / 2, n - 1)
  }

  lemma {:induction false} NumberField(input: seq<byte>, p: nat, v: nat, n: nat)
    requires BitsAt(input, p, Number(v, n)) && v < Pow2(n)
    ensures Field(input, p, n) == v
    decreases n
  {
    if n > 0 {
      var bs := Number(v, n);
      BitsSplit(input, p, [v % 2], Number(v / 2, n - 1));
      assert Bit(input, p + 0) == [v % 2][0];
      NumberField(input, p + 1, v / 2, n - 1);
    }
  }

  lemma {:induction false} NumberIsBits(v: nat, n: nat)
    ensures AreBits(Number(v, n))
  {
    if n > 0 {
      NumberIsBits(v / 2, n - 1);
    }
  }

  lemma JoinedBits(s: seq<nat>, t: seq<nat>)
    requires AreBits(s) && AreBits(t)
    ensures AreBits(s + t)
  {
  }

  lemma NothingIsBits()
    ensures AreBits([])
  {
  }

  lemma ZerosAreBits(pad: seq<nat>)
    requires forall i :: 0 <= i < |pad| ==> pad[i] == 0
    ensures AreBits(pad)
  {
  }

  function Value(bs: seq<nat>): nat
  {
    if bs == [] then 0 else bs[0] + 2 * Value(bs[1..])
  }

  lemma {:induction false} ValueBits(bs: seq<nat>, i: nat)
    requires AreBits(bs)
    ensures Value(bs) < Pow2(|bs|)
    ensures i < |bs| ==> BitOf(Value(bs), i) == bs[i]
  {
    if bs != [] {
      ValueBits(bs[1..], if i > 0 then i - 1 else 0);
      assert Value(bs) / 2 == Value(bs[1..]);
    }
  }

  /** The bits packed into bytes, with zeros at the end. */
  function Packed(bs: seq<nat>): (r: seq<byte>)
    requires AreBits(bs)
    ensures |r| == (|bs| + 7) / 8
  {
    if bs == [] then []
    else
      var n := if |bs| < 8 then |bs| else 8;
      ValueBits(bs[..n], 0);
      Pow2Monotone(n, 8);
      Pow2Values();
      [Value(bs[..n])] + Packed(bs[n..])
  }

  lemma {:induction false} PackedBit(bs: seq<nat>, i: nat)
    requires AreBits(bs) && i < |bs|
    ensures i / 8 < |Packed(bs)| && BitOf(Packed(bs)[i / 8], i % 8) == bs[i]
  {
    hide AreBits, Value, BitOf;
    var n := if |bs| < 8 then |bs| else 8;
    PartsAreBits(bs, n);
    if i < n {
      ValueBits(bs[..n], i);
      assert i / 8 == 0 && i % 8 == i;
    } else {
      PackedBit(bs[n..], i - 8);
      assert i / 8 == (i - 8) / 8 + 1 && i % 8 == (i - 8) % 8;
      assert Packed(bs)[i / 8] == Packed(bs[n..])[(i - 8) / 8];
    }
  }

  lemma PartsAreBits(bs: seq<nat>, n: nat)
    requires AreBits(bs) && n <= |bs|
    ensures AreBits(bs[..n]) && AreBits(bs[n..])
  {
  }

  lemma PackedBitsAt(before: seq<byte>, bs: seq<nat>, extra: seq<byte>)
    requires AreBits(bs)
    ensures BitsAt(before + Packed(bs) + extra, 8 * |before|, bs)
  {
    var input := before + Packed(bs) + extra;
    forall i | 0 <= i < |bs|
      ensures Bit(input, 8 * |before| + i) == bs[i]
    {
      PackedBit(bs, i);
      assert (8 * |before| + i) / 8 == |before| + i / 8 && (8 * |before| + i) % 8 == i % 8;
      assert input[|before| + i / 8] == Packed(bs)[i / 8];
    }
  }
}
