/** stbi__zbuf: the DEFLATE decoder.  A 32-bit reservoir holds the next bits of the input, lowest bit
    first; past the end of the input it is fed with zero bytes, and once with 16 zero bits. */
module ZBuf {
  import opened Wrappers
  import opened Bits
  import opened BitStream
  import opened Canonical
  import opened ZHuffman
  import opened Rfc1951
  import opened ZSupply

  datatype Status = Failed | Done | Continue

  const LENGTH_BASE: seq<nat> := [
    3, 4, 5, 6, 7, 8, 9, 10, 11, 13,
    15, 17, 19, 23, 27, 31, 35, 43, 51, 59,
    67, 83, 99, 115, 131, 163, 195, 227, 258, 0, 0]

  const LENGTH_EXTRA: seq<nat> := [
    0, 0, 0, 0, 0, 0, 0, 0, 1, 1, 1, 1, 2, 2, 2, 2, 3, 3, 3, 3, 4, 4, 4, 4, 5, 5, 5, 5, 0, 0, 0]

  const DIST_BASE: seq<nat> := [
    1, 2, 3, 4, 5, 7, 9, 13, 17, 25, 33, 49, 65, 97, 129, 193,
    257, 385, 513, 769, 1025, 1537, 2049, 3073, 4097, 6145, 8193, 12289, 16385, 24577, 0, 0]

  const DIST_EXTRA: seq<nat> := [
    0, 0, 0, 0, 1, 1, 2, 2, 3, 3, 4, 4, 5, 5, 6, 6, 7, 7, 8, 8, 9, 9, 10, 10, 11, 11, 12, 12, 13, 13, 0, 0]

  const DEFAULT_LENGTH: seq<nat> := seq(144, _ => 8) + seq(112, _ => 9) + seq(24, _ => 7) + seq(8, _ => 8)
  const DEFAULT_DISTANCE: seq<nat> := seq(32, _ => 5)

  lemma FixedTables()
    ensures DEFAULT_LENGTH == FixedLit() && DEFAULT_DISTANCE == FixedDist()
    ensures Lengths(DEFAULT_LENGTH) && Lengths(DEFAULT_DISTANCE)
  {
  }

  const DEZIGZAG: seq<nat> := [16, 17, 18, 0, 8, 7, 9, 6, 10, 5, 11, 4, 12, 3, 13, 2, 14, 1, 15]

  /** The order of the code length code lengths. */
  lemma Ranks(i: nat)
    requires i < 19
    ensures DEZIGZAG[i] < 19 && Rank(DEZIGZAG[i]) == i
    ensures forall s: nat :: s < 19 && Rank(s) == i ==> s == DEZIGZAG[i]
  {
  }

  lemma SmallPow2()
    ensures Pow2(0) == 1 && Pow2(1) == 2 && Pow2(2) == 4 && Pow2(3) == 8 && Pow2(4) == 16 && Pow2(5) == 32
    ensures Pow2(6) == 64
    ensures Pow2(7) == 128 && Pow2(8) == 256 && Pow2(9) == 512 && Pow2(10) == 1024 && Pow2(11) == 2048
    ensures Pow2(12) == 4096 && Pow2(13) == 8192
  {
    assert Pow2(6) == 64;
  }

  lemma LengthExtraTable(sym: nat)
    requires 257 <= sym <= 285
    ensures LENGTH_EXTRA[sym - 257] == LengthExtra(sym) <= 5
  {
  }

  lemma LengthBaseBound(k: nat)
    requires k <= 28
    ensures LENGTH_BASE[k] <= 258 && Pow2(5) == 32
  {
  }

  lemma LengthBaseStep(k: nat)
    requires k < 27
    ensures LENGTH_BASE[k + 1] == LENGTH_BASE[k] + Pow2(LENGTH_EXTRA[k])
  {
    SmallPow2();
  }

  /** The tables agree with section 3.2.5. */
  lemma {:induction false} LengthTables(sym: nat)
    requires 257 <= sym <= 285
    ensures LENGTH_BASE[sym - 257] == LengthBase(sym) && LENGTH_EXTRA[sym - 257] == LengthExtra(sym) <= 5
  {
    LengthExtraTable(sym);
    if 257 < sym < 285 {
      hide LengthExtra;
      LengthTables(sym - 1);
      LengthBaseStep(sym - 258);
    }
  }

  lemma DistExtraTable(d: nat)
    requires d < 30
    ensures DIST_EXTRA[d] == DistExtra(d) <= 13
  {
  }

  lemma DistBaseStep(k: nat)
    requires k < 29
    ensures DIST_BASE[k + 1] == DIST_BASE[k] + Pow2(DIST_EXTRA[k])
  {
    SmallPow2();
  }

  lemma {:induction false} DistTables(d: nat)
    requires d < 30
    ensures DIST_BASE[d] == DistBase(d) && DIST_EXTRA[d] == DistExtra(d) <= 13
  {
    DistExtraTable(d);
    if d > 0 {
      hide DistExtra;
      DistTables(d - 1);
      DistBaseStep(d - 1);
    }
  }

  const UINT_MAX: nat := 0xFFFF_FFFF

  /** Where doubling a capacity stops. */
  function MaxCapacity(capacity: nat): (r: nat)
    requires 0 < capacity
    ensures capacity <= r
    decreases if capacity <= UINT_MAX then UINT_MAX - capacity else 0
  {
    if capacity > UINT_MAX / 2 then capacity else MaxCapacity(2 * capacity)
  }

  lemma {:induction false} MaxCapacityBound(capacity: nat)
    requires 0 < capacity <= UINT_MAX
    ensures UINT_MAX / 2 < MaxCapacity(capacity) <= UINT_MAX
    decreases UINT_MAX - capacity
  {
    if capacity <= UINT_MAX / 2 {
      MaxCapacityBound(2 * capacity);
    }
  }

  /** A capacity after k rounds of the loop in stbi__zexpand. */
  function Doubled(capacity: nat, k: nat): nat
    decreases k
  {
    if k == 0 then capacity else Doubled(2 * capacity, k - 1)
  }

  /** A round in which that loop stops: there is room for `need` bytes, or no further doubling is possible. */
  ghost predicate Stops(capacity: nat, need: nat, k: nat)
  {
    need <= Doubled(capacity, k) || UINT_MAX / 2 < Doubled(capacity, k)
  }

  lemma {:induction false} DoubledIs(capacity: nat, k: nat)
    ensures Doubled(capacity, k) == capacity * Pow2(k)
    decreases k
  {
    if k > 0 {
      DoubledIs(2 * capacity, k - 1);
      assert 2 * capacity * Pow2(k - 1) == capacity * (2 * Pow2(k - 1));
    }
  }

  /** The loop ends if and only if it starts with a positive capacity, or nothing is needed. */
  lemma DoublingEnds(capacity: nat, need: nat)
    ensures (exists k: nat :: Stops(capacity, need, k)) <==> 0 < capacity || need == 0
  {
    if capacity == 0 {
      forall k: nat
        ensures Doubled(0, k) == 0
      {
        DoubledIs(0, k);
      }
      if need == 0 {
        assert Stops(0, 0, 0);
      }
    } else {
      DoubledIs(capacity, 32);
      Pow2Values();
      assert Stops(capacity, need, 32);
    }
  }

  class Inflater {
    const input: seq<byte>
    var pos: nat
    var numBits: int
    var hitZeofOnce: bool
    var codeBuffer: nat

    /** All bytes ever put into the reservoir, including the zeros past the end. */
    ghost var fed: nat

    /** How many of them are zero bytes that Zget8 returned past the end. */
    ghost var padded: nat

    ghost predicate ReaderOk()
      reads this`pos, this`numBits, this`hitZeofOnce, this`codeBuffer, this`fed, this`padded
    {
      && pos <= |input| && 0 <= numBits <= 32 && numBits <= 8 * fed
      && fed == pos + padded + (if hitZeofOnce then 2 else 0)
      && (pos < |input| ==> padded == 0 && !hitZeofOnce)
      && codeBuffer == Field(input, 8 * fed - numBits, numBits)
    }

    /** The position of the next bit to be used. */
    ghost function P(): nat
      requires numBits <= 8 * fed
      reads this`numBits, this`fed, this`padded
    {
      8 * fed - numBits
    }

    /** What the reservoir has been given. */
    ghost function Sup(): Supply
      reads this`fed, this`hitZeofOnce
    {
      Supply(fed, hitZeofOnce)
    }

    predicate Zeof()
      reads this`pos
    {
      pos >= |input|
    }

    method Zget8() returns (b: byte)
      requires pos <= |input|
      modifies this`pos
      ensures b == ByteAt(input, old(pos))
      ensures pos == if old(pos) < |input| then old(pos) + 1 else old(pos)
    {
      if Zeof() {
        b := 0;
      } else {
        b := input[pos];
        pos := pos + 1;
      }
    }

    /** The guard against stray bits above numBits never fires. */
    method FillBits()
      requires ReaderOk() && numBits <= 24
      modifies this`pos, this`numBits, this`codeBuffer, this`fed, this`padded
      ensures ReaderOk() && 24 < numBits && P() == old(P())
      ensures fed == old(P()) / 8 + 4
    {
      var more := true;
      while more
        invariant ReaderOk() && P() == old(P())
        invariant if more then numBits <= 24 else 24 < numBits
        decreases 40 - numBits
      {
        FieldBound(input, P(), numBits);
        if codeBuffer >= U32(Shl(1, numBits)) {
          OneShifted(numBits);
          assert false;
        }
        FeedByte();
        more := numBits <= 24;
      }
    }

    method FeedByte()
      requires ReaderOk() && numBits <= 24
      modifies this`pos, this`numBits, this`codeBuffer, this`fed, this`padded
      ensures ReaderOk() && numBits == old(numBits) + 8 && P() == old(P())
    {
      var b := Zget8();
      codeBuffer := AddByte(input, P(), fed, codeBuffer, numBits, b);
      numBits := numBits + 8;
      fed, padded := fed + 1, padded + 1 - (pos - old(pos));
    }

    /** The next n bits, lowest first. */
    method Zreceive(n: nat) returns (k: nat)
      requires ReaderOk() && n <= 16
      modifies this`pos, this`numBits, this`codeBuffer, this`fed, this`padded
      ensures ReaderOk() && P() == old(P()) + n && k == Field(input, old(P()), n) < Pow2(n)
      ensures Sup() == AtBits(old(P()), n, old(Sup()))
    {
      hide Shr, Low, Pow2, And, Field;
      if numBits < n {
        FillBits();
      }
      AndMask(codeBuffer, n);
      FieldLow(input, P(), numBits, n);
      FieldBound(input, P(), n);
      k := And(codeBuffer, Pow2(n) - 1);
      Drop(n);
    }

    method Drop(n: nat)
      requires ReaderOk() && n <= numBits
      modifies this`numBits, this`codeBuffer
      ensures ReaderOk() && P() == old(P()) + n && numBits == old(numBits) - n
    {
      FieldShr(input, P(), numBits, n);
      codeBuffer := Shr(codeBuffer, n);
      numBits := numBits - n;
    }

    // ---- symbols ----

    /** stbi__zhuffman_decode_slowpath: its two checks for corrupt tables never fire. */
    method DecodeSlowPath(z: Huffman, ghost lens: seq<nat>) returns (r: int)
      requires z.Decodes(lens) && ReaderOk() && 16 <= numBits
      requires Low(codeBuffer, FAST_BITS) < 512 && z.fast[Low(codeBuffer, FAST_BITS)] == 0
      modifies this`numBits, this`codeBuffer
      ensures ReaderOk() && Decoded(input, old(P()), lens, r, P())
    {
      hide Field, Low, Shr, Rev, Base;
      FastMiss(lens, codeBuffer);
      WindowOfBuffer(input, P(), numBits, codeBuffer);
      BitReverseCorrect(codeBuffer, 16);
      CodeAtBound(input, P(), 16);
      Pow2Values();
      var k := BitReverse(codeBuffer, 16);
      var s := FindSize(z, lens, k);
      if s >= 16 {
        NoSymbol(input, P(), lens);
        return -1;
      }
      r := IndexedSymbol(z, lens, k, s);
      SymbolFound(input, P(), lens, r);
      Drop(s);
    }

    /** The size of the code that the window k begins with, or 16. */
    static method FindSize(z: Huffman, ghost lens: seq<nat>, k: nat) returns (s: nat)
      requires z.Decodes(lens) && Base(lens, FAST_BITS + 1) <= k < 0x1_0000
      ensures FAST_BITS + 1 <= s <= 16 && Base(lens, s) <= k && (s < 16 ==> k < Base(lens, s + 1))
    {
      s := FAST_BITS + 1;
      while k >= z.maxcode[s]
        invariant FAST_BITS + 1 <= s <= 16 && Base(lens, s) <= k
        decreases 16 - s
      {
        s := s + 1;
      }
    }

    /** The symbol whose code of size s begins the window k. */
    static method IndexedSymbol(z: Huffman, ghost lens: seq<nat>, k: nat, s: nat) returns (r: nat)
      requires z.Decodes(lens) && 1 <= s <= 15 && Base(lens, s) <= k < Base(lens, s + 1)
      ensures Prefixes(lens, r, k) && lens[r] == s
    {
      hide Shr, Base;
      ghost var sym := SlowHit(lens, k, s);
      var b := Shr(k, 16 - s) - z.firstcode[s] + z.firstsymbol[s];
      if b >= NSYMS {
        assert false;
      }
      if z.size[b] != s {
        assert false;
      }
      return z.value[b];
    }

    /** stbi__zhuffman_decode: the symbol whose code comes next; -1 if there is none or the input ran out. */
    method HuffmanDecode(z: Huffman, ghost lens: seq<nat>) returns (r: int)
      requires z.Decodes(lens) && ReaderOk()
      modifies this`pos, this`numBits, this`codeBuffer, this`hitZeofOnce, this`fed, this`padded
      ensures ReaderOk()
      ensures match AtSymbol(|input|, old(P()), old(Sup()))
              case None => r == -1 && P() == old(P())
              case Some(s) => Decoded(input, old(P()), lens, r, P()) && Sup() == s
    {
      hide Huffman.Tables, Field, Decoded;
      assert this !in z.Repr();
      var ready := Refill();
      if !ready {
        return -1;
      }
      r := DecodeBuffered(z, lens);
    }

    /** The 9-bit table first, then the slow path. */
    method DecodeBuffered(z: Huffman, ghost lens: seq<nat>) returns (r: int)
      requires z.Decodes(lens) && ReaderOk() && 16 <= numBits
      modifies this`numBits, this`codeBuffer
      ensures ReaderOk() && Decoded(input, old(P()), lens, r, P())
    {
      hide Field, Rev, Low, Shr, And;
      SmallPow2();
      AndMask(codeBuffer, FAST_BITS);
      LowBound(codeBuffer, FAST_BITS);
      var b := z.fast[And(codeBuffer, Pow2(FAST_BITS) - 1)];
      if b != 0 {
        FastSymbol(input, P(), numBits, codeBuffer, lens, b);
        var s := Shr(b, 9);
        Drop(s);
        return And(b, 511);
      }
      r := DecodeSlowPath(z, lens);
    }

    /** At least 16 bits for speculative decoding, unless the padding is used up. */
    method Refill() returns (ok: bool)
      requires ReaderOk()
      modifies this`pos, this`numBits, this`codeBuffer, this`hitZeofOnce, this`fed, this`padded
      ensures ReaderOk() && P() == old(P())
      ensures if ok then 16 <= numBits && AtSymbol(|input|, old(P()), old(Sup())) == Some(Sup())
              else AtSymbol(|input|, old(P()), old(Sup())) == None && 8 * |input| < P()
    {
      if numBits < 16 {
        if Zeof() {
          if !hitZeofOnce {
            PadZeros();
          } else {
            return false;
          }
        } else {
          FillBits();
        }
      }
      return true;
    }

    /** Sixteen implicit zero bits, once. */
    method PadZeros()
      requires ReaderOk() && numBits < 16 && pos == |input| && !hitZeofOnce
      modifies this`numBits, this`hitZeofOnce, this`fed, this`padded
      ensures ReaderOk() && 16 <= numBits && P() == old(P()) && Sup() == Supply(old(fed) + 2, true)
    {
      FieldSplit(input, P(), numBits, 16);
      FieldPastEnd(input, 8 * fed, 16);
      ShlIsPow2(numBits);
      hitZeofOnce := true;
      numBits := numBits + 16;
      fed := fed + 2;
    }

    // ---- output ----

    var out: array<byte>
    var zout: nat
    const expandable: bool

    ghost predicate OutputOk()
      reads this`out, this`zout
    {
      zout <= out.Length <= UINT_MAX && (expandable ==> 0 < out.Length)
    }

    /** The bytes between zout_start and zout. */
    ghost function Contents(): seq<byte>
      requires OutputOk()
      reads this`out, this`zout, out
    {
      out[..zout]
    }

    /** The largest output the buffer can grow to. */
    ghost function Ceiling(): (r: nat)
      requires expandable ==> 0 < out.Length
      reads this`out
      ensures out.Length <= r
    {
      if expandable then MaxCapacity(out.Length) else out.Length
    }

    /** stbi__zexpand: makes room for n bytes after zo by doubling, or fails if no doubling can. */
    method Zexpand(zo: nat, n: nat) returns (ok: bool)
      requires zo <= out.Length <= UINT_MAX && n <= UINT_MAX && (expandable ==> 0 < out.Length)
      modifies this`out, this`zout
      ensures OutputOk() && zout == zo && Ceiling() == old(Ceiling())
      ensures ok <==> expandable && zo + n <= old(Ceiling())
      ensures if ok then fresh(out) && zo + n <= out.Length && out[..zo] == old(out[..zo]) else out == old(out)
    {
      zout := zo;
      if !expandable {
        return false;
      }
      var cur, limit := zout, out.Length;
      MaxCapacityBound(limit);
      if UINT_MAX - cur < n {
        return false;
      }
      while cur + n > limit
        invariant 0 < limit && out.Length <= limit <= UINT_MAX && MaxCapacity(limit) == old(Ceiling())
        decreases UINT_MAX - limit
      {
        if limit > UINT_MAX / 2 {
          return false;
        }
        limit := limit * 2;
      }
      var q := new byte[limit];
      forall i | 0 <= i < out.Length {
        q[i] := out[i];
      }
      assert q[..zo] == out[..zo];
      out := q;
      return true;
    }

    // ---- compressed blocks ----

    const zLength: Huffman
    const zDistance: Huffman

    ghost predicate Apart()
      reads this`out
    {
      && zLength.Shape() && zDistance.Shape() && zLength.Repr() !! zDistance.Repr()
      && out !in zLength.Repr() && out !in zDistance.Repr()
    }

    ghost predicate CodesOk(lit: seq<nat>, dist: seq<nat>)
      reads zLength.Repr(), zDistance.Repr()
    {
      zLength.Decodes(lit) && zDistance.Decodes(dist)
    }

    /** Appends one byte at zo, growing the buffer if it is full. */
    method PutByte(zo: nat, v: byte) returns (ok: bool)
      requires zo <= out.Length <= UINT_MAX && (expandable ==> 0 < out.Length)
      modifies this`out, this`zout, out
      ensures out.Length <= UINT_MAX && (expandable ==> 0 < out.Length) && Ceiling() == old(Ceiling())
      ensures out == old(out) || fresh(out)
      ensures if ok then zo < out.Length && out[..zo + 1] == old(out[..zo]) + [v] else old(Ceiling()) < zo + 1
    {
      if zo >= out.Length {
        ok := Zexpand(zo, 1);
        if !ok {
          return;
        }
      }
      out[zo] := v;
      return true;
    }

    /** Copies len bytes from dist bytes back, one by one, so that a copy can overlap its own source. */
    method CopyBytes(zo: nat, len: nat, dist: nat)
      requires 1 <= dist <= zo && zo + len <= out.Length
      modifies out
      ensures out[..zo + len] == CopyMatch(old(out[..zo]), len, dist)
    {
      if dist == 1 {
        RepeatByte(zo, len);
      } else {
        CopyEach(zo, len, dist);
      }
    }

    /** The loop for a distance of 1. */
    method RepeatByte(zo: nat, len: nat)
      requires 1 <= zo && zo + len <= out.Length
      modifies out
      ensures out[..zo + len] == CopyMatch(old(out[..zo]), len, 1)
    {
      var n, z := len, zo;
      var v := out[zo - 1];
      while n > 0
        invariant 0 <= n && z + n == zo + len && zo <= z && out[z - 1] == v
        invariant CopyMatch(old(out[..zo]), len, 1) == CopyMatch(out[..z], n, 1)
      {
        ghost var before := out[..z];
        out[z] := v;
        z, n := z + 1, n - 1;
        assert out[..z] == before + [v];
      }
    }

    /** The general loop. */
    method CopyEach(zo: nat, len: nat, dist: nat)
      requires 1 <= dist <= zo && zo + len <= out.Length
      modifies out
      ensures out[..zo + len] == CopyMatch(old(out[..zo]), len, dist)
    {
      var n, z := len, zo;
      var p := zo - dist;
      while n > 0
        invariant 0 <= n && z + n == zo + len && zo <= z && p == z - dist
        invariant CopyMatch(old(out[..zo]), len, dist) == CopyMatch(out[..z], n, dist)
      {
        ghost var before := out[..z];
        out[z] := out[p];
        z, p, n := z + 1, p + 1, n - 1;
        assert out[..z] == before + [before[z - 1 - dist]];
      }
    }

    /** Makes room for a match and copies it. */
    method PutMatch(zo: nat, len: nat, dist: nat) returns (ok: bool)
      requires zo <= out.Length <= UINT_MAX && len <= UINT_MAX && (expandable ==> 0 < out.Length)
      requires 1 <= dist <= zo
      modifies this`out, this`zout, out
      ensures out.Length <= UINT_MAX && (expandable ==> 0 < out.Length) && Ceiling() == old(Ceiling())
      ensures out == old(out) || fresh(out)
      ensures if ok then zo + len <= out.Length && out[..zo + len] == CopyMatch(old(out[..zo]), len, dist)
              else old(Ceiling()) < zo + len
    {
      if len > out.Length - zo {
        ok := Zexpand(zo, len);
        if !ok {
          return;
        }
      }
      CopyBytes(zo, len, dist);
      return true;
    }

    /** One item of a compressed block: a literal, a match or the end of the block. */
    method ParseItem(zo: nat, ghost lit: seq<nat>, ghost dist: seq<nat>) returns (status: Status, zn: nat)
      requires ReaderOk() && Apart() && CodesOk(lit, dist)
      requires zo <= out.Length <= UINT_MAX && (expandable ==> 0 < out.Length)
      modifies this, out
      ensures ReaderOk() && Apart() && CodesOk(lit, dist) && (out == old(out) || fresh(out))
      ensures out.Length <= UINT_MAX && (expandable ==> 0 < out.Length) && Ceiling() == old(Ceiling())
      ensures status != Failed ==> zn <= out.Length
      ensures status == Continue ==>
        NextItem(input, old(P()), old(out[..zo]), lit, dist) == More(out[..zn], P()) && zo < zn
      ensures status == Done ==> NextItem(input, old(P()), old(out[..zo]), lit, dist) == EndOfBlock(P())
      ensures status == Done ==> zout == zn == zo && out[..zo] == old(out[..zo]) && EndsWell(P(), Sup())
      ensures status != Failed ==> ItemSupply(input, old(P()), lit, dist, old(Sup())) == Some(Sup())
      ensures status == Failed ==>
                Rejected(NextItem(input, old(P()), old(out[..zo]), lit, dist),
                         ItemSupply(input, old(P()), lit, dist, old(Sup())), old(Ceiling()))
    {
      hide Huffman.Tables, Field, SymbolItem, SymbolSupply, AtSymbol, EndsWell, Rejected, Symbol;
      ghost var p, s, o := P(), Sup(), out[..zo];
      assert this !in zLength.Repr() && this !in zDistance.Repr();
      var z := HuffmanDecode(zLength, lit);
      ItemSplit(input, p, o, lit, dist, s);
      if z < 0 {
        RejectedItem(input, p, o, lit, dist, s, Ceiling());
        return Failed, zo;
      }
      status, zn := ParseSymbol(z, zo, dist);
    }

    method ParseSymbol(z: nat, zo: nat, ghost dist: seq<nat>) returns (status: Status, zn: nat)
      requires ReaderOk() && Apart() && zDistance.Decodes(dist)
      requires zo <= out.Length <= UINT_MAX && (expandable ==> 0 < out.Length)
      modifies this, out
      ensures ReaderOk() && Apart() && (out == old(out) || fresh(out))
      ensures out.Length <= UINT_MAX && (expandable ==> 0 < out.Length) && Ceiling() == old(Ceiling())
      ensures status != Failed ==> zn <= out.Length
      ensures status == Continue ==>
        SymbolItem(input, old(P()), z, old(out[..zo]), dist) == More(out[..zn], P()) && zo < zn
      ensures status == Done ==> SymbolItem(input, old(P()), z, old(out[..zo]), dist) == EndOfBlock(P())
      ensures status == Done ==> zout == zn == zo && out[..zo] == old(out[..zo]) && EndsWell(P(), Sup())
      ensures status != Failed ==> SymbolSupply(input, old(P()), z, dist, old(Sup())) == Some(Sup())
      ensures status == Failed ==>
                Rejected(SymbolItem(input, old(P()), z, old(out[..zo]), dist),
                         SymbolSupply(input, old(P()), z, dist, old(Sup())), old(Ceiling()))
    {
      hide Huffman.Tables, Field, MatchItem, MatchSupply;
      zn := zo;
      if z < 256 {
        var ok := PutByte(zo, z);
        if !ok {
          return Failed, zn;
        }
        return Continue, zo + 1;
      }
      if z == 256 {
        zout := zo;
        if hitZeofOnce && numBits < 16 {
          return Failed, zn;
        }
        return Done, zn;
      }
      if z >= 286 {
        return Failed, zn;
      }
      status, zn := ParseMatch(z, zo, dist);
    }

    method ReadLength(sym: nat) returns (len: nat)
      requires ReaderOk() && 257 <= sym <= 285
      modifies this`pos, this`numBits, this`codeBuffer, this`fed, this`padded
      ensures ReaderOk() && P() == old(P()) + LengthExtra(sym)
      ensures len == LengthBase(sym) + Field(input, old(P()), LengthExtra(sym)) && len < 290
      ensures Sup() == AtBits(old(P()), LengthExtra(sym), old(Sup()))
    {
      hide Field;
      LengthTables(sym);
      LengthBaseBound(sym - 257);
      NoExtra(input, P());
      len := LENGTH_BASE[sym - 257];
      if LENGTH_EXTRA[sym - 257] != 0 {
        var more := Zreceive(LENGTH_EXTRA[sym - 257]);
        Pow2Monotone(LENGTH_EXTRA[sym - 257], 5);
        len := len + more;
      }
    }

    method ReadDistance(d: nat) returns (distance: nat)
      requires ReaderOk() && d < 30
      modifies this`pos, this`numBits, this`codeBuffer, this`fed, this`padded
      ensures ReaderOk() && P() == old(P()) + DistExtra(d)
      ensures distance == DistBase(d) + Field(input, old(P()), DistExtra(d))
      ensures Sup() == AtBits(old(P()), DistExtra(d), old(Sup()))
    {
      hide Field;
      DistTables(d);
      NoExtra(input, P());
      distance := DIST_BASE[d];
      if DIST_EXTRA[d] != 0 {
        var more := Zreceive(DIST_EXTRA[d]);
        distance := distance + more;
      }
    }

    /** The rest of a match, after its length symbol: extra bits, distance symbol and its extra bits. */
    method ReadMatch(sym: nat, ghost dist: seq<nat>) returns (ok: bool, len: nat, distance: nat)
      requires ReaderOk() && zDistance.Decodes(dist) && 257 <= sym <= 285
      modifies this`pos, this`numBits, this`codeBuffer, this`hitZeofOnce, this`fed, this`padded
      ensures ReaderOk()
      ensures ok ==> MatchAt(input, old(P()), sym, dist) == Some(Match(len, distance, P())) && len < 290
      ensures ok ==> MatchSupply(input, old(P()), sym, dist, old(Sup())) == Some(Sup())
      ensures !ok ==>
        MatchAt(input, old(P()), sym, dist).None? || MatchSupply(input, old(P()), sym, dist, old(Sup())).None?
    {
      hide Huffman.Tables, Field, LengthBase, LengthExtra, DistBase, DistExtra, AtBits, AtSymbol;
      distance := 0;
      assert this !in zDistance.Repr();
      len := ReadLength(sym);
      var z := HuffmanDecode(zDistance, dist);
      if z < 0 || z >= 30 {
        return false, len, distance;
      }
      distance := ReadDistance(z);
      return true, len, distance;
    }

    method ParseMatch(sym: nat, zo: nat, ghost dist: seq<nat>) returns (status: Status, zn: nat)
      requires ReaderOk() && Apart() && zDistance.Decodes(dist) && 257 <= sym <= 285
      requires zo <= out.Length <= UINT_MAX && (expandable ==> 0 < out.Length)
      modifies this, out
      ensures ReaderOk() && Apart() && (out == old(out) || fresh(out))
      ensures out.Length <= UINT_MAX && (expandable ==> 0 < out.Length) && Ceiling() == old(Ceiling())
      ensures status != Done
      ensures status == Continue ==> zo < zn <= out.Length
      ensures status == Continue ==> MatchItem(input, old(P()), sym, old(out[..zo]), dist) == More(out[..zn], P())
      ensures status == Continue ==> MatchSupply(input, old(P()), sym, dist, old(Sup())) == Some(Sup())
      ensures status == Failed ==>
                Rejected(MatchItem(input, old(P()), sym, old(out[..zo]), dist),
                         MatchSupply(input, old(P()), sym, dist, old(Sup())), old(Ceiling()))
    {
      hide Huffman.Tables, Field, MatchAt, CopyMatch, MatchSupply;
      zn := zo;
      var ok, len, distance := ReadMatch(sym, dist);
      if !ok || zo < distance {
        return Failed, zn;
      }
      ok := PutMatch(zo, len, distance);
      if !ok {
        return Failed, zn;
      }
      return Continue, zo + len;
    }

    /** stbi__parse_huffman_block. */
    method ParseHuffmanBlock(ghost lit: seq<nat>, ghost dist: seq<nat>) returns (ok: bool)
      requires ReaderOk() && OutputOk() && Apart() && CodesOk(lit, dist)
      modifies this, out
      ensures ReaderOk() && Apart() && (out == old(out) || fresh(out))
      ensures ok ==> OutputOk() && Ceiling() == old(Ceiling())
      ensures match CodesWith(input, old(P()), old(Contents()), lit, dist, old(Sup()), old(Ceiling()))
              case None => !ok
              case Some(f) => ok && Final(Contents(), P(), Sup()) == f
    {
      hide Huffman.Tables, CodesWith, NextItem, Field, ItemSupply, EndsWell;
      var zo := zout;
      ghost var ceiling := Ceiling();
      ghost var whole := CodesWith(input, P(), Contents(), lit, dist, Sup(), ceiling);
      while true
        invariant ReaderOk() && Apart() && CodesOk(lit, dist) && (out == old(out) || fresh(out))
        invariant zo <= out.Length <= UINT_MAX && (expandable ==> 0 < out.Length) && Ceiling() == ceiling
        invariant CodesWith(input, P(), out[..zo], lit, dist, Sup(), ceiling) == whole
        decreases UINT_MAX - zo
      {
        CodesStep(input, P(), out[..zo], lit, dist, Sup(), ceiling);
        var status, zn := ParseItem(zo, lit, dist);
        if status == Failed {
          return false;
        } else if status == Done {
          return true;
        }
        zo := zn;
      }
    }

    // ---- stored blocks ----

    /** Skips the rest of a partly used byte. */
    method Align()
      requires ReaderOk()
      modifies this`pos, this`numBits, this`codeBuffer, this`fed, this`padded
      ensures ReaderOk() && numBits % 8 == 0 && P() == 8 * ((old(P()) + 7) / 8)
    {
      hide Field, And, Low;
      LowBitsOfCount(numBits);
      ghost var a := fed - numBits / 8;
      assert P() == 8 * a - numBits % 8 && a == (P() + 7) / 8;
      if And(numBits, 7) != 0 {
        var skipped := Zreceive(And(numBits, 7));
      }
      assert numBits == 8 * (fed - a);
    }

    /** Empties the reservoir into the header: at most 4 bytes. */
    method DrainHeader(header: array<byte>, ghost a: nat) returns (k: nat)
      requires ReaderOk() && header.Length == 4 && numBits % 8 == 0 && P() == 8 * a
      modifies this`numBits, this`codeBuffer, header
      ensures ReaderOk() && numBits == 0 && k <= 4 && fed == a + k
      ensures forall j: nat :: j < k ==> header[j] == ByteAt(input, a + j)
    {
      hide Field;
      k := 0;
      while numBits > 0
        invariant ReaderOk() && numBits % 8 == 0 && 0 <= k <= 4 && 8 * k + numBits <= 32 && P() == 8 * (a + k)
        invariant forall j: nat :: j < k ==> header[j] == ByteAt(input, a + j)
        decreases numBits
      {
        NextByte(input, a + k, numBits, codeBuffer);
        header[k] := And(codeBuffer, 255);
        k := k + 1;
        Drop(8);
      }
    }

    /** The remaining header bytes come straight from the input, or are zeros past its end. */
    method FillHeader(header: array<byte>, k0: nat, ghost a: nat)
      requires ReaderOk() && numBits == 0 && header.Length == 4 && k0 <= 4 && fed == a + k0
      requires forall j: nat :: j < k0 ==> header[j] == ByteAt(input, a + j)
      modifies this`pos, this`fed, this`padded, header
      ensures ReaderOk() && fed == a + 4
      ensures forall j: nat :: j < 4 ==> header[j] == ByteAt(input, a + j)
    {
      var k := k0;
      while k < 4
        invariant ReaderOk() && k <= 4 && fed == a + k
        invariant forall j: nat :: j < k ==> header[j] == ByteAt(input, a + j)
      {
        ghost var before := pos;
        var b := Zget8();
        header[k] := b;
        fed, padded := fed + 1, padded + 1 - (pos - before);
        k := k + 1;
      }
    }

    method CopyStored(len: nat)
      requires ReaderOk() && numBits == 0 && fed == pos && pos + len <= |input| && zout + len <= out.Length <= UINT_MAX
      modifies this`pos, this`fed, this`padded, this`zout, out
      ensures ReaderOk() && P() == old(P()) + 8 * len && zout == old(zout) + len && numBits == 0
      ensures out[..zout] == old(out[..zout]) + Bytes(input, old(pos), len)
    {
      forall i | 0 <= i < len {
        out[zout + i] := input[pos + i];
      }
      ghost var z, p := zout, pos;
      pos, zout, fed := pos + len, zout + len, fed + len;
      BytesAreInput(input, p, len);
      assert out[..z] == old(out[..zout]) && out[z..zout] == input[p..p + len];
      assert out[..zout] == out[..z] + out[z..zout];
    }

    /** The two counts in front of a stored block; the second one must be the complement of the first. */
    method ReadStoredHeader() returns (ok: bool, len: nat)
      requires ReaderOk()
      modifies this`pos, this`numBits, this`codeBuffer, this`fed, this`padded
      ensures ReaderOk() && numBits == 0 && fed == (old(P()) + 7) / 8 + 4
      ensures var a := (old(P()) + 7) / 8;
        len == Field(input, 8 * a, 16) <= 0xFFFF && (ok <==> Field(input, 8 * a + 16, 16) == 0xFFFF - len)
      ensures ok && len == 0 ==> fed <= |input|
    {
      hide Field, And, Xor;
      ghost var a := (P() + 7) / 8;
      var header := new byte[4];
      Align();
      var k := DrainHeader(header, a);
      if numBits < 0 {
        assert false;
      }
      FillHeader(header, k, a);
      StoredFields(input, a);
      len := header[1] as int * 256 + header[0];
      var nlen := header[3] as int * 256 + header[2];
      Complement(len);
      return nlen == Xor(len, 0xFFFF), len;
    }

    /** stbi__parse_uncompressed_block. */
    method ParseUncompressedBlock() returns (ok: bool)
      requires ReaderOk() && OutputOk() && Apart()
      modifies this, out
      ensures ReaderOk() && Apart() && (out == old(out) || fresh(out))
      ensures ok ==> OutputOk() && Ceiling() == old(Ceiling())
      ensures match StoredWith(input, old(P()), old(Contents()), old(Ceiling()))
              case None => !ok
              case Some(f) => ok && Final(Contents(), P(), Sup()) == f
    {
      hide Field, Bytes, Apart;
      var good, len := ReadStoredHeader();
      if !good {
        return false;
      }
      if pos + len > |input| {
        return false;
      }
      ok := PutStored(len);
    }

    /** Makes room for a stored block and copies it. */
    method PutStored(len: nat) returns (ok: bool)
      requires ReaderOk() && OutputOk() && Apart()
      requires numBits == 0 && fed == pos && pos + len <= |input| && len <= UINT_MAX
      modifies this`pos, this`fed, this`padded, this`out, this`zout, out
      ensures ReaderOk() && Apart() && (out == old(out) || fresh(out)) && OutputOk() && Ceiling() == old(Ceiling())
      ensures ok ==> P() == old(P()) + 8 * len && Contents() == old(Contents()) + Bytes(input, old(pos), len)
      ensures ok ==> numBits == 0
      ensures !ok ==> old(Ceiling()) < old(zout) + len
    {
      hide Field, Bytes;
      if zout + len > out.Length {
        ok := Zexpand(zout, len);
        if !ok {
          return;
        }
      }
      CopyStored(len);
      return true;
    }

    // ---- dynamic codes ----

    /** The lengths of the code length code, sent in their own order. */
    method ReadCodeLengthCode(hclen: nat) returns (sizes: array<nat>)
      requires ReaderOk() && 4 <= hclen <= 19
      modifies this`pos, this`numBits, this`codeBuffer, this`fed, this`padded
      ensures ReaderOk() && P() == old(P()) + 3 * hclen && fresh(sizes)
      ensures sizes[..] == CodeLengthCode(input, old(P()), hclen)
      ensures Sup() == ThreeTimes(old(P()), hclen, old(Sup()))
    {
      hide Field, Rank, AtBits;
      sizes := new nat[19](_ => 0);
      ghost var p := P();
      ghost var s0 := Sup();
      for i := 0 to hclen
        invariant ReaderOk() && P() == p + 3 * i && Sup() == ThreeTimes(p, i, s0)
        invariant forall s: nat :: s < 19 ==> sizes[s] == if Rank(s) < i then Field(input, p + 3 * Rank(s), 3) else 0
      {
        var s := Zreceive(3);
        Ranks(i);
        sizes[DEZIGZAG[i]] := s;
      }
      assert forall s: nat :: s < 19 ==> sizes[..][s] == CodeLengthCode(input, p, hclen)[s];
    }

    method ReadCount(c: nat) returns (count: nat)
      requires ReaderOk() && 16 <= c <= 18
      modifies this`pos, this`numBits, this`codeBuffer, this`fed, this`padded
      ensures ReaderOk() && P() == old(P()) + RunBits(c)
      ensures count == RunBase(c) + Field(input, old(P()), RunBits(c))
      ensures Sup() == AtBits(old(P()), RunBits(c), old(Sup()))
    {
      hide Field;
      if c == 16 {
        count := Zreceive(2);
        count := count + 3;
      } else if c == 17 {
        count := Zreceive(3);
        count := count + 3;
      } else {
        count := Zreceive(7);
        count := count + 11;
      }
    }

    /** One code length symbol: appends the lengths it stands for to the n lengths so far. */
    method ReadRun(zc: Huffman, ghost code: seq<nat>, lencodes: array<nat>, n: nat, ntot: nat)
      returns (ok: bool, n1: nat)
      requires ReaderOk() && zc.Decodes(code) && |code| == 19
      requires lencodes.Length == 286 + 32 + 137 && lencodes !in zc.Repr() && n < ntot <= 320
      modifies this`pos, this`numBits, this`codeBuffer, this`hitZeofOnce, this`fed, this`padded, lencodes
      ensures ReaderOk() && zc.Decodes(code)
      ensures ok ==> n < n1 <= ntot
      ensures ok ==> NextLengths(input, old(P()), code, old(lencodes[..n]), ntot) == Some(Lens(lencodes[..n1], P()))
      ensures ok ==> RunSupply(input, old(P()), code, old(Sup())) == Some(Sup())
      ensures !ok ==> NextLengths(input, old(P()), code, old(lencodes[..n]), ntot).None?
                      || RunSupply(input, old(P()), code, old(Sup())).None?
    {
      hide Huffman.Tables, Field, NextLengths, Fill, Symbol, RunBits, RunBase, AtBits, AtSymbol;
      assert this !in zc.Repr();
      n1 := n;
      ghost var acc := lencodes[..n];
      var c := HuffmanDecode(zc, code);
      if c < 0 || c >= 19 {
        NoRun(input, old(P()), code, acc, ntot);
        return false, n1;
      }
      RunIs(input, old(P()), code, acc, ntot, c);
      if c < 16 {
        NoRunBits(P(), c, Sup());
        lencodes[n] := c;
        n1 := n + 1;
        assert lencodes[..n1] == old(lencodes[..n]) + [c];
        return true, n1;
      }
      var count := ReadCount(c);
      var fill := 0;
      if c == 16 {
        if n == 0 {
          return false, n1;
        }
        fill := lencodes[n - 1];
      }
      if ntot - n < count {
        return false, n1;
      }
      SetRun(lencodes, n, fill, count);
      return true, n + count;
    }

    static method SetRun(lencodes: array<nat>, n: nat, fill: nat, count: nat)
      requires n + count <= lencodes.Length
      modifies lencodes
      ensures lencodes[..n + count] == old(lencodes[..n]) + Fill(fill, count)
    {
      for i := n to n + count
        invariant lencodes[..n] == old(lencodes[..n])
        invariant forall j: nat :: n <= j < i ==> lencodes[j] == fill
      {
        lencodes[i] := fill;
      }
      assert lencodes[..n + count] == lencodes[..n] + lencodes[n..n + count];
      assert lencodes[n..n + count] == Fill(fill, count);
    }

    method ReadAllLengths(zc: Huffman, ghost code: seq<nat>, lencodes: array<nat>, ntot: nat) returns (ok: bool)
      requires ReaderOk() && zc.Decodes(code) && |code| == 19
      requires lencodes.Length == 286 + 32 + 137 && lencodes !in zc.Repr() && ntot <= 320
      modifies this`pos, this`numBits, this`codeBuffer, this`hitZeofOnce, this`fed, this`padded, lencodes
      ensures ReaderOk()
      ensures match LengthsWith(input, old(P()), code, [], ntot, old(Sup()))
              case None => !ok
              case Some((all, s)) => ok && all == Lens(lencodes[..ntot], P()) && s == Sup()
    {
      hide Huffman.Tables, Field, NextLengths, RunSupply;
      ghost var whole := LengthsWith(input, P(), code, [], ntot, Sup());
      var n := 0;
      assert lencodes[..0] == [];
      while n < ntot
        invariant ReaderOk() && zc.Decodes(code) && n <= ntot
        invariant LengthsWith(input, P(), code, lencodes[..n], ntot, Sup()) == whole
        decreases ntot - n
      {
        var more, n1 := ReadRun(zc, code, lencodes, n, ntot);
        if !more {
          return false;
        }
        n := n1;
      }
      if n != ntot {
        assert false;
      }
      return true;
    }

    /** stbi__compute_huffman_codes: reads the two codes of a dynamic block and builds their tables. */
    method ComputeHuffmanCodes() returns (ok: bool, ghost lit: seq<nat>, ghost dist: seq<nat>)
      requires ReaderOk() && Apart()
      modifies this`pos, this`numBits, this`codeBuffer, this`hitZeofOnce, this`fed, this`padded, zLength.Repr(),
        zDistance.Repr()
      ensures ReaderOk()
      ensures match HeaderWith(input, old(P()), old(Sup()))
              case None => !ok
              case Some((h, s)) => ok && CodesOk(lit, dist) && h == Header(lit, dist, P()) && s == Sup()
    {
      hide Huffman.Tables, Field, ReadLengths, LengthsWith, KraftOk, CodeLengthCode, Lengths, AtBits, ThreeTimes;
      ghost var p := P();
      var hlit, hdist, hclen := ReadCounts();
      var sizes := ReadCodeLengthCode(hclen);
      CodeLengthsAreSmall(input, p + 14, hclen);
      var lits, dists;
      ok, lits, dists := ReadLists(hlit, hdist, sizes[..]);
      lit, dist := lits, dists;
      if ok {
        assert (lits + dists)[..hlit] == lits && (lits + dists)[hlit..] == dists;
        ok := BuildBoth(lits, dists);
      }
    }

    /** The literal/length and distance code lengths, sent as one list in the given code. */
    method ReadLists(hlit: nat, hdist: nat, code: seq<nat>) returns (ok: bool, lit: seq<nat>, dist: seq<nat>)
      requires ReaderOk() && |code| == 19 && Lengths(code) && hlit <= 288 && hdist <= 32
      modifies this`pos, this`numBits, this`codeBuffer, this`hitZeofOnce, this`fed, this`padded
      ensures ReaderOk()
      ensures ok ==> KraftOk(code) && |lit| == hlit && |dist| == hdist && Lengths(lit) && Lengths(dist)
      ensures ok ==>
        LengthsWith(input, old(P()), code, [], hlit + hdist, old(Sup())) == Some((Lens(lit + dist, P()), Sup()))
      ensures ok ==> ReadLengths(input, old(P()), code, [], hlit + hdist) == Some(Lens(lit + dist, P()))
      ensures !ok ==> !KraftOk(code) || LengthsWith(input, old(P()), code, [], hlit + hdist, old(Sup())).None?
    {
      hide Huffman.Tables, Field, ReadLengths, LengthsWith;
      lit, dist := [], [];
      var zc := new Huffman();
      ok := zc.Build(code);
      if !ok {
        return;
      }
      var lencodes := new nat[286 + 32 + 137];
      LengthsAreSmall(input, P(), code, [], hlit + hdist);
      ghost var p, s := P(), Sup();
      ok := ReadAllLengths(zc, code, lencodes, hlit + hdist);
      lit, dist := lencodes[..hlit], lencodes[hlit..hlit + hdist];
      assert lit + dist == lencodes[..hlit + hdist];
      if ok {
        LengthsSound(input, p, code, [], hlit + hdist, s);
        SplitLengths(lencodes[..hlit + hdist], hlit, lit, dist);
      }
    }

    method ReadCounts() returns (hlit: nat, hdist: nat, hclen: nat)
      requires ReaderOk()
      modifies this`pos, this`numBits, this`codeBuffer, this`fed, this`padded
      ensures ReaderOk() && P() == old(P()) + 14
      ensures hlit == Field(input, old(P()), 5) + 257 <= 288 && hdist == Field(input, old(P()) + 5, 5) + 1 <= 32
      ensures hclen == Field(input, old(P()) + 10, 4) + 4 <= 19
      ensures Sup() == AtBits(old(P()) + 10, 4, AtBits(old(P()) + 5, 5, AtBits(old(P()), 5, old(Sup()))))
    {
      hide Field, AtBits;
      HeaderFields(input, P());
      hlit := Zreceive(5);
      hlit := hlit + 257;
      hdist := Zreceive(5);
      hdist := hdist + 1;
      hclen := Zreceive(4);
      hclen := hclen + 4;
    }

    method BuildBoth(lit: seq<nat>, dist: seq<nat>) returns (ok: bool)
      requires Apart() && Lengths(lit) && Lengths(dist)
      modifies zLength.Repr(), zDistance.Repr()
      ensures ok <==> KraftOk(lit) && KraftOk(dist)
      ensures ok ==> CodesOk(lit, dist)
    {
      hide Huffman.Tables, KraftOk;
      ok := zLength.Build(lit);
      if ok {
        ok := zDistance.Build(dist);
      }
    }

    // ---- blocks ----

    /** The body of a block of the given type. */
    method ParseBlock(kind: nat) returns (ok: bool)
      requires kind <= 3 && ReaderOk() && OutputOk() && Apart()
      modifies this, out, zLength.Repr(), zDistance.Repr()
      ensures ReaderOk() && Apart() && (out == old(out) || fresh(out))
      ensures ok ==> OutputOk() && Ceiling() == old(Ceiling())
      ensures match BlockWith(input, old(P()), kind, old(Contents()), old(Sup()), old(Ceiling()))
              case None => !ok
              case Some(f) => ok && Final(Contents(), P(), Sup()) == f
    {
      hide Huffman.Tables, Field, CodesWith, HeaderWith, StoredWith, KraftOk;
      ghost var lit, dist := FixedLit(), FixedDist();
      if kind == 0 {
        ok := ParseUncompressedBlock();
        return;
      } else if kind == 3 {
        return false;
      } else if kind == 1 {
        FixedLitComplete();
        FixedDistComplete();
        FixedTables();
        ok := BuildBoth(DEFAULT_LENGTH, DEFAULT_DISTANCE);
      } else {
        ok, lit, dist := ComputeHuffmanCodes();
        if !ok {
          return;
        }
      }
      ok := ParseHuffmanBlock(lit, dist);
    }

    // ---- the stream ----

    /** stbi__parse_zlib_header: the two header bytes of section 2.2 of RFC 1950, and something after them. */
    method ParseZlibHeader() returns (ok: bool)
      requires pos == 0
      modifies this`pos
      ensures ok <==> ZlibHeader(input)
      ensures ok ==> pos == 2
    {
      var cmf: nat := Zget8();
      var flg: nat := Zget8();
      HeaderBits(cmf, flg);
      if Zeof() {
        return false;
      }
      if (cmf * 256 + flg) % 31 != 0 {
        return false;
      }
      if And(flg, 32) != 0 {
        return false;
      }
      return And(cmf, 15) == 8;
    }

    /** stbi__parse_zlib: succeeds exactly for the streams that BlocksWith accepts, with their data. */
    method ParseZlib(parseHeader: bool) returns (ok: bool)
      requires pos == 0 && OutputOk() && Apart() && Contents() == []
      modifies this, out, zLength.Repr(), zDistance.Repr()
      ensures ok ==> ReaderOk() && OutputOk() && Ceiling() == old(Ceiling())
      ensures match Accepted(input, parseHeader, old(Ceiling()))
              case None => !ok
              case Some(f) => ok && Final(Contents(), P(), Sup()) == f
    {
      hide Huffman.Tables, Field, BlocksWith;
      if parseHeader {
        ok := ParseZlibHeader();
        if !ok {
          return;
        }
      }
      numBits, codeBuffer, hitZeofOnce, fed, padded := 0, 0, false, pos, 0;
      NoExtra(input, 8 * fed);
      ok := ParseBlocks();
    }

    /** One block with its header; the flag marks the last one. */
    method ParseNextBlock() returns (ok: bool, final: bool)
      requires ReaderOk() && OutputOk() && Apart()
      modifies this, out, zLength.Repr(), zDistance.Repr()
      ensures ReaderOk() && Apart() && (out == old(out) || fresh(out))
      ensures ok ==> OutputOk() && Ceiling() == old(Ceiling())
      ensures final <==> Field(input, old(P()), 1) == 1
      ensures match BlockWith(input, old(P()) + 3, Field(input, old(P()) + 1, 2), old(Contents()),
                              AtBits(old(P()) + 1, 2, AtBits(old(P()), 1, old(Sup()))), old(Ceiling()))
              case None => !ok
              case Some(f) => ok && Final(Contents(), P(), Sup()) == f
    {
      hide Huffman.Tables, Field, BlockWith, AtBits;
      SmallPow2();
      var last := Zreceive(1);
      var kind := Zreceive(2);
      ok := ParseBlock(kind);
      final := last != 0;
    }

    /** Blocks up to the final one. */
    method ParseBlocks() returns (ok: bool)
      requires ReaderOk() && OutputOk() && Apart()
      modifies this, out, zLength.Repr(), zDistance.Repr()
      ensures ok ==> ReaderOk() && OutputOk() && Ceiling() == old(Ceiling())
      ensures match BlocksWith(input, old(P()), old(Contents()), old(Sup()), old(Ceiling()))
              case None => !ok
              case Some(f) => ok && Final(Contents(), P(), Sup()) == f
    {
      hide Huffman.Tables, Field, BlocksWith, BlockWith, AtBits;
      ghost var ceiling := Ceiling();
      ghost var whole := BlocksWith(input, P(), Contents(), Sup(), ceiling);
      while true
        invariant ReaderOk() && OutputOk() && Apart() && (out == old(out) || fresh(out)) && Ceiling() == ceiling
        invariant BlocksWith(input, P(), Contents(), Sup(), ceiling) == whole
        decreases 8 * |input| - P()
      {
        BlocksStep(input, P(), Contents(), Sup(), ceiling);
        var final;
        ok, final := ParseNextBlock();
        if !ok || final {
          return;
        }
      }
    }

    constructor (input: seq<byte>, initialSize: nat, expandable: bool)
      requires initialSize <= UINT_MAX && (expandable ==> 0 < initialSize)
      ensures this.input == input && this.expandable == expandable && pos == 0
      ensures OutputOk() && Contents() == [] && out.Length == initialSize && fresh(out)
      ensures Apart() && fresh(zLength.Repr()) && fresh(zDistance.Repr())
    {
      this.input, this.expandable := input, expandable;
      pos, numBits, codeBuffer, hitZeofOnce, fed, padded := 0, 0, 0, false, 0, 0;
      zLength := new Huffman();
      zDistance := new Huffman();
      out := new byte[initialSize];
      zout := 0;
    }
  }

  /** What a decoding step returns, moving from position p to p1. */
  ghost predicate Decoded(input: seq<byte>, p: nat, lens: seq<nat>, r: int, p1: nat)
  {
    if r < 0 then r == -1 && p1 == p && Symbol(input, p, lens) == None
    else Symbol(input, p, lens) == Some(r) && r < |lens| && p1 == p + lens[r]
  }

  lemma WindowOfBuffer(input: seq<byte>, p: nat, n: nat, v: nat)
    requires 16 <= n && v == Field(input, p, n)
    ensures Rev(v, 16) == CodeAt(input, p, 16)
  {
    FieldLow(input, p, n, 16);
    RevLow(v, 16, 16);
    RevField(input, p, 16);
  }

  lemma SymbolFound(input: seq<byte>, p: nat, lens: seq<nat>, sym: nat)
    requires Lengths(lens) && Prefixes(lens, sym, CodeAt(input, p, 16))
    ensures Symbol(input, p, lens) == Some(sym)
  {
    SymbolAtWindow(input, p, lens, sym);
    SymbolIsUnique(input, p, lens, sym);
  }

  /** A hit in the fast table, for an entry that packs length and symbol. */
  lemma FastSymbol(input: seq<byte>, p: nat, n: nat, v: nat, lens: seq<nat>, b: nat)
    requires Lengths(lens) && 16 <= n && v == Field(input, p, n)
    requires b != 0 && FastEntry(lens, |lens|, Low(v, FAST_BITS), b)
    ensures And(b, 511) < |lens| && Symbol(input, p, lens) == Some(And(b, 511))
    ensures Shr(b, 9) == lens[And(b, 511)] <= FAST_BITS
  {
    UnpackFast(b);
    FastHit(lens, v, b % 512);
    WindowOfBuffer(input, p, n, v);
    SymbolFound(input, p, lens, b % 512);
  }

  lemma BytesAreInput(input: seq<byte>, k: nat, n: nat)
    requires k + n <= |input|
    ensures Bytes(input, k, n) == input[k..k + n]
  {
    forall i | 0 <= i < n
      ensures Bytes(input, k, n)[i] == input[k..k + n][i]
    {
      assert Bytes(input, k, n)[i] == ByteAt(input, k + i);
    }
  }

  lemma LowBitsOfCount(n: nat)
    ensures And(n, 7) == n % 8
  {
    SmallPow2();
    AndMask(n, 3);
    assert Low(n, 3) == n % 2 + 2 * Low(n / 2, 2) == n % 2 + 2 * (n / 2 % 2 + 2 * Low(n / 4, 1));
  }

  /** A reservoir that starts on a byte boundary holds that byte lowest. */
  lemma NextByte(input: seq<byte>, k: nat, n: nat, buffer: nat)
    requires 8 <= n && buffer == Field(input, 8 * k, n)
    ensures And(buffer, 255) == ByteAt(input, k)
  {
    SmallPow2();
    AndMask(buffer, 8);
    FieldLow(input, 8 * k, n, 8);
    ByteIsField(input, k);
  }

  lemma TwoBytes(input: seq<byte>, k: nat)
    ensures Field(input, 8 * k, 16) == 256 * ByteAt(input, k + 1) + ByteAt(input, k)
  {
    FieldSplit(input, 8 * k, 8, 8);
    ByteIsField(input, k);
    ByteIsField(input, k + 1);
    Times256(ByteAt(input, k + 1));
  }

  lemma Times256(x: nat)
    ensures Shl(x, 8) == 256 * x
  {
    assert Shl(x, 8) == 2 * Shl(x, 7) == 4 * Shl(x, 6) == 8 * Shl(x, 5) == 16 * Shl(x, 4);
    assert Shl(x, 4) == 2 * Shl(x, 3) == 4 * Shl(x, 2) == 8 * Shl(x, 1) == 16 * Shl(x, 0);
  }

  /** LEN and NLEN of a stored block whose header starts at byte k. */
  lemma StoredFields(input: seq<byte>, k: nat)
    ensures Field(input, 8 * k, 16) == 256 * ByteAt(input, k + 1) + ByteAt(input, k)
    ensures Field(input, 8 * k + 16, 16) == 256 * ByteAt(input, k + 3) + ByteAt(input, k + 2)
  {
    TwoBytes(input, k);
    TwoBytes(input, k + 2);
    assert 8 * (k + 2) == 8 * k + 16;
  }

  lemma Complement(x: nat)
    requires x <= 0xFFFF
    ensures Xor(x, 0xFFFF) == 0xFFFF - x
  {
    Pow2Values();
    XorMask(x, 16);
  }

  lemma SplitLengths(all: seq<nat>, n: nat, lit: seq<nat>, dist: seq<nat>)
    requires n <= |all| <= 320 && AtMost15(all) && lit + dist == all && |lit| == n && n <= 288 && |dist| <= 32
    ensures lit == all[..n] && dist == all[n..] && Lengths(lit) && Lengths(dist)
  {
    assert forall i :: 0 <= i < |lit| ==> lit[i] == all[i];
    assert forall i :: 0 <= i < |dist| ==> dist[i] == all[n + i];
  }

  /** The whole stream: what stbi__parse_zlib makes of it with room for `ceiling` bytes. */
  ghost function Accepted(input: seq<byte>, parseHeader: bool, ceiling: nat): Option<Final>
  {
    if parseHeader && !ZlibHeader(input) then None
    else if parseHeader then BlocksWith(input, 16, [], Supply(2, false), ceiling)
    else BlocksWith(input, 0, [], Supply(0, false), ceiling)
  }

  /** CM is 8 (deflate), FCHECK makes the header a multiple of 31, FDICT is off, and there is data. */
  predicate ZlibHeader(input: seq<byte>)
  {
    |input| > 2 && (input[0] as int * 256 + input[1]) % 31 == 0 && input[1] / 32 % 2 == 0 && input[0] % 16 == 8
  }

  lemma HeaderBits(cmf: nat, flg: nat)
    ensures And(cmf, 15) == cmf % 16 && (And(flg, 32) != 0 <==> flg / 32 % 2 == 1)
  {
    SmallPow2();
    AndMask(cmf, 4);
    Times16(cmf / 16);
    LowOfSum(cmf / 16, cmf % 16, 4);
    AndBit(flg, 5);
    Times32(flg / 32);
    Times32(flg / 32 + 1);
    ShrInterval(flg, 5, flg / 32);
  }

  lemma Times16(x: nat)
    ensures Shl(x, 4) == 16 * x
  {
    assert Shl(x, 4) == 2 * Shl(x, 3) == 4 * Shl(x, 2) == 8 * Shl(x, 1) == 16 * Shl(x, 0);
  }

  lemma Times32(x: nat)
    ensures Shl(x, 5) == 32 * x
  {
    Times16(x);
  }

  /** The counts in a dynamic block's header are in range. */
  lemma HeaderFields(input: seq<byte>, p: nat)
    ensures Field(input, p, 5) < 32 && Field(input, p + 5, 5) < 32 && Field(input, p + 10, 4) < 16
  {
    SmallPow2();
    FieldBound(input, p, 5);
    FieldBound(input, p + 5, 5);
    FieldBound(input, p + 10, 4);
  }

  lemma NoExtra(input: seq<byte>, p: nat)
    ensures Field(input, p, 0) == 0
  {
  }

  lemma NoSymbol(input: seq<byte>, p: nat, lens: seq<nat>)
    requires Lengths(lens) && Base(lens, 16) <= CodeAt(input, p, 16)
    ensures Symbol(input, p, lens) == None
  {
    KraftIsBase(lens);
    DecodableWindows(lens, CodeAt(input, p, 16));
    forall sym: nat
      ensures !IsSymbolAt(input, p, lens, sym)
    {
      SymbolAtWindow(input, p, lens, sym);
    }
  }

  lemma OneShifted(n: nat)
    requires n <= 24
    ensures U32(Shl(1, n)) == Pow2(n)
  {
    ShlIsPow2(n);
    Pow2Monotone(n, 24);
    Pow2Values();
  }

  lemma ByteShifted(b: byte, n: nat)
    requires n <= 24
    ensures U32(Shl(b, n)) == Shl(b, n)
  {
    Pow2Values();
    ShlMonotone(b, Pow2(8), n);
    Pow2Add(8, n);
    Pow2Monotone(n + 8, 32);
  }

  lemma AppendBits(x: nat, b: byte, n: nat)
    requires n <= 24 && x < Pow2(n)
    ensures Or(x, U32(Shl(b, n))) == x + Shl(b, n)
  {
    ByteShifted(b, n);
    OrShl(b, x, n);
  }

  /** code_buffer |= b << num_bits. */
  method AddByte(ghost input: seq<byte>, ghost p: nat, ghost fed: nat, buffer: nat, n: nat, b: byte) returns (r: nat)
    requires n <= 24 && p + n == 8 * fed && b == ByteAt(input, fed)
    requires buffer == Field(input, p, n)
    ensures r == Field(input, p, n + 8)
  {
    AppendByte(input, p, n, fed, n + 8);
    r := Or(buffer, U32(Shl(b, n)));
  }

  lemma AppendByte(input: seq<byte>, p: nat, n: nat, k: nat, n': nat)
    requires n <= 24 && p + n == 8 * k && n' == n + 8
    ensures Or(Field(input, p, n), U32(Shl(ByteAt(input, k), n))) == Field(input, p, n')
  {
    FieldOfByte(input, k, 0, n' - n);
    FieldSplit(input, p, n, n' - n);
    FieldBound(input, p, n);
    AppendBits(Field(input, p, n), ByteAt(input, k), n);
  }
}
