/** Streams that end too early: how far past the end of the input the zeros can be used, and that the decoder accepts
    some such streams and rejects others. */
module ZTruncation {
  import opened Wrappers
  import opened Bits
  import opened BitStream
  import opened Canonical
  import opened Rfc1951
  import opened FixedCode
  import opened ZSupply

  // ---- how many bits past the end an accepted stream can use ----

  lemma {:induction false} ZeroCode(input: seq<byte>, p: nat, n: nat)
    requires 8 * |input| <= p
    ensures CodeAt(input, p, n) == 0
  {
    if n > 0 {
      ZeroCode(input, p, n - 1);
      BitOfZero((p + n - 1) % 8);
    }
  }

  /** Behind the end the same symbol comes again and again. */
  lemma SameSymbol(input: seq<byte>, p: nat, q: nat, lens: seq<nat>)
    requires Lengths(lens) && 8 * |input| <= p && 8 * |input| <= q && Symbol(input, p, lens).Some?
    ensures Symbol(input, q, lens) == Symbol(input, p, lens)
  {
    var sym := Symbol(input, p, lens).value;
    ZeroCode(input, p, lens[sym]);
    ZeroCode(input, q, lens[sym]);
    SymbolIsUnique(input, q, lens, sym);
  }

  /** A block whose next item starts behind the end can only end there. */
  lemma {:induction false} OnlyTheEnd(input: seq<byte>, p: nat, out: seq<byte>, lit: seq<nat>, dist: seq<nat>,
                                      limit: nat)
    requires Lengths(lit) && 8 * |input| <= p && Codes(input, p, out, lit, dist, limit).Some?
    ensures NextItem(input, p, out, lit, dist).EndOfBlock?
    decreases if p <= limit then limit - p else 0
  {
    var item := NextItem(input, p, out, lit, dist);
    if item.More? {
      OnlyTheEnd(input, item.p, item.out, lit, dist, limit);
      SameSymbol(input, p, item.p, lit);
    }
  }

  lemma ItemBound(input: seq<byte>, p: nat, out: seq<byte>, lit: seq<nat>, dist: seq<nat>)
    requires Lengths(lit) && Lengths(dist)
    ensures var item := NextItem(input, p, out, lit, dist);
      (item.EndOfBlock? ==> item.p <= p + 15) && (item.More? ==> item.p <= p + 48)
  {
    hide CopyMatch, Field, LengthBase, DistBase;
    if Symbol(input, p, lit).Some? {
      var sym := Symbol(input, p, lit).value;
      assert lit[sym] <= 15;
      if 257 <= sym <= 285 {
        var p1 := p + lit[sym] + LengthExtra(sym);
        assert LengthExtra(sym) <= 5;
        assert Symbol(input, p1, dist).Some? ==> dist[Symbol(input, p1, dist).value] <= 15;
      }
    }
  }

  /** Past the end a block uses at most the rest of one item and the end-of-block code. */
  lemma {:induction false} CodesBound(input: seq<byte>, p: nat, out: seq<byte>, lit: seq<nat>, dist: seq<nat>,
                                      limit: nat)
    requires Lengths(lit) && Lengths(dist) && Codes(input, p, out, lit, dist, limit).Some?
    ensures var q := Codes(input, p, out, lit, dist, limit).value.p;
      q <= (if p < 8 * |input| then 8 * |input| + 62 else p + 15)
    decreases if p <= limit then limit - p else 0
  {
    hide NextItem, Lengths;
    ItemBound(input, p, out, lit, dist);
    var item := NextItem(input, p, out, lit, dist);
    if item.More? {
      if 8 * |input| <= p {
        OnlyTheEnd(input, p, out, lit, dist, limit);
      }
      CodesBound(input, item.p, item.out, lit, dist, limit);
    }
  }

  lemma {:induction false} LengthsBound(input: seq<byte>, p: nat, code: seq<nat>, acc: seq<nat>, total: nat)
    requires Lengths(code) && |code| <= 19 && |acc| <= total && ReadLengths(input, p, code, acc, total).Some?
    ensures ReadLengths(input, p, code, acc, total).value.p <= p + 22 * (total - |acc|)
    decreases total - |acc|
  {
    hide Field, Fill;
    if |acc| < total {
      var next := NextLengths(input, p, code, acc, total).value;
      assert code[Symbol(input, p, code).value] <= 15;
      LengthsBound(input, next.p, code, next.lens, total);
    }
  }

  lemma HeaderBound(input: seq<byte>, p: nat)
    requires DynamicHeader(input, p).Some?
    ensures DynamicHeader(input, p).value.p <= p + 7111
  {
    hide Field, ReadLengths, CodeLengthCode, KraftOk;
    CountBounds(input, p);
    var hclen := Field(input, p + 10, 4) + 4;
    CodeLengthsAreSmall(input, p + 14, hclen);
    LengthsBound(input, p + 14 + 3 * hclen, CodeLengthCode(input, p + 14, hclen), [],
                 Field(input, p, 5) + 257 + Field(input, p + 5, 5) + 1);
  }

  lemma CountBounds(input: seq<byte>, p: nat)
    ensures Field(input, p, 5) < 32 && Field(input, p + 5, 5) < 32 && Field(input, p + 10, 4) < 16
  {
    Pow2Values();
    FieldBound(input, p, 5);
    FieldBound(input, p + 5, 5);
    FieldBound(input, p + 10, 4);
  }

  /** A block that starts in the input ends at most 7200 bits behind it, and at most 62 unless its header is cut. */
  lemma BlockBound(input: seq<byte>, p: nat, kind: nat, out: seq<byte>, limit: nat)
    requires p < 8 * |input| + 3 && Block(input, p, kind, out, limit).Some?
    requires kind == 0 ==> Block(input, p, kind, out, limit).value.p <= 8 * |input|
    ensures Block(input, p, kind, out, limit).value.p <= 8 * |input| + 7200
    ensures kind == 2 && DynamicHeader(input, p).value.p < 8 * |input|
        ==> Block(input, p, kind, out, limit).value.p <= 8 * |input| + 62
  {
    hide Codes, DynamicHeader, FixedLit, FixedDist, Rfc1951.Stored;
    if kind == 1 {
      FixedLengths();
      CodesBound(input, p, out, FixedLit(), FixedDist(), limit);
    } else if kind == 2 {
      var h := DynamicHeader(input, p).value;
      HeaderBound(input, p);
      HeaderIsKraft(input, p);
      CodesBound(input, h.p, out, h.lit, h.dist, limit);
    }
  }

  /** An accepted stream uses at most 7200 zeros past the end of the input. */
  lemma {:induction false} AcceptedBound(input: seq<byte>, p: nat, out: seq<byte>, s: Supply, ceiling: nat)
    requires BlocksWith(input, p, out, s, ceiling).Some?
    ensures BlocksWith(input, p, out, s, ceiling).value.p <= 8 * |input| + 7200
    decreases if p <= 8 * |input| then 8 * |input| - p else 0
  {
    hide BlockWith, Field, Block;
    var kind, s1 := Field(input, p + 1, 2), AtBits(p + 1, 2, AtBits(p, 1, s));
    var f := BlockWith(input, p + 3, kind, out, s1, ceiling).value;
    BlockSound(input, p + 3, kind, out, s1, ceiling);
    if Field(input, p, 1) == 1 {
      assert Block(input, p + 3, kind, out, f.p) == Some(Step(f.out, f.p));
      StoredInside(input, p + 3, kind, out, s1, ceiling);
      BlockBound(input, p + 3, kind, out, f.p);
    } else {
      AcceptedBound(input, f.p, f.out, f.s, ceiling);
    }
  }

  lemma StoredInside(input: seq<byte>, p: nat, kind: nat, out: seq<byte>, s: Supply, ceiling: nat)
    requires BlockWith(input, p, kind, out, s, ceiling).Some?
    ensures kind == 0 ==> BlockWith(input, p, kind, out, s, ceiling).value.p <= 8 * |input|
  {
    hide Rfc1951.Stored;
  }

  // ---- two streams without their last byte ----

  lemma EndCode(input: seq<byte>, p: nat)
    requires CodeAt(input, p, 7) == 0
    ensures Symbol(input, p, FixedLit()) == Some(256)
  {
    LiteralCode(256);
    FixedLengths();
    SymbolIsUnique(input, p, FixedLit(), 256);
  }

  lemma ZeroLiteral(input: seq<byte>, p: nat)
    requires CodeAt(input, p, 8) == 48
    ensures Symbol(input, p, FixedLit()) == Some(0)
  {
    LiteralCode(0);
    FixedLengths();
    SymbolIsUnique(input, p, FixedLit(), 0);
  }

  /** The empty stream [0x03, 0x00] without its last byte is accepted. */
  const SHORT_EMPTY: seq<byte> := [0x03]

  lemma EmptyBits(i: nat)
    requires i < 10
    ensures Bit(SHORT_EMPTY, i) == if i < 2 then 1 else 0
  {
    if i >= 8 {
      BitOfZero(i - 8);
    } else {
      assert BitOf(3, 0) == 1 && BitOf(3, 1) == 1 && BitOf(3, 2) == 0;
      if i > 2 {
        assert Shr(3, i) == Shr(1, i - 1) == Shr(0, i - 2);
        BitOfZero(i - 2);
      }
    }
  }

  lemma {:induction false} EmptyCode(n: nat)
    requires n <= 7
    ensures CodeAt(SHORT_EMPTY, 3, n) == 0
  {
    if n > 0 {
      EmptyCode(n - 1);
      EmptyBits(3 + n - 1);
    }
  }

  /** The decoder accepts it, using two bits that are not there; the reference decoder needs those bits. */
  lemma ShortEmptyAccepted(ceiling: nat)
    ensures BlocksWith(SHORT_EMPTY, 0, [], Supply(0, false), ceiling) == Some(Final([], 10, Supply(4, false)))
    ensures Blocks(SHORT_EMPTY, 0, [], 8 * |SHORT_EMPTY|) == None
    ensures Blocks(SHORT_EMPTY, 0, [], 10) == Some(Step([], 10))
  {
    var z := SHORT_EMPTY;
    EmptyBits(0);
    EmptyBits(1);
    EmptyBits(2);
    assert Field(z, 0, 1) == 1 && Field(z, 1, 2) == 1;
    EmptyCode(7);
    EndCode(z, 3);
    LiteralCode(256);
    assert NextItem(z, 3, [], FixedLit(), FixedDist()) == EndOfBlock(10);
    assert AtBits(1, 2, AtBits(0, 1, Supply(0, false))) == Supply(4, false);
    assert ItemSupply(z, 3, FixedLit(), FixedDist(), Supply(4, false)) == Some(Supply(4, false));
  }

  /** Three zero bytes as [0x63, 0x60, 0x60, 0x00, 0x00], without the last byte. */
  const SHORT_ZEROS: seq<byte> := [0x63, 0x60, 0x60, 0x00]

  lemma ByteBits(i: nat)
    requires i < 8
    ensures BitOf(0x63, i) == (if i == 0 || i == 1 || i == 5 || i == 6 then 1 else 0)
    ensures BitOf(0x60, i) == (if i == 5 || i == 6 then 1 else 0)
  {
    assert BitOf(0x63, 0) == 1 && BitOf(0x63, 1) == 1 && BitOf(0x63, 2) == 0 && BitOf(0x63, 3) == 0;
    assert BitOf(0x18, 0) == 0 && BitOf(0x18, 1) == 0 && BitOf(0x18, 2) == 0 && BitOf(0x18, 3) == 1;
    assert BitOf(0x06, 0) == 0 && BitOf(0x06, 1) == 1 && BitOf(0x06, 2) == 1 && BitOf(0x06, 3) == 0;
    if i >= 4 {
      assert BitOf(0x63, i) == BitOf(0x31, i - 1) == BitOf(0x18, i - 2) == BitOf(0x0C, i - 3) == BitOf(0x06, i - 4);
    }
    if i >= 2 {
      assert BitOf(0x60, i) == BitOf(0x30, i - 1) == BitOf(0x18, i - 2);
    }
    if i >= 6 {
      assert BitOf(0x18, i - 2) == BitOf(0x0C, i - 3) == BitOf(0x06, i - 4);
    } else if i >= 4 {
      assert BitOf(0x18, i - 2) == BitOf(0x0C, i - 3) == BitOf(0x06, i - 4);
    }
  }

  lemma ZerosBit(i: nat)
    requires i < 34
    ensures Bit(SHORT_ZEROS, i) ==
      if i == 0 || i == 1 || i == 5 || i == 6 || i == 13 || i == 14 || i == 21 || i == 22 then 1 else 0
  {
    ByteBits(i % 8);
    BitOfZero(i % 8);
    assert ByteAt(SHORT_ZEROS, i / 8) == if i < 8 then 0x63 else if i < 24 then 0x60 else 0;
  }

  /** Three literals 0 and the end-of-block code follow the block header. */
  lemma {:induction false} ZerosCodes(j: nat, n: nat)
    requires j < 3 && n <= 8
    ensures CodeAt(SHORT_ZEROS, 3 + 8 * j, n) ==
      if n <= 2 then 0 else if n == 3 then 1 else if n == 4 then 3 else if n == 5 then 6
      else if n == 6 then 12 else if n == 7 then 24 else 48
  {
    hide Bit;
    if n > 0 {
      ZerosCodes(j, n - 1);
      ZerosBit(3 + 8 * j + n - 1);
    }
  }

  lemma {:induction false} ZerosEnd(n: nat)
    requires n <= 7
    ensures CodeAt(SHORT_ZEROS, 27, n) == 0
  {
    if n > 0 {
      ZerosEnd(n - 1);
      ZerosBit(27 + n - 1);
    }
  }

  lemma OneZero(p: nat, out: seq<byte>, s: Supply)
    requires CodeAt(SHORT_ZEROS, p, 8) == 48
    ensures NextItem(SHORT_ZEROS, p, out, FixedLit(), FixedDist()) == More(out + [0], p + 8)
    ensures ItemSupply(SHORT_ZEROS, p, FixedLit(), FixedDist(), s) == AtSymbol(4, p, s)
  {
    hide CodeAt;
    ZeroLiteral(SHORT_ZEROS, p);
    LiteralCode(256);
    LiteralCode(0);
    hide FixedLit, FixedDist;
  }

  lemma TheEnd(out: seq<byte>, s: Supply)
    ensures NextItem(SHORT_ZEROS, 27, out, FixedLit(), FixedDist()) == EndOfBlock(34)
    ensures ItemSupply(SHORT_ZEROS, 27, FixedLit(), FixedDist(), s) == AtSymbol(4, 27, s)
  {
    ZerosEnd(7);
    hide CodeAt;
    EndCode(SHORT_ZEROS, 27);
    LiteralCode(256);
    LiteralCode(0);
    hide FixedLit, FixedDist;
  }

  /** The decoder rejects it, although only two zero bits are missing. */
  lemma ShortZerosRejected(ceiling: nat)
    ensures BlocksWith(SHORT_ZEROS, 0, [], Supply(0, false), ceiling) == None
    ensures Blocks(SHORT_ZEROS, 0, [], 34) == Some(Step([0, 0, 0], 34))
  {
    var z, lit, dist := SHORT_ZEROS, FixedLit(), FixedDist();
    ZerosBit(0);
    ZerosBit(1);
    ZerosBit(2);
    assert Field(z, 0, 1) == 1 && Field(z, 1, 2) == 1;
    assert AtBits(1, 2, AtBits(0, 1, Supply(0, false))) == Supply(4, false);
    ZerosInside(ceiling);
    hide Field, Codes, CodesWith;
  }

  lemma ZerosInside(ceiling: nat)
    ensures Codes(SHORT_ZEROS, 3, [], FixedLit(), FixedDist(), 34) == Some(Step([0, 0, 0], 34))
    ensures CodesWith(SHORT_ZEROS, 3, [], FixedLit(), FixedDist(), Supply(4, false), ceiling) == None
  {
    hide FixedLit, FixedDist, NextItem, ItemSupply, CodeAt;
    var z, lit, dist, s, t := SHORT_ZEROS, FixedLit(), FixedDist(), Supply(4, false), Supply(6, true);
    ZerosCodes(0, 8);
    ZerosCodes(1, 8);
    ZerosCodes(2, 8);
    OneZero(3, [], s);
    OneZero(11, [0], s);
    OneZero(19, [0, 0], s);
    TheEnd([0, 0, 0], t);
    assert [0] + [0] == [0, 0] && [0, 0] + [0] == [0, 0, 0] && [] + [0] == [0];
    assert Codes(z, 27, [0, 0, 0], lit, dist, 34) == Some(Step([0, 0, 0], 34));
    assert Codes(z, 19, [0, 0], lit, dist, 34) == Some(Step([0, 0, 0], 34));
    assert CodesWith(z, 27, [0, 0, 0], lit, dist, t, ceiling) == None;
    assert CodesWith(z, 19, [0, 0], lit, dist, s, ceiling) == None;
    assert CodesWith(z, 11, [0], lit, dist, s, ceiling) == None;
  }
}
