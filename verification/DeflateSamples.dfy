/** Streams whose contents are known, byte for byte. */
module DeflateSamples {
  import opened Wrappers
  import opened Bits
  import opened BitStream
  import opened Canonical
  import opened Rfc1951
  import opened FixedCode
  import opened ZBuf
  import opened ZlibDecode

  lemma CodeOfFive(input: seq<byte>, p: nat)
    ensures CodeAt(input, p, 5) ==
      16 * Bit(input, p) + 8 * Bit(input, p + 1) + 4 * Bit(input, p + 2) + 2 * Bit(input, p + 3) + Bit(input, p + 4)
  {
    hide Bit;
    CodeMore(input, p, 1);
    CodeMore(input, p, 2);
    CodeMore(input, p, 3);
    CodeMore(input, p, 4);
    CodeMore(input, p, 0);
  }

  lemma CodeMore(input: seq<byte>, p: nat, n: nat)
    ensures CodeAt(input, p, n + 1) == 2 * CodeAt(input, p, n) + Bit(input, p + n)
    ensures CodeAt(input, p, 0) == 0
  {
    hide Bit;
  }

  lemma CodeOfEight(input: seq<byte>, p: nat)
    ensures CodeAt(input, p, 7) == 4 * CodeAt(input, p, 5) + 2 * Bit(input, p + 5) + Bit(input, p + 6)
    ensures CodeAt(input, p, 8) == 2 * CodeAt(input, p, 7) + Bit(input, p + 7)
  {
    hide Bit, CodeAt;
    CodeMore(input, p, 5);
    CodeMore(input, p, 6);
    CodeMore(input, p, 7);
  }

  // ---- literals and a match that overlaps itself ----

  /** A final block with the fixed codes: a, b, c, then length 3 at distance 2, and the end of the block. */
  const COPIES: seq<byte> := [0x4B, 0x4C, 0x4A, 0x06, 0x42, 0x00]

  lemma HeadBits()
    ensures Field(COPIES, 0, 1) == 1 && Field(COPIES, 1, 2) == 1
  {
    hide Bit;
    BitsOfByte(COPIES, 0);
    assert Field(COPIES, 1, 2) == Bit(COPIES, 1) + 2 * Bit(COPIES, 2);
  }

  /** An eight-bit code from bit 3 of byte j on. */
  lemma SpanningCode(input: seq<byte>, j: nat)
    ensures var x, y := ByteAt(input, j), ByteAt(input, j + 1);
      CodeAt(input, 8 * j + 3, 8) == 128 * (x / 8 % 2) + 64 * (x / 16 % 2) + 32 * (x / 32 % 2) + 16 * (x / 64 % 2)
                                     + 8 * (x / 128 % 2) + 4 * (y % 2) + 2 * (y / 2 % 2) + y / 4 % 2
  {
    hide Bit, CodeAt, ByteAt;
    BitsOfByte(input, j);
    BitsOfByte(input, j + 1);
    CodeOfFive(input, 8 * j + 3);
    CodeOfEight(input, 8 * j + 3);
  }

  lemma LiteralBits(j: nat)
    requires j < 3
    ensures CodeAt(COPIES, 3 + 8 * j, 8) == 48 + 97 + j
  {
    hide Bit, CodeAt;
    BitsOfByte(COPIES, j);
    BitsOfByte(COPIES, j + 1);
    SpanningCode(COPIES, j);
    if j == 0 {
    } else if j == 1 {
    } else {
    }
  }

  lemma MatchBits()
    ensures CodeAt(COPIES, 27, 7) == 1 && CodeAt(COPIES, 34, 5) == 1 && CodeAt(COPIES, 39, 7) == 0
  {
    hide Bit, CodeAt;
    BitsOfByte(COPIES, 3);
    BitsOfByte(COPIES, 4);
    BitsOfByte(COPIES, 5);
    MatchCodes();
  }

  lemma MatchCodes()
    requires forall i :: 27 <= i < 46 ==> Bit(COPIES, i) == if i == 33 || i == 38 then 1 else 0
    ensures CodeAt(COPIES, 27, 7) == 1 && CodeAt(COPIES, 34, 5) == 1 && CodeAt(COPIES, 39, 7) == 0
  {
    hide Bit, CodeAt;
    CodeOfFive(COPIES, 27);
    CodeOfEight(COPIES, 27);
    CodeOfFive(COPIES, 34);
    CodeOfFive(COPIES, 39);
    CodeOfEight(COPIES, 39);
  }

  /** A symbol of the fixed codes at p. */
  lemma FixedSymbol(input: seq<byte>, p: nat, sym: nat)
    requires sym < 288 && CodeAt(input, p, FixedLit()[sym]) == CodeOf(FixedLit(), sym)
    ensures Symbol(input, p, FixedLit()) == Some(sym)
  {
    LiteralCode(sym);
    FixedLitComplete();
    hide FixedLit;
    SymbolIsUnique(input, p, FixedLit(), sym);
  }

  lemma FixedDistance(input: seq<byte>, p: nat, d: nat)
    requires d < 32 && CodeAt(input, p, 5) == d
    ensures Symbol(input, p, FixedDist()) == Some(d)
  {
    DistanceCode(d);
    FixedDistComplete();
    hide FixedDist;
    SymbolIsUnique(input, p, FixedDist(), d);
  }

  lemma LiteralItem(j: nat, out: seq<byte>)
    requires j < 3
    ensures NextItem(COPIES, 3 + 8 * j, out, FixedLit(), FixedDist()) == More(out + [97 + j], 11 + 8 * j)
  {
    hide FixedLit, FixedDist, CodeAt;
    LiteralBits(j);
    LiteralCode(97 + j);
    FixedSymbol(COPIES, 3 + 8 * j, 97 + j);
  }

  lemma MatchItemAt(out: seq<byte>)
    requires out == [97, 98, 99]
    ensures NextItem(COPIES, 27, out, FixedLit(), FixedDist()) == More([97, 98, 99, 98, 99, 98], 39)
  {
    hide FixedLit, FixedDist, CodeAt, CopyMatch;
    MatchBits();
    LiteralCode(257);
    FixedSymbol(COPIES, 27, 257);
    MatchSymbol();
    CopyThree();
    hide MatchAt;
  }

  lemma MatchSymbol()
    ensures MatchAt(COPIES, 34, 257, FixedDist()) == Some(Match(3, 2, 39))
  {
    hide FixedLit, FixedDist, CodeAt;
    MatchBits();
    FixedDistance(COPIES, 34, 1);
    DistanceCode(1);
    assert Field(COPIES, 34, 0) == 0 && Field(COPIES, 39, 0) == 0;
    assert DistBase(1) == 2 && LengthBase(257) == 3;
  }

  lemma CopyThree()
    ensures CopyMatch([97, 98, 99], 3, 2) == [97, 98, 99, 98, 99, 98]
  {
    var a, b, c := [97, 98, 99], [97, 98, 99, 98], [97, 98, 99, 98, 99];
    assert a + [98] == b && b + [99] == c && c + [98] == [97, 98, 99, 98, 99, 98];
    assert CopyMatch(c, 1, 2) == CopyMatch([97, 98, 99, 98, 99, 98], 0, 2);
    assert CopyMatch(b, 2, 2) == CopyMatch(c, 1, 2);
    assert CopyMatch(a, 3, 2) == CopyMatch(b, 2, 2);
  }

  lemma EndItem(out: seq<byte>)
    ensures NextItem(COPIES, 39, out, FixedLit(), FixedDist()) == EndOfBlock(46)
  {
    hide FixedLit, FixedDist, CodeAt;
    MatchBits();
    LiteralCode(256);
    FixedSymbol(COPIES, 39, 256);
  }

  lemma MoreCodes(input: seq<byte>, p: nat, out: seq<byte>, p': nat, out': seq<byte>, limit: nat)
    requires NextItem(input, p, out, FixedLit(), FixedDist()) == More(out', p') && p' <= limit
    ensures Codes(input, p, out, FixedLit(), FixedDist(), limit)
      == Codes(input, p', out', FixedLit(), FixedDist(), limit)
  {
    hide FixedLit, FixedDist, NextItem;
  }

  lemma CopiesBlock()
    ensures Codes(COPIES, 3, [], FixedLit(), FixedDist(), 48) == Some(Step([97, 98, 99, 98, 99, 98], 46))
  {
    hide FixedLit, FixedDist, NextItem;
    LiteralItem(0, []);
    LiteralItem(1, [97]);
    LiteralItem(2, [97, 98]);
    assert [97] + [98] == [97, 98] && [97, 98] + [99] == [97, 98, 99];
    MatchItemAt([97, 98, 99]);
    EndItem([97, 98, 99, 98, 99, 98]);
    assert Codes(COPIES, 39, [97, 98, 99, 98, 99, 98], FixedLit(), FixedDist(), 48)
        == Some(Step([97, 98, 99, 98, 99, 98], 46));
    hide Codes;
    MoreCodes(COPIES, 3, [], 11, [97], 48);
    MoreCodes(COPIES, 11, [97], 19, [97, 98], 48);
    MoreCodes(COPIES, 19, [97, 98], 27, [97, 98, 99], 48);
    MoreCodes(COPIES, 27, [97, 98, 99], 39, [97, 98, 99, 98, 99, 98], 48);
  }

  /** "abcbcb", written as three literals and a match. */
  lemma CopiesInflate()
    ensures Inflated([0x4B, 0x4C, 0x4A, 0x06, 0x42, 0x00], false) == Some([97, 98, 99, 98, 99, 98])
  {
    hide Blocks;
    assert COPIES == [0x4B, 0x4C, 0x4A, 0x06, 0x42, 0x00];
    CopiesStream();
  }

  lemma CopiesStream()
    ensures |COPIES| == 6 && Blocks(COPIES, 0, [], 48) == Some(Step([97, 98, 99, 98, 99, 98], 46))
  {
    hide Field, Codes, FixedLit, FixedDist;
    HeadBits();
    CopiesBlock();
    assert Block(COPIES, 3, 1, [], 48) == Some(Step([97, 98, 99, 98, 99, 98], 46));
  }

  // ---- a stored block ----

  const STORED: seq<byte> := [0x01, 0x02, 0x00, 0xFD, 0xFF, 0x61, 0x62]

  lemma TwoBytes(input: seq<byte>, j: nat)
    ensures Field(input, 8 * j, 16) == ByteAt(input, j) + 256 * ByteAt(input, j + 1)
  {
    FieldSplit(input, 8 * j, 8, 8);
    ByteIsField(input, j);
    ByteIsField(input, j + 1);
    Shl256(ByteAt(input, j + 1));
  }

  lemma Shl256(x: nat)
    ensures Shl(x, 8) == 256 * x
  {
    ShlIsProduct(x, 8);
    Pow2Values();
  }

  lemma StoredHead()
    ensures Field(STORED, 0, 1) == 1 && Field(STORED, 1, 2) == 0
  {
    hide Bit;
    BitsOfByte(STORED, 0);
    assert Field(STORED, 1, 2) == Bit(STORED, 1) + 2 * Bit(STORED, 2);
  }

  /** "ab", stored. */
  lemma StoredInflates()
    ensures Inflated([0x01, 0x02, 0x00, 0xFD, 0xFF, 0x61, 0x62], false) == Some([97, 98])
  {
    hide Field;
    assert STORED == [0x01, 0x02, 0x00, 0xFD, 0xFF, 0x61, 0x62];
    StoredHead();
    TwoBytes(STORED, 1);
    TwoBytes(STORED, 3);
    assert Bytes(STORED, 5, 2) == [97, 98];
    assert [] + [97, 98] == [97, 98];
    assert Block(STORED, 3, 0, [], 56) == Some(Step([97, 98], 56));
  }

  // ---- headers ----

  /** The four usual headers are accepted; other methods, preset dictionaries and wrong check bits are not. */
  lemma UsualHeaders(data: seq<byte>)
    requires data != []
    ensures ZlibHeader([0x78, 0x01] + data) && ZlibHeader([0x78, 0x5E] + data)
    ensures ZlibHeader([0x78, 0x9C] + data) && ZlibHeader([0x78, 0xDA] + data)
    ensures !ZlibHeader([0x79, 0x9C] + data) && !ZlibHeader([0x77, 0x85] + data)
    ensures !ZlibHeader([0x78, 0xBB] + data) && !ZlibHeader([0x78, 0x9D] + data) && !ZlibHeader([0x78, 0x9C])
  {
  }

  /** For every window size and level some check bits make a header, as section 2.2 of RFC 1950 asks. */
  lemma CheckBits(info: nat, level: nat, data: seq<byte>) returns (check: nat)
    requires info < 16 && level < 4 && data != []
    ensures check < 32 && ZlibHeader([16 * info + 8, 64 * level + check] + data)
  {
    var n := 256 * (16 * info + 8) + 64 * level;
    check := UpTo31(n);
    HeaderParts(info, level, check);
    var input := [16 * info + 8, 64 * level + check] + data;
    assert input[0] as int * 256 + input[1] == n + check;
  }

  lemma HeaderParts(info: nat, level: nat, check: nat)
    requires info < 16 && level < 4 && check < 32
    ensures 16 * info + 8 < 256 && 64 * level + check < 256
    ensures (16 * info + 8) % 16 == 8 && (64 * level + check) / 32 % 2 == 0
  {
    assert (64 * level + check) / 32 == 2 * level;
  }

  lemma UpTo31(n: nat) returns (check: nat)
    ensures check < 31 && (n + check) % 31 == 0
  {
    var q, r := n / 31, n % 31;
    check := if r == 0 then 0 else 31 - r;
    assert n + check == 31 * (if r == 0 then q else q + 1);
  }
}
