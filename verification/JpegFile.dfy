/** From the numbers that an encoder writes to the bytes of the file: packed with the highest bit first, with a zero
    stuffed behind every byte 0xFF (section F.1.2.3 of ITU-T T.81). */
module JpegFile {
  import opened Wrappers
  import opened Bits
  import opened JpegReader
  import opened JpegStream
  import opened JpegBits
  import opened JpegAc
  import opened JpegBlocks

  // ---- stuffing ----

  function Stuffed(data: seq<byte>): seq<byte>
  {
    if data == [] then [] else (if data[0] == 0xFF then [0xFF, 0x00] else [data[0]]) + Stuffed(data[1..])
  }

  /** Removing the stuffed zeros gives the data back, whatever stands before and behind it. */
  lemma {:induction false} DestuffInverts(before: seq<byte>, data: seq<byte>, tail: seq<byte>)
    ensures var input := before + Stuffed(data) + tail;
      Destuffed(input, |before|) == data + Destuffed(input, |before + Stuffed(data)|)
    decreases |data|
  {
    var input := before + Stuffed(data) + tail;
    if data == [] {
      assert before + [] == before;
    } else {
      var head := if data[0] == 0xFF then [0xFF, 0x00] else [data[0]];
      var next := before + head;
      assert input == next + Stuffed(data[1..]) + tail && before + Stuffed(data) == next + Stuffed(data[1..]);
      DestuffInverts(next, data[1..], tail);
      DestuffHead(input, |before|, data[0]);
      assert data == [data[0]] + data[1..];
    }
  }

  lemma DestuffHead(input: seq<byte>, pos: nat, b: byte)
    requires pos < |input| && input[pos] == b && (b == 0xFF ==> pos + 1 < |input| && input[pos + 1] == 0)
    ensures Destuffed(input, pos) == [b] + Destuffed(input, if b == 0xFF then pos + 2 else pos + 1)
  {
  }

  /** A byte 0xFF may be preceded by others; followed by anything but zero it is a marker, and ends the data. */
  lemma KnownMarkers(input: seq<byte>)
    ensures input == [0x12, 0xFF, 0xFF, 0xFF, 0x00, 0x34, 0xFF, 0xFF, 0xD9, 0x56] ==>
      Destuffed(input, 0) == [0x12, 0xFF, 0x34]
  {
    if input == [0x12, 0xFF, 0xFF, 0xFF, 0x00, 0x34, 0xFF, 0xFF, 0xD9, 0x56] {
      assert SkipFill(input, 8) == (0xD9, 9) && SkipFill(input, 4) == (0, 5);
      assert SkipFill(input, 7) == (0xD9, 9) && SkipFill(input, 3) == (0, 5) && SkipFill(input, 2) == (0, 5);
      assert Destuffed(input, 6) == [];
      assert Destuffed(input, 5) == [0x34] + [];
      assert Destuffed(input, 1) == [0xFF] + [0x34];
    }
  }

  // ---- packing ----

  /** Bytes appended to a number. */
  function Joined(v: nat, data: seq<byte>): nat
    decreases |data|
  {
    if data == [] then v else Joined(Shl(v, 8) + data[0], data[1..])
  }

  lemma {:induction false} FirstIsJoined(v: nat, k: nat, data: seq<byte>, more: seq<byte>, n: nat)
    requires n <= k + 8 * |data|
    ensures First(v, k, data + more, n) == Shr(Joined(v, data), k + 8 * |data| - n)
    decreases |data|
  {
    if data == [] {
      assert [] + more == more;
    } else {
      hide Shl;
      FirstLoads(v, k, data + more, n);
      assert (data + more)[1..] == data[1..] + more;
      FirstIsJoined(Shl(v, 8) + data[0], k + 8, data[1..], more, n);
    }
  }

  /** The m low bytes of a number, highest first. */
  function BytesOf(v: nat, m: nat): (r: seq<byte>)
    ensures |r| == m
    decreases m
  {
    if m == 0 then [] else BytesOf(v / 256, m - 1) + [v % 256]
  }

  lemma {:induction false} JoinedAppend(v: nat, data: seq<byte>, b: byte)
    ensures Joined(v, data + [b]) == Shl(Joined(v, data), 8) + b
    decreases |data|
  {
    hide Shl;
    if data == [] {
      assert [] + [b] == [b] && [b][1..] == [];
      assert Joined(Shl(v, 8) + b, []) == Shl(v, 8) + b;
    } else {
      assert (data + [b])[1..] == data[1..] + [b];
      JoinedAppend(Shl(v, 8) + data[0], data[1..], b);
    }
  }

  lemma {:induction false} JoinedBytes(v: nat, m: nat)
    requires v < Pow2(8 * m)
    ensures Joined(0, BytesOf(v, m)) == v
    decreases m
  {
    if m > 0 {
      hide Shl, Pow2;
      BytesMore(m);
      QuotientFits(v, Pow2(8 * m - 8));
      JoinedBytes(v / 256, m - 1);
      JoinedAppend(0, BytesOf(v / 256, m - 1), v % 256);
      ShlIsProduct(v / 256, 8);
    }
  }

  lemma BytesMore(m: nat)
    requires m > 0
    ensures Pow2(8 * m) == 256 * Pow2(8 * m - 8)
  {
    Pow2Values();
    hide Pow2, Shl;
    Pow2Add(8 * m - 8, 8);
    ShlIsProduct(Pow2(8 * m - 8), 8);
  }

  lemma QuotientFits(v: nat, k: nat)
    requires v < 256 * k
    ensures v / 256 < k
  {
  }

  // ---- a reader at the beginning ----

  /** The reader after stbi__jpeg_reset. */
  function Fresh(pos: nat): Reader
  {
    Reader(0, 0, pos, 0xFF, false)
  }

  /** A number of n bits, padded to whole bytes and stuffed, is what a fresh reader is about to read. */
  lemma FreshReads(before: seq<byte>, v: nat, n: nat, tail: seq<byte>)
    requires v < Pow2(n)
    ensures var m := (n + 7) / 8;
      ToRead(before + Stuffed(BytesOf(Shl(v, 8 * m - n), m)) + tail, Fresh(|before|), v, n)
  {
    hide Shl, Shr, First, Destuffed;
    var m := (n + 7) / 8;
    var data := BytesOf(Shl(v, 8 * m - n), m);
    var input := before + Stuffed(data) + tail;
    PaddedFits(v, n, 8 * m - n);
    JoinedBytes(Shl(v, 8 * m - n), m);
    DestuffInverts(before, data, tail);
    EmptyBuffer(|before|);
    FirstIsJoined(0, 0, data, Destuffed(input, |before + Stuffed(data)|), n);
    ShrShl(v, 8 * m - n, 8 * m - n);
    ShiftedNot(v);
  }

  lemma PaddedFits(v: nat, n: nat, k: nat)
    requires v < Pow2(n)
    ensures Shl(v, k) < Pow2(n + k)
  {
    hide Shl, Pow2;
    ShlMonotone(v + 1, Pow2(n), k);
    ShlAdd(v, 1, k);
    ShlIsPow2(k);
    Pow2Add(n, k);
    Pow2Positive(k);
  }

  lemma Pow2Positive(k: nat)
    ensures 0 < Pow2(k)
  {
  }

  lemma EmptyBuffer(pos: nat)
    ensures ReaderOk(Fresh(pos)) && Pending(Fresh(pos)) == 0
  {
    hide Shr, Low;
    ShrOfZero(32);
    LowOfZero(32);
  }

  lemma {:induction false} ShrOfZero(n: nat)
    ensures Shr(0, n) == 0
  {
    if n > 0 {
      ShrOfZero(n - 1);
    }
  }

  lemma {:induction false} LowOfZero(n: nat)
    ensures Low(0, n) == 0
  {
    if n > 0 {
      LowOfZero(n - 1);
    }
  }

  lemma ShiftedNot(v: nat)
    ensures Shr(v, 0) == v
  {
  }

  /** A file with a block in it, between anything. */
  ghost function FileWith(before: seq<byte>, tail: seq<byte>, dc: AcCode, ac: AcCode, pred: int, zz: seq<int>,
                          w: Written): seq<byte>
    requires WritesBlock(dc, ac, zz, pred, w)
  {
    var n := BlockSize(dc, ac, zz, pred, w);
    var m := (n + 7) / 8;
    before + Stuffed(BytesOf(Shl(BlockNumber(dc, ac, zz, pred, w), 8 * m - n), m)) + tail
  }

  lemma FileReads(before: seq<byte>, tail: seq<byte>, dc: AcCode, ac: AcCode, pred: int, zz: seq<int>, w: Written)
    requires WritesBlock(dc, ac, zz, pred, w)
    ensures ToRead(FileWith(before, tail, dc, ac, pred, zz, w), Fresh(|before|),
                   Shl(BlockNumber(dc, ac, zz, pred, w), 0) + 0, BlockSize(dc, ac, zz, pred, w) + 0)
  {
    hide WritesBlock, BlockSize, BlockNumber, ToRead, Stuffed, Pow2;
    BlockIsSmall(dc, ac, zz, pred, w);
    FreshReads(before, BlockNumber(dc, ac, zz, pred, w), BlockSize(dc, ac, zz, pred, w), tail);
    assert Shl(BlockNumber(dc, ac, zz, pred, w), 0) == BlockNumber(dc, ac, zz, pred, w);
  }

  /** Packed and stuffed, a block is decoded to its coefficients, dequantized, in their rows and columns. */
  lemma BlockInFile(before: seq<byte>, tail: seq<byte>, dc: AcCode, ac: AcCode, fac: seq<int>, dequant: seq<nat>,
                    pred: int, zz: seq<int>, w: Written)
    requires WritesBlock(dc, ac, zz, pred, w) && |dequant| == 64 && DcInRange(pred, zz[0], dequant[0])
    requires FacTable(ac, fac)
    ensures dc.Ok() && ReaderOk(Fresh(|before|))
    ensures var block := BlockOf(FileWith(before, tail, dc, ac, pred, zz, w), dc, ac, fac, dequant, Fresh(|before|),
                                 pred);
      block.Some? && block.value.1 == zz[0] && InPlace(block.value.2, dequant, zz)
  {
    hide WritesBlock, BlockSize, BlockNumber, FacTable, BlockOf, InPlace, Shl, ToRead, FileWith, DcInRange;
    FileReads(before, tail, dc, ac, pred, zz, w);
    EmptyBuffer(|before|);
    assert 0 < Pow2(0);
    var input := FileWith(before, tail, dc, ac, pred, zz, w);
    var plain := BlockReads(input, dc, ac, fac, dequant, Fresh(|before|), Fresh(|before|), pred, zz, w, 0, 0);
  }
}
