/** A raster and an order of rows that are known in full. */
module GifSamples {
  import opened Bits
  import opened BitStream
  import opened GifLzw
  import opened GifPlacement
  import opened GifColors

  // ---- three pixels of colour 1 ----

  /** Code size 2, one sub-block of two bytes, and the empty one: the codes 4 (clear), 1, 6 and 5 (end). */
  const RASTER: seq<byte> := [0x02, 0x02, 0x8C, 0x0B, 0x00]

  const CODES: seq<byte> := [0x8C, 0x0B]

  lemma RasterData()
    ensures Data(RASTER, 1, 0) == CODES
  {
    assert Data(RASTER, 4, 0) == [];
    assert Data(RASTER, 3, 1) == [0x0B] + [];
    assert Data(RASTER, 2, 2) == [0x8C] + [0x0B];
  }

  lemma RasterCodes()
    ensures Field(CODES, 0, 3) == 4 && Field(CODES, 3, 3) == 1 && Field(CODES, 6, 3) == 6 && Field(CODES, 9, 3) == 5
  {
    hide Bit;
    BitsOfByte(CODES, 0);
    BitsOfByte(CODES, 1);
    ThreeBits(0);
    ThreeBits(3);
    ThreeBits(6);
    ThreeBits(9);
  }

  lemma ThreeBits(p: nat)
    ensures Field(CODES, p, 3) == Bit(CODES, p) + 2 * Bit(CODES, p + 1) + 4 * Bit(CODES, p + 2)
  {
    hide Bit;
    assert Field(CODES, p + 2, 1) == Bit(CODES, p + 2) + 2 * Field(CODES, p + 3, 0);
    assert Field(CODES, p + 1, 2) == Bit(CODES, p + 1) + 2 * Field(CODES, p + 2, 1);
  }

  /** The string that is just being added is used at once. */
  lemma KnownRaster()
    ensures Indices([0x02, 0x02, 0x8C, 0x0B, 0x00], 0) == Emitted([1, 1, 1])
  {
    assert RASTER == [0x02, 0x02, 0x8C, 0x0B, 0x00];
    RasterData();
    hide Data;
    StartOk(2);
    KnownCodes();
    hide Run;
  }

  lemma KnownSizes()
    ensures Pow2(2) == 4 && Clear(2) == 4 && MaxDict(2) == 4096 && |Initial(2)| == 6
    ensures Initial(2)[1] == [1] && !Widens(6, 3) && !Widens(7, 3) && MAX_CODES == 8192
  {
    Pow2Values();
    assert Pow2(0) == 1;
    assert Low(6, 3) == 6 && Low(7, 3) == 7;
  }

  /** The states of the decoder after the codes 4, 1 and 6. */
  function State(k: nat): Lzw
  {
    if k == 0 then Lzw(Initial(2), 6, -1, 3, true, [])
    else if k == 1 then Lzw(Initial(2), 6, 1, 3, true, [1])
    else Lzw(Initial(2) + [[1, 1]], 7, 6, 3, true, [1, 1, 1])
  }

  lemma ClearAndOne()
    ensures Step(2, Start(2), 4) == Ok(State(0)) && Step(2, State(0), 1) == Ok(State(1))
  {
    KnownSizes();
    hide Initial, Pow2, MaxDict, Widens, Clear;
  }

  lemma SixAndEnd()
    ensures Step(2, State(1), 6) == Ok(State(2)) && Step(2, State(2), 5) == End
  {
    KnownSizes();
    hide Initial, Pow2, MaxDict, Widens, Clear;
    assert StringOf(State(1), 6) == [1] + [1] == [1, 1];
    assert [1] + [1, 1] == [1, 1, 1];
  }

  lemma KnownCodes()
    ensures LzwOk(2, Start(2)) && Run(CODES, 0, 2, Start(2)) == Emitted([1, 1, 1])
  {
    StartOk(2);
    RasterCodes();
    ClearAndOne();
    SixAndEnd();
    hide Field, Initial, Pow2, LzwOk, Step, Run, Clear;
    RunCode(CODES, 0, 2, Start(2));
    RunCode(CODES, 3, 2, State(0));
    RunCode(CODES, 6, 2, State(1));
    RunCode(CODES, 9, 2, State(2));
  }

  // ---- an image descriptor ----

  /** Column 1, row 2, 3 wide, 260 high; interlacing is bit 6 of the flags, and a table has 2 to 256 colours. */
  lemma KnownDescriptor(flags: byte, width: nat, height: nat)
    ensures FrameAt([1, 0, 2, 0, 3, 0, 4, 1, flags], 0, width, height)
         == Frame(1, 2, 3, 260, width, height, 64 <= flags % 128)
    ensures ColorCount(0x80) == 2 && ColorCount(0x81) == 4 && ColorCount(0xA6) == 128 && ColorCount(0xC7) == 256
  {
    Pow2Values();
  }

  /** A frame may cover the whole canvas, and no more. */
  lemma WholeCanvas(width: nat, height: nat, interlaced: bool)
    ensures Fits(Frame(0, 0, width, height, width, height, interlaced))
    ensures !Fits(Frame(1, 0, width, height, width, height, interlaced))
    ensures !Fits(Frame(0, 1, width, height, width, height, interlaced))
  {
  }

  // ---- the rows of an interlaced frame ----

  lemma KnownOrder()
    ensures Order(9, true) == [0, 8, 4, 2, 6, 1, 3, 5, 7] && Order(3, false) == [0, 1, 2]
  {
  }
}
