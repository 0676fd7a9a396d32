/** Whole blocks as an encoder writes them, with the difference to the DC coefficient of the block before, and what
    stbi__jpeg_decode_block makes of them. */
module JpegBlocks {
  import opened Wrappers
  import opened Bits
  import opened JpegCanonical
  import opened JpegHuffman
  import opened JpegReader
  import opened JpegStream
  import opened JpegBits
  import opened JpegAc
  import opened JpegZigzag
  import opened JpegEncoding

  // ---- the combined table never cuts a written block short ----

  /** An entry of the table for the bits at hand is about the symbol that comes next. */
  lemma EntrySymbol(input: seq<byte>, h: AcCode, fac: seq<int>, r: Reader, sym: nat)
    requires FacTable(h, fac) && ReaderOk(r) && (16 <= r.bits || r.nomore) && Shr(r.buffer, 23) < 512
    requires fac[Shr(r.buffer, 23)] != 0
    requires Lookup(input, r, h.sizes).Some? && Lookup(input, r, h.sizes).value.0 == sym
    ensures h.Ok() && sym < |h.sizes| && h.values[sym] % 16 != 0
    ensures fac[Shr(r.buffer, 23)] % 16 == h.sizes[sym] + h.values[sym] % 16
  {
    hide HuffCode, Shr, Grow, Magnitude, Begins, Total;
    var x := Shr(r.buffer, 23);
    assert FacEntry(h, x, fac[x]);
    var s: nat :| FacSymbol(h, x, fac[x], s);
    DecodesTo(h.sizes, r.buffer, x, s);
    NotConfused(h.sizes, Shr(r.buffer, 16), s);
    if r.bits < 16 {
      RefillPads(input, r, 16);
    }
    Unpack(Magnitude(x, h.sizes[s], h.values[s] as nat % 16), h.values[s] as nat / 16,
           h.sizes[s] + h.values[s] as nat % 16, fac[x]);
  }

  /** The entry that the table has at a written token is no longer than the token. */
  lemma EntryIsHeld(input: seq<byte>, h: AcCode, fac: seq<int>, zz: seq<int>, r: Reader, k: nat, ts: seq<Token>, b: nat,
                    n: nat)
    requires FacTable(h, fac) && |zz| == 64 && k < 64 && Writes(h, zz, k, ts) && TokensOk(h, ts) && b < Pow2(n)
    requires ToRead(input, r, Shl(Number(h, ts), n) + b, Size(h, ts) + n)
    requires Shr(Refill(input, r, 16).buffer, 23) < 512
    ensures var r0 := Refill(input, r, 16); fac[Shr(r0.buffer, 23)] != 0 ==> fac[Shr(r0.buffer, 23)] % 16 <= r0.bits
  {
    hide Shl, Shr, Fits, Number, Usable, InCategory, Lookup, Refill, ToRead, FacEntry;
    ReaderIsOk(input, r, Shl(Number(h, ts), n) + b, Size(h, ts) + n);
    RefillNext(input, r, 16, Shl(Number(h, ts), n) + b, Size(h, ts) + n);
    RefillOk(input, r, 16);
    var r0 := Refill(input, r, 16);
    if fac[Shr(r0.buffer, 23)] != 0 {
      EntryBits(h, fac, Shr(r0.buffer, 23));
      ReadCode(input, h, r0, ts, b, n);
      EntrySymbol(input, h, fac, r0, ts[0].sym);
    }
  }

  lemma {:induction false} NotCutShort(input: seq<byte>, h: AcCode, fac: seq<int>, dequant: seq<nat>, zz: seq<int>,
                                       r: Reader, k: nat, data: seq<int>, ts: seq<Token>, b: nat, n: nat, dc: int)
    requires FacTable(h, fac) && |zz| == |dequant| == 64 && 1 <= k < 64 && Writes(h, zz, k, ts) && TokensOk(h, ts)
    requires b < Pow2(n) && ToRead(input, r, Shl(Number(h, ts), n) + b, Size(h, ts) + n)
    requires Filled(data, dequant, zz, k, dc)
    ensures ReaderOk(r) && |data| == 64 && !CutShort(input, h, fac, dequant, r, k, data)
    decreases 64 - k
  {
    hide Fits, Number, Size, InCategory, Usable, Dezigzag, ToInt16, SlowStep, Refill, Shl, Shr, ToRead, Filled;
    hide FacEntry;
    ReaderIsOk(input, r, Shl(Number(h, ts), n) + b, Size(h, ts) + n);
    FilledLength(data, dequant, zz, k, dc);
    RefillNext(input, r, 16, Shl(Number(h, ts), n) + b, Size(h, ts) + n);
    var r0 := Refill(input, r, 16);
    ReaderIsOk(input, r0, Shl(Number(h, ts), n) + b, Size(h, ts) + n);
    ShrBound32(r0.buffer);
    EntryIsHeld(input, h, fac, zz, r, k, ts, b, n);
    ReadToken(input, h, dequant, zz, r0, k, data, ts, b, n, dc);
    StepOk(input, h, dequant, r0, k, data);
    var st := SlowStep(input, h, dequant, r0, k, data);
    TokensRest(h, ts);
    if st.Next? && st.k < 64 {
      NotCutShort(input, h, fac, dequant, zz, st.r, st.k, st.data, ts[1..], b, n, dc);
    }
  }

  // ---- the DC coefficient ----

  /** The symbol is the category of the difference (section F.1.2.1). */
  predicate WritesDc(h: AcCode, diff: int, sym: nat)
  {
    && h.Ok() && Usable(h.sizes, sym) && h.values[sym] <= 15
    && if h.values[sym] == 0 then diff == 0 else InCategory(diff, h.values[sym])
  }

  function DcSize(h: AcCode, diff: int, sym: nat): nat
    requires WritesDc(h, diff, sym)
  {
    h.sizes[sym] + h.values[sym]
  }

  function DcExtra(h: AcCode, diff: int, sym: nat): (r: nat)
    requires WritesDc(h, diff, sym)
    ensures r < Pow2(h.values[sym])
  {
    if h.values[sym] == 0 then 0 else ValueBits(diff, h.values[sym])
  }

  /** The code of the category, and the bits of the difference. */
  function DcNumber(h: AcCode, diff: int, sym: nat): nat
    requires WritesDc(h, diff, sym)
  {
    Shl(HuffCode(h.sizes, sym), h.values[sym]) + DcExtra(h, diff, sym)
  }

  lemma DcFits(h: AcCode, diff: int, sym: nat)
    requires WritesDc(h, diff, sym)
    ensures DcNumber(h, diff, sym) < Pow2(DcSize(h, diff, sym))
  {
    hide Shl, HuffCode, DcExtra, InCategory, Pow2;
    CodeWidth(h.sizes, sym);
    BelowPow2(HuffCode(h.sizes, sym), h.sizes[sym], DcExtra(h, diff, sym), h.values[sym]);
  }

  /** The sum with the prediction and its product with the quantizer are numbers of the right width. */
  predicate DcInRange(pred: int, dc: int, q: nat)
  {
    && INT_MIN <= pred <= INT_MAX && INT_MIN <= dc - pred <= INT_MAX && INT_MIN <= dc <= INT_MAX
    && -0x8000 <= dc * q <= 0x7FFF
  }

  lemma DcChecks(pred: int, dc: int, q: nat)
    requires DcInRange(pred, dc, q)
    ensures AddIntsValid(pred, dc - pred) && Mul2ShortsValid(dc, q) && ToInt16(dc * q) == dc * q
  {
    AddIntsValidMeans(pred, dc - pred);
    Mul2ShortsValidMeans(dc, q);
  }

  lemma DcSplit(c: nat, s: nat, x: nat, n: nat, b: nat)
    ensures Shl(Shl(c, s) + x, n) + b == Shl(c, s + n) + (Shl(x, n) + b)
  {
    hide Shl;
    ShlAdd(Shl(c, s), x, n);
    ShlShl(c, s, n);
  }

  lemma DcSymbol(input: seq<byte>, h: AcCode, diff: int, sym: nat, r: Reader, b: nat, n: nat)
    requires WritesDc(h, diff, sym) && b < Pow2(n)
    requires ToRead(input, r, Shl(DcNumber(h, diff, sym), n) + b, DcSize(h, diff, sym) + n)
    ensures ReaderOk(r) && ReaderOk(Refill(input, r, 16)) && Sizes(h.sizes)
    ensures var d := Lookup(input, Refill(input, r, 16), h.sizes);
      && d.Some? && d.value.0 == sym
      && ToRead(input, d.value.1, Shl(DcExtra(h, diff, sym), n) + b, h.values[sym] + n)
  {
    hide Shl, HuffCode, DcExtra, InCategory, Pow2, Lookup, Ahead, Refill, Fits, Sizes;
    SizesOk(h);
    var v := Shl(DcNumber(h, diff, sym), n) + b;
    RefillNext(input, r, 16, v, DcSize(h, diff, sym) + n);
    DcSplit(HuffCode(h.sizes, sym), h.values[sym], DcExtra(h, diff, sym), n, b);
    BelowPow2(DcExtra(h, diff, sym), h.values[sym], b, n);
    ReadSymbol(input, Refill(input, r, 16), h.sizes, sym, Shl(DcExtra(h, diff, sym), n) + b, h.values[sym] + n);
  }

  lemma SizesOk(h: AcCode)
    requires h.Ok()
    ensures Sizes(h.sizes) && |h.sizes| <= 256 == |h.values|
  {
  }

  /** The DC coefficient is the prediction and the difference that has been written. */
  lemma DcReads(input: seq<byte>, h: AcCode, pred: int, dc: int, q: nat, sym: nat, r: Reader, b: nat, n: nat)
    requires WritesDc(h, dc - pred, sym) && DcInRange(pred, dc, q) && b < Pow2(n)
    requires ToRead(input, r, Shl(DcNumber(h, dc - pred, sym), n) + b, DcSize(h, dc - pred, sym) + n)
    ensures ReaderOk(r)
    ensures var d := DecodeDc(input, h, r, pred, q);
      d.DcOk? && d.pred == dc && d.value == dc * q && ToRead(input, d.r, b, n)
  {
    hide Shl, InCategory, Lookup, Receive, Refill, Fits, Usable, AddIntsValid, Mul2ShortsValid, ToInt16, ToRead, Extend;
    hide DcNumber, ValueBits;
    DcSymbol(input, h, dc - pred, sym, r, b, n);
    DcChecks(pred, dc, q);
    var r1 := Lookup(input, Refill(input, r, 16), h.sizes).value.1;
    var s: nat := h.values[sym];
    if s == 0 {
      NothingInFront(b, n);
    } else {
      ReadValue(input, r1, s, DcExtra(h, dc - pred, sym), b, n);
      ExtendInverts(dc - pred, s);
    }
  }

  // ---- whole blocks ----

  /** A block as it is written: the DC difference and the tokens of the AC coefficients, zz in the order of figure 5. */
  datatype Written = Written(sym: nat, ts: seq<Token>)

  predicate WritesBlock(dc: AcCode, ac: AcCode, zz: seq<int>, pred: int, w: Written)
  {
    |zz| == 64 && ac.Ok() && WritesDc(dc, zz[0] - pred, w.sym) && Writes(ac, zz, 1, w.ts) && TokensOk(ac, w.ts)
  }

  function BlockSize(dc: AcCode, ac: AcCode, zz: seq<int>, pred: int, w: Written): nat
    requires WritesBlock(dc, ac, zz, pred, w)
  {
    DcSize(dc, zz[0] - pred, w.sym) + Size(ac, w.ts)
  }

  function BlockNumber(dc: AcCode, ac: AcCode, zz: seq<int>, pred: int, w: Written): nat
    requires WritesBlock(dc, ac, zz, pred, w)
  {
    Shl(DcNumber(dc, zz[0] - pred, w.sym), Size(ac, w.ts)) + Number(ac, w.ts)
  }

  lemma BlockIsSmall(dc: AcCode, ac: AcCode, zz: seq<int>, pred: int, w: Written)
    requires WritesBlock(dc, ac, zz, pred, w)
    ensures BlockNumber(dc, ac, zz, pred, w) < Pow2(BlockSize(dc, ac, zz, pred, w))
  {
    hide Shl, DcNumber, DcSize, Number, Size, WritesDc, Writes, Pow2;
    DcFits(dc, zz[0] - pred, w.sym);
    NumberFits(ac, w.ts);
    BelowPow2(DcNumber(dc, zz[0] - pred, w.sym), DcSize(dc, zz[0] - pred, w.sym), Number(ac, w.ts), Size(ac, w.ts));
  }

  /** Row i and column j hold the coefficient that figure 5 has there, dequantized. */
  predicate InPlace(data: seq<int>, dequant: seq<nat>, zz: seq<int>)
    requires |dequant| == |zz| == 64
  {
    && |data| == 64
    && forall i: nat, j: nat :: i < 8 && j < 8 ==>
      data[8 * i + j] == ToInt16(zz[Figure5(i, j)] * dequant[8 * i + j])
  }

  lemma FilledIsInPlace(data: seq<int>, dequant: seq<nat>, zz: seq<int>)
    requires |dequant| == |zz| == 64 && Filled(data, dequant, zz, 64, ToInt16(zz[0] * dequant[0]))
    ensures InPlace(data, dequant, zz)
  {
    hide Dezigzag, ToInt16, Figure5;
    forall i: nat, j: nat | i < 8 && j < 8
      ensures data[8 * i + j] == ToInt16(zz[Figure5(i, j)] * dequant[8 * i + j])
    {
      FigureRow(i, j);
      ZigzagOrder(0);
    }
  }

  lemma BlockFits(dc: AcCode, ac: AcCode, zz: seq<int>, pred: int, w: Written, b: nat, n: nat)
    requires WritesBlock(dc, ac, zz, pred, w) && b < Pow2(n)
    ensures var d := zz[0] - pred;
      && Shl(Number(ac, w.ts), n) + b < Pow2(Size(ac, w.ts) + n)
      && Shl(BlockNumber(dc, ac, zz, pred, w), n) + b
         == Shl(DcNumber(dc, d, w.sym), Size(ac, w.ts) + n) + (Shl(Number(ac, w.ts), n) + b)
  {
    hide Shl, DcNumber, DcSize, Number, Size, WritesDc, Writes, Pow2;
    NumberFits(ac, w.ts);
    BelowPow2(Number(ac, w.ts), Size(ac, w.ts), b, n);
    DcSplit(DcNumber(dc, zz[0] - pred, w.sym), Size(ac, w.ts), Number(ac, w.ts), n, b);
  }

  lemma StartsFilled(dequant: seq<nat>, zz: seq<int>, v: int)
    requires |dequant| == |zz| == 64
    ensures Filled(Zeros64()[0 := v], dequant, zz, 1, v)
  {
    hide Dezigzag;
    ZigzagOrder(0);
    forall j | 1 <= j < 64
      ensures Zeros64()[0 := v][Dezigzag(j)] == 0
    {
      ZigzagOrder(j);
    }
  }

  /** A written block, read without the combined table. */
  lemma PlainReads(input: seq<byte>, dc: AcCode, ac: AcCode, dequant: seq<nat>, r: Reader, pred: int, zz: seq<int>,
                   w: Written, b: nat, n: nat)
    requires WritesBlock(dc, ac, zz, pred, w) && |dequant| == 64 && DcInRange(pred, zz[0], dequant[0]) && b < Pow2(n)
    requires ToRead(input, r, Shl(BlockNumber(dc, ac, zz, pred, w), n) + b, BlockSize(dc, ac, zz, pred, w) + n)
    ensures ReaderOk(r) && dc.Ok() && ac.Ok()
    ensures var block := PlainBlockOf(input, dc, ac, dequant, r, pred);
      && block.Some? && block.value.1 == zz[0] && InPlace(block.value.2, dequant, zz)
      && ToRead(input, block.value.0, b, n)
  {
    hide Shl, DcNumber, DcSize, Number, Size, ToRead, Fits, InCategory, SlowBlock, DecodeDc, Filled, ToInt16, InPlace;
    hide Zeros64, Usable, Writes, BlockNumber, Pow2;
    BlockFits(dc, ac, zz, pred, w, b, n);
    DcReads(input, dc, pred, zz[0], dequant[0], w.sym, r, Shl(Number(ac, w.ts), n) + b, Size(ac, w.ts) + n);
    DcReaderOk(input, dc, r, pred, dequant[0]);
    var d := DecodeDc(input, dc, r, pred, dequant[0]);
    DcChecks(pred, zz[0], dequant[0]);
    StartsFilled(dequant, zz, d.value);
    SlowBlockReads(input, ac, dequant, zz, d.r, 1, Zeros64()[0 := d.value], w.ts, b, n, d.value);
    FilledIsInPlace(SlowBlock(input, ac, dequant, d.r, 1, Zeros64()[0 := d.value]).data, dequant, zz);
  }

  lemma WrittenIsWhole(input: seq<byte>, dc: AcCode, ac: AcCode, fac: seq<int>, dequant: seq<nat>, r: Reader, pred: int,
                       zz: seq<int>, w: Written, b: nat, n: nat)
    requires WritesBlock(dc, ac, zz, pred, w) && |dequant| == 64 && DcInRange(pred, zz[0], dequant[0]) && b < Pow2(n)
    requires ToRead(input, r, Shl(BlockNumber(dc, ac, zz, pred, w), n) + b, BlockSize(dc, ac, zz, pred, w) + n)
    requires FacTable(ac, fac)
    ensures ReaderOk(r) && dc.Ok() && !BlockCutShort(input, dc, ac, fac, dequant, r, pred)
  {
    hide Shl, DcNumber, DcSize, Number, Size, ToRead, Fits, InCategory, CutShort, DecodeDc, Filled, ToInt16;
    hide Zeros64, Usable, Writes, BlockNumber, Pow2;
    BlockFits(dc, ac, zz, pred, w, b, n);
    DcReads(input, dc, pred, zz[0], dequant[0], w.sym, r, Shl(Number(ac, w.ts), n) + b, Size(ac, w.ts) + n);
    DcReaderOk(input, dc, r, pred, dequant[0]);
    var d := DecodeDc(input, dc, r, pred, dequant[0]);
    StartsFilled(dequant, zz, d.value);
    NotCutShort(input, ac, fac, dequant, zz, d.r, 1, Zeros64()[0 := d.value], w.ts, b, n, d.value);
  }

  /** Decoding inverts encoding: whatever codes and tokens a block has been written with, stbi__jpeg_decode_block gives
      it back, with every coefficient dequantized in its row and column, and leaves the bits behind it.  The reader may
      be one that blocks before this one have left; `plain` is what they would leave without the combined table. */
  lemma BlockReads(input: seq<byte>, dc: AcCode, ac: AcCode, fac: seq<int>, dequant: seq<nat>, r: Reader, plain: Reader,
                   pred: int, zz: seq<int>, w: Written, b: nat, n: nat) returns (plain': Reader)
    requires WritesBlock(dc, ac, zz, pred, w) && |dequant| == 64 && DcInRange(pred, zz[0], dequant[0]) && b < Pow2(n)
    requires ToRead(input, plain, Shl(BlockNumber(dc, ac, zz, pred, w), n) + b, BlockSize(dc, ac, zz, pred, w) + n)
    requires FacTable(ac, fac) && ReaderOk(r) && SameBits(r, plain)
    ensures dc.Ok()
    ensures var block := BlockOf(input, dc, ac, fac, dequant, r, pred);
      && block.Some? && block.value.1 == zz[0] && InPlace(block.value.2, dequant, zz)
      && SameBits(block.value.0, plain') && ToRead(input, plain', b, n)
  {
    hide Shl, DcNumber, DcSize, Number, Size, ToRead, Fits, InPlace, BlockOf, PlainBlockOf, BlockCutShort, WritesBlock;
    hide BlockNumber, BlockSize, SameBits, Pow2, FacTable;
    PlainReads(input, dc, ac, dequant, plain, pred, zz, w, b, n);
    WrittenIsWhole(input, dc, ac, fac, dequant, plain, pred, zz, w, b, n);
    TableIsOptional(input, dc, ac, fac, dequant, r, plain, pred);
    plain' := PlainBlockOf(input, dc, ac, dequant, plain, pred).value.0;
  }

  // ---- every block can be written ----

  /** The code has a symbol that can be used for this value. */
  ghost predicate HasSymbol(h: AcCode, rs: nat)
    requires h.Ok()
  {
    exists sym: nat :: Usable(h.sizes, sym) && h.values[sym] == rs
  }

  lemma SymbolFor(h: AcCode, rs: nat) returns (sym: nat)
    requires h.Ok() && HasSymbol(h, rs)
    ensures Usable(h.sizes, sym) && sym < |h.values| && h.values[sym] == rs
  {
    sym :| Usable(h.sizes, sym) && h.values[sym] == rs;
  }

  lemma {:induction false} CategoryOf(v: int, n: nat) returns (s: nat)
    requires v != 0 && Abs(v) < Pow2(n)
    ensures InCategory(v, s) && s <= n
  {
    if n > 0 && Abs(v) < Pow2(n - 1) {
      s := CategoryOf(v, n - 1);
    } else {
      s := n;
    }
  }

  /** The first coefficient from number k on that is not zero. */
  lemma {:induction false} FirstNonzero(zz: seq<int>, k: nat) returns (j: nat)
    requires |zz| == 64 && k <= 64
    ensures k <= j <= 64 && Zeros(zz, k, j) && (j < 64 ==> zz[j] != 0)
    decreases 64 - k
  {
    if k == 64 || zz[k] != 0 {
      j := k;
    } else {
      j := FirstNonzero(zz, k + 1);
    }
  }

  /** A code with symbols for the end of a block, for sixteen zeros, and for every run with up to m value bits, can
      write every block of coefficients below 2^m. */
  lemma {:induction false} EveryBlockHasTokens(h: AcCode, zz: seq<int>, m: nat, k: nat) returns (ts: seq<Token>)
    requires h.Ok() && |zz| == 64 && 1 <= k <= 64 && m <= 15 && HasSymbol(h, 0) && HasSymbol(h, 0xF0)
    requires forall rs: nat :: rs < 256 && 1 <= rs % 16 <= m ==> HasSymbol(h, rs)
    requires forall i :: 1 <= i < 64 ==> Abs(zz[i]) < Pow2(m)
    ensures Writes(h, zz, k, ts) && TokensOk(h, ts)
    decreases 64 - k
  {
    hide Fits, Usable, InCategory, HasSymbol, Pow2, Abs;
    if k == 64 {
      ts := [];
    } else {
      var j := FirstNonzero(zz, k);
      if j == 64 {
        var sym := SymbolFor(h, 0);
        ts := [EndOfBlock(sym)];
      } else if j >= k + 16 {
        var sym := SymbolFor(h, 0xF0);
        var more := EveryBlockHasTokens(h, zz, m, k + 16);
        ts := [SixteenZeros(sym)] + more;
      } else {
        var s := CategoryOf(zz[j], m);
        CategoryIsPositive(zz[j], s);
        assert (16 * (j - k) + s) % 16 == s;
        var sym := SymbolFor(h, 16 * (j - k) + s);
        var more := EveryBlockHasTokens(h, zz, m, j + 1);
        ts := [Coefficient(sym, zz[j])] + more;
      }
      UsableIndex(h, ts[0].sym);
    }
    WritesOk(h, zz, k, ts);
  }

  lemma UsableIndex(h: AcCode, sym: nat)
    requires h.Ok() && Usable(h.sizes, sym)
    ensures sym < |h.sizes| <= |h.values|
  {
  }
}
