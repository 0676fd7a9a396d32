/** Decoding the AC coefficients of a baseline JPEG block (section F.2.2.2 of ITU-T T.81), by Huffman
    decoding followed by receive-and-extend, and with a table that does both for short codes. */
module JpegAc {
  import opened Wrappers
  import opened Bits
  import opened JpegCanonical
  import opened JpegHuffman
  import opened JpegReader

  /** An AC code: symbol values RS for the canonical code of the size list. */
  datatype AcCode = AcCode(sizes: seq<nat>, values: seq<byte>) {
    predicate Ok()
    {
      Fits(sizes) && |values| == 256
    }
  }

  // ---- the combined table ----

  /** The number in the mag bits that follow a len-bit code in the 9-bit window x. */
  function Magnitude(x: nat, len: nat, mag: nat): int
    requires 0 < mag && len + mag <= 9
  {
    Extend(Low(Shr(x, 9 - len - mag), mag), mag)
  }

  /** fac[x] == f: run, total length and value of a short code with all its bits in the window, or 0. */
  ghost predicate FacEntry(h: AcCode, x: nat, f: int)
    requires h.Ok()
  {
    f != 0 ==> exists sym: nat :: FacSymbol(h, x, f, sym)
  }

  predicate FacSymbol(h: AcCode, x: nat, f: int, sym: nat)
    requires h.Ok()
  {
    sym < 255 && FastMatch(h.sizes, sym, x) &&
      var len, run, mag := h.sizes[sym], h.values[sym] / 16, h.values[sym] % 16;
      mag != 0 && len + mag <= 9 && f == Magnitude(x, len, mag) * 256 + run * 16 + (len + mag)
  }

  /** The combined table, or no table at all (all zeros). */
  ghost predicate FacTable(h: AcCode, fac: seq<int>)
  {
    h.Ok() && |fac| == 512 && forall x: nat :: x < 512 ==> FacEntry(h, x, fac[x])
  }

  /** sym is a short code whose magnitude bits are in the window too, with a value that fits in 8 bits. */
  predicate Combinable(h: AcCode, x: nat, sym: nat)
    requires h.Ok()
  {
    sym < 255 && FastMatch(h.sizes, sym, x) &&
      var len, mag := h.sizes[sym], h.values[sym] % 16;
      mag != 0 && len + mag <= 9 && -128 <= Magnitude(x, len, mag) <= 127
  }

  /** No entry is missing. */
  ghost predicate FacComplete(h: AcCode, fac: seq<int>)
    requires h.Ok() && |fac| == 512
  {
    forall x: nat, sym: nat :: x < 512 && Combinable(h, x, sym) ==> FacSymbol(h, x, fac[x], sym)
  }

  // ---- one coefficient ----

  /** stbi__jpeg_dezigzag, eight entries a row; a corrupt stream can run past position 63. */
  const DEZIGZAG: seq<seq<nat>> := [
    [0, 1, 8, 16, 9, 2, 3, 10],
    [17, 24, 32, 25, 18, 11, 4, 5],
    [12, 19, 26, 33, 40, 48, 41, 34],
    [27, 20, 13, 6, 7, 14, 21, 28],
    [35, 42, 49, 56, 57, 50, 43, 36],
    [29, 22, 15, 23, 30, 37, 44, 51],
    [58, 59, 52, 45, 38, 31, 39, 46],
    [53, 60, 61, 54, 47, 55, 62, 63],
    [63, 63, 63, 63, 63, 63, 63, 63],
    [63, 63, 63, 63, 63, 63, 63]]

  function Dezigzag(k: nat): (r: nat)
    requires k < 79
    ensures r < 64
  {
    DEZIGZAG[k / 8][k % 8]
  }

  /** Conversion to a 16-bit signed integer. */
  function ToInt16(x: int): int
  {
    (x + 0x8000) % 0x1_0000 - 0x8000
  }

  /** Stores coefficient v at zigzag position k, dequantized. */
  function Store(data: seq<int>, dequant: seq<nat>, k: nat, v: int): (r: seq<int>)
    requires |data| == |dequant| == 64 && k < 79
    ensures |r| == 64
  {
    var zig := Dezigzag(k);
    data[zig := ToInt16(v * dequant[zig])]
  }

  /** The outcome of a step: an error, the end of the block, or the next position and data. */
  datatype Step = Bad(r: Reader) | EndBlock(r: Reader) | Next(r: Reader, k: nat, data: seq<int>)

  /** Figure F.13 without the acceleration; r has been refilled. */
  ghost function SlowStep(input: seq<byte>, h: AcCode, dequant: seq<nat>, r: Reader, k: nat, data: seq<int>): Step
    requires h.Ok() && 0 <= r.bits && |data| == |dequant| == 64 && k < 64
  {
    match Lookup(input, r, h.sizes)
    case None => Bad(r)
    case Some((sym, r1)) =>
      var rs := h.values[sym];
      var run, s := rs / 16, rs % 16;
      if s == 0 then if rs != 0xF0 then EndBlock(r1) else Next(r1, k + 16, data)
      else
        var (r2, v) := Receive(input, r1, s);
        Next(r2, k + run + 1, Store(data, dequant, k + run, v))
  }

  /** The step the decoder takes: the table first. */
  ghost function FastStep(input: seq<byte>, h: AcCode, fac: seq<int>, dequant: seq<nat>, r: Reader, k: nat,
                          data: seq<int>): Step
    requires FacTable(h, fac) && ReaderOk(r) && |data| == |dequant| == 64 && k < 64
  {
    ShrBound32(r.buffer);
    var f := fac[Shr(r.buffer, 23)];
    if f != 0 then
      var s := f % 16;
      if s > r.bits then Bad(r)
      else
        var run := f / 16 % 16;
        Next(Consume(r, s), k + run + 1, Store(data, dequant, k + run, f / 256))
    else SlowStep(input, h, dequant, r, k, data)
  }

  lemma ShrBound32(b: nat)
    requires b < 0x1_0000_0000
    ensures Shr(b, 23) < 512 && Shr(b, 16) < 0x1_0000
  {
    Pow2Values();
    ShrBound(b, 9, 23);
    ShrBound(b, 16, 16);
  }

  /** The fields packed into a table entry. */
  lemma Unpack(v: int, run: nat, n: nat, f: int)
    requires f == v * 256 + run * 16 + n && run < 16 && n < 16
    ensures f % 16 == n && f / 16 % 16 == run && f / 256 == v
  {
  }

  /** Bits of the 9-bit window are bits of the buffer. */
  lemma WindowBits(b: nat, len: nat, mag: nat)
    requires len + mag <= 9
    ensures Low(Shr(Shr(b, 23), 9 - len - mag), mag) == Shr(Low(Shl(b, len), 32), 32 - mag)
  {
    ShrShr(b, 23, 9 - len - mag);
    TopAfterShift(b, 32, len, mag);
  }

  /** Two shifts of the buffer are one. */
  lemma ConsumeTwice(r: Reader, m: nat, n: nat)
    ensures Consume(Consume(r, m), n) == Consume(r, m + n)
  {
    LowShlLow(Shl(r.buffer, m), n, 32);
    ShlShl(r.buffer, m, n);
  }

  /** With 16 bits at hand, the table gives exactly what Huffman decoding and receive-and-extend give. */
  lemma FastStepIsSlowStep(input: seq<byte>, h: AcCode, fac: seq<int>, dequant: seq<nat>, r: Reader, k: nat,
                           data: seq<int>)
    requires FacTable(h, fac) && ReaderOk(r) && 16 <= r.bits && |data| == |dequant| == 64 && k < 64
    ensures FastStep(input, h, fac, dequant, r, k, data) == SlowStep(input, h, dequant, r, k, data)
  {
    hide Low, Shr, Shl, Fits, Store, FastMatch, Consume, Begins;
    ShrBound32(r.buffer);
    var x := Shr(r.buffer, 23);
    assert FacEntry(h, x, fac[x]);
    if fac[x] != 0 {
      var sym: nat :| FacSymbol(h, x, fac[x], sym);
      FacDecodes(input, h, r, x, fac[x], sym);
    }
  }

  lemma FacDecodes(input: seq<byte>, h: AcCode, r: Reader, x: nat, f: int, sym: nat)
    requires h.Ok() && ReaderOk(r) && 16 <= r.bits && x == Shr(r.buffer, 23) && FacSymbol(h, x, f, sym)
    ensures Lookup(input, r, h.sizes) == Some((sym, Consume(r, h.sizes[sym])))
    ensures Receive(input, Consume(r, h.sizes[sym]), h.values[sym] % 16) == (Consume(r, f % 16), f / 256)
    ensures f / 16 % 16 == h.values[sym] / 16 && f % 16 <= 9
  {
    hide Low, Shr, Shl, HuffCode, Total;
    var len, run, mag := h.sizes[sym], h.values[sym] as nat / 16, h.values[sym] as nat % 16;
    Unpack(Magnitude(x, len, mag), run, len + mag, f);
    DecodesTo(h.sizes, r.buffer, x, sym);
    NotConfused(h.sizes, Shr(r.buffer, 16), sym);
    WindowBits(r.buffer, len, mag);
    ConsumeTwice(r, len, mag);
  }

  lemma NotConfused(sizes: seq<nat>, w: nat, k: nat)
    requires Sizes(sizes) && k < 255 && SymbolOf(sizes, w) == Some(k)
    ensures !Confused(sizes, w)
  {
    hide HuffCode, Shr;
    if Confused(sizes, w) {
      BeginsUnique(sizes, 255, k, w);
    }
  }

  lemma DecodesTo(sizes: seq<nat>, b: nat, x: nat, sym: nat)
    requires Sizes(sizes) && x == Shr(b, 23) && FastMatch(sizes, sym, x)
    ensures SymbolOf(sizes, Shr(b, 16)) == Some(sym)
  {
    hide Shr, HuffCode, Sizes;
    ShrShr(b, 16, 7);
    FastMatchBegins(sizes, sym, x, Shr(b, 16));
    BeginsUnique(sizes, sym, SymbolOf(sizes, Shr(b, 16)).value, Shr(b, 16));
  }

  // ---- the DC coefficient ----

  const INT_MAX: int := 0x7FFF_FFFF
  const INT_MIN: int := -0x8000_0000

  /** stbi__addints_valid. */
  predicate AddIntsValid(a: int, b: int)
  {
    if (a >= 0) != (b >= 0) then true
    else if a < 0 && b < 0 then a >= INT_MIN - b
    else a <= INT_MAX - b
  }

  /** It tells exactly whether the sum of two 32-bit integers overflows. */
  lemma AddIntsValidMeans(a: int, b: int)
    requires INT_MIN <= a <= INT_MAX && INT_MIN <= b <= INT_MAX
    ensures AddIntsValid(a, b) <==> INT_MIN <= a + b <= INT_MAX
  {
  }

  /** C's division, which truncates toward zero. */
  function CDiv(a: int, b: int): int
    requires b != 0
  {
    if (a >= 0) == (b >= 0) then Absolute(a) / Absolute(b) else -(Absolute(a) / Absolute(b))
  }

  function Absolute(a: int): (r: nat)
    ensures a != 0 ==> r != 0
  {
    if a < 0 then -a else a
  }

  /** stbi__mul2shorts_valid. */
  predicate Mul2ShortsValid(a: int, b: int)
  {
    if b == 0 || b == -1 then true
    else if (a >= 0) == (b >= 0) then a <= CDiv(0x7FFF, b)
    else if b < 0 then a <= CDiv(-0x8000, b)
    else a >= CDiv(-0x8000, b)
  }

  predicate ProductFits(a: int, b: int)
  {
    -0x8000 <= a * b <= 0x7FFF
  }

  /** For b >= 0, which is how it is called, it tells exactly whether the product is a short. */
  lemma Mul2ShortsValidMeans(a: int, b: nat)
    ensures Mul2ShortsValid(a, b) <==> ProductFits(a, b)
  {
    if b > 0 {
      if a >= 0 {
        Quotient(a, b, 0x7FFF);
      } else {
        Quotient(-a, b, 0x8000);
      }
    }
  }

  /** For other b it is right except for these: -1 with a product that does not fit, which is never checked, and two
      negative factors, where the comparison is the wrong way round and is right only where both ways agree. */
  lemma Mul2ShortsValidIff(a: int, b: int)
    ensures (Mul2ShortsValid(a, b) <==> ProductFits(a, b))
       <==> (b == -1 ==> -0x7FFF <= a <= 0x8000) && (b < -1 && a < 0 ==> a == -(0x7FFF / -b))
  {
    if b >= 0 {
      Mul2ShortsValidMeans(a, b);
    } else if b < -1 {
      if a >= 0 {
        Quotient(a, -b, 0x8000);
        NegatedProduct(a, b);
      } else {
        Quotient(-a, -b, 0x7FFF);
        NegatedProduct(-a, b);
      }
    }
  }

  lemma NegatedProduct(a: nat, b: int)
    requires b < 0
    ensures a * b == -(a * -b) && (-(a as int)) * b == a * -b && a * -b >= 0
  {
  }

  lemma Quotient(a: nat, b: nat, c: nat)
    requires b > 0
    ensures a <= c / b <==> a * b <= c
  {
    var q := c / b;
    assert c == q * b + c % b;
    if a <= q {
      assert a * b <= q * b;
    } else {
      assert (q + 1) * b <= a * b;
    }
  }

  datatype Dc = DcBad | DcOk(r: Reader, pred: int, value: int)

  /** Section F.2.2.1: the difference to the previous DC coefficient. */
  ghost function DecodeDc(input: seq<byte>, h: AcCode, r: Reader, pred: int, dequant: nat): Dc
    requires h.Ok() && ReaderOk(r)
  {
    RefillOk(input, r, 16);
    match Lookup(input, Refill(input, r, 16), h.sizes)
    case None => DcBad
    case Some((sym, r1)) =>
      var t := h.values[sym];
      if t > 15 then DcBad
      else
        FoundOk(input, Refill(input, r, 16), h);
        var (r2, diff) := if t == 0 then (r1, 0) else Receive(input, r1, t);
        if !AddIntsValid(pred, diff) || !Mul2ShortsValid(pred + diff, dequant) then DcBad
        else DcOk(r2, pred + diff, ToInt16((pred + diff) * dequant))
  }

  lemma FoundOk(input: seq<byte>, r: Reader, h: AcCode)
    requires h.Ok() && ReaderOk(r)
    ensures Lookup(input, r, h.sizes).Some? ==>
      ReaderOk(Lookup(input, r, h.sizes).value.1) && (r.nomore ==> Lookup(input, r, h.sizes).value.1.nomore)
  {
    hide Total, Grow, Consume, Pending;
    RefillOk(input, r, 16);
    var r1, d := Refill(input, r, 16), Lookup(input, r, h.sizes);
    if d.Some? {
      if d.value.1 == Consume(r1, 10) && 10 <= r1.bits {
        ConsumeMeaning(r1, 10);
      } else {
        ConsumeMeaning(r1, h.sizes[d.value.0]);
      }
    }
  }

  lemma DcReaderOk(input: seq<byte>, h: AcCode, r: Reader, pred: int, dequant: nat)
    requires h.Ok() && ReaderOk(r)
    ensures var d := DecodeDc(input, h, r, pred, dequant); d.DcOk? ==> ReaderOk(d.r)
  {
    hide Total, HuffCode, Grow, Consume, Pending, AddIntsValid, Mul2ShortsValid, ToInt16, Receive;
    RefillOk(input, r, 16);
    FoundOk(input, Refill(input, r, 16), h);
    var d := Lookup(input, Refill(input, r, 16), h.sizes);
    if d.Some? && 0 < h.values[d.value.0] <= 15 {
      ReceiveOk(input, d.value.1, h.values[d.value.0]);
    }
  }

  // ---- the whole block ----

  datatype Block = Failed(r: Reader) | Done(r: Reader, data: seq<int>)

  /** All coefficients from position k on, each decoded by SlowStep. */
  ghost function SlowBlock(input: seq<byte>, h: AcCode, dequant: seq<nat>, r: Reader, k: nat, data: seq<int>): Block
    requires h.Ok() && ReaderOk(r) && |data| == |dequant| == 64 && k < 64
    decreases 64 - k
  {
    RefillOk(input, r, 16);
    StepOk(input, h, dequant, Refill(input, r, 16), k, data);
    match SlowStep(input, h, dequant, Refill(input, r, 16), k, data)
    case Bad(r1) => Failed(r1)
    case EndBlock(r1) => Done(r1, data)
    case Next(r1, k1, data1) => if k1 < 64 then SlowBlock(input, h, dequant, r1, k1, data1) else Done(r1, data1)
  }

  /** The loop of stbi__jpeg_decode_block. */
  ghost function FastBlock(input: seq<byte>, h: AcCode, fac: seq<int>, dequant: seq<nat>, r: Reader, k: nat,
                           data: seq<int>): Block
    requires FacTable(h, fac) && ReaderOk(r) && |data| == |dequant| == 64 && k < 64
    decreases 64 - k
  {
    RefillOk(input, r, 16);
    StepOk(input, h, dequant, Refill(input, r, 16), k, data);
    FastStepOk(input, h, fac, dequant, Refill(input, r, 16), k, data);
    match FastStep(input, h, fac, dequant, Refill(input, r, 16), k, data)
    case Bad(r1) => Failed(r1)
    case EndBlock(r1) => Done(r1, data)
    case Next(r1, k1, data1) => if k1 < 64 then FastBlock(input, h, fac, dequant, r1, k1, data1) else Done(r1, data1)
  }

  lemma FastBlockStep(input: seq<byte>, h: AcCode, fac: seq<int>, dequant: seq<nat>, r: Reader, r0: Reader, k: nat,
                      data: seq<int>)
    requires FacTable(h, fac) && ReaderOk(r) && ReaderOk(r0) && |data| == |dequant| == 64 && k < 64
    requires r0 == Refill(input, r, 16)
    ensures match FastStep(input, h, fac, dequant, r0, k, data)
            case Bad(r1) => FastBlock(input, h, fac, dequant, r, k, data) == Failed(r1)
            case EndBlock(r1) => FastBlock(input, h, fac, dequant, r, k, data) == Done(r1, data)
            case Next(r1, k1, data1) =>
              && ReaderOk(r1) && k < k1 && |data1| == 64
              && FastBlock(input, h, fac, dequant, r, k, data) ==
                 if k1 < 64 then FastBlock(input, h, fac, dequant, r1, k1, data1) else Done(r1, data1)
  {
    hide FastStep, SlowStep, Refill, Fits;
    FastStepOk(input, h, fac, dequant, r0, k, data);
  }

  lemma RefillOk(input: seq<byte>, r: Reader, n: nat)
    requires ReaderOk(r) && n <= 16
    ensures var r1 := Refill(input, r, n);
      && ReaderOk(r1) && (r.nomore ==> r1.nomore) && (r1.nomore == r.nomore ==> n <= r1.bits)
  {
    hide Low;
    if r.bits < n {
      GrowOk(input, r);
    }
  }

  /** A step leaves a proper reader, moves on, and never forgets a marker. */
  predicate StepFine(r: Reader, k: nat, st: Step)
  {
    && ReaderOk(st.r) && (r.nomore ==> st.r.nomore)
    && (st.Next? ==> k < st.k && |st.data| == 64)
  }

  lemma StepOk(input: seq<byte>, h: AcCode, dequant: seq<nat>, r: Reader, k: nat, data: seq<int>)
    requires h.Ok() && ReaderOk(r) && |data| == |dequant| == 64 && k < 64
    ensures StepFine(r, k, SlowStep(input, h, dequant, r, k, data))
  {
    hide Total, Grow, Consume, Pending, Store, Lookup;
    FoundOk(input, r, h);
    var d := Lookup(input, r, h.sizes);
    if d.Some? {
      var (sym, r1) := d.value;
      var s := h.values[sym] % 16;
      if s != 0 {
        ReceiveOk(input, r1, s);
      }
    }
  }

  lemma ReceiveOk(input: seq<byte>, r: Reader, n: nat)
    requires ReaderOk(r) && 0 < n <= 16
    ensures ReaderOk(Receive(input, r, n).0) && (r.nomore ==> Receive(input, r, n).0.nomore)
  {
    hide Grow, Consume, Pending;
    RefillOk(input, r, n);
    if n <= Refill(input, r, n).bits {
      ConsumeMeaning(Refill(input, r, n), n);
    }
  }

  lemma FastStepOk(input: seq<byte>, h: AcCode, fac: seq<int>, dequant: seq<nat>, r: Reader, k: nat, data: seq<int>)
    requires FacTable(h, fac) && ReaderOk(r) && |data| == |dequant| == 64 && k < 64
    ensures StepFine(r, k, FastStep(input, h, fac, dequant, r, k, data))
  {
    hide Sizes, Total, Grow, Consume, Pending, SlowStep, Store;
    StepOk(input, h, dequant, r, k, data);
    ShrBound32(r.buffer);
    var f := fac[Shr(r.buffer, 23)];
    if f != 0 && f % 16 <= r.bits {
      ConsumeMeaning(r, f % 16);
    }
  }

  // ---- the table changes nothing but the treatment of bits that a marker cuts off ----

  /** Two readers with the same bits; after a marker one of them may already have been given more of the zeros. */
  predicate SameBits(r: Reader, r': Reader)
  {
    r' == r.(bits := r'.bits) && (r.bits == r'.bits || r.nomore)
  }

  predicate SameStep(st: Step, st': Step)
  {
    && SameBits(st.r, st'.r)
    && match st
       case Bad(_) => st'.Bad?
       case EndBlock(_) => st'.EndBlock?
       case Next(_, k, data) => st'.Next? && st'.k == k && st'.data == data
  }

  predicate SameBlock(b: Block, b': Block)
  {
    match b
    case Failed(_) => b'.Failed?
    case Done(r, data) => b'.Done? && b'.data == data && SameBits(r, b'.r)
  }

  /** After a marker, growing appends zeros. */
  lemma {:induction false} GrowPads(input: seq<byte>, r: Reader)
    requires r.nomore && 0 <= r.bits <= 24
    ensures 24 < Grow(input, r).bits && Grow(input, r) == r.(bits := Grow(input, r).bits)
    decreases 24 - r.bits
  {
    ShlIsPow2(24 - r.bits);
    assert Append(r, 0) == r.(bits := r.bits + 8);
    if r.bits + 8 <= 24 {
      GrowPads(input, r.(bits := r.bits + 8));
    }
  }

  lemma RefillPads(input: seq<byte>, r: Reader, n: nat)
    requires r.nomore && 0 <= r.bits && n <= 16
    ensures n <= Refill(input, r, n).bits && Refill(input, r, n) == r.(bits := Refill(input, r, n).bits)
  {
    if r.bits < n {
      GrowPads(input, r);
    }
  }

  lemma PadsEnough(input: seq<byte>, r: Reader)
    requires 0 <= r.bits
    ensures r.nomore ==> 16 <= Refill(input, r, 16).bits
  {
    if r.nomore {
      RefillPads(input, r, 16);
    }
  }

  lemma RefillSame(input: seq<byte>, r: Reader, r': Reader, n: nat)
    requires SameBits(r, r') && 0 <= r.bits && 0 <= r'.bits && n <= 16
    ensures SameBits(Refill(input, r, n), Refill(input, r', n))
  {
    hide Grow;
    if r.nomore {
      RefillPads(input, r, n);
      RefillPads(input, r', n);
    }
  }

  /** After a marker, every symbol is found with all its bits. */
  lemma LookupPads(input: seq<byte>, r: Reader, r': Reader, sizes: seq<nat>)
    requires Sizes(sizes) && r.nomore && SameBits(r, r') && 0 <= r.bits && 0 <= r'.bits
    ensures var d, d' := Lookup(input, r, sizes), Lookup(input, r', sizes);
      && (d.Some? <==> d'.Some?)
      && (d.Some? ==> d.value.0 == d'.value.0 && d.value.1.nomore && SameBits(d.value.1, d'.value.1)
                      && 0 <= d.value.1.bits && 0 <= d'.value.1.bits)
  {
    hide Refill, HuffCode, Total, Low, Shl, Shr;
    RefillPads(input, r, 16);
    RefillPads(input, r', 16);
  }

  lemma ReceivePads(input: seq<byte>, r: Reader, r': Reader, n: nat)
    requires r.nomore && SameBits(r, r') && 0 <= r.bits && 0 <= r'.bits && 0 < n <= 16
    ensures var (a, v), (a', v') := Receive(input, r, n), Receive(input, r', n);
      v == v' && SameBits(a, a')
  {
    hide Refill, Low, Shl, Shr;
    RefillPads(input, r, n);
    RefillPads(input, r', n);
  }

  lemma SlowStepPads(input: seq<byte>, h: AcCode, dequant: seq<nat>, r: Reader, r': Reader, k: nat, data: seq<int>)
    requires h.Ok() && r.nomore && SameBits(r, r') && 0 <= r.bits && 0 <= r'.bits
    requires |data| == |dequant| == 64 && k < 64
    ensures SameStep(SlowStep(input, h, dequant, r, k, data), SlowStep(input, h, dequant, r', k, data))
  {
    hide Lookup, Receive, Store, Total;
    LookupPads(input, r, r', h.sizes);
    var d, d' := Lookup(input, r, h.sizes), Lookup(input, r', h.sizes);
    if d.Some? && h.values[d.value.0] % 16 != 0 {
      ReceivePads(input, d.value.1, d'.value.1, h.values[d.value.0] % 16);
    }
  }

  /** One step after a refill: the table fails exactly when it holds more bits than a marker has left over; otherwise
      both ways give the same.  In the first case the plain way stores the value of the entry all the same, because
      the missing bits are read as zeros. */
  lemma StepsAgree(input: seq<byte>, h: AcCode, fac: seq<int>, dequant: seq<nat>, r: Reader, k: nat, data: seq<int>)
    requires FacTable(h, fac) && ReaderOk(r) && (16 <= r.bits || r.nomore) && |data| == |dequant| == 64 && k < 64
    requires Shr(r.buffer, 23) < 512
    ensures var f := fac[Shr(r.buffer, 23)];
      var fast, slow := FastStep(input, h, fac, dequant, r, k, data), SlowStep(input, h, dequant, r, k, data);
      if f != 0 && f % 16 > r.bits
      then
        && fast == Bad(r) && slow.Next? && slow.k == k + f / 16 % 16 + 1
        && slow.data == Store(data, dequant, k + f / 16 % 16, f / 256)
      else SameStep(fast, slow)
  {
    hide Fits, Grow, SlowStep, Consume, Shr, Low, FacEntry, Store;
    var f := fac[Shr(r.buffer, 23)];
    if 16 <= r.bits {
      FastStepIsSlowStep(input, h, fac, dequant, r, k, data);
      if f != 0 {
        EntryBits(h, fac, Shr(r.buffer, 23));
      }
    } else if f != 0 {
      RefillPads(input, r, 16);
      RefillOk(input, r, 16);
      var r1 := Refill(input, r, 16);
      SlowStepPads(input, h, dequant, r, r1, k, data);
      FastStepIsSlowStep(input, h, fac, dequant, r1, k, data);
      EntryBits(h, fac, Shr(r.buffer, 23));
      ConsumePads(r, r1, f % 16);
    }
  }

  lemma EntryBits(h: AcCode, fac: seq<int>, x: nat)
    requires FacTable(h, fac) && x < 512 && fac[x] != 0
    ensures fac[x] % 16 <= 9
  {
    hide HuffCode, Magnitude, Shr, Total;
    assert FacEntry(h, x, fac[x]);
    var sym: nat :| FacSymbol(h, x, fac[x], sym);
    var len, mag := h.sizes[sym], h.values[sym] as nat % 16;
    Unpack(Magnitude(x, len, mag), h.values[sym] as nat / 16, len + mag, fac[x]);
  }

  lemma ConsumePads(r: Reader, r1: Reader, n: nat)
    requires r.nomore && SameBits(r, r1)
    ensures SameBits(Consume(r, n), Consume(r1, n))
  {
  }

  /** At some step of the block the table holds more bits than a marker has left over. */
  ghost predicate CutShort(input: seq<byte>, h: AcCode, fac: seq<int>, dequant: seq<nat>, r: Reader, k: nat,
                           data: seq<int>)
    requires FacTable(h, fac) && ReaderOk(r) && |data| == |dequant| == 64 && k < 64
    decreases 64 - k
  {
    RefillOk(input, r, 16);
    var r0 := Refill(input, r, 16);
    ShrBound32(r0.buffer);
    StepOk(input, h, dequant, r0, k, data);
    var f, st := fac[Shr(r0.buffer, 23)], SlowStep(input, h, dequant, r0, k, data);
    (f != 0 && f % 16 > r0.bits) || (st.Next? && st.k < 64 && CutShort(input, h, fac, dequant, st.r, st.k, st.data))
  }

  /** The whole block: the accelerated decoder fails where the plain one goes on exactly if the block is cut short by a
      marker in this way; otherwise both have the same status and coefficients. */
  lemma {:induction false} FastBlockIsSlowBlock(input: seq<byte>, h: AcCode, fac: seq<int>, dequant: seq<nat>,
                                                r: Reader, r': Reader, k: nat, data: seq<int>)
    requires FacTable(h, fac) && ReaderOk(r) && ReaderOk(r') && SameBits(r, r')
    requires |data| == |dequant| == 64 && k < 64
    ensures if CutShort(input, h, fac, dequant, r', k, data)
            then FastBlock(input, h, fac, dequant, r, k, data).Failed?
            else SameBlock(FastBlock(input, h, fac, dequant, r, k, data), SlowBlock(input, h, dequant, r', k, data))
    decreases 64 - k
  {
    hide Fits, FastStep, SlowStep, Refill, Shr, FacEntry;
    RefillOk(input, r, 16);
    RefillOk(input, r', 16);
    RefillSame(input, r, r', 16);
    var a, b := Refill(input, r, 16), Refill(input, r', 16);
    RoundsAgree(input, h, fac, dequant, r, r', k, data);
    StepOk(input, h, dequant, b, k, data);
    FastStepOk(input, h, fac, dequant, a, k, data);
    var fast, slow := FastStep(input, h, fac, dequant, a, k, data), SlowStep(input, h, dequant, b, k, data);
    if slow.Next? && slow.k < 64 && fast.Next? {
      FastBlockIsSlowBlock(input, h, fac, dequant, fast.r, slow.r, slow.k, slow.data);
    }
  }

  /** One round of each loop, with its refill. */
  lemma RoundsAgree(input: seq<byte>, h: AcCode, fac: seq<int>, dequant: seq<nat>, r: Reader, r': Reader, k: nat,
                    data: seq<int>)
    requires FacTable(h, fac) && ReaderOk(r) && ReaderOk(r') && SameBits(r, r')
    requires |data| == |dequant| == 64 && k < 64
    ensures ReaderOk(Refill(input, r, 16)) && ReaderOk(Refill(input, r', 16))
    ensures var a, b := Refill(input, r, 16), Refill(input, r', 16);
      Shr(b.buffer, 23) < 512 &&
      var f := fac[Shr(b.buffer, 23)];
      if f != 0 && f % 16 > b.bits then FastStep(input, h, fac, dequant, a, k, data).Bad?
      else SameStep(FastStep(input, h, fac, dequant, a, k, data), SlowStep(input, h, dequant, b, k, data))
  {
    hide Fits, FastStep, SlowStep, Refill, Shr;
    RefillOk(input, r, 16);
    RefillOk(input, r', 16);
    RefillSame(input, r, r', 16);
    var a, b := Refill(input, r, 16), Refill(input, r', 16);
    ShrBound32(a.buffer);
    StepsAgree(input, h, fac, dequant, a, k, data);
    if a != b {
      RefillPads(input, r, 16);
      RefillPads(input, r', 16);
      SlowStepPads(input, h, dequant, a, b, k, data);
      if fac[Shr(b.buffer, 23)] != 0 {
        EntryBits(h, fac, Shr(b.buffer, 23));
      }
    }
  }

  /** Only a marker that comes into view in this block cuts it short. */
  lemma {:induction false} CutShortMeetsMarker(input: seq<byte>, h: AcCode, fac: seq<int>, dequant: seq<nat>, r: Reader,
                                               k: nat, data: seq<int>)
    requires FacTable(h, fac) && ReaderOk(r) && |data| == |dequant| == 64 && k < 64
    requires CutShort(input, h, fac, dequant, r, k, data)
    ensures !r.nomore && SlowBlock(input, h, dequant, r, k, data).r.nomore
    decreases 64 - k
  {
    hide Fits, SlowStep, Refill, Shr, FacEntry;
    PadsEnough(input, r);
    RefillOk(input, r, 16);
    var r0 := Refill(input, r, 16);
    ShrBound32(r0.buffer);
    StepOk(input, h, dequant, r0, k, data);
    var f, st := fac[Shr(r0.buffer, 23)], SlowStep(input, h, dequant, r0, k, data);
    if f != 0 && f % 16 > r0.bits {
      EntryBits(h, fac, Shr(r0.buffer, 23));
      if st.Next? && st.k < 64 {
        NeverForgets(input, h, dequant, st.r, st.k, st.data);
      }
    } else {
      CutShortMeetsMarker(input, h, fac, dequant, st.r, st.k, st.data);
    }
  }

  /** A marker once met is not forgotten. */
  lemma {:induction false} NeverForgets(input: seq<byte>, h: AcCode, dequant: seq<nat>, r: Reader, k: nat,
                                        data: seq<int>)
    requires h.Ok() && ReaderOk(r) && |data| == |dequant| == 64 && k < 64
    ensures r.nomore ==> SlowBlock(input, h, dequant, r, k, data).r.nomore
    decreases 64 - k
  {
    hide Fits, SlowStep, Refill;
    RefillOk(input, r, 16);
    var r0 := Refill(input, r, 16);
    StepOk(input, h, dequant, r0, k, data);
    var st := SlowStep(input, h, dequant, r0, k, data);
    if st.Next? && st.k < 64 {
      NeverForgets(input, h, dequant, st.r, st.k, st.data);
    }
  }

  function Zeros64(): (r: seq<int>)
    ensures |r| == 64
  {
    seq(64, _ => 0)
  }

  /** A whole block: the reader after it, the new DC prediction and the coefficients; None on an error. */
  ghost function BlockOf(input: seq<byte>, dc: AcCode, ac: AcCode, fac: seq<int>, dequant: seq<nat>, r: Reader,
                         pred: int)
    : Option<(Reader, int, seq<int>)>
    requires dc.Ok() && FacTable(ac, fac) && ReaderOk(r) && |dequant| == 64
  {
    DcReaderOk(input, dc, r, pred, dequant[0]);
    match DecodeDc(input, dc, r, pred, dequant[0])
    case DcBad => None
    case DcOk(r1, p, v) =>
      match FastBlock(input, ac, fac, dequant, r1, 1, Zeros64()[0 := v])
      case Failed(_) => None
      case Done(r2, data) => Some((r2, p, data))
  }

  /** The same block decoded without the combined table. */
  ghost function PlainBlockOf(input: seq<byte>, dc: AcCode, ac: AcCode, dequant: seq<nat>, r: Reader, pred: int)
    : Option<(Reader, int, seq<int>)>
    requires dc.Ok() && ac.Ok() && ReaderOk(r) && |dequant| == 64
  {
    DcReaderOk(input, dc, r, pred, dequant[0]);
    match DecodeDc(input, dc, r, pred, dequant[0])
    case DcBad => None
    case DcOk(r1, p, v) =>
      match SlowBlock(input, ac, dequant, r1, 1, Zeros64()[0 := v])
      case Failed(_) => None
      case Done(r2, data) => Some((r2, p, data))
  }

  /** The AC coefficients of the block are cut short by a marker where the table is used. */
  ghost predicate BlockCutShort(input: seq<byte>, dc: AcCode, ac: AcCode, fac: seq<int>, dequant: seq<nat>, r: Reader,
                                pred: int)
    requires dc.Ok() && FacTable(ac, fac) && ReaderOk(r) && |dequant| == 64
  {
    DcReaderOk(input, dc, r, pred, dequant[0]);
    var d := DecodeDc(input, dc, r, pred, dequant[0]);
    d.DcOk? && CutShort(input, ac, fac, dequant, d.r, 1, Zeros64()[0 := d.value])
  }

  lemma DcSame(input: seq<byte>, h: AcCode, r: Reader, r': Reader, pred: int, dequant: nat)
    requires h.Ok() && ReaderOk(r) && ReaderOk(r') && SameBits(r, r')
    ensures var d, d' := DecodeDc(input, h, r, pred, dequant), DecodeDc(input, h, r', pred, dequant);
      match d
      case DcBad => d'.DcBad?
      case DcOk(a, p, v) => d'.DcOk? && d'.pred == p && d'.value == v && SameBits(a, d'.r)
  {
    hide Lookup, Receive, Refill, AddIntsValid, Mul2ShortsValid, ToInt16, Total;
    RefillOk(input, r, 16);
    RefillOk(input, r', 16);
    if r.nomore {
      RefillSame(input, r, r', 16);
      var a, b := Refill(input, r, 16), Refill(input, r', 16);
      LookupPads(input, a, b, h.sizes);
      var e, e' := Lookup(input, a, h.sizes), Lookup(input, b, h.sizes);
      if e.Some? && 0 < h.values[e.value.0] <= 15 {
        ReceivePads(input, e.value.1, e'.value.1, h.values[e.value.0]);
      }
    }
  }

  /** With and without the combined table a block has the same status, prediction and coefficients, and leaves the same
      bits, unless a marker cuts it short where the table is used; exactly then the table makes it fail.  The two may
      start from readers left by earlier blocks. */
  lemma TableIsOptional(input: seq<byte>, dc: AcCode, ac: AcCode, fac: seq<int>, dequant: seq<nat>, r: Reader,
                        r': Reader, pred: int)
    requires dc.Ok() && FacTable(ac, fac) && ReaderOk(r) && ReaderOk(r') && SameBits(r, r') && |dequant| == 64
    ensures var fast := BlockOf(input, dc, ac, fac, dequant, r, pred);
      var plain := PlainBlockOf(input, dc, ac, dequant, r', pred);
      if BlockCutShort(input, dc, ac, fac, dequant, r', pred) then fast == None
      else
        && (fast.Some? <==> plain.Some?)
        && (fast.Some? ==> fast.value.1 == plain.value.1 && fast.value.2 == plain.value.2
                           && SameBits(fast.value.0, plain.value.0))
  {
    hide Fits, FastBlock, SlowBlock, DecodeDc, CutShort, SameBits;
    DcSame(input, dc, r, r', pred, dequant[0]);
    DcReaderOk(input, dc, r, pred, dequant[0]);
    DcReaderOk(input, dc, r', pred, dequant[0]);
    var d, d' := DecodeDc(input, dc, r, pred, dequant[0]), DecodeDc(input, dc, r', pred, dequant[0]);
    if d.DcOk? {
      FastBlockIsSlowBlock(input, ac, fac, dequant, d.r, d'.r, 1, Zeros64()[0 := d.value]);
    }
  }
}
