/** stbi__jpeg: the entropy decoder's state and the methods that work on it. */
module JpegDecoder {
  import opened Wrappers
  import opened Bits
  import opened JpegCanonical
  import opened JpegHuffman
  import opened JpegReader
  import opened JpegAc

  // ---- what the lookups find ----

  /** 255 symbols with codes of 8 bits and one with a code of 9 bits. */
  function FullTable(): seq<nat>
  {
    seq(256, k => if k < 255 then 8 else 9)
  }

  lemma {:induction false} FullTableTotal(n: nat)
    requires n <= 255
    ensures Sizes(FullTable()) && Total(FullTable(), n) == 256 * n
  {
    if n > 0 {
      FullTableTotal(n - 1);
      Contiguous(FullTable(), n - 1);
      Pow2Values();
    }
  }

  lemma FullTableFits()
    ensures Fits(FullTable()) && |FullTable()| == 256 && FullTable()[255] == 9 && Total(FullTable(), 256) == 65408
    ensures Confused(FullTable(), 0xFF00)
  {
    FullTableTotal(255);
    Contiguous(FullTable(), 255);
    Pow2Values();
    BeginsInterval(FullTable(), 255, 0xFF00);
  }

  const CONFUSING: seq<byte> := [0xFF, 0x00]
  const FRESH: Reader := Reader(0, 0, 0, 0xFF, false)

  /** The four bytes that the first refill loads: the stuffed 0xFF and zeros. */
  lemma ConfusingRefill()
    ensures Refill(CONFUSING, FRESH, 16) == Reader(0xFF00_0000, 32, 2, 0xFF, false)
  {
    var r1 := Reader(0xFF00_0000, 8, 2, 0xFF, false);
    ShiftedByte(0xFF);
    assert Or(0, 0xFF00_0000) == 0xFF00_0000;
    assert Feed(CONFUSING, FRESH) == (r1, false);
    AppendZero(r1, 2);
    var r2 := r1.(bits := 16);
    AppendZero(r2, 2);
    var r3 := r2.(bits := 24);
    AppendZero(r3, 2);
    hide Append, Shl, Or;
    assert Feed(CONFUSING, r1) == (r2, false) && Feed(CONFUSING, r2) == (r3, false);
    assert Feed(CONFUSING, r3) == (r3.(bits := 32), false);
    assert Grow(CONFUSING, r3) == r3.(bits := 32);
    assert Grow(CONFUSING, r2) == r3.(bits := 32);
    assert Grow(CONFUSING, r1) == r3.(bits := 32);
  }

  lemma ShiftedByte(b: byte)
    ensures Shl(b, 24) == 0x100_0000 * b
  {
    Pow2Values();
    ShlIsProduct(b, 24);
  }

  lemma AppendZero(r: Reader, pos: nat)
    requires 0 <= r.bits <= 24
    ensures Append(r.(pos := pos), 0) == r.(pos := pos, bits := r.bits + 8)
  {
    ShlIsPow2(24 - r.bits);
  }

  lemma ConfusingWindow()
    ensures Shr(0xFF00_0000, 16) == 0xFF00 && Shr(0xFF00_0000, 22) == 1020 && Shr(65408, 6) == 1022
  {
    assert Shr(0xFF00_0000, 8) == 0xFF_0000 && Shr(0xFF_0000, 8) == 0xFF00;
    ShrShr(0xFF00_0000, 8, 8);
    ShrShr(0xFF00_0000, 16, 6);
    assert Shr(0xFF00, 6) == 1020 && Shr(65408, 6) == 1022;
  }

  /** The case occurs: stbi__build_huffman accepts this list, and on the input [0xFF, 0x00], which stands for the byte
      0xFF, the decoder takes ten bits and finds symbol index 254 instead of nine bits and index 255. */
  lemma ConfusedExample()
    ensures Fits(FullTable())
    ensures var r := Refill(CONFUSING, FRESH, 16);
      && Decode(CONFUSING, FRESH, FullTable()) == Some((255, Consume(r, 9)))
      && Lookup(CONFUSING, FRESH, FullTable()) == Some((254, Consume(r, 10)))
  {
    FullTableFits();
    ConfusingRefill();
    ConfusingWindow();
    hide Shr, Consume, FullTable, Sizes, Total, Refill, Confused, Begins;
    ConfusedIs(0xFF00);
  }

  lemma ConfusedIs(w: nat)
    requires Fits(FullTable()) && Confused(FullTable(), w)
    ensures SymbolOf(FullTable(), w) == Some(255)
  {
    hide FullTable, HuffCode, Shr;
    SymbolIs(FullTable(), 255, w);
  }

  lemma SymbolIs(sizes: seq<nat>, k: nat, w: nat)
    requires Sizes(sizes) && Begins(sizes, k, w)
    ensures SymbolOf(sizes, w) == Some(k)
  {
    BeginsUnique(sizes, k, SymbolOf(sizes, w).value, w);
  }

  /** After a miss in the 9-bit table the window lies beyond the short codes. */
  lemma FastMiss(sizes: seq<nat>, b: nat, w: nat)
    requires Sizes(sizes) && w == Shr(b, 16) && FastEntry(sizes, |sizes|, Shr(b, 23), 255) && !Confused(sizes, w)
    ensures Upto(sizes, 9, |sizes|) <= |sizes| && Total(sizes, Upto(sizes, 9, |sizes|)) <= w
  {
    hide HuffCode, Sizes, Total, Shr;
    UptoSplits(sizes, 9, |sizes|);
    var n := Upto(sizes, 9, |sizes|);
    if w < Total(sizes, n) {
      var sym := FindSymbol(sizes, w, n);
      ShrShr(b, 16, 7);
      FastMatchBegins(sizes, sym, Shr(b, 23), w);
      Bounded(sizes);
    }
  }

  lemma Bounded(sizes: seq<nat>)
    requires Sizes(sizes)
    ensures |sizes| <= 256
  {
  }

  /** The codes of one size count up from the first one. */
  lemma {:induction false} RunOfCodes(sizes: seq<nat>, j: nat, first: nat, c0: nat, sym: nat)
    requires Sizes(sizes) && 1 <= j <= 16 && first <= sym < |sizes| && Shl(c0, 16 - j) == Total(sizes, first)
    requires forall i :: first <= i <= sym ==> sizes[i] == j
    ensures HuffCode(sizes, sym) == c0 + (sym - first) && Total(sizes, sym) == Shl(c0 + (sym - first), 16 - j)
    decreases sym
  {
    if first < sym {
      RunOfCodes(sizes, j, first, c0, sym - 1);
      CodeIs(sizes, j, sym - 1, c0 + (sym - 1 - first));
    }
    CodeIs(sizes, j, sym, c0 + (sym - first));
  }

  /** A window in the range of size j: the slow path's index arithmetic gives its symbol. */
  lemma SlowHit(sizes: seq<nat>, w: nat, j: nat, delta: int, maxcode: nat) returns (sym: nat)
    requires Sizes(sizes) && 1 <= j <= 16 && RangeOk(sizes, j, delta, maxcode)
    requires Upto(sizes, j - 1, |sizes|) <= |sizes| && Total(sizes, Upto(sizes, j - 1, |sizes|)) <= w < maxcode
    ensures sym < |sizes| && Begins(sizes, sym, w) && sizes[sym] == j && Shr(w, 16 - j) + delta == sym
  {
    hide HuffCode, Sizes, Total, Shr, Upto;
    var first, last := Upto(sizes, j - 1, |sizes|), Upto(sizes, j, |sizes|);
    UptoSplits(sizes, j - 1, |sizes|);
    UptoSplits(sizes, j, |sizes|);
    sym := FindSymbol(sizes, w, last);
    BeginsInterval(sizes, sym, w);
    if sym < first {
      TotalGrows(sizes, sym + 1, first);
    }
    RunOfCodes(sizes, j, first, first - delta, sym);
  }

  lemma NoSymbol(sizes: seq<nat>, w: nat)
    requires Sizes(sizes) && Total(sizes, |sizes|) <= w
    ensures SymbolOf(sizes, w) == None
  {
    forall k: nat
      ensures !Begins(sizes, k, w)
    {
      if Begins(sizes, k, w) {
        BeginsInterval(sizes, k, w);
        TotalGrows(sizes, k + 1, |sizes|);
      }
    }
  }

  // ---- the decoder ----

  datatype AcStatus = AcBad | AcEnd | AcNext

  /** h holds the tables of this code. */
  ghost predicate Coder(h: JHuffman, code: AcCode)
    reads h, h.Repr(), h.values
  {
    h.values.Length == 256 && code.Ok() && h.Tables(code.sizes) && code.values == h.values[..]
  }

  class Jpeg {
    const input: seq<byte>
    var codeBuffer: nat
    var codeBits: int
    var pos: nat
    var marker: nat
    var nomore: bool

    constructor (input: seq<byte>)
      ensures this.input == input && ReaderOk(State())
    {
      this.input := input;
      codeBuffer, codeBits, pos, marker, nomore := 0, 0, 0, 0xFF, false;
      LowSmall(0, 32);
    }

    ghost function State(): Reader
      reads this
    {
      Reader(codeBuffer, codeBits, pos, marker, nomore)
    }

    method Get8() returns (b: byte)
      modifies this`pos
      ensures (b, pos) == GetByte(input, old(pos))
    {
      if pos < |input| {
        b := input[pos];
        pos := pos + 1;
      } else {
        b := 0;
      }
    }

    /** stbi__grow_buffer_unsafe. */
    method GrowBufferUnsafe()
      requires ReaderOk(State()) && codeBits <= 24
      modifies this
      ensures State() == Grow(input, old(State()))
    {
      hide Feed;
      ghost var whole := Grow(input, State());
      var more := true;
      while more
        invariant 0 <= codeBits && (more ==> codeBits <= 24)
        invariant whole == if more then Grow(input, State()) else State()
        decreases more, if more then 24 - codeBits else 0
      {
        ghost var r := State();
        FeedAdvances(input, r);
        var stop := FeedOnce();
        if stop {
          return;
        }
        more := codeBits <= 24;
      }
    }

    /** One round of the loop; the flag says that a marker ends it. */
    method FeedOnce() returns (stop: bool)
      requires 0 <= codeBits <= 24
      modifies this
      ensures (State(), stop) == Feed(input, old(State()))
    {
      var b: byte := 0;
      if !nomore {
        b := Get8();
      }
      if b == 0xFF {
        var c := SkipFillBytes();
        if c != 0 {
          marker, nomore := c, true;
          return true;
        }
      }
      codeBuffer := Or(codeBuffer, Shl(b, 24 - codeBits));
      codeBits := codeBits + 8;
      return false;
    }

    /** Reads past fill bytes. */
    method SkipFillBytes() returns (c: byte)
      modifies this`pos
      ensures (c, pos) == SkipFill(input, old(pos))
    {
      c := Get8();
      while c == 0xFF
        invariant SkipFill(input, old(pos)) == if c == 0xFF then SkipFill(input, pos) else (c, pos)
        decreases c == 0xFF, |input| - pos
      {
        c := Get8();
      }
    }

    /** stbi__jpeg_huff_decode. */
    method HuffDecode(h: JHuffman, ghost sizes: seq<nat>) returns (c: int)
      requires ReaderOk(State()) && h.Tables(sizes)
      modifies this
      ensures match Lookup(input, old(State()), sizes)
              case None => c == -1
              case Some((sym, r)) => sym < 256 && c == h.values[sym] && State() == r
    {
      if codeBits < 16 {
        GrowBufferUnsafe();
      }
      RefillOk(input, old(State()), 16);
      ghost var w := Shr(codeBuffer, 16);
      ShrBound32(codeBuffer);
      var k: nat := h.fast[Shr(codeBuffer, 23)];
      if k < 255 {
        DecodesTo(sizes, codeBuffer, Shr(codeBuffer, 23), k);
        NotConfused(sizes, w, k);
        var s := h.size[k];
        if s > codeBits {
          return -1;
        }
        codeBuffer, codeBits := Low(Shl(codeBuffer, s), 32), codeBits - s;
        return h.values[k];
      }
      c := SlowDecode(h, sizes);
    }

    /** stbi__extend_receive. */
    method ExtendReceive(n: nat) returns (v: int)
      requires ReaderOk(State()) && 1 <= n <= 15
      modifies this
      ensures (State(), v) == Receive(input, old(State()), n)
    {
      hide Low, Shl, Shr, Or, And;
      if codeBits < n {
        GrowBufferUnsafe();
      }
      RefillOk(input, old(State()), n);
      if codeBits < n {
        return 0;
      }
      SignBit(codeBuffer, n);
      Rotate(codeBuffer, n);
      var sgn := Shr(codeBuffer, 31);
      var k := Or(Low(Shl(codeBuffer, n), 32), Shr(codeBuffer, 32 - n));
      codeBuffer := And(k, 0x1_0000_0000 - Pow2(n));
      k := And(k, Pow2(n) - 1);
      codeBits := codeBits - n;
      // jbias[n] & (sgn - 1): the bias for a clear sign bit, 0 for a set one
      return if sgn == 0 then k + (1 - Pow2(n)) else k;
    }

    /** stbi__build_fast_ac. */
    method BuildFastAc(fac: array<int>, h: JHuffman, ghost sizes: seq<nat>)
      requires fac.Length == 512 && h.Tables(sizes) && h.values.Length == 256 && fac !in h.Repr()
      modifies fac
      ensures FacTable(AcCode(sizes, h.values[..]), fac[..]) && FacComplete(AcCode(sizes, h.values[..]), fac[..])
    {
      hide FastMatch, Magnitude, Fits, Sizes;
      ghost var code := AcCode(sizes, h.values[..]);
      for i := 0 to 512
        invariant forall x: nat :: x < i ==> FacEntry(code, x, fac[x])
        invariant forall x: nat, sym: nat :: x < i && Combinable(code, x, sym) ==> FacSymbol(code, x, fac[x], sym)
        invariant h.Tables(sizes)
      {
        var f := FacFor(h, sizes, i);
        fac[i] := f;
      }
    }

    method FacFor(h: JHuffman, ghost sizes: seq<nat>, i: nat) returns (f: int)
      requires h.Tables(sizes) && h.values.Length == 256 && i < 512
      ensures FacEntry(AcCode(sizes, h.values[..]), i, f)
      ensures forall sym: nat :: Combinable(AcCode(sizes, h.values[..]), i, sym) ==>
        FacSymbol(AcCode(sizes, h.values[..]), i, f, sym)
    {
      hide HuffCode, Shr, Magnitude;
      f := 0;
      var fast := h.fast[i];
      assert FastEntry(sizes, |sizes|, i, fast);
      if fast < 255 {
        var rs: nat := h.values[fast];
        var run, magbits, len: nat := rs / 16, rs % 16, h.size[fast];
        assert len == sizes[fast];
        if magbits != 0 && len + magbits <= 9 {
          f := Combine(i, len, magbits, run);
          if f != 0 {
            assert FacSymbol(AcCode(sizes, h.values[..]), i, f, fast);
          }
        }
      }
    }

    /** Magnitude code followed by receive-and-extend, if the result fits in 8 bits. */
    static method Combine(i: nat, len: nat, magbits: nat, run: nat) returns (f: int)
      requires i < 512 && 0 < magbits && len + magbits <= 9 && run < 16
      ensures f == if -128 <= Magnitude(i, len, magbits) <= 127
                   then Magnitude(i, len, magbits) * 256 + run * 16 + (len + magbits) else 0
    {
      hide Low, Shl, Shr, And;
      MagnitudeBits(i, len, magbits);
      var k: int := Shr(And(Shl(i, len), 511), 9 - magbits);
      var m := Pow2(magbits - 1);
      if k < m {
        k := k - Pow2(magbits) + 1;
      }
      f := 0;
      if -128 <= k <= 127 {
        f := ToInt16(k * 256 + run * 16 + (len + magbits));
      }
    }

    /** stbi__jpeg_decode_block: a DC coefficient and the AC coefficients after it. */
    method DecodeBlock(data: array<int>, hdc: JHuffman, hac: JHuffman, fac: array<int>, dcPred: int, dequant: seq<nat>,
                       ghost dc: AcCode, ghost ac: AcCode) returns (ok: bool, pred: int)
      requires ReaderOk(State()) && data.Length == |dequant| == 64 && fac.Length == 512 && data != fac
      requires Coder(hdc, dc) && Coder(hac, ac) && FacTable(ac, fac[..])
      requires data !in hdc.Repr() && data !in hac.Repr()
      modifies this, data
      ensures match BlockOf(input, dc, ac, fac[..], dequant, old(State()), dcPred)
              case None => !ok
              case Some((r, p, d)) => ok && State() == r && pred == p && data[..] == d
    {
      hide Fits, FastBlock, DecodeDc, JHuffman.Tables;
      assert this !in hac.Repr() && this !in hdc.Repr();
      ghost var r0 := State();
      DcReaderOk(input, dc, r0, dcPred, dequant[0]);
      var value;
      ok, pred, value := DecodeDcValue(hdc, dcPred, dequant[0], dc);
      if !ok {
        return;
      }
      for i := 0 to 64
        invariant forall x: nat :: x < i ==> data[x] == 0
        invariant fac[..] == old(fac[..]) && Coder(hac, ac)
        modifies data
      {
        data[i] := 0;
      }
      data[0] := value;
      assert data[..] == Zeros64()[0 := value];
      ok := DecodeAc(data, hac, fac, dequant, ac);
    }

    method DecodeDcValue(hdc: JHuffman, dcPred: int, dequant: nat, ghost dc: AcCode)
      returns (ok: bool, pred: int, value: int)
      requires ReaderOk(State()) && Coder(hdc, dc)
      modifies this
      ensures match DecodeDc(input, dc, old(State()), dcPred, dequant)
              case DcBad => !ok
              case DcOk(r, p, v) => ok && State() == r && pred == p && value == v
    {
      hide Grow, Low, Shl, Shr, JHuffman.Tables, Receive, AddIntsValid, Mul2ShortsValid, ToInt16;
      assert this !in hdc.Repr();
      pred, value := dcPred, 0;
      RefillOk(input, State(), 16);
      if codeBits < 16 {
        GrowBufferUnsafe();
      }
      FoundOk(input, State(), dc);
      var t := HuffDecode(hdc, dc.sizes);
      if t < 0 || t > 15 {
        return false, pred, value;
      }
      var diff := 0;
      if t != 0 {
        diff := ExtendReceive(t);
      }
      if !AddIntsValid(dcPred, diff) {
        return false, pred, value;
      }
      pred := dcPred + diff;
      if !Mul2ShortsValid(pred, dequant) {
        return false, pred, value;
      }
      return true, pred, ToInt16(pred * dequant);
    }

    /** The AC loop: fast entries first, Huffman decoding and receive-and-extend for the rest. */
    method DecodeAc(data: array<int>, hac: JHuffman, fac: array<int>, dequant: seq<nat>, ghost ac: AcCode)
      returns (ok: bool)
      requires ReaderOk(State()) && data.Length == |dequant| == 64 && Coder(hac, ac) && fac.Length == 512
      requires FacTable(ac, fac[..]) && data !in hac.Repr() && data != fac
      modifies this, data
      ensures match FastBlock(input, ac, fac[..], dequant, old(State()), 1, old(data[..]))
              case Failed(_) => !ok
              case Done(r, d) => ok && State() == r && data[..] == d
    {
      hide Fits, FastBlock, FastStep, SlowStep, Coder;
      assert this !in hac.Repr();
      ghost var whole := FastBlock(input, ac, fac[..], dequant, State(), 1, data[..]);
      ghost var f := fac[..];
      var k := 1;
      var more := true;
      while more
        invariant ReaderOk(State()) && Coder(hac, ac) && fac[..] == f && FacTable(ac, f)
        invariant more ==> k < 64 && whole == FastBlock(input, ac, f, dequant, State(), k, data[..])
        invariant !more ==> whole == Done(State(), data[..])
        decreases more, if more then 64 - k else 0
      {
        ghost var r, d := State(), data[..];
        RefillOk(input, r, 16);
        if codeBits < 16 {
          GrowBufferUnsafe();
        }
        FastBlockStep(input, ac, f, dequant, r, State(), k, d);
        var status, k1 := AcStep(data, hac, fac, dequant, k, ac);
        if status == AcBad {
          return false;
        }
        if status == AcEnd {
          return true;
        }
        k := k1;
        more := k < 64;
      }
      return true;
    }

    /** One round of the AC loop, after the refill. */
    method AcStep(data: array<int>, hac: JHuffman, fac: array<int>, dequant: seq<nat>, k0: nat, ghost ac: AcCode)
      returns (status: AcStatus, k: nat)
      requires ReaderOk(State()) && data.Length == |dequant| == 64 && Coder(hac, ac) && fac.Length == 512 && k0 < 64
      requires FacTable(ac, fac[..]) && data !in hac.Repr() && data != fac
      modifies this, data
      ensures fac[..] == old(fac[..]) && Coder(hac, ac)
      ensures match FastStep(input, ac, fac[..], dequant, old(State()), k0, old(data[..]))
              case Bad(_) => status == AcBad
              case EndBlock(r) => status == AcEnd && State() == r && data[..] == old(data[..])
              case Next(r, k1, d) =>
                status == AcNext && k == k1 && State() == r && data[..] == d && ReaderOk(r) && k0 < k
    {
      hide Fits, Store, Grow, SlowStep, Coder, Low, Shl, Shr;
      assert this !in hac.Repr();
      k := k0;
      FastStepOk(input, ac, fac[..], dequant, State(), k, data[..]);
      ShrBound32(codeBuffer);
      var r := fac[Shr(codeBuffer, 23)];
      if r != 0 {
        var run, s := r / 16 % 16, r % 16;
        if s > codeBits {
          return AcBad, k;
        }
        codeBuffer, codeBits := Low(Shl(codeBuffer, s), 32), codeBits - s;
        StoreAt(data, dequant, k + run, r / 256);
        return AcNext, k + run + 1;
      }
      status, k := SlowAcStep(data, hac, dequant, k, ac);
    }

    method SlowAcStep(data: array<int>, hac: JHuffman, dequant: seq<nat>, k0: nat, ghost ac: AcCode)
      returns (status: AcStatus, k: nat)
      requires ReaderOk(State()) && data.Length == |dequant| == 64 && Coder(hac, ac) && k0 < 64
      requires data !in hac.Repr()
      modifies this, data
      ensures Coder(hac, ac)
      ensures match SlowStep(input, ac, dequant, old(State()), k0, old(data[..]))
              case Bad(_) => status == AcBad
              case EndBlock(r) => status == AcEnd && State() == r && data[..] == old(data[..])
              case Next(r, k1, d) => status == AcNext && k == k1 && State() == r && data[..] == d
    {
      hide Store, Grow, Low, Shl, Shr, JHuffman.Tables, Receive;
      assert this !in hac.Repr();
      k := k0;
      ghost var w := Shr(Refill(input, State(), 16).buffer, 16);
      StepOk(input, ac, dequant, State(), k, data[..]);
      FoundOk(input, State(), ac);
      var rs := HuffDecode(hac, ac.sizes);
      if rs < 0 {
        return AcBad, k;
      }
      var s, r := rs % 16, rs / 16;
      if s == 0 {
        if rs != 0xF0 {
          return AcEnd, k;
        }
        return AcNext, k + 16;
      }
      var v := ExtendReceive(s);
      StoreAt(data, dequant, k + r, v);
      return AcNext, k + r + 1;
    }

    static method StoreAt(data: array<int>, dequant: seq<nat>, k: nat, v: int)
      requires data.Length == |dequant| == 64 && k < 79
      modifies data
      ensures data[..] == Store(old(data[..]), dequant, k, v)
    {
      var zig := Dezigzag(k);
      data[zig] := ToInt16(v * dequant[zig]);
    }

    /** The search by code size, for codes that the 9-bit table does not hold. */
    method SlowDecode(h: JHuffman, ghost sizes: seq<nat>) returns (c: int)
      requires ReaderOk(State()) && h.Tables(sizes) && Shr(codeBuffer, 23) < 512 && h.fast[Shr(codeBuffer, 23)] == 255
      modifies this
      ensures match Found(old(State()), sizes)
              case None => c == -1
              case Some((sym, r)) => sym < 256 && c == h.values[sym] && State() == r
    {
      hide Total, HuffCode, Upto, Shr, Shl, Low, And, Begins, Found, RangeOk, Confused;
      ShrBound32(codeBuffer);
      var temp := Shr(codeBuffer, 16);
      AfterMiss(sizes, codeBuffer, temp);
      var k := FindSize(h, sizes, temp);
      if k == 17 {
        NothingFound(sizes, State());
        codeBits := codeBits - 16;
        return -1;
      }
      if k > codeBits {
        TooFewBits(sizes, State(), k, h.delta[k], h.maxcode[k]);
        return -1;
      }
      TopCode(codeBuffer, k);
      c := And(Shr(codeBuffer, 32 - k), Pow2(k) - 1) + h.delta[k];
      IndexFound(sizes, State(), k, h.delta[k], h.maxcode[k]);
      if c < 0 || c >= 256 {
        return -1;
      }
      // the assertion of the C code, which the confused case breaks
      if !Confused(sizes, temp) {
        AssertedCode(sizes, temp, c);
        assert h.size[c] == sizes[c] && h.code[c] == U16(HuffCode(sizes, c));
        assert And(Shr(codeBuffer, 32 - h.size[c]), Pow2(h.size[c]) - 1) == h.code[c];
      }
      codeBits := codeBits - k;
      codeBuffer := Low(Shl(codeBuffer, k), 32);
      return h.values[c];
    }

    /** The first size from 10 on whose codes reach beyond the window, or 17. */
    static method FindSize(h: JHuffman, ghost sizes: seq<nat>, temp: nat) returns (k: nat)
      requires h.Tables(sizes) && temp < 0x1_0000 && Missed(sizes, temp)
      ensures 10 <= k <= 17 && Searched(sizes, temp, k)
      ensures k <= 16 ==> RangeOk(sizes, k, h.delta[k], h.maxcode[k]) && temp < h.maxcode[k]
    {
      hide Total, HuffCode, Upto, Begins;
      AllSizes(sizes);
      k := 10;
      while temp >= h.maxcode[k]
        invariant 10 <= k <= 17 && Searched(sizes, temp, k)
        decreases 17 - k
      {
        assert RangeOk(sizes, k, h.delta[k], h.maxcode[k]);
        UptoSplits(sizes, k, |sizes|);
        NotInRange(sizes, temp, k);
        k := k + 1;
      }
      assert k <= 16 ==> RangeOk(sizes, k, h.delta[k], h.maxcode[k]);
    }
  }

  // ---- the search by code size ----

  /** What a miss in the 9-bit table tells about the window. */
  ghost predicate Missed(sizes: seq<nat>, w: nat)
    requires Sizes(sizes)
  {
    Confused(sizes, w) || (Upto(sizes, 9, |sizes|) <= |sizes| && Total(sizes, Upto(sizes, 9, |sizes|)) <= w)
  }

  /** The window lies beyond the codes of fewer than k bits; the confused case stops at once. */
  ghost predicate Searched(sizes: seq<nat>, w: nat, k: nat)
    requires Sizes(sizes) && k >= 1
  {
    if Confused(sizes, w) then k == 10
    else Upto(sizes, k - 1, |sizes|) <= |sizes| && Total(sizes, Upto(sizes, k - 1, |sizes|)) <= w
  }

  lemma AfterMiss(sizes: seq<nat>, b: nat, w: nat)
    requires Sizes(sizes) && w == Shr(b, 16) && FastEntry(sizes, |sizes|, Shr(b, 23), 255)
    ensures Missed(sizes, w)
  {
    hide HuffCode, Total, Upto, Shr;
    if !Confused(sizes, w) {
      FastMiss(sizes, b, w);
    }
  }

  /** In the confused case the window lies below the codes of ten bits. */
  lemma NotInRange(sizes: seq<nat>, w: nat, k: nat)
    requires Sizes(sizes) && 10 <= k <= 16 && Searched(sizes, w, k)
    requires Upto(sizes, k, |sizes|) <= |sizes| && Total(sizes, Upto(sizes, k, |sizes|)) <= w
    ensures !Confused(sizes, w)
  {
    hide HuffCode;
    if Confused(sizes, w) {
      ConfusedTen(sizes, w);
    }
  }

  lemma NothingFound(sizes: seq<nat>, r: Reader)
    requires Sizes(sizes) && Searched(sizes, Shr(r.buffer, 16), 17)
    ensures Found(r, sizes) == None
  {
    hide HuffCode, Shr;
    AllSizes(sizes);
    NoSymbol(sizes, Shr(r.buffer, 16));
  }

  /** The symbol that the search has come to, unless it is confused. */
  lemma SymbolFound(sizes: seq<nat>, w: nat, k: nat, delta: int, maxcode: nat) returns (sym: nat)
    requires Sizes(sizes) && 10 <= k <= 16 && Searched(sizes, w, k) && !Confused(sizes, w)
    requires RangeOk(sizes, k, delta, maxcode) && w < maxcode
    ensures SymbolOf(sizes, w) == Some(sym) && sym < |sizes| && sizes[sym] == k && Shr(w, 16 - k) + delta == sym
  {
    hide HuffCode, Shr, Upto, Total;
    sym := SlowHit(sizes, w, k, delta, maxcode);
    SymbolIs(sizes, sym, w);
  }

  lemma TooFewBits(sizes: seq<nat>, r: Reader, k: nat, delta: int, maxcode: nat)
    requires Sizes(sizes) && 10 <= k <= 16 && Searched(sizes, Shr(r.buffer, 16), k) && r.bits < k
    requires RangeOk(sizes, k, delta, maxcode) && Shr(r.buffer, 16) < maxcode
    ensures Found(r, sizes) == None
  {
    hide HuffCode, Shr, Upto, Total, RangeOk;
    var w := Shr(r.buffer, 16);
    if Confused(sizes, w) {
      SymbolIs(sizes, 255, w);
    } else {
      var sym := SymbolFound(sizes, w, k, delta, maxcode);
    }
  }

  lemma IndexFound(sizes: seq<nat>, r: Reader, k: nat, delta: int, maxcode: nat)
    requires Sizes(sizes) && 10 <= k <= 16 && Searched(sizes, Shr(r.buffer, 16), k) && k <= r.bits
    requires RangeOk(sizes, k, delta, maxcode) && Shr(r.buffer, 16) < maxcode
    ensures var c := Shr(Shr(r.buffer, 16), 16 - k) + delta;
      && Found(r, sizes) == (if 0 <= c < 256 then Some((c, Consume(r, k))) else None)
      && (!Confused(sizes, Shr(r.buffer, 16)) ==>
        0 <= c < |sizes| && sizes[c] == k && Begins(sizes, c, Shr(r.buffer, 16)))
  {
    hide HuffCode, Shr, Upto, Total, RangeOk, Consume;
    var w := Shr(r.buffer, 16);
    if Confused(sizes, w) {
      ShrShr(r.buffer, 16, 6);
      ConfusedDelta(sizes, w, delta, maxcode);
    } else {
      var sym := SymbolFound(sizes, w, k, delta, maxcode);
    }
  }

  lemma ConfusedDelta(sizes: seq<nat>, w: nat, delta: int, maxcode: nat)
    requires Sizes(sizes) && Confused(sizes, w) && RangeOk(sizes, 10, delta, maxcode)
    ensures delta == 256 - Shr(Total(sizes, 256), 6)
  {
    hide HuffCode, Shr;
    forall i | 0 <= i < |sizes|
      ensures sizes[i] <= 9
    {
      Nondecreasing(sizes, i, 255);
    }
    UptoIs(sizes, 9, |sizes|, |sizes|);
    ShrShl(256 - delta, 6, 6);
    ShrNothing(256 - delta);
  }

  lemma FeedAdvances(input: seq<byte>, r: Reader)
    requires 0 <= r.bits <= 24
    ensures var (r1, stop) := Feed(input, r); r1.bits == (if stop then r.bits else r.bits + 8)
  {
  }

  // ---- receive and extend ----

  /** x & ~((1 << n) - 1), on W-bit numbers. */
  lemma {:induction false} AndHigh(x: nat, W: nat, n: nat)
    requires n <= W
    ensures Pow2(n) <= Pow2(W) && And(x, Pow2(W) - Pow2(n)) == Shl(Shr(Low(x, W), n), n)
  {
    Pow2Monotone(n, W);
    if n == 0 {
      AndMask(x, W);
    } else {
      assert Pow2(W) - Pow2(n) == 2 * (Pow2(W - 1) - Pow2(n - 1));
      HalveBits(x, W, n);
      hide And, Shl, Shr, Low, Pow2;
      AndHigh(x / 2, W - 1, n - 1);
      HalveAnd(x, Pow2(W - 1) - Pow2(n - 1));
    }
  }

  lemma HalveBits(x: nat, W: nat, n: nat)
    requires 0 < n <= W
    ensures Shl(Shr(Low(x, W), n), n) == 2 * Shl(Shr(Low(x / 2, W - 1), n - 1), n - 1)
  {
    assert Low(x, W) / 2 == Low(x / 2, W - 1);
  }

  lemma HalveAnd(x: nat, y: nat)
    ensures And(x, 2 * y) == 2 * And(x / 2, y)
  {
  }

  /** Rotating left by n puts the top n bits lowest and the rest on top. */
  lemma Rotate(b: nat, n: nat)
    requires b < 0x1_0000_0000 && 1 <= n <= 16
    ensures Pow2(n) <= 0x1_0000
    ensures var v := Or(Low(Shl(b, n), 32), Shr(b, 32 - n));
      && And(v, Pow2(n) - 1) == Shr(b, 32 - n)
      && And(v, 0x1_0000_0000 - Pow2(n)) == Low(Shl(b, n), 32)
  {
    hide Low, Shl, Shr, Or, And;
    var top, rest := Shr(b, 32 - n), Low(Shl(b, n), 32);
    Pow2Values();
    Pow2Monotone(n, 16);
    ShrBound(b, n, 32 - n);
    // the rest is a multiple of 2^n
    LowLow(Shl(b, n), 32, n);
    LowZero(b, n);
    ShrThenShl(rest, n);
    var h := Shr(rest, n);
    OrShl(h, top, n);
    var v := Shl(h, n) + top;
    AndMask(v, n);
    LowOfSum(h, top, n);
    AndHigh(v, 32, n);
    LowBound(Shl(b, n), 32);
    RotateFits(h, top, n);
    LowSmall(v, 32);
    ShrInterval(v, n, h);
    ShlAdd(h, 1, n);
    ShlIsPow2(n);
  }

  lemma RotateFits(h: nat, top: nat, n: nat)
    requires 1 <= n <= 16 && Shl(h, n) < 0x1_0000_0000 && top < Pow2(n)
    ensures Shl(h, n) + top < Pow2(32)
  {
    Pow2Values();
    Pow2Add(32 - n, n);
    if Pow2(32 - n) <= h {
      ShlMonotone(Pow2(32 - n), h, n);
    }
    ShlMonotone(h + 1, Pow2(32 - n), n);
    ShlAdd(h, 1, n);
    ShlIsPow2(n);
  }

  /** The sign bit of the buffer decides whether an n-bit number is extended. */
  lemma SignBit(b: nat, n: nat)
    requires b < 0x1_0000_0000 && 1 <= n <= 16
    ensures Shr(b, 31) <= 1 && (Shr(b, 31) == 0 <==> Shr(b, 32 - n) < Pow2(n - 1))
  {
    Pow2Values();
    ShrBound(b, 1, 31);
    ShrShr(b, 32 - n, n - 1);
    ShrInterval(Shr(b, 32 - n), n - 1, 0);
    ShlIsPow2(n - 1);
  }

  lemma MagnitudeBits(x: nat, len: nat, mag: nat)
    requires len + mag <= 9
    ensures Shr(And(Shl(x, len), 511), 9 - mag) == Low(Shr(x, 9 - len - mag), mag)
  {
    Pow2Values();
    AndMask(Shl(x, len), 9);
    TopAfterShift(x, 9, len, mag);
  }

  lemma ConfusedTen(sizes: seq<nat>, w: nat)
    requires Sizes(sizes) && Confused(sizes, w)
    ensures Upto(sizes, 10, |sizes|) == |sizes| && w < Total(sizes, |sizes|)
  {
    hide HuffCode;
    BeginsInterval(sizes, 255, w);
    forall i | 0 <= i < |sizes|
      ensures sizes[i] <= 10 <==> i < |sizes|
    {
      Nondecreasing(sizes, i, 255);
    }
    UptoIs(sizes, 10, |sizes|, |sizes|);
  }

  /** The top k bits of the buffer, and of its upper half. */
  lemma TopCode(b: nat, k: nat)
    requires b < 0x1_0000_0000 && 1 <= k <= 16
    ensures And(Shr(b, 32 - k), Pow2(k) - 1) == Shr(b, 32 - k) == Shr(Shr(b, 16), 16 - k)
  {
    Pow2Values();
    ShrShr(b, 16, 16 - k);
    ShrBound(b, k, 32 - k);
    AndMask(Shr(b, 32 - k), k);
    LowSmall(Shr(b, 32 - k), k);
  }

  /** The code that the decoder asserts it has found. */
  lemma AssertedCode(sizes: seq<nat>, w: nat, sym: nat)
    requires Fits(sizes) && Begins(sizes, sym, w)
    ensures U16(HuffCode(sizes, sym)) == HuffCode(sizes, sym) == Shr(w, 16 - sizes[sym])
  {
    hide HuffCode, Shr;
    CodeWidth(sizes, sym);
  }
}

