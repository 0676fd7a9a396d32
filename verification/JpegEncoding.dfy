/** What an encoder following section F.1.2 of ITU-T T.81 makes of a block, and that the decoder gives the block back:
    every coefficient in its row and column, dequantized. */
module JpegEncoding {
  import opened Wrappers
  import opened Bits
  import opened JpegCanonical
  import opened JpegHuffman
  import opened JpegReader
  import opened JpegStream
  import opened JpegBits
  import opened JpegAc
  import opened JpegZigzag

  // ---- values ----

  function Abs(v: int): nat
  {
    if v < 0 then -v else v
  }

  /** v is written with s bits: its absolute value has exactly s binary digits (table F.1). */
  predicate InCategory(v: int, s: nat)
  {
    s > 0 && Pow2(s - 1) <= Abs(v) < Pow2(s)
  }

  /** The s bits: a negative value is written less one, in two's complement. */
  function ValueBits(v: int, s: nat): (r: nat)
    requires InCategory(v, s)
    ensures r < Pow2(s)
  {
    if v > 0 then v else v - 1 + Pow2(s)
  }

  lemma ExtendInverts(v: int, s: nat)
    requires InCategory(v, s)
    ensures Extend(ValueBits(v, s), s) == v
  {
  }

  // ---- AC coefficients ----

  /** A run of zeros and a coefficient, sixteen zeros, or zeros up to the end of the block; each with the index of its
      symbol. */
  datatype Token = Coefficient(sym: nat, v: int) | SixteenZeros(sym: nat) | EndOfBlock(sym: nat)

  /** zz is zero from k up to n. */
  predicate Zeros(zz: seq<int>, k: nat, n: nat)
  {
    n <= |zz| && forall i :: k <= i < n ==> zz[i] == 0
  }

  /** The tokens write the coefficients from number k on. */
  predicate Writes(h: AcCode, zz: seq<int>, k: nat, ts: seq<Token>)
    requires h.Ok() && |zz| == 64
    decreases |ts|
  {
    if k >= 64 then k == 64 && ts == []
    else
      && ts != [] && Usable(h.sizes, ts[0].sym)
      && var rs: nat := h.values[ts[0].sym];
        match ts[0]
        case EndOfBlock(_) => rs == 0 && Zeros(zz, k, 64) && ts[1..] == []
        case SixteenZeros(_) => rs == 0xF0 && k + 16 < 64 && Zeros(zz, k, k + 16) && Writes(h, zz, k + 16, ts[1..])
        case Coefficient(_, v) =>
          && InCategory(v, rs % 16) && k + rs / 16 < 64 && Zeros(zz, k, k + rs / 16) && zz[k + rs / 16] == v
          && Writes(h, zz, k + rs / 16 + 1, ts[1..])
  }

  lemma {:induction false} WritesOk(h: AcCode, zz: seq<int>, k: nat, ts: seq<Token>)
    requires h.Ok() && |zz| == 64 && Writes(h, zz, k, ts)
    ensures TokensOk(h, ts)
    decreases |ts|
  {
    hide Fits, InCategory;
    if k < 64 {
      IndexOk(h, ts[0].sym);
    }
    if k < 64 && !ts[0].EndOfBlock? {
      WritesOk(h, zz, if ts[0].SixteenZeros? then k + 16 else k + h.values[ts[0].sym] / 16 + 1, ts[1..]);
      assert forall i :: 0 < i < |ts| ==> ts[i] == ts[1..][i - 1];
    }
  }

  lemma IndexOk(h: AcCode, sym: nat)
    requires h.Ok() && sym < |h.sizes|
    ensures Sizes(h.sizes) && sym < 256 == |h.values|
  {
  }

  predicate TokenOk(h: AcCode, t: Token)
  {
    h.Ok() && t.sym < |h.sizes| && (t.Coefficient? ==> InCategory(t.v, h.values[t.sym] % 16))
  }

  /** The number of bits that follow the code of a token. */
  function ExtraBits(h: AcCode, t: Token): nat
    requires TokenOk(h, t)
  {
    if t.Coefficient? then h.values[t.sym] % 16 else 0
  }

  function TokenSize(h: AcCode, t: Token): nat
    requires TokenOk(h, t)
  {
    h.sizes[t.sym] + ExtraBits(h, t)
  }

  function Extra(h: AcCode, t: Token): nat
    requires TokenOk(h, t)
  {
    if t.Coefficient? then ValueBits(t.v, h.values[t.sym] % 16) else 0
  }

  predicate TokensOk(h: AcCode, ts: seq<Token>)
  {
    h.Ok() && forall i :: 0 <= i < |ts| ==> TokenOk(h, ts[i])
  }

  function Size(h: AcCode, ts: seq<Token>): nat
    requires TokensOk(h, ts)
  {
    if ts == [] then 0 else TokenSize(h, ts[0]) + Size(h, ts[1..])
  }

  /** The code of each token, then its value bits, as one number. */
  function Number(h: AcCode, ts: seq<Token>): nat
    requires TokensOk(h, ts)
  {
    if ts == [] then 0
    else
      var rest := Size(h, ts[1..]);
      Shl(HuffCode(h.sizes, ts[0].sym), ExtraBits(h, ts[0]) + rest) + Shl(Extra(h, ts[0]), rest) + Number(h, ts[1..])
  }

  lemma TokensRest(h: AcCode, ts: seq<Token>)
    requires TokensOk(h, ts) && ts != []
    ensures TokenOk(h, ts[0]) && TokensOk(h, ts[1..])
  {
  }

  lemma BelowPow2(a: nat, m: nat, b: nat, n: nat)
    requires a < Pow2(m) && b < Pow2(n)
    ensures Shl(a, n) + b < Pow2(m + n)
  {
    hide Shl, Pow2;
    ShlMonotone(a + 1, Pow2(m), n);
    ShlAdd(a, 1, n);
    ShlIsPow2(n);
    Pow2Add(m, n);
  }

  /** A code, extra bits and what follows, as one number. */
  lemma ThreeParts(c: nat, s: nat, x: nat, e: nat, m: nat, r: nat)
    requires c < Pow2(s) && x < Pow2(e) && m < Pow2(r)
    ensures Shl(x, r) + m < Pow2(e + r) && Shl(c, e + r) + Shl(x, r) + m < Pow2(s + (e + r))
  {
    hide Shl, Pow2;
    BelowPow2(x, e, m, r);
    BelowPow2(c, s, Shl(x, r) + m, e + r);
  }

  lemma {:induction false} NumberFits(h: AcCode, ts: seq<Token>)
    requires TokensOk(h, ts)
    ensures Number(h, ts) < Pow2(Size(h, ts))
  {
    if ts == [] {
      assert Number(h, ts) == 0;
    } else {
      hide Number, Size, Pow2;
      TokensRest(h, ts);
      NumberFits(h, ts[1..]);
      NumberFitsToo(h, ts);
    }
  }

  lemma NumberFitsToo(h: AcCode, ts: seq<Token>)
    requires TokensOk(h, ts) && ts != [] && TokensOk(h, ts[1..]) && Number(h, ts[1..]) < Pow2(Size(h, ts[1..]))
    ensures Number(h, ts) < Pow2(Size(h, ts))
  {
    hide HuffCode, Shl, Extra, ExtraBits, Pow2, Fits, TokensOk, TokenOk, Number, Size;
    NumberStep(h, ts);
    PartsFit(h, ts[0]);
    ThreeParts(HuffCode(h.sizes, ts[0].sym), h.sizes[ts[0].sym], Extra(h, ts[0]), ExtraBits(h, ts[0]),
               Number(h, ts[1..]), Size(h, ts[1..]));
  }

  lemma NumberStep(h: AcCode, ts: seq<Token>)
    requires TokensOk(h, ts) && ts != []
    ensures TokenOk(h, ts[0]) && TokensOk(h, ts[1..]) && Sizes(h.sizes) && ts[0].sym < |h.sizes|
    ensures var rest := Size(h, ts[1..]);
      && Size(h, ts) == h.sizes[ts[0].sym] + (ExtraBits(h, ts[0]) + rest)
      && Number(h, ts) == Shl(HuffCode(h.sizes, ts[0].sym), ExtraBits(h, ts[0]) + rest) + Shl(Extra(h, ts[0]), rest)
                          + Number(h, ts[1..])
  {
    hide HuffCode, Shl, Extra, ExtraBits;
    TokensRest(h, ts);
  }

  lemma PartsFit(h: AcCode, t: Token)
    requires TokenOk(h, t)
    ensures Sizes(h.sizes) && Extra(h, t) < Pow2(ExtraBits(h, t)) && HuffCode(h.sizes, t.sym) < Pow2(h.sizes[t.sym])
  {
    hide HuffCode;
    CodeWidth(h.sizes, t.sym);
  }

  lemma ShiftedParts(c: nat, e: nat, x: nat, m: nat, r: nat, n: nat, b: nat)
    ensures Shl(Shl(c, e + r) + Shl(x, r) + m, n) + b == Shl(c, e + (r + n)) + (Shl(x, r + n) + (Shl(m, n) + b))
  {
    hide Shl;
    ShlAdd(Shl(c, e + r), Shl(x, r) + m, n);
    ShlAdd(Shl(x, r), m, n);
    ShlShl(c, e + r, n);
    ShlShl(x, r, n);
  }

  /** The number b' that stands behind the first token. */
  function Behind(h: AcCode, ts: seq<Token>, b: nat, n: nat): nat
    requires TokensOk(h, ts) && ts != []
  {
    TokensRest(h, ts);
    Shl(Number(h, ts[1..]), n) + b
  }

  function BitsBehind(h: AcCode, ts: seq<Token>, n: nat): nat
    requires TokensOk(h, ts) && ts != []
  {
    TokensRest(h, ts);
    Size(h, ts[1..]) + n
  }

  /** The first token in front of the others and of the number b. */
  lemma NumberSplit(h: AcCode, ts: seq<Token>, b: nat, n: nat)
    requires TokensOk(h, ts) && ts != [] && b < Pow2(n)
    ensures TokenOk(h, ts[0]) && Sizes(h.sizes)
    ensures var rest, e, b' := BitsBehind(h, ts, n), ExtraBits(h, ts[0]), Behind(h, ts, b, n);
      && b' < Pow2(rest) && Size(h, ts) + n == h.sizes[ts[0].sym] + (e + rest)
      && Shl(Number(h, ts), n) + b
         == Shl(HuffCode(h.sizes, ts[0].sym), e + rest) + (Shl(Extra(h, ts[0]), rest) + b')
      && Shl(Extra(h, ts[0]), rest) + b' < Pow2(e + rest)
  {
    hide HuffCode, Shl, Extra, ExtraBits, Pow2, Fits, TokensOk, TokenOk, Number, Size;
    NumberStep(h, ts);
    var r, e, c, x := Size(h, ts[1..]), ExtraBits(h, ts[0]), HuffCode(h.sizes, ts[0].sym), Extra(h, ts[0]);
    NumberFits(h, ts[1..]);
    BelowPow2(Number(h, ts[1..]), r, b, n);
    PartsFit(h, ts[0]);
    BelowPow2(x, e, Behind(h, ts, b, n), r + n);
    ShiftedParts(c, e, x, Number(h, ts[1..]), r, n, b);
  }

  // ---- the coefficients in their places ----

  /** Conversion to a short keeps what fits, and otherwise the low 16 bits. */
  lemma ToInt16Means(x: int)
    ensures -0x8000 <= ToInt16(x) <= 0x7FFF && (x - ToInt16(x)) % 0x1_0000 == 0
    ensures -0x8000 <= x <= 0x7FFF ==> ToInt16(x) == x
  {
  }

  /** The coefficients from number 1 up to k are in their places, dequantized, and there are zeros behind them. */
  predicate Filled(data: seq<int>, dequant: seq<nat>, zz: seq<int>, k: nat, dc: int)
    requires |dequant| == |zz| == 64
  {
    && |data| == 64 && data[0] == dc
    && forall j :: 1 <= j < 64 ==>
      data[Dezigzag(j)] == if j < k then ToInt16(zz[j] * dequant[Dezigzag(j)]) else 0
  }

  lemma ZerosFill(data: seq<int>, dequant: seq<nat>, zz: seq<int>, k: nat, n: nat, dc: int)
    requires |dequant| == |zz| == 64 && Filled(data, dequant, zz, k, dc) && k <= n && Zeros(zz, k, n)
    ensures Filled(data, dequant, zz, n, dc)
  {
    hide Dezigzag;
    forall j | k <= j < n
      ensures ToInt16(zz[j] * dequant[Dezigzag(j)]) == 0
    {
      assert zz[j] == 0;
    }
  }

  lemma StoreFills(data: seq<int>, dequant: seq<nat>, zz: seq<int>, k: nat, dc: int)
    requires |dequant| == |zz| == 64 && 1 <= k < 64 && Filled(data, dequant, zz, k, dc)
    ensures Filled(Store(data, dequant, k, zz[k]), dequant, zz, k + 1, dc)
  {
    hide Dezigzag, ToInt16;
    ZigzagOrder(k);
    ZigzagOrder(0);
  }

  // ---- decoding ----

  /** The code of the first token is read. */
  lemma ReadCode(input: seq<byte>, h: AcCode, r: Reader, ts: seq<Token>, b: nat, n: nat)
    requires TokensOk(h, ts) && ts != [] && Usable(h.sizes, ts[0].sym) && b < Pow2(n)
    requires ToRead(input, r, Shl(Number(h, ts), n) + b, Size(h, ts) + n)
    ensures TokenOk(h, ts[0]) && Sizes(h.sizes) && 0 <= r.bits && Behind(h, ts, b, n) < Pow2(BitsBehind(h, ts, n))
    ensures var d := Lookup(input, r, h.sizes);
      && d.Some? && d.value.0 == ts[0].sym
      && ToRead(input, d.value.1, Shl(Extra(h, ts[0]), BitsBehind(h, ts, n)) + Behind(h, ts, b, n),
                ExtraBits(h, ts[0]) + BitsBehind(h, ts, n))
  {
    hide HuffCode, Shl, Extra, ExtraBits, Pow2, Fits, Number, Size, Lookup, Usable, Behind, BitsBehind, Ahead;
    NumberSplit(h, ts, b, n);
    ReadSymbol(input, r, h.sizes, ts[0].sym, Shl(Extra(h, ts[0]), BitsBehind(h, ts, n)) + Behind(h, ts, b, n),
               ExtraBits(h, ts[0]) + BitsBehind(h, ts, n));
  }

  /** The first token of the block, after the buffer has been filled. */
  lemma ReadToken(input: seq<byte>, h: AcCode, dequant: seq<nat>, zz: seq<int>, r: Reader, k: nat, data: seq<int>,
                  ts: seq<Token>, b: nat, n: nat, dc: int)
    requires h.Ok() && |zz| == |dequant| == 64 && 1 <= k < 64 && Writes(h, zz, k, ts) && TokensOk(h, ts) && b < Pow2(n)
    requires ToRead(input, r, Shl(Number(h, ts), n) + b, Size(h, ts) + n) && Filled(data, dequant, zz, k, dc)
    ensures 0 <= r.bits && |data| == 64 && ts != []
    ensures var st := SlowStep(input, h, dequant, r, k, data);
      && ToRead(input, st.r, Behind(h, ts, b, n), BitsBehind(h, ts, n))
      && if ts[0].EndOfBlock? then st.EndBlock? && ts[1..] == [] && Filled(data, dequant, zz, 64, dc)
         else st.Next? && Writes(h, zz, st.k, ts[1..]) && Filled(st.data, dequant, zz, st.k, dc) && k < st.k <= 64
  {
    hide Shl, Fits, Number, Size, ToRead, Lookup, Receive, InCategory, Usable, Dezigzag, ToInt16, Store, Filled;
    hide Behind, BitsBehind;
    ReadCode(input, h, r, ts, b, n);
    match ts[0]
    case EndOfBlock(_) => ReadEnd(input, h, dequant, zz, r, k, data, ts, b, n, dc);
    case SixteenZeros(_) => ReadZeros(input, h, dequant, zz, r, k, data, ts, b, n, dc);
    case Coefficient(_, v) => ReadCoefficient(input, h, dequant, zz, r, k, data, ts, b, n, dc);
    FilledLength(data, dequant, zz, k, dc);
  }

  lemma FilledLength(data: seq<int>, dequant: seq<nat>, zz: seq<int>, k: nat, dc: int)
    requires |dequant| == |zz| == 64 && Filled(data, dequant, zz, k, dc)
    ensures |data| == 64
  {
  }

  /** The code of the first token has been found. */
  ghost predicate CodeRead(input: seq<byte>, h: AcCode, r: Reader, ts: seq<Token>, b: nat, n: nat)
  {
    && TokensOk(h, ts) && ts != [] && TokenOk(h, ts[0]) && Sizes(h.sizes) && 0 <= r.bits
    && Behind(h, ts, b, n) < Pow2(BitsBehind(h, ts, n))
    && var d := Lookup(input, r, h.sizes);
      && d.Some? && d.value.0 == ts[0].sym
      && ToRead(input, d.value.1, Shl(Extra(h, ts[0]), BitsBehind(h, ts, n)) + Behind(h, ts, b, n),
                ExtraBits(h, ts[0]) + BitsBehind(h, ts, n))
  }

  lemma ReadEnd(input: seq<byte>, h: AcCode, dequant: seq<nat>, zz: seq<int>, r: Reader, k: nat, data: seq<int>,
                ts: seq<Token>, b: nat, n: nat, dc: int)
    requires |zz| == |dequant| == 64 && 1 <= k < 64 && CodeRead(input, h, r, ts, b, n) && Writes(h, zz, k, ts)
    requires Filled(data, dequant, zz, k, dc) && ts[0].EndOfBlock?
    ensures |data| == 64
    ensures var st := SlowStep(input, h, dequant, r, k, data);
      && st.EndBlock? && ts[1..] == [] && Filled(data, dequant, zz, 64, dc)
      && ToRead(input, st.r, Behind(h, ts, b, n), BitsBehind(h, ts, n))
  {
    hide Shl, Fits, ToRead, Lookup, Usable, Dezigzag, ToInt16, Filled, Behind, BitsBehind;
    FilledLength(data, dequant, zz, k, dc);
    ZerosFill(data, dequant, zz, k, 64, dc);
    NothingInFront(Behind(h, ts, b, n), BitsBehind(h, ts, n));
  }

  lemma ReadZeros(input: seq<byte>, h: AcCode, dequant: seq<nat>, zz: seq<int>, r: Reader, k: nat, data: seq<int>,
                  ts: seq<Token>, b: nat, n: nat, dc: int)
    requires |zz| == |dequant| == 64 && 1 <= k < 64 && CodeRead(input, h, r, ts, b, n) && Writes(h, zz, k, ts)
    requires Filled(data, dequant, zz, k, dc) && ts[0].SixteenZeros?
    ensures |data| == 64
    ensures var st := SlowStep(input, h, dequant, r, k, data);
      && st.Next? && Writes(h, zz, st.k, ts[1..]) && Filled(st.data, dequant, zz, st.k, dc) && k < st.k <= 64
      && ToRead(input, st.r, Behind(h, ts, b, n), BitsBehind(h, ts, n))
  {
    hide Shl, Fits, ToRead, Lookup, Usable, Dezigzag, ToInt16, Filled, Behind, BitsBehind;
    FilledLength(data, dequant, zz, k, dc);
    ZerosFill(data, dequant, zz, k, k + 16, dc);
    NothingInFront(Behind(h, ts, b, n), BitsBehind(h, ts, n));
  }

  lemma ReadCoefficient(input: seq<byte>, h: AcCode, dequant: seq<nat>, zz: seq<int>, r: Reader, k: nat,
                        data: seq<int>, ts: seq<Token>, b: nat, n: nat, dc: int)
    requires |zz| == |dequant| == 64 && 1 <= k < 64 && CodeRead(input, h, r, ts, b, n) && Writes(h, zz, k, ts)
    requires Filled(data, dequant, zz, k, dc) && ts[0].Coefficient?
    ensures |data| == 64
    ensures var st := SlowStep(input, h, dequant, r, k, data);
      && st.Next? && Writes(h, zz, st.k, ts[1..]) && Filled(st.data, dequant, zz, st.k, dc) && k < st.k <= 64
      && ToRead(input, st.r, Behind(h, ts, b, n), BitsBehind(h, ts, n))
  {
    hide Shl, Fits, ToRead, Lookup, Receive, InCategory, Usable, Dezigzag, ToInt16, Store, Filled, Behind, BitsBehind;
    hide ValueBits;
    FilledLength(data, dequant, zz, k, dc);
    var run, s: nat := h.values[ts[0].sym] as nat / 16, h.values[ts[0].sym] as nat % 16;
    CategoryIsPositive(ts[0].v, s);
    ReadValue(input, Lookup(input, r, h.sizes).value.1, s, Extra(h, ts[0]), Behind(h, ts, b, n), BitsBehind(h, ts, n));
    ExtendInverts(ts[0].v, s);
    ZerosFill(data, dequant, zz, k, k + run, dc);
    StoreFills(data, dequant, zz, k + run, dc);
  }

  lemma NothingInFront(b: nat, n: nat)
    ensures Shl(0, n) + b == b
  {
    ShlOfZero(n);
  }

  lemma {:induction false} ShlOfZero(n: nat)
    ensures Shl(0, n) == 0
  {
    if n > 0 {
      ShlOfZero(n - 1);
    }
  }

  lemma CategoryIsPositive(v: int, s: nat)
    requires InCategory(v, s)
    ensures s > 0
  {
  }

  /** What has been written for the coefficients from number k on is decoded to them. */
  lemma {:induction false} SlowBlockReads(input: seq<byte>, h: AcCode, dequant: seq<nat>, zz: seq<int>, r: Reader,
                                          k: nat, data: seq<int>, ts: seq<Token>, b: nat, n: nat, dc: int)
    requires h.Ok() && |zz| == |dequant| == 64 && 1 <= k < 64 && Writes(h, zz, k, ts) && TokensOk(h, ts) && b < Pow2(n)
    requires ToRead(input, r, Shl(Number(h, ts), n) + b, Size(h, ts) + n) && Filled(data, dequant, zz, k, dc)
    ensures ReaderOk(r) && |data| == 64
    ensures var block := SlowBlock(input, h, dequant, r, k, data);
      block.Done? && Filled(block.data, dequant, zz, 64, dc) && ToRead(input, block.r, b, n)
    decreases 64 - k
  {
    hide Fits, Number, Size, InCategory, Usable, Dezigzag, ToInt16, SlowStep, Refill, Shl, ToRead, Filled;
    ReaderIsOk(input, r, Shl(Number(h, ts), n) + b, Size(h, ts) + n);
    FilledLength(data, dequant, zz, k, dc);
    RefillNext(input, r, 16, Shl(Number(h, ts), n) + b, Size(h, ts) + n);
    var r0 := Refill(input, r, 16);
    ReaderIsOk(input, r0, Shl(Number(h, ts), n) + b, Size(h, ts) + n);
    ReadToken(input, h, dequant, zz, r0, k, data, ts, b, n, dc);
    StepOk(input, h, dequant, r0, k, data);
    var st := SlowStep(input, h, dequant, r0, k, data);
    TokensRest(h, ts);
    if ts[0].EndOfBlock? || st.k == 64 {
      NothingLeft(h, ts[1..], b, n);
    } else {
      SlowBlockReads(input, h, dequant, zz, st.r, st.k, st.data, ts[1..], b, n, dc);
    }
  }

  lemma ReaderIsOk(input: seq<byte>, r: Reader, v: nat, n: nat)
    requires ToRead(input, r, v, n)
    ensures ReaderOk(r)
  {
  }

  lemma NothingLeft(h: AcCode, ts: seq<Token>, b: nat, n: nat)
    requires TokensOk(h, ts) && ts == []
    ensures Shl(Number(h, ts), n) + b == b && Size(h, ts) + n == n
  {
    NothingInFront(b, n);
  }
}
