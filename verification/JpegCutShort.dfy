/** A block that a marker cuts short where the combined table is used: the accelerated decoder rejects it, the plain one
    goes on with zeros. */
module JpegCutShort {
  import opened Wrappers
  import opened Bits
  import opened JpegCanonical
  import opened JpegHuffman
  import opened JpegReader
  import opened JpegAc

  /** A DC code of one symbol, seven zeros, for the difference 0. */
  function DcCode(): AcCode
  {
    AcCode([7], seq(256, _ => 0))
  }

  /** An AC code of one symbol, eight zeros, for a run of 15 and one bit of magnitude. */
  function OnlyAcCode(): AcCode
  {
    AcCode([8], seq(256, i => if i == 0 then 0xF1 else 0))
  }

  function Combined(): seq<int>
  {
    seq(512, x => if x == 0 then -7 else if x == 1 then 505 else 0)
  }

  function Ones(): seq<nat>
  {
    seq(64, _ => 1)
  }

  /** Four bytes of zeros and the marker EOI. */
  const CUT: seq<byte> := [0, 0, 0, 0, 0xFF, 0xD9]

  /** A reader whose buffer holds zeros. */
  function Zeros(bits: int, pos: nat, nomore: bool): Reader
  {
    Reader(0, bits, pos, if nomore then 0xD9 else 0xFF, nomore)
  }

  // ---- the tables ----

  lemma {:induction false} ShrZero(n: nat)
    ensures Shr(0, n) == 0
  {
    if n > 0 {
      ShrZero(n - 1);
    }
  }

  lemma OneCode(s: nat)
    requires 1 <= s <= 16
    ensures Sizes([s]) && HuffCode([s], 0) == 0 && Total([s], 1) == Pow2(16 - s)
  {
    ShlIsPow2(16 - s);
  }

  lemma OneSymbol(s: nat)
    requires 1 <= s <= 16
    ensures Fits([s]) && SymbolOf([s], 0) == Some(0) && HuffCode([s], 0) == 0
  {
    hide Shl, HuffCode, Total, Pow2, Shr, Sizes;
    OneCode(s);
    Pow2Monotone(16 - s, 16);
    Pow2Values();
    ShrZero(16 - s);
    assert Begins([s], 0, 0);
  }

  lemma CodesOk()
    ensures DcCode().Ok() && OnlyAcCode().Ok()
  {
    OneSymbol(7);
    OneSymbol(8);
  }

  lemma Entries(x: nat)
    requires x < 512
    ensures OnlyAcCode().Ok() && (FastMatch([8], 0, x) <==> x < 2)
    ensures x < 2 ==> Magnitude(x, 8, 1) == if x == 0 then -1 else 1
  {
    CodesOk();
    OneSymbol(8);
    assert Shr(x, 1) == x / 2;
    assert x < 2 ==> Shr(x, 0) == x && Low(x, 1) == x;
    assert Pow2(0) == 1 && Pow2(1) == 2;
  }

  /** The table is the one that stbi__build_fast_ac makes for this code. */
  lemma CombinedOk()
    ensures FacTable(OnlyAcCode(), Combined()) && FacComplete(OnlyAcCode(), Combined())
  {
    hide FastMatch, Magnitude, Fits;
    CodesOk();
    forall x: nat | x < 512
      ensures FacEntry(OnlyAcCode(), x, Combined()[x])
    {
      if x < 2 {
        Entries(x);
        assert FacSymbol(OnlyAcCode(), x, Combined()[x], 0);
      }
    }
    forall x: nat, sym: nat | x < 512 && Combinable(OnlyAcCode(), x, sym)
      ensures FacSymbol(OnlyAcCode(), x, Combined()[x], sym)
    {
      OnlySymbol(x, sym);
      Entries(x);
    }
  }

  lemma OnlySymbol(x: nat, sym: nat)
    requires OnlyAcCode().Ok() && Combinable(OnlyAcCode(), x, sym)
    ensures sym == 0 && FastMatch([8], 0, x)
  {
  }

  // ---- reading zeros ----

  lemma ZerosOk(bits: int, pos: nat, nomore: bool)
    requires 0 <= bits <= 32
    ensures ReaderOk(Zeros(bits, pos, nomore)) && Shr(0, 16) == 0 && Shr(0, 23) == 0
  {
    hide Low, Shr;
    LowSmall(0, 32 - bits);
    ShrZero(16);
    ShrZero(23);
  }

  lemma TakeZeros(bits: int, pos: nat, nomore: bool, n: nat)
    ensures Consume(Zeros(bits, pos, nomore), n) == Zeros(bits - n, pos, nomore)
  {
    ShlIsPow2(n);
    LowSmall(0, 32);
  }

  lemma FeedZero(pos: nat, bits: int)
    requires pos < 4 && 0 <= bits <= 24
    ensures Feed(CUT, Zeros(bits, pos, false)) == (Zeros(bits + 8, pos + 1, false), false)
  {
    ShlIsPow2(24 - bits);
  }

  lemma FirstRefill()
    ensures Refill(CUT, Zeros(0, 0, false), 16) == Zeros(32, 4, false)
  {
    FeedZero(0, 0);
    FeedZero(1, 8);
    FeedZero(2, 16);
    FeedZero(3, 24);
    hide Feed;
    assert Grow(CUT, Zeros(24, 3, false)) == Zeros(32, 4, false);
    assert Grow(CUT, Zeros(16, 2, false)) == Zeros(32, 4, false);
    assert Grow(CUT, Zeros(8, 1, false)) == Zeros(32, 4, false);
  }

  lemma MarkerRefill()
    ensures Refill(CUT, Zeros(7, 4, false), 16) == Zeros(7, 6, true)
  {
    assert SkipFill(CUT, 5) == (0xD9, 6);
    assert Feed(CUT, Zeros(7, 4, false)) == (Zeros(7, 6, true), true);
  }

  /** The symbol 0 and the magnitude bit 0. */
  lemma ZeroSymbol(b: int, pos: nat, nomore: bool)
    requires 16 <= b <= 32
    ensures Sizes([8]) && Found(Zeros(b, pos, nomore), [8]) == Some((0, Zeros(b - 8, pos, nomore)))
    ensures Receive(CUT, Zeros(b - 8, pos, nomore), 1) == (Zeros(b - 9, pos, nomore), -1)
  {
    hide Low, Shl, Shr, Consume, Fits, HuffCode;
    OneCode(8);
    OneSymbol(8);
    ShrZero(16);
    ShrZero(31);
    TakeZeros(b, pos, nomore, 8);
    TakeZeros(b - 8, pos, nomore, 1);
    assert Pow2(0) == 1 && Pow2(1) == 2;
  }

  /** With enough bits, or behind the marker, a step goes on, with the value -1. */
  lemma ZeroStep(bits: int, pos: nat, nomore: bool, k: nat, data: seq<int>)
    requires 0 <= bits <= 32 && (16 <= bits || nomore) && |data| == 64 && k < 64
    ensures OnlyAcCode().Ok()
    ensures var st := SlowStep(CUT, OnlyAcCode(), Ones(), Zeros(bits, pos, nomore), k, data);
      && st.Next? && st.k == k + 16 && |st.data| == 64
      && st.r == Zeros(st.r.bits, pos, nomore) && 0 <= st.r.bits <= 32 && (16 <= bits ==> st.r.bits == bits - 9)
  {
    hide Consume, Store, Shr, Fits, Begins, Found, Receive, Grow, Low;
    CodesOk();
    OneCode(8);
    ZerosOk(bits, pos, nomore);
    var r := Zeros(bits, pos, nomore);
    RefillOk(CUT, r, 16);
    if nomore {
      RefillPads(CUT, r, 16);
    }
    ZeroSymbol(Refill(CUT, r, 16).bits, pos, nomore);
  }

  /** Behind the marker the plain decoder reaches the end of the block. */
  lemma {:induction false} ZerosDone(bits: int, pos: nat, k: nat, data: seq<int>)
    requires 0 <= bits <= 32 && |data| == 64 && k < 64
    ensures OnlyAcCode().Ok() && ReaderOk(Zeros(bits, pos, true))
    ensures SlowBlock(CUT, OnlyAcCode(), Ones(), Zeros(bits, pos, true), k, data).Done?
    decreases 64 - k
  {
    hide SlowStep, Refill, Fits;
    CodesOk();
    var r := Zeros(bits, pos, true);
    ZerosOk(bits, pos, true);
    RefillPads(CUT, r, 16);
    RefillOk(CUT, r, 16);
    var b := Refill(CUT, r, 16).bits;
    ZeroStep(b, pos, true, k, data);
    var st := SlowStep(CUT, OnlyAcCode(), Ones(), Zeros(b, pos, true), k, data);
    if st.k < 64 {
      ZerosDone(st.r.bits, pos, st.k, st.data);
    }
  }

  // ---- the block ----

  /** The DC coefficient: seven bits of 32, difference 0. */
  lemma DcOfBlock()
    ensures DcCode().Ok() && ReaderOk(Zeros(0, 0, false))
    ensures DecodeDc(CUT, DcCode(), Zeros(0, 0, false), 0, 1) == DcOk(Zeros(25, 4, false), 0, 0)
  {
    hide Low, Shr, Shl, Consume, HuffCode, Grow;
    CodesOk();
    ZerosOk(0, 0, false);
    ZerosOk(32, 4, false);
    OneCode(7);
    OneSymbol(7);
    FirstRefill();
    TakeZeros(32, 4, false, 7);
    hide Fits;
    assert Lookup(CUT, Zeros(32, 4, false), [7]) == Some((0, Zeros(25, 4, false)));
  }

  /** The AC coefficients: two steps with nine bits each, then the refill meets the marker with seven bits left. */
  lemma AcOfBlock(data: seq<int>)
    requires |data| == 64
    ensures FacTable(OnlyAcCode(), Combined()) && ReaderOk(Zeros(25, 4, false)) && |Ones()| == 64
    ensures CutShort(CUT, OnlyAcCode(), Combined(), Ones(), Zeros(25, 4, false), 1, data)
    ensures SlowBlock(CUT, OnlyAcCode(), Ones(), Zeros(25, 4, false), 1, data).Done?
  {
    hide SlowStep, Fits, FacTable, Grow;
    CombinedOk();
    CodesOk();
    ZerosOk(25, 4, false);
    ZerosOk(16, 4, false);
    ZerosOk(7, 4, false);
    ZerosOk(7, 6, true);
    ZeroStep(25, 4, false, 1, data);
    var d1 := SlowStep(CUT, OnlyAcCode(), Ones(), Zeros(25, 4, false), 1, data).data;
    ZeroStep(16, 4, false, 17, d1);
    var d2 := SlowStep(CUT, OnlyAcCode(), Ones(), Zeros(16, 4, false), 17, d1).data;
    MarkerRefill();
    ZeroStep(7, 6, true, 33, d2);
    var st := SlowStep(CUT, OnlyAcCode(), Ones(), Zeros(7, 6, true), 33, d2);
    ZerosDone(st.r.bits, 6, 49, st.data);
    assert -7 % 16 == 9;
    assert CutShort(CUT, OnlyAcCode(), Combined(), Ones(), Zeros(7, 4, false), 33, d2);
    assert CutShort(CUT, OnlyAcCode(), Combined(), Ones(), Zeros(16, 4, false), 17, d1);
    assert SlowBlock(CUT, OnlyAcCode(), Ones(), Zeros(7, 4, false), 33, d2).Done?;
    assert SlowBlock(CUT, OnlyAcCode(), Ones(), Zeros(16, 4, false), 17, d1).Done?;
  }

  /** The accelerated decoder rejects the block, the plain one decodes it. */
  lemma CutShortExample()
    ensures DcCode().Ok() && FacTable(OnlyAcCode(), Combined()) && ReaderOk(Zeros(0, 0, false)) && |Ones()| == 64
    ensures BlockCutShort(CUT, DcCode(), OnlyAcCode(), Combined(), Ones(), Zeros(0, 0, false), 0)
    ensures BlockOf(CUT, DcCode(), OnlyAcCode(), Combined(), Ones(), Zeros(0, 0, false), 0) == None
    ensures PlainBlockOf(CUT, DcCode(), OnlyAcCode(), Ones(), Zeros(0, 0, false), 0).Some?
  {
    hide CutShort, SlowBlock, FastBlock, DecodeDc, Fits;
    CombinedOk();
    DcOfBlock();
    AcOfBlock(Zeros64()[0 := 0]);
    TableIsOptional(CUT, DcCode(), OnlyAcCode(), Combined(), Ones(), Zeros(0, 0, false), Zeros(0, 0, false), 0);
  }
}
