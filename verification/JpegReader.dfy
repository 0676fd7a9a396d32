/** The bit reservoir of the JPEG decoder and the operations of section F.2.2 of ITU-T T.81 on it: the
    next bits stand at the top of a 32-bit buffer. */
module JpegReader {
  import opened Wrappers
  import opened Bits
  import opened JpegCanonical

  /** pos is the read position in the input; nomore is set at a marker, after which zeros are fed in. */
  datatype Reader = Reader(buffer: nat, bits: int, pos: nat, marker: nat, nomore: bool)

  predicate ReaderOk(r: Reader)
  {
    0 <= r.bits <= 32 && r.buffer < 0x1_0000_0000 && Low(r.buffer, 32 - r.bits) == 0
  }

  /** The pending bits as a number. */
  function Pending(r: Reader): nat
    requires ReaderOk(r)
  {
    Shr(r.buffer, 32 - r.bits)
  }

  /** stbi__get8 on a memory source. */
  function GetByte(input: seq<byte>, pos: nat): (byte, nat)
  {
    if pos < |input| then (input[pos], pos + 1) else (0, pos)
  }

  /** The first byte other than 0xFF. */
  function SkipFill(input: seq<byte>, pos: nat): (byte, nat)
    decreases |input| - pos
  {
    if pos < |input| && input[pos] == 0xFF then SkipFill(input, pos + 1) else GetByte(input, pos)
  }

  function Append(r: Reader, b: byte): Reader
    requires 0 <= r.bits <= 24
  {
    r.(buffer := Or(r.buffer, Shl(b, 24 - r.bits)), bits := r.bits + 8)
  }

  /** One round of stbi__grow_buffer_unsafe; the flag says that it returns at a marker. */
  function Feed(input: seq<byte>, r: Reader): (Reader, bool)
    requires 0 <= r.bits <= 24
  {
    if r.nomore then (Append(r, 0), false) else
      var (b, p) := GetByte(input, r.pos);
      if b != 0xFF then (Append(r.(pos := p), b), false) else
        var (c, q) := SkipFill(input, p);
        if c != 0 then (r.(pos := q, marker := c, nomore := true), true)
        else (Append(r.(pos := q), b), false)
  }

  function Grow(input: seq<byte>, r: Reader): Reader
    requires 0 <= r.bits <= 24
    decreases 24 - r.bits
  {
    var (r1, stop) := Feed(input, r);
    if stop || r1.bits > 24 then r1 else Grow(input, r1)
  }

  /** Makes n bits available if it can. */
  function Refill(input: seq<byte>, r: Reader, n: nat): Reader
    requires 0 <= r.bits && n <= 16
  {
    if r.bits < n then Grow(input, r) else r
  }

  function Consume(r: Reader, n: nat): Reader
  {
    r.(buffer := Low(Shl(r.buffer, n), 32), bits := r.bits - n)
  }

  ghost function SymbolOf(sizes: seq<nat>, w: nat): (r: Option<nat>)
    requires Sizes(sizes)
    ensures r.Some? ==> Begins(sizes, r.value, w)
    ensures r.None? ==> forall k: nat :: !Begins(sizes, k, w)
  {
    if exists k: nat :: Begins(sizes, k, w) then
      var k: nat :| Begins(sizes, k, w);
      Some(k)
    else None
  }

  /** Figure F.16: the next Huffman symbol; None if there is no such code or it is cut short by a marker. */
  ghost function NextSymbol(r: Reader, sizes: seq<nat>): Option<(nat, Reader)>
    requires Sizes(sizes)
  {
    match SymbolOf(sizes, Shr(r.buffer, 16))
    case None => None
    case Some(k) => if sizes[k] > r.bits then None else Some((k, Consume(r, sizes[k])))
  }

  ghost function Decode(input: seq<byte>, r: Reader, sizes: seq<nat>): Option<(nat, Reader)>
    requires Sizes(sizes) && 0 <= r.bits
  {
    NextSymbol(Refill(input, r, 16), sizes)
  }

  /** The one case the tables get wrong: symbol index 255 with a short code looks like "not in the table". */
  ghost predicate Confused(sizes: seq<nat>, w: nat)
    requires Sizes(sizes)
  {
    |sizes| == 256 && sizes[255] <= 9 && Begins(sizes, 255, w)
  }

  /** What the search for longer codes finds in that case: it takes ten bits for a code that does not exist. */
  function Misread(sizes: seq<nat>, r: Reader): Option<(nat, Reader)>
    requires Sizes(sizes) && |sizes| == 256
  {
    var index := 256 + Shr(r.buffer, 22) - Shr(Total(sizes, 256), 6);
    if r.bits < 10 || index < 0 || index >= 256 then None else Some((index, Consume(r, 10)))
  }

  /** What stbi__jpeg_huff_decode finds, after the refill. */
  ghost function Found(r: Reader, sizes: seq<nat>): (d: Option<(nat, Reader)>)
    requires Sizes(sizes)
    ensures d.Some? ==> d.value.0 < 256
  {
    if Confused(sizes, Shr(r.buffer, 16)) && sizes[255] <= r.bits then Misread(sizes, r) else NextSymbol(r, sizes)
  }

  ghost function Lookup(input: seq<byte>, r: Reader, sizes: seq<nat>): (d: Option<(nat, Reader)>)
    requires Sizes(sizes) && 0 <= r.bits
    ensures d.Some? ==> d.value.0 < 256
  {
    Found(Refill(input, r, 16), sizes)
  }

  /** It is right except in that one case, and then always wrong. */
  lemma LookupIsDecodeIff(input: seq<byte>, r: Reader, sizes: seq<nat>)
    requires Sizes(sizes) && 0 <= r.bits
    ensures var r1 := Refill(input, r, 16);
      Lookup(input, r, sizes) == Decode(input, r, sizes)
      <==> !(Confused(sizes, Shr(r1.buffer, 16)) && sizes[255] <= r1.bits)
  {
    hide Begins;
    var r1 := Refill(input, r, 16);
    var w := Shr(r1.buffer, 16);
    if Confused(sizes, w) {
      BeginsUnique(sizes, 255, SymbolOf(sizes, w).value, w);
    }
  }

  /** So it is right for all tables with fewer symbols, or a longer last code. */
  lemma LookupIsDecode(input: seq<byte>, r: Reader, sizes: seq<nat>)
    requires Sizes(sizes) && 0 <= r.bits && !(|sizes| == 256 && sizes[255] <= 9)
    ensures Lookup(input, r, sizes) == Decode(input, r, sizes)
  {
  }

  /** Figure F.12: an n-bit number whose top bit is clear stands for a negative value. */
  function Extend(v: nat, n: nat): int
    requires 0 < n
  {
    if v < Pow2(n - 1) then v - Pow2(n) + 1 else v
  }

  /** RECEIVE and EXTEND; 0 if a marker cuts the bits short. */
  function Receive(input: seq<byte>, r: Reader, n: nat): (Reader, int)
    requires 0 <= r.bits && 0 < n <= 16
  {
    var r1 := Refill(input, r, n);
    if r1.bits < n then (r1, 0) else (Consume(r1, n), Extend(Shr(r1.buffer, 32 - n), n))
  }

  // ---- what the operations mean ----

  lemma LowZero(h: nat, n: nat)
    ensures Low(Shl(h, n), n) == 0
  {
    LowOfSum(h, 0, n);
  }

  lemma {:induction false} ShrThenShl(x: nat, n: nat)
    requires Low(x, n) == 0
    ensures x == Shl(Shr(x, n), n)
  {
    if n > 0 {
      ShrThenShl(x / 2, n - 1);
    }
  }

  /** Feeding a byte appends its eight bits to the pending ones. */
  lemma AppendMeaning(r: Reader, b: byte)
    requires ReaderOk(r) && r.bits <= 24
    ensures ReaderOk(Append(r, b)) && Pending(Append(r, b)) == Shl(Pending(r), 8) + b
  {
    hide Low, Shr, Shl, Or;
    var m, n := 24 - r.bits, 32 - r.bits;
    var v := Pending(r);
    ShrThenShl(r.buffer, n);
    ShlShl(v, 8, m);
    ShlAdd(Shl(v, 8), b, m);
    ByteFits(b, m);
    OrShl(v, Shl(b, m), n);
    LowZero(Shl(v, 8) + b, m);
    ShrShl(Shl(v, 8) + b, m, m);
    ShrNothing(Shl(v, 8) + b);
    AppendFits(r, b, v, m);
  }

  lemma ShrNothing(x: nat)
    ensures Shr(x, 0) == x
  {
  }

  lemma ByteFits(b: byte, m: nat)
    ensures Shl(b, m) < Pow2(m + 8)
  {
    Pow2Values();
    ShlMonotone(b, Pow2(8), m);
    Pow2Add(8, m);
  }

  lemma AppendFits(r: Reader, b: byte, v: nat, m: nat)
    requires m + 8 <= 32 && r.buffer == Shl(v, m + 8) < 0x1_0000_0000
    ensures Shl(v, m + 8) + Shl(b, m) < 0x1_0000_0000
  {
    var k := 24 - m;
    Pow2Values();
    Pow2Add(k, m + 8);
    if Pow2(k) <= v {
      ShlMonotone(Pow2(k), v, m + 8);
    }
    ShlMonotone(v + 1, Pow2(k), m + 8);
    ShlAdd(v, 1, m + 8);
    ShlIsPow2(m + 8);
    ByteFits(b, m);
  }

  lemma GrowOk(input: seq<byte>, r: Reader)
    requires ReaderOk(r) && r.bits <= 24
    ensures ReaderOk(Grow(input, r)) && r.bits <= Grow(input, r).bits
    ensures r.nomore ==> Grow(input, r).nomore
    ensures 24 < Grow(input, r).bits || (!r.nomore && Grow(input, r).nomore)
    decreases 24 - r.bits
  {
    hide Append, GetByte, SkipFill;
    assert 0 <= r.bits;
    var (r1, stop) := Feed(input, r);
    FeedOk(input, r);
    if !stop && r1.bits <= 24 {
      GrowOk(input, r1);
    }
  }

  lemma FeedOk(input: seq<byte>, r: Reader)
    requires ReaderOk(r) && r.bits <= 24
    ensures var (r1, stop) := Feed(input, r);
      && ReaderOk(r1) && (r.nomore ==> r1.nomore && !stop)
      && r1.bits == (if stop then r.bits else r.bits + 8) && (stop <==> !r.nomore && r1.nomore)
  {
    hide Low, Shr, Shl, Or;
    var (b, p) := GetByte(input, r.pos);
    var (c, q) := SkipFill(input, p);
    AppendMeaning(r, 0);
    AppendMeaning(r.(pos := p), b);
    AppendMeaning(r.(pos := q), b);
  }

  /** Taking n bits leaves the other pending bits. */
  lemma ConsumeMeaning(r: Reader, n: nat)
    requires ReaderOk(r) && n <= r.bits
    ensures ReaderOk(Consume(r, n)) && Pending(Consume(r, n)) == Low(Pending(r), r.bits - n)
    ensures Consume(r, n).nomore == r.nomore && Consume(r, n).bits == r.bits - n
  {
    hide Low, Shr, Shl;
    TopAfterShift(r.buffer, 32, n, r.bits - n);
    LowBound(Shl(r.buffer, n), 32);
    Pow2Values();
    var m := 32 - r.bits;
    ShrThenShl(r.buffer, m);
    ShlShl(Shr(r.buffer, m), m, n);
    LowLow(Shl(r.buffer, n), 32, m + n);
    LowZero(Shr(r.buffer, m), m + n);
  }

  /** The top d bits after m bits have been shifted out of a W-bit number. */
  lemma TopAfterShift(b: nat, W: nat, m: nat, d: nat)
    requires m + d <= W
    ensures Shr(Low(Shl(b, m), W), W - d) == Low(Shr(b, W - m - d), d)
  {
    ShrLow(Shl(b, m), W - d, d);
    ShrShl(b, m, W - d);
  }
}
