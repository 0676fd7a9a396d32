/** The bits that a JPEG reader stands for, without its buffer: the data bytes up to the next marker, with stuffed zeros
    removed (section B.1.1.5 of ITU-T T.81), followed by zeros. */
module JpegStream {
  import opened Wrappers
  import opened Bits
  import opened JpegCanonical
  import opened JpegReader

  /** The data bytes from pos up to the next marker. */
  function Destuffed(input: seq<byte>, pos: nat): seq<byte>
    decreases if pos < |input| then |input| - pos else 0
  {
    if pos >= |input| then []
    else if input[pos] != 0xFF then [input[pos]] + Destuffed(input, pos + 1)
    else
      SkipFillMovesOn(input, pos + 1);
      var (c, q) := SkipFill(input, pos + 1);
      if c == 0 then [0xFF] + Destuffed(input, q) else []
  }

  lemma {:induction false} SkipFillMovesOn(input: seq<byte>, pos: nat)
    ensures pos <= SkipFill(input, pos).1
    decreases |input| - pos
  {
    if pos < |input| && input[pos] == 0xFF {
      SkipFillMovesOn(input, pos + 1);
    }
  }

  /** The first n bits of a k-bit number followed by bytes and then zeros. */
  function First(v: nat, k: nat, bytes: seq<byte>, n: nat): nat
    decreases if k < n then n - k else 0
  {
    if n <= k then Shr(v, k - n)
    else if bytes == [] then First(Shl(v, 8), k + 8, [], n)
    else First(Shl(v, 8) + bytes[0], k + 8, bytes[1..], n)
  }

  /** The bytes that have not been loaded into the buffer. */
  function Remaining(input: seq<byte>, r: Reader): seq<byte>
  {
    if r.nomore then [] else Destuffed(input, r.pos)
  }

  /** The next n bits. */
  function Ahead(input: seq<byte>, r: Reader, n: nat): nat
    requires ReaderOk(r)
  {
    First(Pending(r), r.bits, Remaining(input, r), n)
  }

  // ---- filling the buffer ----

  /** A byte may be loaded before it is needed. */
  lemma FirstLoads(v: nat, k: nat, bytes: seq<byte>, n: nat)
    ensures First(v, k, bytes, n) ==
      if bytes == [] then First(Shl(v, 8), k + 8, [], n) else First(Shl(v, 8) + bytes[0], k + 8, bytes[1..], n)
  {
    if n <= k {
      var b := if bytes == [] then 0 else bytes[0];
      LoadedTop(v, b, k - n);
    }
  }

  lemma LoadedTop(v: nat, b: byte, m: nat)
    ensures Shr(Shl(v, 8) + b, m + 8) == Shr(v, m)
  {
    Pow2Values();
    ShrInterval(Shl(v, 8) + b, 8, v);
    ShlAdd(v, 1, 8);
    ShlIsPow2(8);
    ShrShr(Shl(v, 8) + b, 8, m);
  }

  lemma FeedKeeps(input: seq<byte>, r: Reader, n: nat)
    requires ReaderOk(r) && r.bits <= 24
    ensures ReaderOk(Feed(input, r).0) && Ahead(input, Feed(input, r).0, n) == Ahead(input, r, n)
  {
    hide Low, Shr, Shl, Or, First;
    FeedOk(input, r);
    FirstLoads(Pending(r), r.bits, Remaining(input, r), n);
    var (b, p) := GetByte(input, r.pos);
    var (c, q) := SkipFill(input, p);
    AppendMeaning(r, 0);
    AppendMeaning(r.(pos := p), b);
    AppendMeaning(r.(pos := q), b);
    if !r.nomore && r.pos < |input| && b == 0xFF && c == 0 {
      var more := Destuffed(input, q);
      assert ([0xFF] + more)[1..] == more;
    }
  }

  /** stbi__grow_buffer_unsafe does not change the bits that are still to come. */
  lemma {:induction false} GrowKeeps(input: seq<byte>, r: Reader, n: nat)
    requires ReaderOk(r) && r.bits <= 24
    ensures ReaderOk(Grow(input, r)) && Ahead(input, Grow(input, r), n) == Ahead(input, r, n)
    decreases 24 - r.bits
  {
    hide Feed, Ahead;
    FeedOk(input, r);
    FeedKeeps(input, r, n);
    GrowOk(input, r);
    var (r1, stop) := Feed(input, r);
    if !stop && r1.bits <= 24 {
      GrowKeeps(input, r1, n);
    }
  }

  lemma RefillKeeps(input: seq<byte>, r: Reader, k: nat, n: nat)
    requires ReaderOk(r) && k <= 16
    ensures ReaderOk(Refill(input, r, k)) && Ahead(input, Refill(input, r, k), n) == Ahead(input, r, n)
    ensures var r1 := Refill(input, r, k); k <= r1.bits || Remaining(input, r1) == []
  {
    hide Grow, Ahead;
    if r.bits < k {
      GrowKeeps(input, r, n);
      GrowOk(input, r);
    }
  }

  // ---- taking bits ----

  lemma {:induction false} FirstAfter(v: nat, k: nat, bytes: seq<byte>, m: nat, n: nat)
    requires m <= k
    ensures First(Low(v, k - m), k - m, bytes, n) == Low(First(v, k, bytes, m + n), n)
    decreases if k < m + n then m + n - k else 0
  {
    if m + n <= k {
      ShrLow(v, k - m - n, n);
    } else {
      var b: byte := if bytes == [] then 0 else bytes[0];
      LowLoads(v, k - m, b);
      FirstAfter(Shl(v, 8) + b, k + 8, if bytes == [] then [] else bytes[1..], m, n);
    }
  }

  lemma LowLoads(v: nat, k: nat, b: byte)
    ensures Low(Shl(v, 8) + b, k + 8) == Shl(Low(v, k), 8) + b
  {
    Pow2Values();
    LowOfTail(v, k, b, 8);
  }

  lemma {:induction false} LowOfTail(v: nat, k: nat, b: nat, n: nat)
    requires b < Pow2(n)
    ensures Low(Shl(v, n) + b, k + n) == Shl(Low(v, k), n) + b
  {
    if n > 0 {
      assert (Shl(v, n) + b) / 2 == Shl(v, n - 1) + b / 2 && (Shl(v, n) + b) % 2 == b % 2;
      LowOfTail(v, k, b / 2, n - 1);
    }
  }

  /** Taking m bits leaves the bits behind them. */
  lemma ConsumeLeaves(input: seq<byte>, r: Reader, m: nat, n: nat)
    requires ReaderOk(r) && m <= r.bits
    ensures ReaderOk(Consume(r, m)) && Ahead(input, Consume(r, m), n) == Low(Ahead(input, r, m + n), n)
  {
    hide Low, Shr, Shl, First;
    ConsumeMeaning(r, m);
    FirstAfter(Pending(r), r.bits, Remaining(input, r), m, n);
  }

  /** The top n bits of the buffer are the next n bits, if there are as many or nothing is left to load. */
  lemma TopIsAhead(input: seq<byte>, r: Reader, n: nat)
    requires ReaderOk(r) && n <= 32 && (n <= r.bits || Remaining(input, r) == [])
    ensures Shr(r.buffer, 32 - n) == Ahead(input, r, n)
  {
    if n <= r.bits {
      ShrShr(r.buffer, 32 - r.bits, r.bits - n);
    } else {
      ShrThenShl(r.buffer, 32 - r.bits);
      TopOfPadded(r.buffer, Pending(r), 32 - r.bits, 32 - n);
      FirstPads(Pending(r), r.bits, n);
    }
  }

  lemma {:induction false} TopOfPadded(b: nat, v: nat, a: nat, d: nat)
    requires b == Shl(v, a) && d <= a
    ensures Shr(b, d) == Shl(v, a - d)
  {
    if d > 0 {
      assert b / 2 == Shl(v, a - 1);
      TopOfPadded(b / 2, v, a - 1, d - 1);
    }
  }

  lemma {:induction false} FirstPads(v: nat, k: nat, n: nat)
    requires k <= n
    ensures First(v, k, [], n) == Shl(v, n - k)
    decreases n - k
  {
    if k + 8 <= n {
      FirstPads(Shl(v, 8), k + 8, n);
      ShlShl(v, 8, n - k - 8);
    } else if k < n {
      TopOfPadded(Shl(v, 8), v, 8, k + 8 - n);
    }
  }

  // ---- what is read ----

  /** A symbol is decoded from the code that the next bits begin with, and the bits behind that code are left. */
  lemma DecodeReads(input: seq<byte>, r: Reader, sizes: seq<nat>, n: nat)
    requires ReaderOk(r) && Sizes(sizes)
    ensures var d := Decode(input, r, sizes);
      if d.Some?
      then
        && Begins(sizes, d.value.0, Ahead(input, r, 16)) && ReaderOk(d.value.1)
        && Ahead(input, d.value.1, n) == Low(Ahead(input, r, sizes[d.value.0] + n), n)
      else
        || (forall k: nat :: !Begins(sizes, k, Ahead(input, r, 16)))
        || (exists k: nat :: Begins(sizes, k, Ahead(input, r, 16)) && Refill(input, r, 16).bits < sizes[k])
  {
    hide Low, Shl, Shr, Ahead, HuffCode, Consume;
    RefillKeeps(input, r, 16, 16);
    var r1 := Refill(input, r, 16);
    TopIsAhead(input, r1, 16);
    var sym := SymbolOf(sizes, Shr(r1.buffer, 16));
    if sym.Some? && sizes[sym.value] <= r1.bits {
      RefillKeeps(input, r, 16, sizes[sym.value] + n);
      ConsumeLeaves(input, r1, sizes[sym.value], n);
    }
  }

  /** Receive and extend takes the next k bits, or none of them if a marker cuts them short. */
  lemma ReceiveReads(input: seq<byte>, r: Reader, k: nat, n: nat)
    requires ReaderOk(r) && 0 < k <= 16
    ensures var d := Receive(input, r, k);
      && ReaderOk(d.0)
      && if k <= Refill(input, r, k).bits
         then d.1 == Extend(Ahead(input, r, k), k) && Ahead(input, d.0, n) == Low(Ahead(input, r, k + n), n)
         else d.1 == 0 && Ahead(input, d.0, n) == Ahead(input, r, n)
  {
    hide Low, Shl, Ahead, Consume;
    RefillKeeps(input, r, k, k);
    RefillKeeps(input, r, k, n);
    RefillKeeps(input, r, k, k + n);
    var r1 := Refill(input, r, k);
    TopIsAhead(input, r1, k);
    if k <= r1.bits {
      ConsumeLeaves(input, r1, k, n);
    }
  }
}
