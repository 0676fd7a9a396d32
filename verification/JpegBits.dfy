/** Reading numbers from the bits that are still to come, as long as the data holds them. */
module JpegBits {
  import opened Wrappers
  import opened Bits
  import opened JpegCanonical
  import opened JpegReader
  import opened JpegStream

  /** The bits that are in the buffer or in the data up to the next marker. */
  function Held(input: seq<byte>, r: Reader): int
  {
    r.bits + 8 * |Remaining(input, r)|
  }

  /** The next n bits are the number v, and none of them is padding. */
  ghost predicate ToRead(input: seq<byte>, r: Reader, v: nat, n: nat)
  {
    ReaderOk(r) && Ahead(input, r, n) == v && n <= Held(input, r)
  }

  // ---- the buffer ----

  lemma FeedHolds(input: seq<byte>, r: Reader)
    requires ReaderOk(r) && r.bits <= 24
    ensures Held(input, Feed(input, r).0) >= Held(input, r)
  {
    hide Or, Shl;
  }

  lemma {:induction false} GrowHolds(input: seq<byte>, r: Reader)
    requires ReaderOk(r) && r.bits <= 24
    ensures Held(input, Grow(input, r)) >= Held(input, r)
    decreases 24 - r.bits
  {
    hide Feed, Held;
    FeedOk(input, r);
    FeedHolds(input, r);
    var (r1, stop) := Feed(input, r);
    if !stop && r1.bits <= 24 {
      GrowHolds(input, r1);
    }
  }

  /** Filling the buffer changes nothing about the bits to come. */
  lemma RefillNext(input: seq<byte>, r: Reader, k: nat, v: nat, n: nat)
    requires ToRead(input, r, v, n) && k <= 16
    ensures ToRead(input, Refill(input, r, k), v, n)
    ensures k <= n ==> k <= Refill(input, r, k).bits
    ensures k > n ==> n <= Refill(input, r, k).bits
  {
    hide Grow, Ahead, Remaining;
    RefillKeeps(input, r, k, n);
    if r.bits < k {
      GrowHolds(input, r);
    }
  }

  // ---- the first bits of several ----

  lemma {:induction false} FirstPrefix(v: nat, k: nat, bytes: seq<byte>, m: nat, n: nat)
    ensures First(v, k, bytes, m) == Shr(First(v, k, bytes, m + n), n)
    decreases if k < m + n then m + n - k else 0
  {
    if m + n <= k {
      ShrShr(v, k - m - n, n);
    } else {
      FirstLoads(v, k, bytes, m);
      if bytes == [] {
        FirstPrefix(Shl(v, 8), k + 8, [], m, n);
      } else {
        FirstPrefix(Shl(v, 8) + bytes[0], k + 8, bytes[1..], m, n);
      }
    }
  }

  lemma AheadPrefix(input: seq<byte>, r: Reader, m: nat, n: nat)
    requires ReaderOk(r)
    ensures Ahead(input, r, m) == Shr(Ahead(input, r, m + n), n)
  {
    hide First, Shr;
    FirstPrefix(Pending(r), r.bits, Remaining(input, r), m, n);
  }

  /** A number followed by another one. */
  lemma Parts(a: nat, b: nat, n: nat)
    requires b < Pow2(n)
    ensures Shr(Shl(a, n) + b, n) == a && Low(Shl(a, n) + b, n) == b
  {
    ShrInterval(Shl(a, n) + b, n, a);
    ShlAdd(a, 1, n);
    ShlIsPow2(n);
    LowOfSum(a, b, n);
    LowSmall(b, n);
  }

  /** Taking the first of two numbers leaves the second. */
  lemma TakeFirst(input: seq<byte>, r: Reader, a: nat, m: nat, b: nat, n: nat)
    requires ToRead(input, r, Shl(a, n) + b, m + n) && b < Pow2(n) && m <= r.bits
    ensures Ahead(input, r, m) == a && ToRead(input, Consume(r, m), b, n)
  {
    hide Ahead, Shl, Shr, Low;
    Parts(a, b, n);
    AheadPrefix(input, r, m, n);
    ConsumeLeaves(input, r, m, n);
  }

  // ---- symbols and values ----

  /** Symbol 255 with a code of at most 9 bits is the one that the tables cannot hold. */
  predicate Usable(sizes: seq<nat>, sym: nat)
  {
    sym < |sizes| && (sym == 255 ==> sizes[255] > 9)
  }

  /** The code of a symbol, followed by n bits, is read as that symbol. */
  lemma ReadSymbol(input: seq<byte>, r: Reader, sizes: seq<nat>, sym: nat, b: nat, n: nat)
    requires Sizes(sizes) && Usable(sizes, sym) && b < Pow2(n)
    requires ToRead(input, r, Shl(HuffCode(sizes, sym), n) + b, sizes[sym] + n)
    ensures Lookup(input, r, sizes).Some? && Lookup(input, r, sizes).value.0 == sym
    ensures ToRead(input, Lookup(input, r, sizes).value.1, b, n)
  {
    hide Ahead, Shl, Shr, HuffCode, Consume, Refill, Misread;
    var s := sizes[sym];
    RefillNext(input, r, 16, Shl(HuffCode(sizes, sym), n) + b, s + n);
    var r1 := Refill(input, r, 16);
    RefillKeeps(input, r, 16, 16);
    TakeFirst(input, r1, HuffCode(sizes, sym), s, b, n);
    TopIsAhead(input, r1, 16);
    AheadPrefix(input, r1, s, 16 - s);
    var w := Shr(r1.buffer, 16);
    assert Begins(sizes, sym, w);
    BeginsUnique(sizes, sym, SymbolOf(sizes, w).value, w);
    if Confused(sizes, w) {
      BeginsUnique(sizes, sym, 255, w);
    }
  }

  /** A number of s bits, followed by n bits, is received and extended. */
  lemma ReadValue(input: seq<byte>, r: Reader, s: nat, a: nat, b: nat, n: nat)
    requires 0 < s <= 16 && b < Pow2(n) && ToRead(input, r, Shl(a, n) + b, s + n)
    ensures Receive(input, r, s).1 == Extend(a, s) && ToRead(input, Receive(input, r, s).0, b, n)
  {
    hide Ahead, Shl, Shr, Consume, Refill, Extend;
    RefillNext(input, r, s, Shl(a, n) + b, s + n);
    var r1 := Refill(input, r, s);
    TakeFirst(input, r1, a, s, b, n);
    TopIsAhead(input, r1, s);
  }
}
