/** C's unsigned shift and mask operators on natural numbers, one binary digit at a time, and the
    identities the decoders rely on.  Casts to a fixed width are written out where the C code has them. */
module Bits {

  type byte = n: nat | n < 256

  /** 2 to the power n, C's `1 << n`. */
  function Pow2(n: nat): (r: nat)
    ensures 1 <= r
  {
    if n == 0 then 1 else 2 * Pow2(n - 1)
  }

  function Shl(x: nat, n: nat): nat
  {
    if n == 0 then x else 2 * Shl(x, n - 1)
  }

  function Shr(x: nat, n: nat): nat
  {
    if n == 0 then x else Shr(x / 2, n - 1)
  }

  /** The n low bits of x. */
  function Low(x: nat, n: nat): nat
  {
    if n == 0 then 0 else x % 2 + 2 * Low(x / 2, n - 1)
  }

  function And(x: nat, y: nat): nat
  {
    if x == 0 || y == 0 then 0 else (if x % 2 == 1 && y % 2 == 1 then 1 else 0) + 2 * And(x / 2, y / 2)
  }

  function Or(x: nat, y: nat): nat
    decreases x + y
  {
    if x == 0 then y else if y == 0 then x
    else (if x % 2 == 1 || y % 2 == 1 then 1 else 0) + 2 * Or(x / 2, y / 2)
  }

  function Xor(x: nat, y: nat): nat
    decreases x + y
  {
    if x == 0 then y else if y == 0 then x
    else (if x % 2 != y % 2 then 1 else 0) + 2 * Xor(x / 2, y / 2)
  }

  /** The n low bits of v in reverse order. */
  function Rev(v: nat, n: nat): nat
  {
    if n == 0 then 0 else Shl(v % 2, n - 1) + Rev(v / 2, n - 1)
  }

  /** Conversion to a 16-bit unsigned integer. */
  function U16(x: nat): nat
  {
    x % 0x1_0000
  }

  /** Conversion to a 32-bit unsigned integer. */
  function U32(x: nat): nat
  {
    x % 0x1_0000_0000
  }

  // ---- shifts and masks ----

  lemma {:induction false} ShlAdd(x: nat, y: nat, n: nat)
    ensures Shl(x + y, n) == Shl(x, n) + Shl(y, n)
  {
    if n > 0 {
      ShlAdd(x, y, n - 1);
    }
  }

  lemma {:induction false} ShlMonotone(x: nat, y: nat, n: nat)
    requires x <= y
    ensures Shl(x, n) <= Shl(y, n)
    ensures x < y ==> Shl(x, n) < Shl(y, n)
  {
    if n > 0 {
      ShlMonotone(x, y, n - 1);
    }
  }

  lemma {:induction false} ShlIsPow2(n: nat)
    ensures Shl(1, n) == Pow2(n)
    ensures Shl(0, n) == 0
  {
    if n > 0 {
      ShlIsPow2(n - 1);
    }
  }

  lemma {:induction false} ShlIsProduct(x: nat, n: nat)
    ensures Shl(x, n) == x * Pow2(n)
  {
    if n > 0 {
      ShlIsProduct(x, n - 1);
    }
  }

  lemma {:induction false} ShlShl(x: nat, m: nat, n: nat)
    ensures Shl(Shl(x, m), n) == Shl(x, m + n)
  {
    if n > 0 {
      ShlShl(x, m, n - 1);
    }
  }

  /** The outermost doubling can also be done first. */
  lemma {:induction false} ShlHead(x: nat, n: nat)
    ensures Shl(2 * x, n) == 2 * Shl(x, n)
  {
    if n > 0 {
      ShlHead(x, n - 1);
    }
  }

  lemma {:induction false} Pow2Add(m: nat, n: nat)
    ensures Shl(Pow2(m), n) == Pow2(m + n)
  {
    if n > 0 {
      Pow2Add(m, n - 1);
    }
  }

  lemma {:induction false} Pow2Monotone(m: nat, n: nat)
    requires m <= n
    ensures Pow2(m) <= Pow2(n)
  {
    if m < n {
      Pow2Monotone(m, n - 1);
    }
  }

  /** x >> n is c exactly when x lies in the interval of width 2^n that starts at c << n. */
  lemma {:induction false} ShrInterval(x: nat, n: nat, c: nat)
    ensures Shr(x, n) == c <==> Shl(c, n) <= x < Shl(c + 1, n)
  {
    if n > 0 {
      ShrInterval(x / 2, n - 1, c);
    }
  }

  lemma {:induction false} ShrShr(x: nat, m: nat, n: nat)
    ensures Shr(Shr(x, m), n) == Shr(x, m + n)
  {
    if m > 0 {
      ShrShr(x / 2, m - 1, n);
    }
  }

  lemma {:induction false} ShrBound(x: nat, m: nat, n: nat)
    requires x < Pow2(m + n)
    ensures Shr(x, n) < Pow2(m)
  {
    if n > 0 {
      ShrBound(x / 2, m, n - 1);
    }
  }

  lemma {:induction false} LowBound(x: nat, n: nat)
    ensures Low(x, n) < Pow2(n)
  {
    if n > 0 {
      LowBound(x / 2, n - 1);
    }
  }

  lemma {:induction false} LowSmall(x: nat, n: nat)
    requires x < Pow2(n)
    ensures Low(x, n) == x
  {
    if n > 0 {
      LowSmall(x / 2, n - 1);
    }
  }

  lemma {:induction false} LowLow(x: nat, m: nat, n: nat)
    requires n <= m
    ensures Low(Low(x, m), n) == Low(x, n)
  {
    if n > 0 {
      assert Low(x, m) / 2 == Low(x / 2, m - 1);
      LowLow(x / 2, m - 1, n - 1);
    }
  }

  lemma {:induction false} ShrLow(y: nat, a: nat, d: nat)
    ensures Shr(Low(y, a + d), a) == Low(Shr(y, a), d)
  {
    if a > 0 {
      assert Low(y, a + d) / 2 == Low(y / 2, a - 1 + d);
      ShrLow(y / 2, a - 1, d);
    }
  }

  lemma {:induction false} ShrShl(x: nat, m: nat, a: nat)
    requires m <= a
    ensures Shr(Shl(x, m), a) == Shr(x, a - m)
  {
    if m > 0 {
      assert Shl(x, m) / 2 == Shl(x, m - 1);
      ShrShl(x, m - 1, a - 1);
    }
  }

  /** Bits shifted out at the top make no difference to a later truncation. */
  lemma {:induction false} LowShlLow(y: nat, d: nat, n: nat)
    ensures Low(Shl(Low(y, n), d), n) == Low(Shl(y, d), n)
    decreases d
  {
    if d == 0 {
      LowLow(y, n, n);
    } else if n > 0 {
      LowShlLow(y, d - 1, n - 1);
      LowShlLow(Low(y, n), d - 1, n - 1);
      LowLow(y, n, n - 1);
      assert forall z: nat :: Low(2 * z, n) == 2 * Low(z, n - 1);
    }
  }

  /** Numbers that agree in their n low bits are a multiple of 2^n apart. */
  lemma {:induction false} LowGap(x: nat, y: nat, n: nat)
    requires x < y && Low(x, n) == Low(y, n)
    ensures x + Pow2(n) <= y
  {
    if n > 0 {
      LowGap(x / 2, y / 2, n - 1);
    }
  }

  lemma {:induction false} LowStride(x: nat, n: nat)
    ensures Low(x + Pow2(n), n) == Low(x, n)
  {
    if n > 0 {
      assert (x + Pow2(n)) / 2 == x / 2 + Pow2(n - 1);
      LowStride(x / 2, n - 1);
    }
  }

  /** C's `x & ((1 << n) - 1)`. */
  lemma {:induction false} AndMask(x: nat, n: nat)
    ensures And(x, Pow2(n) - 1) == Low(x, n)
  {
    if n == 0 {
    } else if x == 0 {
      LowSmall(0, n);
    } else {
      assert (Pow2(n) - 1) / 2 == Pow2(n - 1) - 1 && (Pow2(n) - 1) % 2 == 1;
      AndMask(x / 2, n - 1);
    }
  }

  /** C's `(h << n) | l`, for l that fits in n bits. */
  lemma {:induction false} OrShl(h: nat, l: nat, n: nat)
    requires l < Pow2(n)
    ensures Or(Shl(h, n), l) == Shl(h, n) + l == Or(l, Shl(h, n))
  {
    if n > 0 && l > 0 && Shl(h, n) > 0 {
      assert Shl(h, n) / 2 == Shl(h, n - 1);
      OrShl(h, l / 2, n - 1);
    }
  }

  /** x ^ (2^n - 1) complements an n-bit number. */
  lemma {:induction false} XorMask(x: nat, n: nat)
    requires x < Pow2(n)
    ensures Xor(x, Pow2(n) - 1) == Pow2(n) - 1 - x
  {
    if n > 0 && x > 0 {
      assert (Pow2(n) - 1) / 2 == Pow2(n - 1) - 1 && (Pow2(n) - 1) % 2 == 1;
      XorMask(x / 2, n - 1);
    }
  }

  lemma Pow2Values()
    ensures Pow2(1) == 2 && Pow2(2) == 4 && Pow2(3) == 8 && Pow2(4) == 16 && Pow2(5) == 32 && Pow2(7) == 128
    ensures Pow2(8) == 256 && Pow2(9) == 512 && Pow2(13) == 8192 && Pow2(15) == 0x8000 && Pow2(16) == 0x1_0000
    ensures Pow2(24) == 0x100_0000 && Pow2(32) == 0x1_0000_0000
  {
    assert Pow2(8) == 256;
    assert Pow2(16) == 0x1_0000;
    assert Pow2(24) == 0x100_0000;
  }

  // ---- reversal ----

  lemma {:induction false} RevBound(v: nat, n: nat)
    ensures Rev(v, n) < Pow2(n)
  {
    if n > 0 {
      RevBound(v / 2, n - 1);
      ShlMonotone(v % 2, 1, n - 1);
      ShlIsPow2(n - 1);
    }
  }

  /** Reversal read from the other end: the top bit of v becomes the lowest bit. */
  lemma {:induction false} RevLast(v: nat, n: nat)
    ensures Rev(v, n + 1) == 2 * Rev(v, n) + Shr(v, n) % 2
  {
    if n > 0 {
      RevLast(v / 2, n - 1);
    }
  }

  lemma {:induction false} RevLow(v: nat, m: nat, n: nat)
    requires n <= m
    ensures Rev(Low(v, m), n) == Rev(v, n)
  {
    if n > 0 {
      assert Low(v, m) / 2 == Low(v / 2, m - 1);
      RevLow(v / 2, m - 1, n - 1);
    }
  }

  /** The first n of m reversed bits. */
  lemma {:induction false} RevPrefix(v: nat, m: nat, n: nat)
    requires n <= m
    ensures Shr(Rev(v, m), m - n) == Rev(v, n)
  {
    if n < m {
      RevLast(v, m - 1);
      assert Rev(v, m) / 2 == Rev(v, m - 1);
      RevPrefix(v, m - 1, n);
    }
  }

  lemma {:induction false} LowOfSum(h: nat, l: nat, n: nat)
    requires l < Pow2(n)
    ensures Low(Shl(h, n) + l, n) == l
  {
    if n > 0 {
      assert (Shl(h, n) + l) / 2 == Shl(h, n - 1) + l / 2;
      LowOfSum(h, l / 2, n - 1);
    }
  }

  // ---- single bits ----

  function BitOf(x: nat, i: nat): nat
  {
    Shr(x, i) % 2
  }

  lemma {:induction false} BitOfAnd(x: nat, y: nat, i: nat)
    ensures BitOf(And(x, y), i) == if BitOf(x, i) == 1 && BitOf(y, i) == 1 then 1 else 0
  {
    if x == 0 || y == 0 {
      BitOfZero(i);
    } else if i > 0 {
      assert And(x, y) / 2 == And(x / 2, y / 2);
      BitOfAnd(x / 2, y / 2, i - 1);
    }
  }

  lemma {:induction false} BitOfOr(x: nat, y: nat, i: nat)
    ensures BitOf(Or(x, y), i) == if BitOf(x, i) == 1 || BitOf(y, i) == 1 then 1 else 0
  {
    if x == 0 || y == 0 {
      BitOfZero(i);
    } else if i > 0 {
      assert Or(x, y) / 2 == Or(x / 2, y / 2);
      BitOfOr(x / 2, y / 2, i - 1);
    }
  }

  lemma {:induction false} BitOfZero(i: nat)
    ensures BitOf(0, i) == 0
  {
    if i > 0 {
      BitOfZero(i - 1);
    }
  }

  lemma {:induction false} BitOfShl(x: nat, k: nat, i: nat)
    ensures BitOf(Shl(x, k), i) == if i < k then 0 else BitOf(x, i - k)
  {
    if k > 0 && i > 0 {
      assert Shl(x, k) / 2 == Shl(x, k - 1);
      BitOfShl(x, k - 1, i - 1);
    }
  }

  lemma {:induction false} BitOfRev(v: nat, n: nat, i: nat)
    requires i < n
    ensures BitOf(Rev(v, n), i) == BitOf(v, n - 1 - i)
  {
    RevLast(v, n - 1);
    if i > 0 {
      assert Rev(v, n) / 2 == Rev(v, n - 1);
      BitOfRev(v, n - 1, i - 1);
    }
  }

  /** x & (1 << k). */
  lemma {:induction false} AndBit(x: nat, k: nat)
    ensures And(x, Pow2(k)) == if BitOf(x, k) == 1 then Pow2(k) else 0
  {
    if x == 0 {
      BitOfZero(k);
    } else if k > 0 {
      AndBit(x / 2, k - 1);
    } else {
      assert And(x / 2, 0) == 0;
    }
  }

  lemma {:induction false} BitsDetermine(x: nat, y: nat, n: nat)
    requires x < Pow2(n) && y < Pow2(n)
    requires forall i: nat :: i < n ==> BitOf(x, i) == BitOf(y, i)
    ensures x == y
  {
    if n > 0 {
      assert BitOf(x, 0) == BitOf(y, 0);
      forall i: nat | i < n - 1
        ensures BitOf(x / 2, i) == BitOf(y / 2, i)
      {
        assert BitOf(x, i + 1) == BitOf(y, i + 1);
      }
      BitsDetermine(x / 2, y / 2, n - 1);
    }
  }

  lemma RevTwice(v: nat, n: nat)
    requires v < Pow2(n)
    ensures Rev(Rev(v, n), n) == v
  {
    RevBound(v, n);
    RevBound(Rev(v, n), n);
    forall i: nat | i < n
      ensures BitOf(Rev(Rev(v, n), n), i) == BitOf(v, i)
    {
      BitOfRev(Rev(v, n), n, i);
      BitOfRev(v, n, n - 1 - i);
    }
    BitsDetermine(Rev(Rev(v, n), n), v, n);
  }

  /** Two n-bit strings that reverse to the same number are the same. */
  lemma RevLowInverse(x: nat, c: nat, n: nat)
    requires c < Pow2(n)
    ensures Rev(x, n) == c <==> Low(x, n) == Rev(c, n)
  {
    RevLow(x, n, n);
    LowBound(x, n);
    RevTwice(Low(x, n), n);
    RevTwice(c, n);
  }

  // ---- stbi__bitreverse16 ----

  /** `((n & hi) >> k) | ((n & lo) << k)`. */
  function Swap(n: nat, hi: nat, lo: nat, k: nat): nat
  {
    Or(Shr(And(n, hi), k), Shl(And(n, lo), k))
  }

  function BitReverse16(n: nat): nat
  {
    Swap(Swap(Swap(Swap(n, 0xAAAA, 0x5555, 1), 0xCCCC, 0x3333, 2), 0xF0F0, 0x0F0F, 4), 0xFF00, 0x00FF, 8)
  }

  /** stbi__bit_reverse. */
  function BitReverse(v: nat, bits: nat): nat
    requires bits <= 16
  {
    Shr(BitReverse16(v), 16 - bits)
  }

  /** Whether bit i sits in the upper half of its group of 2k bits. */
  predicate Upper(i: nat, k: nat)
    requires 0 < k
  {
    if i < 2 * k then k <= i else Upper(i - 2 * k, k)
  }

  /** n copies of the w-bit group g. */
  function Repeat(g: nat, w: nat, n: nat): nat
  {
    if n == 0 then 0 else g + Shl(Repeat(g, w, n - 1), w)
  }

  /** The mask of the lower halves of n groups of 2k bits, and the mask of the upper halves. */
  function LowerMask(k: nat, n: nat): nat
  {
    Repeat(Pow2(k) - 1, 2 * k, n)
  }

  function UpperMask(k: nat, n: nat): nat
  {
    Repeat(Shl(Pow2(k) - 1, k), 2 * k, n)
  }

  lemma {:induction false} BitOfOnes(k: nat, i: nat)
    ensures BitOf(Pow2(k) - 1, i) == if i < k then 1 else 0
  {
    if k == 0 {
      BitOfZero(i);
    } else if i > 0 {
      assert (Pow2(k) - 1) / 2 == Pow2(k - 1) - 1;
      BitOfOnes(k - 1, i - 1);
    }
  }

  lemma {:induction false} BitOfSum(g: nat, h: nat, w: nat, i: nat)
    requires g < Pow2(w)
    ensures BitOf(g + Shl(h, w), i) == if i < w then BitOf(g, i) else BitOf(h, i - w)
  {
    if w > 0 && i > 0 {
      assert (g + Shl(h, w)) / 2 == g / 2 + Shl(h, w - 1);
      BitOfSum(g / 2, h, w - 1, i - 1);
    }
  }

  lemma {:induction false} BitOfRepeat(g: nat, w: nat, n: nat, k: nat, upper: bool, i: nat)
    requires 0 < k && w == 2 * k && g < Pow2(w)
    requires forall b: nat :: b < w ==> BitOf(g, b) == if Upper(b, k) == upper then 1 else 0
    ensures BitOf(Repeat(g, w, n), i) == if i < w * n && Upper(i, k) == upper then 1 else 0
    decreases n
  {
    if n == 0 {
      BitOfZero(i);
    } else {
      assert w * n == w + w * (n - 1);
      BitOfSum(g, Repeat(g, w, n - 1), w, i);
      if w <= i {
        BitOfRepeat(g, w, n - 1, k, upper, i - w);
      }
    }
  }

  lemma BitOfMasks(k: nat, n: nat, i: nat)
    requires 0 < k
    ensures BitOf(LowerMask(k, n), i) == if i < 2 * k * n && !Upper(i, k) then 1 else 0
    ensures BitOf(UpperMask(k, n), i) == if i < 2 * k * n && Upper(i, k) then 1 else 0
  {
    var lo, hi := Pow2(k) - 1, Shl(Pow2(k) - 1, k);
    ShlMonotone(lo, Pow2(k), k);
    Pow2Add(k, k);
    Pow2Monotone(k, 2 * k);
    forall b: nat | b < 2 * k
      ensures BitOf(lo, b) == if Upper(b, k) == false then 1 else 0
      ensures BitOf(hi, b) == if Upper(b, k) == true then 1 else 0
    {
      BitOfOnes(k, b);
      BitOfShl(lo, k, b);
      if k <= b {
        BitOfOnes(k, b - k);
      }
    }
    BitOfRepeat(lo, 2 * k, n, k, false, i);
    BitOfRepeat(hi, 2 * k, n, k, true, i);
  }

  lemma {:induction false} UpperFlips(i: nat, k: nat)
    requires 0 < k
    ensures Upper(i + k, k) == !Upper(i, k)
  {
    if i >= 2 * k {
      UpperFlips(i - 2 * k, k);
    }
  }

  /** What a swap does to bit i, for masks that cover exactly n groups. */
  lemma SwapBits(x: nat, k: nat, n: nat, i: nat) returns (j: nat)
    requires 0 < k && i < 2 * k * n
    ensures j == if Upper(i, k) then i - k else i + k
    ensures j < 2 * k * n ==> BitOf(Swap(x, UpperMask(k, n), LowerMask(k, n), k), i) == BitOf(x, j)
  {
    var hi, lo := UpperMask(k, n), LowerMask(k, n);
    UpperFlips(i, k);
    BitOfOr(Shr(And(x, hi), k), Shl(And(x, lo), k), i);
    BitOfShl(And(x, lo), k, i);
    ShrShr(And(x, hi), k, i);
    BitOfAnd(x, hi, i + k);
    BitOfMasks(k, n, i + k);
    if k <= i {
      UpperFlips(i - k, k);
      BitOfAnd(x, lo, i - k);
      BitOfMasks(k, n, i - k);
    }
    j := if Upper(i, k) then i - k else i + k;
  }

  lemma {:induction false} UpperValue(i: nat)
    requires i < 16
    ensures Upper(i, 8) <==> 8 <= i
    ensures Upper(i, 4) <==> 4 <= i % 8
    ensures Upper(i, 2) <==> 2 <= i % 4
    ensures Upper(i, 1) <==> 1 <= i % 2
  {
    if i >= 8 {
      UpperValue(i - 8);
      assert Upper(i, 2) == Upper(i - 4, 2) == Upper(i - 8, 2);
      assert Upper(i, 1) == Upper(i - 2, 1) == Upper(i - 4, 1) == Upper(i - 6, 1) == Upper(i - 8, 1);
    } else {
      assert i >= 2 ==> Upper(i, 1) == Upper(i - 2, 1);
      assert i >= 4 ==> Upper(i, 1) == Upper(i - 4, 1);
      assert i >= 6 ==> Upper(i, 1) == Upper(i - 6, 1);
    }
  }

  lemma Masks1()
    ensures UpperMask(1, 8) == 0xAAAA && LowerMask(1, 8) == 0x5555
  {
    assert UpperMask(1, 4) == 0xAA && LowerMask(1, 4) == 0x55;
  }

  lemma Masks2()
    ensures UpperMask(2, 4) == 0xCCCC && LowerMask(2, 4) == 0x3333
  {
    assert UpperMask(2, 2) == 0xCC && LowerMask(2, 2) == 0x33;
  }

  lemma SwapBits1(x: nat, i: nat) returns (j: nat)
    requires i < 16
    ensures j == (if 1 <= i % 2 then i - 1 else i + 1) && j < 16
    ensures BitOf(Swap(x, 0xAAAA, 0x5555, 1), i) == BitOf(x, j)
  {
    Masks1();
    UpperValue(i);
    hide Swap, UpperMask, LowerMask, Upper;
    j := SwapBits(x, 1, 8, i);
  }

  lemma SwapBits2(x: nat, i: nat) returns (j: nat)
    requires i < 16
    ensures j == (if 2 <= i % 4 then i - 2 else i + 2) && j < 16
    ensures BitOf(Swap(x, 0xCCCC, 0x3333, 2), i) == BitOf(x, j)
  {
    Masks2();
    UpperValue(i);
    hide Swap, UpperMask, LowerMask, Upper;
    j := SwapBits(x, 2, 4, i);
  }

  lemma SwapBits4(x: nat, i: nat) returns (j: nat)
    requires i < 16
    ensures j == (if 4 <= i % 8 then i - 4 else i + 4) && j < 16
    ensures BitOf(Swap(x, 0xF0F0, 0x0F0F, 4), i) == BitOf(x, j)
  {
    assert UpperMask(4, 2) == 0xF0F0 && LowerMask(4, 2) == 0x0F0F;
    UpperValue(i);
    j := SwapBits(x, 4, 2, i);
  }

  lemma SwapBits8(x: nat, i: nat) returns (j: nat)
    requires i < 16
    ensures j == (if 8 <= i then i - 8 else i + 8) && j < 16
    ensures BitOf(Swap(x, 0xFF00, 0x00FF, 8), i) == BitOf(x, j)
  {
    assert Pow2(8) == 256;
    ShlIsPow2(16);
    assert UpperMask(8, 1) == 0xFF00 && LowerMask(8, 1) == 0x00FF;
    UpperValue(i);
    j := SwapBits(x, 8, 1, i);
  }

  /** One swap sends bit i to its partner; the four partners of i compose to 15 - i. */
  lemma BitReverse16Bit(x: nat, i: nat)
    requires i < 16
    ensures BitOf(BitReverse16(x), i) == BitOf(x, 15 - i)
  {
    var x1 := Swap(x, 0xAAAA, 0x5555, 1);
    var x2 := Swap(x1, 0xCCCC, 0x3333, 2);
    var i4 := SwapBits8(Swap(x2, 0xF0F0, 0x0F0F, 4), i);
    var i3 := SwapBits4(x2, i4);
    var i2 := SwapBits2(x1, i3);
    var i1 := SwapBits1(x, i2);
  }

  lemma {:induction false} AndBound(x: nat, y: nat, n: nat)
    requires y < Pow2(n)
    ensures And(x, y) < Pow2(n)
  {
    if x > 0 && y > 0 {
      AndBound(x / 2, y / 2, n - 1);
    }
  }

  lemma {:induction false} OrBound(x: nat, y: nat, n: nat)
    requires x < Pow2(n) && y < Pow2(n)
    ensures Or(x, y) < Pow2(n)
  {
    if x > 0 && y > 0 {
      OrBound(x / 2, y / 2, n - 1);
    }
  }

  lemma SwapBound(x: nat)
    ensures Swap(x, 0xFF00, 0x00FF, 8) < Pow2(16)
  {
    Pow2Values();
    AndBound(x, 0xFF00, 16);
    AndBound(x, 0x00FF, 8);
    ShrBound(And(x, 0xFF00), 8, 8);
    Pow2Monotone(8, 16);
    ShlMonotone(And(x, 0x00FF), Pow2(8), 8);
    Pow2Add(8, 8);
    OrBound(Shr(And(x, 0xFF00), 8), Shl(And(x, 0x00FF), 8), 16);
  }

  /** The four masked swaps of stbi__bitreverse16 reverse the 16 low bits. */
  lemma BitReverse16Correct(x: nat)
    ensures BitReverse16(x) == Rev(x, 16)
  {
    SwapBound(Swap(Swap(Swap(x, 0xAAAA, 0x5555, 1), 0xCCCC, 0x3333, 2), 0xF0F0, 0x0F0F, 4));
    RevBound(x, 16);
    forall i: nat | i < 16
      ensures BitOf(BitReverse16(x), i) == BitOf(Rev(x, 16), i)
    {
      BitReverse16Bit(x, i);
      BitOfRev(x, 16, i);
    }
    BitsDetermine(BitReverse16(x), Rev(x, 16), 16);
  }

  /** stbi__bit_reverse reverses the `bits` low bits. */
  lemma BitReverseCorrect(v: nat, bits: nat)
    requires bits <= 16
    ensures BitReverse(v, bits) == Rev(v, bits)
  {
    hide BitReverse16, Rev, Shr;
    BitReverse16Correct(v);
    RevPrefix(v, 16, bits);
  }

  // ---- the bits of a byte ----

  lemma ShrHalf(x: nat, n: nat)
    ensures Shr(x, n + 1) == Shr(x, n) / 2
  {
    ShrShr(x, n, 1);
  }

  lemma FourShifts(x: nat)
    ensures Shr(x, 0) == x && Shr(x, 1) == x / 2 && Shr(x, 2) == x / 4 && Shr(x, 3) == x / 8 && Shr(x, 4) == x / 16
  {
    assert Shr(x, 0) == x;
    hide Shr;
    ShrHalf(x, 0);
    ShrHalf(x, 1);
    ShrHalf(x, 2);
    ShrHalf(x, 3);
  }

  lemma EightBits(x: byte)
    ensures BitOf(x, 0) == x % 2 && BitOf(x, 1) == x / 2 % 2 && BitOf(x, 2) == x / 4 % 2 && BitOf(x, 3) == x / 8 % 2
    ensures BitOf(x, 4) == x / 16 % 2 && BitOf(x, 5) == x / 32 % 2 && BitOf(x, 6) == x / 64 % 2
    ensures BitOf(x, 7) == x / 128 % 2
  {
    hide Shr;
    FourShifts(x);
    ShrHalf(x, 4);
    ShrHalf(x, 5);
    ShrHalf(x, 6);
  }
}
