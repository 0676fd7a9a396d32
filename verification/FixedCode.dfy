/** The fixed codes of section 3.2.6 of RFC 1951, code by code. */
module FixedCode {
  import opened Bits
  import opened Canonical
  import opened Rfc1951

  /** How many of the first n fixed literal codes have s bits. */
  lemma {:induction false} FixedCount(s: nat, n: nat)
    requires 1 <= s <= 9 && n <= 288
    ensures Count(FixedLit(), s, n) ==
      if s < 7 then 0
      else if s == 7 then (if n <= 256 then 0 else if n <= 280 then n - 256 else 24)
      else if s == 8 then (if n <= 144 then n else if n <= 280 then 144 else n - 136)
      else (if n <= 144 then 0 else if n <= 256 then n - 144 else 112)
  {
    if n > 0 {
      FixedCount(s, n - 1);
    }
  }

  lemma {:induction false} FirstFixed(s: nat)
    requires s <= 9
    ensures FirstCode(FixedLit(), s) == if s <= 7 then 0 else if s == 8 then 48 else 400
  {
    if s > 1 {
      FirstFixed(s - 1);
      FixedCount(s - 1, 288);
    }
  }

  /** The table of section 3.2.6: 0 to 143 are 00110000 to 10111111, 144 to 255 are 110010000 to 111111111, 256 to 279
      are 0000000 to 0010111, and 280 to 287 are 11000000 to 11000111. */
  lemma LiteralCode(sym: nat)
    requires sym < 288
    ensures |FixedLit()| == 288
    ensures 0 <= sym <= 143 ==> FixedLit()[sym] == 8 && CodeOf(FixedLit(), sym) == 48 + sym
    ensures 144 <= sym <= 255 ==> FixedLit()[sym] == 9 && CodeOf(FixedLit(), sym) == 400 + (sym - 144)
    ensures 256 <= sym <= 279 ==> FixedLit()[sym] == 7 && CodeOf(FixedLit(), sym) == sym - 256
    ensures 280 <= sym <= 287 ==> FixedLit()[sym] == 8 && CodeOf(FixedLit(), sym) == 192 + (sym - 280)
  {
    FirstFixed(FixedLit()[sym]);
    FixedCount(FixedLit()[sym], sym);
  }

  lemma {:induction false} FixedDistCount(s: nat, n: nat)
    requires 1 <= s <= 5 && n <= 32
    ensures Count(FixedDist(), s, n) == if s == 5 then n else 0
  {
    if n > 0 {
      FixedDistCount(s, n - 1);
    }
  }

  lemma {:induction false} FirstDist(s: nat)
    requires s <= 5
    ensures FirstCode(FixedDist(), s) == 0
  {
    if s > 1 {
      FirstDist(s - 1);
      FixedDistCount(s - 1, 32);
    }
  }

  /** Distance symbols are their own five-bit codes. */
  lemma DistanceCode(d: nat)
    requires d < 32
    ensures |FixedDist()| == 32 && FixedDist()[d] == 5 && CodeOf(FixedDist(), d) == d
  {
    FirstDist(5);
    FixedDistCount(5, d);
  }
}
