/** What the symbols of section 3.2.5 and 3.2.7 of RFC 1951 stand for: every length, distance and repeat count has its
    symbol. */
module DeflateRanges {
  import opened Bits
  import opened Rfc1951

  // ---- lengths ----

  /** A length symbol below 285 with its extra number. */
  predicate IsLength(n: nat, sym: nat, extra: nat)
  {
    257 <= sym <= 284 && extra < Pow2(LengthExtra(sym)) && n == LengthBase(sym) + extra
  }

  lemma NextLength(sym: nat)
    requires 257 <= sym < 284
    ensures LengthBase(sym + 1) == LengthBase(sym) + Pow2(LengthExtra(sym))
  {
  }

  /** Four symbols share each number of extra bits. */
  lemma FourLengths(sym: nat, k: nat)
    requires sym == 4 * k + 261 && 1 <= k <= 5
    ensures LengthBase(sym + 3) == LengthBase(sym) + 3 * Pow2(k) && LengthExtra(sym + 3) == k
    ensures k < 5 ==> LengthBase(sym + 4) == LengthBase(sym) + 4 * Pow2(k)
  {
    assert LengthExtra(sym) == LengthExtra(sym + 1) == LengthExtra(sym + 2) == LengthExtra(sym + 3) == k;
    hide LengthBase, LengthExtra, Pow2;
    NextLength(sym);
    NextLength(sym + 1);
    NextLength(sym + 2);
    if k < 5 {
      NextLength(sym + 3);
    }
  }

  lemma LengthsEnd()
    ensures LengthBase(284) + Pow2(LengthExtra(284)) == 259
  {
    Pow2Values();
    assert LengthBase(265) == 11;
    hide LengthBase, LengthExtra, Pow2;
    FourLengths(265, 1);
    FourLengths(269, 2);
    FourLengths(273, 3);
    FourLengths(277, 4);
    FourLengths(281, 5);
  }

  lemma {:induction false} FindLength(n: nat, last: nat) returns (sym: nat, extra: nat)
    requires 257 <= last <= 284 && 3 <= n < LengthBase(last) + Pow2(LengthExtra(last))
    ensures IsLength(n, sym, extra)
    decreases last
  {
    if LengthBase(last) <= n {
      sym, extra := last, n - LengthBase(last);
    } else {
      sym, extra := FindLength(n, last - 1);
    }
  }

  lemma {:induction false} LengthsApart(a: nat, b: nat)
    requires 257 <= a < b <= 284
    ensures LengthBase(a) + Pow2(LengthExtra(a)) <= LengthBase(b)
    decreases b
  {
    if a < b - 1 {
      LengthsApart(a, b - 1);
    }
  }

  lemma OneLength(n: nat, s: nat, e: nat, sym: nat, extra: nat)
    requires IsLength(n, s, e) && IsLength(n, sym, extra)
    ensures s == sym && e == extra
  {
    hide LengthBase, LengthExtra;
    if s < sym {
      LengthsApart(s, sym);
    } else if sym < s {
      LengthsApart(sym, s);
    }
  }

  /** Every length from 3 to 258 has exactly one symbol from 257 to 284 with an extra number; 257 is 3, 285 is 258, both
      without extra bits, and later symbols have no fewer extra bits. */
  lemma EveryLength(n: nat) returns (sym: nat, extra: nat)
    requires 3 <= n <= 258
    ensures IsLength(n, sym, extra) && forall s: nat, e: nat :: IsLength(n, s, e) ==> s == sym && e == extra
    ensures LengthBase(257) == 3 && LengthExtra(257) == 0 && LengthBase(285) == 258 && LengthExtra(285) == 0
    ensures forall s: nat, t: nat :: 257 <= s <= t <= 284 ==> LengthExtra(s) <= LengthExtra(t)
  {
    LengthsEnd();
    sym, extra := FindLength(n, 284);
    forall s: nat, e: nat | IsLength(n, s, e)
      ensures s == sym && e == extra
    {
      OneLength(n, s, e, sym, extra);
    }
  }

  // ---- distances ----

  predicate IsDistance(n: nat, d: nat, extra: nat)
  {
    extra < Pow2(DistExtra(d)) && n == DistBase(d) + extra
  }

  lemma {:induction false} EvenDistances(k: nat)
    ensures DistBase(2 * k + 2) == 2 * Pow2(k) + 1
  {
    if k == 0 {
      assert DistBase(1) == 2;
    } else {
      EvenDistances(k - 1);
      assert DistBase(2 * k + 2) == DistBase(2 * k) + Pow2(k - 1) + Pow2(k - 1) by {
        assert DistBase(2 * k + 1) == DistBase(2 * k) + Pow2(DistExtra(2 * k));
      }
    }
  }

  lemma {:induction false} FindDistance(n: nat, last: nat) returns (d: nat, extra: nat)
    requires 1 <= n < DistBase(last) + Pow2(DistExtra(last))
    ensures d <= last && IsDistance(n, d, extra)
    decreases last
  {
    if DistBase(last) <= n {
      d, extra := last, n - DistBase(last);
    } else {
      d, extra := FindDistance(n, last - 1);
    }
  }

  lemma {:induction false} DistancesApart(a: nat, b: nat)
    requires a < b
    ensures DistBase(a) + Pow2(DistExtra(a)) <= DistBase(b)
    decreases b
  {
    if a < b - 1 {
      DistancesApart(a, b - 1);
    }
  }

  lemma OneDistance(n: nat, s: nat, e: nat, d: nat, extra: nat)
    requires IsDistance(n, s, e) && IsDistance(n, d, extra)
    ensures s == d && e == extra
  {
    hide DistBase, DistExtra;
    if s < d {
      DistancesApart(s, d);
    } else if d < s {
      DistancesApart(d, s);
    }
  }

  lemma LaterDistances()
    ensures DistExtra(29) == 13 && forall s: nat, t: nat :: s <= t ==> DistExtra(s) <= DistExtra(t)
  {
  }

  /** Every distance from 1 to 32768 has exactly one symbol with an extra number, and that symbol is below 30; symbol 0
      is 1, and later symbols have no fewer extra bits. */
  lemma EveryDistance(n: nat) returns (d: nat, extra: nat)
    requires 1 <= n <= 32768
    ensures d < 30 && IsDistance(n, d, extra)
    ensures forall s: nat, e: nat :: IsDistance(n, s, e) ==> s == d && e == extra
    ensures DistBase(0) == 1 && DistExtra(0) == 0
    ensures forall s: nat, t: nat :: s <= t ==> DistExtra(s) <= DistExtra(t)
  {
    EvenDistances(13);
    Pow2Values();
    LaterDistances();
    assert DistBase(29) == DistBase(28) + Pow2(13);
    hide DistBase, DistExtra, Pow2;
    d, extra := FindDistance(n, 29);
    forall s: nat, e: nat | IsDistance(n, s, e)
      ensures s == d && e == extra
    {
      OneDistance(n, s, e, d, extra);
    }
  }

  // ---- repeat counts and the order of code lengths ----

  predicate IsRun(n: nat, c: nat, extra: nat)
  {
    c in {16, 17, 18} && extra < Pow2(RunBits(c)) && n == RunBase(c) + extra
  }

  /** Symbol 16 repeats a length 3 to 6 times, 17 stands for 3 to 10 zeros and 18 for 11 to 138, each in one way. */
  lemma EveryRun(n: nat, c: nat)
    requires c in {16, 17, 18}
    ensures (exists e: nat :: IsRun(n, c, e)) <==>
      if c == 16 then 3 <= n <= 6 else if c == 17 then 3 <= n <= 10 else 11 <= n <= 138
    ensures forall d: nat, e: nat :: IsRun(n, c, d) && IsRun(n, c, e) ==> d == e
  {
    assert Pow2(2) == 4 && Pow2(3) == 8 && Pow2(7) == 128;
    if n >= RunBase(c) && n - RunBase(c) < Pow2(RunBits(c)) {
      assert IsRun(n, c, n - RunBase(c));
    }
  }

  /** The order in which the lengths of the code length code are sent. */
  lemma CodeLengthOrder(s: nat)
    requires s < 19
    ensures Rank(s) < 19 && [16, 17, 18, 0, 8, 7, 9, 6, 10, 5, 11, 4, 12, 3, 13, 2, 14, 1, 15][Rank(s)] == s
  {
  }
}
