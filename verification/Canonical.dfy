/** The canonical prefix code of section 3.2.2 of RFC 1951 for a list of code lengths, and the layout
    its codes have in the space of 16-bit windows. */
module Canonical {
  import opened Bits

  /** At most 288 symbols, codes of at most 15 bits; length 0 means the symbol is not used. */
  predicate Lengths(lens: seq<nat>)
  {
    |lens| <= 288 && forall i :: 0 <= i < |lens| ==> lens[i] <= 15
  }

  /** How many of the first n symbols have length s. */
  function Count(lens: seq<nat>, s: nat, n: nat): nat
    requires n <= |lens|
  {
    if n == 0 then 0 else Count(lens, s, n - 1) + if lens[n - 1] == s then 1 else 0
  }

  /** The smallest code of each length. */
  function FirstCode(lens: seq<nat>, s: nat): nat
  {
    if s <= 1 then 0 else 2 * (FirstCode(lens, s - 1) + Count(lens, s - 1, |lens|))
  }

  /** Codes of one length are consecutive, in symbol order. */
  function CodeOf(lens: seq<nat>, sym: nat): nat
    requires sym < |lens|
  {
    FirstCode(lens, lens[sym]) + Count(lens, lens[sym], sym)
  }

  /** The Kraft sum of the first n symbols in units of 2^-16. */
  function KraftSum(lens: seq<nat>, n: nat): nat
    requires Lengths(lens) && n <= |lens|
  {
    if n == 0 then 0 else KraftSum(lens, n - 1) + if lens[n - 1] == 0 then 0 else Pow2(16 - lens[n - 1])
  }

  predicate KraftOk(lens: seq<nat>)
  {
    Lengths(lens) && KraftSum(lens, |lens|) <= 0x1_0000
  }

  /** sym's code is a prefix of the 16-bit window w. */
  predicate Prefixes(lens: seq<nat>, sym: nat, w: nat)
    requires Lengths(lens)
  {
    sym < |lens| && lens[sym] > 0 && Shr(w, 16 - lens[sym]) == CodeOf(lens, sym)
  }

  // ---- intervals in 16-bit code space ----

  /** Where the codes of length s begin. */
  function Base(lens: seq<nat>, s: nat): nat
    requires s <= 16
  {
    Shl(FirstCode(lens, s), 16 - s)
  }

  /** The codes of length s fill Base(s)..Base(s + 1), without a gap. */
  lemma BaseStep(lens: seq<nat>, s: nat)
    requires 1 <= s <= 15
    ensures Base(lens, s + 1) == Base(lens, s) + Shl(Count(lens, s, |lens|), 16 - s)
  {
    ShlHead(FirstCode(lens, s) + Count(lens, s, |lens|), 15 - s);
    ShlAdd(FirstCode(lens, s), Count(lens, s, |lens|), 16 - s);
  }

  lemma {:induction false} BaseMonotone(lens: seq<nat>, s: nat, t: nat)
    requires 1 <= s <= t <= 16
    ensures Base(lens, s) <= Base(lens, t)
  {
    if s < t {
      BaseMonotone(lens, s, t - 1);
      BaseStep(lens, t - 1);
    }
  }

  /** The part of the Kraft sum due to lengths up to s, for the first n symbols. */
  function SumUpTo(lens: seq<nat>, n: nat, s: nat): nat
    requires n <= |lens| && s <= 15
  {
    if s == 0 then 0 else SumUpTo(lens, n, s - 1) + Shl(Count(lens, s, n), 16 - s)
  }

  lemma {:induction false} SumUpToStep(lens: seq<nat>, n: nat, s: nat)
    requires Lengths(lens) && 0 < n <= |lens| && s <= 15
    ensures SumUpTo(lens, n, s)
         == SumUpTo(lens, n - 1, s) + if 1 <= lens[n - 1] <= s then Pow2(16 - lens[n - 1]) else 0
  {
    if s > 0 {
      SumUpToStep(lens, n, s - 1);
      ShlAdd(Count(lens, s, n - 1), 1, 16 - s);
      ShlIsPow2(16 - s);
    }
  }

  lemma {:induction false} SumUpToEmpty(lens: seq<nat>, s: nat)
    requires s <= 15
    ensures SumUpTo(lens, 0, s) == 0
  {
    if s > 0 {
      SumUpToEmpty(lens, s - 1);
      ShlIsPow2(16 - s);
    }
  }

  lemma {:induction false} KraftByLength(lens: seq<nat>, n: nat)
    requires Lengths(lens) && n <= |lens|
    ensures KraftSum(lens, n) == SumUpTo(lens, n, 15)
  {
    if n == 0 {
      SumUpToEmpty(lens, 15);
    } else {
      KraftByLength(lens, n - 1);
      SumUpToStep(lens, n, 15);
    }
  }

  lemma {:induction false} BaseIsSum(lens: seq<nat>, s: nat)
    requires 1 <= s <= 16
    ensures Base(lens, s) == SumUpTo(lens, |lens|, s - 1)
  {
    if s == 1 {
      ShlIsPow2(15);
    } else {
      BaseIsSum(lens, s - 1);
      BaseStep(lens, s - 1);
    }
  }

  /** All codes together fill 0..Base(16), whose length is the Kraft sum. */
  lemma KraftIsBase(lens: seq<nat>)
    requires Lengths(lens)
    ensures KraftSum(lens, |lens|) == Base(lens, 16)
  {
    KraftByLength(lens, |lens|);
    BaseIsSum(lens, 16);
  }

  lemma {:induction false} CountMonotone(lens: seq<nat>, s: nat, m: nat, n: nat)
    requires m <= n <= |lens|
    ensures Count(lens, s, m) <= Count(lens, s, n)
    ensures m < n && lens[m] == s ==> Count(lens, s, m) < Count(lens, s, n)
  {
    if m < n {
      CountMonotone(lens, s, m, n - 1);
    }
  }

  /** The windows that start with sym's code. */
  function Start(lens: seq<nat>, sym: nat): nat
    requires Lengths(lens) && sym < |lens|
  {
    Shl(CodeOf(lens, sym), 16 - lens[sym])
  }

  function End(lens: seq<nat>, sym: nat): nat
    requires Lengths(lens) && sym < |lens|
  {
    Shl(CodeOf(lens, sym) + 1, 16 - lens[sym])
  }

  lemma PrefixesInterval(lens: seq<nat>, sym: nat, w: nat)
    requires Lengths(lens) && sym < |lens| && lens[sym] > 0
    ensures Prefixes(lens, sym, w) <==> Start(lens, sym) <= w < End(lens, sym)
  {
    ShrInterval(w, 16 - lens[sym], CodeOf(lens, sym));
  }

  lemma SymbolWithinLength(lens: seq<nat>, sym: nat)
    requires Lengths(lens) && sym < |lens| && lens[sym] > 0
    ensures Base(lens, lens[sym]) <= Start(lens, sym) < End(lens, sym) <= Base(lens, lens[sym] + 1)
  {
    var s := lens[sym];
    var c := Count(lens, s, sym);
    CountMonotone(lens, s, sym, |lens|);
    ShlAdd(FirstCode(lens, s), c, 16 - s);
    ShlAdd(FirstCode(lens, s), c + 1, 16 - s);
    ShlMonotone(c, c + 1, 16 - s);
    ShlMonotone(c + 1, Count(lens, s, |lens|), 16 - s);
    BaseStep(lens, s);
  }

  /** Shorter codes come first, and codes of one length come in symbol order. */
  lemma CodesOrdered(lens: seq<nat>, a: nat, b: nat)
    requires Lengths(lens) && a < |lens| && b < |lens|
    requires 0 < lens[a] < lens[b] || (0 < lens[a] == lens[b] && a < b)
    ensures End(lens, a) <= Start(lens, b)
  {
    if lens[a] < lens[b] {
      SymbolWithinLength(lens, a);
      SymbolWithinLength(lens, b);
      BaseMonotone(lens, lens[a] + 1, lens[b]);
    } else {
      CountMonotone(lens, lens[a], a, b);
      ShlMonotone(CodeOf(lens, a) + 1, CodeOf(lens, b), 16 - lens[a]);
    }
  }

  /** No window starts with the codes of two symbols: the code is prefix-free. */
  lemma PrefixFree(lens: seq<nat>, a: nat, b: nat, w: nat)
    requires Lengths(lens) && Prefixes(lens, a, w) && Prefixes(lens, b, w)
    ensures a == b
  {
    PrefixesInterval(lens, a, w);
    PrefixesInterval(lens, b, w);
    if a != b {
      if lens[a] < lens[b] || (lens[a] == lens[b] && a < b) {
        CodesOrdered(lens, a, b);
      } else {
        CodesOrdered(lens, b, a);
      }
    }
  }

  /** Under a Kraft sum of at most 1 every code fits in its length. */
  lemma CodeFits(lens: seq<nat>, sym: nat)
    requires KraftOk(lens) && sym < |lens| && lens[sym] > 0
    ensures CodeOf(lens, sym) < Pow2(lens[sym])
  {
    var s := lens[sym];
    SymbolWithinLength(lens, sym);
    KraftIsBase(lens);
    BaseMonotone(lens, s + 1, 16);
    if Pow2(s) <= CodeOf(lens, sym) {
      ShlMonotone(Pow2(s), CodeOf(lens, sym), 16 - s);
      Pow2Add(s, 16 - s);
      Pow2Values();
    }
  }

  /** The symbol of length s with exactly r symbols of that length before it. */
  lemma {:induction false} Nth(lens: seq<nat>, s: nat, r: nat, n: nat) returns (sym: nat)
    requires n <= |lens| && r < Count(lens, s, n)
    ensures sym < n && lens[sym] == s && Count(lens, s, sym) == r
  {
    if lens[n - 1] == s && Count(lens, s, n - 1) == r {
      sym := n - 1;
    } else {
      sym := Nth(lens, s, r, n - 1);
    }
  }

  /** A window in the range of length s starts with the code of a symbol of that length. */
  lemma WindowHasSymbol(lens: seq<nat>, w: nat, s: nat) returns (sym: nat)
    requires Lengths(lens) && 1 <= s <= 15 && Base(lens, s) <= w < Base(lens, s + 1)
    ensures Prefixes(lens, sym, w) && lens[sym] == s
  {
    var k := Shr(w, 16 - s);
    ShrInterval(w, 16 - s, k);
    var f := FirstCode(lens, s);
    if k < f {
      ShlMonotone(k + 1, f, 16 - s);
    }
    var c := Count(lens, s, |lens|);
    BaseStep(lens, s);
    ShlAdd(f, c, 16 - s);
    if f + c <= k {
      ShlMonotone(f + c, k, 16 - s);
    }
    sym := Nth(lens, s, k - f, |lens|);
  }

  lemma PrefixedBelowKraftSum(lens: seq<nat>, sym: nat, w: nat)
    requires Lengths(lens) && Prefixes(lens, sym, w)
    ensures w < KraftSum(lens, |lens|)
  {
    KraftIsBase(lens);
    PrefixesInterval(lens, sym, w);
    SymbolWithinLength(lens, sym);
    BaseMonotone(lens, lens[sym] + 1, 16);
  }

  /** A window starts with some code exactly when it lies below the Kraft sum. */
  lemma DecodableWindows(lens: seq<nat>, w: nat)
    requires Lengths(lens)
    ensures (exists sym: nat :: Prefixes(lens, sym, w)) <==> w < KraftSum(lens, |lens|)
  {
    if w < KraftSum(lens, |lens|) {
      KraftIsBase(lens);
      var s := LengthOf(lens, w, 16);
      var sym := WindowHasSymbol(lens, w, s);
    }
    forall sym: nat | Prefixes(lens, sym, w)
      ensures w < KraftSum(lens, |lens|)
    {
      PrefixedBelowKraftSum(lens, sym, w);
    }
  }

  lemma {:induction false} LengthOf(lens: seq<nat>, w: nat, t: nat) returns (s: nat)
    requires 1 <= t <= 16 && w < Base(lens, t)
    ensures 1 <= s < t && Base(lens, s) <= w < Base(lens, s + 1)
  {
    if t == 1 {
      ShlIsPow2(15);
      assert false;
    } else if Base(lens, t - 1) <= w {
      s := t - 1;
    } else {
      s := LengthOf(lens, w, t - 1);
    }
  }

  // ---- slots ----

  /** How many used symbols have a length below s. */
  function FirstSymbol(lens: seq<nat>, s: nat): nat
  {
    if s <= 1 then 0 else FirstSymbol(lens, s - 1) + Count(lens, s - 1, |lens|)
  }

  /** sym's rank in the order by length and symbol. */
  function Slot(lens: seq<nat>, sym: nat): nat
    requires sym < |lens|
  {
    FirstSymbol(lens, lens[sym]) + Count(lens, lens[sym], sym)
  }

  lemma {:induction false} FirstSymbolMonotone(lens: seq<nat>, s: nat, t: nat)
    requires 1 <= s <= t
    ensures FirstSymbol(lens, s) <= FirstSymbol(lens, t)
  {
    if s < t {
      FirstSymbolMonotone(lens, s, t - 1);
    }
  }

  /** How many of the first n symbols have a length of 1..s. */
  function CountUpTo(lens: seq<nat>, n: nat, s: nat): nat
    requires n <= |lens|
  {
    if s == 0 then 0 else CountUpTo(lens, n, s - 1) + Count(lens, s, n)
  }

  lemma {:induction false} CountUpToBound(lens: seq<nat>, n: nat, s: nat)
    requires n <= |lens|
    ensures CountUpTo(lens, n, s) <= n
  {
    if n == 0 {
      CountUpToEmpty(lens, s);
    } else {
      CountUpToBound(lens, n - 1, s);
      CountUpToStep(lens, n, s);
    }
  }

  lemma {:induction false} CountUpToEmpty(lens: seq<nat>, s: nat)
    ensures CountUpTo(lens, 0, s) == 0
  {
    if s > 0 {
      CountUpToEmpty(lens, s - 1);
    }
  }

  lemma {:induction false} CountUpToStep(lens: seq<nat>, n: nat, s: nat)
    requires 0 < n <= |lens|
    ensures CountUpTo(lens, n, s) == CountUpTo(lens, n - 1, s) + if 1 <= lens[n - 1] <= s then 1 else 0
  {
    if s > 0 {
      CountUpToStep(lens, n, s - 1);
    }
  }

  lemma {:induction false} FirstSymbolIsCount(lens: seq<nat>, s: nat)
    requires 1 <= s
    ensures FirstSymbol(lens, s) == CountUpTo(lens, |lens|, s - 1)
  {
    if s > 1 {
      FirstSymbolIsCount(lens, s - 1);
    }
  }

  lemma SlotBound(lens: seq<nat>, sym: nat)
    requires sym < |lens| && lens[sym] > 0
    ensures Slot(lens, sym) < FirstSymbol(lens, lens[sym] + 1) <= |lens|
  {
    CountMonotone(lens, lens[sym], sym, |lens|);
    FirstSymbolIsCount(lens, lens[sym] + 1);
    CountUpToBound(lens, |lens|, lens[sym]);
  }

  lemma SlotInjective(lens: seq<nat>, a: nat, b: nat)
    requires a < |lens| && b < |lens| && lens[a] > 0 && lens[b] > 0
    requires Slot(lens, a) == Slot(lens, b)
    ensures a == b
  {
    SlotBound(lens, a);
    SlotBound(lens, b);
    if lens[a] < lens[b] {
      FirstSymbolMonotone(lens, lens[a] + 1, lens[b]);
    } else if lens[b] < lens[a] {
      FirstSymbolMonotone(lens, lens[b] + 1, lens[a]);
    } else if a < b {
      CountMonotone(lens, lens[a], a, b);
    } else {
      CountMonotone(lens, lens[a], b, a);
    }
  }
}
