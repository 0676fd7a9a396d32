/** stbi__zhuffman: the decoding tables for one prefix code.  A 9-bit table indexed by the next bits of
    the stream resolves the short codes; longer ones are found by comparing the next 16 bits, most
    significant first, with the end of each length's range. */
module ZHuffman {
  import opened Bits
  import opened Canonical

  const FAST_BITS: nat := 9
  const NSYMS: nat := 288

  /** sym has a short code and the stream bits x, first bit lowest, start with it. */
  predicate FastMatch(lens: seq<nat>, sym: nat, x: nat)
  {
    sym < |lens| && 1 <= lens[sym] <= FAST_BITS && Rev(x, lens[sym]) == CodeOf(lens, sym)
  }

  /** What fast[x] == e means once the first n symbols have been entered. */
  predicate FastEntry(lens: seq<nat>, n: nat, x: nat, e: nat)
  {
    if e == 0 then forall sym: nat :: sym < n ==> !FastMatch(lens, sym, x)
    else e % 512 < n && FastMatch(lens, e % 512, x) && e / 512 == lens[e % 512]
  }

  lemma FastEntryStep(lens: seq<nat>, n: nat, x: nat, e: nat)
    requires n < |lens| && |lens| <= NSYMS && FastEntry(lens, n, x, e)
    ensures FastEntry(lens, n + 1, x, if FastMatch(lens, n, x) then lens[n] * 512 + n else e)
  {
  }

  class Huffman {
    const fast: array<nat>
    const firstcode: array<nat>
    const maxcode: array<nat>
    const firstsymbol: array<nat>
    const size: array<nat>
    const value: array<nat>

    ghost predicate Shape()
    {
      && fast.Length == 512 && firstcode.Length == 16 && maxcode.Length == 17 && firstsymbol.Length == 16
      && size.Length == NSYMS && value.Length == NSYMS
      && fast != firstcode && fast != maxcode && fast != firstsymbol && fast != size && fast != value
      && firstcode != maxcode && firstcode != firstsymbol && firstcode != size && firstcode != value
      && maxcode != firstsymbol && maxcode != size && maxcode != value
      && firstsymbol != size && firstsymbol != value && size != value
    }

    ghost function Repr(): set<object>
    {
      {fast, firstcode, maxcode, firstsymbol, size, value}
    }

    constructor ()
      ensures Shape() && fresh(Repr())
    {
      fast := new nat[512];
      firstcode := new nat[16];
      maxcode := new nat[17];
      firstsymbol := new nat[16];
      size := new nat[NSYMS];
      value := new nat[NSYMS];
    }

    /** The range tables describe the first t lengths. */
    ghost predicate FirstCodesUpTo(lens: seq<nat>, t: nat)
      requires Shape() && t <= 15
      reads firstcode
    {
      forall s: nat :: 1 <= s <= t ==> firstcode[s] == FirstCode(lens, s)
    }

    ghost predicate FirstSymbolsUpTo(lens: seq<nat>, t: nat)
      requires Shape() && t <= 15
      reads firstsymbol
    {
      forall s: nat :: 1 <= s <= t ==> firstsymbol[s] == FirstSymbol(lens, s)
    }

    ghost predicate MaxCodesUpTo(lens: seq<nat>, t: nat)
      requires Shape() && t <= 15
      reads maxcode
    {
      forall s: nat :: 1 <= s <= t ==> maxcode[s] == Base(lens, s + 1)
    }

    ghost predicate FastUpTo(lens: seq<nat>, n: nat)
      requires Shape()
      reads fast
    {
      forall x: nat :: x < 512 ==> FastEntry(lens, n, x, fast[x])
    }

    ghost predicate SlotsUpTo(lens: seq<nat>, n: nat)
      requires Shape() && Lengths(lens) && n <= |lens|
      reads size, value
    {
      forall sym: nat :: sym < n && lens[sym] > 0 ==>
        Slot(lens, sym) < NSYMS && size[Slot(lens, sym)] == lens[sym] && value[Slot(lens, sym)] == sym
    }

    /** The tables decode the canonical code of lens. */
    ghost predicate Tables(lens: seq<nat>)
      reads Repr()
    {
      && Shape() && KraftOk(lens)
      && FirstCodesUpTo(lens, 15) && FirstSymbolsUpTo(lens, 15) && MaxCodesUpTo(lens, 15) && maxcode[16] == 0x1_0000
      && FastUpTo(lens, |lens|) && SlotsUpTo(lens, |lens|)
    }

    /** The same, as a unit for callers that do not look inside the tables. */
    ghost predicate Decodes(lens: seq<nat>)
      reads Repr()
    {
      Tables(lens)
    }

    /** stbi__zbuild_huffman accepts exactly the length lists that satisfy the Kraft inequality. */
    method Build(lens: seq<nat>) returns (ok: bool)
      requires Shape() && Lengths(lens)
      modifies Repr()
      ensures ok <==> KraftOk(lens)
      ensures ok ==> Decodes(lens)
    {
      var sizes := new nat[17](_ => 0);
      var nextCode := new nat[16];
      for x := 0 to 512
        invariant forall y: nat :: y < x ==> fast[y] == 0
        modifies fast
      {
        fast[x] := 0;
      }
      CountSizes(lens, sizes);
      ok := SizesFit(lens, sizes);
      if ok {
        ok := AssignRanges(lens, sizes, nextCode);
      }
      if ok {
        maxcode[16] := 0x1_0000;
        FillSymbols(lens, nextCode);
      }
    }

    static ghost predicate SizesAre(lens: seq<nat>, sizes: array<nat>)
      requires sizes.Length == 17
      reads sizes
    {
      forall s: nat :: 1 <= s < 16 ==> sizes[s] == Count(lens, s, |lens|)
    }

    static method CountSizes(lens: seq<nat>, sizes: array<nat>)
      requires Lengths(lens) && sizes.Length == 17
      requires forall s: nat :: s < 17 ==> sizes[s] == 0
      modifies sizes
      ensures SizesAre(lens, sizes)
    {
      for i := 0 to |lens|
        invariant forall s: nat :: s < 16 ==> sizes[s] == Count(lens, s, i)
      {
        sizes[lens[i]] := sizes[lens[i]] + 1;
      }
      sizes[0] := 0;
    }

    /** nextCode holds the next code of each length once the first n symbols have theirs. */
    static ghost predicate NextCodes(lens: seq<nat>, nextCode: array<nat>, t: nat, n: nat)
      requires nextCode.Length == 16 && n <= |lens| && t <= 15
      reads nextCode
    {
      forall s: nat :: 1 <= s <= t ==> nextCode[s] == FirstCode(lens, s) + Count(lens, s, n)
    }

    static method SizesFit(lens: seq<nat>, sizes: array<nat>) returns (ok: bool)
      requires Lengths(lens) && sizes.Length == 17
      requires SizesAre(lens, sizes)
      ensures !ok ==> !KraftOk(lens)
    {
      for i := 1 to 16 {
        if sizes[i] > Pow2(i) {
          TooManyCodes(lens, i);
          return false;
        }
      }
      return true;
    }

    method AssignRanges(lens: seq<nat>, sizes: array<nat>, nextCode: array<nat>) returns (ok: bool)
      requires Shape() && Lengths(lens) && sizes.Length == 17 && nextCode.Length == 16
      requires sizes !in {firstcode, maxcode, firstsymbol, nextCode} && nextCode !in Repr()
      requires SizesAre(lens, sizes)
      modifies firstcode, maxcode, firstsymbol, nextCode
      ensures ok <==> KraftOk(lens)
      ensures ok ==> FirstCodesUpTo(lens, 15) && FirstSymbolsUpTo(lens, 15) && MaxCodesUpTo(lens, 15)
      ensures ok ==> NextCodes(lens, nextCode, 15, 0)
    {
      var code, k := 0, 0;
      for i := 1 to 16
        invariant code == FirstCode(lens, i) <= Pow2(i)
        invariant k == FirstSymbol(lens, i)
        invariant FirstCodesUpTo(lens, i - 1) && FirstSymbolsUpTo(lens, i - 1) && MaxCodesUpTo(lens, i - 1)
        invariant NextCodes(lens, nextCode, i - 1, 0)
      {
        BeginRange(lens, nextCode, i, code, k);
        code := code + sizes[i];
        if sizes[i] != 0 && code - 1 >= Pow2(i) {
          TooManyCodes(lens, i);
          return false;
        }
        maxcode[i] := Shl(code, 16 - i);
        RangeEnd(lens, i);
        NextFirstCode(lens, i);
        code := 2 * code;
        k := k + sizes[i];
      }
      AllRangesFit(lens);
      return true;
    }

    method BeginRange(lens: seq<nat>, nextCode: array<nat>, i: nat, code: nat, k: nat)
      requires Shape() && Lengths(lens) && nextCode.Length == 16 && nextCode !in Repr() && 1 <= i <= 15
      requires code == FirstCode(lens, i) <= Pow2(i) && k == FirstSymbol(lens, i)
      requires FirstCodesUpTo(lens, i - 1) && FirstSymbolsUpTo(lens, i - 1) && NextCodes(lens, nextCode, i - 1, 0)
      modifies firstcode, firstsymbol, nextCode
      ensures FirstCodesUpTo(lens, i) && FirstSymbolsUpTo(lens, i) && NextCodes(lens, nextCode, i, 0)
    {
      CodeBounds(lens, i);
      nextCode[i] := code;
      firstcode[i] := U16(code);
      firstsymbol[i] := U16(k);
    }

    method FillSymbols(lens: seq<nat>, nextCode: array<nat>)
      requires Shape() && KraftOk(lens) && nextCode.Length == 16 && nextCode !in Repr()
      requires FirstCodesUpTo(lens, 15) && FirstSymbolsUpTo(lens, 15)
      requires FastUpTo(lens, 0) && NextCodes(lens, nextCode, 15, 0)
      modifies fast, size, value, nextCode
      ensures FastUpTo(lens, |lens|) && SlotsUpTo(lens, |lens|)
    {
      for i := 0 to |lens|
        invariant NextCodes(lens, nextCode, 15, i)
        invariant FastUpTo(lens, i)
        invariant SlotsUpTo(lens, i)
      {
        var s := lens[i];
        if s != 0 {
          var code := nextCode[s];
          var c := code - firstcode[s] + firstsymbol[s];
          EnterSymbol(lens, i, c);
          if s <= FAST_BITS {
            EnterFast(lens, i, code);
          } else {
            NoFastMatch(lens, i);
          }
          nextCode[s] := code + 1;
        } else {
          NoFastMatch(lens, i);
        }
      }
    }

    lemma NoFastMatch(lens: seq<nat>, i: nat)
      requires Shape() && KraftOk(lens) && i < |lens| && !(1 <= lens[i] <= FAST_BITS)
      requires FastUpTo(lens, i)
      ensures FastUpTo(lens, i + 1)
    {
      forall x: nat | x < 512
        ensures FastEntry(lens, i + 1, x, fast[x])
      {
        FastEntryStep(lens, i, x, fast[x]);
      }
    }

    method EnterSymbol(lens: seq<nat>, i: nat, c: nat)
      requires Shape() && KraftOk(lens) && i < |lens| && lens[i] > 0 && c == Slot(lens, i)
      requires SlotsUpTo(lens, i)
      modifies size, value
      ensures SlotsUpTo(lens, i + 1)
    {
      SlotBound(lens, i);
      size[c] := lens[i];
      value[c] := U16(i);
      forall sym: nat | sym < i && lens[sym] > 0
        ensures Slot(lens, sym) != c
      {
        if Slot(lens, sym) == c {
          SlotInjective(lens, sym, i);
        }
      }
    }

    method EnterFast(lens: seq<nat>, i: nat, code: nat)
      requires Shape() && KraftOk(lens) && i < |lens| && 1 <= lens[i] <= FAST_BITS && code == CodeOf(lens, i)
      requires FastUpTo(lens, i)
      modifies fast
      ensures FastUpTo(lens, i + 1)
    {
      var s := lens[i];
      var fastv := U16(Or(Shl(s, 9), i));
      FastValue(s, i);
      CodeFits(lens, i);
      var j := BitReverse(code, s);
      BitReverseCorrect(code, s);
      RevBound(code, s);
      ghost var before := fast[..];
      Stripe(s, j, fastv);
      forall x: nat | x < 512
        ensures FastEntry(lens, i + 1, x, fast[x])
      {
        RevLowInverse(x, code, s);
        assert FastEntry(lens, i, x, before[x]);
        FastEntryStep(lens, i, x, before[x]);
      }
    }

    /** The inner loop: every index whose s low bits are j gets the entry. */
    method Stripe(s: nat, j0: nat, fastv: nat)
      requires Shape() && j0 < Pow2(s)
      modifies fast
      ensures forall x: nat :: x < 512 ==> fast[x] == if Low(x, s) == j0 then fastv else old(fast[x])
    {
      var j := j0;
      LowSmall(j, s);
      forall x: nat | x < j
        ensures Low(x, s) != j0
      {
        LowSmall(x, s);
      }
      while j < 512
        invariant Low(j, s) == j0
        invariant forall x: nat :: x < 512 ==> fast[x] == if x < j && Low(x, s) == j0 then fastv else old(fast[x])
        decreases 512 - j
      {
        fast[j] := fastv;
        LowStride(j, s);
        forall x: nat | j < x < j + Pow2(s)
          ensures Low(x, s) != j0
        {
          if Low(x, s) == j0 {
            LowGap(j, x, s);
          }
        }
        j := j + Pow2(s);
      }
    }
  }

  /** `(s << 9) | i` keeps both parts, and is not 0. */
  lemma FastValue(s: nat, i: nat)
    requires 1 <= s <= FAST_BITS && i < 512
    ensures U16(Or(Shl(s, 9), i)) == 512 * s + i
  {
    Times512(s);
    Pow2Values();
    OrShl(s, i, 9);
  }

  lemma UnpackFast(b: nat)
    ensures And(b, 511) == b % 512 && Shr(b, 9) == b / 512
  {
    Pow2Values();
    AndMask(b, 9);
    Times512(b / 512);
    LowOfSum(b / 512, b % 512, 9);
    ShrInterval(b, 9, b / 512);
    Times512(b / 512 + 1);
  }

  lemma Times512(s: nat)
    ensures Shl(s, 9) == 512 * s
  {
    assert Shl(s, 9) == 2 * Shl(s, 8) == 4 * Shl(s, 7) == 8 * Shl(s, 6);
    assert Shl(s, 6) == 2 * Shl(s, 5) == 4 * Shl(s, 4) == 8 * Shl(s, 3);
    assert Shl(s, 3) == 2 * Shl(s, 2) == 4 * Shl(s, 1) == 8 * Shl(s, 0);
  }

  lemma RangeEnd(lens: seq<nat>, i: nat)
    requires Lengths(lens) && 1 <= i <= 15
    ensures Shl(FirstCode(lens, i) + Count(lens, i, |lens|), 16 - i) == Base(lens, i + 1)
  {
    BaseStep(lens, i);
    ShlAdd(FirstCode(lens, i), Count(lens, i, |lens|), 16 - i);
  }

  lemma OverflowsSpace(x: nat, i: nat)
    requires Pow2(i) < x && i <= 16
    ensures Shl(x, 16 - i) > 0x1_0000
  {
    ShlMonotone(Pow2(i), x, 16 - i);
    Pow2Add(i, 16 - i);
    Pow2Values();
  }

  /** More than 2^i codes of length i, counting the places taken by shorter ones, break the inequality. */
  lemma TooManyCodes(lens: seq<nat>, i: nat)
    requires Lengths(lens) && 1 <= i <= 15
    requires FirstCode(lens, i) + Count(lens, i, |lens|) > Pow2(i)
    ensures !KraftOk(lens)
  {
    RangeEnd(lens, i);
    OverflowsSpace(FirstCode(lens, i) + Count(lens, i, |lens|), i);
    BaseMonotone(lens, i + 1, 16);
    KraftIsBase(lens);
  }

  lemma AllRangesFit(lens: seq<nat>)
    requires Lengths(lens) && FirstCode(lens, 16) <= Pow2(16)
    ensures KraftOk(lens)
  {
    KraftIsBase(lens);
    Pow2Values();
  }

  lemma NextFirstCode(lens: seq<nat>, i: nat)
    requires 1 <= i
    ensures FirstCode(lens, i + 1) == 2 * (FirstCode(lens, i) + Count(lens, i, |lens|))
    ensures FirstSymbol(lens, i + 1) == FirstSymbol(lens, i) + Count(lens, i, |lens|)
    ensures Pow2(i + 1) == 2 * Pow2(i)
  {
  }

  lemma CodeBounds(lens: seq<nat>, i: nat)
    requires Lengths(lens) && 1 <= i <= 15
    ensures Pow2(i) <= 0x8000
    ensures FirstSymbol(lens, i) + Count(lens, i, |lens|) == FirstSymbol(lens, i + 1) <= |lens|
  {
    Pow2Monotone(i, 15);
    Pow2Values();
    FirstSymbolIsCount(lens, i + 1);
    CountUpToBound(lens, |lens|, i);
  }

  // ---- lookups; v is the reservoir, whose lowest bit comes first ----

  /** A hit in the fast table is a symbol whose code starts the window. */
  lemma FastHit(lens: seq<nat>, v: nat, sym: nat)
    requires Lengths(lens) && FastMatch(lens, sym, Low(v, FAST_BITS))
    ensures Prefixes(lens, sym, Rev(v, 16))
  {
    RevLow(v, FAST_BITS, lens[sym]);
    RevPrefix(v, 16, lens[sym]);
  }

  /** After a miss the window lies beyond the codes of up to 9 bits. */
  lemma FastMiss(lens: seq<nat>, v: nat)
    requires Lengths(lens) && FastEntry(lens, |lens|, Low(v, FAST_BITS), 0)
    ensures Base(lens, FAST_BITS + 1) <= Rev(v, 16)
  {
    var w := Rev(v, 16);
    if w < Base(lens, FAST_BITS + 1) {
      var s := LengthOf(lens, w, FAST_BITS + 1);
      var sym := WindowHasSymbol(lens, w, s);
      RevLow(v, FAST_BITS, s);
      RevPrefix(v, 16, s);
      assert FastMatch(lens, sym, Low(v, FAST_BITS));
    }
  }

  /** For a window among the codes of length s, the slow path's index is the slot of the right symbol. */
  lemma SlowHit(lens: seq<nat>, w: nat, s: nat) returns (sym: nat)
    requires Lengths(lens) && 1 <= s <= 15 && Base(lens, s) <= w < Base(lens, s + 1)
    ensures Prefixes(lens, sym, w) && lens[sym] == s
    ensures Shr(w, 16 - s) - FirstCode(lens, s) + FirstSymbol(lens, s) == Slot(lens, sym) < NSYMS
  {
    sym := WindowHasSymbol(lens, w, s);
    SlotBound(lens, sym);
  }
}
