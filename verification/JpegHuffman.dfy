/** stbi__huffman: the JPEG decoder's tables.  A 9-bit table maps the first bits of the window to a symbol
    index, with 255 for "not there"; the rest is found by comparing with the end of each size's codes. */
module JpegHuffman {
  import opened Bits
  import opened JpegCanonical

  /** A code of at most 9 bits that begins the 9-bit window x. */
  predicate FastMatch(sizes: seq<nat>, sym: nat, x: nat)
    requires Sizes(sizes)
  {
    sym < |sizes| && sizes[sym] <= 9 && Shr(x, 9 - sizes[sym]) == HuffCode(sizes, sym)
  }

  /** fast[x] == e, once the first n symbols have been entered. */
  predicate FastEntry(sizes: seq<nat>, n: nat, x: nat, e: byte)
    requires Sizes(sizes)
  {
    && (e < 255 ==> e < n && FastMatch(sizes, e, x))
    && forall sym: nat :: sym < n && FastMatch(sizes, sym, x) ==> e == sym
  }

  lemma FastMatchBegins(sizes: seq<nat>, sym: nat, x: nat, w: nat)
    requires Sizes(sizes) && x == Shr(w, 7) && sym < |sizes| && sizes[sym] <= 9
    ensures FastMatch(sizes, sym, x) <==> Begins(sizes, sym, w)
  {
    ShrShr(w, 7, 9 - sizes[sym]);
  }

  lemma FastMatchUnique(sizes: seq<nat>, a: nat, b: nat, x: nat)
    requires Sizes(sizes) && FastMatch(sizes, a, x) && FastMatch(sizes, b, x)
    ensures a == b
  {
    var w := Shl(x, 7);
    ShrShl(x, 7, 7);
    FastMatchBegins(sizes, a, x, w);
    FastMatchBegins(sizes, b, x, w);
    BeginsUnique(sizes, a, b, w);
  }

  /** delta[j] and maxcode[j] are right for size j. */
  predicate RangeOk(sizes: seq<nat>, j: nat, delta: int, maxcode: nat)
    requires Sizes(sizes) && 1 <= j <= 16
  {
    var first := Upto(sizes, j - 1, |sizes|);
    UptoSplits(sizes, j - 1, |sizes|);
    UptoSplits(sizes, j, |sizes|);
    && delta <= first && Shl(first - delta, 16 - j) == Total(sizes, first)
    && maxcode == Total(sizes, Upto(sizes, j, |sizes|))
  }

  class JHuffman {
    const fast: array<byte>
    const code: array<nat>
    const values: array<byte>
    const size: array<nat>
    const maxcode: array<nat>
    const delta: array<int>

    ghost predicate Shape()
    {
      && fast.Length == 512 && code.Length == 256 && values.Length == 256 && size.Length == 257
      && maxcode.Length == 18 && delta.Length == 17
      && fast != values && code != size && code != maxcode && size != maxcode
    }

    ghost function Repr(): set<object>
    {
      {fast as object, code as object, size as object, maxcode as object, delta as object}
    }

    constructor ()
      ensures Shape() && fresh(Repr()) && fresh(values)
    {
      fast := new byte[512];
      code := new nat[256];
      values := new byte[256];
      size := new nat[257];
      maxcode := new nat[18];
      delta := new int[17];
    }

    /** size holds the size list, ended by a 0. */
    ghost predicate SizesAre(sizes: seq<nat>)
      requires Shape()
      reads size
    {
      |sizes| <= 256 && size[..|sizes|] == sizes && size[|sizes|] == 0
    }

    ghost predicate CodesUpto(sizes: seq<nat>, n: nat)
      requires Shape() && Sizes(sizes) && n <= |sizes|
      reads code
    {
      forall k: nat :: k < n ==> code[k] == U16(HuffCode(sizes, k))
    }

    ghost predicate RangesUpto(sizes: seq<nat>, t: nat)
      requires Shape() && Sizes(sizes) && t <= 16
      reads delta, maxcode
    {
      forall j: nat :: 1 <= j <= t ==> RangeOk(sizes, j, delta[j], maxcode[j])
    }

    ghost predicate FastUpto(sizes: seq<nat>, n: nat)
      requires Shape() && Sizes(sizes)
      reads fast
    {
      forall x: nat :: x < 512 ==> FastEntry(sizes, n, x, fast[x])
    }

    ghost predicate Tables(sizes: seq<nat>)
      reads Repr()
    {
      && Shape() && Fits(sizes)
      && SizesAre(sizes) && CodesUpto(sizes, |sizes|) && RangesUpto(sizes, 16) && maxcode[17] == 0xFFFF_FFFF
      && FastUpto(sizes, |sizes|)
    }

    /** stbi__build_huffman. */
    method Build(count: seq<nat>) returns (ok: bool)
      requires Shape() && |count| == 16
      modifies Repr()
      ensures ok <==> |SizeList(count, 16)| <= 256 && Fits(SizeList(count, 16))
      ensures ok ==> Tables(SizeList(count, 16))
    {
      ok := FillSizes(count);
      if !ok {
        return;
      }
      SizeListIsSizes(count, 16);
      ghost var sizes := SizeList(count, 16);
      var k;
      ok, k := AssignCodes(sizes);
      if !ok {
        return;
      }
      for x := 0 to 512
        invariant forall y: nat :: y < x ==> fast[y] == 255
        modifies fast
      {
        fast[x] := 255;
      }
      FillFast(sizes, k);
    }

    method FillSizes(count: seq<nat>) returns (ok: bool)
      requires Shape() && |count| == 16
      modifies size
      ensures ok <==> |SizeList(count, 16)| <= 256
      ensures ok ==> SizesAre(SizeList(count, 16))
    {
      var k := 0;
      for i := 0 to 16
        invariant k <= 256 && size[..k] == SizeList(count, i)
      {
        SizeListGrows(count, i + 1, 16);
        for j := 0 to count[i]
          invariant k <= 256 && size[..k] == SizeList(count, i) + Copies(i + 1, j)
        {
          size[k] := i + 1;
          k := k + 1;
          assert Copies(i + 1, j + 1) == Copies(i + 1, j) + [i + 1];
          assert size[..k] == SizeList(count, i) + Copies(i + 1, j) + [i + 1];
          if k >= 257 {
            return false;
          }
        }
      }
      size[k] := 0;
      return true;
    }

    method AssignCodes(ghost sizes: seq<nat>) returns (ok: bool, k: nat)
      requires Shape() && Sizes(sizes) && SizesAre(sizes)
      modifies code, delta, maxcode
      ensures ok <==> Fits(sizes)
      ensures ok ==> k == |sizes| && CodesUpto(sizes, k) && RangesUpto(sizes, 16) && maxcode[17] == 0xFFFF_FFFF
    {
      hide Sizes, Total, HuffCode, Upto, Fits, RangeOk, Shl;
      var c: nat := 0;
      k := 0;
      FirstRange(sizes);
      for j := 1 to 17
        invariant k <= |sizes| && k == Upto(sizes, j - 1, |sizes|) && Total(sizes, k) <= 0x1_0000
        invariant j <= 16 ==> Shl(c, 16 - j) == Total(sizes, k)
        invariant CodesUpto(sizes, k) && RangesUpto(sizes, j - 1)
      {
        var good;
        good, k, c := AssignSize(sizes, j, k, c);
        if !good {
          return false, k;
        }
      }
      AllSizes(sizes);
      maxcode[17] := 0xFFFF_FFFF;
      return true, k;
    }

    /** One round of the loop: the codes of size j, and where they end. */
    method AssignSize(ghost sizes: seq<nat>, j: nat, k0: nat, c0: nat) returns (ok: bool, k: nat, c: nat)
      requires Shape() && Sizes(sizes) && SizesAre(sizes) && 1 <= j <= 16
      requires k0 <= |sizes| && k0 == Upto(sizes, j - 1, |sizes|) && Shl(c0, 16 - j) == Total(sizes, k0) <= 0x1_0000
      requires CodesUpto(sizes, k0) && RangesUpto(sizes, j - 1)
      modifies code, delta, maxcode
      ensures !ok ==> !Fits(sizes)
      ensures ok ==> k <= |sizes| && k == Upto(sizes, j, |sizes|) && Total(sizes, k) <= 0x1_0000
      ensures ok && j < 16 ==> Shl(c, 15 - j) == Total(sizes, k)
      ensures ok ==> CodesUpto(sizes, k) && RangesUpto(sizes, j)
    {
      hide Sizes, Total, HuffCode, Upto, Fits, RangeOk, Shl, Pow2;
      k, c := k0, c0;
      delta[j] := k - c;
      if size[k] == j {
        k, c := CodesOfSize(sizes, j, k, c);
        if c - 1 >= Pow2(j) {
          TooLong(sizes, j, k, c);
          return false, k, c;
        }
        FitsSoFar(sizes, j, k, c);
      } else {
        NoneOfSize(sizes, j, k);
      }
      maxcode[j] := Shl(c, 16 - j);
      RangeDone(sizes, j, k0, c0, k, c);
      return true, k, 2 * c;
    }

    /** The codes of size j, from symbol k on. */
    method CodesOfSize(ghost sizes: seq<nat>, j: nat, k0: nat, c0: nat) returns (k: nat, c: nat)
      requires Shape() && Sizes(sizes) && SizesAre(sizes) && 1 <= j <= 16
      requires k0 <= |sizes| && k0 == Upto(sizes, j - 1, |sizes|) && Shl(c0, 16 - j) == Total(sizes, k0)
      requires size[k0] == j && CodesUpto(sizes, k0)
      modifies code
      ensures k <= |sizes| && k == Upto(sizes, j, |sizes|) && Shl(c, 16 - j) == Total(sizes, k) && 1 <= c
      ensures CodesUpto(sizes, k)
    {
      hide Sizes, Total, HuffCode, Upto;
      k, c := k0, c0;
      while size[k] == j
        invariant k0 <= k <= |sizes| && c == c0 + (k - k0) && Shl(c, 16 - j) == Total(sizes, k)
        invariant forall i :: k0 <= i < k ==> sizes[i] == j
        invariant CodesUpto(sizes, k)
        decreases |sizes| - k
      {
        assert k < |sizes| && sizes[k] == j;
        CodeIs(sizes, j, k, c);
        code[k] := U16(c);
        k, c := k + 1, c + 1;
      }
      assert k < |sizes| ==> sizes[k] != j;
      EndOfRun(sizes, j, k0, k);
      assert k0 < |sizes| && sizes[k0] == j;
    }

    method FillFast(ghost sizes: seq<nat>, k: nat)
      requires Shape() && Fits(sizes) && SizesAre(sizes) && k == |sizes| && CodesUpto(sizes, k)
      requires forall x: nat :: x < 512 ==> fast[x] == 255
      modifies fast
      ensures FastUpto(sizes, k)
    {
      hide Sizes, HuffCode, Total;
      for i := 0 to k
        invariant FastUpto(sizes, i)
      {
        assert size[i] == sizes[i];
        ghost var before := fast[..];
        assert forall x: nat :: x < 512 ==> FastEntry(sizes, i, x, before[x]);
        if size[i] <= 9 {
          CodeWidth(sizes, i);
          FillOne(sizes, i);
        } else {
          assert forall x: nat :: x < 512 ==> !FastMatch(sizes, i, x);
        }
        forall x: nat | x < 512
          ensures FastEntry(sizes, i + 1, x, fast[x])
        {
          FastEnter(sizes, i, x, before[x]);
        }
      }
    }

    /** Every index that begins with the code of symbol i gets i. */
    method FillOne(ghost sizes: seq<nat>, i: nat)
      requires Shape() && Sizes(sizes) && SizesAre(sizes) && i < |sizes| && sizes[i] <= 9
      requires code[i] == HuffCode(sizes, i) < Pow2(sizes[i])
      modifies fast
      ensures forall x: nat :: x < 512 ==> fast[x] == if FastMatch(sizes, i, x) then i else old(fast[x])
    {
      hide Sizes, HuffCode, Shl, Pow2, FastMatch;
      var s := size[i];
      assert s == sizes[i];
      var c := Shl(code[i], 9 - s);
      var m := Pow2(9 - s);
      StripeEnd(code[i], s);
      for j := 0 to m
        invariant forall x: nat :: x < 512 ==> fast[x] == if c <= x < c + j then i else old(fast[x])
      {
        fast[c + j] := i;
      }
      forall x: nat | x < 512
        ensures FastMatch(sizes, i, x) <==> c <= x < c + m
      {
        MatchesStripe(sizes, i, x);
      }
    }
  }

  lemma MatchesStripe(sizes: seq<nat>, i: nat, x: nat)
    requires Sizes(sizes) && i < |sizes| && sizes[i] <= 9 && HuffCode(sizes, i) < Pow2(sizes[i])
    ensures var c := Shl(HuffCode(sizes, i), 9 - sizes[i]);
      FastMatch(sizes, i, x) <==> c <= x < c + Pow2(9 - sizes[i])
  {
    hide Sizes, HuffCode, Shl, Shr, Pow2;
    ShrInterval(x, 9 - sizes[i], HuffCode(sizes, i));
    StripeEnd(HuffCode(sizes, i), sizes[i]);
  }

  lemma StripeEnd(c: nat, s: nat)
    requires s <= 9 && c < Pow2(s)
    ensures Shl(c + 1, 9 - s) == Shl(c, 9 - s) + Pow2(9 - s) <= 512
  {
    Pow2Values();
    hide Shl, Pow2;
    ShlAdd(c, 1, 9 - s);
    ShlIsPow2(9 - s);
    ShlMonotone(c + 1, Pow2(s), 9 - s);
    Pow2Add(s, 9 - s);
  }

  lemma FastEnter(sizes: seq<nat>, i: nat, x: nat, e: byte)
    requires Sizes(sizes) && i < |sizes| && FastEntry(sizes, i, x, e)
    ensures FastEntry(sizes, i + 1, x, if FastMatch(sizes, i, x) then i else e)
  {
    hide Sizes, FastMatch;
    if FastMatch(sizes, i, x) {
      forall sym: nat | sym < i && FastMatch(sizes, sym, x)
        ensures false
      {
        FastMatchUnique(sizes, sym, i, x);
      }
    }
  }

  lemma CodeWidth(sizes: seq<nat>, i: nat)
    requires Fits(sizes) && i < |sizes|
    ensures HuffCode(sizes, i) < Pow2(sizes[i]) <= 0x1_0000
  {
    hide HuffCode;
    TotalGrows(sizes, i + 1, |sizes|);
    assert Total(sizes, i + 1) == Shl(HuffCode(sizes, i) + 1, 16 - sizes[i]);
    Narrow(HuffCode(sizes, i), sizes[i]);
  }

  lemma Narrow(c: nat, s: nat)
    requires s <= 16 && Shl(c + 1, 16 - s) <= 0x1_0000
    ensures c < Pow2(s) <= 0x1_0000
  {
    Pow2Values();
    Pow2Monotone(s, 16);
    Pow2Add(s, 16 - s);
    if Pow2(s) <= c {
      ShlMonotone(Pow2(s), c + 1, 16 - s);
    }
  }

  lemma FirstRange(sizes: seq<nat>)
    requires Sizes(sizes)
    ensures Upto(sizes, 0, |sizes|) == 0 && Total(sizes, 0) == 0 && Shl(0, 15) == 0
  {
    hide Sizes;
    assert forall i :: 0 <= i < |sizes| ==> !(sizes[i] <= 0) by {
      NonZero(sizes);
    }
    UptoIs(sizes, 0, |sizes|, 0);
    ShlIsPow2(15);
  }

  lemma NonZero(sizes: seq<nat>)
    requires Sizes(sizes)
    ensures forall i :: 0 <= i < |sizes| ==> sizes[i] > 0
  {
  }

  lemma CodeIs(sizes: seq<nat>, j: nat, k: nat, c: nat)
    requires Sizes(sizes) && k < |sizes| && sizes[k] == j && 1 <= j <= 16 && Shl(c, 16 - j) == Total(sizes, k)
    ensures HuffCode(sizes, k) == c && Shl(c + 1, 16 - j) == Total(sizes, k + 1)
  {
    Contiguous(sizes, k);
    if HuffCode(sizes, k) < c {
      ShlMonotone(HuffCode(sizes, k), c, 16 - j);
    } else if c < HuffCode(sizes, k) {
      ShlMonotone(c, HuffCode(sizes, k), 16 - j);
    }
  }

  lemma NoneOfSize(sizes: seq<nat>, j: nat, k: nat)
    requires Sizes(sizes) && 1 <= j && k == Upto(sizes, j - 1, |sizes|) <= |sizes| && (k < |sizes| ==> sizes[k] != j)
    ensures k == Upto(sizes, j, |sizes|)
  {
    EndOfRun(sizes, j, k, k);
  }

  lemma EndOfRun(sizes: seq<nat>, j: nat, k0: nat, k: nat)
    requires Sizes(sizes) && 1 <= j && k0 == Upto(sizes, j - 1, |sizes|) && k0 <= k <= |sizes|
    requires (forall i :: k0 <= i < k ==> sizes[i] == j) && (k < |sizes| ==> sizes[k] != j)
    ensures k == Upto(sizes, j, |sizes|)
  {
    UptoSplits(sizes, j - 1, |sizes|);
    forall i | 0 <= i < |sizes|
      ensures sizes[i] <= j <==> i < k
    {
      if k <= i {
        Nondecreasing(sizes, k, i);
      }
    }
    UptoIs(sizes, j, |sizes|, k);
  }

  lemma TooLong(sizes: seq<nat>, j: nat, k: nat, c: nat)
    requires Sizes(sizes) && 1 <= j <= 16 && k <= |sizes| && Shl(c, 16 - j) == Total(sizes, k) && Pow2(j) < c
    ensures !Fits(sizes)
  {
    ShlMonotone(Pow2(j), c, 16 - j);
    Pow2Add(j, 16 - j);
    Pow2Values();
    TotalGrows(sizes, k, |sizes|);
  }

  lemma FitsSoFar(sizes: seq<nat>, j: nat, k: nat, c: nat)
    requires Sizes(sizes) && 1 <= j <= 16 && k <= |sizes| && Shl(c, 16 - j) == Total(sizes, k) && c <= Pow2(j)
    ensures Total(sizes, k) <= 0x1_0000
  {
    ShlMonotone(c, Pow2(j), 16 - j);
    Pow2Add(j, 16 - j);
    Pow2Values();
  }

  lemma RangeDone(sizes: seq<nat>, j: nat, first: nat, c0: nat, k: nat, c: nat)
    requires Sizes(sizes) && 1 <= j <= 16 && first == Upto(sizes, j - 1, |sizes|) <= |sizes|
    requires k == Upto(sizes, j, |sizes|) <= |sizes|
    requires Shl(c0, 16 - j) == Total(sizes, first) && Shl(c, 16 - j) == Total(sizes, k)
    ensures RangeOk(sizes, j, first - c0, Shl(c, 16 - j))
    ensures j < 16 ==> Shl(2 * c, 15 - j) == Shl(c, 16 - j)
  {
    if j < 16 {
      ShlHead(c, 15 - j);
    }
  }

  lemma AllSizes(sizes: seq<nat>)
    requires Sizes(sizes)
    ensures Upto(sizes, 16, |sizes|) == |sizes|
    ensures Total(sizes, |sizes|) <= 0x1_0000 ==> Fits(sizes)
  {
    UptoSplits(sizes, 16, |sizes|);
  }
}
