/** The Huffman codes of annex C of ITU-T T.81: symbols listed by nondecreasing code size, up to 16 bits. */
module JpegCanonical {
  import opened Bits

  /** A list HUFFSIZE of the code sizes of at most 256 symbols. */
  predicate Sizes(sizes: seq<nat>)
  {
    && |sizes| <= 256
    && (forall k :: 0 <= k < |sizes| ==> 1 <= sizes[k] <= 16)
    && (forall k :: 0 < k < |sizes| ==> sizes[k - 1] <= sizes[k])
  }

  /** Figure C.2: the next code is one larger, with zero bits appended where the size grows. */
  function HuffCode(sizes: seq<nat>, k: nat): nat
    requires Sizes(sizes) && k < |sizes|
  {
    if k == 0 then 0 else Shl(HuffCode(sizes, k - 1) + 1, sizes[k] - sizes[k - 1])
  }

  /** The 16-bit windows that begin with the code of symbol k. */
  function Start(sizes: seq<nat>, k: nat): nat
    requires Sizes(sizes) && k < |sizes|
  {
    Shl(HuffCode(sizes, k), 16 - sizes[k])
  }

  function End(sizes: seq<nat>, k: nat): nat
    requires Sizes(sizes) && k < |sizes|
  {
    Shl(HuffCode(sizes, k) + 1, 16 - sizes[k])
  }

  /** How much of the window space the first n symbols take up. */
  function Total(sizes: seq<nat>, n: nat): nat
    requires Sizes(sizes) && n <= |sizes|
  {
    if n == 0 then 0 else End(sizes, n - 1)
  }

  /** The codes fill the window space without a gap. */
  lemma Contiguous(sizes: seq<nat>, k: nat)
    requires Sizes(sizes) && k < |sizes|
    ensures Start(sizes, k) == Total(sizes, k)
    ensures Total(sizes, k + 1) == Total(sizes, k) + Pow2(16 - sizes[k])
  {
    if k == 0 {
      ShlIsPow2(16 - sizes[k]);
    } else {
      ShlShl(HuffCode(sizes, k - 1) + 1, sizes[k] - sizes[k - 1], 16 - sizes[k]);
    }
    ShlAdd(HuffCode(sizes, k), 1, 16 - sizes[k]);
    ShlIsPow2(16 - sizes[k]);
  }

  lemma {:induction false} TotalGrows(sizes: seq<nat>, m: nat, n: nat)
    requires Sizes(sizes) && m <= n <= |sizes|
    ensures Total(sizes, m) <= Total(sizes, n) && (m < n ==> Total(sizes, m) < Total(sizes, n))
  {
    if m < n {
      TotalGrows(sizes, m, n - 1);
      Contiguous(sizes, n - 1);
    }
  }

  /** Every code fits its size. */
  predicate Fits(sizes: seq<nat>)
  {
    Sizes(sizes) && Total(sizes, |sizes|) <= 0x1_0000
  }

  /** The window w begins with the code of symbol k. */
  predicate Begins(sizes: seq<nat>, k: nat, w: nat)
    requires Sizes(sizes)
  {
    k < |sizes| && Shr(w, 16 - sizes[k]) == HuffCode(sizes, k)
  }

  lemma BeginsInterval(sizes: seq<nat>, k: nat, w: nat)
    requires Sizes(sizes) && k < |sizes|
    ensures Begins(sizes, k, w) <==> Total(sizes, k) <= w < Total(sizes, k + 1)
  {
    Contiguous(sizes, k);
    ShrInterval(w, 16 - sizes[k], HuffCode(sizes, k));
  }

  /** No window begins with two codes. */
  lemma BeginsUnique(sizes: seq<nat>, k: nat, l: nat, w: nat)
    requires Sizes(sizes) && Begins(sizes, k, w) && Begins(sizes, l, w)
    ensures k == l
  {
    BeginsInterval(sizes, k, w);
    BeginsInterval(sizes, l, w);
    if k < l {
      TotalGrows(sizes, k + 1, l);
    } else if l < k {
      TotalGrows(sizes, l + 1, k);
    }
  }

  /** Every window below Total(n) begins with one of the first n codes. */
  lemma {:induction false} FindSymbol(sizes: seq<nat>, w: nat, n: nat) returns (k: nat)
    requires Sizes(sizes) && n <= |sizes| && w < Total(sizes, n)
    ensures k < n && Begins(sizes, k, w)
  {
    if Total(sizes, n - 1) <= w {
      k := n - 1;
      BeginsInterval(sizes, k, w);
    } else {
      k := FindSymbol(sizes, w, n - 1);
    }
  }

  /** How many symbols have a code of at most j bits. */
  function Upto(sizes: seq<nat>, j: nat, n: nat): nat
    requires n <= |sizes|
  {
    if n == 0 then 0 else if sizes[n - 1] <= j then n else Upto(sizes, j, n - 1)
  }

  lemma {:induction false} UptoSplits(sizes: seq<nat>, j: nat, n: nat)
    requires Sizes(sizes) && n <= |sizes|
    ensures Upto(sizes, j, n) <= n
    ensures forall k :: 0 <= k < n ==> (sizes[k] <= j <==> k < Upto(sizes, j, n))
    decreases n
  {
    if n > 0 && sizes[n - 1] <= j {
      forall k | 0 <= k < n
        ensures sizes[k] <= j
      {
        Nondecreasing(sizes, k, n - 1);
      }
    } else if n > 0 {
      UptoSplits(sizes, j, n - 1);
    }
  }

  lemma {:induction false} UptoIs(sizes: seq<nat>, j: nat, n: nat, k: nat)
    requires k <= n <= |sizes| && forall i :: 0 <= i < n ==> (sizes[i] <= j <==> i < k)
    ensures Upto(sizes, j, n) == k
    decreases n
  {
    if n > 0 && sizes[n - 1] > j {
      UptoIs(sizes, j, n - 1, k);
    }
  }

  lemma {:induction false} Nondecreasing(sizes: seq<nat>, k: nat, l: nat)
    requires Sizes(sizes) && k <= l < |sizes|
    ensures sizes[k] <= sizes[l]
  {
    if k < l {
      Nondecreasing(sizes, k, l - 1);
    }
  }

  // ---- from the counts in the DHT segment ----

  function Copies(v: nat, n: nat): (r: seq<nat>)
    ensures |r| == n
  {
    seq(n, _ => v)
  }

  /** Figure C.1: the size list for counts of the first n sizes. */
  function SizeList(count: seq<nat>, n: nat): seq<nat>
    requires n <= |count|
  {
    if n == 0 then [] else SizeList(count, n - 1) + Copies(n, count[n - 1])
  }

  lemma {:induction false} SizeListIsSizes(count: seq<nat>, n: nat)
    requires n <= |count| && n <= 16 && |SizeList(count, n)| <= 256
    ensures Sizes(SizeList(count, n)) && forall k :: 0 <= k < |SizeList(count, n)| ==> SizeList(count, n)[k] <= n
  {
    if n > 0 {
      SizeListIsSizes(count, n - 1);
    }
  }

  lemma {:induction false} SizeListGrows(count: seq<nat>, m: nat, n: nat)
    requires m <= n <= |count|
    ensures SizeList(count, m) <= SizeList(count, n)
  {
    if m < n {
      SizeListGrows(count, m, n - 1);
    }
  }
}
