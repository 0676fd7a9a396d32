/** Adam7 interlacing, section 2.6 of RFC 2083: which pass sends which pixel. */
module Adam7 {

  /** The pass, counting from 0, of each pixel of the 8 by 8 pattern that is repeated over the image. */
  const PATTERN: seq<seq<nat>> := [
    [0, 5, 3, 5, 1, 5, 3, 5],
    [6, 6, 6, 6, 6, 6, 6, 6],
    [4, 5, 4, 5, 4, 5, 4, 5],
    [6, 6, 6, 6, 6, 6, 6, 6],
    [2, 5, 3, 5, 2, 5, 3, 5],
    [6, 6, 6, 6, 6, 6, 6, 6],
    [4, 5, 4, 5, 4, 5, 4, 5],
    [6, 6, 6, 6, 6, 6, 6, 6]]

  function PassOf(px: nat, py: nat): nat
  {
    PATTERN[py % 8][px % 8]
  }

  /** The first pixel of each pass: the second starts four columns to the right, the third four rows down, and so on. */
  lemma FirstPixels()
    ensures PassOf(0, 0) == 0 && PassOf(4, 0) == 1 && PassOf(0, 4) == 2 && PassOf(2, 0) == 3
    ensures PassOf(0, 2) == 4 && PassOf(1, 0) == 5 && PassOf(0, 1) == 6 && PassOf(8, 8) == 0
  {
  }

  // ---- the decoder's tables ----

  const XORIG: seq<nat> := [0, 4, 0, 2, 0, 1, 0]
  const YORIG: seq<nat> := [0, 0, 4, 0, 2, 0, 1]
  const XSPC: seq<nat> := [8, 8, 4, 4, 2, 2, 1]
  const YSPC: seq<nat> := [8, 8, 8, 4, 4, 2, 2]

  function XPos(p: nat, i: nat): nat
    requires p < 7
  {
    i * XSPC[p] + XORIG[p]
  }

  function YPos(p: nat, j: nat): nat
    requires p < 7
  {
    j * YSPC[p] + YORIG[p]
  }

  /** The number of columns and rows of pass p in an image of size n. */
  function PassWidth(n: nat, p: nat): nat
    requires p < 7
  {
    if n + XSPC[p] <= XORIG[p] then 0 else (n - XORIG[p] + XSPC[p] - 1) / XSPC[p]
  }

  function PassHeight(n: nat, p: nat): nat
    requires p < 7
  {
    if n + YSPC[p] <= YORIG[p] then 0 else (n - YORIG[p] + YSPC[p] - 1) / YSPC[p]
  }

  lemma WidthFacts(n: nat, p: nat, i: nat)
    requires p < 7
    ensures i < PassWidth(n, p) <==> XPos(p, i) < n
  {
    if p == 0 {} else if p == 1 {} else if p == 2 {} else if p == 3 {} else if p == 4 {} else if p == 5 {} else {}
  }

  lemma HeightFacts(n: nat, p: nat, j: nat)
    requires p < 7
    ensures j < PassHeight(n, p) <==> YPos(p, j) < n
  {
    if p == 0 {} else if p == 1 {} else if p == 2 {} else if p == 3 {} else if p == 4 {} else if p == 5 {} else {}
  }

  lemma PosInjective(p: nat, i: nat, k: nat)
    requires p < 7
    ensures XPos(p, i) == XPos(p, k) ==> i == k
    ensures YPos(p, i) == YPos(p, k) ==> i == k
  {
    if p == 0 {} else if p == 1 {} else if p == 2 {} else if p == 3 {} else if p == 4 {} else if p == 5 {} else {}
  }

  /** The pixels that the decoder's tables give to pass p belong to it in the pattern. */
  lemma OnPattern(p: nat, i: nat, j: nat)
    requires p < 7
    ensures PassOf(XPos(p, i), YPos(p, j)) == p
  {
    if p == 0 {} else if p == 1 {} else if p == 2 {} else if p == 3 {} else if p == 4 {} else if p == 5 {} else {}
  }

  predicate InColumn(p: nat, a: nat)
  {
    p < 7 && (if p <= 1 then a else if p <= 3 then a % 4 else if p <= 5 then a % 2 else 0) == XORIG[p]
  }

  predicate InRow(p: nat, b: nat)
  {
    p < 7 && (if p <= 2 then b else if p <= 4 then b % 4 else b % 2) == YORIG[p]
  }

  /** The pattern, column by column and row by row. */
  lemma PatternPositions(a: nat, b: nat)
    requires a < 8 && b < 8
    ensures PATTERN[b][a] < 7 && InColumn(PATTERN[b][a], a) && InRow(PATTERN[b][a], b)
  {
    if b == 0 {} else if b == 1 {} else if b == 2 {} else if b == 3 {}
    else if b == 4 {} else if b == 5 {} else if b == 6 {} else {}
  }

  /** Every pixel has a column and a row in its pass. */
  lemma Covered(px: nat, py: nat) returns (p: nat, i: nat, j: nat)
    ensures p == PassOf(px, py) < 7 && px == XPos(p, i) && py == YPos(p, j)
  {
    p := PassOf(px, py);
    PatternPositions(px % 8, py % 8);
    i := if p <= 1 then px / 8 else if p <= 3 then px / 4 else if p <= 5 then px / 2 else px;
    j := if p <= 2 then py / 8 else if p <= 4 then py / 4 else py / 2;
    Quotients(px);
    Quotients(py);
    hide PassOf;
    if p == 0 {} else if p == 1 {} else if p == 2 {} else if p == 3 {} else if p == 4 {} else if p == 5 {} else {}
  }

  lemma Quotients(n: nat)
    ensures n == 8 * (n / 8) + n % 8 && n == 4 * (n / 4) + n % 8 % 4 && n == 2 * (n / 2) + n % 8 % 2
  {
    var q, r := n / 8, n % 8;
    SmallQuotients(n, q, r);
  }

  lemma SmallQuotients(n: nat, q: nat, r: nat)
    requires n == 8 * q + r && r < 8
    ensures n == 4 * (n / 4) + r % 4 && n == 2 * (n / 2) + r % 2
  {
    assert n / 4 == 2 * q + r / 4;
    assert n / 2 == 4 * q + r / 2;
  }

  /** The seven passes share the image out: each pixel is exactly one pixel of exactly one pass. */
  lemma Partition(width: nat, height: nat, px: nat, py: nat) returns (p: nat, i: nat, j: nat)
    requires px < width && py < height
    ensures p == PassOf(px, py) < 7 && i < PassWidth(width, p) && j < PassHeight(height, p)
    ensures px == XPos(p, i) && py == YPos(p, j)
    ensures forall q: nat, k: nat, l: nat | q < 7 && XPos(q, k) == px && YPos(q, l) == py :: q == p && k == i && l == j
  {
    p, i, j := Covered(px, py);
    WidthFacts(width, p, i);
    HeightFacts(height, p, j);
    forall q: nat, k: nat, l: nat | q < 7 && XPos(q, k) == px && YPos(q, l) == py
      ensures q == p && k == i && l == j
    {
      OnPattern(q, k, l);
      PosInjective(p, i, k);
      PosInjective(p, j, l);
    }
  }
}
