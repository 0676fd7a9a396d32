/** stbi__create_png_image: a PNG image in one piece, or scattered from the seven passes of Adam7. */
module PngInterlace {
  import opened Wrappers
  import opened Bits
  import opened PngFilter
  import opened PngImage
  import opened Adam7
  import opened Sizes

  /** Pixel n of an image in memory, pb bytes a pixel. */
  function PixelN(a: seq<byte>, pb: nat, n: nat): seq<byte>
  {
    if n * pb + pb <= |a| then a[n * pb..n * pb + pb] else []
  }

  /** The pixel in column px and row py of an image that is width pixels wide. */
  function PixelAt(a: seq<byte>, pb: nat, width: nat, px: nat, py: nat): seq<byte>
  {
    PixelN(a, pb, py * width + px)
  }

  lemma PixelsApart(m: nat, n: nat, pb: nat)
    requires m < n
    ensures m * pb + pb <= n * pb
  {
    assert (m + 1) * pb <= n * pb;
  }

  lemma PixelIndexInjective(width: nat, px: nat, py: nat, qx: nat, qy: nat)
    requires px < width && qx < width && py * width + px == qy * width + qx
    ensures px == qx && py == qy
  {
    if py < qy {
      PixelsApart(py, qy, width);
    } else if qy < py {
      PixelsApart(qy, py, width);
    }
  }

  /** Every pixel of the image lies inside it. */
  lemma PixelInside(width: nat, height: nat, pb: nat, px: nat, py: nat)
    requires px < width && py < height
    ensures (py * width + px) * pb + pb <= height * width * pb
  {
    PixelsApart(py, height, width);
    PixelsApart(py * width + px, height * width, pb);
  }

  lemma OtherPixel(before: seq<byte>, after: seq<byte>, n: nat, k: nat, pb: nat)
    requires |before| == |after| && k != n && n * pb + pb <= |before|
    requires forall i :: 0 <= i < |before| && !(n * pb <= i < n * pb + pb) ==> after[i] == before[i]
    ensures PixelN(after, pb, k) == PixelN(before, pb, k)
  {
    if k < n {
      PixelsApart(k, n, pb);
    } else {
      PixelsApart(n, k, pb);
    }
  }

  /** memcpy of one pixel. */
  method CopyPixel(dest: array<byte>, n: nat, src: array<byte>, m: nat, pb: nat)
    requires dest != src && n * pb + pb <= dest.Length && m * pb + pb <= src.Length
    modifies dest
    ensures PixelN(dest[..], pb, n) == PixelN(src[..], pb, m)
    ensures forall k: nat :: k != n ==> PixelN(dest[..], pb, k) == old(PixelN(dest[..], pb, k))
  {
    var at, from := n * pb, m * pb;
    forall i | 0 <= i < pb {
      dest[at + i] := src[from + i];
    }
    assert dest[at..at + pb] == src[from..from + pb];
    forall k: nat | k != n
      ensures PixelN(dest[..], pb, k) == old(PixelN(dest[..], pb, k))
    {
      OtherPixel(old(dest[..]), dest[..], n, k, pb);
    }
  }

  method PlacePixel(final: array<byte>, width: nat, height: nat, qx: nat, qy: nat,
                    src: array<byte>, x: nat, y: nat, i: nat, j: nat, pb: nat)
    requires final != src && qx < width && qy < height && i < x && j < y
    requires final.Length == height * width * pb && src.Length == y * x * pb
    modifies final
    ensures PixelAt(final[..], pb, width, qx, qy) == PixelAt(src[..], pb, x, i, j)
    ensures forall px: nat, py: nat :: px < width && (px != qx || py != qy) ==>
              PixelAt(final[..], pb, width, px, py) == old(PixelAt(final[..], pb, width, px, py))
  {
    hide PixelN;
    PixelInside(width, height, pb, qx, qy);
    PixelInside(x, y, pb, i, j);
    CopyPixel(final, qy * width + qx, src, j * x + i, pb);
    forall px: nat, py: nat | px < width && (px != qx || py != qy)
      ensures PixelAt(final[..], pb, width, px, py) == old(PixelAt(final[..], pb, width, px, py))
    {
      if py * width + px == qy * width + qx {
        PixelIndexInjective(width, px, py, qx, qy);
      }
    }
  }

  /** Row j of the pass up to column i, and all rows before it. */
  predicate Placed(i: nat, j: nat, toI: nat, toJ: nat)
  {
    j < toJ || (j == toJ && i < toI)
  }

  /** The pixels of pass p that have been placed are where Adam7 puts them. */
  ghost predicate PassPlaced(final: seq<byte>, pb: nat, width: nat, src: seq<byte>, p: nat, x: nat, toI: nat, toJ: nat)
    requires p < 7
  {
    forall i: nat, j: nat :: i < x && Placed(i, j, toI, toJ) ==>
      PixelAt(final, pb, width, XPos(p, i), YPos(p, j)) == PixelAt(src, pb, x, i, j)
  }

  /** Nothing outside pass p has changed. */
  ghost predicate OthersKept(before: seq<byte>, after: seq<byte>, pb: nat, width: nat, p: nat)
  {
    forall px: nat, py: nat :: px < width && PassOf(px, py) != p ==>
      PixelAt(after, pb, width, px, py) == PixelAt(before, pb, width, px, py)
  }

  /** The two loops that spread a pass over the image. */
  method Scatter(final: array<byte>, width: nat, height: nat, src: array<byte>, p: nat, x: nat, y: nat, pb: nat)
    requires final != src && p < 7 && x == PassWidth(width, p) && y == PassHeight(height, p)
    requires final.Length == height * width * pb && src.Length == y * x * pb
    modifies final
    ensures PassPlaced(final[..], pb, width, src[..], p, x, 0, y)
    ensures OthersKept(old(final[..]), final[..], pb, width, p)
  {
    hide PixelAt, PassOf, PassWidth, PassHeight, XPos, YPos;
    for j := 0 to y
      invariant PassPlaced(final[..], pb, width, src[..], p, x, 0, j)
      invariant OthersKept(old(final[..]), final[..], pb, width, p)
    {
      for i := 0 to x
        invariant PassPlaced(final[..], pb, width, src[..], p, x, i, j)
        invariant OthersKept(old(final[..]), final[..], pb, width, p)
      {
        WidthFacts(width, p, i);
        HeightFacts(height, p, j);
        OnPattern(p, i, j);
        ghost var before := final[..];
        PlacePixel(final, width, height, XPos(p, i), YPos(p, j), src, x, y, i, j, pb);
        PlacedNext(before, final[..], pb, width, src[..], p, x, i, j);
      }
      NextRow(final[..], pb, width, src[..], p, x, j);
    }
  }

  lemma NextRow(final: seq<byte>, pb: nat, width: nat, src: seq<byte>, p: nat, x: nat, j: nat)
    requires p < 7 && PassPlaced(final, pb, width, src, p, x, x, j)
    ensures PassPlaced(final, pb, width, src, p, x, 0, j + 1)
  {
    hide PixelAt, XPos, YPos;
  }

  lemma PlacedNext(before: seq<byte>, after: seq<byte>, pb: nat, width: nat, src: seq<byte>, p: nat, x: nat, i: nat,
                   j: nat)
    requires p < 7 && i < x && x == PassWidth(width, p) && PassPlaced(before, pb, width, src, p, x, i, j)
    requires PixelAt(after, pb, width, XPos(p, i), YPos(p, j)) == PixelAt(src, pb, x, i, j)
    requires forall px: nat, py: nat :: px < width && (px != XPos(p, i) || py != YPos(p, j)) ==>
               PixelAt(after, pb, width, px, py) == PixelAt(before, pb, width, px, py)
    ensures PassPlaced(after, pb, width, src, p, x, i + 1, j)
  {
    hide PixelAt, XPos, YPos, PassWidth;
    forall k: nat, l: nat | k < x && Placed(k, l, i + 1, j)
      ensures PixelAt(after, pb, width, XPos(p, k), YPos(p, l)) == PixelAt(src, pb, x, k, l)
    {
      if k != i || l != j {
        WidthFacts(width, p, k);
        PosInjective(p, k, i);
        PosInjective(p, l, j);
      }
    }
  }

  // ---- the passes in the stream ----

  predicate NonEmpty(width: nat, height: nat, p: nat)
    requires p < 7
  {
    PassWidth(width, p) != 0 && PassHeight(height, p) != 0
  }

  /** The bytes that pass p takes up. */
  function PassBytes(f: Format, width: nat, height: nat, p: nat): nat
    requires p < 7
  {
    if NonEmpty(width, height, p) then (f.LineBytes(PassWidth(width, p) * f.imgN) + 1) * PassHeight(height, p) else 0
  }

  /** Where the data of pass p starts: right after the passes before it. */
  function PassStart(f: Format, width: nat, height: nat, p: nat): nat
    requires p <= 7
  {
    if p == 0 then 0 else PassStart(f, width, height, p - 1) + PassBytes(f, width, height, p - 1)
  }

  function Drop(raw: seq<byte>, n: nat): seq<byte>
  {
    if n <= |raw| then raw[n..] else []
  }

  /** Pass p on its own, as a small image. */
  function PassImage(raw: seq<byte>, f: Format, width: nat, height: nat, p: nat): Option<seq<byte>>
    requires f.Ok() && p < 7 && NonEmpty(width, height, p)
  {
    RawImage(Drop(raw, PassStart(f, width, height, p)), f, PassWidth(width, p), PassHeight(height, p))
  }

  function PixelBytes(f: Format): nat
  {
    f.outN * f.Bytes()
  }

  /** Every pixel of the first n passes is in its place. */
  ghost predicate PassesPlaced(out: seq<byte>, raw: seq<byte>, f: Format, width: nat, height: nat, n: nat)
    requires f.Ok() && n <= 7
  {
    forall p: nat :: p < n && NonEmpty(width, height, p) ==>
      PassImage(raw, f, width, height, p).Some? &&
      PassPlaced(out, PixelBytes(f), width, PassImage(raw, f, width, height, p).value, p,
                 PassWidth(width, p), 0, PassHeight(height, p))
  }

  /** What the decoder requires: a size that is an int, and all passes that the image has. */
  ghost predicate AllPasses(raw: seq<byte>, f: Format, width: nat, height: nat)
    requires f.Ok()
  {
    && Mad3SizesValid(width, height, PixelBytes(f), 0)
    && forall p: nat :: p < 7 && NonEmpty(width, height, p) ==> PassImage(raw, f, width, height, p).Some?
  }

  /** stbi__create_png_image for interlaced images. */
  method CreateImageInterlaced(raw: seq<byte>, f: Format, width: nat, height: nat) returns (ok: bool, out: array<byte>)
    requires f.Ok()
    ensures ok <==> AllPasses(raw, f, width, height)
    ensures fresh(out) && (ok ==> out.Length == height * width * PixelBytes(f))
    ensures ok ==> PassesPlaced(out[..], raw, f, width, height, 7)
  {
    hide RawImage, PassWidth, PassHeight, PassPlaced, Columns, Rows7, Mad3SizesValid;
    if !Mad3SizesValid(width, height, PixelBytes(f), 0) {
      out := new byte[0];
      return false, out;
    }
    out := new byte[height * width * PixelBytes(f)];
    var pos := 0;
    for p := 0 to 7
      invariant pos == PassStart(f, width, height, p) <= |raw|
      invariant PassesPlaced(out[..], raw, f, width, height, p)
    {
      var x, y := Columns(width, p), Rows7(height, p);
      ColumnsAndRows(width, height, p);
      if x != 0 && y != 0 {
        var imgLen := (f.LineBytes(x * f.imgN) + 1) * y;
        var good, pass := CreateImageRaw(raw[pos..], f, x, y);
        if !good {
          assert PassImage(raw, f, width, height, p).None?;
          return false, out;
        }
        EnoughData(raw[pos..], f, x, y);
        ghost var before := out[..];
        SizeOfPass(pass.Length, y, x, f);
        Scatter(out, width, height, pass, p, x, y, PixelBytes(f));
        PassesKept(before, out[..], raw, f, width, height, p, pass[..]);
        pos := pos + imgLen;
      }
    }
    return true, out;
  }

  /** The column and row counts, as the decoder computes them. */
  function Columns(width: nat, p: nat): int
    requires p < 7
  {
    (width - XORIG[p] + XSPC[p] - 1) / XSPC[p]
  }

  function Rows7(height: nat, p: nat): int
    requires p < 7
  {
    (height - YORIG[p] + YSPC[p] - 1) / YSPC[p]
  }

  lemma ColumnsAndRows(width: nat, height: nat, p: nat)
    requires p < 7
    ensures Columns(width, p) == PassWidth(width, p) && Rows7(height, p) == PassHeight(height, p)
  {
    if p == 0 {} else if p == 1 {} else if p == 2 {} else if p == 3 {} else if p == 4 {} else if p == 5 {} else {}
  }

  lemma EnoughData(raw: seq<byte>, f: Format, x: nat, y: nat)
    requires f.Ok() && 1 <= x && RawImage(raw, f, x, y).Some?
    ensures (f.LineBytes(x * f.imgN) + 1) * y <= |raw|
  {
  }

  lemma SizeOfPass(length: nat, y: nat, x: nat, f: Format)
    requires length == y * (x * f.outN * f.Bytes())
    ensures length == y * x * PixelBytes(f)
  {
    assert x * f.outN * f.Bytes() == x * PixelBytes(f);
    assert y * (x * PixelBytes(f)) == y * x * PixelBytes(f);
  }

  lemma PassesKept(before: seq<byte>, after: seq<byte>, raw: seq<byte>, f: Format, width: nat, height: nat, p: nat,
                   pass: seq<byte>)
    requires f.Ok() && p < 7 && NonEmpty(width, height, p) && PassImage(raw, f, width, height, p) == Some(pass)
    requires PassesPlaced(before, raw, f, width, height, p)
    requires PassPlaced(after, PixelBytes(f), width, pass, p, PassWidth(width, p), 0, PassHeight(height, p))
    requires OthersKept(before, after, PixelBytes(f), width, p)
    ensures PassesPlaced(after, raw, f, width, height, p + 1)
  {
    hide RawImage, PassWidth, PassHeight, PixelAt, XPos, YPos, PassOf, PassImage;
    forall q: nat | q < p && NonEmpty(width, height, q)
      ensures PassPlaced(after, PixelBytes(f), width, PassImage(raw, f, width, height, q).value, q,
                         PassWidth(width, q), 0, PassHeight(height, q))
    {
      var src := PassImage(raw, f, width, height, q).value;
      forall i: nat, j: nat | i < PassWidth(width, q) && Placed(i, j, 0, PassHeight(height, q))
        ensures PixelAt(after, PixelBytes(f), width, XPos(q, i), YPos(q, j))
          == PixelAt(src, PixelBytes(f), PassWidth(width, q), i, j)
      {
        OnPattern(q, i, j);
        WidthFacts(width, q, i);
      }
    }
  }

  /** Every pixel of an interlaced image comes from the pass that Adam7 assigns to it. */
  lemma EveryPixel(out: seq<byte>, raw: seq<byte>, f: Format, width: nat, height: nat, px: nat, py: nat)
    returns (p: nat, i: nat, j: nat)
    requires f.Ok() && px < width && py < height && PassesPlaced(out, raw, f, width, height, 7)
    ensures p == PassOf(px, py) < 7 && NonEmpty(width, height, p) && PassImage(raw, f, width, height, p).Some?
    ensures px == XPos(p, i) && py == YPos(p, j)
    ensures PixelAt(out, PixelBytes(f), width, px, py) ==
            PixelAt(PassImage(raw, f, width, height, p).value, PixelBytes(f), PassWidth(width, p), i, j)
  {
    hide RawImage, PassWidth, PassHeight, PixelAt, XPos, YPos, PassImage;
    p, i, j := Partition(width, height, px, py);
  }
}
