/** What an encoder following RFC 2083 puts into the data of an interlaced image, and that decoding the seven passes
    gives the pixels of the whole image back. */
module PngPasses {
  import opened Wrappers
  import opened Bits
  import opened PngFilter
  import opened PngImage
  import opened Adam7
  import opened Sizes
  import opened PngInterlace
  import opened PngRoundTrip

  // ---- the pixels of an image, one by one ----

  /** The samples of pixel px of a row, n to a pixel. */
  function PixelSamples(s: seq<nat>, n: nat, px: nat): seq<nat>
    requires px * n + n <= |s|
  {
    s[px * n..px * n + n]
  }

  lemma ScaledSlice(s: seq<nat>, factor: nat, from: nat, to: nat)
    requires from <= to <= |s|
    ensures Scaled(s, factor)[from..to] == Scaled(s[from..to], factor)
  {
    hide Scaled;
  }

  lemma AlphaSlice(s: seq<nat>, n: nat, v: nat, x: nat, px: nat)
    requires n in {1, 3} && |s| == x * n && px < x
    ensures px * n + n <= |s| && |AddAlpha(s, n, v)| == x * (n + 1) && px * (n + 1) + n + 1 <= x * (n + 1)
    ensures AddAlpha(s, n, v)[px * (n + 1)..px * (n + 1) + n + 1] == AddAlpha(s[px * n..px * n + n], n, v)
  {
    if n == 1 {
      assert s[px..px + 1] == [s[px]];
    } else {
      assert s[px * 3..px * 3 + 3] == [s[px * 3], s[px * 3 + 1], s[px * 3 + 2]];
    }
  }

  lemma ByteSlice(t: seq<nat>, f: Format, at: nat, m: nat)
    requires f.depth != 16 && at + m <= |t|
    ensures |ToBytes(t, f)| == |t| && ToBytes(t, f)[at..at + m] == ToBytes(t[at..at + m], f)
  {
  }

  lemma ShortSlice(t: seq<nat>, f: Format, at: nat, m: nat)
    requires f.depth == 16 && at + m <= |t|
    ensures |ToBytes(t, f)| == 2 * |t| && ToBytes(t, f)[2 * at..2 * at + 2 * m] == ToBytes(t[at..at + m], f)
  {
    hide Native;
    var a, b := ToBytes(t, f)[2 * at..2 * at + 2 * m], ToBytes(t[at..at + m], f);
    forall k | 0 <= k < 2 * m
      ensures a[k] == b[k]
    {
      assert a[k] == ToBytes(t, f)[2 * at + k];
      assert (2 * at + k) / 2 == at + k / 2 && (2 * at + k) % 2 == k % 2;
    }
  }

  /** The bytes of pixel px of a list of x pixels. */
  lemma PixelSlice(t: seq<nat>, f: Format, x: nat, px: nat)
    requires |t| == x * f.outN && px < x
    ensures px * f.outN + f.outN <= |t| && |ToBytes(t, f)| == x * PixelBytes(f)
    ensures px * PixelBytes(f) + PixelBytes(f) <= x * PixelBytes(f)
    ensures PixelN(ToBytes(t, f), PixelBytes(f), px) == ToBytes(t[px * f.outN..px * f.outN + f.outN], f)
  {
    hide ToBytes;
    PixelsApart(px, x, f.outN);
    PixelsApart(px, x, PixelBytes(f));
    Associate(px, f.outN, f.Bytes());
    Associate(x, f.outN, f.Bytes());
    if f.depth == 16 {
      ShortSlice(t, f, px * f.outN, f.outN);
    } else {
      ByteSlice(t, f, px * f.outN, f.outN);
    }
  }

  function WithAlpha(s: seq<nat>, f: Format): seq<nat>
  {
    if f.outN == f.imgN then s else AddAlpha(s, f.imgN, if f.depth == 16 then 0xFFFF else 0xFF)
  }

  lemma WithAlphaSlice(s: seq<nat>, f: Format, x: nat, px: nat)
    requires f.Ok() && |s| == x * f.imgN && px < x
    ensures px * f.imgN + f.imgN <= |s| && |WithAlpha(s, f)| == x * f.outN && px * f.outN + f.outN <= x * f.outN
    ensures WithAlpha(s, f)[px * f.outN..px * f.outN + f.outN] == WithAlpha(PixelSamples(s, f.imgN, px), f)
  {
    hide AddAlpha;
    PixelsApart(px, x, f.imgN);
    if f.outN != f.imgN {
      AlphaSlice(s, f.imgN, if f.depth == 16 then 0xFFFF else 0xFF, x, px);
    }
  }

  /** Pixel px of the row of pixels that a row of samples stands for. */
  lemma MeantSlice(s: seq<nat>, f: Format, x: nat, px: nat)
    requires f.Ok() && |s| == x * f.imgN && px < x
    ensures px * f.imgN + f.imgN <= |s| && |Meant(s, f)| == x * PixelBytes(f)
    ensures px * PixelBytes(f) + PixelBytes(f) <= |Meant(s, f)|
    ensures PixelN(Meant(s, f), PixelBytes(f), px) == Meant(PixelSamples(s, f.imgN, px), f)
  {
    hide Scaled, WithAlpha, ToBytes, PixelBytes, PixelN, Meant, ScaleFactor;
    var factor := ScaleFactor(f.depth, f.color);
    PixelsApart(px, x, f.imgN);
    ScaledSlice(s, factor, px * f.imgN, px * f.imgN + f.imgN);
    WithAlphaSlice(Scaled(s, factor), f, x, px);
    PixelSlice(WithAlpha(Scaled(s, factor), f), f, x, px);
    MeantIs(s, f);
    MeantIs(PixelSamples(s, f.imgN, px), f);
  }

  lemma MeantIs(s: seq<nat>, f: Format)
    requires f.Ok()
    ensures Meant(s, f) == ToBytes(WithAlpha(Scaled(s, ScaleFactor(f.depth, f.color)), f), f)
  {
  }

  /** The pixel in column px and row py of the image that the samples stand for. */
  lemma {:induction false} MeantPixel(image: seq<seq<nat>>, f: Format, x: nat, px: nat, py: nat)
    requires Image(image, f, x) && px < x && py < |image|
    ensures px * f.imgN + f.imgN <= |image[py]|
    ensures PixelAt(MeantImage(image, f), PixelBytes(f), x, px, py) == Meant(PixelSamples(image[py], f.imgN, px), f)
  {
    hide Meant, PixelBytes, InRange, PixelSamples;
    var n := |image| - 1;
    MeantSlice(image[py], f, x, px);
    MeantLength(image[..n], f, x);
    if py == n {
      LastPixel(MeantImage(image[..n], f), Meant(image[n], f), PixelBytes(f), n * x, px);
    } else {
      MeantPixel(image[..n], f, x, px, py);
      PixelInside(x, n, PixelBytes(f), px, py);
      EarlierPixel(MeantImage(image[..n], f), Meant(image[n], f), PixelBytes(f), py * x + px);
    }
  }

  lemma LastPixel(a: seq<byte>, b: seq<byte>, pb: nat, n: nat, k: nat)
    requires |a| == n * pb && k * pb + pb <= |b|
    ensures PixelN(a + b, pb, n + k) == PixelN(b, pb, k)
  {
    assert (n + k) * pb == |a| + k * pb;
  }

  lemma EarlierPixel(a: seq<byte>, b: seq<byte>, pb: nat, k: nat)
    requires k * pb + pb <= |a|
    ensures PixelN(a + b, pb, k) == PixelN(a, pb, k)
  {
  }

  lemma {:induction false} MeantLength(image: seq<seq<nat>>, f: Format, x: nat)
    requires Image(image, f, x)
    ensures |MeantImage(image, f)| == |image| * x * PixelBytes(f)
  {
    hide Meant, PixelBytes, InRange;
    if image != [] {
      var n := |image| - 1;
      MeantLength(image[..n], f, x);
      RowOfPixels(image[n], f, x);
      OneMoreRow(n, x, PixelBytes(f));
    }
  }

  lemma OneMoreRow(n: nat, x: nat, pb: nat)
    ensures (n + 1) * x * pb == n * x * pb + x * pb
  {
    assert (n + 1) * x == n * x + x;
  }

  lemma RowOfPixels(s: seq<nat>, f: Format, x: nat)
    requires f.Ok() && |s| == x * f.imgN
    ensures |Meant(s, f)| == x * PixelBytes(f)
  {
    if x > 0 {
      MeantSlice(s, f, x, 0);
    }
  }

  /** Images of the same size with the same pixels are equal. */
  lemma SamePixels(a: seq<byte>, b: seq<byte>, pb: nat, width: nat, height: nat)
    requires |a| == |b| == height * width * pb
    requires forall px: nat, py: nat :: px < width && py < height ==>
      PixelAt(a, pb, width, px, py) == PixelAt(b, pb, width, px, py)
    ensures a == b
  {
    hide PixelAt;
    forall k: nat | k < |a|
      ensures a[k] == b[k]
    {
      var px, py, c := PixelOfByte(width, height, pb, k);
      SameByte(a, b, pb, width, px, py, c, k);
    }
  }

  lemma SameByte(a: seq<byte>, b: seq<byte>, pb: nat, width: nat, px: nat, py: nat, c: nat, k: nat)
    requires PixelAt(a, pb, width, px, py) == PixelAt(b, pb, width, px, py)
    requires |a| == |b| && c < pb && (py * width + px) * pb + pb <= |a| && k == (py * width + px) * pb + c
    ensures a[k] == b[k]
  {
    var n := py * width + px;
    assert PixelN(a, pb, n)[c] == a[n * pb + c] && PixelN(b, pb, n)[c] == b[n * pb + c];
  }

  lemma PixelOfByte(width: nat, height: nat, pb: nat, k: nat) returns (px: nat, py: nat, c: nat)
    requires k < height * width * pb
    ensures px < width && py < height && c < pb && k == (py * width + px) * pb + c
    ensures (py * width + px) * pb + pb <= height * width * pb
  {
    var n;
    n, c := Divide(k, height * width, pb);
    py, px := Divide(n, height, width);
    PixelInside(width, height, pb, px, py);
  }

  lemma Divide(k: nat, n: nat, d: nat) returns (q: nat, r: nat)
    requires k < n * d
    ensures k == q * d + r && q < n && r < d
  {
    q, r := k / d, k % d;
    LargerFactor(q, n, d);
  }

  lemma LargerFactor(q: nat, n: nat, d: nat)
    ensures q >= n ==> q * d >= n * d
  {
  }

  // ---- the image data ----

  /** The first m pixels of the row of pass p that comes from a row of the image. */
  function PassRow(s: seq<nat>, f: Format, width: nat, p: nat, m: nat): (r: seq<nat>)
    requires p < 7 && |s| == width * f.imgN && m <= PassWidth(width, p)
    ensures |r| == m * f.imgN
    decreases m
  {
    hide PassWidth, XPos;
    if m == 0 then []
    else
      WidthFacts(width, p, m - 1);
      PixelsApart(XPos(p, m - 1), width, f.imgN);
      Distribute(m - 1, f.imgN);
      PassRow(s, f, width, p, m - 1) + PixelSamples(s, f.imgN, XPos(p, m - 1))
  }

  lemma {:induction false} PassRowInRange(s: seq<nat>, f: Format, width: nat, p: nat, m: nat)
    requires p < 7 && |s| == width * f.imgN && m <= PassWidth(width, p) && InRange(s, f.depth)
    ensures InRange(PassRow(s, f, width, p, m), f.depth)
  {
    hide PassWidth, XPos;
    if m > 0 {
      WidthFacts(width, p, m - 1);
      PixelsApart(XPos(p, m - 1), width, f.imgN);
      PassRowInRange(s, f, width, p, m - 1);
    }
  }

  /** Pixel i of that row is the pixel of the image that Adam7 says. */
  lemma {:induction false} PassRowPixel(s: seq<nat>, f: Format, width: nat, p: nat, m: nat, i: nat)
    requires p < 7 && |s| == width * f.imgN && i < m <= PassWidth(width, p)
    ensures i * f.imgN + f.imgN <= m * f.imgN && XPos(p, i) * f.imgN + f.imgN <= |s|
    ensures PixelSamples(PassRow(s, f, width, p, m), f.imgN, i) == PixelSamples(s, f.imgN, XPos(p, i))
  {
    hide PassWidth, XPos;
    WidthFacts(width, p, i);
    PixelsApart(XPos(p, i), width, f.imgN);
    WidthFacts(width, p, m - 1);
    PixelsApart(XPos(p, m - 1), width, f.imgN);
    PixelsApart(i, m, f.imgN);
    AppendedPixel(PassRow(s, f, width, p, m - 1), PixelSamples(s, f.imgN, XPos(p, m - 1)), f.imgN, m - 1, i);
    if i < m - 1 {
      PassRowPixel(s, f, width, p, m - 1, i);
    }
  }

  lemma AppendedPixel(a: seq<nat>, b: seq<nat>, n: nat, m: nat, i: nat)
    requires |a| == m * n && |b| == n && i <= m
    ensures i * n + n <= |a + b| && (i < m ==> i * n + n <= |a|)
    ensures PixelSamples(a + b, n, i) == if i < m then PixelSamples(a, n, i) else b
  {
    if i < m {
      PixelsApart(i, m, n);
    }
  }

  function RowOfPass(image: seq<seq<nat>>, f: Format, width: nat, p: nat, j: nat): (r: seq<nat>)
    requires Image(image, f, width) && p < 7 && j < PassHeight(|image|, p)
    ensures |r| == PassWidth(width, p) * f.imgN && InRange(r, f.depth)
  {
    hide PassWidth, PassHeight, YPos, InRange, PassRow;
    HeightFacts(|image|, p, j);
    PassRowInRange(image[YPos(p, j)], f, width, p, PassWidth(width, p));
    PassRow(image[YPos(p, j)], f, width, p, PassWidth(width, p))
  }

  /** The pixels of pass p, as an image of their own. */
  function PassOfImage(image: seq<seq<nat>>, f: Format, width: nat, p: nat): (r: seq<seq<nat>>)
    requires Image(image, f, width) && p < 7
    ensures |r| == PassHeight(|image|, p) && Image(r, f, PassWidth(width, p))
  {
    hide PassWidth, PassHeight, InRange, RowOfPass;
    seq(PassHeight(|image|, p), j requires 0 <= j < PassHeight(|image|, p) => RowOfPass(image, f, width, p, j))
  }

  lemma PassPixel(image: seq<seq<nat>>, f: Format, width: nat, p: nat, i: nat, j: nat)
    requires Image(image, f, width) && p < 7 && i < PassWidth(width, p) && j < PassHeight(|image|, p)
    ensures YPos(p, j) < |image| && XPos(p, i) < width
    ensures PixelAt(MeantImage(PassOfImage(image, f, width, p), f), PixelBytes(f), PassWidth(width, p), i, j)
            == PixelAt(MeantImage(image, f), PixelBytes(f), width, XPos(p, i), YPos(p, j))
  {
    hide PassWidth, PassHeight, XPos, YPos, InRange, PassRow, MeantImage, Meant, PixelAt, PixelBytes;
    WidthFacts(width, p, i);
    HeightFacts(|image|, p, j);
    MeantPixel(image, f, width, XPos(p, i), YPos(p, j));
    MeantPixel(PassOfImage(image, f, width, p), f, PassWidth(width, p), i, j);
    PassRowPixel(image[YPos(p, j)], f, width, p, PassWidth(width, p), i);
  }

  /** A filter type for each row of each pass. */
  predicate Types(types: seq<seq<byte>>, height: nat)
  {
    |types| == 7 && forall p: nat :: p < 7 ==> OfPass(types[p], height, p)
  }

  predicate OfPass(types: seq<byte>, height: nat, p: nat)
    requires p < 7
  {
    |types| == PassHeight(height, p) && forall j :: 0 <= j < |types| ==> types[j] <= 4
  }

  /** Pass p: nothing if it has no pixels, and else its scanlines, packed and filtered. */
  function PassData(image: seq<seq<nat>>, types: seq<byte>, f: Format, width: nat, p: nat): seq<byte>
    requires Image(image, f, width) && p < 7 && OfPass(types, |image|, p)
  {
    if !NonEmpty(width, |image|, p) then []
    else
      var x := PassWidth(width, p);
      LineFacts(f, x);
      FilterImage(PackAll(PassOfImage(image, f, width, p), f, x), types, f.FilterBytes(),
                  Zeros(f.LineBytes(x * f.imgN)))
  }

  /** The passes from p on, one after the other. */
  function PassesData(image: seq<seq<nat>>, types: seq<seq<byte>>, f: Format, width: nat, p: nat): seq<byte>
    requires Image(image, f, width) && Types(types, |image|) && p <= 7
    decreases 7 - p
  {
    if p == 7 then [] else PassData(image, types[p], f, width, p) + PassesData(image, types, f, width, p + 1)
  }

  lemma PassDataLength(image: seq<seq<nat>>, types: seq<byte>, f: Format, width: nat, p: nat)
    requires Image(image, f, width) && p < 7 && OfPass(types, |image|, p)
    ensures |PassData(image, types, f, width, p)| == PassBytes(f, width, |image|, p)
  {
    hide PassWidth, PassHeight, PassOfImage, FilterImage, PackAll, InRange, Format.LineBytes, Format.FilterBytes, Zeros;
    if NonEmpty(width, |image|, p) {
      var x := PassWidth(width, p);
      LineFacts(f, x);
      FilteredLength(PackAll(PassOfImage(image, f, width, p), f, x), types, f.FilterBytes(),
                     Zeros(f.LineBytes(x * f.imgN)));
    }
  }

  /** Each pass starts where the decoder looks for it. */
  lemma {:induction false} PassesStart(image: seq<seq<nat>>, types: seq<seq<byte>>, f: Format, width: nat, p: nat,
                                       extra: seq<byte>)
    requires Image(image, f, width) && Types(types, |image|) && p <= 7
    ensures Drop(PassesData(image, types, f, width, 0) + extra, PassStart(f, width, |image|, p))
            == PassesData(image, types, f, width, p) + extra
    ensures PassStart(f, width, |image|, p) <= |PassesData(image, types, f, width, 0) + extra|
    decreases p
  {
    hide PassData, PassBytes, InRange, OfPass, PassesData, Drop;
    if p == 0 {
      NothingDropped(PassesData(image, types, f, width, 0) + extra);
    } else {
      PassesStart(image, types, f, width, p - 1, extra);
      PassDataLength(image, types[p - 1], f, width, p - 1);
      PassesFrom(image, types, f, width, p - 1, extra);
      DropMore(PassesData(image, types, f, width, 0) + extra, PassStart(f, width, |image|, p - 1),
               PassData(image, types[p - 1], f, width, p - 1), PassesData(image, types, f, width, p) + extra);
    }
  }

  lemma NothingDropped(data: seq<byte>)
    ensures Drop(data, 0) == data
  {
  }

  lemma DropMore(data: seq<byte>, n: nat, a: seq<byte>, b: seq<byte>)
    requires n <= |data| && Drop(data, n) == a + b
    ensures n + |a| <= |data| && Drop(data, n + |a|) == b
  {
    assert data[n + |a|..] == data[n..][|a|..];
  }

  lemma PassesFrom(image: seq<seq<nat>>, types: seq<seq<byte>>, f: Format, width: nat, p: nat, extra: seq<byte>)
    requires Image(image, f, width) && Types(types, |image|) && p < 7
    ensures PassesData(image, types, f, width, p) + extra
            == PassData(image, types[p], f, width, p) + (PassesData(image, types, f, width, p + 1) + extra)
  {
    hide PassData, InRange;
  }

  /** Every pass is decoded to its own pixels, with the other passes and anything else around it. */
  lemma PassDecodes(image: seq<seq<nat>>, types: seq<seq<byte>>, f: Format, width: nat, p: nat, extra: seq<byte>)
    requires Image(image, f, width) && Types(types, |image|) && p < 7 && NonEmpty(width, |image|, p)
    requires SizesFit(f, PassWidth(width, p), PassHeight(|image|, p))
    ensures PassImage(PassesData(image, types, f, width, 0) + extra, f, width, |image|, p)
            == Some(MeantImage(PassOfImage(image, f, width, p), f))
  {
    hide PassWidth, PassHeight, PassOfImage, InRange, PassData, MeantImage, SizesFit, Drop, PassStart, RawImage;
    hide PassesData;
    PassesStart(image, types, f, width, p, extra);
    PassesFrom(image, types, f, width, p, extra);
    PassAlone(image, types[p], f, width, p, PassesData(image, types, f, width, p + 1) + extra);
  }

  lemma PassAlone(image: seq<seq<nat>>, types: seq<byte>, f: Format, width: nat, p: nat, rest: seq<byte>)
    requires Image(image, f, width) && p < 7 && NonEmpty(width, |image|, p) && OfPass(types, |image|, p)
    requires SizesFit(f, PassWidth(width, p), PassHeight(|image|, p))
    ensures RawImage(PassData(image, types, f, width, p) + rest, f, PassWidth(width, p), PassHeight(|image|, p))
            == Some(MeantImage(PassOfImage(image, f, width, p), f))
  {
    hide PassWidth, PassHeight, PassOfImage, FilterImage, PackAll, InRange, Format.LineBytes, Format.FilterBytes, Zeros;
    hide MeantImage, SizesFit, RawImage;
    ImageRoundTrip(PassOfImage(image, f, width, p), types, f, PassWidth(width, p), rest);
  }

  /** The size checks of the decoder for the image and for its passes. */
  ghost predicate PassesFit(f: Format, width: nat, height: nat)
  {
    && Mad3SizesValid(width, height, PixelBytes(f), 0)
    && forall p: nat :: p < 7 && NonEmpty(width, height, p) ==> SizesFit(f, PassWidth(width, p), PassHeight(height, p))
  }

  /** An image that passes the checks as it is also passes them interlaced. */
  lemma PassesFitToo(f: Format, width: nat, height: nat)
    requires f.Ok() && 1 <= width && SizesFit(f, width, height)
    ensures PassesFit(f, width, height)
  {
    hide PassWidth, PassHeight, Mad3SizesValid, Mad2SizesValid;
    assert Mad3SizesValid(width, height, PixelBytes(f), 0);
    hide SizesFit;
    forall p: nat | p < 7 && NonEmpty(width, height, p)
      ensures SizesFit(f, PassWidth(width, p), PassHeight(height, p))
    {
      PassIsSmaller(width, height, p);
      SmallerFits(f, width, height, PassWidth(width, p), PassHeight(height, p));
    }
  }

  lemma PassIsSmaller(width: nat, height: nat, p: nat)
    requires p < 7
    ensures PassWidth(width, p) <= width && PassHeight(height, p) <= height
  {
    if p == 0 {} else if p == 1 {} else if p == 2 {} else if p == 3 {} else if p == 4 {} else if p == 5 {} else {}
  }

  lemma SmallerFits(f: Format, x: nat, y: nat, x': nat, y': nat)
    requires f.Ok() && 1 <= x' <= x && y' <= y && SizesFit(f, x, y)
    ensures SizesFit(f, x', y')
  {
    hide SizesFit;
    SizesFitIff(f, x, y);
    SizesFitIff(f, x', y');
    var w, w' := f.LineBytes(x * f.imgN), f.LineBytes(x' * f.imgN);
    SmallerProduct(x', y', x, y);
    SmallerProduct(x' * y', f.outN * f.Bytes(), x * y, f.outN * f.Bytes());
    SmallerProduct(f.imgN, x', f.imgN, x);
    SmallerProduct(f.imgN * x', f.depth, f.imgN * x, f.depth);
    assert w' <= w;
    SmallerProduct(w', y', w, y);
  }

  lemma SmallerProduct(a: nat, b: nat, c: nat, d: nat)
    requires a <= c && b <= d
    ensures a * b <= c * d
  {
  }

  /** Decoding inverts interlaced encoding: whatever filter types are chosen and whatever follows, no pass is missing,
      and an image in which all passes have been placed is the image that the samples stand for. */
  lemma InterlacedRoundTrip(image: seq<seq<nat>>, types: seq<seq<byte>>, f: Format, width: nat, extra: seq<byte>,
                            out: seq<byte>)
    requires Image(image, f, width) && Types(types, |image|) && PassesFit(f, width, |image|)
    ensures var raw := PassesData(image, types, f, width, 0) + extra;
      && AllPasses(raw, f, width, |image|)
      && (|out| == |image| * width * PixelBytes(f) && PassesPlaced(out, raw, f, width, |image|, 7)
          ==> out == MeantImage(image, f))
  {
    hide NonEmpty, InRange, Types, PassesData, PassImage, MeantImage, SizesFit, Mad3SizesValid, PassWidth, PassHeight;
    hide PassesPlaced;
    var raw := PassesData(image, types, f, width, 0) + extra;
    forall p: nat | p < 7 && NonEmpty(width, |image|, p)
      ensures PassImage(raw, f, width, |image|, p).Some?
    {
      PassDecodes(image, types, f, width, p, extra);
    }
    if |out| == |image| * width * PixelBytes(f) && PassesPlaced(out, raw, f, width, |image|, 7) {
      forall px: nat, py: nat | px < width && py < |image|
        ensures PixelAt(out, PixelBytes(f), width, px, py)
          == PixelAt(MeantImage(image, f), PixelBytes(f), width, px, py)
      {
        PixelDecodes(image, types, f, width, extra, out, px, py);
      }
      MeantLength(image, f, width);
      SamePixels(out, MeantImage(image, f), PixelBytes(f), width, |image|);
    }
  }

  lemma PixelDecodes(image: seq<seq<nat>>, types: seq<seq<byte>>, f: Format, width: nat, extra: seq<byte>,
                     out: seq<byte>, px: nat, py: nat)
    requires Image(image, f, width) && Types(types, |image|) && PassesFit(f, width, |image|)
    requires PassesPlaced(out, PassesData(image, types, f, width, 0) + extra, f, width, |image|, 7)
    requires px < width && py < |image|
    ensures PixelAt(out, PixelBytes(f), width, px, py) == PixelAt(MeantImage(image, f), PixelBytes(f), width, px, py)
  {
    hide InRange, Types, PassesData, PassImage, MeantImage, SizesFit, Mad3SizesValid, PassWidth, PassHeight;
    hide PassesPlaced;
    hide PixelAt, XPos, YPos, PassOf, PixelBytes;
    var p, i, j := EveryPixel(out, PassesData(image, types, f, width, 0) + extra, f, width, |image|, px, py);
    WidthFacts(width, p, i);
    HeightFacts(|image|, p, j);
    PassDecodes(image, types, f, width, p, extra);
    PassPixel(image, f, width, p, i, j);
  }
}
