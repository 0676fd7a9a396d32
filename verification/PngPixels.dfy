/** What the bytes of a decoded PNG image are, in terms of the samples of its scanlines. */
module PngPixels {
  import opened Wrappers
  import opened Bits
  import opened PngFilter
  import opened Sizes
  import opened PngImage
  import opened PngInterlace
  import opened PngRoundTrip
  import opened PngPasses

  /** A byte for a sample of up to 8 bits: gray of fewer than 8 bits is spread over 0 to 255, everything else is kept.
      */
  predicate ByteSays(b: byte, v: nat, depth: nat, color: nat)
    requires depth in {1, 2, 4, 8}
  {
    if color == 0 && depth == 1 then b == 255 * v
    else if color == 0 && depth == 2 then 3 * (b as int) == 255 * v
    else if color == 0 && depth == 4 then 15 * (b as int) == 255 * v
    else b == v
  }

  /** Two bytes for a 16-bit sample, in the order of the platform. */
  predicate WordSays(a: byte, b: byte, v: nat, little: bool)
  {
    if little then a as int + 256 * (b as int) == v else 256 * (a as int) + b == v
  }

  /** The bytes p of a pixel say its samples t; an alpha that the image does not have is opaque. */
  predicate Says(p: seq<byte>, t: seq<nat>, f: Format)
  {
    && f.Ok() && |t| == f.imgN
    && if f.depth == 16 then
         && |p| == 2 * f.outN
         && (forall c :: 0 <= c < f.imgN ==> WordSays(p[2 * c], p[2 * c + 1], t[c], f.little))
         && (f.imgN < f.outN ==> p[2 * f.imgN] == p[2 * f.imgN + 1] == 255)
       else
         && |p| == f.outN
         && (forall c :: 0 <= c < f.imgN ==> ByteSays(p[c], t[c], f.depth, f.color))
         && (f.imgN < f.outN ==> p[f.imgN] == 255)
  }

  // ---- one pixel ----

  lemma AlphaAt(s: seq<nat>, f: Format)
    requires f.Ok() && |s| == f.imgN
    ensures var a := WithAlpha(s, f);
      && |a| == f.outN && (forall c :: 0 <= c < f.imgN ==> a[c] == s[c])
      && (f.imgN < f.outN ==> a[f.imgN] == if f.depth == 16 then 65535 else 255)
  {
    if f.outN != f.imgN {
      if f.imgN == 1 {
      } else {
      }
    }
  }

  lemma ScaledSays(v: nat, f: Format)
    requires f.depth in {1, 2, 4, 8} && v < Pow2(f.depth)
    ensures v * ScaleFactor(f.depth, f.color) < 256
    ensures ByteSays(v * ScaleFactor(f.depth, f.color), v, f.depth, f.color)
  {
    Pow2Values();
  }

  lemma WordIs(v: nat, little: bool)
    requires v < 65536
    ensures WordSays(Native(v, 0, little), Native(v, 1, little), v, little)
  {
  }

  /** The bytes of one pixel. */
  lemma PixelSays(t: seq<nat>, f: Format)
    requires f.Ok() && |t| == f.imgN && InRange(t, f.depth)
    ensures Says(Meant(t, f), t, f)
  {
    hide WithAlpha, ToBytes, Scaled, ByteSays, WordSays, Pow2, Meant, ScaleFactor;
    Pow2Values();
    MeantIs(t, f);
    var factor := ScaleFactor(f.depth, f.color);
    var s := Scaled(t, factor);
    var a := WithAlpha(s, f);
    AlphaAt(s, f);
    if f.depth == 16 {
      Unscaled(f);
      WideBytes(a, f);
      forall c | 0 <= c < f.imgN
        ensures WordSays(Meant(t, f)[2 * c], Meant(t, f)[2 * c + 1], t[c], f.little)
      {
        WordIs(t[c], f.little);
      }
      OpaqueWord(f.little);
    } else {
      NarrowBytes(a, f);
      forall c | 0 <= c < f.imgN
        ensures ByteSays(Meant(t, f)[c], t[c], f.depth, f.color)
      {
        ScaledSays(t[c], f);
      }
    }
  }

  lemma Unscaled(f: Format)
    ensures f.depth == 16 ==> ScaleFactor(f.depth, f.color) == 1
  {
  }

  lemma OpaqueWord(little: bool)
    ensures Native(65535, 0, little) == Native(65535, 1, little) == 255
  {
  }

  lemma WideBytes(a: seq<nat>, f: Format)
    requires f.depth == 16
    ensures var b := ToBytes(a, f);
      && |b| == 2 * |a|
      && forall c :: 0 <= c < |a| ==> b[2 * c] == Native(a[c], 0, f.little) && b[2 * c + 1] == Native(a[c], 1, f.little)
  {
    hide Native;
  }

  lemma NarrowBytes(a: seq<nat>, f: Format)
    requires f.depth != 16
    ensures |ToBytes(a, f)| == |a| && forall c :: 0 <= c < |a| ==> ToBytes(a, f)[c] == a[c] % 256
  {
  }

  /** In the image that samples stand for every pixel says its samples. */
  lemma ImageSays(image: seq<seq<nat>>, f: Format, x: nat, px: nat, py: nat)
    requires Image(image, f, x) && px < x && py < |image|
    ensures px * f.imgN + f.imgN <= |image[py]|
    ensures Says(PixelAt(MeantImage(image, f), PixelBytes(f), x, px, py), PixelSamples(image[py], f.imgN, px), f)
  {
    hide MeantImage, Meant, PixelAt, Says;
    MeantPixel(image, f, x, px, py);
    PixelSays(PixelSamples(image[py], f.imgN, px), f);
  }

  // ---- any image data ----

  /** The samples of a scanline. */
  function RowSamples(row: seq<byte>, f: Format, n: nat): (r: seq<nat>)
    requires f.Ok() && n * f.depth <= 8 * |row|
    ensures |r| == n
  {
    EnoughSamples(|row|, f.depth, n);
    seq(n, k requires 0 <= k < n => SampleAt(row, f.depth, k))
  }

  lemma RowInRange(row: seq<byte>, f: Format, n: nat)
    requires f.Ok() && n * f.depth <= 8 * |row|
    ensures InRange(RowSamples(row, f, n), f.depth)
  {
    hide SampleAt, SamplesIn;
    EnoughSamples(|row|, f.depth, n);
    forall k | 0 <= k < n
      ensures RowSamples(row, f, n)[k] < Pow2(f.depth)
    {
      SampleInRange(row, f.depth, k);
    }
  }

  lemma SampleInRange(row: seq<byte>, depth: nat, k: nat)
    requires depth in {1, 2, 4, 8, 16} && k < SamplesIn(|row|, depth)
    ensures SampleAt(row, depth, k) < Pow2(depth)
  {
    hide Pow2;
    Pow2Values();
    if depth < 8 {
      LowBound(Shr(row[PosOf(depth, k).0], 8 - depth * (PosOf(depth, k).1 + 1)), depth);
    }
  }

  /** The pixels of a scanline are what its samples stand for. */
  lemma PixelRowMeans(row: seq<byte>, f: Format, x: nat)
    requires f.Ok() && x * f.imgN * f.depth <= 8 * |row|
    ensures PixelRow(row, f, x) == Meant(RowSamples(row, f, x * f.imgN), f)
  {
    hide SampleAt, ToBytes, AddAlpha, ScaleFactor, SamplesIn;
    assert Samples(row, f, x * f.imgN) == Scaled(RowSamples(row, f, x * f.imgN), ScaleFactor(f.depth, f.color));
  }

  function ImageSamples(rows: seq<seq<byte>>, f: Format, x: nat): (r: seq<seq<nat>>)
    requires Wide(rows, f, x)
    ensures |r| == |rows| && Image(r, f, x)
  {
    hide InRange, RowSamples;
    assert forall j :: 0 <= j < |rows| ==> InRange(RowSamples(rows[j], f, x * f.imgN), f.depth) by {
      forall j | 0 <= j < |rows| ensures InRange(RowSamples(rows[j], f, x * f.imgN), f.depth) {
        RowInRange(rows[j], f, x * f.imgN);
      }
    }
    seq(|rows|, j requires 0 <= j < |rows| => RowSamples(rows[j], f, x * f.imgN))
  }

  lemma {:induction false} PixelsAreMeant(rows: seq<seq<byte>>, f: Format, x: nat)
    requires Wide(rows, f, x)
    ensures Pixels(rows, f, x) == MeantImage(ImageSamples(rows, f, x), f)
  {
    hide Meant, PixelRow, InRange, RowSamples;
    if rows != [] {
      var n := |rows| - 1;
      PixelsAreMeant(rows[..n], f, x);
      PixelRowMeans(rows[n], f, x);
      assert ImageSamples(rows, f, x)[..n] == ImageSamples(rows[..n], f, x);
      assert ImageSamples(rows, f, x)[n] == RowSamples(rows[n], f, x * f.imgN);
    }
  }

  /** The reconstructed scanlines of image data. */
  ghost predicate Scanlines(raw: seq<byte>, f: Format, x: nat, y: nat, rows: seq<seq<byte>>)
  {
    && f.Ok() && 1 <= x && f.FilterBytes() > 0 && |rows| == y && Wide(rows, f, x)
    && Rows(raw, f.LineBytes(x * f.imgN), f.FilterBytes(), Zeros(f.LineBytes(x * f.imgN)), y) == Some(rows)
  }

  /** A decoded image is the image that the samples of its scanlines stand for. */
  lemma RawIsMeant(raw: seq<byte>, f: Format, x: nat, y: nat) returns (rows: seq<seq<byte>>)
    requires f.Ok() && 1 <= x && RawImage(raw, f, x, y).Some?
    ensures Scanlines(raw, f, x, y, rows)
    ensures RawImage(raw, f, x, y) == Some(MeantImage(ImageSamples(rows, f, x), f))
  {
    LineFacts(f, x);
    rows := Rows(raw, f.LineBytes(x * f.imgN), f.FilterBytes(), Zeros(f.LineBytes(x * f.imgN)), y).value;
    hide Rows, Zeros, SizesFit, Pixels;
    PixelsAreMeant(rows, f, x);
  }

  /** Sample c of pixel px of a scanline. */
  function SampleOf(row: seq<byte>, f: Format, x: nat, px: nat, c: nat): nat
    requires f.Ok() && x * f.imgN * f.depth <= 8 * |row| && px < x && c < f.imgN
  {
    PixelsApart(px, x, f.imgN);
    EnoughSamples(|row|, f.depth, x * f.imgN);
    SampleAt(row, f.depth, px * f.imgN + c)
  }

  /** Whatever the image data is: in a decoded image every pixel says the samples that stand in its place in the
      reconstructed scanlines. */
  lemma DecodedPixel(raw: seq<byte>, f: Format, x: nat, y: nat, px: nat, py: nat) returns (rows: seq<seq<byte>>)
    requires f.Ok() && px < x && py < y && RawImage(raw, f, x, y).Some?
    ensures Scanlines(raw, f, x, y, rows)
    ensures Says(PixelAt(RawImage(raw, f, x, y).value, PixelBytes(f), x, px, py),
                 seq(f.imgN, c requires 0 <= c < f.imgN => SampleOf(rows[py], f, x, px, c)), f)
  {
    hide RawImage, Says, PixelAt, MeantImage, Rows, InRange, RowSamples, PixelSamples, SampleOf;
    rows := RawIsMeant(raw, f, x, y);
    ImageSays(ImageSamples(rows, f, x), f, x, px, py);
    SamplesOfPixel(rows[py], f, x, px);
  }

  lemma SamplesOfPixel(row: seq<byte>, f: Format, x: nat, px: nat)
    requires f.Ok() && x * f.imgN * f.depth <= 8 * |row| && px < x
    ensures px * f.imgN + f.imgN <= x * f.imgN
    ensures PixelSamples(RowSamples(row, f, x * f.imgN), f.imgN, px)
         == seq(f.imgN, c requires 0 <= c < f.imgN => SampleOf(row, f, x, px, c))
  {
    hide SampleAt, SamplesIn;
    PixelsApart(px, x, f.imgN);
    EnoughSamples(|row|, f.depth, x * f.imgN);
  }

  // ---- known scanlines and pixels ----

  /** A filtered byte f with the bytes to the left, above, and above on the left (section 6 of RFC 2083). */
  lemma FilterTypes(ft: nat, f: byte, left: byte, above: byte, corner: byte)
    ensures ft == 0 ==> ReconByte(ft, f, left, above, corner) == f
    ensures ft == 1 ==> ReconByte(ft, f, left, above, corner) as int == (f as int + left) % 256
    ensures ft == 2 ==> ReconByte(ft, f, left, above, corner) as int == (f as int + above) % 256
    ensures ft == 3 ==> ReconByte(ft, f, left, above, corner) as int == (f as int + (left as int + above) / 2) % 256
    ensures ft == 4 ==>
      ReconByte(ft, f, left, above, corner) as int == (f as int + PaethPredictor(left, above, corner)) % 256
  {
    hide PaethPredictor;
  }

  /** The predictor is the neighbour nearest to left + above - corner; of equally near ones the first in that order. */
  lemma PaethRule(left: byte, above: byte, corner: byte)
    ensures var p: int, r := left as int + above - corner, PaethPredictor(left, above, corner);
      var a, b, c := Distance(p, left), Distance(p, above), Distance(p, corner);
      && (a <= b && a <= c ==> r == left) && (b < a && b <= c ==> r == above) && (c < a && c < b ==> r == corner)
  {
  }

  function Distance(p: int, q: int): nat
  {
    if p < q then q - p else p - q
  }

  lemma KnownPaeth(a: byte, b: byte, c: byte)
    ensures a == 0 && b == 10 && c == 0 ==> PaethPredictor(a, b, c) == 10
    ensures a == 11 && b == 20 && c == 10 ==> PaethPredictor(a, b, c) == 20
  {
  }

  /** A scanline of two pixels under [10, 20], with each filter type. */
  lemma KnownFilter(ft: nat, filt: seq<byte>, prior: seq<byte>)
    requires ft <= 4 && filt == [1, 2] && prior == [10, 20]
    ensures Recon(ft, filt, prior, 1, 2) == if ft == 0 then [1, 2] else if ft == 1 then [1, 3]
                                            else if ft == 2 then [11, 22] else if ft == 3 then [6, 15] else [11, 22]
  {
    hide ReconByte, PaethPredictor;
    FilterTypes(ft, 1, 0, 10, 0);
    KnownPaeth(0, 10, 0);
    KnownPaeth(11, 20, 10);
    FilterTypes(ft, 2, ReconByte(ft, 1, 0, 10, 0), 20, 10);
    var a, b := ReconByte(ft, 1, 0, 10, 0), if ft == 0 then 2 else if ft == 1 then 3 else if ft == 3 then 15 else 22;
    assert Recon(ft, filt, prior, 1, 0) == [];
    assert Recon(ft, filt, prior, 1, 1) == [] + [a] == [a];
    assert Recon(ft, filt, prior, 1, 2) == [a] + [b];
  }

  lemma KnownRows(raw: seq<byte>)
    requires raw == [0, 0x80]
    ensures Rows(raw, 1, 1, Zeros(1), 1) == Some([[0x80]])
  {
    var filt := raw[1..2];
    assert filt == [0x80] && raw[2..] == [];
    assert Recon(0, filt, Zeros(1), 1, 0) == [];
    assert Recon(0, filt, Zeros(1), 1, 1) == [] + [0x80] == [0x80];
    assert Rows([], 1, 1, [0x80], 0) == Some([]);
    hide Recon;
    assert [[0x80]] + [] == [[0x80]];
  }

  lemma TopBit(row: seq<byte>)
    requires row == [0x80]
    ensures SampleAt(row, 1, 0) == 1
  {
    Pow2Values();
    assert Shr(0x80, 7) == 1 && Low(1, 1) == 1;
  }

  /** A white pixel of one bit: 255 as gray, and its index with a palette; an alpha is opaque. */
  lemma KnownPixel(raw: seq<byte>, f: Format)
    requires raw == [0, 0x80] && f.Ok() && f.depth == 1 && f.imgN == 1
    ensures RawImage(raw, f, 1, 1) == Some([if f.color == 0 then 255 else 1] + if f.outN == 2 then [255] else [])
  {
    hide Rows, Pixels, SizesFit, Meant, ImageSamples, MeantImage;
    SizesFitIff(f, 1, 1);
    LineFacts(f, 1);
    KnownRows(raw);
    PixelsAreMeant([[0x80]], f, 1);
    KnownImage(f);
    KnownMeaning(f);
  }

  lemma KnownImage(f: Format)
    requires f.Ok() && f.depth == 1 && f.imgN == 1
    ensures MeantImage(ImageSamples([[0x80]], f, 1), f) == Meant([1], f)
  {
    hide RowSamples, Meant;
    KnownSamples(f);
    assert ImageSamples([[0x80]], f, 1) == [[1]];
    assert MeantImage([[1]], f) == [] + Meant([1], f) == Meant([1], f);
  }

  lemma KnownMeaning(f: Format)
    requires f.Ok() && f.depth == 1 && f.imgN == 1
    ensures Meant([1], f) == [if f.color == 0 then 255 else 1] + if f.outN == 2 then [255] else []
  {
    hide Meant;
    Pow2Values();
    PixelSays([1], f);
    var p := Meant([1], f);
    assert p == if f.outN == 2 then [p[0], p[1]] else [p[0]];
  }

  lemma KnownSamples(f: Format)
    requires f.Ok() && f.depth == 1
    ensures RowSamples([0x80], f, 1) == [1]
  {
    hide SampleAt;
    TopBit([0x80]);
  }
}
