/** What an encoder following RFC 2083 puts into the image data, and that decoding gives it back. */
module PngRoundTrip {
  import opened Wrappers
  import opened Bits
  import opened PngFilter
  import opened PngImage

  // ---- packing samples into scanlines ----

  /** The byte that holds the samples s[at..], as many as fit, leftmost in the high-order bits; 0 past the end of s. */
  function PackByte(s: seq<nat>, depth: nat, at: nat, room: nat): nat
    decreases room
  {
    if room < depth || depth == 0 then 0
    else Shl(if at < |s| then s[at] else 0, room - depth) + PackByte(s, depth, at + 1, room - depth)
  }

  lemma {:induction false} PackByteBound(s: seq<nat>, depth: nat, at: nat, room: nat)
    requires forall k :: 0 <= k < |s| ==> s[k] < Pow2(depth)
    ensures PackByte(s, depth, at, room) < Pow2(room)
    decreases room
  {
    if depth != 0 && room >= depth {
      PackByteBound(s, depth, at + 1, room - depth);
      var v := if at < |s| then s[at] else 0;
      ShlMonotone(v + 1, Pow2(depth), room - depth);
      ShlAdd(v, 1, room - depth);
      ShlIsPow2(room - depth);
      Pow2Add(depth, room - depth);
    }
  }

  /** Sample t of a packed byte. */
  lemma {:induction false} PackByteSample(s: seq<nat>, depth: nat, at: nat, room: nat, t: nat)
    requires 0 < depth && depth * (t + 1) <= room && at + t < |s|
    requires forall k :: 0 <= k < |s| ==> s[k] < Pow2(depth)
    ensures Low(Shr(PackByte(s, depth, at, room), room - depth * (t + 1)), depth) == s[at + t]
    decreases t
  {
    var rest := PackByte(s, depth, at + 1, room - depth);
    PackByteBound(s, depth, at + 1, room - depth);
    if t == 0 {
      ShrInterval(Shl(s[at], room - depth) + rest, room - depth, s[at]);
      ShlAdd(s[at], 1, room - depth);
      ShlIsPow2(room - depth);
      LowSmall(s[at], depth);
    } else {
      LaterSample(s[at], rest, room, depth, t);
      PackByteSample(s, depth, at + 1, room - depth, t - 1);
    }
  }

  /** The samples behind the first one do not depend on it. */
  lemma LaterSample(v: nat, rest: nat, room: nat, depth: nat, t: nat)
    requires 0 < t && 0 < depth && depth * (t + 1) <= room && rest < Pow2(room - depth)
    ensures room - depth * (t + 1) == room - depth - depth * t >= 0
    ensures Low(Shr(Shl(v, room - depth) + rest, room - depth * (t + 1)), depth)
      == Low(Shr(rest, room - depth - depth * t), depth)
  {
    var a := room - depth * (t + 1);
    assert a == room - depth - depth * t;
    assert depth * t >= depth by {
      assert depth * t == depth * (t - 1) + depth;
    }
    var y := Shl(v, room - depth) + rest;
    ShrLow(y, a, depth);
    ShrLow(rest, a, depth);
    LowOfSum(v, rest, room - depth);
    LowLow(y, room - depth, a + depth);
  }

  predicate InRange(s: seq<nat>, depth: nat)
  {
    forall k :: 0 <= k < |s| ==> s[k] < Pow2(depth)
  }

  function PerByte(depth: nat): nat
  {
    if depth == 4 then 2 else if depth == 2 then 4 else 8
  }

  /** The scanline of a list of samples. */
  function Pack(s: seq<nat>, depth: nat): (r: seq<byte>)
    requires depth in {1, 2, 4, 8, 16} && InRange(s, depth)
    ensures |r| == (|s| * depth + 7) / 8
  {
    Pow2Values();
    if depth == 16 then
      seq<byte>(2 * |s|, i requires 0 <= i < 2 * |s| => if i % 2 == 0 then s[i / 2] / 256 else s[i / 2] % 256)
    else if depth == 8 then seq<byte>(|s|, i requires 0 <= i < |s| => s[i])
    else
      assert forall j: nat :: PackByte(s, depth, j * PerByte(depth), 8) < 256 by {
        forall j: nat ensures PackByte(s, depth, j * PerByte(depth), 8) < 256 {
          PackByteBound(s, depth, j * PerByte(depth), 8);
        }
      }
      seq<byte>((|s| * depth + 7) / 8,
                j requires 0 <= j < (|s| * depth + 7) / 8 => PackByte(s, depth, j * PerByte(depth), 8))
  }

  lemma PackedIn(s: seq<nat>, depth: nat, k: nat, j: nat, t: nat)
    requires depth in {1, 2, 4} && InRange(s, depth) && k < |s| && j * PerByte(depth) + t == k && t < PerByte(depth)
    ensures j < |Pack(s, depth)| && depth * (t + 1) <= 8 && PackedSample(Pack(s, depth)[j], depth, t) == s[k]
  {
    hide PackByte;
    assert depth * (t + 1) <= 8;
    assert j < |Pack(s, depth)|;
    PackByteSample(s, depth, j * PerByte(depth), 8, t);
  }

  /** Reading a packed sample gives it back. */
  lemma PackedSamples(s: seq<nat>, depth: nat, k: nat)
    requires depth in {1, 2, 4, 8, 16} && InRange(s, depth) && k < |s|
    ensures k < SamplesIn(|Pack(s, depth)|, depth) && SampleAt(Pack(s, depth), depth, k) == s[k]
  {
    hide Pack, SampleAt, SamplesIn;
    if depth < 8 {
      SmallSample(s, depth, k);
    } else if depth == 8 {
      SampleOf8(s, k);
    } else {
      SampleOf16(s, k);
    }
  }

  lemma SampleOf8(s: seq<nat>, k: nat)
    requires InRange(s, 8) && k < |s|
    ensures k < SamplesIn(|Pack(s, 8)|, 8) && SampleAt(Pack(s, 8), 8, k) == s[k]
  {
  }

  lemma SampleOf16(s: seq<nat>, k: nat)
    requires InRange(s, 16) && k < |s|
    ensures k < SamplesIn(|Pack(s, 16)|, 16) && SampleAt(Pack(s, 16), 16, k) == s[k]
  {
    var row := Pack(s, 16);
    assert row[2 * k] == s[k] / 256 && row[2 * k + 1] == s[k] % 256;
  }

  lemma SmallSample(s: seq<nat>, depth: nat, k: nat)
    requires depth in {1, 2, 4} && InRange(s, depth) && k < |s|
    ensures k < SamplesIn(|Pack(s, depth)|, depth) && SampleAt(Pack(s, depth), depth, k) == s[k]
  {
    hide Pack, PackByte, PackedSample, InRange;
    if depth == 4 {
      PackedIn(s, 4, k, k / 2, k % 2);
    } else if depth == 2 {
      PackedIn(s, 2, k, k / 4, k % 4);
    } else {
      PackedIn(s, 1, k, k / 8, k % 8);
    }
  }

  // ---- whole images ----

  function Scaled(s: seq<nat>, factor: nat): (r: seq<nat>)
    ensures |r| == |s| && forall k :: 0 <= k < |s| ==> r[k] == s[k] * factor
  {
    if s == [] then [] else [s[0] * factor] + Scaled(s[1..], factor)
  }

  /** The pixels that a row of samples stands for. */
  function Meant(s: seq<nat>, f: Format): seq<byte>
    requires f.Ok()
  {
    var scaled := Scaled(s, ScaleFactor(f.depth, f.color));
    ToBytes(if f.outN == f.imgN then scaled else AddAlpha(scaled, f.imgN, if f.depth == 16 then 0xFFFF else 0xFF), f)
  }

  lemma RowMeans(s: seq<nat>, f: Format, x: nat)
    requires f.Ok() && InRange(s, f.depth) && |s| == x * f.imgN
    ensures x * f.imgN * f.depth <= 8 * |Pack(s, f.depth)| && PixelRow(Pack(s, f.depth), f, x) == Meant(s, f)
  {
    hide Pack, SampleAt, ToBytes, AddAlpha, ScaleFactor;
    var row := Pack(s, f.depth);
    var n := x * f.imgN;
    assert n * f.depth <= 8 * |row|;
    forall k | 0 <= k < n
      ensures Samples(row, f, n)[k] == s[k] * ScaleFactor(f.depth, f.color)
    {
      PackedSamples(s, f.depth, k);
    }
    assert Samples(row, f, n) == Scaled(s, ScaleFactor(f.depth, f.color));
  }

  /** The samples of an image: rows of x pixels with imgN samples each. */
  predicate Image(image: seq<seq<nat>>, f: Format, x: nat)
  {
    f.Ok() && forall j :: 0 <= j < |image| ==> InRange(image[j], f.depth) && |image[j]| == x * f.imgN
  }

  function PackAll(image: seq<seq<nat>>, f: Format, x: nat): (r: seq<seq<byte>>)
    requires Image(image, f, x)
    ensures |r| == |image| && forall j :: 0 <= j < |r| ==> |r[j]| == f.LineBytes(x * f.imgN)
  {
    seq(|image|, j requires 0 <= j < |image| => Pack(image[j], f.depth))
  }

  function MeantImage(image: seq<seq<nat>>, f: Format): seq<byte>
    requires f.Ok()
  {
    if image == [] then [] else MeantImage(image[..|image| - 1], f) + Meant(image[|image| - 1], f)
  }

  lemma PackedWide(image: seq<seq<nat>>, f: Format, x: nat)
    requires Image(image, f, x)
    ensures Wide(PackAll(image, f, x), f, x)
  {
    hide Pack, Meant, PixelRow, InRange;
    forall j | 0 <= j < |image|
      ensures x * f.imgN * f.depth <= 8 * |PackAll(image, f, x)[j]|
    {
      RowMeans(image[j], f, x);
    }
  }

  lemma {:induction false} PixelsMean(image: seq<seq<nat>>, f: Format, x: nat)
    requires Image(image, f, x)
    ensures Wide(PackAll(image, f, x), f, x) && Pixels(PackAll(image, f, x), f, x) == MeantImage(image, f)
  {
    hide Pack, Meant, PixelRow, InRange, Wide, PackAll;
    PackedWide(image, f, x);
    if image != [] {
      var n := |image| - 1;
      PixelsMean(image[..n], f, x);
      RowMeans(image[n], f, x);
      PackedLast(image, f, x, n);
    }
  }

  lemma PackedLast(image: seq<seq<nat>>, f: Format, x: nat, n: nat)
    requires Image(image, f, x) && |image| == n + 1
    ensures PackAll(image, f, x)[..n] == PackAll(image[..n], f, x)
    ensures PackAll(image, f, x)[n] == Pack(image[n], f.depth)
  {
    hide Pack, InRange;
  }

  lemma {:induction false} FilteredLength(rows: seq<seq<byte>>, types: seq<byte>, bpp: nat, prior: seq<byte>)
    requires 0 < bpp && |types| == |rows| && forall j :: 0 <= j < |rows| ==> |rows[j]| == |prior|
    ensures |FilterImage(rows, types, bpp, prior)| == (|prior| + 1) * |rows|
    decreases |rows|
  {
    hide FilterRow;
    if rows != [] {
      FilteredLength(rows[1..], types[1..], bpp, rows[0]);
      Distribute(|rows| - 1, |prior| + 1);
    }
  }

  /** Decoding inverts encoding: whatever filter type is chosen for each scanline, and whatever follows the image data,
      the result is the pixels that the samples stand for. */
  lemma ImageRoundTrip(image: seq<seq<nat>>, types: seq<byte>, f: Format, x: nat, extra: seq<byte>)
    requires Image(image, f, x) && 1 <= x && SizesFit(f, x, |image|) && |types| == |image|
    requires forall j :: 0 <= j < |types| ==> types[j] <= 4
    ensures f.FilterBytes() > 0
    ensures var w := f.LineBytes(x * f.imgN);
      RawImage(FilterImage(PackAll(image, f, x), types, f.FilterBytes(), Zeros(w)) + extra, f, x, |image|)
      == Some(MeantImage(image, f))
  {
    hide PackAll, Pixels, MeantImage, InRange, Wide, Format.LineBytes, Format.FilterBytes;
    LineFacts(f, x);
    PixelsMean(image, f, x);
    RowsRoundTrip(PackAll(image, f, x), types, f, x, f.LineBytes(x * f.imgN), extra);
  }

  lemma RowsRoundTrip(rows: seq<seq<byte>>, types: seq<byte>, f: Format, x: nat, w: nat, extra: seq<byte>)
    requires f.Ok() && Wide(rows, f, x) && 1 <= x && SizesFit(f, x, |rows|) && w == f.LineBytes(x * f.imgN)
    requires f.FilterBytes() > 0 && |types| == |rows| && forall j :: 0 <= j < |rows| ==> |rows[j]| == w
    requires forall j :: 0 <= j < |types| ==> types[j] <= 4
    ensures RawImage(FilterImage(rows, types, f.FilterBytes(), Zeros(w)) + extra, f, x, |rows|)
      == Some(Pixels(rows, f, x))
  {
    hide FilterImage, Rows, Pixels, Zeros, RawImage, Wide, SizesFit, Format.LineBytes, Format.FilterBytes;
    var bpp := f.FilterBytes();
    var raw := FilterImage(rows, types, bpp, Zeros(w)) + extra;
    FilteredLength(rows, types, bpp, Zeros(w));
    UnfilterInvertsFilter(rows, types, bpp, Zeros(w), extra);
    RawImageIs(raw, f, x, |rows|, w, rows, (w + 1) * |rows|);
  }

  lemma RawImageIs(raw: seq<byte>, f: Format, x: nat, y: nat, w: nat, rows: seq<seq<byte>>, size: nat)
    requires f.Ok() && 1 <= x && SizesFit(f, x, y) && w == f.LineBytes(x * f.imgN) && size == (w + 1) * y <= |raw|
    requires f.FilterBytes() > 0 && Rows(raw, w, f.FilterBytes(), Zeros(w), y) == Some(rows)
    requires Wide(rows, f, x)
    ensures RawImage(raw, f, x, y) == Some(Pixels(rows, f, x))
  {
    hide Rows, Zeros, Pixels, SizesFit;
  }
}
