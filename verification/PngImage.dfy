/** The pixels of a PNG image: samples of 1 to 16 bits are unpacked from the scanlines, grayscale is scaled
    to 8 bits, and an opaque alpha sample is added if the caller wants one. */
module PngImage {
  import opened Wrappers
  import opened Bits
  import opened PngFilter
  import opened PngUnfilter
  import opened Sizes

  /** The parameters of stbi__create_png_image_raw.  `little` is the byte order of the platform. */
  datatype Format = Format(imgN: nat, outN: nat, depth: nat, color: nat, little: bool) {

    predicate Ok()
    {
      && depth in {1, 2, 4, 8, 16} && 1 <= imgN <= 4
      && (outN == imgN || (outN == imgN + 1 && imgN in {1, 3}))
    }

    function Bytes(): nat
    {
      if depth == 16 then 2 else 1
    }

    /** Bytes of a scanline of n samples. */
    function LineBytes(n: nat): nat
    {
      (n * depth + 7) / 8
    }

    /** Whole bytes per pixel, at least one. */
    function FilterBytes(): nat
    {
      if depth < 8 then 1 else imgN * Bytes()
    }
  }

  // ---- what a scanline means ----

  /** How many samples w bytes hold. */
  function SamplesIn(w: nat, depth: nat): nat
  {
    if depth == 16 then w / 2 else if depth == 8 then w else if depth == 4 then 2 * w
    else if depth == 2 then 4 * w else 8 * w
  }

  /** Which byte sample k is in, and how many samples of that byte come before it. */
  function PosOf(depth: nat, k: nat): (nat, nat)
  {
    if depth == 4 then (k / 2, k % 2) else if depth == 2 then (k / 4, k % 4) else (k / 8, k % 8)
  }

  /** The t-th depth-bit sample of a byte, counting from the high-order end. */
  function PackedSample(b: byte, depth: nat, t: nat): nat
    requires depth * (t + 1) <= 8
  {
    Low(Shr(b, 8 - depth * (t + 1)), depth)
  }

  /** Sample k of a scanline: leftmost in the high-order bits, 16-bit samples most significant byte first. */
  function SampleAt(row: seq<byte>, depth: nat, k: nat): nat
    requires depth in {1, 2, 4, 8, 16} && k < SamplesIn(|row|, depth)
  {
    if depth == 16 then row[2 * k] as nat * 256 + row[2 * k + 1]
    else if depth == 8 then row[k]
    else PackedSample(row[PosOf(depth, k).0], depth, PosOf(depth, k).1)
  }

  /** The factor that takes the largest sample of this depth to 255. */
  function ScaleFactor(depth: nat, color: nat): nat
  {
    if color != 0 || depth >= 8 then 1 else if depth == 4 then 255 / 15 else if depth == 2 then 255 / 3 else 255
  }

  lemma EnoughSamples(w: nat, depth: nat, n: nat)
    requires depth in {1, 2, 4, 8, 16} && n * depth <= 8 * w
    ensures n <= SamplesIn(w, depth)
  {
  }

  function Samples(row: seq<byte>, f: Format, n: nat): (r: seq<nat>)
    requires f.Ok() && n * f.depth <= 8 * |row|
    ensures |r| == n
  {
    EnoughSamples(|row|, f.depth, n);
    seq(n, k requires 0 <= k < n => SampleAt(row, f.depth, k) * ScaleFactor(f.depth, f.color))
  }

  /** Inserts an opaque alpha sample after every imgN samples, for imgN 1 or 3. */
  function AddAlpha(s: seq<nat>, imgN: nat, opaqueValue: nat): seq<nat>
  {
    if imgN == 1 then
      seq(2 * |s|, k requires 0 <= k < 2 * |s| => if k % 2 == 1 then opaqueValue else s[k / 2])
    else
      seq(|s| / 3 * 4, k requires 0 <= k < |s| / 3 * 4 => if k % 4 == 3 then opaqueValue else s[k / 4 * 3 + k % 4])
  }

  function Native(v: nat, i: nat, little: bool): byte
  {
    if (i == 0) == little then v % 256 else v / 256 % 256
  }

  /** The bytes in memory of a list of samples. */
  function ToBytes(s: seq<nat>, f: Format): seq<byte>
  {
    if f.depth == 16 then
      seq<byte>(2 * |s|, k requires 0 <= k < 2 * |s| => Native(s[k / 2], k % 2, f.little))
    else
      seq<byte>(|s|, k requires 0 <= k < |s| => s[k] % 256)
  }

  function OutSamples(row: seq<byte>, f: Format, x: nat): seq<nat>
    requires f.Ok() && x * f.imgN * f.depth <= 8 * |row|
  {
    var s := Samples(row, f, x * f.imgN);
    if f.outN == f.imgN then s else AddAlpha(s, f.imgN, if f.depth == 16 then 0xFFFF else 0xFF)
  }

  /** The pixels of a scanline of x pixels. */
  function PixelRow(row: seq<byte>, f: Format, x: nat): seq<byte>
    requires f.Ok() && x * f.imgN * f.depth <= 8 * |row|
  {
    ToBytes(OutSamples(row, f, x), f)
  }

  // ---- unpacking ----

  lemma {:induction false} NextPos(depth: nat, k: nat)
    requires depth in {1, 2, 4}
    ensures PosOf(depth, 0) == (0, 0)
    ensures depth * (PosOf(depth, k).1 + 1) <= 8
    ensures PosOf(depth, k + 1) == if depth * (PosOf(depth, k).1 + 1) == 8 then (PosOf(depth, k).0 + 1, 0)
                                   else (PosOf(depth, k).0, PosOf(depth, k).1 + 1)
  {
  }

  /** Shifting the used samples out at the top leaves the next one in the high bits. */
  lemma TopSample(b: byte, depth: nat, t: nat, m: nat)
    requires depth <= 8 && m == depth * t && depth * (t + 1) <= 8
    ensures Shr(Low(Shl(b, m), 8), 8 - depth) == PackedSample(b, depth, t)
    ensures Low(Shl(Low(Shl(b, m), 8), depth), 8) == Low(Shl(b, m + depth), 8)
  {
    hide Shl, Shr, Low;
    assert depth * (t + 1) == m + depth;
    HighBits(b, depth, m);
    LowShlLow(Shl(b, m), depth, 8);
    ShlShl(b, m, depth);
  }

  lemma HighBits(b: byte, depth: nat, m: nat)
    requires m + depth <= 8
    ensures Shr(Low(Shl(b, m), 8), 8 - depth) == Low(Shr(b, 8 - depth - m), depth)
  {
    hide Shl, Shr, Low;
    ShrLow(Shl(b, m), 8 - depth, depth);
    ShrShl(b, m, 8 - depth);
  }

  lemma SampleBound(row: seq<byte>, depth: nat, color: nat, k: nat)
    requires depth in {1, 2, 4} && k < SamplesIn(|row|, depth)
    ensures SampleAt(row, depth, k) * ScaleFactor(depth, color) < 256
  {
    LowBound(Shr(row[PosOf(depth, k).0], 8 - depth * (PosOf(depth, k).1 + 1)), depth);
    assert Pow2(depth) <= 16 && (depth == 1 ==> Pow2(depth) == 2) && (depth == 2 ==> Pow2(depth) == 4);
  }

  /** The reservoir byte when sample i is next. */
  ghost predicate Reservoir(row: seq<byte>, depth: nat, i: nat, used: nat, inb: nat)
    requires depth in {1, 2, 4}
  {
    var (q, t) := PosOf(depth, i);
    if t == 0 then used == q
    else used == q + 1 && q < |row| && inb == Low(Shl(row[q], depth * t), 8)
  }

  /** The same, once the byte of sample i has been read. */
  ghost predicate Ready(row: seq<byte>, depth: nat, i: nat, used: nat, inb: nat)
    requires depth in {1, 2, 4}
  {
    var (q, t) := PosOf(depth, i);
    q < |row| && used == q + 1 && inb == if t == 0 then row[q] else Low(Shl(row[q], depth * t), 8)
  }

  lemma ReservoirReady(row: seq<byte>, depth: nat, i: nat, used: nat, inb: nat)
    requires depth in {1, 2, 4} && i < SamplesIn(|row|, depth) && Reservoir(row, depth, i, used, inb)
    ensures if PosOf(depth, i).1 == 0 then used < |row| && Ready(row, depth, i, used + 1, row[used])
            else Ready(row, depth, i, used, inb)
  {
    InRow(|row|, depth, i);
  }

  /** One step of the unpacking loops. */
  lemma ReservoirStep(row: seq<byte>, depth: nat, i: nat, used: nat, inb: nat)
    requires depth in {1, 2, 4} && i < SamplesIn(|row|, depth) && Ready(row, depth, i, used, inb)
    ensures Shr(inb, 8 - depth) == SampleAt(row, depth, i)
    ensures Reservoir(row, depth, i + 1, used, Low(Shl(inb, depth), 8))
  {
    hide Low, Shl, Shr;
    var (q, t) := PosOf(depth, i);
    NextPos(depth, i);
    if t == 0 {
      FreshByte(row[q], depth);
    }
    TopSample(row[q], depth, t, depth * t);
    assert depth * t + depth == depth * (t + 1);
  }

  lemma FreshByte(b: byte, depth: nat)
    ensures Low(Shl(b, depth * 0), 8) == b
  {
    Pow2Values();
    LowSmall(b, 8);
  }

  /** The loops that turn packed samples of 1, 2 or 4 bits into bytes. */
  method UnpackBits(dest: array<byte>, at: nat, src: array<byte>, cur: nat, ghost row: seq<byte>, n: nat, depth: nat,
                    color: nat)
    requires dest != src && depth in {1, 2, 4} && n <= SamplesIn(|row|, depth)
    requires at + n <= dest.Length && cur + |row| <= src.Length && row == src[cur..cur + |row|]
    modifies dest
    ensures forall k: nat :: k < n ==> dest[at + k] == SampleAt(row, depth, k) * ScaleFactor(depth, color)
    ensures forall k: nat :: k < at ==> dest[k] == old(dest[k])
  {
    hide SampleAt, SamplesIn, ScaleFactor, Shl, Shr, Low, Reservoir, Ready, PosOf;
    var scale := ScaleFactor(depth, color);
    var used, inb := 0, 0;
    EmptyReservoir(row, depth);
    for i := 0 to n
      invariant Reservoir(row, depth, i, used, inb)
      invariant forall k: nat :: k < i ==> dest[at + k] == SampleAt(row, depth, k) * scale
      invariant forall k: nat :: k < at ==> dest[k] == old(dest[k])
    {
      ReservoirReady(row, depth, i, used, inb);
      if PosOf(depth, i).1 == 0 {
        assert src[cur + used] == row[used];
        inb := src[cur + used];
        used := used + 1;
      }
      ReservoirStep(row, depth, i, used, inb);
      SampleBound(row, depth, color, i);
      dest[at + i] := scale * Shr(inb, 8 - depth) % 256;
      inb := Low(Shl(inb, depth), 8);
    }
  }

  lemma EmptyReservoir(row: seq<byte>, depth: nat)
    requires depth in {1, 2, 4}
    ensures Reservoir(row, depth, 0, 0, 0)
  {
  }

  lemma InRow(w: nat, depth: nat, i: nat)
    requires depth in {1, 2, 4} && i < SamplesIn(w, depth)
    ensures PosOf(depth, i).0 < w
  {
  }

  // ---- alpha ----

  /** stbi__create_png_alpha_expand8: works backwards so that source and destination can be the same place. */
  method AlphaExpand8(dest: array<byte>, at: nat, src: array<byte>, from: nat, x: nat, imgN: nat)
    requires imgN == 1 || imgN == 3
    requires at + x * (imgN + 1) <= dest.Length && from + x * imgN <= src.Length
    requires dest == src ==> at == from
    modifies dest
    ensures dest[at..at + x * (imgN + 1)] == AlphaBytes(old(src[from..from + x * imgN]), imgN)
    ensures forall k: nat :: k < at ==> dest[k] == old(dest[k])
  {
    hide AlphaBytes;
    if imgN == 1 {
      Alpha8Gray(dest, at, src, from, x);
    } else {
      Alpha8Color(dest, at, src, from, x);
    }
  }

  method Alpha8Gray(dest: array<byte>, at: nat, src: array<byte>, from: nat, x: nat)
    requires at + 2 * x <= dest.Length && from + x <= src.Length && (dest == src ==> at == from)
    modifies dest
    ensures dest[at..at + 2 * x] == AlphaBytes(old(src[from..from + x]), 1)
    ensures forall k: nat :: k < at ==> dest[k] == old(dest[k])
  {
    Expand1(dest, at, src, from, x);
    Alpha1(dest[at..at + 2 * x], old(src[from..from + x]));
  }

  method Alpha8Color(dest: array<byte>, at: nat, src: array<byte>, from: nat, x: nat)
    requires at + 4 * x <= dest.Length && from + 3 * x <= src.Length && (dest == src ==> at == from)
    modifies dest
    ensures dest[at..at + 4 * x] == AlphaBytes(old(src[from..from + 3 * x]), 3)
    ensures forall k: nat :: k < at ==> dest[k] == old(dest[k])
  {
    Expand3(dest, at, src, from, x);
    Alpha3(dest[at..at + 4 * x], old(src[from..from + 3 * x]), x);
  }

  lemma Alpha1(d: seq<byte>, s: seq<byte>)
    requires |d| == 2 * |s| && forall k: nat :: k < |d| ==> d[k] == if k % 2 == 1 then 255 else s[k / 2]
    ensures d == AlphaBytes(s, 1)
  {
    var t := AddAlpha(s, 1, 255);
    assert |t| == |d| == |AlphaBytes(s, 1)|;
    forall k: nat | k < |d|
      ensures d[k] == AlphaBytes(s, 1)[k]
    {
      assert AlphaBytes(s, 1)[k] == t[k] % 256;
    }
  }

  lemma Alpha3(d: seq<byte>, s: seq<byte>, x: nat)
    requires |s| == 3 * x && |d| == 4 * x
    requires forall k: nat :: k < |d| ==> d[k] == if k % 4 == 3 then 255 else s[k / 4 * 3 + k % 4]
    ensures d == AlphaBytes(s, 3)
  {
    var t := AddAlpha(s, 3, 255);
    assert |t| == |d| == |AlphaBytes(s, 3)|;
    forall k: nat | k < |d|
      ensures d[k] == AlphaBytes(s, 3)[k]
    {
      assert AlphaBytes(s, 3)[k] == t[k] % 256;
    }
  }

  method Expand1(dest: array<byte>, at: nat, src: array<byte>, from: nat, x: nat)
    requires at + 2 * x <= dest.Length && from + x <= src.Length && (dest == src ==> at == from)
    modifies dest
    ensures forall k: nat :: k < 2 * x ==> dest[at + k] == if k % 2 == 1 then 255 else old(src[from + k / 2])
    ensures forall k: nat :: k < at ==> dest[k] == old(dest[k])
  {
    var i: int := x - 1;
    while i >= 0
      invariant -1 <= i < x
      invariant forall k: nat :: k < at + i + 1 ==> dest[k] == old(dest[k])
      invariant forall k: nat :: 2 * (i + 1) <= k < 2 * x ==>
        dest[at + k] == if k % 2 == 1 then 255 else old(src[from + k / 2])
    {
      dest[at + i * 2 + 1] := 255;
      dest[at + i * 2 + 0] := src[from + i];
      i := i - 1;
    }
  }

  method Expand3(dest: array<byte>, at: nat, src: array<byte>, from: nat, x: nat)
    requires at + 4 * x <= dest.Length && from + 3 * x <= src.Length && (dest == src ==> at == from)
    modifies dest
    ensures forall k: nat :: k < 4 * x ==>
      dest[at + k] == if k % 4 == 3 then 255 else old(src[from + k / 4 * 3 + k % 4])
    ensures forall k: nat :: k < at ==> dest[k] == old(dest[k])
  {
    var i: int := x - 1;
    while i >= 0
      invariant -1 <= i < x
      invariant forall k: nat :: k < at + 3 * (i + 1) ==> dest[k] == old(dest[k])
      invariant forall k: nat :: 4 * (i + 1) <= k < 4 * x ==>
        dest[at + k] == if k % 4 == 3 then 255 else old(src[from + k / 4 * 3 + k % 4])
    {
      dest[at + i * 4 + 3] := 255;
      dest[at + i * 4 + 2] := src[from + i * 3 + 2];
      dest[at + i * 4 + 1] := src[from + i * 3 + 1];
      dest[at + i * 4 + 0] := src[from + i * 3 + 0];
      i := i - 1;
    }
  }

  function AlphaBytes(s: seq<byte>, imgN: nat): seq<byte>
  {
    var t := AddAlpha(s, imgN, 255);
    seq<byte>(|t|, k requires 0 <= k < |t| => t[k] % 256)
  }

  // ---- 16-bit samples ----

  /** The first m samples of t are at offset `at`. */
  ghost predicate Written(dest: array<byte>, at: nat, t: seq<nat>, little: bool, m: nat)
    reads dest
  {
    && at + 2 * m <= dest.Length && m <= |t|
    && forall k: nat :: k < 2 * m ==> dest[at + k] == Native(t[k / 2], k % 2, little)
  }

  /** Stores one 16-bit number in the platform's byte order. */
  method Put16(dest: array<byte>, at: nat, ghost t: seq<nat>, little: bool, m: nat, v: nat)
    requires Written(dest, at, t, little, m) && m < |t| && v == t[m] <= 0xFFFF && at + 2 * (m + 1) <= dest.Length
    modifies dest
    ensures Written(dest, at, t, little, m + 1)
    ensures forall k: nat :: k < at ==> dest[k] == old(dest[k])
  {
    dest[at + 2 * m], dest[at + 2 * m + 1] :=
      if little then v % 256 else v / 256, if little then v / 256 else v % 256;
  }

  /** The three loops for 16-bit images. */
  method Write16(dest: array<byte>, at: nat, src: array<byte>, cur: nat, ghost row: seq<byte>, f: Format, x: nat)
    requires dest != src && f.Ok() && f.depth == 16 && 2 * (x * f.imgN) <= |row|
    requires cur + |row| <= src.Length && row == src[cur..cur + |row|] && at + 2 * (x * f.outN) <= dest.Length
    modifies dest
    ensures Written(dest, at, OutSamples(row, f, x), f.little, x * f.outN)
    ensures |OutSamples(row, f, x)| == x * f.outN
    ensures forall k: nat :: k < at ==> dest[k] == old(dest[k])
  {
    hide SampleAt, Samples, AddAlpha;
    ghost var t := OutSamples(row, f, x);
    if f.imgN == f.outN {
      Samples16(row, f, x * f.imgN);
      Copy16(dest, at, src, cur, row, t, f.little, x * f.imgN);
    } else if f.imgN == 1 {
      GraySamples16(row, f, x);
      Gray16(dest, at, src, cur, row, t, f.little, x);
    } else {
      ColorSamples16(row, f, x);
      Color16(dest, at, src, cur, row, t, f.little, x);
    }
  }

  lemma Samples16(row: seq<byte>, f: Format, n: nat)
    requires f.Ok() && f.depth == 16 && 2 * n <= |row|
    ensures n * f.depth <= 8 * |row|
    ensures |Samples(row, f, n)| == n
    ensures forall i: nat :: i < n ==> Samples(row, f, n)[i] == SampleAt(row, 16, i)
  {
  }

  lemma GraySamples16(row: seq<byte>, f: Format, x: nat)
    requires f.Ok() && f.depth == 16 && f.imgN == 1 && f.outN == 2 && 2 * x <= |row|
    ensures var t := OutSamples(row, f, x);
      |t| == 2 * x && forall i: nat :: i < x ==> t[2 * i] == SampleAt(row, 16, i) && t[2 * i + 1] == 0xFFFF
  {
    hide SampleAt, Samples;
    Samples16(row, f, x);
  }

  lemma ColorSamples16(row: seq<byte>, f: Format, x: nat)
    requires f.Ok() && f.depth == 16 && f.imgN == 3 && f.outN == 4 && 6 * x <= |row|
    ensures var t := OutSamples(row, f, x);
      && |t| == 4 * x && (forall i: nat :: i < x ==> t[4 * i + 3] == 0xFFFF)
      && (forall i: nat :: i < x ==> t[4 * i] == SampleAt(row, 16, 3 * i))
      && (forall i: nat :: i < x ==> t[4 * i + 1] == SampleAt(row, 16, 3 * i + 1))
      && (forall i: nat :: i < x ==> t[4 * i + 2] == SampleAt(row, 16, 3 * i + 2))
  {
    hide SampleAt, Samples;
    Samples16(row, f, 3 * x);
  }

  method Copy16(dest: array<byte>, at: nat, src: array<byte>, cur: nat, ghost row: seq<byte>, ghost t: seq<nat>,
                little: bool, n: nat)
    requires dest != src && 2 * n <= |row| && cur + |row| <= src.Length && row == src[cur..cur + |row|]
    requires at + 2 * n <= dest.Length && |t| == n && forall i: nat :: i < n ==> t[i] == SampleAt(row, 16, i)
    modifies dest
    ensures Written(dest, at, t, little, n)
    ensures forall k: nat :: k < at ==> dest[k] == old(dest[k])
  {
    for i := 0 to n
      invariant Written(dest, at, t, little, i)
      invariant forall k: nat :: k < at ==> dest[k] == old(dest[k])
    {
      assert src[cur + 2 * i] == row[2 * i] && src[cur + 2 * i + 1] == row[2 * i + 1];
      Put16(dest, at, t, little, i, src[cur + 2 * i] as nat * 256 + src[cur + 2 * i + 1]);
    }
  }

  method Gray16(dest: array<byte>, at: nat, src: array<byte>, cur: nat, ghost row: seq<byte>, ghost t: seq<nat>,
                little: bool, x: nat)
    requires dest != src && 2 * x <= |row| && cur + |row| <= src.Length && row == src[cur..cur + |row|]
    requires at + 4 * x <= dest.Length && |t| == 2 * x
    requires forall i: nat :: i < x ==> t[2 * i] == SampleAt(row, 16, i) && t[2 * i + 1] == 0xFFFF
    modifies dest
    ensures Written(dest, at, t, little, 2 * x)
    ensures forall k: nat :: k < at ==> dest[k] == old(dest[k])
  {
    for i := 0 to x
      invariant Written(dest, at, t, little, 2 * i)
      invariant forall k: nat :: k < at ==> dest[k] == old(dest[k])
    {
      assert src[cur + 2 * i] == row[2 * i] && src[cur + 2 * i + 1] == row[2 * i + 1];
      Put16(dest, at, t, little, 2 * i, src[cur + 2 * i] as nat * 256 + src[cur + 2 * i + 1]);
      Put16(dest, at, t, little, 2 * i + 1, 0xFFFF);
    }
  }

  method Color16(dest: array<byte>, at: nat, src: array<byte>, cur: nat, ghost row: seq<byte>, ghost t: seq<nat>,
                 little: bool, x: nat)
    requires dest != src && 6 * x <= |row| && cur + |row| <= src.Length && row == src[cur..cur + |row|]
    requires at + 8 * x <= dest.Length && |t| == 4 * x
    requires forall i: nat :: i < x ==> t[4 * i + 3] == 0xFFFF
    requires forall i: nat :: i < x ==> t[4 * i] == SampleAt(row, 16, 3 * i)
    requires forall i: nat :: i < x ==> t[4 * i + 1] == SampleAt(row, 16, 3 * i + 1)
    requires forall i: nat :: i < x ==> t[4 * i + 2] == SampleAt(row, 16, 3 * i + 2)
    modifies dest
    ensures Written(dest, at, t, little, 4 * x)
    ensures forall k: nat :: k < at ==> dest[k] == old(dest[k])
  {
    for i := 0 to x
      invariant Written(dest, at, t, little, 4 * i)
      invariant forall k: nat :: k < at ==> dest[k] == old(dest[k])
    {
      assert src[cur + 6 * i..cur + 6 * i + 6] == row[6 * i..6 * i + 6];
      assert row[6 * i..6 * i + 6]
        == [row[6 * i], row[6 * i + 1], row[6 * i + 2], row[6 * i + 3], row[6 * i + 4], row[6 * i + 5]];
      Put16(dest, at, t, little, 4 * i, src[cur + (6 * i + 0)] as nat * 256 + src[cur + (6 * i + 1)]);
      Put16(dest, at, t, little, 4 * i + 1, src[cur + (6 * i + 2)] as nat * 256 + src[cur + (6 * i + 3)]);
      Put16(dest, at, t, little, 4 * i + 2, src[cur + (6 * i + 4)] as nat * 256 + src[cur + (6 * i + 5)]);
      Put16(dest, at, t, little, 4 * i + 3, 0xFFFF);
    }
  }

  // ---- one scanline ----

  /** The bytes before alpha is added, for images of up to 8 bits. */
  function Narrow(s: seq<nat>): (r: seq<byte>)
    ensures |r| == |s|
  {
    seq<byte>(|s|, k requires 0 <= k < |s| => s[k] % 256)
  }

  lemma NarrowThenAlpha(s: seq<nat>, imgN: nat, x: nat)
    requires imgN == 1 || imgN == 3
    requires |s| == x * imgN
    ensures AlphaBytes(Narrow(s), imgN) == Narrow(AddAlpha(s, imgN, 255))
    ensures |AddAlpha(s, imgN, 255)| == x * (imgN + 1)
  {
    var a, b := AddAlpha(Narrow(s), imgN, 255), AddAlpha(s, imgN, 255);
    assert |a| == |b|;
    forall k: nat | k < |a|
      ensures AlphaBytes(Narrow(s), imgN)[k] == Narrow(b)[k]
    {
      assert AlphaBytes(Narrow(s), imgN)[k] == a[k] % 256;
      assert Narrow(b)[k] == b[k] % 256;
    }
  }

  lemma NarrowIsBytes(s: seq<nat>, f: Format)
    requires f.depth != 16
    ensures ToBytes(s, f) == Narrow(s)
  {
  }

  lemma WrittenBytes(d: seq<byte>, t: seq<nat>, f: Format)
    requires f.depth == 16 && |d| == 2 * |t|
    requires forall k: nat :: k < |d| ==> d[k] == Native(t[k / 2], k % 2, f.little)
    ensures d == ToBytes(t, f)
  {
    hide Native;
  }

  lemma UnpackedBytes(d: seq<byte>, row: seq<byte>, f: Format, n: nat)
    requires f.Ok() && f.depth < 16 && n * f.depth <= 8 * |row| && |d| == n
    requires forall k: nat :: k < n ==>
      k < SamplesIn(|row|, f.depth) && d[k] == SampleAt(row, f.depth, k) * ScaleFactor(f.depth, f.color)
    ensures d == Narrow(Samples(row, f, n))
  {
    hide SampleAt, ScaleFactor;
  }

  lemma Copied8(row: seq<byte>, f: Format, n: nat)
    requires f.Ok() && f.depth == 8 && n <= |row|
    ensures n * f.depth <= 8 * |row| && row[..n] == Narrow(Samples(row, f, n))
  {
  }

  /** Turns the scanline in the buffer into pixels at offset `at`. */
  method ExpandRow(f: Format, dest: array<byte>, at: nat, buf: array<byte>, cur: nat, ghost row: seq<byte>, x: nat)
    requires f.Ok() && dest != buf && x * f.imgN * f.depth <= 8 * |row|
    requires cur + |row| <= buf.Length && row == buf[cur..cur + |row|]
    requires at + x * f.outN * f.Bytes() <= dest.Length
    modifies dest
    ensures dest[at..at + x * f.outN * f.Bytes()] == PixelRow(row, f, x)
    ensures forall k: nat :: k < at ==> dest[k] == old(dest[k])
  {
    hide PixelRow;
    if f.depth < 8 {
      ExpandPacked(f, dest, at, buf, cur, row, x, x * f.imgN, x * f.outN);
    } else if f.depth == 8 {
      Expand8(f, dest, at, buf, cur, row, x, x * f.imgN, x * f.outN);
    } else {
      Expand16(f, dest, at, buf, cur, row, x);
    }
  }

  method Expand16(f: Format, dest: array<byte>, at: nat, buf: array<byte>, cur: nat, ghost row: seq<byte>, x: nat)
    requires f.Ok() && f.depth == 16 && dest != buf && x * f.imgN * f.depth <= 8 * |row|
    requires cur + |row| <= buf.Length && row == buf[cur..cur + |row|]
    requires at + x * f.outN * f.Bytes() <= dest.Length
    modifies dest
    ensures dest[at..at + x * f.outN * f.Bytes()] == PixelRow(row, f, x)
    ensures forall k: nat :: k < at ==> dest[k] == old(dest[k])
  {
    hide OutSamples, ToBytes;
    Write16(dest, at, buf, cur, row, f, x);
    var m := 2 * (x * f.outN);
    WrittenBytes(dest[at..at + m], OutSamples(row, f, x), f);
  }

  method Expand8(f: Format, dest: array<byte>, at: nat, buf: array<byte>, cur: nat, ghost row: seq<byte>, x: nat,
                 n: nat, m: nat)
    requires f.Ok() && f.depth == 8 && dest != buf && n == x * f.imgN <= |row|
    requires cur + |row| <= buf.Length && row == buf[cur..cur + |row|]
    requires m == x * f.outN && at + m <= dest.Length
    modifies dest
    ensures n * f.depth <= 8 * |row| && dest[at..at + m] == PixelRow(row, f, x)
    ensures forall k: nat :: k < at ==> dest[k] == old(dest[k])
  {
    hide Narrow, AlphaBytes, Samples, PixelRow;
    Copied8(row, f, n);
    assert row[..n] == buf[cur..cur + |row|][..n] == buf[cur..cur + n];
    NarrowRow(row, f, x);
    if f.imgN == f.outN {
      forall i | 0 <= i < n {
        dest[at + i] := buf[cur + i];
      }
      assert dest[at..at + n] == buf[cur..cur + n];
    } else {
      AlphaExpand8(dest, at, buf, cur, x, f.imgN);
    }
  }

  method ExpandPacked(f: Format, dest: array<byte>, at: nat, buf: array<byte>, cur: nat, ghost row: seq<byte>, x: nat,
                      n: nat, m: nat)
    requires f.Ok() && f.depth < 8 && dest != buf && n == x * f.imgN && n * f.depth <= 8 * |row|
    requires cur + |row| <= buf.Length && row == buf[cur..cur + |row|]
    requires m == x * f.outN && at + m <= dest.Length
    modifies dest
    ensures dest[at..at + m] == PixelRow(row, f, x)
    ensures forall k: nat :: k < at ==> dest[k] == old(dest[k])
  {
    hide Narrow, AlphaBytes, Samples, PixelRow;
    FitsOut(f, x, n);
    UnpackRow(f, dest, at, buf, cur, row, n);
    NarrowRow(row, f, x);
    if f.imgN != f.outN {
      AlphaExpand8(dest, at, dest, at, x, f.imgN);
    }
  }

  method UnpackRow(f: Format, dest: array<byte>, at: nat, buf: array<byte>, cur: nat, ghost row: seq<byte>, n: nat)
    requires f.Ok() && f.depth < 8 && dest != buf && n * f.depth <= 8 * |row|
    requires cur + |row| <= buf.Length && row == buf[cur..cur + |row|] && at + n <= dest.Length
    modifies dest
    ensures dest[at..at + n] == Narrow(Samples(row, f, n))
    ensures forall k: nat :: k < at ==> dest[k] == old(dest[k])
  {
    hide SampleAt, ScaleFactor;
    EnoughSamples(|row|, f.depth, n);
    UnpackBits(dest, at, buf, cur, row, n, f.depth, f.color);
    UnpackedBytes(dest[at..at + n], row, f, n);
  }

  /** The pixels of a scanline of up to 8 bits a sample. */
  lemma NarrowRow(row: seq<byte>, f: Format, x: nat)
    requires f.Ok() && f.depth <= 8 && x * f.imgN * f.depth <= 8 * |row|
    ensures PixelRow(row, f, x) ==
      var s := Narrow(Samples(row, f, x * f.imgN));
      if f.outN == f.imgN then s else AlphaBytes(s, f.imgN)
  {
    hide Narrow, AddAlpha, AlphaBytes, Samples;
    NarrowIsBytes(OutSamples(row, f, x), f);
    if f.outN != f.imgN {
      NarrowThenAlpha(Samples(row, f, x * f.imgN), f.imgN, x);
    }
  }

  lemma FitsOut(f: Format, x: nat, n: nat)
    requires f.Ok() && n == x * f.imgN
    ensures n <= x * f.outN
  {
  }

  // ---- the image ----

  /** Every scanline is long enough for x pixels. */
  predicate Wide(rows: seq<seq<byte>>, f: Format, x: nat)
  {
    f.Ok() && forall j :: 0 <= j < |rows| ==> x * f.imgN * f.depth <= 8 * |rows[j]|
  }

  function Pixels(rows: seq<seq<byte>>, f: Format, x: nat): seq<byte>
    requires Wide(rows, f, x)
  {
    if rows == [] then [] else Pixels(rows[..|rows| - 1], f, x) + PixelRow(rows[|rows| - 1], f, x)
  }

  lemma Distribute(n: nat, k: nat)
    ensures (n + 1) * k == n * k + k
  {
  }

  lemma LineFacts(f: Format, x: nat)
    requires f.Ok() && 1 <= x
    ensures var w := f.LineBytes(x * f.imgN);
      && x * f.imgN * f.depth <= 8 * w && 0 < f.FilterBytes() <= w
      && w == if f.depth < 8 then w else x * f.FilterBytes()
  {
    var n := x * f.imgN;
    assert n >= f.imgN;
    if f.depth >= 8 {
      assert n * f.depth == 8 * (n * f.Bytes());
      assert f.LineBytes(n) == n * f.Bytes();
      assert x * f.imgN * f.Bytes() == x * (f.imgN * f.Bytes());
    }
  }

  /** The size checks of stbi__create_png_image_raw, those of its allocations included. */
  predicate SizesFit(f: Format, x: nat, y: nat)
  {
    var w := f.LineBytes(x * f.imgN);
    && Mad3SizesValid(x, y, f.outN * f.Bytes(), 0) && Mad3SizesValid(f.imgN, x, f.depth, 7)
    && Mad2SizesValid(w, y, w) && Mad2SizesValid(w, 2, 0)
  }

  /** They hold exactly when the image, the bits of a scanline and the scanlines have sizes that are ints. */
  lemma SizesFitIff(f: Format, x: nat, y: nat)
    requires f.Ok() && 1 <= x
    ensures SizesFit(f, x, y) <==>
            && x * y * (f.outN * f.Bytes()) <= INT_MAX && f.imgN * x * f.depth + 7 <= INT_MAX
            && f.LineBytes(x * f.imgN) * y + f.LineBytes(x * f.imgN) <= INT_MAX
  {
    hide Mad2SizesValid, Mad3SizesValid;
    var w := f.LineBytes(x * f.imgN);
    Mad3SizesValidIff(x, y, f.outN * f.Bytes(), 0);
    Mad3SizesValidIff(f.imgN, x, f.depth, 7);
    Mad2SizesValidIff(w, y, w);
    Mad2SizesValidIff(w, 2, 0);
    AtLeastOnce(x * y, f.outN * f.Bytes());
    AtLeastOnce(f.imgN * x, f.depth);
  }

  lemma AtLeastOnce(a: nat, b: nat)
    requires 1 <= b
    ensures a <= a * b
  {
  }

  /** No 32-bit unsigned number that stbi__create_png_image_raw computes wraps around. */
  lemma NothingWraps(f: Format, x: nat, y: nat, j: nat)
    requires f.Ok() && 1 <= x && SizesFit(f, x, y) && j < y
    ensures x * f.outN * f.Bytes() * j + x * f.outN * f.Bytes() <= INT_MAX
    ensures (f.LineBytes(x * f.imgN) + 1) * y < 0x1_0000_0000
  {
    hide SizesFit, Format.LineBytes, Format.Bytes;
    SizesFitIff(f, x, y);
    LineFacts(f, x);
    ImageSize(x, y, f.outN, f.Bytes(), j);
    LinesSize(f.LineBytes(x * f.imgN), y);
  }

  lemma ImageSize(x: nat, y: nat, n: nat, b: nat, j: nat)
    requires j < y
    ensures x * n * b * j + x * n * b <= x * y * (n * b)
  {
    Associate(x, n, b);
    SwapFactors(x, y, n * b);
    RowsFit(x * (n * b), j, y);
  }

  lemma Associate(a: nat, b: nat, c: nat)
    ensures a * b * c == a * (b * c)
  {
  }

  lemma SwapFactors(a: nat, b: nat, c: nat)
    ensures a * b * c == a * c * b
  {
    Associate(a, b, c);
    Associate(a, c, b);
  }

  lemma RowsFit(s: nat, j: nat, y: nat)
    requires j < y
    ensures s * j + s <= s * y
  {
    assert s * (j + 1) <= s * y;
  }

  lemma LinesSize(w: nat, y: nat)
    requires 1 <= w && w * y + w <= INT_MAX
    ensures (w + 1) * y < 0x1_0000_0000
  {
    assert y <= w * y;
  }

  /** What stbi__create_png_image_raw computes: nothing if a size is not an int, there is too little data or a bad
      filter type. */
  function RawImage(raw: seq<byte>, f: Format, x: nat, y: nat): (r: Option<seq<byte>>)
    requires f.Ok() && 1 <= x
  {
    LineFacts(f, x);
    var w := f.LineBytes(x * f.imgN);
    if !SizesFit(f, x, y) || |raw| < (w + 1) * y then None
    else
      match Rows(raw, w, f.FilterBytes(), Zeros(w), y)
      case None => None
      case Some(rows) => Some(Pixels(rows, f, x))
  }

  function Join(rows: seq<seq<byte>>, r: Option<seq<seq<byte>>>): Option<seq<seq<byte>>>
  {
    match r
    case None => None
    case Some(rest) => Some(rows + rest)
  }

  /** Decoding all y scanlines comes down to decoding those from pos on, with the given one above. */
  ghost predicate RowsReach(raw: seq<byte>, w: nat, bpp: nat, y: nat, rows: seq<seq<byte>>, pos: nat, prior: seq<byte>)
  {
    && 0 < bpp && |prior| == w && |rows| <= y && pos <= |raw|
    && Rows(raw, w, bpp, Zeros(w), y) == Join(rows, Rows(raw[pos..], w, bpp, prior, y - |rows|))
  }

  lemma RowsReachNext(raw: seq<byte>, w: nat, bpp: nat, y: nat, rows: seq<seq<byte>>, pos: nat, prior: seq<byte>)
    requires RowsReach(raw, w, bpp, y, rows, pos, prior) && |rows| < y && pos + 1 + w <= |raw| && raw[pos] <= 4
    ensures var row := Recon(raw[pos], raw[pos + 1..pos + 1 + w], prior, bpp, w);
      RowsReach(raw, w, bpp, y, rows + [row], pos + 1 + w, row)
  {
    hide Recon;
    var tail := raw[pos..];
    assert tail[1..1 + w] == raw[pos + 1..pos + 1 + w] && tail[1 + w..] == raw[pos + 1 + w..];
    var row := Recon(raw[pos], raw[pos + 1..pos + 1 + w], prior, bpp, w);
    var r := Rows(raw[pos + 1 + w..], w, bpp, row, y - |rows| - 1);
    if r.Some? {
      assert rows + ([row] + r.value) == rows + [row] + r.value;
    }
  }

  /** stbi__create_png_image_raw. */
  method CreateImageRaw(raw: seq<byte>, f: Format, x: nat, y: nat) returns (ok: bool, out: array<byte>)
    requires f.Ok() && 1 <= x
    ensures fresh(out) && (ok ==> out.Length == y * (x * f.outN * f.Bytes()))
    ensures ok <==> RawImage(raw, f, x, y).Some?
    ensures ok ==> out[..] == RawImage(raw, f, x, y).value
  {
    hide Rows, Pixels, Zeros, Mad2SizesValid, Mad3SizesValid;
    var stride := x * f.outN * f.Bytes();
    LineFacts(f, x);
    var w := f.LineBytes(x * f.imgN);
    out := new byte[0];
    if !Mad3SizesValid(x, y, f.outN * f.Bytes(), 0) {
      return false, out;
    }
    out := new byte[y * stride];
    if !Mad3SizesValid(f.imgN, x, f.depth, 7) || !Mad2SizesValid(w, y, w) {
      return false, out;
    }
    if |raw| < (w + 1) * y || !Mad2SizesValid(w, 2, 0) {
      return false, out;
    }
    var buf := new byte[2 * w];
    ghost var rows;
    ok, rows := DecodeRows(raw, f, x, y, w, f.FilterBytes(), stride, buf, out);
  }

  /** The sizes of a scanline and of its pixels. */
  predicate LineSizes(f: Format, x: nat, w: nat, bpp: nat, stride: nat)
  {
    f.Ok() && 0 < bpp <= w && x * f.imgN * f.depth <= 8 * w && stride == x * f.outN * f.Bytes()
  }

  /** The row loop. */
  method DecodeRows(raw: seq<byte>, f: Format, x: nat, y: nat, w: nat, bpp: nat, stride: nat, buf: array<byte>,
                    out: array<byte>)
    returns (ok: bool, ghost rows: seq<seq<byte>>)
    requires buf != out && buf.Length == 2 * w && out.Length == y * stride && (w + 1) * y <= |raw|
    requires LineSizes(f, x, w, bpp, stride)
    modifies buf, out
    ensures 0 < bpp
    ensures if ok then Rows(raw, w, bpp, Zeros(w), y) == Some(rows) && Wide(rows, f, x) && out[..] == Pixels(rows, f, x)
            else Rows(raw, w, bpp, Zeros(w), y) == None
  {
    hide Rows, Pixels, Zeros, Recon, RowsReach, PixelsDone, Above, Wide, LineSizes;
    ghost var prior := Zeros(w);
    rows := [];
    StartRows(raw, w, bpp, y, f, x, stride, out, buf);
    var pos, at := 0, 0;
    for j := 0 to y
      invariant |prior| == w && |rows| == j && pos == (w + 1) * j && RowsReach(raw, w, bpp, y, rows, pos, prior)
      invariant Above(buf, w, j, prior)
      invariant at == stride * j <= out.Length && PixelsDone(out, at, rows, f, x)
    {
      RowFits(raw, w, y, j, stride);
      var filter := raw[pos];
      if filter > 4 {
        BadFilter(raw, w, bpp, y, rows, pos, prior);
        return false, rows;
      }
      RowsReachNext(raw, w, bpp, y, rows, pos, prior);
      prior := UnfilterAndExpand(raw[pos + 1..pos + 1 + w], f, x, w, bpp, filter, j, buf, out, at, stride, prior, rows);
      rows := rows + [prior];
      pos, at := pos + 1 + w, at + stride;
    }
    EndRows(raw, w, bpp, y, rows, pos, prior, out, at, f, x);
    return true, rows;
  }

  function Half(j: nat, w: nat): nat
  {
    if j % 2 == 0 then 0 else w
  }

  /** prior is the scanline above row j: zeros, or what the other half of the buffer holds. */
  ghost predicate Above(buf: array<byte>, w: nat, j: nat, prior: seq<byte>)
    reads buf
  {
    buf.Length == 2 * w && prior == if j == 0 then Zeros(w) else buf[Half(j + 1, w)..Half(j + 1, w) + w]
  }

  ghost predicate PixelsDone(out: array<byte>, at: nat, rows: seq<seq<byte>>, f: Format, x: nat)
    reads out
  {
    Wide(rows, f, x) && at <= out.Length && out[..at] == Pixels(rows, f, x)
  }

  lemma RowFits(raw: seq<byte>, w: nat, y: nat, j: nat, stride: nat)
    requires j < y && (w + 1) * y <= |raw|
    ensures (w + 1) * (j + 1) == (w + 1) * j + 1 + w <= |raw|
    ensures stride * (j + 1) == stride * j + stride <= y * stride
  {
    assert (w + 1) * (j + 1) <= (w + 1) * y;
    assert stride * (j + 1) <= stride * y;
  }

  lemma StartRows(raw: seq<byte>, w: nat, bpp: nat, y: nat, f: Format, x: nat, stride: nat, out: array<byte>,
                  buf: array<byte>)
    requires LineSizes(f, x, w, bpp, stride) && buf.Length == 2 * w
    ensures |Zeros(w)| == w && RowsReach(raw, w, bpp, y, [], 0, Zeros(w))
    ensures PixelsDone(out, 0, [], f, x) && Above(buf, w, 0, Zeros(w))
  {
    assert raw[0..] == raw;
    var r := Rows(raw, w, bpp, Zeros(w), y);
    if r.Some? {
      assert [] + r.value == r.value;
    }
  }

  lemma BadFilter(raw: seq<byte>, w: nat, bpp: nat, y: nat, rows: seq<seq<byte>>, pos: nat, prior: seq<byte>)
    requires RowsReach(raw, w, bpp, y, rows, pos, prior) && |rows| < y && pos < |raw| && raw[pos] > 4
    ensures Rows(raw, w, bpp, Zeros(w), y) == None
  {
  }

  lemma EndRows(raw: seq<byte>, w: nat, bpp: nat, y: nat, rows: seq<seq<byte>>, pos: nat, prior: seq<byte>,
                out: array<byte>, at: nat, f: Format, x: nat)
    requires RowsReach(raw, w, bpp, y, rows, pos, prior) && |rows| == y
    requires at == out.Length && PixelsDone(out, at, rows, f, x)
    ensures Rows(raw, w, bpp, Zeros(w), y) == Some(rows) && Wide(rows, f, x) && out[..] == Pixels(rows, f, x)
  {
    assert rows + [] == rows;
    assert out[..at] == out[..];
  }

  /** The body of the row loop: the two halves of buf hold this scanline and the one above in turn. */
  method UnfilterAndExpand(filt: seq<byte>, f: Format, x: nat, w: nat, bpp: nat, filter: nat, j: nat, buf: array<byte>,
                           out: array<byte>, at: nat, stride: nat, ghost prior: seq<byte>, ghost rows: seq<seq<byte>>)
    returns (ghost row: seq<byte>)
    requires buf != out && |filt| == |prior| == w && filter <= 4 && LineSizes(f, x, w, bpp, stride)
    requires at + stride <= out.Length
    requires Above(buf, w, j, prior) && PixelsDone(out, at, rows, f, x)
    modifies buf, out
    ensures 0 < bpp && row == Recon(filter, filt, prior, bpp, w) && |row| == w
    ensures Above(buf, w, j + 1, row) && PixelsDone(out, at + stride, rows + [row], f, x)
  {
    hide Recon, PixelRow, Zeros, Pixels;
    var cur, pri := Half(j, w), Half(j + 1, w);
    UnfilterRow(buf, cur, pri, w, filt, bpp, filter, j == 0, prior);
    row := Recon(filter, filt, prior, bpp, w);
    ExpandRow(f, out, at, buf, cur, row, x);
    assert out[..at] == old(out[..at]);
    assert out[..at + stride] == out[..at] + out[at..at + stride];
    PixelsNext(rows, row, f, x);
  }

  lemma PixelsNext(rows: seq<seq<byte>>, row: seq<byte>, f: Format, x: nat)
    requires Wide(rows, f, x) && x * f.imgN * f.depth <= 8 * |row|
    ensures Wide(rows + [row], f, x) && Pixels(rows + [row], f, x) == Pixels(rows, f, x) + PixelRow(row, f, x)
  {
    hide PixelRow;
    assert (rows + [row])[..|rows|] == rows;
  }
}
