/** PNG filtering, section 6 of RFC 2083: the predictors, filtering a scanline and reconstructing it. */
module PngFilter {
  import opened Wrappers
  import opened Bits

  // ---- section 6.6: the Paeth predictor ----

  function Abs(x: int): nat
  {
    if x < 0 then -x else x
  }

  /** Whichever of left, above and upper left is nearest to a + b - c, in that order of preference. */
  function PaethPredictor(a: byte, b: byte, c: byte): byte
  {
    var p := a as int + b - c;
    var pa, pb, pc := Abs(p - a), Abs(p - b), Abs(p - c);
    if pa <= pb && pa <= pc then a else if pb <= pc then b else c
  }

  /** stbi__paeth. */
  function Paeth(a: int, b: int, c: int): int
  {
    var thresh := c * 3 - (a + b);
    var lo := if a < b then a else b;
    var hi := if a < b then b else a;
    var t0 := if hi <= thresh then lo else c;
    if thresh <= lo then hi else t0
  }

  /** The two forms of the predictor agree. */
  lemma PaethCorrect(a: byte, b: byte, c: byte)
    ensures Paeth(a, b, c) == PaethPredictor(a, b, c)
  {
  }

  // ---- filtering and reconstruction ----

  /** The prediction of filter type ft from the bytes to the left (a), above (b) and to the upper left (c). */
  function Predict(ft: nat, a: byte, b: byte, c: byte): byte
  {
    if ft == 1 then a
    else if ft == 2 then b
    else if ft == 3 then (a as int + b) / 2
    else if ft == 4 then PaethPredictor(a, b, c)
    else 0
  }

  /** The byte bpp places to the left of index i, 0 outside the scanline. */
  function Left(row: seq<byte>, i: nat, bpp: nat): byte
    requires 0 < bpp && i <= |row|
  {
    if i < bpp then 0 else row[i - bpp]
  }

  function FilterRow(ft: nat, row: seq<byte>, prior: seq<byte>, bpp: nat): (r: seq<byte>)
    requires 0 < bpp && |prior| == |row|
    ensures |r| == |row|
  {
    seq<byte>(|row|, i requires 0 <= i < |row| =>
      (row[i] as int - Predict(ft, Left(row, i, bpp), prior[i], Left(prior, i, bpp))) % 256)
  }

  function ReconByte(ft: nat, f: byte, a: byte, b: byte, c: byte): byte
  {
    (f as int + Predict(ft, a, b, c)) % 256
  }

  /** The first k bytes of a scanline, from its filtered bytes and the scanline above. */
  function Recon(ft: nat, filt: seq<byte>, prior: seq<byte>, bpp: nat, k: nat): (r: seq<byte>)
    requires 0 < bpp && |prior| == |filt| && k <= |filt|
    ensures |r| == k
  {
    if k == 0 then [] else
      var row := Recon(ft, filt, prior, bpp, k - 1);
      row + [ReconByte(ft, filt[k - 1], Left(row, k - 1, bpp), prior[k - 1], Left(prior, k - 1, bpp))]
  }

  lemma {:induction false} ReconInvertsFilter(ft: nat, row: seq<byte>, prior: seq<byte>, bpp: nat, k: nat)
    requires 0 < bpp && |prior| == |row| && k <= |row|
    ensures Recon(ft, FilterRow(ft, row, prior, bpp), prior, bpp, k) == row[..k]
  {
    if k > 0 {
      ReconInvertsFilter(ft, row, prior, bpp, k - 1);
      var i := k - 1;
      var p := Predict(ft, Left(row, i, bpp), prior[i], Left(prior, i, bpp));
      assert Left(row[..i], i, bpp) == Left(row, i, bpp);
      AddBack(row[i], p);
      assert row[..k] == row[..i] + [row[i]];
    }
  }

  lemma AddBack(x: byte, p: byte)
    ensures ((x as int - p) % 256 + p) % 256 == x
  {
  }

  // ---- images ----

  function Zeros(n: nat): (r: seq<byte>)
    ensures |r| == n
  {
    seq<byte>(n, _ => 0)
  }

  /** y scanlines of w bytes, each sent as a filter type byte and the filtered bytes; types above 4 are errors. */
  function Rows(raw: seq<byte>, w: nat, bpp: nat, prior: seq<byte>, y: nat): (r: Option<seq<seq<byte>>>)
    requires 0 < bpp && |prior| == w
    ensures r.Some? ==> |r.value| == y && forall j :: 0 <= j < y ==> |r.value[j]| == w
    decreases y
  {
    if y == 0 then Some([])
    else if |raw| < 1 + w || raw[0] > 4 then None
    else
      var row := Recon(raw[0], raw[1..1 + w], prior, bpp, w);
      match Rows(raw[1 + w..], w, bpp, row, y - 1)
      case None => None
      case Some(rest) => Some([row] + rest)
  }

  /** An encoder: each scanline filtered with the type chosen for it. */
  function FilterImage(rows: seq<seq<byte>>, types: seq<byte>, bpp: nat, prior: seq<byte>): seq<byte>
    requires 0 < bpp && |types| == |rows| && forall j :: 0 <= j < |rows| ==> |rows[j]| == |prior|
  {
    if rows == [] then []
    else [types[0]] + FilterRow(types[0], rows[0], prior, bpp) + FilterImage(rows[1..], types[1..], bpp, rows[0])
  }

  /** Reconstruction inverts filtering, for every choice of filter types; data after the image is ignored. */
  lemma {:induction false} UnfilterInvertsFilter(rows: seq<seq<byte>>, types: seq<byte>, bpp: nat, prior: seq<byte>,
                                                 extra: seq<byte>)
    requires 0 < bpp && |types| == |rows| && forall j :: 0 <= j < |rows| ==> |rows[j]| == |prior|
    requires forall j :: 0 <= j < |types| ==> types[j] <= 4
    ensures Rows(FilterImage(rows, types, bpp, prior) + extra, |prior|, bpp, prior, |rows|) == Some(rows)
    decreases |rows|
  {
    hide Recon, FilterRow;
    if rows != [] {
      var w := |prior|;
      var filt := FilterRow(types[0], rows[0], prior, bpp);
      FirstRow(types[0], filt, FilterImage(rows[1..], types[1..], bpp, rows[0]), extra);
      ReconInvertsFilter(types[0], rows[0], prior, bpp, w);
      assert rows[0][..w] == rows[0];
      UnfilterInvertsFilter(rows[1..], types[1..], bpp, rows[0], extra);
      assert rows == [rows[0]] + rows[1..];
    }
  }

  lemma FirstRow(t: byte, filt: seq<byte>, more: seq<byte>, extra: seq<byte>)
    ensures var raw := [t] + filt + more + extra;
      raw[0] == t && raw[1..1 + |filt|] == filt && raw[1 + |filt|..] == more + extra
  {
  }
}
