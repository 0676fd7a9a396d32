/** The filter loops of stbi__create_png_image_raw: they work in place in a buffer of two scanlines that
    trade places from row to row. */
module PngUnfilter {
  import opened Bits
  import opened PngFilter

  const F_NONE: nat := 0
  const F_SUB: nat := 1
  const F_UP: nat := 2
  const F_AVG: nat := 3
  const F_PAETH: nat := 4
  const F_AVG_FIRST: nat := 5

  /** first_row_filter. */
  const FIRST_ROW_FILTER: seq<nat> := [F_NONE, F_SUB, F_NONE, F_AVG_FIRST, F_SUB]

  /** STBI__BYTECAST. */
  function ByteCast(x: nat): byte
  {
    x % 256
  }

  /** The scanlines at offsets cur and pri do not overlap. */
  predicate TwoLines(length: nat, cur: nat, pri: nat, w: nat)
  {
    cur + w <= length && pri + w <= length && (cur + w <= pri || pri + w <= cur)
  }

  method Put(buf: array<byte>, cur: nat, ghost pri: nat, ghost w: nat, k: nat, v: byte)
    requires TwoLines(buf.Length, cur, pri, w) && k < w
    modifies buf
    ensures buf[cur..cur + k + 1] == old(buf[cur..cur + k]) + [v]
    ensures buf[pri..pri + w] == old(buf[pri..pri + w])
  {
    buf[cur + k] := v;
  }

  /** The next reconstructed byte. */
  method Next(buf: array<byte>, cur: nat, ghost pri: nat, ghost w: nat, k: nat, v: byte,
              ghost ft: nat, ghost filt: seq<byte>, ghost prior: seq<byte>, ghost bpp: nat)
    requires TwoLines(buf.Length, cur, pri, w) && |filt| == |prior| == w && 0 < bpp && k < w
    requires buf[cur..cur + k] == Recon(ft, filt, prior, bpp, k)
    requires v == ReconByte(ft, filt[k], if k < bpp then 0 else buf[cur + k - bpp], prior[k], Left(prior, k, bpp))
    modifies buf
    ensures buf[cur..cur + k + 1] == Recon(ft, filt, prior, bpp, k + 1)
    ensures buf[pri..pri + w] == old(buf[pri..pri + w])
  {
    hide ReconByte;
    assert Left(buf[cur..cur + k], k, bpp) == if k < bpp then 0 else buf[cur + k - bpp];
    Put(buf, cur, pri, w, k, v);
  }

  /** memcpy of the first n filtered bytes, for filters that predict 0 there. */
  method CopyHead(buf: array<byte>, cur: nat, ghost pri: nat, w: nat, filt: seq<byte>, n: nat)
    requires TwoLines(buf.Length, cur, pri, w) && |filt| == w && n <= w
    modifies buf
    ensures buf[cur..cur + n] == filt[..n]
    ensures buf[pri..pri + w] == old(buf[pri..pri + w])
  {
    for k := 0 to n
      invariant buf[cur..cur + k] == filt[..k]
      invariant buf[pri..pri + w] == old(buf[pri..pri + w])
    {
      Put(buf, cur, pri, w, k, filt[k]);
    }
  }

  lemma {:induction false} ReconNone(filt: seq<byte>, prior: seq<byte>, bpp: nat, k: nat)
    requires 0 < bpp && |prior| == |filt| && k <= |filt|
    ensures Recon(0, filt, prior, bpp, k) == filt[..k]
  {
    if k > 0 {
      ReconNone(filt, prior, bpp, k - 1);
    }
  }

  /** Left of the first pixel, and above the first row, everything is 0. */
  lemma {:induction false} ReconHead(ft: nat, filt: seq<byte>, prior: seq<byte>, bpp: nat, k: nat)
    requires 0 < bpp && |prior| == |filt| && k <= |filt| && k <= bpp
    requires ft == 1 || ((ft == 3 || ft == 4) && prior == Zeros(|filt|))
    ensures Recon(ft, filt, prior, bpp, k) == filt[..k]
  {
    if k > 0 {
      ReconHead(ft, filt, prior, bpp, k - 1);
    }
  }

  lemma FirstRowBytes(f: byte, a: byte, c: byte)
    ensures ReconByte(2, f, a, 0, c) == ReconByte(0, f, a, 0, c) && ReconByte(4, f, a, 0, 0) == ReconByte(1, f, a, 0, 0)
  {
  }

  /** In the first row, up predicts like none... */
  lemma {:induction false} FirstRowUp(filt: seq<byte>, bpp: nat, k: nat)
    requires 0 < bpp && k <= |filt|
    ensures Recon(2, filt, Zeros(|filt|), bpp, k) == Recon(0, filt, Zeros(|filt|), bpp, k)
  {
    hide ReconByte;
    if k > 0 {
      FirstRowUp(filt, bpp, k - 1);
      var i, zeros := k - 1, Zeros(|filt|);
      FirstRowBytes(filt[i], Left(Recon(0, filt, zeros, bpp, i), i, bpp), Left(zeros, i, bpp));
    }
  }

  /** ...and Paeth like sub. */
  lemma {:induction false} FirstRowPaeth(filt: seq<byte>, bpp: nat, k: nat)
    requires 0 < bpp && k <= |filt|
    ensures Recon(4, filt, Zeros(|filt|), bpp, k) == Recon(1, filt, Zeros(|filt|), bpp, k)
  {
    hide ReconByte;
    if k > 0 {
      FirstRowPaeth(filt, bpp, k - 1);
      var i, zeros := k - 1, Zeros(|filt|);
      FirstRowBytes(filt[i], Left(Recon(1, filt, zeros, bpp, i), i, bpp), 0);
    }
  }

  method Sub(buf: array<byte>, cur: nat, ghost pri: nat, w: nat, filt: seq<byte>, bpp: nat, ghost prior: seq<byte>)
    requires TwoLines(buf.Length, cur, pri, w) && |filt| == |prior| == w && 0 < bpp <= w
    modifies buf
    ensures buf[cur..cur + w] == Recon(1, filt, prior, bpp, w)
    ensures buf[pri..pri + w] == old(buf[pri..pri + w])
  {
    hide Recon;
    CopyHead(buf, cur, pri, w, filt, bpp);
    ReconHead(1, filt, prior, bpp, bpp);
    for k := bpp to w
      invariant buf[cur..cur + k] == Recon(1, filt, prior, bpp, k)
      invariant buf[pri..pri + w] == old(buf[pri..pri + w])
    {
      Next(buf, cur, pri, w, k, ByteCast(filt[k] as int + buf[cur + k - bpp]), 1, filt, prior, bpp);
    }
  }

  method Up(buf: array<byte>, cur: nat, pri: nat, w: nat, filt: seq<byte>, ghost bpp: nat, ghost prior: seq<byte>)
    requires TwoLines(buf.Length, cur, pri, w) && |filt| == |prior| == w && 0 < bpp <= w && prior == buf[pri..pri + w]
    modifies buf
    ensures buf[cur..cur + w] == Recon(2, filt, prior, bpp, w)
    ensures buf[pri..pri + w] == old(buf[pri..pri + w])
  {
    hide Recon;
    ReconEmpty(2, filt, prior, bpp);
    for k := 0 to w
      invariant buf[cur..cur + k] == Recon(2, filt, prior, bpp, k)
      invariant buf[pri..pri + w] == prior
    {
      assert buf[pri + k] == prior[k];
      Next(buf, cur, pri, w, k, ByteCast(filt[k] as int + buf[pri + k]), 2, filt, prior, bpp);
    }
  }

  method Avg(buf: array<byte>, cur: nat, pri: nat, w: nat, filt: seq<byte>, bpp: nat, ghost prior: seq<byte>)
    requires TwoLines(buf.Length, cur, pri, w) && |filt| == |prior| == w && 0 < bpp <= w && prior == buf[pri..pri + w]
    modifies buf
    ensures buf[cur..cur + w] == Recon(3, filt, prior, bpp, w)
    ensures buf[pri..pri + w] == old(buf[pri..pri + w])
  {
    hide Recon;
    ReconEmpty(3, filt, prior, bpp);
    for k := 0 to bpp
      invariant buf[cur..cur + k] == Recon(3, filt, prior, bpp, k)
      invariant buf[pri..pri + w] == prior
    {
      assert buf[pri + k] == prior[k];
      Next(buf, cur, pri, w, k, ByteCast(filt[k] as int + buf[pri + k] / 2), 3, filt, prior, bpp);
    }
    for k := bpp to w
      invariant buf[cur..cur + k] == Recon(3, filt, prior, bpp, k)
      invariant buf[pri..pri + w] == prior
    {
      assert buf[pri + k] == prior[k];
      Next(buf, cur, pri, w, k, ByteCast(filt[k] as int + (buf[pri + k] as int + buf[cur + k - bpp]) / 2), 3, filt,
           prior, bpp);
    }
  }

  method AvgFirst(buf: array<byte>, cur: nat, ghost pri: nat, w: nat, filt: seq<byte>, bpp: nat)
    requires TwoLines(buf.Length, cur, pri, w) && |filt| == w && 0 < bpp <= w
    modifies buf
    ensures buf[cur..cur + w] == Recon(3, filt, Zeros(w), bpp, w)
    ensures buf[pri..pri + w] == old(buf[pri..pri + w])
  {
    hide Recon;
    CopyHead(buf, cur, pri, w, filt, bpp);
    ReconHead(3, filt, Zeros(w), bpp, bpp);
    for k := bpp to w
      invariant buf[cur..cur + k] == Recon(3, filt, Zeros(w), bpp, k)
      invariant buf[pri..pri + w] == old(buf[pri..pri + w])
    {
      Next(buf, cur, pri, w, k, ByteCast(filt[k] as int + buf[cur + k - bpp] / 2), 3, filt, Zeros(w), bpp);
    }
  }

  lemma ReconEmpty(ft: nat, filt: seq<byte>, prior: seq<byte>, bpp: nat)
    requires 0 < bpp && |prior| == |filt|
    ensures Recon(ft, filt, prior, bpp, 0) == []
  {
  }

  lemma PaethHead(b: byte)
    ensures PaethPredictor(0, b, 0) == b
  {
  }

  method PaethRow(buf: array<byte>, cur: nat, pri: nat, w: nat, filt: seq<byte>, bpp: nat, ghost prior: seq<byte>)
    requires TwoLines(buf.Length, cur, pri, w) && |filt| == |prior| == w && 0 < bpp <= w && prior == buf[pri..pri + w]
    modifies buf
    ensures buf[cur..cur + w] == Recon(4, filt, prior, bpp, w)
    ensures buf[pri..pri + w] == old(buf[pri..pri + w])
  {
    hide Recon, PaethPredictor, Paeth;
    ReconEmpty(4, filt, prior, bpp);
    for k := 0 to bpp
      invariant buf[cur..cur + k] == Recon(4, filt, prior, bpp, k)
      invariant buf[pri..pri + w] == prior
    {
      assert buf[pri + k] == prior[k];
      PaethHead(prior[k]);
      Next(buf, cur, pri, w, k, ByteCast(filt[k] as int + buf[pri + k]), 4, filt, prior, bpp);
    }
    for k := bpp to w
      invariant buf[cur..cur + k] == Recon(4, filt, prior, bpp, k)
      invariant buf[pri..pri + w] == prior
    {
      assert buf[pri + k] == prior[k] && buf[pri + k - bpp] == prior[k - bpp];
      var p := PaethByte(buf[cur + k - bpp], buf[pri + k], buf[pri + k - bpp]);
      Next(buf, cur, pri, w, k, ByteCast(filt[k] as int + p), 4, filt, prior, bpp);
    }
  }

  method PaethByte(a: byte, b: byte, c: byte) returns (p: nat)
    ensures p == PaethPredictor(a, b, c)
  {
    PaethCorrect(a, b, c);
    p := Paeth(a, b, c);
  }

  /** The filter switch for one scanline; the first row has its own filters and never reads the other line. */
  method UnfilterRow(buf: array<byte>, cur: nat, pri: nat, w: nat, filt: seq<byte>, bpp: nat, ft: nat, first: bool,
                     ghost prior: seq<byte>)
    requires TwoLines(buf.Length, cur, pri, w) && |filt| == |prior| == w && 0 < bpp <= w && ft <= 4
    requires prior == if first then Zeros(w) else buf[pri..pri + w]
    modifies buf
    ensures buf[cur..cur + w] == Recon(ft, filt, prior, bpp, w)
    ensures buf[pri..pri + w] == old(buf[pri..pri + w])
  {
    var filter := if first then FIRST_ROW_FILTER[ft] else ft;
    if first {
      FirstRowUp(filt, bpp, w);
      FirstRowPaeth(filt, bpp, w);
    }
    ReconNone(filt, prior, bpp, w);
    if filter == F_NONE {
      CopyHead(buf, cur, pri, w, filt, w);
    } else if filter == F_SUB {
      Sub(buf, cur, pri, w, filt, bpp, prior);
    } else if filter == F_UP {
      Up(buf, cur, pri, w, filt, bpp, prior);
    } else if filter == F_AVG {
      Avg(buf, cur, pri, w, filt, bpp, prior);
    } else if filter == F_PAETH {
      PaethRow(buf, cur, pri, w, filt, bpp, prior);
    } else {
      AvgFirst(buf, cur, pri, w, filt, bpp);
    }
  }
}
