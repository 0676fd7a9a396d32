/** Encodings of data in the DEFLATE format, with every choice section 3.2 of RFC 1951 leaves to an encoder, and the law
    that the reference decoder gives back what has been encoded. */
module DeflateEncoding {
  import opened Wrappers
  import opened Bits
  import opened BitStream
  import opened BitWriter
  import opened Canonical
  import opened Rfc1951

  // ---- section 3.1.1: numbers and codes as bits ----

  /** An n-bit prefix code, most significant bit first. */
  function Code(c: nat, n: nat): (r: seq<nat>)
    ensures |r| == n
  {
    if n == 0 then [] else Code(c / 2, n - 1) + [c % 2]
  }

  lemma {:induction false} CodeMeansCodeAt(input: seq<byte>, p: nat, c: nat, n: nat)
    requires BitsAt(input, p, Code(c, n)) && c < Pow2(n)
    ensures CodeAt(input, p, n) == c
  {
    if n > 0 {
      BitsSplit(input, p, Code(c / 2, n - 1), [c % 2]);
      assert Bit(input, p + (n - 1) + 0) == [c % 2][0];
      CodeMeansCodeAt(input, p, c / 2, n - 1);
    }
  }

  // ---- symbols ----

  function SymbolBits(lens: seq<nat>, sym: nat): (r: seq<nat>)
    requires sym < |lens|
    ensures |r| == lens[sym]
  {
    Code(CodeOf(lens, sym), lens[sym])
  }

  lemma SymbolDecodes(input: seq<byte>, p: nat, lens: seq<nat>, sym: nat)
    requires KraftOk(lens) && sym < |lens| && lens[sym] > 0 && BitsAt(input, p, SymbolBits(lens, sym))
    ensures Symbol(input, p, lens) == Some(sym)
  {
    CodeFits(lens, sym);
    CodeMeansCodeAt(input, p, CodeOf(lens, sym), lens[sym]);
    SymbolIsUnique(input, p, lens, sym);
  }

  // ---- section 3.2.5: literals and matches ----

  /** A literal, or a match as an encoder writes it: a length symbol, a distance symbol and their extra bits. */
  datatype Token = Literal(b: byte) | Copy(sym: nat, extra: nat, dsym: nat, dextra: nat)

  predicate TokenOk(t: Token, lit: seq<nat>, dist: seq<nat>)
  {
    match t
    case Literal(b) => b < |lit| && lit[b] > 0
    case Copy(sym, extra, dsym, dextra) =>
      && 257 <= sym <= 285 && sym < |lit| && lit[sym] > 0 && extra < Pow2(LengthExtra(sym))
      && dsym < 30 && dsym < |dist| && dist[dsym] > 0 && dextra < Pow2(DistExtra(dsym))
  }

  function Distance(t: Token): nat
    requires t.Copy?
  {
    DistBase(t.dsym) + t.dextra
  }

  /** A match may not reach back beyond the beginning of the data. */
  predicate Reaches(t: Token, out: seq<byte>)
  {
    t.Copy? ==> Distance(t) <= |out|
  }

  function Apply(t: Token, lit: seq<nat>, dist: seq<nat>, out: seq<byte>): (r: seq<byte>)
    requires TokenOk(t, lit, dist) && Reaches(t, out)
  {
    match t
    case Literal(b) => out + [b]
    case Copy(sym, extra, dsym, dextra) => CopyMatch(out, LengthBase(sym) + extra, Distance(t))
  }

  function TokenBits(t: Token, lit: seq<nat>, dist: seq<nat>): seq<nat>
    requires TokenOk(t, lit, dist)
  {
    match t
    case Literal(b) => SymbolBits(lit, b)
    case Copy(sym, extra, dsym, dextra) =>
      SymbolBits(lit, sym)
        + (Number(extra, LengthExtra(sym)) + (SymbolBits(dist, dsym) + Number(dextra, DistExtra(dsym))))
  }

  lemma TokenDecodes(input: seq<byte>, p: nat, t: Token, lit: seq<nat>, dist: seq<nat>, out: seq<byte>)
    requires KraftOk(lit) && KraftOk(dist) && TokenOk(t, lit, dist) && Reaches(t, out)
    requires BitsAt(input, p, TokenBits(t, lit, dist))
    ensures NextItem(input, p, out, lit, dist) == More(Apply(t, lit, dist, out), p + |TokenBits(t, lit, dist)|)
  {
    hide KraftOk, BitsAt, SymbolBits, LengthBase, DistBase, CopyMatch, MatchAt, Number, LengthExtra, DistExtra, Pow2;
    hide Symbol;
    match t
    case Literal(b) =>
      SymbolDecodes(input, p, lit, b);
    case Copy(sym, extra, dsym, dextra) =>
      var a, b := LengthExtra(sym), DistExtra(dsym);
      var rest2 := SymbolBits(dist, dsym) + Number(dextra, b);
      BitsSplit(input, p, SymbolBits(lit, sym), Number(extra, a) + rest2);
      BitsSplit(input, p + lit[sym], Number(extra, a), rest2);
      BitsSplit(input, p + lit[sym] + a, SymbolBits(dist, dsym), Number(dextra, b));
      SymbolDecodes(input, p, lit, sym);
      MatchDecodes(input, p + lit[sym], t, lit, dist);
  }

  lemma MatchDecodes(input: seq<byte>, p: nat, t: Token, lit: seq<nat>, dist: seq<nat>)
    requires KraftOk(dist) && TokenOk(t, lit, dist) && t.Copy?
    requires BitsAt(input, p, Number(t.extra, LengthExtra(t.sym)))
    requires BitsAt(input, p + LengthExtra(t.sym), SymbolBits(dist, t.dsym))
    requires BitsAt(input, p + LengthExtra(t.sym) + dist[t.dsym], Number(t.dextra, DistExtra(t.dsym)))
    ensures MatchAt(input, p, t.sym, dist) ==
      Some(Match(LengthBase(t.sym) + t.extra, Distance(t), p + LengthExtra(t.sym) + dist[t.dsym] + DistExtra(t.dsym)))
  {
    hide KraftOk, BitsAt, SymbolBits, LengthBase, DistBase, Number, LengthExtra, DistExtra, Symbol, Pow2, Field;
    NumberField(input, p, t.extra, LengthExtra(t.sym));
    SymbolDecodes(input, p + LengthExtra(t.sym), dist, t.dsym);
    NumberField(input, p + LengthExtra(t.sym) + dist[t.dsym], t.dextra, DistExtra(t.dsym));
  }

  // ---- compressed data ----

  ghost predicate TokensOk(ts: seq<Token>, lit: seq<nat>, dist: seq<nat>, out: seq<byte>)
    decreases |ts|
  {
    ts != [] ==>
      && TokenOk(ts[0], lit, dist) && Reaches(ts[0], out)
      && TokensOk(ts[1..], lit, dist, Apply(ts[0], lit, dist, out))
  }

  ghost function ApplyAll(ts: seq<Token>, lit: seq<nat>, dist: seq<nat>, out: seq<byte>): seq<byte>
    requires TokensOk(ts, lit, dist, out)
    decreases |ts|
  {
    if ts == [] then out else ApplyAll(ts[1..], lit, dist, Apply(ts[0], lit, dist, out))
  }

  predicate CodesOk(lit: seq<nat>, dist: seq<nat>)
  {
    KraftOk(lit) && KraftOk(dist) && 256 < |lit| && lit[256] > 0
  }

  /** The tokens and the end-of-block symbol. */
  ghost function DataBits(ts: seq<Token>, lit: seq<nat>, dist: seq<nat>, out: seq<byte>): seq<nat>
    requires CodesOk(lit, dist) && TokensOk(ts, lit, dist, out)
    decreases |ts|
  {
    if ts == [] then SymbolBits(lit, 256)
    else TokenBits(ts[0], lit, dist) + DataBits(ts[1..], lit, dist, Apply(ts[0], lit, dist, out))
  }

  lemma {:induction false} CodesDecode(input: seq<byte>, p: nat, ts: seq<Token>, lit: seq<nat>, dist: seq<nat>,
                                       out: seq<byte>, limit: nat)
    requires CodesOk(lit, dist) && TokensOk(ts, lit, dist, out)
    requires BitsAt(input, p, DataBits(ts, lit, dist, out)) && p + |DataBits(ts, lit, dist, out)| <= limit
    ensures Codes(input, p, out, lit, dist, limit)
         == Some(Step(ApplyAll(ts, lit, dist, out), p + |DataBits(ts, lit, dist, out)|))
    decreases |ts|
  {
    hide BitsAt, TokenBits, SymbolBits, NextItem, KraftOk, TokenOk, Apply;
    if ts == [] {
      EndDecodes(input, p, lit, dist, out);
    } else {
      var out' := Apply(ts[0], lit, dist, out);
      var bits, rest := TokenBits(ts[0], lit, dist), DataBits(ts[1..], lit, dist, out');
      BitsSplit(input, p, bits, rest);
      TokenDecodes(input, p, ts[0], lit, dist, out);
      CodesDecode(input, p + |bits|, ts[1..], lit, dist, out', limit);
    }
  }

  lemma EndDecodes(input: seq<byte>, p: nat, lit: seq<nat>, dist: seq<nat>, out: seq<byte>)
    requires CodesOk(lit, dist) && BitsAt(input, p, SymbolBits(lit, 256))
    ensures NextItem(input, p, out, lit, dist) == EndOfBlock(p + lit[256])
  {
    SymbolDecodes(input, p, lit, 256);
  }

  // ---- section 3.2.7: dynamic codes ----

  /** A code length symbol with its repeat count. */
  datatype Run = Run(c: nat, extra: nat)

  predicate RunOk(r: Run, code: seq<nat>, acc: seq<nat>)
  {
    r.c < |code| <= 19 && code[r.c] > 0 && r.extra < Pow2(RunBits(r.c)) && (r.c == 16 ==> acc != [])
  }

  /** The lengths that a run adds. */
  function Lengthen(r: Run, acc: seq<nat>): seq<nat>
    requires r.c == 16 ==> acc != []
  {
    acc + if r.c < 16 then [r.c] else Fill(if r.c == 16 then acc[|acc| - 1] else 0, RunBase(r.c) + r.extra)
  }

  function RunBitsOf(r: Run, code: seq<nat>): seq<nat>
    requires r.c < |code|
  {
    SymbolBits(code, r.c) + Number(r.extra, RunBits(r.c))
  }

  lemma RunDecodes(input: seq<byte>, p: nat, r: Run, code: seq<nat>, acc: seq<nat>, total: nat)
    requires KraftOk(code) && RunOk(r, code, acc) && |Lengthen(r, acc)| <= total
    requires BitsAt(input, p, RunBitsOf(r, code))
    ensures NextLengths(input, p, code, acc, total) == Some(Lens(Lengthen(r, acc), p + |RunBitsOf(r, code)|))
  {
    hide KraftOk, BitsAt, SymbolBits, Number, Pow2, Symbol, Fill;
    BitsSplit(input, p, SymbolBits(code, r.c), Number(r.extra, RunBits(r.c)));
    SymbolDecodes(input, p, code, r.c);
    NumberField(input, p + code[r.c], r.extra, RunBits(r.c));
  }

  /** The runs make up the lengths `all`, starting with acc. */
  ghost predicate RunsOk(rs: seq<Run>, code: seq<nat>, acc: seq<nat>, all: seq<nat>)
    decreases |rs|
  {
    if rs == [] then acc == all
    else RunOk(rs[0], code, acc) && |acc| < |all| && |Lengthen(rs[0], acc)| <= |all|
         && RunsOk(rs[1..], code, Lengthen(rs[0], acc), all)
  }

  ghost function RunsBits(rs: seq<Run>, code: seq<nat>, acc: seq<nat>, all: seq<nat>): seq<nat>
    requires RunsOk(rs, code, acc, all)
    decreases |rs|
  {
    if rs == [] then [] else RunBitsOf(rs[0], code) + RunsBits(rs[1..], code, Lengthen(rs[0], acc), all)
  }

  lemma {:induction false} RunsDecode(input: seq<byte>, p: nat, rs: seq<Run>, code: seq<nat>, acc: seq<nat>,
                                      all: seq<nat>)
    requires KraftOk(code) && |code| <= 19 && |acc| <= |all| && RunsOk(rs, code, acc, all)
    requires BitsAt(input, p, RunsBits(rs, code, acc, all))
    ensures ReadLengths(input, p, code, acc, |all|) == Some(Lens(all, p + |RunsBits(rs, code, acc, all)|))
    decreases |rs|
  {
    hide KraftOk, BitsAt, RunBitsOf, NextLengths, Lengthen, RunBits, Pow2;
    if rs != [] {
      var acc' := Lengthen(rs[0], acc);
      var bits, rest := RunBitsOf(rs[0], code), RunsBits(rs[1..], code, acc', all);
      BitsSplit(input, p, bits, rest);
      RunDecodes(input, p, rs[0], code, acc, |all|);
      RunsDecode(input, p + |bits|, rs[1..], code, acc', all);
    }
  }

  /** Which code length symbol comes at place r. */
  function Unrank(r: nat): (s: nat)
    requires r < 19
    ensures s < 19
  {
    if r < 3 then 16 + r else if r == 3 then 0 else if r % 2 == 0 then 8 + (r - 4) / 2 else 7 - (r - 5) / 2
  }

  lemma RankUnrank(s: nat)
    requires s < 19
    ensures Rank(s) < 19 && Unrank(Rank(s)) == s
  {
  }

  /** The first n of the 3-bit lengths of the code length code. */
  function ThreeBits(code: seq<nat>, n: nat): (r: seq<nat>)
    requires |code| == 19 && n <= 19
    ensures |r| == 3 * n
  {
    if n == 0 then [] else ThreeBits(code, n - 1) + Number(code[Unrank(n - 1)], 3)
  }

  lemma {:induction false} ThreeBitsField(input: seq<byte>, p: nat, code: seq<nat>, n: nat, r: nat)
    requires |code| == 19 && r < n <= 19 && BitsAt(input, p, ThreeBits(code, n)) && code[Unrank(r)] < 8
    ensures Field(input, p + 3 * r, 3) == code[Unrank(r)]
    decreases n
  {
    hide Field, Unrank;
    BitsSplit(input, p, ThreeBits(code, n - 1), Number(code[Unrank(n - 1)], 3));
    if r < n - 1 {
      ThreeBitsField(input, p, code, n - 1, r);
    } else {
      assert Pow2(3) == 8;
      NumberField(input, p + 3 * (n - 1), code[Unrank(r)], 3);
    }
  }

  /** A dynamic header: the code length code, of which the first hclen lengths are sent, and the runs. */
  datatype Dynamic = Dynamic(lit: seq<nat>, dist: seq<nat>, hclen: nat, code: seq<nat>, runs: seq<Run>)

  ghost predicate HeaderOk(h: Dynamic)
  {
    && CodesOk(h.lit, h.dist) && 257 <= |h.lit| <= 288 && 1 <= |h.dist| <= 32
    && 4 <= h.hclen <= 19 && |h.code| == 19 && KraftOk(h.code)
    && (forall s :: 0 <= s < 19 ==> h.code[s] < 8 && (Rank(s) >= h.hclen ==> h.code[s] == 0))
    && RunsOk(h.runs, h.code, [], h.lit + h.dist)
  }

  ghost function HeaderBits(h: Dynamic): seq<nat>
    requires HeaderOk(h)
  {
    Number(|h.lit| - 257, 5) + (Number(|h.dist| - 1, 5) + (Number(h.hclen - 4, 4)
      + (ThreeBits(h.code, h.hclen) + RunsBits(h.runs, h.code, [], h.lit + h.dist))))
  }

  lemma CodeLengthsDecode(input: seq<byte>, p: nat, code: seq<nat>, hclen: nat)
    requires |code| == 19 && hclen <= 19 && BitsAt(input, p, ThreeBits(code, hclen))
    requires forall s :: 0 <= s < 19 ==> code[s] < 8 && (Rank(s) >= hclen ==> code[s] == 0)
    ensures CodeLengthCode(input, p, hclen) == code
  {
    hide BitsAt, ThreeBits, Field;
    forall s | 0 <= s < 19
      ensures CodeLengthCode(input, p, hclen)[s] == code[s]
    {
      RankUnrank(s);
      if Rank(s) < hclen {
        ThreeBitsField(input, p, code, hclen, Rank(s));
      }
    }
  }

  lemma HeaderDecodes(input: seq<byte>, p: nat, h: Dynamic)
    requires HeaderOk(h) && BitsAt(input, p, HeaderBits(h))
    ensures DynamicHeader(input, p) == Some(Header(h.lit, h.dist, p + |HeaderBits(h)|))
  {
    hide BitsAt, Field, KraftOk, ThreeBits, RunsBits, RunsOk, CodeLengthCode, ReadLengths, Number, Rank;
    var all := h.lit + h.dist;
    var d := RunsBits(h.runs, h.code, [], all);
    var c := ThreeBits(h.code, h.hclen) + d;
    var b := Number(h.hclen - 4, 4) + c;
    BitsSplit(input, p, Number(|h.lit| - 257, 5), Number(|h.dist| - 1, 5) + b);
    BitsSplit(input, p + 5, Number(|h.dist| - 1, 5), b);
    BitsSplit(input, p + 10, Number(h.hclen - 4, 4), c);
    BitsSplit(input, p + 14, ThreeBits(h.code, h.hclen), d);
    Pow2Values();
    NumberField(input, p, |h.lit| - 257, 5);
    NumberField(input, p + 5, |h.dist| - 1, 5);
    NumberField(input, p + 10, h.hclen - 4, 4);
    CodeLengthsDecode(input, p + 14, h.code, h.hclen);
    RunsDecode(input, p + 14 + 3 * h.hclen, h.runs, h.code, [], all);
    assert all[..|h.lit|] == h.lit && all[|h.lit|..] == h.dist;
  }

  /** A smallest example: one-bit codes for the literal 0 and the end of a block. */
  function SmallLit(): seq<nat>
  {
    seq(257, i => if i == 0 || i == 256 then 1 else 0)
  }

  function SmallHeader(): Dynamic
  {
    Dynamic(SmallLit(), [1], 18, seq(19, s => if s == 1 || s == 18 then 1 else 0),
            [Run(1, 0), Run(18, 127), Run(18, 106), Run(1, 0), Run(1, 0)])
  }

  lemma {:induction false} SmallLitSum(n: nat)
    requires n <= 257
    ensures Lengths(SmallLit()) && KraftSum(SmallLit(), n) == if n == 0 then 0 else if n < 257 then 0x8000 else 0x1_0000
  {
    Pow2Values();
    if n > 0 {
      SmallLitSum(n - 1);
    }
  }

  lemma {:induction false} SmallCodeSum(n: nat)
    requires n <= 19
    ensures Lengths(SmallHeader().code)
    ensures KraftSum(SmallHeader().code, n) == if n < 2 then 0 else if n < 19 then 0x8000 else 0x1_0000
  {
    Pow2Values();
    if n > 0 {
      SmallCodeSum(n - 1);
    }
  }

  /** Dynamic headers exist. */
  lemma SmallHeaderOk()
    ensures HeaderOk(SmallHeader())
  {
    hide RunsOk, KraftSum, SmallLit, Rank, Lengths;
    SmallLitOk();
    SmallCodeOk();
    SmallDist();
    SmallRuns();
  }

  lemma SmallLitOk()
    ensures KraftOk(SmallLit()) && |SmallLit()| == 257 && SmallLit()[256] == 1
  {
    SmallLitSum(257);
  }

  lemma SmallCodeOk()
    ensures KraftOk(SmallHeader().code)
    ensures forall s :: 0 <= s < 19 ==> SmallHeader().code[s] < 8 && (Rank(s) >= 18 ==> SmallHeader().code[s] == 0)
  {
    hide SmallHeader, Rank, Lengths;
    SmallCodeSum(19);
    SmallCodeLength();
    forall s | 0 <= s < 19
      ensures SmallHeader().code[s] < 8 && (Rank(s) >= 18 ==> SmallHeader().code[s] == 0)
    {
      SmallCodeRank(s);
    }
  }

  lemma SmallCodeLength()
    ensures |SmallHeader().code| == 19
  {
  }

  lemma SmallCodeRank(s: nat)
    requires s < 19
    ensures SmallHeader().code[s] < 8 && (Rank(s) >= 18 ==> SmallHeader().code[s] == 0)
  {
  }

  lemma SmallDist()
    ensures KraftOk([1])
  {
    Pow2Values();
    assert KraftSum([1], 1) == KraftSum([1], 0) + Pow2(15);
  }

  lemma SmallRuns()
    ensures RunsOk(SmallHeader().runs, SmallHeader().code, [], SmallLit() + [1])
  {
    var all, rs, code := SmallLit() + [1], SmallHeader().runs, SmallHeader().code;
    var a1, a2, a3, a4 := all[..1], all[..139], all[..256], all[..257];
    Pow2Values();
    assert Pow2(0) == 1;
    assert Lengthen(rs[0], []) == a1;
    assert Lengthen(rs[1], a1) == a2;
    assert Lengthen(rs[2], a2) == a3;
    assert Lengthen(rs[3], a3) == a4;
    assert Lengthen(rs[4], a4) == all;
    hide Lengthen;
    assert RunsOk(rs[5..], code, all, all);
    assert rs[4..][1..] == rs[5..] && rs[3..][1..] == rs[4..] && rs[2..][1..] == rs[3..] && rs[1..][1..] == rs[2..];
    assert RunsOk(rs[4..], code, a4, all);
    assert RunsOk(rs[3..], code, a3, all);
    assert RunsOk(rs[2..], code, a2, all);
    assert RunsOk(rs[1..], code, a1, all);
  }

  // ---- section 3.2.4: stored blocks ----

  function BytesBits(data: seq<byte>): (r: seq<nat>)
    ensures |r| == 8 * |data|
  {
    if data == [] then [] else Number(data[0], 8) + BytesBits(data[1..])
  }

  lemma {:induction false} BytesDecode(input: seq<byte>, k: nat, data: seq<byte>)
    requires BitsAt(input, 8 * k, BytesBits(data))
    ensures Bytes(input, k, |data|) == data
    decreases |data|
  {
    hide BitsAt, ByteAt;
    if data != [] {
      BitsSplit(input, 8 * k, Number(data[0], 8), BytesBits(data[1..]));
      BytesDecode(input, k + 1, data[1..]);
      Pow2Values();
      NumberField(input, 8 * k, data[0], 8);
      ByteIsField(input, k);
      BytesHead(input, k, |data|);
    }
  }

  lemma BytesHead(input: seq<byte>, k: nat, n: nat)
    requires n > 0
    ensures Bytes(input, k, n) == [ByteAt(input, k)] + Bytes(input, k + 1, n - 1)
  {
    hide ByteAt;
    forall i | 0 <= i < n
      ensures Bytes(input, k, n)[i] == ([ByteAt(input, k)] + Bytes(input, k + 1, n - 1))[i]
    {
      if i > 0 {
        assert Bytes(input, k + 1, n - 1)[i - 1] == ByteAt(input, k + 1 + (i - 1));
      }
    }
  }

  /** A stored block at position p: anything up to the next byte, the length and its complement, and the bytes. */
  function StoredBits(pad: seq<nat>, data: seq<byte>): seq<nat>
    requires |data| <= 0xFFFF
  {
    pad + (Number(|data|, 16) + (Number(0xFFFF - |data|, 16) + BytesBits(data)))
  }

  predicate PadOk(pad: seq<nat>, p: nat)
  {
    p + |pad| == 8 * ((p + 7) / 8) && AreBits(pad)
  }

  lemma StoredDecodes(input: seq<byte>, p: nat, pad: seq<nat>, data: seq<byte>, out: seq<byte>)
    requires |data| <= 0xFFFF && PadOk(pad, p) && BitsAt(input, p, StoredBits(pad, data))
    ensures Rfc1951.Stored(input, p, out) == Some(Step(out + data, p + |StoredBits(pad, data)|))
  {
    hide BitsAt, Field, Number, BytesBits, Bytes;
    var k := (p + 7) / 8;
    var c := Number(0xFFFF - |data|, 16) + BytesBits(data);
    BitsSplit(input, p, pad, Number(|data|, 16) + c);
    BitsSplit(input, 8 * k, Number(|data|, 16), c);
    BitsSplit(input, 8 * k + 16, Number(0xFFFF - |data|, 16), BytesBits(data));
    Pow2Values();
    NumberField(input, 8 * k, |data|, 16);
    NumberField(input, 8 * k + 16, 0xFFFF - |data|, 16);
    BytesDecode(input, k + 4, data);
  }

  // ---- section 3.2.3: blocks ----

  datatype BlockOf =
    | StoredBlock(pad: seq<nat>, data: seq<byte>)
    | FixedBlock(ts: seq<Token>)
    | DynamicBlock(h: Dynamic, ts: seq<Token>)

  ghost predicate BlockOk(b: BlockOf, p: nat, out: seq<byte>)
  {
    match b
    case StoredBlock(pad, data) => |data| <= 0xFFFF && PadOk(pad, p)
    case FixedBlock(ts) => TokensOk(ts, FixedLit(), FixedDist(), out)
    case DynamicBlock(h, ts) => HeaderOk(h) && TokensOk(ts, h.lit, h.dist, out)
  }

  function Kind(b: BlockOf): (k: nat)
    ensures k < 4
  {
    match b
    case StoredBlock(_, _) => 0
    case FixedBlock(_) => 1
    case DynamicBlock(_, _) => 2
  }

  lemma FixedOk()
    ensures CodesOk(FixedLit(), FixedDist())
  {
    FixedLitComplete();
    FixedDistComplete();
  }

  /** A block behind its 3-bit header. */
  ghost function BlockBits(b: BlockOf, p: nat, out: seq<byte>): seq<nat>
    requires BlockOk(b, p, out)
  {
    match b
    case StoredBlock(pad, data) => StoredBits(pad, data)
    case FixedBlock(ts) => FixedOk(); DataBits(ts, FixedLit(), FixedDist(), out)
    case DynamicBlock(h, ts) => HeaderBits(h) + DataBits(ts, h.lit, h.dist, out)
  }

  /** The data of a block appended to that of the blocks before it. */
  ghost function BlockData(b: BlockOf, p: nat, out: seq<byte>): seq<byte>
    requires BlockOk(b, p, out)
  {
    match b
    case StoredBlock(_, data) => out + data
    case FixedBlock(ts) => ApplyAll(ts, FixedLit(), FixedDist(), out)
    case DynamicBlock(h, ts) => ApplyAll(ts, h.lit, h.dist, out)
  }

  lemma BlockDecodes(input: seq<byte>, p: nat, b: BlockOf, out: seq<byte>, limit: nat)
    requires BlockOk(b, p, out) && BitsAt(input, p, BlockBits(b, p, out)) && p + |BlockBits(b, p, out)| <= limit
    ensures Block(input, p, Kind(b), out, limit) == Some(Step(BlockData(b, p, out), p + |BlockBits(b, p, out)|))
  {
    hide BitsAt, Codes, DataBits, ApplyAll, TokensOk, FixedLit, FixedDist, CodesOk, HeaderBits, Rfc1951.Stored;
    hide StoredBits, DynamicHeader;
    match b
    case StoredBlock(pad, data) =>
      StoredDecodes(input, p, pad, data, out);
    case FixedBlock(ts) =>
      FixedOk();
      CodesDecode(input, p, ts, FixedLit(), FixedDist(), out, limit);
    case DynamicBlock(h, ts) =>
      BitsSplit(input, p, HeaderBits(h), DataBits(ts, h.lit, h.dist, out));
      HeaderDecodes(input, p, h);
      CodesDecode(input, p + |HeaderBits(h)|, ts, h.lit, h.dist, out, limit);
  }

  // ---- the whole stream ----

  ghost predicate StreamOk(bs: seq<BlockOf>, p: nat, out: seq<byte>)
    decreases |bs|
  {
    bs != [] && BlockOk(bs[0], p + 3, out)
    && (|bs| > 1 ==> StreamOk(bs[1..], p + 3 + |BlockBits(bs[0], p + 3, out)|, BlockData(bs[0], p + 3, out)))
  }

  /** Every block has a bit that is set in the last one, the kind of the block in two bits, and its body. */
  ghost function StreamBits(bs: seq<BlockOf>, p: nat, out: seq<byte>): seq<nat>
    requires StreamOk(bs, p, out)
    decreases |bs|
  {
    hide BlockOk, BlockBits, BlockData, Number;
    var body := BlockBits(bs[0], p + 3, out);
    Number(if |bs| == 1 then 1 else 0, 1) + (Number(Kind(bs[0]), 2) + (body +
      if |bs| == 1 then [] else StreamBits(bs[1..], p + 3 + |body|, BlockData(bs[0], p + 3, out))))
  }

  ghost function StreamData(bs: seq<BlockOf>, p: nat, out: seq<byte>): seq<byte>
    requires StreamOk(bs, p, out)
    decreases |bs|
  {
    hide BlockOk, BlockBits, BlockData;
    var data := BlockData(bs[0], p + 3, out);
    if |bs| == 1 then data else StreamData(bs[1..], p + 3 + |BlockBits(bs[0], p + 3, out)|, data)
  }

  lemma HeadDecodes(input: seq<byte>, p: nat, final: nat, kind: nat, body: seq<nat>, rest: seq<nat>)
    requires final < 2 && kind < 4 && BitsAt(input, p, Number(final, 1) + (Number(kind, 2) + (body + rest)))
    ensures Field(input, p, 1) == final && Field(input, p + 1, 2) == kind
    ensures BitsAt(input, p + 3, body) && BitsAt(input, p + 3 + |body|, rest)
  {
    hide BitsAt, Field, Number;
    BitsSplit(input, p, Number(final, 1), Number(kind, 2) + (body + rest));
    BitsSplit(input, p + 1, Number(kind, 2), body + rest);
    BitsSplit(input, p + 3, body, rest);
    Pow2Values();
    NumberField(input, p, final, 1);
    NumberField(input, p + 1, kind, 2);
  }

  /** Decoding inverts every encoding. */
  lemma {:induction false} StreamDecodes(input: seq<byte>, p: nat, bs: seq<BlockOf>, out: seq<byte>, limit: nat)
    requires StreamOk(bs, p, out) && BitsAt(input, p, StreamBits(bs, p, out)) && p + |StreamBits(bs, p, out)| <= limit
    ensures Blocks(input, p, out, limit) == Some(Step(StreamData(bs, p, out), p + |StreamBits(bs, p, out)|))
    decreases |bs|
  {
    hide BitsAt, Block, BlockBits, BlockOk, BlockData, Field, Number, Kind;
    var body := BlockBits(bs[0], p + 3, out);
    var data := BlockData(bs[0], p + 3, out);
    var rest := if |bs| == 1 then [] else StreamBits(bs[1..], p + 3 + |body|, data);
    HeadDecodes(input, p, if |bs| == 1 then 1 else 0, Kind(bs[0]), body, rest);
    BlockDecodes(input, p + 3, bs[0], out, limit);
    if |bs| > 1 {
      StreamDecodes(input, p + 3 + |body|, bs[1..], data, limit);
    }
  }

  // ---- bytes ----

  lemma {:induction false} CodeIsBits(c: nat, n: nat)
    ensures AreBits(Code(c, n))
  {
    if n > 0 {
      CodeIsBits(c / 2, n - 1);
    }
  }

  lemma TokenIsBits(t: Token, lit: seq<nat>, dist: seq<nat>)
    requires TokenOk(t, lit, dist)
    ensures AreBits(TokenBits(t, lit, dist))
  {
    hide AreBits, Number, Code, CodeOf, Pow2, LengthExtra, DistExtra;
    match t
    case Literal(b) =>
      CodeIsBits(CodeOf(lit, b), lit[b]);
    case Copy(sym, extra, dsym, dextra) =>
      CodeIsBits(CodeOf(lit, sym), lit[sym]);
      CodeIsBits(CodeOf(dist, dsym), dist[dsym]);
      NumberIsBits(extra, LengthExtra(sym));
      NumberIsBits(dextra, DistExtra(dsym));
      JoinedBits(SymbolBits(dist, dsym), Number(dextra, DistExtra(dsym)));
      JoinedBits(Number(extra, LengthExtra(sym)), SymbolBits(dist, dsym) + Number(dextra, DistExtra(dsym)));
      JoinedBits(SymbolBits(lit, sym),
                 Number(extra, LengthExtra(sym)) + (SymbolBits(dist, dsym) + Number(dextra, DistExtra(dsym))));
  }

  lemma {:induction false} DataIsBits(ts: seq<Token>, lit: seq<nat>, dist: seq<nat>, out: seq<byte>)
    requires CodesOk(lit, dist) && TokensOk(ts, lit, dist, out)
    ensures AreBits(DataBits(ts, lit, dist, out))
    decreases |ts|
  {
    hide AreBits, Code, TokenBits, Apply, TokenOk, KraftOk;
    if ts == [] {
      CodeIsBits(CodeOf(lit, 256), lit[256]);
    } else {
      var out' := Apply(ts[0], lit, dist, out);
      TokenIsBits(ts[0], lit, dist);
      DataIsBits(ts[1..], lit, dist, out');
      JoinedBits(TokenBits(ts[0], lit, dist), DataBits(ts[1..], lit, dist, out'));
    }
  }

  lemma {:induction false} RunsAreBits(rs: seq<Run>, code: seq<nat>, acc: seq<nat>, all: seq<nat>)
    requires RunsOk(rs, code, acc, all)
    ensures AreBits(RunsBits(rs, code, acc, all))
    decreases |rs|
  {
    hide AreBits, Code, Number, Lengthen, RunBits, Pow2, CodeOf;
    if rs != [] {
      var r := rs[0];
      CodeIsBits(CodeOf(code, r.c), code[r.c]);
      NumberIsBits(r.extra, RunBits(r.c));
      JoinedBits(SymbolBits(code, r.c), Number(r.extra, RunBits(r.c)));
      RunsAreBits(rs[1..], code, Lengthen(r, acc), all);
      JoinedBits(RunBitsOf(r, code), RunsBits(rs[1..], code, Lengthen(r, acc), all));
    } else {
      NothingIsBits();
    }
  }

  lemma {:induction false} ThreeBitsAreBits(code: seq<nat>, n: nat)
    requires |code| == 19 && n <= 19
    ensures AreBits(ThreeBits(code, n))
  {
    if n > 0 {
      ThreeBitsAreBits(code, n - 1);
      NumberIsBits(code[Unrank(n - 1)], 3);
    }
  }

  lemma HeaderIsBits(h: Dynamic)
    requires HeaderOk(h)
    ensures AreBits(HeaderBits(h))
  {
    hide AreBits, Number, RunsBits, RunsOk, ThreeBits, KraftOk, Rank;
    var all := h.lit + h.dist;
    NumberIsBits(|h.lit| - 257, 5);
    NumberIsBits(|h.dist| - 1, 5);
    NumberIsBits(h.hclen - 4, 4);
    ThreeBitsAreBits(h.code, h.hclen);
    RunsAreBits(h.runs, h.code, [], all);
    var c := ThreeBits(h.code, h.hclen) + RunsBits(h.runs, h.code, [], all);
    JoinedBits(ThreeBits(h.code, h.hclen), RunsBits(h.runs, h.code, [], all));
    JoinedBits(Number(h.hclen - 4, 4), c);
    JoinedBits(Number(|h.dist| - 1, 5), Number(h.hclen - 4, 4) + c);
    JoinedBits(Number(|h.lit| - 257, 5), Number(|h.dist| - 1, 5) + (Number(h.hclen - 4, 4) + c));
  }

  lemma {:induction false} BytesAreBits(data: seq<byte>)
    ensures AreBits(BytesBits(data))
  {
    if data != [] {
      NumberIsBits(data[0], 8);
      BytesAreBits(data[1..]);
    }
  }

  lemma BlockIsBits(b: BlockOf, p: nat, out: seq<byte>)
    requires BlockOk(b, p, out)
    ensures AreBits(BlockBits(b, p, out))
  {
    hide AreBits, Number, DataBits, HeaderBits, BytesBits, TokensOk, FixedLit, FixedDist, CodesOk;
    match b
    case StoredBlock(pad, data) =>
      NumberIsBits(|data|, 16);
      NumberIsBits(0xFFFF - |data|, 16);
      BytesAreBits(data);
      JoinedBits(Number(0xFFFF - |data|, 16), BytesBits(data));
      JoinedBits(Number(|data|, 16), Number(0xFFFF - |data|, 16) + BytesBits(data));
      JoinedBits(pad, Number(|data|, 16) + (Number(0xFFFF - |data|, 16) + BytesBits(data)));
    case FixedBlock(ts) =>
      FixedOk();
      DataIsBits(ts, FixedLit(), FixedDist(), out);
    case DynamicBlock(h, ts) =>
      HeaderIsBits(h);
      DataIsBits(ts, h.lit, h.dist, out);
      JoinedBits(HeaderBits(h), DataBits(ts, h.lit, h.dist, out));
  }

  lemma {:induction false} StreamIsBits(bs: seq<BlockOf>, p: nat, out: seq<byte>)
    requires StreamOk(bs, p, out)
    ensures AreBits(StreamBits(bs, p, out))
    decreases |bs|
  {
    hide AreBits, Number, BlockBits, BlockOk, BlockData, Kind;
    var body := BlockBits(bs[0], p + 3, out);
    var data := BlockData(bs[0], p + 3, out);
    var final := if |bs| == 1 then 1 else 0;
    var rest := if |bs| == 1 then [] else StreamBits(bs[1..], p + 3 + |body|, data);
    NothingIsBits();
    if |bs| > 1 {
      StreamIsBits(bs[1..], p + 3 + |body|, data);
    }
    BlockIsBits(bs[0], p + 3, out);
    NumberIsBits(final, 1);
    NumberIsBits(Kind(bs[0]), 2);
    JoinedBits(body, rest);
    JoinedBits(Number(Kind(bs[0]), 2), body + rest);
    JoinedBits(Number(final, 1), Number(Kind(bs[0]), 2) + (body + rest));
  }

  /** A stream packed into bytes. */
  ghost function Deflated(bs: seq<BlockOf>, p: nat): seq<byte>
    requires StreamOk(bs, p, [])
  {
    StreamIsBits(bs, p, []);
    Packed(StreamBits(bs, p, []))
  }

  /** A stream packed into bytes, whatever stands before and after it, inflates to the data it was made from. */
  lemma InflateInvertsDeflate(before: seq<byte>, bs: seq<BlockOf>, extra: seq<byte>)
    requires StreamOk(bs, 8 * |before|, [])
    ensures var input := before + Deflated(bs, 8 * |before|) + extra;
      var r := Blocks(input, 8 * |before|, [], 8 * |input|);
      r.Some? && r.value.out == StreamData(bs, 8 * |before|, [])
  {
    hide StreamBits, StreamData, StreamOk, BitsAt, AreBits, Blocks, Packed;
    var p := 8 * |before|;
    var bits := StreamBits(bs, p, []);
    StreamIsBits(bs, p, []);
    PackedBitsAt(before, bits, extra);
    var input := before + Packed(bits) + extra;
    assert |Packed(bits)| == (|bits| + 7) / 8;
    StreamDecodes(input, p, bs, [], 8 * |input|);
  }

  // ---- all data can be encoded ----

  /** A stored block behind a block header at p, padded with zeros. */
  function Store(data: seq<byte>, p: nat): BlockOf
  {
    StoredBlock(seq(8 * ((p + 10) / 8) - (p + 3), _ => 0), data)
  }

  lemma StoreEncodes(data: seq<byte>, p: nat, out: seq<byte>)
    requires |data| <= 0xFFFF
    ensures BlockOk(Store(data, p), p + 3, out) && BlockData(Store(data, p), p + 3, out) == out + data
    ensures p + 3 + |BlockBits(Store(data, p), p + 3, out)| == 8 * ((p + 10) / 8) + 32 + 8 * |data|
  {
    hide AreBits, Number, BytesBits;
    ZerosAreBits(Store(data, p).pad);
  }

  /** Stored blocks of at most 65535 bytes. */
  function StoreAll(data: seq<byte>, p: nat): (r: seq<BlockOf>)
    ensures r != []
    decreases |data|
  {
    if |data| <= 0xFFFF then [Store(data, p)]
    else [Store(data[..0xFFFF], p)] + StoreAll(data[0xFFFF..], 8 * ((p + 10) / 8) + 32 + 8 * 0xFFFF)
  }

  lemma {:induction false} StoreAllEncodes(data: seq<byte>, p: nat, out: seq<byte>)
    ensures StreamOk(StoreAll(data, p), p, out) && StreamData(StoreAll(data, p), p, out) == out + data
    decreases |data|
  {
    hide Store, BlockOk, BlockData, BlockBits;
    if |data| <= 0xFFFF {
      StoreEncodes(data, p, out);
    } else {
      var first, rest := data[..0xFFFF], data[0xFFFF..];
      var p1 := 8 * ((p + 10) / 8) + 32 + 8 * 0xFFFF;
      StoreEncodes(first, p, out);
      assert StoreAll(data, p)[1..] == StoreAll(rest, p1);
      StoreAllEncodes(rest, p1, out + first);
      assert data == first + rest;
      assert out + data == out + first + rest;
    }
  }

}
