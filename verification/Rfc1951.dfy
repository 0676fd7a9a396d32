/** A reference decoder for the DEFLATE format, written from section 3.2 of RFC 1951.  It reads the bits
    of the input followed by zeros, and only bits below `limit` may be used. */
module Rfc1951 {
  import opened Wrappers
  import opened Bits
  import opened BitStream
  import opened Canonical

  /** Output so far and the position of the next bit. */
  datatype Step = Step(out: seq<byte>, p: nat)

  // ---- prefix codes ----

  /** The bits at position p start with sym's code. */
  predicate IsSymbolAt(input: seq<byte>, p: nat, lens: seq<nat>, sym: nat)
  {
    sym < |lens| && lens[sym] > 0 && CodeAt(input, p, lens[sym]) == CodeOf(lens, sym)
  }

  ghost function Symbol(input: seq<byte>, p: nat, lens: seq<nat>): (r: Option<nat>)
    ensures r.Some? ==> IsSymbolAt(input, p, lens, r.value)
    ensures r.None? ==> forall sym: nat :: !IsSymbolAt(input, p, lens, sym)
  {
    if exists sym: nat :: IsSymbolAt(input, p, lens, sym) then
      var sym: nat :| IsSymbolAt(input, p, lens, sym);
      Some(sym)
    else
      None
  }

  lemma SymbolAtWindow(input: seq<byte>, p: nat, lens: seq<nat>, sym: nat)
    requires Lengths(lens)
    ensures IsSymbolAt(input, p, lens, sym) <==> Prefixes(lens, sym, CodeAt(input, p, 16))
  {
    if sym < |lens| {
      CodeAtPrefix(input, p, 16, lens[sym]);
    }
  }

  /** At most one symbol can be read at a position. */
  lemma SymbolIsUnique(input: seq<byte>, p: nat, lens: seq<nat>, sym: nat)
    requires Lengths(lens) && IsSymbolAt(input, p, lens, sym)
    ensures Symbol(input, p, lens) == Some(sym)
  {
    var other := Symbol(input, p, lens).value;
    SymbolAtWindow(input, p, lens, sym);
    SymbolAtWindow(input, p, lens, other);
    PrefixFree(lens, sym, other, CodeAt(input, p, 16));
  }

  // ---- section 3.2.5: literals, lengths and distances ----

  function LengthExtra(sym: nat): nat
    requires 257 <= sym <= 285
  {
    if sym < 265 || sym == 285 then 0 else (sym - 261) / 4
  }

  /** Each length symbol starts where the range of the previous one ends; 285 stands for 258 alone. */
  function LengthBase(sym: nat): (r: nat)
    requires 257 <= sym <= 285
    ensures 3 <= r
  {
    if sym == 257 then 3 else if sym == 285 then 258 else LengthBase(sym - 1) + Pow2(LengthExtra(sym - 1))
  }

  function DistExtra(d: nat): nat
  {
    if d < 4 then 0 else (d - 2) / 2
  }

  function DistBase(d: nat): (r: nat)
    ensures 1 <= r
  {
    if d == 0 then 1 else DistBase(d - 1) + Pow2(DistExtra(d - 1))
  }

  /** Appends len bytes, each a copy of the one dist bytes before it. */
  function CopyMatch(out: seq<byte>, len: nat, dist: nat): (r: seq<byte>)
    requires 1 <= dist <= |out|
    ensures |r| == |out| + len && out <= r
    decreases len
  {
    if len == 0 then out else CopyMatch(out + [out[|out| - dist]], len - 1, dist)
  }

  lemma {:induction false} CopyMatchIndex(out: seq<byte>, len: nat, dist: nat, i: nat)
    requires 1 <= dist <= |out| <= i < |out| + len
    ensures CopyMatch(out, len, dist)[i] == CopyMatch(out, len, dist)[i - dist]
    decreases len
  {
    var out' := out + [out[|out| - dist]];
    if i > |out| {
      CopyMatchIndex(out', len - 1, dist, i);
    } else {
      assert out' <= CopyMatch(out, len, dist);
      assert CopyMatch(out, len, dist)[i] == out'[i] && CopyMatch(out, len, dist)[i - dist] == out'[i - dist];
    }
  }

  datatype Match = Match(len: nat, distance: nat, p: nat)

  /** The length and distance of a match, after its length symbol. */
  ghost function MatchAt(input: seq<byte>, p: nat, sym: nat, dist: seq<nat>): (r: Option<Match>)
    requires 257 <= sym <= 285
    ensures r.Some? ==> p < r.value.p && 3 <= r.value.len && 1 <= r.value.distance
  {
    var len := LengthBase(sym) + Field(input, p, LengthExtra(sym));
    var p1 := p + LengthExtra(sym);
    match Symbol(input, p1, dist)
    case None => None
    case Some(d) =>
      if d >= 30 then None else
        var p2 := p1 + dist[d];
        Some(Match(len, DistBase(d) + Field(input, p2, DistExtra(d)), p2 + DistExtra(d)))
  }

  datatype Item = Bad | EndOfBlock(p: nat) | More(out: seq<byte>, p: nat)

  ghost function MatchItem(input: seq<byte>, p: nat, sym: nat, out: seq<byte>, dist: seq<nat>): (r: Item)
    requires 257 <= sym <= 285
    ensures r.More? ==> out <= r.out && |out| < |r.out| && p < r.p
  {
    match MatchAt(input, p, sym, dist)
    case None => Bad
    case Some(m) => if m.distance > |out| then Bad else More(CopyMatch(out, m.len, m.distance), m.p)
  }

  /** What literal/length symbol sym stands for, with its further bits at p. */
  ghost function SymbolItem(input: seq<byte>, p: nat, sym: nat, out: seq<byte>, dist: seq<nat>): (r: Item)
    ensures r.More? ==> out <= r.out && |out| < |r.out| && p <= r.p
    ensures r.EndOfBlock? ==> p <= r.p
  {
    if sym < 256 then More(out + [sym], p)
    else if sym == 256 then EndOfBlock(p)
    else if sym >= 286 then Bad
    else MatchItem(input, p, sym, out, dist)
  }

  /** One literal, match or end-of-block marker. */
  ghost function NextItem(input: seq<byte>, p: nat, out: seq<byte>, lit: seq<nat>, dist: seq<nat>): (r: Item)
    ensures r.More? ==> out <= r.out && |out| < |r.out| && p < r.p
    ensures r.EndOfBlock? ==> p < r.p
  {
    match Symbol(input, p, lit)
    case None => Bad
    case Some(sym) => SymbolItem(input, p + lit[sym], sym, out, dist)
  }

  /** The items of a compressed block up to its end-of-block marker. */
  ghost function Codes(input: seq<byte>, p: nat, out: seq<byte>, lit: seq<nat>, dist: seq<nat>,
                       limit: nat): (r: Option<Step>)
    ensures r.Some? ==> out <= r.value.out && p < r.value.p <= limit
    decreases if p <= limit then limit - p else 0
  {
    match NextItem(input, p, out, lit, dist)
    case Bad => None
    case EndOfBlock(p') => if p' <= limit then Some(Step(out, p')) else None
    case More(out', p') => if p' <= limit then Codes(input, p', out', lit, dist, limit) else None
  }

  // ---- section 3.2.4: stored blocks ----

  function Bytes(input: seq<byte>, k: nat, n: nat): (r: seq<byte>)
    ensures |r| == n
  {
    seq<byte>(n, i requires 0 <= i < n => ByteAt(input, k + i))
  }

  function Stored(input: seq<byte>, p: nat, out: seq<byte>): (r: Option<Step>)
    ensures r.Some? ==> out <= r.value.out && p < r.value.p
  {
    var k := (p + 7) / 8;
    var len := Field(input, 8 * k, 16);
    if Field(input, 8 * k + 16, 16) != 0xFFFF - len then None
    else Some(Step(out + Bytes(input, k + 4, len), 8 * (k + 4 + len)))
  }

  // ---- section 3.2.6: fixed codes ----

  function FixedLit(): seq<nat>
  {
    seq(288, i => if i < 144 then 8 else if i < 256 then 9 else if i < 280 then 7 else 8)
  }

  function FixedDist(): seq<nat>
  {
    seq(32, _ => 5)
  }

  // ---- section 3.2.7: dynamic codes ----

  /** Where the length of code length symbol s stands in the order 16, 17, 18, 0, 8, 7, 9, 6, 10, ... */
  function Rank(s: nat): nat
  {
    if s >= 16 then s - 16 else if s == 0 then 3 else if s >= 8 then 4 + 2 * (s - 8) else 5 + 2 * (7 - s)
  }

  function CodeLengthCode(input: seq<byte>, p: nat, hclen: nat): seq<nat>
  {
    seq(19, s requires 0 <= s < 19 => if Rank(s) < hclen then Field(input, p + 3 * Rank(s), 3) else 0)
  }

  datatype Lens = Lens(lens: seq<nat>, p: nat)

  function Fill(v: nat, n: nat): seq<nat>
  {
    seq(n, _ => v)
  }

  /** Symbols 16, 17 and 18 are followed by 2, 3 and 7 bits of repeat count, on top of 3, 3 and 11. */
  function RunBits(c: nat): nat
  {
    if c < 16 then 0 else if c == 16 then 2 else if c == 17 then 3 else 7
  }

  function RunBase(c: nat): nat
  {
    if c <= 17 then 3 else 11
  }

  /** One code length symbol: a length, or a repeat count for the previous length (16) or for zero. */
  ghost function NextLengths(input: seq<byte>, p: nat, code: seq<nat>, acc: seq<nat>, total: nat): (r: Option<Lens>)
    requires |code| <= 19
    ensures r.Some? ==> acc < r.value.lens && |r.value.lens| <= total && p < r.value.p
  {
    match Symbol(input, p, code)
    case None => None
    case Some(c) =>
      var p1 := p + code[c];
      if c == 16 && |acc| == 0 then None else
        var run := if c < 16 then [c]
                   else Fill(if c == 16 then acc[|acc| - 1] else 0, RunBase(c) + Field(input, p1, RunBits(c)));
        if |acc + run| > total then None else Some(Lens(acc + run, p1 + RunBits(c)))
  }

  lemma NoRun(input: seq<byte>, p: nat, code: seq<nat>, acc: seq<nat>, total: nat)
    requires |code| <= 19
    ensures Symbol(input, p, code).None? ==> NextLengths(input, p, code, acc, total) == None
  {
  }

  /** The meaning of a code length symbol, case by case. */
  lemma RunIs(input: seq<byte>, p: nat, code: seq<nat>, acc: seq<nat>, total: nat, c: nat)
    requires |code| <= 19 && Symbol(input, p, code) == Some(c)
    ensures var p1, next := p + code[c], NextLengths(input, p, code, acc, total);
      var count := if c < 16 then 1 else RunBase(c) + Field(input, p1, RunBits(c));
      var fill := if c < 16 then c else if c == 16 && acc != [] then acc[|acc| - 1] else 0;
      if (c == 16 && acc == []) || |acc| + count > total then next == None
      else if c < 16 then next == Some(Lens(acc + [c], p1))
      else next == Some(Lens(acc + Fill(fill, count), p1 + RunBits(c)))
  {
  }

  ghost function ReadLengths(input: seq<byte>, p: nat, code: seq<nat>, acc: seq<nat>, total: nat): (r: Option<Lens>)
    requires |code| <= 19 && |acc| <= total
    ensures r.Some? ==> |r.value.lens| == total && p <= r.value.p
    decreases total - |acc|
  {
    if |acc| == total then Some(Lens(acc, p)) else
      match NextLengths(input, p, code, acc, total)
      case None => None
      case Some(next) => ReadLengths(input, next.p, code, next.lens, total)
  }

  predicate AtMost15(lens: seq<nat>)
  {
    forall i :: 0 <= i < |lens| ==> lens[i] <= 15
  }

  lemma {:induction false} LengthsAreSmall(input: seq<byte>, p: nat, code: seq<nat>, acc: seq<nat>, total: nat)
    requires |code| <= 19 && |acc| <= total && AtMost15(acc)
    ensures ReadLengths(input, p, code, acc, total).Some? ==>
      AtMost15(ReadLengths(input, p, code, acc, total).value.lens)
    decreases total - |acc|
  {
    if |acc| < total {
      var next := NextLengths(input, p, code, acc, total);
      if next.Some? {
        LengthsAreSmall(input, next.value.p, code, next.value.lens, total);
      }
    }
  }

  lemma CodeLengthsAreSmall(input: seq<byte>, p: nat, hclen: nat)
    ensures |CodeLengthCode(input, p, hclen)| == 19 && Lengths(CodeLengthCode(input, p, hclen))
  {
    forall s: nat | s < 19
      ensures CodeLengthCode(input, p, hclen)[s] <= 15
    {
      FieldBound(input, p + 3 * Rank(s), 3);
      assert Pow2(3) == 8;
    }
  }

  lemma FixedLitComplete()
    ensures KraftOk(FixedLit())
  {
    FixedLitSum(288);
  }

  lemma FixedDistComplete()
    ensures KraftOk(FixedDist())
  {
    FixedDistSum(32);
  }

  lemma {:induction false} FixedLitSum(n: nat)
    requires n <= 288
    ensures KraftSum(FixedLit(), n) == if n <= 144 then 256 * n else if n <= 256 then 128 * n + 18432
                                       else if n <= 280 then 512 * n - 79872 else 256 * n - 8192
  {
    assert Pow2(7) == 128 && Pow2(8) == 256 && Pow2(9) == 512;
    if n > 0 {
      FixedLitSum(n - 1);
    }
  }

  lemma {:induction false} FixedDistSum(n: nat)
    requires n <= 32
    ensures KraftSum(FixedDist(), n) == 2048 * n
  {
    assert Pow2(11) == 2048;
    if n > 0 {
      FixedDistSum(n - 1);
    }
  }

  datatype Header = Header(lit: seq<nat>, dist: seq<nat>, p: nat)

  ghost function DynamicHeader(input: seq<byte>, p: nat): (r: Option<Header>)
    ensures r.Some? ==> p < r.value.p
  {
    var hlit := Field(input, p, 5) + 257;
    var hdist := Field(input, p + 5, 5) + 1;
    var hclen := Field(input, p + 10, 4) + 4;
    var code := CodeLengthCode(input, p + 14, hclen);
    if !KraftOk(code) then None else
      match ReadLengths(input, p + 14 + 3 * hclen, code, [], hlit + hdist)
      case None => None
      case Some(all) =>
        var lit, dist := all.lens[..hlit], all.lens[hlit..];
        if KraftOk(lit) && KraftOk(dist) then Some(Header(lit, dist, all.p)) else None
  }

  // ---- section 3.2.3: blocks ----

  ghost function Block(input: seq<byte>, p: nat, kind: nat, out: seq<byte>, limit: nat): (r: Option<Step>)
    ensures r.Some? ==> out <= r.value.out && p < r.value.p
  {
    if kind == 0 then Stored(input, p, out)
    else if kind == 1 then Codes(input, p, out, FixedLit(), FixedDist(), limit)
    else if kind == 2 then
      match DynamicHeader(input, p)
      case None => None
      case Some(h) => Codes(input, h.p, out, h.lit, h.dist, limit)
    else None
  }

  /** Blocks up to the one marked as final. */
  ghost function Blocks(input: seq<byte>, p: nat, out: seq<byte>, limit: nat): (r: Option<Step>)
    ensures r.Some? ==> out <= r.value.out && p < r.value.p <= limit
    decreases if p <= limit then limit - p else 0
  {
    match Block(input, p + 3, Field(input, p + 1, 2), out, limit)
    case None => None
    case Some(st) =>
      if st.p > limit then None
      else if Field(input, p, 1) == 1 then Some(st)
      else Blocks(input, st.p, st.out, limit)
  }

  // ---- runs of the reference decoder ----

  /** Decoding a block from (p0, out0) comes down to decoding the rest of it from (p, out). */
  ghost predicate CodesReach(input: seq<byte>, lit: seq<nat>, dist: seq<nat>, p0: nat, out0: seq<byte>, p: nat,
                             out: seq<byte>)
  {
    forall limit: nat :: Codes(input, p0, out0, lit, dist, limit) ==
      if p <= limit then Codes(input, p, out, lit, dist, limit) else None
  }

  lemma CodesReachStart(input: seq<byte>, lit: seq<nat>, dist: seq<nat>, p: nat, out: seq<byte>)
    ensures CodesReach(input, lit, dist, p, out, p, out)
  {
    forall limit: nat | limit < p
      ensures Codes(input, p, out, lit, dist, limit) == None
    {
    }
  }

  lemma CodesReachNext(input: seq<byte>, lit: seq<nat>, dist: seq<nat>, p0: nat, out0: seq<byte>, p: nat,
                       out: seq<byte>, p': nat, out': seq<byte>)
    requires CodesReach(input, lit, dist, p0, out0, p, out)
    requires NextItem(input, p, out, lit, dist) == More(out', p')
    ensures CodesReach(input, lit, dist, p0, out0, p', out')
  {
    forall limit: nat
      ensures Codes(input, p0, out0, lit, dist, limit) ==
        if p' <= limit then Codes(input, p', out', lit, dist, limit) else None
    {
    }
  }

  /** Decoding the block from (p, out) ends with (p', out'), whatever the limit, if it is not below p'. */
  ghost predicate CodesEnd(input: seq<byte>, lit: seq<nat>, dist: seq<nat>, p: nat, out: seq<byte>, p': nat,
                           out': seq<byte>)
  {
    forall limit: nat :: Codes(input, p, out, lit, dist, limit) == if p' <= limit then Some(Step(out', p')) else None
  }

  lemma CodesReachEnd(input: seq<byte>, lit: seq<nat>, dist: seq<nat>, p0: nat, out0: seq<byte>, p: nat, out: seq<byte>,
                      p': nat)
    requires CodesReach(input, lit, dist, p0, out0, p, out)
    requires NextItem(input, p, out, lit, dist) == EndOfBlock(p')
    ensures CodesEnd(input, lit, dist, p0, out0, p', out)
  {
    forall limit: nat
      ensures Codes(input, p0, out0, lit, dist, limit) == if p' <= limit then Some(Step(out, p')) else None
    {
    }
  }

  predicate Beyond(r: Option<Step>, limit: nat)
  {
    r.Some? ==> limit < r.value.p
  }

  /** Decoding a block body ends with (p', out'), whatever the limit, if it is not below p'. */
  ghost predicate BlockEnd(input: seq<byte>, p: nat, kind: nat, out: seq<byte>, p': nat, out': seq<byte>)
  {
    forall limit: nat ::
      if p' <= limit then Block(input, p, kind, out, limit) == Some(Step(out', p'))
      else Beyond(Block(input, p, kind, out, limit), limit)
  }

  ghost predicate BlocksReach(input: seq<byte>, p0: nat, out0: seq<byte>, p: nat, out: seq<byte>)
  {
    forall limit: nat :: Blocks(input, p0, out0, limit) == if p <= limit then Blocks(input, p, out, limit) else None
  }

  lemma BlocksReachStart(input: seq<byte>, p: nat, out: seq<byte>)
    ensures BlocksReach(input, p, out, p, out)
  {
    forall limit: nat | limit < p
      ensures Blocks(input, p, out, limit) == None
    {
    }
  }

  lemma BlocksReachNext(input: seq<byte>, p0: nat, out0: seq<byte>, p: nat, out: seq<byte>, p': nat, out': seq<byte>)
    requires BlocksReach(input, p0, out0, p, out) && Field(input, p, 1) != 1 && p < p'
    requires BlockEnd(input, p + 3, Field(input, p + 1, 2), out, p', out')
    ensures BlocksReach(input, p0, out0, p', out')
  {
    hide Block, Field;
    forall limit: nat
      ensures Blocks(input, p0, out0, limit) == if p' <= limit then Blocks(input, p', out', limit) else None
    {
      BlocksNext(input, p, out, p', out', limit);
    }
  }

  lemma BlocksNext(input: seq<byte>, p: nat, out: seq<byte>, p': nat, out': seq<byte>, limit: nat)
    requires BlockEnd(input, p + 3, Field(input, p + 1, 2), out, p', out') && Field(input, p, 1) != 1
    ensures Blocks(input, p, out, limit) == if p' <= limit then Blocks(input, p', out', limit) else None
  {
    hide Block, Field;
    assert if p' <= limit then Block(input, p + 3, Field(input, p + 1, 2), out, limit) == Some(Step(out', p'))
           else Beyond(Block(input, p + 3, Field(input, p + 1, 2), out, limit), limit);
  }

  /** The whole stream from (p, out) ends with (p', out'), whatever the limit, if it is not below p'. */
  ghost predicate BlocksEnd(input: seq<byte>, p: nat, out: seq<byte>, p': nat, out': seq<byte>)
  {
    forall limit: nat :: Blocks(input, p, out, limit) == if p' <= limit then Some(Step(out', p')) else None
  }

  lemma BlocksReachEnd(input: seq<byte>, p0: nat, out0: seq<byte>, p: nat, out: seq<byte>, p': nat, out': seq<byte>)
    requires BlocksReach(input, p0, out0, p, out) && Field(input, p, 1) == 1 && p < p'
    requires BlockEnd(input, p + 3, Field(input, p + 1, 2), out, p', out')
    ensures BlocksEnd(input, p0, out0, p', out')
  {
    hide Block, Field;
    forall limit: nat
      ensures Blocks(input, p0, out0, limit) == if p' <= limit then Some(Step(out', p')) else None
    {
      BlocksLast(input, p, out, p', out', limit);
    }
  }

  lemma BlocksLast(input: seq<byte>, p: nat, out: seq<byte>, p': nat, out': seq<byte>, limit: nat)
    requires BlockEnd(input, p + 3, Field(input, p + 1, 2), out, p', out') && Field(input, p, 1) == 1
    ensures Blocks(input, p, out, limit) == if p' <= limit then Some(Step(out', p')) else None
  {
    hide Block, Field;
    assert if p' <= limit then Block(input, p + 3, Field(input, p + 1, 2), out, limit) == Some(Step(out', p'))
           else Beyond(Block(input, p + 3, Field(input, p + 1, 2), out, limit), limit);
  }

  lemma NotStored(input: seq<byte>, p: nat, out: seq<byte>, p': nat, out': seq<byte>)
    requires BlockEnd(input, p, 0, out, p', out')
    ensures Stored(input, p, out).Some?
  {
    hide Stored;
    assert Block(input, p, 0, out, p') == Some(Step(out', p'));
  }

  /** Past the end of the input there are only zeros, and they are not a block. */
  lemma NoBlockPastEnd(input: seq<byte>, p: nat, out: seq<byte>, p': nat, out': seq<byte>)
    requires BlockEnd(input, p + 3, Field(input, p + 1, 2), out, p', out')
    ensures p < 8 * |input|
  {
    if 8 * |input| <= p {
      FieldPastEnd(input, p + 1, 2);
      FieldPastEnd(input, 8 * ((p + 10) / 8), 16);
      FieldPastEnd(input, 8 * ((p + 10) / 8) + 16, 16);
      NotStored(input, p + 3, out, p', out');
    }
  }
}
