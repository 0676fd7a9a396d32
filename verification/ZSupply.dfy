/** Which inputs the decoder of stb_image accepts when their data runs out: the reference decoder of Rfc1951 together
    with an account of how many bytes the bit reservoir has been given, and an upper bound for the output. */
module ZSupply {
  import opened Wrappers
  import opened Bits
  import opened BitStream
  import opened Canonical
  import opened Rfc1951

  /** fed counts the bytes given to the reservoir; past the end of the input they are zeros.  hit tells whether two
      of them are the padding that is added once. */
  datatype Supply = Supply(fed: nat, hit: bool)

  /** Reading k bits at p fills the reservoir to more than 24 bits if it holds fewer than k. */
  function AtBits(p: nat, k: nat, s: Supply): Supply
  {
    if 8 * s.fed < p + k then s.(fed := p / 8 + 4) else s
  }

  /** Reading a symbol at p wants 16 bits.  When the n bytes of the input are used up, they are padded once; the second
      time there is no symbol. */
  function AtSymbol(n: nat, p: nat, s: Supply): Option<Supply>
  {
    if p + 16 <= 8 * s.fed then Some(s)
    else if s.fed < n then Some(s.(fed := p / 8 + 4))
    else if s.hit then None
    else Some(Supply(s.fed + 2, true))
  }

  /** At the end of a block the padding must not have been used. */
  predicate EndsWell(p: nat, s: Supply)
  {
    s.hit ==> p + 16 <= 8 * s.fed
  }

  // ---- compressed blocks ----

  /** The supply after the rest of a match, None if it runs out. */
  ghost function MatchSupply(input: seq<byte>, p: nat, sym: nat, dist: seq<nat>, s: Supply): Option<Supply>
    requires 257 <= sym <= 285
  {
    var p1 := p + LengthExtra(sym);
    match AtSymbol(|input|, p1, AtBits(p, LengthExtra(sym), s))
    case None => None
    case Some(s1) =>
      match Symbol(input, p1, dist)
      case None => None
      case Some(d) => Some(AtBits(p1 + dist[d], DistExtra(d), s1))
  }

  ghost function SymbolSupply(input: seq<byte>, p: nat, sym: nat, dist: seq<nat>, s: Supply): Option<Supply>
  {
    if 257 <= sym <= 285 then MatchSupply(input, p, sym, dist, s) else Some(s)
  }

  /** The supply after a literal, match or end-of-block marker. */
  ghost function ItemSupply(input: seq<byte>, p: nat, lit: seq<nat>, dist: seq<nat>, s: Supply): Option<Supply>
  {
    match AtSymbol(|input|, p, s)
    case None => None
    case Some(s1) =>
      match Symbol(input, p, lit)
      case None => None
      case Some(sym) => SymbolSupply(input, p + lit[sym], sym, dist, s1)
  }

  /** The item cannot be read: it is malformed, the supply runs out, or the output becomes too large. */
  predicate Rejected(item: Item, s: Option<Supply>, ceiling: nat)
  {
    || s.None? || item.Bad?
    || (item.EndOfBlock? && !EndsWell(item.p, s.value))
    || (item.More? && ceiling < |item.out|)
  }

  /** Output, position and supply after a block. */
  datatype Final = Final(out: seq<byte>, p: nat, s: Supply)

  ghost function CodesWith(input: seq<byte>, p: nat, out: seq<byte>, lit: seq<nat>, dist: seq<nat>, s: Supply,
                           ceiling: nat)
    : (r: Option<Final>)
    ensures r.Some? ==> p < r.value.p
    decreases if |out| <= ceiling then ceiling - |out| + 1 else 0
  {
    var item, s1 := NextItem(input, p, out, lit, dist), ItemSupply(input, p, lit, dist, s);
    if Rejected(item, s1, ceiling) then None
    else if item.EndOfBlock? then Some(Final(out, item.p, s1.value))
    else CodesWith(input, item.p, item.out, lit, dist, s1.value, ceiling)
  }

  // ---- stored and dynamic blocks ----

  /** A stored block must lie inside the input; behind it the reservoir is empty. */
  function StoredWith(input: seq<byte>, p: nat, out: seq<byte>, ceiling: nat): (r: Option<Final>)
    ensures r.Some? ==> p < r.value.p
  {
    match Stored(input, p, out)
    case None => None
    case Some(st) =>
      if 8 * |input| < st.p || ceiling < |st.out| then None else Some(Final(st.out, st.p, Supply(st.p / 8, false)))
  }

  /** n numbers of three bits. */
  function ThreeTimes(p: nat, n: nat, s: Supply): Supply
  {
    if n == 0 then s else AtBits(p + 3 * (n - 1), 3, ThreeTimes(p, n - 1, s))
  }

  /** The supply after a code length symbol. */
  ghost function RunSupply(input: seq<byte>, p: nat, code: seq<nat>, s: Supply): Option<Supply>
  {
    match AtSymbol(|input|, p, s)
    case None => None
    case Some(s1) =>
      match Symbol(input, p, code)
      case None => None
      case Some(c) => Some(AtBits(p + code[c], RunBits(c), s1))
  }

  ghost function LengthsWith(input: seq<byte>, p: nat, code: seq<nat>, acc: seq<nat>, total: nat, s: Supply)
    : Option<(Lens, Supply)>
    requires |code| <= 19 && |acc| <= total
    decreases total - |acc|
  {
    if |acc| == total then Some((Lens(acc, p), s))
    else
      var next, s1 := NextLengths(input, p, code, acc, total), RunSupply(input, p, code, s);
      if next.None? || s1.None? then None
      else LengthsWith(input, next.value.p, code, next.value.lens, total, s1.value)
  }

  /** The supply after the three counts of a dynamic block and the lengths of the code length code. */
  function CountsSupply(p: nat, hclen: nat, s: Supply): Supply
  {
    ThreeTimes(p + 14, hclen, AtBits(p + 10, 4, AtBits(p + 5, 5, AtBits(p, 5, s))))
  }

  ghost function HeaderWith(input: seq<byte>, p: nat, s: Supply): (r: Option<(Header, Supply)>)
    ensures r.Some? ==> DynamicHeader(input, p) == Some(r.value.0)
  {
    var total := Field(input, p, 5) + 257 + Field(input, p + 5, 5) + 1;
    var hclen := Field(input, p + 10, 4) + 4;
    match DynamicHeader(input, p)
    case None => None
    case Some(h) =>
      match LengthsWith(input, p + 14 + 3 * hclen, CodeLengthCode(input, p + 14, hclen), [], total,
                        CountsSupply(p, hclen, s))
      case None => None
      case Some((_, s1)) => Some((h, s1))
  }

  lemma {:induction false} LengthsSound(input: seq<byte>, p: nat, code: seq<nat>, acc: seq<nat>, total: nat, s: Supply)
    requires |code| <= 19 && |acc| <= total && LengthsWith(input, p, code, acc, total, s).Some?
    ensures ReadLengths(input, p, code, acc, total) == Some(LengthsWith(input, p, code, acc, total, s).value.0)
    decreases total - |acc|
  {
    hide NextLengths, RunSupply;
    if |acc| < total {
      var next, s1 := NextLengths(input, p, code, acc, total), RunSupply(input, p, code, s);
      LengthsSound(input, next.value.p, code, next.value.lens, total, s1.value);
    }
  }

  // ---- the stream ----

  ghost function BlockWith(input: seq<byte>, p: nat, kind: nat, out: seq<byte>, s: Supply,
                           ceiling: nat): (r: Option<Final>)
    ensures r.Some? ==> p < r.value.p
  {
    if kind == 0 then StoredWith(input, p, out, ceiling)
    else if kind == 1 then CodesWith(input, p, out, FixedLit(), FixedDist(), s, ceiling)
    else if kind == 2 then
      match HeaderWith(input, p, s)
      case None => None
      case Some((h, s1)) => CodesWith(input, h.p, out, h.lit, h.dist, s1, ceiling)
    else None
  }

  /** The blocks of a stream; none can start behind the end of the input. */
  ghost function BlocksWith(input: seq<byte>, p: nat, out: seq<byte>, s: Supply, ceiling: nat): Option<Final>
    decreases if p <= 8 * |input| then 8 * |input| - p else 0
  {
    if 8 * |input| <= p then None
    else
      match BlockWith(input, p + 3, Field(input, p + 1, 2), out, AtBits(p + 1, 2, AtBits(p, 1, s)), ceiling)
      case None => None
      case Some(f) =>
        if Field(input, p, 1) == 1 then Some(f)
        else BlocksWith(input, f.p, f.out, f.s, ceiling)
  }

  // ---- one step of each loop ----

  /** An item is a symbol and what the symbol stands for. */
  lemma ItemSplit(input: seq<byte>, p: nat, out: seq<byte>, lit: seq<nat>, dist: seq<nat>, s: Supply)
    ensures var sym, s1 := Symbol(input, p, lit), AtSymbol(|input|, p, s);
      sym.Some? && s1.Some? ==>
        && NextItem(input, p, out, lit, dist) == SymbolItem(input, p + lit[sym.value], sym.value, out, dist)
        && ItemSupply(input, p, lit, dist, s) == SymbolSupply(input, p + lit[sym.value], sym.value, dist, s1.value)
  {
  }

  lemma RejectedItem(input: seq<byte>, p: nat, out: seq<byte>, lit: seq<nat>, dist: seq<nat>, s: Supply, ceiling: nat)
    requires AtSymbol(|input|, p, s).None? || Symbol(input, p, lit).None?
    ensures Rejected(NextItem(input, p, out, lit, dist), ItemSupply(input, p, lit, dist, s), ceiling)
  {
  }

  lemma CodesStep(input: seq<byte>, p: nat, out: seq<byte>, lit: seq<nat>, dist: seq<nat>, s: Supply, ceiling: nat)
    ensures var item, s1 := NextItem(input, p, out, lit, dist), ItemSupply(input, p, lit, dist, s);
      CodesWith(input, p, out, lit, dist, s, ceiling) ==
      if Rejected(item, s1, ceiling) then None
      else if item.EndOfBlock? then Some(Final(out, item.p, s1.value))
      else CodesWith(input, item.p, item.out, lit, dist, s1.value, ceiling)
  {
  }

  /** A length symbol stands for itself. */
  lemma NoRunBits(p: nat, c: nat, s: Supply)
    requires c < 16 && p <= 8 * s.fed
    ensures AtBits(p, RunBits(c), s) == s
  {
  }

  /** The test for the end of the input in BlocksWith makes no difference. */
  lemma BlocksStep(input: seq<byte>, p: nat, out: seq<byte>, s: Supply, ceiling: nat)
    ensures
      var block := BlockWith(input, p + 3, Field(input, p + 1, 2), out, AtBits(p + 1, 2, AtBits(p, 1, s)), ceiling);
      BlocksWith(input, p, out, s, ceiling) ==
      match block
      case None => None
      case Some(f) => if Field(input, p, 1) == 1 then Some(f) else BlocksWith(input, f.p, f.out, f.s, ceiling)
    ensures BlockWith(input, p + 3, Field(input, p + 1, 2), out, AtBits(p + 1, 2, AtBits(p, 1, s)), ceiling).Some?
            ==> p < 8 * |input|
  {
    hide BlockWith, Field, AtBits;
    var s1 := AtBits(p + 1, 2, AtBits(p, 1, s));
    var block := BlockWith(input, p + 3, Field(input, p + 1, 2), out, s1, ceiling);
    if block.Some? {
      BlockSound(input, p + 3, Field(input, p + 1, 2), out, s1, ceiling);
      NoBlockPastEnd(input, p, out, block.value.p, block.value.out);
    }
  }

  // ---- soundness: what is accepted is what the reference decoder reads ----

  lemma {:induction false} CodesSound(input: seq<byte>, p: nat, out: seq<byte>, lit: seq<nat>, dist: seq<nat>,
                                      s: Supply, ceiling: nat)
    requires CodesWith(input, p, out, lit, dist, s, ceiling).Some?
    ensures var f := CodesWith(input, p, out, lit, dist, s, ceiling).value;
      CodesEnd(input, lit, dist, p, out, f.p, f.out) && (|out| <= ceiling ==> |f.out| <= ceiling)
    decreases if |out| <= ceiling then ceiling - |out| + 1 else 0
  {
    hide ItemSupply, NextItem, EndsWell;
    var item, s1 := NextItem(input, p, out, lit, dist), ItemSupply(input, p, lit, dist, s);
    CodesReachStart(input, lit, dist, p, out);
    if item.EndOfBlock? {
      CodesReachEnd(input, lit, dist, p, out, p, out, item.p);
    } else {
      CodesSound(input, item.p, item.out, lit, dist, s1.value, ceiling);
      CodesReachNext(input, lit, dist, p, out, p, out, item.p, item.out);
    }
  }

  lemma BlockSound(input: seq<byte>, p: nat, kind: nat, out: seq<byte>, s: Supply, ceiling: nat)
    requires BlockWith(input, p, kind, out, s, ceiling).Some?
    ensures var f := BlockWith(input, p, kind, out, s, ceiling).value;
      BlockEnd(input, p, kind, out, f.p, f.out) && (|out| <= ceiling ==> |f.out| <= ceiling)
  {
    hide CodesWith, HeaderWith, FixedLit, FixedDist, Stored, DynamicHeader, Codes;
    if kind == 1 {
      CodesSound(input, p, out, FixedLit(), FixedDist(), s, ceiling);
    } else if kind == 2 {
      var (h, s1) := HeaderWith(input, p, s).value;
      CodesSound(input, h.p, out, h.lit, h.dist, s1, ceiling);
    }
  }

  /** Accepted data is the reference decoder's output, and no larger than allowed. */
  lemma {:induction false} BlocksSound(input: seq<byte>, p: nat, out: seq<byte>, s: Supply, ceiling: nat)
    requires BlocksWith(input, p, out, s, ceiling).Some? && |out| <= ceiling
    ensures var f := BlocksWith(input, p, out, s, ceiling).value;
      BlocksEnd(input, p, out, f.p, f.out) && |f.out| <= ceiling
    decreases if p <= 8 * |input| then 8 * |input| - p else 0
  {
    hide BlockWith, Field, Block, BlockEnd;
    var kind, s1 := Field(input, p + 1, 2), AtBits(p + 1, 2, AtBits(p, 1, s));
    var f := BlockWith(input, p + 3, kind, out, s1, ceiling).value;
    BlockSound(input, p + 3, kind, out, s1, ceiling);
    BlocksReachStart(input, p, out);
    if Field(input, p, 1) == 1 {
      BlocksReachEnd(input, p, out, p, out, f.p, f.out);
    } else {
      BlocksSound(input, f.p, f.out, f.s, ceiling);
      BlocksReachNext(input, p, out, p, out, f.p, f.out);
    }
  }

  // ---- completeness: what needs no bit past the end is accepted ----

  /** The reservoir holds at most 32 bits, and the padding stands behind all bytes of the input. */
  predicate SupplyOk(n: nat, p: nat, s: Supply)
  {
    p <= 8 * s.fed <= p + 32 && (s.hit ==> n + 2 <= s.fed)
  }

  lemma BitsOk(n: nat, p: nat, k: nat, s: Supply)
    requires SupplyOk(n, p, s) && k <= 24
    ensures SupplyOk(n, p + k, AtBits(p, k, s))
  {
  }

  lemma SymbolOk(n: nat, p: nat, k: nat, s: Supply)
    requires SupplyOk(n, p, s) && p + k <= 8 * n && k <= 16
    ensures AtSymbol(n, p, s).Some? && SupplyOk(n, p + k, AtSymbol(n, p, s).value)
  {
  }

  lemma ItemOk(input: seq<byte>, p: nat, out: seq<byte>, lit: seq<nat>, dist: seq<nat>, s: Supply)
    requires SupplyOk(|input|, p, s) && Lengths(lit) && Lengths(dist)
    requires var item := NextItem(input, p, out, lit, dist); !item.Bad? && item.p <= 8 * |input|
    ensures ItemSupply(input, p, lit, dist, s).Some?
    ensures SupplyOk(|input|, NextItem(input, p, out, lit, dist).p, ItemSupply(input, p, lit, dist, s).value)
  {
    hide AtSymbol, AtBits, SupplyOk, LengthExtra, DistExtra, CopyMatch, LengthBase, DistBase, Field;
    var sym := Symbol(input, p, lit).value;
    var p1 := p + lit[sym];
    assert lit[sym] <= 15;
    SymbolOk(|input|, p, lit[sym], s);
    if 257 <= sym <= 285 {
      MatchOk(input, p1, sym, dist, AtSymbol(|input|, p, s).value);
    }
  }

  lemma MatchOk(input: seq<byte>, p: nat, sym: nat, dist: seq<nat>, s: Supply)
    requires SupplyOk(|input|, p, s) && Lengths(dist) && 257 <= sym <= 285
    requires MatchAt(input, p, sym, dist).Some? && MatchAt(input, p, sym, dist).value.p <= 8 * |input|
    ensures MatchSupply(input, p, sym, dist, s).Some?
    ensures SupplyOk(|input|, MatchAt(input, p, sym, dist).value.p, MatchSupply(input, p, sym, dist, s).value)
  {
    hide AtSymbol, AtBits, SupplyOk, LengthBase, DistBase, Field;
    var a := LengthExtra(sym);
    var p1 := p + a;
    var d := Symbol(input, p1, dist).value;
    BitsOk(|input|, p, a, s);
    SymbolOk(|input|, p1, dist[d], AtBits(p, a, s));
    BitsOk(|input|, p1 + dist[d], DistExtra(d), AtSymbol(|input|, p1, AtBits(p, a, s)).value);
  }

  lemma {:induction false} CodesComplete(input: seq<byte>, p: nat, out: seq<byte>, lit: seq<nat>, dist: seq<nat>,
                                         s: Supply, ceiling: nat)
    requires SupplyOk(|input|, p, s) && Lengths(lit) && Lengths(dist)
    requires var r := Codes(input, p, out, lit, dist, 8 * |input|); r.Some? && |r.value.out| <= ceiling
    ensures
      var st, f := Codes(input, p, out, lit, dist, 8 * |input|).value, CodesWith(input, p, out, lit, dist, s, ceiling);
      f.Some? && f.value.out == st.out && f.value.p == st.p && SupplyOk(|input|, st.p, f.value.s)
    decreases if p <= 8 * |input| then 8 * |input| - p else 0
  {
    hide ItemSupply, NextItem, Lengths;
    var item := NextItem(input, p, out, lit, dist);
    ItemOk(input, p, out, lit, dist, s);
    if item.More? {
      CodesComplete(input, item.p, item.out, lit, dist, ItemSupply(input, p, lit, dist, s).value, ceiling);
    }
  }

  lemma {:induction false} ThreeTimesOk(n: nat, p: nat, k: nat, s: Supply)
    requires SupplyOk(n, p, s)
    ensures SupplyOk(n, p + 3 * k, ThreeTimes(p, k, s))
  {
    if k > 0 {
      ThreeTimesOk(n, p, k - 1, s);
      BitsOk(n, p + 3 * (k - 1), 3, ThreeTimes(p, k - 1, s));
    }
  }

  lemma RunOk(input: seq<byte>, p: nat, code: seq<nat>, acc: seq<nat>, total: nat, s: Supply)
    requires SupplyOk(|input|, p, s) && Lengths(code) && |code| <= 19
    requires var r := NextLengths(input, p, code, acc, total); r.Some? && r.value.p <= 8 * |input|
    ensures RunSupply(input, p, code, s).Some?
    ensures SupplyOk(|input|, NextLengths(input, p, code, acc, total).value.p, RunSupply(input, p, code, s).value)
  {
    hide AtSymbol, AtBits, SupplyOk, Field, Fill;
    var c := Symbol(input, p, code).value;
    SymbolOk(|input|, p, code[c], s);
    BitsOk(|input|, p + code[c], RunBits(c), AtSymbol(|input|, p, s).value);
  }

  lemma {:induction false} LengthsComplete(input: seq<byte>, p: nat, code: seq<nat>, acc: seq<nat>, total: nat,
                                           s: Supply)
    requires SupplyOk(|input|, p, s) && Lengths(code) && |code| <= 19 && |acc| <= total
    requires var r := ReadLengths(input, p, code, acc, total); r.Some? && r.value.p <= 8 * |input|
    ensures var all, r := ReadLengths(input, p, code, acc, total).value, LengthsWith(input, p, code, acc, total, s);
      r.Some? && r.value.0 == all && SupplyOk(|input|, all.p, r.value.1)
    decreases total - |acc|
  {
    hide NextLengths, RunSupply, SupplyOk, Lengths;
    if |acc| < total {
      var next := NextLengths(input, p, code, acc, total).value;
      ReadMovesOn(input, next.p, code, next.lens, total);
      RunOk(input, p, code, acc, total, s);
      LengthsComplete(input, next.p, code, next.lens, total, RunSupply(input, p, code, s).value);
    }
  }

  lemma ReadMovesOn(input: seq<byte>, p: nat, code: seq<nat>, acc: seq<nat>, total: nat)
    requires |code| <= 19 && |acc| <= total
    ensures ReadLengths(input, p, code, acc, total).Some? ==> p <= ReadLengths(input, p, code, acc, total).value.p
  {
  }

  lemma HeaderComplete(input: seq<byte>, p: nat, s: Supply)
    requires SupplyOk(|input|, p, s)
    requires var r := DynamicHeader(input, p); r.Some? && r.value.p <= 8 * |input|
    ensures var h, r := DynamicHeader(input, p).value, HeaderWith(input, p, s);
      r.Some? && r.value.0 == h && SupplyOk(|input|, h.p, r.value.1)
  {
    hide AtBits, SupplyOk, Field, ReadLengths, LengthsWith, ThreeTimes, CodeLengthCode;
    var hclen := Field(input, p + 10, 4) + 4;
    BitsOk(|input|, p, 5, s);
    BitsOk(|input|, p + 5, 5, AtBits(p, 5, s));
    BitsOk(|input|, p + 10, 4, AtBits(p + 5, 5, AtBits(p, 5, s)));
    ThreeTimesOk(|input|, p + 14, hclen, AtBits(p + 10, 4, AtBits(p + 5, 5, AtBits(p, 5, s))));
    var code := CodeLengthCode(input, p + 14, hclen);
    CodeLengthsAreSmall(input, p + 14, hclen);
    LengthsComplete(input, p + 14 + 3 * hclen, code, [], Field(input, p, 5) + 257 + Field(input, p + 5, 5) + 1,
                    CountsSupply(p, hclen, s));
  }

  lemma BlockComplete(input: seq<byte>, p: nat, kind: nat, out: seq<byte>, s: Supply, ceiling: nat)
    requires SupplyOk(|input|, p, s)
    requires var r := Block(input, p, kind, out, 8 * |input|);
      r.Some? && r.value.p <= 8 * |input| && |r.value.out| <= ceiling
    ensures var st, f := Block(input, p, kind, out, 8 * |input|).value, BlockWith(input, p, kind, out, s, ceiling);
      f.Some? && f.value.out == st.out && f.value.p == st.p && SupplyOk(|input|, st.p, f.value.s)
  {
    hide Codes, CodesWith, DynamicHeader, HeaderWith, FixedLit, FixedDist, KraftOk;
    if kind == 0 {
      StoredEnds(input, p, out);
    } else if kind == 1 {
      FixedLengths();
      CodesComplete(input, p, out, FixedLit(), FixedDist(), s, ceiling);
    } else {
      var h := DynamicHeader(input, p).value;
      HeaderIsKraft(input, p);
      CodesMoveOn(input, h.p, out, h.lit, h.dist, 8 * |input|);
      HeaderComplete(input, p, s);
      CodesComplete(input, h.p, out, h.lit, h.dist, HeaderWith(input, p, s).value.1, ceiling);
    }
  }

  lemma StoredEnds(input: seq<byte>, p: nat, out: seq<byte>)
    requires Stored(input, p, out).Some?
    ensures Stored(input, p, out).value.p % 8 == 0
  {
    hide Field, Bytes;
  }

  lemma FixedLengths()
    ensures Lengths(FixedLit()) && Lengths(FixedDist())
  {
    FixedLitComplete();
    FixedDistComplete();
  }

  lemma HeaderIsKraft(input: seq<byte>, p: nat)
    requires DynamicHeader(input, p).Some?
    ensures Lengths(DynamicHeader(input, p).value.lit) && Lengths(DynamicHeader(input, p).value.dist)
  {
    hide ReadLengths, Field, CodeLengthCode;
  }

  lemma CodesMoveOn(input: seq<byte>, p: nat, out: seq<byte>, lit: seq<nat>, dist: seq<nat>, limit: nat)
    ensures Codes(input, p, out, lit, dist, limit).Some? ==> p <= limit
  {
    hide Codes;
  }

  /** Data that the reference decoder reads from bits of the input alone is accepted if it is not too large. */
  lemma {:induction false} BlocksComplete(input: seq<byte>, p: nat, out: seq<byte>, s: Supply, ceiling: nat)
    requires SupplyOk(|input|, p, s)
    requires var r := Blocks(input, p, out, 8 * |input|); r.Some? && |r.value.out| <= ceiling
    ensures var st, f := Blocks(input, p, out, 8 * |input|).value, BlocksWith(input, p, out, s, ceiling);
      f.Some? && f.value.out == st.out && f.value.p == st.p
    decreases if p <= 8 * |input| then 8 * |input| - p else 0
  {
    hide Block, BlockWith, Field, SupplyOk;
    BitsOk(|input|, p, 1, s);
    BitsOk(|input|, p + 1, 2, AtBits(p, 1, s));
    var kind, s1 := Field(input, p + 1, 2), AtBits(p + 1, 2, AtBits(p, 1, s));
    var st := Block(input, p + 3, kind, out, 8 * |input|).value;
    BlockComplete(input, p + 3, kind, out, s1, ceiling);
    if Field(input, p, 1) != 1 {
      BlocksComplete(input, st.p, st.out, BlockWith(input, p + 3, kind, out, s1, ceiling).value.s, ceiling);
    }
  }
}
