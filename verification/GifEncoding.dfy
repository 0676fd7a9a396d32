/** LZW encoders for GIF, and the law that the decoder of GifLzw gives back what any of them has encoded. */
module GifEncoding {
  import opened Bits
  import opened BitStream
  import opened BitWriter
  import opened GifLzw

  /** An encoder's dictionary is one entry ahead of the decoder's: it already holds the last string
      together with the index that follows it.  `asked` counts the entries since the last clear code. */
  datatype Encoder = Encoder(dict: seq<seq<byte>>, asked: nat)

  function Fresh(cs: nat): Encoder
    requires cs <= 12
  {
    Encoder(Initial(cs), Clear(cs) + 2)
  }

  /** After writing a string that is followed by `rest`. */
  function Learn(cs: nat, e: Encoder, w: seq<byte>, rest: seq<byte>): Encoder
  {
    if rest == [] then e
    else Encoder(if |e.dict| < MaxDict(cs) then e.dict + [w + [rest[0]]] else e.dict, e.asked + 1)
  }

  /** The codes are an encoding of the data: each one names some string of the dictionary that the data goes on with,
      not necessarily the longest, and clear codes may come anywhere before the decoder's limit of entries is exceeded.
      */
  ghost predicate Encodes(cs: nat, e: Encoder, data: seq<byte>, codes: seq<nat>)
    requires cs <= 12
    decreases |codes|
  {
    if codes == [] then data == []
    else if codes[0] == Clear(cs) then Encodes(cs, Fresh(cs), data, codes[1..])
    else
      && !IsControl(cs, codes[0]) && codes[0] < |e.dict| && e.asked <= MAX_CODES
      && e.dict[codes[0]] != [] && e.dict[codes[0]] <= data
      && var rest := data[|e.dict[codes[0]]|..];
         Encodes(cs, Learn(cs, e, e.dict[codes[0]], rest), rest, codes[1..])
  }

  function Decode(cs: nat, st: Lzw, codes: seq<nat>): Outcome
    requires cs <= 12
    decreases |codes|
  {
    if codes == [] then Ok(st)
    else
      match Step(cs, st, codes[0])
      case Ok(next) => Decode(cs, next, codes[1..])
      case failure => failure
  }

  /** The decoder's state when an encoder is in state e and `data` is still to come. */
  ghost predicate Lags(cs: nat, st: Lzw, e: Encoder, data: seq<byte>)
  {
    && st.started && |st.dict| == (if st.avail < MaxDict(cs) then st.avail else MaxDict(cs))
    && if st.prev == -1
       then e.dict == st.dict && e.asked == st.avail && |e.dict| < MaxDict(cs)
       else
         && 0 <= st.prev < |st.dict| && st.dict[st.prev] != []
         && (data != [] ==> e == Learn(cs, Encoder(st.dict, st.avail), st.dict[st.prev], data))
  }

  lemma StepDecodes(cs: nat, st: Lzw, e: Encoder, data: seq<byte>, code: nat)
    requires cs <= 12 && Lags(cs, st, e, data)
    requires !IsControl(cs, code) && code < |e.dict| && e.asked <= MAX_CODES
    requires e.dict[code] != [] && e.dict[code] <= data
    ensures Step(cs, st, code).Ok? && Step(cs, st, code).st.out == st.out + e.dict[code]
    ensures Lags(cs, Step(cs, st, code).st, Learn(cs, e, e.dict[code], data[|e.dict[code]|..]), data[|e.dict[code]|..])
  {
    var w := e.dict[code];
    assert w[0] == data[0];
    assert StringOf(st, code) == w;
    assert Grown(cs, st, code) == e.dict;
  }

  lemma ClearLags(cs: nat, st: Lzw, data: seq<byte>)
    requires 2 <= cs <= 8
    ensures Step(cs, st, Clear(cs)).Ok? && Step(cs, st, Clear(cs)).st.out == st.out
    ensures Lags(cs, Step(cs, st, Clear(cs)).st, Fresh(cs), data)
  {
    StartOk(cs);
  }

  /** Every encoding is decoded to the data it was made from. */
  lemma {:induction false} DecodeInvertsEncoding(cs: nat, st: Lzw, e: Encoder, data: seq<byte>, codes: seq<nat>)
    requires 2 <= cs <= 8 && Lags(cs, st, e, data) && Encodes(cs, e, data, codes)
    ensures Decode(cs, st, codes).Ok? && Decode(cs, st, codes).st.out == st.out + data
    decreases |codes|
  {
    hide Lags, Learn, Step, IsControl;
    if codes == [] {
      assert st.out + data == st.out;
    } else if codes[0] == Clear(cs) {
      ClearLags(cs, st, data);
      DecodeInvertsEncoding(cs, Step(cs, st, codes[0]).st, Fresh(cs), data, codes[1..]);
    } else {
      var w := e.dict[codes[0]];
      var rest := data[|w|..];
      assert data == w + rest;
      StepDecodes(cs, st, e, data, codes[0]);
      DecodeInvertsEncoding(cs, Step(cs, st, codes[0]).st, Learn(cs, e, w, rest), rest, codes[1..]);
      assert st.out + data == (st.out + w) + rest;
    }
  }

  /** A whole image: a clear code, an encoding of the indices, and the end code. */
  lemma ImageRoundTrip(cs: nat, data: seq<byte>, codes: seq<nat>)
    requires 2 <= cs <= 8 && Encodes(cs, Fresh(cs), data, codes)
    ensures var r := Decode(cs, Start(cs), [Clear(cs)] + codes);
      r.Ok? && r.st.out == data && Step(cs, r.st, Clear(cs) + 1) == End
  {
    StartOk(cs);
    var reset := Step(cs, Start(cs), Clear(cs)).st;
    DecodeInvertsEncoding(cs, reset, Fresh(cs), data, codes);
    assert ([Clear(cs)] + codes)[1..] == codes;
    assert reset.out + data == data;
  }

  /** The simplest encoder: a clear code before every index. */
  function Plain(cs: nat, data: seq<byte>): seq<nat>
  {
    if data == [] then [] else [Clear(cs), data[0]] + Plain(cs, data[1..])
  }

  /** All data of the right indices can be encoded. */
  lemma {:induction false} AllDataHasEncoding(cs: nat, e: Encoder, data: seq<byte>)
    requires 2 <= cs <= 8 && forall i :: 0 <= i < |data| ==> data[i] < Clear(cs)
    ensures Encodes(cs, e, data, Plain(cs, data))
    decreases |data|
  {
    if data != [] {
      var codes := Plain(cs, data);
      var rest := codes[1..];
      assert codes[0] == Clear(cs) && rest[0] == data[0] && rest[1..] == Plain(cs, data[1..]);
      StartOk(cs);
      var w := Initial(cs)[data[0]];
      assert w == [data[0]] && data[|w|..] == data[1..];
      AllDataHasEncoding(cs, Learn(cs, Fresh(cs), w, data[1..]), data[1..]);
      assert Encodes(cs, Fresh(cs), data, rest);
    }
  }

  // ---- codes as bits ----

  /** Codes written with the width that their number of entries asks for, then the end code.  `count` is the number of
      entries that a decoder has; a clear code and the code after it add none. */
  function Written(cs: nat, count: nat, cleared: bool, codes: seq<nat>): seq<nat>
    decreases |codes|
  {
    if codes == [] then Number(Clear(cs) + 1, Width(cs + 1, count))
    else
      Number(codes[0], Width(cs + 1, count)) +
      if codes[0] == Clear(cs) then Written(cs, Clear(cs) + 2, true, codes[1..])
      else Written(cs, if cleared then count else count + 1, false, codes[1..])
  }

  lemma {:induction false} WrittenIsBits(cs: nat, count: nat, cleared: bool, codes: seq<nat>)
    ensures AreBits(Written(cs, count, cleared, codes))
    decreases |codes|
  {
    hide AreBits, Number;
    if codes == [] {
      NumberIsBits(Clear(cs) + 1, Width(cs + 1, count));
    } else {
      NumberIsBits(codes[0], Width(cs + 1, count));
      var next := if codes[0] == Clear(cs) then Clear(cs) + 2 else if cleared then count else count + 1;
      WrittenIsBits(cs, next, codes[0] == Clear(cs), codes[1..]);
      JoinedBits(Number(codes[0], Width(cs + 1, count)), Written(cs, next, codes[0] == Clear(cs), codes[1..]));
    }
  }

  /** What the decoder keeps between codes, for the code sizes of the format. */
  ghost predicate Ready(cs: nat, st: Lzw)
  {
    2 <= cs <= 8 && LzwOk(cs, st) && LeastWidth(cs, st)
  }

  /** A code is read back from its bits. */
  lemma CodeReads(data: seq<byte>, p: nat, cs: nat, st: Lzw, code: nat)
    requires Ready(cs, st) && code < Pow2(st.size) && BitsAt(data, p, Number(code, Width(cs + 1, st.avail)))
    ensures Width(cs + 1, st.avail) == st.size > 0 && Field(data, p, st.size) == code
  {
    hide BitsAt, Number, Initial;
    WidthIs(cs + 1, st.size, st.avail);
    NumberField(data, p, code, st.size);
  }

  /** Codes of an encoder fit the width. */
  lemma CodeFits(cs: nat, st: Lzw, e: Encoder, data: seq<byte>, code: nat)
    requires Ready(cs, st) && Lags(cs, st, e, data) && code < |e.dict| && (st.prev == -1 || data != [])
    ensures code < Pow2(st.size)
  {
    hide Initial;
    assert Pow2(12) == 4096;
  }

  lemma ControlFits(cs: nat, st: Lzw)
    requires Ready(cs, st)
    ensures Clear(cs) + 1 < Pow2(st.size)
  {
    hide Initial;
    Pow2Monotone(cs + 1, st.size);
    Pow2Monotone(2, cs);
    assert Pow2(2) == 4;
  }

  /** The bits of an encoding, with the end code, are decoded to the data it was made from. */
  lemma {:induction false} RunInvertsWriting(bytes: seq<byte>, p: nat, cs: nat, st: Lzw, e: Encoder, data: seq<byte>,
                                             codes: seq<nat>)
    requires Ready(cs, st) && Lags(cs, st, e, data) && Encodes(cs, e, data, codes)
    requires BitsAt(bytes, p, Written(cs, st.avail, st.prev == -1, codes))
    requires p + |Written(cs, st.avail, st.prev == -1, codes)| <= 8 * |bytes|
    ensures Run(bytes, p, cs, st) == Emitted(st.out + data)
    decreases |codes|
  {
    hide Learn, Step, BitsAt, Number, LzwOk, LeastWidth, Initial, Run, Width, Lags, IsControl, Clear, Encodes, Written;
    ControlFits(cs, st);
    WrittenParts(cs, st.avail, st.prev == -1, codes);
    EncodesParts(cs, e, data, codes);
    var w := Width(cs + 1, st.avail);
    if codes == [] {
      CodeReads(bytes, p, cs, st, Clear(cs) + 1);
      EndRuns(bytes, p, cs, st);
      assert st.out + [] == st.out;
    } else if codes[0] == Clear(cs) {
      BitsSplit(bytes, p, Number(Clear(cs), w), Written(cs, Clear(cs) + 2, true, codes[1..]));
      CodeReads(bytes, p, cs, st, Clear(cs));
      ClearLags(cs, st, data);
      ClearRuns(bytes, p, cs, st);
      RunInvertsWriting(bytes, p + w, cs, Step(cs, st, Clear(cs)).st, Fresh(cs), data, codes[1..]);
    } else {
      var code := codes[0];
      var count := if st.prev == -1 then st.avail else st.avail + 1;
      var s := e.dict[code];
      var rest := data[|s|..];
      BitsSplit(bytes, p, Number(code, w), Written(cs, count, false, codes[1..]));
      CodeFits(cs, st, e, data, code);
      CodeReads(bytes, p, cs, st, code);
      StepDecodes(cs, st, e, data, code);
      CodeRuns(bytes, p, cs, st, code);
      RunInvertsWriting(bytes, p + w, cs, Step(cs, st, code).st, Learn(cs, e, s, rest), rest, codes[1..]);
      Appended(st.out, s, data);
    }
  }

  lemma WrittenParts(cs: nat, count: nat, cleared: bool, codes: seq<nat>)
    ensures var w := Width(cs + 1, count);
      Written(cs, count, cleared, codes) ==
      if codes == [] then Number(Clear(cs) + 1, w)
      else if codes[0] == Clear(cs) then Number(Clear(cs), w) + Written(cs, Clear(cs) + 2, true, codes[1..])
      else Number(codes[0], w) + Written(cs, if cleared then count else count + 1, false, codes[1..])
  {
  }

  lemma EncodesParts(cs: nat, e: Encoder, data: seq<byte>, codes: seq<nat>)
    requires cs <= 12 && Encodes(cs, e, data, codes)
    ensures codes == [] ==> data == []
    ensures codes != [] && codes[0] == Clear(cs) ==> Encodes(cs, Fresh(cs), data, codes[1..])
    ensures codes != [] && codes[0] != Clear(cs) ==>
      && !IsControl(cs, codes[0]) && codes[0] < |e.dict| && e.asked <= MAX_CODES
      && e.dict[codes[0]] != [] && e.dict[codes[0]] <= data && data != []
      && var rest := data[|e.dict[codes[0]]|..];
         Encodes(cs, Learn(cs, e, e.dict[codes[0]], rest), rest, codes[1..])
  {
  }

  lemma Appended(out: seq<byte>, s: seq<byte>, data: seq<byte>)
    requires s <= data
    ensures out + data == out + s + data[|s|..]
  {
  }

  lemma EndRuns(bytes: seq<byte>, p: nat, cs: nat, st: Lzw)
    requires Ready(cs, st) && p + st.size <= 8 * |bytes| && Field(bytes, p, st.size) == Clear(cs) + 1
    ensures Run(bytes, p, cs, st) == Emitted(st.out)
  {
    hide LzwOk, LeastWidth, Run;
    RunCode(bytes, p, cs, st);
  }

  lemma ClearRuns(bytes: seq<byte>, p: nat, cs: nat, st: Lzw)
    requires Ready(cs, st) && p + st.size <= 8 * |bytes| && Field(bytes, p, st.size) == Clear(cs) && 0 < st.size
    ensures Step(cs, st, Clear(cs)).Ok? && Ready(cs, Step(cs, st, Clear(cs)).st)
    ensures var next := Step(cs, st, Clear(cs)).st;
      next.prev == -1 && next.avail == Clear(cs) + 2 && Run(bytes, p, cs, st) == Run(bytes, p + st.size, cs, next)
  {
    hide LzwOk, Run, Initial, Clear;
    RunCode(bytes, p, cs, st);
    StartWidth(cs);
  }

  lemma CodeRuns(bytes: seq<byte>, p: nat, cs: nat, st: Lzw, code: nat)
    requires Ready(cs, st) && p + st.size <= 8 * |bytes| && Field(bytes, p, st.size) == code < Pow2(st.size)
    requires 0 < st.size
    requires !IsControl(cs, code) && Step(cs, st, code).Ok?
    ensures Ready(cs, Step(cs, st, code).st)
    ensures var next := Step(cs, st, code).st;
      && next.prev == code != -1 && next.avail == (if st.prev == -1 then st.avail else st.avail + 1)
      && Run(bytes, p, cs, st) == Run(bytes, p + st.size, cs, next)
  {
    hide Initial, Grown, StringOf, LeastWidth, LzwOk, Run;
    RunCode(bytes, p, cs, st);
    StepWidth(cs, st, code);
  }

  // ---- sub-blocks ----

  /** Sub-blocks of 1 to 255 bytes, and the empty one. */
  predicate Blocked(blocks: seq<seq<byte>>)
  {
    forall i :: 0 <= i < |blocks| ==> 0 < |blocks[i]| <= 255
  }

  function SubBlocks(blocks: seq<seq<byte>>): seq<byte>
    requires Blocked(blocks)
  {
    if blocks == [] then [0] else [|blocks[0]|] + blocks[0] + SubBlocks(blocks[1..])
  }

  function JoinedBlocks(blocks: seq<seq<byte>>): seq<byte>
  {
    if blocks == [] then [] else blocks[0] + JoinedBlocks(blocks[1..])
  }

  /** The bytes of a sub-block come one after the other. */
  lemma {:induction false} InBlock(before: seq<byte>, bytes: seq<byte>, after: seq<byte>)
    ensures Data(before + bytes + after, |before|, |bytes|) == bytes + Data(before + bytes + after, |before + bytes|, 0)
    ensures AfterData(before + bytes + after, |before|, |bytes|)
      == AfterData(before + bytes + after, |before + bytes|, 0)
    decreases |bytes|
  {
    hide Data, AfterData;
    var input := before + bytes + after;
    if bytes == [] {
      assert before + bytes == before;
      assert [] + Data(input, |before|, 0) == Data(input, |before|, 0);
    } else {
      var head := before + [bytes[0]];
      assert input == head + bytes[1..] + after && before + bytes == head + bytes[1..];
      InBlock(head, bytes[1..], after);
      assert input[|before|] == bytes[0];
      OneByte(input, |before|, |bytes|);
      assert bytes == [bytes[0]] + bytes[1..];
    }
  }

  lemma OneByte(input: seq<byte>, pos: nat, left: nat)
    requires pos < |input| && left > 0
    ensures Data(input, pos, left) == [input[pos]] + Data(input, pos + 1, left - 1)
    ensures AfterData(input, pos, left) == AfterData(input, pos + 1, left - 1)
  {
  }

  /** The data of the sub-blocks is what has been cut into them. */
  lemma {:induction false} DataOfBlocks(before: seq<byte>, blocks: seq<seq<byte>>, after: seq<byte>)
    requires Blocked(blocks)
    ensures Data(before + SubBlocks(blocks) + after, |before|, 0) == JoinedBlocks(blocks)
    ensures AfterData(before + SubBlocks(blocks) + after, |before|, 0) == |before + SubBlocks(blocks)|
    decreases |blocks|
  {
    var input := before + SubBlocks(blocks) + after;
    if blocks == [] {
      assert input[|before|] == 0;
    } else {
      var n: byte := |blocks[0]|;
      var head := before + [n];
      var rest := SubBlocks(blocks[1..]);
      assert input == head + blocks[0] + (rest + after);
      assert input == (head + blocks[0]) + rest + after;
      assert input[|before|] == n;
      InBlock(head, blocks[0], rest + after);
      DataOfBlocks(head + blocks[0], blocks[1..], after);
      assert before + SubBlocks(blocks) == head + blocks[0] + rest;
    }
  }

  // ---- the whole image ----

  /** A clear code, the codes and the end code, written with growing width and packed into bytes. */
  function RasterBytes(cs: nat, codes: seq<nat>): seq<byte>
  {
    WrittenIsBits(cs, Clear(cs) + 2, true, [Clear(cs)] + codes);
    Packed(Written(cs, Clear(cs) + 2, true, [Clear(cs)] + codes))
  }

  /** The bytes of an encoding of the indices, cut into sub-blocks anywhere, behind the code size: decoding gives the
      indices back, and reading ends behind the last sub-block. */
  lemma RasterRoundTrip(cs: nat, data: seq<byte>, codes: seq<nat>, blocks: seq<seq<byte>>, before: seq<byte>,
                        after: seq<byte>)
    requires 2 <= cs <= 8 && Encodes(cs, Fresh(cs), data, codes)
    requires Blocked(blocks) && JoinedBlocks(blocks) == RasterBytes(cs, codes)
    ensures var input := before + [cs] + SubBlocks(blocks) + after;
      && ByteAt(input, |before|) == cs && Indices(input, |before|) == Emitted(data)
      && AfterData(input, |before| + 1, 0) == |before + [cs] + SubBlocks(blocks)|
  {
    hide SubBlocks, JoinedBlocks, Packed, Written, Encodes, AreBits, BitsAt, Run, Data, LzwOk, LeastWidth, Initial;
    var input := before + [cs] + SubBlocks(blocks) + after;
    assert input[|before|] == cs;
    DataOfBlocks(before + [cs], blocks, after);
    var bits := Written(cs, Clear(cs) + 2, true, [Clear(cs)] + codes);
    WrittenIsBits(cs, Clear(cs) + 2, true, [Clear(cs)] + codes);
    var bytes := Packed(bits);
    PackedBitsAt([], bits, []);
    assert [] + bytes + [] == bytes;
    assert |bytes| == (|bits| + 7) / 8;
    StartOk(cs);
    StartWidth(cs);
    FirstClear(bytes, cs, data, codes);
  }

  lemma FirstClear(bytes: seq<byte>, cs: nat, data: seq<byte>, codes: seq<nat>)
    requires 2 <= cs <= 8 && Encodes(cs, Fresh(cs), data, codes) && Ready(cs, Start(cs))
    requires BitsAt(bytes, 0, Written(cs, Clear(cs) + 2, true, [Clear(cs)] + codes))
    requires |Written(cs, Clear(cs) + 2, true, [Clear(cs)] + codes)| <= 8 * |bytes|
    ensures Run(bytes, 0, cs, Start(cs)) == Emitted(data)
  {
    hide Number, BitsAt, LzwOk, LeastWidth, Initial, Run, Encodes, Step;
    var st, w := Start(cs), Width(cs + 1, Clear(cs) + 2);
    assert ([Clear(cs)] + codes)[1..] == codes;
    BitsSplit(bytes, 0, Number(Clear(cs), w), Written(cs, Clear(cs) + 2, true, codes));
    ControlFits(cs, st);
    CodeReads(bytes, 0, cs, st, Clear(cs));
    ClearLags(cs, st, data);
    ClearRuns(bytes, 0, cs, st);
    RunInvertsWriting(bytes, w, cs, Step(cs, st, Clear(cs)).st, Fresh(cs), data, codes);
    assert [] + data == data;
  }
}
