/** A reference decoder for the image data of a GIF file: variable-length LZW, appendix F of GIF89a. */
module GifLzw {
  import opened Bits
  import opened BitStream

  // ---- sub-blocks ----

  /** The image data still to come when `left` bytes of the current sub-block have not been read: the
      bytes of all sub-blocks up to the empty one, where bytes past the end of the file are 0. */
  function Data(input: seq<byte>, pos: nat, left: nat): (r: seq<byte>)
    decreases if pos < |input| then |input| - pos else 0, left
  {
    var b := ByteAt(input, pos);
    if left > 0 then [b] + Data(input, Next(input, pos), left - 1)
    else if b == 0 then []
    else Data(input, pos + 1, b)
  }

  /** Where the empty sub-block ends. */
  function AfterData(input: seq<byte>, pos: nat, left: nat): nat
    decreases if pos < |input| then |input| - pos else 0, left
  {
    if left > 0 then AfterData(input, Next(input, pos), left - 1)
    else if ByteAt(input, pos) == 0 then Next(input, pos)
    else AfterData(input, pos + 1, ByteAt(input, pos))
  }

  /** The bytes of a sub-block need not be looked at to find its end. */
  lemma {:induction false} SkipBlock(input: seq<byte>, pos: nat, left: nat)
    requires pos <= |input|
    ensures AfterData(input, pos, left)
         == AfterData(input, if pos + left < |input| then pos + left else |input|, 0)
    decreases left
  {
    if left > 0 {
      SkipBlock(input, Next(input, pos), left - 1);
    }
  }

  // ---- the dictionary ----

  function Clear(cs: nat): nat
  {
    Pow2(cs)
  }

  /** One string for each colour index; the two control codes have none.  Code sizes above 8 have more codes than there
      are colour indices, which are bytes. */
  function Initial(cs: nat): (r: seq<seq<byte>>)
    requires cs <= 12
    ensures |r| == Clear(cs) + 2
  {
    seq<seq<byte>>(Clear(cs) + 2, i requires 0 <= i < Clear(cs) + 2 => if i < Clear(cs) then [i % 256] else [])
  }

  const MAX_CODES: nat := 8192

  /** How many entries can be named by a code. */
  function MaxDict(cs: nat): nat
  {
    if cs <= 11 then 4096 else 8192
  }

  /** avail counts the entries asked for since the last clear code; only those that a code can name are kept. */
  datatype Lzw = Lzw(dict: seq<seq<byte>>, avail: nat, prev: int, size: nat, started: bool, out: seq<byte>)

  function Start(cs: nat): Lzw
    requires cs <= 12
  {
    Lzw(Initial(cs), Clear(cs) + 2, -1, cs + 1, false, [])
  }

  datatype Outcome = Ok(st: Lzw) | End | Corrupt | TooMany

  predicate IsControl(cs: nat, code: int)
  {
    code == Clear(cs) || code == Clear(cs) + 1
  }

  /** What holds between codes. */
  ghost predicate LzwOk(cs: nat, st: Lzw)
  {
    && cs <= 12 && st.avail >= Clear(cs) + 2 && st.avail <= MAX_CODES
    && Initial(cs) <= st.dict
    && |st.dict| == (if st.avail < MaxDict(cs) then st.avail else MaxDict(cs))
    && cs + 1 <= st.size <= 13 && Pow2(st.size) <= MaxDict(cs)
    && (forall c :: 0 <= c < |st.dict| && !IsControl(cs, c) ==> st.dict[c] != [])
    && (st.prev == -1 ==> st.avail == Clear(cs) + 2)
    && (st.prev != -1 ==> 0 <= st.prev < |st.dict| && !IsControl(cs, st.prev))
  }

  /** The string of a code: an entry of the dictionary, or the one that is about to be added to it. */
  function StringOf(st: Lzw, code: nat): seq<byte>
  {
    if code < |st.dict| then st.dict[code]
    else if 0 <= st.prev < |st.dict| && st.dict[st.prev] != [] then st.dict[st.prev] + [st.dict[st.prev][0]]
    else []
  }

  /** The new entry: the previous string and the first index of the current one. */
  function NewEntry(st: Lzw, code: nat): seq<byte>
  {
    if 0 <= st.prev < |st.dict| && StringOf(st, code) != [] then st.dict[st.prev] + [StringOf(st, code)[0]] else []
  }

  function Grown(cs: nat, st: Lzw, code: nat): seq<seq<byte>>
  {
    if st.prev == -1 || |st.dict| >= MaxDict(cs) then st.dict else st.dict + [NewEntry(st, code)]
  }

  /** Codes become one bit longer when avail is a multiple of 2^size, up to 12 bits. */
  predicate Widens(avail: nat, size: nat)
  {
    Low(avail, size) == 0 && avail <= 0xFFF
  }

  function Step(cs: nat, st: Lzw, code: nat): Outcome
    requires cs <= 12
  {
    if code == Clear(cs) then Ok(Lzw(Initial(cs), Clear(cs) + 2, -1, cs + 1, true, st.out))
    else if code == Clear(cs) + 1 then End
    else if code > st.avail || !st.started then Corrupt
    else if st.prev == -1 && code == st.avail then Corrupt
    else if st.prev != -1 && st.avail == MAX_CODES then TooMany
    else
      var avail := if st.prev == -1 then st.avail else st.avail + 1;
      Ok(Lzw(Grown(cs, st, code), avail, code, if Widens(avail, st.size) then st.size + 1 else st.size, true,
             st.out + StringOf(st, code)))
  }

  lemma StartOk(cs: nat)
    requires cs <= 12
    ensures LzwOk(cs, Start(cs))
  {
    StartSizes(cs);
    assert forall c :: 0 <= c < |Initial(cs)| && !IsControl(cs, c) ==> Initial(cs)[c] != [];
    hide Initial, Pow2, MaxDict, IsControl;
  }

  lemma StartSizes(cs: nat)
    requires cs <= 12
    ensures Clear(cs) + 2 <= MaxDict(cs) <= MAX_CODES && Pow2(cs + 1) <= MaxDict(cs)
  {
    Pow2Monotone(cs + 1, if cs <= 11 then 12 else 13);
    assert Pow2(12) == 4096 && Pow2(13) == 8192;
    assert Pow2(cs + 1) == 2 * Clear(cs);
    if cs <= 1 {
      assert Pow2(0) == 1 && Pow2(1) == 2;
    } else {
      Pow2Monotone(2, cs);
      assert Pow2(2) == 4;
    }
  }

  /** Adding an entry keeps every string non-empty, except those of the control codes. */
  lemma GrownOk(cs: nat, st: Lzw, code: nat)
    requires LzwOk(cs, st) && code <= st.avail && !IsControl(cs, code)
    requires code == st.avail ==> st.prev != -1
    requires code < Pow2(st.size)
    ensures forall c :: 0 <= c < |Grown(cs, st, code)| && !IsControl(cs, c) ==> Grown(cs, st, code)[c] != []
    ensures |Grown(cs, st, code)| ==
            (if st.prev == -1 || |st.dict| == MaxDict(cs) then |st.dict| else |st.dict| + 1)
    ensures st.prev == -1 ==> Grown(cs, st, code) == st.dict
    ensures code < |Grown(cs, st, code)| && Initial(cs) <= Grown(cs, st, code)
  {
    if code < |st.dict| {
      assert st.dict[code] != [];
    }
  }

  /** The widest codes. */
  lemma {:induction false} WidensBound(avail: nat, size: nat)
    requires Widens(avail, size) && 0 < avail
    ensures Pow2(size) <= avail && size < 12
  {
    assert Pow2(12) == 4096;
    if avail < Pow2(size) {
      LowSmall(avail, size);
    }
    if size >= 12 {
      Pow2Monotone(12, size);
    }
  }

  lemma StepOk(cs: nat, st: Lzw, code: nat)
    requires LzwOk(cs, st) && code < Pow2(st.size)
    ensures Step(cs, st, code).Ok? ==> LzwOk(cs, Step(cs, st, code).st)
  {
    hide Grown, Initial, Widens;
    if code == Clear(cs) {
      StartOk(cs);
    } else if Step(cs, st, code).Ok? {
      GrownOk(cs, st, code);
      var avail := if st.prev == -1 then st.avail else st.avail + 1;
      if Widens(avail, st.size) {
        WidensBound(avail, st.size);
        WideEnough(cs, avail, st.size);
      }
    }
  }

  lemma WideEnough(cs: nat, avail: nat, size: nat)
    requires cs + 1 <= size < 12
    ensures Pow2(size + 1) <= MaxDict(cs)
  {
    Pow2Monotone(size + 1, 12);
    assert Pow2(12) == 4096;
  }

  // ---- the whole image ----

  datatype Raster = Emitted(indices: seq<byte>) | Bad

  /** The indices that the codes from bit p on stand for, after those already in st.out.  The image
      ends with an end code or with the last whole code of the data. */
  ghost function Run(data: seq<byte>, p: nat, cs: nat, st: Lzw): Raster
    requires LzwOk(cs, st)
    decreases if p <= 8 * |data| then 8 * |data| - p else 0
  {
    if p + st.size > 8 * |data| then Emitted(st.out)
    else
      FieldBound(data, p, st.size);
      StepOk(cs, st, Field(data, p, st.size));
      match Step(cs, st, Field(data, p, st.size))
      case Ok(next) => Run(data, p + st.size, cs, next)
      case End => Emitted(st.out)
      case _ => Bad
  }

  /** The colour indices of the image data at pos: a byte with the code size, then sub-blocks. */
  ghost function Indices(input: seq<byte>, pos: nat): Raster
    requires ByteAt(input, pos) <= 12
  {
    var cs := ByteAt(input, pos);
    StartOk(cs);
    Run(Data(input, pos + 1, 0), 0, cs, Start(cs))
  }

  // ---- the width of codes for the code sizes that the format has ----

  /** The least number of bits, at least n and at most 12, in which `count` can be written. */
  function Width(n: nat, count: nat): nat
    decreases 12 - n
  {
    if n >= 12 || count < Pow2(n) then n else Width(n + 1, count)
  }

  lemma SizeIsPositive(cs: nat, st: Lzw)
    requires LzwOk(cs, st)
    ensures cs <= 12 && st.size > 0
  {
    hide Initial;
  }

  /** One code of a run. */
  lemma RunCode(data: seq<byte>, p: nat, cs: nat, st: Lzw)
    requires LzwOk(cs, st) && p + st.size <= 8 * |data|
    ensures cs <= 12 && 0 < st.size
    ensures var step := Step(cs, st, Field(data, p, st.size));
      match step
      case Ok(next) => LzwOk(cs, next) && Run(data, p, cs, st) == Run(data, p + st.size, cs, next)
      case End => Run(data, p, cs, st) == Emitted(st.out)
      case _ => Run(data, p, cs, st) == Bad
  {
    hide LzwOk, Step;
    SizeIsPositive(cs, st);
    FieldBound(data, p, st.size);
    StepOk(cs, st, Field(data, p, st.size));
  }

  /** For code sizes of 2 to 11 codes always have that width. */
  ghost predicate LeastWidth(cs: nat, st: Lzw)
  {
    && cs + 1 <= st.size <= 12
    && (st.size < 12 ==> st.avail < Pow2(st.size)) && (st.size > cs + 1 ==> Pow2(st.size - 1) <= st.avail)
  }

  lemma {:induction false} WidthIs(n: nat, size: nat, count: nat)
    requires n <= size <= 12 && (size < 12 ==> count < Pow2(size)) && (size > n ==> Pow2(size - 1) <= count)
    ensures Width(n, count) == size
    decreases size - n
  {
    if n < size {
      Pow2Monotone(n, size - 1);
      WidthIs(n + 1, size, count);
    }
  }

  lemma StartWidth(cs: nat)
    requires 2 <= cs <= 11
    ensures LeastWidth(cs, Start(cs))
  {
    Pow2Monotone(2, cs);
    assert Pow2(2) == 4;
  }

  lemma StepWidth(cs: nat, st: Lzw, code: nat)
    requires 2 <= cs <= 11 && LzwOk(cs, st) && LeastWidth(cs, st) && Step(cs, st, code).Ok?
    ensures LeastWidth(cs, Step(cs, st, code).st)
  {
    hide Grown, Initial, StringOf;
    var next := Step(cs, st, code).st;
    if code == Clear(cs) {
      StartWidth(cs);
    } else {
      assert Pow2(12) == 4096;
      WidensExactly(next.avail, st.size);
    }
  }

  lemma WidensExactly(avail: nat, size: nat)
    requires 0 < avail && size <= 12 && (size < 12 ==> avail <= Pow2(size))
    ensures Widens(avail, size) <==> size < 12 && avail == Pow2(size)
  {
    Pow2Monotone(size, 12);
    assert Pow2(12) == 4096;
    if size < 12 {
      Pow2Monotone(size, 11);
      assert Pow2(11) == 2048;
    }
    if avail < Pow2(size) {
      LowSmall(avail, size);
    } else if size < 12 {
      LowStride(0, size);
      LowSmall(0, size);
    } else if Widens(avail, size) {
      WidensBound(avail, size);
    }
  }
}
