/** stbi__out_gif_code, stbi__process_gif_raster and the image descriptor part of stbi__gif_load_next.
    The class is stbi__gif; positions and sizes that the C code counts in bytes are counted in pixels. */
module Gif {
  import opened Wrappers
  import opened Bits
  import opened BitStream
  import opened GifLzw
  import opened GifPlacement
  import opened GifColors

  /** Where the cursor stands when n pixels of the frame have been visited: in the given row, with s the
      distance to the next row, or below the frame when all have been visited. */
  ghost predicate Cursor(f: Frame, n: nat, curX: int, curY: int, step: int, parse: int, row: nat, s: nat)
  {
    && Spacing(s) && 0 <= parse <= 3 && step == Line(s, f.width) && curY == Line(f.y + row, f.width)
    && (if row < f.h
        then
          && f.x <= curX < f.x + f.w && n < |Visits(f)|
          && Visits(f)[n..] == RowCells(f, row, curX - f.x) + Cells(f, Rows(row + s, s, f.h) + Later(parse, f.h))
        else |Visits(f)| <= n)
  }

  /** The same at the start of a row, possibly one below the frame while interlace passes remain. */
  ghost predicate RowStart(f: Frame, n: nat, curY: int, step: int, parse: int, row: nat, s: nat)
  {
    && Spacing(s) && 0 <= parse <= 3 && step == Line(s, f.width) && curY == Line(f.y + row, f.width)
    && n <= |Visits(f)| && Visits(f)[n..] == Cells(f, Rows(row, s, f.h) + Later(parse, f.h))
  }

  /** The comparison with max_y tells whether the row is in the frame. */
  lemma InFrame(f: Frame, row: nat)
    requires Fits(f)
    ensures row >= f.h ==> Line(f.y + row, f.width) >= Line(f.y + f.h, f.width)
    ensures row < f.h && 0 < f.w ==> Line(f.y + row, f.width) < Line(f.y + f.h, f.width)
  {
    if row < f.h {
      LineMonotone(f.y + row, f.y + f.h, f.width);
    } else {
      LineMonotone(f.y + f.h, f.y + row, f.width);
    }
  }

  /** Either all pixels have been visited, or the next one is the one the cursor points at. */
  lemma CursorPixel(f: Frame, n: nat, curX: int, curY: int, step: int, parse: int, row: nat, s: nat)
    requires Cursor(f, n, curX, curY, step, parse, row, s) && Fits(f)
    ensures curY >= Line(f.y + f.h, f.width) ==> |Visits(f)| <= n && Cursor(f, n + 1, curX, curY, step, parse, row, s)
    ensures curY < Line(f.y + f.h, f.width) ==> n < |Visits(f)| && Visits(f)[n] == curX + curY && row < f.h
  {
    InFrame(f, row);
    if row < f.h {
      assert Visits(f)[n..][0] == Visits(f)[n];
    }
  }

  /** One pixel to the right, or the end of the row. */
  lemma CursorRight(f: Frame, n: nat, curX: int, curY: int, step: int, parse: int, row: nat, s: nat)
    requires Cursor(f, n, curX, curY, step, parse, row, s) && Fits(f) && row < f.h
    ensures curX + 1 < f.x + f.w ==> Cursor(f, n + 1, curX + 1, curY, step, parse, row, s)
    ensures curX + 1 >= f.x + f.w ==> RowStart(f, n + 1, curY + step, step, parse, row + s, s)
    ensures curY + step == Line(f.y + row + s, f.width) && 0 <= parse && 0 < f.w
  {
    var more := Cells(f, Rows(row + s, s, f.h) + Later(parse, f.h));
    var here := RowCells(f, row, curX - f.x);
    Behind(Visits(f), n, here, more);
    assert here[1..] == RowCells(f, row, curX + 1 - f.x);
    LineAdd(f.y + row, s, f.width);
    assert curX + 1 < f.x + f.w ==> RowCells(f, row, curX + 1 - f.x) != [];
    assert curX + 1 >= f.x + f.w ==> RowCells(f, row, curX + 1 - f.x) == [];
    hide Visits, Line, Cells, RowCells, Rows, Later;
    if curX + 1 >= f.x + f.w {
      assert Visits(f)[n + 1..] == [] + more == more;
    }
  }

  lemma Behind(v: seq<nat>, n: nat, here: seq<nat>, more: seq<nat>)
    requires n < |v| && v[n..] == here + more && here != []
    ensures v[n + 1..] == here[1..] + more
    ensures here[1..] != [] ==> n + 1 < |v|
  {
    assert v[n + 1..] == v[n..][1..];
    assert |v[n..]| == |v| - n;
  }

  /** A row start inside the frame is a cursor position; one below it is the end if no pass is left. */
  lemma RowBegins(f: Frame, n: nat, curY: int, step: int, parse: int, row: nat, s: nat)
    requires RowStart(f, n, curY, step, parse, row, s) && 0 < f.w && (row < f.h || parse == 0)
    ensures Cursor(f, n, f.x, curY, step, parse, row, s)
  {
    if row < f.h {
      var rows := Rows(row, s, f.h) + Later(parse, f.h);
      assert rows[1..] == Rows(row + s, s, f.h) + Later(parse, f.h);
      assert rows[0] == row;
      assert RowCells(f, row, 0) != [];
      assert Visits(f)[n..] != [];
    } else {
      assert Rows(row, s, f.h) + Later(parse, f.h) == [];
    }
  }

  /** The first row of the next pass. */
  lemma NextPass(f: Frame, n: nat, curY: int, step: int, parse: int, row: nat, s: nat) returns (row': nat, s': nat)
    requires RowStart(f, n, curY, step, parse, row, s) && row >= f.h && 0 < parse
    ensures RowStart(f, n, Line(f.y, f.width) + Pow2(parse) * f.width / 2, Pow2(parse) * f.width, parse - 1, row', s')
    ensures Line(f.y, f.width) + Pow2(parse) * f.width / 2 == Line(f.y + row', f.width)
  {
    hide Visits, Cells, Line;
    s' := if parse == 3 then 8 else if parse == 2 then 4 else 2;
    row' := if parse == 3 then 4 else if parse == 2 then 2 else 1;
    assert Rows(row, s, f.h) + Later(parse, f.h) == Later(parse, f.h);
    assert Later(parse, f.h) == Rows(row', s', f.h) + Later(parse - 1, f.h);
    hide Rows, Later;
    LineAdd(f.y, row', f.width);
    PassLines(parse, f.width, row', s');
  }

  /** The spacing and the first row of a pass in pixels. */
  lemma PassLines(parse: nat, width: nat, row: nat, s: nat)
    requires 0 < parse <= 3
    requires s == (if parse == 3 then 8 else if parse == 2 then 4 else 2) && row == s / 2
    ensures Pow2(parse) * width == Line(s, width) && Pow2(parse) * width / 2 == Line(row, width)
  {
    LineOf(row, width);
    LineOf(s, width);
    LineAdd(row, row, width);
    Pow2Values();
    hide Line, Pow2;
    assert s == row + row;
  }

  /** What one code of the table stands for: the string of its prefix and one more index. */
  predicate EntryOk(cs: nat, dict: seq<seq<byte>>, c: nat, pre: int, fst: byte, suf: byte)
    requires c < |dict|
  {
    && -1 <= pre < c && !IsControl(cs, pre)
    && dict[c] == (if pre == -1 then [] else dict[pre]) + [suf]
    && fst == dict[c][0]
  }

  /** The entry that a code adds, in terms of the first indices of the previous code and of this one. */
  lemma GrownEntry(cs: nat, st: Lzw, code: nat, pre: int, fst: byte, suf: byte, pre': int, fst': byte, suf': byte)
    requires LzwOk(cs, st) && st.prev >= 0 && !IsControl(cs, code) && code <= st.avail && code < Pow2(st.size)
    requires EntryOk(cs, st.dict, st.prev, pre, fst, suf)
    requires code < |st.dict| ==> EntryOk(cs, st.dict, code, pre', fst', suf')
    requires |st.dict| < MaxDict(cs)
    ensures EntryOk(cs, Grown(cs, st, code), |st.dict|, st.prev, fst, if code < |st.dict| then fst' else fst)
  {
    assert NewEntry(st, code) == st.dict[st.prev] + [if code < |st.dict| then fst' else fst];
  }

  /** The other entries stay as they are. */
  lemma OldEntry(cs: nat, st: Lzw, code: nat, c: nat, pre: int, fst: byte, suf: byte)
    requires c < |st.dict| && EntryOk(cs, st.dict, c, pre, fst, suf)
    ensures EntryOk(cs, Grown(cs, st, code), c, pre, fst, suf)
  {
    assert Grown(cs, st, code)[c] == st.dict[c];
    assert pre >= 0 ==> Grown(cs, st, code)[pre] == st.dict[pre];
  }

  lemma ClearFits(cs: nat)
    requires cs <= 12
    ensures Clear(cs) + 2 <= MAX_CODES
  {
    Pow2Monotone(cs, 12);
    assert Pow2(12) == 4096;
  }

  lemma GrownHasCode(cs: nat, st: Lzw, code: nat)
    requires code < |Grown(cs, st, code)| && code <= |st.dict|
    ensures Grown(cs, st, code)[code] == StringOf(st, code)
  {
  }

  /** `(avail & codemask) == 0`. */
  lemma MaskTest(avail: nat, size: nat)
    ensures Pow2(size) > 0 && (And(avail, Pow2(size) - 1) == 0 && avail <= 0xFFF <==> Widens(avail, size))
  {
    AndMask(avail, size);
  }

  /** The next byte of the image data, possibly behind the length byte of the next sub-block. */
  lemma DataStep(input: seq<byte>, pos: nat, left: nat, data: seq<byte>, taken: nat)
    requires taken <= |data| && data[taken..] == Data(input, pos, left)
    ensures left > 0 ==> taken < |data| && data[taken] == ByteAt(input, pos)
    ensures left > 0 ==> data[taken + 1..] == Data(input, Next(input, pos), left - 1)
    ensures left > 0 ==> AfterData(input, pos, left) == AfterData(input, Next(input, pos), left - 1)
    ensures left == 0 && ByteAt(input, pos) == 0 ==> taken == |data| && AfterData(input, pos, left) == Next(input, pos)
    ensures left == 0 && ByteAt(input, pos) != 0
        ==> data[taken..] == Data(input, Next(input, pos), ByteAt(input, pos))
    ensures left == 0 && ByteAt(input, pos) != 0
        ==> AfterData(input, pos, left) == AfterData(input, Next(input, pos), ByteAt(input, pos))
  {
    assert left > 0 ==> data[taken] == data[taken..][0];
    assert left > 0 ==> data[taken + 1..] == data[taken..][1..];
  }

  method DataByte(input: seq<byte>, pos0: nat, left0: nat, ghost data: seq<byte>, ghost taken: nat)
    returns (more: bool, b: byte, pos: nat, left: nat)
    requires taken <= |data| && data[taken..] == Data(input, pos0, left0)
    ensures pos0 <= |input| ==> pos <= |input|
    ensures more ==> taken < |data| && b == data[taken] && data[taken + 1..] == Data(input, pos, left)
    ensures more ==> AfterData(input, pos, left) == AfterData(input, pos0, left0)
    ensures !more ==> taken == |data| && pos == AfterData(input, pos0, left0)
  {
    hide Data, AfterData;
    more, b, pos, left := false, 0, pos0, left0;
    DataStep(input, pos, left, data, taken);
    if left == 0 {
      left := ByteAt(input, pos);
      pos := Next(input, pos);
      if left == 0 {
        return;
      }
      DataStep(input, pos, left, data, taken);
    }
    more, b := true, ByteAt(input, pos);
    left := left - 1;
    pos := Next(input, pos);
  }

  /** Between two steps of the loop: `taken` data bytes have been read, and the last `valid` bits of them are kept. */
  ghost predicate Reading(input: seq<byte>, pos: nat, left: nat, bits: nat, valid: nat, data: seq<byte>, taken: nat,
                          goal: nat)
  {
    && pos <= |input| && taken <= |data| && data[taken..] == Data(input, pos, left)
    && AfterData(input, pos, left) == goal
    && valid <= 8 * taken && bits == Field(data, 8 * taken - valid, valid)
  }

  lemma ReadingStarts(input: seq<byte>, pos: nat, data: seq<byte>)
    requires pos <= |input| && data == Data(input, pos, 0)
    ensures Reading(input, pos, 0, 0, 0, data, 0, AfterData(input, pos, 0))
  {
  }

  method KeepByte(input: seq<byte>, pos0: nat, left0: nat, bits0: nat, valid0: nat,
                  ghost data: seq<byte>, ghost taken: nat, ghost goal: nat)
    returns (more: bool, pos: nat, left: nat, bits: nat, valid: nat)
    requires Reading(input, pos0, left0, bits0, valid0, data, taken, goal)
    ensures valid0 <= 8 * taken
    ensures more ==>
      valid == valid0 + 8 && taken < |data| && Reading(input, pos, left, bits, valid, data, taken + 1, goal)
    ensures !more ==> taken == |data| && pos == goal && valid == valid0
  {
    hide Data, AfterData, Field;
    var b;
    more, b, pos, left := DataByte(input, pos0, left0, data, taken);
    bits, valid := bits0, valid0;
    if more {
      AddByte(data, taken, valid);
      bits := Or(bits, Shl(b, valid));
      valid := valid + 8;
    }
  }

  method TakeCode(input: seq<byte>, pos: nat, left: nat, bits0: nat, valid: nat, size: nat,
                  ghost data: seq<byte>, ghost taken: nat, ghost goal: nat)
    returns (code: nat, bits: nat)
    requires Reading(input, pos, left, bits0, valid, data, taken, goal) && size <= valid
    ensures valid <= 8 * taken && code == Field(data, 8 * taken - valid, size) < Pow2(size)
    ensures Reading(input, pos, left, bits, valid - size, data, taken, goal)
  {
    TakeBits(data, 8 * taken - valid, valid, size);
    code := And(bits0, Pow2(size) - 1);
    bits := Shr(bits0, size);
  }

  method SkipRest(input: seq<byte>, pos0: nat, left: nat,
                  ghost bits: nat, ghost valid: nat, ghost data: seq<byte>, ghost taken: nat, ghost goal: nat)
    returns (pos: nat)
    requires Reading(input, pos0, left, bits, valid, data, taken, goal)
    ensures pos == goal
  {
    SkipBlock(input, pos0, left);
    pos := Skip(input, pos0, left);
    pos := SkipBlocks(input, pos);
  }

  lemma RunEnds(data: seq<byte>, p: nat, cs: nat, st: Lzw)
    requires LzwOk(cs, st) && p + st.size > 8 * |data|
    ensures Run(data, p, cs, st) == Emitted(st.out)
  {
  }

  /** `bits |= byte << valid_bits`. */
  lemma AddByte(data: seq<byte>, taken: nat, valid: nat)
    requires valid <= 8 * taken
    ensures Or(Field(data, 8 * taken - valid, valid), Shl(ByteAt(data, taken), valid))
      == Field(data, 8 * taken - valid, valid + 8)
  {
    var p := 8 * taken - valid;
    FieldSplit(data, p, valid, 8);
    ByteIsField(data, taken);
    FieldBound(data, p, valid);
    OrShl(ByteAt(data, taken), Field(data, p, valid), valid);
  }

  /** `bits & codemask`, and `bits >>= codesize`. */
  lemma TakeBits(data: seq<byte>, p: nat, valid: nat, size: nat)
    requires size <= valid
    ensures And(Field(data, p, valid), Pow2(size) - 1) == Field(data, p, size) < Pow2(size)
    ensures Shr(Field(data, p, valid), size) == Field(data, p + size, valid - size)
  {
    AndMask(Field(data, p, valid), size);
    FieldLow(data, p, valid, size);
    FieldBound(data, p, size);
    FieldShr(data, p, valid, size);
  }

  method SkipBlocks(input: seq<byte>, pos0: nat) returns (pos: nat)
    requires pos0 <= |input|
    ensures pos == AfterData(input, pos0, 0)
  {
    pos := pos0;
    var len := ByteAt(input, pos);
    pos := Next(input, pos);
    while len > 0
      invariant pos <= |input|
      invariant (if len == 0 then pos else AfterData(input, pos, len)) == AfterData(input, pos0, 0)
      decreases |input| - pos, len
    {
      SkipBlock(input, pos, len);
      pos := Skip(input, pos, len);
      len := ByteAt(input, pos);
      pos := Next(input, pos);
    }
  }

  function Offset(lines: nat, lineSize: nat): (r: nat)
    ensures r == Line(lines, lineSize)
  {
    LineOf(lines, lineSize);
    lines * lineSize
  }

  /** Before any index nothing is painted and nothing is marked. */
  lemma NothingPainted(before: seq<Quad>, marks: seq<int>, visits: seq<nat>, colors: seq<Quad>)
    requires |colors| == 256 && forall n :: 0 <= n < |visits| ==> visits[n] < |before| && visits[n] < |marks|
    ensures Painted(before, before, visits, colors, []) && Marked(marks, marks, visits, 0)
  {
  }

  lemma VisitsInCanvas(f: Frame)
    ensures Fits(f) ==> forall n :: 0 <= n < |Visits(f)| ==> Visits(f)[n] < Line(f.height, f.width)
  {
    if Fits(f) {
      VisitsDistinct(f);
    }
  }

  /** The state in which an image starts. */
  lemma FrameStart(f: Frame) returns (row: nat, s: nat)
    requires Fits(f)
    ensures Cursor(f, 0, f.x, if f.w == 0 then Line(f.y + f.h, f.width) else Line(f.y, f.width),
                   if f.interlaced then 8 * f.width else f.width, if f.interlaced then 3 else 0, row, s)
  {
    row := if f.w == 0 then f.h else 0;
    s := if f.interlaced then 8 else 1;
    LineOf(s, f.width);
    NothingToVisit(f);
    OrderIsFirstAndLater(f.h);
    if f.w > 0 && f.h > 0 {
      var parse := if f.interlaced then 3 else 0;
      RowBegins(f, 0, Line(f.y, f.width), Line(s, f.width), parse, 0, s);
    }
  }

  /** Painting one more pixel. */
  lemma PaintOne(before: seq<Quad>, now: seq<Quad>, visits: seq<nat>, colors: seq<Quad>, e: seq<byte>, x: byte)
    requires |colors| == 256
    requires forall n :: 0 <= n < |visits| ==> visits[n] < |before|
    requires forall j, k :: 0 <= j < k < |visits| ==> visits[j] != visits[k]
    requires Painted(before, now, visits, colors, e)
    ensures |e| >= |visits| ==> Painted(before, now, visits, colors, e + [x])
    ensures |e| < |visits| ==>
      Painted(before, now[visits[|e|] := Over(colors[x], now[visits[|e|]])], visits, colors, e + [x])
  {
    if |e| < |visits| {
      var p := visits[|e|];
      assert forall n :: 0 <= n < |visits| && n < |e| ==> visits[n] != p;
      assert now[p] == before[p];
      var after := now[p := Over(colors[x], now[p])];
      forall i | 0 <= i < |before| && forall n :: 0 <= n < |visits| && n < |e + [x]| ==> visits[n] != i
        ensures after[i] == before[i]
      {
        assert visits[|e|] != i;
      }
    }
  }

  lemma MarkOne(before: seq<int>, now: seq<int>, visits: seq<nat>, count: nat)
    requires forall n :: 0 <= n < |visits| ==> visits[n] < |before|
    requires Marked(before, now, visits, count)
    ensures count >= |visits| ==> Marked(before, now, visits, count + 1)
    ensures count < |visits| ==> Marked(before, now[visits[count] := 1], visits, count + 1)
  {
    if count < |visits| {
      forall i | 0 <= i < |before| && forall n :: 0 <= n < |visits| && n < count + 1 ==> visits[n] != i
        ensures now[visits[count] := 1][i] == before[i]
      {
        assert visits[count] != i;
      }
    }
  }

  class Gif {
    const w: nat
    const h: nat
    const out: array<Quad>
    const history: array<int>
    const prefix: array<int>
    const first: array<byte>
    const suffix: array<byte>
    const pal: array<Quad>
    const lpal: array<Quad>
    var flags: nat
    var bgindex: byte
    var eflags: nat
    var transparent: int
    var colorTable: seq<Quad>
    var parse: int
    var step: int
    var startX: int
    var startY: int
    var maxX: int
    var maxY: int
    var curX: int
    var curY: int
    var lineSize: nat
    ghost var frame: Frame
    ghost var row: nat
    ghost var spacing: nat
    ghost var before: seq<Quad>
    ghost var unmarked: seq<int>
    ghost var emitted: seq<byte>

    /** The canvas and the table of codes, which stay for all frames. */
    predicate Allocated()
    {
      && out.Length == history.Length == Line(h, w)
      && prefix.Length == first.Length == suffix.Length == MAX_CODES && first != suffix && prefix != history
      && pal.Length == lpal.Length == 256 && pal != lpal && out != pal && out != lpal
    }

    ghost predicate Layout()
      reads this`frame, this`lineSize, this`colorTable, this`startX, this`maxX, this`startY, this`maxY
      reads this`before, this`unmarked
    {
      && Allocated() && Fits(frame) && frame.width == w == lineSize && frame.height == h && |colorTable| == 256
      && startX == frame.x && maxX == frame.x + frame.w
      && startY == Line(frame.y, w) && maxY == Line(frame.y + frame.h, w)
      && |before| == |unmarked| == Line(h, w)
      && (forall n :: 0 <= n < |Visits(frame)| ==> Visits(frame)[n] < Line(h, w))
    }

    ghost predicate Placing()
      reads this, out, history
    {
      && Layout()
      && Cursor(frame, |emitted|, curX, curY, step, parse, row, spacing)
      && Painted(before, out[..], Visits(frame), colorTable, emitted)
      && Marked(unmarked, history[..], Visits(frame), |emitted|)
    }

    constructor (width: nat, height: nat)
      ensures w == width && h == height && Allocated()
      ensures fresh(out) && fresh(history) && fresh(prefix) && fresh(first) && fresh(suffix)
      ensures forall i :: 0 <= i < out.Length ==> out[i] == Quad(0, 0, 0, 0) && history[i] == 0
      ensures fresh(pal) && fresh(lpal) && transparent == -1 && flags == eflags == bgindex == 0
      ensures forall i :: 0 <= i < 256 ==> pal[i] == lpal[i] == Quad(0, 0, 0, 0)
    {
      w, h := width, height;
      flags, bgindex, eflags, transparent := 0, 0, 0, -1;
      LineOf(height, width);
      out := new Quad[height * width](_ => Quad(0, 0, 0, 0));
      history := new int[height * width](_ => 0);
      var p := new int[MAX_CODES];
      prefix := p;
      var a := new byte[MAX_CODES];
      var b := new byte[MAX_CODES];
      first, suffix := a, b;
      var c := new Quad[256](_ => Quad(0, 0, 0, 0));
      var d := new Quad[256](_ => Quad(0, 0, 0, 0));
      pal, lpal := c, d;
      colorTable := [];
    }

    /** Goes on to the following interlace passes while the row is below the frame. */
    method EnterRow(ghost n: nat)
      requires Layout() && 0 < frame.w && curX == startX
      requires RowStart(frame, n, curY, step, parse, row, spacing)
      modifies this`curY, this`step, this`parse, this`row, this`spacing
      ensures Layout() && Cursor(frame, n, curX, curY, step, parse, row, spacing)
    {
      hide Visits, Cells, RowCells, Rows, Later, Line, Cursor, Spacing, Pow2;
      InFrame(frame, row);
      assert 0 <= parse <= 3 && curY == Line(frame.y + row, w);
      hide RowStart;
      while curY >= maxY && parse > 0
        invariant RowStart(frame, n, curY, step, parse, row, spacing) && curY == Line(frame.y + row, w) && 0 <= parse
        invariant curY < maxY <==> row < frame.h
        decreases parse
      {
        var r, s := NextPass(frame, n, curY, step, parse, row, spacing);
        step := Pow2(parse) * lineSize;
        curY := startY + step / 2;
        parse := parse - 1;
        row, spacing := r, s;
        InFrame(frame, row);
      }
      RowBegins(frame, n, curY, step, parse, row, spacing);
    }

    /** The part of stbi__out_gif_code that moves on to the next pixel. */
    method Advance(ghost n: nat)
      requires Layout() && Cursor(frame, n, curX, curY, step, parse, row, spacing) && row < frame.h
      modifies this`curX, this`curY, this`step, this`parse, this`row, this`spacing
      ensures Layout() && Cursor(frame, n + 1, curX, curY, step, parse, row, spacing)
    {
      hide Visits, Cells, RowCells, Rows, Later, Line, Cursor, RowStart, Spacing;
      CursorRight(frame, n, curX, curY, step, parse, row, spacing);
      curX := curX + 1;
      if curX >= maxX {
        curX := startX;
        curY := curY + step;
        row := row + spacing;
        EnterRow(n + 1);
      }
    }

    /** The part of stbi__out_gif_code that follows the recursive call: one index. */
    method PutIndex(c: byte)
      requires Placing()
      modifies this`curX, this`curY, this`step, this`parse, this`row, this`spacing, this`emitted, out, history
      ensures Placing() && emitted == old(emitted) + [c]
    {
      hide Cursor, Visits, Painted, Marked;
      var visits := Visits(frame);
      VisitsDistinct(frame);
      CursorPixel(frame, |emitted|, curX, curY, step, parse, row, spacing);
      PaintOne(before, out[..], visits, colorTable, emitted, c);
      MarkOne(unmarked, history[..], visits, |emitted|);
      if curY >= maxY {
        emitted := emitted + [c];
        return;
      }
      var idx := curX + curY;
      history[idx] := 1;
      var color := colorTable[c];
      if color.c3 > 128 {
        out[idx] := Quad(color.c2, color.c1, color.c0, color.c3);
      }
      emitted := emitted + [c];
      assert out[..] == old(out[..])[idx := Over(color, old(out[..])[idx])];
      assert history[..] == old(history[..])[idx := 1];
      Advance(|emitted| - 1);
    }

    // ---- the table of codes ----

    /** The table holds the strings of the dictionary. */
    ghost predicate Tables(cs: nat, dict: seq<seq<byte>>)
      reads prefix, first, suffix
    {
      && Allocated() && |dict| <= MAX_CODES
      && forall c: nat :: c < |dict| && !IsControl(cs, c) ==> EntryOk(cs, dict, c, prefix[c], first[c], suffix[c])
    }

    /** stbi__out_gif_code: prefixes are smaller codes, so the recursion ends. */
    method OutGifCode(code: nat, ghost cs: nat, ghost dict: seq<seq<byte>>)
      requires Placing() && Tables(cs, dict) && code < |dict| && !IsControl(cs, code)
      modifies this`curX, this`curY, this`step, this`parse, this`row, this`spacing, this`emitted, out, history
      ensures Placing() && emitted == old(emitted) + dict[code] && Tables(cs, dict)
      decreases code
    {
      hide Placing;
      assert EntryOk(cs, dict, code, prefix[code], first[code], suffix[code]);
      if prefix[code] >= 0 {
        OutGifCode(prefix[code], cs, dict);
      }
      PutIndex(suffix[code]);
    }

    /** The strings of a single index. */
    method InitCodes(cs: nat)
      requires Allocated() && cs <= 12
      modifies prefix, first, suffix
      ensures Tables(cs, Initial(cs))
      ensures old(Placing()) ==> Placing()
    {
      ClearFits(cs);
      var clear := Pow2(cs);
      for i := 0 to clear
        modifies prefix, first, suffix
        invariant forall c :: 0 <= c < i ==> prefix[c] == -1 && first[c] == suffix[c] == c % 256
      {
        prefix[i] := -1;
        first[i] := i % 256;
        suffix[i] := i % 256;
      }
    }

    /** A new entry of the table; beyond the first 4096 no code can name it. */
    method AddCode(avail: nat, oldcode: nat, code: nat, ghost cs: nat, ghost st: Lzw)
      requires LzwOk(cs, st) && st.avail == avail < MAX_CODES && st.prev == oldcode
      requires code <= avail && code < Pow2(st.size) && !IsControl(cs, code)
      requires Tables(cs, st.dict)
      modifies prefix, first, suffix
      ensures Tables(cs, Grown(cs, st, code))
      ensures old(Placing()) ==> Placing()
    {
      hide Grown, EntryOk, Initial, StringOf, NewEntry, Layout, Cursor, Painted, Marked, Visits, Pow2, MaxDict;
      GrownOk(cs, st, code);
      if |st.dict| < MaxDict(cs) {
        var c := if code < |st.dict| then code else oldcode;
        GrownEntry(cs, st, code, prefix[oldcode], first[oldcode], suffix[oldcode], prefix[c], first[c], suffix[c]);
      }
      prefix[avail] := oldcode;
      var fst := first[oldcode];
      first[avail] := fst;
      suffix[avail] := if code == avail + 1 then fst else first[code];
      forall c: nat | c < |Grown(cs, st, code)| && !IsControl(cs, c)
        ensures EntryOk(cs, Grown(cs, st, code), c, prefix[c], first[c], suffix[c])
      {
        if c < |st.dict| {
          OldEntry(cs, st, code, c, old(prefix[c]), old(first[c]), old(suffix[c]));
        }
      }
    }

    // ---- the image data ----

    /** The decoder's variables agree with a state of the reference decoder. */
    ghost predicate Matches(cs: nat, st: Lzw, avail: int, oldcode: int, codesize: int, unset: bool)
      reads this, out, history, prefix, first, suffix
    {
      && LzwOk(cs, st) && Tables(cs, st.dict) && Placing() && emitted == st.out
      && avail == st.avail && oldcode == st.prev && codesize == st.size && unset == !st.started
    }

    /** After a clear code the first entries of the table are still those of the single indices. */
    lemma SingleIndices(cs: nat, dict: seq<seq<byte>>)
      requires cs <= 12 && Tables(cs, dict) && Initial(cs) <= dict
      ensures Tables(cs, Initial(cs))
    {
      var start := Initial(cs);
      forall c: nat | c < |start| && !IsControl(cs, c)
        ensures EntryOk(cs, start, c, prefix[c], first[c], suffix[c])
      {
        assert EntryOk(cs, dict, c, prefix[c], first[c], suffix[c]);
        assert dict[c] == start[c];
      }
    }

    /** What stbi__process_gif_raster does with one code. */
    method ProcessCode(code: nat, cs: nat, avail0: nat, oldcode0: int, codesize0: nat, unset0: bool, ghost st: Lzw)
      returns (ok: bool, end: bool, avail: nat, oldcode: int, codesize: nat, unset: bool)
      requires Matches(cs, st, avail0, oldcode0, codesize0, unset0) && code < Pow2(codesize0)
      modifies this`curX, this`curY, this`step, this`parse, this`row, this`spacing, this`emitted, out, history
      modifies prefix, first, suffix
      ensures ok <==> Step(cs, st, code).Ok? || Step(cs, st, code).End?
      ensures Step(cs, st, code).Ok? ==> !end && Matches(cs, Step(cs, st, code).st, avail, oldcode, codesize, unset)
      ensures Step(cs, st, code).End? ==> end && Placing() && emitted == st.out
    {
      hide Placing, Tables, Initial, Grown, StringOf, EntryOk, And, Widens;
      StepOk(cs, st, code);
      ok, end, avail, oldcode, codesize, unset := true, false, avail0, oldcode0, codesize0, unset0;
      if code == Pow2(cs) {
        SingleIndices(cs, st.dict);
        codesize, avail, oldcode, unset := cs + 1, Pow2(cs) + 2, -1, false;
      } else if code == Pow2(cs) + 1 {
        end := true;
      } else if code <= avail {
        if unset {
          ok := false;
          return;
        }
        if oldcode >= 0 {
          if avail + 1 > MAX_CODES {
            ok := false;
            return;
          }
          AddCode(avail, oldcode, code, cs, st);
          avail := avail + 1;
        } else if code == avail {
          ok := false;
          return;
        }
        GrownOk(cs, st, code);
        assert Grown(cs, st, code)[code] == StringOf(st, code) by {
          GrownHasCode(cs, st, code);
        }
        MaskTest(avail, codesize);
        OutGifCode(code, cs, Grown(cs, st, code));
        if And(avail, Pow2(codesize) - 1) == 0 && avail <= 0x0FFF {
          codesize := codesize + 1;
        }
        oldcode := code;
      } else {
        ok := false;
      }
    }

    /** The loop of stbi__process_gif_raster. */
    method ProcessCodes(input: seq<byte>, pos0: nat, cs: nat, ghost st0: Lzw) returns (ok: bool, pos: nat)
      requires pos0 <= |input| && Matches(cs, st0, Pow2(cs) + 2, -1, cs + 1, true)
      modifies this`curX, this`curY, this`step, this`parse, this`row, this`spacing, this`emitted, out, history
      modifies prefix, first, suffix
      ensures LzwOk(cs, st0)
      ensures ok <==> Run(Data(input, pos0, 0), 0, cs, st0).Emitted?
      ensures ok ==> Placing() && Run(Data(input, pos0, 0), 0, cs, st0) == Emitted(emitted)
      ensures ok ==> pos == AfterData(input, pos0, 0)
    {
      hide Layout, Cursor, Painted, Marked, Visits, Tables, AfterData, Data, Reading, Step, LzwOk, Field, Run, Pow2;
      hide Initial;
      var avail, oldcode, codesize, unset := Pow2(cs) + 2, -1, cs + 1, true;
      var len, bits, valid := 0, 0, 0;
      ghost var st, data, taken := st0, Data(input, pos0, 0), 0;
      ghost var goal := AfterData(input, pos0, 0);
      ReadingStarts(input, pos0, data);
      pos := pos0;
      while true
        invariant Matches(cs, st, avail, oldcode, codesize, unset) && LzwOk(cs, st) && codesize == st.size
        invariant 0 <= valid <= 8 * taken && Reading(input, pos, len, bits, valid, data, taken, goal)
        invariant Run(data, 8 * taken - valid, cs, st) == Run(data, 0, cs, st0)
        decreases |data| - taken, valid
      {
        if valid < codesize {
          var more;
          more, pos, len, bits, valid := KeepByte(input, pos, len, bits, valid, data, taken, goal);
          if !more {
            RunEnds(data, 8 * taken - valid, cs, st);
            ok := true;
            return;
          }
          taken := taken + 1;
        } else {
          var code: nat;
          code, bits := TakeCode(input, pos, len, bits, valid, codesize, data, taken, goal);
          RunCode(data, 8 * taken - valid, cs, st);
          valid := valid - codesize;
          var end: bool;
          ok, end, avail, oldcode, codesize, unset := ProcessCode(code, cs, avail, oldcode, codesize, unset, st);
          if !ok {
            return;
          }
          if end {
            pos := SkipRest(input, pos, len, bits, valid, data, taken, goal);
            return;
          }
          st := Step(cs, st, code).st;
        }
      }
    }

    /** stbi__process_gif_raster: it succeeds exactly when the codes are correct, has then emitted the indices they
        stand for, and leaves the input behind the empty sub-block. */
    method ProcessGifRaster(input: seq<byte>, pos0: nat) returns (ok: bool, pos: nat)
      requires Placing() && emitted == [] && pos0 <= |input|
      modifies this`curX, this`curY, this`step, this`parse, this`row, this`spacing, this`emitted, out, history
      modifies prefix, first, suffix
      ensures ok <==> ByteAt(input, pos0) <= 12 && Indices(input, pos0).Emitted?
      ensures ok ==> Placing() && Indices(input, pos0) == Emitted(emitted)
      ensures ok ==> pos == AfterData(input, Next(input, pos0), 0)
    {
      pos := Next(input, pos0);
      var cs := ByteAt(input, pos0);
      ok := false;
      if cs > 12 {
        return;
      }
      StartOk(cs);
      InitCodes(cs);
      ok, pos := ProcessCodes(input, pos, cs, Start(cs));
    }

    /** The rectangle of a frame. */
    method SetRectangle(f: Frame)
      requires Allocated() && Fits(f) && f.width == w && f.height == h
      modifies this`lineSize, this`startX, this`startY, this`maxX, this`maxY
      ensures lineSize == w && startX == f.x && startY == Line(f.y, w)
      ensures maxX == f.x + f.w && maxY == Line(f.y + f.h, w)
    {
      hide Offset, Line;
      LineAdd(f.y, f.h, w);
      lineSize := w;
      startX := f.x;
      startY := Offset(f.y, lineSize);
      maxX := startX + f.w;
      maxY := startY + Offset(f.h, lineSize);
    }

    /** The cursor before the first pixel of a frame. */
    method SetCursor(f: Frame)
      requires Fits(f) && lineSize == f.width && startX == f.x
      requires startY == Line(f.y, f.width) && maxY == Line(f.y + f.h, f.width)
      modifies this`curX, this`curY, this`step, this`parse, this`row, this`spacing
      ensures Cursor(f, 0, curX, curY, step, parse, row, spacing)
    {
      hide Cursor, Line;
      row, spacing := FrameStart(f);
      curX, curY := startX, if f.w == 0 then maxY else startY;
      if f.interlaced {
        step, parse := 8 * lineSize, 3;
      } else {
        step, parse := lineSize, 0;
      }
    }

    method StartFrame(f: Frame, colors: seq<Quad>)
      requires Allocated() && Fits(f) && f.width == w && f.height == h && |colors| == 256
      modifies this`colorTable, this`frame, this`before, this`unmarked, this`emitted, this`lineSize, this`startX
      modifies this`startY, this`maxX, this`maxY, this`curX, this`curY, this`step, this`parse, this`row, this`spacing
      ensures Placing() && emitted == [] && frame == f && colorTable == colors
      ensures before == out[..] && unmarked == history[..]
    {
      hide Visits, Line, Cursor, Painted, Marked;
      VisitsInCanvas(f);
      NothingPainted(out[..], history[..], Visits(f), colors);
      colorTable := colors;
      frame, before, unmarked, emitted := f, out[..], history[..], [];
      SetRectangle(f);
      assert Layout();
      SetCursor(f);
    }

    /** Gives the pixels of a frame on the canvas their colours: it fails exactly for incorrect codes; otherwise the
        n-th index has coloured and marked the n-th pixel of the frame, and nothing else has changed. */
    method PaintFrame(f: Frame, colors: seq<Quad>, input: seq<byte>, pos0: nat) returns (ok: bool, pos: nat)
      requires Allocated() && Fits(f) && f.width == w && f.height == h && |colors| == 256 && pos0 <= |input|
      modifies this`colorTable, this`frame, this`before, this`unmarked, this`emitted, this`lineSize, this`startX
      modifies this`startY, this`maxX, this`maxY, this`curX, this`curY, this`step, this`parse, this`row, this`spacing
      modifies out, history, prefix, first, suffix
      ensures ok <==> ByteAt(input, pos0) <= 12 && Indices(input, pos0).Emitted?
      ensures forall n :: 0 <= n < |Visits(f)| ==> Visits(f)[n] < Line(h, w)
      ensures ok ==> Painted(old(out[..]), out[..], Visits(f), colors, Indices(input, pos0).indices)
      ensures ok ==> Marked(old(history[..]), history[..], Visits(f), |Indices(input, pos0).indices|)
      ensures ok ==> pos == AfterData(input, Next(input, pos0), 0)
    {
      hide Layout, Cursor, Painted, Marked;
      VisitsInCanvas(f);
      StartFrame(f, colors);
      ok, pos := ProcessGifRaster(input, pos0);
    }

    method ClearHistory()
      modifies history
      ensures history[..] == seq(history.Length, _ => 0)
    {
      for i := 0 to history.Length
        invariant forall j :: 0 <= j < i ==> history[j] == 0
      {
        history[i] := 0;
      }
    }

    // ---- colours ----

    /** The end of stbi__gif_header: the global table, if there is one, has no transparent colour. */
    method ReadGlobalTable(input: seq<byte>, pos0: nat, f: byte, background: byte) returns (pos: nat)
      requires Allocated() && pos0 <= |input|
      modifies this`flags, this`bgindex, this`transparent, pal
      ensures flags == f && bgindex == background && transparent == -1
      ensures f >= 128 ==>
        Reversed(pal[..], input, pos0, ColorCount(f)) && OnlyHidden(pal[..], ColorCount(f), transparent)
      ensures f < 128 ==> pal[..] == old(pal[..])
      ensures pos == if f >= 128 then Skip(input, pos0, 3 * ColorCount(f)) else pos0
    {
      flags, bgindex, transparent, pos := f, background, -1, pos0;
      if flags >= 128 {
        pos := ParseColorTable(input, pos0, pal, ColorCount(flags), -1);
      }
    }

    /** The graphic control extension: another colour of the global table becomes the transparent one. */
    method SetGraphicControl(control: byte, index: byte)
      requires Allocated() && -1 <= transparent < 256
      modifies this`eflags, this`transparent, pal
      ensures eflags == control && transparent == if control % 2 == 1 then index as int else -1
      ensures forall i :: 0 <= i < 256 ==>
        pal[i] == old(pal[i]).(c3 := if i == transparent then 0
                                     else if i == old(transparent) then 255 else old(pal[i].c3))
      ensures forall count: nat :: old(OnlyHidden(pal[..], count, transparent)) ==>
        OnlyHidden(pal[..], count, transparent)
    {
      eflags := control;
      if transparent >= 0 {
        pal[transparent] := pal[transparent].(c3 := 255);
      }
      if eflags % 2 == 1 {
        transparent := index;
        pal[transparent] := pal[transparent].(c3 := 0);
      } else {
        transparent := -1;
      }
    }

    /** Pixels that the first frame has not visited get the background colour, as it stands in the table. */
    method FillBackground()
      requires Allocated()
      modifies out, pal
      ensures forall i :: 0 <= i < out.Length ==>
        out[i] == if history[i] == 0 then old(pal[bgindex]).(c3 := 255) else old(out[i])
      ensures forall i :: 0 <= i < 256 && i != bgindex as int ==> pal[i] == old(pal[i])
      ensures pal[bgindex] == old(pal[bgindex]) || pal[bgindex] == old(pal[bgindex]).(c3 := 255)
    {
      for i := 0 to out.Length
        invariant forall j :: 0 <= j < i ==>
          out[j] == if history[j] == 0 then old(pal[bgindex]).(c3 := 255) else old(out[j])
        invariant forall j :: i <= j < out.Length ==> out[j] == old(out[j])
        invariant forall j :: 0 <= j < 256 && j != bgindex as int ==> pal[j] == old(pal[j])
        invariant pal[bgindex] == old(pal[bgindex]) || pal[bgindex] == old(pal[bgindex]).(c3 := 255)
      {
        if history[i] == 0 {
          pal[bgindex] := pal[bgindex].(c3 := 255);
          out[i] := pal[bgindex];
        }
      }
    }

    /** Reads the colour table behind an image descriptor, or takes the global one. */
    method ChooseTable(input: seq<byte>, pos0: nat, lflags: byte) returns (ok: bool, colors: seq<Quad>, pos: nat)
      requires Allocated() && pos0 <= |input|
      modifies lpal
      ensures ok <==> lflags >= 128 || flags >= 128
      ensures |colors| == 256 && (lflags < 128 ==> colors == pal[..])
      ensures pos == Skip(input, pos0, if lflags >= 128 then 9 + 3 * ColorCount(lflags) else 9) <= |input|
      ensures lflags >= 128 ==>
        && Reversed(colors, input, pos0 + 9, ColorCount(lflags))
        && OnlyHidden(colors, ColorCount(lflags), if eflags % 2 == 1 then transparent else -1)
    {
      hide Reversed, OnlyHidden, Skip, ColorCount, ByteAt;
      SkipEnds(input, pos0, 9);
      pos, ok := Skip(input, pos0, 9), true;
      if lflags >= 128 {
        FurtherTable(input, pos0, 9, ColorCount(lflags));
        pos := ParseColorTable(input, pos, lpal, ColorCount(lflags), if eflags % 2 == 1 then transparent else -1);
        colors := lpal[..];
        ReversedFurther(colors, input, pos0, 9, ColorCount(lflags));
      } else {
        colors := pal[..];
        ok := flags >= 128;
      }
    }

    /** The image descriptor branch of stbi__gif_load_next. It fails exactly for a frame outside the canvas, a missing
        colour table or incorrect codes. Otherwise the n-th pixel of the frame has red, green and blue of the n-th index
        as they stand in the file, or is as it was if that colour is transparent; every other pixel is as it was, or has
        the background colour on a first frame that asks for one. */
    method LoadFrame(input: seq<byte>, pos0: nat, firstFrame: bool) returns (ok: bool, pos: nat)
      requires Allocated() && pos0 <= |input|
      modifies this`colorTable, this`frame, this`before, this`unmarked, this`emitted, this`lineSize, this`startX
      modifies this`startY, this`maxX, this`maxY, this`curX, this`curY, this`step, this`parse, this`row, this`spacing
      modifies out, history, prefix, first, suffix, pal, lpal
      ensures var f, lflags := FrameAt(input, pos0, w, h), ByteAt(input, pos0 + 8);
        var data := Skip(input, pos0, if lflags >= 128 then 9 + 3 * ColorCount(lflags) else 9);
        && (ok <==> Fits(f) && (lflags >= 128 || flags >= 128)
                    && ByteAt(input, data) <= 12 && Indices(input, data).Emitted?)
        && (ok ==>
            && pos == AfterData(input, Next(input, data), 0)
            && FrameShown(old(out[..]), out[..], f, Indices(input, data).indices, input, pos0 + 9, lflags,
                          if eflags % 2 == 1 then transparent else -1, old(pal[..]))
            && OthersLeft(old(out[..]), out[..], Visits(f), |Indices(input, data).indices|,
                          if firstFrame && bgindex > 0 then Some(old(pal[bgindex])) else None))
    {
      hide Painted, Marked, FrameShown, OthersLeft, Visits, Reversed, OnlyHidden, Skip, ByteAt, ColorCount, Line;
      var f, lflags := FrameAt(input, pos0, w, h), ByteAt(input, pos0 + 8);
      ok, pos := false, pos0;
      ClearHistory();
      if f.x + f.w > w || f.y + f.h > h {
        return;
      }
      var colors;
      ok, colors, pos := ChooseTable(input, pos0, lflags);
      if !ok {
        return;
      }
      ghost var data, canvas := pos, out[..];
      ok, pos := PaintFrame(f, colors, input, pos);
      if !ok {
        return;
      }
      ghost var indices := Indices(input, data).indices;
      ghost var transp := if eflags % 2 == 1 then transparent else -1;
      PaintedFrame(canvas, out[..], f, colors, indices, input, pos0 + 9, lflags, transp);
      FinishFrame(firstFrame, canvas, f, indices, input, pos0 + 9, lflags, transp, colors);
    }

    /** Gives the rest of a first frame the background colour, if there is one. */
    method FinishFrame(firstFrame: bool, ghost canvas: seq<Quad>, ghost f: Frame, ghost indices: seq<nat>,
                       ghost input: seq<byte>, ghost at: nat, ghost lflags: byte, ghost transp: int,
                       ghost colors: seq<Quad>)
      requires Allocated() && |canvas| == out.Length && (lflags < 128 ==> colors == pal[..])
      requires forall n :: 0 <= n < |Visits(f)| ==> Visits(f)[n] < |canvas|
      requires FrameShown(canvas, out[..], f, indices, input, at, lflags, transp, colors)
      requires OthersLeft(canvas, out[..], Visits(f), |indices|, None)
      requires Marked(seq(history.Length, _ => 0), history[..], Visits(f), |indices|)
      modifies out, pal
      ensures FrameShown(canvas, out[..], f, indices, input, at, lflags, transp, old(pal[..]))
      ensures OthersLeft(canvas, out[..], Visits(f), |indices|,
                         if firstFrame && bgindex > 0 then Some(old(pal[bgindex])) else None)
    {
      hide Marked, FrameShown, OthersLeft, Visits, Line;
      ghost var global, color, mid := pal[..], pal[bgindex], out[..];
      SameGlobal(canvas, mid, f, indices, input, at, lflags, transp, colors, global);
      if firstFrame && bgindex > 0 {
        FillBackground();
        FilledFrame(canvas, mid, out[..], history[..], f, indices, input, at, lflags, transp, global, color);
      }
    }
  }
}
