/** Image descriptors and colour tables of a GIF file, and the colours that pixels are given. */
module GifColors {
  import opened Wrappers
  import opened Bits
  import opened BitStream
  import opened GifPlacement

  /** stbi__get16le: low byte first. */
  function Word16(input: seq<byte>, pos: nat): nat
  {
    ByteAt(input, pos) as int + 256 * ByteAt(input, pos + 1)
  }

  /** The frame that an image descriptor (section 20 of GIF89a) describes. */
  function FrameAt(input: seq<byte>, pos: nat, width: nat, height: nat): Frame
  {
    Frame(Word16(input, pos), Word16(input, pos + 2), Word16(input, pos + 4), Word16(input, pos + 6), width, height,
          ByteAt(input, pos + 8) / 64 % 2 == 1)
  }

  /** The number of colours of a table: 2 << (flags & 7). */
  function ColorCount(flags: nat): (r: nat)
    ensures 2 <= r <= 256
  {
    Pow2Values();
    Pow2Monotone(flags % 8, 7);
    2 * Pow2(flags % 8)
  }

  // ---- tables ----

  /** The table holds the colours at `at` in the file, blue first, each of them opaque or not. */
  predicate Reversed(table: seq<Quad>, input: seq<byte>, at: nat, count: nat)
  {
    && |table| == 256 && count <= 256
    && forall i :: 0 <= i < count ==>
      && table[i].c2 == ByteAt(input, at + 3 * i) && table[i].c1 == ByteAt(input, at + 3 * i + 1)
      && table[i].c0 == ByteAt(input, at + 3 * i + 2) && (table[i].c3 == 0 || table[i].c3 == 255)
  }

  /** Of the first colours exactly this one is transparent. */
  predicate OnlyHidden(table: seq<Quad>, count: nat, transp: int)
  {
    |table| == 256 && count <= 256 && forall i :: 0 <= i < count ==> table[i].c3 == if i == transp then 0 else 255
  }

  function Hidden(table: seq<Quad>): set<int>
  {
    set i | 0 <= i < |table| && table[i].c3 != 255
  }

  /** Reading on behind k bytes is reading k bytes further on. */
  lemma Further(input: seq<byte>, pos: nat, k: nat, i: nat)
    requires pos <= |input|
    ensures ByteAt(input, Skip(input, pos, k) + i) == ByteAt(input, pos + k + i)
    ensures Next(input, Skip(input, pos, k)) == Skip(input, pos, k + 1) <= |input|
    ensures Skip(input, Skip(input, pos, k), i) == Skip(input, pos, k + i) <= |input|
  {
  }

  /** stbi__get8, three times, and the opacity. */
  method ReadColor(input: seq<byte>, pos0: nat, opacity: int) returns (color: Quad, pos: nat)
    requires pos0 <= |input|
    ensures color == Quad(ByteAt(input, pos0 + 2), ByteAt(input, pos0 + 1), ByteAt(input, pos0), opacity)
    ensures pos == Skip(input, pos0, 3)
  {
    var red := ByteAt(input, pos0);
    pos := Next(input, pos0);
    var green := ByteAt(input, pos);
    pos := Next(input, pos);
    var blue := ByteAt(input, pos);
    pos := Next(input, pos);
    color := Quad(blue, green, red, opacity);
  }

  /** stbi__gif_parse_colortable. */
  method ParseColorTable(input: seq<byte>, pos0: nat, table: array<Quad>, count: nat, transp: int) returns (pos: nat)
    requires table.Length == 256 && count <= 256 && pos0 <= |input|
    modifies table
    ensures Reversed(table[..], input, pos0, count) && OnlyHidden(table[..], count, transp)
    ensures forall i :: count <= i < 256 ==> table[i] == old(table[i])
    ensures pos == Skip(input, pos0, 3 * count)
  {
    hide ByteAt, Skip, Next;
    pos := pos0;
    assert pos == Skip(input, pos0, 0) by {
      NothingSkipped(input, pos0);
    }
    for i := 0 to count
      invariant pos == Skip(input, pos0, 3 * i) && pos <= |input|
      invariant Reversed(table[..], input, pos0, i) && OnlyHidden(table[..], i, transp)
      invariant forall j :: i <= j < 256 ==> table[j] == old(table[j])
    {
      Further(input, pos0, 3 * i, 0);
      Further(input, pos0, 3 * i, 1);
      Further(input, pos0, 3 * i, 2);
      Further(input, pos0, 3 * i, 3);
      table[i], pos := ReadColor(input, pos, if transp == i then 0 else 255);
    }
  }

  lemma SkipEnds(input: seq<byte>, pos: nat, k: nat)
    ensures Skip(input, pos, k) <= |input|
  {
  }

  lemma FurtherTable(input: seq<byte>, pos: nat, k: nat, count: nat)
    requires pos <= |input|
    ensures Skip(input, Skip(input, pos, k), 3 * count) == Skip(input, pos, k + 3 * count) <= |input|
  {
    Further(input, pos, k, 3 * count);
  }

  lemma ReversedFurther(table: seq<Quad>, input: seq<byte>, pos: nat, k: nat, count: nat)
    requires pos <= |input| && Reversed(table, input, Skip(input, pos, k), count)
    ensures Reversed(table, input, pos + k, count)
  {
    hide ByteAt, Skip, Next;
    forall i | 0 <= i < count
      ensures ByteAt(input, Skip(input, pos, k) + 3 * i) == ByteAt(input, pos + k + 3 * i)
      ensures ByteAt(input, Skip(input, pos, k) + 3 * i + 1) == ByteAt(input, pos + k + 3 * i + 1)
      ensures ByteAt(input, Skip(input, pos, k) + 3 * i + 2) == ByteAt(input, pos + k + 3 * i + 2)
    {
      Further(input, pos, k, 3 * i);
      Further(input, pos, k, 3 * i + 1);
      Further(input, pos, k, 3 * i + 2);
    }
  }

  lemma NothingSkipped(input: seq<byte>, pos: nat)
    requires pos <= |input|
    ensures Skip(input, pos, 0) == pos
  {
  }

  // ---- pixels ----

  /** The pixel has red, green and blue as they stand at `at` in the file, and is opaque. */
  predicate IsColor(p: Quad, input: seq<byte>, at: nat)
  {
    p == Quad(ByteAt(input, at), ByteAt(input, at + 1), ByteAt(input, at + 2), 255)
  }

  /** The n-th visited pixel has the colour with the n-th index of the table at `at`, or stays as it was if that colour
      is transparent. */
  ghost predicate Shown(before: seq<Quad>, after: seq<Quad>, visits: seq<nat>, indices: seq<nat>, input: seq<byte>,
                        at: nat, count: nat, hidden: set<int>)
  {
    && |after| == |before|
    && forall n :: 0 <= n < |visits| && n < |indices| && indices[n] < count ==>
      && visits[n] < |after|
      && if indices[n] in hidden then after[visits[n]] == before[visits[n]]
         else IsColor(after[visits[n]], input, at + 3 * indices[n])
  }

  lemma PaintedIsShown(before: seq<Quad>, after: seq<Quad>, visits: seq<nat>, colors: seq<Quad>, indices: seq<nat>,
                       input: seq<byte>, at: nat, count: nat)
    requires Reversed(colors, input, at, count)
    requires forall n :: 0 <= n < |indices| ==> indices[n] < 256
    requires forall n :: 0 <= n < |visits| ==> visits[n] < |before|
    requires Painted(before, after, visits, colors, indices)
    ensures Shown(before, after, visits, indices, input, at, count, Hidden(colors))
  {
    hide ByteAt;
  }

  /** Only the colours in the table count. */
  lemma HiddenOne(before: seq<Quad>, after: seq<Quad>, visits: seq<nat>, table: seq<Quad>, indices: seq<nat>,
                  input: seq<byte>, at: nat, count: nat, transp: int)
    requires OnlyHidden(table, count, transp)
    requires Shown(before, after, visits, indices, input, at, count, Hidden(table))
    ensures Shown(before, after, visits, indices, input, at, count, {transp})
  {
    hide IsColor;
  }

  /** With a local table, the colours of that; otherwise those of the global table, wherever in the file it stands. */
  ghost predicate FrameShown(before: seq<Quad>, after: seq<Quad>, f: Frame, indices: seq<nat>, input: seq<byte>,
                             at: nat, lflags: byte, transp: int, global: seq<Quad>)
  {
    if lflags >= 128 then Shown(before, after, Visits(f), indices, input, at, ColorCount(lflags), {transp})
    else forall g: nat, count: nat :: Reversed(global, input, g, count) ==>
      Shown(before, after, Visits(f), indices, input, g, count, Hidden(global))
  }

  /** The pixels that none of the first n indices belongs to are as they were, or have the background colour. */
  ghost predicate OthersLeft(before: seq<Quad>, after: seq<Quad>, visits: seq<nat>, n: nat, background: Option<Quad>)
  {
    && |after| == |before|
    && forall i :: 0 <= i < |before| && (forall k :: 0 <= k < |visits| && k < n ==> visits[k] != i) ==>
      after[i] == match background case None => before[i] case Some(c) => Quad(c.c0, c.c1, c.c2, 255)
  }

  lemma PaintedFrame(before: seq<Quad>, after: seq<Quad>, f: Frame, colors: seq<Quad>, indices: seq<nat>,
                     input: seq<byte>, at: nat, lflags: byte, transp: int)
    requires |colors| == 256 && forall n :: 0 <= n < |indices| ==> indices[n] < 256
    requires forall n :: 0 <= n < |Visits(f)| ==> Visits(f)[n] < |before|
    requires Painted(before, after, Visits(f), colors, indices)
    requires lflags >= 128 ==>
      Reversed(colors, input, at, ColorCount(lflags)) && OnlyHidden(colors, ColorCount(lflags), transp)
    ensures FrameShown(before, after, f, indices, input, at, lflags, transp, colors)
    ensures OthersLeft(before, after, Visits(f), |indices|, None)
  {
    hide Visits, Shown, Reversed, OnlyHidden, ColorCount, Hidden;
    if lflags >= 128 {
      PaintedIsShown(before, after, Visits(f), colors, indices, input, at, ColorCount(lflags));
      HiddenOne(before, after, Visits(f), colors, indices, input, at, ColorCount(lflags), transp);
    } else {
      forall g: nat, count: nat | Reversed(colors, input, g, count)
        ensures Shown(before, after, Visits(f), indices, input, g, count, Hidden(colors))
      {
        PaintedIsShown(before, after, Visits(f), colors, indices, input, g, count);
      }
    }
  }

  /** Filling the background leaves the pixels of the frame alone. */
  lemma FilledFrame(before: seq<Quad>, mid: seq<Quad>, after: seq<Quad>, marks: seq<int>, f: Frame, indices: seq<nat>,
                    input: seq<byte>, at: nat, lflags: byte, transp: int, global: seq<Quad>, color: Quad)
    requires FrameShown(before, mid, f, indices, input, at, lflags, transp, global)
    requires |before| == |mid| == |after| == |marks|
    requires forall n :: 0 <= n < |Visits(f)| ==> Visits(f)[n] < |before|
    requires Marked(seq(|marks|, _ => 0), marks, Visits(f), |indices|)
    requires forall i :: 0 <= i < |after| ==> after[i] == if marks[i] == 0 then color.(c3 := 255) else mid[i]
    ensures FrameShown(before, after, f, indices, input, at, lflags, transp, global)
    ensures OthersLeft(before, after, Visits(f), |indices|, Some(color))
  {
    hide Visits, Reversed, ColorCount, Hidden, IsColor;
  }

  /** With a local table the global one plays no part. */
  lemma SameGlobal(before: seq<Quad>, after: seq<Quad>, f: Frame, indices: seq<nat>, input: seq<byte>, at: nat,
                   lflags: byte, transp: int, colors: seq<Quad>, global: seq<Quad>)
    requires FrameShown(before, after, f, indices, input, at, lflags, transp, colors)
    requires lflags < 128 ==> colors == global
    ensures FrameShown(before, after, f, indices, input, at, lflags, transp, global)
  {
    hide Shown, Reversed;
  }
}
