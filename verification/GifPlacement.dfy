/** Which pixels of the canvas the colour indices of a GIF frame belong to, in the order they arrive
    (appendix E of GIF89a for interlaced frames).  Positions count pixels of the canvas, row by row. */
module GifPlacement {

  /** A w x h frame at (x, y) of a canvas that is `width` pixels wide. */
  datatype Frame = Frame(x: nat, y: nat, w: nat, h: nat, width: nat, height: nat, interlaced: bool)

  predicate Fits(f: Frame)
  {
    f.x + f.w <= f.width && f.y + f.h <= f.height
  }

  // ---- rows ----

  /** How often x occurs in s. */
  function Count(s: seq<nat>, x: nat): nat
  {
    if s == [] then 0 else (if s[0] == x then 1 else 0) + Count(s[1..], x)
  }

  lemma {:induction false} CountAppend(s: seq<nat>, t: seq<nat>, x: nat)
    ensures Count(s + t, x) == Count(s, x) + Count(t, x)
  {
    if s == [] {
      assert s + t == t;
    } else {
      assert (s + t)[1..] == s[1..] + t;
      CountAppend(s[1..], t, x);
    }
  }

  lemma {:induction false} Occurs(s: seq<nat>, k: nat)
    requires k < |s|
    ensures Count(s, s[k]) >= 1
  {
    if k > 0 {
      Occurs(s[1..], k - 1);
    }
  }

  predicate Spacing(step: nat)
  {
    step == 1 || step == 2 || step == 4 || step == 8
  }

  function Rows(from: nat, step: nat, h: nat): seq<nat>
    requires Spacing(step)
    decreases if from < h then h - from else 0
  {
    if from >= h then [] else [from] + Rows(from + step, step, h)
  }

  /** The rows of the interlace passes after the current one. */
  function Later(parse: nat, h: nat): seq<nat>
  {
    if parse == 1 then Rows(1, 2, h)
    else if parse == 2 then Rows(2, 4, h) + Later(1, h)
    else if parse == 3 then Rows(4, 8, h) + Later(2, h)
    else []
  }

  /** The order in which rows arrive: every 8th row from 0, every 8th from 4, every 4th from 2, every
      2nd from 1 when interlaced. */
  function Order(h: nat, interlaced: bool): seq<nat>
  {
    if interlaced then Rows(0, 8, h) + Rows(4, 8, h) + Rows(2, 4, h) + Rows(1, 2, h) else Rows(0, 1, h)
  }

  lemma OrderIsFirstAndLater(h: nat)
    ensures Order(h, true) == Rows(0, 8, h) + Later(3, h)
    ensures Order(h, false) == Rows(0, 1, h) + Later(0, h)
  {
    assert Rows(2, 4, h) + Rows(1, 2, h) == Later(2, h);
    assert Rows(0, 8, h) + Rows(4, 8, h) + Rows(2, 4, h) + Rows(1, 2, h)
        == Rows(0, 8, h) + (Rows(4, 8, h) + (Rows(2, 4, h) + Rows(1, 2, h)));
  }

  predicate Multiple(d: int, step: nat)
    requires 0 < step
    decreases if d < 0 then 0 else d
  {
    if d <= 0 then d == 0 else Multiple(d - step, step)
  }

  lemma {:induction false} RowsCount(from: nat, step: nat, h: nat, r: nat)
    requires Spacing(step)
    ensures Count(Rows(from, step, h), r) == if r < h && Multiple(r - from, step) then 1 else 0
    decreases if from < h then h - from else 0
  {
    if from < h {
      RowsCount(from + step, step, h, r);
      if r < from + step {
        assert Multiple(r - from, step) <==> r == from;
      }
    }
  }

  /** The four passes share the rows out between them. */
  lemma {:induction false} PassesPartition(r: int)
    requires -8 <= r
    ensures (if Multiple(r, 8) then 1 else 0) + (if Multiple(r - 4, 8) then 1 else 0)
          + (if Multiple(r - 2, 4) then 1 else 0) + (if Multiple(r - 1, 2) then 1 else 0) == if r < 0 then 0 else 1
  {
    if r >= 8 {
      PassesPartition(r - 8);
      assert Multiple(r - 2, 4) == Multiple(r - 6, 4) == Multiple(r - 10, 4);
      assert Multiple(r - 1, 2) == Multiple(r - 3, 2) == Multiple(r - 5, 2) == Multiple(r - 7, 2) == Multiple(r - 9, 2);
    } else if r >= 0 {
      assert Multiple(r - 1, 2) <==> r == 1 || r == 3 || r == 5 || r == 7 by {
        assert r >= 2 ==> Multiple(r - 1, 2) == Multiple(r - 3, 2);
        assert r >= 4 ==> Multiple(r - 3, 2) == Multiple(r - 5, 2);
        assert r >= 6 ==> Multiple(r - 5, 2) == Multiple(r - 7, 2);
      }
    }
  }

  /** Every row of the frame comes exactly once. */
  lemma EachRowOnce(h: nat, interlaced: bool, r: nat)
    ensures Count(Order(h, interlaced), r) == if r < h then 1 else 0
  {
    if interlaced {
      InterlacedRowOnce(h, r);
    } else {
      RowsCount(0, 1, h, r);
      Steps1(r);
    }
  }

  lemma {:induction false} Steps1(d: nat)
    ensures Multiple(d, 1)
  {
    if d > 0 {
      Steps1(d - 1);
    }
  }

  lemma InterlacedRowOnce(h: nat, r: nat)
    ensures Count(Order(h, true), r) == if r < h then 1 else 0
  {
    RowsCount(0, 8, h, r);
    RowsCount(4, 8, h, r);
    RowsCount(2, 4, h, r);
    RowsCount(1, 2, h, r);
    PassesPartition(r);
    var a, b, c, d := Rows(0, 8, h), Rows(4, 8, h), Rows(2, 4, h), Rows(1, 2, h);
    CountAppend(a + b + c, d, r);
    CountAppend(a + b, c, r);
    CountAppend(a, b, r);
    hide Rows, Multiple, Count;
  }

  // ---- pixels ----

  /** The distance of n lines of length w. */
  function Line(n: nat, w: nat): nat
  {
    if n == 0 then 0 else Line(n - 1, w) + w
  }

  lemma {:induction false} LineAdd(m: nat, n: nat, w: nat)
    ensures Line(m + n, w) == Line(m, w) + Line(n, w)
  {
    if n > 0 {
      LineAdd(m, n - 1, w);
    }
  }

  lemma {:induction false} LineMonotone(m: nat, n: nat, w: nat)
    requires m <= n
    ensures Line(m, w) <= Line(n, w)
    ensures m < n ==> Line(m, w) + w <= Line(n, w)
  {
    if m < n {
      LineMonotone(m, n - 1, w);
    }
  }

  function Position(f: Frame, row: nat, col: nat): nat
  {
    Line(f.y + row, f.width) + f.x + col
  }

  /** The pixels of a row from the given column on. */
  function RowCells(f: Frame, row: nat, col: nat): seq<nat>
    decreases if col < f.w then f.w - col else 0
  {
    if col >= f.w then [] else [Position(f, row, col)] + RowCells(f, row, col + 1)
  }

  function Cells(f: Frame, rows: seq<nat>): seq<nat>
  {
    if rows == [] then [] else RowCells(f, rows[0], 0) + Cells(f, rows[1..])
  }

  /** The pixels of the frame in the order their indices arrive. */
  function Visits(f: Frame): seq<nat>
  {
    Cells(f, Order(f.h, f.interlaced))
  }

  lemma {:induction false} RowCellsCount(f: Frame, row: nat, col: nat, x: nat, y: nat)
    requires x < f.width && f.x + f.w <= f.width
    ensures Count(RowCells(f, row, col), Line(y, f.width) + x)
         == if y == f.y + row && f.x + col <= x < f.x + f.w then 1 else 0
    decreases if col < f.w then f.w - col else 0
  {
    if col < f.w {
      RowCellsCount(f, row, col + 1, x, y);
      if y < f.y + row {
        LineMonotone(y, f.y + row, f.width);
      } else if f.y + row < y {
        LineMonotone(f.y + row, y, f.width);
      }
    }
  }

  lemma {:induction false} CellsCount(f: Frame, rows: seq<nat>, x: nat, y: nat)
    requires x < f.width && f.x + f.w <= f.width
    ensures Count(Cells(f, rows), Line(y, f.width) + x)
         == if f.y <= y && f.x <= x < f.x + f.w then Count(rows, y - f.y) else 0
  {
    if rows != [] {
      RowCellsCount(f, rows[0], 0, x, y);
      CellsCount(f, rows[1..], x, y);
      CountAppend(RowCells(f, rows[0], 0), Cells(f, rows[1..]), Line(y, f.width) + x);
    }
  }

  /** A frame inside the canvas visits each of its pixels exactly once, and no other pixel. */
  lemma EachPixelOnce(f: Frame, x: nat, y: nat)
    requires Fits(f) && x < f.width
    ensures Count(Visits(f), Line(y, f.width) + x)
         == if f.x <= x < f.x + f.w && f.y <= y < f.y + f.h then 1 else 0
  {
    CellsCount(f, Order(f.h, f.interlaced), x, y);
    if f.y <= y {
      EachRowOnce(f.h, f.interlaced, y - f.y);
    }
  }

  lemma {:induction false} Coordinates(p: nat, width: nat) returns (x: nat, y: nat)
    requires 0 < width
    ensures x < width && p == Line(y, width) + x
  {
    if p < width {
      x, y := p, 0;
    } else {
      var y1: nat;
      x, y1 := Coordinates(p - width, width);
      y := y1 + 1;
    }
  }

  /** Visited pixels lie on the canvas and are never visited again. */
  lemma VisitsDistinct(f: Frame)
    requires Fits(f)
    ensures forall k :: 0 <= k < |Visits(f)| ==> Visits(f)[k] < Line(f.height, f.width)
    ensures forall j, k :: 0 <= j < k < |Visits(f)| ==> Visits(f)[j] != Visits(f)[k]
  {
    var v := Visits(f);
    NothingToVisit(f);
    forall k | 0 <= k < |v|
      ensures v[k] < Line(f.height, f.width) && Count(v, v[k]) == 1
    {
      assert f.width > 0;
      var x, y := Coordinates(v[k], f.width);
      EachPixelOnce(f, x, y);
      Occurs(v, k);
      LineMonotone(y, f.height, f.width);
    }
    forall j, k | 0 <= j < k < |v|
      ensures v[j] != v[k]
    {
      assert v == v[..k] + v[k..];
      CountAppend(v[..k], v[k..], v[j]);
      Occurs(v[..k], j);
      Occurs(v[k..], 0);
    }
  }

  lemma {:induction false} CellsOfNothing(f: Frame, rows: seq<nat>)
    requires f.w == 0
    ensures Cells(f, rows) == []
  {
    if rows != [] {
      CellsOfNothing(f, rows[1..]);
    }
  }

  lemma NothingToVisit(f: Frame)
    requires Fits(f)
    ensures f.w == 0 || f.h == 0 ==> Visits(f) == []
    ensures f.width == 0 ==> Visits(f) == []
  {
    if f.w == 0 {
      CellsOfNothing(f, Order(f.h, f.interlaced));
    }
  }

  // ---- how many pixels ----

  /** The number of rows of a pass, rounded up. */
  lemma {:induction false} RowsLength(from: nat, step: nat, h: nat)
    requires Spacing(step)
    ensures from < h ==> h - from <= Line(|Rows(from, step, h)|, step) < h - from + step
    ensures from >= h ==> Rows(from, step, h) == []
    decreases if from < h then h - from else 0
  {
    if from < h {
      RowsLength(from + step, step, h);
    }
  }

  lemma {:induction false} LineOf(n: nat, w: nat)
    ensures Line(n, w) == n * w
  {
    if n > 0 {
      LineOf(n - 1, w);
      assert n * w == (n - 1) * w + w;
    }
  }

  lemma OrderLength(h: nat, interlaced: bool)
    ensures |Order(h, interlaced)| == h
  {
    if interlaced {
      var a, b, c, d := |Rows(0, 8, h)|, |Rows(4, 8, h)|, |Rows(2, 4, h)|, |Rows(1, 2, h)|;
      RowsLength(0, 8, h);
      RowsLength(4, 8, h);
      RowsLength(2, 4, h);
      RowsLength(1, 2, h);
      LineOf(a, 8);
      LineOf(b, 8);
      LineOf(c, 4);
      LineOf(d, 2);
      PassLengths(h, a, b, c, d);
    } else {
      RowsLength(0, 1, h);
      LineOf(|Rows(0, 1, h)|, 1);
    }
  }

  lemma PassLengths(h: nat, a: nat, b: nat, c: nat, d: nat)
    requires if h > 0 then h <= 8 * a < h + 8 else a == 0
    requires if h > 4 then h - 4 <= 8 * b < h + 4 else b == 0
    requires if h > 2 then h - 2 <= 4 * c < h + 2 else c == 0
    requires if h > 1 then h - 1 <= 2 * d < h + 1 else d == 0
    ensures a + b + c + d == h
  {
    var q, r := h / 8, h % 8;
    assert d == h / 2 && h / 2 == 4 * q + r / 2;
    assert c == (h + 1) / 4 && (h + 1) / 4 == 2 * q + (r + 1) / 4;
    assert b == (h + 3) / 8 && (h + 3) / 8 == q + (r + 3) / 8;
    assert a == (h + 7) / 8 && (h + 7) / 8 == q + (r + 7) / 8;
    Eight(r);
  }

  lemma Eight(r: nat)
    requires r < 8
    ensures r / 2 + (r + 1) / 4 + (r + 3) / 8 + (r + 7) / 8 == r
  {
  }

  lemma {:induction false} RowCellsAll(f: Frame, row: nat, col: nat)
    ensures |RowCells(f, row, col)| == if col < f.w then f.w - col else 0
    decreases if col < f.w then f.w - col else 0
  {
    if col < f.w {
      RowCellsAll(f, row, col + 1);
    }
  }

  lemma {:induction false} CellsLength(f: Frame, rows: seq<nat>)
    ensures |Cells(f, rows)| == Line(|rows|, f.w)
  {
    if rows != [] {
      RowCellsAll(f, rows[0], 0);
      CellsLength(f, rows[1..]);
    }
  }

  /** w * h indices fill the frame. */
  lemma VisitCount(f: Frame)
    ensures |Visits(f)| == f.w * f.h
  {
    OrderLength(f.h, f.interlaced);
    CellsLength(f, Order(f.h, f.interlaced));
    LineOf(f.h, f.w);
  }

  lemma {:induction false} RowCellsLength(f: Frame, row: nat, col: nat, c: nat)
    requires col <= c < f.w
    ensures |RowCells(f, row, col)| == f.w - col && RowCells(f, row, col)[c - col] == Position(f, row, c)
    decreases f.w - col
  {
    if col < c {
      RowCellsLength(f, row, col + 1, c);
    } else if col + 1 < f.w {
      RowCellsLength(f, row, col + 1, col + 1);
    }
  }

  /** The visit number of a pixel counts whole rows of the frame and then columns. */
  lemma {:induction false} VisitNumber(f: Frame, rows: seq<nat>, k: nat, col: nat)
    requires k < |rows| && col < f.w
    ensures Line(k, f.w) + col < |Cells(f, rows)|
    ensures Cells(f, rows)[Line(k, f.w) + col] == Position(f, rows[k], col)
    decreases k
  {
    RowCellsLength(f, rows[0], 0, col);
    if k > 0 {
      VisitNumber(f, rows[1..], k - 1, col);
    }
  }

  // ---- painting ----

  /** Four bytes: blue, green, red and opacity in a colour table, red, green, blue and opacity on the canvas. */
  datatype Quad = Quad(c0: int, c1: int, c2: int, c3: int)

  /** What a pixel becomes when it is given a colour; a transparent colour leaves it alone. */
  function Over(c: Quad, p: Quad): Quad
  {
    if c.c3 > 128 then Quad(c.c2, c.c1, c.c0, c.c3) else p
  }

  /** The n-th index colours the n-th visited pixel; indices beyond the last pixel have no effect. */
  ghost predicate Painted(before: seq<Quad>, after: seq<Quad>, visits: seq<nat>, colors: seq<Quad>, indices: seq<nat>)
    requires |colors| == 256 && forall n :: 0 <= n < |indices| ==> indices[n] < 256
    requires forall n :: 0 <= n < |visits| ==> visits[n] < |before|
  {
    && |after| == |before|
    && (forall n :: 0 <= n < |visits| && n < |indices| ==>
      after[visits[n]] == Over(colors[indices[n]], before[visits[n]]))
    && (forall i :: 0 <= i < |before| && (forall n :: 0 <= n < |visits| && n < |indices| ==> visits[n] != i) ==>
      after[i] == before[i])
  }

  /** The pixels that have been visited are marked with 1. */
  ghost predicate Marked(before: seq<int>, after: seq<int>, visits: seq<nat>, count: nat)
    requires forall n :: 0 <= n < |visits| ==> visits[n] < |before|
  {
    && |after| == |before|
    && (forall n :: 0 <= n < |visits| && n < count ==> after[visits[n]] == 1)
    && (forall i :: 0 <= i < |before| && (forall n :: 0 <= n < |visits| && n < count ==> visits[n] != i) ==>
      after[i] == before[i])
  }

  lemma {:induction false} Occurrence(s: seq<nat>, x: nat) returns (k: nat)
    ensures Count(s, x) > 0 ==> k < |s| && s[k] == x
  {
    k := 0;
    if s != [] && s[0] != x {
      k := Occurrence(s[1..], x);
      k := k + 1;
    }
  }

  /** The picture after a frame: a pixel of the canvas outside the frame keeps its colour; one inside has
      a visit number of its own, and gets the colour of the index of that number if there is one. */
  lemma Picture(f: Frame, before: seq<Quad>, after: seq<Quad>, colors: seq<Quad>, indices: seq<nat>, x: nat, y: nat)
    returns (n: nat)
    requires Fits(f) && x < f.width && y < f.height && |before| == Line(f.height, f.width)
    requires |colors| == 256 && forall n :: 0 <= n < |indices| ==> indices[n] < 256
    requires forall n :: 0 <= n < |Visits(f)| ==> Visits(f)[n] < |before|
    requires Painted(before, after, Visits(f), colors, indices)
    ensures Line(y, f.width) + x < |before| == |after|
    ensures f.x <= x < f.x + f.w && f.y <= y < f.y + f.h
        ==> n < |Visits(f)| == f.w * f.h && Visits(f)[n] == Line(y, f.width) + x
    ensures f.x <= x < f.x + f.w && f.y <= y < f.y + f.h && n < |indices|
        ==> after[Line(y, f.width) + x] == Over(colors[indices[n]], before[Line(y, f.width) + x])
    ensures !(f.x <= x < f.x + f.w && f.y <= y < f.y + f.h && n < |indices|)
        ==> after[Line(y, f.width) + x] == before[Line(y, f.width) + x]
  {
    var p := Line(y, f.width) + x;
    LineMonotone(y, f.height, f.width);
    VisitCount(f);
    VisitsDistinct(f);
    EachPixelOnce(f, x, y);
    n := Occurrence(Visits(f), p);
    forall k | 0 <= k < |Visits(f)| && Visits(f)[k] == p
      ensures f.x <= x < f.x + f.w && f.y <= y < f.y + f.h && k == n
    {
      Occurs(Visits(f), k);
    }
  }
}
