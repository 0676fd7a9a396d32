/** The zigzag order of figure 5 of ITU-T T.81, and that the decoder's table follows it. */
module JpegZigzag {
  import opened JpegAc

  /** Figure 5: the number of the coefficient in each row and column. */
  const FIGURE5: seq<seq<nat>> := [
    [ 0,  1,  5,  6, 14, 15, 27, 28],
    [ 2,  4,  7, 13, 16, 26, 29, 42],
    [ 3,  8, 12, 17, 25, 30, 41, 43],
    [ 9, 11, 18, 24, 31, 40, 44, 53],
    [10, 19, 23, 32, 39, 45, 52, 54],
    [20, 22, 33, 38, 46, 51, 55, 60],
    [21, 34, 37, 47, 50, 56, 59, 61],
    [35, 36, 48, 49, 57, 58, 62, 63]]

  function Figure5(r: nat, c: nat): (k: nat)
    requires r < 8 && c < 8
    ensures k < 64
  {
    FIGURE5[r][c]
  }

  /** The path through the figure: along the diagonals, up and to the right where row and column add up to an even
      number, down and to the left otherwise, and along the border where the path meets it. */
  function Onward(r: nat, c: nat): (nat, nat)
    requires r < 8 && c < 8
  {
    if (r + c) % 2 == 0 then
      if c == 7 then (r + 1, c) else if r == 0 then (r, c + 1) else (r - 1, c + 1)
    else
      if r == 7 then (r, c + 1) else if c == 0 then (r + 1, c) else (r + 1, c - 1)
  }

  lemma TableRow(i: nat, j: nat)
    requires i < 8 && j < 8
    ensures var z := Dezigzag(8 * i + j); z < 64 && Figure5(z / 8, z % 8) == 8 * i + j
  {
    if i < 4 {
      UpperTable(i, j);
    } else {
      LowerTable(i, j);
    }
  }

  lemma UpperTable(i: nat, j: nat)
    requires i < 4 && j < 8
    ensures var z := Dezigzag(8 * i + j); z < 64 && Figure5(z / 8, z % 8) == 8 * i + j
  {
    if i == 0 {} else if i == 1 {} else if i == 2 {} else {}
  }

  lemma LowerTable(i: nat, j: nat)
    requires 4 <= i < 8 && j < 8
    ensures var z := Dezigzag(8 * i + j); z < 64 && Figure5(z / 8, z % 8) == 8 * i + j
  {
    if i == 4 {} else if i == 5 {} else if i == 6 {} else {}
  }

  lemma UpperFigure(r: nat, c: nat)
    requires r < 4 && c < 8
    ensures Figure5(r, c) < 64 && Dezigzag(Figure5(r, c)) == 8 * r + c
  {
    if r == 0 {} else if r == 1 {} else if r == 2 {} else {}
  }

  lemma LowerFigure(r: nat, c: nat)
    requires 4 <= r < 8 && c < 8
    ensures Figure5(r, c) < 64 && Dezigzag(Figure5(r, c)) == 8 * r + c
  {
    if r == 4 {} else if r == 5 {} else if r == 6 {} else {}
  }

  /** The table puts coefficient number Figure5(r, c) into row r and column c. */
  lemma FigureRow(r: nat, c: nat)
    requires r < 8 && c < 8
    ensures Figure5(r, c) < 64 && Dezigzag(Figure5(r, c)) == 8 * r + c
  {
    if r < 4 {
      UpperFigure(r, c);
    } else {
      LowerFigure(r, c);
    }
  }

  /** The figure is filled along the path. */
  lemma PathIsFigure(r: nat, c: nat)
    requires r < 8 && c < 8 && (r, c) != (7, 7)
    ensures Figure5(0, 0) == 0
    ensures var (r', c') := Onward(r, c); r' < 8 && c' < 8 && Figure5(r', c') == Figure5(r, c) + 1
  {
    if r < 4 {
      UpperPath(r, c);
    } else {
      LowerPath(r, c);
    }
  }

  lemma UpperPath(r: nat, c: nat)
    requires r < 4 && c < 8
    ensures var (r', c') := Onward(r, c); r' < 8 && c' < 8 && Figure5(r', c') == Figure5(r, c) + 1
  {
    if r == 0 {} else if r == 1 {} else if r == 2 {} else {}
  }

  lemma LowerPath(r: nat, c: nat)
    requires 4 <= r < 8 && c < 8 && (r, c) != (7, 7)
    ensures var (r', c') := Onward(r, c); r' < 8 && c' < 8 && Figure5(r', c') == Figure5(r, c) + 1
  {
    if r == 4 {} else if r == 5 {} else if r == 6 {} else {}
  }

  /** The decoder's table is the order of figure 5, a permutation: coefficient k goes to row z / 8 and column z % 8
      where the figure has k, each place is reached by exactly one k, and the next coefficient goes one step along the
      path. A position past the end stands for the last place. */
  lemma ZigzagOrder(k: nat)
    requires k < 79
    ensures k < 64 ==> Dezigzag(k) < 64 && Figure5(Dezigzag(k) / 8, Dezigzag(k) % 8) == k
    ensures k >= 64 ==> Dezigzag(k) == 63
    ensures forall l: nat :: k < 64 && l < 64 && Dezigzag(l) == Dezigzag(k) ==> l == k
    ensures Dezigzag(0) == 0 && Dezigzag(1) == 1 && Dezigzag(2) == 8
    ensures k < 63 ==> var (r, c) := Onward(Dezigzag(k) / 8, Dezigzag(k) % 8); Dezigzag(k + 1) == 8 * r + c
  {
    hide Dezigzag, Figure5, Onward;
    FirstPlaces();
    PastTheEnd(k);
    if k < 64 {
      TableRow(k / 8, k % 8);
      forall l: nat | l < 64 && Dezigzag(l) == Dezigzag(k)
        ensures l == k
      {
        OnePlace(k, l);
      }
      if k < 63 {
        NextPlace(k);
      }
    }
  }

  lemma OnePlace(k: nat, l: nat)
    requires k < 64 && l < 64 && Dezigzag(l) == Dezigzag(k)
    ensures l == k
  {
    hide Dezigzag, Figure5;
    TableRow(k / 8, k % 8);
    TableRow(l / 8, l % 8);
  }

  lemma FirstPlaces()
    ensures Dezigzag(0) == 0 && Dezigzag(1) == 1 && Dezigzag(2) == 8
  {
  }

  lemma PastTheEnd(k: nat)
    requires k < 79
    ensures k >= 64 ==> Dezigzag(k) == 63
  {
    if k >= 72 {} else if k >= 64 {}
  }

  lemma NextPlace(k: nat)
    requires k < 63
    ensures var (r, c) := Onward(Dezigzag(k) / 8, Dezigzag(k) % 8); Dezigzag(k + 1) == 8 * r + c
  {
    hide Dezigzag, Figure5, Onward;
    var z := Dezigzag(k);
    TableRow(k / 8, k % 8);
    LastPlace();
    PathIsFigure(z / 8, z % 8);
    FigureRow(Onward(z / 8, z % 8).0, Onward(z / 8, z % 8).1);
  }

  lemma LastPlace()
    ensures Figure5(7, 7) == 63
  {
  }
}
