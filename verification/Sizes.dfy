/** The size computations that stb_image checks before it allocates: none of them overflows an int. */
module Sizes {

  const INT_MAX: int := 0x7FFF_FFFF

  /** stbi__addsizes_valid. */
  function AddSizesValid(a: int, b: int): bool
  {
    if b < 0 then false else a <= INT_MAX - b
  }

  /** stbi__mul2sizes_valid. */
  function Mul2SizesValid(a: int, b: int): bool
  {
    if a < 0 || b < 0 then false
    else if b == 0 then true
    else a <= INT_MAX / b
  }

  /** stbi__mad2sizes_valid. */
  function Mad2SizesValid(a: int, b: int, add: int): bool
  {
    Mul2SizesValid(a, b) && AddSizesValid(a * b, add)
  }

  /** stbi__mad3sizes_valid. */
  function Mad3SizesValid(a: int, b: int, c: int, add: int): bool
  {
    Mul2SizesValid(a, b) && Mul2SizesValid(a * b, c) && AddSizesValid(a * b * c, add)
  }

  lemma {:induction false} QuotientBounds(a: nat, b: nat, m: nat)
    requires 0 < b
    ensures a <= m / b <==> a * b <= m
  {
    var q := m / b;
    assert q * b <= m < (q + 1) * b;
    if a <= q {
      assert a * b <= q * b;
    } else {
      assert a * b >= (q + 1) * b;
    }
  }

  /** The division never computes the product, and yet is true exactly when it is an int. */
  lemma Mul2SizesValidIff(a: int, b: int)
    ensures Mul2SizesValid(a, b) <==> 0 <= a && 0 <= b && a * b <= INT_MAX
  {
    if 0 <= a && 0 < b {
      QuotientBounds(a, b, INT_MAX);
    }
  }

  lemma Mad2SizesValidIff(a: int, b: int, add: int)
    ensures Mad2SizesValid(a, b, add) <==> 0 <= a && 0 <= b && 0 <= add && a * b + add <= INT_MAX
  {
    Mul2SizesValidIff(a, b);
  }

  lemma Mad3SizesValidIff(a: int, b: int, c: int, add: int)
    ensures Mad3SizesValid(a, b, c, add) <==>
            0 <= a && 0 <= b && 0 <= c && 0 <= add && a * b <= INT_MAX && a * b * c + add <= INT_MAX
  {
    Mul2SizesValidIff(a, b);
    Mul2SizesValidIff(a * b, c);
    if 0 <= a && 0 <= b {
      assert 0 <= a * b;
    }
  }
}
