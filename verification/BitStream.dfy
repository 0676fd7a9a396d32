/** A byte sequence read as bits, least significant bit of each byte first, and followed by zero bits
    without end (section 3.1.1 of RFC 1951; the zeros are what stbi__zget8 returns past the end). */
module BitStream {
  import opened Bits

  function ByteAt(input: seq<byte>, k: nat): byte
  {
    if k < |input| then input[k] else 0
  }

  /** Where reading goes on after the byte at pos; stbi__get8 never passes the end. */
  function Next(input: seq<byte>, pos: nat): nat
  {
    if pos < |input| then pos + 1 else pos
  }

  /** stbi__skip. */
  function Skip(input: seq<byte>, pos: nat, n: nat): nat
  {
    if pos + n < |input| then pos + n else |input|
  }

  function Bit(input: seq<byte>, p: nat): nat
  {
    BitOf(ByteAt(input, p / 8), p % 8)
  }

  /** The n-bit number at position p, packed starting with its least significant bit. */
  function Field(input: seq<byte>, p: nat, n: nat): nat
    decreases n, p, input
  {
    if n == 0 then 0 else Bit(input, p) + 2 * Field(input, p + 1, n - 1)
  }

  /** The n bits at position p as a Huffman code, packed starting with its most significant bit. */
  function CodeAt(input: seq<byte>, p: nat, n: nat): nat
  {
    if n == 0 then 0 else 2 * CodeAt(input, p, n - 1) + Bit(input, p + n - 1)
  }

  lemma {:induction false} FieldBound(input: seq<byte>, p: nat, n: nat)
    ensures Field(input, p, n) < Pow2(n)
    decreases n
  {
    if n > 0 {
      FieldBound(input, p + 1, n - 1);
    }
  }

  lemma {:induction false} FieldShr(input: seq<byte>, p: nat, n: nat, k: nat)
    requires k <= n
    ensures Shr(Field(input, p, n), k) == Field(input, p + k, n - k)
    decreases n
  {
    if k > 0 {
      assert Field(input, p, n) / 2 == Field(input, p + 1, n - 1);
      FieldShr(input, p + 1, n - 1, k - 1);
    }
  }

  lemma {:induction false} FieldLow(input: seq<byte>, p: nat, n: nat, k: nat)
    requires k <= n
    ensures Low(Field(input, p, n), k) == Field(input, p, k)
    decreases n
  {
    if k > 0 {
      FieldLow(input, p + 1, n - 1, k - 1);
    }
  }

  lemma {:induction false} FieldSplit(input: seq<byte>, p: nat, m: nat, n: nat)
    ensures Field(input, p, m + n) == Field(input, p, m) + Shl(Field(input, p + m, n), m)
    decreases m
  {
    if m > 0 {
      FieldSplit(input, p + 1, m - 1, n);
    }
  }

  lemma {:induction false} FieldOfByte(input: seq<byte>, k: nat, i: nat, n: nat)
    requires i + n == 8
    ensures Field(input, 8 * k + i, n) == Shr(ByteAt(input, k), i)
    decreases n
  {
    if n == 0 {
      Pow2Values();
      ShrInterval(ByteAt(input, k), 8, 0);
      ShlIsPow2(8);
    } else {
      FieldOfByte(input, k, i + 1, n - 1);
      ShrShr(ByteAt(input, k), i, 1);
      assert (8 * k + i) / 8 == k && (8 * k + i) % 8 == i;
    }
  }

  /** Eight aligned bits are a byte. */
  lemma ByteIsField(input: seq<byte>, k: nat)
    ensures Field(input, 8 * k, 8) == ByteAt(input, k)
  {
    FieldOfByte(input, k, 0, 8);
  }

  lemma {:induction false} FieldPastEnd(input: seq<byte>, p: nat, n: nat)
    requires 8 * |input| <= p
    ensures Field(input, p, n) == 0
    decreases n
  {
    if n > 0 {
      BitOfZero(p % 8);
      FieldPastEnd(input, p + 1, n - 1);
    }
  }

  lemma {:induction false} CodeAtHead(input: seq<byte>, p: nat, n: nat)
    requires n > 0
    ensures CodeAt(input, p, n) == Shl(Bit(input, p), n - 1) + CodeAt(input, p + 1, n - 1)
  {
    if n > 1 {
      CodeAtHead(input, p, n - 1);
    }
  }

  lemma {:induction false} CodeAtBound(input: seq<byte>, p: nat, n: nat)
    ensures CodeAt(input, p, n) < Pow2(n)
  {
    if n > 0 {
      CodeAtBound(input, p, n - 1);
    }
  }

  lemma {:induction false} CodeAtPrefix(input: seq<byte>, p: nat, n: nat, k: nat)
    requires k <= n
    ensures Shr(CodeAt(input, p, n), n - k) == CodeAt(input, p, k)
  {
    if k < n {
      assert CodeAt(input, p, n) / 2 == CodeAt(input, p, n - 1);
      CodeAtPrefix(input, p, n - 1, k);
    }
  }

  /** Reversing a field gives the code made of the same bits. */
  lemma {:induction false} RevField(input: seq<byte>, p: nat, n: nat)
    ensures Rev(Field(input, p, n), n) == CodeAt(input, p, n)
    decreases n
  {
    if n > 0 {
      assert Field(input, p, n) / 2 == Field(input, p + 1, n - 1);
      RevField(input, p + 1, n - 1);
      CodeAtHead(input, p, n);
    }
  }

  /** The bits of byte j of the input. */
  lemma BitsOfByte(input: seq<byte>, j: nat)
    ensures var x := ByteAt(input, j);
      && Bit(input, 8 * j) == x % 2 && Bit(input, 8 * j + 1) == x / 2 % 2 && Bit(input, 8 * j + 2) == x / 4 % 2
      && Bit(input, 8 * j + 3) == x / 8 % 2 && Bit(input, 8 * j + 4) == x / 16 % 2
      && Bit(input, 8 * j + 5) == x / 32 % 2 && Bit(input, 8 * j + 6) == x / 64 % 2
      && Bit(input, 8 * j + 7) == x / 128 % 2
  {
    hide BitOf;
    EightBits(ByteAt(input, j));
  }
}
