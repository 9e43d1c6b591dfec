/**
  Generic bitfield access on register values: the BITFIELD_READ and
  BITFIELD_WRITE operations that every PMU register access goes through.

  A register value is a natural number below 2^Width. Its bits, least
  significant first, are ToBits(v); a field is the run of `width` bits
  starting at bit `shift`. Extract reads that run back as a number;
  Insert replaces it with the low `width` bits of a new value and keeps
  every other bit. Every lemma holds for arbitrary field positions.
*/
module Bitfield {

  /** Registers reached through BITFIELD_READ and BITFIELD_WRITE are 32 bits wide. */
  const Width: nat := 32

  function Pow2(n: nat): (r: nat)
    ensures r >= 1
  {
    if n == 0 then 1 else 2 * Pow2(n - 1)
  }

  lemma {:induction false} Pow2Add(a: nat, b: nat)
    ensures Pow2(a + b) == Pow2(a) * Pow2(b)
  {
    if a > 0 {
      Pow2Add(a - 1, b);
    }
  }

  lemma Pow2Of16()
    ensures Pow2(16) == 0x1_0000
  {
    assert Pow2(4) == 16;
    Pow2Add(4, 4);
    Pow2Add(8, 8);
  }

  /** The bounds of the 32-bit and 64-bit unsigned types. */
  lemma Pow2Values()
    ensures Pow2(32) == 0x1_0000_0000
    ensures Pow2(64) == 0x1_0000_0000_0000_0000
  {
    Pow2Of16();
    Pow2Add(16, 16);
    Pow2Add(32, 32);
  }

  /** The low `n` bits of `v`, least significant first. */
  function ToBits(v: nat, n: nat): (b: seq<bool>)
    ensures |b| == n
  {
    if n == 0 then [] else [v % 2 == 1] + ToBits(v / 2, n - 1)
  }

  /** The number whose bits, least significant first, are `b`. */
  function FromBits(b: seq<bool>): (v: nat)
    ensures v < Pow2(|b|)
  {
    if |b| == 0 then 0 else (if b[0] then 1 else 0) + 2 * FromBits(b[1..])
  }

  /** Reading the bits of a value that fits in `n` bits gives the value back. */
  lemma {:induction false} FromToBits(v: nat, n: nat)
    requires v < Pow2(n)
    ensures FromBits(ToBits(v, n)) == v
  {
    if n > 0 {
      FromToBits(v / 2, n - 1);
      assert ToBits(v, n)[1..] == ToBits(v / 2, n - 1);
    }
  }

  /** Writing out the bits of the number a bit sequence denotes gives the sequence back. */
  lemma {:induction false} ToFromBits(b: seq<bool>)
    ensures ToBits(FromBits(b), |b|) == b
  {
    if |b| > 0 {
      ToFromBits(b[1..]);
      var v := FromBits(b);
      assert v % 2 == (if b[0] then 1 else 0) && v / 2 == FromBits(b[1..]);
      assert ToBits(v, |b|) == [b[0]] + b[1..];
    }
  }

  /** Zero has no bit set. */
  lemma {:induction false} ToBitsZero(n: nat, i: nat)
    requires i < n
    ensures !ToBits(0, n)[i]
  {
    if i > 0 {
      ToBitsZero(n - 1, i - 1);
    }
  }

  /** 2^k has exactly bit k set (the value of `1 << k`). */
  lemma {:induction false} Pow2Bits(k: nat, n: nat, i: nat)
    requires k < n && i < n
    ensures ToBits(Pow2(k), n)[i] == (i == k)
  {
    if k == 0 {
      if i > 0 {
        ToBitsZero(n - 1, i - 1);
      }
    } else if i > 0 {
      assert Pow2(k) / 2 == Pow2(k - 1);
      Pow2Bits(k - 1, n - 1, i - 1);
    }
  }

  /** Bitwise OR of two `n`-bit values. */
  function Or(a: nat, b: nat, n: nat): (r: nat)
    ensures r < Pow2(n)
  {
    FromBits(seq(n, i requires 0 <= i < n => ToBits(a, n)[i] || ToBits(b, n)[i]))
  }

  /** Each bit of an OR is set exactly when it is set in either operand. */
  lemma OrBits(a: nat, b: nat, n: nat, i: nat)
    requires i < n
    ensures ToBits(Or(a, b, n), n)[i] == (ToBits(a, n)[i] || ToBits(b, n)[i])
  {
    ToFromBits(seq(n, j requires 0 <= j < n => ToBits(a, n)[j] || ToBits(b, n)[j]));
  }

  /** A field of a register: `width` bits starting at bit `shift`. */
  datatype Field = Field(shift: nat, width: nat) {
    /** The field is non-empty and lies inside the register. */
    predicate Valid() {
      1 <= width && shift + width <= Width
    }

    /** One and only one field bit is bit `i`. */
    predicate Covers(i: nat) {
      shift <= i < shift + width
    }
  }

  /** Two fields that share no bit. */
  predicate Disjoint(f: Field, g: Field)
  {
    f.shift + f.width <= g.shift || g.shift + g.width <= f.shift
  }

  /** BITFIELD_READ: the value of the field's bits, shifted down to bit 0. */
  function Extract(v: nat, f: Field): (r: nat)
    requires f.Valid()
    ensures r < Pow2(f.width)
  {
    FromBits(ToBits(v, Width)[f.shift .. f.shift + f.width])
  }

  /** BITFIELD_WRITE: `v` with the field's bits replaced by the low bits of `x`. */
  function Insert(v: nat, f: Field, x: nat): (r: nat)
    requires f.Valid()
    ensures r < Pow2(Width)
  {
    var b := ToBits(v, Width);
    FromBits(b[..f.shift] + ToBits(x, f.width) + b[f.shift + f.width..])
  }

  /** The bits of a written register: the new value inside the field, the old bits outside. */
  lemma InsertBits(v: nat, f: Field, x: nat)
    requires f.Valid()
    ensures forall i :: 0 <= i < Width && !f.Covers(i) ==>
      ToBits(Insert(v, f, x), Width)[i] == ToBits(v, Width)[i]
    ensures forall i :: 0 <= i < Width && f.Covers(i) ==>
      ToBits(Insert(v, f, x), Width)[i] == ToBits(x, f.width)[i - f.shift]
  {
    var b := ToBits(v, Width);
    ToFromBits(b[..f.shift] + ToBits(x, f.width) + b[f.shift + f.width..]);
  }

  /** Reading a field back after writing a value that fits gives that value. */
  lemma ExtractInsertSame(v: nat, f: Field, x: nat)
    requires f.Valid() && x < Pow2(f.width)
    ensures Extract(Insert(v, f, x), f) == x
  {
    var b := ToBits(v, Width);
    var s := b[..f.shift] + ToBits(x, f.width) + b[f.shift + f.width..];
    ToFromBits(s);
    assert s[f.shift .. f.shift + f.width] == ToBits(x, f.width);
    FromToBits(x, f.width);
  }

  /** Writing a field leaves every register bit outside it unchanged. */
  lemma InsertOutside(v: nat, f: Field, x: nat, i: nat)
    requires f.Valid() && i < Width && !f.Covers(i)
    ensures ToBits(Insert(v, f, x), Width)[i] == ToBits(v, Width)[i]
  {
    InsertBits(v, f, x);
  }

  /** Writing one field does not change any field disjoint from it. */
  lemma ExtractInsertOther(v: nat, f: Field, g: Field, x: nat)
    requires f.Valid() && g.Valid() && Disjoint(f, g)
    ensures Extract(Insert(v, f, x), g) == Extract(v, g)
  {
    InsertBits(v, f, x);
    var w := ToBits(Insert(v, f, x), Width);
    var b := ToBits(v, Width);
    assert w[g.shift .. g.shift + g.width] == b[g.shift .. g.shift + g.width];
  }

  /** Writing back, into a 32-bit register, the value just read from a field changes nothing. */
  lemma InsertExtract(v: nat, f: Field)
    requires f.Valid() && v < Pow2(Width)
    ensures Insert(v, f, Extract(v, f)) == v
  {
    var b := ToBits(v, Width);
    var field := b[f.shift .. f.shift + f.width];
    ToFromBits(field);
    assert b[..f.shift] + field + b[f.shift + f.width..] == b;
    FromToBits(v, Width);
  }

  /** The second of two writes to the same field wins. */
  lemma InsertInsert(v: nat, f: Field, x: nat, y: nat)
    requires f.Valid()
    ensures Insert(Insert(v, f, x), f, y) == Insert(v, f, y)
  {
    InsertBits(v, f, x);
    var b := ToBits(v, Width);
    var w := ToBits(Insert(v, f, x), Width);
    assert w[..f.shift] == b[..f.shift];
    assert w[f.shift + f.width..] == b[f.shift + f.width..];
  }
}
