/**
 32-bit words as numbers: the bitwise operators, shifts and rotations of C on
 unsigned words, and where each of them takes a bit.
 */
module Words {
  import opened LittleEndian

  type U32 = x: int | 0 <= x < 0x1_0000_0000

  function Pow2(n: nat): (p: int)
    ensures p > 0
  {
    if n == 0 then 1 else 2 * Pow2(n - 1)
  }

  lemma Pow2At()
    ensures Pow2(1) == 2 && Pow2(31) == 0x8000_0000 && Pow2(32) == 0x1_0000_0000
  {
    assert Pow2(8) == 256 && Pow2(16) == 0x1_0000 && Pow2(24) == 0x100_0000;
  }

  // Bit i of a number, the lowest is bit 0.
  predicate Bit(x: int, i: nat) {
    x / Pow2(i) % 2 == 1
  }

  // ---------------------------------------------------------------------------
  // The operators
  // ---------------------------------------------------------------------------

  datatype Gate = AndGate | OrGate | XorGate

  predicate Wire(g: Gate, p: bool, q: bool) {
    match g
    case AndGate => p && q
    case OrGate => p || q
    case XorGate => p != q
  }

  // The operator on the lowest n bits.
  function Zip(g: Gate, x: nat, y: nat, n: nat): (r: nat)
    ensures r < Pow2(n)
  {
    if n == 0 then 0
    else (if Wire(g, x % 2 == 1, y % 2 == 1) then 1 else 0) + 2 * Zip(g, x / 2, y / 2, n - 1)
  }

  function And(x: U32, y: U32): U32 {
    Pow2At();
    Zip(AndGate, x, y, 32)
  }

  function Or(x: U32, y: U32): U32 {
    Pow2At();
    Zip(OrGate, x, y, 32)
  }

  function Xor(x: U32, y: U32): U32 {
    Pow2At();
    Zip(XorGate, x, y, 32)
  }

  function Not(x: U32): U32 {
    0xFFFF_FFFF - x
  }

  // Shifts, one place at a time.
  function ShiftLeft(x: U32, n: nat): U32
    decreases n
  {
    if n == 0 then x else ShiftLeft(x * 2 % 0x1_0000_0000, n - 1)
  }

  function ShiftRight(x: U32, n: nat): U32 {
    if n == 0 then x else ShiftRight(x / 2, n - 1)
  }

  function RotateRight(x: U32, n: nat): U32
    requires n <= 32
  {
    Or(ShiftRight(x, n), ShiftLeft(x, 32 - n))
  }

  // ---------------------------------------------------------------------------
  // Where bits go
  // ---------------------------------------------------------------------------

  lemma DivDiv(x: int, m: int, p: int)
    requires m > 0 && p > 0
    ensures x / m / p == x / (m * p)
  {
    var a, r := x / m, x % m;
    var b, t := a / p, a % p;
    assert x == m * a + r && a == b * p + t;
    assert x == b * (m * p) + (m * t + r);
    AtLeast(p, m);
    assert m * t + r < m * (t + 1) <= m * p by {
      Scaled(t + 1, p, m);
    }
    Unique(x, m * p, b, m * t + r);
  }

  lemma Scaled(a: int, b: int, m: int)
    requires a <= b && m > 0
    ensures m * a <= m * b
  {
    if a < b {
      AtLeast(b - a, m);
      assert (b - a) * m == m * b - m * a;
    }
  }

  lemma BitHalf(x: int, i: nat)
    ensures Bit(x, i + 1) == Bit(x / 2, i)
  {
    DivDiv(x, 2, Pow2(i));
  }

  lemma {:induction false} ZipBit(g: Gate, x: nat, y: nat, n: nat, i: nat)
    requires i < n
    ensures Bit(Zip(g, x, y, n), i) == Wire(g, Bit(x, i), Bit(y, i))
    decreases i
  {
    var z := Zip(g, x, y, n);
    if i > 0 {
      hide Bit;
      assert z / 2 == Zip(g, x / 2, y / 2, n - 1);
      ZipBit(g, x / 2, y / 2, n - 1, i - 1);
      BitHalf(x, i - 1);
      BitHalf(y, i - 1);
      BitHalf(z, i - 1);
    }
  }

  lemma AndBit(x: U32, y: U32, i: nat)
    requires i < 32
    ensures Bit(And(x, y), i) <==> Bit(x, i) && Bit(y, i)
  {
    ZipBit(AndGate, x, y, 32, i);
  }

  lemma OrBit(x: U32, y: U32, i: nat)
    requires i < 32
    ensures Bit(Or(x, y), i) <==> Bit(x, i) || Bit(y, i)
  {
    ZipBit(OrGate, x, y, 32, i);
  }

  lemma XorBit(x: U32, y: U32, i: nat)
    requires i < 32
    ensures Bit(Xor(x, y), i) <==> Bit(x, i) != Bit(y, i)
  {
    ZipBit(XorGate, x, y, 32, i);
  }

  lemma {:induction false} ComplementBit(x: int, n: nat, i: nat)
    requires i < n && 0 <= x < Pow2(n)
    ensures Bit(Pow2(n) - 1 - x, i) <==> !Bit(x, i)
    decreases i
  {
    var y := Pow2(n) - 1 - x;
    if i > 0 {
      hide Bit;
      assert y / 2 == Pow2(n - 1) - 1 - x / 2;
      ComplementBit(x / 2, n - 1, i - 1);
      BitHalf(x, i - 1);
      BitHalf(y, i - 1);
    }
  }

  lemma NotBit(x: U32, i: nat)
    requires i < 32
    ensures Bit(Not(x), i) <==> !Bit(x, i)
  {
    Pow2At();
    ComplementBit(x, 32, i);
  }

  // A number is its bits.
  lemma {:induction false} SameBits(x: int, y: int, n: nat)
    requires 0 <= x < Pow2(n) && 0 <= y < Pow2(n) && forall i: nat :: i < n ==> Bit(x, i) == Bit(y, i)
    ensures x == y
  {
    if n > 0 {
      assert Bit(x, 0) == Bit(y, 0);
      forall i: nat | i < n - 1 ensures Bit(x / 2, i) == Bit(y / 2, i) {
        BitHalf(x, i);
        BitHalf(y, i);
      }
      SameBits(x / 2, y / 2, n - 1);
    }
  }

  lemma {:induction false} ZeroBit(i: nat)
    ensures !Bit(0, i)
  {
    Unique(0, Pow2(i), 0, 0);
  }

  // Two words have a common bit exactly when their conjunction is not zero.
  lemma AndNonzero(x: U32, y: U32)
    ensures And(x, y) != 0 <==> exists i: nat :: i < 32 && Bit(x, i) && Bit(y, i)
  {
    hide Bit, And;
    if i: nat :| i < 32 && Bit(x, i) && Bit(y, i) {
      AndBit(x, y, i);
      ZeroBit(i);
    } else {
      forall i: nat | i < 32 ensures Bit(And(x, y), i) == Bit(0, i) {
        AndBit(x, y, i);
        ZeroBit(i);
      }
      Pow2At();
      SameBits(And(x, y), 0, 32);
    }
  }

  // ---------------------------------------------------------------------------
  // Shifts
  // ---------------------------------------------------------------------------

  lemma {:induction false} ShiftRightIs(x: U32, n: nat)
    ensures ShiftRight(x, n) == x / Pow2(n)
  {
    if n > 0 {
      ShiftRightIs(x / 2, n - 1);
      DivDiv(x, 2, Pow2(n - 1));
    }
  }

  lemma {:induction false} ShiftLeftIs(x: U32, n: nat)
    ensures ShiftLeft(x, n) == x * Pow2(n) % 0x1_0000_0000
    decreases n
  {
    if n == 0 {
      Unique(x, 0x1_0000_0000, 0, x);
    } else {
      var y, p := x * 2 % 0x1_0000_0000, Pow2(n - 1);
      ShiftLeftIs(y, n - 1);
      ModProduct(x * 2, p, 0x1_0000_0000);
      assert x * 2 * p == x * Pow2(n) by {
        Associate(x, 2, p);
      }
    }
  }

  lemma Associate(a: int, b: int, c: int)
    ensures a * b * c == a * (b * c)
  {
  }

  lemma ModProduct(x: int, p: int, m: int)
    requires m > 0
    ensures (x % m) * p % m == x * p % m
  {
    var q, r := x / m, x % m;
    var d, s := r * p / m, r * p % m;
    assert x * p == (q * m + r) * p == q * m * p + r * p;
    assert q * m * p == (q * p) * m;
    Unique(x * p, m, q * p + d, s);
  }

  lemma {:induction false} ShiftRightBit(x: U32, n: nat, i: nat)
    ensures Bit(ShiftRight(x, n), i) == Bit(x, i + n)
  {
    if n > 0 {
      ShiftRightBit(x / 2, n - 1, i);
      BitHalf(x, i + n - 1);
    }
  }

  lemma {:induction false} LowBits(x: int, n: nat, i: nat)
    requires i < n
    ensures Bit(x % Pow2(n), i) == Bit(x, i)
    decreases i
  {
    var p := Pow2(n - 1);
    var q, r := x / 2 / p, x / 2 % p;
    assert x == q * (2 * p) + (2 * r + x % 2) by {
      Associate(q, 2, p);
    }
    Unique(x, 2 * p, q, 2 * r + x % 2);
    var y := x % Pow2(n);
    assert y == 2 * r + x % 2;
    if i > 0 {
      hide Bit;
      assert y / 2 == r;
      LowBits(x / 2, n - 1, i - 1);
      BitHalf(x, i - 1);
      BitHalf(y, i - 1);
    } else {
      assert Bit(y, 0) == (y % 2 == 1) && Bit(x, 0) == (x % 2 == 1);
    }
  }

  lemma DoubleBit(x: U32, i: nat)
    requires i < 32
    ensures Bit(x * 2 % 0x1_0000_0000, i) == (i > 0 && Bit(x, i - 1))
  {
    hide Bit, Pow2;
    Pow2At();
    LowBits(x * 2, 32, i);
    if i > 0 {
      BitHalf(x * 2, i - 1);
      assert x * 2 / 2 == x;
    } else {
      EvenBit(x);
    }
  }

  lemma EvenBit(x: int)
    ensures !Bit(x * 2, 0)
  {
  }

  lemma {:induction false} ShiftLeftBit(x: U32, n: nat, i: nat)
    requires i < 32
    ensures Bit(ShiftLeft(x, n), i) == (i >= n && Bit(x, i - n))
    decreases n
  {
    if n > 0 {
      var y := x * 2 % 0x1_0000_0000;
      ShiftLeftBit(y, n - 1, i);
      if i >= n - 1 {
        DoubleBit(x, i - (n - 1));
      }
    }
  }

  lemma HighBit(x: U32, i: nat)
    requires i >= 32
    ensures !Bit(x, i)
    decreases i
  {
    Pow2At();
    if i == 32 {
      Unique(x, 0x1_0000_0000, 0, x);
    } else {
      HighBit(x / 2, i - 1);
      BitHalf(x, i - 1);
    }
  }

  // A rotation to the right takes bit i + n, around the word, to bit i.
  lemma RotateBit(x: U32, n: nat, i: nat)
    requires n <= 32 && i < 32
    ensures Bit(RotateRight(x, n), i) == Bit(x, (i + n) % 32)
  {
    hide Bit, Or;
    OrBit(ShiftRight(x, n), ShiftLeft(x, 32 - n), i);
    ShiftRightBit(x, n, i);
    ShiftLeftBit(x, 32 - n, i);
    if i + n >= 32 {
      HighBit(x, i + n);
    }
  }
}
