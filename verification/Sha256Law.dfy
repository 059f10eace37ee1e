/**
 Where the numbers of SHA-256 come from and what its functions do to single bits:
 sections 4.1.2, 4.2.2 and 5.3.3 of FIPS 180-4, against the tables and the functions
 of the model.
 */
module Sha256Laws {
  import opened LittleEndian
  import opened Sha256
  import opened Words

  // ---------------------------------------------------------------------------
  // The constants
  // ---------------------------------------------------------------------------

  // The first 64 primes, eight to a row.
  const PRIMES0: seq<int> := [2, 3, 5, 7, 11, 13, 17, 19]
  const PRIMES1: seq<int> := [23, 29, 31, 37, 41, 43, 47, 53]
  const PRIMES2: seq<int> := [59, 61, 67, 71, 73, 79, 83, 89]
  const PRIMES3: seq<int> := [97, 101, 103, 107, 109, 113, 127, 131]
  const PRIMES4: seq<int> := [137, 139, 149, 151, 157, 163, 167, 173]
  const PRIMES5: seq<int> := [179, 181, 191, 193, 197, 199, 211, 223]
  const PRIMES6: seq<int> := [227, 229, 233, 239, 241, 251, 257, 263]
  const PRIMES7: seq<int> := [269, 271, 277, 281, 283, 293, 307, 311]

  function Prime(t: int): int
    requires 0 <= t < 64
  {
    var row := t / 8;
    (if row == 0 then PRIMES0 else if row == 1 then PRIMES1 else if row == 2 then PRIMES2 else if row == 3 then PRIMES3
     else if row == 4 then PRIMES4 else if row == 5 then PRIMES5 else if row == 6 then PRIMES6 else PRIMES7)[t % 8]
  }

  // w is the first 32 bits of the fraction of the cube root of p, whose whole part is m.
  ghost predicate CubeRoot(p: int, m: int, w: int) {
    var x := m * 0x1_0000_0000 + w;
    x * x * x <= p * 0x1_0000_0000_0000_0000_0000_0000 < (x + 1) * (x + 1) * (x + 1)
  }

  ghost predicate SquareRoot(p: int, m: int, w: int) {
    var x := m * 0x1_0000_0000 + w;
    x * x <= p * 0x1_0000_0000_0000_0000 < (x + 1) * (x + 1)
  }

  ghost predicate Rooted(t: int) {
    0 <= t < 64 && exists m :: 0 <= m && CubeRoot(Prime(t), m, K(t))
  }

  lemma FirstRow()
    ensures Rooted(0) && Rooted(1) && Rooted(2) && Rooted(3) && Rooted(4) && Rooted(5) && Rooted(6) && Rooted(7)
  {
    assert CubeRoot(Prime(0), 1, K(0));
    assert CubeRoot(Prime(1), 1, K(1));
    assert CubeRoot(Prime(2), 1, K(2));
    assert CubeRoot(Prime(3), 1, K(3));
    assert CubeRoot(Prime(4), 2, K(4));
    assert CubeRoot(Prime(5), 2, K(5));
    assert CubeRoot(Prime(6), 2, K(6));
    assert CubeRoot(Prime(7), 2, K(7));
  }

  lemma SecondRow()
    ensures Rooted(8) && Rooted(9) && Rooted(10) && Rooted(11) && Rooted(12) && Rooted(13) && Rooted(14) && Rooted(15)
  {
    assert CubeRoot(Prime(8), 2, K(8));
    assert CubeRoot(Prime(9), 3, K(9));
    assert CubeRoot(Prime(10), 3, K(10));
    assert CubeRoot(Prime(11), 3, K(11));
    assert CubeRoot(Prime(12), 3, K(12));
    assert CubeRoot(Prime(13), 3, K(13));
    assert CubeRoot(Prime(14), 3, K(14));
    assert CubeRoot(Prime(15), 3, K(15));
  }

  lemma ThirdRow()
    ensures Rooted(16) && Rooted(17) && Rooted(18) && Rooted(19) && Rooted(20) && Rooted(21) && Rooted(22) && Rooted(23)
  {
    assert CubeRoot(Prime(16), 3, K(16));
    assert CubeRoot(Prime(17), 3, K(17));
    assert CubeRoot(Prime(18), 4, K(18));
    assert CubeRoot(Prime(19), 4, K(19));
    assert CubeRoot(Prime(20), 4, K(20));
    assert CubeRoot(Prime(21), 4, K(21));
    assert CubeRoot(Prime(22), 4, K(22));
    assert CubeRoot(Prime(23), 4, K(23));
  }

  lemma FourthRow()
    ensures Rooted(24) && Rooted(25) && Rooted(26) && Rooted(27) && Rooted(28) && Rooted(29) && Rooted(30) && Rooted(31)
  {
    assert CubeRoot(Prime(24), 4, K(24));
    assert CubeRoot(Prime(25), 4, K(25));
    assert CubeRoot(Prime(26), 4, K(26));
    assert CubeRoot(Prime(27), 4, K(27));
    assert CubeRoot(Prime(28), 4, K(28));
    assert CubeRoot(Prime(29), 4, K(29));
    assert CubeRoot(Prime(30), 5, K(30));
    assert CubeRoot(Prime(31), 5, K(31));
  }

  lemma FifthRow()
    ensures Rooted(32) && Rooted(33) && Rooted(34) && Rooted(35) && Rooted(36) && Rooted(37) && Rooted(38) && Rooted(39)
  {
    assert CubeRoot(Prime(32), 5, K(32));
    assert CubeRoot(Prime(33), 5, K(33));
    assert CubeRoot(Prime(34), 5, K(34));
    assert CubeRoot(Prime(35), 5, K(35));
    assert CubeRoot(Prime(36), 5, K(36));
    assert CubeRoot(Prime(37), 5, K(37));
    assert CubeRoot(Prime(38), 5, K(38));
    assert CubeRoot(Prime(39), 5, K(39));
  }

  lemma SixthRow()
    ensures Rooted(40) && Rooted(41) && Rooted(42) && Rooted(43) && Rooted(44) && Rooted(45) && Rooted(46) && Rooted(47)
  {
    assert CubeRoot(Prime(40), 5, K(40));
    assert CubeRoot(Prime(41), 5, K(41));
    assert CubeRoot(Prime(42), 5, K(42));
    assert CubeRoot(Prime(43), 5, K(43));
    assert CubeRoot(Prime(44), 5, K(44));
    assert CubeRoot(Prime(45), 5, K(45));
    assert CubeRoot(Prime(46), 5, K(46));
    assert CubeRoot(Prime(47), 6, K(47));
  }

  lemma SeventhRow()
    ensures Rooted(48) && Rooted(49) && Rooted(50) && Rooted(51) && Rooted(52) && Rooted(53) && Rooted(54) && Rooted(55)
  {
    assert CubeRoot(Prime(48), 6, K(48));
    assert CubeRoot(Prime(49), 6, K(49));
    assert CubeRoot(Prime(50), 6, K(50));
    assert CubeRoot(Prime(51), 6, K(51));
    assert CubeRoot(Prime(52), 6, K(52));
    assert CubeRoot(Prime(53), 6, K(53));
    assert CubeRoot(Prime(54), 6, K(54));
    assert CubeRoot(Prime(55), 6, K(55));
  }

  lemma EighthRow()
    ensures Rooted(56) && Rooted(57) && Rooted(58) && Rooted(59) && Rooted(60) && Rooted(61) && Rooted(62) && Rooted(63)
  {
    assert CubeRoot(Prime(56), 6, K(56));
    assert CubeRoot(Prime(57), 6, K(57));
    assert CubeRoot(Prime(58), 6, K(58));
    assert CubeRoot(Prime(59), 6, K(59));
    assert CubeRoot(Prime(60), 6, K(60));
    assert CubeRoot(Prime(61), 6, K(61));
    assert CubeRoot(Prime(62), 6, K(62));
    assert CubeRoot(Prime(63), 6, K(63));
  }

  // Every round constant is the start of the fraction of a prime's cube root.
  lemma ConstantsAreRoots(t: int)
    requires 0 <= t < 64
    ensures exists m :: 0 <= m && CubeRoot(Prime(t), m, K(t))
  {
    assert Rooted(t) by {
      hide Rooted;
      if t / 8 == 0 {
        FirstRow();
      } else if t / 8 == 1 {
        SecondRow();
      } else if t / 8 == 2 {
        ThirdRow();
      } else if t / 8 == 3 {
        FourthRow();
      } else if t / 8 == 4 {
        FifthRow();
      } else if t / 8 == 5 {
        SixthRow();
      } else if t / 8 == 6 {
        SeventhRow();
      } else {
        EighthRow();
      }
    }
  }

  // The initial state is those of the square roots of the first eight.
  lemma InitialAreRoots()
    ensures SquareRoot(2, 1, INITIAL.a)
    ensures SquareRoot(3, 1, INITIAL.b)
    ensures SquareRoot(5, 2, INITIAL.c)
    ensures SquareRoot(7, 2, INITIAL.d)
    ensures SquareRoot(11, 3, INITIAL.e)
    ensures SquareRoot(13, 3, INITIAL.f)
    ensures SquareRoot(17, 4, INITIAL.g)
    ensures SquareRoot(19, 4, INITIAL.h)
  {
  }

  // ---------------------------------------------------------------------------
  // The functions, bit by bit
  // ---------------------------------------------------------------------------

  lemma ChooseBit(x: Word, y: Word, z: Word, i: nat)
    requires i < 32
    ensures Bit(Choose(x, y, z), i) == if Bit(x, i) then Bit(y, i) else Bit(z, i)
  {
    hide Bit, And, Xor, Not;
    AndBit(x, y, i);
    NotBit(x, i);
    AndBit(Not(x), z, i);
    XorBit(And(x, y), And(Not(x), z), i);
  }

  // Two of the three.
  lemma MajorityBit(x: Word, y: Word, z: Word, i: nat)
    requires i < 32
    ensures Bit(Majority(x, y, z), i) <==> (Bit(x, i) && Bit(y, i)) || (Bit(x, i) && Bit(z, i)) || (Bit(y, i) && Bit(z, i))
  {
    hide Bit, And, Xor;
    AndBit(x, y, i);
    AndBit(x, z, i);
    AndBit(y, z, i);
    XorBit(And(x, y), And(x, z), i);
    XorBit(Xor(And(x, y), And(x, z)), And(y, z), i);
  }

  lemma XorBits(x: Word, y: Word, z: Word, i: nat)
    requires i < 32
    ensures Bit(Xor(Xor(x, y), z), i) == (Bit(x, i) != (Bit(y, i) != Bit(z, i)))
  {
    hide Bit, Xor;
    XorBit(x, y, i);
    XorBit(Xor(x, y), z, i);
  }

  lemma BigSigma0Bit(x: Word, i: nat)
    requires i < 32
    ensures Bit(BigSigma0(x), i) == (Bit(x, (i + 2) % 32) != (Bit(x, (i + 13) % 32) != Bit(x, (i + 22) % 32)))
  {
    hide Bit, Xor, RotateRight, ShiftRight;
    XorBits(RotateRight(x, 2), RotateRight(x, 13), RotateRight(x, 22), i);
    RotateBit(x, 2, i);
    RotateBit(x, 13, i);
    RotateBit(x, 22, i);
  }

  lemma BigSigma1Bit(x: Word, i: nat)
    requires i < 32
    ensures Bit(BigSigma1(x), i) == (Bit(x, (i + 6) % 32) != (Bit(x, (i + 11) % 32) != Bit(x, (i + 25) % 32)))
  {
    hide Bit, Xor, RotateRight, ShiftRight;
    XorBits(RotateRight(x, 6), RotateRight(x, 11), RotateRight(x, 25), i);
    RotateBit(x, 6, i);
    RotateBit(x, 11, i);
    RotateBit(x, 25, i);
  }

  lemma SmallSigma0Bit(x: Word, i: nat)
    requires i < 32
    ensures Bit(SmallSigma0(x), i) == (Bit(x, (i + 7) % 32) != (Bit(x, (i + 18) % 32) != Bit(x, i + 3)))
  {
    hide Bit, Xor, RotateRight, ShiftRight;
    XorBits(RotateRight(x, 7), RotateRight(x, 18), ShiftRight(x, 3), i);
    RotateBit(x, 7, i);
    RotateBit(x, 18, i);
    ShiftRightBit(x, 3, i);
  }

  lemma SmallSigma1Bit(x: Word, i: nat)
    requires i < 32
    ensures Bit(SmallSigma1(x), i) == (Bit(x, (i + 17) % 32) != (Bit(x, (i + 19) % 32) != Bit(x, i + 10)))
  {
    hide Bit, Xor, RotateRight, ShiftRight;
    XorBits(RotateRight(x, 17), RotateRight(x, 19), ShiftRight(x, 10), i);
    RotateBit(x, 17, i);
    RotateBit(x, 19, i);
    ShiftRightBit(x, 10, i);
  }

  // The first byte of a stored word is the high one, and loading undoes storing.
  lemma BigEndian(s: seq<Byte>, at: int)
    requires 0 <= at && at + 4 <= |s|
    ensures var w := Load(s, at);
            w / 0x100_0000 == s[at] && w / 0x1_0000 % 256 == s[at + 1] && w / 0x100 % 256 == s[at + 2] && w % 256 == s[at + 3]
    ensures Store(Load(s, at)) == s[at..at + 4]
  {
    var w, a, b, c, d := Load(s, at), s[at] as int, s[at + 1] as int, s[at + 2] as int, s[at + 3] as int;
    Unique(w, 0x100_0000, a, 0x1_0000 * b + 0x100 * c + d);
    Unique(w, 0x1_0000, 256 * a + b, 0x100 * c + d);
    Unique(256 * a + b, 256, a, b);
    Unique(w, 0x100, 0x1_0000 * a + 256 * b + c, d);
    Unique(0x1_0000 * a + 256 * b + c, 256, 256 * a + b, c);
    Unique(a, 256, 0, a);
  }

  lemma StoreThenLoad(w: Word)
    ensures Load(Store(w), 0) == w
  {
    var a := w / 0x100;
    var b := a / 0x100;
    var c := b / 0x100;
    DivDiv(w, 0x100, 0x100);
    DivDiv(w, 0x1_0000, 0x100);
    Unique(c, 256, 0, c);
    assert w == 256 * a + w % 256 && a == 256 * b + a % 256 && b == 256 * c + b % 256;
  }

  // The digest is the eight words of the state, in order.
  lemma OutputWords(v: Working)
    ensures var s := Output(v);
            && |s| == 32 && Load(s, 0) == v.a && Load(s, 4) == v.b && Load(s, 8) == v.c && Load(s, 12) == v.d
            && Load(s, 16) == v.e && Load(s, 20) == v.f && Load(s, 24) == v.g && Load(s, 28) == v.h
  {
    var s := Output(v);
    Piece(s, 0, v.a);
    Piece(s, 4, v.b);
    Piece(s, 8, v.c);
    Piece(s, 12, v.d);
    Piece(s, 16, v.e);
    Piece(s, 20, v.f);
    Piece(s, 24, v.g);
    Piece(s, 28, v.h);
  }

  lemma Piece(s: seq<Byte>, at: int, w: Word)
    requires 0 <= at && at + 4 <= |s| && s[at..at + 4] == Store(w)
    ensures Load(s, at) == w
  {
    hide Store;
    StoreThenLoad(w);
    var t := Store(w);
    assert t[0] == s[at..at + 4][0] && t[1] == s[at..at + 4][1] && t[2] == s[at..at + 4][2] && t[3] == s[at..at + 4][3];
  }
}
