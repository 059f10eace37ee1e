/**
 The streaming SHA-256 of the random number generator (kernel/core/random.c,
 `sha256_init`, `sha256_update`, `sha256_final`, `sha256_transform`), against
 FIPS 180-4: the functions of section 4.1.2, the padding of section 5.1.1 and the
 hash computation of section 6.2.2.
 */
module Sha256 {
  import opened LittleEndian
  import opened Words

  type Word = U32

  const BLOCK: int := 64

  const ROW0: seq<Word> := [0x428a2f98, 0x71374491, 0xb5c0fbcf, 0xe9b5dba5, 0x3956c25b, 0x59f111f1, 0x923f82a4, 0xab1c5ed5]
  const ROW1: seq<Word> := [0xd807aa98, 0x12835b01, 0x243185be, 0x550c7dc3, 0x72be5d74, 0x80deb1fe, 0x9bdc06a7, 0xc19bf174]
  const ROW2: seq<Word> := [0xe49b69c1, 0xefbe4786, 0x0fc19dc6, 0x240ca1cc, 0x2de92c6f, 0x4a7484aa, 0x5cb0a9dc, 0x76f988da]
  const ROW3: seq<Word> := [0x983e5152, 0xa831c66d, 0xb00327c8, 0xbf597fc7, 0xc6e00bf3, 0xd5a79147, 0x06ca6351, 0x14292967]
  const ROW4: seq<Word> := [0x27b70a85, 0x2e1b2138, 0x4d2c6dfc, 0x53380d13, 0x650a7354, 0x766a0abb, 0x81c2c92e, 0x92722c85]
  const ROW5: seq<Word> := [0xa2bfe8a1, 0xa81a664b, 0xc24b8b70, 0xc76c51a3, 0xd192e819, 0xd6990624, 0xf40e3585, 0x106aa070]
  const ROW6: seq<Word> := [0x19a4c116, 0x1e376c08, 0x2748774c, 0x34b0bcb5, 0x391c0cb3, 0x4ed8aa4a, 0x5b9cca4f, 0x682e6ff3]
  const ROW7: seq<Word> := [0x748f82ee, 0x78a5636f, 0x84c87814, 0x8cc70208, 0x90befffa, 0xa4506ceb, 0xbef9a3f7, 0xc67178f2]

  // The 64 constants of the rounds, eight to a row.
  function K(t: int): Word
    requires 0 <= t < 64
  {
    var row := t / 8;
    (if row == 0 then ROW0 else if row == 1 then ROW1 else if row == 2 then ROW2 else if row == 3 then ROW3
     else if row == 4 then ROW4 else if row == 5 then ROW5 else if row == 6 then ROW6 else ROW7)[t % 8]
  }

  // ---------------------------------------------------------------------------
  // The compression function, section 6.2.2
  // ---------------------------------------------------------------------------

  datatype Working = Working(a: Word, b: Word, c: Word, d: Word, e: Word, f: Word, g: Word, h: Word)

  const INITIAL: Working := Working(0x6a09e667, 0xbb67ae85, 0x3c6ef372, 0xa54ff53a, 0x510e527f, 0x9b05688c, 0x1f83d9ab, 0x5be0cd19)

  function Add(x: Word, y: Word): Word { (x as int + y as int) % 0x1_0000_0000 }

  function Choose(x: Word, y: Word, z: Word): Word { Xor(And(x, y), And(Not(x), z)) }

  function Majority(x: Word, y: Word, z: Word): Word { Xor(Xor(And(x, y), And(x, z)), And(y, z)) }

  function BigSigma0(x: Word): Word { Xor(Xor(RotateRight(x, 2), RotateRight(x, 13)), RotateRight(x, 22)) }

  function BigSigma1(x: Word): Word { Xor(Xor(RotateRight(x, 6), RotateRight(x, 11)), RotateRight(x, 25)) }

  function SmallSigma0(x: Word): Word { Xor(Xor(RotateRight(x, 7), RotateRight(x, 18)), ShiftRight(x, 3)) }

  function SmallSigma1(x: Word): Word { Xor(Xor(RotateRight(x, 17), RotateRight(x, 19)), ShiftRight(x, 10)) }

  // A big-endian word.
  function Load(s: seq<Byte>, at: int): Word
    requires 0 <= at && at + 4 <= |s|
  {
    0x100_0000 * (s[at] as int) + 0x1_0000 * (s[at + 1] as int) + 0x100 * (s[at + 2] as int) + s[at + 3] as int
  }

  function Store(w: Word): (s: seq<Byte>)
    ensures |s| == 4
  {
    [w as int / 0x100_0000 % 256, w as int / 0x1_0000 % 256, w as int / 0x100 % 256, w as int % 256]
  }

  // One later word of the schedule, from the words 16, 15, 7 and 2 before it.
  function Expand(w16: Word, w15: Word, w7: Word, w2: Word): Word {
    Add(Add(Add(w16, SmallSigma0(w15)), w7), SmallSigma1(w2))
  }

  // The message schedule.
  function Schedule(block: seq<Byte>, t: int): Word
    requires |block| == BLOCK && 0 <= t < 64
    decreases t
  {
    if t < 16 then Load(block, 4 * t)
    else Expand(Schedule(block, t - 16), Schedule(block, t - 15), Schedule(block, t - 7), Schedule(block, t - 2))
  }

  function Round(v: Working, k: Word, w: Word): Working {
    var t1 := Add(Add(Add(Add(v.h, BigSigma1(v.e)), Choose(v.e, v.f, v.g)), k), w);
    var t2 := Add(BigSigma0(v.a), Majority(v.a, v.b, v.c));
    Working(Add(t1, t2), v.a, v.b, v.c, Add(v.d, t1), v.e, v.f, v.g)
  }

  function Rounds(v: Working, block: seq<Byte>, t: int): Working
    requires |block| == BLOCK && 0 <= t <= 64
  {
    if t == 0 then v else Round(Rounds(v, block, t - 1), K(t - 1), Schedule(block, t - 1))
  }

  function Sum(u: Working, v: Working): Working {
    Working(Add(u.a, v.a), Add(u.b, v.b), Add(u.c, v.c), Add(u.d, v.d), Add(u.e, v.e), Add(u.f, v.f), Add(u.g, v.g), Add(u.h, v.h))
  }

  function Compress(v: Working, block: seq<Byte>): Working
    requires |block| == BLOCK
  {
    Sum(v, Rounds(v, block, 64))
  }

  // ---------------------------------------------------------------------------
  // Whole messages
  // ---------------------------------------------------------------------------

  // The compression function folded over the whole blocks of a message.
  ghost function Fold(v: Working, s: seq<Byte>): Working
    requires Whole(s)
    decreases |s|
  {
    if s == [] then v
    else
      WholeRest(s);
      Fold(Compress(v, s[..BLOCK]), s[BLOCK..])
  }

  lemma WholeRest(s: seq<Byte>)
    requires Whole(s) && s != []
    ensures |s| >= BLOCK && Whole(s[BLOCK..])
  {
  }

  ghost predicate Whole(s: seq<Byte>) {
    |s| % 64 == 0
  }

  lemma {:induction false} FoldConcat(v: Working, s: seq<Byte>, t: seq<Byte>)
    requires Whole(s) && Whole(t)
    ensures Fold(v, s + t) == Fold(Fold(v, s), t)
    decreases |s|
  {
    hide Compress;
    if s == [] {
      assert s + t == t;
    } else {
      WholeRest(s);
      assert (s + t)[..BLOCK] == s[..BLOCK] && (s + t)[BLOCK..] == s[BLOCK..] + t;
      FoldConcat(Compress(v, s[..BLOCK]), s[BLOCK..], t);
    }
  }

  lemma FoldOne(v: Working, b: seq<Byte>)
    requires |b| == BLOCK
    ensures Fold(v, b) == Compress(v, b)
  {
    hide Compress;
    assert b[..BLOCK] == b && b[BLOCK..] == [];
    assert Fold(Compress(v, b), []) == Compress(v, b);
  }

  lemma FoldMore(v: Working, s: seq<Byte>, b: seq<Byte>)
    requires Whole(s) && |b| == BLOCK
    ensures Whole(s + b) && Fold(v, s + b) == Compress(Fold(v, s), b)
  {
    hide Compress, Fold;
    FoldConcat(v, s, b);
    FoldOne(Fold(v, s), b);
  }

  function Zeros(n: nat): (s: seq<Byte>)
    ensures |s| == n && forall i :: 0 <= i < n ==> s[i] == 0
  {
    seq(n, _ => 0)
  }

  // The 64-bit big-endian length.
  function LengthBytes(bits: int): (s: seq<Byte>)
    ensures |s| == 8
  {
    seq(8, i requires 0 <= i < 8 => bits / Power(7 - i) % 256)
  }

  // How many zero bytes follow the 0x80: the least number that leaves eight bytes
  // of the last block for the length.
  function Filler(length: nat): (k: nat)
    ensures k < 64 && (length + 1 + k + 8) % 64 == 0
  {
    (119 - length % 64) % 64
  }

  // Section 5.1.1, in whole bytes; the length is taken modulo 2^64.
  function Pad(m: seq<Byte>): (s: seq<Byte>)
    ensures Whole(s) && m <= s
  {
    m + [0x80] + Zeros(Filler(|m|)) + LengthBytes(8 * |m| % 0x1_0000_0000_0000_0000)
  }

  function Output(v: Working): seq<Byte> {
    Store(v.a) + Store(v.b) + Store(v.c) + Store(v.d) + Store(v.e) + Store(v.f) + Store(v.g) + Store(v.h)
  }

  ghost function Digest(m: seq<Byte>): seq<Byte> {
    Output(Fold(INITIAL, Pad(m)))
  }

  // ---------------------------------------------------------------------------
  // The context
  // ---------------------------------------------------------------------------

  class Context {
    var state: Working
    var bitCount: int
    const block: array<Byte>
    var blockLength: int
    ghost var done: seq<Byte>

    // `done` is what the state has taken in, in whole blocks.
    ghost predicate Valid()
      reads this, block
    {
      && block.Length == BLOCK && 0 <= blockLength < BLOCK
      && Whole(done) && state == Fold(INITIAL, done) && bitCount == 8 * |done| % 0x1_0000_0000_0000_0000
    }

    // Every byte given so far.
    ghost function Message(): seq<Byte>
      requires Valid()
      reads this, block
    {
      done + block[..blockLength]
    }

    constructor ()
      ensures Valid() && Message() == [] && fresh(block)
    {
      block := new Byte[BLOCK](_ => 0);
      state := INITIAL;
      bitCount, blockLength := 0, 0;
      done := [];
    }

    // sha256_transform
    method Transform()
      requires block.Length == BLOCK
      modifies this`state
      ensures state == Compress(old(state), block[..])
    {
      hide Schedule, Round, Load, K, Expand;
      var s := block[..];
      var w := new Word[64](_ => 0);
      for i := 0 to 16
        invariant state == old(state)
        invariant forall j :: 0 <= j < i ==> w[j] == Schedule(s, j)
      {
        ScheduleStart(s, i);
        w[i] := Load(s, 4 * i);
      }
      for i := 16 to 64
        invariant state == old(state)
        invariant forall j :: 0 <= j < i ==> w[j] == Schedule(s, j)
      {
        ScheduleStep(s, i);
        w[i] := Extend(w[i - 16], w[i - 15], w[i - 7], w[i - 2]);
      }
      var v := state;
      for i := 0 to 64
        invariant v == Rounds(state, s, i) && state == old(state)
        invariant forall j :: 0 <= j < 64 ==> w[j] == Schedule(s, j)
      {
        v := Step(v, K(i), w[i]);
      }
      state := Working(Add(state.a, v.a), Add(state.b, v.b), Add(state.c, v.c), Add(state.d, v.d),
                       Add(state.e, v.e), Add(state.f, v.f), Add(state.g, v.g), Add(state.h, v.h));
    }

    static method Extend(w16: Word, w15: Word, w7: Word, w2: Word) returns (w: Word)
      ensures w == Expand(w16, w15, w7, w2)
    {
      hide Add, Xor, RotateRight, ShiftRight;
      var s0 := Xor(Xor(RotateRight(w15, 7), RotateRight(w15, 18)), ShiftRight(w15, 3));
      var s1 := Xor(Xor(RotateRight(w2, 17), RotateRight(w2, 19)), ShiftRight(w2, 10));
      w := Add(Add(Add(w16, s0), w7), s1);
    }

    // One turn of the round loop, in the order of the assignments.
    static method Step(v: Working, k: Word, w: Word) returns (r: Working)
      ensures r == Round(v, k, w)
    {
      hide Add, Xor, And, Not, RotateRight;
      var a, b, c, d, e, f, g, h := v.a, v.b, v.c, v.d, v.e, v.f, v.g, v.h;
      var s1 := Xor(Xor(RotateRight(e, 6), RotateRight(e, 11)), RotateRight(e, 25));
      var choice := Xor(And(e, f), And(Not(e), g));
      var temp1 := Add(Add(Add(Add(h, s1), choice), k), w);
      var s0 := Xor(Xor(RotateRight(a, 2), RotateRight(a, 13)), RotateRight(a, 22));
      var majority := Xor(Xor(And(a, b), And(a, c)), And(b, c));
      var temp2 := Add(s0, majority);
      h := g;
      g := f;
      f := e;
      e := Add(d, temp1);
      d := c;
      c := b;
      b := a;
      a := Add(temp1, temp2);
      r := Working(a, b, c, d, e, f, g, h);
    }

    // A full buffer is compressed.
    method Flush()
      requires block.Length == BLOCK && Whole(done) && state == Fold(INITIAL, done) && bitCount == 8 * |done| % 0x1_0000_0000_0000_0000
      modifies this
      ensures Valid() && blockLength == 0 && done == old(done) + old(block[..])
    {
      hide Compress, Fold;
      FoldMore(INITIAL, done, block[..]);
      Transform();
      CountMore(|done|);
      bitCount := (bitCount + 512) % 0x1_0000_0000_0000_0000;
      blockLength := 0;
      done := done + block[..];
    }

    // One turn of the copying loop.
    method Absorb(data: seq<Byte>, at: int) returns (next: int)
      requires Valid() && 0 <= at < |data|
      modifies this, block
      ensures Valid() && at < next <= |data| && Message() == old(Message()) + data[at..next]
    {
      hide Fold, Whole;
      var room := BLOCK - blockLength;
      var take := if |data| - at < room then |data| - at else room;
      next := at + take;
      ghost var held, piece, before := block[..blockLength], data[at..next], done;
      Copy(data, at, take);
      blockLength := blockLength + take;
      assert block[..blockLength] == held + piece;
      if blockLength == BLOCK {
        assert block[..] == block[..BLOCK];
        Flush();
        assert done == before + (held + piece);
      }
    }

    method Copy(data: seq<Byte>, at: int, take: int)
      requires block.Length == BLOCK && 0 <= blockLength && 0 <= take && blockLength + take <= BLOCK && 0 <= at && at + take <= |data|
      modifies block
      ensures block[..blockLength + take] == old(block[..blockLength]) + data[at..at + take]
    {
      for i := 0 to take
        invariant block[..blockLength + i] == old(block[..blockLength]) + data[at..at + i]
      {
        block[blockLength + i] := data[at + i];
      }
    }

    method Update(data: seq<Byte>)
      requires Valid()
      modifies this, block
      ensures Valid() && Message() == old(Message()) + data
    {
      hide Fold, Whole;
      ghost var before := Message();
      assert data[..0] == [];
      var at := 0;
      while at < |data|
        invariant 0 <= at <= |data| && Valid() && Message() == before + data[..at]
        decreases |data| - at
      {
        var next := Absorb(data, at);
        assert data[..next] == data[..at] + data[at..next];
        at := next;
      }
      assert data[..at] == data;
    }

    // sha256_final
    method Final() returns (digest: seq<Byte>)
      requires Valid()
      modifies this, block
      ensures digest == Digest(old(Message()))
    {
      hide Fold, Compress, Output, LengthBytes, Pad, Zeros, Whole;
      ghost var m, held := Message(), block[..blockLength];
      CountTail(|done|, blockLength);
      HeldLength(done, held);
      var bits := (bitCount + blockLength * 8) % 0x1_0000_0000_0000_0000;
      block[blockLength] := 0x80;
      blockLength := blockLength + 1;
      assert block[..blockLength] == held + [0x80];
      if blockLength > 56 {
        Spill();
      }
      ghost var tail := block[..blockLength];
      Seal(bits);
      Padded(m, old(done), done, held, tail, bits);
      FoldMore(INITIAL, done, block[..]);
      Transform();
      digest := Output(state);
    }

    // No room for the length: the block is filled up and compressed.
    method Spill()
      requires block.Length == BLOCK && 0 <= blockLength <= BLOCK && Whole(done) && state == Fold(INITIAL, done)
      modifies this`state, this`blockLength, this`done, block
      ensures blockLength == 0 && Whole(done) && state == Fold(INITIAL, done)
      ensures done == old(done) + (old(block[..blockLength]) + Zeros(BLOCK - old(blockLength)))
    {
      hide Fold, Compress, Zeros, Whole;
      Blank(BLOCK);
      assert block[..] == block[..BLOCK];
      FoldMore(INITIAL, done, block[..]);
      Transform();
      done := done + block[..];
      blockLength := 0;
    }

    // Zeros and the length complete the last block.
    method Seal(bits: int)
      requires block.Length == BLOCK && 0 <= blockLength <= 56
      modifies this`blockLength, block
      ensures block[..] == old(block[..blockLength]) + Zeros(56 - old(blockLength)) + LengthBytes(bits)
    {
      hide Zeros, LengthBytes;
      Blank(56);
      ghost var front := block[..56];
      for i := 0 to 8
        invariant block[..56] == front
        invariant forall j :: 64 - i <= j < 64 ==> block[j] == LengthBytes(bits)[j - 56]
      {
        LengthByte(bits, 7 - i);
        block[63 - i] := bits / Power(i) % 256;
      }
      assert block[56..] == LengthBytes(bits);
      assert block[..] == block[..56] + block[56..];
    }

    // The buffer is filled with zeros up to an end.
    method Blank(end: int)
      requires block.Length == BLOCK && 0 <= blockLength <= end <= BLOCK
      modifies this`blockLength, block
      ensures blockLength == end && block[..end] == old(block[..blockLength]) + Zeros(end - old(blockLength))
    {
      ghost var start := blockLength;
      while blockLength < end
        invariant start <= blockLength <= end && block[..blockLength] == old(block[..start]) + Zeros(blockLength - start)
      {
        block[blockLength] := 0;
        blockLength := blockLength + 1;
      }
    }
  }

  lemma ScheduleStep(s: seq<Byte>, i: int)
    requires |s| == BLOCK && 16 <= i < 64
    ensures Schedule(s, i) == Expand(Schedule(s, i - 16), Schedule(s, i - 15), Schedule(s, i - 7), Schedule(s, i - 2))
  {
    hide Expand, Load;
  }

  lemma ScheduleStart(s: seq<Byte>, i: int)
    requires |s| == BLOCK && 0 <= i < 16
    ensures Schedule(s, i) == Load(s, 4 * i)
  {
    hide Expand, Load;
  }

  lemma CountMore(n: nat)
    ensures (8 * n % 0x1_0000_0000_0000_0000 + 512) % 0x1_0000_0000_0000_0000 == 8 * (n + BLOCK) % 0x1_0000_0000_0000_0000
  {
  }

  lemma CountTail(n: nat, r: nat)
    ensures (8 * n % 0x1_0000_0000_0000_0000 + r * 8) % 0x1_0000_0000_0000_0000 == 8 * (n + r) % 0x1_0000_0000_0000_0000
  {
  }

  lemma LengthByte(bits: int, i: int)
    requires 0 <= i < 8
    ensures LengthBytes(bits)[i] == bits / Power(7 - i) % 256
  {
  }

  lemma HeldLength(done: seq<Byte>, held: seq<Byte>)
    requires Whole(done) && |held| < BLOCK
    ensures |done + held| % 64 == |held|
  {
  }

  lemma ZerosMore(a: nat, b: nat)
    ensures Zeros(a) + Zeros(b) == Zeros(a + b)
  {
  }

  // The blocks that are compressed are those of the padded message.
  lemma Padded(m: seq<Byte>, done: seq<Byte>, done': seq<Byte>, held: seq<Byte>, tail: seq<Byte>, bits: int)
    requires m == done + held && |m| % 64 == |held| < BLOCK && bits == 8 * |m| % 0x1_0000_0000_0000_0000
    requires |held| < 56 ==> done' == done && tail == held + [0x80]
    requires |held| >= 56 ==> done' == done + (held + [0x80] + Zeros(BLOCK - |held| - 1)) && tail == []
    ensures |tail| <= 56 && done' + (tail + Zeros(56 - |tail|) + LengthBytes(bits)) == Pad(m)
  {
    hide Zeros, LengthBytes;
    if |held| < 56 {
      assert Filler(|m|) == 55 - |held|;
    } else {
      assert Filler(|m|) == 119 - |held|;
      ZerosMore(BLOCK - |held| - 1, 56);
    }
  }

  // However a message is cut into pieces, its digest is that of the whole.
  function Flatten(pieces: seq<seq<Byte>>): seq<Byte> {
    if pieces == [] then [] else pieces[0] + Flatten(pieces[1..])
  }

  lemma FlattenNext(pieces: seq<seq<Byte>>, i: int)
    requires 0 <= i < |pieces|
    ensures Flatten(pieces[i..]) == pieces[i] + Flatten(pieces[i + 1..])
  {
    assert pieces[i..][0] == pieces[i] && pieces[i..][1..] == pieces[i + 1..];
  }

  method Hash(pieces: seq<seq<Byte>>) returns (digest: seq<Byte>)
    ensures digest == Digest(Flatten(pieces))
  {
    hide Fold, Whole, Digest;
    var c := new Context();
    assert pieces[0..] == pieces;
    for i := 0 to |pieces|
      invariant c.Valid() && fresh(c) && fresh(c.block) && c.Message() + Flatten(pieces[i..]) == Flatten(pieces)
    {
      FlattenNext(pieces, i);
      c.Update(pieces[i]);
    }
    assert pieces[|pieces|..] == [] && Flatten([]) == [];
    ghost var m := c.Message();
    assert m + [] == m == Flatten(pieces);
    digest := c.Final();
  }
}
