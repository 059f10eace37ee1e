/**
 What the instructions of the filter machine do (kernel/core/seccomp.c, `bpf_run`),
 each as a law on numbers and bits, and what a whole program then answers.
 */
module BpfLaws {
  import opened Bpf
  import opened Words
  import LittleEndian

  ghost predicate Machine(s: State, data: seq<Word>) {
    |s.mem| == 16 && |data| == 16
  }

  // The instruction works on v: its own constant, or the index register.
  ghost predicate On(op: Insn, s: State, code: int, v: Word) {
    (op.code == code && v == op.k) || (op.code == code + 8 && v == s.x)
  }

  // The accumulator after an instruction that changes nothing else.
  ghost predicate Gives(op: Insn, s: State, data: seq<Word>, a: int)
    requires Machine(s, data)
  {
    var e := Step(op, s, data);
    e.Go? && e.skip == 0 && e.state.a == a && e.state.x == s.x && e.state.mem == s.mem
  }

  // ---------------------------------------------------------------------------
  // Arithmetic
  // ---------------------------------------------------------------------------

  lemma Sum(op: Insn, s: State, data: seq<Word>, v: Word)
    requires Machine(s, data) && On(op, s, 0x04, v)
    ensures Gives(op, s, data, (s.a + v) % 0x1_0000_0000)
  {
  }

  lemma Difference(op: Insn, s: State, data: seq<Word>, v: Word)
    requires Machine(s, data) && On(op, s, 0x14, v)
    ensures Gives(op, s, data, (s.a - v) % 0x1_0000_0000)
  {
  }

  lemma Product(op: Insn, s: State, data: seq<Word>, v: Word)
    requires Machine(s, data) && On(op, s, 0x24, v)
    ensures Gives(op, s, data, (s.a * v) % 0x1_0000_0000)
  {
  }

  lemma Negation(op: Insn, s: State, data: seq<Word>)
    requires Machine(s, data) && op.code == 0x84
    ensures Gives(op, s, data, if s.a == 0 then 0 else 0x1_0000_0000 - s.a)
  {
  }

  // Subtracting undoes adding.
  lemma SubUndoesAdd(add: Insn, sub: Insn, s: State, data: seq<Word>, v: Word)
    requires Machine(s, data) && On(add, s, 0x04, v) && On(sub, s, 0x14, v)
    ensures var e := Step(add, s, data); e.Go? && Step(sub, e.state, data) == Go(s, 0)
  {
    Sum(add, s, data, v);
    AddBack(s.a, v);
    hide Step;
    var t := Step(add, s, data).state;
    Difference(sub, t, data, v);
    assert Step(sub, t, data).state == s;
  }

  lemma AddBack(a: Word, v: Word)
    ensures ((a + v) % 0x1_0000_0000 - v) % 0x1_0000_0000 == a
  {
    var w := 0x1_0000_0000;
    if a + v < w {
      LittleEndian.Unique(a + v, w, 0, a + v);
      LittleEndian.Unique(a, w, 0, a);
    } else {
      LittleEndian.Unique(a + v, w, 1, a + v - w);
      LittleEndian.Unique(a - w, w, -1, a);
    }
  }

  // Quotient and remainder; both are 0 for a divisor of 0.
  lemma DivAndMod(div: Insn, mod: Insn, s: State, data: seq<Word>, v: Word) returns (q: int, r: int)
    requires Machine(s, data) && On(div, s, 0x34, v) && On(mod, s, 0x94, v)
    ensures Gives(div, s, data, q) && Gives(mod, s, data, r)
    ensures if v == 0 then q == r == 0 else s.a == q * v + r && 0 <= r < v
  {
    hide Gives, On;
    q := Quotients(div, s, data, v);
    r := Remainders(mod, s, data, v);
  }

  lemma Quotients(op: Insn, s: State, data: seq<Word>, v: Word) returns (q: int)
    requires Machine(s, data) && On(op, s, 0x34, v)
    ensures Gives(op, s, data, q) && if v == 0 then q == 0 else q == s.a / v
  {
    q := if v == 0 then 0 else Quotient(s.a, v);
  }

  lemma Remainders(op: Insn, s: State, data: seq<Word>, v: Word) returns (r: int)
    requires Machine(s, data) && On(op, s, 0x94, v)
    ensures Gives(op, s, data, r) && if v == 0 then r == 0 else 0 <= r < v && s.a == s.a / v * v + r
  {
    r := if v == 0 then 0 else s.a % v;
  }

  // ---------------------------------------------------------------------------
  // Bits
  // ---------------------------------------------------------------------------

  lemma Bitwise(op: Insn, s: State, data: seq<Word>, v: Word, i: nat)
    requires Machine(s, data) && i < 32 && (On(op, s, 0x44, v) || On(op, s, 0x54, v) || On(op, s, 0xA4, v))
    ensures var e := Step(op, s, data);
            && e.Go? && Gives(op, s, data, e.state.a)
            && (On(op, s, 0x44, v) ==> (Bit(e.state.a, i) <==> Bit(s.a, i) || Bit(v, i)))
            && (On(op, s, 0x54, v) ==> (Bit(e.state.a, i) <==> Bit(s.a, i) && Bit(v, i)))
            && (On(op, s, 0xA4, v) ==> (Bit(e.state.a, i) <==> Bit(s.a, i) != Bit(v, i)))
  {
    hide Bit, And, Or, Xor;
    AndBit(s.a, v, i);
    OrBit(s.a, v, i);
    XorBit(s.a, v, i);
  }

  // A shift multiplies or divides by a power of two; 32 places or more leave 0.
  lemma Shifts(op: Insn, s: State, data: seq<Word>, v: Word)
    requires Machine(s, data)
    ensures On(op, s, 0x64, v) ==> Gives(op, s, data, if v < 32 then s.a * Pow2(v) % 0x1_0000_0000 else 0)
    ensures On(op, s, 0x74, v) ==> Gives(op, s, data, if v < 32 then s.a / Pow2(v) else 0)
  {
    hide ShiftLeft, ShiftRight, Pow2;
    if v < 32 {
      ShiftLeftIs(s.a, v);
      ShiftRightIs(s.a, v);
    }
  }

  // ---------------------------------------------------------------------------
  // Jumps
  // ---------------------------------------------------------------------------

  ghost predicate Jumps(op: Insn, s: State, data: seq<Word>, taken: bool)
    requires Machine(s, data)
  {
    Step(op, s, data) == Go(s, if taken then op.jt else op.jf)
  }

  // A conditional jump takes jt exactly when its relation holds, and changes no register.
  lemma Conditions(op: Insn, s: State, data: seq<Word>, v: Word)
    requires Machine(s, data)
    ensures On(op, s, 0x15, v) ==> Jumps(op, s, data, s.a == v)
    ensures On(op, s, 0x25, v) ==> Jumps(op, s, data, s.a > v)
    ensures On(op, s, 0x35, v) ==> Jumps(op, s, data, s.a >= v)
    ensures On(op, s, 0x45, v) ==> Jumps(op, s, data, exists i: nat :: i < 32 && Bit(s.a, i) && Bit(v, i))
    ensures op.code == 0x05 ==> Step(op, s, data) == Go(s, op.k % 0x1_0000)
  {
    hide And, Bit;
    AndNonzero(s.a, v);
  }

  // ---------------------------------------------------------------------------
  // Memory, registers and returns
  // ---------------------------------------------------------------------------

  // A word stored from either register comes back into either one, and no other word
  // of scratch memory has changed; outside the sixteen words the filter is stopped.
  lemma StoreThenLoad(store: Insn, load: Insn, s: State, data: seq<Word>)
    requires Machine(s, data) && (store.code == 0x02 || store.code == 0x03) && (load.code == 0x60 || load.code == 0x61)
    ensures store.k >= 16 ==> Step(store, s, data) == Return(0x8000_0000)
    ensures load.k >= 16 ==> Step(load, s, data) == Return(0x8000_0000)
    ensures store.k < 16 && load.k < 16 ==>
              var e := Step(store, s, data);
              && e.Go? && e.skip == 0 && e.state.a == s.a && e.state.x == s.x && |e.state.mem| == 16
              && var v := if load.k != store.k then s.mem[load.k] else if store.code == 0x02 then s.a else s.x;
                 Step(load, e.state, data) == Go(if load.code == 0x60 then e.state.(a := v) else e.state.(x := v), 0)
  {
  }

  // The other loads, the moves between the registers, and the two returns.
  lemma LoadsAndReturns(op: Insn, s: State, data: seq<Word>)
    requires Machine(s, data)
    ensures op.code == 0x20 && op.k > 60 ==> Step(op, s, data) == Return(0x8000_0000)
    ensures op.code == 0x20 && op.k % 4 != 0 ==> Step(op, s, data) == Return(0x8000_0000)
    ensures forall i :: op.code == 0x20 && op.k == 4 * i && 0 <= i < 16 ==> Gives(op, s, data, data[i])
    ensures op.code == 0x00 ==> Gives(op, s, data, op.k)
    ensures op.code == 0x80 ==> Gives(op, s, data, 64)
    ensures op.code == 0x87 ==> Gives(op, s, data, s.x)
    ensures op.code == 0x01 ==> Step(op, s, data) == Go(State(s.a, op.k, s.mem), 0)
    ensures op.code == 0x81 ==> Step(op, s, data) == Go(State(s.a, 64, s.mem), 0)
    ensures op.code == 0x07 ==> Step(op, s, data) == Go(State(s.a, s.a, s.mem), 0)
    ensures op.code == 0x06 ==> Step(op, s, data) == Return(op.k)
    ensures op.code == 0x16 ==> Step(op, s, data) == Return(s.a)
  {
    forall i | op.code == 0x20 && op.k == 4 * i && 0 <= i < 16 ensures Gives(op, s, data, data[i]) {
      assert op.k / 4 == i && op.k % 4 == 0;
    }
  }

  // Any other code stops the filter: the arithmetic has ten operations with two
  // sources each and a negation, the jumps four with two sources and a plain one.
  lemma OtherCodes(op: Insn, s: State, data: seq<Word>)
    requires Machine(s, data) && WellTyped(op)
    requires !(op.code % 8 == 4 && op.code < 0xB0 && op.code / 16 != 8) && op.code != 0x84
    requires !(op.code % 8 == 5 && 0x10 <= op.code < 0x50) && op.code != 0x05
    requires op.code !in {0x00, 0x20, 0x60, 0x80, 0x01, 0x61, 0x81, 0x02, 0x03, 0x06, 0x16, 0x07, 0x87}
    ensures Step(op, s, data) == Return(0x8000_0000)
  {
  }

  // ---------------------------------------------------------------------------
  // Verdicts
  // ---------------------------------------------------------------------------

  // The eight actions from the strictest to the laxest, whatever data comes with them.
  lemma ActionOrder(d: int, e: int)
    requires 0 <= d < 0x1_0000 && 0 <= e < 0x1_0000
    ensures Rank(0x8000_0000 + d) > Rank(e)
    ensures Rank(d) > Rank(0x0003_0000 + e)
    ensures Rank(0x0003_0000 + d) > Rank(0x0005_0000 + e)
    ensures Rank(0x0005_0000 + d) > Rank(0x7FC0_0000 + e)
    ensures Rank(0x7FC0_0000 + d) > Rank(0x7FF0_0000 + e)
    ensures Rank(0x7FF0_0000 + d) > Rank(0x7FFC_0000 + e)
    ensures Rank(0x7FFC_0000 + d) > Rank(0x7FFF_0000 + e)
  {
    ActionOf(0x8000, d);
    ActionOf(0, d);
    ActionOf(0, e);
    ActionOf(3, d);
    ActionOf(3, e);
    ActionOf(5, d);
    ActionOf(5, e);
    ActionOf(0x7FC0, d);
    ActionOf(0x7FC0, e);
    ActionOf(0x7FF0, d);
    ActionOf(0x7FF0, e);
    ActionOf(0x7FFC, d);
    ActionOf(0x7FFC, e);
    ActionOf(0x7FFF, e);
  }

  // An action that is none of them is as strict as ending the thread.
  lemma UnknownAction(high: int, d: int)
    requires 0 <= high < 0x1_0000 && 0 <= d < 0x1_0000
    requires high !in {0x8000, 0, 3, 5, 0x7FC0, 0x7FF0, 0x7FFC, 0x7FFF}
    ensures Rank(high * 0x1_0000 + d) == Rank(0)
  {
    ActionOf(high, d);
  }

  lemma ActionOf(high: int, d: int)
    requires 0 <= high < 0x1_0000 && 0 <= d < 0x1_0000
    ensures Action(high * 0x1_0000 + d) == high * 0x1_0000
  {
    LittleEndian.Unique(high * 0x1_0000 + d, 0x1_0000, high, d);
  }

  // ---------------------------------------------------------------------------
  // Whole programs
  // ---------------------------------------------------------------------------

  // A filter starts with both registers and its scratch memory at zero.
  lemma StartsAtZero(data: seq<Word>, j: Word)
    requires |data| == 16 && j < 16
    ensures var p := [Insn(0x16, 0, 0, 0)]; Accepted(p) && Verdict(p, data) == 0
    ensures var p := [Insn(0x87, 0, 0, 0), Insn(0x16, 0, 0, 0)]; Accepted(p) && Verdict(p, data) == 0
    ensures var p := [Insn(0x60, 0, 0, j), Insn(0x16, 0, 0, 0)]; Accepted(p) && Verdict(p, data) == 0
  {
    var p0, p1, p2 := [Insn(0x16, 0, 0, 0)], [Insn(0x87, 0, 0, 0), Insn(0x16, 0, 0, 0)], [Insn(0x60, 0, 0, j), Insn(0x16, 0, 0, 0)];
    assert Sound(p0, 0) && Sound(p1, 0) && Sound(p1, 1) && Sound(p2, 0) && Sound(p2, 1);
    assert Exec(p0, 0, START, data).value == 0;
    assert Exec(p1, 1, START, data).value == 0;
    assert START.mem[j] == 0;
    assert Exec(p2, 1, START, data).value == 0;
  }

  // Stop the process when word i of the data is above k, allow it otherwise.
  function Above(i: int, k: Word): Program
    requires 0 <= i < 16
  {
    [Insn(0x20, 0, 0, 4 * i), Insn(0x25, 0, 1, k), Insn(0x06, 0, 0, 0x8000_0000), Insn(0x06, 0, 0, 0x7FFF_0000)]
  }

  lemma AboveAnswers(i: int, k: Word, data: seq<Word>)
    requires 0 <= i < 16 && |data| == 16
    ensures Accepted(Above(i, k)) && Verdict(Above(i, k), data) == if data[i] > k then 0x8000_0000 else 0x7FFF_0000
  {
    var p := Above(i, k);
    assert Sound(p, 0) && Sound(p, 1) && Sound(p, 2) && Sound(p, 3);
    var s := START.(a := data[i]);
    assert Step(p[0], START, data) == Go(s, 0) by {
      LoadsAndReturns(p[0], START, data);
    }
    Conditions(p[1], s, data, k);
    LoadsAndReturns(p[2], s, data);
    LoadsAndReturns(p[3], s, data);
    hide Step, Accepted, ValidOpcode;
    assert Exec(p, 2, s, data).value == 0x8000_0000 && Exec(p, 3, s, data).value == 0x7FFF_0000;
    assert Exec(p, 1, s, data).value == if data[i] > k then 0x8000_0000 else 0x7FFF_0000;
  }
}
