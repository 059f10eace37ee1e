/**
 System call filters (kernel/core/seccomp.c): the classic BPF interpreter and
 checker, and the decision over a chain of filters.

 A word is a number below 2^32.  The data a filter reads is sixteen words.
 */
module Bpf {
  import opened Errno
  import opened Words

  const MEMWORDS: int := 16
  const MAXINSNS: int := 4096
  const DATA_BYTES: int := 64
  const WORDS: int := 0x1_0000_0000

  const KILL_PROCESS: Word := 0x8000_0000
  const ALLOW: Word := 0x7FFF_0000

  type Word = U32

  datatype Insn = Insn(code: int, jt: int, jf: int, k: Word)

  predicate WellTyped(op: Insn) {
    0 <= op.code < 0x1_0000 && 0 <= op.jt < 256 && 0 <= op.jf < 256
  }

  type Program = seq<Insn>

  datatype State = State(a: Word, x: Word, mem: seq<Word>)

  // An instruction returns, or moves on and skips some of the next ones.
  datatype Effect = Return(value: Word) | Go(state: State, skip: int)

  // ---------------------------------------------------------------------------
  // One instruction
  // ---------------------------------------------------------------------------

  function Class(code: int): int { code % 8 }

  // The mode bits, 0xE0.
  function Mode(code: int): int { code / 32 % 8 * 32 }

  predicate FromX(code: int) { code / 8 % 2 == 1 }

  // The arithmetic on the accumulator, by operation bits 0xF0.
  function Alu(op: int, a: Word, b: Word): Word {
    if op == 0x00 then (a + b) as int % WORDS
    else if op == 0x10 then (a as int - b as int) % WORDS
    else if op == 0x20 then (a as int * b as int) % WORDS
    else if op == 0x30 then (if b == 0 then 0 else Quotient(a, b))
    else if op == 0x40 then Or(a, b)
    else if op == 0x50 then And(a, b)
    else if op == 0x60 then (if b < 32 then ShiftLeft(a, b) else 0)
    else if op == 0x70 then (if b < 32 then ShiftRight(a, b) else 0)
    else if op == 0x90 then (if b == 0 then 0 else a % b)
    else Xor(a, b)
  }

  function Quotient(a: Word, b: Word): Word
    requires b != 0
  {
    assert 0 <= a as int / b as int <= a;
    a / b
  }

  predicate Test(op: int, a: Word, b: Word) {
    if op == 0x10 then a == b
    else if op == 0x20 then a > b
    else if op == 0x30 then a >= b
    else And(a, b) != 0
  }

  // The codes the interpreter has a case for.
  predicate ValidOpcode(code: int) {
    || code in {0x20, 0x80, 0x00, 0x60, 0x81, 0x01, 0x61, 0x02, 0x03}
    || (Class(code) == 4 && code in {0x04, 0x14, 0x24, 0x34, 0x44, 0x54, 0x64, 0x74, 0x94, 0xA4,
                                      0x0C, 0x1C, 0x2C, 0x3C, 0x4C, 0x5C, 0x6C, 0x7C, 0x9C, 0xAC, 0x84})
    || (Class(code) == 5 && code in {0x05, 0x15, 0x25, 0x35, 0x45, 0x1D, 0x2D, 0x3D, 0x4D})
    || code in {0x06, 0x16, 0x07, 0x87}
  }

  function Step(op: Insn, s: State, data: seq<Word>): (e: Effect)
    requires |s.mem| == MEMWORDS && |data| == DATA_BYTES / 4
    ensures e.Go? ==> |e.state.mem| == MEMWORDS && (WellTyped(op) ==> e.skip >= 0)
  {
    var k := op.k;
    if !ValidOpcode(op.code) then Return(KILL_PROCESS)
    else if op.code == 0x20 then
      if k > DATA_BYTES - 4 || k % 4 != 0 then Return(KILL_PROCESS) else Go(s.(a := data[k / 4]), 0)
    else if op.code == 0x80 then Go(s.(a := DATA_BYTES), 0)
    else if op.code == 0x00 then Go(s.(a := k), 0)
    else if op.code == 0x60 then
      if k >= MEMWORDS then Return(KILL_PROCESS) else Go(s.(a := s.mem[k]), 0)
    else if op.code == 0x81 then Go(s.(x := DATA_BYTES), 0)
    else if op.code == 0x01 then Go(s.(x := k), 0)
    else if op.code == 0x61 then
      if k >= MEMWORDS then Return(KILL_PROCESS) else Go(s.(x := s.mem[k]), 0)
    else if op.code == 0x02 then
      if k >= MEMWORDS then Return(KILL_PROCESS) else Go(s.(mem := s.mem[k := s.a]), 0)
    else if op.code == 0x03 then
      if k >= MEMWORDS then Return(KILL_PROCESS) else Go(s.(mem := s.mem[k := s.x]), 0)
    else if op.code == 0x84 then Go(s.(a := (WORDS - s.a as int) % WORDS), 0)
    else if Class(op.code) == 4 then
      Go(s.(a := Alu(op.code / 16 * 16, s.a, if FromX(op.code) then s.x else k)), 0)
    else if op.code == 0x05 then Go(s, k % 0x1_0000)
    else if Class(op.code) == 5 then
      Go(s, if Test(op.code / 16 * 16, s.a, if FromX(op.code) then s.x else k) then op.jt else op.jf)
    else if op.code == 0x06 then Return(k)
    else if op.code == 0x16 then Return(s.a)
    else if op.code == 0x07 then Go(s.(x := s.a), 0)
    else Go(s.(a := s.x), 0)
  }

  // ---------------------------------------------------------------------------
  // The checker
  // ---------------------------------------------------------------------------

  // A jump lands inside the program; a load from scratch memory names a word of it.
  predicate Sound(program: Program, pc: int)
    requires 0 <= pc < |program|
  {
    var op := program[pc];
    var left := |program| - pc - 1;
    && ValidOpcode(op.code)
    && (Class(op.code) == 5 ==> if op.code == 0x05 then op.k < left else op.jt < left && op.jf < left)
    && ((op.code == 0x60 || op.code == 0x61) ==> op.k < MEMWORDS)
  }

  predicate Accepted(program: Program) {
    && 0 < |program| <= 4096
    && (forall pc :: 0 <= pc < |program| ==> WellTyped(program[pc]) && Sound(program, pc))
    && Class(program[|program| - 1].code) == 6
  }

  method Check(program: Program) returns (code: int)
    requires forall pc :: 0 <= pc < |program| ==> WellTyped(program[pc])
    ensures code == 0 || code == -EINVAL
    ensures code == 0 <==> Accepted(program)
  {
    var length := |program|;
    if length == 0 || length > MAXINSNS {
      return -EINVAL;
    }
    for pc := 0 to length
      invariant forall i :: 0 <= i < pc ==> Sound(program, i)
    {
      var op := program[pc];
      if !ValidOpcode(op.code) {
        return -EINVAL;
      }
      if Class(op.code) == 5 {
        if op.code == 0x05 {
          if op.k >= length - pc - 1 {
            return -EINVAL;
          }
        } else {
          if op.jt >= length - pc - 1 || op.jf >= length - pc - 1 {
            return -EINVAL;
          }
        }
      }
      if (Class(op.code) == 0 || Class(op.code) == 1 || op.code == 0x02 || op.code == 0x03)
         && Mode(op.code) == 0x60 && op.k >= MEMWORDS {
        return -EINVAL;
      }
    }
    if Class(program[length - 1].code) != 6 {
      return -EINVAL;
    }
    return 0;
  }

  // The memory clause names stores too, but a store has no mode bits: only the
  // interpreter stops a store outside scratch memory.
  lemma StoresAreNotChecked(k: Word)
    ensures Accepted([Insn(0x02, 0, 0, k), Insn(0x06, 0, 0, ALLOW)])
  {
    var p := [Insn(0x02, 0, 0, k), Insn(0x06, 0, 0, ALLOW)];
    assert Sound(p, 0) && Sound(p, 1);
  }

  // ---------------------------------------------------------------------------
  // Running
  // ---------------------------------------------------------------------------

  // The run from pc: what it returns, after how many instructions, and whether it ran
  // off the end.
  datatype Run = Run(value: Word, steps: nat, fell: bool)

  function Exec(program: Program, pc: int, s: State, data: seq<Word>): (r: Run)
    requires |s.mem| == MEMWORDS && |data| == DATA_BYTES / 4 && 0 <= pc
    requires forall i :: 0 <= i < |program| ==> WellTyped(program[i])
    decreases |program| - pc
  {
    if pc >= |program| then Run(KILL_PROCESS, 0, true)
    else
      match Step(program[pc], s, data)
      case Return(v) => Run(v, 1, false)
      case Go(s', skip) =>
        var r := Exec(program, pc + 1 + skip, s', data);
        Run(r.value, r.steps + 1, r.fell)
  }

  lemma Typed(program: Program)
    requires Accepted(program)
    ensures |program| > 0 && forall i :: 0 <= i < |program| ==> WellTyped(program[i])
  {
  }

  // In an accepted program the next instruction is a later one, and there is one.
  lemma StaysInside(program: Program, pc: int, s: State, data: seq<Word>)
    requires Accepted(program) && 0 <= pc < |program| && |s.mem| == MEMWORDS && |data| == DATA_BYTES / 4
    ensures var e := Step(program[pc], s, data); e.Go? ==> e.skip >= 0 && pc + 1 + e.skip < |program|
  {
    var op := program[pc];
    assert Sound(program, pc) && WellTyped(op);
    if pc == |program| - 1 {
      assert op.code in {0x06, 0x16};
    } else if op.code == 0x05 {
      assert op.k % 0x1_0000 == op.k;
    }
  }

  // An accepted program returns, within one instruction per line it has.
  lemma {:induction false} AcceptedReturns(program: Program, pc: int, s: State, data: seq<Word>)
    requires Accepted(program) && 0 <= pc < |program| && |s.mem| == MEMWORDS && |data| == DATA_BYTES / 4
    ensures var r := Exec(program, pc, s, data); !r.fell && 1 <= r.steps <= |program| - pc
    decreases |program| - pc
  {
    hide Step, Accepted, ValidOpcode, WellTyped;
    Typed(program);
    StaysInside(program, pc, s, data);
    match Step(program[pc], s, data)
    case Return(v) =>
    case Go(s', skip) => AcceptedReturns(program, pc + 1 + skip, s', data);
  }

  const START: State := State(0, 0, [0, 0, 0, 0, 0, 0, 0, 0, 0, 0, 0, 0, 0, 0, 0, 0])

  // bpf_run on a program the checker accepted.
  method BpfRun(program: Program, data: seq<Word>) returns (value: Word, ghost steps: nat)
    requires Accepted(program) && |data| == DATA_BYTES / 4
    ensures value == Verdict(program, data) && steps == Exec(program, 0, START, data).steps <= |program|
  {
    hide Step, Accepted, ValidOpcode, WellTyped;
    Typed(program);
    var s, pc := START, 0;
    steps := 0;
    AcceptedReturns(program, 0, s, data);
    while pc < |program|
      invariant 0 <= pc < |program| && |s.mem| == MEMWORDS && steps <= pc
      invariant Exec(program, 0, START, data).value == Exec(program, pc, s, data).value
      invariant Exec(program, 0, START, data).steps == steps + Exec(program, pc, s, data).steps
      decreases |program| - pc
    {
      StaysInside(program, pc, s, data);
      steps := steps + 1;
      match Step(program[pc], s, data) {
        case Return(v) => return v, steps;
        case Go(next, skip) =>
          s := next;
          pc := pc + skip;
      }
      pc := pc + 1;
    }
    return KILL_PROCESS, steps;
  }

  // ---------------------------------------------------------------------------
  // The decision
  // ---------------------------------------------------------------------------

  function Action(value: Word): int {
    value / 0x1_0000 * 0x1_0000
  }

  // Higher is stricter.
  function Rank(value: Word): (r: int)
    ensures 0 <= r <= 7
  {
    var action := Action(value);
    if action == 0x8000_0000 then 7
    else if action == 0x0000_0000 then 6
    else if action == 0x0003_0000 then 5
    else if action == 0x0005_0000 then 4
    else if action == 0x7FC0_0000 then 3
    else if action == 0x7FF0_0000 then 2
    else if action == 0x7FFC_0000 then 1
    else if action == 0x7FFF_0000 then 0
    else 6
  }

  function Verdict(program: Program, data: seq<Word>): Word
    requires Accepted(program) && |data| == DATA_BYTES / 4
  {
    Exec(program, 0, START, data).value
  }

  // The strictest verdict of a chain; the newest filter wins a tie.
  ghost predicate Strictest(filters: seq<Program>, data: seq<Word>, best: Word)
    requires |data| == DATA_BYTES / 4 && forall i :: 0 <= i < |filters| ==> Accepted(filters[i])
  {
    && (forall i :: 0 <= i < |filters| ==> Rank(Verdict(filters[i], data)) <= Rank(best))
    && (if Rank(best) == 0 then best == ALLOW
        else exists i :: 0 <= i < |filters| && Verdict(filters[i], data) == best
                         && forall j :: 0 <= j < i ==> Rank(Verdict(filters[j], data)) < Rank(best))
  }

  // seccomp_decide in filter mode.
  method Decide(filters: seq<Program>, data: seq<Word>) returns (best: Word)
    requires |data| == DATA_BYTES / 4 && forall i :: 0 <= i < |filters| ==> Accepted(filters[i])
    ensures Strictest(filters, data, best)
  {
    hide Accepted, Exec, Verdict;
    best := ALLOW;
    var bestRank := 0;
    assert Rank(ALLOW) == 0;
    hide Rank;
    for i := 0 to |filters|
      invariant bestRank == Rank(best) && (bestRank == 0 ==> best == ALLOW)
      invariant forall j :: 0 <= j < i ==> Rank(Verdict(filters[j], data)) <= bestRank
      invariant bestRank > 0 ==> exists k :: 0 <= k < i && Verdict(filters[k], data) == best
                                             && forall j :: 0 <= j < k ==> Rank(Verdict(filters[j], data)) < bestRank
    {
      var result, steps := BpfRun(filters[i], data);
      var rank := Rank(result);
      if rank > bestRank {
        bestRank := rank;
        best := result;
      }
    }
  }

  // The decision of a chain is determined, and a filter more never weakens it.
  lemma StrictestIsOne(filters: seq<Program>, data: seq<Word>, a: Word, b: Word)
    requires |data| == DATA_BYTES / 4 && forall i :: 0 <= i < |filters| ==> Accepted(filters[i])
    requires Strictest(filters, data, a) && Strictest(filters, data, b)
    ensures a == b
  {
    hide Accepted, Exec, Verdict, Rank;
    RankRange(a);
    RankRange(b);
    if Rank(a) != 0 || Rank(b) != 0 {
      RanksAgree(filters, data, a, b);
      RanksAgree(filters, data, b, a);
      var i :| 0 <= i < |filters| && Verdict(filters[i], data) == a
                && forall j :: 0 <= j < i ==> Rank(Verdict(filters[j], data)) < Rank(a);
      var k :| 0 <= k < |filters| && Verdict(filters[k], data) == b
                && forall j :: 0 <= j < k ==> Rank(Verdict(filters[j], data)) < Rank(b);
    }
  }

  lemma RanksAgree(filters: seq<Program>, data: seq<Word>, a: Word, b: Word)
    requires |data| == DATA_BYTES / 4 && forall i :: 0 <= i < |filters| ==> Accepted(filters[i])
    requires Strictest(filters, data, a) && Strictest(filters, data, b)
    ensures Rank(a) <= Rank(b)
  {
    hide Accepted, Exec, Verdict, Rank;
    RankRange(b);
  }

  lemma RankRange(value: Word)
    ensures 0 <= Rank(value) <= 7
  {
  }

  lemma AddingNeverWeakens(f: Program, filters: seq<Program>, data: seq<Word>, before: Word, after: Word)
    requires |data| == DATA_BYTES / 4 && Accepted(f) && forall i :: 0 <= i < |filters| ==> Accepted(filters[i])
    requires Strictest(filters, data, before) && Strictest([f] + filters, data, after)
    ensures Rank(after) >= Rank(before) && Rank(after) >= Rank(Verdict(f, data))
  {
    hide Accepted, Exec, Verdict, Rank;
    RankRange(before);
    RankRange(after);
    var more := [f] + filters;
    assert more[0] == f;
    if Rank(before) > 0 {
      var i :| 0 <= i < |filters| && Verdict(filters[i], data) == before
                && forall j :: 0 <= j < i ==> Rank(Verdict(filters[j], data)) < Rank(before);
      assert more[i + 1] == filters[i];
    }
  }
}
