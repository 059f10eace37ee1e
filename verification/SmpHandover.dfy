/**
 Handing processes from one CPU to another (kernel/core/process.c,
 `leave_process`, `process_finish_switch`, `activate_process`, `leave_for_idle`,
 `runnable`, `process_reap_deferred`).

 Every method is one step of one CPU.  The scheduler lock makes the steps that
 read another process's `on_cpu` atomic.  Ending a switch takes no lock and is two
 steps: the CPU clears its own fields, then stores the owner's flag.  `letting` is
 the owner between the two.

 A CPU keeps executing on the kernel stack of the process it left until the
 assembly code moves it to the new one.  `stacks` records whose stack that is.
 */
module SmpHandover {
  import opened Lists

  datatype Cpu = Cpu(current: Ref, switching: bool, owner: Ref, letting: Ref)

  datatype State = Ready | Running | Blocked | Zombie | Dead

  // The CPU runs p, or is still leaving p's stack.
  predicate Occupies(cpu: Cpu, p: Ref) {
    p != NULL && (cpu.current == p || (cpu.switching && cpu.owner == p))
  }

  // The same, or the CPU is about to store that it has left p.
  predicate Claims(cpu: Cpu, p: Ref) {
    p != NULL && (Occupies(cpu, p) || cpu.letting == p)
  }

  ghost predicate Exclusive(cpus: seq<Cpu>) {
    forall c, d, p :: 0 <= c < |cpus| && 0 <= d < |cpus| && Claims(cpus[c], p) && Claims(cpus[d], p) ==> c == d
  }

  ghost predicate Claimed(cpus: seq<Cpu>, p: Ref) {
    exists c :: 0 <= c < |cpus| && Claims(cpus[c], p)
  }

  ghost predicate Occupied(cpus: seq<Cpu>, p: Ref) {
    exists c :: 0 <= c < |cpus| && Occupies(cpus[c], p)
  }

  // `on_cpu` is set exactly for the processes some CPU occupies or is letting go.
  ghost predicate Recorded(cpus: seq<Cpu>, onCpu: map<Ref, bool>) {
    && (forall p :: p in onCpu ==> (onCpu[p] <==> Claimed(cpus, p)))
    && (forall p :: Claimed(cpus, p) ==> p in onCpu)
  }

  // The stack a CPU executes on, in terms of its own fields.
  ghost predicate OnOwnStack(cpu: Cpu, stack: Ref) {
    stack == NULL || Occupies(cpu, stack)
  }

  ghost predicate Balanced(cpu: Cpu) {
    cpu.switching <==> cpu.owner != NULL
  }

  predicate MayRun(cpu: Cpu, state: State, allowed: bool, onCpu: bool, p: Ref) {
    p != NULL && state == Ready && allowed && (!onCpu || p == cpu.current || p == cpu.owner)
  }

  // One CPU moves to new fields; the flags follow.
  lemma MoveCpu(cpus: seq<Cpu>, onCpu: map<Ref, bool>, c: int, cpu: Cpu, onCpu': map<Ref, bool>)
    requires Exclusive(cpus) && Recorded(cpus, onCpu) && 0 <= c < |cpus| && onCpu'.Keys == onCpu.Keys
    requires forall p :: Claims(cpu, p) ==> p in onCpu && (Claims(cpus[c], p) || !onCpu[p])
    requires forall p :: p in onCpu ==> (onCpu'[p] <==> Claims(cpu, p) || (onCpu[p] && !Claims(cpus[c], p)))
    ensures Exclusive(cpus[c := cpu]) && Recorded(cpus[c := cpu], onCpu')
  {
    var cpus' := cpus[c := cpu];
    forall p ensures Claimed(cpus', p) <==> Claims(cpu, p) || (Claimed(cpus, p) && !Claims(cpus[c], p)) {
      if Claims(cpu, p) {
        assert Claims(cpus'[c], p);
      }
      if d :| 0 <= d < |cpus| && d != c && Claims(cpus[d], p) {
        assert Claims(cpus'[d], p);
      }
    }
    forall d, p | 0 <= d < |cpus| && d != c && Claims(cpus[d], p) ensures !Claims(cpu, p) {
      assert Claimed(cpus, p);
    }
  }

  // A process that `runnable` lets CPU c take is on no other CPU, and no other CPU
  // executes on its stack.
  lemma NeverTakenTwice(cpus: seq<Cpu>, onCpu: map<Ref, bool>, stacks: seq<Ref>, c: int, d: int, p: Ref, state: State, allowed: bool)
    requires Exclusive(cpus) && Recorded(cpus, onCpu) && 0 <= c < |cpus| == |stacks| && 0 <= d < |cpus| && c != d
    requires p in onCpu && MayRun(cpus[c], state, allowed, onCpu[p], p)
    requires Balanced(cpus[c]) && OnOwnStack(cpus[d], stacks[d])
    ensures !Claims(cpus[d], p) && stacks[d] != p
  {
    assert Claims(cpus[d], p) ==> Claimed(cpus, p);
    assert onCpu[p] ==> Claims(cpus[c], p);
  }

  // A CPU may turn to p where it is not letting go of a process, and where it does not
  // execute on the stack of one it took since the switch began and would leave now.
  predicate MayTurn(cpu: Cpu, stack: Ref, p: Ref) {
    && cpu.letting == NULL
    && (!cpu.switching || cpu.current == NULL || cpu.current == p || stack == NULL || stack == cpu.owner || stack == p)
  }

  // Whoever is occupied is marked, always; who is marked is occupied, but for those
  // a CPU is about to let go.
  lemma MarkedIsOccupied(cpus: seq<Cpu>, onCpu: map<Ref, bool>)
    requires Recorded(cpus, onCpu)
    ensures forall p :: Occupied(cpus, p) ==> p in onCpu && onCpu[p]
    ensures forall p :: p in onCpu && onCpu[p] ==> Occupied(cpus, p) || LetGo(cpus, p)
    ensures (forall c :: 0 <= c < |cpus| ==> cpus[c].letting == NULL) ==> forall p :: p in onCpu ==> (onCpu[p] <==> Occupied(cpus, p))
  {
    forall p | Occupied(cpus, p) ensures p in onCpu && onCpu[p] {
      var c :| 0 <= c < |cpus| && Occupies(cpus[c], p);
      assert Claims(cpus[c], p);
    }
    forall p | p in onCpu && onCpu[p] ensures Occupied(cpus, p) || LetGo(cpus, p) {
      var c :| 0 <= c < |cpus| && Claims(cpus[c], p);
    }
  }

  ghost predicate LetGo(cpus: seq<Cpu>, p: Ref) {
    exists c :: 0 <= c < |cpus| && p != NULL && cpus[c].letting == p
  }

  // The fields of a CPU that turns to p (NULL for idle) ...
  ghost function Turned(cpu: Cpu, p: Ref): Cpu {
    if cpu.current == NULL || cpu.current == p then cpu.(current := p)
    else Cpu(p, true, if cpu.switching then cpu.owner else cpu.current, cpu.letting)
  }

  // ... and the flags with it: only a process left in mid-switch is let go at once.
  ghost function Flags(cpu: Cpu, p: Ref, onCpu: map<Ref, bool>): map<Ref, bool> {
    var left := if cpu.current in onCpu && cpu.current != p && cpu.current != Turned(cpu, p).owner
                then onCpu[cpu.current := false] else onCpu;
    if p in left then left[p := true] else left
  }

  // Turning to p leaves the CPU on the stack of a process it occupies exactly when
  // it may turn.
  lemma TurnKeepsStack(cpu: Cpu, stack: Ref, p: Ref)
    requires Balanced(cpu) && OnOwnStack(cpu, stack) && cpu.letting == NULL
    ensures OnOwnStack(Turned(cpu, p), stack) <==> MayTurn(cpu, stack, p)
  {
  }

  lemma TurnCpu(cpus: seq<Cpu>, onCpu: map<Ref, bool>, c: int, p: Ref)
    requires Exclusive(cpus) && Recorded(cpus, onCpu) && 0 <= c < |cpus| && Balanced(cpus[c]) && NULL !in onCpu
    requires cpus[c].letting == NULL && (p == NULL || (p in onCpu && (!onCpu[p] || Claims(cpus[c], p))))
    ensures cpus[c].current == NULL || cpus[c].current in onCpu
    ensures Exclusive(cpus[c := Turned(cpus[c], p)]) && Recorded(cpus[c := Turned(cpus[c], p)], Flags(cpus[c], p, onCpu))
    ensures Balanced(Turned(cpus[c], p)) && Flags(cpus[c], p, onCpu).Keys == onCpu.Keys
  {
    var cpu := cpus[c];
    forall q | Claims(cpu, q) ensures q in onCpu && onCpu[q] {
      assert Claimed(cpus, q);
    }
    if cpu.current != NULL {
      assert Claims(cpu, cpu.current);
    }
    MoveCpu(cpus, onCpu, c, Turned(cpu, p), Flags(cpu, p, onCpu));
  }

  lemma Alone(cpus: seq<Cpu>, c: int, p: Ref)
    requires Exclusive(cpus) && 0 <= c < |cpus| && Claims(cpus[c], p)
    ensures forall d :: 0 <= d < |cpus| && d != c ==> !Claims(cpus[d], p)
  {
  }

  datatype Step =
    | Take(p: Ref, allowed: bool)
    | Idle
    | MoveStack
    | Finish
    | Store
    | Change(p: Ref, state: State)
    | Die(p: Ref)
    | Spawn(p: Ref)
    | Reap

  class Machine {
    var cpus: seq<Cpu>
    var onCpu: map<Ref, bool>
    var state: map<Ref, State>
    var dead: seq<Ref>
    var stacks: seq<Ref>

    ghost predicate Valid()
      reads this
    {
      && Exclusive(cpus) && Recorded(cpus, onCpu)
      && NULL !in onCpu && state.Keys == onCpu.Keys && |stacks| == |cpus|
      && (forall c :: 0 <= c < |cpus| ==> Balanced(cpus[c]) && OnOwnStack(cpus[c], stacks[c]))
      && (forall c :: 0 <= c < |cpus| && cpus[c].letting != NULL ==> !Occupies(cpus[c], cpus[c].letting))
      && NoRepeats(dead) && (forall p :: p in dead ==> p in onCpu)
    }

    constructor (n: nat)
      ensures Valid() && |cpus| == n && onCpu == map[]
    {
      cpus := seq(n, _ => Cpu(NULL, false, NULL, NULL));
      onCpu, state, dead := map[], map[], [];
      stacks := seq(n, _ => NULL);
    }

    // The first process left in a switch keeps its stack until the switch is finished.
    method Leave(c: int, leaving: Ref)
      requires 0 <= c < |cpus| && leaving in onCpu
      modifies this`cpus, this`onCpu
      ensures var owner := if old(cpus[c].switching) then old(cpus[c].owner) else leaving;
              && cpus == old(cpus)[c := old(cpus[c]).(switching := true, owner := owner)]
              && onCpu == if leaving != owner then old(onCpu)[leaving := false] else old(onCpu)
    {
      if !cpus[c].switching {
        cpus := cpus[c := cpus[c].(switching := true, owner := leaving)];
      }
      if leaving != cpus[c].owner {
        onCpu := onCpu[leaving := false];
      }
    }

    // Taking a process: `runnable` allowed it, or it is the current one.
    method Activate(c: int, p: Ref, allowed: bool)
      requires Valid() && 0 <= c < |cpus| && p in onCpu
      requires MayRun(cpus[c], state[p], allowed, onCpu[p], p) || p == cpus[c].current
      requires MayTurn(cpus[c], stacks[c], p)
      modifies this`cpus, this`onCpu, this`state
      ensures Valid() && |cpus| == |old(cpus)| && cpus[c].current == p && onCpu[p]
      ensures forall d :: 0 <= d < |cpus| && d != c ==> cpus[d] == old(cpus[d]) && !Claims(cpus[d], p)
      ensures state == old(state)[p := Running] && onCpu.Keys == old(onCpu.Keys)
      ensures p == old(cpus[c].current) || (old(state[p]) == Ready && allowed)
      ensures old(onCpu[p]) ==> p == old(cpus[c].current) || p == old(cpus[c].owner)
    {
      hide Exclusive, Recorded, NoRepeats, Claimed;
      var current := cpus[c].current;
      TurnCpu(cpus, onCpu, c, p);
      if current != NULL && current != p {
        Leave(c, current);
      }
      onCpu := onCpu[p := true];
      cpus := cpus[c := cpus[c].(current := p)];
      state := state[p := Running];
      assert cpus == old(cpus)[c := Turned(old(cpus[c]), p)];
      Alone(cpus, c, p);
    }

    method LeaveForIdle(c: int)
      requires Valid() && 0 <= c < |cpus|
      requires MayTurn(cpus[c], stacks[c], NULL)
      modifies this`cpus, this`onCpu
      ensures Valid() && |cpus| == |old(cpus)| && cpus[c].current == NULL && onCpu.Keys == old(onCpu.Keys)
      ensures forall d :: 0 <= d < |cpus| && d != c ==> cpus[d] == old(cpus[d])
    {
      hide Exclusive, Recorded, NoRepeats;
      var current := cpus[c].current;
      if current != NULL {
        TurnCpu(cpus, onCpu, c, NULL);
        Leave(c, current);
        cpus := cpus[c := cpus[c].(current := NULL)];
        assert cpus == old(cpus)[c := Turned(old(cpus[c]), NULL)];
      }
    }

    // The CPU now executes on the stack of what it runs (or on its idle stack).
    method TakeStack(c: int)
      requires Valid() && 0 <= c < |cpus|
      modifies this`stacks
      ensures Valid() && stacks == old(stacks)[c := cpus[c].current]
    {
      stacks := stacks[c := cpus[c].current];
    }

    // The end of a switch, first half: the CPU clears its own fields.
    method FinishSwitch(c: int)
      requires Valid() && 0 <= c < |cpus| && stacks[c] == cpus[c].current && cpus[c].letting == NULL
      modifies this`cpus
      ensures Valid() && forall d :: 0 <= d < |cpus| && d != c ==> cpus[d] == old(cpus[d])
      ensures |cpus| == |old(cpus)|
      ensures var was := old(cpus[c]);
              cpus[c] == Cpu(was.current, false, NULL, if was.switching && was.owner != was.current then was.owner else NULL)
    {
      if !cpus[c].switching {
        return;
      }
      var owner := cpus[c].owner;
      ghost var cpu := Cpu(cpus[c].current, false, NULL, if owner != cpus[c].current then owner else NULL);
      forall p ensures Claims(cpu, p) <==> Claims(cpus[c], p) {
      }
      forall p | Claims(cpus[c], p) ensures p in onCpu {
        assert Claimed(cpus, p);
      }
      MoveCpu(cpus, onCpu, c, cpu, onCpu);
      cpus := cpus[c := cpus[c].(switching := false, owner := NULL)];
      if owner != NULL && owner != cpus[c].current {
        cpus := cpus[c := cpus[c].(letting := owner)];
      }
      assert cpus == old(cpus)[c := cpu];
    }

    // Second half: the old stack is free.
    method StoreFlag(c: int)
      requires Valid() && 0 <= c < |cpus|
      modifies this`cpus, this`onCpu
      ensures Valid() && cpus == old(cpus)[c := old(cpus[c]).(letting := NULL)]
      ensures onCpu.Keys == old(onCpu.Keys)
      ensures forall p :: p in onCpu ==> onCpu[p] == (old(onCpu[p]) && (p == old(cpus[c].letting) ==> Occupies(cpus[c], p)))
    {
      var owner := cpus[c].letting;
      if owner == NULL {
        assert cpus == cpus[c := cpus[c].(letting := NULL)];
        return;
      }
      assert Claims(cpus[c], owner);
      assert Claimed(cpus, owner);
      forall p | Claims(cpus[c], p) ensures p in onCpu && onCpu[p] {
        assert Claimed(cpus, p);
      }
      MoveCpu(cpus, onCpu, c, cpus[c].(letting := NULL), onCpu[owner := false]);
      onCpu := onCpu[owner := false];
      cpus := cpus[c := cpus[c].(letting := NULL)];
    }

    method Change(p: Ref, next: State)
      requires Valid() && p in onCpu
      modifies this`state
      ensures Valid() && state == old(state)[p := next]
    {
      state := state[p := next];
    }

    method Spawn(p: Ref)
      requires Valid() && p != NULL && p !in onCpu
      modifies this`onCpu, this`state
      ensures Valid() && onCpu == old(onCpu)[p := false] && state == old(state)[p := Ready]
    {
      onCpu := onCpu[p := false];
      state := state[p := Ready];
    }

    // mark_dead
    method MarkDead(p: Ref)
      requires Valid() && p in onCpu
      modifies this`state, this`dead
      ensures Valid() && state == old(state)[p := Dead] && dead == if p in old(dead) then old(dead) else [p] + old(dead)
    {
      state := state[p := Dead];
      if p !in dead {
        dead := [p] + dead;
      }
    }

    // Reaping by CPU c takes every dead process but those some CPU still occupies.
    method ReapDeferred(c: int) returns (victims: seq<Ref>)
      requires Valid() && 0 <= c < |cpus|
      modifies this`onCpu, this`state, this`dead
      ensures Valid() && NoRepeats(victims)
      ensures forall p :: p in victims <==> p in old(dead) && !Claimed(cpus, p)
      ensures forall p :: p in dead <==> p in old(dead) && Claimed(cpus, p)
      ensures forall p, d :: p in victims && 0 <= d < |cpus| ==> !Claims(cpus[d], p) && stacks[d] != p
      ensures forall p :: p in onCpu <==> p in old(onCpu) && p !in victims
      ensures forall p :: p in onCpu ==> onCpu[p] == old(onCpu[p]) && state[p] == old(state[p])
    {
      var list, kept := dead, [];
      victims := [];
      ghost var i := 0;
      while list != []
        invariant dead == old(dead) && onCpu == old(onCpu) && state == old(state) && Valid()
        invariant 0 <= i <= |dead| && list == dead[i..]
        invariant Parted(dead[..i], kept, victims, onCpu)
        decreases |list|
      {
        var victim := list[0];
        list := list[1..];
        PartNext(cpus, onCpu, dead, i, kept, victims);
        if victim == cpus[c].current || onCpu[victim] {
          assert victim == cpus[c].current ==> Claims(cpus[c], victim);
          kept := [victim] + kept;
        } else {
          victims := [victim] + victims;
        }
        i := i + 1;
      }
      assert dead[..i] == dead;
      dead := kept;
      assert Parted(old(dead), kept, victims, onCpu);
      onCpu := map p | p in onCpu && p !in victims :: onCpu[p];
      state := map p | p in state && p !in victims :: state[p];
      Reaped(cpus, old(onCpu), onCpu, victims);
      forall p, d | p in victims && 0 <= d < |cpus| ensures !Claims(cpus[d], p) && stacks[d] != p {
        assert !Claimed(cpus, p);
      }
    }

    // A step is taken when the kernel can be at the point where it takes it: a CPU
    // finishes a switch only after it has moved to the new stack, and between the two
    // halves of that it picks nothing.
    predicate Enabled(c: int, step: Step)
      requires |stacks| == |cpus| && state.Keys == onCpu.Keys
      reads this
    {
      && 0 <= c < |cpus|
      && match step
         case Take(p, allowed) =>
           && p in onCpu && (MayRun(cpus[c], state[p], allowed, onCpu[p], p) || p == cpus[c].current)
           && MayTurn(cpus[c], stacks[c], p)
         case Idle => MayTurn(cpus[c], stacks[c], NULL)
         case MoveStack => true
         case Finish => stacks[c] == cpus[c].current && cpus[c].letting == NULL
         case Store => true
         case Change(p, _) => p in onCpu
         case Die(p) => p in onCpu
         case Spawn(p) => p != NULL && p !in onCpu
         case Reap => true
    }

    // Every interleaving of steps, on any number of CPUs, ends in a state where the
    // flags name exactly the occupied processes and nobody is occupied twice.
    method Run(schedule: seq<(int, Step)>)
      requires Valid()
      modifies this
      ensures Valid() && |cpus| == |old(cpus)| && Exclusive(cpus)
      ensures forall p :: Occupied(cpus, p) ==> p in onCpu && onCpu[p]
      ensures forall p :: p in onCpu && onCpu[p] ==> Occupied(cpus, p) || LetGo(cpus, p)
      ensures forall c :: 0 <= c < |cpus| ==> OnOwnStack(cpus[c], stacks[c])
    {
      hide Exclusive, Recorded, NoRepeats;
      for i := 0 to |schedule|
        invariant Valid() && |cpus| == |old(cpus)|
      {
        var (c, step) := schedule[i];
        if Enabled(c, step) {
          match step {
            case Take(p, allowed) => Activate(c, p, allowed);
            case Idle => LeaveForIdle(c);
            case MoveStack => TakeStack(c);
            case Finish => FinishSwitch(c);
            case Store => StoreFlag(c);
            case Change(p, next) => Change(p, next);
            case Die(p) => MarkDead(p);
            case Spawn(p) => Spawn(p);
            case Reap => var victims := ReapDeferred(c);
          }
        }
      }
      MarkedIsOccupied(cpus, onCpu);
    }
  }

  // The part of the dead list already walked, split by `on_cpu`.
  ghost predicate Parted(seen: seq<Ref>, kept: seq<Ref>, victims: seq<Ref>, onCpu: map<Ref, bool>) {
    && NoRepeats(kept) && NoRepeats(victims)
    && (forall p :: p in kept <==> p in seen && p in onCpu && onCpu[p])
    && (forall p :: p in victims <==> p in seen && p in onCpu && !onCpu[p])
  }

  lemma PartNext(cpus: seq<Cpu>, onCpu: map<Ref, bool>, dead: seq<Ref>, i: int, kept: seq<Ref>, victims: seq<Ref>)
    requires 0 <= i < |dead| && NoRepeats(dead) && dead[i] in onCpu && Parted(dead[..i], kept, victims, onCpu)
    ensures onCpu[dead[i]] ==> Parted(dead[..i + 1], [dead[i]] + kept, victims, onCpu)
    ensures !onCpu[dead[i]] ==> Parted(dead[..i + 1], kept, [dead[i]] + victims, onCpu)
  {
    assert dead[..i + 1] == dead[..i] + [dead[i]];
    assert dead[i] !in dead[..i];
  }

  // Forgetting processes no CPU occupies keeps the flags right.
  lemma Reaped(cpus: seq<Cpu>, onCpu: map<Ref, bool>, onCpu': map<Ref, bool>, victims: seq<Ref>)
    requires Recorded(cpus, onCpu) && forall p :: p in victims ==> p in onCpu && !onCpu[p]
    requires forall p :: p in onCpu' <==> p in onCpu && p !in victims
    requires forall p :: p in onCpu' ==> onCpu'[p] == onCpu[p]
    ensures Recorded(cpus, onCpu')
  {
  }
}
