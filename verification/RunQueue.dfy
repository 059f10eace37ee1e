/**
 The scheduler's run queue (kernel/core/process.c, `rq_*`, `ready_link`,
 `ready_unlink`, `first_allowed_rt`, `first_allowed_ordinary`,
 `process_set_nice`, `process_set_scheduler`): ordinary processes in a treap
 ordered by virtual runtime, real-time ones in one circular list per level, and
 a bitmap of the levels in use.

 A 64-bit bitmap word is the sequence of its bits, lowest first.
 */
module RunQueues {
  import opened Errno
  import opened Lists
  import LittleEndian
  import opened Treaps

  const U64: int := 0x1_0000_0000_0000_0000
  const HALF: int := 0x8000_0000_0000_0000

  const RT_MAX: int := 99
  const RT_UNPRIVILEGED_MAX: int := 20

  const SCHED_OTHER: bv32 := 0
  const SCHED_FIFO: bv32 := 1
  const SCHED_RR: bv32 := 2
  const SCHED_BATCH: bv32 := 3
  const SCHED_IDLE: bv32 := 5
  const SCHED_RESET_ON_FORK: bv32 := 0x4000_0000

  // One process, as far as the run queue is concerned.  `order` counts insertions
  // without bound; the kernel keeps its low 64 bits, which is all `Before` looks at.
  datatype Process = Process(
    runtime: int, nice: int, rtPriority: int, policy: bv32, resetOnFork: bool,
    onReady: bool, level: int, weight: int, order: int,
    next: Ref, prev: Ref)

  type Table = map<Ref, Process>

  type Word = seq<bool>

  const NICE_WEIGHTS: seq<int> := [
    88761, 71755, 56483, 46273, 36291, 29154, 23254, 18705, 14949, 11916, 9548, 7620, 6100, 4904,
    3906, 3121, 2501, 1991, 1586, 1277, 1024, 820, 655, 526, 423, 335, 272, 215,
    172, 137, 110, 87, 70, 56, 45, 36, 29, 23, 18, 15]

  function ProcessWeight(nice: int): (w: int)
    ensures 15 <= w <= 88761
  {
    var n := if nice < -20 then -20 else if nice > 19 then 19 else nice;
    NICE_WEIGHTS[n + 20]
  }

  // The weight falls by about a fifth with every step of nice, from 1024 at 0.
  lemma WeightFalls(nice: int)
    ensures ProcessWeight(0) == 1024
    ensures nice < -20 ==> ProcessWeight(nice) == ProcessWeight(-20)
    ensures nice > 19 ==> ProcessWeight(nice) == ProcessWeight(19)
    ensures -20 <= nice < 19 ==> 12 * ProcessWeight(nice + 1) <= 10 * ProcessWeight(nice) <= 13 * ProcessWeight(nice + 1)
  {
    if -20 <= nice < 19 {
      WeightSteps(nice + 20);
    }
  }

  ghost predicate Step(i: int) {
    0 <= i < 39 && 12 * NICE_WEIGHTS[i + 1] <= 10 * NICE_WEIGHTS[i] <= 13 * NICE_WEIGHTS[i + 1]
  }

  lemma WeightSteps(i: int)
    requires 0 <= i < 39
    ensures Step(i)
  {
    hide Step;
    if i < 10 {
      FirstSteps(i);
    } else if i < 20 {
      SecondSteps(i);
    } else if i < 30 {
      ThirdSteps(i);
    } else {
      LastSteps(i);
    }
  }

  lemma FirstSteps(i: int)
    requires 0 <= i < 10
    ensures Step(i)
  {
    assert Step(0) && Step(1) && Step(2) && Step(3) && Step(4) && Step(5) && Step(6) && Step(7) && Step(8) && Step(9);
  }

  lemma SecondSteps(i: int)
    requires 10 <= i < 20
    ensures Step(i)
  {
    assert Step(10) && Step(11) && Step(12) && Step(13) && Step(14) && Step(15) && Step(16) && Step(17) && Step(18) && Step(19);
  }

  lemma ThirdSteps(i: int)
    requires 20 <= i < 30
    ensures Step(i)
  {
    assert Step(20) && Step(21) && Step(22) && Step(23) && Step(24) && Step(25) && Step(26) && Step(27) && Step(28) && Step(29);
  }

  lemma LastSteps(i: int)
    requires 30 <= i < 39
    ensures Step(i)
  {
    assert Step(30) && Step(31) && Step(32) && Step(33) && Step(34) && Step(35) && Step(36) && Step(37) && Step(38);
  }

  lemma {:induction false} WeightOrder(a: int, b: int)
    requires -20 <= a < b <= 19
    ensures ProcessWeight(a) > ProcessWeight(b)
    decreases b - a
  {
    WeightFalls(a);
    hide ProcessWeight;
    if a + 1 < b {
      WeightOrder(a + 1, b);
    }
  }

  // ---------------------------------------------------------------------------
  // The order on ordinary processes
  // ---------------------------------------------------------------------------

  // The sign of a 64-bit difference.
  predicate Negative(d: int) {
    d % U64 >= HALF
  }

  lemma NegativeMeans(d: int)
    requires -HALF <= d < HALF
    ensures Negative(d) <==> d < 0
  {
  }

  predicate RunsBefore(a: Process, b: Process) {
    if (a.runtime - b.runtime) % U64 != 0 then Negative(a.runtime - b.runtime) else Negative(a.order - b.order)
  }

  // Virtual runtimes that lie in one half of the 64-bit circle, from base on.
  function Rank(base: int, runtime: int): int {
    (runtime - base) % U64
  }

  // From a base no more than half the circle behind both, runtimes compare as numbers.
  lemma BeforeIsOrder(a: Process, b: Process, base: int)
    requires Rank(base, a.runtime) < HALF && Rank(base, b.runtime) < HALF
    ensures RunsBefore(a, b) <==>
            Rank(base, a.runtime) < Rank(base, b.runtime) || (Rank(base, a.runtime) == Rank(base, b.runtime) && Negative(a.order - b.order))
  {
    var x, y := a.runtime - base, b.runtime - base;
    assert a.runtime - b.runtime == x - y;
    ModDifference(x, y);
  }

  lemma ModDifference(x: int, y: int)
    requires x % U64 < HALF && y % U64 < HALF
    ensures (x - y) % U64 == if y % U64 <= x % U64 then x % U64 - y % U64 else U64 + x % U64 - y % U64
  {
    var d := x / U64 - y / U64;
    assert x - y == d * U64 + (x % U64 - y % U64);
  }

  // Without the window the comparison is not an order: three runtimes spread round
  // the circle each run before the next.
  lemma BeforeCanCycle(a: Process)
    ensures var b, c := a.(runtime := a.runtime + U64 / 3), a.(runtime := a.runtime + 2 * (U64 / 3));
            RunsBefore(a, b) && RunsBefore(b, c) && RunsBefore(c, a)
  {
    assert (-(U64 / 3)) % U64 >= HALF && (2 * (U64 / 3)) % U64 >= HALF;
  }

  // Each member runs before the later ones, and none of them before it.
  ghost predicate Sorted(t: Table, s: seq<Ref>) {
    && (forall i :: 0 <= i < |s| ==> s[i] in t)
    && (forall i, j :: 0 <= i < j < |s| ==> RunsBefore(t[s[i]], t[s[j]]) && !RunsBefore(t[s[j]], t[s[i]]))
  }

  // Rising in runtime, then in insertion number, from a base within half the circle.
  ghost predicate Ascending(t: Table, s: seq<Ref>, base: int) {
    && (forall i :: 0 <= i < |s| ==> s[i] in t && Rank(base, t[s[i]].runtime) < HALF)
    && (forall i, j :: 0 <= i < j < |s| ==> Rises(t[s[i]], t[s[j]], base))
  }

  ghost predicate Rises(a: Process, b: Process, base: int) {
    || Rank(base, a.runtime) < Rank(base, b.runtime)
    || (Rank(base, a.runtime) == Rank(base, b.runtime) && 0 < Rank(a.order, b.order) < HALF)
  }

  // A queue is sorted by the wrapping comparison exactly when its runtimes lie in one
  // half of the circle and rise there.
  lemma SortedIsAscending(t: Table, s: seq<Ref>)
    ensures Sorted(t, s) <==> exists base :: Ascending(t, s, base)
  {
    if Sorted(t, s) {
      SortedFromFirst(t, s);
      assert Ascending(t, s, if s == [] then 0 else t[s[0]].runtime);
    }
    if base :| Ascending(t, s, base) {
      AscendingSorted(t, s, base);
    }
  }

  lemma SortedFromFirst(t: Table, s: seq<Ref>)
    requires Sorted(t, s)
    ensures s != [] ==> s[0] in t && Ascending(t, s, t[s[0]].runtime)
  {
    if s != [] {
      var base := t[s[0]].runtime;
      forall i | 0 <= i < |s| ensures Rank(base, t[s[i]].runtime) < HALF {
        if i > 0 {
          assert !RunsBefore(t[s[i]], t[s[0]]);
        }
      }
      forall i, j | 0 <= i < j < |s| ensures Rises(t[s[i]], t[s[j]], base) {
        var a, b := t[s[i]], t[s[j]];
        assert RunsBefore(a, b) && !RunsBefore(b, a);
        BeforeIsOrder(a, b, base);
        BeforeIsOrder(b, a, base);
        OrderSigns(a.order, b.order);
      }
    }
  }

  lemma AscendingSorted(t: Table, s: seq<Ref>, base: int)
    requires Ascending(t, s, base)
    ensures Sorted(t, s)
  {
    forall i, j | 0 <= i < j < |s| ensures RunsBefore(t[s[i]], t[s[j]]) && !RunsBefore(t[s[j]], t[s[i]]) {
      var a, b := t[s[i]], t[s[j]];
      assert Rises(a, b, base);
      BeforeIsOrder(a, b, base);
      BeforeIsOrder(b, a, base);
      OrderSigns(a.order, b.order);
    }
  }

  // The difference of two insertion numbers is negative one way round and not the other.
  lemma OrderSigns(a: int, b: int)
    ensures Negative(a - b) && !Negative(b - a) <==> 0 < Rank(a, b) < HALF
  {
    Opposite(b - a);
  }

  lemma Opposite(d: int)
    ensures (-d) % U64 == if d % U64 == 0 then 0 else U64 - d % U64
  {
    var q, r := d / U64, d % U64;
    if r == 0 {
      LittleEndian.Unique(-d, U64, -q, 0);
    } else {
      LittleEndian.Unique(-d, U64, -q - 1, U64 - r);
    }
  }

  // ---------------------------------------------------------------------------
  // A newcomer
  // ---------------------------------------------------------------------------

  // The newcomer's runtime and those of the queue fit in one half of the circle: it is
  // less than half the circle after the first, or before the last.
  ghost predicate Room(t: Table, s: seq<Ref>, x: int) {
    s == [] || (s[0] in t && s[|s| - 1] in t && (Rank(t[s[0]].runtime, x) < HALF || Rank(x, t[s[|s| - 1]].runtime) < HALF))
  }

  // Less than half the insertion numbers were handed out since any with its runtime.
  ghost predicate Recent(t: Table, s: seq<Ref>, node: Ref, x: int, newest: int) {
    forall i :: 0 <= i < |s| && s[i] != node && s[i] in t ==>
      t[s[i]].order < newest && (Rank(t[s[i]].runtime, x) == 0 ==> newest - t[s[i]].order < HALF)
  }

  ghost predicate Based(t: Table, s: seq<Ref>, base: int) {
    forall i :: 0 <= i < |s| ==> s[i] in t && Rank(base, t[s[i]].runtime) < HALF
  }

  lemma RoomBase(t: Table, s: seq<Ref>, x: int) returns (base: int)
    requires Sorted(t, s) && Room(t, s, x)
    ensures Based(t, s, base) && Rank(base, x) < HALF
  {
    base := x;
    if s != [] {
      SortedFromFirst(t, s);
      var first, last := t[s[0]].runtime, t[s[|s| - 1]].runtime;
      if Rank(first, x) < HALF {
        base := first;
      } else {
        forall i | 0 <= i < |s| ensures Rank(x, t[s[i]].runtime) < HALF {
          assert i < |s| - 1 ==> Rises(t[s[i]], t[s[|s| - 1]], first);
          RankFrom(first, x, t[s[i]].runtime);
          RankFrom(first, x, last);
        }
      }
    }
  }

  // Ranks from x, of what lies in the half circle that x is not in.
  lemma RankFrom(first: int, x: int, r: int)
    requires Rank(first, x) >= HALF && Rank(first, r) < HALF
    ensures Rank(x, r) == Rank(first, r) - Rank(first, x) + U64
  {
    var a, b := x - first, r - first;
    assert r - x == (b / U64 - a / U64) * U64 + (b % U64 - a % U64);
  }

  // A newcomer with a recent number comes after those with its runtime.
  lemma NewcomerBefore(t: Table, s: seq<Ref>, node: Ref, p: Process, base: int, i: int)
    requires Based(t, s, base) && Rank(base, p.runtime) < HALF && Recent(t, s, node, p.runtime, p.order) && 0 <= i < |s| && s[i] != node
    ensures s[i] in t
    ensures RunsBefore(p, t[s[i]]) <==> Rank(base, p.runtime) < Rank(base, t[s[i]].runtime)
    ensures RunsBefore(t[s[i]], p) <==> Rank(base, t[s[i]].runtime) <= Rank(base, p.runtime)
  {
    var q := t[s[i]];
    BeforeIsOrder(p, q, base);
    BeforeIsOrder(q, p, base);
    SameRank(base, q.runtime, p.runtime);
    if Rank(base, q.runtime) == Rank(base, p.runtime) {
      assert 0 < p.order - q.order < HALF;
      Opposite(p.order - q.order);
    }
  }

  lemma SameRank(base: int, x: int, y: int)
    requires Rank(base, x) < HALF && Rank(base, y) < HALF
    ensures Rank(base, x) == Rank(base, y) <==> Rank(x, y) == 0
  {
    ModDifference(y - base, x - base);
    assert y - x == (y - base) - (x - base);
  }

  lemma SortedRanks(t: Table, s: seq<Ref>, base: int, i: int, j: int)
    requires Sorted(t, s) && Based(t, s, base) && 0 <= i < j < |s|
    ensures s[i] in t && s[j] in t && Rank(base, t[s[i]].runtime) <= Rank(base, t[s[j]].runtime)
  {
    assert RunsBefore(t[s[i]], t[s[j]]);
    BeforeIsOrder(t[s[i]], t[s[j]], base);
  }

  lemma NewcomerMonotone(t: Table, s: seq<Ref>, node: Ref, p: Process, base: int, goLeft: Ref -> bool)
    requires Sorted(t, s) && Based(t, s, base) && Rank(base, p.runtime) < HALF && node !in s && Recent(t, s, node, p.runtime, p.order)
    requires forall i :: 0 <= i < |s| ==> (goLeft(s[i]) <==> RunsBefore(p, t[s[i]]))
    ensures Monotone(goLeft, s)
  {
    hide RunsBefore, Rank, Recent;
    forall i, j | 0 <= i < j < |s| && goLeft(s[i]) ensures goLeft(s[j]) {
      SortedRanks(t, s, base, i, j);
      assert s[i] in s && s[j] in s;
      NewcomerBefore(t, s, node, p, base, i);
      NewcomerBefore(t, s, node, p, base, j);
    }
  }

  lemma NewcomerSorted(t: Table, s: seq<Ref>, node: Ref, p: Process, base: int, goLeft: Ref -> bool, k: int)
    requires Sorted(t, s) && Based(t, s, base) && Rank(base, p.runtime) < HALF && node !in s && Recent(t, s, node, p.runtime, p.order)
    requires forall i :: 0 <= i < |s| ==> (goLeft(s[i]) <==> RunsBefore(p, t[s[i]]))
    requires Narrowed(goLeft, s, k, k)
    ensures Sorted(t[node := p], s[..k] + [node] + s[k..])
  {
    hide RunsBefore, Rank, Recent;
    var u := s[..k] + [node] + s[k..];
    forall i | 0 <= i < |u| ensures u[i] in t[node := p] {
      assert u[i] == if i < k then s[i] else if i == k then node else s[i - 1];
    }
    forall i, j | 0 <= i < j < |u|
      ensures RunsBefore(t[node := p][u[i]], t[node := p][u[j]]) && !RunsBefore(t[node := p][u[j]], t[node := p][u[i]])
    {
      assert u[i] == if i < k then s[i] else if i == k then node else s[i - 1];
      assert u[j] == if j < k then s[j] else if j == k then node else s[j - 1];
      if j == k {
        assert s[i] in s && !goLeft(s[i]);
        NewcomerBefore(t, s, node, p, base, i);
      } else if i == k {
        assert s[j - 1] in s && goLeft(s[j - 1]);
        NewcomerBefore(t, s, node, p, base, j - 1);
      } else {
        assert u[i] in s && u[j] in s;
      }
    }
  }

  // There is a place for a newcomer in a sorted queue exactly when there is room for it.
  lemma PlaceIffRoom(t: Table, s: seq<Ref>, node: Ref, p: Process)
    requires Sorted(t, s) && node !in s && Recent(t, s, node, p.runtime, p.order)
    ensures (exists k :: 0 <= k <= |s| && Sorted(t[node := p], s[..k] + [node] + s[k..])) <==> Room(t, s, p.runtime)
  {
    if Room(t, s, p.runtime) {
      var base := RoomBase(t, s, p.runtime);
      var goLeft := (r: Ref) => r in t && RunsBefore(p, t[r]);
      NewcomerMonotone(t, s, node, p, base, goLeft);
      var k := 0;
      while k < |s| && !goLeft(s[k])
        invariant 0 <= k <= |s| && forall i :: 0 <= i < k ==> !goLeft(s[i])
      {
        k := k + 1;
      }
      NewcomerSorted(t, s, node, p, base, goLeft, k);
    }
    if k :| 0 <= k <= |s| && Sorted(t[node := p], s[..k] + [node] + s[k..]) {
      PlaceLeavesRoom(t, s, node, p, k);
    }
  }

  lemma PlaceLeavesRoom(t: Table, s: seq<Ref>, node: Ref, p: Process, k: int)
    requires 0 <= k <= |s| && node !in s && Sorted(t[node := p], s[..k] + [node] + s[k..]) && forall i :: 0 <= i < |s| ==> s[i] in t
    ensures Room(t, s, p.runtime)
  {
    var t', u := t[node := p], s[..k] + [node] + s[k..];
    assert u[k] == node;
    RoomWithout(t', u, k);
    assert u[..k] + u[k + 1..] == s;
    if s != [] {
      assert s[0] in s && s[|s| - 1] in s;
    }
  }

  // A member of a sorted queue, once taken out, has room to come back.
  lemma RoomWithout(t: Table, s: seq<Ref>, k: int)
    requires Sorted(t, s) && 0 <= k < |s|
    ensures s[k] in t && Room(t, s[..k] + s[k + 1..], t[s[k]].runtime)
  {
    SortedFromFirst(t, s);
    var u := s[..k] + s[k + 1..];
    if u != [] {
      assert k > 0 ==> u[0] == s[0];
      assert k == 0 ==> u[|u| - 1] == s[|s| - 1];
    }
  }

  lemma SortedRemove(t: Table, s: seq<Ref>, k: int)
    requires Sorted(t, s) && 0 <= k < |s|
    ensures Sorted(t, s[..k] + s[k + 1..])
  {
    var u := s[..k] + s[k + 1..];
    forall i | 0 <= i < |u| ensures u[i] in t {
      assert u[i] == s[if i < k then i else i + 1];
    }
    forall i, j | 0 <= i < j < |u| ensures RunsBefore(t[u[i]], t[u[j]]) {
      assert u[i] == s[if i < k then i else i + 1] && u[j] == s[if j < k then j else j + 1];
    }
  }

  // Only runtime and insertion order decide.
  ghost predicate SameKey(a: Process, b: Process) {
    a.runtime == b.runtime && a.order == b.order
  }

  lemma SortedFrame(t: Table, t': Table, s: seq<Ref>)
    requires Sorted(t, s) && forall i :: 0 <= i < |s| ==> s[i] in t' && SameKey(t'[s[i]], t[s[i]])
    ensures Sorted(t', s)
  {
  }

  // ---------------------------------------------------------------------------
  // Weights
  // ---------------------------------------------------------------------------

  ghost function TotalWeight(t: Table, s: seq<Ref>): int {
    if s == [] then 0 else (if s[0] in t then t[s[0]].weight else 0) + TotalWeight(t, s[1..])
  }

  lemma {:induction false} TotalWeightFrame(t: Table, t': Table, s: seq<Ref>)
    requires forall i :: 0 <= i < |s| ==> s[i] in t && s[i] in t' && t'[s[i]].weight == t[s[i]].weight
    ensures TotalWeight(t', s) == TotalWeight(t, s)
  {
    if s != [] {
      assert s[0] in t;
      TotalWeightFrame(t, t', s[1..]);
    }
  }

  lemma {:induction false} TotalWeightInsert(t: Table, s: seq<Ref>, k: int, node: Ref)
    requires 0 <= k <= |s| && node in t
    ensures TotalWeight(t, s[..k] + [node] + s[k..]) == TotalWeight(t, s) + t[node].weight
  {
    var u := s[..k] + [node] + s[k..];
    if k == 0 {
      assert u[1..] == s;
    } else {
      assert u[1..] == s[1..][..k - 1] + [node] + s[1..][k - 1..];
      TotalWeightInsert(t, s[1..], k - 1, node);
    }
  }

  // ---------------------------------------------------------------------------
  // Rings
  // ---------------------------------------------------------------------------

  ghost function Succ(i: int, n: int): int {
    if i + 1 == n then 0 else i + 1
  }

  ghost function Pred(i: int, n: int): int {
    if i == 0 then n - 1 else i - 1
  }

  // A circular doubly linked list whose walk from the head is s.
  ghost predicate Ring(t: Table, s: seq<Ref>) {
    forall i :: 0 <= i < |s| ==> RingAt(t, s, i)
  }

  ghost predicate RingAt(t: Table, s: seq<Ref>, i: int)
    requires 0 <= i < |s|
  {
    s[i] in t && t[s[i]].next == s[Succ(i, |s|)] && t[s[i]].prev == s[Pred(i, |s|)]
  }

  lemma RingFrame(t: Table, t': Table, s: seq<Ref>)
    requires Ring(t, s) && forall i :: 0 <= i < |s| ==> s[i] in t' && (s[i] in t ==> t'[s[i]].next == t[s[i]].next && t'[s[i]].prev == t[s[i]].prev)
    ensures Ring(t', s)
  {
    forall i | 0 <= i < |s| ensures RingAt(t', s, i) {
      assert RingAt(t, s, i);
    }
  }

  // The stores of an append at the tail of a non-empty ring.
  lemma RingAppend(t: Table, t': Table, s: seq<Ref>, node: Ref)
    requires Ring(t, s) && NoRepeats(s) && s != [] && node !in s
    requires var head, last := s[0], s[|s| - 1];
             && node in t' && t'[node].next == head && t'[node].prev == last
             && head in t' && last in t' && head in t && last in t
             && t'[last].next == node && t'[head].prev == node
             && (head != last ==> t'[last].prev == t[last].prev && t'[head].next == t[head].next)
    requires forall i :: 0 < i < |s| - 1 ==> s[i] in t' && s[i] in t && t'[s[i]] == t[s[i]]
    ensures Ring(t', s + [node])
  {
    var u := s + [node];
    Differ(s, 0, |s| - 1);
    hide NoRepeats, Ring;
    forall i | 0 <= i < |u| ensures RingAt(t', u, i) {
      if i < |s| {
        RingStep(t, s, i);
        assert u[i] == s[i];
      }
    }
    RingIntro(t', u);
  }

  lemma RingStep(t: Table, s: seq<Ref>, i: int)
    requires Ring(t, s) && 0 <= i < |s|
    ensures RingAt(t, s, i)
  {
  }

  lemma RingIntro(t: Table, s: seq<Ref>)
    requires forall i :: 0 <= i < |s| ==> RingAt(t, s, i)
    ensures Ring(t, s)
  {
  }

  // The stores of a removal from a ring of at least two.
  lemma RingRemove(t: Table, t': Table, s: seq<Ref>, k: int)
    requires Ring(t, s) && NoRepeats(s) && 0 <= k < |s| && |s| >= 2
    requires var before, after := s[Pred(k, |s|)], s[Succ(k, |s|)];
             && before in t' && after in t' && before in t && after in t
             && t'[before].next == after && t'[after].prev == before
             && (before != after ==> t'[before].prev == t[before].prev && t'[after].next == t[after].next)
    requires forall i :: 0 <= i < |s| && i != k && i != Pred(k, |s|) && i != Succ(k, |s|) ==>
               s[i] in t' && s[i] in t && t'[s[i]].next == t[s[i]].next && t'[s[i]].prev == t[s[i]].prev
    ensures Ring(t', s[..k] + s[k + 1..])
  {
    var u := s[..k] + s[k + 1..];
    var b, a := Pred(k, |s|), Succ(k, |s|);
    Differ(s, b, a);
    hide NoRepeats, Ring;
    forall i | 0 <= i < |u| ensures RingAt(t', u, i) {
      var j := if i < k then i else i + 1;
      assert u[i] == s[j];
      RingStep(t, s, j);
      assert u[Succ(i, |u|)] == if j == b then s[a] else s[Succ(j, |s|)];
      assert u[Pred(i, |u|)] == if j == a then s[b] else s[Pred(j, |s|)];
    }
    RingIntro(t', u);
  }

  // ---------------------------------------------------------------------------
  // Which list a process is on: list 0 is the treap's order, list l the ring of level l
  // ---------------------------------------------------------------------------

  ghost predicate Members(t: Table, s: seq<Ref>, l: int) {
    && NoRepeats(s)
    && forall i :: 0 <= i < |s| ==> s[i] != NULL && s[i] in t && t[s[i]].onReady && t[s[i]].level == l
  }

  ghost predicate Queues(t: Table, lists: seq<seq<Ref>>) {
    && |lists| == RT_MAX + 1
    && (forall l :: 0 <= l <= RT_MAX ==> Members(t, lists[l], l))
    && (forall p :: p in t && t[p].onReady ==> 0 <= t[p].level <= RT_MAX && p in lists[t[p].level])
  }

  ghost predicate SamePlace(a: Process, b: Process) {
    a.onReady == b.onReady && a.level == b.level
  }

  lemma MembersOf(t: Table, s: seq<Ref>, l: int)
    requires NoRepeats(s) && forall r :: r in s ==> r != NULL && r in t && t[r].onReady && t[r].level == l
    ensures Members(t, s, l)
  {
    forall i | 0 <= i < |s| ensures s[i] != NULL && s[i] in t && t[s[i]].onReady && t[s[i]].level == l {
      var r := s[i];
      assert r in s;
    }
  }

  lemma MemberAt(t: Table, s: seq<Ref>, l: int)
    requires Members(t, s, l)
    ensures NoRepeats(s) && forall r :: r in s ==> r != NULL && r in t && t[r].onReady && t[r].level == l
  {
  }

  lemma QueueMembers(t: Table, lists: seq<seq<Ref>>, l: int)
    requires Queues(t, lists) && 0 <= l <= RT_MAX
    ensures |lists| == RT_MAX + 1 && NoRepeats(lists[l])
    ensures forall r :: r in lists[l] ==> r != NULL && r in t && t[r].onReady && t[r].level == l
  {
    MemberAt(t, lists[l], l);
  }

  lemma QueuesAdd(t: Table, t': Table, lists: seq<seq<Ref>>, l: int, k: int, p: Ref)
    requires Queues(t, lists) && 0 <= l <= RT_MAX && 0 <= k <= |lists[l]|
    requires p != NULL && p in t && !t[p].onReady && t'.Keys == t.Keys && t'[p].onReady && t'[p].level == l
    requires forall r :: r in t && r != p ==> SamePlace(t'[r], t[r])
    ensures p !in lists[l]
    ensures Queues(t', lists[l := lists[l][..k] + [p] + lists[l][k..]])
  {
    var s := lists[l];
    MemberAt(t, s, l);
    InsertMembers(s, k, p);
    MembersOf(t', s[..k] + [p] + s[k..], l);
    forall j | 0 <= j <= RT_MAX && j != l ensures Members(t', lists[j], j) {
      MemberAt(t, lists[j], j);
      MembersOf(t', lists[j], j);
    }
  }

  lemma QueuesDrop(t: Table, t': Table, lists: seq<seq<Ref>>, l: int, k: int)
    requires Queues(t, lists) && 0 <= l <= RT_MAX && 0 <= k < |lists[l]|
    requires t'.Keys == t.Keys && lists[l][k] in t && !t'[lists[l][k]].onReady
    requires forall r :: r in t && r != lists[l][k] ==> SamePlace(t'[r], t[r])
    ensures Queues(t', lists[l := lists[l][..k] + lists[l][k + 1..]])
  {
    var s, p := lists[l], lists[l][k];
    MemberAt(t, s, l);
    RemoveMembers(s, k);
    MembersOf(t', s[..k] + s[k + 1..], l);
    forall j | 0 <= j <= RT_MAX && j != l ensures Members(t', lists[j], j) {
      MemberAt(t, lists[j], j);
      assert p in s && t[p].level == l;
      MembersOf(t', lists[j], j);
    }
  }

  ghost function TotalLength(lists: seq<seq<Ref>>): int {
    if lists == [] then 0 else |lists[0]| + TotalLength(lists[1..])
  }

  lemma {:induction false} TotalLengthUpdate(lists: seq<seq<Ref>>, l: int, s: seq<Ref>)
    requires 0 <= l < |lists|
    ensures TotalLength(lists[l := s]) == TotalLength(lists) - |lists[l]| + |s|
  {
    if l == 0 {
      assert lists[0 := s][1..] == lists[1..];
    } else {
      assert lists[l := s][1..] == lists[1..][l - 1 := s];
      TotalLengthUpdate(lists[1..], l - 1, s);
    }
  }

  // ---------------------------------------------------------------------------
  // Heads and bitmap
  // ---------------------------------------------------------------------------

  ghost function HeadOf(s: seq<Ref>): Ref {
    if s == [] then NULL else s[0]
  }

  ghost predicate Rings(t: Table, heads: seq<Ref>, lists: seq<seq<Ref>>) {
    && |heads| == |lists| == RT_MAX + 1
    && forall l :: 1 <= l <= RT_MAX ==> Ring(t, lists[l]) && heads[l] == HeadOf(lists[l])
  }

  // Bit l % 64 of word l / 64 is set exactly when the ring of level l is not empty.
  ghost predicate Bits(bitmap: seq<Word>, lists: seq<seq<Ref>>) {
    && |bitmap| == 2 && |lists| == RT_MAX + 1 && |bitmap[0]| == |bitmap[1]| == 64
    && (forall b :: 0 <= b < 64 ==> (bitmap[0][b] <==> 1 <= b && lists[b] != []))
    && (forall b :: 0 <= b < 64 ==> (bitmap[1][b] <==> b <= RT_MAX - 64 && lists[b + 64] != []))
  }

  lemma Sizes(t: Table, bitmap: seq<Word>, lists: seq<seq<Ref>>)
    requires Queues(t, lists) && Bits(bitmap, lists)
    ensures |lists| == RT_MAX + 1 && |bitmap| == 2 && |bitmap[0]| == |bitmap[1]| == 64
  {
  }

  lemma BitsUpdate(bitmap: seq<Word>, lists: seq<seq<Ref>>, l: int, s: seq<Ref>)
    requires Bits(bitmap, lists) && 1 <= l <= RT_MAX
    ensures s != [] ==> Bits(bitmap[l / 64 := bitmap[l / 64][l % 64 := true]], lists[l := s])
    ensures s == [] ==> Bits(bitmap[l / 64 := bitmap[l / 64][l % 64 := false]], lists[l := s])
    ensures (s == []) == (lists[l] == []) ==> Bits(bitmap, lists[l := s])
  {
  }

  // Storing pointers only in one ring leaves the others alone.
  lemma RingsUpdate(t: Table, t': Table, heads: seq<Ref>, lists: seq<seq<Ref>>, l: int, p: Ref, s: seq<Ref>)
    requires Queues(t, lists) && Rings(t, heads, lists) && 0 <= l <= RT_MAX && t'.Keys == t.Keys
    requires p in t && (t[p].onReady ==> t[p].level == l)
    requires forall r :: r in t && r != p && (l == 0 || r !in lists[l]) ==> t'[r] == t[r]
    requires l > 0 ==> Ring(t', s)
    ensures l > 0 ==> Rings(t', heads[l := HeadOf(s)], lists[l := s])
    ensures l == 0 ==> Rings(t', heads, lists[l := s])
  {
    forall j | 1 <= j <= RT_MAX && j != l ensures Ring(t', lists[j]) && heads[j] == HeadOf(lists[j]) {
      MemberAt(t, lists[j], j);
      if l > 0 {
        MemberAt(t, lists[l], l);
      }
      forall i | 0 <= i < |lists[j]| ensures t'[lists[j][i]] == t[lists[j][i]] {
        assert lists[j][i] in lists[j];
      }
      RingFrame(t, t', lists[j]);
    }
  }

  // The treap's part: sorted, and every insertion number has been handed out.
  ghost predicate Ordinary(t: Table, s: seq<Ref>, sequence: int, weightTotal: int, count: int) {
    && Sorted(t, s) && (forall i :: 0 <= i < |s| ==> t[s[i]].order <= sequence)
    && weightTotal == TotalWeight(t, s) && count == |s|
  }

  lemma OrdinaryFrame(t: Table, t': Table, s: seq<Ref>, sequence: int, weightTotal: int, count: int)
    requires Ordinary(t, s, sequence, weightTotal, count) && forall r :: r in s && r in t ==> r in t' && t'[r] == t[r]
    ensures Ordinary(t', s, sequence, weightTotal, count)
  {
    forall i | 0 <= i < |s| ensures s[i] in t && s[i] in t' && t'[s[i]] == t[s[i]] {
      var r := s[i];
      assert r in s && r in t;
      assert r in t' && t'[r] == t[r];
    }
    SortedFrame(t, t', s);
    TotalWeightFrame(t, t', s);
  }

  // Where in the ring of its level a queued real-time process is.
  lemma RingIndex(t: Table, lists: seq<seq<Ref>>, p: Ref) returns (k: int)
    requires Queues(t, lists) && p in t && t[p].onReady
    ensures 0 <= t[p].level <= RT_MAX < |lists| && 0 <= k < |lists[t[p].level]| && lists[t[p].level][k] == p
  {
    var s := lists[t[p].level];
    k :| 0 <= k < |s| && s[k] == p;
  }

  // The two ends of a ring, read from memory.
  lemma RingEnds(t: Table, heads: seq<Ref>, lists: seq<seq<Ref>>, l: int)
    requires Queues(t, lists) && Rings(t, heads, lists) && 1 <= l <= RT_MAX
    ensures |heads| == RT_MAX + 1 && heads[l] == HeadOf(lists[l]) && (heads[l] == NULL <==> lists[l] == [])
    ensures heads[l] != NULL ==>
              && heads[l] in t && t[heads[l]].prev in t && t[heads[l]].onReady && t[t[heads[l]].prev].onReady
              && t[heads[l]].prev == lists[l][|lists[l]| - 1]
  {
    MemberAt(t, lists[l], l);
    if lists[l] != [] {
      RingStep(t, lists[l], 0);
      assert lists[l][0] in lists[l] && lists[l][|lists[l]| - 1] in lists[l];
    }
  }

  // What linking a real-time process stores.
  ghost predicate Appended(t: Table, t': Table, p: Ref, level: int, head: Ref) {
    && p in t && t'.Keys == t.Keys
    && (head == NULL ==>
          && t'[p] == t[p].(onReady := true, level := level, next := p, prev := p)
          && forall r :: r in t && r != p ==> t'[r] == t[r])
    && (head != NULL ==>
          && head in t && t[head].prev in t
          && var last := t[head].prev;
          && t'[p] == t[p].(onReady := true, level := level, next := head, prev := last)
          && (last != head ==> t'[last] == t[last].(next := p) && t'[head] == t[head].(prev := p))
          && (last == head ==> t'[head] == t[head].(next := p, prev := p))
          && forall r :: r in t && r != p && r != head && r != last ==> t'[r] == t[r])
  }

  lemma LinkRealtimeKeeps(t: Table, t': Table, heads: seq<Ref>, bitmap: seq<Word>, lists: seq<seq<Ref>>,
                          sequence: int, weightTotal: int, count: int, p: Ref, l: int)
    requires Queues(t, lists) && Rings(t, heads, lists) && Bits(bitmap, lists)
    requires Ordinary(t, lists[0], sequence, weightTotal, count)
    requires p != NULL && p in t && !t[p].onReady && 1 <= l <= RT_MAX && Appended(t, t', p, l, heads[l])
    ensures var lists' := lists[l := lists[l] + [p]];
            && Queues(t', lists') && Rings(t', if heads[l] == NULL then heads[l := p] else heads, lists')
            && Bits(bitmap[l / 64 := bitmap[l / 64][l % 64 := true]], lists')
            && Ordinary(t', lists'[0], sequence, weightTotal, count)
            && TotalLength(lists') == TotalLength(lists) + 1
  {
    hide Queues, Rings, Bits, Ordinary, Ring, NoRepeats, RingAt;
    QueueMembers(t, lists, l);
    QueueMembers(t, lists, 0);
    var s := lists[l];
    var s' := s + [p];
    assert s[..|s|] + [p] + s[|s|..] == s';
    AppendRing(t, t', heads, lists, l, p);
    QueuesAdd(t, t', lists, l, |s|, p);
    BitsUpdate(bitmap, lists, l, s');
    TotalLengthUpdate(lists, l, s');
    RingsUpdate(t, t', heads, lists, l, p, s');
    OrdinaryFrame(t, t', lists[0], sequence, weightTotal, count);
  }

  lemma AppendRing(t: Table, t': Table, heads: seq<Ref>, lists: seq<seq<Ref>>, l: int, p: Ref)
    requires Queues(t, lists) && Rings(t, heads, lists) && 1 <= l <= RT_MAX
    requires p != NULL && p in t && !t[p].onReady && Appended(t, t', p, l, heads[l])
    ensures Ring(t', lists[l] + [p]) && heads[l := HeadOf(lists[l] + [p])] == (if heads[l] == NULL then heads[l := p] else heads)
    ensures forall r :: r in t && r != p ==> SamePlace(t'[r], t[r]) && (r !in lists[l] ==> t'[r] == t[r])
  {
    QueueMembers(t, lists, l);
    RingEnds(t, heads, lists, l);
    var s := lists[l];
    assert Ring(t, s);
    hide Queues, Rings, Ring, NoRepeats;
    if s == [] {
      assert RingAt(t', [p], 0);
      assert s + [p] == [p];
      RingIntro(t', [p]);
    } else {
      assert s[0] in s && s[|s| - 1] in s;
      AppendMiddle(t, t', s, p, l, heads[l]);
      RingAppend(t, t', s, p);
    }
  }

  lemma AppendMiddle(t: Table, t': Table, s: seq<Ref>, p: Ref, l: int, head: Ref)
    requires Appended(t, t', p, l, head) && s != [] && head == s[0] != NULL && t[head].prev == s[|s| - 1] && NoRepeats(s)
    requires forall r :: r in s ==> r in t && r != p
    ensures forall i :: 0 < i < |s| - 1 ==> s[i] in t' && s[i] in t && t'[s[i]] == t[s[i]]
  {
    forall i | 0 < i < |s| - 1 ensures s[i] in t' && s[i] in t && t'[s[i]] == t[s[i]] {
      assert s[i] in s;
      Differ(s, i, 0);
      Differ(s, i, |s| - 1);
    }
  }

  // A call for process p changes what it says about p, and other processes' links only.
  ghost predicate OnlyLinks(t: Table, t': Table, p: Ref) {
    && t'.Keys == t.Keys
    && (forall r :: r in t && r != p ==> t'[r] == t[r].(next := t'[r].next, prev := t'[r].prev))
    && (p in t ==> var q := t'[p];
          q == t[p].(onReady := q.onReady, level := q.level, weight := q.weight, order := q.order, next := q.next, prev := q.prev))
  }

  function LevelOf(rtPriority: int): (l: int)
    ensures rtPriority > 0 ==> 1 <= l <= RT_MAX
    ensures rtPriority <= 0 ==> l == 0
  {
    if rtPriority <= 0 then 0 else if rtPriority > RT_MAX then RT_MAX else rtPriority
  }

  // The levels of the rings are the real-time priorities.
  lemma LevelIs(rtPriority: int)
    ensures 1 <= rtPriority <= 99 ==> LevelOf(rtPriority) == rtPriority
    ensures rtPriority > 99 ==> LevelOf(rtPriority) == 99
  {
  }

  // What unlinking a real-time process stores.
  ghost predicate Detached(t: Table, t': Table, p: Ref) {
    && p in t && t'.Keys == t.Keys && t[p].next in t && t[p].prev in t
    && t'[p] == t[p].(onReady := false, next := NULL, prev := NULL)
    && (t[p].next == p ==> forall r :: r in t && r != p ==> t'[r] == t[r])
    && (t[p].next != p ==>
          var b, a := t[p].prev, t[p].next;
          && (a != b ==> t'[b] == t[b].(next := a) && t'[a] == t[a].(prev := b))
          && (a == b ==> t'[a] == t[a].(next := a, prev := a))
          && forall r :: r in t && r != p && r != a && r != b ==> t'[r] == t[r])
  }

  lemma UnlinkRealtimeKeeps(t: Table, t': Table, heads: seq<Ref>, heads': seq<Ref>, bitmap: seq<Word>, bitmap': seq<Word>,
                            lists: seq<seq<Ref>>, sequence: int, weightTotal: int, count: int, l: int, k: int)
    requires Queues(t, lists) && Rings(t, heads, lists) && Bits(bitmap, lists)
    requires Ordinary(t, lists[0], sequence, weightTotal, count)
    requires 1 <= l <= RT_MAX && 0 <= k < |lists[l]| && Detached(t, t', lists[l][k])
    requires var p := lists[l][k];
             && heads' == (if t[p].next == p then heads[l := NULL] else if heads[l] == p then heads[l := t[p].next] else heads)
             && bitmap' == (if t[p].next == p then bitmap[l / 64 := bitmap[l / 64][l % 64 := false]] else bitmap)
    ensures var lists' := lists[l := lists[l][..k] + lists[l][k + 1..]];
            && Queues(t', lists') && Rings(t', heads', lists') && Bits(bitmap', lists')
            && Ordinary(t', lists'[0], sequence, weightTotal, count)
            && TotalLength(lists') == TotalLength(lists) - 1
  {
    hide Queues, Rings, Bits, Ordinary, Ring, NoRepeats, RingAt;
    QueueMembers(t, lists, l);
    QueueMembers(t, lists, 0);
    UnlinkLegal(t, heads, lists, l, k);
    var s, p := lists[l], lists[l][k];
    var s' := s[..k] + s[k + 1..];
    assert p in s;
    QueuesDrop(t, t', lists, l, k);
    BitsUpdate(bitmap, lists, l, s');
    TotalLengthUpdate(lists, l, s');
    DetachRing(t, t', heads, lists, l, k);
    assert heads' == heads[l := HeadOf(s')];
    RingsUpdate(t, t', heads, lists, l, p, s');
    OrdinaryFrame(t, t', lists[0], sequence, weightTotal, count);
  }

  lemma DetachRing(t: Table, t': Table, heads: seq<Ref>, lists: seq<seq<Ref>>, l: int, k: int)
    requires Queues(t, lists) && Rings(t, heads, lists) && 1 <= l <= RT_MAX && 0 <= k < |lists[l]| && Detached(t, t', lists[l][k])
    ensures var s, p := lists[l], lists[l][k]; var s' := s[..k] + s[k + 1..];
            && Ring(t', s') && (t[p].next == p <==> |s| == 1) && heads[l] == s[0]
            && HeadOf(s') == (if |s| == 1 then NULL else if heads[l] == p then t[p].next else heads[l])
            && (forall r :: r in t && r !in s ==> t'[r] == t[r])
  {
    QueueMembers(t, lists, l);
    var s, p := lists[l], lists[l][k];
    assert Ring(t, s) && heads[l] == s[0];
    hide Queues, Rings, Ring, NoRepeats;
    RingStep(t, s, k);
    Differ(s, Succ(k, |s|), k);
    Differ(s, Pred(k, |s|), k);
    Differ(s, 0, k);
    var b, a := s[Pred(k, |s|)], s[Succ(k, |s|)];
    assert a in s && b in s && p in s;
    if |s| == 1 {
      assert s[..k] + s[k + 1..] == [];
      RingIntro(t', []);
    } else {
      RingStep(t, s, Pred(k, |s|));
      RingStep(t, s, Succ(k, |s|));
      DetachMiddle(t, t', s, k);
      RingRemove(t, t', s, k);
    }
  }

  lemma DetachMiddle(t: Table, t': Table, s: seq<Ref>, k: int)
    requires Ring(t, s) && NoRepeats(s) && 0 <= k < |s| && |s| >= 2 && Detached(t, t', s[k])
    ensures forall i :: 0 <= i < |s| && i != k && i != Pred(k, |s|) && i != Succ(k, |s|) ==>
               s[i] in t' && s[i] in t && t'[s[i]].next == t[s[i]].next && t'[s[i]].prev == t[s[i]].prev
  {
    RingStep(t, s, k);
    forall i | 0 <= i < |s| && i != k && i != Pred(k, |s|) && i != Succ(k, |s|)
      ensures s[i] in t' && s[i] in t && t'[s[i]].next == t[s[i]].next && t'[s[i]].prev == t[s[i]].prev
    {
      RingStep(t, s, i);
      Differ(s, i, k);
      Differ(s, i, Pred(k, |s|));
      Differ(s, i, Succ(k, |s|));
      Differ(s, Succ(k, |s|), k);
    }
  }

  // Every queued process is on the list its priority asks for, with the weight its
  // nice value asks for.
  ghost predicate Classed(t: Table) {
    forall p :: p in t && t[p].onReady ==>
      t[p].level == LevelOf(t[p].rtPriority) && (t[p].level == 0 ==> t[p].weight == ProcessWeight(t[p].nice))
  }

  lemma ClassedUpdate(t: Table, t': Table, p: Ref)
    requires Classed(t) && OnlyLinks(t, t', p) && p in t
    requires t'[p].onReady ==>
               t'[p].level == LevelOf(t[p].rtPriority) && (t'[p].level == 0 ==> t'[p].weight == ProcessWeight(t[p].nice))
    ensures Classed(t')
  {
  }

  ghost function Placed(lists: seq<seq<Ref>>, l: int, k: int, p: Ref): seq<seq<Ref>>
    requires 0 <= l < |lists| && 0 <= k <= |lists[l]|
  {
    lists[l := lists[l][..k] + [p] + lists[l][k..]]
  }

  ghost function Taken(lists: seq<seq<Ref>>, l: int, k: int): seq<seq<Ref>>
    requires 0 <= l < |lists| && 0 <= k < |lists[l]|
  {
    lists[l := lists[l][..k] + lists[l][k + 1..]]
  }

  // There is room for p in the treap, and its next insertion number is recent.
  ghost predicate Fits(t: Table, lists: seq<seq<Ref>>, sequence: int, p: Ref) {
    && |lists| > 0 && p in t
    && Room(t, lists[0], t[p].runtime) && Recent(t, lists[0], p, t[p].runtime, sequence + 1)
  }

  // The same of a queued process that is to be queued again: one that is in the treap
  // has room there.
  ghost predicate FitsAgain(t: Table, lists: seq<seq<Ref>>, sequence: int, p: Ref) {
    && |lists| > 0 && p in t
    && (t[p].level > 0 ==> Room(t, lists[0], t[p].runtime)) && Recent(t, lists[0], p, t[p].runtime, sequence + 1)
  }

  // The process on list l at k is now on list l' at j, at the tail if that is a ring.
  ghost predicate Moved(lists: seq<seq<Ref>>, lists': seq<seq<Ref>>, p: Ref, l: int, k: int, l': int, j: int) {
    && 0 <= l < |lists| && 0 <= k < |lists[l]| && lists[l][k] == p
    && var off := Taken(lists, l, k);
    && 0 <= l' < |off| && 0 <= j <= |off[l']| && (l' > 0 ==> j == |off[l']|)
    && lists' == Placed(off, l', j, p)
  }

  // p's scheduling parameters are the given ones; who is queued has not changed.
  ghost predicate Requeued(t: Table, t': Table, p: Ref, nice: int, rtPriority: int, policy: bv32, resetOnFork: bool) {
    && t'.Keys == t.Keys && p in t
    && (forall r :: r in t && r != p ==> t'[r] == t[r].(next := t'[r].next, prev := t'[r].prev))
    && t'[p].onReady == t[p].onReady && t'[p].runtime == t[p].runtime
    && t'[p].nice == nice && t'[p].rtPriority == rtPriority && t'[p].policy == policy && t'[p].resetOnFork == resetOnFork
  }

  // A policy and a priority that go together.
  predicate Acceptable(policy: bv32, rtPriority: int) {
    if policy == SCHED_FIFO || policy == SCHED_RR then 1 <= rtPriority <= RT_MAX
    else policy in {SCHED_OTHER, SCHED_BATCH, SCHED_IDLE} && rtPriority == 0
  }

  function Granted(rtPriority: int, root: bool): int {
    if !root && rtPriority > 20 then 20 else rtPriority
  }

  lemma LinkedNow(t: Table, lists: seq<seq<Ref>>, l: int, k: int, p: Ref)
    requires Queues(t, lists) && 0 <= l <= RT_MAX && 0 <= k < |lists[l]| && lists[l][k] == p
    ensures p in t && t[p].onReady && t[p].level == l
  {
    QueueMembers(t, lists, l);
    assert p in lists[l];
  }

  // What is left in the treap, and how it was ranked.
  ghost predicate Leaves(t: Table, t': Table, s: seq<Ref>, u: seq<Ref>, p: Ref) {
    && |u| <= |s| && p !in u && (forall r :: r in u ==> r in s && r in t && r in t' && SameKey(t'[r], t[r]))
  }

  lemma LeftInTreap(t: Table, t': Table, lists: seq<seq<Ref>>, l: int, k: int, q: Process)
    requires Queues(t, lists) && 0 <= l <= RT_MAX && 0 <= k < |lists[l]| && lists[l][k] in t && OnlyLinks(t, t', lists[l][k])
    ensures Leaves(t, t'[lists[l][k] := q], lists[0], Taken(lists, l, k)[0], lists[l][k])
    ensures t[lists[l][k]].level == l
  {
    QueueMembers(t, lists, 0);
    QueueMembers(t, lists, l);
    RemoveMembers(lists[l], k);
    assert lists[l][k] in lists[l];
  }

  lemma RecentLeft(t: Table, t': Table, s: seq<Ref>, u: seq<Ref>, p: Ref, x: int, newest: int)
    requires Recent(t, s, p, x, newest) && Leaves(t, t', s, u, p)
    ensures Recent(t', u, p, x, newest)
  {
    hide Rank;
    forall i | 0 <= i < |u| && u[i] in t'
      ensures t'[u[i]].order < newest && (Rank(t'[u[i]].runtime, x) == 0 ==> newest - t'[u[i]].order < HALF)
    {
      var r := u[i];
      assert r in u;
      var j :| 0 <= j < |s| && s[j] == r;
    }
  }

  lemma RoomLeft(t: Table, t': Table, s: seq<Ref>, u: seq<Ref>, p: Ref, x: int)
    requires Room(t, u, x) && Leaves(t, t', s, u, p)
    ensures Room(t', u, x)
  {
    hide Rank;
    if u != [] {
      var a, b := u[0], u[|u| - 1];
      assert a in u && b in u;
    }
  }

  lemma FitsAfterUnlink(t: Table, t': Table, lists: seq<seq<Ref>>, l: int, k: int,
                        sequence: int, weightTotal: int, count: int, q: Process)
    requires Queues(t, lists) && 0 <= l <= RT_MAX && 0 <= k < |lists[l]| && lists[l][k] in t && OnlyLinks(t, t', lists[l][k])
    requires Ordinary(t, lists[0], sequence, weightTotal, count)
    requires FitsAgain(t, lists, sequence, lists[l][k]) && q.runtime == t[lists[l][k]].runtime
    ensures Fits(t'[lists[l][k] := q], Taken(lists, l, k), sequence, lists[l][k])
  {
    hide Queues, OnlyLinks, Leaves, Recent, Room, Sorted, Rank;
    QueueMembers(t, lists, l);
    var p := lists[l][k];
    LeftInTreap(t, t', lists, l, k, q);
    var u := Taken(lists, l, k)[0];
    if l == 0 {
      RoomWithout(t, lists[0], k);
    }
    RoomLeft(t, t'[p := q], lists[0], u, p, q.runtime);
    RecentLeft(t, t'[p := q], lists[0], u, p, q.runtime, sequence + 1);
  }

  // Changing a process that is not queued changes nothing the queue keeps.
  lemma IdleChange(t: Table, heads: seq<Ref>, lists: seq<seq<Ref>>, sequence: int, weightTotal: int, count: int, p: Ref, q: Process)
    requires Queues(t, lists) && Rings(t, heads, lists) && Classed(t) && Ordinary(t, lists[0], sequence, weightTotal, count)
    requires p in t && !t[p].onReady && !q.onReady
    ensures var t' := t[p := q];
            Queues(t', lists) && Rings(t', heads, lists) && Classed(t') && Ordinary(t', lists[0], sequence, weightTotal, count)
  {
    var t' := t[p := q];
    assert t'.Keys == t.Keys;
    QueueMembers(t, lists, 0);
    forall l | 0 <= l <= RT_MAX ensures Members(t', lists[l], l) {
      MemberAt(t, lists[l], l);
      MembersOf(t', lists[l], l);
    }
    RingsUpdate(t, t', heads, lists, 0, p, lists[0]);
    assert lists[0 := lists[0]] == lists;
    OrdinaryFrame(t, t', lists[0], sequence, weightTotal, count);
  }

  // ---------------------------------------------------------------------------
  // Selection
  // ---------------------------------------------------------------------------

  predicate Allowed(r: Ref, skip: Ref, runnable: Ref -> bool) {
    r != skip && runnable(r)
  }

  // The first process of s that may run, or none.
  ghost function FirstAllowed(s: seq<Ref>, skip: Ref, runnable: Ref -> bool): Ref {
    if s == [] then NULL else if Allowed(s[0], skip, runnable) then s[0] else FirstAllowed(s[1..], skip, runnable)
  }

  // The first one in the highest ring from `top` down that has one, above `above`.
  ghost function FirstLevel(lists: seq<seq<Ref>>, top: int, above: int, skip: Ref, runnable: Ref -> bool): Ref
    requires 0 <= top < |lists|
    decreases top
  {
    if top == 0 || top <= above then NULL
    else
      var r := FirstAllowed(lists[top], skip, runnable);
      if r != NULL then r else FirstLevel(lists, top - 1, above, skip, runnable)
  }

  lemma RingNext(t: Table, heads: seq<Ref>, lists: seq<seq<Ref>>, l: int, k: int)
    requires Queues(t, lists) && Rings(t, heads, lists) && 1 <= l <= RT_MAX && 0 <= k < |lists[l]|
    ensures var s := lists[l];
            && s[k] != NULL && s[k] in t && t[s[k]].next == s[Succ(k, |s|)] != NULL && (s[k] == s[0] <==> k == 0)
            && (forall j :: 0 <= j < |s| ==> (s[j] == s[0] <==> j == 0))
  {
    var s := lists[l];
    QueueMembers(t, lists, l);
    RingStep(t, s, k);
    assert s[k] in s && s[Succ(k, |s|)] in s;
  }

  predicate Highest(b: int, bits: Word) {
    0 <= b < |bits| && bits[b] && forall c :: b < c < |bits| ==> !bits[c]
  }

  lemma {:induction false} HighestBelow(bits: Word, n: int)
    requires 0 <= n <= |bits| && forall c :: n <= c < |bits| ==> !bits[c]
    ensures (forall c :: 0 <= c < |bits| ==> !bits[c]) || exists b :: Highest(b, bits)
  {
    if n > 0 {
      if bits[n - 1] {
        assert Highest(n - 1, bits);
      } else {
        HighestBelow(bits, n - 1);
      }
    }
  }

  // The bits still to be tried are the word's bits up to level top.
  ghost predicate BitsBelow(bits: Word, all: Word, word: int, top: int) {
    |bits| == |all| == 64 && forall b :: 0 <= b < 64 ==> (bits[b] <==> all[b] && word * 64 + b <= top)
  }

  lemma {:induction false} EmptyLevels(lists: seq<seq<Ref>>, top: int, low: int, above: int, skip: Ref, runnable: Ref -> bool)
    requires 0 <= low <= top < |lists| && forall l :: low < l <= top ==> lists[l] == []
    ensures FirstLevel(lists, top, above, skip, runnable) == FirstLevel(lists, low, above, skip, runnable)
    decreases top
  {
    if low < top {
      EmptyLevels(lists, top - 1, low, above, skip, runnable);
      if low <= above {
        LowLevel(lists, low, above, skip, runnable);
      }
    }
  }

  lemma LowLevel(lists: seq<seq<Ref>>, low: int, above: int, skip: Ref, runnable: Ref -> bool)
    requires 0 <= low < |lists| && low <= above
    ensures FirstLevel(lists, low, above, skip, runnable) == NULL
  {
  }

  lemma WordBits(bitmap: seq<Word>, lists: seq<seq<Ref>>, word: int)
    requires Bits(bitmap, lists) && 0 <= word <= 1
    ensures |bitmap| == 2 && |lists| == RT_MAX + 1
    ensures |bitmap[word]| == 64
    ensures forall b :: 0 <= b < 64 && bitmap[word][b] ==> 1 <= word * 64 + b <= (if word == 1 then RT_MAX else 63)
    ensures forall l :: 1 <= l && word * 64 <= l <= (if word == 1 then RT_MAX else 63) && lists[l] != [] ==> bitmap[word][l - word * 64]
  {
  }

  // Between the highest remaining bit and top every ring is empty.
  lemma {:induction false} SkipEmpty(bitmap: seq<Word>, lists: seq<seq<Ref>>, bits: Word, word: int, top: int, b: int, above: int, skip: Ref, runnable: Ref -> bool)
    requires Bits(bitmap, lists) && 0 <= word <= 1 && 0 <= top <= (if word == 1 then RT_MAX else 63)
    requires BitsBelow(bits, bitmap[word], word, top) && Highest(b, bits)
    ensures |lists| == RT_MAX + 1 && 1 <= word * 64 + b <= top && 0 <= b
    ensures FirstLevel(lists, top, above, skip, runnable) == FirstLevel(lists, word * 64 + b, above, skip, runnable)
  {
    hide Bits, FirstLevel;
    WordBits(bitmap, lists, word);
    forall l | word * 64 + b < l <= top ensures lists[l] == [] {
      assert !bits[l - word * 64];
    }
    EmptyLevels(lists, top, word * 64 + b, above, skip, runnable);
  }

  lemma {:induction false} SkipRest(bitmap: seq<Word>, lists: seq<seq<Ref>>, bits: Word, word: int, top: int, above: int, skip: Ref, runnable: Ref -> bool)
    requires Bits(bitmap, lists) && 0 <= word <= 1 && 0 <= top && word * 64 - 1 <= top <= (if word == 1 then RT_MAX else 63)
    requires BitsBelow(bits, bitmap[word], word, top) && forall b :: 0 <= b < 64 ==> !bits[b]
    ensures |lists| == RT_MAX + 1
    ensures FirstLevel(lists, top, above, skip, runnable) == FirstLevel(lists, if word == 1 then 63 else 0, above, skip, runnable)
  {
    hide Bits, FirstLevel;
    WordBits(bitmap, lists, word);
    forall l | (if word == 1 then 63 else 0) < l <= top ensures lists[l] == [] {
      assert !bits[l - word * 64];
    }
    EmptyLevels(lists, top, if word == 1 then 63 else 0, above, skip, runnable);
  }

  ghost predicate NoneAllowed(s: seq<Ref>, skip: Ref, runnable: Ref -> bool) {
    forall i :: 0 <= i < |s| ==> !Allowed(s[i], skip, runnable)
  }

  // What FirstAllowed returns: the earliest one, or NULL when there is none.
  lemma {:induction false} FirstAllowedEarliest(s: seq<Ref>, skip: Ref, runnable: Ref -> bool) returns (k: int)
    requires NULL !in s
    ensures FirstAllowed(s, skip, runnable) == NULL <==> NoneAllowed(s, skip, runnable)
    ensures FirstAllowed(s, skip, runnable) != NULL ==>
              && 0 <= k < |s| && s[k] == FirstAllowed(s, skip, runnable) && Allowed(s[k], skip, runnable)
              && NoneAllowed(s[..k], skip, runnable)
  {
    k := 0;
    if s != [] && !Allowed(s[0], skip, runnable) {
      k := FirstAllowedEarliest(s[1..], skip, runnable);
      assert forall i :: 0 < i < |s| ==> s[i] == s[1..][i - 1];
      if FirstAllowed(s, skip, runnable) != NULL {
        assert s[..k + 1] == [s[0]] + s[1..][..k];
      }
      k := k + 1;
    } else if s != [] {
      assert s[0] in s;
    }
  }

  lemma {:induction false} FirstLevelHighest(lists: seq<seq<Ref>>, top: int, above: int, skip: Ref, runnable: Ref -> bool) returns (l: int)
    requires 0 <= top < |lists| && forall i :: 1 <= i <= top ==> NULL !in lists[i]
    ensures var r := FirstLevel(lists, top, above, skip, runnable);
            && (r != NULL ==> 1 <= l <= top && above < l && r == FirstAllowed(lists[l], skip, runnable))
            && (forall i :: 1 <= i <= top && above < i && (r == NULL || l < i) ==> NoneAllowed(lists[i], skip, runnable))
    decreases top
  {
    l := top;
    if top > 0 && top > above {
      var k := FirstAllowedEarliest(lists[top], skip, runnable);
      if FirstAllowed(lists[top], skip, runnable) == NULL {
        l := FirstLevelHighest(lists, top - 1, above, skip, runnable);
      }
    }
  }

  // r stands before p in s.
  ghost predicate Ahead(s: seq<Ref>, r: Ref, p: Ref) {
    exists i, j :: 0 <= i < j < |s| && s[i] == r && s[j] == p
  }

  // r is to run rather than p: a higher real-time level, then first come first
  // served within a level, and among ordinary processes the one that has run less.
  ghost predicate Preferred(t: Table, lists: seq<seq<Ref>>, r: Ref, p: Ref)
    requires r in t && p in t && 0 <= t[r].level < |lists|
  {
    || t[r].level > t[p].level
    || (t[r].level == t[p].level > 0 && Ahead(lists[t[r].level], r, p))
    || (t[r].level == t[p].level == 0 && RunsBefore(t[r], t[p]))
  }

  ghost predicate Chosen(t: Table, lists: seq<seq<Ref>>, runnable: Ref -> bool, r: Ref) {
    && (r == NULL ==> forall p :: p in t && t[p].onReady ==> !runnable(p))
    && (r != NULL ==>
          && r in t && t[r].onReady && runnable(r) && 0 <= t[r].level < |lists|
          && forall p :: p in t && t[p].onReady && runnable(p) && p != r ==> Preferred(t, lists, r, p))
  }

  lemma Selection(t: Table, lists: seq<seq<Ref>>, sequence: int, weightTotal: int, count: int, runnable: Ref -> bool, r: Ref)
    requires Queues(t, lists) && Ordinary(t, lists[0], sequence, weightTotal, count)
    requires var realtime := FirstLevel(lists, RT_MAX, 0, NULL, runnable);
             r == if realtime != NULL then realtime else FirstAllowed(lists[0], NULL, runnable)
    ensures Chosen(t, lists, runnable, r)
  {
    forall i | 0 <= i <= RT_MAX ensures NULL !in lists[i] {
      QueueMembers(t, lists, i);
    }
    var l := FirstLevelHighest(lists, RT_MAX, 0, NULL, runnable);
    if FirstLevel(lists, RT_MAX, 0, NULL, runnable) == NULL {
      l := 0;
    }
    var k := FirstAllowedEarliest(lists[l], NULL, runnable);
    forall p | p in t && t[p].onReady && runnable(p)
      ensures r != NULL && r in t && t[r].onReady && t[r].level == l && runnable(r) && (p != r ==> Preferred(t, lists, r, p))
    {
      Beats(t, lists, sequence, weightTotal, count, runnable, l, k, r, p);
    }
    if r != NULL {
      QueueMembers(t, lists, l);
      assert r in lists[l];
    }
  }

  lemma Beats(t: Table, lists: seq<seq<Ref>>, sequence: int, weightTotal: int, count: int, runnable: Ref -> bool, l: int, k: int, r: Ref, p: Ref)
    requires Queues(t, lists) && Ordinary(t, lists[0], sequence, weightTotal, count) && 0 <= l <= RT_MAX
    requires r == NULL ==> l == 0 && NoneAllowed(lists[0], NULL, runnable)
    requires r != NULL ==> 0 <= k < |lists[l]| && lists[l][k] == r && runnable(r) && NoneAllowed(lists[l][..k], NULL, runnable)
    requires forall i :: l < i <= RT_MAX ==> NoneAllowed(lists[i], NULL, runnable)
    requires p in t && t[p].onReady && runnable(p)
    ensures r != NULL && r in t && t[r].onReady && t[r].level == l && (p != r ==> Preferred(t, lists, r, p))
  {
    var j := RingIndex(t, lists, p);
    var m := t[p].level;
    QueueMembers(t, lists, m);
    assert p in lists[m];
    assert !NoneAllowed(lists[m], NULL, runnable) by {
      assert Allowed(lists[m][j], NULL, runnable);
    }
    assert m <= l && r != NULL;
    QueueMembers(t, lists, l);
    assert r in lists[l];
    if m == l && p != r {
      if j < k {
        assert lists[l][..k][j] == p && Allowed(p, NULL, runnable);
      }
      assert k < j;
      assert lists[l][k] == r && lists[l][j] == p;
    }
  }

  lemma {:induction false} NobodyQueued(lists: seq<seq<Ref>>)
    requires TotalLength(lists) == 0
    ensures forall i :: 0 <= i < |lists| ==> lists[i] == []
  {
    if lists != [] {
      NonNegativeLength(lists[1..]);
      NobodyQueued(lists[1..]);
      forall i | 0 <= i < |lists| ensures lists[i] == [] {
        assert i > 0 ==> lists[i] == lists[1..][i - 1];
      }
    }
  }

  lemma NothingToChoose(lists: seq<seq<Ref>>, runnable: Ref -> bool)
    requires TotalLength(lists) == 0 && |lists| == RT_MAX + 1
    ensures FirstLevel(lists, RT_MAX, 0, NULL, runnable) == FirstAllowed(lists[0], NULL, runnable) == NULL
  {
    NobodyQueued(lists);
    EmptyLevels(lists, RT_MAX, 0, 0, NULL, runnable);
  }

  lemma {:induction false} NonNegativeLength(lists: seq<seq<Ref>>)
    ensures TotalLength(lists) >= 0
  {
    if lists != [] {
      NonNegativeLength(lists[1..]);
    }
  }

  class RunQueue {
    const index: Treap
    var procs: Table
    var heads: seq<Ref>
    var bitmap: seq<Word>
    var ready: int
    var ordinary: int
    var weightTotal: int
    var seed: bv32
    var sequence: int
    ghost var lists: seq<seq<Ref>>

    // Everything the scheduler keeps redundantly agrees with the lists.
    ghost predicate Valid()
      reads this, index
    {
      && Queues(procs, lists)
      && Rings(procs, heads, lists) && Bits(bitmap, lists)
      && Indexed(lists[0]) && Classed(procs)
      && Ordinary(procs, lists[0], sequence, weightTotal, ordinary)
      && ready == TotalLength(lists)
    }

    ghost predicate Indexed(s: seq<Ref>)
      reads index
    {
      index.Valid() && index.Order() == s
    }

    constructor (processes: Table)
      requires forall p :: p in processes ==> !processes[p].onReady
      ensures Valid() && procs == processes && fresh(index) && TotalLength(lists) == 0
    {
      index := new Treap();
      procs := processes;
      heads := seq(RT_MAX + 1, _ => NULL);
      bitmap := [seq(64, _ => false), seq(64, _ => false)];
      ready, ordinary, weightTotal, seed, sequence := 0, 0, 0, 0x9E3779B9, 0;
      lists := seq(RT_MAX + 1, _ => []);
      new;
      NoLists(lists);
    }

    // The stores into the ring that ends at head's predecessor.
    method Splice(p: Ref, level: int, head: Ref)
      requires p in procs && (head != NULL ==> head in procs && procs[head].prev in procs && p != head && p != procs[head].prev)
      modifies this`procs
      ensures Appended(old(procs), procs, p, level, head)
    {
      var m := procs;
      m := m[p := m[p].(onReady := true, level := level)];
      if head == NULL {
        m := m[p := m[p].(next := p, prev := p)];
      } else {
        var last := m[head].prev;
        m := m[p := m[p].(prev := last, next := head)];
        m := m[last := m[last].(next := p)];
        m := m[head := m[head].(prev := p)];
      }
      procs := m;
    }

    // A real-time process joins the tail of the ring of its level.
    method LinkRealtime(p: Ref)
      requires Valid() && p != NULL && p in procs && !procs[p].onReady && procs[p].rtPriority > 0
      modifies this
      ensures Valid() && OnlyLinks(old(procs), procs, p)
      ensures var l := LevelOf(procs[p].rtPriority);
              lists == old(lists)[l := old(lists)[l] + [p]]
    {
      hide Queues, Rings, Bits, Ordinary, Ring, NoRepeats, Members, Appended, OnlyLinks, Indexed, Classed, TotalLength;
      var level := LevelOf(procs[p].rtPriority);
      RingEnds(procs, heads, lists, level);
      Sizes(procs, bitmap, lists);
      ghost var heads0, bitmap0 := heads, bitmap;
      var head := heads[level];
      if head == NULL {
        heads := heads[level := p];
      }
      Splice(p, level, head);
      AppendedLinks(old(procs), procs, p, level, head);
      ClassedUpdate(old(procs), procs, p);
      bitmap := bitmap[level / 64 := bitmap[level / 64][level % 64 := true]];
      ready := ready + 1;
      LinkRealtimeKeeps(old(procs), procs, heads0, bitmap0, lists, sequence, weightTotal, ordinary, p, level);
      lists := lists[level := lists[level] + [p]];
    }

    // The stores that take a process out of its ring.
    method Unsplice(p: Ref)
      requires p in procs && procs[p].next in procs && procs[p].prev in procs && (procs[p].next == p <==> procs[p].prev == p)
      modifies this`procs
      ensures Detached(old(procs), procs, p)
    {
      var m := procs;
      m := m[p := m[p].(onReady := false)];
      if m[p].next != p {
        var before, after := m[p].prev, m[p].next;
        m := m[before := m[before].(next := after)];
        m := m[after := m[after].(prev := before)];
      }
      m := m[p := m[p].(next := NULL, prev := NULL)];
      procs := m;
    }

    method UnlinkRealtime(p: Ref) returns (ghost k: int)
      requires Valid() && p in procs && procs[p].onReady && procs[p].level > 0
      modifies this
      ensures Valid() && OnlyLinks(old(procs), procs, p) && !procs[p].onReady && sequence == old(sequence)
      ensures var l := old(procs[p].level);
              && l <= RT_MAX && |lists| == RT_MAX + 1 && 0 <= k < |old(lists)[l]| && old(lists)[l][k] == p
              && lists == old(lists)[l := old(lists)[l][..k] + old(lists)[l][k + 1..]]
    {
      hide Queues, Rings, Bits, Ordinary, Ring, NoRepeats, Members, Detached, OnlyLinks, Indexed, Classed, TotalLength;
      Sizes(procs, bitmap, lists);
      k := RingIndex(procs, lists, p);
      UnlinkLegal(procs, heads, lists, procs[p].level, k);
      ghost var heads0, bitmap0 := heads, bitmap;
      var level, next := procs[p].level, procs[p].next;
      Unsplice(p);
      DetachedLinks(old(procs), procs, p);
      ClassedUpdate(old(procs), procs, p);
      if next == p {
        heads := heads[level := NULL];
        bitmap := bitmap[level / 64 := bitmap[level / 64][level % 64 := false]];
      } else if heads[level] == p {
        heads := heads[level := next];
      }
      ready := ready - 1;
      UnlinkRealtimeKeeps(old(procs), procs, heads0, heads, bitmap0, bitmap, lists, sequence, weightTotal, ordinary, level, k);
      lists := lists[level := lists[level][..k] + lists[level][k + 1..]];
    }

    // The treap takes the newcomer under a pseudo-random priority.
    method IndexInsert(p: Ref, goLeft: Ref -> bool, ghost s: seq<Ref>) returns (ghost k: int)
      requires Indexed(s) && p != NULL && p !in s && Monotone(goLeft, s)
      modifies this`seed, index
      ensures 0 <= k <= |s| && Narrowed(goLeft, s, k, k) && Indexed(s[..k] + [p] + s[k..])
    {
      seed := seed ^ (seed << 13);
      seed := seed ^ (seed >> 17);
      seed := seed ^ (seed << 5);
      index.OrderFacts();
      k := index.Insert(p, seed as int, goLeft);
    }

    method IndexRemove(p: Ref, ghost s: seq<Ref>, ghost k: int)
      requires Indexed(s) && 0 <= k < |s| && s[k] == p
      modifies index
      ensures Indexed(s[..k] + s[k + 1..])
    {
      index.OrderFacts();
      ghost var j := index.Remove(p);
    }

    // An ordinary process enters the treap with its weight and a fresh insertion number.
    method LinkOrdinary(p: Ref) returns (ghost k: int)
      requires Valid() && p != NULL && p in procs && !procs[p].onReady && procs[p].rtPriority <= 0
      requires Fits(procs, lists, sequence, p)
      modifies this, index
      ensures Valid() && OnlyLinks(old(procs), procs, p)
      ensures procs[p].weight == ProcessWeight(procs[p].nice) && sequence == old(sequence) + 1
      ensures 0 <= k <= |old(lists)[0]| && lists == old(lists)[0 := old(lists)[0][..k] + [p] + old(lists)[0][k..]]
    {
      hide Queues, Rings, Bits, Ordinary, Indexed, Classed, OnlyLinks, Based, Fits, Recent, Directs, ProcessWeight, RunsBefore, Rank, TotalLength;
      var w := ProcessWeight(procs[p].nice);
      var q := procs[p].(onReady := true, level := 0, weight := w, order := sequence + 1);
      var m := procs[p := q];
      var goLeft := (r: Ref) => r in m && RunsBefore(q, m[r]);
      ghost var base := OrdinaryGo(procs, lists, p, q, goLeft, sequence, weightTotal, ordinary);
      k := IndexInsert(p, goLeft, lists[0]);
      LinkOrdinaryKeeps(procs, heads, bitmap, lists, sequence, weightTotal, ordinary, p, q, base, goLeft, k);
      ClassedUpdate(procs, m, p);
      ready, weightTotal, ordinary, sequence := ready + 1, weightTotal + w, ordinary + 1, sequence + 1;
      procs, lists := m, lists[0 := lists[0][..k] + [p] + lists[0][k..]];
    }

    method UnlinkOrdinary(p: Ref) returns (ghost k: int)
      requires Valid() && p in procs && procs[p].onReady && procs[p].level == 0
      modifies this, index
      ensures Valid() && OnlyLinks(old(procs), procs, p) && !procs[p].onReady && sequence == old(sequence)
      ensures 0 <= k < |old(lists)[0]| && old(lists)[0][k] == p
      ensures lists == old(lists)[0 := old(lists)[0][..k] + old(lists)[0][k + 1..]]
    {
      hide Queues, Rings, Bits, Ordinary, Indexed, Classed, OnlyLinks, TotalLength;
      Sizes(procs, bitmap, lists);
      k := RingIndex(procs, lists, p);
      var w := procs[p].weight;
      IndexRemove(p, lists[0], k);
      UnlinkOrdinaryKeeps(procs, heads, bitmap, lists, sequence, weightTotal, ordinary, k);
      ClassedUpdate(procs, procs[p := procs[p].(onReady := false)], p);
      ready, weightTotal, ordinary := ready - 1, weightTotal - w, ordinary - 1;
      procs := procs[p := procs[p].(onReady := false)];
      lists := lists[0 := lists[0][..k] + lists[0][k + 1..]];
    }

    // A no-op on a queued process; otherwise it joins the list of its class.
    method ReadyLink(p: Ref) returns (ghost k: int)
      requires Valid() && p != NULL && p in procs
      requires !procs[p].onReady && procs[p].rtPriority <= 0 ==> Fits(procs, lists, sequence, p)
      modifies this, index
      ensures Valid() && OnlyLinks(old(procs), procs, p) && procs[p].onReady
      ensures old(procs[p].onReady) ==> procs == old(procs) && lists == old(lists)
      ensures !old(procs[p].onReady) ==>
                var l := LevelOf(procs[p].rtPriority);
                && l < |old(lists)| && 0 <= k <= |old(lists)[l]| && (l > 0 ==> k == |old(lists)[l]|)
                && lists == Placed(old(lists), l, k, p)
    {
      hide Queues, Rings, Bits, Ordinary, Indexed, Classed, TotalLength, Fits, Rank;
      Sizes(procs, bitmap, lists);
      k := 0;
      if procs[p].onReady {
        return;
      }
      if procs[p].rtPriority > 0 {
        ghost var s := lists[LevelOf(procs[p].rtPriority)];
        assert s[..|s|] + [p] + s[|s|..] == s + [p];
        k := |s|;
        LinkRealtime(p);
        LinkedNow(procs, lists, LevelOf(procs[p].rtPriority), k, p);
        return;
      }
      k := LinkOrdinary(p);
      LinkedNow(procs, lists, 0, k, p);
    }

    // A no-op on a process that is not queued; otherwise it leaves the list it is on.
    method ReadyUnlink(p: Ref) returns (ghost k: int)
      requires Valid() && p in procs
      modifies this, index
      ensures Valid() && OnlyLinks(old(procs), procs, p) && !procs[p].onReady && sequence == old(sequence)
      ensures !old(procs[p].onReady) ==> procs == old(procs) && lists == old(lists)
      ensures old(procs[p].onReady) ==>
                var l := old(procs[p].level);
                && 0 <= l < |old(lists)| && 0 <= k < |old(lists)[l]| && old(lists)[l][k] == p
                && lists == Taken(old(lists), l, k)
    {
      hide Queues, Rings, Bits, Ordinary, Indexed, Classed, TotalLength;
      Sizes(procs, bitmap, lists);
      k := 0;
      if !procs[p].onReady {
        return;
      }
      ghost var j := RingIndex(procs, lists, p);
      if procs[p].level > 0 {
        k := UnlinkRealtime(p);
        return;
      }
      k := UnlinkOrdinary(p);
    }

    // Scheduling parameters change only while the process is off the queue.
    method Requeue(p: Ref, nice: int, rtPriority: int, policy: bv32, resetOnFork: bool)
      returns (ghost k: int, ghost j: int)
      requires Valid() && p != NULL && p in procs
      requires procs[p].onReady && rtPriority <= 0 ==> FitsAgain(procs, lists, sequence, p)
      modifies this, index
      ensures Valid() && Requeued(old(procs), procs, p, nice, rtPriority, policy, resetOnFork)
      ensures !old(procs[p].onReady) ==> lists == old(lists)
      ensures old(procs[p].onReady) ==> Moved(old(lists), lists, p, old(procs[p].level), k, LevelOf(rtPriority), j)
    {
      hide Queues, Rings, Bits, Ordinary, Indexed, TotalLength, Rank, Fits, FitsAgain;
      ghost var lists0, sequence0 := lists, sequence;
      var queued := procs[p].onReady;
      k, j := 0, 0;
      if queued {
        k := ReadyUnlink(p);
      }
      var q := procs[p].(nice := nice, rtPriority := rtPriority, policy := policy, resetOnFork := resetOnFork);
      IdleChange(procs, heads, lists, sequence, weightTotal, ordinary, p, q);
      if queued && rtPriority <= 0 {
        FitsAfterUnlink(old(procs), procs, lists0, old(procs[p].level), k, sequence, old(weightTotal), old(ordinary), q);
      }
      procs := procs[p := q];
      if queued {
        j := ReadyLink(p);
      }
    }

    // process_set_nice
    method SetNice(target: Ref, nice: int, root: bool) returns (code: int, ghost k: int, ghost j: int)
      requires Valid() && (target == NULL || target in procs)
      requires target != NULL && procs[target].onReady && procs[target].rtPriority <= 0 ==>
                 |lists| > 0 && Recent(procs, lists[0], target, procs[target].runtime, sequence + 1)
      modifies this, index
      ensures Valid()
      ensures var n := if nice < -20 then -20 else if nice > 19 then 19 else nice;
              && code == (if target == NULL then -ESRCH else if n < old(procs[target].nice) && !root then -EACCES else 0)
              && (code == 0 ==> var t := old(procs);
                    && Requeued(t, procs, target, n, t[target].rtPriority, t[target].policy, t[target].resetOnFork)
                    && (!t[target].onReady ==> lists == old(lists))
                    && (t[target].onReady ==> Moved(old(lists), lists, target, t[target].level, k, LevelOf(t[target].rtPriority), j)))
      ensures code != 0 ==> procs == old(procs) && lists == old(lists)
    {
      hide Queues, Rings, Bits, Ordinary, Indexed, TotalLength, Rank, Fits, Requeued, Moved, Room, Recent;
      k, j := 0, 0;
      if target == NULL {
        return -ESRCH, 0, 0;
      }
      var n := nice;
      if n < -20 {
        n := -20;
      }
      if n > 19 {
        n := 19;
      }
      if n < procs[target].nice && !root {
        return -EACCES, 0, 0;
      }
      k, j := Requeue(target, n, procs[target].rtPriority, procs[target].policy, procs[target].resetOnFork);
      code := 0;
    }

    // process_set_scheduler
    method SetScheduler(target: Ref, flags: bv32, rtPriority: int, root: bool)
      returns (code: int, ghost k: int, ghost j: int)
      requires Valid() && (target == NULL || target in procs)
      requires target != NULL && procs[target].onReady && rtPriority == 0 ==> FitsAgain(procs, lists, sequence, target)
      modifies this, index
      ensures Valid()
      ensures code == (if target == NULL then -ESRCH
                       else if !Acceptable(flags & !SCHED_RESET_ON_FORK, rtPriority) then -EINVAL else 0)
      ensures code == 0 ==> var t := old(procs);
                && Requeued(t, procs, target, t[target].nice, Granted(rtPriority, root),
                            flags & !SCHED_RESET_ON_FORK, flags & SCHED_RESET_ON_FORK != 0)
                && (!t[target].onReady ==> lists == old(lists))
                && (t[target].onReady ==> Moved(old(lists), lists, target, t[target].level, k, LevelOf(Granted(rtPriority, root)), j))
      ensures code != 0 ==> procs == old(procs) && lists == old(lists)
    {
      hide Queues, Rings, Bits, Ordinary, Indexed, TotalLength, Rank, Fits, FitsAgain, Requeued, Moved;
      k, j := 0, 0;
      if target == NULL {
        return -ESRCH, 0, 0;
      }
      var reset := flags & SCHED_RESET_ON_FORK != 0;
      var policy := flags & !SCHED_RESET_ON_FORK;
      var realtime := policy == SCHED_FIFO || policy == SCHED_RR;
      if !realtime && policy != SCHED_OTHER && policy != SCHED_BATCH && policy != SCHED_IDLE {
        return -EINVAL, 0, 0;
      }
      var priority := rtPriority;
      if realtime {
        if priority < 1 || priority > RT_MAX {
          return -EINVAL, 0, 0;
        }
        if !root && priority > RT_UNPRIVILEGED_MAX {
          priority := RT_UNPRIVILEGED_MAX;
        }
      } else {
        if priority != 0 {
          return -EINVAL, 0, 0;
        }
      }
      k, j := Requeue(target, procs[target].nice, if realtime then priority else 0, policy, reset);
      code := 0;
    }

    // The first allowed process of one ring, walking from its head.
    method FirstInRing(l: int, skip: Ref, runnable: Ref -> bool) returns (r: Ref)
      requires Valid() && 1 <= l <= RT_MAX
      ensures l < |lists| && r == FirstAllowed(lists[l], skip, runnable)
    {
      hide Queues, Rings, Bits, Ordinary, Indexed, TotalLength, Classed, Ring, NoRepeats;
      Sizes(procs, bitmap, lists);
      RingEnds(procs, heads, lists, l);
      var head := heads[l];
      ghost var s, k := lists[l], 0;
      var walk := head;
      while walk != NULL
        invariant s != [] ==> 0 <= k < |s| && walk == s[k]
        invariant s == [] <==> walk == NULL
        invariant k <= |s| && FirstAllowed(s, skip, runnable) == FirstAllowed(s[k..], skip, runnable)
        decreases |s| - k
      {
        if walk != skip && runnable(walk) {
          assert s[k..][0] == walk;
          RingNext(procs, heads, lists, l, k);
          return walk;
        }
        assert s[k..][1..] == s[k + 1..];
        RingNext(procs, heads, lists, l, k);
        walk := procs[walk].next;
        k := k + 1;
        if walk == head {
          return NULL;
        }
      }
      return NULL;
    }

    // The levels are tried from the highest set bit down, and none at or below `above`.
    method FirstAllowedRt(above: int, skip: Ref, runnable: Ref -> bool) returns (r: Ref)
      requires Valid()
      ensures |lists| == RT_MAX + 1 && r == FirstLevel(lists, RT_MAX, above, skip, runnable)
    {
      hide Queues, Rings, Bits, Ordinary, Indexed, TotalLength, Classed, FirstAllowed;
      Sizes(procs, bitmap, lists);
      // no ring above `top` has a process to return
      ghost var top := RT_MAX;
      var word := 1;
      while word >= 0
        invariant -1 <= word <= 1 && top == (if word == 1 then RT_MAX else if word == 0 then 63 else 0)
        invariant FirstLevel(lists, RT_MAX, above, skip, runnable) == FirstLevel(lists, top, above, skip, runnable)
      {
        var bits := bitmap[word];
        WordBits(bitmap, lists, word);
        while exists b :: 0 <= b < 64 && bits[b]
          invariant 64 * word - 1 <= top <= 64 * word + 63 && 0 <= top <= RT_MAX
          invariant BitsBelow(bits, bitmap[word], word, top)
          invariant FirstLevel(lists, RT_MAX, above, skip, runnable) == FirstLevel(lists, top, above, skip, runnable)
          decreases top
        {
          HighestBelow(bits, 64);
          var b :| Highest(b, bits);
          var level := word * 64 + b;
          SkipEmpty(bitmap, lists, bits, word, top, b, above, skip, runnable);
          bits := bits[b := false];
          if level <= above {
            return NULL;
          }
          r := FirstInRing(level, skip, runnable);
          if r != NULL {
            return r;
          }
          top := level - 1;
        }
        SkipRest(bitmap, lists, bits, word, top, above, skip, runnable);
        top := if word == 1 then 63 else 0;
        word := word - 1;
      }
      return NULL;
    }

    method FirstAllowedOrdinary(skip: Ref, runnable: Ref -> bool) returns (r: Ref)
      requires Valid()
      ensures |lists| > 0 && r == FirstAllowed(lists[0], skip, runnable)
    {
      hide Queues, Rings, Bits, Ordinary, TotalLength, Classed, NoRepeats;
      Sizes(procs, bitmap, lists);
      QueueMembers(procs, lists, 0);
      ghost var s, k := lists[0], 0;
      var walk := index.First();
      assert s != [] ==> s[0] in s;
      while walk != NULL
        invariant 0 <= k <= |s| && (if k < |s| then walk == s[k] else walk == NULL) && (walk == NULL ==> k == |s|)
        invariant FirstAllowed(s, skip, runnable) == FirstAllowed(s[k..], skip, runnable)
        decreases |s| - k
      {
        assert s[k] == s[k..][0] == walk && s[k] in s && s[k..][1..] == s[k + 1..];
        if walk != skip && runnable(walk) {
          return walk;
        }
        index.OrderFacts();
        ghost var j;
        walk, j := index.Next(walk);
        Differ(s, j, k);
        assert k + 1 < |s| ==> s[k + 1] in s;
        k := k + 1;
      }
      return NULL;
    }

    // next_runnable: a real-time process if one may run, otherwise the first ordinary one.
    method NextRunnable(runnable: Ref -> bool) returns (r: Ref)
      requires Valid()
      ensures Chosen(procs, lists, runnable, r)
    {
      hide Queues, Rings, Bits, Ordinary, Indexed, TotalLength, Classed, FirstLevel, FirstAllowed, Chosen;
      Sizes(procs, bitmap, lists);
      if ready == 0 {
        NothingToChoose(lists, runnable);
        Selection(procs, lists, sequence, weightTotal, ordinary, runnable, NULL);
        return NULL;
      }
      r := FirstAllowedRt(0, NULL, runnable);
      if r == NULL {
        r := FirstAllowedOrdinary(NULL, runnable);
      }
      Selection(procs, lists, sequence, weightTotal, ordinary, runnable, r);
    }
  }

  // A search for q's place turns left exactly at the members q runs before.
  ghost predicate Directs(goLeft: Ref -> bool, q: Process, t: Table, s: seq<Ref>) {
    forall i :: 0 <= i < |s| ==> s[i] in t && (goLeft(s[i]) <==> RunsBefore(q, t[s[i]]))
  }

  lemma OrdinaryGo(t: Table, lists: seq<seq<Ref>>, p: Ref, q: Process, goLeft: Ref -> bool,
                   sequence: int, weightTotal: int, count: int) returns (base: int)
    requires Queues(t, lists) && p in t && !t[p].onReady && Ordinary(t, lists[0], sequence, weightTotal, count)
    requires q.runtime == t[p].runtime && q.order == sequence + 1 && Fits(t, lists, sequence, p)
    requires forall r :: goLeft(r) <==> r in t[p := q] && RunsBefore(q, t[p := q][r])
    ensures |lists| == RT_MAX + 1 && Monotone(goLeft, lists[0]) && p !in lists[0]
    ensures Directs(goLeft, q, t, lists[0]) && Based(t, lists[0], base) && Rank(base, q.runtime) < HALF
    ensures Recent(t, lists[0], p, q.runtime, q.order)
  {
    var s := lists[0];
    QueueMembers(t, lists, 0);
    base := RoomBase(t, s, q.runtime);
    hide RunsBefore, Rank, Sorted, Room, Recent;
    forall i | 0 <= i < |s| ensures s[i] in t && (goLeft(s[i]) <==> RunsBefore(q, t[s[i]])) {
      assert s[i] in s;
    }
    NewcomerMonotone(t, s, p, q, base, goLeft);
  }

  lemma LinkOrdinaryKeeps(t: Table, heads: seq<Ref>, bitmap: seq<Word>, lists: seq<seq<Ref>>,
                          sequence: int, weightTotal: int, count: int, p: Ref, q: Process, base: int, goLeft: Ref -> bool, k: int)
    requires Queues(t, lists) && Rings(t, heads, lists) && Bits(bitmap, lists)
    requires Ordinary(t, lists[0], sequence, weightTotal, count)
    requires p != NULL && p in t && !t[p].onReady
    requires q == t[p].(onReady := true, level := 0, weight := q.weight, order := sequence + 1)
    requires Based(t, lists[0], base) && Rank(base, q.runtime) < HALF && Recent(t, lists[0], p, q.runtime, q.order)
    requires Directs(goLeft, q, t, lists[0])
    requires Narrowed(goLeft, lists[0], k, k)
    ensures var t' := t[p := q]; var lists' := lists[0 := lists[0][..k] + [p] + lists[0][k..]];
            && Queues(t', lists') && Rings(t', heads, lists') && Bits(bitmap, lists')
            && Ordinary(t', lists'[0], sequence + 1, weightTotal + q.weight, count + 1)
            && TotalLength(lists') == TotalLength(lists) + 1 && OnlyLinks(t, t', p)
  {
    hide Rank, RunsBefore, Ordinary, Recent, Based;
    var t', s := t[p := q], lists[0];
    var u := s[..k] + [p] + s[k..];
    assert t'.Keys == t.Keys;
    QueuesAdd(t, t', lists, 0, k, p);
    QueueMembers(t, lists, 0);
    RingsUpdate(t, t', heads, lists, 0, p, u);
    TotalLengthUpdate(lists, 0, u);
    OrdinaryAdd(t, s, sequence, weightTotal, count, p, q, base, goLeft, k);
  }

  lemma OrdinaryAdd(t: Table, s: seq<Ref>, sequence: int, weightTotal: int, count: int, p: Ref, q: Process, base: int, goLeft: Ref -> bool, k: int)
    requires Ordinary(t, s, sequence, weightTotal, count) && p !in s && q.order == sequence + 1
    requires Based(t, s, base) && Rank(base, q.runtime) < HALF && Recent(t, s, p, q.runtime, q.order)
    requires Directs(goLeft, q, t, s) && Narrowed(goLeft, s, k, k)
    ensures Ordinary(t[p := q], s[..k] + [p] + s[k..], sequence + 1, weightTotal + q.weight, count + 1)
  {
    hide Rank, RunsBefore, Recent, Based;
    var t', u := t[p := q], s[..k] + [p] + s[k..];
    NewcomerSorted(t, s, p, q, base, goLeft, k);
    hide Sorted, TotalWeight;
    forall i | 0 <= i < |u| ensures t'[u[i]].order <= sequence + 1 {
      assert u[i] == if i < k then s[i] else if i == k then p else s[i - 1];
    }
    OrdinaryFrame(t, t', s, sequence, weightTotal, count);
    TotalWeightInsert(t', s, k, p);
  }

  lemma UnlinkOrdinaryKeeps(t: Table, heads: seq<Ref>, bitmap: seq<Word>, lists: seq<seq<Ref>>,
                            sequence: int, weightTotal: int, count: int, k: int)
    requires Queues(t, lists) && Rings(t, heads, lists) && Bits(bitmap, lists)
    requires Ordinary(t, lists[0], sequence, weightTotal, count)
    requires 0 <= k < |lists[0]| && lists[0][k] in t && t[lists[0][k]].onReady && t[lists[0][k]].level == 0
    ensures var p := lists[0][k]; var t' := t[p := t[p].(onReady := false)]; var lists' := lists[0 := lists[0][..k] + lists[0][k + 1..]];
            && Queues(t', lists') && Rings(t', heads, lists') && Bits(bitmap, lists')
            && Ordinary(t', lists'[0], sequence, weightTotal - t[p].weight, count - 1)
            && TotalLength(lists') == TotalLength(lists) - 1 && OnlyLinks(t, t', p)
  {
    var s, p := lists[0], lists[0][k];
    var t', u := t[p := t[p].(onReady := false)], s[..k] + s[k + 1..];
    assert t'.Keys == t.Keys;
    QueueMembers(t, lists, 0);
    OrdinaryDrop(t, s, sequence, weightTotal, count, k);
    hide Ordinary;
    QueuesDrop(t, t', lists, 0, k);
    RingsUpdate(t, t', heads, lists, 0, p, u);
    TotalLengthUpdate(lists, 0, u);
  }

  // The first list without one of its processes.
  lemma OrdinaryDrop(t: Table, s: seq<Ref>, sequence: int, weightTotal: int, count: int, k: int)
    requires Ordinary(t, s, sequence, weightTotal, count) && 0 <= k < |s| && NoRepeats(s) && forall q :: q in s ==> q in t
    ensures s[k] in t
    ensures var p := s[k]; var t' := t[p := t[p].(onReady := false)];
            Ordinary(t', s[..k] + s[k + 1..], sequence, weightTotal - t[p].weight, count - 1)
  {
    var p := s[k];
    var t', u := t[p := t[p].(onReady := false)], s[..k] + s[k + 1..];
    assert t'.Keys == t.Keys;
    SortedRemove(t, s, k);
    forall i | 0 <= i < |u| ensures u[i] in t && t[u[i]].order <= sequence {
      assert u[i] == s[if i < k then i else i + 1];
    }
    assert u[..k] + [p] + u[k..] == s;
    TotalWeightInsert(t, u, k, p);
    SortedFrame(t, t', u);
    TotalWeightFrame(t, t', u);
  }

  lemma AppendedLinks(t: Table, t': Table, p: Ref, level: int, head: Ref)
    requires Appended(t, t', p, level, head) && p in t
    ensures OnlyLinks(t, t', p) && t'[p].onReady && t'[p].level == level && t'[p].rtPriority == t[p].rtPriority
  {
  }

  lemma DetachedLinks(t: Table, t': Table, p: Ref)
    requires Detached(t, t', p)
    ensures OnlyLinks(t, t', p) && !t'[p].onReady && t'[p].rtPriority == t[p].rtPriority
  {
  }

  lemma UnlinkLegal(t: Table, heads: seq<Ref>, lists: seq<seq<Ref>>, l: int, k: int)
    requires Queues(t, lists) && Rings(t, heads, lists) && 1 <= l <= RT_MAX && 0 <= k < |lists[l]|
    ensures |heads| == RT_MAX + 1 && var p := lists[l][k];
            && p in t && t[p].next in t && t[p].prev in t
            && (t[p].next == p <==> t[p].prev == p)
  {
    var s := lists[l];
    MemberAt(t, s, l);
    RingStep(t, s, k);
    Differ(s, Succ(k, |s|), k);
    Differ(s, Pred(k, |s|), k);
    assert s[Succ(k, |s|)] in s && s[Pred(k, |s|)] in s && s[k] in s;
  }

  lemma {:induction false} NoLists(lists: seq<seq<Ref>>)
    requires forall i :: 0 <= i < |lists| ==> lists[i] == []
    ensures TotalLength(lists) == 0
  {
    if lists != [] {
      NoLists(lists[1..]);
    }
  }
}
