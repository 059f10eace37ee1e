/**
 A process's signal queue and pending mask (kernel/core/process.c,
 `queue_signal_entry`, `dequeue_signal`, `flush_signals`,
 `process_unqueue_signal_entry_locked`).

 A 64-bit signal mask is a sequence indexed by signal number; index 0 is unused.
 The linked queue is a sequence of entries, and `id` tells the entries apart:
 the slot of standard signal n is entry n.
 */
module SignalQueues {
  import opened Errno
  import opened Options

  const NSIG: int := 64
  const SIGRTMIN: int := 32
  const SIGCONT: int := 18

  const SI_USER: int := 0
  const SI_KERNEL: int := 128

  type Mask = seq<bool>

  // `id` tells entries apart as their addresses do: the slot of a standard signal has
  // its number, an allocated entry a fresh number above, and an entry prepared by its
  // owner (a timer) a number of its own that is not positive.
  datatype Entry = Entry(id: int, signo: int, code: int, heap: bool)

  predicate IsSignal(n: int) {
    1 <= n <= NSIG
  }

  predicate IsStop(n: int) {
    19 <= n <= 22
  }

  predicate IsSynchronous(n: int) {
    n == 11 || n == 7 || n == 4 || n == 5 || n == 8 || n == 31
  }

  // ---------------------------------------------------------------------------
  // Queues by number
  // ---------------------------------------------------------------------------

  // The entries of one number, in the order they came.
  ghost function Of(q: seq<Entry>, n: int): seq<Entry> {
    if q == [] then [] else Of(q[..|q| - 1], n) + if q[|q| - 1].signo == n then [q[|q| - 1]] else []
  }

  ghost function Allocated(q: seq<Entry>): int {
    if q == [] then 0 else Allocated(q[..|q| - 1]) + if q[|q| - 1].heap then 1 else 0
  }

  lemma {:induction false} OfConcat(a: seq<Entry>, b: seq<Entry>, n: int)
    ensures Of(a + b, n) == Of(a, n) + Of(b, n)
    decreases |b|
  {
    if b == [] {
      assert a + b == a;
    } else {
      assert (a + b)[..|a + b| - 1] == a + b[..|b| - 1];
      OfConcat(a, b[..|b| - 1], n);
    }
  }

  lemma {:induction false} AllocatedConcat(a: seq<Entry>, b: seq<Entry>)
    ensures Allocated(a + b) == Allocated(a) + Allocated(b)
    decreases |b|
  {
    if b == [] {
      assert a + b == a;
    } else {
      assert (a + b)[..|a + b| - 1] == a + b[..|b| - 1];
      AllocatedConcat(a, b[..|b| - 1]);
    }
  }

  lemma OfOne(e: Entry, n: int)
    ensures Of([e], n) == (if e.signo == n then [e] else []) && Allocated([e]) == if e.heap then 1 else 0
  {
    assert [e][..0] == [];
  }

  lemma {:induction false} OfNone(q: seq<Entry>, n: int)
    ensures Of(q, n) == [] <==> forall i :: 0 <= i < |q| ==> q[i].signo != n
  {
    if q != [] {
      var init, e := q[..|q| - 1], q[|q| - 1];
      OfNone(init, n);
      if Of(init, n) == [] && e.signo != n {
        forall i | 0 <= i < |q| ensures q[i].signo != n {
          assert i < |q| - 1 ==> q[i] == init[i];
        }
      } else if Of(init, n) != [] {
        var i :| 0 <= i < |init| && init[i].signo == n;
        assert q[i] == init[i];
      }
    }
  }

  // Taking one entry out.
  lemma {:induction false} TakeOut(q: seq<Entry>, k: int, n: int)
    requires 0 <= k < |q|
    ensures Of(q, n) == Of(q[..k], n) + (if q[k].signo == n then [q[k]] else []) + Of(q[k + 1..], n)
    ensures Of(q[..k] + q[k + 1..], n) == Of(q[..k], n) + Of(q[k + 1..], n)
    ensures Allocated(q[..k] + q[k + 1..]) == Allocated(q) - if q[k].heap then 1 else 0
  {
    hide Of, Allocated;
    assert q == q[..k] + ([q[k]] + q[k + 1..]);
    OfConcat(q[..k], [q[k]] + q[k + 1..], n);
    OfConcat([q[k]], q[k + 1..], n);
    OfOne(q[k], n);
    OfConcat(q[..k], q[k + 1..], n);
    AllocatedConcat(q[..k], [q[k]] + q[k + 1..]);
    AllocatedConcat([q[k]], q[k + 1..]);
    AllocatedConcat(q[..k], q[k + 1..]);
  }

  // The queue without the signals of a mask.
  ghost function Unmasked(q: seq<Entry>, mask: Mask): seq<Entry>
    requires |mask| == NSIG + 1
  {
    if q == [] then []
    else
      var e := q[|q| - 1];
      Unmasked(q[..|q| - 1], mask) + if IsSignal(e.signo) && mask[e.signo] then [] else [e]
  }

  lemma {:induction false} UnmaskedOf(q: seq<Entry>, mask: Mask, n: int)
    requires |mask| == NSIG + 1
    ensures Of(Unmasked(q, mask), n) == if IsSignal(n) && mask[n] then [] else Of(q, n)
  {
    if q != [] {
      var init, e := q[..|q| - 1], q[|q| - 1];
      UnmaskedOf(init, mask, n);
      OfOne(e, n);
      OfConcat(Unmasked(init, mask), [e], n);
      OfConcat(Unmasked(init, mask), [], n);
    }
  }

  lemma {:induction false} UnmaskedFrom(q: seq<Entry>, mask: Mask, i: int) returns (k: int)
    requires |mask| == NSIG + 1 && 0 <= i < |Unmasked(q, mask)|
    ensures 0 <= k < |q| && Unmasked(q, mask)[i] == q[k]
  {
    var init := q[..|q| - 1];
    if i < |Unmasked(init, mask)| {
      k := UnmaskedFrom(init, mask, i);
    } else {
      k := |q| - 1;
    }
  }

  lemma {:induction false} UnmaskedInOrder(q: seq<Entry>, mask: Mask, i: int, j: int) returns (k: int, m: int)
    requires |mask| == NSIG + 1 && 0 <= i < j < |Unmasked(q, mask)|
    ensures 0 <= k < m < |q| && Unmasked(q, mask)[i] == q[k] && Unmasked(q, mask)[j] == q[m]
  {
    var init := q[..|q| - 1];
    if j < |Unmasked(init, mask)| {
      k, m := UnmaskedInOrder(init, mask, i, j);
    } else {
      k := UnmaskedFrom(init, mask, i);
      m := |q| - 1;
    }
  }

  // ---------------------------------------------------------------------------
  // Queue and mask together
  // ---------------------------------------------------------------------------

  ghost predicate Distinct(q: seq<Entry>) {
    forall i, j :: 0 <= i < j < |q| ==> q[i].id != q[j].id
  }

  // A standard number has one entry if it is pending and none otherwise; a
  // real-time number with entries is pending.
  ghost predicate Agree(q: seq<Entry>, pending: Mask, n: int)
    requires |pending| == NSIG + 1 && IsSignal(n)
  {
    if n < SIGRTMIN then |Of(q, n)| == if pending[n] then 1 else 0
    else Of(q, n) != [] ==> pending[n]
  }

  ghost predicate Consistent(q: seq<Entry>, pending: Mask) {
    && |pending| == NSIG + 1 && Distinct(q)
    && (forall i :: 0 <= i < |q| ==> IsSignal(q[i].signo))
    && (forall n :: IsSignal(n) ==> Agree(q, pending, n))
  }

  ghost predicate StopsApart(pending: Mask) {
    |pending| == NSIG + 1 && (pending[18] ==> !pending[19] && !pending[20] && !pending[21] && !pending[22])
  }

  function Minus(pending: Mask, mask: Mask): (r: Mask)
    requires |pending| == |mask|
    ensures |r| == |pending| && forall n :: 0 <= n < |r| ==> r[n] == (pending[n] && !mask[n])
  {
    seq(|pending|, n requires 0 <= n < |pending| => pending[n] && !mask[n])
  }

  lemma {:induction false} FlushKeeps(q: seq<Entry>, pending: Mask, mask: Mask)
    requires Consistent(q, pending) && |mask| == NSIG + 1
    ensures Consistent(Unmasked(q, mask), Minus(pending, mask))
  {
    hide Of, Unmasked;
    var u := Unmasked(q, mask);
    forall i | 0 <= i < |u| ensures IsSignal(u[i].signo) {
      var k := UnmaskedFrom(q, mask, i);
    }
    forall i, j | 0 <= i < j < |u| ensures u[i].id != u[j].id {
      var k, m := UnmaskedInOrder(q, mask, i, j);
    }
    forall n | IsSignal(n) ensures Agree(u, Minus(pending, mask), n) {
      UnmaskedOf(q, mask, n);
      assert Agree(q, pending, n);
    }
  }

  // One more entry at the tail, and its bit.
  lemma {:induction false} AppendKeeps(q: seq<Entry>, pending: Mask, e: Entry)
    requires Consistent(q, pending) && IsSignal(e.signo) && (e.signo < SIGRTMIN ==> !pending[e.signo])
    requires forall i :: 0 <= i < |q| ==> q[i].id != e.id
    ensures Consistent(q + [e], pending[e.signo := true])
    ensures forall n :: Of(q + [e], n) == Of(q, n) + if n == e.signo then [e] else []
    ensures Allocated(q + [e]) == Allocated(q) + if e.heap then 1 else 0
  {
    hide Of, Allocated;
    OfOne(e, 0);
    forall n ensures Of(q + [e], n) == Of(q, n) + if n == e.signo then [e] else [] {
      OfConcat(q, [e], n);
      OfOne(e, n);
    }
    forall n | IsSignal(n) ensures Agree(q + [e], pending[e.signo := true], n) {
      assert Agree(q, pending, n);
    }
    AllocatedConcat(q, [e]);
  }

  // An entry leaves; the bit stays exactly as long as another entry needs it.
  lemma {:induction false} RemoveKeeps(q: seq<Entry>, pending: Mask, k: int, more: bool)
    requires Consistent(q, pending) && 0 <= k < |q|
    requires more <==> exists i :: 0 <= i < |q| && i != k && q[i].signo == q[k].signo
    ensures var u := q[..k] + q[k + 1..];
            && Consistent(u, if more then pending else pending[q[k].signo := false])
            && Allocated(u) == Allocated(q) - (if q[k].heap then 1 else 0)
  {
    hide Of, Allocated;
    var u, s := q[..k] + q[k + 1..], q[k].signo;
    var pending' := if more then pending else pending[s := false];
    forall n | IsSignal(n) ensures Agree(u, pending', n) {
      RemoveAgree(q, pending, k, more, n);
    }
    TakeOut(q, k, s);
    forall i | 0 <= i < |u| ensures IsSignal(u[i].signo) {
      assert u[i] == q[if i < k then i else i + 1];
    }
    forall i, j | 0 <= i < j < |u| ensures u[i].id != u[j].id {
      assert u[i] == q[if i < k then i else i + 1] && u[j] == q[if j < k then j else j + 1];
    }
  }

  lemma {:induction false} RemoveAgree(q: seq<Entry>, pending: Mask, k: int, more: bool, n: int)
    requires Consistent(q, pending) && 0 <= k < |q| && IsSignal(n)
    requires more <==> exists i :: 0 <= i < |q| && i != k && q[i].signo == q[k].signo
    ensures IsSignal(q[k].signo)
    ensures Agree(q[..k] + q[k + 1..], if more then pending else pending[q[k].signo := false], n)
  {
    hide Of, Allocated;
    TakeOut(q, k, n);
    assert Agree(q, pending, n);
    if n == q[k].signo {
      OthersLeft(q, k, more);
    }
  }

  // Whether any entry of the same number is left.
  lemma {:induction false} OthersLeft(q: seq<Entry>, k: int, more: bool)
    requires 0 <= k < |q|
    requires more <==> exists i :: 0 <= i < |q| && i != k && q[i].signo == q[k].signo
    ensures more <==> Of(q[..k] + q[k + 1..], q[k].signo) != []
  {
    hide Of;
    var u, s := q[..k] + q[k + 1..], q[k].signo;
    OfNone(u, s);
    if more {
      var i :| 0 <= i < |q| && i != k && q[i].signo == s;
      assert u[if i < k then i else i - 1] == q[i];
    } else {
      forall i | 0 <= i < |u| ensures u[i].signo != s {
        assert u[i] == q[if i < k then i else i + 1];
      }
    }
  }

  // The first entry of a number leaves first; the other numbers keep theirs.
  lemma {:induction false} FirstOut(q: seq<Entry>, k: int, n: int)
    requires 0 <= k < |q| && forall i :: 0 <= i < k ==> q[i].signo != q[k].signo
    ensures Of(q, q[k].signo) != [] && Of(q, q[k].signo)[0] == q[k]
    ensures Of(q[..k] + q[k + 1..], n) == if n == q[k].signo then Of(q, n)[1..] else Of(q, n)
  {
    TakeOut(q, k, q[k].signo);
    TakeOut(q, k, n);
    OfNone(q[..k], q[k].signo);
  }

  function StopMask(): Mask {
    seq(NSIG + 1, n => IsStop(n))
  }

  function One(s: int): Mask {
    seq(NSIG + 1, n => n == s)
  }

  lemma StopsLess(pending: Mask, n: int)
    requires StopsApart(pending) && IsSignal(n)
    ensures StopsApart(pending[n := false]) && (pending[n] ==> pending[n := true] == pending)
  {
  }

  // A signal s takes m off the queue: SIGCONT the four stop signals, each of them SIGCONT.
  ghost predicate Cancels(s: int, m: int) {
    (s == 18 && 19 <= m <= 22) || (19 <= s <= 22 && m == 18)
  }

  // The queue a new signal meets: stop signals and SIGCONT cancel each other.
  ghost function Cancelled(q: seq<Entry>, s: int): seq<Entry> {
    var a := if s == SIGCONT then Unmasked(q, StopMask()) else q;
    if IsStop(s) then Unmasked(a, One(SIGCONT)) else a
  }

  // The lowest set number, or 0.
  method Lowest(mask: Mask) returns (n: int)
    requires |mask| == NSIG + 1
    ensures n == 0 ==> forall m :: 1 <= m <= NSIG ==> !mask[m]
    ensures n != 0 ==> IsSignal(n) && mask[n] && forall m :: 1 <= m < n ==> !mask[m]
  {
    n := 1;
    while n <= NSIG && !mask[n]
      invariant 1 <= n <= NSIG + 1 && forall m :: 1 <= m < n ==> !mask[m]
    {
      n := n + 1;
    }
    if n > NSIG {
      n := 0;
    }
  }

  datatype Step =
    | Send(signo: int, code: int, gone: bool, blocked: bool, ignored: bool, limit: int, memory: bool)
    | Timer(entry: Entry, gone: bool, blocked: bool, ignored: bool)
    | Take(mask: Mask)
    | Drop(mask: Mask)
    | Cancel(id: int)

  // A queued entry's bit is set.
  lemma BitOf(q: seq<Entry>, pending: Mask, k: int)
    requires Consistent(q, pending) && 0 <= k < |q|
    ensures IsSignal(q[k].signo) && |pending| == NSIG + 1 && pending[q[k].signo]
  {
    assert Agree(q, pending, q[k].signo);
    OfNone(q, q[k].signo);
  }

  // ---------------------------------------------------------------------------
  // What became of every entry
  // ---------------------------------------------------------------------------

  // A ticket is a place in `issued`, the entries ever queued.  `tickets` are those of
  // the queue; `taken` left by being dequeued, in that order, `dropped` in another way.
  datatype History = History(issued: seq<Entry>, tickets: seq<int>, taken: seq<int>, dropped: set<int>)

  // Of one number, what was dequeued was dequeued in the order of queueing.
  ghost predicate FirstInFirstOut(issued: seq<Entry>, taken: seq<int>) {
    && (forall i :: 0 <= i < |taken| ==> 0 <= taken[i] < |issued|)
    && (forall i, j :: 0 <= i < j < |taken| && issued[taken[i]].signo == issued[taken[j]].signo ==> taken[i] < taken[j])
  }

  // The queue holds its entries in the order of queueing, each later than what was
  // dequeued of its number.
  ghost predicate Ordered(q: seq<Entry>, h: History) {
    && |h.tickets| == |q|
    && (forall k :: 0 <= k < |q| ==> 0 <= h.tickets[k] < |h.issued| && h.issued[h.tickets[k]] == q[k])
    && (forall i, j :: 0 <= i < j < |q| ==> h.tickets[i] < h.tickets[j])
    && FirstInFirstOut(h.issued, h.taken)
    && (forall i, k :: 0 <= i < |h.taken| && 0 <= k < |q| && h.issued[h.taken[i]].signo == q[k].signo ==> h.taken[i] < h.tickets[k])
  }

  // Every entry ever queued is in the queue, was dequeued or was dropped, and only one
  // of these.
  ghost predicate Accounted(h: History) {
    && (forall t :: 0 <= t < |h.issued| <==> t in h.tickets || t in h.taken || t in h.dropped)
    && (forall t :: t in h.tickets ==> t !in h.taken && t !in h.dropped)
    && (forall t :: t in h.taken ==> t !in h.dropped)
  }

  ghost predicate Past(q: seq<Entry>, h: History) {
    Ordered(q, h) && Accounted(h)
  }

  ghost function Joined(h: History, e: Entry): History {
    h.(issued := h.issued + [e], tickets := h.tickets + [|h.issued|])
  }

  ghost function Taken(h: History, k: int): History
    requires 0 <= k < |h.tickets|
  {
    h.(tickets := h.tickets[..k] + h.tickets[k + 1..], taken := h.taken + [h.tickets[k]])
  }

  ghost function Dropped(h: History, k: int): History
    requires 0 <= k < |h.tickets|
  {
    h.(tickets := h.tickets[..k] + h.tickets[k + 1..], dropped := h.dropped + {h.tickets[k]})
  }

  lemma PastJoin(q: seq<Entry>, h: History, e: Entry)
    requires Past(q, h)
    ensures Past(q + [e], Joined(h, e))
  {
    var h' := Joined(h, e);
    forall t ensures t in h'.tickets <==> t in h.tickets || t == |h.issued| {
      if t == |h.issued| {
        assert h'.tickets[|h.tickets|] == t;
      }
    }
  }

  // Taking a ticket out of the queue's list takes out that ticket only.
  lemma TicketGone(q: seq<Entry>, h: History, k: int)
    requires Ordered(q, h) && 0 <= k < |q|
    ensures var u := h.tickets[..k] + h.tickets[k + 1..];
            forall t :: t in u <==> t in h.tickets && t != h.tickets[k]
  {
    var u := h.tickets[..k] + h.tickets[k + 1..];
    forall t | t in u ensures t in h.tickets && t != h.tickets[k] {
      var i :| 0 <= i < |u| && u[i] == t;
      assert u[i] == h.tickets[if i < k then i else i + 1];
    }
    assert h.tickets == h.tickets[..k] + [h.tickets[k]] + h.tickets[k + 1..];
  }

  lemma OrderedWithout(q: seq<Entry>, h: History, k: int)
    requires Ordered(q, h) && 0 <= k < |q|
    ensures Ordered(q[..k] + q[k + 1..], h.(tickets := h.tickets[..k] + h.tickets[k + 1..]))
  {
    var u, v := h.tickets[..k] + h.tickets[k + 1..], q[..k] + q[k + 1..];
    assert forall i :: 0 <= i < |u| ==> u[i] == h.tickets[if i < k then i else i + 1] && v[i] == q[if i < k then i else i + 1];
  }

  lemma PastDrop(q: seq<Entry>, h: History, k: int)
    requires Past(q, h) && 0 <= k < |q|
    ensures Past(q[..k] + q[k + 1..], Dropped(h, k))
  {
    TicketGone(q, h, k);
    OrderedWithout(q, h, k);
    assert h.tickets[k] in h.tickets;
  }

  // The first entry of its number may be taken.
  lemma PastTake(q: seq<Entry>, h: History, k: int)
    requires Past(q, h) && 0 <= k < |q| && forall i :: 0 <= i < k ==> q[i].signo != q[k].signo
    ensures Past(q[..k] + q[k + 1..], Taken(h, k))
  {
    TicketGone(q, h, k);
    OrderedWithout(q, h, k);
    assert h.tickets[k] in h.tickets;
    var h', v := Taken(h, k), q[..k] + q[k + 1..];
    forall t ensures t in h'.taken <==> t in h.taken || t == h.tickets[k] {
      if t == h.tickets[k] {
        assert h'.taken[|h.taken|] == t;
      }
    }
    forall j | 0 <= j < |v| && v[j].signo == q[k].signo ensures h.tickets[k] < h'.tickets[j] {
      assert v[j] == q[if j < k then j else j + 1] && h'.tickets[j] == h.tickets[if j < k then j else j + 1];
    }
  }

  // One entry of a flush: the queue is what was kept and what is still to be walked.
  lemma PastFlush(kept: seq<Entry>, all: seq<Entry>, i: int, h: History)
    requires 0 <= i < |all| && Past(kept + all[i..], h)
    ensures |h.tickets| == |kept| + |all| - i
    ensures Past(kept + all[i + 1..], Dropped(h, |kept|)) && Past(kept + [all[i]] + all[i + 1..], h)
    ensures var h' := Dropped(h, |kept|); h'.issued == h.issued && h'.taken == h.taken && h.dropped <= h'.dropped
  {
    hide Accounted;
    var q := kept + all[i..];
    PastDrop(q, h, |kept|);
    assert q[..|kept|] + q[|kept| + 1..] == kept + all[i + 1..];
    assert kept + [all[i]] + all[i + 1..] == q;
  }

  // The entry left, as the last that was dequeued so far.
  ghost predicate Left(h: History, h': History, e: Entry) {
    && h'.issued == h.issued && h'.dropped == h.dropped && |h'.taken| == |h.taken| + 1 && h'.taken[..|h.taken|] == h.taken
    && WasTaken(h', |h.taken|, e)
  }

  lemma LeftNow(q: seq<Entry>, h: History, k: int)
    requires Past(q, h) && 0 <= k < |q|
    ensures |h.tickets| == |q| && Left(h, Taken(h, k), q[k].(heap := false))
  {
  }

  // The entries returned since h are those dequeued since, in that order.
  ghost predicate Returned(h: History, h': History, out: seq<Entry>) {
    && h.issued <= h'.issued && |h'.taken| == |h.taken| + |out| && h'.taken[..|h.taken|] == h.taken
    && forall i :: 0 <= i < |out| ==> WasTaken(h', |h.taken| + i, out[i])
  }

  // The i-th to be dequeued was this entry.
  ghost predicate WasTaken(h: History, i: int, e: Entry) {
    0 <= i < |h.taken| && 0 <= h.taken[i] < |h.issued| && h.issued[h.taken[i]].(heap := false) == e
  }

  lemma ReturnedMore(h: History, mid: History, h': History, out: seq<Entry>, e: Entry)
    requires Returned(h, mid, out) && Left(mid, h', e)
    ensures Returned(h, h', out + [e])
  {
    assert h'.taken[..|h.taken|] == h'.taken[..|mid.taken|][..|h.taken|];
    var more := out + [e];
    forall i | 0 <= i < |more| ensures WasTaken(h', |h.taken| + i, more[i]) {
      if i < |out| {
        assert WasTaken(mid, |h.taken| + i, out[i]);
        assert h'.taken[..|mid.taken|][|h.taken| + i] == mid.taken[|h.taken| + i];
      }
    }
  }

  lemma ReturnedSame(h: History, mid: History, h': History, out: seq<Entry>)
    requires Returned(h, mid, out) && h'.taken == mid.taken && mid.issued <= h'.issued
    ensures Returned(h, h', out)
  {
    forall i | 0 <= i < |out| ensures WasTaken(h', |h.taken| + i, out[i]) {
      assert WasTaken(mid, |h.taken| + i, out[i]);
    }
  }

  lemma ReturnedNone(h: History)
    ensures Returned(h, h, [])
  {
  }

  // A flush that has walked i entries.
  ghost predicate Sifted(q: seq<Entry>, mask: Mask, i: int, kept: seq<Entry>, left: int, h: History, past: History) {
    && 0 <= i <= |q| && |mask| == NSIG + 1 && kept == Unmasked(q[..i], mask) && left == Allocated(kept) + Allocated(q[i..])
    && Past(kept + q[i..], h) && h.issued == past.issued && h.taken == past.taken && past.dropped <= h.dropped
  }

  lemma SiftStart(q: seq<Entry>, mask: Mask, past: History)
    requires |mask| == NSIG + 1 && Past(q, past)
    ensures Sifted(q, mask, 0, [], Allocated(q), past, past)
  {
    hide Past;
    FlushStart(mask);
    assert q[..0] == [] && q[0..] == q && [] + q == q;
  }

  lemma SiftStep(q: seq<Entry>, mask: Mask, i: int, kept: seq<Entry>, left: int, h: History, past: History)
    requires Sifted(q, mask, i, kept, left, h, past) && i < |q| && IsSignal(q[i].signo)
    ensures |kept| < |h.tickets|
    ensures if mask[q[i].signo] then Sifted(q, mask, i + 1, kept, left - (if q[i].heap then 1 else 0), Dropped(h, |kept|), past)
            else Sifted(q, mask, i + 1, kept + [q[i]], left, h, past)
  {
    hide Past, Unmasked, Allocated, Dropped;
    FlushStep(q, mask, i);
    AllocatedConcat(kept, [q[i]]);
    OfOne(q[i], 0);
    PastFlush(kept, q, i, h);
  }

  lemma SiftEnd(q: seq<Entry>, mask: Mask, kept: seq<Entry>, left: int, h: History, past: History)
    requires Sifted(q, mask, |q|, kept, left, h, past)
    ensures |mask| == NSIG + 1 && kept == Unmasked(q, mask) && left == Allocated(kept)
    ensures Past(kept, h) && h.issued == past.issued && h.taken == past.taken && past.dropped <= h.dropped
  {
    hide Past, Unmasked;
    FlushStart(mask);
    assert q[..|q|] == q && q[|q|..] == [] && kept + [] == kept;
  }

  lemma PastSize(q: seq<Entry>, h: History)
    requires Past(q, h)
    ensures |h.tickets| == |q| && FirstInFirstOut(h.issued, h.taken) && Accounted(h)
    ensures forall k :: 0 <= k < |q| ==> 0 <= h.tickets[k] < |h.issued| && h.issued[h.tickets[k]] == q[k]
  {
  }

  class SignalQueue {
    var queue: seq<Entry>
    var pending: Mask
    var queued: int
    var nextId: int
    ghost var past: History

    ghost predicate Valid()
      reads this
    {
      && Consistent(queue, pending) && StopsApart(pending)
      && queued == Allocated(queue) && Past(queue, past)
      && NSIG < nextId && (forall i :: 0 <= i < |queue| ==> queue[i].id < nextId)
      && (forall i :: 0 <= i < |queue| && 1 <= queue[i].id < SIGRTMIN ==> queue[i].signo == queue[i].id)
    }

    constructor ()
      ensures Valid() && queue == [] && past == History([], [], [], {}) && forall n :: IsSignal(n) ==> !pending[n]
    {
      queue, pending, queued, nextId := [], seq(NSIG + 1, _ => false), 0, NSIG + 1;
      past := History([], [], [], {});
    }

    // The walk of a flush: what is kept, and how many of the allocated are left.
    method Sift(mask: Mask) returns (kept: seq<Entry>, left: int, ghost h: History)
      requires Valid() && |mask| == NSIG + 1
      ensures kept == Unmasked(queue, mask) && left == Allocated(kept)
      ensures Past(kept, h) && h.issued == past.issued && h.taken == past.taken && past.dropped <= h.dropped
    {
      hide Of, Allocated, Consistent, Distinct, Past, Dropped, Sifted, Unmasked;
      ConsistentFacts(queue, pending);
      kept, left, h := [], queued, past;
      SiftStart(queue, mask, past);
      for i := 0 to |queue|
        invariant Sifted(queue, mask, i, kept, left, h, past)
      {
        var entry := queue[i];
        SiftStep(queue, mask, i, kept, left, h, past);
        if mask[entry.signo] {
          h := Dropped(h, |kept|);
          if entry.heap {
            left := left - 1;
          }
        } else {
          kept := kept + [entry];
        }
      }
      SiftEnd(queue, mask, kept, left, h, past);
    }

    // flush_signals
    method Flush(mask: Mask)
      requires Valid() && |mask| == NSIG + 1
      modifies this`queue, this`pending, this`queued, this`past
      ensures Valid() && queue == Unmasked(old(queue), mask) && pending == Minus(old(pending), mask)
      ensures past.issued == old(past.issued) && past.taken == old(past.taken) && old(past.dropped) <= past.dropped
    {
      hide Of, Unmasked, Allocated, Consistent, Past;
      ConsistentFacts(queue, pending);
      FlushKeeps(queue, pending, mask);
      var kept, left;
      ghost var h;
      kept, left, h := Sift(mask);
      forall j | 0 <= j < |kept| ensures kept[j] in queue {
        var k := UnmaskedFrom(queue, mask, j);
      }
      KnownEntries(queue, kept, nextId);
      queue, queued, past := kept, left, h;
      pending := Minus(pending, mask);
    }

    // Stop signals and SIGCONT take each other off the queue.
    method CancelOthers(signo: int)
      requires Valid() && IsSignal(signo)
      modifies this`queue, this`pending, this`queued, this`past
      ensures Valid() && queue == Cancelled(old(queue), signo) && |pending| == |old(pending)| == NSIG + 1
      ensures forall i :: 0 <= i < |queue| ==> queue[i] in old(queue)
      ensures forall m :: 0 <= m <= NSIG ==> (pending[m] <==> old(pending)[m] && !Cancels(signo, m))
      ensures signo >= SIGRTMIN ==> queued == old(queued)
      ensures past.issued == old(past.issued) && past.taken == old(past.taken)
    {
      hide Of, Unmasked, Allocated, Consistent, Distinct, Past;
      ConsistentFacts(queue, pending);
      if signo == SIGCONT {
        Flush(StopMask());
      }
      if IsStop(signo) {
        Flush(One(SIGCONT));
      }
      ConsistentFacts(queue, pending);
      forall i | 0 <= i < |queue| ensures queue[i] in old(queue) {
        CancelledFrom(old(queue), signo, i);
      }
    }

    // queue_signal_entry: `added` tells whether `entry` now stands at the tail.
    method Queue(signo: int, code: int, prepared: Option<Entry>, gone: bool, blocked: bool, ignored: bool, limit: int, memory: bool)
      returns (result: int, ghost added: bool, ghost entry: Entry)
      requires Valid()
      requires prepared.Some? ==> var e := prepared.value; !e.heap && e.signo == signo && e.code == code && e.id <= 0
      requires prepared.Some? ==> forall i :: 0 <= i < |queue| ==> queue[i].id != prepared.value.id
      modifies this
      ensures Valid()
      ensures !IsSignal(signo) || gone ==> !added && queue == old(queue) && pending == old(pending)
      ensures IsSignal(signo) && !gone ==> queue == Cancelled(old(queue), signo) + if added then [entry] else []
      ensures past.issued == old(past.issued) + (if added then [entry] else []) && past.taken == old(past.taken)
      ensures added ==> entry.signo == signo && entry.code == code && (prepared.Some? ==> entry == prepared.value)
      ensures added ==> (entry.heap <==> prepared.None? && signo >= 32)
      ensures |old(pending)| == |pending| == NSIG + 1
      ensures IsSignal(signo) && !gone ==>
                (added <==> (blocked || !ignored) && if signo < 32 then !old(pending)[signo]
                                                     else prepared.Some? || (old(queued) < limit && memory))
      ensures result == if !IsSignal(signo) then -EINVAL
                        else if gone || added then 0
                        else if prepared.Some? then 1
                        else if signo < 32 || (!blocked && ignored) || code == 0 || code == 128 then 0
                        else -EAGAIN
      ensures IsSignal(signo) && !gone ==> forall m :: IsSignal(m) ==>
                (pending[m] <==> if m == signo then old(pending)[m] || (result == 0 && (blocked || !ignored))
                                 else old(pending)[m] && !Cancels(signo, m))
    {
      hide Of, Unmasked, Allocated, Consistent, Distinct, Past, Cancelled;
      added, entry := false, Entry(0, 0, 0, false);
      ConsistentFacts(queue, pending);
      if signo < 1 || signo > NSIG {
        return -EINVAL, false, entry;
      }
      if gone {
        return 0, false, entry;
      }
      CancelOthers(signo);
      assert queue + [] == queue;
      if !blocked && ignored {
        return if prepared.Some? then 1 else 0, false, entry;
      }
      result := 0;
      if prepared.Some? {
        if signo < SIGRTMIN && pending[signo] {
          return 1, false, entry;
        }
        assert forall k :: 0 <= k < |queue| ==> queue[k].id != prepared.value.id;
        Link(prepared.value);
        return 0, true, prepared.value;
      }
      if signo < SIGRTMIN {
        if pending[signo] {
          return 0, false, entry;
        }
        SlotFree(queue, pending, signo);
        var slot := Entry(signo, signo, code, false);
        Link(slot);
        return 0, true, slot;
      }
      if queued < limit && memory {
        var e := Entry(nextId, signo, code, true);
        nextId := nextId + 1;
        Link(e);
        return 0, true, e;
      }
      if code != SI_USER && code != SI_KERNEL {
        return -EAGAIN, false, entry;
      }
      BareBit(queue, pending, signo);
      pending := pending[signo := true];
    }

    // An entry joins the tail and its bit is set.
    method Link(e: Entry)
      requires Valid() && IsSignal(e.signo) && e.id < nextId
      requires |pending| == NSIG + 1 && (e.signo < SIGRTMIN ==> !pending[e.signo])
      requires forall i :: 0 <= i < |queue| ==> queue[i].id != e.id
      requires 1 <= e.id < SIGRTMIN ==> e.signo == e.id
      requires e.signo == SIGCONT ==> forall n :: IsStop(n) ==> !pending[n]
      requires IsStop(e.signo) ==> !pending[SIGCONT]
      modifies this`queue, this`queued, this`pending, this`past
      ensures Valid() && queue == old(queue) + [e] && pending == old(pending)[e.signo := true]
      ensures past == Joined(old(past), e)
    {
      hide Consistent, Of, Allocated, Past;
      PastJoin(queue, past, e);
      past := Joined(past, e);
      AppendKeeps(queue, pending, e);
      if e.heap {
        queued := queued + 1;
      }
      queue := queue + [e];
      pending := pending[e.signo := true];
    }

    // dequeue_signal: the lowest synchronous signal of the mask, else the lowest.
    method Dequeue(mask: Mask) returns (n: int, taken: Option<Entry>)
      requires Valid() && |mask| == NSIG + 1
      modifies this`queue, this`queued, this`pending, this`past
      ensures Valid() && |old(pending)| == NSIG + 1
      ensures n == 0 ==> queue == old(queue) && pending == old(pending) && forall m :: IsSignal(m) ==> !(old(pending)[m] && mask[m])
      ensures n != 0 ==> IsSignal(n) && Preferred(old(pending), mask, n)
      ensures n != 0 ==> taken == (if Of(old(queue), n) == [] then None else Some(Of(old(queue), n)[0].(heap := false)))
      ensures n != 0 ==> Of(queue, n) == if Of(old(queue), n) == [] then [] else Of(old(queue), n)[1..]
      ensures forall m :: m != n ==> Of(queue, m) == Of(old(queue), m)
      ensures n != 0 ==> pending == old(pending)[n := Of(queue, n) != []]
      ensures taken.None? ==> past == old(past)
      ensures taken.Some? ==> Left(old(past), past, taken.value)
    {
      hide Of, Allocated, Consistent, Distinct, Preferred, Past, Left, Taken, StopsApart;
      ConsistentFacts(queue, pending);
      ghost var q0, p0 := queue, pending;
      n := Choose(pending, mask);
      taken := None;
      if n == 0 {
        return;
      }
      var found, more := FindFirst(n);
      OfNone(queue, n);
      if found < |queue| {
        var e := queue[found];
        DequeueKeeps(queue, pending, past, found, more, nextId);
        past := Taken(past, found);
        taken := Some(e.(heap := false));
        if e.heap {
          queued := queued - 1;
        }
        queue := queue[..found] + queue[found + 1..];
      } else {
        BareClear(queue, pending, n);
      }
      if !more {
        pending := pending[n := false];
      }
      assert more ==> pending == p0[n := true];
      StopsLess(p0, n);
    }

    // The number a dequeue takes, or 0.
    static method Choose(pending: Mask, mask: Mask) returns (n: int)
      requires |pending| == |mask| == NSIG + 1
      ensures n == 0 ==> forall m :: IsSignal(m) ==> !(pending[m] && mask[m])
      ensures n != 0 ==> IsSignal(n) && Preferred(pending, mask, n)
    {
      var eligible := seq(NSIG + 1, k requires 0 <= k <= NSIG => pending[k] && mask[k]);
      var urgent := seq(NSIG + 1, k requires 0 <= k <= NSIG => eligible[k] && IsSynchronous(k));
      assert forall m :: 0 <= m <= NSIG ==> eligible[m] == (pending[m] && mask[m]);
      assert forall m :: 0 <= m <= NSIG ==> urgent[m] == (pending[m] && mask[m] && IsSynchronous(m));
      n := Lowest(urgent);
      if n == 0 {
        n := Lowest(eligible);
      }
    }

    // The first entry of a number, and whether there is a second.
    method FindFirst(n: int) returns (found: int, more: bool)
      ensures 0 <= found <= |queue| && forall i :: 0 <= i < found ==> queue[i].signo != n
      ensures found < |queue| ==> queue[found].signo == n
      ensures found == |queue| ==> !more
      ensures found < |queue| ==> (more <==> exists i :: 0 <= i < |queue| && i != found && queue[i].signo == n)
    {
      var q := queue;
      found, more := |q|, false;
      var i := 0;
      while i < |q|
        invariant 0 <= i <= |q| && !more && 0 <= found <= |q|
        invariant found == |q| ==> forall j :: 0 <= j < i ==> q[j].signo != n
        invariant found < |q| ==> found < i && q[found].signo == n && forall j :: 0 <= j < i && j != found ==> q[j].signo != n
      {
        if q[i].signo == n {
          if found < |q| {
            more := true;
            return;
          }
          found := i;
        }
        i := i + 1;
      }
    }

    // process_unqueue_signal_entry_locked, for an entry its owner prepared.
    method Unqueue(id: int) returns (ghost k: int)
      requires Valid() && forall i :: 0 <= i < |queue| && queue[i].id == id ==> !queue[i].heap
      modifies this`queue, this`pending, this`past
      ensures past.issued == old(past.issued) && past.taken == old(past.taken)
      ensures Valid() && 0 <= k <= |old(queue)| && forall i :: 0 <= i < k ==> old(queue)[i].id != id
      ensures k == |old(queue)| ==> queue == old(queue) && pending == old(pending)
      ensures k < |old(queue)| ==>
                && old(queue)[k].id == id && queue == old(queue)[..k] + old(queue)[k + 1..]
                && IsSignal(old(queue)[k].signo) && |old(pending)| == NSIG + 1
                && var n := old(queue)[k].signo; pending == old(pending)[n := Of(queue, n) != []]
    {
      hide Of, Allocated, Consistent, Distinct, Past, Dropped;
      ConsistentFacts(queue, pending);
      var found, others := FindEntry(queue, id);
      k := found;
      if found == |queue| {
        return;
      }
      var n := queue[found].signo;
      UnqueueKeeps(queue, pending, past, found, others, nextId);
      past := Dropped(past, found);
      queue := queue[..found] + queue[found + 1..];
      if !others {
        pending := pending[n := false];
      }
    }

    // The entry, and whether another one has its number.
    static method FindEntry(q: seq<Entry>, id: int) returns (found: int, others: bool)
      requires Distinct(q)
      ensures 0 <= found <= |q| && forall i :: 0 <= i < found ==> q[i].id != id
      ensures found < |q| ==> q[found].id == id && (others <==> exists i :: 0 <= i < |q| && i != found && q[i].signo == q[found].signo)
    {
      found, others := 0, false;
      while found < |q| && q[found].id != id
        invariant 0 <= found <= |q| && forall i :: 0 <= i < found ==> q[i].id != id
      {
        found := found + 1;
      }
      if found == |q| {
        return;
      }
      var i := 0;
      while i < |q|
        invariant 0 <= i <= |q|
        invariant others <==> exists j :: 0 <= j < i && j != found && q[j].signo == q[found].signo
      {
        if q[i].id != id && q[i].signo == q[found].signo {
          others := true;
        }
        i := i + 1;
      }
    }

    // A timer that is queued and cancelled leaves no trace of itself.
    method Withdraw(e: Entry, gone: bool, blocked: bool, ignored: bool)
      requires Valid() && !e.heap && e.id <= 0 && IsSignal(e.signo) && forall i :: 0 <= i < |queue| ==> queue[i].id != e.id
      modifies this
      ensures Valid() && queue == if gone then old(queue) else Cancelled(old(queue), e.signo)
    {
      hide Consistent, Of, Allocated, Unmasked, StopsApart, Cancelled;
      ghost var added, entry;
      var result;
      result, added, entry := Queue(e.signo, e.code, Some(e), gone, blocked, ignored, 0, false);
      ghost var kept := if gone then old(queue) else Cancelled(old(queue), e.signo);
      forall i | 0 <= i < |kept| ensures kept[i].id != e.id {
        if !gone {
          CancelledFrom(old(queue), e.signo, i);
        }
      }
      assert queue == kept + if added then [e] else [];
      ghost var all := queue;
      assert added ==> all[|kept|] == e;
      ghost var k := Unqueue(e.id);
      assert added ==> k == |kept|;
      assert added ==> (kept + [e])[..|kept|] + (kept + [e])[|kept| + 1..] == kept;
    }

    // Every run of sends, timers, dequeues, flushes and cancellations.
    method Run(schedule: seq<Step>) returns (out: seq<Entry>)
      requires Valid()
      modifies this
      ensures Valid() && Consistent(queue, pending) && StopsApart(pending) && queued == Allocated(queue)
      ensures Returned(old(past), past, out) && FirstInFirstOut(past.issued, past.taken) && Accounted(past)
    {
      hide Consistent, Of, Allocated, Unmasked, StopsApart, Past, Returned, Left, FirstInFirstOut, Accounted;
      out := [];
      ReturnedNone(past);
      for i := 0 to |schedule|
        invariant Valid() && Returned(old(past), past, out)
      {
        ghost var mid := past;
        match schedule[i] {
          case Send(signo, code, gone, blocked, ignored, limit, memory) =>
            ghost var added, entry;
            var result;
            result, added, entry := Queue(signo, code, None, gone, blocked, ignored, limit, memory);
            ReturnedSame(old(past), mid, past, out);
          case Timer(e, gone, blocked, ignored) =>
            if !e.heap && e.id <= 0 && forall k :: 0 <= k < |queue| ==> queue[k].id != e.id {
              ghost var added, entry;
              var result;
              result, added, entry := Queue(e.signo, e.code, Some(e), gone, blocked, ignored, 0, false);
              ReturnedSame(old(past), mid, past, out);
            }
          case Take(mask) =>
            if |mask| == NSIG + 1 {
              var n, taken := Dequeue(mask);
              if taken.Some? {
                ReturnedMore(old(past), mid, past, out, taken.value);
                out := out + [taken.value];
              }
            }
          case Drop(mask) =>
            if |mask| == NSIG + 1 {
              Flush(mask);
              ReturnedSame(old(past), mid, past, out);
            }
          case Cancel(id) =>
            if forall k :: 0 <= k < |queue| && queue[k].id == id ==> !queue[k].heap {
              ghost var k := Unqueue(id);
              ReturnedSame(old(past), mid, past, out);
            }
        }
      }
      PastSize(queue, past);
    }
  }

  ghost predicate Preferred(pending: Mask, mask: Mask, n: int)
    requires |pending| == |mask| == NSIG + 1 && IsSignal(n)
  {
    && pending[n] && mask[n]
    && (forall m :: m in {4, 5, 7, 8, 11, 31} && pending[m] && mask[m] ==> n in {4, 5, 7, 8, 11, 31} && n <= m)
    && (n !in {4, 5, 7, 8, 11, 31} ==> forall m :: 1 <= m <= NSIG && pending[m] && mask[m] ==> n <= m)
  }

  lemma FlushStart(mask: Mask)
    requires |mask| == NSIG + 1
    ensures Unmasked([], mask) == [] && Allocated([]) == 0
  {
  }

  lemma {:induction false} FlushStep(q: seq<Entry>, mask: Mask, i: int)
    requires 0 <= i < |q| && |mask| == NSIG + 1
    ensures Unmasked(q[..i + 1], mask) == Unmasked(q[..i], mask) + if IsSignal(q[i].signo) && mask[q[i].signo] then [] else [q[i]]
    ensures Allocated(q[i..]) == (if q[i].heap then 1 else 0) + Allocated(q[i + 1..])
  {
    hide Of, Allocated;
    var u := q[..i + 1];
    assert u[..|u| - 1] == q[..i] && u[|u| - 1] == q[i];
    assert q[i..] == [q[i]] + q[i + 1..];
    AllocatedConcat([q[i]], q[i + 1..]);
    OfOne(q[i], 0);
  }

  lemma KnownEntries(q: seq<Entry>, kept: seq<Entry>, nextId: int)
    requires forall j :: 0 <= j < |kept| ==> kept[j] in q
    requires forall i :: 0 <= i < |q| ==> q[i].id < nextId && (1 <= q[i].id < SIGRTMIN ==> q[i].signo == q[i].id)
    ensures forall i :: 0 <= i < |kept| ==> kept[i].id < nextId && (1 <= kept[i].id < SIGRTMIN ==> kept[i].signo == kept[i].id)
  {
    forall i | 0 <= i < |kept| ensures kept[i].id < nextId && (1 <= kept[i].id < SIGRTMIN ==> kept[i].signo == kept[i].id) {
      var j :| 0 <= j < |q| && q[j] == kept[i];
    }
  }

  // What taking the first entry of a number does.
  lemma DequeueKeeps(q: seq<Entry>, pending: Mask, h: History, k: int, more: bool, nextId: int)
    requires Consistent(q, pending) && Past(q, h) && 0 <= k < |q| && forall i :: 0 <= i < k ==> q[i].signo != q[k].signo
    requires more <==> exists i :: 0 <= i < |q| && i != k && q[i].signo == q[k].signo
    requires forall i :: 0 <= i < |q| ==> q[i].id < nextId && (1 <= q[i].id < SIGRTMIN ==> q[i].signo == q[i].id)
    ensures var u, n := q[..k] + q[k + 1..], q[k].signo;
            && Consistent(u, if more then pending else pending[n := false]) && Allocated(u) == Allocated(q) - (if q[k].heap then 1 else 0)
            && Of(q, n) != [] && Of(q, n)[0] == q[k] && (forall m :: Of(u, m) == if m == n then Of(q, m)[1..] else Of(q, m))
            && (more <==> Of(u, n) != []) && pending[n]
            && (forall i :: 0 <= i < |u| ==> u[i].id < nextId && (1 <= u[i].id < SIGRTMIN ==> u[i].signo == u[i].id))
    ensures |h.tickets| == |q| && Past(q[..k] + q[k + 1..], Taken(h, k)) && Left(h, Taken(h, k), q[k].(heap := false))
  {
    hide Of, Allocated, Consistent, Past, Left, Taken, Distinct;
    ConsistentFacts(q, pending);
    var u, n := q[..k] + q[k + 1..], q[k].signo;
    RemoveKeeps(q, pending, k, more);
    FirstOut(q, k, n);
    forall m ensures Of(u, m) == if m == n then Of(q, m)[1..] else Of(q, m) {
      FirstOut(q, k, m);
    }
    OthersLeft(q, k, more);
    BitOf(q, pending, k);
    FewerEntries(q, u, k, nextId);
    PastTake(q, h, k);
    LeftNow(q, h, k);
  }

  // What taking out an entry wherever it stands does.
  lemma UnqueueKeeps(q: seq<Entry>, pending: Mask, h: History, k: int, others: bool, nextId: int)
    requires Consistent(q, pending) && Past(q, h) && 0 <= k < |q|
    requires others <==> exists i :: 0 <= i < |q| && i != k && q[i].signo == q[k].signo
    requires forall i :: 0 <= i < |q| ==> q[i].id < nextId && (1 <= q[i].id < SIGRTMIN ==> q[i].signo == q[i].id)
    ensures var u, n := q[..k] + q[k + 1..], q[k].signo;
            && Consistent(u, if others then pending else pending[n := false]) && Allocated(u) == Allocated(q) - (if q[k].heap then 1 else 0)
            && IsSignal(n) && |pending| == NSIG + 1 && pending[n] && (others <==> Of(u, n) != [])
            && (forall i :: 0 <= i < |u| ==> u[i].id < nextId && (1 <= u[i].id < SIGRTMIN ==> u[i].signo == u[i].id))
    ensures |h.tickets| == |q| && Past(q[..k] + q[k + 1..], Dropped(h, k))
    ensures Dropped(h, k).issued == h.issued && Dropped(h, k).taken == h.taken
  {
    hide Of, Allocated, Consistent, Past, Distinct;
    RemoveKeeps(q, pending, k, others);
    OthersLeft(q, k, others);
    BitOf(q, pending, k);
    FewerEntries(q, q[..k] + q[k + 1..], k, nextId);
    PastDrop(q, h, k);
    PastSize(q, h);
  }

  lemma FewerEntries(q: seq<Entry>, u: seq<Entry>, k: int, nextId: int)
    requires 0 <= k < |q| && u == q[..k] + q[k + 1..]
    requires forall i :: 0 <= i < |q| ==> q[i].id < nextId && (1 <= q[i].id < SIGRTMIN ==> q[i].signo == q[i].id)
    ensures forall i :: 0 <= i < |u| ==> u[i].id < nextId && (1 <= u[i].id < SIGRTMIN ==> u[i].signo == u[i].id)
  {
    forall i | 0 <= i < |u| ensures u[i].id < nextId && (1 <= u[i].id < SIGRTMIN ==> u[i].signo == u[i].id) {
      assert u[i] == q[if i < k then i else i + 1];
    }
  }

  lemma ConsistentFacts(q: seq<Entry>, pending: Mask)
    requires Consistent(q, pending)
    ensures |pending| == NSIG + 1 && Distinct(q) && forall i :: 0 <= i < |q| ==> IsSignal(q[i].signo)
  {
  }

  // What is left after cancelling was there before.
  lemma CancelledFrom(q: seq<Entry>, s: int, i: int)
    requires 0 <= i < |Cancelled(q, s)|
    ensures Cancelled(q, s)[i] in q
  {
    if s == SIGCONT {
      var k := UnmaskedFrom(q, StopMask(), i);
    } else if IsStop(s) {
      var k := UnmaskedFrom(q, One(SIGCONT), i);
    }
  }

  // No entry of a number that is not pending: its slot is free.
  lemma SlotFree(q: seq<Entry>, pending: Mask, s: int)
    requires Consistent(q, pending) && IsSignal(s) && s < SIGRTMIN && !pending[s]
    requires forall i :: 0 <= i < |q| && 1 <= q[i].id < SIGRTMIN ==> q[i].signo == q[i].id
    ensures forall i :: 0 <= i < |q| ==> q[i].id != s
  {
    assert Agree(q, pending, s);
    OfNone(q, s);
  }

  lemma BareBit(q: seq<Entry>, pending: Mask, s: int)
    requires Consistent(q, pending) && SIGRTMIN <= s <= NSIG
    ensures Consistent(q, pending[s := true])
  {
    forall n | IsSignal(n) ensures Agree(q, pending[s := true], n) {
      assert Agree(q, pending, n);
    }
  }

  lemma BareClear(q: seq<Entry>, pending: Mask, s: int)
    requires Consistent(q, pending) && IsSignal(s) && Of(q, s) == []
    ensures Consistent(q, pending[s := false])
  {
    forall n | IsSignal(n) ensures Agree(q, pending[s := false], n) {
      assert Agree(q, pending, n);
    }
  }
}
