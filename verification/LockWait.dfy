/**
 Waiting for a byte-range lock (kernel/fs/posix_lock.c, `would_deadlock`,
 `forget_waiter`, one turn of the loop in `posix_lock_set`).

 The waiters are the edges of a graph, from the owner that waits to the owner
 of the lock in its way.  The search is made for owners that are processes (even
 numbers), and an owner waits for one lock at a time.
 */
module LockWaits {
  import opened Options
  import opened PosixLocks

  const DEADLOCK_SEARCH_DEPTH: int := 10

  // `id` tells the records apart: each lives on its caller's stack.
  datatype Waiter = Waiter(id: int, owner: int, blocker: int)

  // Whom the owner waits for, as the first record of that owner says.
  function Blocker(ws: seq<Waiter>, owner: int): Option<int> {
    if ws == [] then None else if ws[0].owner == owner then Some(ws[0].blocker) else Blocker(ws[1..], owner)
  }

  // Whom one gets to after k edges.
  ghost function Follow(ws: seq<Waiter>, owner: int, k: nat): Option<int>
    decreases k
  {
    if k == 0 then Some(owner)
    else match Blocker(ws, owner) case None => None case Some(next) => Follow(ws, next, k - 1)
  }

  ghost predicate LeadsTo(ws: seq<Waiter>, from: int, to: int, k: int) {
    k >= 0 && Follow(ws, from, k) == Some(to)
  }

  // No cycle of n or fewer edges.
  ghost predicate NoCycle(ws: seq<Waiter>, n: int) {
    forall x, k :: 1 <= k <= n ==> !LeadsTo(ws, x, x, k)
  }

  ghost predicate OneEach(ws: seq<Waiter>) {
    forall i, j :: 0 <= i < j < |ws| ==> ws[i].owner != ws[j].owner && ws[i].id != ws[j].id
  }

  lemma {:induction false} FollowOn(ws: seq<Waiter>, x: int, a: nat, b: nat)
    ensures Follow(ws, x, a + b) == match Follow(ws, x, a) case None => None case Some(y) => Follow(ws, y, b)
    decreases a
  {
    if a > 0 {
      match Blocker(ws, x)
      case None =>
      case Some(next) => FollowOn(ws, next, a - 1, b);
    }
  }

  lemma {:induction false} NotWaiting(ws: seq<Waiter>, owner: int)
    ensures Blocker(ws, owner) == None <==> forall i :: 0 <= i < |ws| ==> ws[i].owner != owner
  {
    if ws != [] && ws[0].owner != owner {
      NotWaiting(ws[1..], owner);
      assert forall i :: 0 < i < |ws| ==> ws[i] == ws[1..][i - 1];
    }
  }

  // ---------------------------------------------------------------------------
  // A new edge
  // ---------------------------------------------------------------------------

  // A walk in the longer list that does not start an edge at the new owner is a walk in the old one.
  lemma {:induction false} OldWalk(ws: seq<Waiter>, w: Waiter, x: int, k: nat)
    requires forall i :: 0 <= i < k ==> !LeadsTo([w] + ws, x, w.owner, i)
    ensures Follow([w] + ws, x, k) == Follow(ws, x, k)
    decreases k
  {
    var ws' := [w] + ws;
    assert ws'[1..] == ws;
    if k > 0 {
      assert !LeadsTo(ws', x, w.owner, 0);
      match Blocker(ws, x)
      case None =>
      case Some(next) =>
        forall i | 0 <= i < k - 1 ensures !LeadsTo(ws', next, w.owner, i) {
          assert !LeadsTo(ws', x, w.owner, i + 1);
        }
        OldWalk(ws, w, next, k - 1);
    }
  }

  // The first time a walk from x comes to the owner.
  lemma {:induction false} FirstVisit(ws: seq<Waiter>, x: int, owner: int, k: nat) returns (r: nat)
    requires LeadsTo(ws, x, owner, k)
    ensures r <= k && LeadsTo(ws, x, owner, r) && forall i :: 0 <= i < r ==> !LeadsTo(ws, x, owner, i)
  {
    r := 0;
    while !LeadsTo(ws, x, owner, r)
      invariant r <= k && forall i :: 0 <= i < r ==> !LeadsTo(ws, x, owner, i)
      decreases k - r
    {
      r := r + 1;
    }
  }

  // A cycle through an owner can be walked from that owner.
  lemma Rotate(ws: seq<Waiter>, x: int, owner: int, k: int, m: int)
    requires LeadsTo(ws, x, x, k) && 0 <= m < k && LeadsTo(ws, x, owner, m)
    ensures LeadsTo(ws, owner, owner, k)
  {
    FollowOn(ws, x, m, k - m);
    FollowOn(ws, owner, k - m, m);
  }

  // A cycle in the longer list was there before, or closes a chain back to the new owner.
  lemma CycleFrom(ws: seq<Waiter>, w: Waiter, x: int, k: nat)
    requires k >= 1 && LeadsTo([w] + ws, x, x, k)
    ensures LeadsTo(ws, x, x, k) || exists r :: 0 <= r < k && LeadsTo(ws, w.blocker, w.owner, r)
  {
    var ws' := [w] + ws;
    if m :| 0 <= m < k && LeadsTo(ws', x, w.owner, m) {
      Rotate(ws', x, w.owner, k, m);
      assert Blocker(ws', w.owner) == Some(w.blocker);
      var r := FirstVisit(ws', w.blocker, w.owner, k - 1);
      OldWalk(ws, w, w.blocker, r);
      assert LeadsTo(ws, w.blocker, w.owner, r);
    } else {
      OldWalk(ws, w, x, k);
    }
  }

  // The search for the way back looks at every chain a short cycle could use.
  lemma NewEdgeKeeps(ws: seq<Waiter>, w: Waiter)
    requires NoCycle(ws, DEADLOCK_SEARCH_DEPTH)
    requires forall k :: 0 <= k < DEADLOCK_SEARCH_DEPTH ==> !LeadsTo(ws, w.blocker, w.owner, k)
    ensures NoCycle([w] + ws, DEADLOCK_SEARCH_DEPTH)
  {
    hide LeadsTo;
    forall x, k | 1 <= k <= DEADLOCK_SEARCH_DEPTH ensures !LeadsTo([w] + ws, x, x, k) {
      if LeadsTo([w] + ws, x, x, k) {
        CycleFrom(ws, w, x, k);
      }
    }
  }

  // ---------------------------------------------------------------------------
  // Fewer edges
  // ---------------------------------------------------------------------------

  lemma {:induction false} BlockerWithout(ws: seq<Waiter>, i: int, x: int)
    requires OneEach(ws) && 0 <= i < |ws|
    ensures Blocker(ws[..i] + ws[i + 1..], x) == if x == ws[i].owner then None else Blocker(ws, x)
  {
    var u := ws[..i] + ws[i + 1..];
    if i == 0 {
      assert u == ws[1..];
      NotWaiting(u, ws[0].owner);
    } else {
      assert u[1..] == ws[1..][..i - 1] + ws[1..][i..];
      assert ws[1..][i - 1] == ws[i];
      BlockerWithout(ws[1..], i - 1, x);
    }
  }

  lemma {:induction false} WalkWithout(ws: seq<Waiter>, i: int, x: int, y: int, k: nat)
    requires OneEach(ws) && 0 <= i < |ws| && LeadsTo(ws[..i] + ws[i + 1..], x, y, k)
    ensures LeadsTo(ws, x, y, k)
    decreases k
  {
    if k > 0 {
      BlockerWithout(ws, i, x);
      WalkWithout(ws, i, Blocker(ws, x).value, y, k - 1);
    }
  }

  lemma FewerEdgesKeep(ws: seq<Waiter>, i: int)
    requires OneEach(ws) && NoCycle(ws, DEADLOCK_SEARCH_DEPTH) && 0 <= i < |ws|
    ensures OneEach(ws[..i] + ws[i + 1..]) && NoCycle(ws[..i] + ws[i + 1..], DEADLOCK_SEARCH_DEPTH)
  {
    var u := ws[..i] + ws[i + 1..];
    forall x, k | 1 <= k <= DEADLOCK_SEARCH_DEPTH ensures !LeadsTo(u, x, x, k) {
      if LeadsTo(u, x, x, k) {
        WalkWithout(ws, i, x, x, k);
      }
    }
    forall a, b | 0 <= a < b < |u| ensures u[a].owner != u[b].owner && u[a].id != u[b].id {
      assert u[a] == ws[if a < i then a else a + 1] && u[b] == ws[if b < i then b else b + 1];
    }
  }

  // ---------------------------------------------------------------------------
  // Beyond the depth
  // ---------------------------------------------------------------------------

  // 2 waits for 4, 4 for 6, and so on.
  function Chain(first: int, n: nat): seq<Waiter>
    decreases n
  {
    if n == 0 then [] else [Waiter(first, first, first + 2)] + Chain(first + 2, n - 1)
  }

  lemma {:induction false} ChainStep(first: int, n: nat, i: nat)
    requires i < n
    ensures Blocker(Chain(first, n), first + 2 * i) == Some(first + 2 * i + 2)
    decreases n
  {
    if i > 0 {
      ChainStep(first + 2, n - 1, i - 1);
    }
  }

  lemma {:induction false} ChainFollow(first: int, n: nat, i: nat, k: nat)
    requires i + k <= n
    ensures Follow(Chain(first, n), first + 2 * i, k) == Some(first + 2 * (i + k))
    decreases k
  {
    if k > 0 {
      ChainStep(first, n, i);
      ChainFollow(first, n, i + 1, k - 1);
    }
  }

  // A cycle of eleven edges is not noticed: the depth is exactly ten.
  lemma ElevenIsMissed()
    ensures var ws := Chain(2, 10);
            && (forall k :: 0 <= k < DEADLOCK_SEARCH_DEPTH ==> !LeadsTo(ws, 2, 22, k))
            && LeadsTo(ws, 2, 22, 10) && LeadsTo([Waiter(22, 22, 2)] + ws, 22, 22, 11)
  {
    var ws := Chain(2, 10);
    forall k | 0 <= k <= 10 ensures LeadsTo(ws, 2, 2 + 2 * k, k) {
      ChainFollow(2, 10, 0, k);
    }
    assert LeadsTo(ws, 2, 2 + 2 * 10, 10);
    var w := Waiter(22, 22, 2);
    var ws' := [w] + ws;
    forall k | 0 <= k < 10 ensures !LeadsTo(ws, 2, 22, k) {
      assert LeadsTo(ws, 2, 2 + 2 * k, k);
    }
    NoVisit(ws, w, 2, 10);
    OldWalk(ws, w, 2, 10);
    assert Blocker(ws', 22) == Some(2);
  }

  // Not coming to the new owner in the old list is not coming to it in the new one.
  lemma {:induction false} NoVisit(ws: seq<Waiter>, w: Waiter, x: int, k: nat)
    requires forall i :: 0 <= i < k ==> !LeadsTo(ws, x, w.owner, i)
    ensures forall i :: 0 <= i < k ==> !LeadsTo([w] + ws, x, w.owner, i)
  {
    if k > 0 {
      NoVisit(ws, w, x, k - 1);
      OldWalk(ws, w, x, k - 1);
      assert !LeadsTo(ws, x, w.owner, k - 1);
    }
  }

  datatype Status = Done | Again | Deadlock | Blocked

  // A recorded chain of fewer than ten edges leads from one owner to another.
  ghost predicate Reaches(ws: seq<Waiter>, from: int, to: int) {
    exists k :: 0 <= k < DEADLOCK_SEARCH_DEPTH && LeadsTo(ws, from, to, k)
  }

  // The first lock that stands in the way of the request has this owner.
  ghost predicate FirstInTheWay(r: Request, locks: seq<Lock>, owner: int) {
    exists i :: 0 <= i < |locks| && Conflicts(r, locks[i]) && locks[i].owner == owner && forall j :: 0 <= j < i ==> !Conflicts(r, locks[j])
  }

  class WaitList {
    var waiters: seq<Waiter>

    ghost predicate Valid()
      reads this
    {
      OneEach(waiters) && NoCycle(waiters, DEADLOCK_SEARCH_DEPTH)
    }

    constructor ()
      ensures Valid() && waiters == []
    {
      waiters := [];
      new;
      forall x, k | 1 <= k <= DEADLOCK_SEARCH_DEPTH ensures !LeadsTo([], x, x, k) {
        assert Blocker([], x) == None;
      }
    }

    // The search answers yes exactly when a recorded chain of fewer than ten edges
    // leads from the blocker back to the owner.
    method WouldDeadlock(owner: int, blocker: int) returns (yes: bool)
      ensures yes <==> Reaches(waiters, blocker, owner)
    {
      var at := blocker;
      for depth := 0 to DEADLOCK_SEARCH_DEPTH
        invariant LeadsTo(waiters, blocker, at, depth)
        invariant forall k :: 0 <= k < depth ==> !LeadsTo(waiters, blocker, owner, k)
      {
        if at == owner {
          return true;
        }
        var i := 0;
        while i < |waiters| && waiters[i].owner != at
          invariant 0 <= i <= |waiters| && Blocker(waiters, at) == Blocker(waiters[i..], at)
        {
          assert waiters[i..][1..] == waiters[i + 1..];
          i := i + 1;
        }
        if i == |waiters| {
          forall k | depth < k < DEADLOCK_SEARCH_DEPTH ensures !LeadsTo(waiters, blocker, owner, k) {
            FollowOn(waiters, blocker, depth, k - depth);
          }
          return false;
        }
        FollowOn(waiters, blocker, depth, 1);
        at := waiters[i].blocker;
      }
      return false;
    }

    method Forget(id: int)
      requires Valid()
      modifies this
      ensures Valid() && forall w :: w in waiters <==> w in old(waiters) && w.id != id
    {
      var i := 0;
      while i < |waiters| && waiters[i].id != id
        invariant 0 <= i <= |waiters| && forall j :: 0 <= j < i ==> waiters[j].id != id
      {
        i := i + 1;
      }
      if i < |waiters| {
        FewerEdgesKeep(waiters, i);
        RemovedRecord(waiters, i);
        waiters := waiters[..i] + waiters[i + 1..];
      }
    }

    // One turn of the loop: the lock is taken, refused, or the owner starts to wait.
    method Attempt(list: LockList, r: Request, wait: bool, id: int) returns (status: Status, ghost blocker: int)
      requires Valid() && list.Valid() && Ranged(r)
      requires forall i :: 0 <= i < |waiters| ==> waiters[i].owner != r.owner && waiters[i].id != id
      modifies this, list
      ensures list.Valid() && (r.owner % 2 == 0 || status != Blocked ==> Valid())
      ensures status != Blocked ==> waiters == old(waiters)
      ensures status != Done ==> list.locks == old(list.locks) && !NoConflict(r, list.locks)
      ensures status == Done <==> NoConflict(r, old(list.locks))
      ensures status == Done ==> Granted(r, old(list.locks), list.locks)
      ensures status == Again <==> !wait && !NoConflict(r, old(list.locks))
      ensures status == Deadlock <==>
                wait && !NoConflict(r, old(list.locks)) && r.owner % 2 == 0 && Reaches(old(waiters), blocker, r.owner)
      ensures status == Blocked ==> waiters == [Waiter(id, r.owner, blocker)] + old(waiters)
      ensures status != Done ==> FirstInTheWay(r, list.locks, blocker)
    {
      hide Granted, WellFormed, NoCycle;
      blocker := 0;
      if r.kind != UNLOCK {
        var k := list.FindConflict(r);
        if k < |list.locks| {
          assert !NoConflict(r, list.locks);
          var other := list.locks[k].owner;
          blocker := other;
          if !wait {
            return Again, blocker;
          }
          var loop := false;
          if r.owner % 2 == 0 {
            loop := WouldDeadlock(r.owner, other);
          }
          if loop {
            return Deadlock, blocker;
          }
          var w := Waiter(id, r.owner, other);
          if r.owner % 2 == 0 {
            NewEdgeKeeps(waiters, w);
          }
          waiters := [w] + waiters;
          return Blocked, blocker;
        }
      }
      list.Apply(r);
      status := Done;
    }
  }

  lemma RemovedRecord(ws: seq<Waiter>, i: int)
    requires OneEach(ws) && 0 <= i < |ws|
    ensures forall w :: w in ws[..i] + ws[i + 1..] <==> w in ws && w.id != ws[i].id
  {
    var u := ws[..i] + ws[i + 1..];
    forall w | w in u ensures w in ws && w.id != ws[i].id {
      var k :| 0 <= k < |u| && u[k] == w;
      assert w == ws[if k < i then k else k + 1];
    }
    forall w | w in ws && w.id != ws[i].id ensures w in u {
      var k :| 0 <= k < |ws| && ws[k] == w;
      assert u[if k < i then k else k - 1] == w;
    }
  }
}
