/**
 Byte-range locks on a file (kernel/fs/posix_lock.c): the list of locks of one
 file, `apply` with its cutting and merging, the conflict search and the release
 of an owner's locks.  The list a node points at is a sequence that the methods
 reassign; the two nodes allocated up front are a count.
 */
module PosixLocks {
  const LOCK_END: int := 0xFFFF_FFFF_FFFF_FFFF

  const READ: int := 0
  const WRITE: int := 1
  const UNLOCK: int := 2

  datatype Lock = Lock(owner: int, pid: int, kind: int, start: int, end: int)

  // A request has the same fields; its kind may also be UNLOCK.
  type Request = Lock

  predicate Ranged(r: Request) {
    0 <= r.start <= r.end <= LOCK_END && READ <= r.kind <= UNLOCK
  }

  predicate Overlaps(start: int, end: int, lock: Lock) {
    start <= lock.end && lock.start <= end
  }

  predicate Touches(start: int, end: int, lock: Lock) {
    var before := lock.end != LOCK_END && lock.end + 1 < start;
    var after := end != LOCK_END && end + 1 < lock.start;
    !before && !after
  }

  predicate Conflicts(r: Request, lock: Lock) {
    lock.owner != r.owner && Overlaps(r.start, r.end, lock) && (lock.kind == WRITE || r.kind == WRITE)
  }

  // ---------------------------------------------------------------------------
  // What a list of locks means
  // ---------------------------------------------------------------------------

  predicate Covers(lock: Lock, b: int) {
    lock.start <= b <= lock.end
  }

  // The owner holds byte b with a lock of this kind that this process asked for.
  ghost predicate Held(s: seq<Lock>, owner: int, b: int, kind: int, pid: int) {
    exists i :: 0 <= i < |s| && s[i].owner == owner && s[i].kind == kind && s[i].pid == pid && s[i].start <= b <= s[i].end
  }

  ghost predicate Proper(lock: Lock) {
    0 <= lock.start <= lock.end <= LOCK_END && (lock.kind == READ || lock.kind == WRITE)
  }

  // Two locks that may be in one list: an owner's locks are disjoint and the
  // same-kind ones are merged; locks of different owners overlap only when shared.
  ghost predicate Fit(a: Lock, b: Lock) {
    if a.owner == b.owner then
      && !Overlaps(a.start, a.end, b)
      && (a.kind == b.kind ==> !Touches(a.start, a.end, b))
    else
      Overlaps(a.start, a.end, b) ==> a.kind == READ && b.kind == READ
  }

  ghost predicate WellFormed(s: seq<Lock>) {
    && (forall i :: 0 <= i < |s| ==> Proper(s[i]))
    && (forall i, j :: 0 <= i < j < |s| ==> Fit(s[i], s[j]))
  }

  ghost predicate NoConflict(r: Request, s: seq<Lock>) {
    r.kind != UNLOCK ==> forall i :: 0 <= i < |s| ==> !Conflicts(r, s[i])
  }

  lemma FitSymmetric(a: Lock, b: Lock)
    requires Fit(a, b)
    ensures Fit(b, a)
  {
  }

  lemma FitAt(s: seq<Lock>, i: int, j: int)
    requires WellFormed(s) && 0 <= i < |s| && 0 <= j < |s| && i != j
    ensures Fit(s[i], s[j])
  {
    if j < i {
      FitSymmetric(s[j], s[i]);
    }
  }

  lemma HeldBy(s: seq<Lock>, owner: int, b: int, kind: int, pid: int) returns (i: int)
    requires Held(s, owner, b, kind, pid)
    ensures 0 <= i < |s| && s[i].owner == owner && s[i].kind == kind && s[i].pid == pid && Covers(s[i], b)
  {
    i :| 0 <= i < |s| && s[i].owner == owner && s[i].kind == kind && s[i].pid == pid && s[i].start <= b <= s[i].end;
  }

  // A lock stands in the way exactly when it is another owner's, shares a byte with
  // the request and one of the two is exclusive.
  lemma ConflictMeans(r: Request, lock: Lock)
    requires Ranged(r) && Proper(lock)
    ensures Conflicts(r, lock) <==>
              && lock.owner != r.owner && (lock.kind == WRITE || r.kind == WRITE)
              && exists b :: Covers(r, b) && lock.start <= b <= lock.end
  {
    if Conflicts(r, lock) {
      var b := if r.start <= lock.start then lock.start else r.start;
      assert Covers(r, b) && lock.start <= b <= lock.end;
    }
  }

  // An owner's locks of one kind have a byte between them.
  lemma MergedApart(s: seq<Lock>, i: int, j: int)
    requires WellFormed(s) && 0 <= i < |s| && 0 <= j < |s| && i != j && s[i].owner == s[j].owner && s[i].kind == s[j].kind
    ensures s[i].end + 1 < s[j].start || s[j].end + 1 < s[i].start
  {
    FitAt(s, i, j);
  }

  // An owner holds a byte with at most one kind of lock, asked for by one process.
  lemma HeldOnce(s: seq<Lock>, owner: int, b: int, kind: int, pid: int, kind': int, pid': int)
    requires WellFormed(s) && Held(s, owner, b, kind, pid) && Held(s, owner, b, kind', pid')
    ensures kind == kind' && pid == pid'
  {
    var i := HeldBy(s, owner, b, kind, pid);
    var j := HeldBy(s, owner, b, kind', pid');
    if i != j {
      FitAt(s, i, j);
    }
  }

  // Different owners share a byte only with read locks.
  lemma SharedIsRead(s: seq<Lock>, owner: int, owner': int, b: int, kind: int, pid: int, kind': int, pid': int)
    requires WellFormed(s) && owner != owner' && Held(s, owner, b, kind, pid) && Held(s, owner', b, kind', pid')
    ensures kind == kind' == READ
  {
    var i := HeldBy(s, owner, b, kind, pid);
    var j := HeldBy(s, owner', b, kind', pid');
    FitAt(s, i, j);
  }

  // ---------------------------------------------------------------------------
  // One pass of `apply`
  // ---------------------------------------------------------------------------

  // Locks the new one swallows.
  predicate Merges(r: Request, lock: Lock) {
    lock.owner == r.owner && r.kind != UNLOCK && lock.kind == r.kind && Touches(r.start, r.end, lock)
  }

  predicate Cut(r: Request, lock: Lock) {
    lock.owner == r.owner && !Merges(r, lock) && Overlaps(r.start, r.end, lock)
  }

  predicate Splits(r: Request, lock: Lock) {
    Cut(r, lock) && lock.start < r.start && lock.end > r.end
  }

  // What is left of a lock once the requested range is taken out of it.
  function Pieces(r: Request, lock: Lock): seq<Lock> {
    if Merges(r, lock) then []
    else if !Cut(r, lock) then [lock]
    else
      (if lock.start < r.start then [lock.(end := r.start - 1)] else [])
      + (if lock.end > r.end then [lock.(start := r.end + 1)] else [])
  }

  function Carve(r: Request, s: seq<Lock>): seq<Lock> {
    if s == [] then [] else Carve(r, s[..|s| - 1]) + Pieces(r, s[|s| - 1])
  }

  // Where a piece in the carved list comes from.
  ghost predicate PieceOf(r: Request, lock: Lock, p: Lock) {
    && p.owner == lock.owner && p.pid == lock.pid && p.kind == lock.kind && lock.start <= p.start <= p.end <= lock.end
    && !Merges(r, lock) && (p.owner == r.owner ==> !Overlaps(r.start, r.end, p))
  }

  lemma {:induction false} Origin(r: Request, s: seq<Lock>, i: int) returns (k: int)
    requires Ranged(r) && (forall j :: 0 <= j < |s| ==> Proper(s[j])) && 0 <= i < |Carve(r, s)|
    ensures 0 <= k < |s| && PieceOf(r, s[k], Carve(r, s)[i])
  {
    var init, last := s[..|s| - 1], s[|s| - 1];
    if i < |Carve(r, init)| {
      k := Origin(r, init, i);
    } else {
      k := |s| - 1;
      var p := Pieces(r, last)[i - |Carve(r, init)|];
      assert Carve(r, s)[i] == p;
    }
  }

  // Every byte outside the cut is still in some piece.
  lemma {:induction false} Survives(r: Request, s: seq<Lock>, k: int, b: int) returns (i: int)
    requires Ranged(r) && (forall j :: 0 <= j < |s| ==> Proper(s[j])) && 0 <= k < |s| && Covers(s[k], b) && !Merges(r, s[k])
    requires s[k].owner == r.owner ==> !Covers(r, b)
    ensures 0 <= i < |Carve(r, s)| && PieceOf(r, s[k], Carve(r, s)[i]) && Covers(Carve(r, s)[i], b)
  {
    var init, last := s[..|s| - 1], s[|s| - 1];
    if k < |s| - 1 {
      i := Survives(r, init, k, b);
      assert Carve(r, s)[i] == Carve(r, init)[i];
    } else {
      var p := Pieces(r, last);
      i := |Carve(r, init)| + if |p| == 2 && b > r.end then 1 else 0;
      assert Carve(r, s)[i] == p[i - |Carve(r, init)|];
    }
  }

  lemma LastPieces(r: Request, x: Lock)
    requires Ranged(r) && Proper(x)
    ensures forall i :: 0 <= i < |Pieces(r, x)| ==> Proper(Pieces(r, x)[i]) && PieceOf(r, x, Pieces(r, x)[i])
    ensures forall i, j :: 0 <= i < j < |Pieces(r, x)| ==> Fit(Pieces(r, x)[i], Pieces(r, x)[j])
  {
  }

  // Carving keeps the list well formed.
  lemma {:induction false} CarveFits(r: Request, s: seq<Lock>)
    requires Ranged(r) && WellFormed(s)
    ensures WellFormed(Carve(r, s))
  {
    if s != [] {
      var init, last := s[..|s| - 1], s[|s| - 1];
      CarveFits(r, init);
      var a, p := Carve(r, init), Pieces(r, last);
      var c := a + p;
      assert Carve(r, s) == c;
      LastPieces(r, last);
      hide Carve, Pieces, PieceOf, Fit, Proper;
      forall i | 0 <= i < |c| ensures Proper(c[i]) {
        assert i >= |a| ==> c[i] == p[i - |a|];
      }
      forall i, j | 0 <= i < j < |c| ensures Fit(c[i], c[j]) {
        if i < |a| <= j {
          var k := Origin(r, init, i);
          assert init[k] == s[k] && c[j] == p[j - |a|];
          PiecesFit(r, s[k], last, c[i], c[j]);
        } else if |a| <= i {
          assert c[i] == p[i - |a|] && c[j] == p[j - |a|];
        }
      }
    }
  }

  lemma PiecesFit(r: Request, x: Lock, y: Lock, p: Lock, q: Lock)
    requires Proper(x) && Proper(y) && Fit(x, y) && PieceOf(r, x, p) && PieceOf(r, y, q)
    ensures Fit(p, q)
  {
  }

  // ---------------------------------------------------------------------------
  // The new lock
  // ---------------------------------------------------------------------------

  // [start, end] is the requested range grown by the locks it swallowed.
  ghost predicate Hull(r: Request, s: seq<Lock>, start: int, end: int) {
    && start <= r.start && r.end <= end
    && (forall k :: 0 <= k < |s| && Merges(r, s[k]) ==> start <= s[k].start && s[k].end <= end)
    && (start == r.start || exists k :: 0 <= k < |s| && Merges(r, s[k]) && s[k].start == start)
    && (end == r.end || exists k :: 0 <= k < |s| && Merges(r, s[k]) && s[k].end == end)
  }

  lemma HullNext(r: Request, s: seq<Lock>, x: Lock, start: int, end: int)
    requires Hull(r, s, start, end)
    ensures !Merges(r, x) ==> Hull(r, s + [x], start, end)
    ensures Merges(r, x) ==>
              Hull(r, s + [x], if x.start < start then x.start else start, if x.end > end then x.end else end)
  {
    var u := s + [x];
    assert u[|s|] == x && forall k :: 0 <= k < |s| ==> u[k] == s[k];
    if start != r.start {
      var k :| 0 <= k < |s| && Merges(r, s[k]) && s[k].start == start;
      assert u[k] == s[k];
    }
    if end != r.end {
      var k :| 0 <= k < |s| && Merges(r, s[k]) && s[k].end == end;
      assert u[k] == s[k];
    }
  }

  // A byte the new lock covers was asked for, or belonged to a lock it swallowed.
  lemma HullCovers(r: Request, s: seq<Lock>, start: int, end: int, b: int) returns (k: int)
    requires Ranged(r) && WellFormed(s) && Hull(r, s, start, end) && start <= b <= end && !Covers(r, b)
    ensures 0 <= k < |s| && Merges(r, s[k]) && Covers(s[k], b)
  {
    if b < r.start {
      k :| 0 <= k < |s| && Merges(r, s[k]) && s[k].start == start;
    } else {
      k :| 0 <= k < |s| && Merges(r, s[k]) && s[k].end == end;
    }
  }

  // Growing the range does not make it touch more of the owner's same-kind locks:
  // those it swallowed were merged already.
  lemma SameTouch(r: Request, s: seq<Lock>, j: int, start: int, end: int)
    requires Ranged(r) && WellFormed(s) && 0 <= j < |s| && Hull(r, s[..j], start, end)
    requires s[j].owner == r.owner && s[j].kind == r.kind
    ensures Touches(start, end, s[j]) <==> Touches(r.start, r.end, s[j])
  {
    var x := s[j];
    if !Touches(r.start, r.end, x) {
      if x.end < r.start && start != r.start {
        var k :| 0 <= k < j && Merges(r, s[k]) && s[k].start == start;
        FitAt(s, k, j);
      } else if r.end < x.start && end != r.end {
        var k :| 0 <= k < j && Merges(r, s[k]) && s[k].end == end;
        FitAt(s, k, j);
      }
    }
  }

  lemma HullHas(r: Request, s: seq<Lock>, start: int, end: int, m: int)
    requires Hull(r, s, start, end) && 0 <= m < |s| && Merges(r, s[m])
    ensures r.kind != UNLOCK && start <= s[m].start && s[m].end <= end
  {
  }

  // The new lock fits every piece.
  lemma AddedFits(r: Request, s: seq<Lock>, start: int, end: int, i: int)
    requires Ranged(r) && r.kind != UNLOCK && WellFormed(s) && NoConflict(r, s) && Hull(r, s, start, end)
    requires 0 <= i < |Carve(r, s)|
    ensures Fit(r.(start := start, end := end), Carve(r, s)[i])
  {
    var p, added := Carve(r, s)[i], r.(start := start, end := end);
    var k := Origin(r, s, i);
    if p.owner == r.owner {
      if p.kind == r.kind {
        UntouchedFits(r, s, start, end, k, p);
      } else if Overlaps(start, end, p) {
        var b := if start <= p.start then p.start else start;
        assert Covers(p, b) && start <= b <= end && !Covers(r, b);
        var m := HullCovers(r, s, start, end, b);
        FitAt(s, m, k);
        assert false;
      }
    } else if Overlaps(start, end, p) {
      var b := if start <= p.start then p.start else start;
      if Covers(r, b) {
        assert !Conflicts(r, s[k]);
      } else {
        var m := HullCovers(r, s, start, end, b);
        FitAt(s, m, k);
      }
    }
  }

  lemma UntouchedFits(r: Request, s: seq<Lock>, start: int, end: int, k: int, p: Lock)
    requires Ranged(r) && r.kind != UNLOCK && WellFormed(s) && Hull(r, s, start, end) && 0 <= k < |s|
    requires PieceOf(r, s[k], p) && p.owner == r.owner && p.kind == r.kind
    ensures !Touches(start, end, p)
  {
    var x := s[k];
    assert !Touches(r.start, r.end, x);
    if x.end < r.start {
      if start != r.start {
        var m :| 0 <= m < |s| && Merges(r, s[m]) && s[m].start == start;
        FitAt(s, m, k);
      }
    } else {
      if end != r.end {
        var m :| 0 <= m < |s| && Merges(r, s[m]) && s[m].end == end;
        FitAt(s, m, k);
      }
    }
  }

  // ---------------------------------------------------------------------------
  // The result of a request
  // ---------------------------------------------------------------------------

  function Outcome(r: Request, s: seq<Lock>, start: int, end: int): seq<Lock> {
    if r.kind == UNLOCK then Carve(r, s) else [r.(start := start, end := end)] + Carve(r, s)
  }

  // The byte is in a lock of the same owner and kind that shares a byte with the
  // request or lies right next to it.
  ghost predicate Swallowed(r: Request, s: seq<Lock>, b: int) {
    && r.kind != UNLOCK
    && exists i :: 0 <= i < |s| && s[i].owner == r.owner && s[i].kind == r.kind && s[i].start <= b <= s[i].end
                   && s[i].start <= r.end + 1 && r.start <= s[i].end + 1
  }

  // What the owner of a byte holds after the request.
  ghost predicate Expected(r: Request, s: seq<Lock>, o: int, b: int, k: int, p: int) {
    if o == r.owner && r.start <= b <= r.end then r.kind != UNLOCK && k == r.kind && p == r.pid
    else if o == r.owner && Swallowed(r, s, b) then k == r.kind && p == r.pid
    else Held(s, o, b, k, p)
  }

  // The bytes asked for now have the requested kind and process, and so have those of
  // the locks the new one swallowed; nothing else has changed.
  ghost predicate Granted(r: Request, s: seq<Lock>, s': seq<Lock>) {
    forall o, b, k, p :: Held(s', o, b, k, p) <==> Expected(r, s, o, b, k, p)
  }

  lemma SwallowedBy(r: Request, s: seq<Lock>, b: int) returns (i: int)
    requires Ranged(r) && WellFormed(s) && Swallowed(r, s, b)
    ensures 0 <= i < |s| && Merges(r, s[i]) && Covers(s[i], b)
  {
    i :| 0 <= i < |s| && s[i].owner == r.owner && s[i].kind == r.kind && s[i].start <= b <= s[i].end
         && s[i].start <= r.end + 1 && r.start <= s[i].end + 1;
  }

  lemma SwallowedIs(r: Request, s: seq<Lock>, i: int, b: int)
    requires Ranged(r) && WellFormed(s) && 0 <= i < |s| && Covers(s[i], b)
    ensures Merges(r, s[i]) ==> Swallowed(r, s, b)
    ensures !Merges(r, s[i]) && s[i].owner == r.owner ==> !Swallowed(r, s, b)
  {
    if !Merges(r, s[i]) && s[i].owner == r.owner && Swallowed(r, s, b) {
      var j := SwallowedBy(r, s, b);
      FitAt(s, i, j);
      assert false;
    }
  }

  lemma OutcomeWellFormed(r: Request, s: seq<Lock>, start: int, end: int)
    requires Ranged(r) && WellFormed(s) && NoConflict(r, s) && Hull(r, s, start, end)
    ensures WellFormed(Outcome(r, s, start, end))
  {
    hide Hull, Fit, Carve;
    CarveFits(r, s);
    if r.kind != UNLOCK {
      var c, u := Carve(r, s), Outcome(r, s, start, end);
      assert Proper(u[0]) by {
        HullInside(r, s, start, end);
      }
      forall i, j | 0 <= i < j < |u| ensures Fit(u[i], u[j]) {
        if i == 0 {
          AddedFits(r, s, start, end, j - 1);
        } else {
          assert u[i] == c[i - 1] && u[j] == c[j - 1];
        }
      }
    }
  }

  lemma HullInside(r: Request, s: seq<Lock>, start: int, end: int)
    requires Ranged(r) && WellFormed(s) && Hull(r, s, start, end)
    ensures 0 <= start <= end <= LOCK_END
  {
  }

  lemma OutcomeGrants(r: Request, s: seq<Lock>, start: int, end: int)
    requires Ranged(r) && WellFormed(s) && Hull(r, s, start, end)
    ensures Granted(r, s, Outcome(r, s, start, end))
  {
    var u := Outcome(r, s, start, end);
    hide Held, Expected, Outcome, WellFormed, Hull;
    forall o, b, k, p ensures Held(u, o, b, k, p) <==> Expected(r, s, o, b, k, p) {
      if Held(u, o, b, k, p) {
        var i := HeldBy(u, o, b, k, p);
        OutcomeAt(r, s, start, end, i, b);
      }
      if Expected(r, s, o, b, k, p) {
        OutcomeHolds(r, s, start, end, o, b, k, p);
      }
    }
  }

  lemma HeldIs(s: seq<Lock>, i: int, b: int)
    requires 0 <= i < |s| && Covers(s[i], b)
    ensures Held(s, s[i].owner, b, s[i].kind, s[i].pid)
  {
  }

  lemma OutcomeAt(r: Request, s: seq<Lock>, start: int, end: int, i: int, b: int)
    requires Ranged(r) && WellFormed(s) && Hull(r, s, start, end)
    requires var u := Outcome(r, s, start, end); 0 <= i < |u| && Covers(u[i], b)
    ensures var x := Outcome(r, s, start, end)[i]; Expected(r, s, x.owner, b, x.kind, x.pid)
  {
    hide Held, Hull, WellFormed, Swallowed;
    var n := if r.kind == UNLOCK then 0 else 1;
    if i < n {
      if !Covers(r, b) {
        var m := HullCovers(r, s, start, end, b);
        SwallowedIs(r, s, m, b);
      }
    } else {
      PrefixWellFormed(s, |s|);
      var m := Origin(r, s, i - n);
      assert Outcome(r, s, start, end)[i] == Carve(r, s)[i - n];
      HeldIs(s, m, b);
      SwallowedIs(r, s, m, b);
    }
  }

  lemma OutcomeHolds(r: Request, s: seq<Lock>, start: int, end: int, o: int, b: int, k: int, p: int)
    requires Ranged(r) && WellFormed(s) && Hull(r, s, start, end) && Expected(r, s, o, b, k, p)
    ensures Held(Outcome(r, s, start, end), o, b, k, p)
  {
    hide Held, Hull, WellFormed, Swallowed, Carve;
    var u, n := Outcome(r, s, start, end), if r.kind == UNLOCK then 0 else 1;
    if o == r.owner && Covers(r, b) {
      HullReach(r, s, start, end);
      HeldIs(u, 0, b);
    } else if o == r.owner && Swallowed(r, s, b) {
      var m := SwallowedBy(r, s, b);
      HullHas(r, s, start, end, m);
      HeldIs(u, 0, b);
    } else {
      PrefixWellFormed(s, |s|);
      var m := HeldBy(s, o, b, k, p);
      SwallowedIs(r, s, m, b);
      var i := Survives(r, s, m, b);
      assert u[i + n] == Carve(r, s)[i];
      HeldIs(u, i + n, b);
    }
  }

  // A lock is split at most once, so one spare is left for the new lock.
  lemma OneSplit(r: Request, s: seq<Lock>, i: int, j: int)
    requires Ranged(r) && WellFormed(s) && 0 <= i < |s| && 0 <= j < |s| && Splits(r, s[i]) && Splits(r, s[j])
    ensures i == j
  {
    if i != j {
      FitAt(s, i, j);
    }
  }

  // How many of the two spare nodes the locks before j have used.
  ghost function Used(r: Request, s: seq<Lock>): nat {
    if s == [] then 0 else Used(r, s[..|s| - 1]) + if Splits(r, s[|s| - 1]) then 1 else 0
  }

  lemma {:induction false} UsedNone(r: Request, s: seq<Lock>)
    requires forall i :: 0 <= i < |s| ==> !Splits(r, s[i])
    ensures Used(r, s) == 0
  {
    if s != [] {
      UsedNone(r, s[..|s| - 1]);
    }
  }

  lemma {:induction false} TwoSparesSuffice(r: Request, s: seq<Lock>)
    requires Ranged(r) && WellFormed(s)
    ensures Used(r, s) <= 1
  {
    if s != [] {
      var init := s[..|s| - 1];
      TwoSparesSuffice(r, init);
      if Splits(r, s[|s| - 1]) {
        forall i | 0 <= i < |init| ensures !Splits(r, init[i]) {
          if Splits(r, s[i]) {
            OneSplit(r, s, i, |s| - 1);
          }
        }
        UsedNone(r, init);
      }
    }
  }

  lemma PrefixWellFormed(s: seq<Lock>, j: int)
    requires WellFormed(s) && 0 <= j <= |s|
    ensures WellFormed(s[..j]) && forall i :: 0 <= i < |s| ==> Proper(s[i])
  {
  }

  lemma TurnParts(r: Request, s: seq<Lock>, j: int)
    requires 0 <= j < |s|
    ensures s[..j + 1] == s[..j] + [s[j]] && Carve(r, s[..j + 1]) == Carve(r, s[..j]) + Pieces(r, s[j])
    ensures Used(r, s[..j + 1]) == Used(r, s[..j]) + if Splits(r, s[j]) then 1 else 0
  {
    hide Pieces, Splits;
    assert s[..j + 1][..j] == s[..j];
  }

  // One turn of the loop in `apply`, in terms of the list it started with.
  lemma Turn(r: Request, s: seq<Lock>, j: int, start: int, end: int, spare: int)
    requires Ranged(r) && WellFormed(s) && 0 <= j < |s| && Hull(r, s[..j], start, end) && spare == 2 - Used(r, s[..j])
    ensures var x := s[j];
            && s[..j + 1] == s[..j] + [x] && Carve(r, s[..j + 1]) == Carve(r, s[..j]) + Pieces(r, x)
            && (Merges(r, x) <==> x.owner == r.owner && r.kind != UNLOCK && x.kind == r.kind && Touches(start, end, x))
            && (!Merges(r, x) ==> Hull(r, s[..j + 1], start, end))
            && (Merges(r, x) ==> Hull(r, s[..j + 1], if x.start < start then x.start else start, if x.end > end then x.end else end))
            && Used(r, s[..j + 1]) == Used(r, s[..j]) + (if Splits(r, x) then 1 else 0)
            && Used(r, s[..j + 1]) <= 1 && Proper(x)
  {
    hide Hull, WellFormed, Touches, Carve, Used, Pieces, Splits;
    var x := s[j];
    TurnParts(r, s, j);
    PrefixWellFormed(s, j + 1);
    TwoSparesSuffice(r, s[..j + 1]);
    HullNext(r, s[..j], x, start, end);
    if x.owner == r.owner && x.kind == r.kind {
      SameTouch(r, s, j, start, end);
    }
  }

  // The locks of everybody else.
  function Others(s: seq<Lock>, owner: int): (t: seq<Lock>) {
    if s == [] then [] else Others(s[..|s| - 1], owner) + if s[|s| - 1].owner == owner then [] else [s[|s| - 1]]
  }

  lemma {:induction false} OthersFrom(s: seq<Lock>, owner: int, i: int) returns (k: int)
    requires 0 <= i < |Others(s, owner)|
    ensures 0 <= k < |s| && k >= i && Others(s, owner)[i] == s[k] && s[k].owner != owner
    ensures forall j :: 0 <= j < i ==> exists m :: 0 <= m < k && Others(s, owner)[j] == s[m]
  {
    var init := s[..|s| - 1];
    var t := Others(init, owner);
    if i < |t| {
      k := OthersFrom(init, owner, i);
      assert forall j :: 0 <= j < i ==> Others(s, owner)[j] == t[j];
      assert forall m :: 0 <= m < |init| ==> init[m] == s[m];
    } else {
      k := |s| - 1;
      OthersLength(init, owner);
      forall j | 0 <= j < i ensures exists m :: 0 <= m < k && Others(s, owner)[j] == s[m] {
        var m := OthersFrom(init, owner, j);
        assert Others(s, owner)[j] == t[j] == init[m] == s[m];
      }
    }
  }

  lemma {:induction false} OthersLength(s: seq<Lock>, owner: int)
    ensures |Others(s, owner)| <= |s|
  {
    if s != [] {
      OthersLength(s[..|s| - 1], owner);
    }
  }

  lemma {:induction false} OthersHas(s: seq<Lock>, owner: int, k: int) returns (i: int)
    requires 0 <= k < |s| && s[k].owner != owner
    ensures 0 <= i < |Others(s, owner)| && Others(s, owner)[i] == s[k]
  {
    if k == |s| - 1 {
      i := |Others(s, owner)| - 1;
    } else {
      i := OthersHas(s[..|s| - 1], owner, k);
    }
  }

  // Releasing an owner frees every byte of that owner and nobody else's.
  lemma {:induction false} OthersMeaning(s: seq<Lock>, owner: int)
    requires WellFormed(s)
    ensures WellFormed(Others(s, owner))
    ensures forall o, b, k, p :: Held(Others(s, owner), o, b, k, p) <==> o != owner && Held(s, o, b, k, p)
  {
    var t := Others(s, owner);
    forall i | 0 <= i < |t| ensures Proper(t[i]) {
      var k := OthersFrom(s, owner, i);
    }
    forall i, j | 0 <= i < j < |t| ensures Fit(t[i], t[j]) {
      var k := OthersFrom(s, owner, j);
      var m :| 0 <= m < k && t[i] == s[m];
    }
    forall o, b, k, p ensures Held(t, o, b, k, p) <==> o != owner && Held(s, o, b, k, p) {
      if Held(t, o, b, k, p) {
        var i := HeldBy(t, o, b, k, p);
        var m := OthersFrom(s, owner, i);
        HeldIs(s, m, b);
      }
      if o != owner && Held(s, o, b, k, p) {
        var m := HeldBy(s, o, b, k, p);
        var i := OthersHas(s, owner, m);
        HeldIs(t, i, b);
      }
    }
  }

  class LockList {
    var locks: seq<Lock>

    ghost predicate Valid()
      reads this
    {
      WellFormed(locks)
    }

    constructor ()
      ensures Valid() && locks == []
    {
      locks := [];
    }

    // The first lock that stands in the way, as an index; |locks| when there is none.
    method FindConflict(r: Request) returns (k: int)
      ensures 0 <= k <= |locks| && forall i :: 0 <= i < k ==> !Conflicts(r, locks[i])
      ensures k < |locks| ==> Conflicts(r, locks[k])
    {
      k := 0;
      while k < |locks|
        invariant 0 <= k <= |locks| && forall i :: 0 <= i < k ==> !Conflicts(r, locks[i])
      {
        var lock := locks[k];
        if lock.owner != r.owner && Overlaps(r.start, r.end, lock) && (lock.kind == WRITE || r.kind == WRITE) {
          return;
        }
        k := k + 1;
      }
    }

    // posix_lock_test: a free range answers UNLOCK, a taken one the first lock in the way.
    method Test(r: Request) returns (answer: Request, ghost k: int)
      requires Valid()
      ensures 0 <= k <= |locks| && forall i :: 0 <= i < k ==> !Conflicts(r, locks[i])
      ensures answer.kind == UNLOCK <==> k == |locks|
      ensures k == |locks| ==> answer == r.(kind := UNLOCK)
      ensures k < |locks| ==> var lock := locks[k];
                Conflicts(r, lock) && answer == r.(kind := lock.kind, start := lock.start, end := lock.end, pid := lock.pid)
    {
      var at := FindConflict(r);
      k := at;
      if at < |locks| {
        var lock := locks[at];
        answer := r.(kind := lock.kind, start := lock.start, end := lock.end, pid := lock.pid);
      } else {
        answer := r.(kind := UNLOCK);
      }
    }

    // A request nobody stands in the way of.
    method Apply(r: Request)
      requires Valid() && Ranged(r) && NoConflict(r, locks)
      modifies this
      ensures Valid() && Granted(r, old(locks), locks)
      ensures r.kind != UNLOCK ==>
                && locks != [] && locks[0].owner == r.owner && locks[0].pid == r.pid && locks[0].kind == r.kind
                && locks[0].start <= r.start && r.end <= locks[0].end
    {
      hide WellFormed, Hull, NoConflict, Granted, Carve, Used, Merges;
      ghost var s, j := locks, 0;
      var start, end, spare := r.start, r.end, 2;
      var list, i := locks, 0;
      HullStart(r);
      while i < |list|
        invariant 0 <= j <= |s| && 0 <= i <= |list| && list[i..] == s[j..]
        invariant list[..i] == Carve(r, s[..j])
        invariant Hull(r, s[..j], start, end) && spare == 2 - Used(r, s[..j]) && spare >= 1
        decreases |s| - j
      {
        var lock := list[i];
        assert lock == list[i..][0] == s[j..][0] && list[i + 1..] == list[i..][1..] == s[j + 1..];
        Turn(r, s, j, start, end, spare);
        j := j + 1;
        if lock.owner != r.owner {
          i := i + 1;
          continue;
        }
        if r.kind != UNLOCK && lock.kind == r.kind && Touches(start, end, lock) {
          if lock.start < start {
            start := lock.start;
          }
          if lock.end > end {
            end := lock.end;
          }
          list := list[..i] + list[i + 1..];
          continue;
        }
        if !Overlaps(r.start, r.end, lock) {
          i := i + 1;
          continue;
        }
        if lock.start < r.start && lock.end > r.end {
          assert spare > 0;
          spare := spare - 1;
          var tail := lock.(start := r.end + 1);
          list := list[..i] + [lock.(end := r.start - 1), tail] + list[i + 1..];
          i := i + 2;
        } else if lock.start < r.start {
          list := list[i := lock.(end := r.start - 1)];
          i := i + 1;
        } else if lock.end > r.end {
          list := list[i := lock.(start := r.end + 1)];
          i := i + 1;
        } else {
          list := list[..i] + list[i + 1..];
        }
      }
      assert s[..j] == s && list == list[..i];
      OutcomeWellFormed(r, s, start, end);
      OutcomeGrants(r, s, start, end);
      HullReach(r, s, start, end);
      if r.kind != UNLOCK {
        assert spare > 0;
        spare := spare - 1;
        list := [Lock(r.owner, r.pid, r.kind, start, end)] + list;
      }
      locks := list;
    }

    // Whoever would be stopped by a lock just set is told its kind, its process and a
    // range around it.
    method SetThenTest(r: Request, test: Request) returns (answer: Request)
      requires Valid() && Ranged(r) && NoConflict(r, locks) && r.kind != UNLOCK
      requires test.owner != r.owner && (r.kind == WRITE || test.kind == WRITE) && r.start <= test.end && test.start <= r.end
      modifies this
      ensures Valid() && Granted(r, old(locks), locks)
      ensures answer.kind == r.kind && answer.pid == r.pid && answer.start <= r.start && r.end <= answer.end && answer.owner == test.owner
    {
      hide Granted, WellFormed, NoConflict;
      Apply(r);
      ghost var k;
      answer, k := Test(test);
      assert Conflicts(test, locks[0]);
    }

    // posix_lock_release_owner
    method ReleaseOwner(owner: int) returns (wake: bool)
      requires Valid()
      modifies this
      ensures Valid() && forall o, b, k, p :: Held(locks, o, b, k, p) <==> o != owner && Held(old(locks), o, b, k, p)
      ensures wake <==> locks != old(locks)
    {
      hide WellFormed, Held, Others;
      wake := false;
      ghost var s, j := locks, 0;
      var list, i := locks, 0;
      OthersStart(owner);
      while i < |list|
        invariant 0 <= j <= |s| && 0 <= i <= j && i <= |list| && list[i..] == s[j..]
        invariant list[..i] == Others(s[..j], owner)
        invariant wake <==> i < j
        invariant !wake ==> list == s
        decreases |s| - j
      {
        var lock := list[i];
        assert lock == list[i..][0] == s[j..][0] && list[i + 1..] == list[i..][1..] == s[j + 1..];
        OthersNext(s, owner, j);
        j := j + 1;
        if lock.owner != owner {
          i := i + 1;
          continue;
        }
        list := list[..i] + list[i + 1..];
        wake := true;
      }
      assert s[..j] == s && list == list[..i];
      OthersMeaning(s, owner);
      locks := list;
    }
  }

  lemma HullReach(r: Request, s: seq<Lock>, start: int, end: int)
    requires Hull(r, s, start, end)
    ensures start <= r.start && r.end <= end
  {
  }

  lemma HullStart(r: Request)
    ensures Hull(r, [], r.start, r.end) && Carve(r, []) == [] && Used(r, []) == 0
  {
  }

  lemma OthersStart(owner: int)
    ensures Others([], owner) == []
  {
  }

  lemma OthersNext(s: seq<Lock>, owner: int, j: int)
    requires 0 <= j < |s|
    ensures Others(s[..j + 1], owner) == Others(s[..j], owner) + if s[j].owner == owner then [] else [s[j]]
  {
    assert s[..j + 1][..j] == s[..j];
  }
}
