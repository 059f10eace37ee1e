/**
 The VM-area index of an address space (kernel/core/process.c, `area_*`,
 `process_map_area`, `process_unmap_area`, `process_protect_area`,
 `process_find_free_range`): a treap keyed by start address and a doubly linked
 list kept in step.  The object's methods refine a plain map from addresses to
 what is mapped there.
 */
module VmAreas {
  import opened Lists
  import opened Options
  import opened Treaps

  const U64: int := 0x1_0000_0000_0000_0000

  const USER_ADDRESS_LIMIT: int := 0x0000_8000_0000_0000

  datatype Area = Area(start: int, end: int, flags: int, kind: int, file: int, offset: int)

  // What one address is mapped to: the file offset is the one of that very byte.
  datatype Page = Page(flags: int, kind: int, file: int, offset: int)

  // ---------------------------------------------------------------------------
  // The abstract address space
  // ---------------------------------------------------------------------------

  predicate Within(a: Area, x: int) {
    a.start <= x < a.end
  }

  function Cover(a: Area, x: int): Page {
    Page(a.flags, a.kind, a.file, (a.offset + (x - a.start)) % U64)
  }

  ghost predicate WellFormed(s: seq<Area>) {
    && (forall i :: 0 <= i < |s| ==> 0 <= s[i].start < s[i].end < U64)
    && (forall i, j :: 0 <= i < j < |s| ==> s[i].end <= s[j].start)
  }

  ghost function View(s: seq<Area>, x: int): Option<Page> {
    if exists i :: 0 <= i < |s| && Within(s[i], x)
    then var i :| 0 <= i < |s| && Within(s[i], x); Some(Cover(s[i], x))
    else None
  }

  lemma ViewAt(s: seq<Area>, i: int, x: int)
    requires WellFormed(s) && 0 <= i < |s| && Within(s[i], x)
    ensures View(s, x) == Some(Cover(s[i], x))
  {
    var j :| 0 <= j < |s| && Within(s[j], x) && View(s, x) == Some(Cover(s[j], x));
    assert i < j ==> s[i].end <= s[j].start;
    assert j < i ==> s[j].end <= s[i].start;
  }

  // Every byte of an area is at the area's offset plus its distance from the area's
  // start, modulo 2^64, and a byte of no area is not mapped.
  lemma ViewMeans(s: seq<Area>, x: int)
    requires WellFormed(s)
    ensures forall i :: 0 <= i < |s| && s[i].start <= x < s[i].end ==>
              View(s, x) == Some(Page(s[i].flags, s[i].kind, s[i].file, (s[i].offset + (x - s[i].start)) % 0x1_0000_0000_0000_0000))
    ensures (forall i :: 0 <= i < |s| ==> x < s[i].start || s[i].end <= x) ==> View(s, x) == None
  {
    forall i | 0 <= i < |s| && s[i].start <= x < s[i].end
      ensures View(s, x) == Some(Page(s[i].flags, s[i].kind, s[i].file, (s[i].offset + (x - s[i].start)) % U64))
    {
      ViewAt(s, i, x);
    }
  }

  // Two layouts agree at x as soon as some index map matches their areas there.
  lemma ViewSame(s: seq<Area>, s': seq<Area>, x: int)
    requires WellFormed(s) && WellFormed(s')
    requires forall i :: 0 <= i < |s| && Within(s[i], x) ==>
               exists j :: 0 <= j < |s'| && Within(s'[j], x) && Cover(s'[j], x) == Cover(s[i], x)
    requires forall j :: 0 <= j < |s'| && Within(s'[j], x) ==> exists i :: 0 <= i < |s| && Within(s[i], x)
    ensures View(s', x) == View(s, x)
  {
    if i :| 0 <= i < |s| && Within(s[i], x) {
      var j :| 0 <= j < |s'| && Within(s'[j], x) && Cover(s'[j], x) == Cover(s[i], x);
      ViewAt(s, i, x);
      ViewAt(s', j, x);
    }
  }

  lemma DropWellFormed(s: seq<Area>, k: int, s': seq<Area>)
    requires WellFormed(s) && 0 <= k < |s| && s' == s[..k] + s[k + 1..]
    ensures WellFormed(s')
  {
    forall i | 0 <= i < |s'| ensures 0 <= s'[i].start < s'[i].end < U64 {
      assert s'[i] == s[if i < k then i else i + 1];
    }
    forall i, j | 0 <= i < j < |s'| ensures s'[i].end <= s'[j].start {
      var i', j' := if i < k then i else i + 1, if j < k then j else j + 1;
      assert s'[i] == s[i'] && s'[j] == s[j'];
    }
  }

  lemma ViewDrop(s: seq<Area>, k: int, s': seq<Area>)
    requires WellFormed(s) && 0 <= k < |s| && s' == s[..k] + s[k + 1..]
    ensures WellFormed(s')
    ensures forall x :: View(s', x) == if Within(s[k], x) then None else View(s, x)
  {
    DropWellFormed(s, k, s');
    forall x ensures View(s', x) == if Within(s[k], x) then None else View(s, x) {
      if j :| 0 <= j < |s'| && Within(s'[j], x) {
        var i := if j < k then j else j + 1;
        assert s'[j] == s[i] && (i < k ==> s[i].end <= s[k].start) && (k < i ==> s[k].end <= s[i].start);
        ViewAt(s, i, x);
        ViewAt(s', j, x);
      } else {
        forall i | 0 <= i < |s| && i != k ensures !Within(s[i], x) {
          assert s'[if i < k then i else i - 1] == s[i];
        }
      }
    }
  }

  // Shrinking one area.
  lemma ViewTrim(s: seq<Area>, k: int, a: Area, s': seq<Area>)
    requires WellFormed(s) && 0 <= k < |s| && s' == s[k := a]
    requires s[k].start <= a.start < a.end <= s[k].end
    requires forall x :: Within(a, x) ==> Cover(a, x) == Cover(s[k], x)
    ensures WellFormed(s')
    ensures forall x :: View(s', x) == if Within(s[k], x) && !Within(a, x) then None else View(s, x)
  {
    forall x ensures View(s', x) == if Within(s[k], x) && !Within(a, x) then None else View(s, x) {
      if Within(s[k], x) && !Within(a, x) {
        forall i | 0 <= i < |s'| ensures !Within(s'[i], x) {
          assert i < k ==> s[i].end <= s[k].start;
          assert k < i ==> s[k].end <= s[i].start;
        }
      } else {
        forall i | 0 <= i < |s| && Within(s[i], x)
          ensures exists j :: 0 <= j < |s'| && Within(s'[j], x) && Cover(s'[j], x) == Cover(s[i], x)
        {
          assert Within(s'[i], x) && Cover(s'[i], x) == Cover(s[i], x);
        }
        ViewSame(s, s', x);
      }
    }
  }

  lemma EndingAfter(s: seq<Area>, address: int, k: int)
    requires WellFormed(s) && 0 <= k <= |s|
    requires forall i :: 0 <= i < k ==> s[i].start <= address
    requires forall i :: k <= i < |s| ==> address < s[i].start
    ensures forall i :: k <= i < |s| ==> address < s[i].end
    ensures k > 0 && s[k - 1].end <= address ==> forall i :: 0 <= i < k ==> s[i].end <= address
    ensures k > 0 && address < s[k - 1].end ==> forall i :: 0 <= i < k - 1 ==> s[i].end <= address
  {
  }

  lemma WrapBelow(start: int)
    requires 0 <= start < U64
    ensures start > 0 ==> (start - 1) % U64 == start - 1
  {
  }

  function Tail(a: Area, cut: int): Area {
    a.(start := cut, offset := (a.offset + (cut - a.start)) % U64)
  }

  lemma TailCover(a: Area, cut: int, x: int)
    ensures Cover(Tail(a, cut), x) == Cover(a, x)
  {
    var o, d, e := a.offset, cut - a.start, x - cut;
    assert ((o + d) % U64 + e) % U64 == (o + d + e) % U64;
  }

  // Where a disjoint area goes: every area on its left ends before it starts.
  ghost predicate Fits(s: seq<Area>, a: Area) {
    && 0 <= a.start < a.end < U64
    && forall i :: 0 <= i < |s| ==> s[i].end <= a.start || a.end <= s[i].start
  }

  // The tail of a cut area fits behind its shortened head, and nowhere else.
  lemma SplitFits(s: seq<Area>, k: int, cut: int)
    requires WellFormed(s) && 0 <= k < |s| && s[k].start < cut < s[k].end
    ensures Fits(s[k := s[k].(end := cut)], Tail(s[k], cut))
  {
    var t := s[k := s[k].(end := cut)];
    forall i | 0 <= i < |t| ensures t[i].end <= cut || s[k].end <= t[i].start {
      assert i < k ==> s[i].end <= s[k].start;
      assert k < i ==> s[k].end <= s[i].start;
    }
  }

  lemma SplitPlace(s: seq<Area>, k: int, cut: int, t: seq<Area>, j: int)
    requires WellFormed(s) && 0 <= k < |s| && s[k].start < cut < s[k].end && 0 <= j <= |s|
    requires t == s[k := s[k].(end := cut)]
    requires forall i :: 0 <= i < j ==> t[i].end <= cut
    requires forall i :: j <= i < |s| ==> s[k].end <= t[i].start
    ensures j == k + 1
  {
    assert t[k].end == cut && t[k].start < cut;
    if k + 1 < |s| {
      assert t[k + 1] == s[k + 1] && s[k].end <= s[k + 1].start;
    }
  }

  ghost function Reflag(p: Option<Page>, flags: int): Option<Page> {
    if p.None? then None else Some(p.value.(flags := flags))
  }

  lemma ViewReflag(s: seq<Area>, k: int, flags: int, s': seq<Area>)
    requires WellFormed(s) && 0 <= k < |s| && s' == s[k := s[k].(flags := flags)]
    ensures WellFormed(s')
    ensures forall x :: View(s', x) == if Within(s[k], x) then Reflag(View(s, x), flags) else View(s, x)
  {
    forall x ensures View(s', x) == if Within(s[k], x) then Reflag(View(s, x), flags) else View(s, x) {
      if Within(s[k], x) {
        ViewAt(s, k, x);
        ViewAt(s', k, x);
      } else {
        forall i | 0 <= i < |s| && Within(s[i], x)
          ensures exists j :: 0 <= j < |s'| && Within(s'[j], x) && Cover(s'[j], x) == Cover(s[i], x)
        {
          assert s'[i] == s[i];
        }
        ViewSame(s, s', x);
      }
    }
  }

  lemma AddWellFormed(s: seq<Area>, k: int, a: Area, s': seq<Area>)
    requires WellFormed(s) && 0 <= k <= |s| && s' == s[..k] + [a] + s[k..]
    requires 0 <= a.start < a.end < U64
    requires forall i :: 0 <= i < k ==> s[i].end <= a.start
    requires forall i :: k <= i < |s| ==> a.end <= s[i].start
    ensures WellFormed(s')
  {
    forall i | 0 <= i < |s'| ensures 0 <= s'[i].start < s'[i].end < U64 {
      assert s'[i] == if i < k then s[i] else if i == k then a else s[i - 1];
    }
    forall i, j | 0 <= i < j < |s'| ensures s'[i].end <= s'[j].start {
      assert s'[i] == if i < k then s[i] else if i == k then a else s[i - 1];
      assert s'[j] == if j < k then s[j] else if j == k then a else s[j - 1];
    }
  }

  lemma ViewAdd(s: seq<Area>, k: int, a: Area, s': seq<Area>)
    requires WellFormed(s) && 0 <= k <= |s| && s' == s[..k] + [a] + s[k..]
    requires 0 <= a.start < a.end < U64
    requires forall i :: 0 <= i < k ==> s[i].end <= a.start
    requires forall i :: k <= i < |s| ==> a.end <= s[i].start
    ensures WellFormed(s')
    ensures forall x :: View(s', x) == if Within(a, x) then Some(Cover(a, x)) else View(s, x)
  {
    AddWellFormed(s, k, a, s');
    assert s'[k] == a && s'[..k] + s'[k + 1..] == s;
    ViewDrop(s', k, s);
    forall x ensures View(s', x) == if Within(a, x) then Some(Cover(a, x)) else View(s, x) {
      if Within(a, x) {
        ViewAt(s', k, x);
      }
    }
  }

  // Cutting one area in two changes nothing.
  lemma ViewSplit(s: seq<Area>, k: int, cut: int, s': seq<Area>)
    requires WellFormed(s) && 0 <= k < |s| && s[k].start < cut < s[k].end
    requires s' == s[k := s[k].(end := cut)][..k + 1] + [Tail(s[k], cut)] + s[k + 1..]
    ensures WellFormed(s')
    ensures forall x :: View(s', x) == View(s, x)
  {
    var t := s[k := s[k].(end := cut)];
    ViewTrim(s, k, s[k].(end := cut), t);
    assert s' == t[..k + 1] + [Tail(s[k], cut)] + t[k + 1..];
    ViewAdd(t, k + 1, Tail(s[k], cut), s');
    forall x ensures View(s', x) == View(s, x) {
      TailCover(s[k], cut, x);
      if Within(s[k], x) {
        ViewAt(s, k, x);
      }
    }
  }

  lemma Gap(s: seq<Area>, k: int, x: int)
    requires WellFormed(s) && 0 <= k <= |s|
    requires k > 0 ==> s[k - 1].end <= x
    requires k < |s| ==> x < s[k].start
    ensures View(s, x) == None
  {
    forall i | 0 <= i < |s| ensures !Within(s[i], x) {
      assert i < k - 1 ==> s[i].end <= s[k - 1].start;
      assert k < i ==> s[k].end <= s[i].start;
    }
  }

  // What unmapping, protecting and mapping a range mean for the abstract address space.
  ghost predicate Unmapped(s0: seq<Area>, s: seq<Area>, start: int, end: int) {
    forall x :: View(s, x) == if start <= x < end then None else View(s0, x)
  }

  ghost predicate Reprotected(s0: seq<Area>, s: seq<Area>, start: int, end: int, flags: int) {
    forall x :: View(s, x) == if start <= x < end then Reflag(View(s0, x), flags) else View(s0, x)
  }

  // The new area is mapped, and from its end to `reach` nothing is.
  ghost predicate Remapped(s0: seq<Area>, s: seq<Area>, a: Area, reach: int) {
    forall x :: View(s, x) == if Within(a, x) then Some(Cover(a, x)) else if a.end <= x < reach then None else View(s0, x)
  }

  // Every byte of a range is mapped, at the offset its distance from the start gives.
  ghost predicate Mapped(s: seq<Area>, start: int, end: int, flags: int, kind: int, file: int, offset: int) {
    forall x :: start <= x < end ==> View(s, x) == Some(Page(flags, kind, file, (offset + (x - start)) % 0x1_0000_0000_0000_0000))
  }

  // How far an unmapping reaches: to the end of its range, or, when the range lies
  // inside an area whose tail cannot be allocated, to the end of that area.
  ghost function Reach(s: seq<Area>, start: int, end: int, memory: bool): int {
    var k := FirstAfter(s, 0, start);
    if !memory && k < |s| && s[k].start < start && end < s[k].end then s[k].end else end
  }

  // It takes exactly its range exactly when it reaches no farther.
  lemma UnmapExact(s0: seq<Area>, s: seq<Area>, start: int, end: int, memory: bool)
    requires WellFormed(s0) && start < end && Unmapped(s0, s, start, Reach(s0, start, end, memory))
    ensures Unmapped(s0, s, start, end) <==>
            memory || forall i :: 0 <= i < |s0| ==> !(s0[i].start < start && end < s0[i].end)
  {
    var k := FirstAfter(s0, 0, start);
    FirstAfterSpec(s0, 0, start);
    forall i | 0 <= i < |s0| && s0[i].start < start && end < s0[i].end ensures i == k {
    }
    if Reach(s0, start, end, memory) != end {
      ViewAt(s0, k, end);
    }
  }

  // An address below the cursor area, and at or above the first requested one.
  ghost predicate Passed(s: seq<Area>, start: int, end: int, k: int, x: int)
    requires 0 <= k <= |s|
  {
    start <= x < end && (k == |s| || x < s[k].start)
  }

  // An unmapping loop that has reached area k: the addresses it has passed are gone.
  ghost predicate Cleared(s0: seq<Area>, s: seq<Area>, start: int, end: int, k: int) {
    && WellFormed(s) && 0 <= k <= |s| && (k < |s| ==> start < s[k].end)
    && forall x :: View(s, x) == if Passed(s, start, end, k, x) then None else View(s0, x)
  }

  // A protecting loop that has reached area k: the addresses it has passed have the new flags.
  ghost predicate Protected(s0: seq<Area>, s: seq<Area>, start: int, end: int, flags: int, k: int) {
    && WellFormed(s) && 0 <= k <= |s| && (k < |s| ==> start < s[k].end)
    && forall x :: View(s, x) == if Passed(s, start, end, k, x) then Reflag(View(s0, x), flags) else View(s0, x)
  }

  lemma LoopStart(s: seq<Area>, start: int, end: int, flags: int, k: int)
    requires WellFormed(s) && 0 <= k <= |s|
    requires forall i :: 0 <= i < k ==> s[i].end <= start
    requires forall i :: k <= i < |s| ==> start < s[i].end
    ensures Cleared(s, s, start, end, k) && Protected(s, s, start, end, flags, k)
  {
    forall x | Passed(s, start, end, k, x) ensures View(s, x) == None {
      Gap(s, k, x);
    }
  }

  lemma ClearDrop(s0: seq<Area>, s: seq<Area>, start: int, end: int, k: int)
    requires Cleared(s0, s, start, end, k) && k < |s| && start <= s[k].start && s[k].end <= end
    ensures Cleared(s0, s[..k] + s[k + 1..], start, end, k)
    ensures k + 1 < |s| ==> s[k].start < (s[..k] + s[k + 1..])[k].start && start <= (s[..k] + s[k + 1..])[k].start
  {
    var t := s[..k] + s[k + 1..];
    ViewDrop(s, k, t);
    if k + 1 < |s| {
      assert t[k] == s[k + 1] && s[k].end <= s[k + 1].start;
    }
    forall x ensures View(t, x) == if Passed(t, start, end, k, x) then None else View(s0, x) {
      if s[k].end <= x && (k + 1 < |s| ==> x < s[k + 1].start) {
        Gap(s, k + 1, x);
      }
    }
  }

  lemma ClearTrim(s0: seq<Area>, s: seq<Area>, start: int, end: int, k: int, a: Area)
    requires Cleared(s0, s, start, end, k) && k < |s| && start < end && s[k].start < end
    requires || (s[k].start < start && s[k].end <= end && a == s[k].(end := start))
             || (start <= s[k].start && end < s[k].end && a == Tail(s[k], end))
    ensures WellFormed(s[k := a]) && Cleared(s0, s[k := a], start, end, k + 1)
    ensures k + 1 < |s| ==> s[k].start < s[k + 1].start && start <= s[k + 1].start
  {
    var t := s[k := a];
    forall x | Within(a, x) ensures Cover(a, x) == Cover(s[k], x) {
      TailCover(s[k], end, x);
    }
    ViewTrim(s, k, a, t);
    if k + 1 < |s| {
      assert s[k].end <= s[k + 1].start < s[k + 1].end;
    }
    forall x ensures View(t, x) == if Passed(t, start, end, k + 1, x) then None else View(s0, x) {
      if s[k].end <= x && (k + 1 < |s| ==> x < s[k + 1].start) {
        Gap(s, k + 1, x);
      }
    }
  }

  lemma ClearEnd(s0: seq<Area>, s: seq<Area>, start: int, end: int, k: int)
    requires Cleared(s0, s, start, end, k) && (k < |s| ==> end <= s[k].start)
    ensures Unmapped(s0, s, start, end)
  {
  }

  lemma ReachHere(s: seq<Area>, start: int, end: int, memory: bool, k: int)
    requires k == FirstAfter(s, 0, start) && 0 <= k <= |s|
    ensures Reach(s, start, end, memory) == if !memory && k < |s| && s[k].start < start && end < s[k].end then s[k].end else end
  {
  }

  // The request lies inside one area: cut its tail off, then shorten its head.
  lemma ClearInside(s0: seq<Area>, s: seq<Area>, start: int, end: int, k: int, t: seq<Area>, a: Area, u: seq<Area>)
    requires Cleared(s0, s, start, end, k) && k < |s| && s[k].start < start < end < s[k].end
    requires WellFormed(t) && |t| == |s| + 1 && t[k] == s[k].(end := end) && t[k + 1] == Tail(s[k], end)
    requires forall x :: View(t, x) == View(s, x)
    requires a == t[k].(end := start) && u == t[k := a]
    ensures WellFormed(u)
    ensures Unmapped(s0, u, start, end)
  {
    ViewTrim(t, k, a, u);
  }

  // ... or lose the tail.
  lemma ClearTail(s: seq<Area>, start: int, k: int, a: Area)
    requires WellFormed(s) && 0 <= k < |s| && s[k].start < start < s[k].end && a == s[k].(end := start)
    ensures WellFormed(s[k := a]) && Unmapped(s, s[k := a], start, s[k].end)
  {
    ViewTrim(s, k, a, s[k := a]);
  }

  // Where the new flags begin and end: at the ends of the range, but for an area that
  // sticks out there and cannot be cut.
  ghost function Low(s: seq<Area>, start: int, left: bool): int {
    var k := FirstAfter(s, 0, start);
    if !left && k < |s| && s[k].start < start then s[k].end else start
  }

  ghost function High(s: seq<Area>, start: int, end: int, right: bool): int {
    var k := FirstAfter(s, 0, end);
    if !right && k < |s| && s[k].start < end then (if s[k].start < start then start else s[k].start) else end
  }

  // From the cursor on the layout is still the old one, but for the cut at `start`.
  ghost predicate Rest(s0: seq<Area>, s: seq<Area>, k: int, m: int, start: int) {
    && 0 <= k <= |s| && 0 <= m <= |s0| && |s| - k == |s0| - m
    && (forall j :: k < j < |s| ==> s[j] == s0[m + j - k])
    && (k < |s| ==> s[k].end == s0[m].end && (s[k].start == s0[m].start || (s[k].start == start && s0[m].start < start)))
  }

  // The areas before m end in the range, or the new flags begin behind it.
  ghost predicate Ended(s0: seq<Area>, m: int, end: int, lo: int) {
    0 <= m <= |s0| && forall j :: 0 <= j < m ==> s0[j].end <= end || end <= lo
  }

  // The protecting loop at area k, which was area m: the addresses passed from `lo` on
  // have the new flags.
  ghost predicate Turn(s0: seq<Area>, s: seq<Area>, start: int, end: int, flags: int, left: bool, right: bool, k: int, m: int, lo: int) {
    && Protected(s0, s, lo, end, flags, k) && start <= lo
    && (!right ==> Rest(s0, s, k, m, start) && Ended(s0, m, end, lo))
    && (k < |s| && s[k].start < start ==> s == s0 && k == FirstAfter(s0, 0, start) && lo == start)
    && (k < |s| && start <= s[k].start ==> lo <= s[k].start)
    && (k == |s| || start <= s[k].start ==> lo == Low(s0, start, left))
  }

  lemma TurnBounds(s0: seq<Area>, s: seq<Area>, start: int, end: int, flags: int, left: bool, right: bool, k: int, m: int, lo: int)
    requires Turn(s0, s, start, end, flags, left, right, k, m, lo) && k < |s|
    ensures 0 <= k && start < s[k].end
  {
  }

  lemma NextStarts(s: seq<Area>, k: int)
    requires WellFormed(s) && 0 <= k < |s|
    ensures s[k].start < s[k].end && (k + 1 < |s| ==> s[k].end <= s[k + 1].start && s[k].start < s[k + 1].start < s[k + 1].end)
  {
  }

  lemma FirstTurn(s: seq<Area>, start: int, end: int, flags: int, left: bool, right: bool, k: int)
    requires WellFormed(s) && start < end && 0 <= k <= |s|
    requires forall i :: 0 <= i < k ==> s[i].end <= start
    requires forall i :: k <= i < |s| ==> start < s[i].end
    ensures Turn(s, s, start, end, flags, left, right, k, k, start)
  {
    LoopStart(s, start, end, flags, k);
    FirstAfterIs(s, 0, k, start);
  }

  // The area the range begins in cannot be cut: it is passed over.
  lemma SkipLeft(s0: seq<Area>, s: seq<Area>, start: int, end: int, flags: int, left: bool, right: bool, k: int, m: int, lo: int)
    requires Turn(s0, s, start, end, flags, left, right, k, m, lo) && WellFormed(s0) && start < end
    requires k < |s| && s[k].start < start && !left
    ensures Turn(s0, s, start, end, flags, left, right, k + 1, m + 1, s[k].end)
  {
    hide View, Protected, Cleared, FirstAfter, Rest, Ended;
    CursorIn(s0, s, lo, end, flags, k);
    NextStarts(s, k);
    Sorted(s, k);
    LoopStart(s, s[k].end, end, flags, k + 1);
    if !right {
      RestSkip(s, k, m, start, end);
    }
  }

  lemma Sorted(s: seq<Area>, k: int)
    requires WellFormed(s) && 0 <= k < |s|
    ensures forall i :: 0 <= i < k + 1 ==> s[i].end <= s[k].end
    ensures forall i :: k + 1 <= i < |s| ==> s[k].end < s[i].end
  {
  }

  lemma RestSkip(s: seq<Area>, k: int, m: int, start: int, end: int)
    requires WellFormed(s) && Rest(s, s, k, m, start) && Ended(s, m, end, start) && k < |s| && start < end
    ensures m < |s| && Rest(s, s, k + 1, m + 1, start) && Ended(s, m + 1, end, s[k].end)
  {
  }

  lemma RestCut(s0: seq<Area>, s: seq<Area>, t: seq<Area>, k: int, m: int, start: int)
    requires Rest(s0, s, k, m, start) && k < |s| && s[k].start < start
    requires t == s[k := s[k].(end := start)][..k + 1] + [Tail(s[k], start)] + s[k + 1..]
    ensures Rest(s0, t, k + 1, m, start)
  {
    assert forall j :: k + 1 < j < |t| ==> t[j] == s[j - 1];
  }

  lemma CursorIn(s0: seq<Area>, s: seq<Area>, lo: int, end: int, flags: int, k: int)
    requires Protected(s0, s, lo, end, flags, k)
    ensures WellFormed(s) && 0 <= k <= |s| && (k < |s| ==> lo < s[k].end)
  {
  }

  // It is cut; its tail is next.
  lemma CutLeft(s0: seq<Area>, s: seq<Area>, t: seq<Area>, start: int, end: int, flags: int, left: bool, right: bool, k: int, m: int, lo: int)
    requires Turn(s0, s, start, end, flags, left, right, k, m, lo) && k < |s| && s[k].start < start < s[k].end && left
    requires WellFormed(t) && t == s[k := s[k].(end := start)][..k + 1] + [Tail(s[k], start)] + s[k + 1..]
    requires forall x :: View(t, x) == View(s, x)
    ensures Turn(s0, t, start, end, flags, left, right, k + 1, m, lo)
  {
    hide View, Rest, Ended, FirstAfter;
    if !right {
      RestCut(s0, s, t, k, m, start);
    }
  }

  // An area in the range gets the new flags.
  lemma SetFlags(s0: seq<Area>, s: seq<Area>, start: int, end: int, flags: int, left: bool, right: bool, k: int, m: int, lo: int)
    requires Turn(s0, s, start, end, flags, left, right, k, m, lo) && k < |s| && start <= s[k].start && s[k].end <= end
    ensures WellFormed(s[k := s[k].(flags := flags)])
    ensures Turn(s0, s[k := s[k].(flags := flags)], start, end, flags, left, right, k + 1, m + 1, lo)
  {
    var t := s[k := s[k].(flags := flags)];
    ViewReflag(s, k, flags, t);
    NextStarts(s, k);
    forall x ensures View(t, x) == if Passed(t, lo, end, k + 1, x) then Reflag(View(s0, x), flags) else View(s0, x) {
      if s[k].end <= x && (k + 1 < |s| ==> x < s[k + 1].start) {
        Gap(s, k + 1, x);
      }
    }
  }

  // An area that reaches past the end of the range is cut there ...
  lemma CutRight(s0: seq<Area>, s: seq<Area>, t: seq<Area>, start: int, end: int, flags: int, left: bool, right: bool, k: int, m: int, lo: int)
    requires Turn(s0, s, start, end, flags, left, right, k, m, lo) && k < |s| && start <= s[k].start < end < s[k].end && right
    requires WellFormed(t) && t == s[k := s[k].(end := end)][..k + 1] + [Tail(s[k], end)] + s[k + 1..]
    requires forall x :: View(t, x) == View(s, x)
    ensures Turn(s0, t, start, end, flags, left, right, k, m, lo)
  {
  }

  // ... or the new flags end before it.
  lemma SkipRight(s0: seq<Area>, s: seq<Area>, start: int, end: int, flags: int, left: bool, right: bool, k: int, m: int, lo: int)
    requires Turn(s0, s, start, end, flags, left, right, k, m, lo) && WellFormed(s0)
    requires k < |s| && start <= s[k].start < end < s[k].end && !right
    ensures Reprotected(s0, s, Low(s0, start, left), High(s0, start, end, right), flags)
  {
    FirstAfterIs(s0, 0, m, end);
  }

  lemma LastTurn(s0: seq<Area>, s: seq<Area>, start: int, end: int, flags: int, left: bool, right: bool, k: int, m: int, lo: int)
    requires Turn(s0, s, start, end, flags, left, right, k, m, lo) && WellFormed(s0) && start < end
    requires k < |s| ==> end <= s[k].start
    ensures Reprotected(s0, s, Low(s0, start, left), High(s0, start, end, right), flags)
  {
    if !right && lo < end {
      FirstAfterIs(s0, 0, m, end);
    }
  }

  // The whole range, and nothing else, gets the new flags exactly when every area that
  // sticks out of it where no cut can be made has those flags already.
  lemma ProtectExact(s0: seq<Area>, s: seq<Area>, start: int, end: int, flags: int, left: bool, right: bool)
    requires WellFormed(s0) && start < end
    requires Reprotected(s0, s, Low(s0, start, left), High(s0, start, end, right), flags)
    ensures Reprotected(s0, s, start, end, flags) <==>
            forall i :: 0 <= i < |s0| && s0[i].flags != flags ==>
              (left || !(s0[i].start < start < s0[i].end)) && (right || !(s0[i].start < end < s0[i].end))
  {
    hide View, FirstAfter;
    var lo, hi := Low(s0, start, left), High(s0, start, end, right);
    LeftOut(s0, start, end, left, right);
    if Reprotected(s0, s, start, end, flags) {
      forall i | 0 <= i < |s0| && s0[i].flags != flags
        ensures left || !(s0[i].start < start < s0[i].end)
        ensures right || !(s0[i].start < end < s0[i].end)
      {
        if s0[i].start < start < s0[i].end {
          ViewAt(s0, i, start);
        }
        if s0[i].start < end < s0[i].end {
          ViewAt(s0, i, end - 1);
        }
      }
    } else {
      var x :| View(s, x) != if start <= x < end then Reflag(View(s0, x), flags) else View(s0, x);
      var i := LeftOutArea(s0, start, end, left, right, x);
      ViewAt(s0, i, x);
    }
  }

  // The bounds lie in the range, or the new flags begin behind it.
  lemma LeftOut(s: seq<Area>, start: int, end: int, left: bool, right: bool)
    requires WellFormed(s) && start < end
    ensures start <= Low(s, start, left) && start <= High(s, start, end, right) <= end
    ensures forall i :: 0 <= i < |s| && s[i].start < start < s[i].end && !left ==> start < Low(s, start, left)
    ensures forall i :: 0 <= i < |s| && s[i].start < end < s[i].end && !right ==> High(s, start, end, right) < end
  {
    FirstAfterSpec(s, 0, start);
    FirstAfterSpec(s, 0, end);
    var k, m := FirstAfter(s, 0, start), FirstAfter(s, 0, end);
    forall i | 0 <= i < |s| ensures s[i].start < start < s[i].end ==> i == k {
      if k < i {
        assert s[k].end <= s[i].start;
      }
    }
    forall i | 0 <= i < |s| ensures s[i].start < end < s[i].end ==> i == m {
      if m < i {
        assert s[m].end <= s[i].start;
      }
    }
  }

  // An address of the range outside the bounds is in an area that was left out.
  lemma LeftOutArea(s: seq<Area>, start: int, end: int, left: bool, right: bool, x: int) returns (i: int)
    requires WellFormed(s) && start <= x < end && !(Low(s, start, left) <= x < High(s, start, end, right))
    ensures 0 <= i < |s| && Within(s[i], x)
    ensures (!left && s[i].start < start < s[i].end) || (!right && s[i].start < end < s[i].end)
  {
    FirstAfterSpec(s, 0, start);
    FirstAfterSpec(s, 0, end);
    i := if x < Low(s, start, left) then FirstAfter(s, 0, start) else FirstAfter(s, 0, end);
  }

  // One area, and a range inside it, for the two calls that are not exact.
  const WIDE: Area := Area(0x1000, 0x4000, 5, 0, 0, 0)

  // Without memory for the tail, unmapping 0x2000 to 0x3000 loses 0x3000 as well.
  lemma TailIsLost(s: seq<Area>)
    requires Unmapped([WIDE], s, 0x2000, Reach([WIDE], 0x2000, 0x3000, false))
    ensures View([WIDE], 0x3000).Some? && View(s, 0x3000) == None && !Unmapped([WIDE], s, 0x2000, 0x3000)
  {
    assert FirstAfter([WIDE], 0, 0x2000) == 0;
    ViewAt([WIDE], 0, 0x3000);
  }

  // Without memory for a cut, protecting that range with other flags does nothing.
  lemma AreaIsLeftOut(s: seq<Area>)
    requires Reprotected([WIDE], s, Low([WIDE], 0x2000, false), High([WIDE], 0x2000, 0x3000, false), 1)
    ensures View(s, 0x2000) == View([WIDE], 0x2000) == Some(Cover(WIDE, 0x2000)) && !Reprotected([WIDE], s, 0x2000, 0x3000, 1)
  {
    assert FirstAfter([WIDE], 0, 0x2000) == 0 && FirstAfter([WIDE], 0, 0x3000) == 0;
    ViewAt([WIDE], 0, 0x2000);
  }

  lemma MapView(s0: seq<Area>, s: seq<Area>, k: int, a: Area, t: seq<Area>, reach: int)
    requires Unmapped(s0, s, a.start, reach) && a.end <= reach
    requires WellFormed(s) && 0 <= k <= |s| && t == s[..k] + [a] + s[k..] && 0 <= a.start < a.end < U64
    requires forall i :: 0 <= i < k ==> s[i].end <= a.start
    requires forall i :: k <= i < |s| ==> a.end <= s[i].start
    ensures Remapped(s0, t, a, reach)
    ensures Mapped(t, a.start, a.end, a.flags, a.kind, a.file, a.offset)
  {
    ViewAdd(s, k, a, t);
  }

  lemma RoomFor(s0: seq<Area>, s: seq<Area>, a: Area, reach: int)
    requires WellFormed(s) && 0 <= a.start < a.end < U64 && a.end <= reach && Unmapped(s0, s, a.start, reach)
    ensures Fits(s, a)
  {
    forall i | 0 <= i < |s| ensures s[i].end <= a.start || a.end <= s[i].start {
      var x := if s[i].start < a.start then a.start else s[i].start;
      if Within(s[i], x) {
        ViewAt(s, i, x);
      }
    }
  }

  // A range is free exactly when the first area that ends after its start begins at or after its end.
  lemma FirstFree(s: seq<Area>, start: int, end: int, k: int)
    requires WellFormed(s) && 0 <= k <= |s| && start < end
    requires forall i :: 0 <= i < k ==> s[i].end <= start
    requires forall i :: k <= i < |s| ==> start < s[i].end
    ensures (k == |s| || end <= s[k].start) <==> forall x :: start <= x < end ==> View(s, x) == None
  {
    if k == |s| || end <= s[k].start {
      forall x | start <= x < end ensures View(s, x) == None {
        Gap(s, k, x);
      }
    } else {
      var x := if s[k].start < start then start else s[k].start;
      ViewAt(s, k, x);
    }
  }

  // ---------------------------------------------------------------------------
  // First fit
  // ---------------------------------------------------------------------------

  ghost predicate Free(s: seq<Area>, base: int, length: int) {
    forall x :: base <= x < base + length ==> View(s, x) == None
  }

  // The first position from i on whose area ends after x.
  ghost function FirstAfter(s: seq<Area>, i: int, x: int): (k: int)
    requires 0 <= i <= |s|
    ensures i <= k <= |s|
    decreases |s| - i
  {
    if i < |s| && s[i].end <= x then FirstAfter(s, i + 1, x) else i
  }

  // The distance to the limit is a 64-bit subtraction.
  predicate PastLimit(base: int, length: int) {
    length > (USER_ADDRESS_LIMIT - base) % U64
  }

  // The search from area k on, for a hole that starts at base or later.
  ghost function Fit(s: seq<Area>, k: int, base: int, length: int): Option<int>
    requires 0 <= k <= |s|
    decreases |s| - k
  {
    if k == |s| || (s[k].start >= base && s[k].start - base >= length) then
      if PastLimit(base, length) then None else Some(base)
    else if s[k].end >= USER_ADDRESS_LIMIT then None
    else Fit(s, k + 1, s[k].end, length)
  }

  ghost function FirstFit(s: seq<Area>, start: int, length: int): Option<int> {
    if length == 0 then None else Fit(s, FirstAfter(s, 0, start), start, length)
  }

  lemma FitStep(s: seq<Area>, k: int, base: int, length: int)
    requires 0 <= k <= |s|
    ensures Fit(s, k, base, length) ==
            if k == |s| || (s[k].start >= base && s[k].start - base >= length) then
              (if PastLimit(base, length) then None else Some(base))
            else if s[k].end >= USER_ADDRESS_LIMIT then None
            else Fit(s, k + 1, s[k].end, length)
  {
  }

  lemma Increasing(s: seq<Area>, k: int)
    requires WellFormed(s) && 0 <= k < |s|
    ensures k + 1 < |s| ==> s[k].end < s[k + 1].end
  {
    if k + 1 < |s| {
      assert s[k].end <= s[k + 1].start < s[k + 1].end;
    }
  }

  lemma {:induction false} FirstAfterIs(s: seq<Area>, i: int, k: int, x: int)
    requires 0 <= i <= k <= |s|
    requires forall j :: i <= j < k ==> s[j].end <= x
    requires k < |s| ==> x < s[k].end
    ensures FirstAfter(s, i, x) == k
    decreases k - i
  {
    if i < k {
      FirstAfterIs(s, i + 1, k, x);
    }
  }

  lemma {:induction false} FirstAfterSpec(s: seq<Area>, i: int, x: int)
    requires 0 <= i <= |s|
    ensures i <= FirstAfter(s, i, x) <= |s|
    ensures forall j :: i <= j < FirstAfter(s, i, x) ==> s[j].end <= x
    ensures FirstAfter(s, i, x) < |s| ==> x < s[FirstAfter(s, i, x)].end
    decreases |s| - i
  {
    if i < |s| && s[i].end <= x {
      FirstAfterSpec(s, i + 1, x);
    }
  }

  // No hole of the wanted length begins between base and the end of area k.
  lemma NoFit(s: seq<Area>, k: int, base: int, length: int, b: int)
    requires WellFormed(s) && 0 <= k < |s| && length > 0 && base <= b < s[k].end
    requires s[k].start < base || s[k].start - base < length
    ensures !Free(s, b, length)
  {
    var x := if s[k].start <= b then b else s[k].start;
    ViewAt(s, k, x);
    assert b <= x < b + length;
  }

  lemma {:induction false} FitCorrect(s: seq<Area>, k: int, base: int, length: int)
    requires WellFormed(s) && 0 <= k <= |s| && 0 < length && 0 <= base <= USER_ADDRESS_LIMIT
    requires k > 0 ==> s[k - 1].end <= base
    requires k < |s| ==> base < s[k].end
    ensures var r := Fit(s, k, base, length);
            && (r.Some? ==> base <= r.value && r.value + length <= USER_ADDRESS_LIMIT && Free(s, r.value, length))
            && (forall b :: base <= b && (if r.Some? then b < r.value else b + length <= USER_ADDRESS_LIMIT) ==> !Free(s, b, length))
    decreases |s| - k
  {
    var r := Fit(s, k, base, length);
    if k == |s| || (s[k].start >= base && s[k].start - base >= length) {
      forall x | base <= x < base + length ensures View(s, x) == None {
        Gap(s, k, x);
      }
    } else {
      if k + 1 < |s| {
        assert s[k].end <= s[k + 1].start < s[k + 1].end;
      }
      if s[k].end < USER_ADDRESS_LIMIT {
        FitCorrect(s, k + 1, s[k].end, length);
      }
      forall b | base <= b && (if r.Some? then b < r.value else b + length <= USER_ADDRESS_LIMIT) ensures !Free(s, b, length) {
        if b < s[k].end {
          NoFit(s, k, base, length, b);
        }
      }
    }
  }

  // First fit, for every hint at or below the limit: the lowest hole at or above
  // the hint that is long enough and ends at or below the limit, if there is one.
  lemma {:induction false} FirstFitCorrect(s: seq<Area>, start: int, length: int)
    requires WellFormed(s) && 0 < length && 0 <= start <= USER_ADDRESS_LIMIT
    ensures var r := FirstFit(s, start, length);
            && (r.Some? ==> start <= r.value && r.value + length <= USER_ADDRESS_LIMIT && Free(s, r.value, length))
            && (forall b :: start <= b && (if r.Some? then b < r.value else b + length <= USER_ADDRESS_LIMIT) ==> !Free(s, b, length))
  {
    FirstAfterSpec(s, 0, start);
    FitCorrect(s, FirstAfter(s, 0, start), start, length);
  }

  lemma {:induction false} FitStartsLate(s: seq<Area>, k: int, base: int, length: int)
    requires WellFormed(s) && 0 <= k <= |s| && (k < |s| ==> base < s[k].end) && Fit(s, k, base, length).Some?
    ensures base <= Fit(s, k, base, length).value
    decreases |s| - k
  {
    if !(k == |s| || (s[k].start >= base && s[k].start - base >= length)) {
      if k + 1 < |s| {
        assert s[k].end <= s[k + 1].start < s[k + 1].end;
      }
      FitStartsLate(s, k + 1, s[k].end, length);
    }
  }

  // A hint above the limit is not refused: the distance to the limit wraps around.
  // The range found ends at or below the limit exactly when the hint was.
  lemma FirstFitBelowLimit(s: seq<Area>, start: int, length: int)
    requires WellFormed(s) && 0 < length && 0 <= start < U64 && FirstFit(s, start, length).Some?
    ensures FirstFit(s, start, length).value + length <= 0x8000_0000_0000 <==> start <= 0x8000_0000_0000
  {
    FirstAfterSpec(s, 0, start);
    if start <= USER_ADDRESS_LIMIT {
      FirstFitCorrect(s, start, length);
    } else {
      FitStartsLate(s, FirstAfter(s, 0, start), start, length);
    }
  }

  // What becomes of a hint above the limit: only the range at the hint itself is
  // considered, against a distance that has wrapped around.
  lemma FirstFitPastLimit(s: seq<Area>, start: int, length: int)
    requires WellFormed(s) && 0 < length < U64 && USER_ADDRESS_LIMIT < start < U64
    ensures FirstFit(s, start, length) ==
            if Free(s, start, length) && start + length <= USER_ADDRESS_LIMIT + U64 then Some(start) else None
  {
    FirstAfterSpec(s, 0, start);
    var k := FirstAfter(s, 0, start);
    assert (USER_ADDRESS_LIMIT - start) % U64 == USER_ADDRESS_LIMIT - start + U64;
    if k == |s| || (s[k].start >= start && s[k].start - start >= length) {
      forall x | start <= x < start + length ensures View(s, x) == None {
        Gap(s, k, x);
      }
    } else {
      NoFit(s, k, start, length, start);
    }
  }

  lemma FirstFitAboveLimit()
    ensures FirstFit([], USER_ADDRESS_LIMIT + 4096, 4096) == Some(USER_ADDRESS_LIMIT + 4096)
  {
    assert FirstAfter([], 0, USER_ADDRESS_LIMIT + 4096) == 0;
  }

  // ---------------------------------------------------------------------------
  // The linked list
  // ---------------------------------------------------------------------------

  ghost function At(s: seq<Ref>, i: int): Ref {
    if 0 <= i < |s| then s[i] else NULL
  }

  ghost predicate Forward(next: map<Ref, Ref>, s: seq<Ref>) {
    forall i :: 0 <= i < |s| ==> s[i] in next && next[s[i]] == At(s, i + 1)
  }

  ghost predicate Backward(prev: map<Ref, Ref>, s: seq<Ref>) {
    forall i :: 0 <= i < |s| ==> s[i] in prev && prev[s[i]] == At(s, i - 1)
  }

  ghost predicate Linked(next: map<Ref, Ref>, prev: map<Ref, Ref>, head: Ref, s: seq<Ref>) {
    head == At(s, 0) && Forward(next, s) && Backward(prev, s)
  }

  lemma ForwardAt(next: map<Ref, Ref>, s: seq<Ref>, k: int)
    requires Forward(next, s) && 0 <= k < |s|
    ensures s[k] in next && next[s[k]] == At(s, k + 1)
  {
  }

  lemma ForwardInsert(next: map<Ref, Ref>, s: seq<Ref>, k: int, node: Ref)
    requires Forward(next, s) && NoRepeats(s) && 0 <= k <= |s| && node !in s
    ensures Forward(if k > 0 then next[node := At(s, k)][s[k - 1] := node] else next[node := At(s, k)], s[..k] + [node] + s[k..])
  {
    hide NoRepeats;
    var t := s[..k] + [node] + s[k..];
    var next' := if k > 0 then next[node := At(s, k)][s[k - 1] := node] else next[node := At(s, k)];
    assert t[k] == node;
    forall i | 0 <= i < |t| ensures t[i] in next' && next'[t[i]] == At(t, i + 1) {
      if i != k {
        var j := if i < k then i else i - 1;
        assert t[i] == s[j] && s[j] in s;
        if k > 0 {
          Differ(s, j, k - 1);
        }
      }
    }
  }

  lemma BackwardInsert(prev: map<Ref, Ref>, s: seq<Ref>, k: int, node: Ref)
    requires Backward(prev, s) && NoRepeats(s) && 0 <= k <= |s| && node !in s
    ensures Backward(if k < |s| then prev[node := At(s, k - 1)][s[k] := node] else prev[node := At(s, k - 1)], s[..k] + [node] + s[k..])
  {
    hide NoRepeats;
    var t := s[..k] + [node] + s[k..];
    var prev' := if k < |s| then prev[node := At(s, k - 1)][s[k] := node] else prev[node := At(s, k - 1)];
    assert t[k] == node;
    forall i | 0 <= i < |t| ensures t[i] in prev' && prev'[t[i]] == At(t, i - 1) {
      if i != k {
        var j := if i < k then i else i - 1;
        assert t[i] == s[j] && s[j] in s;
        if k < |s| {
          Differ(s, j, k);
        }
      }
    }
  }

  lemma ForwardRemove(next: map<Ref, Ref>, s: seq<Ref>, k: int)
    requires Forward(next, s) && NoRepeats(s) && 0 <= k < |s|
    ensures Forward((if k > 0 then next[s[k - 1] := At(s, k + 1)] else next)[s[k] := NULL], s[..k] + s[k + 1..])
  {
    hide NoRepeats;
    var t := s[..k] + s[k + 1..];
    var next' := (if k > 0 then next[s[k - 1] := At(s, k + 1)] else next)[s[k] := NULL];
    forall i | 0 <= i < |t| ensures t[i] in next' && next'[t[i]] == At(t, i + 1) {
      var j := if i < k then i else i + 1;
      assert t[i] == s[j];
      Differ(s, j, k);
      if k > 0 {
        Differ(s, j, k - 1);
      }
    }
  }

  lemma BackwardRemove(prev: map<Ref, Ref>, s: seq<Ref>, k: int)
    requires Backward(prev, s) && NoRepeats(s) && 0 <= k < |s|
    ensures Backward((if k + 1 < |s| then prev[s[k + 1] := At(s, k - 1)] else prev)[s[k] := NULL], s[..k] + s[k + 1..])
  {
    hide NoRepeats;
    var t := s[..k] + s[k + 1..];
    var prev' := (if k + 1 < |s| then prev[s[k + 1] := At(s, k - 1)] else prev)[s[k] := NULL];
    forall i | 0 <= i < |t| ensures t[i] in prev' && prev'[t[i]] == At(t, i - 1) {
      var j := if i < k then i else i + 1;
      assert t[i] == s[j];
      Differ(s, j, k);
      if k + 1 < |s| {
        Differ(s, j, k + 1);
      }
    }
  }

  // ---------------------------------------------------------------------------
  // The address space object
  // ---------------------------------------------------------------------------

  // The list of areas, in address order, that the nodes hold.
  ghost predicate Matches(areas: map<Ref, Area>, order: seq<Ref>, layout: seq<Area>) {
    |layout| == |order| && forall i :: 0 <= i < |order| ==> order[i] in areas && areas[order[i]] == layout[i]
  }

  lemma MatchInsert(areas: map<Ref, Area>, order: seq<Ref>, layout: seq<Area>, k: int, node: Ref, a: Area)
    requires Matches(areas, order, layout) && 0 <= k <= |order| && node !in order
    ensures Matches(areas[node := a], order[..k] + [node] + order[k..], layout[..k] + [a] + layout[k..])
  {
    var t := order[..k] + [node] + order[k..];
    forall i | 0 <= i < |t| ensures t[i] in areas[node := a] && areas[node := a][t[i]] == (layout[..k] + [a] + layout[k..])[i] {
      if i != k {
        assert t[i] == order[if i < k then i else i - 1] && t[i] in order;
      }
    }
  }

  lemma MatchRemove(areas: map<Ref, Area>, order: seq<Ref>, layout: seq<Area>, k: int)
    requires Matches(areas, order, layout) && 0 <= k < |order| && NoRepeats(order)
    ensures Matches(areas - {order[k]}, order[..k] + order[k + 1..], layout[..k] + layout[k + 1..])
  {
    var t := order[..k] + order[k + 1..];
    forall i | 0 <= i < |t| ensures t[i] in areas - {order[k]} && areas[t[i]] == (layout[..k] + layout[k + 1..])[i] {
      assert t[i] == order[if i < k then i else i + 1];
    }
  }

  lemma MatchAt(areas: map<Ref, Area>, order: seq<Ref>, layout: seq<Area>, k: int)
    requires Matches(areas, order, layout) && 0 <= k < |order|
    ensures k < |layout| && order[k] in areas && areas[order[k]] == layout[k]
  {
  }

  lemma MatchUpdate(areas: map<Ref, Area>, order: seq<Ref>, layout: seq<Area>, k: int, a: Area)
    requires Matches(areas, order, layout) && 0 <= k < |order| && NoRepeats(order)
    ensures Matches(areas[order[k] := a], order, layout[k := a])
  {
  }

  // The search goes left exactly at the areas that start later, and finds the gap.
  lemma AreaSearch(areas: map<Ref, Area>, s: seq<Ref>, l: seq<Area>, node: Ref, a: Area, goLeft: Ref -> bool)
    requires |s| == |l| && Matches(areas, s, l) && WellFormed(l) && node !in s
    requires forall r :: goLeft(r) <==> r in areas[node := a] && a.start < areas[node := a][r].start
    ensures Monotone(goLeft, s)
  {
    forall i | 0 <= i < |s| ensures goLeft(s[i]) <==> a.start < l[i].start {
      var r := s[i];
      assert r in s && areas[node := a][r] == l[i];
      assert goLeft(r) <==> r in areas[node := a] && a.start < areas[node := a][r].start;
    }
    assert forall i, j :: 0 <= i < j < |l| ==> l[i].start < l[i].end <= l[j].start;
  }

  lemma AreaPlaced(areas: map<Ref, Area>, s: seq<Ref>, l: seq<Area>, node: Ref, a: Area, goLeft: Ref -> bool, k: int)
    requires |s| == |l| && Matches(areas, s, l) && WellFormed(l) && Fits(l, a) && NoRepeats(s) && NULL !in s && node !in s && node != NULL
    requires forall r :: goLeft(r) <==> r in areas[node := a] && a.start < areas[node := a][r].start
    requires Narrowed(goLeft, s, k, k)
    ensures Matches(areas[node := a], s[..k] + [node] + s[k..], l[..k] + [a] + l[k..]) && WellFormed(l[..k] + [a] + l[k..])
    ensures NoRepeats(s[..k] + [node] + s[k..]) && NULL !in s[..k] + [node] + s[k..] && 0 <= k <= |l|
    ensures forall i :: 0 <= i < k ==> l[i].end <= a.start
    ensures forall i :: k <= i < |l| ==> a.end <= l[i].start
  {
    forall i | 0 <= i < |s| ensures goLeft(s[i]) <==> a.start < l[i].start {
      var r := s[i];
      assert r in s && areas[node := a][r] == l[i];
      assert goLeft(r) <==> r in areas[node := a] && a.start < areas[node := a][r].start;
    }
    MatchInsert(areas, s, l, k, node, a);
    InsertMembers(s, k, node);
    FitsAt(l, a, k);
  }

  lemma FitsAt(s: seq<Area>, a: Area, k: int)
    requires WellFormed(s) && Fits(s, a) && 0 <= k <= |s|
    requires forall i :: 0 <= i < k ==> s[i].start <= a.start
    requires forall i :: k <= i < |s| ==> a.start < s[i].start
    ensures forall i :: 0 <= i < k ==> s[i].end <= a.start
    ensures forall i :: k <= i < |s| ==> a.end <= s[i].start
    ensures WellFormed(s[..k] + [a] + s[k..])
    ensures forall i :: 0 <= i < k ==> (s[..k] + [a] + s[k..])[i].start < a.start
  {
    AddWellFormed(s, k, a, s[..k] + [a] + s[k..]);
  }

  // The kernel hashes the address of the area to get its priority.
  function AreaPriority(node: Ref): (p: nat) {
    ((node / 16) * 0x9E37_79B9_7F4A_7C15) % U64 / 0x1_0000_0000
  }

  class AddressSpace {
    const index: Treap
    var areas: map<Ref, Area>
    var next: map<Ref, Ref>
    var prev: map<Ref, Ref>
    var head: Ref
    var unused: Ref
    ghost var order: seq<Ref>
    ghost var layout: seq<Area>

    // The treap's in-order walk is the linked list, and its areas are sorted and disjoint.
    ghost predicate Valid()
      reads this, index
    {
      && Indexed()
      && Linked(next, prev, head, order)
      && 0 < unused && (forall r :: r in areas ==> r < unused)
    }

    ghost predicate Indexed()
      reads this, index
    {
      && index.Valid() && index.Order() == order
      && |layout| == |order| && Matches(areas, order, layout) && WellFormed(layout)
      && NoRepeats(order) && NULL !in order
    }

    constructor ()
      ensures Valid() && layout == [] && fresh(index)
    {
      index := new Treap();
      areas, next, prev, head, unused := map[], map[], map[], NULL, 16;
      order, layout := [], [];
    }

    lemma Here(k: int)
      requires Valid() && 0 <= k <= |order|
      ensures At(order, k) != NULL <==> k < |order|
      ensures k < |order| ==> order[k] in areas && areas[order[k]] == layout[k]
    {
      if k < |order| {
        MatchAt(areas, order, layout, k);
        assert order[k] in order;
      }
    }

    // The area with the greatest start at or below the address.
    method AtOrBefore(address: int) returns (area: Ref, ghost k: int)
      requires Indexed()
      ensures 0 <= k <= |layout| && area == At(order, k - 1)
      ensures forall i :: 0 <= i < k ==> layout[i].start <= address
      ensures forall i :: k <= i < |layout| ==> address < layout[i].start
    {
      var m := areas;
      var goLeft := (r: Ref) => r in m && address < m[r].start;
      assert forall i :: 0 <= i < |order| ==> m[order[i]] == layout[i];
      area, k := index.LastBefore(goLeft);
    }

    method FirstEndingAfter(address: int) returns (area: Ref, ghost k: int)
      requires Valid()
      ensures 0 <= k <= |layout| && area == At(order, k)
      ensures forall i :: 0 <= i < k ==> layout[i].end <= address
      ensures forall i :: k <= i < |layout| ==> address < layout[i].end
    {
      hide Forward, Backward, Matches, WellFormed, NoRepeats;
      area, k := AtOrBefore(address);
      EndingAfter(layout, address, k);
      if k > 0 {
        MatchAt(areas, order, layout, k - 1);
        assert area in order;
        ForwardAt(next, order, k - 1);
      }
      if area == NULL {
        area := head;
      } else if areas[area].end > address {
        k := k - 1;
      } else {
        area := next[area];
      }
    }

    method Link(node: Ref, before: Ref, ghost s: seq<Ref>, ghost k: int)
      requires Linked(next, prev, head, s) && NoRepeats(s) && NULL !in s && node !in s && node != NULL
      requires 0 <= k <= |s| && before == At(s, k - 1)
      modifies this`next, this`prev, this`head
      ensures Linked(next, prev, head, s[..k] + [node] + s[k..])
    {
      ForwardInsert(next, s, k, node);
      BackwardInsert(prev, s, k, node);
      assert before != NULL <==> k > 0;
      assert At(s, k) != NULL <==> k < |s|;
      var n, p := next, prev;
      p := p[node := before];
      n := n[node := if before != NULL then n[before] else head];
      if n[node] != NULL {
        p := p[n[node] := node];
      }
      if before != NULL {
        n := n[before := node];
      } else {
        head := node;
      }
      next, prev := n, p;
    }

    method Unlink(area: Ref, ghost s: seq<Ref>, ghost k: int)
      requires Linked(next, prev, head, s) && NoRepeats(s) && NULL !in s
      requires 0 <= k < |s| && s[k] == area
      modifies this`next, this`prev, this`head
      ensures Linked(next, prev, head, s[..k] + s[k + 1..])
    {
      ForwardRemove(next, s, k);
      BackwardRemove(prev, s, k);
      assert At(s, k - 1) != NULL <==> k > 0;
      assert At(s, k + 1) != NULL <==> k + 1 < |s|;
      var n, p := next, prev;
      if p[area] != NULL {
        n := n[p[area] := n[area]];
      } else {
        head := n[area];
      }
      if n[area] != NULL {
        p := p[n[area] := p[area]];
      }
      next, prev := n[area := NULL], p[area := NULL];
    }

    // The treap half of an insertion.
    method IndexInsert(node: Ref, a: Area) returns (ghost k: int)
      requires Indexed() && Fits(layout, a) && node !in order && node != NULL
      modifies index, this`areas, this`order, this`layout
      ensures Indexed() && 0 <= k <= |old(layout)| && areas == old(areas)[node := a]
      ensures order == old(order)[..k] + [node] + old(order)[k..]
      ensures layout == old(layout)[..k] + [a] + old(layout)[k..]
      ensures forall i :: 0 <= i < k ==> old(layout)[i].end <= a.start
      ensures forall i :: k <= i < |old(layout)| ==> a.end <= old(layout)[i].start
    {
      hide Matches, WellFormed, NoRepeats, Fits, Monotone, Narrowed, SamePriorities, Refs, InOrder, Shape, Distinct, HeapOrdered;
      ghost var s, l := order, layout;
      var m := areas[node := a];
      var goLeft := (r: Ref) => r in m && a.start < m[r].start;
      AreaSearch(areas, s, l, node, a, goLeft);
      index.OrderFacts();
      k := index.Insert(node, AreaPriority(node), goLeft);
      AreaPlaced(areas, s, l, node, a, goLeft, k);
      areas, order, layout := m, s[..k] + [node] + s[k..], l[..k] + [a] + l[k..];
    }

    // The area after which a freshly indexed one is linked.
    method Predecessor(a: Area, ghost k: int) returns (before: Ref)
      requires Indexed() && 0 <= k < |layout| && layout[k] == a
      ensures before == At(order, k - 1)
    {
      WrapBelow(a.start);
      ghost var j;
      before, j := AtOrBefore((a.start - 1) % U64);
      assert k > 0 ==> layout[k - 1].end <= layout[k].start;
      if a.start == 0 {
        before := NULL;
      } else {
        assert j <= k;
        assert k > 0 ==> k - 1 < j;
      }
    }

    method Insert(a: Area) returns (node: Ref, ghost k: int)
      requires Valid() && Fits(layout, a)
      modifies this, index
      ensures Valid() && 0 <= k <= |old(layout)|
      ensures order == old(order)[..k] + [node] + old(order)[k..]
      ensures layout == old(layout)[..k] + [a] + old(layout)[k..]
      ensures forall i :: 0 <= i < k ==> old(layout)[i].end <= a.start
      ensures forall i :: k <= i < |old(layout)| ==> a.end <= old(layout)[i].start
    {
      hide Forward, Backward, Matches, WellFormed, NoRepeats;
      ghost var s := order;
      node := unused;
      unused := unused + 16;
      if i :| 0 <= i < |s| && s[i] == node {
        MatchAt(areas, s, layout, i);
        assert false;
      }
      k := IndexInsert(node, a);
      var before := Predecessor(a, k);
      assert before == At(s, k - 1);
      Link(node, before, s, k);
    }

    method Remove(area: Ref, ghost k: int)
      requires Valid() && 0 <= k < |order| && order[k] == area
      modifies this, index
      ensures Valid()
      ensures order == old(order)[..k] + old(order)[k + 1..]
      ensures layout == old(layout)[..k] + old(layout)[k + 1..]
    {
      hide Forward, Backward, Matches, WellFormed, NoRepeats;
      ghost var s := order;
      IndexRemove(area, k);
      Unlink(area, s, k);
    }

    // The treap half of a removal.
    method IndexRemove(area: Ref, ghost k: int)
      requires Indexed() && 0 <= k < |order| && order[k] == area
      modifies index, this`areas, this`order, this`layout
      ensures Indexed() && areas == old(areas) - {area}
      ensures order == old(order)[..k] + old(order)[k + 1..]
      ensures layout == old(layout)[..k] + old(layout)[k + 1..]
    {
      ghost var s, l := order, layout;
      index.OrderFacts();
      ghost var j := index.Remove(area);
      Differ(s, j, k);
      MatchRemove(areas, s, l, k);
      RemoveMembers(s, k);
      DropWellFormed(l, k, l[..k] + l[k + 1..]);
      areas, order, layout := areas - {area}, s[..k] + s[k + 1..], l[..k] + l[k + 1..];
    }

    // Store an area's fields again: its place in the order does not change.
    method Update(area: Ref, a: Area, ghost k: int)
      requires Valid() && 0 <= k < |order| && order[k] == area && WellFormed(layout[k := a])
      modifies this`areas, this`layout
      ensures Valid() && layout == old(layout)[k := a]
    {
      hide Forward, Backward, Matches, WellFormed, NoRepeats;
      MatchAt(areas, order, layout, k);
      MatchUpdate(areas, order, layout, k, a);
      areas, layout := areas[area := a], layout[k := a];
    }

    method SplitAt(area: Ref, cut: int, ghost k: int) returns (tail: Ref)
      requires Valid() && 0 <= k < |order| && order[k] == area && layout[k].start < cut < layout[k].end
      modifies this, index
      ensures Valid() && |order| == |old(order)| + 1 && tail == order[k + 1]
      ensures order == old(order)[..k + 1] + [tail] + old(order)[k + 1..]
      ensures layout == old(layout)[k := old(layout)[k].(end := cut)][..k + 1] + [Tail(old(layout)[k], cut)] + old(layout)[k + 1..]
      ensures layout[k].end == cut == layout[k + 1].start && layout[k + 1].end == old(layout[k].end)
      ensures layout[k + 1].offset == (old(layout[k].offset) + (cut - old(layout[k].start))) % 0x1_0000_0000_0000_0000
      ensures forall x :: View(layout, x) == View(old(layout), x)
    {
      hide Forward, Backward, Matches, WellFormed, NoRepeats;
      ghost var l := layout;
      MatchAt(areas, order, layout, k);
      var a := areas[area];
      ViewTrim(l, k, a.(end := cut), l[k := a.(end := cut)]);
      Update(area, a.(end := cut), k);
      ghost var j;
      SplitFits(l, k, cut);
      tail, j := Insert(Tail(a, cut));
      SplitPlace(l, k, cut, l[k := a.(end := cut)], j);
      ViewSplit(l, k, cut, layout);
    }

    // The area after the one at position k.
    method Following(area: Ref, ghost k: int) returns (following: Ref)
      requires Valid() && 0 <= k < |order| && order[k] == area
      ensures following == At(order, k + 1)
    {
      hide Forward, Backward, Matches, WellFormed, NoRepeats;
      ForwardAt(next, order, k);
      following := next[area];
    }

    // The area the cursor stands at.
    ghost predicate Points(area: Ref, k: int)
      reads this
    {
      && 0 <= k <= |layout| == |order| && area == At(order, k)
      && (area != NULL <==> k < |layout|)
      && (area != NULL ==> area in areas && areas[area] == layout[k])
    }

    // One turn of the unmapping loop.
    method UnmapOne(area: Ref, start: int, end: int, memory: bool, ghost s0: seq<Area>, ghost k: int)
      returns (following: Ref, done: bool, ghost k': int)
      requires Valid() && start < end && Cleared(s0, layout, start, end, k)
      requires Points(area, k) && area != NULL && layout[k].start < end
      requires layout[k].start < start ==> layout == s0 && k == FirstAfter(s0, 0, start)
      modifies this, index
      ensures Valid()
      ensures done ==> Unmapped(s0, layout, start, Reach(s0, start, end, memory))
      ensures old(layout)[k].start < start && !done ==> Reach(s0, start, end, memory) == end
      ensures !done ==> Cleared(s0, layout, start, end, k') && Points(following, k')
      ensures !done && following != NULL ==> old(layout)[k].start < layout[k'].start && start <= layout[k'].start
    {
      hide Forward, Backward, Matches, WellFormed, NoRepeats, View, Cleared, Unmapped;
      done, k' := false, k;
      following := Following(area, k);
      var a := areas[area];
      if start <= a.start && end >= a.end {
        ClearDrop(s0, layout, start, end, k);
        Remove(area, k);
      } else if start > a.start && end < a.end {
        ghost var s := layout;
        if memory {
          var _ := SplitAt(area, end, k);
          ClearInside(s0, s, start, end, k, layout, a.(end := start), layout[k := a.(end := start)]);
        } else {
          ClearTail(s, start, k, a.(end := start));
        }
        Update(area, a.(end := start), k);
        done := true;
      } else if start > a.start {
        ClearTrim(s0, layout, start, end, k, a.(end := start));
        Update(area, a.(end := start), k);
        k' := k + 1;
      } else {
        ClearTrim(s0, layout, start, end, k, Tail(a, end));
        Update(area, Tail(a, end), k);
        k' := k + 1;
      }
      Here(k');
    }

    // `memory` tells whether an area for a tail can be allocated.
    method Unmap(start: int, end: int, memory: bool)
      requires Valid()
      modifies this, index
      ensures Valid()
      ensures start >= end ==> layout == old(layout)
      ensures start < end ==> Unmapped(old(layout), layout, start, Reach(old(layout), start, end, memory))
    {
      if start >= end {
        return;
      }
      hide Forward, Backward, Matches, WellFormed, NoRepeats, View, Cleared, Unmapped, Linked;
      ghost var s0, k := layout, 0;
      var area, done;
      area, k := FirstEndingAfter(start);
      LoopStart(layout, start, end, 0, k);
      FirstAfterIs(layout, 0, k, start);
      ghost var first := true;
      Here(k);
      while area != NULL && areas[area].start < end
        invariant Valid() && Points(area, k) && Cleared(s0, layout, start, end, k)
        invariant first ==> layout == s0 && k == FirstAfter(s0, 0, start)
        invariant !first ==> (area != NULL ==> start <= layout[k].start) && Reach(s0, start, end, memory) == end
        decreases if area != NULL then end - layout[k].start else 0
      {
        if first {
          ReachHere(s0, start, end, memory, k);
        }
        area, done, k := UnmapOne(area, start, end, memory, s0, k);
        if done {
          return;
        }
        first := false;
      }
      if first {
        ReachHere(s0, start, end, memory, k);
      }
      ClearEnd(s0, layout, start, end, k);
    }

    // One turn of the protecting loop.  An area that cannot be cut at its left end is
    // passed over, and so is one that cannot be cut at its right end, which is the last.
    method ProtectOne(area: Ref, start: int, end: int, flags: int, left: bool, right: bool,
                      ghost s0: seq<Area>, ghost k: int, ghost m: int, ghost lo: int)
      returns (following: Ref, ghost m': int, ghost lo': int, ghost stopped: bool)
      requires Valid() && start < end && WellFormed(s0) && Turn(s0, layout, start, end, flags, left, right, k, m, lo)
      requires Points(area, k) && area != NULL && layout[k].start < end
      modifies this, index
      ensures Valid() && Points(following, k + 1)
      ensures following != NULL ==> old(layout)[k].start < layout[k + 1].start
      ensures !stopped ==> Turn(s0, layout, start, end, flags, left, right, k + 1, m', lo')
      ensures stopped ==> Reprotected(s0, layout, Low(s0, start, left), High(s0, start, end, right), flags)
      ensures stopped && following != NULL ==> end <= layout[k + 1].start
    {
      hide Forward, Backward, Matches, NoRepeats, WellFormed, View, Turn, Reprotected, Low, High, Linked;
      var a := areas[area];
      ghost var s := layout;
      m', lo', stopped := m + 1, lo, false;
      NextStarts(s, k);
      TurnBounds(s0, s, start, end, flags, left, right, k, m, lo);
      if a.start < start || a.end > end {
        var cut := if a.start < start then start else end;
        if !(if a.start < start then left else right) {
          following := Following(area, k);
          Here(k + 1);
          if a.start < start {
            lo' := a.end;
            SkipLeft(s0, s, start, end, flags, left, right, k, m, lo);
          } else {
            SkipRight(s0, s, start, end, flags, left, right, k, m, lo);
            stopped := true;
          }
          return;
        }
        var tail := SplitAt(area, cut, k);
        Here(k);
        if a.start < start {
          CutLeft(s0, s, layout, start, end, flags, left, right, k, m, lo);
          Here(k + 1);
          return tail, m, lo, stopped;
        }
        CutRight(s0, s, layout, start, end, flags, left, right, k, m, lo);
        NextStarts(layout, k);
      }
      SetFlags(s0, layout, start, end, flags, left, right, k, m, lo);
      Update(area, areas[area].(flags := flags), k);
      following := Following(area, k);
      Here(k + 1);
    }

    // `left` and `right` tell whether the areas for the two cuts can be allocated.
    method Protect(start: int, end: int, flags: int, left: bool, right: bool)
      requires Valid()
      modifies this, index
      ensures Valid()
      ensures start >= end ==> layout == old(layout)
      ensures start < end ==> Reprotected(old(layout), layout, Low(old(layout), start, left), High(old(layout), start, end, right), flags)
    {
      if start >= end {
        return;
      }
      hide Forward, Backward, Matches, NoRepeats, WellFormed, View, Turn, Reprotected, Low, High, Linked, FirstAfter;
      ghost var s0, k := layout, 0;
      var area;
      area, k := FirstEndingAfter(start);
      FirstTurn(layout, start, end, flags, left, right, k);
      Here(k);
      ghost var m, lo, stopped := k, start, false;
      while area != NULL && areas[area].start < end
        invariant Valid() && Points(area, k)
        invariant !stopped ==> Turn(s0, layout, start, end, flags, left, right, k, m, lo)
        invariant stopped ==> Reprotected(s0, layout, Low(s0, start, left), High(s0, start, end, right), flags)
        invariant stopped && area != NULL ==> end <= layout[k].start
        decreases if area != NULL then end - layout[k].start else 0
      {
        area, m, lo, stopped := ProtectOne(area, start, end, flags, left, right, s0, k, m, lo);
        k := k + 1;
      }
      if !stopped {
        LastTurn(s0, layout, start, end, flags, left, right, k, m, lo);
      }
    }

    // `tail` and `memory` tell whether an area for a tail and the new one can be allocated.
    method Map(start: int, end: int, flags: int, kind: int, file: int, offset: int, tail: bool, memory: bool) returns (ok: bool)
      requires Valid() && 0 <= start < U64 && 0 <= end < U64
      modifies this, index
      ensures Valid() && ok == (start < end && memory)
      ensures start >= end ==> layout == old(layout)
      ensures start < end && !memory ==> Unmapped(old(layout), layout, start, Reach(old(layout), start, end, tail))
      ensures ok ==> Remapped(old(layout), layout, Area(start, end, flags, kind, file, offset), Reach(old(layout), start, end, tail))
      ensures ok ==> Mapped(layout, start, end, flags, kind, file, offset)
    {
      if start >= end {
        return false;
      }
      hide Forward, Backward, Matches, WellFormed, NoRepeats, View, Unmapped, Remapped, Mapped, Fits;
      Unmap(start, end, tail);
      if !memory {
        return false;
      }
      var a := Area(start, end, flags, kind, file, offset);
      ghost var l := layout;
      ghost var reach := Reach(old(layout), start, end, tail);
      RoomFor(old(layout), l, a, reach);
      ghost var k;
      var node;
      node, k := Insert(a);
      MapView(old(layout), l, k, a, layout, reach);
      ok := true;
    }

    method RangeFree(start: int, end: int) returns (free: bool)
      requires Valid()
      ensures free <==> start < end && forall x :: start <= x < end ==> View(layout, x) == None
    {
      if start >= end {
        return false;
      }
      hide Forward, Backward, Matches, NoRepeats, View;
      ghost var k;
      var area;
      area, k := FirstEndingAfter(start);
      Here(k);
      free := area == NULL || areas[area].start >= end;
      FirstFree(layout, start, end, k);
    }

    method FindFreeRange(start: int, length: int) returns (found: Option<int>)
      requires Valid() && 0 <= start < U64 && 0 <= length < U64
      ensures found == FirstFit(layout, start, length)
    {
      hide Forward, Backward, Matches, NoRepeats, Linked, Fit, FirstAfter, View, WellFormed, PastLimit;
      if length == 0 {
        return None;
      }
      var base := start;
      ghost var k;
      var area;
      area, k := FirstEndingAfter(base);
      FirstAfterIs(layout, 0, k, start);
      Here(k);
      while area != NULL
        invariant Points(area, k) && (area != NULL ==> base < layout[k].end)
        invariant FirstFit(layout, start, length) == Fit(layout, k, base, length)
        decreases |layout| - k
      {
        var a := areas[area];
        FitStep(layout, k, base, length);
        if a.end > base {
          if a.start >= base && a.start - base >= length {
            break;
          }
          base := a.end;
          if base >= USER_ADDRESS_LIMIT {
            return None;
          }
        }
        area := Following(area, k);
        Increasing(layout, k);
        k := k + 1;
        Here(k);
      }
      if area == NULL {
        FitStep(layout, k, base, length);
      }
      if PastLimit(base, length) {
        return None;
      }
      found := Some(base);
    }
  }
}
