/**
 Deferred freeing (kernel/core/defer.c): an object is released only when every
 kernel context that was inside when it was handed over has left.

 Each function is one atomic step, but for `defer_poll`: the source scans the CPUs
 before it takes `pending_lock`, so the scan and the walk under the lock are two
 steps, and `Poll` is the two with nothing between.  It is assumed that an object
 cannot be reached any more when it is handed to `defer_release`, and that a CPU
 executes only while it is online.

 The clock and everything derived from it is ghost: it says when things really
 happened, and the generation counter is what the kernel has instead.
 */
module Defer {
  import opened Lists

  const SMP_MAX_CPUS: int := 256
  const UINT64_MAX: int := 0xFFFF_FFFF_FFFF_FFFF

  datatype Quiescence = Quiescence(depth: nat, entered: int, online: bool)

  datatype Park = Park(depth: nat, entered: int, listed: bool)

  // A context's stay in the kernel began at time `since`, reading generation
  // `entered`; an object was handed over at time `at`, drawing generation `drawn`.
  // The counter orders the two as the clock does.
  ghost predicate Tied(since: int, entered: int, at: int, drawn: int) {
    since < at <==> entered < drawn
  }

  // One stay against everything pending.
  ghost predicate Stay(since: int, entered: int, pending: seq<Ref>, drawn: map<Ref, int>, at: map<Ref, int>) {
    forall x :: x in pending ==> x in drawn && x in at && Tied(since, entered, at[x], drawn[x])
  }

  ghost predicate CpuStays(cpus: seq<Quiescence>, since: seq<int>, now: int, generation: int,
                           pending: seq<Ref>, drawn: map<Ref, int>, at: map<Ref, int>)
  {
    && |cpus| == |since| == SMP_MAX_CPUS
    && forall c :: 0 <= c < |cpus| && cpus[c].depth > 0 ==>
         && cpus[c].online && since[c] <= now && cpus[c].entered <= generation
         && Stay(since[c], cpus[c].entered, pending, drawn, at)
  }

  ghost predicate ParkStays(parks: map<Ref, Park>, parked: seq<Ref>, since: map<Ref, int>, now: int, generation: int,
                            pending: seq<Ref>, drawn: map<Ref, int>, at: map<Ref, int>)
  {
    && NoRepeats(parked)
    && (forall p :: p in parks && parks[p].listed ==> p in parked)
    && forall p :: p in parked ==>
         && p in parks && p in since && parks[p].listed && parks[p].depth > 0
         && since[p] <= now && parks[p].entered <= generation
         && Stay(since[p], parks[p].entered, pending, drawn, at)
  }

  // Every hand-over is pending or released, never both, never twice.
  ghost predicate Once(pending: seq<Ref>, drawn: map<Ref, int>, at: map<Ref, int>, released: seq<int>, now: int, generation: int) {
    && NoRepeats(pending)
    && (forall x :: x in pending ==> x in drawn && drawn[x] <= generation && x in at && at[x] <= now && at[x] !in released)
    && (forall x, y :: x in pending && y in pending && x != y ==> at[x] != at[y])
    && NoRepeats(released) && (forall t :: t in released ==> t <= now)
  }

  lemma OnceReleased(pending: seq<Ref>, drawn: map<Ref, int>, at: map<Ref, int>, released: seq<int>, now: int, generation: int)
    requires Once(pending, drawn, at, released, now, generation)
    ensures NoRepeats(released)
  {
  }

  // Somebody who was in the kernel before time t has not left.
  ghost predicate OlderInside(cpus: seq<Quiescence>, since: seq<int>, parked: seq<Ref>, parkSince: map<Ref, int>, t: int) {
    || (exists c :: 0 <= c < |cpus| && c < |since| && cpus[c].depth > 0 && since[c] < t)
    || (exists p :: p in parked && p in parkSince && parkSince[p] < t)
  }

  // No stay read a generation below g.
  ghost predicate CpusFrom(cpus: seq<Quiescence>, n: int, g: int) {
    forall c :: 0 <= c < n && c < |cpus| && cpus[c].depth > 0 ==> g <= cpus[c].entered
  }

  ghost predicate ParksFrom(parks: map<Ref, Park>, parked: seq<Ref>, g: int) {
    forall p :: p in parked && p in parks ==> g <= parks[p].entered
  }

  // The least generation read by the first n CPUs that are inside.
  ghost predicate Least(cpus: seq<Quiescence>, n: int, oldest: int) {
    && CpusFrom(cpus, n, oldest)
    && (oldest == UINT64_MAX || exists c :: 0 <= c < n && c < |cpus| && cpus[c].depth > 0 && cpus[c].entered == oldest)
  }

  lemma LeastNothing(cpus: seq<Quiescence>)
    ensures Least(cpus, 0, UINT64_MAX)
  {
  }

  lemma LeastCpu(cpus: seq<Quiescence>, n: int, oldest: int)
    requires Least(cpus, n, oldest) && 0 <= n < |cpus|
    ensures Least(cpus, n + 1, if cpus[n].depth > 0 && cpus[n].entered < oldest then cpus[n].entered else oldest)
  {
    if cpus[n].depth > 0 && cpus[n].entered < oldest {
      assert cpus[n].depth > 0 && cpus[n].entered == cpus[n].entered;
    }
  }

  lemma LeastOfNone(cpus: seq<Quiescence>, oldest: int)
    requires Least(cpus, |cpus|, oldest) && forall c :: 0 <= c < |cpus| ==> cpus[c].depth == 0
    ensures oldest == UINT64_MAX
  {
  }

  // What the walk asks of an object's generation.
  ghost predicate Passes(scanned: int, parks: map<Ref, Park>, parked: seq<Ref>, g: int) {
    g <= scanned && ParksFrom(parks, parked, g)
  }

  lemma LeastDecides(cpus: seq<Quiescence>, parks: map<Ref, Park>, parked: seq<Ref>, oldest: int, g: int)
    requires Least(cpus, |cpus|, oldest) && g <= UINT64_MAX
    ensures Passes(oldest, parks, parked, g) <==> CpusFrom(cpus, |cpus|, g) && ParksFrom(parks, parked, g)
    ensures g <= oldest <==> CpusFrom(cpus, |cpus|, g)
  {
  }

  // Being at most `oldest` is passing the scan and the parked contexts ps.
  ghost predicate Bound(scanned: int, parks: map<Ref, Park>, ps: seq<Ref>, oldest: int) {
    forall g: int :: g <= oldest <==> Passes(scanned, parks, ps, g)
  }

  lemma BoundStart(scanned: int, parks: map<Ref, Park>)
    ensures Bound(scanned, parks, [], scanned)
  {
  }

  lemma BoundNext(scanned: int, parks: map<Ref, Park>, parked: seq<Ref>, i: int, oldest: int)
    requires 0 <= i < |parked| && parked[i] in parks && Bound(scanned, parks, parked[..i], oldest)
    ensures Bound(scanned, parks, parked[..i + 1], if parks[parked[i]].entered < oldest then parks[parked[i]].entered else oldest)
  {
    var ps := parked[..i + 1];
    assert ps == parked[..i] + [parked[i]];
    forall g: int ensures Passes(scanned, parks, ps, g) <==> Passes(scanned, parks, parked[..i], g) && g <= parks[parked[i]].entered {
      assert forall p :: p in ps <==> p in parked[..i] || p == parked[i];
      assert parked[i] in ps;
    }
    var least := if parks[parked[i]].entered < oldest then parks[parked[i]].entered else oldest;
    forall g: int ensures g <= least <==> Passes(scanned, parks, ps, g) {
      assert g <= oldest <==> Passes(scanned, parks, parked[..i], g);
    }
  }

  lemma ParkedKnown(parks: map<Ref, Park>, parked: seq<Ref>, since: map<Ref, int>, now: int, generation: int,
                    pending: seq<Ref>, drawn: map<Ref, int>, at: map<Ref, int>)
    requires ParkStays(parks, parked, since, now, generation, pending, drawn, at)
    ensures forall i :: 0 <= i < |parked| ==> parked[i] in parks
  {
    forall i | 0 <= i < |parked| ensures parked[i] in parks {
      var p := parked[i];
      assert p in parked;
    }
  }

  lemma OnlyOnline(cpus: seq<Quiescence>, since: seq<int>, now: int, generation: int,
                   pending: seq<Ref>, drawn: map<Ref, int>, at: map<Ref, int>)
    requires CpuStays(cpus, since, now, generation, pending, drawn, at)
    ensures |cpus| == SMP_MAX_CPUS && forall c :: 0 <= c < |cpus| && cpus[c].depth > 0 ==> cpus[c].online
  {
  }

  // The generation test decides the question about time.
  lemma TestIsExact(cpus: seq<Quiescence>, since: seq<int>, parks: map<Ref, Park>, parked: seq<Ref>, parkSince: map<Ref, int>,
                    now: int, generation: int, pending: seq<Ref>, drawn: map<Ref, int>, at: map<Ref, int>, x: Ref)
    requires CpuStays(cpus, since, now, generation, pending, drawn, at)
    requires ParkStays(parks, parked, parkSince, now, generation, pending, drawn, at)
    requires x in pending && x in drawn && x in at
    ensures CpusFrom(cpus, |cpus|, drawn[x]) && ParksFrom(parks, parked, drawn[x]) <==> !OlderInside(cpus, since, parked, parkSince, at[x])
  {
    forall c | 0 <= c < |cpus| && cpus[c].depth > 0 ensures since[c] < at[x] <==> cpus[c].entered < drawn[x] {
      assert Tied(since[c], cpus[c].entered, at[x], drawn[x]);
    }
    forall p | p in parked ensures p in parks && p in parkSince && (parkSince[p] < at[x] <==> parks[p].entered < drawn[x]) {
      assert Tied(parkSince[p], parks[p].entered, at[x], drawn[x]);
    }
  }

  // The part of the pending list already walked, split by the generation test.
  ghost predicate Split(seen: seq<Ref>, kept: seq<Ref>, ready: seq<Ref>, drawn: map<Ref, int>, oldest: int) {
    && NoRepeats(kept) && NoRepeats(ready) && |kept| + |ready| == |seen|
    && (forall x :: x in kept <==> x in seen && x in drawn && drawn[x] > oldest)
    && (forall x :: x in ready <==> x in seen && x in drawn && drawn[x] <= oldest)
  }

  lemma SplitNext(pending: seq<Ref>, i: int, kept: seq<Ref>, ready: seq<Ref>, drawn: map<Ref, int>, oldest: int)
    requires 0 <= i < |pending| && NoRepeats(pending) && pending[i] in drawn && Split(pending[..i], kept, ready, drawn, oldest)
    ensures drawn[pending[i]] <= oldest ==> Split(pending[..i + 1], kept, [pending[i]] + ready, drawn, oldest)
    ensures drawn[pending[i]] > oldest ==> Split(pending[..i + 1], kept + [pending[i]], ready, drawn, oldest)
  {
    assert pending[..i + 1] == pending[..i] + [pending[i]];
    assert pending[i] !in pending[..i];
  }

  ghost function Times(s: seq<Ref>, at: map<Ref, int>): (r: seq<int>)
    requires forall i :: 0 <= i < |s| ==> s[i] in at
    ensures |r| == |s| && forall i :: 0 <= i < |s| ==> r[i] == at[s[i]]
  {
    seq(|s|, i requires 0 <= i < |s| => at[s[i]])
  }

  lemma ReleasedOnce(pending: seq<Ref>, kept: seq<Ref>, ready: seq<Ref>, drawn: map<Ref, int>, oldest: int,
                     at: map<Ref, int>, released: seq<int>, now: int, generation: int)
    requires Once(pending, drawn, at, released, now, generation) && Split(pending, kept, ready, drawn, oldest)
    ensures forall i :: 0 <= i < |ready| ==> ready[i] in at
    ensures Once(kept, drawn, at, released + Times(ready, at), now, generation)
  {
    forall i | 0 <= i < |ready| ensures ready[i] in at {
      var x := ready[i];
      assert x in ready;
    }
    var log := released + Times(ready, at);
    forall t | t in log ensures t in released || exists x :: x in ready && t == at[x] {
      var k :| 0 <= k < |log| && log[k] == t;
      if k >= |released| {
        assert ready[k - |released|] in ready && t == at[ready[k - |released|]];
      }
    }
    forall i, j | 0 <= i < j < |log| ensures log[i] != log[j] {
      if j >= |released| {
        var y := ready[j - |released|];
        assert y in ready && log[j] == at[y];
        if i >= |released| {
          var x := ready[i - |released|];
          assert x in ready && x != y && log[i] == at[x];
        } else {
          assert log[i] in released;
        }
      }
    }
  }

  lemma FewerPending(cpus: seq<Quiescence>, since: seq<int>, parks: map<Ref, Park>, parked: seq<Ref>, parkSince: map<Ref, int>,
                     now: int, generation: int, pending: seq<Ref>, kept: seq<Ref>, drawn: map<Ref, int>, at: map<Ref, int>)
    requires CpuStays(cpus, since, now, generation, pending, drawn, at)
    requires ParkStays(parks, parked, parkSince, now, generation, pending, drawn, at)
    requires forall x :: x in kept ==> x in pending
    ensures CpuStays(cpus, since, now, generation, kept, drawn, at)
    ensures ParkStays(parks, parked, parkSince, now, generation, kept, drawn, at)
  {
  }

  lemma PendingKnown(pending: seq<Ref>, drawn: map<Ref, int>, at: map<Ref, int>, released: seq<int>, now: int, generation: int)
    requires Once(pending, drawn, at, released, now, generation)
    ensures NoRepeats(pending) && forall i :: 0 <= i < |pending| ==> pending[i] in drawn
    ensures forall x :: x in pending ==> x in drawn && x in at && drawn[x] <= generation && at[x] !in released
  {
    forall i | 0 <= i < |pending| ensures pending[i] in drawn {
      var x := pending[i];
      assert x in pending;
    }
  }

  lemma NothingSplit(drawn: map<Ref, int>, oldest: int)
    ensures Split([], [], [], drawn, oldest)
  {
  }

  // What a walk has done.
  lemma Swept(cpus: seq<Quiescence>, since: seq<int>, parks: map<Ref, Park>, parked: seq<Ref>, parkSince: map<Ref, int>,
              now: int, generation: int, pending: seq<Ref>, drawn: map<Ref, int>, at: map<Ref, int>, released: seq<int>,
              kept: seq<Ref>, ready: seq<Ref>, scanned: int, oldest: int)
    requires CpuStays(cpus, since, now, generation, pending, drawn, at)
    requires ParkStays(parks, parked, parkSince, now, generation, pending, drawn, at)
    requires Once(pending, drawn, at, released, now, generation) && Split(pending, kept, ready, drawn, oldest)
    requires Bound(scanned, parks, parked, oldest)
    ensures CpuStays(cpus, since, now, generation, kept, drawn, at)
    ensures ParkStays(parks, parked, parkSince, now, generation, kept, drawn, at)
    ensures forall i :: 0 <= i < |ready| ==> ready[i] in at
    ensures Once(kept, drawn, at, released + Times(ready, at), now, generation)
    ensures NoRepeats(ready) && |kept| + |ready| == |pending| && forall x :: x in pending ==> x in at && x in drawn
    ensures forall x :: x in ready <==> x in pending && Passes(scanned, parks, parked, drawn[x])
    ensures forall x :: x in kept <==> x in pending && !Passes(scanned, parks, parked, drawn[x])
  {
    hide CpuStays, ParkStays, Once, Passes;
    PendingKnown(pending, drawn, at, released, now, generation);
    ReleasedOnce(pending, kept, ready, drawn, oldest, at, released, now, generation);
    FewerPending(cpus, since, parks, parked, parkSince, now, generation, pending, kept, drawn, at);
  }

  // No object the walk would release can still be seen by somebody inside.
  ghost predicate WalkIsSafe(scanned: int, cpus: seq<Quiescence>, since: seq<int>, parks: map<Ref, Park>, parked: seq<Ref>,
                             parkSince: map<Ref, int>, pending: seq<Ref>, drawn: map<Ref, int>, at: map<Ref, int>)
  {
    forall x :: x in pending && x in drawn && x in at && Passes(scanned, parks, parked, drawn[x]) ==>
      !OlderInside(cpus, since, parked, parkSince, at[x])
  }

  // When the objects of `s` that somebody inside may still see were handed over.
  ghost function Early(s: seq<Ref>, cpus: seq<Quiescence>, since: seq<int>, parked: seq<Ref>, parkSince: map<Ref, int>, at: map<Ref, int>): seq<int> {
    if s == [] then []
    else
      Early(s[..|s| - 1], cpus, since, parked, parkSince, at) +
      var x := s[|s| - 1]; if x in at && OlderInside(cpus, since, parked, parkSince, at[x]) then [at[x]] else []
  }

  lemma {:induction false} EarlyNone(s: seq<Ref>, cpus: seq<Quiescence>, since: seq<int>, parked: seq<Ref>, parkSince: map<Ref, int>, at: map<Ref, int>)
    ensures Early(s, cpus, since, parked, parkSince, at) == [] <==>
            forall x :: x in s && x in at ==> !OlderInside(cpus, since, parked, parkSince, at[x])
  {
    if s != [] {
      var init, x := s[..|s| - 1], s[|s| - 1];
      hide OlderInside;
      EarlyNone(init, cpus, since, parked, parkSince, at);
      assert forall y :: y in s <==> y in init || y == x;
    }
  }

  // What a walk had before it: the scan, and the state at that moment.
  datatype Moment = Moment(scanned: int, cpus: seq<Quiescence>, parks: map<Ref, Park>, parked: seq<Ref>, pending: seq<Ref>, drawn: map<Ref, int>)

  // A second scan at that moment would let through what the first one does.
  ghost predicate Confirmed(m: Moment) {
    forall again, x :: Least(m.cpus, |m.cpus|, again) && x in m.pending && x in m.drawn && Passes(m.scanned, m.parks, m.parked, m.drawn[x]) ==>
      m.drawn[x] <= again
  }

  ghost predicate AllConfirmed(ms: seq<Moment>) {
    forall i :: 0 <= i < |ms| ==> Confirmed(ms[i])
  }

  lemma ConfirmedMore(ms: seq<Moment>, m: Moment)
    ensures AllConfirmed(ms + [m]) <==> AllConfirmed(ms) && Confirmed(m)
  {
    var u := ms + [m];
    assert u[|ms|] == m;
    assert forall i :: 0 <= i < |ms| ==> u[i] == ms[i];
  }

  // A walk is safe exactly when a second scan, made now, would let through every
  // object that the first one and the parked contexts do.
  lemma SafeIffConfirmed(scanned: int, again: int, cpus: seq<Quiescence>, since: seq<int>, parks: map<Ref, Park>, parked: seq<Ref>,
                         parkSince: map<Ref, int>, now: int, generation: int,
                         pending: seq<Ref>, drawn: map<Ref, int>, at: map<Ref, int>, released: seq<int>)
    requires CpuStays(cpus, since, now, generation, pending, drawn, at) && generation <= UINT64_MAX
    requires ParkStays(parks, parked, parkSince, now, generation, pending, drawn, at)
    requires Once(pending, drawn, at, released, now, generation) && Least(cpus, |cpus|, again)
    ensures WalkIsSafe(scanned, cpus, since, parks, parked, parkSince, pending, drawn, at) <==>
            forall x :: x in pending && x in drawn && Passes(scanned, parks, parked, drawn[x]) ==> drawn[x] <= again
  {
    hide CpuStays, ParkStays, Once, OlderInside, Least, CpusFrom;
    PendingKnown(pending, drawn, at, released, now, generation);
    forall x | x in pending && Passes(scanned, parks, parked, drawn[x])
      ensures drawn[x] <= again <==> !OlderInside(cpus, since, parked, parkSince, at[x])
    {
      TestIsExact(cpus, since, parks, parked, parkSince, now, generation, pending, drawn, at, x);
      LeastDecides(cpus, parks, parked, again, drawn[x]);
    }
  }

  lemma NoneToConfirm()
    ensures AllConfirmed([])
  {
  }

  // What a walk releases is early for somebody exactly when the walk is not confirmed.
  lemma WalkJudged(scanned: int, cpus: seq<Quiescence>, since: seq<int>, parks: map<Ref, Park>, parked: seq<Ref>,
                   parkSince: map<Ref, int>, now: int, generation: int,
                   pending: seq<Ref>, drawn: map<Ref, int>, at: map<Ref, int>, released: seq<int>, ready: seq<Ref>)
    requires CpuStays(cpus, since, now, generation, pending, drawn, at) && generation <= UINT64_MAX
    requires ParkStays(parks, parked, parkSince, now, generation, pending, drawn, at)
    requires Once(pending, drawn, at, released, now, generation)
    requires forall x :: x in pending ==> x in drawn && x in at
    requires forall x :: x in ready <==> x in pending && Passes(scanned, parks, parked, drawn[x])
    ensures Early(ready, cpus, since, parked, parkSince, at) == [] <==> Confirmed(Moment(scanned, cpus, parks, parked, pending, drawn))
  {
    hide CpuStays, ParkStays, Once, OlderInside, Least, Early, Passes;
    EarlyNone(ready, cpus, since, parked, parkSince, at);
    var m := Moment(scanned, cpus, parks, parked, pending, drawn);
    var again := SecondScan(cpus);
    SafeIffConfirmed(scanned, again, cpus, since, parks, parked, parkSince, now, generation, pending, drawn, at, released);
    forall other, x | Least(cpus, |cpus|, other) && x in pending && Passes(scanned, parks, parked, drawn[x])
      ensures drawn[x] <= other <==> drawn[x] <= again
    {
      PendingKnown(pending, drawn, at, released, now, generation);
      LeastDecides(cpus, parks, parked, other, drawn[x]);
      LeastDecides(cpus, parks, parked, again, drawn[x]);
    }
  }

  // There is always a least generation.
  lemma SecondScan(cpus: seq<Quiescence>) returns (again: int)
    ensures Least(cpus, |cpus|, again)
  {
    hide Least;
    again := UINT64_MAX;
    LeastNothing(cpus);
    for c := 0 to |cpus|
      invariant Least(cpus, c, again)
    {
      LeastCpu(cpus, c, again);
      if cpus[c].depth > 0 && cpus[c].entered < again {
        again := cpus[c].entered;
      }
    }
  }

  // A hand-over after every stay: the clock and the counter both put it last.
  lemma OneMorePending(cpus: seq<Quiescence>, since: seq<int>, parks: map<Ref, Park>, parked: seq<Ref>, parkSince: map<Ref, int>,
                       now: int, generation: int, pending: seq<Ref>, drawn: map<Ref, int>, at: map<Ref, int>, released: seq<int>, x: Ref)
    requires CpuStays(cpus, since, now, generation, pending, drawn, at)
    requires ParkStays(parks, parked, parkSince, now, generation, pending, drawn, at)
    requires Once(pending, drawn, at, released, now, generation) && x !in pending
    ensures CpuStays(cpus, since, now + 1, generation + 1, [x] + pending, drawn[x := generation + 1], at[x := now + 1])
    ensures ParkStays(parks, parked, parkSince, now + 1, generation + 1, [x] + pending, drawn[x := generation + 1], at[x := now + 1])
    ensures Once([x] + pending, drawn[x := generation + 1], at[x := now + 1], released, now + 1, generation + 1)
  {
    var pending', drawn', at' := [x] + pending, drawn[x := generation + 1], at[x := now + 1];
    forall since1, entered | since1 <= now && entered <= generation && Stay(since1, entered, pending, drawn, at)
      ensures Stay(since1, entered, pending', drawn', at')
    {
      assert forall y :: y in pending ==> Tied(since1, entered, at[y], drawn[y]);
    }
  }

  // A stay that begins now is after every hand-over.
  lemma FreshStay(pending: seq<Ref>, drawn: map<Ref, int>, at: map<Ref, int>, released: seq<int>, now: int, generation: int)
    requires Once(pending, drawn, at, released, now, generation)
    ensures Stay(now + 1, generation, pending, drawn, at)
  {
  }

  lemma Later(cpus: seq<Quiescence>, since: seq<int>, parks: map<Ref, Park>, parked: seq<Ref>, parkSince: map<Ref, int>,
              now: int, generation: int, pending: seq<Ref>, drawn: map<Ref, int>, at: map<Ref, int>, released: seq<int>)
    requires CpuStays(cpus, since, now, generation, pending, drawn, at)
    requires ParkStays(parks, parked, parkSince, now, generation, pending, drawn, at)
    requires Once(pending, drawn, at, released, now, generation)
    ensures CpuStays(cpus, since, now + 1, generation, pending, drawn, at)
    ensures ParkStays(parks, parked, parkSince, now + 1, generation, pending, drawn, at)
    ensures Once(pending, drawn, at, released, now + 1, generation)
  {
  }

  // One CPU's entry changes; whoever it is now has a stay in order.
  lemma CpuChange(cpus: seq<Quiescence>, since: seq<int>, now: int, generation: int,
                  pending: seq<Ref>, drawn: map<Ref, int>, at: map<Ref, int>, c: int, q: Quiescence, start: int)
    requires CpuStays(cpus, since, now, generation, pending, drawn, at) && 0 <= c < |cpus|
    requires q.depth > 0 ==> q.online && start <= now && q.entered <= generation && Stay(start, q.entered, pending, drawn, at)
    ensures CpuStays(cpus[c := q], since[c := start], now, generation, pending, drawn, at)
  {
  }

  lemma ParkAdd(parks: map<Ref, Park>, parked: seq<Ref>, since: map<Ref, int>, now: int, generation: int,
                pending: seq<Ref>, drawn: map<Ref, int>, at: map<Ref, int>, p: Ref, q: Park, start: int)
    requires ParkStays(parks, parked, since, now, generation, pending, drawn, at) && (p in parks ==> !parks[p].listed)
    requires q.listed <==> q.depth > 0
    requires q.listed ==> start <= now && q.entered <= generation && Stay(start, q.entered, pending, drawn, at)
    ensures ParkStays(parks[p := q], if q.listed then [p] + parked else parked, since[p := start], now, generation, pending, drawn, at)
  {
    assert p !in parked;
  }

  lemma NotParked(parks: map<Ref, Park>, parked: seq<Ref>, since: map<Ref, int>, now: int, generation: int,
                  pending: seq<Ref>, drawn: map<Ref, int>, at: map<Ref, int>, p: Ref)
    requires ParkStays(parks, parked, since, now, generation, pending, drawn, at) && (p in parks ==> !parks[p].listed)
    ensures p !in parked
  {
  }

  lemma ParkDrop(parks: map<Ref, Park>, parked: seq<Ref>, since: map<Ref, int>, now: int, generation: int,
                 pending: seq<Ref>, drawn: map<Ref, int>, at: map<Ref, int>, p: Ref)
    requires ParkStays(parks, parked, since, now, generation, pending, drawn, at) && p in parks && parks[p].listed
    ensures p in since && since[p] <= now && parks[p].entered <= generation && Stay(since[p], parks[p].entered, pending, drawn, at)
    ensures ParkStays(parks[p := parks[p].(listed := false)], Without(parked, p), since, now, generation, pending, drawn, at)
  {
    assert p in parked;
  }

  datatype Step =
    | Enter
    | Leave
    | Suspend(p: Ref)
    | Resume(p: Ref)
    | Reset(depth: nat)
    | HandOver(x: Ref)
    | Poll
    | Scan
    | Walk
    | Online

  class Collector {
    var cpus: seq<Quiescence>
    var generation: int
    var pending: seq<Ref>
    var drawn: map<Ref, int>
    var pendingCount: int
    var parks: map<Ref, Park>
    var parked: seq<Ref>

    ghost var now: int
    ghost var since: seq<int>
    ghost var parkSince: map<Ref, int>
    ghost var at: map<Ref, int>
    ghost var released: seq<int>
    ghost var early: seq<int>

    ghost predicate Valid()
      reads this
    {
      && CpuStays(cpus, since, now, generation, pending, drawn, at)
      && ParkStays(parks, parked, parkSince, now, generation, pending, drawn, at)
      && Once(pending, drawn, at, released, now, generation)
      && pendingCount == |pending| && 1 <= generation <= UINT64_MAX
    }

    constructor ()
      ensures Valid() && pending == [] && released == [] && early == [] && generation == 1 && now == 0 && parks == map[] && parked == []
      ensures |cpus| == |since| == SMP_MAX_CPUS && forall c :: 0 <= c < SMP_MAX_CPUS ==> cpus[c].depth == 0
    {
      cpus := seq(SMP_MAX_CPUS, _ => Quiescence(0, 0, false));
      generation, pending, drawn, pendingCount, parks, parked := 1, [], map[], 0, map[], [];
      now, since, parkSince, at, released, early := 0, seq(SMP_MAX_CPUS, _ => 0), map[], map[], [], [];
    }

    method MarkOnline(c: int)
      requires Valid() && 0 <= c < SMP_MAX_CPUS
      modifies this`cpus
      ensures Valid() && cpus == old(cpus)[c := old(cpus[c]).(online := true)]
    {
      hide Stay, ParkStays, Once;
      assert since == since[c := since[c]];
      CpuChange(cpus, since, now, generation, pending, drawn, at, c, cpus[c].(online := true), since[c]);
      cpus := cpus[c := cpus[c].(online := true)];
    }

    // Only the outermost entry starts a stay.
    method Enter(c: int)
      requires Valid() && 0 <= c < SMP_MAX_CPUS && cpus[c].online
      modifies this`cpus, this`now, this`since
      ensures Valid() && now == old(now) + 1
      ensures old(cpus[c].depth) == 0 ==> cpus == old(cpus)[c := Quiescence(1, generation, true)] && since == old(since)[c := now]
      ensures old(cpus[c].depth) > 0 ==> cpus == old(cpus)[c := old(cpus[c]).(depth := old(cpus[c].depth) + 1)] && since == old(since)
    {
      hide Stay, ParkStays, Once;
      FreshStay(pending, drawn, at, released, now, generation);
      Later(cpus, since, parks, parked, parkSince, now, generation, pending, drawn, at, released);
      now := now + 1;
      ghost var was := cpus;
      var depth := cpus[c].depth;
      cpus := cpus[c := cpus[c].(depth := depth + 1)];
      if depth > 0 {
        assert since == since[c := since[c]];
        CpuChange(was, since, now, generation, pending, drawn, at, c, cpus[c], since[c]);
        return;
      }
      cpus := cpus[c := cpus[c].(entered := generation)];
      since := since[c := now];
      assert cpus == was[c := cpus[c]];
      CpuChange(was, old(since), now, generation, pending, drawn, at, c, cpus[c], now);
    }

    method Leave(c: int)
      requires Valid() && 0 <= c < SMP_MAX_CPUS
      modifies this`cpus
      ensures Valid()
      ensures var d := old(cpus[c].depth); cpus == old(cpus)[c := old(cpus[c]).(depth := if d == 0 then 0 else d - 1)]
    {
      hide Stay, ParkStays, Once;
      if cpus[c].depth == 0 {
        return;
      }
      assert since == since[c := since[c]];
      CpuChange(cpus, since, now, generation, pending, drawn, at, c, cpus[c].(depth := cpus[c].depth - 1), since[c]);
      cpus := cpus[c := cpus[c].(depth := cpus[c].depth - 1)];
    }

    // The stay moves from the CPU to the suspended context.
    method Suspend(c: int, p: Ref)
      requires Valid() && 0 <= c < SMP_MAX_CPUS && (p in parks ==> !parks[p].listed)
      modifies this`cpus, this`parks, this`parked, this`parkSince
      ensures Valid() && cpus == old(cpus)[c := old(cpus[c]).(depth := 0)]
      ensures var q := old(cpus[c]);
              && parks == old(parks)[p := Park(q.depth, q.entered, q.depth > 0)]
              && parked == (if q.depth > 0 then [p] + old(parked) else old(parked))
              && parkSince == old(parkSince)[p := old(since[c])]
    {
      hide Stay, ParkStays, Once;
      var q := cpus[c];
      ParkAdd(parks, parked, parkSince, now, generation, pending, drawn, at, p, Park(q.depth, q.entered, q.depth > 0), since[c]);
      CpuChange(cpus, since, now, generation, pending, drawn, at, c, q.(depth := 0), since[c]);
      assert since == since[c := since[c]];
      parkSince := parkSince[p := since[c]];
      parks := parks[p := Park(q.depth, q.entered, false)];
      if q.depth > 0 {
        parked := [p] + parked;
        parks := parks[p := parks[p].(listed := true)];
      }
      cpus := cpus[c := q.(depth := 0)];
      assert parks == old(parks)[p := Park(q.depth, q.entered, q.depth > 0)];
    }

    // ... and from there to whichever CPU resumes it.
    method Resume(c: int, p: Ref)
      requires Valid() && 0 <= c < SMP_MAX_CPUS && cpus[c].online
      requires p in parks && (parks[p].listed || parks[p].depth == 0)
      modifies this`cpus, this`parks, this`parked, this`since
      ensures Valid()
      ensures cpus == old(cpus)[c := Quiescence(old(parks[p].depth), old(parks[p].entered), true)]
      ensures old(parks[p].listed) ==> p in parkSince && since == old(since)[c := parkSince[p]]
      ensures parks == old(parks)[p := old(parks[p]).(listed := false)]
      ensures forall r :: r in parked <==> r in old(parked) && r != p
    {
      hide Stay, ParkStays, Once;
      if parks[p].listed {
        ParkDrop(parks, parked, parkSince, now, generation, pending, drawn, at, p);
      } else {
        NotParked(parks, parked, parkSince, now, generation, pending, drawn, at, p);
      }
      var q := Quiescence(parks[p].depth, parks[p].entered, true);
      ghost var start := if parks[p].listed then parkSince[p] else since[c];
      CpuChange(cpus, since, now, generation, pending, drawn, at, c, q, start);
      cpus := cpus[c := cpus[c].(entered := parks[p].entered)];
      cpus := cpus[c := cpus[c].(depth := parks[p].depth)];
      since := since[c := start];
      if !parks[p].listed {
        assert parks[p := parks[p].(listed := false)] == parks;
        return;
      }
      parked := Without(parked, p);
      parks := parks[p := parks[p].(listed := false)];
    }

    // The CPU abandons its context and starts a new stay, or none.
    method Reset(c: int, depth: nat)
      requires Valid() && 0 <= c < SMP_MAX_CPUS && cpus[c].online
      modifies this`cpus, this`now, this`since
      ensures Valid() && now == old(now) + 1
      ensures cpus == old(cpus)[c := Quiescence(depth, if depth == 0 then old(cpus[c].entered) else generation, true)]
      ensures depth > 0 ==> since == old(since)[c := now]
    {
      hide Stay, ParkStays, Once;
      FreshStay(pending, drawn, at, released, now, generation);
      Later(cpus, since, parks, parked, parkSince, now, generation, pending, drawn, at, released);
      now := now + 1;
      ghost var was := cpus;
      if depth == 0 {
        assert since == since[c := since[c]];
        CpuChange(was, since, now, generation, pending, drawn, at, c, cpus[c].(depth := 0), since[c]);
        cpus := cpus[c := cpus[c].(depth := 0)];
        return;
      }
      cpus := cpus[c := cpus[c].(entered := generation)];
      cpus := cpus[c := cpus[c].(depth := depth)];
      since := since[c := now];
      assert cpus == was[c := cpus[c]];
      CpuChange(was, old(since), now, generation, pending, drawn, at, c, cpus[c], now);
    }

    // defer_release: the object joins the pending list under a new generation.
    method HandOver(x: Ref)
      requires Valid() && x !in pending && generation < UINT64_MAX
      modifies this
      ensures Valid() && cpus == old(cpus) && since == old(since) && parks == old(parks) && parked == old(parked) && parkSince == old(parkSince)
      ensures early == old(early) && pending == [x] + old(pending) && released == old(released) && drawn == old(drawn)[x := generation]
      ensures now == old(now) + 1 && at == old(at)[x := now] && generation == old(generation) + 1
    {
      hide CpuStays, ParkStays, Once;
      OneMorePending(cpus, since, parks, parked, parkSince, now, generation, pending, drawn, at, released, x);
      generation := generation + 1;
      drawn := drawn[x := generation];
      pending := [x] + pending;
      pendingCount := pendingCount + 1;
      now := now + 1;
      at := at[x := now];
    }

    // The least generation a CPU inside the kernel has read.
    method OldestInKernel() returns (oldest: int)
      requires Valid()
      ensures Least(cpus, |cpus|, oldest)
    {
      hide CpuStays, ParkStays, Once, Least;
      OnlyOnline(cpus, since, now, generation, pending, drawn, at);
      LeastNothing(cpus);
      oldest := UINT64_MAX;
      for c := 0 to SMP_MAX_CPUS
        invariant Least(cpus, c, oldest)
      {
        LeastCpu(cpus, c, oldest);
        if !cpus[c].online || cpus[c].depth == 0 {
          continue;
        }
        if cpus[c].entered < oldest {
          oldest := cpus[c].entered;
        }
      }
    }

    method OldestParked(scanned: int) returns (oldest: int)
      requires Valid()
      ensures Bound(scanned, parks, parked, oldest)
    {
      hide Stay, CpuStays, ParkStays, Once, Passes, Bound;
      ParkedKnown(parks, parked, parkSince, now, generation, pending, drawn, at);
      oldest := scanned;
      BoundStart(scanned, parks);
      assert parked[..0] == [];
      for i := 0 to |parked|
        invariant Bound(scanned, parks, parked[..i], oldest)
      {
        BoundNext(scanned, parks, parked, i, oldest);
        if parks[parked[i]].entered < oldest {
          oldest := parks[parked[i]].entered;
        }
      }
      assert parked[..|parked|] == parked;
    }

    // The second half of a poll, under the lock: `scanned` is what the scan of the CPUs
    // gave, whenever it was made.  Released are the objects handed over no later than
    // that and no later than any parked context entered.
    method Walk(scanned: int) returns (ready: seq<Ref>)
      requires Valid()
      modifies this`pending, this`pendingCount, this`released, this`early
      ensures Valid() && NoRepeats(ready)
      ensures forall x :: x in old(pending) ==> x in at && x in drawn
      ensures forall x :: x in ready <==> x in old(pending) && Passes(scanned, parks, parked, drawn[x])
      ensures forall x :: x in pending <==> x in old(pending) && !Passes(scanned, parks, parked, drawn[x])
      ensures forall x :: x in ready ==> at[x] !in old(released)
      ensures (forall i :: 0 <= i < |ready| ==> ready[i] in at) && released == old(released) + Times(ready, at)
      ensures early == old(early) + Early(ready, cpus, since, parked, parkSince, at)
      ensures early == old(early) <==> Confirmed(Moment(scanned, cpus, parks, parked, old(pending), drawn))
    {
      hide Stay, CpuStays, ParkStays, Once, Split, Passes, Bound, Early, OlderInside, Confirmed, Least;
      PendingKnown(pending, drawn, at, released, now, generation);
      var oldest := OldestParked(scanned);
      var kept := [];
      ready := [];
      var all, stamps := pending, drawn;
      NothingSplit(stamps, oldest);
      assert all[..0] == [];
      for i := 0 to |all|
        invariant Split(all[..i], kept, ready, stamps, oldest)
        invariant pendingCount == |all| - |ready|
        invariant pending == all && released == old(released) && early == old(early)
      {
        SplitNext(all, i, kept, ready, stamps, oldest);
        if stamps[all[i]] <= oldest {
          ready := [all[i]] + ready;
          pendingCount := pendingCount - 1;
        } else {
          kept := kept + [all[i]];
        }
      }
      assert all[..|all|] == all;
      Swept(cpus, since, parks, parked, parkSince, now, generation, all, stamps, at, released, kept, ready, scanned, oldest);
      WalkJudged(scanned, cpus, since, parks, parked, parkSince, now, generation, all, stamps, at, released, ready);
      early := early + Early(ready, cpus, since, parked, parkSince, at);
      pending := kept;
      released := released + Times(ready, at);
    }

    // A poll that nothing comes between: exactly the objects nobody inside could still
    // see are released.
    method Poll() returns (ready: seq<Ref>)
      requires Valid()
      modifies this`pending, this`pendingCount, this`released, this`early
      ensures Valid() && NoRepeats(ready)
      ensures forall x :: x in old(pending) ==> x in at
      ensures forall x :: x in ready <==> x in old(pending) && !OlderInside(cpus, since, parked, parkSince, at[x])
      ensures forall x :: x in pending <==> x in old(pending) && OlderInside(cpus, since, parked, parkSince, at[x])
      ensures forall x :: x in ready ==> at[x] !in old(released)
      ensures (forall i :: 0 <= i < |ready| ==> ready[i] in at) && released == old(released) + Times(ready, at)
      ensures early == old(early)
    {
      hide Stay, CpuStays, ParkStays, Once, OlderInside, Passes, Least, Early, Confirmed;
      PendingKnown(pending, drawn, at, released, now, generation);
      ready := [];
      if pendingCount == 0 {
        return;
      }
      var scanned := OldestInKernel();
      forall x | x in pending ensures Passes(scanned, parks, parked, drawn[x]) <==> !OlderInside(cpus, since, parked, parkSince, at[x]) {
        TestIsExact(cpus, since, parks, parked, parkSince, now, generation, pending, drawn, at, x);
        LeastDecides(cpus, parks, parked, scanned, drawn[x]);
      }
      ready := Walk(scanned);
      EarlyNone(ready, cpus, since, parked, parkSince, at);
    }

    predicate Enabled(c: int, step: Step)
      reads this
    {
      && 0 <= c < SMP_MAX_CPUS && |cpus| == SMP_MAX_CPUS && (cpus[c].online || step.Online?)
      && match step
         case Suspend(p) => p in parks ==> !parks[p].listed
         case Resume(p) => p in parks && (parks[p].listed || parks[p].depth == 0)
         case HandOver(x) => x !in pending && generation < UINT64_MAX
         case _ => true
    }

    // Every run of the steps, in any interleaving, keeps all of it; a walk uses the scan
    // its CPU made last.  Nothing is released while a context that entered before its
    // hand-over is inside, exactly when every walk is confirmed at its moment.
    method Run(schedule: seq<(int, Step)>) returns (ghost walks: seq<Moment>)
      requires Valid()
      modifies this
      ensures Valid() && pendingCount == |pending| && old(released) <= released && NoRepeats(released)
      ensures |walks| <= |schedule| && old(early) <= early && (early == old(early) <==> AllConfirmed(walks))
    {
      hide Stay, CpuStays, ParkStays, Once, Least, Passes, OlderInside, Confirmed, AllConfirmed, Early;
      var scans: map<int, int> := map[];
      walks := [];
      NoneToConfirm();
      for i := 0 to |schedule|
        invariant Valid() && old(released) <= released && old(early) <= early
        invariant |walks| <= i && (early == old(early) <==> AllConfirmed(walks))
      {
        var (c, step) := schedule[i];
        if Enabled(c, step) {
          match step {
            case Enter => Enter(c);
            case Leave => Leave(c);
            case Suspend(p) => Suspend(c, p);
            case Resume(p) => Resume(c, p);
            case Reset(depth) => Reset(c, depth);
            case HandOver(x) => HandOver(x);
            case Poll => var ready := Poll();
            case Scan => if pendingCount != 0 {
              var scanned := OldestInKernel();
              scans := scans[c := scanned];
            }
            case Walk => if c in scans {
              ghost var m := Moment(scans[c], cpus, parks, parked, pending, drawn);
              var ready := Walk(scans[c]);
              ConfirmedMore(walks, m);
              walks := walks + [m];
            }
            case Online => MarkOnline(c);
          }
        }
      }
      OnceReleased(pending, drawn, at, released, now, generation);
    }
  }

  // CPU 0 scans and walks; CPU 1 comes between.  Object 7 is released although CPU 1
  // has been inside since before it was handed over.
  ghost predicate ReleasedTooSoon(d: Collector, ready: seq<Ref>)
    reads d
  {
    7 in ready && 7 in d.at && OlderInside(d.cpus, d.since, d.parked, d.parkSince, d.at[7])
  }

  // A context entered, was suspended, and object 7 was handed over.
  method SuspendedBefore() returns (d: Collector)
    ensures fresh(d) && d.Valid() && |d.cpus| == |d.since| == SMP_MAX_CPUS && d.cpus[1].online
    ensures d.parked == [5] && 5 in d.parkSince && d.parkSince[5] == 1 && 5 in d.parks && d.parks[5] == Park(1, 1, true)
    ensures 7 in d.pending && 7 in d.at && d.at[7] == 2 && 7 in d.drawn && d.drawn[7] == 2
    ensures forall c :: 0 <= c < |d.cpus| ==> d.cpus[c].depth == 0
  {
    hide CpuStays, ParkStays, Once, Stay, Least, Early, Confirmed;
    d := new Collector();
    d.MarkOnline(0);
    d.MarkOnline(1);
    d.Enter(1);
    assert d.now == 1 && d.since[1] == 1;
    d.Suspend(1, 5);
    assert d.parked == [5] && d.parkSince[5] == 1 && d.parks[5] == Park(1, 1, true);
    d.HandOver(7);
  }

  // A context that is resumed between the scan and the walk, on a CPU the scan has
  // passed, is counted by neither.
  method ResumedBetween() returns (d: Collector, ready: seq<Ref>)
    ensures d.Valid() && ReleasedTooSoon(d, ready)
  {
    hide CpuStays, ParkStays, Once, Stay, Least, Early, Confirmed;
    d := SuspendedBefore();
    var scanned := d.OldestInKernel();
    LeastOfNone(d.cpus, scanned);
    d.Resume(1, 5);
    assert forall r :: r !in d.parked;
    assert d.cpus[1].depth > 0 && d.since[1] < d.at[7];
    ready := d.Walk(scanned);
    assert d.cpus[1].depth > 0 && d.since[1] < d.at[7];
  }

  // A context that enters between the two, before the object is handed over, is not
  // counted either.
  method EnteredBetween() returns (d: Collector, ready: seq<Ref>)
    ensures d.Valid() && ReleasedTooSoon(d, ready)
  {
    hide CpuStays, ParkStays, Once, Stay, Least, Early, Confirmed;
    d := new Collector();
    d.MarkOnline(0);
    d.MarkOnline(1);
    d.HandOver(8);
    assert forall c :: 0 <= c < |d.cpus| ==> d.cpus[c].depth == 0;
    var scanned := d.OldestInKernel();
    LeastOfNone(d.cpus, scanned);
    d.Enter(1);
    assert d.since[1] == 2 && d.parked == [];
    d.HandOver(7);
    assert d.at[7] == 3 && d.drawn[7] == 3;
    ready := d.Walk(scanned);
    assert d.cpus[1].depth > 0 && d.since[1] < d.at[7];
  }
}
