/**
 Sleeping and waking (kernel/core/process.c: the wait hash, `wake_bump`,
 `wake_missed`, `process_note_syscall_entry`, `process_sleep_on`,
 `process_futex_wait`, `process_wake_all`, `process_wake_one`,
 `process_futex_wake`).

 Every method is one step under the scheduler lock; the snapshot at system call
 entry is a step of its own.  The counter is not bounded here.  A bucket is the
 sequence of the processes linked into it.
 */
module WakeSequence {
  import opened Errno
  import opened Lists
  import opened Words

  const WAIT_BUCKETS: int := 1024
  const GOLDEN: int := 0x9E37_79B9_7F4A_7C15

  // The top ten bits of a 64-bit product.
  function BucketOf(value: int): (b: int)
    ensures 0 <= b < WAIT_BUCKETS
  {
    value * GOLDEN % 0x1_0000_0000_0000_0000 / 0x40_0000_0000_0000
  }

  // What a sleeper asked for, told apart from the fields that earlier sleeps left behind.
  datatype Reason =
    | Nothing
    | OnChannel(channel: int)
    | OnFutex(memory: int, address: int, key: int, bitset: U32)

  datatype Sleeper = Sleeper(
    blocked: bool, snapshot: int, memory: int, channel: int,
    futex: bool, address: int, key: int, bitset: U32, ghost reason: Reason)

  type Table = map<Ref, Sleeper>

  // A wake under the lock.  `complete` tells that the limit was not reached.
  datatype Event =
    | Other
    | WakeAllOn(channel: int)
    | WakeFutex(memory: int, address: int, key: int, bitset: U32, complete: bool)

  // The sleeper is one the wake is for.
  ghost predicate Meant(e: Event, r: Reason) {
    match e
    case Other => false
    case WakeAllOn(channel) => r == OnChannel(channel)
    case WakeFutex(memory, address, key, bitset, complete) =>
      && complete && r.OnFutex? && And(r.bitset, bitset) != 0
      && ((key != 0 && r.key == key) || (r.memory == memory && r.address == address))
  }

  // ---------------------------------------------------------------------------
  // The hash
  // ---------------------------------------------------------------------------

  // `listed` is who is linked, and under which value.
  ghost predicate Hashed(listed: map<Ref, int>, buckets: seq<seq<Ref>>) {
    && |buckets| == WAIT_BUCKETS
    && (forall b :: 0 <= b < WAIT_BUCKETS ==> NoRepeats(buckets[b]))
    && (forall b, p :: 0 <= b < WAIT_BUCKETS && p in buckets[b] ==> p in listed && BucketOf(listed[p]) == b)
    && (forall p :: p in listed ==> p in buckets[BucketOf(listed[p])])
  }

  function Dropped(listed: map<Ref, int>, p: Ref): map<Ref, int> {
    map q | q in listed && q != p :: listed[q]
  }

  lemma HashedAdd(listed: map<Ref, int>, buckets: seq<seq<Ref>>, p: Ref, value: int)
    requires Hashed(listed, buckets) && p !in listed
    ensures |buckets| == WAIT_BUCKETS
    ensures var b := BucketOf(value); Hashed(listed[p := value], buckets[b := [p] + buckets[b]])
  {
    var b := BucketOf(value);
    var u := [p] + buckets[b];
    forall q ensures q in u <==> q == p || q in buckets[b] {
    }
    assert p !in buckets[b];
  }

  lemma HashedDrop(listed: map<Ref, int>, buckets: seq<seq<Ref>>, p: Ref)
    requires Hashed(listed, buckets) && p in listed
    ensures |buckets| == WAIT_BUCKETS
    ensures var b := BucketOf(listed[p]); Hashed(Dropped(listed, p), buckets[b := Without(buckets[b], p)])
  {
    hide BucketOf;
  }

  lemma HashedFind(listed: map<Ref, int>, buckets: seq<seq<Ref>>, p: Ref)
    requires Hashed(listed, buckets) && p in listed
    ensures |buckets| == WAIT_BUCKETS && p in buckets[BucketOf(listed[p])]
  {
  }

  // ---------------------------------------------------------------------------
  // What holds of every process
  // ---------------------------------------------------------------------------

  // A sleeper can be found by what it waits for; a process that runs is not linked.
  ghost predicate Findable(s: Sleeper, p: Ref, waiting: map<Ref, int>, keyed: map<Ref, int>) {
    && (!s.blocked ==> p !in waiting && p !in keyed)
    && (s.blocked ==> match s.reason
          case Nothing => true
          case OnChannel(channel) => s.channel == channel && p in waiting && waiting[p] == channel
          case OnFutex(memory, address, key, bitset) =>
            && s.futex && s.memory == memory && s.address == address && s.key == key && s.bitset == bitset
            && p in waiting && waiting[p] == address && (key != 0 ==> p in keyed && keyed[p] == key))
  }

  ghost predicate AllFindable(procs: Table, waiting: map<Ref, int>, keyed: map<Ref, int>) {
    && (forall p :: p in procs ==> Findable(procs[p], p, waiting, keyed))
    && (forall p :: p in waiting || p in keyed ==> p in procs)
  }

  // Nobody sleeps through a wake that came after it entered the system call.
  ghost predicate Missed(s: Sleeper, log: seq<Event>) {
    exists k :: s.snapshot <= k < |log| && 0 <= k && Meant(log[k], s.reason)
  }

  ghost predicate NoneLost(procs: Table, log: seq<Event>) {
    forall p :: p in procs ==> 0 <= procs[p].snapshot <= |log| && (procs[p].blocked ==> !Missed(procs[p], log))
  }

  // Some processes stop sleeping; the others sleep as before.
  ghost predicate Roused(procs: Table, procs': Table) {
    && procs'.Keys == procs.Keys
    && forall p :: p in procs ==> procs'[p] == procs[p] || (!procs'[p].blocked && procs'[p].snapshot == procs[p].snapshot)
  }

  // A sleeper once it is woken from a channel, or from a futex.
  function Awake(s: Sleeper, futex: bool): Sleeper {
    if futex then s.(blocked := false, futex := false, address := 0, key := 0) else s.(blocked := false, channel := 0)
  }

  // Those in `who` are woken, and nobody else.
  ghost function Woken(procs: Table, who: set<Ref>, futex: bool): Table {
    map p | p in procs :: if p in who then Awake(procs[p], futex) else procs[p]
  }

  lemma WokenNone(procs: Table, futex: bool)
    ensures Woken(procs, {}, futex) == procs
  {
  }

  lemma WokenMore(procs: Table, who: set<Ref>, futex: bool, p: Ref)
    requires p in procs && Woken(procs, who, futex)[p].blocked
    ensures p !in who && |who + {p}| == |who| + 1 && Woken(procs, who, futex)[p] == procs[p]
    ensures Woken(procs, who + {p}, futex) == Woken(procs, who, futex)[p := Awake(procs[p], futex)]
    ensures Roused(Woken(procs, who, futex), Woken(procs, who + {p}, futex))
  {
  }

  lemma WokenRoused(procs: Table, who: set<Ref>, futex: bool)
    ensures Roused(procs, Woken(procs, who, futex))
  {
  }

  lemma WokenTwice(procs: Table, who: set<Ref>, more: set<Ref>, futex: bool)
    requires forall p :: p in more ==> p in procs && Woken(procs, who, futex)[p].blocked
    ensures Woken(Woken(procs, who, futex), more, futex) == Woken(procs, who + more, futex)
    ensures |who + more| == |who| + |more| && forall p :: p in more ==> Woken(procs, who, futex)[p] == procs[p]
  {
    forall p | p in more ensures p !in who {
      var s := Woken(procs, who, futex)[p];
      assert s.blocked;
    }
    var a, b := Woken(Woken(procs, who, futex), more, futex), Woken(procs, who + more, futex);
    assert a.Keys == b.Keys && forall p :: p in a ==> a[p] == b[p];
    assert who !! more;
  }

  lemma RousedLost(procs: Table, procs': Table, log: seq<Event>)
    requires NoneLost(procs, log) && Roused(procs, procs')
    ensures NoneLost(procs', log)
  {
  }

  // A wake that leaves nobody it is meant for asleep loses nothing.
  lemma LogMore(procs: Table, log: seq<Event>, e: Event)
    requires NoneLost(procs, log) && forall p :: p in procs && procs[p].blocked ==> !Meant(e, procs[p].reason)
    ensures NoneLost(procs, log + [e])
  {
    forall p | p in procs && procs[p].blocked ensures !Missed(procs[p], log + [e]) {
      if k :| procs[p].snapshot <= k < |log + [e]| && 0 <= k && Meant((log + [e])[k], procs[p].reason) {
        if k < |log| {
          assert Missed(procs[p], log);
        }
      }
    }
  }

  // Going to sleep right after looking at the counter: no wake in between.
  lemma FreshSleep(procs: Table, log: seq<Event>, p: Ref, s: Sleeper)
    requires NoneLost(procs, log) && s.snapshot == |log|
    ensures NoneLost(procs[p := s], log)
  {
  }

  lemma FindableFrame(procs: Table, waiting: map<Ref, int>, keyed: map<Ref, int>, p: Ref, s: Sleeper,
                      waiting': map<Ref, int>, keyed': map<Ref, int>)
    requires AllFindable(procs, waiting, keyed) && p in procs
    requires forall q :: q != p ==> (q in waiting' <==> q in waiting) && (q in keyed' <==> q in keyed)
    requires forall q :: q != p && q in waiting && q in waiting' ==> waiting'[q] == waiting[q]
    requires forall q :: q != p && q in keyed && q in keyed' ==> keyed'[q] == keyed[q]
    requires Findable(s, p, waiting', keyed')
    ensures AllFindable(procs[p := s], waiting', keyed')
  {
    forall q | q in procs && q != p ensures Findable(procs[q], q, waiting', keyed') {
      assert Findable(procs[q], q, waiting, keyed);
    }
  }

  lemma HashedSize(listed: map<Ref, int>, buckets: seq<seq<Ref>>)
    requires Hashed(listed, buckets)
    ensures |buckets| == WAIT_BUCKETS
  {
  }

  lemma BucketKnown(procs: Table, waiting: map<Ref, int>, keyed: map<Ref, int>, buckets: seq<seq<Ref>>, b: int)
    requires Hashed(waiting, buckets) && AllFindable(procs, waiting, keyed) && 0 <= b < WAIT_BUCKETS
    ensures |buckets| == WAIT_BUCKETS && forall j :: 0 <= j < |buckets[b]| ==> buckets[b][j] in procs
  {
    forall j | 0 <= j < |buckets[b]| ensures buckets[b][j] in procs {
      var p := buckets[b][j];
      assert p in buckets[b];
    }
  }

  lemma KeyBucketKnown(procs: Table, waiting: map<Ref, int>, keyed: map<Ref, int>, buckets: seq<seq<Ref>>, b: int)
    requires Hashed(keyed, buckets) && AllFindable(procs, waiting, keyed) && 0 <= b < WAIT_BUCKETS
    ensures |buckets| == WAIT_BUCKETS && forall j :: 0 <= j < |buckets[b]| ==> buckets[b][j] in procs
  {
    forall j | 0 <= j < |buckets[b]| ensures buckets[b][j] in procs {
      var p := buckets[b][j];
      assert p in buckets[b];
    }
  }

  lemma BucketIndex(listed: map<Ref, int>, buckets: seq<seq<Ref>>, p: Ref) returns (j: int)
    requires Hashed(listed, buckets) && p in listed
    ensures |buckets| == WAIT_BUCKETS && 0 <= j < |buckets[BucketOf(listed[p])]| && buckets[BucketOf(listed[p])][j] == p
  {
    j :| 0 <= j < |buckets[BucketOf(listed[p])]| && buckets[BucketOf(listed[p])][j] == p;
  }

  lemma RousedKeys(a: Table, b: Table)
    requires Roused(a, b)
    ensures b.Keys == a.Keys && forall p :: p in a <==> p in b
  {
  }

  lemma RousedTwice(a: Table, b: Table, c: Table)
    requires Roused(a, b) && Roused(b, c)
    ensures Roused(a, c)
  {
  }

  ghost predicate OnIt(s: Sleeper, channel: int) {
    s.blocked && s.channel == channel
  }

  // A wake that stopped at its limit promises nothing to those it did not reach.
  lemma NotComplete(procs: Table, memory: int, address: int, key: int, bitset: U32)
    ensures forall p :: p in procs ==> !Meant(WakeFutex(memory, address, key, bitset, false), procs[p].reason)
  {
  }

  lemma AwakeNotHit(s: Sleeper, memory: int, address: int, key: int, bitset: U32)
    requires !s.blocked
    ensures !Hit(s, memory, address, key, bitset)
  {
  }

  // Whoever still sleeps on the channel was in the bucket, so it was met.
  lemma ChannelMet(before: Table, after: Table, waiting: map<Ref, int>, keyed: map<Ref, int>, buckets: seq<seq<Ref>>, channel: int)
    requires Hashed(waiting, buckets) && AllFindable(before, waiting, keyed) && Roused(before, after)
    requires |buckets| == WAIT_BUCKETS
    requires var items := buckets[BucketOf(channel)];
             forall j :: 0 <= j < |items| ==> items[j] in after && !OnIt(after[items[j]], channel)
    ensures forall p :: p in after && after[p].blocked ==> !Meant(WakeAllOn(channel), after[p].reason)
  {
    forall p | p in after && after[p].blocked ensures after[p].reason != OnChannel(channel) {
      assert after[p] == before[p] && Findable(before[p], p, waiting, keyed);
      if before[p].reason == OnChannel(channel) {
        var j := BucketIndex(waiting, buckets, p);
      }
    }
  }

  ghost predicate Hit(s: Sleeper, memory: int, address: int, key: int, bitset: U32) {
    && s.blocked && s.futex && And(s.bitset, bitset) != 0
    && ((key != 0 && s.key == key) || (s.memory == memory && s.address == address))
  }

  // None of these is left asleep on the futex.
  ghost predicate Passed(procs: Table, items: seq<Ref>, memory: int, address: int, key: int, bitset: U32) {
    forall j :: 0 <= j < |items| ==> items[j] in procs && !Hit(procs[items[j]], memory, address, key, bitset)
  }

  lemma PassedRoused(before: Table, after: Table, items: seq<Ref>, memory: int, address: int, key: int, bitset: U32)
    requires Passed(before, items, memory, address, key, bitset) && Roused(before, after)
    ensures Passed(after, items, memory, address, key, bitset)
  {
    forall j | 0 <= j < |items| ensures items[j] in after && !Hit(after[items[j]], memory, address, key, bitset) {
      var p := items[j];
      assert p in before;
    }
  }

  // A sleeper the wake names is in the bucket of its address or of its key.
  lemma FutexMet(before: Table, mid: Table, after: Table,
                 waiting: map<Ref, int>, keyed: map<Ref, int>, buckets: seq<seq<Ref>>,
                 waiting': map<Ref, int>, keyed': map<Ref, int>, keyBuckets: seq<seq<Ref>>,
                 memory: int, address: int, key: int, bitset: U32)
    requires Hashed(waiting, buckets) && AllFindable(before, waiting, keyed)
    requires Hashed(keyed', keyBuckets) && AllFindable(mid, waiting', keyed')
    requires Roused(before, mid) && Roused(mid, after) && |buckets| == |keyBuckets| == WAIT_BUCKETS
    requires Passed(mid, buckets[BucketOf(address)], memory, address, key, bitset)
    requires key != 0 ==> Passed(after, keyBuckets[BucketOf(key)], memory, address, key, bitset)
    ensures forall p :: p in after && after[p].blocked ==> !Meant(WakeFutex(memory, address, key, bitset, true), after[p].reason)
  {
    hide Hashed, BucketOf, Meant, Passed, Findable;
    forall p | p in after && after[p].blocked ensures !Meant(WakeFutex(memory, address, key, bitset, true), after[p].reason) {
      assert after[p] == mid[p] == before[p];
      if after[p].reason.OnFutex? && after[p].reason.address == address {
        FutexMetAt(before, waiting, keyed, buckets, p);
        PassedAt(mid, buckets[BucketOf(address)], memory, address, key, bitset, p);
      }
      if after[p].reason.OnFutex? && key != 0 && after[p].reason.key == key {
        FutexMetByKey(mid, waiting', keyed', keyBuckets, p);
        PassedAt(after, keyBuckets[BucketOf(key)], memory, address, key, bitset, p);
      }
      NotMeant(before[p], p, waiting, keyed, memory, address, key, bitset);
    }
  }

  lemma FutexMetAt(procs: Table, waiting: map<Ref, int>, keyed: map<Ref, int>, buckets: seq<seq<Ref>>, p: Ref)
    requires Hashed(waiting, buckets) && AllFindable(procs, waiting, keyed) && |buckets| == WAIT_BUCKETS
    requires p in procs && procs[p].blocked && procs[p].reason.OnFutex?
    ensures p in buckets[BucketOf(procs[p].reason.address)]
  {
    assert Findable(procs[p], p, waiting, keyed);
    HashedFind(waiting, buckets, p);
  }

  lemma FutexMetByKey(procs: Table, waiting: map<Ref, int>, keyed: map<Ref, int>, buckets: seq<seq<Ref>>, p: Ref)
    requires Hashed(keyed, buckets) && AllFindable(procs, waiting, keyed) && |buckets| == WAIT_BUCKETS
    requires p in procs && procs[p].blocked && procs[p].reason.OnFutex? && procs[p].reason.key != 0
    ensures p in buckets[BucketOf(procs[p].reason.key)]
  {
    assert Findable(procs[p], p, waiting, keyed);
    HashedFind(keyed, buckets, p);
  }

  lemma PassedAt(procs: Table, items: seq<Ref>, memory: int, address: int, key: int, bitset: U32, p: Ref)
    requires Passed(procs, items, memory, address, key, bitset) && p in items
    ensures p in procs && !Hit(procs[p], memory, address, key, bitset)
  {
  }

  // The fields of a sleeper on a futex are the ones the wake compares.
  lemma NotMeant(s: Sleeper, p: Ref, waiting: map<Ref, int>, keyed: map<Ref, int>, memory: int, address: int, key: int, bitset: U32)
    requires s.blocked && Findable(s, p, waiting, keyed)
    requires s.reason.OnFutex? && (s.reason.address == address || (key != 0 && s.reason.key == key)) ==> !Hit(s, memory, address, key, bitset)
    ensures !Meant(WakeFutex(memory, address, key, bitset, true), s.reason)
  {
  }

  datatype Step =
    | Entry(p: Ref)
    | SleepOn(p: Ref, channel: int)
    | FutexWait(p: Ref, address: int, value: int, expected: int, key: int, bitset: U32)
    | WakeAll(channel: int)
    | WakeOne(channel: int)
    | FutexWake(memory: int, address: int, key: int, bitset: U32, maximum: int)
    | Rouse(p: Ref)
    | Bump

  // How often a schedule moves the counter.
  ghost function Wakes(schedule: seq<Step>): nat {
    if schedule == [] then 0
    else Wakes(schedule[..|schedule| - 1]) + match schedule[|schedule| - 1]
         case WakeAll(_) => 1
         case WakeOne(_) => 1
         case FutexWake(_, _, _, bitset, maximum) => if maximum > 0 && bitset != 0 then 1 else 0
         case Bump => 1
         case _ => 0
  }

  class Sleepers {
    var sequence: int
    var procs: Table
    var waiting: map<Ref, int>
    var keyed: map<Ref, int>
    var waitBuckets: seq<seq<Ref>>
    var keyBuckets: seq<seq<Ref>>
    ghost var log: seq<Event>

    ghost predicate Linked()
      reads this
    {
      && Hashed(waiting, waitBuckets) && Hashed(keyed, keyBuckets)
      && AllFindable(procs, waiting, keyed)
    }

    ghost predicate Valid()
      reads this
    {
      Linked() && NoneLost(procs, log) && sequence == |log|
    }

    constructor (processes: Table)
      requires forall p :: p in processes ==> !processes[p].blocked && processes[p].snapshot == 0
      ensures Valid() && procs == processes
    {
      sequence, procs, waiting, keyed, log := 0, processes, map[], map[], [];
      waitBuckets, keyBuckets := seq(WAIT_BUCKETS, _ => []), seq(WAIT_BUCKETS, _ => []);
    }

    method NoteEntry(p: Ref)
      requires Valid() && p in procs && !procs[p].blocked
      modifies this`procs
      ensures Valid() && procs == old(procs)[p := old(procs[p]).(snapshot := sequence)]
    {
      hide Hashed;
      FindableFrame(procs, waiting, keyed, p, procs[p].(snapshot := sequence), waiting, keyed);
      procs := procs[p := procs[p].(snapshot := sequence)];
    }

    // Any bump of the counter that wakes nobody by itself.
    method Bump()
      requires Valid()
      modifies this`sequence, this`log
      ensures Valid() && log == old(log) + [Other]
    {
      hide Hashed, AllFindable;
      LogMore(procs, log, Other);
      sequence := sequence + 1;
      log := log + [Other];
    }

    // waits_unlink and the change of state of a process that is woken, whose record
    // has become s.
    method WakeToReady(p: Ref, s: Sleeper)
      requires Linked() && p in procs
      modifies this`procs, this`waiting, this`keyed, this`waitBuckets, this`keyBuckets
      ensures Linked() && procs == old(procs)[p := s.(blocked := false)]
    {
      hide Hashed, NoRepeats;
      ghost var waiting0, keyed0 := waiting, keyed;
      if p in waiting {
        HashedDrop(waiting, waitBuckets, p);
        var b := BucketOf(waiting[p]);
        waitBuckets := waitBuckets[b := Without(waitBuckets[b], p)];
        waiting := Dropped(waiting, p);
      }
      if p in keyed {
        HashedDrop(keyed, keyBuckets, p);
        var b := BucketOf(keyed[p]);
        keyBuckets := keyBuckets[b := Without(keyBuckets[b], p)];
        keyed := Dropped(keyed, p);
      }
      FindableFrame(procs, waiting0, keyed0, p, s.(blocked := false), waiting, keyed);
      procs := procs[p := s.(blocked := false)];
    }

    method WaitLink(p: Ref, value: int)
      requires Hashed(waiting, waitBuckets) && p !in waiting
      modifies this`waiting, this`waitBuckets
      ensures Hashed(waiting, waitBuckets) && waiting == old(waiting)[p := value]
    {
      HashedAdd(waiting, waitBuckets, p, value);
      hide Hashed;
      var b := BucketOf(value);
      waitBuckets := waitBuckets[b := [p] + waitBuckets[b]];
      waiting := waiting[p := value];
    }

    method KeyLink(p: Ref, key: int)
      requires Hashed(keyed, keyBuckets) && p !in keyed
      modifies this`keyed, this`keyBuckets
      ensures Hashed(keyed, keyBuckets) && keyed == if key == 0 then old(keyed) else old(keyed)[p := key]
    {
      if key == 0 {
        return;
      }
      HashedAdd(keyed, keyBuckets, p, key);
      hide Hashed;
      var b := BucketOf(key);
      keyBuckets := keyBuckets[b := [p] + keyBuckets[b]];
      keyed := keyed[p := key];
    }

    // Sleeping on a channel, unless a wake came after the entry.
    method SleepOn(p: Ref, channel: int) returns (code: int)
      requires Valid() && p in procs && !procs[p].blocked
      modifies this`procs, this`waiting, this`waitBuckets
      ensures Valid()
      ensures code == if channel == 0 || sequence != old(procs[p].snapshot) then -EAGAIN else 0
      ensures code != 0 ==> procs == old(procs)
      ensures code == 0 ==> procs == old(procs)[p := old(procs[p]).(blocked := true, channel := channel, reason := OnChannel(channel))]
    {
      hide Hashed;
      if channel == 0 || sequence != procs[p].snapshot {
        return -EAGAIN;
      }
      ghost var s := procs[p].(blocked := true, channel := channel, reason := OnChannel(channel));
      assert Findable(procs[p], p, waiting, keyed);
      FindableFrame(procs, waiting, keyed, p, s, waiting[p := channel], keyed);
      FreshSleep(procs, log, p, s);
      WaitLink(p, channel);
      procs := procs[p := procs[p].(blocked := true, channel := channel, reason := OnChannel(channel))];
      code := 0;
    }

    // A futex wait: the word was read before the lock was taken.
    method FutexWait(p: Ref, address: int, value: int, expected: int, instant: bool, interrupted: bool, key: int, bitset: U32)
      returns (code: int)
      requires Valid() && p in procs && !procs[p].blocked
      modifies this`procs, this`waiting, this`waitBuckets, this`keyed, this`keyBuckets
      ensures Valid()
      ensures var reason := OnFutex(old(procs[p].memory), address, key, bitset);
              if value != expected then code == -EAGAIN && procs == old(procs)
              else if instant then code == -ETIMEDOUT && procs == old(procs)
              else if interrupted then code == -EINTR && procs == old(procs)
              else if sequence != old(procs[p].snapshot) then code == 0 && procs == old(procs)
              else code == 0 && procs == old(procs)[p := old(procs[p]).(
                     blocked := true, futex := true, address := address, key := key, bitset := bitset, reason := reason)]
    {
      hide Hashed;
      if value != expected {
        return -EAGAIN;
      }
      if instant {
        return -ETIMEDOUT;
      }
      if interrupted {
        return -EINTR;
      }
      code := 0;
      if sequence != procs[p].snapshot {
        return;
      }
      ghost var reason := OnFutex(procs[p].memory, address, key, bitset);
      ghost var s := procs[p].(blocked := true, futex := true, address := address, key := key, bitset := bitset, reason := reason);
      assert Findable(procs[p], p, waiting, keyed);
      FindableFrame(procs, waiting, keyed, p, s, waiting[p := address], if key == 0 then keyed else keyed[p := key]);
      FreshSleep(procs, log, p, s);
      WaitLink(p, address);
      KeyLink(p, key);
      procs := procs[p := procs[p].(blocked := true, futex := true, address := address, key := key, bitset := bitset, reason := reason)];
    }

    // Being woken for any other reason: a signal, a deadline.
    method Rouse(p: Ref)
      requires Valid() && p in procs
      modifies this`procs, this`waiting, this`keyed, this`waitBuckets, this`keyBuckets
      ensures Valid() && procs == old(procs)[p := old(procs[p]).(blocked := false)]
    {
      hide Hashed, AllFindable;
      WakeToReady(p, procs[p]);
      RousedLost(old(procs), procs, log);
    }

    // process_wake_all for a channel other than the shared one.
    method WakeAll(channel: int) returns (woken: int, ghost who: set<Ref>)
      requires Valid()
      modifies this
      ensures Valid() && log == old(log) + [if channel == 0 then Other else WakeAllOn(channel)]
      ensures woken == |who| && procs == Woken(old(procs), who, false)
      ensures forall p :: p in who ==> p in old(procs) && OnIt(old(procs[p]), channel)
      ensures channel == 0 ==> who == {}
      ensures channel != 0 ==> forall p :: p in procs && procs[p].blocked ==> procs[p].reason != OnChannel(channel)
    {
      hide Hashed, AllFindable, NoneLost, Woken, Roused;
      woken, who := 0, {};
      ghost var before := procs;
      WokenNone(procs, false);
      sequence := sequence + 1;
      if channel == 0 {
        LogMore(procs, log, Other);
        log := log + [Other];
        return;
      }
      HashedSize(waiting, waitBuckets);
      var items := waitBuckets[BucketOf(channel)];
      BucketKnown(procs, waiting, keyed, waitBuckets, BucketOf(channel));
      WokenRoused(before, who, false);
      for i := 0 to |items|
        invariant Linked() && log == old(log) && sequence == old(sequence) + 1
        invariant procs == Woken(before, who, false) && woken == |who| && Roused(before, procs)
        invariant forall p :: p in who ==> p in before && OnIt(before[p], channel)
        invariant forall j :: 0 <= j < i ==> items[j] in procs && !OnIt(procs[items[j]], channel)
      {
        var item := items[i];
        RousedKeys(before, procs);
        if procs[item].blocked && procs[item].channel == channel {
          WokenMore(before, who, false, item);
          WakeToReady(item, procs[item].(channel := 0));
          who := who + {item};
          woken := woken + 1;
          WokenRoused(before, who, false);
        }
      }
      ChannelMet(before, procs, old(waiting), old(keyed), old(waitBuckets), channel);
      RousedLost(before, procs, log);
      LogMore(procs, log, WakeAllOn(channel));
      log := log + [WakeAllOn(channel)];
    }

    method WakeOne(channel: int) returns (woken: int, ghost who: set<Ref>)
      requires Valid()
      modifies this
      ensures Valid() && log == old(log) + [Other] && woken <= 1
      ensures woken == |who| && procs == Woken(old(procs), who, false)
      ensures forall p :: p in who ==> p in old(procs) && OnIt(old(procs[p]), channel)
      ensures woken == 0 ==> forall p :: p in procs && procs[p].blocked ==> procs[p].reason != OnChannel(channel)
    {
      hide Hashed, AllFindable, NoneLost, Woken, Roused;
      woken, who := 0, {};
      WokenNone(procs, false);
      WokenRoused(procs, {}, false);
      sequence := sequence + 1;
      LogMore(procs, log, Other);
      log := log + [Other];
      HashedSize(waiting, waitBuckets);
      var items := waitBuckets[BucketOf(channel)];
      BucketKnown(procs, waiting, keyed, waitBuckets, BucketOf(channel));
      var i := 0;
      while i < |items|
        invariant 0 <= i <= |items| && procs == old(procs) && Valid() && log == old(log) + [Other]
        invariant forall j :: 0 <= j < i ==> items[j] in procs && !OnIt(procs[items[j]], channel)
      {
        var item := items[i];
        if procs[item].blocked && procs[item].channel == channel {
          WokenMore(procs, {}, false, item);
          WakeToReady(item, procs[item].(channel := 0));
          assert {item} == {} + {item};
          RousedLost(old(procs), procs, log);
          return 1, {item};
        }
        i := i + 1;
      }
      ChannelMet(procs, procs, old(waiting), old(keyed), old(waitBuckets), channel);
    }

    // The test of one sleeper; the bitset is looked at last.
    static method Matches(s: Sleeper, memory: int, address: int, key: int, bitset: U32) returns (hit: bool)
      ensures hit <==> Hit(s, memory, address, key, bitset)
      ensures hit ==> s.blocked
    {
      if !s.blocked || !s.futex {
        return false;
      }
      var byKey := key != 0 && s.key == key;
      var byAddress := s.memory == memory && s.address == address;
      if !byKey && !byAddress {
        return false;
      }
      return And(s.bitset, bitset) != 0;
    }

    // One pass over a bucket, from whichever of the two tables.
    method FutexWakeList(items: seq<Ref>, memory: int, address: int, key: int, bitset: U32, maximum: int, already: int)
      returns (woken: int, ghost who: set<Ref>)
      requires Linked() && already <= maximum && forall j :: 0 <= j < |items| ==> items[j] in procs
      modifies this`procs, this`waiting, this`keyed, this`waitBuckets, this`keyBuckets
      ensures Linked() && woken == already + |who| <= maximum && procs == Woken(old(procs), who, true)
      ensures forall p :: p in who ==> p in old(procs) && old(procs[p]).blocked && Hit(old(procs[p]), memory, address, key, bitset)
      ensures woken < maximum ==> Passed(procs, items, memory, address, key, bitset)
    {
      hide Hashed, AllFindable, Woken, Roused, Hit, And;
      woken, who := already, {};
      ghost var before := procs;
      WokenNone(procs, true);
      WokenRoused(procs, who, true);
      var i := 0;
      while i < |items| && woken < maximum
        invariant 0 <= i <= |items| && Linked() && woken == already + |who| <= maximum
        invariant procs == Woken(before, who, true) && Roused(before, procs)
        invariant forall p :: p in who ==> p in before && before[p].blocked && Hit(before[p], memory, address, key, bitset)
        invariant Passed(procs, items[..i], memory, address, key, bitset)
      {
        var item := items[i];
        RousedKeys(before, procs);
        var hit := Matches(procs[item], memory, address, key, bitset);
        if hit {
          WokenMore(before, who, true, item);
          ghost var mid := procs;
          WakeToReady(item, procs[item].(futex := false, address := 0, key := 0));
          who := who + {item};
          woken := woken + 1;
          WokenRoused(before, who, true);
          PassedRoused(mid, procs, items[..i], memory, address, key, bitset);
          AwakeNotHit(procs[item], memory, address, key, bitset);
        }
        assert items[..i + 1] == items[..i] + [item];
        i := i + 1;
      }
      assert i == |items| ==> items[..i] == items;
    }

    method FutexWake(memory: int, address: int, key: int, bitset: U32, maximum: int) returns (woken: int, ghost who: set<Ref>)
      requires Valid()
      modifies this
      ensures Valid() && woken == |who| && procs == Woken(old(procs), who, true) && (maximum > 0 ==> woken <= maximum)
      ensures forall p :: p in who ==> p in old(procs) && Hit(old(procs[p]), memory, address, key, bitset)
      ensures maximum <= 0 || bitset == 0 ==> who == {} && log == old(log)
      ensures maximum > 0 && bitset != 0 ==> log == old(log) + [WakeFutex(memory, address, key, bitset, woken < maximum)]
      ensures maximum > 0 && bitset != 0 && woken < maximum ==>
                forall p :: p in procs && procs[p].blocked ==> !Meant(WakeFutex(memory, address, key, bitset, true), procs[p].reason)
    {
      hide Hashed, AllFindable, NoneLost, Passed, Woken, Roused, And, Hit, Meant;
      WokenNone(procs, true);
      if maximum <= 0 || bitset == 0 {
        return 0, {};
      }
      sequence := sequence + 1;
      HashedSize(waiting, waitBuckets);
      ghost var before := procs;
      var items := waitBuckets[BucketOf(address)];
      BucketKnown(procs, waiting, keyed, waitBuckets, BucketOf(address));
      woken, who := FutexWakeList(items, memory, address, key, bitset, maximum, 0);
      ghost var mid, midWaiting, midKeyed, midBuckets := procs, waiting, keyed, keyBuckets;
      WokenRoused(before, who, true);
      RousedKeys(before, mid);
      HashedSize(keyed, keyBuckets);
      ghost var more := {};
      WokenNone(procs, true);
      if key != 0 && woken < maximum {
        KeyBucketKnown(procs, waiting, keyed, keyBuckets, BucketOf(key));
        woken, more := FutexWakeList(keyBuckets[BucketOf(key)], memory, address, key, bitset, maximum, woken);
      }
      WokenRoused(mid, more, true);
      WokenTwice(before, who, more, true);
      RousedTwice(before, mid, procs);
      if woken < maximum {
        FutexMet(before, mid, procs, old(waiting), old(keyed), old(waitBuckets), midWaiting, midKeyed, midBuckets,
                 memory, address, key, bitset);
      }
      NotComplete(procs, memory, address, key, bitset);
      RousedLost(before, procs, log);
      LogMore(procs, log, WakeFutex(memory, address, key, bitset, woken < maximum));
      log := log + [WakeFutex(memory, address, key, bitset, woken < maximum)];
      who := who + more;
    }

    predicate Runs(p: Ref)
      reads this
    {
      p in procs && !procs[p].blocked
    }

    // Every run of entries, sleeps and wakes, in any order, loses no wakeup.
    method Run(schedule: seq<Step>)
      requires Valid()
      modifies this
      ensures Valid() && NoneLost(procs, log) && procs.Keys == old(procs.Keys)
      ensures old(log) <= log && |log| == |old(log)| + Wakes(schedule)
    {
      hide Hashed, AllFindable, NoneLost;
      for i := 0 to |schedule|
        invariant Valid() && procs.Keys == old(procs.Keys)
        invariant old(log) <= log && |log| == |old(log)| + Wakes(schedule[..i])
      {
        assert schedule[..i + 1][..i] == schedule[..i];
        match schedule[i] {
          case Entry(p) => if Runs(p) { NoteEntry(p); }
          case SleepOn(p, channel) => if Runs(p) { var code := SleepOn(p, channel); }
          case FutexWait(p, address, value, expected, key, bitset) =>
            if Runs(p) { var code := FutexWait(p, address, value, expected, false, false, key, bitset); }
          case WakeAll(channel) => var woken, _ := WakeAll(channel);
          case WakeOne(channel) => var woken, _ := WakeOne(channel);
          case FutexWake(memory, address, key, bitset, maximum) => var woken, _ := FutexWake(memory, address, key, bitset, maximum);
          case Rouse(p) => if p in procs { Rouse(p); }
          case Bump => Bump();
        }
      }
      assert schedule[..|schedule|] == schedule;
    }
  }
}
