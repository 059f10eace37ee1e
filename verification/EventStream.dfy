/**
 A subscriber's event stream (kernel/fs/eventfs.c, the ring operations,
 `queue_event`, `publish`, `lost_record`, `eventfs_read`).

 A byte is a character below 256.  Formatting an event is not part of this model:
 an event is the bytes it was formatted to, none when they did not fit the
 formatting buffer.
 */
module EventStreams {
  import opened Decimals
  import opened Errno

  const MAX_EVENT: int := 4096
  const QUEUE_BYTES: int := 8192
  const UINT64_MAX: int := 0xFFFF_FFFF_FFFF_FFFF

  // What a reader gets: an event, or word of a gap.
  datatype Item = Event(bytes: string) | Gap(count: int)

  // ---------------------------------------------------------------------------
  // Accounting
  // ---------------------------------------------------------------------------

  // The items account for the events, in order: each event is there whole, or is one
  // of the number a gap stands for.
  ghost predicate Accounts(items: seq<Item>, events: seq<string>)
    decreases |items|
  {
    if items == [] then events == []
    else match items[|items| - 1]
      case Event(b) => events != [] && events[|events| - 1] == b && Accounts(items[..|items| - 1], events[..|events| - 1])
      case Gap(n) => 0 < n <= |events| && Accounts(items[..|items| - 1], events[..|events| - n])
  }

  ghost function Queued(records: seq<string>): (r: seq<Item>)
    ensures |r| == |records| && forall i :: 0 <= i < |r| ==> r[i] == Event(records[i])
  {
    seq(|records|, i requires 0 <= i < |records| => Event(records[i]))
  }

  ghost function Lost(n: int): seq<Item> {
    if n > 0 then [Gap(n)] else []
  }

  ghost function Whole(read: seq<Item>, records: seq<string>, missing: int): seq<Item> {
    read + Queued(records) + Lost(missing)
  }

  // An event that is queued.
  lemma AccountsEvent(read: seq<Item>, records: seq<string>, events: seq<string>, b: string)
    requires Accounts(Whole(read, records, 0), events)
    ensures Accounts(Whole(read, records + [b], 0), events + [b])
  {
    var items := Whole(read, records + [b], 0);
    assert Queued(records + [b]) == Queued(records) + [Event(b)];
    assert items[..|items| - 1] == Whole(read, records, 0);
    assert (events + [b])[..|events|] == events;
  }

  // An event that is lost.
  lemma AccountsLost(read: seq<Item>, records: seq<string>, missing: int, events: seq<string>, b: string)
    requires Accounts(Whole(read, records, missing), events) && missing >= 0
    ensures Accounts(Whole(read, records, missing + 1), events + [b])
  {
    hide Accounts, Whole;
    var told := Whole(read, records, 0);
    WholeLost(read, records, missing + 1);
    AccountsGap(told, missing + 1, events + [b]);
    if missing == 0 {
      assert (events + [b])[..|events|] == events;
    } else {
      WholeLost(read, records, missing);
      AccountsGap(told, missing, events);
      assert (events + [b])[..|events| - missing] == events[..|events| - missing];
    }
  }

  // The gap stands for the last events.
  lemma AccountsGap(items: seq<Item>, n: int, events: seq<string>)
    requires n > 0
    ensures Accounts(items + [Gap(n)], events) <==> n <= |events| && Accounts(items, events[..|events| - n])
  {
    assert (items + [Gap(n)])[..|items|] == items;
  }

  lemma WholeLost(read: seq<Item>, records: seq<string>, n: int)
    requires n > 0
    ensures Whole(read, records, n) == Whole(read, records, 0) + [Gap(n)]
  {
  }

  // Reading moves items from the queue to the reader; the whole stays the same.
  lemma WholeMoves(read: seq<Item>, records: seq<string>, missing: int, k: int)
    requires 0 <= k <= |records|
    ensures Whole(read + Queued(records[..k]), records[k..], missing) == Whole(read, records, missing)
  {
    assert records == records[..k] + records[k..];
    assert Queued(records) == Queued(records[..k]) + Queued(records[k..]);
  }

  lemma WholeReported(read: seq<Item>, missing: int)
    ensures Whole(read + Lost(missing), [], 0) == Whole(read, [], missing)
  {
    assert Queued([]) == [];
  }

  // ---------------------------------------------------------------------------
  // Records in the ring
  // ---------------------------------------------------------------------------

  function Frame(b: string): string
    requires |b| <= MAX_EVENT
  {
    [(|b| % 256) as char, (|b| / 256) as char] + b
  }

  ghost predicate Fits(b: string) {
    0 < |b| <= MAX_EVENT
  }

  ghost predicate AllFit(records: seq<string>) {
    forall i :: 0 <= i < |records| ==> Fits(records[i])
  }

  ghost function Frames(records: seq<string>): string
    requires AllFit(records)
  {
    if records == [] then "" else Frame(records[0]) + Frames(records[1..])
  }

  lemma {:induction false} FramesMore(records: seq<string>, b: string)
    requires AllFit(records) && Fits(b)
    ensures Frames(records + [b]) == Frames(records) + Frame(b)
  {
    hide Frame;
    if records == [] {
      assert [b][1..] == [];
      assert Frames([b]) == Frame(b) + "";
    } else {
      assert (records + [b])[1..] == records[1..] + [b] && (records + [b])[0] == records[0];
      FramesMore(records[1..], b);
    }
  }

  ghost function Flatten(records: seq<string>): string {
    if records == [] then "" else Flatten(records[..|records| - 1]) + records[|records| - 1]
  }

  // The place of a ring offset.
  function Slot(head: int, offset: int): (i: int)
    requires 0 <= head < QUEUE_BYTES && 0 <= offset <= QUEUE_BYTES
    ensures 0 <= i < QUEUE_BYTES
    ensures i == if head + offset < QUEUE_BYTES then head + offset else head + offset - QUEUE_BYTES
  {
    (head + offset) % 8192
  }

  function LostText(n: nat): string {
    "lost " + Decimal(n) + "\n"
  }

  datatype Step = Post(from: int, system: bool, bytes: string) | Fetch(size: int)

  // What a schedule holds for one user, in order.
  ghost function Received(uid: int, schedule: seq<Step>): seq<string> {
    if schedule == [] then []
    else
      Received(uid, schedule[..|schedule| - 1]) + Heard(uid, schedule[|schedule| - 1])
  }

  // A subscriber of the superuser hears everything, another what its own user did.
  ghost function Heard(uid: int, step: Step): seq<string> {
    if step.Post? && (uid == 0 || (!step.system && uid == step.from)) then [step.bytes] else []
  }

  class Subscriber {
    const uid: int
    const queue: array<char>
    var head: int
    var tail: int
    var used: int
    var lost: int

    ghost var content: string
    ghost var records: seq<string>
    ghost var missing: int
    ghost var read: seq<Item>
    ghost var events: seq<string>

    // The ring holds `content`.
    ghost predicate Ring()
      reads this`head, this`tail, this`used, this`content, queue
    {
      && queue.Length == QUEUE_BYTES && 0 <= head < QUEUE_BYTES && 0 <= used <= QUEUE_BYTES
      && tail == Slot(head, used) && used == |content|
      && forall i :: 0 <= i < used ==> queue[Slot(head, i)] == content[i]
    }

    ghost predicate Valid()
      reads this, queue
    {
      && Ring() && AllFit(records) && content == Frames(records)
      && 0 <= missing && lost == (if missing < UINT64_MAX then missing else UINT64_MAX)
      && Accounts(Whole(read, records, missing), events)
    }

    constructor (owner: int)
      ensures Valid() && fresh(queue) && uid == owner && events == [] && read == []
    {
      uid := owner;
      queue := new char[QUEUE_BYTES](_ => '\0');
      head, tail, used, lost := 0, 0, 0, 0;
      content, records, missing, read, events := "", [], 0, [], [];
      new;
      assert Whole([], [], 0) == [];
    }

    method Get(offset: int) returns (c: char)
      requires Ring() && 0 <= offset < used
      ensures c == content[offset]
    {
      c := queue[Slot(head, offset)];
    }

    method Put(c: char)
      requires Ring() && used < QUEUE_BYTES
      modifies this`tail, this`used, this`content, queue
      ensures Ring() && content == old(content) + [c]
    {
      queue[tail] := c;
      tail := (tail + 1) % 8192;
      used := used + 1;
      content := content + [c];
    }

    method Drop(count: int)
      requires Ring() && 0 <= count <= used
      modifies this`head, this`used, this`content
      ensures Ring() && content == old(content)[count..]
    {
      ghost var was := head;
      head := (head + count) % 8192;
      used := used - count;
      content := content[count..];
      forall i | 0 <= i < used ensures queue[Slot(head, i)] == content[i] {
        assert Slot(head, i) == Slot(was, count + i);
      }
    }

    method Lose(ghost b: string)
      requires Valid()
      modifies this`lost, this`missing, this`events
      ensures Valid() && missing == old(missing) + 1 && events == old(events) + [b]
    {
      hide Accounts, Frames;
      AccountsLost(read, records, missing, events, b);
      if lost != UINT64_MAX {
        lost := lost + 1;
      }
      missing := missing + 1;
      events := events + [b];
    }

    method Write(s: string)
      requires Ring() && used + |s| <= QUEUE_BYTES
      modifies this`tail, this`used, this`content, queue
      ensures Ring() && content == old(content) + s
    {
      for i := 0 to |s|
        invariant Ring() && content == old(content) + s[..i] && used == old(used) + i
      {
        Put(s[i]);
      }
      assert s[..|s|] == s;
    }

    // queue_event and the length test of publish: an event is queued whole, or counted.
    method Deliver(b: string)
      requires Valid()
      modifies this, queue
      ensures Valid() && events == old(events) + [b] && read == old(read)
      ensures var room := 0 < |b| <= 4096 && old(lost) == 0 && |b| + 2 <= 8192 - old(used);
              if room then records == old(records) + [b] && missing == old(missing) else records == old(records) && missing == old(missing) + 1
    {
      hide Accounts, Frames, Ring;
      RingSize();
      if |b| == 0 || |b| > MAX_EVENT {
        Lose(b);
        return;
      }
      if lost != 0 || |b| > 0xFFFF || |b| + 2 > QUEUE_BYTES - used {
        Lose(b);
        return;
      }
      ghost var before := content;
      AccountsEvent(read, records, events, b);
      FramesMore(records, b);
      Put((|b| % 256) as char);
      RingSize();
      Put((|b| / 256) as char);
      RingSize();
      Write(b);
      assert content == before + Frame(b);
      records := records + [b];
      events := events + [b];
    }

    // publish, for this subscriber: root hears everything, others their own events.
    method Publish(from: int, system: bool, b: string)
      requires Valid()
      modifies this, queue
      ensures Valid() && read == old(read)
      ensures events == if uid == 0 || (!system && uid == from) then old(events) + [b] else old(events)
    {
      if uid != 0 && (system || uid != from) {
        return;
      }
      Deliver(b);
    }

    lemma RingSize()
      requires Ring()
      ensures used == |content| && 0 <= used <= QUEUE_BYTES
    {
    }

    // The next record's length; the record is whole and of a proper length, so the
    // recovery from a damaged ring is never needed.
    method NextLength() returns (length: int)
      requires Ring() && AllFit(records) && content == Frames(records) && used >= 2
      ensures records != [] && length == |records[0]| && 0 < length <= MAX_EVENT && length + 2 <= used
    {
      hide Frames;
      NextFrame(records);
      var low := Get(0);
      var high := Get(1);
      length := low as int + 256 * (high as int);
    }

    // The bytes of the next record, its length bytes gone.
    method TakeBytes(length: int, ghost first: string, ghost rest: string) returns (b: string)
      requires Ring() && content == first + rest && length == |first|
      modifies this`head, this`used, this`content
      ensures Ring() && b == first && content == rest
    {
      RingSize();
      hide Ring;
      b := "";
      for i := 0 to length
        invariant Ring() && b == first[..i] && content == first[i..] + rest
      {
        RingSize();
        var c := Get(0);
        Drop(1);
        b := b + [c];
      }
    }

    method TakeRecord(length: int) returns (b: string)
      requires Ring() && AllFit(records) && content == Frames(records) && records != [] && length == |records[0]|
      modifies this`head, this`used, this`content
      ensures Ring() && b == records[0] && content == Frames(records[1..])
    {
      ghost var first, rest := records[0], Frames(records[1..]);
      assert content == Frame(first) + rest;
      RingSize();
      hide Ring, Frames;
      Drop(2);
      assert content == first + rest;
      b := TakeBytes(length, first, rest);
    }

    // Reading as many whole records as fit.
    method ReadRecords(size: int) returns (out: string, tooLong: bool, ghost k: int)
      requires Valid() && 0 < size
      modifies this`head, this`used, this`content, this`records, this`read
      ensures Valid() && 0 <= k <= |old(records)| && records == old(records)[k..] && read == old(read) + Queued(old(records)[..k])
      ensures out == Flatten(old(records)[..k]) && |out| <= size
      ensures records != [] ==> |out| + |records[0]| > size
      ensures tooLong <==> records != [] && out == ""
      ensures used == 0 <==> records == []
    {
      hide Accounts, Frames, Ring, Queued, Whole, Flatten;
      ghost var all, base := records, read;
      out, tooLong, k := "", false, 0;
      NothingRead(all, base);
      while used >= 2
        invariant 0 <= k <= |all| && records == all[k..] && AllFit(all) && read == base + Queued(all[..k])
        invariant Ring() && content == Frames(records) && out == Flatten(all[..k]) && |out| <= size && (k > 0 ==> out != "")
        invariant !tooLong
        decreases |all| - k
      {
        var length := NextLength();
        if length > size - |out| {
          tooLong := out == "";
          break;
        }
        var b := TakeRecord(length);
        assert all[k..][1..] == all[k + 1..];
        FlattenMore(all, k);
        QueuedMore(all, k);
        records := records[1..];
        read := read + [Event(b)];
        out := out + b;
        k := k + 1;
      }
      RingSize();
      NoFrame(records);
      WholeMoves(base, all, missing, k);
    }

    // lost_record, in a buffer of 32 bytes.
    static method LostRecord(n: nat) returns (s: string)
      requires n <= UINT64_MAX
      ensures s == LostText(n) && |s| <= 32
    {
      WordDigits(n);
      hide Decimal;
      var d := Print(n, 20);
      s := "lost " + d + "\n";
    }

    // eventfs_read: whole records, then, once the queue is empty, word of the gap.
    method Read(size: int) returns (code: int, out: string, ghost k: int, ghost told: bool)
      requires Valid() && 0 <= size
      modifies this
      ensures Valid() && events == old(events)
      ensures 0 <= k <= |old(records)| && records == old(records)[k..] && |out| <= size
      ensures out == Flatten(old(records)[..k]) + if told then LostText(old(lost)) else ""
      ensures read == old(read) + Queued(old(records)[..k]) + if told then [Gap(old(missing))] else []
      ensures told ==> records == [] && old(missing) > 0 && missing == 0
      ensures !told ==> missing == old(missing)
      ensures size > 0 && records != [] ==> |Flatten(old(records)[..k])| + |records[0]| > size
      ensures code == if size == 0 then 0 else if out != "" then |out|
                      else if records != [] || missing > 0 then -EMSGSIZE else -EAGAIN
    {
      hide Accounts, Frames, Ring, Queued, Whole, Flatten, LostText;
      k, told, out := 0, false, "";
      NothingRead(records, read);
      if size == 0 {
        return 0, "", 0, false;
      }
      var tooLong;
      out, tooLong, k := ReadRecords(size);
      ghost var first := out;
      assert first + "" == first;
      if tooLong {
        return -EMSGSIZE, out, k, false;
      }
      if used == 0 && lost != 0 {
        var record := LostRecord(lost);
        if |record| > size - |out| {
          if out == "" {
            return -EMSGSIZE, out, k, false;
          }
        } else {
          LostTold(read, missing);
          LostNotEmpty(lost);
          out := out + record;
          read := read + [Gap(missing)];
          lost, missing := 0, 0;
          told := true;
        }
      }
      code := if out != "" then |out| else -EAGAIN;
    }

    // Every interleaving of publications and reads keeps the account; `text` is all
    // that the reads returned.
    method Run(schedule: seq<Step>) returns (text: string)
      requires Valid()
      modifies this, queue
      ensures Valid() && Accounts(Whole(read, records, missing), events)
      ensures events == old(events) + Received(uid, schedule)
      ensures old(read) <= read && Told(read) == Told(old(read)) + text
    {
      hide Accounts, Whole, AllFit, Frames, Flatten, Queued, LostText, Told, Received;
      text := "";
      ReceivedNone(uid);
      assert schedule[..0] == [];
      for i := 0 to |schedule|
        invariant Valid() && events == old(events) + Received(uid, schedule[..i])
        invariant old(read) <= read && Told(read) == Told(old(read)) + text
      {
        ReceivedMore(uid, schedule, i);
        match schedule[i] {
          case Post(from, system, b) => Publish(from, system, b);
          case Fetch(size) =>
            if size >= 0 {
              var more := Fetched(size);
              text := text + more;
            }
        }
      }
      assert schedule[..|schedule|] == schedule;
    }

    // A read, seen by what it adds to the text already told.
    method Fetched(size: int) returns (out: string)
      requires Valid() && 0 <= size
      modifies this
      ensures Valid() && events == old(events)
      ensures old(read) <= read && Told(read) == Told(old(read)) + out
    {
      hide Accounts, Whole, AllFit, Frames, Flatten, Queued, LostText, Told;
      ghost var k, told;
      var code;
      code, out, k, told := Read(size);
      ToldRead(old(read), old(records)[..k], told, old(missing));
    }
  }

  // The text of what was read.
  ghost function Told(items: seq<Item>): string {
    if items == [] then "" else Told(items[..|items| - 1]) + Shown(items[|items| - 1])
  }

  ghost function Shown(item: Item): string {
    match item
    case Event(b) => b
    case Gap(n) => LostText(Saturated(n))
  }

  function Saturated(n: int): nat {
    if n < 0 then 0 else if n < UINT64_MAX then n else UINT64_MAX
  }

  lemma ToldMore(items: seq<Item>, item: Item)
    ensures Told(items + [item]) == Told(items) + Shown(item)
  {
    assert (items + [item])[..|items|] == items;
  }

  lemma {:induction false} ToldQueued(base: seq<Item>, s: seq<string>, k: int)
    requires 0 <= k <= |s|
    ensures Told(base + Queued(s[..k])) == Told(base) + Flatten(s[..k])
  {
    hide Told, Flatten, Queued, Shown;
    if k == 0 {
      NothingRead(s, base);
    } else {
      ToldQueued(base, s, k - 1);
      QueuedMore(s, k - 1);
      FlattenMore(s, k - 1);
      ToldEvent(base + Queued(s[..k - 1]), s[k - 1]);
      assert base + Queued(s[..k]) == base + Queued(s[..k - 1]) + [Event(s[k - 1])];
    }
  }

  lemma ToldEvent(items: seq<Item>, b: string)
    ensures Told(items + [Event(b)]) == Told(items) + b
  {
    ToldMore(items, Event(b));
  }

  lemma ToldRead(base: seq<Item>, s: seq<string>, gap: bool, n: int)
    ensures Told(base + Queued(s) + if gap then [Gap(n)] else []) == Told(base) + (Flatten(s) + if gap then LostText(Saturated(n)) else "")
  {
    hide LostText, Flatten, Told, Queued;
    assert s[..|s|] == s;
    ToldQueued(base, s, |s|);
    if gap {
      ToldMore(base + Queued(s), Gap(n));
    } else {
      assert base + Queued(s) + [] == base + Queued(s);
    }
  }

  lemma ReceivedNone(uid: int)
    ensures Received(uid, []) == []
  {
  }

  lemma ReceivedMore(uid: int, schedule: seq<Step>, i: int)
    requires 0 <= i < |schedule|
    ensures Received(uid, schedule[..i + 1]) == Received(uid, schedule[..i]) + Heard(uid, schedule[i])
  {
    assert schedule[..i + 1][..i] == schedule[..i];
  }

  lemma NothingRead(all: seq<string>, base: seq<Item>)
    ensures all[..0] == [] && all[0..] == all && Flatten(all[..0]) == "" && base + Queued(all[..0]) == base
  {
  }

  lemma LostTold(read: seq<Item>, missing: int)
    requires missing > 0
    ensures Whole(read + [Gap(missing)], [], 0) == Whole(read, [], missing)
  {
    WholeReported(read, missing);
  }

  lemma LostNotEmpty(n: nat)
    ensures LostText(n) != ""
  {
  }

  // The number in the record is the number itself.
  lemma LostTextSays(n: nat)
    ensures var s := LostText(n); |s| >= 6 && AllDigits(s[5..|s| - 1]) && Value(s[5..|s| - 1]) == n
  {
    DecimalValue(n);
    assert LostText(n)[5..|LostText(n)| - 1] == Decimal(n);
  }

  // A record that is queued begins with its length.
  lemma NextFrame(records: seq<string>)
    requires AllFit(records)
    ensures |Frames(records)| >= 2 ==>
              && records != [] && |Frames(records)| >= 2 + |records[0]|
              && Frames(records)[0] as int + 256 * (Frames(records)[1] as int) == |records[0]|
  {
    if records != [] {
      assert Frames(records)[..2] == Frame(records[0])[..2];
    }
  }

  lemma NoFrame(records: seq<string>)
    requires AllFit(records)
    ensures records != [] ==> |Frames(records)| >= 3
    ensures records == [] ==> Frames(records) == ""
  {
  }

  lemma FlattenMore(all: seq<string>, k: int)
    requires 0 <= k < |all|
    ensures Flatten(all[..k + 1]) == Flatten(all[..k]) + all[k]
  {
    assert all[..k + 1][..k] == all[..k];
  }

  lemma QueuedMore(all: seq<string>, k: int)
    requires 0 <= k < |all|
    ensures Queued(all[..k + 1]) == Queued(all[..k]) + [Event(all[k])]
  {
  }
}
