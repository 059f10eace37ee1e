/**
 The initial stack of a program (kernel/core/elf.c, `push_bytes`, `push_u64`,
 `place_initial_stack`, and the sizing in `elf_load_process`), against section 3.4.1
 of the System V AMD64 ABI.

 `bytes` is the memory from the stack pointer up to the top of the stack.  The pages
 are zero before anything is pushed.
 */
module InitStack {
  import opened LittleEndian

  const STACK_TOP: int := 0x7FFF_FFF0_0000
  const INITIAL_PAGES: int := 32
  const PAGE: int := 4096

  const AT_NULL: int := 0

  // What the auxiliary vector tells about the program.
  datatype Image = Image(entry: int, phdr: int, phnum: int, base: int, hwcap: int)

  ghost predicate IsWord(v: int) {
    0 <= v < 0x1_0000_0000_0000_0000
  }

  function Zeros(n: nat): (s: seq<Byte>)
    ensures |s| == n
  {
    seq(n, _ => 0)
  }

  // ---------------------------------------------------------------------------
  // Words
  // ---------------------------------------------------------------------------

  function Le64(v: int): (s: seq<Byte>)
    ensures |s| == 8
  {
    Bytes(v, 8)
  }

  ghost function Words(ws: seq<int>): (s: seq<Byte>)
    ensures |s| == 8 * |ws|
  {
    if ws == [] then [] else Le64(ws[0]) + Words(ws[1..])
  }

  lemma WordsPush(v: int, ws: seq<int>, below: seq<Byte>)
    ensures Words([v] + ws) + below == Le64(v) + (Words(ws) + below)
  {
    hide Le64;
    assert ([v] + ws)[1..] == ws;
    assert Le64(v) + Words(ws) + below == Le64(v) + (Words(ws) + below);
  }

  lemma Parity(sp: int, words: nat)
    requires sp % 16 == 0
    ensures (sp - words * 8) % 16 == 0 || (sp - 8 - words * 8) % 16 == 0
  {
    var k, h, b := sp / 16, words / 2, words % 2;
    assert sp - words * 8 == 16 * (k - h) - 8 * b;
  }

  lemma {:induction false} BytesWord(w: int, n: nat)
    ensures Word(Bytes(w, n), 0, n) == w % Power(n)
  {
    if n == 0 {
      assert w % 1 == 0;
    } else {
      BytesWord(w, n - 1);
      BytesMore(w, n - 1);
      var init, p := Bytes(w, n - 1), Power(n - 1);
      SameWord(Bytes(w, n), 0, init, 0, n - 1);
      ModStep(w, p);
    }
  }

  lemma ModStep(w: int, p: int)
    requires p > 0
    ensures w % (256 * p) == w % p + (w / p % 256) * p
  {
    var q, r := w / p, w % p;
    var a, b := q / 256, q % 256;
    assert w == q * p + r && q == a * 256 + b;
    assert w == a * (256 * p) + (b * p + r);
    assert b * p + r < 256 * p by {
      if b < 255 {
        AtLeast(255 - b, p);
        assert (255 - b) * p == 255 * p - b * p;
      }
    }
    assert 0 <= b * p by {
      if b > 0 {
        AtLeast(b, p);
      }
    }
    Unique(w, 256 * p, a, b * p + r);
  }

  lemma Eight()
    ensures Power(8) == 0x1_0000_0000_0000_0000
  {
    assert Power(4) == 0x1_0000_0000;
    assert Power(8) == 0x1_0000_0000 * Power(4);
  }

  // A word stored is the word read.
  lemma Le64Reads(v: int)
    requires IsWord(v)
    ensures Word(Le64(v), 0, 8) == v
  {
    Eight();
    BytesWord(v, 8);
    Unique(v, 0x1_0000_0000_0000_0000, 0, v);
  }

  lemma Shift(a: seq<Byte>, b: seq<Byte>, at: int, n: int)
    requires 0 <= at && 0 <= n && at + n <= |b|
    ensures (a + b)[|a| + at..|a| + at + n] == b[at..at + n]
  {
  }

  lemma {:induction false} WordsSlice(ws: seq<int>, i: int)
    requires 0 <= i < |ws|
    ensures Words(ws)[8 * i..8 * i + 8] == Le64(ws[i])
    decreases i
  {
    hide Le64;
    var t := Words(ws[1..]);
    if i == 0 {
      assert (Le64(ws[0]) + t)[..8] == Le64(ws[0]);
    } else {
      WordsSlice(ws[1..], i - 1);
      Shift(Le64(ws[0]), t, 8 * (i - 1), 8);
      assert 8 + 8 * (i - 1) == 8 * i;
    }
  }

  // Reading the i-th word of memory that begins with these.
  lemma WordAt(ws: seq<int>, rest: seq<Byte>, i: int)
    requires 0 <= i < |ws| && IsWord(ws[i])
    ensures Word(Words(ws) + rest, 8 * i, 8) == ws[i]
  {
    hide Le64, Word, Words;
    var s, w, k := Words(ws) + rest, Le64(ws[i]), 8 * i;
    WordsSlice(ws, i);
    assert s[k..k + 8] == Words(ws)[k..k + 8] == w == w[0..8];
    SameWord(s, k, w, 0, 8);
    Le64Reads(ws[i]);
  }

  // ---------------------------------------------------------------------------
  // Strings
  // ---------------------------------------------------------------------------

  // The string and its NUL stand at the address.
  ghost predicate Points(bytes: seq<Byte>, sp: int, address: int, s: seq<Byte>) {
    var at := address - sp;
    0 <= at && at + |s| + 1 <= |bytes| && bytes[at..at + |s| + 1] == s + [0]
  }

  lemma PointsStill(bytes: seq<Byte>, sp: int, address: int, s: seq<Byte>, more: seq<Byte>)
    requires Points(bytes, sp, address, s)
    ensures Points(more + bytes, sp - |more|, address, s)
  {
    var at := address - sp;
    var u := more + bytes;
    assert u[|more| + at..|more| + at + |s| + 1] == bytes[at..at + |s| + 1];
  }

  ghost predicate AllPoint(bytes: seq<Byte>, sp: int, addresses: seq<int>, ss: seq<seq<Byte>>) {
    |addresses| == |ss| && forall i :: 0 <= i < |ss| ==> Points(bytes, sp, addresses[i], ss[i]) && IsWord(addresses[i])
  }

  lemma AllPointStill(bytes: seq<Byte>, sp: int, addresses: seq<int>, ss: seq<seq<Byte>>, more: seq<Byte>)
    requires AllPoint(bytes, sp, addresses, ss)
    ensures AllPoint(more + bytes, sp - |more|, addresses, ss)
  {
    forall i | 0 <= i < |ss| ensures Points(more + bytes, sp - |more|, addresses[i], ss[i]) {
      PointsStill(bytes, sp, addresses[i], ss[i], more);
    }
  }

  // What strings cost: their bytes, their NULs and a pointer each.
  function Cost(ss: seq<seq<Byte>>): nat {
    if ss == [] then 0 else Cost(ss[..|ss| - 1]) + |ss[|ss| - 1]| + 1 + 8
  }

  // The bytes and NULs alone.
  ghost function Weight(ss: seq<seq<Byte>>): nat {
    if ss == [] then 0 else Weight(ss[1..]) + |ss[0]| + 1
  }

  lemma {:induction false} WeightMore(ss: seq<seq<Byte>>, s: seq<Byte>)
    ensures Weight(ss + [s]) == Weight(ss) + |s| + 1
  {
    if ss == [] {
      assert (ss + [s])[1..] == [];
    } else {
      assert (ss + [s])[1..] == ss[1..] + [s];
      WeightMore(ss[1..], s);
    }
  }

  lemma {:induction false} CostIs(ss: seq<seq<Byte>>)
    ensures Cost(ss) == Weight(ss) + 8 * |ss|
  {
    if ss != [] {
      var init, s := ss[..|ss| - 1], ss[|ss| - 1];
      CostIs(init);
      WeightMore(init, s);
      assert init + [s] == ss;
    }
  }

  // The auxiliary vector in the order it is pushed, the terminator first.
  function Auxv(image: Image, execfn: int, random: int, platform: int): (v: seq<(int, int)>)
    ensures |v| == 19 && v[0] == (AT_NULL, 0)
  {
    [(AT_NULL, 0), (31, execfn), (26, 0), (25, random), (23, 0), (17, 100), (16, image.hwcap), (15, platform),
     (14, 0), (13, 0), (12, 0), (11, 0), (9, image.entry), (8, 0), (7, image.base), (5, image.phnum), (4, 56),
     (3, image.phdr), (6, 4096)]
  }

  // Each tag with its value: AT_PHDR, AT_PHENT, AT_PHNUM, AT_PAGESZ, AT_BASE, AT_FLAGS,
  // AT_ENTRY, the four user and group numbers, AT_PLATFORM, AT_HWCAP, AT_CLKTCK,
  // AT_SECURE, AT_RANDOM, AT_HWCAP2 and AT_EXECFN.
  lemma AuxvTags(image: Image, execfn: int, random: int, platform: int)
    ensures var v := Auxv(image, execfn, random, platform);
            && (3, image.phdr) in v && (4, 56) in v && (5, image.phnum) in v && (6, 4096) in v
            && (7, image.base) in v && (8, 0) in v && (9, image.entry) in v
            && (11, 0) in v && (12, 0) in v && (13, 0) in v && (14, 0) in v
            && (15, platform) in v && (16, image.hwcap) in v && (17, 100) in v
            && (23, 0) in v && (25, random) in v && (26, 0) in v && (31, execfn) in v
  {
    var v := Auxv(image, execfn, random, platform);
    assert v[17] == (3, image.phdr) && v[16] == (4, 56) && v[15] == (5, image.phnum) && v[18] == (6, 4096);
    assert v[14] == (7, image.base) && v[13] == (8, 0) && v[12] == (9, image.entry);
    assert v[11] == (11, 0) && v[10] == (12, 0) && v[9] == (13, 0) && v[8] == (14, 0);
    assert v[7] == (15, platform) && v[6] == (16, image.hwcap) && v[5] == (17, 100);
    assert v[4] == (23, 0) && v[3] == (25, random) && v[2] == (26, 0) && v[1] == (31, execfn);
  }

  // No tag is there twice, and only the terminator has tag 0.
  lemma AuxvOnce(image: Image, execfn: int, random: int, platform: int, i: int, j: int)
    requires 0 <= i < j < 19
    ensures var v := Auxv(image, execfn, random, platform); v[i].0 != v[j].0 && v[j].0 != 0
  {
  }

  // The pairs as words from the last pushed to the first.
  ghost function Pairs(v: seq<(int, int)>): (ws: seq<int>)
    ensures |ws| == 2 * |v|
  {
    if v == [] then [] else [v[|v| - 1].0, v[|v| - 1].1] + Pairs(v[..|v| - 1])
  }

  class Stack {
    var sp: int
    const bottom: int
    ghost var bytes: seq<Byte>

    ghost predicate Valid()
      reads this
    {
      0 < bottom <= sp <= STACK_TOP && bottom % 16 == 0 && |bytes| == STACK_TOP - sp
    }

    constructor (pages: nat)
      requires pages * PAGE < STACK_TOP
      ensures Valid() && sp == STACK_TOP && bottom == STACK_TOP - pages * PAGE
    {
      sp, bottom, bytes := STACK_TOP, STACK_TOP - pages * PAGE, [];
    }

    // push_bytes: a copy below the mapped pages fails.
    method Push(data: seq<Byte>) returns (ok: bool)
      requires Valid()
      modifies this
      ensures Valid() && (ok <==> old(sp) - |data| >= bottom)
      ensures ok ==> sp == old(sp) - |data| && bytes == data + old(bytes)
      ensures !ok ==> sp == old(sp) && bytes == old(bytes)
    {
      if sp < |data| || sp - |data| < bottom {
        return false;
      }
      sp := sp - |data|;
      bytes := data + bytes;
      return true;
    }

    method PushWord(v: int, ghost below: seq<Byte>, ghost ws: seq<int>) returns (ok: bool)
      requires Valid() && bytes == Words(ws) + below
      modifies this
      ensures Valid() && (ok <==> old(sp) - 8 >= bottom)
      ensures ok ==> sp == old(sp) - 8 && bytes == Words([v] + ws) + below
    {
      hide Words, Le64;
      WordsPush(v, ws, below);
      ok := Push(Le64(v));
    }

    // Strings from the last to the first, so that they stand in order.
    method PushStrings(ss: seq<seq<Byte>>) returns (ok: bool, addresses: seq<int>, ghost data: seq<Byte>)
      requires Valid()
      modifies this
      ensures Valid() && (ok <==> old(sp) - Weight(ss) >= bottom)
      ensures ok ==> sp == old(sp) - Weight(ss) && bytes == data + old(bytes) && |data| == Weight(ss) && AllPoint(bytes, sp, addresses, ss)
    {
      hide Points, AllPoint, Weight;
      addresses, data := [], [];
      var i := |ss|;
      NoStrings(ss, bytes, sp);
      while i > 0
        invariant 0 <= i <= |ss| && Valid() && sp == old(sp) - Weight(ss[i..])
        invariant bytes == data + old(bytes) && |data| == Weight(ss[i..]) && AllPoint(bytes, sp, addresses, ss[i..])
      {
        var s := ss[i - 1] + [0];
        StringTurn(bytes, sp, addresses, ss, i);
        ok := Push(s);
        if !ok {
          return;
        }
        addresses := [sp] + addresses;
        assert s + (data + old(bytes)) == s + data + old(bytes);
        data := s + data;
        i := i - 1;
      }
      assert ss[0..] == ss;
      ok := true;
    }

    method PushAddresses(addresses: seq<int>, ghost below: seq<Byte>, ghost ws: seq<int>) returns (ok: bool)
      requires Valid() && bytes == Words(ws) + below
      modifies this
      ensures Valid() && (ok <==> old(sp) - 8 * |addresses| >= bottom)
      ensures ok ==> sp == old(sp) - 8 * |addresses| && bytes == Words(addresses + ws) + below
    {
      hide Words;
      var i := |addresses|;
      assert addresses[i..] + ws == ws;
      while i > 0
        invariant 0 <= i <= |addresses| && Valid() && sp == old(sp) - 8 * (|addresses| - i)
        invariant bytes == Words(addresses[i..] + ws) + below
      {
        assert [addresses[i - 1]] + (addresses[i..] + ws) == addresses[i - 1..] + ws;
        ok := PushWord(addresses[i - 1], below, addresses[i..] + ws);
        if !ok {
          return;
        }
        i := i - 1;
      }
      assert addresses[0..] + ws == addresses + ws;
      ok := true;
    }

    method PushPairs(v: seq<(int, int)>, ghost below: seq<Byte>) returns (ok: bool)
      requires Valid() && bytes == below
      modifies this
      ensures Valid() && (ok <==> old(sp) - 16 * |v| >= bottom)
      ensures ok ==> sp == old(sp) - 16 * |v| && bytes == Words(Pairs(v)) + below
    {
      hide Words, Pairs;
      NoWords(below);
      assert v[..0] == [];
      for i := 0 to |v|
        invariant Valid() && sp == old(sp) - 16 * i && bytes == Words(Pairs(v[..i])) + below
      {
        PairsMore(v, i);
        ok := PushWord(v[i].1, below, Pairs(v[..i]));
        if !ok {
          return;
        }
        assert [v[i].0] + ([v[i].1] + Pairs(v[..i])) == [v[i].0, v[i].1] + Pairs(v[..i]);
        ok := PushWord(v[i].0, below, [v[i].1] + Pairs(v[..i]));
        if !ok {
          return;
        }
      }
      assert v[..|v|] == v;
      ok := true;
    }

    // The stack pointer is rounded down; the bytes skipped are zero.
    method Align()
      requires Valid()
      modifies this
      ensures Valid() && sp % 16 == 0 && old(sp) - 15 <= sp <= old(sp) && bytes == Zeros(old(sp) - sp) + old(bytes)
    {
      bytes := Zeros(sp % 16) + bytes;
      sp := sp - sp % 16;
    }

    // Everything above the words: random bytes, platform name, strings, padding.
    method PlaceData(argv: seq<seq<Byte>>, envp: seq<seq<Byte>>, random: seq<Byte>, platform: seq<Byte>)
      returns (ok: bool, args: seq<int>, envs: seq<int>, randomAt: int, platformAt: int)
      requires Valid() && sp == STACK_TOP && |random| == 16 && |platform| <= 7
      modifies this
      ensures Valid() && (ok <== STACK_TOP - bottom >= Weight(argv) + Weight(envp) + 39)
      ensures ok ==>
                && sp % 16 == 0 && STACK_TOP - sp <= Weight(argv) + Weight(envp) + 39
                && AllPoint(bytes, sp, args, argv) && AllPoint(bytes, sp, envs, envp)
                && Points(bytes, sp, platformAt, platform) && IsWord(platformAt) && IsWord(randomAt)
                && sp <= randomAt && randomAt + 16 == STACK_TOP && bytes[randomAt - sp..] == random
    {
      hide Points, AllPoint, Weight, Zeros;
      args, envs := [], [];
      ok, randomAt, platformAt := PlaceNames(random, platform);
      if !ok {
        return;
      }
      ghost var b1, s1 := bytes, sp;
      ghost var data;
      ok, envs, data := PushStrings(envp);
      if !ok {
        return;
      }
      ghost var data2 := data;
      ok, args, data := PushStrings(argv);
      if !ok {
        return;
      }
      ghost var s3 := sp;
      Align();
      DataPlaced(b1, s1, data2, data, s3 - sp, args, argv, envs, envp, platformAt, platform, randomAt, random);
    }

    method PlaceNames(random: seq<Byte>, platform: seq<Byte>) returns (ok: bool, randomAt: int, platformAt: int)
      requires Valid() && sp == STACK_TOP && |random| == 16 && |platform| <= 7
      modifies this
      ensures Valid() && (ok <==> STACK_TOP - 17 - |platform| >= bottom)
      ensures ok ==>
                && sp == platformAt == STACK_TOP - 17 - |platform| && randomAt == STACK_TOP - 16
                && Points(bytes, sp, platformAt, platform) && bytes[randomAt - sp..] == random
    {
      hide Points;
      randomAt, platformAt := 0, 0;
      ok := Push(random);
      if !ok {
        return;
      }
      assert bytes == random;
      randomAt := sp;
      PointsNew(bytes, sp - |platform| - 1, platform);
      ok := Push(platform + [0]);
      platformAt := sp;
    }

    // The words: argc, argv, NULL, envp, NULL and the auxiliary vector, from the
    // stack pointer up.
    method PlaceWords(args: seq<int>, envs: seq<int>, auxv: seq<(int, int)>) returns (ok: bool, ghost below: seq<Byte>, ghost pad: seq<Byte>)
      requires Valid() && sp % 16 == 0
      modifies this
      ensures Valid() && (ok <== old(sp) - 8 * (2 * |auxv| + |envs| + |args| + 4) >= bottom)
      ensures ok ==>
                && sp % 16 == 0 && |pad| <= 8 && below == pad + old(bytes)
                && bytes == Words(Layout(args, envs, auxv)) + below
    {
      hide Layout;
      ok, pad := Even(|auxv| * 2 + 1 + |envs| + 1 + |args| + 1);
      below := bytes;
      if !ok {
        return;
      }
      ok := PlaceLayout(args, envs, auxv);
    }

    // A zero word where the words would leave the stack pointer unaligned.
    method Even(words: nat) returns (ok: bool, ghost pad: seq<Byte>)
      requires Valid() && sp % 16 == 0
      modifies this
      ensures Valid() && (ok <== old(sp) - 8 >= bottom)
      ensures ok ==> (sp - words * 8) % 16 == 0 && old(sp) - 8 <= sp && |pad| == old(sp) - sp && bytes == pad + old(bytes)
    {
      hide Le64;
      Parity(sp, words);
      pad, ok := [], true;
      assert [] + bytes == bytes;
      if (sp - words * 8) % 16 != 0 {
        ok := Push(Le64(0));
        pad := Le64(0);
      }
    }

    method PlaceLayout(args: seq<int>, envs: seq<int>, auxv: seq<(int, int)>) returns (ok: bool)
      requires Valid()
      modifies this
      ensures Valid() && (ok <==> old(sp) - 8 * (2 * |auxv| + |envs| + |args| + 3) >= bottom)
      ensures ok ==> sp == old(sp) - 8 * (2 * |auxv| + |envs| + |args| + 3) && bytes == Words(Layout(args, envs, auxv)) + old(bytes)
    {
      hide Words, Pairs;
      ghost var below := bytes;
      ok := PushPairs(auxv, below);
      if !ok {
        return;
      }
      ghost var ws := Pairs(auxv);
      ok := PushWord(0, below, ws);
      if !ok {
        return;
      }
      ok := PushAddresses(envs, below, [0] + ws);
      if !ok {
        return;
      }
      ok := PushWord(0, below, envs + ([0] + ws));
      if !ok {
        return;
      }
      ok := PushAddresses(args, below, [0] + (envs + ([0] + ws)));
      if !ok {
        return;
      }
      ok := PushWord(|args|, below, args + ([0] + (envs + ([0] + ws))));
    }

    // place_initial_stack: with the pages the loader maps it cannot fail, and what it
    // leaves is the process entry state of the ABI.
    method Place(argv: seq<seq<Byte>>, envp: seq<seq<Byte>>, random: seq<Byte>, platform: seq<Byte>, image: Image)
      returns (ok: bool, args: seq<int>, envs: seq<int>, ghost auxv: seq<(int, int)>, ghost below: seq<Byte>)
      requires Valid() && sp == STACK_TOP && |random| == 16 && |platform| <= 7
      modifies this
      ensures Valid() && (ok <== STACK_TOP - bottom >= Cost(argv) + Cost(envp) + 39 + 336)
      ensures ok ==> EntryState(sp, bytes, argv, envp, random, platform, image, args, envs, auxv, below)
    {
      hide Points, AllPoint, Weight, Words, Cost, Layout;
      CostIs(argv);
      CostIs(envp);
      auxv, below := [], [];
      var randomAt, platformAt;
      ok, args, envs, randomAt, platformAt := PlaceData(argv, envp, random, platform);
      if !ok {
        return;
      }
      Counts(bytes, sp, args, argv, envs, envp);
      var execfn := if argv == [] then 0 else args[0];
      auxv := Auxv(image, execfn, randomAt, platformAt);
      ghost var b, s, pad := bytes, sp, [];
      ok, below, pad := PlaceWords(args, envs, Auxv(image, execfn, randomAt, platformAt));
      if !ok {
        return;
      }
      ghost var more := Words(Layout(args, envs, auxv)) + pad;
      assert bytes == more + b;
      assert sp == s - |more|;
      PointsStill(b, s, platformAt, platform, more);
      AllPointStill(b, s, args, argv, more);
      AllPointStill(b, s, envs, envp, more);
      assert bytes[randomAt - sp..] == b[randomAt - s..];
    }
  }

  // The process entry state: the words at the aligned stack pointer, the strings
  // they point at, and the two auxiliary entries that point into the stack.
  ghost predicate EntryState(sp: int, bytes: seq<Byte>, argv: seq<seq<Byte>>, envp: seq<seq<Byte>>, random: seq<Byte>, platform: seq<Byte>,
                             image: Image, args: seq<int>, envs: seq<int>, auxv: seq<(int, int)>, below: seq<Byte>)
  {
    && sp % 16 == 0 && AllPoint(bytes, sp, args, argv) && AllPoint(bytes, sp, envs, envp)
    && bytes == Words(Layout(args, envs, auxv)) + below
    && |auxv| == 19 && auxv[0] == (AT_NULL, 0)
    && Points(bytes, sp, auxv[7].1, platform)
    && sp <= auxv[3].1 && auxv[3].1 + 16 == 0x7FFF_FFF0_0000 && auxv[3].1 - sp <= |bytes| && bytes[auxv[3].1 - sp..] == random
    && auxv == Auxv(image, if argv == [] then 0 else args[0], auxv[3].1, auxv[7].1)
  }

  // The words at the stack pointer.
  ghost function Layout(args: seq<int>, envs: seq<int>, auxv: seq<(int, int)>): seq<int> {
    [|args|] + (args + ([0] + (envs + ([0] + Pairs(auxv)))))
  }

  // Reading the words back one by one: the number of arguments, the arguments, a
  // NULL, the environment, a NULL, and the pairs up to AT_NULL.
  lemma Decodes(args: seq<int>, envs: seq<int>, auxv: seq<(int, int)>, below: seq<Byte>, i: int)
    requires 0 <= i < |Layout(args, envs, auxv)| && IsWord(Layout(args, envs, auxv)[i])
    ensures 8 * i + 8 <= |Words(Layout(args, envs, auxv)) + below|
    ensures var v := Word(Words(Layout(args, envs, auxv)) + below, 8 * i, 8); var n, m, a := |args|, |envs|, |auxv|;
            && (i == 0 ==> v == n)
            && (1 <= i <= n ==> v == args[i - 1])
            && (i == n + 1 ==> v == 0)
            && (n + 2 <= i <= n + m + 1 ==> v == envs[i - n - 2])
            && (i == n + m + 2 ==> v == 0)
            && (i >= n + m + 3 ==> var k := i - n - m - 3; 0 <= k < 2 * a && v == Pairs(auxv)[k])
  {
    hide Word, Words, Layout, Pairs;
    WordAt(Layout(args, envs, auxv), below, i);
    LayoutAt(args, envs, auxv, i);
  }

  lemma LayoutAt(args: seq<int>, envs: seq<int>, auxv: seq<(int, int)>, i: int)
    requires 0 <= i < |Layout(args, envs, auxv)|
    ensures var v := Layout(args, envs, auxv)[i]; var n, m, a := |args|, |envs|, |auxv|;
            && (i == 0 ==> v == n)
            && (1 <= i <= n ==> v == args[i - 1])
            && (i == n + 1 ==> v == 0)
            && (n + 2 <= i <= n + m + 1 ==> v == envs[i - n - 2])
            && (i == n + m + 2 ==> v == 0)
            && (i >= n + m + 3 ==> var k := i - n - m - 3; 0 <= k < 2 * a && v == Pairs(auxv)[k])
  {
  }

  // The pairs are read in the reverse of the order they were pushed, so the first
  // one pushed, AT_NULL, comes last.
  lemma {:induction false} PairsAt(v: seq<(int, int)>, k: int)
    requires 0 <= k < |v|
    ensures Pairs(v)[2 * k] == v[|v| - 1 - k].0 && Pairs(v)[2 * k + 1] == v[|v| - 1 - k].1
  {
    if k > 0 {
      PairsAt(v[..|v| - 1], k - 1);
    }
  }

  // Everything keeps its place as the data grows downwards.
  lemma DataPlaced(b: seq<Byte>, s: int, envData: seq<Byte>, argData: seq<Byte>, slack: nat,
                   args: seq<int>, argv: seq<seq<Byte>>, envs: seq<int>, envp: seq<seq<Byte>>,
                   platformAt: int, platform: seq<Byte>, randomAt: int, random: seq<Byte>)
    requires Points(b, s, platformAt, platform) && s <= randomAt && randomAt - s <= |b| && b[randomAt - s..] == random
    requires AllPoint(envData + b, s - |envData|, envs, envp)
    requires AllPoint(argData + (envData + b), s - |envData| - |argData|, args, argv)
    ensures var bytes, sp := Zeros(slack) + (argData + (envData + b)), s - |envData| - |argData| - slack;
            && AllPoint(bytes, sp, args, argv) && AllPoint(bytes, sp, envs, envp) && Points(bytes, sp, platformAt, platform)
            && 0 <= randomAt - sp <= |bytes| && bytes[randomAt - sp..] == random
  {
    hide Points, AllPoint, Zeros;
    ZerosLength(slack);
    var pad, e := Zeros(slack), envData + b;
    AllPointStill(argData + e, s - |envData| - |argData|, args, argv, pad);
    AllPointStill(e, s - |envData|, envs, envp, argData);
    AllPointStill(argData + e, s - |envData| - |argData|, envs, envp, pad);
    var all := pad + (argData + envData);
    assert pad + (argData + e) == all + b;
    PointsStill(b, s, platformAt, platform, all);
  }

  lemma Counts(bytes: seq<Byte>, sp: int, args: seq<int>, argv: seq<seq<Byte>>, envs: seq<int>, envp: seq<seq<Byte>>)
    requires AllPoint(bytes, sp, args, argv) && AllPoint(bytes, sp, envs, envp)
    ensures |args| == |argv| && |envs| == |envp|
  {
  }

  lemma ZerosLength(n: nat)
    ensures |Zeros(n)| == n
  {
  }

  lemma NoStrings(ss: seq<seq<Byte>>, bytes: seq<Byte>, sp: int)
    ensures ss[|ss|..] == [] && Weight([]) == 0 && AllPoint(bytes, sp, [], []) && [] + bytes == bytes
  {
  }

  lemma NoWords(below: seq<Byte>)
    ensures Words(Pairs([])) + below == below
  {
    assert Pairs([]) == [] && Words([]) == [];
    assert [] + below == below;
  }

  lemma PairsMore(v: seq<(int, int)>, i: int)
    requires 0 <= i < |v|
    ensures Pairs(v[..i + 1]) == [v[i].0, v[i].1] + Pairs(v[..i])
  {
    assert v[..i + 1][..i] == v[..i] && v[..i + 1][i] == v[i];
  }

  // One more string below the others.
  lemma StringTurn(bytes: seq<Byte>, sp: int, addresses: seq<int>, ss: seq<seq<Byte>>, i: int)
    requires 0 < i <= |ss| && AllPoint(bytes, sp, addresses, ss[i..]) && 0 <= sp <= STACK_TOP
    ensures var s := ss[i - 1] + [0];
            && Weight(ss[i - 1..]) == Weight(ss[i..]) + |s| <= Weight(ss)
            && (sp - |s| > 0 ==> AllPoint(s + bytes, sp - |s|, [sp - |s|] + addresses, ss[i - 1..]))
  {
    var s := ss[i - 1] + [0];
    assert ss[i - 1..] == [ss[i - 1]] + ss[i..] && ss[i - 1..][1..] == ss[i..];
    WeightPart(ss, i - 1);
    hide Points, Weight;
    AllPointStill(bytes, sp, addresses, ss[i..], s);
    PointsNew(bytes, sp - |s|, ss[i - 1]);
    if sp - |s| > 0 {
      var more, t := [sp - |s|] + addresses, ss[i - 1..];
      forall k | 0 <= k < |t| ensures Points(s + bytes, sp - |s|, more[k], t[k]) && IsWord(more[k]) {
        if k > 0 {
          assert more[k] == addresses[k - 1] && t[k] == ss[i..][k - 1];
        }
      }
    }
  }

  // ---------------------------------------------------------------------------
  // The loader
  // ---------------------------------------------------------------------------

  // The sizing loops of elf_load_process.
  method StackPages(argv: seq<seq<Byte>>, envp: seq<seq<Byte>>) returns (pages: nat)
    ensures pages * PAGE >= 4096 + Cost(argv) + Cost(envp) + INITIAL_PAGES * PAGE
    ensures pages == (4096 + Cost(argv) + Cost(envp) + 4095) / 4096 + INITIAL_PAGES
  {
    var bytes := 4096;
    for i := 0 to |argv|
      invariant bytes == 4096 + Cost(argv[..i])
    {
      assert argv[..i + 1][..i] == argv[..i];
      bytes := bytes + |argv[i]| + 1 + 8;
    }
    assert argv[..|argv|] == argv;
    for i := 0 to |envp|
      invariant bytes == 4096 + Cost(argv) + Cost(envp[..i])
    {
      assert envp[..i + 1][..i] == envp[..i];
      bytes := bytes + |envp[i]| + 1 + 8;
    }
    assert envp[..|envp|] == envp;
    pages := (bytes + 4095) / 4096 + INITIAL_PAGES;
  }

  // Sizing, mapping and placing: unless the stack would run below its floor, the
  // stack is placed, for any arguments and environment.
  method LoadStack(argv: seq<seq<Byte>>, envp: seq<seq<Byte>>, random: seq<Byte>, platform: seq<Byte>, image: Image, floor: int)
    returns (ok: bool, stack: Stack?, args: seq<int>, envs: seq<int>, ghost auxv: seq<(int, int)>, ghost below: seq<Byte>)
    requires |random| == 16 && |platform| <= 7 && floor > 0
    ensures ok <==> STACK_TOP - ((4096 + Cost(argv) + Cost(envp) + 4095) / 4096 + INITIAL_PAGES) * PAGE >= floor
    ensures ok ==> stack != null && stack.Valid() && EntryState(stack.sp, stack.bytes, argv, envp, random, platform, image, args, envs, auxv, below)
  {
    var pages := StackPages(argv, envp);
    if STACK_TOP - pages * PAGE < floor {
      return false, null, [], [], [], [];
    }
    hide EntryState;
    stack := new Stack(pages);
    ok, args, envs, auxv, below := stack.Place(argv, envp, random, platform, image);
  }

  lemma {:induction false} WeightPart(ss: seq<seq<Byte>>, i: int)
    requires 0 <= i <= |ss|
    ensures Weight(ss[i..]) <= Weight(ss)
  {
    if i == 0 {
      assert ss[0..] == ss;
    } else {
      WeightPart(ss[1..], i - 1);
      assert ss[1..][i - 1..] == ss[i..];
    }
  }

  lemma PointsNew(bytes: seq<Byte>, sp: int, s: seq<Byte>)
    ensures Points(s + [0] + bytes, sp, sp, s)
  {
    assert (s + [0] + bytes)[0..|s| + 1] == s + [0];
  }
}
