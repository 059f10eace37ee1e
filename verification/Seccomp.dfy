/**
 Filter chains of processes (kernel/core/seccomp.c, `attach_filter`,
 `seccomp_set_mode_strict`, `seccomp_decide`, `seccomp_inherit`,
 `seccomp_release`): chains that share their older part, with a reference count
 in every filter.

 The processes are numbered; a process that does not exist has no filters.
 */
module Seccomp {
  import opened Bpf
  import opened Errno
  import opened Lists

  const DISABLED: int := 0
  const STRICT: int := 1
  const FILTER: int := 2

  datatype Filter = Filter(prev: Ref, refs: int, program: Program)

  type Filters = map<Ref, Filter>

  // A walk along `prev` from the head is s, newest first.
  ghost predicate Chain(t: Filters, head: Ref, s: seq<Ref>)
    decreases |s|
  {
    if s == [] then head == NULL
    else head == s[0] && head != NULL && head in t && Accepted(t[head].program) && Chain(t, t[head].prev, s[1..])
  }

  // How many of the chains a filter is on.
  ghost function Holders(chains: seq<seq<Ref>>, f: Ref): int {
    if chains == [] then 0 else Holders(chains[1..], f) + if f in chains[0] then 1 else 0
  }

  lemma {:induction false} HoldersUpdate(chains: seq<seq<Ref>>, p: int, s: seq<Ref>, f: Ref)
    requires 0 <= p < |chains|
    ensures Holders(chains[p := s], f) == Holders(chains, f) - (if f in chains[p] then 1 else 0) + (if f in s then 1 else 0)
  {
    if p == 0 {
      assert chains[0 := s][1..] == chains[1..];
    } else {
      assert chains[p := s][1..] == chains[1..][p - 1 := s];
      HoldersUpdate(chains[1..], p - 1, s, f);
    }
  }

  lemma {:induction false} HoldersNone(chains: seq<seq<Ref>>, f: Ref)
    ensures Holders(chains, f) >= 0
    ensures Holders(chains, f) == 0 <==> forall p :: 0 <= p < |chains| ==> f !in chains[p]
  {
    if chains != [] {
      HoldersNone(chains[1..], f);
      if Holders(chains, f) == 0 {
        forall p | 0 <= p < |chains| ensures f !in chains[p] {
          assert p > 0 ==> chains[p] == chains[1..][p - 1];
        }
      }
    }
  }

  // A chain looks at its own filters, and not at their counts.
  lemma {:induction false} ChainFrame(t: Filters, t': Filters, head: Ref, s: seq<Ref>)
    requires Chain(t, head, s)
    requires forall f :: f in s && f in t ==> f in t' && t'[f].prev == t[f].prev && t'[f].program == t[f].program
    ensures Chain(t', head, s)
    decreases |s|
  {
    if s != [] {
      var f := s[0];
      assert f in s;
      ChainFrame(t, t', t[head].prev, s[1..]);
    }
  }

  lemma {:induction false} ChainMembers(t: Filters, head: Ref, s: seq<Ref>, i: int)
    requires Chain(t, head, s) && 0 <= i < |s|
    ensures s[i] != NULL && s[i] in t && Accepted(t[s[i]].program)
    ensures t[s[i]].prev == if i + 1 < |s| then s[i + 1] else NULL
    decreases |s|
  {
    if i > 0 {
      ChainMembers(t, t[head].prev, s[1..], i - 1);
    }
  }

  lemma ChainHead(t: Filters, head: Ref, s: seq<Ref>)
    requires Chain(t, head, s)
    ensures head == if s == [] then NULL else s[0]
  {
  }

  // The programs along a chain.
  ghost function Programs(t: Filters, s: seq<Ref>): (r: seq<Program>)
    ensures |r| == |s| && forall i :: 0 <= i < |s| ==> r[i] == if s[i] in t then t[s[i]].program else []
  {
    seq(|s|, i requires 0 <= i < |s| => if s[i] in t then t[s[i]].program else [])
  }

  // Every count is the number of chains through the filter.
  ghost predicate Counted(t: Filters, chains: seq<seq<Ref>>) {
    forall f :: f in t ==> t[f].refs == Holders(chains, f) > 0
  }

  ghost predicate Chains(t: Filters, heads: seq<Ref>, chains: seq<seq<Ref>>) {
    && |heads| == |chains|
    && forall p :: 0 <= p < |chains| ==> Chain(t, heads[p], chains[p]) && NoRepeats(chains[p])
  }

  // Some of the counts of a chain already changed by d: those of its first i filters.
  ghost predicate Counting(t: Filters, t': Filters, s: seq<Ref>, i: int, d: int) {
    && 0 <= i <= |s| && t'.Keys == t.Keys
    && forall f :: f in t ==> t'[f] == t[f].(refs := t[f].refs + if f in s[..i] then d else 0)
  }

  // strict_allows: read, write, exit, exit_group and the return from a signal handler.
  predicate StrictAllows(number: int, x86: bool) {
    number in if x86 then {0, 1, 60, 231, 15} else {63, 64, 93, 94, 139}
  }

  class Table {
    var filters: Filters
    var modes: seq<int>
    var heads: seq<Ref>
    ghost var chains: seq<seq<Ref>>

    ghost predicate Valid()
      reads this
    {
      && Chains(filters, heads, chains) && Counted(filters, chains) && |modes| == |heads|
      && (forall p :: 0 <= p < |modes| ==> (chains[p] != [] ==> modes[p] == FILTER))
    }

    constructor (n: nat)
      ensures Valid() && |modes| == n && filters == map[]
    {
      filters, modes, heads := map[], seq(n, _ => DISABLED), seq(n, _ => NULL);
      chains := seq(n, _ => []);
    }

    // attach_filter: a filter that cannot be attached is given back.
    method Attach(p: int, f: Ref, program: Program) returns (code: int)
      requires Valid() && 0 <= p < |modes| && f != NULL && f !in filters && Accepted(program)
      modifies this
      ensures Valid() && |modes| == |old(modes)| && |old(chains)| == |modes|
      ensures code == if old(modes[p]) == STRICT then -EINVAL else 0
      ensures code != 0 ==> filters == old(filters) && modes == old(modes) && chains == old(chains)
      ensures code == 0 ==>
                && modes == old(modes)[p := FILTER] && chains == old(chains)[p := [f] + old(chains)[p]]
                && filters == old(filters)[f := Filter(old(heads[p]), 1, program)]
    {
      if modes[p] == STRICT {
        return -EINVAL;
      }
      hide Accepted, Chain, Holders, NoRepeats;
      AttachKeeps(filters, heads, chains, p, f, program);
      filters := filters[f := Filter(heads[p], 1, program)];
      heads := heads[p := f];
      modes := modes[p := FILTER];
      chains := chains[p := [f] + chains[p]];
      return 0;
    }

    method SetStrict(p: int) returns (code: int)
      requires Valid() && 0 <= p < |modes|
      modifies this`modes
      ensures Valid() && code == (if old(modes[p]) == FILTER then -EINVAL else 0)
      ensures modes == if code == 0 then old(modes)[p := STRICT] else old(modes)
    {
      if modes[p] == FILTER {
        return -EINVAL;
      }
      modes := modes[p := STRICT];
      return 0;
    }

    // seccomp_inherit: the child shares the whole chain.
    method Inherit(child: int, parent: int)
      requires Valid() && 0 <= child < |modes| && 0 <= parent < |modes| && child != parent
      requires |chains| == |modes| && chains[child] == []
      modifies this
      ensures Valid() && |old(chains)| == |old(modes)|
      ensures modes == old(modes)[child := old(modes)[parent]] && chains == old(chains)[child := old(chains)[parent]]
      ensures filters.Keys == old(filters.Keys) && forall f :: f in filters ==> filters[f].program == old(filters[f].program)
    {
      hide Accepted, Chain, Holders, NoRepeats;
      ghost var s, was := chains[parent], filters;
      modes := modes[child := modes[parent]];
      heads := heads[child := heads[parent]];
      var f := heads[child];
      var t := filters;
      ghost var i := 0;
      ChainHead(was, old(heads)[parent], s);
      CountingStart(was, s, 1);
      while f != NULL
        invariant 0 <= i <= |s| && f == (if i < |s| then s[i] else NULL)
        invariant Counting(was, t, s, i, 1) && filters == was && chains == old(chains)
        invariant modes == old(modes)[child := old(modes)[parent]] && heads == old(heads)[child := old(heads)[parent]]
        decreases |s| - i
      {
        ChainAt(was, old(heads)[parent], s, i);
        CountingStep(was, t, s, i, 1);
        t := t[f := t[f].(refs := t[f].refs + 1)];
        f := t[f].prev;
        i := i + 1;
      }
      ChainEnd(was, old(heads)[parent], s, i);
      InheritKeeps(was, t, old(heads), chains, child, parent);
      filters := t;
      chains := chains[child := s];
    }

    // seccomp_release: a filter goes with the last chain through it.
    method Release(p: int)
      requires Valid() && 0 <= p < |modes|
      modifies this
      ensures Valid() && |old(chains)| == |old(modes)|
      ensures modes == old(modes)[p := DISABLED] && chains == old(chains)[p := []]
      ensures forall f :: f in filters <==> f in old(filters) && Holders(chains, f) > 0
      ensures forall f :: f in filters ==> filters[f].program == old(filters[f].program)
    {
      hide Accepted, Chain, Holders, NoRepeats;
      ghost var s, was := chains[p], filters;
      var f := heads[p];
      heads := heads[p := NULL];
      modes := modes[p := DISABLED];
      var t := filters;
      ghost var i := 0;
      ChainHead(was, old(heads)[p], s);
      ReleasingStart(was, s, old(chains), p);
      while f != NULL
        invariant 0 <= i <= |s| && f == (if i < |s| then s[i] else NULL)
        invariant Releasing(was, t, s, i) && filters == was && chains == old(chains)
        invariant modes == old(modes)[p := DISABLED] && heads == old(heads)[p := NULL]
        decreases |s| - i
      {
        ChainAt(was, old(heads)[p], s, i);
        ReleasingStep(was, t, s, i);
        var prev := t[f].prev;
        var refs := t[f].refs - 1;
        if refs == 0 {
          t := map g | g in t && g != f :: t[g];
        } else {
          t := t[f := t[f].(refs := refs)];
        }
        f := prev;
        i := i + 1;
      }
      ChainEnd(was, old(heads)[p], s, i);
      ReleaseKeeps(was, t, old(heads), chains, p);
      filters := t;
      chains := chains[p := []];
    }

    // seccomp_decide
    method Decide(p: int, number: int, x86: bool, data: seq<Word>) returns (verdict: Word)
      requires Valid() && 0 <= p < |modes| && |data| == DATA_BYTES / 4
      ensures modes[p] == DISABLED ==> verdict == ALLOW
      ensures modes[p] == STRICT ==>
                verdict == if number in (if x86 then {0, 1, 60, 231, 15} else {63, 64, 93, 94, 139}) then 0x7FFF_0000 else 0x8000_0000
      ensures modes[p] !in {DISABLED, STRICT} ==>
                && |chains| == |modes| && (forall i :: 0 <= i < |chains[p]| ==> Accepted(Programs(filters, chains[p])[i]))
                && Strictest(Programs(filters, chains[p]), data, verdict)
    {
      hide Accepted, Chain, Strictest;
      if modes[p] == DISABLED {
        return ALLOW;
      }
      if modes[p] == STRICT {
        return if StrictAllows(number, x86) then ALLOW else KILL_PROCESS;
      }
      ghost var s := chains[p];
      var programs, f := [], heads[p];
      ghost var i := 0;
      ChainHead(filters, heads[p], s);
      while f != NULL
        invariant 0 <= i <= |s| && f == (if i < |s| then s[i] else NULL)
        invariant programs == Programs(filters, s)[..i]
        decreases |s| - i
      {
        ChainAt(filters, heads[p], s, i);
        programs := programs + [filters[f].program];
        f := filters[f].prev;
        i := i + 1;
      }
      ChainEnd(filters, heads[p], s, i);
      assert programs == Programs(filters, s);
      verdict := Bpf.Decide(programs, data);
    }
  }

  lemma ChainAt(t: Filters, head: Ref, s: seq<Ref>, i: int)
    requires Chain(t, head, s) && 0 <= i <= |s|
    ensures i < |s| ==> s[i] != NULL && s[i] in t && Accepted(t[s[i]].program) && t[s[i]].prev == if i + 1 < |s| then s[i + 1] else NULL
  {
    if i < |s| {
      ChainMembers(t, head, s, i);
    }
  }

  lemma ChainEnd(t: Filters, head: Ref, s: seq<Ref>, i: int)
    requires Chain(t, head, s) && 0 <= i <= |s| && (i < |s| ==> s[i] == NULL)
    ensures i == |s| && s[..i] == s
    ensures forall j :: 0 <= j < |s| ==> s[j] in t && Accepted(t[s[j]].program)
  {
    if i < |s| {
      ChainMembers(t, head, s, i);
    }
    forall j | 0 <= j < |s| ensures s[j] in t && Accepted(t[s[j]].program) {
      ChainMembers(t, head, s, j);
    }
  }

  lemma CountingStart(t: Filters, s: seq<Ref>, d: int)
    ensures Counting(t, t, s, 0, d)
  {
  }

  lemma CountingStep(t: Filters, t': Filters, s: seq<Ref>, i: int, d: int)
    requires Counting(t, t', s, i, d) && i < |s| && s[i] in t && NoRepeats(s)
    ensures t'[s[i]].prev == t[s[i]].prev && Counting(t, t'[s[i] := t'[s[i]].(refs := t'[s[i]].refs + d)], s, i + 1, d)
  {
    var f := s[i];
    assert s[..i + 1] == s[..i] + [f];
    assert f in t && f !in s[..i];
    assert t'[f] == t[f].(refs := t[f].refs + 0);
  }

  // While a chain is let go: its first i filters have one reference less, or are gone.
  ghost predicate Releasing(t: Filters, t': Filters, s: seq<Ref>, i: int) {
    && 0 <= i <= |s|
    && (forall f :: f in t' <==> f in t && !(f in s[..i] && t[f].refs == 1))
    && (forall f :: f in t' ==> t'[f] == t[f].(refs := t[f].refs - if f in s[..i] then 1 else 0))
  }

  lemma ReleasingStart(t: Filters, s: seq<Ref>, chains: seq<seq<Ref>>, p: int)
    ensures Releasing(t, t, s, 0)
  {
  }

  lemma ReleasingStep(t: Filters, t': Filters, s: seq<Ref>, i: int)
    requires Releasing(t, t', s, i) && i < |s| && s[i] in t && NoRepeats(s)
    ensures s[i] in t' && t'[s[i]] == t[s[i]]
    ensures t[s[i]].refs == 1 ==> Releasing(t, map g | g in t' && g != s[i] :: t'[g], s, i + 1)
    ensures t[s[i]].refs != 1 ==> Releasing(t, t'[s[i] := t'[s[i]].(refs := t'[s[i]].refs - 1)], s, i + 1)
  {
    var f := s[i];
    assert s[..i + 1] == s[..i] + [f];
    assert f in t && f !in s[..i];
    assert f in t' && t'[f] == t[f].(refs := t[f].refs - 0);
  }

  lemma AttachKeeps(t: Filters, heads: seq<Ref>, chains: seq<seq<Ref>>, p: int, f: Ref, program: Program)
    requires Chains(t, heads, chains) && Counted(t, chains) && 0 <= p < |heads| && f != NULL && f !in t && Accepted(program)
    ensures var t' := t[f := Filter(heads[p], 1, program)]; var chains' := chains[p := [f] + chains[p]];
            Chains(t', heads[p := f], chains') && Counted(t', chains')
  {
    hide Accepted, Holders;
    var t', chains' := t[f := Filter(heads[p], 1, program)], chains[p := [f] + chains[p]];
    forall q | 0 <= q < |chains| ensures f !in chains[q] && Chain(t', heads[q], chains[q]) {
      NotOn(t, heads[q], chains[q], f);
      ChainFrame(t, t', heads[q], chains[q]);
    }
    assert ([f] + chains[p])[1..] == chains[p];
    HoldersNone(chains, f);
    forall g | g in t' ensures t'[g].refs == Holders(chains', g) > 0 {
      HoldersUpdate(chains, p, [f] + chains[p], g);
    }
  }

  lemma NotOn(t: Filters, head: Ref, s: seq<Ref>, f: Ref)
    requires Chain(t, head, s) && f !in t
    ensures f !in s
  {
    forall i | 0 <= i < |s| ensures s[i] != f {
      ChainMembers(t, head, s, i);
    }
  }

  lemma InheritKeeps(t: Filters, t': Filters, heads: seq<Ref>, chains: seq<seq<Ref>>, child: int, parent: int)
    requires Chains(t, heads, chains) && Counted(t, chains) && 0 <= child < |heads| && 0 <= parent < |heads| && chains[child] == []
    requires Counting(t, t', chains[parent], |chains[parent]|, 1)
    ensures var chains' := chains[child := chains[parent]];
            Chains(t', heads[child := heads[parent]], chains') && Counted(t', chains')
  {
    hide Accepted, Holders;
    var s, chains' := chains[parent], chains[child := chains[parent]];
    assert s[..|s|] == s;
    forall q | 0 <= q < |chains| ensures Chain(t', heads[q], chains[q]) {
      ChainFrame(t, t', heads[q], chains[q]);
    }
    forall g | g in t' ensures t'[g].refs == Holders(chains', g) > 0 {
      HoldersUpdate(chains, child, s, g);
    }
  }

  lemma ReleaseKeeps(t: Filters, t': Filters, heads: seq<Ref>, chains: seq<seq<Ref>>, p: int)
    requires Chains(t, heads, chains) && Counted(t, chains) && 0 <= p < |heads|
    requires Releasing(t, t', chains[p], |chains[p]|)
    ensures var chains' := chains[p := []];
            && Chains(t', heads[p := NULL], chains') && Counted(t', chains')
            && (forall f :: f in t' <==> f in t && Holders(chains', f) > 0)
  {
    hide Accepted, Holders;
    var s, chains' := chains[p], chains[p := []];
    assert s[..|s|] == s;
    forall g | g in t ensures g in t' <==> Holders(chains', g) > 0 {
      HoldersUpdate(chains, p, [], g);
      HoldersNone(chains', g);
    }
    forall g | g in t' ensures t'[g].refs == Holders(chains', g) > 0 {
      HoldersUpdate(chains, p, [], g);
    }
    forall q | 0 <= q < |chains| && q != p ensures Chain(t', heads[q], chains[q]) {
      forall f | f in chains[q] && f in t ensures f in t' && t'[f].prev == t[f].prev && t'[f].program == t[f].program {
        assert chains'[q] == chains[q];
        HoldersNone(chains', f);
      }
      ChainFrame(t, t', heads[q], chains[q]);
    }
  }
}
