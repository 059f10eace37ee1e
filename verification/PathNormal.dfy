/**
 Normalising a path against a process's root (kernel/core/syscall.c,
 `process_root_prefix`, `normalize_path`).

 A string does not hold its terminating NUL.  What `vfs_node_path` says about the
 root and the base directory is a parameter.
 */
module PathNormal {
  import opened Errno
  import opened Options

  const PATH_MAX: int := 4096
  const NAME_MAX: int := 255

  type Path = seq<string>

  // ---------------------------------------------------------------------------
  // Components
  // ---------------------------------------------------------------------------

  function NameLength(s: string): (n: nat)
    ensures n <= |s| && forall i :: 0 <= i < n ==> s[i] != '/'
    ensures n < |s| ==> s[n] == '/'
  {
    if s == "" || s[0] == '/' then 0 else 1 + NameLength(s[1..])
  }

  // The components of a string, empty ones left out.
  function Components(s: string): Path
    decreases |s|
  {
    if s == "" then []
    else if s[0] == '/' then Components(s[1..])
    else [s[..NameLength(s)]] + Components(s[NameLength(s)..])
  }

  predicate Plain(c: string) {
    0 < |c| <= NAME_MAX && c != "." && c != ".." && forall i :: 0 <= i < |c| ==> c[i] != '/'
  }

  ghost predicate AllPlain(p: Path) {
    forall i :: 0 <= i < |p| ==> Plain(p[i])
  }

  // Every component with a slash before it.
  function Flat(p: Path): string {
    if p == [] then "" else Flat(p[..|p| - 1]) + "/" + p[|p| - 1]
  }

  function Render(p: Path): string {
    if p == [] then "/" else Flat(p)
  }

  lemma {:induction false} NameUntil(a: string, b: string)
    requires (forall i :: 0 <= i < |a| ==> a[i] != '/') && (b == "" || b[0] == '/')
    ensures NameLength(a + b) == |a|
  {
    if a == "" {
      assert a + b == b;
    } else {
      assert (a + b)[1..] == a[1..] + b;
      NameUntil(a[1..], b);
    }
  }

  lemma {:induction false} ComponentsConcat(a: string, b: string)
    requires b == "" || b[0] == '/'
    ensures Components(a + b) == Components(a) + Components(b)
    decreases |a|
  {
    if a == "" {
      assert a + b == b;
    } else if a[0] == '/' {
      assert (a + b)[1..] == a[1..] + b;
      ComponentsConcat(a[1..], b);
    } else {
      var n := NameLength(a);
      var name, rest := a[..n], a[n..];
      assert a + b == name + (rest + b);
      NameUntil(name, rest + b);
      assert (a + b)[..n] == name && (a + b)[n..] == rest + b;
      ComponentsConcat(rest, b);
    }
  }

  lemma SlashFirst(s: string)
    ensures Components("/" + s) == Components(s)
  {
    assert ("/" + s)[1..] == s;
  }

  lemma OneName(c: string)
    requires Plain(c)
    ensures Components("/" + c) == [c]
  {
    SlashFirst(c);
    NameUntil(c, "");
    assert c + "" == c && c[..|c|] == c && c[|c|..] == "";
    assert Components("") == [];
  }

  // A rendered path has the components it was made of.
  lemma {:induction false} ComponentsOfFlat(p: Path)
    requires AllPlain(p)
    ensures Components(Flat(p)) == p
  {
    if p != [] {
      var init, c := p[..|p| - 1], p[|p| - 1];
      assert Flat(p) == Flat(init) + ("/" + c);
      hide Components, Plain;
      ComponentsOfFlat(init);
      ComponentsConcat(Flat(init), "/" + c);
      OneName(c);
    }
  }

  lemma RenderRoundTrip(p: Path)
    requires AllPlain(p)
    ensures Components(Render(p)) == p
  {
    if p == [] {
      SlashFirst("");
    } else {
      ComponentsOfFlat(p);
    }
  }

  // It starts with a slash, never has two in a row, and ends with one only at "/".
  lemma {:induction false} RenderClean(p: Path)
    requires AllPlain(p)
    ensures var s := Render(p);
            && s != "" && s[0] == '/' && (p != [] ==> s[|s| - 1] != '/')
            && forall i :: 0 <= i < |s| - 1 && s[i] == '/' ==> s[i + 1] != '/'
  {
    if p != [] {
      var init, c := p[..|p| - 1], p[|p| - 1];
      assert Plain(c);
      RenderClean(init);
      assert init == [] ==> Flat(init) == "";
      var t := Flat(init);
      hide Flat, Plain;
      JoinClean(t, c);
    }
  }

  lemma JoinClean(t: string, c: string)
    requires Plain(c) && (t != "" ==> t[0] == '/' && t[|t| - 1] != '/')
    requires forall i :: 0 <= i < |t| - 1 && t[i] == '/' ==> t[i + 1] != '/'
    ensures var s := t + "/" + c;
            && s[0] == '/' && s[|s| - 1] != '/' && forall i :: 0 <= i < |s| - 1 && s[i] == '/' ==> s[i + 1] != '/'
  {
  }

  // ---------------------------------------------------------------------------
  // The meaning of a walk
  // ---------------------------------------------------------------------------

  // One component from a directory; ".." stops at the root.
  function Step(root: Path, at: Path, c: string): Option<Path> {
    if |c| > NAME_MAX then None
    else if c == "." then Some(at)
    else if c == ".." then Some(if |at| > |root| then at[..|at| - 1] else at)
    else if |Render(at + [c])| + 1 > PATH_MAX then None
    else Some(at + [c])
  }

  function Resolve(root: Path, at: Path, todo: Path): Option<Path>
    decreases |todo|
  {
    if todo == [] then Some(at)
    else match Step(root, at, todo[0])
      case None => None
      case Some(next) => Resolve(root, next, todo[1..])
  }

  // A walk that starts inside the root ends inside it, at real names.
  lemma {:induction false} ResolveInside(root: Path, at: Path, todo: Path)
    requires root <= at && AllPlain(at) && forall i :: 0 <= i < |todo| ==> Named(todo[i])
    ensures var r := Resolve(root, at, todo); r.Some? ==> root <= r.value && AllPlain(r.value)
    decreases |todo|
  {
    if todo != [] {
      match Step(root, at, todo[0])
      case None =>
      case Some(next) =>
        StepInside(root, at, todo[0]);
        ResolveInside(root, next, todo[1..]);
    }
  }

  lemma StepInside(root: Path, at: Path, c: string)
    requires root <= at && AllPlain(at) && Named(c)
    ensures var r := Step(root, at, c); r.Some? ==> root <= r.value && AllPlain(r.value)
  {
  }

  predicate Named(c: string) {
    c != "" && forall i :: 0 <= i < |c| ==> c[i] != '/'
  }

  lemma {:induction false} ComponentsNamed(s: string)
    ensures forall i :: 0 <= i < |Components(s)| ==> Named(Components(s)[i])
    decreases |s|
  {
    if s == "" {
    } else if s[0] == '/' {
      ComponentsNamed(s[1..]);
    } else {
      ComponentsNamed(s[NameLength(s)..]);
    }
  }

  lemma {:induction false} FlatPrefix(a: Path, b: Path)
    requires a <= b
    ensures |Flat(a)| <= |Flat(b)|
    decreases |b|
  {
    if a == b {
    } else {
      FlatPrefix(a, b[..|b| - 1]);
    }
  }

  // Walking real names that fit just collects them.
  lemma {:induction false} ResolvePlain(root: Path, at: Path, names: Path, todo: Path)
    requires AllPlain(names) && |Render(at + names)| + 1 <= PATH_MAX
    ensures Resolve(root, at, names + todo) == Resolve(root, at + names, todo)
    decreases |names|
  {
    if names == [] {
      assert names + todo == todo && at + names == at;
    } else {
      var c := names[0];
      assert Plain(c);
      assert (names + todo)[0] == c && (names + todo)[1..] == names[1..] + todo;
      assert at + [c] + names[1..] == at + names;
      FlatPrefix(at + [c], at + names);
      ResolvePlain(root, at + [c], names[1..], todo);
    }
  }

  // The laws that determine a walk.  A name and the ".." after it cancel.
  lemma ResolveUp(root: Path, at: Path, c: string, todo: Path)
    requires root <= at && Plain(c) && |Render(at + [c])| + 1 <= PATH_MAX
    ensures Resolve(root, at, [c, ".."] + todo) == Resolve(root, at, todo)
    ensures Resolve(root, at, [c, ".."]) == Some(at)
  {
    var path := [c, ".."] + todo;
    assert path[0] == c && path[1..] == [".."] + todo && ([".."] + todo)[1..] == todo;
    assert (at + [c])[..|at|] == at;
    assert [c, ".."][1..] == [".."] && [".."][1..] == [];
    assert Resolve(root, at + [c], [".."]) == Resolve(root, at, []);
  }

  // At the root ".." stays there.
  lemma ResolveAtRoot(root: Path, todo: Path)
    ensures Resolve(root, root, [".."] + todo) == Resolve(root, root, todo)
  {
    assert ([".."] + todo)[1..] == todo;
  }

  // Below the root it takes the last name away.
  lemma ResolveLeave(root: Path, names: Path, c: string, todo: Path)
    ensures Resolve(root, root + names + [c], [".."] + todo) == Resolve(root, root + names, todo)
  {
    assert ([".."] + todo)[1..] == todo;
    assert (root + names + [c])[..|root + names|] == root + names;
  }

  lemma ResolveDot(root: Path, at: Path, todo: Path)
    ensures Resolve(root, at, ["."] + todo) == Resolve(root, at, todo)
  {
    assert (["."] + todo)[1..] == todo;
  }

  // A name longer than 255 characters fails, and so does one that makes the path
  // too long; any other is entered.
  lemma ResolveName(root: Path, at: Path, c: string, todo: Path)
    requires c != "." && c != ".."
    ensures |c| > 255 || |Render(at + [c])| > 4095 ==> Resolve(root, at, [c] + todo) == None
    ensures |c| <= 255 && |Render(at + [c])| <= 4095 ==> Resolve(root, at, [c] + todo) == Resolve(root, at + [c], todo)
    ensures Resolve(root, at, []) == Some(at)
  {
    assert ([c] + todo)[1..] == todo;
  }

  // "/a/../b" is "/b".
  lemma ResolveSibling(a: string, b: string)
    requires Plain(a) && Plain(b)
    ensures Resolve([], [], Components("/" + a + "/../" + b)) == Some([b])
  {
    hide Resolve, Components, Plain;
    assert "/" + a + "/../" + b == ("/" + a) + ("/.." + ("/" + b));
    ComponentsConcat("/" + a, "/.." + ("/" + b));
    ComponentsConcat("/..", "/" + b);
    OneName(a);
    OneName(b);
    DotDot();
    assert [a] + ([".."] + [b]) == [a, ".."] + [b];
    SingleLength(a);
    SingleLength(b);
    ResolveUp([], [], a, [b]);
    PlainName(b);
    ResolveName([], [], b, []);
    assert [b] + [] == [b] && [] + [b] == [b] && [] + [a] == [a];
    ResolveName([], [b], b, []);
  }

  lemma PlainName(c: string)
    requires Plain(c)
    ensures c != "." && c != ".." && |c| <= 255
  {
  }

  lemma SingleLength(c: string)
    requires Plain(c)
    ensures |Render([] + [c])| <= 256
  {
    assert ([] + [c])[..0] == [];
    assert Flat([c]) == Flat([]) + "/" + c;
  }

  lemma DotDot()
    ensures Components("/..") == [".."]
  {
    SlashFirst("..");
    assert "/" + ".." == "/..";
    NameUntil("..", "");
    assert ".." + "" == "..";
    assert ".."[..2] == ".." && ".."[2..] == "";
    assert Components("") == [];
  }

  // ---------------------------------------------------------------------------
  // The output buffer
  // ---------------------------------------------------------------------------

  // Taking a component back leaves its slash behind.
  function Text(at: Path, loose: bool): string {
    Render(at) + if loose then "/" else ""
  }

  ghost predicate Holds(output: array<char>, out: int, at: Path, loose: bool)
    reads output
  {
    && output.Length == PATH_MAX && 1 <= out < PATH_MAX && (loose ==> at != []) && AllPlain(at)
    && output[..out] == Text(at, loose)
  }

  lemma FlatLast(at: Path)
    requires at != []
    ensures var init, c := at[..|at| - 1], at[|at| - 1];
            Flat(at) == Flat(init) + "/" + c && |Flat(at)| == |Flat(init)| + 1 + |c|
  {
  }

  // The end of the text tells whether the slash is there.
  lemma TextEnd(at: Path, loose: bool)
    requires AllPlain(at) && (loose ==> at != [])
    ensures var t := Text(at, loose);
            && |t| >= 1 && (t[|t| - 1] == '/' <==> loose || at == []) && (|t| > 1 <==> at != [])
            && (at != [] ==> |t| == |Flat(at)| + if loose then 1 else 0)
  {
    if at != [] {
      FlatLast(at);
      assert Plain(at[|at| - 1]);
    }
  }

  method Append(output: array<char>, n: int, s: string)
    requires 0 <= n && n + |s| <= output.Length
    modifies output
    ensures output[..n + |s|] == old(output[..n]) + s
  {
    for i := 0 to |s|
      invariant output[..n + i] == old(output[..n]) + s[..i]
    {
      output[n + i] := s[i];
    }
    assert s[..|s|] == s;
  }

  // A name, with a slash before it where there is none.
  method Push(output: array<char>, out: int, c: string, ghost at: Path, ghost loose: bool) returns (n: int)
    requires Holds(output, out, at, loose) && Plain(c)
    modifies output
    ensures n == 0 <==> |Render(at + [c])| + 1 > PATH_MAX
    ensures n != 0 ==> Holds(output, n, at + [c], false)
  {
    hide Plain, Text, Render, Flat;
    TextEnd(at, loose);
    Joined(at, loose, c);
    PlainMore(at, c);
    TextTight(at + [c]);
    n := out;
    if n > 1 && output[n - 1] != '/' {
      Append(output, n, "/");
      n := n + 1;
    }
    assert output[..n] + c == Render(at + [c]);
    if n + |c| + 1 > PATH_MAX {
      return 0;
    }
    Append(output, n, c);
    n := n + |c|;
  }

  lemma Joined(at: Path, loose: bool, c: string)
    requires AllPlain(at) && (loose ==> at != [])
    ensures Render(at + [c]) == Text(at, loose) + (if loose || at == [] then "" else "/") + c
  {
    assert (at + [c])[..|at|] == at;
    FlatLast(at + [c]);
    if at == [] {
      assert Flat([]) == "";
    }
  }

  lemma PlainMore(at: Path, c: string)
    requires AllPlain(at) && Plain(c)
    ensures AllPlain(at + [c])
  {
  }

  lemma TextTight(at: Path)
    ensures Text(at, false) == Render(at)
  {
    assert Render(at) + "" == Render(at);
  }

  // "..": back over a slash and a name, but not into the root.
  method Pop(text: string, floor: int, ghost root: Path, ghost at: Path, ghost loose: bool) returns (n: int, ghost left: bool)
    requires AllPlain(at) && (loose ==> at != []) && text == Text(at, loose) && root <= at && floor == |Render(root)|
    ensures 1 <= n <= |text| && text[..n] == Text(if |at| > |root| then at[..|at| - 1] else at, left)
    ensures left ==> (if |at| > |root| then |at| > 1 else at != [])
  {
    hide Plain, Text, Flat;
    n, left := |text|, |at| > |root| && |at| > 1;
    TextEnd(at, loose);
    Shorter(at);
    ghost var low := floor;
    if |at| > |root| {
      FlatPrefix(root, at[..|at| - 1]);
      NoSlashInLast(at);
      FlatLast(at);
      TextIsFlat(at, loose);
      low := |Flat(at[..|at| - 1])| + 1;
    } else {
      assert at == root;
    }
    if n > floor {
      if text[n - 1] == '/' {
        n := n - 1;
      }
      while n > floor && text[n - 1] != '/'
        invariant floor <= low <= n <= |Render(at)| <= |text|
      {
        n := n - 1;
      }
    }
  }

  lemma TextIsFlat(at: Path, loose: bool)
    requires at != []
    ensures |Flat(at)| <= |Text(at, loose)| && forall i :: 0 <= i < |Flat(at)| ==> Text(at, loose)[i] == Flat(at)[i]
  {
  }

  // The text cut back.
  lemma Shorter(at: Path)
    ensures forall loose :: Text(at, loose)[..|Render(at)|] == Text(at, false)
    ensures at != [] ==> var init := at[..|at| - 1];
              forall loose :: |Flat(init)| + 1 <= |Text(at, loose)| && Text(at, loose)[..|Flat(init)| + 1] == Text(init, init != [])
  {
    if at != [] {
      FlatLast(at);
    }
  }

  lemma NoSlashInLast(at: Path)
    requires at != [] && AllPlain(at)
    ensures var init := at[..|at| - 1];
            && Flat(at)[|Flat(init)|] == '/'
            && forall i :: |Flat(init)| < i < |Flat(at)| ==> Flat(at)[i] != '/'
  {
    FlatLast(at);
    var init, c := at[..|at| - 1], at[|at| - 1];
    assert Plain(c);
    forall i | |Flat(init)| < i < |Flat(at)| ensures Flat(at)[i] != '/' {
      assert Flat(at)[i] == c[i - |Flat(init)| - 1];
    }
  }

  // ---------------------------------------------------------------------------
  // The walk over the combined string
  // ---------------------------------------------------------------------------

  // Until the walk is inside the root, what comes next is the rest of the root.
  ghost predicate OnTheWay(root: Path, at: Path, todo: Path) {
    || root <= at
    || (|at| < |root| && at == root[..|at|] && |root| - |at| <= |todo| && todo[..|root| - |at|] == root[|at|..])
  }

  lemma StepOnTheWay(root: Path, at: Path, todo: Path)
    requires AllPlain(root) && AllPlain(at) && |Render(root)| + 1 <= PATH_MAX && OnTheWay(root, at, todo) && todo != [] && Named(todo[0])
    ensures var r := Step(root, at, todo[0]);
            && (r.Some? ==> OnTheWay(root, r.value, todo[1..]) && AllPlain(r.value))
            && (!(root <= at) ==> Plain(todo[0]) && r == Some(at + [todo[0]]))
  {
    if root <= at {
      StepInside(root, at, todo[0]);
    } else {
      var c := todo[0];
      assert c == todo[..|root| - |at|][0] == root[|at|] && Plain(c);
      assert at + [c] == root[..|at| + 1];
      FlatPrefix(at + [c], root);
      assert todo[1..][..|root| - |at| - 1] == root[|at| + 1..];
    }
  }

  lemma NextName(s: string, i: int, j: int)
    requires 0 <= i < j <= |s| && (forall k :: i <= k < j ==> s[k] != '/') && (j < |s| ==> s[j] == '/')
    ensures Components(s[i..]) == [s[i..j]] + Components(s[j..])
  {
    var name, rest := s[i..j], s[j..];
    assert s[i..] == name + rest;
    NameUntil(name, rest);
    assert s[i..][..j - i] == name && s[i..][j - i..] == rest;
  }

  lemma LongName(s: string, i: int, j: int)
    requires 0 <= i < j <= |s| && (forall k :: i <= k < j ==> s[k] != '/') && j - i > NAME_MAX
    ensures Components(s[i..]) != [] && |Components(s[i..])[0]| > NAME_MAX
  {
    var n := NameLength(s[i..]);
    assert n >= j - i;
  }

  // One component against the buffer; 0 when it does not fit.
  method Take(output: array<char>, out: int, c: string, floor: int, ghost root: Path, ghost at: Path, ghost loose: bool)
    returns (n: int, ghost next: Path, ghost left: bool)
    requires Holds(output, out, at, loose) && Named(c) && |c| <= NAME_MAX && floor == |Render(root)|
    requires root <= at || Plain(c)
    modifies output
    ensures n == 0 <==> Step(root, at, c).None?
    ensures n != 0 ==> Step(root, at, c) == Some(next) && Holds(output, n, next, left)
  {
    hide Text, Render;
    n, next, left := out, at, loose;
    if |c| == 1 && c[0] == '.' {
      assert c == ".";
      return;
    }
    if |c| == 2 && c[0] == '.' && c[1] == '.' {
      assert c == "..";
      n, left := Pop(output[..out], floor, root, at, loose);
      assert output[..out][..n] == output[..n];
      next := if |at| > |root| then at[..|at| - 1] else at;
      return;
    }
    n := Push(output, out, c, at, loose);
    next, left := at + [c], false;
  }

  method Walk(combined: string, output: array<char>, floor: int, ghost root: Path) returns (code: int, out: int)
    requires output.Length == PATH_MAX && AllPlain(root) && floor == |Render(root)| && floor + 1 <= PATH_MAX
    requires OnTheWay(root, [], Components(combined))
    modifies output
    ensures var r := Resolve(root, [], Components(combined));
            && (r.None? <==> code == -ENAMETOOLONG) && (r.Some? <==> code == 0)
            && (r.Some? ==> 1 <= out < PATH_MAX && output[..out] == Render(r.value) && output[out] == '\0')
  {
    hide Components, Step, Plain, OnTheWay, Text, Render;
    output[0] := '/';
    out := 1;
    ghost var at, loose: bool := [], false;
    TextTight([]);
    RootText();
    var i := 0;
    assert combined[0..] == combined;
    ComponentsNamed(combined);
    while i < |combined|
      invariant 0 <= i <= |combined| && Holds(output, out, at, loose)
      invariant Resolve(root, [], Components(combined)) == Resolve(root, at, Components(combined[i..]))
      invariant OnTheWay(root, at, Components(combined[i..]))
      decreases |combined| - i
    {
      var start := SkipSlashes(combined, i);
      if start == |combined| {
        i := start;
        break;
      }
      var end := start;
      while end < |combined| && combined[end] != '/'
        invariant start <= end <= |combined| && end - start <= NAME_MAX && forall k :: start <= k < end ==> combined[k] != '/'
        invariant Holds(output, out, at, loose)
      {
        end := end + 1;
        if end - start > NAME_MAX {
          LongName(combined, start, end);
          TooLong(root, at, Components(combined[start..]));
          return -ENAMETOOLONG, 0;
        }
      }
      NextName(combined, start, end);
      var c := combined[start..end];
      ghost var todo := Components(combined[start..]);
      assert todo[0] == c && todo[1..] == Components(combined[end..]);
      NamePlain(combined, start, end);
      StepOnTheWay(root, at, todo);
      ghost var was := at;
      out, at, loose := Take(output, out, c, floor, root, at, loose);
      if out == 0 {
        return -ENAMETOOLONG, 0;
      }
      i := end;
    }
    Arrived(root, at, Components(combined[i..]), combined, i);
    TextEnd(at, loose);
    TextTight(at);
    Shorter(at);
    Loosened(at);
    ghost var text := output[..out];
    if out > 1 && output[out - 1] == '/' {
      out := out - 1;
    }
    assert output[..out] == text[..out] == Render(at);
    RenderLength(root, at);
    if out < floor {
      out := floor;
    }
    output[out] := '\0';
    code := 0;
  }

  lemma Loosened(at: Path)
    ensures |Text(at, true)| == |Render(at)| + 1
  {
  }

  method SkipSlashes(s: string, i: int) returns (j: int)
    requires 0 <= i <= |s|
    ensures i <= j <= |s| && (j < |s| ==> s[j] != '/') && Components(s[j..]) == Components(s[i..])
  {
    j := i;
    while j < |s| && s[j] == '/'
      invariant i <= j <= |s| && Components(s[j..]) == Components(s[i..])
    {
      assert s[j..] == "/" + s[j + 1..];
      SlashFirst(s[j + 1..]);
      j := j + 1;
    }
  }

  lemma RootText()
    ensures Text([], false) == "/" && AllPlain([])
  {
  }

  lemma TooLong(root: Path, at: Path, todo: Path)
    requires todo != [] && |todo[0]| > NAME_MAX
    ensures Resolve(root, at, todo).None?
  {
  }

  lemma NamePlain(s: string, i: int, j: int)
    requires 0 <= i < j <= |s| && forall k :: i <= k < j ==> s[k] != '/'
    ensures Named(s[i..j])
  {
  }

  lemma Arrived(root: Path, at: Path, todo: Path, s: string, i: int)
    requires OnTheWay(root, at, todo) && i == |s| && todo == Components(s[i..])
    ensures root <= at && Resolve(root, at, todo) == Some(at)
  {
    assert s[i..] == "" && Components("") == [];
  }

  lemma RenderLength(root: Path, at: Path)
    requires root <= at && AllPlain(at)
    ensures |Render(root)| <= |Render(at)|
  {
    FlatPrefix(root, at);
    if at != [] {
      FlatLast(at);
    }
  }

  // ---------------------------------------------------------------------------
  // normalize_path
  // ---------------------------------------------------------------------------

  // process_root_prefix: the root's path without slashes at its end.
  method RootPrefix(path: Option<string>) returns (prefix: string)
    ensures prefix != "" && (|prefix| > 1 ==> prefix[|prefix| - 1] != '/')
    ensures path.Some? && path.value != "" ==>
              prefix <= path.value && forall i :: |prefix| <= i < |path.value| ==> path.value[i] == '/'
    ensures path.None? || path.value == "" ==> prefix == "/"
  {
    if path.None? || path.value == "" {
      return "/";
    }
    prefix := path.value;
    while |prefix| > 1 && prefix[|prefix| - 1] == '/'
      invariant 1 <= |prefix| && prefix <= path.value && forall i :: |prefix| <= i < |path.value| ==> path.value[i] == '/'
    {
      prefix := prefix[..|prefix| - 1];
    }
  }

  // A directory's path and a slash before the input.
  function Combined(path: string, input: string): string {
    path + (if path == "" || path[|path| - 1] != '/' then "/" else "") + input
  }

  lemma CombinedComponents(dir: Path, input: string)
    requires AllPlain(dir)
    ensures Components(Combined(Render(dir), input)) == dir + Components(input)
  {
    if dir == [] {
      SlashFirst(input);
      assert Combined("/", input) == "/" + input;
    } else {
      TextEnd(dir, false);
      TextTight(dir);
      assert Combined(Render(dir), input) == Flat(dir) + ("/" + input);
      ComponentsConcat(Flat(dir), "/" + input);
      ComponentsOfFlat(dir);
      SlashFirst(input);
    }
  }

  // A path that starts with a slash is taken from the root, another from the base
  // directory.  The base, when it is used, lies inside the root.
  method Normalize(rootPath: Option<string>, base: Option<string>, input: string, output: array<char>, ghost root: Path, ghost dir: Path)
    returns (code: int, out: int)
    requires output.Length == PATH_MAX && AllPlain(root) && AllPlain(dir) && root <= dir && |Render(dir)| + 1 <= PATH_MAX
    requires if rootPath.None? || rootPath.value == "" then root == [] else rootPath.value == Render(root)
    requires input != "" && input[0] == '/' ==> dir == root
    requires input != "" && input[0] != '/' && base.Some? ==> base.value == Render(dir)
    modifies output
    ensures input == "" ==> code == -ENOENT
    ensures input != "" && input[0] != '/' && base.None? ==> code == -EINVAL
    ensures input != "" && (input[0] == '/' || base.Some?) ==>
              var r := Resolve(root, dir, Components(input));
              && (code == 0 <==> r.Some? && |Combined(Render(dir), input)| + 1 <= 2 * PATH_MAX)
              && (code != 0 ==> code == -ENAMETOOLONG)
              && (code == 0 ==>
                    && 1 <= out < PATH_MAX && output[..out] == Render(r.value) && output[out] == '\0'
                    && root <= r.value && AllPlain(r.value))
  {
    hide Components, Step, Plain, OnTheWay, Text, Resolve;
    out := 0;
    if input == "" {
      return -ENOENT, 0;
    }
    PlainRender(root);
    var prefix := RootPrefix(rootPath);
    assert prefix == Render(root) by {
      SamePrefix(rootPath, prefix, root);
    }
    var path := prefix;
    if input[0] != '/' {
      if base.None? {
        return -EINVAL, 0;
      }
      path := base.value;
    }
    var combined := Combined(path, input);
    if |combined| + 1 > 2 * PATH_MAX {
      return -ENAMETOOLONG, 0;
    }
    CombinedComponents(dir, input);
    ComponentsNamed(input);
    FromRoot(root, dir, Components(input));
    ResolveInside(root, dir, Components(input));
    RenderLength(root, dir);
    code, out := Walk(combined, output, |prefix|, root);
  }

  // A rendered path ends in a slash only when it is the root.
  lemma PlainRender(p: Path)
    requires AllPlain(p)
    ensures |Render(p)| >= 1 && (|Render(p)| > 1 ==> Render(p)[|Render(p)| - 1] != '/')
  {
    TextEnd(p, false);
    TextTight(p);
  }

  lemma SamePrefix(path: Option<string>, prefix: string, root: Path)
    requires if path.None? || path.value == "" then root == [] && prefix == "/" else path.value == Render(root)
    requires |Render(root)| >= 1 && (|Render(root)| > 1 ==> Render(root)[|Render(root)| - 1] != '/')
    requires prefix != "" && (path.Some? && path.value != "" ==>
               prefix <= path.value && forall i :: |prefix| <= i < |path.value| ==> path.value[i] == '/')
    ensures prefix == Render(root)
  {
  }

  // From nothing through the directory's own names.
  lemma FromRoot(root: Path, dir: Path, todo: Path)
    requires AllPlain(dir) && root <= dir && |Render(dir)| + 1 <= PATH_MAX
    ensures OnTheWay(root, [], dir + todo) && Resolve(root, [], dir + todo) == Resolve(root, dir, todo)
  {
    assert [] + dir == dir;
    ResolvePlain(root, [], dir, todo);
    assert (dir + todo)[..|root|] == root[0..];
  }
}
