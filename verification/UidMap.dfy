/**
 User id maps of a user namespace (kernel/core/namespace.c, `parse_u32`,
 `write_map`, `user_ns_read_uid_map`, `map_up`).
 */
module UidMaps {
  import opened Decimals
  import opened Errno
  import opened Options

  const UID_MAP_MAX: int := 5
  const WORDS: int := 0x1_0000_0000
  const OVERFLOW_UID: int := 65534

  datatype Extent = Extent(first: int, lowerFirst: int, count: int)

  predicate IsWord(n: int) {
    0 <= n < WORDS
  }

  // Neither end of an accepted extent runs past the last id.
  predicate Good(e: Extent) {
    && IsWord(e.first) && IsWord(e.lowerFirst) && 0 < e.count
    && e.first + e.count < WORDS && e.lowerFirst + e.count < WORDS
  }

  ghost predicate Accepted(map_: seq<Extent>) {
    0 < |map_| <= 5 && forall i :: 0 <= i < |map_| ==> Good(map_[i])
  }

  // ---------------------------------------------------------------------------
  // Lookups
  // ---------------------------------------------------------------------------

  predicate Contains(e: Extent, lower: int) {
    e.lowerFirst <= lower < e.lowerFirst + e.count
  }

  // The first extent that has the id decides; the sum stays a 32-bit number.
  method MapUp(map_: seq<Extent>, lower: int) returns (uid: int, ghost k: int)
    requires IsWord(lower) && forall i :: 0 <= i < |map_| ==> Good(map_[i])
    ensures 0 <= k <= |map_| && forall i :: 0 <= i < k ==> !Contains(map_[i], lower)
    ensures k == |map_| ==> uid == 65534
    ensures k < |map_| ==>
              && Contains(map_[k], lower) && uid == map_[k].first + (lower - map_[k].lowerFirst)
              && IsWord(uid) && uid < map_[k].first + map_[k].count
  {
    k := 0;
    for index := 0 to |map_|
      invariant k == index && forall i :: 0 <= i < index ==> !Contains(map_[i], lower)
    {
      var extent := map_[index];
      if lower >= extent.lowerFirst && lower - extent.lowerFirst < extent.count {
        return (extent.first + (lower - extent.lowerFirst)) % WORDS, k;
      }
      k := k + 1;
    }
    return OVERFLOW_UID, k;
  }

  // ---------------------------------------------------------------------------
  // Numbers
  // ---------------------------------------------------------------------------

  predicate IsBlank(c: char) {
    c == ' ' || c == '\t'
  }

  ghost function SkipBlanks(s: string): (t: string)
    ensures |t| <= |s|
  {
    if s != "" && IsBlank(s[0]) then SkipBlanks(s[1..]) else s
  }

  // How many digits the text begins with.
  ghost function Run(s: string): (n: nat)
    ensures n <= |s| && AllDigits(s[..n]) && (n < |s| ==> !IsDigit(s[n]))
  {
    if s == "" || !IsDigit(s[0]) then 0
    else
      var n := Run(s[1..]);
      assert forall i :: 0 < i < 1 + n ==> s[i] == s[1..][i - 1];
      1 + n
  }

  // A number after blanks: its value and the text behind it.
  ghost function ParseWord(s: string): Option<(int, string)> {
    var t := SkipBlanks(s);
    var n := Run(t);
    if n == 0 || Value(t[..n]) >= WORDS then None else Some((Value(t[..n]), t[n..]))
  }

  // More digits never make the number smaller.
  lemma {:induction false} ValueGrows(s: string, t: string)
    requires AllDigits(s + t)
    ensures AllDigits(s) && Value(s + t) >= Value(s)
    decreases |t|
  {
    assert forall i :: 0 <= i < |s| ==> s[i] == (s + t)[i];
    if t == "" {
      assert s + t == s;
    } else {
      var u := s + t;
      assert u[..|u| - 1] == s + t[..|t| - 1];
      ValueGrows(s, t[..|t| - 1]);
    }
  }

  lemma {:induction false} RunIs(digits: string, rest: string)
    requires AllDigits(digits) && (rest == "" || !IsDigit(rest[0]))
    ensures Run(digits + rest) == |digits|
  {
    if digits == "" {
      assert digits + rest == rest;
    } else {
      assert (digits + rest)[1..] == digits[1..] + rest;
      RunIs(digits[1..], rest);
    }
  }

  // parse_u32 at a cursor.
  method ParseU32(text: string, at: int) returns (value: Option<int>, next: int)
    requires 0 <= at <= |text|
    ensures match ParseWord(text[at..])
            case None => value == None
            case Some(r) => value == Some(r.0) && at <= next <= |text| && text[next..] == r.1 && IsWord(r.0)
  {
    hide Run, SkipBlanks, Value;
    var start := SkipAll(text, at);
    value, next := ReadDigits(text, start);
    assert value.Some? ==> text[next..] == text[start..][next - start..];
  }

  method ReadDigits(text: string, start: int) returns (value: Option<int>, next: int)
    requires 0 <= start <= |text|
    ensures var t := text[start..]; var n := Run(t);
            if n == 0 || Value(t[..n]) >= WORDS then value == None
            else value == Some(Value(t[..n])) && next == start + n
  {
    hide Run, Value;
    ghost var t := text[start..];
    RunStep(t, 0);
    if start >= |text| || text[start] < '0' || text[start] > '9' {
      return None, start;
    }
    var number := 0;
    next := start;
    while next < |text| && '0' <= text[next] <= '9'
      invariant start <= next <= start + Run(t) <= |text| && AllDigits(t[..next - start]) && number == Value(t[..next - start]) < WORDS
    {
      assert text[next] == t[next - start];
      RunStep(t, next - start);
      number := number * 10 + (text[next] as int - '0' as int);
      if number > 0xFFFF_FFFF {
        return None, next;
      }
      next := next + 1;
    }
    assert next < |text| ==> text[next] == t[next - start];
    RunStep(t, next - start);
    value := Some(number);
  }

  // The digits one by one.
  lemma {:induction false} RunStep(t: string, m: int)
    requires 0 <= m <= Run(t)
    ensures AllDigits(t[..m]) && (m == 0 ==> Value(t[..m]) == 0)
    ensures m < Run(t) <==> m < |t| && IsDigit(t[m])
    ensures m < Run(t) ==>
              && AllDigits(t[..m + 1]) && Value(t[..m + 1]) == Value(t[..m]) * 10 + DigitValue(t[m])
              && AllDigits(t[..Run(t)]) && Value(t[..m + 1]) <= Value(t[..Run(t)])
  {
    var n := Run(t);
    assert forall i :: 0 <= i < n ==> t[i] == t[..n][i];
    if m < n {
      var u := t[..m + 1];
      assert u[..m] == t[..m] && u[m] == t[m];
      assert u + t[m + 1..n] == t[..n];
      ValueGrows(u, t[m + 1..n]);
    }
  }

  method SkipAll(text: string, at: int) returns (start: int)
    requires 0 <= at <= |text|
    ensures at <= start <= |text| && text[start..] == SkipBlanks(text[at..])
  {
    start := at;
    while start < |text| && (text[start] == ' ' || text[start] == '\t')
      invariant at <= start <= |text| && SkipBlanks(text[start..]) == SkipBlanks(text[at..])
    {
      assert text[start..][1..] == text[start + 1..];
      start := start + 1;
    }
  }

  // ---------------------------------------------------------------------------
  // Parsing a map
  // ---------------------------------------------------------------------------

  ghost function SkipSpace(s: string): (t: string)
    ensures |t| <= |s| && (t != "" ==> t[0] != '\n' && !IsBlank(t[0]))
  {
    if s != "" && (s[0] == '\n' || IsBlank(s[0])) then SkipSpace(s[1..]) else s
  }

  // Three numbers that make a good extent.
  ghost function ParseExtent(s: string): Option<(Extent, string)> {
    match ParseWord(s)
    case None => None
    case Some(a) =>
      match ParseWord(a.1)
      case None => None
      case Some(b) =>
        match ParseWord(b.1)
        case None => None
        case Some(c) =>
          var e := Extent(a.0, b.0, c.0);
          if Good(e) then Some((e, c.1)) else None
  }

  ghost function ParseMap(s: string, n: int): Option<seq<Extent>>
    decreases |s|
  {
    var t := SkipSpace(s);
    if t == "" then Some([])
    else if n >= UID_MAP_MAX then None
    else match ParseExtent(t)
      case None => None
      case Some(r) =>
        if |r.1| >= |t| then None
        else match ParseMap(r.1, n + 1)
          case None => None
          case Some(rest) => Some([r.0] + rest)
  }

  lemma ParseShrinks(s: string)
    ensures var r := ParseExtent(s); r.Some? ==> |r.value.1| < |s| && Good(r.value.0)
  {
  }

  lemma {:induction false} ParsedIsAccepted(s: string, n: int)
    requires 0 <= n <= UID_MAP_MAX
    ensures var r := ParseMap(s, n); r.Some? ==> n + |r.value| <= UID_MAP_MAX && forall i :: 0 <= i < |r.value| ==> Good(r.value[i])
    decreases |s|
  {
    hide ParseExtent, Good;
    var t := SkipSpace(s);
    if t != "" && n < UID_MAP_MAX && ParseExtent(t).Some? {
      ParseShrinks(t);
      ParsedIsAccepted(ParseExtent(t).value.1, n + 1);
    }
  }

  // A fresh namespace below the root takes the map a text describes.
  class Namespace {
    const level: nat
    var uid: seq<Extent>
    var uidSet: bool

    constructor (depth: nat)
      ensures level == depth && uid == [] && !uidSet
    {
      level, uid, uidSet := depth, [], false;
    }

    ghost predicate Valid()
      reads this
    {
      uidSet ==> Accepted(uid)
    }

    // write_map
    method WriteMap(text: string) returns (code: int)
      requires Valid()
      modifies this
      ensures Valid()
      ensures level == 0 || old(uidSet) ==> code == -EPERM && uid == old(uid) && uidSet == old(uidSet)
      ensures level > 0 && !old(uidSet) ==>
                match ParseMap(text, 0)
                case Some(m) =>
                  if m == [] then code == -EINVAL && uid == old(uid) && !uidSet
                  else code == |text| && uid == m && uidSet
                case None => code == -EINVAL && uid == old(uid) && !uidSet
    {
      if level == 0 || uidSet {
        return -EPERM;
      }
      hide ParseMap, Good;
      ParsedIsAccepted(text, 0);
      var parsed := ParseText(text);
      if parsed.None? || parsed.value == [] {
        return -EINVAL;
      }
      uid, uidSet := parsed.value, true;
      return |text|;
    }
  }

  // The parsing loop of write_map.
  method ParseText(text: string) returns (r: Option<seq<Extent>>)
    ensures r == ParseMap(text, 0)
  {
    hide ParseExtent, ParseMap, Appended, Good;
    var parsed: seq<Extent> := [];
    var cursor := 0;
    assert text[0..] == text;
    AppendedNone(ParseMap(text, 0));
    while cursor < |text|
      invariant 0 <= cursor <= |text| && |parsed| <= UID_MAP_MAX
      invariant ParseMap(text, 0) == Appended(parsed, ParseMap(text[cursor..], |parsed|))
      decreases |text| - cursor
    {
      var start := SkipLines(text, cursor);
      SameMap(text, cursor, start, |parsed|);
      if start >= |text| {
        cursor := start;
        break;
      }
      ParseStep(text[start..], |parsed|, parsed);
      if |parsed| >= UID_MAP_MAX {
        return None;
      }
      var extent, next := ReadExtent(text, start);
      if extent.None? {
        return None;
      }
      parsed := parsed + [extent.value];
      cursor := next;
    }
    ParseEnd(text, cursor, parsed);
    return Some(parsed);
  }

  // One extent further.
  lemma ParseStep(s: string, n: int, front: seq<Extent>)
    requires s != "" && SkipSpace(s) == s
    ensures n >= UID_MAP_MAX || ParseExtent(s).None? ==> Appended(front, ParseMap(s, n)).None?
    ensures n < UID_MAP_MAX && ParseExtent(s).Some? ==>
              var r := ParseExtent(s).value;
              |r.1| < |s| && Appended(front, ParseMap(s, n)) == Appended(front + [r.0], ParseMap(r.1, n + 1))
  {
    hide ParseExtent;
    ParseShrinks(s);
    if n < UID_MAP_MAX && ParseExtent(s).Some? {
      var r := ParseExtent(s).value;
      MoreParsed(front, r.0, ParseMap(r.1, n + 1));
    }
  }

  lemma ParseEnd(text: string, cursor: int, parsed: seq<Extent>)
    requires cursor == |text|
    ensures Appended(parsed, ParseMap(text[cursor..], |parsed|)) == Some(parsed)
  {
    assert text[cursor..] == "" && ParseMap("", |parsed|) == Some([]);
    assert parsed + [] == parsed;
  }

  lemma AppendedNone(r: Option<seq<Extent>>)
    ensures Appended([], r) == r
  {
    if r.Some? {
      assert [] + r.value == r.value;
    }
  }

  ghost function Appended(front: seq<Extent>, rest: Option<seq<Extent>>): Option<seq<Extent>> {
    match rest case None => None case Some(m) => Some(front + m)
  }

  lemma MoreParsed(front: seq<Extent>, e: Extent, rest: Option<seq<Extent>>)
    ensures rest.Some? ==> Appended(front, Some([e] + rest.value)) == Appended(front + [e], rest)
  {
    if rest.Some? {
      assert front + ([e] + rest.value) == front + [e] + rest.value;
    }
  }

  method SkipLines(text: string, at: int) returns (start: int)
    requires 0 <= at <= |text|
    ensures at <= start <= |text| && text[start..] == SkipSpace(text[at..]) == SkipSpace(text[start..])
  {
    start := at;
    while start < |text| && (text[start] == '\n' || text[start] == ' ' || text[start] == '\t')
      invariant at <= start <= |text| && SkipSpace(text[start..]) == SkipSpace(text[at..])
    {
      assert text[start..][1..] == text[start + 1..];
      start := start + 1;
    }
  }

  lemma SameMap(text: string, at: int, start: int, n: int)
    requires 0 <= at <= start <= |text| && text[start..] == SkipSpace(text[at..])
    ensures ParseMap(text[at..], n) == ParseMap(text[start..], n)
  {
    assert SkipSpace(text[start..]) == text[start..];
  }

  // Three numbers at a cursor, and the overflow tests on 32-bit sums.
  method ReadExtent(text: string, at: int) returns (extent: Option<Extent>, next: int)
    requires 0 <= at <= |text|
    ensures match ParseExtent(text[at..])
            case None => extent == None
            case Some(r) => extent == Some(r.0) && at <= next <= |text| && text[next..] == r.1
  {
    hide ParseWord;
    next := at;
    var first, lower, count;
    first, next := ParseU32(text, next);
    if first.None? {
      return None, at;
    }
    lower, next := ParseU32(text, next);
    if lower.None? {
      return None, at;
    }
    count, next := ParseU32(text, next);
    if count.None? || count.value == 0 {
      return None, at;
    }
    if (first.value + count.value) % WORDS < first.value || (lower.value + count.value) % WORDS < lower.value {
      return None, at;
    }
    extent := Some(Extent(first.value, lower.value, count.value));
  }

  // ---------------------------------------------------------------------------
  // Printing
  // ---------------------------------------------------------------------------

  function Line(e: Extent): string
    requires Good(e)
  {
    Decimal(e.first) + " " + Decimal(e.lowerFirst) + " " + Decimal(e.count) + "\n"
  }

  function Printed(map_: seq<Extent>): string
    requires forall i :: 0 <= i < |map_| ==> Good(map_[i])
  {
    if map_ == [] then "" else Printed(map_[..|map_| - 1]) + Line(map_[|map_| - 1])
  }

  ghost function Cut(s: string, capacity: nat): string {
    if |s| <= capacity then s else s[..capacity]
  }

  method PrintLine(e: Extent) returns (line: string)
    requires Good(e)
    ensures line == Line(e) && |line| <= 64
  {
    WordDigits(e.first);
    WordDigits(e.lowerFirst);
    WordDigits(e.count);
    hide Decimal;
    var a := Print(e.first, 11);
    var b := Print(e.lowerFirst, 11);
    var c := Print(e.count, 11);
    line := a + " " + b + " " + c + "\n";
  }

  method Emit(out: string, line: string, capacity: nat, ghost all: string) returns (more: string)
    requires out == Cut(all, capacity)
    ensures more == Cut(all + line, capacity)
  {
    more := out;
    var i := 0;
    while i < |line| && |more| < capacity
      invariant 0 <= i <= |line| && more == Cut(all + line[..i], capacity) && (i > 0 ==> more == all + line[..i])
    {
      more := more + [line[i]];
      i := i + 1;
    }
    assert line[..|line|] == line;
    if i < |line| {
      assert (all + line)[..|all| + i] == all + line[..i];
    }
  }

  // user_ns_read_uid_map: the lines, cut off where the buffer ends.
  method ReadMap(map_: seq<Extent>, capacity: nat) returns (out: string)
    requires forall i :: 0 <= i < |map_| ==> Good(map_[i])
    ensures out == Cut(Printed(map_), capacity)
  {
    hide Line, Cut, Good;
    out := "";
    NothingCut(capacity);
    for index := 0 to |map_|
      invariant out == Cut(Printed(map_[..index]), capacity)
    {
      var line := PrintLine(map_[index]);
      assert map_[..index + 1][..index] == map_[..index];
      out := Emit(out, line, capacity, Printed(map_[..index]));
    }
    assert map_[..|map_|] == map_;
  }

  lemma NothingCut(capacity: nat)
    ensures Cut("", capacity) == ""
  {
  }

  // ---------------------------------------------------------------------------
  // Round trip
  // ---------------------------------------------------------------------------

  // A printed number at the start of a text, after at most one blank.
  lemma ParsePrinted(n: int, blank: string, rest: string)
    requires IsWord(n) && (blank == "" || blank == " ") && (rest == "" || !IsDigit(rest[0]))
    ensures ParseWord(blank + Decimal(n) + rest) == Some((n, rest))
  {
    hide Decimal, Run, Value, SkipBlanks, ParseWord;
    DecimalValue(n);
    ParseDigits(Decimal(n), blank, rest);
  }

  lemma ParseDigits(d: string, blank: string, rest: string)
    requires d != "" && AllDigits(d) && Value(d) < WORDS
    requires (blank == "" || blank == " ") && (rest == "" || !IsDigit(rest[0]))
    ensures ParseWord(blank + d + rest) == Some((Value(d), rest))
  {
    hide Run, Value, SkipBlanks;
    var t := d + rest;
    assert t[0] == d[0] && IsDigit(d[0]);
    RunIs(d, rest);
    AfterBlank(blank, t);
    assert blank + d + rest == blank + t;
    assert t[..|d|] == d && t[|d|..] == rest;
  }

  lemma AfterBlank(blank: string, t: string)
    requires (blank == "" || blank == " ") && t != "" && !IsBlank(t[0])
    ensures SkipBlanks(blank + t) == t
  {
    assert SkipBlanks(t) == t;
    if blank == "" {
      assert blank + t == t;
    } else {
      assert (blank + t)[1..] == t;
    }
  }

  lemma ParseLine(e: Extent, rest: string)
    requires Good(e)
    ensures ParseExtent(Line(e) + rest) == Some((e, "\n" + rest))
  {
    hide ParseWord, Decimal;
    var c := " " + Decimal(e.count) + ("\n" + rest);
    var b := " " + Decimal(e.lowerFirst) + c;
    ParsePrinted(e.count, " ", "\n" + rest);
    ParsePrinted(e.lowerFirst, " ", c);
    ParsePrinted(e.first, "", b);
    assert Line(e) + rest == "" + Decimal(e.first) + b;
  }

  lemma LineStart(e: Extent, rest: string)
    requires Good(e)
    ensures SkipSpace("\n" + (Line(e) + rest)) == SkipSpace(Line(e) + rest) == Line(e) + rest != ""
  {
    assert IsDigit(Line(e)[0]) && (Line(e) + rest)[0] == Line(e)[0];
    assert ("\n" + (Line(e) + rest))[1..] == Line(e) + rest;
  }

  // From the front, so that the parser can follow.
  ghost function Lines(map_: seq<Extent>): string
    requires forall i :: 0 <= i < |map_| ==> Good(map_[i])
  {
    if map_ == [] then "" else Line(map_[0]) + Lines(map_[1..])
  }

  lemma {:induction false} LinesMore(map_: seq<Extent>, e: Extent)
    requires (forall i :: 0 <= i < |map_| ==> Good(map_[i])) && Good(e)
    ensures Lines(map_ + [e]) == Lines(map_) + Line(e)
  {
    hide Line;
    if map_ == [] {
      assert ([e])[1..] == [];
      assert Lines([e]) == Line(e) + "";
    } else {
      assert (map_ + [e])[1..] == map_[1..] + [e] && (map_ + [e])[0] == map_[0];
      LinesMore(map_[1..], e);
    }
  }

  lemma {:induction false} PrintedIsLines(map_: seq<Extent>)
    requires forall i :: 0 <= i < |map_| ==> Good(map_[i])
    ensures Printed(map_) == Lines(map_)
  {
    hide Line;
    if map_ != [] {
      var init, e := map_[..|map_| - 1], map_[|map_| - 1];
      PrintedIsLines(init);
      LinesMore(init, e);
      assert init + [e] == map_;
    }
  }

  lemma {:induction false} ParseLines(map_: seq<Extent>, n: int, newline: bool)
    requires 0 <= n && n + |map_| <= UID_MAP_MAX && forall i :: 0 <= i < |map_| ==> Good(map_[i])
    ensures ParseMap((if newline then "\n" else "") + Lines(map_), n) == Some(map_)
    decreases |map_|
  {
    hide Line, ParseExtent;
    var s := (if newline then "\n" else "") + Lines(map_);
    if map_ == [] {
      assert newline ==> s[1..] == "";
      assert SkipSpace("") == "";
    } else {
      var e, rest := map_[0], Lines(map_[1..]);
      LineStart(e, rest);
      ParseLine(e, rest);
      ParseShrinks(Line(e) + rest);
      assert !newline ==> s == Line(e) + rest;
      assert newline ==> s == "\n" + (Line(e) + rest);
      ParseLines(map_[1..], n + 1, true);
      assert [e] + map_[1..] == map_;
    }
  }

  // What is printed of an accepted map, a fresh namespace below the root accepts,
  // and it has the same extents.
  method CopyMap(from: Namespace, to: Namespace, capacity: nat) returns (code: int)
    requires from.Valid() && from.uidSet && to.level > 0 && !to.uidSet && to.Valid()
    modifies to
    ensures capacity >= |Printed(old(from.uid))| ==> to.uidSet && to.uid == old(from.uid) && code == |Printed(old(from.uid))|
  {
    ghost var m := from.uid;
    var text := ReadMap(from.uid, capacity);
    PrintedIsLines(m);
    ParseLines(m, 0, false);
    assert "" + Lines(m) == Lines(m);
    code := to.WriteMap(text);
  }
}
