/**
 References, and lists of them: putting one in, taking one out.
 */
module Lists {
  type Ref = int

  const NULL: Ref := 0

  ghost predicate NoRepeats(s: seq<Ref>) {
    forall i, j :: 0 <= i < j < |s| ==> s[i] != s[j]
  }

  lemma Differ(s: seq<Ref>, i: int, j: int)
    requires NoRepeats(s) && 0 <= i < |s| && 0 <= j < |s|
    ensures s[i] == s[j] <==> i == j
  {
  }

  lemma InsertMembers(s: seq<Ref>, k: int, p: Ref)
    requires NoRepeats(s) && 0 <= k <= |s| && p !in s
    ensures NoRepeats(s[..k] + [p] + s[k..])
    ensures forall r :: r in s[..k] + [p] + s[k..] <==> r == p || r in s
  {
    var u := s[..k] + [p] + s[k..];
    forall i, j | 0 <= i < j < |u| ensures u[i] != u[j] {
      assert u[i] == if i < k then s[i] else if i == k then p else s[i - 1];
      assert u[j] == if j < k then s[j] else if j == k then p else s[j - 1];
    }
    assert s == s[..k] + s[k..];
  }

  lemma RemoveMembers(s: seq<Ref>, k: int)
    requires NoRepeats(s) && 0 <= k < |s|
    ensures NoRepeats(s[..k] + s[k + 1..])
    ensures forall r :: r in s[..k] + s[k + 1..] <==> r != s[k] && r in s
  {
    var u := s[..k] + s[k + 1..];
    forall i, j | 0 <= i < j < |u| ensures u[i] != u[j] {
      assert u[i] == s[if i < k then i else i + 1] && u[j] == s[if j < k then j else j + 1];
    }
    assert s == s[..k] + [s[k]] + s[k + 1..];
    forall i | 0 <= i < |u| ensures u[i] != s[k] {
      assert u[i] == s[if i < k then i else i + 1];
    }
  }

  // The list that unlinking p leaves.
  function Without(s: seq<Ref>, p: Ref): (r: seq<Ref>)
    ensures forall q :: q in r <==> q in s && q != p
    ensures NoRepeats(s) ==> NoRepeats(r)
  {
    if s == [] then []
    else
      var rest := Without(s[1..], p);
      assert NoRepeats(s) ==> NoRepeats(s[1..]) && s[0] !in s[1..];
      assert s[0] !in s[1..] ==> s[0] !in rest;
      if s[0] == p then rest else [s[0]] + rest
  }
}
