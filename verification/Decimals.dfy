/**
 Decimal numbers as the kernel prints them (kernel/fs/eventfs.c, `builder_uint`;
 kernel/core/namespace.c, `user_ns_read_uid_map`): digits from the lowest up into a
 small buffer, then out in reverse.
 */
module Decimals {
  predicate IsDigit(c: char) {
    '0' <= c <= '9'
  }

  function Digit(d: int): (c: char)
    requires 0 <= d < 10
    ensures IsDigit(c) && DigitValue(c) == d
  {
    '0' + d as char
  }

  function DigitValue(c: char): (d: int)
    requires IsDigit(c)
    ensures 0 <= d < 10
  {
    c as int - '0' as int
  }

  function Decimal(n: nat): (s: string)
    ensures |s| >= 1 && forall i :: 0 <= i < |s| ==> IsDigit(s[i])
  {
    if n < 10 then [Digit(n)] else Decimal(n / 10) + [Digit(n % 10)]
  }

  ghost predicate AllDigits(s: string) {
    forall i :: 0 <= i < |s| ==> IsDigit(s[i])
  }

  // The number a string of digits stands for.
  ghost function Value(s: string): nat
    requires AllDigits(s)
  {
    if s == "" then 0 else Value(s[..|s| - 1]) * 10 + DigitValue(s[|s| - 1])
  }

  lemma {:induction false} DecimalValue(n: nat)
    ensures AllDigits(Decimal(n)) && Value(Decimal(n)) == n
  {
    if n < 10 {
      assert Decimal(n)[..0] == "" && Value("") == 0;
    } else {
      var init := Decimal(n / 10);
      DecimalValue(n / 10);
      assert Decimal(n)[..|Decimal(n)| - 1] == init;
    }
  }

  function Power10(k: nat): (p: nat)
    ensures p > 0
  {
    if k == 0 then 1 else 10 * Power10(k - 1)
  }

  lemma {:induction false} DecimalLength(n: nat, k: nat)
    requires k >= 1 && n < Power10(k)
    ensures |Decimal(n)| <= k
  {
    if n >= 10 {
      assert k > 1;
      DecimalLength(n / 10, k - 1);
    }
  }

  lemma WordDigits(n: nat)
    ensures n < 0x1_0000_0000 ==> |Decimal(n)| <= 10
    ensures n < 0x1_0000_0000_0000_0000 ==> |Decimal(n)| <= 20
  {
    assert Power10(5) == 100_000;
    assert Power10(10) == 100_000 * Power10(5);
    assert Power10(15) == 100_000 * Power10(10);
    assert Power10(20) == 100_000 * Power10(15);
    if n < 0x1_0000_0000 {
      DecimalLength(n, 10);
    }
    if n < 0x1_0000_0000_0000_0000 {
      DecimalLength(n, 20);
    }
  }

  function Reversed(s: string): (r: string)
    ensures |r| == |s|
  {
    if s == "" then "" else Reversed(s[1..]) + [s[0]]
  }

  lemma {:induction false} ReversedMore(s: string, c: char)
    ensures Reversed(s + [c]) == [c] + Reversed(s)
  {
    if s != "" {
      assert (s + [c])[1..] == s[1..] + [c];
      ReversedMore(s[1..], c);
    }
  }

  // The two loops; `room` is the size of the digit buffer.
  method Print(n: nat, room: nat) returns (s: string)
    requires |Decimal(n)| <= room
    ensures s == Decimal(n)
  {
    var digits, value := [Digit(n % 10)], n / 10;
    assert Reversed(digits) == digits;
    while value > 0
      invariant Decimal(n) == (if value > 0 then Decimal(value) else "") + Reversed(digits)
      invariant 1 <= |digits| <= room
    {
      assert |digits| < room;
      ReversedMore(digits, Digit(value % 10));
      ghost var was := value;
      digits := digits + [Digit(value % 10)];
      value := value / 10;
      assert Decimal(was) == (if value > 0 then Decimal(value) else "") + [Digit(was % 10)];
    }
    s := "";
    var count := |digits|;
    assert digits[..count] == digits;
    while count > 0
      invariant 0 <= count <= |digits| && s + Reversed(digits[..count]) == Reversed(digits)
    {
      count := count - 1;
      ReversedMore(digits[..count], digits[count]);
      assert digits[..count + 1] == digits[..count] + [digits[count]];
      s := s + [digits[count]];
    }
  }
}
