/**
 Little-endian numbers in strings of bytes.
 */
module LittleEndian {
  type Byte = x: int | 0 <= x < 256

  function Power(n: nat): (p: int)
    ensures p > 0
  {
    if n == 0 then 1 else 256 * Power(n - 1)
  }

  // The little-endian number in n bytes.
  function Word(s: seq<Byte>, at: int, n: nat): (w: int)
    requires 0 <= at && at + n <= |s|
  {
    if n == 0 then 0 else Word(s, at, n - 1) + s[at + n - 1] * Power(n - 1)
  }

  function Bytes(w: int, n: nat): (s: seq<Byte>)
    ensures |s| == n
    decreases n
  {
    if n == 0 then [] else [w % 256] + Bytes(w / 256, n - 1)
  }

  // The first byte is the low one.
  lemma {:induction false} LowByteFirst(s: seq<Byte>, at: int, n: nat)
    requires 0 <= at && at + n + 1 <= |s|
    ensures Word(s, at, n + 1) == s[at] + 256 * Word(s, at + 1, n)
  {
    if n == 0 {
      assert Word(s, at, 0) == 0 && Power(0) == 1;
    } else {
      LowByteFirst(s, at, n - 1);
      assert Power(n) == 256 * Power(n - 1);
      assert s[at + n] * Power(n) == 256 * (s[at + n] * Power(n - 1));
    }
  }

  lemma {:induction false} SameWord(a: seq<Byte>, p: int, b: seq<Byte>, q: int, n: nat)
    requires 0 <= p && p + n <= |a| && 0 <= q && q + n <= |b| && a[p..p + n] == b[q..q + n]
    ensures Word(a, p, n) == Word(b, q, n)
  {
    if n > 0 {
      assert a[p..p + n - 1] == a[p..p + n][..n - 1] && b[q..q + n - 1] == b[q..q + n][..n - 1];
      assert a[p + n - 1] == a[p..p + n][n - 1] && b[q + n - 1] == b[q..q + n][n - 1];
      SameWord(a, p, b, q, n - 1);
    }
  }

  lemma {:induction false} BytesMore(w: int, n: nat)
    ensures Bytes(w, n + 1) == Bytes(w, n) + [w / Power(n) % 256]
    decreases n
  {
    if n == 0 {
      assert Bytes(w, 1) == [w % 256];
    } else {
      BytesMore(w / 256, n - 1);
      DivTwice(w, Power(n - 1));
    }
  }

  lemma DivTwice(w: int, p: int)
    requires p > 0
    ensures w / 256 / p == w / (256 * p)
  {
    var a, r := w / 256, w % 256;
    var b, t := a / p, a % p;
    assert w == 256 * a + r && a == b * p + t;
    assert w == b * (256 * p) + (256 * t + r);
    Unique(w, 256 * p, b, 256 * t + r);
  }

  // Division with remainder is unique.
  lemma Unique(x: int, n: int, q: int, r: int)
    requires n > 0 && x == q * n + r && 0 <= r < n
    ensures x / n == q && x % n == r
  {
    var d := x / n - q;
    assert d * n == (x / n) * n - q * n;
    SmallProduct(d, n);
  }

  lemma SmallProduct(d: int, n: int)
    requires n > 0 && -n < d * n < n
    ensures d == 0
  {
    if d >= 1 {
      AtLeast(d, n);
    } else if d <= -1 {
      AtLeast(-d, n);
    }
  }

  lemma {:induction false} AtLeast(d: int, n: int)
    requires d >= 1 && n > 0
    ensures d * n >= n
    decreases d
  {
    if d > 1 {
      AtLeast(d - 1, n);
      assert d * n == (d - 1) * n + n;
    }
  }
}
