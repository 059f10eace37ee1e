/**
 The file allocation table of a FAT12, FAT16 or FAT32 volume (kernel/fs/fatfs.c,
 `fat_entry_read`, `fat_entry_write`): packed entries in whole-sector reads and
 writes, in every copy of the table.

 The device is a sequence of bytes whose reads and writes succeed.  Shifts, masks
 and ors on unsigned words are written as the divisions, remainders and sums they
 are.
 */
module FatTables {
  import opened LittleEndian

  const SECTOR: int := 512

  // What the mount code computes from the boot sector.
  datatype Geometry = Geometry(
    bits: int, sectorsPerCluster: int,
    fatStart: int, fatSectors: int, fatCount: int,
    rootStart: int, rootSectors: int,
    dataStart: int, clusterCount: int)

  predicate Width(bits: int) {
    bits == 12 || bits == 16 || bits == 32
  }

  // ---------------------------------------------------------------------------
  // One entry in a string of bytes
  // ---------------------------------------------------------------------------

  function EntryOffset(bits: int, c: int): int {
    if bits == 12 then c + c / 2 else if bits == 16 then c * 2 else c * 4
  }

  function EntryBytes(bits: int): int {
    if bits == 32 then 4 else 2
  }

  // How many values an entry can hold.
  function Limit(bits: int): int {
    if bits == 12 then 0x1000 else if bits == 16 then 0x1_0000 else 0x1000_0000
  }

  // The entry in the little-endian word at its offset.
  function Unpack(bits: int, c: int, word: int): int {
    if bits == 12 then (if c % 2 == 1 then word / 16 else word % 0x1000)
    else if bits == 16 then word
    else word % 0x1000_0000
  }

  // The word with the entry replaced.
  function Pack(bits: int, c: int, word: int, value: int): int {
    if bits == 12 then
      (if c % 2 == 1 then word % 16 + (value * 16) % 0x1_0000 else (word / 0x1000) * 0x1000 + value % 0x1000)
    else if bits == 16 then value % 0x1_0000
    else (word / 0x1000_0000) * 0x1000_0000 + value % 0x1000_0000
  }

  function Splice<T>(s: seq<T>, at: int, t: seq<T>): (r: seq<T>)
    requires 0 <= at && at + |t| <= |s|
    ensures |r| == |s| && forall i :: 0 <= i < |s| ==> r[i] == if at <= i < at + |t| then t[i - at] else s[i]
  {
    s[..at] + t + s[at + |t|..]
  }

  predicate InTable(bits: int, s: seq<Byte>, c: int) {
    Width(bits) && 0 <= c && EntryOffset(bits, c) + EntryBytes(bits) <= |s|
  }

  function Entry(bits: int, s: seq<Byte>, c: int): int
    requires InTable(bits, s, c)
  {
    Unpack(bits, c, Word(s, EntryOffset(bits, c), EntryBytes(bits)))
  }

  function Stored(bits: int, s: seq<Byte>, c: int, value: int): (r: seq<Byte>)
    requires InTable(bits, s, c)
    ensures |r| == |s|
  {
    var at, n := EntryOffset(bits, c), EntryBytes(bits);
    Splice(s, at, Bytes(Pack(bits, c, Word(s, at, n), value), n))
  }

  function Le2(a: int, b: int): int {
    a + 256 * b
  }

  function Le4(a: int, b: int, c: int, d: int): int {
    a + 256 * b + 0x1_0000 * c + 0x100_0000 * d
  }

  // The words of two and four bytes, written out.
  lemma Word2(s: seq<Byte>, at: int)
    requires 0 <= at && at + 2 <= |s|
    ensures Word(s, at, 2) == Le2(s[at], s[at + 1])
  {
    assert Power(0) == 1 && Power(1) == 256;
    assert Word(s, at, 0) == 0 && Word(s, at, 1) == s[at];
  }

  lemma Word4(s: seq<Byte>, at: int)
    requires 0 <= at && at + 4 <= |s|
    ensures Word(s, at, 4) == Le4(s[at], s[at + 1], s[at + 2], s[at + 3])
  {
    Word2(s, at);
    assert Power(2) == 256 * Power(1) == 0x1_0000 && Power(3) == 0x100_0000;
    assert Word(s, at, 3) == Word(s, at, 2) + s[at + 2] * Power(2);
  }

  lemma ByteStrings(w: int)
    ensures Bytes(w, 2) == [w % 256, w / 256 % 256]
    ensures Bytes(w, 4) == [w % 256, w / 256 % 256, w / 256 / 256 % 256, w / 256 / 256 / 256 % 256]
  {
    assert Bytes(w / 256, 1) == [w / 256 % 256];
    assert Bytes(w / 256 / 256, 2) == [w / 256 / 256 % 256, w / 256 / 256 / 256 % 256];
  }

  ghost function At(s: seq<Byte>, i: int): int {
    if 0 <= i < |s| then s[i] else 0
  }

  // The on-disk layout of an entry, byte by byte, in a table that starts at `base`.
  // Two FAT12 entries share three bytes, the first has the low half of the middle
  // one; FAT16 and FAT32 entries have their low byte first, and FAT32 has 28 bits.
  ghost function EntryValue(bits: int, s: seq<Byte>, base: int, c: int): int {
    if bits == 12 then
      var at := base + 3 * (c / 2);
      if c % 2 == 0 then At(s, at) + 256 * (At(s, at + 1) % 16) else At(s, at + 1) / 16 + 16 * At(s, at + 2)
    else if bits == 16 then At(s, base + 2 * c) + 256 * At(s, base + 2 * c + 1)
    else
      var at := base + 4 * c;
      At(s, at) + 256 * At(s, at + 1) + 0x1_0000 * At(s, at + 2) + 0x100_0000 * (At(s, at + 3) % 16)
  }

  lemma EntryLayout(bits: int, s: seq<Byte>, c: int)
    requires InTable(bits, s, c)
    ensures Entry(bits, s, c) == EntryValue(bits, s, 0, c)
  {
    var at := EntryOffset(bits, c);
    if bits == 12 {
      Word2(s, at);
      var j := c / 2;
      assert c == 2 * j + c % 2;
      if c % 2 == 0 {
        LowHalf(s[at], s[at + 1]);
      } else {
        assert at == 3 * j + 1;
        HighHalf(s[at] / 16, s[at] % 16, s[at + 1]);
      }
    } else if bits == 16 {
      Word2(s, at);
    } else {
      Word4(s, at);
      Low28(s[at], s[at + 1], s[at + 2], s[at + 3]);
    }
  }

  lemma Low28(a: Byte, b: Byte, c: Byte, d: Byte)
    ensures Le4(a, b, c, d) % 0x1000_0000 == Le4(a, b, c, d % 16)
  {
    Unique(Le4(a, b, c, d), 0x1000_0000, d / 16, Le4(a, b, c, d % 16));
  }

  // Entries other than a FAT12 pair do not share bytes.
  lemma Apart12(c: int, d: int)
    requires 0 <= c && 0 <= d && c != d
    ensures var a, b := EntryOffset(12, c), EntryOffset(12, d);
            && (d == c + 1 && c % 2 == 0 ==> b == a + 1)
            && (c == d + 1 && d % 2 == 0 ==> a == b + 1)
            && (!(d == c + 1 && c % 2 == 0) && !(c == d + 1 && d % 2 == 0) ==> a + 1 < b || b + 1 < a)
  {
  }

  lemma Stored12(s: seq<Byte>, c: int, value: int, d: int)
    requires InTable(12, s, c) && InTable(12, s, d) && value >= 0
    ensures Entry(12, Stored(12, s, c, value), d) == if c == d then value % Limit(12) else Entry(12, s, d)
  {
    var r := Stored(12, s, c, value);
    var a, b := EntryOffset(12, c), EntryOffset(12, d);
    Word2(s, a);
    Word2(s, b);
    Word2(r, b);
    var w := Pack(12, c, Word(s, a, 2), value);
    ByteStrings(w);
    assert r[a] == w % 256 && r[a + 1] == w / 256 % 256;
    assert forall i :: 0 <= i < |s| && i != a && i != a + 1 ==> r[i] == s[i];
    hide Word, Bytes, Pack, Unpack, EntryOffset, Le2;
    if c == d {
      Own12(s[a], s[a + 1], c, value);
    } else {
      Apart12(c, d);
      if d == c + 1 && c % 2 == 0 {
        SharedHigh(s[a], s[a + 1], s[b + 1], c, value);
      } else if c == d + 1 && d % 2 == 0 {
        SharedLow(s[b], s[a], s[a + 1], c, value);
      }
    }
  }

  // The middle byte of a pair of FAT12 entries keeps the other entry's half.
  lemma SharedHigh(x: Byte, y: Byte, z: Byte, c: int, value: int)
    requires value >= 0 && c % 2 == 0
    ensures var w := Pack(12, c, Le2(x, y), value);
            Unpack(12, c + 1, Le2(w / 256 % 256, z)) == Unpack(12, c + 1, Le2(y, z))
  {
    hide Pack, Le2;
    var q, v := y / 16, value % 0x1000;
    Even12(x, y, c, value);
    MiddleByte(q, v);
    SplitByte(y);
    HighHalf(q, v / 256, z);
    HighHalf(q, y % 16, z);
  }

  lemma SplitByte(y: Byte)
    ensures y == y / 16 * 16 + y % 16 && 0 <= y / 16 < 16
  {
  }

  // The word of an even entry, in its two parts.
  lemma Even12(x: Byte, y: Byte, c: int, value: int)
    requires value >= 0 && c % 2 == 0
    ensures Pack(12, c, Le2(x, y), value) == y / 16 * 0x1000 + value % 0x1000
  {
    Unique(Le2(x, y), 0x1000, y / 16, x + 256 * (y % 16));
  }

  lemma MiddleByte(q: int, v: int)
    requires 0 <= q < 16 && 0 <= v < 0x1000
    ensures (q * 0x1000 + v) / 256 % 256 == q * 16 + v / 256
  {
    Unique(q * 0x1000 + v, 256, q * 16 + v / 256, v % 256);
    Unique(q * 16 + v / 256, 256, 0, q * 16 + v / 256);
  }

  lemma HighHalf(q: int, r: int, z: Byte)
    requires 0 <= r < 16
    ensures Le2(q * 16 + r, z) / 16 == q + 16 * z
  {
    Unique(Le2(q * 16 + r, z), 16, q + 16 * z, r);
  }

  lemma SharedLow(x: Byte, y: Byte, z: Byte, c: int, value: int)
    requires value >= 0 && c % 2 == 1
    ensures var w := Pack(12, c, Le2(y, z), value);
            Unpack(12, c - 1, Le2(x, w % 256)) == Unpack(12, c - 1, Le2(x, y))
  {
    var w, v := Pack(12, c, Le2(y, z), value), value % 0x1000;
    Odd12(y, z, c, value);
    Unique(w, 16, v, y % 16);
    Unique(w, 256, v / 16, v % 16 * 16 + y % 16);
    Unique(v % 16 * 16 + y % 16, 16, v % 16, y % 16);
    LowHalf(x, w % 256);
    LowHalf(x, y);
  }

  // The word of an odd entry, in its two parts.
  lemma Odd12(y: Byte, z: Byte, c: int, value: int)
    requires value >= 0 && c % 2 == 1
    ensures Pack(12, c, Le2(y, z), value) == y % 16 + 16 * (value % 0x1000)
  {
    Unique(value * 16, 0x1_0000, value / 0x1000, value % 0x1000 * 16);
    Unique(Le2(y, z), 16, y / 16 + 16 * z, y % 16);
  }

  lemma LowHalf(x: Byte, m: Byte)
    ensures Le2(x, m) % 0x1000 == x + 256 * (m % 16)
  {
    Unique(Le2(x, m), 0x1000, m / 16, x + 256 * (m % 16));
  }

  lemma Own12(x: Byte, y: Byte, c: int, value: int)
    requires value >= 0
    ensures var w := Pack(12, c, Le2(x, y), value); Unpack(12, c, Le2(w % 256, w / 256 % 256)) == value % 0x1000
  {
    var w, v := Pack(12, c, Le2(x, y), value), value % 0x1000;
    if c % 2 == 1 {
      Odd12(x, y, c, value);
      Unique(w, 16, v, x % 16);
    } else {
      Unique(Le2(x, y), 0x1000, y / 16, x + 256 * (y % 16));
      Unique(w, 0x1000, y / 16, v);
    }
    assert 0 <= w < 0x1_0000;
    Unique(w / 256, 256, 0, w / 256);
    assert Le2(w % 256, w / 256 % 256) == w;
  }

  lemma Stored16(s: seq<Byte>, c: int, value: int, d: int)
    requires InTable(16, s, c) && InTable(16, s, d) && value >= 0
    ensures Entry(16, Stored(16, s, c, value), d) == if c == d then value % Limit(16) else Entry(16, s, d)
  {
    var r := Stored(16, s, c, value);
    Word2(s, d * 2);
    Word2(r, d * 2);
    ByteStrings(value % 0x1_0000);
  }

  lemma Stored32(s: seq<Byte>, c: int, value: int, d: int)
    requires InTable(32, s, c) && InTable(32, s, d) && value >= 0
    ensures Entry(32, Stored(32, s, c, value), d) == if c == d then value % Limit(32) else Entry(32, s, d)
  {
    var r := Stored(32, s, c, value);
    Word4(s, d * 4);
    Word4(r, d * 4);
    var w := Pack(32, c, Word(s, c * 4, 4), value);
    ByteStrings(w);
    assert forall i :: 0 <= i < |s| && !(c * 4 <= i < c * 4 + 4) ==> r[i] == s[i];
    hide Word, Bytes, Pack, Le4;
    if c == d {
      assert r[c * 4..c * 4 + 4] == [w % 256, w / 256 % 256, w / 256 / 256 % 256, w / 256 / 256 / 256 % 256];
      Own32(s, c, value);
    }
  }

  lemma Own32(s: seq<Byte>, c: int, value: int)
    requires InTable(32, s, c) && value >= 0
    ensures var w := Pack(32, c, Word(s, c * 4, 4), value);
            && 0 <= w < 0x1_0000_0000 && w % 0x1000_0000 == value % 0x1000_0000
            && w / 0x1000_0000 == Word(s, c * 4, 4) / 0x1000_0000
            && Le4(w % 256, w / 256 % 256, w / 256 / 256 % 256, w / 256 / 256 / 256 % 256) == w
  {
    Word4(s, c * 4);
    var word, v := Word(s, c * 4, 4), value % 0x1000_0000;
    hide Word;
    assert 0 <= word < 0x1_0000_0000;
    var w, k := Pack(32, c, word, value), word / 0x1000_0000;
    assert 0 <= k < 16;
    Unique(w, 0x1000_0000, k, v);
    Digits(w);
  }

  lemma Digits(w: int)
    requires 0 <= w < 0x1_0000_0000
    ensures w % 256 + 256 * (w / 256 % 256) + 0x1_0000 * (w / 256 / 256 % 256) + 0x100_0000 * (w / 256 / 256 / 256 % 256) == w
  {
    var a := w / 256;
    var b := a / 256;
    var c := b / 256;
    assert w == 256 * a + w % 256 && a == 256 * b + a % 256 && b == 256 * c + b % 256;
  }

  // Storing an entry makes it read back, cut to the entry's width, and leaves every
  // other entry as it was, for all three widths.
  lemma StoredReads(bits: int, s: seq<Byte>, c: int, value: int, d: int)
    requires InTable(bits, s, c) && InTable(bits, s, d) && value >= 0
    ensures Entry(bits, Stored(bits, s, c, value), d) == if c == d then value % Limit(bits) else Entry(bits, s, d)
  {
    if bits == 12 {
      Stored12(s, c, value, d);
    } else if bits == 16 {
      Stored16(s, c, value, d);
    } else {
      Stored32(s, c, value, d);
    }
  }

  // FAT32 keeps the four reserved bits of the word.
  lemma ReservedBits(s: seq<Byte>, c: int, value: int)
    requires InTable(32, s, c) && value >= 0
    ensures Word(Stored(32, s, c, value), c * 4, 4) / 0x1000_0000 == Word(s, c * 4, 4) / 0x1000_0000
  {
    var r := Stored(32, s, c, value);
    Word4(r, c * 4);
    var w := Pack(32, c, Word(s, c * 4, 4), value);
    ByteStrings(w);
    assert r[c * 4..c * 4 + 4] == Bytes(w, 4);
    Own32(s, c, value);
  }
}
