/**
 The part of a directory entry that a write or a truncation rewrites
 (kernel/fs/fatfs.c, `fat_write_directory_entry`): the first cluster in two halves
 at 20 and 26, the size at 28.  `attach_entry` reads the same bytes at mount time.
 */
module FatEntries {
  import opened FatTables
  import opened FatDisks
  import opened LittleEndian

  const ENTRY: int := 32

  ghost predicate Touched(at: int, i: int) {
    at + 20 <= i < at + 22 || at + 26 <= i < at + 32
  }

  // The entry at `at` with a new size and first cluster.
  ghost function EntryStored(s: seq<Byte>, at: int, size: int, first: int): (r: seq<Byte>)
    requires 0 <= at && at + ENTRY <= |s|
    ensures |r| == |s| && forall i :: 0 <= i < |s| && !Touched(at, i) ==> r[i] == s[i]
    ensures r[at + 20..at + 22] == Bytes(first / 0x1_0000, 2) && r[at + 26..at + 28] == Bytes(first, 2)
    ensures r[at + 28..at + 32] == Bytes(size, 4)
  {
    Splice(Splice(Splice(s, at + 20, Bytes(first / 0x1_0000, 2)), at + 26, Bytes(first, 2)), at + 28, Bytes(size, 4))
  }

  // What an entry records.
  ghost function RecordedSize(s: seq<Byte>, at: int): int
    requires 0 <= at && at + ENTRY <= |s|
  {
    Word(s, at + 28, 4)
  }

  ghost function RecordedFirst(s: seq<Byte>, at: int): int
    requires 0 <= at && at + ENTRY <= |s|
  {
    Word(s, at + 26, 2) + 0x1_0000 * Word(s, at + 20, 2)
  }

  // What is stored is what the next mount reads.
  lemma EntryReads(s: seq<Byte>, at: int, size: int, first: int)
    requires 0 <= at && at + ENTRY <= |s| && 0 <= size < 0x1_0000_0000 && 0 <= first < 0x1_0000_0000
    ensures var r := EntryStored(s, at, size, first); RecordedSize(r, at) == size && RecordedFirst(r, at) == first
  {
    var r := EntryStored(s, at, size, first);
    hide EntryStored;
    BytesRead(r, at + 28, size);
    HalfRead(r, at + 26, first);
    HalfRead(r, at + 20, first / 0x1_0000);
    Unique(first / 0x1_0000, 0x1_0000, 0, first / 0x1_0000);
  }

  lemma BytesRead(r: seq<Byte>, at: int, w: int)
    requires 0 <= at && at + 4 <= |r| && 0 <= w < 0x1_0000_0000 && r[at..at + 4] == Bytes(w, 4)
    ensures Word(r, at, 4) == w
  {
    Word4(r, at);
    ByteStrings(w);
    var b := r[at..at + 4];
    assert r[at] == b[0] && r[at + 1] == b[1] && r[at + 2] == b[2] && r[at + 3] == b[3];
    Digits(w);
  }

  lemma HalfRead(r: seq<Byte>, at: int, w: int)
    requires 0 <= at && at + 2 <= |r| && 0 <= w && r[at..at + 2] == Bytes(w, 2)
    ensures Word(r, at, 2) == w % 0x1_0000
  {
    Word2(r, at);
    ByteStrings(w);
    var b := r[at..at + 2];
    assert r[at] == b[0] && r[at + 1] == b[1];
    hide Word, Bytes;
    Unique(w, 0x1_0000, w / 256 / 256, w / 256 % 256 * 256 + w % 256);
  }

  // Another entry of the directory keeps all its bytes.
  lemma EntriesApart(s: seq<Byte>, at: int, size: int, first: int, other: int)
    requires 0 <= at && at + ENTRY <= |s| && 0 <= other && other + ENTRY <= |s|
    requires at % ENTRY == 0 && other % ENTRY == 0 && at != other
    ensures EntryStored(s, at, size, first)[other..other + ENTRY] == s[other..other + ENTRY]
  {
    assert other + ENTRY <= at || at + ENTRY <= other;
  }

  // The four stores and the loop of the source, on the sector that holds the entry.
  method StoreEntry(sector: seq<Byte>, within: int, size: int, first: int) returns (r: seq<Byte>)
    requires 0 <= within && within + ENTRY <= |sector|
    ensures r == EntryStored(sector, within, size, first)
  {
    hide Bytes;
    ByteStrings(first);
    ByteStrings(first / 0x1_0000);
    ghost var high := first / 0x1_0000;
    r := sector[within + 26 := first % 256][within + 27 := first / 256 % 256];
    r := r[within + 20 := first / 0x1_0000 % 256];
    HighByte(first);
    r := r[within + 21 := first / 0x100_0000 % 256];
    assert r == Splice(Splice(sector, within + 20, Bytes(high, 2)), within + 26, Bytes(first, 2));
    r := FatDisk.Scatter(r, within + 28, size, 4);
  }

  lemma HighByte(first: int)
    ensures first / 0x1_0000 / 256 == first / 0x100_0000
  {
    DivTwice(first, 0x1_0000);
    DivTwice(first, 256);
    DivTwice(first / 256, 256);
  }

  // Writing back the sector stores the entry in the directory.
  lemma EntryInSector(s: seq<Byte>, base: int, within: int, size: int, first: int)
    requires 0 <= base && base + SECTOR <= |s| && 0 <= within && within + ENTRY <= SECTOR
    ensures Splice(s, base, EntryStored(s[base..base + SECTOR], within, size, first)) == EntryStored(s, base + within, size, first)
  {
    var t := s[base..base + SECTOR];
    var a, b := Splice(s, base, EntryStored(t, within, size, first)), EntryStored(s, base + within, size, first);
    InSector(s, base, within + 20, Bytes(first / 0x1_0000, 2), t);
    var s1, t1 := Splice(s, base + within + 20, Bytes(first / 0x1_0000, 2)), Splice(t, within + 20, Bytes(first / 0x1_0000, 2));
    InSector(s1, base, within + 26, Bytes(first, 2), t1);
    var s2, t2 := Splice(s1, base + within + 26, Bytes(first, 2)), Splice(t1, within + 26, Bytes(first, 2));
    InSector(s2, base, within + 28, Bytes(size, 4), t2);
    var s3, t3 := Splice(s2, base + within + 28, Bytes(size, 4)), Splice(t2, within + 28, Bytes(size, 4));
    hide Bytes;
    assert a == s3;
  }

  lemma InSector(s: seq<Byte>, base: int, at: int, b: seq<Byte>, t: seq<Byte>)
    requires 0 <= base && base + SECTOR <= |s| && 0 <= at && at + |b| <= SECTOR && t == s[base..base + SECTOR]
    ensures Splice(s, base + at, b)[base..base + SECTOR] == Splice(t, at, b)
  {
  }
}
