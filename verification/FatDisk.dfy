/**
 The device under a FAT volume (kernel/fs/fatfs.c): sector reads and writes, and
 the table entries, cluster contents and fixed root directory they carry.  `table`,
 `data` and `root` say what the bytes mean; every method keeps them in step.
 */
module FatDisks {
  import opened FatTables
  import opened LittleEndian

  // Entries from this value on end a chain.
  function EndMark(bits: int): int {
    if bits == 12 then 0xFF8 else if bits == 16 then 0xFFF8 else 0xFFF_FFF8
  }

  predicate Sound(g: Geometry) {
    && Width(g.bits) && g.sectorsPerCluster > 0 && g.fatStart > 0 && g.fatSectors > 0 && g.fatCount > 0 && g.clusterCount > 0
    && g.fatStart + g.fatCount * g.fatSectors <= g.dataStart
    && 0 <= g.rootStart && 0 <= g.rootSectors && g.rootStart + g.rootSectors <= g.dataStart
    && (g.rootSectors > 0 ==> g.fatStart + g.fatCount * g.fatSectors <= g.rootStart)
    && g.clusterCount + 2 <= EndMark(g.bits)
    && EntryOffset(g.bits, g.clusterCount + 1) + EntryBytes(g.bits) <= g.fatSectors * SECTOR
  }

  function ClusterBytes(g: Geometry): int {
    g.sectorsPerCluster * SECTOR
  }

  function FatBase(g: Geometry, k: int): int {
    (g.fatStart + k * g.fatSectors) * SECTOR
  }

  function ClusterBase(g: Geometry, c: int): int {
    (g.dataStart + (c - 2) * g.sectorsPerCluster) * SECTOR
  }

  predicate IsCluster(g: Geometry, c: int) {
    2 <= c < g.clusterCount + 2
  }

  predicate Holds(g: Geometry, size: int) {
    Sound(g) && ClusterBase(g, g.clusterCount + 2) <= size
  }

  // ---------------------------------------------------------------------------
  // Where things are
  // ---------------------------------------------------------------------------

  lemma FatInside(g: Geometry, k: int)
    requires Sound(g) && 0 <= k < g.fatCount
    ensures g.fatStart * SECTOR <= FatBase(g, k) && FatBase(g, k) + g.fatSectors * SECTOR <= g.dataStart * SECTOR
  {
    ProductOrder(0, k, g.fatSectors);
    ProductOrder(k + 1, g.fatCount, g.fatSectors);
    assert (k + 1) * g.fatSectors == k * g.fatSectors + g.fatSectors;
  }

  lemma ProductOrder(a: int, b: int, n: int)
    requires a <= b && n > 0
    ensures a * n <= b * n && (a < b ==> a * n + n <= b * n)
  {
    if a < b {
      AtLeast(b - a, n);
      assert (b - a) * n == b * n - a * n;
    }
  }

  lemma FatApart(g: Geometry, j: int, k: int)
    requires Sound(g) && 0 <= j < k
    ensures FatBase(g, j) + g.fatSectors * SECTOR <= FatBase(g, k)
  {
    ProductOrder(j, k, g.fatSectors);
  }

  lemma ClusterInside(g: Geometry, size: int, c: int)
    requires Holds(g, size) && IsCluster(g, c)
    ensures 0 < g.dataStart * SECTOR <= ClusterBase(g, c) && ClusterBase(g, c) + ClusterBytes(g) <= size
  {
    ProductOrder(0, c - 2, g.sectorsPerCluster);
    ProductOrder(c - 2, g.clusterCount, g.sectorsPerCluster);
    FatInside(g, 0);
  }

  lemma ClusterApart(g: Geometry, c: int, d: int)
    requires Sound(g) && c < d
    ensures ClusterBase(g, c) + ClusterBytes(g) <= ClusterBase(g, d)
  {
    ProductOrder(c - 2, d - 2, g.sectorsPerCluster);
  }

  ghost function Fat(g: Geometry, disk: seq<Byte>, k: int): (s: seq<Byte>)
    requires Holds(g, |disk|) && 0 <= k < g.fatCount
    ensures |s| == g.fatSectors * SECTOR
  {
    FatInside(g, k);
    ClusterInside(g, |disk|, 2);
    disk[FatBase(g, k)..FatBase(g, k) + g.fatSectors * SECTOR]
  }

  ghost function Data(g: Geometry, disk: seq<Byte>, c: int): (s: seq<Byte>)
    requires Holds(g, |disk|) && IsCluster(g, c)
    ensures |s| == ClusterBytes(g)
  {
    ClusterInside(g, |disk|, c);
    disk[ClusterBase(g, c)..ClusterBase(g, c) + ClusterBytes(g)]
  }

  // The root directory of a FAT12 or FAT16 volume; FAT32 has no such region.
  ghost function RootBytes(g: Geometry, disk: seq<Byte>): (s: seq<Byte>)
    requires Holds(g, |disk|)
    ensures |s| == g.rootSectors * SECTOR
  {
    ClusterInside(g, |disk|, 2);
    disk[g.rootStart * SECTOR..(g.rootStart + g.rootSectors) * SECTOR]
  }

  lemma EntryInTable(g: Geometry, s: seq<Byte>, c: int)
    requires Sound(g) && 0 <= c < g.clusterCount + 2 && |s| == g.fatSectors * SECTOR
    ensures InTable(g.bits, s, c)
  {
  }

  // ---------------------------------------------------------------------------
  // What the bytes mean
  // ---------------------------------------------------------------------------

  ghost predicate Shows(g: Geometry, disk: seq<Byte>, table: seq<int>) {
    && Holds(g, |disk|) && |table| == g.clusterCount + 2
    && forall c :: 0 <= c < |table| ==> InTable(g.bits, Fat(g, disk, 0), c) && table[c] == Entry(g.bits, Fat(g, disk, 0), c)
  }

  ghost predicate Contains(g: Geometry, disk: seq<Byte>, data: seq<seq<Byte>>) {
    && Holds(g, |disk|) && |data| == g.clusterCount + 2
    && forall c :: IsCluster(g, c) ==> data[c] == Data(g, disk, c)
  }

  ghost predicate Rooted(g: Geometry, disk: seq<Byte>, root: seq<Byte>) {
    Holds(g, |disk|) && root == RootBytes(g, disk)
  }

  // Copy k of the table with an entry stored.
  ghost function StoredDisk(g: Geometry, disk: seq<Byte>, k: int, c: int, value: int): (r: seq<Byte>)
    requires Holds(g, |disk|) && 0 <= k < g.fatCount && 0 <= c < g.clusterCount + 2
    ensures |r| == |disk|
  {
    FatInside(g, k);
    ClusterInside(g, |disk|, 2);
    Splice(disk, FatBase(g, k), Stored(g.bits, Fat(g, disk, k), c, value))
  }

  lemma StoredFats(g: Geometry, disk: seq<Byte>, k: int, c: int, value: int, j: int)
    requires Holds(g, |disk|) && 0 <= k < g.fatCount && 0 <= c < g.clusterCount + 2 && 0 <= j < g.fatCount
    ensures var disk' := StoredDisk(g, disk, k, c, value);
            Fat(g, disk', j) == if j == k then Stored(g.bits, Fat(g, disk, k), c, value) else Fat(g, disk, j)
  {
    var disk' := StoredDisk(g, disk, k, c, value);
    hide Stored;
    FatInside(g, j);
    FatInside(g, k);
    ClusterInside(g, |disk|, 2);
    if j < k {
      FatApart(g, j, k);
    } else if k < j {
      FatApart(g, k, j);
    }
  }

  lemma StoredData(g: Geometry, disk: seq<Byte>, k: int, c: int, value: int, data: seq<seq<Byte>>)
    requires Contains(g, disk, data) && 0 <= k < g.fatCount && 0 <= c < g.clusterCount + 2
    ensures Contains(g, StoredDisk(g, disk, k, c, value), data)
  {
    var disk' := StoredDisk(g, disk, k, c, value);
    hide Stored;
    forall d | IsCluster(g, d) ensures Data(g, disk', d) == Data(g, disk, d) {
      ClusterInside(g, |disk|, d);
      FatInside(g, k);
    }
  }

  lemma StoredRoot(g: Geometry, disk: seq<Byte>, k: int, c: int, value: int, root: seq<Byte>)
    requires Rooted(g, disk, root) && 0 <= k < g.fatCount && 0 <= c < g.clusterCount + 2
    ensures Rooted(g, StoredDisk(g, disk, k, c, value), root)
  {
    hide Stored;
    ClusterInside(g, |disk|, 2);
    FatInside(g, k);
    FatBelowRoot(g, k);
  }

  lemma FatBelowRoot(g: Geometry, k: int)
    requires Sound(g) && 0 <= k < g.fatCount
    ensures g.rootSectors > 0 ==> FatBase(g, k) + g.fatSectors * SECTOR <= g.rootStart * SECTOR
  {
    ProductOrder(k, g.fatCount, g.fatSectors);
  }

  // Writing back two sectors with the entry's bytes replaced stores the entry.
  lemma SectorsStore(g: Geometry, disk: seq<Byte>, k: int, c: int, value: int, at: int, buffer: seq<Byte>)
    requires Holds(g, |disk|) && 0 <= k < g.fatCount && 0 <= c < g.clusterCount + 2 && 0 <= value
    requires var off := EntryOffset(g.bits, c);
             && at == FatBase(g, k) + off / SECTOR * SECTOR && 0 <= at && at + 2 * SECTOR <= |disk|
             && buffer == disk[at..at + 2 * SECTOR]
    ensures var off, n := EntryOffset(g.bits, c), EntryBytes(g.bits);
            && off % SECTOR + n <= 2 * SECTOR
            && var word := Word(buffer, off % SECTOR, n);
               Splice(disk, at, Splice(buffer, off % SECTOR, Bytes(Pack(g.bits, c, word, value), n))) == StoredDisk(g, disk, k, c, value)
  {
    var off, n := EntryOffset(g.bits, c), EntryBytes(g.bits);
    hide Pack, Bytes, Word, Splice;
    BufferWord(g, disk, k, c, at, buffer);
    FatInside(g, k);
    ClusterInside(g, |disk|, 2);
    var fat := Fat(g, disk, k);
    EntryInTable(g, fat, c);
    hide EntryOffset, FatBase;
    var b := Bytes(Pack(g.bits, c, Word(fat, off, n), value), n);
    SpliceTwice(disk, at, 2 * SECTOR, off % SECTOR, b);
    SpliceTwice(disk, FatBase(g, k), g.fatSectors * SECTOR, off, b);
  }

  // The word in the buffer is the word in the table.
  lemma BufferWord(g: Geometry, disk: seq<Byte>, k: int, c: int, at: int, buffer: seq<Byte>)
    requires Holds(g, |disk|) && 0 <= k < g.fatCount && 0 <= c < g.clusterCount + 2
    requires at == FatBase(g, k) + EntryOffset(g.bits, c) / SECTOR * SECTOR && 0 <= at && at + 2 * SECTOR <= |disk|
    requires buffer == disk[at..at + 2 * SECTOR]
    ensures var off, n := EntryOffset(g.bits, c), EntryBytes(g.bits);
            && 0 <= off && off % SECTOR + n <= 2 * SECTOR && InTable(g.bits, Fat(g, disk, k), c)
            && at + off % SECTOR == FatBase(g, k) + off
            && Word(buffer, off % SECTOR, n) == Word(Fat(g, disk, k), off, n)
  {
    var off, n := EntryOffset(g.bits, c), EntryBytes(g.bits);
    FatInside(g, k);
    ClusterInside(g, |disk|, 2);
    var fat := Fat(g, disk, k);
    EntryInTable(g, fat, c);
    assert off == off / SECTOR * SECTOR + off % SECTOR;
    hide EntryOffset, FatBase, Word;
    Window(disk, at, 2 * SECTOR, off % SECTOR, n);
    Window(disk, FatBase(g, k), g.fatSectors * SECTOR, off, n);
    SameWord(buffer, off % SECTOR, fat, off, n);
  }

  lemma Window(s: seq<Byte>, at: int, size: int, within: int, n: int)
    requires 0 <= at && 0 <= within && 0 <= n && within + n <= size && at + size <= |s|
    ensures s[at..at + size][within..within + n] == s[at + within..at + within + n]
  {
    var a, b := s[at..at + size][within..within + n], s[at + within..at + within + n];
    forall i | 0 <= i < n ensures a[i] == b[i] {
      assert a[i] == s[at..at + size][within + i] == s[at + within + i];
    }
  }

  lemma SpliceTwice(s: seq<Byte>, at: int, n: int, within: int, t: seq<Byte>)
    requires 0 <= at && 0 <= within && within + |t| <= n && at + n <= |s|
    ensures Splice(s, at, Splice(s[at..at + n], within, t)) == Splice(s, at + within, t)
  {
  }

  // The two sectors an entry is read from lie on the device.
  lemma SectorsInside(g: Geometry, size: int, k: int, c: int)
    requires Holds(g, size) && 0 <= k < g.fatCount && 0 <= c < g.clusterCount + 2
    ensures var off := EntryOffset(g.bits, c);
            && 0 <= off && off % SECTOR + EntryBytes(g.bits) <= 2 * SECTOR
            && 0 <= FatBase(g, k) + off / SECTOR * SECTOR && FatBase(g, k) + off / SECTOR * SECTOR + 2 * SECTOR <= size
  {
    FatInside(g, k);
    ClusterInside(g, size, 2);
    var off := EntryOffset(g.bits, c);
    assert off < g.fatSectors * SECTOR;
    assert off / SECTOR < g.fatSectors;
  }

  class FatDisk {
    const g: Geometry
    var disk: seq<Byte>
    ghost var table: seq<int>
    ghost var data: seq<seq<Byte>>
    ghost var root: seq<Byte>

    ghost predicate Valid()
      reads this
    {
      Shows(g, disk, table) && Contains(g, disk, data) && Rooted(g, disk, root)
    }

    constructor (geometry: Geometry, contents: seq<Byte>)
      requires Holds(geometry, |contents|)
      ensures Valid() && g == geometry && disk == contents
    {
      g := geometry;
      disk := contents;
      ghost var n := geometry.clusterCount + 2;
      TablesInside(geometry, contents);
      table := seq(n, c requires 0 <= c < n => TableEntry(geometry, contents, c));
      root := RootBytes(geometry, contents);
      data := seq(n, c requires 0 <= c < n => if c < 2 then [] else Data(geometry, contents, c));
    }

    method ReadSectors(sector: int, count: int) returns (bytes: seq<Byte>)
      requires 0 <= sector && 0 <= count && (sector + count) * SECTOR <= |disk|
      ensures bytes == disk[sector * SECTOR..sector * SECTOR + count * SECTOR]
    {
      bytes := disk[sector * SECTOR..sector * SECTOR + count * SECTOR];
    }

    method WriteSectors(sector: int, bytes: seq<Byte>)
      requires 0 <= sector && sector * SECTOR + |bytes| <= |disk|
      modifies this`disk
      ensures disk == Splice(old(disk), sector * SECTOR, bytes)
    {
      disk := disk[..sector * SECTOR] + bytes + disk[sector * SECTOR + |bytes|..];
    }

    // The little-endian word a loop over the buffer assembles.
    static method Assemble(buffer: seq<Byte>, at: int, n: nat) returns (w: int)
      requires 0 <= at && at + n <= |buffer|
      ensures w == Word(buffer, at, n)
    {
      w := 0;
      for i := 0 to n
        invariant w == Word(buffer, at, i)
      {
        w := w + buffer[at + i] * Power(i);
      }
    }

    static method Scatter(buffer: seq<Byte>, at: int, w: int, n: nat) returns (r: seq<Byte>)
      requires 0 <= at && at + n <= |buffer|
      ensures r == Splice(buffer, at, Bytes(w, n))
    {
      r := buffer;
      for i := 0 to n
        invariant r == Splice(buffer, at, Bytes(w, i))
      {
        BytesMore(w, i);
        r := r[at + i := w / Power(i) % 256];
      }
    }

    method EntryRead(c: int) returns (value: int)
      requires Valid() && 0 <= c < |table|
      ensures value == table[c] == EntryValue(g.bits, disk, g.fatStart * 512, c)
    {
      hide Word, Contains, Rooted, FatBase, Holds, EntryValue, Entry;
      EntryShown(g, disk, table, c);
      var offset := EntryOffset(g.bits, c);
      var n := EntryBytes(g.bits);
      var index, within := offset / SECTOR, offset % SECTOR;
      var buffer := ReadSectors(g.fatStart + index, 2);
      value := Assemble(buffer, within, n);
      if g.bits == 12 {
        value := if c % 2 == 1 then value / 16 else value % 0x1000;
      } else if g.bits == 32 {
        value := value % 0x1000_0000;
      }
    }

    // The entry's bytes in a buffer that holds it at `within`.
    static method Replace(bits: int, buffer: seq<Byte>, within: int, c: int, value: int) returns (sector: seq<Byte>)
      requires Width(bits) && 0 <= within && within + EntryBytes(bits) <= |buffer| && 0 <= c && 0 <= value
      ensures var n := EntryBytes(bits); sector == Splice(buffer, within, Bytes(Pack(bits, c, Word(buffer, within, n), value), n))
    {
      hide Bytes, Word, Power;
      sector := buffer;
      if bits == 12 {
        Word2(sector, within);
        var packed := sector[within] as int + 256 * (sector[within + 1] as int);
        if c % 2 == 1 {
          packed := packed % 16 + (value * 16) % 0x1_0000;
        } else {
          packed := (packed / 0x1000) * 0x1000 + value % 0x1000;
        }
        ByteStrings(packed);
        sector := sector[within := packed % 256][within + 1 := packed / 256 % 256];
      } else if bits == 16 {
        ByteStrings(value % 0x1_0000);
        LowBytes(value);
        sector := sector[within := value % 256][within + 1 := value / 256 % 256];
      } else {
        var existing := Assemble(sector, within, 4);
        var merged := (existing / 0x1000_0000) * 0x1000_0000 + value % 0x1000_0000;
        sector := Scatter(sector, within, merged, 4);
      }
    }

    // One copy of the table.
    method WriteCopy(c: int, value: int, copy: int)
      requires Holds(g, |disk|) && 0 <= copy < g.fatCount && 0 <= c < g.clusterCount + 2 && 0 <= value
      modifies this`disk
      ensures disk == StoredDisk(g, old(disk), copy, c, value)
    {
      hide StoredDisk, Word, Bytes, Pack, Splice, EntryOffset;
      SectorsInside(g, |disk|, copy, c);
      var offset := EntryOffset(g.bits, c);
      var index, within := offset / SECTOR, offset % SECTOR;
      var base := g.fatStart + copy * g.fatSectors;
      var buffer := ReadSectors(base + index, 2);
      SectorsStore(g, disk, copy, c, value, (base + index) * SECTOR, buffer);
      var sector := Replace(g.bits, buffer, within, c, value);
      WriteSectors(base + index, sector);
    }

    // Every copy of the table gets the entry; nothing else on the device changes.
    method EntryWrite(c: int, value: int)
      requires Valid() && 0 <= c < |table| && 0 <= value
      modifies this`disk, this`table
      ensures Valid() && table == old(table)[c := value % Limit(g.bits)] && |disk| == |old(disk)|
      ensures forall k :: 0 <= k < g.fatCount ==> Copied(g, old(disk), disk, k, c, value)
      ensures forall k :: 0 <= k < g.fatCount ==> Rewritten(g, old(disk), disk, k, c, value)
      ensures OnlyFats(g, old(disk), disk)
    {
      hide StoredDisk, Fat, Shows, Contains, Rooted, Copied, OnlyFats, Rewritten;
      ghost var was := disk;
      ShowsHolds(g, disk, table);
      SameOutside(g, disk);
      for copy := 0 to g.fatCount
        invariant |disk| == |was| && Contains(g, disk, data) && Rooted(g, disk, root) && table == old(table) && OnlyFats(g, was, disk)
        invariant forall k :: 0 <= k < copy ==> Copied(g, was, disk, k, c, value)
        invariant forall k :: copy <= k < g.fatCount ==> Fat(g, disk, k) == Fat(g, was, k)
      {
        ghost var before := disk;
        WriteCopy(c, value, copy);
        StoredData(g, before, copy, c, value, data);
        StoredRoot(g, before, copy, c, value, root);
        CopyStep(g, was, before, disk, copy, c, value);
      }
      TableStored(g, was, disk, table, c, value);
      forall k | 0 <= k < g.fatCount ensures Rewritten(g, was, disk, k, c, value) {
        CopyRewritten(g, was, disk, k, c, value);
      }
      table := table[c := value % Limit(g.bits)];
    }

    method ReadSector(c: int, k: int) returns (bytes: seq<Byte>)
      requires Valid() && IsCluster(g, c) && 0 <= k < g.sectorsPerCluster
      ensures |data| == g.clusterCount + 2 && |data[c]| == ClusterBytes(g) && bytes == data[c][k * SECTOR..k * SECTOR + SECTOR]
      ensures var at := (g.dataStart + (c - 2) * g.sectorsPerCluster + k) * 512;
              0 <= at && at + 512 <= |disk| && bytes == disk[at..at + 512]
    {
      ClusterInside(g, |disk|, c);
      bytes := ReadSectors(g.dataStart + (c - 2) * g.sectorsPerCluster + k, 1);
    }

    method WriteSector(c: int, k: int, bytes: seq<Byte>)
      requires Valid() && IsCluster(g, c) && 0 <= k < g.sectorsPerCluster && |bytes| == SECTOR
      modifies this`disk, this`data
      ensures Valid() && |disk| == |old(disk)| && |old(data)[c]| == ClusterBytes(g) && data == old(data)[c := Splice(old(data)[c], k * SECTOR, bytes)]
      ensures var at := (g.dataStart + (c - 2) * g.sectorsPerCluster + k) * 512;
              0 <= at && at + 512 <= |disk| && disk == old(disk)[..at] + bytes + old(disk)[at + 512..]
    {
      hide Shows, Contains, Rooted, Holds;
      SectorWritten(g, disk, table, data, c, k, bytes);
      SectorAboveRoot(g, disk, root, c, k, bytes);
      WriteSectors(g.dataStart + (c - 2) * g.sectorsPerCluster + k, bytes);
      data := data[c := Splice(data[c], k * SECTOR, bytes)];
    }

    // A sector of the fixed root directory.
    method ReadRoot(k: int) returns (bytes: seq<Byte>)
      requires Valid() && 0 <= k < g.rootSectors
      ensures |root| == g.rootSectors * SECTOR && bytes == root[k * SECTOR..k * SECTOR + SECTOR]
      ensures var at := (g.rootStart + k) * 512; at + 512 <= |disk| && bytes == disk[at..at + 512]
    {
      ClusterInside(g, |disk|, 2);
      Window(disk, g.rootStart * SECTOR, g.rootSectors * SECTOR, k * SECTOR, SECTOR);
      bytes := ReadSectors(g.rootStart + k, 1);
    }

    method WriteRoot(k: int, bytes: seq<Byte>)
      requires Valid() && 0 <= k < g.rootSectors && |bytes| == SECTOR
      modifies this`disk, this`root
      ensures Valid() && |disk| == |old(disk)| && |old(root)| == g.rootSectors * SECTOR && root == Splice(old(root), k * SECTOR, bytes)
      ensures var at := (g.rootStart + k) * 512; at + 512 <= |disk| && disk == old(disk)[..at] + bytes + old(disk)[at + 512..]
    {
      hide Shows, Contains;
      ClusterInside(g, |disk|, 2);
      RootWritten(g, disk, table, data, root, k, bytes);
      WriteSectors(g.rootStart + k, bytes);
      root := Splice(root, k * SECTOR, bytes);
    }
  }

  ghost predicate Copied(g: Geometry, was: seq<Byte>, disk: seq<Byte>, k: int, c: int, value: int)
    requires Holds(g, |was|) && Holds(g, |disk|) && 0 <= k < g.fatCount && 0 <= c < g.clusterCount + 2
  {
    Fat(g, disk, k) == Stored(g.bits, Fat(g, was, k), c, value)
  }

  // Bytes before and after the tables are the same.
  ghost predicate OnlyFats(g: Geometry, was: seq<Byte>, disk: seq<Byte>) {
    |disk| == |was| && forall i :: 0 <= i < |disk| && (i < FatBase(g, 0) || i >= FatBase(g, g.fatCount)) ==> disk[i] == was[i]
  }

  lemma SameOutside(g: Geometry, disk: seq<Byte>)
    ensures OnlyFats(g, disk, disk)
  {
  }

  lemma StoredOutside(g: Geometry, was: seq<Byte>, before: seq<Byte>, k: int, c: int, value: int)
    requires Holds(g, |before|) && 0 <= k < g.fatCount && 0 <= c < g.clusterCount + 2 && OnlyFats(g, was, before)
    ensures OnlyFats(g, was, StoredDisk(g, before, k, c, value))
  {
    FatInside(g, k);
    ClusterInside(g, |before|, 2);
    ProductOrder(0, k, g.fatSectors);
    ProductOrder(k, g.fatCount, g.fatSectors);
    hide Stored;
  }

  lemma CopyStep(g: Geometry, was: seq<Byte>, before: seq<Byte>, disk: seq<Byte>, copy: int, c: int, value: int)
    requires Holds(g, |was|) && |before| == |was| && 0 <= copy < g.fatCount && 0 <= c < g.clusterCount + 2
    requires disk == StoredDisk(g, before, copy, c, value)
    requires forall k :: 0 <= k < copy ==> Copied(g, was, before, k, c, value)
    requires forall k :: copy <= k < g.fatCount ==> Fat(g, before, k) == Fat(g, was, k)
    requires OnlyFats(g, was, before)
    ensures |disk| == |was| && OnlyFats(g, was, disk)
    ensures forall k :: 0 <= k <= copy ==> Copied(g, was, disk, k, c, value)
    ensures forall k :: copy < k < g.fatCount ==> Fat(g, disk, k) == Fat(g, was, k)
  {
    StoredOutside(g, was, before, copy, c, value);
    hide StoredDisk, Fat, Stored;
    forall k | 0 <= k < g.fatCount
      ensures k <= copy ==> Copied(g, was, disk, k, c, value)
      ensures k > copy ==> Fat(g, disk, k) == Fat(g, was, k)
    {
      StoredFats(g, before, copy, c, value, k);
      assert k < copy ==> Copied(g, was, before, k, c, value);
    }
  }

  lemma ShowsHolds(g: Geometry, disk: seq<Byte>, table: seq<int>)
    requires Shows(g, disk, table)
    ensures Holds(g, |disk|) && |table| == g.clusterCount + 2
  {
  }

  // The layout of an entry in a copy of the table, in bytes of the device.
  lemma FatLayout(g: Geometry, disk: seq<Byte>, k: int, c: int)
    requires Holds(g, |disk|) && 0 <= k < g.fatCount && 0 <= c < g.clusterCount + 2
    ensures InTable(g.bits, Fat(g, disk, k), c)
    ensures Entry(g.bits, Fat(g, disk, k), c) == EntryValue(g.bits, disk, (g.fatStart + k * g.fatSectors) * 512, c)
  {
    var s, base := Fat(g, disk, k), (g.fatStart + k * g.fatSectors) * 512;
    EntryInTable(g, s, c);
    hide Entry;
    EntryLayout(g.bits, s, c);
    FatInside(g, k);
    ClusterInside(g, |disk|, 2);
    assert forall i :: 0 <= i < |s| ==> s[i] == disk[base + i];
    SameLayout(g.bits, s, disk, base, c);
  }

  lemma SameLayout(bits: int, s: seq<Byte>, disk: seq<Byte>, base: int, c: int)
    requires InTable(bits, s, c) && 0 <= base && base + |s| <= |disk| && forall i :: 0 <= i < |s| ==> s[i] == disk[base + i]
    ensures EntryValue(bits, s, 0, c) == EntryValue(bits, disk, base, c)
  {
    assert forall i :: 0 <= i < |s| ==> At(s, i) == At(disk, base + i);
  }

  // Copy k of the table holds the value, cut to the entry's width, and its other
  // entries as they were.
  ghost predicate Rewritten(g: Geometry, was: seq<Byte>, disk: seq<Byte>, k: int, c: int, value: int) {
    var base := (g.fatStart + k * g.fatSectors) * 512;
    forall d :: 0 <= d < g.clusterCount + 2 ==>
      EntryValue(g.bits, disk, base, d) ==
      if d == c then value % (if g.bits == 12 then 0x1000 else if g.bits == 16 then 0x1_0000 else 0x1000_0000)
      else EntryValue(g.bits, was, base, d)
  }

  lemma CopyRewritten(g: Geometry, was: seq<Byte>, disk: seq<Byte>, k: int, c: int, value: int)
    requires Holds(g, |was|) && Holds(g, |disk|) && 0 <= k < g.fatCount && 0 <= c < g.clusterCount + 2 && 0 <= value
    requires Copied(g, was, disk, k, c, value)
    ensures Rewritten(g, was, disk, k, c, value)
  {
    hide Stored, Entry, EntryValue, Fat;
    var base := (g.fatStart + k * g.fatSectors) * 512;
    forall d | 0 <= d < g.clusterCount + 2
      ensures EntryValue(g.bits, disk, base, d) == if d == c then value % Limit(g.bits) else EntryValue(g.bits, was, base, d)
    {
      FatLayout(g, was, k, d);
      FatLayout(g, disk, k, d);
      FatLayout(g, was, k, c);
      StoredReads(g.bits, Fat(g, was, k), c, value, d);
    }
  }

  // Reading an entry through the two-sector buffer.
  lemma EntryShown(g: Geometry, disk: seq<Byte>, table: seq<int>, c: int)
    requires Shows(g, disk, table) && 0 <= c < |table|
    ensures Width(g.bits) && g.fatStart > 0 && g.fatCount > 0 && 0 <= EntryOffset(g.bits, c)
    ensures var off := EntryOffset(g.bits, c);
            var at, n := (g.fatStart + off / SECTOR) * SECTOR, EntryBytes(g.bits);
            && 0 <= off && off % SECTOR + n <= 2 * SECTOR && at + 2 * SECTOR <= |disk|
            && table[c] == Unpack(g.bits, c, Word(disk[at..at + 2 * SECTOR], off % SECTOR, n))
    ensures table[c] == EntryValue(g.bits, disk, g.fatStart * 512, c)
  {
    FatLayout(g, disk, 0, c);
    SectorsInside(g, |disk|, 0, c);
    var at := (g.fatStart + EntryOffset(g.bits, c) / SECTOR) * SECTOR;
    hide Word, Holds, EntryValue;
    BufferWord(g, disk, 0, c, at, disk[at..at + 2 * SECTOR]);
  }

  lemma TableStored(g: Geometry, was: seq<Byte>, disk: seq<Byte>, table: seq<int>, c: int, value: int)
    requires Shows(g, was, table) && |disk| == |was| && 0 <= c < |table| && 0 <= value
    requires Copied(g, was, disk, 0, c, value)
    ensures Shows(g, disk, table[c := value % Limit(g.bits)])
  {
    hide Stored, Entry, Fat;
    forall d | 0 <= d < |table| ensures InTable(g.bits, Fat(g, disk, 0), d) && table[c := value % Limit(g.bits)][d] == Entry(g.bits, Fat(g, disk, 0), d) {
      EntryInTable(g, Fat(g, disk, 0), d);
      StoredReads(g.bits, Fat(g, was, 0), c, value, d);
    }
  }

  lemma LowBytes(value: int)
    requires value >= 0
    ensures value % 0x1_0000 % 256 == value % 256 && value % 0x1_0000 / 256 % 256 == value / 256 % 256
  {
    var a, b := value / 0x1_0000, value % 0x1_0000;
    Unique(value, 256, 256 * a + b / 256, b % 256);
    Unique(value / 256, 256, a, b / 256);
    Unique(b / 256, 256, 0, b / 256);
  }

  lemma SectorWritten(g: Geometry, disk: seq<Byte>, table: seq<int>, data: seq<seq<Byte>>, c: int, k: int, bytes: seq<Byte>)
    requires Shows(g, disk, table) && Contains(g, disk, data) && IsCluster(g, c) && 0 <= k < g.sectorsPerCluster && |bytes| == SECTOR
    ensures 0 <= ClusterBase(g, c) + k * SECTOR && ClusterBase(g, c) + k * SECTOR + SECTOR <= |disk|
    ensures |data| == g.clusterCount + 2 && |data[c]| == ClusterBytes(g)
    ensures var disk' := Splice(disk, ClusterBase(g, c) + k * SECTOR, bytes);
            Shows(g, disk', table) && Contains(g, disk', data[c := Splice(data[c], k * SECTOR, bytes)])
  {
    ClusterInside(g, |disk|, c);
    var disk' := Splice(disk, ClusterBase(g, c) + k * SECTOR, bytes);
    FatInside(g, 0);
    assert Fat(g, disk', 0) == Fat(g, disk, 0);
    var data' := data[c := Splice(data[c], k * SECTOR, bytes)];
    forall d | IsCluster(g, d) ensures data'[d] == Data(g, disk', d) {
      ClusterInside(g, |disk|, d);
      if d < c {
        ClusterApart(g, d, c);
      } else if c < d {
        ClusterApart(g, c, d);
      }
    }
  }

  lemma SectorAboveRoot(g: Geometry, disk: seq<Byte>, root: seq<Byte>, c: int, k: int, bytes: seq<Byte>)
    requires Rooted(g, disk, root) && IsCluster(g, c) && 0 <= k < g.sectorsPerCluster && |bytes| == SECTOR
    ensures 0 <= ClusterBase(g, c) + k * SECTOR && ClusterBase(g, c) + k * SECTOR + SECTOR <= |disk|
    ensures Rooted(g, Splice(disk, ClusterBase(g, c) + k * SECTOR, bytes), root)
  {
    ClusterInside(g, |disk|, c);
  }

  lemma RootWritten(g: Geometry, disk: seq<Byte>, table: seq<int>, data: seq<seq<Byte>>, root: seq<Byte>, k: int, bytes: seq<Byte>)
    requires Shows(g, disk, table) && Contains(g, disk, data) && Rooted(g, disk, root) && 0 <= k < g.rootSectors && |bytes| == SECTOR
    ensures (g.rootStart + k) * SECTOR + SECTOR <= |disk| && |root| == g.rootSectors * SECTOR
    ensures var disk' := Splice(disk, (g.rootStart + k) * SECTOR, bytes);
            Shows(g, disk', table) && Contains(g, disk', data) && Rooted(g, disk', Splice(root, k * SECTOR, bytes))
  {
    ClusterInside(g, |disk|, 2);
    FatInside(g, 0);
    FatBelowRoot(g, 0);
    var disk' := Splice(disk, (g.rootStart + k) * SECTOR, bytes);
    assert Fat(g, disk', 0) == Fat(g, disk, 0);
    forall d | IsCluster(g, d) ensures data[d] == Data(g, disk', d) {
      ClusterInside(g, |disk|, d);
    }
    assert RootBytes(g, disk') == Splice(root, k * SECTOR, bytes);
  }

  ghost function TableEntry(g: Geometry, disk: seq<Byte>, c: int): int
    requires Holds(g, |disk|) && 0 <= c < g.clusterCount + 2
  {
    EntryInTable(g, Fat(g, disk, 0), c);
    Entry(g.bits, Fat(g, disk, 0), c)
  }

  lemma TablesInside(g: Geometry, disk: seq<Byte>)
    requires Holds(g, |disk|)
    ensures forall c :: 0 <= c < g.clusterCount + 2 ==> InTable(g.bits, Fat(g, disk, 0), c)
  {
    forall c | 0 <= c < g.clusterCount + 2 ensures InTable(g.bits, Fat(g, disk, 0), c) {
      EntryInTable(g, Fat(g, disk, 0), c);
    }
  }
}
