/**
 Files on a FAT volume (kernel/fs/fatfs.c, `fat_allocate_cluster`, `cluster_at`,
 `fat_node_read`, `fat_node_write`, `release_chain`, `fat_node_truncate`,
 `directory_read`, `directory_write`, `fat_write_directory_entry`).

 `chains` says which clusters each file and each directory owns, and `homes` which
 directory the entry of a file is in.  Only files are written and truncated; a
 directory changes when the entry of a file in it is rewritten.
 */
module FatFiles {
  import opened FatTables
  import opened FatDisks
  import opened FatChains
  import opened FatEntries
  import opened LittleEndian
  import opened Lists

  const MAX_LENGTH: int := 0xFFFF_FFFF

  predicate IsEnd(bits: int, value: int) {
    if bits == 12 then value >= 0xFF8 else if bits == 16 then value >= 0xFFF8 else value >= 0xFFF_FFF8
  }

  function EndValue(bits: int): int {
    if bits == 32 then 0xFFF_FFFF else if bits == 16 then 0xFFFF else 0xFFF
  }

  // An end of chain has every bit above the low three set; the one written, all.
  lemma EndMarks(bits: int, value: int)
    requires Width(bits)
    requires 0 <= value < if bits == 12 then 0x1000 else if bits == 16 then 0x1_0000 else 0x1000_0000
    ensures IsEnd(bits, value) <==> value / 8 == if bits == 12 then 0x1FF else if bits == 16 then 0x1FFF else 0x1FF_FFFF
    ensures EndValue(bits) + 1 == if bits == 12 then 0x1000 else if bits == 16 then 0x1_0000 else 0x1000_0000
    ensures IsEnd(bits, value) <==> value >= EndMark(bits)
  {
  }

  ghost predicate Full(g: Geometry, table: seq<int>) {
    forall c :: IsCluster(g, c) && c < |table| ==> table[c] != 0
  }

  // What a write has done so far to contents that began as s.
  ghost predicate Written(s: seq<Byte>, t: seq<Byte>, offset: int, buffer: seq<Byte>, moved: int) {
    && |s| <= |t| && 0 <= offset && 0 <= moved <= |buffer| && (moved > 0 ==> offset + moved <= |t|)
    && (forall j :: 0 <= j < |s| && !(offset <= j < offset + moved) ==> t[j] == s[j])
    && (moved > 0 ==> t[offset..offset + moved] == buffer[..moved])
  }

  lemma WrittenGrow(s: seq<Byte>, t: seq<Byte>, more: seq<Byte>, offset: int, buffer: seq<Byte>, moved: int)
    requires Written(s, t, offset, buffer, moved) && 0 <= offset && t <= more
    ensures Written(s, more, offset, buffer, moved)
  {
    if moved > 0 {
      assert more[offset..offset + moved] == t[offset..offset + moved];
    }
  }

  lemma WrittenStep(s: seq<Byte>, t: seq<Byte>, offset: int, buffer: seq<Byte>, moved: int, chunk: int)
    requires Written(s, t, offset, buffer, moved) && 0 <= offset && 0 < chunk <= |buffer| - moved && offset + moved + chunk <= |t|
    ensures Written(s, Splice(t, offset + moved, buffer[moved..moved + chunk]), offset, buffer, moved + chunk)
  {
    var u := Splice(t, offset + moved, buffer[moved..moved + chunk]);
    forall i | 0 <= i < moved + chunk ensures u[offset + i] == buffer[i] {
      if i < moved {
        assert t[offset..offset + moved][i] == buffer[..moved][i];
      }
    }
    assert u[offset..offset + moved + chunk] == buffer[..moved + chunk];
  }

  // ---------------------------------------------------------------------------
  // Offsets
  // ---------------------------------------------------------------------------

  // An offset is a cluster and a place in it; a place is a sector and a byte in it.
  lemma Place(g: Geometry, offset: int)
    requires Sound(g) && 0 <= offset
    ensures var cb := ClusterBytes(g);
            && cb > 0 && 0 <= offset / cb && 0 <= offset % cb < cb && offset == offset / cb * cb + offset % cb
            && 0 <= offset % cb / SECTOR < g.sectorsPerCluster
            && offset % cb == offset % cb / SECTOR * SECTOR + offset % cb % SECTOR
            && offset % cb / SECTOR * SECTOR + SECTOR <= cb
  {
    var cb := ClusterBytes(g);
    var w := offset % cb;
    assert w < g.sectorsPerCluster * SECTOR;
  }

  lemma Ceiling(length: int, cb: int)
    requires length > 0 && cb > 0
    ensures (length - 1) / cb + 1 == (length + cb - 1) / cb
  {
    Unique(length + cb - 1, cb, (length - 1) / cb + 1, (length - 1) % cb);
  }

  // The n-th cluster of a chain, or none.
  ghost function Nth(ch: Chain, n: int): int {
    if 0 <= n < |ch| then ch[n] else 0
  }

  class FatFs {
    const dev: FatDisk
    var files: map<int, File>
    ghost var chains: map<int, Chain>
    ghost var homes: map<int, int>

    ghost predicate Valid()
      reads this, dev
    {
      dev.Valid() && Catalog(dev.g, dev.table, files, chains) && Homed(dev.g, files, chains, homes)
    }

    // What the clusters of a file hold, to the end of the last one.
    ghost function Bytes(f: int): seq<Byte>
      requires Valid() && f in files
      reads this, dev
    {
      DeviceUniform(dev.g, dev.disk, dev.data);
      CatalogClusters(dev.g, dev.table, files, chains, f);
      Contents(dev.g, dev.data, chains[f])
    }

    // What a directory holds, the fixed root directory included.
    ghost function Holder(d: int): seq<Byte>
      requires Valid() && (d == ROOT || d in files)
      reads this, dev
    {
      if d == ROOT then dev.root else Bytes(d)
    }

    // The directory entry of a file.
    ghost function Slot(f: int): (s: seq<Byte>)
      requires Valid() && f in files && !files[f].directory
      reads this, dev
      ensures |s| == ENTRY
    {
      HomeOf(dev.g, files, chains, homes, f);
      HomeInside(dev.g, dev.table, dev.disk, dev.data, dev.root, files, chains, homes, f);
      Holder(homes[f])[files[f].entryOffset..files[f].entryOffset + ENTRY]
    }

    constructor (device: FatDisk, catalog: map<int, File>, ghost owned: map<int, Chain>, ghost entries: map<int, int>)
      requires device.Valid() && Catalog(device.g, device.table, catalog, owned) && Homed(device.g, catalog, owned, entries)
      ensures Valid() && dev == device && files == catalog && chains == owned && homes == entries
    {
      dev := device;
      files := catalog;
      chains := owned;
      homes := entries;
    }

    // The lowest free cluster, marked as the end of a chain.
    method AllocateCluster() returns (c: int)
      requires dev.Valid()
      modifies dev`disk, dev`table
      ensures dev.Valid() && dev.data == old(dev.data)
      ensures c == 0 ==> Full(dev.g, dev.table) && dev.table == old(dev.table)
      ensures c != 0 ==>
                && IsCluster(dev.g, c) && |old(dev.table)| == dev.g.clusterCount + 2 && old(dev.table)[c] == 0
                && dev.table == old(dev.table)[c := EndValue(dev.g.bits)]
                && forall d :: 2 <= d < c ==> old(dev.table)[d] != 0
    {
      hide Shows, Contains, Rooted, Homed;
      DeviceSizes(dev.g, dev.disk, dev.table);
      c := 2;
      while c < dev.g.clusterCount + 2
        invariant 2 <= c <= dev.g.clusterCount + 2 && dev.Valid()
        invariant dev.table == old(dev.table) && forall d :: 2 <= d < c ==> dev.table[d] != 0
      {
        var value := dev.EntryRead(c);
        if value == 0 {
          dev.EntryWrite(c, EndValue(dev.g.bits));
          return;
        }
        c := c + 1;
      }
      return 0;
    }

    // Walking a chain without growing it.
    method ClusterAt(first: int, offset: int, ghost f: int) returns (c: int)
      requires Valid() && f in files && first == files[f].first && 0 <= offset
      ensures f in chains && ClusterBytes(dev.g) > 0 && c == Nth(chains[f], offset / ClusterBytes(dev.g))
    {
      hide Shows, Contains, Rooted, Homed, Catalog, Threaded, NoRepeats;
      CatalogAt(dev.g, dev.table, files, chains, f);
      Place(dev.g, offset);
      ghost var ch := chains[f];
      if first < 2 {
        FirstLink(dev.g, dev.table, ch);
        return 0;
      }
      c := first;
      var steps := offset / (dev.g.sectorsPerCluster * SECTOR);
      ghost var i := 0;
      while steps > 0
        invariant 0 <= i < |ch| && c == ch[i] && 0 <= steps && i + steps == offset / ClusterBytes(dev.g)
      {
        LinkStep(dev.g, dev.table, ch, i);
        steps := steps - 1;
        var next := dev.EntryRead(c);
        if i + 1 < |ch| {
          LinkStep(dev.g, dev.table, ch, i + 1);
        }
        if IsEnd(dev.g.bits, next) {
          return 0;
        }
        c := next;
        i := i + 1;
      }
    }

    // One more cluster at the end of a chain.
    method Append(f: int, last: int) returns (next: int)
      requires Valid() && f in files && !files[f].directory && f in chains && chains[f] != [] && last == chains[f][|chains[f]| - 1]
      modifies dev`disk, dev`table, this`chains
      ensures Valid() && dev.data == old(dev.data)
      ensures next == 0 ==> Full(dev.g, dev.table) && chains == old(chains)
      ensures next != 0 ==> next >= 2 && chains == old(chains)[f := old(chains)[f] + [next]]
    {
      hide Shows, Contains, Rooted, Homed, Catalog, Threaded, NoRepeats;
      DeviceSizes(dev.g, dev.disk, dev.table);
      next := AllocateCluster();
      if next == 0 {
        return;
      }
      Extend(dev.g, old(dev.table), files, chains, f, next, EndValue(dev.g.bits));
      HomedChange(dev.g, files, chains, homes, f, files[f], chains[f] + [next]);
      assert files[f := files[f]] == files;
      Unique(next, Limit(dev.g.bits), 0, next);
      dev.EntryWrite(last, next);
      chains := chains[f := chains[f] + [next]];
    }

    // Walking a chain and growing it where it ends.
    method ClusterAtGrowing(f: int, offset: int) returns (c: int)
      requires Valid() && f in files && !files[f].directory && 0 <= offset
      modifies dev`disk, dev`table, this`chains
      ensures Valid() && dev.data == old(dev.data) && f in chains && f in old(chains)
      ensures chains == old(chains)[f := chains[f]] && old(chains)[f] <= chains[f]
      ensures c == 0 ==> Full(dev.g, dev.table) || chains[f] == []
      ensures c != 0 ==>
                && ClusterBytes(dev.g) > 0 && var n := offset / ClusterBytes(dev.g);
                && 0 <= n < |chains[f]| && c == chains[f][n]
                && |chains[f]| == if n < |old(chains)[f]| then |old(chains)[f]| else n + 1
    {
      hide Shows, Contains, Rooted, Homed, Catalog, Threaded, NoRepeats;
      CatalogAt(dev.g, dev.table, files, chains, f);
      Place(dev.g, offset);
      assert chains == chains[f := chains[f]];
      ghost var ch := chains[f];
      var first := files[f].first;
      if first < 2 {
        FirstLink(dev.g, dev.table, ch);
        return 0;
      }
      c := first;
      var steps := offset / (dev.g.sectorsPerCluster * SECTOR);
      ghost var i := 0;
      while steps > 0
        invariant Valid() && dev.data == old(dev.data) && f in chains && chains == old(chains)[f := chains[f]]
        invariant old(chains)[f] <= chains[f] && 0 <= i < |chains[f]| && c == chains[f][i]
        invariant 0 <= steps && i + steps == offset / ClusterBytes(dev.g) && c >= 2
        invariant |chains[f]| == if i < |old(chains)[f]| then |old(chains)[f]| else i + 1
      {
        CatalogAt(dev.g, dev.table, files, chains, f);
        LinkStep(dev.g, dev.table, chains[f], i);
        steps := steps - 1;
        var next := dev.EntryRead(c);
        if i + 1 < |chains[f]| {
          LinkStep(dev.g, dev.table, chains[f], i + 1);
        }
        if IsEnd(dev.g.bits, next) {
          next := Append(f, c);
          if next == 0 {
            return 0;
          }
        }
        c := next;
        i := i + 1;
      }
    }

    // One sector's worth of a write.
    method WriteChunk(c: int, offset: int, bytes: seq<Byte>, staging: seq<Byte>, ghost f: int) returns (left: seq<Byte>)
      requires Valid() && f in files && 0 <= offset && ClusterBytes(dev.g) > 0 && f in chains
      requires var n := offset / ClusterBytes(dev.g); 0 <= n < |chains[f]| && c == chains[f][n]
      requires 0 < |bytes| <= SECTOR - offset % ClusterBytes(dev.g) % SECTOR && |staging| == SECTOR
      modifies dev`disk, dev`data
      ensures Valid() && |left| == SECTOR
      ensures offset + |bytes| <= |old(Bytes(f))| && Bytes(f) == Splice(old(Bytes(f)), offset, bytes)
      ensures forall h :: h in files && h != f ==> Bytes(h) == old(Bytes(h))
    {
      hide Shows, Contains, Rooted, Homed, Catalog, Splice, Contents, Uniform;
      DeviceSizes(dev.g, dev.disk, dev.table);
      Place(dev.g, offset);
      DeviceUniform(dev.g, dev.disk, dev.data);
      CatalogClusters(dev.g, dev.table, files, chains, f);
      var within := offset % (dev.g.sectorsPerCluster * SECTOR);
      var sector, at := within / SECTOR, within % SECTOR;
      left := staging;
      if |bytes| != SECTOR {
        left := dev.ReadSector(c, sector);
      }
      ghost var before := dev.data[c];
      ChunkSpliced(dev.g, before, left, sector, at, bytes);
      left := left[..at] + bytes + left[at + |bytes|..];
      ChunkWritten(dev.g, dev.table, dev.data, files, chains, f, offset, bytes);
      ghost var data' := dev.data[c := Splice(before, within, bytes)];
      dev.WriteSector(c, sector, left);
      assert dev.data == data';
    }

    // The first cluster of a file that has none.
    method Start(f: int) returns (c: int)
      requires Valid() && f in files && !files[f].directory && files[f].first < 2
      modifies dev`disk, dev`table, this`chains, this`files
      ensures Valid() && dev.data == old(dev.data)
      ensures c == 0 ==> Full(dev.g, dev.table) && chains == old(chains) && files == old(files)
      ensures c != 0 ==> chains == old(chains)[f := [c]] && files == old(files)[f := old(files)[f].(first := c)]
      ensures f in old(chains) && old(chains)[f] == []
    {
      hide Shows, Contains, Rooted, Homed, Catalog, Threaded, NoRepeats;
      CatalogAt(dev.g, dev.table, files, chains, f);
      FirstLink(dev.g, dev.table, chains[f]);
      c := AllocateCluster();
      if c == 0 {
        return;
      }
      Begin(dev.g, old(dev.table), files, chains, f, c, EndValue(dev.g.bits));
      HomedChange(dev.g, files, chains, homes, f, files[f].(first := c), [c]);
      files := files[f := files[f].(first := c)];
      chains := chains[f := [c]];
    }

    // One turn of the write loop: the chain reaches the offset, then a sector is written.
    method WriteTurn(f: int, offset: int, buffer: seq<Byte>, moved: int, staging: seq<Byte>, ghost start: seq<Byte>)
      returns (more: int, left: seq<Byte>)
      requires Valid() && f in files && !files[f].directory && 0 <= offset && 0 <= moved < |buffer| && |staging| == SECTOR
      requires Written(start, Bytes(f), offset, buffer, moved)
      modifies dev`disk, dev`table, dev`data, this`chains
      ensures Valid() && |left| == SECTOR && moved <= more <= |buffer|
      ensures Written(start, Bytes(f), offset, buffer, more)
      ensures more == moved ==> Full(dev.g, dev.table) || (f in chains && chains[f] == [])
      ensures f in old(chains) && f in chains && old(chains)[f] <= chains[f] && chains == old(chains)[f := chains[f]]
      ensures forall h :: h in files && h != f ==> Bytes(h) == old(Bytes(h))
    {
      hide Shows, Contains, Rooted, Homed, Catalog, Written, Contents, Splice, ClusterBytes;
      more, left := moved, staging;
      DeviceSizes(dev.g, dev.disk, dev.table);
      Place(dev.g, offset + moved);
      ghost var was := chains;
      label before:
      var c := ClusterAtGrowing(f, offset + moved);
      GrownBytes(dev.g, dev.disk, old(dev.table), dev.table, dev.data, files, was, chains, f);
      WrittenGrow(start, old(Bytes(f)), Bytes(f), offset, buffer, moved);
      if c == 0 {
        return;
      }
      var chunk := SECTOR - (offset + moved) % ClusterBytes(dev.g) % SECTOR;
      if chunk > |buffer| - moved {
        chunk := |buffer| - moved;
      }
      ghost var grown := Bytes(f);
      left := WriteChunk(c, offset + moved, buffer[moved..moved + chunk], staging, f);
      WrittenStep(start, grown, offset, buffer, moved, chunk);
      more := moved + chunk;
    }

    // directory_read: a sector of a directory, or -1 past its end.
    method DirectoryRead(cluster: int, offset: int, ghost d: int) returns (code: int, sector: seq<Byte>)
      requires Valid() && Names(files, cluster, d) && 0 <= offset && offset % SECTOR == 0
      ensures code == if offset + SECTOR <= |Holder(d)| then 0 else -1
      ensures code == 0 ==> sector == Holder(d)[offset..offset + SECTOR]
    {
      hide Shows, Contains, Catalog, Homed, Contents, ClusterBytes;
      DeviceSizes(dev.g, dev.disk, dev.table);
      if cluster == 0 {
        if offset / SECTOR >= dev.g.rootSectors {
          return -1, [];
        }
        sector := dev.ReadRoot(offset / SECTOR);
        return 0, sector;
      }
      SectorInside(dev.g, dev.table, dev.disk, dev.data, files, chains, d, offset);
      var at := ClusterAt(cluster, offset, d);
      if at == 0 {
        return -1, [];
      }
      var within := offset % ClusterBytes(dev.g);
      sector := dev.ReadSector(at, within / SECTOR);
      code := 0;
    }

    // directory_write
    method DirectoryWrite(cluster: int, offset: int, sector: seq<Byte>, ghost d: int) returns (code: int)
      requires Valid() && Names(files, cluster, d) && 0 <= offset && offset % SECTOR == 0 && |sector| == SECTOR
      modifies dev`disk, dev`data, dev`root
      ensures Valid() && code == if offset + SECTOR <= |old(Holder(d))| then 0 else -1
      ensures code == 0 ==> Holder(d) == Splice(old(Holder(d)), offset, sector)
      ensures code != 0 ==> Holder(d) == old(Holder(d))
      ensures forall h :: (h == ROOT || h in files) && h != d ==> Holder(h) == old(Holder(h))
    {
      hide Shows, Contains, Catalog, Homed, Contents, ClusterBytes;
      DeviceSizes(dev.g, dev.disk, dev.table);
      if cluster == 0 {
        if offset / SECTOR >= dev.g.rootSectors {
          return -1;
        }
        dev.WriteRoot(offset / SECTOR, sector);
        return 0;
      }
      SectorInside(dev.g, dev.table, dev.disk, dev.data, files, chains, d, offset);
      var at := ClusterAt(cluster, offset, d);
      if at == 0 {
        return -1;
      }
      var left := WriteChunk(at, offset, sector, sector, d);
      code := 0;
    }

    // Read, change and write back the sector with an entry.
    method StoreAt(cluster: int, entryOffset: int, size: int, first: int, ghost d: int) returns (code: int)
      requires Valid() && Names(files, cluster, d) && 0 <= entryOffset && entryOffset % SECTOR + ENTRY <= SECTOR
      requires entryOffset - entryOffset % SECTOR + SECTOR <= |Holder(d)|
      modifies dev`disk, dev`data, dev`root
      ensures Valid() && code == 0
      ensures Holder(d) == EntryStored(old(Holder(d)), entryOffset, size, first)
      ensures forall h :: (h == ROOT || h in files) && h != d ==> Holder(h) == old(Holder(h))
    {
      hide Shows, Contains, Catalog, Homed, Rooted, Contents, EntryStored, Splice, ClusterBytes;
      ghost var s := Holder(d);
      SectorOf(entryOffset);
      var within := entryOffset % SECTOR;
      var base := entryOffset - within;
      var sector;
      code, sector := DirectoryRead(cluster, base, d);
      EntryInSector(s, base, within, size, first);
      sector := StoreEntry(sector, within, size, first);
      code := DirectoryWrite(cluster, base, sector, d);
    }

    method StoreInDirectory(f: int, size: int, first: int) returns (code: int)
      requires Valid() && f in files && !files[f].directory
      modifies dev`disk, dev`data, dev`root
      ensures Valid() && code == 0 && f in homes && (homes[f] == ROOT || homes[f] in files) && homes[f] != f
      ensures 0 <= files[f].entryOffset && files[f].entryOffset + ENTRY <= |old(Holder(homes[f]))|
      ensures Holder(homes[f]) == EntryStored(old(Holder(homes[f])), files[f].entryOffset, size, first)
      ensures forall h :: (h == ROOT || h in files) && h != homes[f] ==> Holder(h) == old(Holder(h))
    {
      hide Shows, Contains, Catalog, Homed, HomeAt, Names, ClusterBytes, Rooted, Contents, EntryStored, Splice;
      HomeOf(dev.g, files, chains, homes, f);
      HomeInside(dev.g, dev.table, dev.disk, dev.data, dev.root, files, chains, homes, f);
      code := StoreAt(files[f].entryCluster, files[f].entryOffset, size, first, homes[f]);
    }

    // fat_write_directory_entry: eight bytes of the file's entry, and nothing else.
    method WriteDirectoryEntry(f: int, size: int, first: int) returns (code: int)
      requires Valid() && f in files && !files[f].directory && 0 <= size <= MAX_LENGTH && first == files[f].first
      modifies dev`disk, dev`data, dev`root
      ensures Valid() && code == 0 && f in homes && (homes[f] == ROOT || homes[f] in files) && homes[f] != f
      ensures Rerecorded(old(Holder(homes[f])), Holder(homes[f]), files[f], size)
      ensures forall h :: (h == ROOT || h in files) && h != homes[f] ==> Holder(h) == old(Holder(h))
      ensures forall h :: h in files && h != f && !files[h].directory ==> Slot(h) == old(Slot(h))
    {
      hide Shows, Contains, Catalog, Homed, Rooted, Contents, EntryStored, Splice, Rerecorded;
      code := StoreInDirectory(f, size, first);
      FirstSmall(dev.g, dev.table, files, chains, f);
      EntryRecorded(old(Holder(homes[f])), files[f], size);
      forall h | h in files && h != f && !files[h].directory ensures Slot(h) == old(Slot(h)) {
        OwnEntries(dev.g, files, chains, homes, f, h);
        HomeInside(dev.g, old(dev.table), old(dev.disk), old(dev.data), old(dev.root), files, chains, homes, h);
        if homes[h] == homes[f] {
          EntriesApart(old(Holder(homes[f])), files[f].entryOffset, size, first, files[h].entryOffset);
        }
      }
    }

    // The bytes of a write: -1 when not even a first cluster can be had.
    method WriteBytes(f: int, offset: int, buffer: seq<Byte>) returns (moved: int)
      requires Valid() && f in files && !files[f].directory && 0 <= offset
      modifies dev`disk, dev`table, dev`data, this`files, this`chains
      ensures Valid() && f in files && files == old(files)[f := old(files[f]).(first := files[f].first)]
      ensures moved == -1 ==> Full(dev.g, dev.table) && files == old(files) && dev.data == old(dev.data) && Bytes(f) == old(Bytes(f))
      ensures moved != -1 ==> Written(old(Bytes(f)), Bytes(f), offset, buffer, moved) && (moved < |buffer| ==> Full(dev.g, dev.table))
      ensures forall h :: h in files && h != f ==> Bytes(h) == old(Bytes(h))
    {
      hide Shows, Contains, Rooted, Homed, Catalog, Written, Contents, Threaded;
      ghost var start := Bytes(f);
      StartWritten(start, offset, buffer);
      var staging := seq(SECTOR, _ => 0);
      moved := 0;
      if files[f].first < 2 && |buffer| > 0 {
        var c := Start(f);
        if c == 0 {
          return -1;
        }
        NoBytes(dev.g, old(dev.disk), old(dev.data));
        WrittenGrow(start, start, Bytes(f), offset, buffer, 0);
      }
      HasChain(dev.g, dev.table, files, chains, f);
      ghost var catalog := files;
      while moved < |buffer|
        invariant Valid() && files == catalog && |staging| == SECTOR && 0 <= moved <= |buffer|
        invariant f in chains && (|buffer| > 0 ==> chains[f] != [])
        invariant Written(start, Bytes(f), offset, buffer, moved)
        invariant forall h :: h in files && h != f ==> Bytes(h) == old(Bytes(h))
        decreases |buffer| - moved
      {
        var more;
        more, staging := WriteTurn(f, offset, buffer, moved, staging, start);
        if more == moved {
          break;
        }
        moved := more;
      }
    }

    // fat_node_write: the bytes, the length, and the file's directory entry.
    method Write(f: int, offset: int, buffer: seq<Byte>) returns (moved: int)
      requires Valid() && f in files && !files[f].directory && 0 <= offset
      modifies dev, this`files, this`chains
      ensures Valid() && files.Keys == old(files.Keys)
      ensures f in homes && (homes[f] == ROOT || homes[f] in files) && homes[f] != f
      ensures moved == -1 ==> Full(dev.g, dev.table) && files == old(files) && dev.data == old(dev.data) && dev.root == old(dev.root) && Bytes(f) == old(Bytes(f))
      ensures moved != -1 ==>
                && Written(old(Bytes(f)), Bytes(f), offset, buffer, moved)
                && (moved < |buffer| ==> Full(dev.g, dev.table))
                && var end := offset + moved; var length := if end > old(files[f].length) then end else old(files[f].length);
                && files == old(files)[f := old(files[f]).(first := files[f].first, length := length)]
                && Rerecorded(old(Holder(homes[f])), Holder(homes[f]), files[f], length % (MAX_LENGTH + 1))
      ensures forall h :: (h == ROOT || h in files) && h != f && h != homes[f] ==> Holder(h) == old(Holder(h))
      ensures forall h :: h in files && h != f && !files[h].directory ==> Slot(h) == old(Slot(h))
    {
      hide Shows, Contains, Rooted, Homed, Catalog, Written, Contents, Full, Rerecorded;
      HomeOf(dev.g, files, chains, homes, f);
      moved := WriteBytes(f, offset, buffer);
      forall h | h in files && h != f && !files[h].directory ensures Slot(h) == old(Slot(h)) {
        HomeOf(dev.g, files, chains, homes, h);
      }
      if moved == -1 {
        return;
      }
      var length := files[f].length;
      if offset + moved > length {
        length := offset + moved;
      }
      var file := files[f].(length := length);
      HasChain(dev.g, dev.table, files, chains, f);
      Recatalog(dev.g, dev.table, files, chains, f, file);
      HomedChange(dev.g, files, chains, homes, f, file, chains[f]);
      assert chains[f := chains[f]] == chains;
      files := files[f := file];
      var code := WriteDirectoryEntry(f, length % (MAX_LENGTH + 1), files[f].first);
    }

    // What one sector gives a read at an offset: nothing past the last cluster.
    method ReadChunk(f: int, at: int, limit: int) returns (piece: seq<Byte>)
      requires Valid() && f in files && 0 <= at && 0 < limit
      ensures |piece| <= limit && (piece == [] <==> at >= |Bytes(f)|)
      ensures piece != [] ==> at + |piece| <= |Bytes(f)| && piece == Bytes(f)[at..at + |piece|]
    {
      hide Shows, Contains, Rooted, Homed, Catalog, Contents, ClusterBytes;
      DeviceSizes(dev.g, dev.disk, dev.table);
      Place(dev.g, at);
      var c := ClusterAt(files[f].first, at, f);
      PlaceInside(dev.g, dev.table, dev.disk, dev.data, files, chains, f, at);
      if c == 0 {
        return [];
      }
      var within := at % ClusterBytes(dev.g);
      var sector, offset := within / SECTOR, within % SECTOR;
      var staging := dev.ReadSector(c, sector);
      var chunk := SECTOR - offset;
      if chunk > limit {
        chunk := limit;
      }
      SectorOfFile(dev.g, dev.table, dev.disk, dev.data, files, chains, f, at / ClusterBytes(dev.g), sector, offset, chunk);
      piece := staging[offset..offset + chunk];
    }

    // fat_node_read: what the file holds at the offset, as far as its length and its
    // clusters go.
    method Read(f: int, offset: int, size: int) returns (out: seq<Byte>)
      requires Valid() && f in files && 0 <= offset && 0 <= size
      ensures var n := if offset >= files[f].length then 0 else if size > files[f].length - offset then files[f].length - offset else size;
              var m := |Bytes(f)| - offset;
              && |out| == (if m <= 0 then 0 else if n < m then n else m)
              && (out != [] ==> out == Bytes(f)[offset..offset + |out|])
    {
      hide Shows, Contains, Rooted, Homed, Catalog, Contents, ClusterBytes;
      out := [];
      if offset >= files[f].length {
        return;
      }
      var wanted := size;
      if wanted > files[f].length - offset {
        wanted := files[f].length - offset;
      }
      ghost var all := Bytes(f);
      while |out| < wanted
        invariant |out| <= wanted && Stretch(all, offset, out)
        decreases wanted - |out|
      {
        var piece := ReadChunk(f, offset + |out|, wanted - |out|);
        if piece == [] {
          break;
        }
        ReadMore(all, offset, out, piece);
        out := out + piece;
      }
    }

    // What was written is what is read.
    method WriteThenRead(f: int, offset: int, buffer: seq<Byte>) returns (moved: int, out: seq<Byte>)
      requires Valid() && f in files && !files[f].directory && 0 <= offset
      modifies dev, this`files, this`chains
      ensures Valid() && (moved == |buffer| ==> out == buffer)
    {
      hide Shows, Contains, Rooted, Homed, Catalog, Contents, Full, Rerecorded;
      moved := Write(f, offset, buffer);
      out := Read(f, offset, |buffer|);
      assert buffer[..|buffer|] == buffer;
    }

    // release_chain: the clusters of t become free.
    method Release(cluster: int, ghost t: Chain)
      requires dev.Valid() && Threaded(dev.g, dev.table, t) && NoRepeats(t)
      requires if t == [] then cluster < 2 || IsEnd(dev.g.bits, cluster) else cluster == t[0]
      modifies dev`disk, dev`table
      ensures dev.Valid() && dev.data == old(dev.data) && Cleared(old(dev.table), dev.table, t)
    {
      hide Shows, Contains, Rooted, Homed, Threaded, NoRepeats, Cleared;
      DeviceSizes(dev.g, dev.disk, dev.table);
      var c := cluster;
      ghost var i := 0;
      NothingCleared(dev.table);
      assert t[..0] == [];
      ClusterStart(dev.g, dev.table, t);
      while c >= 2 && !IsEnd(dev.g.bits, c)
        invariant dev.Valid() && 0 <= i <= |t| && |dev.table| == |old(dev.table)|
        invariant if i < |t| then c == t[i] && IsCluster(dev.g, c) else c < 2 || IsEnd(dev.g.bits, c)
        invariant Cleared(old(dev.table), dev.table, t[..i])
        decreases |t| - i
      {
        ClearedStep(dev.g, old(dev.table), dev.table, t, i);
        var next := dev.EntryRead(c);
        dev.EntryWrite(c, 0);
        c := next;
        i := i + 1;
      }
      assert t[..i] == t;
    }

    // Truncation to nothing.
    method Empty(f: int)
      requires Valid() && f in files && !files[f].directory
      modifies dev`disk, dev`table, this`files, this`chains
      ensures Valid() && f in old(chains) && files == old(files)[f := old(files[f]).(first := 0)]
      ensures chains == old(chains)[f := []] && Freed(dev.table, old(chains)[f])
    {
      hide Shows, Contains, Rooted, Homed, Catalog, Threaded, NoRepeats, Cleared, Freed;
      CatalogAt(dev.g, dev.table, files, chains, f);
      ghost var ch := chains[f];
      FirstLink(dev.g, dev.table, ch);
      LastKept(dev.g, dev.table, ch, 1);
      var file := files[f].(first := 0);
      Release(files[f].first, ch);
      assert ch[..0] == [];
      Shorten(dev.g, old(dev.table), dev.table, files, chains, f, file, 0, EndMark(dev.g.bits));
      HomedChange(dev.g, files, chains, homes, f, file, []);
      ClearedFrees(old(dev.table), dev.table, ch, dev.g);
      files := files[f := file];
      chains := chains[f := []];
    }

    // Truncation to a positive length: as many clusters stay as the length needs.
    method Shrink(f: int, length: int) returns (code: int)
      requires Valid() && f in files && !files[f].directory && 0 < length
      modifies dev`disk, dev`table, this`chains
      ensures Valid() && f in old(chains) && ClusterBytes(dev.g) > 0
      ensures var ch, n := old(chains)[f], (length + ClusterBytes(dev.g) - 1) / ClusterBytes(dev.g);
              if 0 < n <= |ch| then
                code == 0 && chains == old(chains)[f := ch[..n]] && Freed(dev.table, ch[n..])
              else
                code == -1 && dev.table == old(dev.table) && chains == old(chains)
    {
      hide Shows, Contains, Rooted, Homed, Catalog, Threaded, NoRepeats, Cleared, Freed, ClusterBytes;
      CatalogAt(dev.g, dev.table, files, chains, f);
      Place(dev.g, length - 1);
      ghost var ch := chains[f];
      FirstLink(dev.g, dev.table, ch);
      Ceiling(length, ClusterBytes(dev.g));
      ghost var n := (length - 1) / ClusterBytes(dev.g) + 1;
      LastKept(dev.g, dev.table, ch, n);
      var last := ClusterAt(files[f].first, length - 1, f);
      if last == 0 {
        return -1;
      }
      var next := dev.EntryRead(last);
      var mark := EndValue(dev.g.bits);
      dev.EntryWrite(last, mark);
      TailThreaded(dev.g, old(dev.table), dev.table, ch, n);
      if !IsEnd(dev.g.bits, next) {
        Release(next, ch[n..]);
      } else {
        NothingCleared(dev.table);
      }
      Shorten(dev.g, old(dev.table), dev.table, files, chains, f, files[f], n, mark);
      HomedChange(dev.g, files, chains, homes, f, files[f], ch[..n]);
      assert files[f := files[f]] == files;
      ClearedFrees(old(dev.table)[last := mark], dev.table, ch[n..], dev.g);
      chains := chains[f := ch[..n]];
      code := 0;
    }

    // fat_node_truncate
    method Truncate(f: int, length: int) returns (code: int)
      requires Valid() && f in files && !files[f].directory && 0 <= length
      modifies dev, this`files, this`chains
      ensures Valid() && f in old(chains) && f in chains && ClusterBytes(dev.g) > 0
      ensures f in homes && (homes[f] == ROOT || homes[f] in files) && homes[f] != f
      ensures var ch, n := old(chains)[f], (length + ClusterBytes(dev.g) - 1) / ClusterBytes(dev.g);
              code == if length > MAX_LENGTH || (0 < length < old(files[f].length) && n > |ch|) then -1 else 0
      ensures code != 0 ==> files == old(files) && chains == old(chains) && dev.table == old(dev.table) && dev.data == old(dev.data) && dev.root == old(dev.root)
      ensures code == 0 && length >= old(files[f].length) ==> files == old(files) && chains == old(chains) && dev.table == old(dev.table)
      ensures code == 0 && 0 == length < old(files[f].length) ==>
                && files == old(files)[f := old(files[f]).(first := 0)]
                && chains == old(chains)[f := []] && Freed(dev.table, old(chains)[f])
      ensures code == 0 && 0 < length < old(files[f].length) ==>
                var ch, n := old(chains)[f], (length + ClusterBytes(dev.g) - 1) / ClusterBytes(dev.g);
                && files == old(files) && 0 < n <= |ch|
                && chains == old(chains)[f := ch[..n]] && Freed(dev.table, ch[n..])
      ensures Bytes(f) <= old(Bytes(f))
      ensures code == 0 ==> Rerecorded(old(Holder(homes[f])), Holder(homes[f]), files[f], length)
      ensures forall h :: (h == ROOT || h in files) && h != f && h != homes[f] ==> Holder(h) == old(Holder(h))
      ensures forall h :: h in files && h != f && !files[h].directory ==> Slot(h) == old(Slot(h))
    {
      hide Shows, Contains, Rooted, Homed, Catalog, Freed, Contents, EntryStored, Rerecorded;
      CatalogAt(dev.g, dev.table, files, chains, f);
      HomeOf(dev.g, files, chains, homes, f);
      Place(dev.g, length);
      if length > MAX_LENGTH {
        return -1;
      }
      if length >= files[f].length {
        code := WriteDirectoryEntry(f, length, files[f].first);
        return;
      }
      if length == 0 {
        Empty(f);
        forall h | h in files && h != f && !files[h].directory ensures Slot(h) == old(Slot(h)) {
          HomeOf(dev.g, files, chains, homes, h);
        }
        NoBytes(dev.g, dev.disk, dev.data);
        code := WriteDirectoryEntry(f, 0, 0);
        return;
      }
      code := Shrink(f, length);
      if code != 0 {
        return;
      }
      forall h | h in files && h != f && !files[h].directory ensures Slot(h) == old(Slot(h)) {
        HomeOf(dev.g, files, chains, homes, h);
      }
      PrefixBytes(dev.g, old(dev.disk), old(dev.table), dev.data, old(files), old(chains), f, |chains[f]|);
      code := WriteDirectoryEntry(f, length, files[f].first);
    }
  }

  // The cluster number a file gives for its directory.
  ghost predicate Names(files: map<int, File>, cluster: int, d: int) {
    if d == ROOT then cluster == 0 else d in files && cluster == files[d].first >= 2
  }

  // A directory is as it was but for eight bytes of the file's entry, which now
  // record the size and the file's first cluster.
  ghost predicate Rerecorded(s: seq<Byte>, t: seq<Byte>, file: File, size: int) {
    var at := file.entryOffset;
    && 0 <= at && at + ENTRY <= |s| == |t| && (forall i :: 0 <= i < |s| && !Touched(at, i) ==> t[i] == s[i])
    && RecordedSize(t, at) == size && RecordedFirst(t, at) == file.first
  }

  // What a write leaves in the directory is the length of the file exactly when that
  // fits the entry's 32 bits.
  lemma LengthSurvives(s: seq<Byte>, t: seq<Byte>, file: File)
    requires 0 <= file.length && Rerecorded(s, t, file, file.length % (MAX_LENGTH + 1))
    ensures RecordedSize(t, file.entryOffset) == file.length <==> file.length <= MAX_LENGTH
  {
    hide RecordedSize, RecordedFirst;
    if file.length <= MAX_LENGTH {
      Unique(file.length, MAX_LENGTH + 1, 0, file.length);
    }
  }

  // A file written up to 4 GiB and one byte is recorded as one byte long.
  lemma FourGigabytesAreLost(s: seq<Byte>, t: seq<Byte>, file: File)
    requires file.length == 0x1_0000_0001 && Rerecorded(s, t, file, file.length % (MAX_LENGTH + 1))
    ensures RecordedSize(t, file.entryOffset) == 1
  {
    hide RecordedSize, RecordedFirst;
    assert 0x1_0000_0001 % (MAX_LENGTH + 1) == 1;
  }

  lemma HomeInside(g: Geometry, table: seq<int>, disk: seq<Byte>, data: seq<seq<Byte>>, root: seq<Byte>,
                   files: map<int, File>, chains: map<int, Chain>, homes: map<int, int>, f: int)
    requires Catalog(g, table, files, chains) && Contains(g, disk, data) && Rooted(g, disk, root)
    requires Homed(g, files, chains, homes) && f in files && !files[f].directory
    ensures var d, at := homes[f], files[f].entryOffset;
            && 0 <= at && at % SECTOR + ENTRY <= SECTOR && Names(files, files[f].entryCluster, d)
            && if d == ROOT then at - at % SECTOR + SECTOR <= |root|
               else d in chains && Uniform(g, data) && Clusters(g, chains[d]) && at - at % SECTOR + SECTOR <= |Contents(g, data, chains[d])|
  {
    HomeOf(g, files, chains, homes, f);
    var d, at := homes[f], files[f].entryOffset;
    hide Homed, Catalog, Contents, ClusterBytes;
    if d == ROOT {
      EntryFits(at, g.rootSectors);
    } else {
      DeviceUniform(g, disk, data);
      CatalogClusters(g, table, files, chains, d);
      ContentsLength(g, data, chains[d]);
      WholeSectors(g, |chains[d]|);
      EntryFits(at, |chains[d]| * g.sectorsPerCluster);
    }
  }

  lemma EntryFits(at: int, sectors: int)
    requires 0 <= at && at % ENTRY == 0 && at + ENTRY <= sectors * SECTOR
    ensures at % SECTOR + ENTRY <= SECTOR && at - at % SECTOR + SECTOR <= sectors * SECTOR
  {
    var w := at / ENTRY;
    Unique(at, SECTOR, w / 16, w % 16 * ENTRY);
    WholeBelow(w / 16, w % 16 * ENTRY + ENTRY, sectors);
  }

  lemma SectorOf(at: int)
    requires 0 <= at
    ensures 0 <= at - at % SECTOR && (at - at % SECTOR) % SECTOR == 0 && 0 <= at % SECTOR
  {
  }

  lemma WholeBelow(q: int, r: int, sectors: int)
    requires 0 < r && q * SECTOR + r <= sectors * SECTOR
    ensures q * SECTOR + SECTOR <= sectors * SECTOR
  {
  }

  // The entry as it is stored says what the file record says.
  lemma EntryRecorded(s: seq<Byte>, file: File, size: int)
    requires 0 <= file.entryOffset && file.entryOffset + ENTRY <= |s| && 0 <= size <= MAX_LENGTH && 0 <= file.first <= MAX_LENGTH
    ensures Rerecorded(s, EntryStored(s, file.entryOffset, size, file.first), file, size)
  {
    hide RecordedSize, RecordedFirst;
    EntryReads(s, file.entryOffset, size, file.first);
  }

  lemma FirstSmall(g: Geometry, table: seq<int>, files: map<int, File>, chains: map<int, Chain>, f: int)
    requires Catalog(g, table, files, chains) && f in files
    ensures 0 <= files[f].first <= MAX_LENGTH
  {
    CatalogAt(g, table, files, chains, f);
    CatalogClusters(g, table, files, chains, f);
  }

  lemma OwnEntries(g: Geometry, files: map<int, File>, chains: map<int, Chain>, homes: map<int, int>, f: int, h: int)
    requires Homed(g, files, chains, homes) && f in files && h in files && f != h && !files[f].directory && !files[h].directory
    ensures f in homes && h in homes && HomeAt(g, files, chains, f, homes[f]) && HomeAt(g, files, chains, h, homes[h])
    ensures homes[f] == homes[h] ==> files[f].entryOffset != files[h].entryOffset
  {
  }

  // The first clusters of a chain hold the first bytes.
  lemma PrefixBytes(g: Geometry, disk: seq<Byte>, table: seq<int>, data: seq<seq<Byte>>,
                    files: map<int, File>, chains: map<int, Chain>, f: int, n: int)
    requires Catalog(g, table, files, chains) && Contains(g, disk, data) && f in files && f in chains && 0 <= n <= |chains[f]|
    ensures Uniform(g, data) && Clusters(g, chains[f]) && Clusters(g, chains[f][..n])
    ensures Contents(g, data, chains[f][..n]) <= Contents(g, data, chains[f])
  {
    DeviceUniform(g, disk, data);
    CatalogClusters(g, table, files, chains, f);
    ContentsSplit(g, data, chains[f], n);
  }

  lemma SectorFits(offset: int, m: int, w: int, sectors: int)
    requires offset % SECTOR == 0 && offset == m * SECTOR + w && 0 <= w
    ensures w % SECTOR == 0 && w / SECTOR * SECTOR == w
    ensures offset < sectors * SECTOR <==> offset + SECTOR <= sectors * SECTOR
  {
    var q := offset / SECTOR;
    assert offset == q * SECTOR && w == (q - m) * SECTOR;
  }

  lemma WholeSectors(g: Geometry, n: int)
    ensures n * ClusterBytes(g) == n * g.sectorsPerCluster * SECTOR
  {
  }

  // A sector's offset lies in a directory exactly when the whole sector does.
  lemma SectorInside(g: Geometry, table: seq<int>, disk: seq<Byte>, data: seq<seq<Byte>>,
                     files: map<int, File>, chains: map<int, Chain>, d: int, offset: int)
    requires Catalog(g, table, files, chains) && Contains(g, disk, data) && d in files && 0 <= offset && offset % SECTOR == 0
    ensures d in chains && Uniform(g, data) && Clusters(g, chains[d]) && ClusterBytes(g) > 0
    ensures var cb := ClusterBytes(g); var n, w := offset / cb, offset % cb;
            && 0 <= n && 0 <= w / SECTOR < g.sectorsPerCluster && w % SECTOR == 0
            && (Nth(chains[d], n) != 0 <==> offset + SECTOR <= |Contents(g, data, chains[d])|)
            && (n < |chains[d]| ==>
                  && IsCluster(g, chains[d][n]) && |data[chains[d][n]]| == cb
                  && data[chains[d][n]][w / SECTOR * SECTOR..w / SECTOR * SECTOR + SECTOR] == Contents(g, data, chains[d])[offset..offset + SECTOR])
  {
    hide Contents, ClusterBytes, Catalog, Contains;
    PlaceInside(g, table, disk, data, files, chains, d, offset);
    ContentsLength(g, data, chains[d]);
    WholeSectors(g, |chains[d]|);
    CatalogAt(g, table, files, chains, d);
    Place(g, offset);
    var n, w := offset / ClusterBytes(g), offset % ClusterBytes(g);
    WholeSectors(g, n);
    SectorFits(offset, n * g.sectorsPerCluster, w, |chains[d]| * g.sectorsPerCluster);
    if n < |chains[d]| {
      SectorOfFile(g, table, disk, data, files, chains, d, n, w / SECTOR, 0, SECTOR);
    }
  }

  lemma DeviceUniform(g: Geometry, disk: seq<Byte>, data: seq<seq<Byte>>)
    requires Contains(g, disk, data)
    ensures Uniform(g, data)
  {
  }

  lemma DeviceSizes(g: Geometry, disk: seq<Byte>, table: seq<int>)
    requires Shows(g, disk, table)
    ensures Sound(g) && |table| == g.clusterCount + 2
  {
  }

  lemma CatalogClusters(g: Geometry, table: seq<int>, files: map<int, File>, chains: map<int, Chain>, f: int)
    requires Catalog(g, table, files, chains) && f in files
    ensures f in chains && Clusters(g, chains[f])
  {
    CatalogAt(g, table, files, chains, f);
    forall i | 0 <= i < |chains[f]| ensures IsCluster(g, chains[f][i]) {
      LinkStep(g, table, chains[f], i);
    }
  }

  // Rewriting a sector with some of its bytes replaced replaces them in the cluster.
  lemma ChunkSpliced(g: Geometry, cluster: seq<Byte>, buffer: seq<Byte>, sector: int, at: int, bytes: seq<Byte>)
    requires Sound(g) && |cluster| == ClusterBytes(g) && 0 <= sector < g.sectorsPerCluster && 0 <= at && 0 < |bytes| <= SECTOR - at
    requires |buffer| == SECTOR && (|bytes| != SECTOR ==> buffer == cluster[sector * SECTOR..sector * SECTOR + SECTOR])
    ensures sector * SECTOR + SECTOR <= |cluster|
    ensures Splice(cluster, sector * SECTOR, buffer[..at] + bytes + buffer[at + |bytes|..]) == Splice(cluster, sector * SECTOR + at, bytes)
  {
    assert Splice(buffer, at, bytes) == buffer[..at] + bytes + buffer[at + |bytes|..];
    assert |bytes| == SECTOR ==> at == 0 && buffer[..0] + bytes + buffer[SECTOR..] == bytes;
    var base := sector * SECTOR;
    hide Splice;
    if |bytes| < SECTOR {
      SpliceTwice(cluster, base, SECTOR, at, bytes);
    }
  }

  lemma ChunkWritten(g: Geometry, table: seq<int>, data: seq<seq<Byte>>, files: map<int, File>, chains: map<int, Chain>,
                     f: int, offset: int, bytes: seq<Byte>)
    requires Catalog(g, table, files, chains) && Uniform(g, data) && f in files && 0 <= offset && ClusterBytes(g) > 0
    requires 0 <= offset / ClusterBytes(g) < |chains[f]| && offset % ClusterBytes(g) + |bytes| <= ClusterBytes(g)
    ensures f in chains && IsCluster(g, chains[f][offset / ClusterBytes(g)]) && Clusters(g, chains[f])
    ensures var c, at := chains[f][offset / ClusterBytes(g)], offset % ClusterBytes(g);
            && |data[c]| == ClusterBytes(g)
            && var data' := data[c := Splice(data[c], at, bytes)];
            && Uniform(g, data') && offset + |bytes| <= |Contents(g, data, chains[f])|
            && Contents(g, data', chains[f]) == Splice(Contents(g, data, chains[f]), offset, bytes)
            && forall h :: h in files && h != f ==>
                 h in chains && Clusters(g, chains[h]) && Contents(g, data', chains[h]) == Contents(g, data, chains[h])
  {
    var cb := ClusterBytes(g);
    var n, at := offset / cb, offset % cb;
    CatalogAt(g, table, files, chains, f);
    CatalogClusters(g, table, files, chains, f);
    var c := chains[f][n];
    ContentsWrite(g, data, chains[f], n, at, bytes);
    Place(g, offset);
    hide Catalog, Contents;
    forall h | h in files && h != f
      ensures h in chains && Clusters(g, chains[h]) && Contents(g, data[c := Splice(data[c], at, bytes)], chains[h]) == Contents(g, data, chains[h])
    {
      CatalogClusters(g, table, files, chains, h);
      CatalogAt(g, table, files, chains, f);
      assert c in chains[f];
      ContentsFrame(g, data, data[c := Splice(data[c], at, bytes)], chains[h]);
    }
  }

  lemma StartWritten(s: seq<Byte>, offset: int, buffer: seq<Byte>)
    requires 0 <= offset
    ensures Written(s, s, offset, buffer, 0)
  {
  }

  lemma NoBytes(g: Geometry, disk: seq<Byte>, data: seq<seq<Byte>>)
    requires Contains(g, disk, data)
    ensures Uniform(g, data) && Clusters(g, []) && Contents(g, data, []) == []
  {
    DeviceUniform(g, disk, data);
  }

  // A longer chain begins with the bytes it had; the other chains have theirs.
  lemma GrownBytes(g: Geometry, disk: seq<Byte>, table: seq<int>, table': seq<int>, data: seq<seq<Byte>>,
                   files: map<int, File>, chains: map<int, Chain>, chains': map<int, Chain>, f: int)
    requires Catalog(g, table, files, chains) && Catalog(g, table', files, chains') && Contains(g, disk, data) && f in files
    requires f in chains && f in chains' && chains[f] <= chains'[f] && chains' == chains[f := chains'[f]]
    ensures Uniform(g, data) && Clusters(g, chains[f]) && Clusters(g, chains'[f])
    ensures Contents(g, data, chains[f]) <= Contents(g, data, chains'[f])
  {
    DeviceUniform(g, disk, data);
    CatalogClusters(g, table, files, chains, f);
    CatalogClusters(g, table', files, chains', f);
    var n := |chains[f]|;
    ContentsSplit(g, data, chains'[f], n);
    assert chains'[f][..n] == chains[f];
  }

  lemma Recatalog(g: Geometry, table: seq<int>, files: map<int, File>, chains: map<int, Chain>, f: int, file: File)
    requires Catalog(g, table, files, chains) && f in files && file.first == files[f].first
    ensures Catalog(g, table, files[f := file], chains)
  {
    assert files[f := file].Keys == files.Keys;
  }

  lemma HasChain(g: Geometry, table: seq<int>, files: map<int, File>, chains: map<int, Chain>, f: int)
    requires Catalog(g, table, files, chains) && f in files
    ensures f in chains && (chains[f] == [] <==> files[f].first < 2)
  {
    CatalogAt(g, table, files, chains, f);
    FirstLink(g, table, chains[f]);
  }

  ghost predicate Freed(table: seq<int>, t: Chain) {
    forall i :: 0 <= i < |t| ==> 0 <= t[i] < |table| && table[t[i]] == 0
  }

  lemma NothingCleared(table: seq<int>)
    ensures Cleared(table, table, [])
  {
  }

  lemma ClusterStart(g: Geometry, table: seq<int>, t: Chain)
    requires Threaded(g, table, t)
    ensures t != [] ==> IsCluster(g, t[0])
  {
    if t != [] {
      LinkStep(g, table, t, 0);
    }
  }

  // Clearing the next cluster of a chain whose first i are cleared.
  lemma ClearedStep(g: Geometry, table: seq<int>, table': seq<int>, t: Chain, i: int)
    requires Sound(g) && Threaded(g, table, t) && NoRepeats(t) && 0 <= i < |t| && Cleared(table, table', t[..i])
    ensures IsCluster(g, t[i]) && |table'| == |table| == g.clusterCount + 2
    ensures if i + 1 < |t| then table'[t[i]] == t[i + 1] && IsCluster(g, t[i + 1]) else table'[t[i]] >= EndMark(g.bits)
    ensures Cleared(table, table'[t[i] := 0], t[..i + 1])
  {
    LinkStep(g, table, t, i);
    if i + 1 < |t| {
      LinkStep(g, table, t, i + 1);
    }
    hide Threaded;
    assert t[..i + 1] == t[..i] + [t[i]];
    assert t[i] !in t[..i];
  }

  lemma ClearedFrees(table: seq<int>, table': seq<int>, t: Chain, g: Geometry)
    requires Cleared(table, table', t) && |table| == g.clusterCount + 2 && Clusters(g, t)
    ensures Freed(table', t)
  {
    forall i | 0 <= i < |t| ensures 0 <= t[i] < |table'| && table'[t[i]] == 0 {
      var x := t[i];
      assert x in t;
    }
  }

  lemma LastKept(g: Geometry, table: seq<int>, ch: Chain, n: int)
    requires Threaded(g, table, ch) && n >= 1
    ensures Clusters(g, ch)
    ensures n <= |ch| ==> ch[n - 1] >= 2
  {
    forall i | 0 <= i < |ch| ensures IsCluster(g, ch[i]) {
      LinkStep(g, table, ch, i);
    }
  }

  // The rest of a chain is a chain, and survives a store before it.
  lemma TailThreaded(g: Geometry, table: seq<int>, table': seq<int>, ch: Chain, n: int)
    requires Threaded(g, table, ch) && NoRepeats(ch) && 1 <= n <= |ch| && |table'| == |table|
    requires forall x :: 0 <= x < |table| && x != ch[n - 1] ==> table'[x] == table[x]
    ensures Threaded(g, table', ch[n..]) && NoRepeats(ch[n..])
    ensures IsCluster(g, ch[n - 1]) && |table| == g.clusterCount + 2
    ensures if n < |ch| then table[ch[n - 1]] == ch[n] && IsCluster(g, ch[n]) else table[ch[n - 1]] >= EndMark(g.bits)
    ensures Clusters(g, ch[n..])
  {
    var t := ch[n..];
    LinkStep(g, table, ch, n - 1);
    if n < |ch| {
      LinkStep(g, table, ch, n);
    }
    hide Threaded;
    forall i | 0 <= i < |t| ensures LinkAt(g, table', t, i) {
      LinkStep(g, table, ch, n + i);
    }
    forall i | 0 <= i < |t| ensures IsCluster(g, t[i]) {
      assert LinkAt(g, table', t, i);
    }
    LinkIntro(g, table', t);
  }

  // Whether a file has a cluster at the offset, in bytes.
  lemma PlaceInside(g: Geometry, table: seq<int>, disk: seq<Byte>, data: seq<seq<Byte>>,
                    files: map<int, File>, chains: map<int, Chain>, f: int, at: int)
    requires Catalog(g, table, files, chains) && Contains(g, disk, data) && f in files && 0 <= at
    ensures f in chains && Uniform(g, data) && Clusters(g, chains[f]) && ClusterBytes(g) > 0
    ensures at / ClusterBytes(g) < |chains[f]| <==> at < |Contents(g, data, chains[f])|
    ensures Nth(chains[f], at / ClusterBytes(g)) != 0 <==> at / ClusterBytes(g) < |chains[f]|
    ensures at / ClusterBytes(g) < |chains[f]| ==> IsCluster(g, Nth(chains[f], at / ClusterBytes(g)))
  {
    DeviceUniform(g, disk, data);
    CatalogClusters(g, table, files, chains, f);
    ContentsLength(g, data, chains[f]);
    Place(g, at);
    var cb, n := ClusterBytes(g), at / ClusterBytes(g);
    hide ClusterBytes;
    if n < |chains[f]| {
      ProductOrder(n, |chains[f]|, cb);
    } else {
      ProductOrder(|chains[f]|, n, cb);
    }
  }

  // A stretch of a sector is a stretch of the file.
  lemma SectorOfFile(g: Geometry, table: seq<int>, disk: seq<Byte>, data: seq<seq<Byte>>,
                     files: map<int, File>, chains: map<int, Chain>, f: int, n: int, k: int, b: int, chunk: int)
    requires Catalog(g, table, files, chains) && Contains(g, disk, data) && f in files
    requires 0 <= n < |chains[f]| && 0 <= k < g.sectorsPerCluster && 0 <= b && 0 < chunk <= SECTOR - b
    ensures f in chains && Uniform(g, data) && Clusters(g, chains[f])
    ensures |data[chains[f][n]]| == ClusterBytes(g) && k * SECTOR + SECTOR <= ClusterBytes(g)
    ensures var at := n * ClusterBytes(g) + k * SECTOR + b;
            && 0 <= at && at + chunk <= |Contents(g, data, chains[f])|
            && data[chains[f][n]][k * SECTOR..k * SECTOR + SECTOR][b..b + chunk] == Contents(g, data, chains[f])[at..at + chunk]
  {
    DeviceUniform(g, disk, data);
    CatalogClusters(g, table, files, chains, f);
    ContentsAt(g, data, chains[f], n);
    var s, cluster, cb := Contents(g, data, chains[f]), data[chains[f][n]], ClusterBytes(g);
    assert k * SECTOR + SECTOR <= cb;
    hide Contents, ClusterBytes;
    Window(cluster, k * SECTOR, SECTOR, b, chunk);
    Window(s, n * cb, cb, k * SECTOR + b, chunk);
  }

  // What stands in s at a place, or nothing.
  ghost predicate Stretch(s: seq<Byte>, at: int, t: seq<Byte>) {
    t != [] ==> 0 <= at && at + |t| <= |s| && t == s[at..at + |t|]
  }

  lemma ReadMore(s: seq<Byte>, at: int, t: seq<Byte>, more: seq<Byte>)
    requires 0 <= at && Stretch(s, at, t) && Stretch(s, at + |t|, more)
    ensures Stretch(s, at, t + more)
  {
    if t == [] {
      assert t + more == more;
    } else if more == [] {
      assert t + more == t;
    }
  }

  lemma FirstLink(g: Geometry, table: seq<int>, ch: Chain)
    requires Threaded(g, table, ch)
    ensures ch != [] ==> ch[0] >= 2
  {
    if ch != [] {
      LinkStep(g, table, ch, 0);
    }
  }
}
