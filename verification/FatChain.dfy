/**
 Cluster chains in a file allocation table (kernel/fs/fatfs.c): what it means for
 the table to hold a set of files, and what growing, cutting and releasing a chain
 does to it and to the bytes the chains carry.
 */
module FatChains {
  import opened FatTables
  import opened FatDisks
  import opened FatEntries
  import opened LittleEndian
  import opened Lists

  type Chain = seq<int>

  // `first` is below 2 for a file that has no cluster.  A file that is no directory
  // has its entry at `entryOffset` of the directory that begins with `entryCluster`,
  // or of the fixed root directory when that is 0.
  datatype File = File(first: int, length: int, directory: bool, entryCluster: int, entryOffset: int)

  // Stands for the fixed root directory among the directories.
  const ROOT: int := -1

  ghost predicate LinkAt(g: Geometry, table: seq<int>, ch: Chain, i: int)
    requires 0 <= i < |ch|
  {
    && IsCluster(g, ch[i]) && |table| == g.clusterCount + 2
    && if i + 1 < |ch| then table[ch[i]] == ch[i + 1] else table[ch[i]] >= EndMark(g.bits)
  }

  ghost predicate Threaded(g: Geometry, table: seq<int>, ch: Chain) {
    forall i :: 0 <= i < |ch| ==> LinkAt(g, table, ch, i)
  }

  lemma LinkStep(g: Geometry, table: seq<int>, ch: Chain, i: int)
    requires Threaded(g, table, ch) && 0 <= i < |ch|
    ensures LinkAt(g, table, ch, i)
  {
  }

  lemma LinkIntro(g: Geometry, table: seq<int>, ch: Chain)
    requires forall i :: 0 <= i < |ch| ==> LinkAt(g, table, ch, i)
    ensures Threaded(g, table, ch)
  {
  }

  predicate StartsAt(first: int, ch: Chain) {
    if ch == [] then 0 <= first < 2 else first == ch[0]
  }

  ghost predicate Apart(a: Chain, b: Chain) {
    forall x :: x in a ==> x !in b
  }

  // The table holds these files: acyclic chains with no cluster in common.
  ghost predicate Catalog(g: Geometry, table: seq<int>, files: map<int, File>, chains: map<int, Chain>) {
    && Sound(g) && |table| == g.clusterCount + 2 && chains.Keys == files.Keys
    && (forall f :: f in files ==> Threaded(g, table, chains[f]) && NoRepeats(chains[f]) && StartsAt(files[f].first, chains[f]))
    && (forall f, h :: f in files && h in files && f != h ==> Apart(chains[f], chains[h]))
  }

  lemma CatalogAt(g: Geometry, table: seq<int>, files: map<int, File>, chains: map<int, Chain>, f: int)
    requires Catalog(g, table, files, chains) && f in files
    ensures Sound(g) && |table| == g.clusterCount + 2 && f in chains
    ensures Threaded(g, table, chains[f]) && NoRepeats(chains[f]) && StartsAt(files[f].first, chains[f])
    ensures forall h :: h in files && h != f ==> h in chains && Apart(chains[f], chains[h]) && Apart(chains[h], chains[f])
  {
  }

  lemma InRange(g: Geometry, table: seq<int>, ch: Chain)
    requires Threaded(g, table, ch)
    ensures forall x :: x in ch ==> IsCluster(g, x)
  {
    forall x | x in ch ensures IsCluster(g, x) {
      var i :| 0 <= i < |ch| && ch[i] == x;
      LinkStep(g, table, ch, i);
    }
  }

  // A free cluster is on no chain.
  lemma FreeIsOutside(g: Geometry, table: seq<int>, ch: Chain, c: int)
    requires Sound(g) && Threaded(g, table, ch) && 0 <= c < |table| && table[c] == 0
    ensures c !in ch
  {
    if c in ch {
      var i :| 0 <= i < |ch| && ch[i] == c;
      LinkStep(g, table, ch, i);
      if i + 1 < |ch| {
        LinkStep(g, table, ch, i + 1);
      }
    }
  }

  // Only the entries of its own clusters matter to a chain.
  lemma LinksFrame(g: Geometry, table: seq<int>, table': seq<int>, ch: Chain)
    requires Threaded(g, table, ch) && |table'| == |table|
    requires forall x :: x in ch && 0 <= x < |table| ==> table'[x] == table[x]
    ensures Threaded(g, table', ch)
  {
    hide Threaded;
    forall i | 0 <= i < |ch| ensures LinkAt(g, table', ch, i) {
      LinkStep(g, table, ch, i);
      var x := ch[i];
      assert x in ch;
    }
    LinkIntro(g, table', ch);
  }

  // Changing the table only at clusters of chain f and at clusters on no chain.
  lemma CatalogChange(g: Geometry, table: seq<int>, table': seq<int>, files: map<int, File>, chains: map<int, Chain>,
                      f: int, file: File, ch: Chain)
    requires Catalog(g, table, files, chains) && f in files && |table'| == |table|
    requires Threaded(g, table', ch) && NoRepeats(ch) && StartsAt(file.first, ch)
    requires forall h, x :: h in files && h != f && x in chains[h] ==> x !in ch
    requires forall h, x :: h in files && h != f && x in chains[h] && 0 <= x < |table| ==> table'[x] == table[x]
    ensures Catalog(g, table', files[f := file], chains[f := ch])
  {
    hide Threaded, NoRepeats;
    forall h | h in files && h != f ensures Threaded(g, table', chains[h]) {
      CatalogAt(g, table, files, chains, h);
      LinksFrame(g, table, table', chains[h]);
    }
    assert chains[f := ch].Keys == files[f := file].Keys;
  }

  // ---------------------------------------------------------------------------
  // Directory entries
  // ---------------------------------------------------------------------------

  // The entry of the file lies in directory d.
  ghost predicate HomeAt(g: Geometry, files: map<int, File>, chains: map<int, Chain>, f: int, d: int)
    requires f in files
  {
    && 0 <= files[f].entryOffset && files[f].entryOffset % ENTRY == 0
    && if d == ROOT then
         files[f].entryCluster == 0 && files[f].entryOffset + ENTRY <= g.rootSectors * SECTOR
       else
         && d in files && d in chains && files[d].directory && files[f].entryCluster == files[d].first >= 2
         && files[f].entryOffset + ENTRY <= |chains[d]| * ClusterBytes(g)
  }

  // Every file that is no directory has an entry of its own.
  ghost predicate Homed(g: Geometry, files: map<int, File>, chains: map<int, Chain>, homes: map<int, int>) {
    && ROOT !in files
    && (forall f :: f in files && !files[f].directory ==> f in homes && HomeAt(g, files, chains, f, homes[f]))
    && (forall f, h :: f in files && h in files && f != h && !files[f].directory && !files[h].directory ==>
          f in homes && h in homes && (homes[f] != homes[h] || files[f].entryOffset != files[h].entryOffset))
  }

  lemma HomeOf(g: Geometry, files: map<int, File>, chains: map<int, Chain>, homes: map<int, int>, f: int)
    requires Homed(g, files, chains, homes) && f in files && !files[f].directory
    ensures ROOT !in files && f in homes && HomeAt(g, files, chains, f, homes[f]) && homes[f] != f && (homes[f] == ROOT || homes[f] in files)
  {
  }

  // A file that is no directory may get another chain, and another length.
  lemma HomedChange(g: Geometry, files: map<int, File>, chains: map<int, Chain>, homes: map<int, int>, f: int, file: File, ch: Chain)
    requires Homed(g, files, chains, homes) && f in files && !files[f].directory
    requires file.directory == files[f].directory && file.entryCluster == files[f].entryCluster && file.entryOffset == files[f].entryOffset
    ensures Homed(g, files[f := file], chains[f := ch], homes)
  {
    var files', chains' := files[f := file], chains[f := ch];
    forall h | h in files' && !files'[h].directory ensures h in homes && HomeAt(g, files', chains', h, homes[h]) {
      assert HomeAt(g, files, chains, h, homes[h]);
    }
  }

  // ---------------------------------------------------------------------------
  // Growing
  // ---------------------------------------------------------------------------

  lemma Lengthen(g: Geometry, table: seq<int>, ch: Chain, c: int, mark: int)
    requires Sound(g) && Threaded(g, table, ch) && NoRepeats(ch) && ch != [] && IsCluster(g, c) && |table| == g.clusterCount + 2
    requires table[c] == 0 && mark >= EndMark(g.bits)
    ensures var last := ch[|ch| - 1];
            IsCluster(g, last) && Threaded(g, table[c := mark][last := c], ch + [c]) && NoRepeats(ch + [c]) && c !in ch
  {
    var last, u := ch[|ch| - 1], ch + [c];
    FreeIsOutside(g, table, ch, c);
    LinkStep(g, table, ch, |ch| - 1);
    var x := last;
    assert x in ch;
    var table' := table[c := mark][last := c];
    hide Threaded;
    forall i | 0 <= i < |u| ensures LinkAt(g, table', u, i) {
      if i < |ch| {
        LinkStep(g, table, ch, i);
        var y := ch[i];
        assert y in ch;
      }
    }
    LinkIntro(g, table', u);
  }

  lemma Extend(g: Geometry, table: seq<int>, files: map<int, File>, chains: map<int, Chain>, f: int, c: int, mark: int)
    requires Catalog(g, table, files, chains) && f in files && chains[f] != [] && IsCluster(g, c)
    requires table[c] == 0 && mark >= EndMark(g.bits)
    ensures var ch := chains[f]; var last := ch[|ch| - 1];
            && IsCluster(g, last) && c !in ch
            && Catalog(g, table[c := mark][last := c], files, chains[f := ch + [c]])
  {
    CatalogAt(g, table, files, chains, f);
    var ch := chains[f];
    var last := ch[|ch| - 1];
    hide Catalog, Threaded, NoRepeats;
    Lengthen(g, table, ch, c, mark);
    var z, table' := last, table[c := mark][last := c];
    assert z in ch;
    forall h, x | h in files && h != f && x in chains[h] ensures x !in ch + [c] {
      CatalogAt(g, table, files, chains, h);
      FreeIsOutside(g, table, chains[h], c);
    }
    forall h, x | h in files && h != f && x in chains[h] && 0 <= x < |table| ensures table'[x] == table[x] {
      CatalogAt(g, table, files, chains, h);
      FreeIsOutside(g, table, chains[h], c);
    }
    CatalogChange(g, table, table', files, chains, f, files[f], ch + [c]);
    assert files[f := files[f]] == files;
  }

  lemma Begin(g: Geometry, table: seq<int>, files: map<int, File>, chains: map<int, Chain>, f: int, c: int, mark: int)
    requires Catalog(g, table, files, chains) && f in files && chains[f] == [] && IsCluster(g, c)
    requires table[c] == 0 && mark >= EndMark(g.bits)
    ensures Catalog(g, table[c := mark], files[f := files[f].(first := c)], chains[f := [c]])
  {
    CatalogAt(g, table, files, chains, f);
    forall h, x | h in files && h != f && x in chains[h] ensures x != c {
      CatalogAt(g, table, files, chains, h);
      FreeIsOutside(g, table, chains[h], c);
    }
    assert LinkAt(g, table[c := mark], [c], 0);
    CatalogChange(g, table, table[c := mark], files, chains, f, files[f].(first := c), [c]);
  }

  // ---------------------------------------------------------------------------
  // Cutting
  // ---------------------------------------------------------------------------

  // The entries of t are cleared.
  ghost predicate Cleared(table: seq<int>, table': seq<int>, t: Chain) {
    |table'| == |table| && forall x :: 0 <= x < |table| ==> table'[x] == if x in t then 0 else table[x]
  }

  // The chain keeps its first n clusters; the others become free.
  lemma Shorten(g: Geometry, table: seq<int>, table': seq<int>, files: map<int, File>, chains: map<int, Chain>,
                f: int, file: File, n: int, mark: int)
    requires Catalog(g, table, files, chains) && f in files && 0 <= n <= |chains[f]| && mark >= EndMark(g.bits)
    requires n > 0 ==> 0 <= chains[f][n - 1] < |table| && Cleared(table[chains[f][n - 1] := mark], table', chains[f][n..])
    requires n == 0 ==> Cleared(table, table', chains[f])
    requires StartsAt(file.first, chains[f][..n])
    ensures Catalog(g, table', files[f := file], chains[f := chains[f][..n]])
    ensures forall i :: n <= i < |chains[f]| ==> 0 <= chains[f][i] < |table'| && table'[chains[f][i]] == 0
  {
    CatalogAt(g, table, files, chains, f);
    var ch := chains[f];
    InRange(g, table, ch);
    hide Catalog, Threaded;
    forall i | n <= i < |ch| ensures 0 <= ch[i] < |table'| && table'[ch[i]] == 0 {
      var x := ch[i];
      assert x in ch && x in ch[n..];
    }
    forall i | 0 <= i < n ensures LinkAt(g, table', ch[..n], i) {
      LinkStep(g, table, ch, i);
      Kept(ch, n, i);
      assert i < n - 1 ==> ch[i] != ch[n - 1];
    }
    LinkIntro(g, table', ch[..n]);
    forall h, x | h in files && h != f && x in chains[h] ensures x !in ch {
      CatalogAt(g, table, files, chains, h);
      CatalogAt(g, table, files, chains, f);
    }
    assert forall x :: x in ch[..n] ==> x in ch;
    assert forall x :: x in ch[n..] ==> x in ch;
    if n > 0 {
      var y := ch[n - 1];
      assert y in ch;
    }
    CatalogChange(g, table, table', files, chains, f, file, ch[..n]);
  }

  lemma Kept(ch: Chain, n: int, i: int)
    requires NoRepeats(ch) && 0 <= i < n <= |ch|
    ensures ch[i] !in ch[n..]
  {
  }

  // ---------------------------------------------------------------------------
  // The bytes of a chain
  // ---------------------------------------------------------------------------

  ghost predicate Uniform(g: Geometry, data: seq<seq<Byte>>) {
    Sound(g) && |data| == g.clusterCount + 2 && forall c :: IsCluster(g, c) ==> |data[c]| == ClusterBytes(g)
  }

  ghost predicate Clusters(g: Geometry, ch: Chain) {
    forall i :: 0 <= i < |ch| ==> IsCluster(g, ch[i])
  }

  ghost function Contents(g: Geometry, data: seq<seq<Byte>>, ch: Chain): (s: seq<Byte>)
    requires Uniform(g, data) && Clusters(g, ch)
  {
    if ch == [] then [] else Contents(g, data, ch[..|ch| - 1]) + data[ch[|ch| - 1]]
  }

  lemma {:induction false} ContentsLength(g: Geometry, data: seq<seq<Byte>>, ch: Chain)
    requires Uniform(g, data) && Clusters(g, ch)
    ensures |Contents(g, data, ch)| == |ch| * ClusterBytes(g)
  {
    if ch != [] {
      ContentsLength(g, data, ch[..|ch| - 1]);
      assert |ch| * ClusterBytes(g) == (|ch| - 1) * ClusterBytes(g) + ClusterBytes(g);
    }
  }

  // A whole number of clusters, then the rest.
  lemma {:induction false} ContentsSplit(g: Geometry, data: seq<seq<Byte>>, ch: Chain, n: int)
    requires Uniform(g, data) && Clusters(g, ch) && 0 <= n <= |ch|
    ensures 0 <= n * ClusterBytes(g) <= |Contents(g, data, ch)|
    ensures Contents(g, data, ch)[..n * ClusterBytes(g)] == Contents(g, data, ch[..n])
  {
    ContentsLength(g, data, ch[..n]);
    if n == |ch| {
      assert ch[..n] == ch;
    } else {
      var init := ch[..|ch| - 1];
      ContentsSplit(g, data, init, n);
      assert init[..n] == ch[..n];
      var a, b := Contents(g, data, init), data[ch[|ch| - 1]];
      assert (a + b)[..n * ClusterBytes(g)] == a[..n * ClusterBytes(g)];
    }
  }

  // Cluster i of the chain is this stretch of its contents.
  lemma {:induction false} ContentsAt(g: Geometry, data: seq<seq<Byte>>, ch: Chain, i: int)
    requires Uniform(g, data) && Clusters(g, ch) && 0 <= i < |ch|
    ensures var cb := ClusterBytes(g);
            0 <= i * cb && i * cb + cb <= |Contents(g, data, ch)| && Contents(g, data, ch)[i * cb..i * cb + cb] == data[ch[i]]
  {
    var cb := ClusterBytes(g);
    ContentsSplit(g, data, ch, i + 1);
    ContentsSplit(g, data, ch, i);
    ContentsLength(g, data, ch[..i]);
    assert (i + 1) * cb == i * cb + cb;
    assert ch[..i + 1][..i] == ch[..i];
    var s := Contents(g, data, ch);
    assert s[..i * cb + cb] == s[..i * cb] + data[ch[i]];
    assert s[i * cb..i * cb + cb] == s[..i * cb + cb][i * cb..];
  }

  lemma {:induction false} ContentsFrame(g: Geometry, data: seq<seq<Byte>>, data': seq<seq<Byte>>, ch: Chain)
    requires Uniform(g, data) && Uniform(g, data') && Clusters(g, ch)
    requires forall i :: 0 <= i < |ch| ==> data'[ch[i]] == data[ch[i]]
    ensures Contents(g, data', ch) == Contents(g, data, ch)
  {
    if ch != [] {
      ContentsFrame(g, data, data', ch[..|ch| - 1]);
    }
  }

  // Writing inside one cluster writes at the matching place of the contents.
  lemma {:induction false} ContentsWrite(g: Geometry, data: seq<seq<Byte>>, ch: Chain, i: int, at: int, bytes: seq<Byte>)
    requires Uniform(g, data) && Clusters(g, ch) && NoRepeats(ch) && 0 <= i < |ch| && 0 <= at && at + |bytes| <= ClusterBytes(g)
    ensures var cb := ClusterBytes(g); var data' := data[ch[i] := Splice(data[ch[i]], at, bytes)];
            && Uniform(g, data')
            && 0 <= i * cb && i * cb + cb <= |Contents(g, data, ch)|
            && Contents(g, data', ch) == Splice(Contents(g, data, ch), i * cb + at, bytes)
  {
    var cb, data' := ClusterBytes(g), data[ch[i] := Splice(data[ch[i]], at, bytes)];
    ContentsAt(g, data, ch, i);
    var init, last := ch[..|ch| - 1], ch[|ch| - 1];
    ContentsLength(g, data, init);
    if i < |ch| - 1 {
      ContentsWrite(g, data, init, i, at, bytes);
      ContentsAt(g, data, init, i);
      assert data'[last] == data[last];
      SpliceLeft(Contents(g, data, init), data[last], i * cb + at, bytes);
    } else {
      ContentsFrame(g, data, data', init);
      SpliceRight(Contents(g, data, init), data[last], at, bytes);
    }
  }

  lemma SpliceLeft(a: seq<Byte>, b: seq<Byte>, at: int, t: seq<Byte>)
    requires 0 <= at && at + |t| <= |a|
    ensures Splice(a + b, at, t) == Splice(a, at, t) + b
  {
  }

  lemma SpliceRight(a: seq<Byte>, b: seq<Byte>, at: int, t: seq<Byte>)
    requires 0 <= at && at + |t| <= |b|
    ensures Splice(a + b, |a| + at, t) == a + Splice(b, at, t)
  {
  }
}
