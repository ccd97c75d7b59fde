/** The FAT32 driver: cluster allocation, chains, directories and files over a block device. */
module Fat32 {
  import opened Prelude
  import opened FatDisk
  import opened FatEntries
  import opened FatNames
  import opened FatChains
  import opened FatVolume
  import opened FatUpdates
  import opened FatViews
  import opened FatAppend
  import opened FatPaths

  // ---------- slots of a directory, sector by sector ----------

  lemma SlotBytes(i: nat, j: nat)
    requires j < 32
    ensures (32 * i + j) / 512 == i / 16 && (32 * i + j) % 512 == 32 * (i % 16) + j
  {
    var q, r := i / 16, i % 16;
    assert i == 16 * q + r;
    assert 32 * i + j == 512 * q + (32 * r + j);
  }

  /** Slot i of a cluster is slot i mod 16 of its sector i div 16. */
  lemma SectorSlot(d: Disk, lba: nat, n: nat, i: nat)
    requires lba + n <= |d| && i < 16 * n
    ensures i / 16 < n && i < Slots(ReadSectors(d, lba, n))
    ensures EntryAt(ReadSectors(d, lba, n), i) == EntryAt(d[lba + i / 16], i % 16)
  {
    var buf := ReadSectors(d, lba, n);
    var e, f := EntryAt(buf, i), EntryAt(d[lba + i / 16], i % 16);
    forall j | 0 <= j < 32 ensures e[j] == f[j] { SlotBytes(i, j); }
  }

  /** Rewriting that sector with the slot replaced rewrites the slot of the cluster. */
  lemma SectorPut(d: Disk, lba: nat, n: nat, i: nat, e: DirEntry)
    requires lba + n <= |d| && i < 16 * n
    ensures i / 16 < n && i < Slots(ReadSectors(d, lba, n))
    ensures var k := lba + i / 16;
            ReadSectors(d[k := PutEntry(d[k], i % 16, e)], lba, n) == PutEntry(ReadSectors(d, lba, n), i, e)
  {
    var q, r := i / 16, i % 16;
    var k, buf := lba + q, ReadSectors(d, lba, n);
    var sec := d[k];
    ReadAfterSector(d, lba, n, q, PutEntry(sec, r, e));
    var got, want := ReadSectors(d[k := PutEntry(sec, r, e)], lba, n), PutEntry(buf, i, e);
    assert i == 16 * q + r;
    forall x: nat | x < 512 * n ensures got[x] == want[x] {
      SectorIndex(x, q);
      assert buf[x] == d[lba + x / 512][x % 512];
    }
  }

  /** The first FAT sector holds words 0..127. */
  lemma FirstSector(d: Disk, g: Geometry)
    requires g.Fits(|d|)
    ensures |ImageOf(d, g).fat| >= 128 && forall i: nat :: i < 128 ==> ImageOf(d, g).fat[i] == U32(d[g.fatStart], i)
  {
    hide U32;
    forall i: nat | i < 128 ensures FatOf(d, g)[i] == U32(d[g.fatStart], i) {
      assert i / 128 == 0 && i % 128 == i;
    }
  }

  lemma FirstFreeStep(fat: seq<nat>, i: nat)
    requires |fat| >= 128 && i <= 128
    ensures FirstFree(fat, i) == if i == 128 then None else if fat[i] == 0 then Some(i) else FirstFree(fat, i + 1)
  {}

  class Fat32Driver {
    var disk: Disk
    const g: Geometry
    ghost var vol: Volume

    constructor (disk: Disk, g: Geometry, ghost vol: Volume)
      requires g.Fits(|disk|)
      ensures this.disk == disk && this.g == g && this.vol == vol
    {
      this.disk := disk;
      this.g := g;
      this.vol := vol;
    }

    /** The device holds the volume `vol`, and the links of the clusters the driver allocates stay among them. */
    ghost predicate Inv()
      reads this
    {
      Ok() && Closed(Img().fat, 128) && VolInv(Img(), Y(), vol)
    }

    /** Cluster 0 stands for the root directory. */
    function Home(parent: nat): nat { if parent == 0 then g.root else parent }

    /** A live directory, as callers name it. */
    ghost predicate Live(parent: nat)
      reads this
    {
      parent == 0 || parent in vol.dirs
    }

    /** What the directory form `key` leads to in directory d. */
    ghost function Look(d: nat, key: seq<byte>): Option<Node>
      requires Inv() && d in vol.dirs
      reads this
    {
      Lookup(Img(), Y(), vol, d, key)
    }

    lemma HomeBounds(parent: nat)
      requires Inv() && Live(parent)
      ensures 2 <= Home(parent) < 128 && Home(parent) in vol.dirs && Img().fat[Home(parent)] == EOC
      ensures |Img().data| == 128 && |Img().data[Home(parent)]| == g.ClusterBytes()
    {
      VolParts(Img(), Y(), vol);
      DirTails(Img(), Y(), vol, Home(parent));
    }

    ghost predicate Ok()
      reads this
    {
      g.Fits(|disk|)
    }

    ghost function Img(): Image
      requires Ok()
      reads this
    {
      ImageOf(disk, g)
    }

    ghost function Y(): Layout { Layout(g.ClusterBytes(), g.root) }

    /** The agreement of the two FAT copies, on their first n sectors. */
    ghost predicate InStep(n: nat)
      requires Ok()
      reads this
    {
      Mirrored(disk, g, n)
    }

    /** Past the first sector of each, both FAT copies are those of d. */
    ghost predicate Far(d: Disk)
      reads this
    {
      FarSame(d, disk, g)
    }

    lemma ImgWf()
      requires Ok()
      ensures Wf(Img(), Y()) && |Img().fat| == 128 * g.fatSz
    {
      assert forall c: nat :: 2 <= c < 128 ==> |Img().data[c]| == g.ClusterBytes();
    }

    // ---------- the file allocation table ----------

    /** The lowest free cluster of the first FAT sector, marked as the end of a chain; 0 if there is none. */
    method AllocateCluster() returns (c: nat)
      requires Ok()
      modifies this`disk
      ensures Ok() && |old(Img()).fat| >= 128
      ensures c == 0 <==> FirstFree(old(Img()).fat, 2).None?
      ensures c == 0 || (2 <= c < 128 && old(Img()).fat[c] == 0)
      ensures forall k: nat :: 2 <= k < (if c == 0 then 128 else c) ==> old(Img()).fat[k] != 0
      ensures c == 0 ==> disk == old(disk)
      ensures c != 0 ==>
                FirstFree(old(Img()).fat, 2) == Some(c) && Img() == old(Img()).(fat := old(Img()).fat[c := 0x0FFF_FFFF])
      ensures forall n: nat :: old(InStep(n)) ==> InStep(n)
      ensures forall d: Disk :: old(Far(d)) ==> Far(d)
    {
      hide U32, PutU32, ImageOf, Mirrored, FirstFree;
      assert |Img().fat| >= 128 by { ImgWf(); }
      var buf := disk[g.fatStart];
      c := ScanFree(buf);
      if c != 0 {
        FatWord(disk, g, c, EOC);
        assert c / 128 == 0 && c % 128 == c;
        buf := PutU32(buf, c, EOC);
        disk := disk[g.fatStart := buf];
        disk := disk[g.fatStart + g.fatSz := buf];
      }
    }

    /** The scan of the first FAT sector for a zero word. */
    method ScanFree(buf: Sector) returns (c: nat)
      requires Ok() && buf == disk[g.fatStart]
      ensures |Img().fat| >= 128 && (c == 0 <==> FirstFree(Img().fat, 2).None?)
              && (c != 0 ==> FirstFree(Img().fat, 2) == Some(c))
    {
      hide U32, ImageOf, FirstFree;
      ghost var fat := Img().fat;
      FirstSector(disk, g);
      var i := 2;
      while i < 128
        invariant 2 <= i <= 128 && FirstFree(fat, i) == FirstFree(fat, 2)
      {
        FirstFreeStep(fat, i);
        if U32(buf, i) == 0 {
          return i;
        }
        i := i + 1;
      }
      FirstFreeStep(fat, 128);
      return 0;
    }

    /** Writes the link of one cluster into both FAT copies. */
    method LinkCluster(current: nat, next: nat)
      requires Ok() && current < 128 * g.fatSz && next < 0x1_0000_0000
      modifies this`disk
      ensures Ok() && Img() == old(Img()).(fat := old(Img()).fat[current := next])
      ensures forall n: nat :: old(InStep(n)) ==> InStep(n)
      ensures current < 128 ==> forall d: Disk :: old(Far(d)) ==> Far(d)
    {
      hide U32, PutU32, ImageOf, Mirrored;
      FatWord(disk, g, current, next);
      var lba := g.fatStart + current / 128;
      var buf := PutU32(disk[lba], current % 128, next);
      disk := disk[lba := buf];
      disk := disk[lba + g.fatSz := buf];
      assert disk == FatWritten(old(disk), g, current / 128, buf);
    }

    method GetNextCluster(current: nat) returns (next: nat)
      requires Ok() && current < 128 * g.fatSz
      ensures next == Next(Img().fat, current) == Img().fat[current] % 0x1000_0000
    {
      assert Img().fat[current] == U32(disk[g.fatStart + current / 128], current % 128);
      next := U32(disk[g.fatStart + current / 128], current % 128) % 0x1000_0000;
    }

    /** Follows the links from `start` and zeroes them. It ends on every table whose links stay inside the table (or
        inside its first n words, if it starts there), cyclic ones included, and zeroes exactly the clusters met. */
    method FreeChain(start: nat, ghost n: nat)
      requires Ok() && Closed(Img().fat, n) && (Cluster(start) ==> start < n)
      modifies this`disk
      ensures Ok() && Img().data == old(Img()).data && |Img().fat| == |old(Img()).fat|
      ensures forall c: nat :: c < |Img().fat| ==>
                Img().fat[c] == if Reached(old(Img()).fat, start, c) then 0 else old(Img()).fat[c]
      ensures forall k: nat :: old(InStep(k)) ==> InStep(k)
      ensures n <= 128 ==> forall d: Disk :: old(Far(d)) ==> Far(d)
    {
      ghost var fat := Img().fat;
      ghost var visited: set<nat> := {};
      SweepStart(fat, n, start);
      var current := start;
      while current >= 2 && current < 0x0FFF_FFF8
        invariant Ok() && Img().data == old(Img()).data && |Img().fat| == |fat|
        invariant Sweep(fat, n, start, visited, current) && ZeroedAt(fat, Img().fat, visited)
        invariant forall k: nat :: old(InStep(k)) ==> InStep(k)
        invariant n <= 128 ==> forall d: Disk :: old(Far(d)) ==> Far(d)
        decreases Linked(Img().fat), if Cluster(current) then 1 else 0
      {
        SweepStep(fat, Img().fat, n, start, visited, current);
        var next := GetNextCluster(current);
        LinkCluster(current, 0);
        visited := visited + {current};
        current := next;
      }
      SweepDone(fat, n, start, visited, current);
    }

    // ---------- clusters ----------

    method ReadCluster(c: nat) returns (buf: seq<byte>)
      requires Ok() && 2 <= c < 128
      ensures buf == Img().data[c] && |buf| == g.ClusterBytes()
    {
      LbaBounds(g, c);
      buf := ReadSectors(disk, g.Lba(c), g.spc);
    }

    method WriteCluster(c: nat, buf: seq<byte>)
      requires Ok() && 2 <= c < 128 && |buf| == g.ClusterBytes()
      modifies this`disk
      ensures Ok() && Img() == old(Img()).(data := old(Img()).data[c := buf])
      ensures forall n: nat :: old(InStep(n)) ==> InStep(n)
      ensures forall d: Disk :: old(Far(d)) ==> Far(d)
    {
      LbaBounds(g, c);
      disk := WriteSectors(disk, g.Lba(c), g.spc, buf);
      ReadAfterWrite(old(disk), g.Lba(c), g.spc, buf);
      ClusterChanged(old(disk), disk, g, c);
    }

    /** Writes back the one sector that holds slot idx of directory dir, with the slot replaced. */
    method WriteSlot(dir: nat, idx: nat, e: DirEntry)
      requires Ok() && 2 <= dir < 128 && idx < 16 * g.spc
      modifies this`disk
      ensures Ok() && idx < Slots(old(Img()).data[dir]) && Img() == WithSlot(old(Img()), Ref(dir, idx), e)
      ensures forall n: nat :: old(InStep(n)) ==> InStep(n)
      ensures forall d: Disk :: old(Far(d)) ==> Far(d)
    {
      LbaBounds(g, dir);
      var lba := g.Lba(dir);
      SectorPut(disk, lba, g.spc, idx, e);
      disk := disk[lba + idx / 16 := PutEntry(disk[lba + idx / 16], idx % 16, e)];
      ClusterChanged(old(disk), disk, g, dir);
    }

    // ---------- writing data ----------

    /** One round of the write loops: a new cluster behind `prev` (0: none yet), filled with buf. */
    method PutCluster(prev: nat, buf: seq<byte>) returns (c: nat)
      requires Ok() && prev < 128 && |buf| == g.ClusterBytes()
      modifies this`disk
      ensures Ok() && |old(Img()).fat| >= 128 && |old(Img()).data| == 128
      ensures c == 0 ==> FirstFree(old(Img()).fat, 2).None? && disk == old(disk)
      ensures c != 0 ==>
                && 2 <= c < 128 && old(Img()).fat[c] == 0
                && Img() == Grow(old(Img()), if prev == 0 then None else Some(prev), c, buf)
      ensures forall n: nat :: old(InStep(n)) ==> InStep(n)
      ensures forall d: Disk :: old(Far(d)) ==> Far(d)
    {
      hide ImageOf;
      ImgWf();
      c := AllocateCluster();
      if c == 0 {
        return;
      }
      if prev != 0 {
        LinkCluster(prev, c);
      }
      WriteCluster(c, buf);
    }

    /** The write loops of `WriteFile` and `AppendFile`: one cluster of data per round, each linked behind the one
        before, the first behind the end of `base`. They stop early, leaving the clusters taken, when no cluster is
        left. */
    method WriteClusters(data: seq<byte>, start: nat, ghost base: seq<nat>)
      returns (done: bool, first: nat, last: nat, ghost ext: seq<nat>)
      requires Ok() && (base == [] <==> start == 0) && (base != [] ==> IsChain(Img().fat, base) && start == Last(base))
      modifies this`disk
      ensures Ok() && Extended(old(Img()), Img(), base, ext)
      ensures forall n: nat :: old(InStep(n)) ==> InStep(n)
      ensures forall d: Disk :: old(Far(d)) ==> Far(d)
      ensures done <==> |FreeClusters(old(Img()).fat)| >= Ceil(|data|, g.ClusterBytes())
      ensures ext != [] ==> first == ext[0]
      ensures Tail(base, ext) == if last == 0 then None else Some(last)
      ensures done ==> Stored(Img(), ext, g.ClusterBytes(), data) && |ext| == Ceil(|data|, g.ClusterBytes())
      ensures !done ==> |ext| < Ceil(|data|, g.ClusterBytes()) && Room() == 0
    {
      hide Extended, ImageOf, FreeClusters, Stored, Grow, IsChain;
      ghost var a := Img();
      var cb := g.ClusterBytes();
      ImgWf();
      ExtendedStart(a, base);
      ext, first, last, done := [], 0, start, false;
      StoredNothing(a, cb, data);
      if base != [] { ChainBounds(a.fat, base); }
      var offset := 0;
      while offset < |data|
        invariant Ok() && offset <= |data| && last < 128 && (ext == [] <==> first == 0)
        invariant Extended(a, Img(), base, ext) && (ext != [] ==> first == ext[0])
        invariant Tail(base, ext) == if last == 0 then None else Some(last)
        invariant forall n: nat :: old(InStep(n)) ==> InStep(n)
        invariant forall d: Disk :: old(Far(d)) ==> Far(d)
        invariant Progress(Img(), ext, cb, data, offset)
      {
        ghost var cur := Img();
        var len := if |data| - offset > cb then cb else |data| - offset;
        var buf := data[offset..offset + len] + seq(cb - len, _ => 0);
        var c := PutCluster(last, buf);
        if c == 0 {
          OutOfClusters(a, cur, base, ext, cb, offset, |data|);
          return;
        }
        StoreRound(a, cur, base, ext, cb, data, offset, len, c, buf);
        ext := ext + [c];
        if first == 0 {
          first := c;
        }
        last := c;
        offset := offset + len;
      }
      assert data[..offset] == data;
      ExtendedFree(a, Img(), base, ext);
      done := true;
    }

    // ---------- directories ----------

    /** The first slot of a sector that may be taken; 16 if there is none. */
    method ScanVacant(sec: Sector) returns (i: nat)
      ensures i <= 16 && (forall j: nat :: j < i ==> !Vacant(EntryAt(sec, j))) && (i < 16 ==> Vacant(EntryAt(sec, i)))
    {
      i := 0;
      while i < 16
        invariant i <= 16 && forall j: nat :: j < i ==> !Vacant(EntryAt(sec, j))
      {
        if sec[32 * i] == 0 || sec[32 * i] == DELETED {
          return;
        }
        i := i + 1;
      }
    }

    /** Writes a new entry into the first vacant slot of the directory; a full directory is left as it is. */
    method AddDirectoryEntry(name: seq<byte>, start: nat, size: nat, attr: byte, parent: nat)
      returns (ghost slot: Option<nat>)
      requires Ok() && |name| == 11 && start < 0x1_0000_0000 && size < 0x1_0000_0000 && 2 <= Home(parent) < 128
      modifies this`disk
      ensures Ok() && slot == FirstVacant(old(Img()).data[Home(parent)], 0)
      ensures slot.Some? ==> FreeAt(old(Img()).data[Home(parent)], slot.value)
      ensures forall j: nat :: slot.None? || j < slot.value ==> !FreeAt(old(Img()).data[Home(parent)], j)
      ensures slot.None? ==> disk == old(disk)
      ensures slot.Some? ==>
                Img() == WithSlot(old(Img()), Ref(Home(parent), slot.value), MakeEntry(name, start, size, attr))
      ensures forall n: nat :: old(InStep(n)) ==> InStep(n)
      ensures forall d: Disk :: old(Far(d)) ==> Far(d)
    {
      var dir := Home(parent);
      var lba := g.Lba(dir);
      LbaBounds(g, dir);
      ImgWf();
      hide FirstVacant, FreeAt, MakeEntry, Geometry.Lba, Vacant, EntryAt, PutEntry, NoneVacant, Mirrored;
      NoneYet(Img().data[dir]);
      VacantFound(Img().data[dir]);
      var s := 0;
      while s < g.spc
        invariant s <= g.spc && disk == old(disk)
        invariant NoneVacant(Img().data[dir], 16 * s)
      {
        var i := ScanVacant(disk[lba + s]);
        SectorScanned(disk, g, dir, s, i, disk[lba + s]);
        if i < 16 {
          VacantHere(Img().data[dir], 16 * s + i);
          slot := Some(16 * s + i);
          WriteSlot(dir, 16 * s + i, MakeEntry(name, start, size, attr));
          return;
        }
        s := s + 1;
      }
      VacantNowhere(Img().data[dir]);
      slot := None;
    }

    /** The entry scan of the lookups: skips deleted and long-name entries, stops at a slot never used. */
    method ScanNames(buf: seq<byte>, name: seq<byte>) returns (r: Option<nat>, ended: bool)
      ensures r == Find(buf, Canon(name), 0)
    {
      hide Canon;
      var i := 0;
      while i < |buf| / 32
        invariant i <= Slots(buf) && Find(buf, Canon(name), i) == Find(buf, Canon(name), 0)
      {
        var e: DirEntry := EntryAt(buf, i);
        if e[0] == 0 {
          return None, true;
        }
        if e[0] != DELETED && e[11] != LONG_NAME {
          var same := IsNameEqual(e[..11], name);
          if same {
            return Some(i), false;
          }
        }
        i := i + 1;
      }
      return None, false;
    }

    /** Looks the name up in a directory. */
    method FindDirectoryEntry(name: seq<byte>, parent: nat) returns (found: bool, entry: DirEntry, ghost idx: nat)
      requires Inv() && Live(parent)
      ensures Home(parent) in vol.dirs && Home(parent) < |Img().data|
      ensures found <==> Find(Img().data[Home(parent)], Canon(name), 0).Some?
      ensures found ==>
                && Find(Img().data[Home(parent)], Canon(name), 0) == Some(idx)
                && entry == EntryAt(Img().data[Home(parent)], idx)
                && NamedAt(Img().data[Home(parent)], Canon(name), idx)
      ensures forall j: nat :: !found || j < idx ==> !NamedAt(Img().data[Home(parent)], Canon(name), j)
    {
      hide Find, Canon, VolInv, Closed, ImageOf, NamedAt;
      HomeBounds(parent);
      NamesFound(Img(), Y(), vol, Home(parent), Canon(name));
      ImgWf();
      var current, rounds := Home(parent), 0;
      found, entry, idx := false, seq(32, _ => 0), 0;
      while current < 0x0FFF_FFF8 && current >= 2
        invariant (current == Home(parent) && rounds == 0)
                  || (current == EOC && Find(Img().data[Home(parent)], Canon(name), 0).None?)
        decreases if current == EOC then 0 else 1
      {
        if rounds > 10000 {
          break;
        }
        rounds := rounds + 1;
        var buf := ReadCluster(current);
        var r, ended := ScanNames(buf, name);
        if r.Some? {
          return true, EntryAt(buf, r.value), r.value;
        }
        if ended {
          return;
        }
        current := GetNextCluster(current);
      }
    }

    // ---------- files ----------

    /** The free clusters the driver can see. */
    ghost function Room(): nat
      requires Ok()
      reads this
    {
      |FreeClusters(Img().fat)|
    }

    /** Writes a new file. With room for it and a vacant slot, its name leads to the data, unless an earlier slot with
        the same name hides it; in every other case all names lead where they led, though clusters may be lost. */
    method WriteFile(name: seq<byte>, data: seq<byte>, parent: nat)
      returns (ghost made: bool, ghost r: Ref, ghost ext: seq<nat>)
      requires Inv() && Live(parent) && LiveName(name) && |data| < 0x1_0000_0000
      modifies this
      ensures Inv() && Home(parent) in vol.dirs && |old(Img()).data| == 128 && Home(parent) < 128
      ensures made <==>
                && data != [] && old(Room()) >= Ceil(|data|, g.ClusterBytes())
                && FirstVacant(old(Img()).data[Home(parent)], 0).Some?
      ensures FileMade(old(Img()), Img(), Y(), old(vol), vol, Home(parent), r, ext, name, data)
      ensures made == (vol != old(vol)) && (data == [] ==> disk == old(disk))
      ensures old(Room()) - Ceil(|data|, g.ClusterBytes()) <= Room()
      ensures forall n: nat :: old(InStep(n)) ==> InStep(n)
      ensures forall d: Disk :: old(Far(d)) ==> Far(d)
    {
      hide VolInv, Closed, ImageOf, FirstVacant, Find, Lookup, Content, FreeClusters, Stored, IsChain, Hidden,
           MakeEntry, SameBut, SameView, OnceKept, OnlyTook, Extended, Ceil, PutEntry, EntryAt;
      HomeBounds(parent);
      ImgWf();
      ghost var a := Img();
      made, r, ext := false, Ref(0, 0), [];
      if |data| == 0 {
        NothingWritten(a, Y(), vol);
        return;
      }
      var done, first, last;
      done, first, last, ext := WriteClusters(data, 0, []);
      ghost var b := Img();
      ImgWf();
      ExtendedClosed(a, b, [], ext);
      UnseenExtension(a, b, Y(), vol, ext);
      ExtendedFree(a, b, [], ext);
      if !done {
        return;
      }
      WrittenChain(a, b, ext, |data|, g.ClusterBytes());
      LinkCluster(last, EOC);
      assert Img().fat == b.fat;
      ghost var slot := AddDirectoryEntry(name, first, |data|, FILE, parent);
      if slot.Some? {
        made, r := true, Ref(Home(parent), slot.value);
        FileSeen(a, b, Y(), vol, r, ext, name, data);
        ExtendedTook(a, b, ext);
        vol := AddFile(vol, r, ext);
      }
    }

    /** Deletes what the name leads to, a file or a directory, and frees its clusters. */
    method DeleteFile(name: seq<byte>, parent: nat) returns (deleted: bool, ghost r: Ref)
      requires Inv() && Live(parent)
      modifies this
      ensures Inv() && |old(Img()).data| == 128 && Home(parent) < 128 && Home(parent) in old(vol).dirs
      ensures deleted <==> Find(old(Img()).data[Home(parent)], Canon(name), 0).Some?
      ensures !deleted ==> disk == old(disk) && vol == old(vol)
      ensures deleted ==> Find(old(Img()).data[Home(parent)], Canon(name), 0) == Some(r.idx) && r.dir == Home(parent)
      ensures deleted ==> Deleted(old(Img()), Img(), Y(), old(vol), vol, r, Canon(name))
      ensures old(Room()) <= Room()
      ensures forall n: nat :: old(InStep(n)) ==> InStep(n)
      ensures forall d: Disk :: old(Far(d)) ==> Far(d)
    {
      hide VolInv, Closed, ImageOf, Find, Canon, Deleted, FreeClusters;
      HomeBounds(parent);
      ImgWf();
      r := Ref(0, 0);
      var current := Home(parent);
      while current < 0x0FFF_FFF8
        invariant disk == old(disk) && vol == old(vol)
        invariant current == Home(parent) || (current == EOC && Find(Img().data[Home(parent)], Canon(name), 0).None?)
        decreases if current == EOC then 0 else 1
      {
        var buf := ReadCluster(current);
        var f, ended := ScanNames(buf, name);
        if f.Some? {
          r := Ref(current, f.value);
          RemoveEntry(current, f.value, EntryAt(buf, f.value), name);
          return true, r;
        }
        current := GetNextCluster(current);
      }
      return false, r;
    }

    /** The part of `DeleteFile` after the entry was found. */
    method RemoveEntry(dir: nat, idx: nat, e: DirEntry, ghost name: seq<byte>)
      requires Inv() && dir in vol.dirs && 2 <= dir < 128 && |Img().data| == 128
      requires Find(Img().data[dir], Canon(name), 0) == Some(idx) && e == EntryAt(Img().data[dir], idx)
      modifies this
      ensures Inv() && Deleted(old(Img()), Img(), Y(), old(vol), vol, Ref(dir, idx), Canon(name))
      ensures old(Room()) <= Room()
      ensures forall n: nat :: old(InStep(n)) ==> InStep(n)
      ensures forall d: Disk :: old(Far(d)) ==> Far(d)
    {
      hide VolInv, Closed, ImageOf, Find, Canon, Deleted, FreeClusters, IsChain, Reached, FatEntries.StartOf, Vacant;
      ghost var a, v, r := Img(), vol, Ref(dir, idx);
      ImgWf();
      FoundEntry(a, Y(), v, r, name);
      ghost var chain := ChainAt(v, r);
      var start := StartOf(e);
      assert idx < 16 * g.spc;
      if start != 0 {
        FreeChain(start, 128);
      }
      ghost var b := Img();
      ChainReleased(a, b, chain);
      WriteSlot(dir, idx, e[0 := DELETED]);
      vol := if r in v.files then DropFile(v, r) else DropDir(v, r, v.subs[r]);
      DeletedHolds(a, b, Img(), Y(), v, vol, r, Canon(name));
      ReleasedClosed(a, b, chain);
    }

    /** Makes an empty directory. When its parent has no vacant slot the new cluster is returned all the same, but no
        name leads to it. */
    method CreateDirectory(name: seq<byte>, parent: nat) returns (c: nat, ghost slot: Option<nat>)
      requires Inv() && Live(parent) && LiveName(name)
      modifies this
      ensures Inv() && |old(Img()).data| == 128 && Home(parent) < 128 && Home(parent) in old(vol).dirs
      ensures c == 0 <==> old(Room()) == 0
      ensures c == 0 ==> disk == old(disk) && vol == old(vol)
      ensures c != 0 ==> slot == FirstVacant(old(Img()).data[Home(parent)], 0) && 2 <= c < 128 && c !in old(vol).dirs
      ensures c != 0 ==> DirMade(old(Img()), Img(), Y(), old(vol), vol, Home(parent), slot, c, name)
      ensures c != 0 ==> |Img().data| == 128 && DotsAre(Img().data[c], c, parent)
      ensures Room() == if c == 0 then old(Room()) else old(Room()) - 1
      ensures forall n: nat :: old(InStep(n)) ==> InStep(n)
      ensures forall d: Disk :: old(Far(d)) ==> Far(d)
    {
      hide VolInv, Closed, ImageOf, FirstVacant, DirMade, MakeEntry, FreeClusters, PutEntry, EntryAt, Extended,
           FreshDir, DotsAre, LeadsUp;
      HomeBounds(parent);
      ImgWf();
      ghost var a := Img();
      slot := None;
      c := TakeDirCluster(parent);
      if c == 0 {
        return;
      }
      ghost var b := Img();
      ImgWf();
      ExtendedClosed(a, b, [], [c]);
      ExtendedFree(a, b, [], [c]);
      DirAdded(a, b, Y(), vol, c);
      UnseenExtension(a, b, Y(), vol, [c]);
      NamesHome(b.data[c], c, parent, Home(parent), g.root);
      slot := AddDirectoryEntry(name, c, 0, DIRECTORY, parent);
      DirMadeHolds(a, b, Img(), Y(), vol, Home(parent), slot, c, name);
      vol := NewDirVolume(vol, Home(parent), slot, c);
    }

    /** The first half of `CreateDirectory`: a cluster holding an empty directory. */
    method TakeDirCluster(parent: nat) returns (c: nat)
      requires Ok() && parent < 0x1_0000_0000
      modifies this`disk
      ensures Ok() && (c == 0 <==> old(Room()) == 0) && (c == 0 ==> disk == old(disk))
      ensures c != 0 ==>
                && 2 <= c < 128 && Extended(old(Img()), Img(), [], [c]) && |Img().data| == 128
                && FreshDir(Img().data[c], c) && DotsAre(Img().data[c], c, parent)
      ensures forall n: nat :: old(InStep(n)) ==> InStep(n)
      ensures forall d: Disk :: old(Far(d)) ==> Far(d)
    {
      hide ImageOf, FreeClusters, Extended, FreshDir, Mirrored, DotsAre;
      ImgWf();
      ghost var a := Img();
      FirstFreeIff(a.fat);
      c := AllocateCluster();
      if c == 0 {
        return;
      }
      var buf := NewDirCluster(c, parent);
      WriteCluster(c, buf);
      LinkCluster(c, EOC);
      TakenOne(a, Img(), c, buf);
    }

    /** The bytes of a new directory: zeros, and the two dot entries. */
    method NewDirCluster(c: nat, parent: nat) returns (buf: seq<byte>)
      requires Ok() && c < 0x1_0000_0000 && parent < 0x1_0000_0000
      ensures |buf| == g.ClusterBytes() && FreshDir(buf, c) && DotsAre(buf, c, parent)
    {
      hide PutEntry, MakeEntry;
      buf := seq(g.ClusterBytes(), _ => 0);
      assert forall i: nat :: i < Slots(buf) ==> EntryAt(buf, i)[0] == 0;
      ghost var zeros := buf;
      var dot := MakeEntry(DotName(1), c, 0, DIRECTORY);
      var dots := MakeEntry(DotName(2), parent, 0, DIRECTORY);
      MakeEntryFields(DotName(1), c, 0, DIRECTORY);
      MakeEntryFields(DotName(2), parent, 0, DIRECTORY);
      DotNames();
      buf := PutEntry(buf, 0, dot);
      ghost var one := buf;
      buf := PutEntry(buf, 1, dots);
      forall i: nat | i < Slots(buf)
        ensures EntryAt(buf, i) == if i == 0 then dot else if i == 1 then dots else EntryAt(zeros, i)
      {
        EntryAfterPut(zeros, 0, dot, i);
        EntryAfterPut(one, 1, dots, i);
      }
    }

    /** Follows a chain to its last cluster. */
    method FindLast(first: nat, ghost chain: seq<nat>) returns (last: nat)
      requires Ok() && IsChain(Img().fat, chain) && first == chain[0]
      ensures last == Last(chain)
    {
      hide ImageOf, IsChain;
      ImgWf();
      ChainBounds(Img().fat, chain);
      last := first;
      ghost var i := 0;
      while true
        invariant i < |chain| && last == chain[i]
        decreases |chain| - i
      {
        EndMark(Img().fat, chain, i);
        var next := GetNextCluster(last);
        if next >= 0x0FFF_FFF8 {
          break;
        }
        last := next;
        i := i + 1;
      }
    }

    /** Appends to the file a name leads to, or writes a new one. The entry gets the full new size, cut to 32 bits,
        even if the clusters run out. The device holds a sound volume afterwards exactly when the free clusters
        suffice, or the cut size happens to fit the chain; the file is then cut off at that size. */
    method AppendFile(name: seq<byte>, data: seq<byte>, parent: nat) returns (ghost r: Ref, ghost ext: seq<nat>)
      requires Inv() && Live(parent) && |data| < 0x1_0000_0000 && Home(parent) in vol.dirs
               && Home(parent) < |Img().data|
      requires Find(Img().data[Home(parent)], Canon(name), 0).None? ==> LiveName(name)
      requires Look(Home(parent), Canon(name)).Some? ==> Look(Home(parent), Canon(name)).value.File?
      modifies this
      ensures Ok() && |old(Img()).data| == 128 && Home(parent) in old(vol).dirs
      ensures data == [] ==> disk == old(disk)
      ensures AfterAppend(old(Img()), Img(), Y(), old(vol), vol, Home(parent), r, ext, name, data)
      ensures StaysSound(old(Img()), Y(), old(vol), Home(parent), name, data) ==> Inv()
      ensures StaysSound(old(Img()), Y(), old(vol), Home(parent), name, data) <==>
                exists w: Volume :: Home(parent) in w.dirs && VolInv(Img(), Y(), w)
      ensures old(Room()) - Ceil(|data|, g.ClusterBytes()) <= Room()
      ensures forall n: nat :: old(InStep(n)) ==> InStep(n)
      ensures forall d: Disk :: old(Far(d)) ==> Far(d)
    {
      hide VolInv, Closed, ImageOf, Find, Canon, FreeClusters, FileMade, Appended, Lookup, Content, Ceil, FirstVacant;
      HomeBounds(parent);
      ImgWf();
      r, ext := Ref(0, 0), [];
      if |data| == 0 {
        NothingWritten(Img(), Y(), vol);
        return;
      }
      var found, entry;
      ghost var idx;
      found, entry, idx := FindDirectoryEntry(name, parent);
      if !found {
        NotFound(Img(), Y(), vol, Home(parent), name);
        ghost var made;
        made, r, ext := WriteFile(name, data, parent);
        ImgWf();
        assert Home(parent) in vol.dirs && VolInv(Img(), Y(), vol);
        return;
      }
      r := Ref(Home(parent), idx);
      FoundFile(Img(), Y(), vol, r, name);
      ext := AppendTo(entry, Home(parent), r, name, data);
      assert Inv() ==> Home(parent) in vol.dirs && VolInv(Img(), Y(), vol);
    }

    /** The part of `AppendFile` after the entry was found. */
    method AppendTo(entry: DirEntry, dir: nat, ghost r: Ref, name: seq<byte>, data: seq<byte>)
      returns (ghost ext: seq<nat>)
      requires Inv() && r in vol.files && r.dir in vol.dirs && r.dir == dir < |Img().data| && |data| < 0x1_0000_0000
      requires Find(Img().data[dir], Canon(name), 0) == Some(r.idx) && entry == EntryAt(Img().data[dir], r.idx)
      modifies this
      ensures Ok() && |old(Img()).data| == 128
      ensures var was := Content(old(Img()), Y(), old(vol), r);
              var enough := Ceil(|was| + |data|, g.ClusterBytes()) <= Ceil(|was|, g.ClusterBytes()) + old(Room());
              var accounted := Accounted(|was|, |data|, g.ClusterBytes(), old(Room()));
              && |Img().fat| >= 128
                 && (enough ==> Inv() && Grown(old(Img()), Img(), Y(), old(vol), vol, r, Canon(name), data))
              && (!enough && accounted ==>
                    Inv()
                        && CutOff(old(Img()), Img(), Y(), old(vol), vol, r, Canon(name),
                           (|was| + |data|) % 0x1_0000_0000))
              && (!enough && !accounted ==> forall v: Volume :: dir in v.dirs ==> !VolInv(Img(), Y(), v))
      ensures vol.dirs == old(vol).dirs
      ensures old(Room()) - Ceil(|data|, g.ClusterBytes()) <= Room()
      ensures forall n: nat :: old(InStep(n)) ==> InStep(n)
      ensures forall d: Disk :: old(Far(d)) ==> Far(d)
    {
      hide VolInv, Closed, ImageOf, Find, Canon, FreeClusters, Appended, CutOff, Content, IsChain, Used, Fit, Ceil,
           Stored, Growing, WithSize, Mirrored, EntryAt, PutEntry;
      ghost var a, v := Img(), vol;
      ImgWf();
      FileFits(a, Y(), v, r);
      DirTails(a, Y(), v, dir);
      var done;
      done, ext := GrowChain(entry, r, data);
      ghost var b := Img();
      ImgWf();
      GrownChain(a, b, Y(), v, r, ext, data);
      GrownDir(a, b, Y(), v, r, ext);
      var size := (SizeOf(entry) + |data|) % 0x1_0000_0000;
      UpdateSize(name, dir, size);
      AppendOutcome(a, b, Y(), v, r, ext, data, Canon(name), done, size);
      AppendNeeds(a, Y(), v, r, data);
      if done || Ceil(size, g.ClusterBytes()) == |v.files[r]| + |ext| {
        vol := AddFile(v, r, v.files[r] + ext);
      }
    }

    /** The data half of `AppendFile`: fill the last cluster, then grow the chain. */
    method GrowChain(entry: DirEntry, ghost r: Ref, data: seq<byte>) returns (done: bool, ghost ext: seq<nat>)
      requires Inv() && r in vol.files && ValidRef(Img(), vol, r) && entry == SlotAt(Img(), r)
      modifies this`disk
      ensures Ok() && Growing(old(Img()), Img(), Y(), vol, r, ext, data) && Closed(Img().fat, 128)
      ensures Fit(SizeOf(entry), g.ClusterBytes(), |data|) <= |data|
      ensures var rest := data[Fit(SizeOf(entry), g.ClusterBytes(), |data|)..];
              && (done <==> old(Room()) >= Ceil(|rest|, g.ClusterBytes()))
              && (done ==> Stored(Img(), ext, g.ClusterBytes(), rest) && |ext| == Ceil(|rest|, g.ClusterBytes()))
              && (!done ==> |ext| < Ceil(|rest|, g.ClusterBytes()) && Room() == 0)
      ensures Room() == old(Room()) - |ext|
      ensures forall n: nat :: old(InStep(n)) ==> InStep(n)
      ensures forall d: Disk :: old(Far(d)) ==> Far(d)
    {
      hide VolInv, Closed, ImageOf, FreeClusters, IsChain, Ceil, Stored, Mirrored, Extended, FileEntry, Used, Fit;
      ghost var a, chain := Img(), vol.files[r];
      ImgWf();
      FileFits(a, Y(), vol, r);
      assert StartOf(entry) == chain[0] && SizeOf(entry) > 0 by { FileHead(a, Y(), vol, r); }
      var cb, size := g.ClusterBytes(), SizeOf(entry);
      var last := FindLast(StartOf(entry), chain);
      var used, fit := Used(size, cb), Fit(size, cb, |data|);
      FitNothing(size, cb, |data|);
      if cb - used > 0 {
        var buf := ReadCluster(last);
        WriteCluster(last, Overlay(buf, used, data[..fit]));
      } else {
        OverlayNothing(a.data[last], used);
      }
      ghost var m := Img();
      assert m == a.(data := a.data[last := Overlay(a.data[last], used, data[..fit])]);
      var first, prev;
      done, first, prev, ext := WriteClusters(data[fit..], last, chain);
      ghost var b := Img();
      ExtendedClosed(m, b, chain, ext);
      ExtendedFree(m, b, chain, ext);
      EndOfGrown(m, b, chain, ext);
      assert b.fat[prev] == EOC;
      LinkCluster(prev, EOC);
      assert Img().fat == b.fat;
    }

    /** Rewrites the size field of the entry the name leads to. */
    method UpdateSize(name: seq<byte>, dir: nat, size: nat)
      requires Ok() && 2 <= dir < 128 && |Img().fat| >= 128 && Img().fat[dir] == EOC && size < 0x1_0000_0000
      modifies this`disk
      ensures Ok() && |old(Img()).data| == 128
      ensures var f := Find(old(Img()).data[dir], Canon(name), 0);
              if f.None? then disk == old(disk) else
                var e := WithSize(EntryAt(old(Img()).data[dir], f.value), size);
                Img() == WithSlot(old(Img()), Ref(dir, f.value), e)
      ensures forall n: nat :: old(InStep(n)) ==> InStep(n)
      ensures forall d: Disk :: old(Far(d)) ==> Far(d)
    {
      hide ImageOf, Find, Canon, WithSize, EntryAt, PutEntry, Mirrored;
      ImgWf();
      var current := dir;
      while current < 0x0FFF_FFF8
        invariant disk == old(disk)
        invariant current == dir || (current == EOC && Find(Img().data[dir], Canon(name), 0).None?)
        decreases if current == EOC then 0 else 1
      {
        var buf := ReadCluster(current);
        var f, ended := ScanNames(buf, name);
        if f.Some? {
          WriteSlot(current, f.value, WithSize(EntryAt(buf, f.value), size));
          return;
        }
        current := GetNextCluster(current);
      }
    }

    // ---------- paths ----------

    /** Copies the next component of a path, at most fifteen characters of it. */
    method TakeSegment(p: seq<byte>) returns (seg: seq<byte>, rest: seq<byte>)
      ensures seg == Seg(p) && rest == After(p)
    {
      hide SegLen;
      seg, rest := [], p;
      while rest != [] && rest[0] != SLASH && |seg| < 15
        invariant seg + rest == p && |seg| <= 15 && |seg| + SegLen(rest, 15 - |seg|) == SegLen(p, 15)
        decreases |rest|
      {
        assert (seg + [rest[0]]) + rest[1..] == seg + rest;
        SegLenStep(rest, 15 - |seg|);
        seg, rest := seg + [rest[0]], rest[1..];
      }
      SegLenDone(rest, 15 - |seg|);
      assert seg == p[..|seg|] && rest == p[|seg|..];
    }

    /** Resolves a path to a directory entry. */
    method GetFileEntry(path: seq<byte>, base: nat) returns (found: bool, entry: DirEntry, ghost r: Ref)
      requires Inv() && Live(base)
      ensures Home(base) in vol.dirs
      ensures found <==> PathNode(Img(), Y(), vol, Home(base), path).Some?
      ensures found ==> NodeAt(Img(), Y(), vol, r, entry, PathNode(Img(), Y(), vol, Home(base), path).value)
    {
      hide VolInv, ImageOf, Closed, Find, Canon, Lookup, NodeAt, SegLen, HasDirBit, FatEntries.StartOf;
      HomeBounds(base);
      HomeBounds(0);
      var current, p := base, path;
      if p != [] && p[0] == SLASH {
        current, p := g.root, p[1..];
      } else if current == 0 {
        current := g.root;
      }
      found, entry, r := false, seq(32, _ => 0), Ref(0, 0);
      while p != []
        invariant current in vol.dirs && current != 0
        invariant Walk(Img(), Y(), vol, current, p) == PathNode(Img(), Y(), vol, Home(base), path)
        decreases |p|
      {
        Shorter(p);
        var seg, rest := TakeSegment(p);
        var hit, e;
        ghost var idx;
        hit, e, idx := FindDirectoryEntry(seg, current);
        if !hit {
          NotFound(Img(), Y(), vol, current, seg);
          return;
        }
        WalkStep(Img(), Y(), vol, Ref(current, idx), p, e);
        if rest == [] {
          return true, e, Ref(current, idx);
        }
        if !HasDirBit(e) {
          return;
        }
        current := Home(StartOf(e));
        p := Skip(rest);
      }
    }

    /** The cluster of the directory a path leads to; 0xFFFFFFFF if there is none. */
    method GetDirectoryCluster(path: seq<byte>, base: nat) returns (c: nat)
      requires Inv() && Live(base)
      ensures Home(base) in vol.dirs
      ensures path == [SLASH] ==> c == g.root
      ensures path == [] || path == [DOT] ==> c == Home(base)
      ensures path != [SLASH] && path != [] && path != [DOT] ==>
                var n := PathNode(Img(), Y(), vol, Home(base), path);
                c == if n.Some? && n.value.Dir? then n.value.cluster else 0xFFFF_FFFF
      ensures c == 0xFFFF_FFFF || c in vol.dirs
    {
      hide VolInv, ImageOf, Closed, Lookup, PathNode;
      HomeBounds(base);
      HomeBounds(0);
      if path == [SLASH] {
        return g.root;
      }
      if path == [] || path == [DOT] {
        return Home(base);
      }
      var found, entry;
      ghost var r;
      found, entry, r := GetFileEntry(path, base);
      if found && HasDirBit(entry) {
        c := StartOf(entry);
        return Home(c);
      }
      return 0xFFFF_FFFF;
    }

    /** Reads a whole file into a buffer of `space` bytes. */
    method ReadFile(path: seq<byte>, space: nat, base: nat) returns (n: nat, out: seq<byte>)
      requires Inv() && Live(base)
      ensures Home(base) in vol.dirs
      ensures match PathNode(Img(), Y(), vol, Home(base), path)
              case Some(File(content)) => if |content| <= space then n == |content| && out == content
                  else n == 0 && out == []
              case _ => n == 0 && out == []
    {
      hide VolInv, ImageOf, Closed, Lookup, PathNode, Content, NodeAt, IsChain, Ceil;
      HomeBounds(base);
      n, out := 0, [];
      var found, entry;
      ghost var r;
      found, entry, r := GetFileEntry(path, base);
      if !found {
        return;
      }
      ghost var chain := EntryBytes(Img(), Y(), vol, r, entry, PathNode(Img(), Y(), vol, Home(base), path).value);
      if SizeOf(entry) > space {
        return;
      }
      n := SizeOf(entry);
      out := ReadChain(StartOf(entry), n, chain);
    }

    /** The read loop of `ReadFile`: the first `size` bytes of a chain. */
    method ReadChain(first: nat, size: nat, ghost chain: seq<nat>) returns (out: seq<byte>)
      requires Ok()
      requires size > 0 ==> IsChain(Img().fat, chain) && first == chain[0] && |chain| == Ceil(size, g.ClusterBytes())
      ensures size == 0 ==> out == []
      ensures size > 0 ==> Chained(Img(), chain, size, out)
    {
      hide ImageOf, IsChain, Ceil, Flatten;
      ImgWf();
      var cb := g.ClusterBytes();
      var current, remaining := first, size;
      ghost var i := 0;
      out := [];
      if size > 0 { ReadStart(Img(), chain, cb, size); }
      while remaining > 0 && current < 0x0FFF_FFF8
        invariant |out| + remaining == size
        invariant size > 0 ==> Reading(Img(), chain, cb, size, out, i)
        invariant remaining > 0 ==> i < |chain| && current == chain[i]
        decreases remaining
      {
        ReadRound(Img(), chain, cb, size, out, i);
        var buf := ReadCluster(current);
        var len := if remaining > cb then cb else remaining;
        out := out + buf[..len];
        remaining := remaining - len;
        current := GetNextCluster(current);
        i := i + 1;
      }
    }

    /** Walks a path from the root and makes the directories that are missing. */
    method EnsureDirectory(path: seq<byte>) returns (c: nat)
      requires Inv() && Ascii(path)
      modifies this
      ensures Inv() && g.root in old(vol).dirs && old(vol).dirs <= vol.dirs
      ensures Lasting(old(Img()), Y(), old(vol), g.root, Skip(path)) ==> Grows(old(Img()), Img(), Y(), old(vol), vol)
      ensures Ensured(old(Img()), Img(), Y(), old(vol), vol, Skip(path), c)
      ensures c == 0 <==> Fails(old(Img()), Y(), old(vol), Skip(path), old(Room()))
      ensures c != 0 ==> Room() == old(Room()) - Needed(old(Img()), Y(), old(vol), g.root, Skip(path))
      ensures c == 0 && Miss(old(Img()), Y(), old(vol), g.root, Skip(path)).Some? ==> Room() == 0
      ensures old(Room()) == 0 ==> disk == old(disk) && vol == old(vol)
      ensures c != 0 ==> c in vol.dirs
      ensures c != 0 && Miss(old(Img()), Y(), old(vol), g.root, Skip(path)).Some? ==>
                c !in old(vol).dirs && c < |Img().data| && UpNamed(Img().data[c], c)
      ensures DirWalk(old(Img()), Y(), old(vol), g.root, Skip(path)).Some?
              || Miss(old(Img()), Y(), old(vol), g.root, Skip(path)).None? ==>
                disk == old(disk) && vol == old(vol)
      ensures forall n: nat :: old(InStep(n)) ==> InStep(n)
      ensures forall d: Disk :: old(Far(d)) ==> Far(d)
    {
      hide VolInv, ImageOf, Closed, Ensuring, Mirrored, Grows, Ensured, DirWalk, Miss, SegLen, Budget, Fails,
           FreeClusters, Lasting, Needed;
      ghost var a, v, p0 := Img(), vol, Skip(path);
      HomeBounds(0);
      AsciiParts(path);
      var current, p := g.root, Skip(path);
      ghost var started := false;
      EnsureStart(a, Y(), v, p0);
      BudgetStart(a, Y(), v, p0, Room());
      while p != []
        invariant Inv() && Ascii(p) && current in vol.dirs && current != 0
        invariant Ensuring(a, Img(), Y(), v, vol, p0, current, p, started)
        invariant Budget(a, Y(), v, p0, current, p, started, old(Room()), Room())
        invariant !started ==> disk == old(disk) && vol == old(vol)
        invariant forall n: nat :: old(InStep(n)) ==> InStep(n)
        invariant forall d: Disk :: old(Far(d)) ==> Far(d)
        decreases |p|
      {
        Shorter(p);
        AsciiParts(p);
        var seg, rest := TakeSegment(p);
        if seg == [] {
          break;
        }
        EnsuringParts(a, Img(), Y(), v, vol, p0, current, p, started);
        BudgetSpent(a, Y(), v, p0, current, p, started, old(Room()), Room());
        current, started := EnsureSegment(seg, current, a, v, p0, p, started, old(Room()));
        if current == 0 {
          return 0;
        }
        p := Skip(rest);
      }
      EnsuringParts(a, Img(), Y(), v, vol, p0, current, p, started);
      EnsureDone(a, Img(), Y(), v, vol, p0, current, p, started);
      EnsureAfforded(a, Img(), Y(), v, vol, p0, current, p, started, old(Room()), Room());
      return current;
    }

    /** One component of `EnsureDirectory`: enter the directory, or make it. */
    method EnsureSegment(seg: seq<byte>, current: nat, ghost a: Image, ghost v: Volume, ghost p0: seq<byte>,
                         ghost p: seq<byte>, ghost started: bool, ghost room: nat) returns (next: nat, ghost made: bool)
      requires Inv() && Ascii(p) && !Ends(p) && seg == Seg(p) && current in vol.dirs && current != 0
      requires Ensuring(a, Img(), Y(), v, vol, p0, current, p, started)
      requires Budget(a, Y(), v, p0, current, p, started, room, Room())
      modifies this
      ensures Inv() && (started ==> made) && (!made || next == 0 ==> disk == old(disk) && vol == old(vol))
      ensures next != 0 ==> next in vol.dirs && Ensuring(a, Img(), Y(), v, vol, p0, next, Skip(After(p)), made)
      ensures next != 0 ==> Budget(a, Y(), v, p0, next, Skip(After(p)), made, room, Room())
      ensures next == 0 ==>
                VolInv(a, Y(), v) && g.root in v.dirs && v.dirs <= vol.dirs && Ensured(a, Img(), Y(), v, vol, p0, 0)
      ensures next == 0 ==> Lasting(a, Y(), v, g.root, p0) ==> Grows(a, Img(), Y(), v, vol)
      ensures next == 0 ==> Fails(a, Y(), v, p0, room)
      ensures next == 0 && Miss(a, Y(), v, g.root, p0).Some? ==> Room() == 0
      ensures forall n: nat :: old(InStep(n)) ==> InStep(n)
      ensures forall d: Disk :: old(Far(d)) ==> Far(d)
    {
      hide VolInv, ImageOf, Closed, Find, Canon, Lookup, HasDirBit, FatEntries.StartOf, Ensuring, DirMade, To83,
           Mirrored, FirstVacant, FreeClusters, Grows, Ensured, Seg, After, Skip, Budget, Fails, DirWalk, Miss, Lasting;
      ghost var b, w := Img(), vol;
      HomeBounds(current);
      EnsuringParts(a, b, Y(), v, w, p0, current, p, started);
      made := started;
      var hit, e;
      ghost var idx;
      hit, e, idx := FindDirectoryEntry(seg, current);
      if hit {
        FoundStep(b, Y(), w, Ref(current, idx), seg, e);
        if HasDirBit(e) {
          EnsureEnter(a, b, Y(), v, w, p0, current, p, started, StartOf(e));
          BudgetEnter(a, Y(), v, p0, current, p, room, Room(), StartOf(e));
          return StartOf(e), made;
        }
        EnsureBlocked(a, b, Y(), v, w, p0, current, p, started, room);
        return 0, made;
      }
      NotFound(b, Y(), w, current, seg);
      var name := To83Format(seg);
      SegmentLive(p);
      ghost var slot;
      next, slot := CreateDirectory(name, current);
      if next == 0 {
        EnsureNoRoom(a, b, Y(), v, w, p0, current, p, started, room, Room());
        return 0, made;
      }
      assert UpNamed(Img().data[next], next);
      EnsureMade(a, b, Img(), Y(), v, w, vol, p0, current, p, started, slot, next);
      BudgetMade(a, b, Y(), v, w, p0, current, p, next, started, room, old(Room()));
      made := true;
    }
  }

  // ---------- helpers of the file operations ----------

  /** The outcome of writing a file into directory d. Either nothing a caller sees changed, or the file is in the first
      vacant slot r: its name leads to the data unless an earlier slot hides it, and every other name leads where it
      led. */
  ghost predicate FileMade(a: Image, c: Image, y: Layout, v: Volume, v': Volume, d: nat, r: Ref, ext: seq<nat>,
                           name: seq<byte>, data: seq<byte>)
    requires VolInv(a, y, v) && VolInv(c, y, v') && d in v.dirs && d < |a.data| && d < |c.data|
  {
    if v' == v then SameView(a, c, y, v, v', v.dirs) && OnceKept(a, c, v.dirs, {}) else
      && v' == AddFile(v, r, ext) && r.dir == d && r !in v.files && FirstVacant(a.data[d], 0) == Some(r.idx)
      && OnlyTook(a.fat, c.fat, ext) && SameBut(a, c, y, v, v', v.dirs, d, name)
      && Lookup(c, y, v', d, name) ==
         (if Hidden(a.data[d], name, r.idx) then Lookup(a, y, v, d, name) else Some(File(data)))
      && (!Hidden(a.data[d], name, r.idx) ==> Find(c.data[d], name, 0) == Some(r.idx))
      && OnceKept(a, c, v.dirs, {(d, name)})
      && (Find(a.data[d], name, 0).None? ==> Once(c.data[d], name))
      && (FirstVacant(c.data[d], 0).Some? ==> FirstVacant(c.data[d], 0).value > r.idx)
      && ext != [] && ext[0] < 128 && |data| < 0x1_0000_0000 && |name| == 11
      && SlotIs(c, r, MakeEntry(name, ext[0], |data|, 0x20))
  }

  /** The free clusters suffice for the data, appended to what the name leads to. */
  ghost predicate Enough(a: Image, y: Layout, v: Volume, d: nat, name: seq<byte>, data: seq<byte>)
    requires VolInv(a, y, v) && d in v.dirs
  {
    var n := Lookup(a, y, v, d, Canon(name));
    data == [] || n.None? || (n.value.File? ==>
      Ceil(|n.value.content| + |data|, y.cb) <= Ceil(|n.value.content|, y.cb) + |FreeClusters(a.fat)|)
  }

  /** The outcome of `AppendFile`. A name that led nowhere is treated as by `WriteFile`. A file grows if the free
      clusters suffice. If not, it is cut off at the recorded size when that fits the chain, and when it does not, no
      volume accounts for what the device then holds. */
  ghost predicate AfterAppend(a: Image, c: Image, y: Layout, v: Volume, v': Volume, d: nat, r: Ref, ext: seq<nat>,
                              name: seq<byte>, data: seq<byte>)
    requires VolInv(a, y, v) && d in v.dirs && d < |a.data| && |c.fat| >= 128
  {
    var f, room := Find(a.data[d], Canon(name), 0), |FreeClusters(a.fat)|;
    && (data == [] ==> c == a && v' == v)
    && (data != [] && f.None? ==>
          && VolInv(c, y, v') && d < |c.data| && FileMade(a, c, y, v, v', d, r, ext, name, data)
          && (v' != v <==> room >= Ceil(|data|, y.cb) && FirstVacant(a.data[d], 0).Some?))
    && (data != [] && f.Some? ==>
          && r == Ref(d, f.value) && r in v.files
          && (Enough(a, y, v, d, name, data) ==> Grown(a, c, y, v, v', r, Canon(name), data))
          && var was := |Content(a, y, v, r)|;
             (!Enough(a, y, v, d, name, data) ==>
                if Accounted(was, |data|, y.cb, room)
                  then CutOff(a, c, y, v, v', r, Canon(name), (was + |data|) % 0x1_0000_0000)
                else forall w: Volume :: d in w.dirs ==> !VolInv(c, y, w)))
  }

  /** After the append the device holds a volume again. */
  ghost predicate StaysSound(a: Image, y: Layout, v: Volume, d: nat, name: seq<byte>, data: seq<byte>)
    requires VolInv(a, y, v) && d in v.dirs
  {
    var n := Lookup(a, y, v, d, Canon(name));
    Enough(a, y, v, d, name, data)
           || (n.Some? && n.value.File? && Accounted(|n.value.content|, |data|, y.cb, |FreeClusters(a.fat)|))
  }

  /** The file in slot r was appended to, at the cost of the clusters its new length needs. */
  ghost predicate Grown(a: Image, c: Image, y: Layout, v: Volume, v': Volume, r: Ref, key: seq<byte>, data: seq<byte>)
    requires VolInv(a, y, v) && r in v.files && r.dir in v.dirs && |c.fat| >= 128
  {
    var size := |Content(a, y, v, r)|;
    && VolInv(c, y, v') && Appended(a, c, y, v, v', r, key, data)
    && |FreeClusters(c.fat)| + Ceil(size + |data|, y.cb) == |FreeClusters(a.fat)| + Ceil(size, y.cb)
  }

  /** On a full disk, a five-byte file and an append of 2^32 - 1 bytes: the recorded size wraps to 4 and the file is
      cut off. An append of one cluster instead leaves an entry no volume accounts for. */
  lemma ShortAppendExamples(a: Image, y: Layout, v: Volume, d: nat, name: seq<byte>, data: seq<byte>)
    requires VolInv(a, y, v) && d in v.dirs && FreeClusters(a.fat) == {}
    requires var n := Lookup(a, y, v, d, Canon(name)); n.Some? && n.value.File? && |n.value.content| == 5
    ensures |data| == 0xFFFF_FFFF && y.cb <= 130560 ==>
              !Enough(a, y, v, d, name, data) && StaysSound(a, y, v, d, name, data)
    ensures |data| == y.cb < 0x1_0000_0000 - 5 ==> !StaysSound(a, y, v, d, name, data)
  {
    hide VolInv, Lookup, Canon;
    VolParts(a, y, v);
    var cb := y.cb;
    assert cb >= 512;
    hide Ceil;
    CeilUnique(5, cb, 1);
    CeilUnique(4, cb, 1);
    if |data| == 0xFFFF_FFFF && cb <= 130560 {
      assert (5 + |data|) % 0x1_0000_0000 == 4;
      CeilBounds(5 + |data|, cb);
      if Ceil(5 + |data|, cb) <= 1 { Rows(Ceil(5 + |data|, cb), 2, cb); }
    }
    if |data| == cb {
      assert 2 * cb == cb + cb;
      CeilUnique(5 + cb, cb, 2);
    }
  }

  /** A found name that leads to a file is an entry of the volume's files. */
  lemma FoundFile(a: Image, y: Layout, v: Volume, r: Ref, name: seq<byte>)
    requires VolInv(a, y, v) && r.dir in v.dirs && r.dir < |a.data|
             && Find(a.data[r.dir], Canon(name), 0) == Some(r.idx)
    requires Lookup(a, y, v, r.dir, Canon(name)).Some? ==> Lookup(a, y, v, r.dir, Canon(name)).value.File?
    ensures r in v.files && Lookup(a, y, v, r.dir, Canon(name)) == Some(File(Content(a, y, v, r)))
  {
    hide VolInv, Canon, Content;
    FoundEntry(a, y, v, r, name);
  }

  lemma FileHead(a: Image, y: Layout, v: Volume, r: Ref)
    requires VolInv(a, y, v) && r in v.files
    ensures ValidRef(a, v, r) && v.files[r] != [] && StartOf(SlotAt(a, r)) == v.files[r][0] && SizeOf(SlotAt(a, r)) > 0
  {
    assert FileOk(a, y, v, r);
  }

  lemma FitNothing(size: nat, cb: nat, n: nat)
    requires cb > 0
    ensures Used(size, cb) == cb ==> Fit(size, cb, n) == 0
  {}

  lemma EndOfGrown(m: Image, b: Image, chain: seq<nat>, ext: seq<nat>)
    requires chain != [] && Extended(m, b, chain, ext)
    ensures Tail(chain, ext).Some? && 2 <= Tail(chain, ext).value < 128 <= |b.fat|
            && b.fat[Tail(chain, ext).value] == EOC
  {
    hide Extended;
    ExtendedChain(m, b, chain, ext);
    EndMark(b.fat, chain + ext, |chain + ext| - 1);
  }

  /** Growing a file leaves the directories alone. */
  lemma GrownDir(a: Image, b: Image, y: Layout, v: Volume, r: Ref, ext: seq<nat>)
    requires VolInv(a, y, v) && r in v.files && Regrown(a, b, v, r, ext) && r.dir in v.dirs
    ensures 2 <= r.dir < 128 && |b.fat| >= 128 && b.fat[r.dir] == EOC
  {
    hide IsChain, TailUnused;
    assert DirOk(a, y, v, r.dir);
    assert FileOk(a, y, v, r);
    assert r.dir !in v.files[r];
    assert r.dir !in ext;
  }

  /** What `AppendFile` leaves, with and without enough clusters. */
  lemma AppendOutcome(a: Image, b: Image, y: Layout, v: Volume, r: Ref, ext: seq<nat>, data: seq<byte>, key: seq<byte>,
                      done: bool, size: nat)
    requires VolInv(a, y, v) && r in v.files && Growing(a, b, y, v, r, ext, data) && Wf(b, y) && y.cb <= 130560
             && |data| < 0x1_0000_0000
    requires r.dir in v.dirs && r.dir < 128 && Find(a.data[r.dir], key, 0) == Some(r.idx) && ValidRef(a, v, r)
    requires Fit(SizeOf(SlotAt(a, r)), y.cb, |data|) <= |data|
    requires var rest := data[Fit(SizeOf(SlotAt(a, r)), y.cb, |data|)..];
             if done then Stored(b, ext, y.cb, rest) && |ext| == Ceil(|rest|, y.cb) else |ext| < Ceil(|rest|, y.cb)
    requires b.data[r.dir] == a.data[r.dir] && size == (SizeOf(SlotAt(a, r)) + |data|) % 0x1_0000_0000
    ensures var c, v' := WithSlot(b, r, WithSize(SlotAt(a, r), size)), AddFile(v, r, v.files[r] + ext);
            && c.fat == b.fat
            && (done ==> VolInv(c, y, v') && Appended(a, c, y, v, v', r, key, data))
            && (!done && Ceil(size, y.cb) == |v.files[r]| + |ext| ==>
               VolInv(c, y, v') && CutOff(a, c, y, v, v', r, key, size))
            && (!done && Ceil(size, y.cb) != |v.files[r]| + |ext| ==> forall w: Volume :: r.dir in w.dirs ==>
               !VolInv(c, y, w))
  {
    hide VolInv, Used, Fit, Ceil, Growing, Stored, WithSize, Find, Appended, CutOff, IsChain, PutEntry, EntryAt;
    if done {
      AppendHolds(a, b, y, v, r, ext, data, key);
    } else if Ceil(size, y.cb) == |v.files[r]| + |ext| {
      FileSizes(a, y, v, r, |data|);
      FileHead(a, y, v, r);
      ShortSize(SizeOf(SlotAt(a, r)), |data|, y.cb, |v.files[r]|, |ext|);
      AppendCutOff(a, b, y, v, r, ext, data, key, size);
    } else {
      forall w: Volume | r.dir in w.dirs ensures !VolInv(WithSlot(b, r, WithSize(SlotAt(a, r), size)), y, w) {
        AppendShort(a, b, y, v, r, ext, data, size, w);
      }
    }
  }

  /** The clusters an append takes, in terms of the old content and the data. */
  lemma AppendNeeds(a: Image, y: Layout, v: Volume, r: Ref, data: seq<byte>)
    requires VolInv(a, y, v) && r in v.files
    ensures y.cb > 0 && ValidRef(a, v, r) && |Content(a, y, v, r)| == SizeOf(SlotAt(a, r))
            && |v.files[r]| == Ceil(SizeOf(SlotAt(a, r)), y.cb)
    ensures var size := SizeOf(SlotAt(a, r));
            var rest := |data| - Fit(size, y.cb, |data|);
            rest >= 0 && Ceil(rest, y.cb) <= Ceil(|data|, y.cb)
                && Ceil(size + |data|, y.cb) == Ceil(size, y.cb) + Ceil(rest, y.cb)
  {
    hide VolInv, Used, Fit, Ceil, Flatten;
    FileSizes(a, y, v, r, |data|);
    ContentFits(a, y, v, r);
    CeilLess(|data| - Fit(SizeOf(SlotAt(a, r)), y.cb, |data|), |data|, y.cb);
  }

  lemma CeilLess(m: nat, n: nat, cb: nat)
    requires cb > 0 && m <= n
    ensures Ceil(m, cb) <= Ceil(n, cb)
  {
    CeilBounds(m, cb);
    CeilBounds(n, cb);
    var p, q := Ceil(m, cb), Ceil(n, cb);
    if q < p { Rows(q, p, cb); }
  }

  lemma NothingWritten(a: Image, y: Layout, v: Volume)
    requires VolInv(a, y, v)
    ensures SameView(a, a, y, v, v, v.dirs) && OnceKept(a, a, v.dirs, {}) && y.cb > 0 && Ceil(0, y.cb) == 0
  {
    CeilUnique(0, y.cb, 0);
  }

  /** The chain of a completed write loop starts where the loop started and carries the end mark. */
  lemma WrittenChain(a: Image, b: Image, ext: seq<nat>, size: nat, cb: nat)
    requires Extended(a, b, [], ext) && cb > 0 && size > 0 && |ext| == Ceil(size, cb)
    ensures ext != [] && 2 <= ext[0] < 128 && 2 <= Last(ext) < 128 && b.fat[Last(ext)] == EOC
    ensures Tail([], ext) == Some(Last(ext))
  {
    CeilBounds(size, cb);
  }

  /** The names of the two dot entries, blank-padded. */
  function DotName(n: nat): (name: seq<byte>)
    requires 1 <= n <= 2
    ensures |name| == 11 && name[0] == 46
  {
    if n == 1 then [46, 32, 32, 32, 32, 32, 32, 32, 32, 32, 32] else [46, 46, 32, 32, 32, 32, 32, 32, 32, 32, 32]
  }

  // ---------- deletion ----------

  /** The clusters of the file or directory in slot r. */
  ghost function ChainAt(v: Volume, r: Ref): seq<nat>
    requires r in v.files || r in v.subs
  {
    if r in v.files then v.files[r] else [v.subs[r]]
  }

  /** The outcome of a deletion: the name is gone where it was unique, every other name of a remaining directory leads
      where it led, and the clusters of a deleted file are free again. */
  ghost predicate Deleted(a: Image, c: Image, y: Layout, v: Volume, v': Volume, r: Ref, key: seq<byte>)
    requires VolInv(a, y, v)
  {
    && (r in v.files || r in v.subs)
    && v' == (if r in v.files then DropFile(v, r) else DropDir(v, r, v.subs[r]))
    && VolInv(c, y, v') && SameBut(a, c, y, v, v', v'.dirs, r.dir, key)
    && OnceKept(a, c, v'.dirs, {})
    && ValidRef(a, v, r) && SlotIs(c, r, SlotAt(a, r)[0 := 0xE5])
    && r.dir < |a.data| && (r.dir in v'.dirs && Once(a.data[r.dir], key) ==> Lookup(c, y, v', r.dir, key) == None)
    && |c.fat| == |a.fat| && (forall x: nat :: x < |a.fat| ==> c.fat[x] == if x in ChainAt(v, r) then 0 else a.fat[x])
  }

  /** A found entry is a live file or directory: no name matches a dot entry. */
  lemma FoundEntry(a: Image, y: Layout, v: Volume, r: Ref, name: seq<byte>)
    requires VolInv(a, y, v) && r.dir in v.dirs && r.dir < |a.data|
             && Find(a.data[r.dir], Canon(name), 0) == Some(r.idx)
    ensures r in v.files || r in v.subs
    ensures IsChain(a.fat, ChainAt(v, r)) && StartOf(SlotAt(a, r)) == ChainAt(v, r)[0] && 2 <= ChainAt(v, r)[0] < 128
    ensures r in v.subs ==> r !in v.files
  {
    hide TailUnused, IsChain, Canon, VolInv, FatEntries.StartOf;
    VolParts(a, y, v);
    CanonHasNoLeadingDot(name);
    assert DirOk(a, y, v, r.dir);
    var e := SlotAt(a, r);
    assert Matches(e, Canon(name));
    assert e[0] == NameOf(e)[0];
    assert r in v.files || r in v.subs;
    if r in v.files {
      assert FileOk(a, y, v, r);
      ChainBounds(a.fat, v.files[r]);
      FileIsNotSub(a, y, v, r);
    } else {
      assert SubOk(a, y, v, r);
      assert DirOk(a, y, v, v.subs[r]);
      SingleChain(a.fat, v.subs[r]);
    }
  }

  lemma SingleChain(fat: seq<nat>, c: nat)
    requires |fat| >= 128 && 2 <= c < 128 && fat[c] == EOC
    ensures IsChain(fat, [c])
  {}

  lemma ChainReleased(a: Image, b: Image, chain: seq<nat>)
    requires IsChain(a.fat, chain) && b.data == a.data && |b.fat| == |a.fat|
    requires forall c: nat :: c < |b.fat| ==> b.fat[c] == if Reached(a.fat, chain[0], c) then 0 else a.fat[c]
    ensures Released(a, b, chain) && FreeClusters(a.fat) <= FreeClusters(b.fat)
            && |FreeClusters(a.fat)| <= |FreeClusters(b.fat)|
  {
    hide IsChain, Reached;
    assert |a.fat| >= 128 by { ChainFits(a.fat, chain); }
    forall c: nat | c < |b.fat| ensures b.fat[c] == if c in chain then 0 else a.fat[c] {
      ReachedIsChain(a.fat, chain, c);
    }
    SubsetSize(FreeClusters(a.fat), FreeClusters(b.fat));
  }

  lemma ChainFits(fat: seq<nat>, chain: seq<nat>)
    requires IsChain(fat, chain)
    ensures |fat| >= 128
  {}

  lemma DeletedHolds(a: Image, b: Image, c: Image, y: Layout, v: Volume, v': Volume, r: Ref, key: seq<byte>)
    requires VolInv(a, y, v) && (r in v.files || r in v.subs) && (r in v.subs ==> r !in v.files)
    requires Released(a, b, ChainAt(v, r)) && r.dir < |a.data| && r.idx < Slots(a.data[r.dir])
             && Matches(SlotAt(a, r), key)
    requires c == WithSlot(b, r, Gone(SlotAt(a, r)))
    requires v' == if r in v.files then DropFile(v, r) else DropDir(v, r, v.subs[r])
    ensures Deleted(a, c, y, v, v', r, key) && c.fat == b.fat && VolInv(c, y, v')
  {
    hide VolInv, OnceKept, Lookup, Once, SameBut;
    SlotWritten(b, r, Gone(SlotAt(a, r)));
    if r in v.files {
      FileGoneSeen(a, b, y, v, r);
    } else {
      DirGoneSeen(a, b, y, v, r);
    }
  }

  // ---------- new directories ----------

  ghost function NewDirVolume(v: Volume, parent: nat, slot: Option<nat>, c: nat): Volume {
    if slot.Some? then AddSub(AddDir(v, c), Ref(parent, slot.value), c) else AddDir(v, c)
  }

  /** The outcome of making a directory: it is empty, its name leads to it unless an earlier slot hides it, and every
      other name leads where it led. */
  ghost predicate DirMade(a: Image, b: Image, y: Layout, v: Volume, v': Volume, parent: nat, slot: Option<nat>, c: nat,
                          name: seq<byte>)
    requires VolInv(a, y, v) && parent in v.dirs && parent < |a.data|
  {
    && v' == NewDirVolume(v, parent, slot, c) && VolInv(b, y, v') && |b.data| == 128 && c < 128
    && SameBut(a, b, y, v, v', v.dirs, parent, name) && (forall k :: Lookup(b, y, v', c, k) == None)
    && FreshDir(b.data[c], c)
    && (slot.None? ==> SameView(a, b, y, v, v', v.dirs) && OnceKept(a, b, v.dirs, {}))
    && (slot.Some? ==>
          && |name| == 11 && SlotIs(b, Ref(parent, slot.value), MakeEntry(name, c, 0, 0x10))
          && Lookup(b, y, v', parent, name) ==
             (if Hidden(a.data[parent], name, slot.value) then Lookup(a, y, v, parent, name) else Some(Dir(c)))
          && OnceKept(a, b, v.dirs, {(parent, name)})
             && (Find(a.data[parent], name, 0).None? ==> Once(b.data[parent], name)))
  }

  lemma TakenOne(a: Image, b: Image, c: nat, buf: seq<byte>)
    requires |a.fat| >= 128 && |a.data| == 128 && 2 <= c < 128 && a.fat[c] == 0
    requires b.fat == a.fat[c := EOC] && b.data == a.data[c := buf]
    ensures Extended(a, b, [], [c])
  {}

  lemma DirMadeHolds(a: Image, b: Image, m: Image, y: Layout, v: Volume, parent: nat, slot: Option<nat>, c: nat,
                     name: seq<byte>)
    requires VolInv(a, y, v) && Wf(b, y) && c < 128 && Extended(a, b, [], [c]) && FreshDir(b.data[c], c)
             && LiveName(name)
    requires parent in v.dirs && parent < 128 && |a.data| == 128 && slot == FirstVacant(a.data[parent], 0)
             && b.data[parent] == a.data[parent] && LeadsUp(b.data[c], parent, y.root)
    requires m == if slot.Some? then WithSlot(b, Ref(parent, slot.value), MakeEntry(name, c, 0, DIRECTORY)) else b
    ensures DirMade(a, m, y, v, NewDirVolume(v, parent, slot, c), parent, slot, c, name) && m.fat == b.fat
    ensures |m.data| == 128 && m.data[c] == b.data[c]
    ensures VolInv(m, y, NewDirVolume(v, parent, slot, c))
  {
    hide VolInv, OnceKept, Lookup, Once, Hidden, Extended, FreshDir, MakeEntry, FirstVacant, Find, Content;
    if slot.Some? {
      DirSeen(a, b, y, v, Ref(parent, slot.value), c, name);
      WithSlotOther(b, Ref(parent, slot.value), MakeEntry(name, c, 0, DIRECTORY), c);
    } else {
      OrphanSeen(a, b, y, v, c);
    }
  }

  /** ".." as the call passes it on names the directory the entry goes to. */
  lemma NamesHome(dir: seq<byte>, c: nat, parent: nat, home: nat, root: nat)
    requires DotsAre(dir, c, parent) && home == if parent == 0 then root else parent
    ensures LeadsUp(dir, home, root)
  {}

  lemma DotNames()
    ensures DotName(1) == DOT_NAME && DotName(2) == DOTS_NAME
  {}

  lemma OrphanSeen(a: Image, b: Image, y: Layout, v: Volume, c: nat)
    requires VolInv(a, y, v) && Wf(b, y) && c < 128 && Extended(a, b, [], [c]) && FreshDir(b.data[c], c)
    ensures VolInv(b, y, AddDir(v, c)) && SameView(a, b, y, v, AddDir(v, c), v.dirs) && |b.data| == 128
            && OnceKept(a, b, v.dirs, {})
    ensures forall k :: Lookup(b, y, AddDir(v, c), c, k) == None
  {
    hide VolInv, OnceKept, Lookup, Once, Hidden, Extended, FreshDir, Find, Content;
    DirAdded(a, b, y, v, c);
    UnseenExtension(a, b, y, v, [c]);
    var v' := AddDir(v, c);
    forall d, k | d in v.dirs ensures Lookup(b, y, v', d, k) == Lookup(a, y, v, d, k) {
      DirTails(a, y, v, d);
      LookupKept(a, b, y, v, v', d, k);
    }
    forall k ensures Lookup(b, y, v', c, k) == None { NewDirEmpty(a, b, y, v, v', c, k); }
  }

  // ---------- helpers of the path walks ----------

  /** The directory attribute bit. */
  predicate HasDirBit(e: DirEntry) {
    var attr: int := AttrOf(e);
    attr / 16 % 2 == 1
  }

  /** Slot r, whose entry is e, is the node n. */
  ghost predicate NodeAt(a: Image, y: Layout, v: Volume, r: Ref, e: DirEntry, n: Node)
    requires VolInv(a, y, v)
  {
    && ValidRef(a, v, r) && e == SlotAt(a, r)
    && match n
       case File(content) => r in v.files && content == Content(a, y, v, r) && !HasDirBit(e)
       case Dir(c) =>
         r in v.subs && r !in v.files && HasDirBit(e) && StartOf(e) == c && c in v.dirs && c != 0 && SizeOf(e) == 0
  }

  lemma NotFound(a: Image, y: Layout, v: Volume, d: nat, name: seq<byte>)
    requires VolInv(a, y, v) && d in v.dirs && d < |a.data| && Find(a.data[d], Canon(name), 0).None?
    ensures Lookup(a, y, v, d, Canon(name)) == None
  {
    hide VolInv, Canon, Find;
  }

  lemma FoundNode(a: Image, y: Layout, v: Volume, r: Ref, name: seq<byte>, e: DirEntry)
    requires VolInv(a, y, v) && r.dir in v.dirs && r.dir < |a.data|
             && Find(a.data[r.dir], Canon(name), 0) == Some(r.idx)
    requires e == EntryAt(a.data[r.dir], r.idx)
    ensures Lookup(a, y, v, r.dir, Canon(name)).Some?
    ensures NodeAt(a, y, v, r, e, Lookup(a, y, v, r.dir, Canon(name)).value)
  {
    hide VolInv, Canon, Content, Find, IsChain, FatEntries.StartOf;
    FoundEntry(a, y, v, r, name);
    if r in v.files {
      FileSlotUsed(a, y, v, r);
    } else {
      SubSlotUsed(a, y, v, r);
    }
  }

  /** One component of `GetFileEntry`. */
  lemma WalkStep(a: Image, y: Layout, v: Volume, r: Ref, p: seq<byte>, e: DirEntry)
    requires VolInv(a, y, v) && r.dir in v.dirs && r.dir < |a.data|
             && Find(a.data[r.dir], Canon(Seg(p)), 0) == Some(r.idx)
    requires e == EntryAt(a.data[r.dir], r.idx) && p != []
    ensures HasDirBit(e) ==> StartOf(e) != 0 && StartOf(e) in v.dirs
    ensures After(p) == [] ==>
              Walk(a, y, v, r.dir, p).Some? && NodeAt(a, y, v, r, e, Walk(a, y, v, r.dir, p).value)
    ensures After(p) != [] ==>
              Walk(a, y, v, r.dir, p) == if HasDirBit(e) then Walk(a, y, v, StartOf(e), Skip(After(p))) else None
  {
    hide VolInv, Canon, Find, Lookup, HasDirBit, FatEntries.StartOf, Content;
    FoundNode(a, y, v, r, Seg(p), e);
  }

  /** The first `size` bytes of the chain. */
  ghost predicate Chained(a: Image, chain: seq<nat>, size: nat, out: seq<byte>) {
    && (forall i :: 0 <= i < |chain| ==> chain[i] < |a.data|) && size <= |Flatten(a.data, chain)|
    && out == Flatten(a.data, chain)[..size]
  }

  /** The state of the read loop after i clusters. */
  ghost predicate Reading(a: Image, chain: seq<nat>, cb: nat, size: nat, out: seq<byte>, i: nat) {
    && IsChain(a.fat, chain) && |a.data| == 128
       && (forall j :: 0 <= j < |chain| ==> 2 <= chain[j] < 128 && |a.data[chain[j]]| == cb)
    && cb > 0 && |chain| == Ceil(size, cb) && size <= |Flatten(a.data, chain)|
    && |out| <= size && out == Flatten(a.data, chain)[..|out|] && (|out| < size ==> |out| == i * cb && i < |chain|)
  }

  lemma ReadStart(a: Image, chain: seq<nat>, cb: nat, size: nat)
    requires IsChain(a.fat, chain) && |a.data| == 128 && cb > 0 && (forall c: nat :: 2 <= c < 128 ==> |a.data[c]| == cb)
    requires |chain| == Ceil(size, cb)
    ensures Reading(a, chain, cb, size, [], 0)
  {
    hide IsChain;
    ChainBounds(a.fat, chain);
    FlattenLength(a.data, chain, cb);
    CeilBounds(size, cb);
  }

  /** One round of the read loop takes the next slice. */
  lemma ReadRound(a: Image, chain: seq<nat>, cb: nat, size: nat, out: seq<byte>, i: nat)
    requires Reading(a, chain, cb, size, out, i) && |out| < size
    ensures var len := if size - |out| > cb then cb else size - |out|;
            && len <= cb && Reading(a, chain, cb, size, out + a.data[chain[i]][..len], i + 1)
            && (|out| + len < size ==> i + 1 < |chain| && Next(a.fat, chain[i]) == chain[i + 1])
  {
    hide IsChain, Flatten, Ceil;
    var len := if size - |out| > cb then cb else size - |out|;
    FlattenAt(a.data, chain, cb, i);
    FlattenLength(a.data, chain, cb);
    var f := Flatten(a.data, chain);
    assert f[..|out| + len] == f[..|out|] + f[i * cb..i * cb + cb][..len];
    EndMark(a.fat, chain, i);
    if |out| + len < size { MoreClusters(i, |chain|, cb, size); }
  }

  lemma MoreClusters(i: nat, n: nat, cb: nat, size: nat)
    requires cb > 0 && n == Ceil(size, cb) && i * cb + cb < size
    ensures i + 1 < n && (i + 1) * cb == i * cb + cb
  {
    CeilBounds(size, cb);
    assert (i + 1) * cb == i * cb + cb;
    if n < i + 1 { Rows(n, i + 1, cb); }
  }

  /** The chain behind an entry, and what reading it must give. */
  ghost function EntryBytes(a: Image, y: Layout, v: Volume, r: Ref, e: DirEntry, n: Node): (chain: seq<nat>)
    requires VolInv(a, y, v) && NodeAt(a, y, v, r, e, n)
    ensures n.Dir? ==> SizeOf(e) == 0
    ensures n.File? ==>
              && SizeOf(e) == |n.content| && SizeOf(e) > 0 && Chained(a, chain, SizeOf(e), n.content)
              && y.cb > 0 && IsChain(a.fat, chain) && StartOf(e) == chain[0] && |chain| == Ceil(SizeOf(e), y.cb)
  {
    if n.File? then ContentFits(a, y, v, r); v.files[r] else []
  }

  // ---------- EnsureDirectory ----------

  /** What `EnsureDirectory` leaves. If the path led to a directory, that one is returned. If a file is in the way, 0 is
      returned. Otherwise directories were made, starting in the one where the first component was missing: afterwards
      the path leads to the returned one exactly when that one had a vacant slot and every component that was made is
      looked up under the name it is stored by. In all other cases a component of the path is still missing. */
  ghost predicate Ensured(a: Image, b: Image, y: Layout, v: Volume, v': Volume, p: seq<byte>, c: nat)
    requires VolInv(a, y, v) && VolInv(b, y, v') && y.root in v.dirs && v.dirs <= v'.dirs
  {
    var there, miss := DirWalk(a, y, v, y.root, p), Miss(a, y, v, y.root, p);
    && (there.Some? ==> c == there.value)
    && (there.None? && miss.None? ==> c == 0)
    && (miss.Some? ==> there.None? && miss.value in v.dirs && miss.value < |a.data|)
    && (miss.Some? ==>
          if c != 0 && FirstVacant(a.data[miss.value], 0).Some? && Lasting(a, y, v, y.root, p)
          then DirWalk(b, y, v', y.root, p) == Some(c) && Miss(b, y, v', y.root, p) == None
          else DirWalk(b, y, v', y.root, p) == None && Miss(b, y, v', y.root, p).Some?)
  }

  /** The walk of `EnsureDirectory` before (`started` false) and after the first directory was made. */
  ghost predicate Ensuring(a: Image, b: Image, y: Layout, v: Volume, v': Volume, p0: seq<byte>, current: nat,
                           p: seq<byte>, started: bool) {
    && VolInv(a, y, v) && VolInv(b, y, v') && y.root in v.dirs && v.dirs <= v'.dirs && current in v'.dirs
    && (Lasting(a, y, v, y.root, p0) ==> Grows(a, b, y, v, v'))
    && (!started ==> a == b && v == v' && Leads(a, y, v, y.root, p0, current, p))
    && (started ==>
          && DirWalk(a, y, v, y.root, p0).None? && Miss(a, y, v, y.root, p0).Some?
          && var m := Miss(a, y, v, y.root, p0).value;
             && m in v.dirs && m < |a.data| && current !in v.dirs && current < |b.data|
                && UpNamed(b.data[current], current)
                && FirstVacant(b.data[current], 0).Some?
             && (forall k :: Lookup(b, y, v', current, k) == None)
             && (if FirstVacant(a.data[m], 0).None? then SameView(a, b, y, v, v', v.dirs)
                 else if Lasting(a, y, v, y.root, p0) then Findable(p) && Leads(b, y, v', y.root, p0, current, p)
                 else Straying(b, y, v', p0, current, p)))
  }

  /** ".." of the directory names a cluster, not the 0 that stands for the root. */
  ghost predicate UpNamed(dir: seq<byte>, d: nat) { Dotted(dir, d) && UpOf(dir) != 0 }

  /** Of the components to be made, one that is looked up under another name than it is stored by is still to come, or
      it was made and the walk goes on missing it. */
  ghost predicate Straying(b: Image, y: Layout, w: Volume, p0: seq<byte>, current: nat, p: seq<byte>)
    requires VolInv(b, y, w) && y.root in w.dirs
  {
    var m := Miss(b, y, w, y.root, p0);
    (!Findable(p) && Leads(b, y, w, y.root, p0, current, p)) || (m.Some? && m.value != current)
  }

  /** The call returns 0: a file is in the way, or the free clusters are fewer than the directories to make. */
  ghost predicate Fails(a: Image, y: Layout, v: Volume, p: seq<byte>, room: nat)
    requires VolInv(a, y, v) && y.root in v.dirs
  {
    || (DirWalk(a, y, v, y.root, p).None? && Miss(a, y, v, y.root, p).None?)
    || room < Needed(a, y, v, y.root, p)
  }

  /** The clusters used so far and the components still to make add up to what is needed. */
  ghost predicate Budget(a: Image, y: Layout, v: Volume, p0: seq<byte>, current: nat, p: seq<byte>, started: bool,
                         room0: nat, room: nat) {
    && VolInv(a, y, v) && y.root in v.dirs
    && if started then room < room0 && room0 - room + Components(p) == Needed(a, y, v, y.root, p0)
       else room == room0 && current in v.dirs && Needed(a, y, v, y.root, p0) == Needed(a, y, v, current, p)
  }

  lemma BudgetStart(a: Image, y: Layout, v: Volume, p0: seq<byte>, room: nat)
    requires VolInv(a, y, v) && y.root in v.dirs
    ensures Budget(a, y, v, p0, y.root, p0, false, room, room)
  {}

  lemma BudgetSpent(a: Image, y: Layout, v: Volume, p0: seq<byte>, current: nat, p: seq<byte>, started: bool,
                    room0: nat, room: nat)
    requires Budget(a, y, v, p0, current, p, started, room0, room)
    ensures started ==> room0 > 0
  {}

  lemma BudgetEnter(a: Image, y: Layout, v: Volume, p0: seq<byte>, current: nat, p: seq<byte>, room0: nat, room: nat,
                    c: nat)
    requires Budget(a, y, v, p0, current, p, false, room0, room) && !Ends(p)
             && Lookup(a, y, v, current, Canon(Seg(p))) == Some(Dir(c))
    ensures Budget(a, y, v, p0, c, Skip(After(p)), false, room0, room)
  {
    hide VolInv, Lookup, Canon;
    LookupDir(a, y, v, current, Canon(Seg(p)));
  }

  lemma BudgetMade(a: Image, b: Image, y: Layout, v: Volume, w: Volume, p0: seq<byte>, current: nat, p: seq<byte>,
                   c: nat, started: bool, room0: nat, room: nat)
    requires Ensuring(a, b, y, v, w, p0, current, p, started) && Budget(a, y, v, p0, current, p, started, room0, room)
             && !Ends(p) && room > 0
    requires Lookup(b, y, w, current, Canon(Seg(p))) == None
    ensures Budget(a, y, v, p0, c, Skip(After(p)), true, room0, room - 1)
  {
    hide VolInv, Lookup, Canon, Leads, DirWalk, Miss, FirstVacant, Findable, Grows, SameView, Lasting, Straying;
  }

  /** A finished walk could be paid for. */
  lemma EnsureAfforded(a: Image, b: Image, y: Layout, v: Volume, v': Volume, p0: seq<byte>, current: nat, p: seq<byte>,
                       started: bool, room0: nat, room: nat)
    requires Ensuring(a, b, y, v, v', p0, current, p, started) && Ends(p)
             && Budget(a, y, v, p0, current, p, started, room0, room)
    ensures !Fails(a, y, v, p0, room0)
    ensures started ==> current !in v.dirs && room0 > 0 && current < |b.data| && UpNamed(b.data[current], current)
    ensures Miss(a, y, v, y.root, p0).Some? ==> started
    ensures room == room0 - Needed(a, y, v, y.root, p0)
  {
    hide VolInv, Lookup, Canon, FirstVacant, Findable, Grows, SameView, Lasting, Straying;
    NeededIff(a, y, v, y.root, p0);
    if !started { LeadsOn(a, y, v, y.root, p0, current, p); }
  }

  lemma EnsuringParts(a: Image, b: Image, y: Layout, v: Volume, v': Volume, p0: seq<byte>, current: nat, p: seq<byte>,
                      started: bool)
    requires Ensuring(a, b, y, v, v', p0, current, p, started)
    ensures VolInv(a, y, v) && VolInv(b, y, v') && y.root in v.dirs && v.dirs <= v'.dirs && current in v'.dirs
    ensures started ==> DirWalk(a, y, v, y.root, p0).None? && Miss(a, y, v, y.root, p0).Some?
  {
    hide VolInv, Lookup, DirWalk, Miss, Leads, Grows, Findable, FirstVacant, SameView, Lasting, Straying;
  }

  lemma SegmentLive(p: seq<byte>)
    requires Ascii(p)
    ensures LiveName(To83(Seg(p)))
  {
    AsciiParts(p);
    AsciiLive(Seg(p));
  }

  lemma EnsureStart(a: Image, y: Layout, v: Volume, p0: seq<byte>)
    requires VolInv(a, y, v) && y.root in v.dirs
    ensures Ensuring(a, a, y, v, v, p0, y.root, p0, false)
  {
    hide VolInv, Lookup;
  }

  lemma FoundStep(a: Image, y: Layout, v: Volume, r: Ref, seg: seq<byte>, e: DirEntry)
    requires VolInv(a, y, v) && r.dir in v.dirs && r.dir < |a.data| && Find(a.data[r.dir], Canon(seg), 0) == Some(r.idx)
    requires e == EntryAt(a.data[r.dir], r.idx)
    ensures var n := Lookup(a, y, v, r.dir, Canon(seg));
            if HasDirBit(e) then n == Some(Dir(StartOf(e))) && StartOf(e) in v.dirs && StartOf(e) != 0
              else n.Some? && n.value.File?
  {
    hide VolInv, Canon, Find, Lookup, HasDirBit, FatEntries.StartOf, Content;
    FoundNode(a, y, v, r, seg, e);
  }

  lemma EnsureEnter(a: Image, b: Image, y: Layout, v: Volume, v': Volume, p0: seq<byte>, current: nat, p: seq<byte>,
                    started: bool, c: nat)
    requires Ensuring(a, b, y, v, v', p0, current, p, started) && !Ends(p)
             && Lookup(b, y, v', current, Canon(Seg(p))) == Some(Dir(c))
    ensures !started && a == b && v == v' && Ensuring(a, b, y, v, v', p0, c, Skip(After(p)), started)
  {
    hide VolInv, Lookup, Canon, DirWalk, Miss, FirstVacant;
    LeadsStep(a, y, v, y.root, p0, current, p, c);
  }

  lemma EnsureBlocked(a: Image, b: Image, y: Layout, v: Volume, v': Volume, p0: seq<byte>, current: nat, p: seq<byte>,
                      started: bool, room: nat)
    requires Ensuring(a, b, y, v, v', p0, current, p, started) && !Ends(p)
    requires Lookup(b, y, v', current, Canon(Seg(p))).Some? && Lookup(b, y, v', current, Canon(Seg(p))).value.File?
    ensures !started && Ensured(a, b, y, v, v', p0, 0) && (Lasting(a, y, v, y.root, p0) ==> Grows(a, b, y, v, v'))
    ensures DirWalk(a, y, v, y.root, p0).None? && Miss(a, y, v, y.root, p0).None? && Fails(a, y, v, p0, room)
  {
    hide VolInv, Lookup, Canon, FirstVacant;
    LeadsOn(a, y, v, y.root, p0, current, p);
  }

  lemma EnsureNoRoom(a: Image, b: Image, y: Layout, v: Volume, v': Volume, p0: seq<byte>, current: nat, p: seq<byte>,
                     started: bool, room0: nat, room: nat)
    requires Ensuring(a, b, y, v, v', p0, current, p, started) && !Ends(p)
             && Lookup(b, y, v', current, Canon(Seg(p))) == None
    requires Budget(a, y, v, p0, current, p, started, room0, room) && room == 0
    ensures Ensured(a, b, y, v, v', p0, 0) && (Lasting(a, y, v, y.root, p0) ==> Grows(a, b, y, v, v'))
    ensures DirWalk(a, y, v, y.root, p0).None? && Miss(a, y, v, y.root, p0).Some?
    ensures Fails(a, y, v, p0, room0)
  {
    hide VolInv, Lookup, Canon, FirstVacant, Lasting, Findable, Grows;
    NeededIff(a, y, v, y.root, p0);
    NeededIff(b, y, v', y.root, p0);
    if !started {
      LeadsOn(a, y, v, y.root, p0, current, p);
      DirTails(a, y, v, current);
    } else if FirstVacant(a.data[Miss(a, y, v, y.root, p0).value], 0).None? {
      WalkSame(a, b, y, v, v', y.root, p0);
    } else if Leads(b, y, v', y.root, p0, current, p) {
      LeadsOn(b, y, v', y.root, p0, current, p);
    }
  }

  lemma EnsureDone(a: Image, b: Image, y: Layout, v: Volume, v': Volume, p0: seq<byte>, current: nat, p: seq<byte>,
                   started: bool)
    requires Ensuring(a, b, y, v, v', p0, current, p, started) && Ends(p) && current != 0
    ensures Ensured(a, b, y, v, v', p0, current) && (Lasting(a, y, v, y.root, p0) ==> Grows(a, b, y, v, v'))
    ensures started ==> DirWalk(a, y, v, y.root, p0).None? && Miss(a, y, v, y.root, p0).Some?
  {
    hide VolInv, Lookup, Canon, FirstVacant, Lasting, Grows;
    NeededIff(a, y, v, y.root, p0);
    NeededIff(b, y, v', y.root, p0);
    if !started {
      LeadsOn(a, y, v, y.root, p0, current, p);
    } else if FirstVacant(a.data[Miss(a, y, v, y.root, p0).value], 0).None? {
      WalkSame(a, b, y, v, v', y.root, p0);
    } else if Lasting(a, y, v, y.root, p0) {
      LeadsOn(b, y, v', y.root, p0, current, p);
    }
  }

  /** A missing component was made: b and w before, m and w' after. */
  lemma EnsureMade(a: Image, b: Image, m: Image, y: Layout, v: Volume, w: Volume, w': Volume, p0: seq<byte>,
                   current: nat, p: seq<byte>, started: bool, slot: Option<nat>, c: nat)
    requires Ensuring(a, b, y, v, w, p0, current, p, started) && !Ends(p) && current < |b.data| && c !in w.dirs
    requires Find(b.data[current], Canon(Seg(p)), 0).None? && slot == FirstVacant(b.data[current], 0)
    requires DirMade(b, m, y, w, w', current, slot, c, To83(Seg(p)))
    requires c < |m.data| && UpNamed(m.data[c], c)
    ensures Ensuring(a, m, y, v, w', p0, c, Skip(After(p)), true) && c in w'.dirs && c != 0
  {
    hide VolInv, Lookup, Canon, FirstVacant, To83, Find, FreshDir, OnceKept, DirMade, Leads, Findable, DirWalk, Miss,
         SameView, Grows, Lasting, Straying;
    MadeHolds(b, m, y, w, w', current, slot, c, Seg(p));
    if started {
      EnsureNext(a, b, m, y, v, w, w', p0, current, p, slot, c);
    } else {
      EnsureFirst(a, m, y, v, w', p0, current, p, slot, c);
    }
  }

  /** What making a directory for the missing component seg does to the lookups. */
  ghost predicate Made(b: Image, m: Image, y: Layout, w: Volume, w': Volume, current: nat, slot: Option<nat>, c: nat,
                       seg: seq<byte>) {
    && VolInv(b, y, w) && VolInv(m, y, w') && w'.dirs == w.dirs + {c} && c !in w.dirs && current in w.dirs
    && 0 < c < |m.data| && FirstVacant(m.data[c], 0).Some? && (forall k :: Lookup(m, y, w', c, k) == None)
    && SameBut(b, m, y, w, w', w.dirs, current, To83(seg))
    && (slot.None? ==> SameView(b, m, y, w, w', w.dirs))
    && (Canon(seg) == To83(seg) ==>
       Grows(b, m, y, w, w') && (slot.Some? ==> Lookup(m, y, w', current, Canon(seg)) == Some(Dir(c))))
  }

  lemma MadeHolds(b: Image, m: Image, y: Layout, w: Volume, w': Volume, current: nat, slot: Option<nat>, c: nat,
                  seg: seq<byte>)
    requires VolInv(b, y, w) && current in w.dirs && current < |b.data| && c !in w.dirs
    requires Find(b.data[current], Canon(seg), 0).None? && slot == FirstVacant(b.data[current], 0)
    requires DirMade(b, m, y, w, w', current, slot, c, To83(seg))
    ensures Made(b, m, y, w, w', current, slot, c, seg)
  {
    hide VolInv, Canon, To83, Find, FreshDir, OnceKept, FirstVacant, TailUnused, Lookup, Hidden;
    DirTails(m, y, w', c);
    VolParts(m, y, w');
    FreshVacant(m.data[c], c);
    if Canon(seg) == To83(seg) {
      DirTails(b, y, w, current);
      NotFound(b, y, w, current, seg);
      NeverHidden(b.data[current], Canon(seg));
    }
  }

  lemma FreshVacant(dir: seq<byte>, d: nat)
    requires FreshDir(dir, d) && |dir| > 0 && |dir| % 512 == 0
    ensures FirstVacant(dir, 0).Some?
  {
    assert EntryAt(dir, 2)[0] == 0;
  }

  lemma NeverHidden(dir: seq<byte>, key: seq<byte>)
    requires TailUnused(dir) && Find(dir, key, 0).None?
    ensures forall i: nat :: !Hidden(dir, key, i)
  {
    FindIsFirst(dir, key, 0);
  }

  lemma EnsureFirst(a: Image, m: Image, y: Layout, v: Volume, w': Volume, p0: seq<byte>, current: nat, p: seq<byte>,
                    slot: Option<nat>, c: nat)
    requires Ensuring(a, a, y, v, v, p0, current, p, false) && !Ends(p) && current < |a.data|
    requires Find(a.data[current], Canon(Seg(p)), 0).None? && slot == FirstVacant(a.data[current], 0)
             && Made(a, m, y, v, w', current, slot, c, Seg(p))
    requires c < |m.data| && UpNamed(m.data[c], c)
    ensures Ensuring(a, m, y, v, w', p0, c, Skip(After(p)), true)
  {
    hide VolInv, Lookup, Canon, FirstVacant, To83, Find, Leads;
    NotFound(a, y, v, current, Seg(p));
    LeadsOn(a, y, v, y.root, p0, current, p);
    if slot.Some? {
      if Canon(Seg(p)) == To83(Seg(p)) {
        LeadsGrows(a, m, y, v, w', y.root, p0, current, p);
        LeadsStep(m, y, w', y.root, p0, current, p, c);
      } else {
        assert AtLevel(v, y.root, y.root, 0);
        MissStays(a, m, y, v, w', y.root, p0, current, p, To83(Seg(p)), 0);
      }
    }
  }

  lemma EnsureNext(a: Image, b: Image, m: Image, y: Layout, v: Volume, w: Volume, w': Volume, p0: seq<byte>,
                   current: nat, p: seq<byte>, slot: Option<nat>, c: nat)
    requires Ensuring(a, b, y, v, w, p0, current, p, true) && !Ends(p) && current < |b.data|
    requires slot == FirstVacant(b.data[current], 0) && Made(b, m, y, w, w', current, slot, c, Seg(p))
    requires c < |m.data| && UpNamed(m.data[c], c)
    ensures Ensuring(a, m, y, v, w', p0, c, Skip(After(p)), true)
  {
    hide VolInv, Lookup, Canon, FirstVacant, To83, Find, Leads, DirWalk, Miss, Lasting;
    assert Grows(b, m, y, w, w');
    if FirstVacant(a.data[Miss(a, y, v, y.root, p0).value], 0).Some? {
      NextLeads(b, m, y, w, w', p0, current, p, slot, c);
    }
  }

  /** One more directory in an empty one: the walk comes to it if its name is found, and stays where it was
      otherwise. */
  lemma NextLeads(b: Image, m: Image, y: Layout, w: Volume, w': Volume, p0: seq<byte>, current: nat, p: seq<byte>,
                  slot: Option<nat>, c: nat)
    requires Made(b, m, y, w, w', current, slot, c, Seg(p)) && y.root in w.dirs && !Ends(p) && slot.Some?
             && Grows(b, m, y, w, w')
    requires Lookup(b, y, w, current, Canon(Seg(p))) == None
    ensures Leads(b, y, w, y.root, p0, current, p) && Canon(Seg(p)) == To83(Seg(p)) ==>
              Leads(m, y, w', y.root, p0, c, Skip(After(p)))
    ensures Straying(b, y, w, p0, current, p) ==> Straying(m, y, w', p0, c, Skip(After(p)))
  {
    hide VolInv, Lookup, Canon, FirstVacant, To83, Find, Leads, DirWalk, Miss;
    if Leads(b, y, w, y.root, p0, current, p) {
      LeadsGrows(b, m, y, w, w', y.root, p0, current, p);
      if Canon(Seg(p)) == To83(Seg(p)) {
        LeadsStep(m, y, w', y.root, p0, current, p, c);
      } else {
        LeadsOn(m, y, w', y.root, p0, current, p);
        MissHere(m, y, w', current, p);
      }
    }
    var e := Miss(b, y, w, y.root, p0);
    if e.Some? && e.value != current {
      NeededIff(b, y, w, y.root, p0);
      MissKept(b, m, y, w, w', y.root, p0, current);
    }
  }

  lemma MissHere(a: Image, y: Layout, v: Volume, d: nat, p: seq<byte>)
    requires VolInv(a, y, v) && d in v.dirs && !Ends(p) && Lookup(a, y, v, d, Canon(Seg(p))) == None
    ensures Miss(a, y, v, d, p) == Some(d)
  {}

  // ---------- helpers of the directory scans ----------

  ghost predicate NoneVacant(dir: seq<byte>, n: nat) {
    n <= Slots(dir) && forall j: nat :: j < n ==> !Vacant(EntryAt(dir, j))
  }

  lemma NoneYet(dir: seq<byte>)
    ensures NoneVacant(dir, 0)
  {}

  lemma VacantHere(dir: seq<byte>, n: nat)
    requires NoneVacant(dir, n) && n < Slots(dir) && Vacant(EntryAt(dir, n))
    ensures FirstVacant(dir, 0) == Some(n)
  {}

  lemma VacantNowhere(dir: seq<byte>)
    requires NoneVacant(dir, Slots(dir))
    ensures FirstVacant(dir, 0) == None
  {}

  /** What the scan of sector s says about the directory. */
  lemma SectorScanned(d: Disk, g: Geometry, dir: nat, s: nat, i: nat, sec: Sector)
    requires g.Fits(|d|) && 2 <= dir < 128 && s < g.spc && i <= 16 && g.Lba(dir) + s < |d| && sec == d[g.Lba(dir) + s]
    requires NoneVacant(DataOf(d, g)[dir], 16 * s)
    requires (forall j: nat :: j < i ==> !Vacant(EntryAt(sec, j))) && (i < 16 ==> Vacant(EntryAt(sec, i)))
    ensures NoneVacant(DataOf(d, g)[dir], 16 * s + i)
    ensures i < 16 ==> 16 * s + i < Slots(DataOf(d, g)[dir]) && Vacant(EntryAt(DataOf(d, g)[dir], 16 * s + i))
  {
    LbaBounds(g, dir);
    var lba := g.Lba(dir);
    var buf := ReadSectors(d, lba, g.spc);
    hide EntryAt, Vacant, Geometry.Lba, ReadSectors;
    assert DataOf(d, g)[dir] == buf by { assert DataOf(d, g)[dir] == ClusterOf(d, g, dir); }
    hide DataOf;
    forall k: nat | 16 * s <= k < 16 * s + 16 ensures k < Slots(buf) && EntryAt(buf, k) == EntryAt(sec, k - 16 * s) {
      SlotSplit(s, k);
      SectorSlot(d, lba, g.spc, k);
    }
  }

  lemma SlotSplit(s: nat, k: nat)
    requires 16 * s <= k < 16 * s + 16
    ensures k / 16 == s && k % 16 == k - 16 * s
  {}
}
