/** Sequences of file system operations. */
module FatRuns {
  import opened Prelude
  import opened FatDisk
  import opened FatEntries
  import opened FatNames
  import opened FatChains
  import opened FatVolume
  import opened FatUpdates
  import opened FatViews
  import opened FatAppend
  import opened FatPaths
  import opened FatFormat
  import opened Fat32
  import opened FatNamespace

  // ---------- write, append, read ----------

  function Concat(pieces: seq<seq<byte>>): seq<byte> {
    if pieces == [] then [] else Concat(pieces[..|pieces| - 1]) + pieces[|pieces| - 1]
  }

  lemma {:induction false} ConcatPrefix(pieces: seq<seq<byte>>, i: nat)
    requires i <= |pieces|
    ensures |Concat(pieces[..i])| <= |Concat(pieces)|
    decreases |pieces| - i
  {
    if i == |pieces| {
      assert pieces[..i] == pieces;
    } else {
      ConcatPrefix(pieces, i + 1);
      assert pieces[..i + 1][..i] == pieces[..i];
    }
  }

  /** A name in directory form that lookups leave as it is, and that is one component of a path. */
  predicate Stable(name: seq<byte>) { LiveName(name) && Canon(name) == name && SLASH !in name }

  /** A path of one component that leads to the name: "system.log" to "SYSTEM  LOG". */
  predicate Spells(path: seq<byte>, name: seq<byte>) {
    path != [] && |path| <= 15 && SLASH !in path && Canon(path) == name
  }

  /** Such a path is looked up in the directory itself. */
  lemma SpelledPath(a: Image, y: Layout, v: Volume, d: nat, path: seq<byte>, name: seq<byte>)
    requires VolInv(a, y, v) && d in v.dirs && Spells(path, name)
    ensures PathNode(a, y, v, d, path) == Lookup(a, y, v, d, name)
  {
    hide VolInv, Lookup, Canon;
    assert path[0] in path;
    WholeSegment(path, 15);
    assert Seg(path) == path && After(path) == [];
  }

  lemma {:induction false} WholeSegment(p: seq<byte>, n: nat)
    requires SLASH !in p && |p| <= n
    ensures SegLen(p, n) == |p|
  {
    if p != [] { WholeSegment(p[1..], n - 1); }
  }

  /** What the driver holds after the pieces so far: the file with their concatenation, and everything else as
      before. */
  ghost predicate Holding(a: Image, b: Image, y: Layout, v: Volume, v': Volume, d: nat, name: seq<byte>,
                          total: seq<byte>)
    requires VolInv(a, y, v) && d in v.dirs
  {
    if total == [] then b == a && v' == v else
      && VolInv(b, y, v') && v'.dirs == v.dirs && SameBut(a, b, y, v, v', v.dirs, d, name)
      && Lookup(b, y, v', d, name) == Some(File(total))
  }

  /** The driver holds the pieces so far, and the first image had room for `room` clusters, of which they took what they
      need. */
  ghost predicate At(fs: Fat32Driver, parent: nat, a: Image, v: Volume, name: seq<byte>, total: seq<byte>, room: nat)
    reads fs
  {
    && fs.Inv() && fs.Live(parent) && VolInv(a, fs.Y(), v) && fs.Home(parent) in v.dirs && fs.Home(parent) < |a.data|
    && FirstVacant(a.data[fs.Home(parent)], 0).Some? && Find(a.data[fs.Home(parent)], name, 0).None?
    && Holding(a, fs.Img(), fs.Y(), v, fs.vol, fs.Home(parent), name, total)
    && fs.g.ClusterBytes() > 0 && fs.Room() + Ceil(|total|, fs.g.ClusterBytes()) >= room
  }

  /** Writing a fresh name and appending to it any number of times, then reading it under any path that spells it, gives
      the concatenation of the pieces; every other name leads where it led. */
  method WriteAppendRead(fs: Fat32Driver, name: seq<byte>, pieces: seq<seq<byte>>, path: seq<byte>, space: nat,
                         parent: nat)
    returns (n: nat, out: seq<byte>)
    requires fs.Inv() && fs.Live(parent) && Stable(name) && Spells(path, name) && |Concat(pieces)| < 0x1_0000_0000
    requires fs.Home(parent) in fs.vol.dirs && fs.Home(parent) < |fs.Img().data|
             && FirstVacant(fs.Img().data[fs.Home(parent)], 0).Some?
    requires Find(fs.Img().data[fs.Home(parent)], name, 0).None?
    requires fs.Room() >= Ceil(|Concat(pieces)|, fs.g.ClusterBytes())
    modifies fs
    ensures fs.Inv() && fs.vol.dirs == old(fs.vol).dirs
    ensures |Concat(pieces)| <= space ==> n == |Concat(pieces)| && out == Concat(pieces)
    ensures SameBut(old(fs.Img()), fs.Img(), fs.Y(), old(fs.vol), fs.vol, fs.vol.dirs, fs.Home(parent), name)
    ensures forall k: nat :: old(fs.InStep(k)) ==> fs.InStep(k)
  {
    InvParts(fs);
    hide VolInv, Closed, ImageOf, Find, Lookup, Canon, FirstVacant, FreeClusters, Holding, Ceil, SameBut, PathNode,
         Mirrored, Concat, Fat32Driver.Img;
    ghost var a, v, d, y := fs.Img(), fs.vol, fs.Home(parent), fs.Y();
    PutAll(fs, name, pieces, parent);
    InvParts(fs);
    HeldView(a, fs.Img(), y, v, fs.vol, d, name, Concat(pieces));
    SpelledPath(fs.Img(), y, fs.vol, d, path, name);
    if Concat(pieces) == [] { AbsentLookup(a, y, v, d, name); }
    n, out := fs.ReadFile(path, space, parent);
  }

  /** The writing half: a new file, then appends. */
  method PutAll(fs: Fat32Driver, name: seq<byte>, pieces: seq<seq<byte>>, parent: nat)
    requires fs.Inv() && fs.Live(parent) && Stable(name) && |Concat(pieces)| < 0x1_0000_0000
    requires fs.Home(parent) in fs.vol.dirs && fs.Home(parent) < |fs.Img().data|
             && FirstVacant(fs.Img().data[fs.Home(parent)], 0).Some?
    requires Find(fs.Img().data[fs.Home(parent)], name, 0).None?
    requires fs.Room() >= Ceil(|Concat(pieces)|, fs.g.ClusterBytes())
    modifies fs
    ensures fs.Inv() && fs.Live(parent)
    ensures Holding(old(fs.Img()), fs.Img(), fs.Y(), old(fs.vol), fs.vol, fs.Home(parent), name, Concat(pieces))
    ensures forall k: nat :: old(fs.InStep(k)) ==> fs.InStep(k)
  {
    AtStart(fs, parent, name);
    ghost var a, v, room := fs.Img(), fs.vol, fs.Room();
    hide Ceil, Mirrored, At, Stable, Concat, Fat32Driver.InStep, Fat32Driver.Inv, Fat32Driver.Room, Fat32Driver.Img,
         Fat32Driver.Ok, Holding, VolInv, Find, FirstVacant;
    if pieces == [] {
      ConcatNothing();
    } else {
      ConcatStep(pieces, 0, fs.g.ClusterBytes());
      PutFirst(fs, name, pieces[0], parent, a, v, [], room);
      PutRest(fs, name, pieces, parent, a, v, room);
    }
    AtParts(fs, parent, a, v, name, Concat(pieces), room);
  }

  /** The appends. */
  method PutRest(fs: Fat32Driver, name: seq<byte>, pieces: seq<seq<byte>>, parent: nat, ghost a: Image,
                 ghost v: Volume, ghost room: nat)
    requires Stable(name) && pieces != [] && |Concat(pieces)| < 0x1_0000_0000 && fs.g.ClusterBytes() > 0
    requires room >= Ceil(|Concat(pieces)|, fs.g.ClusterBytes())
             && At(fs, parent, a, v, name, Concat(pieces[..1]), room)
    modifies fs
    ensures At(fs, parent, a, v, name, Concat(pieces), room) && fs.Ok()
    ensures forall k: nat :: old(fs.InStep(k)) ==> fs.InStep(k)
  {
    hide Ceil, Mirrored, At, Stable, Concat, Fat32Driver.InStep, Fat32Driver.Inv, Fat32Driver.Room, Fat32Driver.Img,
         Fat32Driver.Ok, Holding, VolInv, Find, FirstVacant, ImageOf, Closed, Lookup, Canon, FreeClusters;
    AtParts(fs, parent, a, v, name, Concat(pieces[..1]), room);
    var i := 1;
    while i < |pieces|
      invariant 1 <= i <= |pieces| && At(fs, parent, a, v, name, Concat(pieces[..i]), room)
      invariant fs.Ok() && forall k: nat :: old(fs.InStep(k)) ==> fs.InStep(k)
    {
      ConcatStep(pieces, i, fs.g.ClusterBytes());
      PutNext(fs, name, pieces[i], parent, a, v, Concat(pieces[..i]), room);
      i := i + 1;
    }
    assert pieces[..i] == pieces;
  }

  /** Before the first piece. */
  lemma AtStart(fs: Fat32Driver, parent: nat, name: seq<byte>)
    requires fs.Inv() && fs.Live(parent)
    requires fs.Home(parent) in fs.vol.dirs && fs.Home(parent) < |fs.Img().data|
             && FirstVacant(fs.Img().data[fs.Home(parent)], 0).Some?
    requires Find(fs.Img().data[fs.Home(parent)], name, 0).None?
    ensures fs.Ok() && |fs.Img().fat| >= 128 && fs.g.ClusterBytes() > 0
            && At(fs, parent, fs.Img(), fs.vol, name, [], fs.Room())
  {
    InvParts(fs);
    hide VolInv, ImageOf, Find, FirstVacant, Holding, Ceil, At;
    SameAsItself(fs.Img(), fs.Y(), fs.vol, fs.Home(parent), name);
    CeilNothing(fs.g.ClusterBytes());
    AtHolds(fs, parent, fs.Img(), fs.vol, name, [], fs.Room());
  }

  lemma AtParts(fs: Fat32Driver, parent: nat, a: Image, v: Volume, name: seq<byte>, total: seq<byte>, room: nat)
    requires At(fs, parent, a, v, name, total, room)
    ensures fs.Inv() && fs.Live(parent) && fs.Ok() && |fs.Img().fat| >= 128
    ensures VolInv(a, fs.Y(), v) && VolInv(fs.Img(), fs.Y(), fs.vol) && fs.Home(parent) in v.dirs
            && fs.Home(parent) < |a.data|
    ensures FirstVacant(a.data[fs.Home(parent)], 0).Some? && Find(a.data[fs.Home(parent)], name, 0).None?
    ensures Holding(a, fs.Img(), fs.Y(), v, fs.vol, fs.Home(parent), name, total)
    ensures fs.g.ClusterBytes() > 0 && fs.Room() + Ceil(|total|, fs.g.ClusterBytes()) >= room
  {
    hide Holding, Ceil, Find, FirstVacant;
  }

  lemma AtHolds(fs: Fat32Driver, parent: nat, a: Image, v: Volume, name: seq<byte>, total: seq<byte>, room: nat)
    requires fs.Inv() && fs.Live(parent)
    requires VolInv(a, fs.Y(), v) && fs.Home(parent) in v.dirs && fs.Home(parent) < |a.data|
    requires FirstVacant(a.data[fs.Home(parent)], 0).Some? && Find(a.data[fs.Home(parent)], name, 0).None?
    requires Holding(a, fs.Img(), fs.Y(), v, fs.vol, fs.Home(parent), name, total)
    requires fs.g.ClusterBytes() > 0 && fs.Room() + Ceil(|total|, fs.g.ClusterBytes()) >= room
    ensures At(fs, parent, a, v, name, total, room)
  {
    hide Holding, Ceil, Find, FirstVacant, VolInv, ImageOf;
  }

  lemma ConcatNothing()
    ensures Concat([]) == []
  {}

  lemma ConcatStep(pieces: seq<seq<byte>>, i: nat, cb: nat)
    requires i < |pieces| && cb > 0
    ensures Concat(pieces[..i + 1]) == Concat(pieces[..i]) + pieces[i] && (i == 0 ==> Concat(pieces[..i]) == [])
            && |Concat(pieces[..i + 1])| <= |Concat(pieces)|
    ensures Ceil(|Concat(pieces[..i + 1])|, cb) <= Ceil(|Concat(pieces)|, cb)
  {
    hide Ceil;
    assert pieces[..i + 1][..i] == pieces[..i];
    ConcatPrefix(pieces, i + 1);
    CeilLess(|Concat(pieces[..i + 1])|, |Concat(pieces)|, cb);
  }

  /** The first piece makes the file. */
  method PutFirst(fs: Fat32Driver, name: seq<byte>, data: seq<byte>, parent: nat,
                  ghost a: Image, ghost v: Volume, ghost total: seq<byte>, ghost room: nat)
    requires total == []
    requires Stable(name) && |total + data| < 0x1_0000_0000 && fs.g.ClusterBytes() > 0
             && room >= Ceil(|total + data|, fs.g.ClusterBytes())
    requires At(fs, parent, a, v, name, total, room)
    modifies fs
    ensures At(fs, parent, a, v, name, total + data, room) && fs.Ok()
    ensures forall k: nat :: old(fs.InStep(k)) ==> fs.InStep(k)
  {
    AtParts(fs, parent, a, v, name, total, room);
    hide VolInv, Closed, ImageOf, Find, Lookup, Canon, FirstVacant, FreeClusters, Holding, Ceil, FileMade, AfterAppend,
         Enough, Fat32Driver.Inv, Mirrored, Fat32Driver.Room, Fat32Driver.InStep, Fat32Driver.Ok, Fat32Driver.Img, At;
    ghost var b, w, d, y := fs.Img(), fs.vol, fs.Home(parent), fs.Y();
    HeldView(a, b, y, v, w, d, name, total);
    CeilNothing(fs.g.ClusterBytes());
    assert total + data == data;
    ghost var made, r, ext := fs.WriteFile(name, data, parent);
    InvParts(fs);
    if data != [] { StepNew(a, fs.Img(), y, v, fs.vol, d, r, ext, name, data); }
    else { SameAsItself(a, y, v, d, name); }
    AtHolds(fs, parent, a, v, name, total + data, room);
  }

  /** The others are appended. */
  method PutNext(fs: Fat32Driver, name: seq<byte>, data: seq<byte>, parent: nat,
                 ghost a: Image, ghost v: Volume, ghost total: seq<byte>, ghost room: nat)
    requires Stable(name) && |total + data| < 0x1_0000_0000 && fs.g.ClusterBytes() > 0
             && room >= Ceil(|total + data|, fs.g.ClusterBytes())
    requires At(fs, parent, a, v, name, total, room)
    modifies fs
    ensures At(fs, parent, a, v, name, total + data, room) && fs.Ok()
    ensures forall k: nat :: old(fs.InStep(k)) ==> fs.InStep(k)
  {
    AtParts(fs, parent, a, v, name, total, room);
    ghost var b, w, d, y := fs.Img(), fs.vol, fs.Home(parent), fs.Y();
    NextReady(a, b, y, v, w, d, name, total, data, room);
    hide VolInv, Closed, ImageOf, Find, Lookup, Canon, FirstVacant, FreeClusters, Holding, Ceil, FileMade, AfterAppend,
         Enough, Fat32Driver.Inv, Mirrored, Fat32Driver.InStep, Fat32Driver.Ok, Fat32Driver.Img, At;
    ghost var r, ext := fs.AppendFile(name, data, parent);
    InvParts(fs);
    StepNext(a, b, fs.Img(), y, v, w, fs.vol, d, r, ext, name, total, data, room);
    AtHolds(fs, parent, a, v, name, total + data, room);
  }

  /** The next append meets its demands and has enough clusters. */
  lemma NextReady(a: Image, b: Image, y: Layout, v: Volume, w: Volume, d: nat, name: seq<byte>, total: seq<byte>,
                  data: seq<byte>, room: nat)
    requires VolInv(a, y, v) && d in v.dirs && d < |a.data| && Find(a.data[d], name, 0).None? && Stable(name)
    requires Holding(a, b, y, v, w, d, name, total) && VolInv(b, y, w)
    requires |FreeClusters(b.fat)| + Ceil(|total|, y.cb) >= room >= Ceil(|total + data|, y.cb)
    ensures d in w.dirs && d < |b.data| && Enough(b, y, w, d, name, data)
    ensures var n := Lookup(b, y, w, d, Canon(name)); n.Some? ==> n.value.File?
  {
    hide VolInv, Lookup, Canon, Find, Content, Ceil, FreeClusters, Holding;
    HeldFile(a, b, y, v, w, d, name, total);
  }

  lemma StepNext(a: Image, b: Image, c: Image, y: Layout, v: Volume, w: Volume, w': Volume, d: nat, r: Ref,
                 ext: seq<nat>, name: seq<byte>, total: seq<byte>, data: seq<byte>, room: nat)
    requires VolInv(a, y, v) && d in v.dirs && d < |a.data| && Find(a.data[d], name, 0).None?
             && FirstVacant(a.data[d], 0).Some?
    requires Holding(a, b, y, v, w, d, name, total) && VolInv(b, y, w) && d in w.dirs && d < |b.data|
             && Canon(name) == name
    requires VolInv(c, y, w') && |c.fat| >= 128 && AfterAppend(b, c, y, w, w', d, r, ext, name, data)
    requires |FreeClusters(b.fat)| + Ceil(|total|, y.cb) >= room >= Ceil(|total + data|, y.cb)
    requires |FreeClusters(b.fat)| - Ceil(|data|, y.cb) <= |FreeClusters(c.fat)|
    ensures Holding(a, c, y, v, w', d, name, total + data)
    ensures |FreeClusters(c.fat)| + Ceil(|total + data|, y.cb) >= room && d in w'.dirs
  {
    hide VolInv, Lookup, Canon, Find, Content, Ceil, FirstVacant, Appended, FileMade, FreeClusters, Holding;
    HeldFile(a, b, y, v, w, d, name, total);
    HeldSame(a, b, y, v, w, d, name, total);
    CeilNothing(y.cb);
    if data == [] {
      assert total + data == total;
    } else if total == [] {
      assert total + data == data;
      StepNew(a, c, y, v, w', d, r, ext, name, data);
    } else {
      StepMore(a, b, c, y, v, w, w', d, r, name, total, data);
    }
    HeldSame(a, c, y, v, w', d, name, total + data);
  }

  lemma HeldSame(a: Image, b: Image, y: Layout, v: Volume, v': Volume, d: nat, name: seq<byte>, total: seq<byte>)
    requires VolInv(a, y, v) && d in v.dirs && Holding(a, b, y, v, v', d, name, total)
    ensures (total == [] ==> b == a && v' == v) && v'.dirs == v.dirs && y.cb > 0
  {}

  lemma CeilNothing(cb: nat)
    requires cb > 0
    ensures Ceil(0, cb) == 0
  {
    CeilUnique(0, cb, 0);
  }

  lemma HeldView(a: Image, b: Image, y: Layout, v: Volume, v': Volume, d: nat, name: seq<byte>, total: seq<byte>)
    requires VolInv(a, y, v) && d in v.dirs && Holding(a, b, y, v, v', d, name, total) && Stable(name)
    ensures VolInv(b, y, v') && v'.dirs == v.dirs && SameBut(a, b, y, v, v', v.dirs, d, name)
    ensures total != [] ==> Lookup(b, y, v', d, name) == Some(File(total))
    ensures total == [] ==> b == a && v' == v
  {
    hide VolInv, Lookup, Canon;
  }

  /** What the lookups that precede an operation find. */
  lemma HeldFile(a: Image, b: Image, y: Layout, v: Volume, v': Volume, d: nat, name: seq<byte>, total: seq<byte>)
    requires VolInv(a, y, v) && d in v.dirs && d < |a.data| && Holding(a, b, y, v, v', d, name, total)
             && Find(a.data[d], name, 0).None?
    ensures VolInv(b, y, v') && d in v'.dirs && d < |b.data|
    ensures total == [] ==> Lookup(b, y, v', d, name) == None
    ensures total != [] ==>
              && Find(b.data[d], name, 0).Some? && Lookup(b, y, v', d, name) == Some(File(total))
              && Ref(d, Find(b.data[d], name, 0).value) in v'.files
              && Content(b, y, v', Ref(d, Find(b.data[d], name, 0).value)) == total
  {
    hide VolInv, Content, Find;
    if total != [] { DirTails(b, y, v', d); }
  }

  lemma StepNew(a: Image, b: Image, y: Layout, v: Volume, v': Volume, d: nat, r: Ref, ext: seq<nat>, name: seq<byte>,
                data: seq<byte>)
    requires VolInv(a, y, v) && VolInv(b, y, v') && d in v.dirs && d < |a.data| && d < |b.data| && data != []
    requires FileMade(a, b, y, v, v', d, r, ext, name, data) && v' != v && Find(a.data[d], name, 0).None?
    ensures Holding(a, b, y, v, v', d, name, data)
  {
    hide VolInv, Lookup, Find, Hidden, TailUnused;
    DirTails(a, y, v, d);
    NeverHidden(a.data[d], name);
  }

  lemma StepMore(a: Image, b: Image, c: Image, y: Layout, v: Volume, w: Volume, w': Volume, d: nat, r: Ref,
                 name: seq<byte>, total: seq<byte>, data: seq<byte>)
    requires VolInv(a, y, v) && d in v.dirs && total != [] && Holding(a, b, y, v, w, d, name, total)
    requires VolInv(b, y, w) && r in w.files && r.dir == d && d in w.dirs && Content(b, y, w, r) == total
             && Appended(b, c, y, w, w', r, name, data)
    ensures Holding(a, c, y, v, w', d, name, total + data)
  {
    hide VolInv, Lookup, Content, OnceKept;
  }

  lemma SameAsItself(a: Image, y: Layout, v: Volume, d: nat, name: seq<byte>)
    requires VolInv(a, y, v) && d in v.dirs
    ensures SameBut(a, a, y, v, v, v.dirs, d, name) && Holding(a, a, y, v, v, d, name, [])
  {}

  lemma InvParts(fs: Fat32Driver)
    requires fs.Inv()
    ensures fs.Ok() && VolInv(fs.Img(), fs.Y(), fs.vol) && fs.g.ClusterBytes() > 0 && |fs.Img().fat| >= 128
  {}

  // ---------- write, delete ----------

  /** A sector is determined by its words. */
  lemma WordsDetermine(s: Sector, t: Sector)
    requires forall k: nat :: k < 128 ==> U32(s, k) == U32(t, k)
    ensures s == t
  {
    forall i: nat | i < 512 ensures s[i] == t[i] {
      var k := i / 4;
      SameWord(s, t, k);
      assert i == 4 * k || i == 4 * k + 1 || i == 4 * k + 2 || i == 4 * k + 3;
    }
  }

  lemma SameWord(s: Sector, t: Sector, k: nat)
    requires k < 128 && U32(s, k) == U32(t, k)
    ensures s[4 * k] == t[4 * k] && s[4 * k + 1] == t[4 * k + 1] && s[4 * k + 2] == t[4 * k + 2]
            && s[4 * k + 3] == t[4 * k + 3]
  {
    var a0: int, a1: int, a2: int, a3: int := s[4 * k], s[4 * k + 1], s[4 * k + 2], s[4 * k + 3];
    var b0: int, b1: int, b2: int, b3: int := t[4 * k], t[4 * k + 1], t[4 * k + 2], t[4 * k + 3];
    assert a0 + 0x100 * a1 + 0x1_0000 * a2 + 0x100_0000 * a3 == b0 + 0x100 * b1 + 0x1_0000 * b2 + 0x100_0000 * b3;
    Digit(a0, a1 + 0x100 * a2 + 0x1_0000 * a3, b0, b1 + 0x100 * b2 + 0x1_0000 * b3);
    Digit(a1, a2 + 0x100 * a3, b1, b2 + 0x100 * b3);
    Digit(a2, a3, b2, b3);
  }

  lemma Digit(x: int, h: int, y: int, k: int)
    requires 0 <= x < 0x100 && 0 <= y < 0x100 && x + 0x100 * h == y + 0x100 * k
    ensures x == y && h == k
  {}

  /** The sectors of both FAT copies. */
  ghost predicate SameFats(d: Disk, d': Disk, g: Geometry)
    requires g.Fits(|d|) && g.Fits(|d'|)
  {
    forall j: nat :: g.fatStart <= j < g.fatStart + 2 * g.fatSz ==> d'[j] == d[j]
  }

  /** Equal words fix the first sector of the first copy, agreement that of the second; the others were not touched. */
  lemma SameWordsSameFats(d: Disk, d': Disk, g: Geometry)
    requires g.Fits(|d|) && g.Fits(|d'|) && FarSame(d, d', g) && ImageOf(d', g).fat == ImageOf(d, g).fat
    requires Mirrored(d, g, 1) && Mirrored(d', g, 1)
    ensures SameFats(d, d', g)
  {
    assert Twins(d, g, 0) && Twins(d', g, 0);
    SameFatSector(d, d', g, 0, d[g.fatStart], d'[g.fatStart]);
    forall j: nat | g.fatStart <= j < g.fatStart + 2 * g.fatSz ensures d'[j] == d[j] {
      assert FarSector(g, j) || j == g.fatStart || j == g.fatStart + g.fatSz;
    }
  }

  lemma SameFatSector(d: Disk, d': Disk, g: Geometry, k: nat, s: Sector, t: Sector)
    requires g.Fits(|d|) && g.Fits(|d'|) && FatOf(d', g) == FatOf(d, g) && k < g.fatSz
    requires s == d[g.fatStart + k] && t == d'[g.fatStart + k]
    ensures t == s
  {
    hide U32;
    forall i: nat | i < 128 ensures U32(s, i) == U32(t, i) {
      var c := 128 * k + i;
      assert c / 128 == k && c % 128 == i;
      assert FatOf(d', g)[c] == FatOf(d, g)[c];
    }
    WordsDetermine(s, t);
  }

  /** Writing a fresh name and deleting it restores the volume and, sector for sector, both FAT copies. */
  method WriteThenDelete(fs: Fat32Driver, name: seq<byte>, data: seq<byte>, parent: nat) returns (deleted: bool)
    requires fs.Inv() && fs.Live(parent) && Stable(name) && |data| < 0x1_0000_0000 && fs.InStep(1)
    requires fs.Home(parent) in fs.vol.dirs && fs.Home(parent) < |fs.Img().data|
             && Find(fs.Img().data[fs.Home(parent)], name, 0).None?
    requires data == []
             || (FirstVacant(fs.Img().data[fs.Home(parent)], 0).Some? && fs.Room() >= Ceil(|data|, fs.g.ClusterBytes()))
    modifies fs
    ensures fs.Inv() && fs.vol == old(fs.vol) && deleted == (data != [])
    ensures fs.Img().fat == old(fs.Img()).fat && SameFats(old(fs.disk), fs.disk, fs.g)
    ensures SameView(old(fs.Img()), fs.Img(), fs.Y(), old(fs.vol), fs.vol, fs.vol.dirs)
  {
    ghost var d0, a, v, d, y := fs.disk, fs.Img(), fs.vol, fs.Home(parent), fs.Y();
    InvParts(fs);
    hide VolInv, Closed, ImageOf, Find, Lookup, Canon, FirstVacant, FreeClusters, Ceil, Content, FileMade, Deleted,
         Mirrored, SameView, FarSame, SameFats;
    FarItself(d0, fs.g);
    assert fs.Far(d0);
    ghost var made, r, ext := fs.WriteFile(name, data, parent);
    ghost var b, w := fs.Img(), fs.vol;
    InvParts(fs);
    FreshMade(a, b, y, v, w, d, r, ext, name, data);
    ghost var r1;
    deleted, r1 := fs.DeleteFile(name, parent);
    InvParts(fs);
    Undone(a, b, fs.Img(), y, v, w, fs.vol, d, r, ext, name, data);
    SameWordsSameFats(d0, fs.disk, fs.g);
  }

  lemma FarItself(d: Disk, g: Geometry)
    ensures FarSame(d, d, g)
  {}

  /** A fresh name just written is found at its slot, and only there. */
  lemma FreshMade(a: Image, b: Image, y: Layout, v: Volume, w: Volume, d: nat, r: Ref, ext: seq<nat>, name: seq<byte>,
                  data: seq<byte>)
    requires VolInv(a, y, v) && VolInv(b, y, w) && d in v.dirs && d < |a.data| && d < |b.data|
             && Find(a.data[d], name, 0).None?
    requires FileMade(a, b, y, v, w, d, r, ext, name, data)
    ensures w != v ==> Find(b.data[d], name, 0) == Some(r.idx) && r.dir == d
    ensures w != v ==> FirstVacant(b.data[d], 0).Some? ==> FirstVacant(b.data[d], 0).value > r.idx
  {
    hide VolInv, Lookup, Find, Hidden, TailUnused;
    DirTails(a, y, v, d);
    NeverHidden(a.data[d], name);
  }

  lemma Undone(a: Image, b: Image, c: Image, y: Layout, v: Volume, w: Volume, w': Volume, d: nat, r: Ref,
               ext: seq<nat>, name: seq<byte>, data: seq<byte>)
    requires VolInv(a, y, v) && VolInv(b, y, w) && VolInv(c, y, w') && d in v.dirs && d < |a.data| && d < |b.data|
    requires Find(a.data[d], name, 0).None? && FileMade(a, b, y, v, w, d, r, ext, name, data)
    requires (data == [] <==> w == v)
             && (if data == [] then b == a && c == a && w' == v else r.dir == d && Deleted(b, c, y, w, w', r, name))
    ensures w' == v && c.fat == a.fat && SameView(a, c, y, v, w', v.dirs)
  {
    hide VolInv, Find, Hidden, TailUnused, Once, OnceKept;
    if data != [] {
      assert DropFile(AddFile(v, r, ext), r) == v by { assert r !in v.files; }
      assert c.fat == a.fat;
      forall e, k | e in v.dirs ensures Lookup(c, y, w', e, k) == Lookup(a, y, v, e, k) {
        if e == d && k == name { AbsentLookup(a, y, v, d, name); }
      }
    }
  }

  lemma AbsentLookup(a: Image, y: Layout, v: Volume, d: nat, key: seq<byte>)
    requires VolInv(a, y, v) && d in v.dirs && d < |a.data| && Find(a.data[d], key, 0).None?
    ensures Lookup(a, y, v, d, key) == None
  {
    hide VolInv, Find;
  }

  /** Whether a directory has a slot for one more entry. */
  method HasVacancy(fs: Fat32Driver, dir: nat) returns (b: bool)
    requires fs.Ok() && 2 <= dir < 128
    ensures |fs.Img().data| == 128 && (b <==> FirstVacant(fs.Img().data[dir], 0).Some?)
  {
    hide ImageOf;
    fs.ImgWf();
    var buf := fs.ReadCluster(dir);
    var i := 0;
    while i < |buf| / 32
      invariant i <= Slots(buf) && FirstVacant(buf, i) == FirstVacant(buf, 0)
    {
      if buf[32 * i] == 0 || buf[32 * i] == DELETED {
        return true;
      }
      i := i + 1;
    }
    return false;
  }

  /** From a format on, whatever was done before: when a fresh name, a vacant slot and enough clusters are there,
      writing to the root directory and deleting again restores both FAT copies of the device. */
  method FormatRunWriteDelete(disk: Disk, sectors: nat, ops: seq<Op>, name: seq<byte>, data: seq<byte>)
    returns (fs: Fat32Driver, tried: bool, ghost mid: Disk)
    requires GeometryFor(sectors).Fits(|disk|) && FatSectors(sectors) >= 128
    requires (forall i :: 0 <= i < |ops| ==> ops[i].Named()) && Stable(name) && |data| < 0x1_0000_0000
    ensures fresh(fs) && fs.Inv() && fs.g == GeometryFor(sectors) && fs.g.Fits(|mid|)
    ensures var a := ImageOf(mid, fs.g);
            && |a.data| == 128 && |a.fat| >= 128
            && (tried <==>
               Find(a.data[2], name, 0).None? && FirstVacant(a.data[2], 0).Some?
                    && |FreeClusters(a.fat)| >= Ceil(|data|, 4096))
    ensures if tried then SameFats(mid, fs.disk, fs.g) else fs.disk == mid
  {
    hide VolInv, Closed, FatSectors, Mirrored, Op.Named, ImageOf, Find, FirstVacant, FreeClusters, Ceil, Canon,
         LiveName, SameView;
    ghost var run, outs;
    fs, run, outs := FormatAndRun(disk, sectors, ops);
    mid := fs.disk;
    InvParts(fs);
    fs.HomeBounds(0);
    tried := false;
    var found, entry;
    ghost var idx;
    found, entry, idx := fs.FindDirectoryEntry(name, 0);
    var vacant := HasVacancy(fs, 2);
    var room := CountFree(fs);
    if !found && vacant && room >= Ceil(|data|, 4096) {
      tried := true;
      FewerInStep(fs.disk, fs.g, 1, 128);
      var deleted := WriteThenDelete(fs, name, data, 0);
    }
  }

  lemma FewerInStep(d: Disk, g: Geometry, m: nat, n: nat)
    requires g.Fits(|d|) && Mirrored(d, g, n) && m <= n
    ensures Mirrored(d, g, m)
  {}

  /** Writing one name twice: the second file takes a later slot and is hidden by the first. */
  method WriteTwice(fs: Fat32Driver, name: seq<byte>, first: seq<byte>, second: seq<byte>, parent: nat)
    requires fs.Inv() && fs.Live(parent) && LiveName(name) && 0 < |first| < 0x1_0000_0000 && |second| < 0x1_0000_0000
    requires fs.Home(parent) in fs.vol.dirs && fs.Home(parent) < |fs.Img().data|
             && FirstVacant(fs.Img().data[fs.Home(parent)], 0).Some?
    requires Find(fs.Img().data[fs.Home(parent)], name, 0).None? && fs.Room() >= Ceil(|first|, fs.g.ClusterBytes())
    modifies fs
    ensures fs.Inv() && fs.vol.dirs == old(fs.vol).dirs && fs.Look(fs.Home(parent), name) == Some(File(first))
  {
    InvParts(fs);
    hide VolInv, Closed, ImageOf, Find, Lookup, Canon, FirstVacant, FreeClusters, Ceil, Content, FileMade, Mirrored,
         FarSame, Holding, LiveName;
    ghost var a, v, d, y := fs.Img(), fs.vol, fs.Home(parent), fs.Y();
    ghost var made, r, ext := fs.WriteFile(name, first, parent);
    InvParts(fs);
    ghost var b, w := fs.Img(), fs.vol;
    FreshMade(a, b, y, v, w, d, r, ext, name, first);
    StepNew(a, b, y, v, w, d, r, ext, name, first);
    HeldSame(a, b, y, v, w, d, name, first);
    HeldFile(a, b, y, v, w, d, name, first);
    made, r, ext := fs.WriteFile(name, second, parent);
    InvParts(fs);
    SecondHidden(b, fs.Img(), y, w, fs.vol, d, r, ext, name, second, File(first));
  }

  /** A vacant slot before the entry a name leads to is the only way for a second entry of that name to be seen. */
  lemma SecondHidden(b: Image, c: Image, y: Layout, w: Volume, w': Volume, d: nat, r: Ref, ext: seq<nat>,
                     name: seq<byte>, data: seq<byte>, n: Node)
    requires VolInv(b, y, w) && VolInv(c, y, w') && d in w.dirs && d < |b.data| && d < |c.data|
    requires FileMade(b, c, y, w, w', d, r, ext, name, data) && Lookup(b, y, w, d, name) == Some(n)
    requires Find(b.data[d], name, 0).Some?
             && (FirstVacant(b.data[d], 0).Some? ==> FirstVacant(b.data[d], 0).value > Find(b.data[d], name, 0).value)
    ensures d in w'.dirs && Lookup(c, y, w', d, name) == Some(n)
  {
    hide VolInv, Lookup, FirstVacant;
    if w' != w {
      var j := Find(b.data[d], name, 0).value;
      assert j < r.idx && Matches(EntryAt(b.data[d], j), name);
    }
  }

  // ---------- EnsureDirectory twice ----------

  /** The first component that is missing can be entered in its directory, and all that are made are stored under the
      names they are looked up by, if one is missing and they can be paid for. */
  ghost predicate Repeatable(a: Image, y: Layout, v: Volume, p: seq<byte>, room: nat)
    requires VolInv(a, y, v) && y.root in v.dirs
  {
    var m := Miss(a, y, v, y.root, p);
    || Fails(a, y, v, p, room) || m.None?
    || (m.value < |a.data| && FirstVacant(a.data[m.value], 0).Some? && Lasting(a, y, v, y.root, p))
  }

  /** A second `EnsureDirectory` writes nothing and returns the same exactly when the first call made nothing, or the
      first directory that lacks a component has a vacant slot and every component that is made is looked up under the
      name it is stored by; and then `GetDirectoryCluster` agrees. Otherwise the second call fails or makes another
      directory. */
  method EnsureTwice(fs: Fat32Driver, path: seq<byte>) returns (c: nat, again: nat, got: nat, ghost first: Disk)
    requires fs.Inv() && Ascii(path) && fs.g.root in fs.vol.dirs
    modifies fs
    ensures fs.Inv() && (c == 0 <==> Fails(old(fs.Img()), fs.Y(), old(fs.vol), Skip(path), old(fs.Room())))
    ensures (again == c && fs.disk == first) <==>
              Repeatable(old(fs.Img()), fs.Y(), old(fs.vol), Skip(path), old(fs.Room()))
    ensures !Repeatable(old(fs.Img()), fs.Y(), old(fs.vol), Skip(path), old(fs.Room())) ==> c != 0 && again != c
    ensures Repeatable(old(fs.Img()), fs.Y(), old(fs.vol), Skip(path), old(fs.Room())) && Clean(Skip(path))
            && path != [DOT] ==>
              got == if c == 0 then 0xFFFF_FFFF else c
  {
    hide VolInv, Closed, ImageOf, Lookup, Canon, FirstVacant, Grows, Lasting, DirWalk, Miss, Walk, FreeClusters, Needed;
    ghost var a, v, p, room := fs.Img(), fs.vol, Skip(path), fs.Room();
    InvParts(fs);
    NeededIff(a, fs.Y(), v, fs.g.root, p);
    c := fs.EnsureDirectory(path);
    first := fs.disk;
    ghost var b, w := fs.Img(), fs.vol;
    InvParts(fs);
    NeededIff(b, fs.Y(), w, fs.g.root, p);
    again := fs.EnsureDirectory(path);
    InvParts(fs);
    got := fs.GetDirectoryCluster(path, 0);
    if Clean(p) { DirectoryAgrees(b, fs.Y(), w, p); }
  }

  /** A path of one component. */
  predicate Single(p: seq<byte>) { 0 < |p| <= 15 && SLASH !in p }

  lemma SinglePath(p: seq<byte>)
    requires Single(p)
    ensures Skip(p) == p && !Ends(p) && Components(p) == 1 && Seg(p) == p && (Findable(p) <==> Canon(p) == To83(p))
  {
    hide Canon, To83;
    assert p[0] in p;
    assert SegLen(p, 15) == |p|;
    assert Seg(p) == p && After(p) == [];
    assert Components(Skip(After(p))) == 0 && Findable(Skip(After(p)));
  }

  /** Every call for a name that is looked up under another name than it is stored by makes another directory, whether
      or not there is a slot for it: two calls, two clusters, and the name still leads nowhere. */
  method StrayTwice(fs: Fat32Driver, name: seq<byte>) returns (c: nat, again: nat)
    requires fs.Inv() && fs.g.root in fs.vol.dirs && Ascii(name) && Single(name) && Canon(name) != To83(name)
    requires fs.Room() >= 2 && fs.Look(fs.g.root, Canon(name)) == None
    modifies fs
    ensures fs.Inv() && c != 0 && again != 0 && again != c && fs.Room() == old(fs.Room()) - 2
    ensures fs.g.root in fs.vol.dirs && fs.Look(fs.g.root, Canon(name)) == None
  {
    hide VolInv, Closed, ImageOf, Lookup, Canon, FirstVacant, Grows, DirWalk, FreeClusters, To83, Miss, Lasting,
         Needed, Components;
    SinglePath(name);
    InvParts(fs);
    SingleMissing(fs.Img(), fs.Y(), fs.vol, name);
    NeededIff(fs.Img(), fs.Y(), fs.vol, fs.g.root, name);
    c := fs.EnsureDirectory(name);
    InvParts(fs);
    SingleMissing(fs.Img(), fs.Y(), fs.vol, name);
    NeededIff(fs.Img(), fs.Y(), fs.vol, fs.g.root, name);
    again := fs.EnsureDirectory(name);
    InvParts(fs);
    SingleMissing(fs.Img(), fs.Y(), fs.vol, name);
  }

  lemma SingleMissing(a: Image, y: Layout, v: Volume, p: seq<byte>)
    requires VolInv(a, y, v) && y.root in v.dirs && Single(p)
    ensures Miss(a, y, v, y.root, p).Some? <==> Lookup(a, y, v, y.root, Canon(p)) == None
    ensures Miss(a, y, v, y.root, p).Some? ==> (Lasting(a, y, v, y.root, p) <==> Canon(p) == To83(p))
  {
    hide VolInv, Lookup, Canon, To83, Findable;
    SinglePath(p);
    assert Single(p);
    if Lookup(a, y, v, y.root, Canon(p)).Some? { SingleEnds(p); }
  }

  lemma SingleEnds(p: seq<byte>)
    requires Single(p)
    ensures Ends(Skip(After(p)))
  {
    SinglePath(p);
  }

  /** "LONGDIRNAME" is such a name. */
  method LongNameTwice(fs: Fat32Driver) returns (c: nat, again: nat)
    requires fs.Inv() && fs.g.root in fs.vol.dirs && fs.Room() >= 2
    requires fs.Look(fs.g.root, Canon([76, 79, 78, 71, 68, 73, 82, 78, 65, 77, 69])) == None
    modifies fs
    ensures fs.Inv() && c != 0 && again != 0 && again != c && fs.Room() == old(fs.Room()) - 2
  {
    hide Canon, To83, VolInv, Fat32Driver.Inv, Fat32Driver.Room;
    LongNameExample();
    c, again := StrayTwice(fs, [76, 79, 78, 71, 68, 73, 82, 78, 65, 77, 69]);
  }

  /** The lookup of a clean path and the walk of `EnsureDirectory` give the same directory, or none. */
  lemma DirectoryAgrees(a: Image, y: Layout, v: Volume, p: seq<byte>)
    requires VolInv(a, y, v) && y.root in v.dirs && Clean(p)
    ensures var n, d := Walk(a, y, v, y.root, p), DirWalk(a, y, v, y.root, p);
            (d.Some? ==> n == Some(Dir(d.value))) && (d.None? ==> n.None? || n.value.File?)
  {
    hide VolInv, Clean, Walk, DirWalk;
    var n, d := Walk(a, y, v, y.root, p), DirWalk(a, y, v, y.root, p);
    if d.Some? { WalksAgree(a, y, v, y.root, p, d.value); }
    if n.Some? && n.value.Dir? { WalksAgree(a, y, v, y.root, p, n.value.cluster); }
  }

  // ---------- every run ----------

  /** What the invariant says about the files of a volume: each chain is acyclic, ended by the end mark, within the
      clusters the driver allocates and as long as the size requires; no two share a cluster, and none holds a
      directory. */
  lemma LiveChains(a: Image, y: Layout, v: Volume, r: Ref, s: Ref)
    requires VolInv(a, y, v) && r in v.files && s in v.files
    ensures var p := v.files[r];
            && p != [] && (forall i, j :: 0 <= i < j < |p| ==> p[i] != p[j])
            && (forall i :: 0 <= i < |p| ==> 2 <= p[i] < 128 && p[i] !in v.dirs)
            && (forall i :: 0 < i < |p| ==> a.fat[p[i - 1]] == p[i]) && a.fat[p[|p| - 1]] == 0x0FFF_FFFF
            && y.cb > 0 && |p| == Ceil(|Content(a, y, v, r)|, y.cb)
    ensures r != s ==> NoShare(v.files[r], v.files[s])
  {
    hide Flatten, TailUnused;
    assert FileOk(a, y, v, r);
    ContentFits(a, y, v, r);
    ChainDistinct(a.fat, v.files[r]);
  }

  /** Free clusters among the first i. */
  function CountBelow(fat: seq<nat>, i: nat): nat
    requires |fat| >= 128 && 2 <= i <= 128
  {
    if i == 2 then 0 else CountBelow(fat, i - 1) + if fat[i - 1] == 0 then 1 else 0
  }

  function FreeBelow(fat: seq<nat>, i: nat): (s: set<nat>)
    requires |fat| >= 128 && i <= 128
    ensures forall c: nat :: c in s <==> 2 <= c < i && fat[c] == 0
  {
    set c: nat | 2 <= c < i && fat[c] == 0
  }

  lemma {:induction false} CountIsSize(fat: seq<nat>, i: nat)
    requires |fat| >= 128 && 2 <= i <= 128
    ensures CountBelow(fat, i) == |FreeBelow(fat, i)|
  {
    if i == 2 {
      assert FreeBelow(fat, i) == {};
    } else {
      CountIsSize(fat, i - 1);
      assert FreeBelow(fat, i) == FreeBelow(fat, i - 1) + if fat[i - 1] == 0 then {i - 1} else {};
    }
  }

  /** How many clusters the driver can still allocate. */
  method CountFree(fs: Fat32Driver) returns (n: nat)
    requires fs.Ok()
    ensures n == fs.Room()
  {
    hide U32, ImageOf, FreeClusters, CountBelow, FreeBelow;
    FirstSector(fs.disk, fs.g);
    ghost var fat := fs.Img().fat;
    CountStart(fat);
    n := 0;
    var i := 2;
    while i < 128
      invariant 2 <= i <= 128 && n == CountBelow(fat, i)
    {
      CountStep(fat, i);
      if U32(fs.disk[fs.g.fatStart], i) == 0 {
        n := n + 1;
      }
      i := i + 1;
    }
    CountIsSize(fat, 128);
    assert FreeBelow(fat, 128) == FreeClusters(fat);
  }

  lemma CountStart(fat: seq<nat>)
    requires |fat| >= 128
    ensures CountBelow(fat, 2) == 0
  {}

  lemma CountStep(fat: seq<nat>, i: nat)
    requires |fat| >= 128 && 2 <= i < 128
    ensures CountBelow(fat, i + 1) == CountBelow(fat, i) + if fat[i] == 0 then 1 else 0
  {}

  /** One operation on the directory its path leads to; without such a directory, nothing. */
  method Apply(fs: Fat32Driver, op: Op, ghost n: Names) returns (ghost out: Outcome)
    requires fs.Inv() && op.Named() && Shows(fs.Img(), fs.Y(), fs.vol, n)
    modifies fs
    ensures fs.Inv() && Shows(fs.Img(), fs.Y(), fs.vol, Effect(n, fs.g.root, op, out))
            && Justified(old(fs.Img()), fs.Y(), n, op, out)
    ensures forall k: nat :: old(fs.InStep(k)) ==> fs.InStep(k)
  {
    hide VolInv, Closed, ImageOf, PathNode, Mirrored, Shows, Where, EffectIn, JustifiedIn;
    InvParts(fs);
    fs.HomeBounds(0);
    assert fs.Home(0) == fs.g.root;
    WhereIs(fs.Img(), fs.Y(), fs.vol, n, op.dir);
    var parent := fs.GetDirectoryCluster(op.dir, 0);
    out := Failed;
    if parent == 0xFFFF_FFFF {
      return;
    }
    out := ApplyIn(fs, op, parent, n);
  }

  lemma HomeIs(fs: Fat32Driver, parent: nat)
    requires fs.Inv() && parent in fs.vol.dirs
    ensures fs.Home(parent) == parent && fs.Live(parent) && 2 <= parent < 128 && |fs.Img().data| == 128
  {
    hide VolInv, ImageOf, Closed;
    DirTails(fs.Img(), fs.Y(), fs.vol, parent);
  }

  method ApplyIn(fs: Fat32Driver, op: Op, parent: nat, ghost n: Names) returns (ghost out: Outcome)
    requires fs.Inv() && op.Named() && Shows(fs.Img(), fs.Y(), fs.vol, n) && parent in fs.vol.dirs
    modifies fs
    ensures fs.Inv() && Shows(fs.Img(), fs.Y(), fs.vol, EffectIn(n, parent, op, out))
            && JustifiedIn(old(fs.Img()), fs.Y(), n, parent, op, out)
    ensures forall k: nat :: old(fs.InStep(k)) ==> fs.InStep(k)
  {
    match op {
      case Write(_, _, _) => out := ApplyWrite(fs, op, parent, n);
      case Delete(_, _) => out := ApplyDelete(fs, op, parent, n);
      case MakeDir(_, _) => out := ApplyMakeDir(fs, op, parent, n);
      case Append(_, _, _) => out := AppendIfRoom(fs, op, parent, n);
    }
  }

  method ApplyWrite(fs: Fat32Driver, op: Op, parent: nat, ghost n: Names) returns (ghost out: Outcome)
    requires fs.Inv() && op.Named() && op.Write? && Shows(fs.Img(), fs.Y(), fs.vol, n) && parent in fs.vol.dirs
    modifies fs
    ensures fs.Inv() && Shows(fs.Img(), fs.Y(), fs.vol, EffectIn(n, parent, op, out))
            && JustifiedIn(old(fs.Img()), fs.Y(), n, parent, op, out)
    ensures forall k: nat :: old(fs.InStep(k)) ==> fs.InStep(k)
  {
    hide VolInv, Closed, ImageOf, Mirrored, Shows, FileMade, Enter, FreeClusters, FirstVacant, Ceil, Taken, LiveName;
    InvParts(fs);
    HomeIs(fs, parent);
    ghost var made, r, ext := fs.WriteFile(op.name, op.data, parent);
    InvParts(fs);
    HomeIs(fs, parent);
    FileStep(old(fs.Img()), fs.Img(), fs.Y(), old(fs.vol), fs.vol, n, parent, r, ext, op.name, op.data);
    out := if made then Done(Hidden(old(fs.Img()).data[parent], op.name, r.idx), None, 0) else Failed;
  }

  method ApplyDelete(fs: Fat32Driver, op: Op, parent: nat, ghost n: Names) returns (ghost out: Outcome)
    requires fs.Inv() && op.Delete? && Shows(fs.Img(), fs.Y(), fs.vol, n) && parent in fs.vol.dirs
    modifies fs
    ensures fs.Inv() && Shows(fs.Img(), fs.Y(), fs.vol, EffectIn(n, parent, op, out))
            && JustifiedIn(old(fs.Img()), fs.Y(), n, parent, op, out)
    ensures forall k: nat :: old(fs.InStep(k)) ==> fs.InStep(k)
  {
    hide VolInv, Closed, ImageOf, Mirrored, Shows, Deleted, Remove, FreeClusters, Find, Canon, Plain;
    InvParts(fs);
    HomeIs(fs, parent);
    CanonPlain(op.name);
    FoundShows(fs.Img(), fs.Y(), fs.vol, n, parent, Canon(op.name));
    var deleted;
    ghost var r;
    deleted, r := fs.DeleteFile(op.name, parent);
    out := Failed;
    if deleted {
      ghost var behind := GoneStep(old(fs.Img()), fs.Img(), fs.Y(), old(fs.vol), fs.vol, n, r, Canon(op.name));
      out := Done(false, behind, 0);
    }
  }

  lemma FoundShows(a: Image, y: Layout, v: Volume, n: Names, d: nat, key: seq<byte>)
    requires Shows(a, y, v, n) && d in v.dirs && d < |a.data| && Plain(key)
    ensures Find(a.data[d], key, 0).Some? <==> n.At(d, key).Some?
    ensures VolInv(a, y, v) && Lookup(a, y, v, d, key) == n.At(d, key)
  {
    hide VolInv, Lookup, Find, Plain;
    PlainFound(a, y, v, d, key);
  }

  method ApplyMakeDir(fs: Fat32Driver, op: Op, parent: nat, ghost n: Names) returns (ghost out: Outcome)
    requires fs.Inv() && op.Named() && op.MakeDir? && Shows(fs.Img(), fs.Y(), fs.vol, n) && parent in fs.vol.dirs
    modifies fs
    ensures fs.Inv() && Shows(fs.Img(), fs.Y(), fs.vol, EffectIn(n, parent, op, out))
            && JustifiedIn(old(fs.Img()), fs.Y(), n, parent, op, out)
    ensures forall k: nat :: old(fs.InStep(k)) ==> fs.InStep(k)
  {
    hide VolInv, Closed, ImageOf, Mirrored, DirMade, Enter, FreeClusters, FirstVacant, Taken, LiveName, Hidden, Once,
         Lookup;
    InvParts(fs);
    HomeIs(fs, parent);
    var c;
    ghost var slot;
    c, slot := fs.CreateDirectory(op.name, parent);
    out := Failed;
    if c != 0 {
      DirStep(old(fs.Img()), fs.Img(), fs.Y(), old(fs.vol), fs.vol, n, parent, slot, c, op.name);
      out := Done(slot.None? || Hidden(old(fs.Img()).data[parent], op.name, slot.value), None, c);
    }
  }

  /** Callers append neither to directories nor to files that the free clusters are too few for. */
  method AppendIfRoom(fs: Fat32Driver, op: Op, parent: nat, ghost n: Names) returns (ghost out: Outcome)
    requires fs.Inv() && op.Named() && op.Append? && Shows(fs.Img(), fs.Y(), fs.vol, n) && parent in fs.vol.dirs
    modifies fs
    ensures fs.Inv() && Shows(fs.Img(), fs.Y(), fs.vol, EffectIn(n, parent, op, out))
            && JustifiedIn(old(fs.Img()), fs.Y(), n, parent, op, out)
    ensures forall k: nat :: old(fs.InStep(k)) ==> fs.InStep(k)
  {
    hide VolInv, Closed, ImageOf, Find, Lookup, Canon, FreeClusters, Ceil, AfterAppend, Enough, Mirrored, HasDirBit,
         Shows, Enter, Plain, FirstVacant, Taken;
    InvParts(fs);
    HomeIs(fs, parent);
    CanonPlain(op.name);
    FoundShows(fs.Img(), fs.Y(), fs.vol, n, parent, Canon(op.name));
    var name, data := op.name, op.data;
    var found, entry;
    ghost var idx;
    found, entry, idx := fs.FindDirectoryEntry(name, parent);
    out := Failed;
    if found {
      FoundStep(fs.Img(), fs.Y(), fs.vol, Ref(parent, idx), name, entry);
      if HasDirBit(entry) {
        return;
      }
      var free := CountFree(fs);
      var cb, size := fs.g.ClusterBytes(), SizeOf(entry);
      RoomIsEnough(fs.Img(), fs.Y(), fs.vol, Ref(parent, idx), name, data);
      if Ceil(size + |data|, cb) > Ceil(size, cb) + free {
        return;
      }
    } else {
      NotFound(fs.Img(), fs.Y(), fs.vol, parent, name);
      NothingIsEnough(fs.Img(), fs.Y(), fs.vol, parent, name, data);
    }
    ghost var r, ext := fs.AppendFile(name, data, parent);
    InvParts(fs);
    out := AppendStep(old(fs.Img()), fs.Img(), fs.Y(), old(fs.vol), fs.vol, n, parent, r, ext, op);
  }

  /** An append that had enough clusters. */
  lemma AppendStep(a: Image, c: Image, y: Layout, v: Volume, v': Volume, n: Names, d: nat, r: Ref, ext: seq<nat>,
                   op: Op) returns (out: Outcome)
    requires Shows(a, y, v, n) && d in v.dirs && d < |a.data| && |a.fat| >= 128 && |c.fat| >= 128 && op.Append?
    requires AfterAppend(a, c, y, v, v', d, r, ext, op.name, op.data) && Enough(a, y, v, d, op.name, op.data)
    requires n.At(d, Canon(op.name)).Some? ==> n.At(d, Canon(op.name)).value.File?
    ensures Shows(c, y, v', EffectIn(n, d, op, out)) && JustifiedIn(a, y, n, d, op, out)
  {
    hide VolInv, Shows, Find, Lookup, Canon, FreeClusters, Ceil, FileMade, Appended, Enter, Plain, FirstVacant, Taken,
         Content, LiveName;
    CanonPlain(op.name);
    FoundShows(a, y, v, n, d, Canon(op.name));
    SizesKnown(a, y, v);
    if op.data == [] {
      out := Failed;
    } else if n.At(d, Canon(op.name)).Some? {
      out := Done(false, None, 0);
      GrowStep(a, c, y, v, v', n, r, Canon(op.name), op.data);
    } else {
      FileStep(a, c, y, v, v', n, d, r, ext, op.name, op.data);
      out := if v' == v then Failed else Done(Hidden(a.data[d], op.name, r.idx), None, 0);
    }
  }

  /** The caller's arithmetic is the driver's demand. */
  lemma RoomIsEnough(a: Image, y: Layout, v: Volume, r: Ref, name: seq<byte>, data: seq<byte>)
    requires VolInv(a, y, v) && r.dir in v.dirs && r.dir < |a.data|
             && Find(a.data[r.dir], Canon(name), 0) == Some(r.idx)
    ensures y.cb > 0 && |a.fat| >= 128
    ensures var n, size := Lookup(a, y, v, r.dir, Canon(name)), SizeOf(EntryAt(a.data[r.dir], r.idx));
            n.Some? && n.value.File? && data != [] ==>
              (Enough(a, y, v, r.dir, name, data) <==>
                  Ceil(size + |data|, y.cb) <= Ceil(size, y.cb) + |FreeClusters(a.fat)|)
    ensures var n := Lookup(a, y, v, r.dir, Canon(name));
            n.Some? && n.value.File? ==> |n.value.content| == SizeOf(EntryAt(a.data[r.dir], r.idx))
    ensures data == [] ==> Enough(a, y, v, r.dir, name, data)
  {
    hide VolInv, Canon, FreeClusters, Ceil, Content, Wf, Lookup, SizeOf, EntryAt, Find, Flatten;
    SizesKnown(a, y, v);
    var n := Lookup(a, y, v, r.dir, Canon(name));
    if n.Some? && n.value.File? {
      LookupFile(a, y, v, r, Canon(name));
      SizeOfContent(a, y, v, r);
    }
  }

  lemma SizesKnown(a: Image, y: Layout, v: Volume)
    requires VolInv(a, y, v)
    ensures y.cb > 0 && |a.fat| >= 128
  {
    VolParts(a, y, v);
  }

  lemma LookupFile(a: Image, y: Layout, v: Volume, r: Ref, key: seq<byte>)
    requires VolInv(a, y, v) && r.dir in v.dirs && r.dir < |a.data| && Find(a.data[r.dir], key, 0) == Some(r.idx)
    requires var n := Lookup(a, y, v, r.dir, key); n.Some? && n.value.File?
    ensures r in v.files && Lookup(a, y, v, r.dir, key) == Some(File(Content(a, y, v, r)))
  {
    hide VolInv, Content;
    assert Ref(r.dir, r.idx) == r;
  }

  lemma SizeOfContent(a: Image, y: Layout, v: Volume, r: Ref)
    requires VolInv(a, y, v) && r in v.files
    ensures ValidRef(a, v, r) && |Content(a, y, v, r)| == SizeOf(SlotAt(a, r))
  {
    hide Flatten, IsChain;
    ContentFits(a, y, v, r);
  }

  lemma NothingIsEnough(a: Image, y: Layout, v: Volume, d: nat, name: seq<byte>, data: seq<byte>)
    requires VolInv(a, y, v) && d in v.dirs && Lookup(a, y, v, d, Canon(name)) == None
    ensures Enough(a, y, v, d, name, data)
  {
    hide VolInv, Lookup, Canon;
  }

  /** Every run of operations keeps the volume invariant and the agreement of the FAT copies, and shows exactly the
      names that the operations make of the names there were. */
  method Run(fs: Fat32Driver, ops: seq<Op>, ghost n: Names) returns (ghost run: seq<Moment>, ghost outs: seq<Outcome>)
    requires fs.Inv() && (forall i :: 0 <= i < |ops| ==> ops[i].Named()) && Shows(fs.Img(), fs.Y(), fs.vol, n)
    modifies fs
    ensures fs.Inv() && Told(fs.Y(), run, ops, outs)
    ensures run[0] == Moment(old(fs.Img()), old(fs.vol), n) && run[|ops|].a == fs.Img() && run[|ops|].v == fs.vol
    ensures Shows(fs.Img(), fs.Y(), fs.vol, Fold(n, fs.g.root, ops, outs))
    ensures forall k: nat :: old(fs.InStep(k)) ==> fs.InStep(k)
  {
    hide VolInv, Closed, ImageOf, Mirrored, Op.Named, Shows, Effect, Justified, Fold;
    run, outs := [Moment(fs.Img(), fs.vol, n)], [];
    var i := 0;
    while i < |ops|
      invariant i <= |ops| && fs.Inv() && Told(fs.Y(), run, ops[..i], outs)
      invariant run[0] == Moment(old(fs.Img()), old(fs.vol), n) && run[i].a == fs.Img() && run[i].v == fs.vol
      invariant forall k: nat :: old(fs.InStep(k)) ==> fs.InStep(k)
    {
      ghost var before := run[i].n;
      ghost var out := Apply(fs, ops[i], before);
      ghost var m := Moment(fs.Img(), fs.vol, Effect(before, fs.g.root, ops[i], out));
      ToldMore(fs.Y(), run, ops[..i], outs, m, ops[i], out);
      assert ops[..i] + [ops[i]] == ops[..i + 1];
      run, outs := run + [m], outs + [out];
      i := i + 1;
    }
    assert ops[..i] == ops;
    ToldIsFold(fs.Y(), run, ops, outs);
  }

  /** From a freshly formatted partition on, the names are those the operations made. */
  method FormatAndRun(disk: Disk, sectors: nat, ops: seq<Op>)
    returns (fs: Fat32Driver, ghost run: seq<Moment>, ghost outs: seq<Outcome>)
    requires GeometryFor(sectors).Fits(|disk|) && FatSectors(sectors) >= 128
    requires forall i :: 0 <= i < |ops| ==> ops[i].Named()
    ensures fresh(fs) && fs.Inv() && fs.g == GeometryFor(sectors) && fs.InStep(128)
    ensures Told(fs.Y(), run, ops, outs) && run[0].n == Names({2}, imap[], iset{}) && run[|ops|].a == fs.Img()
            && run[|ops|].v == fs.vol
    ensures Shows(fs.Img(), fs.Y(), fs.vol, Fold(Names({2}, imap[], iset{}), 2, ops, outs))
  {
    hide VolInv, Closed, FatSectors, Mirrored, Op.Named, ReadGeometry, Shows, Told, Fold;
    var d := FormatPartitionFAT32(disk, sectors);
    fs := new Fat32Driver(d, ReadGeometry(d, PARTITION), EMPTY);
    EmptyShows(fs.Img(), fs.Y());
    run, outs := Run(fs, ops, Names({2}, imap[], iset{}));
  }
}
