/** Sectors of a block device, the little-endian words in them, and the view of a FAT32 volume they hold. */
module FatDisk {
  type byte = x: int | 0 <= x < 256
  type Sector = s: seq<byte> | |s| == 512 witness seq(512, _ => 0)

  /** A block device, by logical block address. */
  type Disk = seq<Sector>

  // ---------- 32-bit words of a sector ----------

  function U32(s: Sector, k: nat): (v: nat)
    requires k < 128
    ensures v < 0x1_0000_0000
  {
    var a: int, b: int, c: int, e: int := s[4 * k], s[4 * k + 1], s[4 * k + 2], s[4 * k + 3];
    a + 0x100 * b + 0x1_0000 * c + 0x100_0000 * e
  }

  function PutU32(s: Sector, k: nat, v: nat): Sector
    requires k < 128 && v < 0x1_0000_0000
  {
    s[4 * k := v % 0x100][4 * k + 1 := v / 0x100 % 0x100][4 * k + 2 := v / 0x1_0000 % 0x100][4 * k + 3 :=
        v / 0x100_0000]
  }

  /** Words are written lowest byte first, and no other byte changes. */
  lemma PutBytes(s: Sector, k: nat, v: nat, i: nat)
    requires k < 128 && v < 0x1_0000_0000 && i < 512
    ensures PutU32(s, k, v)[i] ==
            if i == 4 * k then v % 256 else if i == 4 * k + 1 then v / 256 % 256
            else if i == 4 * k + 2 then v / 65536 % 256 else if i == 4 * k + 3 then v / 16777216 else s[i]
  {}

  /** Writing one word of a sector leaves the other 127 words alone. */
  lemma U32AfterPut(s: Sector, k: nat, v: nat, j: nat)
    requires k < 128 && j < 128 && v < 0x1_0000_0000
    ensures U32(PutU32(s, k, v), j) == if j == k then v else U32(s, j)
  {
    if j == k { Bytes(v); }
  }

  lemma Bytes(v: nat)
    requires v < 0x1_0000_0000
    ensures v % 0x100 + 0x100 * (v / 0x100 % 0x100) + 0x1_0000 * (v / 0x1_0000 % 0x100) +
            0x100_0000 * (v / 0x100_0000) == v
  {
    var a, b := v / 0x100, v / 0x1_0000;
    assert v == 0x100 * a + v % 0x100;
    assert b == a / 0x100 && a == 0x100 * b + a % 0x100;
    assert v / 0x100_0000 == b / 0x100 && b == 0x100 * (b / 0x100) + b % 0x100;
  }

  // ---------- runs of sectors ----------

  /** `Read(lba, buf, n)`. */
  function ReadSectors(d: Disk, lba: nat, n: nat): (buf: seq<byte>)
    requires lba + n <= |d|
    ensures |buf| == 512 * n
    ensures forall k: nat :: k < 512 * n ==> buf[k] == d[lba + k / 512][k % 512]
  {
    seq(512 * n, k requires 0 <= k < 512 * n => d[lba + k / 512][k % 512])
  }

  /** `Write(lba, buf, n)`. */
  function WriteSectors(d: Disk, lba: nat, n: nat, buf: seq<byte>): (d': Disk)
    requires lba + n <= |d| && |buf| == 512 * n
    ensures |d'| == |d|
    ensures forall j: nat :: j < |d| && !(lba <= j < lba + n) ==> d'[j] == d[j]
    ensures forall j: nat :: lba <= j < lba + n ==> d'[j] == buf[512 * (j - lba)..512 * (j - lba) + 512]
  {
    seq(|d|, j requires 0 <= j < |d| =>
      if lba <= j < lba + n then buf[512 * (j - lba)..512 * (j - lba) + 512] else d[j])
  }

  lemma ReadAfterWrite(d: Disk, lba: nat, n: nat, buf: seq<byte>)
    requires lba + n <= |d| && |buf| == 512 * n
    ensures ReadSectors(WriteSectors(d, lba, n, buf), lba, n) == buf
  {
    var d' := WriteSectors(d, lba, n, buf);
    var got := ReadSectors(d', lba, n);
    forall k: nat | k < 512 * n ensures got[k] == buf[k] {
      var j := lba + k / 512;
      assert d'[j] == buf[512 * (j - lba)..512 * (j - lba) + 512];
      assert k == 512 * (k / 512) + k % 512;
    }
  }

  lemma ReadUnchanged(d: Disk, d': Disk, lba: nat, n: nat)
    requires lba + n <= |d| && |d'| == |d| && forall j: nat :: lba <= j < lba + n ==> d'[j] == d[j]
    ensures ReadSectors(d', lba, n) == ReadSectors(d, lba, n)
  {
    var a, b := ReadSectors(d, lba, n), ReadSectors(d', lba, n);
    forall k: nat | k < 512 * n ensures a[k] == b[k] {
      assert lba <= lba + k / 512 < lba + n;
    }
  }

  /** Writing one sector of a run replaces its 512 bytes of the run. */
  lemma ReadAfterSector(d: Disk, lba: nat, n: nat, k: nat, sec: Sector)
    requires lba + n <= |d| && k < n
    ensures ReadSectors(d[lba + k := sec], lba, n) ==
            ReadSectors(d, lba, n)[..512 * k] + sec + ReadSectors(d, lba, n)[512 * k + 512..]
  {
    var a, b := ReadSectors(d, lba, n), ReadSectors(d[lba + k := sec], lba, n);
    var c := a[..512 * k] + sec + a[512 * k + 512..];
    assert |c| == 512 * n;
    forall x: nat | x < 512 * n ensures b[x] == c[x] {
      SectorIndex(x, k);
    }
  }

  lemma SectorIndex(x: nat, k: nat)
    ensures x / 512 == k <==> 512 * k <= x < 512 * k + 512
    ensures x / 512 == k ==> x - 512 * k == x % 512
  {}

  // ---------- the layout of a volume ----------

  /** The parameters the driver reads from the boot sector. Two FATs of fatSz sectors precede the data. */
  datatype Geometry = Geometry(fatStart: nat, fatSz: nat, dataStart: nat, spc: nat, root: nat) {
    /** The regions do not overlap and clusters 2..127 exist on a device of `blocks` sectors. The boot sector holds
        spc in one byte. */
    ghost predicate Fits(blocks: nat) {
      fatSz > 0 && 0 < spc < 256 && 2 <= root < 128 && fatStart + 2 * fatSz <= dataStart
          && dataStart + 126 * spc <= blocks
    }

    function ClusterBytes(): nat { 512 * spc }

    /** `ClusterToLBA`: cluster 2 is the first of the data region. */
    function Lba(c: nat): nat
      requires c >= 2
    {
      dataStart + (c - 2) * spc
    }
  }

  /** Cluster 2 is the first of the data region, and the others follow one after the other. */
  lemma LbaSteps(g: Geometry, c: nat)
    requires c >= 2
    ensures g.Lba(2) == g.dataStart && g.Lba(c + 1) == g.Lba(c) + g.spc
  {
    assert (c - 1) * g.spc == (c - 2) * g.spc + g.spc;
  }

  lemma {:induction false} Rows(a: nat, b: nat, w: nat)
    requires a < b
    ensures a * w + w <= b * w
  {
    if a + 1 < b {
      Rows(a, b - 1, w);
      assert b * w == (b - 1) * w + w;
    } else {
      assert b * w == a * w + w;
    }
  }

  lemma LbaBounds(g: Geometry, c: nat)
    requires 2 <= c < 128
    ensures g.dataStart <= g.Lba(c) && g.Lba(c) + g.spc <= g.dataStart + 126 * g.spc
  {
    Rows(c - 2, 126, g.spc);
  }

  /** Different clusters occupy disjoint sectors. */
  lemma LbaApart(g: Geometry, c: nat, e: nat)
    requires 2 <= c < e
    ensures g.Lba(c) + g.spc <= g.Lba(e)
  {
    Rows(c - 2, e - 2, g.spc);
  }

  /** The content of a volume as the driver sees it: the FAT words, and the bytes of clusters 2..127. */
  datatype Image = Image(fat: seq<nat>, data: seq<seq<byte>>)

  ghost function FatOf(d: Disk, g: Geometry): (fat: seq<nat>)
    requires g.Fits(|d|)
    ensures |fat| == 128 * g.fatSz
    ensures forall c: nat :: c < 128 * g.fatSz ==> fat[c] == U32(d[g.fatStart + c / 128], c % 128)
  {
    seq(128 * g.fatSz, c requires 0 <= c < 128 * g.fatSz => U32(d[g.fatStart + c / 128], c % 128))
  }

  ghost function ClusterOf(d: Disk, g: Geometry, c: nat): (buf: seq<byte>)
    requires g.Fits(|d|) && c < 128
    ensures c >= 2 ==> |buf| == g.ClusterBytes()
  {
    if c < 2 then [] else LbaBounds(g, c); ReadSectors(d, g.Lba(c), g.spc)
  }

  ghost function DataOf(d: Disk, g: Geometry): (data: seq<seq<byte>>)
    requires g.Fits(|d|)
    ensures |data| == 128
    ensures forall c: nat :: c < 128 ==> data[c] == ClusterOf(d, g, c)
  {
    seq(128, c requires 0 <= c < 128 => ClusterOf(d, g, c))
  }

  ghost function ImageOf(d: Disk, g: Geometry): Image
    requires g.Fits(|d|)
  {
    Image(FatOf(d, g), DataOf(d, g))
  }

  /** Sector k of the first FAT and its backup are the same. */
  ghost predicate Twins(d: Disk, g: Geometry, k: nat)
    requires g.Fits(|d|) && k < g.fatSz
  {
    d[g.fatStart + k] == d[g.fatStart + g.fatSz + k]
  }

  /** The first `n` sectors of the two FAT copies agree. */
  ghost predicate Mirrored(d: Disk, g: Geometry, n: nat)
    requires g.Fits(|d|)
  {
    forall k: nat :: k < n && k < g.fatSz ==> Twins(d, g, k)
  }

  /** A FAT sector of either copy other than its first: what no operation on clusters 2..127 touches. */
  predicate FarSector(g: Geometry, j: nat) {
    g.fatStart < j < g.fatStart + g.fatSz || g.fatStart + g.fatSz < j < g.fatStart + 2 * g.fatSz
  }

  ghost predicate FarSame(d: Disk, d': Disk, g: Geometry) {
    |d'| == |d| && forall j: nat :: j < |d| && FarSector(g, j) ==> d'[j] == d[j]
  }

  /** The effect of a FAT update on the device: the same new sector in both copies. */
  function FatWritten(d: Disk, g: Geometry, k: nat, sec: Sector): Disk
    requires k < g.fatSz && g.fatStart + g.fatSz + k < |d|
  {
    d[g.fatStart + k := sec][g.fatStart + g.fatSz + k := sec]
  }

  lemma FatWrittenData(d: Disk, g: Geometry, k: nat, sec: Sector)
    requires g.Fits(|d|) && k < g.fatSz
    ensures DataOf(FatWritten(d, g, k, sec), g) == DataOf(d, g)
    ensures forall n: nat :: Mirrored(d, g, n) ==> Mirrored(FatWritten(d, g, k, sec), g, n)
  {
    var d' := FatWritten(d, g, k, sec);
    forall c: nat | c < 128 ensures ClusterOf(d', g, c) == ClusterOf(d, g, c) {
      if c >= 2 {
        LbaBounds(g, c);
        ReadUnchanged(d, d', g.Lba(c), g.spc);
      }
    }
    forall n: nat, j: nat | Mirrored(d, g, n) && j < n && j < g.fatSz ensures Twins(d', g, j) {
      assert Twins(d, g, j);
    }
  }

  /** Rewriting one FAT word in both copies changes that word of the image and nothing else. */
  lemma FatWord(d: Disk, g: Geometry, c: nat, v: nat)
    requires g.Fits(|d|) && c < 128 * g.fatSz && v < 0x1_0000_0000
    ensures c / 128 < g.fatSz
    ensures var d' := FatWritten(d, g, c / 128, PutU32(d[g.fatStart + c / 128], c % 128, v));
            && |ImageOf(d, g).fat| == 128 * g.fatSz
               && ImageOf(d', g) == ImageOf(d, g).(fat := ImageOf(d, g).fat[c := v])
            && (forall n: nat :: Mirrored(d, g, n) ==> Mirrored(d', g, n))
  {
    var k := c / 128;
    var sec := PutU32(d[g.fatStart + k], c % 128, v);
    var d' := FatWritten(d, g, k, sec);
    FatWrittenData(d, g, k, sec);
    forall e: nat | e < 128 * g.fatSz ensures FatOf(d', g)[e] == FatOf(d, g)[c := v][e] {
      FatWordAt(d, g, c, v, e);
    }
    assert FatOf(d', g) == FatOf(d, g)[c := v];
  }

  lemma FatWordAt(d: Disk, g: Geometry, c: nat, v: nat, e: nat)
    requires g.Fits(|d|) && c < 128 * g.fatSz && e < 128 * g.fatSz && v < 0x1_0000_0000
    ensures c / 128 < g.fatSz && e / 128 < g.fatSz
    ensures var d' := FatWritten(d, g, c / 128, PutU32(d[g.fatStart + c / 128], c % 128, v));
            U32(d'[g.fatStart + e / 128], e % 128) == if e == c then v else U32(d[g.fatStart + e / 128], e % 128)
  {
    if e / 128 == c / 128 {
      U32AfterPut(d[g.fatStart + c / 128], c % 128, v, e % 128);
      assert e == 128 * (e / 128) + e % 128 && c == 128 * (c / 128) + c % 128;
    }
  }

  /** A device that changed only inside cluster c: the image changes only there. */
  lemma ClusterChanged(d: Disk, d': Disk, g: Geometry, c: nat)
    requires g.Fits(|d|) && |d'| == |d| && 2 <= c < 128
    requires forall j: nat :: j < |d| && !(g.Lba(c) <= j < g.Lba(c) + g.spc) ==> d'[j] == d[j]
    ensures ImageOf(d', g) == ImageOf(d, g).(data := DataOf(d, g)[c := ClusterOf(d', g, c)])
    ensures forall n: nat :: Mirrored(d, g, n) ==> Mirrored(d', g, n)
  {
    LbaBounds(g, c);
    forall e: nat | e < 128 && e != c ensures ClusterOf(d', g, e) == ClusterOf(d, g, e) {
      if e >= 2 {
        LbaBounds(g, e);
        if e < c { LbaApart(g, e, c); } else { LbaApart(g, c, e); }
        ReadUnchanged(d, d', g.Lba(e), g.spc);
      }
    }
    assert DataOf(d', g) == DataOf(d, g)[c := ClusterOf(d', g, c)];
    assert FatOf(d', g) == FatOf(d, g);
    forall n: nat, j: nat | Mirrored(d, g, n) && j < n && j < g.fatSz ensures Twins(d', g, j) {
      assert Twins(d, g, j);
    }
  }
}
