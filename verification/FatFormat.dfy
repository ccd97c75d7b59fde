/** Formatting a partition: the base case of the volume invariant. */
module FatFormat {
  import opened Prelude
  import opened FatDisk
  import opened FatEntries
  import opened FatChains
  import opened FatVolume

  const PARTITION: nat := 2048
  const RESERVED: nat := 32

  /** The FAT size in sectors, with the 32-bit arithmetic of the source. */
  function FatSectors(sectors: nat): nat {
    var clusters := sectors / 8 % 0x1_0000_0000;
    var bytes := clusters * 4 % 0x1_0000_0000;
    (bytes + 511) % 0x1_0000_0000 / 512
  }

  /** A FAT has 128 sectors or more exactly for partitions of at least 130056 sectors, up to 1016 sectors below four
      tebibytes; from there on the 32-bit arithmetic starts over. */
  lemma FatSizeThreshold(sectors: nat)
    ensures FatSectors(sectors) >= 128 <==> 130056 <= sectors % 0x2_0000_0000 < 0x1_FFFF_FC08
  {
    var c := sectors % 0x2_0000_0000 / 8;
    FatBytes(sectors);
    assert sectors % 0x2_0000_0000 >= 130056 <==> c >= 16257;
    assert sectors % 0x2_0000_0000 < 0x1_FFFF_FC08 <==> c < 0x3FFF_FF81;
    assert 4 * c + 511 >= 0x1_0000_0000 <==> c >= 0x3FFF_FF81;
  }

  /** The FAT size in bytes is four per cluster of the partition, taken modulo four tebibytes. */
  lemma FatBytes(sectors: nat)
    ensures sectors / 8 % 0x1_0000_0000 * 4 % 0x1_0000_0000 == sectors % 0x2_0000_0000 / 8 * 4 < 0x1_0000_0000
  {
    var q, r := sectors / 0x2_0000_0000, sectors % 0x2_0000_0000;
    assert sectors == q * 0x2_0000_0000 + r;
    assert sectors / 8 == q * 0x4000_0000 + r / 8;
    assert sectors / 8 * 4 == q * 0x1_0000_0000 + r / 8 * 4;
    var n := sectors / 8;
    assert n == n / 0x1_0000_0000 * 0x1_0000_0000 + n % 0x1_0000_0000;
    assert n * 4 == n / 0x1_0000_0000 * 4 * 0x1_0000_0000 + n % 0x1_0000_0000 * 4;
    ModSum(n / 0x1_0000_0000 * 4, n % 0x1_0000_0000 * 4);
    ModSum(q, r / 8 * 4);
  }

  /** The FAT has the fewest sectors that hold four bytes for each cluster of the partition, up to 1016 sectors below
      each multiple of four tebibytes, and none from there to the multiple. */
  lemma FatSectorsHold(sectors: nat)
    ensures var n, bytes := FatSectors(sectors), 4 * (sectors % 0x2_0000_0000 / 8);
            if bytes + 511 < 0x1_0000_0000 then 512 * n < bytes + 512 && bytes <= 512 * n else n == 0
  {
    FatBytes(sectors);
  }

  lemma ModSum(k: nat, x: nat)
    ensures (k * 0x1_0000_0000 + x) % 0x1_0000_0000 == x % 0x1_0000_0000
  {}

  function GeometryFor(sectors: nat): Geometry {
    Geometry(PARTITION + RESERVED, FatSectors(sectors), PARTITION + RESERVED + 2 * FatSectors(sectors), 8, 2)
  }

  function Zeros(n: nat): (s: seq<byte>)
    ensures |s| == n
  {
    seq(n, _ => 0)
  }

  function Half(v: nat): seq<byte>
    requires v < 0x1_0000
  {
    [v % 0x100, v / 0x100]
  }

  /** Bytes 0..35 of the boot sector. */
  function BootFront(sectors: nat): (s: seq<byte>)
    ensures |s| == 36 && s[13] == 8 && s[14] == 32 && s[15] == 0 && s[16] == 2
  {
    var start: seq<byte> := [0xEB, 0x58, 0x90, 77, 83, 87, 73, 78, 52, 46, 49];
    start + Half(512) + [8, 32, 0, 2, 0, 0, 0, 0, 0xF8, 0, 0, 32, 0, 64, 0] + Word(2048) + Word(sectors % 0x1_0000_0000)
  }

  /** Bytes 36..63: the FAT size, the root cluster, the places of the other reserved sectors. */
  function BootMiddle(fatSz: nat): (s: seq<byte>)
    requires fatSz < 0x1_0000_0000
    ensures |s| == 28 && s[..4] == Word(fatSz) && s[8..12] == [2, 0, 0, 0]
  {
    Word(fatSz) + [0, 0, 0, 0] + [2, 0, 0, 0] + [1, 0, 6, 0] + Zeros(12)
  }

  /** Bytes 64..511. */
  function BootBack(): (s: seq<byte>)
    ensures |s| == 448
  {
    [0x80, 0, 0x29] + Word(0x1234_5678) + [83, 89, 76, 80, 72, 73, 65, 32, 79, 83, 32] +
        [70, 65, 84, 51, 50, 32, 32, 32] + Zeros(420)
    + [0x55, 0xAA]
  }

  /** The boot sector; the driver reads its parameters back from it. */
  function BootSector(sectors: nat): (s: Sector)
    ensures s[13] == 8 && s[14] == 32 && s[15] == 0 && s[16] == 2 && U32(s, 9) == FatSectors(sectors) && U32(s, 11) == 2
  {
    hide FatSectors, BootFront, BootMiddle, BootBack;
    var n := FatSectors(sectors);
    FatSectorsFit(sectors);
    var s: Sector := BootFront(sectors) + BootMiddle(n) + BootBack();
    Bytes(n);
    assert s[36..40] == BootMiddle(n)[..4] && s[44..48] == BootMiddle(n)[8..12];
    assert s[36] == s[36..40][0] && s[37] == s[36..40][1] && s[38] == s[36..40][2] && s[39] == s[36..40][3];
    assert s[44] == s[44..48][0] && s[45] == s[44..48][1] && s[46] == s[44..48][2] && s[47] == s[44..48][3];
    s
  }

  /** 16- and 32-bit fields at a byte offset, lowest byte first. */
  function Field16(s: Sector, o: nat): nat
    requires o + 1 < 512
  {
    var a: int, b: int := s[o], s[o + 1];
    a + 256 * b
  }

  function Field32(s: Sector, o: nat): nat
    requires o + 3 < 512
  {
    Field16(s, o) + 65536 * Field16(s, o + 2)
  }

  /** The fields of the boot sector at the offsets of the FAT specification: sector and cluster size, reserved sectors,
      FATs, the fields that are zero on FAT32, media, geometry, hidden and total sectors. */
  lemma BootLayout(sectors: nat)
    ensures var s := BootSector(sectors);
            && s[0] == 0xEB && s[1] == 0x58 && s[2] == 0x90
            && Field16(s, 11) == 512 && s[13] == 8 && Field16(s, 14) == 32 && s[16] == 2
            && Field16(s, 17) == 0 && Field16(s, 19) == 0 && s[21] == 0xF8 && Field16(s, 22) == 0
            && Field16(s, 24) == 32 && Field16(s, 26) == 64 && Field32(s, 28) == 2048
            && Field32(s, 32) == sectors % 0x1_0000_0000
  {
    hide FatSectors, BootMiddle, BootBack;
    var s, f := BootSector(sectors), BootFront(sectors);
    FatSectorsFit(sectors);
    assert s[..36] == f;
    Bytes(sectors % 0x1_0000_0000);
    forall i | 0 <= i < 36 ensures s[i] == f[i] { assert s[i] == s[..36][i]; }
  }

  /** The fields of FAT32: the FAT size, flags and version, the root cluster, where the information and backup sectors
      are; then drive, signature and volume id, and the mark at the end. */
  lemma BootLayout32(sectors: nat)
    ensures var s := BootSector(sectors);
            && Field32(s, 36) == FatSectors(sectors) && Field16(s, 40) == 0 && Field16(s, 42) == 0
            && Field32(s, 44) == 2 && Field16(s, 48) == 1 && Field16(s, 50) == 6
            && s[64] == 0x80 && s[66] == 0x29 && Field32(s, 67) == 0x1234_5678 && Field16(s, 510) == 0xAA55
  {
    hide FatSectors, BootFront;
    var n := FatSectors(sectors);
    FatSectorsFit(sectors);
    Bytes(n);
    var s, m, b := BootSector(sectors), BootMiddle(n), BootBack();
    assert s[36..64] == m && s[64..] == b;
    forall i | 0 <= i < 28 ensures s[36 + i] == m[i] { assert s[36 + i] == s[36..64][i]; }
    forall i | 0 <= i < 448 ensures s[64 + i] == b[i] { assert s[64 + i] == s[64..][i]; }
    assert m[12] == 1 && m[13] == 0 && m[14] == 6 && m[15] == 0;
    assert b[3] == 0x78 && b[4] == 0x56 && b[5] == 0x34 && b[6] == 0x12 && b[446] == 0x55 && b[447] == 0xAA;
  }

  /** The information sector: its three signatures, one cluster less than there are as free, 3 as the next, and
      zeros. */
  lemma InfoLayout(sectors: nat, k: nat)
    requires k < 128
    ensures U32(InfoSector(sectors), k) ==
            if k == 0 then 0x4161_5252 else if k == 121 then 0x6141_7272
            else if k == 122 then (sectors / 8 + 0xFFFF_FFFF) % 0x1_0000_0000
            else if k == 123 then 3 else if k == 127 then 0xAA55_0000 else 0
  {
    hide U32, PutU32, Zeros;
    var free := (sectors / 8 % 0x1_0000_0000 + 0xFFFF_FFFF) % 0x1_0000_0000;
    var z: Sector := Zeros(512);
    var a: Sector := PutU32(z, 0, 0x4161_5252);
    var b: Sector := PutU32(a, 121, 0x6141_7272);
    var c: Sector := PutU32(b, 122, free);
    var d: Sector := PutU32(c, 123, 3);
    ZeroWord(k);
    U32AfterPut(z, 0, 0x4161_5252, k);
    U32AfterPut(a, 121, 0x6141_7272, k);
    U32AfterPut(b, 122, free, k);
    U32AfterPut(c, 123, 3, k);
    U32AfterPut(d, 127, 0xAA55_0000, k);
    ModSum(sectors / 8 / 0x1_0000_0000, sectors / 8 % 0x1_0000_0000 + 0xFFFF_FFFF);
    assert sectors / 8 + 0xFFFF_FFFF
        == sectors / 8 / 0x1_0000_0000 * 0x1_0000_0000 + (sectors / 8 % 0x1_0000_0000 + 0xFFFF_FFFF);
  }

  lemma FatSectorsFit(sectors: nat)
    ensures FatSectors(sectors) < 0x1_0000_0000
  {}

  function InfoSector(sectors: nat): Sector {
    var clusters := sectors / 8 % 0x1_0000_0000;
    var s: Sector := Zeros(512);
    PutU32(PutU32(PutU32(PutU32(PutU32(s, 0, 0x4161_5252), 121, 0x6141_7272), 122,
           (clusters + 0xFFFF_FFFF) % 0x1_0000_0000), 123, 3),
           127, 0xAA55_0000)
  }

  /** The first FAT sector: two reserved words and the root directory's end mark. */
  function FirstFatSector(): Sector {
    PutU32(PutU32(PutU32(Zeros(512), 0, 0x0FFF_FFF8), 1, EOC), 2, EOC)
  }

  /** The parameters the driver reads from the boot sector of a partition. */
  function ReadGeometry(d: Disk, part: nat): Geometry
    requires part < |d|
  {
    var b := d[part];
    var lo: int, hi: int, fats: int, spc: int := b[14], b[15], b[16], b[13];
    var fatStart := part + lo + 0x100 * hi;
    Geometry(fatStart, U32(b, 9), fatStart + fats * U32(b, 9), spc, U32(b, 11))
  }

  /** Sectors lba + from .. lba + to of d' are zero, the others are those of d. */
  ghost predicate Cleared(d: Disk, d': Disk, lba: nat, from: nat, to: nat) {
    && |d'| == |d|
    && (forall j: nat :: j < |d| && !(lba + from <= j < lba + to) ==> d'[j] == d[j])
    && (forall j: nat :: j < |d| && lba + from <= j < lba + to ==> d'[j] == Zeros(512))
  }

  method ClearSectors(disk: Disk, lba: nat, from: nat, to: nat) returns (d: Disk)
    requires from <= to && lba + to <= |disk|
    ensures Cleared(disk, d, lba, from, to)
  {
    d := disk;
    for i := from to to
      invariant Cleared(disk, d, lba, from, i)
    {
      d := d[lba + i := Zeros(512)];
    }
  }

  /** Sectors the format clears: the starts of both FATs after their first sectors, and the root directory. */
  predicate Blank(g: Geometry, j: nat) {
    || (g.fatStart < j < g.fatStart + 128 && j < g.fatStart + g.fatSz)
    || (g.fatStart + g.fatSz < j < g.fatStart + g.fatSz + 128 && j < g.dataStart)
    || g.dataStart <= j < g.dataStart + 8
  }

  /** Sectors the format writes: the boot and information sectors with their copies, 128 sectors of each FAT, the root
      directory. */
  predicate Written(g: Geometry, j: nat) {
    || j == 2048 || j == 2049 || j == 2054 || j == 2055
    || g.fatStart <= j < g.fatStart + 128 || g.fatStart + g.fatSz <= j < g.fatStart + g.fatSz + 128
    || g.dataStart <= j < g.dataStart + 8
  }

  /** What the formatted device holds, sector by sector. */
  ghost predicate Formatted(disk: Disk, d: Disk, sectors: nat) {
    var g := GeometryFor(sectors);
    && |d| == |disk| && g.Fits(|d|) && g.fatSz > 0
    && d[2048] == BootSector(sectors) && d[2054] == BootSector(sectors)
    && d[2049] == InfoSector(sectors) && d[2055] == InfoSector(sectors)
    && (forall j: nat :: j < |d| && !Written(g, j) ==> d[j] == disk[j])
    && g.fatStart == 2048 + 32 && g.dataStart == 2048 + 32 + 2 * g.fatSz
    && d[PARTITION] == BootSector(sectors) && d[g.fatStart] == FirstFatSector()
    && d[g.fatStart + g.fatSz] == (if g.fatSz >= 128 then FirstFatSector() else Zeros(512))
    && (forall j: nat :: Blank(g, j) ==> d[j] == Zeros(512))
    && (forall j: nat ::
          (g.fatStart + 128 <= j < g.fatStart + g.fatSz || g.fatStart + g.fatSz + 128 <= j < g.dataStart) ==>
            d[j] == disk[j])
  }

  const EMPTY: Volume := Volume({2}, map[], map[])

  /** Formats the partition. The result is the empty volume; the first 128 sectors of the two FAT copies agree exactly
      when a FAT has at least 128 sectors, and the sectors after them are not touched. */
  method FormatPartitionFAT32(disk: Disk, sectors: nat) returns (d: Disk)
    requires GeometryFor(sectors).Fits(|disk|)
    ensures var g := GeometryFor(sectors);
            && |d| == |disk| && ReadGeometry(d, PARTITION) == g
            && VolInv(ImageOf(d, g), Layout(4096, 2), EMPTY) && Closed(ImageOf(d, g).fat, 128)
            && (Mirrored(d, g, 128) <==> g.fatSz >= 128)
            && (g.fatSz >= 128 ==> forall k: nat :: 128 <= k < g.fatSz ==> (Twins(d, g, k) <==> Twins(disk, g, k)))
    ensures Formatted(disk, d, sectors)
  {
    hide BootSector, InfoSector, FirstFatSector, FatSectors, Formatted, Cleared, Geometry.Fits, VolInv, Closed, ImageOf,
         Mirrored, Twins, ReadGeometry;
    var fatSz := FatSectors(sectors);
    var fat1 := PARTITION + RESERVED;
    var fat2 := fat1 + fatSz;
    FormatFits(sectors, |disk|);
    d := WriteHeads(disk, sectors);
    ghost var d1 := d;
    d := ClearSectors(d, fat1, 1, 128);
    ghost var d2 := d;
    d := ClearSectors(d, fat2, 1, 128);
    ghost var d3 := d;
    d := ClearSectors(d, PARTITION + RESERVED + 2 * fatSz, 0, 8);
    FormattedSteps(disk, d1, d2, d3, d, sectors);
    FormattedHolds(disk, d, sectors);
  }

  lemma FormatFits(sectors: nat, blocks: nat)
    requires GeometryFor(sectors).Fits(blocks)
    ensures var n := FatSectors(sectors); n > 0 && 2080 + 2 * n + 1008 <= blocks
  {
    hide FatSectors;
  }

  /** The boot and information sectors, their copies, and the first sectors of the FATs are written. */
  ghost predicate HeadsWritten(disk: Disk, d: Disk, sectors: nat) {
    var n := FatSectors(sectors);
    && |d| == |disk| && n > 0 && 2080 + 2 * n + 1008 <= |d|
    && d[2048] == BootSector(sectors) && d[2054] == BootSector(sectors)
    && d[2049] == InfoSector(sectors) && d[2055] == InfoSector(sectors)
    && d[2080] == FirstFatSector() && d[2080 + n] == FirstFatSector()
    && (forall j: nat :: j < |d| && j !in {2048, 2049, 2054, 2055, 2080, 2080 + n} ==> d[j] == disk[j])
  }

  method WriteHeads(disk: Disk, sectors: nat) returns (d: Disk)
    requires FatSectors(sectors) > 0 && 2080 + 2 * FatSectors(sectors) + 1008 <= |disk|
    ensures HeadsWritten(disk, d, sectors)
  {
    hide BootSector, InfoSector, FirstFatSector, FatSectors;
    d := disk[PARTITION := BootSector(sectors)][PARTITION + 6 := BootSector(sectors)];
    d := d[PARTITION + 1 := InfoSector(sectors)][PARTITION + 7 := InfoSector(sectors)];
    d := d[PARTITION + RESERVED := FirstFatSector()];
    d := d[PARTITION + RESERVED + FatSectors(sectors) := FirstFatSector()];
  }

  lemma FormattedSteps(disk: Disk, d1: Disk, d2: Disk, d3: Disk, d: Disk, sectors: nat)
    requires GeometryFor(sectors).Fits(|disk|) && HeadsWritten(disk, d1, sectors)
    requires var n := FatSectors(sectors);
             && Cleared(d1, d2, 2080, 1, 128) && Cleared(d2, d3, 2080 + n, 1, 128)
             && Cleared(d3, d, 2080 + 2 * n, 0, 8)
    ensures Formatted(disk, d, sectors)
  {
    hide BootSector, InfoSector, FirstFatSector, FatSectors, Zeros;
  }

  lemma FormattedHolds(disk: Disk, d: Disk, sectors: nat)
    requires Formatted(disk, d, sectors)
    ensures var g := GeometryFor(sectors);
            && ReadGeometry(d, PARTITION) == g
            && VolInv(ImageOf(d, g), Layout(4096, 2), EMPTY) && Closed(ImageOf(d, g).fat, 128)
            && (Mirrored(d, g, 128) <==> g.fatSz >= 128)
            && (g.fatSz >= 128 ==> forall k: nat :: 128 <= k < g.fatSz ==> (Twins(d, g, k) <==> Twins(disk, g, k)))
  {
    hide FatSectors, BootSector, U32, FirstFatSector, Zeros, VolInv, ImageOf;
    var g := GeometryFor(sectors);
    BootFields(sectors);
    FormattedVolume(disk, d, sectors);
    FirstFatWords();
    if g.fatSz >= 128 {
      forall k: nat | k < 128 && k < g.fatSz ensures Twins(d, g, k) {}
    } else {
      assert !Twins(d, g, 0);
    }
  }

  lemma BootFields(sectors: nat)
    ensures var s := BootSector(sectors);
            s[13] == 8 && s[14] == 32 && s[15] == 0 && s[16] == 2 && U32(s, 9) == FatSectors(sectors) && U32(s, 11) == 2
  {
    hide FatSectors;
  }

  lemma ZeroWord(k: nat)
    requires k < 128
    ensures U32(Zeros(512), k) == 0
  {}

  lemma FirstFatWords()
    ensures U32(FirstFatSector(), 0) == 0x0FFF_FFF8 && U32(FirstFatSector(), 1) == EOC
            && U32(FirstFatSector(), 2) == EOC
    ensures forall k: nat :: 3 <= k < 128 ==> U32(FirstFatSector(), k) == 0
    ensures FirstFatSector() != Zeros(512)
  {
    hide U32, PutU32, Zeros;
    var z: Sector := Zeros(512);
    var a: Sector := PutU32(z, 0, 0x0FFF_FFF8);
    var b: Sector := PutU32(a, 1, EOC);
    forall k: nat | k < 128
      ensures U32(FirstFatSector(), k) == if k == 0 then 0x0FFF_FFF8 else if k <= 2 then EOC else 0
    {
      ZeroWord(k);
      U32AfterPut(z, 0, 0x0FFF_FFF8, k);
      U32AfterPut(a, 1, EOC, k);
      U32AfterPut(b, 2, EOC, k);
    }
    ZeroWord(0);
  }

  lemma FormattedVolume(disk: Disk, d: Disk, sectors: nat)
    requires Formatted(disk, d, sectors)
    ensures var g := GeometryFor(sectors);
            VolInv(ImageOf(d, g), Layout(4096, 2), EMPTY) && Closed(ImageOf(d, g).fat, 128)
  {
    hide VolInv, ImageOf, Closed, Slots, EntryAt, Wf, FatSectors;
    var g := GeometryFor(sectors);
    FormattedTable(disk, d, sectors);
    EmptyRoot(disk, d, sectors);
    WellFormed(d, g);
    EmptyVolume(ImageOf(d, g));
  }

  lemma FormattedTable(disk: Disk, d: Disk, sectors: nat)
    requires Formatted(disk, d, sectors)
    ensures var t := ImageOf(d, GeometryFor(sectors)).fat; |t| > 2 && t[2] == EOC && Closed(t, 128)
  {
    hide FatSectors, BootSector, InfoSector, U32, FirstFatSector, Zeros, DataOf;
    var a := ImageOf(d, GeometryFor(sectors));
    FirstFatWords();
    forall c: nat | c < 128 ensures a.fat[c] == U32(FirstFatSector(), c) {
      assert c / 128 == 0 && c % 128 == c;
    }
  }

  lemma WellFormed(d: Disk, g: Geometry)
    requires g.Fits(|d|) && g.spc == 8
    ensures Wf(ImageOf(d, g), Layout(4096, 2))
  {
    var a := ImageOf(d, g);
    assert forall c: nat :: 2 <= c < 128 ==> |a.data[c]| == g.ClusterBytes();
  }

  lemma EmptyVolume(a: Image)
    requires Wf(a, Layout(4096, 2)) && a.fat[2] == EOC
    requires forall i: nat :: i < Slots(a.data[2]) ==> EntryAt(a.data[2], i)[0] == 0
    ensures VolInv(a, Layout(4096, 2), EMPTY)
  {
    assert DirOk(a, Layout(4096, 2), EMPTY, 2);
  }

  lemma EmptyRoot(disk: Disk, d: Disk, sectors: nat)
    requires Formatted(disk, d, sectors)
    ensures var a := ImageOf(d, GeometryFor(sectors));
            |a.data[2]| == 4096 && forall i: nat :: i < Slots(a.data[2]) ==> EntryAt(a.data[2], i)[0] == 0
  {
    hide FatSectors, BootSector, U32, FirstFatSector;
    var g := GeometryFor(sectors);
    var buf := ImageOf(d, g).data[2];
    assert buf == ReadSectors(d, g.dataStart, 8);
    forall x: nat | x < 4096 ensures buf[x] == 0 {
      assert d[g.dataStart + x / 512] == Zeros(512);
    }
    forall i: nat | i < Slots(buf) ensures EntryAt(buf, i)[0] == 0 { assert EntryAt(buf, i)[0] == buf[32 * i]; }
  }
}
