/** Directory entries: 32 bytes each, packed into the cluster of a directory. */
module FatEntries {
  import opened Prelude
  import opened FatDisk

  const FILE: byte := 0x20
  const DIRECTORY: byte := 0x10
  const LONG_NAME: byte := 0x0F
  const DELETED: byte := 0xE5

  /** One 32-byte entry. */
  type DirEntry = e: seq<byte> | |e| == 32 witness seq(32, _ => 0)

  function NameOf(e: DirEntry): seq<byte> { e[..11] }
  function AttrOf(e: DirEntry): byte { e[11] }

  function StartOf(e: DirEntry): (c: nat)
    ensures c < 0x1_0000_0000
  {
    var h0: int, h1: int, l0: int, l1: int := e[20], e[21], e[26], e[27];
    (h0 + 0x100 * h1) * 0x1_0000 + l0 + 0x100 * l1
  }

  function SizeOf(e: DirEntry): (n: nat)
    ensures n < 0x1_0000_0000
  {
    var a: int, b: int, c: int, d: int := e[28], e[29], e[30], e[31];
    a + 0x100 * b + 0x1_0000 * c + 0x100_0000 * d
  }

  /** Never used, or deleted: the slot may be taken. */
  predicate Vacant(e: DirEntry) { e[0] == 0 || e[0] == DELETED }

  function Word(v: nat): seq<byte>
    requires v < 0x1_0000_0000
  {
    [v % 0x100, v / 0x100 % 0x100, v / 0x1_0000 % 0x100, v / 0x100_0000]
  }

  /** The entry `AddDirectoryEntry` writes. */
  function MakeEntry(name: seq<byte>, cluster: nat, size: nat, attr: byte): (e: DirEntry)
    requires |name| == 11 && cluster < 0x1_0000_0000 && size < 0x1_0000_0000
  {
    name + [attr] + [0, 0, 0, 0, 0, 0, 0, 0] + [cluster / 0x1_0000 % 0x100, cluster / 0x100_0000]
    + [0, 0, 0, 0] + [cluster % 0x100, cluster / 0x100 % 0x100] + Word(size)
  }

  /** The entry with a new size field. */
  function WithSize(e: DirEntry, size: nat): DirEntry
    requires size < 0x1_0000_0000
  {
    e[..28] + Word(size)
  }

  /** Creating an entry and reading its fields back gives what was put in. */
  lemma MakeEntryFields(name: seq<byte>, cluster: nat, size: nat, attr: byte)
    requires |name| == 11 && cluster < 0x1_0000_0000 && size < 0x1_0000_0000
    ensures var e := MakeEntry(name, cluster, size, attr);
            NameOf(e) == name && AttrOf(e) == attr && StartOf(e) == cluster && SizeOf(e) == size && e[0] == name[0]
  {
    var e := MakeEntry(name, cluster, size, attr);
    Bytes(size);
    Bytes(cluster);
    assert e[11] == attr;
    assert e[20] == cluster / 0x1_0000 % 0x100 && e[21] == cluster / 0x100_0000;
    assert e[26] == cluster % 0x100 && e[27] == cluster / 0x100 % 0x100;
    assert e[28] == size % 0x100 && e[29] == size / 0x100 % 0x100 && e[30] == size / 0x1_0000 % 0x100
      && e[31] == size / 0x100_0000;
  }

  /** The layout of an entry on the disk: the name from byte 0, the attribute at 11, the high half of the start cluster
      at 20, its low half at 26 and the size at 28, each lowest byte first; everything else is zero. */
  lemma EntryLayout(name: seq<byte>, cluster: nat, size: nat, attr: byte, i: nat)
    requires |name| == 11 && cluster < 0x1_0000_0000 && size < 0x1_0000_0000 && i < 32
    ensures MakeEntry(name, cluster, size, attr)[i] ==
            if i < 11 then name[i] else if i == 11 then attr
            else if i == 20 then cluster / 65536 % 256 else if i == 21 then cluster / 16777216
            else if i == 26 then cluster % 256 else if i == 27 then cluster / 256 % 256
            else if i == 28 then size % 256 else if i == 29 then size / 256 % 256
            else if i == 30 then size / 65536 % 256 else if i == 31 then size / 16777216 else 0
  {}

  lemma WithSizeFields(e: DirEntry, size: nat)
    requires size < 0x1_0000_0000
    ensures var f := WithSize(e, size);
            NameOf(f) == NameOf(e) && AttrOf(f) == AttrOf(e) && StartOf(f) == StartOf(e) && SizeOf(f) == size
                   && f[0] == e[0]
  {
    Bytes(size);
  }

  // ---------- the slots of a directory cluster ----------

  function Slots(dir: seq<byte>): nat { |dir| / 32 }

  function EntryAt(dir: seq<byte>, i: nat): DirEntry
    requires i < Slots(dir)
  {
    dir[32 * i..32 * i + 32]
  }

  function PutEntry(dir: seq<byte>, i: nat, e: DirEntry): (d: seq<byte>)
    requires i < Slots(dir)
    ensures |d| == |dir|
  {
    dir[..32 * i] + e + dir[32 * i + 32..]
  }

  /** Writing one slot leaves the others alone. */
  lemma EntryAfterPut(dir: seq<byte>, i: nat, e: DirEntry, j: nat)
    requires i < Slots(dir) && j < Slots(dir)
    ensures EntryAt(PutEntry(dir, i, e), j) == if j == i then e else EntryAt(dir, j)
  {
    var d := PutEntry(dir, i, e);
    var t := if j == i then e else EntryAt(dir, j);
    forall k | 0 <= k < 32 ensures EntryAt(d, j)[k] == t[k] {}
  }

  /** The first slot that may be taken, from slot i on. */
  function FirstVacant(dir: seq<byte>, i: nat): (r: Option<nat>)
    requires i <= Slots(dir)
    ensures r.Some? ==> i <= r.value < Slots(dir) && Vacant(EntryAt(dir, r.value))
                        && forall j: nat :: i <= j < r.value ==> !Vacant(EntryAt(dir, j))
    ensures r.None? ==> forall j: nat :: i <= j < Slots(dir) ==> !Vacant(EntryAt(dir, j))
    decreases Slots(dir) - i
  {
    if i == Slots(dir) then None
    else if Vacant(EntryAt(dir, i)) then Some(i)
    else FirstVacant(dir, i + 1)
  }

  /** A slot a lookup of `key` stops at with success. */
  predicate Matches(e: DirEntry, key: seq<byte>) {
    !Vacant(e) && AttrOf(e) != LONG_NAME && NameOf(e) == key
  }

  /** The scan of `FindDirectoryEntry`, `DeleteFile` and `AppendFile`: a zero first byte ends it. */
  function Find(dir: seq<byte>, key: seq<byte>, i: nat): (r: Option<nat>)
    requires i <= Slots(dir)
    ensures r.Some? ==> i <= r.value < Slots(dir) && Matches(EntryAt(dir, r.value), key)
    decreases Slots(dir) - i
  {
    if i == Slots(dir) || EntryAt(dir, i)[0] == 0 then None
    else if Matches(EntryAt(dir, i), key) then Some(i)
    else Find(dir, key, i + 1)
  }

  /** Once a slot has never been used, no later slot has been. */
  ghost predicate TailUnused(dir: seq<byte>) {
    forall i: nat, j: nat :: i < j < Slots(dir) && EntryAt(dir, i)[0] == 0 ==> EntryAt(dir, j)[0] == 0
  }

  /** The scan finds the first matching slot, whatever was deleted before it. */
  lemma {:induction false} FindIsFirst(dir: seq<byte>, key: seq<byte>, i: nat)
    requires i <= Slots(dir) && TailUnused(dir)
    ensures Find(dir, key, i).Some? ==> forall j: nat :: i <= j < Find(dir, key, i).value ==>
              !Matches(EntryAt(dir, j), key)
    ensures Find(dir, key, i).None? ==> forall j: nat :: i <= j < Slots(dir) ==> !Matches(EntryAt(dir, j), key)
    decreases Slots(dir) - i
  {
    if i < Slots(dir) && EntryAt(dir, i)[0] != 0 && !Matches(EntryAt(dir, i), key) {
      FindIsFirst(dir, key, i + 1);
    }
  }

  /** The bytes of slot i hold a live entry of the name `key`: in use, not deleted, no part of a long name. */
  predicate NamedAt(dir: seq<byte>, key: seq<byte>, i: nat) {
    && 32 * i + 32 <= |dir| && dir[32 * i] != 0 && dir[32 * i] != 0xE5 && dir[32 * i + 11] != 0x0F
    && dir[32 * i..32 * i + 11] == key
  }

  /** The bytes of slot i are free to be written: never used, or deleted. */
  predicate FreeAt(dir: seq<byte>, i: nat) {
    32 * i + 32 <= |dir| && (dir[32 * i] == 0 || dir[32 * i] == 0xE5)
  }

  /** The scan finds slot i exactly when it is the first whose bytes hold a live entry of the name. */
  lemma FindIff(dir: seq<byte>, key: seq<byte>, i: nat)
    requires TailUnused(dir)
    ensures Find(dir, key, 0) == Some(i) <==> NamedAt(dir, key, i) && forall j: nat :: j < i ==> !NamedAt(dir, key, j)
    ensures Find(dir, key, 0).None? ==> !NamedAt(dir, key, i)
  {
    hide Find, TailUnused;
    FindIsFirst(dir, key, 0);
    forall j: nat ensures NamedAt(dir, key, j) <==> j < Slots(dir) && Matches(EntryAt(dir, j), key) {
      if j < Slots(dir) { assert EntryAt(dir, j)[..11] == dir[32 * j..32 * j + 11]; }
    }
  }

  /** A new entry goes to slot i exactly when it is the first whose bytes are free. */
  lemma VacantIff(dir: seq<byte>, i: nat)
    ensures FirstVacant(dir, 0) == Some(i) <==> FreeAt(dir, i) && forall j: nat :: j < i ==> !FreeAt(dir, j)
    ensures FirstVacant(dir, 0).None? ==> !FreeAt(dir, i)
  {
    hide FirstVacant;
    forall j: nat ensures FreeAt(dir, j) <==> j < Slots(dir) && Vacant(EntryAt(dir, j)) {}
  }

  lemma VacantFound(dir: seq<byte>)
    ensures var r := FirstVacant(dir, 0);
            && (r.Some? ==> FreeAt(dir, r.value)) && (forall j: nat :: r.None? || j < r.value ==> !FreeAt(dir, j))
  {
    hide FirstVacant, FreeAt;
    var r := FirstVacant(dir, 0);
    if r.Some? { VacantIff(dir, r.value); }
    forall j: nat { VacantIff(dir, j); }
  }

  /** Taking the first vacant slot keeps the unused slots together at the end. */
  lemma PutKeepsTail(dir: seq<byte>, i: nat, e: DirEntry)
    requires i < Slots(dir) && TailUnused(dir) && e[0] != 0
    requires EntryAt(dir, i)[0] != 0 || forall j: nat :: j < i ==> EntryAt(dir, j)[0] != 0
    ensures TailUnused(PutEntry(dir, i, e))
  {
    var d := PutEntry(dir, i, e);
    forall j: nat, k: nat | j < k < Slots(d) && EntryAt(d, j)[0] == 0 ensures EntryAt(d, k)[0] == 0 {
      EntryAfterPut(dir, i, e, j);
      EntryAfterPut(dir, i, e, k);
    }
  }
}
