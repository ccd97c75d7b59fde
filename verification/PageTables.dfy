/** Page-table entries, tables and the hardware's four-level walk. */
module PageTables {
  const FRAME_BITS: nat := 0x100_0000_0000    // 2^40: the width of the address field
  const ADDRESSES: nat := 0x1_0000_0000_0000_0000
  const VPAGES: nat := 0x10_0000_0000         // 2^36 virtual pages

  /** Bits the kernel neither tests nor sets, except when it copies whole entries. */
  datatype Attr = Attr(pwt: bool, pcd: bool, accessed: bool, dirty: bool, global: bool,
                       avail: nat, avail2: nat, nx: bool)

  /** A 40-bit frame number. */
  type Frame = f: nat | f < FRAME_BITS

  datatype Entry = Entry(present: bool, rw: bool, us: bool, huge: bool, frame: Frame, attr: Attr)

  const ZERO_ATTR := Attr(false, false, false, false, false, 0, 0, false)
  const ZERO_ENTRY := Entry(false, false, false, false, 0, ZERO_ATTR)

  /** One 4 KB frame seen as 512 entries. */
  type Table = t: seq<Entry> | |t| == 512 witness seq(512, _ => ZERO_ENTRY)

  const ZERO_TABLE: Table := seq(512, _ => ZERO_ENTRY)

  /** Physical memory, by frame number. */
  type Memory = map<nat, Table>

  /** The kPresent, kWritable and kUser bits of a flags argument. */
  datatype Flags = Flags(p: bool, w: bool, u: bool)

  /** `SetAddress`: 40 bits of frame number are kept. */
  function WithFrame(e: Entry, f: nat): Entry {
    e.(frame := f % FRAME_BITS)
  }

  /** A virtual page, as its four table indices. */
  datatype Page = Page(a: nat, b: nat, c: nat, d: nat) {
    ghost predicate Valid() { a < 512 && b < 512 && c < 512 && d < 512 }

    function Number(): nat { ((a * 512 + b) * 512 + c) * 512 + d }
  }

  /** The table indices of a virtual address. */
  function PageOf(vaddr: nat): (q: Page)
    ensures q.Valid()
  {
    Page((vaddr / 0x80_0000_0000) % 512, (vaddr / 0x4000_0000) % 512, (vaddr / 0x20_0000) % 512, (vaddr / 0x1000) % 512)
  }

  /** The indices are the base-512 digits of the 36-bit page number. */
  lemma PageOfNumber(vaddr: nat)
    ensures PageOf(vaddr).Number() == (vaddr / 0x1000) % VPAGES
  {
    var n := vaddr / 0x1000;
    assert VPAGES == 0x10_0000_0000;
    Levels(vaddr, n);
    Digit2(n / 512 / 512);
    Digit3(n / 512);
    Digit4(n);
  }

  lemma Digit2(n: nat)
    ensures n % 0x4_0000 == (n / 512) % 512 * 512 + n % 512
  {
    var x := n / 512;
    var y, s, r := x / 512, x % 512, n % 512;
    assert n == 512 * x + r && x == 512 * y + s;
    Unique2(n, y, s * 512 + r);
  }

  lemma Unique2(n: nat, q: nat, r: nat)
    requires n == 0x4_0000 * q + r && r < 0x4_0000
    ensures n % 0x4_0000 == r
  {}

  lemma Digit3(n: nat)
    ensures n % 0x800_0000 == (n / 512) % 0x4_0000 * 512 + n % 512
  {
    var x := n / 512;
    var y, s, r := x / 0x4_0000, x % 0x4_0000, n % 512;
    assert n == 512 * x + r && x == 0x4_0000 * y + s;
    Unique3(n, y, s * 512 + r);
  }

  lemma Unique3(n: nat, q: nat, r: nat)
    requires n == 0x800_0000 * q + r && r < 0x800_0000
    ensures n % 0x800_0000 == r
  {}

  lemma Digit4(n: nat)
    ensures n % 0x10_0000_0000 == (n / 512) % 0x800_0000 * 512 + n % 512
  {
    var x := n / 512;
    var y, s, r := x / 0x800_0000, x % 0x800_0000, n % 512;
    assert n == 512 * x + r && x == 0x800_0000 * y + s;
    Unique4(n, y, s * 512 + r);
  }

  lemma Unique4(n: nat, q: nat, r: nat)
    requires n == 0x10_0000_0000 * q + r && r < 0x10_0000_0000
    ensures n % 0x10_0000_0000 == r
  {}

  /** The i-th page address of a range: 64-bit arithmetic. */
  function At(addr: nat, i: nat): nat {
    (addr + i * 0x1000) % ADDRESSES
  }

  /** Up to 2^36 consecutive pages are pairwise different. */
  lemma RangeIsInjective(vaddr: nat, i: nat, j: nat)
    requires i < j < i + VPAGES
    ensures PageOf(At(vaddr, i)) != PageOf(At(vaddr, j))
  {
    PageOfNumber(At(vaddr, i));
    PageOfNumber(At(vaddr, j));
    PageNumberAt(vaddr, i);
    PageNumberAt(vaddr, j);
    ModDistinct(vaddr / 0x1000 + i, vaddr / 0x1000 + j);
    assert PageOf(At(vaddr, i)).Number() != PageOf(At(vaddr, j)).Number();
  }

  lemma ModDistinct(x: nat, y: nat)
    requires x < y < x + VPAGES
    ensures x % VPAGES != y % VPAGES
  {
    assert VPAGES == 0x10_0000_0000;
    assert x == 0x10_0000_0000 * (x / 0x10_0000_0000) + x % 0x10_0000_0000;
    assert y == 0x10_0000_0000 * (y / 0x10_0000_0000) + y % 0x10_0000_0000;
  }

  /** Dropping whole multiples of 2^64 bytes drops whole multiples of 2^36 pages. */
  lemma PageNumberAt(vaddr: nat, i: nat)
    ensures (At(vaddr, i) / 0x1000) % VPAGES == (vaddr / 0x1000 + i) % VPAGES
  {
    var x := vaddr + i * 0x1000;
    var k, y := x / 0x1_0000_0000_0000_0000, x % 0x1_0000_0000_0000_0000;
    assert VPAGES == 0x10_0000_0000 && ADDRESSES == 0x1_0000_0000_0000_0000 && y == At(vaddr, i);
    assert x == y + k * 0x1_0000_0000_0000_0000;
    assert x / 0x1000 == vaddr / 0x1000 + i;
    assert x / 0x1000 == y / 0x1000 + (k * 0x1_0000) * 0x10_0000_0000;
    DropMultiple(y / 0x1000, k * 0x1_0000);
  }

  lemma DropMultiple(m: nat, k: nat)
    ensures (m + k * 0x10_0000_0000) % 0x10_0000_0000 == m % 0x10_0000_0000
  {
    var q, r := m / 0x10_0000_0000, m % 0x10_0000_0000;
    assert m == 0x10_0000_0000 * q + r;
    Unique4(m + k * 0x10_0000_0000, q + k, r);
  }

  /** Byte o of the memory from an address on: 64-bit arithmetic. */
  function Byte(addr: nat, o: nat): nat { (addr + o) % ADDRESSES }

  /** Byte o of a page-aligned range lies on page o / 4096 of it. */
  lemma ByteOnPage(addr: nat, o: nat)
    requires addr % 0x1000 == 0
    ensures PageOf(Byte(addr, o)) == PageOf(At(addr, o / 0x1000))
  {
    hide PageOf;
    var i, r := o / 0x1000, o % 0x1000;
    var x := addr + i * 0x1000;
    assert o == i * 0x1000 + r;
    OffsetFits(x, r);
    SamePage(At(addr, i), r);
  }

  /** A page offset does not carry into the page number. */
  lemma OffsetFits(x: nat, r: nat)
    requires x % 0x1000 == 0 && r < 0x1000
    ensures (x + r) % ADDRESSES == x % ADDRESSES + r && x % ADDRESSES % 0x1000 == 0
  {
    var k, y := x / 0x1_0000_0000_0000_0000, x % 0x1_0000_0000_0000_0000;
    assert ADDRESSES == 0x1_0000_0000_0000_0000 && x == k * 0x1_0000_0000_0000_0000 + y;
    assert y % 0x1000 == 0;
    assert y / 0x1000 * 0x1000 == y;
    assert y + r < 0x1_0000_0000_0000_0000;
    assert x + r == k * 0x1_0000_0000_0000_0000 + (y + r);
  }

  lemma SamePage(x: nat, r: nat)
    requires x % 0x1000 == 0 && r < 0x1000
    ensures PageOf(x + r) == PageOf(x)
  {
    var n := x / 0x1000;
    assert x == 0x1000 * n;
    assert (x + r) / 0x1000 == n;
    Levels(x, n);
    Levels(x + r, n);
  }

  /** The indices depend on the page number only. */
  lemma Levels(x: nat, n: nat)
    requires n == x / 0x1000
    ensures PageOf(x) == Page((n / 512 / 512 / 512) % 512, (n / 512 / 512) % 512, (n / 512) % 512, n % 512)
  {
    assert x / 0x20_0000 == n / 512;
    assert x / 0x4000_0000 == n / 512 / 512;
    assert x / 0x80_0000_0000 == n / 512 / 512 / 512;
  }

  datatype Translation = Fault | To(frame: nat, w: bool, u: bool)

  /** The walk of the hardware: section 4.5 of the Intel SDM, volume 3A. Write and user access need the
      right at every level (section 4.6). A 2 MB entry supplies bits 51:21 of the address, a 1 GB entry bits 51:30. */
  function Walk(m: Memory, root: nat, q: Page): Translation
    requires q.Valid()
  {
    if root !in m then Fault else
    var e4 := m[root][q.a];
    if !e4.present || e4.frame !in m then Fault else
    var e3 := m[e4.frame][q.b];
    var w3, u3 := e4.rw && e3.rw, e4.us && e3.us;
    if !e3.present then Fault
    else if e3.huge then To(e3.frame / 0x40000 * 0x40000 + q.c * 512 + q.d, w3, u3)
    else if e3.frame !in m then Fault else
    var e2 := m[e3.frame][q.c];
    var w2, u2 := w3 && e2.rw, u3 && e2.us;
    if !e2.present then Fault
    else if e2.huge then To(e2.frame / 512 * 512 + q.d, w2, u2)
    else if e2.frame !in m then Fault else
    var e1 := m[e2.frame][q.d];
    if !e1.present then Fault else To(e1.frame, w2 && e1.rw, u2 && e1.us)
  }

  /** The translation a mapping call asks for. */
  function Requested(paddr: nat, flags: Flags): Translation {
    if flags.p then To((paddr / 0x1000) % FRAME_BITS, flags.w, flags.u) else Fault
  }
}
