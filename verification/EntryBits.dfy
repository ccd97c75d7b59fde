/** The 64-bit words behind page-table entries. */
module EntryBits {
  import opened PageTables
  import opened PageSteps

  function Bit(b: bool): nat { if b then 1 else 0 }

  function Pow2(n: nat): nat { if n == 0 then 1 else 2 * Pow2(n - 1) }

  /** A number of bits, lowest first. */
  function Horner(bits: seq<bool>): (n: nat)
    ensures n < Pow2(|bits|)
  {
    if bits == [] then 0 else Bit(bits[0]) + 2 * Horner(bits[1..])
  }

  function MidSeq(e: Entry): (s: seq<bool>)
    ensures |s| == 6
  {
    [e.rw, e.us, e.attr.pwt, e.attr.pcd, e.attr.accessed, e.attr.dirty]
  }

  /** Bits 1 to 6 of an entry. */
  function MidBits(e: Entry): (n: nat)
    ensures n < 64
  {
    assert Pow2(6) == 64;
    Horner(MidSeq(e))
  }

  /** Bits 8 to 11. */
  function TopBits(e: Entry): (n: nat)
    requires e.attr.avail < 8
    ensures n < 16
  {
    Bit(e.attr.global) + 2 * e.attr.avail
  }

  /** Bits 0 to 11: present, the middle bits, the large-page bit, the top bits. */
  function LowBits(e: Entry): (n: nat)
    requires e.attr.avail < 8
    ensures n < 0x1000
  {
    Bit(e.present) + 2 * MidBits(e) + 128 * Bit(e.huge) + 256 * TopBits(e)
  }

  /** Bits 52 to 63. */
  function HighBits(e: Entry): (n: nat)
    requires e.attr.avail2 < 2048
    ensures n < 0x1000
  {
    e.attr.avail2 + 2048 * Bit(e.attr.nx)
  }

  ghost predicate Fits(e: Entry) { e.attr.avail < 8 && e.attr.avail2 < 2048 }

  /** The word of an entry: low bits, the 40-bit frame number from bit 12 on, high bits. */
  function Encode(e: Entry): (v: nat)
    requires Fits(e)
    ensures v < 0x1_0000_0000_0000_0000
  {
    LowBits(e) + 0x1000 * e.frame + 0x10_0000_0000_0000 * HighBits(e)
  }

  function SetAddress(v: nat, addr: nat): nat {
    v % 0x1000 + 0x1000 * (addr / 0x1000 % 0x100_0000_0000) + 0x10_0000_0000_0000 * (v / 0x10_0000_0000_0000)
  }

  function GetAddress(v: nat): nat { 0x1000 * (v / 0x1000 % 0x100_0000_0000) }

  /** The three parts of a word come apart again. */
  lemma Parts(low: nat, frame: nat, high: nat)
    requires low < 0x1000 && frame < 0x100_0000_0000
    ensures var v := low + 0x1000 * frame + 0x10_0000_0000_0000 * high;
            v % 0x1000 == low && v / 0x1000 % 0x100_0000_0000 == frame && v / 0x10_0000_0000_0000 == high
  {
    var v := low + 0x1000 * frame + 0x10_0000_0000_0000 * high;
    var w := frame + 0x100_0000_0000 * high;
    assert v == low + 0x1000 * w;
    assert v / 0x1000 == w && v % 0x1000 == low;
    assert w % 0x100_0000_0000 == frame && w / 0x100_0000_0000 == high;
    assert v / 0x10_0000_0000_0000 == v / 0x1000 / 0x100_0000_0000;
  }

  /** Writing the address field of the word is writing the frame of the entry, cut to 40 bits; the rest stays. */
  lemma SetAddressIs(e: Entry, addr: nat)
    requires Fits(e)
    ensures SetAddress(Encode(e), addr) == Encode(WithFrame(e, addr / 0x1000))
    ensures GetAddress(Encode(e)) == 0x1000 * e.frame
  {
    hide MidBits, TopBits;
    Parts(LowBits(e), e.frame, HighBits(e));
    SameLow(e, WithFrame(e, addr / 0x1000));
  }

  lemma SameLow(e: Entry, s: Entry)
    requires Fits(e) && s == e.(frame := s.frame)
    ensures LowBits(s) == LowBits(e) && HighBits(s) == HighBits(e)
  {}

  /** What is written with one address is read back, up to the page offset and the 52-bit width. */
  lemma AddressRoundTrip(e: Entry, addr: nat)
    requires Fits(e)
    ensures GetAddress(SetAddress(Encode(e), addr)) == addr / 0x1000 % 0x100_0000_0000 * 0x1000
  {
    SetAddressIs(e, addr);
    SetAddressIs(WithFrame(e, addr / 0x1000), addr);
  }

  lemma Peel(b: bool, x: int, c: bool, y: int)
    requires Bit(b) + 2 * x == Bit(c) + 2 * y
    ensures b == c && x == y
  {}

  lemma {:induction false} HornerInjective(s: seq<bool>, t: seq<bool>)
    requires |s| == |t| && Horner(s) == Horner(t)
    ensures s == t
  {
    hide Bit;
    if s != [] {
      Peel(s[0], Horner(s[1..]), t[0], Horner(t[1..]));
      HornerInjective(s[1..], t[1..]);
      assert s == [s[0]] + s[1..] && t == [t[0]] + t[1..];
    }
  }

  lemma MidInjective(e: Entry, f: Entry)
    requires MidBits(e) == MidBits(f)
    ensures e.rw == f.rw && e.us == f.us && e.attr.pwt == f.attr.pwt && e.attr.pcd == f.attr.pcd
    ensures e.attr.accessed == f.attr.accessed && e.attr.dirty == f.attr.dirty
  {
    hide Horner;
    var s, t := MidSeq(e), MidSeq(f);
    HornerInjective(s, t);
    assert s[0] == t[0] && s[1] == t[1] && s[2] == t[2] && s[3] == t[3] && s[4] == t[4] && s[5] == t[5];
  }

  /** Different entries have different words: the record loses nothing the word holds. */
  lemma EncodeInjective(e: Entry, f: Entry)
    requires Fits(e) && Fits(f) && Encode(e) == Encode(f)
    ensures e == f
  {
    hide MidBits, TopBits, LowBits, HighBits;
    Parts(LowBits(e), e.frame, HighBits(e));
    Parts(LowBits(f), f.frame, HighBits(f));
    LowInjective(e, f);
    HighInjective(e, f);
  }

  lemma LowInjective(e: Entry, f: Entry)
    requires Fits(e) && Fits(f) && LowBits(e) == LowBits(f)
    ensures e.present == f.present && e.huge == f.huge && e.rw == f.rw && e.us == f.us
    ensures e.attr.pwt == f.attr.pwt && e.attr.pcd == f.attr.pcd && e.attr.accessed == f.attr.accessed
            && e.attr.dirty == f.attr.dirty
    ensures e.attr.global == f.attr.global && e.attr.avail == f.attr.avail
  {
    hide MidBits, TopBits;
    LowFields(Bit(e.present), MidBits(e), Bit(e.huge), TopBits(e));
    LowFields(Bit(f.present), MidBits(f), Bit(f.huge), TopBits(f));
    MidInjective(e, f);
    TopInjective(e, f);
  }

  lemma TopInjective(e: Entry, f: Entry)
    requires Fits(e) && Fits(f) && TopBits(e) == TopBits(f)
    ensures e.attr.global == f.attr.global && e.attr.avail == f.attr.avail
  {}

  lemma HighInjective(e: Entry, f: Entry)
    requires Fits(e) && Fits(f) && HighBits(e) == HighBits(f)
    ensures e.attr.nx == f.attr.nx && e.attr.avail2 == f.attr.avail2
  {}

  /** The fields of the low bits, by weight. */
  lemma LowFields(p: nat, mid: nat, h: nat, top: nat)
    requires p < 2 && mid < 64 && h < 2
    ensures var n := p + 2 * mid + 128 * h + 256 * top;
            n % 2 == p && n / 128 % 2 == h && n % 128 == p + 2 * mid && n / 128 == h + 2 * top && n / 2 % 64 == mid
                && n / 256 == top
  {
    var n, w := p + 2 * mid + 128 * h + 256 * top, h + 2 * top;
    assert n == p + 2 * mid + 128 * w;
    assert n / 128 == w && n % 128 == p + 2 * mid;
    assert n / 2 == mid + 64 * w;
  }

  /** One round of the split loop on words: the address of small page k into a zeroed entry, the low bits of the large
      entry OR-ed in, bit 7 cleared, bit 0 set. The zeroed entry has no low bits, so the OR is a sum. */
  function SplitWord(v: nat, k: nat): nat {
    SetBit0(ClearBit7(SetAddress(0, GetAddress(v) + 0x1000 * k) + v % 0x1000))
  }

  function ClearBit7(w: nat): nat { w / 256 * 256 + w % 128 }
  function SetBit0(w: nat): nat { w / 2 * 2 + 1 }

  /** It is the entry the model gives small page k. */
  lemma SplitWordIs(e: Entry, k: nat)
    requires Fits(e) && k < 512
    ensures Fits(SplitEntry(e, k)) && SplitWord(Encode(e), k) == Encode(SplitEntry(e, k))
  {
    hide MidBits, TopBits, ClearBit7, SetBit0, SetAddress, GetAddress, Encode;
    var f := (e.frame + k) % 0x100_0000_0000;
    SplitAddress(e, k);
    SplitEncoded(e, k);
    SplitNumbers(Bit(e.present), MidBits(e), Bit(e.huge), TopBits(e), f);
  }

  /** The word before its two bits are set: the address of the small page and the low bits of the large entry. */
  lemma SplitAddress(e: Entry, k: nat)
    requires Fits(e)
    ensures SetAddress(0, GetAddress(Encode(e)) + 0x1000 * k) == 0x1000 * ((e.frame + k) % 0x100_0000_0000)
    ensures Encode(e) % 0x1000 == LowBits(e)
  {
    hide LowBits, HighBits;
    Parts(LowBits(e), e.frame, HighBits(e));
    assert GetAddress(Encode(e)) == 0x1000 * e.frame;
    assert (0x1000 * e.frame + 0x1000 * k) / 0x1000 == e.frame + k;
  }

  lemma SplitEncoded(e: Entry, k: nat)
    requires Fits(e)
    ensures Fits(SplitEntry(e, k))
    ensures Encode(SplitEntry(e, k)) == 1 + 2 * MidBits(e) + 256 * TopBits(e) +
            0x1000 * ((e.frame + k) % 0x100_0000_0000)
  {
    hide MidBits, TopBits;
    SameMidTop(e, SplitEntry(e, k));
  }

  lemma SameMidTop(e: Entry, s: Entry)
    requires Fits(e) && Fits(s) && s.rw == e.rw && s.us == e.us && s.attr.pwt == e.attr.pwt && s.attr.pcd == e.attr.pcd
    requires s.attr.accessed == e.attr.accessed && s.attr.dirty == e.attr.dirty && s.attr.global == e.attr.global
             && s.attr.avail == e.attr.avail
    ensures MidBits(s) == MidBits(e) && TopBits(s) == TopBits(e)
  {
    hide Horner;
    assert MidSeq(s) == MidSeq(e);
  }

  lemma SplitNumbers(p: nat, mid: nat, h: nat, top: nat, f: nat)
    requires p < 2 && mid < 64 && h < 2 && top < 16
    ensures SetBit0(ClearBit7(0x1000 * f + p + 2 * mid + 128 * h + 256 * top)) == 1 + 2 * mid + 256 * top + 0x1000 * f
  {
    hide ClearBit7, SetBit0;
    var high := top + 16 * f;
    ClearedLow(p, mid, h, high);
    SetLow(p, mid + 128 * high);
    assert 0x1000 * f + p + 2 * mid + 128 * h + 256 * top == p + 2 * mid + 128 * h + 256 * high;
    assert p + 2 * mid + 256 * high == p + 2 * (mid + 128 * high);
  }

  lemma ClearedLow(p: nat, mid: nat, h: nat, high: nat)
    requires p < 2 && mid < 64 && h < 2
    ensures ClearBit7(p + 2 * mid + 128 * h + 256 * high) == p + 2 * mid + 256 * high
  {
    LowFields(p, mid, h, high);
  }

  lemma SetLow(p: nat, rest: nat)
    requires p < 2
    ensures SetBit0(p + 2 * rest) == 1 + 2 * rest
  {}

  // ---------- where the bits are ----------

  /** Bit k of a word. */
  function BitAt(v: nat, k: nat): nat { if k == 0 then v % 2 else BitAt(v / 2, k - 1) }

  lemma HornerFront(b: bool, t: seq<bool>)
    ensures Horner([b] + t) == Bit(b) + 2 * Horner(t) && Pow2(|t| + 1) == 2 * Pow2(|t|)
  {
    assert ([b] + t)[1..] == t;
  }

  lemma HornerNone(t: seq<bool>)
    ensures Horner([]) == 0 && Pow2(0) == 1 && [] + t == t
  {}

  lemma {:induction false} HornerConcat(s: seq<bool>, t: seq<bool>)
    ensures Horner(s + t) == Horner(s) + Pow2(|s|) * Horner(t)
  {
    hide Horner, Pow2, Bit;
    HornerNone(t);
    if s != [] {
      var r := s[1..];
      HornerConcat(r, t);
      HornerFront(s[0], r + t);
      HornerFront(s[0], r);
      Regroup(Pow2(|r|), Horner(t));
      assert [s[0]] + r == s && [s[0]] + (r + t) == s + t;
    }
  }

  lemma Regroup(p: nat, h: nat)
    ensures 2 * (p * h) == (2 * p) * h
  {}

  lemma {:induction false} BitOfSeq(s: seq<bool>, rest: nat, k: nat)
    requires k < |s|
    ensures BitAt(Horner(s) + Pow2(|s|) * rest, k) == Bit(s[k])
  {
    var p := Pow2(|s| - 1);
    var y := Horner(s[1..]) + p * rest;
    Regroup(p, rest);
    assert Horner(s) + Pow2(|s|) * rest == Bit(s[0]) + 2 * y;
    assert (Bit(s[0]) + 2 * y) % 2 == Bit(s[0]) && (Bit(s[0]) + 2 * y) / 2 == y;
    hide Horner, Pow2;
    if k > 0 { BitOfSeq(s[1..], rest, k - 1); }
  }

  /** Bits 0 to 8 as the processor defines them: present, writable, user, write-through, cache-disable, accessed, dirty,
      page size, global (section 4.5 of the Intel SDM, volume 3A). */
  function LowFlags(e: Entry): (s: seq<bool>)
    ensures |s| == 9
  {
    [e.present, e.rw, e.us, e.attr.pwt, e.attr.pcd, e.attr.accessed, e.attr.dirty, e.huge, e.attr.global]
  }

  lemma FlagsSplit(e: Entry)
    ensures LowFlags(e) == [e.present] + (MidSeq(e) + [e.huge, e.attr.global])
  {
    var m := MidSeq(e);
    FlagsAt(e);
    hide LowFlags, MidSeq;
    var r := [e.present] + (m + [e.huge, e.attr.global]);
    forall i | 0 <= i < 9 ensures LowFlags(e)[i] == r[i] {
      if 0 < i < 7 { assert r[i] == m[i - 1]; }
    }
  }

  lemma FlagsAt(e: Entry)
    ensures LowFlags(e)[0] == e.present && LowFlags(e)[7] == e.huge && LowFlags(e)[8] == e.attr.global
    ensures forall i :: 0 < i < 7 ==> LowFlags(e)[i] == MidSeq(e)[i - 1]
  {}

  lemma Powers()
    ensures Pow2(6) == 64 && Pow2(9) == 512
  {}

  lemma LowIs(e: Entry)
    requires e.attr.avail < 8
    ensures LowBits(e) == Horner(LowFlags(e)) + 512 * e.attr.avail && Pow2(9) == 512
  {
    hide MidSeq, LowFlags, Horner, Pow2, Bit;
    var mid, back := MidSeq(e), [e.huge, e.attr.global];
    FlagsSplit(e);
    Powers();
    HornerFront(e.present, mid + back);
    HornerConcat(mid, back);
    HornerFront(e.huge, [e.attr.global]);
    HornerFront(e.attr.global, []);
    HornerNone([]);
    assert [e.huge] + [e.attr.global] == back && [e.attr.global] + [] == [e.attr.global];
  }

  /** The word is laid out as the processor reads it: the flags, three free bits, the frame number from bit 12, eleven
      free bits from bit 52, no-execute in bit 63. */
  lemma HardwareBits(e: Entry, k: nat)
    requires Fits(e) && k < 9
    ensures var v := Encode(e);
            && BitAt(v, k) == Bit(LowFlags(e)[k]) && v % 0x1000 / 512 == e.attr.avail
            && v / 0x1000 % 0x100_0000_0000 == e.frame
            && v / 0x10_0000_0000_0000 % 2048 == e.attr.avail2 && v / 0x10_0000_0000_0000 / 2048 == Bit(e.attr.nx)
  {
    hide LowBits, HighBits, LowFlags, Pow2;
    LowIs(e);
    Parts(LowBits(e), e.frame, HighBits(e));
    HighIs(e);
    var rest := e.attr.avail + 8 * (e.frame + 0x100_0000_0000 * HighBits(e));
    assert Encode(e) == Horner(LowFlags(e)) + 512 * rest;
    BitOfSeq(LowFlags(e), rest, k);
    FreeBits(Horner(LowFlags(e)), e.attr.avail);
  }

  lemma HighIs(e: Entry)
    requires Fits(e)
    ensures HighBits(e) % 2048 == e.attr.avail2 && HighBits(e) / 2048 == Bit(e.attr.nx)
  {}

  lemma FreeBits(h: nat, avail: nat)
    requires h < 512
    ensures (h + 512 * avail) / 512 == avail
  {}

  /** Two words have the same bits, but for the address and the listed flags. */
  ghost predicate SameBut(v: nat, v': nat, low: set<nat>) {
    && (forall k: nat :: k < 9 && k !in low ==> BitAt(v', k) == BitAt(v, k))
    && v' % 0x1000 / 512 == v % 0x1000 / 512 && v' / 0x10_0000_0000_0000 == v / 0x10_0000_0000_0000
  }

  lemma WordsAgree(e: Entry, s: Entry, low: set<nat>)
    requires Fits(e) && Fits(s) && e.attr == s.attr
    requires forall k: nat :: k < 9 && k !in low ==> LowFlags(s)[k] == LowFlags(e)[k]
    ensures SameBut(Encode(e), Encode(s), low)
  {
    hide Encode, BitAt, LowFlags;
    HardwareBits(e, 0);
    HardwareBits(s, 0);
    SameHigh(e, s);
    forall k: nat | k < 9 && k !in low ensures BitAt(Encode(s), k) == BitAt(Encode(e), k) {
      HardwareBits(e, k);
      HardwareBits(s, k);
    }
  }

  lemma SameHigh(e: Entry, s: Entry)
    requires Fits(e) && Fits(s) && e.attr == s.attr
    ensures Encode(e) / 0x10_0000_0000_0000 == Encode(s) / 0x10_0000_0000_0000
  {
    hide LowBits;
    Parts(LowBits(e), e.frame, HighBits(e));
    Parts(LowBits(s), s.frame, HighBits(s));
  }

  /** The final write of `MapPage` sets the address and bits 0 to 2 and no others: a no-execute bit that was there
      stays. */
  lemma LeafWord(e: Entry, paddr: nat, flags: Flags)
    requires Fits(e)
    ensures var v, v' := Encode(e), Encode(LeafEntry(e, paddr, flags));
            && BitAt(v', 0) == Bit(flags.p) && BitAt(v', 1) == Bit(flags.w) && BitAt(v', 2) == Bit(flags.u)
            && v' / 0x1000 % 0x100_0000_0000 == paddr / 0x1000 % 0x100_0000_0000 && SameBut(v, v', {0, 1, 2})
  {
    hide Encode, BitAt;
    var s := LeafEntry(e, paddr, flags);
    HardwareBits(s, 0);
    HardwareBits(s, 1);
    HardwareBits(s, 2);
    WordsAgree(e, s, {0, 1, 2});
  }

  /** A new link sets the address, present and writable, and user as asked. */
  lemma NewLinkWord(e: Entry, f: Frame, user: bool)
    requires Fits(e)
    ensures var v, v' := Encode(e), Encode(NewLink(e, f, user));
            && BitAt(v', 0) == 1 && BitAt(v', 1) == 1 && BitAt(v', 2) == Bit(user)
            && v' / 0x1000 % 0x100_0000_0000 == f && SameBut(v, v', {0, 1, 2})
  {
    hide Encode, BitAt;
    var s := NewLink(e, f, user);
    HardwareBits(s, 0);
    HardwareBits(s, 1);
    HardwareBits(s, 2);
    WordsAgree(e, s, {0, 1, 2});
  }

  /** The link that takes the place of a 2 MB entry: the address, present, page size cleared, and user if asked. */
  lemma SplitLinkWord(e: Entry, f: Frame, user: bool)
    requires Fits(e)
    ensures var v, v' := Encode(e), Encode(SplitLink(e, f, user));
            && BitAt(v', 0) == 1 && BitAt(v', 7) == 0 && BitAt(v', 2) == (if user then 1 else BitAt(v, 2))
            && v' / 0x1000 % 0x100_0000_0000 == f && SameBut(v, v', {0, 2, 7})
  {
    hide Encode, BitAt;
    var s := SplitLink(e, f, user);
    HardwareBits(e, 2);
    HardwareBits(s, 0);
    HardwareBits(s, 2);
    HardwareBits(s, 7);
    WordsAgree(e, s, {0, 2, 7});
  }
}
