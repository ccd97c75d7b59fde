/** The frame bitmap of the memory manager: one bit per 4 KB frame, packed eight to a byte,
    bit set = frame in use. */
module BitmapModel {

  /** `1 << k` on one byte. */
  function Mask(k: nat): (m: bv8)
    requires k < 8
  {
    (1 as bv8) << k
  }

  predicate Meets(b: bv8, m: bv8) { b & m != 0 }
  function With(b: bv8, m: bv8): bv8 { b | m }
  function Less(b: bv8, m: bv8): bv8 { b & !m }

  /** The test of `Bitmap::Get`: mask the byte in place. */
  predicate BitSet(b: bv8, k: nat)
    requires k < 8
  {
    Meets(b, Mask(k))
  }

  /** The test of `Bitmap::FindFreeFrame`: shift the bit down first. */
  predicate BitSetShifted(b: bv8, k: nat)
    requires k < 8
  {
    (b >> k) & 1 != 0
  }

  lemma TestsAgree(b: bv8, k: nat)
    requires k < 8
    ensures BitSet(b, k) == BitSetShifted(b, k)
  {
    if k == 0 {} else if k == 1 {} else if k == 2 {} else if k == 3 {}
    else if k == 4 {} else if k == 5 {} else if k == 6 {} else {}
  }

  /** OR-ing a mask in sets that bit and no other; AND-ing its complement clears that bit and no other. */
  lemma MaskBits(b: bv8, k: nat, j: nat)
    requires k < 8 && j < 8
    ensures BitSet(With(b, Mask(k)), j) == (j == k || BitSet(b, j))
    ensures BitSet(Less(b, Mask(k)), j) == (j != k && BitSet(b, j))
  {
    hide Mask, Meets, With, Less;
    MasksDisjoint(k, j);
    OrAnd(b, Mask(k), Mask(j));
  }

  lemma MasksDisjoint(k: nat, j: nat)
    requires k < 8 && j < 8
    ensures if j == k then Meets(Mask(j), Mask(k)) else !Meets(Mask(k), Mask(j))
  {
    if k == 0 { EachMask(j); } else if k == 1 { EachMask(j); }
    else if k == 2 { EachMask(j); } else if k == 3 { EachMask(j); }
    else if k == 4 { EachMask(j); } else if k == 5 { EachMask(j); }
    else if k == 6 { EachMask(j); } else { EachMask(j); }
  }

  lemma EachMask(j: nat)
    requires j < 8
    ensures Mask(j) == [1, 2, 4, 8, 16, 32, 64, 128][j]
  {
    if j == 0 {} else if j == 1 {} else if j == 2 {} else if j == 3 {}
    else if j == 4 {} else if j == 5 {} else if j == 6 {} else {}
  }

  lemma OrAnd(b: bv8, m: bv8, n: bv8)
    ensures !Meets(m, n) ==> Meets(With(b, m), n) == Meets(b, n) && Meets(Less(b, m), n) == Meets(b, n)
    ensures (Meets(m, m) ==> Meets(With(b, m), m)) && !Meets(Less(b, m), m)
  {}

  /** A byte is 0xFF exactly when all its bits are set: the early-out of `FindFreeFrame` skips no free bit. */
  lemma FullByte(b: bv8)
    ensures b == 0xFF <==> forall k: nat :: k < 8 ==> BitSet(b, k)
  {
    if forall k: nat :: k < 8 ==> BitSet(b, k) {
      forall k: nat | k < 8 ensures b & [1, 2, 4, 8, 16, 32, 64, 128][k] != 0 {
        assert BitSet(b, k);
        EachMask(k);
      }
      var ms: seq<bv8> := [1, 2, 4, 8, 16, 32, 64, 128];
      assert b & ms[0] != 0 && b & ms[1] != 0 && b & ms[2] != 0 && b & ms[3] != 0;
      assert b & ms[4] != 0 && b & ms[5] != 0 && b & ms[6] != 0 && b & ms[7] != 0;
      AllBits(b);
    } else {
      var k: nat :| k < 8 && !BitSet(b, k);
      EachMask(k);
      if b == 0xFF { FullHasMask(k); }
    }
  }

  lemma FullHasMask(k: nat)
    requires k < 8
    ensures BitSet(0xFF, k)
  {
    EachMask(k);
    if k == 0 {} else if k == 1 {} else if k == 2 {} else if k == 3 {}
    else if k == 4 {} else if k == 5 {} else if k == 6 {} else {}
  }

  lemma AllBits(b: bv8)
    requires b & 1 != 0 && b & 2 != 0 && b & 4 != 0 && b & 8 != 0
    requires b & 16 != 0 && b & 32 != 0 && b & 64 != 0 && b & 128 != 0
    ensures b == 0xFF
  {}

  /** Whether frame `f` is in use in a packed buffer; frames outside it count as in use. */
  predicate Used(bytes: seq<bv8>, f: nat) {
    f / 8 >= |bytes| || BitSet(bytes[f / 8], f % 8)
  }

  /** Rewriting the byte of frame `index` with its bit set or cleared changes the status of that frame only. */
  lemma UsedAfterSet(bytes: seq<bv8>, index: nat, inUse: bool, f: nat)
    requires index / 8 < |bytes|
    ensures var b := bytes[index / 8];
            var b' := if inUse then With(b, Mask(index % 8)) else Less(b, Mask(index % 8));
            Used(bytes[index / 8 := b'], f) == if f == index then inUse else Used(bytes, f)
  {
    hide Mask, With, Less, BitSet;
    if f / 8 == index / 8 {
      MaskBits(bytes[index / 8], index % 8, f % 8);
      assert f == 8 * (f / 8) + f % 8 && index == 8 * (index / 8) + index % 8;
    }
  }

  lemma OutsideUsed(bytes: seq<bv8>, index: nat)
    ensures index / 8 >= |bytes| ==> Used(bytes, index)
  {}

  class Bitmap {
    var buffer: array<bv8>

    constructor (size: nat)
      ensures fresh(buffer) && buffer.Length == size
    {
      buffer := new bv8[size];
    }

    /** Whether frame `index` is in use; frames outside the bitmap count as in use. */
    predicate Get(index: nat)
      reads this, buffer
    {
      Used(buffer[..], index)
    }

    /** The frames the bitmap marks free. */
    ghost function FreeSet(): (s: set<nat>)
      reads this, buffer
      ensures forall f: nat :: f in s <==> !Get(f)
    {
      assert forall f: nat :: !Get(f) ==> f < 8 * buffer.Length;
      set f: nat | f < 8 * buffer.Length && !Get(f)
    }

    /** Marks one frame; an index outside the bitmap is ignored. */
    method Set(index: nat, inUse: bool)
      modifies buffer
      ensures forall f: nat :: Get(f) == if f == index && index / 8 < buffer.Length then inUse else old(Get(f))
      ensures FreeSet() == if inUse then old(FreeSet()) - {index}
                           else if index / 8 < buffer.Length then old(FreeSet()) + {index} else old(FreeSet())
    {
      hide Mask, BitSet, Used, With, Less;
      OutsideUsed(buffer[..], index);
      if index / 8 >= buffer.Length {
        return;
      }
      if inUse {
        buffer[index / 8] := With(buffer[index / 8], Mask(index % 8));
      } else {
        buffer[index / 8] := Less(buffer[index / 8], Mask(index % 8));
      }
      ghost var was := old(buffer[..]);
      assert buffer[..] == was[index / 8 := buffer[index / 8]];
      forall f: nat ensures Get(f) == if f == index then inUse else old(Get(f)) {
        UsedAfterSet(was, index, inUse, f);
      }
    }

    /** The lowest free frame, or -1. */
    method FindFreeFrame() returns (r: int)
      ensures r == -1 <==> FreeSet() == {}
      ensures r != -1 ==> 0 <= r && r in FreeSet() && forall f: nat :: f in FreeSet() ==> r <= f
    {
      for i := 0 to buffer.Length
        invariant forall f: nat :: f < 8 * i ==> Get(f)
      {
        FullByte(buffer[i]);
        if buffer[i] != 0xFF {
          for bit := 0 to 8
            invariant forall k: nat :: k < bit ==> BitSet(buffer[i], k)
          {
            TestsAgree(buffer[i], bit);
            if (buffer[i] >> bit) & 1 == 0 {
              var n := i * 8 + bit;
              assert n / 8 == i && n % 8 == bit;
              assert !Get(n);
              assert n in FreeSet();
              forall f: nat | f < n ensures Get(f) {
                if f >= 8 * i { assert f / 8 == i && f % 8 < bit; }
              }
              return n;
            }
          }
        }
        assert forall k: nat :: k < 8 ==> BitSet(buffer[i], k);
        forall f: nat | f < 8 * (i + 1) ensures Get(f) {
          if f >= 8 * i { assert f / 8 == i; }
        }
      }
      assert forall f: nat :: f < 8 * buffer.Length ==> Get(f);
      return -1;
    }
  }
}
