/** The CRC-32 of the partition table. */
module Crc32 {
  import opened PolyDivision

  const POLY: bv32 := 0xEDB8_8320

  /** One bit of the shift register. */
  function Step(c: bv32): bv32 {
    if c & 1 == 1 then (c >> 1) ^ 0xEDB8_8320 else c >> 1
  }

  function Steps(c: bv32, n: nat): bv32
    decreases n
  {
    if n == 0 then c else Steps(Step(c), n - 1)
  }

  function Wide(b: bv8): bv32 { b as bv32 }

  function Xor(a: bv32, b: bv32): bv32 { a ^ b }

  /** One byte. */
  function Update(c: bv32, b: bv8): bv32 { Steps(Xor(c, Wide(b)), 8) }

  /** The register after a buffer. */
  function Register(c: bv32, s: seq<bv8>): bv32 {
    if s == [] then c else Update(Register(c, s[..|s| - 1]), s[|s| - 1])
  }

  function Crc(s: seq<bv8>): bv32 { Xor(Register(0xFFFF_FFFF, s), 0xFFFF_FFFF) }

  /** `CalculateCRC32`. */
  method CalculateCRC32(p: seq<bv8>) returns (r: bv32)
    ensures r == Crc(p)
    ensures var m := MessageBits(p) + Zeros(32);
            Bits(r, 32) == Sum(Remainder(Sum(m, Ones(32) + Zeros(|m| - 32))), Ones(32))
  {
    hide Update, Bits, MessageBits, Remainder, Sum, Zeros, Ones, Xor;
    CrcIsRemainder(p);
    var crc: bv32 := 0xFFFF_FFFF;
    for i := 0 to |p|
      invariant crc == Register(0xFFFF_FFFF, p[..i])
    {
      assert p[..i + 1][..i] == p[..i];
      crc := OneByte(crc, p[i]);
    }
    assert p[..|p|] == p;
    r := Xor(crc, 0xFFFF_FFFF);
  }

  /** The inner loop of `CalculateCRC32`. */
  method OneByte(c: bv32, b: bv8) returns (crc: bv32)
    ensures crc == Update(c, b)
  {
    crc := Xor(c, Wide(b));
    hide Step, Xor, Wide;
    ghost var start := crc;
    for j := 0 to 8
      invariant Steps(crc, 8 - j) == Steps(start, 8)
    {
      crc := OneBit(crc);
    }
  }

  method OneBit(c: bv32) returns (crc: bv32)
    ensures crc == Step(c)
  {
    crc := c;
    if crc & 1 == 1 {
      crc := (crc >> 1) ^ POLY;
    } else {
      crc := crc >> 1;
    }
  }

  /** The bit step is one-to-one: the top bit of the result tells which branch was taken. */
  lemma StepInjective(a: bv32, b: bv32)
    requires Step(a) == Step(b)
    ensures a == b
  {}

  /** And linear. */
  lemma StepLinear(a: bv32, b: bv32)
    ensures Step(Xor(a, b)) == Xor(Step(a), Step(b))
  {
    ShiftXor(a, b);
    LowBit(a, b);
    var x, y := a >> 1, b >> 1;
    Cancel(x, y, 0xEDB8_8320);
  }

  lemma ShiftXor(a: bv32, b: bv32)
    ensures (a ^ b) >> 1 == (a >> 1) ^ (b >> 1)
  {}

  lemma LowBit(a: bv32, b: bv32)
    ensures (a ^ b) & 1 == (a & 1) ^ (b & 1)
    ensures a & 1 == 0 || a & 1 == 1
    ensures b & 1 == 0 || b & 1 == 1
  {}

  lemma Cancel(x: bv32, y: bv32, p: bv32)
    ensures (x ^ p) ^ y == (x ^ y) ^ p
    ensures x ^ (y ^ p) == (x ^ y) ^ p
    ensures (x ^ p) ^ (y ^ p) == x ^ y
  {}

  lemma {:induction false} StepsInjective(a: bv32, b: bv32, n: nat)
    requires Steps(a, n) == Steps(b, n)
    ensures a == b
    decreases n
  {
    hide Step;
    if n > 0 {
      StepsInjective(Step(a), Step(b), n - 1);
      StepInjective(a, b);
    }
  }

  lemma {:induction false} StepsLinear(a: bv32, b: bv32, n: nat)
    ensures Steps(Xor(a, b), n) == Xor(Steps(a, n), Steps(b, n))
    decreases n
  {
    hide Step, Xor;
    if n > 0 {
      StepLinear(a, b);
      StepsLinear(Step(a), Step(b), n - 1);
    }
  }

  lemma {:induction false} StepsAdd(c: bv32, m: nat, n: nat)
    ensures Steps(Steps(c, m), n) == Steps(c, m + n)
    decreases m
  {
    hide Step;
    if m > 0 { StepsAdd(Step(c), m - 1, n); }
  }

  /** Eight steps shift out eight zero bits. */
  lemma ShiftOut(c: bv32)
    requires c & 0xFF == 0
    ensures Steps(c, 8) == c >> 8
  {
    EvenSteps(c);
    hide Step;
    Eight(c);
  }

  lemma EvenSteps(c: bv32)
    requires c & 0xFF == 0
    ensures Step(c) == c >> 1 && Step(c >> 1) == c >> 2 && Step(c >> 2) == c >> 3 && Step(c >> 3) == c >> 4
    ensures Step(c >> 4) == c >> 5 && Step(c >> 5) == c >> 6 && Step(c >> 6) == c >> 7 && Step(c >> 7) == c >> 8
  {}

  lemma Eight(c: bv32)
    ensures Steps(c, 8) == Step(Step(Step(Step(Step(Step(Step(Step(c))))))))
  {
    hide Step;
    var c4 := Step(Step(Step(Step(c))));
    assert Steps(c, 8) == Steps(Step(c), 7) == Steps(Step(Step(c)), 6) == Steps(Step(Step(Step(c))), 5) == Steps(c4, 4);
    assert Steps(c4, 4) == Steps(Step(c4), 3) == Steps(Step(Step(c4)), 2) == Steps(Step(Step(Step(c4))), 1);
    assert Steps(Step(Step(Step(c4))), 1) == Steps(Step(Step(Step(Step(c4)))), 0);
  }

  // ---------- four bytes at once ----------

  /** A byte placed at bits 8k..8k+7. */
  function Placed(b: bv8, k: nat): bv32
    requires k < 4
  {
    Shifted(Wide(b), k)
  }

  function Shifted(x: bv32, k: nat): bv32
    requires k < 4
  {
    if k == 0 then x else if k == 1 then x << 8 else if k == 2 then x << 16 else x << 24
  }

  lemma PlacedDown(b: bv8, k: nat)
    requires k < 3
    ensures Steps(Placed(b, k + 1), 8) == Placed(b, k)
  {
    PlacedBits(b);
    hide Step, Steps, Wide;
    var x := Wide(b);
    if k == 0 { ShiftOut(x << 8); } else if k == 1 { ShiftOut(x << 16); } else { ShiftOut(x << 24); }
  }

  lemma PlacedBits(b: bv8)
    ensures (Wide(b) << 8) & 0xFF == 0 && (Wide(b) << 8) >> 8 == Wide(b)
    ensures (Wide(b) << 16) & 0xFF == 0 && (Wide(b) << 16) >> 8 == Wide(b) << 8
    ensures (Wide(b) << 24) & 0xFF == 0 && (Wide(b) << 24) >> 8 == Wide(b) << 16
  {}

  /** Eight more steps see a placed byte one place lower. */
  lemma {:induction false} StepsPlaced(b: bv8, k: nat)
    requires k < 4
    ensures Steps(Placed(b, k), 8 * k) == Wide(b)
  {
    if k > 0 {
      PlacedDown(b, k - 1);
      StepsPlaced(b, k - 1);
      StepsAdd(Placed(b, k), 8, 8 * (k - 1));
    }
  }

  /** Taking in byte k of a group can be moved to the start of the group. */
  lemma ByteMoved(c: bv32, b: bv8, k: nat)
    requires k < 4
    ensures Update(Steps(c, 8 * k), b) == Steps(Xor(c, Placed(b, k)), 8 * k + 8)
  {
    hide Step, Xor, Wide, Placed;
    StepsPlaced(b, k);
    StepsLinear(c, Placed(b, k), 8 * k);
    StepsAdd(Xor(c, Placed(b, k)), 8 * k, 8);
  }

  function Word(w: seq<bv8>): bv32
    requires |w| == 4
  {
    Xor(Xor(Xor(Placed(w[0], 0), Placed(w[1], 1)), Placed(w[2], 2)), Placed(w[3], 3))
  }

  /** Four bytes are 32 steps from the register with the word of the bytes added. */
  lemma FourBytes(c: bv32, w: seq<bv8>)
    requires |w| == 4
    ensures Update(Update(Update(Update(c, w[0]), w[1]), w[2]), w[3]) == Steps(Xor(c, Word(w)), 32)
  {
    hide Step, Xor, Wide, Placed, Update;
    var a0 := Xor(c, Placed(w[0], 0));
    var a1 := Xor(a0, Placed(w[1], 1));
    var a2 := Xor(a1, Placed(w[2], 2));
    var a3 := Xor(a2, Placed(w[3], 3));
    ByteMoved(c, w[0], 0);
    ByteMoved(a0, w[1], 1);
    ByteMoved(a1, w[2], 2);
    ByteMoved(a2, w[3], 3);
    assert Steps(c, 0) == c;
    Regroup(c, Placed(w[0], 0), Placed(w[1], 1), Placed(w[2], 2), Placed(w[3], 3));
  }

  lemma Regroup(c: bv32, p: bv32, q: bv32, r: bv32, s: bv32)
    ensures Xor(Xor(Xor(Xor(c, p), q), r), s) == Xor(c, Xor(Xor(Xor(p, q), r), s))
  {}

  lemma XorInjective(c: bv32, p: bv32, q: bv32)
    requires Xor(c, p) == Xor(c, q)
    ensures p == q
  {}

  lemma WideInjective(b: bv8, d: bv8)
    requires Wide(b) == Wide(d)
    ensures b == d
  {}

  function ByteOf(w: bv32, k: nat): bv32
    requires k < 4
  {
    if k == 0 then w & 0xFF else if k == 1 then (w >> 8) & 0xFF else if k == 2 then (w >> 16) & 0xFF
      else (w >> 24) & 0xFF
  }

  /** The bytes of a word can be read back from it. */
  lemma JoinedBytes(p: bv32, q: bv32, r: bv32, s: bv32)
    requires p & 0xFF == p && q & 0xFF == q && r & 0xFF == r && s & 0xFF == s
    ensures var w := Xor(Xor(Xor(Shifted(p, 0), Shifted(q, 1)), Shifted(r, 2)), Shifted(s, 3));
            ByteOf(w, 0) == p && ByteOf(w, 1) == q && ByteOf(w, 2) == r && ByteOf(w, 3) == s
  {}

  lemma WideBits(b: bv8)
    ensures Wide(b) & 0xFF == Wide(b)
  {}

  lemma WordBytes(w: seq<bv8>, k: nat)
    requires |w| == 4 && k < 4
    ensures ByteOf(Word(w), k) == Wide(w[k])
  {
    hide Xor, Wide, Shifted, ByteOf;
    WideBits(w[0]);
    WideBits(w[1]);
    WideBits(w[2]);
    WideBits(w[3]);
    JoinedBytes(Wide(w[0]), Wide(w[1]), Wide(w[2]), Wide(w[3]));
  }

  lemma WordInjective(w: seq<bv8>, u: seq<bv8>)
    requires |w| == 4 && |u| == 4 && Word(w) == Word(u)
    ensures w == u
  {
    hide Word, ByteOf, Wide;
    forall i: nat | i < 4 ensures w[i] == u[i] {
      WordBytes(w, i);
      WordBytes(u, i);
      WideInjective(w[i], u[i]);
    }
  }

  // ---------- burst detection ----------

  lemma {:induction false} RegisterConcat(c: bv32, s: seq<bv8>, t: seq<bv8>)
    ensures Register(c, s + t) == Register(Register(c, s), t)
  {
    hide Update;
    if t == [] {
      assert s + t == s;
    } else {
      var n := |t| - 1;
      RegisterConcat(c, s, t[..n]);
      assert (s + t)[..|s + t| - 1] == s + t[..n];
    }
  }

  /** The same bytes keep different registers different. */
  lemma {:induction false} RegisterInjective(c: bv32, d: bv32, t: seq<bv8>)
    requires Register(c, t) == Register(d, t)
    ensures c == d
  {
    hide Step, Xor, Wide, Steps;
    if t != [] {
      var n := |t| - 1;
      var x, y := Register(c, t[..n]), Register(d, t[..n]);
      StepsInjective(Xor(x, Wide(t[n])), Xor(y, Wide(t[n])), 8);
      XorBack(x, y, Wide(t[n]));
      RegisterInjective(c, d, t[..n]);
    }
  }

  lemma XorBack(x: bv32, y: bv32, p: bv32)
    requires Xor(x, p) == Xor(y, p)
    ensures x == y
  {}

  /** Different groups of four bytes lead to different registers. */
  lemma FourBytesInjective(c: bv32, w: seq<bv8>, u: seq<bv8>)
    requires |w| == 4 && |u| == 4 && Register(c, w) == Register(c, u)
    ensures w == u
  {
    hide Step, Xor, Wide, Steps, Update, Word;
    RegisterOfFour(c, w);
    RegisterOfFour(c, u);
    FourBytes(c, w);
    FourBytes(c, u);
    StepsInjective(Xor(c, Word(w)), Xor(c, Word(u)), 32);
    XorInjective(c, Word(w), Word(u));
    WordInjective(w, u);
  }

  lemma RegisterOfFour(c: bv32, w: seq<bv8>)
    requires |w| == 4
    ensures Register(c, w) == Update(Update(Update(Update(c, w[0]), w[1]), w[2]), w[3])
  {
    hide Update;
    assert w[..3][..2] == w[..2] && w[..2][..1] == w[..1] && w[..1][..0] == [];
    assert Register(c, w[..1]) == Update(Register(c, []), w[0]);
    assert Register(c, w[..2]) == Update(Register(c, w[..1]), w[1]);
    assert Register(c, w[..3]) == Update(Register(c, w[..2]), w[2]);
  }

  /** The buffers agree outside the four bytes from i on. */
  ghost predicate DifferInWindow(s: seq<bv8>, t: seq<bv8>, i: nat) {
    |s| == |t| && forall k: nat :: k < |s| && !(i <= k < i + 4) ==> s[k] == t[k]
  }

  /** Buffers that agree outside a window of four bytes inside them have the same register only if they are equal. */
  lemma WindowInside(c: bv32, s: seq<bv8>, t: seq<bv8>, i: nat)
    requires DifferInWindow(s, t, i) && i + 4 <= |s| && Register(c, s) == Register(c, t)
    ensures s == t
  {
    hide Update, Steps, Register;
    var w, u := s[i..i + 4], t[i..i + 4];
    Cut(c, s, i);
    Cut(c, t, i);
    assert t[..i] == s[..i] && t[i + 4..] == s[i + 4..];
    RegisterInjective(Register(Register(c, s[..i]), w), Register(Register(c, s[..i]), u), s[i + 4..]);
    FourBytesInjective(Register(c, s[..i]), w, u);
    assert s == s[..i] + w + s[i + 4..] && t == t[..i] + u + t[i + 4..];
  }

  /** A buffer is processed before, inside and after the window. */
  lemma Cut(c: bv32, s: seq<bv8>, i: nat)
    requires i + 4 <= |s|
    ensures Register(c, s) == Register(Register(Register(c, s[..i]), s[i..i + 4]), s[i + 4..])
  {
    hide Update, Steps, Register;
    assert s == s[..i + 4] + s[i + 4..] && s[..i + 4] == s[..i] + s[i..i + 4];
    RegisterConcat(c, s[..i + 4], s[i + 4..]);
    RegisterConcat(c, s[..i], s[i..i + 4]);
  }

  /** Every change inside a window of four consecutive bytes changes the checksum, whatever the length of the buffer and
      wherever the window lies. */
  lemma BurstDetected(s: seq<bv8>, t: seq<bv8>, i: nat)
    requires DifferInWindow(s, t, i) && s != t
    ensures Crc(s) != Crc(t)
  {
    hide Update, Steps, Register;
    if Crc(s) == Crc(t) {
      SameRegister(s, t);
      var pad: seq<bv8> := [0, 0, 0, 0];
      RegisterConcat(0xFFFF_FFFF, s, pad);
      RegisterConcat(0xFFFF_FFFF, t, pad);
      var j := if i <= |s| then i else |s|;
      assert DifferInWindow(s + pad, t + pad, j);
      assert s == (s + pad)[..|s|] && t == (t + pad)[..|t|];
      WindowInside(0xFFFF_FFFF, s + pad, t + pad, j);
    }
  }

  lemma SameRegister(s: seq<bv8>, t: seq<bv8>)
    requires Crc(s) == Crc(t)
    ensures Register(0xFFFF_FFFF, s) == Register(0xFFFF_FFFF, t)
  {
    hide Register;
    XorBack(Register(0xFFFF_FFFF, s), Register(0xFFFF_FFFF, t), 0xFFFF_FFFF);
  }

  // ---------- the checksum is a remainder ----------

  /** The lowest n bits of a word, from bit 0 up. The register keeps the coefficient of x^31 in bit 0. */
  function Bits(c: bv32, n: nat): (p: Poly)
    ensures |p| == n
  {
    if n == 0 then [] else [Low(c)] + Bits(Half(c), n - 1)
  }

  predicate Low(c: bv32) { c & 1 == 1 }
  function Half(c: bv32): bv32 { c >> 1 }

  /** The bits of a buffer in the order in which they are sent: each byte from its lowest bit up. */
  function MessageBits(s: seq<bv8>): (p: Poly)
    ensures |p| == 8 * |s|
  {
    if s == [] then [] else MessageBits(s[..|s| - 1]) + Bits(Wide(s[|s| - 1]), 8)
  }

  function One(x: bool): bv32 { if x then 1 else 0 }

  /** The register fed bit by bit. */
  function Feed(c: bv32, m: Poly): bv32
    decreases |m|
  {
    if m == [] then c else Feed(Step(Xor(c, One(m[0]))), m[1..])
  }

  lemma {:induction false} FeedConcat(c: bv32, m: Poly, t: Poly)
    ensures Feed(c, m + t) == Feed(Feed(c, m), t)
    decreases |m|
  {
    hide Step, Xor, One;
    if m == [] {
      assert m + t == t;
    } else {
      assert (m + t)[1..] == m[1..] + t;
      FeedConcat(Step(Xor(c, One(m[0]))), m[1..], t);
    }
  }

  /** A bit that is not the lowest can be added after the step, a place further down. */
  lemma Peel(c: bv32, w: bv32)
    ensures Step(Xor(c, w)) == Xor(Step(Xor(c, One(Low(w)))), Half(w))
  {
    Parity(w);
    StepLinear(Xor(c, One(w & 1 == 1)), w & 0xFFFF_FFFE);
    EvenStep(w & 0xFFFF_FFFE);
    Regrouped(c, w);
  }

  lemma Parity(w: bv32)
    ensures (w & 0xFFFF_FFFE) >> 1 == w >> 1 && (w & 0xFFFF_FFFE) & 1 == 0
  {}

  lemma EvenStep(e: bv32)
    requires e & 1 == 0
    ensures Step(e) == e >> 1
  {}

  lemma Regrouped(c: bv32, w: bv32)
    ensures Xor(c, w) == Xor(Xor(c, One(w & 1 == 1)), w & 0xFFFF_FFFE)
  {
    LowAndRest(w);
    Assoc(c, One(w & 1 == 1), w & 0xFFFF_FFFE);
    hide Xor, One;
  }

  lemma LowAndRest(w: bv32)
    ensures Xor(One(w & 1 == 1), w & 0xFFFF_FFFE) == w
  {}

  lemma Assoc(c: bv32, p: bv32, q: bv32)
    ensures Xor(Xor(c, p), q) == Xor(c, Xor(p, q))
  {}

  /** The word has no bit from n on. */
  predicate Narrow(w: bv32, n: nat) { if n == 0 then w == 0 else Narrow(Half(w), n - 1) }

  lemma {:induction false} StepsFeed(c: bv32, w: bv32, n: nat)
    requires Narrow(w, n)
    ensures Steps(Xor(c, w), n) == Feed(c, Bits(w, n))
    decreases n
  {
    hide Step, One, Xor, Half, Low;
    if n == 0 {
      XorZero(c);
    } else {
      Peel(c, w);
      StepsFeed(Step(Xor(c, One(Low(w)))), Half(w), n - 1);
      assert Bits(w, n)[1..] == Bits(Half(w), n - 1);
    }
  }

  lemma XorZero(c: bv32)
    ensures Xor(c, 0) == c
  {}

  lemma ByteIsNarrow(b: bv8)
    ensures Narrow(Wide(b), 8)
  {
    var w := Wide(b);
    ByteShifts(w);
    assert Narrow(w >> 8, 0) && Narrow(w >> 7, 1) && Narrow(w >> 6, 2) && Narrow(w >> 5, 3) && Narrow(w >> 4, 4);
    assert Narrow(w >> 3, 5) && Narrow(w >> 2, 6) && Narrow(w >> 1, 7);
  }

  lemma ByteShifts(w: bv32)
    requires w <= 0xFF
    ensures w >> 8 == 0 && (w >> 7) >> 1 == w >> 8 && (w >> 6) >> 1 == w >> 7 && (w >> 5) >> 1 == w >> 6
    ensures (w >> 4) >> 1 == w >> 5 && (w >> 3) >> 1 == w >> 4 && (w >> 2) >> 1 == w >> 3 && (w >> 1) >> 1 == w >> 2
  {}

  lemma {:induction false} RegisterFeeds(c: bv32, s: seq<bv8>)
    ensures Register(c, s) == Feed(c, MessageBits(s))
  {
    hide Steps, Feed, Bits, Wide, Xor;
    if s == [] {
      FeedNothing(c);
    } else {
      var n := |s| - 1;
      RegisterFeeds(c, s[..n]);
      ByteIsNarrow(s[n]);
      StepsFeed(Register(c, s[..n]), Wide(s[n]), 8);
      FeedConcat(c, MessageBits(s[..n]), Bits(Wide(s[n]), 8));
    }
  }

  lemma FeedNothing(c: bv32)
    ensures Feed(c, []) == c
  {}

  lemma {:induction false} BitsXor(a: bv32, b: bv32, n: nat)
    ensures Bits(Xor(a, b), n) == Sum(Bits(a, n), Bits(b, n))
    decreases n
  {
    hide Sum, Half, Low, Xor;
    if n == 0 {
      SumNothing();
    } else {
      HalfXor(a, b);
      BitsXor(Half(a), Half(b), n - 1);
      SumFront(Low(a), Bits(Half(a), n - 1), Low(b), Bits(Half(b), n - 1));
    }
  }

  lemma HalfXor(a: bv32, b: bv32)
    ensures Half(Xor(a, b)) == Xor(Half(a), Half(b)) && Low(Xor(a, b)) == (Low(a) != Low(b))
  {
    ShiftXor(a, b);
    LowBit(a, b);
  }

  lemma SumNothing()
    ensures Sum([], []) == []
  {}

  lemma SumFront(x: bool, p: Poly, y: bool, q: Poly)
    requires |p| == |q|
    ensures Sum([x] + p, [y] + q) == [x != y] + Sum(p, q)
  {}

  /** The word shifted right n times. */
  function Down(c: bv32, n: nat): bv32 { if n == 0 then c else Down(Half(c), n - 1) }

  lemma {:induction false} BitsSplit(c: bv32, m: nat, n: nat)
    ensures Bits(c, m + n) == Bits(c, m) + Bits(Down(c, m), n)
    decreases m
  {
    hide Half, Low;
    if m == 0 {
      assert Bits(c, 0) + Bits(c, n) == Bits(c, n);
    } else {
      BitsSplit(Half(c), m - 1, n);
    }
  }

  lemma {:induction false} DownAdd(c: bv32, m: nat, n: nat)
    ensures Down(c, m + n) == Down(Down(c, m), n)
    decreases m
  {
    hide Half;
    if m > 0 { DownAdd(Half(c), m - 1, n); }
  }

  lemma DownEight(c: bv32)
    ensures Down(c, 8) == Half(Half(Half(Half(Half(Half(Half(Half(c))))))))
  {
    hide Half;
    var d := Half(Half(Half(Half(c))));
    assert Down(c, 8) == Down(Half(c), 7) == Down(Half(Half(c)), 6) == Down(Half(Half(Half(c))), 5) == Down(d, 4);
    assert Down(d, 4) == Down(Half(d), 3) == Down(Half(Half(d)), 2) == Down(Half(Half(Half(d))), 1);
    assert Down(Half(Half(Half(d))), 1) == Down(Half(Half(Half(Half(d)))), 0);
  }

  function Away(c: bv32): bv32 { c >> 8 }

  lemma DownShift(c: bv32)
    ensures Down(c, 8) == Away(c)
  {
    DownEight(c);
    hide Down;
  }

  lemma AllAway(c: bv32)
    ensures Away(Away(Away(Away(c)))) == 0
  {}

  /** After 32 shifts nothing is left. */
  lemma DownAll(c: bv32)
    ensures Down(c, 32) == 0
  {
    hide Half, Away, Down;
    AllAway(c);
    DownShift(c);
    DownShift(Away(c));
    DownShift(Away(Away(c)));
    DownShift(Away(Away(Away(c))));
    DownAdd(c, 8, 8);
    DownAdd(c, 16, 8);
    DownAdd(c, 24, 8);
  }

  /** Shifting the register right drops its first coefficient and lets in a zero at the end. */
  lemma BitsShifted(c: bv32)
    ensures Bits(Half(c), 32) == Bits(c, 32)[1..] + [false]
  {
    ZeroBits(1);
    hide Half, Low;
    BitsSplit(Half(c), 31, 1);
    assert Bits(c, 32)[1..] == Bits(Half(c), 31);
    assert Down(Half(c), 31) == Down(c, 32);
    DownAll(c);
  }

  function Four(c: bv32): Poly { [Low(c), Low(Half(c)), Low(Half(Half(c))), Low(Half(Half(Half(c))))] }
  function Fifth(c: bv32): bv32 { Half(Half(Half(Half(c)))) }

  lemma FourBits(c: bv32, n: nat)
    ensures Bits(c, n + 4) == Four(c) + Bits(Fifth(c), n)
  {
    hide Half, Low, Bits;
    TwoBits(c, n + 2);
    TwoBits(Half(Half(c)), n);
  }

  lemma TwoBits(c: bv32, n: nat)
    ensures Bits(c, n + 2) == [Low(c), Low(Half(c))] + Bits(Half(Half(c)), n)
  {
    hide Half, Low;
    assert Bits(Half(c), n + 1) == [Low(Half(c))] + Bits(Half(Half(c)), n);
  }

  /** The eight low bits of a word. */
  lemma EightBits(c: bv32)
    ensures Bits(c, 8) == Four(c) + Four(Fifth(c))
  {
    hide Four, Fifth, Half, Low;
    FourBits(c, 4);
    FourBits(Fifth(c), 0);
    assert Four(Fifth(c)) + [] == Four(Fifth(c));
  }

  lemma FirstByte()
    ensures Bits(0xEDB88320, 8) == [false, false, false, false, false, true, false, false]
            && Down(0xEDB88320, 8) == 0xEDB883
  {
    assert Half(0xEDB88320) == 0x76DC4190 && Half(0x76DC4190) == 0x3B6E20C8 && Half(0x3B6E20C8) == 0x1DB71064
      && Half(0x1DB71064) == 0xEDB8832;
    assert Half(0xEDB8832) == 0x76DC419 && Half(0x76DC419) == 0x3B6E20C && Half(0x3B6E20C) == 0x1DB7106
      && Half(0x1DB7106) == 0xEDB883;
    EightBits(0xEDB88320);
    DownEight(0xEDB88320);
    hide Bits, Down;
  }

  lemma SecondByte()
    ensures Bits(0xEDB883, 8) == [true, true, false, false, false, false, false, true] && Down(0xEDB883, 8) == 0xEDB8
  {
    assert Half(0xEDB883) == 0x76DC41 && Half(0x76DC41) == 0x3B6E20 && Half(0x3B6E20) == 0x1DB710
      && Half(0x1DB710) == 0xEDB88;
    assert Half(0xEDB88) == 0x76DC4 && Half(0x76DC4) == 0x3B6E2 && Half(0x3B6E2) == 0x1DB71 && Half(0x1DB71) == 0xEDB8;
    EightBits(0xEDB883);
    DownEight(0xEDB883);
    hide Bits, Down;
  }

  lemma ThirdByte()
    ensures Bits(0xEDB8, 8) == [false, false, false, true, true, true, false, true] && Down(0xEDB8, 8) == 0xED
  {
    assert Half(0xEDB8) == 0x76DC && Half(0x76DC) == 0x3B6E && Half(0x3B6E) == 0x1DB7 && Half(0x1DB7) == 0xEDB;
    assert Half(0xEDB) == 0x76D && Half(0x76D) == 0x3B6 && Half(0x3B6) == 0x1DB && Half(0x1DB) == 0xED;
    EightBits(0xEDB8);
    DownEight(0xEDB8);
    hide Bits, Down;
  }

  lemma FourthByte()
    ensures Bits(0xED, 8) == [true, false, true, true, false, true, true, true] && Down(0xED, 8) == 0x0
  {
    assert Half(0xED) == 0x76 && Half(0x76) == 0x3B && Half(0x3B) == 0x1D && Half(0x1D) == 0xE;
    assert Half(0xE) == 0x7 && Half(0x7) == 0x3 && Half(0x3) == 0x1 && Half(0x1) == 0x0;
    EightBits(0xED);
    DownEight(0xED);
    hide Bits, Down;
  }

  /** The constant of the code is the generator without its leading term. */
  lemma PolyIsGenerator()
    ensures Bits(0xEDB8_8320, 32) == Generator()[1..]
  {
    hide Bits, Down;
    FirstByte();
    SecondByte();
    ThirdByte();
    FourthByte();
    BitsSplit(0xEDB8_8320, 8, 24);
    BitsSplit(0xED_B883, 8, 16);
    BitsSplit(0xEDB8, 8, 8);
    var f, t := false, true;
    var g := [f, f, f, f, f, t, f, f] +
      ([t, t, f, f, f, f, f, t] + ([f, f, f, t, t, t, f, t] + [t, f, t, t, f, t, t, t]));
    assert Bits(0xEDB8_8320, 32) == g;
    GeneratorIs(g);
  }

  lemma GeneratorIs(g: Poly)
    requires var f, t := false, true;
             g == [f, f, f, f, f, t, f, f]
                + ([t, t, f, f, f, f, f, t] + ([f, f, f, t, t, t, f, t] + [t, f, t, t, f, t, t, t]))
    ensures g == Generator()[1..]
  {
    forall i | 0 <= i < 32 ensures g[i] == Generator()[i + 1] {
      assert Generator()[i + 1] == ((31 - i) in EXPONENTS);
    }
  }

  /** A step of the register is a line of long division. */
  lemma StepIsLine(c: bv32)
    ensures Bits(Step(c), 32) == Line(Bits(c, 32) + [false])
  {
    hide Generator, Bits, Half, Low, Step, Xor;
    var b := Bits(c, 32);
    FirstBit(c);
    StepIs(c);
    BitsShifted(c);
    PolyIsGenerator();
    BitsXor(Half(c), 0xEDB8_8320, 32);
    assert Bits(Step(c), 32) == if b[0] then Sum(b[1..] + [false], Generator()[1..]) else b[1..] + [false];
  }

  lemma FirstBit(c: bv32)
    ensures Bits(c, 32)[0] == Low(c)
  {
    hide Low, Half;
  }

  lemma StepIs(c: bv32)
    ensures Step(c) == if Low(c) then Xor(Half(c), 0xEDB8_8320) else Half(c)
  {}

  lemma OneBits(x: bool)
    ensures Bits(One(x), 32) == [x] + Zeros(31)
  {
    ZeroBits(31);
    assert Half(One(x)) == 0 && Low(One(x)) == x;
  }

  lemma {:induction false} ZeroBits(n: nat)
    ensures Bits(0, n) == Zeros(n)
  {
    if n > 0 { ZeroBits(n - 1); }
  }

  /** The register after m bits is the remainder of the message, followed by 32 zeros, with the first register added to
      its head. */
  lemma {:induction false} FeedIsRemainder(c: bv32, m: Poly)
    ensures Bits(Feed(c, m), 32) == Remainder(Sum(m + Zeros(32), Bits(c, 32) + Zeros(|m|)))
    decreases |m|
  {
    hide Feed, Bits, Line, Remainder, Sum, Zeros;
    if m == [] {
      FeedNothing(c);
      NoLines(Bits(c, 32));
    } else {
      var n := |m| - 1;
      var front, x := m[..n], m[n];
      FeedIsRemainder(c, front);
      assert front + [x] == m;
      FeedConcat(c, front, [x]);
      FeedOne(Feed(c, front), x);
      LastBit(Sum(front + Zeros(32), Bits(c, 32) + Zeros(n)), Bits(Feed(c, front), 32), n, x);
      OneBitMore(front, x, Bits(c, 32));
    }
  }

  lemma NoLines(b: Poly)
    requires |b| == 32
    ensures Remainder(Sum([] + Zeros(32), b + Zeros(0))) == b
  {
    assert Sum([] + Zeros(32), b + Zeros(0)) == b;
  }

  lemma OneBitMore(m: Poly, x: bool, b: Poly)
    requires |b| == 32
    ensures Sum(m + [x] + Zeros(32), b + Zeros(|m| + 1))
            == Sum(Sum(m + Zeros(32), b + Zeros(|m|)) + [false], Zeros(|m|) + ([x] + Zeros(32)))
  {}

  lemma FeedOne(c: bv32, x: bool)
    ensures Bits(Feed(c, [x]), 32) == Line(Sum(Bits(c, 32) + [false], [x] + Zeros(32)))
  {
    hide Step, Xor, One, Bits, Line;
    assert Feed(c, [x]) == Step(Xor(c, One(x))) by {
      FeedNothing(Step(Xor(c, One(x))));
      assert [x][1..] == [];
    }
    StepIsLine(Xor(c, One(x)));
    BitsXor(c, One(x), 32);
    OneBits(x);
    assert Sum(Bits(c, 32), [x] + Zeros(31)) + [false] == Sum(Bits(c, 32) + [false], [x] + Zeros(32));
  }

  lemma LastBit(p: Poly, r: Poly, n: nat, x: bool)
    requires |p| == n + 32 && r == Remainder(p)
    ensures Remainder(Sum(p + [false], Zeros(n) + ([x] + Zeros(32)))) == Line(Sum(r + [false], [x] + Zeros(32)))
  {
    hide Sum, Line;
    RemainderLinear(p + [false], Zeros(n) + ([x] + Zeros(32)));
    RemainderFront(p, [false]);
    RemainderZeros(n, [x] + Zeros(32));
    RemainderLinear(r + [false], [x] + Zeros(32));
  }

  /** CRC-32 as it is defined: the message with its first 32 bits inverted and 32 zeros behind it is divided by the
      generator, and the remainder inverted. */
  lemma CrcIsRemainder(s: seq<bv8>)
    ensures var m := MessageBits(s) + Zeros(32);
            Bits(Crc(s), 32) == Sum(Remainder(Sum(m, Ones(32) + Zeros(|m| - 32))), Ones(32))
  {
    hide Register, Feed, Bits, Step, Remainder;
    RegisterFeeds(0xFFFF_FFFF, s);
    FeedIsRemainder(0xFFFF_FFFF, MessageBits(s));
    AllOnes();
    assert Crc(s) == Xor(Register(0xFFFF_FFFF, s), 0xFFFF_FFFF);
    BitsXor(Register(0xFFFF_FFFF, s), 0xFFFF_FFFF, 32);
  }

  lemma AllOnes()
    ensures Bits(0xFFFF_FFFF, 32) == Ones(32)
  {
    OnesByte(0xFFFF_FFFF, 0xFF_FFFF);
    OnesByte(0xFF_FFFF, 0xFFFF);
    OnesByte(0xFFFF, 0xFF);
    OnesByte(0xFF, 0);
    hide Bits, Down;
    BitsSplit(0xFFFF_FFFF, 8, 24);
    BitsSplit(0xFF_FFFF, 8, 16);
    BitsSplit(0xFFFF, 8, 8);
    assert Ones(32) == Ones(8) + (Ones(8) + (Ones(8) + Ones(8)));
  }

  lemma OnesByte(c: bv32, d: bv32)
    requires c & 0xFF == 0xFF && d == c >> 8
    ensures Bits(c, 8) == Ones(8) && Down(c, 8) == d
  {
    EightBits(c);
    DownShift(c);
    hide Bits, Down;
    assert Four(c) == Ones(4) && Four(Fifth(c)) == Ones(4);
    assert Ones(8) == Ones(4) + Ones(4);
  }
}
