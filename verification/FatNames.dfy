/** 8.3 names: the conversion used when an entry is created, and the comparison used when one is looked up. */
module FatNames {
  import opened FatDisk

  const DOT: byte := 46
  const SPACE: byte := 32

  function Upper(c: byte): byte { if 97 <= c <= 122 then c - 32 else c }

  /** Exactly the letters a to z change, to the capital letter of the same place in the alphabet. */
  lemma UpperIs(c: byte, k: nat)
    requires k < 26
    ensures Upper(97 + k) == 65 + k && (Upper(c) != c <==> 97 <= c <= 122)
  {}

  /** The part before the first dot. */
  function Base(s: seq<byte>): (b: seq<byte>)
    ensures |b| <= |s| && DOT !in b && b == s[..|b|] && (|b| == |s| || s[|b|] == DOT)
  {
    if s == [] || s[0] == DOT then [] else [s[0]] + Base(s[1..])
  }

  /** The part after the first dot, further dots included. */
  function Ext(s: seq<byte>): seq<byte> {
    if |Base(s)| == |s| then [] else s[|Base(s)| + 1..]
  }

  /** The first n characters in upper case, blank-padded to n. */
  function Field(t: seq<byte>, n: nat): (f: seq<byte>)
    ensures |f| == n
  {
    seq(n, k requires 0 <= k < n => if k < |t| then Upper(t[k]) else SPACE)
  }

  /** The 11-byte directory form of a file name. */
  function To83(s: seq<byte>): (n: seq<byte>)
    ensures |n| == 11
  {
    Field(Base(s), 8) + Field(Ext(s), 3)
  }

  /** A name of eleven characters without a dot is taken to be in directory form already. */
  predicate Raw(s: seq<byte>) { |s| == 11 && DOT !in s }

  /** The 11-byte form a lookup compares against. */
  function Canon(s: seq<byte>): (n: seq<byte>)
    ensures |n| == 11
  {
    if Raw(s) then Field(s, 11) else To83(s)
  }

  /** Creation and lookup agree on a name exactly when it is not an eleven-character dotless name with something
      other than blanks in its last three characters. */
  lemma LookupMatchesCreation(s: seq<byte>)
    ensures Canon(s) == To83(s) <==> !(|s| == 11 && 46 !in s && s[8..] != [32, 32, 32])
  {
    if Raw(s) {
      RawForms(s);
      if s[8..] == [SPACE, SPACE, SPACE] {
        BlankTail(s);
        assert Canon(s) == To83(s);
      } else {
        var k := FirstNonBlank(s);
        assert Canon(s)[k] != To83(s)[k];
      }
    }
  }

  /** The two forms of such a name, byte by byte. */
  lemma RawForms(s: seq<byte>)
    requires Raw(s)
    ensures forall k :: 0 <= k < 11 ==> Canon(s)[k] == Upper(s[k])
    ensures forall k :: 0 <= k < 8 ==> To83(s)[k] == Upper(s[k])
    ensures forall k :: 8 <= k < 11 ==> To83(s)[k] == SPACE
  {
    hide Upper, Base;
    assert Base(s) == s by { BaseSkips(s, 11); assert s[..11] == s; }
    assert Ext(s) == [];
  }

  lemma BlankTail(s: seq<byte>)
    requires |s| == 11 && s[8..] == [SPACE, SPACE, SPACE]
    ensures forall k :: 8 <= k < 11 ==> Upper(s[k]) == SPACE
  {
    assert s[8] == s[8..][0] && s[9] == s[8..][1] && s[10] == s[8..][2];
  }

  /** A position of the tail that does not become a blank. */
  lemma FirstNonBlank(s: seq<byte>) returns (k: nat)
    requires |s| == 11 && s[8..] != [SPACE, SPACE, SPACE]
    ensures 8 <= k < 11 && Upper(s[k]) != SPACE
  {
    if s[8] != SPACE { return 8; }
    if s[9] != SPACE { return 9; }
    assert s[8..] == [s[8], s[9], s[10]];
    return 10;
  }

  /** A name with a dot, whatever follows it, becomes the two padded fields, for lookup and creation. */
  lemma DottedForm(b: seq<byte>, e: seq<byte>)
    requires DOT !in b
    ensures To83(b + [DOT] + e) == Field(b, 8) + Field(e, 3) && Canon(b + [DOT] + e) == To83(b + [DOT] + e)
  {
    hide Field, Base;
    var s := b + [DOT] + e;
    assert s[|b|] == DOT && s[..|b|] == b && s[|b| + 1..] == e;
    BaseSkips(s, |b|);
  }

  /** "readme.txt" becomes "README  TXT". */
  lemma ReadmeExample()
    ensures var s: seq<byte> := [114, 101, 97, 100, 109, 101, 46, 116, 120, 116];
            To83(s) == [82, 69, 65, 68, 77, 69, 32, 32, 84, 88, 84] && Canon(s) == To83(s)
  {
    hide To83, Canon, Field;
    var s: seq<byte> := [114, 101, 97, 100, 109, 101, 46, 116, 120, 116];
    var b: seq<byte>, e: seq<byte> := [114, 101, 97, 100, 109, 101], [116, 120, 116];
    assert s == b + [DOT] + e;
    ReadmeFields(b, e);
    DottedForm(b, e);
  }

  lemma ReadmeFields(b: seq<byte>, e: seq<byte>)
    requires b == [114, 101, 97, 100, 109, 101] && e == [116, 120, 116]
    ensures Field(b, 8) == [82, 69, 65, 68, 77, 69, 32, 32] && Field(e, 3) == [84, 88, 84]
  {}

  /** "LONGDIRNAME" is stored as "LONGDIRN   " but looked up as itself. */
  lemma LongNameExample()
    ensures var s: seq<byte> := [76, 79, 78, 71, 68, 73, 82, 78, 65, 77, 69];
            Canon(s) != To83(s)
  {
    var s: seq<byte> := [76, 79, 78, 71, 68, 73, 82, 78, 65, 77, 69];
    assert s[8..][0] == 65;
    LookupMatchesCreation(s);
  }

  /** No name matches the "." and ".." entries of a directory. */
  lemma CanonHasNoLeadingDot(s: seq<byte>)
    ensures Canon(s)[0] != DOT
  {
    if Raw(s) { assert s[0] != DOT; }
    else if Base(s) != [] { assert Base(s)[0] != DOT; }
  }

  lemma BaseSkips(s: seq<byte>, i: nat)
    requires i <= |s| && DOT !in s[..i]
    ensures |Base(s)| >= i && (i == |s| || s[i] == DOT ==> Base(s) == s[..i])
  {
    var b := Base(s);
    assert forall k :: 0 <= k < i ==> s[k] == s[..i][k];
    assert forall k :: 0 <= k < |b| ==> b[k] == s[k];
  }

  /** The base part of a name under conversion, the extension still blank. */
  function BaseOnly(s: seq<byte>): seq<byte> { Field(Base(s), 8) + Field([], 3) }

  /** `To83Format`. */
  method To83Format(src: seq<byte>) returns (dst: seq<byte>)
    ensures dst == To83(src)
  {
    var i;
    dst, i := CopyBase(src);
    while i < |src| && src[i] != DOT
      invariant i <= |src| && DOT !in src[..i]
    {
      i := i + 1;
    }
    BaseSkips(src, i);
    if i < |src| {
      dst := CopyExt(src, i + 1, dst);
    }
  }

  /** The first loop of `To83Format`: at most eight characters, up to the dot. */
  method CopyBase(src: seq<byte>) returns (dst: seq<byte>, i: nat)
    ensures i <= |src| && DOT !in src[..i] && dst == BaseOnly(src)
  {
    dst := seq(11, _ => SPACE);
    i := 0;
    while i < |src| && src[i] != DOT && i < 8
      invariant i <= 8 && i <= |src| && |dst| == 11 && DOT !in src[..i]
      invariant forall k :: 0 <= k < 11 ==> dst[k] == if k < i then Upper(src[k]) else SPACE
    {
      dst := dst[i := Upper(src[i])];
      i := i + 1;
    }
    BaseSkips(src, i);
    assert Base(src) == src[..|Base(src)|];
    assert forall k :: 0 <= k < 11 ==> dst[k] == BaseOnly(src)[k];
  }

  /** The extension loop of `To83Format`: at most three characters. */
  method CopyExt(src: seq<byte>, start: nat, name: seq<byte>) returns (dst: seq<byte>)
    requires start <= |src| && name == BaseOnly(src) && |Base(src)| + 1 == start
    ensures dst == To83(src)
  {
    dst := name;
    var i, j := start, 8;
    while i < |src| && j < 11
      invariant start <= i <= |src| && 8 <= j <= 11 && i - start == j - 8 && |dst| == 11
      invariant forall k :: 0 <= k < 11 ==> dst[k] == if 8 <= k < j then Upper(src[start + k - 8]) else name[k]
    {
      dst := dst[j := Upper(src[i])];
      i, j := i + 1, j + 1;
    }
    ExtFilled(src, start, j, dst);
  }

  /** A name with its base in place and its extension copied as far as it goes is the directory form. */
  lemma ExtFilled(src: seq<byte>, start: nat, j: nat, dst: seq<byte>)
    requires start <= |src| && |Base(src)| + 1 == start && |dst| == 11 && 8 <= j <= 11
    requires j == 11 || start + j - 8 == |src|
    requires start + j - 8 <= |src|
    requires forall k :: 0 <= k < 11 ==> dst[k] == if 8 <= k < j then Upper(src[start + k - 8]) else BaseOnly(src)[k]
    ensures dst == To83(src)
  {
    assert Ext(src) == src[start..];
    forall k | 0 <= k < 11 ensures dst[k] == To83(src)[k] {
      if k >= 8 && k < j { assert Ext(src)[k - 8] == src[start + k - 8]; }
    }
  }

  /** `IsNameEqual`: the name is converted on the fly and compared byte by byte. */
  method IsNameEqual(entry: seq<byte>, target: seq<byte>) returns (same: bool)
    requires |entry| == 11
    ensures same <==> entry == Canon(target)
  {
    if |target| == 11 {
      var dot := HasDot(target);
      if !dot {
        var raw := CopyRaw(target);
        same := SameBytes(entry, raw);
        return;
      }
    }
    var converted, i := ScanBase(target);
    if i < |target| {
      converted := ScanExt(target, i + 1, converted);
    } else {
      assert Ext(target) == [];
    }
    same := SameBytes(entry, converted);
  }

  method CopyRaw(target: seq<byte>) returns (converted: seq<byte>)
    requires |target| == 11
    ensures converted == Field(target, 11)
  {
    converted := seq(11, _ => SPACE);
    for k := 0 to 11
      invariant |converted| == 11
      invariant forall m :: 0 <= m < k ==> converted[m] == Upper(target[m])
    {
      converted := converted[k := Upper(target[k])];
    }
  }

  /** The base loop of `IsNameEqual`: runs to the dot, keeping eight characters. */
  method ScanBase(target: seq<byte>) returns (converted: seq<byte>, i: nat)
    ensures i == |Base(target)| && converted == BaseOnly(target)
  {
    converted := seq(11, _ => SPACE);
    var j := 0;
    i := 0;
    while i < |target| && target[i] != DOT
      invariant i <= |target| && j == (if i < 8 then i else 8) && |converted| == 11 && DOT !in target[..i]
      invariant forall k :: 0 <= k < 11 ==> converted[k] == if k < j then Upper(target[k]) else SPACE
    {
      if j < 8 {
        converted := converted[j := Upper(target[i])];
        j := j + 1;
      }
      i := i + 1;
    }
    BaseSkips(target, i);
    assert forall k :: 0 <= k < 11 ==> converted[k] == BaseOnly(target)[k];
  }

  /** The extension loop of `IsNameEqual`: runs to the end, keeping three characters. */
  method ScanExt(target: seq<byte>, start: nat, name: seq<byte>) returns (converted: seq<byte>)
    requires start <= |target| && name == BaseOnly(target) && |Base(target)| + 1 == start
    ensures converted == To83(target)
  {
    converted := name;
    var i, j := start, 8;
    while i < |target|
      invariant start <= i <= |target| && j == (if i - start < 3 then 8 + i - start else 11) && |converted| == 11
      invariant forall k :: 0 <= k < 11 ==> converted[k] == if 8 <= k < j then Upper(target[start + k - 8]) else name[k]
    {
      if j < 11 {
        converted := converted[j := Upper(target[i])];
        j := j + 1;
      }
      i := i + 1;
    }
    ExtFilled(target, start, j, converted);
  }

  method HasDot(s: seq<byte>) returns (dot: bool)
    ensures dot <==> DOT in s
  {
    dot := false;
    for k := 0 to |s|
      invariant !dot && DOT !in s[..k]
    {
      if s[k] == DOT {
        return true;
      }
    }
  }

  method SameBytes(a: seq<byte>, b: seq<byte>) returns (same: bool)
    requires |a| == 11 && |b| == 11
    ensures same <==> a == b
  {
    for k := 0 to 11
      invariant a[..k] == b[..k]
    {
      if a[k] != b[k] {
        return false;
      }
    }
    assert a == a[..11] && b == b[..11];
    return true;
  }
}
