/** Polynomials over the field of two elements and their division by the generator of CRC-32. */
module PolyDivision {
  /** Coefficients from the highest power down. */
  type Poly = seq<bool>

  /** x^32 + x^26 + x^23 + x^22 + x^16 + x^12 + x^11 + x^10 + x^8 + x^7 + x^5 + x^4 + x^2 + x + 1. */
  const EXPONENTS: set<nat> := {32, 26, 23, 22, 16, 12, 11, 10, 8, 7, 5, 4, 2, 1, 0}

  function Generator(): (g: Poly)
    ensures |g| == 33 && g[0]
  {
    seq(33, i requires 0 <= i < 33 => (32 - i) in EXPONENTS)
  }

  function Zeros(n: nat): (p: Poly)
    ensures |p| == n && forall i :: 0 <= i < n ==> !p[i]
  {
    seq(n, _ => false)
  }

  function Ones(n: nat): (p: Poly)
    ensures |p| == n && forall i :: 0 <= i < n ==> p[i]
  {
    seq(n, _ => true)
  }

  /** The sum of two polynomials written with equally many coefficients. */
  function Sum(p: Poly, q: Poly): (r: Poly)
    requires |p| == |q|
    ensures |r| == |p| && forall i :: 0 <= i < |p| ==> r[i] == (p[i] != q[i])
  {
    seq(|p|, i requires 0 <= i < |p| => p[i] != q[i])
  }

  /** The generator, or nothing, with zeros behind it. */
  function Row(there: bool, n: nat): (r: Poly)
    ensures |r| == n + 33 && (r[0] <==> there)
    ensures forall i :: 0 <= i < n + 33 ==> r[i] == (there && i < 33 && Generator()[i])
  {
    if there then Generator() + Zeros(n) else Zeros(n + 33)
  }

  /** One line of long division: the generator is subtracted under a leading one. The leading place is then empty. */
  function Line(p: Poly): (r: Poly)
    requires |p| > 32
    ensures |r| == |p| - 1
    ensures forall i :: 0 <= i < |r| ==> r[i] == (p[i + 1] != (p[0] && i < 32 && Generator()[i + 1]))
  {
    Sum(p, Row(p[0], |p| - 33))[1..]
  }

  /** The remainder of p, by long division. */
  function Remainder(p: Poly): (r: Poly)
    requires |p| >= 32
    ensures |r| == 32
    decreases |p|
  {
    if |p| == 32 then p else Remainder(Line(p))
  }

  /** The quotient that goes with it. */
  function Quotient(p: Poly): (q: Poly)
    requires |p| >= 32
    ensures |q| == |p| - 32
    decreases |p|
  {
    if |p| == 32 then [] else [p[0]] + Quotient(Line(p))
  }

  /** The product of q and the generator: a row for each coefficient, each a place further down. */
  function Product(q: Poly): (r: Poly)
    ensures |r| == |q| + 32
  {
    if q == [] then Zeros(32) else Sum(Row(q[0], |q| - 1), [false] + Product(q[1..]))
  }

  lemma SumAssoc(p: Poly, q: Poly, r: Poly)
    requires |p| == |q| == |r|
    ensures Sum(p, Sum(q, r)) == Sum(Sum(p, q), r)
  {}

  lemma SumLower(p: Poly, q: Poly)
    requires |p| == |q|
    ensures [false] + Sum(p, q) == Sum([false] + p, [false] + q)
  {}

  lemma LineBack(p: Poly)
    requires |p| > 32
    ensures p == Sum(Row(p[0], |p| - 33), [false] + Line(p))
  {
    hide Line, Row, Sum, Generator;
    var row, line := Row(p[0], |p| - 33), Line(p);
    forall i | 0 <= i < |p| ensures p[i] == Sum(row, [false] + line)[i] {
      if i > 0 { assert ([false] + line)[i] == line[i - 1]; }
    }
  }

  /** Long division divides: p is the quotient times the generator plus a polynomial of a degree below 32. */
  lemma {:induction false} DivisionIs(p: Poly)
    requires |p| >= 32
    ensures p == Sum(Product(Quotient(p)), Zeros(|p| - 32) + Remainder(p))
    decreases |p|
  {
    hide Line, Row, Sum, Generator;
    if |p| == 32 {
      assert Zeros(0) + p == p;
    } else {
      var c, row := Line(p), Row(p[0], |p| - 33);
      var q, r := Quotient(c), Remainder(c);
      DivisionIs(c);
      LineBack(p);
      SumLower(Product(q), Zeros(|c| - 32) + r);
      assert [false] + (Zeros(|c| - 32) + r) == Zeros(|p| - 32) + r;
      SumAssoc(row, [false] + Product(q), Zeros(|p| - 32) + r);
      assert ([p[0]] + q)[1..] == q;
    }
  }

  lemma {:induction false} ProductLinear(p: Poly, q: Poly)
    requires |p| == |q|
    ensures Product(Sum(p, q)) == Sum(Product(p), Product(q))
  {
    if p != [] {
      assert Sum(p, q)[1..] == Sum(p[1..], q[1..]);
      ProductLinear(p[1..], q[1..]);
    } else {
      assert Sum(p, q) == [];
    }
  }

  /** A multiple of the generator of a degree below 32 is zero. */
  lemma {:induction false} LowProduct(q: Poly)
    requires forall i :: 0 <= i < |q| ==> !Product(q)[i]
    ensures q == Zeros(|q|) && Product(q) == Zeros(|q| + 32)
  {
    if q != [] {
      assert !Product(q)[0];
      assert !q[0];
      forall i | 0 <= i < |q| - 1 ensures !Product(q[1..])[i] { assert !Product(q)[i + 1]; }
      LowProduct(q[1..]);
    }
  }

  /** So quotient and remainder are the only ones. */
  lemma DivisionUnique(p: Poly, q: Poly, r: Poly)
    requires |p| >= 32 && |q| == |p| - 32 && |r| == 32 && p == Sum(Product(q), Zeros(|p| - 32) + r)
    ensures q == Quotient(p) && r == Remainder(p)
  {
    hide Product, Sum, Zeros, Quotient, Remainder;
    var q', r', d := Quotient(p), Remainder(p), Sum(q, Quotient(p));
    DivisionIs(p);
    ProductLinear(q, q');
    SameTotal(Product(q), Product(q'), r, r', |q|);
    LowProduct(d);
    forall i | 0 <= i < |q| ensures q[i] == q'[i] { assert !d[i]; }
    forall i | 0 <= i < 32 ensures r[i] == r'[i] { assert Product(d)[|q| + i] == (r[i] != r'[i]); }
  }

  /** Two products that complete to the same polynomial differ by the difference of the remainders. */
  lemma SameTotal(s: Poly, t: Poly, r: Poly, r': Poly, n: nat)
    requires |s| == |t| == n + 32 && |r| == |r'| == 32
    requires Sum(s, Zeros(n) + r) == Sum(t, Zeros(n) + r')
    ensures forall i :: 0 <= i < n ==> !Sum(s, t)[i]
    ensures forall i :: 0 <= i < 32 ==> Sum(s, t)[n + i] == (r[i] != r'[i])
  {
    hide Sum, Zeros;
    forall i | 0 <= i < n ensures !Sum(s, t)[i] { SameAt(s, t, r, r', n, i); }
    forall i | 0 <= i < 32 ensures Sum(s, t)[n + i] == (r[i] != r'[i]) { SameAt(s, t, r, r', n, n + i); }
  }

  lemma SameAt(s: Poly, t: Poly, r: Poly, r': Poly, n: nat, i: nat)
    requires |s| == |t| == n + 32 && |r| == |r'| == 32 && i < n + 32
    requires Sum(s, Zeros(n) + r) == Sum(t, Zeros(n) + r')
    ensures Sum(s, t)[i] == (i >= n && r[i - n] != r'[i - n])
  {
    hide Sum, Zeros;
    assert Sum(s, Zeros(n) + r)[i] == Sum(t, Zeros(n) + r')[i];
  }

  // ---------- laws of the remainder ----------

  lemma LineLinear(p: Poly, q: Poly)
    requires |p| == |q| > 32
    ensures Line(Sum(p, q)) == Sum(Line(p), Line(q))
  {
    hide Generator;
  }

  lemma {:induction false} RemainderLinear(p: Poly, q: Poly)
    requires |p| == |q| >= 32
    ensures Remainder(Sum(p, q)) == Sum(Remainder(p), Remainder(q))
    decreases |p|
  {
    hide Line, Sum;
    if |p| > 32 {
      LineLinear(p, q);
      RemainderLinear(Line(p), Line(q));
    }
  }

  lemma LineFront(p: Poly, t: Poly)
    requires |p| > 32
    ensures Line(p + t) == Line(p) + t
  {
    hide Generator;
  }

  /** Division may stop and go on with the remainder. */
  lemma {:induction false} RemainderFront(p: Poly, t: Poly)
    requires |p| >= 32
    ensures Remainder(p + t) == Remainder(Remainder(p) + t)
    decreases |p|
  {
    hide Line;
    if |p| > 32 {
      LineFront(p, t);
      RemainderFront(Line(p), t);
    }
  }

  /** Leading zeros do not matter. */
  lemma {:induction false} RemainderZeros(n: nat, p: Poly)
    requires |p| >= 32
    ensures Remainder(Zeros(n) + p) == Remainder(p)
  {
    if n == 0 {
      assert Zeros(0) + p == p;
    } else {
      var z := Zeros(n) + p;
      assert Line(z) == Zeros(n - 1) + p;
      RemainderZeros(n - 1, p);
    }
  }
}
