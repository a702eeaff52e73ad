/** The QIC-80 Reed-Solomon code on one byte column of a segment.

    A column m_0, ..., m_{k-1} is the polynomial m(x) = sum m_i x^i.  The generator is
    g(x) = x^3 + r^105 x^2 + r^105 x + 1 = (x - r^-1)(x - 1)(x - r), so a column is a code word
    exactly when m(x) vanishes at r^-1, 1 and r.  Those three values are its syndromes.
 */
module ReedSolomon {
  import opened Bits
  import opened GaloisField
  import opened GaloisTables
  import opened GaloisPowers

  // ----- the linear feedback shift register -----

  /** The register contents p(x) = p0 + p1 x + p2 x^2. */
  datatype Parity = Parity(p0: byte, p1: byte, p2: byte)

  const ZERO_PARITY := Parity(0, 0, 0)

  function ParityStep(p: Parity, m: byte): Parity {
    var t1 := Add(m, p.p0);
    var t2 := Mul(t1, 0xc0);
    Parity(Add(t2, p.p1), Add(t2, p.p2), t1)
  }

  function ParityOf(m: seq<byte>): Parity {
    if |m| == 0 then ZERO_PARITY
    else ParityStep(ParityOf(m[..|m| - 1]), m[|m| - 1])
  }

  // ----- evaluation at the roots of the generator -----

  /** The roots are r^j for these j. */
  predicate IsRoot(j: int) { -1 <= j <= 1 }

  /** j * n, named so that products of variables stay out of the solver's way. */
  function Times(j: int, n: int): int { j * n }

  lemma TimesNext(j: int, n: int)
    ensures Times(j, 0) == 0
    ensures Times(j, n + 1) == Times(j, n) + j
    ensures Times(0, n) == 0 && Times(1, n) == n && Times(-1, n) == -n
  {}

  /** m(r^j). */
  function Eval(m: seq<byte>, j: int): byte {
    if |m| == 0 then 0
    else Add(Eval(m[..|m| - 1], j), Scale(m[|m| - 1], Times(j, |m| - 1)))
  }

  /** p(r^j). */
  function EvalParity(p: Parity, j: int): byte {
    Add(p.p0, Add(Scale(p.p1, j), Scale(p.p2, j + j)))
  }

  lemma ExpValue(i: int, n: int, p: byte)
    requires 0 <= n < 255 && (i == n || i == n - 255) && PowTable(n) == p
    ensures Exp(i) == p
  {
    hide Pow, PowTable;
    PowTableRight(n);
  }

  lemma ExpValues()
    ensures Exp(0) == 1 && Exp(3) == 0x08 && Exp(-3) == 0x51
    ensures Exp(103) == 0x30 && Exp(104) == 0x60 && Exp(105) == 0xc0
    ensures Exp(106) == 0x07 && Exp(107) == 0x0e
  {
    assert PowTable(0) == 1 && PowTable(3) == 0x08 && PowTable(252) == 0x51;
    assert PowTable(103) == 0x30 && PowTable(104) == 0x60 && PowTable(105) == 0xc0;
    assert PowTable(106) == 0x07 && PowTable(107) == 0x0e;
    hide *;
    ExpValue(0, 0, 1);
    ExpValue(3, 3, 0x08);
    ExpValue(-3, 252, 0x51);
    ExpValue(103, 103, 0x30);
    ExpValue(104, 104, 0x60);
    ExpValue(105, 105, 0xc0);
    ExpValue(106, 106, 0x07);
    ExpValue(107, 107, 0x0e);
  }

  lemma XorBit(a: nat, b: nat, c: nat)
    requires Xor(Half(a), Half(b)) == Half(c) && BitXor(Odd(a), Odd(b)) == Odd(c)
    ensures Xor(a, b) == c
  {
    hide Xor;
    XorDef(a, b);
  }

  lemma RootSums()
    ensures Add(0x07, Add(0x0e, 0x08)) == 1
    ensures Add(0x60, Add(0x30, 0x51)) == 1
  {
    hide Xor;
    XorZero(0);
    XorBit(1, 1, 0);
    XorBit(3, 2, 1); XorBit(7, 4, 3); XorBit(14, 8, 6);
    XorBit(3, 3, 0); XorBit(7, 6, 1);
    XorBit(0, 1, 1); XorBit(1, 2, 3); XorBit(3, 5, 6); XorBit(6, 10, 12); XorBit(12, 20, 24);
    XorBit(24, 40, 48); XorBit(48, 81, 97);
    XorZero(48);
    XorBit(96, 97, 1);
  }

  /** g(r^j) = 0: the constant term 1 is the sum of the other three. */
  lemma GeneratorRoots(j: int)
    requires IsRoot(j)
    ensures Add(Exp(105 + j), Add(Exp(105 + (j + j)), Exp(j + j + j))) == 1
  {
    hide Exp, Add;
    ExpValues();
    RootSums();
    AddCancel(1, 0xc0);
  }

  // ----- the register divides by g through x^-1 -----

  lemma Regroup(a1: byte, a2: byte, b1: byte, b2: byte, c: byte)
    ensures Add(Add(a1, a2), Add(Add(b1, b2), c)) == Add(Add(a1, Add(b1, c)), Add(a2, b2))
  {
    hide *;
    AddAssociates(b1, b2, c);
    AddCommutes(b2, c);
    AddAssociates(b1, c, b2);
    AddSwap(a1, a2, Add(b1, c), b2);
  }

  /** t * (r^105 x + r^105 x^2 + x^3) = t at each root x = r^j. */
  lemma FeedbackAtRoot(t: byte, j: int)
    requires IsRoot(j)
    ensures Add(Scale(Mul(t, 0xc0), j), Add(Scale(Mul(t, 0xc0), j + j), Scale(t, j + j + j))) == t
  {
    assert Mul(t, 0xc0) == Scale(t, 105) by {
      hide Mul, Exp;
      ExpValues();
    }
    hide Mul, Exp, Add;
    ScaleScale(t, 105, j);
    ScaleScale(t, 105, j + j);
    GeneratorRoots(j);
    MulAddRight(t, Exp(105 + (j + j)), Exp(j + j + j));
    MulAddRight(t, Exp(105 + j), Add(Exp(105 + (j + j)), Exp(j + j + j)));
    MulOne(t);
  }

  /** One step of the register: x * p'(x) = m + p(x) at every root of g. */
  lemma StepAtRoot(p: Parity, m: byte, j: int)
    requires IsRoot(j)
    ensures Scale(EvalParity(ParityStep(p, m), j), j) == Add(m, EvalParity(p, j))
  {
    hide Add, Mul, Scale;
    var t1 := Add(m, p.p0);
    var t2 := Mul(t1, 0xc0);
    var q := ParityStep(p, m);
    ScaleAdd(q.p0, Add(Scale(q.p1, j), Scale(q.p2, j + j)), j);
    ScaleAdd(Scale(q.p1, j), Scale(q.p2, j + j), j);
    ScaleScale(q.p1, j, j);
    ScaleScale(q.p2, j + j, j);
    ScaleAdd(t2, p.p1, j);
    ScaleAdd(t2, p.p2, j + j);
    Regroup(Scale(t2, j), Scale(p.p1, j), Scale(t2, j + j), Scale(p.p2, j + j), Scale(t1, j + j + j));
    FeedbackAtRoot(t1, j);
    AddAssociates(m, p.p0, Add(Scale(p.p1, j), Scale(p.p2, j + j)));
  }

  /** After k bytes, x^k * p(x) = m(x) at every root of g, for any k. */
  lemma {:induction false} RemainderAtRoot(m: seq<byte>, j: int)
    requires IsRoot(j)
    ensures Scale(EvalParity(ParityOf(m), j), Times(j, |m|)) == Eval(m, j)
  {
    hide Scale, Add, Times, Mul;
    if |m| == 0 {
      TimesNext(j, 0);
      ScaleBack(0, j);
      ScaleBack(0, j + j);
      AddZero(0);
    } else {
      var k := |m| - 1;
      var n, b := m[..k], m[k];
      RemainderAtRoot(n, j);
      StepAtRoot(ParityOf(n), b, j);
      assert ParityOf(m) == ParityStep(ParityOf(n), b);
      assert Eval(m, j) == Add(Eval(n, j), Scale(b, Times(j, k)));
      hide *;
      TimesNext(j, k);
      ScaleScale(EvalParity(ParityOf(m), j), j, Times(j, k));
      ScaleAdd(b, EvalParity(ParityOf(n), j), Times(j, k));
      AddCommutes(Scale(b, Times(j, k)), Eval(n, j));
    }
  }

  // ----- the same as an identity of polynomials -----

  /** The feedback bytes t1 of each step: the coefficients of the quotient q(x). */
  function Quotient(m: seq<byte>): (q: seq<byte>)
    ensures |q| == |m|
  {
    if |m| == 0 then []
    else Quotient(m[..|m| - 1]) + [Add(m[|m| - 1], ParityOf(m[..|m| - 1]).p0)]
  }

  /** The coefficient of x^n. */
  function Coeff(q: seq<byte>, n: int): byte {
    if 0 <= n < |q| then q[n] else 0
  }

  /** The coefficient of x^n in q(x) * g(x). */
  function TimesGenerator(q: seq<byte>, n: int): byte {
    Add(Add(Coeff(q, n), Mul(Coeff(q, n - 1), 0xc0)), Add(Mul(Coeff(q, n - 2), 0xc0), Coeff(q, n - 3)))
  }

  /** The coefficient of x^n in m(x) + x^k * p(x). */
  function MessagePlusParity(m: seq<byte>, p: Parity, n: int): byte {
    if n < |m| then Coeff(m, n)
    else if n == |m| then p.p0
    else if n == |m| + 1 then p.p1
    else if n == |m| + 2 then p.p2
    else 0
  }

  /** Appending t to q adds t * g(x) shifted by |q|. */
  lemma TimesGeneratorAppend(q: seq<byte>, t: byte, n: int)
    ensures TimesGenerator(q + [t], n) ==
            Add(TimesGenerator(q, n), if n == |q| || n == |q| + 3 then t
                                      else if n == |q| + 1 || n == |q| + 2 then Mul(t, 0xc0) else 0)
  {
    hide Add, Mul;
    var k := |q|;
    var q' := q + [t];
    assert forall i: int :: i != k ==> Coeff(q', i) == Coeff(q, i);
    assert Coeff(q', k) == t && Coeff(q, k) == 0;
    var a, b, c, d := Coeff(q, n), Mul(Coeff(q, n - 1), 0xc0), Mul(Coeff(q, n - 2), 0xc0), Coeff(q, n - 3);
    MulZero(0xc0);
    hide Coeff;
    AddZero(Add(Add(a, b), Add(c, d)));
    LastOfFour(a, b, c, d);
    AddZero(a); AddZero(b); AddZero(c); AddZero(d);
    AddZero(t); AddZero(Mul(t, 0xc0));
    if n == k {
      FourPlus(b, c, d, t);
    } else if n == k + 1 {
      FourPlus(a, c, d, Mul(t, 0xc0));
      AddCommutes(a, Mul(t, 0xc0));
    } else if n == k + 2 {
      FourPlus(d, a, b, Mul(t, 0xc0));
      AddCommutes(Add(a, b), Add(Mul(t, 0xc0), d));
      AddCommutes(Add(a, b), d);
    } else if n == k + 3 {
      AddAssociates(Add(a, b), c, t);
    }
  }

  lemma LastOfFour(a: byte, b: byte, c: byte, d: byte)
    ensures Add(Add(0, b), Add(c, d)) == Add(b, Add(c, d))
    ensures Add(Add(a, 0), Add(c, d)) == Add(a, Add(c, d))
    ensures Add(Add(a, b), Add(0, d)) == Add(Add(a, b), d)
    ensures Add(Add(a, b), Add(c, 0)) == Add(Add(a, b), c)
  {
    hide *;
    AddZero(a); AddZero(b); AddZero(c); AddZero(d);
  }

  lemma FourPlus(b: byte, c: byte, d: byte, t: byte)
    ensures Add(Add(t, b), Add(c, d)) == Add(Add(b, Add(c, d)), t)
  {
    hide *;
    AddAssociates(t, b, Add(c, d));
    AddCommutes(t, Add(b, Add(c, d)));
  }

  /** m(x) + x^k * p(x) is a multiple of g(x), for a message of any length k. */
  lemma {:induction false} ParityDivides(m: seq<byte>, n: int)
    requires n >= 0
    ensures TimesGenerator(Quotient(m), n) == MessagePlusParity(m, ParityOf(m), n)
  {
    if |m| == 0 {
      hide Add, Mul;
      MulZero(0xc0);
      AddZero(0);
    } else {
      var k := |m| - 1;
      var l, b := m[..k], m[k];
      var p, q := ParityOf(l), Quotient(l);
      var t := Add(b, p.p0);
      ParityDivides(l, n);
      TimesGeneratorAppend(q, t, n);
      assert Quotient(m) == q + [t];
      assert ParityOf(m) == Parity(Add(Mul(t, 0xc0), p.p1), Add(Mul(t, 0xc0), p.p2), t);
      hide TimesGenerator, Quotient, ParityOf, ParityStep, Add, Mul;
      AddCommutes(b, p.p0);
      AddCancel(b, p.p0);
      AddCommutes(p.p1, Mul(t, 0xc0));
      AddCommutes(p.p2, Mul(t, 0xc0));
      AddZero(t);
      AddZero(MessagePlusParity(l, p, n));
    }
  }
}
