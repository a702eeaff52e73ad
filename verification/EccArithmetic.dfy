/** Field arithmetic as the driver does it: by table lookup and exponents modulo 255. */
module EccArithmetic {
  import opened Bits
  import opened GaloisField
  import opened GaloisTables
  import opened GaloisPowers
  import opened ReedSolomon
  import opened Erasures
  import opened Vandermonde

  /** Reduces an exponent in -255..509 into the range of the power table. */
  method Mod255(v: int) returns (r: byte)
    requires -255 <= v <= 509
    ensures Exp(r) == Exp(v)
    ensures (r == v || r == v - 255 || r == v + 255) && (r == 255 <==> v == 0)
  {
    hide *;
    if v > 0 {
      if v < 255 {
        r := v;
      } else {
        r := v - 255;
        ExpPeriod(v - 255);
      }
    } else {
      r := v + 255;
      ExpPeriod(v);
    }
  }

  lemma LogScale(a: byte, l: int, i: int)
    requires a == Exp(l)
    ensures Exp(l + i) == Scale(a, i)
  {
    hide *;
    ScaleExp(l, i);
  }

  method GfMul(a: byte, b: byte) returns (p: byte)
    ensures p == Mul(a, b)
  {
    hide *;
    if a != 0 && b != 0 {
      var la: int := GfLog(a);
      var lb: int := GfLog(b);
      var e := Mod255(la + lb);
      p := GfPow(e);
      ExpAdd(la, lb);
    } else {
      p := 0;
      MulZero(a);
      MulZero(b);
    }
  }

  method GfMulExp(a: byte, b: int) returns (p: byte)
    requires -255 <= b <= 255
    ensures p == Scale(a, b)
  {
    hide *;
    if a != 0 {
      var la: int := GfLog(a);
      var e := Mod255(la + b);
      p := GfPow(e);
      LogScale(a, la, b);
    } else {
      p := 0;
      ScaleBack(0, b);
    }
  }

  /** a / b; the driver answers 0xff for a division by zero. */
  method GfDiv(a: byte, b: byte) returns (q: byte)
    ensures b != 0 ==> Mul(q, b) == a
    ensures b == 0 ==> q == 0xff
  {
    hide *;
    if b == 0 {
      q := 0xff;
    } else if a == 0 {
      q := 0;
      MulZero(b);
    } else {
      var la: int := GfLog(a);
      var lb: int := GfLog(b);
      var e := Mod255(la - lb);
      q := GfPow(e);
      ExpAdd(la - lb, lb);
    }
  }

  /** The inverse matrix rows; entries beyond the order of the system are not used. */
  type Matrix = m: seq<Triple> | |m| == 3 witness [NO_ERROR, NO_ERROR, NO_ERROR]

  /** The first |ls| rows of m solve for the errors in rows ls. */
  predicate Solves(m: Matrix, ls: seq<int>)
    requires |ls| <= 3
  {
    forall i :: 0 <= i < |ls| ==> PicksOut(m[i], ls, i, |ls|)
  }

  lemma Unit(det: byte, l: byte)
    requires det == Exp(l)
    ensures Scale(det, 255 - l) == 1
  {
    hide *;
    LogScale(det, l, 255 - l);
    ExpPeriod(0);
    ExpZero();
  }

  /** gfinv2 succeeds for any two different rows, in either order. */
  method GfInv2(l0: byte, l1: byte) returns (ok: bool, ainv: Matrix)
    requires l0 < 255 && l1 < 255
    ensures ok <==> l0 != l1
    ensures ok ==> Solves(ainv, [l0, l1])
  {
    hide *;
    ainv := [NO_ERROR, NO_ERROR, NO_ERROR];
    var t1 := GfPow(255 - l0);
    var t2 := GfPow(255 - l1);
    var i0: int, i1: int := l0, l1;
    ExpPeriod(-i0);
    ExpPeriod(-i1);
    var det := Add(t1, t2);
    if det == 0 {
      ok := false;
      if l0 != l1 {
        SumNotZero(-i0, -i1);
      }
      return;
    }
    if l0 == l1 {
      AddZero(t1);
    }
    ok := true;
    var l := GfLog(det);
    var logDet := 255 - l;
    var p := GfPow(logDet);
    var a01 := GfMulExp(t2, logDet);
    var a11 := GfMulExp(t1, logDet);
    ainv := [[p, a01, 0], [p, a11, 0], NO_ERROR];
    Unit(det, l);
    Inverse2(ainv[0], ainv[1], l0, l1, logDet);
    SolvesTwo(ainv, l0, l1);
  }

  lemma SolvesTwo(m: Matrix, l0: int, l1: int)
    requires PicksOut(m[0], [l0, l1], 0, 2) && PicksOut(m[1], [l0, l1], 1, 2)
    ensures Solves(m, [l0, l1])
  {
    hide PicksOut;
  }

  lemma SolvesThree(m: Matrix, l0: int, l1: int, l2: int)
    requires PicksOut(m[0], [l0, l1, l2], 0, 3) && PicksOut(m[1], [l0, l1, l2], 1, 3)
    requires PicksOut(m[2], [l0, l1, l2], 2, 3)
    ensures Solves(m, [l0, l1, l2])
  {
    hide PicksOut;
  }

  /** The six powers of the determinant, in the order in which the driver adds them. */
  lemma Det3Sum(l0: int, l1: int, l2: int)
    ensures Add(Exp(l2 - l0), Add(Exp(l1 - l0), Add(Exp(l2 - l1), Add(Exp(l1 - l2), Add(Exp(l0 - l1), Exp(l0 - l2))))))
         == Det3(l2, l1, l0)
  {
    hide Add, Exp;
    var a, a', b, b', c, c' := Exp(l2 - l0), Exp(l0 - l2), Exp(l1 - l0), Exp(l0 - l1), Exp(l2 - l1), Exp(l1 - l2);
    assert Det3(l2, l1, l0) == Add(Add(Add(a, a'), Add(b, b')), Add(c, c'));
    SixTerms(a, a', b, b', c, c');
  }

  lemma SixTerms(a: byte, a': byte, b: byte, b': byte, c: byte, c': byte)
    ensures Add(a, Add(b, Add(c, Add(c', Add(b', a'))))) == Add(Add(Add(a, a'), Add(b, b')), Add(c, c'))
  {
    hide *;
    var k := Add(c, c');
    AddAssociates(c, c', Add(b', a'));
    AddCommutes(k, Add(b', a'));
    AddAssociates(b, Add(b', a'), k);
    AddAssociates(a, Add(b, Add(b', a')), k);
    AddAssociates(b, b', a');
    AddCommutes(Add(b, b'), a');
    AddAssociates(a, a', Add(b, b'));
  }

  /** gfinv3 succeeds for any three rows in ascending order. */
  method GfInv3(l0: byte, l1: byte, l2: byte) returns (ok: bool, ainv: Matrix)
    requires l0 < l1 < l2 < 255
    ensures ok && Solves(ainv, [l0, l1, l2])
  {
    hide *;
    ainv := [NO_ERROR, NO_ERROR, NO_ERROR];
    var t20 := GfPow(l2 - l0);
    var t10 := GfPow(l1 - l0);
    var t21 := GfPow(l2 - l1);
    var t12 := GfPow(l1 - l2 + 255);
    var t01 := GfPow(l0 - l1 + 255);
    var t02 := GfPow(l0 - l2 + 255);
    ExpPeriod(l1 - l2);
    ExpPeriod(l0 - l1);
    ExpPeriod(l0 - l2);
    var det := Add(t20, Add(t10, Add(t21, Add(t12, Add(t01, t02)))));
    Det3Sum(l0, l1, l2);
    Det3NotZero(l2, l1, l0);
    if det == 0 {
      ok := false;
      return;
    }
    ok := true;
    var l := GfLog(det);
    var logDet := 255 - l;
    var row0 := InverseRow(l1, l2, t21, t12, logDet);
    var row1 := InverseRow(l0, l2, t20, t02, logDet);
    var row2 := InverseRow(l0, l1, t10, t01, logDet);
    ainv := [row0, row1, row2];
    Unit(det, l);
    Det3Symmetric(l2, l1, l0);
    Det3Symmetric(l0, l1, l2);
    Det3Symmetric(l2, l0, l1);
    Det3Symmetric(l0, l2, l1);
    Inverse3(row0, row1, row2, l0, l1, l2, logDet);
    SolvesThree(ainv, l0, l1, l2);
  }

  /** One row of the 3x3 inverse: the three coefficients for the other two rows a and b. */
  method InverseRow(a: byte, b: byte, tba: byte, tab: byte, logDet: int) returns (row: Triple)
    requires a < 255 && b < 255 && 0 <= logDet <= 255
    requires tba == Exp(b - a) && tab == Exp(a - b)
    ensures RowOf(row, a, b, logDet)
  {
    hide Exp, Add, Scale;
    var pa := GfPow(a);
    var pb := GfPow(b);
    var c0 := GfMulExp(Add(pa, pb), logDet);
    var c1 := GfMulExp(Add(tba, tab), logDet);
    var qa := GfPow(255 - a);
    var qb := GfPow(255 - b);
    var ia: int, ib: int := a, b;
    ExpPeriod(-ia);
    ExpPeriod(-ib);
    var c2 := GfMulExp(Add(qa, qb), logDet);
    row := [c0, c1, c2];
  }

  /** gfmat_mul for the first n rows and columns. */
  method GfMatMul(n: nat, a: Matrix, s: Triple) returns (b: seq<byte>)
    requires n <= 3
    ensures |b| == n && forall i :: 0 <= i < n ==> b[i] == Dot(a[i], s, n)
  {
    b := [];
    var i := 0;
    while i < n
      invariant 0 <= i <= n && |b| == i
      invariant forall k :: 0 <= k < i ==> b[k] == Dot(a[k], s, n)
    {
      var dotProd: byte := 0;
      var j := 0;
      while j < n
        invariant 0 <= j <= n
        invariant dotProd == Dot(a[i], s, j)
      {
        hide Add, Mul;
        var p := GfMul(a[i][j], s[j]);
        dotProd := Add(dotProd, p);
        j := j + 1;
      }
      b := b + [dotProd];
      i := i + 1;
    }
  }
}
