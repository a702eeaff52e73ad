/** The closed-form inverses of the 1x1, 2x2 and 3x3 systems that give the error magnitudes,
    and the formulas that locate an unflagged error.
 */
module Vandermonde {
  import opened Bits
  import opened GaloisField
  import opened GaloisTables
  import opened GaloisPowers
  import opened ReedSolomon
  import opened Erasures

  // ----- distinct rows give distinct powers -----

  lemma ExpNotOne(d: int)
    requires -255 < d < 255 && d != 0
    ensures Exp(d) != 1
  {
    hide *;
    if d > 0 {
      OrderExact(d);
    } else {
      OrderExact(-d);
      ScaleExp(d, -d);
      ScaleOne(-d);
      ExpZero();
    }
  }

  lemma SumNotZero(i: int, j: int)
    requires i != j && -255 < i - j < 255
    ensures Add(Exp(i), Exp(j)) != 0
  {
    hide *;
    AddIsZero(Exp(i), Exp(j));
    if Exp(i) == Exp(j) {
      ScaleExp(i, -j);
      ScaleExp(j, -j);
      ExpZero();
      ExpNotOne(i - j);
    }
  }

  lemma ScaleSum(i: int, j: int, d: int)
    ensures Scale(Add(Exp(i), Exp(j)), d) == Add(Exp(i + d), Exp(j + d))
  {
    hide *;
    ScaleAdd(Exp(i), Exp(j), d);
    ScaleExp(i, d);
    ScaleExp(j, d);
  }

  // ----- order 1 -----

  lemma Inverse1(row: Triple, l: int)
    requires row[0] == Exp(l)
    ensures PicksOut(row, [l], 0, 1)
  {
    hide Add, Mul, Exp, Scale;
    assert Dot(row, Effect(l, 1), 0) == 0;
    assert Effect([l][0], 1) == Effect(l, 1);
    ScaleOne(-l);
    ExpAdd(l, -l);
    ExpZero();
    AddZero(1);
  }

  // ----- order 2 -----

  /** The rows built by gfinv2; inv is 1 / det = 1 / (r^-l0 + r^-l1). */
  lemma Inverse2(row0: Triple, row1: Triple, l0: int, l1: int, n: int)
    requires Scale(Add(Exp(-l0), Exp(-l1)), n) == 1
    requires row0[0] == row1[0] == Exp(n)
    requires row0[1] == Scale(Exp(-l1), n) && row1[1] == Scale(Exp(-l0), n)
    ensures PicksOut(row0, [l0, l1], 0, 2) && PicksOut(row1, [l0, l1], 1, 2)
  {
    hide *;
    Dot2(row0, l0, -l1, n);
    Dot2(row0, l1, -l1, n);
    Dot2(row1, l0, -l0, n);
    Dot2(row1, l1, -l0, n);
    AddCommutes(Exp(-l0), Exp(-l1));
    AddZero(Exp(-l0));
    AddZero(Exp(-l1));
    ScaleBack(0, n);
    PicksTwo(row0, l0, l1, 0);
    PicksTwo(row1, l0, l1, 1);
  }

  lemma PicksTwo(row: Triple, l0: int, l1: int, i: int)
    requires Dot(row, Effect(l0, 1), 2) == if i == 0 then 1 else 0
    requires Dot(row, Effect(l1, 1), 2) == if i == 1 then 1 else 0
    ensures PicksOut(row, [l0, l1], i, 2)
  {
    hide Dot, Effect;
  }

  lemma Dot2(row: Triple, l: int, k: int, n: int)
    requires row[0] == Exp(n) && row[1] == Scale(Exp(k), n)
    ensures Dot(row, Effect(l, 1), 2) == Scale(Add(Exp(-l), Exp(k)), n)
  {
    hide Add, Mul, Exp, Scale;
    assert Dot(row, Effect(l, 1), 1) == Add(0, Mul(row[0], Scale(1, -l)));
    AddZero(Mul(row[0], Scale(1, -l)));
    MulOne(row[1]);
    ScaleOne(-l);
    ExpAdd(n, -l);
    ScaleExp(-l, n);
    ScaleAdd(Exp(-l), Exp(k), n);
  }

  // ----- order 3 -----

  /** r^d + r^-d, the building block of the 3x3 determinant. */
  function Pair(d: int): byte {
    Add(Exp(d), Exp(-d))
  }

  /** The determinant of the 3x3 system for rows a, b and x. */
  function Det3(a: int, b: int, x: int): byte {
    Add(Add(Pair(a - x), Pair(b - x)), Pair(a - b))
  }

  lemma PairSymmetric(d: int)
    ensures Pair(-d) == Pair(d)
    ensures Pair(0) == 0
  {
    hide Add, Exp;
    AddCommutes(Exp(d), Exp(-d));
    AddZero(Exp(0));
  }

  lemma Det3Symmetric(a: int, b: int, x: int)
    ensures Det3(a, b, x) == Det3(b, a, x) == Det3(a, x, b)
    ensures Det3(a, b, a) == 0 == Det3(a, b, b)
  {
    hide Pair, Add;
    PairSymmetric(0);
    PairSymmetric(a - b);
    PairSymmetric(b - x);
    AddCommutes(Pair(a - x), Pair(b - x));
    AddCommutes(Pair(a - b), Pair(x - b));
    AddAssociates(Pair(b - x), Pair(a - b), Pair(a - x));
    AddCommutes(Pair(a - b), Pair(a - x));
    AddAssociates(Pair(b - x), Pair(a - x), Pair(a - b));
    AddZero(Pair(a - b));
    AddCommutes(Pair(a - b), 0);
    PairSymmetric(b - a);
  }

  /** Before division by the determinant, the row built by gfinv3 for the other two rows a, b. */
  predicate RowOf(row: Triple, a: int, b: int, n: int) {
    && row[0] == Scale(Add(Exp(a), Exp(b)), n)
    && row[1] == Scale(Add(Exp(b - a), Exp(a - b)), n)
    && row[2] == Scale(Add(Exp(-a), Exp(-b)), n)
  }

  lemma Dot3(row: Triple, a: int, b: int, n: int, x: int)
    requires RowOf(row, a, b, n)
    ensures Dot(row, Effect(x, 1), 3) == Scale(Det3(a, b, x), n)
  {
    hide Add, Mul, Scale, Exp;
    var e := Effect(x, 1);
    assert Dot(row, e, 3) == Add(Add(Add(0, Mul(row[0], e[0])), Mul(row[1], e[1])), Mul(row[2], e[2])) by {
      assert Dot(row, e, 1) == Add(0, Mul(row[0], e[0]));
      assert Dot(row, e, 2) == Add(Add(0, Mul(row[0], e[0])), Mul(row[1], e[1]));
    }
    var u := Add(Exp(a - x), Exp(b - x));
    var v := Add(Exp(b - a), Exp(a - b));
    var w := Add(Exp(x - a), Exp(x - b));
    assert Det3(a, b, x) == Add(Add(Add(Exp(a - x), Exp(x - a)), Add(Exp(b - x), Exp(x - b))),
                                Add(Exp(a - b), Exp(b - a)));
    ScaledEntry(row[0], Add(Exp(a), Exp(b)), n, -x);
    ScaleSum(a, b, -x);
    ScaledEntry(row[2], Add(Exp(-a), Exp(-b)), n, x);
    ScaleSum(-a, -b, x);
    MulOne(row[1]);
    AddZero(Scale(u, n));
    ScaleAdd(u, v, n);
    ScaleAdd(Add(u, v), w, n);
    AddSwap(Exp(a - x), Exp(b - x), Exp(x - a), Exp(x - b));
    AddCommutes(Exp(a - b), Exp(b - a));
    AddAssociates(u, v, w);
    AddCommutes(v, w);
    AddAssociates(u, w, v);
  }

  lemma ScaledEntry(y: byte, c: byte, n: int, d: int)
    requires y == Scale(c, n)
    ensures Mul(y, Scale(1, d)) == Scale(Scale(c, d), n)
  {
    hide *;
    ScaleMul(y, 1, d);
    MulOne(y);
    ScaleScale(c, n, d);
    ScaleScale(c, d, n);
  }

  lemma PicksThree(row: Triple, l0: int, l1: int, l2: int, i: int)
    requires Dot(row, Effect(l0, 1), 3) == if i == 0 then 1 else 0
    requires Dot(row, Effect(l1, 1), 3) == if i == 1 then 1 else 0
    requires Dot(row, Effect(l2, 1), 3) == if i == 2 then 1 else 0
    ensures PicksOut(row, [l0, l1, l2], i, 3)
  {
    hide Dot, Effect;
  }

  lemma Inverse3(row0: Triple, row1: Triple, row2: Triple, l0: int, l1: int, l2: int, n: int)
    requires Scale(Det3(l0, l1, l2), n) == 1
    requires RowOf(row0, l1, l2, n) && RowOf(row1, l0, l2, n) && RowOf(row2, l0, l1, n)
    ensures PicksOut(row0, [l0, l1, l2], 0, 3)
    ensures PicksOut(row1, [l0, l1, l2], 1, 3)
    ensures PicksOut(row2, [l0, l1, l2], 2, 3)
  {
    hide *;
    ScaleBack(0, n);
    Dot3(row0, l1, l2, n, l0); Dot3(row0, l1, l2, n, l1); Dot3(row0, l1, l2, n, l2);
    Dot3(row1, l0, l2, n, l0); Dot3(row1, l0, l2, n, l1); Dot3(row1, l0, l2, n, l2);
    Dot3(row2, l0, l1, n, l0); Dot3(row2, l0, l1, n, l1); Dot3(row2, l0, l1, n, l2);
    Det3Symmetric(l0, l1, l2);
    Det3Symmetric(l1, l0, l2);
    Det3Symmetric(l1, l2, l0);
    Det3Symmetric(l2, l1, l0);
    Det3Symmetric(l0, l2, l1);
    Det3Symmetric(l2, l0, l1);
    PicksThree(row0, l0, l1, l2, 0);
    PicksThree(row1, l0, l1, l2, 1);
    PicksThree(row2, l0, l1, l2, 2);
  }

  /** a * (r^c + 1) = a * r^c + a. */
  lemma TimesExpPlusOne(a: byte, c: int)
    ensures Mul(a, Add(Exp(c), 1)) == Add(Scale(a, c), a)
  {
    hide Mul, Add, Exp;
    MulAddRight(a, Exp(c), 1);
    MulOne(a);
  }

  lemma CancelOnes(a: byte, b: byte, r: byte, s: byte)
    ensures Add(Add(a, Add(1, s)), Add(Add(r, 1), b)) == Add(Add(a, b), Add(r, s))
  {
    hide *;
    AddCommutes(Add(r, 1), b);
    AddSwap(a, Add(1, s), b, Add(r, 1));
    AddCommutes(1, s);
    AddCommutes(r, 1);
    AddAssociates(s, 1, Add(1, r));
    AddCancel(r, 1);
    AddCommutes(s, r);
  }

  lemma FirstFactor(p: int, q: int)
    ensures var t := Add(Exp(-p), Exp(-q));
            Mul(t, Add(Exp(p), 1)) == Add(Add(Exp(p - q), 1), t)
  {
    hide *;
    var t := Add(Exp(-p), Exp(-q));
    TimesExpPlusOne(t, p);
    ScaleSum(-p, -q, p);
    ExpZero();
    AddCommutes(1, Exp(p - q));
  }

  lemma SecondFactor(p: int, q: int)
    ensures Scale(Add(Add(Exp(p - q), 1), Add(Exp(-p), Exp(-q))), q)
         == Add(Add(Exp(p), Exp(q)), Add(1, Exp(q - p)))
  {
    hide *;
    ScaleAdd(Add(Exp(p - q), 1), Add(Exp(-p), Exp(-q)), q);
    ExpZero();
    ScaleSum(p - q, 0, q);
    ScaleSum(-p, -q, q);
    AddCommutes(Exp(q - p), 1);
  }

  /** The determinant is (r^p + r^q)(r^p + 1)(r^q + 1) / r^(p+q) with p = a - x, q = b - x. */
  lemma Det3Factors(a: int, b: int, x: int, p: int, q: int)
    requires p == a - x && q == b - x
    ensures Det3(a, b, x) == Mul(Mul(Add(Exp(-p), Exp(-q)), Add(Exp(p), 1)), Add(Exp(q), 1))
  {
    hide Add, Exp, Mul, Scale;
    var t := Add(Exp(-p), Exp(-q));
    assert Det3(a, b, x) == Add(Add(Add(Exp(p), Exp(-p)), Add(Exp(q), Exp(-q))), Add(Exp(p - q), Exp(q - p)));
    FirstFactor(p, q);
    TimesExpPlusOne(Mul(t, Add(Exp(p), 1)), q);
    SecondFactor(p, q);
    CancelOnes(Add(Exp(p), Exp(q)), t, Exp(p - q), Exp(q - p));
    AddSwap(Exp(p), Exp(q), Exp(-p), Exp(-q));
  }

  lemma Det3NotZero(a: int, b: int, x: int)
    requires a != b && b != x && a != x
    requires 0 <= a < 255 && 0 <= b < 255 && 0 <= x < 255
    ensures Det3(a, b, x) != 0
  {
    hide *;
    var p, q := a - x, b - x;
    Det3Factors(a, b, x, p, q);
    SumNotZero(-p, -q);
    ExpZero();
    SumNotZero(p, 0);
    SumNotZero(q, 0);
    MulIsZero(Add(Exp(-p), Exp(-q)), Add(Exp(p), 1));
    MulIsZero(Mul(Add(Exp(-p), Exp(-q)), Add(Exp(p), 1)), Add(Exp(q), 1));
  }

  // ----- locating an unflagged error -----

  lemma MulCancel(x: byte, y: byte, b: byte)
    requires b != 0 && Mul(x, b) == Mul(y, b)
    ensures x == y
  {
    hide *;
    MulAddLeft(x, y, b);
    AddIsZero(Mul(x, b), Mul(y, b));
    MulIsZero(Add(x, y), b);
    AddIsZero(x, y);
  }

  /** One error and no erasure: the quotient of the first two syndromes is r^row. */
  lemma LocateOne(l: int, e: byte, t: byte)
    requires e != 0 && Mul(t, Effect(l, e)[0]) == Effect(l, e)[1]
    ensures Effect(l, e)[0] != 0 && t == Exp(l)
  {
    hide Add, Mul, Exp, Scale;
    ScaleIsZero(e, -l);
    MulCommutes(Exp(l), Scale(e, -l));
    ScaleOne(l);
    ScaleMul(Scale(e, -l), 1, l);
    ScaleScale(e, -l, l);
    ScaleBack(e, 0);
    MulOne(Scale(e, -l));
    MulCancel(t, Exp(l), Scale(e, -l));
  }

  /** What is left of an error e in row l once the erasure in row m is eliminated. */
  function Residue1(s: Triple, m: int): byte { Add(Scale(s[1], m), s[2]) }

  function Residue2(s: Triple, m: int): byte { Add(Scale(s[0], m), s[1]) }

  lemma ResidueAdd(s: Triple, t: Triple, m: int)
    ensures Residue1(TripleAdd(s, t), m) == Add(Residue1(s, m), Residue1(t, m))
    ensures Residue2(TripleAdd(s, t), m) == Add(Residue2(s, m), Residue2(t, m))
  {
    hide Add, Scale;
    ScaleAdd(s[1], t[1], m);
    ScaleAdd(s[0], t[0], m);
    AddSwap(Scale(s[1], m), Scale(t[1], m), s[2], t[2]);
    AddSwap(Scale(s[0], m), Scale(t[0], m), s[1], t[1]);
  }

  /** The erased row itself leaves nothing. */
  lemma ResidueOfErasure(m: int, e: byte)
    ensures Residue1(Effect(m, e), m) == 0 && Residue2(Effect(m, e), m) == 0
  {
    hide Add, Scale;
    ScaleScale(e, -m, m);
    ScaleBack(e, 0);
    AddZero(Scale(e, m));
    AddZero(e);
  }

  lemma ScaleIsMul(a: byte, i: int)
    ensures Scale(a, i) == Mul(a, Exp(i))
  {
    hide Mul, Exp;
  }

  lemma ResidueOfError(l: int, e: byte, m: int)
    ensures Residue1(Effect(l, e), m) == Mul(e, Add(Exp(m), Exp(l)))
    ensures Mul(Exp(l), Residue2(Effect(l, e), m)) == Residue1(Effect(l, e), m)
  {
    hide Add, Mul, Exp, Scale;
    var y := Residue2(Effect(l, e), m);
    ScaleIsMul(e, m);
    ScaleIsMul(e, l);
    ScaleIsMul(y, l);
    MulAddRight(e, Exp(m), Exp(l));
    MulCommutes(Exp(l), y);
    ScaleAdd(Scale(Scale(e, -l), m), e, l);
    ScaleScale(e, -l, m);
    ScaleScale(e, m - l, l);
  }

  /** One erasure in row m and one error in another row l: the quotient of the residues is r^l. */
  lemma LocateSecond(l: int, e: byte, m: int, e0: byte, t: byte, s: Triple)
    requires l != m && 0 <= l < 255 && 0 <= m < 255
    requires s == TripleAdd(Effect(m, e0), Effect(l, e)) || s == TripleAdd(Effect(l, e), Effect(m, e0))
    ensures e != 0 ==> Residue1(s, m) != 0 && Residue2(s, m) != 0
    ensures e == 0 ==> Residue1(s, m) == 0 && Residue2(s, m) == 0
    ensures e != 0 && Mul(t, Residue2(s, m)) == Residue1(s, m) ==> t == Exp(l)
  {
    hide *;
    var x, y := Residue1(Effect(l, e), m), Residue2(Effect(l, e), m);
    ResidueAdd(Effect(m, e0), Effect(l, e), m);
    ResidueAdd(Effect(l, e), Effect(m, e0), m);
    ResidueOfErasure(m, e0);
    AddZero(x);
    AddZero(y);
    ResidueOfError(l, e, m);
    SumNotZero(m, l);
    MulIsZero(e, Add(Exp(m), Exp(l)));
    MulIsZero(Exp(l), y);
    ScaleExp(l, 0);
    if e != 0 && Mul(t, y) == x {
      MulCancel(t, Exp(l), y);
    }
  }

  // ----- a zero register and zero syndromes mean the same -----

  /** Errors in three different rows that leave the syndromes zero are no errors. */
  lemma ThreeRowsIndependent(l0: int, l1: int, l2: int, es: seq<byte>)
    requires Rows([l0, l1, l2], 255) && |es| == 3
    requires TotalEffect([l0, l1, l2], es) == NO_ERROR
    ensures es == [0, 0, 0]
  {
    hide Add, Mul, Exp, Scale, Effect, TotalEffect, Dot, Det3, PicksOut;
    var ls := [l0, l1, l2];
    assert ls[0] != ls[1] && ls[1] != ls[2] && ls[0] != ls[2];
    var det := Det3(l0, l1, l2);
    Det3NotZero(l0, l1, l2);
    var l := LogExists(det);
    ScaleExp(l, -l);
    ExpZero();
    var rows := InverseRows(l0, l1, l2, -l);
    DotTotal(rows[0], ls, es, 0, 3);
    DotTotal(rows[1], ls, es, 1, 3);
    DotTotal(rows[2], ls, es, 2, 3);
    DotZero(rows[0], 3);
    DotZero(rows[1], 3);
    DotZero(rows[2], 3);
  }

  lemma InverseRows(l0: int, l1: int, l2: int, n: int) returns (rows: seq<Triple>)
    requires Scale(Det3(l0, l1, l2), n) == 1
    ensures |rows| == 3
    ensures PicksOut(rows[0], [l0, l1, l2], 0, 3)
    ensures PicksOut(rows[1], [l0, l1, l2], 1, 3)
    ensures PicksOut(rows[2], [l0, l1, l2], 2, 3)
  {
    hide Add, Exp, Scale, Det3, PicksOut;
    var r0: Triple := [Scale(Add(Exp(l1), Exp(l2)), n), Scale(Add(Exp(l2 - l1), Exp(l1 - l2)), n),
                       Scale(Add(Exp(-l1), Exp(-l2)), n)];
    var r1: Triple := [Scale(Add(Exp(l0), Exp(l2)), n), Scale(Add(Exp(l2 - l0), Exp(l0 - l2)), n),
                       Scale(Add(Exp(-l0), Exp(-l2)), n)];
    var r2: Triple := [Scale(Add(Exp(l0), Exp(l1)), n), Scale(Add(Exp(l1 - l0), Exp(l0 - l1)), n),
                       Scale(Add(Exp(-l0), Exp(-l1)), n)];
    rows := [r0, r1, r2];
    Inverse3(r0, r1, r2, l0, l1, l2, n);
  }

  lemma DotZero(row: Triple, n: nat)
    requires n <= 3
    ensures Dot(row, NO_ERROR, n) == 0
  {
    hide TripleAdd, Dot, Add;
    TripleAddZero(NO_ERROR);
    DotAdd(row, NO_ERROR, NO_ERROR, n);
    AddZero(Dot(row, NO_ERROR, n));
  }

  lemma TwoRowsIndependent(l0: int, l1: int, es: seq<byte>)
    requires Rows([l0, l1], 255) && |es| == 2
    requires TotalEffect([l0, l1], es) == NO_ERROR
    ensures es == [0, 0]
  {
    hide Add, Mul, Exp, Scale, Effect, TotalEffect, Dot, PicksOut;
    var ls := [l0, l1];
    assert ls[0] != ls[1];
    SumNotZero(-l0, -l1);
    var l := LogExists(Add(Exp(-l0), Exp(-l1)));
    ScaleExp(l, -l);
    ExpZero();
    var r0: Triple := [Exp(-l), Scale(Exp(-l1), -l), 0];
    var r1: Triple := [Exp(-l), Scale(Exp(-l0), -l), 0];
    Inverse2(r0, r1, l0, l1, -l);
    DotTotal(r0, ls, es, 0, 2);
    DotTotal(r1, ls, es, 1, 2);
    DotZero(r0, 2);
    DotZero(r1, 2);
  }

  lemma OneRowIndependent(l0: int, es: seq<byte>)
    requires |es| == 1 && TotalEffect([l0], es) == NO_ERROR
    ensures es == [0]
  {
    hide Add, Mul, Exp, Scale, Effect, TotalEffect, Dot, PicksOut;
    var r0: Triple := [Exp(l0), 0, 0];
    Inverse1(r0, l0);
    DotTotal(r0, [l0], es, 0, 1);
    DotZero(r0, 1);
  }

  /** Up to three different rows are independent. */
  lemma RowsIndependent(ls: seq<int>, es: seq<byte>, i: int)
    requires |ls| == |es| <= 3 && Rows(ls, 255) && TotalEffect(ls, es) == NO_ERROR && 0 <= i < |es|
    ensures es[i] == 0
  {
    hide TotalEffect, Rows;
    if |ls| == 3 {
      assert ls == [ls[0], ls[1], ls[2]];
      ThreeRowsIndependent(ls[0], ls[1], ls[2], es);
    } else if |ls| == 2 {
      assert ls == [ls[0], ls[1]];
      TwoRowsIndependent(ls[0], ls[1], es);
    } else {
      assert ls == [ls[0]];
      OneRowIndependent(ls[0], es);
    }
  }

  /** The code has distance four: two code words that differ in at most three rows are equal. */
  lemma DistanceFour(v: seq<byte>, c: seq<byte>, ls: seq<int>)
    requires |ls| <= 3 && |c| <= 255 && Rows(ls, |c|) && AgreeOutside(v, c, ls)
    requires Syndromes(v) == NO_ERROR && Syndromes(c) == NO_ERROR
    ensures v == c
  {
    hide Syndromes, TotalEffect, Add, Rows, Differences;
    var es := Differences(v, c, ls);
    SyndromesOfDifferences(v, c, ls);
    RowsWithin(ls, |c|);
    forall x | 0 <= x < |c|
      ensures v[x] == c[x]
    {
      if x in ls {
        var i :| 0 <= i < |ls| && ls[i] == x;
        RowsIndependent(ls, es, i);
        AddIsZero(c[x], v[x]);
      }
    }
  }

  lemma RowsWithin(ls: seq<int>, n: nat)
    requires Rows(ls, n) && n <= 255
    ensures Rows(ls, 255)
  {}

  /** p(r^j), taken as the syndromes of errors p0, p1, p2 in rows 0, 1, 2. */
  lemma ParityAsErrors(p: Parity)
    ensures TotalEffect([0, 1, 2], [p.p0, p.p1, p.p2]) == [EvalParity(p, -1), EvalParity(p, 0), EvalParity(p, 1)]
  {
    hide Add, Scale;
    var ls, es := [0, 1, 2], [p.p0, p.p1, p.p2];
    assert ls[..2] == [0, 1] && es[..2] == [p.p0, p.p1];
    assert [0, 1][..1] == [0] && [p.p0, p.p1][..1] == [p.p0];
    assert [0][..0] == [] && [p.p0][..0] == [];
    assert TotalEffect([0], [p.p0]) == TripleAdd(NO_ERROR, Effect(0, p.p0));
    assert TotalEffect([0, 1], [p.p0, p.p1]) == TripleAdd(TotalEffect([0], [p.p0]), Effect(1, p.p1));
    TripleAddZero(Effect(0, p.p0));
    TripleAddAssociates(Effect(0, p.p0), Effect(1, p.p1), Effect(2, p.p2));
    ScaleBack(p.p0, 0);
    ScaleBack(p.p1, 0);
    ScaleBack(p.p2, 0);
  }

  /** The register is zero exactly when all three syndromes are. */
  lemma ParityZero(m: seq<byte>)
    ensures ParityOf(m) == ZERO_PARITY <==> Syndromes(m) == NO_ERROR
  {
    var p := ParityOf(m);
    assert Syndromes(m) == [Eval(m, -1), Eval(m, 0), Eval(m, 1)] by { hide Eval; }
    hide Eval, Add, Scale, ParityOf, EvalParity, TotalEffect, Times, Syndromes, Rows;
    FirstRows();
    RemainderAtRoot(m, -1);
    RemainderAtRoot(m, 0);
    RemainderAtRoot(m, 1);
    ScaleIsZero(EvalParity(p, -1), Times(-1, |m|));
    ScaleIsZero(EvalParity(p, 0), Times(0, |m|));
    ScaleIsZero(EvalParity(p, 1), Times(1, |m|));
    ParityAsErrors(p);
    if Syndromes(m) == NO_ERROR {
      ThreeRowsIndependent(0, 1, 2, [p.p0, p.p1, p.p2]);
    }
    if p == ZERO_PARITY {
      EvalZeroParity(-1);
      EvalZeroParity(0);
      EvalZeroParity(1);
    }
  }

  lemma FirstRows()
    ensures Rows([0, 1, 2], 255)
  {}

  lemma EvalZeroParity(j: int)
    ensures EvalParity(ZERO_PARITY, j) == 0
  {
    hide Add, Scale;
    ScaleBack(0, j);
    ScaleBack(0, j + j);
    AddZero(0);
  }

  /** Horner's scheme for p(r^j), as compute_syndromes evaluates it. */
  lemma Horner(p: Parity, j: int)
    ensures Add(p.p0, Scale(Add(p.p1, Scale(p.p2, j)), j)) == EvalParity(p, j)
    ensures Add(Add(p.p2, p.p1), p.p0) == EvalParity(p, 0)
  {
    hide Add, Scale;
    ScaleAdd(p.p1, Scale(p.p2, j), j);
    ScaleScale(p.p2, j, j);
    ScaleBack(p.p1, 0);
    ScaleBack(p.p2, 0);
    AddCommutes(Add(p.p2, p.p1), p.p0);
    AddCommutes(p.p2, p.p1);
  }

  /** A message followed by its parity is a code word. */
  lemma EncodedIsCodeword(m: seq<byte>)
    ensures var p := ParityOf(m);
            Syndromes(m + [p.p0, p.p1, p.p2]) == NO_ERROR
  {
    hide Eval, ParityOf;
    EncodedAtRoot(m, -1);
    EncodedAtRoot(m, 0);
    EncodedAtRoot(m, 1);
  }

  lemma EncodedAtRoot(m: seq<byte>, j: int)
    requires IsRoot(j)
    ensures var p := ParityOf(m);
            Eval(m + [p.p0, p.p1, p.p2], j) == 0
  {
    hide Add, Scale, Times, ParityOf;
    var p, k := ParityOf(m), |m|;
    var d := Times(j, k);
    var m1, m2, m3 := m + [p.p0], m + [p.p0, p.p1], m + [p.p0, p.p1, p.p2];
    assert m1[..k] == m && m2[..k + 1] == m1 && m3[..k + 2] == m2;
    TimesNext(j, k);
    TimesNext(j, k + 1);
    var e, a, b, c := Eval(m, j), Scale(p.p0, d), Scale(p.p1, d + j), Scale(p.p2, d + j + j);
    assert Eval(m1, j) == Add(e, a);
    assert Eval(m2, j) == Add(Add(e, a), b);
    assert Eval(m3, j) == Add(Add(Add(e, a), b), c);
    RemainderAtRoot(m, j);
    assert e == Scale(EvalParity(p, j), d);
    ScaleAdd(p.p0, Add(Scale(p.p1, j), Scale(p.p2, j + j)), d);
    ScaleAdd(Scale(p.p1, j), Scale(p.p2, j + j), d);
    ScaleScale(p.p1, j, d);
    ScaleScale(p.p2, j + j, d);
    AddAssociates(Add(e, a), b, c);
    AddAssociates(e, a, Add(b, c));
    AddZero(e);
  }
}
