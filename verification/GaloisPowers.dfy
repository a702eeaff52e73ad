/** Arithmetic with exponents of r.  Nearly every product in the Reed-Solomon code is by a
    power of r, so the laws are stated for `Scale(a, i)`, which is a * r^i.
 */
module GaloisPowers {
  import opened Bits
  import opened GaloisField
  import opened GaloisTables

  function Scale(a: byte, i: int): byte {
    Mul(a, Exp(i))
  }

  lemma ExpZero()
    ensures Exp(0) == 1
  {
    hide Pow;
    PowOrder();
  }

  lemma {:induction false} PowPeriod(n: nat, k: nat)
    ensures Pow(n + 255 * k) == Pow(n)
    decreases k
  {
    hide *;
    if k == 0 {
    } else {
      PowPeriod(n, k - 1);
      PowAdd(n + 255 * (k - 1), 255);
      PowOrder();
      MulOne(Pow(n));
    }
  }

  lemma ExpOfNat(n: nat)
    ensures Exp(n) == Pow(n)
  {
    hide Pow;
    var k, m := n / 255, n % 255;
    PowPeriod(m, k);
    assert n == m + 255 * k;
  }

  lemma ExpAdd(i: int, j: int)
    ensures Mul(Exp(i), Exp(j)) == Exp(i + j)
  {
    var m, n := i % 255, j % 255;
    assert (i + j) % 255 == (m + n) % 255;
    hide Pow, Mul;
    PowAdd(m, n);
    ExpOfNat(m + n);
  }

  lemma ExpPeriod(i: int)
    ensures Exp(i + 255) == Exp(i)
  {
    hide Pow;
    assert (i + 255) % 255 == i % 255;
  }

  // ----- multiplication by a power of r -----

  lemma ScaleAdd(a: byte, b: byte, i: int)
    ensures Scale(Add(a, b), i) == Add(Scale(a, i), Scale(b, i))
  {
    hide Mul, Add, Exp;
    MulAddLeft(a, b, Exp(i));
  }

  lemma ScaleScale(a: byte, i: int, j: int)
    ensures Scale(Scale(a, i), j) == Scale(a, i + j)
  {
    hide Mul, Exp;
    MulAssociates(a, Exp(i), Exp(j));
    ExpAdd(i, j);
  }

  lemma ScaleBack(a: byte, i: int)
    ensures Scale(a, 0) == a
    ensures Scale(0, i) == 0
    ensures Scale(Scale(a, i), -i) == a
  {
    ScaleZeros(a, i);
    hide *;
    ScaleScale(a, i, -i);
  }

  lemma ScaleZeros(a: byte, i: int)
    ensures Scale(a, 0) == a
    ensures Scale(0, i) == 0
  {
    hide Mul, Exp;
    ExpZero();
    MulOne(a);
    MulZero(Exp(i));
  }

  lemma ScaleIsZero(a: byte, i: int)
    ensures Scale(a, i) == 0 <==> a == 0
  {
    hide *;
    ScaleBack(a, i);
    ScaleBack(0, -i);
    ScaleBack(0, i);
  }

  lemma ScaleMul(a: byte, b: byte, i: int)
    ensures Mul(Scale(a, i), b) == Scale(Mul(a, b), i) == Mul(a, Scale(b, i))
  {
    hide Mul, Exp;
    MulAssociates(a, Exp(i), b);
    MulCommutes(Exp(i), b);
    MulAssociates(a, b, Exp(i));
  }

  lemma ScaleExp(i: int, j: int)
    ensures Scale(Exp(i), j) == Exp(i + j)
    ensures Exp(i) != 0
  {
    ScaleOne(i);
    ScaleOne(i + j);
    hide *;
    ScaleScale(1, i, j);
    ScaleIsZero(1, i);
  }

  lemma ScaleOne(i: int)
    ensures Scale(1, i) == Exp(i)
  {
    hide Mul, Exp;
    MulCommutes(1, Exp(i));
    MulOne(Exp(i));
  }

  // ----- the field has no zero divisors, and r has order exactly 255 -----

  lemma MulIsZero(a: byte, b: byte)
    ensures Mul(a, b) == 0 <==> a == 0 || b == 0
  {
    hide Mul, Exp;
    MulZero(a);
    MulZero(b);
    if b != 0 {
      var l := LogExists(b);
      ScaleIsZero(a, l);
    }
  }

  /** The first d powers of r. */
  ghost function Powers(d: nat): (s: set<int>)
    ensures |s| <= d
  {
    if d == 0 then {} else Powers(d - 1) + {Exp(d - 1)}
  }

  lemma {:induction false} InPowers(i: nat, d: nat)
    requires i < d
    ensures Exp(i) in Powers(d)
  {
    if i < d - 1 {
      InPowers(i, d - 1);
    }
  }

  /** The set {1, ..., n}. */
  ghost function UpTo(n: nat): (s: set<int>)
    ensures |s| == n
    ensures forall a: int :: a in s <==> 1 <= a <= n
  {
    if n == 0 then {} else UpTo(n - 1) + {n}
  }

  lemma SubsetCount(s: set<int>, t: set<int>)
    requires s <= t
    ensures |s| <= |t|
  {
    assert t == s + (t - s);
  }

  lemma {:induction false} Reduce(d: nat, l: nat) returns (m: nat)
    requires d > 0 && Exp(d) == 1
    ensures m < d && Exp(m) == Exp(l)
    decreases l
  {
    hide *;
    if l < d {
      m := l;
    } else {
      m := Reduce(d, l - d);
      ExpAdd(l - d, d);
      MulOne(Exp(l - d));
    }
  }

  /** r^d = 1 only for multiples of 255: otherwise r would have too few powers. */
  lemma OrderExact(d: int)
    requires 0 < d < 255
    ensures Exp(d) != 1
  {
    if Exp(d) == 1 {
      hide Exp;
      forall a | a in UpTo(255)
        ensures a in Powers(d)
      {
        var l := LogExists(a);
        var m := Reduce(d, l);
        InPowers(m, d);
      }
      SubsetCount(UpTo(255), Powers(d));
    }
  }

  lemma ExpDistinct(i: int, j: int)
    requires 0 <= i < j < 255
    ensures Exp(i) != Exp(j)
  {
    hide *;
    OrderExact(j - i);
    if Exp(i) == Exp(j) {
      ScaleExp(i, -i);
      ScaleExp(j, -i);
      ExpZero();
    }
  }
}
