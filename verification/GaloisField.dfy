/** The coefficient field of the QIC-80 code: GF(2^8) as polynomials in r over Z_2, taken
    modulo f(r) = r^8 + r^7 + r^2 + r + 1.  A field element is a byte; bit i is the
    coefficient of r^i.  Addition (and subtraction) is exclusive or.

    Multiplication is defined here the school-book way, one bit of the multiplier at a time,
    so that the lookup tables of the driver have something independent to be compared with.
 */
module GaloisField {
  import opened Bits

  /** Field addition, which is also subtraction. */
  function Add(a: byte, b: byte): byte {
    XorByte(a, b);
    Xor(a, b)
  }

  lemma XorByte(a: nat, b: nat)
    requires a < 256 && b < 256
    ensures Xor(a, b) < 256
  {
    assert Pow2(8) == 256;
    XorBelow(a, b, 8);
  }

  /** What r^8 reduces to if it appears in r * b: f(r) without its leading term. */
  function Reduction(b: byte): byte {
    if b < 128 then 0 else 0x87
  }

  function Doubled(b: byte): byte { 2 * (b % 128) }

  /** Multiplication by r: shift left, and reduce by f(r) if r^8 appeared. */
  function TimesR(b: byte): byte {
    Add(Doubled(b), Reduction(b))
  }

  /** b if the constant coefficient of a is 1, and 0 otherwise. */
  function LowTimes(a: byte, b: byte): byte {
    if Odd(a) == 0 then 0 else b
  }

  /** a * b modulo f(r), by Horner's scheme over the bits of a. */
  function Mul(a: byte, b: byte): byte
    decreases a
  {
    if a == 0 then 0
    else Add(LowTimes(a, b), TimesR(Mul(Half(a), b)))
  }

  // ----- addition -----

  lemma AddZero(a: byte)
    ensures Add(a, 0) == a == Add(0, a)
    ensures Add(a, a) == 0
  {
    XorZero(a);
  }

  lemma AddCommutes(a: byte, b: byte)
    ensures Add(a, b) == Add(b, a)
  {
    XorCommutes(a, b);
  }

  lemma AddAssociates(a: byte, b: byte, c: byte)
    ensures Add(Add(a, b), c) == Add(a, Add(b, c))
  {
    hide Xor;
    XorAssociates(a, b, c);
  }

  lemma AddSwap(a: byte, b: byte, c: byte, d: byte)
    ensures Add(Add(a, b), Add(c, d)) == Add(Add(a, c), Add(b, d))
  {
    hide *;
    AddAssociates(a, b, Add(c, d));
    AddAssociates(b, c, d);
    AddCommutes(b, c);
    AddAssociates(c, b, d);
    AddAssociates(a, c, Add(b, d));
  }

  /** Adding a second time takes the summand away again. */
  lemma AddCancel(a: byte, b: byte)
    ensures Add(Add(a, b), b) == a == Add(b, Add(b, a))
  {
    hide *;
    AddAssociates(a, b, b);
    AddAssociates(b, b, a);
    AddZero(a);
    AddZero(b);
  }

  lemma AddIsZero(a: byte, b: byte)
    ensures Add(a, b) == 0 <==> a == b
  {
    hide *;
    AddZero(a);
    AddZero(b);
    AddCancel(a, b);
  }

  lemma HalfAdd(a: byte, b: byte)
    ensures Half(Add(a, b)) == Add(Half(a), Half(b))
    ensures Odd(Add(a, b)) == BitXor(Odd(a), Odd(b))
  {
    hide Xor, Odd, Half;
    XorUnfold(a, b);
  }

  lemma LowTimesAdd(a: byte, b: byte, c: byte)
    ensures LowTimes(Add(a, b), c) == Add(LowTimes(a, c), LowTimes(b, c))
    ensures LowTimes(c, Add(a, b)) == Add(LowTimes(c, a), LowTimes(c, b))
  {
    hide Add, Half, Odd;
    HalfAdd(a, b);
    SplitBit(a);
    SplitBit(b);
    AddZero(0);
    AddZero(c);
  }

  // ----- multiplication by r -----

  lemma DoubledAdd(a: byte, b: byte)
    ensures Doubled(Add(a, b)) == Add(Doubled(a), Doubled(b))
  {
    var x, y := a % 128, b % 128;
    assert Low(a, 7) == x && Low(b, 7) == y && Low(Add(a, b), 7) == Add(a, b) % 128 by {
      assert Pow2(7) == 128;
    }
    hide Xor, Low;
    XorSplit(a, b, 7);
    XorDef(2 * x, 2 * y);
    assert Odd(2 * x) == 0 && Odd(2 * y) == 0 && Half(2 * x) == x && Half(2 * y) == y;
  }

  lemma ReductionAdd(a: byte, b: byte)
    ensures Reduction(Add(a, b)) == Add(Reduction(a), Reduction(b))
  {
    assert High(a, 7) == a / 128 && High(b, 7) == b / 128 && High(Add(a, b), 7) == Add(a, b) / 128 by {
      assert Pow2(7) == 128;
    }
    XorSplit(a, b, 7);
    hide Add, High;
    AddZero(0);
    AddZero(0x87);
  }

  lemma TimesRAdd(a: byte, b: byte)
    ensures TimesR(Add(a, b)) == Add(TimesR(a), TimesR(b))
  {
    hide Add, Doubled, Reduction;
    DoubledAdd(a, b);
    ReductionAdd(a, b);
    AddSwap(Doubled(a), Doubled(b), Reduction(a), Reduction(b));
  }

  lemma TimesRSmall(b: byte)
    requires b < 128
    ensures TimesR(b) == 2 * b
  {
    hide Add;
    AddZero(2 * b);
  }

  // ----- exclusive or with the constants 0x87 and 0xc0, in plain arithmetic -----

  lemma SmallToggles(x: nat)
    ensures x < 2 ==> Xor(x, 1) == 1 - x
    ensures x < 4 ==> Xor(x, 3) == 3 - x
    ensures x < 8 ==> Xor(x, 7) == 7 - x
  {
    hide Xor, Half, Odd;
    var h := Half(x);
    SplitBit(x);
    SplitBit(h);
    SmallToggle(x, 1, 0);
    SmallToggle(x, 3, 1);
    SmallToggle(x, 7, 3);
    SmallToggle(h, 3, 1);
    SmallToggle(h, 1, 0);
    SmallToggle(Half(h), 1, 0);
    XorZero(0);
  }

  lemma SmallToggle(x: nat, c: nat, d: nat)
    requires c == 2 * d + 1
    ensures Xor(x, c) == 1 - Odd(x) + 2 * Xor(Half(x), d)
    ensures x < 2 ==> Half(x) == 0
  {
    hide Xor;
    XorDef(x, c);
  }

  /** Exclusive or with a constant, both split at bit n. */
  lemma XorParts(x: nat, c: nat, n: nat, h: nat, l: nat, hc: nat, lc: nat)
    requires h == High(x, n) && l == Low(x, n) && hc == High(c, n) && lc == Low(c, n)
    ensures Xor(x, c) == Xor(h, hc) * Pow2(n) + Xor(l, lc)
  {
    hide *;
    XorSplit(x, c, n);
    HighLowJoin(Xor(x, c), n);
  }

  lemma Pow2Values()
    ensures Pow2(3) == 8 && Pow2(6) == 64 && Pow2(7) == 128
  {}

  lemma Toggle87(x: nat)
    requires x < 256
    ensures Xor(x, 0x87) == x + 7 - 2 * (x % 8) + (if x < 128 then 128 else -128)
  {
    hide Xor, Pow2;
    Pow2Values();
    XorParts(x, 0x87, 7, x / 128, x % 128, 1, 7);
    XorParts(x % 128, 7, 3, x % 128 / 8, x % 8, 0, 7);
    SmallToggles(x / 128);
    SmallToggles(x % 8);
    XorZero(x % 128 / 8);
  }

  lemma TimesRLarge(b: byte)
    requires b >= 128
    ensures TimesR(b) == 2 * b - 2 * ((2 * b) % 8) + (if b < 192 then -121 else -377)
  {
    var x := 2 * b - 256;
    assert Doubled(b) == x && Reduction(b) == 0x87;
    assert x % 8 == (2 * b) % 8;
    hide Xor, Doubled, Reduction;
    Toggle87(x);
  }

  lemma ToggleC0(p: byte)
    ensures Add(p, 0xc0) == p % 64 + 192 - 64 * (p / 64)
  {
    hide Xor, Pow2;
    Pow2Values();
    XorParts(p, 0xc0, 6, p / 64, p % 64, 3, 0);
    SmallToggles(p / 64);
    XorZero(p % 64);
  }

  // ----- multiplication -----

  /** The defining equation of the product, valid for a == 0 too. */
  lemma MulUnfold(a: byte, b: byte)
    ensures Mul(a, b) == Add(LowTimes(a, b), TimesR(Mul(Half(a), b)))
    ensures Mul(0, b) == 0
    ensures TimesR(0) == 0
  {
    hide Add;
    TimesRSmall(0);
    AddZero(0);
  }

  lemma {:induction false} MulAddRight(a: byte, b: byte, c: byte)
    ensures Mul(a, Add(b, c)) == Add(Mul(a, b), Mul(a, c))
    decreases a
  {
    hide *;
    MulUnfold(a, b);
    MulUnfold(a, c);
    MulUnfold(a, Add(b, c));
    AddZero(0);
    if a == 0 {
    } else {
      SplitBit(a);
      var h := Half(a);
      MulAddRight(h, b, c);
      LowTimesAdd(b, c, a);
      TimesRAdd(Mul(h, b), Mul(h, c));
      AddSwap(LowTimes(a, b), LowTimes(a, c), TimesR(Mul(h, b)), TimesR(Mul(h, c)));
    }
  }

  lemma {:induction false} MulAddLeft(a: byte, b: byte, c: byte)
    ensures Mul(Add(a, b), c) == Add(Mul(a, c), Mul(b, c))
    decreases a, b
  {
    hide *;
    MulUnfold(a, c);
    MulUnfold(b, c);
    MulUnfold(Add(a, b), c);
    if a != 0 && b != 0 {
      SplitBit(a);
      SplitBit(b);
      var h, k := Half(a), Half(b);
      MulAddLeft(h, k, c);
      HalfAdd(a, b);
      LowTimesAdd(a, b, c);
      TimesRAdd(Mul(h, c), Mul(k, c));
      AddSwap(LowTimes(a, c), LowTimes(b, c), TimesR(Mul(h, c)), TimesR(Mul(k, c)));
    } else if a == 0 {
      AddZero(b);
      AddZero(Mul(b, c));
    } else {
      AddZero(a);
      AddZero(Mul(a, c));
    }
  }

  lemma {:induction false} MulZero(a: byte)
    ensures Mul(a, 0) == 0 == Mul(0, a)
    decreases a
  {
    hide *;
    AddZero(0);
    MulAddRight(a, 0, 0);
    AddZero(Mul(a, 0));
    MulUnfold(0, a);
  }

  lemma LowTimesTimesR(a: byte, b: byte)
    ensures LowTimes(a, TimesR(b)) == TimesR(LowTimes(a, b))
  {
    hide TimesR, Odd;
    MulUnfold(0, 0);
  }

  lemma {:induction false} MulTimesR(a: byte, b: byte)
    ensures Mul(a, TimesR(b)) == TimesR(Mul(a, b))
    decreases a
  {
    hide *;
    MulUnfold(a, b);
    MulUnfold(a, TimesR(b));
    if a == 0 {
    } else {
      SplitBit(a);
      MulTimesR(Half(a), b);
      LowTimesTimesR(a, b);
      TimesRAdd(LowTimes(a, b), TimesR(Mul(Half(a), b)));
    }
  }

  lemma LowTimesMul(a: byte, b: byte, c: byte)
    ensures LowTimes(a, Mul(b, c)) == Mul(LowTimes(a, b), c) == Mul(b, LowTimes(a, c))
  {
    hide Mul, Odd;
    MulZero(c);
    MulZero(b);
  }

  /** Every element is its constant coefficient plus r times its upper half. */
  lemma SplitConstant(a: byte)
    ensures a == Add(LowTimes(a, 1), TimesR(Half(a)))
  {
    hide TimesR, Xor;
    TimesRSmall(Half(a));
    var h := Half(a);
    XorDef(Odd(a), 2 * h);
    XorZero(h);
    assert Half(Odd(a)) == 0 && Half(2 * h) == h && Odd(2 * h) == 0;
  }

  lemma {:induction false} MulOne(a: byte)
    ensures Mul(a, 1) == a
    decreases a
  {
    hide *;
    MulUnfold(a, 1);
    if a == 0 {
    } else {
      SplitBit(a);
      MulOne(Half(a));
      SplitConstant(a);
    }
  }

  lemma {:induction false} MulCommutes(a: byte, b: byte)
    ensures Mul(a, b) == Mul(b, a)
    decreases a
  {
    hide *;
    MulUnfold(a, b);
    if a == 0 {
      MulZero(b);
    } else {
      SplitBit(a);
      var h := Half(a);
      MulCommutes(h, b);
      SplitConstant(a);
      MulAddRight(b, LowTimes(a, 1), TimesR(h));
      LowTimesMul(a, b, 1);
      MulOne(b);
      MulTimesR(b, h);
    }
  }

  lemma TimesRLeft(a: byte, b: byte)
    ensures Mul(TimesR(a), b) == TimesR(Mul(a, b))
  {
    hide *;
    MulCommutes(TimesR(a), b);
    MulTimesR(b, a);
    MulCommutes(a, b);
  }

  lemma {:induction false} MulAssociates(a: byte, b: byte, c: byte)
    ensures Mul(Mul(a, b), c) == Mul(a, Mul(b, c))
    decreases a
  {
    hide *;
    MulUnfold(a, b);
    MulUnfold(0, c);
    MulUnfold(a, Mul(b, c));
    if a == 0 {
    } else {
      SplitBit(a);
      var h := Half(a);
      MulAssociates(h, b, c);
      MulAddLeft(LowTimes(a, b), TimesR(Mul(h, b)), c);
      LowTimesMul(a, b, c);
      TimesRLeft(Mul(h, b), c);
    }
  }

  // ----- powers of r -----

  /** r^n for n >= 0. */
  function Pow(n: nat): byte {
    if n == 0 then 1 else TimesR(Pow(n - 1))
  }

  /** r^i for any integer i: the exponent is taken modulo 255, the order of r. */
  function Exp(i: int): byte {
    Pow(i % 255)
  }

  lemma {:induction false} PowAdd(m: nat, n: nat)
    ensures Mul(Pow(m), Pow(n)) == Pow(m + n)
    decreases n
  {
    hide Mul, TimesR;
    if n == 0 {
      MulOne(Pow(m));
    } else {
      PowAdd(m, n - 1);
      MulTimesR(Pow(m), Pow(n - 1));
    }
  }
}
