/** Machine words as non-negative integers, and exclusive or on them. */
module Bits {

  /** An unsigned 8-bit value. */
  type byte = x: int | 0 <= x < 256

  function Half(a: nat): nat { a / 2 }

  function Odd(a: nat): nat { a % 2 }

  /** Sum of two bits without carry. */
  function BitXor(a: nat, b: nat): nat { if a == b then 0 else 1 }

  function Pow2(n: nat): (p: nat)
    ensures p > 0
  {
    if n == 0 then 1 else 2 * Pow2(n - 1)
  }

  /** Bitwise exclusive or of two words of any width. */
  function Xor(a: nat, b: nat): nat {
    if a == 0 && b == 0 then 0 else BitXor(Odd(a), Odd(b)) + 2 * Xor(Half(a), Half(b))
  }

  lemma SplitBit(a: nat)
    ensures a == Odd(a) + 2 * Half(a)
    ensures 0 <= Odd(a) <= 1
  {}

  lemma JoinBit(o: nat, h: nat)
    requires o <= 1
    ensures Odd(o + 2 * h) == o && Half(o + 2 * h) == h
  {}

  lemma XorDef(a: nat, b: nat)
    ensures Xor(a, b) == BitXor(Odd(a), Odd(b)) + 2 * Xor(Half(a), Half(b))
  {}

  /** Exclusive or by lowest bit and rest. */
  lemma XorUnfold(a: nat, b: nat)
    ensures Odd(Xor(a, b)) == BitXor(Odd(a), Odd(b))
    ensures Half(Xor(a, b)) == Xor(Half(a), Half(b))
  {
    hide Xor, Odd, Half;
    XorDef(a, b);
    JoinBit(BitXor(Odd(a), Odd(b)), Xor(Half(a), Half(b)));
  }

  /** Words are equal when their lowest bits and their rests are. */
  lemma SameBits(a: nat, b: nat)
    requires Odd(a) == Odd(b) && Half(a) == Half(b)
    ensures a == b
  {
    hide *;
    SplitBit(a);
    SplitBit(b);
  }

  lemma {:induction false} XorZero(a: nat)
    ensures Xor(a, 0) == a == Xor(0, a)
    ensures Xor(a, a) == 0
  {
    if a == 0 {
    } else {
      XorZero(a / 2);
    }
  }

  lemma {:induction false} XorCommutes(a: nat, b: nat)
    ensures Xor(a, b) == Xor(b, a)
  {
    if a == 0 && b == 0 {
    } else {
      XorCommutes(a / 2, b / 2);
    }
  }

  lemma {:induction false} XorAssociates(a: nat, b: nat, c: nat)
    ensures Xor(Xor(a, b), c) == Xor(a, Xor(b, c))
    decreases a + b + c
  {
    if a == 0 && b == 0 && c == 0 {
    } else {
      hide Xor, Half, Odd;
      SplitBit(a);
      SplitBit(b);
      SplitBit(c);
      XorAssociates(Half(a), Half(b), Half(c));
      XorUnfold(a, b);
      XorUnfold(b, c);
      XorUnfold(Xor(a, b), c);
      XorUnfold(a, Xor(b, c));
      SameBits(Xor(Xor(a, b), c), Xor(a, Xor(b, c)));
    }
  }

  lemma {:induction false} XorBelow(a: nat, b: nat, n: nat)
    requires a < Pow2(n) && b < Pow2(n)
    ensures Xor(a, b) < Pow2(n)
  {
    if n == 0 {
    } else {
      XorBelow(a / 2, b / 2, n - 1);
    }
  }

  // ----- splitting a word at bit n -----

  function High(a: nat, n: nat): nat {
    QuotientNonNegative(a, Pow2(n));
    a / Pow2(n)
  }

  lemma QuotientNonNegative(a: nat, d: nat)
    requires d > 0
    ensures a / d >= 0
  {}

  function Low(a: nat, n: nat): nat { a % Pow2(n) }

  lemma HighLowJoin(a: nat, n: nat)
    ensures a == High(a, n) * Pow2(n) + Low(a, n)
  {
    DivMod(a, Pow2(n));
  }

  lemma DivMod(a: int, d: int)
    requires d > 0
    ensures a == a / d * d + a % d
  {}

  lemma HighLow(a: nat, n: nat)
    requires n > 0
    ensures High(a, n) == High(Half(a), n - 1)
    ensures Odd(Low(a, n)) == Odd(a) && Half(Low(a, n)) == Low(Half(a), n - 1)
  {
    var p := Pow2(n - 1);
    var h := Half(a);
    var q, r := h / p, h % p;
    assert a == q * (2 * p) + (2 * r + Odd(a)) by {
      assert h == q * p + r;
      assert 2 * (q * p) == q * (2 * p);
    }
    hide Odd, Half;
    SplitBit(a);
    DivModUnique(a, 2 * p, q, 2 * r + Odd(a));
    JoinBit(Odd(a), r);
  }

  lemma DivModUnique(a: int, d: int, q: int, r: int)
    requires d > 0 && a == q * d + r && 0 <= r < d
    ensures a / d == q && a % d == r
  {
    var q', r' := a / d, a % d;
    assert a == q' * d + r';
    if q' < q {
      assert (q - q') * d == q * d - q' * d;
      ProductAtLeast(q - q', d);
    } else if q' > q {
      assert (q' - q) * d == q' * d - q * d;
      ProductAtLeast(q' - q, d);
    }
  }

  lemma ProductAtLeast(k: int, d: int)
    requires k >= 1 && d > 0
    ensures k * d >= d
  {}

  /** The low n bits of a word and the rest do not interact. */
  lemma {:induction false} XorSplit(a: nat, b: nat, n: nat)
    ensures High(Xor(a, b), n) == Xor(High(a, n), High(b, n))
    ensures Low(Xor(a, b), n) == Xor(Low(a, n), Low(b, n))
  {
    if n > 0 {
      hide *;
      XorSplit(Half(a), Half(b), n - 1);
      XorUnfold(a, b);
      HighLow(a, n);
      HighLow(b, n);
      HighLow(Xor(a, b), n);
      XorUnfold(Low(a, n), Low(b, n));
      SameBits(Low(Xor(a, b), n), Xor(Low(a, n), Low(b, n)));
    } else {
      XorZero(0);
    }
  }
}
