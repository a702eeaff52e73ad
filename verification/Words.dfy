/** Long integers as vectors of bytes: the driver computes parity and syndromes for as many
    columns at once as a long has bytes (four or eight).  Bytes are in little-endian order.
 */
module Words {
  import opened Bits
  import opened GaloisField
  import opened GaloisTables
  import opened GaloisPowers
  import opened ReedSolomon
  import opened EccArithmetic

  /** sizeof(long) */
  predicate IsLongSize(w: int) { w == 4 || w == 8 }

  /** (x >> 8k) & 0xff */
  function Lane(x: nat, k: nat): byte {
    if k == 0 then x % 256 else Lane(x / 256, k - 1)
  }

  /** The word whose bytes are s: the bytewise or of the shifted bytes. */
  function Pack(s: seq<byte>): nat {
    if |s| == 0 then 0 else s[0] + 256 * Pack(s[1..])
  }

  /** x fits into w bytes. */
  predicate Fits(x: nat, w: nat) {
    if w == 0 then x == 0 else Fits(x / 256, w - 1)
  }

  lemma {:induction false} LanePack(s: seq<byte>, k: nat)
    requires k < |s|
    ensures Lane(Pack(s), k) == s[k]
  {
    PackTail(s);
    if k == 0 {
    } else {
      LanePack(s[1..], k - 1);
    }
  }

  lemma PackTail(s: seq<byte>)
    requires |s| > 0
    ensures Pack(s) % 256 == s[0] && Pack(s) / 256 == Pack(s[1..])
  {
    var t := Pack(s[1..]);
    assert Pack(s) == s[0] + 256 * t;
    hide *;
    DivModUnique(Pack(s), 256, t, s[0]);
  }

  lemma {:induction false} PackFits(s: seq<byte>)
    ensures Fits(Pack(s), |s|)
  {
    if |s| == 0 {
    } else {
      PackTail(s);
      PackFits(s[1..]);
    }
  }

  lemma Split256(a: nat, b: nat)
    ensures Xor(a, b) % 256 == Xor(a % 256, b % 256)
    ensures Xor(a, b) / 256 == Xor(a / 256, b / 256)
  {
    assert Pow2(8) == 256;
    hide Xor, Pow2;
    XorSplit(a, b, 8);
  }

  lemma {:induction false} LaneXor(a: nat, b: nat, k: nat)
    ensures Lane(Xor(a, b), k) == Add(Lane(a, k), Lane(b, k))
  {
    hide Xor;
    Split256(a, b);
    if k == 0 {
    } else {
      LaneXor(a / 256, b / 256, k - 1);
    }
  }

  lemma {:induction false} FitsXor(a: nat, b: nat, w: nat)
    requires Fits(a, w) && Fits(b, w)
    ensures Fits(Xor(a, b), w)
  {
    hide Xor;
    if w == 0 {
      XorZero(0);
    } else {
      Split256(a, b);
      FitsXor(a / 256, b / 256, w - 1);
    }
  }

  predicate LanesZero(x: nat, w: nat) {
    forall k: nat :: k < w ==> Lane(x, k) == 0
  }

  lemma {:induction false} ZeroFromLanes(x: nat, w: nat)
    requires Fits(x, w) && LanesZero(x, w)
    ensures x == 0
  {
    if w == 0 {
    } else {
      forall k: nat | k < w - 1
        ensures Lane(x / 256, k) == 0
      {
        assert Lane(x, k + 1) == 0;
      }
      ZeroFromLanes(x / 256, w - 1);
      assert Lane(x, 0) == 0;
    }
  }

  /** A word is zero exactly when all its bytes are. */
  lemma ZeroLanes(x: nat, w: nat)
    requires Fits(x, w)
    ensures x == 0 <==> LanesZero(x, w)
  {
    if x == 0 {
      forall k: nat | k < w
        ensures Lane(x, k) == 0
      {
        LaneOfZero(k);
      }
    }
    if LanesZero(x, w) {
      ZeroFromLanes(x, w);
    }
  }

  lemma {:induction false} LaneOfZero(k: nat)
    ensures Lane(0, k) == 0
  {
    if k == 0 {
    } else {
      LaneOfZero(k - 1);
    }
  }

  lemma PackLanes(t: nat, s: seq<byte>, w: int)
    requires |s| == w && t == Pack(s)
    ensures Fits(t, w) && forall k :: 0 <= k < w ==> Lane(t, k) == s[k]
  {
    hide *;
    PackFits(s);
    forall k | 0 <= k < w
      ensures Lane(t, k) == s[k]
    {
      LanePack(s, k);
    }
  }

  /** Multiplies each byte of t1 by 0xc0. */
  method MulC0Long(t1: nat, w: int) returns (t2: nat)
    requires IsLongSize(w)
    ensures Fits(t2, w)
    ensures forall k :: 0 <= k < w ==> Lane(t2, k) == Mul(Lane(t1, k), 0xc0)
  {
    hide Mul, Lane, Pack, Fits;
    var b0 := GfMulC0(Lane(t1, 0));
    var b1 := GfMulC0(Lane(t1, 1));
    var b2 := GfMulC0(Lane(t1, 2));
    var b3 := GfMulC0(Lane(t1, 3));
    if w == 4 {
      t2 := Pack([b0, b1, b2, b3]);
      PackLanes(t2, [b0, b1, b2, b3], 4);
    } else {
      var b4 := GfMulC0(Lane(t1, 4));
      var b5 := GfMulC0(Lane(t1, 5));
      var b6 := GfMulC0(Lane(t1, 6));
      var b7 := GfMulC0(Lane(t1, 7));
      t2 := Pack([b0, b1, b2, b3, b4, b5, b6, b7]);
      PackLanes(t2, [b0, b1, b2, b3, b4, b5, b6, b7], 8);
    }
  }

  /** gfmul_exp_long: multiplies each byte of a by r^b. */
  method GfMulExpLong(a: nat, b: int, w: int) returns (t: nat)
    requires IsLongSize(w) && -255 <= b <= 255
    ensures Fits(t, w)
    ensures forall k :: 0 <= k < w ==> Lane(t, k) == Scale(Lane(a, k), b)
  {
    hide Scale, Lane, Pack, Fits;
    var b0 := GfMulExp(Lane(a, 0), b);
    var b1 := GfMulExp(Lane(a, 1), b);
    var b2 := GfMulExp(Lane(a, 2), b);
    var b3 := GfMulExp(Lane(a, 3), b);
    if w == 4 {
      t := Pack([b0, b1, b2, b3]);
      PackLanes(t, [b0, b1, b2, b3], 4);
    } else {
      var b4 := GfMulExp(Lane(a, 4), b);
      var b5 := GfMulExp(Lane(a, 5), b);
      var b6 := GfMulExp(Lane(a, 6), b);
      var b7 := GfMulExp(Lane(a, 7), b);
      t := Pack([b0, b1, b2, b3, b4, b5, b6, b7]);
      PackLanes(t, [b0, b1, b2, b3, b4, b5, b6, b7], 8);
    }
  }

  /** The register of column k when w columns are processed at once. */
  function LaneParity(p0: nat, p1: nat, p2: nat, k: nat): Parity {
    Parity(Lane(p0, k), Lane(p1, k), Lane(p2, k))
  }

  /** One step of the register for w columns at once is one step for each of them. */
  method ParityStepLong(p0: nat, p1: nat, p2: nat, m: nat, w: int) returns (q0: nat, q1: nat, q2: nat)
    requires IsLongSize(w) && Fits(p0, w) && Fits(p1, w) && Fits(p2, w) && Fits(m, w)
    ensures Fits(q0, w) && Fits(q1, w) && Fits(q2, w)
    ensures forall k :: 0 <= k < w ==>
              LaneParity(q0, q1, q2, k) == ParityStep(LaneParity(p0, p1, p2, k), Lane(m, k))
  {
    hide Mul, Add, Xor, Lane, Fits;
    var t1 := Xor(m, p0);
    var t2 := MulC0Long(t1, w);
    q0 := Xor(t2, p1);
    q1 := Xor(t2, p2);
    q2 := t1;
    FitsXor(m, p0, w);
    FitsXor(t2, p1, w);
    FitsXor(t2, p2, w);
    forall k | 0 <= k < w
      ensures LaneParity(q0, q1, q2, k) == ParityStep(LaneParity(p0, p1, p2, k), Lane(m, k))
    {
      LaneXor(m, p0, k);
      LaneXor(t2, p1, k);
      LaneXor(t2, p2, k);
    }
  }
}
