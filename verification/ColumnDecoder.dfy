/** Which rows of a column to change, and by how much: the decision part of correct_block. */
module ColumnDecoder {
  import opened Bits
  import opened SectorMaps
  import opened GaloisField
  import opened GaloisTables
  import opened GaloisPowers
  import opened ReedSolomon
  import opened Erasures
  import opened Vandermonde
  import opened EccArithmetic
  import opened Columns

  /** The rows are known: the inverse gives the magnitudes. */
  lemma SolveKnown(v: seq<byte>, c: seq<byte>, ls: seq<int>, ainv: Matrix, mags: seq<byte>)
    requires AgreeOutside(v, c, ls) && Rows(ls, |c|) && Syndromes(v) == NO_ERROR
    requires |ls| == |mags| <= 3 && Solves(ainv, ls)
    requires forall i :: 0 <= i < |ls| ==> mags[i] == Dot(ainv[i], Syndromes(c), |ls|)
    ensures PatchAll(c, ls, mags) == v
  {
    hide Syndromes, PicksOut, Dot, TotalEffect, PatchAll, Differences;
    var es := Differences(v, c, ls);
    SyndromesOfDifferences(v, c, ls);
    forall i | 0 <= i < |ls|
      ensures mags[i] == es[i]
    {
      DotTotal(ainv[i], ls, es, i, |ls|);
    }
    assert mags == es;
    PatchBack(v, c, ls);
  }

  lemma TotalEffectOne(l: int, e: byte)
    ensures TotalEffect([l], [e]) == Effect(l, e)
  {
    hide Effect, TripleAdd;
    assert [l][..0] == [] && [e][..0] == [];
    TripleAddZero(Effect(l, e));
  }

  lemma TotalEffectTwo(l0: int, l1: int, e0: byte, e1: byte)
    ensures TotalEffect([l0, l1], [e0, e1]) == TripleAdd(Effect(l0, e0), Effect(l1, e1))
  {
    hide Effect, TripleAdd;
    TotalEffectOne(l0, e0);
    assert [l0, l1][..1] == [l0] && [e0, e1][..1] == [e0];
  }

  lemma SameRow(l: int, k: int)
    requires 0 <= l < 255 && 0 <= k < 255 && Exp(l) == Exp(k)
    ensures l == k
  {
    hide *;
    if l < k {
      ExpDistinct(l, k);
    } else if k < l {
      ExpDistinct(k, l);
    }
  }

  lemma NoEffect(l: int)
    ensures Effect(l, 0) == NO_ERROR
  {
    hide Scale;
    ScaleBack(0, l);
    ScaleBack(0, -l);
  }

  /** A single wrong byte: syndromes and the restoring change. */
  lemma SingleError(v: seq<byte>, c: seq<byte>, l: int) returns (e: byte)
    requires 0 <= l < |c| && AgreeOutside(v, c, [l]) && Syndromes(v) == NO_ERROR
    ensures Syndromes(c) == Effect(l, e)
    ensures PatchAll(c, [l], [e]) == v
  {
    hide Syndromes, Effect, TotalEffect, PatchAll;
    var es := Differences(v, c, [l]);
    e := es[0];
    assert es == [e];
    SyndromesOfDifferences(v, c, [l]);
    TotalEffectOne(l, e);
    PatchBack(v, c, [l]);
  }

  lemma DoubleError(v: seq<byte>, c: seq<byte>, l0: int, l1: int) returns (e0: byte, e1: byte)
    requires 0 <= l0 < |c| && 0 <= l1 < |c| && l0 != l1
    requires AgreeOutside(v, c, [l0, l1]) && Syndromes(v) == NO_ERROR
    ensures Syndromes(c) == TripleAdd(Effect(l0, e0), Effect(l1, e1))
    ensures e1 == 0 ==> AgreeOutside(v, c, [l0])
  {
    hide Syndromes, Effect, TotalEffect, PatchAll, TripleAdd, Add;
    var ls := [l0, l1];
    var es := Differences(v, c, ls);
    e0, e1 := es[0], es[1];
    assert es == [e0, e1];
    SyndromesOfDifferences(v, c, ls);
    TotalEffectTwo(l0, l1, e0, e1);
    AddIsZero(c[l1], v[l1]);
    assert e1 == Add(c[ls[1]], v[ls[1]]);
  }

  lemma AgreeEverywhere(v: seq<byte>, c: seq<byte>)
    ensures AgreeOutside(v, c, []) ==> v == c
  {}

  /** No row is flagged: one wrong byte is located by the quotient of two syndromes. */
  lemma NoErasure(v: seq<byte>, c: seq<byte>, s: Triple, t: byte, k: int)
    requires |c| < 255 && s == Syndromes(c) != NO_ERROR && Correctable(v, c, [])
    requires s[0] != 0 ==> Mul(t, s[0]) == s[1]
    requires t != 0 ==> 0 <= k < 255 && Exp(k) == t
    ensures s[0] != 0 && t != 0 && k < |c| && PatchAll(c, [k], [s[1]]) == v
  {
    hide Syndromes, PatchAll, Exp, Mul;
    AgreeEverywhere(v, c);
    var l :| 0 <= l < |c| && AgreeOutside(v, c, [l]);
    var e := SingleError(v, c, l);
    NoEffect(l);
    assert s[1] == e by { hide Scale; }
    hide Effect;
    ScaleExp(l, 0);
    FirstNonZero(l, e);
    LocateOne(l, e, t);
    SameRow(l, k);
  }

  lemma FirstNonZero(l: int, e: byte)
    ensures Effect(l, e)[0] == 0 <==> e == 0
  {
    hide Scale;
    ScaleIsZero(e, -l);
  }

  /** One row is flagged, and one more byte may be wrong. */
  lemma OneErasure(v: seq<byte>, c: seq<byte>, m: int, s: Triple, t: byte, k: int)
    requires |c| < 255 && 0 <= m < |c| && s == Syndromes(c) != NO_ERROR && Correctable(v, c, [m])
    requires Residue2(s, m) != 0 ==> Mul(t, Residue2(s, m)) == Residue1(s, m)
    requires t != 0 ==> 0 <= k < 255 && Exp(k) == t
    ensures Residue1(s, m) == 0 && Residue2(s, m) == 0 ==> AgreeOutside(v, c, [m])
    ensures Residue1(s, m) == 0 <==> Residue2(s, m) == 0
    ensures Residue2(s, m) != 0 ==> t != 0 && k < |c| && k != m && AgreeOutside(v, c, [m, k])
  {
    hide Syndromes, Exp, Mul, Residue1, Residue2, TripleAdd;
    if AgreeOutside(v, c, [m]) {
      var e := SingleError(v, c, m);
      ResidueOfErasure(m, e);
    } else {
      var l :| 0 <= l < |c| && l != m && AgreeOutside(v, c, [m, l]);
      var e0, e := DoubleError(v, c, m, l);
      LocateSecond(l, e, m, e0, t, s);
      ScaleExp(l, 0);
      if t == Exp(l) {
        SameRow(l, k);
      }
    }
  }

  /** The rows that may be changed: the flagged ones, and one more if at most one is flagged. */
  predicate MayChange(ls: seq<int>, bad: seq<int>) {
    || (|bad| > 0 && ls == bad)
    || (|bad| == 0 && |ls| == 1)
    || (|bad| == 1 && |ls| == 2 && ls[0] == bad[0] && ls[1] != bad[0])
  }

  /** The case distinction of correct_block on the number of flagged rows.  For any column c
      with these syndromes, the proposed changes restore whatever can be restored. */
  method FindErrors(nblocks: int, bad: seq<int>, ainv0: Matrix, s: Triple, ghost c: seq<byte>)
    returns (ok: bool, ls: seq<int>, mags: seq<byte>)
    requires 0 <= nblocks <= 32 && |bad| <= 3 && Rows(bad, nblocks)
    requires |bad| >= 2 ==> Solves(ainv0, bad)
    requires |c| == nblocks && s == Syndromes(c) != NO_ERROR
    ensures |ls| == |mags| <= 3
    ensures ok ==> Rows(ls, nblocks) && MayChange(ls, bad)
    ensures forall v :: Correctable(v, c, bad) ==> ok && PatchAll(c, ls, mags) == v
  {
    hide Syndromes, PatchAll, Exp, Mul, Add, Scale, Dot, Solves, PicksOut;
    var ainv := ainv0;
    ls, mags := bad, [];
    if |bad| == 0 {
      assert bad == [];
      if s[0] == 0 {
        forall v | Correctable(v, c, bad) ensures false { NoErasure(v, c, s, 0, 0); }
        return false, [], [];
      }
      var t1 := GfDiv(s[1], s[0]);
      var k := GfLog(t1);
      forall v | Correctable(v, c, bad)
        ensures t1 != 0 && k < nblocks && PatchAll(c, [k], [s[1]]) == v
      {
        NoErasure(v, c, s, t1, k);
      }
      if k >= nblocks {
        return false, [], [];
      }
      return true, [k], [s[1]];
    }
    if |bad| == 1 {
      var m := bad[0];
      assert bad == [m];
      var u1 := GfMulExp(s[1], m);
      var u2 := GfMulExp(s[0], m);
      var t1 := Add(u1, s[2]);
      var t2 := Add(u2, s[1]);
      assert t1 == Residue1(s, m) && t2 == Residue2(s, m);
      if t1 == 0 && t2 == 0 {
        var p := GfPow(m);
        ainv := [[p, 0, 0], NO_ERROR, NO_ERROR];
        SolvesOne(ainv, m);
        forall v | Correctable(v, c, bad) ensures AgreeOutside(v, c, ls) { OneErasure(v, c, m, s, 0, 0); }
      } else if t1 == 0 || t2 == 0 {
        forall v | Correctable(v, c, bad) ensures false { NoQuotient(v, c, m, s); }
        return false, [], [];
      } else {
        var t := GfDiv(t1, t2);
        var k := GfLog(t);
        forall v | Correctable(v, c, bad)
          ensures k < nblocks && k != m && AgreeOutside(v, c, [m, k])
        {
          OneErasure(v, c, m, s, t, k);
        }
        if k >= nblocks {
          return false, [], [];
        }
        var inverted, a := GfInv2(m, k);
        if !inverted {
          return false, [], [];
        }
        ainv, ls := a, [m, k];
      }
    } else {
      forall v | Correctable(v, c, bad) ensures AgreeOutside(v, c, ls) { ManyErasures(v, c, bad); }
    }
    mags := GfMatMul(|ls|, ainv, s);
    ok := true;
    forall v | Correctable(v, c, bad)
      ensures PatchAll(c, ls, mags) == v
    {
      SolveKnown(v, c, ls, ainv, mags);
    }
  }

  lemma SolvesOne(m: Matrix, l: int)
    requires m[0][0] == Exp(l)
    ensures Solves(m, [l])
  {
    hide Exp, Dot, PicksOut;
    Inverse1(m[0], l);
  }

  lemma ManyErasures(v: seq<byte>, c: seq<byte>, bad: seq<int>)
    requires Correctable(v, c, bad) && 2 <= |bad| <= 3
    ensures AgreeOutside(v, c, bad)
  {}

  /** If only one of the two residues is zero, more than one further byte is wrong. */
  lemma NoQuotient(v: seq<byte>, c: seq<byte>, m: int, s: Triple)
    requires |c| < 255 && 0 <= m < |c| && s == Syndromes(c) != NO_ERROR
    requires (Residue1(s, m) == 0) != (Residue2(s, m) == 0)
    ensures !Correctable(v, c, [m])
  {
    hide Syndromes, Residue1, Residue2, Exp, Mul;
    if Correctable(v, c, [m]) {
      var y := Residue2(s, m);
      if y == 0 {
        OneErasure(v, c, m, s, 0, 0);
      } else {
        // the first residue is zero, and so is its quotient by the second
        MulZero(y);
        OneErasure(v, c, m, s, 0, 0);
      }
    }
  }
}
