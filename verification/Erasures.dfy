/** Linear algebra of errors in one column: what a change of given bytes does to the three
    syndromes, and how the changes are recovered from the syndromes.
 */
module Erasures {
  import opened Bits
  import opened GaloisField
  import opened GaloisTables
  import opened GaloisPowers
  import opened ReedSolomon

  // ----- syndromes and changes of single bytes -----

  /** Three field elements, one for each root r^-1, 1, r. */
  type Triple = s: seq<byte> | |s| == 3 witness [0, 0, 0]

  const NO_ERROR: Triple := [0, 0, 0]

  function Syndromes(m: seq<byte>): Triple {
    [Eval(m, -1), Eval(m, 0), Eval(m, 1)]
  }

  function TripleAdd(u: Triple, v: Triple): Triple {
    [Add(u[0], v[0]), Add(u[1], v[1]), Add(u[2], v[2])]
  }

  /** The contribution to the syndromes of an error of magnitude e in row l. */
  function Effect(l: int, e: byte): Triple {
    [Scale(e, -l), e, Scale(e, l)]
  }

  /** The column with e added to row l. */
  function Patched(m: seq<byte>, l: nat, e: byte): seq<byte>
    requires l < |m|
  {
    m[l := Add(m[l], e)]
  }

  lemma {:induction false} EvalPatched(m: seq<byte>, l: nat, e: byte, j: int)
    requires l < |m|
    ensures Eval(Patched(m, l, e), j) == Add(Eval(m, j), Scale(e, Times(j, l)))
  {
    hide Add, Scale, Times;
    var k := |m| - 1;
    var m' := Patched(m, l, e);
    var a, b := Eval(m[..k], j), Scale(m[k], Times(j, k));
    var d := Scale(e, Times(j, l));
    if l == k {
      assert m'[..k] == m[..k];
      ScaleAdd(m[k], e, Times(j, k));
      AddAssociates(a, b, d);
    } else {
      EvalPatched(m[..k], l, e, j);
      assert m'[..k] == Patched(m[..k], l, e);
      AddAssociates(a, d, b);
      AddCommutes(d, b);
      AddAssociates(a, b, d);
    }
  }

  lemma SyndromesPatched(m: seq<byte>, l: nat, e: byte)
    requires l < |m|
    ensures Syndromes(Patched(m, l, e)) == TripleAdd(Syndromes(m), Effect(l, e))
  {
    hide Eval, Add, Scale, Times, Patched;
    EvalPatched(m, l, e, -1);
    EvalPatched(m, l, e, 0);
    EvalPatched(m, l, e, 1);
    TimesNext(0, l);
    ScaleBack(e, 0);
  }

  lemma TripleAddZero(u: Triple)
    ensures TripleAdd(u, NO_ERROR) == u == TripleAdd(NO_ERROR, u)
    ensures TripleAdd(u, u) == NO_ERROR
  {
    hide Add;
    AddZero(u[0]);
    AddZero(u[1]);
    AddZero(u[2]);
  }

  lemma TripleAddAssociates(u: Triple, v: Triple, w: Triple)
    ensures TripleAdd(TripleAdd(u, v), w) == TripleAdd(u, TripleAdd(v, w))
  {
    hide Add;
    AddAssociates(u[0], v[0], w[0]);
    AddAssociates(u[1], v[1], w[1]);
    AddAssociates(u[2], v[2], w[2]);
  }

  // ----- changes of several bytes -----

  predicate Rows(ls: seq<int>, n: nat) {
    && (forall k :: 0 <= k < |ls| ==> 0 <= ls[k] < n)
    && (forall i, k :: 0 <= i < k < |ls| ==> ls[i] != ls[k])
  }

  function PatchAll(m: seq<byte>, ls: seq<int>, es: seq<byte>): (m': seq<byte>)
    requires |ls| == |es| && Rows(ls, |m|)
    ensures |m'| == |m|
  {
    if |ls| == 0 then m
    else
      var k := |ls| - 1;
      Patched(PatchAll(m, ls[..k], es[..k]), ls[k], es[k])
  }

  function TotalEffect(ls: seq<int>, es: seq<byte>): Triple
    requires |ls| == |es|
  {
    if |ls| == 0 then NO_ERROR
    else
      var k := |ls| - 1;
      TripleAdd(TotalEffect(ls[..k], es[..k]), Effect(ls[k], es[k]))
  }

  lemma {:induction false} SyndromesPatchAll(m: seq<byte>, ls: seq<int>, es: seq<byte>)
    requires |ls| == |es| && Rows(ls, |m|)
    ensures Syndromes(PatchAll(m, ls, es)) == TripleAdd(Syndromes(m), TotalEffect(ls, es))
  {
    hide Syndromes, TripleAdd, Effect, Patched;
    if |ls| == 0 {
      TripleAddZero(Syndromes(m));
    } else {
      var k := |ls| - 1;
      SyndromesPatchAll(m, ls[..k], es[..k]);
      SyndromesPatched(PatchAll(m, ls[..k], es[..k]), ls[k], es[k]);
      TripleAddAssociates(Syndromes(m), TotalEffect(ls[..k], es[..k]), Effect(ls[k], es[k]));
    }
  }

  /** Row l is changed by the magnitude given for it, and by nothing else. */
  lemma {:induction false} PatchAllRow(m: seq<byte>, ls: seq<int>, es: seq<byte>, x: int)
    requires |ls| == |es| && Rows(ls, |m|) && 0 <= x < |m|
    ensures x !in ls ==> PatchAll(m, ls, es)[x] == m[x]
    ensures forall i :: 0 <= i < |ls| && ls[i] == x ==> PatchAll(m, ls, es)[x] == Add(m[x], es[i])
  {
    hide Add;
    if |ls| == 0 {
    } else {
      PatchAllRow(m, ls[..|ls| - 1], es[..|ls| - 1], x);
    }
  }

  /** The differences of two columns in the given rows. */
  function Differences(v: seq<byte>, c: seq<byte>, ls: seq<int>): (es: seq<byte>)
    requires |v| == |c| && Rows(ls, |v|)
    ensures |es| == |ls|
    ensures forall i :: 0 <= i < |ls| ==> es[i] == Add(c[ls[i]], v[ls[i]])
  {
    if |ls| == 0 then []
    else
      var k := |ls| - 1;
      Differences(v, c, ls[..k]) + [Add(c[ls[k]], v[ls[k]])]
  }

  predicate AgreeOutside(v: seq<byte>, c: seq<byte>, ls: seq<int>) {
    && |v| == |c|
    && (forall x :: 0 <= x < |v| && x !in ls ==> v[x] == c[x])
  }

  /** If v and c differ at most in rows ls, adding the differences turns c into v. */
  lemma PatchBack(v: seq<byte>, c: seq<byte>, ls: seq<int>)
    requires AgreeOutside(v, c, ls) && Rows(ls, |v|)
    ensures PatchAll(c, ls, Differences(v, c, ls)) == v
  {
    var es := Differences(v, c, ls);
    forall x | 0 <= x < |v|
      ensures PatchAll(c, ls, es)[x] == v[x]
    {
      hide Add, PatchAll, Differences;
      PatchAllRow(c, ls, es, x);
      if x in ls {
        var i :| 0 <= i < |ls| && ls[i] == x;
        AddCancel(v[x], c[x]);
      }
    }
  }

  /** The syndromes of c are those of the differences, when v is a code word. */
  lemma SyndromesOfDifferences(v: seq<byte>, c: seq<byte>, ls: seq<int>)
    requires AgreeOutside(v, c, ls) && Rows(ls, |v|) && Syndromes(v) == NO_ERROR
    ensures Syndromes(c) == TotalEffect(ls, Differences(v, c, ls))
  {
    hide Syndromes, PatchAll, Differences, TotalEffect, TripleAdd;
    var t := TotalEffect(ls, Differences(v, c, ls));
    PatchBack(v, c, ls);
    SyndromesPatchAll(c, ls, Differences(v, c, ls));
    TripleAddAssociates(Syndromes(c), t, t);
    TripleAddZero(t);
    TripleAddZero(Syndromes(c));
  }

  // ----- solving for the magnitudes -----

  /** The product of the first n entries of a row with a column vector. */
  function Dot(row: Triple, s: Triple, n: nat): byte
    requires n <= 3
  {
    if n == 0 then 0 else Add(Dot(row, s, n - 1), Mul(row[n - 1], s[n - 1]))
  }

  lemma {:induction false} DotAdd(row: Triple, u: Triple, v: Triple, n: nat)
    requires n <= 3
    ensures Dot(row, TripleAdd(u, v), n) == Add(Dot(row, u, n), Dot(row, v, n))
  {
    hide Add, Mul;
    if n == 0 {
      AddZero(0);
    } else {
      DotAdd(row, u, v, n - 1);
      MulAddRight(row[n - 1], u[n - 1], v[n - 1]);
      AddSwap(Dot(row, u, n - 1), Dot(row, v, n - 1), Mul(row[n - 1], u[n - 1]), Mul(row[n - 1], v[n - 1]));
    }
  }

  lemma EffectOfMagnitude(l: int, e: byte, k: nat)
    requires k < 3
    ensures Effect(l, e)[k] == Mul(e, Effect(l, 1)[k])
  {
    hide Mul, Exp;
    ScaleOne(-l);
    ScaleOne(l);
    MulOne(e);
  }

  lemma {:induction false} DotEffect(row: Triple, l: int, e: byte, n: nat)
    requires n <= 3
    ensures Dot(row, Effect(l, e), n) == Mul(e, Dot(row, Effect(l, 1), n))
  {
    hide Add, Mul, Effect;
    if n == 0 {
      MulZero(e);
    } else {
      var x, y := row[n - 1], Effect(l, 1)[n - 1];
      DotEffect(row, l, e, n - 1);
      EffectOfMagnitude(l, e, n - 1);
      MulAddRight(e, Dot(row, Effect(l, 1), n - 1), Mul(x, y));
      MulAssociates(x, e, y);
      MulCommutes(x, e);
      MulAssociates(e, x, y);
    }
  }

  /** Row i of the inverse picks out the error in row ls[i] and ignores the others. */
  predicate PicksOut(row: Triple, ls: seq<int>, i: int, n: nat)
    requires n <= 3
  {
    forall k :: 0 <= k < |ls| ==> Dot(row, Effect(ls[k], 1), n) == if k == i then 1 else 0
  }

  lemma {:induction false} DotTotal(row: Triple, ls: seq<int>, es: seq<byte>, i: int, n: nat)
    requires n <= 3 && |ls| == |es| && PicksOut(row, ls, i, n)
    ensures Dot(row, TotalEffect(ls, es), n) == if 0 <= i < |ls| then es[i] else 0
  {
    hide Add, Mul, Effect, Dot, TripleAdd;
    if |ls| == 0 {
      TripleAddZero(NO_ERROR);
      DotAdd(row, NO_ERROR, NO_ERROR, n);
      AddZero(Dot(row, NO_ERROR, n));
    } else {
      var k := |ls| - 1;
      DotTotal(row, ls[..k], es[..k], i, n);
      DotAdd(row, TotalEffect(ls[..k], es[..k]), Effect(ls[k], es[k]), n);
      DotEffect(row, ls[k], es[k], n);
      assert Dot(row, Effect(ls[k], 1), n) == if k == i then 1 else 0;
      MulOne(es[k]);
      MulZero(es[k]);
      AddZero(es[k]);
      AddZero(Dot(row, TotalEffect(ls[..k], es[..k]), n));
    }
  }
}
