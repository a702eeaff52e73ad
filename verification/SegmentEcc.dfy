/** Encoding and correction of a whole segment in memory (ftape-ecc.c). */
module SegmentEcc {
  import opened Bits
  import opened SectorMaps
  import opened GaloisField
  import opened GaloisTables
  import opened GaloisPowers
  import opened ReedSolomon
  import opened Erasures
  import opened Vandermonde
  import opened EccArithmetic
  import opened Words
  import opened Columns
  import opened ColumnDecoder

  // ----- parity and syndromes of w columns at once -----

  /** The w bytes at offset off as one long. */
  function LoadLong(mem: seq<byte>, off: int, w: int): nat
    requires 0 <= off && 0 <= w && off + w <= |mem|
  {
    Pack(mem[off..off + w])
  }

  lemma LoadLongLanes(mem: seq<byte>, off: int, w: int)
    requires 0 <= off && 0 <= w && off + w <= |mem|
    ensures Fits(LoadLong(mem, off, w), w)
    ensures forall k :: 0 <= k < w ==> Lane(LoadLong(mem, off, w), k) == mem[off + k]
  {
    hide Pack, Fits, Lane;
    PackLanes(LoadLong(mem, off, w), mem[off..off + w], w);
  }

  /** p0, p1, p2 hold the register contents of the columns col, ..., col + w - 1. */
  ghost predicate HoldParity(mem: seq<byte>, n: int, col: int, w: int, p0: nat, p1: nat, p2: nat)
    requires Holds(mem, n) && 0 <= col && 0 <= w && col + w <= SECTOR_SIZE
  {
    && Fits(p0, w) && Fits(p1, w) && Fits(p2, w)
    && forall k :: 0 <= k < w ==> LaneParity(p0, p1, p2, k) == ParityOf(Column(mem, n, col + k))
  }

  lemma HoldParityStart(mem: seq<byte>, col: int, w: int)
    requires IsLongSize(w) && 0 <= col && col + w <= SECTOR_SIZE
    ensures HoldParity(mem, 0, col, w, 0, 0, 0)
  {
    PackFits([0, 0, 0, 0]);
    PackFits([0, 0, 0, 0, 0, 0, 0, 0]);
    assert Pack([0, 0, 0, 0]) == 0;
    assert Pack([0, 0, 0, 0, 0, 0, 0, 0]) == 0;
    hide Lane, Fits;
    forall k | 0 <= k < w
      ensures LaneParity(0, 0, 0, k) == ParityOf(Column(mem, 0, col + k))
    {
      LaneOfZero(k);
    }
  }

  lemma HoldParityNext(mem: seq<byte>, n: int, col: int, w: int, p0: nat, p1: nat, p2: nat, m: nat, q0: nat,
                       q1: nat, q2: nat)
    requires 0 <= n && Holds(mem, n + 1) && 0 <= col && 0 <= w && col + w <= SECTOR_SIZE
    requires HoldParity(mem, n, col, w, p0, p1, p2)
    requires m == LoadLong(mem, SECTOR_SIZE * n + col, w)
    requires Fits(q0, w) && Fits(q1, w) && Fits(q2, w)
    requires forall k :: 0 <= k < w ==>
               LaneParity(q0, q1, q2, k) == ParityStep(LaneParity(p0, p1, p2, k), Lane(m, k))
    ensures HoldParity(mem, n + 1, col, w, q0, q1, q2)
  {
    hide Lane, Fits, LoadLong, ParityStep, LaneParity, Column;
    LoadLongLanes(mem, SECTOR_SIZE * n + col, w);
    forall k | 0 <= k < w
      ensures LaneParity(q0, q1, q2, k) == ParityOf(Column(mem, n + 1, col + k))
    {
      ColumnNext(mem, n, col + k);
      ParityAppend(Column(mem, n, col + k), mem[SECTOR_SIZE * n + (col + k)]);
    }
  }

  lemma ParityAppend(m: seq<byte>, b: byte)
    ensures ParityOf(m + [b]) == ParityStep(ParityOf(m), b)
  {
    hide ParityStep;
    assert (m + [b])[..|m|] == m;
  }

  /** set_parity: the parity of the first nblocks blocks for w columns from col on. */
  method SetParity(data: array<byte>, col: int, nblocks: int, w: int) returns (p0: nat, p1: nat, p2: nat)
    requires IsLongSize(w) && 0 <= col && col + w <= SECTOR_SIZE && Holds(data[..], nblocks)
    ensures HoldParity(data[..], nblocks, col, w, p0, p1, p2)
  {
    hide HoldParity, Fits, LaneParity, ParityStep;
    p0, p1, p2 := 0, 0, 0;
    ghost var mem := data[..];
    HoldParityStart(mem, col, w);
    var n := 0;
    while n < nblocks
      invariant 0 <= n <= nblocks && mem == data[..]
      invariant HoldParity(mem, n, col, w, p0, p1, p2)
    {
      var m := LoadLong(data[..], SECTOR_SIZE * n + col, w);
      LoadLongLanes(mem, SECTOR_SIZE * n + col, w);
      HoldParityFits(mem, n, col, w, p0, p1, p2);
      var q0, q1, q2 := ParityStepLong(p0, p1, p2, m, w);
      HoldParityNext(mem, n, col, w, p0, p1, p2, m, q0, q1, q2);
      p0, p1, p2 := q0, q1, q2;
      n := n + 1;
    }
  }

  lemma HoldParityFits(mem: seq<byte>, n: int, col: int, w: int, p0: nat, p1: nat, p2: nat)
    requires Holds(mem, n) && 0 <= col && 0 <= w && col + w <= SECTOR_SIZE
    requires HoldParity(mem, n, col, w, p0, p1, p2)
    ensures Fits(p0, w) && Fits(p1, w) && Fits(p2, w)
  {}

  /** s0, s1, s2 hold the syndromes of the columns col, ..., col + w - 1. */
  ghost predicate HoldSyndromes(mem: seq<byte>, n: int, col: int, w: int, s0: nat, s1: nat, s2: nat)
    requires Holds(mem, n) && 0 <= col && 0 <= w && col + w <= SECTOR_SIZE
  {
    forall k :: 0 <= k < w ==> [Lane(s0, k), Lane(s1, k), Lane(s2, k)] == Syndromes(Column(mem, n, col + k))
  }

  /** The columns col, ..., col + w - 1 are code words. */
  ghost predicate NoSyndromes(mem: seq<byte>, n: int, col: int, w: int)
    requires Holds(mem, n) && 0 <= col && 0 <= w && col + w <= SECTOR_SIZE
  {
    forall c :: col <= c < col + w ==> Syndromes(Column(mem, n, c)) == NO_ERROR
  }

  lemma ZeroWords(mem: seq<byte>, n: int, col: int, w: int, p0: nat, p1: nat, p2: nat)
    requires Holds(mem, n) && 0 <= col && 0 <= w && col + w <= SECTOR_SIZE
    requires HoldParity(mem, n, col, w, p0, p1, p2)
    ensures p0 == 0 && p1 == 0 && p2 == 0 <==> NoSyndromes(mem, n, col, w)
  {
    hide Lane, Fits, Column, ParityOf, Syndromes, LanesZero;
    ZeroLanes(p0, w);
    ZeroLanes(p1, w);
    ZeroLanes(p2, w);
    forall c | col <= c < col + w
      ensures LaneParity(p0, p1, p2, c - col) == ZERO_PARITY <==> Syndromes(Column(mem, n, c)) == NO_ERROR
    {
      ParityZero(Column(mem, n, c));
      assert LaneParity(p0, p1, p2, c - col) == ParityOf(Column(mem, n, col + (c - col)));
    }
    LanesTogether(p0, p1, p2, w);
    if forall k: nat :: k < w ==> LaneParity(p0, p1, p2, k) == ZERO_PARITY {
      forall c | col <= c < col + w
        ensures Syndromes(Column(mem, n, c)) == NO_ERROR
      {
        assert LaneParity(p0, p1, p2, c - col) == ZERO_PARITY;
      }
    }
    if NoSyndromes(mem, n, col, w) {
      forall k: nat | k < w
        ensures LaneParity(p0, p1, p2, k) == ZERO_PARITY
      {
        assert Syndromes(Column(mem, n, col + k)) == NO_ERROR;
      }
    }
  }

  lemma LanesTogether(p0: nat, p1: nat, p2: nat, w: nat)
    ensures LanesZero(p0, w) && LanesZero(p1, w) && LanesZero(p2, w) <==>
            forall k: nat :: k < w ==> LaneParity(p0, p1, p2, k) == ZERO_PARITY
  {
    hide Lane;
    if forall k: nat :: k < w ==> LaneParity(p0, p1, p2, k) == ZERO_PARITY {
      forall k: nat | k < w
        ensures Lane(p0, k) == 0 && Lane(p1, k) == 0 && Lane(p2, k) == 0
      {
        assert LaneParity(p0, p1, p2, k) == ZERO_PARITY;
      }
    }
  }

  /** The three syndromes of one lane, from its register contents. */
  lemma LaneSyndromes(m: seq<byte>, p: Parity, s: Triple)
    requires p == ParityOf(m)
    requires s[0] == Scale(Add(p.p0, Scale(Add(p.p1, Scale(p.p2, -1)), -1)), -|m|)
    requires s[1] == Add(Add(p.p2, p.p1), p.p0)
    requires s[2] == Scale(Add(p.p0, Scale(Add(p.p1, Scale(p.p2, 1)), 1)), |m|)
    ensures s == Syndromes(m)
  {
    hide Eval, Add, Scale, ParityOf, EvalParity, Times;
    Horner(p, -1);
    Horner(p, 1);
    RemainderAtRoot(m, -1);
    RemainderAtRoot(m, 0);
    RemainderAtRoot(m, 1);
    TimesNext(0, |m|);
    ScaleBack(EvalParity(p, 0), 0);
  }

  /** compute_syndromes: answers whether all syndromes are zero; if not, computes them. */
  method ComputeSyndromes(data: array<byte>, col: int, nblocks: int, w: int)
    returns (zero: bool, s0: nat, s1: nat, s2: nat)
    requires IsLongSize(w) && 0 <= col && col + w <= SECTOR_SIZE && Holds(data[..], nblocks) && nblocks <= 32
    ensures zero <==> NoSyndromes(data[..], nblocks, col, w)
    ensures !zero ==> HoldSyndromes(data[..], nblocks, col, w, s0, s1, s2)
  {
    hide Lane, Fits, Column, ParityOf, Syndromes, Scale, Add, Xor, NoSyndromes;
    s0, s1, s2 := 0, 0, 0;
    var p0, p1, p2 := SetParity(data, col, nblocks, w);
    ghost var mem := data[..];
    ZeroWords(mem, nblocks, col, w, p0, p1, p2);
    if p0 == 0 && p1 == 0 && p2 == 0 {
      zero := true;
      return;
    }
    zero := false;
    var a := GfMulExpLong(p2, -1, w);
    var b := GfMulExpLong(Xor(p1, a), -1, w);
    s0 := GfMulExpLong(Xor(p0, b), -nblocks, w);
    s1 := Xor(Xor(p2, p1), p0);
    var c := GfMulExpLong(p2, 1, w);
    var d := GfMulExpLong(Xor(p1, c), 1, w);
    s2 := GfMulExpLong(Xor(p0, d), nblocks, w);
    forall k | 0 <= k < w
      ensures [Lane(s0, k), Lane(s1, k), Lane(s2, k)] == Syndromes(Column(mem, nblocks, col + k))
    {
      LaneXor(p1, a, k); LaneXor(p0, b, k);
      LaneXor(p2, p1, k); LaneXor(Xor(p2, p1), p0, k);
      LaneXor(p1, c, k); LaneXor(p0, d, k);
      LaneSyndromes(Column(mem, nblocks, col + k), LaneParity(p0, p1, p2, k), [Lane(s0, k), Lane(s1, k), Lane(s2, k)]);
    }
  }

  // ----- correction of one column -----

  /** Only column col of the first n blocks differs. */
  ghost predicate OnlyColumn(mem: seq<byte>, mem': seq<byte>, n: int, col: int)
    requires Holds(mem, n)
  {
    && |mem'| == |mem|
    && mem'[SECTOR_SIZE * n..] == mem[SECTOR_SIZE * n..]
    && forall d :: 0 <= d < SECTOR_SIZE && d != col ==> Column(mem', n, d) == Column(mem, n, d)
  }

  lemma WriteByte(mem0: seq<byte>, mem: seq<byte>, n: int, l: int, col: int, y: byte)
    requires Holds(mem0, n) && OnlyColumn(mem0, mem, n, col) && 0 <= l < n && 0 <= col < SECTOR_SIZE
    ensures OnlyColumn(mem0, mem[SECTOR_SIZE * l + col := y], n, col)
    ensures Column(mem[SECTOR_SIZE * l + col := y], n, col) == Column(mem, n, col)[l := y]
  {
    var mem' := mem[SECTOR_SIZE * l + col := y];
    assert mem'[SECTOR_SIZE * n..] == mem[SECTOR_SIZE * n..];
    hide Column;
    forall d | 0 <= d < SECTOR_SIZE
      ensures Column(mem', n, d) == if d == col then Column(mem, n, col)[l := y] else Column(mem, n, d)
    {
      ColumnUpdate(mem, n, l, col, y, d);
    }
  }

  /** The bits of the rows with a non-zero change are added to the map. */
  ghost predicate Recorded(m0: SectorMap, m: SectorMap, ls: seq<int>, mags: seq<byte>)
    requires |ls| == |mags|
  {
    forall r :: 0 <= r < 32 ==> (m[r] <==> m0[r] || exists i :: 0 <= i < |ls| && ls[i] == r && mags[i] != 0)
  }

  lemma RecordedNext(m0: SectorMap, m: SectorMap, ls: seq<int>, mags: seq<byte>, k: int)
    requires |ls| == |mags| && 0 <= k < |ls| && 0 <= ls[k] < 32
    requires Recorded(m0, m, ls[..k], mags[..k])
    ensures Recorded(m0, if mags[k] == 0 then m else SetBit(m, ls[k]), ls[..k + 1], mags[..k + 1])
  {
    var m' := if mags[k] == 0 then m else SetBit(m, ls[k]);
    var ls', mags' := ls[..k + 1], mags[..k + 1];
    assert ls' == ls[..k] + [ls[k]] && mags' == mags[..k] + [mags[k]];
    forall r | 0 <= r < 32
      ensures m'[r] <==> m0[r] || exists i :: 0 <= i < |ls'| && ls'[i] == r && mags'[i] != 0
    {
      if m[r] && !m0[r] {
        var i :| 0 <= i < k && ls[..k][i] == r && mags[..k][i] != 0;
        assert ls'[i] == r && mags'[i] != 0;
      }
      if mags[k] != 0 && r == ls[k] {
        assert ls'[k] == r && mags'[k] != 0;
      }
      if exists i :: 0 <= i < |ls'| && ls'[i] == r && mags'[i] != 0 {
        var i :| 0 <= i < |ls'| && ls'[i] == r && mags'[i] != 0;
        if i < k {
          assert ls[..k][i] == r && mags[..k][i] != 0;
        }
      }
    }
  }

  /** The rest of correct_block: adds the magnitudes and checks that the result is a code word. */
  method ApplyErrors(data: array<byte>, col: int, nblocks: int, ls: seq<int>, mags: seq<byte>, s: Triple, m0: SectorMap)
    returns (ncorrected: int, m: SectorMap)
    requires 0 <= col < SECTOR_SIZE && Holds(data[..], nblocks) && nblocks <= 32
    requires |ls| == |mags| && Rows(ls, nblocks)
    requires s == Syndromes(Column(data[..], nblocks, col)) != NO_ERROR
    modifies data
    ensures OnlyColumn(old(data[..]), data[..], nblocks, col)
    ensures Column(data[..], nblocks, col) == PatchAll(old(Column(data[..], nblocks, col)), ls, mags)
    ensures Recorded(m0, m, ls, mags)
    ensures ncorrected != 0
    ensures ncorrected >= 0 <==> Syndromes(Column(data[..], nblocks, col)) == NO_ERROR
  {
    hide Add, Scale, Exp, TotalEffect, PatchAll, Syndromes, Column, OnlyColumn, Recorded, Rows;
    var c0, c1, c2 := s[0], s[1], s[2];
    ncorrected, m := 0, m0;
    ghost var mem0 := data[..];
    ghost var c := Column(mem0, nblocks, col);
    var i := 0;
    ApplyStart(mem0, nblocks, col, c, s, m0);
    while i < |ls|
      invariant 0 <= i <= |ls| && 0 <= ncorrected
      invariant Rows(ls[..i], nblocks) && OnlyColumn(mem0, data[..], nblocks, col)
      invariant Column(data[..], nblocks, col) == PatchAll(c, ls[..i], mags[..i])
      invariant [c0, c1, c2] == TripleAdd(s, TotalEffect(ls[..i], mags[..i]))
      invariant Recorded(m0, m, ls[..i], mags[..i])
      invariant ncorrected == 0 ==> TotalEffect(ls[..i], mags[..i]) == NO_ERROR
    {
      ghost var mem := data[..];
      var e := mags[i];
      RowsPrefix(ls, nblocks, i);
      PatchNext(c, ls, mags, i);
      RecordedNext(m0, m, ls, mags, i);
      EffectNext(s, ls, mags, i);
      if e != 0 {
        var l := ls[i];
        data[SECTOR_SIZE * l + col] := Add(data[SECTOR_SIZE * l + col], e);
        WriteByte(mem0, mem, nblocks, l, col, data[SECTOR_SIZE * l + col]);
        assert data[..] == mem[SECTOR_SIZE * l + col := data[SECTOR_SIZE * l + col]];
        assert Column(mem, nblocks, col)[l] == mem[SECTOR_SIZE * l + col] by { ColumnAt(mem, nblocks, col, l); }
        m := SetBit(m, l);
        ncorrected := ncorrected + 1;
        var logMag: int := GfLog(e);
        var x0 := Mod255(logMag - l);
        var y0 := GfPow(x0);
        c0 := Add(c0, y0);
        c1 := Add(c1, e);
        var x2 := Mod255(logMag + l);
        var y2 := GfPow(x2);
        c2 := Add(c2, y2);
        LogScale(e, logMag, -l);
        LogScale(e, logMag, l);
      }
      i := i + 1;
    }
    assert ls[..i] == ls && mags[..i] == mags;
    SyndromesPatchAll(c, ls, mags);
    TripleAddZero(s);
    if c0 != 0 || c1 != 0 || c2 != 0 {
      ncorrected := -1;
    }
  }

  lemma ColumnAt(mem: seq<byte>, n: int, c: int, l: int)
    requires Holds(mem, n) && 0 <= c < SECTOR_SIZE && 0 <= l < n
    ensures Column(mem, n, c)[l] == mem[SECTOR_SIZE * l + c]
  {}

  lemma ApplyStart(mem: seq<byte>, n: int, col: int, c: seq<byte>, s: Triple, m0: SectorMap)
    requires Holds(mem, n) && 0 <= col < SECTOR_SIZE && c == Column(mem, n, col)
    ensures Rows([], n) && PatchAll(c, [], []) == c && OnlyColumn(mem, mem, n, col)
    ensures TotalEffect([], []) == NO_ERROR && TripleAdd(s, NO_ERROR) == s
    ensures Recorded(m0, m0, [], [])
  {
    hide Add;
    TripleAddZero(s);
  }

  lemma RowsPrefix(ls: seq<int>, n: nat, i: int)
    requires Rows(ls, n) && 0 <= i < |ls|
    ensures Rows(ls[..i], n) && Rows(ls[..i + 1], n) && 0 <= ls[i] < n
  {}

  lemma PatchNext(c: seq<byte>, ls: seq<int>, mags: seq<byte>, i: int)
    requires |ls| == |mags| && 0 <= i < |ls| && Rows(ls, |c|)
    requires Rows(ls[..i], |c|) && Rows(ls[..i + 1], |c|)
    ensures var d := PatchAll(c, ls[..i], mags[..i]);
            PatchAll(c, ls[..i + 1], mags[..i + 1]) ==
              if mags[i] == 0 then d else d[ls[i] := Add(d[ls[i]], mags[i])]
  {
    hide *;
    var d := PatchAll(c, ls[..i], mags[..i]);
    assert ls[..i + 1][..i] == ls[..i] && mags[..i + 1][..i] == mags[..i];
    PatchUnfold(c, ls[..i + 1], mags[..i + 1], i);
    RowsPrefix(ls, |c|, i);
    PatchedIs(d, ls[i], mags[i]);
  }

  lemma PatchUnfold(c: seq<byte>, ls: seq<int>, mags: seq<byte>, k: int)
    requires |ls| == |mags| == k + 1 > 0 && Rows(ls, |c|) && Rows(ls[..k], |c|)
    ensures 0 <= ls[k] < |c|
    ensures PatchAll(c, ls, mags) == Patched(PatchAll(c, ls[..k], mags[..k]), ls[k], mags[k])
  {
    hide Patched;
  }

  lemma PatchedIs(d: seq<byte>, l: int, e: byte)
    requires 0 <= l < |d|
    ensures Patched(d, l, e) == if e == 0 then d else d[l := Add(d[l], e)]
  {
    hide Add;
    AddZero(d[l]);
  }

  lemma EffectNext(s: Triple, ls: seq<int>, mags: seq<byte>, i: int)
    requires |ls| == |mags| && 0 <= i < |ls|
    ensures var t := TripleAdd(s, TotalEffect(ls[..i], mags[..i]));
            TripleAdd(s, TotalEffect(ls[..i + 1], mags[..i + 1])) ==
              if mags[i] == 0 then t else TripleAdd(t, Effect(ls[i], mags[i]))
    ensures mags[i] == 0 ==> TotalEffect(ls[..i + 1], mags[..i + 1]) == TotalEffect(ls[..i], mags[..i])
  {
    hide TripleAdd, Effect;
    assert ls[..i + 1][..i] == ls[..i] && mags[..i + 1][..i] == mags[..i];
    var u, e := TotalEffect(ls[..i], mags[..i]), Effect(ls[i], mags[i]);
    TripleAddAssociates(s, u, e);
    NoEffect(ls[i]);
    TripleAddZero(u);
  }

  /** correct_block: corrects column col, given the rows bad that failed their CRC. */
  method CorrectBlock(data: array<byte>, col: int, nblocks: int, bad: seq<int>, ainv: Matrix, s: Triple, m0: SectorMap)
    returns (ncorrected: int, m: SectorMap)
    requires 0 <= col < SECTOR_SIZE && Holds(data[..], nblocks) && nblocks <= 32
    requires |bad| <= 3 && Rows(bad, nblocks) && (|bad| >= 2 ==> Solves(ainv, bad))
    requires s == Syndromes(Column(data[..], nblocks, col)) != NO_ERROR
    modifies data
    ensures OnlyColumn(old(data[..]), data[..], nblocks, col)
    ensures ncorrected != 0
    ensures ncorrected >= 0 ==> Correctable(Column(data[..], nblocks, col), old(Column(data[..], nblocks, col)), bad)
    ensures ncorrected < 0 ==> Syndromes(Column(data[..], nblocks, col)) != NO_ERROR
    ensures ChangesRecorded(old(Column(data[..], nblocks, col)), Column(data[..], nblocks, col), m0, m)
    ensures forall v :: Correctable(v, old(Column(data[..], nblocks, col)), bad) ==>
              ncorrected >= 0 && Column(data[..], nblocks, col) == v
  {
    hide Syndromes, Column, OnlyColumn, PatchAll, Recorded, Solves, Correctable, Rows, ChangesRecorded;
    ghost var mem := data[..];
    ghost var c := Column(mem, nblocks, col);
    var ok, ls, mags := FindErrors(nblocks, bad, ainv, s, c);
    m := m0;
    if !ok {
      ncorrected := -1;
      ApplyStart(mem, nblocks, col, c, s, m0);
      NothingRecorded(c, m0);
      return;
    }
    ncorrected, m := ApplyErrors(data, col, nblocks, ls, mags, s, m0);
    PatchRecorded(c, ls, mags, m0, m);
    if ncorrected >= 0 {
      PatchCorrectable(c, ls, mags, bad);
    }
    forall v | Correctable(v, c, bad)
      ensures Syndromes(v) == NO_ERROR
    {
      CorrectableIsCodeword(v, c, bad);
    }
  }

  /** A code word that differs only in rows that may be changed is one that the column stands for. */
  lemma PatchCorrectable(c: seq<byte>, ls: seq<int>, mags: seq<byte>, bad: seq<int>)
    requires |ls| == |mags| && Rows(ls, |c|) && MayChange(ls, bad) && |bad| <= 3
    requires Syndromes(PatchAll(c, ls, mags)) == NO_ERROR
    ensures Correctable(PatchAll(c, ls, mags), c, bad)
  {
    hide Syndromes, PatchAll, Add;
    var v := PatchAll(c, ls, mags);
    forall x | 0 <= x < |c| && x !in ls
      ensures v[x] == c[x]
    {
      PatchAllRow(c, ls, mags, x);
    }
    assert AgreeOutside(v, c, ls);
    if |bad| == 0 {
      assert ls == [ls[0]];
    } else if ls != bad {
      assert ls == [bad[0], ls[1]];
    }
  }

  lemma CorrectableIsCodeword(v: seq<byte>, c: seq<byte>, bad: seq<int>)
    requires Correctable(v, c, bad)
    ensures Syndromes(v) == NO_ERROR
  {}

  /** Row r is newly in the map exactly when its byte of the column changed. */
  ghost predicate ChangesRecorded(c: seq<byte>, c': seq<byte>, m0: SectorMap, m: SectorMap) {
    && |c| == |c'| <= 32
    && (forall r :: 0 <= r < |c| ==> (m[r] <==> m0[r] || c'[r] != c[r]))
    && (forall r :: |c| <= r < 32 ==> m[r] == m0[r])
  }

  lemma NothingRecorded(c: seq<byte>, m: SectorMap)
    requires |c| <= 32
    ensures ChangesRecorded(c, c, m, m)
  {}

  lemma PatchRecorded(c: seq<byte>, ls: seq<int>, mags: seq<byte>, m0: SectorMap, m: SectorMap)
    requires |ls| == |mags| && |c| <= 32 && Rows(ls, |c|) && Recorded(m0, m, ls, mags)
    ensures ChangesRecorded(c, PatchAll(c, ls, mags), m0, m)
  {
    var c' := PatchAll(c, ls, mags);
    hide PatchAll, Add;
    forall r | 0 <= r < |c|
      ensures c'[r] != c[r] <==> exists i :: 0 <= i < |ls| && ls[i] == r && mags[i] != 0
    {
      PatchAllRow(c, ls, mags, r);
      if exists i :: 0 <= i < |ls| && ls[i] == r && mags[i] != 0 {
        var i :| 0 <= i < |ls| && ls[i] == r && mags[i] != 0;
        AddZeroOnly(c[r], mags[i]);
      }
      if r in ls {
        var i :| 0 <= i < |ls| && ls[i] == r;
        AddZeroOnly(c[r], mags[i]);
      }
    }
  }

  lemma AddZeroOnly(a: byte, b: byte)
    ensures Add(a, b) == a <==> b == 0
  {
    hide *;
    AddZero(a);
    AddCancel(b, a);
    AddCommutes(a, b);
    AddCommutes(b, a);
  }
}
