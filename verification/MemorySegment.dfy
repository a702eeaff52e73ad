/** The two entry points of the Reed-Solomon code: generate the parity of a segment, and check
    and correct a segment.
 */
module MemorySegments {
  import opened Bits
  import opened SectorMaps
  import opened GaloisField
  import opened GaloisTables
  import opened GaloisPowers
  import opened ReedSolomon
  import opened Erasures
  import opened Vandermonde
  import opened EccArithmetic
  import opened Words
  import opened Columns
  import opened ColumnDecoder
  import opened SegmentEcc

  datatype EccResult = EccOk | EccCorrected | EccFailed

  function Encoded(m: seq<byte>): seq<byte> {
    var p := ParityOf(m);
    m + [p.p0, p.p1, p.p2]
  }

  // ----- progress of the corrector through the columns -----

  /** Column c of mem is the one code word that the column of m0 can be brought back to. */
  ghost predicate Repaired(m0: seq<byte>, mem: seq<byte>, n: int, bad: seq<int>, c: int)
    requires Holds(m0, n) && Holds(mem, n) && 0 <= c < SECTOR_SIZE
  {
    && Correctable(Column(mem, n, c), Column(m0, n, c), bad)
    && forall v :: Correctable(v, Column(m0, n, c), bad) ==> Column(mem, n, c) == v
  }

  /** The columns below col are repaired, the others are as they were. */
  ghost predicate Progress(m0: seq<byte>, mem: seq<byte>, n: int, bad: seq<int>, col: int)
    requires Holds(m0, n) && 0 <= col <= SECTOR_SIZE
  {
    && |mem| == |m0| && mem[SECTOR_SIZE * n..] == m0[SECTOR_SIZE * n..]
    && (forall c :: 0 <= c < col ==> Repaired(m0, mem, n, bad, c))
    && (forall c :: col <= c < SECTOR_SIZE ==> Column(mem, n, c) == Column(m0, n, c))
  }

  /** The map names exactly the blocks changed so far. */
  ghost predicate MapExact(m0: seq<byte>, mem: seq<byte>, n: int, flags: SectorMap, col: int)
    requires Holds(m0, n) && |mem| == |m0| && 0 <= col <= SECTOR_SIZE
  {
    forall r :: 0 <= r < 32 ==> (flags[r] <==> r < n && RowDiffers(m0, mem, n, r, col))
  }

  lemma ProgressStart(m0: seq<byte>, n: int, bad: seq<int>, col: int)
    requires Holds(m0, n) && n <= 32 && 0 <= col <= SECTOR_SIZE && Rows(bad, n)
    requires forall c :: 0 <= c < col ==> Syndromes(Column(m0, n, c)) == NO_ERROR
    ensures Progress(m0, m0, n, bad, col) && MapExact(m0, m0, n, NO_SECTORS, col)
  {
    hide Column, Syndromes;
    forall c, v | 0 <= c < col && Correctable(v, Column(m0, n, c), bad)
      ensures Column(m0, n, c) == v
    {
      CorrectableUnique(v, Column(m0, n, c), bad);
    }
  }

  /** A column that already is a code word can only be brought back to itself. */
  lemma CorrectableUnique(v: seq<byte>, c: seq<byte>, bad: seq<int>)
    requires Correctable(v, c, bad) && Syndromes(c) == NO_ERROR && |c| <= 32 && Rows(bad, |c|)
    ensures v == c
  {
    hide Syndromes;
    if v != c {
      if |bad| <= 3 && AgreeOutside(v, c, bad) {
        DistanceFour(v, c, bad);
      } else if |bad| == 0 {
        var l :| 0 <= l < |c| && AgreeOutside(v, c, [l]);
        DistanceFour(v, c, [l]);
      } else {
        var l :| 0 <= l < |c| && l != bad[0] && AgreeOutside(v, c, [bad[0], l]);
        DistanceFour(v, c, [bad[0], l]);
      }
    }
  }

  /** One more column is repaired, whether it had to be changed or not. */
  lemma ProgressNext(m0: seq<byte>, mem: seq<byte>, mem': seq<byte>, n: int, bad: seq<int>, col: int,
                     flags: SectorMap, flags': SectorMap)
    requires Holds(m0, n) && n <= 32 && 0 <= col < SECTOR_SIZE
    requires Progress(m0, mem, n, bad, col) && MapExact(m0, mem, n, flags, col)
    requires OnlyColumn(mem, mem', n, col) && Repaired(m0, mem', n, bad, col)
    requires ChangesRecorded(Column(mem, n, col), Column(mem', n, col), flags, flags')
    ensures Progress(m0, mem', n, bad, col + 1) && MapExact(m0, mem', n, flags', col + 1)
  {
    hide Column, Syndromes;
    forall c | 0 <= c < col
      ensures Repaired(m0, mem', n, bad, c)
    {
      assert Repaired(m0, mem, n, bad, c);
      assert Column(mem', n, c) == Column(mem, n, c);
    }
    forall r | 0 <= r < n
      ensures RowDiffers(m0, mem', n, r, col + 1) <==>
                RowDiffers(m0, mem, n, r, col) || Column(mem', n, col)[r] != Column(mem, n, col)[r]
    {
      DiffersNext(m0, mem, mem', n, r, col);
    }
  }

  lemma DiffersNext(m0: seq<byte>, mem: seq<byte>, mem': seq<byte>, n: int, r: int, col: int)
    requires Holds(m0, n) && |mem| == |m0| && 0 <= col < SECTOR_SIZE && 0 <= r < n
    requires OnlyColumn(mem, mem', n, col) && Column(mem, n, col) == Column(m0, n, col)
    ensures RowDiffers(m0, mem', n, r, col + 1) <==>
              RowDiffers(m0, mem, n, r, col) || Column(mem', n, col)[r] != Column(mem, n, col)[r]
  {
    hide Column;
    if RowDiffers(m0, mem', n, r, col + 1) {
      var c :| 0 <= c < col + 1 && Column(m0, n, c)[r] != Column(mem', n, c)[r];
      if c < col {
        assert Column(mem', n, c) == Column(mem, n, c);
      }
    }
    if RowDiffers(m0, mem, n, r, col) {
      var c :| 0 <= c < col && Column(m0, n, c)[r] != Column(mem, n, c)[r];
      assert Column(mem', n, c) == Column(mem, n, c);
    }
  }

  /** The same for the map alone. */
  lemma MapNext(m0: seq<byte>, mem: seq<byte>, mem': seq<byte>, n: int, col: int, flags: SectorMap, flags': SectorMap)
    requires Holds(m0, n) && n <= 32 && 0 <= col < SECTOR_SIZE && |mem| == |m0| && MapExact(m0, mem, n, flags, col)
    requires OnlyColumn(mem, mem', n, col) && Column(mem, n, col) == Column(m0, n, col)
    requires ChangesRecorded(Column(mem, n, col), Column(mem', n, col), flags, flags')
    ensures |mem'| == |m0| && MapExact(m0, mem', n, flags', col + 1)
  {
    hide Column;
    forall r | 0 <= r < n
      ensures RowDiffers(m0, mem', n, r, col + 1) <==>
                RowDiffers(m0, mem, n, r, col) || Column(mem', n, col)[r] != Column(mem, n, col)[r]
    {
      DiffersNext(m0, mem, mem', n, r, col);
    }
  }

  /** The correction stopped at column c, the first one that cannot be brought back: the columns before it are
      restored, those behind it are as they were, and this one is not a code word. */
  ghost predicate GaveUp(m0: seq<byte>, mem: seq<byte>, n: int, bad: seq<int>, c: int)
    requires Holds(m0, n)
  {
    && 0 <= c < SECTOR_SIZE && |mem| == |m0| && mem[SECTOR_SIZE * n..] == m0[SECTOR_SIZE * n..]
    && (forall d :: 0 <= d < c ==> Repaired(m0, mem, n, bad, d))
    && (forall d :: c < d < SECTOR_SIZE ==> Column(mem, n, d) == Column(m0, n, d))
    && Syndromes(Column(mem, n, c)) != NO_ERROR
    && (forall v :: !Correctable(v, Column(m0, n, c), bad))
    && (|bad| > 3 ==> mem == m0)
  }

  lemma GivesUp(m0: seq<byte>, mem: seq<byte>, mem': seq<byte>, n: int, bad: seq<int>, c: int)
    requires Holds(m0, n) && 0 <= c < SECTOR_SIZE && Progress(m0, mem, n, bad, c) && OnlyColumn(mem, mem', n, c)
    requires Syndromes(Column(mem', n, c)) != NO_ERROR && forall v :: !Correctable(v, Column(m0, n, c), bad)
    requires |bad| > 3 ==> mem' == m0
    ensures GaveUp(m0, mem', n, bad, c)
  {
    hide Column, Syndromes, Correctable;
    forall d | 0 <= d < c
      ensures Repaired(m0, mem', n, bad, d)
    {
      assert Repaired(m0, mem, n, bad, d);
      assert Column(mem', n, d) == Column(mem, n, d);
    }
  }

  /** There is a segment that this one stands for. */
  ghost predicate Restorable(mem: seq<byte>, n: int, bad: seq<int>)
    requires Holds(mem, n)
  {
    exists orig :: CorrectableSegment(orig, mem, n, bad)
  }

  lemma RestorableBy(orig: seq<byte>, mem: seq<byte>, n: int, bad: seq<int>)
    requires Holds(mem, n) && CorrectableSegment(orig, mem, n, bad)
    ensures Restorable(mem, n, bad)
  {}

  /** The segment cannot be restored then, and is not valid. */
  lemma GaveUpMeans(m0: seq<byte>, mem: seq<byte>, n: int, bad: seq<int>, c: int)
    requires Holds(m0, n) && GaveUp(m0, mem, n, bad, c)
    ensures !ValidSegment(mem, n) && !Restorable(m0, n, bad)
    ensures forall orig :: !CorrectableSegment(orig, m0, n, bad)
  {
    WrongColumn(mem, n, c);
    NotCorrectable(m0, n, bad, c, Column(m0, n, c));
  }

  // ----- the segment object -----

  /** struct memory_segment: a packed segment and the CRC errors met while reading it. */
  class MemorySegment {
    var readBad: SectorMap
    var blocks: int
    var data: array<byte>
    var corrected: SectorMap

    constructor (readBad: SectorMap, blocks: int, data: array<byte>)
      ensures this.readBad == readBad && this.blocks == blocks && this.data == data
      ensures corrected == NO_SECTORS
    {
      this.readBad, this.blocks, this.data, this.corrected := readBad, blocks, data, NO_SECTORS;
    }

    /** At least one data block and the three parity blocks, all within the buffer. */
    ghost predicate Valid()
      reads this, data
    {
      4 <= blocks <= 32 && Holds(data[..], blocks)
    }

    ghost function Flagged(): seq<int>
      reads this
      requires 4 <= blocks <= 32
    {
      FlaggedRows(readBad, blocks)
    }

    /** The erasure locations, or failure if there are more than three. */
    method FindErasures() returns (ok: bool, bad: seq<int>)
      requires Valid()
      ensures ok <==> |Flagged()| <= 3
      ensures ok ==> bad == Flagged()
    {
      hide FlaggedRows;
      bad := [];
      NoneFlagged(blocks);
      if readBad == NO_SECTORS {
        ok := true;
        return;
      }
      var i := 0;
      FlaggedUnfold(readBad, 1);
      while i < blocks
        invariant 0 <= i <= blocks && |bad| <= 3
        invariant bad == FlaggedRows(readBad, i)
      {
        FlaggedUnfold(readBad, i + 1);
        if readBad[i] {
          if |bad| >= 3 {
            ok := false;
            FlaggedGrows(readBad, i + 1, blocks);
            return;
          }
          bad := bad + [i];
        }
        i := i + 1;
      }
      ok := true;
    }

    /** ftape_ecc_correct_data */
    method CorrectData(w: int) returns (result: EccResult, ghost at: int)
      requires Valid() && IsLongSize(w)
      modifies data, this`corrected
      ensures result == EccOk ==> data[..] == old(data[..]) && ValidSegment(old(data[..]), blocks)
      ensures result == EccCorrected ==> !ValidSegment(old(data[..]), blocks)
      ensures result != EccFailed <==> ValidSegment(data[..], blocks)
      ensures result != EccFailed ==> CorrectableSegment(data[..], old(data[..]), blocks, Flagged())
      ensures result != EccFailed ==> data[SECTOR_SIZE * blocks..] == old(data[SECTOR_SIZE * blocks..])
      ensures result != EccFailed ==> MapExact(old(data[..]), data[..], blocks, corrected, SECTOR_SIZE)
      ensures result == EccFailed ==>
                && GaveUp(old(data[..]), data[..], blocks, Flagged(), at)
                && MapExact(old(data[..]), data[..], blocks, corrected, at + 1)
      ensures forall orig :: CorrectableSegment(orig, old(data[..]), blocks, Flagged()) ==>
                result != EccFailed && data[..] == orig
    {
      hide Column, Syndromes, Correctable, HoldSyndromes, NoSyndromes, Progress, MapExact, Solves, Rows,
           FlaggedRows, Ascending;
      ghost var m0 := data[..];
      ghost var flagged := Flagged();
      FlaggedRowsExact(readBad, blocks);
      corrected := NO_SECTORS;
      at := SECTOR_SIZE;
      var col, zero, s0, s1, s2 := 0, true, 0, 0, 0;
      while col < SECTOR_SIZE && zero
        invariant 0 <= col <= SECTOR_SIZE && (col == SECTOR_SIZE || col + w <= SECTOR_SIZE) && col % w == 0
        invariant data[..] == m0 && corrected == NO_SECTORS
        invariant forall c :: 0 <= c < col ==> Syndromes(Column(m0, blocks, c)) == NO_ERROR
        invariant !zero ==> col < SECTOR_SIZE && HoldSyndromes(m0, blocks, col, w, s0, s1, s2)
                            && !NoSyndromes(m0, blocks, col, w)
        decreases SECTOR_SIZE - col, zero
      {
        zero, s0, s1, s2 := ComputeSyndromes(data, col, blocks, w);
        if zero {
          ColumnsDone(m0, blocks, col, w);
          NextWord(col, w);
          col := col + w;
        }
      }
      ProgressStart(m0, blocks, flagged, col);
      if col >= SECTOR_SIZE {
        RestoredAll(m0, m0, blocks, flagged);
        return EccOk, at;
      }
      NotValid(m0, blocks, col, w);
      var ok, bad := FindErasures();
      if !ok {
        at := TooManyFlagged(m0, blocks, flagged, col, w);
        GaveUpMeans(m0, m0, blocks, flagged, at);
        return EccFailed, at;
      }
      var ainv := InvertFor(bad, blocks);
      var ncorrected := 0;
      while col < SECTOR_SIZE
        invariant 0 <= col <= SECTOR_SIZE && (col == SECTOR_SIZE || col + w <= SECTOR_SIZE) && col % w == 0
        invariant Holds(data[..], blocks)
        invariant Progress(m0, data[..], blocks, bad, col)
        invariant MapExact(m0, data[..], blocks, corrected, col)
        invariant col < SECTOR_SIZE ==> HoldSyndromes(data[..], blocks, col, w, s0, s1, s2)
        invariant col < SECTOR_SIZE ==> !NoSyndromes(data[..], blocks, col, w)
        invariant ncorrected >= 0 && (col == SECTOR_SIZE ==> ncorrected > 0)
      {
        var repaired, n;
        repaired, n, at := CorrectWord(col, w, bad, ainv, s0, s1, s2, m0);
        if !repaired {
          GaveUpMeans(m0, data[..], blocks, bad, at);
          return EccFailed, at;
        }
        ncorrected := ncorrected + n;
        NextWord(col, w);
        col := col + w;
        zero := true;
        while col < SECTOR_SIZE && zero
          invariant 0 <= col <= SECTOR_SIZE && (col == SECTOR_SIZE || col + w <= SECTOR_SIZE) && col % w == 0
          invariant Holds(data[..], blocks)
          invariant Progress(m0, data[..], blocks, bad, col)
          invariant MapExact(m0, data[..], blocks, corrected, col)
          invariant !zero ==> col < SECTOR_SIZE && HoldSyndromes(data[..], blocks, col, w, s0, s1, s2)
          invariant !zero ==> !NoSyndromes(data[..], blocks, col, w)
          decreases SECTOR_SIZE - col, zero
        {
          zero, s0, s1, s2 := ComputeSyndromes(data, col, blocks, w);
          if zero {
            SkipWord(m0, data[..], blocks, bad, col, w, corrected);
            NextWord(col, w);
            col := col + w;
          }
        }
      }
      RestoredAll(m0, data[..], blocks, bad);
      result := if ncorrected != 0 then EccCorrected else EccOk;
    }

    /** The columns of one long: each one with a non-zero syndrome is corrected. */
    method CorrectWord(col: int, w: int, bad: seq<int>, ainv: Matrix, ss0: nat, ss1: nat, ss2: nat, ghost m0: seq<byte>)
      returns (ok: bool, ncorrected: int, ghost at: int)
      requires 4 <= blocks <= 32 && Holds(m0, blocks) && |m0| == data.Length
      requires IsLongSize(w) && 0 <= col && col + w <= SECTOR_SIZE
      requires |bad| <= 3 && Rows(bad, blocks) && (|bad| >= 2 ==> Solves(ainv, bad))
      requires Progress(m0, data[..], blocks, bad, col) && MapExact(m0, data[..], blocks, corrected, col)
      requires HoldSyndromes(data[..], blocks, col, w, ss0, ss1, ss2) && !NoSyndromes(data[..], blocks, col, w)
      modifies data, this`corrected
      ensures ok ==> Progress(m0, data[..], blocks, bad, col + w) && MapExact(m0, data[..], blocks, corrected, col + w)
      ensures ok ==> ncorrected > 0
      ensures !ok ==> GaveUp(m0, data[..], blocks, bad, at) && MapExact(m0, data[..], blocks, corrected, at + 1)
    {
      hide Column, Syndromes, Correctable, Progress, MapExact, Solves, Rows, NoSyndromes, OnlyColumn,
           ChangesRecorded, Repaired;
      ghost var mem0 := data[..];
      var s0, s1, s2 := ss0, ss1, ss2;
      ok, ncorrected, at := true, 0, col;
      var i := 0;
      NoSyndromesNone(mem0, blocks, col);
      while i < w
        invariant 0 <= i <= w && 0 <= ncorrected
        invariant Progress(m0, data[..], blocks, bad, col + i) && MapExact(m0, data[..], blocks, corrected, col + i)
        invariant HoldSyndromes(data[..], blocks, col + i, w - i, s0, s1, s2)
        invariant ncorrected == 0 ==> data[..] == mem0 && NoSyndromes(mem0, blocks, col, i)
      {
        ghost var mem := data[..];
        ghost var c := Column(mem, blocks, col + i);
        ghost var flags := corrected;
        var s: Triple := [s0 % 256, s1 % 256, s2 % 256];
        FirstLane(mem, blocks, col + i, w - i, s0, s1, s2);
        ProgressColumn(m0, mem, blocks, bad, col + i);
        if s != NO_ERROR {
          var n, m := CorrectBlock(data, col + i, blocks, bad, ainv, s, corrected);
          corrected := m;
          if n < 0 {
            ok, at := false, col + i;
            GivesUp(m0, mem, data[..], blocks, bad, at);
            MapNext(m0, mem, data[..], blocks, at, flags, m);
            return;
          }
          ncorrected := ncorrected + n;
          CorrectedColumn(m0, mem, data[..], blocks, bad, col + i);
        } else {
          CleanColumn(m0, mem, blocks, bad, col + i, corrected);
          if ncorrected == 0 {
            NoSyndromesNext(mem0, blocks, col, i);
          }
        }
        ProgressNext(m0, mem, data[..], blocks, bad, col + i, flags, corrected);
        NextLane(mem, data[..], blocks, col + i, w - i, s0, s1, s2);
        s0, s1, s2 := s0 / 256, s1 / 256, s2 / 256;
        i := i + 1;
      }
    }

    /** ftape_ecc_set_segment_parity */
    method SetSegmentParity(w: int)
      requires Valid() && IsLongSize(w)
      modifies data
      ensures data[..SECTOR_SIZE * (blocks - 3)] == old(data[..SECTOR_SIZE * (blocks - 3)])
      ensures data[SECTOR_SIZE * blocks..] == old(data[SECTOR_SIZE * blocks..])
      ensures forall c :: 0 <= c < SECTOR_SIZE ==>
                Column(data[..], blocks, c) == Encoded(Column(old(data[..]), blocks - 3, c))
      ensures ValidSegment(data[..], blocks)
    {
      hide Column, Syndromes, ParityOf, Lane, HoldParity, ParityStored, Stored;
      ghost var m0 := data[..];
      var n := blocks - 3;
      var base := SECTOR_SIZE * n;
      var i := 0;
      ParityStoredNone(m0, n);
      while i < SECTOR_SIZE
        invariant 0 <= i <= SECTOR_SIZE && (i == SECTOR_SIZE || i + w <= SECTOR_SIZE) && i % w == 0
        invariant ParityStored(m0, data[..], n, i)
      {
        ghost var mem := data[..];
        var p0, p1, p2 := SetParity(data, i, n, w);
        StoreLong(data, base + i, p0, w);
        StoreLong(data, base + SECTOR_SIZE + i, p1, w);
        StoreLong(data, base + 2 * SECTOR_SIZE + i, p2, w);
        ParityStoredNext(m0, mem, data[..], n, i, w, p0, p1, p2);
        NextWord(i, w);
        i := i + w;
      }
      ParityStoredAll(m0, data[..], n);
      forall c | 0 <= c < SECTOR_SIZE
        ensures Syndromes(Column(data[..], blocks, c)) == NO_ERROR
      {
        EncodedIsCodeword(Column(m0, n, c));
      }
    }
  }

  /** Stores a long as w bytes. */
  method StoreLong(data: array<byte>, off: int, x: nat, w: int)
    requires IsLongSize(w) && 0 <= off && off + w <= data.Length
    modifies data
    ensures data[..] == Stored(old(data[..]), off, x, w)
  {
    hide Lane;
    forall k | 0 <= k < w {
      data[off + k] := Lane(x, k);
    }
  }

  function Stored(mem: seq<byte>, off: int, x: nat, w: int): (mem': seq<byte>)
    requires 0 <= off && 0 <= w && off + w <= |mem|
    ensures |mem'| == |mem|
  {
    seq(|mem|, k requires 0 <= k < |mem| => StoredByte(mem, off, x, w, k))
  }

  function StoredByte(mem: seq<byte>, off: int, x: nat, w: int, k: int): byte
    requires 0 <= k < |mem|
  {
    if off <= k < off + w then Lane(x, k - off) else mem[k]
  }

  /** The parity blocks are filled in for the columns below i, and nothing else changed. */
  ghost predicate ParityStored(m0: seq<byte>, mem: seq<byte>, n: int, i: int)
    requires 0 <= n && Holds(m0, n + 3) && 0 <= i <= SECTOR_SIZE
  {
    var base := SECTOR_SIZE * n;
    && |mem| == |m0|
    && (forall x :: 0 <= x < base || base + 3 * SECTOR_SIZE <= x < |m0| ==> mem[x] == m0[x])
    && (forall x :: base <= x < base + i ==> mem[x] == ParityOf(Column(m0, n, x - base)).p0)
    && (forall x :: base + SECTOR_SIZE <= x < base + SECTOR_SIZE + i ==>
          mem[x] == ParityOf(Column(m0, n, x - base - SECTOR_SIZE)).p1)
    && (forall x :: base + 2 * SECTOR_SIZE <= x < base + 2 * SECTOR_SIZE + i ==>
          mem[x] == ParityOf(Column(m0, n, x - base - 2 * SECTOR_SIZE)).p2)
  }

  lemma ParityStoredNone(m0: seq<byte>, n: int)
    requires 0 <= n && Holds(m0, n + 3)
    ensures ParityStored(m0, m0, n, 0)
  {}

  lemma ParityStoredNext(m0: seq<byte>, mem: seq<byte>, mem': seq<byte>, n: int, i: int, w: int, p0: nat,
                         p1: nat, p2: nat)
    requires 0 <= n && Holds(m0, n + 3) && 0 <= i && 0 <= w && i + w <= SECTOR_SIZE
    requires ParityStored(m0, mem, n, i) && HoldParity(mem, n, i, w, p0, p1, p2)
    requires var base := SECTOR_SIZE * n;
             mem' == Stored(Stored(Stored(mem, base + i, p0, w), base + SECTOR_SIZE + i, p1, w),
                            base + 2 * SECTOR_SIZE + i, p2, w)
    ensures ParityStored(m0, mem', n, i + w)
  {
    hide Column, ParityOf, Lane, HoldParity;
    ParityOfData(m0, mem, n, i, w, p0, p1, p2);
  }

  lemma ParityStoredAll(m0: seq<byte>, mem: seq<byte>, n: int)
    requires 0 <= n && Holds(m0, n + 3) && ParityStored(m0, mem, n, SECTOR_SIZE)
    ensures |mem| == |m0|
    ensures mem[..SECTOR_SIZE * n] == m0[..SECTOR_SIZE * n]
    ensures mem[SECTOR_SIZE * (n + 3)..] == m0[SECTOR_SIZE * (n + 3)..]
    ensures forall c :: 0 <= c < SECTOR_SIZE ==> Column(mem, n + 3, c) == Encoded(Column(m0, n, c))
  {
    hide Column, ParityOf, Encoded;
    forall c | 0 <= c < SECTOR_SIZE
      ensures Column(mem, n + 3, c) == Encoded(Column(m0, n, c))
    {
      ParityRows(m0, mem, n, c);
    }
  }

  /** The registers computed from data, in terms of the original contents. */
  lemma ParityOfData(m0: seq<byte>, mem: seq<byte>, n: int, col: int, w: int, p0: nat, p1: nat, p2: nat)
    requires Holds(m0, n) && |mem| == |m0| && 0 <= col && 0 <= w && col + w <= SECTOR_SIZE
    requires forall x :: 0 <= x < SECTOR_SIZE * n ==> mem[x] == m0[x]
    requires HoldParity(mem, n, col, w, p0, p1, p2)
    ensures forall k :: 0 <= k < w ==> LaneParity(p0, p1, p2, k) == ParityOf(Column(m0, n, col + k))
    ensures forall k :: 0 <= k < w ==> Lane(p0, k) == ParityOf(Column(m0, n, col + k)).p0
    ensures forall k :: 0 <= k < w ==> Lane(p1, k) == ParityOf(Column(m0, n, col + k)).p1
    ensures forall k :: 0 <= k < w ==> Lane(p2, k) == ParityOf(Column(m0, n, col + k)).p2
  {
    hide ParityOf, Lane, Fits;
    forall k | 0 <= k < w
      ensures LaneParity(p0, p1, p2, k) == ParityOf(Column(m0, n, col + k))
      ensures Lane(p0, k) == ParityOf(Column(m0, n, col + k)).p0
      ensures Lane(p1, k) == ParityOf(Column(m0, n, col + k)).p1
      ensures Lane(p2, k) == ParityOf(Column(m0, n, col + k)).p2
    {
      assert Column(mem, n, col + k) == Column(m0, n, col + k);
      assert LaneParity(p0, p1, p2, k) == ParityOf(Column(mem, n, col + k));
    }
  }

  lemma ParityRows(m0: seq<byte>, mem: seq<byte>, n: int, c: int)
    requires Holds(m0, n + 3) && 0 <= n && |mem| == |m0| && 0 <= c < SECTOR_SIZE
    requires forall x :: 0 <= x < SECTOR_SIZE * n ==> mem[x] == m0[x]
    requires mem[SECTOR_SIZE * n + c] == ParityOf(Column(m0, n, c)).p0
    requires mem[SECTOR_SIZE * n + SECTOR_SIZE + c] == ParityOf(Column(m0, n, c)).p1
    requires mem[SECTOR_SIZE * n + 2 * SECTOR_SIZE + c] == ParityOf(Column(m0, n, c)).p2
    ensures Column(mem, n + 3, c) == Encoded(Column(m0, n, c))
  {
    hide ParityOf;
    var p := ParityOf(Column(m0, n, c));
    assert Column(mem, n, c) == Column(m0, n, c);
    hide Column;
    ColumnNext(mem, n, c);
    ColumnNext(mem, n + 1, c);
    ColumnNext(mem, n + 2, c);
    assert Column(mem, n + 3, c) == Column(m0, n, c) + [p.p0] + [p.p1] + [p.p2];
  }

  /** The inverse needed for the flagged rows, if there are at least two. */
  method InvertFor(bad: seq<int>, n: nat) returns (ainv: Matrix)
    requires n <= 32 && |bad| <= 3 && Rows(bad, n) && Ascending(bad)
    ensures |bad| >= 2 ==> Solves(ainv, bad)
  {
    hide Solves;
    ainv := [NO_ERROR, NO_ERROR, NO_ERROR];
    var ok := true;
    if |bad| == 2 {
      ok, ainv := GfInv2(bad[0], bad[1]);
      assert bad == [bad[0], bad[1]];
    } else if |bad| == 3 {
      ok, ainv := GfInv3(bad[0], bad[1], bad[2]);
      assert bad == [bad[0], bad[1], bad[2]];
    }
  }

  // ----- steps of the correction loop -----

  lemma FirstLane(mem: seq<byte>, n: int, col: int, w: int, s0: nat, s1: nat, s2: nat)
    requires Holds(mem, n) && 0 <= col && 0 < w && col + w <= SECTOR_SIZE
    requires HoldSyndromes(mem, n, col, w, s0, s1, s2)
    ensures [s0 % 256, s1 % 256, s2 % 256] == Syndromes(Column(mem, n, col))
  {
    hide Column, Syndromes;
    assert Lane(s0, 0) == s0 % 256 && Lane(s1, 0) == s1 % 256 && Lane(s2, 0) == s2 % 256;
    assert col + 0 == col;
  }

  lemma NextLane(mem: seq<byte>, mem': seq<byte>, n: int, col: int, w: int, s0: nat, s1: nat, s2: nat)
    requires Holds(mem, n) && 0 <= col && 0 < w && col + w <= SECTOR_SIZE
    requires HoldSyndromes(mem, n, col, w, s0, s1, s2) && OnlyColumn(mem, mem', n, col)
    ensures HoldSyndromes(mem', n, col + 1, w - 1, s0 / 256, s1 / 256, s2 / 256)
  {
    hide Column, Syndromes;
    forall k | 0 <= k < w - 1
      ensures [Lane(s0 / 256, k), Lane(s1 / 256, k), Lane(s2 / 256, k)] == Syndromes(Column(mem', n, col + 1 + k))
    {
      assert [Lane(s0, k + 1), Lane(s1, k + 1), Lane(s2, k + 1)] == Syndromes(Column(mem, n, col + (k + 1)));
    }
  }

  lemma ProgressColumn(m0: seq<byte>, mem: seq<byte>, n: int, bad: seq<int>, col: int)
    requires Holds(m0, n) && 0 <= col < SECTOR_SIZE && Progress(m0, mem, n, bad, col)
    ensures |mem| == |m0| && Column(mem, n, col) == Column(m0, n, col)
  {
    hide Column, Repaired;
  }

  lemma CorrectedColumn(m0: seq<byte>, mem: seq<byte>, mem': seq<byte>, n: int, bad: seq<int>, col: int)
    requires Holds(m0, n) && |mem| == |m0| && |mem'| == |m0| && 0 <= col < SECTOR_SIZE
    requires Column(mem, n, col) == Column(m0, n, col)
    requires Correctable(Column(mem', n, col), Column(mem, n, col), bad)
    requires forall v :: Correctable(v, Column(mem, n, col), bad) ==> Column(mem', n, col) == v
    ensures Repaired(m0, mem', n, bad, col)
  {
    hide Column, Syndromes, Correctable;
  }

  lemma CleanColumn(m0: seq<byte>, mem: seq<byte>, n: int, bad: seq<int>, col: int, flags: SectorMap)
    requires Holds(m0, n) && n <= 32 && |mem| == |m0| && 0 <= col < SECTOR_SIZE && Rows(bad, n)
    requires Column(mem, n, col) == Column(m0, n, col) && Syndromes(Column(mem, n, col)) == NO_ERROR
    ensures Repaired(m0, mem, n, bad, col) && OnlyColumn(mem, mem, n, col)
    ensures ChangesRecorded(Column(mem, n, col), Column(mem, n, col), flags, flags)
  {
    hide Column, Syndromes;
    forall v | Correctable(v, Column(m0, n, col), bad)
      ensures Column(mem, n, col) == v
    {
      CorrectableUnique(v, Column(m0, n, col), bad);
    }
  }

  lemma WrongColumn(mem: seq<byte>, n: int, c: int)
    requires Holds(mem, n) && 0 <= c < SECTOR_SIZE && Syndromes(Column(mem, n, c)) != NO_ERROR
    ensures !ValidSegment(mem, n)
  {
    hide Column, Syndromes;
  }

  lemma NotCorrectable(m0: seq<byte>, n: int, bad: seq<int>, col: int, c: seq<byte>)
    requires Holds(m0, n) && 0 <= col < SECTOR_SIZE && c == Column(m0, n, col)
    requires forall v :: !Correctable(v, c, bad)
    ensures forall orig :: !CorrectableSegment(orig, m0, n, bad)
  {
    hide Column, Correctable;
  }

  lemma NoSyndromesNone(mem: seq<byte>, n: int, col: int)
    requires Holds(mem, n) && 0 <= col <= SECTOR_SIZE
    ensures NoSyndromes(mem, n, col, 0)
  {}

  lemma NoSyndromesNext(mem: seq<byte>, n: int, col: int, i: int)
    requires Holds(mem, n) && 0 <= col && 0 <= i && col + i < SECTOR_SIZE && NoSyndromes(mem, n, col, i)
    requires Syndromes(Column(mem, n, col + i)) == NO_ERROR
    ensures NoSyndromes(mem, n, col, i + 1)
  {
    hide Column, Syndromes;
  }

  /** A long whose columns are all clean is passed over. */
  lemma SkipWord(m0: seq<byte>, mem: seq<byte>, n: int, bad: seq<int>, col: int, w: int, flags: SectorMap)
    requires Holds(m0, n) && n <= 32 && |mem| == |m0| && 0 <= col && 0 <= w && col + w <= SECTOR_SIZE && Rows(bad, n)
    requires Progress(m0, mem, n, bad, col) && MapExact(m0, mem, n, flags, col) && NoSyndromes(mem, n, col, w)
    ensures Progress(m0, mem, n, bad, col + w) && MapExact(m0, mem, n, flags, col + w)
    decreases w
  {
    hide Column, Syndromes, Progress, MapExact, Repaired, OnlyColumn, ChangesRecorded, Rows;
    if w > 0 {
      assert NoSyndromes(mem, n, col, w - 1);
      SkipWord(m0, mem, n, bad, col, w - 1, flags);
      ProgressColumn(m0, mem, n, bad, col + w - 1);
      CleanColumn(m0, mem, n, bad, col + w - 1, flags);
      ProgressNext(m0, mem, mem, n, bad, col + w - 1, flags, flags);
    }
  }

  lemma {:induction false} NoneFlagged(n: int)
    requires 0 <= n <= 32
    ensures FlaggedRows(NO_SECTORS, n) == []
  {
    if n == 0 {
    } else {
      NoneFlagged(n - 1);
    }
  }

  lemma {:induction false} FlaggedGrows(flags: SectorMap, k: int, n: int)
    requires 0 <= k <= n <= 32
    ensures |FlaggedRows(flags, k)| <= |FlaggedRows(flags, n)|
    decreases n - k
  {
    if k == n {
    } else {
      FlaggedUnfold(flags, n);
      hide FlaggedRows;
      FlaggedGrows(flags, k, n - 1);
    }
  }

  lemma FlaggedUnfold(flags: SectorMap, n: int)
    requires 0 < n <= 32
    ensures FlaggedRows(flags, n) == FlaggedRows(flags, n - 1) + (if flags[n - 1] then [n - 1] else [])
    ensures FlaggedRows(flags, 0) == []
  {}
  
  lemma NextWord(col: int, w: int)
    requires IsLongSize(w) && 0 <= col && col + w <= SECTOR_SIZE && col % w == 0
    ensures (col + w) % w == 0 && (col + w == SECTOR_SIZE || col + w + w <= SECTOR_SIZE)
  {}

  lemma ColumnsDone(m0: seq<byte>, n: int, col: int, w: int)
    requires Holds(m0, n) && 0 <= col && 0 <= w && col + w <= SECTOR_SIZE
    requires NoSyndromes(m0, n, col, w)
    ensures forall c :: col <= c < col + w ==> Syndromes(Column(m0, n, c)) == NO_ERROR
  {}

  lemma NotValid(m0: seq<byte>, n: int, col: int, w: int)
    requires Holds(m0, n) && 0 <= col && 0 <= w && col + w <= SECTOR_SIZE
    requires !NoSyndromes(m0, n, col, w)
    ensures !ValidSegment(m0, n)
  {
    hide Column, Syndromes;
  }

  /** All columns repaired: the segment is valid, and any segment it could stand for is restored. */
  lemma RestoredAll(m0: seq<byte>, mem: seq<byte>, n: int, bad: seq<int>)
    requires Holds(m0, n) && n <= 32 && Progress(m0, mem, n, bad, SECTOR_SIZE)
    ensures |mem| == |m0| && ValidSegment(mem, n) && mem[SECTOR_SIZE * n..] == m0[SECTOR_SIZE * n..]
    ensures CorrectableSegment(mem, m0, n, bad)
    ensures forall orig :: CorrectableSegment(orig, m0, n, bad) ==> mem == orig
  {
    hide Column, Syndromes, Correctable;
    forall c | 0 <= c < SECTOR_SIZE
      ensures Syndromes(Column(mem, n, c)) == NO_ERROR && Correctable(Column(mem, n, c), Column(m0, n, c), bad)
    {
      assert Repaired(m0, mem, n, bad, c);
      CorrectableIsCodeword(Column(mem, n, c), Column(m0, n, c), bad);
    }
    forall orig | CorrectableSegment(orig, m0, n, bad)
      ensures mem == orig
    {
      forall c | 0 <= c < SECTOR_SIZE
        ensures Column(mem, n, c) == Column(orig, n, c)
      {
        assert Repaired(m0, mem, n, bad, c);
      }
      SameColumns(mem, orig, n);
      assert mem == mem[..SECTOR_SIZE * n] + mem[SECTOR_SIZE * n..];
      assert orig == orig[..SECTOR_SIZE * n] + orig[SECTOR_SIZE * n..];
    }
  }

  /** With too many flagged blocks the first wrong column is given up. */
  lemma TooManyFlagged(m0: seq<byte>, n: int, bad: seq<int>, col: int, w: int) returns (c: int)
    requires Holds(m0, n) && n <= 32 && |bad| > 3 && Rows(bad, n) && 0 <= col && 0 <= w && col + w <= SECTOR_SIZE
    requires !NoSyndromes(m0, n, col, w)
    requires forall d :: 0 <= d < col ==> Syndromes(Column(m0, n, d)) == NO_ERROR
    ensures GaveUp(m0, m0, n, bad, c) && MapExact(m0, m0, n, NO_SECTORS, c + 1)
  {
    hide Column, Syndromes;
    c := FirstWrong(m0, n, col, w);
    ProgressStart(m0, n, bad, c);
    NothingChanged(m0, n, c);
    GivesUp(m0, m0, m0, n, bad, c);
  }

  lemma NothingChanged(m0: seq<byte>, n: int, c: int)
    requires Holds(m0, n) && 0 <= c < SECTOR_SIZE
    ensures OnlyColumn(m0, m0, n, c) && MapExact(m0, m0, n, NO_SECTORS, c + 1)
  {
    hide Column;
  }

  lemma FirstWrong(m0: seq<byte>, n: int, col: int, w: int) returns (c: int)
    requires Holds(m0, n) && 0 <= col && 0 <= w && col + w <= SECTOR_SIZE && !NoSyndromes(m0, n, col, w)
    ensures col <= c < col + w && Syndromes(Column(m0, n, c)) != NO_ERROR
    ensures forall d :: col <= d < c ==> Syndromes(Column(m0, n, d)) == NO_ERROR
  {
    hide Column, Syndromes;
    c := col;
    while Syndromes(Column(m0, n, c)) == NO_ERROR
      invariant col <= c < col + w
      invariant forall d :: col <= d < c ==> Syndromes(Column(m0, n, d)) == NO_ERROR
      decreases col + w - c
    {
      c := c + 1;
    }
  }

  // ----- what may happen to a valid segment on the tape -----

  /** All blocks that are not flagged hold what was written; the flagged ones may hold anything. */
  ghost predicate OnlyFlaggedWrong(orig: seq<byte>, mem: seq<byte>, n: int, bad: seq<int>)
    requires Holds(orig, n) && |mem| == |orig|
  {
    forall r, x :: 0 <= r < n && r !in bad && SECTOR_SIZE * r <= x < SECTOR_SIZE * (r + 1) ==> mem[x] == orig[x]
  }

  /** Up to three flagged blocks of a valid segment may be overwritten arbitrarily. */
  lemma ErasuresCorrectable(orig: seq<byte>, mem: seq<byte>, n: int, bad: seq<int>)
    requires Holds(orig, n) && |mem| == |orig| && mem[SECTOR_SIZE * n..] == orig[SECTOR_SIZE * n..]
    requires ValidSegment(orig, n) && |bad| <= 3 && OnlyFlaggedWrong(orig, mem, n, bad)
    ensures CorrectableSegment(orig, mem, n, bad)
  {
    hide Syndromes;
    forall c | 0 <= c < SECTOR_SIZE
      ensures AgreeOutside(Column(orig, n, c), Column(mem, n, c), bad)
    {
      forall r | 0 <= r < n && r !in bad
        ensures Column(orig, n, c)[r] == Column(mem, n, c)[r]
      {
        assert mem[SECTOR_SIZE * r + c] == orig[SECTOR_SIZE * r + c];
      }
    }
  }

  /** Outside the flagged blocks at most one byte of each column is wrong, in whatever row. */
  ghost predicate OneMoreWrong(orig: seq<byte>, mem: seq<byte>, n: int, bad: seq<int>)
    requires Holds(orig, n) && |mem| == |orig|
  {
    forall c, r, r' :: 0 <= c < SECTOR_SIZE && 0 <= r < r' < n && r !in bad && r' !in bad ==>
      Column(orig, n, c)[r] == Column(mem, n, c)[r] || Column(orig, n, c)[r'] == Column(mem, n, c)[r']
  }

  lemma NotBothWrong(orig: seq<byte>, mem: seq<byte>, n: int, bad: seq<int>, c: int, r: int, r': int)
    requires Holds(orig, n) && |mem| == |orig| && OneMoreWrong(orig, mem, n, bad) && 0 <= c < SECTOR_SIZE
    requires 0 <= r < n && 0 <= r' < n && r != r' && r !in bad && r' !in bad
    ensures Column(orig, n, c)[r] == Column(mem, n, c)[r] || Column(orig, n, c)[r'] == Column(mem, n, c)[r']
  {
    hide Column;
  }

  /** With at most one flagged block, one further wrong byte in every column is repaired too. */
  lemma FurtherErrorCorrectable(orig: seq<byte>, mem: seq<byte>, n: int, bad: seq<int>)
    requires Holds(orig, n) && |mem| == |orig| && mem[SECTOR_SIZE * n..] == orig[SECTOR_SIZE * n..]
    requires ValidSegment(orig, n) && |bad| <= 1 && Rows(bad, n) && OneMoreWrong(orig, mem, n, bad)
    ensures CorrectableSegment(orig, mem, n, bad)
  {
    hide Syndromes, Column;
    forall c | 0 <= c < SECTOR_SIZE
      ensures Correctable(Column(orig, n, c), Column(mem, n, c), bad)
    {
      var v, m := Column(orig, n, c), Column(mem, n, c);
      if !AgreeOutside(v, m, bad) {
        var l :| 0 <= l < |v| && l !in bad && v[l] != m[l];
        forall x | 0 <= x < n && x != l && x !in bad
          ensures v[x] == m[x]
        {
          NotBothWrong(orig, mem, n, bad, c, l, x);
        }
        if |bad| == 0 {
          assert AgreeOutside(v, m, [l]);
        } else {
          assert bad == [bad[0]];
          assert AgreeOutside(v, m, [bad[0], l]);
        }
      }
    }
  }
}
