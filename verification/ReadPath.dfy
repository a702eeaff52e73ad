/** From tape to user data (ftape_ecc_correct): a delivered buffer with up to three suspect blocks is
    brought back to what was written.
 */
module ReadPath {
  import opened Bits
  import opened SectorMaps
  import opened Columns
  import opened Erasures
  import opened MemorySegments
  import opened Words
  import opened Packing
  import opened SegmentTransfer
  import opened BufferRing
  import TapePosition

  /** Blocks one after the other. */
  function Flat(blocks: seq<Block>): (mem: seq<byte>)
    ensures |mem| == SECTOR_SIZE * |blocks|
    ensures forall k, c :: 0 <= k < |blocks| && 0 <= c < SECTOR_SIZE ==> mem[SECTOR_SIZE * k + c] == blocks[k][c]
  {
    if |blocks| == 0 then [] else Flat(blocks[..|blocks| - 1]) + blocks[|blocks| - 1]
  }

  /** The good sectors of a segment, in order. */
  ghost predicate Recorded(t: Segment, written: seq<Block>) {
    && |written| == GoodSectors(t.bad)
    && forall i: nat :: i < 32 && !t.bad[i] ==> Packed(t.bad, i) < |written| && written[Packed(t.bad, i)] == t.sector(i)
  }

  const EAGAIN := 11

  /** The result of ftape_ecc_correct for a segment of n blocks. */
  ghost predicate Restored(data: seq<byte>, result: int, written: seq<Block>) {
    var n := |written|;
    && result == SECTOR_SIZE * (n - 3)
    && SECTOR_SIZE * n <= |data| && data[..SECTOR_SIZE * n] == Flat(written)
  }

  /** ftape_ecc_correct.  The blocks of a segment that was written as a code word are restored whenever
      at most three of them are suspect.  failed says that the correction gave up, at column at; only then,
      and only if errors are to be ignored (ft_ignore_ecc_err), data is returned that is not a code word:
      the columns before that one are restored, those behind it are as they were read. */
  method EccCorrect(d: Delivery, w: int, ignoreEccErr: bool, ghost t: Segment, ghost written: seq<Block>)
    returns (data: array<byte>, result: int, failed: bool, ghost at: int)
    requires IsLongSize(w) && Faithful(d, t) && Recorded(t, written)
    requires |written| >= 4 ==> ValidSegment(Flat(written), |written|)
    ensures fresh(data) && (result > 0 ==> Holds(data[..], result / SECTOR_SIZE + 3))
    ensures result > 0 ==> (ValidSegment(data[..], result / SECTOR_SIZE + 3) <==> !failed)
    ensures result == if |written| <= 3 || d.bytes == 0 then 0
                      else if failed && !ignoreEccErr then -EAGAIN
                      else SECTOR_SIZE * (|written| - 3)
    ensures |written| <= 3 || d.bytes == 0 ==> data[..] == Flat(d.blocks)
    ensures failed <==>
              && |written| >= 4 && d.bytes > 0
              && !Restorable(Flat(d.blocks), |written|, FlaggedRows(d.suspect, |written|))
    ensures failed ==>
              && |FlaggedRows(d.suspect, |written|)| > 3
              && GaveUp(Flat(d.blocks), data[..], |written|, FlaggedRows(d.suspect, |written|), at)
    ensures |written| >= 4 && d.bytes > 0 && |FlaggedRows(d.suspect, |written|)| <= 3 ==>
              Restored(data[..], result, written)
  {
    hide ValidSegment, FlaggedRows, Packed, Unusable, CountOnes, GaveUp, CorrectableSegment, MapExact, Restorable;
    var mem := Flat(d.blocks);
    data := new byte[32 * 1024](i requires 0 <= i < 32 * 1024 => mem[i]);
    assert data[..] == mem;
    var blocks := d.bytes / SECTOR_SIZE;
    BlockCount(d, t, written);
    failed := false;
    if blocks <= 3 {
      return data, 0, false, 0;
    }
    var mseg := new MemorySegment(d.suspect, blocks, data);
    var ecc;
    ecc, at := mseg.CorrectData(w);
    ghost var flagged := FlaggedRows(d.suspect, |written|);
    assert blocks == |written| && mseg.Flagged() == flagged;
    if ecc == EccFailed {
      GaveUpMeans(mem, data[..], blocks, flagged, at);
    } else {
      RestorableBy(data[..], mem, blocks, flagged);
    }
    if |FlaggedRows(d.suspect, blocks)| <= 3 {
      WrittenCorrectable(d, t, written);
      var orig := Flat(written) + mem[SECTOR_SIZE * blocks..];
      assert CorrectableSegment(orig, mem, blocks, FlaggedRows(d.suspect, blocks));
      assert data[..] == orig;
      assert orig[..SECTOR_SIZE * blocks] == Flat(written);
    }
    failed := ecc == EccFailed;
    if !failed || ignoreEccErr {
      result := (blocks - 3) * SECTOR_SIZE;
    } else {
      result := -EAGAIN;
    }
  }

  /** A restored segment has as many bytes as the position bookkeeping counts for it, and a raw one as many as
      were read. */
  lemma SizesAgree(d: Delivery, t: Segment, written: seq<Block>)
    requires Faithful(d, t) && Recorded(t, written)
    ensures TapePosition.UserSize(t.bad, false) == if |written| <= 3 then 0 else SECTOR_SIZE * (|written| - 3)
    ensures TapePosition.UserSize(t.bad, true) > 0 && d.bytes > 0 ==> TapePosition.UserSize(t.bad, true) == d.bytes
  {
    TapePosition.UserSizeMeans(t.bad, false);
    TapePosition.UserSizeMeans(t.bad, true);
  }

  lemma BlockCount(d: Delivery, t: Segment, written: seq<Block>)
    requires Faithful(d, t) && Recorded(t, written)
    ensures d.bytes / SECTOR_SIZE == 0 || d.bytes / SECTOR_SIZE == |written|
    ensures d.bytes >= 0 && (d.bytes > 0 ==> d.bytes == SECTOR_SIZE * |written|)
    ensures |written| <= 32 && (Unusable(t.bad) && d.bytes == 0 ==> d.bytes / SECTOR_SIZE == 0)
  {
    hide Unusable, Packed;
    PackedBelow(t.bad, 32);
  }

  /** Only suspect blocks differ from what was written. */
  lemma WrittenCorrectable(d: Delivery, t: Segment, written: seq<Block>)
    requires Faithful(d, t) && Recorded(t, written) && 4 <= |written| <= 32 && d.bytes > 0
    requires ValidSegment(Flat(written), |written|) && |FlaggedRows(d.suspect, |written|)| <= 3
    ensures var n, mem := |written|, Flat(d.blocks);
            CorrectableSegment(Flat(written) + mem[SECTOR_SIZE * n..], mem, n, FlaggedRows(d.suspect, n))
  {
    hide ValidSegment, FlaggedRows, Packed, Unusable, CorrectableSegment;
    var n, mem, bad := |written|, Flat(d.blocks), FlaggedRows(d.suspect, |written|);
    var orig := Flat(written) + mem[SECTOR_SIZE * n..];
    FlaggedRowsExact(d.suspect, n);
    forall r, x | 0 <= r < n && r !in bad && SECTOR_SIZE * r <= x < SECTOR_SIZE * (r + 1)
      ensures mem[x] == orig[x]
    {
      SameBlock(d, t, written, r);
      var c := x - SECTOR_SIZE * r;
      assert mem[SECTOR_SIZE * r + c] == d.blocks[r][c];
      assert Flat(written)[SECTOR_SIZE * r + c] == written[r][c];
    }
    SamePrefix(orig, Flat(written), n);
    ErasuresCorrectable(orig, mem, n, bad);
  }

  lemma SameBlock(d: Delivery, t: Segment, written: seq<Block>, r: int)
    requires Faithful(d, t) && Recorded(t, written) && 0 <= r < |written| && d.bytes > 0 && |written| <= 32
    ensures d.suspect[r] || d.blocks[r] == written[r]
  {
    hide Packed, Unusable;
    var s := SectorOfBlock(t.bad, r, 32);
  }

  /** Validity is about the blocks alone. */
  lemma SamePrefix(a: seq<byte>, b: seq<byte>, n: int)
    requires Holds(a, n) && Holds(b, n) && a[..SECTOR_SIZE * n] == b[..SECTOR_SIZE * n] && ValidSegment(b, n)
    ensures ValidSegment(a, n)
  {
    hide Syndromes;
    forall c | 0 <= c < SECTOR_SIZE
      ensures Column(a, n, c) == Column(b, n, c)
    {
      forall k | 0 <= k < n
        ensures Column(a, n, c)[k] == Column(b, n, c)[k]
      {
        assert a[..SECTOR_SIZE * n][SECTOR_SIZE * k + c] == b[..SECTOR_SIZE * n][SECTOR_SIZE * k + c];
      }
    }
  }
}
