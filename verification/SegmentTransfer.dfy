/** Transfer of one segment from tape to a buffer (setup_segment, ftape_calc_next_cluster and the
    progress functions of the interrupt handler).  Good sectors are read in clusters and packed into
    the buffer; failing sectors are flagged, skipped and perhaps read again.
 */
module SegmentTransfer {
  import opened Bits
  import opened SectorMaps
  import opened Packing
  import opened Options

  type Block = b: seq<byte> | |b| == 1024 witness seq(1024, _ => 0)

  datatype Status = Waiting | Reading | Done | Error

  datatype Cause =
    | NoError | IdAmError | IdCrcError | DataAmError | DataCrcError | NoDataError | OverrunError | OtherError

  /** A segment on tape: the sectors marked bad, and what is recorded in each sector. */
  datatype Segment = Segment(bad: SectorMap, sector: int -> Block)

  /** Maps of segments that are not really transferred: at most one sector is good. */
  predicate Unusable(bad: SectorMap) { bad == EMPTY_SEGMENT || bad == FAKE_SEGMENT }

  function GoodSectors(bad: SectorMap): nat { Packed(bad, 32) }

  /** The sectors that have really arrived.  An error after the last sector of a cluster is taken
      as an error of that sector; for an empty cluster this gives -1. */
  function Arrived(cause: Cause, count: int, transferred: int): int {
    if cause != NoError && transferred == count then count - 1 else transferred
  }

  /** Without the bytes left by DMA the controller's count cannot be checked; it is not too large then. */
  predicate Countable(count: int, fdcCount: nat, residue: Option<nat>) {
    fdcCount <= count || residue.Some?
  }

  /** What the hardware has really brought to memory: the sectors before the failing one, as far as DMA has moved
      all of their bytes. */
  function Transported(cause: Cause, count: nat, fdcCount: nat, residue: Option<nat>): int {
    var read := Arrived(cause, count, fdcCount);
    if residue.None? then read
    else
      var moved := (1024 * count - residue.value) / 1024;
      if moved < read then moved else read
  }

  /** get_transfer_size: the controller's count.  There is none if the sectors it counts and the bytes left by
      DMA are more than the cluster, or if an error comes with a complete transfer. */
  function TransferSize(cause: Cause, count: nat, fdcCount: nat, residue: Option<nat>): (n: Option<nat>)
    ensures n.None? <==> residue.Some? && (1024 * fdcCount + residue.value > 1024 * count
                                           || (fdcCount == count && cause != NoError))
    ensures n.Some? ==> n.value == fdcCount
  {
    if residue.None? then Some(fdcCount)
    else if fdcCount + (residue.value + 1023) / 1024 > count then None
    else if fdcCount == count && cause != NoError then None
    else Some(fdcCount)
  }

  /** Overrun errors are not counted against the sector. */
  function RetriesUsed(cause: Cause, retry: int): int {
    if cause == OverrunError && retry > 0 then retry - 1 else retry
  }

  /** Only what the hardware has brought is accepted. */
  lemma AcceptedArrived(cause: Cause, count: nat, fdcCount: nat, residue: Option<nat>)
    requires Countable(count, fdcCount, residue)
    ensures var n := TransferSize(cause, count, fdcCount, residue);
            n.Some? ==>
              n.value <= count && Arrived(cause, count, n.value) <= Transported(cause, count, fdcCount, residue)
  {}

  /** What DMA has written: n sectors from tape, and then anything. */
  function Landed(t: Segment, o: int, count: nat, n: int, noise: int -> Block): (landed: seq<Block>)
    ensures |landed| == count && forall k :: 0 <= k < count && k < n ==> landed[k] == t.sector(o + k)
  {
    if count == 0 then []
    else Landed(t, o, count - 1, n, noise) + [if count - 1 < n then t.sector(o + count - 1) else noise(count - 1)]
  }

  /** Sector e is recorded as a soft error, or as a hard one when no retries are left; hard errors are
      not soft errors any more. */
  predicate Noted(used: int, softRetries: int, e: int, soft0: SectorMap, hard0: SectorMap,
                  soft: SectorMap, hard: SectorMap, retry: int) {
    && 0 <= e < 32
    && if used < softRetries then soft == SetBit(soft0, e) && hard == hard0 && retry == used
       else hard == SetBit(hard0, e) && soft == AndNot(soft0, hard) && retry == -1
  }

  /** Where the transfer of a cluster stopped. */
  function FailingSector(cause: Cause, size: Option<nat>, o: int, count: int): int {
    o + (if size.Some? then Arrived(cause, count, size.value) else 0)
  }

  /** What the result of a read command means for a buffer.  The failing sector e is noted.  A first
      error is passed over; after another one the transfer goes back to the resume point, unless that is
      behind the segment.  Contradictory counts and unknown errors start the segment again. */
  predicate Outcome(cause: Cause, size: Option<nat>, softRetries: int, e: int,
                    soft0: SectorMap, hard0: SectorMap, retry0: int,
                    soft: SectorMap, hard: SectorMap, retry: int, resume: Option<int>) {
    if size.None? || cause == NoError then
      resume == (if size.None? then Some(0) else None) && soft == soft0 && hard == hard0 && retry == retry0
    else
      && 0 <= e < 32 && Noted(RetriesUsed(cause, retry0), softRetries, e, soft0, hard0, soft, hard, retry)
      && if cause == OtherError then resume == Some(0)
         else if soft0 == hard0 == NO_SECTORS then resume == None
         else ResumePoint(soft, hard, e + 1, if resume.Some? then resume.value else 32)
  }

  /** The soft errors that a set-up at sector o keeps: those whose numbers are below its block. */
  function KeptSoft(soft: SectorMap, bad: SectorMap, o: int): SectorMap {
    if 0 <= o <= 32 then And(soft, LowMask(Packed(bad, o))) else soft
  }

  // ----- clusters and the point of resumption, by search -----

  /** The first sector at or behind o whose bit is not v. */
  function SkipOver(m: SectorMap, v: bool, o: int): int
    decreases 32 - o
  {
    if 0 <= o < 32 && m[o] == v then SkipOver(m, v, o + 1) else o
  }

  lemma {:induction false} SkipOverIs(m: SectorMap, v: bool, o: int, e: int)
    requires 0 <= o <= e <= 32 && (forall s :: o <= s < e ==> m[s] == v) && (e < 32 ==> m[e] != v)
    ensures SkipOver(m, v, o) == e
    decreases e - o
  {
    if o == e {
    } else {
      SkipOverIs(m, v, o + 1, e);
    }
  }

  /** The first cluster at or behind sector o begins at the first good sector; a segment without good
      sectors is taken to have one. */
  function ClusterStart(bad: SectorMap, o: int): int {
    if bad == EMPTY_SEGMENT && o == 0 then 0 else SkipOver(bad, true, o)
  }

  /** The size of the cluster at sector o. */
  function ClusterSize(bad: SectorMap, o: int): int {
    if bad == EMPTY_SEGMENT && o == 0 then 1 else SkipOver(bad, false, o) - o
  }

  /** The sector behind the last one below o whose bit is set; 0 if there is none. */
  function BehindLast(m: SectorMap, o: int): int {
    if !(0 < o <= 32) then 0 else if m[o - 1] then o else BehindLast(m, o - 1)
  }

  lemma {:induction false} BehindLastIs(m: SectorMap, o: int)
    requires 0 <= o <= 32
    ensures var i := BehindLast(m, o); 0 <= i <= o && (i > 0 ==> m[i - 1]) && forall k :: i <= k < o ==> !m[k]
  {
    if o == 0 {
    } else {
      BehindLastIs(m, o - 1);
    }
  }

  /** Where a transfer that has come to sector o resumes after errors. */
  function ResumeAt(soft: SectorMap, hard: SectorMap, o: int): int {
    var first := SkipOver(soft, false, 0);
    if first < o then first
    else if BehindLast(hard, o) > 0 then BehindLast(hard, o) else o - 1
  }

  lemma ResumeAtIs(soft: SectorMap, hard: SectorMap, o: int, i: int)
    requires 1 <= o <= 32
    ensures ResumePoint(soft, hard, o, i) <==> i == ResumeAt(soft, hard, o)
  {
    SkipOverBit(soft, false, 0);
    BehindLastIs(hard, o);
  }

  lemma {:induction false} SkipOverBit(m: SectorMap, v: bool, o: int)
    requires 0 <= o <= 32
    ensures var e := SkipOver(m, v, o); o <= e <= 32 && (e < 32 ==> m[e] != v) && forall s :: o <= s < e ==> m[s] == v
    decreases 32 - o
  {
    if o == 32 {
    } else if m[o] == v {
      SkipOverBit(m, v, o + 1);
    }
  }

  class Buffer {
    const dmaAddress: int
    var memory: seq<Block>
    var status: Status
    var bytes: int
    var segmentId: int
    var nextSegment: int
    var badSectorMap: SectorMap
    var softErrorMap: SectorMap
    var hardErrorMap: SectorMap
    var retry: int
    var skip: int
    var dataOffset: int
    var ptr: int
    var sectorOffset: int
    var sectorCount: int
    var remaining: int

    constructor (dmaAddress: int, memory: seq<Block>)
      ensures this.dmaAddress == dmaAddress && this.memory == memory
      ensures status == Waiting && bytes == 0 && skip == 0 && retry == 0
      ensures softErrorMap == hardErrorMap == NO_SECTORS
    {
      this.dmaAddress, this.memory := dmaAddress, memory;
      status, bytes, skip, retry := Waiting, 0, 0, 0;
      badSectorMap, softErrorMap, hardErrorMap := NO_SECTORS, NO_SECTORS, NO_SECTORS;
    }

    // ----- what holds during a transfer -----

    /** All position fields describe the same place in the segment. */
    ghost predicate Positioned(bad: SectorMap)
      reads this`sectorOffset, this`remaining, this`badSectorMap, this`dataOffset, this`ptr
    {
      && 0 <= sectorOffset <= 32 && sectorOffset + remaining == 32
      && badSectorMap == ShiftRight(bad, sectorOffset)
      && dataOffset == Packed(bad, sectorOffset)
      && ptr == dmaAddress + 1024 * dataOffset
    }

    /** The first n sectors: each good one is in its block unless it is flagged. */
    ghost predicate Stored(t: Segment, n: int)
      reads this`memory, this`softErrorMap, this`hardErrorMap
      requires |memory| == 32 && n <= 32
    {
      forall i: nat :: i < n && !t.bad[i] ==>
        softErrorMap[i] || hardErrorMap[i] || memory[Packed(t.bad, i)] == t.sector(i)
    }

    ghost predicate FlagsOnGood(bad: SectorMap)
      reads this`softErrorMap, this`hardErrorMap
    {
      forall i :: 0 <= i < 32 && (softErrorMap[i] || hardErrorMap[i]) ==> !bad[i]
    }

    /** Soft errors are only recorded behind the current position. */
    ghost predicate SoftBehind()
      reads this`softErrorMap, this`sectorOffset
    {
      forall i :: 0 <= i < 32 && softErrorMap[i] ==> i < sectorOffset
    }

    /** The next cluster consists of good sectors and ends at a bad one or at the end. */
    ghost predicate AtCluster(bad: SectorMap)
      reads this`sectorOffset, this`remaining, this`badSectorMap, this`dataOffset, this`ptr, this`sectorCount
      requires Positioned(bad)
    {
      && 0 <= sectorCount <= remaining
      && (sectorCount == 0 ==> sectorOffset == 32 && bad[31])
      && (forall s :: sectorOffset <= s < sectorOffset + sectorCount ==> !bad[s])
      && (sectorOffset + sectorCount < 32 ==> bad[sectorOffset + sectorCount])
    }

    /** A read command for a cluster has been issued. */
    ghost predicate InTransfer(t: Segment)
      reads this`sectorOffset, this`remaining, this`badSectorMap, this`dataOffset, this`ptr, this`sectorCount,
            this`memory, this`softErrorMap
    {
      && |memory| == 32
      && if badSectorMap == FAKE_SEGMENT then
           Unusable(t.bad) && sectorCount == 1 && ptr == dmaAddress && dataOffset == 0 && sectorOffset == 0
         else
           Positioned(t.bad) && AtCluster(t.bad) && SoftBehind()
    }

    /** The transfer was given up and can go on at sector skip. */
    ghost predicate Resumable(t: Segment)
      reads this`skip, this`memory, this`softErrorMap, this`hardErrorMap
    {
      && |memory| == 32 && 0 <= skip < 32
      && (forall i :: 0 <= i < skip ==> !softErrorMap[i])
      && Stored(t, skip)
    }

    /** The good sectors before n would be stored or flagged after a set-up that begins at n. */
    ghost predicate HoldsBefore(t: Segment, n: int)
      reads this`memory, this`softErrorMap, this`hardErrorMap
      requires |memory| == 32 && 0 <= n <= 32
    {
      forall i: nat :: i < n && !t.bad[i] ==>
        || (softErrorMap[i] && i < Packed(t.bad, n)) || hardErrorMap[i] || memory[Packed(t.bad, i)] == t.sector(i)
    }

    /** All good sectors are stored or flagged; nothing is promised of an unusable segment. */
    ghost predicate Complete(t: Segment)
      reads this`bytes, this`memory, this`softErrorMap, this`hardErrorMap
    {
      && |memory| == 32
      && ((Unusable(t.bad) && bytes == 0) || (bytes == 1024 * GoodSectors(t.bad) && Stored(t, 32)))
    }

    // ----- setting up -----

    /** setup_segment */
    method SetupSegment(id: int, bad: SectorMap, offset: nat, again: bool)
      requires offset < 32
      modifies this`segmentId, this`sectorOffset, this`remaining, this`dataOffset, this`ptr,
               this`softErrorMap, this`hardErrorMap, this`badSectorMap, this`nextSegment
      ensures segmentId == id && nextSegment == id + 1
      ensures sectorOffset == offset && remaining == 32 - offset && dataOffset == Packed(bad, offset)
      ensures ptr == dmaAddress + 1024 * dataOffset
      ensures !again ==> softErrorMap == hardErrorMap == NO_SECTORS
      ensures again ==> hardErrorMap == old(hardErrorMap) && softErrorMap == And(old(softErrorMap), LowMask(dataOffset))
      ensures var rest := ShiftRight(bad, offset);
              badSectorMap == if rest == EMPTY_SEGMENT then FAKE_SEGMENT else rest
    {
      hide Packed, ShiftRight, And, LowMask, NO_SECTORS, EMPTY_SEGMENT, FAKE_SEGMENT;
      var offsetMask := SkipMask(bad, offset);
      var good := CountOnesLoop(offsetMask);
      CountLowMask(Packed(bad, offset));
      segmentId, sectorOffset, remaining := id, offset, 32 - offset;
      dataOffset := good;
      ptr := dmaAddress + dataOffset * 1024;
      if again {
        softErrorMap := And(softErrorMap, offsetMask);
      } else {
        hardErrorMap, softErrorMap := NO_SECTORS, NO_SECTORS;
      }
      badSectorMap := bad;
      ShiftRightTwice(bad, 0, 0);
      if sectorOffset > 0 {
        badSectorMap := ShiftRight(badSectorMap, sectorOffset);
      }
      if badSectorMap == EMPTY_SEGMENT {
        badSectorMap := FAKE_SEGMENT;
      }
      nextSegment := id + 1;
    }

    /** ftape_setup_new_segment.  again says that the segment is the one set up last; then the part
        before skip is not read again. */
    method SetupNewSegment(id: int, bad: SectorMap, again: bool, allowSkip: bool, ghost t: Segment)
      requires 0 <= skip < 32 && |memory| == 32 && t.bad == bad
      modifies this
      ensures status == old(status) && bytes == old(bytes) && memory == old(memory)
      ensures segmentId == id && nextSegment == id + 1 && 0 <= skip < 32
      ensures skip == (if again then old(skip) else 0)
      ensures sectorOffset == if again && allowSkip then old(skip) else 0
      ensures retry == if again then old(retry) + 1 else 0
      ensures ShiftRight(bad, sectorOffset) != EMPTY_SEGMENT ==> Positioned(bad)
      ensures ShiftRight(bad, sectorOffset) == EMPTY_SEGMENT ==>
                && bad == EMPTY_SEGMENT && sectorOffset == dataOffset == 0 && remaining == 32
                && badSectorMap == FAKE_SEGMENT && ptr == dmaAddress
      ensures SoftBehind()
      ensures sectorOffset == 0 || old(Resumable(t)) ==> softErrorMap == NO_SECTORS
      ensures Stored(t, sectorOffset) <==> old(HoldsBefore(t, if again && allowSkip then skip else 0))
      ensures again && old(Resumable(t)) ==> Resumable(t)
      ensures !again || old(FlagsOnGood(bad)) ==> FlagsOnGood(bad)
      ensures hardErrorMap == if again then old(hardErrorMap) else NO_SECTORS
      ensures softErrorMap == if again then KeptSoft(old(softErrorMap), bad, sectorOffset) else NO_SECTORS
      ensures forall i :: 0 <= i < 32 && softErrorMap[i] ==> again && old(softErrorMap)[i]
    {
      hide Packed, ShiftRight, And, LowMask, EMPTY_SEGMENT, FAKE_SEGMENT, NO_SECTORS;
      var offset := 0;
      if again {
        retry := retry + 1;
        if allowSkip && skip > 0 {
          offset := skip;
        }
      } else {
        retry, skip := 0, 0;
      }
      ghost var soft := softErrorMap;
      SetupSegment(id, bad, offset, again);
      NothingSet();
      KeptPart(soft, dataOffset);
      RestEmpty(bad, offset);
    }

    /** ftape_calc_next_cluster.  m is the map of which badSectorMap is the rest. */
    method CalcNextCluster(ghost m: SectorMap) returns (n: int)
      requires 0 <= sectorOffset <= 32 && sectorOffset + remaining == 32
      requires badSectorMap == ShiftRight(m, sectorOffset)
      modifies this`sectorOffset, this`remaining, this`badSectorMap, this`sectorCount
      ensures n == sectorCount && old(sectorOffset) <= sectorOffset <= 32 && sectorOffset + remaining == 32
      ensures badSectorMap == ShiftRight(m, sectorOffset)
      ensures forall s :: old(sectorOffset) <= s < sectorOffset ==> m[s]
      ensures 0 <= n <= remaining && (n == 0 <==> remaining == 0)
      ensures forall s :: sectorOffset <= s < sectorOffset + n ==> !m[s]
      ensures sectorOffset + n < 32 ==> m[sectorOffset + n]
    {
      hide ShiftRight, NO_SECTORS;
      while remaining > 0 && badSectorMap[0]
        invariant old(sectorOffset) <= sectorOffset <= 32 && sectorOffset + remaining == 32
        invariant badSectorMap == ShiftRight(m, sectorOffset)
        invariant forall s :: old(sectorOffset) <= s < sectorOffset ==> m[s]
        decreases remaining
      {
        CountNext(m, sectorOffset);
        ShiftRightTwice(m, sectorOffset, 1);
        badSectorMap := ShiftRight(badSectorMap, 1);
        sectorOffset := sectorOffset + 1;
        remaining := remaining - 1;
      }
      if remaining > 0 {
        CountNext(m, sectorOffset);
      }
      if badSectorMap == NO_SECTORS {
        NothingLeft(m, sectorOffset);
        sectorCount := remaining;
      } else {
        if remaining == 0 {
          ShiftOut(m);
        }
        sectorCount := LeadingGood(badSectorMap, remaining, m, sectorOffset);
      }
      n := sectorCount;
    }

    /** Go on to the next cluster of a segment; the segment is complete if there is none. */
    method NextCluster(ghost t: Segment) returns (n: int)
      requires |memory| == 32 && Positioned(t.bad) && SoftBehind() && remaining > 0
      modifies this`sectorOffset, this`remaining, this`badSectorMap, this`sectorCount
      ensures Positioned(t.bad) && AtCluster(t.bad) && InTransfer(t)
      ensures n == sectorCount && (n == 0 <==> sectorOffset == 32) && old(sectorOffset) <= sectorOffset
      ensures forall s :: old(sectorOffset) <= s < sectorOffset ==> t.bad[s]
      ensures Stored(t, sectorOffset) <==> old(Stored(t, sectorOffset))
      ensures old(FlagsOnGood(t.bad)) ==> FlagsOnGood(t.bad)
    {
      hide Packed, ShiftRight, NO_SECTORS, EMPTY_SEGMENT, FAKE_SEGMENT;
      ghost var o := sectorOffset;
      n := CalcNextCluster(t.bad);
      PackedBadRun(t.bad, o, sectorOffset);
      RestEmpty(t.bad, sectorOffset);
      FakeBits();
    }

    lemma InBuffer(t: Segment)
      requires Positioned(t.bad)
      ensures 0 <= dataOffset <= sectorOffset <= 32
    {
      PackedBelow(t.bad, sectorOffset);
    }

    lemma NothingRemains(t: Segment)
      requires Positioned(t.bad)
      ensures remaining <= 0 ==> sectorOffset == 32
    {}

    lemma NothingBefore(t: Segment)
      requires |memory| == 32 && 0 <= skip < 32
      ensures HoldsBefore(t, 0) && (skip == 0 ==> Resumable(t)) && (Resumable(t) ==> HoldsBefore(t, skip))
    {}

    /** Set up for a segment: memory as before, and so are skip count and hard errors on a retry; the first
        cluster is the first one at or behind the skip count. */
    twostate predicate Prepared(new again: bool, new allowSkip: bool, new t: Segment)
      reads this
    {
      var offset := if again && allowSkip then old(skip) else 0;
      && memory == old(memory) && skip == (if again then old(skip) else 0)
      && retry == (if again then old(retry) + 1 else 0)
      && hardErrorMap == (if again then old(hardErrorMap) else NO_SECTORS)
      && softErrorMap == (if again then KeptSoft(old(softErrorMap), t.bad, offset) else NO_SECTORS)
      && (forall i :: 0 <= i < 32 && softErrorMap[i] ==> again && old(softErrorMap)[i])
      && (!again || old(Resumable(t)) ==> softErrorMap == NO_SECTORS)
      && 0 <= offset <= sectorOffset <= 32 && (forall s :: offset <= s < sectorOffset ==> t.bad[s])
    }

    /** The first cluster after a set-up.  A segment without good sectors, which was set up as one with a
        single good sector, has that one. */
    method FirstCluster(bad: SectorMap, ghost t: Segment) returns (n: int)
      requires t.bad == bad && |memory| == 32 && SoftBehind() && 0 <= sectorOffset < 32
      requires ShiftRight(t.bad, sectorOffset) != EMPTY_SEGMENT ==> Positioned(t.bad)
      requires ShiftRight(t.bad, sectorOffset) == EMPTY_SEGMENT ==>
                 && t.bad == EMPTY_SEGMENT && sectorOffset == dataOffset == 0 && remaining == 32
                 && badSectorMap == FAKE_SEGMENT && ptr == dmaAddress
      modifies this`sectorOffset, this`remaining, this`badSectorMap, this`sectorCount
      ensures InTransfer(t) && n == sectorCount && (old(sectorOffset) == 0 ==> n > 0)
      ensures old(sectorOffset) <= sectorOffset <= 32 && forall s :: old(sectorOffset) <= s < sectorOffset ==> t.bad[s]
      ensures badSectorMap == FAKE_SEGMENT ==> old(sectorOffset) == 0
      ensures badSectorMap != FAKE_SEGMENT ==> (Stored(t, sectorOffset) <==> old(Stored(t, sectorOffset)))
      ensures old(FlagsOnGood(t.bad)) ==> FlagsOnGood(t.bad)
    {
      hide Packed, ShiftRight, NO_SECTORS, EMPTY_SEGMENT, FAKE_SEGMENT, Stored, FlagsOnGood;
      RestEmpty(t.bad, sectorOffset);
      FakeBits();
      if ShiftRight(bad, sectorOffset) == EMPTY_SEGMENT {
        ShiftRightTwice(FAKE_SEGMENT, 0, 0);
        n := CalcNextCluster(FAKE_SEGMENT);
      } else {
        n := NextCluster(t);
        RestEmpty(t.bad, sectorOffset);
        NotAllBad(t.bad);
      }
    }

    /** Set up a segment and find its first cluster. */
    method Begin(id: int, bad: SectorMap, again: bool, allowSkip: bool, ghost t: Segment) returns (n: int)
      requires 0 <= skip < 32 && |memory| == 32 && t.bad == bad
      modifies this
      ensures status == old(status) && bytes == old(bytes) && memory == old(memory) && |memory| == 32
      ensures segmentId == id && nextSegment == id + 1 && 0 <= skip < 32
      ensures InTransfer(t) && n == sectorCount
      ensures !again || !allowSkip || old(skip) == 0 ==> n > 0
      ensures (badSectorMap == FAKE_SEGMENT || (sectorOffset <= 32 && Stored(t, sectorOffset))) <==>
                old(HoldsBefore(t, if again && allowSkip then skip else 0))
      ensures Prepared(again, allowSkip, t) && (!again || old(Resumable(t)) ==> Resumable(t))
      ensures !again || old(FlagsOnGood(bad)) ==> FlagsOnGood(bad)
    {
      hide Packed, ShiftRight, NO_SECTORS, EMPTY_SEGMENT, FAKE_SEGMENT;
      hide Stored, HoldsBefore, FlagsOnGood, Resumable, InTransfer;
      NothingBefore(t);
      SetupNewSegment(id, bad, again, allowSkip, t);
      n := FirstCluster(bad, t);
      NothingBefore(t);
    }

    /** The cluster of a transfer that began to look for it at sector o. */
    lemma AtFirstCluster(t: Segment, o: int)
      requires InTransfer(t) && 0 <= o <= sectorOffset && (o == 0 ==> sectorCount > 0)
      requires forall s :: o <= s < sectorOffset ==> t.bad[s]
      ensures sectorOffset == ClusterStart(t.bad, o)
    {
      hide Packed, ShiftRight, NO_SECTORS, FAKE_SEGMENT;
      FakeBits();
      if badSectorMap != FAKE_SEGMENT {
        NotEmpty(t);
        assert sectorCount > 0 ==> !t.bad[sectorOffset];
      }
      if t.bad != EMPTY_SEGMENT || o > 0 {
        SkipOverIs(t.bad, true, o, sectorOffset);
      }
    }

    /** Position and size of the cluster say which kind of segment it is. */
    lemma AtCount(t: Segment)
      requires InTransfer(t)
      ensures 0 <= sectorOffset <= 32 && sectorCount == ClusterSize(t.bad, sectorOffset) >= 0
      ensures sectorCount == 0 <==> sectorOffset == 32
      ensures badSectorMap == FAKE_SEGMENT <==> Unusable(t.bad) && sectorOffset == 0
    {
      hide Packed, ShiftRight, NO_SECTORS, EMPTY_SEGMENT, FAKE_SEGMENT;
      FakeBits();
      if badSectorMap != FAKE_SEGMENT {
        NotEmpty(t);
      }
      if t.bad != EMPTY_SEGMENT || sectorOffset > 0 {
        SkipOverIs(t.bad, false, sectorOffset, sectorOffset + sectorCount);
      }
    }

    /** A cluster of sectors at the beginning shows that not all are bad. */
    lemma NotEmpty(t: Segment)
      requires InTransfer(t) && badSectorMap != FAKE_SEGMENT
      ensures sectorOffset == 0 ==> t.bad != EMPTY_SEGMENT && t.bad != FAKE_SEGMENT
    {
      hide Packed, ShiftRight, NO_SECTORS, FAKE_SEGMENT;
      RestEmpty(t.bad, 0);
      assert sectorOffset == 0 ==> !t.bad[0];
    }

    // ----- progress -----

    /** DMA writes the sectors of the cluster to ptr; only the first n need be what is on tape. */
    method Receive(landed: seq<Block>, ghost t: Segment, ghost n: int)
      requires |memory| == 32 && Positioned(t.bad) && AtCluster(t.bad)
      requires |landed| == sectorCount && n <= sectorCount
      requires forall k :: 0 <= k < n ==> landed[k] == t.sector(sectorOffset + k)
      modifies this`memory
      ensures |memory| == 32
      ensures forall k :: 0 <= k < dataOffset ==> memory[k] == old(memory)[k]
      ensures old(Stored(t, sectorOffset)) ==> Stored(t, sectorOffset + n)
    {
      hide Packed, ShiftRight;
      var base := (ptr - dmaAddress) / 1024;
      assert base == dataOffset;
      PackedCluster(t.bad, sectorOffset, sectorCount);
      PackedBelow(t.bad, sectorOffset + sectorCount);
      memory := memory[..base] + landed + memory[base + sectorCount..];
      if old(Stored(t, sectorOffset)) {
        forall i: nat | i < sectorOffset + n && !t.bad[i]
          ensures softErrorMap[i] || hardErrorMap[i] || memory[Packed(t.bad, i)] == t.sector(i)
        {
          if i < sectorOffset {
            PackedStrict(t.bad, i, sectorOffset);
          } else {
            PackedCluster(t.bad, sectorOffset, i - sectorOffset);
            assert memory[base + (i - sectorOffset)] == landed[i - sectorOffset];
          }
        }
      }
    }

    /** skip_bad_sector */
    method SkipBadSector()
      modifies this`sectorOffset, this`dataOffset, this`remaining, this`ptr, this`badSectorMap
      ensures sectorOffset == old(sectorOffset) + 1
      ensures old(remaining) > 0 ==>
                && dataOffset == old(dataOffset) + 1 && remaining == old(remaining) - 1
                && ptr == old(ptr) + 1024 && badSectorMap == ShiftRight(old(badSectorMap), 1)
      ensures old(remaining) <= 0 ==>
                && dataOffset == old(dataOffset) && remaining == old(remaining)
                && ptr == old(ptr) && badSectorMap == old(badSectorMap)
    {
      if remaining > 0 {
        sectorOffset, dataOffset := sectorOffset + 1, dataOffset + 1;
        remaining, ptr := remaining - 1, ptr + 1024;
        badSectorMap := ShiftRight(badSectorMap, 1);
      } else {
        sectorOffset := sectorOffset + 1;
      }
    }

    /** update_error_maps */
    method UpdateErrorMaps(errorOffset: int, softRetries: int)
      requires 0 <= errorOffset < 32
      modifies this`softErrorMap, this`hardErrorMap, this`retry
      ensures forall i :: 0 <= i < 32 ==>
                ((softErrorMap[i] || hardErrorMap[i]) <==>
                   (old(softErrorMap)[i] || old(hardErrorMap)[i] || i == errorOffset))
      ensures forall i :: 0 <= i < 32 && softErrorMap[i] ==> old(softErrorMap)[i] || i == errorOffset
      ensures old(retry) >= softRetries ==> forall i :: 0 <= i < 32 ==> !(softErrorMap[i] && hardErrorMap[i])
      ensures Noted(old(retry), softRetries, errorOffset, old(softErrorMap), old(hardErrorMap), softErrorMap,
                    hardErrorMap, retry)
    {
      if retry < softRetries {
        softErrorMap := SetBit(softErrorMap, errorOffset);
      } else {
        hardErrorMap := SetBit(hardErrorMap, errorOffset);
        softErrorMap := AndNot(softErrorMap, hardErrorMap);
        retry := -1;
      }
    }

    /** The part of determine_progress that follows the DMA operation.  Counters are 32 bits wide
        and a shift count wraps at 32. */
    method AdvanceBy(n: int)
      modifies this`sectorCount, this`sectorOffset, this`dataOffset, this`ptr, this`remaining, this`badSectorMap
      ensures sectorCount == n && sectorOffset == old(sectorOffset) + n && dataOffset == old(dataOffset) + n
      ensures ptr == old(ptr) + 1024 * n && remaining == old(remaining) - n
      ensures badSectorMap == Shifted(old(badSectorMap), n)
    {
      sectorCount := n;
      if sectorCount != 0 {
        sectorOffset := sectorOffset + sectorCount;
        dataOffset := dataOffset + sectorCount;
        ptr := ptr + sectorCount * 1024;
        remaining := remaining - sectorCount;
        badSectorMap := ShiftRight(badSectorMap, sectorCount % 32);
      }
    }

    /** The error accounting of determine_progress. */
    method NoteError(cause: Cause, softRetries: int)
      requires 0 <= sectorOffset < 32 && remaining > 0
      modifies this`sectorOffset, this`dataOffset, this`ptr, this`remaining,
               this`badSectorMap, this`softErrorMap, this`hardErrorMap, this`retry
      ensures sectorOffset == old(sectorOffset) + 1 && dataOffset == old(dataOffset) + 1
      ensures ptr == old(ptr) + 1024 && remaining == old(remaining) - 1
      ensures badSectorMap == ShiftRight(old(badSectorMap), 1)
      ensures forall i :: 0 <= i < 32 ==>
                ((softErrorMap[i] || hardErrorMap[i]) <==>
                   (old(softErrorMap)[i] || old(hardErrorMap)[i] || i == old(sectorOffset)))
      ensures forall i :: 0 <= i < 32 && softErrorMap[i] ==> old(softErrorMap)[i] || i == old(sectorOffset)
      ensures Noted(RetriesUsed(cause, old(retry)), softRetries, old(sectorOffset), old(softErrorMap),
                    old(hardErrorMap), softErrorMap, hardErrorMap, retry)
    {
      hide ShiftRight, Noted;
      if cause == OverrunError && retry > 0 {
        retry := retry - 1;
      }
      SkipBadSector();
      UpdateErrorMaps(sectorOffset - 1, softRetries);
    }

    /** determine_progress */
    method DetermineProgress(cause: Cause, transferred: int, softRetries: int, ghost t: Segment)
      requires |memory| == 32 && Positioned(t.bad) && AtCluster(t.bad) && SoftBehind()
      requires 0 <= transferred <= sectorCount
      modifies this`sectorCount, this`sectorOffset, this`dataOffset, this`ptr, this`remaining,
               this`badSectorMap, this`softErrorMap, this`hardErrorMap, this`retry
      ensures Positioned(t.bad) && SoftBehind()
      ensures old(Stored(t, sectorOffset + Arrived(cause, sectorCount, transferred))) ==> Stored(t, sectorOffset)
      ensures cause == NoError ==>
                && sectorOffset == old(sectorOffset) + transferred
                && softErrorMap == old(softErrorMap) && hardErrorMap == old(hardErrorMap) && retry == old(retry)
      ensures cause != NoError ==>
                && 1 <= sectorOffset
                && sectorOffset == old(sectorOffset) + Arrived(cause, old(sectorCount), transferred) + 1
                && Noted(RetriesUsed(cause, old(retry)), softRetries, sectorOffset - 1, old(softErrorMap),
                         old(hardErrorMap), softErrorMap, hardErrorMap, retry)
      ensures old(FlagsOnGood(t.bad)) ==> (FlagsOnGood(t.bad) <==> cause == NoError || old(sectorCount) > 0)
    {
      hide Packed, ShiftRight, Shifted, Noted;
      ghost var n := Arrived(cause, sectorCount, transferred);
      ClusterAdvances(t.bad, sectorOffset, sectorCount, n);
      var count := transferred;
      if cause != NoError && sectorCount == transferred {
        count := count - 1;
      }
      AdvanceBy(count);
      if cause != NoError {
        NoteError(cause, softRetries);
      }
    }

    /** find_resume_point: the first soft error before the current position, or else the sector
        behind the last hard error. */
    method FindResumePoint() returns (i: int)
      ensures sectorOffset < 1 || sectorOffset > 32 ==> i == 0
      ensures 1 <= sectorOffset <= 32 ==> ResumePoint(softErrorMap, hardErrorMap, sectorOffset, i)
    {
      hide Uniform, LowMask, And, NO_SECTORS;
      if sectorOffset < 1 || sectorOffset > 32 {
        return 0;
      }
      var mask := if sectorOffset >= 32 then Uniform(true) else LowMask(sectorOffset);
      var errors := And(softErrorMap, mask);
      MaskedBits(softErrorMap, mask, sectorOffset);
      MaskedBits(hardErrorMap, mask, sectorOffset);
      if errors != NO_SECTORS {
        NoneSet(errors);
        i := 0;
        while !errors[i]
          invariant 0 <= i < 32 && exists k :: i <= k < 32 && errors[k]
          invariant forall k :: 0 <= k < i ==> !errors[k]
          decreases 32 - i
        {
          i := i + 1;
        }
      } else {
        NothingSet();
        errors := And(hardErrorMap, mask);
        i := sectorOffset - 1;
        if errors != NO_SECTORS {
          NoneSet(errors);
          ghost var last :| 0 <= last < 32 && errors[last];
          while !errors[i]
            invariant 0 <= last <= i < sectorOffset && errors[last]
            invariant forall k :: i < k < sectorOffset ==> !errors[k]
            decreases i
          {
            i := i - 1;
          }
          i := i + 1;
        } else {
          NothingSet();
        }
      }
    }

    /** An unusable segment: nothing of it is needed. */
    method SkipFake(noise: Block, ghost t: Segment)
      requires InTransfer(t) && badSectorMap == FAKE_SEGMENT
      modifies this`memory, this`remaining
      ensures |memory| == 32 && remaining == 0
    {
      memory := memory[0 := noise];
      remaining := 0;
    }

    /** The segment is complete: everything is stored that is not flagged. */
    method Finish(ghost t: Segment)
      requires |memory| == 32
      requires (Unusable(t.bad) && ptr == dmaAddress) || (Positioned(t.bad) && sectorOffset == 32)
      modifies this`bytes, this`status
      ensures bytes == ptr - dmaAddress && status == Done
      ensures old(badSectorMap == FAKE_SEGMENT || (sectorOffset <= 32 && Stored(t, sectorOffset))) ==> Complete(t)
    {
      bytes := ptr - dmaAddress;
      status := Done;
      ShiftOut(t.bad);
      assert FAKE_SEGMENT[1] != NO_SECTORS[1];
    }

    /** retry_sector: the segment has to be read again from sector at on. */
    method GiveUp(at: int, ghost t: Segment)
      requires |memory| == 32 && 0 <= at < 32 && forall k :: 0 <= k < at ==> !softErrorMap[k]
      modifies this`status, this`skip
      ensures status == Error && skip == at
      ensures old(Stored(t, at)) ==> Resumable(t)
    {
      status, skip := Error, at;
    }

    lemma StoredLess(t: Segment, m: int, n: int)
      requires |memory| == 32 && n <= 32
      ensures m <= n && Stored(t, n) ==> Stored(t, m)
    {}

    /** The read branch of the interrupt handler, as far as it concerns the buffer.  size is the
        accepted transfer size; resume is the sector to go back to, if the segment has to be read again. */
    method HandleResult(cause: Cause, size: Option<nat>, landed: seq<Block>, softRetries: int, ghost t: Segment)
      returns (resume: Option<int>)
      requires |memory| == 32 && Positioned(t.bad) && AtCluster(t.bad) && SoftBehind()
      requires |landed| == sectorCount && (size.Some? ==> size.value <= sectorCount)
      requires size.Some? ==>
                 forall k :: 0 <= k < Arrived(cause, sectorCount, size.value) ==>
                   landed[k] == t.sector(sectorOffset + k)
      modifies this`memory, this`sectorCount, this`sectorOffset, this`dataOffset, this`ptr, this`remaining,
               this`badSectorMap, this`softErrorMap, this`hardErrorMap, this`retry
      ensures |memory| == 32 && Positioned(t.bad) && SoftBehind() && sectorOffset <= 32
      ensures resume.Some? ==> 0 <= resume.value < 32 && forall k :: 0 <= k < resume.value ==> !softErrorMap[k]
      ensures old(Stored(t, sectorOffset)) ==> Stored(t, if resume.Some? then resume.value else sectorOffset)
      ensures forall k :: 0 <= k < old(dataOffset) ==> memory[k] == old(memory)[k]
      ensures sectorOffset + remaining == 32 && (size.None? ==> resume.Some?)
      ensures size.Some? ==>
                sectorOffset ==
                FailingSector(cause, size, old(sectorOffset), old(sectorCount)) + (if cause == NoError then 0 else 1)
      ensures Outcome(cause, size, softRetries, FailingSector(cause, size, old(sectorOffset), old(sectorCount)),
                      old(softErrorMap), old(hardErrorMap), old(retry), softErrorMap, hardErrorMap, retry, resume)
      ensures resume == None ==>
                cause == NoError || old(softErrorMap == hardErrorMap == NO_SECTORS) || sectorOffset == 32
      ensures old(FlagsOnGood(t.bad)) ==>
                (FlagsOnGood(t.bad) <==> size.None? || cause == NoError || old(sectorCount) > 0)
    {
      hide Packed, ShiftRight, NO_SECTORS, ResumePoint, Stored, FlagsOnGood, Noted, RetriesUsed;
      ghost var n := if size.Some? then Arrived(cause, sectorCount, size.value) else 0;
      Receive(landed, t, n);
      if size.None? {
        sectorCount := 0;
        StoredLess(t, 0, sectorOffset);
        return Some(0);
      }
      var retrying := softErrorMap != NO_SECTORS || hardErrorMap != NO_SECTORS;
      DetermineProgress(cause, size.value, softRetries, t);
      StoredLess(t, 0, sectorOffset);
      if cause == NoError {
        resume := None;
      } else if cause == OtherError {
        resume := Some(0);
      } else {
        resume := Resume(retrying, t);
      }
    }

    /** Go on behind a first failing sector, but go back to the resume point after another one. */
    method Resume(retrying: bool, ghost t: Segment) returns (resume: Option<int>)
      requires |memory| == 32 && 1 <= sectorOffset <= 32
      ensures !retrying ==> resume == None
      ensures retrying ==> ResumePoint(softErrorMap, hardErrorMap, sectorOffset,
                                       if resume.Some? then resume.value else 32)
      ensures resume == None ==> !retrying || sectorOffset == 32
      ensures resume.Some? ==> 0 <= resume.value < 32 && forall k :: 0 <= k < resume.value ==> !softErrorMap[k]
      ensures Stored(t, sectorOffset) ==> Stored(t, if resume.Some? then resume.value else sectorOffset)
    {
      hide ResumePoint, Stored;
      var skipped := sectorOffset;
      if retrying {
        skipped := FindResumePoint();
        ResumeBelow(softErrorMap, hardErrorMap, sectorOffset, skipped);
        StoredLess(t, skipped, sectorOffset);
      }
      if retrying && skipped < 32 {
        resume := Some(skipped);
      } else {
        resume := None;
      }
    }
  }

  lemma ResumeBelow(soft: SectorMap, hard: SectorMap, o: int, i: int)
    requires 1 <= o <= 32 && ResumePoint(soft, hard, o, i)
    ensures 0 <= i <= o && forall k :: 0 <= k < i ==> !soft[k]
  {}

  lemma NothingBad()
    ensures Packed(NO_SECTORS, 0) == 0 && Packed(NO_SECTORS, 1) == 1 && Packed(NO_SECTORS, 32) == 32
    ensures ShiftRight(NO_SECTORS, 1) != EMPTY_SEGMENT && NO_SECTORS != EMPTY_SEGMENT && NO_SECTORS != FAKE_SEGMENT
    ensures forall i :: 0 <= i < 32 ==> !NO_SECTORS[i]
  {
    hide Packed, ShiftRight, NO_SECTORS, EMPTY_SEGMENT, FAKE_SEGMENT;
    NothingSet();
    PackedCluster(NO_SECTORS, 0, 1);
    PackedCluster(NO_SECTORS, 0, 32);
    PackedNext(NO_SECTORS, 0);
    ShiftNothing(1);
    FakeBits();
  }

  /** i is the first soft error below o; or, without one, the sector behind the last hard error
      below o; or, without any error, the last sector below o. */
  predicate ResumePoint(soft: SectorMap, hard: SectorMap, o: int, i: int)
    requires 1 <= o <= 32
  {
    && 0 <= i <= o
    && (forall k :: 0 <= k < i ==> !soft[k])
    && if i < o && soft[i] then true
       else
         && (forall k :: 0 <= k < o ==> !soft[k])
         && (forall k :: i <= k < o ==> !hard[k])
         && if 0 < i && hard[i - 1] then true else i == o - 1 && forall k :: 0 <= k < o ==> !hard[k]
  }

  lemma MaskedBits(m: SectorMap, mask: SectorMap, o: int)
    requires 1 <= o <= 32 && mask == if o >= 32 then Uniform(true) else LowMask(o)
    ensures forall k :: 0 <= k < 32 ==> And(m, mask)[k] == (m[k] && k < o)
  {
    assert forall k :: 0 <= k < 32 ==> mask[k] == (k < o);
  }

  /** m >> n for a 32-bit count on a machine that uses its five low bits. */
  function Shifted(m: SectorMap, n: int): SectorMap {
    if n == 0 then m else ShiftRight(m, n % 32)
  }

  /** A cluster advances the packed position and the rest of the map in step, even where the shift
      count wraps: a cluster of 32 sectors leaves no bad sector, and an empty one is at the end. */
  lemma ClusterAdvances(bad: SectorMap, o: int, count: int, n: int)
    requires 0 <= o && 0 <= count && o + count <= 32 && -1 <= n <= count
    requires forall s :: o <= s < o + count ==> !bad[s]
    requires n == -1 ==> o == 32
    ensures var rest := Shifted(ShiftRight(bad, o), n);
            && (n >= 0 ==> Packed(bad, o + n) == Packed(bad, o) + n && rest == ShiftRight(bad, o + n))
            && (0 <= n < count ==>
                  Packed(bad, o + n + 1) == Packed(bad, o) + n + 1 && ShiftRight(rest, 1) == ShiftRight(bad, o + n + 1))
            && (n == -1 ==> ShiftRight(rest, 1) == ShiftRight(bad, 32))
  {
    hide Packed, ShiftRight, NO_SECTORS;
    if n == -1 {
      ShiftOut(bad);
      ShiftNothing(31);
      ShiftNothing(1);
    } else {
      PackedCluster(bad, o, n);
      ShiftRightTwice(bad, o, n);
      if n == 32 {
        NoneSet(bad);
        ShiftOut(bad);
        ShiftNothing(0);
      }
      if n < count {
        PackedCluster(bad, o, n + 1);
        ShiftRightTwice(bad, o + n, 1);
      }
    }
  }

  lemma ShiftNothing(k: nat)
    ensures ShiftRight(NO_SECTORS, k) == NO_SECTORS
  {}

  /** The number of clear bits below the first set one, at most limit. */
  method LeadingGood(bits: SectorMap, limit: nat, ghost m: SectorMap, ghost o: nat) returns (n: nat)
    requires o + limit <= 32 && bits == ShiftRight(m, o)
    ensures n <= limit && forall s :: o <= s < o + n ==> !m[s]
    ensures n < limit ==> m[o + n]
  {
    hide ShiftRight;
    var rest := bits;
    n := 0;
    while n < limit && !rest[0]
      invariant n <= limit && rest == ShiftRight(m, o + n)
      invariant forall s :: o <= s < o + n ==> !m[s]
    {
      CountNext(m, o + n);
      ShiftRightTwice(m, o + n, 1);
      n := n + 1;
      rest := ShiftRight(rest, 1);
    }
    if n < limit {
      CountNext(m, o + n);
    }
  }

  lemma NothingSet()
    ensures forall i :: 0 <= i < 32 ==> !NO_SECTORS[i]
  {}

  /** On a retry only soft errors before the good-sector count are kept. */
  lemma KeptPart(soft: SectorMap, n: nat)
    ensures var kept := And(soft, LowMask(n));
            && (forall i :: 0 <= i < 32 ==> kept[i] == (soft[i] && i < n))
            && ((forall i :: 0 <= i < 32 && i < n ==> !soft[i]) ==> kept == NO_SECTORS)
  {}

  lemma FakeBits()
    ensures !FAKE_SEGMENT[0] && FAKE_SEGMENT[1] && EMPTY_SEGMENT[0] && FAKE_SEGMENT != NO_SECTORS
    ensures forall i :: 0 < i < 32 ==> FAKE_SEGMENT[i]
  {
    assert NO_SECTORS[1] != FAKE_SEGMENT[1];
  }

  lemma NotAllBad(bad: SectorMap)
    ensures bad != EMPTY_SEGMENT ==> exists i :: 0 <= i < 32 && !bad[i]
  {
    assert (forall i :: 0 <= i < 32 ==> bad[i]) ==> bad == EMPTY_SEGMENT;
  }

  /** The rest of a map is all ones only for the whole map of an empty segment. */
  lemma RestEmpty(bad: SectorMap, offset: nat)
    requires offset <= 32
    ensures ShiftRight(bad, offset) == EMPTY_SEGMENT ==> offset == 0 && bad == EMPTY_SEGMENT
    ensures ShiftRight(bad, offset) == FAKE_SEGMENT ==> offset == 0 && bad == FAKE_SEGMENT
    ensures ShiftRight(bad, 0) == bad && Packed(bad, 0) == 0
  {
    ShiftRightTwice(bad, 0, 0);
    assert offset > 0 ==> !ShiftRight(bad, offset)[31];
    assert EMPTY_SEGMENT[31] && FAKE_SEGMENT[31];
  }
}
