/** A transfer that comes to an empty cluster, from a new buffer on. */
module TransferExamples {
  import opened Bits
  import opened SectorMaps
  import opened Packing
  import opened Options
  import opened SegmentTransfer

  /** Only the last sector is bad. */
  ghost predicate LastBad(bad: SectorMap) {
    forall i :: 0 <= i < 32 ==> (bad[i] <==> i == 31)
  }

  lemma LastBadMaps(bad: SectorMap)
    requires LastBad(bad)
    ensures bad != EMPTY_SEGMENT && bad != FAKE_SEGMENT && forall i :: 0 <= i < 32 ==> !NO_SECTORS[i]
  {
    assert !bad[1] && EMPTY_SEGMENT[1] && FAKE_SEGMENT[1];
  }

  /** The only sector that a cluster beginning below 31 can end at is the last one. */
  lemma ToLast(b: Buffer, t: Segment)
    requires LastBad(t.bad) && b.InTransfer(t)
    ensures |b.memory| == 32 && b.Positioned(t.bad) && b.AtCluster(t.bad) && b.SoftBehind()
    ensures b.sectorOffset < 31 ==> b.sectorCount == 31 - b.sectorOffset
    ensures b.sectorOffset == 32 ==> b.sectorCount == 0
  {
    LastBadMaps(t.bad);
    var o, n := b.sectorOffset, b.sectorCount;
    assert t.bad[31];
    assert o < 31 ==> !t.bad[o];
    assert o + n < 32 ==> t.bad[o + n];
  }

  /** A data error after k sectors, with no soft retries allowed. */
  method Fail(b: Buffer, t: Segment, k: nat) returns (resume: Option<int>)
    requires LastBad(t.bad) && b.InTransfer(t) && |b.memory| == 32 && b.sectorOffset <= 32
    requires b.Stored(t, b.sectorOffset) && k < b.sectorCount
    modifies b
    ensures |b.memory| == 32 && b.Positioned(t.bad) && b.SoftBehind() && b.sectorOffset == old(b.sectorOffset) + k + 1
    ensures b.skip == old(b.skip)
    ensures Noted(old(b.retry), 0, old(b.sectorOffset) + k, old(b.softErrorMap), old(b.hardErrorMap), b.softErrorMap,
                  b.hardErrorMap, b.retry)
    ensures if old(b.softErrorMap == b.hardErrorMap == NO_SECTORS) then resume == None
            else ResumePoint(b.softErrorMap, b.hardErrorMap, b.sectorOffset, if resume.Some? then resume.value else 32)
    ensures resume.Some? ==> 0 <= resume.value < 32 && forall i :: 0 <= i < resume.value ==> !b.softErrorMap[i]
    ensures b.Stored(t, if resume.Some? then resume.value else b.sectorOffset)
  {
    hide Packed, ShiftRight, FAKE_SEGMENT, EMPTY_SEGMENT, NO_SECTORS;
    hide Buffer.Stored, Buffer.FlagsOnGood, Buffer.Resumable, Buffer.InTransfer, Buffer.Complete, Noted, ResumePoint;
    ToLast(b, t);
    resume := b.HandleResult(DataCrcError, Some(k), Landed(t, b.sectorOffset, b.sectorCount, k, t.sector), 0, t);
  }

  /** Go back to sector at and read from there on. */
  method Retry(b: Buffer, t: Segment, at: nat)
    requires LastBad(t.bad) && |b.memory| == 32 && at < 32 && b.Stored(t, at)
    requires forall i :: 0 <= i < at ==> !b.softErrorMap[i]
    modifies b
    ensures b.InTransfer(t) && b.sectorOffset == (if at < 31 then at else 32) && b.Stored(t, b.sectorOffset)
    ensures b.softErrorMap == NO_SECTORS && b.hardErrorMap == old(b.hardErrorMap) && b.retry == old(b.retry) + 1
  {
    hide Packed, ShiftRight, FAKE_SEGMENT, EMPTY_SEGMENT, NO_SECTORS;
    hide Buffer.Stored, Buffer.FlagsOnGood, Buffer.Resumable, Buffer.InTransfer, Buffer.Complete, Buffer.HoldsBefore;
    LastBadMaps(t.bad);
    b.GiveUp(at, t);
    b.NothingBefore(t);
    var n := b.Begin(7, t.bad, true, true, t);
    ToLast(b, t);
    assert t.bad[at] <==> at == 31;
    NotFake(b, t);
  }

  lemma NotFake(b: Buffer, t: Segment)
    requires LastBad(t.bad) && b.InTransfer(t)
    ensures b.badSectorMap != FAKE_SEGMENT && 0 <= b.sectorOffset <= 32 && b.sectorOffset != 31
  {
    LastBadMaps(t.bad);
    assert t.bad[31];
  }

  /** A first soft error is where a transfer goes back to. */
  lemma SoftResume(soft: SectorMap, hard: SectorMap, o: int, i: int, e: int)
    requires 0 <= e < o <= 32 && ResumePoint(soft, hard, o, i) && soft[e] && forall k :: 0 <= k < e ==> !soft[k]
    ensures i == e
  {}

  /** Without soft errors it goes on behind a hard one. */
  lemma HardResume(soft: SectorMap, hard: SectorMap, o: int, i: int)
    requires 1 <= o <= 32 && ResumePoint(soft, hard, o, i) && hard[o - 1] && forall k :: 0 <= k < o ==> !soft[k]
    ensures i == o
  {}

  /** Sector 5 fails and is passed over; then sector 30 fails. */
  method TwoFailures(t: Segment, memory: seq<Block>) returns (b: Buffer)
    requires LastBad(t.bad) && |memory| == 32
    ensures fresh(b) && |b.memory| == 32 && b.Stored(t, 30) && b.retry == -1
    ensures b.hardErrorMap == SetBit(NO_SECTORS, 5) && b.softErrorMap[30]
    ensures forall i :: 0 <= i < 30 ==> !b.softErrorMap[i]
  {
    hide Packed, ShiftRight, FAKE_SEGMENT, EMPTY_SEGMENT, NO_SECTORS, ResumePoint;
    hide Buffer.Stored, Buffer.FlagsOnGood, Buffer.Resumable, Buffer.InTransfer, Buffer.Complete, Buffer.HoldsBefore;
    LastBadMaps(t.bad);
    b := new Buffer(0, memory);
    b.NothingBefore(t);
    var n := b.Begin(7, t.bad, false, true, t);
    ToLast(b, t);
    NotFake(b, t);
    assert !t.bad[0];
    var r := Fail(b, t, 5);
    assert b.hardErrorMap[5] && !NO_SECTORS[5];
    n := b.NextCluster(t);
    assert !t.bad[6];
    ToLast(b, t);
    assert b.sectorOffset == 6;
    r := Fail(b, t, 24);
    SoftResume(b.softErrorMap, b.hardErrorMap, 31, if r.Some? then r.value else 32, 30);
  }

  /** With no soft retries allowed: after sectors 5 and 30 have failed, sector 30 is tried again and fails
      again.  The transfer resumes behind it, where only the bad sector 31 is left: a read of no
      sectors (cluster is the number asked for).  If that is answered with an error, the bad sector
      is flagged. */
  method EmptyClusterExample(t: Segment, memory: seq<Block>) returns (b: Buffer, cluster: int)
    requires LastBad(t.bad) && |memory| == 32
    ensures cluster == 0
    ensures b.hardErrorMap[31] || b.softErrorMap[31]
    ensures t.bad[31] && !b.FlagsOnGood(t.bad)
  {
    hide Packed, ShiftRight, FAKE_SEGMENT, EMPTY_SEGMENT, NO_SECTORS, ResumePoint;
    hide Buffer.Stored, Buffer.Resumable, Buffer.InTransfer, Buffer.Complete, Buffer.HoldsBefore;
    LastBadMaps(t.bad);
    b := TwoFailures(t, memory);
    Retry(b, t, 30);
    ToLast(b, t);
    assert b.hardErrorMap[5] && !NO_SECTORS[5];
    var r := Fail(b, t, 0);
    HardResume(b.softErrorMap, b.hardErrorMap, 31, if r.Some? then r.value else 32);
    Retry(b, t, 31);
    ToLast(b, t);
    cluster := b.sectorCount;
    r := b.HandleResult(DataCrcError, Some(0), [], 0, t);
  }
}
