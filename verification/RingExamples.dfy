/** A run of a drive with two buffers in which a segment is delivered with stale blocks: old_segment_id
    belongs to the drive and skip to the buffer, so that a segment can be set up again in a buffer that was
    not reading it before.  Each call of a method of the drive is one step of the handler or of the reader.
 */
module RingExamples {
  import opened Bits
  import opened SectorMaps
  import opened Packing
  import opened Options
  import opened SegmentTransfer
  import opened RingModel
  import opened RingSteps
  import opened Rings
  import opened BufferRing

  /** Two buffers, a tape without bad sectors, and reads of single segments. */
  ghost predicate Small(drive: Drive) {
    && |drive.buffers| == 2 && drive.buffers[0] != drive.buffers[1]
    && drive.segmentsPerTrack == 100 && drive.softRetries == 6
    && forall id :: drive.tape(id).bad == NO_SECTORS
  }

  lemma GoodTape(drive: Drive, id: int)
    requires Small(drive)
    ensures drive.tape(id).bad == NO_SECTORS
  {}

  datatype BufferShot = BufferShot(status: Status, offset: int, account: Account)

  /** All that matters of such a drive, as a value. */
  datatype Shot = Shot(reader: Position, runner: Runner, head: nat, tail: nat, filled: nat,
                       oldSegmentId: int, wanted: int, readDone: bool, single: bool, b: seq<BufferShot>)

  ghost function BufferShotOf(b: Buffer): BufferShot
    reads b
  {
    BufferShot(b.status, b.sectorOffset, AccountOf(b))
  }

  ghost function ShotOf(drive: Drive): (s: Shot)
    reads drive, drive.buffers
    requires |drive.buffers| == 2
    ensures |s.b| == 2
  {
    Shot(drive.reader, drive.runner, drive.head, drive.tail, drive.filled,
         drive.oldSegmentId, drive.wanted, drive.readDone, drive.single,
         [BufferShotOf(drive.buffers[0]), BufferShotOf(drive.buffers[1])])
  }

  // ----- the steps, on values -----

  ghost predicate Fine(drive: Drive)
    reads drive, drive.buffers
  {
    drive.Valid() && Small(drive)
  }

  method Begin(drive: Drive, segment: int)
    requires Fine(drive) && ShotOf(drive).reader == Outside
    modifies drive, drive.buffers
    ensures Fine(drive)
    ensures ShotOf(drive) == old(ShotOf(drive)).(reader := Drain, wanted := segment, readDone := false, single := true)
  {
    hide Good, Contents, Flags, View, Drive.Tied, Drive.Fixed;
    drive.BeginRead(segment, true);
  }

  method Look(drive: Drive, eccOk: bool) returns (d: Option<Delivery>)
    requires Fine(drive) && ShotOf(drive).reader == Drain && ShotOf(drive).tail < 2
    modifies drive, drive.buffers
    ensures Fine(drive)
    ensures var s := old(ShotOf(drive));
            var tail := s.b[s.tail];
            && (s.readDone || (tail.status != Reading && tail.status != Done) ==>
                  ShotOf(drive) == s.(reader := Settling))
            && (!s.readDone && tail.status == Done ==>
                  && ShotOf(drive) == s.(reader := Releasing, readDone := eccOk && tail.account.segmentId == s.wanted)
                  && (eccOk && tail.account.segmentId == s.wanted ==> d.Some?)
                  && (d.Some? ==>
                        && d.value.segmentId == s.wanted && d.value.blocks == tail.account.memory
                        && ConvertedTo(NO_SECTORS, Or(tail.account.soft, tail.account.hard), d.value.suspect, 32)))
  {
    hide Good, Contents, Flags, View, Drive.Tied, Drive.Fixed, NO_SECTORS, ConvertedTo, Or;
    drive.EndsNow();
    d := drive.Look(eccOk, false);
  }

  method GiveBack(drive: Drive, spare: seq<Block>)
    requires Fine(drive) && ShotOf(drive).reader == Releasing && ShotOf(drive).tail < 2 && |spare| == 32
    modifies drive, drive.buffers
    ensures Fine(drive)
    ensures var s := old(ShotOf(drive));
            var tail := s.b[s.tail];
            && s.filled > 0
            && ShotOf(drive) == s.(reader := Advancing, filled := s.filled - 1,
                                   b := s.b[s.tail := tail.(status := Waiting,
                                                            account := tail.account.(memory := spare))])
  {
    hide Good, Contents, Flags, View, Drive.Tied, Drive.Fixed, NO_SECTORS;
    ghost var s := ShotOf(drive);
    drive.EndsNow();
    drive.GiveBack(spare);
    drive.EndsNow();
    SameShots(ShotOf(drive).b, s.b, s.tail);
  }

  method MoveTail(drive: Drive)
    requires Fine(drive) && ShotOf(drive).reader == Advancing && ShotOf(drive).tail < 2
    modifies drive, drive.buffers
    ensures Fine(drive)
    ensures var s := old(ShotOf(drive)); ShotOf(drive) == s.(reader := Drain, tail := 1 - s.tail)
  {
    hide Good, Contents, Flags, View, Drive.Tied, Drive.Fixed, NO_SECTORS;
    drive.SameLength();
    drive.MoveTail();
  }

  method Settle(drive: Drive)
    requires Fine(drive) && ShotOf(drive).reader == Settling && ShotOf(drive).head < 2
    requires ShotOf(drive).runner != LogicalEot
    modifies drive, drive.buffers
    ensures Fine(drive)
    ensures var s := old(ShotOf(drive));
            if s.runner == Aborting then
              ShotOf(drive) == s.(reader := Starting, runner := Idle,
                                  b := s.b[s.head := s.b[s.head].(status := Waiting)])
            else ShotOf(drive) == s.(reader := Starting)
  {
    hide Good, Contents, Flags, View, Drive.Tied, Drive.Fixed, NO_SECTORS;
    drive.EndsNow();
    drive.Settle();
    drive.EndsNow();
  }

  method Leave(drive: Drive)
    requires Fine(drive) && ShotOf(drive).reader == Starting && ShotOf(drive).readDone && ShotOf(drive).head < 2
    modifies drive, drive.buffers
    ensures Fine(drive) && ShotOf(drive) == old(ShotOf(drive)).(reader := Outside)
  {
    hide Good, Contents, Flags, View, Drive.Tied, Drive.Fixed, NO_SECTORS;
    drive.SameLength();
    drive.Start(false, false);
  }

  /** A buffer after it has been set up for a segment. */
  ghost predicate SetUpAs(was: BufferShot, now: BufferShot, segment: int, again: bool) {
    && now.status == Reading && now.account.segmentId == segment && now.account.nextSegment == 0
    && now.account.memory == was.account.memory && now.account.skip == (if again then was.account.skip else 0)
    && now.offset == now.account.skip && now.account.retry == (if again then was.account.retry + 1 else 0)
    && now.account.hard == (if again then was.account.hard else NO_SECTORS)
    && forall i :: 0 <= i < 32 && now.account.soft[i] ==> again && was.account.soft[i]
  }

  method Start(drive: Drive)
    requires Fine(drive) && ShotOf(drive).reader == Starting && !ShotOf(drive).readDone && ShotOf(drive).single
    requires ShotOf(drive).head == ShotOf(drive).tail < 2 && ShotOf(drive).b[ShotOf(drive).head].status == Waiting
    modifies drive, drive.buffers
    ensures Fine(drive)
    ensures var s, s' := old(ShotOf(drive)), ShotOf(drive);
            && s' == s.(reader := Drain, runner := Running, oldSegmentId := s.wanted, b := s.b[s.head := s'.b[s.head]])
            && SetUpAs(s.b[s.head], s'.b[s.head], s.wanted, s.wanted == s.oldSegmentId)
  {
    hide Good, Contents, Flags, View, Drive.Tied, Drive.Fixed, NO_SECTORS, Drive.HoldsOffset, Buffer.Resumable;
    drive.EndsNow();
    ghost var s := ShotOf(drive);
    StartHead(drive);
    RunningRest(drive);
    SameShots(ShotOf(drive).b, s.b, s.head);
  }

  /** Only buffer i may have changed. */
  lemma SameShots(now: seq<BufferShot>, was: seq<BufferShot>, i: nat)
    requires |now| == |was| == 2 && i < 2 && now[1 - i] == was[1 - i]
    ensures now == was[i := now[i]]
  {}

  method StartHead(drive: Drive)
    requires Fine(drive) && drive.reader == Starting && !drive.readDone && drive.single
    requires drive.head == drive.tail < 2 && drive.buffers[drive.head].status == Waiting
    modifies drive, drive.buffers[drive.head]
    ensures Fine(drive) && drive.head == old(drive.head) == drive.tail && drive.filled == old(drive.filled)
    ensures drive.reader == Drain && drive.runner == Running && drive.oldSegmentId == drive.wanted == old(drive.wanted)
    ensures !drive.readDone && drive.single && drive.buffers[drive.head].segmentId == drive.wanted
    ensures var b := drive.buffers[drive.head];
            && b.Prepared(drive.wanted == old(drive.oldSegmentId), true, drive.tape(drive.wanted)) && b.nextSegment == 0
            && b.sectorOffset == b.skip
  {
    hide Good, Contents, Flags, View, Drive.Tied, Drive.Fixed, NO_SECTORS, Drive.HoldsOffset, Buffer.Resumable;
    drive.EndsNow();
    assert NeedsStart(drive.Now(), false);
    drive.Start(false, false);
    drive.EndsNow();
    NothingBad();
    RunningRest(drive);
    ghost var b := drive.buffers[drive.head];
    assert b.skip < 32 ==> !drive.tape(drive.wanted).bad[b.skip];
  }

  /** Without bad sectors a cluster goes up to the end of the segment, and blocks are sectors. */
  lemma WholeRest(b: Buffer, t: Segment)
    requires t.bad == NO_SECTORS && b.InTransfer(t)
    ensures |b.memory| == 32 && b.badSectorMap != FAKE_SEGMENT
    ensures 0 <= b.sectorOffset < 32 && b.sectorCount == 32 - b.sectorOffset && b.dataOffset == b.sectorOffset
  {
    hide NO_SECTORS, FAKE_SEGMENT, EMPTY_SEGMENT, Packed, ShiftRight;
    NothingBad();
    var o, n := b.sectorOffset, b.sectorCount;
    assert forall i :: 0 <= i < 32 ==> !t.bad[i];
    PackedCluster(t.bad, 0, o);
  }

  /** While the runner runs, HEAD waits for the rest of its segment. */
  lemma RunningRest(drive: Drive)
    requires Fine(drive) && drive.runner == Running && drive.head < 2
    ensures var b := drive.buffers[drive.head];
            && drive.busy && b.status == Reading && |b.memory| == 32 && b.badSectorMap != FAKE_SEGMENT
            && 0 <= b.sectorOffset < 32 && b.sectorCount == 32 - b.sectorOffset && b.dataOffset == b.sectorOffset
  {
    hide Good, Contents, Flags, View, NO_SECTORS, FAKE_SEGMENT, Buffer.InTransfer;
    drive.BeginsHandling();
    drive.SameLength();
    RunningHead(drive.State());
    WholeRest(drive.buffers[drive.head], drive.tape(drive.buffers[drive.head].segmentId));
  }

  /** A data error after k sectors: what it means, as a value. */
  ghost predicate Failed(was: BufferShot, now: BufferShot, k: nat, resume: Option<int>) {
    && Handled(DataCrcError, Some(k), 6, was.offset + k, was.offset, was.account,
               now.account.(skip := was.account.skip), resume)
    && if resume.Some? then now.status == Error && now.account.skip == resume.value
       else now.status == Reading && now.account.skip == was.account.skip && now.offset == was.offset + k + 1
  }

  method Fail(drive: Drive, k: nat, noise: int -> Block) returns (ghost resume: Option<int>)
    requires Fine(drive) && ShotOf(drive).runner == Running && ShotOf(drive).head < 2
    requires ShotOf(drive).b[ShotOf(drive).head].offset + k < 31
    modifies drive, drive.buffers
    ensures Fine(drive)
    ensures var s, s' := old(ShotOf(drive)), ShotOf(drive);
            && s' == s.(runner := if resume.Some? then Aborting else Running, b := s.b[s.head := s'.b[s.head]])
            && Failed(s.b[s.head], s'.b[s.head], k, resume)
  {
    hide Good, Contents, Flags, View, Drive.Tied, Drive.Fixed, Handled;
    ghost var s := ShotOf(drive);
    resume := FailHead(drive, k, noise);
    SameShots(ShotOf(drive).b, s.b, s.head);
  }

  method FailHead(drive: Drive, k: nat, noise: int -> Block) returns (ghost resume: Option<int>)
    requires Fine(drive) && drive.runner == Running && drive.head < 2
    requires drive.buffers[drive.head].sectorOffset + k < 31
    modifies drive, drive.buffers
    ensures Fine(drive) && drive.head == old(drive.head) && drive.tail == old(drive.tail)
    ensures drive.filled == old(drive.filled)
    ensures drive.reader == old(drive.reader) && drive.oldSegmentId == old(drive.oldSegmentId)
    ensures drive.wanted == old(drive.wanted) && drive.readDone == old(drive.readDone)
    ensures drive.single == old(drive.single)
    ensures drive.runner == if resume.Some? then Aborting else Running
    ensures Failed(old(BufferShotOf(drive.buffers[drive.head])), BufferShotOf(drive.buffers[drive.head]), k, resume)
    ensures unchanged(drive.buffers[1 - drive.head])
  {
    hide Good, Contents, Flags, View, Drive.Tied, Drive.Fixed, NO_SECTORS, FAKE_SEGMENT, Handled, Interrupted;
    hide Drive.StopsOrGoesOn, Drive.Where, Plain, Packed, ShiftRight, EMPTY_SEGMENT, Buffer.InTransfer;
    RunningRest(drive);
    NothingBad();
    ghost var b := drive.buffers[drive.head];
    GoodTape(drive, b.segmentId);
    assert !NO_SECTORS[b.sectorOffset + k + 1];
    resume := drive.ReadInterrupt(DataCrcError, k, None, noise);
    GoodTape(drive, b.segmentId);
    if drive.runner == Running {
      RunningRest(drive);
    }
  }

  /** The rest of the segment arrives. */
  method Complete(drive: Drive, noise: int -> Block)
    requires Fine(drive) && ShotOf(drive).runner == Running && ShotOf(drive).head < 2 && ShotOf(drive).filled == 0
    requires var a := ShotOf(drive).b[ShotOf(drive).head].account; a.nextSegment == 0 && 0 <= a.segmentId < 50
    modifies drive, drive.buffers
    ensures Fine(drive)
    ensures var s, s' := old(ShotOf(drive)), ShotOf(drive);
            var was, now := s.b[s.head], s'.b[s.head];
            && s' == s.(runner := Idle, head := 1 - s.head, filled := 1, b := s.b[s.head := now])
            && now.status == Done && |was.account.memory| == |now.account.memory| == 32 && was.offset <= 32
            && now.account == was.account.(memory := now.account.memory)
            && forall k :: 0 <= k < was.offset ==> now.account.memory[k] == was.account.memory[k]
  {
    hide Good, Contents, Flags, View, Drive.Tied, Drive.Fixed, NO_SECTORS;
    ghost var s := ShotOf(drive);
    CompleteHead(drive, noise);
    SameShots(ShotOf(drive).b, s.b, s.head);
  }

  method CompleteHead(drive: Drive, noise: int -> Block)
    requires Fine(drive) && drive.runner == Running && drive.head < 2 && drive.filled == 0
    requires var b := drive.buffers[drive.head]; b.nextSegment == 0 && 0 <= b.segmentId < 50
    modifies drive, drive.buffers
    ensures Fine(drive) && drive.head == 1 - old(drive.head) && drive.tail == old(drive.tail) && drive.filled == 1
    ensures drive.reader == old(drive.reader) && drive.oldSegmentId == old(drive.oldSegmentId) && drive.runner == Idle
    ensures drive.wanted == old(drive.wanted) && drive.readDone == old(drive.readDone)
    ensures drive.single == old(drive.single)
    ensures var b := drive.buffers[old(drive.head)];
            && b.status == Done && AccountOf(b) == old(AccountOf(b)).(memory := b.memory)
            && |old(b.memory)| == |b.memory| == 32 && old(b.sectorOffset) <= 32
            && forall k :: 0 <= k < old(b.sectorOffset) ==> b.memory[k] == old(b.memory)[k]
    ensures unchanged(drive.buffers[1 - old(drive.head)])
  {
    hide Good, Contents, Flags, View, Drive.Tied, Drive.Fixed, NO_SECTORS, FAKE_SEGMENT, Interrupted;
    RunningRest(drive);
    drive.SameLength();
    var count := drive.buffers[drive.head].sectorCount;
    ghost var resume := drive.ReadInterrupt(NoError, count, None, noise);
  }

  // ----- the run -----

  /** A first error, after three sectors, is passed over. */
  lemma FirstFailure(was: BufferShot, now: BufferShot, resume: Option<int>)
    requires Failed(was, now, 3, resume) && was.offset == 0 && was.account.retry == 0
    requires was.account.hard == NO_SECTORS && forall i :: 0 <= i < 32 ==> !was.account.soft[i]
    ensures resume == None && now.offset == 4 && now.account.retry == 0 && now.account.hard == NO_SECTORS
    ensures forall i :: 0 <= i < 32 ==> (now.account.soft[i] <==> i == 3)
  {
    NoneSet(was.account.soft);
  }

  /** Another one, at once, leads back to the first. */
  lemma SecondFailure(was: BufferShot, now: BufferShot, resume: Option<int>)
    requires Failed(was, now, 0, resume) && was.offset == 4 && was.account.retry == 0 && was.account.hard == NO_SECTORS
    requires forall i :: 0 <= i < 32 ==> (was.account.soft[i] <==> i == 3)
    ensures resume == Some(3) && now.status == Error && now.account.skip == 3
    ensures now.account.hard == NO_SECTORS && forall i :: 0 <= i < 32 && now.account.soft[i] ==> i == 3 || i == 4
  {
    assert was.account.soft[3] && !NO_SECTORS[3];
    var i := if resume.Some? then resume.value else 32;
    assert now.account.soft[3];
  }

  /** The reader finds HEAD free or with an error, and starts the runner on it. */
  method Restart(drive: Drive)
    requires Fine(drive)
    requires var s := ShotOf(drive);
             && s.reader == Drain && !s.readDone && s.single && s.head == s.tail < 2 && s.filled == 0
             && ((s.runner == Idle && s.b[s.head].status == Waiting)
                 || (s.runner == Aborting && s.b[s.head].status == Error))
    modifies drive, drive.buffers
    ensures Fine(drive)
    ensures var s, s' := old(ShotOf(drive)), ShotOf(drive);
            && s' == s.(runner := Running, oldSegmentId := s.wanted, b := s.b[s.head := s'.b[s.head]])
            && SetUpAs(s.b[s.head].(status := Waiting), s'.b[s.head], s.wanted, s.wanted == s.oldSegmentId)
  {
    hide Drive.Valid, ShotOf, SetUpAs, NO_SECTORS;
    var d := Look(drive, false);
    Settle(drive);
    Start(drive);
  }

  /** Segment 5 is requested; sectors 3 and 4 fail, and the transfer is given up at sector 3. */
  method GiveUpAtThree(drive: Drive, noise: int -> Block)
    requires Fine(drive)
    requires var s := ShotOf(drive);
             && s.reader == Outside && s.runner == Idle && s.head == s.tail == 0 && s.filled == 0
             && s.oldSegmentId != 5 && s.b[0].status == Waiting
    modifies drive, drive.buffers
    ensures Fine(drive)
    ensures var s, s' := old(ShotOf(drive)), ShotOf(drive);
            && s' == s.(reader := Drain, runner := Aborting, wanted := 5, oldSegmentId := 5, readDone := false,
                        single := true, b := [s'.b[0], s.b[1]])
            && s'.b[0].status == Error && s'.b[0].account.skip == 3
            && s'.b[0].account.hard == NO_SECTORS && !s'.b[0].account.soft[0]
  {
    hide Drive.Valid, ShotOf, NO_SECTORS, Failed;
    Begin(drive, 5);
    Restart(drive);
    ghost var s1 := ShotOf(drive);
    ghost var r := Fail(drive, 3, noise);
    ghost var s2 := ShotOf(drive);
    FirstFailure(s1.b[0], s2.b[0], r);
    r := Fail(drive, 0, noise);
    SecondFailure(s2.b[0], ShotOf(drive).b[0], r);
  }

  /** A full buffer at TAIL is looked at and given back. */
  method TakeBack(drive: Drive, eccOk: bool, spare: seq<Block>) returns (d: Option<Delivery>)
    requires Fine(drive) && |spare| == 32
    requires var s := ShotOf(drive);
             && s.reader == Drain && !s.readDone && s.tail < 2 && s.filled == 1
             && s.b[s.tail].status == Done && s.b[s.tail].account.segmentId == s.wanted
    modifies drive, drive.buffers
    ensures Fine(drive)
    ensures var s := old(ShotOf(drive));
            var tail := s.b[s.tail];
            ShotOf(drive) == s.(readDone := eccOk, tail := 1 - s.tail, filled := 0,
                                b := s.b[s.tail := tail.(status := Waiting, account := tail.account.(memory := spare))])
  {
    hide Drive.Valid, ShotOf, NO_SECTORS, ConvertedTo, Or;
    d := Look(drive, eccOk);
    GiveBack(drive, spare);
    MoveTail(drive);
  }

  /** The reader leaves with what it has got. */
  method LeaveCall(drive: Drive)
    requires Fine(drive) && ShotOf(drive).reader == Drain && ShotOf(drive).readDone && ShotOf(drive).runner == Idle
    requires ShotOf(drive).head < 2 && ShotOf(drive).tail < 2
    modifies drive, drive.buffers
    ensures Fine(drive) && ShotOf(drive) == old(ShotOf(drive)).(reader := Outside)
  {
    hide Drive.Valid, ShotOf, NO_SECTORS, ConvertedTo, Or;
    var d := Look(drive, false);
    Settle(drive);
    Leave(drive);
  }

  function Copies(n: nat, x: Block): (s: seq<Block>)
    ensures |s| == n && forall i :: 0 <= i < n ==> s[i] == x
  {
    if n == 0 then [] else Copies(n - 1, x) + [x]
  }

  /** A free buffer with a skip count of three, memory full of one block, and no flag on its first sector. */
  ghost predicate Leftover(b: BufferShot, spare: Block) {
    && b.status == Waiting && b.account.skip == 3 && b.account.memory == Copies(32, spare)
    && b.account.hard == NO_SECTORS && !b.account.soft[0]
  }

  /** Segment 5 is read into the first buffer, with a retry from sector 3. */
  method ReadFive(drive: Drive, noise: int -> Block, spare: Block) returns (d: Option<Delivery>)
    requires Fine(drive)
    requires var s := ShotOf(drive);
             && s.reader == Outside && s.runner == Idle && s.head == s.tail == 0 && s.filled == 0
             && s.oldSegmentId != 5 && s.b[0].status == Waiting
    modifies drive, drive.buffers
    ensures Fine(drive)
    ensures var s, s' := old(ShotOf(drive)), ShotOf(drive);
            && s'.reader == Outside && s'.runner == Idle && s'.head == s'.tail == 1 && s'.filled == 0
            && s'.oldSegmentId == 5 && Leftover(s'.b[0], spare) && s'.b[1] == s.b[1]
  {
    hide Drive.Valid, ShotOf, NO_SECTORS, ConvertedTo, Or;
    GiveUpAtThree(drive, noise);
    Restart(drive);
    Complete(drive, noise);
    d := TakeBack(drive, true, Copies(32, spare));
    LeaveCall(drive);
  }

  /** Segment 6 is read into the second buffer, but cannot be corrected. */
  method ReadSix(drive: Drive, noise: int -> Block, spare: Block)
    requires Fine(drive)
    requires var s := ShotOf(drive);
             && s.reader == Outside && s.runner == Idle && s.head == s.tail == 1 && s.filled == 0
             && s.oldSegmentId == 5 && s.b[1].status == Waiting
    modifies drive, drive.buffers
    ensures Fine(drive)
    ensures var s, s' := old(ShotOf(drive)), ShotOf(drive);
            && s'.reader == Drain && s'.runner == Idle && s'.head == s'.tail == 0 && s'.filled == 0
            && s'.oldSegmentId == s'.wanted == 6 && !s'.readDone && s'.single && s'.b[0] == s.b[0]
  {
    hide Drive.Valid, ShotOf, NO_SECTORS, ConvertedTo, Or;
    Begin(drive, 6);
    Restart(drive);
    Complete(drive, noise);
    var d := TakeBack(drive, false, Copies(32, spare));
  }

  /** Trying segment 6 again brings the first buffer back, with the skip count of segment 5: its first three
      sectors are not read, and the blocks that the reader has given in exchange are delivered in their
      place, without being suspect. */
  method StaleRun(drive: Drive, noise: int -> Block, spare: Block) returns (d: Option<Delivery>)
    requires Fine(drive) && spare != drive.tape(6).sector(0)
    requires var s := ShotOf(drive);
             && s.reader == Outside && s.runner == Idle && s.head == s.tail == 0 && s.filled == 0
             && s.oldSegmentId == -1 && s.b[0].status == Waiting && s.b[1].status == Waiting
    modifies drive, drive.buffers
    ensures Fine(drive) && d.Some? && d.value.segmentId == 6 && !Faithful(d.value, drive.tape(6))
    ensures |d.value.blocks| == 32 && d.value.blocks[0] == spare && !d.value.suspect[0]
  {
    hide Drive.Valid, ShotOf, NO_SECTORS, ConvertedTo, Or, Faithful;
    d := ReadFive(drive, noise, spare);
    ReadSix(drive, noise, spare);
    Restart(drive);
    Complete(drive, noise);
    ghost var s := ShotOf(drive);
    d := Look(drive, true);
    GoodTape(drive, 6);
    NothingSet();
    StaleBlock(s.b[0].account, d.value, drive.tape(6));
    FirstClean(s.b[0].account.soft, s.b[0].account.hard, d.value.suspect);
  }

  lemma FirstClean(soft: SectorMap, hard: SectorMap, suspect: SectorMap)
    requires !soft[0] && !hard[0] && ConvertedTo(NO_SECTORS, Or(soft, hard), suspect, 32)
    ensures !suspect[0]
  {
    NothingBad();
    var i: nat := 0;
    assert !NO_SECTORS[i];
  }

  lemma StaleBlock(a: Account, d: Delivery, t: Segment)
    requires t.bad == NO_SECTORS && d.blocks == a.memory && |a.memory| == 32 && a.memory[0] != t.sector(0)
    requires !a.soft[0] && !a.hard[0] && ConvertedTo(NO_SECTORS, Or(a.soft, a.hard), d.suspect, 32)
    ensures !Faithful(d, t)
  {
    hide NO_SECTORS, FAKE_SEGMENT, EMPTY_SEGMENT;
    NothingBad();
    FirstClean(a.soft, a.hard, d.suspect);
    var i: nat := 0;
    assert !t.bad[i] && Packed(t.bad, i) == 0;
  }

  /** The tape of the run: segment 6 is recorded with one block all over, everything else with another. */
  function ExampleTape(x: Block, y: Block): int -> Segment {
    id => Segment(NO_SECTORS, _ => if id == 6 then y else x)
  }

  /** A drive with two new buffers. */
  method NewDrive(x: Block, y: Block) returns (drive: Drive)
    ensures fresh(drive) && fresh(drive.buffers) && Fine(drive) && drive.tape == ExampleTape(x, y)
    ensures var s := ShotOf(drive);
            && s.reader == Outside && s.runner == Idle && s.head == s.tail == 0 && s.filled == 0
            && s.oldSegmentId == -1 && s.b[0].status == Waiting && s.b[1].status == Waiting
  {
    hide Contents, Flags, Good, NO_SECTORS, View, Drive.Tied;
    var a := new Buffer(0, Copies(32, x));
    var b := new Buffer(32 * 1024, Copies(32, x));
    drive := new Drive([a, b], ExampleTape(x, y), 6, 100);
  }

  /** The run, from the beginning on. */
  method StaleRetryExample(x: Block, y: Block) returns (drive: Drive, d: Option<Delivery>)
    requires x != y
    ensures drive.tape == ExampleTape(x, y) && d.Some? && d.value.segmentId == 6 && !Faithful(d.value, drive.tape(6))
  {
    hide Drive.Valid, ShotOf, Faithful, NO_SECTORS;
    drive := NewDrive(x, y);
    assert drive.tape(6).sector(0) == y;
    d := StaleRun(drive, _ => x, x);
  }
}
