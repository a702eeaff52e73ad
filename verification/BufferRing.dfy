/** The drive's buffers, filled by the interrupt handler at HEAD and emptied by the reader at TAIL.
    An interrupt may come between any two of the reader's steps.
 */
module BufferRing {
  import opened Bits
  import opened SectorMaps
  import opened Packing
  import opened Options
  import opened SegmentTransfer
  import opened RingModel
  import opened RingSteps
  import opened Rings
  import RingProgress

  ghost function TrackOf(b: Buffer): Track
    reads b
  {
    Track(b.nextSegment, b.skip, b.softErrorMap, b.hardErrorMap, b.retry)
  }

  /** A buffer as the machine on values sees it. */
  ghost function Shape(b: Buffer): Cell
    reads b
  {
    BareCell(b.status, b.segmentId, TrackOf(b))
  }

  ghost function View(b: Buffer, tape: int -> Segment): Cell
    reads b
  {
    var t := tape(b.segmentId);
    Cell(b.status, b.segmentId, TrackOf(b), |b.memory| == 32 && 0 <= b.skip < 32,
         b.InTransfer(t) && (b.nextSegment == 0 || b.nextSegment == b.segmentId + 1),
         b.Complete(t),
         b.badSectorMap == FAKE_SEGMENT || (|b.memory| == 32 && b.sectorOffset <= 32 && b.Stored(t, b.sectorOffset)),
         b.Resumable(t),
         b.FlagsOnGood(t.bad))
  }

  lemma ViewOf(b: Buffer, tape: int -> Segment)
    ensures var c, t := View(b, tape), tape(b.segmentId);
            && c.status == b.status && c.segmentId == b.segmentId && Bare(c) == Shape(b)
            && (c.sane <==> |b.memory| == 32 && 0 <= b.skip < 32)
            && (c.ready <==> b.InTransfer(t) && (b.nextSegment == 0 || b.nextSegment == b.segmentId + 1))
            && (c.whole <==> b.Complete(t)) && (c.resumable <==> b.Resumable(t)) && (c.clean <==> b.FlagsOnGood(t.bad))
            && (c.stored <==>
                  b.badSectorMap == FAKE_SEGMENT
                  || (|b.memory| == 32 && b.sectorOffset <= 32 && b.Stored(t, b.sectorOffset)))
  {}

  /** The segment, memory and error accounting of a buffer. */
  datatype Account = Account(segmentId: int, nextSegment: int, skip: int, memory: seq<Block>,
                             soft: SectorMap, hard: SectorMap, retry: int)

  ghost function AccountOf(b: Buffer): Account
    reads b
  {
    Account(b.segmentId, b.nextSegment, b.skip, b.memory, b.softErrorMap, b.hardErrorMap, b.retry)
  }

  /** What the result of a read command makes of a buffer's account; e is the failing sector, and the d
      blocks before the cluster are not touched. */
  ghost predicate Handled(cause: Cause, size: Option<nat>, softRetries: int, e: int, d: int,
                          was: Account, now: Account, resume: Option<int>) {
    && Outcome(cause, size, softRetries, e, was.soft, was.hard, was.retry, now.soft, now.hard, now.retry, resume)
    && now.segmentId == was.segmentId && now.nextSegment == was.nextSegment && now.skip == was.skip
    && |was.memory| == |now.memory| == 32 && d <= 32
    && forall k :: 0 <= k < d ==> now.memory[k] == was.memory[k]
  }

  ghost function TrackIn(a: Account): Track { Track(a.nextSegment, a.skip, a.soft, a.hard, a.retry) }

  /** The account and the point of resumption, computed. */
  lemma HandledIs(cause: Cause, size: Option<nat>, softRetries: int, e: int, d: int,
                  was: Account, now: Account, resume: Option<int>)
    requires Handled(cause, size, softRetries, e, d, was, now, resume)
    requires resume.Some? ==> resume.value < 32
    ensures TrackIn(now) == (if size.None? || cause == NoError then TrackIn(was)
                             else Charged(TrackIn(was), softRetries, cause, e))
    ensures resume == Resumption(TrackIn(was), TrackIn(now), cause, size, e)
  {
    hide ResumePoint;
    if size.Some? && cause != NoError {
      ResumeAtIs(now.soft, now.hard, e + 1, if resume.Some? then resume.value else 32);
    }
  }

  /** HEAD was c and is c' after the result has been handled: what follows is what the machine says. */
  lemma Concludes(medium: Medium, s: RingState, c: Cell, c': Cell, o: int, count: int, cause: Cause, size: Option<nat>,
                  d: int, was: Account, now: Account, resume: Option<int>, o': int)
    requires s.head < |s.cells| && c.track == TrackIn(was) && c' == c.(track := TrackIn(now))
    requires Handled(cause, size, medium.softRetries, FailingSector(cause, size, o, count), d, was, now, resume)
    requires resume.Some? ==> resume.value < 32
    requires size.None? ==> resume.Some?
    requires size.Some? ==> o' == FailingSector(cause, size, o, count) + (if cause == NoError then 0 else 1)
    ensures Decided(medium, s, c', resume, o') == Transferred(medium, s, c, o, count, cause, size)
  {
    hide Handled, Charged, Resumption, FailingSector, Proceeded;
    HandledIs(cause, size, medium.softRetries, FailingSector(cause, size, o, count), d, was, now, resume);
  }

  /** What the reader gets: a buffer and the map of its suspect blocks. */
  datatype Delivery = Delivery(segmentId: int, blocks: seq<Block>, bytes: int, suspect: SectorMap)

  /** The blocks are the good sectors of the segment in order, except for the suspect ones. */
  ghost predicate Faithful(d: Delivery, t: Segment) {
    && |d.blocks| == 32
    && ((Unusable(t.bad) && d.bytes == 0)
        || (&& d.bytes == 1024 * GoodSectors(t.bad)
            && forall i: nat :: i < 32 && !t.bad[i] ==>
                 var k := Packed(t.bad, i); k < 32 && (d.suspect[k] || d.blocks[k] == t.sector(i))))
  }

  lemma FaithfulDelivery(b: Buffer, t: Segment, suspect: SectorMap)
    requires b.Complete(t) && ConvertedTo(t.bad, Or(b.softErrorMap, b.hardErrorMap), suspect, 32)
    ensures Faithful(Delivery(b.segmentId, b.memory, b.bytes, suspect), t)
  {
    hide Packed;
  }

  class Drive {
    const buffers: seq<Buffer>
    const tape: int -> Segment
    const softRetries: int
    const segmentsPerTrack: int
    var head: nat
    var tail: nat
    var oldSegmentId: int
    var runner: Runner
    var busy: bool
    var reader: Position
    var wanted: int
    var single: bool      // no read-ahead
    var readDone: bool
    ghost var filled: nat
    ghost var interrupted: bool
    ghost var cells: seq<Cell>

    ghost predicate Fixed() {
      && |buffers| > 0 && segmentsPerTrack > 0
      && forall i, j :: 0 <= i < j < |buffers| ==> buffers[i] != buffers[j]
    }

    /** cs describes all buffers but one. */
    ghost predicate Tied(cs: seq<Cell>, except: int)
      reads buffers
    {
      |cs| == |buffers| && forall j :: 0 <= j < |buffers| && j != except ==> cs[j] == View(buffers[j], tape)
    }

    lemma TiedAt(cs: seq<Cell>, i: nat)
      requires Tied(cs, -1) && i < |buffers|
      ensures |cs| == |buffers| && cs[i] == View(buffers[i], tape) && Tied(cs, i)
    {}

    lemma SameLength()
      requires Tied(cells, -1)
      ensures |cells| == |buffers|
    {}

    lemma TiedLength(cs: seq<Cell>, i: nat)
      requires Tied(cs, i)
      ensures |cs| == |buffers|
    {}

    /** Only buffer i has changed. */
    twostate lemma StillTied(new cs: seq<Cell>, new i: nat)
      requires Fixed() && i < |buffers| && old(Tied(cs, i))
      requires forall j :: 0 <= j < |buffers| && buffers[j] != buffers[i] ==>
                 View(buffers[j], tape) == old(View(buffers[j], tape))
      ensures Tied(cs, i) && Tied(cs[i := View(buffers[i], tape)], -1)
    {}

    ghost function State(): RingState
      reads this
    {
      RingState(cells, head, tail, filled, interrupted, runner, busy, reader, oldSegmentId)
    }

    ghost predicate Valid()
      reads this, buffers
    {
      Fixed() && Tied(cells, -1) && Good(State())
    }

    /** All buffers are free and nothing runs. */
    constructor (buffers: seq<Buffer>, tape: int -> Segment, softRetries: int, segmentsPerTrack: int)
      requires |buffers| > 0 && segmentsPerTrack > 0
      requires forall i, j :: 0 <= i < j < |buffers| ==> buffers[i] != buffers[j]
      requires forall i :: 0 <= i < |buffers| ==>
                 var b := buffers[i]; b.status == Waiting && |b.memory| == 32 && b.skip == 0
      ensures this.buffers == buffers && this.tape == tape && this.softRetries == softRetries
      ensures this.segmentsPerTrack == segmentsPerTrack
      ensures Valid() && Contents(State()) && Flags(State()) && State() == Zapped(cells, Outside)
    {
      hide Good, Contents, Flags, View;
      hide Buffer.InTransfer, Buffer.Complete, Buffer.Stored, Buffer.Resumable, Buffer.FlagsOnGood, Buffer.Positioned;
      this.buffers, this.tape, this.softRetries, this.segmentsPerTrack := buffers, tape, softRetries, segmentsPerTrack;
      head, tail, filled, interrupted := 0, 0, 0, false;
      runner, busy, reader, oldSegmentId := Idle, false, Outside, -1;
      new;
      TieAll();
      ZappedGood(cells, Outside);
      assert State() == Zapped(cells, Outside);
    }

    // ----- the interrupt handler -----

    /** The interrupt handler has worked on HEAD, whose cell is not up to date. */
    ghost predicate Handling()
      reads this, buffers
    {
      && Fixed() && Good(State()) && runner == Running && head < |buffers| && Tied(cells, head)
      && var b := buffers[head];
      && b.status == Reading && b.segmentId == cells[head].segmentId
      && (b.nextSegment == 0 || b.nextSegment == b.segmentId + 1)
      && |b.memory| == 32 && 0 <= b.skip < 32
    }

    ghost predicate AtEnd(t: Segment)
      reads this, buffers
    {
      && head < |buffers|
      && var b := buffers[head];
      t == tape(b.segmentId)
      && ((Unusable(t.bad) && b.ptr == b.dmaAddress) || (b.Positioned(t.bad) && b.sectorOffset == 32))
    }

    /** Buffers other than the HEAD that was worked on, and a new HEAD that is being read, are untouched;
        and so are full buffers in any case. */
    twostate predicate Spares()
      reads this, buffers
    {
      && old(head) < |buffers| && head < |buffers|
      && forall i :: 0 <= i < |buffers| ==>
           || unchanged(buffers[i])
           || (&& old(buffers[i].status) != Done
               && (buffers[i] == buffers[old(head)] || (buffers[i] == buffers[head] && runner == Running)))
    }

    /** The account of the HEAD that was worked on. */
    ghost predicate Keeps(h: nat, account: Account)
      reads buffers
    {
      h < |buffers| && AccountOf(buffers[h]) == account
    }

    function TheMedium(): Medium {
      Medium(id => tape(id).bad, softRetries, segmentsPerTrack)
    }

    /** The ring as a value, without what depends on the data. */
    ghost function Where(): Place
      reads this, buffers
    {
      Place(Plain(State()), if busy then HeadOffset() else 0)
    }

    /** What the drive knows between two steps. */
    ghost function Now(): Moment
      reads this, buffers
    {
      Moment(Where(), wanted, readDone, single)
    }

    /** HEAD as a value. */
    ghost function HeadShape(): Cell
      reads this, buffers
      requires head < |buffers|
    {
      Shape(buffers[head])
    }

    /** After segment last, with next to follow, the runner stops at the end of a track, without read-ahead
        and when all buffers are full, and otherwise reads the next segment. */
    ghost predicate StopsOrGoesOn(last: int, next: int)
      reads this, buffers
    {
      && head < |buffers|
      && if EndsTrack(TheMedium(), last) then runner == LogicalEot
         else if next == 0 || buffers[head].status == Done then runner == Idle
         else runner == Running && buffers[head].segmentId == last + 1
    }

    /** The contents are right, and so are the first n sectors of HEAD. */
    ghost predicate ContentsTo(t: Segment, n: int)
      reads this, buffers
    {
      && Contents(State()) && head < |buffers| && |buffers[head].memory| == 32 && n <= 32
      && buffers[head].Stored(t, n)
    }

    /** Error flags are on good sectors only, those of HEAD included. */
    ghost predicate FlagsNow(t: Segment)
      reads this, buffers
    {
      Flags(State()) && head < |buffers| && buffers[head].FlagsOnGood(t.bad)
    }

    ghost function HeadOffset(): int
      reads this, buffers
    {
      if head < |buffers| then buffers[head].sectorOffset else 0
    }

    ghost function HeadCount(): int
      reads this, buffers
    {
      if head < |buffers| then buffers[head].sectorCount else 0
    }

    /** The end of continue_xfer: the segment in HEAD is complete.  Stop at the end of a track, without
        read-ahead or with all buffers full, or else go on with the next segment.  The first cluster
        of a fresh segment is never empty, so read-ahead never fails to start. */
    method FinishSegment(ghost t: Segment)
      requires Handling() && AtEnd(t)
      modifies this`head, this`filled, this`busy, this`runner, this`oldSegmentId, this`cells, buffers
      ensures Valid() && filled == old(filled) + 1 && head == Rings.Next(old(head), |buffers|) && runner != Aborting
      ensures |old(cells)| == |buffers| && Where() == Completed(TheMedium(), old(Plain(State())), old(HeadShape()))
      ensures Keeps(old(head), old(AccountOf(buffers[head]))) && Spares() && buffers[old(head)].status == Done
      ensures StopsOrGoesOn(old(buffers[head].segmentId), old(buffers[head].nextSegment))
      ensures old(Contents(State()) && View(buffers[head], tape).stored) ==> Contents(State())
      ensures old(Flags(State()) && View(buffers[head], tape).clean) ==> Flags(State())
    {
      hide Contents, Flags, View, Good, LastFull, AtEnd, Tied, Fixed, RingSteps.EndsTrack, Begun, Plain;
      SameHead();
      var last, next := buffers[head].segmentId, buffers[head].nextSegment;
      var eot := RingSteps.EndsTrack(TheMedium(), last);
      CloseHead(if eot then LogicalEot else Idle, t);
      EndsNow();
      if !eot && next != 0 && buffers[head].status == Waiting {
        BeginNext(next);
      }
    }

    /** HEAD is full, and the runner stops for the time being. */
    method CloseHead(stopped: Runner, ghost t: Segment)
      requires Handling() && AtEnd(t) && (stopped == Idle || stopped == LogicalEot)
      modifies this`head, this`filled, this`busy, this`runner, this`cells, buffers[head]
      ensures Valid() && filled == old(filled) + 1 && head == Rings.Next(old(head), |buffers|) && runner == stopped
      ensures Keeps(old(head), old(AccountOf(buffers[head]))) && |old(cells)| == |buffers|
      ensures buffers[old(head)].status == Done
      ensures Where() == Place(Finished(old(Plain(State())), old(HeadShape()).(status := Done), stopped), 0)
      ensures tail < |buffers| && filled <= |buffers| && LastFull(State()) == old(buffers[head].segmentId)
      ensures buffers[head].status == Waiting || buffers[head].status == Done
      ensures !interrupted && reader != Stopping && oldSegmentId == old(buffers[head].segmentId)
      ensures old(Contents(State()) && View(buffers[head], tape).stored) ==> Contents(State())
      ensures old(Flags(State()) && View(buffers[head], tape).clean) ==> Flags(State())
    {
      hide Contents, Flags, View, Good, LastFull, AtEnd, Tied, Plain;
      var b := buffers[head];
      SameHead();
      ghost var s := State();
      RunningHead(s);
      CompleteHead(stopped, t);
      FinishedKeeps(s, View(b, tape), stopped);
      PlainFinished(s, View(b, tape), stopped);
      ViewOf(b, tape);
      TiedAt(cells, head);
      ViewOf(buffers[head], tape);
    }

    method CompleteHead(stopped: Runner, ghost t: Segment)
      requires Handling() && AtEnd(t) && (stopped == Idle || stopped == LogicalEot)
      modifies this`head, this`filled, this`busy, this`runner, this`cells, buffers[head]
      ensures Keeps(old(head), old(AccountOf(buffers[head]))) && |old(cells)| == |buffers|
      ensures buffers[old(head)].status == Done
      ensures State() == Finished(old(State()), View(buffers[old(head)], tape), stopped) && Tied(cells, -1)
      ensures var c := View(buffers[old(head)], tape);
              c.status == Done && c.sane && c.segmentId == old(buffers[head].segmentId)
      ensures old(View(buffers[head], tape).stored) ==> View(buffers[old(head)], tape).whole
      ensures old(View(buffers[head], tape).clean) ==> View(buffers[old(head)], tape).clean
    {
      hide Contents, Flags, View, Good, Next, Fixed, Tied;
      var b := buffers[head];
      TiedLength(cells, head);
      FinishBuffer(b, t);
      StillTied(cells, head);
      cells, filled := cells[head := View(b, tape)], filled + 1;
      head, busy, runner := Rings.Next(head, |buffers|), false, stopped;
    }

    method FinishBuffer(b: Buffer, ghost t: Segment)
      requires |b.memory| == 32 && 0 <= b.skip < 32 && t == tape(b.segmentId)
      requires (Unusable(t.bad) && b.ptr == b.dmaAddress) || (b.Positioned(t.bad) && b.sectorOffset == 32)
      modifies b`bytes, b`status
      ensures b.status == Done && b.bytes == b.ptr - b.dmaAddress
      ensures var c := View(b, tape); c.status == Done && c.sane && c.segmentId == b.segmentId
      ensures old(View(b, tape).stored) ==> View(b, tape).whole
      ensures old(View(b, tape).clean) ==> View(b, tape).clean
    {
      hide View, FAKE_SEGMENT;
      hide Buffer.InTransfer, Buffer.Complete, Buffer.Stored, Buffer.Resumable, Buffer.FlagsOnGood, Buffer.Positioned;
      ViewOf(b, tape);
      b.Finish(t);
      ViewOf(b, tape);
    }

    method BeginNext(next: int)
      requires Valid() && runner == Idle && filled > 0 && head < |buffers| && buffers[head].status == Waiting
      requires tail < |buffers| && filled <= |buffers|
      requires !interrupted && reader != Stopping && oldSegmentId != next == LastFull(State()) + 1
      modifies this`busy, this`runner, this`oldSegmentId, this`cells, buffers[head]
      ensures Valid() && runner == Running && buffers[head].segmentId == next && buffers[head].status == Reading
      ensures |old(cells)| == |buffers| && State() == RingModel.ReadAhead(old(State()), View(buffers[head], tape))
      ensures Where() == Begun(TheMedium(), old(Plain(State())), next)
      ensures old(Contents(State())) ==> Contents(State())
      ensures old(Flags(State())) ==> Flags(State())
    {
      hide Contents, Flags, FAKE_SEGMENT, View, Good, LastFull, Fixed, Tied;
      hide Buffer.InTransfer, Buffer.Complete, Buffer.Stored, Buffer.Resumable, Buffer.FlagsOnGood, Buffer.Positioned;
      var b := buffers[head];
      ghost var s := State();
      TiedAt(cells, head);
      HeadCell(s);
      ViewOf(b, tape);
      BeginBuffer(b, next);
      ghost var c := View(b, tape);
      PlainReadAhead(s, c);
      hide Plain, ClusterStart;
      ReadAheadKeeps(s, c);
      oldSegmentId, busy, runner := next, true, Running;
      StillTied(cells, head);
      cells := cells[head := c];
      assert State() == RingModel.ReadAhead(s, c);
    }

    /** Set up a buffer for another segment than before. */
    method BeginBuffer(b: Buffer, next: int)
      requires next != oldSegmentId && |b.memory| == 32 && 0 <= b.skip < 32
      modifies b
      ensures Bare(View(b, tape)) == Shape(b) == BareCell(Reading, next, Track(next + 1, 0, NO_SECTORS, NO_SECTORS, 0))
      ensures b.sectorOffset == ClusterStart(tape(next).bad, 0)
      ensures var c := View(b, tape); c.sane && c.ready && c.stored && c.clean
    {
      hide FAKE_SEGMENT, View, ClusterStart;
      hide Buffer.InTransfer, Buffer.Complete, Buffer.Stored, Buffer.Resumable, Buffer.FlagsOnGood, Buffer.Positioned;
      b.NothingBefore(tape(next));
      b.status := Reading;
      var n := b.Begin(next, tape(next).bad, next == oldSegmentId, false, tape(next));
      assert n > 0;
      ViewOf(b, tape);
      b.AtFirstCluster(tape(next), 0);
    }

    /** What has been dealt with in HEAD is stored or flagged. */
    ghost predicate Kept(t: Segment)
      reads this, buffers
    {
      && head < |buffers|
      && var b := buffers[head];
      || (b.badSectorMap == FAKE_SEGMENT && b.remaining == 0)
      || (|b.memory| == 32 && b.sectorOffset <= 32 && b.Stored(t, b.sectorOffset))
    }

    /** HEAD, which was number h and at sector o with filled0 full buffers, goes on with its next good
        sector; if and only if none is left, it is full. */
    ghost predicate Proceeds(t: Segment, h: nat, filled0: nat, o: int, remaining: int, next: int)
      reads this, buffers
    {
      && h < |buffers|
      && var b := buffers[h];
         if filled == filled0 then
           && head == h && remaining > 0 && 0 <= o <= b.sectorOffset < 32 && !t.bad[b.sectorOffset]
           && forall s :: o <= s < b.sectorOffset ==> t.bad[s]
         else
           && filled == filled0 + 1 && b.status == Done && StopsOrGoesOn(b.segmentId, next)
           && (remaining > 0 ==> forall s :: 0 <= s < 32 && o <= s ==> t.bad[s])
    }

    /** continue_xfer: go on in the same segment, or finish it.  The runner and the buffer are always
        in the state that the source checks for. */
    method ContinueXfer(ghost t: Segment)
      requires Handling() && t == tape(buffers[head].segmentId)
      requires var b := buffers[head];
               || (Unusable(t.bad) && b.ptr == b.dmaAddress && b.remaining == 0)
               || (b.Positioned(t.bad) && b.SoftBehind())
      modifies this`head, this`filled, this`busy, this`runner, this`oldSegmentId, this`cells, buffers
      ensures Valid() && runner != Aborting && |old(cells)| == |buffers|
      ensures Where() == if old(buffers[head].remaining) > 0
                         then Proceeded(TheMedium(), old(Plain(State())), old(HeadShape()), old(HeadOffset()))
                         else Completed(TheMedium(), old(Plain(State())), old(HeadShape()))
      ensures Keeps(old(head), old(AccountOf(buffers[head]))) && Spares()
      ensures Proceeds(t, old(head), old(filled), old(buffers[head].sectorOffset), old(buffers[head].remaining),
                       old(buffers[head].nextSegment))
      ensures old(Contents(State()) && Kept(t)) ==> Contents(State())
      ensures old(FlagsNow(t)) ==> Flags(State())
    {
      hide Contents, Flags, FAKE_SEGMENT, View, Good, Fixed, Tied, StopsOrGoesOn, Completed, Plain;
      hide Handling, AtEnd, Kept, Buffer.InTransfer, Buffer.Positioned, Buffer.FlagsOnGood;
      HandlingHead();
      var n := AdvanceHead(t);
      HandlingHead();
      if n > 0 {
        GoOn();
      } else {
        FinishSegment(t);
      }
    }

    /** Find the next cluster of HEAD, if anything is left of the segment. */
    method AdvanceHead(ghost t: Segment) returns (n: int)
      requires Handling() && t == tape(buffers[head].segmentId)
      requires var b := buffers[head];
               || (Unusable(t.bad) && b.ptr == b.dmaAddress && b.remaining == 0)
               || (b.Positioned(t.bad) && b.SoftBehind())
      modifies buffers[head]
      ensures Handling() && Keeps(head, old(AccountOf(buffers[head])))
      ensures buffers[head].status == old(buffers[head].status)
      ensures n > 0 ==>
                var b, o := buffers[head], old(buffers[head].sectorOffset);
                && b.InTransfer(t) && old(b.remaining) > 0 && 0 <= o <= b.sectorOffset < 32 && !t.bad[b.sectorOffset]
                && forall s :: o <= s < b.sectorOffset ==> t.bad[s]
      ensures n <= 0 ==>
                && AtEnd(t)
                && (old(buffers[head].remaining) > 0 ==>
                      forall s :: 0 <= s < 32 && old(buffers[head].sectorOffset) <= s ==> t.bad[s])
      ensures old(buffers[head].remaining) > 0 ==>
                SkipOver(t.bad, true, old(HeadOffset())) == (if n > 0 then HeadOffset() else 32)
      ensures old(Kept(t)) ==> View(buffers[head], tape).stored
      ensures old(buffers[head].FlagsOnGood(t.bad)) ==> View(buffers[head], tape).clean
    {
      hide Contents, Flags, FAKE_SEGMENT, View, Good, Fixed, Tied;
      hide Buffer.InTransfer, Buffer.Complete, Buffer.Stored, Buffer.Resumable, Buffer.FlagsOnGood;
      hide Packed, ShiftRight, SkipOver, EMPTY_SEGMENT, NO_SECTORS, Unusable, BareAll;
      var b := buffers[head];
      ViewOf(b, tape);
      n := 0;
      if b.remaining > 0 {
        ghost var o := b.sectorOffset;
        n := b.NextCluster(t);
        SkipOverIs(t.bad, true, o, b.sectorOffset);
        ViewOf(b, tape);
        StillTied(cells, head);
      }
    }

    /** The next cluster of HEAD is to be read. */
    method GoOn()
      requires Handling() && buffers[head].InTransfer(tape(buffers[head].segmentId))
      modifies this`busy, this`cells
      ensures Valid() && |old(cells)| == |buffers| && runner == old(runner) && head == old(head)
      ensures filled == old(filled)
      ensures Where() == Place(Continued(old(Plain(State())), HeadShape()), HeadOffset())
      ensures old(Contents(State())) && View(buffers[head], tape).stored ==> Contents(State())
      ensures old(Flags(State())) && View(buffers[head], tape).clean ==> Flags(State())
    {
      hide Contents, Flags, FAKE_SEGMENT, View, Good, Fixed, Tied;
      hide Buffer.InTransfer, Buffer.Complete, Buffer.Stored, Buffer.Resumable, Buffer.FlagsOnGood;
      ghost var s, c := State(), View(buffers[head], tape);
      TiedLength(cells, head);
      RunningHead(s);
      ViewOf(buffers[head], tape);
      ContinuedKeeps(s, c);
      StillTied(cells, head);
      BareUpdate(cells, head, c);
      cells, busy := cells[head := c], true;
      assert State() == Continued(s, c);
    }

    /** retry_sector */
    method RetrySector(at: int, ghost t: Segment)
      requires Handling() && t == tape(buffers[head].segmentId)
      requires 0 <= at < 32 && forall k :: 0 <= k < at ==> !buffers[head].softErrorMap[k]
      modifies this`busy, this`runner, this`interrupted, this`cells, buffers[head]
      ensures Valid() && |old(cells)| == |buffers| && runner == Aborting
      ensures var c := old(HeadShape());
              Where() == Place(GivenUp(old(Plain(State())), c.(status := Error, track := c.track.(skip := at))), 0)
      ensures Keeps(head, old(AccountOf(buffers[head])).(skip := at)) && buffers[head].status == Error
      ensures buffers[head].sectorOffset == old(buffers[head].sectorOffset)
      ensures old(ContentsTo(t, at)) ==> Contents(State())
      ensures old(FlagsNow(t)) ==> Flags(State())
    {
      hide Contents, Flags, FAKE_SEGMENT, View, Good, Fixed, Tied;
      hide Buffer.InTransfer, Buffer.Complete, Buffer.Stored, Buffer.Resumable, Buffer.FlagsOnGood;
      var b := buffers[head];
      ghost var s := State();
      TiedLength(cells, head);
      RunningHead(s);
      b.GiveUp(at, t);
      ghost var c := View(b, tape);
      ViewOf(b, tape);
      GivenUpKeeps(s, c);
      StillTied(cells, head);
      BareUpdate(cells, head, c);
      cells, busy, runner, interrupted := cells[head := c], false, Aborting, true;
      assert State() == GivenUp(s, c);
    }

    /** The read branch of handle_fdc_busy.  fdcCount and residue are what the controllers report;
        noise is what may have landed behind the sectors that have really arrived.  Only an error that is
        reported for an empty cluster flags a bad sector. */
    method ReadInterrupt(cause: Cause, fdcCount: nat, residue: Option<nat>, noise: int -> Block)
      returns (ghost resume: Option<int>)
      requires Valid() && busy && head < |buffers| && Countable(buffers[head].sectorCount, fdcCount, residue)
      modifies this`head, this`filled, this`busy, this`runner, this`interrupted, this`oldSegmentId, this`cells, buffers
      ensures Valid() && Spares() && old(head) < |old(cells)| == |buffers|
      ensures old(runner) != DoAbort ==> Answers(cause, fdcCount, residue, resume)
      ensures Where() == Interrupted(TheMedium(), old(Where()), cause, fdcCount, residue)
      ensures old(Contents(State())) ==> Contents(State())
      ensures old(Flags(State())) && !(old(runner != DoAbort && HeadCount() == 0) && cause != NoError
                                       && residue.None?) ==>
                Flags(State())
    {
      hide Contents, Flags, FAKE_SEGMENT, View, Good, Fixed, Tied, Answers, Answered;
      BusyHead();
      BusyRunner(State());
      if runner == DoAbort {
        IgnoredKeeps(State());
        busy := false;
        resume := None;
      } else {
        resume := Answer(cause, fdcCount, residue, noise);
      }
    }

    /** The read branch for a command that is not aborted. */
    method Answer(cause: Cause, fdcCount: nat, residue: Option<nat>, noise: int -> Block)
      returns (ghost resume: Option<int>)
      requires Valid() && busy && runner == Running && head < |buffers|
      requires Countable(buffers[head].sectorCount, fdcCount, residue)
      modifies this`head, this`filled, this`busy, this`runner, this`interrupted, this`oldSegmentId, this`cells, buffers
      ensures Valid() && Spares() && Answers(cause, fdcCount, residue, resume) && old(head) < |old(cells)| == |buffers|
      ensures Where() == Answered(TheMedium(), old(Where()), cause, fdcCount, residue)
      ensures old(Contents(State())) ==> Contents(State())
      ensures old(Flags(State())) && !(old(HeadCount() == 0) && cause != NoError && residue.None?) ==> Flags(State())
    {
      hide Contents, Flags, FAKE_SEGMENT, View, Good, Fixed, Tied, StopsOrGoesOn, Reacts, TransferSize, Transported;
      hide Handling, ContentsTo, FlagsNow, Kept, Buffer.InTransfer, Completed, Transferred, Unusable, Plain;
      hide StaysOrFills;
      BusyHead();
      BeginsHandling();
      SameHead();
      ghost var s := State();
      AnsweredRing(TheMedium(), Where(), cause, fdcCount, residue);
      var t := tape(buffers[head].segmentId);
      SizeOfNothing(cause, fdcCount, residue);
      resume := None;
      if buffers[head].badSectorMap == FAKE_SEGMENT {
        SkipUnusable(noise(0), t);
      } else {
        var size := TransferSize(cause, buffers[head].sectorCount, fdcCount, residue);
        var arrived := Transported(cause, buffers[head].sectorCount, fdcCount, residue);
        AcceptedArrived(cause, buffers[head].sectorCount, fdcCount, residue);
        resume := HandleSectors(cause, size, arrived, noise, t);
      }
      StaysPlain(s, State());
    }

    /** The outstanding command, as the machine on values sees it. */
    lemma BusyHead()
      requires Valid() && busy
      ensures head < |buffers| == |cells| && Plain(State()).cells[head] == HeadShape()
      ensures buffers[head].sectorCount == ClusterSize(tape(buffers[head].segmentId).bad, HeadOffset()) >= 0
      ensures (buffers[head].sectorCount == 0 <==> HeadOffset() == 32) && 0 <= HeadOffset() <= 32
      ensures buffers[head].badSectorMap == FAKE_SEGMENT <==>
                Unusable(tape(buffers[head].segmentId).bad) && HeadOffset() == 0
    {
      hide Contents, Flags, FAKE_SEGMENT, EMPTY_SEGMENT, View, Good, Fixed, Tied, Buffer.InTransfer;
      InRange(State());
      SameLength();
      TiedAt(cells, head);
      BusyReady(State());
      ViewOf(buffers[head], tape);
      buffers[head].AtCount(tape(buffers[head].segmentId));
    }

    /** What the handler can rely on while the runner runs. */
    lemma BeginsHandling()
      requires Valid() && runner == Running && head < |buffers|
      ensures Handling() && !(buffers[head].badSectorMap == FAKE_SEGMENT && buffers[head].sectorCount == 0)
      ensures var t := tape(buffers[head].segmentId);
              && buffers[head].InTransfer(t) && (Flags(State()) ==> FlagsNow(t))
              && (Contents(State()) && buffers[head].badSectorMap != FAKE_SEGMENT ==> ContentsTo(t, HeadOffset()))
    {
      hide Contents, Flags, FAKE_SEGMENT, View, Good, Fixed, Tied;
      hide Buffer.Complete, Buffer.Stored, Buffer.Resumable, Buffer.FlagsOnGood, Buffer.Positioned;
      TiedAt(cells, head);
      RunningHead(State());
      ViewOf(buffers[head], tape);
      HeadKept(State());
    }

    /** An unusable segment is complete without any data. */
    method SkipUnusable(noise: Block, ghost t: Segment)
      requires Handling() && t == tape(buffers[head].segmentId)
      requires buffers[head].InTransfer(t) && buffers[head].badSectorMap == FAKE_SEGMENT
      modifies this`head, this`filled, this`busy, this`runner, this`oldSegmentId, this`cells, buffers
      ensures Valid() && Spares() && filled == old(filled) + 1
      ensures |old(cells)| == |buffers| && Where() == Completed(TheMedium(), old(Plain(State())), old(HeadShape()))
      ensures old(Contents(State())) ==> Contents(State())
      ensures old(FlagsNow(t)) ==> Flags(State())
    {
      hide Contents, Flags, FAKE_SEGMENT, View, Good, Fixed, Tied, StopsOrGoesOn, Completed, Plain;
      hide Buffer.Complete, Buffer.Stored, Buffer.Resumable, Buffer.FlagsOnGood;
      buffers[head].SkipFake(noise, t);
      StillTied(cells, head);
      ContinueXfer(t);
    }

    /** What the interrupt of a command does that is not aborted: the segment is complete if it is an unusable
        one; otherwise it depends on the result. */
    twostate predicate Answers(new cause: Cause, new fdcCount: nat, new residue: Option<nat>, new resume: Option<int>)
      reads this, buffers
    {
      && old(head) < |buffers|
      && var b := buffers[old(head)];
      && old(b.sectorCount) >= 0
      && old(head) < |old(cells)| && StaysOrFills(old(State()), State())
      && if old(b.badSectorMap) == FAKE_SEGMENT then filled == old(filled) + 1
         else Reacts(cause, TransferSize(cause, old(b.sectorCount), fdcCount, residue), resume)
    }

    /** How the handler reacts to the result of a read command: it gives the transfer up at the point of
        resumption, or goes on and completes the segment when nothing is left of it.  Blocks before the
        cluster are not touched. */
    twostate predicate Reacts(new cause: Cause, new size: Option<nat>, new resume: Option<int>)
      reads this, buffers
    {
      && old(head) < |buffers|
      && var b := buffers[old(head)];
         var e := FailingSector(cause, size, old(b.sectorOffset), old(b.sectorCount));
         var next := e + (if cause == NoError then 0 else 1);
         && Handled(cause, size, softRetries, e, old(b.dataOffset), old(AccountOf(b)),
                    AccountOf(b).(skip := old(b.skip)), resume)
         && b.skip == (if resume.Some? then resume.value else old(b.skip))
         && if resume.Some? then runner == Aborting && b.status == Error
            else
              && runner != Aborting
              && (next == 32 ==> filled == old(filled) + 1)
              && if filled == old(filled) then
                   0 <= next <= b.sectorOffset < 32 && !tape(b.segmentId).bad[b.sectorOffset]
                   && forall s :: next <= s < b.sectorOffset ==> tape(b.segmentId).bad[s]
                 else
                   && filled == old(filled) + 1 && b.status == Done && StopsOrGoesOn(b.segmentId, b.nextSegment)
                   && forall s :: 0 <= s < 32 && next <= s ==> tape(b.segmentId).bad[s]
    }

    /** The part of the read branch for segments that are really transferred.  arrived is the number of sectors
        that are in memory as they are on tape. */
    method HandleSectors(cause: Cause, size: Option<nat>, arrived: int, noise: int -> Block, t: Segment)
      returns (ghost resume: Option<int>)
      requires Handling() && t == tape(buffers[head].segmentId)
      requires size.Some? ==>
                 && size.value <= buffers[head].sectorCount
                 && Arrived(cause, buffers[head].sectorCount, size.value) <= arrived
      requires var b := buffers[head]; b.InTransfer(t) && b.badSectorMap != FAKE_SEGMENT
      modifies this`head, this`filled, this`busy, this`runner, this`interrupted, this`oldSegmentId, this`cells, buffers
      ensures Valid() && Spares() && Reacts(cause, size, resume) && |old(cells)| == |buffers|
      ensures Where() == Transferred(TheMedium(), old(Plain(State())), old(HeadShape()), old(HeadOffset()),
                                     old(HeadCount()), cause, size)
      ensures old(ContentsTo(t, HeadOffset())) ==> Contents(State())
      ensures (size.None? || cause == NoError || old(HeadCount()) > 0) && old(FlagsNow(t)) ==> Flags(State())
    {
      hide Contents, Flags, FAKE_SEGMENT, View, Good, Fixed, Tied, StopsOrGoesOn, Handled, Decided, Transferred;
      hide Handling, ContentsTo, FlagsNow, FailingSector, Plain;
      hide Buffer.InTransfer, Buffer.Positioned, Buffer.SoftBehind;
      HandlingHead();
      var at := HandleHead(cause, size, arrived, noise, t);
      resume := at;
      ResumeOrContinue(at, t);
    }

    lemma SameHead()
      requires Handling()
      ensures head < |buffers| == |cells| && Plain(State()).head == head && |Plain(State()).cells| == |buffers|
    {}

    lemma HandlingHead()
      requires Handling()
      ensures head < |buffers| && buffers[head].status == Reading && runner == Running
    {}

    /** What the result means for HEAD. */
    method HandleHead(cause: Cause, size: Option<nat>, arrived: int, noise: int -> Block, t: Segment)
      returns (at: Option<int>)
      requires Handling() && t == tape(buffers[head].segmentId)
      requires size.Some? ==>
                 && size.value <= buffers[head].sectorCount
                 && Arrived(cause, buffers[head].sectorCount, size.value) <= arrived
      requires var b := buffers[head]; b.InTransfer(t) && b.badSectorMap != FAKE_SEGMENT
      modifies buffers[head]
      ensures Handling() && t == tape(buffers[head].segmentId) && buffers[head].status == old(buffers[head].status)
      ensures buffers[head].skip == old(buffers[head].skip)
      ensures |Plain(State()).cells| == |buffers| && Plain(State()).head == head
      ensures Decided(TheMedium(), Plain(State()), HeadShape(), at, HeadOffset()) ==
              Transferred(TheMedium(), Plain(State()), old(HeadShape()), old(HeadOffset()), old(HeadCount()), cause,
                          size)
      ensures buffers[head].Positioned(t.bad) && buffers[head].SoftBehind() && buffers[head].sectorOffset <= 32
      ensures at.Some? ==> 0 <= at.value < 32 && forall k :: 0 <= k < at.value ==> !buffers[head].softErrorMap[k]
      ensures buffers[head].sectorOffset + buffers[head].remaining == 32 && (size.None? ==> at.Some?)
      ensures var b := buffers[head];
              var e := FailingSector(cause, size, old(b.sectorOffset), old(b.sectorCount));
              && Handled(cause, size, softRetries, e, old(b.dataOffset), old(AccountOf(b)), AccountOf(b), at)
              && (size.Some? ==> b.sectorOffset == e + (if cause == NoError then 0 else 1))
      ensures old(ContentsTo(t, HeadOffset())) ==> ContentsTo(t, if at.Some? then at.value else HeadOffset())
      ensures (size.None? || cause == NoError || old(HeadCount()) > 0) && old(FlagsNow(t)) ==> FlagsNow(t)
    {
      hide Contents, Flags, FAKE_SEGMENT, View, Good, Handled, Decided, Transferred, FailingSector, Plain, Handling;
      hide ContentsTo, FlagsNow, Buffer.InTransfer, Buffer.Positioned, Buffer.SoftBehind;
      SameHead();
      ghost var c, was, d := HeadShape(), AccountOf(buffers[head]), buffers[head].dataOffset;
      ghost var o, count := HeadOffset(), HeadCount();
      at := DigestResult(cause, size, arrived, noise, t);
      SameHead();
      Concludes(TheMedium(), Plain(State()), c, HeadShape(), o, count, cause, size, d, was,
                AccountOf(buffers[head]), at, HeadOffset());
    }

    /** What the result means for HEAD, in its buffer. */
    method DigestResult(cause: Cause, size: Option<nat>, arrived: int, noise: int -> Block, t: Segment)
      returns (at: Option<int>)
      requires Handling() && t == tape(buffers[head].segmentId)
      requires size.Some? ==>
                 && size.value <= buffers[head].sectorCount
                 && Arrived(cause, buffers[head].sectorCount, size.value) <= arrived
      requires var b := buffers[head]; b.InTransfer(t) && b.badSectorMap != FAKE_SEGMENT
      modifies buffers[head]
      ensures Handling() && t == tape(buffers[head].segmentId) && buffers[head].status == old(buffers[head].status)
      ensures buffers[head].skip == old(buffers[head].skip)
      ensures HeadShape() == old(HeadShape()).(track := TrackIn(AccountOf(buffers[head])))
      ensures buffers[head].Positioned(t.bad) && buffers[head].SoftBehind() && buffers[head].sectorOffset <= 32
      ensures at.Some? ==> 0 <= at.value < 32 && forall k :: 0 <= k < at.value ==> !buffers[head].softErrorMap[k]
      ensures buffers[head].sectorOffset + buffers[head].remaining == 32 && (size.None? ==> at.Some?)
      ensures var b := buffers[head];
              var e := FailingSector(cause, size, old(b.sectorOffset), old(b.sectorCount));
              && Handled(cause, size, softRetries, e, old(b.dataOffset), old(AccountOf(b)), AccountOf(b), at)
              && (size.Some? ==> b.sectorOffset == e + (if cause == NoError then 0 else 1))
      ensures old(ContentsTo(t, HeadOffset())) ==> ContentsTo(t, if at.Some? then at.value else HeadOffset())
      ensures (size.None? || cause == NoError || old(HeadCount()) > 0) && old(FlagsNow(t)) ==> FlagsNow(t)
    {
      hide Contents, Flags, FAKE_SEGMENT, View, Good, Arrived, Fixed, Tied;
      hide Buffer.Complete, Buffer.Stored, Buffer.Resumable, Buffer.FlagsOnGood, Buffer.Positioned, Buffer.SoftBehind;
      hide Outcome, FailingSector, Packed, ShiftRight;
      var b := buffers[head];
      var landed := Landed(t, b.sectorOffset, b.sectorCount, arrived, noise);
      ArrivedBelow(cause, b.sectorCount, size);
      b.InBuffer(t);
      at := b.HandleResult(cause, size, landed, softRetries, t);
      StillTied(cells, head);
    }

    method ResumeOrContinue(at: Option<int>, ghost t: Segment)
      requires Handling() && t == tape(buffers[head].segmentId)
      requires buffers[head].Positioned(t.bad) && buffers[head].SoftBehind() && buffers[head].sectorOffset <= 32
      requires at.Some? ==> 0 <= at.value < 32 && forall k :: 0 <= k < at.value ==> !buffers[head].softErrorMap[k]
      modifies this`head, this`filled, this`busy, this`runner, this`interrupted, this`oldSegmentId, this`cells, buffers
      ensures Valid() && Spares() && old(head) < |buffers| == |old(cells)|
      ensures Where() == Decided(TheMedium(), old(Plain(State())), old(HeadShape()), at, old(HeadOffset()))
      ensures var account := old(AccountOf(buffers[head]));
              Keeps(old(head), if at.Some? then account.(skip := at.value) else account)
      ensures at.Some? ==> runner == Aborting && buffers[old(head)].status == Error
      ensures at.None? ==>
                runner != Aborting &&
                Proceeds(t, old(head), old(filled), old(buffers[head].sectorOffset), old(buffers[head].remaining),
                         old(buffers[head].nextSegment))
      ensures old(ContentsTo(t, if at.Some? then at.value else HeadOffset())) ==> Contents(State())
      ensures old(FlagsNow(t)) ==> Flags(State())
    {
      hide Contents, Flags, FAKE_SEGMENT, View, Good, Fixed, Tied, Proceeds, Keeps, Completed, Plain;
      hide Buffer.Complete, Buffer.Stored, Buffer.Resumable, Buffer.FlagsOnGood, Buffer.Positioned, Buffer.SoftBehind;
      if at.Some? {
        RetrySector(at.value, t);
      } else {
        HandlingHead();
        buffers[head].NothingRemains(t);
        ContinueXfer(t);
      }
    }

    // ----- the reader -----

    /** HEAD and TAIL, as the machine on values sees them. */
    lemma EndsNow()
      requires Valid()
      ensures head < |buffers| == |cells| && tail < |buffers| && Indexed(Now())
      ensures Now().place.ring.cells[tail] == Shape(buffers[tail]) && Now().place.ring.cells[head] == HeadShape()
    {
      hide Good, View, Fixed, Tied;
      InRange(State());
      SameLength();
      TiedAt(cells, tail);
      TiedAt(cells, head);
      ViewOf(buffers[tail], tape);
      ViewOf(buffers[head], tape);
      BareAt(cells, tail);
      BareAt(cells, head);
    }

    /** ftape_read_segment is called. */
    method BeginRead(segment: int, noReadAhead: bool)
      requires Valid() && reader == Outside
      modifies this`reader, this`wanted, this`single, this`readDone
      ensures Valid() && Now() == Called(old(Now()), segment, noReadAhead)
      ensures old(Contents(State())) ==> Contents(State())
      ensures old(Flags(State())) ==> Flags(State())
    {
      hide Good, Contents, Flags, Fixed, Tied;
      InRange(State());
      MoveKeeps(State(), Drain);
      wanted, single, readDone, reader := segment, noReadAhead, false, Drain;
    }

    /** d is the buffer at TAIL, with the flags of its sectors moved to its blocks. */
    ghost predicate HandsOut(d: Delivery)
      reads this`tail, this`wanted, buffers
    {
      && tail < |buffers|
      && var b := buffers[tail];
      && d.segmentId == b.segmentId == wanted && d.blocks == b.memory && d.bytes == b.bytes
      && ConvertedTo(tape(wanted).bad, Or(b.softErrorMap, b.hardErrorMap), d.suspect, 32)
    }

    /** The head of the loop: a full buffer is delivered if it is the wanted one, and will be given back
        in any case; a transfer of another segment is stopped.  A signal ends the call. */
    method Look(eccOk: bool, leave: bool) returns (d: Option<Delivery>)
      requires Valid() && reader == Drain
      modifies this`reader, this`readDone, this`runner
      ensures Valid() && old(Indexed(Now())) && Now() == Looked(old(Now()), eccOk, leave)
      ensures d.Some? <==> Found(old(Now()), eccOk, leave)
      ensures d.Some? ==> HandsOut(d.value) && (old(Contents(State())) ==> Faithful(d.value, tape(wanted)))
      ensures old(Contents(State())) ==> Contents(State())
      ensures old(Flags(State())) ==> Flags(State())
    {
      hide Good, Contents, Flags, View, Faithful, Fixed, Tied, HandsOut;
      hide BareAll, ConvertedTo;
      EndsNow();
      ghost var m := Now();
      d := None;
      var b := buffers[tail];
      TiedAt(cells, tail);
      ViewOf(b, tape);
      if leave {
        MoveKeeps(State(), Outside);
        reader := Outside;
      } else if !readDone && b.status == Done {
        if b.segmentId == wanted {
          d := Deliver(eccOk);
        }
        MoveKeeps(State(), Releasing);
        reader := Releasing;
      } else if !readDone && b.status == Reading {
        if b.segmentId == wanted {
          MoveKeeps(State(), Awaiting);
          reader := Awaiting;
        } else {
          Abort();
        }
      } else {
        MoveKeeps(State(), Settling);
        reader := Settling;
      }
    }

    /** ftape_abort_operation begins. */
    method Abort()
      requires Valid() && (reader == Drain || reader == Awaiting)
      modifies this`reader, this`runner
      ensures Valid() && Now() == RingSteps.InRing(old(Now()), Aborted(old(Plain(State()))))
      ensures old(Contents(State())) ==> Contents(State())
      ensures old(Flags(State())) ==> Flags(State())
    {
      hide Good, Contents, Flags, Fixed, Tied;
      AbortedKeeps(State());
      runner, reader := if runner == Running then DoAbort else runner, Stopping;
    }

    /** The reader waits until TAIL is not being read any more (ftape_wait_segment). */
    method Await(waitFails: bool, leave: bool)
      requires Valid() && reader == Awaiting
      modifies this`reader, this`runner
      ensures Valid() && Now() == Awaited(old(Now()), waitFails, leave)
      ensures old(Contents(State())) ==> Contents(State())
      ensures old(Flags(State())) ==> Flags(State())
    {
      hide Good, Contents, Flags, View, Fixed, Tied;
      hide BareAll;
      EndsNow();
      TiedAt(cells, tail);
      ViewOf(buffers[tail], tape);
      if leave {
        MoveKeeps(State(), Outside);
        reader := Outside;
      } else if waitFails {
        Abort();
      } else if buffers[tail].status != Reading {
        MoveKeeps(State(), Settling);
        reader := Settling;
      }
    }

    /** correct_and_copy hands out the buffer at TAIL, unless its errors cannot be corrected. */
    method Deliver(eccOk: bool) returns (d: Option<Delivery>)
      requires Valid() && reader == Drain && tail < |buffers| && buffers[tail].status == Done
      requires buffers[tail].segmentId == wanted
      modifies this`readDone
      ensures (d.Some? <==> eccOk) && (readDone <==> old(readDone) || eccOk)
      ensures d.Some? ==> HandsOut(d.value) && (Contents(State()) ==> Faithful(d.value, tape(wanted)))
    {
      hide Good, Contents, Flags, View, Faithful, ConvertedTo, Or, Fixed, Tied, Buffer.Complete;
      d := None;
      var b := buffers[tail];
      ViewOf(b, tape);
      TiedAt(cells, tail);
      TailWhole(State());
      var suspect := ConvertSectorMap(tape(b.segmentId).bad, Or(b.softErrorMap, b.hardErrorMap));
      if eccOk {
        if b.Complete(tape(b.segmentId)) {
          FaithfulDelivery(b, tape(b.segmentId), suspect);
        }
        d := Some(Delivery(b.segmentId, b.memory, b.bytes, suspect));
        readDone := true;
      }
    }

    /** The buffer at TAIL is free again.  Its memory may have been exchanged for other memory. */
    method GiveBack(spare: seq<Block>)
      requires Valid() && reader == Releasing && |spare| == 32
      modifies this`reader, this`filled, this`cells, buffers`status, buffers`memory
      ensures Valid() && old(Indexed(Now())) && old(filled) > 0 && Now() == GivenBack(old(Now()))
      ensures tail < |buffers| && buffers[tail].memory == spare
      ensures forall i :: 0 <= i < |buffers| && buffers[i] != buffers[tail] ==> unchanged(buffers[i])
      ensures old(Contents(State())) ==> Contents(State())
      ensures old(Flags(State())) ==> Flags(State())
    {
      hide Good, Contents, Flags, View, Fixed, Tied;
      hide Buffer.InTransfer, Buffer.Complete, Buffer.Stored, Buffer.Resumable, Buffer.FlagsOnGood, Buffer.Positioned;
      ghost var s := State();
      InRange(s);
      EndsNow();
      hide Plain;
      TiedAt(cells, tail);
      ReleasingFilled(s);
      var b := buffers[tail];
      ViewOf(b, tape);
      b.memory, b.status := spare, Waiting;
      ghost var c := View(b, tape);
      ViewOf(b, tape);
      ReleasedKeeps(s, c);
      PlainReleased(s, c);
      StillTied(cells, tail);
      cells, filled, reader := cells[tail := c], filled - 1, Advancing;
      assert State() == Released(s, c);
    }

    method MoveTail()
      requires Valid() && reader == Advancing
      modifies this`reader, this`tail
      ensures Valid() && old(tail) < |old(cells)|
      ensures Now() == RingSteps.InRing(old(Now()), Advanced(old(Plain(State()))))
      ensures old(Contents(State())) ==> Contents(State())
      ensures old(Flags(State())) ==> Flags(State())
    {
      hide Good, Contents, Flags, Fixed, Tied;
      ghost var s := State();
      InRange(s);
      SameLength();
      AdvancedKeeps(s);
      tail, reader := Rings.Next(tail, |buffers|), Drain;
      assert State() == Advanced(s);
    }

    method FreeBuffer(b: Buffer)
      modifies b`status
      ensures View(b, tape) == old(View(b, tape)).(status := Waiting)
    {
      hide View;
      hide Buffer.InTransfer, Buffer.Complete, Buffer.Stored, Buffer.Resumable, Buffer.FlagsOnGood, Buffer.Positioned;
      ViewOf(b, tape);
      b.status := Waiting;
      ViewOf(b, tape);
    }

    /** After an error, or at the end of a track, the runner becomes idle. */
    method Settle()
      requires Valid() && reader == Settling
      modifies this`reader, this`runner, this`cells, buffers`status
      ensures Valid() && head < |old(cells)|
      ensures Now() == RingSteps.InRing(old(Now()), Settled(old(Plain(State()))))
      ensures forall i :: 0 <= i < |buffers| && buffers[i] != buffers[head] ==> unchanged(buffers[i])
      ensures old(Contents(State())) ==> Contents(State())
      ensures old(Flags(State())) ==> Flags(State())
    {
      hide Good, Contents, Flags, View, Fixed, Tied;
      hide Buffer.InTransfer, Buffer.Complete, Buffer.Stored, Buffer.Resumable, Buffer.FlagsOnGood, Buffer.Positioned;
      ghost var s := State();
      InRange(s);
      SameLength();
      TiedAt(cells, head);
      SettledKeeps(s);
      PlainSettled(s);
      hide Plain;
      if runner == Aborting {
        FreeBuffer(buffers[head]);
        StillTied(cells, head);
        cells, runner := cells[head := View(buffers[head], tape)], Idle;
      } else if runner == LogicalEot {
        runner := Idle;
      }
      reader := Starting;
      assert State() == Settled(s);
    }

    /** The sector at which a set-up of the wanted segment in HEAD begins. */
    ghost function Offset(): int
      reads this, buffers
      requires head < |buffers|
    {
      if wanted == oldSegmentId then buffers[head].skip else 0
    }

    /** The blocks of HEAD before that sector hold the wanted segment already, except for flagged sectors. */
    ghost predicate HoldsOffset()
      reads this, buffers
    {
      && head < |buffers| && |buffers[head].memory| == 32 && 0 <= buffers[head].skip < 32
      && buffers[head].HoldsBefore(tape(wanted), Offset())
    }

    twostate predicate HeadPrepared()
      reads this, buffers
    {
      && head < |buffers|
      && buffers[head].Prepared(wanted == old(oldSegmentId), true, tape(wanted))
      && buffers[head].nextSegment == (if single then 0 else wanted + 1)
    }

    /** The end of the loop: leave with a result, or start the runner if TAIL is free.  After a start the
        contents are right if and only if what the set-up leaves out is there already. */
    method Start(leave: bool, startFails: bool)
      requires Valid() && reader == Starting && head < |buffers|
      modifies this`reader, this`runner, this`busy, this`interrupted, this`oldSegmentId, this`cells, buffers[head]
      ensures Valid() && old(Indexed(Now()))
      ensures Now() == Restarted(TheMedium(), old(Now()), leave, startFails)
      ensures if NeedsStart(old(Now()), leave) then HeadPrepared() else unchanged(buffers[head])
      ensures NeedsStart(old(Now()), leave) && !startFails ==> (Contents(State()) <==> old(HoldsOffset()))
      ensures old(Contents(State())) && !(NeedsStart(old(Now()), leave) && Foreign(old(Now()))
                                          && Skips(old(Now()))) ==>
                Contents(State())
      ensures old(Flags(State())) && !(NeedsStart(old(Now()), leave) && Foreign(old(Now()))) ==> Flags(State())
    {
      hide Good, Contents, Flags, View, Fixed, Tied, HoldsOffset, HeadPrepared, BareAll;
      EndsNow();
      if readDone || leave {
        MoveKeeps(State(), Outside);
        reader := Outside;
      } else if buffers[tail].status == Waiting {
        StartHead(startFails);
      } else {
        MoveKeeps(State(), Drain);
        reader := Drain;
      }
    }

    /** HEAD is set up for the wanted segment, and the runner is started unless the tape cannot be. */
    method StartHead(startFails: bool)
      requires Valid() && reader == Starting && head < |buffers| && tail < |buffers| && buffers[tail].status == Waiting
      modifies this`reader, this`runner, this`busy, this`interrupted, this`oldSegmentId, this`cells, buffers[head]
      ensures Valid() && |old(cells)| == |buffers| && HeadPrepared()
      ensures !readDone ==> old(Indexed(Now())) && Now() == Restarted(TheMedium(), old(Now()), false, startFails)
      ensures !startFails ==> (Contents(State()) <==> old(HoldsOffset()))
      ensures old(Contents(State()) && (wanted != oldSegmentId || interrupted || buffers[head].skip <= 0)) ==>
                Contents(State())
      ensures old(Flags(State()) && (wanted != oldSegmentId || interrupted)) ==> Flags(State())
    {
      hide Good, Contents, Flags, View, Fixed, Tied, Restarted, Resumed, ClusterStart, BareAll;
      hide Buffer.Resumable, Buffer.FlagsOnGood, Buffer.HoldsBefore, Buffer.Stored, Buffer.Prepared;
      ghost var s, m := State(), Now();
      EndsNow();
      TiedAt(cells, head);
      TiedAt(cells, tail);
      HeadCell(s);
      ViewOf(buffers[tail], tape);
      StartAtTail(s);
      HeadSound(s);
      var b := buffers[head];
      SetUp(b, startFails);
      StillTied(cells, head);
      ghost var c := View(b, tape);
      Launch(startFails);
      if !readDone {
        RestartedAs(TheMedium(), m, startFails, Shape(b), Where());
      }
      if startFails {
        UnstartedKeeps(s, c);
      } else {
        StartedKeeps(s, c);
      }
    }

    /** Before a set-up: what is known of HEAD. */
    lemma HeadSound(s: RingState)
      requires Valid() && s == State() && head < |buffers|
      ensures |buffers[head].memory| == 32 && 0 <= buffers[head].skip < 32
      ensures Contents(s) && interrupted && wanted == oldSegmentId ==> buffers[head].Resumable(tape(wanted))
      ensures Flags(s) && interrupted && wanted == oldSegmentId ==> buffers[head].FlagsOnGood(tape(wanted).bad)
      ensures buffers[head].skip == 0 || wanted != oldSegmentId ==> HoldsOffset()
      ensures buffers[head].Resumable(tape(wanted)) ==> HoldsOffset()
    {
      hide Good, Contents, Flags, View, Fixed, Tied;
      hide Buffer.InTransfer, Buffer.Complete, Buffer.Stored, Buffer.Resumable, Buffer.FlagsOnGood, Buffer.HoldsBefore;
      TiedAt(cells, head);
      ViewOf(buffers[head], tape);
      HeadCell(s);
      if interrupted {
        InterruptedHead(s);
      }
      buffers[head].NothingBefore(tape(wanted));
    }

    /** The runner is started on HEAD, or the call ends because the tape cannot be started. */
    method Launch(startFails: bool)
      requires Fixed() && Tied(cells, head) && head < |buffers|
      modifies this`reader, this`runner, this`busy, this`interrupted, this`oldSegmentId, this`cells
      ensures Tied(cells, -1) && |old(cells)| == |buffers|
      ensures var c := View(buffers[head], tape);
              c.segmentId == wanted ==>
                && State() == (if startFails then Unstarted(old(State()), c) else Started(old(State()), c))
                && Plain(State()) == (if startFails then Unstarted(old(Plain(State())), Bare(c))
                                      else Started(old(Plain(State())), Bare(c)))
    {
      hide View, Fixed, Tied;
      TiedLength(cells, head);
      if startFails {
        interrupted, reader := interrupted || wanted != oldSegmentId, Outside;
      } else {
        busy, runner, interrupted, reader := true, Running, false, Drain;
      }
      oldSegmentId := wanted;
      StillTied(cells, head);
      BareUpdate(cells, head, View(buffers[head], tape));
      cells := cells[head := View(buffers[head], tape)];
    }

    /** Set up a buffer for the wanted segment; it is being read unless the tape cannot be started. */
    method SetUp(b: Buffer, startFails: bool)
      requires |b.memory| == 32 && 0 <= b.skip < 32 && b.status == Waiting
      modifies b
      ensures b.Prepared(wanted == oldSegmentId, true, tape(wanted))
      ensures b.nextSegment == (if single then 0 else wanted + 1)
      ensures TrackOf(b) == Resumed(old(TrackOf(b)), tape(wanted).bad, wanted, wanted == oldSegmentId, single)
      ensures b.sectorOffset == ClusterStart(tape(wanted).bad, if wanted == oldSegmentId then old(b.skip) else 0)
      ensures Bare(View(b, tape)) == Shape(b)
      ensures var c := View(b, tape);
              c.status == (if startFails then Waiting else Reading) && c.sane && c.ready && c.segmentId == wanted
      ensures View(b, tape).stored <==> old(b.HoldsBefore(tape(wanted), if wanted == oldSegmentId then b.skip else 0))
      ensures wanted != oldSegmentId || old(b.Resumable(tape(wanted))) ==> View(b, tape).resumable
      ensures wanted != oldSegmentId || old(b.FlagsOnGood(tape(wanted).bad)) ==> View(b, tape).clean
    {
      hide View, FAKE_SEGMENT;
      hide Buffer.InTransfer, Buffer.Complete, Buffer.Stored, Buffer.Resumable, Buffer.FlagsOnGood, Buffer.Positioned;
      hide Buffer.HoldsBefore, ClusterStart, KeptSoft;
      var n := b.Begin(wanted, tape(wanted).bad, wanted == oldSegmentId, true, tape(wanted));
      if single {
        b.nextSegment := 0;
      }
      b.AtFirstCluster(tape(wanted), if wanted == oldSegmentId then b.skip else 0);
      if !startFails {
        b.status := Reading;
      }
      ViewOf(b, tape);
    }

    /** The rest of ftape_abort_operation: the controller is stopped and all buffers are freed. */
    method FinishAbort()
      requires Valid() && reader == Stopping
      modifies this`head, this`tail, this`filled, this`interrupted, this`runner, this`busy, this`reader,
               this`oldSegmentId, this`cells, buffers
      ensures Valid() && Contents(State()) && Flags(State())
      ensures Where() == Place(Zapped(Freed(old(Plain(State()).cells)), Settling), 0)
    {
      hide Good, Contents, Flags, View, Tied, Plain, Freed;
      hide Buffer.InTransfer, Buffer.Complete, Buffer.Stored, Buffer.Resumable, Buffer.FlagsOnGood, Buffer.Positioned;
      AllShapes();
      ghost var was := Plain(State()).cells;
      ZapBuffers();
      head, tail, filled, interrupted := 0, 0, 0, false;
      runner, busy, reader, oldSegmentId := Idle, false, Settling, -1;
      TieAll();
      ZappedGood(cells, Settling);
      PlainFreed(cells, was);
      assert State() == Zapped(cells, Settling);
    }

    /** What is proved of the machine from sensible moments holds for the drive. */
    lemma NowSensible()
      requires Valid()
      ensures Good(Now().place.ring) && RingProgress.Sensible(Now())
    {
      hide Good, View, Tied, Fixed, FAKE_SEGMENT, EMPTY_SEGMENT, Buffer.InTransfer, Plain;
      EndsNow();
      PlainGood(State());
      if busy {
        BusyHead();
      }
      SkipsInRange();
    }

    /** Whatever the drive is doing while the reader looks for its segment: some steps without errors lead to a look
        that delivers it. */
    lemma CanDeliver(go: Step, noise: int -> Block) returns (steps: seq<Step>)
      requires Valid() && reader == Drain && !readDone && RingProgress.Undisturbed(go)
      ensures RingProgress.Smooth(steps, go) && Delivers(After(TheMedium(), Now(), steps), go)
    {
      hide Valid, Delivers, After, Good, RingProgress.Sensible;
      NowSensible();
      steps := RingProgress.AlwaysDelivers(TheMedium(), Now(), go, noise);
    }

    lemma SkipsInRange()
      requires Valid()
      ensures forall i :: 0 <= i < |Plain(State()).cells| ==> 0 <= Plain(State()).cells[i].track.skip < 32
    {
      hide Good, View, Tied, Fixed, Plain;
      SameLength();
      PlainLength(State());
      forall i | 0 <= i < |cells|
        ensures 0 <= Plain(State()).cells[i].track.skip < 32
      {
        TiedAt(cells, i);
        ViewOf(buffers[i], tape);
        AllSane(State(), i);
      }
    }

    /** All buffers, as the machine on values sees them. */
    lemma AllShapes()
      requires Valid()
      ensures |Plain(State()).cells| == |buffers|
      ensures forall i :: 0 <= i < |buffers| ==>
                |buffers[i].memory| == 32 && Plain(State()).cells[i] == Shape(buffers[i])
    {
      hide Good, View, Tied, Fixed, Plain;
      SameLength();
      PlainLength(State());
      forall i | 0 <= i < |buffers|
        ensures |buffers[i].memory| == 32 && Plain(State()).cells[i] == Shape(buffers[i])
      {
        TiedAt(cells, i);
        ViewOf(buffers[i], tape);
        AllSane(State(), i);
      }
    }

    /** fdc_zap_buffers */
    method ZapBuffers()
      requires Fixed()
      modifies buffers
      ensures forall i :: 0 <= i < |buffers| ==>
                var b := buffers[i];
                && b.status == Waiting && b.bytes == 0 && b.memory == old(b.memory) && b.segmentId == old(b.segmentId)
                && TrackOf(b) == old(TrackOf(b)).(skip := 0, retry := 0)
    {
      var i := 0;
      while i < |buffers|
        invariant 0 <= i <= |buffers|
        invariant forall j :: 0 <= j < i ==>
                    && buffers[j].status == Waiting && buffers[j].bytes == 0
                    && TrackOf(buffers[j]) == old(TrackOf(buffers[j])).(skip := 0, retry := 0)
        invariant forall j :: i <= j < |buffers| ==> TrackOf(buffers[j]) == old(TrackOf(buffers[j]))
        invariant forall j :: 0 <= j < |buffers| ==>
                    buffers[j].memory == old(buffers[j].memory) && buffers[j].segmentId == old(buffers[j].segmentId)
      {
        var b := buffers[i];
        b.status, b.bytes, b.skip, b.retry := Waiting, 0, 0, 0;
        i := i + 1;
      }
    }

    ghost method TieAll()
      requires forall i :: 0 <= i < |buffers| ==>
                 var b := buffers[i]; b.status == Waiting && |b.memory| == 32 && b.skip == 0
      modifies this`cells
      ensures Tied(cells, -1)
      ensures forall i :: 0 <= i < |cells| ==>
                cells[i].status == Waiting && cells[i].sane && Bare(cells[i]) == Shape(buffers[i])
    {
      cells := seq(|buffers|, i requires 0 <= i < |buffers| reads buffers => View(buffers[i], tape));
    }

    // ----- runs -----

    /** One step of either side; a step that is not possible now does nothing. */
    method Take(step: Step) returns (d: Option<Delivery>)
      requires Valid()
      modifies this, buffers
      ensures Valid() && Now() == Stepped(TheMedium(), old(Now()), step)
      ensures step.Interrupt? ==> Spares()
      ensures d.Some? <==> Delivers(old(Now()), step)
      ensures d.Some? ==> d.value.segmentId == old(wanted)
                          && (old(Contents(State())) ==> Faithful(d.value, tape(old(wanted))))
      ensures old(Contents(State())) && !StaleStart(old(Now()), step) ==> Contents(State())
      ensures old(Flags(State())) && !ForeignStart(old(Now()), step) && !EmptyError(old(Now()), step) ==> Flags(State())
    {
      hide Good, Contents, Flags, View, Faithful, Fixed, Tied, Interrupted;
      hide Called, Looked, Awaited, GivenBack, Advanced, Settled, Restarted, Zapped, Plain;
      EndsNow();
      if step.ReaderStep? {
        d := TakeReader(step);
      } else {
        d := None;
        TakeInterrupt(step.cause, step.fdcCount, step.residue, step.noise);
      }
    }

    method TakeInterrupt(cause: Cause, fdcCount: nat, residue: Option<nat>, noise: int -> Block)
      requires Valid()
      modifies this`head, this`filled, this`busy, this`runner, this`interrupted, this`oldSegmentId, this`cells, buffers
      ensures Valid() && Spares() && old(Indexed(Now()))
      ensures Where() == Interrupted(TheMedium(), old(Where()), cause, fdcCount, residue)
      ensures old(Contents(State())) ==> Contents(State())
      ensures old(Flags(State())) && !EmptyError(old(Now()), Interrupt(cause, fdcCount, residue, noise)) ==>
                Flags(State())
    {
      hide Good, Contents, Flags, View, Fixed, Tied, Reacts, Completed, Transferred;
      InRange(State());
      SameLength();
      if busy {
        BusyHead();
        if Countable(buffers[head].sectorCount, fdcCount, residue) {
          ghost var resume := ReadInterrupt(cause, fdcCount, residue, noise);
        }
      }
    }

    method TakeReader(step: Step) returns (d: Option<Delivery>)
      requires Valid() && step.ReaderStep?
      modifies this, buffers
      ensures Valid() && old(Indexed(Now())) && Now() == ReaderMoved(TheMedium(), old(Now()), step)
      ensures d.Some? <==> Delivers(old(Now()), step)
      ensures d.Some? ==> d.value.segmentId == old(wanted)
                          && (old(Contents(State())) ==> Faithful(d.value, tape(old(wanted))))
      ensures old(Contents(State())) && !StaleStart(old(Now()), step) ==> Contents(State())
      ensures old(Flags(State())) && !ForeignStart(old(Now()), step) ==> Flags(State())
    {
      hide Good, Contents, Flags, View, Faithful, Fixed, Tied, Called, Looked, Awaited, GivenBack, Restarted, BareAll;
      hide Advanced, Settled, Zapped, Freed, Found, NeedsStart, Foreign, Skips;
      EndsNow();
      d := None;
      match reader {
        case Outside => BeginRead(step.segment, step.noReadAhead);
        case Drain => d := Look(step.eccOk, step.leave);
        case Awaiting => Await(step.waitFails, step.leave);
        case Releasing =>
          if |step.spare| == 32 {
            GiveBack(step.spare);
          }
        case Advancing => MoveTail();
        case Settling => Settle();
        case Starting => Start(step.leave, step.startFails);
        case Stopping => FinishAbort();
      }
    }
  }

  /** Every interleaving of interrupts and reader steps goes as the machine on values says, and keeps the ring
      in order.  A delivery happens exactly when the reader looks at a full buffer with the segment that was
      requested last; and as long as no stale start has happened, it is what is on tape.  All conditions are
      about the first moment and the steps alone. */
  method Run(drive: Drive, steps: seq<Step>) returns (deliveries: seq<Option<Delivery>>)
    requires drive.Valid() && Contents(drive.State()) && Flags(drive.State())
    modifies drive, drive.buffers
    ensures drive.Valid() && |deliveries| == |steps|
    ensures drive.Now() == After(drive.TheMedium(), old(drive.Now()), steps)
    ensures forall i :: 0 <= i <= |steps| ==> Good(After(drive.TheMedium(), old(drive.Now()), steps[..i]).place.ring)
    ensures forall i :: 0 <= i < |steps| ==>
              (deliveries[i].Some? <==> Delivers(After(drive.TheMedium(), old(drive.Now()), steps[..i]), steps[i]))
    ensures forall i :: 0 <= i < |steps| && deliveries[i].Some? ==>
              deliveries[i].value.segmentId == Requested(drive.TheMedium(), old(drive.Now()), steps[..i])
    ensures forall i :: 0 <= i < |steps| && deliveries[i].Some? ==>
              NoStaleStart(drive.TheMedium(), old(drive.Now()), steps[..i]) ==>
                Faithful(deliveries[i].value, drive.tape(deliveries[i].value.segmentId))
    ensures NoStaleStart(drive.TheMedium(), old(drive.Now()), steps) ==> Contents(drive.State())
    ensures NoStrayFlag(drive.TheMedium(), old(drive.Now()), steps) ==> Flags(drive.State())
  {
    hide Good, Contents, Flags, View, Faithful, Stepped, Delivers, StaleStart, ForeignStart, EmptyError;
    hide After, Requested, NoStaleStart, NoStrayFlag, Drive.TheMedium, Plain;
    ghost var medium, m := drive.TheMedium(), drive.Now();
    deliveries := [];
    var k := 0;
    StartsRun(medium, m, steps);
    PlainGood(drive.State());
    while k < |steps|
      invariant 0 <= k <= |steps| && drive.Valid() && |deliveries| == k && drive.Now() == After(medium, m, steps[..k])
      invariant forall i :: 0 <= i <= k ==> Good(After(medium, m, steps[..i]).place.ring)
      invariant forall i :: 0 <= i < k ==> Explained(drive.tape, medium, m, steps[..i], steps[i], deliveries[i])
      invariant NoStaleStart(medium, m, steps[..k]) ==> Contents(drive.State())
      invariant NoStrayFlag(medium, m, steps[..k]) ==> Flags(drive.State())
    {
      var step := steps[k];
      AfterNext(medium, m, steps, k);
      RunNext(medium, m, steps, k);
      WantedIsRequested(medium, m, steps[..k]);
      var d := drive.Take(step);
      PlainGood(drive.State());
      deliveries := deliveries + [d];
      k := k + 1;
    }
    assert steps[..k] == steps;
  }

  /** What step makes after a run: a delivery comes if the reader finds the segment that was requested last,
      and is right before the first stale start. */
  ghost predicate Explained(tape: int -> Segment, medium: Medium, m: Moment, before: seq<Step>, step: Step,
                            d: Option<Delivery>) {
    && (d.Some? <==> Delivers(After(medium, m, before), step))
    && (d.Some? ==>
          && d.value.segmentId == Requested(medium, m, before)
          && (NoStaleStart(medium, m, before) ==> Faithful(d.value, tape(d.value.segmentId))))
  }

  lemma StartsRun(medium: Medium, m: Moment, steps: seq<Step>)
    ensures After(medium, m, steps[..0]) == m && NoStaleStart(medium, m, steps[..0])
    ensures NoStrayFlag(medium, m, steps[..0])
  {}

  lemma RunNext(medium: Medium, m: Moment, steps: seq<Step>, k: nat)
    requires k < |steps|
    ensures var now := After(medium, m, steps[..k]);
            && (NoStaleStart(medium, m, steps[..k + 1]) <==>
                  NoStaleStart(medium, m, steps[..k]) && !StaleStart(now, steps[k]))
            && (NoStrayFlag(medium, m, steps[..k + 1]) <==>
                  NoStrayFlag(medium, m, steps[..k]) && !ForeignStart(now, steps[k]) && !EmptyError(now, steps[k]))
  {
    hide After, StaleStart, ForeignStart, EmptyError;
    assert forall i :: 0 <= i <= k ==> steps[..k + 1][..i] == steps[..i];
    assert forall i :: 0 <= i <= k ==> steps[..k][..i] == steps[..i];
  }

  lemma SizeOfNothing(cause: Cause, fdcCount: nat, residue: Option<nat>)
    ensures cause != NoError && fdcCount == 0 ==> (TransferSize(cause, 0, fdcCount, residue).Some? <==> residue.None?)
  {}

  lemma ArrivedBelow(cause: Cause, count: nat, size: Option<nat>)
    requires size.Some? ==> size.value <= count
    ensures size.Some? ==> Arrived(cause, count, size.value) <= count
  {}
}
