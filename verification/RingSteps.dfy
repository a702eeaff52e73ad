/** Runs of the ring as a machine on values: what every step of the interrupt handler and of the reader makes
    of statuses, segment numbers, error maps and positions.  The machine is a function; it does not see what
    is recorded on tape, only which sectors are marked bad.
 */
module RingSteps {
  import opened SectorMaps
  import opened Options
  import opened SegmentTransfer
  import opened RingModel
  import Rings

  /** The inputs of a step: what the hardware reports, or the choices the reader's surroundings make. */
  datatype Step =
    | Interrupt(cause: Cause, fdcCount: nat, residue: Option<nat>, noise: int -> Block)
    | ReaderStep(segment: int, noReadAhead: bool, eccOk: bool, waitFails: bool, leave: bool, startFails: bool,
                 spare: seq<Block>)

  /** What stays the same: the bad sectors of each segment, the retries allowed, and the length of a track. */
  datatype Medium = Medium(bad: int -> SectorMap, softRetries: int, segmentsPerTrack: int)

  /** The ring, and where HEAD is in its segment while a read command is outstanding. */
  datatype Place = Place(ring: RingState, offset: int)

  /** The drive between two steps; also the segment that the reader wants, whether it has got it, and whether
      it reads ahead. */
  datatype Moment = Moment(place: Place, wanted: int, readDone: bool, single: bool)

  // ----- cells without what depends on the data -----

  function BareCell(status: Status, segmentId: int, track: Track): Cell {
    Cell(status, segmentId, track, true, true, true, true, true, true)
  }

  function Bare(c: Cell): Cell { BareCell(c.status, c.segmentId, c.track) }

  function BareAll(cells: seq<Cell>): (r: seq<Cell>)
    ensures |r| == |cells|
  {
    seq(|cells|, i requires 0 <= i < |cells| => Bare(cells[i]))
  }

  lemma BareAt(cells: seq<Cell>, i: nat)
    requires i < |cells|
    ensures BareAll(cells)[i] == Bare(cells[i])
  {}

  function Plain(s: RingState): RingState { s.(cells := BareAll(s.cells)) }

  lemma PlainFinished(s: RingState, c: Cell, runner: Runner)
    requires s.head < |s.cells|
    ensures Plain(Finished(s, c, runner)) == Finished(Plain(s), Bare(c), runner)
  {
    BareUpdate(s.cells, s.head, c);
  }

  lemma PlainReadAhead(s: RingState, c: Cell)
    requires s.head < |s.cells|
    ensures Plain(ReadAhead(s, c)) == ReadAhead(Plain(s), Bare(c))
  {
    BareUpdate(s.cells, s.head, c);
  }

  lemma PlainReleased(s: RingState, c: Cell)
    requires s.tail < |s.cells| && s.filled > 0
    ensures Plain(Released(s, c)) == Released(Plain(s), Bare(c))
  {
    BareUpdate(s.cells, s.tail, c);
  }

  lemma PlainSettled(s: RingState)
    requires s.head < |s.cells|
    ensures Plain(Settled(s)) == Settled(Plain(s))
  {
    BareUpdate(s.cells, s.head, s.cells[s.head].(status := Waiting));
  }

  lemma PlainFreed(cells: seq<Cell>, was: seq<Cell>)
    requires |cells| == |was|
    requires forall i :: 0 <= i < |cells| ==>
               Bare(cells[i]) == was[i].(status := Waiting, track := was[i].track.(skip := 0, retry := 0))
    ensures Plain(Zapped(cells, Settling)) == Zapped(Freed(was), Settling)
  {
    assert BareAll(cells) == Freed(was);
  }

  lemma PlainLength(s: RingState)
    ensures |Plain(s).cells| == |s.cells| && Plain(s).head == s.head && Plain(s).tail == s.tail
    ensures forall i :: 0 <= i < |s.cells| ==> Plain(s).cells[i] == Bare(s.cells[i])
  {}

  lemma BareUpdate(cells: seq<Cell>, i: nat, c: Cell)
    requires i < |cells|
    ensures BareAll(cells[i := c]) == BareAll(cells)[i := Bare(c)]
  {}

  /** The order of the ring does not depend on the data. */
  lemma PlainGood(s: RingState)
    requires Good(s)
    ensures Good(Plain(s))
  {
    hide Rings.Slot, Rings.Rotated, InOrder;
    PlainLine(s);
    PlainInOrder(Line(s), s.filled);
  }

  lemma PlainLine(s: RingState)
    requires s.tail < |s.cells|
    ensures Line(Plain(s)) == BareAll(Line(s))
  {}

  lemma PlainInOrder(line: seq<Cell>, filled: nat)
    requires InOrder(line, filled)
    ensures InOrder(BareAll(line), filled)
  {}

  // ----- the interrupt handler -----

  predicate EndsTrack(medium: Medium, segment: int) {
    medium.segmentsPerTrack > 0 && (segment + 1) % medium.segmentsPerTrack == 0
  }

  /** The next segment is read into HEAD, which is free. */
  function Begun(medium: Medium, s: RingState, next: int): Place
    requires s.head < |s.cells|
  {
    var track := Track(next + 1, 0, NO_SECTORS, NO_SECTORS, 0);
    Place(ReadAhead(s, BareCell(Reading, next, track)), ClusterStart(medium.bad(next), 0))
  }

  /** HEAD, now c, is full.  The runner stops at the end of a track, without read-ahead and when all buffers
      are full, and otherwise reads the next segment. */
  function Completed(medium: Medium, s: RingState, c: Cell): Place
    requires s.head < |s.cells|
  {
    var eot := EndsTrack(medium, c.segmentId);
    var s' := Finished(s, c.(status := Done), if eot then LogicalEot else Idle);
    if !eot && c.track.next != 0 && s'.cells[s'.head].status == Waiting
    then Begun(medium, s', c.track.next)
    else Place(s', 0)
  }

  /** HEAD, now c, has come to sector o: it goes on with the next good sector, if there is one. */
  function Proceeded(medium: Medium, s: RingState, c: Cell, o: int): Place
    requires s.head < |s.cells|
  {
    var o' := SkipOver(medium.bad(c.segmentId), true, o);
    if o' < 32 then Place(Continued(s, c), o') else Completed(medium, s, c)
  }

  /** Sector e has failed: a soft error, or a hard one if no retries are left. */
  function Charged(t: Track, softRetries: int, cause: Cause, e: int): Track {
    var used := RetriesUsed(cause, t.retry);
    if !(0 <= e < 32) then t
    else if used < softRetries then t.(soft := SetBit(t.soft, e), retry := used)
    else t.(soft := AndNot(t.soft, SetBit(t.hard, e)), hard := SetBit(t.hard, e), retry := -1)
  }

  /** Where to resume, if the transfer is given up: at the start after a contradictory count or an unknown
      error, and at the resume point after an error that is not the first. */
  function Resumption(before: Track, after: Track, cause: Cause, size: Option<nat>, e: int): Option<int> {
    if size.None? then Some(0)
    else if cause == NoError then None
    else if cause == OtherError then Some(0)
    else if before.soft == before.hard == NO_SECTORS then None
    else
      var i := ResumeAt(after.soft, after.hard, e + 1);
      if i < 32 then Some(i) else None
  }

  /** The transfer into HEAD, now c, is given up, or goes on at sector o. */
  function Decided(medium: Medium, s: RingState, c: Cell, resume: Option<int>, o: int): Place
    requires s.head < |s.cells|
  {
    match resume
    case Some(at) => Place(GivenUp(s, c.(status := Error, track := c.track.(skip := at))), 0)
    case None => Proceeded(medium, s, c, o)
  }

  /** The result of a read command of count sectors from sector o on. */
  function Transferred(medium: Medium, s: RingState, c: Cell, o: int, count: int, cause: Cause,
                       size: Option<nat>): Place
    requires s.head < |s.cells|
  {
    var e := FailingSector(cause, size, o, count);
    var track := if size.None? || cause == NoError then c.track else Charged(c.track, medium.softRetries, cause, e);
    Decided(medium, s, c.(track := track), Resumption(c.track, track, cause, size, e),
            e + (if cause == NoError then 0 else 1))
  }

  /** A read interrupt.  One that cannot come now, and that of an aborted command, are ignored. */
  function Interrupted(medium: Medium, p: Place, cause: Cause, fdcCount: nat, residue: Option<nat>): Place
    requires p.ring.head < |p.ring.cells|
  {
    var s := p.ring;
    if !s.busy || !Countable(ClusterSize(medium.bad(s.cells[s.head].segmentId), p.offset), fdcCount, residue) then p
    else if s.runner == DoAbort then Place(s.(busy := false), 0)
    else Answered(medium, p, cause, fdcCount, residue)
  }

  /** The interrupt of a command that is not aborted; an unusable segment is complete. */
  function Answered(medium: Medium, p: Place, cause: Cause, fdcCount: nat, residue: Option<nat>): Place
    requires p.ring.head < |p.ring.cells|
  {
    var c := p.ring.cells[p.ring.head];
    var bad := medium.bad(c.segmentId);
    var count := ClusterSize(bad, p.offset);
    if count < 0 then p
    else if Unusable(bad) && p.offset == 0 then Completed(medium, p.ring, c)
    else Transferred(medium, p.ring, c, p.offset, count, cause, TransferSize(cause, count, fdcCount, residue))
  }

  /** HEAD stays HEAD unless it is full; then the next buffer is HEAD. */
  predicate StaysOrFills(s: RingState, s': RingState)
    requires s.head < |s.cells|
  {
    && s'.tail == s.tail && s'.reader == s.reader
    && if s'.filled == s.filled then
         s'.head == s.head && s'.oldSegmentId == s.oldSegmentId && (s'.runner == s.runner || s'.runner == Aborting)
       else
         && s'.filled == s.filled + 1 && s'.head == Rings.Next(s.head, |s.cells|)
         && s'.runner != Aborting && s'.runner != DoAbort
         && (s'.runner == Idle ==> s'.oldSegmentId == s.oldSegmentId)
  }

  lemma CompletedRing(medium: Medium, s: RingState, c: Cell)
    requires s.head < |s.cells|
    ensures StaysOrFills(s, Completed(medium, s, c).ring)
  {}

  lemma DecidedRing(medium: Medium, s: RingState, c: Cell, resume: Option<int>, o: int)
    requires s.head < |s.cells|
    ensures StaysOrFills(s, Decided(medium, s, c, resume, o).ring)
  {
    hide Completed, SkipOver;
    CompletedRing(medium, s, c);
  }

  lemma AnsweredRing(medium: Medium, p: Place, cause: Cause, fdcCount: nat, residue: Option<nat>)
    requires p.ring.head < |p.ring.cells|
    ensures StaysOrFills(p.ring, Answered(medium, p, cause, fdcCount, residue).ring)
  {
    hide Completed, Decided, Charged, Resumption, TransferSize, FailingSector, StaysOrFills, ClusterSize, Unusable;
    var s, c := p.ring, p.ring.cells[p.ring.head];
    CompletedRing(medium, s, c);
    var count := ClusterSize(medium.bad(c.segmentId), p.offset);
    if count < 0 {
      StaysSame(s);
    } else {
      var size := TransferSize(cause, count, fdcCount, residue);
      var e := FailingSector(cause, size, p.offset, count);
      var track := if size.None? || cause == NoError then c.track else Charged(c.track, medium.softRetries, cause, e);
      DecidedRing(medium, s, c.(track := track), Resumption(c.track, track, cause, size, e),
                  e + (if cause == NoError then 0 else 1));
    }
  }

  lemma StaysPlain(s: RingState, s': RingState)
    requires s.head < |s.cells| && StaysOrFills(Plain(s), Plain(s'))
    ensures StaysOrFills(s, s')
  {}

  lemma StaysSame(s: RingState)
    requires s.head < |s.cells|
    ensures StaysOrFills(s, s)
  {}

  // ----- the reader -----

  function At(m: Moment, reader: Position): Moment {
    InRing(m, m.place.ring.(reader := reader))
  }

  /** ftape_read_segment is called. */
  function Called(m: Moment, segment: int, noReadAhead: bool): Moment {
    At(m, Drain).(wanted := segment, readDone := false, single := noReadAhead)
  }

  function InRing(m: Moment, ring: RingState): Moment {
    m.(place := m.place.(ring := ring))
  }

  predicate TailIs(m: Moment, status: Status) {
    m.place.ring.tail < |m.place.ring.cells| && m.place.ring.cells[m.place.ring.tail].status == status
  }

  /** TAIL is full, holds the wanted segment, and can be corrected. */
  predicate Found(m: Moment, eccOk: bool, leave: bool) {
    && eccOk && !leave && !m.readDone && TailIs(m, Done)
    && m.place.ring.cells[m.place.ring.tail].segmentId == m.wanted
  }

  function Looked(m: Moment, eccOk: bool, leave: bool): Moment
    requires m.place.ring.tail < |m.place.ring.cells|
  {
    var tail := m.place.ring.cells[m.place.ring.tail];
    (if leave then At(m, Outside)
     else if !m.readDone && tail.status == Done then At(m, Releasing)
     else if m.readDone || tail.status != Reading then At(m, Settling)
     else if tail.segmentId == m.wanted then At(m, Awaiting)
     else InRing(m, Aborted(m.place.ring))).(readDone := m.readDone || Found(m, eccOk, leave))
  }

  function Awaited(m: Moment, waitFails: bool, leave: bool): Moment {
    if leave then At(m, Outside)
    else if waitFails then InRing(m, Aborted(m.place.ring))
    else if TailIs(m, Reading) then m else At(m, Settling)
  }

  function GivenBack(m: Moment): Moment
    requires m.place.ring.tail < |m.place.ring.cells|
  {
    var s := m.place.ring;
    if s.filled == 0 then m else InRing(m, Released(s, s.cells[s.tail].(status := Waiting)))
  }

  /** HEAD has to be set up for the wanted segment. */
  predicate NeedsStart(m: Moment, leave: bool) {
    !m.readDone && !leave && TailIs(m, Waiting)
  }

  /** The bookkeeping of a buffer that is set up; a segment that was set up last is continued. */
  function Resumed(t: Track, bad: SectorMap, id: int, again: bool, single: bool): Track {
    var next := if single then 0 else id + 1;
    if again then Track(next, t.skip, KeptSoft(t.soft, bad, t.skip), t.hard, t.retry + 1)
    else Track(next, 0, NO_SECTORS, NO_SECTORS, 0)
  }

  function Restarted(medium: Medium, m: Moment, leave: bool, startFails: bool): Moment
    requires m.place.ring.head < |m.place.ring.cells|
  {
    if m.readDone || leave then At(m, Outside)
    else if !NeedsStart(m, leave) then At(m, Drain)
    else
      var s, bad := m.place.ring, medium.bad(m.wanted);
      var c, again := s.cells[s.head], m.wanted == s.oldSegmentId;
      var track := Resumed(c.track, bad, m.wanted, again, m.single);
      if startFails then InRing(m, Unstarted(s, BareCell(Waiting, m.wanted, track)))
      else
        m.(place := Place(Started(s, BareCell(Reading, m.wanted, track)),
                          ClusterStart(bad, if again then c.track.skip else 0)))
  }

  /** The machine restarts HEAD as c. */
  lemma RestartedAs(medium: Medium, m: Moment, startFails: bool, c: Cell, p: Place)
    requires Indexed(m) && NeedsStart(m, false)
    requires var s, bad := m.place.ring, medium.bad(m.wanted);
             var head, again := s.cells[s.head], m.wanted == s.oldSegmentId;
             && c == BareCell(if startFails then Waiting else Reading, m.wanted,
                              Resumed(head.track, bad, m.wanted, again, m.single))
             && p == if startFails then Place(Unstarted(s, c), m.place.offset)
                     else Place(Started(s, c), ClusterStart(bad, if again then head.track.skip else 0))
    ensures Restarted(medium, m, false, startFails) == m.(place := p)
  {
    hide Resumed, ClusterStart;
  }

  /** fdc_zap_buffers */
  function Freed(cells: seq<Cell>): (r: seq<Cell>)
    ensures |r| == |cells|
    ensures forall i :: 0 <= i < |cells| ==>
              r[i] == cells[i].(status := Waiting, track := cells[i].track.(skip := 0, retry := 0))
  {
    seq(|cells|, i requires 0 <= i < |cells| =>
          cells[i].(status := Waiting, track := cells[i].track.(skip := 0, retry := 0)))
  }

  function ReaderMoved(medium: Medium, m: Moment, step: Step): Moment
    requires step.ReaderStep? && Indexed(m)
  {
    var s := m.place.ring;
    match s.reader
    case Outside => Called(m, step.segment, step.noReadAhead)
    case Drain => Looked(m, step.eccOk, step.leave)
    case Awaiting => Awaited(m, step.waitFails, step.leave)
    case Releasing => if |step.spare| == 32 then GivenBack(m) else m
    case Advancing => InRing(m, Advanced(s))
    case Settling => InRing(m, Settled(s))
    case Starting => Restarted(medium, m, step.leave, step.startFails)
    case Stopping => m.(place := Place(Zapped(Freed(s.cells), Settling), 0))
  }

  // ----- runs -----

  predicate Indexed(m: Moment) {
    m.place.ring.head < |m.place.ring.cells| && m.place.ring.tail < |m.place.ring.cells|
  }

  /** One step of either side. */
  function Stepped(medium: Medium, m: Moment, step: Step): Moment {
    if step.ReaderStep? && m.place.ring.reader == Outside then Called(m, step.segment, step.noReadAhead)
    else if !Indexed(m) then m
    else if step.ReaderStep? then ReaderMoved(medium, m, step)
    else m.(place := Interrupted(medium, m.place, step.cause, step.fdcCount, step.residue))
  }

  /** All steps of a run. */
  function After(medium: Medium, m: Moment, steps: seq<Step>): Moment {
    if |steps| == 0 then m
    else Stepped(medium, After(medium, m, steps[..|steps| - 1]), steps[|steps| - 1])
  }

  lemma AfterNext(medium: Medium, m: Moment, steps: seq<Step>, k: nat)
    requires k < |steps|
    ensures After(medium, m, steps[..0]) == m
    ensures After(medium, m, steps[..k + 1]) == Stepped(medium, After(medium, m, steps[..k]), steps[k])
  {
    assert steps[..k + 1][..k] == steps[..k];
  }

  /** The segment that the last read call of a run asked for. */
  function Requested(medium: Medium, m: Moment, steps: seq<Step>): int {
    if |steps| == 0 then m.wanted
    else
      var before, last := steps[..|steps| - 1], steps[|steps| - 1];
      if last.ReaderStep? && After(medium, m, before).place.ring.reader == Outside then last.segment
      else Requested(medium, m, before)
  }

  /** The reader always wants what was requested last. */
  lemma {:induction false} WantedIsRequested(medium: Medium, m: Moment, steps: seq<Step>)
    ensures After(medium, m, steps).wanted == Requested(medium, m, steps)
  {
    if |steps| == 0 {
    } else {
      WantedIsRequested(medium, m, steps[..|steps| - 1]);
      WantedNext(medium, After(medium, m, steps[..|steps| - 1]), steps[|steps| - 1]);
    }
  }

  lemma WantedNext(medium: Medium, m: Moment, step: Step)
    ensures Stepped(medium, m, step).wanted ==
            if step.ReaderStep? && m.place.ring.reader == Outside then step.segment else m.wanted
  {}

  // ----- what a step may meet -----

  /** The reader is about to look at a full buffer with the wanted segment. */
  predicate Delivers(m: Moment, step: Step) {
    step.ReaderStep? && m.place.ring.reader == Drain && Found(m, step.eccOk, step.leave)
  }

  /** The wanted segment is the one set up last, but it was not interrupted in this buffer: a set-up would
      continue a transfer that HEAD has not begun. */
  predicate Foreign(m: Moment) {
    m.wanted == m.place.ring.oldSegmentId && !m.place.ring.interrupted
  }

  predicate ForeignStart(m: Moment, step: Step) {
    step.ReaderStep? && m.place.ring.reader == Starting && NeedsStart(m, step.leave) && Foreign(m)
  }

  /** HEAD has a skip count. */
  predicate Skips(m: Moment) {
    m.place.ring.head < |m.place.ring.cells| && m.place.ring.cells[m.place.ring.head].track.skip > 0
  }

  /** The set-up leaves out the first sectors, because of a skip count from an earlier transfer. */
  predicate StaleStart(m: Moment, step: Step) {
    ForeignStart(m, step) && Skips(m)
  }

  /** An error is reported for a read of no sectors. */
  predicate EmptyError(m: Moment, step: Step) {
    && step.Interrupt? && m.place.ring.busy && m.place.ring.runner != DoAbort && m.place.offset == 32
    && step.cause != NoError && step.residue.None? && step.fdcCount == 0
  }

  /** No step of the run is a stale start. */
  predicate NoStaleStart(medium: Medium, m: Moment, steps: seq<Step>) {
    forall i :: 0 <= i < |steps| ==> !StaleStart(After(medium, m, steps[..i]), steps[i])
  }

  /** No step of the run can put an error flag on a bad sector. */
  predicate NoStrayFlag(medium: Medium, m: Moment, steps: seq<Step>) {
    forall i :: 0 <= i < |steps| ==>
      var now := After(medium, m, steps[..i]);
      !ForeignStart(now, steps[i]) && !EmptyError(now, steps[i])
  }
}
