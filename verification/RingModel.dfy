/** The ring of segment buffers as a value: what every step of the interrupt handler and of the reader
    keeps.  The handler fills buffers at HEAD, the reader (ftape_read_segment) empties them at TAIL.
 */
module RingModel {
  import opened SectorMaps
  import opened SegmentTransfer
  import opened Rings

  datatype Runner = Idle | Running | DoAbort | Aborting | LogicalEot

  /** Where the reader is in ftape_read_segment: outside of it, at the loop over full buffers, with a
      full buffer to give back, between giving it back and moving TAIL, waiting for the wanted segment,
      before the runner is checked, before the runner is restarted, or in ftape_abort_operation. */
  datatype Position = Outside | Drain | Releasing | Advancing | Awaiting | Settling | Starting | Stopping

  /** The bookkeeping of a buffer: the segment to read next, the sectors to skip on a retry, and the errors. */
  datatype Track = Track(next: int, skip: int, soft: SectorMap, hard: SectorMap, retry: int)

  /** What the ring is about in a buffer: its status, segment and bookkeeping; whether its fields are in range
      (sane), a read command can be outstanding for it (ready), it holds its segment (whole), the part
      before the current position (stored) or before the point of resumption (resumable), and whether
      only good sectors are flagged (clean). */
  datatype Cell = Cell(status: Status, segmentId: int, track: Track, sane: bool, ready: bool,
                       whole: bool, stored: bool, resumable: bool, clean: bool)

  /** filled counts the full buffers; interrupted says that HEAD waits for a retry; busy that a read
      command is outstanding. */
  datatype RingState = RingState(cells: seq<Cell>, head: nat, tail: nat, filled: nat, interrupted: bool,
                                 runner: Runner, busy: bool, reader: Position, oldSegmentId: int)

  // ----- ring order -----

  /** The first buffers, from the reader's end to HEAD, are full and hold consecutive segments; all
      buffers beyond HEAD are free. */
  predicate InOrder(line: seq<Cell>, filled: nat) {
    && filled <= |line|
    && (forall k :: 0 <= k < filled ==> line[k].status == Done)
    && (forall k :: filled < k < |line| ==> line[k].status == Waiting)
    && (filled < |line| ==> line[filled].status != Done)
    && (forall k :: 1 <= k < filled ==> line[k].segmentId == line[k - 1].segmentId + 1)
    && (forall k :: 0 <= k < |line| ==> line[k].sane)
  }

  predicate AllWhole(line: seq<Cell>, filled: nat)
    requires filled <= |line|
  {
    forall k :: 0 <= k < filled ==> line[k].whole
  }

  predicate AllClean(line: seq<Cell>, filled: nat)
    requires filled <= |line|
  {
    forall k :: 0 <= k < filled ==> line[k].clean
  }

  /** Working on HEAD while it is not full leaves the order as it is. */
  lemma HeadChanges(line: seq<Cell>, filled: nat, c: Cell)
    requires InOrder(line, filled) && filled < |line| && c.status != Done && c.sane
    ensures var line' := line[filled := c];
            && InOrder(line', filled)
            && (AllWhole(line, filled) ==> AllWhole(line', filled))
            && (AllClean(line, filled) ==> AllClean(line', filled))
  {}

  /** HEAD is full: it joins the run, and the next buffer becomes HEAD. */
  lemma HeadFills(line: seq<Cell>, filled: nat, c: Cell)
    requires InOrder(line, filled) && filled < |line| && c.status == Done && c.sane
    requires filled > 0 ==> c.segmentId == line[filled - 1].segmentId + 1
    ensures var line' := line[filled := c];
            && InOrder(line', filled + 1)
            && (AllWhole(line, filled) && c.whole ==> AllWhole(line', filled + 1))
            && (AllClean(line, filled) && c.clean ==> AllClean(line', filled + 1))
  {}

  /** The reader gives back the first full buffer. */
  lemma FirstLeaves(line: seq<Cell>, filled: nat, c: Cell)
    requires InOrder(line, filled) && filled > 0 && c.status == Waiting && c.sane
    ensures var line' := line[1..] + [c];
            && InOrder(line', filled - 1)
            && (AllWhole(line, filled) ==> AllWhole(line', filled - 1))
            && (AllClean(line, filled) ==> AllClean(line', filled - 1))
            && (filled > 1 ==> line'[filled - 2] == line[filled - 1])
  {
    var line' := line[1..] + [c];
    assert forall k :: 0 <= k < |line| - 1 ==> line'[k] == line[k + 1];
  }

  lemma CellInOrder(line: seq<Cell>, filled: nat, k: nat)
    requires InOrder(line, filled) && k < |line|
    ensures line[k].sane && (line[k].status == Done <==> k < filled)
    ensures k > filled ==> line[k].status == Waiting
  {}

  // ----- the invariant -----

  /** The first buffer that the reader has not given back. */
  function First(s: RingState): nat
    requires s.tail < |s.cells|
  {
    if s.reader == Advancing then Next(s.tail, |s.cells|) else s.tail
  }

  function Line(s: RingState): (line: seq<Cell>)
    requires s.tail < |s.cells|
    ensures |line| == |s.cells|
  {
    Rotated(s.cells, First(s))
  }

  predicate Layout(s: RingState) {
    && s.head < |s.cells| && s.tail < |s.cells| && s.filled <= |s.cells|
    && s.head == Slot(First(s), s.filled, |s.cells|)
    && InOrder(Line(s), s.filled)
  }

  /** A buffer in use at HEAD continues the run. */
  predicate Continues(s: RingState)
    requires Layout(s)
  {
    s.filled > 0 ==> s.cells[s.head].segmentId == Line(s)[s.filled - 1].segmentId + 1
  }

  predicate HeadState(s: RingState)
    requires Layout(s)
  {
    var c := s.cells[s.head];
    && (c.status == Reading || c.status == Error ==> c.segmentId == s.oldSegmentId && Continues(s))
    && (c.status == Reading ==> c.ready && !s.interrupted)
    && (s.interrupted ==> s.filled < |s.cells| && c.segmentId == s.oldSegmentId)
  }

  /** The runner agrees with HEAD, commands are outstanding only while it runs, and when the reader
      is about to start it and TAIL is free it is idle. */
  predicate Control(s: RingState)
    requires Layout(s)
  {
    var c := s.cells[s.head];
    && (c.status == Reading <==> s.runner == Running || s.runner == DoAbort)
    && (c.status == Error <==> s.runner == Aborting)
    && (s.runner == Running ==> s.busy) && (s.busy ==> s.runner == Running || s.runner == DoAbort)
    && (s.runner == DoAbort ==> s.reader == Stopping) && (s.reader == Stopping ==> s.runner != Running)
    && (s.reader == Releasing ==> s.filled > 0)
    && (s.reader == Starting && s.cells[s.tail].status == Waiting ==> s.runner == Idle)
  }

  predicate Good(s: RingState) {
    Layout(s) && HeadState(s) && Control(s)
  }

  /** Full buffers, and the part of HEAD that is already there, hold what is on tape. */
  predicate Contents(s: RingState) {
    && Layout(s)
    && var c := s.cells[s.head];
    && AllWhole(Line(s), s.filled)
    && (c.status == Reading ==> c.stored) && (s.interrupted ==> c.resumable)
  }

  /** Error flags are only on good sectors. */
  predicate Flags(s: RingState) {
    && Layout(s)
    && var c := s.cells[s.head];
    && AllClean(Line(s), s.filled)
    && (c.status == Reading || s.interrupted ==> c.clean)
  }

  /** The segment in the last full buffer. */
  function LastFull(s: RingState): int
    requires s.tail < |s.cells| && 0 < s.filled <= |s.cells|
  {
    Line(s)[s.filled - 1].segmentId
  }

  lemma InRange(s: RingState)
    requires Good(s)
    ensures s.head < |s.cells| && s.tail < |s.cells| && s.filled <= |s.cells|
  {}

  /** While the runner runs, HEAD is being read. */
  lemma RunningHead(s: RingState)
    requires Good(s) && s.runner == Running
    ensures s.head < |s.cells| && s.tail < |s.cells| && s.busy && s.reader != Stopping && !s.interrupted
    ensures var c := s.cells[s.head]; c.status == Reading && c.ready && c.sane && c.segmentId == s.oldSegmentId
  {
    Ends(s);
  }

  /** HEAD is full only if all buffers are; TAIL is full, or nothing is and it is HEAD. */
  lemma Ends(s: RingState)
    requires Layout(s)
    ensures s.cells[s.head].status == Done <==> s.filled == |s.cells|
    ensures s.cells[s.head].sane && s.cells[s.tail].sane
    ensures s.reader != Advancing ==> if s.filled > 0 then s.cells[s.tail].status == Done else s.tail == s.head
  {
    hide Rotated, InOrder;
    var n, first, c := |s.cells|, First(s), s.cells[s.head];
    SlotNext(first, 0, n);
    RotatedAt(s.cells, first, 0, c);
    CellInOrder(Line(s), s.filled, 0);
    if s.filled < n {
      RotatedAt(s.cells, first, s.filled, c);
      CellInOrder(Line(s), s.filled, s.filled);
    }
    if s.reader == Advancing {
      SlotNext(s.tail, n - 1, n);
      RotatedAt(s.cells, first, n - 1, c);
      CellInOrder(Line(s), s.filled, n - 1);
    }
  }

  lemma BusyRunner(s: RingState)
    requires Good(s) && s.busy
    ensures s.runner == Running || s.runner == DoAbort
  {}

  lemma BusyReady(s: RingState)
    requires Good(s) && s.busy
    ensures s.head < |s.cells| && s.cells[s.head].ready
  {}

  lemma HeadKept(s: RingState)
    requires Good(s) && s.runner == Running
    ensures s.head < |s.cells| && (Contents(s) ==> s.cells[s.head].stored) && (Flags(s) ==> s.cells[s.head].clean)
  {}

  lemma HeadCell(s: RingState)
    requires Good(s)
    ensures s.head < |s.cells| && s.cells[s.head].sane
  {
    Ends(s);
  }

  // ----- steps of the interrupt handler -----

  /** HEAD changes and stays in use. */
  function HeadSet(s: RingState, c: Cell): RingState
    requires s.head < |s.cells|
  {
    s.(cells := s.cells[s.head := c])
  }

  lemma HeadSetLayout(s: RingState, c: Cell)
    requires Layout(s) && s.filled < |s.cells| && c.status != Done && c.sane
    ensures Layout(HeadSet(s, c)) && s.cells[s.head := c][s.head] == c
    ensures AllWhole(Line(s), s.filled) ==> AllWhole(Line(HeadSet(s, c)), s.filled)
    ensures AllClean(Line(s), s.filled) ==> AllClean(Line(HeadSet(s, c)), s.filled)
    ensures s.filled > 0 ==> Line(HeadSet(s, c))[s.filled - 1] == Line(s)[s.filled - 1]
  {
    hide Rotated, InOrder, AllWhole, AllClean, Slot;
    RotatedAt(s.cells, First(s), s.filled, c);
    HeadChanges(Line(s), s.filled, c);
  }

  /** The next cluster of the same segment. */
  function Continued(s: RingState, c: Cell): RingState
    requires s.head < |s.cells|
  {
    HeadSet(s, c).(busy := true)
  }

  lemma ContinuedKeeps(s: RingState, c: Cell)
    requires Good(s) && s.runner == Running && c.status == Reading && c.sane && c.ready
    requires c.segmentId == s.cells[s.head].segmentId
    ensures Good(Continued(s, c))
    ensures Contents(s) && c.stored ==> Contents(Continued(s, c))
    ensures Flags(s) && c.clean ==> Flags(Continued(s, c))
  {
    hide Rotated, InOrder, AllWhole, AllClean, Slot;
    Ends(s);
    HeadSetLayout(s, c);
    Ends(Continued(s, c));
  }

  /** retry_sector */
  function GivenUp(s: RingState, c: Cell): RingState
    requires s.head < |s.cells|
  {
    HeadSet(s, c).(busy := false, runner := Aborting, interrupted := true)
  }

  lemma GivenUpKeeps(s: RingState, c: Cell)
    requires Good(s) && s.runner == Running && c.status == Error && c.sane
    requires c.segmentId == s.cells[s.head].segmentId
    ensures Good(GivenUp(s, c))
    ensures Contents(s) && c.resumable ==> Contents(GivenUp(s, c))
    ensures Flags(s) && c.clean ==> Flags(GivenUp(s, c))
  {
    hide Rotated, InOrder, AllWhole, AllClean, Slot;
    Ends(s);
    HeadSetLayout(s, c);
    Ends(GivenUp(s, c));
  }

  /** The segment in HEAD is complete and the runner stops. */
  function Finished(s: RingState, c: Cell, runner: Runner): RingState
    requires s.head < |s.cells|
  {
    s.(cells := s.cells[s.head := c], head := Next(s.head, |s.cells|), filled := s.filled + 1, busy := false,
       runner := runner)
  }

  lemma FinishedKeeps(s: RingState, c: Cell, runner: Runner)
    requires Good(s) && s.runner == Running && c.status == Done && c.sane && (runner == Idle || runner == LogicalEot)
    requires c.segmentId == s.cells[s.head].segmentId
    ensures var s' := Finished(s, c, runner);
            && Good(s')
            && (Contents(s) && c.whole ==> Contents(s'))
            && (Flags(s) && c.clean ==> Flags(s'))
            && s'.filled <= |s'.cells| && LastFull(s') == c.segmentId
            && s'.cells[s'.head].status == if s'.filled < |s'.cells| then Waiting else Done
  {
    hide Rotated, InOrder, AllWhole, AllClean, Slot, Next;
    var n, first, s' := |s.cells|, First(s), Finished(s, c, runner);
    Ends(s);
    RotatedAt(s.cells, first, s.filled, c);
    HeadFills(Line(s), s.filled, c);
    SlotNext(first, s.filled, n);
    Ends(s');
    if s.filled + 1 < n {
      CellInOrder(Line(s'), s'.filled, s'.filled);
      CellInOrder(Line(s), s.filled, s'.filled);
      RotatedAt(s'.cells, first, s'.filled, c);
    }
  }

  /** Read-ahead: the next segment goes into the next buffer. */
  function ReadAhead(s: RingState, c: Cell): RingState
    requires s.head < |s.cells|
  {
    HeadSet(s, c).(busy := true, runner := Running, oldSegmentId := c.segmentId)
  }

  lemma ReadAheadKeeps(s: RingState, c: Cell)
    requires Good(s) && s.runner == Idle && s.filled > 0 && s.cells[s.head].status == Waiting && !s.interrupted
    requires c.status == Reading && c.sane && c.ready && c.segmentId == LastFull(s) + 1
    requires s.reader != Stopping
    ensures Good(ReadAhead(s, c))
    ensures Contents(s) && c.stored ==> Contents(ReadAhead(s, c))
    ensures Flags(s) && c.clean ==> Flags(ReadAhead(s, c))
  {
    hide Rotated, InOrder, AllWhole, AllClean, Slot;
    Ends(s);
    HeadSetLayout(s, c);
    Ends(ReadAhead(s, c));
  }

  // ----- steps of the reader -----

  /** A full buffer at TAIL holds its segment. */
  lemma TailWhole(s: RingState)
    requires Good(s) && s.reader != Advancing && s.tail < |s.cells| && s.cells[s.tail].status == Done
    ensures s.filled > 0 && (Contents(s) ==> s.cells[s.tail].whole)
  {
    hide Rotated, InOrder;
    Ends(s);
    SlotNext(s.tail, 0, |s.cells|);
    RotatedAt(s.cells, s.tail, 0, s.cells[s.tail]);
  }

  /** The reader goes from one place to another; what it has seen there may have changed since. */
  predicate MayMove(s: RingState, to: Position)
    requires s.tail < |s.cells|
  {
    && s.reader != Advancing && s.reader != Stopping
    && (to == Outside || to == Drain || to == Awaiting || to == Settling
        || (to == Releasing && s.cells[s.tail].status == Done))
  }

  lemma MoveKeeps(s: RingState, to: Position)
    requires Good(s) && MayMove(s, to)
    ensures Good(s.(reader := to))
    ensures Contents(s) ==> Contents(s.(reader := to))
    ensures Flags(s) ==> Flags(s.(reader := to))
  {
    hide Rotated, InOrder, AllWhole, AllClean, Slot;
    Ends(s);
  }

  /** The full buffer at TAIL is free again, but TAIL has not moved yet. */
  function Released(s: RingState, c: Cell): RingState
    requires s.tail < |s.cells| && s.filled > 0
  {
    s.(cells := s.cells[s.tail := c], filled := s.filled - 1, reader := Advancing)
  }

  lemma ReleasedKeeps(s: RingState, c: Cell)
    requires Good(s) && s.reader == Releasing && c.status == Waiting && c.sane
    ensures Good(Released(s, c))
    ensures Contents(s) ==> Contents(Released(s, c))
    ensures Flags(s) ==> Flags(Released(s, c))
  {
    hide Rotated, InOrder, AllWhole, AllClean, Slot, Next;
    var n, s' := |s.cells|, Released(s, c);
    Ends(s);
    RotatedNext(s.cells, s.tail, c);
    FirstLeaves(Line(s), s.filled, c);
    SlotNext(s.tail, s.filled - 1, n);
    Ends(s');
  }

  lemma ReleasingFilled(s: RingState)
    requires Good(s) && s.reader == Releasing
    ensures s.filled > 0 && s.tail < |s.cells| && s.cells[s.tail].sane
  {
    Ends(s);
  }

  function Advanced(s: RingState): RingState
    requires s.tail < |s.cells|
  {
    s.(tail := Next(s.tail, |s.cells|), reader := Drain)
  }

  lemma AdvancedKeeps(s: RingState)
    requires Good(s) && s.reader == Advancing
    ensures Good(Advanced(s))
    ensures Contents(s) ==> Contents(Advanced(s))
    ensures Flags(s) ==> Flags(Advanced(s))
  {}

  /** The reader sees that the runner has stopped, and frees a buffer with an error. */
  function Settled(s: RingState): RingState
    requires s.head < |s.cells|
  {
    var free := s.cells[s.head].(status := Waiting);
    if s.runner == Aborting then HeadSet(s, free).(runner := Idle, reader := Starting)
    else if s.runner == LogicalEot then s.(runner := Idle, reader := Starting)
    else s.(reader := Starting)
  }

  lemma SettledKeeps(s: RingState)
    requires Good(s) && s.reader == Settling
    ensures Good(Settled(s))
    ensures Contents(s) ==> Contents(Settled(s))
    ensures Flags(s) ==> Flags(Settled(s))
  {
    hide Rotated, InOrder, AllWhole, AllClean, Slot;
    Ends(s);
    if s.runner == Aborting {
      HeadSetLayout(s, s.cells[s.head].(status := Waiting));
    }
    Ends(Settled(s));
  }

  /** The reader starts the runner on HEAD. */
  function Started(s: RingState, c: Cell): RingState
    requires s.head < |s.cells|
  {
    HeadSet(s, c).(busy := true, runner := Running, interrupted := false, oldSegmentId := c.segmentId, reader := Drain)
  }

  /** TAIL is free: then it is HEAD, nothing is full and the runner is idle. */
  lemma StartedKeeps(s: RingState, c: Cell)
    requires Good(s) && s.reader == Starting && s.cells[s.tail].status == Waiting
    requires c.status == Reading && c.sane && c.ready
    ensures s.runner == Idle && s.head == s.tail && s.filled == 0 && !s.busy
    ensures Good(Started(s, c))
    ensures Contents(Started(s, c)) <==> c.stored
    ensures Flags(Started(s, c)) <==> c.clean
  {
    hide Rotated, InOrder, Slot;
    Ends(s);
    HeadSetLayout(s, c);
    Ends(Started(s, c));
  }

  lemma StartAtTail(s: RingState)
    requires Good(s) && s.reader == Starting && s.tail < |s.cells| && s.cells[s.tail].status == Waiting
    ensures s.head == s.tail && s.filled == 0 && s.runner == Idle && !s.busy
  {
    Ends(s);
  }

  /** HEAD has been set up, but the tape could not be started: the read call ends.  If HEAD was set up
      afresh or was interrupted before, a later call can go on with it. */
  function Unstarted(s: RingState, c: Cell): RingState
    requires s.head < |s.cells|
  {
    HeadSet(s, c).(interrupted := s.interrupted || c.segmentId != s.oldSegmentId, oldSegmentId := c.segmentId,
                   reader := Outside)
  }

  lemma UnstartedKeeps(s: RingState, c: Cell)
    requires Good(s) && s.reader == Starting && s.cells[s.tail].status == Waiting && c.status == Waiting && c.sane
    ensures Good(Unstarted(s, c))
    ensures Contents(s) && (Unstarted(s, c).interrupted ==> c.resumable) ==> Contents(Unstarted(s, c))
    ensures Flags(s) && (Unstarted(s, c).interrupted ==> c.clean) ==> Flags(Unstarted(s, c))
  {
    hide Rotated, InOrder, AllWhole, AllClean, Slot;
    Ends(s);
    HeadSetLayout(s, c);
    Ends(Unstarted(s, c));
  }

  lemma InterruptedHead(s: RingState)
    requires Good(s) && s.interrupted
    ensures s.head < |s.cells| && s.cells[s.head].segmentId == s.oldSegmentId
    ensures (Contents(s) ==> s.cells[s.head].resumable) && (Flags(s) ==> s.cells[s.head].clean)
  {}

  /** ftape_abort_operation begins: interrupts are ignored from now on. */
  function Aborted(s: RingState): RingState {
    s.(runner := if s.runner == Running then DoAbort else s.runner, reader := Stopping)
  }

  lemma AbortedKeeps(s: RingState)
    requires Good(s) && (s.reader == Drain || s.reader == Awaiting)
    ensures Good(Aborted(s))
    ensures Contents(s) ==> Contents(Aborted(s))
    ensures Flags(s) ==> Flags(Aborted(s))
  {}

  /** The interrupt of an aborted command is ignored. */
  lemma IgnoredKeeps(s: RingState)
    requires Good(s) && s.runner == DoAbort
    ensures Good(s.(busy := false))
    ensures Contents(s) ==> Contents(s.(busy := false))
    ensures Flags(s) ==> Flags(s.(busy := false))
  {}

  lemma AllSane(s: RingState, i: nat)
    requires Good(s) && i < |s.cells|
    ensures s.cells[i].sane
  {
    hide InOrder;
    var n, first := |s.cells|, First(s);
    var k := if i >= first then i - first else i - first + n;
    RotatedAt(s.cells, first, k, s.cells[i]);
    CellInOrder(Line(s), s.filled, k);
  }

  /** ftape_abort_operation ends with all buffers free. */
  function Zapped(cells: seq<Cell>, reader: Position): RingState {
    RingState(cells, 0, 0, 0, false, Idle, false, reader, -1)
  }

  lemma ZappedGood(cells: seq<Cell>, reader: Position)
    requires |cells| > 0 && forall i :: 0 <= i < |cells| ==> cells[i].status == Waiting && cells[i].sane
    requires reader == Outside || reader == Settling
    ensures Good(Zapped(cells, reader)) && Contents(Zapped(cells, reader)) && Flags(Zapped(cells, reader))
  {}
}
