/** What the machine of the ring achieves: a segment that is being read is delivered, a transfer of another segment
    is stopped, and from every moment of a read call some undisturbed steps lead to the wanted segment.
 */
module RingProgress {
  import opened Bits
  import opened SectorMaps
  import opened Options
  import opened SegmentTransfer
  import opened RingModel
  import opened RingSteps
  import Rings

  /** A reader's step without errors, signals or time-outs, and with memory to exchange. */
  predicate Undisturbed(step: Step) {
    step.ReaderStep? && step.eccOk && !step.waitFails && !step.leave && !step.startFails && |step.spare| == 32
  }

  /** The interrupt after all count sectors of a cluster have been read. */
  function Whole(count: nat, noise: int -> Block): Step {
    Interrupt(NoError, count, None, noise)
  }

  /** Skip counts and positions are sectors. */
  predicate Sensible(m: Moment) {
    && Indexed(m) && 0 <= m.place.offset <= 32
    && forall i :: 0 <= i < |m.place.ring.cells| ==> 0 <= m.place.ring.cells[i].track.skip < 32
  }

  lemma {:induction false} AfterFirst(medium: Medium, m: Moment, a: Step, rest: seq<Step>)
    ensures After(medium, m, [a] + rest) == After(medium, Stepped(medium, m, a), rest)
    decreases |rest|
  {
    hide Stepped;
    if |rest| == 0 {
      assert [a] + rest == [a] && [a][..0] == [];
    } else {
      var n := |rest| - 1;
      assert ([a] + rest)[..n + 1] == [a] + rest[..n];
      AfterFirst(medium, m, a, rest[..n]);
    }
  }

  lemma {:induction false} AfterConcat(medium: Medium, m: Moment, a: seq<Step>, b: seq<Step>)
    ensures After(medium, m, a + b) == After(medium, After(medium, m, a), b)
  {
    hide Stepped;
    if |b| == 0 {
      assert a + b == a;
    } else {
      var n := |b| - 1;
      assert (a + b)[..|a| + n] == a + b[..n];
      AfterConcat(medium, m, a, b[..n]);
    }
  }

  // ----- error-free interrupts -----

  function HeadCell(m: Moment): Cell
    requires Indexed(m)
  {
    m.place.ring.cells[m.place.ring.head]
  }

  /** The sectors that HEAD waits for. */
  function Awaits(medium: Medium, m: Moment): int
    requires Indexed(m)
  {
    ClusterSize(medium.bad(HeadCell(m).segmentId), m.place.offset)
  }

  lemma SizeInRange(bad: SectorMap, o: int)
    requires 0 <= o <= 32
    ensures 0 <= ClusterSize(bad, o) <= 32 - o && 0 <= ClusterStart(bad, o) <= 32
  {
    SkipOverBit(bad, false, o);
    SkipOverBit(bad, true, o);
  }

  /** After a whole cluster HEAD has moved on, and nothing else has changed; or it is full. */
  lemma WholeStep(medium: Medium, m: Moment, noise: int -> Block)
    requires Indexed(m) && m.place.ring.busy && m.place.ring.runner == Running && 0 <= m.place.offset <= 32
    ensures Awaits(medium, m) >= 0
    ensures var m' := Stepped(medium, m, Whole(Awaits(medium, m), noise));
            || m' == m.(place := Completed(medium, m.place.ring, HeadCell(m)))
            || (m' == m.(place := Place(m.place.ring, m'.place.offset)) && m.place.offset < m'.place.offset < 32)
  {
    hide Completed, Unusable, ClusterSize;
    var s, o, c := m.place.ring, m.place.offset, HeadCell(m);
    var bad := medium.bad(c.segmentId);
    SizeInRange(bad, o);
    var count := ClusterSize(bad, o);
    if !(Unusable(bad) && o == 0) {
      CountAt(bad, o);
      SkipOverBit(bad, true, o + count);
      assert s.cells[s.head := c] == s.cells;
      assert Transferred(medium, s, c, o, count, NoError, Some(count)) == Proceeded(medium, s, c, o + count);
    }
  }

  lemma CountAt(bad: SectorMap, o: int)
    requires 0 <= o <= 32
    ensures ClusterSize(bad, o) > 0 || o == 32 || bad[o]
  {
    SkipOverBit(bad, false, o);
  }

  /** arrivals are the interrupts that bring the rest of the segment in HEAD, cluster by cluster. */
  ghost predicate BringsRest(medium: Medium, m: Moment, arrivals: seq<Step>, noise: int -> Block) {
    && 0 < |arrivals| <= 33
    && forall k :: 0 <= k < |arrivals| ==>
         var now := After(medium, m, arrivals[..k]);
         && Indexed(now) && now == m.(place := Place(m.place.ring, now.place.offset))
         && Awaits(medium, now) >= 0 && arrivals[k] == Whole(Awaits(medium, now), noise)
  }

  lemma {:induction false} RestComes(medium: Medium, m: Moment, noise: int -> Block) returns (arrivals: seq<Step>)
    requires Indexed(m) && m.place.ring.busy && m.place.ring.runner == Running && 0 <= m.place.offset <= 32
    ensures BringsRest(medium, m, arrivals, noise) && |arrivals| <= 33 - m.place.offset
    ensures After(medium, m, arrivals) == m.(place := Completed(medium, m.place.ring, HeadCell(m)))
    decreases 32 - m.place.offset
  {
    hide Stepped, Completed, ClusterSize;
    WholeStep(medium, m, noise);
    var first := Whole(Awaits(medium, m), noise);
    var m' := Stepped(medium, m, first);
    if m' == m.(place := Completed(medium, m.place.ring, HeadCell(m))) {
      arrivals := [first];
      AfterFirst(medium, m, first, []);
      assert [first] + [] == [first] && arrivals[..0] == [];
    } else {
      var rest := RestComes(medium, m', noise);
      arrivals := [first] + rest;
      AfterFirst(medium, m, first, rest);
      BringsMore(medium, m, rest, noise);
    }
  }

  lemma BringsMore(medium: Medium, m: Moment, rest: seq<Step>, noise: int -> Block)
    requires Indexed(m) && Awaits(medium, m) >= 0 && |rest| < 33
    requires var m' := Stepped(medium, m, Whole(Awaits(medium, m), noise));
             m' == m.(place := Place(m.place.ring, m'.place.offset)) && BringsRest(medium, m', rest, noise)
    ensures BringsRest(medium, m, [Whole(Awaits(medium, m), noise)] + rest, noise)
  {
    hide Stepped, ClusterSize, After;
    var first := Whole(Awaits(medium, m), noise);
    var arrivals := [first] + rest;
    AfterNothing(medium, m);
    assert arrivals[..0] == [];
    forall k | 0 < k < |arrivals|
      ensures var now := After(medium, m, arrivals[..k]);
              && Indexed(now) && now == m.(place := Place(m.place.ring, now.place.offset))
              && Awaits(medium, now) >= 0 && arrivals[k] == Whole(Awaits(medium, now), noise)
    {
      assert arrivals[..k] == [first] + rest[..k - 1];
      AfterFirst(medium, m, first, rest[..k - 1]);
      assert arrivals[k] == rest[k - 1];
    }
  }

  // ----- the wanted segment is being read -----

  /** A full HEAD is not touched any more, and nothing else but the next buffer is. */
  lemma CompletedCells(medium: Medium, s: RingState, c: Cell)
    requires s.head < |s.cells|
    ensures var s' := Completed(medium, s, c).ring;
            && |s'.cells| == |s.cells| && s'.cells[s.head] == c.(status := Done) && s'.head < |s'.cells|
            && s'.tail == s.tail && s'.reader == s.reader && s'.runner != Aborting
  {}

  /** Before TAIL is full, the buffer there is HEAD. */
  lemma ReadingTail(s: RingState)
    requires Good(s) && s.reader != Advancing && s.reader != Stopping && s.tail < |s.cells|
    requires s.cells[s.tail].status == Reading
    ensures s.head == s.tail && s.runner == Running && s.busy && s.filled == 0
  {
    Ends(s);
  }

  /** The reader looks at TAIL: it waits for the wanted segment and aborts the transfer of another one. */
  lemma LookStep(medium: Medium, m: Moment, go: Step)
    requires Indexed(m) && m.place.ring.reader == Drain && !m.readDone && Undisturbed(go)
    ensures var s, tail, m' := m.place.ring, m.place.ring.cells[m.place.ring.tail], Stepped(medium, m, go);
            && (tail.status == Reading && tail.segmentId == m.wanted ==> m' == At(m, Awaiting))
            && (tail.status == Reading && tail.segmentId != m.wanted ==>
                  m' == m.(place := m.place.(ring := s.(runner := if s.runner == Running then DoAbort else s.runner,
                                                        reader := Stopping))))
            && (tail.status == Waiting || tail.status == Error ==> m' == At(m, Settling))
            && (tail.status == Done && tail.segmentId != m.wanted ==> m' == At(m, Releasing))
            && (tail.status == Done && tail.segmentId == m.wanted ==> Delivers(m, go))
  {}

  lemma AwaitStep(medium: Medium, m: Moment, go: Step)
    requires Indexed(m) && m.place.ring.reader == Awaiting && !TailIs(m, Reading) && Undisturbed(go)
    ensures Stepped(medium, m, go) == At(m, Settling)
  {}

  /** An error frees HEAD; otherwise all buffers stay as they are. */
  lemma SettleStep(medium: Medium, m: Moment, go: Step)
    requires Indexed(m) && m.place.ring.reader == Settling && Undisturbed(go)
    ensures var s, m' := m.place.ring, Stepped(medium, m, go);
            var s' := m'.place.ring;
            && m' == m.(place := m.place.(ring := s')) && s'.reader == Starting && |s'.cells| == |s.cells|
            && s'.head == s.head && s'.tail == s.tail && s'.filled == s.filled
            && s'.interrupted == s.interrupted && s'.oldSegmentId == s.oldSegmentId && s'.busy == s.busy
            && (s.runner != Aborting ==> s'.cells == s.cells)
            && (s.runner == Aborting ==> s'.cells == s.cells[s.head := s.cells[s.head].(status := Waiting)])
            && s'.runner == (if s.runner == Aborting || s.runner == LogicalEot then Idle else s.runner)
  {}

  lemma LoopStep(medium: Medium, m: Moment, go: Step)
    requires Indexed(m) && m.place.ring.reader == Starting && !m.readDone && !TailIs(m, Waiting) && Undisturbed(go)
    ensures Stepped(medium, m, go) == At(m, Drain)
  {}

  /** Once the wanted segment has come, it is found. */
  lemma FullIsFound(medium: Medium, m: Moment, go: Step)
    requires Indexed(m) && m.place.ring.reader == Awaiting && !m.readDone && Undisturbed(go)
    requires TailIs(m, Done) && m.place.ring.cells[m.place.ring.tail].segmentId == m.wanted
    requires m.place.ring.runner != Aborting
    ensures Delivers(After(medium, m, [go, go, go]), go)
  {
    hide Stepped, After;
    ThreeSteps(medium, m, go);
    AwaitStep(medium, m, go);
    SettleStep(medium, At(m, Settling), go);
    LoopStep(medium, Stepped(medium, At(m, Settling), go), go);
  }

  /** HEAD is TAIL, and segment id is being read into it. */
  predicate StartedOn(m: Moment, id: int) {
    && Indexed(m) && m.place.ring.reader == Drain && m.place.ring.head == m.place.ring.tail
    && m.place.ring.busy && m.place.ring.runner == Running
    && HeadCell(m).status == Reading && HeadCell(m).segmentId == id
  }

  /** A look at TAIL while the wanted segment is being read does not disturb it: the reader waits until all
      clusters have come, and the next look delivers the segment. */
  lemma WantedArrives(medium: Medium, m: Moment, go: Step, noise: int -> Block) returns (arrivals: seq<Step>)
    requires Good(m.place.ring) && Sensible(m) && Undisturbed(go)
    requires m.place.ring.reader == Drain && !m.readDone && TailIs(m, Reading)
    requires m.place.ring.cells[m.place.ring.tail].segmentId == m.wanted
    ensures BringsRest(medium, At(m, Awaiting), arrivals, noise)
    ensures Delivers(After(medium, m, [go] + arrivals + [go, go, go]), go)
  {
    hide Good, BringsRest, Delivers, After;
    ReadingTail(m.place.ring);
    arrivals := StartedArrives(medium, m, go, noise);
  }

  lemma StartedArrives(medium: Medium, m: Moment, go: Step, noise: int -> Block) returns (arrivals: seq<Step>)
    requires Sensible(m) && Undisturbed(go) && StartedOn(m, m.wanted) && !m.readDone
    ensures BringsRest(medium, At(m, Awaiting), arrivals, noise)
    ensures Delivers(After(medium, m, [go] + arrivals + [go, go, go]), go)
  {
    hide Completed, ClusterSize, Stepped, BringsRest, Delivers, After;
    LookStep(medium, m, go);
    var m1 := At(m, Awaiting);
    arrivals := RestComes(medium, m1, noise);
    var m2 := m1.(place := Completed(medium, m1.place.ring, HeadCell(m1)));
    CompletedCells(medium, m1.place.ring, HeadCell(m1));
    AfterFirst(medium, m, go, arrivals);
    AfterConcat(medium, m, [go] + arrivals, [go, go, go]);
    FullIsFound(medium, m2, go);
  }

  lemma ThreeSteps(medium: Medium, m: Moment, go: Step)
    ensures After(medium, m, [go, go, go]) == Stepped(medium, Stepped(medium, Stepped(medium, m, go), go), go)
  {
    hide Stepped;
    assert [go, go, go] == [go] + ([go] + ([go] + []));
    AfterFirst(medium, m, go, [go] + ([go] + []));
    AfterFirst(medium, Stepped(medium, m, go), go, [go] + []);
    AfterFirst(medium, Stepped(medium, Stepped(medium, m, go), go), go, []);
  }

  // ----- another segment is being read -----

  /** All buffers are free and nothing runs: HEAD is set up for the wanted segment. */
  lemma FreshStart(medium: Medium, m: Moment, go: Step)
    requires Sensible(m) && m.place.ring.reader == Starting && !m.readDone && TailIs(m, Waiting) && Undisturbed(go)
    requires m.place.ring.head == m.place.ring.tail
    ensures var m' := Stepped(medium, m, go);
            && Sensible(m') && m'.wanted == m.wanted && m'.single == m.single && !m'.readDone && StartedOn(m', m.wanted)
            && m'.place.ring.head == m.place.ring.head && m'.place.ring.tail == m.place.ring.tail
  {
    var c := m.place.ring.cells[m.place.ring.head];
    SizeInRange(medium.bad(m.wanted), c.track.skip);
    SizeInRange(medium.bad(m.wanted), 0);
    hide ClusterStart, KeptSoft;
  }

  /** The rest of an abort frees all buffers. */
  lemma StopStep(medium: Medium, m: Moment, go: Step)
    requires Indexed(m) && Sensible(m) && m.place.ring.reader == Stopping && Undisturbed(go)
    ensures var m' := Stepped(medium, m, go);
            && Sensible(m') && m' == m.(place := m'.place) && TailIs(m', Waiting)
            && m'.place.ring.reader == Settling && m'.place.ring.runner == Idle
            && m'.place.ring.head == m'.place.ring.tail == 0
            && |m'.place.ring.cells| == |m.place.ring.cells|
            && forall i :: 0 <= i < |m.place.ring.cells| ==>
                 var was, now := m.place.ring.cells[i], m'.place.ring.cells[i];
                 && now.status == Waiting && now.track.skip == now.track.retry == 0 && now.segmentId == was.segmentId
                 && now.track.soft == was.track.soft && now.track.hard == was.track.hard
  {}

  /** If another segment is being read at TAIL, four steps stop that and start the wanted one. */
  lemma WrongIsReplaced(medium: Medium, m: Moment, go: Step)
    requires Sensible(m) && Undisturbed(go) && m.place.ring.reader == Drain && !m.readDone && TailIs(m, Reading)
    requires m.place.ring.cells[m.place.ring.tail].segmentId != m.wanted
    ensures var m' := After(medium, m, [go, go, go, go]);
            && Sensible(m') && StartedOn(m', m.wanted) && m'.wanted == m.wanted && !m'.readDone
            && (m.place.ring.runner == Running ==>
                  var stopped := After(medium, m, [go]).place.ring;
                  stopped.runner == DoAbort && stopped.reader == Stopping)
  {
    hide Stepped, After;
    LookStep(medium, m, go);
    var m1 := Stepped(medium, m, go);
    StopStep(medium, m1, go);
    var m2 := Stepped(medium, m1, go);
    SettleStep(medium, m2, go);
    var m3 := Stepped(medium, m2, go);
    FreshStart(medium, m3, go);
    AfterFirst(medium, m, go, [go, go, go]);
    assert [go] + [go, go, go] == [go, go, go, go] && [go] + [] == [go];
    ThreeSteps(medium, m1, go);
    AfterFirst(medium, m, go, []);
    AfterNothing(medium, m1);
  }

  lemma AfterNothing(medium: Medium, m: Moment)
    ensures After(medium, m, []) == m
  {}

  // ----- from any moment of a read call -----

  /** Nothing goes wrong in these steps. */
  ghost predicate Smooth(steps: seq<Step>, go: Step) {
    forall i :: 0 <= i < |steps| ==>
      steps[i] == go || (steps[i].Interrupt? && steps[i].cause == NoError && steps[i].residue.None?)
  }

  /** A full buffer with another segment is given back. */
  lemma GiveBackSteps(medium: Medium, m: Moment, go: Step)
    requires Good(m.place.ring) && Sensible(m) && Undisturbed(go)
    requires m.place.ring.reader == Drain && !m.readDone && TailIs(m, Done)
    requires m.place.ring.cells[m.place.ring.tail].segmentId != m.wanted
    ensures var m' := After(medium, m, [go, go, go]);
            && Good(m'.place.ring) && Sensible(m') && m' == m.(place := m'.place)
            && m'.place.ring.reader == Drain && m.place.ring.filled > 0
            && m'.place.ring.filled == m.place.ring.filled - 1
  {
    hide Good, After, Layout;
    var s := m.place.ring;
    TailWhole(s);
    LookStep(medium, m, go);
    var s1 := s.(reader := Releasing);
    MoveKeeps(s, Releasing);
    ReleasingFilled(s1);
    var c := s.cells[s.tail].(status := Waiting);
    ReleasedKeeps(s1, c);
    AdvancedKeeps(Released(s1, c));
    ReleaseStep(medium, At(m, Releasing), go);
    ThreeSteps(medium, m, go);
    InRange(Advanced(Released(s1, c)));
  }

  lemma ReleaseStep(medium: Medium, m: Moment, go: Step)
    requires Indexed(m) && m.place.ring.reader == Releasing && m.place.ring.filled > 0 && Undisturbed(go)
    ensures var s := m.place.ring;
            var s' := Released(s, s.cells[s.tail].(status := Waiting));
            Stepped(medium, Stepped(medium, m, go), go) == m.(place := m.place.(ring := Advanced(s')))
  {}

  /** A free TAIL, or one with an error, is started on the wanted segment. */
  lemma StartSteps(medium: Medium, m: Moment, go: Step)
    requires Good(m.place.ring) && Sensible(m) && Undisturbed(go) && m.place.ring.reader == Drain && !m.readDone
    requires TailIs(m, Waiting) || TailIs(m, Error)
    ensures var m' := After(medium, m, [go, go, go]);
            Sensible(m') && StartedOn(m', m.wanted) && m'.wanted == m.wanted && !m'.readDone
  {
    hide Good, After, Stepped;
    FreeTail(m.place.ring);
    LookStep(medium, m, go);
    var m1 := At(m, Settling);
    SettleStep(medium, m1, go);
    var m2 := Stepped(medium, m1, go);
    FreshStart(medium, m2, go);
    ThreeSteps(medium, m, go);
  }

  lemma FreeTail(s: RingState)
    requires Good(s) && s.reader == Drain && s.tail < |s.cells|
    requires s.cells[s.tail].status == Waiting || s.cells[s.tail].status == Error
    ensures s.head == s.tail && (s.cells[s.tail].status == Error <==> s.runner == Aborting)
  {
    Ends(s);
  }

  /** From every moment at which the reader looks for a full buffer, some steps without errors lead to a look
      that delivers the wanted segment. */
  lemma {:induction false} AlwaysDelivers(medium: Medium, m: Moment, go: Step, noise: int -> Block)
    returns (steps: seq<Step>)
    requires Good(m.place.ring) && Sensible(m) && Undisturbed(go) && m.place.ring.reader == Drain && !m.readDone
    ensures Smooth(steps, go) && Delivers(After(medium, m, steps), go)
    decreases m.place.ring.filled
  {
    hide Good, After, Stepped, Delivers;
    var tail := m.place.ring.cells[m.place.ring.tail];
    if tail.status == Done && tail.segmentId == m.wanted {
      LookStep(medium, m, go);
      AfterNothing(medium, m);
      steps := [];
    } else if tail.status == Done {
      GiveBackSteps(medium, m, go);
      var rest := AlwaysDelivers(medium, After(medium, m, [go, go, go]), go, noise);
      AfterConcat(medium, m, [go, go, go], rest);
      steps := [go, go, go] + rest;
    } else if tail.status == Reading && tail.segmentId == m.wanted {
      ReadingTail(m.place.ring);
      steps := SmoothArrival(medium, m, go, noise);
    } else {
      var before := if tail.status == Reading then [go, go, go, go] else [go, go, go];
      if tail.status == Reading {
        WrongIsReplaced(medium, m, go);
      } else {
        StartSteps(medium, m, go);
      }
      var rest := SmoothArrival(medium, After(medium, m, before), go, noise);
      AfterConcat(medium, m, before, rest);
      steps := before + rest;
    }
  }

  lemma SmoothArrival(medium: Medium, m: Moment, go: Step, noise: int -> Block) returns (steps: seq<Step>)
    requires Sensible(m) && Undisturbed(go) && StartedOn(m, m.wanted) && !m.readDone
    ensures Smooth(steps, go) && Delivers(After(medium, m, steps), go)
  {
    hide After, Delivers, ClusterSize;
    var arrivals := StartedArrives(medium, m, go, noise);
    steps := [go] + arrivals + [go, go, go];
  }

  // ----- when a transfer is aborted, and when it is resumed -----

  /** The reader aborts a transfer only if TAIL reads another segment, or if waiting for the wanted one fails. */
  lemma AbortsOnly(medium: Medium, m: Moment, step: Step)
    requires Indexed(m) && m.place.ring.runner == Running
    ensures Stepped(medium, m, step).place.ring.runner == DoAbort <==>
              && step.ReaderStep? && !step.leave
              && if m.place.ring.reader == Awaiting then step.waitFails
                 else
                   && m.place.ring.reader == Drain && !m.readDone && TailIs(m, Reading)
                   && m.place.ring.cells[m.place.ring.tail].segmentId != m.wanted
  {
    if step.Interrupt? {
      hide Interrupted;
      NotAborted(medium, m.place, step.cause, step.fdcCount, step.residue);
    } else {
      hide ReaderMoved;
      ReaderAborts(medium, m, step);
    }
  }

  lemma ReaderAborts(medium: Medium, m: Moment, step: Step)
    requires Indexed(m) && m.place.ring.runner == Running && step.ReaderStep?
    ensures Called(m, step.segment, step.noReadAhead).place.ring.runner == Running
    ensures ReaderMoved(medium, m, step).place.ring.runner == DoAbort <==>
              && !step.leave
              && if m.place.ring.reader == Awaiting then step.waitFails
                 else
                   && m.place.ring.reader == Drain && !m.readDone && TailIs(m, Reading)
                   && m.place.ring.cells[m.place.ring.tail].segmentId != m.wanted
  {
    hide KeptSoft, ClusterStart, Resumed, BareCell, Freed;
  }

  lemma NotAborted(medium: Medium, p: Place, cause: Cause, fdcCount: nat, residue: Option<nat>)
    requires p.ring.head < |p.ring.cells| && p.ring.runner == Running
    ensures Interrupted(medium, p, cause, fdcCount, residue).ring.runner != DoAbort
  {
    hide Answered, ClusterSize;
    AnsweredRing(medium, p, cause, fdcCount, residue);
  }

  /** A given-up transfer of the wanted segment is taken up again in the same buffer, at the first good sector
      at or behind its skip count; hard errors are remembered, and it counts as one more try. */
  lemma RetryResumes(medium: Medium, m: Moment, go: Step)
    requires Good(m.place.ring) && Sensible(m) && Undisturbed(go) && m.place.ring.reader == Drain && !m.readDone
    requires TailIs(m, Error) && m.place.ring.cells[m.place.ring.tail].segmentId == m.wanted
    ensures var m', was := After(medium, m, [go, go, go]), m.place.ring.cells[m.place.ring.tail];
            && StartedOn(m', m.wanted) && m'.place.ring.tail == m.place.ring.tail
            && HeadCell(m').track.skip == was.track.skip && HeadCell(m').track.hard == was.track.hard
            && HeadCell(m').track.retry == was.track.retry + 1
            && m'.place.offset == ClusterStart(medium.bad(m.wanted), was.track.skip)
  {
    hide Good, After, Stepped;
    ErrorTail(m.place.ring);
    LookStep(medium, m, go);
    var m1 := At(m, Settling);
    SettleStep(medium, m1, go);
    var m2 := Stepped(medium, m1, go);
    FreshStart(medium, m2, go);
    AgainStart(medium, m2, go);
    ThreeSteps(medium, m, go);
  }

  lemma ErrorTail(s: RingState)
    requires Good(s) && s.reader == Drain && s.tail < |s.cells| && s.cells[s.tail].status == Error
    ensures s.head == s.tail && s.runner == Aborting && s.cells[s.tail].segmentId == s.oldSegmentId
  {
    Ends(s);
  }

  lemma AgainStart(medium: Medium, m: Moment, go: Step)
    requires Indexed(m) && m.place.ring.reader == Starting && !m.readDone && TailIs(m, Waiting) && Undisturbed(go)
    requires m.place.ring.oldSegmentId == m.wanted
    ensures var m', was := Stepped(medium, m, go), HeadCell(m).track;
            && Indexed(m') && m'.place.ring.tail == m.place.ring.tail && m'.place.ring.head == m.place.ring.head
            && HeadCell(m').track == Track(if m.single then 0 else m.wanted + 1, was.skip,
                                           KeptSoft(was.soft, medium.bad(m.wanted), was.skip), was.hard, was.retry + 1)
            && m'.place.offset == ClusterStart(medium.bad(m.wanted), was.skip)
  {
    hide KeptSoft, ClusterStart;
  }

  // ----- what one interrupt means -----

  /** The last segment of a track. */
  lemma TrackEnd(medium: Medium, segment: int)
    requires medium.segmentsPerTrack > 0
    ensures EndsTrack(medium, segment) <==>
            exists track: int :: segment == track * medium.segmentsPerTrack + (medium.segmentsPerTrack - 1)
  {
    var n := medium.segmentsPerTrack;
    if EndsTrack(medium, segment) {
      var track := (segment + 1) / n - 1;
      assert segment + 1 == ((segment + 1) / n) * n;
      assert segment == track * n + (n - 1);
    }
    if track: int :| segment == track * n + (n - 1) {
      assert segment + 1 == (track + 1) * n;
      DivModUnique(segment + 1, n, track + 1, 0);
    }
  }

  /** After a full buffer, the runner stops behind a track, without read-ahead, and if the next buffer is not
      free; otherwise the next segment is read into that one, from its first good sector on. */
  lemma CompletedMeans(medium: Medium, s: RingState, c: Cell)
    requires s.head < |s.cells| && c.track.next in {0, c.segmentId + 1}
    ensures var p, next := Completed(medium, s, c), Rings.Next(s.head, |s.cells|);
            && p.ring.head == next && p.ring.cells[s.head] == c.(status := Done)
            && if EndsTrack(medium, c.segmentId) then p.ring.runner == LogicalEot && !p.ring.busy
               else if c.track.next == 0 || next == s.head || s.cells[next].status != Waiting then
                 p.ring.runner == Idle && !p.ring.busy
               else
                 && p.ring.runner == Running && p.ring.busy && p.ring.oldSegmentId == c.segmentId + 1
                 && p.ring.cells[next] ==
                      BareCell(Reading, c.segmentId + 1, Track(c.segmentId + 2, 0, NO_SECTORS, NO_SECTORS, 0))
                 && p.offset == ClusterStart(medium.bad(c.segmentId + 1), 0)
  {
    hide ClusterStart, EndsTrack;
  }

  /** HEAD, now c, has come to sector o: it is at the first good sector from there on, or full if there is none. */
  predicate ComesTo(medium: Medium, s: RingState, c: Cell, o: int, p: Place)
    requires s.head < |s.cells|
  {
    var bad := medium.bad(c.segmentId);
    if exists i :: 0 <= i < 32 && o <= i && !bad[i] then
      && p.ring == s.(cells := s.cells[s.head := c], busy := true)
      && 0 <= p.offset < 32 && o <= p.offset && !bad[p.offset]
      && forall i :: 0 <= i < 32 && o <= i < p.offset ==> bad[i]
    else
      p == Completed(medium, s, c)
  }

  lemma ProceededComes(medium: Medium, s: RingState, c: Cell, o: int)
    requires s.head < |s.cells| && 0 <= o <= 32
    ensures ComesTo(medium, s, c, o, Proceeded(medium, s, c, o))
  {
    hide Completed;
    SkipOverBit(medium.bad(c.segmentId), true, o);
  }

  /** HEAD is given up, and will be taken up again at a sector. */
  predicate GivenUpAt(s: RingState, c: Cell, at: int, p: Place)
    requires s.head < |s.cells|
  {
    p.ring == s.(cells := s.cells[s.head := c.(status := Error, track := c.track.(skip := at))],
                 busy := false, runner := Aborting, interrupted := true)
  }

  /** A count that contradicts DMA, or an error after a complete transfer, starts the segment again. */
  predicate Contradicts(cause: Cause, count: int, fdcCount: nat, residue: Option<nat>) {
    residue.Some? && (1024 * fdcCount + residue.value > 1024 * count || (fdcCount == count && cause != NoError))
  }

  lemma ContradictionMeans(medium: Medium, m: Moment, cause: Cause, fdcCount: nat, residue: Option<nat>)
    requires Commanded(medium, m, fdcCount, residue)
    requires Contradicts(cause, Awaits(medium, m), fdcCount, residue)
    ensures GivenUpAt(m.place.ring, HeadCell(m), 0, Interrupted(medium, m.place, cause, fdcCount, residue))
  {
    hide Completed, ClusterSize;
    SizeInRange(medium.bad(HeadCell(m).segmentId), m.place.offset);
  }

  /** A read command is outstanding for a segment that is really transferred. */
  predicate Commanded(medium: Medium, m: Moment, fdcCount: nat, residue: Option<nat>) {
    && Sensible(m) && m.place.ring.busy && m.place.ring.runner == Running
    && !(Unusable(medium.bad(HeadCell(m).segmentId)) && m.place.offset == 0)
    && (Awaits(medium, m) == 0 ==> m.place.offset == 32)
    && Countable(Awaits(medium, m), fdcCount, residue)
  }

  /** Without an error the transfer goes on behind the sectors that were read, and no flag changes. */
  lemma SuccessMeans(medium: Medium, m: Moment, fdcCount: nat, residue: Option<nat>)
    requires Commanded(medium, m, fdcCount, residue)
    requires !Contradicts(NoError, Awaits(medium, m), fdcCount, residue)
    ensures ComesTo(medium, m.place.ring, HeadCell(m), m.place.offset + fdcCount,
                    Interrupted(medium, m.place, NoError, fdcCount, residue))
  {
    hide Completed, ClusterSize, Proceeded, ComesTo;
    SizeInRange(medium.bad(HeadCell(m).segmentId), m.place.offset);
    ProceededComes(medium, m.place.ring, HeadCell(m), m.place.offset + fdcCount);
  }

  /** The flags after sector e has failed: e is flagged, softly while there are retries left; hard errors are not
      soft errors any more. */
  predicate Flagged(was: Track, now: Track, softRetries: int, cause: Cause, e: int) {
    var used := if cause == OverrunError && was.retry > 0 then was.retry - 1 else was.retry;
    && 0 <= e < 32 && now.next == was.next && now.skip == was.skip
    && (forall i :: 0 <= i < 32 ==> ((now.soft[i] || now.hard[i]) <==> (was.soft[i] || was.hard[i] || i == e)))
    && (forall i :: 0 <= i < 32 ==> (now.hard[i] <==> was.hard[i] || (i == e && used >= softRetries)))
    && (used >= softRetries ==> forall i :: 0 <= i < 32 ==> !(now.soft[i] && now.hard[i]))
    && now.retry == (if used < softRetries then used else -1)
  }

  lemma ChargedFlags(t: Track, softRetries: int, cause: Cause, e: int)
    requires 0 <= e < 32
    ensures Flagged(t, Charged(t, softRetries, cause, e), softRetries, cause, e)
  {}

  /** After an error: the first sector not counted has failed, or the last one if all were.  A first error is
      passed over; an unknown one leads back to the start, and any other to the first soft error up to there,
      or behind the failing sector if there is none and that is in the segment. */
  lemma ErrorMeans(medium: Medium, m: Moment, cause: Cause, fdcCount: nat, residue: Option<nat>)
    returns (c: Cell, at: int)
    requires Commanded(medium, m, fdcCount, residue) && cause != NoError
    requires !Contradicts(cause, Awaits(medium, m), fdcCount, residue)
    ensures var was, count := HeadCell(m), Awaits(medium, m);
            var e := m.place.offset + (if fdcCount == count then fdcCount - 1 else fdcCount);
            var s, p := m.place.ring, Interrupted(medium, m.place, cause, fdcCount, residue);
            && c == was.(track := c.track) && Flagged(was.track, c.track, medium.softRetries, cause, e)
            && 0 <= at <= e + 1 <= 32
            && (at <= e ==> c.track.soft[at]) && (forall k :: 0 <= k < at ==> !c.track.soft[k])
            && if cause == OtherError then GivenUpAt(s, c, 0, p)
               else if was.track.soft == was.track.hard == NO_SECTORS || at == 32 then ComesTo(medium, s, c, e + 1, p)
               else GivenUpAt(s, c, at, p)
  {
    hide Completed, ClusterSize, Proceeded, ComesTo, Charged, Flagged, ResumePoint, ResumeAt, NO_SECTORS, Unusable;
    var count, was := Awaits(medium, m), HeadCell(m);
    hide Interrupted, Commanded, Contradicts;
    var e := m.place.offset + (if fdcCount == count then fdcCount - 1 else fdcCount);
    ErrorDecided(medium, m, cause, fdcCount, residue);
    ChargedFlags(was.track, medium.softRetries, cause, e);
    c := was.(track := Charged(was.track, medium.softRetries, cause, e));
    ProceededComes(medium, m.place.ring, c, e + 1);
    at := ResumeAt(c.track.soft, c.track.hard, e + 1);
    ResumeAtIs(c.track.soft, c.track.hard, e + 1, at);
    FailingFlagged(was.track, c.track, medium.softRetries, cause, e);
    FirstSoft(c.track.soft, c.track.hard, e + 1, at);
  }

  lemma FailingFlagged(was: Track, now: Track, softRetries: int, cause: Cause, e: int)
    requires Flagged(was, now, softRetries, cause, e)
    ensures 0 <= e < 32 && (now.soft[e] || now.hard[e])
  {}

  lemma ErrorDecided(medium: Medium, m: Moment, cause: Cause, fdcCount: nat, residue: Option<nat>)
    requires Commanded(medium, m, fdcCount, residue) && cause != NoError
    requires !Contradicts(cause, Awaits(medium, m), fdcCount, residue)
    ensures var was, count := HeadCell(m), Awaits(medium, m);
            var e := m.place.offset + (if fdcCount == count then fdcCount - 1 else fdcCount);
            var track := Charged(was.track, medium.softRetries, cause, e);
            && Indexed(m) && 0 <= e < 32
            && Interrupted(medium, m.place, cause, fdcCount, residue) ==
               Decided(medium, m.place.ring, was.(track := track),
                       Resumption(was.track, track, cause, Some(fdcCount), e), e + 1)
  {
    hide Completed, ClusterSize, Decided, Charged, Resumption, Unusable;
    SizeInRange(medium.bad(HeadCell(m).segmentId), m.place.offset);
  }

  /** With a flag on the last sector, the resume point is the first soft error, or behind that sector. */
  lemma FirstSoft(soft: SectorMap, hard: SectorMap, o: int, i: int)
    requires 1 <= o <= 32 && ResumePoint(soft, hard, o, i) && (soft[o - 1] || hard[o - 1])
    ensures 0 <= i <= o && (i < o ==> soft[i]) && forall k :: 0 <= k < i ==> !soft[k]
  {}
}
