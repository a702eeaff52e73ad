/** Recovery from a hard write error (ftape_hard_error_recovery): the failing sector is marked bad,
    so its segment holds one block less, and the data of all segments still to be written moves on by
    one block.  What does not fit any more is left in scratch.
 */
module HardErrorRecovery {
  import opened Bits
  import opened SectorMaps
  import Packing
  import opened Columns
  import opened MemorySegments
  import opened Words
  import opened Options
  import opened Rings

  function Blocks(bad: SectorMap): int { SECTORS_PER_SEGMENT - CountOnes(bad) }

  function Payload(mem: seq<byte>, bad: SectorMap): seq<byte>
    requires |mem| == 32 * 1024
  {
    mem[..PayloadSize(bad)]
  }

  function Concat(parts: seq<seq<byte>>): seq<byte> {
    if |parts| == 0 then [] else Concat(parts[..|parts| - 1]) + parts[|parts| - 1]
  }

  /** carry is what step k leaves over. */
  ghost predicate Moved(was: seq<seq<byte>>, now: seq<seq<byte>>, carry: seq<seq<byte>>) {
    && |was| == |now| == |carry|
    && (|was| > 0 ==> now[0] + carry[0] == was[0])
    && forall k :: 1 <= k < |was| ==> now[k] + carry[k] == carry[k - 1] + was[k]
  }

  /** Nothing is lost, duplicated or reordered. */
  lemma {:induction false} Conserved(was: seq<seq<byte>>, now: seq<seq<byte>>, carry: seq<seq<byte>>)
    requires Moved(was, now, carry) && |was| > 0
    ensures Concat(now) + carry[|carry| - 1] == Concat(was)
  {
    var n := |was| - 1;
    if n == 0 {
      assert was[..0] == [] && now[..0] == [];
    } else {
      var was', now', carry' := was[..n], now[..n], carry[..n];
      Conserved(was', now', carry');
      calc {
        Concat(now) + carry[n];
        (Concat(now') + now[n]) + carry[n];
        Concat(now') + (now[n] + carry[n]);
        Concat(now') + (carry[n - 1] + was[n]);
        (Concat(now') + carry'[n - 1]) + was[n];
        Concat(was') + was[n];
      }
    }
  }

  datatype Status = Waiting | Busy | Failed

  class WriteBuffer {
    var virtual: array<byte>
    var segmentId: int
    var status: Status
    var bytes: int
    var hardErrorMap: SectorMap

    constructor (virtual: array<byte>, segmentId: int)
      ensures this.virtual == virtual && this.segmentId == segmentId
    {
      this.virtual, this.segmentId, status, bytes, hardErrorMap := virtual, segmentId, Waiting, 0, NO_SECTORS;
    }
  }

  /** What matters of a buffer: its memory, segment, status, and the number of bytes to write. */
  datatype Area = Area(data: seq<byte>, segmentId: int, status: Status, bytes: int)

  function PayloadIn(a: Area, table: int -> SectorMap): seq<byte> {
    if |a.data| == 32 * 1024 then Payload(a.data, table(a.segmentId)) else []
  }

  /** A code word that will be written in full, unless the segment has no room for data. */
  ghost predicate WrittenIn(a: Area, table: int -> SectorMap) {
    var bad := table(a.segmentId);
    SegmentBytes(bad) > 0 ==> Written(a.data, bad) && a.bytes == SECTOR_SIZE * Blocks(bad)
  }

  /** The results of a recovery: refused because there is not exactly one hard error; stopped because the block
      to be saved would begin before the buffer; or done, with a block left over and n buffers rewritten. */
  datatype Recovery = NotOne | ReadsBefore(offset: int) | MovedOn(scratch: seq<byte>, n: nat)

  class Writer {
    const buffers: seq<WriteBuffer>
    ghost const areas: set<array<byte>>
    var head: nat
    var deblock: array<byte>
    var oldSegmentId: int
    var table: int -> SectorMap
    ghost var cells: seq<Area>

    /** All memory areas are different and of the right size. */
    ghost predicate Unaliased()
      reads this, buffers
    {
      && deblock in areas && deblock.Length == 32 * 1024
      && forall i :: 0 <= i < |buffers| ==> Lone(i)
    }

    ghost predicate Lone(i: int)
      reads this, buffers
      requires 0 <= i < |buffers|
    {
      var a := buffers[i].virtual;
      && a in areas && a.Length == 32 * 1024 && a != deblock
      && forall j :: 0 <= j < |buffers| && j != i ==> buffers[j] != buffers[i] && buffers[j].virtual != a
    }

    ghost function AreaOf(i: int): Area
      reads this, buffers, areas
      requires 0 <= i < |buffers| && Lone(i)
    {
      var b := buffers[i];
      Area(b.virtual[..], b.segmentId, b.status, b.bytes)
    }

    ghost predicate Tied()
      reads this, buffers, areas
      requires Unaliased()
    {
      |cells| == |buffers| && forall i :: 0 <= i < |buffers| ==> Lone(i) && cells[i] == AreaOf(i)
    }

    ghost predicate Valid()
      reads this, buffers, areas
    {
      head < |buffers| && Unaliased() && Tied()
    }

    constructor (buffers: seq<WriteBuffer>, head: nat, deblock: array<byte>, table: int -> SectorMap)
      requires head < |buffers| && deblock.Length == 32 * 1024
      requires forall i :: 0 <= i < |buffers| ==>
                 buffers[i].virtual.Length == 32 * 1024 && buffers[i].virtual != deblock
      requires forall i, j :: 0 <= i < j < |buffers| ==>
                 buffers[i] != buffers[j] && buffers[i].virtual != buffers[j].virtual
      ensures Valid() && this.buffers == buffers && this.head == head && this.deblock == deblock && this.table == table
      ensures areas == {deblock} + set b | b in buffers :: b.virtual
    {
      this.buffers, this.head, this.deblock, this.table := buffers, head, deblock, table;
      areas := {deblock} + set b | b in buffers :: b.virtual;
      new;
      forall i | 0 <= i < |buffers|
        ensures Lone(i)
      {
      }
      cells := seq(|buffers|,
                   i requires 0 <= i < |this.buffers| && Lone(i) reads this, this.buffers, areas => AreaOf(i));
    }

    /** fdc_int_read_buffer: flip pointers instead of copying. */
    method ReadBuffer(b: WriteBuffer)
      modifies this`deblock, b`virtual
      ensures b.virtual == old(deblock) && deblock == old(b.virtual)
    {
      var tmp := b.virtual;
      b.virtual := deblock;
      deblock := tmp;
    }

    /** fdc_int_copy_and_gen_ecc: flip pointers, and add the parity blocks. */
    method CopyAndGenEcc(b: WriteBuffer, bad: SectorMap, w: int)
      requires IsLongSize(w) && deblock.Length == 32 * 1024
      modifies this`deblock, b`virtual, b`bytes, deblock
      ensures b.virtual == old(deblock) && deblock == old(b.virtual)
      ensures b.virtual[..PayloadSize(bad)] == old(deblock[..PayloadSize(bad)])
      ensures SegmentBytes(bad) > 0 ==> Written(b.virtual[..], bad) && b.bytes == SECTOR_SIZE * Blocks(bad)
      ensures SegmentBytes(bad) <= 0 ==> b.virtual[..] == old(deblock[..]) && b.bytes == old(b.bytes)
    {
      hide ValidSegment, Column, CountOnes;
      var bads := CountOnesLoop(bad);
      var tmp := deblock;
      deblock := b.virtual;
      b.virtual := tmp;
      if bads + 3 >= SECTORS_PER_SEGMENT {
        return;
      }
      var mseg := new MemorySegment(NO_SECTORS, SECTORS_PER_SEGMENT - bads, b.virtual);
      mseg.SetSegmentParity(w);
      b.bytes := mseg.blocks * SECTOR_SIZE;
    }

    /** The failing segment loses its last data block to scratch. */
    method ShrinkHead(b: WriteBuffer, oldBad: SectorMap, bad: SectorMap, w: int) returns (scratch: seq<byte>)
      requires IsLongSize(w) && b.virtual != deblock && b.virtual.Length == deblock.Length == 32 * 1024
      requires SegmentBytes(oldBad) > 0
      modifies this`deblock, b, b.virtual
      ensures b.virtual == old(b.virtual) && deblock == old(deblock) && b.segmentId == old(b.segmentId)
      ensures b.status == Waiting
      ensures SegmentBytes(bad) == SegmentBytes(oldBad) - SECTOR_SIZE ==>
                Payload(b.virtual[..], bad) + scratch == old(Payload(b.virtual[..], oldBad))
      ensures |scratch| == SECTOR_SIZE
      ensures SegmentBytes(bad) > 0 ==> Written(b.virtual[..], bad) && b.bytes == SECTOR_SIZE * Blocks(bad)
    {
      hide Written, CountOnes;
      var size := SegmentBytes(oldBad) - SECTOR_SIZE;
      SizeSteps(oldBad);
      ReadBuffer(b);
      scratch := deblock[size..size + SECTOR_SIZE];
      CopyAndGenEcc(b, bad, w);
      b.status := Waiting;
    }

    /** A following segment takes the block in scratch and gives up its last one.  A segment without
        room for data is skipped; its memory is exchanged for the deblock buffer. */
    method ShiftBuffer(b: WriteBuffer, bad: SectorMap, scratch: seq<byte>, w: int) returns (left: seq<byte>)
      requires IsLongSize(w) && b.virtual != deblock && b.virtual.Length == deblock.Length == 32 * 1024
      requires |scratch| == SECTOR_SIZE
      modifies this`deblock, b, b.virtual
      ensures |left| == SECTOR_SIZE && b.status == old(b.status) && b.segmentId == old(b.segmentId)
      ensures SegmentBytes(bad) <= 0 ==> left == scratch && b.virtual == old(deblock) && deblock == old(b.virtual)
      ensures SegmentBytes(bad) > 0 ==>
                && b.virtual == old(b.virtual) && deblock == old(deblock)
                && Written(b.virtual[..], bad) && b.bytes == SECTOR_SIZE * Blocks(bad)
      ensures b.virtual.Length == 32 * 1024
      ensures Payload(b.virtual[..], bad) + left == scratch + old(Payload(b.virtual[..], bad))
    {
      hide Written, CountOnes;
      ReadBuffer(b);
      var size := SegmentBytes(bad);
      if size <= 0 {
        return scratch;
      }
      SizeSteps(bad);
      ghost var data := deblock[..];
      forall i | 0 <= i < size {
        deblock[SECTOR_SIZE + i] := deblock[i];
      }
      forall i | 0 <= i < SECTOR_SIZE {
        deblock[i] := scratch[i];
      }
      assert deblock[..size + SECTOR_SIZE] == scratch + data[..size];
      left := deblock[size..size + SECTOR_SIZE];
      assert deblock[..size] + left == deblock[..size + SECTOR_SIZE];
      CopyAndGenEcc(b, bad, w);
    }

    // ----- the whole recovery -----

    /** One round of the loop. */
    method ShiftAt(i: nat, scratch: seq<byte>, w: int) returns (left: seq<byte>, ghost a: Area)
      requires Valid() && IsLongSize(w) && i < |buffers| && |scratch| == SECTOR_SIZE
      modifies this`deblock, this`cells, buffers[i], areas
      ensures Valid() && |left| == SECTOR_SIZE && cells == old(cells)[i := a]
      ensures a.segmentId == old(cells)[i].segmentId && a.status == old(cells)[i].status
      ensures PayloadIn(a, table) + left == scratch + PayloadIn(old(cells)[i], table) && WrittenIn(a, table)
    {
      hide Written, CountOnes, Payload;
      var b := buffers[i];
      assert Lone(i);
      left := ShiftBuffer(b, table(b.segmentId), scratch, w);
      a := Area(b.virtual[..], b.segmentId, b.status, b.bytes);
      cells := cells[i := a];
      forall j | 0 <= j < |buffers|
        ensures Lone(j)
      {
        assert old(Lone(j)) && old(Lone(i));
        assert forall k :: 0 <= k < |buffers| && k != i ==>
                 old(Lone(k)) && buffers[k].virtual == old(buffers[k].virtual);
      }
      forall j | 0 <= j < |buffers|
        ensures cells[j] == AreaOf(j)
      {
        assert old(Lone(j)) && old(Lone(i));
      }
    }

    lemma Sizes()
      requires Valid()
      ensures head < |buffers| == |cells|
    {}

    lemma StatusOf(i: nat)
      requires Valid() && i < |buffers|
      ensures |cells| == |buffers| && cells[i].status == buffers[i].status && cells[i].segmentId == buffers[i].segmentId
    {}

    /** The failing sector is marked bad and the failing segment gives up a block. */
    method FailHead(w: int) returns (scratch: seq<byte>, ghost a: Area)
      requires Valid() && IsLongSize(w) && SegmentBytes(table(buffers[head].segmentId)) > 0
      modifies this`deblock, this`table, this`cells, buffers[head], areas
      ensures Valid() && |scratch| == SECTOR_SIZE && cells == old(cells)[head := a]
      ensures a.segmentId == old(buffers[head].segmentId) == old(cells)[head].segmentId && a.status == Waiting
      ensures table(a.segmentId) == Or(old(table)(a.segmentId), old(buffers[head].hardErrorMap))
      ensures forall id :: id != a.segmentId ==> table(id) == old(table)(id)
      ensures SegmentBytes(table(a.segmentId)) == SegmentBytes(old(table)(a.segmentId)) - SECTOR_SIZE ==>
                PayloadIn(a, table) + scratch == PayloadIn(old(cells)[head], old(table))
      ensures WrittenIn(a, table) && |a.data| == |old(cells)[head].data| == 32 * 1024
    {
      hide Written, CountOnes, Payload, Or;
      var b := buffers[head];
      assert Lone(head);
      var id := b.segmentId;
      var oldBad := table(id);
      var bad := Or(oldBad, b.hardErrorMap);
      MarkBad(id, bad);
      scratch := ShrinkHead(b, oldBad, bad, w);
      a := Area(b.virtual[..], b.segmentId, b.status, b.bytes);
      cells := cells[head := a];
      forall j | 0 <= j < |buffers|
        ensures Lone(j) && cells[j] == AreaOf(j)
      {
        assert old(Lone(j)) && old(Lone(head));
        assert forall k :: 0 <= k < |buffers| && k != head ==>
                 old(Lone(k)) && buffers[k].virtual == old(buffers[k].virtual);
      }
    }

    /** The loop over the buffers that wait behind HEAD; carry records what each round leaves over. */
    method MoveOn(scratch: seq<byte>, w: int) returns (left: seq<byte>, n: nat, ghost carry: seq<seq<byte>>)
      requires Valid() && IsLongSize(w) && |scratch| == SECTOR_SIZE
      modifies this`deblock, this`cells, buffers, areas
      ensures Valid() && |left| == SECTOR_SIZE && |cells| == |old(cells)|
      ensures |carry| == n > 0 && carry[0] == scratch && carry[n - 1] == left
      ensures Rewritten(Rotated(old(cells), head), Rotated(cells, head), carry, table)
      ensures WaitingRun(Rotated(old(cells), head), n)
    {
      hide Valid, WrittenIn, PayloadIn, Rotated, Slot, Next, Rewritten;
      Sizes();
      NothingRewritten(Rotated(cells, head), scratch, table);
      ghost var was := Rotated(cells, head);
      left, n, carry := scratch, 1, [scratch];
      var pos := Next(head, |buffers|);
      SlotNext(head, 0, |buffers|);
      while pos != head && buffers[pos].status == Waiting
        invariant Valid() && |cells| == |buffers| && |left| == SECTOR_SIZE
        invariant 1 <= n <= |buffers| && pos == Slot(head, n, |buffers|)
        invariant |carry| == n && carry[0] == scratch && carry[n - 1] == left
        invariant Rewritten(was, Rotated(cells, head), carry, table)
        invariant forall k :: 1 <= k < n ==> was[k].status == Waiting
        decreases |buffers| - n
      {
        ghost var before := cells;
        StatusOf(pos);
        ghost var a;
        left, a := ShiftAt(pos, left, w);
        NotRoundTheRing(head, n, |buffers|);
        RotatedAt(before, head, n, a);
        SlotNext(head, n, |buffers|);
        RewrittenNext(was, Rotated(before, head), carry, table, a, left);
        carry := carry + [left];
        n := n + 1;
        pos := Next(pos, |buffers|);
        Sizes();
      }
      if pos != head {
        StatusOf(pos);
        NotRoundTheRing(head, n, |buffers|);
        RotatedAt(cells, head, n, cells[pos]);
        RewrittenRest(was, Rotated(cells, head), carry, table);
      } else {
        RoundTheRing(head, n, |buffers|);
      }
    }

    /** ftape_hard_error_recovery.  It reads before the buffer exactly if the failing segment has no room for
        data.  Otherwise the data is conserved exactly if the failing sector was a good one, provided that no
        other segment to be written has the same number. */
    method Recover(w: int) returns (r: Recovery)
      requires Valid() && IsLongSize(w)
      modifies this`deblock, this`table, this`cells, this`oldSegmentId, buffers, areas
      ensures Valid() && |cells| == |old(cells)| == |buffers|
      ensures oldSegmentId == if r.MovedOn? then -1 else old(oldSegmentId)
      ensures r.NotOne? <==> CountOnes(old(buffers[head].hardErrorMap)) != 1
      ensures r.NotOne? ==> cells == old(cells) && table == old(table)
      ensures r.ReadsBefore? <==> !r.NotOne? && SegmentBytes(old(table(buffers[head].segmentId))) <= 0
      ensures r.ReadsBefore? ==>
                r.offset == SegmentBytes(old(table(buffers[head].segmentId))) - SECTOR_SIZE < 0 && cells == old(cells)
      ensures !r.NotOne? ==>
                var id := old(buffers[head].segmentId);
                && table(id) == Or(old(table)(id), old(buffers[head].hardErrorMap))
                && forall other :: other != id ==> table(other) == old(table)(other)
      ensures r.MovedOn? ==>
                var was, now := Rotated(old(cells), head), Rotated(cells, head);
                && WaitingRun(was, r.n)
                && (forall k :: 0 <= k < r.n ==>
                      now[k].segmentId == was[k].segmentId && now[k].status == Waiting && WrittenIn(now[k], table))
                && (forall k :: r.n <= k < |was| ==> now[k] == was[k])
                && (OtherSegments(old(cells), head) ==>
                      (GoodHit(old(table)(was[0].segmentId), old(buffers[head].hardErrorMap)) <==>
                       Concat(PayloadsOf(now, table, r.n)) + r.scratch == Concat(PayloadsOf(was, old(table), r.n))))
    {
      hide Valid, WrittenIn, PayloadIn, Rotated, Slot, Next, Rewritten, CountOnes, Or, GoodHit, PayloadsOf,
           Concat, SegmentBytes, OtherSegments;
      Sizes();
      StatusOf(head);
      var hard := buffers[head].hardErrorMap;
      var ones := CountOnesLoop(hard);
      if ones != 1 {
        return NotOne;
      }
      ghost var was, oldTable := Rotated(cells, head), table;
      RotatedAt(cells, head, 0, cells[head]);
      SlotNext(head, 0, |buffers|);
      OneMore(table(buffers[head].segmentId), hard);
      var size := SegmentBytes(table(buffers[head].segmentId)) - SECTOR_SIZE;
      var id, bad := buffers[head].segmentId, Or(table(buffers[head].segmentId), hard);
      if size < 0 {
        NoRoom(table(id));
        MarkBad(id, bad);
        return ReadsBefore(size);
      }
      ghost var a, carry, old1 := cells[head], [], cells;
      var s, left, n;
      s, a := FailHead(w);
      RotatedAt(old1, head, 0, a);
      left, n, carry := MoveOn(s, w);
      Recovered(was, a, Rotated(cells, head), carry, oldTable, table, hard);
      if OtherSegments(old1, head) {
        OtherLine(old1, head);
      }
      RunAfterHead(was, a, n);
      Forget();
      r := MovedOn(left, n);
    }

    /** HEAD will not be set up as a retry. */
    method Forget()
      requires Valid()
      modifies this`oldSegmentId
      ensures Valid() && oldSegmentId == -1
    {
      oldSegmentId := -1;
      forall i | 0 <= i < |buffers|
        ensures Lone(i) && cells[i] == AreaOf(i)
      {
        assert old(Lone(i));
      }
    }

    /** ftape_put_bad_sector_entry, as a function. */
    method MarkBad(id: int, bad: SectorMap)
      requires Valid()
      modifies this`table
      ensures Valid() && table(id) == bad && forall other :: other != id ==> table(other) == old(table)(other)
    {
      var before := table;
      table := i => if i == id then bad else before(i);
      forall i | 0 <= i < |buffers|
        ensures Lone(i) && cells[i] == AreaOf(i)
      {
        assert old(Lone(i));
      }
    }
  }

  /** Sizes are whole blocks. */
  lemma NoRoom(bad: SectorMap)
    ensures SegmentBytes(bad) < SECTOR_SIZE <==> SegmentBytes(bad) <= 0
  {}

  /** A drive with one buffer, whose segment has only three good sectors, one of which fails. */
  method ReadsBeforeExample() returns (r: Recovery)
    ensures r == ReadsBefore(-1024)
  {
    var bad := LowMask(29);
    var memory, spare := new byte[32 * 1024], new byte[32 * 1024];
    var b := new WriteBuffer(memory, 7);
    b.hardErrorMap := SetBit(NO_SECTORS, 30);
    Packing.CountLowMask(29);
    CountSetBit(NO_SECTORS, 30);
    CountNone(NO_SECTORS);
    var writer := new Writer([b], 0, spare, _ => bad);
    r := writer.Recover(4);
  }

  /** No buffer that waits to be written belongs to the segment of HEAD. */
  ghost predicate OtherSegments(cells: seq<Area>, head: int)
    requires 0 <= head < |cells|
  {
    forall i :: 0 <= i < |cells| && i != head && cells[i].status == Waiting ==>
      cells[i].segmentId != cells[head].segmentId
  }

  lemma OtherLine(cells: seq<Area>, head: nat)
    requires head < |cells| && OtherSegments(cells, head)
    ensures OtherSegments(Rotated(cells, head), 0)
  {
    var line := Rotated(cells, head);
    forall k | 0 <= k < |line| && k != 0
      ensures line[k].status == Waiting ==> line[k].segmentId != line[0].segmentId
    {
      assert line[k] == cells[Slot(head, k, |cells|)] && Slot(head, k, |cells|) != head;
    }
  }

  /** The hard error is on a sector that was not marked bad. */
  ghost predicate GoodHit(bad: SectorMap, hard: SectorMap) {
    forall i :: 0 <= i < 32 && hard[i] ==> !bad[i]
  }

  lemma {:induction false} OneBit(m: seq<bool>) returns (e: nat)
    requires CountOnes(m) == 1
    ensures e < |m| && m[e] && forall i :: 0 <= i < |m| && i != e ==> !m[i]
  {
    var k := |m| - 1;
    if m[k] {
      CountNone(m[..k]);
      e := k;
    } else {
      e := OneBit(m[..k]);
    }
  }

  /** Marking one more sector bad takes one block away. */
  lemma OneMore(bad: SectorMap, hard: SectorMap)
    requires CountOnes(hard) == 1
    ensures GoodHit(bad, hard) ==> SegmentBytes(Or(bad, hard)) == SegmentBytes(bad) - SECTOR_SIZE
    ensures !GoodHit(bad, hard) ==> Or(bad, hard) == bad
  {
    hide CountOnes;
    var e := OneBit(hard);
    assert Or(bad, hard) == bad[e := true];
    CountSetBit(bad, e);
  }

  function PayloadsOf(line: seq<Area>, table: int -> SectorMap, n: nat): (parts: seq<seq<byte>>)
    requires n <= |line|
    ensures |parts| == n && forall k :: 0 <= k < n ==> parts[k] == PayloadIn(line[k], table)
  {
    if n == 0 then [] else PayloadsOf(line, table, n - 1) + [PayloadIn(line[n - 1], table)]
  }

  lemma RunAfterHead(was: seq<Area>, a: Area, n: nat)
    requires |was| > 0 && WaitingRun(was[0 := a], n)
    ensures WaitingRun(was, n)
  {
    assert forall k :: 1 <= k < |was| ==> was[0 := a][k] == was[k];
  }

  lemma {:induction false} SameLength(a: seq<seq<byte>>, b: seq<seq<byte>>)
    requires |a| == |b| && forall k :: 0 <= k < |a| ==> |a[k]| == |b[k]|
    ensures |Concat(a)| == |Concat(b)|
  {
    if |a| == 0 {
    } else {
      SameLength(a[..|a| - 1], b[..|b| - 1]);
    }
  }

  lemma Recovered(was: seq<Area>, a: Area, now: seq<Area>, carry: seq<seq<byte>>,
                  oldTable: int -> SectorMap, table: int -> SectorMap, hard: SectorMap)
    requires |was| > 0 && a.segmentId == was[0].segmentId
    requires |a.data| == |was[0].data| == 32 * 1024
    requires Rewritten(was[0 := a], now, carry, table) && |carry| > 0
    requires a.status == Waiting && WrittenIn(a, table) && WaitingRun(was[0 := a], |carry|)
    requires forall id :: id != a.segmentId ==> table(id) == oldTable(id)
    requires table(a.segmentId) == Or(oldTable(a.segmentId), hard)
    requires GoodHit(oldTable(a.segmentId), hard) ==> PayloadIn(a, table) + carry[0] == PayloadIn(was[0], oldTable)
    requires !GoodHit(oldTable(a.segmentId), hard) ==> Or(oldTable(a.segmentId), hard) == oldTable(a.segmentId)
    ensures |now| == |was|
    ensures var n := |carry|;
            && n <= |was|
            && (forall k :: 0 <= k < n ==>
                  now[k].segmentId == was[k].segmentId && now[k].status == Waiting && WrittenIn(now[k], table))
            && (forall k :: n <= k < |was| ==> now[k] == was[k])
            && (OtherSegments(was, 0) ==>
                  (GoodHit(oldTable(a.segmentId), hard) <==>
                   Concat(PayloadsOf(now, table, n)) + carry[n - 1] == Concat(PayloadsOf(was, oldTable, n))))
  {
    hide WrittenIn, PayloadsOf, Concat, GoodHit, Or, CountOnes;
    var n := |carry|;
    if !OtherSegments(was, 0) {
      return;
    }
    var parts, parts' := PayloadsOf(was, oldTable, n), PayloadsOf(now, table, n);
    forall k | 1 <= k < n
      ensures parts'[k] + carry[k] == carry[k - 1] + parts[k] && |parts'[k]| == |parts[k]|
    {
      assert was[0 := a][k] == was[k] && was[k].segmentId != was[0].segmentId;
      assert PayloadIn(was[k], table) == PayloadIn(was[k], oldTable);
    }
    if GoodHit(oldTable(a.segmentId), hard) {
      Conserved(parts, parts', carry);
    } else {
      SameLength(parts, parts');
    }
  }

  lemma RoundTheRing(head: nat, n: nat, size: nat)
    requires head < size && 1 <= n <= size && Slot(head, n, size) == head
    ensures n == size
  {}

  lemma NothingRewritten(line: seq<Area>, scratch: seq<byte>, table: int -> SectorMap)
    requires |line| > 0 && |scratch| == SECTOR_SIZE
    ensures Rewritten(line, line, [scratch], table)
  {}

  lemma RewrittenRest(was: seq<Area>, now: seq<Area>, carry: seq<seq<byte>>, table: int -> SectorMap)
    requires Rewritten(was, now, carry, table) && |carry| < |was|
    ensures |was| == |now| && now[|carry|] == was[|carry|]
  {}

  lemma RewrittenNext(was: seq<Area>, now: seq<Area>, carry: seq<seq<byte>>, table: int -> SectorMap, a: Area,
                      left: seq<byte>)
    requires Rewritten(was, now, carry, table) && 1 <= |carry| < |now| == |was| && |left| == SECTOR_SIZE
    requires var b := now[|carry|];
             && a.segmentId == b.segmentId && a.status == b.status && WrittenIn(a, table)
             && PayloadIn(a, table) + left == carry[|carry| - 1] + PayloadIn(b, table)
    ensures Rewritten(was, now[|carry| := a], carry + [left], table) && now[|carry|] == was[|carry|]
  {
    hide WrittenIn, PayloadIn;
  }

  lemma NotRoundTheRing(head: nat, n: nat, size: nat)
    requires head < size && n <= size && Slot(head, n, size) != head
    ensures n < size
  {}

  /** Of a line of buffers, HEAD first, those before the n-th wait to be written, and no more. */
  ghost predicate WaitingRun(line: seq<Area>, n: nat) {
    && 1 <= n <= |line|
    && (forall k :: 1 <= k < n ==> line[k].status == Waiting)
    && (n < |line| ==> line[n].status != Waiting)
  }

  /** As many buffers as there are carries have been rewritten, except HEAD. */
  ghost predicate Rewritten(was: seq<Area>, now: seq<Area>, carry: seq<seq<byte>>, table: int -> SectorMap) {
    && |was| == |now| && |carry| <= |was|
    && (forall k :: 0 <= k < |carry| ==> |carry[k]| == SECTOR_SIZE)
    && (forall k :: 1 <= k < |carry| ==>
          && now[k].segmentId == was[k].segmentId && now[k].status == was[k].status
          && PayloadIn(now[k], table) + carry[k] == carry[k - 1] + PayloadIn(was[k], table)
          && WrittenIn(now[k], table))
    && (forall k :: 0 <= k < |was| && (k == 0 || |carry| <= k) ==> now[k] == was[k])
  }

  /** A code word with the right number of blocks. */
  ghost predicate Written(mem: seq<byte>, bad: SectorMap) {
    Holds(mem, Blocks(bad)) && ValidSegment(mem, Blocks(bad))
  }

  /** Sizes are multiples of the block size. */
  lemma SizeSteps(bad: SectorMap)
    requires SegmentBytes(bad) > 0
    ensures SECTOR_SIZE <= SegmentBytes(bad) <= 29 * 1024
  {}
}
