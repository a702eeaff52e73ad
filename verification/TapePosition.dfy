/** Positions on tape as the user sees them (zftape-rw.c): the byte offset of a segment is the sum of
    the sizes of all segments before it.  One position is cached and moved in either direction.
 */
module TapePosition {
  import opened SectorMaps
  import Packing

  /** Bytes of a segment as the user sees it: a raw image includes the parity blocks. */
  function UserSize(bad: SectorMap, raw: bool): nat {
    if PayloadSize(bad) > 0 && raw then PayloadSize(bad) + ECC_SECTORS * SECTOR_SIZE else PayloadSize(bad)
  }

  /** The size in good sectors: none are data if there are not more than the parity blocks take. */
  lemma UserSizeMeans(bad: SectorMap, raw: bool)
    ensures var good := Packing.Packed(bad, 32);
            UserSize(bad, raw) == if good <= 3 then 0 else if raw then 1024 * good else 1024 * (good - 3)
  {
    assert bad[..32] == bad;
  }

  /** The sizes of the segments from a up to, but not including, b. */
  function Sum(size: int -> nat, a: int, b: int): nat
    decreases b - a
  {
    if b <= a then 0 else Sum(size, a, b - 1) + size(b - 1)
  }

  lemma SumNext(size: int -> nat, a: int, b: int)
    requires a <= b
    ensures Sum(size, a, b + 1) == Sum(size, a, b) + size(b) && Sum(size, a, a) == 0
  {}

  lemma {:induction false} SumMonotone(size: int -> nat, a: int, b: int, c: int)
    requires a <= b <= c
    ensures Sum(size, a, b) <= Sum(size, a, c)
    decreases c - b
  {
    if b == c {
    } else {
      SumMonotone(size, a, b, c - 1);
    }
  }

  function Min(a: int, b: int): int { if a <= b then a else b }

  function Max(a: int, b: int): int { if a >= b then a else b }

  /** segment and offset describe the byte pos of segments first to last.  Beyond the end this is the
      end; at a boundary it is the first segment that starts there. */
  ghost predicate Coordinates(size: int -> nat, first: int, last: int, pos: int, segment: int, offset: int) {
    && first <= segment <= last + 1
    && Sum(size, first, segment) + offset == Min(pos, Sum(size, first, last + 1))
    && (offset == 0 || (segment <= last && 0 < offset < size(segment)))
    && (pos > Sum(size, first, last + 1) ==> segment == last + 1)
    && (offset == 0 && pos <= Sum(size, first, last + 1) ==>
          forall s :: first <= s < segment ==> Sum(size, first, s) < pos)
  }

  /** A position has one pair of coordinates. */
  lemma CoordinatesUnique(size: int -> nat, first: int, last: int, pos: int, s: int, o: int, s': int, o': int)
    requires Coordinates(size, first, last, pos, s, o) && Coordinates(size, first, last, pos, s', o')
    ensures s == s' && o == o'
  {
    if s < s' {
      NotBefore(size, first, last, pos, s, o, s', o');
    } else if s' < s {
      NotBefore(size, first, last, pos, s', o', s, o);
    }
  }

  lemma NotBefore(size: int -> nat, first: int, last: int, pos: int, s: int, o: int, s': int, o': int)
    requires Coordinates(size, first, last, pos, s, o) && Coordinates(size, first, last, pos, s', o')
    ensures s' <= s
  {
    if s < s' {
      SumMonotone(size, first, s + 1, s');
      SumMonotone(size, first, s', last + 1);
    }
  }

  /** The start of a segment leads back to the segment, if it is the first one or the one before it
      is not empty; and only then. */
  lemma StartLeadsBack(size: int -> nat, first: int, last: int, s: int, segment: int, offset: int)
    requires first <= s <= last + 1 && Coordinates(size, first, last, Sum(size, first, s), segment, offset)
    ensures offset == 0 && segment <= s && Sum(size, first, segment) == Sum(size, first, s)
    ensures segment == s <==> s == first || size(s - 1) > 0
  {
    var pos := Sum(size, first, s);
    SumMonotone(size, first, s, last + 1);
    if segment < s {
      SumMonotone(size, first, segment, s - 1);
      if segment + 1 <= s {
        SumMonotone(size, first, segment + 1, s);
      }
    } else if s < segment {
      if offset == 0 {
        assert Sum(size, first, s) < pos;
      } else {
        SumMonotone(size, first, s, segment);
      }
    }
  }

  class Cartridge {
    const bad: int -> SectorMap
    var firstDataSegment: int
    var lastDataSegment: int
    var qicMode: bool
    var writeProtected: bool
    var rawImage: bool
    var headerRead: bool
    var capacity: int
    var segPos: int
    var tapePos: int

    /** The segment sizes under the current view. */
    function Sizes(): int -> nat
      reads this`rawImage
    {
      SizeFunction(bad, rawImage)
    }

    /** zft_first_segment */
    function FirstSegment(): int
      reads this`rawImage, this`firstDataSegment
    {
      if rawImage then 0 else firstDataSegment
    }

    function StartOf(segment: int): nat
      reads this`rawImage, this`firstDataSegment
    {
      Sum(Sizes(), FirstSegment(), segment)
    }

    ghost predicate Headers()
      reads this
    {
      0 <= firstDataSegment <= lastDataSegment + 1
    }

    /** The cached position and the capacity are right. */
    ghost predicate CacheRight()
      reads this
    {
      && FirstSegment() <= segPos <= lastDataSegment + 1
      && tapePos == StartOf(segPos) && capacity == StartOf(lastDataSegment + 1)
    }

    ghost predicate Valid()
      reads this
    {
      Headers() && (headerRead ==> CacheRight())
    }

    constructor (bad: int -> SectorMap)
      ensures this.bad == bad && Valid() && !headerRead && !rawImage
    {
      this.bad := bad;
      firstDataSegment, lastDataSegment := 0, -1;
      qicMode, writeProtected, rawImage, headerRead := true, false, false, false;
      capacity, segPos, tapePos := 0, 0, 0;
    }

    /** zft_get_seg_data_sz and zft_get_seg_sz */
    method SegmentSize(segment: int) returns (size: nat)
      ensures size == Sizes()(segment)
    {
      var ones := CountOnesLoop(bad(segment));
      var left := SEGMENT_SIZE - ones * SECTOR_SIZE;
      size := if left > 0 then left else 0;
      if size > 0 && rawImage {
        size := size + ECC_SECTORS * SECTOR_SIZE;
      }
    }

    /** zft_get_capacity */
    method GetCapacity() returns (c: int)
      requires Headers()
      modifies this`segPos, this`tapePos
      ensures c == StartOf(lastDataSegment + 1)
      ensures c == Sum(Sizes(), if rawImage then 0 else firstDataSegment, lastDataSegment + 1)
      ensures segPos == lastDataSegment + 1 && tapePos == c
    {
      segPos, tapePos := FirstSegment(), 0;
      while segPos <= lastDataSegment
        invariant FirstSegment() <= segPos <= lastDataSegment + 1 && tapePos == StartOf(segPos)
      {
        var size := SegmentSize(segPos);
        tapePos, segPos := tapePos + size, segPos + 1;
      }
      c := tapePos;
    }

    /** The header segments have been read: they give the data segments, and the capacity is computed. */
    method ReadHeaders(first: int, last: int)
      requires 0 <= first <= last + 1
      modifies this
      ensures Valid() && headerRead && firstDataSegment == first && lastDataSegment == last
      ensures rawImage == old(rawImage) && qicMode == old(qicMode) && writeProtected == old(writeProtected)
    {
      firstDataSegment, lastDataSegment := first, last;
      capacity := GetCapacity();
      headerRead := true;
    }

    /** zft_update_raw_image: switching the view changes all sizes and the first segment, so the
        cache is rebuilt once the headers are known. */
    method UpdateRawImage()
      requires Valid()
      modifies this`rawImage, this`capacity, this`segPos, this`tapePos
      ensures Valid() && rawImage == (!qicMode && writeProtected)
    {
      var raw := !qicMode && writeProtected;
      if raw == rawImage {
        return;
      }
      rawImage := raw;
      if headerRead {
        capacity := GetCapacity();
      }
    }

    /** Where a segment starts; segments outside of the data area start at its ends. */
    function Position(segment: int): int
      reads this`rawImage, this`firstDataSegment, this`lastDataSegment
    {
      StartOf(Min(segment, lastDataSegment + 1))
    }

    /** Start from the cached position, or from an end of the tape if that is nearer and it pays. */
    method Approach(segment: int) returns (d2: int)
      requires CacheRight() && FirstSegment() <= segment <= lastDataSegment
      modifies this`segPos, this`tapePos
      ensures CacheRight() && (if d2 > 0 then segPos <= segment else segPos >= segment)
      ensures Distance(segment, segPos) <=
                Max(10, Min(Distance(segment, old(segPos)),
                            Min(segment - FirstSegment(), lastDataSegment + 1 - segment)))
    {
      hide Sum, SizeFunction;
      SumNext(Sizes(), FirstSegment(), FirstSegment());
      d2 := segment - segPos;
      if -d2 > 10 {
        var d1 := segment - FirstSegment();
        if -d2 > d1 {
          tapePos, segPos := 0, FirstSegment();
          d2 := d1;
        }
      }
      if d2 > 10 {
        var d3 := lastDataSegment - segment;
        if d2 > d3 {
          tapePos, segPos := capacity, lastDataSegment + 1;
          d2 := -d3;
        }
      }
    }

    /** zft_calc_tape_pos.  steps counts the segments walked over: never more than ten, unless the cached
        position and both ends of the tape are all further away. */
    method CalcTapePos(segment: int) returns (pos: int, ghost steps: int)
      requires Valid() && headerRead
      modifies this`segPos, this`tapePos
      ensures Valid() && pos == Position(segment)
      ensures steps <= Max(10, Min(Distance(segment, old(segPos)),
                                   Min(segment - FirstSegment(), lastDataSegment + 1 - segment)))
    {
      hide Sum, SizeFunction;
      steps := 0;
      if segment > lastDataSegment {
        return capacity, 0;
      }
      if segment < FirstSegment() {
        NothingBefore(segment);
        return 0, 0;
      }
      var d2 := Approach(segment);
      ghost var from := segPos;
      if d2 > 0 {
        while segPos < segment
          invariant CacheRight() && from <= segPos <= segment && steps == segPos - from
        {
          SumNext(Sizes(), FirstSegment(), segPos);
          var size := SegmentSize(segPos);
          tapePos, segPos := tapePos + size, segPos + 1;
          steps := steps + 1;
        }
      } else {
        while segPos > segment
          invariant CacheRight() && segment <= segPos <= from && steps == from - segPos
        {
          SumNext(Sizes(), FirstSegment(), segPos - 1);
          var size := SegmentSize(segPos - 1);
          tapePos, segPos := tapePos - size, segPos - 1;
          steps := steps + 1;
        }
      }
      pos := tapePos;
    }

    lemma NothingBefore(segment: int)
      requires segment < FirstSegment()
      ensures StartOf(segment) == 0
    {}

    /** zft_calc_seg_byte_coord */
    method CalcSegByteCoord(tapePos: int) returns (segment: int, offset: int)
      requires Headers()
      ensures tapePos >= 0 ==> Coordinates(Sizes(), FirstSegment(), lastDataSegment, tapePos, segment, offset)
      ensures tapePos < 0 ==> segment == FirstSegment() - 1 && offset == tapePos
    {
      hide Sum, SizeFunction, Coordinates;
      var first := FirstSegment();
      ghost var sizes := Sizes();
      SumNext(sizes, first, first);
      if tapePos == 0 {
        Found(sizes, first, lastDataSegment, 0, first);
        return first, 0;
      }
      var size: nat, left := 0, tapePos;
      segment := first;
      while left > 0 && segment <= lastDataSegment
        invariant first <= segment <= lastDataSegment + 1 && left == tapePos - Sum(sizes, first, segment)
        invariant forall s :: first <= s < segment ==> Sum(sizes, first, s) < tapePos
        invariant segment == first ==> size == 0
        invariant segment > first ==> size == sizes(segment - 1)
        decreases lastDataSegment + 1 - segment
      {
        SumNext(sizes, first, segment);
        size := SegmentSize(segment);
        left := left - size;
        segment := segment + 1;
      }
      if tapePos > 0 {
        Found(sizes, first, lastDataSegment, tapePos, segment);
      }
      if left >= 0 {
        offset := 0;
      } else {
        segment := segment - 1;
        offset := left + size;
      }
    }
  }

  /** Walking up to the first segment that does not start before pos finds the coordinates of pos. */
  lemma Found(size: int -> nat, first: int, last: int, pos: int, segment: int)
    requires first <= segment <= last + 1 && pos >= 0
    requires forall s :: first <= s < segment ==> Sum(size, first, s) < pos
    requires Sum(size, first, segment) >= pos || segment == last + 1
    ensures var left := pos - Sum(size, first, segment);
            if left >= 0 then Coordinates(size, first, last, pos, segment, 0)
            else segment > first && Coordinates(size, first, last, pos, segment - 1, left + size(segment - 1))
  {
    SumMonotone(size, first, segment, last + 1);
  }

  function Distance(a: int, b: int): int { if a <= b then b - a else a - b }

  datatype Query = PositionOf(segment: int) | View(qicMode: bool, writeProtected: bool)

  /** The position that a query asks for, from the maps alone. */
  function Answer(bad: int -> SectorMap, first: int, last: int, raw: bool, segment: int): int {
    Sum(SizeFunction(bad, raw), if raw then 0 else first, Min(segment, last + 1))
  }

  /** The view after the first n queries. */
  function ViewAfter(raw: bool, queries: seq<Query>, n: nat): bool
    requires n <= |queries|
  {
    if n == 0 then raw
    else match queries[n - 1]
         case PositionOf(_) => ViewAfter(raw, queries, n - 1)
         case View(qic, protected) => !qic && protected
  }

  /** Over every sequence of queries and changes of view, the cache is not visible. */
  method Replay(cartridge: Cartridge, queries: seq<Query>) returns (answers: seq<int>)
    requires cartridge.Valid() && cartridge.headerRead
    modifies cartridge
    ensures cartridge.Valid() && |answers| == |queries|
    ensures forall k :: 0 <= k < |queries| && queries[k].PositionOf? ==>
              answers[k] == Answer(cartridge.bad, old(cartridge.firstDataSegment), old(cartridge.lastDataSegment),
                                   ViewAfter(old(cartridge.rawImage), queries, k), queries[k].segment)
  {
    hide Sum, SizeFunction;
    ghost var raw := cartridge.rawImage;
    answers := [];
    var k := 0;
    while k < |queries|
      invariant 0 <= k <= |queries| && |answers| == k && cartridge.Valid() && cartridge.headerRead
      invariant cartridge.firstDataSegment == old(cartridge.firstDataSegment)
      invariant cartridge.lastDataSegment == old(cartridge.lastDataSegment)
      invariant cartridge.rawImage == ViewAfter(raw, queries, k)
      invariant forall i :: 0 <= i < k && queries[i].PositionOf? ==>
                  answers[i] == Answer(cartridge.bad, cartridge.firstDataSegment, cartridge.lastDataSegment,
                                       ViewAfter(raw, queries, i), queries[i].segment)
    {
      match queries[k] {
        case PositionOf(segment) =>
          var pos, _ := cartridge.CalcTapePos(segment);
          answers := answers + [pos];
        case View(qic, protected) =>
          cartridge.qicMode, cartridge.writeProtected := qic, protected;
          cartridge.UpdateRawImage();
          answers := answers + [0];
      }
      k := k + 1;
    }
  }

  function SizeFunction(bad: int -> SectorMap, raw: bool): int -> nat {
    s => UserSize(bad(s), raw)
  }
}
