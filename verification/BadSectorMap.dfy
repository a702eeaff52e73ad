/** The bad-sector map of the variable-length formats (ftape-bsm.c): a zero-terminated list of
    three-byte sector numbers with a cursor and a one-entry cache for sequential access.
 */
module BadSectorMaps {
  import opened Bits
  import opened SectorMaps
  import opened SectorLists

  class BadSectorMap {
    var format: Format
    var list: array<SectorCount>
    var cursor: int                // bsm_hash_ptr, as an index into the list
    var lastReference: int
    var cachedMap: SectorMap
    var usedHeaderSegment: int
    ghost var entries: seq<nat>    // the sector numbers before the terminator

    /** The list holds the entries, followed by a zero. */
    ghost predicate Stored()
      reads this, list
    {
      ListHolds(list[..], entries)
    }

    ghost predicate Valid()
      reads this, list
    {
      && UsesList(format) && Stored() && WellFormed(format, entries)
      && (cursor == 0 || IsFirst(entries, lastReference, cursor))
    }

    /** The cursor is at the first entry not below the last referenced segment, and the cached
        map is the one that a scan of the whole list finds for that segment. */
    ghost predicate Coherent()
      reads this
    {
      IsFirst(entries, lastReference, cursor) && cachedMap == Lookup(entries, lastReference)
    }

    /** ftape_init_bsm, followed by ftape_extract_bad_sector_map: a fresh map. */
    constructor (format: Format, list: array<SectorCount>, ghost entries: seq<nat>)
      requires UsesList(format) && WellFormed(format, entries) && ListHolds(list[..], entries)
      ensures Valid() && Coherent() && this.format == format && this.list == list && this.entries == entries
      ensures usedHeaderSegment == -1
    {
      this.format, this.list, this.entries := format, list, entries;
      cursor, lastReference, cachedMap, usedHeaderSegment := 0, -1, NO_SECTORS, -1;
      new;
      SegmentsNotNegative(entries);
      LookupNone(entries, -1);
    }

    /** ftape_extract_bad_sector_map on its own: it resets the cursor, but neither the last
        referenced segment nor the cached map. */
    method Extract(format: Format, list: array<SectorCount>, ghost entries: seq<nat>)
      requires UsesList(format) && WellFormed(format, entries) && ListHolds(list[..], entries)
      modifies this`format, this`list, this`cursor, this`entries
      ensures Valid() && this.format == format && this.list == list && this.entries == entries
      ensures cursor == 0 && lastReference == old(lastReference) && cachedMap == old(cachedMap)
    {
      this.format, this.list, this.entries, this.cursor := format, list, entries, 0;
    }

    /** forward_seek_entry, from entry p0 on.  The count is the number of entries of the segment,
        but 32 for a flagged one. */
    method ForwardSeek(seg: int, p0: int) returns (p: int, m: SectorMap, count: int, ghost q: int)
      requires Valid() && 0 <= p0 <= |entries|
      requires forall i :: 0 <= i < p0 ==> SegmentOf(entries[i]) < seg
      ensures IsRun(entries, seg, p, q)
      ensures m == Lookup(entries, seg)
      ensures count == if p < q && Flagged(entries[p]) then 32 else q - p
      ensures p < q && Flagged(entries[p]) ==> q == p + 1
      ensures p < q && !Flagged(entries[p]) ==> forall i :: p <= i < q ==> !Flagged(entries[i])
    {
      hide SegmentOf, Flagged, Lookup, WellFormed, Or, MapOf;
      p := p0;
      var sector := GetSector(list[p]);
      GoodSectors(format, entries);
      while sector != 0 && SegmentOf(sector) < seg
        invariant 0 <= p <= |entries| && sector == (if p < |entries| then entries[p] else 0)
        invariant forall i :: 0 <= i < p ==> SegmentOf(entries[i]) < seg
        decreases |entries| - p
      {
        p := p + 1;
        sector := GetSector(list[p]);
      }
      q := p;
      AtOrAbove(format, entries, seg, p);
      if sector == 0 || SegmentOf(sector) != seg {
        m, count := NO_SECTORS, 0;
        Above(format, entries, seg, p);
        LookupNone(entries, seg);
      } else if Flagged(sector) && FlagsSegments(format) {
        m, count, q := EMPTY_SEGMENT, 32, p + 1;
        FlaggedRun(format, entries, p);
      } else {
        FlagsAllowed(format, entries, p);
        m, count, q := CollectForward(seg, p);
      }
    }

    /** The map and the number of the single entries of a segment, from the first one on. */
    method CollectForward(seg: int, p: int) returns (m: SectorMap, count: int, ghost q: int)
      requires Valid() && 0 <= p < |entries| && SegmentOf(entries[p]) == seg && !Flagged(entries[p])
      requires forall i :: 0 <= i < p ==> SegmentOf(entries[i]) < seg
      ensures IsRun(entries, seg, p, q) && p < q && m == Lookup(entries, seg) && count == q - p
      ensures forall i :: p <= i < q ==> !Flagged(entries[i])
    {
      hide SegmentOf, Flagged, Lookup, WellFormed, Or, MapOf;
      GoodSectors(format, entries);
      count := 1;
      var t := p + 1;
      m := MapOf(GetSector(list[p]));
      SingleRun(entries, seg, p);
      var sector := GetSector(list[t]);
      while sector != 0 && SegmentOf(sector) == seg
        invariant p < t <= |entries| && sector == (if t < |entries| then entries[t] else 0)
        invariant forall i :: p <= i < t ==> SegmentOf(entries[i]) == seg && !Flagged(entries[i])
        invariant m == Lookup(entries[p..t], seg) && count == t - p
        decreases |entries| - t
      {
        SameSegmentPlain(format, entries, t - 1);
        RunAppend(entries, seg, p, t);
        m := Or(m, MapOf(sector));
        count := count + 1;
        t := t + 1;
        sector := GetSector(list[t]);
      }
      q := t;
      RestAbove(format, entries, seg, q);
      LookupRun(entries, seg, p, q);
    }

    /** backwards_seek_entry, from the cursor back. */
    method BackwardsSeek(seg: int, p0: int) returns (p: int, m: SectorMap)
      requires Valid() && 0 <= p0 <= |entries|
      requires p0 > 0 ==> forall i :: p0 <= i < |entries| ==> SegmentOf(entries[i]) > seg
      ensures p0 > 0 ==> IsFirst(entries, seg, p) && m == Lookup(entries, seg)
      ensures p0 == 0 ==> p == 0 && m == NO_SECTORS
    {
      hide SegmentOf, Flagged, Lookup, WellFormed, Or, MapOf;
      p := p0;
      GoodSectors(format, entries);
      if p <= 0 {
        m := NO_SECTORS;
        return;
      }
      p := p - 1;
      var sector := GetSector(list[p]);
      while p > 0 && SegmentOf(sector) > seg
        invariant 0 <= p < p0 && sector == entries[p]
        invariant forall i :: p < i < |entries| ==> SegmentOf(entries[i]) > seg
      {
        p := p - 1;
        sector := GetSector(list[p]);
      }
      AtOrBelow(format, entries, p);
      if SegmentOf(sector) > seg {
        m := NO_SECTORS;
        LookupNone(entries, seg);
      } else if SegmentOf(sector) < seg {
        p := p + 1;
        m := NO_SECTORS;
        LookupNone(entries, seg);
      } else if Flagged(sector) && FlagsSegments(format) {
        m := EMPTY_SEGMENT;
        FlaggedRun(format, entries, p);
        RunIsFirst(entries, seg, p, p + 1);
      } else {
        FlagsAllowed(format, entries, p);
        p, m := CollectBackwards(seg, p);
      }
    }

    /** The map of the single entries of a segment, from the last one back to the first. */
    method CollectBackwards(seg: int, p0: int) returns (p: int, m: SectorMap)
      requires Valid() && 0 <= p0 < |entries| && SegmentOf(entries[p0]) == seg && !Flagged(entries[p0])
      requires forall i :: p0 < i < |entries| ==> SegmentOf(entries[i]) > seg
      ensures IsFirst(entries, seg, p) && m == Lookup(entries, seg)
    {
      hide SegmentOf, Flagged, Lookup, WellFormed, Or, MapOf;
      GoodSectors(format, entries);
      p := p0;
      ghost var q := p0 + 1;
      m := MapOf(GetSector(list[p]));
      SingleRun(entries, seg, p);
      var segment := seg;
      while p > 0
        invariant 0 <= p <= p0 && segment == seg
        invariant forall i :: p <= i < q ==> SegmentOf(entries[i]) == seg && !Flagged(entries[i])
        invariant m == Lookup(entries[p..q], seg)
      {
        p := p - 1;
        var sector := GetSector(list[p]);
        segment := SegmentOf(sector);
        if segment != seg {
          SegmentsSorted(format, entries, p, p + 1);
          AtOrBelow(format, entries, p);
          p := p + 1;
          LookupRun(entries, seg, p, q);
          return;
        }
        SameSegmentPlain(format, entries, p);
        RunPrepend(entries, seg, p, q);
        m := Or(m, MapOf(sector));
      }
      LookupRun(entries, seg, p, q);
    }

    /** ftape_get_bad_sector_entry */
    method Get(seg: int) returns (m: SectorMap)
      requires Valid()
      modifies this`cursor, this`cachedMap, this`lastReference
      ensures Valid()
      ensures usedHeaderSegment == -1 ==> m == NO_SECTORS && cursor == old(cursor)
      ensures usedHeaderSegment == -1 ==> cachedMap == old(cachedMap) && lastReference == old(lastReference)
      ensures usedHeaderSegment != -1 ==> cachedMap == m && lastReference == seg
      ensures usedHeaderSegment != -1 && old(Coherent()) ==> m == Lookup(entries, seg) && Coherent()
      ensures usedHeaderSegment != -1 && old(cursor) == 0 ==>
                m == FirstAnswer(entries, old(lastReference), old(cachedMap), seg)
    {
      hide SegmentOf, Lookup, WellFormed;
      if usedHeaderSegment == -1 {
        return NO_SECTORS;
      }
      if seg > lastReference {
        var count;
        ghost var q;
        cursor, cachedMap, count, q := ForwardSeek(seg, cursor);
        RunIsFirst(entries, seg, cursor, q);
      } else if seg < lastReference {
        if cursor == 0 {
          NothingBelow(entries, lastReference, seg);
        }
        cursor, cachedMap := BackwardsSeek(seg, cursor);
      }
      lastReference := seg;
      m := cachedMap;
    }

    /** ftape_put_bad_sector_entry.  There must be room in the list for the new entries. */
    method Put(seg: int, newMap: SectorMap)
      requires Valid() && Addressable(seg)
      requires |entries| - Cost(format, Lookup(entries, seg)) + Cost(format, newMap) < list.Length
      modifies this`cursor, this`cachedMap, this`lastReference, this`entries, list
      ensures Valid() && Coherent() && lastReference == seg
      ensures |entries| == |old(entries)| - Cost(format, Lookup(old(entries), seg)) + Cost(format, newMap)
      ensures forall s :: Lookup(entries, s) == if s == seg then newMap else Lookup(old(entries), s)
    {
      hide SegmentOf, Lookup, WellFormed, Cost, NewEntries, Replaced, Flagged, CountOnes, ListHolds;
      ghost var es := entries;
      var p, m, count, q := ForwardSeek(seg, 0);
      var newCount := CountOnesLoop(newMap);
      RunCost(format, es, seg, p, q);
      NewCost(format, newMap);
      if FlagsSegments(format) {
        if newCount == 32 {
          newCount := 1;
        }
        if count == 32 {
          count := 1;
        }
      }
      EditList(list, p, count, newCount, format, seg, newMap, es, q);
      PutState(format, es, seg, p, q, newMap);
      entries := Replaced(es, p, q, NewEntries(format, seg, newMap));
      lastReference, cachedMap, cursor := seg, newMap, p;
    }
  }

  /** Makes room for, or takes up the room of, the new entries of a segment and writes them. */
  method EditList(list: array<SectorCount>, p: int, count: int, newCount: int, format: Format, seg: int,
                  newMap: SectorMap, ghost es: seq<nat>, ghost q: int)
    requires ListHolds(list[..], es) && WellFormed(format, es) && 0 <= p <= q <= |es| && count == q - p
    requires Addressable(seg) && newCount == Cost(format, newMap) && |es| - count + newCount < list.Length
    modifies list
    ensures ListHolds(list[..], Replaced(es, p, q, NewEntries(format, seg, newMap)))
  {
    hide WellFormed, Cost, NewEntries, Replaced, ListHolds, GetSector, Lookup, Sorted;
    ghost var ns := NewEntries(format, seg, newMap);
    NewEntriesMean(format, seg, newMap);
    GoodSectors(format, es);
    ghost var mem := list[..];
    if count != newCount {
      MoveTail(list, p, count, newCount, es);
    }
    ghost var mem' := list[..];
    WriteEntries(list, p, format, seg, newMap, newCount);
    PutHolds(mem, mem', list[..], es, p, q, ns);
  }

  /** The edited sequence is well-formed and stands for the updated map. */
  lemma PutState(format: Format, es: seq<nat>, seg: int, p: int, q: int, m: SectorMap)
    requires WellFormed(format, es) && IsRun(es, seg, p, q) && Addressable(seg)
    ensures var r := Replaced(es, p, q, NewEntries(format, seg, m));
            && WellFormed(format, r) && IsFirst(r, seg, p) && |r| == |es| - (q - p) + Cost(format, m)
            && forall s :: Lookup(r, s) == if s == seg then m else Lookup(es, s)
  {
    hide SegmentOf, WellFormed, Cost, NewEntries, Lookup, Sorted, GoodEntry;
    var ns := NewEntries(format, seg, m);
    NewEntriesMean(format, seg, m);
    WellFormedReplaced(format, es, seg, p, q, m);
    ReplacedFirst(es, seg, p, q, ns);
    forall s
      ensures Lookup(Replaced(es, p, q, ns), s) == if s == seg then m else Lookup(es, s)
    {
      LookupReplaced(es, seg, p, q, ns, s);
    }
  }

  /** The zero-terminated list of the given entries. */
  predicate ListHolds(mem: seq<SectorCount>, es: seq<nat>) {
    && |es| < |mem|
    && (forall i :: 0 <= i < |es| ==> GetSector(mem[i]) == es[i])
    && GetSector(mem[|es|]) == 0
  }

  /** Moves the entries from p + count on, including the terminator, to p + newCount. */
  method MoveTail(list: array<SectorCount>, p: int, count: int, newCount: int, ghost es: seq<nat>)
    requires ListHolds(list[..], es) && 0 <= p && 0 <= count && p + count <= |es| && 0 <= newCount
    requires forall i :: 0 <= i < |es| ==> es[i] != 0
    requires |es| - count + newCount < list.Length
    modifies list
    ensures list[..p] == old(list[..p])
    ensures list[p + newCount..|es| + 1 - count + newCount] == old(list[p + count..|es| + 1])
  {
    hide GetSector;
    var hi := p;
    while GetSector(list[hi]) != 0
      invariant p <= hi <= |es|
      decreases |es| - hi
    {
      hi := hi + 1;
    }
    hi := hi + 1;
    var len := hi - (p + count);
    forall i | 0 <= i < len {
      list[p + newCount + i] := list[p + count + i];
    }
  }

  /** Writes the entries of a segment from p on. */
  method WriteEntries(list: array<SectorCount>, p: int, format: Format, seg: int, newMap: SectorMap, newCount: int)
    requires Addressable(seg) && newCount == |NewEntries(format, seg, newMap)| == Cost(format, newMap)
    requires 0 <= p && p + newCount <= list.Length
    modifies list
    ensures list[..p] == old(list[..p]) && list[p + newCount..] == old(list[p + newCount..])
    ensures forall i :: 0 <= i < newCount ==> GetSector(list[p + i]) == NewEntries(format, seg, newMap)[i]
  {
    hide GetSector, PutSector, Lookup, BitEntries, ShiftRight;
    if newCount == 1 && newMap == EMPTY_SEGMENT {
      list[p] := PutSector(0x800001 + seg * 32);
      SectorRoundTrip(0x800001 + seg * 32);
      FullCost(format, newMap);
    } else {
      FullCost(format, newMap);
      WriteBits(list, p, seg, newMap, newCount);
    }
  }

  lemma FullCost(fmt: Format, m: SectorMap)
    ensures m == EMPTY_SEGMENT ==> (Cost(fmt, m) == 1 <==> FlagsSegments(fmt))
  {
    hide CountOnes;
    NotFull(m);
  }

  method WriteBits(list: array<SectorCount>, p: int, seg: int, newMap: SectorMap, newCount: int)
    requires Addressable(seg) && newCount == |BitEntries(seg, newMap, 32)|
    requires 0 <= p && p + newCount <= list.Length
    modifies list
    ensures list[..p] == old(list[..p]) && list[p + newCount..] == old(list[p + newCount..])
    ensures forall i :: 0 <= i < newCount ==> GetSector(list[p + i]) == BitEntries(seg, newMap, 32)[i]
  {
    hide GetSector, PutSector, BitEntries, ShiftRight;
    var i, ptr, m := 0, p, newMap;
    ShiftRightTwice(newMap, 0, 0);
    ShiftOut(newMap);
    BitEntriesNext(seg, newMap, 1);
    while m != NO_SECTORS
      invariant 0 <= i <= 32 && m == ShiftRight(newMap, i)
      invariant ptr == p + |BitEntries(seg, newMap, i)| <= p + newCount
      invariant list[..p] == old(list[..p]) && list[p + newCount..] == old(list[p + newCount..])
      invariant forall k :: 0 <= k < ptr - p ==> GetSector(list[p + k]) == BitEntries(seg, newMap, i)[k]
      decreases 32 - i
    {
      BitEntriesNext(seg, newMap, i + 1);
      BitEntriesGrow(seg, newMap, i + 1);
      CountNext(newMap, i);
      if m[0] {
        list[ptr] := PutSector(1 + seg * 32 + i);
        SectorRoundTrip(1 + seg * 32 + i);
        ptr := ptr + 1;
      }
      ShiftRightTwice(newMap, i, 1);
      i := i + 1;
      m := ShiftRight(m, 1);
    }
    NothingLeft(newMap, i);
    BitEntriesRest(seg, newMap, i);
  }

  lemma BitEntriesNext(seg: nat, m: SectorMap, n: nat)
    requires 0 < n <= 32
    ensures BitEntries(seg, m, n) == BitEntries(seg, m, n - 1) + (if m[n - 1] then [1 + 32 * seg + (n - 1)] else [])
    ensures BitEntries(seg, m, 0) == []
  {}

  lemma {:induction false} BitEntriesGrow(seg: nat, m: SectorMap, n: nat)
    requires n <= 32
    ensures |BitEntries(seg, m, n)| <= |BitEntries(seg, m, 32)|
    decreases 32 - n
  {
    if n == 32 {
    } else {
      hide BitEntries;
      BitEntriesGrow(seg, m, n + 1);
      BitEntriesNext(seg, m, n + 1);
    }
  }

  lemma {:induction false} BitEntriesRest(seg: nat, m: SectorMap, n: nat)
    requires n <= 32 && forall i :: n <= i < 32 ==> !m[i]
    ensures BitEntries(seg, m, n) == BitEntries(seg, m, 32)
    decreases 32 - n
  {
    if n == 32 {
    } else {
      hide BitEntries;
      BitEntriesRest(seg, m, n + 1);
      BitEntriesNext(seg, m, n + 1);
      assert BitEntries(seg, m, n) + [] == BitEntries(seg, m, n);
    }
  }

  /** After moving the tail and writing the new entries, the list holds the edited sequence. */
  lemma PutHolds(mem: seq<SectorCount>, mem': seq<SectorCount>, mem'': seq<SectorCount>, es: seq<nat>, p: int,
                 q: int, ns: seq<nat>)
    requires ListHolds(mem, es) && 0 <= p <= q <= |es| && |es| - (q - p) + |ns| < |mem| == |mem'| == |mem''|
    requires (mem' == mem && |ns| == q - p) ||
             (mem'[..p] == mem[..p] && mem'[p + |ns|..|es| + 1 - (q - p) + |ns|] == mem[q..|es| + 1])
    requires mem''[..p] == mem'[..p] && mem''[p + |ns|..] == mem'[p + |ns|..]
    requires forall i :: 0 <= i < |ns| ==> GetSector(mem''[p + i]) == ns[i]
    ensures ListHolds(mem'', Replaced(es, p, q, ns))
  {
    hide GetSector;
    var r, d := Replaced(es, p, q, ns), q - p - |ns|;
    forall i | 0 <= i <= |r|
      ensures GetSector(mem''[i]) == if i < |r| then r[i] else 0
    {
      if i < p {
        assert mem''[i] == mem''[..p][i] == mem'[..p][i] == mem[..p][i];
      } else if i < p + |ns| {
        assert GetSector(mem''[p + (i - p)]) == ns[i - p];
      } else {
        assert mem''[i] == mem''[p + |ns|..][i - p - |ns|] == mem'[i];
        if !(mem' == mem && |ns| == q - p) {
          assert mem'[p + |ns|..|es| + 1 - (q - p) + |ns|][i - p - |ns|] == mem'[i];
          assert mem[q..|es| + 1][i - p - |ns|] == mem[i + d];
        }
      }
    }
  }

  lemma ReplacedFirst(es: seq<nat>, seg: int, p: int, q: int, ns: seq<nat>)
    requires IsRun(es, seg, p, q) && forall i :: 0 <= i < |ns| ==> SegmentOf(ns[i]) == seg
    ensures IsFirst(Replaced(es, p, q, ns), seg, p)
  {
    hide SegmentOf;
  }

  lemma NothingBelow(es: seq<nat>, last: int, seg: int)
    requires seg < last
    ensures IsFirst(es, last, 0) ==> IsFirst(es, seg, 0) && Lookup(es, seg) == NO_SECTORS
  {
    hide SegmentOf, Lookup;
    if IsFirst(es, last, 0) {
      LookupNone(es, seg);
    }
  }

  lemma NewCost(fmt: Format, m: SectorMap)
    ensures Cost(fmt, m) == if FlagsSegments(fmt) && CountOnes(m) == 32 then 1 else CountOnes(m)
  {
    hide CountOnes;
    NotFull(m);
  }

  /** The entries of a segment are as many as its map costs. */
  lemma RunCost(fmt: Format, es: seq<nat>, seg: int, p: int, q: int)
    requires WellFormed(fmt, es) && IsRun(es, seg, p, q)
    requires p < q && Flagged(es[p]) ==> q == p + 1
    requires p < q && !Flagged(es[p]) ==> forall i :: p <= i < q ==> !Flagged(es[i])
    ensures Cost(fmt, Lookup(es, seg)) == q - p
    ensures FlagsSegments(fmt) && !(p < q && Flagged(es[p])) ==> q - p < 32
    ensures p < q && Flagged(es[p]) ==> FlagsSegments(fmt)
  {
    hide SegmentOf, Lookup, Flagged, CountOnes, WellFormed;
    var m := Lookup(es, seg);
    NewCost(fmt, m);
    NotFull(m);
    if p < q && Flagged(es[p]) {
      FlagsAllowed(fmt, es, p);
      FlaggedRun(fmt, es, p);
    } else {
      RunCount(fmt, es, seg, p, q);
      LookupRun(es, seg, p, q);
      if FlagsSegments(fmt) {
        RunBelow32(fmt, es, seg, p, q);
      }
    }
  }

  /** What the first get after an extraction answers. */
  function FirstAnswer(es: seq<nat>, last: int, cached: SectorMap, seg: int): SectorMap {
    if seg > last then Lookup(es, seg)
    else if seg < last then NO_SECTORS
    else cached
  }

  lemma SingleRun(es: seq<nat>, seg: int, p: int)
    requires 0 <= p < |es| && SegmentOf(es[p]) == seg && !Flagged(es[p])
    ensures Lookup(es[p..p + 1], seg) == MapOf(es[p])
  {
    hide Lookup, SegmentOf, Flagged, MapOf;
    assert es[p..p + 1] == [es[p]];
    LookupOne(es[p], seg);
  }

  lemma SegmentsNotNegative(es: seq<nat>)
    ensures forall i :: 0 <= i < |es| ==> SegmentOf(es[i]) >= 0
  {}

  lemma GoodSectors(fmt: Format, es: seq<nat>)
    requires WellFormed(fmt, es)
    ensures forall i :: 0 <= i < |es| ==> es[i] != 0
  {
    hide FullyBadFlagged, Sorted;
    assert forall i :: 0 <= i < |es| ==> GoodEntry(fmt, es[i]);
  }

  lemma FlagsAllowed(fmt: Format, es: seq<nat>, p: int)
    requires WellFormed(fmt, es) && 0 <= p < |es|
    ensures Flagged(es[p]) ==> FlagsSegments(fmt)
  {
    assert GoodEntry(fmt, es[p]);
  }

  lemma AtOrAbove(fmt: Format, es: seq<nat>, seg: int, p: int)
    requires WellFormed(fmt, es) && 0 <= p <= |es|
    ensures p < |es| && SegmentOf(es[p]) >= seg ==> forall i :: p <= i < |es| ==> SegmentOf(es[i]) >= seg
  {
    hide WellFormed, SegmentOf;
    forall i | p <= i < |es|
      ensures SegmentOf(es[p]) <= SegmentOf(es[i])
    {
      SegmentsSorted(fmt, es, p, i);
    }
  }

  lemma Above(fmt: Format, es: seq<nat>, seg: int, p: int)
    requires WellFormed(fmt, es) && 0 <= p <= |es| && (p < |es| ==> SegmentOf(es[p]) > seg)
    ensures forall i :: p <= i < |es| ==> SegmentOf(es[i]) > seg
  {
    hide WellFormed, SegmentOf;
    forall i | p <= i < |es|
      ensures SegmentOf(es[p]) <= SegmentOf(es[i])
    {
      SegmentsSorted(fmt, es, p, i);
    }
  }

  lemma AtOrBelow(fmt: Format, es: seq<nat>, p: int)
    requires WellFormed(fmt, es) && 0 <= p < |es|
    ensures forall i :: 0 <= i <= p ==> SegmentOf(es[i]) <= SegmentOf(es[p])
  {
    hide WellFormed, SegmentOf;
    forall i | 0 <= i <= p
      ensures SegmentOf(es[i]) <= SegmentOf(es[p])
    {
      SegmentsSorted(fmt, es, i, p);
    }
  }

  /** Two entries of one segment are both single sectors. */
  lemma SameSegmentPlain(fmt: Format, es: seq<nat>, k: int)
    requires WellFormed(fmt, es) && 0 <= k && k + 1 < |es| && SegmentOf(es[k]) == SegmentOf(es[k + 1])
    ensures !Flagged(es[k]) && !Flagged(es[k + 1])
  {
    hide SegmentOf, Flagged, FullyBadFlagged, GoodEntry;
    assert Before(es[k], es[k + 1]);
  }

  lemma RestAbove(fmt: Format, es: seq<nat>, seg: int, q: int)
    requires WellFormed(fmt, es) && 0 < q <= |es| && SegmentOf(es[q - 1]) == seg
    requires q < |es| ==> SegmentOf(es[q]) != seg
    ensures forall i :: q <= i < |es| ==> SegmentOf(es[i]) > seg
  {
    hide WellFormed, SegmentOf;
    if q < |es| {
      SegmentsSorted(fmt, es, q - 1, q);
      Above(fmt, es, seg, q);
    }
  }

  // ----- whole runs -----

  datatype Op = GetOp(seg: int) | PutOp(seg: int, m: SectorMap)

  type Table = int -> SectorMap

  function Updated(f: Table, seg: int, m: SectorMap): Table {
    s => if s == seg then m else f(s)
  }

  /** What the gets of a run answer on a plain table. */
  function Answers(ops: seq<Op>, f: Table): seq<SectorMap> {
    if |ops| == 0 then []
    else match ops[0]
      case GetOp(seg) => [f(seg)] + Answers(ops[1..], f)
      case PutOp(seg, m) => Answers(ops[1..], Updated(f, seg, m))
  }

  /** There is room for the new entries whenever the run comes to a put. */
  predicate Feasible(fmt: Format, ops: seq<Op>, f: Table, len: int, capacity: int) {
    if |ops| == 0 then true
    else match ops[0]
      case GetOp(_) => Feasible(fmt, ops[1..], f, len, capacity)
      case PutOp(seg, m) =>
        var len' := len - Cost(fmt, f(seg)) + Cost(fmt, m);
        Addressable(seg) && len' < capacity && Feasible(fmt, ops[1..], Updated(f, seg, m), len', capacity)
  }

  ghost predicate StandsFor(es: seq<nat>, f: Table) {
    forall s: int :: Lookup(es, s) == f(s)
  }

  /** Over every run of gets and puts from a fresh map, each get answers what the plain table
      holds, in whichever direction the cursor has to move. */
  method Replay(b: BadSectorMap, ops: seq<Op>, ghost f: Table) returns (out: seq<SectorMap>)
    requires b.Valid() && b.Coherent() && b.usedHeaderSegment != -1 && StandsFor(b.entries, f)
    requires Feasible(b.format, ops, f, |b.entries|, b.list.Length)
    modifies b, b.list
    ensures b.Valid() && b.Coherent() && b.format == old(b.format) && b.list == old(b.list)
    ensures out == Answers(ops, f)
  {
    hide Lookup, WellFormed, IsFirst, Cost, Addressable;
    out := [];
    ghost var g := f;
    var i := 0;
    while i < |ops|
      invariant 0 <= i <= |ops| && b.Valid() && b.Coherent() && b.usedHeaderSegment != -1
      invariant b.format == old(b.format) && b.list == old(b.list) && StandsFor(b.entries, g)
      invariant Feasible(b.format, ops[i..], g, |b.entries|, b.list.Length)
      invariant Answers(ops, f) == out + Answers(ops[i..], g)
    {
      ghost var rest := ops[i..];
      assert rest[0] == ops[i] && rest[1..] == ops[i + 1..];
      match ops[i] {
        case GetOp(seg) =>
          var m := b.Get(seg);
          assert m == g(seg);
          assert out + ([m] + Answers(rest[1..], g)) == (out + [m]) + Answers(rest[1..], g);
          out := out + [m];
        case PutOp(seg, m) =>
          b.Put(seg, m);
          g := Updated(g, seg, m);
      }
      i := i + 1;
    }
    assert ops[i..] == [];
    assert out + [] == out;
  }

  // ----- extraction without a reset of the cache -----

  /** The first get after an extraction is right for every segment if and only if the stale
      cached map happens to be right and no entry is below the stale last reference. */
  lemma ExtractionCoherent(es: seq<nat>, last: int, cached: SectorMap)
    ensures (forall seg: int :: FirstAnswer(es, last, cached, seg) == Lookup(es, seg)) <==>
            cached == Lookup(es, last) && forall i :: 0 <= i < |es| ==> SegmentOf(es[i]) >= last
  {
    hide SegmentOf, Lookup;
    if forall seg: int :: FirstAnswer(es, last, cached, seg) == Lookup(es, seg) {
      assert FirstAnswer(es, last, cached, last) == cached;
      forall i | 0 <= i < |es|
        ensures SegmentOf(es[i]) >= last
      {
        var seg := SegmentOf(es[i]);
        assert FirstAnswer(es, last, cached, seg) == Lookup(es, seg);
        EntrySeen(es, i);
      }
    }
    if cached == Lookup(es, last) && forall i :: 0 <= i < |es| ==> SegmentOf(es[i]) >= last {
      forall seg: int
        ensures FirstAnswer(es, last, cached, seg) == Lookup(es, seg)
      {
        if seg < last {
          LookupNone(es, seg);
        }
      }
    }
  }

  /** A segment with an entry does not have an empty map. */
  lemma EntrySeen(es: seq<nat>, i: int)
    requires 0 <= i < |es|
    ensures Lookup(es, SegmentOf(es[i])) != NO_SECTORS
  {
    hide SegmentOf, Lookup, BitOf, Flagged;
    var seg, b := SegmentOf(es[i]), BitOf(es[i]);
    assert Marks(es[i], seg)[b];
    LookupBit(es, seg, b);
    assert !NO_SECTORS[b];
  }

  /** The driver asks for segment 5 of a cartridge without bad sectors, then extracts the list of another
      one, on which sector 1 is bad, and asks for segment 0: all its sectors are reported good. */
  method StaleCacheExample() returns (bsm: BadSectorMap, m: SectorMap)
    ensures bsm.entries == [1] && m == NO_SECTORS != Lookup(bsm.entries, 0)
  {
    hide SegmentOf, Lookup, WellFormed, IsFirst, PutSector, FirstAnswer, ListHolds, UsesList, NO_SECTORS;
    StaleAnswer();
    NothingStored();
    OneStored();
    var clean, dirty := new SectorCount[1](_ => PutSector(0)), new SectorCount[2](_ => PutSector(0));
    dirty[0] := PutSector(1);
    assert clean[..] == [PutSector(0)] && dirty[..] == [PutSector(1), PutSector(0)];
    bsm := new BadSectorMap(FmtVar, clean, []);
    bsm.usedHeaderSegment := 0;
    m := bsm.Get(5);
    bsm.Extract(FmtVar, dirty, [1]);
    m := bsm.Get(0);
  }

  lemma OneStored()
    ensures UsesList(FmtVar) && ListHolds([PutSector(0)], []) && ListHolds([PutSector(1), PutSector(0)], [1])
  {
    hide PutSector, GetSector;
    SectorRoundTrip(0);
    SectorRoundTrip(1);
  }

  lemma NothingStored()
    ensures WellFormed(FmtVar, []) && Lookup([], 5) == NO_SECTORS
  {
    hide SegmentOf;
    forall seg: int
      ensures Lookup([], seg) == NO_SECTORS
    {
      LookupNone([], seg);
    }
    assert NO_SECTORS[0] != EMPTY_SEGMENT[0];
  }

  lemma StaleAnswer()
    ensures WellFormed(FmtVar, [1])
    ensures FirstAnswer([1], 5, NO_SECTORS, 0) == NO_SECTORS
    ensures Lookup([1], 0) != NO_SECTORS
  {
    assert SegmentOf(1) == 0 && BitOf(1) == 0 && !Flagged(1);
    EntrySeen([1], 0);
    hide SegmentOf, Lookup;
    LookupOne(1, 0);
    forall seg: int
      ensures !FullyBad([1], seg)
    {
      LookupOne(1, seg);
      assert !Marks(1, seg)[1];
    }
  }
}
