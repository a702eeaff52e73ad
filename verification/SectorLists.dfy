/** Bad-sector lists of the variable-length formats: ascending sector numbers, 24 bits each.
    A list stands for a total map from segments to 32-bit sector maps; this module says which,
    without reference to any order of traversal, and what editing the list does to it.
 */
module SectorLists {
  import opened Bits
  import opened SectorMaps

  datatype Format = Fmt1100ft | FmtVar | FmtBig | FmtFixed

  /** Formats in which one flagged entry stands for a whole bad segment. */
  predicate FlagsSegments(fmt: Format) { fmt.FmtVar? || fmt.FmtBig? }

  predicate UsesList(fmt: Format) { !fmt.FmtFixed? }

  // ----- entries -----

  const FLAG := 0x800000

  /** struct NewSectorMap: three bytes, least significant first. */
  datatype SectorCount = SectorCount(b0: byte, b1: byte, b2: byte)

  function PutSector(sector: nat): SectorCount {
    SectorCount(sector % 256, sector / 256 % 256, sector / 65536 % 256)
  }

  function GetSector(s: SectorCount): int {
    s.b0 + s.b1 * 256 + s.b2 * 65536
  }

  lemma SectorRoundTrip(sector: nat)
    requires sector < 0x1000000
    ensures GetSector(PutSector(sector)) == sector
  {}

  lemma SectorCountRoundTrip(s: SectorCount)
    ensures 0 <= GetSector(s) < 0x1000000 && PutSector(GetSector(s)) == s
  {}

  /** cvt2segment: unsigned arithmetic, so the terminator 0 gives a very large segment. */
  function SegmentOf(e: nat): int {
    if e % FLAG == 0 then 0x7ffffff else (e % FLAG - 1) / 32
  }

  /** The bit number in cvt2map. */
  function BitOf(e: nat): (b: nat)
    ensures b < 32
  {
    if e % FLAG == 0 then 31 else (e % FLAG - 1) % 32
  }

  predicate Flagged(e: nat) { e >= FLAG }

  /** cvt2map */
  function MapOf(e: nat): SectorMap {
    NO_SECTORS[BitOf(e) := true]
  }

  /** The sectors of segment seg that entry e marks as bad. */
  function Marks(e: nat, seg: int): SectorMap {
    if SegmentOf(e) != seg then NO_SECTORS
    else if Flagged(e) then EMPTY_SEGMENT
    else MapOf(e)
  }

  /** The map that a scan of the whole list finds for a segment. */
  function Lookup(es: seq<nat>, seg: int): SectorMap {
    if |es| == 0 then NO_SECTORS
    else Or(Lookup(es[..|es| - 1], seg), Marks(es[|es| - 1], seg))
  }

  // ----- well-formed lists -----

  predicate GoodEntry(fmt: Format, e: nat) {
    && 0 < e < 0x1000000 && e % FLAG != 0
    && (Flagged(e) ==> FlagsSegments(fmt) && BitOf(e) == 0)
  }

  /** Ascending, and a flagged entry is the only one of its segment. */
  predicate Before(d: nat, e: nat) {
    d % FLAG < e % FLAG && (Flagged(d) || Flagged(e) ==> SegmentOf(d) != SegmentOf(e))
  }

  predicate Sorted(es: seq<nat>) {
    forall i, k :: 0 <= i < k < |es| ==> Before(es[i], es[k])
  }

  ghost predicate FullyBad(es: seq<nat>, seg: int) {
    Lookup(es, seg) == EMPTY_SEGMENT
  }

  predicate HasFlag(es: seq<nat>, seg: int) {
    exists i :: 0 <= i < |es| && SegmentOf(es[i]) == seg && Flagged(es[i])
  }

  /** Where segments can be flagged, a completely bad one is. */
  ghost predicate FullyBadFlagged(fmt: Format, es: seq<nat>) {
    FlagsSegments(fmt) ==> forall seg: int :: FullyBad(es, seg) ==> HasFlag(es, seg)
  }

  ghost predicate WellFormed(fmt: Format, es: seq<nat>) {
    && (forall i :: 0 <= i < |es| ==> GoodEntry(fmt, es[i]))
    && Sorted(es)
    && FullyBadFlagged(fmt, es)
  }

  lemma BeforeSegments(d: nat, e: nat)
    requires Before(d, e) && d % FLAG != 0
    ensures SegmentOf(d) <= SegmentOf(e)
  {}

  /** p is the first entry not below segment seg. */
  ghost predicate IsFirst(es: seq<nat>, seg: int, p: int) {
    && 0 <= p <= |es|
    && (forall i :: 0 <= i < p ==> SegmentOf(es[i]) < seg)
    && (forall i :: p <= i < |es| ==> SegmentOf(es[i]) >= seg)
  }

  /** The entries p, ..., q - 1 are those of segment seg. */
  ghost predicate IsRun(es: seq<nat>, seg: int, p: int, q: int) {
    && 0 <= p <= q <= |es|
    && (forall i :: 0 <= i < p ==> SegmentOf(es[i]) < seg)
    && (forall i :: p <= i < q ==> SegmentOf(es[i]) == seg)
    && (forall i :: q <= i < |es| ==> SegmentOf(es[i]) > seg)
  }

  lemma SegmentsSorted(fmt: Format, es: seq<nat>, i: int, k: int)
    requires WellFormed(fmt, es) && 0 <= i <= k < |es|
    ensures SegmentOf(es[i]) <= SegmentOf(es[k])
  {
    assert GoodEntry(fmt, es[i]);
    if i < k {
      assert Before(es[i], es[k]);
      hide SegmentOf, Flagged;
      BeforeSegments(es[i], es[k]);
    }
  }

  lemma RunIsFirst(es: seq<nat>, seg: int, p: int, q: int)
    requires IsRun(es, seg, p, q)
    ensures IsFirst(es, seg, p)
  {
    hide SegmentOf;
  }

  // ----- what a scan of part of the list finds -----

  lemma OrLaws(a: SectorMap, b: SectorMap, c: SectorMap)
    ensures Or(a, NO_SECTORS) == a == Or(NO_SECTORS, a)
    ensures Or(a, b) == Or(b, a)
    ensures Or(Or(a, b), c) == Or(a, Or(b, c))
  {}

  lemma {:induction false} LookupConcat(a: seq<nat>, c: seq<nat>, seg: int)
    ensures Lookup(a + c, seg) == Or(Lookup(a, seg), Lookup(c, seg))
  {
    hide Or, Marks;
    OrLaws(Lookup(a, seg), NO_SECTORS, NO_SECTORS);
    if |c| == 0 {
      assert a + c == a;
    } else {
      var k := |c| - 1;
      LookupConcat(a, c[..k], seg);
      assert (a + c)[..|a + c| - 1] == a + c[..k];
      OrLaws(Lookup(a, seg), Lookup(c[..k], seg), Marks(c[k], seg));
    }
  }

  lemma {:induction false} LookupNone(es: seq<nat>, seg: int)
    requires forall i :: 0 <= i < |es| ==> SegmentOf(es[i]) != seg
    ensures Lookup(es, seg) == NO_SECTORS
  {
    hide SegmentOf, Flagged, BitOf, Or;
    if |es| == 0 {
    } else {
      LookupNone(es[..|es| - 1], seg);
      OrLaws(NO_SECTORS, NO_SECTORS, NO_SECTORS);
    }
  }

  lemma LookupOne(e: nat, seg: int)
    ensures Lookup([e], seg) == Marks(e, seg)
  {
    hide Marks, Or;
    assert [e][..0] == [];
    OrLaws(Marks(e, seg), NO_SECTORS, NO_SECTORS);
  }

  /** Bit b is set exactly when some entry marks sector b. */
  lemma {:induction false} LookupBit(es: seq<nat>, seg: int, b: int)
    requires 0 <= b < 32
    ensures Lookup(es, seg)[b] <==> exists i :: 0 <= i < |es| && Marks(es[i], seg)[b]
  {
    hide Marks;
    if |es| == 0 {
    } else {
      var k := |es| - 1;
      LookupBit(es[..k], seg, b);
      if Lookup(es[..k], seg)[b] {
        var i :| 0 <= i < k && Marks(es[..k][i], seg)[b];
        assert Marks(es[i], seg)[b];
      }
      if exists i :: 0 <= i < |es| && Marks(es[i], seg)[b] {
        var i :| 0 <= i < |es| && Marks(es[i], seg)[b];
        if i < k {
          assert Marks(es[..k][i], seg)[b];
        }
      }
    }
  }

  /** Only the run of a segment matters for its map. */
  lemma LookupRun(es: seq<nat>, seg: int, p: int, q: int)
    requires IsRun(es, seg, p, q)
    ensures Lookup(es, seg) == Lookup(es[p..q], seg)
  {
    hide SegmentOf, Lookup, Or;
    assert es == es[..p] + es[p..q] + es[q..];
    LookupConcat(es[..p] + es[p..q], es[q..], seg);
    LookupConcat(es[..p], es[p..q], seg);
    LookupNone(es[..p], seg);
    LookupNone(es[q..], seg);
    OrLaws(Lookup(es[p..q], seg), NO_SECTORS, NO_SECTORS);
  }

  lemma RunAppend(es: seq<nat>, seg: int, p: int, q: int)
    requires 0 <= p <= q < |es| && SegmentOf(es[q]) == seg && !Flagged(es[q])
    ensures Lookup(es[p..q + 1], seg) == Or(Lookup(es[p..q], seg), MapOf(es[q]))
  {
    hide SegmentOf, Lookup, Or, MapOf, Flagged;
    assert es[p..q + 1] == es[p..q] + [es[q]];
    LookupConcat(es[p..q], [es[q]], seg);
    LookupOne(es[q], seg);
  }

  lemma RunPrepend(es: seq<nat>, seg: int, p: int, q: int)
    requires 0 <= p < q <= |es| && SegmentOf(es[p]) == seg && !Flagged(es[p])
    ensures Lookup(es[p..q], seg) == Or(Lookup(es[p + 1..q], seg), MapOf(es[p]))
  {
    hide SegmentOf, Lookup, Or, MapOf, Flagged;
    assert es[p..q] == [es[p]] + es[p + 1..q];
    LookupConcat([es[p]], es[p + 1..q], seg);
    LookupOne(es[p], seg);
    OrLaws(Lookup(es[p + 1..q], seg), MapOf(es[p]), NO_SECTORS);
  }

  /** A flagged entry is the whole run of its segment. */
  lemma FlaggedRun(fmt: Format, es: seq<nat>, p: int)
    requires WellFormed(fmt, es) && 0 <= p < |es| && Flagged(es[p])
    ensures IsRun(es, SegmentOf(es[p]), p, p + 1)
    ensures Lookup(es, SegmentOf(es[p])) == EMPTY_SEGMENT
  {
    hide SegmentOf, Flagged, Lookup, GoodEntry, FullyBadFlagged;
    var seg := SegmentOf(es[p]);
    forall i | 0 <= i < |es| && i != p
      ensures i < p ==> SegmentOf(es[i]) < seg
      ensures i > p ==> SegmentOf(es[i]) > seg
    {
      if i < p {
        assert Before(es[i], es[p]);
        SegmentsSorted(fmt, es, i, p);
      } else {
        assert Before(es[p], es[i]);
        SegmentsSorted(fmt, es, p, i);
      }
    }
    LookupRun(es, seg, p, p + 1);
    assert es[p..p + 1] == [es[p]];
    LookupOne(es[p], seg);
  }

  // ----- the number of entries of a segment -----

  /** The unflagged entries of a run set one bit each. */
  lemma {:induction false} RunCount(fmt: Format, es: seq<nat>, seg: int, p: int, q: int)
    requires WellFormed(fmt, es) && 0 <= p <= q <= |es|
    requires forall i :: p <= i < q ==> SegmentOf(es[i]) == seg && !Flagged(es[i])
    ensures CountOnes(Lookup(es[p..q], seg)) == q - p
    ensures forall b :: 0 <= b < 32 && (q > p ==> BitOf(es[q - 1]) < b) ==> !Lookup(es[p..q], seg)[b]
  {
    hide SegmentOf, Flagged, BitOf, Lookup, WellFormed, CountOnes, Or, MapOf;
    if p == q {
      assert es[p..q] == [];
      LookupNone([], seg);
      CountNone(NO_SECTORS);
    } else {
      var k := q - 1;
      RunCount(fmt, es, seg, p, k);
      RunAppend(es, seg, p, k);
      if k > p {
        BitsAscend(fmt, es, seg, k - 1);
      }
      OrBit(Lookup(es[p..k], seg), es[k]);
      CountSetBit(Lookup(es[p..k], seg), BitOf(es[k]));
    }
  }

  lemma OrBit(m: SectorMap, e: nat)
    ensures Or(m, MapOf(e)) == m[BitOf(e) := true]
  {
    hide BitOf;
  }

  lemma BitsAscend(fmt: Format, es: seq<nat>, seg: int, k: int)
    requires WellFormed(fmt, es) && 0 <= k && k + 1 < |es|
    requires SegmentOf(es[k]) == seg && SegmentOf(es[k + 1]) == seg
    ensures BitOf(es[k]) < BitOf(es[k + 1])
  {
    hide Flagged, FullyBadFlagged;
    assert GoodEntry(fmt, es[k]) && GoodEntry(fmt, es[k + 1]);
    assert Before(es[k], es[k + 1]);
  }

  /** Where segments can be flagged, fewer than 32 single entries make up a segment. */
  lemma RunBelow32(fmt: Format, es: seq<nat>, seg: int, p: int, q: int)
    requires WellFormed(fmt, es) && IsRun(es, seg, p, q) && FlagsSegments(fmt)
    requires forall i :: p <= i < q ==> !Flagged(es[i])
    ensures q - p < 32
  {
    hide SegmentOf, Flagged, Lookup, CountOnes;
    RunCount(fmt, es, seg, p, q);
    LookupRun(es, seg, p, q);
    NoFlagInRun(es, seg, p, q);
    NotFull(Lookup(es, seg));
    assert !FullyBad(es, seg);
  }

  lemma NoFlagInRun(es: seq<nat>, seg: int, p: int, q: int)
    requires IsRun(es, seg, p, q)
    requires forall i :: p <= i < q ==> !Flagged(es[i])
    ensures !HasFlag(es, seg)
  {
    hide SegmentOf, Flagged;
  }

  lemma NotFull(m: SectorMap)
    ensures m == EMPTY_SEGMENT <==> CountOnes(m) == 32
  {
    CountNone(m);
  }

  // ----- editing the list -----

  /** Segments whose sector numbers fit into 23 bits. */
  predicate Addressable(seg: int) { 0 <= seg && 32 * seg + 32 < FLAG }

  function BitEntries(seg: nat, m: SectorMap, n: nat): seq<nat>
    requires n <= 32
  {
    if n == 0 then []
    else BitEntries(seg, m, n - 1) + (if m[n - 1] then [1 + 32 * seg + (n - 1)] else [])
  }

  /** The entries that a put writes for a segment. */
  function NewEntries(fmt: Format, seg: nat, m: SectorMap): seq<nat> {
    if FlagsSegments(fmt) && m == EMPTY_SEGMENT then [FLAG + 1 + 32 * seg]
    else BitEntries(seg, m, 32)
  }

  /** The number of entries that a map takes up. */
  function Cost(fmt: Format, m: SectorMap): nat {
    if FlagsSegments(fmt) && m == EMPTY_SEGMENT then 1 else CountOnes(m)
  }

  function Replaced(es: seq<nat>, p: int, q: int, ns: seq<nat>): seq<nat>
    requires 0 <= p <= q <= |es|
  {
    es[..p] + ns + es[q..]
  }

  lemma PlainEntry(seg: int, b: int)
    requires Addressable(seg) && 0 <= b < 32
    ensures var e := 1 + 32 * seg + b;
            e % FLAG == e && SegmentOf(e) == seg && BitOf(e) == b && !Flagged(e) && e > 0
  {
    var e := 1 + 32 * seg + b;
    assert e % FLAG == e;
    DivModUnique(e - 1, 32, seg, b);
  }

  lemma FlaggedEntry(seg: int)
    requires Addressable(seg)
    ensures var e := FLAG + 1 + 32 * seg;
            e % FLAG == 1 + 32 * seg && SegmentOf(e) == seg && BitOf(e) == 0 && Flagged(e) && 0 < e < 0x1000000
  {
    var e := FLAG + 1 + 32 * seg;
    DivModUnique(e, FLAG, 1, 1 + 32 * seg);
    DivModUnique(32 * seg, 32, seg, 0);
  }

  lemma {:induction false} BitEntriesLookup(seg: int, m: SectorMap, n: nat)
    requires Addressable(seg) && n <= 32
    ensures Lookup(BitEntries(seg, m, n), seg) == And(m, LowMask(n))
    ensures |BitEntries(seg, m, n)| == CountOnes(m[..n])
  {
    hide SegmentOf, BitOf, Or, CountOnes, And, LowMask, Flagged, MapOf;
    BelowBit(m, n);
    if n == 0 {
      CountNone(m[..0]);
    } else {
      var k := n - 1;
      BitEntriesLookup(seg, m, k);
      CountNext(m, k);
      var es, e := BitEntries(seg, m, k), 1 + 32 * seg + k;
      PlainEntry(seg, k);
      if m[k] {
        LookupConcat(es, [e], seg);
        LookupOne(e, seg);
        OrBit(And(m, LowMask(k)), e);
      } else {
        assert es + [] == es;
      }
    }
  }

  lemma BelowBit(m: SectorMap, n: nat)
    requires n <= 32
    ensures And(m, LowMask(0)) == NO_SECTORS && And(m, LowMask(32)) == m
    ensures n > 0 ==>
              And(m, LowMask(n)) ==
              if m[n - 1] then And(m, LowMask(n - 1))[n - 1 := true] else And(m, LowMask(n - 1))
  {}

  /** Single entries of one segment, in order, all below hi. */
  predicate PlainEntries(fmt: Format, es: seq<nat>, seg: int, hi: int) {
    && (forall i :: 0 <= i < |es| ==> GoodEntry(fmt, es[i]) && !Flagged(es[i]) && SegmentOf(es[i]) == seg && es[i] < hi)
    && Sorted(es)
  }

  lemma {:induction false} BitEntriesPlain(fmt: Format, seg: int, m: SectorMap, n: nat)
    requires Addressable(seg) && n <= 32
    ensures PlainEntries(fmt, BitEntries(seg, m, n), seg, 1 + 32 * seg + n)
  {
    if n == 0 {
    } else {
      hide PlainEntries;
      var k := n - 1;
      BitEntriesPlain(fmt, seg, m, k);
      var es, e := BitEntries(seg, m, k), 1 + 32 * seg + k;
      AppendPlain(fmt, es, seg, e, k);
      assert es + [] == es;
    }
  }

  lemma AppendPlain(fmt: Format, es: seq<nat>, seg: int, e: nat, k: nat)
    requires Addressable(seg) && k < 32 && e == 1 + 32 * seg + k && PlainEntries(fmt, es, seg, e)
    ensures PlainEntries(fmt, es + [e], seg, e + 1) && PlainEntries(fmt, es, seg, e + 1)
  {
    hide SegmentOf, BitOf;
    PlainEntry(seg, k);
    forall i | 0 <= i < |es|
      ensures Before(es[i], e)
    {
    }
  }

  /** The new entries say what they should, and are well-formed on their own. */
  lemma NewEntriesMean(fmt: Format, seg: int, m: SectorMap)
    requires Addressable(seg)
    ensures Lookup(NewEntries(fmt, seg, m), seg) == m
    ensures |NewEntries(fmt, seg, m)| == Cost(fmt, m)
    ensures forall i :: 0 <= i < |NewEntries(fmt, seg, m)| ==>
              GoodEntry(fmt, NewEntries(fmt, seg, m)[i]) && SegmentOf(NewEntries(fmt, seg, m)[i]) == seg
    ensures Sorted(NewEntries(fmt, seg, m))
    ensures FlagsSegments(fmt) && m == EMPTY_SEGMENT ==> HasFlag(NewEntries(fmt, seg, m), seg)
  {
    hide SegmentOf, BitOf, Lookup, BitEntries, CountOnes, And, LowMask;
    if FlagsSegments(fmt) && m == EMPTY_SEGMENT {
      FlaggedEntry(seg);
      var e := FLAG + 1 + 32 * seg;
      LookupOne(e, seg);
      assert [e][0] == e;
    } else {
      BitEntriesLookup(seg, m, 32);
      BitEntriesPlain(fmt, seg, m, 32);
      BelowBit(m, 32);
      assert m[..32] == m;
    }
  }

  /** A put is a functional update of the total map that the list stands for. */
  lemma LookupReplaced(es: seq<nat>, seg: int, p: int, q: int, ns: seq<nat>, other: int)
    requires IsRun(es, seg, p, q)
    requires forall i :: 0 <= i < |ns| ==> SegmentOf(ns[i]) == seg
    ensures Lookup(Replaced(es, p, q, ns), seg) == Lookup(ns, seg)
    ensures other != seg ==> Lookup(Replaced(es, p, q, ns), other) == Lookup(es, other)
  {
    hide SegmentOf, Lookup, Or;
    var a, r, c := es[..p], es[p..q], es[q..];
    assert es == a + r + c;
    LookupConcat(a + ns, c, seg);
    LookupConcat(a, ns, seg);
    LookupNone(a, seg);
    LookupNone(c, seg);
    OrLaws(Lookup(ns, seg), NO_SECTORS, NO_SECTORS);
    if other != seg {
      LookupConcat(a + ns, c, other);
      LookupConcat(a, ns, other);
      LookupConcat(a + r, c, other);
      LookupConcat(a, r, other);
      LookupNone(ns, other);
      LookupNone(r, other);
    }
  }

  lemma SegmentOrder(fmt: Format, d: nat, e: nat)
    requires GoodEntry(fmt, d) && GoodEntry(fmt, e) && SegmentOf(d) < SegmentOf(e)
    ensures Before(d, e)
  {}

  lemma SortedReplaced(fmt: Format, es: seq<nat>, seg: int, p: int, q: int, ns: seq<nat>)
    requires WellFormed(fmt, es) && IsRun(es, seg, p, q) && Sorted(ns)
    requires forall i :: 0 <= i < |ns| ==> GoodEntry(fmt, ns[i]) && SegmentOf(ns[i]) == seg
    ensures Sorted(Replaced(es, p, q, ns))
    ensures forall i :: 0 <= i < |Replaced(es, p, q, ns)| ==> GoodEntry(fmt, Replaced(es, p, q, ns)[i])
  {
    hide SegmentOf, GoodEntry, Before, FullyBadFlagged;
    var r := Replaced(es, p, q, ns);
    var d := q - p - |ns|;
    forall i, k | 0 <= i < k < |r|
      ensures Before(r[i], r[k])
    {
      if k < p {
        assert Before(es[i], es[k]);
      } else if k < p + |ns| {
        if i < p {
          SegmentOrder(fmt, es[i], ns[k - p]);
        } else {
          assert Before(ns[i - p], ns[k - p]);
        }
      } else {
        if i < p {
          assert Before(es[i], es[k + d]);
        } else if i < p + |ns| {
          SegmentOrder(fmt, ns[i - p], es[k + d]);
        } else {
          assert Before(es[i + d], es[k + d]);
        }
      }
    }
  }

  lemma WellFormedReplaced(fmt: Format, es: seq<nat>, seg: int, p: int, q: int, m: SectorMap)
    requires WellFormed(fmt, es) && IsRun(es, seg, p, q) && Addressable(seg)
    ensures WellFormed(fmt, Replaced(es, p, q, NewEntries(fmt, seg, m)))
  {
    hide SegmentOf, GoodEntry, Lookup, NewEntries, Sorted;
    var ns := NewEntries(fmt, seg, m);
    var r := Replaced(es, p, q, ns);
    NewEntriesMean(fmt, seg, m);
    SortedReplaced(fmt, es, seg, p, q, ns);
    if FlagsSegments(fmt) {
      forall s: int | FullyBad(r, s)
        ensures HasFlag(r, s)
      {
        LookupReplaced(es, seg, p, q, ns, s);
        if s == seg {
          FlagMoves(ns, r, s, p);
        } else {
          FlagStays(es, r, seg, p, q, ns, s);
        }
      }
    }
  }

  lemma FlagMoves(ns: seq<nat>, r: seq<nat>, s: int, p: int)
    requires 0 <= p && p + |ns| <= |r| && r[p..p + |ns|] == ns && HasFlag(ns, s)
    ensures HasFlag(r, s)
  {
    hide SegmentOf, Flagged;
    var i :| 0 <= i < |ns| && SegmentOf(ns[i]) == s && Flagged(ns[i]);
    assert r[p..p + |ns|][i] == r[p + i];
  }

  lemma FlagStays(es: seq<nat>, r: seq<nat>, seg: int, p: int, q: int, ns: seq<nat>, s: int)
    requires IsRun(es, seg, p, q) && r == Replaced(es, p, q, ns) && s != seg && HasFlag(es, s)
    ensures HasFlag(r, s)
  {
    hide SegmentOf, Flagged;
    var i :| 0 <= i < |es| && SegmentOf(es[i]) == s && Flagged(es[i]);
    if i < p {
      assert r[i] == es[i];
    } else {
      assert r[i - (q - p) + |ns|] == es[i];
    }
  }
}
