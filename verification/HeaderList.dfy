/** The bad-sector list where it lies in a header segment: entries are three-byte little-endian words, read by
    the same rules as all other numbers in the header.
 */
module HeaderLists {
  import opened Bits
  import opened SectorMaps
  import opened SectorLists
  import opened BadSectorMaps
  import TapeGeometry

  /** Where the list begins: behind the fixed part of the header, or, on QIC-80 tapes with a failed-sector log,
      behind that log. */
  function ListStart(format: Format): nat {
    if FlagsSegments(format) then 256 else 2048
  }

  /** The three-byte number at offset p. */
  function Word(header: seq<byte>, p: nat): nat
    requires p + 3 <= |header|
  {
    var high: int := header[p + 2];
    TapeGeometry.Get2(header, p) + 0x1_0000 * high
  }

  function EntryAt(header: seq<byte>, p: nat): SectorCount
    requires p + 3 <= |header|
  {
    SectorCount(header[p], header[p + 1], header[p + 2])
  }

  /** get_sector reads the lower three bytes of the four-byte word there. */
  lemma EntryIsWord(header: seq<byte>, p: nat)
    requires p + 3 <= |header|
    ensures GetSector(EntryAt(header, p)) == Word(header, p) < 0x1000000
    ensures p + 4 <= |header| ==> Word(header, p) == TapeGeometry.Get4(header, p) % 0x1000000
  {
    if p + 4 <= |header| {
      LowerBytes(header[p], header[p + 1], header[p + 2], header[p + 3]);
    }
  }

  lemma LowerBytes(b0: byte, b1: byte, b2: byte, b3: byte)
    ensures (b0 + 256 * b1 + 0x1_0000 * (b2 + 256 * b3)) % 0x1000000 == b0 + 256 * b1 + 0x1_0000 * b2
  {
    var low: int := b0 + 256 * b1 + 0x1_0000 * b2;
    assert b0 + 256 * b1 + 0x1_0000 * (b2 + 256 * b3) == 0x1000000 * b3 + low;
  }

  /** The header with an entry stored at offset p. */
  function Stored(header: seq<byte>, p: nat, s: SectorCount): (h: seq<byte>)
    requires p + 3 <= |header|
    ensures |h| == |header|
  {
    header[p := s.b0][p + 1 := s.b1][p + 2 := s.b2]
  }

  /** put_sector changes the lower three bytes of the four-byte word there to the sector number, and nothing else. */
  lemma PutChangesWord(header: seq<byte>, p: nat, sector: nat)
    requires p + 4 <= |header| && sector < 0x1000000
    ensures var h := Stored(header, p, PutSector(sector));
            && Word(h, p) == sector
            && TapeGeometry.Get4(h, p) == sector + 0x1000000 * (header[p + 3] as int)
            && h[..p] == header[..p] && h[p + 3..] == header[p + 3..]
  {
    var h := Stored(header, p, PutSector(sector));
    SectorRoundTrip(sector);
    assert EntryAt(h, p) == PutSector(sector);
    EntryIsWord(h, p);
    WholeWord(h[p], h[p + 1], h[p + 2], h[p + 3]);
  }

  lemma WholeWord(b0: byte, b1: byte, b2: byte, b3: byte)
    ensures b0 + 256 * b1 + 0x1_0000 * (b2 + 256 * b3) == (b0 + 256 * b1 + 0x1_0000 * b2) + 0x1000000 * b3
  {}

  // ----- whole lists -----

  /** n entries from offset p on, followed by a zero. */
  predicate Terminated(header: seq<byte>, p: nat, n: nat) {
    && p + 3 * n + 3 <= |header|
    && (forall i :: 0 <= i < n ==> Word(header, p + 3 * i) != 0)
    && Word(header, p + 3 * n) == 0
  }

  function Words(header: seq<byte>, p: nat, n: nat): (es: seq<nat>)
    requires p + 3 * n <= |header|
    ensures |es| == n
  {
    seq(n, i requires 0 <= i < n => Word(header, p + 3 * i))
  }

  /** Sector b of segment seg has an entry of its own, counting sectors from 1, or its segment is flagged. */
  ghost predicate Listed(words: seq<nat>, seg: int, b: nat) {
    exists i :: 0 <= i < |words| && (words[i] == 32 * seg + b + 1 || words[i] == 0x800000 + 32 * seg + 1)
  }

  /** What a lookup finds, in terms of the words alone. */
  lemma LookupListed(format: Format, words: seq<nat>, seg: nat, b: nat)
    requires WellFormed(format, words) && b < 32 && 32 * seg + b + 1 < 0x800000
    ensures Lookup(words, seg)[b] <==> Listed(words, seg, b)
  {
    hide Lookup, FullyBadFlagged;
    LookupBit(words, seg, b);
    forall i | 0 <= i < |words|
      ensures Marks(words[i], seg)[b] <==>
              words[i] == 32 * seg + b + 1 || words[i] == 0x800000 + 32 * seg + 1
    {
      assert GoodEntry(format, words[i]);
      MarksListed(format, words[i], seg, b);
    }
  }

  lemma MarksListed(format: Format, e: nat, seg: nat, b: nat)
    requires GoodEntry(format, e) && b < 32 && 32 * seg + b + 1 < 0x800000
    ensures Marks(e, seg)[b] <==> e == 32 * seg + b + 1 || e == 0x800000 + 32 * seg + 1
  {
    var s := e % FLAG - 1;
    DivModUnique(s, 32, SegmentOf(e), BitOf(e));
  }

  /** The entries of a list as bytes. */
  function Bytes(list: seq<SectorCount>): (bytes: seq<byte>)
    ensures |bytes| == 3 * |list|
  {
    seq(3 * |list|, k requires 0 <= k < 3 * |list| => Part(list[k / 3], k % 3))
  }

  function Part(s: SectorCount, k: nat): byte { if k == 0 then s.b0 else if k == 1 then s.b1 else s.b2 }

  lemma BytesAt(list: seq<SectorCount>, i: nat)
    requires i < |list|
    ensures EntryAt(Bytes(list), 3 * i) == list[i]
  {
    DivModUnique(3 * i, 3, i, 0);
    DivModUnique(3 * i + 1, 3, i, 1);
    DivModUnique(3 * i + 2, 3, i, 2);
  }

  /** A header with the list written back at offset p. */
  function Rewritten(header: seq<byte>, p: nat, list: seq<SectorCount>): (h: seq<byte>)
    requires p + 3 * |list| <= |header|
    ensures |h| == |header|
  {
    header[..p] + Bytes(list) + header[p + 3 * |list|..]
  }

  lemma RewrittenWord(header: seq<byte>, p: nat, list: seq<SectorCount>, i: nat)
    requires p + 3 * |list| <= |header| && i < |list|
    ensures Word(Rewritten(header, p, list), p + 3 * i) == GetSector(list[i])
  {
    hide GetSector, Word, Bytes;
    var h, k := Rewritten(header, p, list), 3 * i;
    BytesAt(list, i);
    assert h[p + k] == Bytes(list)[k];
    assert h[p + k + 1] == Bytes(list)[k + 1];
    assert h[p + k + 2] == Bytes(list)[k + 2];
    assert EntryAt(h, p + k) == EntryAt(Bytes(list), k);
    EntryIsWord(h, p + k);
  }

  /** The words of the header are then the sector numbers in the list. */
  lemma RewrittenWords(header: seq<byte>, p: nat, list: seq<SectorCount>, es: seq<nat>)
    requires p + 3 * |list| <= |header| && ListHolds(list, es) && forall i :: 0 <= i < |es| ==> es[i] != 0
    ensures Terminated(Rewritten(header, p, list), p, |es|) && Words(Rewritten(header, p, list), p, |es|) == es
  {
    hide GetSector, Word, Rewritten;
    var h := Rewritten(header, p, list);
    RewrittenWord(header, p, list, |es|);
    forall i | 0 <= i < |es|
      ensures Word(h, p + 3 * i) == es[i]
    {
      RewrittenWord(header, p, list, i);
    }
    forall i | 0 <= i < |es|
      ensures Word(h, p + 3 * i) != 0
    {
      assert es[i] != 0;
    }
    assert Words(h, p, |es|) == es;
  }

  /** The list of a header that has been read. */
  method Open(format: Format, header: seq<byte>, segment: nat, ghost n: nat) returns (bsm: BadSectorMap)
    requires UsesList(format) && Terminated(header, ListStart(format), n)
    requires WellFormed(format, Words(header, ListStart(format), n))
    ensures fresh(bsm) && fresh(bsm.list) && bsm.Valid() && bsm.Coherent() && bsm.format == format
    ensures bsm.usedHeaderSegment == segment && bsm.entries == Words(header, ListStart(format), n)
    ensures bsm.list.Length == (|header| - ListStart(format)) / 3
  {
    hide WellFormed, GetSector, Word;
    var start := ListStart(format);
    var room := (|header| - start) / 3;
    var list := new SectorCount[room](i requires 0 <= i < room => EntryAt(header, start + 3 * i));
    forall i | 0 <= i <= n
      ensures GetSector(list[i]) == Word(header, start + 3 * i)
    {
      EntryIsWord(header, start + 3 * i);
    }
    bsm := new BadSectorMap(format, list, Words(header, start, n));
    bsm.usedHeaderSegment := segment;
  }

  /** The bad sectors of a segment, from the bytes of a header. */
  method GetFromHeader(format: Format, header: seq<byte>, seg: nat, ghost n: nat) returns (m: SectorMap)
    requires UsesList(format) && Terminated(header, ListStart(format), n)
    requires WellFormed(format, Words(header, ListStart(format), n))
    ensures forall b: nat :: b < 32 && 32 * seg + b + 1 < 0x800000 ==>
              (m[b] <==> Listed(Words(header, ListStart(format), n), seg, b))
  {
    hide WellFormed, Lookup, Listed, Word;
    var bsm := Open(format, header, 0, n);
    m := bsm.Get(seg);
    forall b: nat | b < 32 && 32 * seg + b + 1 < 0x800000
      ensures m[b] <==> Listed(Words(header, ListStart(format), n), seg, b)
    {
      LookupListed(format, Words(header, ListStart(format), n), seg, b);
    }
  }

  /** Another bad-sector map for a segment, in the bytes of a header. */
  method PutInHeader(format: Format, header: seq<byte>, seg: nat, newMap: SectorMap, ghost n: nat)
    returns (h: seq<byte>, ghost n': nat)
    requires UsesList(format) && Terminated(header, ListStart(format), n) && Addressable(seg)
    requires WellFormed(format, Words(header, ListStart(format), n))
    requires n - Cost(format, Lookup(Words(header, ListStart(format), n), seg)) + Cost(format, newMap) <
               (|header| - ListStart(format)) / 3
    ensures |h| == |header| && h[..ListStart(format)] == header[..ListStart(format)]
    ensures Terminated(h, ListStart(format), n') && WellFormed(format, Words(h, ListStart(format), n'))
    ensures forall s: nat, b: nat :: b < 32 && 32 * s + b + 1 < 0x800000 ==>
              (Listed(Words(h, ListStart(format), n'), s, b) <==>
               if s == seg then newMap[b] else Listed(Words(header, ListStart(format), n), s, b))
  {
    hide WellFormed, Lookup, Listed, Word, Cost, Addressable, Stored, Flagged, SegmentOf;
    var start := ListStart(format);
    ghost var was := Words(header, start, n);
    hide Terminated;
    var bsm := Open(format, header, 0, n);
    bsm.Put(seg, newMap);
    h, n' := Rewritten(header, start, bsm.list[..]), |bsm.entries|;
    NotZero(format, bsm.entries);
    RewrittenWords(header, start, bsm.list[..], bsm.entries);
    forall s: nat, b: nat | b < 32 && 32 * s + b + 1 < 0x800000
      ensures Listed(bsm.entries, s, b) <==> if s == seg then newMap[b] else Listed(was, s, b)
    {
      LookupListed(format, was, s, b);
      LookupListed(format, bsm.entries, s, b);
    }
  }

  lemma NotZero(format: Format, es: seq<nat>)
    requires WellFormed(format, es)
    ensures forall i :: 0 <= i < |es| ==> es[i] != 0
  {
    hide Sorted, FullyBadFlagged;
  }
}
