/** The floppy addresses of tape sectors.  Each segment is 32 consecutive sectors of a floppy track; a
    floppy "cylinder" holds a few segments, a "head" a number of cylinders.  The header segment says how
    many, and is checked before it is used.
 */
module TapeGeometry {
  import opened Bits
  import opened SectorMaps

  const HSEG_MAGIC := 0xaa55_aa55
  const D2G_MAGIC := 0x8228_8228
  const FMT_VAR := 4
  const FMT_BIG := 6

  /** 32-bit unsigned arithmetic. */
  function U32(x: int): (r: nat)
    ensures r < 0x1_0000_0000
  {
    x % 0x1_0000_0000
  }

  /** The parameters in a header segment: segments per track, tracks per cartridge, and the highest
      floppy side, track and sector. */
  datatype Geometry = Geometry(spt: nat, tpc: nat, side: nat, track: nat, sector: nat)

  // ----- wrong parameters of known formatting software -----

  /** A header without values (QIC-40 revision E or earlier, or Xenix). */
  function Defaults(g: Geometry, last: int): Geometry {
    if g == Geometry(0, 0, 0, 0, 0) then
      if last == 2799 then Geometry(100, 28, 4, 149, 128) else Geometry(68, 20, 1, 169, 128)
    else g
  }

  function Repair(g: Geometry, wrong: Geometry, right: Geometry): Geometry {
    if g == wrong then right else g
  }

  /** The corrections for Conner, ComByte (two tape lengths), Colorado and OS/2 software, in this order. */
  function KnownBugs(g: Geometry): Geometry {
    var g1 := Repair(g, Geometry(150, 28, 7, 149, 128), Geometry(150, 28, 6, 149, 128));
    var g2 := Repair(g1, Geometry(100, 28, 9, 149, 128), Geometry(100, 28, 4, 149, 128));
    var g3 := Repair(g2, Geometry(150, 28, 9, 149, 128), Geometry(150, 28, 6, 149, 128));
    var g4 := Repair(g3, Geometry(150, 28, 6, 150, 128), Geometry(150, 28, 6, 149, 128));
    Repair(g4, Geometry(150, 28, 6, 254, 128), Geometry(150, 28, 6, 149, 128))
  }

  /** Two corrections for Imation cartridges. */
  function ImationBugs(g: Geometry, format: int): Geometry {
    var g1 := if (format == FMT_VAR || format == FMT_BIG)
                 && g.tpc == 50 && g.side == 54 && g.track == 255 && g.sector == 128
              then g.(track := 254) else g;
    if format == 6 then Repair(g1, Geometry(1414, 62, 2, 254, 128), Geometry(1414, 62, 85, 254, 128)) else g1
  }

  function Corrected(g: Geometry, format: int, last: int): Geometry {
    ImationBugs(KnownBugs(Defaults(g, last)), format)
  }

  // ----- the check -----

  function SegmentsPerHead(g: Geometry): nat {
    g.sector / SECTORS_PER_SEGMENT * (g.track + 1)
  }

  function HighestSide(g: Geometry): nat
    requires SegmentsPerHead(g) > 0
  {
    U32(g.spt * g.tpc - 1) / SegmentsPerHead(g)
  }

  /** A maximum side that is one too large is forgiven. */
  function Forgiven(g: Geometry): Geometry
    requires SegmentsPerHead(g) > 0
  {
    if U32(g.side - HighestSide(g)) == 1 then g.(side := U32(g.side - 1)) else g
  }

  /** The test of ftape_decode_header_segment. */
  predicate Consistent(g: Geometry, segmentsPerCylinder: nat) {
    var sph := SegmentsPerHead(g);
    && sph != 0 && segmentsPerCylinder != 0
    && HighestSide(g) == g.side
    && U32(sph / segmentsPerCylinder - 1) == g.track
    && segmentsPerCylinder * SECTORS_PER_SEGMENT == g.sector
  }

  /** The parameters pass the test, perhaps with a side too many. */
  predicate Acceptable(g: Geometry, segmentsPerCylinder: nat) {
    SegmentsPerHead(g) > 0 && Consistent(Forgiven(g), segmentsPerCylinder)
  }

  /** The parameters fit the bytes of the header. */
  predicate InBytes(g: Geometry) { g.spt < 0x1_0000 && g.tpc < 256 && g.side < 256 && g.track < 256 && g.sector < 256 }

  /** What the test establishes: whole cylinders per head, and the highest side, track and sector of
      the last segment. */
  lemma ConsistentMeans(g: Geometry, spc: nat)
    requires InBytes(g) && Acceptable(g, spc)
    ensures var sph := SegmentsPerHead(g);
            && spc > 0 && sph == spc * (g.track + 1) && spc * SECTORS_PER_SEGMENT <= 255
            && (g.spt * g.tpc > 0 ==> (g.spt * g.tpc - 1) / sph <= 255)
  {
    var sph, g' := SegmentsPerHead(g), Forgiven(g);
    OnlySide(g);
    DivModUnique(g.sector, SECTORS_PER_SEGMENT, spc, 0);
    ProductBelow(g.spt, g.tpc);
    SideBelow(g.side, g.spt * g.tpc, sph, HighestSide(g));
  }

  lemma OnlySide(g: Geometry)
    requires SegmentsPerHead(g) > 0
    ensures var g' := Forgiven(g);
            && g' == g.(side := g'.side) && SegmentsPerHead(g') == SegmentsPerHead(g)
            && HighestSide(g') == HighestSide(g)
            && g'.side == (if U32(g.side - HighestSide(g)) == 1 then U32(g.side - 1) else g.side)
  {}

  lemma SideBelow(side: nat, total: nat, sph: nat, highest: nat)
    requires side < 256 && sph > 0 && total < 0x100_0000 && highest == U32(total - 1) / sph
    requires highest == if U32(side - highest) == 1 then U32(side - 1) else side
    ensures total > 0 ==> (total - 1) / sph <= 255
  {
    if total > 0 {
      WrapSmall(total - 1);
      DivAtMost(total - 1, sph);
      if U32(side - highest) == 1 && side > 0 {
        WrapSmall(side - 1);
      }
    }
  }

  lemma WrapSmall(x: int)
    ensures 0 <= x < 0x1_0000_0000 ==> U32(x) == x
    ensures U32(-1) == 0xffff_ffff
  {}

  lemma DivAtMost(a: nat, d: nat)
    requires d > 0
    ensures 0 <= a / d <= a
  {
    DivMod(a, d);
    QuotientSmall(a, d, a / d, a % d);
  }

  lemma QuotientSmall(a: int, d: int, q: int, r: int)
    requires a >= 0 && d > 0 && a == q * d + r && 0 <= r < d
    ensures 0 <= q <= a
  {
    if q < 0 {
      ProductAtLeast(-q, d);
      Negated(q, d);
    } else if q > 0 {
      ProductAtLeast(d, q);
      Swapped(d, q);
    }
  }

  lemma Negated(q: int, d: int)
    ensures -q * d == -(q * d)
  {}

  lemma Swapped(q: int, d: int)
    ensures q * d == d * q
  {}

  lemma ProductBelow(a: nat, b: nat)
    requires a < 0x1_0000 && b < 256
    ensures 0 <= a * b < 0x100_0000
  {
    assert a * b <= a * 255;
  }

  /** The headers of the known faulty programs are accepted after correction, with four segments per
      cylinder.  The number of segments stays, or is the one that an empty header implies by its last segment. */
  lemma KnownBugsRepaired(g: Geometry, format: int, last: int)
    requires || g == Geometry(0, 0, 0, 0, 0)
             || g == Geometry(150, 28, 7, 149, 128) || g == Geometry(150, 28, 9, 149, 128)
             || g == Geometry(150, 28, 6, 150, 128) || g == Geometry(150, 28, 6, 254, 128)
             || g == Geometry(100, 28, 9, 149, 128)
             || (format == 6 && g == Geometry(1414, 62, 2, 254, 128))
    ensures var g' := Corrected(g, format, last);
            && Acceptable(g', 4)
            && (g != Geometry(0, 0, 0, 0, 0) ==> g'.spt == g.spt && g'.tpc == g.tpc)
            && (g == Geometry(0, 0, 0, 0, 0) && (last == 2799 || last == 1359) ==> g'.spt * g'.tpc == last + 1)
  {
    hide Acceptable;
    var g' := Corrected(g, format, last);
    Accepted(100, 28, 4, 149, 2799, 600);
    Accepted(68, 20, 1, 169, 1359, 680);
    Accepted(150, 28, 6, 149, 4199, 600);
    Accepted(1414, 62, 85, 254, 87667, 1020);
  }

  /** The Imation cartridges with 50 tracks and a track maximum that is one too large: after the correction
      the header passes exactly if their length fits side 53 or 54, one side too many being forgiven. */
  lemma ImationRepaired(spt: nat, format: int, last: int)
    requires spt < 0x1_0000 && (format == FMT_VAR || format == FMT_BIG)
    ensures var g' := Corrected(Geometry(spt, 50, 54, 255, 128), format, last);
            Acceptable(g', 4) <==> 53 * 1020 < spt * 50 <= 55 * 1020
  {
    hide Corrected;
    var g' := Geometry(spt, 50, 54, 254, 128);
    ImationCorrected(spt, format, last);
    assert SegmentsPerHead(g') == 1020;
    var total := spt * 50;
    if spt == 0 {
      SideForgiven(54, 4210752);
    } else {
      WrapSmall(total - 1);
      SideForgiven(54, (total - 1) / 1020);
    }
  }

  lemma ImationCorrected(spt: nat, format: int, last: int)
    requires format == FMT_VAR || format == FMT_BIG
    ensures Corrected(Geometry(spt, 50, 54, 255, 128), format, last) == Geometry(spt, 50, 54, 254, 128)
  {}

  lemma SideForgiven(side: nat, highest: nat)
    requires 0 < side < 256 && highest < 0x1000_0000
    ensures (if U32(side - highest) == 1 then U32(side - 1) else side) == highest <==>
              highest == side || highest == side - 1
  {
    WrapSmall(side - 1);
    WrapSmall(side - highest);
    if side < highest {
      WrapNegative(side - highest);
    }
  }

  lemma WrapNegative(x: int)
    requires -0x1_0000_0000 <= x < 0
    ensures U32(x) == x + 0x1_0000_0000
  {}

  lemma Accepted(spt: nat, tpc: nat, side: nat, track: nat, last: nat, sph: nat)
    requires spt * tpc - 1 == last < 0x1_0000_0000 && sph == 4 * (track + 1)
    requires side * sph <= last < side * sph + sph && track < 256
    ensures var g := Geometry(spt, tpc, side, track, 128);
            Acceptable(g, 4)
  {
    var g := Geometry(spt, tpc, side, track, 128);
    assert SegmentsPerHead(g) == sph;
    DivModUnique(last, sph, side, last - side * sph);
    assert HighestSide(g) == side;
    assert Forgiven(g) == g;
  }

  // ----- decoding a header segment -----

  /** Little-endian numbers in a segment. */
  function Get2(a: seq<byte>, k: nat): (r: nat)
    requires k + 2 <= |a|
    ensures r < 0x1_0000
  {
    var low: int, high: int := a[k], a[k + 1];
    low + 256 * high
  }

  function Get4(a: seq<byte>, k: nat): (r: nat)
    requires k + 4 <= |a|
    ensures r < 0x1_0000_0000
  {
    Get2(a, k) + 0x1_0000 * Get2(a, k + 2)
  }

  /** The geometry bytes of a header segment. */
  function RawGeometry(a: seq<byte>): (g: Geometry)
    requires |a| >= 256
    ensures InBytes(g)
  {
    Geometry(Get2(a, 24), a[26], a[27], a[28], a[29])
  }

  function LastSegment(a: seq<byte>): nat
    requires |a| >= 256
  {
    if a[4] == FMT_BIG then Get4(a, 246) else Get2(a, 12)
  }

  function FirstSegment(a: seq<byte>): nat
    requires |a| >= 256
  {
    if a[4] == FMT_BIG then Get4(a, 242) else Get2(a, 10)
  }

  /** The first or second header segment. */
  function HeaderSegment(a: seq<byte>, k: nat): nat
    requires |a| >= 256 && k < 2
  {
    if a[4] == FMT_BIG then Get4(a, 234 + 4 * k) else Get2(a, 6 + 2 * k)
  }

  predicate Signed(a: seq<byte>)
    requires |a| >= 256
  {
    Get4(a, 0) == HSEG_MAGIC || Get4(a, 0) == D2G_MAGIC
  }

  function HeaderGeometry(a: seq<byte>): (g: Geometry)
    requires |a| >= 256
    ensures InBytes(g)
  {
    Corrected(RawGeometry(a), a[4], LastSegment(a))
  }

  /** The corrections give a maximum sector to headers without any values only. */
  lemma SectorCorrected(a: seq<byte>)
    requires |a| >= 256
    ensures HeaderGeometry(a).sector < 32 <==>
              RawGeometry(a).sector < 32 && RawGeometry(a) != Geometry(0, 0, 0, 0, 0)
  {
    hide RawGeometry, LastSegment;
  }

  /** A division by zero is not caught: it stops the driver. */
  datatype Outcome = Success | WrongSignature | UnknownFormat | Inconsistent | DivisionByZero

  class Tape {
    const segmentsPerCylinder: nat
    var formatCode: int
    var headerSegment1: int
    var headerSegment2: int
    var firstDataSegment: int
    var lastDataSegment: int
    var segmentsPerTrack: nat
    var tracksPerTape: nat
    var segmentsPerHead: nat

    constructor (segmentsPerCylinder: nat)
      ensures this.segmentsPerCylinder == segmentsPerCylinder
    {
      this.segmentsPerCylinder := segmentsPerCylinder;
    }

    /** ftape_decode_header_segment.  Success means that every segment of the tape has proper floppy
        addresses; a maximum sector below 32 is the one thing that is not caught. */
    method DecodeHeader(address: seq<byte>) returns (o: Outcome)
      requires |address| >= 256
      modifies this
      ensures o == WrongSignature <==> !Signed(address)
      ensures if Signed(address) then formatCode == address[4] else unchanged(this)
      ensures o == UnknownFormat <==> Signed(address) && !(2 <= address[4] <= 6)
      ensures o == DivisionByZero <==> Signed(address) && 2 <= address[4] <= 6 && HeaderGeometry(address).sector < 32
      ensures o == Success <==> Signed(address) && 2 <= address[4] <= 6
                                && Acceptable(HeaderGeometry(address), segmentsPerCylinder)
      ensures o == Success ==>
                && firstDataSegment == FirstSegment(address) && lastDataSegment == LastSegment(address)
                && headerSegment1 == HeaderSegment(address, 0) && headerSegment2 == HeaderSegment(address, 1)
                && segmentsPerTrack == HeaderGeometry(address).spt && tracksPerTape == HeaderGeometry(address).tpc
                && Decoded(segmentsPerHead, segmentsPerCylinder, HeaderGeometry(address).track,
                           segmentsPerTrack * tracksPerTape)
    {
      hide Corrected, Consistent, Forgiven, SegmentsPerHead, Get4, Decoded, Get2;
      if Get4(address, 0) != D2G_MAGIC && Get4(address, 0) != HSEG_MAGIC {
        return WrongSignature;
      }
      formatCode := address[4];
      if formatCode != FMT_BIG {
        headerSegment1, headerSegment2 := Get2(address, 6), Get2(address, 8);
        firstDataSegment, lastDataSegment := Get2(address, 10), Get2(address, 12);
      } else {
        headerSegment1, headerSegment2 := Get4(address, 234), Get4(address, 238);
        firstDataSegment, lastDataSegment := Get4(address, 242), Get4(address, 246);
      }
      segmentsPerTrack, tracksPerTape := Get2(address, 24), address[26];
      var side, track, sector := address[27], address[28], address[29];
      if formatCode < 2 || formatCode > 6 {
        return UnknownFormat;
      }
      side, track, sector := Correct(side, track, sector);
      var g := Geometry(segmentsPerTrack, tracksPerTape, side, track, sector);
      assert g == HeaderGeometry(address);
      segmentsPerHead := SegmentsPerHead(g);
      NoSegments(g);
      if segmentsPerHead == 0 {
        return DivisionByZero;
      }
      if !Consistent(Forgiven(g), segmentsPerCylinder) {
        return Inconsistent;
      }
      DecodedGeometry(g, segmentsPerCylinder);
      o := Success;
    }

    /** The corrections, one after the other. */
    method Correct(side0: nat, track0: nat, sector0: nat) returns (side: nat, track: nat, sector: nat)
      modifies this`segmentsPerTrack, this`tracksPerTape
      ensures Geometry(segmentsPerTrack, tracksPerTape, side, track, sector) ==
              Corrected(Geometry(old(segmentsPerTrack), old(tracksPerTape), side0, track0, sector0), formatCode,
                        lastDataSegment)
    {
      side, track, sector := side0, track0, sector0;
      if segmentsPerTrack == 0 && tracksPerTape == 0 && side == 0 && track == 0 && sector == 0 {
        segmentsPerTrack, tracksPerTape, side, track, sector := 68, 20, 1, 169, 128;
        if lastDataSegment == 2799 {
          segmentsPerTrack, tracksPerTape, side, track, sector := 100, 28, 4, 149, 128;
        }
      }
      if segmentsPerTrack == 150 && tracksPerTape == 28 && side == 7 && track == 149 && sector == 128 {
        side := 6;
      }
      if segmentsPerTrack == 100 && tracksPerTape == 28 && side == 9 && track == 149 && sector == 128 {
        side := 4;
      }
      if segmentsPerTrack == 150 && tracksPerTape == 28 && side == 9 && track == 149 && sector == 128 {
        side := 6;
      }
      if segmentsPerTrack == 150 && tracksPerTape == 28 && side == 6 && track == 150 && sector == 128 {
        track := 149;
      }
      if segmentsPerTrack == 150 && tracksPerTape == 28 && side == 6 && track == 254 && sector == 128 {
        track := 149;
      }
      if (formatCode == FMT_VAR || formatCode == FMT_BIG)
         && tracksPerTape == 50 && side == 54 && track == 255 && sector == 128
      {
        track := 254;
      }
      if formatCode == 6
         && segmentsPerTrack == 1414 && tracksPerTape == 62 && side == 2 && track == 254 && sector == 128
      {
        side := 85;
      }
    }
  }

  lemma NoSegments(g: Geometry)
    ensures SegmentsPerHead(g) == 0 <==> g.sector < 32
  {
    if g.sector >= 32 {
      assert g.sector / SECTORS_PER_SEGMENT >= 1;
      ProductAtLeast(g.sector / SECTORS_PER_SEGMENT, g.track + 1);
    }
  }

  lemma DecodedGeometry(g: Geometry, spc: nat)
    requires InBytes(g) && Acceptable(g, spc)
    ensures Decoded(SegmentsPerHead(g), spc, g.track, g.spt * g.tpc)
  {
    hide Consistent, Forgiven;
    ConsistentMeans(g, spc);
  }

  // ----- sector identifiers -----

  /** The identifier in front of each sector on tape; all three are bytes. */
  datatype SectorId = SectorId(head: int, cyl: int, sect: int)

  function Byte(x: int): nat { x % 256 }

  /** setup_segment and the commands to the controller: the identifier of sector i of a segment. */
  function IdOf(sph: nat, spc: nat, segment: nat, i: nat): SectorId
    requires sph > 0 && spc > 0
  {
    SectorId(Byte(segment / sph), Byte(segment % sph / spc), Byte(Byte(segment % spc * SECTORS_PER_SEGMENT + 1) + i))
  }

  /** ftape_read_id: the segment and sector that an identifier belongs to. */
  function Located(sph: nat, spc: nat, id: SectorId): (int, int) {
    (sph * id.head + spc * id.cyl + (id.sect - 1) / SECTORS_PER_SEGMENT, (id.sect - 1) % SECTORS_PER_SEGMENT)
  }

  /** A geometry that has passed the test. */
  ghost predicate Decoded(sph: nat, spc: nat, track: nat, total: int) {
    && spc > 0 && sph > 0 && sph == spc * (track + 1) && spc * SECTORS_PER_SEGMENT <= 255 && track <= 255
    && (total > 0 ==> (total - 1) / sph <= 255)
  }

  /** No field of an identifier is truncated. */
  lemma IdFits(sph: nat, spc: nat, track: nat, total: nat, segment: nat, i: nat)
    requires Decoded(sph, spc, track, total) && segment < total && i < SECTORS_PER_SEGMENT
    ensures 0 <= segment / sph <= 255 && 0 <= segment % sph / spc <= track
    ensures 1 <= segment % spc * SECTORS_PER_SEGMENT + 1 + i <= 255
    ensures IdOf(sph, spc, segment, i) == SectorId(segment / sph, segment % sph / spc,
                                                   segment % spc * SECTORS_PER_SEGMENT + 1 + i)
  {
    HeadFits(segment, total, sph);
    CylinderFits(segment, sph, spc, track);
    SectorFits(segment, spc, i);
    hide Decoded;
    ByteIsSame(segment / sph);
    ByteIsSame(segment % sph / spc);
    ByteIsSame(segment % spc * SECTORS_PER_SEGMENT + 1);
    ByteIsSame(segment % spc * SECTORS_PER_SEGMENT + 1 + i);
  }

  lemma HeadFits(segment: nat, total: nat, sph: nat)
    requires sph > 0 && segment < total && (total - 1) / sph <= 255
    ensures 0 <= segment / sph <= 255
  {
    DivMonotone(segment, total - 1, sph);
  }

  lemma CylinderFits(segment: nat, sph: nat, spc: nat, track: nat)
    requires spc > 0 && sph > 0 && sph == spc * (track + 1)
    ensures 0 <= segment % sph / spc <= track
  {
    var r := segment % sph;
    DivMod(r, spc);
    Below(r / spc, r % spc, spc, track + 1);
  }

  lemma SectorFits(segment: nat, spc: nat, i: nat)
    requires spc > 0 && spc * SECTORS_PER_SEGMENT <= 255 && i < SECTORS_PER_SEGMENT
    ensures 0 <= segment % spc < spc && 1 <= segment % spc * SECTORS_PER_SEGMENT + 1 + i <= 255
  {}

  lemma ByteIsSame(x: int)
    ensures 0 <= x <= 255 ==> Byte(x) == x
  {}

  lemma DivMonotone(a: nat, b: nat, d: nat)
    requires a <= b && d > 0
    ensures a / d <= b / d
  {
    DivMod(a, d);
    DivMod(b, d);
    if a / d > b / d {
      ProductAtLeast(a / d - b / d, d);
    }
  }

  /** q whole parts of size d and a rest are less than n parts: then q is less than n. */
  lemma Below(q: int, r: int, d: int, n: int)
    requires d > 0 && 0 <= r && q * d + r < d * n
    ensures q < n
  {
    if q >= n {
      Scaled(q, n, d);
    }
  }

  lemma Scaled(q: int, n: int, d: int)
    requires q >= n && d > 0
    ensures q * d >= d * n
  {
    assert (q - n) * d >= 0;
  }

  /** Segments of a cylinder are counted alike from the start of the tape and of the head. */
  lemma RestInCylinder(segment: nat, spc: nat, tracks: nat)
    requires spc > 0 && tracks > 0
    ensures spc * tracks > 0 && segment % (spc * tracks) % spc == segment % spc
  {
    var sph := spc * tracks;
    ProductAtLeast(tracks, spc);
    DivMod(segment, sph);
    var q, r := segment / sph, segment % sph;
    DivMod(r, spc);
    var c, k := r / spc, r % spc;
    assert segment == (q * tracks + c) * spc + k by {
      assert q * (spc * tracks) == (q * tracks) * spc;
      assert (q * tracks) * spc + c * spc == (q * tracks + c) * spc;
    }
    DivModUnique(segment, spc, q * tracks + c, k);
  }

  /** Reading an identifier back gives the very segment and sector. */
  lemma IdRoundTrip(sph: nat, spc: nat, track: nat, total: nat, segment: nat, i: nat)
    requires Decoded(sph, spc, track, total) && segment < total && i < SECTORS_PER_SEGMENT
    ensures Located(sph, spc, IdOf(sph, spc, segment, i)) == (segment, i)
  {
    IdFits(sph, spc, track, total, segment, i);
    var q, r := segment / sph, segment % sph;
    DivMod(segment, sph);
    DivMod(r, spc);
    RestInCylinder(segment, spc, track + 1);
    DivModUnique(segment % spc * SECTORS_PER_SEGMENT + i, SECTORS_PER_SEGMENT, segment % spc, i);
    assert sph * q == q * sph && spc * (r / spc) == r / spc * spc;
  }

  /** No two sectors of the tape have the same identifier. */
  lemma IdsDistinct(sph: nat, spc: nat, track: nat, total: nat, segment: nat, i: nat, segment': nat, i': nat)
    requires Decoded(sph, spc, track, total) && segment < total && segment' < total
    requires i < SECTORS_PER_SEGMENT && i' < SECTORS_PER_SEGMENT
    requires IdOf(sph, spc, segment, i) == IdOf(sph, spc, segment', i')
    ensures segment == segment' && i == i'
  {
    IdRoundTrip(sph, spc, track, total, segment, i);
    IdRoundTrip(sph, spc, track, total, segment', i');
  }

  /** Head, cylinder and place in the cylinder of a segment. */
  lemma Placed(sph: nat, spc: nat, track: nat, h: nat, c: nat, k: nat)
    requires spc > 0 && sph == spc * (track + 1) && c <= track && k < spc
    ensures sph > 0
    ensures var segment := h * sph + c * spc + k;
            segment / sph == h && segment % sph / spc == c && segment % spc == k && segment % sph == c * spc + k
  {
    var r := c * spc + k;
    ProductAtLeast(track + 1, spc);
    assert r < sph by {
      assert (track - c) * spc >= 0;
      assert (track + 1) * spc == c * spc + (track - c) * spc + spc;
    }
    var segment := h * sph + r;
    DivModUnique(segment, sph, h, r);
    DivModUnique(r, spc, c, k);
    RestInCylinder(segment, spc, track + 1);
  }

  lemma PlaceOf(sph: nat, spc: nat, track: nat, segment: nat) returns (h: nat, c: nat, k: nat)
    requires spc > 0 && sph > 0 && sph == spc * (track + 1)
    ensures segment == h * sph + c * spc + k && c <= track && k < spc
  {
    h, c, k := segment / sph, segment % sph / spc, segment % sph % spc;
    DivMod(segment, sph);
    DivMod(segment % sph, spc);
    CylinderFits(segment, sph, spc, track);
  }

  lemma IdAt(sph: nat, spc: nat, track: nat, total: nat, h: nat, c: nat, k: nat, i: nat)
    requires Decoded(sph, spc, track, total) && c <= track && k < spc && i < SECTORS_PER_SEGMENT
    requires h * sph + c * spc + k < total
    ensures IdOf(sph, spc, h * sph + c * spc + k, i) == SectorId(h, c, k * SECTORS_PER_SEGMENT + 1 + i)
  {
    Placed(sph, spc, track, h, c, k);
    IdFits(sph, spc, track, total, h * sph + c * spc + k, i);
  }

  /** The identifiers run along the tape: sector by sector to the end of a cylinder, then to the next cylinder,
      and behind the last one to the next head. */
  lemma IdSuccessor(sph: nat, spc: nat, track: nat, total: nat, segment: nat, i: nat)
    requires Decoded(sph, spc, track, total) && i < SECTORS_PER_SEGMENT
    requires segment < total && (i == SECTORS_PER_SEGMENT - 1 ==> segment + 1 < total)
    ensures var id := IdOf(sph, spc, segment, i);
            (if i + 1 < SECTORS_PER_SEGMENT then IdOf(sph, spc, segment, i + 1) else IdOf(sph, spc, segment + 1, 0)) ==
            if id.sect < spc * SECTORS_PER_SEGMENT then id.(sect := id.sect + 1)
            else if id.cyl < track then SectorId(id.head, id.cyl + 1, 1)
            else SectorId(id.head + 1, 0, 1)
    ensures IdOf(sph, spc, 0, 0) == SectorId(0, 0, 1)
  {
    hide IdOf;
    IdAt(sph, spc, track, total, 0, 0, 0, 0);
    var h, c, k := PlaceOf(sph, spc, track, segment);
    IdAt(sph, spc, track, total, h, c, k, i);
    if i + 1 < SECTORS_PER_SEGMENT {
      IdAt(sph, spc, track, total, h, c, k, i + 1);
    } else if k + 1 < spc {
      IdAt(sph, spc, track, total, h, c, k + 1, 0);
    } else if c < track {
      NextCylinder(sph, spc, h, c);
      IdAt(sph, spc, track, total, h, c + 1, 0, 0);
    } else {
      NextHead(sph, spc, track, h);
      IdAt(sph, spc, track, total, h + 1, 0, 0, 0);
    }
  }

  lemma NextCylinder(sph: nat, spc: nat, h: nat, c: nat)
    ensures h * sph + c * spc + spc == h * sph + (c + 1) * spc
  {}

  lemma NextHead(sph: nat, spc: nat, track: nat, h: nat)
    requires sph == spc * (track + 1)
    ensures h * sph + track * spc + spc == (h + 1) * sph
  {}

  /** fill_format_buffer: the formatter writes the same identifiers, 32 for each segment. */
  method FillFormatBuffer(sph: nat, spc: nat, start: nat, todo: nat) returns (data: array<SectorId>)
    requires sph > 0 && spc > 0
    ensures fresh(data) && data.Length == todo * SECTORS_PER_SEGMENT
    ensures forall x :: 0 <= x < data.Length ==>
              data[x] == IdOf(sph, spc, start + x / SECTORS_PER_SEGMENT, x % SECTORS_PER_SEGMENT)
  {
    hide IdOf;
    data := new SectorId[todo * SECTORS_PER_SEGMENT](_ => SectorId(0, 0, 0));
    var seg := start;
    while seg < start + todo
      invariant start <= seg <= start + todo
      invariant forall x :: 0 <= x < (seg - start) * SECTORS_PER_SEGMENT ==>
                  data[x] == IdOf(sph, spc, start + x / SECTORS_PER_SEGMENT, x % SECTORS_PER_SEGMENT)
    {
      FillSegment(data, sph, spc, start, seg);
      seg := seg + 1;
    }
  }

  method FillSegment(data: array<SectorId>, sph: nat, spc: nat, start: nat, seg: nat)
    requires sph > 0 && spc > 0 && start <= seg && (seg - start + 1) * SECTORS_PER_SEGMENT <= data.Length
    modifies data
    ensures forall x :: 0 <= x < data.Length ==>
              data[x] == if (seg - start) * SECTORS_PER_SEGMENT <= x < (seg - start + 1) * SECTORS_PER_SEGMENT
                         then IdOf(sph, spc, start + x / SECTORS_PER_SEGMENT, x % SECTORS_PER_SEGMENT) else old(data[x])
  {
    hide IdOf, Byte;
    var base := (seg - start) * SECTORS_PER_SEGMENT;
    var first := SectorId(Byte(seg / sph), Byte(seg % sph / spc), Byte(seg % spc * SECTORS_PER_SEGMENT + 1));
    data[base] := first;
    FirstId(sph, spc, seg);
    DivModUnique(base, SECTORS_PER_SEGMENT, seg - start, 0);
    var i := 1;
    while i < SECTORS_PER_SEGMENT
      invariant 1 <= i <= SECTORS_PER_SEGMENT
      invariant forall x :: base <= x < base + i ==>
                  data[x] == IdOf(sph, spc, start + x / SECTORS_PER_SEGMENT, x % SECTORS_PER_SEGMENT)
      invariant forall x :: 0 <= x < data.Length && !(base <= x < base + i) ==> data[x] == old(data[x])
    {
      NextId(sph, spc, seg, i);
      DivModUnique(base + i, SECTORS_PER_SEGMENT, seg - start, i);
      data[base + i] := first.(sect := Byte(first.sect + i));
      i := i + 1;
    }
  }

  lemma FirstId(sph: nat, spc: nat, seg: nat)
    requires sph > 0 && spc > 0
    ensures IdOf(sph, spc, seg, 0) == SectorId(Byte(seg / sph), Byte(seg % sph / spc),
                                               Byte(seg % spc * SECTORS_PER_SEGMENT + 1))
  {}

  lemma NextId(sph: nat, spc: nat, seg: nat, i: nat)
    requires sph > 0 && spc > 0
    ensures IdOf(sph, spc, seg, i) ==
            SectorId(Byte(seg / sph), Byte(seg % sph / spc), Byte(Byte(seg % spc * SECTORS_PER_SEGMENT + 1) + i))
  {}

  /** A header with a segment per track and no maximum sector. */
  function HeaderWithoutSector(): (a: seq<byte>)
    ensures |a| == 256
  {
    [0x55, 0xaa, 0x55, 0xaa, FMT_VAR] + seq(19, _ => 0) + [1] + seq(231, _ => 0)
  }

  method DivisionByZeroExample() returns (o: Outcome)
    ensures o == DivisionByZero
  {
    hide Corrected;
    var a := HeaderWithoutSector();
    assert a[0] == 0x55 && a[1] == 0xaa && a[2] == 0x55 && a[3] == 0xaa && a[4] == FMT_VAR && a[24] == 1 && a[29] == 0;
    SectorCorrected(a);
    var tape := new Tape(4);
    o := tape.DecodeHeader(a);
  }
}
