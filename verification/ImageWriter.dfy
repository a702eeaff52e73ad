/** The image writer (mkqictape.py): it encodes segments byte by byte with a table of its own and
    writes header segments that the driver decodes.
 */
module ImageWriter {
  import opened Bits
  import opened SectorMaps
  import opened GaloisField
  import opened ReedSolomon
  import opened Columns
  import opened MemorySegments
  import opened Options
  import opened Words
  import opened Erasures
  import TapeGeometry

  const FACTOR: byte := 0xc0

  // ----- the multiplication table -----

  predicate PowerOfTwo(p: nat) {
    p == 1 || (p > 1 && Odd(p) == 0 && PowerOfTwo(Half(p)))
  }

  /** i & (~i + 1) */
  function LowestBit(i: nat): (low: nat)
    requires i > 0
    ensures 0 < low <= i
  {
    if Odd(i) == 1 then 1 else 2 * LowestBit(Half(i))
  }

  /** Taking the lowest bit away leaves a smaller number. */
  lemma {:induction false} LowestBitOff(i: nat)
    requires i > 0
    ensures PowerOfTwo(LowestBit(i)) && Xor(i, LowestBit(i)) == i - LowestBit(i)
  {
    hide Xor;
    var low := LowestBit(i);
    XorDef(i, low);
    if Odd(i) == 1 {
      XorZero(Half(i));
    } else {
      LowestBitOff(Half(i));
      JoinBit(0, LowestBit(Half(i)));
    }
  }

  /** v <<= 1; if v & 0x100: v ^= 0x187 */
  lemma ShiftReduce(v: byte)
    ensures v >= 128 ==> Xor(2 * v, 0x187) == TimesR(v)
    ensures v < 128 ==> 2 * v == TimesR(v)
  {
    if v < 128 {
      TimesRSmall(v);
    } else {
      var x := 2 * v;
      Pow2Values();
      hide Xor;
      assert High(x, 8) == 1 && Low(x, 8) == Doubled(v) && High(0x187, 8) == 1 && Low(0x187, 8) == 0x87;
      hide High, Low, Pow2, Doubled;
      XorSplit(x, 0x187, 8);
      XorZero(1);
      HighLowJoin(Xor(x, 0x187), 8);
    }
  }

  lemma MulPower(bit: byte)
    requires PowerOfTwo(bit)
    ensures PowerOfTwo(2 * bit) && (bit < 128 ==> Mul(2 * bit, FACTOR) == TimesR(Mul(bit, FACTOR)))
    ensures Mul(1, FACTOR) == FACTOR
  {
    JoinBit(0, bit);
    assert Half(2 * bit) == bit && Odd(2 * bit) == 0;
    if bit < 128 {
      hide Mul, Add, TimesR;
      MulUnfold(2 * bit, FACTOR);
      AddZero(TimesR(Mul(bit, FACTOR)));
    }
    OneTimes();
  }

  lemma OneTimes()
    ensures Mul(1, FACTOR) == FACTOR
  {
    assert Half(1) == 0 && Odd(1) == 1;
    hide Mul, Add, TimesR;
    MulUnfold(1, FACTOR);
    AddZero(FACTOR);
  }

  lemma {:induction false} BetweenPowers(bit: nat, p: nat)
    requires PowerOfTwo(bit) && PowerOfTwo(p) && bit <= p < 2 * bit
    ensures p == bit
  {
    if bit == 1 {
    } else {
      BetweenPowers(Half(bit), Half(p));
    }
  }

  lemma LowBack(i: byte, low: byte)
    ensures Add(low, Add(i, low)) == i
  {
    hide *;
    AddCancel(i, low);
    AddCommutes(i, low);
  }

  /** ecc_table: the powers of two by doubling, and the rest by adding. */
  method EccTable() returns (tab: array<byte>)
    ensures fresh(tab) && tab.Length == 256 && forall i: byte :: tab[i] == Mul(i, FACTOR)
  {
    tab := new byte[256](_ => 0);
    TablePowers(tab);
    TableRest(tab);
  }

  method TablePowers(tab: array<byte>)
    requires tab.Length == 256 && tab[0] == 0
    modifies tab
    ensures tab[0] == 0 && forall p: byte :: PowerOfTwo(p) ==> tab[p] == Mul(p, FACTOR)
  {
    hide Mul, Xor, Add, TimesR, PowerOfTwo;
    var v: nat, bit := FACTOR, 1;
    OneTimes();
    PowerOne();
    while bit < 0x100
      invariant 1 <= bit <= 256 && PowerOfTwo(bit) && tab[0] == 0
      invariant bit < 256 ==> v < 256 && v == Mul(bit, FACTOR)
      invariant forall p: byte :: PowerOfTwo(p) && p < bit ==> tab[p] == Mul(p, FACTOR)
      decreases 256 - bit
    {
      tab[bit] := v % 256;
      MulPower(bit);
      ShiftReduce(v);
      Powers(bit);
      forall p: byte | PowerOfTwo(p) && bit <= p < 2 * bit
        ensures p == bit
      {
        BetweenPowers(bit, p);
      }
      v := 2 * v;
      if v >= 0x100 {
        v := Xor(v, 0x187);
      }
      bit := 2 * bit;
    }
  }

  lemma PowerOne()
    ensures PowerOfTwo(1) && PowerOfTwo(2) && !PowerOfTwo(0)
  {}

  lemma Powers(bit: byte)
    requires PowerOfTwo(bit)
    ensures bit <= 128
  {
    if bit >= 128 {
      assert PowerOfTwo(128);
      BetweenPowers(128, bit);
    }
  }

  method TableRest(tab: array<byte>)
    requires tab.Length == 256 && tab[0] == 0 && forall p: byte :: PowerOfTwo(p) ==> tab[p] == Mul(p, FACTOR)
    modifies tab
    ensures forall i: byte :: tab[i] == Mul(i, FACTOR)
  {
    hide Mul, Xor, TimesR, PowerOfTwo, LowestBit;
    MulUnfold(0, FACTOR);
    PowerOne();
    var i := 3;
    while i < 0x100
      invariant 3 <= i <= 256
      invariant forall j: byte :: j < i || PowerOfTwo(j) ==> tab[j] == Mul(j, FACTOR)
    {
      var low := LowestBit(i);
      LowestBitOff(i);
      if i != low {
        var rest := Xor(i, low);
        XorByte(tab[low], tab[rest]);
        MulAddLeft(low, rest, FACTOR);
        LowBack(i, low);
        tab[i] := Xor(tab[low], tab[rest]);
      }
      i := i + 1;
    }
  }

  // ----- segments -----

  ghost predicate IsTable(tab: seq<byte>) {
    |tab| == 256 && forall i: byte :: tab[i] == Mul(i, FACTOR)
  }

  /** ecc_parity_for_column: the byte-wise register is the driver's. */
  method EccParityForColumn(column: seq<byte>, tab: seq<byte>) returns (p: Parity)
    requires IsTable(tab)
    ensures p == ParityOf(column)
  {
    hide Mul, Add;
    p := ZERO_PARITY;
    for i := 0 to |column|
      invariant p == ParityOf(column[..i])
    {
      assert column[..i + 1][..i] == column[..i];
      var t1 := Add(column[i], p.p0);
      var t2 := tab[t1];
      p := Parity(Add(t2, p.p1), Add(t2, p.p2), t1);
    }
    assert column[..|column|] == column;
  }

  /** What the driver's ftape_ecc_set_segment_parity promises of a full segment with this data. */
  ghost predicate DriverEncoding(data: seq<byte>, seg: seq<byte>) {
    && |data| == SEGMENT_SIZE && |seg| == 32 * 1024 && seg[..SEGMENT_SIZE] == data
    && forall c :: 0 <= c < SECTOR_SIZE ==> Column(seg, 32, c) == Encoded(Column(data, 29, c))
  }

  /** There is only one such segment. */
  lemma DriverEncodingUnique(data: seq<byte>, seg: seq<byte>, seg': seq<byte>)
    requires DriverEncoding(data, seg) && DriverEncoding(data, seg')
    ensures seg == seg'
  {
    hide Encoded, Column;
    SameColumns(seg, seg', 32);
    assert seg[..SECTOR_SIZE * 32] == seg && seg'[..SECTOR_SIZE * 32] == seg';
  }

  /** build_segment: the 29 blocks of data and three parity blocks; None stands for the exception. */
  method BuildSegment(data: seq<byte>, tab: seq<byte>) returns (seg: Option<seq<byte>>)
    requires IsTable(tab)
    ensures seg.Some? <==> |data| == SEGMENT_SIZE
    ensures seg.Some? ==> DriverEncoding(data, seg.value)
  {
    hide IsTable, ParityOf, Column;
    if |data| != SEGMENT_SIZE {
      return None;
    }
    var par0, par1, par2 := new byte[1024](_ => 0), new byte[1024](_ => 0), new byte[1024](_ => 0);
    for col := 0 to SECTOR_SIZE
      invariant forall c :: 0 <= c < col ==> Parity(par0[c], par1[c], par2[c]) == ParityOf(Column(data, 29, c))
    {
      var p := EccParityForColumn(Column(data, 29, col), tab);
      par0[col], par1[col], par2[col] := p.p0, p.p1, p.p2;
    }
    var whole := data + par0[..] + par1[..] + par2[..];
    forall c | 0 <= c < SECTOR_SIZE
      ensures Column(whole, 32, c) == Encoded(Column(data, 29, c))
    {
      ColumnOfWhole(data, par0[..], par1[..], par2[..], c);
    }
    seg := Some(whole);
  }

  lemma ColumnOfWhole(data: seq<byte>, a: seq<byte>, b: seq<byte>, d: seq<byte>, c: int)
    requires |data| == SEGMENT_SIZE && |a| == |b| == |d| == SECTOR_SIZE && 0 <= c < SECTOR_SIZE
    requires ParityOf(Column(data, 29, c)) == Parity(a[c], b[c], d[c])
    ensures Column(data + a + b + d, 32, c) == Encoded(Column(data, 29, c))
  {
    hide ParityOf;
    var whole := data + a + b + d;
    forall k | 0 <= k < 32
      ensures Column(whole, 32, c)[k] == Encoded(Column(data, 29, c))[k]
    {
      if k < 29 {
        assert whole[SECTOR_SIZE * k + c] == data[SECTOR_SIZE * k + c];
      } else if k == 29 {
        assert whole[SECTOR_SIZE * 29 + c] == a[c];
      } else if k == 30 {
        assert whole[SECTOR_SIZE * 30 + c] == b[c];
      } else {
        assert whole[SECTOR_SIZE * 31 + c] == d[c];
      }
    }
  }

  /** The driver, given the same data, produces the same segment. */
  method SameAsDriver(data: seq<byte>, tab: seq<byte>, w: int) returns (seg: seq<byte>, mem: array<byte>)
    requires IsTable(tab) && |data| == SEGMENT_SIZE && IsLongSize(w)
    ensures fresh(mem) && mem[..] == seg && |seg| == 32 * 1024 && ValidSegment(seg, 32)
  {
    hide IsTable, Column, Encoded, Syndromes, ParityOf;
    var built := BuildSegment(data, tab);
    seg := built.value;
    mem := new byte[32 * 1024](i requires 0 <= i < 32 * 1024 => if i < SEGMENT_SIZE then data[i] else 0);
    assert mem[..SEGMENT_SIZE] == data;
    ghost var before := mem[..];
    var mseg := new MemorySegment(NO_SECTORS, 32, mem);
    mseg.SetSegmentParity(w);
    DataColumns(before, data);
    assert mem[..SEGMENT_SIZE] == data;
    assert DriverEncoding(data, mem[..]);
    DriverEncodingUnique(data, mem[..], seg);
  }

  lemma DataColumns(mem: seq<byte>, data: seq<byte>)
    requires |data| == SEGMENT_SIZE && |mem| == 32 * 1024 && mem[..SEGMENT_SIZE] == data
    ensures forall c :: 0 <= c < SECTOR_SIZE ==> Column(mem, 29, c) == Column(data, 29, c)
  {
    forall c | 0 <= c < SECTOR_SIZE
      ensures Column(mem, 29, c) == Column(data, 29, c)
    {
      forall k | 0 <= k < 29
        ensures Column(mem, 29, c)[k] == Column(data, 29, c)[k]
      {
        assert mem[..SEGMENT_SIZE][SECTOR_SIZE * k + c] == data[SECTOR_SIZE * k + c];
      }
    }
  }

  // ----- the header segment -----

  /** struct.pack_into("<H", ...) */
  function Put2(h: seq<byte>, k: nat, v: nat): (r: seq<byte>)
    requires k + 2 <= |h| && v < 0x1_0000
    ensures |r| == |h| && TapeGeometry.Get2(r, k) == v
    ensures forall i :: 0 <= i < |h| && (i < k || k + 2 <= i) ==> r[i] == h[i]
  {
    h[k := v % 256][k + 1 := v / 256]
  }

  /** struct.pack_into("<I", ...) */
  function Put4(h: seq<byte>, k: nat, v: nat): (r: seq<byte>)
    requires k + 4 <= |h| && v < 0x1_0000_0000
    ensures |r| == |h| && TapeGeometry.Get4(r, k) == v
    ensures forall i :: 0 <= i < |h| && (i < k || k + 4 <= i) ==> r[i] == h[i]
  {
    Put2(Put2(h, k, v % 0x1_0000), k + 2, v / 0x1_0000)
  }

  const SEGS_PER_HEAD := 600

  /** What the driver finds in a header of the writer. */
  ghost predicate States(a: seq<byte>, spt: nat, tracks: nat, format: int) {
    && |a| >= 256 && TapeGeometry.Signed(a) && a[4] == format
    && TapeGeometry.RawGeometry(a) ==
         TapeGeometry.Geometry(spt, tracks, (spt * tracks - 1) / SEGS_PER_HEAD % 256, 149, 128)
    && TapeGeometry.FirstSegment(a) == 2 && TapeGeometry.LastSegment(a) == spt * tracks - 1
    && TapeGeometry.HeaderSegment(a, 0) == 0 && TapeGeometry.HeaderSegment(a, 1) == 1
  }

  /** The values fit the fields. */
  predicate Fits(spt: nat, tracks: nat, format: int) {
    && spt < 0x1_0000 && tracks < 256 && 0 <= format < 256 && 1 <= spt * tracks
    && (format == TapeGeometry.FMT_BIG || spt * tracks - 1 <= 0xffff)
  }

  /** header_segment.  stamp is the time of writing; None stands for the exceptions. */
  method HeaderSegment(spt: nat, tracks: nat, format: int, title: seq<byte>, stamp: nat, tab: seq<byte>)
    returns (seg: Option<seq<byte>>)
    requires IsTable(tab) && stamp < 0x1_0000_0000
    ensures seg.Some? <==> Fits(spt, tracks, format)
    ensures seg.Some? ==> |seg.value| == 32 * 1024 && States(seg.value[..SEGMENT_SIZE], spt, tracks, format)
    ensures seg.Some? ==> DriverEncoding(seg.value[..SEGMENT_SIZE], seg.value)
  {
    hide IsTable, DriverEncoding, States;
    if !Fits(spt, tracks, format) {
      return None;
    }
    var start := HeaderStart(spt, tracks, format, stamp);
    var hdr := HeaderRest(start, title, stamp);
    StatesKept(start, hdr, spt, tracks, format);
    seg := BuildSegment(hdr, tab);
    EncodingData(hdr, seg.value);
  }

  /** Signature, format, segment numbers and geometry. */
  method HeaderStart(spt: nat, tracks: nat, format: int, stamp: nat) returns (hdr: seq<byte>)
    requires Fits(spt, tracks, format) && stamp < 0x1_0000_0000
    ensures |hdr| == SEGMENT_SIZE && States(hdr, spt, tracks, format)
  {
    hide Put2, Put4, TapeGeometry.Get2, TapeGeometry.Get4;
    var total := spt * tracks;
    TapeGeometry.ProductBelow(spt, tracks);
    hdr := seq(29 * 1024, _ => 0);
    hdr := Put4(hdr, 0, TapeGeometry.HSEG_MAGIC);
    ghost var signed := hdr;
    hdr := hdr[4 := format];
    hdr := SegmentNumbers(hdr, total, format);
    ghost var numbered := hdr;
    hdr := Put4(Put4(Put4(hdr, 14, stamp), 18, stamp), 138, stamp);
    hdr := Put2(hdr, 24, spt);
    ghost var sized := hdr;
    hdr := hdr[26 := tracks][27 := (total - 1) / SEGS_PER_HEAD % 256][28 := 149][29 := 128];
    SameWord(signed, hdr, 0);
    SameWord(numbered, hdr, 242);
    SameWord(numbered, hdr, 246);
    SameWord(numbered, hdr, 10);
    SameWord(numbered, hdr, 6);
    SameWord(numbered, hdr, 234);
    SameWord(numbered, hdr, 238);
    SameWord(sized, hdr, 24);
  }

  /** The label and further dates and counts. */
  method HeaderRest(start: seq<byte>, title: seq<byte>, stamp: nat) returns (hdr: seq<byte>)
    requires |start| == SEGMENT_SIZE && stamp < 0x1_0000_0000
    ensures |hdr| == SEGMENT_SIZE && forall i :: 0 <= i < 30 || 146 <= i < SEGMENT_SIZE ==> hdr[i] == start[i]
  {
    hide Put2, Put4, TapeGeometry.Get2, TapeGeometry.Get4;
    var text := if |title| <= 44 then title else title[..44];
    hdr := start[..30] + text + seq(44 - |text|, _ => 32) + start[74..];
    hdr := Put4(hdr, 74, stamp);
    hdr := Put2(hdr, 78, 0);
    hdr := hdr[128 := 0];
    hdr := Put2(Put2(hdr, 142, 1), 144, 0);
  }

  lemma StatesKept(a: seq<byte>, b: seq<byte>, spt: nat, tracks: nat, format: int)
    requires |a| == |b| == SEGMENT_SIZE && States(a, spt, tracks, format)
    requires forall i :: 0 <= i < 30 || 146 <= i < SEGMENT_SIZE ==> b[i] == a[i]
    ensures States(b, spt, tracks, format)
  {
    hide TapeGeometry.Get2, TapeGeometry.Get4;
    SameWord(a, b, 0);
    SameWord(a, b, 242);
    SameWord(a, b, 246);
    SameWord(a, b, 10);
    SameWord(a, b, 6);
    SameWord(a, b, 234);
    SameWord(a, b, 238);
    SameWord(a, b, 24);
  }

  /** The wide fields for the big format, and the narrow ones if they can hold the numbers. */
  method SegmentNumbers(hdr0: seq<byte>, total: nat, format: int) returns (hdr: seq<byte>)
    requires |hdr0| == 29 * 1024 && 1 <= total < 0x100_0000 && (format == TapeGeometry.FMT_BIG || total - 1 <= 0xffff)
    ensures |hdr| == |hdr0|
    ensures if format == TapeGeometry.FMT_BIG
            then TapeGeometry.Get4(hdr, 242) == 2 && TapeGeometry.Get4(hdr, 246) == total - 1
            else TapeGeometry.Get2(hdr, 10) == 2 && TapeGeometry.Get2(hdr, 12) == total - 1
    ensures if format == TapeGeometry.FMT_BIG then TapeGeometry.Get4(hdr, 234) == 0 && TapeGeometry.Get4(hdr, 238) == 1
            else TapeGeometry.Get2(hdr, 6) == 0 && TapeGeometry.Get2(hdr, 8) == 1
    ensures forall i :: 0 <= i < |hdr| && !(6 <= i < 14) && !(234 <= i < 250) ==> hdr[i] == hdr0[i]
  {
    hdr := hdr0;
    if format == TapeGeometry.FMT_BIG {
      hdr := Put4(Put4(hdr, 234, 0), 238, 1);
      hdr := Put4(Put4(hdr, 242, 2), 246, total - 1);
    }
    if total - 1 <= 0xffff {
      hdr := Put2(Put2(hdr, 6, 0), 8, 1);
      hdr := Put2(Put2(hdr, 10, 2), 12, total - 1);
    }
  }

  lemma SameWord(a: seq<byte>, b: seq<byte>, k: nat)
    requires k + 4 <= |a| && k + 4 <= |b|
    ensures a[k] == b[k] && a[k + 1] == b[k + 1] ==> TapeGeometry.Get2(a, k) == TapeGeometry.Get2(b, k)
    ensures a[k + 2] == b[k + 2] && a[k + 3] == b[k + 3] ==> TapeGeometry.Get2(a, k + 2) == TapeGeometry.Get2(b, k + 2)
    ensures a[k] == b[k] && a[k + 1] == b[k + 1] && a[k + 2] == b[k + 2] && a[k + 3] == b[k + 3] ==>
              TapeGeometry.Get4(a, k) == TapeGeometry.Get4(b, k)
  {}

  lemma EncodingData(data: seq<byte>, seg: seq<byte>)
    requires DriverEncoding(data, seg)
    ensures |seg| == 32 * 1024 && seg[..SEGMENT_SIZE] == data
  {}

  /** No correction of known faults applies to a header of the writer. */
  lemma NothingCorrected(spt: nat, tracks: nat, format: int, last: int)
    requires spt * tracks >= 1
    ensures var g := TapeGeometry.Geometry(spt, tracks, (spt * tracks - 1) / SEGS_PER_HEAD % 256, 149, 128);
            TapeGeometry.Corrected(g, format, last) == g
  {}

  /** The driver's test accepts it if and only if the highest side fits its byte. */
  lemma WriterAccepted(spt: nat, tracks: nat)
    requires spt < 0x1_0000 && tracks < 256 && spt * tracks >= 1
    ensures var g := TapeGeometry.Geometry(spt, tracks, (spt * tracks - 1) / SEGS_PER_HEAD % 256, 149, 128);
            TapeGeometry.Acceptable(g, 4) <==> spt * tracks <= 153600
  {
    TapeGeometry.ProductBelow(spt, tracks);
    var q := (spt * tracks - 1) / SEGS_PER_HEAD;
    var g := TapeGeometry.Geometry(spt, tracks, q % 256, 149, 128);
    assert TapeGeometry.SegmentsPerHead(g) == 600;
    assert TapeGeometry.HighestSide(g) == q;
    NotForgiven(q);
    assert TapeGeometry.Forgiven(g) == g;
  }

  lemma NotForgiven(q: nat)
    requires q < 0x100_0000
    ensures TapeGeometry.U32(q % 256 - q) != 1
    ensures q % 256 == q <==> q < 256
  {}

  /** For every cartridge whose numbers fit the fields, the driver decodes the writer's header to the
      same tracks, segments and data area, exactly if there are at most 153600 segments. */
  method WriteAndDecode(spt: nat, tracks: nat, format: int, title: seq<byte>, stamp: nat)
    returns (o: TapeGeometry.Outcome, tape: TapeGeometry.Tape)
    requires stamp < 0x1_0000_0000 && Fits(spt, tracks, format) && 2 <= format <= 6
    ensures fresh(tape) && tape.segmentsPerCylinder == 4
    ensures o == TapeGeometry.Success <==> spt * tracks <= 153600
    ensures o == TapeGeometry.Success ==>
              && tape.segmentsPerTrack == spt && tape.tracksPerTape == tracks
              && tape.firstDataSegment == 2 && tape.lastDataSegment == spt * tracks - 1
              && tape.headerSegment1 == 0 && tape.headerSegment2 == 1
              && TapeGeometry.Decoded(tape.segmentsPerHead, 4, 149, spt * tracks)
  {
    hide TapeGeometry.Acceptable, TapeGeometry.Corrected, TapeGeometry.Decoded;
    hide DriverEncoding, TapeGeometry.RawGeometry, TapeGeometry.FirstSegment, TapeGeometry.LastSegment;
    hide TapeGeometry.HeaderSegment, TapeGeometry.Signed;
    var tab := EccTable();
    var seg := HeaderSegment(spt, tracks, format, title, stamp, tab[..]);
    tape := new TapeGeometry.Tape(4);
    var address := seg.value[..SEGMENT_SIZE];
    NothingCorrected(spt, tracks, format, TapeGeometry.LastSegment(address));
    WriterAccepted(spt, tracks);
    o := tape.DecodeHeader(address);
  }
}
