/** 32-bit sector maps.  Bit i of a map stands for sector i of a segment; a map is kept as the
    sequence of its bits, least significant first, so that shifting right drops elements from
    the front.
 */
module SectorMaps {

  const SECTORS_PER_SEGMENT := 32
  const SECTOR_SIZE := 1024
  const ECC_SECTORS := 3
  const SEGMENT_SIZE := (SECTORS_PER_SEGMENT - ECC_SECTORS) * SECTOR_SIZE

  type SectorMap = m: seq<bool> | |m| == 32 witness seq(32, _ => false)

  /** All bits alike. */
  function Uniform(b: bool): SectorMap {
    seq(32, _ => b)
  }

  const NO_SECTORS: SectorMap := Uniform(false)

  /** 0xffffffff: a segment without any good sector. */
  const EMPTY_SEGMENT: SectorMap := Uniform(true)

  /** 0xfffffffe: stands in for EMPTY_SEGMENT while such a segment is transferred. */
  const FAKE_SEGMENT: SectorMap := Uniform(true)[0 := false]

  function Or(a: SectorMap, b: SectorMap): SectorMap {
    seq(32, i requires 0 <= i < 32 => a[i] || b[i])
  }

  function And(a: SectorMap, b: SectorMap): SectorMap {
    seq(32, i requires 0 <= i < 32 => a[i] && b[i])
  }

  function AndNot(a: SectorMap, b: SectorMap): SectorMap {
    seq(32, i requires 0 <= i < 32 => a[i] && !b[i])
  }

  /** (1 << k) - 1 */
  function LowMask(k: nat): SectorMap {
    seq(32, i => i < k)
  }

  /** m >> k */
  function ShiftRight(m: SectorMap, k: nat): SectorMap {
    seq(32, i requires 0 <= i < 32 => i + k < 32 && m[i + k])
  }

  /** m << k */
  function ShiftLeft(m: SectorMap, k: nat): SectorMap {
    seq(32, i requires 0 <= i < 32 => k <= i && m[i - k])
  }

  /** m | (1 << i) */
  function SetBit(m: SectorMap, i: nat): SectorMap
    requires i < 32
  {
    m[i := true]
  }

  /** The number of set bits. */
  function CountOnes(m: seq<bool>): (n: nat)
    ensures n <= |m|
  {
    if |m| == 0 then 0 else CountOnes(m[..|m| - 1]) + (if m[|m| - 1] then 1 else 0)
  }

  /** Data bytes of a segment; negative if not even the parity blocks fit. */
  function SegmentBytes(bad: SectorMap): (n: int)
    ensures n <= SEGMENT_SIZE
  {
    SEGMENT_SIZE - SECTOR_SIZE * CountOnes(bad)
  }

  /** Data bytes that a segment can hold. */
  function PayloadSize(bad: SectorMap): nat {
    if SegmentBytes(bad) <= 0 then 0 else SegmentBytes(bad)
  }

  lemma ShiftRightTwice(m: SectorMap, j: nat, k: nat)
    ensures ShiftRight(ShiftRight(m, j), k) == ShiftRight(m, j + k)
    ensures ShiftRight(m, 0) == m
  {}

  lemma ShiftOut(m: SectorMap)
    ensures ShiftRight(m, 32) == NO_SECTORS
  {}

  lemma {:induction false} CountConcat(a: seq<bool>, b: seq<bool>)
    ensures CountOnes(a + b) == CountOnes(a) + CountOnes(b)
  {
    if |b| == 0 {
      assert a + b == a;
    } else {
      CountConcat(a, b[..|b| - 1]);
      assert (a + b)[..|a + b| - 1] == a + b[..|b| - 1];
    }
  }

  lemma {:induction false} CountNone(m: seq<bool>)
    ensures CountOnes(m) == 0 <==> forall i :: 0 <= i < |m| ==> !m[i]
    ensures CountOnes(m) == |m| <==> forall i :: 0 <= i < |m| ==> m[i]
  {
    if |m| == 0 {
    } else {
      CountNone(m[..|m| - 1]);
    }
  }

  /** Setting one clear bit adds one to the count. */
  lemma {:induction false} CountSetBit(m: seq<bool>, i: nat)
    requires i < |m|
    ensures CountOnes(m[i := true]) == CountOnes(m) + (if m[i] then 0 else 1)
  {
    var k := |m| - 1;
    if i == k {
      assert m[i := true][..k] == m[..k];
    } else {
      CountSetBit(m[..k], i);
      assert m[i := true][..k] == m[..k][i := true];
    }
  }

  lemma CountNext(m: SectorMap, k: nat)
    requires k < 32
    ensures CountOnes(m[..k + 1]) == CountOnes(m[..k]) + (if m[k] then 1 else 0)
    ensures ShiftRight(m, k)[0] == m[k]
  {
    assert m[..k + 1][..k] == m[..k];
  }

  lemma NothingLeft(m: SectorMap, k: nat)
    requires k <= 32 && ShiftRight(m, k) == NO_SECTORS
    ensures forall i :: k <= i < 32 ==> !m[i]
  {
    forall i | k <= i < 32
      ensures !m[i]
    {
      assert ShiftRight(m, k)[i - k] == NO_SECTORS[i - k];
    }
  }

  /** count_ones: shift the map out bit by bit. */
  method CountOnesLoop(mask: SectorMap) returns (bits: nat)
    ensures bits == CountOnes(mask)
  {
    hide ShiftRight, CountOnes, NO_SECTORS;
    bits := 0;
    var m := mask;
    ghost var k := 0;
    ShiftOut(mask);
    ShiftRightTwice(mask, 0, 0);
    CountNone(mask[..0]);
    while m != NO_SECTORS
      invariant 0 <= k <= 32
      invariant m == ShiftRight(mask, k)
      invariant bits == CountOnes(mask[..k])
      decreases 32 - k
    {
      CountNext(mask, k);
      ShiftRightTwice(mask, k, 1);
      if m[0] {
        bits := bits + 1;
      }
      m := ShiftRight(m, 1);
      k := k + 1;
    }
    NothingLeft(mask, k);
    CountNone(mask[k..]);
    CountConcat(mask[..k], mask[k..]);
    assert mask == mask[..k] + mask[k..];
  }
}
