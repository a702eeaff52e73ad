/** Packing of a segment: the good sectors of a segment lie one after the other in the buffer, the
    bad ones take no space.  Maps of physical sectors have to be converted to maps of blocks.
 */
module Packing {
  import opened SectorMaps

  /** The good sectors before sector i, which is also the block where sector i goes. */
  function Packed(bad: SectorMap, i: nat): (k: nat)
    requires i <= 32
    ensures k <= i
  {
    i - CountOnes(bad[..i])
  }

  lemma PackedNext(bad: SectorMap, i: nat)
    requires i < 32
    ensures Packed(bad, i + 1) == Packed(bad, i) + (if bad[i] then 0 else 1)
    ensures Packed(bad, 0) == 0
  {
    CountNext(bad, i);
  }

  lemma {:induction false} PackedMonotone(bad: SectorMap, i: nat, j: nat)
    requires i <= j <= 32
    ensures Packed(bad, i) <= Packed(bad, j) <= Packed(bad, i) + (j - i)
    decreases j - i
  {
    if i == j {
    } else {
      PackedMonotone(bad, i, j - 1);
      PackedNext(bad, j - 1);
    }
  }

  lemma PackedBelow(bad: SectorMap, i: nat)
    requires i <= 32
    ensures Packed(bad, i) <= i
  {}

  /** Different good sectors go to different blocks, in the same order. */
  lemma PackedStrict(bad: SectorMap, i: nat, j: nat)
    requires i < j <= 32 && !bad[i]
    ensures Packed(bad, i) < Packed(bad, j)
  {
    PackedNext(bad, i);
    PackedMonotone(bad, i + 1, j);
  }

  /** A cluster of good sectors is packed without gaps. */
  lemma {:induction false} PackedCluster(bad: SectorMap, i: nat, n: nat)
    requires i + n <= 32 && forall s :: i <= s < i + n ==> !bad[s]
    ensures Packed(bad, i + n) == Packed(bad, i) + n
  {
    if n == 0 {
    } else {
      PackedCluster(bad, i, n - 1);
      PackedNext(bad, i + n - 1);
    }
  }

  /** Bad sectors take no space. */
  lemma {:induction false} PackedBadRun(bad: SectorMap, i: nat, j: nat)
    requires i <= j <= 32 && forall s :: i <= s < j ==> bad[s]
    ensures Packed(bad, j) == Packed(bad, i)
    decreases j - i
  {
    if i == j {
    } else {
      PackedBadRun(bad, i, j - 1);
      PackedNext(bad, j - 1);
    }
  }

  /** Every block below the number of good sectors holds a good sector. */
  lemma {:induction false} SectorOfBlock(bad: SectorMap, k: nat, j: nat) returns (s: nat)
    requires j <= 32 && k < Packed(bad, j)
    ensures s < j && !bad[s] && Packed(bad, s) == k
  {
    PackedNext(bad, j - 1);
    if Packed(bad, j - 1) == k {
      s := j - 1;
    } else {
      s := SectorOfBlock(bad, k, j - 1);
    }
  }

  /** dst flags the blocks of the good sectors below j that src flags, and nothing else. */
  ghost predicate ConvertedTo(bad: SectorMap, src: SectorMap, dst: SectorMap, j: nat)
    requires j <= 32
  {
    && (forall s: nat :: s < j && !bad[s] ==> Packed(bad, s) < 32 && dst[Packed(bad, s)] == src[s])
    && (forall k :: Packed(bad, j) <= k < 32 ==> !dst[k])
  }

  lemma ConvertedNext(bad: SectorMap, src: SectorMap, dst: SectorMap, j: nat)
    requires j < 32 && ConvertedTo(bad, src, dst, j)
    ensures bad[j] ==> ConvertedTo(bad, src, dst, j + 1)
    ensures var i := Packed(bad, j);
            !bad[j] ==> i < 32 && ConvertedTo(bad, src, if src[j] then SetBit(dst, i) else dst, j + 1)
  {
    hide Packed;
    PackedNext(bad, j);
    PackedMonotone(bad, 0, j);
    forall s: nat | s < j && !bad[s]
      ensures Packed(bad, s) < Packed(bad, j)
    {
      PackedStrict(bad, s, j);
    }
  }

  /** The sectors from j on are all good: their flags move together. */
  lemma ConvertedRest(bad: SectorMap, src: SectorMap, dst: SectorMap, j: nat)
    requires j <= 32 && ConvertedTo(bad, src, dst, j) && ShiftRight(bad, j) == NO_SECTORS
    ensures var i := Packed(bad, j);
            ConvertedTo(bad, src, Or(dst, ShiftLeft(ShiftRight(src, j), i)), 32)
  {
    hide Packed, NO_SECTORS;
    var i := Packed(bad, j);
    var dst' := Or(dst, ShiftLeft(ShiftRight(src, j), i));
    NothingLeft(bad, j);
    PackedCluster(bad, j, 32 - j);
    PackedNext(bad, 0);
    PackedMonotone(bad, 0, j);
    forall s: nat | s < 32 && !bad[s]
      ensures Packed(bad, s) < 32 && dst'[Packed(bad, s)] == src[s]
    {
      if s < j {
        PackedStrict(bad, s, j);
      } else {
        PackedCluster(bad, j, s - j);
      }
    }
  }

  /** convert_sector_map: the flag of each good sector moves to its block; flags of bad sectors
      are dropped and blocks without a sector are not flagged. */
  method ConvertSectorMap(bad: SectorMap, errors: SectorMap) returns (dst: SectorMap)
    ensures ConvertedTo(bad, errors, dst, 32)
  {
    hide Packed, ShiftRight, ShiftLeft, Or, ConvertedTo, NO_SECTORS, SetBit;
    var i, badMap, src := 0, bad, errors;
    dst := NO_SECTORS;
    ghost var j := 0;
    NothingConverted(bad, errors);
    ShiftRightTwice(bad, 0, 0);
    ShiftRightTwice(errors, 0, 0);
    ShiftOut(bad);
    while badMap != NO_SECTORS
      invariant 0 <= j <= 32 && i == Packed(bad, j)
      invariant badMap == ShiftRight(bad, j) && src == ShiftRight(errors, j)
      invariant ConvertedTo(bad, errors, dst, j)
      decreases 32 - j
    {
      while !badMap[0]
        invariant 0 <= j < 32 && i == Packed(bad, j)
        invariant badMap == ShiftRight(bad, j) && src == ShiftRight(errors, j)
        invariant badMap != NO_SECTORS
        invariant ConvertedTo(bad, errors, dst, j)
        decreases 32 - j
      {
        Step(bad, errors, dst, j);
        PastGood(bad, j);
        if src[0] {
          dst := SetBit(dst, i);
        }
        src := ShiftRight(src, 1);
        badMap := ShiftRight(badMap, 1);
        i, j := i + 1, j + 1;
      }
      Step(bad, errors, dst, j);
      src := ShiftRight(src, 1);
      badMap := ShiftRight(badMap, 1);
      j := j + 1;
    }
    ConvertedRest(bad, errors, dst, j);
    if src != NO_SECTORS {
      dst := Or(dst, ShiftLeft(src, i));
    } else {
      OrNothing(dst, i);
    }
  }

  lemma NothingConverted(bad: SectorMap, src: SectorMap)
    ensures Packed(bad, 0) == 0 && ConvertedTo(bad, src, NO_SECTORS, 0)
  {}

  lemma OrNothing(dst: SectorMap, i: nat)
    ensures Or(dst, ShiftLeft(NO_SECTORS, i)) == dst
  {}

  lemma PastGood(bad: SectorMap, j: nat)
    requires j < 32 && ShiftRight(bad, j) != NO_SECTORS && !bad[j]
    ensures j + 1 < 32 && ShiftRight(bad, j + 1) != NO_SECTORS
  {
    var m := ShiftRight(bad, j);
    NoneSet(m);
    var i :| 0 <= i < 32 && m[i];
    assert ShiftRight(bad, j + 1)[i - 1];
  }

  lemma NoneSet(m: SectorMap)
    ensures (forall i :: 0 <= i < 32 ==> !m[i]) ==> m == NO_SECTORS
  {}

  lemma Step(bad: SectorMap, src: SectorMap, dst: SectorMap, j: nat)
    requires j < 32 && ConvertedTo(bad, src, dst, j)
    ensures ShiftRight(bad, j)[0] == bad[j] && ShiftRight(src, j)[0] == src[j]
    ensures ShiftRight(ShiftRight(bad, j), 1) == ShiftRight(bad, j + 1)
    ensures ShiftRight(ShiftRight(src, j), 1) == ShiftRight(src, j + 1)
    ensures Packed(bad, j + 1) == Packed(bad, j) + (if bad[j] then 0 else 1)
    ensures bad[j] ==> ConvertedTo(bad, src, dst, j + 1)
    ensures var i := Packed(bad, j);
            !bad[j] ==> i < 32 && ConvertedTo(bad, src, if src[j] then SetBit(dst, i) else dst, j + 1)
  {
    hide Packed, ShiftRight, ConvertedTo, SetBit;
    CountNext(bad, j);
    CountNext(src, j);
    ShiftRightTwice(bad, j, 1);
    ShiftRightTwice(src, j, 1);
    PackedNext(bad, j);
    ConvertedNext(bad, src, dst, j);
  }

  /** The mask with as many low bits as there are good sectors below offset: one bit of the plain
      offset mask is shifted out for every bad sector. */
  method SkipMask(bad: SectorMap, offset: nat) returns (offsetMask: SectorMap)
    requires offset < 32
    ensures offsetMask == LowMask(Packed(bad, offset))
  {
    hide ShiftRight, And, LowMask, NO_SECTORS, CountOnes;
    offsetMask := LowMask(offset);
    ghost var below := And(bad, LowMask(offset));
    var mask := And(bad, LowMask(offset));
    ghost var k := 0;
    ShiftRightTwice(below, 0, 0);
    ShiftOut(below);
    CountBelow(bad, offset);
    CountNone(below[..0]);
    while mask != NO_SECTORS
      invariant 0 <= k <= 32 && mask == ShiftRight(below, k)
      invariant CountOnes(below[..k]) <= offset && offsetMask == LowMask(offset - CountOnes(below[..k]))
      decreases 32 - k
    {
      CountNext(below, k);
      CountPrefix(below, k + 1);
      ShiftRightTwice(below, k, 1);
      if mask[0] {
        LowMaskShift(offset - CountOnes(below[..k]));
        offsetMask := ShiftRight(offsetMask, 1);
      }
      mask := ShiftRight(mask, 1);
      k := k + 1;
    }
    CountRest(below, k);
  }

  lemma LowMaskShift(n: nat)
    requires n > 0
    ensures n <= 32 ==> ShiftRight(LowMask(n), 1) == LowMask(n - 1)
  {}

  lemma CountLowMask(n: nat)
    requires n <= 32
    ensures CountOnes(LowMask(n)) == n
  {
    CountNone(LowMask(n)[..n]);
    CountNone(LowMask(n)[n..]);
    CountConcat(LowMask(n)[..n], LowMask(n)[n..]);
    assert LowMask(n) == LowMask(n)[..n] + LowMask(n)[n..];
  }

  lemma CountPrefix(m: SectorMap, k: nat)
    requires k <= 32
    ensures CountOnes(m[..k]) <= CountOnes(m)
  {
    CountConcat(m[..k], m[k..]);
    assert m == m[..k] + m[k..];
  }

  lemma CountRest(m: SectorMap, k: nat)
    requires k <= 32 && ShiftRight(m, k) == NO_SECTORS
    ensures CountOnes(m[..k]) == CountOnes(m)
  {
    NothingLeft(m, k);
    CountNone(m[k..]);
    CountConcat(m[..k], m[k..]);
    assert m == m[..k] + m[k..];
  }

  lemma CountBelow(bad: SectorMap, offset: nat)
    requires offset <= 32
    ensures CountOnes(And(bad, LowMask(offset))) == CountOnes(bad[..offset]) <= offset
  {
    var m := And(bad, LowMask(offset));
    assert m[..offset] == bad[..offset];
    CountNone(m[offset..]);
    CountConcat(m[..offset], m[offset..]);
    assert m == m[..offset] + m[offset..];
  }
}
