/** A segment in memory: up to 32 blocks of 1024 bytes, stored one after the other.  The code
    works on columns, the bytes at the same offset of each block.
 */
module Columns {
  import opened Bits
  import opened SectorMaps
  import opened GaloisField
  import opened ReedSolomon
  import opened Erasures

  predicate Holds(mem: seq<byte>, blocks: int) {
    0 <= blocks && SECTOR_SIZE * blocks <= |mem|
  }

  function Column(mem: seq<byte>, blocks: int, c: int): (m: seq<byte>)
    requires Holds(mem, blocks) && 0 <= c < SECTOR_SIZE
    ensures |m| == blocks
  {
    seq(blocks, k requires 0 <= k < blocks => mem[SECTOR_SIZE * k + c])
  }

  lemma ColumnNext(mem: seq<byte>, k: int, c: int)
    requires 0 <= k && Holds(mem, k + 1) && 0 <= c < SECTOR_SIZE
    ensures Column(mem, k + 1, c) == Column(mem, k, c) + [mem[SECTOR_SIZE * k + c]]
    ensures Column(mem, k + 1, c)[..k] == Column(mem, k, c)
  {
    assert Column(mem, k + 1, c)[..k] == Column(mem, k, c);
  }

  /** Writing one byte changes one row of one column. */
  lemma ColumnUpdate(mem: seq<byte>, blocks: int, l: int, c: int, y: byte, d: int)
    requires Holds(mem, blocks) && 0 <= l < blocks && 0 <= c < SECTOR_SIZE && 0 <= d < SECTOR_SIZE
    ensures var mem' := mem[SECTOR_SIZE * l + c := y];
            Column(mem', blocks, d) == if d == c then Column(mem, blocks, c)[l := y] else Column(mem, blocks, d)
  {
    var mem' := mem[SECTOR_SIZE * l + c := y];
    forall k | 0 <= k < blocks
      ensures Column(mem', blocks, d)[k] == if d == c && k == l then y else Column(mem, blocks, d)[k]
    {
    }
  }

  /** Two segments with the same columns hold the same bytes. */
  lemma SameColumns(mem: seq<byte>, mem': seq<byte>, blocks: int)
    requires Holds(mem, blocks) && |mem'| == |mem|
    requires forall c :: 0 <= c < SECTOR_SIZE ==> Column(mem, blocks, c) == Column(mem', blocks, c)
    ensures mem[..SECTOR_SIZE * blocks] == mem'[..SECTOR_SIZE * blocks]
  {
    forall x | 0 <= x < SECTOR_SIZE * blocks
      ensures mem[x] == mem'[x]
    {
      var k, c := x / SECTOR_SIZE, x % SECTOR_SIZE;
      assert Column(mem, blocks, c)[k] == mem[x];
      assert Column(mem', blocks, c)[k] == mem'[x];
    }
  }

  /** Every column is a code word. */
  predicate ValidSegment(mem: seq<byte>, blocks: int)
    requires Holds(mem, blocks)
  {
    forall c :: 0 <= c < SECTOR_SIZE ==> Syndromes(Column(mem, blocks, c)) == NO_ERROR
  }

  // ----- what the decoder can repair -----

  /** Column c can be brought back to v, given that the rows in bad are known to be suspect:
      up to three suspect rows; or one suspect row and one further wrong byte; or no suspect
      row and one wrong byte. */
  ghost predicate Correctable(v: seq<byte>, c: seq<byte>, bad: seq<int>) {
    && Syndromes(v) == NO_ERROR
    && (|| v == c
        || (|bad| <= 3 && AgreeOutside(v, c, bad))
        || (|bad| == 0 && exists l :: 0 <= l < |c| && AgreeOutside(v, c, [l]))
        || (|bad| == 1 && exists l :: 0 <= l < |c| && l != bad[0] && AgreeOutside(v, c, [bad[0], l])))
  }

  ghost predicate CorrectableSegment(orig: seq<byte>, mem: seq<byte>, blocks: int, bad: seq<int>)
    requires Holds(mem, blocks)
  {
    && |orig| == |mem|
    && orig[SECTOR_SIZE * blocks..] == mem[SECTOR_SIZE * blocks..]
    && forall c :: 0 <= c < SECTOR_SIZE ==> Correctable(Column(orig, blocks, c), Column(mem, blocks, c), bad)
  }

  /** The flagged blocks in ascending order. */
  function FlaggedRows(flags: SectorMap, n: int): (ls: seq<int>)
    requires 0 <= n <= 32
  {
    if n == 0 then []
    else if flags[n - 1] then FlaggedRows(flags, n - 1) + [n - 1]
    else FlaggedRows(flags, n - 1)
  }

  predicate Ascending(ls: seq<int>) {
    forall i, k :: 0 <= i < k < |ls| ==> ls[i] < ls[k]
  }

  /** Every flagged block is listed once. */
  lemma {:induction false} FlaggedRowsExact(flags: SectorMap, n: int)
    requires 0 <= n <= 32
    ensures Rows(FlaggedRows(flags, n), n) && Ascending(FlaggedRows(flags, n))
    ensures forall k :: 0 <= k < n ==> (flags[k] <==> k in FlaggedRows(flags, n))
  {
    if n == 0 {
    } else {
      FlaggedRowsExact(flags, n - 1);
      var ls := FlaggedRows(flags, n - 1);
      if flags[n - 1] {
        assert FlaggedRows(flags, n) == ls + [n - 1];
      }
    }
  }

  /** Some byte of block r differs in the first n columns. */
  ghost predicate RowDiffers(mem: seq<byte>, mem': seq<byte>, blocks: int, r: int, n: int)
    requires Holds(mem, blocks) && Holds(mem', blocks) && 0 <= r < blocks && n <= SECTOR_SIZE
  {
    exists c :: 0 <= c < n && Column(mem, blocks, c)[r] != Column(mem', blocks, c)[r]
  }
}
