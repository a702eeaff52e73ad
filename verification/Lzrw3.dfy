/** The LZRW3 decompressor.  Copy items carry hash-table indexes instead of offsets, so that
    decoding depends on a table that is rebuilt while the text appears; the hashing of literals
    is delayed until three bytes are there.
 */
module Lzrw3 {
  import opened Bits
  import opened Options

  /** Source memory: the decompressor may read beyond a corrupt block. */
  type Memory = nat -> byte

  const TABLE_LENGTH := 4096
  const MAX_RAW_ITEM := 18
  const FLAG_BYTES := 4

  /** The table entry for the start string "123456789012345678". */
  const START := -1

  function StartByte(k: nat): byte
    requires k < MAX_RAW_ITEM
  {
    0x30 + (k + 1) % 10
  }

  // ----- decoding one item -----

  /** The text so far, the table of positions in it, and the number of pending literals. */
  datatype State = State(out: seq<byte>, table: seq<int>, literals: nat)

  function Initial(): State {
    State([], seq(TABLE_LENGTH, _ => START), 0)
  }

  /** Every table entry is the start string or a position at least three bytes back, and at most
      two literals wait to be hashed. */
  predicate Sound(st: State) {
    && |st.table| == TABLE_LENGTH
    && st.literals <= 2 && st.literals <= |st.out|
    && forall h :: 0 <= h < TABLE_LENGTH ==> st.table[h] == START || 0 <= st.table[h] <= |st.out| - 3
  }

  /** HASH: bits 4 to 15 of the product, which a 32-bit multiplication leaves alone. */
  function Hash(a: byte, b: byte, c: byte): (h: nat)
    ensures h < TABLE_LENGTH
  {
    40543 * Xor(Xor(256 * a, 16 * b), c) / 16 % 4096
  }

  function HashAt(out: seq<byte>, p: int): (h: nat)
    requires 0 <= p && p + 3 <= |out|
    ensures h < TABLE_LENGTH
  {
    Hash(out[p], out[p + 1], out[p + 2])
  }

  /** The byte at distance k from a table entry. */
  function SourceByte(text: seq<byte>, p: int, k: nat): byte
    requires k < MAX_RAW_ITEM && (p == START || (0 <= p && p + k < |text|))
  {
    if p == START then StartByte(k) else text[p + k]
  }

  /** The text after n bytes were copied one by one from entry p; the copy may overlap itself. */
  function Copied(out: seq<byte>, p: int, n: nat): (o: seq<byte>)
    requires n <= MAX_RAW_ITEM && (p == START || 0 <= p < |out|)
    ensures |o| == |out| + n && o[..|out|] == out
  {
    if n == 0 then out
    else
      var o := Copied(out, p, n - 1);
      o + [SourceByte(o, p, n - 1)]
  }

  datatype Item = Literal(b: byte) | Copy(index: nat, length: nat)

  predicate GoodItem(item: Item) {
    item.Copy? ==> item.index < TABLE_LENGTH && 3 <= item.length <= MAX_RAW_ITEM
  }

  function ApplyLiteral(st: State, b: byte): State
    requires Sound(st)
  {
    var out := st.out + [b];
    if st.literals + 1 == 3 then
      var p := |out| - 3;
      State(out, st.table[HashAt(out, p) := p], 2)
    else
      State(out, st.table, st.literals + 1)
  }

  /** Enters the pending literals before position ziv into the table. */
  function FlushLiterals(out: seq<byte>, table: seq<int>, ziv: int, literals: nat): (t: seq<int>)
    requires |table| == TABLE_LENGTH && literals <= 2 && literals <= ziv && ziv + 3 <= |out|
    ensures |t| == TABLE_LENGTH
  {
    if literals == 0 then table
    else
      var r := ziv - literals;
      var t := table[HashAt(out, r) := r];
      if literals == 2 then t[HashAt(out, r + 1) := r + 1] else t
  }

  function ApplyCopy(st: State, index: nat, length: nat): State
    requires Sound(st) && index < TABLE_LENGTH && 3 <= length <= MAX_RAW_ITEM
  {
    var out := Copied(st.out, st.table[index], length);
    State(out, FlushLiterals(out, st.table, |st.out|, st.literals)[index := |st.out|], 0)
  }

  function ApplyItem(st: State, item: Item): State
    requires Sound(st) && GoodItem(item)
  {
    match item
    case Literal(b) => ApplyLiteral(st, b)
    case Copy(index, length) => ApplyCopy(st, index, length)
  }

  function ItemLength(item: Item): nat {
    match item
    case Literal(_) => 1
    case Copy(_, length) => length
  }

  /** Every item keeps the state sound and extends the text by its length. */
  lemma ItemSound(st: State, item: Item)
    requires Sound(st) && GoodItem(item)
    ensures Sound(ApplyItem(st, item))
    ensures |ApplyItem(st, item).out| == |st.out| + ItemLength(item)
    ensures st.out <= ApplyItem(st, item).out
  {
    hide Hash;
  }

  // ----- decoding a block, one item at a time -----

  function NextItem(src: Memory, pos: nat, copy: bool): (item: Item)
    ensures GoodItem(item)
  {
    if copy then Copy(src(pos) / 16 * 256 + src(pos + 1), src(pos) % 16 + 3)
    else Literal(src(pos))
  }

  function ItemBytes(copy: bool): nat { if copy then 2 else 1 }

  /** The reference decoder: decode the item at pos, then go on. */
  function DecodeItem(src: Memory, post: nat, limit: nat, pos: nat, control: nat, st: State): (r: Option<seq<byte>>)
    requires Sound(st) && |st.out| <= limit && control >= 2
    decreases limit - |st.out|, 0
  {
    var copy := control % 2 == 1;
    var item := NextItem(src, pos, copy);
    ItemSound(st, item);
    var st' := ApplyItem(st, item);
    if |st'.out| > limit then None
    else DecodeFrom(src, post, limit, pos + ItemBytes(copy), control / 2, st')
  }

  /** The reference decoder between items: stop at the end of the block, and fetch a control
      word when the register is down to its sentinel bit. */
  function DecodeFrom(src: Memory, post: nat, limit: nat, pos: nat, control: nat, st: State): (r: Option<seq<byte>>)
    requires Sound(st) && |st.out| <= limit && control >= 1
    decreases limit - |st.out|, 1
  {
    if pos == post then Some(st.out)
    else if control == 1 then DecodeItem(src, post, limit, pos + 2, LoadControl(src, pos), st)
    else DecodeItem(src, post, limit, pos, control, st)
  }

  /** Sixteen control bits below a sentinel bit. */
  function LoadControl(src: Memory, pos: nat): nat {
    0x10000 + src(pos) + 256 * src(pos + 1)
  }

  // ----- the decompressor proper -----

  /** dst, hash and literals represent the state st. */
  ghost predicate Represents(dst: seq<byte>, pDst: int, hash: seq<int>, literals: nat, st: State) {
    && 0 <= pDst <= |dst| && dst[..pDst] == st.out && hash == st.table && literals == st.literals
  }

  /** Copies the bytes of one copy item, one by one. */
  method CopyBytes(dst: array<byte>, pDst: int, p: int, n: int)
    requires 0 <= n <= MAX_RAW_ITEM && 0 <= pDst && pDst + n <= dst.Length && (p == START || 0 <= p < pDst)
    modifies dst
    ensures dst[..pDst + n] == Copied(old(dst[..pDst]), p, n)
    ensures dst[pDst + n..] == old(dst[pDst + n..])
  {
    ghost var out := dst[..pDst];
    var k := 0;
    while k < n
      invariant 0 <= k <= n
      invariant dst[..pDst + k] == Copied(out, p, k)
      invariant dst[pDst + k..] == old(dst[pDst + k..])
    {
      ghost var o := dst[..pDst + k];
      var b := if p == START then StartByte(k) else dst[p + k];
      assert b == SourceByte(o, p, k);
      dst[pDst + k] := b;
      assert dst[..pDst + k + 1] == o + [b];
      k := k + 1;
    }
  }

  /** A literal item: store the byte, and hash the oldest of three consecutive literals. */
  method DoLiteral(b: byte, dst: array<byte>, pDst: int, hash: array<int>, literals: nat, ghost st: State)
    returns (literals': nat)
    requires Sound(st) && Represents(dst[..], pDst, hash[..], literals, st) && pDst < dst.Length
    modifies dst, hash
    ensures Represents(dst[..], pDst + 1, hash[..], literals', ApplyLiteral(st, b))
    ensures dst[pDst + 1..] == old(dst[pDst + 1..])
  {
    hide Hash;
    dst[pDst] := b;
    ghost var out := st.out + [b];
    assert dst[..pDst + 1] == out;
    literals' := literals + 1;
    if literals' == 3 {
      var p := pDst + 1 - 3;
      hash[Hash(dst[p], dst[p + 1], dst[p + 2])] := p;
      assert HashAt(out, p) == Hash(dst[p], dst[p + 1], dst[p + 2]);
      literals' := 2;
    }
  }

  /** A copy item: copy the bytes, flush the pending literals, and enter the new phrase. */
  method DoCopy(index: nat, length: nat, dst: array<byte>, pDst: int, hash: array<int>, literals: nat, ghost st: State)
    requires Sound(st) && Represents(dst[..], pDst, hash[..], literals, st)
    requires index < TABLE_LENGTH && 3 <= length <= MAX_RAW_ITEM && pDst + length <= dst.Length
    modifies dst, hash
    ensures Represents(dst[..], pDst + length, hash[..], 0, ApplyCopy(st, index, length))
    ensures dst[pDst + length..] == old(dst[pDst + length..])
  {
    hide Hash, Copied;
    var pZiv := pDst;
    assert dst[..][..pDst] == dst[..pDst];
    CopyBytes(dst, pDst, hash[index], length);
    ghost var out := Copied(st.out, st.table[index], length);
    assert dst[..pDst + length] == out;
    if literals > 0 {
      var r := pZiv - literals;
      assert HashAt(out, r) == Hash(dst[r], dst[r + 1], dst[r + 2]);
      hash[Hash(dst[r], dst[r + 1], dst[r + 2])] := r;
      if literals == 2 {
        r := r + 1;
        assert HashAt(out, r) == Hash(dst[r], dst[r + 1], dst[r + 2]);
        hash[Hash(dst[r], dst[r + 1], dst[r + 2])] := r;
      }
    }
    hash[index] := pZiv;
  }

  /** u more data bits are in the register, below the sentinel. */
  ghost predicate HasBits(control: nat, u: nat) {
    if u == 0 then control == 1 else HasBits(control / 2, u - 1)
  }

  lemma LoadedBits(src: Memory, pos: nat)
    ensures HasBits(LoadControl(src, pos), 16)
  {
    hide Pow2;
    var c := LoadControl(src, pos);
    assert 0x10000 <= c < 0x20000;
    SixteenBits();
    BitsOfRange(c, 16);
  }

  lemma SixteenBits()
    ensures Pow2(16) == 0x10000
  {
    assert Pow2(6) == 64;
    assert Pow2(11) == 2048;
  }

  lemma {:induction false} BitsOfRange(c: nat, n: nat)
    requires Pow2(n) <= c < 2 * Pow2(n)
    ensures HasBits(c, n)
  {
    if n == 0 {
    } else {
      BitsOfRange(c / 2, n - 1);
    }
  }

  /** One whole item of the inner loop. */
  method DoItem(src: Memory, pos: nat, control: nat, dst: array<byte>, pDst: int, hash: array<int>,
                literals: nat, ghost st: State)
    returns (pos': nat, pDst': int, literals': nat)
    requires Sound(st) && Represents(dst[..], pDst, hash[..], literals, st) && pDst + MAX_RAW_ITEM <= dst.Length
    modifies dst, hash
    ensures var copy := control % 2 == 1;
            && pos' == pos + ItemBytes(copy)
            && Represents(dst[..], pDst', hash[..], literals', ApplyItem(st, NextItem(src, pos, copy)))
    ensures pDst < pDst' <= pDst + MAX_RAW_ITEM && dst[pDst + MAX_RAW_ITEM..] == old(dst[pDst + MAX_RAW_ITEM..])
  {
    hide Sound, Copied, ApplyLiteral, ApplyCopy;
    if control % 2 == 1 {
      var lenmt := src(pos);
      var index := lenmt / 16 * 256 + src(pos + 1);
      var length := lenmt % 16 + 3;
      DoCopy(index, length, dst, pDst, hash, literals, st);
      pos', pDst', literals' := pos + 2, pDst + length, 0;
    } else {
      literals' := DoLiteral(src(pos), dst, pDst, hash, literals, st);
      pos', pDst' := pos + 1, pDst + 1;
    }
  }

  /** compress_decompress.  srcLen < 0 marks an uncompressed block of -srcLen bytes.  The answer is
      the length of the text, or 0 if it does not fit below the limit.  An uncompressed block is copied
      whatever the limit: beyond is the number of bytes that go behind the memory. */
  method Decompress(src: Memory, srcLen: int, dst: array<byte>, limit: nat) returns (len: nat, beyond: nat)
    requires dst.Length >= limit + MAX_RAW_ITEM
    modifies dst
    ensures beyond > 0 <==> srcLen < 0 && -srcLen > dst.Length
    ensures srcLen < 0 ==> len == -srcLen && forall k :: 0 <= k < len - beyond ==> k < dst.Length && dst[k] == src(k)
    ensures srcLen < 0 ==> 0 <= len - beyond <= dst.Length && dst[len - beyond..] == old(dst[len - beyond..])
    ensures srcLen >= 0 ==>
              match DecodeFrom(src, srcLen, limit, FLAG_BYTES, 1, Initial())
              case Some(text) => len == |text| <= dst.Length && dst[..len] == text
              case None => len == 0
    ensures srcLen >= 0 ==> dst[limit + MAX_RAW_ITEM..] == old(dst[limit + MAX_RAW_ITEM..])
  {
    hide Sound, ApplyItem, NextItem, DecodeItem, DecodeFrom, HasBits, LoadControl;
    if srcLen < 0 {
      var n := if -srcLen <= dst.Length then -srcLen else dst.Length;
      forall k | 0 <= k < n {
        dst[k] := src(k);
      }
      return -srcLen, -srcLen - n;
    }
    beyond := 0;
    var post := srcLen;
    var hash := new int[TABLE_LENGTH](_ => START);
    var pos: nat, pDst, control: nat, literals: nat := FLAG_BYTES, 0, 1, 0;
    ghost var st := Initial();
    InitialSound();
    ghost var result := DecodeFrom(src, post, limit, FLAG_BYTES, 1, st);
    assert hash[..] == st.table;
    while pos != post
      invariant Sound(st) && pDst <= limit && control >= 1
      invariant Represents(dst[..], pDst, hash[..], literals, st)
      invariant result == DecodeFrom(src, post, limit, pos, control, st)
      invariant control == 1 || pos > post - 32
      invariant dst[limit + MAX_RAW_ITEM..] == old(dst[limit + MAX_RAW_ITEM..])
      decreases limit - pDst
    {
      DecodeUnfold(src, post, limit, pos, control, st);
      if control == 1 {
        LoadedBits(src, pos);
        control := LoadControl(src, pos);
        pos := pos + 2;
      }
      var unroll := if pos <= post - 32 then 16 else 1;
      ghost var before := pDst;
      BitsFew(control);
      while unroll > 0
        invariant 0 <= unroll <= 16 && Sound(st) && pDst <= limit && control >= 1
        invariant Represents(dst[..], pDst, hash[..], literals, st)
        invariant unroll > 0 ==> control >= 2 && result == DecodeItem(src, post, limit, pos, control, st)
        invariant unroll == 0 ==> result == DecodeFrom(src, post, limit, pos, control, st)
        invariant (HasBits(control, unroll) && pos + 2 * unroll <= post) || (unroll <= 1 && pos > post - 32)
        invariant dst[limit + MAX_RAW_ITEM..] == old(dst[limit + MAX_RAW_ITEM..])
        invariant before <= pDst && (unroll == 0 ==> before < pDst)
        decreases unroll
      {
        ghost var item := NextItem(src, pos, control % 2 == 1);
        ItemSound(st, item);
        ItemUnfold(src, post, limit, pos, control, st);
        BitsStep(control, unroll);
        ghost var tail := dst[limit + MAX_RAW_ITEM..];
        ghost var beyond := dst[pDst + MAX_RAW_ITEM..];
        var pos', pDst', literals' := DoItem(src, pos, control, dst, pDst, hash, literals, st);
        assert dst[limit + MAX_RAW_ITEM..] == beyond[limit - pDst..] == tail;
        st := ApplyItem(st, item);
        control := control / 2;
        pos, pDst, literals := pos', pDst', literals';
        unroll := unroll - 1;
        if pDst > limit {
          return 0, 0;
        }
        DecodeUnfold(src, post, limit, pos, control, st);
      }
      BitsNone(control);
    }
    DecodeUnfold(src, post, limit, pos, control, st);
    len := pDst;
  }

  lemma InitialSound()
    ensures Sound(Initial())
  {}

  lemma DecodeUnfold(src: Memory, post: nat, limit: nat, pos: nat, control: nat, st: State)
    requires Sound(st) && |st.out| <= limit && control >= 1
    ensures DecodeFrom(src, post, limit, pos, control, st) ==
              if pos == post then Some(st.out)
              else if control == 1 then DecodeItem(src, post, limit, pos + 2, LoadControl(src, pos), st)
              else DecodeItem(src, post, limit, pos, control, st)
  {
    hide Sound, DecodeItem, LoadControl;
  }

  lemma ItemUnfold(src: Memory, post: nat, limit: nat, pos: nat, control: nat, st: State)
    requires Sound(st) && |st.out| <= limit && control >= 2
    ensures var copy := control % 2 == 1;
            var st' := ApplyItem(st, NextItem(src, pos, copy));
            && Sound(st')
            && DecodeItem(src, post, limit, pos, control, st) ==
               if |st'.out| > limit then None
               else DecodeFrom(src, post, limit, pos + ItemBytes(copy), control / 2, st')
  {
    hide Sound, DecodeFrom, ApplyItem, NextItem;
    ItemSound(st, NextItem(src, pos, control % 2 == 1));
  }

  lemma BitsStep(control: nat, u: nat)
    requires u > 0
    ensures HasBits(control, u) ==> HasBits(control / 2, u - 1)
    ensures HasBits(control, u) && u > 1 ==> control / 2 >= 2
  {
    if HasBits(control, u) && u > 1 {
      var half := control / 2;
      assert HasBits(half, u - 1);
      assert HasBits(half / 2, u - 2);
      BitsPositive(half / 2, u - 2);
    }
  }

  lemma {:induction false} BitsPositive(c: nat, u: nat)
    requires HasBits(c, u)
    ensures c >= 1
  {
    if u == 0 {
    } else {
      BitsPositive(c / 2, u - 1);
    }
  }

  lemma BitsFew(control: nat)
    ensures HasBits(control, 16) ==> control >= 2
  {
    if HasBits(control, 16) {
      var half := control / 2;
      assert HasBits(half, 15);
      BitsPositive(half, 15);
    }
  }

  lemma BitsNone(control: nat)
    ensures HasBits(control, 0) ==> control == 1
  {}
}
