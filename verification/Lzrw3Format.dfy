/** The LZRW3 file format: groups of up to sixteen items behind a control word.  Whatever legal
    choice of items a compressor makes for a text, the decompressor gives the text back.
 */
module Lzrw3Format {
  import opened Bits
  import opened Options
  import opened Lzrw3

  // ----- legal item sequences -----

  /** The next bytes of the text are those that table entry p points to. */
  predicate Matches(text: seq<byte>, pos: int, p: int, length: nat) {
    && length <= MAX_RAW_ITEM && 0 <= pos && pos + length <= |text| && (p == START || 0 <= p < pos)
    && forall k :: 0 <= k < length ==> text[pos + k] == SourceByte(text, p, k)
  }

  /** item may stand for the text at the current position. */
  predicate Fitting(text: seq<byte>, st: State, item: Item)
    requires Sound(st)
  {
    && GoodItem(item)
    && match item
       case Literal(b) => |st.out| < |text| && text[|st.out|] == b
       case Copy(index, length) => Matches(text, |st.out|, st.table[index], length)
  }

  /** The items describe the rest of the text, starting from state st. */
  ghost predicate Legal(text: seq<byte>, st: State, items: seq<Item>)
    requires Sound(st)
    decreases |items|
  {
    if |items| == 0 then |st.out| == |text|
    else
      && Fitting(text, st, items[0])
      && (ItemSound(st, items[0]); Legal(text, ApplyItem(st, items[0]), items[1..]))
  }

  /** A matching copy appends the next bytes of the text, even where it overlaps itself. */
  lemma {:induction false} CopyMatches(text: seq<byte>, out: seq<byte>, p: int, length: nat)
    requires out <= text && Matches(text, |out|, p, length)
    ensures Copied(out, p, length) == text[..|out| + length]
  {
    if length == 0 {
    } else {
      var k := length - 1;
      CopyMatches(text, out, p, k);
      var o := Copied(out, p, k);
      assert o == text[..|out| + k];
      assert SourceByte(o, p, k) == SourceByte(text, p, k) == text[|out| + k];
    }
  }

  lemma FittingExtends(text: seq<byte>, st: State, item: Item)
    requires Sound(st) && st.out <= text && Fitting(text, st, item)
    ensures Sound(ApplyItem(st, item)) && ApplyItem(st, item).out <= text
  {
    hide Hash;
    ItemSound(st, item);
    match item {
      case Literal(b) =>
      case Copy(index, length) =>
        CopyMatches(text, st.out, st.table[index], length);
    }
  }

  // ----- the format -----

  function ItemCode(item: Item): (code: seq<byte>)
    requires GoodItem(item)
    ensures |code| == ItemBytes(item.Copy?)
  {
    match item
    case Literal(b) => [b]
    case Copy(index, length) => [index / 256 * 16 + (length - 3), index % 256]
  }

  predicate GoodItems(items: seq<Item>) {
    forall i :: 0 <= i < |items| ==> GoodItem(items[i])
  }

  function ItemsCode(items: seq<Item>): seq<byte>
    requires GoodItems(items)
  {
    if |items| == 0 then [] else ItemCode(items[0]) + ItemsCode(items[1..])
  }

  /** The n control bits of a group, first item first; bits without an item are zero. */
  function ControlBits(items: seq<Item>, n: nat): (bits: seq<bool>)
    ensures |bits| == n
  {
    if n == 0 then []
    else if |items| == 0 then [false] + ControlBits([], n - 1)
    else [items[0].Copy?] + ControlBits(items[1..], n - 1)
  }

  /** The number with these bits, least significant first. */
  function BitsValue(bits: seq<bool>): nat {
    if |bits| == 0 then 0 else (if bits[0] then 1 else 0) + 2 * BitsValue(bits[1..])
  }

  /** Two control bytes, the low one first, then the items. */
  function GroupCode(items: seq<Item>): seq<byte>
    requires GoodItems(items) && |items| <= 16
  {
    var w := ControlWord(items);
    [w % 256, w / 256] + ItemsCode(items)
  }

  function ControlWord(items: seq<Item>): (w: nat)
    ensures w < 0x10000
  {
    var bits := ControlBits(items, 16);
    BitsBelow(bits);
    SixteenBits();
    BitsValue(bits)
  }

  lemma {:induction false} BitsBelow(bits: seq<bool>)
    ensures BitsValue(bits) < Pow2(|bits|)
  {
    if |bits| == 0 {
    } else {
      BitsBelow(bits[1..]);
    }
  }

  function GroupSize(items: seq<Item>): nat { if |items| <= 16 then |items| else 16 }

  /** All groups of a file; every group but the last has sixteen items. */
  function Encode(items: seq<Item>): seq<byte>
    requires GoodItems(items)
    decreases |items|
  {
    if |items| == 0 then []
    else
      var g := GroupSize(items);
      GroupCode(items[..g]) + Encode(items[g..])
  }

  // ----- the control register -----

  /** The register with these bits still to come, below the sentinel. */
  function Register(bits: seq<bool>): (r: nat)
    ensures r >= 1 && (|bits| > 0 ==> r >= 2)
  {
    if |bits| == 0 then 1 else (if bits[0] then 1 else 0) + 2 * Register(bits[1..])
  }

  lemma {:induction false} RegisterValue(bits: seq<bool>)
    ensures Register(bits) == Pow2(|bits|) + BitsValue(bits)
  {
    if |bits| == 0 {
    } else {
      RegisterValue(bits[1..]);
    }
  }

  lemma RegisterStep(bits: seq<bool>)
    requires |bits| > 0
    ensures (Register(bits) % 2 == 1) == bits[0] && Register(bits) / 2 == Register(bits[1..])
  {
    RegisterDigits(Register(bits), Register(bits[1..]), bits[0]);
  }

  lemma RegisterDigits(whole: nat, rest: nat, bit: bool)
    requires whole == (if bit then 1 else 0) + 2 * rest
    ensures (whole % 2 == 1) == bit && whole / 2 == rest
  {}

  /** The source holds code at position pos. */
  ghost predicate Holds(src: Memory, pos: nat, code: seq<byte>) {
    forall k :: 0 <= k < |code| ==> src(pos + k) == code[k]
  }

  lemma HoldsSplit(src: Memory, pos: nat, a: seq<byte>, b: seq<byte>)
    requires Holds(src, pos, a + b)
    ensures Holds(src, pos, a) && Holds(src, pos + |a|, b)
  {
    forall k | 0 <= k < |b|
      ensures src(pos + |a| + k) == b[k]
    {
      assert (a + b)[|a| + k] == b[k];
      assert src(pos + (|a| + k)) == (a + b)[|a| + k];
    }
    forall k | 0 <= k < |a|
      ensures src(pos + k) == a[k]
    {
      assert (a + b)[k] == a[k];
    }
  }

  /** What was encoded as an item is read back as that item. */
  lemma ItemRead(src: Memory, pos: nat, item: Item)
    requires GoodItem(item) && Holds(src, pos, ItemCode(item))
    ensures NextItem(src, pos, item.Copy?) == item
  {
    var code := ItemCode(item);
    assert src(pos + 0) == code[0];
    match item {
      case Literal(b) =>
      case Copy(index, length) =>
        assert src(pos + 1) == code[1];
        DivModUnique(code[0], 16, index / 256, length - 3);
    }
  }

  lemma ControlRead(src: Memory, pos: nat, items: seq<Item>)
    requires Holds(src, pos, [ControlWord(items) % 256, ControlWord(items) / 256])
    ensures LoadControl(src, pos) == Register(ControlBits(items, 16))
  {
    var w := ControlWord(items);
    var code: seq<byte> := [w % 256, w / 256];
    assert src(pos + 0) == code[0] && src(pos + 1) == code[1];
    hide ControlBits;
    RegisterValue(ControlBits(items, 16));
    SixteenBits();
  }

  // ----- decoding gives the text back -----

  /** Inside a group: items g are left of it, with control bits bits; then the other groups. */
  ghost predicate MidGroup(src: Memory, post: nat, pos: nat, text: seq<byte>, st: State,
                           g: seq<Item>, bits: seq<bool>, later: seq<Item>) {
    && GoodItems(g) && GoodItems(later) && Sound(st) && st.out <= text
    && |g| <= |bits| && bits == ControlBits(g, |bits|) && (|later| > 0 ==> |g| == |bits|)
    && Legal(text, st, g + later)
    && Holds(src, pos, ItemsCode(g) + Encode(later)) && post == pos + |ItemsCode(g) + Encode(later)|
  }

  lemma {:induction false} DecodeMidGroup(src: Memory, post: nat, limit: nat, pos: nat, text: seq<byte>, st: State,
                                          g: seq<Item>, bits: seq<bool>, later: seq<Item>)
    requires MidGroup(src, post, pos, text, st, g, bits, later) && |text| <= limit
    ensures DecodeFrom(src, post, limit, pos, Register(bits), st) == Some(text)
    decreases |g| + |later|, 1
  {
    hide Sound, DecodeFrom, DecodeItem, Register, Encode, ItemsCode, ControlBits, LoadControl, Holds;
    if |g| > 0 {
      EncodedNonEmpty(g, later);
      DecodeUnfold(src, post, limit, pos, Register(bits), st);
      BitsNonEmpty(bits);
      DecodeFirst(src, post, limit, pos, text, st, g, bits, later);
    } else if |later| == 0 {
      EndOfText(src, post, pos, text, st, g, bits, later);
      DecodeUnfold(src, post, limit, pos, Register(bits), st);
    } else {
      var n := GroupSize(later);
      var g', later' := later[..n], later[n..];
      StartGroup(src, post, pos, text, st, g, bits, later);
      DecodeUnfold(src, post, limit, pos, Register(bits), st);
      DecodeFirst(src, post, limit, pos + 2, text, st, g', ControlBits(g', 16), later');
    }
  }

  lemma BitsNonEmpty(bits: seq<bool>)
    requires |bits| > 0
    ensures Register(bits) >= 2
  {}

  lemma EncodedNonEmpty(g: seq<Item>, later: seq<Item>)
    requires GoodItems(g) && GoodItems(later)
    ensures |g| > 0 ==> |ItemsCode(g) + Encode(later)| > 0
    ensures |later| > 0 ==> |ItemsCode(g) + Encode(later)| > 0
  {}

  lemma EndOfText(src: Memory, post: nat, pos: nat, text: seq<byte>, st: State, g: seq<Item>, bits: seq<bool>,
                  later: seq<Item>)
    requires MidGroup(src, post, pos, text, st, g, bits, later) && |g| == 0 && |later| == 0
    ensures pos == post && st.out == text
  {
    hide Sound;
    assert g + later == [];
  }

  /** At the end of a full group the next control word is fetched. */
  lemma StartGroup(src: Memory, post: nat, pos: nat, text: seq<byte>, st: State, g: seq<Item>, bits: seq<bool>,
                   later: seq<Item>)
    requires MidGroup(src, post, pos, text, st, g, bits, later) && |g| == 0 && |later| > 0
    ensures Register(bits) == 1 && pos != post
    ensures var n := GroupSize(later);
            var g', later' := later[..n], later[n..];
            && MidGroup(src, post, pos + 2, text, st, g', ControlBits(g', 16), later')
            && LoadControl(src, pos) == Register(ControlBits(g', 16))
  {
    hide Sound, ControlBits, LoadControl, Legal, Holds;
    var n := GroupSize(later);
    var g', later' := later[..n], later[n..];
    var w := ControlWord(g');
    var head: seq<byte> := [w % 256, w / 256];
    assert g + later == later == g' + later';
    GroupLayout(g, later);
    HoldsSplit(src, pos, head, ItemsCode(g') + Encode(later'));
    ControlRead(src, pos, g');
    ControlBitsPrefix(g', 16);
  }

  lemma GroupLayout(g: seq<Item>, later: seq<Item>)
    requires GoodItems(g) && GoodItems(later) && |g| == 0 && |later| > 0
    ensures var n := GroupSize(later);
            var g', later' := later[..n], later[n..];
            ItemsCode(g) + Encode(later) ==
              [ControlWord(g') % 256, ControlWord(g') / 256] + (ItemsCode(g') + Encode(later'))
  {
    hide ControlWord;
  }

  lemma ControlBitsPrefix(items: seq<Item>, n: nat)
    ensures |ControlBits(items, n)| == n
  {}

  /** One item of a group: decode it, and go on behind it. */
  lemma DecodeFirst(src: Memory, post: nat, limit: nat, pos: nat, text: seq<byte>, st: State,
                    g: seq<Item>, bits: seq<bool>, later: seq<Item>)
    requires MidGroup(src, post, pos, text, st, g, bits, later) && |text| <= limit && |g| > 0
    ensures Register(bits) >= 2 && DecodeItem(src, post, limit, pos, Register(bits), st) == Some(text)
    decreases |g| + |later|, 0
  {
    hide Sound, DecodeFrom, DecodeItem, Register, Encode, ItemsCode, ControlBits, Holds, ApplyItem, NextItem;
    var item := g[0];
    var pos', st' := pos + ItemBytes(item.Copy?), ApplyItem(st, item);
    BitsNonEmpty(bits);
    RegisterStep(bits);
    AfterItem(src, post, pos, text, st, g, bits, later);
    ItemUnfold(src, post, limit, pos, Register(bits), st);
    DecodeMidGroup(src, post, limit, pos', text, st', g[1..], bits[1..], later);
  }

  lemma AfterItem(src: Memory, post: nat, pos: nat, text: seq<byte>, st: State, g: seq<Item>, bits: seq<bool>,
                  later: seq<Item>)
    requires MidGroup(src, post, pos, text, st, g, bits, later) && |g| > 0
    ensures bits[0] == g[0].Copy? && NextItem(src, pos, bits[0]) == g[0]
    ensures MidGroup(src, post, pos + ItemBytes(g[0].Copy?), text, ApplyItem(st, g[0]), g[1..], bits[1..], later)
  {
    hide Sound, Encode, Holds, ApplyItem, NextItem, Fitting;
    var item := g[0];
    var code, rest := ItemCode(item), ItemsCode(g[1..]) + Encode(later);
    assert ItemsCode(g) + Encode(later) == code + rest;
    HoldsSplit(src, pos, code, rest);
    ItemRead(src, pos, item);
    assert (g + later)[0] == item && (g + later)[1..] == g[1..] + later;
    assert Fitting(text, st, item);
    FittingExtends(text, st, item);
    assert bits[1..] == ControlBits(g[1..], |bits| - 1);
  }

  /** For every text and every item sequence for it that is legal at the table, decoding the serialised items
      gives the text, provided the limit is not below its length. */
  lemma LegalRoundTrip(src: Memory, text: seq<byte>, items: seq<Item>, limit: nat)
    requires GoodItems(items) && (InitialSound(); Legal(text, Initial(), items))
    requires Holds(src, FLAG_BYTES, Encode(items)) && |text| <= limit
    ensures DecodeFrom(src, FLAG_BYTES + |Encode(items)|, limit, FLAG_BYTES, 1, Initial()) == Some(text)
  {
    hide Sound, DecodeFrom, Encode, Holds, Legal;
    InitialSound();
    var post := FLAG_BYTES + |Encode(items)|;
    var none: seq<Item> := [];
    assert ItemsCode(none) == [];
    assert [] + Encode(items) == Encode(items);
    assert none + items == items;
    assert ControlBits(none, 0) == [];
    assert Register([]) == 1;
    DecodeMidGroup(src, post, limit, FLAG_BYTES, text, Initial(), none, [], items);
  }

  // ----- what a block that can be decoded looks like -----

  /** Starting at pos with this control register, the stream holds these items and ends at post. */
  ghost predicate Spells(src: Memory, pos: nat, control: nat, items: seq<Item>, post: nat)
    decreases |items|
  {
    if |items| == 0 then pos == post
    else
      var c, p := if control == 1 then LoadControl(src, pos) else control, if control == 1 then pos + 2 else pos;
      && items[0] == NextItem(src, p, c % 2 == 1)
      && Spells(src, p + ItemBytes(c % 2 == 1), c / 2, items[1..], post)
  }

  /** The state after all items. */
  ghost function ApplyAll(st: State, items: seq<Item>): (r: State)
    requires Sound(st) && GoodItems(items)
    ensures Sound(r)
    decreases |items|
  {
    if |items| == 0 then st
    else
      ItemSound(st, items[0]);
      ApplyAll(ApplyItem(st, items[0]), items[1..])
  }

  /** On every stream: if decoding succeeds, the source up to post is exactly a sequence of items, and
      the text is what they produce; nothing behind post has been consumed. */
  lemma {:induction false} DecodedItems(src: Memory, post: nat, limit: nat, pos: nat, control: nat, st: State)
    returns (items: seq<Item>)
    requires Sound(st) && |st.out| <= limit && control >= 1
    requires DecodeFrom(src, post, limit, pos, control, st).Some?
    ensures GoodItems(items) && Spells(src, pos, control, items, post)
    ensures DecodeFrom(src, post, limit, pos, control, st) == Some(ApplyAll(st, items).out)
    decreases limit - |st.out|
  {
    hide Sound, DecodeFrom, DecodeItem, ApplyItem, NextItem, LoadControl;
    DecodeUnfold(src, post, limit, pos, control, st);
    if pos == post {
      items := [];
    } else {
      LoadedLarge(src, pos);
      var c, p := if control == 1 then LoadControl(src, pos) else control, if control == 1 then pos + 2 else pos;
      var item := NextItem(src, p, c % 2 == 1);
      ItemUnfold(src, post, limit, p, c, st);
      ItemSound(st, item);
      var rest := DecodedItems(src, post, limit, p + ItemBytes(c % 2 == 1), c / 2, ApplyItem(st, item));
      items := [item] + rest;
      assert items[1..] == rest;
    }
  }

  lemma LoadedLarge(src: Memory, pos: nat)
    ensures LoadControl(src, pos) >= 2
  {}
}
