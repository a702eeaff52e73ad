/** What the decompressor's hash table is, told from the items and the text alone: under each key it has the
    start of the last phrase that was entered, and every phrase is entered as soon as three of its bytes are there.
 */
module Lzrw3Table {
  import opened Bits
  import opened Options
  import opened Lzrw3
  import opened Lzrw3Format

  // ----- phrases -----

  function TextLength(items: seq<Item>): nat {
    if |items| == 0 then 0 else TextLength(items[..|items| - 1]) + ItemLength(items[|items| - 1])
  }

  /** The phrase of item i begins here. */
  function StartOf(items: seq<Item>, i: nat): nat
    requires i <= |items|
  {
    TextLength(items[..i])
  }

  /** The key of a phrase that begins at p: the index in a copy item, and for a literal the hash of the three
      bytes from there on. */
  function Key(text: seq<byte>, item: Item, p: nat): nat
    requires p + 3 <= |text|
  {
    match item
    case Literal(_) => HashAt(text, p)
    case Copy(index, _) => index
  }

  /** Phrase i has been entered under key h once the text is there. */
  predicate Entered(text: seq<byte>, items: seq<Item>, i: nat, h: nat)
    requires i < |items|
  {
    var p := StartOf(items, i);
    p + 3 <= |text| && Key(text, items[i], p) == h
  }

  /** The start of the last phrase entered under h. */
  function LastEntered(text: seq<byte>, items: seq<Item>, h: nat): int {
    if |items| == 0 then START
    else
      var n := |items| - 1;
      if Entered(text, items, n, h) then StartOf(items, n) else LastEntered(text, items[..n], h)
  }

  lemma StartPrefix(items: seq<Item>, n: nat, i: nat)
    requires i <= n <= |items|
    ensures StartOf(items[..n], i) == StartOf(items, i)
  {
    assert items[..n][..i] == items[..i];
  }

  lemma {:induction false} LastEnteredIs(text: seq<byte>, items: seq<Item>, h: nat)
    ensures var e := LastEntered(text, items, h);
            || (e == START && forall i :: 0 <= i < |items| ==> !Entered(text, items, i, h))
            || exists i :: 0 <= i < |items| && e == StartOf(items, i) && Entered(text, items, i, h)
                           && forall j :: i < j < |items| ==> !Entered(text, items, j, h)
  {
    hide Key, StartOf;
    if |items| == 0 {
    } else {
      var n := |items| - 1;
      var before := items[..n];
      forall i: nat | i < n
        ensures Entered(text, before, i, h) <==> Entered(text, items, i, h)
        ensures StartOf(before, i) == StartOf(items, i)
      {
        StartPrefix(items, n, i);
        assert before[i] == items[i];
      }
      LastEnteredIs(text, before, h);
    }
  }

  /** One more phrase. */
  lemma LastEnteredNext(text: seq<byte>, items: seq<Item>, item: Item, h: nat)
    ensures TextLength(items + [item]) == TextLength(items) + ItemLength(item)
    ensures var p := TextLength(items);
            LastEntered(text, items + [item], h) ==
            if p + 3 <= |text| && Key(text, item, p) == h then p else LastEntered(text, items, h)
  {
    assert (items + [item])[..|items|] == items;
  }

  /** Phrases with three bytes in the text do not change when the text grows. */
  lemma {:induction false} LastEnteredGrows(text: seq<byte>, text': seq<byte>, items: seq<Item>, h: nat)
    requires text <= text' && (|items| > 0 ==> StartOf(items, |items| - 1) + 3 <= |text|) && GoodItems(items)
    ensures LastEntered(text', items, h) == LastEntered(text, items, h)
  {
    hide Hash;
    if |items| == 0 {
    } else {
      var n := |items| - 1;
      if n > 0 {
        StartPrefix(items, n, n - 1);
        StartNext(items, n - 1);
      }
      LastEnteredGrows(text, text', items[..n], h);
    }
  }

  lemma StartNext(items: seq<Item>, i: nat)
    requires i < |items|
    ensures StartOf(items, i + 1) == StartOf(items, i) + ItemLength(items[i])
  {
    assert items[..i + 1][..i] == items[..i];
  }

  // ----- the table -----

  /** The last k items are literals that wait for more bytes; nothing else waits. */
  predicate Waits(items: seq<Item>, k: nat) {
    && k <= 2 && k <= |items|
    && (forall i :: |items| - k <= i < |items| ==> items[i].Literal?)
    && (k < 2 && k < |items| ==> items[|items| - 1 - k].Copy?)
    && GoodItems(items)
  }

  /** The state is what the items make of nothing. */
  ghost predicate Built(st: State, items: seq<Item>) {
    && Sound(st) && |st.out| == TextLength(items) && Waits(items, st.literals)
    && forall h :: 0 <= h < TABLE_LENGTH ==> st.table[h] == LastEntered(st.out, items, h)
  }

  lemma NothingBuilt()
    ensures Built(Initial(), [])
  {}

  /** The items before the k waiting literals, and those. */
  lemma WaitsSplit(items: seq<Item>, k: nat)
    requires Waits(items, k)
    ensures k <= 2 && k <= |items| && GoodItems(items[..|items| - k])
    ensures var n := |items| - k;
            && (k == 0 ==> items[..n] == items)
            && (k == 1 ==> items[n].Literal? && items == items[..n] + [items[n]])
            && (k == 2 ==> items[n].Literal? && items[n + 1].Literal?
                           && items == (items[..n] + [items[n]]) + [items[n + 1]])
  {}

  /** A literal behind a at the end of a text that has grown. */
  lemma OneArrives(text: seq<byte>, a: seq<Item>, x: Item, h: nat)
    requires x.Literal?
    ensures var p := TextLength(a);
            && TextLength(a + [x]) == p + 1
            && LastEntered(text, a + [x], h) ==
               if p + 3 <= |text| && HashAt(text, p) == h then p else LastEntered(text, a, h)
  {
    hide HashAt, LastEntered, TextLength;
    LastEnteredNext(text, a, x, h);
  }

  /** Without the waiting literals all phrases are in the table. */
  lemma Settled(text: seq<byte>, items: seq<Item>, k: nat, h: nat)
    requires Waits(items, k) && |text| == TextLength(items)
    ensures k <= |items|
    ensures var n := |items| - k;
            && TextLength(items[..n]) == |text| - k
            && LastEntered(text, items, h) == LastEntered(text, items[..n], h)
            && (n > 0 ==> StartOf(items[..n], n - 1) + 3 <= |text|)
  {
    hide Key, Waits, GoodItems, LastEntered, TextLength, StartOf;
    var n := |items| - k;
    WaitsSplit(items, k);
    LastStarts(items, k);
    var a := items[..n];
    if k == 1 {
      OneWaits(text, a, items[n], h);
    } else if k == 2 {
      OneWaits(text, a + [items[n]], items[n + 1], h);
      OneArrives(text, a, items[n], h);
    }
  }

  lemma OneWaits(text: seq<byte>, a: seq<Item>, x: Item, h: nat)
    requires x.Literal? && |text| == TextLength(a + [x])
    ensures TextLength(a) == |text| - 1 && LastEntered(text, a + [x], h) == LastEntered(text, a, h)
  {
    hide LastEntered, TextLength;
    OneArrives(text, a, x, h);
  }

  /** The last phrase that does not wait has three bytes. */
  lemma LastStarts(items: seq<Item>, k: nat)
    requires Waits(items, k)
    ensures k <= |items|
    ensures |items| > k ==> StartOf(items[..|items| - k], |items| - k - 1) + 3 <= TextLength(items)
  {
    var n := |items| - k;
    if n > 0 {
      WaitsSplit(items, k);
      var a := items[..n];
      StartNext(a, n - 1);
      assert a[..n] == a && a[n - 1] == items[n - 1];
      assert k < 2 ==> items[n - 1].Copy? && GoodItem(items[n - 1]);
      hide Waits, TextLength, StartOf, GoodItems;
      StartNext(items, n - 1);
      TailLength(items, k);
    }
  }

  lemma TailLength(items: seq<Item>, k: nat)
    requires Waits(items, k)
    ensures k <= |items| && TextLength(items) == TextLength(items[..|items| - k]) + k
  {
    var n := |items| - k;
    WaitsSplit(items, k);
    hide Waits, TextLength, LastEntered;
    if k == 1 {
      LastEnteredNext([], items[..n], items[n], 0);
    } else if k == 2 {
      LastEnteredNext([], items[..n], items[n], 0);
      LastEnteredNext([], items[..n] + [items[n]], items[n + 1], 0);
    }
  }

  /** When the text has grown, the waiting literals may be entered, each under the hash at its place. */
  lemma Arriving(text: seq<byte>, text': seq<byte>, items: seq<Item>, k: nat, h: nat)
    requires Waits(items, k) && |text| == TextLength(items) && text <= text'
    ensures k <= |text|
    ensures LastEntered(text', items, h) ==
            if k >= 1 && |text| + 2 <= |text'| && HashAt(text', |text| - 1) == h then |text| - 1
            else if k == 2 && |text| + 1 <= |text'| && HashAt(text', |text| - 2) == h then |text| - 2
            else LastEntered(text, items, h)
  {
    hide HashAt, LastEntered, Waits, TextLength;
    BaseStays(text, text', items, k, h);
    TailArrives(text', items, k, h);
  }

  /** The phrases before the waiting literals. */
  lemma BaseStays(text: seq<byte>, text': seq<byte>, items: seq<Item>, k: nat, h: nat)
    requires Waits(items, k) && |text| == TextLength(items) && text <= text'
    ensures k <= |items| && k <= 2 && TextLength(items[..|items| - k]) == |text| - k && |text| <= |text'|
    ensures LastEntered(text', items[..|items| - k], h) == LastEntered(text, items, h)
  {
    hide HashAt, LastEntered, Waits, TextLength, StartOf, GoodItems;
    WaitsSplit(items, k);
    Settled(text, items, k, h);
    LastEnteredGrows(text, text', items[..|items| - k], h);
  }

  /** The waiting literals. */
  lemma TailArrives(text: seq<byte>, items: seq<Item>, k: nat, h: nat)
    requires Waits(items, k)
    ensures k <= |items|
    ensures var a := items[..|items| - k];
            var n := TextLength(a) + k;
            LastEntered(text, items, h) ==
            if k >= 1 && n + 2 <= |text| && HashAt(text, n - 1) == h then n - 1
            else if k == 2 && n + 1 <= |text| && HashAt(text, n - 2) == h then n - 2
            else LastEntered(text, a, h)
  {
    hide HashAt, LastEntered, Waits, TextLength, GoodItems;
    WaitsSplit(items, k);
    var a := items[..|items| - k];
    if k == 1 {
      OneArrives(text, a, items[|items| - 1], h);
    } else if k == 2 {
      TwoArrive(text, a, items[|items| - 2], items[|items| - 1], h);
    }
  }

  lemma TwoArrive(text: seq<byte>, a: seq<Item>, x: Item, y: Item, h: nat)
    requires x.Literal? && y.Literal?
    ensures var p := TextLength(a);
            && TextLength((a + [x]) + [y]) == p + 2
            && LastEntered(text, (a + [x]) + [y], h) ==
               if p + 4 <= |text| && HashAt(text, p + 1) == h then p + 1
               else if p + 3 <= |text| && HashAt(text, p) == h then p
               else LastEntered(text, a, h)
  {
    hide HashAt, LastEntered, TextLength;
    OneArrives(text, a, x, h);
    OneArrives(text, a + [x], y, h);
  }

  /** Every item keeps the table what it should be. */
  lemma BuiltNext(st: State, items: seq<Item>, item: Item)
    requires Built(st, items) && GoodItem(item)
    ensures Built(ApplyItem(st, item), items + [item])
  {
    hide HashAt, Copied, Sound;
    ItemSound(st, item);
    WaitsNext(st, items, item);
    TableNext(st, item, 0);
    var st', items' := ApplyItem(st, item), items + [item];
    forall h | 0 <= h < TABLE_LENGTH
      ensures st'.table[h] == LastEntered(st'.out, items', h)
    {
      LastEnteredNext(st'.out, items, item, h);
      Arriving(st.out, st'.out, items, st.literals, h);
      TableNext(st, item, h);
    }
    LastEnteredNext(st'.out, items, item, 0);
  }

  lemma WaitsNext(st: State, items: seq<Item>, item: Item)
    requires Sound(st) && Waits(items, st.literals) && GoodItem(item)
    ensures Waits(items + [item], ApplyItem(st, item).literals)
  {
    hide HashAt, Copied;
  }

  /** Entry h after an item, from the entry before. */
  lemma TableNext(st: State, item: Item, h: nat)
    requires Sound(st) && GoodItem(item) && h < TABLE_LENGTH
    ensures |ApplyItem(st, item).table| == TABLE_LENGTH && |st.out| + ItemLength(item) == |ApplyItem(st, item).out|
    ensures var k, n, out := st.literals, |st.out|, ApplyItem(st, item).out;
            ApplyItem(st, item).table[h] ==
            if item.Copy? && item.index == h then n
            else if k >= 1 && n + 2 <= |out| && HashAt(out, n - 1) == h then n - 1
            else if k == 2 && n + 1 <= |out| && HashAt(out, n - 2) == h then n - 2
            else st.table[h]
  {
    hide HashAt, Copied;
  }

  // ----- descriptions of a text -----

  /** The items describe the text: a literal is the byte at its place, and a copy has the bytes from the last
      phrase before that was entered under its index, found by search over the items before. */
  ghost predicate Describes(items: seq<Item>, text: seq<byte>) {
    && GoodItems(items) && TextLength(items) == |text|
    && forall i: nat :: i < |items| ==> DescribesAt(items, text, i)
  }

  predicate DescribesAt(items: seq<Item>, text: seq<byte>, i: nat)
    requires i < |items|
  {
    var p := StartOf(items, i);
    p <= |text|
    && match items[i]
       case Literal(b) => p < |text| && text[p] == b
       case Copy(index, length) => Matches(text, p, LastEntered(text[..p], items[..i], index), length)
  }

  /** Items that describe a text are legal at the decompressor's table. */
  lemma {:induction false} DescribedLegal(text: seq<byte>, items: seq<Item>, i: nat, st: State)
    requires Describes(items, text) && i <= |items| && Built(st, items[..i])
    requires StartOf(items, i) <= |text| && st.out == text[..StartOf(items, i)]
    ensures Legal(text, st, items[i..])
    decreases |items| - i
  {
    hide Sound, ApplyItem, LastEntered, Matches, Waits;
    if i == |items| {
      assert items[..i] == items && items[i..] == [];
    } else {
      var item := items[i];
      assert DescribesAt(items, text, i);
      assert items[i..][0] == item && items[i..][1..] == items[i + 1..] && items[..i + 1] == items[..i] + [item];
      BuiltNext(st, items[..i], item);
      StartNext(items, i);
      FittingExtends(text, st, item);
      DescribedLegal(text, items, i + 1, ApplyItem(st, item));
    }
  }

  /** For every text and every description of it, decoding the serialised items gives the text, provided the
      limit is not below its length. */
  lemma RoundTrip(src: Memory, text: seq<byte>, items: seq<Item>, limit: nat)
    requires Describes(items, text) && Holds(src, FLAG_BYTES, Encode(items)) && |text| <= limit
    ensures DecodeFrom(src, FLAG_BYTES + |Encode(items)|, limit, FLAG_BYTES, 1, Initial()) == Some(text)
  {
    hide DecodeFrom, Encode, Holds, Legal;
    NothingBuilt();
    assert items[..0] == [] && items[0..] == items;
    DescribedLegal(text, items, 0, Initial());
    LegalRoundTrip(src, text, items, limit);
  }

  // ----- what a block that can be decoded describes -----

  /** The bytes of a copy are those of the phrase, even where it overlaps itself. */
  lemma {:induction false} CopiedMatches(out: seq<byte>, p: int, n: nat, text: seq<byte>)
    requires n <= MAX_RAW_ITEM && (p == START || 0 <= p < |out|) && Copied(out, p, n) <= text
    ensures Matches(text, |out|, p, n)
  {
    if n == 0 {
    } else {
      CopiedMatches(out, p, n - 1, text);
    }
  }

  lemma {:induction false} AppliedDescribes(items: seq<Item>, i: nat, st: State)
    requires GoodItems(items) && i <= |items| && Built(st, items[..i])
    ensures GoodItems(items[i..])
    ensures var text := ApplyAll(st, items[i..]).out;
            && st.out <= text && |text| == TextLength(items)
            && forall j: nat :: i <= j < |items| ==> DescribesAt(items, text, j)
    decreases |items| - i
  {
    hide Sound, ApplyItem, LastEntered, Matches, Waits, Copied;
    if i == |items| {
      assert items[..i] == items && items[i..] == [];
    } else {
      var item := items[i];
      assert items[i..][0] == item && items[i..][1..] == items[i + 1..] && items[..i + 1] == items[..i] + [item];
      BuiltNext(st, items[..i], item);
      ItemSound(st, item);
      AppliedDescribes(items, i + 1, ApplyItem(st, item));
      AppliedDescribesAt(items, i, st, ApplyAll(st, items[i..]).out);
    }
  }

  lemma AppliedDescribesAt(items: seq<Item>, i: nat, st: State, text: seq<byte>)
    requires GoodItems(items) && i < |items| && Built(st, items[..i])
    requires ApplyItem(st, items[i]).out <= text
    ensures DescribesAt(items, text, i)
  {
    hide LastEntered, Matches, Waits, Hash;
    assert text[..|st.out|] == st.out;
    match items[i] {
      case Literal(b) =>
      case Copy(index, length) =>
        CopiedMatches(st.out, st.table[index], length, text);
    }
  }

  /** On every stream: if decoding succeeds, the source up to post is exactly a sequence of items, and they
      describe the text. */
  lemma DecodedDescription(src: Memory, post: nat, limit: nat) returns (items: seq<Item>)
    requires (InitialSound(); DecodeFrom(src, post, limit, FLAG_BYTES, 1, Initial()).Some?)
    ensures Spells(src, FLAG_BYTES, 1, items, post)
    ensures Describes(items, (InitialSound(); DecodeFrom(src, post, limit, FLAG_BYTES, 1, Initial())).value)
  {
    hide DecodeFrom, Spells, ApplyAll;
    NothingBuilt();
    items := DecodedItems(src, post, limit, FLAG_BYTES, 1, Initial());
    assert items[..0] == [] && items[0..] == items;
    AppliedDescribes(items, 0, Initial());
  }

  /** Only one text is described by the same items. */
  lemma DescriptionUnique(items: seq<Item>, a: seq<byte>, b: seq<byte>)
    requires Describes(items, a) && Describes(items, b)
    ensures a == b
  {
    hide DecodeFrom, Encode, Describes;
    DescribesGood(items, a);
    DescribesGood(items, b);
    var code := Encode(items);
    var src: Memory := k => if FLAG_BYTES <= k < FLAG_BYTES + |code| then code[k - FLAG_BYTES] else 0;
    RoundTrip(src, a, items, |a|);
    RoundTrip(src, b, items, |a|);
  }

  lemma DescribesGood(items: seq<Item>, text: seq<byte>)
    requires Describes(items, text)
    ensures GoodItems(items) && |text| == TextLength(items)
  {}

  /** The source is a description of the text. */
  ghost predicate Encodes(src: Memory, srcLen: nat, items: seq<Item>, text: seq<byte>) {
    && GoodItems(items) && Describes(items, text)
    && Holds(src, FLAG_BYTES, Encode(items)) && srcLen == FLAG_BYTES + |Encode(items)|
  }

  /** lzrw3_compress with the action to decompress.  A text that comes out is described by the items in the
      source; and whatever text the items in the source describe comes out, if it fits below the limit. */
  method Uncompress(src: Memory, srcLen: nat, dst: array<byte>, limit: nat) returns (len: nat, ghost items: seq<Item>)
    requires dst.Length >= limit + MAX_RAW_ITEM
    modifies dst
    ensures len <= dst.Length
    ensures len > 0 ==> Spells(src, FLAG_BYTES, 1, items, srcLen) && Describes(items, dst[..len])
    ensures forall described: seq<Item>, text: seq<byte> ::
              Encodes(src, srcLen, described, text) && |text| <= limit ==> dst[..len] == text
  {
    hide DecodeFrom, Spells, Describes, Encode, Holds, GoodItems;
    var beyond;
    len, beyond := Decompress(src, srcLen, dst, limit);
    InitialSound();
    items := [];
    if len > 0 {
      items := DecodedDescription(src, srcLen, limit);
    }
    forall described: seq<Item>, text: seq<byte> | Encodes(src, srcLen, described, text) && |text| <= limit
      ensures dst[..len] == text
    {
      RoundTrip(src, text, described, limit);
    }
  }

  // ----- concrete blocks -----

  /** Up to sixteen items are one group. */
  lemma OneGroup(items: seq<Item>)
    requires GoodItems(items) && 0 < |items| <= 16
    ensures Encode(items) == GroupCode(items)
  {
    hide ControlWord, ItemsCode;
    assert items[..|items|] == items && items[|items|..] == [];
  }

  lemma {:induction false} NoBits(n: nat)
    ensures BitsValue(ControlBits([], n)) == 0
  {
    if n == 0 {
    } else {
      NoBits(n - 1);
      assert ControlBits([], n)[1..] == ControlBits([], n - 1);
    }
  }

  lemma BitsNext(item: Item, rest: seq<Item>, n: nat)
    requires n > 0
    ensures BitsValue(ControlBits([item] + rest, n)) ==
            (if item.Copy? then 1 else 0) + 2 * BitsValue(ControlBits(rest, n - 1))
  {
    assert ([item] + rest)[1..] == rest;
    assert ControlBits([item] + rest, n)[1..] == ControlBits(rest, n - 1);
  }

  lemma CodeNext(item: Item, rest: seq<Item>)
    requires GoodItem(item) && GoodItems(rest)
    ensures GoodItems([item] + rest) && ItemsCode([item] + rest) == ItemCode(item) + ItemsCode(rest)
  {
    assert ([item] + rest)[1..] == rest;
  }

  lemma StartsHere(items: seq<Item>, item: Item)
    ensures StartOf(items + [item], |items|) == TextLength(items)
    ensures TextLength(items + [item]) == TextLength(items) + ItemLength(item)
  {
    assert (items + [item])[..|items|] == items;
  }

  /** Two copies of phrase 5: first the start string, then the phrase that the first copy has entered. */
  lemma CopiesExample()
    ensures GoodItems([Copy(5, 4), Copy(5, 5)])
    ensures Encode([Copy(5, 4), Copy(5, 5)]) == [0x03, 0x00, 0x01, 0x05, 0x02, 0x05]
    ensures Describes([Copy(5, 4), Copy(5, 5)], [0x31, 0x32, 0x33, 0x34, 0x31, 0x32, 0x33, 0x34, 0x31])
  {
    hide Encode, Describes;
    CopiesCode(Copy(5, 4), Copy(5, 5));
    CopiesDescribe(Copy(5, 4), Copy(5, 5));
  }

  lemma CopiesCode(a: Item, b: Item)
    requires a == Copy(5, 4) && b == Copy(5, 5)
    ensures GoodItems([a, b]) && Encode([a, b]) == [0x03, 0x00, 0x01, 0x05, 0x02, 0x05]
  {
    assert ItemCode(a) == [0x01, 0x05] && ItemCode(b) == [0x02, 0x05];
    assert [a] + [b] == [a, b] && [b] + [] == [b];
    hide ItemCode, ControlBits, BitsValue, ItemsCode, Encode;
    OneGroup([a, b]);
    TwoCopies(a, b);
    CodeNext(b, []);
    CodeNext(a, [b]);
  }

  lemma TwoCopies(a: Item, b: Item)
    requires a.Copy? && b.Copy?
    ensures ControlWord([a, b]) == 3 && ItemsCode([]) == []
  {
    hide ControlBits, BitsValue;
    NoBits(14);
    BitsNext(b, [], 15);
    BitsNext(a, [b], 16);
    assert [a] + [b] == [a, b] && [b] + [] == [b];
  }

  lemma CopiesDescribe(a: Item, b: Item)
    requires a == Copy(5, 4) && b == Copy(5, 5)
    ensures Describes([a, b], [0x31, 0x32, 0x33, 0x34, 0x31, 0x32, 0x33, 0x34, 0x31])
  {
    var none: seq<Item> := [];
    var first: seq<byte> := [0x31, 0x32, 0x33, 0x34];
    var text: seq<byte> := [0x31, 0x32, 0x33, 0x34, 0x31, 0x32, 0x33, 0x34, 0x31];
    NothingThere([]);
    NothingThere(first);
    StartMatches(first);
    PhraseMatches(first, text);
    hide Matches, LastEntered, TextLength, Describes;
    DescribesMore(none, [], a, first);
    LastEnteredNext(first, none, a, 5);
    DescribesMore(none + [a], first, b, text);
    assert none + [a] + [b] == [a, b];
  }

  lemma StartMatches(text: seq<byte>)
    requires text == [0x31, 0x32, 0x33, 0x34]
    ensures Matches(text, 0, START, 4)
  {}

  lemma PhraseMatches(first: seq<byte>, text: seq<byte>)
    requires first == [0x31, 0x32, 0x33, 0x34] && text == [0x31, 0x32, 0x33, 0x34, 0x31, 0x32, 0x33, 0x34, 0x31]
    ensures first <= text && Matches(text, 4, 0, 5)
  {}

  /** What each of the three bytes contributes to the hash. */
  lemma HashExamples()
    ensures Hash(1, 0, 0) == 0x5f0 && Hash(0, 1, 0) == 0xe5f && Hash(0, 0, 16) == 0xe5f
  {
    hide Xor;
    XorZero(0);
    XorZero(16);
    XorZero(256);
  }

  /** Three literals are hashed when the third is there, and a copy finds them. */
  lemma LiteralsExample()
    ensures var items := [Literal(0), Literal(1), Literal(0), Copy(0xe5f, 3)];
            GoodItems(items) && Encode(items) == [0x08, 0x00, 0x00, 0x01, 0x00, 0xe0, 0x5f]
    ensures Describes([Literal(0), Literal(1), Literal(0), Copy(0xe5f, 3)], [0, 1, 0, 0, 1, 0])
  {
    var a, b, d := Literal(0), Literal(1), Copy(0xe5f, 3);
    assert [a] + [b, a, d] == [a, b, a, d] && [b] + [a, d] == [b, a, d] && [a] + [d] == [a, d] && [d] + [] == [d];
    LiteralsCode(a, b, d);
    LiteralsDescribe(a, b, d);
  }

  lemma LiteralsCode(a: Item, b: Item, d: Item)
    requires a == Literal(0) && b == Literal(1) && d == Copy(0xe5f, 3)
    ensures GoodItems([a, b, a, d]) && Encode([a, b, a, d]) == [0x08, 0x00, 0x00, 0x01, 0x00, 0xe0, 0x5f]
  {
    hide ControlWord, ItemsCode, Encode;
    OneGroup([a, b, a, d]);
    LiteralsBits(a, b, d);
    LiteralsBytes(a, b, d);
  }

  lemma LiteralsBits(a: Item, b: Item, d: Item)
    requires a.Literal? && b.Literal? && d.Copy?
    ensures ControlWord([a, b, a, d]) == 8
  {
    assert [a] + [b, a, d] == [a, b, a, d] && [b] + [a, d] == [b, a, d] && [a] + [d] == [a, d] && [d] + [] == [d];
    hide ControlBits, BitsValue;
    NoBits(12);
    BitsNext(d, [], 13);
    BitsNext(a, [d], 14);
    BitsNext(b, [a, d], 15);
    BitsNext(a, [b, a, d], 16);
  }

  lemma LiteralsBytes(a: Item, b: Item, d: Item)
    requires a == Literal(0) && b == Literal(1) && d == Copy(0xe5f, 3)
    ensures GoodItems([a, b, a, d]) && ItemsCode([a, b, a, d]) == [0x00, 0x01, 0x00, 0xe0, 0x5f]
  {
    assert ItemCode(d) == [0xe0, 0x5f] && ItemCode(a) == [0] && ItemCode(b) == [1];
    assert [a] + [b, a, d] == [a, b, a, d] && [b] + [a, d] == [b, a, d] && [a] + [d] == [a, d] && [d] + [] == [d];
    TwoCopies(d, d);
    hide ItemsCode, ItemCode;
    CodeNext(d, []);
    CodeNext(a, [d]);
    CodeNext(b, [a, d]);
    CodeNext(a, [b, a, d]);
  }

  lemma LiteralsDescribe(a: Item, b: Item, d: Item)
    requires a == Literal(0) && b == Literal(1) && d == Copy(0xe5f, 3)
    ensures Describes([a, b, a, d], [0, 1, 0, 0, 1, 0])
  {
    LiteralsEntered(a, b);
    NothingThere([0, 1, 0]);
    hide Hash, HashAt, LastEntered, TextLength, Describes;
    DescribesMore([], [], a, [0]);
    DescribesMore([] + [a], [0], b, [0, 1]);
    DescribesMore([] + [a] + [b], [0, 1], a, [0, 1, 0]);
    DescribesMore([] + [a] + [b] + [a], [0, 1, 0], d, [0, 1, 0, 0, 1, 0]);
    assert [] + [a] + [b] + [a] + [d] == [a, b, a, d];
  }

  lemma LiteralsEntered(a: Item, b: Item)
    requires a == Literal(0) && b == Literal(1)
    ensures LastEntered([0, 1, 0], [] + [a] + [b] + [a], 0xe5f) == 0
  {
    var text: seq<byte> := [0, 1, 0];
    HashExamples();
    assert HashAt(text, 0) == 0xe5f;
    NothingThere(text);
    hide Hash, HashAt, LastEntered, TextLength;
    var none: seq<Item> := [];
    LastEnteredNext(text, none, a, 0xe5f);
    LastEnteredNext(text, none + [a], b, 0xe5f);
    LastEnteredNext(text, none + [a] + [b], a, 0xe5f);
    assert LastEntered(text, none + [a], 0xe5f) == 0;
    assert LastEntered(text, none + [a] + [b], 0xe5f) == 0;
  }

  lemma NothingThere(text: seq<byte>)
    ensures TextLength([]) == 0 && (forall h :: LastEntered(text, [], h) == START) && Describes([], [])
  {}

  /** A description goes on with an item that fits. */
  lemma DescribesMore(items: seq<Item>, text: seq<byte>, item: Item, text': seq<byte>)
    requires Describes(items, text) && text <= text' && |text'| == |text| + ItemLength(item) && GoodItem(item)
    requires item.Literal? ==> text'[|text|] == item.b
    requires item.Copy? ==> Matches(text', |text|, LastEntered(text, items, item.index), item.length)
    ensures Describes(items + [item], text')
  {
    hide LastEntered, Matches, TextLength;
    var items' := items + [item];
    StartsHere(items, item);
    assert items'[..|items|] == items && text'[..|text|] == text;
    forall i: nat | i < |items|
      ensures DescribesAt(items', text', i)
    {
      assert DescribesAt(items, text, i);
      assert items'[..i] == items[..i] && items'[i] == items[i];
      assert text'[..StartOf(items, i)] == text[..StartOf(items, i)];
      if items[i].Copy? {
        MatchesMore(text, text', StartOf(items, i), LastEntered(text[..StartOf(items, i)], items[..i], items[i].index),
                    items[i].length);
      }
    }
  }

  lemma MatchesMore(text: seq<byte>, text': seq<byte>, pos: int, p: int, length: nat)
    requires Matches(text, pos, p, length) && text <= text'
    ensures Matches(text', pos, p, length)
  {
    forall k | 0 <= k < length
      ensures text'[pos + k] == SourceByte(text', p, k)
    {
      assert text[pos + k] == SourceByte(text, p, k);
    }
  }
}
