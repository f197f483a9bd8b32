/**
 The line diff: services/vdoc/store.go, markdownLineDiffItems and textDiff. The result is a patch: its
 items rebuild either text from the other.
 */
module LineDiff {
  import opened Wrappers
  import opened LineAnchors
  import opened LineBlocks
  import opened TextLines

  // Items

  datatype Item =
    | Modified(line: nat, oldValue: string, newValue: string)
    | Removed(line: nat, value: string)
    | Added(line: nat, value: string)

  /** A block's items from position `index` on: pairs first, then what is left of either side. Line
      numbers count from 1, in the old text for changes and removals, in the new text for additions. */
  function BlockItems(k: Block, index: nat): seq<Item>
    decreases |k.fromLines| + |k.toLines| - index
  {
    if index < |k.fromLines| && index < |k.toLines| then
      [Modified(k.fromStart + index + 1, k.fromLines[index], k.toLines[index])] + BlockItems(k, index + 1)
    else if index < |k.fromLines| then
      [Removed(k.fromStart + index + 1, k.fromLines[index])] + BlockItems(k, index + 1)
    else if index < |k.toLines| then
      [Added(k.toStart + index + 1, k.toLines[index])] + BlockItems(k, index + 1)
    else []
  }

  function AllItems(blocks: seq<Block>): seq<Item> {
    if blocks == [] then [] else BlockItems(blocks[0], 0) + AllItems(blocks[1..])
  }

  lemma {:induction false} AllItemsAppend(blocks: seq<Block>, k: Block)
    ensures AllItems(blocks + [k]) == AllItems(blocks) + BlockItems(k, 0)
  {
    if blocks == [] {
      assert (blocks + [k])[1..] == [];
    } else {
      assert (blocks + [k])[0] == blocks[0] && (blocks + [k])[1..] == blocks[1..] + [k];
      AllItemsAppend(blocks[1..], k);
    }
  }

  lemma MoveOne(out: seq<Item>, x: Item, rest: seq<Item>)
    ensures (out + [x]) + rest == out + ([x] + rest)
  {
  }

  method ExpandBlock(k: Block, items: seq<Item>) returns (out: seq<Item>)
    ensures out == items + BlockItems(k, 0)
  {
    var paired := if |k.fromLines| < |k.toLines| then |k.fromLines| else |k.toLines|;
    out := ExpandPaired(k, paired, items);
    out := ExpandRemoved(k, paired, items, out);
    out := ExpandAdded(k, paired, items, out);
  }

  ghost predicate Expanded(k: Block, index: nat, items: seq<Item>, out: seq<Item>) {
    out + BlockItems(k, index) == items + BlockItems(k, 0)
  }

  method ExpandPaired(k: Block, paired: nat, items: seq<Item>) returns (out: seq<Item>)
    requires paired <= |k.fromLines| && paired <= |k.toLines|
    ensures Expanded(k, paired, items, out)
  {
    out := items;
    for index := 0 to paired
      invariant Expanded(k, index, items, out)
    {
      var item := Modified(k.fromStart + index + 1, k.fromLines[index], k.toLines[index]);
      MoveOne(out, item, BlockItems(k, index + 1));
      out := out + [item];
    }
  }

  method ExpandRemoved(k: Block, paired: nat, items: seq<Item>, before: seq<Item>) returns (out: seq<Item>)
    requires paired == |k.fromLines| <= |k.toLines| || paired == |k.toLines| < |k.fromLines|
    requires Expanded(k, paired, items, before)
    ensures Expanded(k, |k.fromLines|, items, out)
  {
    out := before;
    for index := paired to |k.fromLines|
      invariant Expanded(k, index, items, out)
    {
      var item := Removed(k.fromStart + index + 1, k.fromLines[index]);
      assert BlockItems(k, index) == [item] + BlockItems(k, index + 1);
      ExpandOne(k, index, items, out, item);
      out := out + [item];
    }
  }

  lemma ExpandOne(k: Block, index: nat, items: seq<Item>, out: seq<Item>, item: Item)
    requires Expanded(k, index, items, out) && BlockItems(k, index) == [item] + BlockItems(k, index + 1)
    ensures Expanded(k, index + 1, items, out + [item])
  {
    hide BlockItems;
    MoveOne(out, item, BlockItems(k, index + 1));
  }

  method ExpandAdded(k: Block, paired: nat, items: seq<Item>, before: seq<Item>) returns (out: seq<Item>)
    requires paired == |k.fromLines| <= |k.toLines| || paired == |k.toLines| < |k.fromLines|
    requires Expanded(k, |k.fromLines|, items, before)
    ensures out == items + BlockItems(k, 0)
  {
    out := before;
    for index := paired to |k.toLines|
      invariant paired == |k.fromLines| ==> Expanded(k, index, items, out)
      invariant paired < |k.fromLines| ==> Expanded(k, |k.fromLines|, items, out)
    {
      var item := Added(k.toStart + index + 1, k.toLines[index]);
      MoveOne(out, item, BlockItems(k, index + 1));
      out := out + [item];
    }
    assert out + [] == out;
  }

  /** The items quote blocks that cover both texts, each of them left by the recursion at its end. */
  ghost predicate IsDiff(a: seq<string>, b: seq<string>, items: seq<Item>, count: nat) {
    exists blocks ::
      && Covers(Window(a, b, 0, |a|, 0, |b|), blocks)
      && items == AllItems(blocks) && count == |blocks|
      && forall i | 0 <= i < |blocks| :: Explained(blocks[i], Window(a, b, 0, |a|, 0, |b|))
  }

  method LineDiffItems(a: seq<string>, b: seq<string>)
    returns (items: seq<Item>, count: nat, ghost blocks: seq<Block>)
    ensures Covers(Window(a, b, 0, |a|, 0, |b|), blocks)
    ensures items == AllItems(blocks) && count == |blocks|
    ensures a == b ==> blocks == []
    ensures forall i | 0 <= i < |blocks| :: Explained(blocks[i], Window(a, b, 0, |a|, 0, |b|))
    ensures |a| < MaxDepth || |b| < MaxDepth ==> forall i | 0 <= i < |blocks| ::
            !SharesLine(blocks[i]) || TooLarge(blocks[i])
  {
    hide Covers;
    hide Explained;
    hide SharesLine;
    hide TooLarge;
    hide BlockItems;
    var found;
    found, blocks := CollectBlocks(a, b);
    items := [];
    for index := 0 to |found|
      invariant items == AllItems(found[..index])
    {
      items := ExpandBlock(found[index], items);
      AllItemsAppend(found[..index], found[index]);
      assert found[..index + 1] == found[..index] + [found[index]];
    }
    assert found[..|found|] == found;
    count := |found|;
    if |a| < MaxDepth || |b| < MaxDepth {
      forall i | 0 <= i < |blocks| ensures !SharesLine(blocks[i]) || TooLarge(blocks[i]) {
        FewLinesSharp(blocks[i], Window(a, b, 0, |a|, 0, |b|));
      }
    }
  }

  method CollectBlocks(a: seq<string>, b: seq<string>) returns (found: seq<Block>, ghost blocks: seq<Block>)
    ensures found == blocks && Covers(Window(a, b, 0, |a|, 0, |b|), blocks)
    ensures a == b ==> blocks == []
    ensures forall i | 0 <= i < |blocks| :: Explained(blocks[i], Window(a, b, 0, |a|, 0, |b|))
  {
    var whole := Window(a, b, 0, |a|, 0, |b|);
    var collector := new BlockCollector(whole);
    assert a[0..|a|] == a && b[0..|b|] == b;
    blocks := collector.Collect(whole, 0);
    found := collector.blocks;
    assert found == blocks;
  }

  // Patching: what a reader of the items does, using only their line numbers and values.

  datatype Reader = Reader(used: nat, out: seq<string>)

  /** Old text to new text: copy the old lines up to the item, then do what it says. */
  function PatchOne(lines: seq<string>, x: Item, r: Reader): Option<Reader> {
    match x
    case Modified(n, was, value) =>
      if r.used < n <= |lines| && lines[n - 1] == was then Some(Reader(n, r.out + lines[r.used..n - 1] + [value]))
        else None
    case Removed(n, was) =>
      if r.used < n <= |lines| && lines[n - 1] == was then Some(Reader(n, r.out + lines[r.used..n - 1])) else None
    case Added(n, value) =>
      var next := r.used + n - 1 - |r.out|;
      if r.used <= next <= |lines| then Some(Reader(next, r.out + lines[r.used..next] + [value])) else None
  }

  /** New text back to old text. */
  function UnpatchOne(lines: seq<string>, x: Item, r: Reader): Option<Reader> {
    match x
    case Modified(n, was, value) =>
      var next := r.used + n - 1 - |r.out|;
      if r.used <= next < |lines| && lines[next] == value
        then Some(Reader(next + 1, r.out + lines[r.used..next] + [was])) else None
    case Removed(n, was) =>
      var next := r.used + n - 1 - |r.out|;
      if r.used <= next <= |lines| then Some(Reader(next, r.out + lines[r.used..next] + [was])) else None
    case Added(n, value) =>
      if r.used < n <= |lines| && lines[n - 1] == value then Some(Reader(n, r.out + lines[r.used..n - 1])) else None
  }

  function ReadOne(back: bool, lines: seq<string>, x: Item, r: Reader): Option<Reader> {
    if back then UnpatchOne(lines, x, r) else PatchOne(lines, x, r)
  }

  function ReadAll(back: bool, lines: seq<string>, items: seq<Item>, r: Option<Reader>): Option<Reader> {
    if items == [] || r.None? then r else ReadAll(back, lines, items[1..], ReadOne(back, lines, items[0], r.value))
  }

  /** Follow every item, then copy the rest. */
  function Read(back: bool, lines: seq<string>, items: seq<Item>): Option<seq<string>> {
    var r := ReadAll(back, lines, items, Some(Reader(0, [])));
    if r.Some? && r.value.used <= |lines| then Some(r.value.out + lines[r.value.used..]) else None
  }

  function Patch(oldLines: seq<string>, items: seq<Item>): Option<seq<string>> {
    Read(false, oldLines, items)
  }

  function Unpatch(newLines: seq<string>, items: seq<Item>): Option<seq<string>> {
    Read(true, newLines, items)
  }

  lemma {:induction false} ReadConcat(back: bool, lines: seq<string>, x: seq<Item>, y: seq<Item>, r: Option<Reader>)
    ensures ReadAll(back, lines, x + y, r) == ReadAll(back, lines, y, ReadAll(back, lines, x, r))
  {
    if x == [] {
      assert x + y == y;
    } else if r.Some? {
      assert (x + y)[0] == x[0] && (x + y)[1..] == x[1..] + y;
      ReadConcat(back, lines, x[1..], y, ReadOne(back, lines, x[0], r.value));
    }
  }

  ghost predicate Quotes(w: Window, k: Block)
    requires w.Valid()
  {
    && k.FromEnd() <= |w.a| && k.ToEnd() <= |w.b|
    && k.fromLines == w.a[k.fromStart..k.FromEnd()]
    && k.toLines == w.b[k.toStart..k.ToEnd()]
  }

  function Source(w: Window, back: bool): seq<string> {
    if back then w.b else w.a
  }

  function Min(x: nat, y: nat): nat {
    if x < y then x else y
  }

  /** A reader that has used up `i` old and `j` new lines' worth. */
  function ReaderAt(w: Window, back: bool, i: nat, j: nat): Reader
    requires i <= |w.a| && j <= |w.b|
  {
    if back then Reader(j, w.a[..i]) else Reader(i, w.b[..j])
  }

  /** An item of a block, from the shared gap before it: the reader copies the gap and does the item. */
  lemma ReadItem(w: Window, back: bool, k: Block, index: nat, i: nat, j: nat)
    requires w.Valid() && Quotes(w, k) && BlockItems(k, index) != []
    requires i <= k.fromStart + Min(index, |k.fromLines|) && j <= k.toStart + Min(index, |k.toLines|)
    requires w.a[i..k.fromStart + Min(index, |k.fromLines|)] == w.b[j..k.toStart + Min(index, |k.toLines|)]
    ensures ReadOne(back, Source(w, back), BlockItems(k, index)[0], ReaderAt(w, back, i, j))
         == Some(ReaderAt(w, back, k.fromStart + Min(index + 1, |k.fromLines|),
                          k.toStart + Min(index + 1, |k.toLines|)))
  {
    hide PatchOne;
    hide UnpatchOne;
    var i', j' := k.fromStart + Min(index, |k.fromLines|), k.toStart + Min(index, |k.toLines|);
    var x := BlockItems(k, index)[0];
    ItemQuotes(w, k, index);
    if index < |k.fromLines| {
      TakeOneMore(w.a, i');
    }
    if index < |k.toLines| {
      TakeOneMore(w.b, j');
    }
    hide Quotes;
    hide BlockItems;
    if back {
      UnpatchItem(w.a, w.b, x, i, i', j, j');
    } else {
      PatchItem(w.a, w.b, x, i, i', j, j');
    }
  }

  /** What the item at a position of a block says, in terms of the two texts. */
  lemma ItemQuotes(w: Window, k: Block, index: nat)
    requires w.Valid() && Quotes(w, k) && BlockItems(k, index) != []
    ensures var x := BlockItems(k, index)[0];
            var i, j := k.fromStart + Min(index, |k.fromLines|), k.toStart + Min(index, |k.toLines|);
            && i <= |w.a| && j <= |w.b|
            && (index < |k.fromLines| && index < |k.toLines| ==>
                  i < |w.a| && j < |w.b| && x == Modified(i + 1, w.a[i], w.b[j]))
            && (index < |k.fromLines| && index >= |k.toLines| ==> i < |w.a| && x == Removed(i + 1, w.a[i]))
            && (index >= |k.fromLines| ==> index < |k.toLines| && j < |w.b| && x == Added(j + 1, w.b[j]))
  {
  }

  lemma PatchItem(a: seq<string>, b: seq<string>, x: Item, i: nat, i': nat, j: nat, j': nat)
    requires i <= i' <= |a| && j <= j' <= |b| && a[i..i'] == b[j..j']
    ensures x.Modified? && x.line == i' + 1 <= |a| && a[i'] == x.oldValue ==>
              PatchOne(a, x, Reader(i, b[..j])) == Some(Reader(i' + 1, b[..j'] + [x.newValue]))
    ensures x.Removed? && x.line == i' + 1 <= |a| && a[i'] == x.value ==>
            PatchOne(a, x, Reader(i, b[..j])) == Some(Reader(i' + 1, b[..j']))
    ensures x.Added? && x.line == j' + 1 ==> PatchOne(a, x, Reader(i, b[..j])) == Some(Reader(i', b[..j'] + [x.value]))
  {
    GapCopied(a, b, i, i', j, j');
  }

  lemma UnpatchItem(a: seq<string>, b: seq<string>, x: Item, i: nat, i': nat, j: nat, j': nat)
    requires i <= i' <= |a| && j <= j' <= |b| && a[i..i'] == b[j..j']
    ensures x.Modified? && x.line == i' + 1 && j' < |b| && b[j'] == x.newValue ==>
              UnpatchOne(b, x, Reader(j, a[..i])) == Some(Reader(j' + 1, a[..i'] + [x.oldValue]))
    ensures x.Removed? && x.line == i' + 1 ==>
      UnpatchOne(b, x, Reader(j, a[..i])) == Some(Reader(j', a[..i'] + [x.value]))
    ensures x.Added? && x.line == j' + 1 <= |b| && b[j'] == x.value ==>
            UnpatchOne(b, x, Reader(j, a[..i])) == Some(Reader(j' + 1, a[..i']))
  {
    GapCopied(a, b, i, i', j, j');
  }

  lemma GapCopied(a: seq<string>, b: seq<string>, i: nat, i': nat, j: nat, j': nat)
    requires i <= i' <= |a| && j <= j' <= |b| && a[i..i'] == b[j..j']
    ensures i' - i == j' - j
    ensures b[..j'] == b[..j] + a[i..i'] && a[..i'] == a[..i] + b[j..j']
  {
    assert |a[i..i']| == |b[j..j']|;
  }

  lemma TakeOneMore(lines: seq<string>, i: nat)
    requires i < |lines|
    ensures lines[..i + 1] == lines[..i] + [lines[i]]
  {
  }

  lemma FirstItem(k: Block, index: nat)
    requires BlockItems(k, index) != []
    ensures BlockItems(k, index)[1..] == BlockItems(k, index + 1)
  {
  }

  lemma ReadStep(back: bool, lines: seq<string>, items: seq<Item>, r: Reader, next: Reader)
    requires items != [] && ReadOne(back, lines, items[0], r) == Some(next)
    ensures ReadAll(back, lines, items, Some(r)) == ReadAll(back, lines, items[1..], Some(next))
  {
  }

  /** How much of either side the first items of a block use up. */
  function FromAt(k: Block, index: nat): nat {
    k.fromStart + Min(index, |k.fromLines|)
  }

  function ToAt(k: Block, index: nat): nat {
    k.toStart + Min(index, |k.toLines|)
  }

  lemma AtBounds(w: Window, k: Block, index: nat)
    requires w.Valid() && Quotes(w, k)
    ensures FromAt(k, index) <= |w.a| && ToAt(k, index) <= |w.b|
    ensures BlockItems(k, index) == [] ==> FromAt(k, index) == k.FromEnd() && ToAt(k, index) == k.ToEnd()
    ensures BlockItems(k, index) != [] ==> index < |k.fromLines| + |k.toLines|
  {
  }

  /** One item of a block, with nothing to copy before it. */
  lemma ReadHead(w: Window, back: bool, k: Block, index: nat)
    requires w.Valid() && Quotes(w, k) && BlockItems(k, index) != []
    requires FromAt(k, index) <= |w.a| && ToAt(k, index) <= |w.b|
    requires FromAt(k, index + 1) <= |w.a| && ToAt(k, index + 1) <= |w.b|
    ensures ReadOne(back, Source(w, back), BlockItems(k, index)[0], ReaderAt(w, back, FromAt(k, index), ToAt(k, index)))
         == Some(ReaderAt(w, back, FromAt(k, index + 1), ToAt(k, index + 1)))
  {
    hide ReadOne;
    assert w.a[FromAt(k, index)..FromAt(k, index)] == [] == w.b[ToAt(k, index)..ToAt(k, index)];
    ReadItem(w, back, k, index, FromAt(k, index), ToAt(k, index));
  }

  lemma {:induction false} ReadBlock(w: Window, back: bool, k: Block, index: nat)
    requires w.Valid() && Quotes(w, k) && FromAt(k, index) <= |w.a| && ToAt(k, index) <= |w.b|
    ensures ReadAll(back, Source(w, back), BlockItems(k, index),
                    Some(ReaderAt(w, back, FromAt(k, index), ToAt(k, index))))
         == Some(ReaderAt(w, back, k.FromEnd(), k.ToEnd()))
    decreases |k.fromLines| + |k.toLines| - index
  {
    hide ReadOne;
    hide FromAt;
    hide ToAt;
    hide ReaderAt;
    var items := BlockItems(k, index);
    AtBounds(w, k, index);
    AtBounds(w, k, index + 1);
    if items != [] {
      ReadHead(w, back, k, index);
      FirstItem(k, index);
      ReadBlock(w, back, k, index + 1);
      ReadStep(back, Source(w, back), items, ReaderAt(w, back, FromAt(k, index), ToAt(k, index)),
               ReaderAt(w, back, FromAt(k, index + 1), ToAt(k, index + 1)));
    }
  }

  /** A block together with the gap before it. */
  lemma ReadGapAndBlock(w: Window, back: bool, k: Block)
    requires w.Valid() && Quotes(w, k) && |k.fromLines| + |k.toLines| > 0
    requires w.fromStart <= k.fromStart && w.toStart <= k.toStart
    requires w.a[w.fromStart..k.fromStart] == w.b[w.toStart..k.toStart]
    ensures ReadAll(back, Source(w, back), BlockItems(k, 0), Some(ReaderAt(w, back, w.fromStart, w.toStart)))
         == Some(ReaderAt(w, back, k.FromEnd(), k.ToEnd()))
  {
    hide ReadOne;
    hide ReadAll;
    AtBounds(w, k, 1);
    ReadItem(w, back, k, 0, w.fromStart, w.toStart);
    FirstItem(k, 0);
    ReadStep(back, Source(w, back), BlockItems(k, 0), ReaderAt(w, back, w.fromStart, w.toStart),
             ReaderAt(w, back, FromAt(k, 1), ToAt(k, 1)));
    ReadBlock(w, back, k, 1);
  }

  function EndOf(w: Window, blocks: seq<Block>): (nat, nat) {
    if blocks == [] then (w.fromStart, w.toStart) else (blocks[|blocks| - 1].FromEnd(), blocks[|blocks| - 1].ToEnd())
  }

  lemma {:induction false} ReadBlocks(w: Window, back: bool, blocks: seq<Block>)
    requires w.Valid() && Covers(w, blocks)
    ensures var (i, j) := EndOf(w, blocks);
            && i <= w.fromEnd && j <= w.toEnd && w.a[i..w.fromEnd] == w.b[j..w.toEnd]
            && ReadAll(back, Source(w, back), AllItems(blocks), Some(ReaderAt(w, back, w.fromStart, w.toStart)))
               == Some(ReaderAt(w, back, i, j))
    decreases |blocks|
  {
    if blocks != [] {
      var k := blocks[0];
      var next := w.(fromStart := k.FromEnd(), toStart := k.ToEnd());
      ReadGapAndBlock(w, back, k);
      ReadConcat(back, Source(w, back), BlockItems(k, 0), AllItems(blocks[1..]),
                 Some(ReaderAt(w, back, w.fromStart, w.toStart)));
      ReadBlocks(next, back, blocks[1..]);
      assert EndOf(next, blocks[1..]) == EndOf(w, blocks);
    }
  }

  /** Following the items rebuilds the new text from the old one, and the old one from the new. */
  lemma PatchBothWays(a: seq<string>, b: seq<string>, blocks: seq<Block>)
    requires Covers(Window(a, b, 0, |a|, 0, |b|), blocks)
    ensures Patch(a, AllItems(blocks)) == Some(b)
    ensures Unpatch(b, AllItems(blocks)) == Some(a)
  {
    hide Covers;
    hide AllItems;
    hide ReadAll;
    hide EndOf;
    var w := Window(a, b, 0, |a|, 0, |b|);
    ReadBlocks(w, false, blocks);
    ReadBlocks(w, true, blocks);
    var (i, j) := EndOf(w, blocks);
    assert a[..0] == [] && b[..0] == [];
    assert a[i..] == a[i..|a|] && b[j..] == b[j..|b|];
    assert b[..j] + b[j..] == b && a[..i] + a[i..] == a;
  }

  // Summaries

  function CountAdded(items: seq<Item>): nat {
    if items == [] then 0 else CountAdded(items[..|items| - 1]) + if items[|items| - 1].Added? then 1 else 0
  }

  function CountRemoved(items: seq<Item>): nat {
    if items == [] then 0 else CountRemoved(items[..|items| - 1]) + if items[|items| - 1].Removed? then 1 else 0
  }

  function Balance(items: seq<Item>): int {
    CountAdded(items) - CountRemoved(items)
  }

  lemma {:induction false} BalanceConcat(x: seq<Item>, y: seq<Item>)
    ensures Balance(x + y) == Balance(x) + Balance(y)
  {
    if y == [] {
      assert x + y == x;
    } else {
      assert (x + y)[..|x + y| - 1] == x + y[..|y| - 1];
      BalanceConcat(x, y[..|y| - 1]);
    }
  }

  lemma BalanceOne(x: Item)
    ensures Balance([x]) == if x.Added? then 1 else if x.Removed? then -1 else 0
  {
    assert [x][..0] == [];
    assert CountAdded([]) == 0 && CountRemoved([]) == 0;
  }

  lemma {:induction false} BlockBalance(k: Block, index: nat)
    requires index <= |k.fromLines| || index <= |k.toLines|
    ensures Balance(BlockItems(k, index)) ==
            (|k.toLines| - Min(index, |k.toLines|)) - (|k.fromLines| - Min(index, |k.fromLines|))
    decreases |k.fromLines| + |k.toLines| - index
  {
    var items := BlockItems(k, index);
    if items != [] {
      assert items == [items[0]] + BlockItems(k, index + 1);
      BalanceConcat([items[0]], BlockItems(k, index + 1));
      BalanceOne(items[0]);
      BlockBalance(k, index + 1);
    }
  }

  /** Additions minus removals is the change in the number of lines. */
  lemma {:induction false} BalanceAll(w: Window, blocks: seq<Block>)
    requires w.Valid() && Covers(w, blocks)
    ensures Balance(AllItems(blocks)) == (w.toEnd - w.toStart) - (w.fromEnd - w.fromStart)
    decreases |blocks|
  {
    if blocks == [] {
      assert |w.a[w.fromStart..w.fromEnd]| == |w.b[w.toStart..w.toEnd]|;
    } else {
      var k := blocks[0];
      assert |w.a[w.fromStart..k.fromStart]| == |w.b[w.toStart..k.toStart]|;
      BalanceConcat(BlockItems(k, 0), AllItems(blocks[1..]));
      BlockBalance(k, 0);
      BalanceAll(w.(fromStart := k.FromEnd(), toStart := k.ToEnd()), blocks[1..]);
    }
  }

  datatype Summary = Summary(added: nat, removed: nat, modified: nat, blocks: nat)

  method Summarize(items: seq<Item>, count: nat) returns (summary: Summary)
    ensures summary.added + summary.removed + summary.modified == |items| && summary.blocks == count
    ensures summary.added == CountAdded(items) && summary.removed == CountRemoved(items)
  {
    var added, removed, modified := 0, 0, 0;
    for index := 0 to |items|
      invariant added == CountAdded(items[..index]) && removed == CountRemoved(items[..index])
      invariant added + removed + modified == index
    {
      assert items[..index + 1][..index] == items[..index];
      match items[index] {
        case Added(_, _) => added := added + 1;
        case Removed(_, _) => removed := removed + 1;
        case Modified(_, _, _) => modified := modified + 1;
      }
    }
    assert items[..|items|] == items;
    summary := Summary(added, removed, modified, count);
  }

  /** textDiff: the items are a patch in both directions, the counters agree with it, and an empty list
      means equal texts, up to the choice of newlines for Markdown. */
  method TextDiff(plain: bool, fromContent: string, toContent: string) returns (items: seq<Item>, summary: Summary)
    ensures
      var a := if plain then SplitPlainTextLines(fromContent) else SplitMarkdownLines(fromContent);
      var b := if plain then SplitPlainTextLines(toContent) else SplitMarkdownLines(toContent);
      && Patch(a, items) == Some(b)
      && Unpatch(b, items) == Some(a)
      && summary.added as int - summary.removed == |b| - |a|
      && IsDiff(a, b, items, summary.blocks)
    ensures summary.added + summary.removed + summary.modified == |items|
    ensures summary.added == CountAdded(items) && summary.removed == CountRemoved(items)
    ensures items == [] <==> if plain then fromContent == toContent
            else SameWriting(fromContent, toContent)
  {
    var a := if plain then SplitPlainTextLines(fromContent) else SplitMarkdownLines(fromContent);
    var b := if plain then SplitPlainTextLines(toContent) else SplitMarkdownLines(toContent);
    ghost var found;
    var count;
    items, count, found := LineDiffItems(a, b);
    summary := Summarize(items, count);
    ghost var w := Window(a, b, 0, |a|, 0, |b|);
    PatchBothWays(a, b, found);
    BalanceAll(w, found);
    SplitPlainInjective(fromContent, toContent);
    SplitMarkdownInjective(fromContent, toContent);
    if items == [] {
      assert Patch(a, []) == Some([] + a[0..]);
    }
  }
}
