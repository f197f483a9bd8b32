/**
 The blocks of a line diff: services/vdoc/store.go, collectMarkdownDiffBlocks and
 appendMarkdownDiffBlock.

 The recursion trims what is common at both ends, looks for anchors, and goes on between them. Its
 blocks cover the range: ordered, disjoint, and with equal lines everywhere outside.
 */
module LineBlocks {
  import opened LineAnchors

  datatype Block = Block(fromStart: nat, toStart: nat, fromLines: seq<string>, toLines: seq<string>) {
    function FromEnd(): nat {
      fromStart + |fromLines|
    }

    function ToEnd(): nat {
      toStart + |toLines|
    }
  }

  const MaxDepth := 64

  /** The blocks are the differences of the two ranges: in order, not overlapping, each quoting its own
      lines on both sides, and everything between them equal. */
  ghost predicate Covers(w: Window, blocks: seq<Block>)
    requires w.Valid()
    decreases |blocks|
  {
    if blocks == [] then w.a[w.fromStart..w.fromEnd] == w.b[w.toStart..w.toEnd]
    else
      var k := blocks[0];
      && w.fromStart <= k.fromStart && k.FromEnd() <= w.fromEnd
      && w.toStart <= k.toStart && k.ToEnd() <= w.toEnd
      && w.a[w.fromStart..k.fromStart] == w.b[w.toStart..k.toStart]
      && k.fromLines == w.a[k.fromStart..k.FromEnd()]
      && k.toLines == w.b[k.toStart..k.ToEnd()]
      && |k.fromLines| + |k.toLines| > 0
      && Covers(w.(fromStart := k.FromEnd(), toStart := k.ToEnd()), blocks[1..])
  }

  predicate SharesLine(k: Block) {
    exists i, j :: 0 <= i < |k.fromLines| && 0 <= j < |k.toLines| && k.fromLines[i] == k.toLines[j]
  }

  /** The cell limit kept this block from being searched. */
  predicate TooLarge(k: Block) {
    !TableFits(|k.fromLines|, |k.toLines|)
  }

  /** Two adjacent coverings make one. */
  lemma {:induction false} CoversConcat(w: Window, blocks: seq<Block>, fromMid: nat, toMid: nat, more: seq<Block>)
    requires w.Valid() && w.fromStart <= fromMid <= w.fromEnd && w.toStart <= toMid <= w.toEnd
    requires Covers(w.(fromEnd := fromMid, toEnd := toMid), blocks)
    requires Covers(w.(fromStart := fromMid, toStart := toMid), more)
    ensures Covers(w, blocks + more)
    decreases |blocks|
  {
    if blocks == [] {
      assert blocks + more == more;
      CoversGap(w, fromMid, toMid, more);
    } else {
      var k := blocks[0];
      assert (blocks + more)[0] == k && (blocks + more)[1..] == blocks[1..] + more;
      CoversConcat(w.(fromStart := k.FromEnd(), toStart := k.ToEnd()), blocks[1..], fromMid, toMid, more);
    }
  }

  /** Equal lines before a covering extend its first gap. */
  lemma CoversGap(w: Window, fromMid: nat, toMid: nat, more: seq<Block>)
    requires w.Valid() && w.fromStart <= fromMid <= w.fromEnd && w.toStart <= toMid <= w.toEnd
    requires w.a[w.fromStart..fromMid] == w.b[w.toStart..toMid]
    requires Covers(w.(fromStart := fromMid, toStart := toMid), more)
    ensures Covers(w, more)
  {
    var fromNext, toNext := if more == [] then w.fromEnd else more[0].fromStart, if more == [] then w.toEnd
      else more[0].toStart;
    assert w.a[w.fromStart..fromNext] == w.a[w.fromStart..fromMid] + w.a[fromMid..fromNext];
    assert w.b[w.toStart..toNext] == w.b[w.toStart..toMid] + w.b[toMid..toNext];
  }

  /** Equal lines after a covering. */
  lemma CoversTail(w: Window, fromMid: nat, toMid: nat, blocks: seq<Block>)
    requires w.Valid() && w.fromStart <= fromMid <= w.fromEnd && w.toStart <= toMid <= w.toEnd
    requires w.a[fromMid..w.fromEnd] == w.b[toMid..w.toEnd]
    requires Covers(w.(fromEnd := fromMid, toEnd := toMid), blocks)
    ensures Covers(w, blocks)
  {
    CoversConcat(w, blocks, fromMid, toMid, []);
    assert blocks + [] == blocks;
  }

  lemma OneLine(w: Window, x: Anchor)
    requires w.Valid() && w.Matches(x)
    ensures w.a[x.from..x.from + 1] == w.b[x.to..x.to + 1]
  {
  }

  /** What was collected up to an anchor, then the equal pair of lines itself. */
  lemma JoinAtAnchor(w: Window, x: Anchor, fromMid: nat, toMid: nat, blocks: seq<Block>, more: seq<Block>)
    requires w.Valid() && w.Matches(x)
    requires w.fromStart <= fromMid <= x.from && w.toStart <= toMid <= x.to
    requires Covers(w.(fromEnd := fromMid, toEnd := toMid), blocks)
    requires Covers(w.(fromStart := fromMid, fromEnd := x.from, toStart := toMid, toEnd := x.to), more)
    ensures Covers(w.(fromEnd := x.from + 1, toEnd := x.to + 1), blocks + more)
  {
    hide Covers;
    var before := w.(fromEnd := x.from, toEnd := x.to);
    assert before.(fromEnd := fromMid, toEnd := toMid) == w.(fromEnd := fromMid, toEnd := toMid);
    CoversConcat(before, blocks, fromMid, toMid, more);
    OneLine(w, x);
    CoversTail(w.(fromEnd := x.from + 1, toEnd := x.to + 1), x.from, x.to, blocks + more);
  }

  // How a window is reached

  /** What trimming leaves: as much as possible equal in front is gone, then as much as possible behind. */
  ghost predicate Trims(u: Window, t: Window) {
    && u.Valid() && t.Valid() && t.a == u.a && t.b == u.b
    && u.fromStart <= t.fromStart <= t.fromEnd <= u.fromEnd
    && u.toStart <= t.toStart <= t.toEnd <= u.toEnd
    && t.a[u.fromStart..t.fromStart] == t.b[u.toStart..t.toStart]
    && t.a[t.fromEnd..u.fromEnd] == t.b[t.toEnd..u.toEnd]
    && (t.fromStart < u.fromEnd && t.toStart < u.toEnd ==> t.a[t.fromStart] != t.b[t.toStart])
    && (t.fromStart < t.fromEnd && t.toStart < t.toEnd ==> t.a[t.fromEnd - 1] != t.b[t.toEnd - 1])
  }

  /** The unique matches if there are any, as many as increase together; else a longest common
      subsequence, if the table fits. */
  ghost predicate BestAnchors(t: Window, anchors: seq<Anchor>)
    requires t.Valid()
  {
    && |anchors| > 0 && CommonSubsequence(t, anchors)
    && if exists x :: UniqueMatch(t, x) then
         IsUniqueChain(t, anchors) && forall other | IsUniqueChain(t, other) :: |other| <= |anchors|
       else
         && TableFits(t.fromEnd - t.fromStart, t.toEnd - t.toStart)
         && forall c: seq<Anchor> | CommonSubsequence(t, c) :: |c| <= |anchors|
  }

  ghost predicate NoAnchors(t: Window)
    requires t.Valid()
  {
    && (forall x :: !UniqueMatch(t, x))
    && (TableFits(t.fromEnd - t.fromStart, t.toEnd - t.toStart) ==> forall x :: !t.Matches(x))
  }

  /** What lies before the anchor of this index, and after the one in front of it. */
  function Gap(t: Window, anchors: seq<Anchor>, index: nat): Window
    requires index <= |anchors|
  {
    var start := if index == 0 then Anchor(t.fromStart, t.toStart)
                 else Anchor(anchors[index - 1].from + 1, anchors[index - 1].to + 1);
    var end := if index == |anchors| then Anchor(t.fromEnd, t.toEnd) else anchors[index];
    t.(fromStart := start.from, fromEnd := end.from, toStart := start.to, toEnd := end.to)
  }

  /** One level of the recursion: `u` is trimmed, anchors are chosen, and one gap is entered. */
  ghost predicate Enters(u: Window, t: Window, anchors: seq<Anchor>, index: nat, w: Window) {
    Trims(u, t) && BestAnchors(t, anchors) && index <= |anchors| && w == Gap(t, anchors, index)
  }

  /** The recursion from `whole` comes to `w` at this depth. */
  ghost predicate Reached(whole: Window, w: Window, depth: nat)
    decreases depth
  {
    if depth == 0 then w == whole
    else exists u, t, anchors, index: nat :: Reached(whole, u, depth - 1) && Enters(u, t, anchors, index, w)
  }

  /** A block is what trimming leaves of a reached window, where there is no anchor or no more depth. */
  ghost predicate Explained(k: Block, whole: Window) {
    exists u, t, depth: nat ::
      && Reached(whole, u, depth) && Trims(u, t) && k == BlockOf(t)
      && (depth == MaxDepth || (depth < MaxDepth && NoAnchors(t)))
  }

  /** A block only shares a line between its sides when one of the two limits was hit. */
  ghost predicate Sharp(k: Block, whole: Window) {
    || !SharesLine(k) || TooLarge(k)
    || exists u, t :: Reached(whole, u, MaxDepth) && Trims(u, t) && k == BlockOf(t)
  }

  lemma ExplainedSharp(k: Block, whole: Window)
    requires Explained(k, whole)
    ensures Sharp(k, whole)
  {
    hide Reached;
    var u, t, depth: nat :| && Reached(whole, u, depth) && Trims(u, t) && k == BlockOf(t)
                            && (depth == MaxDepth || (depth < MaxDepth && NoAnchors(t)));
    if depth < MaxDepth {
      NothingShared(t, k);
    }
  }

  /** Each level passes an anchor, so as many lines as levels lie outside the window on both sides. */
  lemma {:induction false} DeepNeedsLines(whole: Window, w: Window, depth: nat)
    requires whole.Valid() && Reached(whole, w, depth)
    ensures w.fromEnd - w.fromStart + depth <= whole.fromEnd - whole.fromStart
    ensures w.toEnd - w.toStart + depth <= whole.toEnd - whole.toStart
    decreases depth
  {
    hide Enters;
    if depth > 0 {
      var u, t, anchors, index: nat :| Reached(whole, u, depth - 1) && Enters(u, t, anchors, index, w);
      DeepNeedsLines(whole, u, depth - 1);
      LevelSmaller(u, t, anchors, index, w);
    }
  }

  lemma LevelSmaller(u: Window, t: Window, anchors: seq<Anchor>, index: nat, w: Window)
    requires Enters(u, t, anchors, index, w)
    ensures w.fromEnd - w.fromStart < u.fromEnd - u.fromStart && w.toEnd - w.toStart < u.toEnd - u.toStart
  {
    assert index > 0 ==> t.Matches(anchors[index - 1]);
    assert index < |anchors| ==> t.Matches(anchors[index]);
  }

  /** With fewer lines than levels on one side, only the table limit is left. */
  lemma FewLinesSharp(k: Block, whole: Window)
    requires whole.Valid() && Explained(k, whole)
    requires whole.fromEnd - whole.fromStart < MaxDepth || whole.toEnd - whole.toStart < MaxDepth
    ensures !SharesLine(k) || TooLarge(k)
  {
    ExplainedSharp(k, whole);
    if u, t :| Reached(whole, u, MaxDepth) && Trims(u, t) && k == BlockOf(t) {
      DeepNeedsLines(whole, u, MaxDepth);
    }
  }

  // Collecting

  /** What is left to compare begins after the last anchor passed and not after the next one. */
  predicate BeforeAnchor(w: Window, anchors: seq<Anchor>, index: nat, fromAt: nat, toAt: nat)
    requires index <= |anchors|
  {
    && w.fromStart <= fromAt && w.toStart <= toAt
    && (index > 0 ==> w.fromStart < fromAt && w.toStart < toAt)
    && (if index < |anchors| then fromAt <= anchors[index].from && toAt <= anchors[index].to
        else fromAt <= w.fromEnd && toAt <= w.toEnd)
  }

  lemma StartBefore(w: Window, anchors: seq<Anchor>)
    requires w.Valid() && CommonSubsequence(w, anchors) && |anchors| > 0
    ensures BeforeAnchor(w, anchors, 0, w.fromStart, w.toStart)
  {
    assert w.Matches(anchors[0]);
  }

  lemma AnchorAhead(w: Window, anchors: seq<Anchor>, index: nat, fromAt: nat, toAt: nat)
    requires index <= |anchors| && BeforeAnchor(w, anchors, index, fromAt, toAt)
    ensures w.fromStart <= fromAt && w.toStart <= toAt
    ensures index < |anchors| ==> fromAt <= anchors[index].from && toAt <= anchors[index].to
    ensures index == |anchors| > 0 ==> w.fromStart < fromAt <= w.fromEnd && w.toStart < toAt <= w.toEnd
  {
  }

  lemma PassAnchor(w: Window, anchors: seq<Anchor>, index: nat)
    requires w.Valid() && CommonSubsequence(w, anchors) && index < |anchors|
    ensures w.Matches(anchors[index])
    ensures BeforeAnchor(w, anchors, index + 1, anchors[index].from + 1, anchors[index].to + 1)
  {
    if index + 1 < |anchors| {
      assert anchors[index].from < anchors[index + 1].from && anchors[index].to < anchors[index + 1].to;
    }
  }

  function BlockOf(w: Window): Block
    requires w.Valid()
  {
    Block(w.fromStart, w.toStart, w.a[w.fromStart..w.fromEnd], w.b[w.toStart..w.toEnd])
  }

  lemma CoversNothing(w: Window)
    requires w.Valid() && w.fromStart == w.fromEnd && w.toStart == w.toEnd
    ensures Covers(w, [])
  {
  }

  lemma CoversOne(w: Window)
    requires w.Valid() && w.fromEnd - w.fromStart + w.toEnd - w.toStart > 0
    ensures Covers(w, [BlockOf(w)])
  {
    assert [BlockOf(w)][1..] == [];
    CoversNothing(w.(fromStart := w.fromEnd, toStart := w.toEnd));
  }

  /** Since `base`, the blocks of everything up to a place were collected. */
  ghost predicate Gathered(w: Window, fromAt: nat, toAt: nat, base: seq<Block>, all: seq<Block>, added: seq<Block>) {
    && w.Valid() && w.fromStart <= fromAt <= w.fromEnd && w.toStart <= toAt <= w.toEnd
    && all == base + added && Covers(w.(fromEnd := fromAt, toEnd := toAt), added)
  }

  lemma StartGathered(w: Window, base: seq<Block>)
    requires w.Valid()
    ensures Gathered(w, w.fromStart, w.toStart, base, base, [])
  {
    CoversNothing(w.(fromEnd := w.fromStart, toEnd := w.toStart));
  }

  /** Collects the blocks of one window. */
  class BlockCollector {
    var blocks: seq<Block>
    ghost const whole: Window

    constructor (ghost whole: Window)
      ensures blocks == [] && Valid() && this.whole == whole
    {
      blocks := [];
      this.whole := whole;
    }

    /** Every block collected so far is there for a reason. */
    ghost predicate Valid()
      reads this
    {
      forall i | 0 <= i < |blocks| :: Explained(blocks[i], whole)
    }

    method Append(w: Window)
      requires w.Valid() && w.fromEnd - w.fromStart + w.toEnd - w.toStart > 0
      requires Valid() && Explained(BlockOf(w), whole)
      modifies this
      ensures Valid()
      ensures blocks == old(blocks) + [BlockOf(w)]
    {
      blocks := blocks + [BlockOf(w)];
    }

    method Collect(w0: Window, depth: nat) returns (ghost added: seq<Block>)
      requires w0.Valid() && depth <= MaxDepth && Reached(whole, w0, depth)
      requires Valid()
      modifies this
      ensures Valid()
      ensures blocks == old(blocks) + added
      ensures Covers(w0, added)
      ensures w0.a[w0.fromStart..w0.fromEnd] == w0.b[w0.toStart..w0.toEnd] ==> added == []
      decreases w0.fromEnd - w0.fromStart + w0.toEnd - w0.toStart, 2
    {
      hide Covers;
      hide TableFits;
      hide SharesLine;
      hide CommonSubsequence;
      hide Reached;
      hide BestAnchors;
      hide NoAnchors;
      var w := Trim(w0);
      if w.fromStart == w.fromEnd && w.toStart == w.toEnd {
        added := [];
        CoversNothing(w);
        CoversTrimmed(w0, w, added);
        return;
      }
      if depth >= MaxDepth {
        Append(w);
        added := [BlockOf(w)];
        CoversOne(w);
        CoversTrimmed(w0, w, added);
        return;
      }
      var anchors := FindAnchors(w);
      if |anchors| == 0 {
        Append(w);
        added := [BlockOf(w)];
        CoversOne(w);
        CoversTrimmed(w0, w, added);
        return;
      }
      added := CollectBetween(w0, w, anchors, depth);
      CoversTrimmed(w0, w, added);
    }

    /** Recurse between the anchors, and after the last one. */
    method CollectBetween(ghost w0: Window, w: Window, anchors: seq<Anchor>, depth: nat)
      returns (ghost added: seq<Block>)
      requires w.Valid() && depth < MaxDepth && Reached(whole, w0, depth) && Trims(w0, w) && BestAnchors(w, anchors)
      requires Valid()
      modifies this
      ensures Valid()
      ensures blocks == old(blocks) + added
      ensures Covers(w, added)
      decreases w.fromEnd - w.fromStart + w.toEnd - w.toStart, 1
    {
      hide Covers;
      hide BeforeAnchor;
      hide CommonSubsequence;
      hide Gathered;
      hide Reached;
      hide Trims;
      assert CommonSubsequence(w, anchors) && |anchors| > 0;
      hide BestAnchors;
      var previousFrom: nat, previousTo: nat := w.fromStart, w.toStart;
      added := [];
      StartBefore(w, anchors);
      StartGathered(w, blocks);
      for index := 0 to |anchors|
        invariant BeforeAnchor(w, anchors, index, previousFrom, previousTo)
        invariant previousFrom == Gap(w, anchors, index).fromStart && previousTo == Gap(w, anchors, index).toStart
        invariant Gathered(w, previousFrom, previousTo, old(blocks), blocks, added)
        invariant Valid()
      {
        PassAnchor(w, anchors, index);
        AnchorAhead(w, anchors, index, previousFrom, previousTo);
        GapReached(whole, w0, w, anchors, index, depth);
        added := CollectGap(w, anchors[index], previousFrom, previousTo, depth, old(blocks), added);
        previousFrom, previousTo := anchors[index].from + 1, anchors[index].to + 1;
      }
      AnchorAhead(w, anchors, |anchors|, previousFrom, previousTo);
      GapReached(whole, w0, w, anchors, |anchors|, depth);
      added := CollectRest(w, previousFrom, previousTo, depth, old(blocks), added);
    }

    method CollectRest(w: Window, previousFrom: nat, previousTo: nat, depth: nat, ghost base: seq<Block>,
                       ghost added: seq<Block>)
      returns (ghost extended: seq<Block>)
      requires w.Valid() && w.fromStart < previousFrom <= w.fromEnd && w.toStart < previousTo <= w.toEnd
      requires Gathered(w, previousFrom, previousTo, base, blocks, added)
      requires depth < MaxDepth && Reached(whole, w.(fromStart := previousFrom, toStart := previousTo), depth + 1)
      requires Valid()
      modifies this
      ensures Valid()
      ensures blocks == base + extended
      ensures Covers(w, extended)
      decreases w.fromEnd - w.fromStart + w.toEnd - w.toStart, 0
    {
      hide Covers;
      hide Reached;
      ghost var more := Collect(w.(fromStart := previousFrom, toStart := previousTo), depth + 1);
      CoversConcat(w, added, previousFrom, previousTo, more);
      extended := added + more;
    }

    /** One gap, up to an anchor. */
    method CollectGap(w: Window, x: Anchor, previousFrom: nat, previousTo: nat, depth: nat, ghost base: seq<Block>,
                      ghost added: seq<Block>)
      returns (ghost extended: seq<Block>)
      requires w.Valid() && w.Matches(x)
      requires w.fromStart <= previousFrom <= x.from && w.toStart <= previousTo <= x.to
      requires Gathered(w, previousFrom, previousTo, base, blocks, added)
      requires depth < MaxDepth && Reached(whole, Between(w, previousFrom, previousTo, x), depth + 1)
      requires Valid()
      modifies this
      ensures Valid()
      ensures Gathered(w, x.from + 1, x.to + 1, base, blocks, extended)
      decreases w.fromEnd - w.fromStart + w.toEnd - w.toStart, 0
    {
      hide Covers;
      hide Reached;
      ghost var more := Collect(Between(w, previousFrom, previousTo, x), depth + 1);
      JoinAtAnchor(w, x, previousFrom, previousTo, added, more);
      extended := added + more;
    }
  }

  function Between(w: Window, previousFrom: nat, previousTo: nat, x: Anchor): Window {
    w.(fromStart := previousFrom, fromEnd := x.from, toStart := previousTo, toEnd := x.to)
  }

  lemma GapReached(whole: Window, u: Window, t: Window, anchors: seq<Anchor>, index: nat, depth: nat)
    requires Reached(whole, u, depth) && Trims(u, t) && BestAnchors(t, anchors) && index <= |anchors|
    ensures Reached(whole, Gap(t, anchors, index), depth + 1)
  {
    assert Enters(u, t, anchors, index, Gap(t, anchors, index));
  }

  /** Drop the common prefix, then the common suffix. */
  method Trim(w0: Window) returns (w: Window)
    requires w0.Valid()
    ensures Trims(w0, w)
    ensures w0.a[w0.fromStart..w0.fromEnd] == w0.b[w0.toStart..w0.toEnd] ==>
            w.fromStart == w.fromEnd && w.toStart == w.toEnd
  {
    var fromStart, fromEnd, toStart, toEnd := w0.fromStart, w0.fromEnd, w0.toStart, w0.toEnd;
    while fromStart < fromEnd && toStart < toEnd && w0.a[fromStart] == w0.b[toStart]
      invariant w0.fromStart <= fromStart <= fromEnd && w0.toStart <= toStart <= toEnd
      invariant w0.a[w0.fromStart..fromStart] == w0.b[w0.toStart..toStart]
    {
      assert w0.a[w0.fromStart..fromStart + 1] == w0.a[w0.fromStart..fromStart] + [w0.a[fromStart]];
      assert w0.b[w0.toStart..toStart + 1] == w0.b[w0.toStart..toStart] + [w0.b[toStart]];
      fromStart := fromStart + 1;
      toStart := toStart + 1;
    }
    while fromStart < fromEnd && toStart < toEnd && w0.a[fromEnd - 1] == w0.b[toEnd - 1]
      invariant fromStart <= fromEnd <= w0.fromEnd && toStart <= toEnd <= w0.toEnd
      invariant w0.a[fromEnd..w0.fromEnd] == w0.b[toEnd..w0.toEnd]
      invariant fromStart < w0.fromEnd && toStart < w0.toEnd ==> w0.a[fromStart] != w0.b[toStart]
    {
      assert w0.a[fromEnd - 1..w0.fromEnd] == [w0.a[fromEnd - 1]] + w0.a[fromEnd..w0.fromEnd];
      assert w0.b[toEnd - 1..w0.toEnd] == [w0.b[toEnd - 1]] + w0.b[toEnd..w0.toEnd];
      fromEnd := fromEnd - 1;
      toEnd := toEnd - 1;
    }
    w := Window(w0.a, w0.b, fromStart, fromEnd, toStart, toEnd);
    if w0.a[w0.fromStart..w0.fromEnd] == w0.b[w0.toStart..w0.toEnd] {
      EqualTrimsAway(w0, w);
    }
  }

  /** Patience anchors, or the bounded table when no line is unique on both sides. */
  method FindAnchors(w: Window) returns (anchors: seq<Anchor>)
    requires w.Valid()
    ensures CommonSubsequence(w, anchors)
    ensures if |anchors| == 0 then NoAnchors(w) else BestAnchors(w, anchors)
  {
    anchors := PatienceAnchors(w);
    if |anchors| > 0 {
      assert UniqueMatch(w, anchors[0]);
      assert IsUniqueChain(w, anchors);
    } else {
      forall x ensures !UniqueMatch(w, x) {
        if UniqueMatch(w, x) {
          assert IsUniqueChain(w, [x]);
        }
      }
      anchors := LcsAnchors(w);
      if |anchors| == 0 && TableFits(w.fromEnd - w.fromStart, w.toEnd - w.toStart) {
        forall x ensures !w.Matches(x) {
          if w.Matches(x) {
            assert CommonSubsequence(w, [x]);
          }
        }
      }
    }
  }

  lemma NothingShared(w: Window, k: Block)
    requires w.Valid() && k == BlockOf(w)
    requires TableFits(w.fromEnd - w.fromStart, w.toEnd - w.toStart) ==> forall x :: !w.Matches(x)
    ensures !SharesLine(k) || TooLarge(k)
  {
    if SharesLine(k) && !TooLarge(k) {
      var i, j :| 0 <= i < |k.fromLines| && 0 <= j < |k.toLines| && k.fromLines[i] == k.toLines[j];
      assert w.Matches(Anchor(w.fromStart + i, w.toStart + j));
    }
  }

  lemma CoversTrimmed(w0: Window, w: Window, blocks: seq<Block>)
    requires w0.Valid() && w.Valid() && w.a == w0.a && w.b == w0.b
    requires w0.fromStart <= w.fromStart <= w.fromEnd <= w0.fromEnd
    requires w0.toStart <= w.toStart <= w.toEnd <= w0.toEnd
    requires w.a[w0.fromStart..w.fromStart] == w.b[w0.toStart..w.toStart]
    requires w.a[w.fromEnd..w0.fromEnd] == w.b[w.toEnd..w0.toEnd]
    requires Covers(w, blocks)
    ensures Covers(w0, blocks)
  {
    CoversTail(w.(fromEnd := w0.fromEnd, toEnd := w0.toEnd), w.fromEnd, w.toEnd, blocks);
    CoversGap(w0, w.fromStart, w.toStart, blocks);
  }

  /** Equal ranges are trimmed away entirely. */
  lemma EqualTrimsAway(w0: Window, w: Window)
    requires Trims(w0, w) && w0.a[w0.fromStart..w0.fromEnd] == w0.b[w0.toStart..w0.toEnd]
    ensures w.fromStart == w.fromEnd && w.toStart == w.toEnd
  {
    var before := w.fromStart - w0.fromStart;
    assert |w0.a[w0.fromStart..w.fromStart]| == |w0.b[w0.toStart..w.toStart]|;
    assert |w0.a[w.fromEnd..w0.fromEnd]| == |w0.b[w.toEnd..w0.toEnd]|;
    assert |w0.a[w0.fromStart..w0.fromEnd]| == |w0.b[w0.toStart..w0.toEnd]|;
    if w.fromStart < w.fromEnd {
      SliceAt(w0.a, w0.fromStart, w0.fromEnd, w.fromStart);
      SliceAt(w0.b, w0.toStart, w0.toEnd, w.toStart);
    }
  }

  lemma SliceAt(lines: seq<string>, lo: nat, hi: nat, k: nat)
    requires lo <= k < hi <= |lines|
    ensures lines[lo..hi][k - lo] == lines[k]
  {
  }
}
