/**
 Anchors of the line diff: services/vdoc/store.go, markdownLCSAnchors and markdownPatienceAnchors.
 Both pick pairs of equal lines, increasing on both sides; each is optimal for what it looks at.
 */
module LineAnchors {

  datatype Anchor = Anchor(from: nat, to: nat)

  /** The two documents and the index range under comparison on each side. */
  datatype Window = Window(a: seq<string>, b: seq<string>, fromStart: nat, fromEnd: nat, toStart: nat, toEnd: nat) {
    predicate Valid() {
      fromStart <= fromEnd <= |a| && toStart <= toEnd <= |b|
    }

    predicate Matches(x: Anchor)
      requires Valid()
    {
      fromStart <= x.from < fromEnd && toStart <= x.to < toEnd && a[x.from] == b[x.to]
    }
  }

  ghost predicate Increasing(anchors: seq<Anchor>) {
    forall i, j | 0 <= i < j < |anchors| :: anchors[i].from < anchors[j].from && anchors[i].to < anchors[j].to
  }

  /** Equal lines, strictly increasing on both sides: a common subsequence of the two ranges. */
  ghost predicate CommonSubsequence(w: Window, anchors: seq<Anchor>)
    requires w.Valid()
  {
    Increasing(anchors) && forall i | 0 <= i < |anchors| :: w.Matches(anchors[i])
  }

  // Longest common subsequence

  const MaxLcsCells := 256 * 1024

  newtype uint32 = x: int | 0 <= x < 0x1_0000_0000

  /** The table's recurrence: the value for the ranges that start at `i` and `j`. */
  function Lcs(w: Window, i: nat, j: nat): (n: nat)
    requires w.Valid() && w.fromStart <= i <= w.fromEnd && w.toStart <= j <= w.toEnd
    ensures n <= w.fromEnd - i
    decreases (w.fromEnd - i) + (w.toEnd - j)
  {
    if i == w.fromEnd || j == w.toEnd then 0
    else if w.a[i] == w.b[j] then Lcs(w, i + 1, j + 1) + 1
    else if Lcs(w, i + 1, j) >= Lcs(w, i, j + 1) then Lcs(w, i + 1, j)
    else Lcs(w, i, j + 1)
  }

  /** No common subsequence is longer than the table says. */
  lemma {:induction false} LcsIsUpperBound(w: Window, i: nat, j: nat, c: seq<Anchor>)
    requires w.Valid() && w.fromStart <= i <= w.fromEnd && w.toStart <= j <= w.toEnd
    requires CommonSubsequence(w, c) && (c != [] ==> i <= c[0].from && j <= c[0].to)
    ensures |c| <= Lcs(w, i, j)
    decreases (w.fromEnd - i) + (w.toEnd - j)
  {
    if c != [] {
      if w.a[i] == w.b[j] {
        LcsIsUpperBound(w, i + 1, j + 1, c[1..]);
      } else if c[0].from > i {
        LcsIsUpperBound(w, i + 1, j, c);
      } else {
        LcsIsUpperBound(w, i, j + 1, c);
      }
    }
  }

  /** The flat index of a cell, row * columns + column. */
  function Cell(row: nat, column: nat, columns: nat): nat {
    if row == 0 then column else columns + Cell(row - 1, column, columns)
  }

  lemma {:induction false} CellIsIndex(row: nat, column: nat, columns: nat)
    ensures Cell(row, column, columns) == row * columns + column
  {
    if row > 0 {
      CellIsIndex(row - 1, column, columns);
      assert row * columns == (row - 1) * columns + columns;
    }
  }

  /** The table has rows * columns cells, and the last one is the last in range. */
  lemma LastCell(rows: nat, columns: nat)
    requires rows > 0 && columns > 0
    ensures Cell(rows - 1, columns - 1, columns) + 1 == rows * columns
  {
    CellIsIndex(rows - 1, columns - 1, columns);
    assert (rows - 1) * columns + columns == rows * columns;
  }

  lemma {:induction false} CellInRange(row: nat, column: nat, lastRow: nat, lastColumn: nat)
    requires row <= lastRow && column <= lastColumn
    ensures Cell(row, column, lastColumn + 1) <= Cell(lastRow, lastColumn, lastColumn + 1)
  {
    if row > 0 {
      CellInRange(row - 1, column, lastRow - 1, lastColumn);
    } else if lastRow > 0 {
      CellInRange(0, column, lastRow - 1, lastColumn);
    }
  }

  lemma {:induction false} RowsFit(lastRow: nat, lastColumn: nat)
    ensures lastRow <= Cell(lastRow, lastColumn, lastColumn + 1)
  {
    if lastRow > 0 {
      RowsFit(lastRow - 1, lastColumn);
    }
  }

  lemma {:induction false} CellInjective(r: nat, c: nat, r': nat, c': nat, columns: nat)
    requires c < columns && c' < columns && (r != r' || c != c')
    ensures Cell(r, c, columns) != Cell(r', c', columns)
  {
    if r > 0 && r' > 0 {
      CellInjective(r - 1, c, r' - 1, c', columns);
    }
  }

  /** Which cells hold their final value once the loops have come down to (`row`, `column`). */
  predicate Done(r: nat, c: nat, row: int, column: int, fromCount: nat, toCount: nat) {
    r == fromCount || c == toCount || r > row || (r == row && c > column)
  }

  ghost predicate CellOk(w: Window, table: seq<uint32>, r: nat, c: nat)
    requires w.Valid() && r <= w.fromEnd - w.fromStart && c <= w.toEnd - w.toStart
  {
    && Cell(r, c, w.toEnd - w.toStart + 1) < |table|
    && table[Cell(r, c, w.toEnd - w.toStart + 1)] as int == Lcs(w, w.fromStart + r, w.toStart + c)
  }

  /** The cells that are done, the loops going from the last row and column down. */
  ghost predicate Filled(w: Window, table: seq<uint32>, row: int, column: int)
    requires w.Valid()
  {
    forall r: nat, c: nat | r <= w.fromEnd - w.fromStart && c <= w.toEnd - w.toStart ::
      Done(r, c, row, column, w.fromEnd - w.fromStart, w.toEnd - w.toStart) ==> CellOk(w, table, r, c)
  }

  lemma FillOne(w: Window, before: seq<uint32>, after: seq<uint32>, row: nat, column: nat, value: uint32)
    requires w.Valid() && row < w.fromEnd - w.fromStart && column < w.toEnd - w.toStart
    requires Filled(w, before, row, column)
    requires value as int == Lcs(w, w.fromStart + row, w.toStart + column)
    requires Cell(row, column, w.toEnd - w.toStart + 1) < |before|
    requires after == before[Cell(row, column, w.toEnd - w.toStart + 1) := value]
    ensures Filled(w, after, row, column - 1)
  {
    forall r: nat, c: nat | r <= w.fromEnd - w.fromStart && c <= w.toEnd - w.toStart
      ensures Done(r, c, row, column - 1, w.fromEnd - w.fromStart, w.toEnd - w.toStart) ==> CellOk(w, after, r, c)
    {
      if (r != row || c != column) && Done(r, c, row, column - 1, w.fromEnd - w.fromStart, w.toEnd - w.toStart) {
        assert CellOk(w, before, r, c);
        CellInjective(r, c, row, column, w.toEnd - w.toStart + 1);
      }
    }
  }

  method FillTable(w: Window, size: nat) returns (table: array<uint32>)
    requires w.Valid() && w.fromStart < w.fromEnd && w.toStart < w.toEnd
    requires size == Cell(w.fromEnd - w.fromStart, w.toEnd - w.toStart, w.toEnd - w.toStart + 1) + 1 <= MaxLcsCells
    ensures fresh(table) && table.Length == size
    ensures Filled(w, table[..], -1, -1)
  {
    var fromCount, toCount := w.fromEnd - w.fromStart, w.toEnd - w.toStart;
    var columns := toCount + 1;
    table := new uint32[size](_ => 0);
    AllZero(w, table[..]);
    var fromIndex := fromCount - 1;
    while fromIndex >= 0
      invariant -1 <= fromIndex < fromCount
      invariant Filled(w, table[..], fromIndex, toCount)
    {
      var toIndex := toCount - 1;
      while toIndex >= 0
        invariant -1 <= toIndex < toCount
        invariant Filled(w, table[..], fromIndex, toIndex)
      {
        CellInRange(fromIndex, toIndex, fromCount, toCount);
        ReadAround(w, table[..], fromIndex, toIndex);
        ghost var before := table[..];
        var value: uint32;
        if w.a[w.fromStart + fromIndex] == w.b[w.toStart + toIndex] {
          value := table[Cell(fromIndex + 1, toIndex + 1, columns)] + 1;
        } else {
          var remove := table[Cell(fromIndex + 1, toIndex, columns)];
          var add := table[Cell(fromIndex, toIndex + 1, columns)];
          if remove >= add {
            value := remove;
          } else {
            value := add;
          }
        }
        table[Cell(fromIndex, toIndex, columns)] := value;
        FillOne(w, before, table[..], fromIndex, toIndex, value);
        toIndex := toIndex - 1;
      }
      NextRow(w, table[..], fromIndex);
      fromIndex := fromIndex - 1;
    }
  }

  lemma AllZero(w: Window, table: seq<uint32>)
    requires w.Valid() && w.fromStart < w.fromEnd
    requires |table| == Cell(w.fromEnd - w.fromStart, w.toEnd - w.toStart, w.toEnd - w.toStart + 1) + 1
    requires forall k | 0 <= k < |table| :: table[k] == 0
    ensures Filled(w, table, w.fromEnd - w.fromStart - 1, w.toEnd - w.toStart)
  {
    var fromCount, toCount := w.fromEnd - w.fromStart, w.toEnd - w.toStart;
    forall r: nat, c: nat | r <= fromCount && c <= toCount
      ensures Done(r, c, fromCount - 1, toCount, fromCount, toCount) ==> CellOk(w, table, r, c)
    {
      CellInRange(r, c, fromCount, toCount);
    }
  }

  /** The three neighbours a cell is computed from are final, and the diagonal one leaves room for 1. */
  lemma ReadAround(w: Window, table: seq<uint32>, row: nat, column: nat)
    requires w.Valid() && row < w.fromEnd - w.fromStart && column < w.toEnd - w.toStart
    requires Cell(w.fromEnd - w.fromStart, w.toEnd - w.toStart, w.toEnd - w.toStart + 1) < MaxLcsCells
    requires Filled(w, table, row, column)
    ensures CellOk(w, table, row + 1, column + 1) && CellOk(w, table, row + 1, column)
            && CellOk(w, table, row, column + 1)
    ensures Lcs(w, w.fromStart + row + 1, w.toStart + column + 1) < MaxLcsCells
  {
    var fromCount, toCount := w.fromEnd - w.fromStart, w.toEnd - w.toStart;
    assert Done(row + 1, column + 1, row, column, fromCount, toCount);
    assert Done(row + 1, column, row, column, fromCount, toCount);
    assert Done(row, column + 1, row, column, fromCount, toCount);
    RowsFit(fromCount, toCount);
  }

  lemma NextRow(w: Window, table: seq<uint32>, row: nat)
    requires w.Valid() && row < w.fromEnd - w.fromStart && Filled(w, table, row, -1)
    ensures Filled(w, table, row - 1, w.toEnd - w.toStart)
  {
    var fromCount, toCount := w.fromEnd - w.fromStart, w.toEnd - w.toStart;
    forall r: nat, c: nat | r <= fromCount && c <= toCount
      ensures Done(r, c, row - 1, toCount, fromCount, toCount) ==> CellOk(w, table, r, c)
    {
      assert Done(r, c, row - 1, toCount, fromCount, toCount) ==> Done(r, c, row, -1, fromCount, toCount);
    }
  }

  /** Whether the bounded table is used at all. */
  predicate TableFits(fromCount: nat, toCount: nat) {
    fromCount + 1 <= MaxLcsCells / (toCount + 1)
  }

  lemma TableFitsMeans(fromCount: nat, toCount: nat)
    ensures TableFits(fromCount, toCount) <==> (fromCount + 1) * (toCount + 1) <= MaxLcsCells
  {
    var rows, columns := fromCount + 1, toCount + 1;
    var q := MaxLcsCells / columns;
    assert q * columns <= MaxLcsCells < (q + 1) * columns;
    if rows <= q {
      assert rows * columns <= q * columns;
    } else {
      assert (q + 1) * columns <= rows * columns;
    }
  }

  method LcsAnchors(w: Window) returns (anchors: seq<Anchor>)
    requires w.Valid()
    ensures CommonSubsequence(w, anchors)
    ensures TableFits(w.fromEnd - w.fromStart, w.toEnd - w.toStart) ==>
              forall c: seq<Anchor> | CommonSubsequence(w, c) :: |c| <= |anchors|
    ensures !TableFits(w.fromEnd - w.fromStart, w.toEnd - w.toStart) ==> anchors == []
  {
    var fromCount, toCount := w.fromEnd - w.fromStart, w.toEnd - w.toStart;
    if fromCount == 0 || toCount == 0 {
      forall c: seq<Anchor> | CommonSubsequence(w, c) ensures c == [] {
        assert c != [] ==> w.Matches(c[0]);
      }
      return [];
    }
    var rows, columns := fromCount + 1, toCount + 1;
    TableFitsMeans(fromCount, toCount);
    if rows > MaxLcsCells / columns {
      return [];
    }
    LastCell(rows, columns);
    var table := FillTable(w, rows * columns);
    anchors := Traceback(w, table);
    forall c: seq<Anchor> | CommonSubsequence(w, c) ensures |c| <= |anchors| {
      assert c != [] ==> w.Matches(c[0]);
      LcsIsUpperBound(w, w.fromStart, w.toStart, c);
    }
  }

  /** Walk the filled table from its first cell, taking a pair of equal lines wherever there is one. */
  lemma TableRead(w: Window, table: seq<uint32>, r: nat, c: nat)
    requires w.Valid() && Filled(w, table, -1, -1) && r <= w.fromEnd - w.fromStart && c <= w.toEnd - w.toStart
    ensures Cell(r, c, w.toEnd - w.toStart + 1) < |table|
    ensures table[Cell(r, c, w.toEnd - w.toStart + 1)] as int == Lcs(w, w.fromStart + r, w.toStart + c)
  {
    assert CellOk(w, table, r, c);
  }

  ghost predicate EndsBefore(anchors: seq<Anchor>, i: int, j: int) {
    forall k | 0 <= k < |anchors| :: anchors[k].from < i && anchors[k].to < j
  }

  lemma ExtendChain(w: Window, anchors: seq<Anchor>, x: Anchor)
    requires w.Valid() && CommonSubsequence(w, anchors) && EndsBefore(anchors, x.from, x.to) && w.Matches(x)
    ensures CommonSubsequence(w, anchors + [x]) && EndsBefore(anchors + [x], x.from + 1, x.to + 1)
  {
  }

  lemma MoveOn(anchors: seq<Anchor>, i: int, j: int)
    requires EndsBefore(anchors, i, j)
    ensures EndsBefore(anchors, i + 1, j) && EndsBefore(anchors, i, j + 1)
  {
  }

  /** Where the lines differ, the larger neighbour keeps the value. */
  lemma TableStep(w: Window, table: array<uint32>, r: nat, c: nat)
    requires w.Valid() && Filled(w, table[..], -1, -1) && r < w.fromEnd - w.fromStart && c < w.toEnd - w.toStart
    requires w.a[w.fromStart + r] != w.b[w.toStart + c]
    ensures var columns := w.toEnd - w.toStart + 1;
            && Cell(r + 1, c, columns) < table.Length && Cell(r, c + 1, columns) < table.Length
            && Lcs(w, w.fromStart + r, w.toStart + c) ==
               if table[Cell(r + 1, c, columns)] >= table[Cell(r, c + 1, columns)]
               then Lcs(w, w.fromStart + r + 1, w.toStart + c) else Lcs(w, w.fromStart + r, w.toStart + c + 1)
  {
    TableRead(w, table[..], r + 1, c);
    TableRead(w, table[..], r, c + 1);
  }

  lemma EqualStep(w: Window, i: nat, j: nat)
    requires w.Valid() && w.fromStart <= i < w.fromEnd && w.toStart <= j < w.toEnd && w.a[i] == w.b[j]
    ensures Lcs(w, i, j) == Lcs(w, i + 1, j + 1) + 1
  {
  }

  lemma LcsEnd(w: Window, i: nat, j: nat)
    requires w.Valid() && w.fromStart <= i <= w.fromEnd && w.toStart <= j <= w.toEnd && (i == w.fromEnd || j == w.toEnd)
    ensures Lcs(w, i, j) == 0
  {
  }

  method Traceback(w: Window, table: array<uint32>) returns (anchors: seq<Anchor>)
    requires w.Valid() && Filled(w, table[..], -1, -1)
    ensures CommonSubsequence(w, anchors)
    ensures |anchors| == Lcs(w, w.fromStart, w.toStart)
  {
    hide Filled;
    hide Cell;
    var fromCount, toCount := w.fromEnd - w.fromStart, w.toEnd - w.toStart;
    var columns := toCount + 1;
    anchors := [];
    assert CommonSubsequence(w, anchors) && EndsBefore(anchors, w.fromStart, w.toStart);
    hide CommonSubsequence;
    hide EndsBefore;
    hide Lcs;
    var fromIndex, toIndex := 0, 0;
    while fromIndex < fromCount && toIndex < toCount
      invariant 0 <= fromIndex <= fromCount && 0 <= toIndex <= toCount
      invariant CommonSubsequence(w, anchors)
      invariant EndsBefore(anchors, w.fromStart + fromIndex, w.toStart + toIndex)
      invariant |anchors| + Lcs(w, w.fromStart + fromIndex, w.toStart + toIndex) == Lcs(w, w.fromStart, w.toStart)
      decreases fromCount - fromIndex + toCount - toIndex
    {
      if w.a[w.fromStart + fromIndex] == w.b[w.toStart + toIndex] {
        EqualStep(w, w.fromStart + fromIndex, w.toStart + toIndex);
        ExtendChain(w, anchors, Anchor(w.fromStart + fromIndex, w.toStart + toIndex));
        anchors := anchors + [Anchor(w.fromStart + fromIndex, w.toStart + toIndex)];
        fromIndex := fromIndex + 1;
        toIndex := toIndex + 1;
        continue;
      }
      MoveOn(anchors, w.fromStart + fromIndex, w.toStart + toIndex);
      TableStep(w, table, fromIndex, toIndex);
      if table[Cell(fromIndex + 1, toIndex, columns)] >= table[Cell(fromIndex, toIndex + 1, columns)] {
        fromIndex := fromIndex + 1;
      } else {
        toIndex := toIndex + 1;
      }
    }
    LcsEnd(w, w.fromStart + fromIndex, w.toStart + toIndex);
  }

  // Patience

  function Count(lines: seq<string>, lo: nat, hi: nat, line: string): (n: nat)
    requires lo <= hi <= |lines|
    ensures n > 0 <==> exists k :: lo <= k < hi && lines[k] == line
  {
    if lo == hi then 0 else Count(lines, lo, hi - 1, line) + if lines[hi - 1] == line then 1 else 0
  }

  /** A line that occurs once leaves no second position for itself. */
  lemma {:induction false} CountOneIsUnique(lines: seq<string>, lo: nat, hi: nat, line: string, i: nat, j: nat)
    requires lo <= i < j < hi <= |lines| && lines[i] == line && lines[j] == line
    ensures Count(lines, lo, hi, line) >= 2
  {
    if j < hi - 1 {
      CountOneIsUnique(lines, lo, hi - 1, line, i, j);
    }
  }

  /** A pair of equal lines, unique in its range on each side. */
  ghost predicate UniqueMatch(w: Window, x: Anchor)
    requires w.Valid()
  {
    && w.Matches(x)
    && Count(w.a, w.fromStart, w.fromEnd, w.a[x.from]) == 1
    && Count(w.b, w.toStart, w.toEnd, w.b[x.to]) == 1
  }

  function Get(counts: map<string, nat>, line: string): nat {
    if line in counts then counts[line] else 0
  }

  method CountLines(lines: seq<string>, lo: nat, hi: nat) returns (counts: map<string, nat>, indexes: map<string, nat>)
    requires lo <= hi <= |lines|
    ensures forall line :: Get(counts, line) == Count(lines, lo, hi, line)
    ensures forall k | lo <= k < hi :: lines[k] in indexes
    ensures forall line | line in indexes :: lo <= indexes[line] < hi && lines[indexes[line]] == line
  {
    counts, indexes := map[], map[];
    for index := lo to hi
      invariant forall line :: Get(counts, line) == Count(lines, lo, index, line)
      invariant forall k | lo <= k < index :: lines[k] in indexes
      invariant forall line | line in indexes :: lo <= indexes[line] < index && lines[indexes[line]] == line
    {
      var line := lines[index];
      counts := counts[line := Get(counts, line) + 1];
      indexes := indexes[line := index];
    }
  }

  /** The candidates of a window: its unique matches, in the order of the old side. */
  ghost predicate IsCandidates(w: Window, candidates: seq<Anchor>)
    requires w.Valid()
  {
    && (forall i | 0 <= i < |candidates| :: UniqueMatch(w, candidates[i]))
    && (forall i, j | 0 <= i < j < |candidates| :: candidates[i].from < candidates[j].from)
    && (forall x | UniqueMatch(w, x) :: x in candidates)
  }

  method Candidates(w: Window) returns (candidates: seq<Anchor>)
    requires w.Valid()
    ensures IsCandidates(w, candidates)
  {
    var fromCounts, _ := CountLines(w.a, w.fromStart, w.fromEnd);
    var toCounts, toIndexes := CountLines(w.b, w.toStart, w.toEnd);
    candidates := [];
    for index := w.fromStart to w.fromEnd
      invariant CandidatesBefore(w, index, candidates)
    {
      var line := w.a[index];
      if Get(fromCounts, line) == 1 && Get(toCounts, line) == 1 {
        AddCandidate(w, index, candidates, Anchor(index, toIndexes[line]));
        candidates := candidates + [Anchor(index, toIndexes[line])];
      } else {
        NoCandidate(w, index, candidates);
      }
    }
  }

  ghost predicate CandidatesBefore(w: Window, index: nat, candidates: seq<Anchor>)
    requires w.Valid()
  {
    && (forall i | 0 <= i < |candidates| :: UniqueMatch(w, candidates[i]) && candidates[i].from < index)
    && (forall i, j | 0 <= i < j < |candidates| :: candidates[i].from < candidates[j].from)
    && (forall x | UniqueMatch(w, x) && x.from < index :: x in candidates)
  }

  lemma AddCandidate(w: Window, index: nat, candidates: seq<Anchor>, next: Anchor)
    requires w.Valid() && CandidatesBefore(w, index, candidates) && UniqueMatch(w, next) && next.from == index
    ensures CandidatesBefore(w, index + 1, candidates + [next])
  {
    forall x | UniqueMatch(w, x) && x.from < index + 1 ensures x in candidates + [next] {
      if x.from == index {
        OnlyTarget(w, x, next);
      }
    }
  }

  lemma NoCandidate(w: Window, index: nat, candidates: seq<Anchor>)
    requires w.Valid() && CandidatesBefore(w, index, candidates) && w.fromStart <= index < w.fromEnd
    requires !(Count(w.a, w.fromStart, w.fromEnd, w.a[index]) == 1 && Count(w.b, w.toStart, w.toEnd, w.a[index]) == 1)
    ensures CandidatesBefore(w, index + 1, candidates)
  {
  }

  lemma OnlyTarget(w: Window, x: Anchor, y: Anchor)
    requires w.Valid() && UniqueMatch(w, x) && w.Matches(y) && x.from == y.from
    ensures x == y
  {
    if x.to < y.to {
      CountOneIsUnique(w.b, w.toStart, w.toEnd, w.b[x.to], x.to, y.to);
    } else if y.to < x.to {
      CountOneIsUnique(w.b, w.toStart, w.toEnd, w.b[x.to], y.to, x.to);
    }
  }

  /** sort.Search for the first tail not below `to`. */
  method SearchTails(tails: seq<nat>, to: nat) returns (position: nat)
    requires forall i, j | 0 <= i < j < |tails| :: tails[i] < tails[j]
    ensures position <= |tails|
    ensures forall i | 0 <= i < position :: tails[i] < to
    ensures forall i | position <= i < |tails| :: tails[i] >= to
  {
    var i, j := 0, |tails|;
    while i < j
      invariant 0 <= i <= j <= |tails|
      invariant forall k | 0 <= k < i :: tails[k] < to
      invariant forall k | j <= k < |tails| :: tails[k] >= to
    {
      var h := (i + j) / 2;
      if !(tails[h] >= to) {
        i := h + 1;
      } else {
        j := h;
      }
    }
    position := i;
  }

  /** The bookkeeping of the loop. `rank[k]` is the position candidate k took. */
  datatype Piles = Piles(rank: seq<nat>, tails: seq<nat>, tailCandidate: seq<nat>, previous: seq<int>) {
    ghost predicate Sized(c: seq<Anchor>) {
      |rank| <= |c| && |previous| == |c| && |tails| == |tailCandidate|
    }

    ghost predicate TailsIncrease() {
      forall i, j | 0 <= i < j < |tails| :: tails[i] < tails[j]
    }

    /** Each tail is the last candidate of its rank. */
    ghost predicate TailsNamed(c: seq<Anchor>)
      requires Sized(c)
    {
      forall p | 0 <= p < |tails| ::
        tailCandidate[p] < |rank| && c[tailCandidate[p]].to == tails[p] && rank[tailCandidate[p]] == p
    }

    ghost predicate TailsBelow(c: seq<Anchor>)
      requires Sized(c)
    {
      forall k | 0 <= k < |rank| :: rank[k] < |tails| && tails[rank[k]] <= c[k].to
    }

    /** A candidate of positive rank points back to a smaller one of the rank below. */
    ghost predicate PointsBack(c: seq<Anchor>)
      requires Sized(c)
    {
      forall k | 0 <= k < |rank| && rank[k] > 0 ::
        0 <= previous[k] < k && rank[previous[k]] == rank[k] - 1 && c[previous[k]].to < c[k].to
    }

    /** A later, larger candidate has a higher rank. */
    ghost predicate RanksRise(c: seq<Anchor>)
      requires Sized(c)
    {
      forall j, k | 0 <= j < k < |rank| && c[j].to < c[k].to :: rank[j] < rank[k]
    }

    ghost predicate Ranked(c: seq<Anchor>) {
      Sized(c) && TailsIncrease() && TailsNamed(c) && TailsBelow(c) && PointsBack(c) && RanksRise(c)
    }

    /** Put candidate |rank| at a position found by the search. */
    function Place(c: seq<Anchor>, position: nat): Piles
      requires Sized(c) && |rank| < |c| && position <= |tails|
    {
      var n := |rank|;
      var names := if position == |tails| then tailCandidate + [n] else tailCandidate[position := n];
      Piles(rank + [position],
            if position == |tails| then tails + [c[n].to] else tails[position := c[n].to],
            names,
            if position > 0 then previous[n := names[position - 1]] else previous)
    }

    ghost predicate Fits(c: seq<Anchor>, position: nat)
      requires |rank| < |c|
    {
      && position <= |tails|
      && (forall i | 0 <= i < position :: tails[i] < c[|rank|].to)
      && (forall i | position <= i < |tails| :: tails[i] >= c[|rank|].to)
    }
  }

  lemma PlaceTails(c: seq<Anchor>, s: Piles, position: nat)
    requires s.Sized(c) && |s.rank| < |c| && s.Fits(c, position) && s.TailsIncrease() && s.TailsNamed(c)
    ensures s.Place(c, position).Sized(c) && s.Place(c, position).TailsIncrease() && s.Place(c, position).TailsNamed(c)
  {
    var t := s.Place(c, position);
    forall i, j | 0 <= i < j < |t.tails| ensures t.tails[i] < t.tails[j] {
      if i == position {
        assert s.tails[position] < s.tails[j];
      }
    }
    forall p | 0 <= p < |t.tails|
      ensures t.tailCandidate[p] < |t.rank| && c[t.tailCandidate[p]].to == t.tails[p] && t.rank[t.tailCandidate[p]] == p
    {
      if p != position {
        assert t.tailCandidate[p] == s.tailCandidate[p] && t.tails[p] == s.tails[p];
      }
    }
  }

  lemma PlaceRanks(c: seq<Anchor>, s: Piles, position: nat)
    requires s.Sized(c) && |s.rank| < |c| && s.Fits(c, position) && s.TailsBelow(c) && s.RanksRise(c)
    ensures var t := s.Place(c, position); t.Sized(c) && t.TailsBelow(c) && t.RanksRise(c)
  {
    var t := s.Place(c, position);
    forall k | 0 <= k < |t.rank| ensures t.rank[k] < |t.tails| && t.tails[t.rank[k]] <= c[k].to {
      if k < |s.rank| {
        assert t.rank[k] == s.rank[k] && s.tails[s.rank[k]] <= c[k].to;
      }
    }
    forall j, k | 0 <= j < k < |t.rank| && c[j].to < c[k].to ensures t.rank[j] < t.rank[k] {
      assert t.rank[j] == s.rank[j] && s.tails[s.rank[j]] <= c[j].to;
    }
  }

  lemma PlacePointers(c: seq<Anchor>, s: Piles, position: nat)
    requires s.Sized(c) && |s.rank| < |c| && s.Fits(c, position) && s.TailsNamed(c) && s.PointsBack(c)
    ensures var t := s.Place(c, position); t.Sized(c) && t.PointsBack(c)
  {
    var t := s.Place(c, position);
    forall k | 0 <= k < |t.rank| && t.rank[k] > 0
      ensures 0 <= t.previous[k] < k && t.rank[t.previous[k]] == t.rank[k] - 1 && c[t.previous[k]].to < c[k].to
    {
      if k < |s.rank| {
        assert t.previous[k] == s.previous[k] && t.rank[k] == s.rank[k];
      } else {
        assert t.previous[k] == s.tailCandidate[position - 1];
        assert c[s.tailCandidate[position - 1]].to == s.tails[position - 1];
      }
    }
  }

  /** One more candidate keeps the bookkeeping. */
  lemma PlaceKeepsRanked(c: seq<Anchor>, s: Piles, position: nat)
    requires s.Ranked(c) && |s.rank| < |c| && s.Fits(c, position)
    ensures s.Place(c, position).Ranked(c)
  {
    PlaceTails(c, s, position);
    PlaceRanks(c, s, position);
    PlacePointers(c, s, position);
  }

  /** Candidates chosen by index are longest when nothing increasing can skip a rank. */
  lemma {:induction false} RanksBoundChains(c: seq<Anchor>, s: Piles, picks: seq<nat>)
    requires s.Sized(c) && |s.rank| == |c| && s.RanksRise(c) && s.TailsBelow(c)
    requires IsIncreasingChoice(c, picks)
    ensures |picks| > 0 ==> s.rank[picks[|picks| - 1]] >= |picks| - 1
    ensures |picks| <= |s.tails|
  {
    if |picks| > 0 {
      var shorter := picks[..|picks| - 1];
      RanksBoundChains(c, s, shorter);
      if |shorter| > 0 {
        assert s.rank[shorter[|shorter| - 1]] < s.rank[picks[|picks| - 1]];
      }
    }
  }

  /** The loop body: find the pile, put the candidate on it, and remember the top of the pile before. */
  method PlaceCandidate(c: seq<Anchor>, candidateIndex: nat, tails: seq<nat>, tailCandidate: seq<nat>,
                        previous: array<int>,
                        ghost s: Piles)
    returns (tails': seq<nat>, tailCandidate': seq<nat>, ghost s': Piles)
    requires s.Ranked(c) && |s.rank| == candidateIndex < |c|
    requires s.tails == tails && s.tailCandidate == tailCandidate && s.previous == previous[..]
    modifies previous
    ensures s'.Ranked(c) && |s'.rank| == candidateIndex + 1
    ensures s'.tails == tails' && s'.tailCandidate == tailCandidate' && s'.previous == previous[..]
    ensures |tails'| > 0
  {
    var candidate := c[candidateIndex];
    var position := SearchTails(tails, candidate.to);
    PlaceKeepsRanked(c, s, position);
    s' := s.Place(c, position);
    if position == |tails| {
      tails' := tails + [candidate.to];
      tailCandidate' := tailCandidate + [candidateIndex];
    } else {
      tails' := tails[position := candidate.to];
      tailCandidate' := tailCandidate[position := candidateIndex];
    }
    if position > 0 {
      previous[candidateIndex] := tailCandidate'[position - 1];
    }
  }

  /** Longest strictly increasing choice of candidates, by the `to` side. */
  method LongestIncreasing(c: seq<Anchor>) returns (anchors: seq<Anchor>, ghost picked: seq<nat>)
    requires |c| >= 1
    ensures |picked| == |anchors| && IsIncreasingChoice(c, picked)
    ensures forall i | 0 <= i < |picked| :: anchors[i] == c[picked[i]]
    ensures forall picks: seq<nat> | IsIncreasingChoice(c, picks) :: |picks| <= |anchors|
  {
    var tails: seq<nat>, tailCandidate: seq<nat> := [], [];
    var previous := new int[|c|](_ => -1);
    ghost var s := Piles([], [], [], previous[..]);
    for candidateIndex := 0 to |c|
      invariant s.Ranked(c) && |s.rank| == candidateIndex
      invariant s.tails == tails && s.tailCandidate == tailCandidate && s.previous == previous[..]
      invariant candidateIndex > 0 ==> |tails| > 0
    {
      tails, tailCandidate, s := PlaceCandidate(c, candidateIndex, tails, tailCandidate, previous, s);
    }
    anchors, picked := FollowBack(c, s, tailCandidate, previous);
    forall picks: seq<nat> | IsIncreasingChoice(c, picks) ensures |picks| <= |anchors| {
      RanksBoundChains(c, s, picks);
    }
  }

  ghost predicate IsIncreasingChoice(c: seq<Anchor>, picks: seq<nat>) {
    && (forall i | 0 <= i < |picks| :: picks[i] < |c|)
    && (forall i, j | 0 <= i < j < |picks| :: picks[i] < picks[j] && c[picks[i]].to < c[picks[j]].to)
  }

  /** From the last tail, follow the back pointers and fill the answer from its end. */
  method FollowBack(c: seq<Anchor>, ghost s: Piles, tailCandidate: seq<nat>, previous: array<int>)
    returns (anchors: seq<Anchor>, ghost picked: seq<nat>)
    requires s.Sized(c) && |s.rank| == |c| && s.TailsNamed(c) && s.PointsBack(c)
    requires |tailCandidate| > 0 && s.tailCandidate == tailCandidate && s.previous == previous[..]
    ensures |anchors| == |s.tails| == |picked| && IsIncreasingChoice(c, picked)
    ensures forall i | 0 <= i < |picked| :: anchors[i] == c[picked[i]]
  {
    var n := |tailCandidate|;
    var filled := new Anchor[n](_ => Anchor(0, 0));
    var index, candidateIndex: int := n - 1, tailCandidate[n - 1];
    picked := [];
    while index >= 0
      invariant -1 <= index < n
      invariant |picked| == n - 1 - index
      invariant IsIncreasingChoice(c, picked)
      invariant forall i | 0 <= i < |picked| :: filled[index + 1 + i] == c[picked[i]]
      invariant index >= 0 ==> 0 <= candidateIndex < |c| && s.rank[candidateIndex] == index
      invariant index >= 0 && |picked| > 0 ==> candidateIndex < picked[0] && c[candidateIndex].to < c[picked[0]].to
    {
      filled[index] := c[candidateIndex];
      LongerChoice(c, candidateIndex, picked);
      picked := [candidateIndex] + picked;
      candidateIndex := previous[candidateIndex];
      index := index - 1;
    }
    anchors := filled[..];
  }

  lemma LongerChoice(c: seq<Anchor>, k: nat, picked: seq<nat>)
    requires IsIncreasingChoice(c, picked) && k < |c|
    requires |picked| > 0 ==> k < picked[0] && c[k].to < c[picked[0]].to
    ensures IsIncreasingChoice(c, [k] + picked)
  {
  }

  /** The anchors of patience diff: unique matches, increasing on both sides, as many as any such choice. */
  method PatienceAnchors(w: Window) returns (anchors: seq<Anchor>)
    requires w.Valid()
    ensures CommonSubsequence(w, anchors)
    ensures forall i | 0 <= i < |anchors| :: UniqueMatch(w, anchors[i])
    ensures forall other | IsUniqueChain(w, other) :: |other| <= |anchors|
  {
    var candidates := Candidates(w);
    if |candidates| < 2 {
      forall other | IsUniqueChain(w, other) ensures |other| <= |candidates| {
        ShortChain(w, candidates, other);
      }
      return candidates;
    }
    ghost var picked;
    anchors, picked := LongestIncreasing(candidates);
    forall other | IsUniqueChain(w, other) ensures |other| <= |anchors| {
      var picks := PicksOf(w, candidates, other);
      assert IsIncreasingChoice(candidates, picks);
    }
  }

  ghost predicate IsUniqueChain(w: Window, other: seq<Anchor>)
    requires w.Valid()
  {
    CommonSubsequence(w, other) && forall i | 0 <= i < |other| :: UniqueMatch(w, other[i])
  }

  lemma ShortChain(w: Window, candidates: seq<Anchor>, other: seq<Anchor>)
    requires w.Valid() && IsCandidates(w, candidates) && IsUniqueChain(w, other)
    ensures |other| <= |candidates|
  {
    var picks := PicksOf(w, candidates, other);
    IncreasingBelow(picks, |candidates|);
  }

  lemma {:induction false} IncreasingBelow(picks: seq<nat>, n: nat)
    requires forall i | 0 <= i < |picks| :: picks[i] < n
    requires forall i, j | 0 <= i < j < |picks| :: picks[i] < picks[j]
    ensures |picks| <= n
  {
    if |picks| > 0 {
      IncreasingBelow(picks[..|picks| - 1], picks[|picks| - 1]);
    }
  }

  /** A chain of unique matches, as indexes into the candidates. */
  lemma {:induction false} PicksOf(w: Window, candidates: seq<Anchor>, other: seq<Anchor>) returns (picks: seq<nat>)
    requires w.Valid() && IsCandidates(w, candidates) && IsUniqueChain(w, other)
    ensures |picks| == |other|
    ensures forall i | 0 <= i < |picks| :: picks[i] < |candidates| && candidates[picks[i]] == other[i]
    ensures forall i, j | 0 <= i < j < |picks| ::
            picks[i] < picks[j] && candidates[picks[i]].to < candidates[picks[j]].to
  {
    picks := [];
    for n := 0 to |other|
      invariant |picks| == n
      invariant forall i | 0 <= i < n :: picks[i] < |candidates| && candidates[picks[i]] == other[i]
    {
      assert UniqueMatch(w, other[n]) && other[n] in candidates;
      var k :| 0 <= k < |candidates| && candidates[k] == other[n];
      picks := picks + [k];
    }
    forall i, j | 0 <= i < j < |picks|
      ensures picks[i] < picks[j] && candidates[picks[i]].to < candidates[picks[j]].to
    {
      assert other[i].from < other[j].from;
      assert candidates[picks[i]].from < candidates[picks[j]].from;
    }
  }
}
