/**
 * The day view's lesson layout (`positionEvents` of the timetable component).
 *
 * Lessons are placed greedily, in input order, into the first column whose
 * lessons are all disjoint from them; a lesson that fits nowhere opens a new
 * column. Each placed lesson is then widened to the right over consecutive
 * columns it does not conflict with. Times are whole seconds; the rendered
 * `left` and `width` are `col / count` and `span / count`, kept here as the
 * three integers.
 */
module Timetable {

  /** A lesson as the layout sees it: its start (seconds since midnight) and its duration in seconds. */
  datatype Cell = Cell(id: string, startSecs: int, durationSecs: int)

  /** A positioned lesson: `left = col / count`, `width = span / count`. */
  datatype Placed = Placed(cell: Cell, col: nat, span: nat, count: nat)

  type Columns = seq<seq<Cell>>

  /** The source's overlap test: `existing` ends no later than `l` starts, or starts no earlier than `l` ends. */
  predicate Disjoint(existing: Cell, l: Cell)
  {
    existing.startSecs + existing.durationSecs <= l.startSecs ||
    existing.startSecs >= l.startSecs + l.durationSecs
  }

  /** `col.every(...)`: every lesson already in the column is disjoint from `l`. */
  predicate HasSpace(col: seq<Cell>, l: Cell)
  {
    forall k :: 0 <= k < |col| ==> Disjoint(col[k], l)
  }

  /** The lessons of one column are pairwise disjoint. */
  ghost predicate ColumnDisjoint(col: seq<Cell>)
  {
    forall a, b :: 0 <= a < b < |col| ==> Disjoint(col[a], col[b])
  }

  /** Lessons within each column are pairwise disjoint. */
  ghost predicate ColumnsDisjoint(cols: Columns)
  {
    forall i :: 0 <= i < |cols| ==> ColumnDisjoint(cols[i])
  }

  /** The index of the lowest column with space for `l` at or after `from`; `|cols|` when there is none. */
  function FirstFitFrom(cols: Columns, l: Cell, from: nat): (k: nat)
    requires from <= |cols|
    ensures from <= k <= |cols|
    ensures forall j :: from <= j < k ==> !HasSpace(cols[j], l)
    ensures k < |cols| ==> HasSpace(cols[k], l)
    decreases |cols| - from
  {
    if from == |cols| then from
    else if HasSpace(cols[from], l) then from
    else FirstFitFrom(cols, l, from + 1)
  }

  /** The column `l` goes into: the lowest one with space, or `|cols|` for a new one. */
  function FirstFit(cols: Columns, l: Cell): (k: nat)
    ensures k <= |cols|
  {
    FirstFitFrom(cols, l, 0)
  }

  /** One step of the reduce: push `l` onto its first fitting column, or start a new column. */
  function Place(cols: Columns, l: Cell): Columns
  {
    var k := FirstFit(cols, l);
    if k < |cols| then cols[k := cols[k] + [l]] else cols + [[l]]
  }

  /** The reduce over the lessons in input order, starting from `[[]]`. */
  function ColumnsOf(lessons: seq<Cell>): Columns
  {
    if |lessons| == 0 then [[]]
    else Place(ColumnsOf(lessons[..|lessons| - 1]), lessons[|lessons| - 1])
  }

  /** How many consecutive columns from `j` on have space for `l` (the loop of `spanCols++`). */
  function SpanFrom(cols: Columns, j: nat, l: Cell): nat
    decreases |cols| - j
  {
    if j < |cols| && HasSpace(cols[j], l) then 1 + SpanFrom(cols, j + 1, l) else 0
  }

  /** The number of columns a lesson in column `i` covers: its own plus the free ones to its right. */
  function Span(cols: Columns, i: nat, l: Cell): nat
  {
    1 + SpanFrom(cols, i + 1, l)
  }

  /** Column `i` mapped to positioned lessons, in insertion order. */
  function PlaceColumn(cols: Columns, i: nat): seq<Placed>
    requires i < |cols|
  {
    seq(|cols[i]|, a requires 0 <= a < |cols[i]| => Placed(cols[i][a], i, Span(cols, i, cols[i][a]), |cols|))
  }

  /** `cols.flatMap(...)` from column `i` on. */
  function LayoutFrom(cols: Columns, i: nat): seq<Placed>
    requires i <= |cols|
    decreases |cols| - i
  {
    if i == |cols| then [] else PlaceColumn(cols, i) + LayoutFrom(cols, i + 1)
  }

  /** The whole layout of a day's lessons. */
  function Positions(lessons: seq<Cell>): seq<Placed>
  {
    var cols := ColumnsOf(lessons);
    LayoutFrom(cols, 0)
  }

  /** The lessons of the columns, column after column. */
  function Flatten(cols: Columns): seq<Cell>
  {
    if |cols| == 0 then [] else cols[0] + Flatten(cols[1..])
  }

  // ---------------------------------------------------------------------------
  // The imperative layout, as the component runs it.
  // ---------------------------------------------------------------------------

  /** The reduce callback: scan the columns, push into the first with space, else open a new column. */
  method PlaceLesson(cols: Columns, l: Cell) returns (next: Columns)
    ensures next == Place(cols, l)
    ensures |next| == |cols| || |next| == |cols| + 1
  {
    next := cols;
    var i := 0;
    while i < |next|
      invariant 0 <= i <= |next| && next == cols
      invariant forall j :: 0 <= j < i ==> !HasSpace(cols[j], l)
    {
      if HasSpace(next[i], l) {
        FirstFitLowest(cols, l, i);
        next := next[i := next[i] + [l]];
        return;
      }
      i := i + 1;
    }
    FirstFitLowest(cols, l, |cols|);
    next := next + [[l]];
  }

  /** The `spanCols` loop: count columns to the right of `i` until the first conflict. */
  method SpanCols(cols: Columns, i: nat, l: Cell) returns (spanCols: nat)
    requires i < |cols|
    ensures spanCols == Span(cols, i, l)
    ensures 1 <= spanCols && i + spanCols <= |cols|
    ensures forall j :: i < j < i + spanCols ==> HasSpace(cols[j], l)
    ensures i + spanCols < |cols| ==> !HasSpace(cols[i + spanCols], l)
  {
    spanCols := 1;
    var j := i + 1;
    while j < |cols|
      invariant i + 1 <= j <= |cols| && spanCols == j - i
      invariant forall k :: i < k < j ==> HasSpace(cols[k], l)
      invariant SpanFrom(cols, i + 1, l) == (j - i - 1) + SpanFrom(cols, j, l)
    {
      if !HasSpace(cols[j], l) {
        break;
      }
      spanCols := spanCols + 1;
      j := j + 1;
    }
  }

  /** `positionEvents`: build the columns with the reduce, then emit every column's lessons with their spans. */
  method PositionEvents(lessons: seq<Cell>) returns (out: seq<Placed>)
    ensures out == Positions(lessons)
    ensures |out| == |lessons|
    ensures forall p :: p in out ==> p.count >= 1 && p.span >= 1 && p.col + p.span <= p.count
  {
    var cols: Columns := [[]];
    var n := 0;
    while n < |lessons|
      invariant 0 <= n <= |lessons|
      invariant cols == ColumnsOf(lessons[..n])
    {
      assert lessons[..n + 1][..n] == lessons[..n];
      cols := PlaceLesson(cols, lessons[n]);
      n := n + 1;
    }
    assert lessons[..n] == lessons;

    out := [];
    var i := 0;
    while i < |cols|
      invariant 0 <= i <= |cols|
      invariant out + LayoutFrom(cols, i) == LayoutFrom(cols, 0)
    {
      var col := cols[i];
      var a := 0;
      var before := out;
      while a < |col|
        invariant 0 <= a <= |col|
        invariant out == before + PlaceColumn(cols, i)[..a]
      {
        var spanCols := SpanCols(cols, i, col[a]);
        out := out + [Placed(col[a], i, spanCols, |cols|)];
        a := a + 1;
      }
      assert PlaceColumn(cols, i)[..a] == PlaceColumn(cols, i);
      i := i + 1;
    }
    LayoutLength(lessons);
    LayoutBounds(lessons);
  }

  // ---------------------------------------------------------------------------
  // Properties of the layout.
  // ---------------------------------------------------------------------------

  /** The column chosen is the lowest one with space; a new column is opened only when none has space. */
  lemma FirstFitLowest(cols: Columns, l: Cell, k: nat)
    requires k <= |cols|
    requires forall j :: 0 <= j < k ==> !HasSpace(cols[j], l)
    requires k < |cols| ==> HasSpace(cols[k], l)
    ensures FirstFit(cols, l) == k
  {
  }

  /** The overlap test does not depend on which lesson is the one already placed. */
  lemma DisjointSymmetric(a: Cell, b: Cell)
    ensures Disjoint(a, b) <==> Disjoint(b, a)
  {
  }

  /** Back-to-back lessons (one ends exactly when the other starts) may share a column. */
  lemma BackToBackFit(a: Cell, b: Cell)
    requires a.startSecs + a.durationSecs == b.startSecs
    ensures Disjoint(a, b) && Disjoint(b, a)
    ensures HasSpace([a], b)
  {
  }

  lemma {:induction false} FlattenConcat(a: Columns, b: Columns)
    ensures Flatten(a + b) == Flatten(a) + Flatten(b)
    decreases |a|
  {
    if |a| == 0 {
      assert a + b == b;
    } else {
      assert (a + b)[1..] == a[1..] + b;
      FlattenConcat(a[1..], b);
    }
  }

  /** Replacing column `k` replaces exactly that column's stretch of the flattened lessons. */
  lemma FlattenUpdate(cols: Columns, k: nat, col: seq<Cell>)
    requires k < |cols|
    ensures Flatten(cols) == Flatten(cols[..k]) + cols[k] + Flatten(cols[k + 1..])
    ensures Flatten(cols[k := col]) == Flatten(cols[..k]) + col + Flatten(cols[k + 1..])
  {
    var updated := cols[k := col];
    assert cols == cols[..k] + [cols[k]] + cols[k + 1..];
    assert updated == cols[..k] + [col] + cols[k + 1..];
    FlattenConcat(cols[..k] + [cols[k]], cols[k + 1..]);
    FlattenConcat(cols[..k], [cols[k]]);
    FlattenConcat(cols[..k] + [col], cols[k + 1..]);
    FlattenConcat(cols[..k], [col]);
    assert Flatten([col]) == col + Flatten([]);
    assert Flatten([cols[k]]) == cols[k] + Flatten([]);
  }

  lemma FlattenAppend(cols: Columns, col: seq<Cell>)
    ensures Flatten(cols + [col]) == Flatten(cols) + col
    decreases |cols|
  {
    if |cols| == 0 {
      assert ([] + [col])[1..] == [];
    } else {
      assert (cols + [col])[1..] == cols[1..] + [col];
      FlattenAppend(cols[1..], col);
    }
  }

  /** Pushing a lesson that fits onto a pairwise-disjoint column keeps it pairwise disjoint. */
  lemma PushKeepsDisjoint(col: seq<Cell>, l: Cell)
    requires ColumnDisjoint(col) && HasSpace(col, l)
    ensures ColumnDisjoint(col + [l])
  {
    var next := col + [l];
    forall a, b | 0 <= a < b < |next|
      ensures Disjoint(next[a], next[b])
    {
      if b == |col| {
        assert Disjoint(col[a], l);
      } else {
        assert Disjoint(col[a], col[b]);
      }
    }
  }

  /** One placement keeps every column pairwise disjoint and adds exactly the placed lesson. */
  lemma {:induction false} PlaceKeepsInvariant(cols: Columns, l: Cell)
    requires |cols| >= 1 && ColumnsDisjoint(cols)
    ensures |Place(cols, l)| >= |cols|
    ensures ColumnsDisjoint(Place(cols, l))
    ensures multiset(Flatten(Place(cols, l))) == multiset(Flatten(cols)) + multiset{l}
  {
    var k := FirstFit(cols, l);
    var next := Place(cols, l);
    PlaceAddsLesson(cols, l);
    if k < |cols| {
      assert next == cols[k := cols[k] + [l]];
      PushKeepsDisjoint(cols[k], l);
      assert forall i :: 0 <= i < |next| && i != k ==> next[i] == cols[i];
    } else {
      assert ColumnDisjoint([l]);
    }
  }

  /** The flattened lessons after a placement are those before it plus the placed lesson. */
  lemma {:induction false} PlaceAddsLesson(cols: Columns, l: Cell)
    ensures multiset(Flatten(Place(cols, l))) == multiset(Flatten(cols)) + multiset{l}
  {
    var k := FirstFit(cols, l);
    if k < |cols| {
      FlattenUpdate(cols, k, cols[k] + [l]);
      var pre, post := Flatten(cols[..k]), Flatten(cols[k + 1..]);
      assert multiset(Flatten(Place(cols, l))) == multiset(pre) + multiset(cols[k]) + multiset{l} + multiset(post);
    } else {
      FlattenAppend(cols, [l]);
    }
  }

  /**
   * The reduce's invariants: there is always at least one column, every column
   * is pairwise disjoint, and every input lesson is placed exactly once.
   */
  lemma {:induction false} ColumnsInvariant(lessons: seq<Cell>)
    ensures |ColumnsOf(lessons)| >= 1
    ensures ColumnsDisjoint(ColumnsOf(lessons))
    ensures multiset(Flatten(ColumnsOf(lessons))) == multiset(lessons)
  {
    if |lessons| == 0 {
      assert Flatten([[]]) == [] + Flatten([]);
    } else {
      var init := lessons[..|lessons| - 1];
      ColumnsInvariant(init);
      PlaceKeepsInvariant(ColumnsOf(init), lessons[|lessons| - 1]);
      assert lessons == init + [lessons[|lessons| - 1]];
    }
  }

  /** Empty input gives the single empty column `[[]]` and no positioned lessons. */
  lemma EmptyLayout()
    ensures ColumnsOf([]) == [[]]
    ensures Positions([]) == []
  {
    assert LayoutFrom([[]], 1) == [];
  }

  /** A single lesson sits alone: column 0, span 1, one column. */
  lemma SingleLessonLayout(l: Cell)
    ensures Positions([l]) == [Placed(l, 0, 1, 1)]
  {
    assert [l][..0] == [];
    assert ColumnsOf([]) == [[]];
    assert HasSpace([], l);
    assert FirstFit([[]], l) == 0;
    assert [] + [l] == [l];
    assert [[]][0 := [l]] == [[l]];
    var cols := ColumnsOf([l]);
    assert cols == [[l]];
    assert Span(cols, 0, l) == 1;
    assert LayoutFrom(cols, 1) == [];
  }

  lemma {:induction false} SpanFromBounds(cols: Columns, j: nat, l: Cell)
    requires j <= |cols|
    ensures j + SpanFrom(cols, j, l) <= |cols|
    ensures forall k :: j <= k < j + SpanFrom(cols, j, l) ==> HasSpace(cols[k], l)
    ensures j + SpanFrom(cols, j, l) < |cols| ==> !HasSpace(cols[j + SpanFrom(cols, j, l)], l)
    decreases |cols| - j
  {
    if j < |cols| && HasSpace(cols[j], l) {
      SpanFromBounds(cols, j + 1, l);
    }
  }

  /**
   * The span of a lesson in column `i`: at least 1, never past the last column,
   * every column it covers has space, and it stops at the first column that conflicts.
   */
  lemma SpanCharacterised(cols: Columns, i: nat, l: Cell)
    requires i < |cols|
    ensures 1 <= Span(cols, i, l) && i + Span(cols, i, l) <= |cols|
    ensures forall j :: i < j < i + Span(cols, i, l) ==> HasSpace(cols[j], l)
    ensures i + Span(cols, i, l) < |cols| ==> !HasSpace(cols[i + Span(cols, i, l)], l)
  {
    SpanFromBounds(cols, i + 1, l);
  }

  lemma {:induction false} LayoutFromLength(cols: Columns, i: nat)
    requires i <= |cols|
    ensures |LayoutFrom(cols, i)| == |Flatten(cols[i..])|
    decreases |cols| - i
  {
    if i < |cols| {
      LayoutFromLength(cols, i + 1);
      assert cols[i..][1..] == cols[i + 1..];
    }
  }

  /** Every input lesson appears exactly once in the output, so the output is as long as the input. */
  lemma LayoutLength(lessons: seq<Cell>)
    ensures |Positions(lessons)| == |lessons|
  {
    var cols := ColumnsOf(lessons);
    ColumnsInvariant(lessons);
    LayoutFromLength(cols, 0);
    assert cols[0..] == cols;
    assert |multiset(Flatten(cols))| == |multiset(lessons)|;
  }

  lemma {:induction false} LayoutFromBounds(cols: Columns, i: nat)
    requires i <= |cols|
    ensures forall p :: p in LayoutFrom(cols, i) ==>
      p.count == |cols| && i <= p.col < |cols| && 1 <= p.span && p.col + p.span <= p.count
    decreases |cols| - i
  {
    if i < |cols| {
      LayoutFromBounds(cols, i + 1);
      forall a | 0 <= a < |cols[i]|
        ensures 1 <= Span(cols, i, cols[i][a]) && i + Span(cols, i, cols[i][a]) <= |cols|
      {
        SpanCharacterised(cols, i, cols[i][a]);
      }
    }
  }

  /**
   * Every positioned lesson has `count >= 1`, `span >= 1` and `col + span <= count`,
   * so `left + width <= 1`; the column count is the same for every lesson of the day.
   */
  lemma LayoutBounds(lessons: seq<Cell>)
    ensures forall p :: p in Positions(lessons) ==>
      p.count == |ColumnsOf(lessons)| && p.count >= 1 && p.span >= 1 && p.col + p.span <= p.count
  {
    ColumnsInvariant(lessons);
    LayoutFromBounds(ColumnsOf(lessons), 0);
  }

  /** The output lists the lessons column-major: column 0 in insertion order, then column 1, and so on. */
  lemma {:induction false} LayoutOrder(cols: Columns, i: nat)
    requires i <= |cols|
    ensures |LayoutFrom(cols, i)| == |Flatten(cols[i..])|
    ensures forall x :: 0 <= x < |LayoutFrom(cols, i)| ==> LayoutFrom(cols, i)[x].cell == Flatten(cols[i..])[x]
    decreases |cols| - i
  {
    if i < |cols| {
      LayoutOrder(cols, i + 1);
      assert cols[i..][1..] == cols[i + 1..];
    }
  }

  /**
   * No visual collision: when the span of lesson `a` in column `i` covers column
   * `j`, every other lesson of column `j` is disjoint from `a`.
   */
  lemma NoCollision(lessons: seq<Cell>, i: nat, a: nat, j: nat, b: nat)
    requires var cols := ColumnsOf(lessons);
      i <= j < |cols| && a < |cols[i]| && b < |cols[j]| && (i, a) != (j, b)
    requires var cols := ColumnsOf(lessons); j < i + Span(cols, i, cols[i][a])
    ensures var cols := ColumnsOf(lessons); Disjoint(cols[i][a], cols[j][b]) && Disjoint(cols[j][b], cols[i][a])
  {
    var cols := ColumnsOf(lessons);
    ColumnsInvariant(lessons);
    if i == j {
      assert ColumnDisjoint(cols[i]);
      if a < b {
        assert Disjoint(cols[i][a], cols[i][b]);
      } else {
        assert Disjoint(cols[i][b], cols[i][a]);
      }
    } else {
      SpanCharacterised(cols, i, cols[i][a]);
      assert HasSpace(cols[j], cols[i][a]);
      assert Disjoint(cols[j][b], cols[i][a]);
    }
  }
}
