/** Drawing a series of readings as columns of eighths of a cell. */
module Chart {
  import opened Stack

  /** What one cell shows: how many eighths of it are filled, and whether the column ends
      in it. */
  datatype Cell = Cell(eighths: nat, cap: bool)

  const EMPTY := Cell(0, false)
  const FULL := Cell(8, false)

  /** What is plotted: the newest readings, two to a cell at most. */
  function Newest(vs: seq<real>, cells: nat): seq<real> {
    if |vs| > 2 * cells then vs[|vs| - 2 * cells..] else vs
  }

  // Which readings a column stands for.

  /** The readings of column i, as a range of the n plotted. */
  function From(n: nat, cells: nat, i: nat): nat
    requires i < cells
  {
    if n <= cells then Clip(i - (cells - n)) else Clip(n - 2 * (cells - 1 - i) - 2)
  }

  function To(n: nat, cells: nat, i: nat): nat
    requires i < cells
  {
    if n <= cells then Clip(i - (cells - n) + 1) else Clip(n - 2 * (cells - 1 - i))
  }

  function Clip(k: int): nat {
    if k < 0 then 0 else k
  }

  function ColumnHolding(n: nat, cells: nat, j: nat): (i: nat)
    requires j < n <= 2 * cells
    ensures i < cells && From(n, cells, i) <= j < To(n, cells, i) <= n
  {
    if n <= cells then j + (cells - n) else cells - 1 - (n - 1 - j) / 2
  }

  /** Every reading plotted is in exactly one column, and columns hold no others. */
  lemma EachReadingInOneColumn(n: nat, cells: nat, j: nat)
    requires j < n <= 2 * cells
    ensures exists i :: 0 <= i < cells && From(n, cells, i) <= j < To(n, cells, i)
    ensures forall i, k | 0 <= i < cells && 0 <= k < cells
              && From(n, cells, i) <= j < To(n, cells, i) && From(n, cells, k) <= j < To(n, cells, k) :: i == k
    ensures forall i | 0 <= i < cells :: From(n, cells, i) <= To(n, cells, i) <= n
  {
    var i := ColumnHolding(n, cells, j);
    assert From(n, cells, i) <= j < To(n, cells, i);
  }

  /** The highest of some readings, no lower than lo. */
  function Highest(vs: seq<real>, lo: real): (m: real)
    ensures m >= lo && (forall v | v in vs :: v <= m) && (m == lo || m in vs)
  {
    if vs == [] then lo
    else
      var m, v := Highest(vs[..|vs| - 1], lo), vs[|vs| - 1];
      assert vs == vs[..|vs| - 1] + [v];
      if v > m then v else m
  }

  /** What each column stands for: nothing before the history began. */
  method Columns(vs: seq<real>, cells: nat, lo: real) returns (col: seq<Option<real>>)
    requires cells > 0 && |vs| <= 2 * cells
    ensures |col| == cells
    ensures forall i | 0 <= i < cells :: col[i] == ColumnOf(vs, cells, lo, i)
  {
    var n := |vs|;
    if n == 0 {
      col := seq(cells, i => Some(lo));
    } else if n <= cells {
      col := seq(cells - n, i => None) + seq(n, i requires 0 <= i < n => Some(vs[i]));
    } else {
      col := seq(cells, i => None);
      for i := cells downto 0
        invariant |col| == cells
        invariant forall k | i <= k < cells :: col[k] == ColumnOf(vs, cells, lo, k)
      {
        var end := n - 2 * (cells - 1 - i);
        var a, b := Clip(end - 2), Clip(end);
        var m := lo;
        for j := a to b
          invariant m == Highest(vs[a..j], lo)
        {
          assert vs[a..j + 1][..j - a] == vs[a..j];
          m := if vs[j] > m then vs[j] else m;
        }
        col := col[i := Some(m)];
      }
    }
  }

  function ColumnOf(vs: seq<real>, cells: nat, lo: real, i: nat): Option<real>
    requires |vs| <= 2 * cells && i < cells
  {
    if |vs| == 0 then Some(lo)
    else if |vs| <= cells then (if i < cells - |vs| then None else Some(vs[i - (cells - |vs|)]))
    else Some(Highest(vs[From(|vs|, cells, i)..To(|vs|, cells, i)], lo))
  }

  // How tall a column is.

  /** A real as the integer nearest zero. */
  function Truncated(x: real): int {
    if x >= 0.0 then x.Floor else -((-x).Floor)
  }

  function Level(v: real, levels: nat, lo: real, hi: real): nat
    requires lo < hi
  {
    var l := Truncated((v - lo) / (hi - lo) * levels as real + 0.5);
    var seen := if v > lo && l == 0 then 1 else l;
    if seen < 0 then 0 else if seen > levels then levels else seen
  }

  /** How far up a reading is, in levels. */
  function Scaled(v: real, levels: nat, lo: real, hi: real): real
    requires lo < hi
  {
    (v - lo) / (hi - lo) * levels as real
  }

  lemma ScaledInOrder(v: real, u: real, levels: nat, lo: real, hi: real)
    requires lo < hi && v <= u
    ensures Scaled(v, levels, lo, hi) <= Scaled(u, levels, lo, hi)
    ensures Scaled(lo, levels, lo, hi) == 0.0 && Scaled(hi, levels, lo, hi) == levels as real
  {
    var a, b, n := (v - lo) / (hi - lo), (u - lo) / (hi - lo), levels as real;
    DivideInOrder(v - lo, u - lo, hi - lo);
    MultiplyInOrder(a, b, n);
    assert (hi - lo) / (hi - lo) == 1.0;
  }

  lemma DivideInOrder(x: real, y: real, d: real)
    requires d > 0.0 && x <= y
    ensures x / d <= y / d
  {
    assert y / d - x / d == (y - x) / d;
  }

  lemma MultiplyInOrder(a: real, b: real, n: real)
    requires a <= b && n >= 0.0
    ensures a * n <= b * n
  {
    assert (b - a) * n >= 0.0;
  }

  lemma FloorInOrder(x: real, y: real)
    requires x <= y
    ensures x.Floor <= y.Floor
  {
  }

  /** Higher readings are never drawn lower. */
  lemma LevelsInOrder(v: real, u: real, levels: nat, lo: real, hi: real)
    requires lo < hi && v <= u
    ensures Level(v, levels, lo, hi) <= Level(u, levels, lo, hi)
  {
    ScaledInOrder(v, u, levels, lo, hi);
    var x, y := Scaled(v, levels, lo, hi) + 0.5, Scaled(u, levels, lo, hi) + 0.5;
    if x >= 0.0 {
      FloorInOrder(x, y);
    }
  }

  /** A reading is drawn if and only if it is above the bottom of the scale; one at the top
      or beyond fills the column. */
  lemma LevelIsSeenIff(v: real, levels: nat, lo: real, hi: real)
    requires lo < hi && levels > 0
    ensures Level(v, levels, lo, hi) > 0 <==> v > lo
    ensures Level(v, levels, lo, hi) <= levels
    ensures v >= hi ==> Level(v, levels, lo, hi) == levels
  {
    if v <= lo {
      ScaledInOrder(v, lo, levels, lo, hi);
    } else {
      ScaledInOrder(lo, v, levels, lo, hi);
    }
    if v >= hi {
      ScaledInOrder(hi, v, levels, lo, hi);
      FloorInOrder(levels as real, Scaled(v, levels, lo, hi) + 0.5);
    }
  }

  /** Within the scale a level is the nearest there is, the upper one of two, but for a
      reading too low to be seen at that, which is drawn as the least level. */
  lemma LevelIsNearest(v: real, levels: nat, lo: real, hi: real)
    requires lo < hi && levels > 0 && lo <= v <= hi
    ensures var l, x := Level(v, levels, lo, hi), Scaled(v, levels, lo, hi);
            if lo < v && x < 0.5 then l == 1 else l as real - 0.5 <= x < l as real + 0.5
  {
    ScaledInOrder(lo, v, levels, lo, hi);
    ScaledInOrder(v, hi, levels, lo, hi);
  }

  // The rows.

  function CellOf(level: nat, r: nat): Cell {
    var n := level - 8 * r;
    if level == 0 || n <= 0 then EMPTY
    else if (level - 1) / 8 == r then Cell(if n < 8 then n else 8, true)
    else FULL
  }

  /** The eighths a column shows in its r lowest rows. */
  function Eighths(level: nat, r: nat): nat {
    if r == 0 then 0 else Eighths(level, r - 1) + CellOf(level, r - 1).eighths
  }

  /** Read back down, a column's eighths add up to its level; its rows are full below the
      one cell it ends in and empty above it. */
  lemma {:induction false} ColumnReadsBack(level: nat, rows: nat)
    requires level <= 8 * rows
    ensures Eighths(level, rows) == level
    ensures forall r :: 0 <= r < rows && CellOf(level, r).cap <==> level > 0 && r == (level - 1) / 8
    ensures forall r | 0 <= r < rows ::
        (CellOf(level, r).eighths == 8 <== 8 * (r + 1) <= level) && (CellOf(level, r) == EMPTY <== level <= 8 * r)
  {
    EighthsAre(level, rows);
  }

  lemma {:induction false} EighthsAre(level: nat, r: nat)
    ensures Eighths(level, r) == if level <= 8 * r then level else 8 * r
  {
    if r > 0 {
      EighthsAre(level, r - 1);
    }
  }

  /** Nothing to draw on, or rows top first, each as wide as asked. */
  method Plot(readings: seq<real>, cells: int, rows: int, lo: real, hi: real) returns (out: seq<seq<Cell>>)
    requires lo < hi
    ensures if cells < 1 || rows < 1 then out == [] else |out| == rows
    ensures forall r | 0 <= r < |out| :: |out[r]| == cells
    ensures forall r, c | 0 <= r < |out| && 0 <= c < cells ::
              out[r][c] == CellOf(LevelOf(readings, cells, rows, lo, hi, c), rows - 1 - r)
  {
    if cells < 1 || rows < 1 {
      return [];
    }
    var vs := if |readings| > 2 * cells then readings[|readings| - 2 * cells..] else readings;
    var col := Columns(vs, cells, lo);
    var level := Levels(col, rows * 8, lo, hi);
    out := [];
    for r := rows downto 0
      invariant |out| == rows - r
      invariant forall y | 0 <= y < |out| :: |out[y]| == cells
      invariant forall y, c | 0 <= y < |out| && 0 <= c < cells :: out[y][c] == CellOf(level[c], rows - 1 - y)
    {
      var line := DrawRow(level, r);
      out := out + [line];
    }
  }

  /** The height of column c of a plot. */
  function LevelOf(readings: seq<real>, cells: nat, rows: nat, lo: real, hi: real, c: nat): nat
    requires lo < hi && c < cells
  {
    var v := ColumnOf(Newest(readings, cells), cells, lo, c);
    if v.None? then 0 else Level(v.value, rows * 8, lo, hi)
  }

  method Levels(col: seq<Option<real>>, levels: nat, lo: real, hi: real) returns (level: seq<nat>)
    requires lo < hi
    ensures |level| == |col|
    ensures forall c | 0 <= c < |col| :: level[c] == if col[c].None? then 0 else Level(col[c].value, levels, lo, hi)
  {
    level := seq(|col|, i => 0);
    for i := 0 to |col|
      invariant |level| == |col|
      invariant forall c | 0 <= c < |col| ::
          level[c] == if i <= c || col[c].None? then 0 else Level(col[c].value, levels, lo, hi)
    {
      if col[i].Some? {
        var l := Truncated((col[i].value - lo) / (hi - lo) * levels as real + 0.5);
        if col[i].value > lo && l == 0 {
          l := 1;
        }
        level := level[i := if l < 0 then 0 else if l > levels then levels else l];
      }
    }
  }

  method DrawRow(level: seq<nat>, r: nat) returns (line: seq<Cell>)
    ensures |line| == |level| && forall c | 0 <= c < |level| :: line[c] == CellOf(level[c], r)
  {
    line := [];
    for c := 0 to |level|
      invariant |line| == c && forall k | 0 <= k < c :: line[k] == CellOf(level[k], r)
    {
      var l := level[c];
      var n := l - 8 * r;
      if l == 0 || n <= 0 {
        line := line + [EMPTY];
      } else if (l - 1) / 8 == r {
        line := line + [Cell(if n < 8 then n else 8, true)];
      } else {
        line := line + [FULL];
      }
    }
  }

  /** The kth newest reading. */
  function Past(readings: seq<real>, k: nat): real
    requires k < |readings|
  {
    readings[|readings| - 1 - k]
  }

  /** A history with a cell to each reading is drawn as it is, the newest reading at the
      right edge, and nothing before it began. */
  lemma ShortHistoryEndsAtTheEdge(readings: seq<real>, cells: nat, rows: nat, lo: real, hi: real, k: nat)
    requires lo < hi && k < cells && |readings| <= cells
    ensures LevelOf(readings, cells, rows, lo, hi, cells - 1 - k) ==
            if k < |readings| then Level(Past(readings, k), rows * 8, lo, hi) else 0
  {
    if readings == [] {
      BottomIsEmpty(rows * 8, lo, hi);
    }
  }

  lemma BottomIsEmpty(levels: nat, lo: real, hi: real)
    requires lo < hi
    ensures Level(lo, levels, lo, hi) == 0
  {
    ScaledInOrder(lo, lo, levels, lo, hi);
  }

  /** A longer one is drawn two readings to a cell, counted from the newest at the right
      edge: each column is as high as the higher of its two. Older readings than the chart
      has room for make no difference. */
  lemma LongHistoryIsMerged(readings: seq<real>, cells: nat, rows: nat, lo: real, hi: real, k: nat)
    requires lo < hi && k < cells && |readings| > cells
    ensures var level := LevelOf(readings, cells, rows, lo, hi, cells - 1 - k);
            if 2 * k + 1 < |readings| then
              var a, b := Past(readings, 2 * k), Past(readings, 2 * k + 1);
              level == Level(if a < b then b else a, rows * 8, lo, hi)
            else if 2 * k < |readings| then level == Level(Past(readings, 2 * k), rows * 8, lo, hi)
            else level == 0
  {
    var vs := Newest(readings, cells);
    var n := |vs|;
    var part := vs[From(n, cells, cells - 1 - k)..To(n, cells, cells - 1 - k)];
    NewestAreThePast(readings, cells);
    BottomIsEmpty(rows * 8, lo, hi);
    if 2 * k + 1 < |readings| {
      assert part == [Past(readings, 2 * k + 1), Past(readings, 2 * k)];
      HighestOfTwo(Past(readings, 2 * k + 1), Past(readings, 2 * k), rows * 8, lo, hi);
    } else if 2 * k < |readings| {
      assert part == [Past(readings, 2 * k)];
      HighestOfOne(Past(readings, 2 * k), rows * 8, lo, hi);
    } else {
      assert part == [];
    }
  }

  lemma NewestAreThePast(readings: seq<real>, cells: nat)
    ensures |Newest(readings, cells)| == if |readings| > 2 * cells then 2 * cells else |readings|
    ensures forall k | 0 <= k < |Newest(readings, cells)| ::
              Newest(readings, cells)[|Newest(readings, cells)| - 1 - k] == Past(readings, k)
  {
  }

  lemma LowIsLow(v: real, levels: nat, lo: real, hi: real)
    requires lo < hi && v <= lo
    ensures Level(v, levels, lo, hi) == 0
  {
    LevelsInOrder(v, lo, levels, lo, hi);
    BottomIsEmpty(levels, lo, hi);
  }

  lemma HighestOfOne(a: real, levels: nat, lo: real, hi: real)
    requires lo < hi
    ensures Level(Highest([a], lo), levels, lo, hi) == Level(a, levels, lo, hi)
  {
    assert [a][..0] == [];
    if a <= lo {
      LowIsLow(a, levels, lo, hi);
      BottomIsEmpty(levels, lo, hi);
    }
  }

  lemma HighestOfTwo(a: real, b: real, levels: nat, lo: real, hi: real)
    requires lo < hi
    ensures Level(Highest([a, b], lo), levels, lo, hi) == Level(if b < a then a else b, levels, lo, hi)
  {
    var m, top := Highest([a, b], lo), if b < a then a else b;
    assert [a, b][0] in [a, b] && [a, b][1] in [a, b];
    if top <= lo {
      LowIsLow(top, levels, lo, hi);
      LowIsLow(lo, levels, lo, hi);
    }
  }

  /** A spike is never lost to the width: of the readings plotted, the highest one's level
      is drawn in some column, and no column is higher. */
  lemma HighestIsDrawn(readings: seq<real>, cells: nat, rows: nat, lo: real, hi: real, j: nat)
    requires lo < hi && cells > 0 && rows > 0 && j < |Newest(readings, cells)|
    requires forall v | v in Newest(readings, cells) :: v <= Newest(readings, cells)[j]
    ensures exists c ::
              0 <= c < cells &&
              LevelOf(readings, cells, rows, lo, hi, c) == Level(Newest(readings, cells)[j], rows * 8, lo, hi)
    ensures forall c | 0 <= c < cells ::
        LevelOf(readings, cells, rows, lo, hi, c) <= Level(Newest(readings, cells)[j], rows * 8, lo, hi)
  {
    var top := Level(Newest(readings, cells)[j], rows * 8, lo, hi);
    var i := ColumnHolding(|Newest(readings, cells)|, cells, j);
    assert LevelOf(readings, cells, rows, lo, hi, i) == top by {
      ColumnHoldsTop(Newest(readings, cells), cells, rows * 8, lo, hi, j, i);
    }
    forall c | 0 <= c < cells ensures LevelOf(readings, cells, rows, lo, hi, c) <= top {
      ColumnNoHigher(Newest(readings, cells), cells, rows * 8, lo, hi, j, c);
    }
  }

  lemma ColumnHoldsTop(vs: seq<real>, cells: nat, levels: nat, lo: real, hi: real, j: nat, i: nat)
    requires lo < hi && levels > 0 && |vs| <= 2 * cells && i < cells
        && From(|vs|, cells, i) <= j < To(|vs|, cells, i) <= |vs|
    requires forall v | v in vs :: v <= vs[j]
    ensures ColumnOf(vs, cells, lo, i).Some?
        && Level(ColumnOf(vs, cells, lo, i).value, levels, lo, hi) == Level(vs[j], levels, lo, hi)
  {
    if |vs| > cells {
      var part := vs[From(|vs|, cells, i)..To(|vs|, cells, i)];
      var m := Highest(part, lo);
      assert part[j - From(|vs|, cells, i)] == vs[j] && vs[j] in part;
      if m in part {
        assert m in vs;
      } else {
        LevelIsSeenIff(vs[j], levels, lo, hi);
        LevelIsSeenIff(lo, levels, lo, hi);
      }
    }
  }

  lemma ColumnNoHigher(vs: seq<real>, cells: nat, levels: nat, lo: real, hi: real, j: nat, c: nat)
    requires lo < hi && levels > 0 && |vs| <= 2 * cells && c < cells && j < |vs| && forall v | v in vs :: v <= vs[j]
    ensures var v := ColumnOf(vs, cells, lo, c);
        v.Some? ==> Level(v.value, levels, lo, hi) <= Level(vs[j], levels, lo, hi)
  {
    var v := ColumnOf(vs, cells, lo, c);
    if v.Some? {
      if v.value in vs {
        LevelsInOrder(v.value, vs[j], levels, lo, hi);
      } else {
        EachReadingInOneColumn(|vs|, cells, j);
        assert v.value == lo;
        LevelIsSeenIff(lo, levels, lo, hi);
      }
    }
  }
}
