/**
  SpectrogramHistory: the last spectra, reduced to columns, in a ring of rows.
 */
module Spectrogram {
  import Division

  const FLOOR := -120.0

  // ----- From bins to columns -----

  /** The bins of a column: never none, and overlapping rather than leaving gaps. */
  function From(column: nat, bins: nat, columns: nat): nat
    requires columns > 0
  {
    assert column * bins >= 0;
    column * bins / columns
  }

  function To(column: nat, bins: nat, columns: nat): nat
    requires columns > 0
  {
    var end := From(column + 1, bins, columns) + 1;
    if bins < end then bins else end
  }

  lemma RangeIsNotEmpty(column: nat, bins: nat, columns: nat)
    requires column < columns && bins > 0
    ensures From(column, bins, columns) < To(column, bins, columns) <= bins
  {
    Division.Apart(column, columns, bins);
    Below(column * bins, columns, bins);
    assert (column + 1) * bins == column * bins + bins;
    Division.Monotone(column * bins, (column + 1) * bins, columns);
  }

  lemma Below(n: nat, d: nat, limit: nat)
    requires d > 0 && n < limit * d
    ensures n / d < limit
  {
    var q := n / d;
    assert n == q * d + n % d;
    if limit <= q { Product(limit, q, d); }
  }

  lemma Product(a: nat, b: nat, d: nat)
    requires a <= b
    ensures a * d <= b * d
  {
    if a < b { Division.Apart(a, b, d); }
  }

  /** Exactly which bins a column takes: those whose stretch of the axis meets the
      column's, the point where it ends included. */
  lemma RangeIs(column: nat, bin: nat, bins: nat, columns: nat)
    requires columns > 0 && bin < bins
    ensures From(column, bins, columns) <= bin < To(column, bins, columns)
       <==> column * bins < (bin + 1) * columns && bin * columns <= (column + 1) * bins
  {
    assert column * bins >= 0 && (column + 1) * bins >= 0;
    AtMost(column * bins, columns, bin);
    AtLeast((column + 1) * bins, columns, bin);
  }

  lemma AtMost(n: nat, d: nat, q: nat)
    requires d > 0
    ensures n / d <= q <==> n < (q + 1) * d
  {
    Division.Whole(n, d);
    if n / d <= q { Product(n / d, q, d); assert (q + 1) * d == q * d + d; } else { Product(q + 1, n / d, d); }
  }

  lemma AtLeast(n: nat, d: nat, q: nat)
    requires d > 0
    ensures q <= n / d <==> q * d <= n
  {
    Division.Whole(n, d);
    if q <= n / d { Product(q, n / d, d); } else { Product(n / d + 1, q, d); assert (n / d + 1) * d == n / d * d + d; }
  }

  /** Every bin falls in some column's range, for any number of either. */
  lemma EveryBinIsCovered(bin: nat, bins: nat, columns: nat) returns (column: nat)
    requires bin < bins && columns > 0
    ensures column < columns && From(column, bins, columns) <= bin < To(column, bins, columns)
  {
    assert bin * columns >= 0;
    var n := bin * columns;
    column := n / bins;
    Division.Apart(bin, bins, columns);
    assert columns * bins == bins * columns;
    Below(n, bins, columns);
    assert n == column * bins + n % bins;
    Division.Quotient(n, columns, bin, 0);
    Division.Monotone(column * bins, n, columns);
    assert (column + 1) * bins == column * bins + bins > n;
    Division.Monotone(n, (column + 1) * bins, columns);
  }

  function Max(a: real, b: real): real { if a < b then b else a }

  /** The highest of the levels from..end, and never below the floor. */
  function Peak(levels: seq<real>, from: nat, end: nat): (p: real)
    requires from <= end <= |levels|
    ensures p >= FLOOR && forall i :: from <= i < end ==> levels[i] <= p
    ensures p == FLOOR || exists i :: from <= i < end && p == levels[i]
  {
    if from == end then FLOOR else Max(Peak(levels, from, end - 1), levels[end - 1])
  }

  /** One spectrum as a row of columns. */
  function Reduced(levels: seq<real>, columns: nat, n: nat): (row: seq<real>)
    requires levels != [] && n <= columns && columns > 0
    ensures |row| == n
    ensures forall c :: 0 <= c < n ==>
              (RangeIsNotEmpty(c, |levels|, columns);
               row[c] == Peak(levels, From(c, |levels|, columns), To(c, |levels|, columns)))
  {
    if n == 0 then []
    else
      RangeIsNotEmpty(n - 1, |levels|, columns);
      Reduced(levels, columns, n - 1) + [Peak(levels, From(n - 1, |levels|, columns), To(n - 1, |levels|, columns))]
  }

  /** Reducing loses no peak: the highest column is the highest bin. */
  lemma NoPeakIsLost(levels: seq<real>, columns: nat)
    requires levels != [] && columns > 0
    ensures var row := Reduced(levels, columns, columns);
            Peak(row, 0, columns) == Peak(levels, 0, |levels|)
  {
    hide Peak, Reduced, From, To;
    var row := Reduced(levels, columns, columns);
    var high, all := Peak(row, 0, columns), Peak(levels, 0, |levels|);
    if all > FLOOR {
      var bin :| 0 <= bin < |levels| && levels[bin] == all;
      var column := EveryBinIsCovered(bin, |levels|, columns);
      RangeIsNotEmpty(column, |levels|, columns);
      assert row[column] == Peak(levels, From(column, |levels|, columns), To(column, |levels|, columns));
    }
    if high > FLOOR {
      var column :| 0 <= column < columns && row[column] == high;
      RangeIsNotEmpty(column, |levels|, columns);
      assert row[column] == Peak(levels, From(column, |levels|, columns), To(column, |levels|, columns));
    }
  }

  // ----- The history -----

  datatype Row = Row(levels: seq<real>, seconds: real)

  /** The last n of a list. */
  function Last<T>(s: seq<T>, n: nat): (r: seq<T>)
    ensures |r| <= n
  {
    if |s| <= n then s else s[|s| - n..]
  }

  /** The slot k places on from the first, round the ring. */
  function Place(first: nat, k: nat, rows: nat): (slot: nat)
    requires rows > 0
    ensures slot < rows
  {
    (first + k) % rows
  }

  /** The first n rows of a ring, oldest first. */
  function InOrder(table: seq<Row>, first: nat, n: nat): (r: seq<Row>)
    requires |table| > 0
    ensures |r| == n && forall k :: 0 <= k < n ==> r[k] == table[Place(first, k, |table|)]
  {
    if n == 0 then [] else InOrder(table, first, n - 1) + [table[Place(first, n - 1, |table|)]]
  }

  /** The new row goes after the last, and when the ring is full over the first. */
  lemma Joins(table: seq<Row>, first: nat, size: nat, row: Row)
    requires |table| > 0 && first < |table| && size <= |table|
    ensures size < |table| ==>
              InOrder(table[Place(first, size, |table|) := row], first, size + 1) == InOrder(table, first, size) + [row]
    ensures size == |table| ==>
              InOrder(table[first := row], Place(first, 1, |table|), size) == InOrder(table, first, size)[1..] + [row]
  {
    var rows := |table|;
    if size < rows {
      var after := table[Place(first, size, rows) := row];
      forall k | 0 <= k < size ensures after[Place(first, k, rows)] == table[Place(first, k, rows)] {
        Position(first, k, rows);
        Position(first, size, rows);
      }
      assert InOrder(after, first, size) == InOrder(table, first, size);
    } else {
      var after, next := table[first := row], Place(first, 1, rows);
      forall k | 0 <= k < size
        ensures after[Place(next, k, rows)] == (InOrder(table, first, size)[1..] + [row])[k]
      {
        Position(first, 1, rows);
        Position(next, k, rows);
        if k + 1 < size { Position(first, k + 1, rows); }
      }
    }
  }

  lemma LastOf(rows: seq<Row>, row: Row, n: nat)
    requires 0 < n && |rows| <= n
    ensures Last(rows + [row], n) == if |rows| < n then rows + [row] else rows[1..] + [row]
  {
  }

  lemma Position(first: nat, k: nat, rows: nat)
    requires first < rows && k <= rows
    ensures Place(first, k, rows) == if first + k < rows then first + k else first + k - rows
  {
    if first + k < rows { Division.Quotient(first + k, rows, 0, first + k); }
    else { Division.Quotient(first + k, rows, 1, first + k - rows); }
  }

  class SpectrogramHistory {
    const columns: nat
    const rows: nat
    const cells: array<real>
    const seconds: array<real>
    var first: nat
    var size: nat

    ghost predicate Valid()
      reads this
    {
      && columns > 0 && rows > 0 && cells != seconds
      && cells.Length == rows * columns && seconds.Length == rows
      && first < rows && size <= rows
    }

    ghost function RowIn(slot: nat): (row: Row)
      requires Valid() && slot < rows
      reads this, cells, seconds
      ensures |row.levels| == columns
    {
      CellsFit(slot, rows, columns);
      Row(cells[slot * columns..slot * columns + columns], seconds[slot])
    }

    /** The first n slots. */
    ghost function Slots(n: nat): (table: seq<Row>)
      requires Valid() && n <= rows
      reads this, cells, seconds
      ensures |table| == n && forall r :: 0 <= r < n ==> table[r] == RowIn(r)
    {
      if n == 0 then [] else Slots(n - 1) + [RowIn(n - 1)]
    }

    /** The rows held, oldest first. */
    ghost function Rows(): (r: seq<Row>)
      requires Valid()
      reads this, cells, seconds
      ensures |r| == size && forall k :: 0 <= k < size ==> |r[k].levels| == columns
    {
      InOrder(Slots(rows), first, size)
    }

    constructor (columns: nat, rows: nat)
      ensures Valid() && fresh(cells) && fresh(seconds)
      ensures this.columns == (if columns < 1 then 1 else columns) && this.rows == (if rows < 1 then 1 else rows)
      ensures Rows() == []
    {
      this.columns := if columns < 1 then 1 else columns;
      this.rows := if rows < 1 then 1 else rows;
      cells := new real[(if rows < 1 then 1 else rows) * (if columns < 1 then 1 else columns)](_ => FLOOR);
      seconds := new real[if rows < 1 then 1 else rows](_ => 0.0);
      first, size := 0, 0;
    }

    /** The new row joins the others; the oldest goes when there is no room. */
    method Append(levels: seq<real>, at: real)
      requires Valid()
      modifies this`first, this`size, cells, seconds
      ensures Valid()
      ensures levels == [] ==> Rows() == old(Rows())
      ensures levels != [] ==> Rows() == Last(old(Rows()) + [Row(Reduced(levels, columns, columns), at)], rows)
    {
      hide InOrder, Slots, Reduced, Place, Last;
      if levels == [] { return; }
      ghost var before := Slots(rows);
      ghost var row := Row(Reduced(levels, columns, columns), at);
      Joins(before, first, size, row);
      LastOf(Rows(), row, rows);
      var target := if size < rows then Place(first, size, rows) else first;
      FillRow(target, levels, at);
      if size < rows {
        size := size + 1;
      } else {
        first := Place(first, 1, rows);
      }
    }

    /** Write one row of cells, and its time. */
    method FillRow(target: nat, levels: seq<real>, at: real)
      requires Valid() && target < rows && levels != []
      modifies cells, seconds
      ensures Slots(rows) == old(Slots(rows))[target := Row(Reduced(levels, columns, columns), at)]
    {
      WriteRow(target, levels, at);
    }

    method WriteRow(target: nat, levels: seq<real>, at: real)
      requires Valid() && target < rows && levels != []
      modifies cells, seconds
      ensures RowIn(target) == Row(Reduced(levels, columns, columns), at)
      ensures forall r :: 0 <= r < rows && r != target ==> RowIn(r) == old(RowIn(r))
    {
      hide Reduced, Peak, From, To, Written, Slots, InOrder;
      CellsFit(target, rows, columns);
      seconds[target] := at;
      ghost var before := cells[..];
      var column := 0;
      ReducedNone(levels, columns);
      WrittenHas(before, target * columns, []);
      while column < columns
        invariant column <= columns
        invariant cells[..] == Written(before, target * columns, Reduced(levels, columns, column))
        invariant seconds[..] == old(seconds[..])[target := at]
      {
        RangeIsNotEmpty(column, |levels|, columns);
        ReducedMore(levels, columns, column);
        var peak := PeakOf(levels, From(column, |levels|, columns), To(column, |levels|, columns));
        ghost var seen := cells[..];
        cells[target * columns + column] := peak;
        assert cells[..] == seen[target * columns + column := peak];
        WrittenMore(before, target * columns, Reduced(levels, columns, column), peak);
        column := column + 1;
      }
      ghost var row := Reduced(levels, columns, columns);
      forall r | 0 <= r < rows && r != target ensures RowIn(r) == old(RowIn(r)) {
        CellsFit(r, rows, columns);
        RowsApart(r, target, columns);
        WrittenKeeps(before, target * columns, row, r * columns, columns);
      }
      WrittenHas(before, target * columns, row);
    }

    /** The loop over a column's bins. */
    method PeakOf(levels: seq<real>, from: nat, end: nat) returns (peak: real)
      requires from <= end <= |levels|
      ensures peak == Peak(levels, from, end)
    {
      peak := FLOOR;
      for bin := from to end
        invariant peak == Peak(levels, from, bin)
      {
        peak := Max(peak, levels[bin]);
      }
    }

    /** A level, or the floor for a row or column that is not there. */
    method At(row: nat, column: nat) returns (level: real)
      requires Valid()
      ensures level == if row < size && column < columns then Rows()[row].levels[column] else FLOOR
    {
      if row >= size || column >= columns { return FLOOR; }
      CellsFit(Place(first, row, rows), rows, columns);
      level := cells[Place(first, row, rows) * columns + column];
      assert Rows()[row] == RowIn(Place(first, row, rows));
    }

    method SecondsAt(row: nat) returns (at: real)
      requires Valid()
      ensures at == if row < size then Rows()[row].seconds else 0.0
    {
      if row >= size { return 0.0; }
      at := seconds[Place(first, row, rows)];
      assert Rows()[row] == RowIn(Place(first, row, rows));
    }

    method Clear()
      requires Valid()
      modifies this`first, this`size, cells, seconds
      ensures Valid() && Rows() == []
    {
      first, size := 0, 0;
      forall i | 0 <= i < cells.Length { cells[i] := FLOOR; }
      forall i | 0 <= i < seconds.Length { seconds[i] := 0.0; }
    }
  }

  lemma CellsFit(slot: nat, rows: nat, columns: nat)
    requires slot < rows
    ensures 0 <= slot * columns && slot * columns + columns <= rows * columns
  {
    Division.Apart(slot, rows, columns);
  }

  lemma RowsApart(a: nat, b: nat, columns: nat)
    requires a != b
    ensures 0 <= a * columns && 0 <= b * columns && (a * columns + columns <= b * columns || b * columns + columns <= a * columns)
  {
    if a < b { Division.Apart(a, b, columns); } else { Division.Apart(b, a, columns); }
  }

  /** A stretch of cells replaced. */
  function Written(s: seq<real>, at: nat, part: seq<real>): (r: seq<real>)
    requires at + |part| <= |s|
    ensures |r| == |s|
  {
    s[..at] + part + s[at + |part|..]
  }

  lemma WrittenMore(s: seq<real>, at: nat, part: seq<real>, x: real)
    requires at + |part| < |s|
    ensures Written(s, at, part)[at + |part| := x] == Written(s, at, part + [x])
  {
  }

  lemma WrittenHas(s: seq<real>, at: nat, part: seq<real>)
    requires at + |part| <= |s|
    ensures Written(s, at, part)[at..at + |part|] == part && Written(s, at, []) == s
  {
  }

  lemma WrittenKeeps(s: seq<real>, at: nat, part: seq<real>, other: nat, n: nat)
    requires at + |part| <= |s| && other + n <= |s| && (other + n <= at || at + |part| <= other)
    ensures Written(s, at, part)[other..other + n] == s[other..other + n]
  {
  }

  lemma ReducedNone(levels: seq<real>, columns: nat)
    requires levels != [] && columns > 0
    ensures Reduced(levels, columns, 0) == []
  {
  }

  lemma ReducedMore(levels: seq<real>, columns: nat, n: nat)
    requires levels != [] && n < columns
    ensures From(n, |levels|, columns) <= To(n, |levels|, columns) <= |levels|
    ensures Reduced(levels, columns, n + 1)
         == Reduced(levels, columns, n) + [Peak(levels, From(n, |levels|, columns), To(n, |levels|, columns))]
  {
    RangeIsNotEmpty(n, |levels|, columns);
  }
}
