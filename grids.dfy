/**
  The effect of Rust's `Vec::resize` on a row and on a `Vec<Vec<_>>` grid whose rows are
  then resized one by one: the shape the terminal emulator and the terminal session share.
*/
module Grids {

  /** Every row of `g` has length `cols`, and there are `rows` of them. */
  ghost predicate IsGrid<T>(g: seq<seq<T>>, rows: nat, cols: nat) {
    |g| == rows && forall y :: 0 <= y < rows ==> |g[y]| == cols
  }

  function Filled<T>(n: nat, fill: T): (r: seq<T>)
    ensures |r| == n && forall x :: 0 <= x < n ==> r[x] == fill
  {
    seq(n, _ => fill)
  }

  /** `vec![vec![fill; cols]; rows]`. */
  function FilledGrid<T>(rows: nat, cols: nat, fill: T): (r: seq<seq<T>>)
    ensures IsGrid(r, rows, cols)
    ensures forall y, x :: 0 <= y < rows && 0 <= x < cols ==> r[y][x] == fill
  {
    seq(rows, _ => Filled(cols, fill))
  }

  /** `row.resize(n, fill)`: truncate, or pad with `fill`. */
  function ResizeRow<T>(row: seq<T>, n: nat, fill: T): (r: seq<T>)
    ensures |r| == n
    ensures forall x :: 0 <= x < n ==> r[x] == if x < |row| then row[x] else fill
  {
    if n <= |row| then row[..n] else row + Filled(n - |row|, fill)
  }

  /**
    `g.resize(rows, vec![fill; cols])` followed by `row.resize(cols, fill)` on every row:
    the overlap with the old grid is kept and every new cell holds `fill`.
  */
  function ResizeGrid<T>(g: seq<seq<T>>, rows: nat, cols: nat, fill: T): (r: seq<seq<T>>)
    ensures IsGrid(r, rows, cols)
    ensures forall y, x :: 0 <= y < rows && 0 <= x < cols ==>
      r[y][x] == if y < |g| && x < |g[y]| then g[y][x] else fill
  {
    var outer := ResizeRow(g, rows, Filled(cols, fill));
    seq(rows, y requires 0 <= y < rows => ResizeRow(outer[y], cols, fill))
  }

  /** Shrinking back to the old shape after growing restores the old grid exactly. */
  lemma GrowThenShrinkRestores<T>(g: seq<seq<T>>, rows: nat, cols: nat, bigRows: nat, bigCols: nat, fill: T)
    requires IsGrid(g, rows, cols)
    requires rows <= bigRows && cols <= bigCols
    ensures ResizeGrid(ResizeGrid(g, bigRows, bigCols, fill), rows, cols, fill) == g
  {
    var r := ResizeGrid(ResizeGrid(g, bigRows, bigCols, fill), rows, cols, fill);
    forall y | 0 <= y < rows ensures r[y] == g[y] {
      assert |r[y]| == |g[y]|;
    }
  }
}
