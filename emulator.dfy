/**
  `VtEmulator` and its `EmulatorPerformer`: the cursor and the cell grid updated in place
  by the parser's callbacks. Every method is proved to leave the emulator in the screen
  state that the `VtScreen` functions describe for the same callback.
*/
module Emulator {
  import opened Base
  import opened Grids
  import opened VtScreen

  /** `after` is `before` with exactly the cells for which `erase` holds reset to the default. */
  ghost predicate ErasedFrom(before: seq<seq<Cell>>, after: seq<seq<Cell>>, erase: (nat, nat) -> bool) {
    && |after| == |before|
    && (forall y :: 0 <= y < |before| ==> |after[y]| == |before[y]|)
    && (forall y, x :: 0 <= y < |before| && 0 <= x < |before[y]| ==>
          after[y][x] == if erase(y, x) then DefaultCell else before[y][x])
  }

  lemma ErasedIsBlank(before: seq<seq<Cell>>, after: seq<seq<Cell>>, erase: (nat, nat) -> bool)
    requires ErasedFrom(before, after, erase)
    ensures after == Blank(before, erase)
  {
    var b := Blank(before, erase);
    forall y | 0 <= y < |before| ensures after[y] == b[y] {
    }
  }

  class VtEmulator {
    var cursorX: nat
    var cursorY: nat
    var cols: nat
    var rows: nat
    var cells: seq<seq<Cell>>

    /** The emulator's state as a screen value. */
    function Snapshot(): Screen
      reads this
    {
      Screen(cursorX, cursorY, cols, rows, cells)
    }

    /** `VtEmulator::new`: a rows×cols grid of default cells, cursor at the origin. */
    constructor(cols: nat, rows: nat)
      ensures Snapshot() == NewScreen(cols, rows)
      ensures Valid(Snapshot())
    {
      cursorX, cursorY := 0, 0;
      this.cols, this.rows := cols, rows;
      cells := FilledGrid(rows, cols, DefaultCell);
    }

    /** `resize`: resize the list of rows, then every row, then pull the cursor inside. */
    method Resize(newCols: nat, newRows: nat)
      requires ResizeDefined(Snapshot(), newCols, newRows)
      modifies this
      ensures Snapshot() == VtScreen.Resize(old(Snapshot()), newCols, newRows)
    {
      ghost var before := cells;
      cols, rows := newCols, newRows;
      cells := ResizeRow(cells, newRows, Filled(newCols, DefaultCell));
      ghost var outer := cells;
      var y := 0;
      while y < |cells|
        invariant |cells| == newRows && y <= newRows
        invariant cursorX == old(cursorX) && cursorY == old(cursorY) && cols == newCols && rows == newRows
        invariant forall i :: 0 <= i < y ==> cells[i] == ResizeRow(outer[i], newCols, DefaultCell)
        invariant forall i :: y <= i < newRows ==> cells[i] == outer[i]
      {
        cells := cells[y := ResizeRow(cells[y], newCols, DefaultCell)];
        y := y + 1;
      }
      if cursorX >= newCols {
        cursorX := newCols - 1;
      }
      if cursorY >= newRows {
        cursorY := newRows - 1;
      }
      assert outer == ResizeRow(before, newRows, Filled(newCols, DefaultCell));
      assert forall i :: 0 <= i < newRows ==> cells[i] == ResizeGrid(before, newRows, newCols, DefaultCell)[i];
    }

    /** `get_line_text`: the characters of one row, or nothing past the last row. */
    method GetLineText(row: nat) returns (text: string)
      ensures text == LineText(Snapshot(), row)
    {
      if row < |cells| {
        var line := cells[row];
        text := seq(|line|, x requires 0 <= x < |line| => line[x].ch);
      } else {
        text := "";
      }
    }

    /** `scroll_up`: drop row 0, push a blank row. */
    method ScrollUp()
      requires |cells| > 0
      modifies this
      ensures Snapshot() == VtScreen.ScrollUp(old(Snapshot()))
    {
      cells := cells[1..];
      cells := cells + [Filled(cols, DefaultCell)];
    }

    /** `newline`: column 0, then down a row or scroll at the bottom. */
    method Newline()
      requires LineFeedDefined(Snapshot().(cursorX := 0))
      modifies this
      ensures Snapshot() == VtScreen.Newline(old(Snapshot()))
    {
      cursorX := 0;
      if cursorY + 1 >= rows {
        ScrollUp();
      } else {
        cursorY := cursorY + 1;
      }
    }

    /** `print`. */
    method Print(ch: char)
      requires Valid(Snapshot()) && PrintDefined(Snapshot())
      modifies this
      ensures Snapshot() == VtScreen.Print(old(Snapshot()), ch)
    {
      if cursorX >= cols {
        Newline();
        LineFeedKeepsValid(old(Snapshot()).(cursorX := 0));
      }
      if cursorY < |cells| && cursorX < cols {
        cells := cells[cursorY := cells[cursorY][cursorX := cells[cursorY][cursorX].(ch := ch)]];
        cursorX := cursorX + 1;
      }
    }

    /** `execute`: the C0 controls. */
    method Execute(byte: uint8)
      requires ExecuteDefined(Snapshot(), byte)
      modifies this
      ensures Snapshot() == VtScreen.Execute(old(Snapshot()), byte)
    {
      if byte == 0x0a || byte == 0x0b || byte == 0x0c {
        if cursorY + 1 >= rows {
          ScrollUp();
        } else {
          cursorY := cursorY + 1;
        }
      } else if byte == 0x0d {
        cursorX := 0;
      } else if byte == 0x08 {
        if cursorX > 0 {
          cursorX := cursorX - 1;
        }
      } else if byte == 0x09 {
        var nextTab := (cursorX / 8 + 1) * 8;
        cursorX := if nextTab <= cols - 1 then nextTab else cols - 1;
      }
    }

    /** One `for x in from..to` loop resetting cells of row `y`. */
    method EraseRow(y: nat, from: nat, to: nat)
      requires y < |cells| && to <= |cells[y]|
      modifies this`cells
      ensures ErasedFrom(old(cells), cells, (yy: nat, xx: nat) => yy == y && from <= xx < to)
    {
      var x := from;
      while x < to
        invariant x == from || from <= x <= to
        invariant ErasedFrom(old(cells), cells, (yy: nat, xx: nat) => yy == y && from <= xx < x)
      {
        cells := cells[y := cells[y][x := DefaultCell]];
        x := x + 1;
      }
      forall yy: nat, xx: nat | yy < |old(cells)| && xx < |old(cells)[yy]|
        ensures cells[yy][xx] == if yy == y && from <= xx < to then DefaultCell else old(cells)[yy][xx]
      {
        assert cells[yy][xx] == if yy == y && from <= xx < x then DefaultCell else old(cells)[yy][xx];
      }
    }

    /** `for y in from..to { for x in 0..cols { … } }`: whole rows reset. */
    method EraseRows(from: nat, to: nat)
      requires IsGrid(cells, rows, cols) && to <= rows
      modifies this`cells
      ensures ErasedFrom(old(cells), cells, (yy: nat, xx: nat) => from <= yy < to)
    {
      var y := from;
      while y < to
        invariant y == from || from <= y <= to
        invariant ErasedFrom(old(cells), cells, (yy: nat, xx: nat) => from <= yy < y)
      {
        EraseRow(y, 0, cols);
        y := y + 1;
      }
      forall yy: nat, xx: nat | yy < |old(cells)| && xx < |old(cells)[yy]|
        ensures cells[yy][xx] == if from <= yy < to then DefaultCell else old(cells)[yy][xx]
      {
        assert cells[yy][xx] == if from <= yy < y then DefaultCell else old(cells)[yy][xx];
      }
    }

    /** The `J` arm of `csi_dispatch`. */
    method EraseInDisplay(mode: nat)
      requires Valid(Snapshot())
      requires mode == 0 && cursorX < cols ==> cursorY < |cells|
      requires mode == 1 ==> cursorY < |cells| && cursorX < cols
      modifies this`cells
      ensures cells == Blank(old(cells), DisplayRegion(old(Snapshot()), mode))
    {
      if mode == 0 {
        if cursorX < cols {
          EraseRow(cursorY, cursorX, cols);
        }
        ghost var mid := cells;
        EraseRows(cursorY + 1, rows);
        assert ErasedFrom(old(cells), cells, DisplayRegion(old(Snapshot()), mode));
      } else if mode == 1 {
        EraseRows(0, cursorY);
        ghost var mid := cells;
        EraseRow(cursorY, 0, cursorX + 1);
        assert ErasedFrom(old(cells), cells, DisplayRegion(old(Snapshot()), mode));
      } else if mode == 2 || mode == 3 {
        EraseRows(0, rows);
        assert ErasedFrom(old(cells), cells, DisplayRegion(old(Snapshot()), mode));
      } else {
        assert ErasedFrom(old(cells), cells, DisplayRegion(old(Snapshot()), mode));
      }
      ErasedIsBlank(old(cells), cells, DisplayRegion(old(Snapshot()), mode));
    }

    /** The `K` arm of `csi_dispatch`. */
    method EraseInLine(mode: nat)
      requires Valid(Snapshot())
      requires mode == 0 && cursorX < cols ==> cursorY < |cells|
      requires mode == 1 ==> cursorY < |cells| && cursorX < cols
      requires mode == 2 && cols > 0 ==> cursorY < |cells|
      modifies this`cells
      ensures cells == Blank(old(cells), LineRegion(old(Snapshot()), mode))
    {
      if mode == 0 {
        if cursorX < cols {
          EraseRow(cursorY, cursorX, cols);
        }
      } else if mode == 1 {
        EraseRow(cursorY, 0, cursorX + 1);
      } else if mode == 2 {
        if cols > 0 {
          EraseRow(cursorY, 0, cols);
        }
      }
      assert ErasedFrom(old(cells), cells, LineRegion(old(Snapshot()), mode));
      ErasedIsBlank(old(cells), cells, LineRegion(old(Snapshot()), mode));
    }

    /** `csi_dispatch`: cursor movement and erasing; other finals are ignored. */
    method CsiDispatch(params: seq<uint16>, action: char)
      requires Valid(Snapshot()) && CsiDefined(Snapshot(), params, action)
      modifies this
      ensures Snapshot() == Csi(old(Snapshot()), params, action)
    {
      var first := if |params| > 0 then params[0] as nat else 0;
      var second := if |params| > 1 then params[1] as nat else 0;
      match action
      case 'A' => MoveCursor(params, action);
      case 'B' => MoveCursor(params, action);
      case 'C' => MoveCursor(params, action);
      case 'D' => MoveCursor(params, action);
      case 'H' => MoveTo(first, second);
      case 'f' => MoveTo(first, second);
      case 'J' => EraseInDisplay(first);
      case 'K' => EraseInLine(first);
      case _ =>
    }

    /** The `A`, `B`, `C` and `D` arms: a relative move by the count, stopping at the edges. */
    method MoveCursor(params: seq<uint16>, action: char)
      requires action == 'A' || action == 'B' || action == 'C' || action == 'D'
      requires Valid(Snapshot()) && CsiDefined(Snapshot(), params, action)
      modifies this`cursorX, this`cursorY
      ensures Snapshot() == Csi(old(Snapshot()), params, action)
    {
      var first := if |params| > 0 then params[0] as nat else 0;
      var n := if first == 0 then 1 else first;
      if action == 'A' {
        cursorY := if cursorY >= n then cursorY - n else 0;
      } else if action == 'B' {
        cursorY := if cursorY + n <= rows - 1 then cursorY + n else rows - 1;
      } else if action == 'C' {
        cursorX := if cursorX + n <= cols - 1 then cursorX + n else cols - 1;
      } else {
        cursorX := if cursorX >= n then cursorX - n else 0;
      }
    }

    /** The `H | f` arm: 1-based row and column, clamped to the grid. */
    method MoveTo(first: nat, second: nat)
      requires rows > 0 && cols > 0
      modifies this`cursorX, this`cursorY
      ensures Snapshot() == old(Snapshot()).(cursorY := Min(Count(first) - 1, rows - 1), cursorX := Min(Count(second) - 1, cols - 1))
    {
      var row := if first == 0 then 1 else first;
      var col := if second == 0 then 1 else second;
      cursorY := if row - 1 <= rows - 1 then row - 1 else rows - 1;
      cursorX := if col - 1 <= cols - 1 then col - 1 else cols - 1;
    }

    /** `process`: the parser's callbacks, one after the other. */
    method Process(acts: seq<Action>)
      requires Valid(Snapshot()) && Run(Snapshot(), acts).Some?
      modifies this
      ensures Snapshot() == Run(old(Snapshot()), acts).value
    {
      var i := 0;
      while i < |acts|
        invariant i <= |acts| && Valid(Snapshot())
        invariant Run(Snapshot(), acts[i..]) == Run(old(Snapshot()), acts)
        decreases |acts| - i
      {
        ghost var s := Snapshot();
        assert StepDefined(s, acts[i]);
        match acts[i] {
          case PrintChar(ch) => Print(ch);
          case Control(byte) => Execute(byte);
          case CsiSeq(params, final) => CsiDispatch(params, final);
        }
        assert Snapshot() == Step(s, acts[i]);
        assert acts[i..][1..] == acts[i + 1..];
        i := i + 1;
      }
    }
  }
}
