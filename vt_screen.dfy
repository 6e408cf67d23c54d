/**
  The screen state of the VT emulator as a value, and what each callback of the escape
  sequence parser does to it: `print`, the C0 controls of `execute`, and the cursor and
  erase functions of `csi_dispatch` (ECMA-48 section 8.3: CUU 8.3.22, CUD 8.3.19,
  CUF 8.3.20, CUB 8.3.18, CUP 8.3.21, ED 8.3.39, EL 8.3.41).

  Cursor positions and sizes are Rust `usize`. Where the source indexes past the end of a
  row or removes row 0 of an empty grid, it panics; where it computes `cols - 1` or
  `rows - 1` of a zero, it panics in debug builds (overflow-checked) and wraps in release
  builds. Each such step carries a precondition saying when none of this happens.
*/
module VtScreen {
  import opened Base
  import opened Grids
  import opened Strings

  datatype Color = Default | Indexed(index: uint8) | Rgb(r: uint8, g: uint8, b: uint8)

  datatype Cell = Cell(ch: char, fg: Color, bg: Color, bold: bool, underline: bool)

  /** `Cell::default()`: a blank in the default colours, neither bold nor underlined. */
  const DefaultCell := Cell(' ', Default, Default, false, false)

  datatype Screen = Screen(cursorX: nat, cursorY: nat, cols: nat, rows: nat, cells: seq<seq<Cell>>)

  /**
    What every reachable screen satisfies: `rows` rows of `cols` cells, the cursor column
    at most `cols` (it reaches `cols` after printing in the last column) and the cursor
    row inside the grid, or 0 on a grid without rows.
  */
  ghost predicate Valid(s: Screen) {
    && IsGrid(s.cells, s.rows, s.cols)
    && s.cursorX <= s.cols
    && (s.cursorY < s.rows || (s.rows == 0 && s.cursorY == 0))
  }

  /** `VtEmulator::new`. */
  function NewScreen(cols: nat, rows: nat): (s: Screen)
    ensures Valid(s)
    ensures s.cursorX == 0 && s.cursorY == 0 && s.cols == cols && s.rows == rows
    ensures forall y, x :: 0 <= y < rows && 0 <= x < cols ==> s.cells[y][x] == DefaultCell
  {
    Screen(0, 0, cols, rows, FilledGrid(rows, cols, DefaultCell))
  }

  // ---------------------------------------------------------------------------
  // Scrolling, line feed and newline
  // ---------------------------------------------------------------------------

  /** `scroll_up`: row 0 leaves, a blank row of `cols` cells arrives at the bottom. */
  function ScrollUp(s: Screen): (t: Screen)
    requires |s.cells| > 0
    ensures |t.cells| == |s.cells|
    ensures forall y :: 0 <= y < |s.cells| - 1 ==> t.cells[y] == s.cells[y + 1]
    ensures t.cells[|s.cells| - 1] == Filled(s.cols, DefaultCell)
    ensures t.(cells := s.cells) == s
  {
    s.(cells := s.cells[1..] + [Filled(s.cols, DefaultCell)])
  }

  /** A line feed at the bottom row scrolls, which needs a row to remove. */
  predicate LineFeedDefined(s: Screen) {
    s.cursorY + 1 < s.rows || |s.cells| > 0
  }

  /** LF, VT and FF: down one row, scrolling at the bottom; the column is kept. */
  function LineFeed(s: Screen): (t: Screen)
    requires LineFeedDefined(s)
  {
    if s.cursorY + 1 >= s.rows then ScrollUp(s) else s.(cursorY := s.cursorY + 1)
  }

  /** `newline`: back to column 0, then a line feed. */
  function Newline(s: Screen): Screen
    requires LineFeedDefined(s)
  {
    LineFeed(s.(cursorX := 0))
  }

  /** A line feed keeps the shape and the column and never leaves the grid. */
  lemma LineFeedKeepsValid(s: Screen)
    requires Valid(s) && LineFeedDefined(s)
    ensures Valid(LineFeed(s))
    ensures LineFeed(s).cursorX == s.cursorX
    ensures s.cursorY + 1 < s.rows ==> LineFeed(s).cursorY == s.cursorY + 1 && LineFeed(s).cells == s.cells
    ensures s.cursorY + 1 >= s.rows ==>
      LineFeed(s).cursorY == s.cursorY && LineFeed(s).cells == s.cells[1..] + [Filled(s.cols, DefaultCell)]
  {
  }

  // ---------------------------------------------------------------------------
  // print
  // ---------------------------------------------------------------------------

  /** Printing in the column past the last wraps through `newline` first. */
  predicate PrintDefined(s: Screen) {
    s.cursorX >= s.cols ==> LineFeedDefined(s.(cursorX := 0))
  }

  /** The screen `print` writes into: wrapped to the next line when the row is full. */
  function Wrapped(s: Screen): Screen
    requires PrintDefined(s)
  {
    if s.cursorX >= s.cols then Newline(s) else s
  }

  /** `print`: wrap if needed, then write `ch` under the cursor and move right. */
  function Print(s: Screen, ch: char): Screen
    requires Valid(s) && PrintDefined(s)
  {
    if s.cursorX >= s.cols then LineFeedKeepsValid(s.(cursorX := 0)); PrintAt(Wrapped(s), ch) else PrintAt(s, ch)
  }

  /** Write `ch` under the cursor and move right, when the cursor is on the grid. */
  function PrintAt(t: Screen, ch: char): Screen
    requires Valid(t)
  {
    if t.cursorY < |t.cells| && t.cursorX < t.cols then
      var row := t.cells[t.cursorY];
      t.(cells := t.cells[t.cursorY := row[t.cursorX := row[t.cursorX].(ch := ch)]], cursorX := t.cursorX + 1)
    else t
  }

  /**
    After `print` the character sits in the cell left of the cursor, on the row the wrap
    chose, and every other cell is as the wrap left it.
  */
  lemma PrintWrites(s: Screen, ch: char)
    requires Valid(s) && PrintDefined(s) && s.rows > 0
    ensures var w := Wrapped(s);
      var t := Print(s, ch);
      && Valid(t)
      && w.cursorX == (if s.cursorX >= s.cols then 0 else s.cursorX)
      && (s.cols > 0 ==> t.cursorX == w.cursorX + 1 && t.cursorY == w.cursorY)
      && (s.cols > 0 ==> t.cells[t.cursorY][t.cursorX - 1] == w.cells[w.cursorY][w.cursorX].(ch := ch))
      && (forall y, x :: 0 <= y < s.rows && 0 <= x < s.cols && (y, x) != (w.cursorY, w.cursorX) ==>
            t.cells[y][x] == w.cells[y][x])
  {
    if s.cursorX >= s.cols {
      LineFeedKeepsValid(s.(cursorX := 0));
    }
  }

  /** A print that does not wrap writes `ch` at the cursor, moves one column right, and changes nothing else. */
  lemma PrintInRow(s: Screen, ch: char)
    requires Valid(s) && s.cursorX < s.cols && s.rows > 0
    ensures var row := s.cells[s.cursorY];
      Print(s, ch) == s.(cursorX := s.cursorX + 1, cells := s.cells[s.cursorY := row[s.cursorX := row[s.cursorX].(ch := ch)]])
  {
  }

  /** Printing keeps the screen shape and the cursor bounds, whatever the cursor position. */
  lemma PrintKeepsValid(s: Screen, ch: char)
    requires Valid(s) && PrintDefined(s)
    ensures Valid(Print(s, ch))
    ensures Print(s, ch).cols == s.cols && Print(s, ch).rows == s.rows
  {
    if s.cursorX >= s.cols {
      LineFeedKeepsValid(s.(cursorX := 0));
    }
  }

  // ---------------------------------------------------------------------------
  // execute: C0 controls
  // ---------------------------------------------------------------------------

  /** Line feeds need a row to scroll; a tab computes `cols - 1`. */
  predicate ExecuteDefined(s: Screen, byte: uint8) {
    && (byte == 0x0a || byte == 0x0b || byte == 0x0c ==> LineFeedDefined(s))
    && (byte == 0x09 ==> s.cols > 0)
  }

  /** The next tab stop, a multiple of 8, no further right than the last column. */
  function TabStop(x: nat, cols: nat): (t: nat)
    requires cols > 0
    ensures t <= cols - 1
    ensures t % 8 == 0 || t == cols - 1
    ensures t == cols - 1 || (x < t && t - x <= 8)
  {
    var next := (x / 8 + 1) * 8;
    if next <= cols - 1 then next else cols - 1
  }

  /** `execute`: LF/VT/FF feed a line, CR returns, BS steps back, HT tabs; the rest (BEL among them) do nothing. */
  function Execute(s: Screen, byte: uint8): Screen
    requires ExecuteDefined(s, byte)
  {
    if byte == 0x0a || byte == 0x0b || byte == 0x0c then LineFeed(s)
    else if byte == 0x0d then s.(cursorX := 0)
    else if byte == 0x08 then (if s.cursorX > 0 then s.(cursorX := s.cursorX - 1) else s)
    else if byte == 0x09 then s.(cursorX := TabStop(s.cursorX, s.cols))
    else s
  }

  /** Carriage return, backspace and tab move only the cursor column, and never below 0. */
  lemma ExecuteMovesColumn(s: Screen, byte: uint8)
    requires ExecuteDefined(s, byte)
    requires byte == 0x0d || byte == 0x08 || byte == 0x09
    ensures Execute(s, byte).(cursorX := s.cursorX) == s
    ensures byte == 0x0d ==> Execute(s, byte).cursorX == 0
    ensures byte == 0x08 ==> Execute(s, byte).cursorX == if s.cursorX == 0 then 0 else s.cursorX - 1
    ensures byte == 0x09 ==> Execute(s, byte).cursorX < s.cols
  {
  }

  /** Every C0 control keeps the screen shape and the cursor bounds. */
  lemma ExecuteKeepsValid(s: Screen, byte: uint8)
    requires Valid(s) && ExecuteDefined(s, byte)
    ensures Valid(Execute(s, byte))
    ensures Execute(s, byte).cols == s.cols && Execute(s, byte).rows == s.rows
  {
    if byte == 0x0a || byte == 0x0b || byte == 0x0c {
      LineFeedKeepsValid(s);
    }
  }

  // ---------------------------------------------------------------------------
  // csi_dispatch
  // ---------------------------------------------------------------------------

  /** The `i`-th parameter, 0 when it is missing. */
  function Param(params: seq<uint16>, i: nat): (p: nat)
    ensures i < |params| ==> p == params[i] as nat
    ensures i >= |params| ==> p == 0
  {
    if i < |params| then params[i] as nat else 0
  }

  /** A count parameter: 0 (or missing) means 1. */
  function Count(p: nat): (n: nat)
    ensures n >= 1
    ensures p > 0 ==> n == p
  {
    if p == 0 then 1 else p
  }

  /** `a.saturating_sub(b)`. */
  function SaturatingSub(a: nat, b: nat): (r: nat)
    ensures r == if a >= b then a - b else 0
  {
    if a >= b then a - b else 0
  }

  function Min(a: nat, b: nat): nat {
    if a <= b then a else b
  }

  /** Every cell for which `erase` holds reset to the default, the rest unchanged. */
  function Blank(cells: seq<seq<Cell>>, erase: (nat, nat) -> bool): (r: seq<seq<Cell>>)
    ensures |r| == |cells|
    ensures forall y :: 0 <= y < |cells| ==> |r[y]| == |cells[y]|
    ensures forall y, x :: 0 <= y < |cells| && 0 <= x < |cells[y]| ==>
      r[y][x] == if erase(y, x) then DefaultCell else cells[y][x]
  {
    seq(|cells|, y requires 0 <= y < |cells| =>
      seq(|cells[y]|, x requires 0 <= x < |cells[y]| => if erase(y, x) then DefaultCell else cells[y][x]))
  }

  /** The cells `ED` resets: from the cursor on (0), up to and including it (1), or all (2, 3). */
  function DisplayRegion(s: Screen, mode: nat): (nat, nat) -> bool {
    var cx, cy := s.cursorX, s.cursorY;
    if mode == 0 then (y: nat, x: nat) => (y == cy && x >= cx) || y > cy
    else if mode == 1 then (y: nat, x: nat) => y < cy || (y == cy && x <= cx)
    else if mode == 2 || mode == 3 then (y: nat, x: nat) => true
    else (y: nat, x: nat) => false
  }

  /** The cells `EL` resets, all on the cursor row: from the cursor on (0), up to it (1), or all (2). */
  function LineRegion(s: Screen, mode: nat): (nat, nat) -> bool {
    var cx, cy := s.cursorX, s.cursorY;
    if mode == 0 then (y: nat, x: nat) => y == cy && x >= cx
    else if mode == 1 then (y: nat, x: nat) => y == cy && x <= cx
    else if mode == 2 then (y: nat, x: nat) => y == cy
    else (y: nat, x: nat) => false
  }

  /**
    When `csi_dispatch` neither panics nor wraps: CUD, CUF and CUP compute `rows - 1` or `cols - 1`;
    ED and EL index the cursor row, and modes 1 index the cursor column itself, which is
    out of the row when the cursor stands past the last column.
  */
  predicate CsiDefined(s: Screen, params: seq<uint16>, action: char) {
    var mode := Param(params, 0);
    var onRow := s.cursorY < |s.cells|;
    match action
    case 'B' => s.rows > 0
    case 'C' => s.cols > 0
    case 'H' => s.rows > 0 && s.cols > 0
    case 'f' => s.rows > 0 && s.cols > 0
    case 'J' =>
      && (mode == 0 && s.cursorX < s.cols ==> onRow)
      && (mode == 1 ==> onRow && s.cursorX < s.cols)
    case 'K' =>
      && (mode == 0 && s.cursorX < s.cols ==> onRow)
      && (mode == 1 ==> onRow && s.cursorX < s.cols)
      && (mode == 2 && s.cols > 0 ==> onRow)
    case _ => true
  }

  /** `csi_dispatch` for CUU, CUD, CUF, CUB, CUP (also `f`), ED and EL; other finals do nothing. */
  function Csi(s: Screen, params: seq<uint16>, action: char): Screen
    requires CsiDefined(s, params, action)
  {
    var first, second := Param(params, 0), Param(params, 1);
    match action
    case 'A' => s.(cursorY := SaturatingSub(s.cursorY, Count(first)))
    case 'B' => s.(cursorY := Min(s.cursorY + Count(first), s.rows - 1))
    case 'C' => s.(cursorX := Min(s.cursorX + Count(first), s.cols - 1))
    case 'D' => s.(cursorX := SaturatingSub(s.cursorX, Count(first)))
    case 'H' => s.(cursorY := Min(Count(first) - 1, s.rows - 1), cursorX := Min(Count(second) - 1, s.cols - 1))
    case 'f' => s.(cursorY := Min(Count(first) - 1, s.rows - 1), cursorX := Min(Count(second) - 1, s.cols - 1))
    case 'J' => s.(cells := Blank(s.cells, DisplayRegion(s, first)))
    case 'K' => s.(cells := Blank(s.cells, LineRegion(s, first)))
    case _ => s
  }

  /**
    The cursor functions: a missing or zero count moves one cell; up and back stop at 0;
    down, forward and the 1-based position stop at the last row and column. No cell changes.
  */
  lemma CsiMovesCursor(s: Screen, params: seq<uint16>, action: char)
    requires CsiDefined(s, params, action)
    requires action in {'A', 'B', 'C', 'D', 'H', 'f'}
    ensures var t := Csi(s, params, action);
      var n := if params == [] || params[0] == 0 then 1 else params[0] as nat;
      var m := if |params| < 2 || params[1] == 0 then 1 else params[1] as nat;
      && t.cells == s.cells && t.rows == s.rows && t.cols == s.cols
      && (action == 'A' ==> t.cursorX == s.cursorX && t.cursorY == if s.cursorY >= n then s.cursorY - n else 0)
      && (action == 'B' ==> t.cursorX == s.cursorX && t.cursorY == if s.cursorY + n <= s.rows - 1 then s.cursorY + n else s.rows - 1)
      && (action == 'C' ==> t.cursorY == s.cursorY && t.cursorX == if s.cursorX + n <= s.cols - 1 then s.cursorX + n else s.cols - 1)
      && (action == 'D' ==> t.cursorY == s.cursorY && t.cursorX == if s.cursorX >= n then s.cursorX - n else 0)
      && (action == 'H' || action == 'f' ==> t.cursorY == Min(n - 1, s.rows - 1) && t.cursorX == Min(m - 1, s.cols - 1))
  {
  }

  /** Every CSI function keeps the screen shape and the cursor bounds. */
  lemma CsiKeepsValid(s: Screen, params: seq<uint16>, action: char)
    requires Valid(s) && CsiDefined(s, params, action)
    ensures Valid(Csi(s, params, action))
    ensures Csi(s, params, action).cols == s.cols && Csi(s, params, action).rows == s.rows
  {
  }

  /** `ESC[row;colH` puts the cursor on 1-based `row` and `col` when they are on the screen. */
  lemma CursorPositionOneBased(s: Screen, row: uint16, col: uint16)
    requires 1 <= row as nat <= s.rows && 1 <= col as nat <= s.cols
    ensures Csi(s, [row, col], 'H').cursorY == row as nat - 1
    ensures Csi(s, [row, col], 'H').cursorX == col as nat - 1
  {
  }

  /** ED 2 and ED 3 reset every cell and leave the cursor where it was. */
  lemma EraseDisplayAll(s: Screen, mode: uint16)
    requires Valid(s) && (mode == 2 || mode == 3)
    ensures var t := Csi(s, [mode], 'J');
      && Valid(t) && t.cursorX == s.cursorX && t.cursorY == s.cursorY
      && forall y, x :: 0 <= y < s.rows && 0 <= x < s.cols ==> t.cells[y][x] == DefaultCell
  {
  }

  /** ED 0 resets from the cursor to the end of the screen and nothing before it. */
  lemma EraseDisplayBelow(s: Screen, params: seq<uint16>)
    requires Valid(s) && Param(params, 0) == 0 && CsiDefined(s, params, 'J')
    ensures var t := Csi(s, params, 'J');
      && Valid(t)
      && forall y, x :: 0 <= y < s.rows && 0 <= x < s.cols ==>
        t.cells[y][x] == if y > s.cursorY || (y == s.cursorY && x >= s.cursorX) then DefaultCell else s.cells[y][x]
  {
  }

  /** EL touches only the cursor row; there it resets from the cursor on, up to it, or all of it. */
  lemma EraseLineOnlyCursorRow(s: Screen, params: seq<uint16>)
    requires Valid(s) && CsiDefined(s, params, 'K')
    ensures var t := Csi(s, params, 'K');
      var mode := Param(params, 0);
      && Valid(t)
      && (forall y, x :: 0 <= y < s.rows && 0 <= x < s.cols && y != s.cursorY ==> t.cells[y][x] == s.cells[y][x])
      && (forall x :: 0 <= x < s.cols && s.cursorY < s.rows ==>
            t.cells[s.cursorY][x] ==
              if (mode == 0 && x >= s.cursorX) || (mode == 1 && x <= s.cursorX) || mode == 2 then DefaultCell
              else s.cells[s.cursorY][x])
  {
  }

  // ---------------------------------------------------------------------------
  // resize and get_line_text
  // ---------------------------------------------------------------------------

  /** `resize` computes `cols - 1` and `rows - 1` whenever the cursor is past them, so a 0 panics in debug builds and wraps in release builds. */
  predicate ResizeDefined(s: Screen, cols: nat, rows: nat) {
    (s.cursorX >= cols ==> cols > 0) && (s.cursorY >= rows ==> rows > 0)
  }

  /** `resize`: the grid takes the new shape, keeping the overlap, and the cursor is pulled inside. */
  function Resize(s: Screen, cols: nat, rows: nat): Screen
    requires ResizeDefined(s, cols, rows)
  {
    Screen(
      if s.cursorX >= cols then cols - 1 else s.cursorX,
      if s.cursorY >= rows then rows - 1 else s.cursorY,
      cols, rows, ResizeGrid(s.cells, rows, cols, DefaultCell))
  }

  /**
    After `resize` the grid is exactly rows×cols, old cells survive where both shapes
    overlap, new cells are blank, and the cursor is inside the new grid.
  */
  lemma ResizeShape(s: Screen, cols: nat, rows: nat)
    requires Valid(s) && ResizeDefined(s, cols, rows)
    ensures var t := Resize(s, cols, rows);
      && Valid(t)
      && t.cursorX < cols && t.cursorY < rows
      && (forall y, x :: 0 <= y < rows && 0 <= x < cols ==>
            t.cells[y][x] == if y < s.rows && x < s.cols then s.cells[y][x] else DefaultCell)
  {
  }

  /** `get_line_text`: the characters of a row, or "" past the last row. */
  function LineText(s: Screen, row: nat): (text: string)
    ensures row < |s.cells| ==> |text| == |s.cells[row]| && forall x :: 0 <= x < |text| ==> text[x] == s.cells[row][x].ch
    ensures row >= |s.cells| ==> text == ""
  {
    if row < |s.cells| then seq(|s.cells[row]|, x requires 0 <= x < |s.cells[row]| => s.cells[row][x].ch) else ""
  }

  // ---------------------------------------------------------------------------
  // process: the parser's callbacks in order
  // ---------------------------------------------------------------------------

  /** One callback from the escape sequence parser: `print`, `execute` or `csi_dispatch`. */
  datatype Action = PrintChar(ch: char) | Control(byte: uint8) | CsiSeq(params: seq<uint16>, final: char)

  predicate StepDefined(s: Screen, a: Action) {
    match a
    case PrintChar(_) => PrintDefined(s)
    case Control(byte) => ExecuteDefined(s, byte)
    case CsiSeq(params, final) => CsiDefined(s, params, final)
  }

  /** One callback applied to the screen; every callback keeps the screen valid. */
  function Step(s: Screen, a: Action): (t: Screen)
    requires Valid(s) && StepDefined(s, a)
    ensures Valid(t) && t.cols == s.cols && t.rows == s.rows
  {
    match a
    case PrintChar(ch) => PrintKeepsValid(s, ch); Print(s, ch)
    case Control(byte) => ExecuteKeepsValid(s, byte); Execute(s, byte)
    case CsiSeq(params, final) => CsiKeepsValid(s, params, final); Csi(s, params, final)
  }

  /**
    `process`: the callbacks in the order the parser makes them. `None` when one of them
    would panic (or, for a `- 1` of a zero, wrap in release builds); otherwise the final screen, which is valid and of the same size.
  */
  function Run(s: Screen, acts: seq<Action>): (r: Option<Screen>)
    requires Valid(s)
    ensures r.Some? ==> Valid(r.value) && r.value.cols == s.cols && r.value.rows == s.rows
    decreases |acts|
  {
    if acts == [] then Some(s)
    else if StepDefined(s, acts[0]) then Run(Step(s, acts[0]), acts[1..])
    else None
  }

  /** Feeding two chunks one after the other is feeding their concatenation. */
  lemma {:induction false} RunAppend(s: Screen, a: seq<Action>, b: seq<Action>)
    requires Valid(s)
    ensures Run(s, a + b) == if Run(s, a).Some? then Run(Run(s, a).value, b) else None
    decreases |a|
  {
    if a == [] {
      assert a + b == b;
    } else if StepDefined(s, a[0]) {
      assert (a + b)[1..] == a[1..] + b;
      RunAppend(Step(s, a[0]), a[1..], b);
    }
  }

  /** The callbacks for plain text: one `print` per character. */
  function Prints(text: string): (acts: seq<Action>)
    ensures |acts| == |text| && forall i :: 0 <= i < |text| ==> acts[i] == PrintChar(text[i])
  {
    seq(|text|, i requires 0 <= i < |text| => PrintChar(text[i]))
  }

  /**
    Text that fits in the rest of the cursor row lands in consecutive cells from the cursor,
    the cursor ends just past it, and no other cell changes.
  */
  lemma {:induction false} RunPrints(s: Screen, text: string)
    requires Valid(s) && s.rows > 0 && s.cursorX + |text| <= s.cols
    ensures Run(s, Prints(text)).Some?
    ensures var t := Run(s, Prints(text)).value;
      var cx, cy := s.cursorX, s.cursorY;
      && t.cursorX == cx + |text| && t.cursorY == cy
      && (forall y, x :: 0 <= y < s.rows && 0 <= x < s.cols ==>
            t.cells[y][x] == if y == cy && cx <= x < cx + |text| then s.cells[y][x].(ch := text[x - cx]) else s.cells[y][x])
    decreases |text|
  {
    if text != [] {
      PrintInRow(s, text[0]);
      var s1 := Print(s, text[0]);
      assert Prints(text)[1..] == Prints(text[1..]);
      RunPrints(s1, text[1..]);
    }
  }

  /** `test_print_basic`: "Hello, Pier!" on a fresh 80×24 screen is the trimmed first line, with the cursor at column 12. */
  lemma PrintBasic(text: string)
    requires text == "Hello, Pier!"
    ensures Run(NewScreen(80, 24), Prints(text)).Some?
    ensures var t := Run(NewScreen(80, 24), Prints(text)).value;
      && Trim(LineText(t, 0)) == text && t.cursorX == 12 && t.cursorY == 0
  {
    var s := NewScreen(80, 24);
    RunPrints(s, text);
    var line := LineText(Run(s, Prints(text)).value, 0);
    TrimPadded(line, 12);
    assert line[..12] == text;
  }

  /** CR then LF above the bottom row: column 0 of the next row, no cell changed. */
  lemma CrLf(s: Screen)
    requires Valid(s) && s.cursorY + 1 < s.rows
    ensures Run(s, [Control(0x0d), Control(0x0a)]) == Some(s.(cursorX := 0, cursorY := s.cursorY + 1))
  {
    var s1 := s.(cursorX := 0);
    assert Step(s, Control(0x0d)) == s1;
    assert Step(s1, Control(0x0a)) == s1.(cursorY := s.cursorY + 1);
    assert [Control(0x0d), Control(0x0a)][1..] == [Control(0x0a)];
  }

  /** A row that holds `text` followed by blanks trims to `text`. */
  lemma TrimmedRow(t: Screen, row: nat, text: string)
    requires Valid(t) && row < t.rows && 0 < |text| <= t.cols
    requires !IsWhitespace(text[0]) && !IsWhitespace(text[|text| - 1])
    requires forall x :: 0 <= x < t.cols ==> t.cells[row][x].ch == if x < |text| then text[x] else ' '
    ensures Trim(LineText(t, row)) == text
  {
    var line := LineText(t, row);
    TrimPadded(line, |text|);
    assert line[..|text|] == text;
  }

  /** Text on the first row, CR LF, then text on the second row of a fresh screen. */
  lemma {:induction false} TwoLines(cols: nat, rows: nat, first: string, second: string)
    requires 1 < rows && |first| <= cols && |second| <= cols
    ensures var acts := Prints(first) + [Control(0x0d), Control(0x0a)] + Prints(second);
      && Run(NewScreen(cols, rows), acts).Some?
      && var t := Run(NewScreen(cols, rows), acts).value;
      && (forall x :: 0 <= x < cols ==> t.cells[0][x].ch == if x < |first| then first[x] else ' ')
      && (forall x :: 0 <= x < cols ==> t.cells[1][x].ch == if x < |second| then second[x] else ' ')
  {
    var s := NewScreen(cols, rows);
    var crlf := [Control(0x0d), Control(0x0a)];
    RunPrints(s, first);
    var s1 := Run(s, Prints(first)).value;
    CrLf(s1);
    var s2 := s1.(cursorX := 0, cursorY := 1);
    RunAppend(s, Prints(first), crlf);
    RunPrints(s2, second);
    RunAppend(s, Prints(first) + crlf, Prints(second));
  }

  /** `test_newline`: after "Line1", CR, LF and "Line2" the first two lines trim to the two words. */
  lemma NewlineTest(first: string, second: string)
    requires first == "Line1" && second == "Line2"
    ensures var acts := Prints(first) + [Control(0x0d), Control(0x0a)] + Prints(second);
      && Run(NewScreen(80, 24), acts).Some?
      && Trim(LineText(Run(NewScreen(80, 24), acts).value, 0)) == first
      && Trim(LineText(Run(NewScreen(80, 24), acts).value, 1)) == second
  {
    TwoLines(80, 24, first, second);
    var t := Run(NewScreen(80, 24), Prints(first) + [Control(0x0d), Control(0x0a)] + Prints(second)).value;
    TrimmedRow(t, 0, first);
    TrimmedRow(t, 1, second);
  }

  /** `test_cursor_movement`: `ESC[5;10H` then 'X' writes the X into row 4, column 9 (0-based). */
  lemma CursorMovementTest()
    ensures var acts := [CsiSeq([5, 10], 'H'), PrintChar('X')];
      && Run(NewScreen(80, 24), acts).Some?
      && Run(NewScreen(80, 24), acts).value.cells[4][9].ch == 'X'
  {
    var s := NewScreen(80, 24);
    CursorPositionOneBased(s, 5, 10);
    var s1 := Csi(s, [5, 10], 'H');
    PrintInRow(s1, 'X');
  }

  /** `test_clear_screen`: after some text, `ESC[2J` leaves the first line blank. */
  lemma ClearScreenTest(text: string)
    requires text == "Some text"
    ensures var acts := Prints(text) + [CsiSeq([2], 'J')];
      && Run(NewScreen(80, 24), acts).Some?
      && Trim(LineText(Run(NewScreen(80, 24), acts).value, 0)) == ""
  {
    var s := NewScreen(80, 24);
    RunPrints(s, text);
    var s1 := Run(s, Prints(text)).value;
    EraseDisplayAll(s1, 2);
    RunAppend(s, Prints(text), [CsiSeq([2], 'J')]);
  }

  /**
    The hazard of printing into the last column: the cursor then stands at `cols`, past the
    row, and `ESC[1J` or `ESC[1K` would index the cell at `cols` and panic.
  */
  lemma FullRowThenEraseToCursorPanics(cols: nat, rows: nat, text: string)
    requires cols > 0 && rows > 0 && |text| == cols
    ensures Run(NewScreen(cols, rows), Prints(text)).Some?
    ensures var t := Run(NewScreen(cols, rows), Prints(text)).value;
      && t.cursorX == cols
      && Run(t, [CsiSeq([1], 'J')]) == None
      && Run(t, [CsiSeq([1], 'K')]) == None
  {
    RunPrints(NewScreen(cols, rows), text);
  }
}
