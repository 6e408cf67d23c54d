/**
  `TerminalSession`: the recorded size, the scrollback and the character screen of one
  terminal. The PTY behind it is not modelled: each PTY call's outcome is a parameter.
*/
module TerminalSession {
  import opened Base
  import opened Grids

  class Terminal {
    var cols: uint16
    var rows: uint16
    var scrollback: seq<string>
    var screen: seq<seq<char>>

    /** The session as built once the PTY has spawned: a blank rows×cols screen, no scrollback. */
    constructor(cols: uint16, rows: uint16)
      ensures this.cols == cols && this.rows == rows
      ensures scrollback == []
      ensures screen == FilledGrid(rows as nat, cols as nat, ' ')
    {
      this.cols, this.rows := cols, rows;
      scrollback := [];
      screen := FilledGrid(rows as nat, cols as nat, ' ');
    }

    /**
      `resize`: the recorded size changes first; when the PTY refuses the new size the
      error is returned and the screen keeps its old shape, otherwise the list of rows is
      resized first (new rows are blank and of the new width) and then every row, with blanks.
    */
    method Resize(newCols: uint16, newRows: uint16, pty: Outcome<IoError>) returns (r: Outcome<IoError>)
      modifies this
      ensures cols == newCols && rows == newRows
      ensures scrollback == old(scrollback)
      ensures r == pty
      ensures pty.Fail? ==> screen == old(screen)
      ensures pty.Pass? ==> screen == ResizeGrid(old(screen), newRows as nat, newCols as nat, ' ')
    {
      cols, rows := newCols, newRows;
      if pty.Fail? {
        return pty;
      }
      var n, m := newRows as nat, newCols as nat;
      screen := ResizeRow(screen, n, Filled(m, ' '));
      ghost var outer := screen;
      var y := 0;
      while y < |screen|
        invariant |screen| == n && y <= n
        invariant cols == newCols && rows == newRows && scrollback == old(scrollback)
        invariant forall i :: 0 <= i < y ==> screen[i] == ResizeRow(outer[i], m, ' ')
        invariant forall i :: y <= i < n ==> screen[i] == outer[i]
      {
        screen := screen[y := ResizeRow(screen[y], m, ' ')];
        y := y + 1;
      }
      assert outer == ResizeRow(old(screen), n, Filled(m, ' '));
      assert forall i :: 0 <= i < n ==> screen[i] == ResizeGrid(old(screen), n, m, ' ')[i];
      return Pass;
    }

    /** `write`: the bytes go to the PTY and its outcome is returned; no field changes. */
    method Write(data: seq<uint8>, pty: Outcome<IoError>) returns (r: Outcome<IoError>)
      ensures r == pty
    {
      r := pty;
    }

    /** `read`: the PTY's bytes or error are returned; no field changes. */
    method Read(pty: Result<seq<uint8>, IoError>) returns (r: Result<seq<uint8>, IoError>)
      ensures r == pty
    {
      r := pty;
    }
  }

  /**
    `new` and `new_with_command`: a session exists exactly when the PTY spawned; the
    program to run only matters to the PTY.
  */
  method NewSession(cols: uint16, rows: uint16, spawn: Outcome<IoError>) returns (r: Result<Terminal, IoError>)
    ensures r.Failure? <==> spawn.Fail?
    ensures spawn.Fail? ==> r == Failure(spawn.error)
    ensures r.Success? ==> fresh(r.value) && r.value.cols == cols && r.value.rows == rows
    ensures r.Success? ==> r.value.scrollback == [] && IsGrid(r.value.screen, rows as nat, cols as nat)
    ensures r.Success? ==> forall y, x :: 0 <= y < rows as nat && 0 <= x < cols as nat ==> r.value.screen[y][x] == ' '
  {
    if spawn.Fail? {
      return Failure(spawn.error);
    }
    var t := new Terminal(cols, rows);
    return Success(t);
  }
}
