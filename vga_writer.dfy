/**
 * The Rust kernel's VGA text writer (src/vga.rs): a Writer keeps a column
 * on the bottom row of a 25x80 grid of (ascii, colour) cells, writes bytes
 * there, and scrolls the whole grid up by one row on a newline or when the
 * bottom row is full.
 *
 * The grid is an array2 updated in place. Screen is the value a Writer
 * shows (grid, column, colour); AfterByte and AfterBytes say what writing
 * does to that value, and every method of Writer is proved to follow them.
 */
module VgaWriter {
  const BUFFER_HEIGHT: nat := 25
  const BUFFER_WIDTH: nat := 80
  const LAST_ROW: nat := BUFFER_HEIGHT - 1

  /** `enum Color` with its `repr(u8)` values. */
  datatype Color =
    | Black | Blue | Green | Cyan | Red | Magenta | Brown | LightGray
    | DarkGray | LightBlue | LightGreen | LightCyan | LightRed | Pink | Yellow | White
  {
    /** `color as u8` */
    function Code(): (r: bv8)
      ensures r < 16
    {
      match this
      case Black => 0  case Blue => 1  case Green => 2  case Cyan => 3
      case Red => 4  case Magenta => 5  case Brown => 6  case LightGray => 7
      case DarkGray => 8  case LightBlue => 9  case LightGreen => 10  case LightCyan => 11
      case LightRed => 12  case Pink => 13  case Yellow => 14  case White => 15
    }
  }

  /** Distinct colours have distinct codes. */
  lemma CodeInjective(a: Color, b: Color)
    ensures a.Code() == b.Code() ==> a == b
  {
  }

  /** `struct VgaColor(u8)`: foreground in the low nibble, background in the high one. */
  datatype VgaColor = VgaColor(bits: bv8)
  {
    /** VgaColor::new: `fg as u8 | (bg as u8) << 4`. */
    static function New(fg: Color, bg: Color): (r: VgaColor)
      ensures r.bits & 0x0F == fg.Code()
      ensures r.bits >> 4 == bg.Code()
    {
      NibblesPacked(fg.Code(), bg.Code());
      VgaColor(fg.Code() | (bg.Code() << 4))
    }
  }

  /** The colour byte determines both colours. */
  lemma NewColorInjective(fg1: Color, bg1: Color, fg2: Color, bg2: Color)
    requires VgaColor.New(fg1, bg1) == VgaColor.New(fg2, bg2)
    ensures fg1 == fg2 && bg1 == bg2
  {
    CodeInjective(fg1, fg2);
    CodeInjective(bg1, bg2);
  }

  /** Two nibbles packed as `low | (high << 4)` unpack to themselves. */
  lemma NibblesPacked(low: bv8, high: bv8)
    requires low < 16 && high < 16
    ensures (low | (high << 4)) & 0x0F == low
    ensures (low | (high << 4)) >> 4 == high
  {
  }

  /** One cell: `struct ScreenChar { ascii, color }`. */
  datatype ScreenChar = ScreenChar(ascii: bv8, color: VgaColor)

  const NEWLINE: bv8 := 0x0A
  const SPACE: bv8 := 0x20

  /** What a Writer shows: the grid, row by row, the column on the bottom row and the colour. */
  datatype Screen = Screen(grid: seq<seq<ScreenChar>>, columnPos: nat, color: VgaColor)
  {
    ghost predicate Valid()
    {
      && |grid| == BUFFER_HEIGHT
      && (forall r :: 0 <= r < |grid| ==> |grid[r]| == BUFFER_WIDTH)
      && columnPos <= BUFFER_WIDTH
    }
  }

  /** Two grids of the screen's shape that agree cell by cell are equal. */
  lemma GridsEqual(g: seq<seq<ScreenChar>>, h: seq<seq<ScreenChar>>)
    requires |g| == |h| == BUFFER_HEIGHT
    requires forall r :: 0 <= r < BUFFER_HEIGHT ==> |g[r]| == |h[r]| == BUFFER_WIDTH
    requires forall r, c :: 0 <= r < BUFFER_HEIGHT && 0 <= c < BUFFER_WIDTH ==> g[r][c] == h[r][c]
    ensures g == h
  {
    forall r | 0 <= r < BUFFER_HEIGHT
      ensures g[r] == h[r]
    {
      assert forall c :: 0 <= c < BUFFER_WIDTH ==> g[r][c] == h[r][c];
    }
  }

  /** The row clear_row writes: 80 spaces in `color`. */
  function BlankRow(color: VgaColor): (r: seq<ScreenChar>)
    ensures |r| == BUFFER_WIDTH
    ensures forall c :: 0 <= c < |r| ==> r[c] == ScreenChar(SPACE, color)
  {
    seq(BUFFER_WIDTH, _ => ScreenChar(SPACE, color))
  }

  /**
   * new_line: every row moves up by one (the top row is lost), the bottom
   * row becomes blank in the current colour, and the column returns to 0.
   */
  function Scrolled(s: Screen): (r: Screen)
    requires s.Valid()
    ensures r.Valid()
    ensures forall row :: 0 <= row < BUFFER_HEIGHT - 1 ==> r.grid[row] == s.grid[row + 1]
    ensures r.grid[BUFFER_HEIGHT - 1] == BlankRow(s.color)
    ensures r.columnPos == 0 && r.color == s.color
  {
    Screen(s.grid[1..] + [BlankRow(s.color)], 0, s.color)
  }

  /** Cell (row, col) of `s` replaced by `ch`. */
  function WithCell(s: Screen, row: nat, col: nat, ch: ScreenChar): (r: Screen)
    requires s.Valid() && row < BUFFER_HEIGHT && col < BUFFER_WIDTH
    ensures r.Valid() && r.columnPos == s.columnPos && r.color == s.color
    ensures forall i, j :: 0 <= i < BUFFER_HEIGHT && 0 <= j < BUFFER_WIDTH ==>
              r.grid[i][j] == if i == row && j == col then ch else s.grid[i][j]
  {
    s.(grid := s.grid[row := s.grid[row][col := ch]])
  }

  /**
   * write_byte: a newline scrolls; any other byte first scrolls when the
   * bottom row is full, then goes to the bottom row at the column, in the
   * current colour, and the column advances.
   */
  function AfterByte(s: Screen, b: bv8): (r: Screen)
    requires s.Valid()
    ensures r.Valid()
  {
    if b == NEWLINE then Scrolled(s)
    else
      var t := if s.columnPos >= BUFFER_WIDTH then Scrolled(s) else s;
      WithCell(t, BUFFER_HEIGHT - 1, t.columnPos, ScreenChar(b, t.color)).(columnPos := t.columnPos + 1)
  }

  /** write_str: write_byte for each byte of the string, first to last. */
  function AfterBytes(s: Screen, bytes: seq<bv8>): (r: Screen)
    requires s.Valid()
    ensures r.Valid()
    ensures r.color == s.color
  {
    if bytes == [] then s
    else AfterByte(AfterBytes(s, bytes[..|bytes| - 1]), bytes[|bytes| - 1])
  }

  /**
   * A byte that is not a newline, written while the bottom row has room,
   * changes only cell (24, column) to (byte, colour) and advances the column.
   */
  lemma ByteWritesOneCell(s: Screen, b: bv8)
    requires s.Valid() && b != NEWLINE && s.columnPos < BUFFER_WIDTH
    ensures AfterByte(s, b).columnPos == s.columnPos + 1
    ensures AfterByte(s, b).color == s.color
    ensures forall i, j :: 0 <= i < BUFFER_HEIGHT && 0 <= j < BUFFER_WIDTH ==>
              AfterByte(s, b).grid[i][j]
              == if i == BUFFER_HEIGHT - 1 && j == s.columnPos then ScreenChar(b, s.color) else s.grid[i][j]
  {
  }

  /**
   * A byte that is not a newline, written when the bottom row is full,
   * scrolls first and then lands in column 0, which leaves the column at 1.
   */
  lemma FullRowScrollsFirst(s: Screen, b: bv8)
    requires s.Valid() && b != NEWLINE && s.columnPos >= BUFFER_WIDTH
    ensures AfterByte(s, b).columnPos == 1
    ensures forall i :: 0 <= i < BUFFER_HEIGHT - 1 ==> AfterByte(s, b).grid[i] == s.grid[i + 1]
    ensures AfterByte(s, b).grid[BUFFER_HEIGHT - 1] == BlankRow(s.color)[0 := ScreenChar(b, s.color)]
  {
    var t := Scrolled(s);
    var r := AfterByte(s, b);
    assert r.grid == t.grid[BUFFER_HEIGHT - 1 := t.grid[BUFFER_HEIGHT - 1][0 := ScreenChar(b, s.color)]];
  }

  /** Cell writes happen only on the bottom row, at a column below 80, and the column never passes 80. */
  lemma WritesStayOnBottomRow(s: Screen, b: bv8)
    requires s.Valid()
    ensures AfterByte(s, b).columnPos <= BUFFER_WIDTH
    ensures b != NEWLINE ==>
              var t := if s.columnPos >= BUFFER_WIDTH then Scrolled(s) else s;
              forall i, j :: 0 <= i < BUFFER_HEIGHT && 0 <= j < BUFFER_WIDTH && AfterByte(s, b).grid[i][j] != t.grid[i][j]
                ==> i == BUFFER_HEIGHT - 1 && j == t.columnPos && t.columnPos < BUFFER_WIDTH
  {
  }

  /**
   * A string with no newline that fits on the rest of the bottom row is
   * laid out there from the column on, in the current colour; no other
   * cell changes and the column moves past it.
   */
  lemma {:induction false} TextOnBottomRow(s: Screen, bytes: seq<bv8>)
    requires s.Valid() && NEWLINE !in bytes && s.columnPos + |bytes| <= BUFFER_WIDTH
    ensures AfterBytes(s, bytes).columnPos == s.columnPos + |bytes|
    ensures forall i, j :: 0 <= i < BUFFER_HEIGHT && 0 <= j < BUFFER_WIDTH ==>
              AfterBytes(s, bytes).grid[i][j]
              == if i == BUFFER_HEIGHT - 1 && s.columnPos <= j < s.columnPos + |bytes|
                 then ScreenChar(bytes[j - s.columnPos], s.color)
                 else s.grid[i][j]
  {
    if bytes != [] {
      var n := |bytes| - 1;
      var front := bytes[..n];
      assert NEWLINE !in front by {
        assert forall k :: 0 <= k < n ==> front[k] == bytes[k];
      }
      TextOnBottomRow(s, front);
      var mid := AfterBytes(s, front);
      ByteWritesOneCell(mid, bytes[n]);
    }
  }

  /** After a newline the column is 0, whatever came before. */
  lemma NewlineResetsColumn(s: Screen, bytes: seq<bv8>)
    requires s.Valid() && bytes != [] && bytes[|bytes| - 1] == NEWLINE
    ensures AfterBytes(s, bytes).columnPos == 0
    ensures AfterBytes(s, bytes).grid[BUFFER_HEIGHT - 1] == BlankRow(s.color)
  {
  }

  /** `struct Writer`: the column, the colour and the grid at 0xB8000, written in place. */
  class Writer {
    var columnPos: nat
    var color: VgaColor
    const buffer: array2<ScreenChar>

    ghost predicate Valid()
      reads this
    {
      buffer.Length0 == BUFFER_HEIGHT && buffer.Length1 == BUFFER_WIDTH && columnPos <= BUFFER_WIDTH
    }

    /** The grid as it is now, row by row. */
    ghost function Cells(): (g: seq<seq<ScreenChar>>)
      reads buffer
      requires buffer.Length0 == BUFFER_HEIGHT && buffer.Length1 == BUFFER_WIDTH
      ensures |g| == BUFFER_HEIGHT
      ensures forall r :: 0 <= r < BUFFER_HEIGHT ==> |g[r]| == BUFFER_WIDTH
      ensures forall r, c :: 0 <= r < BUFFER_HEIGHT && 0 <= c < BUFFER_WIDTH ==> g[r][c] == buffer[r, c]
    {
      seq(BUFFER_HEIGHT, r reads buffer requires 0 <= r < BUFFER_HEIGHT =>
        seq(BUFFER_WIDTH, c reads buffer requires 0 <= c < BUFFER_WIDTH => buffer[r, c]))
    }

    /** What this Writer shows. */
    ghost function Snapshot(): (s: Screen)
      reads this, buffer
      requires Valid()
      ensures s.Valid()
    {
      Screen(Cells(), columnPos, color)
    }

    /** The WRITER the kernel starts with: column 0, light cyan on black, over `buffer`. */
    constructor (buffer: array2<ScreenChar>)
      requires buffer.Length0 == BUFFER_HEIGHT && buffer.Length1 == BUFFER_WIDTH
      ensures Valid() && this.buffer == buffer
      ensures columnPos == 0 && color == VgaColor.New(LightCyan, Black)
    {
      this.buffer := buffer;
      columnPos := 0;
      color := VgaColor.New(LightCyan, Black);
    }

    /** change_color: only the colour changes; it is not in the buffer's frame. */
    method ChangeColor(fg: Color, bg: Color)
      requires Valid()
      modifies this
      ensures Valid()
      ensures color == VgaColor.New(fg, bg) && columnPos == old(columnPos)
      ensures Snapshot() == old(Snapshot()).(color := VgaColor.New(fg, bg))
    {
      color := VgaColor.New(fg, bg);
    }

    /** clear_row: row `row` becomes blank in the current colour; no other cell changes. */
    method ClearRow(row: nat)
      requires Valid() && row < BUFFER_HEIGHT
      modifies buffer
      ensures forall c :: 0 <= c < BUFFER_WIDTH ==> buffer[row, c] == ScreenChar(SPACE, color)
      ensures forall r, c :: 0 <= r < BUFFER_HEIGHT && 0 <= c < BUFFER_WIDTH && r != row ==>
                buffer[r, c] == old(buffer[r, c])
    {
      var emptyChar := ScreenChar(SPACE, color);
      for col := 0 to BUFFER_WIDTH
        invariant forall c :: 0 <= c < col ==> buffer[row, c] == emptyChar
        invariant forall r, c :: 0 <= r < BUFFER_HEIGHT && 0 <= c < BUFFER_WIDTH && (r != row || c >= col) ==>
                    buffer[r, c] == old(buffer[r, c])
      {
        buffer[row, col] := emptyChar;
      }
    }

    /** The nested loop of new_line: row r - 1 takes the cells of row r, for r = 1 .. 24. */
    method ShiftRowsUp()
      requires Valid()
      modifies buffer
      ensures forall r, c :: 0 <= r < BUFFER_HEIGHT - 1 && 0 <= c < BUFFER_WIDTH ==>
                buffer[r, c] == old(buffer[r + 1, c])
      ensures forall c :: 0 <= c < BUFFER_WIDTH ==> buffer[LAST_ROW, c] == old(buffer[LAST_ROW, c])
    {
      for row := 1 to BUFFER_HEIGHT
        invariant forall c :: 0 <= c < BUFFER_WIDTH ==> buffer[LAST_ROW, c] == old(buffer[LAST_ROW, c])
        invariant forall r, c :: 0 <= r < row - 1 && 0 <= c < BUFFER_WIDTH ==> buffer[r, c] == old(buffer[r + 1, c])
        invariant forall r, c :: row - 1 <= r < BUFFER_HEIGHT && 0 <= c < BUFFER_WIDTH ==> buffer[r, c] == old(buffer[r, c])
      {
        var above := row - 1;
        for col := 0 to BUFFER_WIDTH
          invariant forall c :: 0 <= c < BUFFER_WIDTH ==> buffer[LAST_ROW, c] == old(buffer[LAST_ROW, c])
          invariant forall r, c :: 0 <= r < row - 1 && 0 <= c < BUFFER_WIDTH ==> buffer[r, c] == old(buffer[r + 1, c])
          invariant forall c :: 0 <= c < col ==> buffer[above, c] == old(buffer[row, c])
          invariant forall c :: col <= c < BUFFER_WIDTH ==> buffer[above, c] == old(buffer[above, c])
          invariant forall r, c :: row <= r < BUFFER_HEIGHT && 0 <= c < BUFFER_WIDTH ==> buffer[r, c] == old(buffer[r, c])
        {
          var data := buffer[row, col];
          buffer[above, col] := data;
        }
      }
    }

    /** new_line: scroll the grid up by one row, blank the bottom row, and go to column 0. */
    method NewLine()
      requires Valid()
      modifies this, buffer
      ensures Valid() && color == old(color)
      ensures Snapshot() == Scrolled(old(Snapshot()))
    {
      ghost var before := Snapshot();
      ShiftRowsUp();
      ClearRow(BUFFER_HEIGHT - 1);
      columnPos := 0;
      GridsEqual(Cells(), Scrolled(before).grid);
    }

    /** write_byte, as AfterByte says. */
    method WriteByte(byte: bv8)
      requires Valid()
      modifies this, buffer
      ensures Valid() && color == old(color)
      ensures Snapshot() == AfterByte(old(Snapshot()), byte)
    {
      if byte == NEWLINE {
        NewLine();
      } else {
        if columnPos >= BUFFER_WIDTH {
          NewLine();
        }
        ghost var mid := Snapshot();
        var row := BUFFER_HEIGHT - 1;
        var col := columnPos;
        buffer[row, col] := ScreenChar(byte, color);
        columnPos := columnPos + 1;
        GridsEqual(Cells(), WithCell(mid, row, col, ScreenChar(byte, mid.color)).grid);
      }
    }

    /** write_str: write_byte for every byte of `s` in order; it always returns Ok. */
    method WriteStr(s: seq<bv8>) returns (ok: bool)
      requires Valid()
      modifies this, buffer
      ensures Valid() && color == old(color)
      ensures Snapshot() == AfterBytes(old(Snapshot()), s)
      ensures ok
    {
      ghost var before := Snapshot();
      for i := 0 to |s|
        invariant Valid() && color == before.color
        invariant Snapshot() == AfterBytes(before, s[..i])
      {
        assert s[..i + 1][..i] == s[..i];
        WriteByte(s[i]);
      }
      assert s[..|s|] == s;
      ok := true;
    }
  }
}
