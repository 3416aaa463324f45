/**
 * The second text console of the Rust kernel (src/kernel.rs): a Terminal
 * keeps a row-major cursor over the 2000 16-bit cells of the VGA text
 * buffer, writes a character at the cursor and advances it, wrapping from
 * the end of a row to the next row and from the last row back to the top.
 */
module Terminals {
  const VGA_WIDTH: nat := 80
  const VGA_HEIGHT: nat := 25
  const VGA_CELLS: nat := VGA_WIDTH * VGA_HEIGHT

  /** `enum VgaColor` with its `repr(u8)` values. */
  datatype VgaColor =
    | Black | Blue | Green | Cyan | Red | Magenta | Brown | LightGrey
    | DarkGrey | LightBlue | LightGreen | LightCyan | LightRed | LightMagenta | LightBrown | White
  {
    /** `color as u8` */
    function Code(): (r: bv8)
      ensures r < 16
    {
      match this
      case Black => 0  case Blue => 1  case Green => 2  case Cyan => 3
      case Red => 4  case Magenta => 5  case Brown => 6  case LightGrey => 7
      case DarkGrey => 8  case LightBlue => 9  case LightGreen => 10  case LightCyan => 11
      case LightRed => 12  case LightMagenta => 13  case LightBrown => 14  case White => 15
    }
  }

  /** vga_entry_color: `fg as u8 | (bg as u8) << 4`; the low nibble is fg and the high nibble bg. */
  function VgaEntryColor(fg: VgaColor, bg: VgaColor): (r: bv8)
    ensures r & 0x0F == fg.Code()
    ensures r >> 4 == bg.Code()
  {
    var low, high := fg.Code(), bg.Code();
    assert (low | (high << 4)) & 0x0F == low && (low | (high << 4)) >> 4 == high;
    low | (high << 4)
  }

  /** The colour a Terminal starts with: light grey on black, which is 7. */
  lemma DefaultColorIsSeven()
    ensures VgaEntryColor(LightGrey, Black) == 7
  {
  }

  /** vga_entry: `uc as u16 | (color as u16) << 8`. */
  function VgaEntry(uc: bv8, color: bv8): (r: bv16)
    ensures EntryChar(r) == uc && EntryColor(r) == color
  {
    BytesPacked(uc as bv16, color as bv16);
    (uc as bv16) | ((color as bv16) << 8)
  }

  lemma BytesPacked(low: bv16, high: bv16)
    requires low < 256 && high < 256
    ensures (low | (high << 8)) & 0xFF == low
    ensures (low | (high << 8)) >> 8 == high
  {
  }

  /** The character of a cell: its low byte. */
  function EntryChar(e: bv16): bv8
  {
    (e & 0xFF) as bv8
  }

  /** The colour of a cell: its high byte. */
  function EntryColor(e: bv16): bv8
  {
    (e >> 8) as bv8
  }

  /** Every cell is the entry of its own character and colour. */
  lemma EntryRoundTrip(e: bv16)
    ensures VgaEntry(EntryChar(e), EntryColor(e)) == e
  {
  }

  /** The linear index of (x, y): `y * VGA_WIDTH + x`. */
  function Index(x: nat, y: nat): nat
  {
    y * VGA_WIDTH + x
  }

  /** Distinct on-screen positions have distinct indexes below 2000. */
  lemma IndexOnScreen(x: nat, y: nat)
    requires x < VGA_WIDTH && y < VGA_HEIGHT
    ensures Index(x, y) < VGA_CELLS
    ensures Index(x, y) % VGA_WIDTH == x && Index(x, y) / VGA_WIDTH == y
  {
  }

  const SPACE: bv8 := 0x20

  /**
   * `buffer` after write_string has put `s` in colour `color` at linear
   * positions start, start + 1, ... (mod 2000), one character after another.
   */
  function Painted(buffer: seq<bv16>, start: nat, s: seq<bv8>, color: bv8): (r: seq<bv16>)
    requires |buffer| == VGA_CELLS
    ensures |r| == VGA_CELLS
  {
    if s == [] then buffer
    else
      var n := |s| - 1;
      Painted(buffer, start, s[..n], color)[Position(start, n) := VgaEntry(s[n], color)]
  }

  /** Linear position `start + i`, wrapped to the screen. */
  function Position(start: nat, i: nat): (p: nat)
    ensures p < VGA_CELLS
  {
    (start + i) % VGA_CELLS
  }

  /** Two indexes less than 2000 apart fall on different cells. */
  lemma ModDistinct(start: nat, i: nat, j: nat)
    requires i < j < i + VGA_CELLS
    ensures Position(start, i) != Position(start, j)
  {
  }

  /** One step further is the next cell, from 1999 back to 0. */
  lemma NextPosition(start: nat, i: nat)
    ensures Position(start, i + 1) == (Position(start, i) + 1) % VGA_CELLS
  {
  }

  /**
   * write_string of at most 2000 characters: character i lands at linear
   * position (start + i) mod 2000, and every position no character reaches
   * keeps its old cell.
   */
  lemma {:induction false} PaintedCells(buffer: seq<bv16>, start: nat, s: seq<bv8>, color: bv8)
    requires |buffer| == VGA_CELLS && |s| <= VGA_CELLS
    ensures forall i :: 0 <= i < |s| ==> Painted(buffer, start, s, color)[Position(start, i)] == VgaEntry(s[i], color)
    ensures forall p :: 0 <= p < VGA_CELLS && (forall i :: 0 <= i < |s| ==> Position(start, i) != p) ==>
              Painted(buffer, start, s, color)[p] == buffer[p]
  {
    if s != [] {
      var n := |s| - 1;
      var front := s[..n];
      PaintedCells(buffer, start, front, color);
      var r := Painted(buffer, start, s, color);
      forall i | 0 <= i < |s|
        ensures r[Position(start, i)] == VgaEntry(s[i], color)
      {
        if i < n {
          ModDistinct(start, i, n);
          assert front[i] == s[i];
        }
      }
      forall p | 0 <= p < VGA_CELLS && (forall i :: 0 <= i < |s| ==> Position(start, i) != p)
        ensures r[p] == buffer[p]
      {
        assert Position(start, n) != p;
      }
    }
  }

  /** `struct Terminal`: the cursor, the colour, and the 2000 cells at 0xB8000. */
  class Terminal {
    var row: nat
    var col: nat
    var color: bv8
    const buffer: array<bv16>

    ghost predicate Valid()
      reads this
    {
      buffer.Length == VGA_CELLS && row < VGA_HEIGHT && col < VGA_WIDTH
    }

    /** The cursor as a linear index, `row * VGA_WIDTH + col`. */
    function Cursor(): nat
      reads this
    {
      Index(col, row)
    }

    /**
     * Terminal::new: cursor at (0, 0), light grey on black, and every cell
     * a space in that colour.
     */
    constructor ()
      ensures Valid() && fresh(buffer)
      ensures row == 0 && col == 0 && color == VgaEntryColor(LightGrey, Black)
      ensures forall i :: 0 <= i < VGA_CELLS ==> buffer[i] == VgaEntry(SPACE, color)
    {
      row := 0;
      col := 0;
      color := VgaEntryColor(LightGrey, Black);
      var cells := new bv16[VGA_CELLS];
      var blank := VgaEntry(SPACE, VgaEntryColor(LightGrey, Black));
      for y := 0 to VGA_HEIGHT
        invariant forall i :: 0 <= i < y * VGA_WIDTH ==> cells[i] == blank
      {
        for x := 0 to VGA_WIDTH
          invariant forall i :: 0 <= i < y * VGA_WIDTH + x ==> cells[i] == blank
        {
          var index := y * VGA_WIDTH + x;
          cells[index] := blank;
        }
      }
      buffer := cells;
    }

    /** set_color: only the colour changes. */
    method SetColor(color: bv8)
      requires Valid()
      modifies this
      ensures Valid() && this.color == color && row == old(row) && col == old(col)
    {
      this.color := color;
    }

    /** put_entry_at: cell `y * 80 + x` becomes `vga_entry(c, color)` and no other cell changes. */
    method PutEntryAt(c: bv8, color: bv8, x: nat, y: nat)
      requires Valid() && Index(x, y) < VGA_CELLS
      modifies buffer
      ensures buffer[..] == old(buffer[..])[Index(x, y) := VgaEntry(c, color)]
    {
      var index := y * VGA_WIDTH + x;
      buffer[index] := VgaEntry(c, color);
    }

    /**
     * put_char: the character goes to the cursor in the current colour,
     * and the cursor moves to the next linear position, from 1999 back to 0.
     */
    method PutChar(c: bv8)
      requires Valid()
      modifies this, buffer
      ensures Valid() && color == old(color)
      ensures buffer[..] == old(buffer[..])[old(Cursor()) := VgaEntry(c, color)]
      ensures Cursor() == (old(Cursor()) + 1) % VGA_CELLS
    {
      PutEntryAt(c, color, col, row);
      col := col + 1;
      if col == VGA_WIDTH {
        col := 0;
        row := row + 1;
        if row == VGA_HEIGHT {
          row := 0;
        }
      }
    }

    /** write_string: put_char for every byte of `s` in order. */
    method WriteString(s: seq<bv8>)
      requires Valid()
      modifies this, buffer
      ensures Valid() && color == old(color)
      ensures buffer[..] == Painted(old(buffer[..]), old(Cursor()), s, color)
      ensures Cursor() == Position(old(Cursor()), |s|)
    {
      ghost var start := Cursor();
      ghost var before := buffer[..];
      for i := 0 to |s|
        invariant Valid() && color == old(color)
        invariant buffer[..] == Painted(before, start, s[..i], color)
        invariant Cursor() == Position(start, i)
      {
        assert s[..i + 1][..i] == s[..i];
        assert Painted(before, start, s[..i + 1], color)
               == Painted(before, start, s[..i], color)[Position(start, i) := VgaEntry(s[i], color)];
        NextPosition(start, i);
        PutChar(s[i]);
      }
      assert s[..|s|] == s;
    }
  }
}
