/**
 * The C kernel's text-mode framebuffer (src/kernel/framebuffer.h and
 * src/kernel/framebuffer.c): 80x25 cells at 0xB8000, two bytes each
 * (character, then attribute), written through fb_write_cell, fb_nwrite
 * and fb_write, and the hardware cursor, whose 16-bit position travels to
 * and from the CRT controller one byte at a time.
 */
module Framebuffer {
  /** `uint32_t` */
  type u32 = x: nat | x < 0x1_0000_0000

  const FB_WIDTH: nat := 80
  const FB_HEIGHT: nat := 25
  /** The number of cells the ASSERTs allow, `FB_WIDTH * FB_HEIGHT`. */
  const FB_CELLS: nat := FB_WIDTH * FB_HEIGHT
  /** Two bytes per cell. */
  const FB_BYTES: nat := 2 * FB_CELLS

  // The colour enum of framebuffer.h: consecutive values from 0.
  const FB_COLOR_BLACK: bv8 := 0
  const FB_COLOR_BLUE: bv8 := FB_COLOR_BLACK + 1
  const FB_COLOR_GREEN: bv8 := FB_COLOR_BLUE + 1
  const FB_COLOR_CYAN: bv8 := FB_COLOR_GREEN + 1
  const FB_COLOR_RED: bv8 := FB_COLOR_CYAN + 1
  const FB_COLOR_MAGENTA: bv8 := FB_COLOR_RED + 1
  const FB_COLOR_BROWN: bv8 := FB_COLOR_MAGENTA + 1
  const FB_COLOR_LIGHT_GREY: bv8 := FB_COLOR_BROWN + 1
  const FB_COLOR_DARK_GREY: bv8 := FB_COLOR_LIGHT_GREY + 1
  const FB_COLOR_LIGHT_BLUE: bv8 := FB_COLOR_DARK_GREY + 1
  const FB_COLOR_LIGHT_GREEN: bv8 := FB_COLOR_LIGHT_BLUE + 1
  const FB_COLOR_LIGHT_CYAN: bv8 := FB_COLOR_LIGHT_GREEN + 1
  const FB_COLOR_LIGHT_RED: bv8 := FB_COLOR_LIGHT_CYAN + 1
  const FB_COLOR_LIGHT_MAGENTA: bv8 := FB_COLOR_LIGHT_RED + 1
  const FB_COLOR_LIGHT_BROWN: bv8 := FB_COLOR_LIGHT_MAGENTA + 1
  const FB_COLOR_WHITE: bv8 := FB_COLOR_LIGHT_BROWN + 1

  const FB_COLORS: seq<bv8> := [
    FB_COLOR_BLACK, FB_COLOR_BLUE, FB_COLOR_GREEN, FB_COLOR_CYAN,
    FB_COLOR_RED, FB_COLOR_MAGENTA, FB_COLOR_BROWN, FB_COLOR_LIGHT_GREY,
    FB_COLOR_DARK_GREY, FB_COLOR_LIGHT_BLUE, FB_COLOR_LIGHT_GREEN, FB_COLOR_LIGHT_CYAN,
    FB_COLOR_LIGHT_RED, FB_COLOR_LIGHT_MAGENTA, FB_COLOR_LIGHT_BROWN, FB_COLOR_WHITE]

  /** The screen has 2000 cells; the colours are 0 .. 15, which `& 0x0F` leaves alone. */
  lemma ScreenConstants()
    ensures FB_CELLS == 2000 && FB_BYTES == 4000
    ensures |FB_COLORS| == 16
    ensures forall i :: 0 <= i < |FB_COLORS| ==> FB_COLORS[i] == i as bv8 && FB_COLORS[i] & 0x0F == FB_COLORS[i]
  {
  }

  /**
   * COORDINATE(x, y), `y * FB_WIDTH + x`. On the screen it is a valid
   * cell index, and x and y come back as its remainder and quotient by 80.
   */
  function Coordinate(x: nat, y: nat): (i: nat)
    ensures x < FB_WIDTH ==> i % FB_WIDTH == x && i / FB_WIDTH == y
    ensures x < FB_WIDTH && y < FB_HEIGHT ==> i < FB_CELLS
  {
    y * FB_WIDTH + x
  }

  /** Different on-screen positions have different coordinates. */
  lemma CoordinateInjective(x1: nat, y1: nat, x2: nat, y2: nat)
    requires x1 < FB_WIDTH && x2 < FB_WIDTH
    requires Coordinate(x1, y1) == Coordinate(x2, y2)
    ensures x1 == x2 && y1 == y2
  {
  }

  /** The two positions kmain uses. */
  lemma KmainCoordinates()
    ensures Coordinate(0, 3) == 240
    ensures Coordinate(40, 12) == 1000
  {
  }

  /** The attribute byte, `((bg & 0x0F) << 4) | (fg & 0x0F)`. */
  function Attribute(fg: bv8, bg: bv8): (a: bv8)
    ensures a & 0x0F == fg & 0x0F
    ensures a >> 4 == bg & 0x0F
  {
    ((bg & 0x0F) << 4) | (fg & 0x0F)
  }

  /** How a call ends: it returned, or an ASSERT called raise_error with this code. */
  datatype Outcome = Done | Raised(errcode: bv8)

  /** The code the framebuffer ASSERTs raise, 'F'. */
  const ERROR_F: bv8 := 0x46

  /**
   * The bytes after cells pos, pos + 1, ... have taken the characters of
   * `text`, in order, each with attribute `attr`.
   */
  function CellsWritten(bytes: seq<bv8>, pos: nat, text: seq<bv8>, attr: bv8): (r: seq<bv8>)
    requires 2 * (pos + |text|) <= |bytes|
    ensures |r| == |bytes|
    ensures forall i :: 0 <= i < |text| ==> r[2 * (pos + i)] == text[i] && r[2 * (pos + i) + 1] == attr
    ensures forall k :: 0 <= k < |bytes| && (k < 2 * pos || 2 * (pos + |text|) <= k) ==> r[k] == bytes[k]
  {
    if text == [] then bytes
    else
      var n := |text| - 1;
      var cell := 2 * (pos + n);
      CellsWritten(bytes, pos, text[..n], attr)[cell := text[n]][cell + 1 := attr]
  }

  /**
   * fb_write_cell: for a cell index below 2000, byte 2i becomes c and
   * byte 2i + 1 the attribute; any other index raises 'F' and writes nothing.
   */
  method WriteCell(frameBuffer: array<bv8>, i: u32, c: bv8, fg: bv8, bg: bv8) returns (r: Outcome)
    requires frameBuffer.Length == FB_BYTES
    modifies frameBuffer
    ensures r == if i < FB_CELLS then Done else Raised(ERROR_F)
    ensures i < FB_CELLS ==> frameBuffer[..] == CellsWritten(old(frameBuffer[..]), i, [c], Attribute(fg, bg))
    ensures i >= FB_CELLS ==> frameBuffer[..] == old(frameBuffer[..])
  {
    if !(i < FB_CELLS) {
      return Raised(ERROR_F);
    }
    var k := 2 * i;
    frameBuffer[k] := c;
    frameBuffer[k + 1] := Attribute(fg, bg);
    assert [c][..0] == [];
    r := Done;
  }

  /**
   * fb_nwrite: the first `len` characters of `buf` go to cells pos,
   * pos + 1, ... in one attribute. Its ASSERT checks only pos; the model
   * also requires the text to end on the screen.
   */
  method NWrite(frameBuffer: array<bv8>, pos: u32, buf: seq<bv8>, len: u32, fg: bv8, bg: bv8) returns (r: Outcome)
    requires frameBuffer.Length == FB_BYTES && len <= |buf|
    requires pos < FB_CELLS ==> pos + len <= FB_CELLS
    modifies frameBuffer
    ensures r == if pos < FB_CELLS then Done else Raised(ERROR_F)
    ensures pos < FB_CELLS ==> frameBuffer[..] == CellsWritten(old(frameBuffer[..]), pos, buf[..len], Attribute(fg, bg))
    ensures pos >= FB_CELLS ==> frameBuffer[..] == old(frameBuffer[..])
  {
    if !(pos < FB_CELLS) {
      return Raised(ERROR_F);
    }
    var base := 2 * pos;
    var attr := Attribute(fg, bg);
    for i := 0 to len
      invariant frameBuffer[..] == CellsWritten(old(frameBuffer[..]), pos, buf[..i], attr)
    {
      assert buf[..i + 1][..i] == buf[..i];
      frameBuffer[base + 2 * i] := buf[i];
      frameBuffer[base + 2 * i + 1] := attr;
    }
    r := Done;
  }

  /** strlen: the index of the first NUL. */
  function Strlen(buf: seq<bv8>): (n: nat)
    requires 0 in buf
    ensures n < |buf| && buf[n] == 0
    ensures forall j :: 0 <= j < n ==> buf[j] != 0
  {
    if buf[0] == 0 then 0 else 1 + Strlen(buf[1..])
  }

  /**
   * fb_write: like fb_nwrite with `len` the length of the NUL-terminated
   * string in `buf`; the loop stops at the NUL.
   */
  method Write(frameBuffer: array<bv8>, pos: u32, buf: seq<bv8>, fg: bv8, bg: bv8) returns (r: Outcome)
    requires frameBuffer.Length == FB_BYTES && 0 in buf
    requires pos < FB_CELLS ==> pos + Strlen(buf) <= FB_CELLS
    modifies frameBuffer
    ensures r == if pos < FB_CELLS then Done else Raised(ERROR_F)
    ensures pos < FB_CELLS ==>
              frameBuffer[..] == CellsWritten(old(frameBuffer[..]), pos, buf[..Strlen(buf)], Attribute(fg, bg))
    ensures pos >= FB_CELLS ==> frameBuffer[..] == old(frameBuffer[..])
  {
    if !(pos < FB_CELLS) {
      return Raised(ERROR_F);
    }
    var base := 2 * pos;
    var attr := Attribute(fg, bg);
    var i := 0;
    while buf[i] != 0
      invariant i <= Strlen(buf)
      invariant frameBuffer[..] == CellsWritten(old(frameBuffer[..]), pos, buf[..i], attr)
      decreases Strlen(buf) - i
    {
      assert buf[..i + 1][..i] == buf[..i];
      frameBuffer[base + 2 * i] := buf[i];
      frameBuffer[base + 2 * i + 1] := attr;
      i := i + 1;
    }
    r := Done;
  }

  // The CRT controller's ports and the indexes of its cursor-location registers.
  const FB_COMMAND_PORT: bv16 := 0x3D4
  const FB_DATA_PORT: bv16 := 0x3D5
  const FB_HIGH_BYTE_COMMAND: bv8 := 14
  const FB_LOW_BYTE_COMMAND: bv8 := 15
  /** The registers those commands select. */
  const HIGH: nat := FB_HIGH_BYTE_COMMAND as nat
  const LOW: nat := FB_LOW_BYTE_COMMAND as nat

  /**
   * The part of the CRT controller the cursor code talks to: a byte written
   * to the command port selects a register, a byte written to the data
   * port is stored in the selected register, and reading the data port
   * returns it (0 for a register never written).
   */
  datatype Crtc = Crtc(selected: nat, registers: map<nat, bv8>)

  /** outb */
  function Outb(dev: Crtc, port: bv16, data: bv8): (r: Crtc)
    ensures port == FB_COMMAND_PORT ==> r.registers == dev.registers && r.selected == data as nat
    ensures port == FB_DATA_PORT ==> r.selected == dev.selected && Inb(r, FB_DATA_PORT) == data
    ensures port == FB_DATA_PORT ==> forall k :: k in dev.registers && k != dev.selected ==>
                                       k in r.registers && r.registers[k] == dev.registers[k]
  {
    if port == FB_COMMAND_PORT then dev.(selected := data as nat)
    else if port == FB_DATA_PORT then dev.(registers := dev.registers[dev.selected := data])
    else dev
  }

  /** inb */
  function Inb(dev: Crtc, port: bv16): (r: bv8)
    ensures port == FB_DATA_PORT && dev.selected in dev.registers ==> r == dev.registers[dev.selected]
    ensures port != FB_DATA_PORT || dev.selected !in dev.registers ==> r == 0
  {
    if port == FB_DATA_PORT && dev.selected in dev.registers then dev.registers[dev.selected] else 0
  }

  /** `(pos >> 8) & 0x00FF`, the byte sent after command 14. */
  function HighByte(pos: bv16): bv8
  {
    ((pos >> 8) & 0x00FF) as bv8
  }

  /** `pos & 0x00FF`, the byte sent after command 15. */
  function LowByte(pos: bv16): bv8
  {
    (pos & 0x00FF) as bv8
  }

  /** fb_get_cursor_pos's reassembly, `low | (uint16_t)high << 8`. */
  function Join(low: bv8, high: bv8): bv16
  {
    (0 | (low as bv16)) | ((high as bv16) << 8)
  }

  /** Splitting a position into its two bytes and joining them again gives it back. */
  lemma SplitJoin(pos: bv16)
    ensures Join(LowByte(pos), HighByte(pos)) == pos
  {
  }

  /** Joining two bytes and splitting the result gives them back. */
  lemma JoinSplit(low: bv8, high: bv8)
    ensures LowByte(Join(low, high)) == low && HighByte(Join(low, high)) == high
  {
  }

  /** fb_move_cursor: the high byte goes to register 14, then the low byte to register 15. */
  function MoveCursor(dev: Crtc, pos: bv16): (r: Crtc)
    ensures HIGH in r.registers && r.registers[HIGH] == HighByte(pos)
    ensures LOW in r.registers && r.registers[LOW] == LowByte(pos)
    ensures forall k :: k in dev.registers && k != HIGH && k != LOW ==>
              k in r.registers && r.registers[k] == dev.registers[k]
  {
    var d1 := Outb(dev, FB_COMMAND_PORT, FB_HIGH_BYTE_COMMAND);
    assert d1 == dev.(selected := HIGH);
    var d2 := Outb(d1, FB_DATA_PORT, HighByte(pos));
    assert d2.registers == dev.registers[HIGH := HighByte(pos)];
    var d3 := Outb(d2, FB_COMMAND_PORT, FB_LOW_BYTE_COMMAND);
    assert d3 == d2.(selected := LOW);
    var r := Outb(d3, FB_DATA_PORT, LowByte(pos));
    assert r.registers == d2.registers[LOW := LowByte(pos)];
    r
  }

  /** fb_get_cursor_pos: read register 15 as the low byte and register 14 as the high byte. */
  function GetCursorPos(dev: Crtc): (r: (bv16, Crtc))
    ensures r.1.registers == dev.registers
  {
    var d := Outb(dev, FB_COMMAND_PORT, 0x0F);
    var low := Inb(d, FB_DATA_PORT);
    var d' := Outb(d, FB_COMMAND_PORT, 0x0E);
    var high := Inb(d', FB_DATA_PORT);
    (Join(low, high), d')
  }

  /** The position fb_get_cursor_pos reads is the one fb_move_cursor last set. */
  lemma CursorRoundTrip(dev: Crtc, pos: bv16)
    ensures GetCursorPos(MoveCursor(dev, pos)).0 == pos
  {
    SplitJoin(pos);
  }
}
