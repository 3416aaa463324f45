/**
 * The other C framebuffer writer (src/kernel/vga.c): its fb_write_cell
 * takes a raw byte offset, does no bounds check, and stores the character
 * there and the attribute in the byte after it.
 */
module VgaText {
  import Framebuffer

  /** `unsigned int` */
  type uint = x: nat | x < 0x1_0000_0000

  /**
   * fb_write_cell: byte i becomes c and byte i + 1 the attribute
   * `((bg & 0x0F) << 4) | (fg & 0x0F)`; nothing else changes. The C code
   * checks nothing, so the model requires both bytes to be in the buffer.
   */
  method WriteCell(vgaBuffer: array<bv8>, i: uint, c: bv8, fg: bv8, bg: bv8)
    requires i + 1 < vgaBuffer.Length
    modifies vgaBuffer
    ensures vgaBuffer[..] == old(vgaBuffer[..])[i := c][i + 1 := Framebuffer.Attribute(fg, bg)]
    ensures vgaBuffer[i + 1] & 0x0F == fg & 0x0F && vgaBuffer[i + 1] >> 4 == bg & 0x0F
  {
    vgaBuffer[i] := c;
    vgaBuffer[i + 1] := Framebuffer.Attribute(fg, bg);
  }
}
