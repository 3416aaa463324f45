/**
 * The slice of C memory that the build tool (cb.c) works with: NUL-free
 * strings, heap buffers whose cells may still be uninitialised after
 * malloc, the strncpy library routine, and reading a NUL-terminated
 * string back out of a buffer.
 */
module CMemory {
  import opened Outcomes

  /** The text of a C string: everything before its terminating NUL. */
  type CStr = s: string | '\0' !in s

  /** size_t is 64 bits wide; SIZE_MAX is what `0 - 1` wraps around to. */
  const SIZE_MAX: nat := 0xFFFF_FFFF_FFFF_FFFF

  /** One byte of a heap buffer; malloc leaves every byte Uninit. */
  datatype Cell = Uninit | Byte(c: char)

  /** The cells holding the characters of `s` (without a terminator). */
  function Bytes(s: string): (r: seq<Cell>)
    ensures |r| == |s|
    ensures forall i :: 0 <= i < |s| ==> r[i] == Byte(s[i])
  {
    seq(|s|, i requires 0 <= i < |s| => Byte(s[i]))
  }

  /** The cells of `s` followed by its terminating NUL, as a string literal sits in memory. */
  function Terminated(s: CStr): (r: seq<Cell>)
    ensures |r| == |s| + 1 && r[|s|] == Byte('\0')
    ensures r[..|s|] == Bytes(s)
  {
    Bytes(s) + [Byte('\0')]
  }

  /**
   * The C string that starts at the first cell of `cells`: the characters
   * up to the first NUL. None when an uninitialised cell, or the end of the
   * buffer, comes before any NUL (reading on is undefined behaviour).
   */
  function ReadCString(cells: seq<Cell>): (r: Option<CStr>)
    ensures r.Some? ==> |r.value| < |cells| && cells[|r.value|] == Byte('\0')
                        && cells[..|r.value|] == Bytes(r.value)
  {
    if |cells| == 0 || cells[0].Uninit? then None
    else if cells[0].c == '\0' then Some([])
    else match ReadCString(cells[1..])
         case None => None
         case Some(rest) => Some([cells[0].c] + rest)
  }

  /** A terminated string reads back as itself, whatever follows its NUL. */
  lemma {:induction false} ReadTerminated(s: CStr, rest: seq<Cell>)
    ensures ReadCString(Terminated(s) + rest) == Some(s)
  {
    var cells := Terminated(s) + rest;
    if s != [] {
      assert cells[1..] == Terminated(s[1..]) + rest;
      ReadTerminated(s[1..], rest);
      assert [s[0]] + s[1..] == s;
    }
  }

  /** A string literal in memory reads back as itself. */
  lemma ReadLiteral(s: CStr)
    ensures ReadCString(Terminated(s)) == Some(s)
  {
    ReadTerminated(s, []);
    assert Terminated(s) + [] == Terminated(s);
  }

  /** Characters followed by an uninitialised cell, and no NUL, do not read as a string. */
  lemma {:induction false} ReadUnterminated(s: CStr)
    ensures ReadCString(Bytes(s) + [Uninit]) == None
  {
    var cells := Bytes(s) + [Uninit];
    if s != [] {
      assert cells[1..] == Bytes(s[1..]) + [Uninit];
      ReadUnterminated(s[1..]);
    }
  }

  /**
   * The `n` bytes that strncpy(dst, src, n) stores: the characters of `src`,
   * then NULs up to `n` once `src` is exhausted. No terminator is written
   * when `n <= |src|`.
   */
  function StrncpyCells(src: CStr, n: nat): (r: seq<Cell>)
    ensures |r| == n
    ensures forall i :: 0 <= i < n ==> r[i] == if i < |src| then Byte(src[i]) else Byte('\0')
  {
    seq(n, i requires 0 <= i < n => if i < |src| then Byte(src[i]) else Byte('\0'))
  }

  /** strncpy(dst + at, src, n): a character loop, then a NUL-padding loop. */
  method Strncpy(dst: array<Cell>, at: nat, src: CStr, n: nat)
    requires at + n <= dst.Length
    modifies dst
    ensures forall k :: at <= k < at + n ==> dst[k] == StrncpyCells(src, n)[k - at]
    ensures forall k :: 0 <= k < dst.Length && !(at <= k < at + n) ==> dst[k] == old(dst[k])
  {
    var i := 0;
    while i < n && i < |src|
      invariant 0 <= i <= n && i <= |src|
      invariant forall k :: 0 <= k < dst.Length && !(at <= k < at + i) ==> dst[k] == old(dst[k])
      invariant forall j :: at <= j < at + i ==> dst[j] == Byte(src[j - at])
    {
      dst[at + i] := Byte(src[i]);
      i := i + 1;
    }
    while i < n
      invariant 0 <= i <= n && (i < n ==> |src| <= i)
      invariant forall k :: 0 <= k < dst.Length && !(at <= k < at + i) ==> dst[k] == old(dst[k])
      invariant forall j :: at <= j < at + i ==> dst[j] == if j - at < |src| then Byte(src[j - at]) else Byte('\0')
    {
      dst[at + i] := Byte('\0');
      i := i + 1;
    }
  }

  /** Cells after the terminator of a string are never read: changing them leaves the string as it was. */
  lemma UnreadCellsIgnored(cells: seq<Cell>, cells': seq<Cell>, n: nat)
    requires ReadCString(cells).Some? && n == |ReadCString(cells).value|
    requires |cells'| == |cells| && cells'[..n + 1] == cells[..n + 1]
    ensures ReadCString(cells') == ReadCString(cells)
  {
    var text := ReadCString(cells).value;
    assert cells == Terminated(text) + cells[n + 1..];
    assert cells' == Terminated(text) + cells'[n + 1..];
    ReadTerminated(text, cells'[n + 1..]);
    ReadTerminated(text, cells[n + 1..]);
  }

  /** A buffer whose first cells hold `text` and then a NUL reads as `text`. */
  lemma ReadLaidOut(cells: seq<Cell>, text: CStr)
    requires |text| < |cells| && cells[|text|] == Byte('\0')
    requires forall k :: 0 <= k < |text| ==> cells[k] == Byte(text[k])
    ensures ReadCString(cells) == Some(text)
  {
    assert cells == Terminated(text) + cells[|text| + 1..];
    ReadTerminated(text, cells[|text| + 1..]);
  }
}
