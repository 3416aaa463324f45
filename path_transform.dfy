/**
 * Path rewriting in the build tool (cb.c): change_extension,
 * change_directory and the change_filename macro that composes them.
 * Both scans run from the last index down to index 1; index 0 is never
 * examined, so a '.' or '/' that only occurs there is not found.
 */
module PathTransform {
  import opened Outcomes
  import opened CMemory

  /** Why a rewrite gives no path. */
  datatype PathError =
    | InvalidFilename(filename: CStr)  // PANIC "Invalid filename was found." (exit 1)
    | ReadPastEnd(index: nat)          // the scan read filename[index], beyond the string

  /** The largest index p >= 1 with s[p] == c; index 0 is never looked at. */
  function LastIndexFrom1(s: string, c: char): (r: Option<nat>)
    ensures r.Some? ==> 1 <= r.value < |s| && s[r.value] == c
                        && forall q :: r.value < q < |s| ==> s[q] != c
    ensures r.None? ==> forall q :: 1 <= q < |s| ==> s[q] != c
  {
    if |s| <= 1 then None
    else if s[|s| - 1] == c then Some(|s| - 1)
    else LastIndexFrom1(s[..|s| - 1], c)
  }

  /**
   * The outcome of the right-to-left scan both rewrites open with: the
   * index of the last `c` at an index >= 1. The empty string makes
   * `filename_len - 1` wrap around to SIZE_MAX, and the first read is
   * beyond the string.
   */
  function Scan(filename: CStr, c: char): (r: Result<nat, PathError>)
    ensures |filename| == 0 ==> r == Err(ReadPastEnd(SIZE_MAX))
    ensures |filename| > 0 && (forall q :: 1 <= q < |filename| ==> filename[q] != c)
            ==> r == Err(InvalidFilename(filename))
    ensures r.Ok? <==> exists p :: 1 <= p < |filename| && filename[p] == c
    ensures r.Ok? ==> 1 <= r.value < |filename| && filename[r.value] == c
                      && forall q :: r.value < q < |filename| ==> filename[q] != c
  {
    if |filename| == 0 then Err(ReadPastEnd(SIZE_MAX))
    else match LastIndexFrom1(filename, c)
         case None => Err(InvalidFilename(filename))
         case Some(p) => Ok(p)
  }

  /**
   * What change_extension(filename, ext) returns: everything up to and
   * including the last '.' at an index >= 1, followed by `ext`.
   */
  function ExtensionChanged(filename: CStr, ext: CStr): (r: Result<CStr, PathError>)
    ensures |filename| == 0 ==> r == Err(ReadPastEnd(SIZE_MAX))
    ensures |filename| > 0 && (forall q :: 1 <= q < |filename| ==> filename[q] != '.')
            ==> r == Err(InvalidFilename(filename))
    ensures r.Ok? <==> exists p :: 1 <= p < |filename| && filename[p] == '.'
    ensures r.Ok? ==> exists p :: 1 <= p < |filename| && filename[p] == '.'
                                  && (forall q :: p < q < |filename| ==> filename[q] != '.')
                                  && r.value == filename[..p + 1] + ext
                                  && |r.value| == p + 1 + |ext|
  {
    match Scan(filename, '.')
    case Err(e) => Err(e)
    case Ok(p) => Ok(filename[..p + 1] + ext)
  }

  /** change_extension at a known last '.': everything through it, then `ext`. */
  lemma ExtensionChangedAt(filename: CStr, ext: CStr, p: nat)
    requires 1 <= p < |filename| && filename[p] == '.'
    requires forall q :: p < q < |filename| ==> filename[q] != '.'
    ensures ExtensionChanged(filename, ext) == Ok(filename[..p + 1] + ext)
  {
    assert Scan(filename, '.').Ok?;
  }

  /**
   * What change_directory(filename, prefix) returns: `prefix` followed by
   * everything from the last '/' at an index >= 1 on, the '/' included.
   */
  function DirectoryChanged(filename: CStr, prefix: CStr): (r: Result<CStr, PathError>)
    ensures |filename| == 0 ==> r == Err(ReadPastEnd(SIZE_MAX))
    ensures |filename| > 0 && (forall q :: 1 <= q < |filename| ==> filename[q] != '/')
            ==> r == Err(InvalidFilename(filename))
    ensures r.Ok? <==> exists s :: 1 <= s < |filename| && filename[s] == '/'
    ensures r.Ok? ==> exists s :: 1 <= s < |filename| && filename[s] == '/'
                                  && (forall q :: s < q < |filename| ==> filename[q] != '/')
                                  && r.value == prefix + filename[s..]
  {
    match Scan(filename, '/')
    case Err(e) => Err(e)
    case Ok(s) => Ok(prefix + filename[s..])
  }

  /** change_directory at a known last '/': `prefix`, then everything from it on. */
  lemma DirectoryChangedAt(filename: CStr, prefix: CStr, s: nat)
    requires 1 <= s < |filename| && filename[s] == '/'
    requires forall q :: s < q < |filename| ==> filename[q] != '/'
    ensures DirectoryChanged(filename, prefix) == Ok(prefix + filename[s..])
  {
    assert Scan(filename, '/').Ok?;
  }

  /** The change_filename macro: the extension is changed first, then the directory. */
  function FilenameChanged(prefix: CStr, orig: CStr, suffix: CStr): (r: Result<CStr, PathError>)
    ensures r.Ok? ==> (exists p :: 1 <= p < |orig| && orig[p] == '.') && prefix <= r.value
    ensures |orig| > 0 && (forall q :: 1 <= q < |orig| ==> orig[q] != '.') ==> r == Err(InvalidFilename(orig))
  {
    match ExtensionChanged(orig, suffix)
    case Err(e) => Err(e)
    case Ok(withExt) => DirectoryChanged(withExt, prefix)
  }

  /**
   * The loop both rewrites open with, `for (i = filename_len - 1; i > 0; --i)`
   * until filename[i] == c, and the PANIC when it stops at 0.
   */
  method ScanBackwards(filename: CStr, c: char) returns (r: Result<nat, PathError>)
    ensures r == Scan(filename, c)
  {
    var filenameLen := |filename|;
    var i: nat := if filenameLen == 0 then SIZE_MAX else filenameLen - 1;
    while i > 0
      invariant filenameLen == 0 ==> i == SIZE_MAX
      invariant filenameLen > 0 ==> i < filenameLen
      invariant forall q :: i < q < |filename| ==> filename[q] != c
      decreases i
    {
      if i >= filenameLen {
        return Err(ReadPastEnd(i));
      }
      if filename[i] == c {
        break;
      }
      i := i - 1;
    }
    if i == 0 {
      return Err(InvalidFilename(filename));
    }
    assert LastIndexFrom1(filename, c) == Some(i);
    r := Ok(i);
  }

  /** The size cb.c passes to malloc for change_extension's result. */
  function ExtensionAllocationAsWritten(filename: CStr, ext: CStr): (r: nat)
    ensures ExtensionChanged(filename, ext).Ok? ==> |ExtensionChanged(filename, ext).value| <= r
  {
    |filename| + |ext|
  }

  /**
   * The copies of change_directory at a slash: `prefix` without its NUL,
   * then the tail from the slash with its NUL, then one more NUL after it.
   */
  method CopyPrefixAndTail(output: array<Cell>, prefix: CStr, tail: CStr)
    requires |prefix| + |tail| + 1 < output.Length
    modifies output
    ensures ReadCString(output[..]) == Some(prefix + tail)
  {
    var prefixLen := |prefix|;
    Strncpy(output, 0, prefix, prefixLen);
    ghost var withPrefix := output[..];
    Strncpy(output, prefixLen, tail, |tail| + 1);
    ghost var copied := output[..];
    assert forall k :: 0 <= k < prefixLen ==> copied[k] == withPrefix[k];
    assert forall k :: 0 <= k < prefixLen ==> withPrefix[k] == StrncpyCells(prefix, prefixLen)[k];
    output[prefixLen + |tail| + 1] := Byte('\0');
    PrefixThenTail(copied, prefix, tail);
    UnreadCellsIgnored(copied, output[..], |prefix + tail|);
  }

  /** The copies change_directory makes, `prefix` without its NUL and then `tail` with it, read as `prefix + tail`. */
  lemma PrefixThenTail(cells: seq<Cell>, prefix: CStr, tail: CStr)
    requires |prefix| + |tail| < |cells|
    requires forall k :: 0 <= k < |prefix| ==> cells[k] == StrncpyCells(prefix, |prefix|)[k]
    requires forall k :: |prefix| <= k < |prefix| + |tail| + 1 ==> cells[k] == StrncpyCells(tail, |tail| + 1)[k - |prefix|]
    ensures ReadCString(cells) == Some(prefix + tail)
  {
    var text: CStr := prefix + tail;
    assert cells[|text|] == StrncpyCells(tail, |tail| + 1)[|tail|];
    forall k | 0 <= k < |text| ensures cells[k] == Byte(text[k]) {
      if k < |prefix| {
        assert cells[k] == StrncpyCells(prefix, |prefix|)[k];
      } else {
        assert cells[k] == StrncpyCells(tail, |tail| + 1)[k - |prefix|];
      }
    }
    ReadLaidOut(cells, text);
  }

  /**
   * change_extension: the scan for the last '.', then two strncpy calls
   * and a terminator into a heap buffer. The buffer here has
   * `filename_len + ext_len + 1` cells; cb.c allocates one fewer.
   */
  method ChangeExtension(filename: CStr, ext: CStr) returns (r: Result<CStr, PathError>)
    ensures r == ExtensionChanged(filename, ext)
  {
    var filenameLen := |filename|;
    var extLen := |ext|;
    var output := new Cell[filenameLen + extLen + 1];

    var found := ScanBackwards(filename, '.');
    if found.Err? {
      return Err(found.error);
    }
    var period := found.value;

    Strncpy(output, 0, filename, period + 1);
    Strncpy(output, period + 1, ext, extLen);
    output[period + extLen + 1] := Byte('\0');

    ghost var text: CStr := filename[..period + 1] + ext;
    forall k | 0 <= k < |text| ensures output[k] == Byte(text[k]) {
      if k <= period {
        assert output[k] == StrncpyCells(filename, period + 1)[k];
      } else {
        assert output[k] == StrncpyCells(ext, extLen)[k - (period + 1)];
      }
    }
    ReadLaidOut(output[..], text);
    ExtensionChangedAt(filename, ext, period);
    r := Ok(ReadCString(output[..]).value);
  }

  /**
   * change_directory: the scan for the last '/', then the prefix and the
   * tail from the '/' on (with its NUL) are copied into a buffer of
   * `filename_len + prefix_len + 1` cells, and one more NUL is stored
   * after them.
   */
  method ChangeDirectory(filename: CStr, prefix: CStr) returns (r: Result<CStr, PathError>)
    ensures r == DirectoryChanged(filename, prefix)
  {
    var filenameLen := |filename|;
    var prefixLen := |prefix|;
    var output := new Cell[filenameLen + prefixLen + 1];

    var found := ScanBackwards(filename, '/');
    if found.Err? {
      return Err(found.error);
    }
    var slash := found.value;

    var tail: CStr := filename[slash..];
    CopyPrefixAndTail(output, prefix, tail);
    DirectoryChangedAt(filename, prefix, slash);
    r := Ok(ReadCString(output[..]).value);
  }

  /** change_filename(prefix, orig, suffix) as the macro expands it. */
  method ChangeFilename(prefix: CStr, orig: CStr, suffix: CStr) returns (r: Result<CStr, PathError>)
    ensures r == FilenameChanged(prefix, orig, suffix)
  {
    var withExt := ChangeExtension(orig, suffix);
    if withExt.Err? {
      return Err(withExt.error);
    }
    r := ChangeDirectory(withExt.value, prefix);
  }

  /**
   * As written, change_extension's malloc of `filename_len + ext_len` cells
   * has room for the terminator it stores at index `period + ext_len + 1`
   * (the length of the result) exactly when the filename does not end in '.'.
   */
  lemma ExtensionTerminatorFitsAsWritten(filename: CStr, ext: CStr)
    requires ExtensionChanged(filename, ext).Ok?
    ensures |ExtensionChanged(filename, ext).value| < ExtensionAllocationAsWritten(filename, ext)
            <==> filename[|filename| - 1] != '.'
  {
    var p := Scan(filename, '.').value;
    assert |ExtensionChanged(filename, ext).value| == p + 1 + |ext|;
  }

  /** change_extension("obj.", "o") stores its terminator at index 5 of a 5-cell buffer. */
  lemma TrailingPeriodOverrunsAsWritten()
    ensures ExtensionChanged("obj.", "o") == Ok("obj.o")
    ensures |ExtensionChanged("obj.", "o").value| == ExtensionAllocationAsWritten("obj.", "o")
  {
    assert LastIndexFrom1("obj.", '.') == Some(3);
    assert "obj."[..4] + "o" == "obj.o";
  }

  /** A '.' or '/' at index 0 alone is never found: the rewrites PANIC. */
  lemma IndexZeroNeverExamined()
    ensures ExtensionChanged(".bashrc", "o") == Err(InvalidFilename(".bashrc"))
    ensures DirectoryChanged("/boot", "./obj") == Err(InvalidFilename("/boot"))
  {
  }

  /**
   * change_filename keeps exactly the part of `orig` from its last '/'
   * through its last '.', when that '.' comes after that '/' and the new
   * suffix holds no '/'.
   */
  lemma FilenameChangedAt(prefix: CStr, orig: CStr, suffix: CStr, s: nat, p: nat)
    requires 1 <= s < p < |orig| && orig[s] == '/' && orig[p] == '.'
    requires forall q :: s < q < |orig| ==> orig[q] != '/'
    requires forall q :: p < q < |orig| ==> orig[q] != '.'
    requires '/' !in suffix
    ensures FilenameChanged(prefix, orig, suffix) == Ok(prefix + orig[s..p + 1] + suffix)
  {
    ExtensionChangedAt(orig, suffix, p);
    var withExt: CStr := orig[..p + 1] + suffix;
    forall q | s < q < |withExt| ensures withExt[q] != '/' {
      if q > p {
        assert withExt[q] == suffix[q - (p + 1)];
      } else {
        assert withExt[q] == orig[q];
      }
    }
    assert withExt[s] == orig[s];
    DirectoryChangedAt(withExt, prefix, s);
    assert withExt[s..] == orig[s..p + 1] + suffix;
    assert prefix + (orig[s..p + 1] + suffix) == prefix + orig[s..p + 1] + suffix;
  }

  /** The extension step of LoaderObjectPath. */
  lemma LoaderWithExtension(orig: CStr, suffix: CStr, dir: CStr, name: CStr)
    requires orig == "./src/loader.asm" && suffix == "o" && dir == "./src" && name == "loader.o"
    ensures ExtensionChanged(orig, suffix) == Ok(dir + "/" + name)
  {
    assert forall q :: 12 < q < |orig| ==> orig[q] != '.';
    ExtensionChangedAt(orig, suffix, 12);
    assert orig[..13] + suffix == dir + "/" + name;
  }

  /** A path `dir/name` whose name holds no '/' moves to `prefix/name`. */
  lemma DirectoryOfName(dir: CStr, name: CStr, prefix: CStr)
    requires |dir| >= 1 && '/' !in name
    ensures DirectoryChanged(dir + "/" + name, prefix) == Ok(prefix + "/" + name)
  {
    var path: CStr := dir + "/" + name;
    var s := |dir|;
    assert path[s] == '/';
    forall q | s < q < |path| ensures path[q] != '/' {
      assert path[q] == name[q - s - 1];
    }
    DirectoryChangedAt(path, prefix, s);
    assert path[s..] == "/" + name;
    assert prefix + ("/" + name) == prefix + "/" + name;
  }

  /** The directory step of LoaderObjectPath. */
  lemma LoaderInObjectDirectory(dir: CStr, name: CStr, prefix: CStr)
    requires dir == "./src" && name == "loader.o" && prefix == "./obj"
    ensures DirectoryChanged(dir + "/" + name, prefix) == Ok("./obj/loader.o")
  {
    DirectoryOfName(dir, name, prefix);
    assert prefix + "/" + name == "./obj/loader.o";
  }

  /** compile_project's only source maps to the object file ./obj/loader.o. */
  lemma LoaderObjectPath(prefix: CStr, orig: CStr, suffix: CStr)
    requires prefix == "./obj" && orig == "./src/loader.asm" && suffix == "o"
    ensures FilenameChanged(prefix, orig, suffix) == Ok("./obj/loader.o")
  {
    var dir: CStr, name: CStr := "./src", "loader.o";
    LoaderWithExtension(orig, suffix, dir, name);
    LoaderInObjectDirectory(dir, name, prefix);
  }
}
