/**
 * The Python build script x.py: changeExtension, which keeps the text
 * before the first '.' (unlike the build tool in C, which cuts at the
 * last one), and the banner line execute prints before each step.
 */
module BootScript {
  import opened Outcomes
  import PathTransform

  /** `s.split(".")[0]`: the text before the first '.', or all of `s` when it has none. */
  function BeforeFirstDot(s: string): (r: string)
    ensures r <= s && '.' !in r
    ensures |r| < |s| ==> s[|r|] == '.'
  {
    if s == [] || s[0] == '.' then [] else [s[0]] + BeforeFirstDot(s[1..])
  }

  /**
   * changeExtension: `filename.split(".")[0] + "." + new_ext`. The result
   * ends in "." and the new extension; what comes before is the start of
   * `filename` up to its first '.', or all of it when it has none.
   */
  function ChangeExtension(filename: string, newExt: string): (r: string)
    ensures |r| > |newExt| && r[|r| - |newExt| - 1..] == "." + newExt
    ensures var stem := r[..|r| - |newExt| - 1];
            stem <= filename && '.' !in stem && (|stem| < |filename| ==> filename[|stem|] == '.')
  {
    BeforeFirstDot(filename) + "." + newExt
  }

  /** The text before the first '.' of `front + "." + back`, where `front` has no '.', is `front`. */
  lemma {:induction false} BeforeFirstDotOf(front: string, back: string)
    requires '.' !in front
    ensures BeforeFirstDot(front + "." + back) == front
  {
    if front != [] {
      assert (front + "." + back)[1..] == front[1..] + "." + back;
      BeforeFirstDotOf(front[1..], back);
    }
  }

  /** A name with no '.' gets ".ext" appended. */
  lemma NoDotAppends(filename: string, newExt: string)
    requires '.' !in filename
    ensures ChangeExtension(filename, newExt) == filename + "." + newExt
  {
  }

  /** A name that starts with '.' becomes just ".ext", whatever follows. */
  lemma LeadingDotLosesName(filename: string, newExt: string)
    requires |filename| > 0 && filename[0] == '.'
    ensures ChangeExtension(filename, newExt) == "." + newExt
  {
  }

  /** Changing to the same extension twice is the same as changing once. */
  lemma ChangeExtensionIdempotent(filename: string, newExt: string)
    ensures ChangeExtension(ChangeExtension(filename, newExt), newExt) == ChangeExtension(filename, newExt)
  {
    BeforeFirstDotOf(BeforeFirstDot(filename), newExt);
  }

  /**
   * On "./src/a.asm" the two rules part ways: the script gives ".o", the
   * build tool's change_extension gives "./src/a.o".
   */
  lemma FirstDotAgainstLastDot(filename: string, newExt: string)
    requires filename == "./src/a.asm" && newExt == "o"
    ensures ChangeExtension(filename, newExt) == ".o"
    ensures PathTransform.ExtensionChanged(filename, newExt) == Ok("./src/a.o")
  {
    LeadingDotLosesName(filename, newExt);
    assert filename[7] == '.' && forall q :: 7 < q < |filename| ==> filename[q] != '.';
    PathTransform.ExtensionChangedAt(filename, newExt, 7);
    assert filename[..8] + newExt == "./src/a.o";
  }

  /** execute's `info_header`: bold, colour 45, "[INFO]", reset, ": ". */
  const INFO_HEADER: string := "\U{1B}[1m\U{1B}[38:5:45m[INFO]\U{1B}[0m: "

  /** The line execute prints: the header, then `msg` when one is given, else the command, then the newline print adds. */
  function Banner(command: string, msg: Option<string>): (line: string)
    ensures |line| > |INFO_HEADER| && line[..|INFO_HEADER|] == INFO_HEADER && line[|line| - 1] == '\n'
    ensures line[|INFO_HEADER|..|line| - 1] == if msg.Some? then msg.value else command
  {
    INFO_HEADER + (match msg case Some(m) => m case None => command) + "\n"
  }
}
