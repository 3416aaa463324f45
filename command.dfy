/**
 * The build tool's Command (cb.c): a program name and a NULL-terminated
 * argv array built by _make_cmd, and print_cmd, which echoes it to
 * stderr before it is run.
 */
module Commands {
  import opened Outcomes
  import opened CMemory

  /** One entry of an argv array: NULL, or the address of the cells of a string. */
  datatype Arg = Null | Ptr(cells: seq<Cell>)

  /** `Command { cmd_name, argv }`. */
  datatype Command = Command(cmdName: CStr, argv: seq<Arg>)

  /**
   * The strings argv points at, up to its NULL entry. None when an entry
   * before the NULL does not read as a C string, or no NULL comes: walking
   * such an array is undefined behaviour.
   */
  function ArgStrings(argv: seq<Arg>): (r: Option<seq<CStr>>)
    ensures r.Some? ==> |r.value| < |argv| && argv[|r.value|] == Null
    ensures r.Some? ==> forall i :: 0 <= i < |r.value| ==>
                          argv[i].Ptr? && ReadCString(argv[i].cells) == Some(r.value[i])
  {
    if |argv| == 0 then None
    else match argv[0]
         case Null => Some([])
         case Ptr(cells) =>
           match (ReadCString(cells), ArgStrings(argv[1..]))
           case (Some(s), Some(rest)) => Some([s] + rest)
           case _ => None
  }

  /** Entry i of a well-formed argv is NULL exactly at the end and otherwise reads as the i-th string. */
  lemma ArgStringAt(argv: seq<Arg>, i: nat)
    requires ArgStrings(argv).Some? && i <= |ArgStrings(argv).value|
    ensures i < |argv| && (argv[i] == Null <==> i == |ArgStrings(argv).value|)
    ensures i < |ArgStrings(argv).value| ==>
              argv[i].Ptr? && ReadCString(argv[i].cells) == Some(ArgStrings(argv).value[i])
  {
  }

  /** An argv array that holds the terminated `words` in order and then NULL reads back as `words`. */
  lemma {:induction false} ArgStringsOfLayout(argv: seq<Arg>, words: seq<CStr>)
    requires |argv| == |words| + 1 && argv[|words|] == Null
    requires forall i :: 0 <= i < |words| ==> argv[i] == Ptr(Terminated(words[i]))
    ensures ArgStrings(argv) == Some(words)
  {
    if words != [] {
      var rest, later := argv[1..], words[1..];
      forall i | 0 <= i < |later|
        ensures rest[i] == Ptr(Terminated(later[i]))
      {
        assert rest[i] == argv[i + 1] && later[i] == words[i + 1];
      }
      ArgStringsOfLayout(rest, later);
      ReadLiteral(words[0]);
      assert ArgStrings(argv) == Some([words[0]] + later);
      assert [words[0]] + later == words;
    }
  }

  /**
   * _make_cmd(cmd, args..., NULL): a first va_arg loop counts the
   * arguments, a second copies each into a fresh heap buffer. argv[0] is
   * `cmd` itself and the last entry is NULL. Each copy here includes the
   * terminator; cb.c copies `str_len` bytes and leaves the last cell
   * uninitialised (see ArgCopyUnterminatedAsWritten).
   */
  method MakeCmd(cmd: CStr, args: seq<CStr>) returns (c: Command)
    ensures c.cmdName == cmd
    ensures |c.argv| == |args| + 2
    ensures c.argv[0] == Ptr(Terminated(cmd))
    ensures forall i :: 0 <= i < |args| ==> c.argv[i + 1] == Ptr(Terminated(args[i]))
    ensures c.argv[|args| + 1] == Null
    ensures ArgStrings(c.argv) == Some([cmd] + args)
  {
    // The variadic list is `args` followed by the NULL the make_cmd macro appends.
    var argvLen := 2;
    while argvLen - 2 < |args|
      invariant 2 <= argvLen <= |args| + 2
    {
      argvLen := argvLen + 1;
    }

    var tmpArgv := new Arg[argvLen];
    tmpArgv[0] := Ptr(Terminated(cmd));
    tmpArgv[argvLen - 1] := Null;

    var i := 1;
    while i + 1 < argvLen
      invariant 1 <= i <= argvLen - 1
      invariant tmpArgv[0] == Ptr(Terminated(cmd)) && tmpArgv[argvLen - 1] == Null
      invariant forall k :: 1 <= k < i ==> tmpArgv[k] == Ptr(Terminated(args[k - 1]))
    {
      var copy := CopyArg(args[i - 1]);
      tmpArgv[i] := Ptr(copy);
      i := i + 1;
    }

    c := Command(cmd, tmpArgv[..]);
    forall k | 0 <= k < |args| + 1
      ensures c.argv[k] == Ptr(Terminated(([cmd] + args)[k]))
    {
      if k > 0 {
        assert ([cmd] + args)[k] == args[k - 1];
      }
    }
    ArgStringsOfLayout(c.argv, [cmd] + args);
  }

  /** One argument copy: a fresh buffer of `str_len + 1` cells filled by strncpy with the terminator. */
  method CopyArg(str: CStr) returns (cells: seq<Cell>)
    ensures cells == Terminated(str)
  {
    var strLen := |str|;
    var copy := new Cell[strLen + 1];
    Strncpy(copy, 0, str, strLen + 1);
    cells := copy[..];
    assert cells[..strLen] == Bytes(str);
    assert cells == cells[..strLen] + [Byte('\0')];
  }

  /** A copy made as cb.c makes it: `str_len` bytes by strncpy, then one uninitialised cell. */
  function ArgCopyAsWritten(str: CStr): (r: seq<Cell>)
    ensures |r| == |str| + 1 && r[..|str|] == Bytes(str) && r[|str|] == Uninit
    ensures Byte('\0') !in r
  {
    StrncpyCells(str, |str|) + [Uninit]
  }

  /** As written, no argument copy reads back as a C string: it has no terminator. */
  lemma ArgCopyUnterminatedAsWritten(str: CStr)
    ensures ReadCString(ArgCopyAsWritten(str)) == None
  {
    assert StrncpyCells(str, |str|) == Bytes(str);
    ReadUnterminated(str);
  }

  /** The words of a line, each preceded by one space. */
  function Spaced(words: seq<CStr>): (r: string)
    ensures r == "" <==> words == []
    ensures words != [] ==> r[0] == ' '
    ensures |r| >= |words|
  {
    if words == [] then "" else " " + words[0] + Spaced(words[1..])
  }

  /** The line print_cmd writes to stderr (the ANSI attributes around "INFO:" are left out). */
  function InfoLine(words: seq<CStr>): (line: string)
    ensures |line| >= 6 && line[..5] == "INFO:" && line[|line| - 1] == '\n'
    ensures line[5..|line| - 1] == Spaced(words)
    ensures words == [] ==> line == "INFO:\n"
  {
    "INFO:" + Spaced(words) + "\n"
  }

  lemma {:induction false} SpacedSnoc(words: seq<CStr>, w: CStr)
    ensures Spaced(words + [w]) == Spaced(words) + " " + w
  {
    if words != [] {
      assert (words + [w])[1..] == words[1..] + [w];
      SpacedSnoc(words[1..], w);
    }
  }

  /** One more word of the line: its prefix of i + 1 words is that of i words, a space and word i. */
  lemma SpacedPrefix(words: seq<CStr>, i: nat)
    requires i < |words|
    ensures Spaced(words[..i + 1]) == Spaced(words[..i]) + " " + words[i]
  {
    SpacedSnoc(words[..i], words[i]);
    assert words[..i + 1] == words[..i] + [words[i]];
  }

  /** print_cmd: "INFO:", then " " and the string for every argv entry before NULL, then a newline. */
  method PrintCmd(cmd: Command) returns (line: string)
    requires ArgStrings(cmd.argv).Some?
    ensures line == InfoLine(ArgStrings(cmd.argv).value)
  {
    ghost var words := ArgStrings(cmd.argv).value;
    var spaced := "";
    var i := 0;
    ArgStringAt(cmd.argv, i);
    while cmd.argv[i] != Null
      invariant 0 <= i <= |words| < |cmd.argv|
      invariant cmd.argv[i] == Null <==> i == |words|
      invariant i < |words| ==> cmd.argv[i].Ptr? && ReadCString(cmd.argv[i].cells) == Some(words[i])
      invariant spaced == Spaced(words[..i])
      decreases |words| - i
    {
      var word := ReadCString(cmd.argv[i].cells).value;
      SpacedPrefix(words, i);
      spaced := spaced + " " + word;
      i := i + 1;
      ArgStringAt(cmd.argv, i);
    }
    assert words[..i] == words;
    line := "INFO:" + spaced + "\n";
  }

}
