/**
 * The build tool's actions and entry point (cb.c): compile_project,
 * the make_iso and run_qemu stubs, clean_objs, rebuild_itself and the
 * sub-command dispatch of main. Every PANIC ends the whole process with
 * exit code 1, so an action is described by the invocations it ran and
 * how it ended.
 */
module BuildScript {
  import opened Outcomes
  import opened CMemory
  import opened PathTransform
  import opened Commands
  import opened Processes

  /** Why an action stops the tool. */
  datatype Abort =
    | ProcessError(fatal: Fatal)     // a PANIC from the runner
    | PathFailure(error: PathError)  // change_filename could not rewrite a source path
    | NotImplemented(action: string) // the make_iso and run_qemu stubs PANIC

  /** How an action ended: it returned, the tool PANICked, or a wait did not end. */
  datatype Status = Completed | Aborted(why: Abort) | Waiting

  /** The invocations an action ran, in order, and how it ended. */
  datatype Stage = Stage(ran: seq<Invocation>, status: Status)

  /** The process exit of the tool: a code, or no exit because a wait never ended. */
  datatype Exit = Exit(code: int, ran: seq<Invocation>) | Hang(ran: seq<Invocation>)

  const OBJ_PREFIX: CStr := "./obj"
  const OBJ_SUFFIX: CStr := "o"
  /** The assembly sources compile_project lists. */
  const ASM_SOURCES: seq<CStr> := ["./src/loader.asm"]

  function MkdirObj(): Invocation
  {
    Invocation("mkdir", ["mkdir", "-p", "obj"])
  }

  function Nasm(obj: CStr, src: CStr): Invocation
  {
    Invocation("nasm", ["nasm", "-felf32", "-o", obj, src])
  }

  /** The file gcc writes the rebuilt tool to: its `-o` argument. */
  const GCC_OUTPUT: CStr := "cb"

  function Gcc(thisFile: CStr): Invocation
  {
    Invocation("gcc", ["gcc", thisFile, "-Wall", "-Wextra", "-o", GCC_OUTPUT])
  }

  /** The stage of one run_cmd of `inv` whose wait ended as `w`. */
  function StageOf(inv: Invocation, w: Waited): Stage
  {
    Stage([inv], match w
                 case Reaped => Completed
                 case Failed(f) => Aborted(ProcessError(f))
                 case StillWaiting => Waiting)
  }

  /** One run_cmd as a stage: the invocation it ran and how its wait ended. */
  function Run(inv: Invocation, world: World): Stage
  {
    StageOf(inv, RunOutcome(inv, world))
  }

  /** `first` then `next`: `next` only starts once `first` has completed. */
  function Then(first: Stage, next: Stage): Stage
  {
    if first.status.Completed? then Stage(first.ran + next.ran, next.status) else first
  }

  lemma ThenAssociative(a: Stage, b: Stage, c: Stage)
    ensures Then(Then(a, b), c) == Then(a, Then(b, c))
  {
  }

  /** One pass of compile_project's loop: change_filename, then nasm. */
  function AssembleOne(src: CStr, world: World): (r: Stage)
    ensures |r.ran| <= 1
    ensures r.status.Aborted? && r.status.why.PathFailure? ==> r.ran == []
    ensures r.status.Completed? ==> |r.ran| == 1
  {
    match FilenameChanged(OBJ_PREFIX, src, OBJ_SUFFIX)
    case Err(e) => Stage([], Aborted(PathFailure(e)))
    case Ok(obj) => Run(Nasm(obj, src), world)
  }

  /** compile_project's loop over its sources. */
  function AssembleAll(srcs: seq<CStr>, world: World): (r: Stage)
    ensures |r.ran| <= |srcs|
    ensures r.status.Completed? ==> |r.ran| == |srcs|
  {
    if srcs == [] then Stage([], Completed)
    else Then(AssembleOne(srcs[0], world), AssembleAll(srcs[1..], world))
  }

  /** compile_project over a list of sources: `mkdir -p obj`, then one nasm per source. */
  function CompileStage(srcs: seq<CStr>, world: World): (r: Stage)
    ensures 1 <= |r.ran| <= |srcs| + 1 && r.ran[0] == MkdirObj()
    ensures r.status.Completed? ==> |r.ran| == |srcs| + 1
  {
    Then(Run(MkdirObj(), world), AssembleAll(srcs, world))
  }

  /** make_iso PANICs before it runs anything. */
  function MakeIsoStage(): (r: Stage)
    ensures Finish(r) == Exit(1, [])
  {
    Stage([], Aborted(NotImplemented("make_iso")))
  }

  /** run_qemu PANICs before it runs anything. */
  function RunQemuStage(): (r: Stage)
    ensures Finish(r) == Exit(1, [])
  {
    Stage([], Aborted(NotImplemented("run_qemu")))
  }

  /** clean_objs has an empty body. */
  function CleanStage(): (r: Stage)
    ensures Finish(r) == Exit(0, [])
  {
    Stage([], Completed)
  }

  /** rebuild_itself's test: the source is strictly newer than the binary. */
  function NeedsRebuild(sourceTime: nat, binaryTime: nat): (r: bool)
    ensures sourceTime == binaryTime ==> !r
    ensures r <==> binaryTime < sourceTime
  {
    sourceTime > binaryTime
  }

  /** rebuild_itself on a stale binary: recompile with gcc, then run the binary again with the same argv. */
  function RebuildStage(thisFile: CStr, argv: seq<CStr>, world: World): (r: Stage)
    requires |argv| >= 1
    ensures 1 <= |r.ran| <= 2 && r.ran[0] == Gcc(thisFile)
    ensures |r.ran| == 2 <==> RunOutcome(Gcc(thisFile), world) == Reaped
    ensures |r.ran| == 2 ==> r.ran[1] == Invocation(argv[0], argv)
    ensures r.status.Completed? <==> RunOutcome(Gcc(thisFile), world) == Reaped
                                     && RunOutcome(Invocation(argv[0], argv), world) == Reaped
  {
    Then(Run(Gcc(thisFile), world), Run(Invocation(argv[0], argv), world))
  }

  /**
   * How the tool exits after a stage: a PANIC (cb.c's `exit(1)`) is code 1,
   * reaching main's `return 0` is code 0, and an unfinished wait never exits.
   */
  function Finish(st: Stage): Exit
  {
    match st.status
    case Completed => Exit(0, st.ran)
    case Aborted(_) => Exit(1, st.ran)
    case Waiting => Hang(st.ran)
  }

  /** main after rebuild_itself returned false: argc < 2, then the four sub-commands. */
  function Dispatch(argv: seq<CStr>, world: World): (r: Exit)
    ensures r.Exit? ==> r.code in {0, 1}
    ensures |argv| < 2 ==> r == Exit(1, [])
    ensures r.ran != [] ==> |argv| >= 2 && argv[1] == "compile"
    ensures |argv| >= 2 && argv[1] in {"make-iso", "run-qemu"} ==> r == Exit(1, [])
    ensures r == Exit(0, r.ran) <==> |argv| >= 2 && ((argv[1] == "compile" && CompileStage(ASM_SOURCES, world).status.Completed?)
                                                   || argv[1] == "clean")
  {
    if |argv| < 2 then Exit(1, [])
    else if argv[1] == "compile" then Finish(CompileStage(ASM_SOURCES, world))
    else if argv[1] == "make-iso" then Finish(MakeIsoStage())
    else if argv[1] == "run-qemu" then Finish(RunQemuStage())
    else if argv[1] == "clean" then Finish(CleanStage())
    else Exit(1, [])
  }

  /**
   * main(argc, argv): rebuild_itself first (returning 0 when it rebuilt),
   * then the dispatch. The modification times of the tool's own source
   * (__FILE__, here `thisFile`) and of argv[0] are inputs.
   */
  function MainOutcome(argv: seq<CStr>, thisFile: CStr, sourceTime: nat, binaryTime: nat, world: World): (r: Exit)
    requires |argv| >= 1
    ensures NeedsRebuild(sourceTime, binaryTime) ==>
              1 <= |r.ran| <= 2 && r.ran[0] == Gcc(thisFile) && (|r.ran| == 2 ==> r.ran[1] == Invocation(argv[0], argv))
    ensures !NeedsRebuild(sourceTime, binaryTime) ==> r == Dispatch(argv, world)
  {
    if NeedsRebuild(sourceTime, binaryTime) then Finish(RebuildStage(thisFile, argv, world))
    else Dispatch(argv, world)
  }

  /** run_cmd of a well-formed Command, as a stage. */
  method RunCommand(cmd: Command, world: World) returns (st: Stage)
    requires ArgStrings(cmd.argv).Some?
    ensures st == Run(InvocationOf(cmd), world)
  {
    var _, waited := RunCmd(cmd, world);
    st := StageOf(InvocationOf(cmd), waited);
  }

  /** make_cmd as the actions use it: what execvp receives is `cmd` followed by `args`. */
  method MakeInvocation(cmd: CStr, args: seq<CStr>) returns (c: Command)
    ensures ArgStrings(c.argv).Some? && InvocationOf(c) == Invocation(cmd, [cmd] + args)
  {
    c := MakeCmd(cmd, args);
  }

  /** `make_cmd("mkdir", "-p", "obj")` */
  method MkdirCommand() returns (c: Command)
    ensures ArgStrings(c.argv).Some? && InvocationOf(c) == MkdirObj()
  {
    var args: seq<CStr> := ["-p", "obj"];
    c := MakeInvocation("mkdir", args);
    assert ["mkdir"] + args == ["mkdir", "-p", "obj"];
  }

  /** `make_cmd("nasm", "-felf32", "-o", obj, src)` */
  method NasmCommand(obj: CStr, src: CStr) returns (c: Command)
    ensures ArgStrings(c.argv).Some? && InvocationOf(c) == Nasm(obj, src)
  {
    var args: seq<CStr> := ["-felf32", "-o", obj, src];
    c := MakeInvocation("nasm", args);
    assert ["nasm"] + args == ["nasm", "-felf32", "-o", obj, src];
  }

  /** `make_cmd("gcc", __FILE__, "-Wall", "-Wextra", "-o", "cb")` */
  method GccCommand(thisFile: CStr) returns (c: Command)
    ensures ArgStrings(c.argv).Some? && InvocationOf(c) == Gcc(thisFile)
  {
    var args: seq<CStr> := [thisFile, "-Wall", "-Wextra", "-o", "cb"];
    c := MakeInvocation("gcc", args);
    assert ["gcc"] + args == ["gcc", thisFile, "-Wall", "-Wextra", "-o", "cb"];
  }

  /** The first step of compile_project: `mkdir -p obj`. */
  method MakeObjDir(world: World) returns (st: Stage)
    ensures st == Run(MkdirObj(), world)
  {
    var mkdir := MkdirCommand();
    st := RunCommand(mkdir, world);
  }

  /** The body of compile_project's loop for one source. */
  method AssembleSource(src: CStr, world: World) returns (st: Stage)
    ensures st == AssembleOne(src, world)
  {
    var obj := ChangeFilename(OBJ_PREFIX, src, OBJ_SUFFIX);
    if obj.Err? {
      return Stage([], Aborted(PathFailure(obj.error)));
    }
    var nasm := NasmCommand(obj.value, src);
    st := RunCommand(nasm, world);
  }

  /**
   * compile_project: `mkdir -p obj`, then for every source the object path
   * from change_filename("./obj", src, "o") and `nasm -felf32 -o obj src`.
   */
  method CompileProject(srcs: seq<CStr>, world: World) returns (st: Stage)
    ensures st == CompileStage(srcs, world)
  {
    st := MakeObjDir(world);
    if !st.status.Completed? {
      return;
    }
    for i := 0 to |srcs|
      invariant st.status.Completed?
      invariant CompileStage(srcs, world) == Then(st, AssembleAll(srcs[i..], world))
    {
      assert srcs[i..][1..] == srcs[i + 1..];
      var step := AssembleSource(srcs[i], world);
      ghost var rest := AssembleAll(srcs[i + 1..], world);
      assert AssembleAll(srcs[i..], world) == Then(step, rest);
      ThenAssociative(st, step, rest);
      st := Then(st, step);
      if !step.status.Completed? {
        return;
      }
    }
    assert srcs[|srcs|..] == [];
  }

  /** argv as main receives it: every string terminated, then a NULL entry. */
  function MainArgv(argv: seq<CStr>): (r: seq<Arg>)
    ensures ArgStrings(r) == Some(argv)
  {
    var r := seq(|argv|, i requires 0 <= i < |argv| => Ptr(Terminated(argv[i]))) + [Null];
    ArgStringsOfLayout(r, argv);
    r
  }

  /**
   * rebuild_itself: when the source is newer than the binary, run
   * `gcc __FILE__ -Wall -Wextra -o cb`, then the binary again as
   * `{ .cmd_name = argv[0], .argv = argv }`, and report true.
   */
  method RebuildItself(thisFile: CStr, argv: seq<CStr>, sourceTime: nat, binaryTime: nat, world: World)
    returns (rebuilt: bool, st: Stage)
    requires |argv| >= 1
    ensures rebuilt == NeedsRebuild(sourceTime, binaryTime)
    ensures rebuilt ==> st == RebuildStage(thisFile, argv, world)
    ensures !rebuilt ==> st == Stage([], Completed)
  {
    if sourceTime > binaryTime {
      var gccCmd := GccCommand(thisFile);
      var binCmd := Command(argv[0], MainArgv(argv));
      assert InvocationOf(binCmd) == Invocation(argv[0], argv);

      st := RunCommand(gccCmd, world);
      if st.status.Completed? {
        var again := RunCommand(binCmd, world);
        st := Then(st, again);
      }
      rebuilt := true;
    } else {
      rebuilt, st := false, Stage([], Completed);
    }
  }

  /**
   * The tool exits with code 0 or 1 (or not at all, when a wait never
   * ends), and with 0 exactly when it rebuilt itself successfully, or
   * compiled successfully, or was asked to clean.
   */
  lemma MainExitCode(argv: seq<CStr>, thisFile: CStr, sourceTime: nat, binaryTime: nat, world: World)
    requires |argv| >= 1
    ensures MainOutcome(argv, thisFile, sourceTime, binaryTime, world).Exit? ==>
              MainOutcome(argv, thisFile, sourceTime, binaryTime, world).code in {0, 1}
    ensures MainOutcome(argv, thisFile, sourceTime, binaryTime, world) == Exit(0, MainOutcome(argv, thisFile, sourceTime, binaryTime, world).ran)
            <==> if NeedsRebuild(sourceTime, binaryTime) then RebuildStage(thisFile, argv, world).status.Completed?
                 else |argv| >= 2 && ((argv[1] == "compile" && CompileStage(ASM_SOURCES, world).status.Completed?)
                                      || argv[1] == "clean")
  {
  }

  /** Without a sub-command, or with one that is not known, a fresh tool exits 1 and runs nothing. */
  lemma MainRejectsMissingOrUnknownCommand(argv: seq<CStr>, thisFile: CStr, sourceTime: nat, binaryTime: nat, world: World)
    requires |argv| >= 1 && !NeedsRebuild(sourceTime, binaryTime)
    requires |argv| < 2 || argv[1] !in {"compile", "make-iso", "run-qemu", "clean"}
    ensures MainOutcome(argv, thisFile, sourceTime, binaryTime, world) == Exit(1, [])
  {
  }

  /**
   * A stale binary runs gcc first and then itself with the original argv,
   * nothing else; when both exit with 0 the tool exits with 0.
   */
  lemma StaleBinaryRebuildsThenReruns(argv: seq<CStr>, thisFile: CStr, sourceTime: nat, binaryTime: nat, world: World)
    requires |argv| >= 1 && sourceTime > binaryTime
    ensures var e := MainOutcome(argv, thisFile, sourceTime, binaryTime, world);
            1 <= |e.ran| <= 2 && e.ran[0] == Gcc(thisFile)
            && (|e.ran| == 2 ==> e.ran[1] == Invocation(argv[0], argv))
    ensures RunOutcome(Gcc(thisFile), world) == Reaped && RunOutcome(Invocation(argv[0], argv), world) == Reaped
            ==> MainOutcome(argv, thisFile, sourceTime, binaryTime, world)
                == Exit(0, [Gcc(thisFile), Invocation(argv[0], argv)])
  {
  }

  /**
   * gcc writes the rebuilt tool to "cb", and the re-run executes argv[0].
   * When argv[0] names that file and gcc left it at least as new as the
   * source, the re-run does not rebuild again: it goes straight to the
   * dispatch. `mtime` gives each file's modification time after gcc ran.
   */
  lemma RerunOfGccOutputIsFresh(argv: seq<CStr>, thisFile: CStr, sourceTime: nat, mtime: CStr -> nat, world: World)
    requires |argv| >= 1 && argv[0] == Gcc(thisFile).argv[5] && mtime(GCC_OUTPUT) >= sourceTime
    ensures MainOutcome(argv, thisFile, sourceTime, mtime(argv[0]), world) == Dispatch(argv, world)
  {
  }

  /**
   * When argv[0] is a path string other than "cb", gcc leaves that file
   * untouched, so the re-run sees the same stale binary and rebuilds once
   * more instead of dispatching: `before` and `after` give the modification
   * times before and after gcc ran. Paths are not resolved here, so "./cb",
   * which names the very file gcc writes, also falls under this lemma.
   */
  lemma RerunOfOtherBinaryStaysStale(argv: seq<CStr>, thisFile: CStr, sourceTime: nat,
                                     before: CStr -> nat, after: CStr -> nat, world: World)
    requires |argv| >= 1 && argv[0] != GCC_OUTPUT && NeedsRebuild(sourceTime, before(argv[0]))
    requires forall f :: f != GCC_OUTPUT ==> after(f) == before(f)
    ensures NeedsRebuild(sourceTime, after(argv[0]))
    ensures MainOutcome(argv, thisFile, sourceTime, after(argv[0]), world).ran[0] == Gcc(thisFile)
  {
  }

  /**
   * Every invocation of a stage but the last exited with code 0, and the
   * last one did too unless the stage ended on a failed or unfinished wait:
   * once a run fails, no later command is started.
   */
  ghost predicate StopsAtFirstFailure(st: Stage, world: World)
  {
    && (forall i :: 0 <= i < |st.ran| - 1 ==> RunOutcome(st.ran[i], world) == Reaped)
    && (FailedRun(st.status) ==> st.ran != [])
    && (st.ran != [] ==> (RunOutcome(st.ran[|st.ran| - 1], world) == Reaped <==> !FailedRun(st.status)))
  }

  /** The stage ended because a command failed or did not finish. */
  predicate FailedRun(status: Status)
  {
    status.Waiting? || (status.Aborted? && status.why.ProcessError?)
  }

  lemma ThenStopsAtFirstFailure(a: Stage, b: Stage, world: World)
    requires StopsAtFirstFailure(a, world) && StopsAtFirstFailure(b, world)
    ensures StopsAtFirstFailure(Then(a, b), world)
  {
    if a.status.Completed? {
      var ran := a.ran + b.ran;
      forall i | 0 <= i < |ran| - 1 ensures RunOutcome(ran[i], world) == Reaped {
        if i >= |a.ran| {
          assert ran[i] == b.ran[i - |a.ran|];
        }
      }
    }
  }

  /** A single run_cmd stops at its own failure. */
  lemma RunStopsAtFirstFailure(inv: Invocation, world: World)
    ensures StopsAtFirstFailure(Run(inv, world), world)
  {
  }

  /** One pass of the loop runs at most one command, and exactly one when it completes. */
  lemma AssembleOneStopsAtFirstFailure(src: CStr, world: World)
    ensures StopsAtFirstFailure(AssembleOne(src, world), world)
    ensures AssembleOne(src, world).status.Completed? ==> |AssembleOne(src, world).ran| == 1
  {
    var obj := FilenameChanged(OBJ_PREFIX, src, OBJ_SUFFIX);
    if obj.Ok? {
      RunStopsAtFirstFailure(Nasm(obj.value, src), world);
    }
  }

  /** compile_project's loop stops at the first command that fails, and runs one command per source when it completes. */
  lemma {:induction false} AssembleStopsAtFirstFailure(srcs: seq<CStr>, world: World)
    ensures StopsAtFirstFailure(AssembleAll(srcs, world), world)
    ensures AssembleAll(srcs, world).status.Completed? ==> |AssembleAll(srcs, world).ran| == |srcs|
  {
    if srcs != [] {
      var first, rest := AssembleOne(srcs[0], world), AssembleAll(srcs[1..], world);
      AssembleStopsAtFirstFailure(srcs[1..], world);
      AssembleOneStopsAtFirstFailure(srcs[0], world);
      ThenStopsAtFirstFailure(first, rest, world);
      assert AssembleAll(srcs, world) == Then(first, rest);
    }
  }

  /** compile_project stops at the first command that fails. */
  lemma CompileStopsAtFirstFailure(srcs: seq<CStr>, world: World)
    ensures StopsAtFirstFailure(CompileStage(srcs, world), world)
  {
    AssembleStopsAtFirstFailure(srcs, world);
    RunStopsAtFirstFailure(MkdirObj(), world);
    ThenStopsAtFirstFailure(Run(MkdirObj(), world), AssembleAll(srcs, world), world);
  }

  /** `inv` is the nasm run of `src`: its object path exists and nasm assembles `src` into it. */
  predicate NasmRunOf(inv: Invocation, src: CStr)
  {
    && FilenameChanged(OBJ_PREFIX, src, OBJ_SUFFIX).Ok?
    && inv == Nasm(FilenameChanged(OBJ_PREFIX, src, OBJ_SUFFIX).value, src)
  }

  /**
   * When compile_project's loop completes, every source had an object path
   * change_filename("./obj", src, "o"), and the loop ran exactly one
   * `nasm -felf32 -o <obj> <src>` per source, in the sources' order.
   */
  lemma {:induction false} AssembleRunsEachSourceOnce(srcs: seq<CStr>, world: World)
    requires AssembleAll(srcs, world).status.Completed?
    ensures |AssembleAll(srcs, world).ran| == |srcs|
    ensures forall i :: 0 <= i < |srcs| ==> NasmRunOf(AssembleAll(srcs, world).ran[i], srcs[i])
  {
    if srcs != [] {
      var rest := srcs[1..];
      AssembleCompletedStep(srcs, world);
      AssembleRunsEachSourceOnce(rest, world);
      forall i | 0 < i < |srcs|
        ensures NasmRunOf(AssembleAll(srcs, world).ran[i], srcs[i])
      {
        AssembleShift(srcs, world, i);
      }
    }
  }

  /** A completed loop completed its first pass, which ran that source's nasm, and then the rest of the loop. */
  lemma AssembleCompletedStep(srcs: seq<CStr>, world: World)
    requires srcs != [] && AssembleAll(srcs, world).status.Completed?
    ensures AssembleAll(srcs[1..], world).status.Completed?
    ensures AssembleAll(srcs, world).ran[0] == AssembleOne(srcs[0], world).ran[0]
    ensures NasmRunOf(AssembleAll(srcs, world).ran[0], srcs[0])
    ensures AssembleAll(srcs, world).ran == AssembleOne(srcs[0], world).ran + AssembleAll(srcs[1..], world).ran
  {
    var first, rest := AssembleOne(srcs[0], world), AssembleAll(srcs[1..], world);
    assert AssembleAll(srcs, world) == Then(first, rest);
    ThenCompleted(first, rest);
  }

  /** Past the first pass, the loop's i-th command is the rest of the loop's (i - 1)-th, for the (i - 1)-th remaining source. */
  lemma AssembleShift(srcs: seq<CStr>, world: World, i: nat)
    requires 0 < i < |srcs| && AssembleAll(srcs, world).status.Completed?
    requires AssembleAll(srcs[1..], world).status.Completed?
    requires AssembleAll(srcs, world).ran == AssembleOne(srcs[0], world).ran + AssembleAll(srcs[1..], world).ran
    ensures AssembleAll(srcs, world).ran[i] == AssembleAll(srcs[1..], world).ran[i - 1]
    ensures srcs[i] == srcs[1..][i - 1]
  {
  }

  /**
   * A completed compile_project ran `mkdir -p obj` and then what its loop
   * over the sources ran, and that loop completed too.
   */
  lemma CompileStageShape(srcs: seq<CStr>, world: World)
    requires CompileStage(srcs, world).status.Completed?
    ensures AssembleAll(srcs, world).status.Completed?
    ensures CompileStage(srcs, world).ran == [MkdirObj()] + AssembleAll(srcs, world).ran
  {
    ThenCompleted(Run(MkdirObj(), world), AssembleAll(srcs, world));
  }

  /** A sequence of two stages completes only when both do; it ran the first's commands and then the second's. */
  lemma ThenCompleted(a: Stage, b: Stage)
    requires Then(a, b).status.Completed?
    ensures a.status.Completed? && b.status.Completed?
    ensures Then(a, b).ran == a.ran + b.ran
  {
  }

  /**
   * `cb compile` on a fresh binary, in a world where both commands exit
   * with 0: `mkdir -p obj`, then `nasm -felf32 -o ./obj/loader.o ./src/loader.asm`,
   * and exit code 0.
   */
  lemma CompileLoaderExample(argv: seq<CStr>, thisFile: CStr, sourceTime: nat, binaryTime: nat, world: World)
    requires |argv| >= 2 && argv[1] == "compile" && sourceTime <= binaryTime
    requires RunOutcome(MkdirObj(), world) == Reaped
    requires RunOutcome(Nasm("./obj/loader.o", "./src/loader.asm"), world) == Reaped
    ensures MainOutcome(argv, thisFile, sourceTime, binaryTime, world)
            == Exit(0, [MkdirObj(), Nasm("./obj/loader.o", "./src/loader.asm")])
  {
    var nasm := Nasm("./obj/loader.o", "./src/loader.asm");
    LoaderCompiled(world, nasm);
    assert Dispatch(argv, world) == Finish(CompileStage(ASM_SOURCES, world));
  }

  /** compile_project completes after `mkdir -p obj` and the one nasm when both exit with 0. */
  lemma LoaderCompiled(world: World, nasm: Invocation)
    requires nasm == Nasm("./obj/loader.o", "./src/loader.asm")
    requires RunOutcome(MkdirObj(), world) == Reaped && RunOutcome(nasm, world) == Reaped
    ensures CompileStage(ASM_SOURCES, world) == Stage([MkdirObj(), nasm], Completed)
  {
    LoaderAssembled(world, nasm);
    assert Run(MkdirObj(), world) == Stage([MkdirObj()], Completed);
    assert Run(nasm, world) == Stage([nasm], Completed);
  }

  /** The loop of compile_project over its one source runs nasm on ./src/loader.asm into ./obj/loader.o. */
  lemma LoaderAssembled(world: World, nasm: Invocation)
    requires nasm == Nasm("./obj/loader.o", "./src/loader.asm")
    ensures AssembleAll(ASM_SOURCES, world) == Run(nasm, world)
  {
    LoaderObjectPath(OBJ_PREFIX, ASM_SOURCES[0], OBJ_SUFFIX);
    assert ASM_SOURCES[1..] == [];
  }
}
