# AxiomOS build tool and text consoles, in Dafny

This project models and proves the cores of AxiomOS in Dafny.

- **`cb`**, the C build tool:
  - its path rewriting (`change_extension`, `change_directory` and the `change_filename` macro);
  - its command construction and echo (`_make_cmd`, `print_cmd`);
  - running a command and waiting for it (`run_cmd`, `run_cmd_async`, `pid_wait`);
  - its actions (`compile_project`, the `make_iso` and `run_qemu` stubs, `clean_objs`);
  - the self-rebuild check (`rebuild_itself`) and the sub-command dispatch of `main`.
- **The three text-mode consoles of the kernel**, all writing the 80x25 VGA text buffer:
  - the Rust `Writer` of `src/vga.rs`, which writes on the bottom row and scrolls;
  - the Rust `Terminal` of `src/kernel.rs`, a row-major cursor that wraps around;
  - the C framebuffer of `src/kernel/framebuffer.{h,c}` and `src/kernel/vga.c`, which stores character and attribute bytes and moves the hardware cursor.
- **`x.py`**, the Python boot script: its `changeExtension` and the banner line that `execute` prints.

Modules follow the program's structure:

| file | module | models |
|---|---|---|
| `outcomes.dfy` | `Outcomes` | `Option` and `Result` |
| `c_memory.dfy` | `CMemory` | C strings in heap cells: `Uninit` after malloc, `strncpy`, reading a NUL-terminated string back |
| `path_transform.dfy` | `PathTransform` | `change_extension`, `change_directory`, `change_filename` |
| `command.dfy` | `Commands` | `Command`, `_make_cmd`, `print_cmd` |
| `process.dfy` | `Processes` | `run_cmd_async`, `pid_wait`, `run_cmd` |
| `build_script.dfy` | `BuildScript` | `compile_project`, the stubs, `rebuild_itself`, `main` |
| `vga_writer.dfy` | `VgaWriter` | `src/vga.rs` |
| `terminal.dfy` | `Terminals` | `src/kernel.rs` |
| `framebuffer.dfy` | `Framebuffer` | `src/kernel/framebuffer.h` and `src/kernel/framebuffer.c` |
| `vga_text.dfy` | `VgaText` | `src/kernel/vga.c` |
| `x_script.dfy` | `BootScript` | `x.py` |

The imperative code stays imperative:

- The scans and `strncpy` copies are `while` loops over `array<Cell>` buffers.
- `_make_cmd` fills an `array<Arg>`.
- `pid_wait` is a `while true` loop.
- `Writer` and `Terminal` are classes over an `array2`/`array` that their methods update in place.
- The framebuffer writers are loops over a 4000-byte `array<bv8>`.

Each method is proved against a specification function:

- `ExtensionChanged`, `DirectoryChanged`, `FilenameChanged`.
- `ArgStrings`, `InfoLine`.
- `WaitOutcome`.
- `AssembleOne`, `AssembleAll`, `CompileStage`, `RebuildStage`.
- `Scrolled`, `AfterByte`, `AfterBytes`.
- `Painted`.
- `CellsWritten`.

The lemmas state what the source promises about those functions.

The operating system is a parameter:

- A `World` says, for each invocation, whether `fork` fails, or which statuses successive `waitpid` calls report.
- Modification times are natural numbers.
- The CRT controller is a small register file.

A PANIC (`exit(1)`) is an `Aborted` stage, and the tool then exits with code 1. A raised framebuffer ASSERT is `Raised('F')`.

## Model

| member | source | states |
|---|---|---|
| CMemory.ReadCString | cb.c:180-182 | A string read from heap cells ends at the first NUL, has no NUL inside, and fails on an uninitialised cell or at the buffer's end |
| CMemory.ReadTerminated | cb.c:180-182 | The cells of a string followed by its NUL read back as that string, whatever follows |
| CMemory.ReadUnterminated | cb.c:181-182 | Characters followed by an uninitialised cell with no NUL do not read as a C string |
| CMemory.StrncpyCells | cb.c:182 | The n bytes strncpy stores: the source's characters, then NUL padding; no terminator when n <= length |
| CMemory.Strncpy | cb.c:182 | The copy and padding loops store exactly StrncpyCells at the offset and leave every other cell unchanged |
| CMemory.ReadLaidOut | cb.c:292-293 | A buffer whose first cells hold a text, then a NUL, reads back as that text |
| CMemory.UnreadCellsIgnored | cb.c:316 | Storing into cells after the terminator of a string does not change the string read |
| PathTransform.LastIndexFrom1 | cb.c:281-285 | The largest index p >= 1 holding the character, with none after it; none when no index >= 1 holds it |
| PathTransform.Scan | cb.c:280-289 | The empty name reads at SIZE_MAX (past the end); no match at an index >= 1 PANICs with "Invalid filename"; otherwise the last match at an index >= 1 |
| PathTransform.ScanBackwards | cb.c:280-289 | The right-to-left loop, from filename_len - 1 down to 1, gives exactly Scan's result, including the wrap-around of the empty name |
| PathTransform.ExtensionChanged | cb.c:275-296 | Fails exactly when no '.' occurs at an index >= 1; otherwise the text through the last such '.', then the extension, of length p + 1 plus the extension's length |
| PathTransform.ExtensionChangedAt | cb.c:281-293 | At a known last '.', the result is the text through it followed by the extension |
| PathTransform.ChangeExtension | cb.c:275-296 | The scan, two strncpy calls and the terminator store into a heap buffer read back as ExtensionChanged, including every error case |
| PathTransform.DirectoryChanged | cb.c:298-319 | Fails exactly when no '/' occurs at an index >= 1; otherwise the prefix followed by the text from the last such '/' on, the '/' kept |
| PathTransform.DirectoryChangedAt | cb.c:304-316 | At a known last '/', the result is the prefix followed by everything from that '/' |
| PathTransform.ChangeDirectory | cb.c:298-319 | The scan and copies into a buffer of filename_len + prefix_len + 1 cells read back as DirectoryChanged, including every error case |
| PathTransform.PrefixThenTail | cb.c:314-316 | The prefix copied without its NUL, then the tail copied with its NUL, read back as prefix followed by tail |
| PathTransform.CopyPrefixAndTail | cb.c:314-316 | The two strncpy calls and the extra NUL store leave a buffer that reads as the prefix followed by the tail |
| PathTransform.FilenameChanged | cb.c:129-130 | A rewritten source path starts with the new directory prefix and needs a '.' at an index >= 1; a name with no such '.' PANICs with "Invalid filename" |
| PathTransform.ChangeFilename | cb.c:129-130 | The macro's composition: change_extension first, and change_directory on its result |
| PathTransform.FilenameChangedAt | cb.c:129-130 | With the last '/' before the last '.', and no '/' in the suffix, the result is the prefix, then the text from that '/' through that '.', then the suffix |
| PathTransform.DirectoryOfName | cb.c:304-316 | A path dir/name whose name has no '/' moves to prefix/name |
| PathTransform.LoaderObjectPath | cb.c:134-141 | change_filename("./obj", "./src/loader.asm", "o") is "./obj/loader.o" |
| PathTransform.IndexZeroNeverExamined | cb.c:281-289 | A '.' or '/' found only at index 0 is not found: ".bashrc" and "/boot" both PANIC |
| PathTransform.ExtensionAllocationAsWritten | cb.c:278 | cb.c allocates filename_len + ext_len cells, which hold every character of the result but not always its NUL |
| PathTransform.ExtensionTerminatorFitsAsWritten | cb.c:278-293 | As written, the terminator's index is below the allocation of filename_len + ext_len exactly when the name does not end in '.' |
| PathTransform.TrailingPeriodOverrunsAsWritten | cb.c:278-293 | As written, change_extension("obj.", "o") stores its NUL at index 5 of a 5-byte buffer |
| Commands.ArgStrings | cb.c:191-195 | The strings an argv points at, up to its NULL; each entry before the NULL reads as its string |
| Commands.ArgStringsOfLayout | cb.c:172-187 | Terminated copies of the words, in order, followed by NULL, read back as exactly those words |
| Commands.MakeCmd | cb.c:157-189 | argv has two entries more than there are arguments: the program first, then the arguments in order, then NULL; cmd_name is the program; argv reads back as [program] + args |
| Commands.CopyArg | cb.c:179-182 | A per-argument copy into a fresh buffer of str_len + 1 cells is the argument with its terminator |
| Commands.ArgCopyUnterminatedAsWritten | cb.c:180-182 | As written, the strncpy of str_len bytes leaves the last cell uninitialised, and the copy does not read as a C string |
| Commands.ArgCopyAsWritten | cb.c:180-182 | As written, an argument copy is str_len + 1 cells: the characters, then one uninitialised cell, and no NUL anywhere |
| Commands.PrintCmd | cb.c:191-197 | The line is "INFO:", then " " and each string before the NULL, in order, then a newline |
| Commands.Spaced | cb.c:193-195 | Each word is preceded by one space: the text is empty exactly when there are no words, and otherwise starts with a space |
| Commands.SpacedSnoc | cb.c:193-195 | One more argument adds one space and that argument at the end of the text |
| Commands.InfoLine | cb.c:192-196 | The line starts with "INFO:", ends with a newline, and holds the spaced arguments in between; an empty argv gives "INFO:" and a newline |
| Processes.WaitOutcome | cb.c:219-242 | pid_wait returns exactly when the first status that is not a stop or continue is an exit with 0; it is still waiting exactly when every status is one; an ExitedNonZero result carries the pid and the code of that first deciding exit; fork failure is never its outcome (the forward direction is WaitReportsDecidingStatus) |
| Processes.WaitDecidedAt | cb.c:219-242 | The first status that is not a stop or continue decides the outcome: a failed waitpid, a non-zero exit or a signal PANICs |
| Processes.WaitReportsDecidingStatus | cb.c:222-240 | When the first status that is not a stop or continue is an exit with code c other than 0, pid_wait PANICs with ExitedNonZero(pid, c); a signal gives KilledBySignal of that signal; a failed waitpid gives CannotWait(pid) |
| Processes.Classify | cb.c:222-240 | A stop or continue report waits again, and every other status decides; only an exit with 0 returns; a non-zero exit c gives exactly ExitedNonZero(pid, c), a signal KilledBySignal of it, a failed waitpid CannotWait(pid), and each such failure comes from that status |
| Processes.PidWait | cb.c:219-242 | The `while (true)` loop over waitpid reports exactly WaitOutcome |
| Processes.RunCmdAsync | cb.c:199-212 | A fork failure is "cannot make a process"; otherwise the parent gets the child's pid |
| Processes.RunCmd | cb.c:214-217 | Echoes the command's InfoLine, then waits for the child it spawned; the outcome is that of spawn-then-wait |
| Processes.RunOutcome | cb.c:199-217 | run_cmd fails with "cannot make a process" exactly when fork fails; otherwise its outcome is pid_wait on the child's statuses |
| BuildScript.RunCommand | cb.c:214-217 | One run_cmd as a stage: the invocation, and whether it completed, PANICked or is still waiting |
| BuildScript.AssembleOne | cb.c:141-143 | One loop pass runs at most one command, and exactly one when it completes; a change_filename failure runs nothing |
| BuildScript.AssembleAll | cb.c:140-144 | The loop runs at most one command per source, and exactly one per source when it completes |
| BuildScript.CompileStage | cb.c:132-145 | compile_project always runs `mkdir -p obj` first, then at most one command per source, and exactly one per source when it completes |
| BuildScript.MakeIsoStage | cb.c:147-149 | make_iso PANICs before running anything: the tool exits 1 with no command run |
| BuildScript.RunQemuStage | cb.c:151-153 | run_qemu PANICs before running anything: the tool exits 1 with no command run |
| BuildScript.CleanStage | cb.c:271 | clean_objs does nothing: the tool exits 0 with no command run |
| BuildScript.NeedsRebuild | cb.c:255 | A rebuild happens exactly when the binary is strictly older than the source; equal times do not rebuild |
| BuildScript.RebuildStage | cb.c:255-265 | A stale binary runs gcc first; the binary is re-run with the same argv exactly when gcc exits with 0; the stage completes exactly when both exit with 0 |
| BuildScript.Dispatch | cb.c:95-115 | Exit code 0 or 1; no sub-command exits 1; only compile runs commands; make-iso and run-qemu exit 1 with nothing run; exit 0 exactly for a completed compile or for clean |
| BuildScript.MainOutcome | cb.c:90-116 | A stale binary runs gcc and then at most the re-run of argv[0] with the same argv; a fresh binary behaves as the dispatch |
| BuildScript.MkdirCommand | cb.c:138 | make_cmd("mkdir", "-p", "obj") makes execvp receive `mkdir -p obj` |
| BuildScript.NasmCommand | cb.c:141-142 | The nasm command makes execvp receive `nasm -felf32 -o obj src` |
| BuildScript.GccCommand | cb.c:256 | The gcc command makes execvp receive `gcc <file> -Wall -Wextra -o cb` |
| BuildScript.MakeObjDir | cb.c:138 | compile_project's first step is the mkdir run |
| BuildScript.AssembleSource | cb.c:140-143 | One loop pass: a change_filename failure PANICs before anything runs, otherwise nasm runs on the object path |
| BuildScript.CompileProject | cb.c:132-145 | mkdir, then one pass per source, stopping at the first PANIC, as CompileStage says |
| BuildScript.MainArgv | cb.c:90-91 | Main's argv as a NULL-terminated array reads back as its strings |
| BuildScript.RebuildItself | cb.c:244-269 | Rebuilds exactly when the source mtime is strictly greater than the binary's; it then runs gcc, then the binary with the same argv, stopping when gcc fails |
| BuildScript.MainExitCode | cb.c:90-116 | The tool exits 0 or 1, and 0 exactly when it rebuilt successfully, or (fresh) compile completed, or the command was clean; make-iso and run-qemu PANIC |
| BuildScript.MainRejectsMissingOrUnknownCommand | cb.c:95-113 | Without a sub-command, or with an unknown one, a fresh tool exits 1 and runs nothing |
| BuildScript.StaleBinaryRebuildsThenReruns | cb.c:91-93 | A stale binary runs gcc and then itself with the original argv, nothing else, and exits 0 when both succeed |
| BuildScript.RerunOfGccOutputIsFresh | cb.c:91-93 | rebuild_itself(argv[0], argv) stats argv[0] and re-runs it, while gcc writes "cb" (cb.c:252-263). When argv[0] names the file "cb" that gcc writes, and gcc left it at least as new as the source, the re-run does not rebuild but dispatches |
| BuildScript.RerunOfOtherBinaryStaysStale | cb.c:91-93 | When argv[0] names another file, which gcc does not write, the re-run sees the same stale binary and starts with gcc again |
| BuildScript.ThenStopsAtFirstFailure | cb.c:214-242 | Sequencing two stages keeps the property that no command starts after one failed |
| BuildScript.AssembleStopsAtFirstFailure | cb.c:140-144 | The assemble loop stops at the first failing command, and a completed loop ran one command per source |
| BuildScript.CompileStopsAtFirstFailure | cb.c:132-145 | Every command compile_project ran before the last exited 0, and the last failed exactly when the stage failed on a run |
| BuildScript.AssembleRunsEachSourceOnce | cb.c:140-144 | A completed loop found an object path for every source and ran exactly one `nasm -felf32 -o <obj> <src>` per source, in order |
| BuildScript.AssembleCompletedStep | cb.c:140-144 | A completed loop ran its first source's nasm, and then what the completed rest of the loop ran |
| BuildScript.CompileStageShape | cb.c:138-144 | A completed compile ran `mkdir -p obj` and then exactly what its assemble loop ran |
| BuildScript.CompileLoaderExample | cb.c:101-102 | `cb compile` on a fresh binary, with both commands succeeding, runs mkdir and `nasm -felf32 -o ./obj/loader.o ./src/loader.asm`, then exits 0 |
| VgaWriter.Color.Code | src/vga.rs:13-30 | The repr(u8) values of the colours are below 16 |
| VgaWriter.CodeInjective | src/vga.rs:13-30 | Distinct colours have distinct codes |
| VgaWriter.VgaColor.New | src/vga.rs:37-39 | The low nibble of the colour byte is fg and the high nibble is bg |
| VgaWriter.NewColorInjective | src/vga.rs:37-39 | The colour byte determines both colours |
| VgaWriter.BlankRow | src/vga.rs:107-115 | The cleared row is 80 spaces in the current colour |
| VgaWriter.Scrolled | src/vga.rs:95-105 | After new_line, row r is the old row r + 1, row 24 is blank in the current colour, and the column is 0 |
| VgaWriter.WithCell | src/vga.rs:85 | A single cell store changes that cell and no other |
| VgaWriter.AfterByte | src/vga.rs:73-89 | write_byte keeps the screen well formed (what it writes is stated by ByteWritesOneCell, FullRowScrollsFirst and WritesStayOnBottomRow) |
| VgaWriter.AfterBytes | src/vga.rs:119-124 | write_str keeps the screen well formed and the colour unchanged (its layout is stated by TextOnBottomRow and NewlineResetsColumn) |
| VgaWriter.ByteWritesOneCell | src/vga.rs:81-86 | A non-newline byte at column < 80 changes only cell (24, column) to (byte, colour) and advances the column by one |
| VgaWriter.FullRowScrollsFirst | src/vga.rs:77-86 | A non-newline byte at column >= 80 scrolls first, then lands in column 0 of the blank bottom row, leaving the column at 1 |
| VgaWriter.WritesStayOnBottomRow | src/vga.rs:77-86 | The column never passes 80, and the only cell a byte changes is on row 24 at a column below 80 |
| VgaWriter.TextOnBottomRow | src/vga.rs:119-124 | A newline-free text that fits on the bottom row is laid out there in order, in the current colour, and nothing else changes |
| VgaWriter.NewlineResetsColumn | src/vga.rs:75 | After a trailing newline the column is 0 and the bottom row is blank |
| VgaWriter.Writer.constructor | src/vga.rs:60-66 | The global writer starts at column 0, light cyan on black |
| VgaWriter.Writer.ChangeColor | src/vga.rs:69-71 | Only the colour changes; the grid and the column are untouched |
| VgaWriter.Writer.ClearRow | src/vga.rs:107-115 | Row r becomes spaces in the current colour, and no other row changes |
| VgaWriter.Writer.ShiftRowsUp | src/vga.rs:96-101 | The nested loop moves every row r to row r - 1 and leaves row 24 as it was |
| VgaWriter.Writer.NewLine | src/vga.rs:95-105 | The grid in place becomes Scrolled of the old screen |
| VgaWriter.Writer.WriteByte | src/vga.rs:73-89 | The screen in place becomes AfterByte of the old screen |
| VgaWriter.Writer.WriteStr | src/vga.rs:118-124 | The screen becomes AfterBytes of the old screen, write_byte for each byte in order, and the result is Ok |
| Terminals.VgaColor.Code | src/kernel.rs:7-24 | The repr(u8) values of the colours are below 16 |
| Terminals.VgaEntryColor | src/kernel.rs:27-29 | The low nibble is fg and the high nibble is bg |
| Terminals.DefaultColorIsSeven | src/kernel.rs:56 | Light grey on black is 7 |
| Terminals.VgaEntry | src/kernel.rs:32-34 | The cell's low byte is the character and its high byte the colour |
| Terminals.EntryRoundTrip | src/kernel.rs:32-34 | Every 16-bit cell is the entry of its own character and colour |
| Terminals.IndexOnScreen | src/kernel.rs:64 | On-screen (x, y) has index y * 80 + x below 2000, and x and y come back from it |
| Terminals.Painted | src/kernel.rs:99-103 | write_string's effect keeps the 2000 cells (where each character lands is stated by PaintedCells) |
| Terminals.PaintedCells | src/kernel.rs:99-103 | For up to 2000 characters, character i lands at linear position (start + i) mod 2000, and no other cell changes |
| Terminals.Terminal.constructor | src/kernel.rs:49-72 | The cursor is at (0, 0), the colour is light grey on black, and all 2000 cells are spaces in that colour |
| Terminals.Terminal.SetColor | src/kernel.rs:75-77 | Only the colour changes |
| Terminals.Terminal.PutEntryAt | src/kernel.rs:79-84 | Exactly cell y * 80 + x becomes the entry of (c, color) |
| Terminals.Terminal.PutChar | src/kernel.rs:86-97 | The character goes to the cursor in the current colour; the cursor stays on screen and moves to the next linear position mod 2000 |
| Terminals.Terminal.WriteString | src/kernel.rs:99-103 | The buffer becomes Painted from the old cursor, and the cursor advances by the text's length mod 2000 |
| Framebuffer.ScreenConstants | src/kernel/framebuffer.h:5-28 | 2000 cells of 4000 bytes; the colours are 0 .. 15 in order, and masking with 0x0F leaves them unchanged |
| Framebuffer.Coordinate | src/kernel/framebuffer.h:30 | For x < 80, x and y are the remainder and quotient by 80; on screen the coordinate is below 2000 |
| Framebuffer.CoordinateInjective | src/kernel/framebuffer.h:30 | Different on-screen positions have different coordinates |
| Framebuffer.KmainCoordinates | src/kernel/kmain.c:6-7 | COORDINATE(0, 3) is 240 and COORDINATE(40, 12) is 1000 |
| Framebuffer.Attribute | src/kernel/framebuffer.c:24 | The attribute's low nibble is fg mod 16 and its high nibble bg mod 16 |
| Framebuffer.CellsWritten | src/kernel/framebuffer.c:48-51 | Cells pos + i take text[i] with the attribute, and every byte outside them is unchanged |
| Framebuffer.WriteCell | src/kernel/framebuffer.c:19-25 | Index i < 2000 sets bytes 2i and 2i + 1 and nothing else; any other index raises 'F' and writes nothing |
| Framebuffer.NWrite | src/kernel/framebuffer.c:44-52 | For pos < 2000 the first len characters go to cells pos, pos + 1, ... and nothing else changes; otherwise it raises 'F' |
| Framebuffer.Strlen | src/kernel/framebuffer.c:58 | The index of the first NUL |
| Framebuffer.Write | src/kernel/framebuffer.c:54-62 | Same effect as NWrite with the string's length: the loop stops at the first NUL |
| Framebuffer.SplitJoin | src/kernel/framebuffer.c:29-40 | The two bytes of a position join back to that position |
| Framebuffer.JoinSplit | src/kernel/framebuffer.c:29-40 | Splitting joined bytes gives them back |
| Framebuffer.Outb | src/kernel/framebuffer.c:28-31 | A write to the command port selects a register and keeps every register; a write to the data port stores the byte in the selected register, where the data port reads it back, and keeps every other register |
| Framebuffer.Inb | src/kernel/framebuffer.c:38-40 | Reading the data port gives the selected register, 0 for one never written; other ports read 0 |
| Framebuffer.MoveCursor | src/kernel/framebuffer.c:27-32 | Register 14 holds the high byte, register 15 the low byte, and every other register keeps its value |
| Framebuffer.GetCursorPos | src/kernel/framebuffer.c:35-42 | Reading the cursor leaves the registers unchanged |
| Framebuffer.CursorRoundTrip | src/kernel/framebuffer.c:27-42 | fb_get_cursor_pos returns the position fb_move_cursor last set |
| VgaText.WriteCell | src/kernel/vga.c:5-8 | Byte i becomes c, byte i + 1 the attribute (fg and bg nibbles), and no other byte changes |
| BootScript.BeforeFirstDot | x.py:26 | `split(".")[0]` is a prefix without '.', stopping at the first '.' or the end |
| BootScript.ChangeExtension | x.py:25-26 | The result ends in "." + ext; what precedes it is the name up to its first '.' |
| BootScript.NoDotAppends | x.py:26 | A name with no '.' gets "." + ext appended |
| BootScript.LeadingDotLosesName | x.py:26 | A name starting with '.' becomes just "." + ext |
| BootScript.ChangeExtensionIdempotent | x.py:26 | Changing the extension twice to the same one is the same as changing it once, for every extension |
| BootScript.FirstDotAgainstLastDot | x.py:26 | On "./src/a.asm" the script gives ".o", while the build tool's change_extension gives "./src/a.o" |
| BootScript.Banner | x.py:29-34 | The line is the info header, then msg when given and otherwise the command, then the newline that print adds |

## Left out

- Real `fork`, `execvp`, `waitpid` and `strsignal` are not modelled. A `World` function plays the operating system. A child whose `execvp` fails PANICs, which the parent sees as `Exited(1)`; that case is one of the statuses the World may report.
- A finite list of wait statuses can run out while `pid_wait` would still call `waitpid`. The model reports this state as `StillWaiting`, and the tool exit as `Hang`. It is not a state of the real program, only of the finite model.
- `stat` and `__FILE__` are not modelled. Both modification times and the source path are inputs. A failing `stat` is not modelled.
- Text that cb.c writes to stderr or stdout is mostly left out:
  - the PANIC messages;
  - the usage text `COMMAND_MESSAGE`;
  - the ANSI attributes.
  `print_cmd`'s line is returned as a string, without the attributes around "INFO:".
- `malloc` never fails, and the leaked buffers are not tracked.
- `make_iso` and `run_qemu` PANIC, so `cb make-iso` and `cb run-qemu` exit 1. `clean_objs` does nothing, so `cb clean` exits 0. The model follows the code here.
- The gcc command writes the binary "cb", whatever argv[0] is; the model copies that command as written. Files are named by their path strings, so "./cb" and "cb" are different files here: path resolution is not modelled.
- BuildScript.MainOutcome: requires argv[0], so `main` with argc == 0 is not modelled. There cb.c passes a NULL argv[0] to `stat` and as the re-run's program name.
- BuildScript.RebuildStage: requires argv[0], for the same reason as MainOutcome.
- BuildScript.RebuildItself: requires argv[0], for the same reason as MainOutcome.
- `size_t` matters only where `filename_len - 1` wraps around to SIZE_MAX on an empty name. All other lengths are unbounded naturals, because no other size in this core can come near 2^64.
- `lazy_static`, `spin::Mutex`, `_print` and the `print!`/`println!` macros of `src/vga.rs` are not modelled, because they are locking and formatting machinery. `Volatile` reads and writes are plain array accesses.
- `Writer::write_string` is `write_str` followed by `unwrap`. `WriteStr` proves the result is always Ok, so the unwrap cannot panic.
- The fixed address 0xB8000 is not used:
  - `Writer` is built over a grid passed in.
  - `Terminal` allocates its array.
  - The framebuffer functions take their byte array as a parameter.
- `MaybeUninit` initialisation in `Terminal::new` is plain field assignment.
- `outb` and `inb` are modelled by a small CRT-controller register file, `Crtc`:
  - writing the command port selects a register;
  - writing the data port stores into the selected register;
  - reading the data port returns the selected register.
  Real port I/O is not modelled.
- `raise_error` becomes the `Raised('F')` outcome. Its effect on the rest of the kernel is not modelled.
- `kmain` as a whole is not modelled; only the two coordinates it computes are checked.
- `src/main.rs`, `bootloader/src/main.rs`, `src/error.rs` and `build.rs` are not part of this model.
- Parts of x.py are left out because they are process and file I/O:
  - `argparse`;
  - `execute`'s callback and `os.system` call;
  - `shutil`;
  - writing the GRUB configuration file.
- VgaWriter.Writer.ClearRow: requires row < 25. Rust would panic on a larger index, but the only caller, `new_line`, passes 24.
- Terminals.Terminal.PutEntryAt: requires y * 80 + x < 2000. The Rust code writes through `buffer.add(index)` without a check.
- Framebuffer.NWrite: requires pos + len <= 2000 when pos < 2000. The C ASSERT checks only pos, and a longer text writes past the 4000-byte buffer.
- Framebuffer.Write: requires a NUL in the buffer and pos + strlen <= 2000 when pos < 2000, for the same reason as NWrite.
- VgaText.WriteCell: requires i + 1 < buffer length. The C code checks nothing.
- PathTransform.ChangeExtension: allocates one cell more than cb.c, the size the terminator needs (see Findings).
- Commands.MakeCmd: copies each argument with its terminator, str_len + 1 bytes, where cb.c copies str_len (see Findings).

## Findings

| source | as written | input that shows it | evidently intended | confidence | as-written member | corrected member |
|---|---|---|---|---|---|---|
| cb.c:278-293 | change_extension allocates filename_len + ext_len bytes but stores the NUL at index period + ext_len + 1. That index equals the allocation size when the name ends in '.' | change_extension("obj.", "o"): NUL at index 5 of a 5-byte buffer | allocate filename_len + ext_len + 1 bytes | not executed | PathTransform.TrailingPeriodOverrunsAsWritten | PathTransform.ChangeExtension |
| cb.c:180-182 | _make_cmd allocates str_len + 1 bytes per argument but strncpy copies only str_len of them, so the copy has no terminator | any argument, e.g. the "-p" of make_cmd("mkdir", "-p", "obj") | copy str_len + 1 bytes, terminator included | not executed | Commands.ArgCopyUnterminatedAsWritten | Commands.MakeCmd |
