# Existent-OS: models and proofs

Existent-OS is a small UEFI loader with a command terminal, and a kernel that takes over from it.
This project models the parts of it that hold logic and proves what they do for every input, every
run or every reachable state.

| file | what it models |
|---|---|
| `Text.dfy`, `Machine.dfy` | 16-bit text units, bytes, C strings in buffers; machine words |
| `Tokenizer.dfy` | the tokenizer that cuts a command in place, in one static line buffer |
| `Segments.dfy` | the pointer loops: trimming copier, substring search, name matching, raw argument tail |
| `Scripts.dfy` | the two line splitters, of `source` and of the start-up batch |
| `Files.dfy` | the bounded loops behind `write`, `append` and `cat` |
| `Semantics.dfy` | what a command line does, without any buffer |
| `Terminal.dfy` | the terminal with its static variables and its shared buffer, proved against `Semantics` |
| `Sequencing.dfy` | `&` flattens to a left-to-right run; a deeper nesting bound changes nothing |
| `Termination.dfy` | an execution ends if and only if the scripts it reaches can be ordered; cycles never end |
| `Commands.dfy` | what each executed command line does, field by field; which line stops the shell |
| `Trimming.dfy` | for which `&`-free lines blanks around them can be noticed |
| `RoundTrips.dfy` | `append` then `source`; `echo` into `grep`; what `write` leaves behind |
| `Safety.dfy` | what every execution keeps; when drive letter and path agree |
| `Divergences.dfy` | for each surprise listed below, an input that reaches it |
| `LineEditor.dfy` | the keyboard line editor and what it shows |
| `Interrupts.dfy` | descriptor table, processor entry, assembly stubs, common part, `iretq` |
| `Handoff.dfy` | the retry loop around ExitBootServices |
| `Accounts.dfy` | the account table, its store and the session, over runs with any number of reboots |
| `Pci.dfy` | packed configuration address, lanes of a read, the device search |

Code that works by changing things in place is a class or a method over arrays with loops; each of
these is proved against a function of its old state, and the laws are proved about that function.

## How the terminal is modelled

`Terminal.Shell` has the static variables of the terminal as fields and the one static line buffer
of the tokenizer as an array. A parsed command is a list of offsets into that array, and every word
is read from the array at the moment the code reads it. `Semantics.Run` says what a command line
does to the terminal's state without mentioning a buffer. That the executor meets it is the
statement that nested runs, which all overwrite the buffer, never disturb each other.

Nothing in the program bounds how deeply scripts may source each other. `Run` is therefore indexed
by the nesting still allowed and answers `TooDeep` when it is used up. `Deeper` shows that the
number never changes an outcome. `EndsIffOrdered` says when there is one: for scripts that no
executed command rewrites, a line comes to an end if and only if the scripts it reaches can be
ranked so that each sources only lower ones. So no line that reaches a cycle ends, however long the
cycle is and wherever in the scripts it closes (`CycleNeverEnds`); where the first commands of the
scripts close it, it does not matter what the rest rewrites (`FirstLinesNeverEnd`). The executor
itself takes no nesting number: its contract speaks about every execution that has an outcome.

`Run` is in turn tied to laws about executed lines that do not mention it being built from parts:
one law per command in `Commands.dfy`, and the laws of sequences, pipelines, scripts and batch lines.

Parameters of the model: the wording of fixed messages, the names of the commands that only print
one, and the effect of commands that other parts implement (`nano`, `whoami`, `users`, `useradd`,
`passwd`, `login`, and the listing behind `dir` and `ls`).

## Where the code does something else than one would expect

Each of these has its exact condition, and in `Divergences.dfy` an input that reaches it.

- A line is trimmed only in pieces: with `&` every piece is trimmed, without `&` the line is taken
  as it is. `TrimmedLineRuns` says exactly which `&`-free lines behave differently because of that:
  a pipeline behind two or more blanks whose spoiled text holds the pattern, and `system` with a
  space in front or blanks behind its arguments. Inputs: `BlanksBeforePipeline` (two blanks in front
  of `echo x|grep x` make it show `o x`) and `SpaceBeforeSystem`.
- `source` reads 4095 bytes, but the append/source round trip holds up to 4096: the byte it misses
  at that size is the last line feed (`AppendSourceRoundTrip`). Input: `ManyAppends`, where 2048
  appends of one unit come back and 2049 do not.
- The two splitters agree on more texts than those with returns only in front of line feeds: leading
  returns and runs of them do no harm. `SplittersAgree` gives the exact condition; text behind an
  interior return (`InteriorReturn`) is one command to `source` and two to the batch runner.
- `write` starts at the front of a file and does not cut it off (`WriteReplaces`; input:
  `WriteLeavesTail`).
- `cd` and `dir` store a drive letter before they check it. Over a whole execution, drive and path
  agree exactly if the letter stored last is a volume's (`DriveMatchesPath`; input:
  `DriveThatIsNone`, which is `cd A:` at the start).
- A script may source itself, and the terminal then never answers (`EndsIffOrdered`; input:
  `SecondLineLoops`, a script whose second line sources it).
- `exit` only stops the shell as the last command of a typed line, not in front of an `&` and not in
  a script (`StopsIfLast`; input: `ExitIsLost`, which is `exit&rem`).
- With echo off, a backspace still erases a unit on the screen, and so eats into a password prompt
  (`HiddenErasesPrompt`, `HiddenKeepsPrompt`; input: `PromptIsErased`).
- A backspace on a full line takes away an earlier key than the one just typed (`BackspaceCancels`;
  inputs: `FullLineLosesKey`).
- `accounts_add` and `accounts_change_password` report failure when only the save failed, but keep
  the change in memory (`FailureIsNotRollback`; input: `UnsavedAccountStays`).
- With a descriptor size of 0, the handoff returns success without having left boot services. Of the
  returns with success, these are exactly the ones that have not left them
  (`Handoff.Loader.LeaveBootServices`; input: `SizeZeroIsNotLeft`).

## Model

| member | source | states |
|---|---|---|
| Tokenizer.ParseCommand | OSC/boot/efi_main.c:177-211 | each pointer heads a terminated region of the buffer holding its word; the words are the first `max_args` words of the first 127 units; the regions are in order, disjoint and inside the buffer |
| Tokenizer.WordsCharacterised | OSC/boot/efi_main.c:189-208 | the words of a text are the only blank-free pieces it can be woven from with blank gaps |
| Tokenizer.JoinRoundTrip | OSC/boot/efi_main.c:177-211 | parsing the space-join of words that fit the buffer gives back those words |
| Segments.CopySegment | OSC/boot/efi_main.c:226-233 | the buffer holds the trimmed segment, cut to 127 units, and its terminator |
| Segments.TrimCore | OSC/boot/efi_main.c:229-230 | whatever blanks surround a trimmed core, trimming gives that core |
| Segments.Contains | OSC/boot/efi_main.c:213-224 | the nested loops find a needle exactly when it is a contiguous substring |
| Segments.MatchCommand | OSC/boot/efi_main.c:48-56 | true exactly for the name itself or the name followed by a space |
| Segments.CommandArgs | OSC/boot/efi_main.c:58-69 | points to the text behind the first run of spaces |
| Scripts.SourceByLines | OSC/boot/efi_main.c:346-354 | the byte accumulator issues each line without its returns, cut to 127 units, unless empty |
| Scripts.BatchByLines | OSC/boot/efi_main.c:665-688 | the pointer scan breaks each line at returns and after every 127 units |
| Scripts.LinesAreCut | OSC/boot/efi_main.c:346-354 | the lines of both splitters are the pieces without line feeds that give back the text when set together with line feeds |
| Scripts.ReturnIsDropped | OSC/boot/efi_main.c:347-347 | dropping returns drops each of them, wherever it stands, and nothing else |
| Scripts.SplittersAgree | OSC/boot/efi_main.c:346-354 | both splitters issue the same commands if and only if every line is tidy (no text behind an interior return, at most 127 units); otherwise the batch runner issues strictly more |
| Semantics.ScriptsAgree | OSC/boot/efi_main.c:340-354 | the same for what `source` reads of a file of at most 4095 bytes |
| Semantics.FirstEightWords | OSC/boot/efi_main.c:177-211 | a command has the first eight words of the first 127 units of its line |
| Files.BuildPayload | OSC/boot/efi_main.c:320-329 | the stored line is the joined words cut to 126 bytes and a line feed, and the buffer is never overrun |
| Files.PayloadBytes | OSC/boot/efi_main.c:325-329 | byte i of a stored line is the low byte of unit i of the joined words, for at most 126 of them, and the last byte is a line feed |
| Files.CatIsExact | OSC/boot/efi_main.c:288-294 | `cat` shows exactly the bytes of a file of any length if and only if it has no NUL, and less otherwise |
| Files.CatByChunks | OSC/boot/efi_main.c:288-294 | for every file, NULs or not: cut into pieces of 120 bytes and a shorter last one, `cat` shows each piece up to its first NUL |
| Terminal.Shell.CatFile | OSC/boot/efi_main.c:281-298 | the chunked loop shows every chunk up to its first NUL, then a line end; a missing file shows nothing |
| Terminal.Shell.WriteFile | OSC/boot/efi_main.c:317-334 | the payload is laid over the file at its front or at its end, and nothing is cut off |
| Terminal.Shell.ExecuteCommand | OSC/boot/efi_main.c:358-659 | every execution that ends does to the terminal, and returns, what the buffer-free meaning says, whatever the shared buffer held |
| Terminal.Shell.ExecuteOrdered | OSC/boot/efi_main.c:336-373 | with ordered scripts the executor ends, keeps the scripts, and has run the trimmed segments in turn |
| Terminal.Shell.TryPipeline | OSC/boot/efi_main.c:241-266 | -1 and nothing changed without `\|`; otherwise the pipeline's output, with the pattern read from the buffer after its reuse |
| Terminal.Shell.SourceFile | OSC/boot/efi_main.c:336-356 | executes the script's lines in order, as they stood when it was read |
| Terminal.Shell.RunBatchFile | OSC/boot/efi_main.c:661-689 | executes the batch lines in order, each behind the prompt while echo is on |
| Semantics.EchoSegmentIsLong | OSC/boot/efi_main.c:253-263 | the five units the pipeline skips never pass the `\|` |
| Sequencing.SequencingFlattens | OSC/boot/efi_main.c:358-373 | a line of at most 127 units runs as its trimmed `&`-separated segments from left to right, with the last one's result |
| Sequencing.Deeper | OSC/boot/efi_main.c:336-373 | more nesting never changes an outcome |
| Termination.Terminates | OSC/boot/efi_main.c:336-373 | execution ends within nesting `depth` if the line sources only scripts ranked below it, every script sources only lower ones and no executed command rewrites one; the scripts are then unchanged |
| Termination.RunEnds | OSC/boot/efi_main.c:336-373 | executing a line ends within a nesting if and only if no chain of sourced scripts in the text of the files is longer: whether a line ends does not depend on the terminal's state |
| Termination.EndsIffOrdered | OSC/boot/efi_main.c:336-373 | for scripts that no executed command rewrites: some nesting suffices if and only if the scripts the line reaches can be ranked so that each sources only lower ones |
| Termination.CycleNeverEnds | OSC/boot/efi_main.c:336-356 | a line that reaches a cycle of scripts of any length, closed on any of their lines, has no outcome at any nesting |
| Termination.FirstLinesNeverEnd | OSC/boot/efi_main.c:465-468 | scripts whose first commands source one another have no outcome at any nesting, whatever their other lines rewrite |
| Semantics.SegmentShrinks | OSC/boot/efi_main.c:366-372 | both halves around `&` are strictly shorter than the line |
| Commands.GrepLine | OSC/boot/efi_main.c:598-605 | an executed `grep p t1 .. tk` shows exactly those of the texts that contain the pattern, in order, each on a line of its own, and changes nothing else |
| Commands.EchoLine | OSC/boot/efi_main.c:423-427 | `echo` shows its words with one space between neighbours |
| Commands.RemLine | OSC/boot/efi_main.c:390-392 | `rem` does nothing |
| Commands.SystemShows | OSC/boot/efi_main.c:485-488 | `system` shows the raw text behind the first run of spaces |
| Commands.MessageLine | OSC/boot/efi_main.c:521-524 | `exit` and `shutdown` show a message and give 1; `grep` without a text shows its usage |
| Commands.AtEchoLine | OSC/boot/efi_main.c:381-388 | `@echo off` and `@echo on` set the echo flag, and any other `@echo` changes nothing |
| Commands.ModeLine | OSC/boot/efi_main.c:645-655 | `bash` and `batch` select the mode and switch the echo on |
| Commands.SwitchLangLine | OSC/boot/efi_main.c:394-406 | `switchlang` does so for its first argument, and shows its usage for any other |
| Commands.CdLine | OSC/boot/efi_main.c:551-561 | `cd X:` stores the letter, moves the path for B and C only, and shows the path then in force; any other `cd` shows the path |
| Commands.DirLine | OSC/boot/efi_main.c:495-502 | `dir` and `ls` store a letter in the same way before the listing |
| Commands.TouchLine | OSC/boot/efi_main.c:449-452 | `touch` creates an empty file or leaves the one there as it is |
| Commands.RmLine | OSC/boot/efi_main.c:454-457 | `rm` removes the file and no other, or shows its usage |
| Commands.CatLine | OSC/boot/efi_main.c:444-447 | `cat` shows a file without NULs byte for byte, or its usage if there is none |
| Commands.FileUsageLine | OSC/boot/efi_main.c:444-463 | a wrong number of words shows the usage of the command and does nothing else |
| Commands.SourceUsageLine | OSC/boot/efi_main.c:465-468 | so does `source` of no file |
| Commands.OtherLine | OSC/boot/efi_main.c:429-658 | of the other first words, those of other parts are handed over, the printing ones show their reply, and any else is unknown |
| Commands.PipelineLine | OSC/boot/efi_main.c:241-266 | every line with `\|`: which of the two messages it shows, or whether it shows the text between the skipped units and the bar |
| Commands.BlankLine | OSC/boot/efi_main.c:377-379 | a line of blanks does nothing |
| Commands.StopsIfLast | OSC/boot/efi_main.c:358-379 | a line asks the shell to stop if and only if its last segment is `exit` or `shutdown`; none in front of an `&` or in a script counts |
| Commands.ScriptInParts | OSC/boot/efi_main.c:346-354 | a script cut anywhere is its first part and then its second, whatever results its lines give |
| Commands.ScriptOfOne | OSC/boot/efi_main.c:346-354 | a script of one line does what the line does, and gives 0 |
| Commands.BatchLine | OSC/boot/efi_main.c:675-684 | a batch line runs behind `X:/ bash> ` or `X:/ batch> `, by drive and mode, while echo is on, and bare while it is off |
| Commands.AppendThenCat | OSC/boot/efi_main.c:281-334 | after any number of appends to an empty file, `cat` shows every appended text on a line of its own, in order |
| Trimming.TrimmedLineRuns | OSC/boot/efi_main.c:358-379 | an `&`-free line does the same with and without the blanks around it if and only if it is one for which trimming is invisible |
| Trimming.ArgumentsOfTrimmed | OSC/boot/efi_main.c:58-69 | the raw argument tail survives trimming exactly when no space leads the line and no blank ends the tail |
| RoundTrips.AppendSourceRoundTrip | OSC/boot/efi_main.c:317-356 | after appends to an empty file, or to none at all, `source` executes one command per append, in order, each tokenizing back, if and only if the file has at most 4096 bytes |
| RoundTrips.AppendIsNotCut | OSC/boot/efi_main.c:325-329 | no append that a command line can express is ever truncated by the 128-byte buffer |
| RoundTrips.EchoGrep | OSC/boot/efi_main.c:241-266 | `echo <text> \| grep <pattern>` prints the trimmed text, inner spacing kept, exactly when it contains the pattern |
| RoundTrips.WriteReplaces | OSC/boot/efi_main.c:317-334 | an executed `write` line replaces the content exactly when that was no longer than the new line; otherwise the rest of the old content stays; nothing else changes |
| Safety.RunKeeps | OSC/boot/efi_main.c:358-659 | what every single command keeps, every execution keeps, at any nesting |
| Safety.PathStaysOnVolume | OSC/boot/efi_main.c:84-93 | no execution leads the current path off the roots of the two volumes |
| Safety.RunFollows | OSC/boot/efi_main.c:495-561 | over every execution, at any nesting, the drive is the letter stored last, and a path on a volume is the root of that drive exactly when it is a volume |
| Safety.DriveMatchesPath | OSC/boot/efi_main.c:495-561 | where drive and path agree before an execution, they agree after it if and only if it stored no letter or the last one it stored is a volume's |
| Safety.DriveLine | OSC/boot/efi_main.c:551-561 | an executed `cd X:` or `dir X:` stores X, and the path is X's root if and only if X is a volume |
| LineEditor.Console.ReadLine | OSC/boot/efi_main.c:691-730 | the line is the fold of the keys up to Enter, terminated; exactly these keys are consumed, and a line end is shown |
| LineEditor.OneMoreKey | OSC/boot/efi_main.c:699-726 | what one more key does after any others: a backspace takes the last unit away and erases a cell, a character is added while there is room and shown while echo is on, and any other key changes nothing |
| LineEditor.KeyWithoutCharacter | OSC/boot/efi_main.c:699-701 | a key without a character can be left out anywhere |
| LineEditor.TypedFits | OSC/boot/efi_main.c:709-726 | a line always fits its buffer and holds neither terminator nor backspace |
| LineEditor.BackspaceCancels | OSC/boot/efi_main.c:709-720 | a key and a backspace cancel, after any keys, if and only if the line had room or was empty |
| LineEditor.VisibleIsBuffer | OSC/boot/efi_main.c:709-726 | with echo on, the display line shows the prompt and exactly the buffer after every key |
| LineEditor.HiddenErasesPrompt | OSC/boot/efi_main.c:709-716 | with echo off, each backspace that takes a key away erases one unit of the prompt |
| LineEditor.HiddenKeepsPrompt | OSC/boot/efi_main.c:709-716 | the prompt stays as it is if and only if no backspace takes a key away |
| Interrupts.GateRoundTrip | OSC/kernel/drivers/system/idt.c:26-36 | the processor puts together the handler address that the gate was built from; selector and attributes are those given, and the reserved fields are 0 |
| Interrupts.Idt.Init | OSC/kernel/drivers/system/idt.c:38-64 | gates 0 to 15 are present interrupt gates (0x8E) of selector 0x08, without a stack of their own, whose address is that of their stub; the others are untouched; the limit is 4095 |
| Interrupts.Cpu.Stub | OSC/kernel/drivers/system/interrupts.S:32-120 | every stub leaves the vector on top of an error code, whether the processor pushed one or not |
| Interrupts.Cpu.SaveRegisters | OSC/kernel/drivers/system/interrupts.S:123-138 | memory from the stack pointer up is the context structure, field by field |
| Interrupts.ContextFields | OSC/kernel/drivers/system/interrupts.S:123-138 | the offset of each saved register, the number and the error code behind the handler's pointer |
| Interrupts.Cpu.Dispatch | OSC/kernel/drivers/system/interrupts.S:140-240 | exactly the handler of the number is called, once, with an aligned pointer to the context; none above 15 |
| Interrupts.Cpu.IrqCommon | OSC/kernel/drivers/system/interrupts.S:122-260 | all registers and the interrupted state are restored, whatever the handler did outside the saved frame |
| Interrupts.InitThenInterrupt | OSC/kernel/drivers/system/interrupts.S:32-260 | end to end, for vectors 0 to 15, through gates that the processor accepts only if they are present interrupt gates: one call of the right handler, with the interrupted registers, vector and error code behind its argument, and a return to exactly the interrupted state |
| Handoff.Loader.LeaveBootServices | OSC/boot/efi_main.c:853-910 | the status, the map in force and whether boot services are gone are those of the firmware's script; on exit the reported memory is 4096 times the pages of types 1, 2, 3, 4 and 7 of the map in force, modulo 2^64, and the key is the one just obtained; on any other return the loader and the boot information are unchanged; a success has left boot services if and only if the descriptor size is not 0; at most one round more than the map changes; cooperative firmware is always left |
| Handoff.Loader.TryExit | OSC/boot/efi_main.c:874-908 | one round ends as the firmware's script says, and asks for another only after a map change that leaves the final outcome the same |
| Handoff.SuccessOrSizeZero | OSC/boot/efi_main.c:882-905 | whatever the firmware does, the loop ends with boot services left, with descriptor size 0 and success, or with an error that is not "invalid parameter" |
| Handoff.CooperativeIsLeft | OSC/boot/efi_main.c:873-909 | cooperative firmware is always left, whenever its map changes |
| Handoff.Loader.SumMemory | OSC/boot/efi_main.c:886-898 | for any stride of at least 40 and any map size the buffer holds, whole multiple or not, the walk stays inside the buffer and gives 4096 times the pages of types 1, 2, 3, 4 and 7 modulo 2^64 |
| Handoff.UsableByType | OSC/boot/efi_main.c:890-894 | the pages that count are those of five memory types, each summed on its own |
| Handoff.DescriptorAt | OSC/boot/efi_main.c:888-897 | in a map laid out with any stride of at least 40 and any vendor bytes, descriptor i lies at i times the stride |
| Handoff.DescriptorFields | OSC/boot/efi_main.c:889-895 | type and page count read at the cursor are those of descriptor i, inside the buffer |
| Handoff.SumStep | OSC/boot/efi_main.c:895-895 | adding a descriptor with 64-bit wrap-around agrees with the plain sum modulo 2^64 |
| Accounts.LoginIsLookup | OSC/kernel/drivers/accounts.c:68-72 | login succeeds exactly when the map holds that password under that name, and selects the one account of that name |
| Accounts.AddIsInsert | OSC/kernel/drivers/accounts.c:74-80 | add inserts an absent name for an admin's session while there are fewer than eight, if name and password have 1 to 31 units without a space, and otherwise changes nothing; success also needs the save |
| Accounts.ChangeIsUpdate | OSC/kernel/drivers/accounts.c:82-86 | given its present password and a new one of 1 to 31 units without a space, the session's own key is updated and no other; otherwise nothing changes; success also needs the save |
| Accounts.StartUp | OSC/kernel/drivers/accounts.c:41-66 | the stored accounts are taken over exactly from a whole file with the right magic number and 1 to 8 accounts; any other file leaves the one default account |
| Accounts.FailureIsNotRollback | OSC/kernel/drivers/accounts.c:78-85 | a reported failure leaves the table unchanged exactly when the operation was refused before the save |
| Accounts.RunKeeps | OSC/kernel/drivers/accounts.c:58-88 | over every run between two start-ups, whatever the disk does: table well formed, names and admin flags fixed, count never falls, an opened session never closes |
| Accounts.StepStore | OSC/kernel/drivers/accounts.c:26-39 | a store that this program writes is one that it may start from |
| Accounts.LifeKeeps | OSC/kernel/drivers/accounts.c:26-86 | over every run with any number of reboots, table and store stay well formed, as long as no failed save leaves a bad file |
| Accounts.LifeIsDurable | OSC/kernel/drivers/accounts.c:26-86 | over every run with any number of reboots in which every save works, what is shown is what the next start-up shows, and nothing is taken back |
| Accounts.RunSimulates | OSC/kernel/drivers/accounts.c:41-88 | whole runs of the table are the runs of a machine that has a finite map and the name of the session |
| Accounts.ReachableInv | OSC/kernel/drivers/accounts.c:58-88 | every state reached from a start-up has 1 to 8 accounts with distinct acceptable names and a valid session index, and its store is again a good one |
| Accounts.RebootRestores | OSC/kernel/drivers/accounts.c:26-66 | after any run in which every save worked, with any number of reboots in it, starting again shows the same accounts and no session |
| Accounts.Table.AddUser | OSC/kernel/drivers/accounts.c:74-80 | the array version does what `Add` says |
| Accounts.Table.LogIn | OSC/kernel/drivers/accounts.c:68-72 | the linear search does what `Login` says |
| Accounts.Table.ChangeOwnPassword | OSC/kernel/drivers/accounts.c:82-86 | the array version does what `ChangePassword` says |
| Accounts.Table.InitTable | OSC/kernel/drivers/accounts.c:41-66 | default account, then a loadable store if there is one |
| Accounts.Validate | OSC/kernel/drivers/accounts.c:55-55 | true exactly for 1 to 31 units without a space |
| Accounts.Equal | OSC/kernel/drivers/accounts.c:54-54 | the loop decides equality |
| Pci.AddressFields | OSC/kernel/drivers/pci.c:3-10 | the address holds bus, device, function and dword in their fields, the enable bit is set, and all other bits are clear |
| Pci.AddressIsInjective | OSC/kernel/drivers/pci.c:3-10 | in-range coordinates and dword offsets share an address only if they are equal |
| Pci.ByteReadIsLane | OSC/kernel/drivers/pci.c:28-32 | a byte read is the byte at its offset in the dword |
| Pci.WordReadIsPair | OSC/kernel/drivers/pci.c:22-26 | a word read is the aligned pair of bytes around its offset |
| Pci.MatchesIsClass | OSC/kernel/drivers/pci.c:54-68 | the partial reads of the search accept a function exactly if the low half of its dword 0 is not 0xFFFF and its dword at 8 is made of some revision and the class's three bytes |
| Pci.FindDevice | OSC/kernel/drivers/pci.c:39-84 | the first such function in bus, device, function order, described by the dwords at 0, 8 and 12; nothing written if there is none |
| Divergences.BlanksBeforePipeline | OSC/boot/efi_main.c:241-266 | two blanks in front of `echo x\|grep x` make it show `o x` instead of `x` |
| Divergences.SpaceBeforeSystem | OSC/boot/efi_main.c:58-69 | a space in front of `system x` makes it show `system x` instead of `x` |
| Divergences.ManyAppends | OSC/boot/efi_main.c:340-354 | a file made by n appends of one unit is read back by `source` if and only if n is at most 2048 |
| Divergences.InteriorReturn | OSC/boot/efi_main.c:346-354 | a text with a return between two letters is one command to `source` and two to the batch runner |
| Divergences.SecondLineLoops | OSC/boot/efi_main.c:336-356 | a script whose second line sources it never ends |
| Divergences.WriteLeavesTail | OSC/boot/efi_main.c:324-330 | `write` over three bytes leaves the third behind the new line |
| Divergences.DriveThatIsNone | OSC/boot/efi_main.c:551-561 | `cd A:` at the start leaves drive A with the path of B |
| Divergences.ExitIsLost | OSC/boot/efi_main.c:366-372 | `exit&rem` shows the message of `exit` and gives 0 |
| Divergences.PromptIsErased | OSC/boot/efi_main.c:709-716 | a hidden key and a backspace erase the last unit of the prompt |
| Divergences.FullLineLosesKey | OSC/boot/efi_main.c:709-722 | on every full line, one more key and a backspace take the last key of the line away |
| Divergences.UnsavedAccountStays | OSC/kernel/drivers/accounts.c:74-80 | after a first start-up and login, an `add` that cannot be saved reports failure and yet shows the account, until the next start-up |
| Handoff.SizeZeroIsNotLeft | OSC/boot/efi_main.c:882-884 | firmware with descriptor size 0: success is returned and boot services are not left |

## Left out

- Device errors in the terminal: opening an existing file, reading and writing always succeed, and a read is short only at the end of a file. Missing files are modelled.
- File names: any text names a file; the volume's own rules for names and case are not modelled, nor is the account store as a file of the same volume.
- The commands that only print a fixed text are one case, and the wording of messages is a parameter.
- The `nano` loop, the login loop, the account commands of the terminal and directory listings are an arbitrary effect on the terminal in its model; the account operations themselves are in `Accounts.dfy`.
- The shell's outer loop, kernel loading, the jump to the kernel and the linker scripts.
- ReadKeyStroke: its status is ignored by the code, so each call is taken to deliver a fresh key.
- Interrupts.Cpu.CallHandler: a handler is anything that returns with the stack pointer it was called with and leaves the 176 bytes of the saved frame alone; the call's return address and vectors above 15 in the table are not modelled.
- Interrupts.Cpu.Interrupt: the interrupted stack is taken to have room for 1 KiB below it and not to lie at the very end of the address space.
- Accounts: the store is a structure rather than bytes; a file too short for it is one case, and a failed save may leave any file behind.
- Handoff: a memory map key stands for one map, as the firmware specification has it.
- Pci: reading the data port is a function of the address written before; port I/O itself is not modelled.
- `eosfs.c`, cpu, acpi, battery, memory, mouse, storage, usb, pic and calldrivers: stubs, setters, tables or port I/O.
