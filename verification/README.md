# Verification of mulp's native parts

The Dafny programs here model the stateful and arithmetic core of the repository: the worker threads of the async
runtime, the text and number runtime that is compiled into the test drivers, and the C stubs behind processes, file
walks, tree removal, file watching and chunked reading, together with the command-line parser.

| file | models |
|---|---|
| `ThreadPool.dfy`, `ThreadPoolSafety.dfy`, `ThreadPoolProgress.dfy`, `ThreadPoolTheorems.dfy`, `ThreadPoolNumbers.dfy` | worker threads, the three ways to wake them, the pipe that carries completions and signals and the event loop that drains it, as a transition system over single shared accesses |
| `Bits.dfy`, `IntText.dfy` | bit counting, printing a 32-bit integer in any radix |
| `SqrtError.dfy`, `Sqrt.dfy` | the integer-only square root of a double: error analysis over the reals, then the code |
| `StringBuilder.dfy`, `Utf8.dfy`, `Escape.dfy`, `Selectors.dfy` | the growing string buffer, UTF-8 decoding, string literals, test selectors |
| `CStrings.dfy` | how C code reads a text that it is handed: up to the first NUL |
| `Shell.dfy`, `Process.dfy` | shell quoting, captured output, the framed result of a command |
| `Walk.dfy`, `RemoveTree.dfy`, `WatchBackend.dfy`, `FileReader.dfy` | directory listing, guarded tree removal, the watcher's queue and table, file handles |
| `CliArgs.dfy` | command-line arguments |

## How to read the models

- Code that updates objects or arrays is modelled by classes and array methods, each tied to a function of the old
  state; the lemmas are about those functions, and say with numbers and fields alone what each of them gives.
- Machine integers are subset types (`Byte`, `Unit`, `Word`, `Int32`, `Long`); wrap-around is written out.
- What the outside world decides is a parameter or an arbitrary choice: the order of thread steps, interrupted
  writes and spurious wake-ups, failing system calls, chunk sizes, memory running out, kernel records.
- Where C code reads a text that it is handed as a C string, the model cuts the text at its first NUL (`CText`,
  `CPathOf`); paths and file names inside that code hold none.
- A panic or abort of the source is a `false`, a `None` or a `Failure`, never a precondition.
- The doubling loops of the source do not check for 32-bit overflow; sizes are required to stay at most 2^30 there.

Four statements say where the code does not do what its callers expect:

- `DrainFailsIff`: the loop that drains the completion pipe reads once more after an exactly full buffer and raises
  when the pipe is then empty. With at most `k` signals in a run that can happen exactly when the pool's greatest
  number of workers plus `k` reaches the number of places in the buffer. Both numbers are 1024 in the event loop, so
  it can happen without any signal; every signal that arrives adds a message to the same pipe.
- `CompleteIffNumbersLast`: job ids are 32-bit and only ever incremented, and negative ones are read as signals. All
  runs that go on for as long as they can and do not raise finish every job if and only if at most 2^31 jobs are
  submitted; `LostJob` constructs a run in which job number 2^31 is run and posted and its completion is dropped. With
  pipes a program's first job waits for signals until the program ends. Given two threads and three places in the
  buffer, that run keeps the job on a thread of its own until the loss has happened (`LostBeside`); with fewer the run
  finishes it first, which such a program does not do.
- `SeenAsIntendedIff`: the shell reads the directory, the program, the arguments and the two file names as they were
  given if and only if they are made of units that survive as bytes of a C string, that is of 1 to 255. Larger units
  are cut down to a byte, halves of surrogate pairs make the quoting panic, and a NUL ends the line that is handed
  over: `NulInProgram` gives a program name for which that leaves a quote open. `RunsAsGivenIff` says the same of what
  the shell then does.
- `EscapeTo`: escaping panics on a view that splits a surrogate pair at a border or right behind an escaped unit.
  `HalfPairPanics` gives three bytes of a command line on which it does; `PairedIsEscapable` shows that well-formed
  text is not affected.

## Model

| member | source | states |
|---|---|---|
| ThreadPoolSafety.StepKeepsInv | examples/basic/.mooncakes/moonbitlang/async/src/internal/event_loop/thread_pool.c:197-334 | every action of a worker thread, of the event loop or of the signal-handling job, in any interleaving and with any of the three wake-ups, keeps the invariant that ties worker records, wake-up objects, the running and idle tables, the completion pipe and the job counts together, while at most 2^31 jobs were submitted |
| ThreadPoolSafety.RunsKeepInv | examples/basic/.mooncakes/moonbitlang/async/src/internal/event_loop/thread_pool.c:197-334 | that invariant holds after every run of at most 2^31 jobs, for any number of workers and signals |
| ThreadPoolTheorems.EachJobAtMostOnce | examples/basic/.mooncakes/moonbitlang/async/src/internal/event_loop/thread_pool.c:221-248 | no job is run, posted, delivered or released more than once, and each of these only after the one before it |
| ThreadPoolTheorems.ThreadOwnsItsJob | examples/basic/.mooncakes/moonbitlang/async/src/internal/event_loop/thread_pool.c:205-248 | a thread between taking and posting a job holds that job and its id, the job is unreleased, and no other thread holds it |
| ThreadPoolTheorems.OnlyFreeEndsAThread | examples/basic/.mooncakes/moonbitlang/async/src/internal/event_loop/thread_pool.c:285-334 | the null left by entering idle is never read; a thread leaves its loop only inside `free_worker` and then does nothing more |
| ThreadPoolTheorems.LoopTouchesLiveWorkers | examples/basic/.mooncakes/moonbitlang/async/src/internal/event_loop/thread_pool.c:259-313 | whenever the event loop signals, wakes or cancels a worker, its wake-up object exists and its thread has not ended |
| ThreadPoolTheorems.JobsStartInOrder | examples/basic/.mooncakes/moonbitlang/async/src/internal/event_loop/event_loop.mbt:236-262 | jobs are handed out in the order in which they are submitted: those that wait are always the last ones submitted, in order, and a job waits only while the greatest number of workers is busy |
| ThreadPoolTheorems.PipeIsBounded | examples/basic/.mooncakes/moonbitlang/async/src/internal/event_loop/thread_pool.c:232-238 | the pipe and the batch being handled hold at most one completion per worker, all different, and the fleet never exceeds its maximum |
| ThreadPoolTheorems.PipeLength | examples/basic/.mooncakes/moonbitlang/async/src/internal/event_loop/thread_pool.c:2260-2281 | apart from completions the pipe and the batch hold at most one message for each signal that arrived |
| ThreadPoolTheorems.EveryMethodHandsOff | examples/basic/.mooncakes/moonbitlang/async/src/internal/event_loop/thread_pool.c:239-282 | event, blocked signal and condition variable refine one one-place mailbox protocol |
| ThreadPoolProgress.InternalRankDrops | examples/basic/.mooncakes/moonbitlang/async/src/internal/event_loop/thread_pool.c:197-282 | without new requests every step lowers a rank, so the runtime cannot spin |
| ThreadPoolProgress.NoRunLosesAWakeup | examples/basic/.mooncakes/moonbitlang/async/src/internal/event_loop/thread_pool.c:239-334 | after every run: a thread with a job to do and no call of the event loop on it can move, whichever wake-up got it there; and a wake, idle or free call that cannot move waits for a thread that can |
| ThreadPoolProgress.StuckMeansDone | examples/basic/.mooncakes/moonbitlang/async/src/internal/event_loop/event_loop.mbt:265-300 | when nothing can move, every submitted job has been run, posted, delivered and released exactly once and nothing is queued |
| ThreadPoolProgress.EveryJobCompletes | examples/basic/.mooncakes/moonbitlang/async/src/internal/event_loop/event_loop.mbt:493-512 | from any reachable state the number of internal steps is bounded, and a run that can go no further has completed every job exactly once |
| ThreadPoolTheorems.FewWorkersNeverFail | examples/basic/.mooncakes/moonbitlang/async/src/internal/event_loop/event_loop.mbt:276-291 | with fewer workers and signals together than places in the completion buffer the drain loop never reads an empty pipe |
| ThreadPoolTheorems.CompletionPortNeverFails | examples/basic/.mooncakes/moonbitlang/async/src/internal/event_loop/event_loop.mbt:305-330 | with a completion port the drain never fails |
| ThreadPoolTheorems.EnoughMessagesCanFail | examples/basic/.mooncakes/moonbitlang/async/src/internal/event_loop/event_loop.mbt:276-291 | a run with at most `k` signals on which the drain loop raises after an exactly full batch, whenever workers and `k` signals can fill the buffer |
| ThreadPoolTheorems.DrainFailsIff | examples/basic/.mooncakes/moonbitlang/async/src/internal/event_loop/event_loop.mbt:276-291 | for every `k`: in runs with at most `k` signals the event loop can raise from its drain loop if and only if pipes are used and its greatest number of workers plus `k` is at least the number of places in the buffer (both numbers are 1024 in the source) |
| ThreadPoolNumbers.RunsToAStop | examples/basic/.mooncakes/moonbitlang/async/src/internal/event_loop/event_loop.mbt:265-300 | every run can be carried on by internal steps until none is left |
| ThreadPoolNumbers.LostJob | examples/basic/.mooncakes/moonbitlang/async/src/internal/event_loop/event_loop.mbt:236-262 | a run of 2^31 + 1 jobs that stops with the last one run and posted but not delivered: its id is taken for a signal |
| ThreadPoolNumbers.LostBeside | examples/basic/.mooncakes/moonbitlang/async/src/internal/event_loop/event_loop.mbt:236-262 | the part of that run up to the loss; with pipes, two threads and three places in the buffer the job that waits for signals is still running then |
| ThreadPoolNumbers.CompleteIffNumbersLast | examples/basic/.mooncakes/moonbitlang/async/src/internal/event_loop/event_loop.mbt:236-262 | all jobs of all runs that stop without raising are finished exactly once if and only if at most 2^31 jobs are submitted (a completion port, or a buffer of at least two places) |
| Bits.ClzFindsTopBit | _build/native/debug/test/cli/cli.internal_test.c:138-167 | the binary search and 4-bit table find the highest bit set |
| Bits.ClzOfZero | _build/native/debug/test/cli/cli.internal_test.c:138-167 | zero has 32 leading zeros |
| Bits.SoftwareCtzAgrees | _build/native/debug/test/cli/cli.internal_test.c:191-210 | the de Bruijn count of trailing zeros equals the built-in one, and is 32 for zero |
| Bits.PowerOfTwoTest | _build/native/debug/test/cli/cli.internal_test.c:3257-3266 | `r & (r - 1) == 0` holds exactly for powers of two: it holds for every one of them, and a word that passes is one |
| IntText.HexCountExact | _build/native/debug/test/cli/cli.internal_test.c:3084-3098 | the predicted number of hexadecimal digits is the number of digits |
| IntText.DecCountExact | _build/native/debug/test/cli/cli.internal_test.c:3100-3129 | the comparison tree predicts the number of decimal digits |
| IntText.RadixCount32 | _build/native/debug/test/cli/cli.internal_test.c:3056-3082 | the dividing loop counts the digits in any radix |
| IntText.IntToStringDec | _build/native/debug/test/cli/cli.internal_test.c:3131-3243 | the four-digits-at-a-time loop fills the buffer with exactly the divide-by-ten digits and touches nothing else |
| IntText.IntToStringGeneric | _build/native/debug/test/cli/cli.internal_test.c:3245-3319 | shift-and-mask and divide loops both fill the buffer with exactly the divide-by-radix digits |
| IntText.IntToStringHex | _build/native/debug/test/cli/cli.internal_test.c:3321-3375 | the two-digits-at-a-time loop fills the buffer with exactly the divide-by-sixteen digits |
| IntText.IntToString | _build/native/debug/test/cli/cli.internal_test.c:2937-3054 | for every int32 and radix: an error exactly outside 2..36, otherwise the text that `TextDenotes` describes; the negation of the minimum is read as wrap-around |
| IntText.TextDenotes | _build/native/debug/test/cli/cli.internal_test.c:2937-3054 | the printed text denotes the printed number in its radix; it is never empty, starts with a minus exactly for negative numbers, holds only digits of the radix behind it, and the first of these is a zero only in the text `0` |
| IntText.PositionalValue | _build/native/debug/test/cli/cli.internal_test.c:2937-3054 | what denoting is: a further digit multiplies by the radix and adds its value, `0`-`9` and `a`-`z` stand for 0 to 35 |
| Sqrt.Mul64Error | _build/native/debug/test/cli/cli.internal_test.c:348-355 | the 64-bit product without its low partial product is the true scaled product less an error in [0, 3) |
| Sqrt.EntryFits | _build/native/debug/test/cli/cli.internal_test.c:253-269 | each of the 128 table entries, squared and multiplied by any argument of its cell, is within 1/128 of one |
| SqrtError.FirstRound | _build/native/debug/test/cli/cli.internal_test.c:446-454 | one Goldschmidt step with its roundings takes the measure of the estimate from within 1/128 to within 4.6e-5 |
| SqrtError.SecondRound | _build/native/debug/test/cli/cli.internal_test.c:456-459 | the second step takes it to within about 10 units of 2^-30 |
| SqrtError.LastRound | _build/native/debug/test/cli/cli.internal_test.c:460-465 | the last step is above the root by at most 2 and below it by at most 255 units of 2^-61 |
| Sqrt.NearOne | _build/native/debug/test/cli/cli.internal_test.c:446-460 | the second estimate stays below one, so it fits its word, also for the twelve arguments right above one where the error bound is too weak to show it |
| Sqrt.Approximate | _build/native/debug/test/cli/cli.internal_test.c:445-467 | for every reduced argument the integer-only approximation is the root's 53-bit integer part or one less: s^2 <= m 2^42 < (s + 1.5)^2 |
| Sqrt.RoundNearest | _build/native/debug/test/cli/cli.internal_test.c:469-478 | differences taken modulo 2^64 select the nearer of the two neighbours; no tie is possible |
| Sqrt.IndexSelectsCell | _build/native/debug/test/cli/cli.internal_test.c:382-445 | exponent parity and six significand bits select the table cell that holds the reduced argument |
| Sqrt.Rescaled | _build/native/debug/test/cli/cli.internal_test.c:371-375 | the exact multiplication of a subnormal by 2^52 |
| Sqrt.Sqrt | _build/native/debug/test/cli/cli.internal_test.c:357-483 | every positive finite double gets its correctly rounded root, zeros and infinity themselves, negative numbers and NaN give NaN |
| Sqrt.OneNearest | _build/native/debug/test/cli/cli.internal_test.c:468-483 | the result so described is unique |
| Sqrt.SquareHasRoot | _build/native/debug/test/cli/cli.internal_test.c:468-483 | a double whose square is the argument is that root |
| StringBuilders.UnsafeBlit | _build/native/debug/test/cli/cli.internal_test.c:4391-4474 | memmove meaning for every aliasing and overlap of source and destination |
| StringBuilders.BlitFromString | _build/native/debug/test/cli/cli.internal_test.c:3537-3575 | the forward copy out of a string |
| StringBuilders.StringBuilder.constructor | _build/native/debug/test/cli/cli.internal_test.c:4335-4356 | the capacity is at least one for every hint but 2^31 - 1, for which the source computes a negative one |
| StringBuilders.StringBuilder.GrowIfNecessary | _build/native/debug/test/cli/cli.internal_test.c:4215-4261 | doubling reaches the requirement, contents survive, the old buffer is untouched |
| StringBuilders.StringBuilder.WriteChar | _build/native/debug/test/cli/cli.internal_test.c:4114-4213 | appends one unit or a surrogate pair; refuses exactly the codes above U+10FFFF |
| StringBuilders.StringBuilder.WriteView | _build/native/debug/test/cli/cli.internal_test.c:2717-2754 | appends a slice of a string, also of the builder's own text |
| StringBuilders.StringBuilder.ToString | _build/native/debug/test/cli/cli.internal_test.c:4277-4328 | the text written; the buffer itself exactly when it is full |
| StringBuilders.HandedOutTextStays | _build/native/debug/test/cli/cli.internal_test.c:4277-4328 | text handed out, even when it is the buffer, is not changed by later writes and may be appended to its own builder |
| Utf8.BytesToString | _build/native/debug/test/cli/cli.internal_test.c:1973-2268 | on arbitrary bytes the decoder ends, stays in range, never aborts, and writes the units of the complete chunks, which the rows below give |
| Utf8.PlainDecodes | _build/native/debug/test/cli/cli.internal_test.c:1973-2268 | a byte below 128 stands for itself, and a chunk cut short at the end adds nothing |
| Utf8.PairDecodes | _build/native/debug/test/cli/cli.internal_test.c:1973-2268 | two bytes, valid or not, become one unit of their low 5 and 6 bits |
| Utf8.TripleDecodes | _build/native/debug/test/cli/cli.internal_test.c:1973-2268 | three bytes, valid or not, become one unit of their low 4, 6 and 6 bits |
| Utf8.QuadrupleDecodes | _build/native/debug/test/cli/cli.internal_test.c:1973-2268 | four bytes, valid or not, become two units that stand for their low 3, 6, 6 and 6 bits, also when these are below 2^16 |
| Utf8.DecodeOfEncode | _build/native/debug/test/cli/cli.internal_test.c:1973-2268 | decoding a UTF-8 encoding, possibly followed by a character cut short, yields the UTF-16 encoding of the whole characters, which determines them |
| Escape.EscapeTo | _build/native/debug/test/cli/cli.internal_test.c:3605-3826 | flushing by segments writes the unit-by-unit escape, also when the view is of the text the logger itself handed out, and panics if and only if a surrogate pair is split at the view's borders or right behind an escaped unit |
| Escape.FlushSegment | _build/native/debug/test/cli/cli.internal_test.c:3828-3977 | a non-empty segment is written unless one of its borders is a trailing surrogate |
| Escape.CutIs | _build/native/debug/test/cli/cli.internal_test.c:3893-3977 | a slice is refused if and only if a unit from DC00 to DFFF stands at its start or right behind its end |
| Escape.EscapableIs | _build/native/debug/test/cli/cli.internal_test.c:3605-3977 | escaping panics if and only if such a unit stands at the front of the view or right behind an escaped unit, or right behind the view when its last unit is not escaped |
| Escape.LiteralRoundTrip | _build/native/debug/test/cli/cli.internal_test.c:3605-3826 | a reader of literals gets the text back and sees where the literal ends |
| Escape.EscapeTable | _build/native/debug/test/cli/cli.internal_test.c:3605-3826 | the escapes one by one: short forms for quote, backslash, newline, carriage return, backspace and tab, `\u{hh}` with two lower-case digits for the other control units |
| Escape.PairedIsEscapable | _build/native/debug/test/cli/cli.internal_test.c:3893-3977 | no segment border of well-formed UTF-16 is refused |
| Escape.DecodedIsEscapable | _build/native/debug/test/cli/cli.internal_test.c:3893-3977 | no argument that was valid UTF-8 is ever refused |
| Escape.HalfPairPanics | _build/native/debug/test/cli/cli.internal_test.c:3893-3977 | the bytes ED B0 80 of a command line decode to a text on which escaping panics |
| Selectors.Split | _build/native/debug/test/cli/cli.internal_test.c:1836-1927 | splitting, with an empty last piece dropped |
| Selectors.SplitOfJoin | _build/native/debug/test/cli/cli.internal_test.c:1836-1927 | splitting undoes joining pieces without separators |
| Selectors.JoinOfSplit | _build/native/debug/test/cli/cli.internal_test.c:1836-1927 | joining undoes splitting, and no piece holds a separator |
| Selectors.PiecesSnoc | _build/native/debug/test/cli/cli.internal_test.c:1836-1927 | splitting read from the left: a separator opens an empty piece, any other unit goes to the last one |
| Selectors.JoinSnoc | _build/native/debug/test/cli/cli.internal_test.c:1836-1927 | joining puts one separator between two pieces |
| Selectors.ParseInt | _build/native/debug/test/cli/cli.internal_test.c:2270-2313 | the positional value of any units, wrapped to 32 bits |
| Selectors.PrintedIsDecimal | _build/native/debug/test/cli/cli.internal_test.c:2270-2313 | reading undoes decimal printing of every int32 that is not negative |
| Selectors.NativeParseArgs | _build/native/debug/test/cli/cli.internal_test.c:1723-1834 | the driver returns what `SelectorRoundTrip` describes and panics exactly when there is no argument or a selector is refused (`RefusedIff`) |
| Selectors.ReadsSelector | _build/native/debug/test/cli/cli.internal_test.c:1771-1802 | a selector is its file up to the colon, the number up to the first hyphen and the number behind it, whatever follows |
| Selectors.RefusedIff | _build/native/debug/test/cli/cli.internal_test.c:1771-1802 | a selector is refused if and only if it has no colon, or what stands behind the first one has no hyphen but perhaps one at its end |
| Selectors.IndicesAre | _build/native/debug/test/cli/cli.internal_test.c:1803-1816 | a range stands for max(0, end - start) pairs, the k-th of which is (file, start + k) |
| Selectors.SelectorRoundTrip | _build/native/debug/test/cli/cli.internal_test.c:1723-1834 | rendering (file, start, end) ranges as `file:start-end` with slashes between them and parsing them yields, range after range, max(0, end - start) pairs, the k-th of which is (file, start + k) |
| Selectors.ArgumentRoundTrip | _build/native/debug/test/cli/cli.internal_test.c:1929-1971 | the same through the UTF-8 bytes of the command line |
| Shell.ShellQuote | platform/process_stub.c:71-93 | the second pass fills exactly the buffer measured by the first, terminator included; both stop at the first NUL |
| Shell.ReadsQuoted | platform/process_stub.c:71-93 | a POSIX lexer reads the quoted text as one word equal to the original |
| Shell.QuotedIs | platform/process_stub.c:71-93 | quoting writes a quote, the text with each quote replaced by the four units of its escape, and a quote |
| Shell.ReadsWords | platform/process.mbt:30-54 | a space-separated list of quoted words is read back as that list |
| Shell.QuoteShellArg | platform/process.mbt:29-42 | the quoter of the program writes the same quoted text, and panics exactly when the text holds a trailing surrogate, which the slices of one unit refuse |
| Shell.ToShellCommand | platform/process.mbt:44-54 | the loop builds the directory change and the quoted words, and panics exactly when one of them does |
| Shell.QuotableIs | platform/process.mbt:29-54 | the commands that panic are those with a unit from DC00 to DFFF in a word or in the directory |
| Shell.CommandLineIs | platform/process.mbt:44-54 | the line is the quoted words with single spaces between them, behind the directory change if there is one |
| Shell.ReadsCommand | platform/process.mbt:44-54 | a POSIX lexer reads the line as directory, program and arguments |
| Shell.SeenAsIntendedIff | platform/process.mbt:110-136 | through quoting, cutting units down to bytes and the NUL that ends a C string, the shell sees directory, program, arguments and the two redirections as they were given if and only if all of them are made of units 1 to 255 |
| Shell.RunsAsGivenIff | platform/process.mbt:110-136 | for a small shell that understands `cd … && ( … ) > … 2> …`: it runs the program in the directory with the arguments and the two output files that were given if and only if all of these texts are made of units 1 to 255 |
| Shell.NulOpensQuote | platform/process_stub.c:135-142 | a NUL in a program name without quotes and backslashes leaves a quote open, so the shell can read nothing |
| Shell.NulInProgram | platform/process_stub.c:135-142 | the program `a`, NUL, `b` is such a name |
| Process.Capture.Append | platform/process_stub.c:34-54 | the doubling append keeps what was captured, or drops everything when memory runs out |
| Process.ReadFile | platform/process_stub.c:95-113 | whatever the chunk sizes, the whole file, a beginning of it when a read failed, or nothing when it is missing or memory ran out |
| Process.PrefixFits | platform/process_stub.c:149-152 | the three numbers and their terminator fit 32 bytes for every exit status |
| Process.ParseProcessResult | platform/process.mbt:57-90 | the reader of result frames: 32-bit positions, negative ones counted from the end of the text, refusing slices outside it |
| Process.SubBetween | platform/process.mbt:77-89 | positions count from the front, or negative ones from the end of the text |
| Process.SubOnly | platform/process.mbt:77-89 | every slice that is not refused lies between its two positions |
| Process.FrameRoundTrip | platform/process_stub.c:149-162 | a frame whose length is a 32-bit integer is read back as exit code, standard output and standard error for arbitrary contents |
| Process.ExitCode | platform/process_stub.c:20-31 | the masks and shifts on the wait status: 127 for -1, the exit status of a command that exited, otherwise 128 |
| Process.RunShell | platform/process_stub.c:116-176 | for the raw status of `system`: what is handed to it is the command up to a NUL with the two redirections, not cut off by the buffer it is printed into; the result is three decimal lines and the two streams; it reads back as the code (127 for -1, bits 8 to 15 of the status when its low seven bits are zero, otherwise 128) and the contents of the two files, which may be missing, cut short or dropped; 127 and nothing when it could not be set up |
| Walk.Buffer.Append | vinyl_fs/vinyl_fs_stub.c:42-61 | the doubling buffer appends a text and keeps its terminator |
| Walk.OnlyRootTooLong | vinyl_fs/vinyl_fs_stub.c:86-94 | the directory-path check can fail only for the root |
| Walk.WalkInto | vinyl_fs/vinyl_fs_stub.c:84-144 | the walk writes the listing up to the first path that does not fit and reports whether there was none |
| Walk.DiscoverPaths | vinyl_fs/vinyl_fs_stub.c:174-182 | the text returned is that line-aligned prefix of the full listing of what the root, up to a NUL, names |
| Walk.FitsIs | vinyl_fs/vinyl_fs_stub.c:105-124 | a path fits when it and the path that it is opened by are shorter than 4096 bytes |
| Walk.RenderSnoc | vinyl_fs/vinyl_fs_stub.c:56-61 | the text holds each line followed by a newline |
| Walk.PathOfNames | vinyl_fs/vinyl_fs_stub.c:63-76 | a path is the names that lead to it with slashes between them |
| Walk.LinesAppend | vinyl_fs/vinyl_fs_stub.c:101-144 | entries are listed in the order in which the directory is read |
| Walk.EverythingListed | vinyl_fs/vinyl_fs_stub.c:101-144 | every path that leads through readable directories is listed; of the entries only the two names `.` and `..` are left out |
| Walk.NothingElse | vinyl_fs/vinyl_fs_stub.c:101-144 | every line is such a path; links and unreadable directories are listed but not entered |
| Walk.ParentsComeFirst | vinyl_fs/vinyl_fs_stub.c:101-144 | every line's parent is the root or an earlier line |
| Walk.ListedOnce | vinyl_fs/vinyl_fs_stub.c:101-144 | no path is listed twice |
| Walk.ProperIs | vinyl_fs/vinyl_fs_stub.c:101-144 | what is asked of a tree: in every directory the names differ and hold no slash |
| Walk.TextRoundTrip | vinyl_fs/src.mbt:143-153 | splitting the text at newlines gives the listed paths when no name holds one |
| RemoveTree.IsSafe | examples/copy/.mooncakes/i5ting/readdirp/fs_native.c:312-333 | for every C string the segment scan decides: not absolute, no `..` segment, one of the two prefixes |
| RemoveTree.SafeIs | examples/copy/.mooncakes/i5ting/readdirp/fs_native.c:312-333 | safe is: one of the prefixes `_build/readdirp-` and `./_build/readdirp-`, and no piece between slashes is `..` |
| RemoveTree.SafeStaysInside | examples/copy/.mooncakes/i5ting/readdirp/fs_native.c:312-333 | a safe path always leads below a `readdirp-` entry of `_build` |
| RemoveTree.SafeInside | examples/copy/.mooncakes/i5ting/readdirp/fs_native.c:286-296 | whatever lies directly in a safe directory has a safe path |
| RemoveTree.FitsByEntries | examples/copy/.mooncakes/i5ting/readdirp/fs_native.c:259-296 | all paths formed below a directory fit exactly when those of its entries do and those formed below them |
| RemoveTree.RemovableIs | examples/copy/.mooncakes/i5ting/readdirp/fs_native.c:259-310 | removable is: no file stands where a directory is needed, and every path formed below is shorter than 4096 bytes |
| RemoveTree.RemovePath | examples/copy/.mooncakes/i5ting/readdirp/fs_native.c:267-310 | the status is 0 if and only if no call failed for reasons of its own, no file stood where a directory was needed and every path formed below fits its buffer; then nothing is left; without such a failure `rmdir` is only called on empty directories; in any case only the subtree changes, and every path passed to a removing call is safe when the first was |
| RemoveTree.TestRemoveTree | examples/copy/.mooncakes/i5ting/readdirp/fs_native.c:335-356 | only the part of the path before a NUL counts: if it is unsafe it is refused untouched; if it is safe it is removed, exactly the subtree, if and only if no call failed for reasons of its own and all paths fit; otherwise the error says which of the two it was |
| RemoveTree.DotsBehindNul | examples/copy/.mooncakes/i5ting/readdirp/fs_native.c:24-36 | a `..` behind a NUL makes a text unsafe as a whole, yet it is the safe path in front of the NUL that is checked and removed |
| WatchBackend.EventQueue.Enqueue | examples/copy/.mooncakes/i5ting/chokidar/fs_native.c:64-88 | the queue holds the first 1024 events since the last clear, and the overflow mark is set exactly when there were more |
| WatchBackend.EventQueue.EventAt | examples/copy/.mooncakes/i5ting/chokidar/fs_native.c:301-334 | the accessors show the kept events and, behind them, the overflow |
| WatchBackend.ReportedIs | examples/copy/.mooncakes/i5ting/chokidar/fs_native.c:64-88 | up to 1024 events are reported as they are; of more, the first 1024 and one event called `overflow` |
| WatchBackend.DrainEvents | examples/copy/.mooncakes/i5ting/chokidar/backend_native.mbt:106-131 | count, read and clear reports what arrived before and what `EventsAre` describes, up to the limit of `ReportedIs` |
| WatchBackend.NothingLostSilently | examples/copy/.mooncakes/i5ting/chokidar/backend_native.mbt:106-131 | a report is complete exactly when it carries no overflow mark |
| WatchBackend.EventsAre | examples/copy/.mooncakes/i5ting/chokidar/fs_native.c:211-228 | the records that make events are exactly those whose descriptor is in the table, in order; each makes one event called `change` that holds the path of the first entry with that descriptor and the name of the file without its padding |
| WatchBackend.Poll | examples/copy/.mooncakes/i5ting/chokidar/fs_native.c:211-228 | the events of the kernel records, which `EventsAre` describes, are appended to the queue |
| WatchBackend.WatchTable.StartWatch | examples/copy/.mooncakes/i5ting/chokidar/fs_native.c:230-295 | a new watch, with its path up to a NUL, goes to the end of a table ordered by handle with at most 256 entries; failures leave it alone |
| WatchBackend.WatchTable.CloseId | examples/copy/.mooncakes/i5ting/chokidar/fs_native.c:249-262 | shifting removes exactly the closed handle |
| WatchBackend.StartThenClose | examples/copy/.mooncakes/i5ting/chokidar/fs_native.c:249-262 | closing a watch just started restores the table |
| FileReader.Reader.Read | stream/file_reader_stub.c:63-81 | one chunk, full unless it is the last or a read failed; the empty one closes the file and stays empty |
| FileReader.ReadAll | stream/file_byte_stream.mbt:24-56 | reading until the first empty chunk gives a beginning of the file, and exactly its chunks when no read failed, and leaves the reader closed |
| FileReader.ChunksMakeFile | stream/file_reader_stub.c:63-81 | the chunks concatenate to the file and all but the last are full |
| FileReader.Reader.Open | stream/file_reader_stub.c:46-55 | a missing file gives a handle that is not open; the counter stays the number of open readers |
| FileReader.Reader.Close | stream/file_reader_stub.c:273-279 | closing or finalizing any number of times closes the file once and keeps the counter exact |
| FileReader.Writer.Write | stream/file_reader_stub.c:129-135 | what was written is appended; true exactly when that is the whole chunk; a closed writer refuses |
| FileReader.Writer.Close | stream/file_reader_stub.c:281-289 | the same for writers, also when the system reports a failure, which is passed on |
| CliArgs.ParseArgs | cli/args.mbt:28-92 | the loop computes the recursive parser, with the same errors in the same order |
| CliArgs.AcceptedIffGroups | cli/args.mbt:28-92 | arguments are accepted if and only if they split into option groups with at most one action; the last config and the last verbosity win |
| CliArgs.RefusedIff | cli/args.mbt:28-92 | a list is refused with a given error if and only if it starts with accepted groups and goes on with what that error names: a config flag, `--tree` or `--watch` without its value, a second action, or an unknown flag |
| CliArgs.FlagTable | cli/args.mbt:28-92 | the flags one by one |
| CliArgs.ErrorTable | cli/args.mbt:28-92 | the errors one by one |
| CliArgs.OptionsMayMove | cli/args.mbt:28-92 | any two well-formed lists with the same config groups, the same verbosity groups and the same action, each in their order, parse alike, however they are mixed |
| CliArgs.PrintRoundTrip | cli/args.mbt:16-92 | parsing undoes printing for every task name that is not itself a flag |

## Left out

- The concrete jobs of the thread pool: one system call and an error copy each.
- Reordering of memory accesses below the level of single shared accesses; pipe writes of four bytes are atomic.
- What a signal does to the program once the event loop has taken it out of the pipe, timers and file-descriptor events of the event loop; a failed event loop's cleanup.
- `float` square root, `fabs`, population counts, the 64-bit bit counts.
- SqrtError.LastRound: states a looser lower bound than the comment in the source: the bound proved for the second estimate is looser than the measured one that the comment builds on. It is enough for the result.
- Sqrt.Approximate: states the looser bound that follows from it, one and a half units where the comment has 1.035.
- Subnormal results cannot occur for the square root of a double; the floating-point exception flags it raises are not modelled.
- Reference counting in the generated C.
- Growth beyond 2^30 units or bytes, where the doubling wraps around.
- ThreadPoolSafety.StepKeepsInv: assumes that at most 2^31 jobs were submitted; CompleteIffNumbersLast shows that the jobs after that are not sure to be finished.
- ThreadPoolSafety.RunsKeepInv: the same.
- Process.RunShell: the names of the temporary files, the removal of those files, and Windows exit statuses are not modelled.
- ThreadPoolNumbers.LostJob: with pipes and fewer than two threads or three places in the buffer, the run finishes the first job, which waits for signals in the source, before the others.
- Walk.TextRoundTrip: is about the bytes of the names; the lossy UTF-8 decoding between the text and its lines is not modelled.
- StringBuilders.StringBuilder.constructor: the hint 2^31 - 1 is excluded; what the runtime does when asked for a negative capacity is not part of this model.
- Walk.WalkInto: allocation succeeds; a failed one could leave a line without its newline.
- RemoveTree.RemovePath: symbolic links above the removed path, and other processes changing the tree meanwhile, are not modelled; a trailing slash is not followed through a link. A directory is listed at once, not entry by entry.
- WatchBackend.Poll: kernel behaviour, such as one watch descriptor for two watches of the same path, and failed allocations are not modelled; of the three platform branches only the inotify one is.
- The watch loop, debouncing, the task registry, streams and the TypeScript, JavaScript and Go programs of the repository.
- The same runtime code compiled under other package names in `cli_runtime.internal_test.c`.
