# JOS kernel monitor, modelled in Dafny

This project models the command interpreter of the JOS teaching kernel (`kern/monitor.c`). The
modelled parts are:

- the fixed command table;
- the `help`, `kerninfo`, `backtrace` and `time` commands;
- `runcmd`, which splits a line in place and dispatches it;
- the `monitor` loop, which greets the user and then runs lines until a command returns a
  negative value.

Modules:

- `Base` holds 32-bit words and the C conversions the code relies on: wrap-around `+`/`-` and
  two's-complement readings.
- `Tokenizer` is the in-place parser of `runcmd`, written as methods over the `array<char>` line
  buffer. It is proved against the functions `StartsBelow`, `Parse`, `Blank` and `Tokens`.
- `KernInfo` holds the `mon_kerninfo` arithmetic: physical address = virtual − `KERNBASE`, and
  the footprint `(end-entry+1023)/1024` with i386 wrap-around and C division.
- `Backtrace` is the frame-pointer walk of `mon_backtrace`. Memory is a total map from
  addresses to words, and `debuginfo_eip` is a function supplied as input.
- `Timing` rebuilds the 64-bit counter from the two `rdtsc` halves and computes the `uint64_t`
  difference printed with `%lld`.
- `Monitor` holds the table, the handlers, the dispatcher, `runcmd` and the loop.

Each imperative operation (a method) is proved equal to a specification function (`InvokeSpec`,
`TimeSpec`, `DispatchSpec`, `RunSpec`, `Steps`). The lemmas about those functions state the
promises of the source.

Console output is a sequence of `Line` records, one per line printed. What the commands read
from the hardware is input, collected in `Machine`:

- the linker symbols;
- `debuginfo_eip`, as a function of the address;
- the stack at each backtrace: its memory, the `ebp` that `mon_backtrace` reads, and what
  `read_eip` returns;
- the `rdtsc` readings.

Every `rdtsc` and every start of a backtrace is an observation of the machine. Observations
are numbered from 0 in the order they happen; observation k reads `tsc(k)` or `stack(k)`.
`runcmd` and the handlers carry the count of observations made so far, so each backtrace call
gets its own stack. The stack depends on the call: for example, on the call's `argc` and
`argv`, and on whether `mon_time` made the call.

## Model

| member | source | states |
|---|---|---|
| Monitor.Lookup | kern/monitor.c:222-225 | the result is the first table index whose name equals the word, or none when no entry carries that name |
| Monitor.LookupFindsEach | kern/monitor.c:24-29 | every table entry is the one the name search finds for its own name (the four names are distinct) |
| Monitor.DefinedByTable | kern/monitor.c:155 | dispatching a line is defined exactly when running the entry named `argv[0]` is: only `time` reads `argv[1]`, and it dispatches `argv+1` in turn |
| Monitor.UnknownDefined | kern/monitor.c:222-227 | a word that names no entry is never `time`, so dispatching it is defined |
| Monitor.MonHelp | kern/monitor.c:36-44 | returns 0 and prints one `name - desc` line per table entry, in table order |
| Monitor.HelpListsEachOnce | kern/monitor.c:41-42 | the listing names each command exactly once, at the command's position in the table |
| Monitor.MonKerninfo | kern/monitor.c:46-59 | header, then `entry`, `etext`, `edata`, `end` in that order, each with a physical address that maps back to its virtual one, then the footprint line |
| KernInfo.PhysAddr | kern/monitor.c:52-55 | `va - KERNBASE` on 32-bit pointers: exact above `KERNBASE`, wrapped below it |
| KernInfo.PhysKernRoundTrip | kern/monitor.c:52-55 | physical and kernel-virtual addresses are inverse translations of each other |
| KernInfo.CDiv | kern/monitor.c:57 | C `int` division truncates toward zero: for a non-negative dividend the quotient times the divisor is at most the dividend and within one divisor of it, for a negative one at least the dividend and within one divisor of it |
| KernInfo.FootprintKB | kern/monitor.c:56-57 | for an image below 2 GB the footprint is the size in bytes rounded up to whole kilobytes, the wrap-around and C division notwithstanding |
| Base.Add32 | kern/monitor.c:133 | 32-bit address arithmetic is congruent to the exact sum modulo 2^32 |
| Base.Sub32 | kern/monitor.c:143 | 32-bit subtraction undoes addition modulo 2^32 and is exact when no borrow occurs |
| Base.Signed32 | kern/monitor.c:143 | `%+d` reads a word as the two's-complement value in [-2^31, 2^31) congruent to it |
| Backtrace.PrintFrame | kern/monitor.c:134-143 | one loop iteration prints `eip`, `ebp`, the five words above the saved return address, and file, line, name and offset from `debuginfo_eip` |
| Backtrace.MonBacktrace | kern/monitor.c:130-144 | the loop prints exactly the walk of the frame-pointer chain, stopping at the first zero frame pointer |
| Backtrace.FrameAt | kern/monitor.c:134-143 | a frame shows the five words from `ebp+8` on, the first `fnNameLen` characters of the function's name, and the offset of `eip` into the function as a signed 32-bit value |
| Backtrace.Walk | kern/monitor.c:133-144 | the walk prints at most one frame per link, only frames with a non-zero frame pointer, and some frame exactly when it starts from a non-zero one |
| Backtrace.WalkStep | kern/monitor.c:133 | a non-zero frame pointer prints its frame, then the walk continues from the saved `ebp` and the word beside it |
| Backtrace.WalkFuelIrrelevant | kern/monitor.c:133 | the walk ends at the zero frame pointer: any bound within which the chain ends gives the same frames |
| Backtrace.BacktraceIsWalk | kern/monitor.c:133-144 | the backtrace equals the bounded walk under any bound within which the chain ends |
| Backtrace.WalkShape | kern/monitor.c:133-143 | one frame per non-zero frame pointer in chain order, ending at the first zero; the first frame uses the starting `eip`, each later one slot 1 of its own frame |
| Timing.Counter | kern/monitor.c:177-178 | `lo ^ (hi << 32)` on `uint64_t` is `hi * 2^32 + lo` and fits in 64 bits |
| Timing.XorDisjoint | kern/monitor.c:177-178 | the exclusive or of a value below 2^k and a multiple of 2^k is their sum |
| Timing.Pow2At32 | kern/monitor.c:177 | shifting by 32 multiplies by 2^32 |
| Timing.ShiftHigh | kern/monitor.c:177-178 | a 32-bit high half shifted left by 32 loses no bit of a `uint64_t` and leaves room for the low half below it |
| Timing.Xor | kern/monitor.c:177-178 | the bitwise exclusive or never exceeds the sum of its operands |
| Timing.Delta | kern/monitor.c:179 | the `uint64_t` difference is the unique value below 2^64 that, added to the first counter, gives the second modulo 2^64 |
| Timing.Signed64 | kern/monitor.c:179 | `%lld` reads the difference as the two's-complement value congruent to it |
| Timing.Cycles | kern/monitor.c:177-179 | the printed count is a `long long`, and whenever the counter moved by an amount a `long long` can hold, forward or back, it is exactly that amount |
| Monitor.MonTime | kern/monitor.c:149-184 | the loop over the table does what `TimeSpec` says: it runs the entry named `argv[1]` on `argv+1` between two `rdtsc` readings, prints its cycles, and returns 42 |
| Monitor.TimeLoopMatchesSpec | kern/monitor.c:154-181 | scanning the whole table runs at most one entry, the one `argv[1]` names, once |
| Monitor.TimeLoopNone | kern/monitor.c:154-155 | while no entry examined so far is named `argv[1]`, nothing is printed or read |
| Monitor.TimeLoopOne | kern/monitor.c:154-181 | once the entry named `argv[1]` has been passed, the loop has made exactly its timed run |
| Monitor.TimeOutcome | kern/monitor.c:149-184 | returns 42; an unknown `argv[1]` prints nothing and reads no counter; a known one runs once, its output followed by the cycles between the readings taken before and after it |
| Monitor.Invoke | kern/monitor.c:224 | calling a table entry's function does what `InvokeSpec` says for its handler; a backtrace walks the stack of the current observation and consumes it |
| Monitor.InvokeReturns | kern/monitor.c:36-184 | `mon_time` returns 42 and every other handler returns 0 |
| Monitor.Dispatch | kern/monitor.c:219-227 | an empty line returns 0; otherwise the first entry named `argv[0]` runs with the whole vector and its result is returned, or the unknown-command message is printed and 0 returned |
| Monitor.DispatchRuns | kern/monitor.c:222-224 | a word found in the table runs that entry, and `runcmd` returns its result unchanged |
| Monitor.DispatchUnknown | kern/monitor.c:226-227 | a word in no entry prints `Unknown command` and runs nothing |
| Monitor.DispatchNeverNegative | kern/monitor.c:219-227 | dispatch never returns a negative value with this table |
| Tokenizer.NulAt | kern/monitor.c:203 | the terminator is the first NUL of the buffer |
| Tokenizer.Run | kern/monitor.c:214-215 | an argument is the longest run of bytes from its start that are neither NUL nor whitespace |
| Tokenizer.CStr | kern/monitor.c:213 | the string an `argv` pointer denotes runs up to, not including, the next NUL |
| Tokenizer.StartsBelowExact | kern/monitor.c:201-216 | the recorded starts are exactly the positions where an argument begins, in increasing order |
| Tokenizer.StartsBelowPrefix | kern/monitor.c:201-216 | scanning further only appends argument starts |
| Tokenizer.TokenIntact | kern/monitor.c:203-204 | blanking the whitespace leaves each argument's bytes intact and NUL-terminates it |
| Tokenizer.SkipSpace | kern/monitor.c:203-204 | overwrites whitespace with NUL and stops at the terminator or at the start of the next argument, recording no start |
| Tokenizer.SkipArg | kern/monitor.c:214-215 | moves past one argument, whose start is the only one recorded for it |
| Tokenizer.ArgStarts | kern/monitor.c:213-215 | past an argument that starts at `q`, `q` is the one new start |
| Tokenizer.SixteenthStart | kern/monitor.c:209-212 | when a sixteenth argument begins, the line has too many arguments and the scan stops there |
| Tokenizer.BlankFrom | kern/monitor.c:204 | a buffer that agrees byte by byte with the blanked line is the blanked line |
| Tokenizer.ScanArgs | kern/monitor.c:199-216 | the parsing loop stops at the terminator or at the first byte of a sixteenth argument, with every start before that point in `argv` |
| Tokenizer.Tokenize | kern/monitor.c:198-217 | succeeds exactly when the line has at most 15 arguments; `argv` then holds their starts and a null pointer, and only the whitespace the scan passed is overwritten |
| Tokenizer.ArgStrings | kern/monitor.c:213-217 | reading each `argv[i]` as a C string from the blanked buffer gives the i-th token of the line |
| Tokenizer.TokenAt | kern/monitor.c:213-217 | the i-th argument string in the blanked buffer is the i-th token |
| Tokenizer.Tokens | kern/monitor.c:198-217 | a parsed line has fewer than 16 arguments |
| Monitor.RunCmd | kern/monitor.c:191-228 | `runcmd` blanks the line in place up to where its scan stops, refuses a sixteenth argument with `Too many arguments (max 16)`, and otherwise dispatches the tokens |
| Monitor.BlankLineDoesNothing | kern/monitor.c:205-206 | a line of whitespace prints nothing, runs nothing and returns 0 |
| Monitor.SixteenthArgRefused | kern/monitor.c:209-212 | a sixteenth argument is refused with 0 and no command runs |
| Monitor.RunNeverNegative | kern/monitor.c:191-228 | `runcmd` never returns a negative value with this table |
| Monitor.LineBuffer | kern/monitor.c:240 | the buffer `readline` returns is NUL-terminated |
| Monitor.NewLineBuffer | kern/monitor.c:240 | `readline` hands over a fresh buffer holding the line's characters and a NUL |
| Monitor.RunLine | kern/monitor.c:240-242 | running a line read by `readline` is `runcmd` on its NUL-terminated buffer |
| Monitor.Turn | kern/monitor.c:240-243 | one turn of the loop: a null line is skipped, any other is run by `runcmd`, and a negative result ends the loop |
| Monitor.Monitor | kern/monitor.c:230-245 | greets, skips null lines, runs the others in order, and leaves right after the first line whose command returns a negative value, reading nothing after it |
| Monitor.MonitorNeverExits | kern/monitor.c:20-21 | no command of this table returns a negative value, so the monitor never leaves its loop |
| Monitor.StaysWhileNonNegative | kern/monitor.c:242-243 | the loop is left only when `runcmd` returns a negative value |
| Monitor.ExitIsFinal | kern/monitor.c:242-243 | once the loop has been left, later input changes nothing |
| Monitor.OutputGrows | kern/monitor.c:235-243 | the console only grows, and always begins with the two greeting lines |

## Left out

- `start_overflow`, `overflow_me`, `do_overflow` and `read_pretaddr` (lines 61-115) are left
  out. They are a buffer-overflow exercise that rewrites a return address through `%n`, which
  has no meaning in this model. `mon_backtrace`'s call to it (line 121) is dropped.
- Inline assembly is not modelled. The values it reads are inputs: `read_eip` (lines 250-256),
  `movl %ebp` (line 131), and `rdtsc` (lines 163-175), read through `Machine.stack` and
  `Machine.tsc`.
- Console I/O is not modelled. `cprintf` and `cputchar` become `Line` records, and the exact
  spacing and hex formatting are not modelled.
- `debuginfo_eip` is an input function (kern/kdebug.c is not part of this model). Its return
  value is ignored by the source and here.
- The trap frame is left out. It is passed to every handler and read by none.
- `strcmp` and `strchr` are modelled as sequence equality and membership in `WHITESPACE`.
- `readline` becomes the sequence of its results, where `None` is a null line. The model stops
  when the input is used up, whereas the C loop runs forever.
- Monitor.Monitor requires every line to have defined behaviour. A line whose words are all
  `time` makes `mon_time` pass `argv[1] == NULL` to `strcmp`. `RunEffect` gives such lines no
  effect, and `InputDefined` rules them out.
- Monitor.Monitor: the stack each backtrace walks is an input, one per observation. The model
  does not derive its contents from the call: it does not say that the first frame's argument
  window holds the call's own `argc`, `argv` and trap frame, nor that a call made by `mon_time`
  has one more frame. That would need a model of the C calling convention.
- Backtrace.MonBacktrace requires that the frame-pointer chain reaches zero, and the model's
  stacks (`Backtrace.Stack`) are such stacks. A cyclic chain makes the C loop run forever.
  Memory is total, so the final read of slot 1 at address 4, after `ebp` became 0, yields some
  word and affects nothing.
- The descriptions of the command table are held as tags, turned into text by `Text`.

## Notes on the source

- The backtrace loop's update `ebp = ebp[0], eip = ebp[1]` runs left to right, so each later
  `eip` is read from the frame of the new `ebp`, that is from the caller's frame and not the
  callee's. The model follows the code.
- `runcmd` prints `Too many arguments (max 16)` but accepts at most 15 arguments, because one
  `argv` slot is kept for the null pointer. The model follows the code.
- `mon_time` prints the counter difference as a signed `%lld`. A difference of 2^63 or more
  prints as negative. `Timing.Cycles` states when the printed value is the elapsed count.
