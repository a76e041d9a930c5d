/** The kernel monitor's command interpreter: the fixed command table, `mon_help`,
    `mon_kerninfo`, `mon_time`, the dispatcher and `runcmd`, and the read-eval loop `monitor`.

    Console output is a sequence of `Line` records, one per printed line. What inline assembly
    reads (the stack, `ebp`, `eip`, the time-stamp counter) and what `debuginfo_eip` answers
    are inputs, collected in a `Machine`. Every `rdtsc` and every start of a backtrace is an
    observation of the machine; observations are numbered from 0 in the order they happen,
    and the k-th one reads the k-th entry of the corresponding input. */
module Monitor {
  import opened Base
  import Timing
  import KernInfo
  import Backtrace
  import Tokenizer

  /** The four handler functions of kern/monitor.c. */
  datatype Handler = HelpCmd | KerninfoCmd | BacktraceCmd | TimeCmd

  /** The descriptions of the table's entries. They are kept apart from the entries (as
      `Text`) so that reasoning about names does not carry the descriptions' characters. */
  datatype Description = HelpDesc | KerninfoDesc | BacktraceDesc | TimeDesc

  /** The text of each description. */
  function Text(d: Description): string
  {
    match d
    case HelpDesc => "Display this list of commands"
    case KerninfoDesc => "Display information about the kernel"
    case BacktraceDesc => "Display the backtrace information"
    case TimeDesc => "Run the command and display its time usage"
  }

  /** `struct Command`: a name, a description and a handler. */
  datatype Command = Command(name: string, desc: Description, handler: Handler)

  /** The `commands` table, in its source order. */
  const Commands: seq<Command> := [
    Command("help", HelpDesc, HelpCmd),
    Command("kerninfo", KerninfoDesc, KerninfoCmd),
    Command("backtrace", BacktraceDesc, BacktraceCmd),
    Command("time", TimeDesc, TimeCmd)
  ]

  /** One line of console output. */
  datatype Line =
    | Welcome                                       // "Welcome to the JOS kernel monitor!"
    | HelpHint                                      // "Type 'help' for a list of commands."
    | CommandLine(name: string, desc: string)       // "%s - %s"
    | SymbolsHeader                                 // "Special kernel symbols:"
    | Symbol(sym: string, virt: Word, phys: Word)   // "  entry  %08x (virt)  %08x (phys)"
    | Footprint(kb: int)                            // "Kernel executable memory footprint: %dKB"
    | BacktraceHeader                               // "Stack backtrace:"
    | FrameLine(frame: Backtrace.Frame)             // one frame of the backtrace
    | CyclesLine(name: string, cycles: int)         // "%s cycles: %lld"
    | TooManyArgs(max: nat)                         // "Too many arguments (max %d)"
    | UnknownCommand(name: string)                  // "Unknown command '%s'"

  /** What the monitor's commands read from the machine. The stack a backtrace walks depends on
      the call (its arguments, whether `mon_time` called it), so each call gets its own. */
  datatype Machine = Machine(
    symbols: KernInfo.Symbols,                     // the linker symbols `mon_kerninfo` prints
    stack: nat -> Backtrace.Stack,                 // the stack, `ebp` and `read_eip()` at observation k
    lookup: Word -> Backtrace.DebugInfo,           // `debuginfo_eip`
    tsc: nat -> Timing.Reading)                    // the `rdtsc` reading at observation k

  /** The result of running a command: its return value, what it printed, and how many
      observations of the machine have been made once it returns. */
  datatype Effect = Effect(ret: int, out: seq<Line>, clock: nat)

  /** The first entry of `table` whose name is `name`, if any. */
  function Lookup(table: seq<Command>, name: string): (r: Option<nat>)
    ensures r.Some? ==> r.value < |table| && table[r.value].name == name
    ensures r.Some? ==> forall j :: 0 <= j < r.value ==> table[j].name != name
    ensures r.None? ==> forall j :: 0 <= j < |table| ==> table[j].name != name
  {
    if |table| == 0 then None
    else if table[0].name == name then Some(0)
    else match Lookup(table[1..], name)
      case None => None
      case Some(k) => Some(k + 1)
  }

  /** No two entries of the table share a name. */
  lemma NamesDistinct()
    ensures forall i, j :: 0 <= i < j < |Commands| ==> Commands[i].name != Commands[j].name
  {
  }

  /** Every entry of the table is the one `Lookup` finds for its name. */
  lemma LookupFindsEach(i: nat)
    requires i < |Commands|
    ensures Lookup(Commands, Commands[i].name) == Some(i)
  {
    NamesDistinct();
  }

  /** Running handler `h` on `args` has defined behaviour: `mon_time` needs an `argv[1]` (with
      fewer arguments it passes a null pointer to `strcmp`), and the command it runs must be
      defined too. */
  ghost predicate CallDefined(h: Handler, args: seq<string>)
  {
    h.TimeCmd? ==> |args| >= 2 && DispatchDefined(args[1..])
  }

  /** Dispatching `args` has defined behaviour. Only `time` reads `argv[1]`, and it dispatches
      `argv + 1` in turn, so a line goes wrong exactly when every word of it is `time`;
      `DefinedByTable` shows that this agrees with the table. */
  ghost predicate DispatchDefined(args: seq<string>)
  {
    |args| == 0 || exists i :: 0 <= i < |args| && args[i] != "time"
  }

  /** Definedness follows the dispatcher: dispatching `args` is defined exactly when running
      the entry named `argv[0]` on `args` is, and a name outside the table is always defined. */
  lemma DefinedByTable(args: seq<string>, i: nat)
    requires |args| > 0 && i < |Commands| && Commands[i].name == args[0]
    ensures DispatchDefined(args) <==> CallDefined(Commands[i].handler, args)
  {
    if Commands[i].handler.TimeCmd? {
      if DispatchDefined(args) {
        var j :| 0 <= j < |args| && args[j] != "time";
        assert args[1..][j - 1] == args[j];
      }
      if CallDefined(Commands[i].handler, args) {
        var j :| 0 <= j < |args| - 1 && args[1..][j] != "time";
        assert args[j + 1] == args[1..][j];
      }
    } else {
      assert args[0] != "time";
    }
  }

  /** A name that no entry carries is never `time`, so dispatching it is defined. */
  lemma UnknownDefined(args: seq<string>)
    requires |args| > 0 && Lookup(Commands, args[0]).None?
    ensures DispatchDefined(args)
  {
    assert Commands[3].name == "time";
  }

  /** What `mon_help` prints: one line per table entry, in table order. */
  function HelpListing(): seq<Line>
  {
    seq(|Commands|, i requires 0 <= i < |Commands| => CommandLine(Commands[i].name, Text(Commands[i].desc)))
  }

  /** `mon_help`: lists every command with its description and returns 0. */
  method MonHelp() returns (ret: int, out: seq<Line>)
    ensures ret == 0
    ensures |out| == |Commands|
    ensures forall i :: 0 <= i < |Commands| ==> out[i] == CommandLine(Commands[i].name, Text(Commands[i].desc))
  {
    out := [];
    for i := 0 to |Commands|
      invariant |out| == i
      invariant forall j :: 0 <= j < i ==> out[j] == CommandLine(Commands[j].name, Text(Commands[j].desc))
    {
      out := out + [CommandLine(Commands[i].name, Text(Commands[i].desc))];
    }
    ret := 0;
  }

  /** `mon_help` names each command exactly once, at its position in the table. */
  lemma HelpListsEachOnce(k: nat)
    requires k < |Commands|
    ensures HelpListing()[k].name == Commands[k].name
    ensures forall i :: 0 <= i < |Commands| && HelpListing()[i].name == Commands[k].name ==> i == k
  {
    NamesDistinct();
  }

  /** What `mon_kerninfo` prints: a header, then `entry`, `etext`, `edata` and `end` in that
      order, each with the physical address that maps back to it, and last the image footprint
      in kilobytes. */
  function MonKerninfo(sym: KernInfo.Symbols): (out: seq<Line>)
    ensures |out| == 6 && out[0] == SymbolsHeader
    ensures forall i :: 1 <= i <= 4 ==> out[i].Symbol? && KernInfo.KernAddr(out[i].phys) == out[i].virt
    ensures [out[1].virt, out[2].virt, out[3].virt, out[4].virt] == [sym.entry, sym.etext, sym.edata, sym.end]
    ensures out[5] == Footprint(KernInfo.FootprintKB(sym.entry, sym.end))
  {
    KernInfo.PhysKernRoundTrip(sym.entry, 0);
    KernInfo.PhysKernRoundTrip(sym.etext, 0);
    KernInfo.PhysKernRoundTrip(sym.edata, 0);
    KernInfo.PhysKernRoundTrip(sym.end, 0);
    [SymbolsHeader,
     Symbol("entry", sym.entry, KernInfo.PhysAddr(sym.entry)),
     Symbol("etext", sym.etext, KernInfo.PhysAddr(sym.etext)),
     Symbol("edata", sym.edata, KernInfo.PhysAddr(sym.edata)),
     Symbol("end", sym.end, KernInfo.PhysAddr(sym.end)),
     Footprint(KernInfo.FootprintKB(sym.entry, sym.end))]
  }

  /** The lines `mon_backtrace` prints for its frames. */
  function FrameLines(frames: seq<Backtrace.Frame>): seq<Line>
  {
    seq(|frames|, i requires 0 <= i < |frames| => FrameLine(frames[i]))
  }

  /** What running handler `h` on `args` does. */
  ghost function InvokeSpec(h: Handler, args: seq<string>, m: Machine, clock: nat): Effect
    requires |args| >= 1 && CallDefined(h, args)
    decreases |args|, 1, 0
  {
    match h
    case HelpCmd => Effect(0, HelpListing(), clock)
    case KerninfoCmd => Effect(0, MonKerninfo(m.symbols), clock)
    case BacktraceCmd =>
      var st := m.stack(clock);
      Effect(0, [BacktraceHeader] + FrameLines(Backtrace.Backtrace(st.mem, m.lookup, st.ebp, st.eip)), clock + 1)
    case TimeCmd => TimeSpec(args, m, clock)
  }

  /** What `mon_time` does: the timed run of the entry named `argv[1]`, or nothing at all when
      no entry has that name; it returns 42 either way. */
  ghost function TimeSpec(args: seq<string>, m: Machine, clock: nat): Effect
    requires |args| >= 2 && DispatchDefined(args[1..])
    decreases |args|, 0, 1
  {
    match Lookup(Commands, args[1])
    case None => Effect(42, [], clock)
    case Some(j) => TimedRun(args, j, m, clock)
  }

  /** One timed run inside `mon_time`: an `rdtsc` reading, entry `i` run on `argv + 1`, a second
      reading, and the line reporting the cycles between the two after the entry's own output. */
  ghost function TimedRun(args: seq<string>, i: nat, m: Machine, clock: nat): Effect
    requires |args| >= 2 && DispatchDefined(args[1..])
    requires i < |Commands| && Commands[i].name == args[1]
    decreases |args|, 0, 0
  {
    DefinedByTable(args[1..], i);
    var inner := InvokeSpec(Commands[i].handler, args[1..], m, clock + 1);
    var cycles := Timing.Cycles(m.tsc(clock), m.tsc(inner.clock));
    Effect(42, inner.out + [CyclesLine(args[1], cycles)], inner.clock + 1)
  }

  /** `mon_time`'s loop after it has examined the first `n` table entries: every entry named
      `argv[1]` so far has had its timed run, in table order. */
  ghost function TimeLoop(args: seq<string>, n: nat, m: Machine, clock: nat): Effect
    requires |args| >= 2 && DispatchDefined(args[1..]) && n <= |Commands|
    decreases |args|, 0, n
  {
    if n == 0 then Effect(42, [], clock)
    else
      var before := TimeLoop(args, n - 1, m, clock);
      if Commands[n - 1].name == args[1] then
        var run := TimedRun(args, n - 1, m, before.clock);
        Effect(42, before.out + run.out, run.clock)
      else before
  }

  /** What dispatching `args` does: nothing for an empty line, the first entry named
      `argv[0]`, or the unknown-command message. */
  ghost function DispatchSpec(args: seq<string>, m: Machine, clock: nat): Effect
    requires DispatchDefined(args)
  {
    if |args| == 0 then Effect(0, [], clock)
    else match Lookup(Commands, args[0])
      case None => Effect(0, [UnknownCommand(args[0])], clock)
      case Some(i) =>
        DefinedByTable(args, i);
        InvokeSpec(Commands[i].handler, args, m, clock)
  }

  /** A command line whose parsing and dispatch have defined behaviour. */
  ghost predicate LineDefined(s: seq<char>)
  {
    '\0' in s && (Tokenizer.Parse(s).Args? ==> DispatchDefined(Tokenizer.Tokens(s)))
  }

  /** What `runcmd` does with a NUL-terminated line. */
  ghost function RunSpec(s: seq<char>, m: Machine, clock: nat): Effect
    requires LineDefined(s)
  {
    match Tokenizer.Parse(s)
    case TooMany => Effect(0, [TooManyArgs(Tokenizer.MAXARGS)], clock)
    case Args(_) => DispatchSpec(Tokenizer.Tokens(s), m, clock)
  }

  /** `mon_time`: runs every table entry named `argv[1]` on `(argc - 1, argv + 1)` between two
      `rdtsc` readings, prints the cycles each took, and returns 42. */
  method MonTime(args: seq<string>, m: Machine, clock: nat) returns (e: Effect)
    requires |args| >= 2 && DispatchDefined(args[1..])
    ensures e == TimeSpec(args, m, clock)
    decreases |args|, 0
  {
    var out: seq<Line> := [];
    var c: nat := clock;
    for i := 0 to |Commands|
      invariant Effect(42, out, c) == TimeLoop(args, i, m, clock)
    {
      var cmd := Commands[i];
      if args[1] == cmd.name {
        DefinedByTable(args[1..], i);
        var before := m.tsc(c);
        var inner := Invoke(cmd.handler, args[1..], m, c + 1);
        var after := m.tsc(inner.clock);
        out := out + inner.out + [CyclesLine(args[1], Timing.Cycles(before, after))];
        c := inner.clock + 1;
      }
      assert Effect(42, out, c) == TimeLoop(args, i + 1, m, clock);
    }
    TimeLoopMatchesSpec(args, m, clock);
    e := Effect(42, out, c);
  }

  /** `commands[i].func(argc, argv, tf)`: runs one handler. */
  method Invoke(h: Handler, args: seq<string>, m: Machine, clock: nat) returns (e: Effect)
    requires |args| >= 1 && CallDefined(h, args)
    ensures e == InvokeSpec(h, args, m, clock)
    decreases |args|, 1
  {
    match h
    case HelpCmd =>
      var ret, out := MonHelp();
      e := Effect(ret, out, clock);
    case KerninfoCmd =>
      e := Effect(0, MonKerninfo(m.symbols), clock);
    case BacktraceCmd =>
      var st := m.stack(clock);
      var frames := Backtrace.MonBacktrace(st.mem, m.lookup, st.ebp, st.eip);
      e := Effect(0, [BacktraceHeader] + FrameLines(frames), clock + 1);
    case TimeCmd =>
      e := MonTime(args, m, clock);
  }

  /** The lookup half of `runcmd`: an empty line does nothing; otherwise the first entry
      named `argv[0]` runs and its result is returned; an unknown name is reported. */
  method Dispatch(args: seq<string>, m: Machine, clock: nat) returns (e: Effect)
    requires DispatchDefined(args)
    ensures e == DispatchSpec(args, m, clock)
  {
    if |args| == 0 {
      return Effect(0, [], clock);
    }
    for i := 0 to |Commands|
      invariant forall j :: 0 <= j < i ==> Commands[j].name != args[0]
    {
      if args[0] == Commands[i].name {
        DefinedByTable(args, i);
        e := Invoke(Commands[i].handler, args, m, clock);
        return;
      }
    }
    e := Effect(0, [UnknownCommand(args[0])], clock);
  }

  /** `runcmd`: parses the line in place and dispatches its arguments. */
  method RunCmd(buf: array<char>, m: Machine, clock: nat) returns (e: Effect)
    requires LineDefined(buf[..])
    modifies buf
    ensures buf[..] == Tokenizer.Blank(old(buf[..]), Tokenizer.ScanEnd(old(buf[..])))
    ensures e == RunSpec(old(buf[..]), m, clock)
  {
    ghost var s := buf[..];
    var ok, argc, argv := Tokenizer.Tokenize(buf);
    if !ok {
      e := Effect(0, [TooManyArgs(Tokenizer.MAXARGS)], clock);
      return;
    }
    var args := Tokenizer.ArgStrings(buf, argv, argc, s);
    e := Dispatch(args, m, clock);
  }

  /** The monitor's state after some lines of input: whether it has left its loop, everything
      printed so far, and the number of observations of the machine made so far. */
  datatype Session = Session(exited: bool, out: seq<Line>, clock: nat)

  /** The NUL-terminated buffer `readline` hands to `runcmd` for a line. */
  function LineBuffer(line: string): (b: seq<char>)
    ensures '\0' in b
  {
    line + ['\0']
  }

  /** The buffer `readline` fills: the line's characters followed by a NUL. */
  method NewLineBuffer(line: string) returns (buf: array<char>)
    ensures fresh(buf) && buf[..] == LineBuffer(line)
  {
    buf := new char[|line| + 1](k requires 0 <= k <= |line| => if k < |line| then line[k] else '\0');
    assert buf[..] == LineBuffer(line);
  }

  /** `runcmd` on the buffer `readline` returned for `line`. */
  method RunLine(line: string, m: Machine, clock: nat) returns (e: Effect)
    requires LineDefined(LineBuffer(line))
    ensures e == RunSpec(LineBuffer(line), m, clock) == RunEffect(m)(line, clock)
  {
    var buf := NewLineBuffer(line);
    e := RunCmd(buf, m, clock);
  }

  /** Every line of `input` that `readline` returns (`Some`) has defined behaviour. */
  ghost predicate InputDefined(input: seq<Option<string>>)
  {
    forall i :: 0 <= i < |input| && input[i].Some? ==> LineDefined(LineBuffer(input[i].value))
  }

  /** `runcmd` as the monitor's loop calls it: a line and the number of observations of the
      machine made so far give an `Effect`. Lines whose behaviour is undefined are given no effect here;
      `Monitor` requires that none occurs. */
  ghost function RunEffect(m: Machine): (string, nat) -> Effect
  {
    (line: string, clock: nat) =>
      if LineDefined(LineBuffer(line)) then RunSpec(LineBuffer(line), m, clock)
      else Effect(0, [], clock)
  }

  /** One turn of the monitor's loop on a result of `readline`, with `run` for `runcmd`: a null
      line is skipped, any other runs, and a negative result ends the loop. Nothing happens
      once it has ended. */
  function Step(st: Session, line: Option<string>, run: (string, nat) -> Effect): Session
  {
    if st.exited || line.None? then st
    else
      var e := run(line.value, st.clock);
      Session(e.ret < 0, st.out + e.out, e.clock)
  }

  /** The monitor after reading the first `n` results of `readline`: it greets, then takes one
      `Step` per line. */
  function Steps(input: seq<Option<string>>, n: nat, run: (string, nat) -> Effect, clock: nat): Session
    requires n <= |input|
  {
    if n == 0 then Session(false, [Welcome, HelpHint], clock)
    else Step(Steps(input, n - 1, run, clock), input[n - 1], run)
  }

  /** `monitor`: greets, then reads lines and runs them until a command returns a negative
      value. `readline`'s results are the sequence `input`; the model stops when the input is
      used up, or right after the line whose command asked to leave, having read `read` lines. */
  method Monitor(input: seq<Option<string>>, m: Machine, clock: nat) returns (session: Session, read: nat)
    requires InputDefined(input)
    ensures read <= |input| && session == Steps(input, read, RunEffect(m), clock)
    ensures !session.exited ==> read == |input|
    ensures session.exited ==> read > 0 && !Steps(input, read - 1, RunEffect(m), clock).exited
  {
    ghost var run := RunEffect(m);
    session := Session(false, [Welcome, HelpHint], clock);
    read := 0;
    while read < |input| && !session.exited
      invariant read <= |input|
      invariant session == Steps(input, read, run, clock)
      invariant session.exited ==> read > 0 && !Steps(input, read - 1, run, clock).exited
    {
      session := Turn(session, input[read], m);
      read := read + 1;
    }
  }

  /** One turn of the loop on a result of `readline`: a null line is skipped, any other is run
      by `runcmd`, and a negative result ends the loop. */
  method Turn(st: Session, line: Option<string>, m: Machine) returns (next: Session)
    requires !st.exited && (line.Some? ==> LineDefined(LineBuffer(line.value)))
    ensures next == Step(st, line, RunEffect(m))
  {
    next := st;
    if line.Some? {
      var e := RunLine(line.value, m, st.clock);
      next := Session(e.ret < 0, st.out + e.out, e.clock);
    }
  }

  /** `mon_time`'s loop over the whole table does what `TimeSpec` says: names are distinct, so
      at most one entry is run, once. */
  lemma TimeLoopMatchesSpec(args: seq<string>, m: Machine, clock: nat)
    requires |args| >= 2 && DispatchDefined(args[1..])
    ensures TimeLoop(args, |Commands|, m, clock) == TimeSpec(args, m, clock)
  {
    match Lookup(Commands, args[1])
    case None => TimeLoopNone(args, |Commands|, m, clock);
    case Some(j) => TimeLoopOne(args, |Commands|, j, m, clock);
  }

  /** `mon_time` always returns 42. If no entry is named `argv[1]` it prints nothing and reads
      no counter; otherwise it runs that entry once on `argv + 1`, after one `rdtsc` reading,
      and prints its cycle count, measured by a second reading, after the entry's own output. */
  lemma TimeOutcome(args: seq<string>, m: Machine, clock: nat)
    requires |args| >= 2 && DispatchDefined(args[1..])
    ensures TimeSpec(args, m, clock).ret == 42
    ensures Lookup(Commands, args[1]).None? ==> TimeSpec(args, m, clock) == Effect(42, [], clock)
    ensures Lookup(Commands, args[1]).Some? ==>
      var j := Lookup(Commands, args[1]).value;
      && CallDefined(Commands[j].handler, args[1..])
      && var inner := InvokeSpec(Commands[j].handler, args[1..], m, clock + 1);
      TimeSpec(args, m, clock) ==
        Effect(42, inner.out + [CyclesLine(args[1], Timing.Cycles(m.tsc(clock), m.tsc(inner.clock)))], inner.clock + 1)
  {
    if Lookup(Commands, args[1]).Some? {
      DefinedByTable(args[1..], Lookup(Commands, args[1]).value);
    }
  }

  /** While no entry examined so far is named `argv[1]`, `mon_time` has done nothing. */
  lemma {:induction false} TimeLoopNone(args: seq<string>, n: nat, m: Machine, clock: nat)
    requires |args| >= 2 && DispatchDefined(args[1..]) && n <= |Commands|
    requires forall j :: 0 <= j < n ==> Commands[j].name != args[1]
    ensures TimeLoop(args, n, m, clock) == Effect(42, [], clock)
  {
    if n > 0 {
      TimeLoopNone(args, n - 1, m, clock);
    }
  }

  /** Once the loop has passed entry `j`, the one named `argv[1]`, it has run that entry once. */
  lemma {:induction false} TimeLoopOne(args: seq<string>, n: nat, j: nat, m: Machine, clock: nat)
    requires |args| >= 2 && DispatchDefined(args[1..]) && j < n <= |Commands|
    requires Commands[j].name == args[1]
    ensures TimeLoop(args, n, m, clock) == TimedRun(args, j, m, clock)
  {
    LookupFindsEach(j);
    if n - 1 == j {
      TimeLoopNone(args, j, m, clock);
    } else {
      LookupFindsEach(n - 1);
      TimeLoopOne(args, n - 1, j, m, clock);
    }
  }

  /** A command name found in the table runs that entry with the whole argument vector, and
      `runcmd` returns its result unchanged. */
  lemma DispatchRuns(args: seq<string>, i: nat, m: Machine, clock: nat)
    requires DispatchDefined(args)
    requires |args| > 0 && i < |Commands| && Commands[i].name == args[0]
    ensures CallDefined(Commands[i].handler, args)
    ensures DispatchSpec(args, m, clock) == InvokeSpec(Commands[i].handler, args, m, clock)
  {
    LookupFindsEach(i);
    DefinedByTable(args, i);
  }

  /** A name that is in no table entry is reported, and nothing runs. */
  lemma DispatchUnknown(args: seq<string>, m: Machine, clock: nat)
    requires DispatchDefined(args)
    requires |args| > 0 && forall i :: 0 <= i < |Commands| ==> Commands[i].name != args[0]
    ensures DispatchSpec(args, m, clock) == Effect(0, [UnknownCommand(args[0])], clock)
  {
  }

  /** A line that holds only whitespace before its first NUL prints nothing, runs nothing and
      returns 0. */
  lemma BlankLineDoesNothing(s: seq<char>, m: Machine, clock: nat)
    requires '\0' in s
    requires forall k :: 0 <= k < Tokenizer.NulAt(s) ==> Tokenizer.IsSpace(s[k])
    ensures LineDefined(s)
    ensures RunSpec(s, m, clock) == Effect(0, [], clock)
  {
    Tokenizer.StartsSkip(s, 0, Tokenizer.NulAt(s), true);
  }

  /** When a sixteenth argument begins, `runcmd` reports too many arguments and returns 0
      without running any command. */
  lemma SixteenthArgRefused(s: seq<char>, p: nat, m: Machine, clock: nat)
    requires '\0' in s
    requires p < Tokenizer.NulAt(s) && Tokenizer.IsStart(s, p)
    requires |Tokenizer.StartsBelow(s, p)| == Tokenizer.MAXARGS - 1
    ensures LineDefined(s)
    ensures RunSpec(s, m, clock) == Effect(0, [TooManyArgs(Tokenizer.MAXARGS)], clock)
  {
    Tokenizer.SixteenthStart(s, p);
  }

  /** `mon_time` returns 42, every other handler 0. */
  lemma InvokeReturns(h: Handler, args: seq<string>, m: Machine, clock: nat)
    requires |args| >= 1 && CallDefined(h, args)
    ensures InvokeSpec(h, args, m, clock).ret == if h.TimeCmd? then 42 else 0
  {
    if h.TimeCmd? {
      TimeOutcome(args, m, clock);
    }
  }

  /** No command line makes `runcmd` return a negative value. */
  lemma RunNeverNegative(s: seq<char>, m: Machine, clock: nat)
    requires LineDefined(s)
    ensures RunSpec(s, m, clock).ret >= 0
  {
    if Tokenizer.Parse(s).Args? {
      DispatchNeverNegative(Tokenizer.Tokens(s), m, clock);
    }
  }

  /** Dispatching returns 0 or what a handler returned, never a negative value. */
  lemma DispatchNeverNegative(args: seq<string>, m: Machine, clock: nat)
    requires DispatchDefined(args)
    ensures DispatchSpec(args, m, clock).ret >= 0
  {
    if |args| > 0 {
      match Lookup(Commands, args[0])
      case None =>
      case Some(i) =>
        DefinedByTable(args, i);
        InvokeReturns(Commands[i].handler, args, m, clock);
    }
  }

  /** With this command table `runcmd` never returns a negative value, so the monitor never
      leaves its loop. */
  lemma MonitorNeverExits(input: seq<Option<string>>, n: nat, m: Machine, clock: nat)
    requires n <= |input|
    ensures !Steps(input, n, RunEffect(m), clock).exited
  {
    forall line: string, c: nat
      ensures RunEffect(m)(line, c).ret >= 0
    {
      if LineDefined(LineBuffer(line)) {
        RunNeverNegative(LineBuffer(line), m, c);
      }
    }
    StaysWhileNonNegative(input, n, RunEffect(m), clock);
  }

  /** The loop is left only when `runcmd` returns a negative value. */
  lemma {:induction false} StaysWhileNonNegative(input: seq<Option<string>>, n: nat, run: (string, nat) -> Effect, clock: nat)
    requires n <= |input|
    requires forall line, c :: run(line, c).ret >= 0
    ensures !Steps(input, n, run, clock).exited
  {
    if n > 0 {
      StaysWhileNonNegative(input, n - 1, run, clock);
    }
  }

  /** Once the monitor has left its loop it reads no further line: later input changes nothing. */
  lemma {:induction false} ExitIsFinal(input: seq<Option<string>>, n: nat, k: nat, run: (string, nat) -> Effect, clock: nat)
    requires n <= k <= |input|
    requires Steps(input, n, run, clock).exited
    ensures Steps(input, k, run, clock) == Steps(input, n, run, clock)
    decreases k
  {
    if k > n {
      ExitIsFinal(input, n, k - 1, run, clock);
    }
  }

  /** The monitor only appends to the console: what it printed after `n` lines is a prefix of
      what it has printed after `k >= n` lines, and it always begins with the greeting. */
  lemma {:induction false} OutputGrows(input: seq<Option<string>>, n: nat, k: nat, run: (string, nat) -> Effect, clock: nat)
    requires n <= k <= |input|
    ensures Steps(input, n, run, clock).out <= Steps(input, k, run, clock).out
    ensures [Welcome, HelpHint] <= Steps(input, k, run, clock).out
    decreases k
  {
    if k > 0 {
      OutputGrows(input, if n == k then k - 1 else n, k - 1, run, clock);
    }
  }
}
