/** The frame-pointer walk of `mon_backtrace`: starting from its own `ebp` and `eip`, it follows
    the saved-`ebp` links on the stack until it reaches a zero frame pointer, printing one line
    per frame with a fixed window of five argument words and the debug information that
    `debuginfo_eip` finds for the frame's `eip`. */
module Backtrace {
  import opened Base

  /** Memory as the kernel sees it: the 32-bit word stored at each byte address. Every address
      can be read; the walk reads `((uint32_t *) 0)[1]` when it reaches the last frame. */
  type Memory = Word -> Word

  /** What `debuginfo_eip` fills in for an address. `fnName` starts at the function's name and
      may run past it (the symbol table stores `name:F...`); `fnNameLen` is the name's length. */
  datatype EipDebugInfo = EipDebugInfo(
    file: string,
    line: int,
    fnName: string,
    fnNameLen: nat,
    fnAddr: Word,
    fnNarg: int)

  /** The records `debuginfo_eip` produces: the name length never exceeds the string it counts. */
  type DebugInfo = d: EipDebugInfo | d.fnNameLen <= |d.fnName|
    witness EipDebugInfo("", 0, "", 0, 0, 0)

  /** Number of argument words printed for every frame, whatever the function's arity. */
  const ARG_WORDS: nat := 5

  /** One printed frame: `eip`, `ebp`, the argument window, then `file:line: name+offset`. */
  datatype Frame = Frame(
    eip: Word,
    ebp: Word,
    args: seq<Word>,
    file: string,
    line: int,
    name: string,
    offset: int)

  /** What one call of `mon_backtrace` finds when it starts: the stack memory, the frame pointer
      it reads from `ebp`, and what `read_eip` returns to it. */
  datatype StackView = StackView(mem: Memory, ebp: Word, eip: Word)

  /** A stack whose frame-pointer chain reaches a zero frame pointer. */
  type Stack = s: StackView | exists n :: ReachesNull(s.mem, s.ebp, n)
    witness EmptyStack()

  /** A stack with no frame at all: its frame pointer is already zero. */
  function EmptyStack(): (s: StackView)
    ensures s.ebp == 0 && exists n :: ReachesNull(s.mem, s.ebp, n)
  {
    var s := StackView(_ => 0, 0, 0);
    assert ReachesNull(s.mem, s.ebp, 0);
    s
  }

  /** `((uint32_t *) ebp)[k]`: the k-th word of the frame at `ebp`. Slot 0 holds the caller's
      saved `ebp`, slot 1 a return address, slots 2.. the arguments. */
  function Slot(mem: Memory, ebp: Word, k: nat): Word
  {
    mem(Add32(ebp, 4 * k))
  }

  /** The frame printed for frame pointer `ebp` and instruction pointer `eip`: the five words
      above the saved return address, the first `fnNameLen` characters of the function's name,
      and the distance of `eip` from the function's start as a signed 32-bit number. */
  function FrameAt(mem: Memory, lookup: Word -> DebugInfo, ebp: Word, eip: Word): (f: Frame)
    ensures |f.args| == ARG_WORDS && forall i :: 0 <= i < ARG_WORDS ==> f.args[i] == mem(Add32(ebp, 8 + 4 * i))
    ensures |f.name| == lookup(eip).fnNameLen && f.name <= lookup(eip).fnName
    ensures -0x8000_0000 <= f.offset < 0x8000_0000
    ensures (f.offset - (eip - lookup(eip).fnAddr)) % WORD_RANGE == 0
  {
    var info := lookup(eip);
    Frame(eip, ebp,
      seq(ARG_WORDS, i requires 0 <= i < ARG_WORDS => Slot(mem, ebp, i + 2)),
      info.file, info.line, info.fnName[..info.fnNameLen],
      Signed32(Sub32(eip, info.fnAddr)))
  }

  /** The chain of saved frame pointers starting at `ebp` reaches 0 within `n` links. */
  predicate ReachesNull(mem: Memory, ebp: Word, n: nat)
    decreases n
  {
    ebp == 0 || (n > 0 && ReachesNull(mem, Slot(mem, ebp, 0), n - 1))
  }

  /** The k-th frame pointer of the chain that starts at `ebp`. */
  function FramePointer(mem: Memory, ebp: Word, k: nat): Word
    decreases k
  {
    if k == 0 then ebp else FramePointer(mem, Slot(mem, ebp, 0), k - 1)
  }

  /** The frames printed from (`ebp`, `eip`) on, following at most `fuel` links. The loop's
      update assigns the new frame pointer first and reads the new `eip` afterwards, so the
      next `eip` comes from slot 1 of the frame the new `ebp` points to. */
  function Walk(mem: Memory, lookup: Word -> DebugInfo, ebp: Word, eip: Word, fuel: nat): (fs: seq<Frame>)
    ensures |fs| <= fuel
    ensures forall k :: 0 <= k < |fs| ==> fs[k].ebp != 0
    ensures |fs| > 0 <==> ebp != 0 && fuel > 0
    decreases fuel
  {
    if ebp == 0 || fuel == 0 then []
    else
      var next := Slot(mem, ebp, 0);
      [FrameAt(mem, lookup, ebp, eip)] + Walk(mem, lookup, next, Slot(mem, next, 1), fuel - 1)
  }

  /** Everything `mon_backtrace` prints after its header, for a stack whose chain ends. */
  ghost function Backtrace(mem: Memory, lookup: Word -> DebugInfo, ebp: Word, eip: Word): seq<Frame>
    requires exists n :: ReachesNull(mem, ebp, n)
  {
    var n :| ReachesNull(mem, ebp, n);
    Walk(mem, lookup, ebp, eip, n)
  }

  /** Any bound within which the chain ends gives the same walk: the walk stops at the zero
      frame pointer, never because the bound ran out. */
  lemma {:induction false} WalkFuelIrrelevant(mem: Memory, lookup: Word -> DebugInfo, ebp: Word, eip: Word, n: nat, m: nat)
    requires ReachesNull(mem, ebp, n) && ReachesNull(mem, ebp, m)
    ensures Walk(mem, lookup, ebp, eip, n) == Walk(mem, lookup, ebp, eip, m)
    decreases n
  {
    if ebp != 0 {
      var next := Slot(mem, ebp, 0);
      WalkFuelIrrelevant(mem, lookup, next, Slot(mem, next, 1), n - 1, m - 1);
    }
  }

  /** The backtrace is the walk under any bound within which the chain ends. */
  lemma BacktraceIsWalk(mem: Memory, lookup: Word -> DebugInfo, ebp: Word, eip: Word, m: nat)
    requires ReachesNull(mem, ebp, m)
    ensures Backtrace(mem, lookup, ebp, eip) == Walk(mem, lookup, ebp, eip, m)
  {
    forall n | ReachesNull(mem, ebp, n)
      ensures Walk(mem, lookup, ebp, eip, n) == Walk(mem, lookup, ebp, eip, m)
    {
      WalkFuelIrrelevant(mem, lookup, ebp, eip, n, m);
    }
  }

  /** The shape of a backtrace: one frame for each non-zero frame pointer of the chain, in
      chain order, ending at the first zero; the first frame carries the starting `eip`, every
      later one the word in slot 1 of its own frame; each frame's contents are those of
      `FrameAt`. */
  lemma {:induction false} WalkShape(mem: Memory, lookup: Word -> DebugInfo, ebp: Word, eip: Word, n: nat)
    requires ReachesNull(mem, ebp, n)
    ensures var fs := Walk(mem, lookup, ebp, eip, n);
      && FramePointer(mem, ebp, |fs|) == 0
      && (forall k :: 0 <= k < |fs| ==> fs[k].ebp == FramePointer(mem, ebp, k) != 0)
      && (|fs| > 0 ==> fs[0] == FrameAt(mem, lookup, ebp, eip))
      && (forall k :: 0 < k < |fs| ==> fs[k] == FrameAt(mem, lookup, fs[k].ebp, Slot(mem, fs[k].ebp, 1)))
    decreases n
  {
    var fs := Walk(mem, lookup, ebp, eip, n);
    if ebp != 0 {
      var next := Slot(mem, ebp, 0);
      var rest := Walk(mem, lookup, next, Slot(mem, next, 1), n - 1);
      WalkShape(mem, lookup, next, Slot(mem, next, 1), n - 1);
      assert fs == [FrameAt(mem, lookup, ebp, eip)] + rest;
      forall k | 0 < k < |fs|
        ensures fs[k].ebp == FramePointer(mem, ebp, k) != 0
        ensures fs[k] == FrameAt(mem, lookup, fs[k].ebp, Slot(mem, fs[k].ebp, 1))
      {
        assert fs[k] == rest[k - 1];
        if k - 1 == 0 {
          assert rest[0] == FrameAt(mem, lookup, next, Slot(mem, next, 1));
        }
      }
    }
  }

  /** One step of the walk: a non-zero frame pointer prints its frame, then the walk goes on
      from the saved `ebp` and the `eip` stored beside it. */
  lemma WalkStep(mem: Memory, lookup: Word -> DebugInfo, ebp: Word, eip: Word, n: nat)
    requires ebp != 0 && ReachesNull(mem, ebp, n)
    ensures n > 0 && Slot(mem, ebp, 0) == mem(ebp)
    ensures ReachesNull(mem, mem(ebp), n - 1)
    ensures Slot(mem, mem(ebp), 1) == mem(Add32(mem(ebp), 4))
    ensures Walk(mem, lookup, ebp, eip, n)
      == [FrameAt(mem, lookup, ebp, eip)] + Walk(mem, lookup, mem(ebp), mem(Add32(mem(ebp), 4)), n - 1)
  {
  }

  /** One iteration of `mon_backtrace`'s loop body: the frame line for (`ebp`, `eip`), with the
      argument window read word by word and the name copied character by character. */
  method PrintFrame(mem: Memory, lookup: Word -> DebugInfo, ebp: Word, eip: Word) returns (f: Frame)
    ensures f == FrameAt(mem, lookup, ebp, eip)
  {
    var info := lookup(eip);
    var args := [];
    for i := 0 to ARG_WORDS
      invariant |args| == i
      invariant forall j :: 0 <= j < i ==> args[j] == Slot(mem, ebp, j + 2)
    {
      args := args + [mem(Add32(ebp, 4 * (i + 2)))];
    }
    var name := [];
    for i := 0 to info.fnNameLen
      invariant name == info.fnName[..i]
    {
      name := name + [info.fnName[i]];
    }
    f := Frame(eip, ebp, args, info.file, info.line, name, Signed32(Sub32(eip, info.fnAddr)));
  }

  /** `mon_backtrace`'s loop: the frames it prints for a stack whose chain ends. */
  method MonBacktrace(mem: Memory, lookup: Word -> DebugInfo, ebp0: Word, eip0: Word)
    returns (frames: seq<Frame>)
    requires exists n :: ReachesNull(mem, ebp0, n)
    ensures frames == Backtrace(mem, lookup, ebp0, eip0)
  {
    ghost var fuel: nat :| ReachesNull(mem, ebp0, fuel);
    ghost var left: nat := fuel;
    var ebp, eip := ebp0, eip0;
    frames := [];
    while ebp != 0
      invariant ReachesNull(mem, ebp, left)
      invariant frames + Walk(mem, lookup, ebp, eip, left) == Walk(mem, lookup, ebp0, eip0, fuel)
      decreases left
    {
      WalkStep(mem, lookup, ebp, eip, left);
      var f := PrintFrame(mem, lookup, ebp, eip);
      frames := frames + [f];
      ebp := mem(ebp);
      eip := mem(Add32(ebp, 4));
      left := left - 1;
    }
    BacktraceIsWalk(mem, lookup, ebp0, eip0, fuel);
  }
}
