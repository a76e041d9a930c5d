/** The parsing half of `runcmd`: it splits a NUL-terminated command line in place, writing a
    NUL over each whitespace byte it passes and recording where each argument starts, and gives
    up with "Too many arguments" when a sixteenth argument begins. */
module Tokenizer {
  import opened Base

  /** The bytes `runcmd` treats as argument separators. */
  const WHITESPACE: string := "\t\r\n "

  /** Size of the `argv` array: at most `MAXARGS - 1` arguments plus the terminating null. */
  const MAXARGS: nat := 16

  /** `strchr(WHITESPACE, c)` for a non-NUL byte `c`. */
  predicate IsSpace(c: char)
  {
    c in WHITESPACE
  }

  /** The position of the string's terminator: the first NUL. */
  function NulAt(s: seq<char>): (n: nat)
    requires '\0' in s
    ensures n < |s| && s[n] == '\0'
    ensures forall k :: 0 <= k < n ==> s[k] != '\0'
  {
    if s[0] == '\0' then 0 else 1 + NulAt(s[1..])
  }

  /** An argument begins at `i`: a byte that is neither NUL nor whitespace, at the start of the
      line or right after whitespace. */
  predicate IsStart(s: seq<char>, i: nat)
    requires i < |s|
  {
    s[i] != '\0' && !IsSpace(s[i]) && (i == 0 || IsSpace(s[i - 1]))
  }

  /** The argument starts below `hi`, left to right. */
  function StartsBelow(s: seq<char>, hi: nat): (st: seq<nat>)
    requires hi <= |s|
    ensures forall i :: 0 <= i < |st| ==> st[i] < hi
  {
    if hi == 0 then []
    else StartsBelow(s, hi - 1) + (if IsStart(s, hi - 1) then [hi - 1] else [])
  }

  /** The argument that starts at `t`: the longest run of bytes from `t` on that are neither
      NUL nor whitespace. */
  function Run(s: seq<char>, t: nat): (r: string)
    requires t <= |s|
    ensures t + |r| <= |s| && r == s[t..t + |r|]
    ensures forall c :: c in r ==> c != '\0' && !IsSpace(c)
    ensures t + |r| < |s| ==> s[t + |r|] == '\0' || IsSpace(s[t + |r|])
    decreases |s| - t
  {
    if t == |s| || s[t] == '\0' || IsSpace(s[t]) then []
    else [s[t]] + Run(s, t + 1)
  }

  /** The C string at `t`: the bytes from `t` up to, not including, the next NUL. */
  function CStr(s: seq<char>, t: nat): (r: string)
    requires t <= |s|
    ensures t + |r| <= |s| && r == s[t..t + |r|]
    ensures '\0' !in r
    ensures t + |r| < |s| ==> s[t + |r|] == '\0'
    decreases |s| - t
  {
    if t == |s| || s[t] == '\0' then []
    else [s[t]] + CStr(s, t + 1)
  }

  /** The line after the scan has reached `upto`: every whitespace byte before `upto` is NUL. */
  function Blank(s: seq<char>, upto: nat): (b: seq<char>)
    ensures |b| == |s|
  {
    seq(|s|, k requires 0 <= k < |s| => BlankAt(s, upto, k))
  }

  /** How `runcmd` parses a line: the argument starts, or too many arguments. */
  datatype Parsed = Args(starts: seq<nat>) | TooMany

  function Parse(s: seq<char>): Parsed
    requires '\0' in s
  {
    var st := StartsBelow(s, NulAt(s));
    if |st| < MAXARGS then Args(st) else TooMany
  }

  /** How far the scan gets: to the terminator, or to the sixteenth argument's first byte. */
  function ScanEnd(s: seq<char>): nat
    requires '\0' in s
  {
    var st := StartsBelow(s, NulAt(s));
    if |st| < MAXARGS then NulAt(s) else st[MAXARGS - 1]
  }

  /** The arguments a successfully parsed line passes to its command, as strings. */
  function Tokens(s: seq<char>): (args: seq<string>)
    requires '\0' in s && Parse(s).Args?
    ensures |args| == |Parse(s).starts| < MAXARGS
  {
    var st := Parse(s).starts;
    seq(|st|, i requires 0 <= i < |st| => Run(s, st[i]))
  }

  /** `StartsBelow` lists exactly the argument starts below `hi`, in increasing order. */
  lemma {:induction false} StartsBelowExact(s: seq<char>, hi: nat)
    requires hi <= |s|
    ensures forall i: nat :: i in StartsBelow(s, hi) <==> i < hi && IsStart(s, i)
    ensures forall i, j :: 0 <= i < j < |StartsBelow(s, hi)| ==> StartsBelow(s, hi)[i] < StartsBelow(s, hi)[j]
  {
    if hi > 0 {
      StartsBelowExact(s, hi - 1);
    }
  }

  /** Scanning further only appends starts. */
  lemma {:induction false} StartsBelowPrefix(s: seq<char>, lo: nat, hi: nat)
    requires lo <= hi <= |s|
    ensures StartsBelow(s, lo) <= StartsBelow(s, hi)
    decreases hi - lo
  {
    if lo < hi {
      StartsBelowPrefix(s, lo, hi - 1);
    }
  }

  /** Once the scan has blanked all whitespace before the terminator, the C string at any
      position up to the terminator is the argument that starts there: arguments reach their
      commands verbatim. */
  lemma {:induction false} TokenIntact(s: seq<char>, t: nat)
    requires '\0' in s && t <= NulAt(s)
    ensures CStr(Blank(s, NulAt(s)), t) == Run(s, t)
    decreases |s| - t
  {
    var n := NulAt(s);
    var b := Blank(s, n);
    assert b[t] == BlankAt(s, n, t);
    if t == n || IsSpace(s[t]) {
      assert b[t] == '\0';
    } else {
      assert b[t] == s[t] != '\0';
      TokenIntact(s, t + 1);
      assert CStr(b, t) == [s[t]] + CStr(b, t + 1);
    }
  }

  /** The byte at `k` once the scan has reached `upto`. */
  function BlankAt(s: seq<char>, upto: nat, k: nat): char
    requires k < |s|
  {
    if k < upto && IsSpace(s[k]) then '\0' else s[k]
  }

  /** Positions that are whitespace, or that follow a non-whitespace byte, start no argument. */
  lemma {:induction false} StartsSkip(s: seq<char>, lo: nat, hi: nat, space: bool)
    requires lo <= hi <= |s|
    requires forall k :: lo <= k < hi ==> IsSpace(s[k]) == space
    requires !space ==> lo > 0 && !IsSpace(s[lo - 1])
    ensures StartsBelow(s, hi) == StartsBelow(s, lo)
    decreases hi - lo
  {
    if lo < hi {
      StartsSkip(s, lo, hi - 1, space);
    }
  }

  /** The first inner loop of the parser: overwrites the whitespace from `p0` on with NUL and
      stops at the next byte that is NUL or not whitespace, which, if it is not the
      terminator, is where the next argument starts. */
  method SkipSpace(buf: array<char>, ghost s: seq<char>, p0: nat) returns (p: nat)
    requires '\0' in s && |s| == buf.Length && p0 <= NulAt(s)
    requires p0 == 0 || p0 == NulAt(s) || IsSpace(s[p0])
    requires forall k :: 0 <= k < buf.Length ==> buf[k] == BlankAt(s, p0, k)
    modifies buf
    ensures p0 <= p <= NulAt(s)
    ensures p < NulAt(s) ==> IsStart(s, p)
    ensures StartsBelow(s, p) == StartsBelow(s, p0)
    ensures forall k :: 0 <= k < buf.Length ==> buf[k] == BlankAt(s, p, k)
  {
    p := p0;
    while buf[p] != '\0' && IsSpace(buf[p])
      invariant p0 <= p <= NulAt(s)
      invariant forall k :: p0 <= k < p ==> IsSpace(s[k])
      invariant forall k :: 0 <= k < buf.Length ==> buf[k] == BlankAt(s, p, k)
      decreases NulAt(s) - p
    {
      buf[p] := '\0';
      p := p + 1;
    }
    StartsSkip(s, p0, p, true);
  }

  /** The second inner loop of the parser: moves past the argument that starts at `q`, which
      is then the only start between `q` and where the scan stops. */
  method SkipArg(buf: array<char>, ghost s: seq<char>, q: nat) returns (p: nat)
    requires '\0' in s && |s| == buf.Length && q < NulAt(s) && IsStart(s, q)
    requires forall k :: 0 <= k < buf.Length ==> buf[k] == BlankAt(s, q, k)
    ensures q < p <= NulAt(s)
    ensures p < NulAt(s) ==> IsSpace(s[p])
    ensures StartsBelow(s, p) == StartsBelow(s, q) + [q]
    ensures forall k :: 0 <= k < buf.Length ==> buf[k] == BlankAt(s, p, k)
  {
    p := q;
    while buf[p] != '\0' && !IsSpace(buf[p])
      invariant q <= p <= NulAt(s)
      invariant forall k :: q <= k < p ==> !IsSpace(s[k])
      decreases NulAt(s) - p
    {
      p := p + 1;
    }
    ArgStarts(s, q, p);
  }

  /** Past an argument that starts at `q` and runs up to `p`, `q` is the one new start. */
  lemma ArgStarts(s: seq<char>, q: nat, p: nat)
    requires q < p <= |s| && IsStart(s, q)
    requires forall k :: q <= k < p ==> !IsSpace(s[k])
    ensures StartsBelow(s, p) == StartsBelow(s, q) + [q]
  {
    StartsSkip(s, q + 1, p, false);
    assert StartsBelow(s, q + 1) == StartsBelow(s, q) + [q];
  }

  /** When a sixteenth argument begins at `p`, the line has too many arguments and the scan
      ends at `p`. */
  lemma SixteenthStart(s: seq<char>, p: nat)
    requires '\0' in s && p < NulAt(s) && IsStart(s, p)
    requires |StartsBelow(s, p)| == MAXARGS - 1
    ensures Parse(s) == TooMany && ScanEnd(s) == p
  {
    StartsBelowPrefix(s, p + 1, NulAt(s));
    assert StartsBelow(s, p + 1) == StartsBelow(s, p) + [p];
  }

  /** A buffer that agrees with `Blank(s, upto)` byte by byte is `Blank(s, upto)`. */
  lemma BlankFrom(b: seq<char>, s: seq<char>, upto: nat)
    requires |b| == |s|
    requires forall k :: 0 <= k < |b| ==> b[k] == BlankAt(s, upto, k)
    ensures b == Blank(s, upto)
  {
  }

  /** The loop of `runcmd`'s parser: it stops at the terminator (`ok`) or at the first byte of
      a sixteenth argument (not `ok`), having blanked the whitespace before `p` and recorded the
      start of every argument before `p` in `argv`. */
  method ScanArgs(buf: array<char>, ghost s: seq<char>, argv: array<Option<nat>>)
    returns (ok: bool, argc: nat, p: nat)
    requires '\0' in s && s == buf[..] && argv.Length == MAXARGS
    modifies buf, argv
    ensures p <= NulAt(s) && argc < MAXARGS && |StartsBelow(s, p)| == argc
    ensures ok ==> p == NulAt(s)
    ensures !ok ==> p < NulAt(s) && IsStart(s, p) && argc == MAXARGS - 1
    ensures forall k :: 0 <= k < buf.Length ==> buf[k] == BlankAt(s, p, k)
    ensures forall i :: 0 <= i < argc ==> argv[i] == Some(StartsBelow(s, p)[i])
  {
    ghost var nul := NulAt(s);
    argc := 0;
    argv[argc] := None;
    p := 0;
    while true
      invariant p <= nul
      invariant argc < MAXARGS
      invariant p == 0 || p == nul || IsSpace(s[p])
      invariant forall k :: 0 <= k < buf.Length ==> buf[k] == BlankAt(s, p, k)
      invariant |StartsBelow(s, p)| == argc
      invariant forall i :: 0 <= i < argc ==> argv[i] == Some(StartsBelow(s, p)[i])
      decreases nul - p
    {
      // blank the separators before the next argument
      p := SkipSpace(buf, s, p);
      if buf[p] == '\0' {
        ok := true;
        return;
      }
      // record where the argument starts, refusing a sixteenth, and move past it
      if argc == MAXARGS - 1 {
        ok := false;
        return;
      }
      argv[argc] := Some(p);
      argc := argc + 1;
      p := SkipArg(buf, s, p);
    }
  }

  /** `runcmd`'s parser, run in place on the line buffer. On success `argv` holds the starts of
      the arguments followed by a null pointer; the buffer keeps every byte except the
      whitespace the scan passed, which it overwrote with NUL. */
  method Tokenize(buf: array<char>) returns (ok: bool, argc: nat, argv: array<Option<nat>>)
    requires '\0' in buf[..]
    modifies buf
    ensures buf[..] == Blank(old(buf[..]), ScanEnd(old(buf[..])))
    ensures fresh(argv) && argv.Length == MAXARGS
    ensures ok <==> Parse(old(buf[..])).Args?
    ensures ok ==> argc == |Parse(old(buf[..])).starts| < MAXARGS
    ensures ok ==> forall i :: 0 <= i < argc ==> argv[i] == Some(Parse(old(buf[..])).starts[i])
    ensures ok ==> argv[argc] == None
  {
    ghost var s := buf[..];
    argv := new Option<nat>[MAXARGS](_ => None);
    var p;
    ok, argc, p := ScanArgs(buf, s, argv);
    if ok {
      argv[argc] := None;
      assert Parse(s) == Args(StartsBelow(s, p)) && ScanEnd(s) == p;
    } else {
      SixteenthStart(s, p);
    }
    BlankFrom(buf[..], s, p);
  }

  /** The argument strings the handlers see once parsing succeeded: each `argv[i]` points into
      the blanked buffer, and the NUL-terminated string there is the i-th token of the line. */
  method ArgStrings(buf: array<char>, argv: array<Option<nat>>, argc: nat, ghost s: seq<char>)
    returns (args: seq<string>)
    requires '\0' in s && Parse(s).Args? && buf[..] == Blank(s, NulAt(s))
    requires argc == |Parse(s).starts| <= argv.Length
    requires forall i :: 0 <= i < argc ==> argv[i] == Some(Parse(s).starts[i])
    ensures args == Tokens(s)
  {
    args := [];
    for i := 0 to argc
      invariant args == Tokens(s)[..i]
    {
      TokenAt(s, i);
      args := args + [CStr(buf[..], argv[i].value)];
    }
  }

  /** The i-th argument string, read from the blanked buffer, is the i-th token of the line. */
  lemma TokenAt(s: seq<char>, i: nat)
    requires '\0' in s && Parse(s).Args? && i < |Parse(s).starts|
    ensures Parse(s).starts[i] <= |s|
    ensures CStr(Blank(s, NulAt(s)), Parse(s).starts[i]) == Tokens(s)[i]
  {
    StartsBelowExact(s, NulAt(s));
    assert Parse(s).starts[i] in StartsBelow(s, NulAt(s));
    TokenIntact(s, Parse(s).starts[i]);
  }
}
