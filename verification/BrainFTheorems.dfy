/** The main results about compiled BrainF programs. */
module BrainFTheorems {
  import opened Common
  import opened BrainFSource
  import opened BrainFFacts
  import opened BrainFIR
  import opened BrainFCode
  import opened BrainFCompiler
  import opened BrainFCorrect

  /** The source starts on a cleared tape with the head in the middle. */
  function Initial(memtotal: nat, input: seq<byte>): State {
    State(seq(memtotal, _ => 0), memtotal / 2, input, [])
  }

  /** The function starts in its entry block, in memory that holds anything. */
  function Entered(garbage: seq<byte>, input: seq<byte>): Config {
    Run(ENTRY, 0, ENTRY, map[], Mem(garbage, input, [], 0))
  }

  /** A memory of `memtotal` bytes at `base` that a 32-bit size describes. */
  predicate Fits(base: nat, memtotal: nat) {
    memtotal < 0x8000_0000 && base + memtotal < TWO64
  }

  lemma RunHeader(f: Func, memtotal: nat, bounds: bool, base: nat, garbage: seq<byte>, input: seq<byte>)
    returns (n: nat)
    requires HasHeader(f, memtotal, bounds) && Fits(base, memtotal) && |garbage| == memtotal
    ensures Matches(Steps(f, base, Entered(garbage, input), n), Start(bounds), Initial(memtotal, input), bounds)
  {
    var c, code := Entered(garbage, input), HeaderCode(memtotal, bounds);
    var c1 := Then(base, c, Malloc(ARR));
    var n1 := StepAt(f, base, c, 0, code, 0);
    var c2 := Then(base, c1, Memset(ARR));
    var n2 := StepAt(f, base, c1, 0, code, 1);
    StepsAdd(f, base, c, n1, n2);
    var c3 := Then(base, c2, code[2]);
    var n3 := StepAt(f, base, c2, 0, code, 2);
    StepsAdd(f, base, c, n1 + n2, n3);
    n := n1 + n2 + n3;
    if bounds {
      var c4 := Then(base, c3, code[3]);
      var n4 := StepAt(f, base, c3, 0, code, 3);
      StepsAdd(f, base, c, n, n4);
      n := n + n4;
    }
  }

  /** From the end block the function frees the tape and returns. */
  lemma RunEnd(f: Func, memtotal: nat, bounds: bool, base: nat, c: Config) returns (n: nat)
    requires HasHeader(f, memtotal, bounds)
    requires c.Run? && c.blk == ENDBB && c.idx == 0 && ARR in c.regs && c.regs[ARR] == Ptr(0)
    ensures Steps(f, base, c, n) == Halted(c.mem)
  {
    var c1 := Step(f, base, c);
    assert c1 == StepInstr(base, c, Free(ARR));
    var n1 := One(f, base, c);
    var n2 := One(f, base, c1);
    StepsAdd(f, base, c, n1, n2);
    n := n1 + n2;
  }

  /** From the error block the function complains once and goes on to the end block. */
  lemma RunError(f: Func, memtotal: nat, base: nat, c: Config) returns (n: nat)
    requires HasHeader(f, memtotal, true)
    requires c.Run? && c.blk == ABERROR && c.idx == 0 && ARR in c.regs && c.regs[ARR] == Ptr(0)
    ensures Steps(f, base, c, n) == Halted(c.mem.(complaints := c.mem.complaints + 1))
  {
    var c1 := Step(f, base, c);
    assert c1 == StepInstr(base, c, Puts);
    var c2 := Step(f, base, c1);
    assert c2 == Jump(c1, ENDBB);
    var n1 := One(f, base, c);
    var n2 := One(f, base, c1);
    var n3 := RunEnd(f, memtotal, true, base, c2);
    StepsAdd(f, base, c, n1, n2);
    StepsAdd(f, base, c, n1 + n2, n3);
    n := n1 + n2 + n3;
  }

  /** What a finished run leaves: the tape, what is left to read, what was written, complaints. */
  ghost predicate Agrees(f: Func, base: nat, c: Config, n: nat, o: Outcome, fuel: nat) {
    match o
    case Done(s') => Steps(f, base, c, n) == Halted(Mem(s'.tape, s'.input, s'.output, 0))
    case OutOfFuel(s') =>
      var c' := Steps(f, base, c, n);
      c'.Run? && n >= fuel && c'.mem == Mem(s'.tape, s'.input, s'.output, 0)
    case LeftTape(s') => Steps(f, base, c, n) == Halted(Mem(s'.tape, s'.input, s'.output, 1))
    case Fault => Steps(f, base, c, n) == Stuck
  }

  /** The machine is about to run the end block, with the source's final head in register `head`. */
  ghost predicate AtEnd(c: Config, head: Reg, s: State) {
    c.Run? && c.blk == ENDBB && c.idx == 0 && head in c.regs && c.regs[head] == Ptr(s.head)
  }

  /** The branch from the program's last point into the end block. */
  lemma RunLast(f: Func, base: nat, c: Config, p: Point, s: State, bounds: bool) returns (n: nat, c': Config)
    requires Matches(c, p, s, bounds) && Closed(f, p.blk, p.idx, Br(ENDBB))
    ensures c' == Steps(f, base, c, n) && AtEnd(c', p.head, s)
    ensures c'.mem == Mem(s.tape, s.input, s.output, 0) && ARR in c'.regs && c'.regs[ARR] == Ptr(0)
  {
    n := One(f, base, c);
    c' := Step(f, base, c);
    assert c' == Jump(c, ENDBB);
  }

  lemma RunProgram(f: Func, cs: seq<Cmd>, memtotal: nat, bounds: bool, base: nat,
                   garbage: seq<byte>, input: seq<byte>, fuel: nat) returns (n: nat, last: nat)
    requires IsProgram(f, cs, memtotal, bounds) && Fits(base, memtotal) && |garbage| == memtotal
    requires Small(cs, 0x8000_0000)
    ensures Agrees(f, base, Entered(garbage, input), n, Exec(cs, Initial(memtotal, input), bounds, fuel), fuel)
    ensures var o := Exec(cs, Initial(memtotal, input), bounds, fuel);
      o.Done? ==> AtEnd(Steps(f, base, Entered(garbage, input), last), End(cs, Start(bounds), bounds).head, o.s)
  {
    last := 0;
    var c, s := Entered(garbage, input), Initial(memtotal, input);
    var n1 := RunHeader(f, memtotal, bounds, base, garbage, input);
    var c1 := Steps(f, base, c, n1);
    var n2 := SimSeq(f, base, cs, Start(bounds), s, c1, bounds, fuel);
    var c2 := Steps(f, base, c1, n2);
    n := Compose(f, base, c, n1, c1, n2, c2);
    var o := Exec(cs, s, bounds, fuel);
    if o.Done? {
      var n3, c3 := RunLast(f, base, c2, End(cs, Start(bounds), bounds), o.s, bounds);
      last := Compose(f, base, c, n, c2, n3, c3);
      var n4 := RunEnd(f, memtotal, bounds, base, c3);
      n := Compose(f, base, c, last, c3, n4, Halted(c3.mem));
    } else if o.LeftTape? {
      OnlyChecked(cs, s, fuel, bounds);
      var n3 := RunError(f, memtotal, base, c2);
      n := Compose(f, base, c, n, c2, n3, Halted(c2.mem.(complaints := c2.mem.complaints + 1)));
    }
  }

  /** Only checked execution can report that the head has left the tape. */
  lemma {:induction false} OnlyChecked(cs: seq<Cmd>, s: State, fuel: nat, bounds: bool)
    ensures Exec(cs, s, bounds, fuel).LeftTape? ==> bounds
    decreases fuel, cs, 1
  {
    if cs != [] {
      OnlyChecked(cs[..|cs| - 1], s, fuel, bounds);
      match Exec(cs[..|cs| - 1], s, bounds, fuel)
      case Done(s1) => OnlyCheckedCmd(cs[|cs| - 1], s1, fuel, bounds);
      case _ =>
    }
  }

  lemma {:induction false} OnlyCheckedCmd(c: Cmd, s: State, fuel: nat, bounds: bool)
    ensures ExecCmd(c, s, bounds, fuel).LeftTape? ==> bounds
    decreases fuel, c, 0
  {
    if c.Loop? && fuel > 0 {
      OnlyChecked(c.body, s, fuel - 1, bounds);
      match Exec(c.body, s, bounds, fuel - 1)
      case Done(s1) => OnlyCheckedCmd(c, s1, fuel - 1, bounds);
      case _ =>
    }
  }

  // ---------- main results ----------

  /**
   Meaning is preserved. Without the bounds flag, for every program text, tape size, input and
   bound on the iterations: if the source ends, the function ends with the same tape, the same
   input consumed, the same output and the same head; if the source has not ended, the function
   has after at least as many steps the same tape, input and output, and goes on; and an access off
   the tape faults in both.
   */
  lemma SemanticPreservation(f: Func, raw: seq<Cmd>, memtotal: nat, base: nat,
                             garbage: seq<byte>, input: seq<byte>, fuel: nat) returns (n: nat, last: nat)
    requires Unit(raw) && |Print(raw)| < 0x8000_0000 && IsProgram(f, Coalesce(raw), memtotal, false)
    requires Fits(base, memtotal) && |garbage| == memtotal
    ensures var o := Exec(raw, Initial(memtotal, input), false, fuel);
      && Agrees(f, base, Entered(garbage, input), n, o, fuel)
      && (o.Done? ==>
            var head := End(Coalesce(raw), Start(false), false).head;
            AtEnd(Steps(f, base, Entered(garbage, input), last), head, o.s))
  {
    CoalesceExec(raw, Initial(memtotal, input), fuel);
    CoalesceIsSmall(raw, 0x8000_0000);
    n, last := RunProgram(f, Coalesce(raw), memtotal, false, base, garbage, input, fuel);
  }

  ghost predicate Halts(f: Func, base: nat, c: Config) {
    exists n :: !Steps(f, base, c, n).Run?
  }

  ghost predicate SourceEnds(cs: seq<Cmd>, s: State, bounds: bool) {
    exists fuel :: !Exec(cs, s, bounds, fuel).OutOfFuel?
  }

  /** Once a machine has stopped it shows the same at every later count. */
  lemma StoppedThen(f: Func, base: nat, c: Config, m: nat, n: nat)
    requires !Steps(f, base, c, m).Run? && m <= n
    ensures Steps(f, base, c, n) == Steps(f, base, c, m)
  {
    StepsAdd(f, base, c, m, n - m);
    StepsStopped(f, base, Steps(f, base, c, m), n - m);
  }

  /** The function stops exactly when the source does, with the flag and without. */
  lemma StopTogether(f: Func, cs: seq<Cmd>, memtotal: nat, bounds: bool, base: nat, garbage: seq<byte>,
                     input: seq<byte>)
    requires IsProgram(f, cs, memtotal, bounds) && Fits(base, memtotal) && |garbage| == memtotal
    requires Small(cs, 0x8000_0000)
    ensures Halts(f, base, Entered(garbage, input)) <==> SourceEnds(cs, Initial(memtotal, input), bounds)
  {
    var c, s := Entered(garbage, input), Initial(memtotal, input);
    if fuel: nat :| !Exec(cs, s, bounds, fuel).OutOfFuel? {
      var n, _ := RunProgram(f, cs, memtotal, bounds, base, garbage, input, fuel);
      assert !Steps(f, base, c, n).Run?;
    }
    if m: nat :| !Steps(f, base, c, m).Run? {
      var n, _ := RunProgram(f, cs, memtotal, bounds, base, garbage, input, m + 1);
      if Exec(cs, s, bounds, m + 1).OutOfFuel? {
        StoppedThen(f, base, c, m, n);
      }
    }
  }

  /** Every run of a checked program ends in the way its source does, or not at all. */
  lemma CheckedEnd(f: Func, cs: seq<Cmd>, memtotal: nat, base: nat, garbage: seq<byte>, input: seq<byte>, m: nat)
    returns (fuel: nat)
    requires IsProgram(f, cs, memtotal, true) && Fits(base, memtotal) && |garbage| == memtotal
    requires Small(cs, 0x8000_0000)
    requires !Steps(f, base, Entered(garbage, input), m).Run?
    ensures Agrees(f, base, Entered(garbage, input), m, Exec(cs, Initial(memtotal, input), true, fuel), fuel)
    ensures !Exec(cs, Initial(memtotal, input), true, fuel).OutOfFuel?
  {
    var c, s := Entered(garbage, input), Initial(memtotal, input);
    fuel := m + 1;
    var n, _ := RunProgram(f, cs, memtotal, true, base, garbage, input, fuel);
    StoppedThen(f, base, c, m, if m <= n then n else m);
    if n < m && !Steps(f, base, c, n).Run? {
      StoppedThen(f, base, c, n, m);
    }
  }

  /** When checked execution from the start faults: there is no tape, and the first command is an access. */
  lemma FaultExactly(cs: seq<Cmd>, memtotal: nat, input: seq<byte>, fuel: nat)
    ensures Exec(cs, Initial(memtotal, input), true, fuel) == Fault
       <==> memtotal == 0 && cs != [] && !cs[0].Move?
  {
    var s := Initial(memtotal, input);
    if memtotal > 0 {
      CheckedExec(cs, s, fuel);
    } else if cs != [] {
      EmptyExec(cs, s, true, fuel);
    }
  }

  /**
   When a checked program can get stuck, exactly: it has no memory at all, and its first command is
   not a move, so that it is an access before any check. In every other case every load and store of
   every run is inside the tape, and every register is defined before it is used.
   */
  lemma StuckExactly(f: Func, cs: seq<Cmd>, memtotal: nat, base: nat, garbage: seq<byte>, input: seq<byte>)
    requires IsProgram(f, cs, memtotal, true) && Fits(base, memtotal) && |garbage| == memtotal
    requires Small(cs, 0x8000_0000)
    ensures (exists n: nat :: Steps(f, base, Entered(garbage, input), n) == Stuck)
       <==> memtotal == 0 && cs != [] && !cs[0].Move?
  {
    var c := Entered(garbage, input);
    if n: nat :| Steps(f, base, c, n) == Stuck {
      var fuel := CheckedEnd(f, cs, memtotal, base, garbage, input, n);
      FaultExactly(cs, memtotal, input, fuel);
    }
    if memtotal == 0 && cs != [] && !cs[0].Move? {
      FaultExactly(cs, memtotal, input, 0);
      var n, _ := RunProgram(f, cs, memtotal, true, base, garbage, input, 0);
      assert Steps(f, base, c, n) == Stuck;
    }
  }

  /**
   With the bounds flag and at least one byte of memory no run gets stuck. With any amount of memory
   the error message is issued exactly when some maximal run of moves leaves the head off the tape.
   */
  lemma CheckedIsSafe(f: Func, cs: seq<Cmd>, memtotal: nat, base: nat, garbage: seq<byte>, input: seq<byte>)
    requires IsProgram(f, cs, memtotal, true) && Fits(base, memtotal) && |garbage| == memtotal
    requires Small(cs, 0x8000_0000)
    ensures memtotal >= 1 ==> forall n: nat :: Steps(f, base, Entered(garbage, input), n) != Stuck
    ensures (exists n: nat :: var c := Steps(f, base, Entered(garbage, input), n); c.Halted? && c.mem.complaints == 1)
       <==> (exists fuel: nat :: Exec(cs, Initial(memtotal, input), true, fuel).LeftTape?)
  {
    StuckExactly(f, cs, memtotal, base, garbage, input);
    var c, s := Entered(garbage, input), Initial(memtotal, input);
    if n: nat :| var d := Steps(f, base, c, n); d.Halted? && d.mem.complaints == 1 {
      var fuel := CheckedEnd(f, cs, memtotal, base, garbage, input, n);
      assert Exec(cs, s, true, fuel).LeftTape?;
    }
    if fuel: nat :| Exec(cs, s, true, fuel).LeftTape? {
      var n, _ := RunProgram(f, cs, memtotal, true, base, garbage, input, fuel);
      var d := Steps(f, base, c, n);
      assert d.Halted? && d.mem.complaints == 1;
    }
  }

  /** While the head stays on the tape, the flag cannot be observed. */
  lemma FlagIsInvisible(f: Func, g: Func, raw: seq<Cmd>, memtotal: nat, base: nat,
                        garbage: seq<byte>, input: seq<byte>, fuel: nat) returns (n: nat, m: nat)
    requires Unit(raw) && |Print(raw)| < 0x8000_0000
    requires IsProgram(f, Coalesce(raw), memtotal, true) && IsProgram(g, Coalesce(raw), memtotal, false)
    requires Fits(base, memtotal) && |garbage| == memtotal
    requires !Exec(Coalesce(raw), Initial(memtotal, input), true, fuel).LeftTape?
    ensures Agrees(f, base, Entered(garbage, input), n, Exec(raw, Initial(memtotal, input), false, fuel), fuel)
    ensures Agrees(g, base, Entered(garbage, input), m, Exec(raw, Initial(memtotal, input), false, fuel), fuel)
  {
    var cs, s := Coalesce(raw), Initial(memtotal, input);
    CoalesceIsSmall(raw, 0x8000_0000);
    CoalesceExec(raw, s, fuel);
    if memtotal > 0 {
      CheckedExec(cs, s, fuel);
    } else if cs != [] {
      EmptyExec(cs, s, true, fuel);
      EmptyExec(cs, s, false, fuel);
    }
    var last;
    n, last := RunProgram(f, cs, memtotal, true, base, garbage, input, fuel);
    m, last := SemanticPreservation(g, raw, memtotal, base, garbage, input, fuel);
  }

  /** The smallest such program: with no memory, the flag does not keep a lone write from being stuck. */
  lemma EmptyTapeIsUnsafe(f: Func, base: nat, input: seq<byte>)
    requires IsProgram(f, [Write], 0, true) && Fits(base, 0)
    ensures exists n: nat :: Steps(f, base, Entered([], input), n) == Stuck
  {
    StuckExactly(f, [Write], 0, base, [], input);
  }

  // ---------- runs that do not end ----------

  lemma StepOutput(f: Func, base: nat, c: Config)
    ensures var d := Step(f, base, c); c.Run? && !d.Stuck? ==> c.mem.output <= d.mem.output
  {
  }

  /** What has been written stays written. */
  lemma {:induction false} OutputGrows(f: Func, base: nat, c: Config, n: nat)
    requires !c.Stuck? && !Steps(f, base, c, n).Stuck?
    ensures c.mem.output <= Steps(f, base, c, n).mem.output
    decreases n
  {
    if n > 0 {
      var d := Step(f, base, c);
      StepOutput(f, base, c);
      if d.Stuck? {
        StepsStopped(f, base, d, n - 1);
      } else {
        OutputGrows(f, base, d, n - 1);
      }
    }
  }

  /**
   A program that never ends writes the same for ever. While the source has not ended within `k`
   iterations of its loops, the function still runs after `k` steps, what it has written by then is a
   beginning of what the source has written, and some steps later it has written precisely that.
   */
  lemma EndlessOutput(f: Func, raw: seq<Cmd>, memtotal: nat, base: nat, garbage: seq<byte>, input: seq<byte>, k: nat)
    returns (n: nat)
    requires Unit(raw) && |Print(raw)| < 0x8000_0000 && IsProgram(f, Coalesce(raw), memtotal, false)
    requires Fits(base, memtotal) && |garbage| == memtotal
    requires Exec(raw, Initial(memtotal, input), false, k).OutOfFuel?
    ensures n >= k
    ensures var o := Exec(raw, Initial(memtotal, input), false, k);
      && var c, d := Steps(f, base, Entered(garbage, input), k), Steps(f, base, Entered(garbage, input), n);
      && c.Run? && d.Run? && c.mem.output <= o.s.output == d.mem.output
  {
    var c := Entered(garbage, input);
    var last;
    n, last := SemanticPreservation(f, raw, memtotal, base, garbage, input, k);
    var ck := Steps(f, base, c, k);
    if !ck.Run? {
      StoppedThen(f, base, c, k, n);
    }
    StepsAdd(f, base, c, k, n - k);
    OutputGrows(f, base, ck, n - k);
  }
}
