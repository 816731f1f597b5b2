/**
 What the compiler's output for given commands looks like.

 The compiler numbers registers and blocks in the order in which it creates them, so where the
 code of a command ends follows from where it begins. `After` and `End` compute that place, and
 `Compiled(f, cs, p)` says that `f` holds the code of `cs` from place `p` on.
 */
module BrainFCode {
  import opened Common
  import opened BrainFSource
  import opened BrainFIR

  const ENTRY: BlockId := 0
  const ENDBB: BlockId := 1
  const ABERROR: BlockId := 2
  const ARR: Reg := 0
  const ARRMAX: Reg := 1

  /** Where the compiler writes next: a block, the place in it, the head's register, and the
      first register and block not yet used. */
  datatype Point = Point(blk: BlockId, idx: nat, head: Reg, nextReg: Reg, nextBlk: BlockId)

  function Plus(p: Point, instrs: nat, regs: nat): Point {
    p.(idx := p.idx + instrs, nextReg := p.nextReg + regs)
  }

  /** The block the body of a loop starts in; its test block comes just before it. */
  function BodyStart(p: Point): Point {
    Point(p.nextBlk + 1, 0, p.nextReg, p.nextReg + 1, p.nextBlk + 2)
  }

  /** Behind a loop whose body's code ends at `e`. */
  function AfterLoop(e: Point): Point {
    Point(e.nextBlk, 1, e.nextReg + 2, e.nextReg + 3, e.nextBlk + 1)
  }

  function After(c: Cmd, p: Point, bounds: bool): Point
    decreases c, 0
  {
    match c
    case Move(n) =>
      if bounds then Point(p.nextBlk, 0, p.nextReg, p.nextReg + 4, p.nextBlk + 1)
      else Plus(p, 1, 1).(head := p.nextReg)
    case Loop(body) => AfterLoop(End(body, BodyStart(p), bounds))
    case _ => Plus(p, 3, 2)
  }

  function End(cs: seq<Cmd>, p: Point, bounds: bool): Point
    decreases cs, 1
  {
    if cs == [] then p else After(cs[|cs| - 1], End(cs[..|cs| - 1], p, bounds), bounds)
  }

  /** The straight-line instructions of a command. */
  function Code(c: Cmd, p: Point, bounds: bool): seq<Instr> {
    var r := p.nextReg;
    match c
    case Read => [GetChar(r), Trunc(r + 1, r), Store(r + 1, p.head)]
    case Write => [Load(r, p.head), SExt(r + 1, r), PutChar(r + 1)]
    case Change(n) => [Load(r, p.head), AddI8(r + 1, r, n), Store(r + 1, p.head)]
    case Move(n) =>
      [Gep(r, p.head, n)] +
      if bounds then [IcmpUge(r + 1, r, ARRMAX), IcmpUlt(r + 2, r, ARR), Or(r + 3, r + 1, r + 2)] else []
    case Loop(_) => []
  }

  /** The test block of a loop that starts at `p` and whose body's code ends at `e`. */
  function TestBlock(p: Point, e: Point): Block {
    Block([Phi(p.nextReg, [(p.head, p.blk), (e.head, e.blk)]),
           Load(e.nextReg, p.nextReg),
           IcmpZero(e.nextReg + 1, e.nextReg)],
          Some(CondBr(e.nextReg + 1, e.nextBlk, p.nextBlk + 1)))
  }

  function ExitPhi(p: Point, e: Point): Instr {
    Phi(e.nextReg + 2, [(p.nextReg, p.nextBlk)])
  }

  ghost predicate At(f: Func, blk: BlockId, idx: nat, code: seq<Instr>) {
    blk < |f| && idx + |code| <= |f[blk].body| && f[blk].body[idx..idx + |code|] == code
  }

  /** Block `blk` has exactly `len` instructions and ends in `t`. */
  ghost predicate Closed(f: Func, blk: BlockId, len: nat, t: Term) {
    blk < |f| && |f[blk].body| == len && f[blk].term == Some(t)
  }

  /** The loop test and the block behind the loop. */
  ghost predicate LoopEnd(f: Func, p: Point, e: Point) {
    && Closed(f, e.blk, e.idx, Br(p.nextBlk))
    && p.nextBlk < |f| && f[p.nextBlk] == TestBlock(p, e)
    && At(f, e.nextBlk, 0, [ExitPhi(p, e)])
  }

  ghost predicate CompiledCmd(f: Func, c: Cmd, p: Point, bounds: bool)
    decreases c, 0
  {
    match c
    case Move(n) =>
      && At(f, p.blk, p.idx, Code(c, p, bounds))
      && (bounds ==> Closed(f, p.blk, p.idx + 4, CondBr(p.nextReg + 3, ABERROR, p.nextBlk)) && p.nextBlk < |f|)
    case Loop(body) =>
      var s := BodyStart(p);
      && Closed(f, p.blk, p.idx, Br(p.nextBlk))
      && Compiled(f, body, s, bounds)
      && LoopEnd(f, p, End(body, s, bounds))
    case _ => At(f, p.blk, p.idx, Code(c, p, bounds))
  }

  ghost predicate Compiled(f: Func, cs: seq<Cmd>, p: Point, bounds: bool)
    decreases cs, 1
  {
    p.blk < |f| && p.idx <= |f[p.blk].body| &&
    (cs == [] ||
     (Compiled(f, cs[..|cs| - 1], p, bounds) &&
      CompiledCmd(f, cs[|cs| - 1], End(cs[..|cs| - 1], p, bounds), bounds)))
  }

  /** Blocks and registers in use lie below the counters, and the head is not a fixed register. */
  predicate Ok(p: Point, bounds: bool) {
    p.blk < p.nextBlk && p.head < p.nextReg && ARR < p.head && (bounds ==> ARRMAX < p.head && ABERROR < p.nextBlk)
  }

  lemma {:induction false} EndOk(cs: seq<Cmd>, p: Point, bounds: bool)
    requires Ok(p, bounds)
    ensures var e := End(cs, p, bounds);
      && Ok(e, bounds) && p.nextReg <= e.nextReg && p.nextBlk <= e.nextBlk
      && ((e.blk == p.blk && p.idx <= e.idx) || p.nextBlk <= e.blk)
    decreases cs, 1
  {
    if cs != [] {
      EndOk(cs[..|cs| - 1], p, bounds);
      AfterOk(cs[|cs| - 1], End(cs[..|cs| - 1], p, bounds), bounds);
    }
  }

  lemma {:induction false} AfterOk(c: Cmd, p: Point, bounds: bool)
    requires Ok(p, bounds)
    ensures var e := After(c, p, bounds);
      && Ok(e, bounds) && p.nextReg <= e.nextReg && p.nextBlk <= e.nextBlk
      && ((e.blk == p.blk && p.idx <= e.idx) || p.nextBlk <= e.blk)
    decreases c, 0
  {
    if c.Loop? {
      EndOk(c.body, BodyStart(p), bounds);
    }
  }
}
