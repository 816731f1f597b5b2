/** Running compiled code does what the commands mean. */
module BrainFCorrect {
  import opened Common
  import opened BrainFSource
  import opened BrainFFacts
  import opened BrainFIR
  import opened BrainFCode

  /** The machine stands at `p`, and its memory and head register show source state `s`. */
  ghost predicate Matches(c: Config, p: Point, s: State, bounds: bool) {
    && c.Run? && c.blk == p.blk && c.idx == p.idx
    && Holds(c, p.head, s, bounds)
  }

  /** Memory, the head's register and the fixed registers show `s`. */
  ghost predicate Holds(c: Config, head: Reg, s: State, bounds: bool) {
    && c.Run?
    && c.mem == Mem(s.tape, s.input, s.output, 0)
    && head in c.regs && c.regs[head] == Ptr(s.head)
    && ARR in c.regs && c.regs[ARR] == Ptr(0)
    && (bounds ==> ARRMAX in c.regs && c.regs[ARRMAX] == Ptr(|s.tape|))
  }

  /**
   A tape the machine can address, with a 32-bit size, and a head a checked run may start from:
   any, if it is empty.
   */
  predicate Placed(base: nat, s: State, bounds: bool) {
    |s.tape| < 0x8000_0000 && base + |s.tape| < TWO64 && (bounds ==> OnTape(s) || |s.tape| == 0)
  }

  /** `c'`, reached in `n` steps, shows the outcome `o` of the source; `q` is where `Done` leads. */
  ghost predicate Shows(c': Config, n: nat, base: nat, o: Outcome, q: Point, bounds: bool, fuel: nat) {
    match o
    case Done(s') => Matches(c', q, s', bounds) && Placed(base, s', bounds)
    case OutOfFuel(s') => c'.Run? && n >= fuel && c'.mem == Mem(s'.tape, s'.input, s'.output, 0)
    case LeftTape(s') =>
      && c'.Run? && c'.blk == ABERROR && c'.idx == 0
      && c'.mem == Mem(s'.tape, s'.input, s'.output, 0)
      && ARR in c'.regs && c'.regs[ARR] == Ptr(0)
    case Fault => c'.Stuck?
  }

  /** What the two unsigned comparisons and their disjunction compute for a head. */
  predicate CheckFires(base: nat, size: nat, head: int) {
    Addr(base, head) >= Addr(base, size) || Addr(base, head) < Addr(base, 0)
  }

  /**
   The emitted bounds check is exact: with the head on the tape, or no tape, before a move of less than
   2^31, the two unsigned comparisons see, through any wrap-around of the address, precisely
   whether the head is off the tape after it.
   */
  lemma CheckIsExact(base: nat, size: nat, head: int, k: int)
    requires size < 0x8000_0000 && base + size < TWO64
    requires (0 <= head < size || size == 0) && -0x8000_0000 < k < 0x8000_0000
    ensures SignExtend32(k) == k
    ensures CheckFires(base, size, head + k) <==> !(0 <= head + k < size)
  {
    var a := base + head + k;
    if size > 0 && a < 0 {
      assert a % TWO64 == a + TWO64;
    } else if size > 0 && a >= TWO64 {
      assert a % TWO64 == a - TWO64;
    }
  }

  // ---------- straight-line commands ----------

  lemma CodeAt(f: Func, base: nat, c: Config, idx: nat, code: seq<Instr>, k: nat)
    requires c.Run? && At(f, c.blk, idx, code) && k < |code| && c.idx == idx + k
    ensures Step(f, base, c) == StepInstr(base, c, code[k])
  {
    assert f[c.blk].body[idx + k] == f[c.blk].body[idx..idx + |code|][k];
  }

  /** The next instruction, unless the machine is stuck. */
  function Then(base: nat, c: Config, i: Instr): Config {
    if c.Run? then StepInstr(base, c, i) else c
  }

  /** One step, as a count that the solver does not unroll. */
  lemma One(f: Func, base: nat, c: Config) returns (n: nat)
    ensures n >= 1 && Steps(f, base, c, n) == Step(f, base, c)
  {
    n := 1;
    assert Steps(f, base, c, n) == Steps(f, base, Step(f, base, c), 0);
  }

  /** Two stretches of a run, joined. */
  lemma Compose(f: Func, base: nat, c: Config, n1: nat, c1: Config, n2: nat, c2: Config) returns (n: nat)
    requires Steps(f, base, c, n1) == c1 && Steps(f, base, c1, n2) == c2
    ensures n == n1 + n2 && Steps(f, base, c, n) == c2
  {
    StepsAdd(f, base, c, n1, n2);
    n := n1 + n2;
  }

  lemma StepAt(f: Func, base: nat, c: Config, idx: nat, code: seq<Instr>, k: nat) returns (n: nat)
    requires k < |code| && (c.Run? ==> At(f, c.blk, idx, code) && c.idx == idx + k)
    ensures n >= 1 && Steps(f, base, c, n) == Then(base, c, code[k])
    ensures var c' := Then(base, c, code[k]); c'.Run? ==> c.Run? && c'.blk == c.blk && c'.idx == c.idx + 1
  {
    n := One(f, base, c);
    if c.Run? {
      CodeAt(f, base, c, idx, code, k);
    }
  }

  lemma Straight3(f: Func, base: nat, c: Config, idx: nat, code: seq<Instr>, k: nat) returns (n: nat)
    requires c.Run? && At(f, c.blk, idx, code) && k + 3 <= |code| && c.idx == idx + k
    ensures n >= 1 && Steps(f, base, c, n) == Then(base, Then(base, Then(base, c, code[k]), code[k + 1]), code[k + 2])
  {
    var c1 := Then(base, c, code[k]);
    var c2 := Then(base, c1, code[k + 1]);
    var n1 := StepAt(f, base, c, idx, code, k);
    var n2 := StepAt(f, base, c1, idx, code, k + 1);
    var n3 := StepAt(f, base, c2, idx, code, k + 2);
    n := Compose(f, base, c, n1, c1, n2, c2);
    n := Compose(f, base, c, n, c2, n3, Then(base, c2, code[k + 2]));
  }

  lemma SimRead(f: Func, base: nat, p: Point, s: State, c: Config, bounds: bool, fuel: nat) returns (n: nat)
    requires CompiledCmd(f, Read, p, bounds) && Ok(p, bounds) && Matches(c, p, s, bounds) && Placed(base, s, bounds)
    ensures Shows(Steps(f, base, c, n), n, base, ExecCmd(Read, s, bounds, fuel), After(Read, p, bounds), bounds, fuel)
  {
    n := Straight3(f, base, c, p.idx, Code(Read, p, bounds), 0);
    ReadShown(base, p, s, c, n, bounds, fuel);
  }

  lemma ReadShown(base: nat, p: Point, s: State, c: Config, n: nat, bounds: bool, fuel: nat)
    requires Ok(p, bounds) && Matches(c, p, s, bounds) && Placed(base, s, bounds)
    ensures var c1 := Then(base, c, GetChar(p.nextReg));
      var c2 := Then(base, c1, Trunc(p.nextReg + 1, p.nextReg));
      var c3 := Then(base, c2, Store(p.nextReg + 1, p.head));
      Shows(c3, n, base, ExecCmd(Read, s, bounds, fuel), After(Read, p, bounds), bounds, fuel)
  {
  }

  lemma SimWrite(f: Func, base: nat, p: Point, s: State, c: Config, bounds: bool, fuel: nat) returns (n: nat)
    requires CompiledCmd(f, Write, p, bounds) && Ok(p, bounds) && Matches(c, p, s, bounds) && Placed(base, s, bounds)
    ensures Shows(Steps(f, base, c, n), n, base, ExecCmd(Write, s, bounds, fuel), After(Write, p, bounds), bounds, fuel)
  {
    n := Straight3(f, base, c, p.idx, Code(Write, p, bounds), 0);
    var c1 := Then(base, c, Load(p.nextReg, p.head));
    var c2 := Then(base, c1, SExt(p.nextReg + 1, p.nextReg));
    var c3 := Then(base, c2, PutChar(p.nextReg + 1));
  }

  lemma AddMod(b: int, k: int)
    ensures (b + k % 256) % 256 == (b + k) % 256
  {
    assert k == 256 * (k / 256) + k % 256;
    assert (b + k) == 256 * (k / 256) + (b + k % 256);
  }

  lemma SimChange(f: Func, base: nat, k: int, p: Point, s: State, c: Config, bounds: bool, fuel: nat) returns (n: nat)
    requires CompiledCmd(f, Change(k), p, bounds) && Ok(p, bounds)
    requires Matches(c, p, s, bounds) && Placed(base, s, bounds)
    ensures Shows(Steps(f, base, c, n), n, base,
                  ExecCmd(Change(k), s, bounds, fuel), After(Change(k), p, bounds), bounds, fuel)
  {
    n := Straight3(f, base, c, p.idx, Code(Change(k), p, bounds), 0);
    ChangeShown(base, k, p, s, c, n, bounds, fuel);
  }

  lemma ChangeShown(base: nat, k: int, p: Point, s: State, c: Config, n: nat, bounds: bool, fuel: nat)
    requires Ok(p, bounds) && Matches(c, p, s, bounds) && Placed(base, s, bounds)
    ensures var c1 := Then(base, c, Load(p.nextReg, p.head));
      var c2 := Then(base, c1, AddI8(p.nextReg + 1, p.nextReg, k));
      var c3 := Then(base, c2, Store(p.nextReg + 1, p.head));
      Shows(c3, n, base, ExecCmd(Change(k), s, bounds, fuel), After(Change(k), p, bounds), bounds, fuel)
  {
    if OnTape(s) {
      AddMod(s.tape[s.head], k);
    }
  }

  lemma SimMove(f: Func, base: nat, k: int, p: Point, s: State, c: Config, bounds: bool, fuel: nat)
    returns (n: nat)
    requires SmallCmd(Move(k), 0x8000_0000)
    requires CompiledCmd(f, Move(k), p, bounds) && Ok(p, bounds) && Matches(c, p, s, bounds) && Placed(base, s, bounds)
    ensures Shows(Steps(f, base, c, n), n, base,
                  ExecCmd(Move(k), s, bounds, fuel), After(Move(k), p, bounds), bounds, fuel)
  {
    var n1, c1 := SimGep(f, base, k, p, s, c, bounds);
    n := n1;
    if bounds {
      var n4, c4 := SimExactCheck(f, base, k, p, s, c1);
      var n5, c5 := SimBranch(f, base, c4, p.nextReg + 3, ABERROR, p.nextBlk);
      n := Compose(f, base, c, n1, c1, n4, c4);
      n := Compose(f, base, c, n, c4, n5, c5);
      MoveShown(base, k, p, s, c4, c5, n, fuel);
    }
  }

  /** On either side of the branch the machine shows what the checked move comes to. */
  lemma MoveShown(base: nat, k: int, p: Point, s: State, c4: Config, c5: Config, n: nat, fuel: nat)
    requires Placed(base, s, true) && Matches(c4, Plus(p, 4, 4).(head := p.nextReg), s.(head := s.head + k), true)
    requires IsFlag(c4, p.nextReg + 3, !OnTape(s.(head := s.head + k)))
    requires c5 == Jump(c4, if c4.regs[p.nextReg + 3].flag then ABERROR else p.nextBlk)
    ensures Shows(c5, n, base, ExecCmd(Move(k), s, true, fuel), After(Move(k), p, true), true, fuel)
  {
  }

  lemma SimGep(f: Func, base: nat, k: int, p: Point, s: State, c: Config, bounds: bool) returns (n: nat, c1: Config)
    requires SmallCmd(Move(k), 0x8000_0000)
    requires CompiledCmd(f, Move(k), p, bounds) && Ok(p, bounds) && Matches(c, p, s, bounds)
    ensures c1 == Steps(f, base, c, n)
    ensures Matches(c1, Plus(p, 1, 1).(head := p.nextReg), s.(head := s.head + k), bounds)
  {
    n := StepAt(f, base, c, p.idx, Code(Move(k), p, bounds), 0);
    c1 := Then(base, c, Gep(p.nextReg, p.head, k));
    assert SignExtend32(k) == k;
  }

  /** `r` holds the truth value `v`. */
  ghost predicate IsFlag(c: Config, r: Reg, v: bool) {
    c.Run? && r in c.regs && c.regs[r] == I1(v)
  }

  lemma CheckCode(k: int, p: Point)
    ensures var code, r := Code(Move(k), p, true), p.nextReg;
      && |code| == 4 && code[1] == IcmpUge(r + 1, r, ARRMAX) && code[2] == IcmpUlt(r + 2, r, ARR)
      && code[3] == Or(r + 3, r + 1, r + 2)
  {
  }

  lemma SimUge(f: Func, base: nat, k: int, p: Point, s1: State, c1: Config) returns (n: nat, c2: Config)
    requires Ok(p, true) && At(f, p.blk, p.idx, Code(Move(k), p, true))
    requires Matches(c1, Plus(p, 1, 1).(head := p.nextReg), s1, true)
    ensures c2 == Steps(f, base, c1, n) && Matches(c2, Plus(p, 2, 2).(head := p.nextReg), s1, true)
    ensures IsFlag(c2, p.nextReg + 1, Addr(base, s1.head) >= Addr(base, |s1.tape|))
  {
    CheckCode(k, p);
    n := StepAt(f, base, c1, p.idx, Code(Move(k), p, true), 1);
    c2 := Then(base, c1, IcmpUge(p.nextReg + 1, p.nextReg, ARRMAX));
  }

  lemma SimUlt(f: Func, base: nat, k: int, p: Point, s1: State, c2: Config, ge: bool) returns (n: nat, c3: Config)
    requires Ok(p, true) && At(f, p.blk, p.idx, Code(Move(k), p, true))
    requires Matches(c2, Plus(p, 2, 2).(head := p.nextReg), s1, true) && IsFlag(c2, p.nextReg + 1, ge)
    ensures c3 == Steps(f, base, c2, n) && Matches(c3, Plus(p, 3, 3).(head := p.nextReg), s1, true)
    ensures IsFlag(c3, p.nextReg + 1, ge) && IsFlag(c3, p.nextReg + 2, Addr(base, s1.head) < Addr(base, 0))
  {
    CheckCode(k, p);
    n := StepAt(f, base, c2, p.idx, Code(Move(k), p, true), 2);
    c3 := Then(base, c2, IcmpUlt(p.nextReg + 2, p.nextReg, ARR));
  }

  lemma SimOr(f: Func, base: nat, k: int, p: Point, s1: State, c3: Config, ge: bool, lt: bool)
    returns (n: nat, c4: Config)
    requires Ok(p, true) && At(f, p.blk, p.idx, Code(Move(k), p, true))
    requires Matches(c3, Plus(p, 3, 3).(head := p.nextReg), s1, true)
    requires IsFlag(c3, p.nextReg + 1, ge) && IsFlag(c3, p.nextReg + 2, lt)
    ensures c4 == Steps(f, base, c3, n) && Matches(c4, Plus(p, 4, 4).(head := p.nextReg), s1, true)
    ensures IsFlag(c4, p.nextReg + 3, ge || lt)
  {
    CheckCode(k, p);
    n := StepAt(f, base, c3, p.idx, Code(Move(k), p, true), 3);
    c4 := Then(base, c3, Or(p.nextReg + 3, p.nextReg + 1, p.nextReg + 2));
  }

  /** The two comparisons and their disjunction, after the head has moved. */
  lemma SimCheck(f: Func, base: nat, k: int, p: Point, s1: State, c1: Config) returns (n: nat, c4: Config)
    requires Ok(p, true) && At(f, p.blk, p.idx, Code(Move(k), p, true))
    requires Matches(c1, Plus(p, 1, 1).(head := p.nextReg), s1, true)
    ensures c4 == Steps(f, base, c1, n) && Matches(c4, Plus(p, 4, 4).(head := p.nextReg), s1, true)
    ensures IsFlag(c4, p.nextReg + 3, CheckFires(base, |s1.tape|, s1.head))
  {
    var n1, c2 := SimUge(f, base, k, p, s1, c1);
    var ge := Addr(base, s1.head) >= Addr(base, |s1.tape|);
    var n2, c3 := SimUlt(f, base, k, p, s1, c2, ge);
    var lt := Addr(base, s1.head) < Addr(base, 0);
    var n3;
    n3, c4 := SimOr(f, base, k, p, s1, c3, ge, lt);
    n := Compose(f, base, c1, n1, c2, n2, c3);
    n := Compose(f, base, c1, n, c3, n3, c4);
  }

  lemma SimBranch(f: Func, base: nat, c: Config, cond: Reg, yes: BlockId, no: BlockId)
    returns (n: nat, c': Config)
    requires c.Run? && Closed(f, c.blk, c.idx, CondBr(cond, yes, no)) && IsI1(c.regs, cond)
    ensures n >= 1 && c' == Steps(f, base, c, n) && c' == Jump(c, if c.regs[cond].flag then yes else no)
  {
    n := One(f, base, c);
    c' := Steps(f, base, c, n);
  }

  lemma SimExactCheck(f: Func, base: nat, k: int, p: Point, s: State, c1: Config) returns (n: nat, c4: Config)
    requires SmallCmd(Move(k), 0x8000_0000) && Placed(base, s, true)
    requires Ok(p, true) && At(f, p.blk, p.idx, Code(Move(k), p, true))
    requires Matches(c1, Plus(p, 1, 1).(head := p.nextReg), s.(head := s.head + k), true)
    ensures c4 == Steps(f, base, c1, n)
    ensures Matches(c4, Plus(p, 4, 4).(head := p.nextReg), s.(head := s.head + k), true)
    ensures IsFlag(c4, p.nextReg + 3, !OnTape(s.(head := s.head + k)))
  {
    n, c4 := SimCheck(f, base, k, p, s.(head := s.head + k), c1);
    CheckIsExact(base, |s.tape|, s.head, k);
  }

  // ---------- loops and sequences ----------

  /** From the test block, entered with the head in the register that the phi selects. */
  lemma {:induction false} SimTest(f: Func, base: nat, body: seq<Cmd>, p: Point, s: State, c: Config, bounds: bool,
                                   fuel: nat)
    returns (n: nat)
    requires Small(body, 0x8000_0000)
    requires CompiledCmd(f, Loop(body), p, bounds) && Ok(p, bounds) && Placed(base, s, bounds)
    requires c.Run? && c.blk == p.nextBlk && c.idx == 0
    requires var e := End(body, BodyStart(p), bounds);
      (c.prev == p.blk && Holds(c, p.head, s, bounds)) || (c.prev == e.blk && Holds(c, e.head, s, bounds))
    ensures Shows(Steps(f, base, c, n), n, base,
                  ExecCmd(Loop(body), s, bounds, fuel), After(Loop(body), p, bounds), bounds, fuel)
    decreases fuel, body, 0
  {
    var st := BodyStart(p);
    var e := End(body, st, bounds);
    EndOk(body, st, bounds);
    var taken, c4 := RunTest(f, base, body, p, s, c, bounds);
    n := taken;
    if OnTape(s) && s.tape[s.head] != 0 && fuel > 0 {
      var n1 := SimSeq(f, base, body, st, s, c4, bounds, fuel - 1);
      var c5 := Steps(f, base, c4, n1);
      n := Compose(f, base, c, n, c4, n1, c5);
      var o := Exec(body, s, bounds, fuel - 1);
      if o.Done? {
        var m, c6 := SimBack(f, base, c5, e, p.nextBlk);
        n := Compose(f, base, c, n, c5, m, c6);
        var n2 := SimTest(f, base, body, p, o.s, c6, bounds, fuel - 1);
        n := Compose(f, base, c, n, c6, n2, Steps(f, base, c6, n2));
      }
    }
  }

  /** The branch back from the end of the body. */
  lemma SimBack(f: Func, base: nat, c: Config, e: Point, testbb: BlockId) returns (n: nat, c': Config)
    requires c.Run? && c.blk == e.blk && c.idx == e.idx && Closed(f, e.blk, e.idx, Br(testbb))
    ensures n >= 1 && c' == Steps(f, base, c, n) && c' == Jump(c, testbb)
  {
    n := One(f, base, c);
    c' := Step(f, base, c);
  }

  /** The phi takes the head from the side the test block was entered from. */
  lemma RunPhi(f: Func, base: nat, body: seq<Cmd>, p: Point, s: State, c: Config, bounds: bool)
    returns (c1: Config)
    requires CompiledCmd(f, Loop(body), p, bounds) && Ok(p, bounds)
    requires c.Run? && c.blk == p.nextBlk && c.idx == 0
    requires var e := End(body, BodyStart(p), bounds);
      (c.prev == p.blk && Holds(c, p.head, s, bounds)) || (c.prev == e.blk && Holds(c, e.head, s, bounds))
    ensures c1 == Step(f, base, c)
    ensures Holds(c1, p.nextReg, s, bounds) && c1.blk == p.nextBlk && c1.idx == 1
  {
    var e := End(body, BodyStart(p), bounds);
    EndOk(body, BodyStart(p), bounds);
    var incoming := [(p.head, p.blk), (e.head, e.blk)];
    assert incoming[1..] == [(e.head, e.blk)];
    assert LookupPhi(incoming, c.prev) == Some(if c.prev == p.blk then p.head else e.head);
    c1 := Step(f, base, c);
    assert c1 == StepInstr(base, c, Phi(p.nextReg, incoming));
  }

  /** Load, compare and branch. */
  lemma RunBranch(f: Func, base: nat, body: seq<Cmd>, p: Point, s: State, c1: Config, bounds: bool)
    returns (n: nat, c': Config)
    requires CompiledCmd(f, Loop(body), p, bounds) && Ok(p, bounds)
    requires Holds(c1, p.nextReg, s, bounds) && c1.blk == p.nextBlk && c1.idx == 1
    ensures c' == Steps(f, base, c1, n)
    ensures !OnTape(s) ==> c'.Stuck?
    ensures OnTape(s) ==> Holds(c', p.nextReg, s, bounds) && c'.idx == 0 && c'.prev == p.nextBlk
    ensures OnTape(s) ==>
      c'.blk == if s.tape[s.head] == 0 then End(body, BodyStart(p), bounds).nextBlk else p.nextBlk + 1
  {
    var e := End(body, BodyStart(p), bounds);
    EndOk(body, BodyStart(p), bounds);
    var c2 := Step(f, base, c1);
    assert c2 == StepInstr(base, c1, Load(e.nextReg, p.nextReg));
    n := One(f, base, c1);
    c' := c2;
    if OnTape(s) {
      var c3 := Step(f, base, c2);
      assert c3 == StepInstr(base, c2, IcmpZero(e.nextReg + 1, e.nextReg));
      c' := Step(f, base, c3);
      assert c' == Jump(c3, if s.tape[s.head] == 0 then e.nextBlk else p.nextBlk + 1);
      var n2 := One(f, base, c2);
      var n3 := One(f, base, c3);
      n := Compose(f, base, c1, n, c2, n2, c3);
      n := Compose(f, base, c1, n, c3, n3, c');
    }
  }

  /** One pass through the test block, and through the phi behind the loop when the loop is left. */
  lemma RunTest(f: Func, base: nat, body: seq<Cmd>, p: Point, s: State, c: Config, bounds: bool)
    returns (n: nat, c': Config)
    requires CompiledCmd(f, Loop(body), p, bounds) && Ok(p, bounds)
    requires c.Run? && c.blk == p.nextBlk && c.idx == 0
    requires var e := End(body, BodyStart(p), bounds);
      (c.prev == p.blk && Holds(c, p.head, s, bounds)) || (c.prev == e.blk && Holds(c, e.head, s, bounds))
    ensures n >= 1 && c' == Steps(f, base, c, n)
    ensures !OnTape(s) ==> c'.Stuck?
    ensures OnTape(s) && s.tape[s.head] == 0 ==> Matches(c', After(Loop(body), p, bounds), s, bounds)
    ensures OnTape(s) && s.tape[s.head] != 0 ==> Matches(c', BodyStart(p), s, bounds)
  {
    var c1 := RunPhi(f, base, body, p, s, c, bounds);
    var m, c4 := RunBranch(f, base, body, p, s, c1, bounds);
    n, c' := 1 + m, c4;
    assert Steps(f, base, c, 1 + m) == Steps(f, base, c1, m);
    if OnTape(s) && s.tape[s.head] == 0 {
      RunExit(f, base, body, p, s, c4, bounds);
      StepsAdd(f, base, c, n, 1);
      n, c' := n + 1, Steps(f, base, c4, 1);
    }
  }

  /** The phi behind the loop takes the head from the test block. */
  lemma RunExit(f: Func, base: nat, body: seq<Cmd>, p: Point, s: State, c4: Config, bounds: bool)
    requires CompiledCmd(f, Loop(body), p, bounds) && Ok(p, bounds)
    requires Holds(c4, p.nextReg, s, bounds) && c4.idx == 0 && c4.prev == p.nextBlk
    requires c4.blk == End(body, BodyStart(p), bounds).nextBlk
    ensures Matches(Steps(f, base, c4, 1), After(Loop(body), p, bounds), s, bounds)
  {
    var e := End(body, BodyStart(p), bounds);
    EndOk(body, BodyStart(p), bounds);
    CodeAt(f, base, c4, 0, [ExitPhi(p, e)], 0);
    var c5 := Step(f, base, c4);
    assert c5 == StepInstr(base, c4, ExitPhi(p, e));
    assert Steps(f, base, c4, 1) == Steps(f, base, c5, 0);
  }

  lemma {:induction false} SimCmd(f: Func, base: nat, cmd: Cmd, p: Point, s: State, c: Config, bounds: bool, fuel: nat)
    returns (n: nat)
    requires SmallCmd(cmd, 0x8000_0000)
    requires CompiledCmd(f, cmd, p, bounds) && Ok(p, bounds) && Matches(c, p, s, bounds) && Placed(base, s, bounds)
    ensures Shows(Steps(f, base, c, n), n, base, ExecCmd(cmd, s, bounds, fuel), After(cmd, p, bounds), bounds, fuel)
    decreases fuel, cmd, 1
  {
    match cmd
    case Move(k) => n := SimMove(f, base, k, p, s, c, bounds, fuel);
    case Loop(body) =>
      var c1 := Step(f, base, c);
      assert c1 == Jump(c, p.nextBlk);
      n := SimTest(f, base, body, p, s, c1, bounds, fuel);
      assert Steps(f, base, c, 1 + n) == Steps(f, base, c1, n);
      n := 1 + n;
    case Read => n := SimRead(f, base, p, s, c, bounds, fuel);
    case Write => n := SimWrite(f, base, p, s, c, bounds, fuel);
    case Change(k) => n := SimChange(f, base, k, p, s, c, bounds, fuel);
  }

  /** The simulation: compiled code, run from its start, follows the source whatever it does. */
  lemma {:induction false} SimSeq(f: Func, base: nat, cs: seq<Cmd>, p: Point, s: State, c: Config, bounds: bool,
                                  fuel: nat)
    returns (n: nat)
    requires Small(cs, 0x8000_0000)
    requires Compiled(f, cs, p, bounds) && Ok(p, bounds) && Matches(c, p, s, bounds) && Placed(base, s, bounds)
    ensures Shows(Steps(f, base, c, n), n, base, Exec(cs, s, bounds, fuel), End(cs, p, bounds), bounds, fuel)
    decreases fuel, cs, 2
  {
    n := 0;
    if cs != [] {
      var init, last := cs[..|cs| - 1], cs[|cs| - 1];
      n := SimSeq(f, base, init, p, s, c, bounds, fuel);
      var o := Exec(init, s, bounds, fuel);
      EndOk(init, p, bounds);
      if o.Done? {
        var c1 := Steps(f, base, c, n);
        var n2 := SimCmd(f, base, last, End(init, p, bounds), o.s, c1, bounds, fuel);
        n := Compose(f, base, c, n, c1, n2, Steps(f, base, c1, n2));
      }
    }
  }
}
