/**
 The part of LLVM's intermediate form that the BrainF compiler emits, and how it runs.

 A function is a list of basic blocks; a block is a list of instructions and one terminator.
 Registers hold typed values; a pointer is an offset from the tape's first byte, and pointers
 are compared as the unsigned 64-bit addresses `base + offset`.
 */
module BrainFIR {
  import opened Common

  type Reg = nat
  type BlockId = nat

  datatype Instr =
    | Malloc(dst: Reg)                       // the tape, of the size asked for
    | Memset(ptr: Reg)                       // clears the tape
    | Gep(dst: Reg, ptr: Reg, index: int)    // a pointer `index` bytes on
    | GetChar(dst: Reg)                      // an input character, or -1 at the end
    | Trunc(dst: Reg, src: Reg)              // the low 8 of 32 bits
    | SExt(dst: Reg, src: Reg)               // 8 bits, with their sign, as 32
    | PutChar(src: Reg)
    | Load(dst: Reg, ptr: Reg)
    | Store(src: Reg, ptr: Reg)
    | AddI8(dst: Reg, src: Reg, k: int)      // modulo 256
    | IcmpUge(dst: Reg, x: Reg, y: Reg)      // of pointers, as unsigned addresses
    | IcmpUlt(dst: Reg, x: Reg, y: Reg)
    | Or(dst: Reg, x: Reg, y: Reg)
    | IcmpZero(dst: Reg, src: Reg)
    | Phi(dst: Reg, incoming: seq<(Reg, BlockId)>)
    | Puts                                   // the error message
    | Free(ptr: Reg)

  datatype Term = Br(target: BlockId) | CondBr(cond: Reg, ifTrue: BlockId, ifFalse: BlockId) | Ret

  datatype Block = Block(body: seq<Instr>, term: Option<Term>)

  type Func = seq<Block>

  // ---------- running ----------

  datatype Val = I32(i: int) | I8(b: byte) | I1(flag: bool) | Ptr(off: int)

  type Regs = map<Reg, Val>

  /** Memory and the outside world; `complaints` counts error messages. */
  datatype Mem = Mem(tape: seq<byte>, input: seq<byte>, output: seq<byte>, complaints: nat)

  datatype Config =
    | Run(blk: BlockId, idx: nat, prev: BlockId, regs: Regs, mem: Mem)
    | Halted(mem: Mem)
    | Stuck

  const TWO64 := 0x1_0000_0000_0000_0000

  /** The unsigned address of a pointer. */
  function Addr(base: nat, off: int): int {
    (base + off) % TWO64
  }

  /** A 32-bit index, as the signed number the address computation uses. */
  function SignExtend32(k: int): int {
    if k % 0x1_0000_0000 < 0x8000_0000 then k % 0x1_0000_0000 else k % 0x1_0000_0000 - 0x1_0000_0000
  }

  function LookupPhi(incoming: seq<(Reg, BlockId)>, prev: BlockId): Option<Reg> {
    if incoming == [] then None
    else if incoming[0].1 == prev then Some(incoming[0].0)
    else LookupPhi(incoming[1..], prev)
  }

  predicate IsPtr(regs: Regs, r: Reg) { r in regs && regs[r].Ptr? }
  predicate IsI8(regs: Regs, r: Reg) { r in regs && regs[r].I8? }
  predicate IsI32(regs: Regs, r: Reg) { r in regs && regs[r].I32? }
  predicate IsI1(regs: Regs, r: Reg) { r in regs && regs[r].I1? }

  /** A pointer that may be read and written through. */
  predicate IsCell(regs: Regs, r: Reg, mem: Mem) {
    IsPtr(regs, r) && 0 <= regs[r].off < |mem.tape|
  }

  /** `c` one instruction further, with `r` set to `v`. */
  function Set(c: Config, r: Reg, v: Val): Config
    requires c.Run?
  {
    c.(idx := c.idx + 1, regs := c.regs[r := v])
  }

  /** One instruction. An undefined or ill-typed operand, or an access off the tape, is stuck. */
  function StepInstr(base: nat, c: Config, i: Instr): Config
    requires c.Run?
  {
    var g, m := c.regs, c.mem;
    match i
    case Malloc(d) => Set(c, d, Ptr(0))
    case Memset(p) =>
      if IsPtr(g, p) && g[p].off == 0 then c.(idx := c.idx + 1, mem := m.(tape := seq(|m.tape|, _ => 0)))
      else Stuck
    case Gep(d, p, k) =>
      if IsPtr(g, p) then Set(c, d, Ptr(g[p].off + SignExtend32(k))) else Stuck
    case GetChar(d) =>
      if m.input == [] then Set(c, d, I32(-1))
      else Set(c, d, I32(m.input[0])).(mem := m.(input := m.input[1..]))
    case Trunc(d, s) =>
      if IsI32(g, s) then Set(c, d, I8(g[s].i % 256)) else Stuck
    case SExt(d, s) =>
      if IsI8(g, s) then Set(c, d, I32(if g[s].b < 128 then g[s].b else g[s].b - 256)) else Stuck
    case PutChar(s) =>
      // putchar writes its argument converted to unsigned char
      if IsI32(g, s) then c.(idx := c.idx + 1, mem := m.(output := m.output + [g[s].i % 256])) else Stuck
    case Load(d, p) =>
      if IsCell(g, p, m) then Set(c, d, I8(m.tape[g[p].off])) else Stuck
    case Store(s, p) =>
      if IsI8(g, s) && IsCell(g, p, m)
      then c.(idx := c.idx + 1, mem := m.(tape := m.tape[g[p].off := g[s].b]))
      else Stuck
    case AddI8(d, s, k) =>
      if IsI8(g, s) then Set(c, d, I8((g[s].b + k % 256) % 256)) else Stuck
    case IcmpUge(d, x, y) =>
      if IsPtr(g, x) && IsPtr(g, y) then Set(c, d, I1(Addr(base, g[x].off) >= Addr(base, g[y].off))) else Stuck
    case IcmpUlt(d, x, y) =>
      if IsPtr(g, x) && IsPtr(g, y) then Set(c, d, I1(Addr(base, g[x].off) < Addr(base, g[y].off))) else Stuck
    case Or(d, x, y) =>
      if IsI1(g, x) && IsI1(g, y) then Set(c, d, I1(g[x].flag || g[y].flag)) else Stuck
    case IcmpZero(d, s) =>
      if IsI8(g, s) then Set(c, d, I1(g[s].b == 0)) else Stuck
    case Phi(d, incoming) =>
      var o := LookupPhi(incoming, c.prev);
      if o.Some? && o.value in g then Set(c, d, g[o.value]) else Stuck
    case Puts => c.(idx := c.idx + 1, mem := m.(complaints := m.complaints + 1))
    case Free(p) => if IsPtr(g, p) && g[p].off == 0 then c.(idx := c.idx + 1) else Stuck
  }

  function Jump(c: Config, target: BlockId): Config
    requires c.Run?
  {
    Run(target, 0, c.blk, c.regs, c.mem)
  }

  function Step(f: Func, base: nat, c: Config): Config {
    if !c.Run? then c
    else if c.blk >= |f| then Stuck
    else if c.idx < |f[c.blk].body| then StepInstr(base, c, f[c.blk].body[c.idx])
    else if c.idx > |f[c.blk].body| then Stuck
    else match f[c.blk].term
      case None => Stuck
      case Some(Br(t)) => Jump(c, t)
      case Some(CondBr(r, t, e)) => if IsI1(c.regs, r) then Jump(c, if c.regs[r].flag then t else e) else Stuck
      case Some(Ret) => Halted(c.mem)
  }

  function Steps(f: Func, base: nat, c: Config, n: nat): Config
    decreases n
  {
    if n == 0 then c else Steps(f, base, Step(f, base, c), n - 1)
  }

  lemma {:induction false} StepsAdd(f: Func, base: nat, c: Config, m: nat, n: nat)
    ensures Steps(f, base, c, m + n) == Steps(f, base, Steps(f, base, c, m), n)
    decreases m
  {
    if m > 0 {
      StepsAdd(f, base, Step(f, base, c), m - 1, n);
    }
  }

  /** A machine that has stopped stays as it is. */
  lemma {:induction false} StepsStopped(f: Func, base: nat, c: Config, n: nat)
    requires !c.Run?
    ensures Steps(f, base, c, n) == c
  {
    if n > 0 {
      StepsStopped(f, base, c, n - 1);
    }
  }
}
