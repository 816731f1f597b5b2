/**
 The emitted function is well formed: every block ends once and in existing blocks, every phi
 has exactly one entry for each predecessor, every register is defined once, and every use is
 dominated by its definition.
 */
module BrainFSsa {
  import opened Common
  import opened BrainFSource
  import opened BrainFIR
  import opened BrainFCode
  import opened BrainFCompiler

  // ---------- what is to be shown ----------

  function Targets(t: Term): set<BlockId> {
    match t
    case Br(b) => {b}
    case CondBr(_, b, c) => {b, c}
    case Ret => {}
  }

  ghost predicate Edge(f: Func, u: BlockId, v: BlockId) {
    u < |f| && f[u].term.Some? && v in Targets(f[u].term.value)
  }

  /** A walk through the function from its entry. */
  ghost predicate IsPath(f: Func, path: seq<BlockId>) {
    path != [] && path[0] == ENTRY && forall i :: 0 < i < |path| ==> Edge(f, path[i - 1], path[i])
  }

  /** Block `d` lies on every walk from the entry to block `b`. */
  ghost predicate Dominates(f: Func, d: BlockId, b: BlockId) {
    forall path :: IsPath(f, path) && path[|path| - 1] == b ==> d in path
  }

  /** The register that an instruction defines. */
  function Def(i: Instr): Option<Reg> {
    match i
    case Memset(_) => None
    case PutChar(_) => None
    case Store(_, _) => None
    case Puts => None
    case Free(_) => None
    case _ => Some(i.dst)
  }

  /** The registers that an instruction reads where it stands; a phi reads in its predecessors. */
  function Uses(i: Instr): set<Reg> {
    match i
    case Memset(p) => {p}
    case Gep(_, p, _) => {p}
    case Trunc(_, s) => {s}
    case SExt(_, s) => {s}
    case PutChar(s) => {s}
    case Load(_, p) => {p}
    case Store(s, p) => {s, p}
    case AddI8(_, s, _) => {s}
    case IcmpUge(_, x, y) => {x, y}
    case IcmpUlt(_, x, y) => {x, y}
    case Or(_, x, y) => {x, y}
    case IcmpZero(_, s) => {s}
    case Free(p) => {p}
    case _ => {}
  }

  ghost predicate DefinedAt(f: Func, r: Reg, b: BlockId, i: nat) {
    b < |f| && i < |f[b].body| && Def(f[b].body[i]) == Some(r)
  }

  /** A definition of `r` comes before place `i` of block `b` on every walk from the entry. */
  ghost predicate Available(f: Func, r: Reg, b: BlockId, i: nat) {
    exists db: BlockId, di: nat :: DefinedAt(f, r, db, di) && if db == b then di < i else Dominates(f, db, b)
  }

  /** One entry for each predecessor, and none other, each with a value available there. */
  ghost predicate PhiGood(f: Func, b: BlockId, incoming: seq<(Reg, BlockId)>) {
    && (forall j, k :: 0 <= j < k < |incoming| ==> incoming[j].1 != incoming[k].1)
    && (forall u :: Edge(f, u, b) <==> exists j :: 0 <= j < |incoming| && incoming[j].1 == u)
    && (forall j :: 0 <= j < |incoming| ==>
          incoming[j].1 < |f| && Available(f, incoming[j].0, incoming[j].1, |f[incoming[j].1].body|))
  }

  ghost predicate InstrGood(f: Func, b: BlockId, i: nat)
    requires b < |f| && i < |f[b].body|
  {
    if f[b].body[i].Phi? then i == 0 && PhiGood(f, b, f[b].body[i].incoming)
    else forall r :: r in Uses(f[b].body[i]) ==> Available(f, r, b, i)
  }

  ghost predicate TermGood(f: Func, b: BlockId) {
    && b < |f| && f[b].term.Some?
    && (forall v :: v in Targets(f[b].term.value) ==> v < |f|)
    && (f[b].term.value.CondBr? ==> Available(f, f[b].term.value.cond, b, |f[b].body|))
  }

  ghost predicate WellFormed(f: Func) {
    && (forall b :: 0 <= b < |f| ==> TermGood(f, b))
    && (forall b, i :: 0 <= b < |f| && 0 <= i < |f[b].body| ==> InstrGood(f, b, i))
    && (forall r: Reg, b: BlockId, i: nat, c: BlockId, j: nat :: DefinedAt(f, r, b, i) && DefinedAt(f, r, c, j) ==>
          b == c && i == j)
  }

  // ---------- where the edges of a piece of code lead ----------

  /** The blocks created from `p` to `q`. */
  predicate New(p: Point, q: Point, b: BlockId) {
    p.nextBlk <= b < q.nextBlk
  }

  /** Blocks finished between `p` and `q` lead to blocks created there, or out of the program. */
  ghost predicate StaysInside(f: Func, p: Point, q: Point, bounds: bool) {
    forall u: BlockId :: (u == p.blk || New(p, q, u)) && u != q.blk ==>
      && u < |f| && f[u].term.Some?
      && forall v :: v in Targets(f[u].term.value) ==> New(p, q, v) || v == ENDBB || (bounds && v == ABERROR)
  }

  lemma {:induction false} EdgesInside(f: Func, cs: seq<Cmd>, p: Point, bounds: bool)
    requires Compiled(f, cs, p, bounds) && Ok(p, bounds)
    ensures StaysInside(f, p, End(cs, p, bounds), bounds)
    decreases cs, 1
  {
    if cs != [] {
      var init, e := cs[..|cs| - 1], End(cs[..|cs| - 1], p, bounds);
      EndOk(init, p, bounds);
      EdgesInside(f, init, p, bounds);
      EdgesInsideCmd(f, cs[|cs| - 1], e, bounds);
      AfterOk(cs[|cs| - 1], e, bounds);
    }
  }

  lemma {:induction false} EdgesInsideCmd(f: Func, c: Cmd, p: Point, bounds: bool)
    requires CompiledCmd(f, c, p, bounds) && Ok(p, bounds)
    ensures StaysInside(f, p, After(c, p, bounds), bounds)
    decreases c, 0
  {
    if c.Loop? {
      EndOk(c.body, BodyStart(p), bounds);
      EdgesInside(f, c.body, BodyStart(p), bounds);
    }
  }

  /** Only `p.blk` and the new blocks lead to new blocks; the block written last does not. */
  ghost predicate Sealed(f: Func, p: Point, q: Point) {
    && (forall u, v :: Edge(f, u, v) && New(p, q, v) ==> u == p.blk || New(p, q, u))
    && (forall v :: Edge(f, q.blk, v) ==> !New(p, q, v))
  }

  lemma SealedSplit(f: Func, p: Point, e: Point, q: Point, bounds: bool)
    requires Sealed(f, p, q) && StaysInside(f, p, e, bounds) && StaysInside(f, e, q, bounds)
    requires p.nextBlk <= e.nextBlk <= q.nextBlk && ENDBB < p.nextBlk && (bounds ==> ABERROR < p.nextBlk)
    requires p.blk < p.nextBlk && (e.blk == p.blk || New(p, e, e.blk)) && (q.blk == e.blk || New(e, q, q.blk))
    ensures Sealed(f, p, e) && Sealed(f, e, q)
  {
  }

  lemma SealedBody(f: Func, body: seq<Cmd>, p: Point, bounds: bool)
    requires CompiledCmd(f, Loop(body), p, bounds) && Ok(p, bounds)
    requires Sealed(f, p, After(Loop(body), p, bounds))
    ensures Sealed(f, BodyStart(p), End(body, BodyStart(p), bounds))
  {
    var s := BodyStart(p);
    var e := End(body, s, bounds);
    EndOk(body, s, bounds);
  }

  // ---------- dominance ----------

  /** A walk that ends in a new block has come through `a`, when only `a` leads in from outside. */
  lemma {:induction false} GateOnPath(f: Func, a: BlockId, lo: nat, hi: nat, path: seq<BlockId>)
    requires forall u: BlockId, v: BlockId :: Edge(f, u, v) && lo <= v < hi ==> u == a || lo <= u < hi
    requires ENTRY < lo && IsPath(f, path) && lo <= path[|path| - 1] < hi
    ensures a in path
    decreases |path|
  {
    var n := |path| - 1;
    if n > 0 {
      assert Edge(f, path[n - 1], path[n]);
      if path[n - 1] != a {
        assert IsPath(f, path[..n]);
        GateOnPath(f, a, lo, hi, path[..n]);
      }
    }
  }

  lemma GateDominates(f: Func, a: BlockId, lo: nat, hi: nat, b: BlockId)
    requires forall u: BlockId, v: BlockId :: Edge(f, u, v) && lo <= v < hi ==> u == a || lo <= u < hi
    requires ENTRY < lo <= b < hi
    ensures Dominates(f, a, b)
  {
    forall path | IsPath(f, path) && path[|path| - 1] == b
      ensures a in path
    {
      GateOnPath(f, a, lo, hi, path);
    }
  }

  lemma {:induction false} DominatesTransitive(f: Func, a: BlockId, b: BlockId, c: BlockId)
    requires Dominates(f, a, b) && Dominates(f, b, c)
    ensures Dominates(f, a, c)
  {
    forall path | IsPath(f, path) && path[|path| - 1] == c
      ensures a in path
    {
      var i :| 0 <= i < |path| && path[i] == b;
      assert IsPath(f, path[..i + 1]);
      assert a in path[..i + 1];
    }
  }

  /** Register `r` has been defined, before `p` was reached, on every walk to `p`. */
  ghost predicate Known(f: Func, r: Reg, p: Point) {
    exists db: BlockId, di: nat :: db < p.nextBlk && DefinedAt(f, r, db, di) &&
      if db == p.blk then di < p.idx else Dominates(f, db, p.blk)
  }

  /** What is known at `p` is available further on in its block, and in new blocks it dominates. */
  lemma KnownLater(f: Func, r: Reg, p: Point, b: BlockId, j: nat)
    requires Known(f, r, p)
    requires if b == p.blk then p.idx <= j else p.nextBlk <= b && Dominates(f, p.blk, b)
    ensures Available(f, r, b, j)
    ensures forall q: Point :: q.blk == b && q.idx == j && p.nextBlk <= q.nextBlk ==> Known(f, r, q)
  {
    var db: BlockId, di: nat :| db < p.nextBlk && DefinedAt(f, r, db, di) &&
      if db == p.blk then di < p.idx else Dominates(f, db, p.blk);
    if b != p.blk && db != p.blk {
      DominatesTransitive(f, db, p.blk, b);
    }
  }

  // ---------- the pieces of a program are good ----------

  /** Place `i` of block `b` is written between `p` and `q`. */
  predicate Between(p: Point, q: Point, b: BlockId, i: nat) {
    (b == p.blk || New(p, q, b)) && (b == p.blk ==> p.idx <= i) && (b == q.blk ==> i < q.idx)
  }

  ghost predicate Good(f: Func, p: Point, q: Point) {
    && (forall b: BlockId, i: nat :: Between(p, q, b, i) && b < |f| && i < |f[b].body| ==> InstrGood(f, b, i))
    && (forall b: BlockId :: (b == p.blk || New(p, q, b)) && b != q.blk ==> TermGood(f, b))
  }

  /** The head and the fixed registers are known at `p`. */
  ghost predicate Ready(f: Func, p: Point, bounds: bool) {
    Known(f, p.head, p) && Known(f, ARR, p) && (bounds ==> Known(f, ARRMAX, p))
  }

  /** The blocks up to `q` and the two that end programs exist, and are numbered as expected. */
  predicate Exists(f: Func, p: Point, q: Point, bounds: bool) {
    Ok(p, bounds) && ENDBB < p.nextBlk && q.nextBlk <= |f|
  }

  lemma GoodSplit(f: Func, p: Point, e: Point, q: Point)
    requires Good(f, p, e) && Good(f, e, q) && p.nextBlk <= e.nextBlk <= q.nextBlk
    requires (e.blk == p.blk && p.idx <= e.idx) || New(p, e, e.blk)
    requires (q.blk == e.blk && e.idx <= q.idx) || New(e, q, q.blk)
    requires p.blk < p.nextBlk
    ensures Good(f, p, q)
  {
    forall b: BlockId, i: nat | Between(p, q, b, i) && b < |f| && i < |f[b].body|
      ensures InstrGood(f, b, i)
    {
      assert Between(p, e, b, i) || Between(e, q, b, i);
    }
    forall b: BlockId | (b == p.blk || New(p, q, b)) && b != q.blk
      ensures TermGood(f, b)
    {
      if b == e.blk || New(e, q, b) {
        assert TermGood(f, b);
      } else {
        assert b == p.blk || New(p, e, b);
      }
    }
  }

  /** The `k`-th instruction of a straight piece of code defines its register for what follows. */
  lemma StraightDef(f: Func, c: Cmd, p: Point, bounds: bool, k: nat)
    requires At(f, p.blk, p.idx, Code(c, p, bounds)) && k < |Code(c, p, bounds)|
    ensures p.idx + k < |f[p.blk].body| && f[p.blk].body[p.idx + k] == Code(c, p, bounds)[k]
    ensures Def(Code(c, p, bounds)[k]).Some? ==> DefinedAt(f, Def(Code(c, p, bounds)[k]).value, p.blk, p.idx + k)
  {
    var code, body := Code(c, p, bounds), f[p.blk].body;
    assert body[p.idx + k] == body[p.idx..p.idx + |code|][k];
  }

  /** Straight code numbers the registers it defines from `p.nextReg` on, and uses older ones. */
  lemma StraightUses(c: Cmd, p: Point, bounds: bool, k: nat, r: Reg)
    requires !c.Loop? && k < |Code(c, p, bounds)| && r in Uses(Code(c, p, bounds)[k]) && Ok(p, bounds)
    ensures !Code(c, p, bounds)[k].Phi?
    ensures r == p.head || r == ARR || (bounds && r == ARRMAX) ||
      (p.nextReg <= r < p.nextReg + k && Def(Code(c, p, bounds)[r - p.nextReg]) == Some(r))
  {
  }

  /** Instructions that only use known registers and ones defined just before. */
  lemma StraightGood(f: Func, c: Cmd, p: Point, bounds: bool, k: nat)
    requires !c.Loop? && At(f, p.blk, p.idx, Code(c, p, bounds)) && Ready(f, p, bounds) && Ok(p, bounds)
    requires k < |Code(c, p, bounds)|
    ensures p.idx + k < |f[p.blk].body| && InstrGood(f, p.blk, p.idx + k)
  {
    var i := Code(c, p, bounds)[k];
    StraightDef(f, c, p, bounds, k);
    forall r | r in Uses(i)
      ensures Available(f, r, p.blk, p.idx + k)
    {
      StraightUses(c, p, bounds, k, r);
      if r == p.head || r == ARR || (bounds && r == ARRMAX) {
        KnownLater(f, r, p, p.blk, p.idx + k);
      } else {
        StraightDef(f, c, p, bounds, r - p.nextReg);
      }
    }
    assert i.Phi? ==> k == 0;
  }

  lemma ReadyLater(f: Func, p: Point, q: Point, bounds: bool)
    requires Ready(f, p, bounds) && p.nextBlk <= q.nextBlk
    requires if q.blk == p.blk then p.idx <= q.idx else p.nextBlk <= q.blk && Dominates(f, p.blk, q.blk)
    ensures Known(f, ARR, q) && (bounds ==> Known(f, ARRMAX, q)) && Known(f, p.head, q)
  {
    KnownLater(f, ARR, p, q.blk, q.idx);
    KnownLater(f, p.head, p, q.blk, q.idx);
    if bounds {
      KnownLater(f, ARRMAX, p, q.blk, q.idx);
    }
  }

  lemma GoodStraight(f: Func, c: Cmd, p: Point, bounds: bool)
    requires !c.Loop? && CompiledCmd(f, c, p, bounds) && Ready(f, p, bounds)
    requires Exists(f, p, After(c, p, bounds), bounds) && Sealed(f, p, After(c, p, bounds))
    ensures Good(f, p, After(c, p, bounds)) && Ready(f, After(c, p, bounds), bounds)
  {
    var q, code := After(c, p, bounds), Code(c, p, bounds);
    forall b: BlockId, i: nat | Between(p, q, b, i) && b < |f| && i < |f[b].body|
      ensures InstrGood(f, b, i)
    {
      StraightGood(f, c, p, bounds, i - p.idx);
    }
    StraightReady(f, c, p, bounds);
  }

  lemma StraightReady(f: Func, c: Cmd, p: Point, bounds: bool)
    requires !c.Loop? && CompiledCmd(f, c, p, bounds) && Ready(f, p, bounds)
    requires Exists(f, p, After(c, p, bounds), bounds) && Sealed(f, p, After(c, p, bounds))
    ensures Ready(f, After(c, p, bounds), bounds)
    ensures c.Move? && bounds ==> TermGood(f, p.blk)
  {
    var q := After(c, p, bounds);
    if c.Move? {
      StraightDef(f, c, p, bounds, 0);
      assert DefinedAt(f, p.nextReg, p.blk, p.idx);
      if bounds {
        StraightDef(f, c, p, bounds, 3);
        assert DefinedAt(f, p.nextReg + 3, p.blk, p.idx + 3);
        assert Edge(f, p.blk, p.nextBlk);
        GateDominates(f, p.blk, p.nextBlk, p.nextBlk + 1, p.nextBlk);
      }
    }
    ReadyLater(f, p, q, bounds);
  }

  /** The predecessors of a loop's test block are the block before the loop and the body's last. */
  lemma TestPreds(f: Func, body: seq<Cmd>, p: Point, bounds: bool, u: BlockId)
    requires CompiledCmd(f, Loop(body), p, bounds) && Ok(p, bounds) && ENDBB < p.nextBlk
    requires Sealed(f, p, After(Loop(body), p, bounds))
    ensures Edge(f, u, p.nextBlk) <==> u == p.blk || u == End(body, BodyStart(p), bounds).blk
  {
    var s := BodyStart(p);
    var e := End(body, s, bounds);
    EndOk(body, s, bounds);
    EdgesInside(f, body, s, bounds);
    if Edge(f, u, p.nextBlk) {
      assert New(p, AfterLoop(e), p.nextBlk);
      assert u == p.blk || u == p.nextBlk || u == s.blk || New(s, e, u) || u == e.nextBlk;
    }
  }

  /** The block behind a loop is entered from the test block only. */
  lemma ExitPreds(f: Func, body: seq<Cmd>, p: Point, bounds: bool, u: BlockId)
    requires CompiledCmd(f, Loop(body), p, bounds) && Ok(p, bounds) && ENDBB < p.nextBlk
    requires Sealed(f, p, After(Loop(body), p, bounds))
    ensures Edge(f, u, End(body, BodyStart(p), bounds).nextBlk) <==> u == p.nextBlk
  {
    var s := BodyStart(p);
    var e := End(body, s, bounds);
    EndOk(body, s, bounds);
    EdgesInside(f, body, s, bounds);
    if Edge(f, u, e.nextBlk) {
      assert New(p, AfterLoop(e), e.nextBlk);
      assert u == p.blk || u == p.nextBlk || u == s.blk || New(s, e, u) || u == e.nextBlk;
    }
  }

  /** The test block lies on every walk to the loop's body and to the block behind the loop. */
  lemma TestDominates(f: Func, body: seq<Cmd>, p: Point, bounds: bool, b: BlockId)
    requires CompiledCmd(f, Loop(body), p, bounds) && Ok(p, bounds) && ENDBB < p.nextBlk
    requires Sealed(f, p, After(Loop(body), p, bounds))
    requires p.nextBlk < b <= End(body, BodyStart(p), bounds).nextBlk
    ensures Dominates(f, p.nextBlk, b) && Dominates(f, p.blk, b)
  {
    var e := End(body, BodyStart(p), bounds);
    forall u: BlockId, v: BlockId | Edge(f, u, v) && p.nextBlk < v <= e.nextBlk
      ensures u == p.nextBlk || p.nextBlk < u <= e.nextBlk
    {
      assert New(p, AfterLoop(e), v);
    }
    GateDominates(f, p.nextBlk, p.nextBlk + 1, e.nextBlk + 1, b);
    forall u: BlockId, v: BlockId | Edge(f, u, v) && p.nextBlk <= v <= e.nextBlk
      ensures u == p.blk || p.nextBlk <= u <= e.nextBlk
    {
      assert New(p, AfterLoop(e), v);
    }
    GateDominates(f, p.blk, p.nextBlk, e.nextBlk + 1, b);
  }

  lemma {:induction false} GoodLoop(f: Func, body: seq<Cmd>, p: Point, bounds: bool)
    requires CompiledCmd(f, Loop(body), p, bounds) && Ready(f, p, bounds)
    requires Exists(f, p, After(Loop(body), p, bounds), bounds) && Sealed(f, p, After(Loop(body), p, bounds))
    ensures Good(f, p, After(Loop(body), p, bounds)) && Ready(f, After(Loop(body), p, bounds), bounds)
    decreases body, 2
  {
    var s, t := BodyStart(p), p.nextBlk;
    var e := End(body, s, bounds);
    var q := AfterLoop(e);
    EndOk(body, s, bounds);
    assert DefinedAt(f, s.head, t, 0);
    TestDominates(f, body, p, bounds, s.blk);
    TestDominates(f, body, p, bounds, e.nextBlk);
    ReadyLater(f, p, s, bounds);
    ReadyLater(f, p, q, bounds);
    SealedBody(f, body, p, bounds);
    GoodSeq(f, body, s, bounds);
    TestGood(f, body, p, bounds);
    ExitGood(f, body, p, bounds);
    LoopJoin(f, body, p, bounds);
  }

  /** A loop is the block before it, its test block, its body, and the phi behind it. */
  lemma LoopJoin(f: Func, body: seq<Cmd>, p: Point, bounds: bool)
    requires CompiledCmd(f, Loop(body), p, bounds) && Exists(f, p, After(Loop(body), p, bounds), bounds)
    requires Good(f, BodyStart(p), End(body, BodyStart(p), bounds)) && TermGood(f, p.nextBlk)
    requires forall i :: 0 <= i < |f[p.nextBlk].body| ==> InstrGood(f, p.nextBlk, i)
    requires InstrGood(f, End(body, BodyStart(p), bounds).nextBlk, 0)
    ensures Good(f, p, After(Loop(body), p, bounds))
  {
    var s, t := BodyStart(p), p.nextBlk;
    var e := End(body, s, bounds);
    var q := AfterLoop(e);
    EndOk(body, s, bounds);
    forall b: BlockId, i: nat | Between(p, q, b, i) && b < |f| && i < |f[b].body|
      ensures InstrGood(f, b, i)
    {
      assert b == t || b == e.nextBlk || Between(s, e, b, i);
    }
    forall b: BlockId | (b == p.blk || New(p, q, b)) && b != q.blk
      ensures TermGood(f, b)
    {
      assert b == p.blk || b == t || b == e.blk || ((b == s.blk || New(s, e, b)) && b != e.blk);
    }
  }

  lemma TestGood(f: Func, body: seq<Cmd>, p: Point, bounds: bool)
    requires CompiledCmd(f, Loop(body), p, bounds) && Ready(f, p, bounds)
    requires Exists(f, p, After(Loop(body), p, bounds), bounds) && Sealed(f, p, After(Loop(body), p, bounds))
    requires Ready(f, End(body, BodyStart(p), bounds), bounds)
    ensures forall i :: 0 <= i < |f[p.nextBlk].body| ==> InstrGood(f, p.nextBlk, i)
    ensures TermGood(f, p.nextBlk)
  {
    EndOk(body, BodyStart(p), bounds);
    TestPhiGood(f, body, p, bounds);
    TestBlockGood(f, p, End(body, BodyStart(p), bounds));
  }

  lemma TestBlockGood(f: Func, p: Point, e: Point)
    requires p.nextBlk < |f| && f[p.nextBlk] == TestBlock(p, e) && p.nextBlk + 1 < |f| && e.nextBlk < |f|
    ensures InstrGood(f, p.nextBlk, 1) && InstrGood(f, p.nextBlk, 2) && TermGood(f, p.nextBlk)
  {
    var t := p.nextBlk;
    assert DefinedAt(f, p.nextReg, t, 0);
    assert DefinedAt(f, e.nextReg, t, 1);
    assert DefinedAt(f, e.nextReg + 1, t, 2);
  }

  lemma TestPhiGood(f: Func, body: seq<Cmd>, p: Point, bounds: bool)
    requires CompiledCmd(f, Loop(body), p, bounds) && Ready(f, p, bounds)
    requires Exists(f, p, After(Loop(body), p, bounds), bounds) && Sealed(f, p, After(Loop(body), p, bounds))
    requires Ready(f, End(body, BodyStart(p), bounds), bounds)
    ensures InstrGood(f, p.nextBlk, 0)
  {
    var t := p.nextBlk;
    var e := End(body, BodyStart(p), bounds);
    EndOk(body, BodyStart(p), bounds);
    var incoming := [(p.head, p.blk), (e.head, e.blk)];
    KnownLater(f, p.head, p, p.blk, p.idx);
    KnownLater(f, e.head, e, e.blk, e.idx);
    forall u
      ensures Edge(f, u, t) <==> exists j :: 0 <= j < |incoming| && incoming[j].1 == u
    {
      TestPreds(f, body, p, bounds, u);
      assert incoming[0].1 == p.blk && incoming[1].1 == e.blk;
    }
    assert PhiGood(f, t, incoming);
  }

  lemma ExitGood(f: Func, body: seq<Cmd>, p: Point, bounds: bool)
    requires CompiledCmd(f, Loop(body), p, bounds) && Ok(p, bounds) && ENDBB < p.nextBlk
    requires Sealed(f, p, After(Loop(body), p, bounds))
    ensures var e := End(body, BodyStart(p), bounds);
      InstrGood(f, e.nextBlk, 0) && DefinedAt(f, e.nextReg + 2, e.nextBlk, 0)
  {
    var t := p.nextBlk;
    var e := End(body, BodyStart(p), bounds);
    var x := e.nextBlk;
    assert f[x].body[0] == f[x].body[0..1][0] == ExitPhi(p, e);
    var incoming := [(p.nextReg, t)];
    assert DefinedAt(f, p.nextReg, t, 0);
    forall u
      ensures Edge(f, u, x) <==> exists j :: 0 <= j < |incoming| && incoming[j].1 == u
    {
      ExitPreds(f, body, p, bounds, u);
      assert incoming[0].1 == t;
    }
    assert PhiGood(f, x, incoming);
  }

  lemma {:induction false} GoodSeq(f: Func, cs: seq<Cmd>, p: Point, bounds: bool)
    requires Compiled(f, cs, p, bounds) && Ready(f, p, bounds)
    requires Exists(f, p, End(cs, p, bounds), bounds) && Sealed(f, p, End(cs, p, bounds))
    ensures Good(f, p, End(cs, p, bounds)) && Ready(f, End(cs, p, bounds), bounds)
    decreases cs, 1
  {
    if cs != [] {
      var init, last := cs[..|cs| - 1], cs[|cs| - 1];
      var e, q := End(init, p, bounds), End(cs, p, bounds);
      EndOk(init, p, bounds);
      AfterOk(last, e, bounds);
      EdgesInside(f, init, p, bounds);
      EdgesInsideCmd(f, last, e, bounds);
      SealedSplit(f, p, e, q, bounds);
      GoodSeq(f, init, p, bounds);
      if last.Loop? {
        GoodLoop(f, last.body, e, bounds);
      } else {
        GoodStraight(f, last, e, bounds);
      }
      GoodSplit(f, p, e, q);
    }
  }

  // ---------- registers are defined once ----------

  /** Registers defined between `p` and `q` are numbered from one to the other, each once. */
  ghost predicate Single(f: Func, p: Point, q: Point) {
    && (forall r: Reg, b: BlockId, i: nat :: Between(p, q, b, i) && DefinedAt(f, r, b, i) ==>
          p.nextReg <= r < q.nextReg)
    && (forall r: Reg, b: BlockId, i: nat, c: BlockId, j: nat ::
          Between(p, q, b, i) && Between(p, q, c, j) && DefinedAt(f, r, b, i) && DefinedAt(f, r, c, j)
          ==> b == c && i == j)
  }

  lemma SingleSplit(f: Func, p: Point, e: Point, q: Point)
    requires Single(f, p, e) && Single(f, e, q)
    requires p.nextBlk <= e.nextBlk <= q.nextBlk && p.nextReg <= e.nextReg <= q.nextReg
    requires (e.blk == p.blk && p.idx <= e.idx) || New(p, e, e.blk)
    requires (q.blk == e.blk && e.idx <= q.idx) || New(e, q, q.blk)
    requires p.blk < p.nextBlk
    ensures Single(f, p, q)
  {
    forall b: BlockId, i: nat | Between(p, q, b, i)
      ensures Between(p, e, b, i) || Between(e, q, b, i)
    {
    }
  }

  lemma {:induction false} SingleSeq(f: Func, cs: seq<Cmd>, p: Point, bounds: bool)
    requires Compiled(f, cs, p, bounds) && Ok(p, bounds)
    ensures Single(f, p, End(cs, p, bounds))
    decreases cs, 1
  {
    if cs != [] {
      var init, last := cs[..|cs| - 1], cs[|cs| - 1];
      var e := End(init, p, bounds);
      EndOk(init, p, bounds);
      AfterOk(last, e, bounds);
      SingleSeq(f, init, p, bounds);
      if last.Loop? {
        SingleLoop(f, last.body, e, bounds);
      } else {
        SingleStraight(f, last, e, bounds);
      }
      SingleSplit(f, p, e, After(last, e, bounds));
    }
  }

  lemma SingleStraight(f: Func, c: Cmd, p: Point, bounds: bool)
    requires !c.Loop? && CompiledCmd(f, c, p, bounds) && Ok(p, bounds)
    ensures Single(f, p, After(c, p, bounds))
  {
    var q, code := After(c, p, bounds), Code(c, p, bounds);
    forall r: Reg, b: BlockId, i: nat | Between(p, q, b, i) && DefinedAt(f, r, b, i)
      ensures p.nextReg <= r < q.nextReg && b == p.blk && i == p.idx + (r - p.nextReg)
    {
      StraightDef(f, c, p, bounds, i - p.idx);
    }
  }

  lemma {:induction false} SingleLoop(f: Func, body: seq<Cmd>, p: Point, bounds: bool)
    requires CompiledCmd(f, Loop(body), p, bounds) && Ok(p, bounds)
    ensures Single(f, p, After(Loop(body), p, bounds))
    decreases body, 2
  {
    var s, t := BodyStart(p), p.nextBlk;
    var e := End(body, s, bounds);
    var q := AfterLoop(e);
    EndOk(body, s, bounds);
    SingleSeq(f, body, s, bounds);
    assert f[e.nextBlk].body[0] == f[e.nextBlk].body[0..1][0] == ExitPhi(p, e);
    forall r: Reg, b: BlockId, i: nat | Between(p, q, b, i) && DefinedAt(f, r, b, i)
      ensures || Between(s, e, b, i)
              || (b == t && r == (if i == 0 then p.nextReg else e.nextReg + i - 1) && i < 3)
              || (b == e.nextBlk && i == 0 && r == e.nextReg + 2)
    {
    }
  }

  // ---------- the whole program ----------

  lemma ProgramSealed(f: Func, cs: seq<Cmd>, memtotal: nat, bounds: bool)
    requires IsProgram(f, cs, memtotal, bounds)
    ensures Sealed(f, Start(bounds), End(cs, Start(bounds), bounds))
  {
    EndOk(cs, Start(bounds), bounds);
    EdgesInside(f, cs, Start(bounds), bounds);
  }

  /** The header defines its registers in the entry block, which every walk starts in. */
  lemma HeaderReady(f: Func, memtotal: nat, bounds: bool)
    requires HasHeader(f, memtotal, bounds) && Ok(Start(bounds), bounds)
    ensures Ready(f, Start(bounds), bounds)
  {
    HeaderAt(f, memtotal, bounds);
    assert DefinedAt(f, ARR, ENTRY, 0) && DefinedAt(f, 1, ENTRY, 2);
    if bounds {
      assert DefinedAt(f, 2, ENTRY, 3);
    }
  }

  lemma HeaderGood(f: Func, memtotal: nat, bounds: bool)
    requires HasHeader(f, memtotal, bounds)
    ensures forall i :: 0 <= i < Start(bounds).idx ==> i < |f[ENTRY].body| && InstrGood(f, ENTRY, i)
  {
    HeaderAt(f, memtotal, bounds);
    assert DefinedAt(f, ARR, ENTRY, 0);
    assert Available(f, ARR, ENTRY, 1) && Available(f, ARR, ENTRY, 2) && Available(f, ARR, ENTRY, 3);
  }

  lemma EntryDominates(f: Func, b: BlockId)
    ensures Dominates(f, ENTRY, b)
  {
  }

  /** The end block and the error block. */
  lemma LastBlocksGood(f: Func, memtotal: nat, bounds: bool)
    requires HasHeader(f, memtotal, bounds)
    ensures TermGood(f, ENDBB) && (bounds ==> TermGood(f, ABERROR))
    ensures InstrGood(f, ENDBB, 0) && (bounds ==> InstrGood(f, ABERROR, 0))
  {
    HeaderAt(f, memtotal, bounds);
    assert DefinedAt(f, ARR, ENTRY, 0);
    EntryDominates(f, ENDBB);
    assert Available(f, ARR, ENDBB, 0);
  }

  lemma HeaderSingle(f: Func, memtotal: nat, bounds: bool)
    requires HasHeader(f, memtotal, bounds)
    ensures forall r: Reg, i: nat ::
      i < Start(bounds).idx && DefinedAt(f, r, ENTRY, i) ==> i != 1 && r == if i == 0 then 0 else i - 1
  {
    HeaderAt(f, memtotal, bounds);
  }

  lemma HeaderAt(f: Func, memtotal: nat, bounds: bool)
    requires HasHeader(f, memtotal, bounds)
    ensures |f[ENTRY].body| >= Start(bounds).idx
    ensures f[ENTRY].body[0] == Malloc(ARR) && f[ENTRY].body[1] == Memset(ARR)
    ensures bounds ==> f[ENTRY].body[2] == Gep(ARRMAX, ARR, memtotal) && f[ENTRY].body[3] == Gep(2, ARR, memtotal / 2)
    ensures !bounds ==> f[ENTRY].body[2] == Gep(1, ARR, memtotal / 2)
  {
    var code, body := HeaderCode(memtotal, bounds), f[ENTRY].body;
    forall k | 0 <= k < |code|
      ensures body[k] == code[k]
    {
      assert body[k] == body[0..|code|][k];
    }
  }

  /** Every place of the function is the header's, the end's, the error's, or compiled code. */
  lemma Places(f: Func, cs: seq<Cmd>, memtotal: nat, bounds: bool, b: BlockId, i: nat)
    requires IsProgram(f, cs, memtotal, bounds) && b < |f| && i < |f[b].body|
    ensures var p := Start(bounds);
      || Between(p, End(cs, p, bounds), b, i) || (b == ENTRY && i < p.idx)
      || (b == ENDBB && i == 0) || (bounds && b == ABERROR && i == 0)
  {
  }

  lemma DefinedOnce(f: Func, cs: seq<Cmd>, memtotal: nat, bounds: bool, r: Reg, b: BlockId, i: nat, c: BlockId, j: nat)
    requires IsProgram(f, cs, memtotal, bounds)
    requires DefinedAt(f, r, b, i) && DefinedAt(f, r, c, j)
    ensures b == c && i == j
  {
    HeaderSingle(f, memtotal, bounds);
    SingleSeq(f, cs, Start(bounds), bounds);
    Places(f, cs, memtotal, bounds, b, i);
    Places(f, cs, memtotal, bounds, c, j);
  }

  /**
   The function that the compiler returns is well formed, for every program, size and flag.
   */
  lemma ProgramWellFormed(f: Func, cs: seq<Cmd>, memtotal: nat, bounds: bool)
    requires IsProgram(f, cs, memtotal, bounds)
    ensures WellFormed(f)
  {
    var p, q := Start(bounds), End(cs, Start(bounds), bounds);
    EndOk(cs, p, bounds);
    ProgramSealed(f, cs, memtotal, bounds);
    HeaderReady(f, memtotal, bounds);
    HeaderGood(f, memtotal, bounds);
    LastBlocksGood(f, memtotal, bounds);
    GoodSeq(f, cs, p, bounds);
    forall b | 0 <= b < |f|
      ensures TermGood(f, b)
    {
      assert b == q.blk || b == p.blk || New(p, q, b) || b == ENDBB || (bounds && b == ABERROR);
    }
    forall b, i | 0 <= b < |f| && 0 <= i < |f[b].body|
      ensures InstrGood(f, b, i)
    {
      Places(f, cs, memtotal, bounds, b, i);
    }
    forall r: Reg, b: BlockId, i: nat, c: BlockId, j: nat | DefinedAt(f, r, b, i) && DefinedAt(f, r, c, j)
      ensures b == c && i == j
    {
      DefinedOnce(f, cs, memtotal, bounds, r, b, i, c, j);
    }
  }
}
