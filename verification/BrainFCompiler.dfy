/**
 The one-pass compiler: it reads characters, joins runs with one symbol of look-ahead, and
 appends instructions to blocks in place, leaving the phi of a loop open until the loop's end.
 */
module BrainFCompiler {
  import opened Common
  import opened BrainFSource
  import opened BrainFFacts
  import opened BrainFIR
  import opened BrainFCode

  datatype Symbol = SymNone | SymRead | SymWrite | SymMove | SymChange | SymLoop | SymEndLoop | SymEof

  /** The two complaints about brackets on which the compiler aborts. */
  datatype Status = Accepted | ExtraClose | MissingClose

  // ---------- how a function under construction may change ----------

  /** Blocks are only added; `at` is only added to; `open` may change freely; the rest stays. */
  ghost predicate Grows(f: Func, g: Func, at: BlockId, open: int) {
    |f| <= |g| &&
    forall b :: 0 <= b < |f| && b != open ==>
      if b == at && f[b].term == None then f[b].body <= g[b].body else g[b] == f[b]
  }

  lemma GrowsTransitive(f: Func, g: Func, h: Func, at: BlockId, at2: BlockId, open: int, open2: int)
    requires Grows(f, g, at, open) && Grows(g, h, at2, open2)
    requires (at2 == at || at2 >= |f|) && (open2 == open || open2 < 0 || open2 >= |f|)
    ensures Grows(f, h, at, open)
  {
  }

  lemma GrowsWider(f: Func, g: Func, at: BlockId, open: int)
    requires Grows(f, g, at, -1)
    ensures Grows(f, g, at, open)
  {
  }

  /** A test block as it stands while the loop's body is read: a phi with one entry. */
  ghost predicate OpenTest(f: Func, phi: Reg, testbb: BlockId) {
    testbb < |f| && exists first :: f[testbb] == Block([Phi(phi, [first])], None)
  }

  lemma AtStays(f: Func, g: Func, at: BlockId, open: int, blk: BlockId, idx: nat, code: seq<Instr>)
    requires Grows(f, g, at, open) && At(f, blk, idx, code) && blk != open
    ensures At(g, blk, idx, code)
  {
    assert g[blk].body[idx..idx + |code|] == f[blk].body[idx..idx + |code|];
  }

  /** Compiled code stays compiled while the function grows elsewhere. */
  lemma {:induction false} CompiledStays(f: Func, g: Func, at: BlockId, open: int, cs: seq<Cmd>, p: Point, bounds: bool)
    requires Grows(f, g, at, open) && Ok(p, bounds) && open < p.nextBlk && open != p.blk
    requires Compiled(f, cs, p, bounds)
    ensures Compiled(g, cs, p, bounds)
    decreases cs, 1
  {
    if cs != [] {
      CompiledStays(f, g, at, open, cs[..|cs| - 1], p, bounds);
      EndOk(cs[..|cs| - 1], p, bounds);
      CompiledCmdStays(f, g, at, open, cs[|cs| - 1], End(cs[..|cs| - 1], p, bounds), bounds);
    }
  }

  lemma {:induction false} CompiledCmdStays(f: Func, g: Func, at: BlockId, open: int, c: Cmd, p: Point, bounds: bool)
    requires Grows(f, g, at, open) && Ok(p, bounds) && open < p.nextBlk && open != p.blk
    requires CompiledCmd(f, c, p, bounds)
    ensures CompiledCmd(g, c, p, bounds)
    decreases c, 0
  {
    if c.Loop? {
      var s := BodyStart(p);
      var e := End(c.body, s, bounds);
      EndOk(c.body, s, bounds);
      CompiledStays(f, g, at, open, c.body, s, bounds);
      AtStays(f, g, at, open, e.nextBlk, 0, [ExitPhi(p, e)]);
    } else {
      AtStays(f, g, at, open, p.blk, p.idx, Code(c, p, bounds));
    }
  }

  // ---------- the reader's view of the text ----------

  /** The command a symbol stands for; a loop is not complete when its symbol is read. */
  function Pending(sym: Symbol, value: int): seq<Cmd> {
    match sym
    case SymRead => [Read]
    case SymWrite => [Write]
    case SymMove => [Move(value)]
    case SymChange => [Change(value)]
    case _ => []
  }

  function Bracket(sym: Symbol): string {
    if sym == SymLoop then "[" else if sym == SymEndLoop then "]" else ""
  }

  predicate IsRun(sym: Symbol) {
    sym == SymMove || sym == SymChange
  }

  /** `raw` is what has been read into `done`, already written out, and `sym`, not yet. */
  ghost predicate Lexed(raw: seq<Cmd>, done: seq<Cmd>, sym: Symbol, value: int) {
    && Unit(raw)
    && Coalesce(raw) == done + Pending(sym, value)
  }

  /** A symbol read ahead, as text and as a unit command. */
  function AheadText(sym: Symbol, value: int): string {
    Print(Pending(sym, value)) + Bracket(sym)
  }

  /** `done` does not end in a run of the kind of `sym`. */
  predicate Separate(done: seq<Cmd>, sym: Symbol) {
    done != [] ==>
      && (sym == SymMove ==> !done[|done| - 1].Move?)
      && (sym == SymChange ==> !done[|done| - 1].Change?)
  }

  predicate UnitValue(sym: Symbol, value: int) {
    IsRun(sym) ==> value == 1 || value == -1
  }

  /** The one command of a symbol that stands for one. */
  lemma PendingOne(sym: Symbol, value: int) returns (c: Cmd)
    requires Pending(sym, value) != []
    ensures Pending(sym, value) == [c] && Print(Pending(sym, value)) == PrintCmd(c) && CoalesceCmd(c) == c
    ensures UnitValue(sym, value) ==> UnitCmd(c)
    ensures match sym {
      case SymMove => c == Move(value)
      case SymChange => c == Change(value)
      case _ => c == Read || c == Write
    }
  {
    c := Pending(sym, value)[0];
    assert [c][1..] == [];
  }

  /** A symbol behind finished commands extends what has been read by one command. */
  lemma LexNew(raw: seq<Cmd>, done: seq<Cmd>, sym: Symbol, value: int)
    requires Unit(raw) && Coalesce(raw) == done && Separate(done, sym) && UnitValue(sym, value)
    ensures Lexed(raw + Pending(sym, value), done, sym, value)
    ensures Print(raw + Pending(sym, value)) == Print(raw) + Print(Pending(sym, value))
  {
    if Pending(sym, value) == [] {
      assert raw + [] == raw && done + [] == done && Print(raw) + "" == Print(raw);
    } else {
      var c := PendingOne(sym, value);
      PrintSnoc(raw, c);
      UnitSnoc(raw, c);
      assert (raw + [c])[..|raw|] == raw;
      assert Merge(done, c) == done + [c];
    }
  }

  /** A further character of the same kind extends the run. */
  lemma LexMore(raw: seq<Cmd>, done: seq<Cmd>, sym: Symbol, value: int, direction: int)
    requires Lexed(raw, done, sym, value) && IsRun(sym) && (direction == 1 || direction == -1)
    ensures Lexed(raw + Pending(sym, direction), done, sym, value + direction)
    ensures Print(raw + Pending(sym, direction)) == Print(raw) + Print(Pending(sym, direction))
  {
    var c := PendingOne(sym, direction);
    var d := PendingOne(sym, value);
    var e := PendingOne(sym, value + direction);
    PrintSnoc(raw, c);
    UnitSnoc(raw, c);
    assert (raw + [c])[..|raw|] == raw;
    assert Merge(done + [d], c) == done + [e] by { assert (done + [d])[..|done|] == done; }
  }

  // ---------- what a finished function looks like ----------

  function HeaderCode(memtotal: nat, bounds: bool): seq<Instr> {
    [Malloc(ARR), Memset(ARR)] +
    if bounds then [Gep(ARRMAX, ARR, memtotal), Gep(2, ARR, memtotal / 2)] else [Gep(1, ARR, memtotal / 2)]
  }

  function Start(bounds: bool): Point {
    if bounds then Point(ENTRY, 4, 2, 3, 3) else Point(ENTRY, 3, 1, 2, 2)
  }

  /** The header's blocks: set-up in the entry block, the end block, the error block. */
  ghost predicate HasHeader(f: Func, memtotal: nat, bounds: bool) {
    && Start(bounds).nextBlk <= |f|
    && At(f, ENTRY, 0, HeaderCode(memtotal, bounds))
    && f[ENDBB] == Block([Free(ARR)], Some(Ret))
    && (bounds ==> f[ABERROR] == Block([Puts], Some(Br(ENDBB))))
  }

  /** `f` is the whole function for commands `cs`, with no block to spare. */
  ghost predicate IsProgram(f: Func, cs: seq<Cmd>, memtotal: nat, bounds: bool) {
    var e := End(cs, Start(bounds), bounds);
    && HasHeader(f, memtotal, bounds)
    && Compiled(f, cs, Start(bounds), bounds)
    && Closed(f, e.blk, e.idx, Br(ENDBB))
    && |f| == e.nextBlk
  }

  datatype Ending = AtBracket | AtEnd

  function EndingOf(phi: Option<Reg>): Ending { if phi.Some? then AtBracket else AtEnd }

  class BrainF {
    const text: string
    const memtotal: nat
    const bounds: bool
    var pos: nat
    var blocks: Func
    var insert: BlockId
    var curhead: Reg
    var nextReg: Reg

    /** The block being written exists and has no terminator yet. */
    ghost predicate Open()
      reads `blocks, `insert
    {
      insert < |blocks| && blocks[insert].term == None
    }

    ghost function Here(): Point
      requires insert < |blocks|
      reads `blocks, `insert, `curhead, `nextReg
    {
      Point(insert, |blocks[insert].body|, curhead, nextReg, |blocks|)
    }

    /** The function header: tape, limits and head in the entry block; the end and error blocks. */
    constructor (text: string, memtotal: nat, bounds: bool)
      ensures this.text == text && this.memtotal == memtotal && this.bounds == bounds && pos == 0
      ensures Open() && Here() == Start(bounds) && HasHeader(blocks, memtotal, bounds)
    {
      this.text, this.memtotal, this.bounds, pos := text, memtotal, bounds, 0;
      blocks := [Block([Malloc(ARR), Memset(ARR)], None)];
      insert, curhead, nextReg := ENTRY, 0, 1;
      new;
      if bounds {
        var arrmax := NewReg();
        Emit(Gep(arrmax, ARR, memtotal));
      }
      curhead := NewReg();
      Emit(Gep(curhead, ARR, memtotal / 2));
      blocks := blocks + [Block([Free(ARR)], Some(Ret))];
      if bounds {
        blocks := blocks + [Block([Puts], Some(Br(ENDBB)))];
      }
      assert blocks[ENTRY].body == HeaderCode(memtotal, bounds);
    }

    // ---------- the builder ----------

    method NewReg() returns (r: Reg)
      modifies this`nextReg
      ensures r == old(nextReg) && nextReg == r + 1
    {
      r := nextReg;
      nextReg := nextReg + 1;
    }

    method CreateBlock() returns (b: BlockId)
      modifies this`blocks
      ensures b == |old(blocks)| && blocks == old(blocks) + [Block([], None)]
    {
      b := |blocks|;
      blocks := blocks + [Block([], None)];
    }

    method Emit(i: Instr)
      requires Open()
      modifies this`blocks
      ensures blocks == old(blocks)[insert := Block(old(blocks[insert].body) + [i], None)]
    {
      blocks := blocks[insert := Block(blocks[insert].body + [i], None)];
    }

    /** Ends the block being written; a block is never ended twice. */
    method Terminate(t: Term)
      requires Open()
      modifies this`blocks
      ensures blocks == old(blocks)[insert := Block(old(blocks[insert].body), Some(t))]
    {
      blocks := blocks[insert := Block(blocks[insert].body, Some(t))];
    }

    // ---------- writing out ----------

    method WriteRead()
      requires Open() && Ok(Here(), bounds)
      modifies this`blocks, this`nextReg
      ensures Open() && Here() == After(Read, old(Here()), bounds)
      ensures CompiledCmd(blocks, Read, old(Here()), bounds) && Grows(old(blocks), blocks, old(insert), -1)
    {
      var tape0 := NewReg();
      Emit(GetChar(tape0));
      var tape1 := NewReg();
      Emit(Trunc(tape1, tape0));
      Emit(Store(tape1, curhead));
    }

    method WriteWrite()
      requires Open() && Ok(Here(), bounds)
      modifies this`blocks, this`nextReg
      ensures Open() && Here() == After(Write, old(Here()), bounds)
      ensures CompiledCmd(blocks, Write, old(Here()), bounds) && Grows(old(blocks), blocks, old(insert), -1)
    {
      var tape0 := NewReg();
      Emit(Load(tape0, curhead));
      var tape1 := NewReg();
      Emit(SExt(tape1, tape0));
      Emit(PutChar(tape1));
    }

    method WriteChange(value: int)
      requires Open() && Ok(Here(), bounds)
      modifies this`blocks, this`nextReg
      ensures Open() && Here() == After(Change(value), old(Here()), bounds)
      ensures CompiledCmd(blocks, Change(value), old(Here()), bounds) && Grows(old(blocks), blocks, old(insert), -1)
    {
      var tape0 := NewReg();
      Emit(Load(tape0, curhead));
      var tape1 := NewReg();
      Emit(AddI8(tape1, tape0, value));
      Emit(Store(tape1, curhead));
    }

    method WriteMove(value: int)
      requires Open() && Ok(Here(), bounds)
      modifies this`blocks, this`nextReg, this`curhead, this`insert
      ensures Open() && Here() == After(Move(value), old(Here()), bounds)
      ensures CompiledCmd(blocks, Move(value), old(Here()), bounds) && Grows(old(blocks), blocks, old(insert), -1)
    {
      ghost var p := Here();
      var head := NewReg();
      Emit(Gep(head, curhead, value));
      curhead := head;
      if bounds {
        WriteCheck();
        assert blocks[p.blk].body[p.idx..] == Code(Move(value), p, bounds);
      }
    }

    /** Compares the head with both ends of the tape and leaves for the error block if it is off. */
    method WriteCheck()
      requires Open()
      modifies this`blocks, this`nextReg, this`insert
      ensures var p := old(Here()); var r := p.nextReg;
        && Open() && Here() == Point(p.nextBlk, 0, p.head, r + 3, p.nextBlk + 1)
        && blocks == (old(blocks) + [Block([], None)])[p.blk := Block(old(blocks[insert].body) +
             [IcmpUge(r, p.head, ARRMAX), IcmpUlt(r + 1, p.head, ARR), Or(r + 2, r, r + 1)],
             Some(CondBr(r + 2, ABERROR, p.nextBlk)))]
    {
      ghost var body, r := blocks[insert].body, nextReg;
      var test0 := NewReg();
      Emit(IcmpUge(test0, curhead, ARRMAX));
      var test1 := NewReg();
      Emit(IcmpUlt(test1, curhead, ARR));
      var test2 := NewReg();
      Emit(Or(test2, test0, test1));
      assert blocks[insert].body
          == body + [IcmpUge(r, curhead, ARRMAX), IcmpUlt(r + 1, curhead, ARR), Or(r + 2, r, r + 1)];
      var nextbb := CreateBlock();
      Terminate(CondBr(test2, ABERROR, nextbb));
      insert := nextbb;
    }

    /** Branches to a new test block, opens its phi, and goes on in a new block for the body. */
    method OpenLoop() returns (phi: Reg, bodybb: BlockId, testbb: BlockId)
      requires Open() && Ok(Here(), bounds)
      modifies this`blocks, this`nextReg, this`curhead, this`insert
      ensures var p := old(Here());
        && Open() && Here() == BodyStart(p)
        && phi == p.nextReg && bodybb == p.nextBlk + 1 && testbb == p.nextBlk
        && Closed(blocks, p.blk, p.idx, Br(testbb))
        && blocks[testbb] == Block([Phi(phi, [(p.head, p.blk)])], None)
      ensures Grows(old(blocks), blocks, old(insert), -1)
    {
      testbb := CreateBlock();
      Terminate(Br(testbb));
      var bb0 := insert;
      bodybb := CreateBlock();
      insert := bodybb;
      phi := NewReg();
      blocks := blocks[testbb := Block([Phi(phi, [(curhead, bb0)])], None)];
      curhead := phi;
    }

    /** Branches back to the test block, completes its phi, and writes the loop's test. */
    method CloseLoop(phi: Reg, oldbb: BlockId, testbb: BlockId, ghost first: (Reg, BlockId))
      requires Open() && Ok(Here(), bounds)
      requires testbb < |blocks| && testbb != insert && blocks[testbb] == Block([Phi(phi, [first])], None)
      modifies this`blocks, this`nextReg, this`curhead, this`insert
      ensures var e := old(Here());
        && Open() && Here() == AfterLoop(e)
        && Closed(blocks, e.blk, e.idx, Br(testbb))
        && |old(blocks)| < |blocks| && e.nextBlk == |old(blocks)|
        && blocks[testbb] == Block([Phi(phi, [first, (e.head, e.blk)]), Load(e.nextReg, phi),
             IcmpZero(e.nextReg + 1, e.nextReg)], Some(CondBr(e.nextReg + 1, e.nextBlk, oldbb)))
        && At(blocks, e.nextBlk, 0, [Phi(e.nextReg + 2, [(phi, testbb)])])
      ensures Grows(old(blocks), blocks, old(insert), testbb)
    {
      Terminate(Br(testbb));
      var open := blocks[testbb].body[0];
      var tape0 := NewReg();
      var test0 := NewReg();
      var bb0 := CreateBlock();
      assert [first] + [(curhead, insert)] == [first, (curhead, insert)];
      blocks := blocks[testbb := Block([open.(incoming := open.incoming + [(curhead, insert)]),
                                        Load(tape0, phi), IcmpZero(test0, tape0)],
                                       Some(CondBr(test0, bb0, oldbb)))];
      insert := bb0;
      var phi1 := NewReg();
      Emit(Phi(phi1, [(phi, testbb)]));
      curhead := phi1;
    }

    // ---------- reading ----------

    /** What the reader knows between two characters: `loop` says that it wants another one. */
    ghost predicate Fetching(start: nat, pos0: nat, cursym0: Symbol, loop: bool, raw: seq<Cmd>, done: seq<Cmd>,
                             cursym: Symbol, curvalue: int, nextsym: Symbol, nextvalue: int)
      reads `pos
    {
      && start <= pos0 <= pos <= |text|
      && Reading(Filter(text[start..pos]), raw, done, cursym, curvalue, nextsym, nextvalue)
      && (if loop then nextsym == SymNone && (cursym == SymNone || IsRun(cursym))
          else cursym != SymNone && (nextsym == SymNone <==> !IsRun(cursym)))
      && (cursym == SymEof || nextsym == SymEof ==> pos == |text|)
      && pos >= pos0 + Consumed(cursym0, cursym, nextsym)
      && (cursym0 != SymNone ==> cursym == cursym0)
    }

    /** One character, or the end of the text. */
    method ReadChar(cursym1: Symbol, curvalue1: int, ghost start: nat, ghost pos0: nat, ghost cursym0: Symbol,
                    ghost raw1: seq<Cmd>, ghost done: seq<Cmd>)
      returns (cursym: Symbol, curvalue: int, nextsym: Symbol, nextvalue: int, loop: bool, ghost raw: seq<Cmd>)
      requires Fetching(start, pos0, cursym0, true, raw1, done, cursym1, curvalue1, SymNone, 0)
      modifies this`pos
      ensures Fetching(start, pos0, cursym0, loop, raw, done, cursym, curvalue, nextsym, nextvalue)
      ensures loop ==> pos > old(pos) && nextvalue == 0
    {
      if pos == |text| {
        cursym, curvalue, nextsym, nextvalue, raw := cursym1, curvalue1, SymNone, 0, raw1;
        ReadingEof(Filter(text[start..pos]), raw, done, cursym, curvalue);
        if cursym == SymNone { cursym := SymEof; } else { nextsym := SymEof; }
        loop := false;
      } else {
        cursym, curvalue, nextsym, nextvalue, loop, raw :=
          NextChar(cursym1, curvalue1, start, pos0, cursym0, raw1, done);
      }
    }

    method NextChar(cursym1: Symbol, curvalue1: int, ghost start: nat, ghost pos0: nat, ghost cursym0: Symbol,
                    ghost raw1: seq<Cmd>, ghost done: seq<Cmd>)
      returns (cursym: Symbol, curvalue: int, nextsym: Symbol, nextvalue: int, loop: bool, ghost raw: seq<Cmd>)
      requires Fetching(start, pos0, cursym0, true, raw1, done, cursym1, curvalue1, SymNone, 0) && pos < |text|
      modifies this`pos
      ensures Fetching(start, pos0, cursym0, loop, raw, done, cursym, curvalue, nextsym, nextvalue)
      ensures loop ==> pos > old(pos) && nextvalue == 0
    {
      cursym, curvalue, nextsym, nextvalue, raw := cursym1, curvalue1, SymNone, 0, raw1;
      loop := true;
      ghost var t := Filter(text[start..pos]);
      var c := text[pos];
      FilterNext(start, pos);
      pos := pos + 1;
      if IsCommand(c) {
        cursym, curvalue, nextsym, nextvalue, raw := Take(c, cursym, curvalue, t, raw, done);
        loop := nextsym == SymNone && IsRun(cursym);
      }
    }

    /**
     Reads up to the end of the current symbol, and one symbol past the end of a run. `cursym0`
     is what was read ahead before; `raw0` and `done` are the commands behind it.
     */
    method Fetch(cursym0: Symbol, curvalue0: int, ghost start: nat, ghost raw0: seq<Cmd>, ghost done: seq<Cmd>)
      returns (cursym: Symbol, curvalue: int, nextsym: Symbol, nextvalue: int, ghost raw: seq<Cmd>)
      requires start <= pos <= |text|
      requires Reading(Filter(text[start..pos]), raw0, done, cursym0, curvalue0, SymNone, 0)
      requires cursym0 == SymEof ==> pos == |text|
      modifies this`pos
      ensures Fetching(start, old(pos), cursym0, false, raw, done, cursym, curvalue, nextsym, nextvalue)
    {
      cursym, curvalue, nextsym, nextvalue, raw := cursym0, curvalue0, SymNone, 0, raw0;
      var loop := cursym == SymNone || IsRun(cursym);
      while loop
        invariant Fetching(start, old(pos), cursym0, loop, raw, done, cursym, curvalue, nextsym, nextvalue)
        invariant loop ==> nextvalue == 0
        decreases loop, |text| - pos
      {
        cursym, curvalue, nextsym, nextvalue, loop, raw :=
          ReadChar(cursym, curvalue, start, old(pos), cursym0, raw, done);
      }
    }

    /** Commands `done` have been compiled from `p0` on, in a function that was `before` then. */
    ghost predicate Written(before: Func, p0: Point, done: seq<Cmd>)
      reads `blocks, `insert, `curhead, `nextReg
    {
      match p0
      case Point(blk, _, _, _, _) =>
        && Open() && Ok(p0, bounds)
        && Here() == End(done, p0, bounds)
        && Compiled(blocks, done, p0, bounds)
        && Grows(before, blocks, blk, -1)
    }

    /** Writing one more command, from where `done` ends. */
    lemma WrittenMore(before: Func, p0: Point, done: seq<Cmd>, mid: Func, c: Cmd)
      requires Open() && Ok(p0, bounds) && |before| == p0.nextBlk
      requires Compiled(mid, done, p0, bounds) && Grows(before, mid, p0.blk, -1)
      requires var p := End(done, p0, bounds);
        && |mid| == p.nextBlk
        && CompiledCmd(blocks, c, p, bounds) && Here() == After(c, p, bounds)
        && Grows(mid, blocks, p.blk, -1)
      ensures Written(before, p0, done + [c])
    {
      var p := End(done, p0, bounds);
      EndOk(done, p0, bounds);
      CompiledStays(mid, blocks, p.blk, -1, done, p0, bounds);
      GrowsTransitive(before, mid, blocks, p0.blk, p.blk, -1, -1);
      assert (done + [c])[..|done + [c]| - 1] == done;
    }

    /** A read, write, move or change symbol. */
    method WriteOut(sym: Symbol, value: int, ghost before: Func, ghost p0: Point, ghost done: seq<Cmd>)
      requires Written(before, p0, done) && |before| == p0.nextBlk && Pending(sym, value) != []
      modifies this`blocks, this`nextReg, this`curhead, this`insert
      ensures Written(before, p0, done + Pending(sym, value))
    {
      EndOk(done, p0, bounds);
      ghost var mid, c := blocks, Pending(sym, value)[0];
      match sym {
        case SymRead => WriteRead();
        case SymWrite => WriteWrite();
        case SymMove => WriteMove(value);
        case SymChange => WriteChange(value);
      }
      WrittenMore(before, p0, done, mid, c);
      assert Pending(sym, value) == [c];
    }

    lemma LoopGrown(mid: Func, begun: Func, p: Point, body: seq<Cmd>, testbb: BlockId)
      requires |mid| == p.nextBlk && testbb == p.nextBlk && Grows(mid, begun, p.blk, -1)
      requires Ok(p, bounds) && Finished(begun, BodyStart(p), body, Some(p.nextReg), p.nextBlk + 1, testbb)
      ensures Grows(mid, blocks, p.blk, -1)
    {
      GrowsTransitive(mid, begun, blocks, p.blk, p.nextBlk + 1, -1, testbb);
    }

    lemma LoopCompiled(begun: Func, p: Point, body: seq<Cmd>, testbb: BlockId)
      requires Ok(p, bounds) && testbb == p.nextBlk && Closed(begun, p.blk, p.idx, Br(testbb))
      requires |begun| == p.nextBlk + 2 && begun[testbb] == Block([Phi(p.nextReg, [(p.head, p.blk)])], None)
      requires Finished(begun, BodyStart(p), body, Some(p.nextReg), p.nextBlk + 1, testbb)
      ensures CompiledCmd(blocks, Loop(body), p, bounds) && Here() == After(Loop(body), p, bounds)
    {
    }

    /** A loop, from its '[' through its ']'. */
    method WriteLoop(ghost before: Func, ghost p0: Point, ghost done: seq<Cmd>)
      returns (r: Status, ghost body: seq<Cmd>)
      requires Written(before, p0, done) && |before| == p0.nextBlk && pos <= |text|
      modifies this`pos, this`blocks, this`nextReg, this`curhead, this`insert
      ensures old(pos) <= pos <= |text| && r != ExtraClose
      ensures r == Accepted ==>
        ReadOut(old(pos), body, AtBracket) && Written(before, p0, done + [CoalesceCmd(Loop(body))])
      ensures r == MissingClose ==> pos == |text| && Depth(text[old(pos)..]) >= 0
      decreases |text| - pos, 3
    {
      ghost var mid := blocks;
      var phi, bodybb, testbb := BeginLoop(before, p0, done);
      ghost var begun := blocks;
      r, body := Readloop(Some(phi), bodybb, testbb);
      if r == Accepted {
        LoopWritten(before, p0, done, mid, begun, body, testbb);
      }
    }

    /** A loop is begun behind `done`, in a function that was `mid` until then. */
    ghost predicate LoopBegun(before: Func, p0: Point, done: seq<Cmd>, mid: Func, begun: Func, testbb: BlockId) {
      match p0
      case Point(blk, _, _, _, nextBlk) =>
        var p := End(done, p0, bounds);
        && Ok(p0, bounds) && |before| == nextBlk && Compiled(mid, done, p0, bounds) && Grows(before, mid, blk, -1)
        && Ok(p, bounds) && |mid| == p.nextBlk && testbb == p.nextBlk
        && Grows(mid, begun, p.blk, -1) && Closed(begun, p.blk, p.idx, Br(testbb))
        && |begun| == p.nextBlk + 2 && begun[testbb] == Block([Phi(p.nextReg, [(p.head, p.blk)])], None)
    }

    method BeginLoop(ghost before: Func, ghost p0: Point, ghost done: seq<Cmd>)
      returns (phi: Reg, bodybb: BlockId, testbb: BlockId)
      requires Written(before, p0, done) && |before| == p0.nextBlk
      modifies this`blocks, this`nextReg, this`curhead, this`insert
      ensures LoopBegun(before, p0, done, old(blocks), blocks, testbb)
      ensures var p := End(done, p0, bounds);
        Open() && Here() == BodyStart(p) && Ok(Here(), bounds) && phi == p.nextReg && bodybb == p.nextBlk + 1
      ensures OpenTest(blocks, phi, testbb) && testbb != insert
    {
      EndOk(done, p0, bounds);
      phi, bodybb, testbb := OpenLoop();
    }

    lemma LoopWritten(before: Func, p0: Point, done: seq<Cmd>, mid: Func, begun: Func, raw: seq<Cmd>, testbb: BlockId)
      requires LoopBegun(before, p0, done, mid, begun, testbb)
      requires var p := End(done, p0, bounds);
        Open() && Finished(begun, BodyStart(p), Coalesce(raw), Some(p.nextReg), p.nextBlk + 1, testbb)
      ensures Written(before, p0, done + [CoalesceCmd(Loop(raw))])
    {
      var p, body := End(done, p0, bounds), Coalesce(raw);
      LoopGrown(mid, begun, p, body, testbb);
      LoopCompiled(begun, p, body, testbb);
      WrittenMore(before, p0, done, mid, Loop(body));
    }

    /** The current symbol is a '['. */
    method DispatchLoop(curvalue: int, nextvalue: int, ghost start: nat,
                        ghost before: Func, ghost p0: Point, ghost raw0: seq<Cmd>, ghost done0: seq<Cmd>)
      returns (r: Status, ghost raw: seq<Cmd>, ghost done: seq<Cmd>)
      requires Between(start, raw0, done0, SymLoop, curvalue, SymNone, nextvalue)
      requires Written(before, p0, done0) && |before| == p0.nextBlk
      modifies this`pos, this`blocks, this`nextReg, this`curhead, this`insert
      ensures old(pos) <= pos <= |text| && r != ExtraClose
      ensures r == Accepted ==>
        && Reading(Filter(text[start..pos]), raw, done, SymNone, nextvalue, SymNone, 0)
        && Written(before, p0, done)
      ensures r == MissingClose ==> pos == |text| && Depth(text[start..]) >= 1
      decreases |text| - pos, 4
    {
      ghost var mid, t := pos, Filter(text[start..pos]);
      ghost var body;
      assert t == Print(raw0) + "[";
      r, body := WriteLoop(before, p0, done0);
      SplitText(start, mid, pos);
      if r == Accepted {
        ShiftLoop(t, raw0, done0, curvalue, body, nextvalue);
        raw, done := raw0 + [Loop(body)], done0 + [CoalesceCmd(Loop(body))];
      } else {
        raw, done := raw0, done0;
        UnclosedDepth(start, mid, raw0);
        assert text[start..] == text[start..pos] && text[mid..] == text[mid..pos];
      }
    }

    /** Writes out the current symbol; what was read ahead becomes current. */
    method Dispatch(cursym: Symbol, curvalue: int, nextsym: Symbol, nextvalue: int, ghost start: nat,
                    ghost before: Func, ghost p0: Point, ghost raw0: seq<Cmd>, ghost done0: seq<Cmd>)
      returns (r: Status, ghost raw: seq<Cmd>, ghost done: seq<Cmd>)
      requires Between(start, raw0, done0, cursym, curvalue, nextsym, nextvalue)
      requires cursym != SymEof && cursym != SymEndLoop
      requires Written(before, p0, done0) && |before| == p0.nextBlk
      modifies this`pos, this`blocks, this`nextReg, this`curhead, this`insert
      ensures old(pos) <= pos <= |text| && r != ExtraClose
      ensures cursym != SymLoop ==> pos == old(pos)
      ensures r == Accepted ==>
        && Reading(Filter(text[start..pos]), raw, done, nextsym, nextvalue, SymNone, 0)
        && Written(before, p0, done)
      ensures r == MissingClose ==> pos == |text| && Depth(text[start..]) >= 1
      decreases |text| - start, 0
    {
      if cursym == SymLoop {
        LoopIsRead(start, raw0, done0, curvalue, nextsym, nextvalue);
        r, raw, done := DispatchLoop(curvalue, nextvalue, start, before, p0, raw0, done0);
      } else {
        if cursym != SymNone {
          WriteOut(cursym, curvalue, before, p0, done0);
        } else {
          assert done0 + Pending(cursym, curvalue) == done0;
        }
        Shift(Filter(text[start..pos]), raw0, done0, cursym, curvalue, nextsym, nextvalue);
        r, raw, done := Accepted, raw0 + Pending(nextsym, nextvalue), done0 + Pending(cursym, curvalue);
      }
    }

    /** A '[' has been read. */
    lemma LoopIsRead(start: nat, raw: seq<Cmd>, done: seq<Cmd>, curvalue: int, nextsym: Symbol, nextvalue: int)
      requires Between(start, raw, done, SymLoop, curvalue, nextsym, nextvalue)
      ensures pos > start
    {
      assert |Filter(text[start..pos])| == |Print(raw) + "["| > 0;
      assert text[start..start] == "";
    }

    /** How much the reader has still to do: characters, and symbols to write out. */
    ghost function Left(cursym: Symbol, nextsym: Symbol): int
      reads `pos
    {
      Measure(|text| - pos, cursym, nextsym)
    }

    /** One turn of the outer loop: write out, shift, read on. */
    method Turn(cursym0: Symbol, curvalue0: int, nextsym0: Symbol, nextvalue0: int, ghost start: nat,
                ghost before: Func, ghost p0: Point, ghost raw0: seq<Cmd>, ghost done0: seq<Cmd>)
      returns (r: Status, cursym: Symbol, curvalue: int, nextsym: Symbol, nextvalue: int,
               ghost raw: seq<Cmd>, ghost done: seq<Cmd>)
      requires Between(start, raw0, done0, cursym0, curvalue0, nextsym0, nextvalue0)
      requires cursym0 != SymEof && cursym0 != SymEndLoop
      requires Written(before, p0, done0) && |before| == p0.nextBlk
      modifies this`pos, this`blocks, this`nextReg, this`curhead, this`insert
      ensures old(pos) <= pos <= |text| && r != ExtraClose
      ensures r == Accepted ==>
        && Between(start, raw, done, cursym, curvalue, nextsym, nextvalue)
        && Written(before, p0, done)
        && 0 <= Left(cursym, nextsym) < old(Left(cursym0, nextsym0))
      ensures r == MissingClose ==> pos == |text| && Depth(text[start..]) >= 1
      decreases |text| - start, 1
    {
      cursym, curvalue, nextsym, nextvalue := nextsym0, nextvalue0, SymNone, 0;
      r, raw, done := Dispatch(cursym0, curvalue0, nextsym0, nextvalue0, start, before, p0, raw0, done0);
      if r == Accepted {
        cursym, curvalue, nextsym, nextvalue, raw :=
          ReadOn(cursym, curvalue, start, raw, done, old(pos), cursym0, nextsym0);
      }
    }

    /** Reads the next symbol, which leaves less to do. */
    method ReadOn(cursym1: Symbol, curvalue1: int, ghost start: nat, ghost raw1: seq<Cmd>, ghost done: seq<Cmd>,
                  ghost pos0: nat, ghost cursym0: Symbol, ghost nextsym0: Symbol)
      returns (cursym: Symbol, curvalue: int, nextsym: Symbol, nextvalue: int, ghost raw: seq<Cmd>)
      requires start <= pos <= |text| && pos0 <= pos && nextsym0 == cursym1
      requires Reading(Filter(text[start..pos]), raw1, done, cursym1, curvalue1, SymNone, 0)
      requires cursym1 == SymEof ==> pos == |text|
      requires cursym0 != SymEof && cursym0 != SymEndLoop
      requires if cursym0 == SymNone then nextsym0 == SymNone else (nextsym0 == SymNone <==> !IsRun(cursym0))
      modifies this`pos
      ensures old(pos) <= pos <= |text| && Between(start, raw, done, cursym, curvalue, nextsym, nextvalue)
      ensures 0 <= Left(cursym, nextsym) < Measure(|text| - pos0, cursym0, nextsym0)
    {
      cursym, curvalue, nextsym, nextvalue, raw := Fetch(cursym1, curvalue1, start, raw1, done);
      TurnShrinks(|text|, pos0, old(pos), pos, cursym0, nextsym0, cursym, nextsym);
    }

    method FinishLoop(reg: Reg, oldbb: BlockId, testbb: BlockId, ghost before: Func, ghost p0: Point,
                      ghost done: seq<Cmd>)
      requires Written(before, p0, done) && |before| == p0.nextBlk && p0.blk < |before|
      requires OpenTest(before, reg, testbb) && testbb != p0.blk
      modifies this`blocks, this`nextReg, this`curhead, this`insert
      ensures Finished(before, p0, done, Some(reg), oldbb, testbb)
    {
      EndOk(done, p0, bounds);
      ghost var mid, e := blocks, End(done, p0, bounds);
      CloseLoop(reg, oldbb, testbb, before[testbb].body[0].incoming[0]);
      CompiledStays(mid, blocks, e.blk, testbb, done, p0, bounds);
      GrowsWider(before, mid, p0.blk, testbb);
      GrowsTransitive(before, mid, blocks, p0.blk, e.blk, testbb, testbb);
    }

    method FinishProgram(ghost before: Func, ghost p0: Point, ghost done: seq<Cmd>)
      requires Written(before, p0, done) && |before| == p0.nextBlk && p0.blk < |before|
      modifies this`blocks
      ensures Finished(before, p0, done, None, 0, 0)
    {
      EndOk(done, p0, bounds);
      ghost var mid, e := blocks, End(done, p0, bounds);
      Terminate(Br(ENDBB));
      CompiledStays(mid, blocks, e.blk, -1, done, p0, bounds);
      GrowsTransitive(before, mid, blocks, p0.blk, e.blk, -1, -1);
    }

    /** The end of a loop, or of the program. */
    method Finish(cursym: Symbol, phi: Option<Reg>, oldbb: BlockId, testbb: BlockId,
                  ghost before: Func, ghost p0: Point, ghost done: seq<Cmd>) returns (r: Status)
      requires cursym == SymEof || cursym == SymEndLoop
      requires Written(before, p0, done) && |before| == p0.nextBlk && p0.blk < |before|
      requires phi.Some? ==> OpenTest(before, phi.value, testbb) && testbb != p0.blk
      modifies this`blocks, this`nextReg, this`curhead, this`insert
      ensures r == (if cursym == SymEndLoop then if phi.None? then ExtraClose else Accepted
                    else if phi.Some? then MissingClose else Accepted)
      ensures r == Accepted ==> Finished(before, p0, done, phi, oldbb, testbb)
    {
      if cursym == SymEndLoop {
        if phi.None? {
          return ExtraClose;
        }
        FinishLoop(phi.value, oldbb, testbb, before, p0, done);
        return Accepted;
      }
      FinishProgram(before, p0, done);
      return if phi.Some? then MissingClose else Accepted;
    }

    /**
     Reads commands up to the ']' that closes this loop, or to the end of the text, and writes
     them out. Returns the commands as the text denotes them; it aborts on unmatched brackets.
     */
    method Readloop(phi: Option<Reg>, oldbb: BlockId, testbb: BlockId) returns (r: Status, ghost raw: seq<Cmd>)
      requires Open() && Ok(Here(), bounds) && pos <= |text|
      requires phi.Some? ==> OpenTest(blocks, phi.value, testbb) && testbb != insert
      modifies this`pos, this`blocks, this`nextReg, this`curhead, this`insert
      ensures old(pos) <= pos <= |text|
      ensures r == Accepted ==>
        && ReadOut(old(pos), raw, EndingOf(phi))
        && Finished(old(blocks), old(Here()), Coalesce(raw), phi, oldbb, testbb)
      ensures r == MissingClose ==> pos == |text| && Depth(text[old(pos)..]) >= if phi.None? then 1 else 0
      ensures r == ExtraClose ==> phi.None? && ReadOut(old(pos), raw, AtBracket)
      decreases |text| - pos, 2
    {
      ghost var start, p0, before := pos, Here(), blocks;
      ghost var done := [];
      raw := [];
      var cursym, curvalue, nextsym, nextvalue := SymNone, 0, SymNone, 0;
      while cursym != SymEof && cursym != SymEndLoop
        invariant Between(start, raw, done, cursym, curvalue, nextsym, nextvalue) && Written(before, p0, done)
        decreases Left(cursym, nextsym)
      {
        r, cursym, curvalue, nextsym, nextvalue, raw, done :=
          Turn(cursym, curvalue, nextsym, nextvalue, start, before, p0, raw, done);
        if r != Accepted {
          return;
        }
      }
      r := Conclude(cursym, curvalue, nextsym, nextvalue, phi, oldbb, testbb, start, before, p0, raw, done);
    }

    /** What has been read is complete, and its code is closed. */
    method Conclude(cursym: Symbol, curvalue: int, nextsym: Symbol, nextvalue: int, phi: Option<Reg>, oldbb: BlockId,
                    testbb: BlockId, ghost start: nat, ghost before: Func, ghost p0: Point, ghost raw: seq<Cmd>,
                    ghost done: seq<Cmd>)
      returns (r: Status)
      requires Between(start, raw, done, cursym, curvalue, nextsym, nextvalue)
      requires cursym == SymEof || cursym == SymEndLoop
      requires Written(before, p0, done) && |before| == p0.nextBlk && p0.blk < |before|
      requires phi.Some? ==> OpenTest(before, phi.value, testbb) && testbb != p0.blk
      modifies this`blocks, this`nextReg, this`curhead, this`insert
      ensures r == Accepted ==>
        && ReadOut(start, raw, EndingOf(phi))
        && Finished(before, p0, Coalesce(raw), phi, oldbb, testbb)
      ensures r == MissingClose ==> phi.Some? && pos == |text| && Depth(text[start..]) >= 0
      ensures r == ExtraClose ==> phi.None? && ReadOut(start, raw, AtBracket)
    {
      AllWritten(start, raw, done, cursym, curvalue, nextsym, nextvalue);
      r := Finish(cursym, phi, oldbb, testbb, before, p0, done);
    }

    /** The text from `from` on denotes `raw`, up to the bracket that closes it or to its end. */
    ghost predicate ReadOut(from: nat, raw: seq<Cmd>, ending: Ending)
      reads `pos
    {
      match ending
      case AtBracket => from <= pos <= |text| && Unit(raw) && Filter(text[from..pos]) == Print(raw) + "]"
      case AtEnd => from <= pos == |text| && Unit(raw) && Filter(text[from..pos]) == Print(raw)
    }

    /** What the outer loop of the reader knows: a symbol is current, and none only at the start. */
    ghost predicate Between(start: nat, raw: seq<Cmd>, done: seq<Cmd>, cursym: Symbol, curvalue: int,
                            nextsym: Symbol, nextvalue: int)
      reads `pos
    {
      && start <= pos <= |text|
      && Reading(Filter(text[start..pos]), raw, done, cursym, curvalue, nextsym, nextvalue)
      && (if cursym == SymNone then done == [] && nextsym == SymNone else (nextsym == SymNone <==> !IsRun(cursym)))
      && (cursym == SymEof || nextsym == SymEof ==> pos == |text|)
    }

    lemma AllWritten(start: nat, raw: seq<Cmd>, done: seq<Cmd>, cursym: Symbol, curvalue: int, nextsym: Symbol,
                     nextvalue: int)
      requires Between(start, raw, done, cursym, curvalue, nextsym, nextvalue)
      requires cursym == SymEof || cursym == SymEndLoop
      ensures Coalesce(raw) == done
      ensures cursym == SymEndLoop ==> ReadOut(start, raw, AtBracket)
      ensures cursym == SymEof ==> ReadOut(start, raw, AtEnd) && pos == |text| && Depth(text[start..]) == 0
    {
      assert done + Pending(cursym, curvalue) == done;
      assert Print(raw) + "" == Print(raw);
      if cursym == SymEof {
        ReadDepth(start, raw);
      }
    }

    lemma ReadDepth(start: nat, raw: seq<Cmd>)
      requires start <= pos == |text| && Filter(text[start..pos]) == Print(raw) + ""
      ensures Depth(text[start..]) == 0
    {
      DepthFilter(text[start..pos]);
      PrintDepth(raw, 0);
      assert Print(raw) + "" == Print(raw);
      assert text[start..] == text[start..pos];
    }

    lemma SplitText(start: nat, mid: nat, end: nat)
      requires start <= mid <= end <= |text|
      ensures Filter(text[start..end]) == Filter(text[start..mid]) + Filter(text[mid..end])
      ensures Depth(text[start..end]) == Depth(text[start..mid]) + Depth(text[mid..end])
    {
      assert text[start..end] == text[start..mid] + text[mid..end];
      FilterAppend(text[start..mid], text[mid..end]);
      DepthAppend(text[start..mid], text[mid..end]);
    }

    lemma UnclosedDepth(start: nat, mid: nat, raw: seq<Cmd>)
      requires start <= mid <= |text| && Filter(text[start..mid]) == Print(raw) + "["
      ensures Depth(text[start..mid]) == 1
    {
      DepthFilter(text[start..mid]);
      DepthAppend(Print(raw), "[");
      PrintDepth(raw, 0);
      assert "["[..0] == "";
    }

    /** The code of `done`, from `p0` on, is complete: the loop, or the program, is closed. */
    ghost predicate Finished(before: Func, p0: Point, done: seq<Cmd>, phi: Option<Reg>, oldbb: BlockId, testbb: BlockId)
      reads `blocks, `insert, `curhead, `nextReg
    {
      match phi
      case None =>
        var e := End(done, p0, bounds);
        && Compiled(blocks, done, p0, bounds)
        && Closed(blocks, e.blk, e.idx, Br(ENDBB)) && |blocks| == e.nextBlk && Grows(before, blocks, p0.blk, -1)
      case Some(reg) =>
        var e := End(done, p0, bounds);
        && Compiled(blocks, done, p0, bounds)
        && testbb < |before| && OpenTest(before, reg, testbb)
        && LoopClosed(reg, oldbb, testbb, before[testbb].body[0].incoming[0], e)
        && Grows(before, blocks, p0.blk, testbb)
    }

    /** What closing a loop leaves behind, its body's code having ended at `e`. */
    ghost predicate LoopClosed(phi: Reg, oldbb: BlockId, testbb: BlockId, first: (Reg, BlockId), e: Point)
      reads `blocks, `insert, `curhead, `nextReg
    {
      && Open() && Here() == AfterLoop(e)
      && Closed(blocks, e.blk, e.idx, Br(testbb))
      && testbb < |blocks|
      && blocks[testbb] == Block([Phi(phi, [first, (e.head, e.blk)]), Load(e.nextReg, phi),
             IcmpZero(e.nextReg + 1, e.nextReg)], Some(CondBr(e.nextReg + 1, e.nextBlk, oldbb)))
      && At(blocks, e.nextBlk, 0, [Phi(e.nextReg + 2, [(phi, testbb)])])
    }

    lemma FilterNext(start: nat, i: nat)
      requires start <= i < |text|
      ensures IsCommand(text[i]) ==> Filter(text[start..i + 1]) == Filter(text[start..i]) + [text[i]]
      ensures !IsCommand(text[i]) ==> Filter(text[start..i + 1]) == Filter(text[start..i])
    {
      var t := text[start..i + 1];
      assert t[..|t| - 1] == text[start..i];
    }
  }

  /** Symbols still to be written out. */
  function Waiting(sym: Symbol): nat {
    if sym == SymNone || sym == SymEof || sym == SymEndLoop then 0 else 1
  }

  function Measure(chars: int, cursym: Symbol, nextsym: Symbol): int {
    2 * chars + Waiting(cursym) + Waiting(nextsym) + (if cursym == SymNone then 1 else 0)
  }

  lemma TurnShrinks(n: nat, pos0: nat, pos1: nat, pos: nat, cursym0: Symbol, nextsym0: Symbol, cursym: Symbol,
                    nextsym: Symbol)
    requires pos0 <= pos1 <= pos <= n
    requires cursym0 != SymEof && cursym0 != SymEndLoop
    requires if cursym0 == SymNone then nextsym0 == SymNone else (nextsym0 == SymNone <==> !IsRun(cursym0))
    requires pos >= pos1 + Consumed(nextsym0, cursym, nextsym) && (nextsym0 != SymNone ==> cursym == nextsym0)
    requires cursym != SymNone
    ensures 0 <= Measure(n - pos, cursym, nextsym) < Measure(n - pos0, cursym0, nextsym0)
  {
  }

  /** Symbols whose characters must have been consumed. */
  function Consumed(cursym0: Symbol, cursym: Symbol, nextsym: Symbol): nat {
    (if cursym0 == SymNone && cursym != SymEof && cursym != SymNone then 1 else 0) +
    (if nextsym == SymNone || nextsym == SymEof then 0 else 1)
  }

  /**
   The reader's state: `t` is the command text read so far; it denotes `raw`, and then the
   bracket and the symbol read ahead, if any. `raw` is `done`, written out already, and then
   the current symbol, which does not continue a run that `done` ends in.
   */
  ghost predicate Reading(t: string, raw: seq<Cmd>, done: seq<Cmd>, cursym: Symbol, curvalue: int,
                          nextsym: Symbol, nextvalue: int)
  {
    match nextsym
    case SymNone =>
      && Lexed(raw, done, cursym, curvalue)
      && t == Print(raw) + Bracket(cursym)
      && (cursym == SymNone ==> Separate(done, SymMove) && Separate(done, SymChange))
    case _ =>
      && Lexed(raw, done, cursym, curvalue)
      && t == Print(raw) + AheadText(nextsym, nextvalue)
      && IsRun(cursym) && nextsym != cursym && UnitValue(nextsym, nextvalue)
  }

  /** A symbol is written out, and the symbol read ahead, if any, takes its place. */
  lemma Shift(t: string, raw: seq<Cmd>, done: seq<Cmd>, cursym: Symbol, curvalue: int, nextsym: Symbol, nextvalue: int)
    requires Reading(t, raw, done, cursym, curvalue, nextsym, nextvalue)
    requires cursym != SymLoop && cursym != SymEndLoop && cursym != SymEof
    requires cursym == SymNone ==> done == []
    requires nextsym == SymNone <==> !IsRun(cursym)
    ensures Reading(t, raw + Pending(nextsym, nextvalue), done + Pending(cursym, curvalue),
                    nextsym, nextvalue, SymNone, 0)
  {
    if nextsym == SymNone {
      assert raw + Pending(nextsym, nextvalue) == raw;
      ShiftAlone(raw, done, cursym, curvalue);
      assert Print(raw) + Bracket(cursym) == Print(raw) + Bracket(SymNone);
    } else {
      ShiftAhead(t, raw, done, cursym, curvalue, nextsym, nextvalue);
    }
  }

  /** What was read ahead of a run becomes current. */
  lemma ShiftAhead(t: string, raw: seq<Cmd>, done: seq<Cmd>, cursym: Symbol, curvalue: int, nextsym: Symbol,
                   nextvalue: int)
    requires Lexed(raw, done, cursym, curvalue) && t == Print(raw) + AheadText(nextsym, nextvalue)
    requires IsRun(cursym) && nextsym != cursym && UnitValue(nextsym, nextvalue)
    ensures Lexed(raw + Pending(nextsym, nextvalue), done + Pending(cursym, curvalue), nextsym, nextvalue)
    ensures t == Print(raw + Pending(nextsym, nextvalue)) + Bracket(nextsym)
  {
    LexNew(raw, done + Pending(cursym, curvalue), nextsym, nextvalue);
  }

  /** Nothing was read ahead: a read, a write, or nothing was current. */
  lemma ShiftAlone(raw: seq<Cmd>, done: seq<Cmd>, cursym: Symbol, curvalue: int)
    requires Lexed(raw, done, cursym, curvalue) && !IsRun(cursym) && (cursym == SymNone ==> done == [])
    requires cursym != SymLoop && cursym != SymEndLoop && cursym != SymEof
    ensures var all := done + Pending(cursym, curvalue);
      Lexed(raw, all, SymNone, 0) && Separate(all, SymMove) && Separate(all, SymChange)
  {
    var all := done + Pending(cursym, curvalue);
    assert all + Pending(SymNone, 0) == all;
  }

  /** A loop is written out, its body having been read by a nested call. */
  lemma ShiftLoop(t: string, raw: seq<Cmd>, done: seq<Cmd>, curvalue: int, body: seq<Cmd>, value: int)
    requires Reading(t, raw, done, SymLoop, curvalue, SymNone, 0) && Unit(body)
    ensures Reading(t + (Print(body) + "]"), raw + [Loop(body)], done + [CoalesceCmd(Loop(body))],
                    SymNone, value, SymNone, 0)
  {
    ShiftLoopLex(raw, done, curvalue, body, value);
    PrintSnoc(raw, Loop(body));
    var q := Print(body) + "]";
    assert PrintCmd(Loop(body)) == "[" + q;
    assert t + q == Print(raw) + ("[" + q);
    assert Print(raw + [Loop(body)]) + "" == Print(raw + [Loop(body)]);
  }

  lemma ShiftLoopLex(raw: seq<Cmd>, done: seq<Cmd>, curvalue: int, body: seq<Cmd>, value: int)
    requires Lexed(raw, done, SymLoop, curvalue) && Unit(body)
    ensures Lexed(raw + [Loop(body)], done + [CoalesceCmd(Loop(body))], SymNone, value)
  {
    var all := raw + [Loop(body)];
    assert done + Pending(SymLoop, curvalue) == done;
    assert done + [CoalesceCmd(Loop(body))] + Pending(SymNone, value) == done + [CoalesceCmd(Loop(body))];
    UnitSnoc(raw, Loop(body));
    assert all[..|all| - 1] == raw;
  }

  lemma UnitSnoc(raw: seq<Cmd>, c: Cmd)
    requires Unit(raw) && UnitCmd(c)
    ensures Unit(raw + [c])
  {
  }

  lemma ReadingEof(t: string, raw: seq<Cmd>, done: seq<Cmd>, cursym: Symbol, curvalue: int)
    requires Reading(t, raw, done, cursym, curvalue, SymNone, 0)
    ensures cursym == SymNone ==> Reading(t, raw, done, SymEof, curvalue, SymNone, 0)
    ensures IsRun(cursym) ==> Reading(t, raw, done, cursym, curvalue, SymEof, 0)
  {
  }

  lemma ReadingMore(t: string, raw: seq<Cmd>, done: seq<Cmd>, sym: Symbol, value: int, c: char, direction: int)
    requires Reading(t, raw, done, sym, value, SymNone, 0) && IsRun(sym)
    requires IsCommand(c) && Classify(c) == (sym, direction)
    ensures Reading(t + [c], raw + Pending(sym, direction), done, sym, value + direction, SymNone, 0)
  {
    LexMore(raw, done, sym, value, direction);
    assert Print(Pending(sym, direction)) == [c];
  }

  lemma ReadingFirst(t: string, raw: seq<Cmd>, done: seq<Cmd>, value: int, c: char, sym: Symbol, direction: int)
    requires Reading(t, raw, done, SymNone, value, SymNone, 0)
    requires IsCommand(c) && Classify(c) == (sym, direction)
    ensures Reading(t + [c], raw + Pending(sym, direction), done, sym, direction, SymNone, 0)
  {
    assert Print(raw) + "" == Print(raw);
    assert done + Pending(SymNone, value) == done;
    LexNew(raw, done, sym, direction);
    FirstPrinted(raw, t, c, sym, direction);
  }

  lemma FirstPrinted(raw: seq<Cmd>, t: string, c: char, sym: Symbol, direction: int)
    requires t == Print(raw) && IsCommand(c) && Classify(c) == (sym, direction)
    requires Print(raw + Pending(sym, direction)) == Print(raw) + Print(Pending(sym, direction))
    ensures t + [c] == Print(raw + Pending(sym, direction)) + Bracket(sym)
  {
    Assoc(Print(raw), Print(Pending(sym, direction)), Bracket(sym));
  }

  lemma Assoc(x: string, y: string, z: string)
    ensures (x + y) + z == x + (y + z)
  {
  }

  lemma ReadingAhead(t: string, raw: seq<Cmd>, done: seq<Cmd>, cursym: Symbol, curvalue: int, c: char, sym: Symbol,
                     direction: int)
    requires Reading(t, raw, done, cursym, curvalue, SymNone, 0) && IsRun(cursym)
    requires IsCommand(c) && Classify(c) == (sym, direction) && sym != cursym
    ensures Reading(t + [c], raw, done, cursym, curvalue, sym, direction)
  {
  }

  /** One command character, in the middle of a symbol. */
  method Take(c: char, cursym0: Symbol, curvalue0: int, ghost t: string, ghost raw0: seq<Cmd>, ghost done: seq<Cmd>)
    returns (cursym: Symbol, curvalue: int, nextsym: Symbol, nextvalue: int, ghost raw: seq<Cmd>)
    requires IsCommand(c) && (cursym0 == SymNone || IsRun(cursym0))
    requires Reading(t, raw0, done, cursym0, curvalue0, SymNone, 0)
    ensures Reading(t + [c], raw, done, cursym, curvalue, nextsym, nextvalue)
    ensures cursym != SymNone && cursym != SymEof && nextsym != SymEof
    ensures cursym0 != SymNone ==> cursym == cursym0
    ensures cursym0 == SymNone ==> nextsym == SymNone
    ensures nextsym == SymNone ==> nextvalue == 0
  {
    cursym, curvalue, nextsym, nextvalue, raw := cursym0, curvalue0, SymNone, 0, raw0;
    var (sym, direction) := Classify(c);
    if cursym == sym && IsRun(sym) {
      ReadingMore(t, raw, done, cursym, curvalue, c, direction);
      raw := raw + Pending(sym, direction);
      curvalue := curvalue + direction;
    } else if cursym == SymNone {
      ReadingFirst(t, raw, done, curvalue, c, sym, direction);
      raw := raw + Pending(sym, direction);
      cursym, curvalue := sym, direction;
    } else {
      ReadingAhead(t, raw, done, cursym, curvalue, c, sym, direction);
      nextsym, nextvalue := sym, direction;
    }
  }

  /** The symbol of a command character, with the direction of a move or a change. */
  function Classify(c: char): (r: (Symbol, int))
    requires IsCommand(c)
    ensures AheadText(r.0, r.1) == [c] && UnitValue(r.0, r.1) && r.0 != SymNone && r.0 != SymEof
  {
    match c
    case '-' => (SymChange, -1)
    case '+' => (SymChange, 1)
    case '<' => (SymMove, -1)
    case '>' => (SymMove, 1)
    case ',' => (SymRead, 0)
    case '.' => (SymWrite, 0)
    case '[' => (SymLoop, 0)
    case _ => (SymEndLoop, 0)
  }

  /**
   The whole compiler. It accepts exactly the balanced texts, and then the function it has built
   is the program for the commands that the text denotes, run by run.
   */
  method Parse(text: string, memtotal: nat, bounds: bool) returns (r: Status, f: Func, ghost raw: seq<Cmd>)
    ensures r == Accepted <==> Balanced(text)
    ensures r == Accepted ==> Unit(raw) && Filter(text) == Print(raw) && IsProgram(f, Coalesce(raw), memtotal, bounds)
    ensures r == ExtraClose ==> exists k :: 0 <= k <= |text| && Depth(text[..k]) < 0
    ensures r == MissingClose ==> Depth(text) > 0
  {
    var b := new BrainF(text, memtotal, bounds);
    ghost var before := b.blocks;
    r, raw := b.Readloop(None, 0, 0);
    f := b.blocks;
    assert text[..] == text[0..|text|] == text;
    if r == Accepted {
      ReadIsBalanced(text, raw);
      AtStays(before, f, ENTRY, -1, ENTRY, 0, HeaderCode(memtotal, bounds));
    } else if r == ExtraClose {
      assert text[0..b.pos] == text[..b.pos];
      ExtraDepth(text[..b.pos], raw);
    }
  }

  lemma ExtraDepth(t: string, raw: seq<Cmd>)
    requires Filter(t) == Print(raw) + "]"
    ensures Depth(t) == -1
  {
    DepthFilter(t);
    DepthAppend(Print(raw), "]");
    PrintDepth(raw, 0);
    assert "]"[..0] == "";
  }
}
