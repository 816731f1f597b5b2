/**
 The event path of the measurement engine: events of the normal world are sent in 32-bit halves,
 dispatched in the trusted application, and end in a digest and two append-only blobs.
 */
module Measurement {
  import opened Common
  import opened Blake2s

  // ---------- events and what they should leave behind ----------

  type Word32 = x: int | 0 <= x < 0x1_0000_0000

  type Word64 = x: int | 0 <= x < 0x1_0000_0000_0000_0000

  datatype Event = Event(etype: Word64, a: Word64, b: Word64)

  const CTRL: Word64 := 0x10
  const COND: Word64 := 0x80
  const ICALL: Word64 := 0x100
  const IBR: Word64 := 0x200

  datatype Kind = Control | Target | Branch | Other

  function KindOf(e: Event): Kind {
    if e.etype == CTRL then Control
    else if e.etype == ICALL || e.etype == IBR then Target
    else if e.etype == COND then Branch
    else Other
  }

  /** The `n` low bytes of a word, low byte first. */
  function LowBytes(w: nat, n: nat): (s: seq<Byte>)
    ensures |s| == n
  {
    if n == 0 then [] else [(w % 256) as bv8] + LowBytes(w / 256, n - 1)
  }

  const WIDTH: nat := 8

  /** A 64-bit word as it lies in the memory of a little-endian machine. */
  function Bytes64(w: Word64): (s: seq<Byte>)
    ensures |s| == 8
  {
    LowBytes(w, WIDTH)
  }

  function Encoded(ws: seq<Word64>): seq<Byte> {
    if ws == [] then [] else Encoded(ws[..|ws| - 1]) + Bytes64(ws[|ws| - 1])
  }

  /** The (source, target) pairs of the control events, 16 bytes each, in order. */
  function Records(es: seq<Event>): seq<Byte> {
    if es == [] then []
    else
      var e := es[|es| - 1];
      Records(es[..|es| - 1]) + if KindOf(e) == Control then Bytes64(e.a) + Bytes64(e.b) else []
  }

  /** The targets of the indirect calls and jumps, in order. */
  function Targets(es: seq<Event>): seq<Word64> {
    if es == [] then []
    else
      var e := es[|es| - 1];
      Targets(es[..|es| - 1]) + if KindOf(e) == Target then [e.b] else []
  }

  /** The outcomes of the conditional branches, in order: what is stored is whether `a` is 1. */
  function Outcomes(es: seq<Event>): seq<Byte> {
    if es == [] then []
    else
      var e := es[|es| - 1];
      Outcomes(es[..|es| - 1]) + if KindOf(e) == Branch then [Taken(e)] else []
  }

  function Taken(e: Event): Byte { if e.a == 1 then 1 else 0 }

  /** The files of the secure storage; an absent file is an empty one. */
  datatype Blobs = Blobs(iaddr: seq<Byte>, cond: seq<Byte>, rethash: seq<Byte>)

  type HashFunction = seq<Byte> -> seq<Byte>

  /** The hash of the control records: BLAKE2s with 32 bytes and no key. */
  function Blake2s256(msg: seq<Byte>): seq<Byte> {
    Hash(32, [], msg)
  }

  ghost predicate Genuine(h: HashFunction) {
    forall msg: seq<Byte> {:trigger Hash(32, [], msg)} :: h(msg) == Hash(32, [], msg)
  }

  /** What one measured run adds to them. */
  function Gain(h: HashFunction, b: Blobs, es: seq<Event>): Blobs {
    Blobs(b.iaddr + Encoded(Targets(es)), b.cond + Outcomes(es), b.rethash + h(Records(es)))
  }

  // ---------- crossing between the worlds ----------

  /** The values of the three parameters that carry an event, each 32 bits wide. */
  datatype Params = Params(p0a: Word32, p1a: Word32, p1b: Word32, p2a: Word32, p2b: Word32)

  const HALF: nat := 0x1_0000_0000

  function LowHalf(x: Word64): Word32 { x % HALF }

  function HighHalf(x: Word64): Word32 { x / HALF % HALF }

  function Joined(high: Word32, low: Word32): Word64 { high * HALF + low }

  /** The event type is cut to the 32 bits of its parameter. */
  function Sent(e: Event): Params {
    Params(LowHalf(e.etype), LowHalf(e.a), HighHalf(e.a), LowHalf(e.b), HighHalf(e.b))
  }

  function Received(p: Params): Event {
    Event(p.p0a, Joined(p.p1b, p.p1a), Joined(p.p2b, p.p2a))
  }

  lemma HalvesJoin(x: Word64)
    ensures Joined(HighHalf(x), LowHalf(x)) == x
  {
  }

  function Narrowed(e: Event): Event {
    e.(etype := LowHalf(e.etype))
  }

  /** Both arguments cross unharmed; of the event type only the low half does. */
  lemma ReceivedIsNarrowed(e: Event)
    ensures Received(Sent(e)) == Narrowed(e)
  {
    HalvesJoin(e.a);
    HalvesJoin(e.b);
  }

  /** An event is taken for what it is exactly when its type fits in 32 bits or its low half is no code. */
  lemma MisreadExactly(e: Event)
    ensures KindOf(Received(Sent(e))) == KindOf(e) <==> Plain(e)
    ensures Fits(e) ==> Received(Sent(e)) == e
  {
    ReceivedIsNarrowed(e);
  }

  predicate Plain(e: Event) { Fits(e) || LowHalf(e.etype) !in {CTRL, ICALL, IBR, COND} }

  predicate Fits(e: Event) { e.etype < HALF }

  lemma {:induction false} EncodedConcat(x: seq<Word64>, y: seq<Word64>)
    ensures Encoded(x + y) == Encoded(x) + Encoded(y)
  {
    if y == [] {
      assert x + y == x;
    } else {
      var y0 := y[..|y| - 1];
      EncodedConcat(x, y0);
      assert (x + y)[..|x + y| - 1] == x + y0;
      assert Encoded(x) + Encoded(y0) + Bytes64(y[|y| - 1]) == Encoded(x) + (Encoded(y0) + Bytes64(y[|y| - 1]));
    }
  }

  lemma OneMore(es: seq<Event>, e: Event)
    ensures Records(es + [e])
         == if KindOf(e) == Control then Records(es) + (Bytes64(e.a) + Bytes64(e.b)) else Records(es)
    ensures Targets(es + [e]) == if KindOf(e) == Target then Targets(es) + [e.b] else Targets(es)
    ensures Outcomes(es + [e]) == if KindOf(e) == Branch then Outcomes(es) + [Taken(e)] else Outcomes(es)
  {
    assert (es + [e])[..|es + [e]| - 1] == es;
  }

  lemma TargetAdded(b: seq<Byte>, ws: seq<Word64>, w: Word64)
    ensures b + Encoded(ws + [w]) == b + Encoded(ws) + Encoded([w])
  {
    EncodedConcat(ws, [w]);
  }

  /** The end of a stream without a key. */
  method Unkeyed(s: Blake2sState, ghost msg: seq<Byte>, ghost h: HashFunction) returns (digest: seq<Byte>)
    requires Genuine(h) && s.Live() && s.outlen == 32 && s.start == Start(32, 0) && s.data == msg
    modifies s, s.h, s.buf
    ensures s.Shape() && digest == h(msg)
  {
    assert KeyBlock([]) + msg == msg;
    digest := Finished(s, [], msg);
  }

  // ---------- the trusted application ----------

  class Enclave {
    /** The sizes of the two trace buffers. */
    const condMax: nat
    const iaddrMax: nat
    const hash: Blake2sState
    /** BLAKE2s, under a name that keeps its definition out of the proofs about events. */
    ghost const h: HashFunction
    var condBuf: array<Byte>
    var condIdx: nat
    var iaddrBuf: array<Word64>
    var iaddrIdx: nat
    /** The files of the secure storage. */
    var iaddr: seq<Byte>
    var cond: seq<Byte>
    var rethash: seq<Byte>
    /** The storage when the run began, and the events of the run. */
    ghost var before: Blobs
    ghost var run: seq<Event>

    ghost predicate Shape()
      reads `condBuf, `iaddrBuf, hash
    {
      && condMax > 0 && iaddrMax > 0 && hash.Shape() && Genuine(h)
      && condBuf != hash.buf && (condBuf as object) != hash.h && (condBuf as object) != iaddrBuf
      && (iaddrBuf as object) != hash.buf && (iaddrBuf as object) != hash.h
    }

    function Storage(): Blobs
      reads `iaddr, `cond, `rethash
    {
      Blobs(iaddr, cond, rethash)
    }

    ghost function Repr(): set<object>
      reads this
    {
      {this, hash, hash.h, hash.buf, condBuf, iaddrBuf}
    }

    /** Everything so far has been hashed. */
    ghost predicate Hashed(es: seq<Event>)
      reads hash, hash.h, hash.buf
    {
      hash.Live() && hash.outlen == 32 && hash.start == Start(32, 0) && hash.data == Records(es)
    }

    /** The blob and the buffer together hold the targets. */
    ghost predicate TargetsKept(es: seq<Event>)
      reads `iaddr, `iaddrIdx, `iaddrBuf, `before, iaddrBuf
    {
      && iaddrBuf.Length == iaddrMax && iaddrIdx <= iaddrMax
      && iaddr + Encoded(iaddrBuf[..iaddrIdx]) == before.iaddr + Encoded(Targets(es))
    }

    /** The blob and the buffer together hold the outcomes. */
    ghost predicate OutcomesKept(es: seq<Event>)
      reads `cond, `condIdx, `condBuf, `before, condBuf
    {
      && condBuf.Length == condMax && condIdx <= condMax
      && cond + condBuf[..condIdx] == before.cond + Outcomes(es)
    }

    ghost predicate Running()
      reads this, hash, hash.h, hash.buf, iaddrBuf, condBuf
    {
      Shape() && Hashed(run) && TargetsKept(run) && OutcomesKept(run) && rethash == before.rethash
    }

    constructor (condMax: nat, iaddrMax: nat, blobs: Blobs)
      requires condMax > 0 && iaddrMax > 0
      ensures Shape() && fresh(Repr()) && Storage() == blobs
    {
      h := Blake2s256;
      this.condMax, this.iaddrMax := condMax, iaddrMax;
      iaddr, cond, rethash := blobs.iaddr, blobs.cond, blobs.rethash;
      hash := new Blake2sState();
      condBuf := new Byte[0];
      iaddrBuf := new Word64[0];
    }

    method CfaInit()
      requires Shape()
      modifies this, hash, hash.h
      ensures Running() && Storage() == old(Storage()) == before && run == []
      ensures fresh(Repr() - old(Repr()))
    {
      var ok := hash.Init(32);
      NewBuffers();
      before, run := Storage(), [];
    }

    method NewBuffers()
      requires Shape()
      modifies `condBuf, `condIdx, `iaddrBuf, `iaddrIdx
      ensures fresh(condBuf) && condBuf.Length == condMax && condIdx == 0
      ensures fresh(iaddrBuf) && iaddrBuf.Length == iaddrMax && iaddrIdx == 0 && (condBuf as object) != iaddrBuf
    {
      condBuf := new Byte[condMax](_ => 0);
      condIdx := 0;
      iaddrBuf := new Word64[iaddrMax](_ => 0);
      iaddrIdx := 0;
    }

    method ControlEvent(e: Event)
      requires Shape() && hash.Live()
      modifies hash, hash.h, hash.buf
      ensures hash.Live() && hash.data == old(hash.data) + (Bytes64(e.a) + Bytes64(e.b))
      ensures hash.outlen == old(hash.outlen) && hash.start == old(hash.start)
    {
      hash.Update(Bytes64(e.a) + Bytes64(e.b));
    }

    method TraceAddrEvent(e: Event, ghost all: seq<Byte>)
      requires iaddrMax > 0 && iaddrBuf.Length == iaddrMax && iaddrIdx <= iaddrMax
      requires iaddr + Encoded(iaddrBuf[..iaddrIdx]) == all
      modifies `iaddr, `iaddrIdx, iaddrBuf
      ensures iaddrIdx <= iaddrMax && iaddr + Encoded(iaddrBuf[..iaddrIdx]) == all + Encoded([e.b])
    {
      if iaddrIdx == iaddrMax {
        iaddr := iaddr + Encoded(iaddrBuf[..]);
        iaddrIdx := 0;
        assert iaddrBuf[..] == iaddrBuf[..iaddrMax];
        assert iaddr + Encoded(iaddrBuf[..0]) == all;
      }
      ghost var held := iaddrBuf[..iaddrIdx];
      iaddrBuf[iaddrIdx] := e.b;
      iaddrIdx := iaddrIdx + 1;
      assert iaddrBuf[..iaddrIdx] == held + [e.b];
      TargetAdded(iaddr, held, e.b);
    }

    method TraceCondEvent(e: Event, ghost all: seq<Byte>)
      requires condMax > 0 && condBuf.Length == condMax && condIdx <= condMax
      requires cond + condBuf[..condIdx] == all
      modifies `cond, `condIdx, condBuf
      ensures condIdx <= condMax && cond + condBuf[..condIdx] == all + [Taken(e)]
    {
      if condIdx == condMax {
        cond := cond + condBuf[..];
        condIdx := 0;
      }
      ghost var held := condBuf[..condIdx];
      condBuf[condIdx] := Taken(e);
      condIdx := condIdx + 1;
      assert condBuf[..condIdx] == held + [Taken(e)];
    }

    lemma HashedStill(es: seq<Event>, e: Event)
      requires Hashed(es) && KindOf(e) != Control
      ensures Hashed(es + [e])
    {
      OneMore(es, e);
    }

    lemma TargetsStill(es: seq<Event>, e: Event)
      requires TargetsKept(es) && KindOf(e) != Target
      ensures TargetsKept(es + [e])
    {
      OneMore(es, e);
    }

    lemma OutcomesStill(es: seq<Event>, e: Event)
      requires OutcomesKept(es) && KindOf(e) != Branch
      ensures OutcomesKept(es + [e])
    {
      OneMore(es, e);
    }

    ghost method Extend(e: Event)
      requires Shape() && Hashed(run + [e]) && TargetsKept(run + [e]) && OutcomesKept(run + [e])
      requires rethash == before.rethash
      modifies `run
      ensures Running() && run == old(run) + [e]
    {
      run := run + [e];
    }

    method KeepRecord(e: Event, ghost es: seq<Event>)
      requires Shape() && Hashed(es) && KindOf(e) == Control
      modifies hash, hash.h, hash.buf
      ensures Shape() && Hashed(es + [e])
    {
      OneMore(es, e);
      ControlEvent(e);
    }

    method KeepTarget(e: Event, ghost es: seq<Event>)
      requires iaddrMax > 0 && TargetsKept(es) && KindOf(e) == Target
      modifies `iaddr, `iaddrIdx, iaddrBuf
      ensures TargetsKept(es + [e])
    {
      OneMore(es, e);
      TargetAdded(before.iaddr, Targets(es), e.b);
      TraceAddrEvent(e, before.iaddr + Encoded(Targets(es)));
    }

    method KeepOutcome(e: Event, ghost es: seq<Event>)
      requires condMax > 0 && OutcomesKept(es) && KindOf(e) == Branch
      modifies `cond, `condIdx, condBuf
      ensures OutcomesKept(es + [e])
    {
      OneMore(es, e);
      TraceCondEvent(e, before.cond + Outcomes(es));
    }

    method OnControl(e: Event)
      requires Running() && KindOf(e) == Control
      modifies `run, hash, hash.h, hash.buf
      ensures Running() && run == old(run) + [e]
    {
      TargetsStill(run, e);
      OutcomesStill(run, e);
      KeepRecord(e, run);
      Extend(e);
    }

    method OnTarget(e: Event)
      requires Running() && KindOf(e) == Target
      modifies `iaddr, `iaddrIdx, `run, iaddrBuf
      ensures Running() && run == old(run) + [e]
    {
      HashedStill(run, e);
      OutcomesStill(run, e);
      KeepTarget(e, run);
      Extend(e);
    }

    method OnBranch(e: Event)
      requires Running() && KindOf(e) == Branch
      modifies `cond, `condIdx, `run, condBuf
      ensures Running() && run == old(run) + [e]
    {
      HashedStill(run, e);
      TargetsStill(run, e);
      KeepOutcome(e, run);
      Extend(e);
    }

    method OnOther(e: Event)
      requires Running() && KindOf(e) == Other
      modifies `run
      ensures Running() && run == old(run) + [e]
    {
      HashedStill(run, e);
      TargetsStill(run, e);
      OutcomesStill(run, e);
      Extend(e);
    }

    /** The dispatcher. Events of other kinds leave no trace. */
    method HandleEvent(e: Event)
      requires Running()
      modifies `iaddr, `iaddrIdx, `cond, `condIdx, `run, hash, hash.h, hash.buf, condBuf, iaddrBuf
      ensures Running() && run == old(run) + [e]
    {
      if e.etype == CTRL {
        OnControl(e);
      } else if e.etype == ICALL || e.etype == IBR {
        OnTarget(e);
      } else if e.etype == COND {
        OnBranch(e);
      } else {
        OnOther(e);
      }
    }

    method Verify(p: Params)
      requires Running()
      modifies `iaddr, `iaddrIdx, `cond, `condIdx, `run, hash, hash.h, hash.buf, condBuf, iaddrBuf
      ensures Running() && run == old(run) + [Received(p)]
    {
      HandleEvent(Event(p.p0a, Joined(p.p1b, p.p1a), Joined(p.p2b, p.p2a)));
    }

    method CfaQuote()
      requires Running()
      modifies `iaddr, `cond, `rethash, hash, hash.h, hash.buf
      ensures Shape() && Storage() == old(Gain(h, before, run))
    {
      var digest := QuoteDigest();
      iaddr := iaddr + Encoded(iaddrBuf[..iaddrIdx]);
      cond := cond + condBuf[..condIdx];
      rethash := rethash + digest;
    }

    method QuoteDigest() returns (digest: seq<Byte>)
      requires Genuine(h) && Hashed(run)
      modifies hash, hash.h, hash.buf
      ensures hash.Shape() && digest == h(Records(run))
    {
      digest := Unkeyed(hash, Records(run), h);
    }
  }

  // ---------- the normal world ----------

  /** What the measured program calls. */
  datatype Call = Init | Quote | Emit(e: Event)

  /** The storage after all finished runs, and the events of the run under way. */
  datatype Ledger = Ledger(blobs: Blobs, run: Option<seq<Event>>)

  function Entered(h: HashFunction, l: Ledger, c: Call): Ledger {
    match c
    case Init => l.(run := Some([]))
    case Quote => if l.run.Some? then Ledger(Gain(h, l.blobs, l.run.value), None) else l
    case Emit(e) => if l.run.Some? then l.(run := Some(l.run.value + [Narrowed(e)])) else l
  }

  function EnteredAll(h: HashFunction, l: Ledger, cs: seq<Call>): Ledger {
    if cs == [] then l else Entered(h, EnteredAll(h, l, cs[..|cs| - 1]), cs[|cs| - 1])
  }

  /** A run is begun when none is under way, and ended when one is. */
  predicate Allowed(l: Ledger, c: Call) {
    (c.Init? ==> l.run.None?) && (c.Quote? ==> l.run.Some?)
  }

  predicate Disciplined(h: HashFunction, l: Ledger, cs: seq<Call>) {
    cs == [] || (Disciplined(h, l, cs[..|cs| - 1]) && Allowed(EnteredAll(h, l, cs[..|cs| - 1]), cs[|cs| - 1]))
  }

  lemma {:induction false} Next(h: HashFunction, l: Ledger, cs: seq<Call>, i: nat)
    requires i < |cs| && Disciplined(h, l, cs)
    ensures Allowed(EnteredAll(h, l, cs[..i]), cs[i])
    ensures EnteredAll(h, l, cs[..i + 1]) == Entered(h, EnteredAll(h, l, cs[..i]), cs[i])
  {
    if i < |cs| - 1 {
      var front := cs[..|cs| - 1];
      Next(h, l, front, i);
      assert front[..i] == cs[..i] && front[..i + 1] == cs[..i + 1];
    } else {
      assert cs[..i + 1] == cs;
    }
  }

  class Prover {
    var started: bool
    const ta: Enclave

    /** The state of both worlds is what the ledger says. */
    ghost predicate Agrees(l: Ledger)
      reads this, ta, ta.hash, ta.hash.h, ta.hash.buf, ta.iaddrBuf, ta.condBuf
    {
      && ta.Shape() && started == l.run.Some?
      && if started then ta.Running() && ta.before == l.blobs && ta.run == l.run.value else ta.Storage() == l.blobs
    }

    constructor (condMax: nat, iaddrMax: nat, blobs: Blobs)
      requires condMax > 0 && iaddrMax > 0
      ensures Agrees(Ledger(blobs, None)) && fresh(ta) && fresh(ta.Repr())
    {
      started := false;
      ta := new Enclave(condMax, iaddrMax, blobs);
    }

    method CfvInit(ghost l: Ledger)
      requires Agrees(l) && Allowed(l, Init)
      modifies this, ta, ta.hash, ta.hash.h
      ensures Agrees(Entered(ta.h, l, Init)) && fresh(ta.Repr() - old(ta.Repr()))
    {
      started := true;
      ta.CfaInit();
    }

    method CfvQuote(ghost l: Ledger)
      requires Agrees(l) && Allowed(l, Quote)
      modifies this, ta, ta.hash, ta.hash.h, ta.hash.buf
      ensures Agrees(Entered(ta.h, l, Quote)) && ta.Repr() == old(ta.Repr())
    {
      ta.CfaQuote();
      started := false;
    }

    /** Before the first `CfvInit`, and between runs, events are skipped. */
    method HandleEvent(e: Event, ghost l: Ledger)
      requires Agrees(l)
      modifies ta, ta.hash, ta.hash.h, ta.hash.buf, ta.condBuf, ta.iaddrBuf
      ensures Agrees(Entered(ta.h, l, Emit(e))) && ta.Repr() == old(ta.Repr())
    {
      if !started {
        return;
      }
      ReceivedIsNarrowed(e);
      ta.Verify(Params(LowHalf(e.etype), LowHalf(e.a), HighHalf(e.a), LowHalf(e.b), HighHalf(e.b)));
    }

    method Perform(c: Call, ghost l: Ledger)
      requires Agrees(l) && Allowed(l, c)
      modifies this, ta, ta.hash, ta.hash.h, ta.hash.buf, ta.condBuf, ta.iaddrBuf
      ensures Agrees(Entered(ta.h, l, c)) && fresh(ta.Repr() - old(ta.Repr()))
    {
      match c {
        case Init => CfvInit(l);
        case Quote => CfvQuote(l);
        case Emit(e) => HandleEvent(e, l);
      }
    }

    /** Any disciplined run of the program: what is stored is what the ledger says. */
    method Execute(cs: seq<Call>, ghost l: Ledger)
      requires Agrees(l) && Disciplined(ta.h, l, cs)
      modifies this, ta, ta.hash, ta.hash.h, ta.hash.buf, ta.condBuf, ta.iaddrBuf
      ensures Agrees(EnteredAll(ta.h, l, cs))
    {
      var i := 0;
      ghost var now := l;
      while i < |cs|
        invariant i <= |cs| && now == EnteredAll(ta.h, l, cs[..i]) && Agrees(now)
        invariant fresh(ta.Repr() - old(ta.Repr()))
      {
        Next(ta.h, l, cs, i);
        Perform(cs[i], now);
        now := Entered(ta.h, now, cs[i]);
        i := i + 1;
      }
      assert cs[..|cs|] == cs;
    }
  }

  // ---------- what a run leaves behind ----------

  function Emits(es: seq<Event>): seq<Call> {
    if es == [] then [] else Emits(es[..|es| - 1]) + [Emit(es[|es| - 1])]
  }

  lemma {:induction false} EnteredConcat(h: HashFunction, l: Ledger, cs: seq<Call>, ds: seq<Call>)
    ensures EnteredAll(h, l, cs + ds) == EnteredAll(h, EnteredAll(h, l, cs), ds)
  {
    if ds == [] {
      assert cs + ds == cs;
    } else {
      assert (cs + ds)[..|cs + ds| - 1] == cs + ds[..|ds| - 1];
      EnteredConcat(h, l, cs, ds[..|ds| - 1]);
    }
  }

  lemma {:induction false} EmitsOutside(h: HashFunction, b: Blobs, es: seq<Event>)
    ensures EnteredAll(h, Ledger(b, None), Emits(es)) == Ledger(b, None)
  {
    if es != [] {
      EmitsOutside(h, b, es[..|es| - 1]);
      assert Emits(es)[..|Emits(es)| - 1] == Emits(es[..|es| - 1]);
    }
  }

  lemma {:induction false} DisciplinedConcat(h: HashFunction, l: Ledger, cs: seq<Call>, ds: seq<Call>)
    requires Disciplined(h, l, cs) && Disciplined(h, EnteredAll(h, l, cs), ds)
    ensures Disciplined(h, l, cs + ds)
  {
    if ds == [] {
      assert cs + ds == cs;
    } else {
      var front := ds[..|ds| - 1];
      assert (cs + ds)[..|cs + ds| - 1] == cs + front;
      DisciplinedConcat(h, l, cs, front);
      EnteredConcat(h, l, cs, front);
    }
  }

  lemma {:induction false} EmitsDisciplined(h: HashFunction, l: Ledger, es: seq<Event>)
    ensures Disciplined(h, l, Emits(es))
  {
    if es != [] {
      EmitsDisciplined(h, l, es[..|es| - 1]);
      assert Emits(es)[..|Emits(es)| - 1] == Emits(es[..|es| - 1]);
    }
  }

  /** The events as the trusted side sees them. */
  function NarrowedAll(es: seq<Event>): (r: seq<Event>)
    ensures |r| == |es|
  {
    seq(|es|, i requires 0 <= i < |es| => Narrowed(es[i]))
  }

  lemma NarrowedMore(es: seq<Event>)
    requires es != []
    ensures NarrowedAll(es) == NarrowedAll(es[..|es| - 1]) + [Narrowed(es[|es| - 1])]
  {
  }

  /** No event has a type that is wider than 32 bits and has one of these codes in its low half. */
  predicate Clear(es: seq<Event>, codes: set<Word64>) {
    forall i: nat :: i < |es| ==> Fits(es[i]) || LowHalf(es[i].etype) !in codes
  }

  lemma ClearMore(es: seq<Event>, e: Event, codes: set<Word64>)
    ensures Clear(es + [e], codes) <==> Clear(es, codes) && (Fits(e) || LowHalf(e.etype) !in codes)
  {
    var all := es + [e];
    assert all[|es|] == e && forall i: nat :: i < |es| ==> all[i] == es[i];
  }

  /** The control records arrive as they were emitted, or there are too many; so for the other two lists. */
  lemma {:induction false} RecordsArrive(es: seq<Event>)
    ensures var ns := NarrowedAll(es);
      if Clear(es, {CTRL}) then Records(ns) == Records(es) else |Records(ns)| > |Records(es)|
  {
    if es != [] {
      var front, e := es[..|es| - 1], es[|es| - 1];
      assert es == front + [e];
      RecordsArrive(front);
      NarrowedMore(es);
      OneMore(NarrowedAll(front), Narrowed(e));
      ClearMore(front, e, {CTRL});
    }
  }

  lemma {:induction false} TargetsArrive(es: seq<Event>)
    ensures var ns := NarrowedAll(es);
      if Clear(es, {ICALL, IBR}) then Targets(ns) == Targets(es) else |Targets(ns)| > |Targets(es)|
  {
    if es != [] {
      var front, e := es[..|es| - 1], es[|es| - 1];
      assert es == front + [e];
      TargetsArrive(front);
      NarrowedMore(es);
      OneMore(NarrowedAll(front), Narrowed(e));
      ClearMore(front, e, {ICALL, IBR});
    }
  }

  lemma {:induction false} OutcomesArrive(es: seq<Event>)
    ensures var ns := NarrowedAll(es);
      if Clear(es, {COND}) then Outcomes(ns) == Outcomes(es) else |Outcomes(ns)| > |Outcomes(es)|
  {
    if es != [] {
      var front, e := es[..|es| - 1], es[|es| - 1];
      assert es == front + [e];
      OutcomesArrive(front);
      NarrowedMore(es);
      OneMore(NarrowedAll(front), Narrowed(e));
      ClearMore(front, e, {COND});
    }
  }

  /** A run is measured as it was emitted exactly when each of its events is taken for what it is. */
  lemma RunMisreadExactly(es: seq<Event>)
    ensures var ns := NarrowedAll(es);
      Records(ns) == Records(es) && Targets(ns) == Targets(es) && Outcomes(ns) == Outcomes(es)
      <==> forall i: nat :: i < |es| ==> Plain(es[i])
  {
    RecordsArrive(es);
    TargetsArrive(es);
    OutcomesArrive(es);
  }

  lemma {:induction false} EmitsInside(h: HashFunction, b: Blobs, es: seq<Event>)
    ensures EnteredAll(h, Ledger(b, Some([])), Emits(es)) == Ledger(b, Some(NarrowedAll(es)))
  {
    if es != [] {
      EmitsInside(h, b, es[..|es| - 1]);
      NarrowedMore(es);
      assert Emits(es)[..|Emits(es)| - 1] == Emits(es[..|es| - 1]);
    }
  }

  /**
   A measured run, whatever was emitted before and after it: the storage gains the digest of its control
   records, its targets and its outcomes, and nothing else. These are all three those of the events that
   were emitted if and only if each event's type fits in 32 bits or has no code in its low half.
   */
  lemma MeasuredRun(h: HashFunction, b: Blobs, prior: seq<Event>, es: seq<Event>, later: seq<Event>)
    requires Genuine(h)
    ensures Disciplined(h, Ledger(b, None), Emits(prior) + [Init] + Emits(es) + [Quote] + Emits(later))
    ensures EnteredAll(h, Ledger(b, None), Emits(prior) + [Init] + Emits(es) + [Quote] + Emits(later))
            == Ledger(Gain(Blake2s256, b, NarrowedAll(es)), None)
    ensures var ns := NarrowedAll(es);
      Records(ns) == Records(es) && Targets(ns) == Targets(es) && Outcomes(ns) == Outcomes(es)
      <==> forall i: nat :: i < |es| ==> Plain(es[i])
  {
    RunEntered(h, b, prior, es, later);
    assert h(Records(NarrowedAll(es))) == Hash(32, [], Records(NarrowedAll(es)));
    RunMisreadExactly(es);
  }

  lemma RunEntered(h: HashFunction, b: Blobs, prior: seq<Event>, es: seq<Event>, later: seq<Event>)
    ensures Disciplined(h, Ledger(b, None), Emits(prior) + [Init] + Emits(es) + [Quote] + Emits(later))
    ensures EnteredAll(h, Ledger(b, None), Emits(prior) + [Init] + Emits(es) + [Quote] + Emits(later))
            == Ledger(Gain(h, b, NarrowedAll(es)), None)
  {
    var l := Ledger(b, None);
    var p, q := Emits(prior) + [Init], Emits(prior) + [Init] + Emits(es);
    EmitsOutside(h, b, prior);
    EmitsDisciplined(h, l, prior);
    Last(h, l, Emits(prior), Init);
    EmitsDisciplined(h, EnteredAll(h, l, p), es);
    Joint(h, l, p, Emits(es));
    EmitsInside(h, b, es);
    Last(h, l, q, Quote);
    EmitsDisciplined(h, EnteredAll(h, l, q + [Quote]), later);
    Joint(h, l, q + [Quote], Emits(later));
    EmitsOutside(h, Gain(h, b, NarrowedAll(es)), later);
  }

  lemma Joint(h: HashFunction, l: Ledger, cs: seq<Call>, ds: seq<Call>)
    requires Disciplined(h, l, cs) && Disciplined(h, EnteredAll(h, l, cs), ds)
    ensures Disciplined(h, l, cs + ds)
    ensures EnteredAll(h, l, cs + ds) == EnteredAll(h, EnteredAll(h, l, cs), ds)
  {
    DisciplinedConcat(h, l, cs, ds);
    EnteredConcat(h, l, cs, ds);
  }

  lemma Last(h: HashFunction, l: Ledger, cs: seq<Call>, c: Call)
    ensures EnteredAll(h, l, cs + [c]) == Entered(h, EnteredAll(h, l, cs), c)
    ensures Disciplined(h, l, cs) && Allowed(EnteredAll(h, l, cs), c) ==> Disciplined(h, l, cs + [c])
  {
    assert (cs + [c])[..|cs + [c]| - 1] == cs;
  }

  /** An event whose type does not fit can be measured as another: this one is no control event and is hashed. */
  lemma WideTypeIsHashed(e: Event)
    requires e.etype == HALF + CTRL
    ensures KindOf(e) == Other && Records([e]) == []
    ensures Records(NarrowedAll([e])) == Bytes64(e.a) + Bytes64(e.b)
  {
    var n := Narrowed(e);
    OneMore([], e);
    OneMore([], n);
    assert [] + [e] == [e] && [] + [n] == NarrowedAll([e]);
  }
}
