/**
 The lock-and-key scheme of the SoftBound/CETS runtime.

 Every allocation gets a new key and a lock, a memory cell that holds the key while the
 allocation lives. Freed heap locks form a list threaded through the cells themselves; stack
 locks are a stack. A pointer carries (lock, key), and a dereference checks `*lock == key`.
 */
module Temporal {

  const WORD: nat := 8
  /** Key 0 means not used and key 1 is for globals. */
  const FIRST_KEY: nat := 2

  datatype Handle = Handle(lock: nat, key: nat)

  /** The memory regions reserved at start-up, in bytes: where locks may lie. */
  datatype Layout = Layout(heapBase: nat, heapEnd: nat, stackBase: nat, stackEnd: nat, globalLock: nat)

  predicate Sound(l: Layout) {
    && 0 < l.heapBase <= l.heapEnd && 0 < l.stackBase <= l.stackEnd
    && (l.heapEnd <= l.stackBase || l.stackEnd <= l.heapBase)
    && !(l.heapBase <= l.globalLock < l.heapEnd) && !(l.stackBase <= l.globalLock < l.stackEnd)
  }

  /** The runtime's globals; memory that was never written reads 0. */
  datatype Space = Space(mem: map<nat, nat>, keyCounter: nat, lockNext: nat, lockNew: nat, stackSpace: nat)

  function Read(s: Space, a: nat): nat {
    if a in s.mem then s.mem[a] else 0
  }

  /** The check of a dereference. */
  predicate Check(s: Space, h: Handle) {
    Read(s, h.lock) == h.key
  }

  function Init(l: Layout): Space {
    Space(map[l.globalLock := 1], FIRST_KEY, 0, l.heapBase, l.stackBase)
  }

  // ---------- the operations, as functions of the state ----------

  function AllocLock(s: Space): (Space, nat) {
    if s.lockNext == 0 then (s.(lockNew := s.lockNew + WORD), s.lockNew)
    else (s.(lockNext := Read(s, s.lockNext)), s.lockNext)
  }

  function HeapAlloc(s: Space): (Space, Handle) {
    var (s1, lock) := AllocLock(s.(keyCounter := s.keyCounter + 1));
    (s1.(mem := s1.mem[lock := s.keyCounter]), Handle(lock, s.keyCounter))
  }

  function HeapFree(s: Space, lock: nat): Space {
    s.(mem := s.mem[lock := s.lockNext], lockNext := lock)
  }

  function StackAlloc(s: Space): (Space, Handle) {
    (s.(keyCounter := s.keyCounter + 1, stackSpace := s.stackSpace + WORD,
        mem := s.mem[s.stackSpace := s.keyCounter]),
     Handle(s.stackSpace, s.keyCounter))
  }

  function StackFree(s: Space): Space
    requires s.stackSpace >= WORD
  {
    s.(stackSpace := s.stackSpace - WORD, mem := s.mem[s.stackSpace - WORD := 0])
  }

  // ---------- the runtime ----------

  class Runtime {
    var mem: map<nat, nat>
    var keyIdCounter: nat
    var lockNextLocation: nat
    var lockNewLocation: nat
    var stackTemporalSpaceBegin: nat

    ghost function State(): Space
      reads this
    {
      Space(mem, keyIdCounter, lockNextLocation, lockNewLocation, stackTemporalSpaceBegin)
    }

    constructor (l: Layout)
      ensures State() == Init(l)
    {
      mem := map[l.globalLock := 1];
      keyIdCounter, lockNextLocation, lockNewLocation, stackTemporalSpaceBegin := FIRST_KEY, 0, l.heapBase, l.stackBase;
    }

    /** The word at an address. */
    method Fetch(a: nat) returns (w: nat)
      ensures w == Read(State(), a)
    {
      w := if a in mem then mem[a] else 0;
    }

    method AllocateLockLocation() returns (lock: nat)
      modifies this
      ensures (State(), lock) == AllocLock(old(State()))
    {
      if lockNextLocation == 0 {
        lock := lockNewLocation;
        lockNewLocation := lockNewLocation + WORD;
      } else {
        lock := lockNextLocation;
        lockNextLocation := Fetch(lockNextLocation);
      }
    }

    method MemoryAllocation() returns (h: Handle)
      modifies this
      ensures (State(), h) == HeapAlloc(old(State()))
    {
      var tempId := keyIdCounter;
      keyIdCounter := keyIdCounter + 1;
      var lock := AllocateLockLocation();
      mem := mem[lock := tempId];
      h := Handle(lock, tempId);
    }

    method MemoryDeallocation(ptrLock: nat)
      modifies this
      ensures State() == HeapFree(old(State()), ptrLock)
    {
      mem := mem[ptrLock := 0];
      mem := mem[ptrLock := lockNextLocation];
      lockNextLocation := ptrLock;
    }

    method StackMemoryAllocation() returns (h: Handle)
      modifies this
      ensures (State(), h) == StackAlloc(old(State()))
    {
      var tempId := keyIdCounter;
      keyIdCounter := keyIdCounter + 1;
      var lock := stackTemporalSpaceBegin;
      stackTemporalSpaceBegin := stackTemporalSpaceBegin + WORD;
      mem := mem[lock := tempId];
      h := Handle(lock, tempId);
    }

    method StackMemoryDeallocation()
      requires stackTemporalSpaceBegin >= WORD
      modifies this
      ensures State() == StackFree(old(State()))
    {
      stackTemporalSpaceBegin := stackTemporalSpaceBegin - WORD;
      mem := mem[stackTemporalSpaceBegin := 0];
    }

    /** Whether a dereference goes through; on a mismatch the program is aborted. */
    method DereferenceCheck(pointerLock: nat, key: nat) returns (passes: bool)
      ensures passes <==> Check(State(), Handle(pointerLock, key))
    {
      var temp := Fetch(pointerLock);
      passes := temp == key;
    }
  }

  // ---------- runs ----------

  /** A free names the handle it frees; a stack frees its newest. */
  datatype Op = AllocHeap | FreeHeap(h: Handle) | AllocStack | FreeStack

  /** A state with its history: heap locks handed out so far, the free list, what lives, and
      every handle ever issued. */
  datatype System = System(s: Space, cells: set<nat>, free: seq<nat>, heap: set<Handle>, stack: seq<Handle>,
                           issued: set<Handle>)

  function Start(l: Layout): System {
    System(Init(l), {}, [], {}, [], {})
  }

  /** Frees are of live handles, and an allocation finds room in its region. */
  predicate Enabled(l: Layout, y: System, op: Op) {
    match op
    case AllocHeap => y.s.lockNext != 0 || y.s.lockNew + WORD <= l.heapEnd
    case FreeHeap(h) => h in y.heap
    case AllocStack => y.s.stackSpace + WORD <= l.stackEnd
    case FreeStack => y.stack != [] && y.s.stackSpace >= WORD
  }

  function Step(l: Layout, y: System, op: Op): System
    requires Enabled(l, y, op)
  {
    match op
    case AllocHeap =>
      var (s, h) := HeapAlloc(y.s);
      System(s, y.cells + {h.lock}, if y.free == [] then [] else y.free[1..], y.heap + {h}, y.stack, y.issued + {h})
    case FreeHeap(h) =>
      y.(s := HeapFree(y.s, h.lock), free := [h.lock] + y.free, heap := y.heap - {h})
    case AllocStack =>
      var (s, h) := StackAlloc(y.s);
      y.(s := s, stack := y.stack + [h], issued := y.issued + {h})
    case FreeStack => y.(s := StackFree(y.s), stack := y.stack[..|y.stack| - 1])
  }

  ghost predicate Runs(l: Layout, y: System, ops: seq<Op>, z: System)
    decreases |ops|
  {
    if ops == [] then y == z
    else Enabled(l, y, ops[0]) && Runs(l, Step(l, y, ops[0]), ops[1..], z)
  }

  predicate Live(y: System, h: Handle) {
    h in y.heap || h in y.stack
  }

  // ---------- the invariant ----------

  function Link(free: seq<nat>, i: nat): nat
    requires i <= |free|
  {
    if i < |free| then free[i] else 0
  }

  /** The free list is threaded through its cells, and lists no cell twice. */
  ghost predicate FreeListOk(y: System) {
    && y.s.lockNext == Link(y.free, 0)
    && (forall i :: 0 <= i < |y.free| ==> y.free[i] in y.cells && Read(y.s, y.free[i]) == Link(y.free, i + 1))
    && (forall i, j :: 0 <= i < j < |y.free| ==> y.free[i] != y.free[j])
  }

  /** Live heap handles hold their locks alone; a lock is free or live, and never both. */
  ghost predicate HeapOk(l: Layout, y: System) {
    && l.heapBase <= y.s.lockNew <= l.heapEnd
    && (forall a :: a in y.cells ==> l.heapBase <= a < y.s.lockNew)
    && (forall h :: h in y.heap ==> h.lock in y.cells && h.lock !in y.free && Check(y.s, h) && h in y.issued)
    && (forall g, h :: g in y.heap && h in y.heap && g.lock == h.lock ==> g == h)
    && (forall a :: a in y.cells && a !in y.free ==> exists h :: h in y.heap && h.lock == a)
  }

  function Slot(l: Layout, i: nat): nat {
    l.stackBase + WORD * i
  }

  ghost predicate StackOk(l: Layout, y: System) {
    && y.s.stackSpace == Slot(l, |y.stack|) <= l.stackEnd
    && (forall i :: 0 <= i < |y.stack| ==>
          y.stack[i].lock == Slot(l, i) && Check(y.s, y.stack[i]) && y.stack[i] in y.issued)
    && (forall i: nat :: |y.stack| <= i && Slot(l, i) < l.stackEnd ==> Read(y.s, Slot(l, i)) == 0)
  }

  ghost predicate IsSlot(l: Layout, a: nat) {
    a < l.stackEnd && exists i :: 0 <= i && a == Slot(l, i)
  }

  /** No two handles share a key, and every handle's lock is a heap lock or a stack lock. */
  ghost predicate IssuedOk(l: Layout, y: System) {
    && y.s.keyCounter >= FIRST_KEY
    && (forall h :: h in y.issued ==> FIRST_KEY <= h.key < y.s.keyCounter)
    && (forall h :: h in y.issued ==> h.lock in y.cells || IsSlot(l, h.lock))
    && (forall g, h :: g in y.issued && h in y.issued && g.key == h.key ==> g == h)
    && Read(y.s, l.globalLock) == 1
  }

  ghost predicate Inv(l: Layout, y: System) {
    match y
    case System(_, _, _, _, _, _) => Sound(l) && FreeListOk(y) && HeapOk(l, y) && StackOk(l, y) && IssuedOk(l, y)
  }

  lemma StartInv(l: Layout)
    requires Sound(l)
    ensures Inv(l, Start(l))
  {
  }

  // ---------- every operation keeps it ----------

  lemma AllocHeapList(l: Layout, y: System)
    requires Inv(l, y) && Enabled(l, y, AllocHeap)
    ensures FreeListOk(Step(l, y, AllocHeap))
  {
    var z, h := Step(l, y, AllocHeap), HeapAlloc(y.s).1;
    assert forall a :: a != h.lock ==> Read(z.s, a) == Read(y.s, a);
    if y.free != [] {
      assert h.lock == y.free[0] && z.s.lockNext == Link(y.free, 1);
      assert forall i :: 0 <= i < |z.free| ==> z.free[i] == y.free[i + 1];
    }
  }

  lemma AllocHeapCells(l: Layout, y: System)
    requires Inv(l, y) && Enabled(l, y, AllocHeap)
    ensures HeapOk(l, Step(l, y, AllocHeap))
  {
    var z, h := Step(l, y, AllocHeap), HeapAlloc(y.s).1;
    assert forall a :: a != h.lock ==> Read(z.s, a) == Read(y.s, a);
    assert h.lock !in z.free && forall a :: a in y.free <==> a in z.free || (y.free != [] && a == h.lock);
    assert forall g :: g in y.heap ==> g.lock != h.lock;
    assert h in z.heap;
  }

  lemma AllocHeapOthers(l: Layout, y: System)
    requires Inv(l, y) && Enabled(l, y, AllocHeap)
    ensures StackOk(l, Step(l, y, AllocHeap)) && IssuedOk(l, Step(l, y, AllocHeap))
  {
    var z, h := Step(l, y, AllocHeap), HeapAlloc(y.s).1;
    assert y.free != [] ==> h.lock == y.free[0];
    assert forall a :: a != h.lock ==> Read(z.s, a) == Read(y.s, a);
  }

  lemma FreeHeapList(l: Layout, y: System, h: Handle)
    requires FreeListOk(y) && HeapOk(l, y) && h in y.heap
    ensures FreeListOk(Step(l, y, FreeHeap(h)))
  {
    var z := Step(l, y, FreeHeap(h));
    assert forall a :: a != h.lock ==> Read(z.s, a) == Read(y.s, a);
    assert z.free[0] == h.lock && forall i :: 0 < i < |z.free| ==> z.free[i] == y.free[i - 1];
  }

  lemma FreeHeapCells(l: Layout, y: System, h: Handle)
    requires HeapOk(l, y) && h in y.heap
    ensures HeapOk(l, Step(l, y, FreeHeap(h)))
  {
    var z := Step(l, y, FreeHeap(h));
    assert forall a :: a != h.lock ==> Read(z.s, a) == Read(y.s, a);
    assert z.free[0] == h.lock && forall i :: 0 < i < |z.free| ==> z.free[i] == y.free[i - 1];
    assert forall a :: a in z.free <==> a == h.lock || a in y.free;
  }

  lemma FreeHeapOthers(l: Layout, y: System, h: Handle)
    requires Inv(l, y) && Enabled(l, y, FreeHeap(h))
    ensures StackOk(l, Step(l, y, FreeHeap(h))) && IssuedOk(l, Step(l, y, FreeHeap(h)))
  {
    var z := Step(l, y, FreeHeap(h));
    assert forall a :: a != h.lock ==> Read(z.s, a) == Read(y.s, a);
  }

  lemma AllocStackStack(l: Layout, y: System)
    requires StackOk(l, y) && Enabled(l, y, AllocStack)
    ensures StackOk(l, Step(l, y, AllocStack))
  {
    var z, a := Step(l, y, AllocStack), Slot(l, |y.stack|);
    assert forall b :: b != a ==> Read(z.s, b) == Read(y.s, b);
    assert forall i: nat :: Slot(l, i) == a ==> i == |y.stack|;
  }

  lemma AllocStackOthers(l: Layout, y: System)
    requires Inv(l, y) && Enabled(l, y, AllocStack)
    ensures var z := Step(l, y, AllocStack); FreeListOk(z) && HeapOk(l, z) && IssuedOk(l, z)
  {
    var z, a := Step(l, y, AllocStack), Slot(l, |y.stack|);
    assert forall b :: b != a ==> Read(z.s, b) == Read(y.s, b);
    assert IsSlot(l, a);
  }

  lemma FreeStackStack(l: Layout, y: System)
    requires StackOk(l, y) && Enabled(l, y, FreeStack)
    ensures StackOk(l, Step(l, y, FreeStack))
  {
    var z, k := Step(l, y, FreeStack), |y.stack| - 1;
    forall i | 0 <= i < k
      ensures Check(z.s, y.stack[i])
    {
      assert Check(y.s, y.stack[i]) && Slot(l, i) != Slot(l, k);
    }
    forall i: nat | k <= i && Slot(l, i) < l.stackEnd
      ensures Read(z.s, Slot(l, i)) == 0
    {
      if i > k {
        assert Read(y.s, Slot(l, i)) == 0;
      }
    }
  }

  lemma FreeStackOthers(l: Layout, y: System)
    requires Inv(l, y) && Enabled(l, y, FreeStack)
    ensures var z := Step(l, y, FreeStack); FreeListOk(z) && HeapOk(l, z) && IssuedOk(l, z)
  {
    var z, a := Step(l, y, FreeStack), Slot(l, |y.stack| - 1);
    assert forall b :: b != a ==> Read(z.s, b) == Read(y.s, b);
  }

  lemma StepInv(l: Layout, y: System, op: Op)
    requires Inv(l, y) && Enabled(l, y, op)
    ensures Inv(l, Step(l, y, op))
  {
    match op
    case AllocHeap => AllocHeapList(l, y); AllocHeapCells(l, y); AllocHeapOthers(l, y);
    case FreeHeap(h) => FreeHeapList(l, y, h); FreeHeapCells(l, y, h); FreeHeapOthers(l, y, h);
    case AllocStack => AllocStackStack(l, y); AllocStackOthers(l, y);
    case FreeStack => FreeStackStack(l, y); FreeStackOthers(l, y);
  }

  lemma {:induction false} RunsInv(l: Layout, y: System, ops: seq<Op>, z: System)
    requires Inv(l, y) && Runs(l, y, ops, z)
    ensures Inv(l, z)
    decreases |ops|
  {
    if ops != [] {
      StepInv(l, y, ops[0]);
      RunsInv(l, Step(l, y, ops[0]), ops[1..], z);
    }
  }

  /** A new heap handle is new, and takes the next key. */
  lemma NewHandle(l: Layout, y: System)
    requires Inv(l, y) && Enabled(l, y, AllocHeap)
    ensures HeapAlloc(y.s).1 !in y.heap && HeapAlloc(y.s).1.key == y.s.keyCounter
    ensures Step(l, y, AllocHeap).heap == y.heap + {HeapAlloc(y.s).1}
  {
  }

  // ---------- main results ----------

  /** In a reachable state with keys below the lock addresses, the check tells exactly what lives. */
  lemma CheckIsExact(l: Layout, y: System, h: Handle)
    requires Inv(l, y) && y.s.keyCounter <= l.heapBase && h in y.issued
    ensures Check(y.s, h) <==> Live(y, h)
  {
    if h.lock in y.cells {
      if h.lock in y.free {
        var i :| 0 <= i < |y.free| && y.free[i] == h.lock;
      } else {
        var g :| g in y.heap && g.lock == h.lock;
      }
    } else {
      var i :| 0 <= i && h.lock == Slot(l, i);
      if i < |y.stack| {
        assert y.stack[i].lock == h.lock;
      }
    }
    if h in y.stack {
      var i :| 0 <= i < |y.stack| && y.stack[i] == h;
    }
  }

  /**
   Temporal safety over whole runs. Whatever sequence of heap and stack allocations and frees
   has happened, with lock cells reused in any way, the check passes for a handle exactly when
   the handle still lives; and a global's check always passes. It needs the keys to stay below
   the addresses of the lock region, so that no free-list link can look like a key.
   */
  lemma TemporalSafety(l: Layout, ops: seq<Op>, y: System)
    requires Sound(l) && Runs(l, Start(l), ops, y) && y.s.keyCounter <= l.heapBase
    ensures forall h :: h in y.issued ==> (Check(y.s, h) <==> Live(y, h))
    ensures Check(y.s, Handle(l.globalLock, 1))
  {
    StartInv(l);
    RunsInv(l, Start(l), ops, y);
    forall h | h in y.issued
      ensures Check(y.s, h) <==> Live(y, h)
    {
      CheckIsExact(l, y, h);
    }
  }

  /**
   What a free does to every check. A handle of the freed lock passes afterwards exactly when its key is
   the link stored there, and all others pass as before; so, while keys stay below the lock addresses,
   the handle freed is the only one whose check changes.
   */
  lemma FreedCheck(l: Layout, y: System, h: Handle, g: Handle)
    requires Inv(l, y) && h in y.heap && g in y.issued
    ensures var z := Step(l, y, FreeHeap(h));
      && (Check(z.s, g) <==> if g.lock == h.lock then y.s.lockNext == g.key else Check(y.s, g))
      && (y.s.keyCounter <= l.heapBase ==> (Check(z.s, g) <==> Check(y.s, g) && g != h))
  {
    assert Link(y.free, 0) == 0 || Link(y.free, 0) in y.cells;
  }

  // ---------- the bound on the keys is sharp ----------

  lemma {:induction false} RunsAppend(l: Layout, x: System, a: seq<Op>, y: System, b: seq<Op>, z: System)
    requires Runs(l, x, a, y) && Runs(l, y, b, z)
    ensures Runs(l, x, a + b, z)
    decreases |a|
  {
    if a == [] {
      assert a + b == b;
    } else {
      RunsAppend(l, Step(l, x, a[0]), a[1..], y, b, z);
      assert (a + b)[1..] == a[1..] + b;
    }
  }

  /** Stack allocations can use up keys without any other effect that lasts. */
  lemma {:induction false} UseKeys(l: Layout, y: System, n: nat) returns (ops: seq<Op>, z: System)
    requires Inv(l, y) && y.stack == [] && l.stackBase + WORD <= l.stackEnd
    ensures Runs(l, y, ops, z) && Inv(l, z)
    ensures z.s.keyCounter == y.s.keyCounter + n && z.stack == []
    ensures z.cells == y.cells && z.free == y.free && z.heap == y.heap && z.s.lockNext == y.s.lockNext
    decreases n
  {
    if n == 0 {
      return [], y;
    }
    assert Slot(l, 0) == l.stackBase;
    StepInv(l, y, AllocStack);
    var y1 := Step(l, y, AllocStack);
    StepInv(l, y1, FreeStack);
    var y2 := Step(l, y1, FreeStack);
    var rest;
    rest, z := UseKeys(l, y2, n - 1);
    ops := [AllocStack, FreeStack] + rest;
    assert ops[1..][0] == FreeStack && ops[1..][1..] == rest;
    assert Runs(l, y1, ops[1..], z);
  }

  lemma RunsOne(l: Layout, x: System, a: seq<Op>, y: System, op: Op)
    requires Runs(l, x, a, y) && Enabled(l, y, op)
    ensures Runs(l, x, a + [op], Step(l, y, op))
  {
    assert [op][1..] == [];
    RunsAppend(l, x, a, y, [op], Step(l, y, op));
  }

  /** Two heap allocations at the start take the first two locks. */
  lemma TwoAllocs(l: Layout) returns (ops: seq<Op>, y: System)
    requires Sound(l) && l.heapBase + 2 * WORD <= l.heapEnd
    ensures Runs(l, Start(l), ops, y) && Inv(l, y) && y.s.keyCounter == 4 && y.stack == [] && y.free == []
    ensures y.heap == {Handle(l.heapBase, 2), Handle(l.heapBase + WORD, 3)}
  {
    StartInv(l);
    var y1 := Step(l, Start(l), AllocHeap);
    RunsOne(l, Start(l), [], Start(l), AllocHeap);
    StepInv(l, Start(l), AllocHeap);
    y := Step(l, y1, AllocHeap);
    StepInv(l, y1, AllocHeap);
    ops := [] + [AllocHeap] + [AllocHeap];
    RunsOne(l, Start(l), [] + [AllocHeap], y1, AllocHeap);
  }

  /**
   One key more, and safety is lost: in every layout with room for two heap locks and a stack
   lock there is a run that issues the key `heapBase` and ends with a dead handle that passes.
   */
  lemma KeyBoundIsSharp(l: Layout) returns (ops: seq<Op>, y: System, h: Handle)
    requires Sound(l) && l.heapBase >= 4 && l.heapBase + 2 * WORD <= l.heapEnd && l.stackBase + WORD <= l.stackEnd
    ensures Runs(l, Start(l), ops, y) && y.s.keyCounter == l.heapBase + 1
    ensures h in y.issued && Check(y.s, h) && !Live(y, h)
  {
    var first, y2 := TwoAllocs(l);
    var mid, y3 := UseKeys(l, y2, l.heapBase - 4);
    RunsAppend(l, Start(l), first, y2, mid, y3);
    ops, y, h := Collision(l, first + mid, y3);
  }

  /** Both handles are freed, and the second lock, whose link is `heapBase`, is issued with that key and freed. */
  lemma Collision(l: Layout, prior: seq<Op>, y3: System) returns (ops: seq<Op>, y: System, h: Handle)
    requires Runs(l, Start(l), prior, y3) && Inv(l, y3) && y3.s.keyCounter == l.heapBase
    requires y3.heap == {Handle(l.heapBase, 2), Handle(l.heapBase + WORD, 3)} && y3.free == []
    ensures Runs(l, Start(l), ops, y) && y.s.keyCounter == l.heapBase + 1
    ensures h in y.issued && Check(y.s, h) && !Live(y, h)
  {
    var a, b := Handle(l.heapBase, 2), Handle(l.heapBase + WORD, 3);
    ops := prior;
    var y4 := Step(l, y3, FreeHeap(a));
    RunsOne(l, Start(l), ops, y3, FreeHeap(a));
    ops := ops + [FreeHeap(a)];
    var y5 := Step(l, y4, FreeHeap(b));
    RunsOne(l, Start(l), ops, y4, FreeHeap(b));
    ops := ops + [FreeHeap(b)];
    h := Handle(b.lock, l.heapBase);
    var y6 := Step(l, y5, AllocHeap);
    RunsOne(l, Start(l), ops, y5, AllocHeap);
    ops := ops + [AllocHeap];
    assert h in y6.heap && y6.heap == {h};
    y := Step(l, y6, FreeHeap(h));
    RunsOne(l, Start(l), ops, y6, FreeHeap(h));
    ops := ops + [FreeHeap(h)];
  }
}
