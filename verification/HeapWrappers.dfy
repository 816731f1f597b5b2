/**
 malloc, realloc and free as clients of the lock allocator and of the free map.

 The pointers come from the C library and are parameters here; 0 is a call that failed. A free, or a
 realloc that moves the block, uses the lock and key that the caller holds for the pointer.
 */
module HeapWrappers {
  import opened Common
  import T = Temporal
  import F = FreeMap

  class Wrappers {
    const runtime: T.Runtime
    const freeMap: F.FreeMapTable

    ghost predicate Valid()
      reads this, freeMap
    {
      freeMap.Valid()
    }

    constructor (l: T.Layout, n: nat)
      requires n > 0
      ensures Valid() && fresh(runtime) && fresh(freeMap) && fresh(freeMap.table)
      ensures runtime.State() == T.Init(l) && freeMap.Contents() == F.Fresh(n).t
    {
      runtime := new T.Runtime(l);
      freeMap := new F.FreeMapTable(n);
    }

    /** `ptr` is what the C library returned; `None` is a null pointer passed on or an abort. */
    method Malloc(ptr: nat) returns (h: Option<T.Handle>)
      requires Valid()
      modifies runtime, freeMap.table
      ensures Valid() && freeMap.table == old(freeMap.table)
      ensures ptr == 0 ==>
        h == None && runtime.State() == old(runtime.State()) && freeMap.Contents() == old(freeMap.Contents())
      ensures ptr != 0 ==>
        var (s, g) := T.HeapAlloc(old(runtime.State()));
        var o := F.Add(old(freeMap.Contents()), g.key, ptr);
        && runtime.State() == s && h == (if o.Some? then Some(g) else None)
        && freeMap.Contents() == if o.Some? then o.value else old(freeMap.Contents())
    {
      if ptr == 0 {
        return None;
      }
      var g := runtime.MemoryAllocation();
      var ok, _ := freeMap.AddToFreeMap(g.key, ptr);
      h := if ok then Some(g) else None;
    }

    method Free(ptr: nat, h: T.Handle) returns (ok: bool)
      requires Valid()
      modifies runtime, freeMap.table
      ensures Valid() && freeMap.table == old(freeMap.table)
      ensures ptr == 0 ==>
        ok && runtime.State() == old(runtime.State()) && freeMap.Contents() == old(freeMap.Contents())
      ensures ptr != 0 ==>
        var o := F.Remove(old(freeMap.Contents()), h.key, ptr);
        && runtime.State() == T.HeapFree(old(runtime.State()), h.lock) && ok == o.Some?
        && freeMap.Contents() == if ok then o.value else old(freeMap.Contents())
    {
      if ptr == 0 {
        return true;
      }
      runtime.MemoryDeallocation(h.lock);
      ghost var probes;
      ok, probes := freeMap.CheckRemoveFromFreeMap(h.key, ptr);
    }

    /**
     The block keeps its lock and key. When the C library returns another pointer, null included, the
     old one is removed from the free map first, and the other is added then.
     */
    method Realloc(ptr: nat, ret: nat, h: T.Handle) returns (ok: bool)
      requires Valid()
      modifies freeMap.table
      ensures Valid() && freeMap.table == old(freeMap.table)
      ensures ptr == ret ==> ok && freeMap.Contents() == old(freeMap.Contents())
      ensures ptr != ret ==>
        var o := F.Remove(old(freeMap.Contents()), h.key, ptr);
        if o.None? then !ok && freeMap.Contents() == old(freeMap.Contents())
        else
          var a := F.Add(o.value, h.key, ret);
          ok == a.Some? && freeMap.Contents() == if ok then a.value else o.value
    {
      if ptr == ret {
        return true;
      }
      ghost var probes;
      ok, probes := freeMap.CheckRemoveFromFreeMap(h.key, ptr);
      if ok {
        ok, probes := freeMap.AddToFreeMap(h.key, ret);
      }
    }
  }

  // ---------- runs of a program that frees only what it holds ----------

  datatype Op = Malloc(ptr: nat) | Free(ptr: nat) | Realloc(ptr: nat, ret: nat) | Enter | Leave

  /** Both data structures, and the handle of each live block. */
  datatype World = World(y: T.System, b: F.Book, owner: map<nat, T.Handle>)

  function Begin(l: T.Layout, n: nat): World
    requires n > 0
  {
    World(T.Start(l), F.Fresh(n), map[])
  }

  /** What the C library may return: null, or a real pointer that no live block has. */
  predicate New(w: World, ptr: nat) {
    ptr == 0 || (!F.Vacant(ptr) && ptr !in w.owner)
  }

  /** The program frees and reallocates null or blocks that it holds, as C allows; the lock regions have room. */
  predicate Legal(l: T.Layout, w: World, op: Op) {
    match op
    case Malloc(ptr) => New(w, ptr) && (ptr != 0 ==> T.Enabled(l, w.y, T.AllocHeap))
    case Free(ptr) => ptr == 0 || ptr in w.owner
    case Realloc(ptr, ret) => (ptr == 0 || ptr in w.owner) && (ret == ptr || New(w, ret))
    case Enter => T.Enabled(l, w.y, T.AllocStack)
    case Leave => T.Enabled(l, w.y, T.FreeStack)
  }

  /** The key that comes with a pointer; that of a null pointer does not matter. */
  function KeyOf(w: World, ptr: nat): nat {
    if ptr in w.owner then w.owner[ptr].key else 0
  }

  /** The next world, or `None` when the runtime aborts. */
  function Apply(l: T.Layout, w: World, op: Op): Option<World>
    requires Inv(l, w) && Legal(l, w, op)
  {
    match op
    case Malloc(ptr) =>
      if ptr == 0 then Some(w)
      else
        var h := T.HeapAlloc(w.y.s).1;
        var o := F.Apply(w.b, F.AddOp(h.key, ptr));
        if o.Some? then Some(World(T.Step(l, w.y, T.AllocHeap), o.value, w.owner[ptr := h])) else None
    case Free(ptr) =>
      if ptr == 0 then Some(w)
      else
        var h := w.owner[ptr];
        var o := F.Apply(w.b, F.RemoveOp(h.key, ptr));
        if o.Some? then Some(World(T.Step(l, w.y, T.FreeHeap(h)), o.value, w.owner - {ptr})) else None
    case Realloc(ptr, ret) =>
      if ptr == ret then Some(w)
      else
        var o := F.Replace(w.b, KeyOf(w, ptr), ptr, ret);
        if o.Some? && ptr in w.owner then Some(w.(b := o.value, owner := (w.owner - {ptr})[ret := w.owner[ptr]]))
        else None
    case Enter => Some(w.(y := T.Step(l, w.y, T.AllocStack)))
    case Leave => Some(w.(y := T.Step(l, w.y, T.FreeStack)))
  }

  /** What ends a legal program: a full free map, and a realloc from null or to null. */
  predicate Aborts(w: World, op: Op) {
    match op
    case Malloc(ptr) => ptr != 0 && |w.owner| >= |w.b.t|
    case Realloc(ptr, ret) => ptr != ret && (ptr == 0 || ret == 0)
    case _ => false
  }

  /**
   The free map lists the live blocks, each under its key; each has its own live handle, and every live
   heap handle is that of a block.
   */
  ghost predicate Linked(live: map<nat, nat>, heap: set<T.Handle>, owner: map<nat, T.Handle>) {
    && live.Keys == owner.Keys
    && (forall p :: p in owner ==> owner[p] in heap && live[p] == owner[p].key)
    && (forall p, q :: p in owner && q in owner && owner[p] == owner[q] ==> p == q)
    && (forall h :: h in heap ==> Owned(owner, h))
  }

  ghost predicate Owned(owner: map<nat, T.Handle>, h: T.Handle) {
    exists p :: p in owner && owner[p] == h
  }

  ghost predicate Inv(l: T.Layout, w: World) {
    match w
    case World(y, b, owner) => T.Inv(l, y) && F.Inv(b) && Linked(b.live, y.heap, owner)
  }

  lemma LinkNew(live: map<nat, nat>, heap: set<T.Handle>, owner: map<nat, T.Handle>, ptr: nat, h: T.Handle)
    requires Linked(live, heap, owner) && ptr !in owner && h !in heap
    ensures Linked(live[ptr := h.key], heap + {h}, owner[ptr := h])
  {
    var owner' := owner[ptr := h];
    assert owner'[ptr] == h;
    forall g | g in heap
      ensures Owned(owner', g)
    {
      var p :| p in owner && owner[p] == g;
      assert owner'[p] == g;
    }
  }

  lemma LinkGone(live: map<nat, nat>, heap: set<T.Handle>, owner: map<nat, T.Handle>, ptr: nat)
    requires Linked(live, heap, owner) && ptr in owner
    ensures Linked(live - {ptr}, heap - {owner[ptr]}, owner - {ptr})
  {
    var owner' := owner - {ptr};
    forall g | g in heap && g != owner[ptr]
      ensures Owned(owner', g)
    {
      var p :| p in owner && owner[p] == g;
      assert owner'[p] == g;
    }
  }

  lemma LinkMoved(live: map<nat, nat>, heap: set<T.Handle>, owner: map<nat, T.Handle>, ptr: nat, ret: nat)
    requires Linked(live, heap, owner) && ptr in owner && ret !in owner
    ensures Linked((live - {ptr})[ret := owner[ptr].key], heap, (owner - {ptr})[ret := owner[ptr]])
  {
    var owner' := (owner - {ptr})[ret := owner[ptr]];
    assert owner'[ret] == owner[ptr];
    forall g | g in heap
      ensures Owned(owner', g)
    {
      var p :| p in owner && owner[p] == g;
      assert p != ptr ==> owner'[p] == g;
    }
  }

  /** As many blocks live as the free map lists. */
  lemma SameSize(live: map<nat, nat>, owner: map<nat, T.Handle>)
    requires live.Keys == owner.Keys
    ensures |live| == |owner|
  {
    assert |live.Keys| == |owner.Keys|;
  }

  /** What a step has to keep, and when it aborts. */
  ghost predicate Kept(l: T.Layout, w: World, op: Op)
    requires Inv(l, w) && Legal(l, w, op)
  {
    var o := Apply(l, w, op);
    (o.Some? <==> !Aborts(w, op)) && (o.Some? ==> Inv(l, o.value) && |o.value.b.t| == |w.b.t|)
  }

  lemma MallocKeeps(l: T.Layout, w: World, ptr: nat)
    requires Inv(l, w) && Legal(l, w, Malloc(ptr))
    ensures Kept(l, w, Malloc(ptr))
  {
    if ptr != 0 {
      var h := T.HeapAlloc(w.y.s).1;
      SameSize(w.b.live, w.owner);
      F.AddSucceeds(w.b, h.key, ptr);
      if |w.owner| < |w.b.t| {
        T.NewHandle(l, w.y);
        LinkNew(w.b.live, w.y.heap, w.owner, ptr, h);
        F.AddKeeps(w.b, h.key, ptr);
        T.StepInv(l, w.y, T.AllocHeap);
      }
    }
  }

  lemma FreeKeeps(l: T.Layout, w: World, ptr: nat)
    requires Inv(l, w) && Legal(l, w, Free(ptr))
    ensures Kept(l, w, Free(ptr))
  {
    if ptr != 0 {
      F.RemoveKeeps(w.b, w.owner[ptr].key, ptr);
      T.StepInv(l, w.y, T.FreeHeap(w.owner[ptr]));
      LinkGone(w.b.live, w.y.heap, w.owner, ptr);
    }
  }

  /** A block that moves keeps its lock and key, and the free map lists it in its new place. */
  lemma MoveKeeps(l: T.Layout, w: World, ptr: nat, ret: nat)
    requires Inv(l, w) && Legal(l, w, Realloc(ptr, ret)) && ptr != ret && ptr != 0 && ret != 0
    ensures Kept(l, w, Realloc(ptr, ret))
  {
    F.ReplaceKeeps(w.b, w.owner[ptr].key, ptr, ret);
    LinkMoved(w.b.live, w.y.heap, w.owner, ptr, ret);
  }

  lemma ReallocKeeps(l: T.Layout, w: World, ptr: nat, ret: nat)
    requires Inv(l, w) && Legal(l, w, Realloc(ptr, ret))
    ensures Kept(l, w, Realloc(ptr, ret))
  {
    if ptr != ret && ptr != 0 && ret != 0 {
      MoveKeeps(l, w, ptr, ret);
    } else if ptr != ret {
      NullRefused(w.b, KeyOf(w, ptr), ptr, ret);
    }
  }

  /** The free map never lists null, and is never given it. */
  lemma NullRefused(b: F.Book, key: nat, ptr: nat, ret: nat)
    requires ptr == 0 || ret == 0
    ensures F.Replace(b, key, ptr, ret) == None
  {
    F.RemoveSucceeds(b.t, key, ptr);
  }

  lemma StepKeeps(l: T.Layout, w: World, op: Op)
    requires Inv(l, w) && Legal(l, w, op)
    ensures Kept(l, w, op)
  {
    match op
    case Malloc(ptr) => MallocKeeps(l, w, ptr);
    case Free(ptr) => FreeKeeps(l, w, ptr);
    case Realloc(ptr, ret) => ReallocKeeps(l, w, ptr, ret);
    case Enter => T.StepInv(l, w.y, T.AllocStack);
    case Leave => T.StepInv(l, w.y, T.FreeStack);
  }

  /** The world after a step that does not abort. */
  ghost function Next(l: T.Layout, w: World, op: Op): (z: World)
    requires Inv(l, w) && Legal(l, w, op) && Apply(l, w, op).Some?
    ensures Apply(l, w, op) == Some(z) && Inv(l, z) && |z.b.t| == |w.b.t|
  {
    StepKeeps(l, w, op);
    Apply(l, w, op).value
  }

  /** From `w`, the operations are legal each when its turn comes, none aborts, and they lead to `z`. */
  ghost predicate Runs(l: T.Layout, w: World, ops: seq<Op>, z: World)
    requires Inv(l, w)
    decreases |ops|
  {
    if ops == [] then z == w
    else Legal(l, w, ops[0]) && Apply(l, w, ops[0]).Some? && Runs(l, Next(l, w, ops[0]), ops[1..], z)
  }

  lemma {:induction false} RunsKeep(l: T.Layout, w: World, ops: seq<Op>, z: World)
    requires Inv(l, w) && Runs(l, w, ops, z)
    ensures Inv(l, z) && |z.b.t| == |w.b.t|
    decreases |ops|
  {
    if ops != [] {
      RunsKeep(l, Next(l, w, ops[0]), ops[1..], z);
    }
  }

  /** Every operation is legal when its turn comes, as far as the runtime lets the program go. */
  ghost predicate LegalRun(l: T.Layout, w: World, ops: seq<Op>)
    requires Inv(l, w)
    decreases |ops|
  {
    ops == [] ||
    (Legal(l, w, ops[0]) && (Apply(l, w, ops[0]).Some? ==> LegalRun(l, Next(l, w, ops[0]), ops[1..])))
  }

  /** The runtime lets the program go to its end. */
  ghost predicate Finishes(l: T.Layout, w: World, ops: seq<Op>)
    requires Inv(l, w) && LegalRun(l, w, ops)
    decreases |ops|
  {
    ops == [] || (Apply(l, w, ops[0]).Some? && Finishes(l, Next(l, w, ops[0]), ops[1..]))
  }

  /** The `k` operations before this one lead to a world in which this one aborts. */
  ghost predicate AbortsAt(l: T.Layout, w: World, ops: seq<Op>, k: nat)
    requires Inv(l, w)
  {
    k < |ops| && exists z :: Runs(l, w, ops[..k], z) && Aborts(z, ops[k])
  }

  lemma AbortsAtOnce(l: T.Layout, w: World, ops: seq<Op>)
    requires Inv(l, w) && ops != [] && Legal(l, w, ops[0])
    ensures AbortsAt(l, w, ops, 0) <==> Apply(l, w, ops[0]).None?
  {
    StepKeeps(l, w, ops[0]);
    assert ops[..0] == [];
    assert Runs(l, w, ops[..0], w);
  }

  lemma AbortsLater(l: T.Layout, w: World, ops: seq<Op>, k: nat)
    requires Inv(l, w) && ops != [] && Legal(l, w, ops[0]) && Apply(l, w, ops[0]).Some?
    ensures AbortsAt(l, w, ops, k + 1) <==> AbortsAt(l, Next(l, w, ops[0]), ops[1..], k)
  {
    if k + 1 < |ops| {
      assert ops[..k + 1][1..] == ops[1..][..k];
      assert forall z :: Runs(l, w, ops[..k + 1], z) <==> Runs(l, Next(l, w, ops[0]), ops[1..][..k], z);
    }
  }

  /**
   When a legal program is aborted, exactly: when it comes to an allocation with the free map full, to a
   realloc of a null pointer, or to a realloc that the C library refuses.
   */
  lemma {:induction false} AbortsExactly(l: T.Layout, w: World, ops: seq<Op>)
    requires Inv(l, w) && LegalRun(l, w, ops)
    ensures !Finishes(l, w, ops) <==> exists k :: AbortsAt(l, w, ops, k)
    decreases |ops|
  {
    if ops != [] {
      if Apply(l, w, ops[0]).Some? {
        AbortsExactly(l, Next(l, w, ops[0]), ops[1..]);
        if k: nat :| AbortsAt(l, Next(l, w, ops[0]), ops[1..], k) {
          AbortsLater(l, w, ops, k);
        }
        if k: nat :| AbortsAt(l, w, ops, k) {
          AbortsAtOnce(l, w, ops);
          AbortsLater(l, w, ops, k - 1);
        }
      } else {
        AbortsAtOnce(l, w, ops);
      }
    }
  }

  /**
   What holds after any run of a program that frees and reallocates only blocks that it holds: the check
   of every held block passes, and while keys stay below the lock addresses, the check of a handle passes
   only if a held block or a stack frame has it.
   */
  lemma HeapDiscipline(l: T.Layout, n: nat, ops: seq<Op>, z: World)
    requires T.Sound(l) && n > 0 && (BeginKeeps(l, n); Runs(l, Begin(l, n), ops, z))
    ensures Inv(l, z)
    ensures forall p :: p in z.owner ==> T.Check(z.y.s, z.owner[p])
    ensures z.y.s.keyCounter <= l.heapBase ==>
      forall h :: h in z.y.issued ==>
        (T.Check(z.y.s, h) <==> (exists p :: p in z.owner && z.owner[p] == h) || h in z.y.stack)
  {
    BeginKeeps(l, n);
    RunsKeep(l, Begin(l, n), ops, z);
    if z.y.s.keyCounter <= l.heapBase {
      forall h | h in z.y.issued
        ensures T.Check(z.y.s, h) <==> Owned(z.owner, h) || h in z.y.stack
      {
        T.CheckIsExact(l, z.y, h);
      }
    }
  }

  lemma BeginKeeps(l: T.Layout, n: nat)
    requires T.Sound(l) && n > 0
    ensures Inv(l, Begin(l, n))
  {
    T.StartInv(l);
    F.FreshInv(n);
  }

  // ---------- what aborts although C allows it ----------

  /** The first block of a program. */
  lemma FirstBlock(l: T.Layout, n: nat)
    requires T.Sound(l) && n > 0 && l.heapBase + T.WORD <= l.heapEnd
    ensures Inv(l, Begin(l, n)) && Legal(l, Begin(l, n), Malloc(16)) && Apply(l, Begin(l, n), Malloc(16)).Some?
    ensures 16 in Next(l, Begin(l, n), Malloc(16)).owner
  {
    BeginKeeps(l, n);
    StepKeeps(l, Begin(l, n), Malloc(16));
  }

  /** The C library cannot enlarge a block: the program should go on with a null pointer, and is aborted. */
  lemma FailedReallocAborts(l: T.Layout, n: nat)
    requires T.Sound(l) && n > 0 && l.heapBase + T.WORD <= l.heapEnd
    ensures Inv(l, Begin(l, n)) && LegalRun(l, Begin(l, n), [Malloc(16), Realloc(16, 0)])
    ensures !Finishes(l, Begin(l, n), [Malloc(16), Realloc(16, 0)])
  {
    FirstBlock(l, n);
    var ops := [Malloc(16), Realloc(16, 0)];
    assert ops[1..] == [Realloc(16, 0)] && ops[1..][1..] == [];
    StepKeeps(l, Next(l, Begin(l, n), ops[0]), Realloc(16, 0));
  }

  /** A realloc of a null pointer, which is to allocate, is aborted whatever it returns. */
  lemma ReallocNullAborts(l: T.Layout, w: World, ret: nat)
    requires Inv(l, w) && ret != 0 && New(w, ret)
    ensures Legal(l, w, Realloc(0, ret)) && Apply(l, w, Realloc(0, ret)) == None
    ensures forall key :: F.Remove(w.b.t, key, 0) == None
  {
    forall key: nat
      ensures F.Remove(w.b.t, key, 0) == None
    {
      F.RemoveSucceeds(w.b.t, key, 0);
    }
  }

  // ---------- a dead handle whose address lives again ----------

  /**
   Freeing with a heap handle `h` that is dead, a pointer that lives under another handle. The free map
   aborts unless the pointer is met on the dead key's own path before a slot that was never used. The
   lock has been given back by then: afterwards a live block passes its check, while keys stay below the
   lock addresses, exactly if its lock is another one.
   */
  lemma StaleFree(l: T.Layout, w: World, h: T.Handle, ptr: nat)
    requires Inv(l, w) && h in w.y.issued && h.lock in w.y.cells && h !in w.y.heap && ptr in w.owner
    ensures F.Remove(w.b.t, h.key, ptr).Some? <==> exists d :: 0 <= d <= |w.b.t| && F.Met(w.b.t, h.key, ptr, d)
    ensures w.y.s.keyCounter <= l.heapBase ==>
      forall g :: g in w.y.heap ==> (T.Check(T.HeapFree(w.y.s, h.lock), g) <==> g.lock != h.lock)
  {
    F.RemoveSucceeds(w.b.t, h.key, ptr);
    if w.y.s.keyCounter <= l.heapBase {
      forall g | g in w.y.heap
        ensures T.Check(T.HeapFree(w.y.s, h.lock), g) <==> g.lock != h.lock
      {
        LinkIsNoKey(l, w.y, g);
      }
    }
  }

  /** The run of the witness: a block is freed, and its address is given out again. */
  function Reused(): seq<Op> { [Malloc(16), Free(16), Malloc(16)] }

  /** What the free map looks like then, for any size: the address is met from the old key. */
  lemma AddressFoundAgain(n: nat) returns (t: F.Table)
    requires n > 0
    ensures var t1 := F.Add(F.Fresh(n).t, 2, 16);
      && t1.Some? && var t2 := F.Remove(t1.value, 2, 16);
      t2.Some? && F.Add(t2.value, 3, 16) == Some(t)
    ensures F.Remove(t, 2, 16).Some?
  {
    var t0 := F.Fresh(n).t;
    var i, j := F.Index(t0, 2, 0), F.Index(t0, 3, 0);
    assert F.Index(t0, 2, 1) == j;
    var t1: F.Table := t0[i := 16];
    assert F.Add(t0, 2, 16) == Some(t1);
    var t2: F.Table := t1[i := F.DELETED];
    assert F.Remove(t1, 2, 16) == Some(t2);
    t := t2[j := 16];
    assert F.Vacant(t2[j]) && F.Add(t2, 3, 16) == Some(t);
    F.RemoveSucceeds(t, 2, 16);
    assert F.Met(t, 2, 16, if n == 1 then 0 else 1);
  }

  lemma FirstOfReused(l: T.Layout, n: nat) returns (w: World)
    requires T.Sound(l) && n > 0 && l.heapBase + T.WORD <= l.heapEnd
    ensures Inv(l, Begin(l, n)) && Legal(l, Begin(l, n), Malloc(16))
    ensures Apply(l, Begin(l, n), Malloc(16)) == Some(w) && Inv(l, w)
    ensures w.owner == map[16 := T.Handle(l.heapBase, 2)] && Some(w.b.t) == F.Add(F.Fresh(n).t, 2, 16)
    ensures w.y.s.keyCounter == 3 && w.y.s.lockNext == 0 && T.Handle(l.heapBase, 2) in w.y.issued
    ensures l.heapBase in w.y.cells
  {
    BeginKeeps(l, n);
    StepKeeps(l, Begin(l, n), Malloc(16));
    w := Next(l, Begin(l, n), Malloc(16));
  }

  lemma SecondOfReused(l: T.Layout, w: World) returns (z: World)
    requires Inv(l, w) && w.owner == map[16 := T.Handle(l.heapBase, 2)]
    requires w.y.s.keyCounter == 3 && w.y.s.lockNext == 0 && T.Handle(l.heapBase, 2) in w.y.issued
    requires l.heapBase in w.y.cells
    ensures Legal(l, w, Free(16)) && Apply(l, w, Free(16)) == Some(z) && Inv(l, z)
    ensures z.owner == map[] && Some(z.b.t) == F.Remove(w.b.t, 2, 16)
    ensures z.y.issued == w.y.issued && z.y.cells == w.y.cells
    ensures z.y.s.keyCounter == 3 && z.y.s.lockNext == l.heapBase > 0 && T.Read(z.y.s, l.heapBase) == 0
  {
    StepKeeps(l, w, Free(16));
    z := Next(l, w, Free(16));
  }

  lemma ThirdOfReused(l: T.Layout, w: World) returns (z: World)
    requires Inv(l, w) && w.owner == map[] && |w.b.t| > 0
    requires w.y.s.keyCounter == 3 && w.y.s.lockNext == l.heapBase > 0 && T.Read(w.y.s, l.heapBase) == 0
    ensures Legal(l, w, Malloc(16)) && Apply(l, w, Malloc(16)) == Some(z) && Inv(l, z)
    ensures z.owner == map[16 := T.Handle(l.heapBase, 3)] && Some(z.b.t) == F.Add(w.b.t, 3, 16)
    ensures z.y.issued == w.y.issued + {T.Handle(l.heapBase, 3)} && w.y.cells <= z.y.cells && z.y.s.lockNext == 0
  {
    StepKeeps(l, w, Malloc(16));
    z := Next(l, w, Malloc(16));
  }

  /**
   The failing input, for every sound layout with room for a lock and every size of the free map: freeing 16
   again with the handle that is dead goes through the free map, and the block that lives there now fails its
   check from then on.
   */
  lemma StaleFreeHarms(l: T.Layout, n: nat) returns (w: World, h: T.Handle)
    requires T.Sound(l) && n > 0 && l.heapBase + T.WORD <= l.heapEnd
    ensures Inv(l, Begin(l, n)) && Runs(l, Begin(l, n), Reused(), w) && Inv(l, w)
    ensures h in w.y.issued && h.lock in w.y.cells && h !in w.y.heap && 16 in w.owner && w.owner[16] != h
    ensures F.Remove(w.b.t, h.key, 16).Some?
    ensures T.Check(w.y.s, w.owner[16]) && !T.Check(T.HeapFree(w.y.s, h.lock), w.owner[16])
  {
    h := T.Handle(l.heapBase, 2);
    var w1 := FirstOfReused(l, n);
    var w2 := SecondOfReused(l, w1);
    w := ThirdOfReused(l, w2);
    var t := AddressFoundAgain(n);
    ReusedRuns(l, Begin(l, n), w1, w2, w);
    ReusedDead(l, w, h);
  }

  lemma ReusedRuns(l: T.Layout, w0: World, w1: World, w2: World, w3: World)
    requires Inv(l, w0) && Legal(l, w0, Malloc(16)) && Apply(l, w0, Malloc(16)) == Some(w1)
    requires Inv(l, w1) && Legal(l, w1, Free(16)) && Apply(l, w1, Free(16)) == Some(w2)
    requires Inv(l, w2) && Legal(l, w2, Malloc(16)) && Apply(l, w2, Malloc(16)) == Some(w3) && Inv(l, w3)
    ensures Runs(l, w0, Reused(), w3)
  {
    var ops := Reused();
    assert ops[1..] == [Free(16), Malloc(16)] && ops[1..][1..] == [Malloc(16)] && ops[1..][1..][1..] == [];
    assert Runs(l, w3, [], w3);
    assert Runs(l, w2, ops[1..][1..], w3);
    assert Runs(l, w1, ops[1..], w3);
  }

  /** Of two handles with one lock only that of the block lives, and the next free gives its lock away. */
  lemma ReusedDead(l: T.Layout, w: World, h: T.Handle)
    requires Inv(l, w) && 16 in w.owner && w.owner[16].lock == h.lock && w.owner[16] != h
    requires w.y.s.lockNext != w.owner[16].key
    ensures h !in w.y.heap && T.Check(w.y.s, w.owner[16])
    ensures !T.Check(T.HeapFree(w.y.s, h.lock), w.owner[16])
  {
  }

  /** The head of the free list is none of the keys issued. */
  lemma LinkIsNoKey(l: T.Layout, y: T.System, g: T.Handle)
    requires T.Inv(l, y) && y.s.keyCounter <= l.heapBase && g in y.heap
    ensures T.Check(y.s, g) && y.s.lockNext != g.key
  {
  }
}
