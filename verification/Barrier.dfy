/**
 The thread barrier of the parallel JIT example: a mutex, a condition variable, a count of blocked
 threads and the count they wait for.

 The class holds what the critical sections do; the state machine interleaves N workers, each calling
 `block` once, with one call `releaseThreads(N)`. No thread is woken without a broadcast.
 */
module Barrier {
  import opened Common

  // ---------- the critical sections ----------

  /** The counters after a critical section, and whether it ends in a broadcast; if not, the thread waits. */
  datatype Effect = Effect(n: nat, waitFor: nat, broadcast: bool)

  function Blocking(n: nat, waitFor: nat): Effect {
    if n + 1 == waitFor then Effect(0, 0, true) else Effect(n + 1, waitFor, false)
  }

  function Releasing(n: nat, waitFor: nat, num: nat): Effect {
    if n >= num then Effect(0, 0, true) else Effect(n, num, false)
  }

  class WaitForThreads {
    var n: nat
    var waitFor: nat
    /** How often the waiting threads have been woken. */
    ghost var broadcasts: nat

    constructor ()
      ensures n == 0 && waitFor == 0 && broadcasts == 0
    {
      n, waitFor, broadcasts := 0, 0, 0;
    }

    /** Wakes every waiting thread, with the counters reset so that threads that enter meanwhile block. */
    method Broadcast()
      requires n == 0 && waitFor == 0
      modifies `broadcasts
      ensures broadcasts == old(broadcasts) + 1
    {
      broadcasts := broadcasts + 1;
    }

    method UnblockThreads() returns (broadcast: bool)
      modifies this
      ensures n == 0 && waitFor == 0 && broadcast && broadcasts == old(broadcasts) + 1
    {
      n := 0;
      waitFor := 0;
      Broadcast();
      broadcast := true;
    }

    /** From the lock to the wait, or to the unlock. The precondition is what the source asserts. */
    method Block() returns (broadcast: bool)
      requires waitFor == 0 || n + 1 <= waitFor
      modifies this
      ensures Effect(n, waitFor, broadcast) == Blocking(old(n), old(waitFor))
      ensures broadcasts == old(broadcasts) + if broadcast then 1 else 0
    {
      n := n + 1;
      assert waitFor == 0 || n <= waitFor;
      if waitFor > 0 && n == waitFor {
        broadcast := UnblockThreads();
      } else {
        broadcast := false;
      }
    }

    method ReleaseThreads(num: nat) returns (broadcast: bool)
      modifies this
      ensures Effect(n, waitFor, broadcast) == Releasing(old(n), old(waitFor), num)
      ensures broadcasts == old(broadcasts) + if broadcast then 1 else 0
    {
      if n >= num {
        broadcast := UnblockThreads();
      } else {
        waitFor := num;
        broadcast := false;
      }
    }
  }

  // ---------- the threads ----------

  /** Before the lock; holding it; waiting; woken, without the lock; about to unlock; returned. */
  datatype Pc = Start | Entered | Waiting | Awake | Leaving | Done

  /** Thread N is the one that releases. */
  datatype System = System(n: nat, waitFor: nat, owner: Option<nat>, pc: seq<Pc>) {
    function Workers(): nat
      requires pc != []
    {
      |pc| - 1
    }
  }

  function Initial(workers: nat): (s: System)
    ensures |s.pc| == workers + 1
  {
    System(0, 0, None, seq(workers + 1, _ => Start))
  }

  /** A thread can take a step unless it must wait, for the lock or for a broadcast, or has returned. */
  predicate Enabled(s: System, i: nat) {
    i < |s.pc| && match s.pc[i] {
      case Start => s.owner.None?
      case Entered => true
      case Waiting => false
      case Awake => s.owner.None?
      case Leaving => true
      case Done => false
    }
  }

  function Broadcast(pc: seq<Pc>): (r: seq<Pc>)
    ensures |r| == |pc|
  {
    seq(|pc|, j requires 0 <= j < |pc| => if pc[j] == Waiting then Awake else pc[j])
  }

  function EffectOf(s: System, i: nat): Effect
    requires i < |s.pc|
  {
    if i < s.Workers() then Blocking(s.n, s.waitFor) else Releasing(s.n, s.waitFor, s.Workers())
  }

  /** The source's assertion, as thread `i` runs its critical section. */
  predicate AssertionHolds(s: System, i: nat)
    requires i < |s.pc|
  {
    i < s.Workers() && s.pc[i] == Entered ==> s.waitFor == 0 || s.n + 1 <= s.waitFor
  }

  function Step(s: System, i: nat): (r: System)
    requires Enabled(s, i)
    ensures |r.pc| == |s.pc|
  {
    match s.pc[i]
    case Start => System(s.n, s.waitFor, Some(i), s.pc[i := Entered])
    case Entered =>
      var e := EffectOf(s, i);
      if e.broadcast then System(e.n, e.waitFor, s.owner, Broadcast(s.pc)[i := Leaving])
      else System(e.n, e.waitFor, None, s.pc[i := Waiting])
    case Awake => System(s.n, s.waitFor, Some(i), s.pc[i := Leaving])
    case Leaving => System(s.n, s.waitFor, None, s.pc[i := Done])
  }

  /** A schedule: the thread that takes each step. */
  predicate Legal(s: System, schedule: seq<nat>)
    decreases |schedule|
  {
    schedule == [] || (Enabled(s, schedule[0]) && Legal(Step(s, schedule[0]), schedule[1..]))
  }

  function Run(s: System, schedule: seq<nat>): (r: System)
    requires Legal(s, schedule)
    ensures |r.pc| == |s.pc|
    decreases |schedule|
  {
    if schedule == [] then s else Run(Step(s, schedule[0]), schedule[1..])
  }

  // ---------- the invariant ----------

  function Waiters(pc: seq<Pc>, k: nat): (c: nat)
    requires k <= |pc|
    ensures c <= k
  {
    if k == 0 then 0 else Waiters(pc, k - 1) + if pc[k - 1] == Waiting then 1 else 0
  }

  ghost predicate Locking(s: System) {
    && (s.owner.Some? ==> s.owner.value < |s.pc|)
    && forall i: nat :: i < |s.pc| ==> (s.pc[i] == Entered || s.pc[i] == Leaving <==> s.owner == Some(i))
  }

  /** Before the broadcast: the waiting workers are counted, and the releaser, if it waits, is needed. */
  ghost predicate Gathering(s: System)
    requires s.pc != []
  {
    && (forall i: nat :: i < |s.pc| ==> s.pc[i] == Start || s.pc[i] == Entered || s.pc[i] == Waiting)
    && s.n == Waiters(s.pc, s.Workers())
    && s.waitFor == (if s.pc[s.Workers()] == Waiting then s.Workers() else 0)
    && (s.pc[s.Workers()] == Waiting ==> s.n < s.Workers())
  }

  /** After it: nobody waits, and everybody has been in. */
  ghost predicate Released(s: System) {
    && (forall i: nat :: i < |s.pc| ==> s.pc[i] == Awake || s.pc[i] == Leaving || s.pc[i] == Done)
    && s.n == 0 && s.waitFor == 0
  }

  ghost predicate Inv(s: System) {
    s.pc != [] && Locking(s) && (Gathering(s) || Released(s))
  }

  lemma {:induction false} WaitersUpdate(pc: seq<Pc>, i: nat, p: Pc, k: nat)
    requires i < |pc| && k <= |pc|
    ensures Waiters(pc[i := p], k)
            == Waiters(pc, k)
               + if i < k then (if p == Waiting then 1 else 0) - (if pc[i] == Waiting then 1 else 0) else 0
  {
    if k > 0 {
      WaitersUpdate(pc, i, p, k - 1);
    }
  }

  /** A full count leaves nobody out. */
  lemma {:induction false} AllWaiting(pc: seq<Pc>, k: nat)
    requires k <= |pc| && Waiters(pc, k) == k
    ensures forall j: nat :: j < k ==> pc[j] == Waiting
  {
    if k > 0 {
      AllWaiting(pc, k - 1);
    }
  }

  lemma NoneWaiting(pc: seq<Pc>, k: nat)
    requires k <= |pc| && forall j: nat :: j < k ==> pc[j] != Waiting
    ensures Waiters(pc, k) == 0
  {
  }

  /** A broadcast comes when every other thread waits. */
  lemma BroadcastWhenAllWait(s: System, i: nat)
    requires s.pc != [] && Gathering(s) && i < |s.pc| && s.pc[i] == Entered && EffectOf(s, i).broadcast
    ensures forall j: nat :: j < |s.pc| && j != i ==> s.pc[j] == Waiting
  {
    var w := s.Workers();
    if i < w {
      WaitersUpdate(s.pc, i, Waiting, w);
      AllWaiting(s.pc[i := Waiting], w);
      assert forall j: nat :: j < w && j != i ==> s.pc[j] == s.pc[i := Waiting][j];
    } else {
      AllWaiting(s.pc, w);
    }
  }

  /** A critical section that ends in a broadcast releases everybody. */
  lemma BroadcastKeeps(s: System, i: nat)
    requires Inv(s) && i < |s.pc| && s.pc[i] == Entered && EffectOf(s, i).broadcast
    ensures Inv(Step(s, i))
  {
    BroadcastWhenAllWait(s, i);
  }

  /** One that ends in a wait adds to those that wait. */
  lemma WaitKeeps(s: System, i: nat)
    requires Inv(s) && i < |s.pc| && s.pc[i] == Entered && !EffectOf(s, i).broadcast
    ensures Inv(Step(s, i))
  {
    WaitersUpdate(s.pc, i, Waiting, s.Workers());
    if i < s.Workers() && s.waitFor > 0 {
      assert s.n + 1 < s.Workers();
    }
  }

  lemma StepKeeps(s: System, i: nat)
    requires Inv(s) && Enabled(s, i)
    ensures Inv(Step(s, i)) && AssertionHolds(s, i)
  {
    match s.pc[i] {
      case Start => WaitersUpdate(s.pc, i, Entered, s.Workers());
      case Entered =>
        if EffectOf(s, i).broadcast {
          BroadcastKeeps(s, i);
        } else {
          WaitKeeps(s, i);
        }
      case Awake =>
      case Leaving =>
    }
  }

  lemma {:induction false} RunKeeps(s: System, schedule: seq<nat>)
    requires Inv(s) && Legal(s, schedule)
    ensures Inv(Run(s, schedule))
    decreases |schedule|
  {
    if schedule != [] {
      StepKeeps(s, schedule[0]);
      RunKeeps(Step(s, schedule[0]), schedule[1..]);
    }
  }

  lemma InitialInv(workers: nat)
    ensures Inv(Initial(workers))
  {
    NoneWaiting(Initial(workers).pc, workers);
  }

  // ---------- what the barrier is for ----------

  predicate HasReturned(s: System, i: nat) { i < |s.pc| && s.pc[i] == Done }

  /** Thread `i` has been through its critical section. */
  predicate HasArrived(s: System, i: nat) { i < |s.pc| && s.pc[i] != Start && s.pc[i] != Entered }

  /**
   In every interleaving: the assertion holds, nobody returns before everybody has arrived, and once
   everybody has arrived nobody is left waiting.
   */
  lemma BarrierIsSafe(workers: nat, schedule: seq<nat>)
    requires Legal(Initial(workers), schedule)
    ensures var s := Run(Initial(workers), schedule);
      && (forall i: nat :: Enabled(s, i) ==> AssertionHolds(s, i))
      && ((exists i: nat :: HasReturned(s, i)) ==> forall j: nat :: j <= workers ==> HasArrived(s, j))
      && ((forall j: nat :: j <= workers ==> HasArrived(s, j)) ==> forall j: nat :: j <= workers ==> s.pc[j] != Waiting)
  {
    var s := Run(Initial(workers), schedule);
    InitialInv(workers);
    RunKeeps(Initial(workers), schedule);
    forall i: nat | Enabled(s, i)
      ensures AssertionHolds(s, i)
    {
      StepKeeps(s, i);
    }
    if Gathering(s) {
      SomebodyIsMissing(s);
    }
  }

  /** Threads that all wait would have been counted to the last. */
  lemma {:induction false} EverybodyWaits(pc: seq<Pc>, k: nat)
    requires k <= |pc| && forall j: nat :: j < k ==> pc[j] == Waiting
    ensures Waiters(pc, k) == k
  {
    if k > 0 {
      EverybodyWaits(pc, k - 1);
    }
  }

  /** Before the broadcast somebody has yet to arrive. */
  lemma SomebodyIsMissing(s: System)
    requires s.pc != [] && Gathering(s)
    ensures exists j: nat :: j < |s.pc| && !HasArrived(s, j)
  {
    var w := s.Workers();
    if forall j: nat :: j < w ==> s.pc[j] == Waiting {
      EverybodyWaits(s.pc, w);
      assert !HasArrived(s, w);
    } else {
      var j: nat :| j < w && s.pc[j] != Waiting;
      assert !HasArrived(s, j);
    }
  }

  /** A run can always go on until every thread has returned. */
  lemma NoDeadlock(workers: nat, schedule: seq<nat>) returns (i: nat)
    requires Legal(Initial(workers), schedule)
    ensures var s := Run(Initial(workers), schedule);
      Enabled(s, i) || forall j: nat :: j <= workers ==> s.pc[j] == Done
  {
    var s := Run(Initial(workers), schedule);
    InitialInv(workers);
    RunKeeps(Initial(workers), schedule);
    if s.owner.Some? {
      i := s.owner.value;
    } else if Gathering(s) {
      SomebodyIsMissing(s);
      i :| i <= workers && !HasArrived(s, i);
    } else if exists j: nat :: j <= workers && s.pc[j] != Done {
      i :| i <= workers && s.pc[i] != Done;
    } else {
      i := 0;
    }
  }

  function Rank(p: Pc): nat {
    match p
    case Start => 0
    case Entered => 1
    case Waiting => 2
    case Awake => 2
    case Leaving => 3
    case Done => 4
  }

  function Total(pc: seq<Pc>, k: nat): (t: nat)
    requires k <= |pc|
    ensures t <= 4 * k
  {
    if k == 0 then 0 else Total(pc, k - 1) + Rank(pc[k - 1])
  }

  lemma {:induction false} TotalUpdate(pc: seq<Pc>, i: nat, p: Pc, k: nat)
    requires i < |pc| && k <= |pc|
    ensures Total(pc[i := p], k) == Total(pc, k) + if i < k then Rank(p) - Rank(pc[i]) else 0
  {
    if k > 0 {
      TotalUpdate(pc, i, p, k - 1);
    }
  }

  lemma {:induction false} TotalBroadcast(pc: seq<Pc>, k: nat)
    requires k <= |pc|
    ensures Total(Broadcast(pc), k) == Total(pc, k)
  {
    if k > 0 {
      TotalBroadcast(pc, k - 1);
    }
  }

  /** The steps taken so far; the thread that broadcasts saves one. */
  ghost function Steps(s: System): int
    requires s.pc != []
  {
    Total(s.pc, |s.pc|) - if s.pc[0] == Awake || s.pc[0] == Leaving || s.pc[0] == Done then 1 else 0
  }

  lemma BroadcastCounts(s: System, i: nat)
    requires s.pc != [] && Gathering(s) && i < |s.pc| && s.pc[i] == Entered && EffectOf(s, i).broadcast
    ensures Steps(Step(s, i)) == Steps(s) + 1
  {
    BroadcastWhenAllWait(s, i);
    TotalBroadcast(s.pc, |s.pc|);
    TotalUpdate(Broadcast(s.pc), i, Leaving, |s.pc|);
  }

  lemma StepCounts(s: System, i: nat)
    requires Inv(s) && Enabled(s, i)
    ensures Steps(Step(s, i)) == Steps(s) + 1
  {
    StepKeeps(s, i);
    match s.pc[i] {
      case Start => TotalUpdate(s.pc, i, Entered, |s.pc|);
      case Entered =>
        if EffectOf(s, i).broadcast {
          BroadcastCounts(s, i);
        } else {
          TotalUpdate(s.pc, i, Waiting, |s.pc|);
        }
      case Awake => TotalUpdate(s.pc, i, Leaving, |s.pc|);
      case Leaving => TotalUpdate(s.pc, i, Done, |s.pc|);
    }
  }

  lemma {:induction false} RunCounts(s: System, schedule: seq<nat>)
    requires Inv(s) && Legal(s, schedule)
    ensures Steps(Run(s, schedule)) == Steps(s) + |schedule|
    decreases |schedule|
  {
    if schedule != [] {
      StepKeeps(s, schedule[0]);
      StepCounts(s, schedule[0]);
      RunCounts(Step(s, schedule[0]), schedule[1..]);
    }
  }

  lemma {:induction false} TotalAtEnds(pc: seq<Pc>, k: nat)
    requires k <= |pc|
    ensures (forall j: nat :: j < k ==> pc[j] == Start) ==> Total(pc, k) == 0
    ensures (forall j: nat :: j < k ==> pc[j] == Done) <==> Total(pc, k) == 4 * k
  {
    if k > 0 {
      TotalAtEnds(pc, k - 1);
    }
  }

  /**
   No interleaving runs for ever: with N workers a run has at most 4(N + 1) - 1 steps, and has that
   many exactly when every thread has returned.
   */
  lemma EveryRunEnds(workers: nat, schedule: seq<nat>)
    requires Legal(Initial(workers), schedule)
    ensures |schedule| <= 4 * (workers + 1) - 1
    ensures |schedule| == 4 * (workers + 1) - 1 <==>
            forall j: nat :: j <= workers ==> Run(Initial(workers), schedule).pc[j] == Done
  {
    var s0 := Initial(workers);
    var s := Run(s0, schedule);
    InitialInv(workers);
    RunKeeps(s0, schedule);
    RunCounts(s0, schedule);
    TotalAtEnds(s0.pc, |s0.pc|);
    TotalAtEnds(s.pc, |s.pc|);
  }
}
