/**
 The free map: an open-addressing table, probed linearly from an allocation's key, of the
 pointers that may be freed. A slot holds 0 (never used), 2 (deleted) or a pointer.
 */
module FreeMap {
  import opened Common

  const EMPTY: nat := 0
  const DELETED: nat := 2

  type Table = t: seq<nat> | |t| > 0 witness [0]

  predicate Vacant(tag: nat) {
    tag == EMPTY || tag == DELETED
  }

  /** The slot that the probe with this counter looks at. */
  function Index(t: Table, key: nat, counter: nat): (i: nat)
    ensures i < |t|
  {
    (key + counter) % |t|
  }

  // ---------- the probe loops, as functions ----------

  /** The table after adding `ptr`, or `None` when every probe met a pointer. */
  function AddFrom(t: Table, key: nat, ptr: nat, counter: nat): Option<Table>
    requires counter <= |t|
    decreases |t| - counter
  {
    var i := Index(t, key, counter);
    if Vacant(t[i]) then Some(t[i := ptr])
    else if counter >= |t| then None
    else AddFrom(t, key, ptr, counter + 1)
  }

  /** The table after removing `ptr`, or `None` when the runtime aborts. */
  function RemoveFrom(t: Table, key: nat, ptr: nat, counter: nat): Option<Table>
    requires counter <= |t|
    decreases |t| - counter
  {
    var i := Index(t, key, counter);
    if t[i] == EMPTY then None
    else if t[i] == ptr then Some(t[i := DELETED])
    else if counter >= |t| then None
    else RemoveFrom(t, key, ptr, counter + 1)
  }

  /** A null pointer is refused: the runtime asserts that there is none. */
  function Add(t: Table, key: nat, ptr: nat): Option<Table> {
    if ptr == 0 then None else AddFrom(t, key, ptr, 0)
  }

  function Remove(t: Table, key: nat, ptr: nat): Option<Table> {
    RemoveFrom(t, key, ptr, 0)
  }

  class FreeMapTable {
    var table: array<nat>

    ghost predicate Valid()
      reads this
    {
      table.Length > 0
    }

    ghost function Contents(): Table
      requires Valid()
      reads this, table
    {
      table[..]
    }

    constructor (n: nat)
      requires n > 0
      ensures Valid() && fresh(table) && |Contents()| == n
      ensures forall i :: 0 <= i < n ==> Contents()[i] == EMPTY
    {
      table := new nat[n](_ => EMPTY);
    }

    /** Stores `ptr` in the first vacant slot on the probe path of `key`; false is an abort. */
    method AddToFreeMap(key: nat, ptr: nat) returns (ok: bool, ghost probes: nat)
      requires Valid()
      modifies table
      ensures Valid() && table == old(table)
      ensures ok == Add(old(Contents()), key, ptr).Some?
      ensures Contents() == if ok then Add(old(Contents()), key, ptr).value else old(Contents())
      ensures probes <= table.Length + 1
    {
      if ptr == 0 {
        return false, 0;
      }
      var counter := 0;
      ok, probes := false, 0;
      ghost var t := Contents();
      while true
        invariant 0 <= counter <= table.Length
        invariant Contents() == t && Add(t, key, ptr) == AddFrom(t, key, ptr, counter)
        decreases table.Length - counter
      {
        var index := (key + counter) % table.Length;
        var tag := table[index];
        if tag == EMPTY || tag == DELETED {
          table[index] := ptr;
          assert Contents() == t[index := ptr];
          return true, counter + 1;
        }
        if counter >= table.Length {
          return false, counter + 1;
        }
        counter := counter + 1;
      }
    }

    /** Deletes `ptr` from its slot on the probe path of `key`; false is an abort. */
    method CheckRemoveFromFreeMap(key: nat, ptr: nat) returns (ok: bool, ghost probes: nat)
      requires Valid()
      modifies table
      ensures Valid() && table == old(table)
      ensures ok == Remove(old(Contents()), key, ptr).Some?
      ensures Contents() == if ok then Remove(old(Contents()), key, ptr).value else old(Contents())
      ensures probes <= table.Length + 1
    {
      var counter := 0;
      ok, probes := false, 0;
      ghost var t := Contents();
      while true
        invariant 0 <= counter <= table.Length
        invariant Contents() == t && Remove(t, key, ptr) == RemoveFrom(t, key, ptr, counter)
        decreases table.Length - counter
      {
        var index := (key + counter) % table.Length;
        var tag := table[index];
        if tag == EMPTY {
          return false, counter + 1;
        }
        if tag == ptr {
          table[index] := DELETED;
          assert Contents() == t[index := DELETED];
          return true, counter + 1;
        }
        if counter >= table.Length {
          return false, counter + 1;
        }
        counter := counter + 1;
      }
    }
  }

  // ---------- what the probes find ----------

  lemma {:induction false} AddFinds(t: Table, key: nat, ptr: nat, counter: nat)
    requires counter <= |t|
    ensures match AddFrom(t, key, ptr, counter)
      case Some(u) =>
        exists d :: counter <= d <= |t| && Vacant(t[Index(t, key, d)]) && u == t[Index(t, key, d) := ptr] &&
          forall c :: counter <= c < d ==> !Vacant(t[Index(t, key, c)])
      case None => forall c :: counter <= c <= |t| ==> !Vacant(t[Index(t, key, c)])
    decreases |t| - counter
  {
    if !Vacant(t[Index(t, key, counter)]) && counter < |t| {
      AddFinds(t, key, ptr, counter + 1);
    }
  }

  lemma {:induction false} RemoveFinds(t: Table, key: nat, ptr: nat, counter: nat)
    requires counter <= |t|
    ensures match RemoveFrom(t, key, ptr, counter)
      case Some(u) =>
        exists d :: counter <= d <= |t| && t[Index(t, key, d)] == ptr && u == t[Index(t, key, d) := DELETED] &&
          forall c :: counter <= c <= d ==> t[Index(t, key, c)] != EMPTY
      case None =>
        forall d :: counter <= d <= |t| && t[Index(t, key, d)] == ptr ==>
          exists c :: counter <= c <= d && t[Index(t, key, c)] == EMPTY
    decreases |t| - counter
  {
    if t[Index(t, key, counter)] != EMPTY && t[Index(t, key, counter)] != ptr && counter < |t| {
      RemoveFinds(t, key, ptr, counter + 1);
    }
  }

  /** Every slot is probed, from any key. */
  lemma ProbesAll(t: Table, key: nat, i: nat) returns (d: nat)
    requires i < |t|
    ensures d < |t| && Index(t, key, d) == i
  {
    var n, k := |t|, key % |t|;
    d := if k <= i then i - k else i + n - k;
    assert key == n * (key / n) + k;
    if k <= i {
      assert key + d == n * (key / n) + i;
    } else {
      assert key + d == n * (key / n + 1) + i;
    }
    ModIs(key + d, n, if k <= i then key / n else key / n + 1, i);
  }

  lemma ModIs(a: nat, n: nat, q: nat, r: nat)
    requires n > 0 && a == n * q + r && r < n
    ensures a % n == r
  {
    MulOrder(n, a / n, q);
  }

  lemma MulOrder(n: nat, p: nat, q: nat)
    ensures p < q ==> n * p + n <= n * q
    ensures q < p ==> n * q + n <= n * p
  {
    if p < q {
      assert n * (p + 1) <= n * q;
    } else if q < p {
      assert n * (q + 1) <= n * p;
    }
  }

  // ---------- histories ----------

  /** A table and the pointers that live in it, each with the key it was added under. */
  datatype Book = Book(t: Table, live: map<nat, nat>)

  datatype Op = AddOp(key: nat, ptr: nat) | RemoveOp(key: nat, ptr: nat)

  /** New pointers are distinct and not 0 or 2; what is removed is live, under its own key. */
  predicate Legal(b: Book, op: Op) {
    match op
    case AddOp(_, ptr) => !Vacant(ptr) && ptr !in b.live && |b.live| < |b.t|
    case RemoveOp(key, ptr) => ptr in b.live && b.live[ptr] == key
  }

  function Apply(b: Book, op: Op): Option<Book> {
    match op
    case AddOp(key, ptr) =>
      var o := Add(b.t, key, ptr);
      if o.Some? then Some(Book(o.value, b.live[ptr := key])) else None
    case RemoveOp(key, ptr) =>
      var o := Remove(b.t, key, ptr);
      if o.Some? then Some(Book(o.value, b.live - {ptr})) else None
  }

  /** The probe from `key` meets `ptr` at step `d`, before any slot that was never used. */
  ghost predicate Met(t: Table, key: nat, ptr: nat, d: nat) {
    t[Index(t, key, d)] == ptr && forall c :: 0 <= c < d ==> t[Index(t, key, c)] != EMPTY
  }

  /** Every live pointer is found from its key. */
  ghost predicate Reachable(b: Book) {
    forall p :: p in b.live ==> !Vacant(p) && exists d :: 0 <= d <= |b.t| && Met(b.t, b.live[p], p, d)
  }

  /** The slots hold live pointers only, each at most once. */
  ghost predicate SlotsOk(t: Table, live: set<nat>) {
    && (forall i :: 0 <= i < |t| && !Vacant(t[i]) ==> t[i] in live)
    && (forall i, j :: 0 <= i < j < |t| && t[i] == t[j] ==> Vacant(t[i]))
  }

  ghost predicate Inv(b: Book) {
    match b
    case Book(t, live) => Reachable(b) && SlotsOk(t, live.Keys)
  }

  lemma {:induction false} DistinctFit(s: seq<nat>, u: set<nat>)
    requires forall i :: 0 <= i < |s| ==> s[i] in u
    requires forall i, j :: 0 <= i < j < |s| ==> s[i] != s[j]
    ensures |s| <= |u|
  {
    if s != [] {
      var last := s[|s| - 1];
      DistinctFit(s[..|s| - 1], u - {last});
    }
  }

  lemma {:induction false} ElementsFit(s: seq<nat>, u: set<nat>)
    requires forall x :: x in u ==> x in s
    ensures |u| <= |s|
  {
    if s == [] {
      assert u == {};
    } else {
      var last := s[|s| - 1];
      ElementsFit(s[..|s| - 1], u - {last});
      assert |u - {last}| >= |u| - 1;
    }
  }

  lemma LiveInTable(b: Book, p: nat) returns (i: nat)
    requires Reachable(b) && p in b.live
    ensures i < |b.t| && b.t[i] == p
  {
    var e :| 0 <= e <= |b.t| && Met(b.t, b.live[p], p, e);
    i := Index(b.t, b.live[p], e);
  }

  /** There are no more live pointers than slots, and fewer when a slot is vacant. */
  lemma LiveFit(b: Book)
    requires Inv(b)
    ensures |b.live| <= |b.t|
    ensures (exists i :: 0 <= i < |b.t| && Vacant(b.t[i])) ==> |b.live| < |b.t|
  {
    forall p | p in b.live
      ensures p in b.t && !Vacant(p)
    {
      var k := LiveInTable(b, p);
    }
    ElementsFit(b.t, b.live.Keys);
    if i :| 0 <= i < |b.t| && Vacant(b.t[i]) {
      var rest := b.t[..i] + b.t[i + 1..];
      assert b.t == b.t[..i] + [b.t[i]] + b.t[i + 1..];
      assert forall p :: p in b.live ==> p in rest;
      ElementsFit(rest, b.live.Keys);
    }
  }

  /** Adding a real pointer succeeds exactly while fewer pointers live than there are slots. */
  lemma AddSucceeds(b: Book, key: nat, ptr: nat)
    requires Inv(b)
    ensures Add(b.t, key, ptr).Some? <==> ptr != 0 && |b.live| < |b.t|
  {
    AddFinds(b.t, key, ptr, 0);
    LiveFit(b);
    if i :| 0 <= i < |b.t| && Vacant(b.t[i]) {
      var d := ProbesAll(b.t, key, i);
    } else {
      DistinctFit(b.t, b.live.Keys);
    }
  }

  /** Writing something other than 0 elsewhere leaves a pointer where its probe meets it. */
  lemma StillMet(t: Table, i: nat, v: nat, key: nat, p: nat, d: nat)
    requires i < |t| && v != EMPTY && t[i] != p && Met(t, key, p, d)
    ensures Met(t[i := v], key, p, d)
  {
    var u: Table := t[i := v];
    assert Index(u, key, d) == Index(t, key, d);
    forall c | 0 <= c < d
      ensures u[Index(u, key, c)] != EMPTY
    {
      assert Index(u, key, c) == Index(t, key, c);
      assert t[Index(t, key, c)] != EMPTY;
    }
  }

  lemma SlotsWritten(t: Table, live: set<nat>, live2: set<nat>, i: nat, v: nat)
    requires SlotsOk(t, live) && i < |t| && v !in live
    requires !Vacant(v) ==> v in live2
    requires forall p :: p in live && p !in live2 ==> Vacant(p) || p == t[i]
    ensures SlotsOk(t[i := v], live2)
  {
  }

  /** Live pointers stay reachable when one slot is overwritten that held none of them. */
  lemma StillReachable(b: Book, z: Book, i: nat, v: nat)
    requires Reachable(b) && i < |b.t| && v != EMPTY && z.t == b.t[i := v]
    requires forall p :: p in z.live ==> p != b.t[i] && (p == v || (p in b.live && z.live[p] == b.live[p]))
    requires v in z.live ==> !Vacant(v) && exists d :: 0 <= d <= |z.t| && Met(z.t, z.live[v], v, d)
    ensures Reachable(z)
  {
    forall p | p in z.live
      ensures !Vacant(p) && exists c :: 0 <= c <= |z.t| && Met(z.t, z.live[p], p, c)
    {
      if p != v {
        var c :| 0 <= c <= |b.t| && Met(b.t, b.live[p], p, c);
        StillMet(b.t, i, v, b.live[p], p, c);
      }
    }
  }

  lemma AddKeeps(b: Book, key: nat, ptr: nat)
    requires Inv(b) && Legal(b, AddOp(key, ptr))
    ensures var o := Apply(b, AddOp(key, ptr));
      o.Some? && Inv(o.value) && |o.value.t| == |b.t| && o.value.live == b.live[ptr := key]
  {
    AddSucceeds(b, key, ptr);
    AddFinds(b.t, key, ptr, 0);
    var u := Add(b.t, key, ptr).value;
    var d :| 0 <= d <= |b.t| && Vacant(b.t[Index(b.t, key, d)]) && u == b.t[Index(b.t, key, d) := ptr] &&
      forall c :: 0 <= c < d ==> !Vacant(b.t[Index(b.t, key, c)]);
    var i, z := Index(b.t, key, d), Book(u, b.live[ptr := key]);
    AddMet(b.t, key, ptr, d);
    StillReachable(b, z, i, ptr);
    SlotsWritten(b.t, b.live.Keys, z.live.Keys, i, ptr);
  }

  lemma AddMet(t: Table, key: nat, ptr: nat, d: nat)
    requires ptr != EMPTY && forall c :: 0 <= c < d ==> !Vacant(t[Index(t, key, c)])
    ensures Met(t[Index(t, key, d) := ptr], key, ptr, d)
  {
    var u: Table := t[Index(t, key, d) := ptr];
    forall c | 0 <= c < d
      ensures u[Index(u, key, c)] != EMPTY
    {
      assert Index(u, key, c) == Index(t, key, c);
    }
  }

  lemma RemoveKeeps(b: Book, key: nat, ptr: nat)
    requires Inv(b) && Legal(b, RemoveOp(key, ptr))
    ensures var o := Apply(b, RemoveOp(key, ptr));
      o.Some? && Inv(o.value) && |o.value.t| == |b.t| && o.value.live == b.live - {ptr}
  {
    RemoveFinds(b.t, key, ptr, 0);
    var e :| 0 <= e <= |b.t| && Met(b.t, key, ptr, e);
    assert b.t[Index(b.t, key, e)] == ptr;
    var u := Remove(b.t, key, ptr).value;
    var d :| 0 <= d <= |b.t| && b.t[Index(b.t, key, d)] == ptr && u == b.t[Index(b.t, key, d) := DELETED] &&
      forall c :: 0 <= c <= d ==> b.t[Index(b.t, key, c)] != EMPTY;
    var i, z := Index(b.t, key, d), Book(u, b.live - {ptr});
    StillReachable(b, z, i, DELETED);
    SlotsWritten(b.t, b.live.Keys, z.live.Keys, i, DELETED);
  }

  /** A block has moved: its entry is removed and added again under the same key. */
  function Replace(b: Book, key: nat, ptr: nat, ret: nat): Option<Book> {
    var o := Apply(b, RemoveOp(key, ptr));
    if o.Some? then Apply(o.value, AddOp(key, ret)) else None
  }

  lemma ReplaceKeeps(b: Book, key: nat, ptr: nat, ret: nat)
    requires Inv(b) && Legal(b, RemoveOp(key, ptr)) && !Vacant(ret) && ret !in b.live
    ensures var o := Replace(b, key, ptr, ret);
      o.Some? && Inv(o.value) && |o.value.t| == |b.t| && o.value.live == (b.live - {ptr})[ret := key]
  {
    RemoveKeeps(b, key, ptr);
    LiveFit(b);
    var c := Apply(b, RemoveOp(key, ptr)).value;
    assert c.live.Keys == b.live.Keys - {ptr};
    assert |c.live.Keys| == |b.live.Keys| - 1;
    AddKeeps(c, key, ret);
  }

  function Fresh(n: nat): Book
    requires n > 0
  {
    Book(seq(n, _ => EMPTY), map[])
  }

  ghost predicate LegalRun(b: Book, ops: seq<Op>)
    decreases |ops|
  {
    ops == [] || (Legal(b, ops[0]) && (Apply(b, ops[0]).Some? ==> LegalRun(Apply(b, ops[0]).value, ops[1..])))
  }

  function Run(b: Book, ops: seq<Op>): Option<Book>
    decreases |ops|
  {
    if ops == [] then Some(b)
    else match Apply(b, ops[0])
      case None => None
      case Some(c) => Run(c, ops[1..])
  }

  /**
   No legal history of adds and removes ever aborts, however many deletions it has left behind,
   and it keeps every live pointer reachable from its key.
   */
  lemma {:induction false} LegalRunsSucceed(b: Book, ops: seq<Op>)
    requires Inv(b) && LegalRun(b, ops)
    ensures Run(b, ops).Some? && Inv(Run(b, ops).value)
    decreases |ops|
  {
    if ops != [] {
      match ops[0] {
        case AddOp(key, ptr) => AddKeeps(b, key, ptr);
        case RemoveOp(key, ptr) => RemoveKeeps(b, key, ptr);
      }
      LegalRunsSucceed(Apply(b, ops[0]).value, ops[1..]);
    }
  }

  /** When a removal goes through, for any table, key and pointer: its probe meets the pointer first. */
  lemma RemoveSucceeds(t: Table, key: nat, ptr: nat)
    ensures Remove(t, key, ptr).Some? <==> ptr != EMPTY && exists d :: 0 <= d <= |t| && Met(t, key, ptr, d)
  {
    RemoveFinds(t, key, ptr, 0);
    if Remove(t, key, ptr).Some? {
      var d :| 0 <= d <= |t| && t[Index(t, key, d)] == ptr && forall c :: 0 <= c <= d ==> t[Index(t, key, c)] != EMPTY;
      assert Met(t, key, ptr, d);
    } else if d :| ptr != EMPTY && 0 <= d <= |t| && Met(t, key, ptr, d) {
      assert t[Index(t, key, d)] == ptr;
    }
  }

  /**
   Removing what does not live aborts, from any key, but for the mark of a deleted slot: taken for a
   pointer, that is removed exactly when the probe comes to a deleted slot before an empty one.
   */
  lemma StrangersAbort(b: Book, key: nat, ptr: nat)
    requires Inv(b) && ptr !in b.live
    ensures Remove(b.t, key, ptr).Some? <==> ptr == DELETED && exists d :: 0 <= d <= |b.t| && Met(b.t, key, DELETED, d)
  {
    RemoveSucceeds(b.t, key, ptr);
    if d :| ptr != EMPTY && 0 <= d <= |b.t| && Met(b.t, key, ptr, d) {
      assert b.t[Index(b.t, key, d)] == ptr;
    }
  }

  lemma FreshInv(n: nat)
    requires n > 0
    ensures Inv(Fresh(n))
  {
  }
}
