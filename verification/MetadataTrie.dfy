/**
 The two-level table that maps the address of a pointer in memory to the pointer's metadata.

 The primary table is indexed by the top bits of the address; a secondary table, made when it is
 first needed, holds one entry for each 8-byte slot. `View` is the flat map it stands for.
 */
module MetadataTrie {

  datatype Entry = Entry(base: nat, bound: nat, key: nat, lock: nat)

  /** What memory that was never written holds. */
  const ZERO := Entry(0, 0, 0, 0)

  function Unwritten(slot: nat): Entry { ZERO }

  const PRIMARY: nat := 0x80_0000
  const SECONDARY: nat := 0x40_0000
  /** The number of 8-byte slots below 2^48. */
  const SLOTS: nat := 0x2000_0000_0000
  const LIMIT: nat := 0x1_0000_0000_0000

  /** `addr >> 25`. */
  function PrimaryIndex(addr: nat): nat {
    addr / 0x200_0000
  }

  /** `(addr >> 3) & 0x3fffff`. */
  function SecondaryIndex(addr: nat): nat {
    addr / 8 % SECONDARY
  }

  lemma IndexOfSlot(addr: nat)
    ensures addr / 8 / SECONDARY == PrimaryIndex(addr)
    ensures addr < LIMIT ==> addr / 8 < SLOTS && PrimaryIndex(addr) < PRIMARY
    ensures addr / 8 == PrimaryIndex(addr) * SECONDARY + SecondaryIndex(addr)
  {
  }

  /** An address has the indices of a slot exactly when it lies in it. */
  lemma SameSlot(addr: nat, x: nat)
    ensures x / SECONDARY == PrimaryIndex(addr) && x % SECONDARY == SecondaryIndex(addr) <==> x == addr / 8
  {
    IndexOfSlot(addr);
  }

  type Shadow = imap<nat, Entry>

  /** The slot that slot `x` takes its entry from when `n` slots are copied from `s` to `d`. */
  function Source(d: nat, s: nat, n: nat, x: nat): nat {
    if d <= x < d + n then s + (x - d) else x
  }

  /** Slots `d`, `d + 1`, ... taking at once what slots `s`, `s + 1`, ... held. */
  ghost predicate Copied(v: Shadow, w: Shadow, d: nat, s: nat, n: nat)
    requires forall x :: 0 <= x < SLOTS ==> x in v && x in w
    requires d + n <= SLOTS && s + n <= SLOTS
  {
    forall x: nat {:trigger Source(d, s, n, x)} :: x < SLOTS ==> w[x] == v[Source(d, s, n, x)]
  }

  /**
   Where slot `x` has its entry from when `n` slots are copied one after the other, each from what its
   source holds by then: a source that has been copied to already passes its own source's entry on.
   */
  ghost function Origin(d: nat, s: nat, n: nat, x: nat): (y: nat)
    ensures x < SLOTS && d + n <= SLOTS && s + n <= SLOTS ==> y < SLOTS
    decreases x
  {
    if !(d <= x < d + n) then x
    else if s < d then Origin(d, s, n, x - (d - s))
    else s + (x - d)
  }

  /** Slots `d`, `d + 1`, ... taking one after the other what slots `s`, `s + 1`, ... hold. */
  ghost predicate Forwarded(v: Shadow, w: Shadow, d: nat, s: nat, n: nat)
    requires forall x :: 0 <= x < SLOTS ==> x in v && x in w
    requires d + n <= SLOTS && s + n <= SLOTS
  {
    forall x: nat {:trigger Origin(d, s, n, x)} :: x < SLOTS ==> w[x] == v[Origin(d, s, n, x)]
  }

  class Trie {
    const preallocate: bool
    const primary: array<array?<Entry>>
    ghost var tables: set<array<Entry>>
    /** The flat map that the tables stand for. */
    ghost var shadow: Shadow

    ghost predicate Shape()
      reads `tables, primary, tables
    {
      && primary.Length == PRIMARY
      && (forall i :: 0 <= i < PRIMARY && primary[i] != null ==> primary[i] in tables && primary[i].Length == SECONDARY)
      && (forall i, j :: 0 <= i < j < PRIMARY && primary[i] != null ==> primary[i] != primary[j])
      && (forall t: array<Entry> :: t in tables ==> t as object != primary)
    }

    /** Only tables made since have been added to `before`. */
    twostate predicate Grown(before: set<array<Entry>>)
      reads this
    {
      before <= tables && forall t :: t in tables && t !in before ==> fresh(t)
    }

    /** No table is made but at indices `a` to `b` and `c` to `d`, and none that there was is replaced. */
    twostate predicate MadeWithin(a: nat, b: nat, c: nat, d: nat)
      requires primary.Length == PRIMARY
      reads primary
    {
      forall i :: 0 <= i < PRIMARY && (old(primary[i]) != null || !(a <= i <= b || c <= i <= d)) ==>
        primary[i] == old(primary[i])
    }

    ghost function Flat(slot: nat): Entry
      requires Shape() && slot < SLOTS
      reads `tables, primary, tables
    {
      var t := primary[slot / SECONDARY];
      if t == null then ZERO else t[slot % SECONDARY]
    }

    ghost predicate Valid()
      reads this, primary, tables
    {
      && Shape()
      && (forall x :: x in shadow <==> 0 <= x < SLOTS)
      && (forall x: nat {:trigger Flat(x)} :: x < SLOTS ==> shadow[x] == Flat(x))
    }

    ghost function View(): Shadow
      reads `shadow
    {
      shadow
    }

    constructor (preallocate: bool)
      ensures Valid() && fresh(primary) && fresh(tables) && this.preallocate == preallocate
      ensures forall x :: 0 <= x < SLOTS ==> View()[x] == ZERO
      ensures forall i :: 0 <= i < PRIMARY ==> primary[i] == null
    {
      this.preallocate := preallocate;
      primary := new array?<Entry>[PRIMARY](_ => null);
      tables := {};
      shadow := imap x: nat | x < SLOTS :: Unwritten(x);
    }

    /** The secondary table at `i`, which is made if it does not exist. */
    method Table(i: nat) returns (t: array<Entry>)
      requires Valid() && i < PRIMARY
      modifies this`tables, primary
      ensures Valid() && Grown(old(tables))
      ensures primary[i] == t && MadeWithin(i, i, i, i) && (old(primary[i]) != null ==> tables == old(tables))
      ensures View() == old(View())
    {
      var s := primary[i];
      if s == null {
        t := new Entry[SECONDARY](_ => ZERO);
        primary[i] := t;
        tables := tables + {t};
      } else {
        t := s;
      }
      assert forall x: nat :: x < SLOTS ==> Flat(x) == old(Flat(x));
    }

    /** In a preallocated trie the table for an address must have been made beforehand. */
    ghost predicate Present(addr: nat)
      requires Valid() && addr < LIMIT
      reads this, primary, tables
    {
      primary[PrimaryIndex(addr)] != null
    }

    method MetadataStore(addr: nat, e: Entry)
      requires Valid() && addr < LIMIT && (preallocate ==> Present(addr))
      modifies this`tables, this`shadow, primary, tables
      ensures Valid() && Grown(old(tables))
      ensures View() == old(View())[addr / 8 := e]
      ensures Present(addr) && var p := PrimaryIndex(addr); MadeWithin(p, p, p, p)
    {
      IndexOfSlot(addr);
      var p := PrimaryIndex(addr);
      var t := primary[p];
      if !preallocate {
        t := Table(p);
      }
      Write(t, addr, e);
    }

    method MetadataLoad(addr: nat) returns (e: Entry)
      requires Valid() && addr < LIMIT && (preallocate ==> Present(addr))
      ensures e == View()[addr / 8]
    {
      IndexOfSlot(addr);
      var t := primary[PrimaryIndex(addr)];
      if !preallocate && t == null {
        assert Flat(addr / 8) == ZERO;
        return ZERO;
      }
      e := t[SecondaryIndex(addr)];
      assert e == Flat(addr / 8);
    }

    /** The table and place of an entry, for loads of single fields; it does not check for null. */
    method MetadataMap(addr: nat) returns (t: array<Entry>, i: nat)
      requires Valid() && addr < LIMIT && Present(addr)
      ensures t in tables && i < t.Length && t[i] == View()[addr / 8]
    {
      IndexOfSlot(addr);
      t, i := primary[PrimaryIndex(addr)], SecondaryIndex(addr);
      assert t[i] == Flat(addr / 8);
    }

    /** Makes the tables for a range of addresses, in a preallocated trie. */
    method AllocateRange(start: nat, size: nat)
      requires Valid() && start + size < LIMIT
      modifies this`tables, primary
      ensures Valid() && Grown(old(tables))
      ensures View() == old(View())
      ensures var p, q := PrimaryIndex(start), PrimaryIndex(start + size); MadeWithin(p, q, p, q)
      ensures preallocate ==> forall a :: start <= a <= start + size ==> Present(a)
    {
      if !preallocate {
        return;
      }
      var i, last := PrimaryIndex(start), PrimaryIndex(start + size);
      while i <= last
        invariant Valid() && Grown(old(tables))
        invariant PrimaryIndex(start) <= i <= last + 1 <= PRIMARY
        invariant MadeWithin(PrimaryIndex(start), last, PrimaryIndex(start), last)
        invariant View() == old(View())
        invariant forall j :: PrimaryIndex(start) <= j < i ==> primary[j] != null
      {
        var t := Table(i);
        i := i + 1;
      }
    }

    /** Makes the table for an address and its two neighbours, in a preallocated trie. */
    method Allocate(addr: nat)
      requires Valid() && addr < LIMIT && PrimaryIndex(addr) + 1 < PRIMARY
      modifies this`tables, primary
      ensures Valid() && Grown(old(tables))
      ensures View() == old(View())
      ensures var p := PrimaryIndex(addr); MadeWithin(if p == 0 then 0 else p - 1, p + 1, p, p)
      ensures preallocate ==> Present(addr)
    {
      if !preallocate {
        return;
      }
      var p := PrimaryIndex(addr);
      var t := Table(p);
      t := Table(p + 1);
      if p != 0 {
        t := Table(p - 1);
      }
    }

    /** Copies one entry between the slots of two addresses, making the tables that are missing. */
    method CopyEntry(dest: nat, from: nat)
      requires Valid() && dest < LIMIT && from < LIMIT
      modifies this`tables, this`shadow, primary, tables
      ensures Valid() && Grown(old(tables))
      ensures View() == old(View())[dest / 8 := old(View())[from / 8]]
      ensures var p, q := PrimaryIndex(from), PrimaryIndex(dest); MadeWithin(p, p, q, q)
    {
      IndexOfSlot(dest);
      IndexOfSlot(from);
      var strie := Table(PrimaryIndex(from));
      var dtrie := Table(PrimaryIndex(dest));
      assert strie[SecondaryIndex(from)] == Flat(from / 8);
      Write(dtrie, dest, strie[SecondaryIndex(from)]);
    }

    /** One entry of a secondary table. */
    method Write(t: array<Entry>, addr: nat, e: Entry)
      requires Valid() && addr < LIMIT && t == primary[PrimaryIndex(addr)]
      modifies this`shadow, t
      ensures Valid() && View() == old(View())[addr / 8 := e]
    {
      IndexOfSlot(addr);
      ghost var before := shadow;
      t[SecondaryIndex(addr)] := e;
      shadow := shadow[addr / 8 := e];
      forall x: nat | x < SLOTS
        ensures Flat(x) == shadow[x]
      {
        SameSlot(addr, x);
        assert old(Flat(x)) == before[x];
      }
    }

    /** One more slot of a copy from slot `s` on to slot `d` on, `k` of which are done. */
    method CopyNext(dest: nat, from: nat, ghost v: Shadow, ghost d: nat, ghost s: nat, ghost k: nat)
      requires Valid() && dest < LIMIT && from < LIMIT && dest / 8 == d + k && from / 8 == s + k
      requires (forall x :: 0 <= x < SLOTS ==> x in v) && d + k < SLOTS && s + k < SLOTS
      requires Forwarded(v, View(), d, s, k)
      modifies this`tables, this`shadow, primary, tables
      ensures Valid() && Grown(old(tables))
      ensures Forwarded(v, View(), d, s, k + 1)
      ensures var p, q := PrimaryIndex(from), PrimaryIndex(dest); MadeWithin(p, p, q, q)
    {
      ghost var w := View();
      CopyEntry(dest, from);
      ForwardedMore(v, w, View(), d, s, k);
    }

    /** Slot by slot, for ranges that reach into several secondary tables. */
    method CopySlots(dest: nat, from: nat, size: nat)
      requires Valid() && dest + size <= LIMIT && from + size <= LIMIT && from % 8 == 0
      modifies this`tables, this`shadow, primary, tables
      ensures Valid() && Grown(old(tables))
      ensures dest / 8 + (size + 7) / 8 <= SLOTS && from / 8 + (size + 7) / 8 <= SLOTS
      ensures Forwarded(old(View()), View(), dest / 8, from / 8, (size + 7) / 8)
      ensures MadeWithin(PrimaryIndex(from), PrimaryIndex(from + size), PrimaryIndex(dest), PrimaryIndex(dest + size))
    {
      var index := 0;
      ghost var v, k := View(), 0;
      while index < size
        invariant index == 8 * k && index <= size + 7
        invariant Valid() && Grown(old(tables))
        invariant dest / 8 + k <= SLOTS && from / 8 + k <= SLOTS && Forwarded(v, View(), dest / 8, from / 8, k)
        invariant MadeWithin(PrimaryIndex(from), PrimaryIndex(from + size),
                             PrimaryIndex(dest), PrimaryIndex(dest + size))
      {
        SlotAt(dest, size, k);
        SlotAt(from, size, k);
        CopyNext(dest + index, from + index, v, dest / 8, from / 8, k);
        index, k := index + 8, k + 1;
      }
    }

    /** In bulk, for ranges that lie in one secondary table each. */
    method CopyBulk(dest: nat, from: nat, size: nat)
      requires Valid() && dest + size <= LIMIT && from + size <= LIMIT
      requires Apart(dest / 8, from / 8, size / 8) && !Crosses(dest, from, size) && from < LIMIT && dest < LIMIT
      modifies this`tables, this`shadow, primary, tables
      ensures Valid() && Grown(old(tables))
      ensures var n := if old(primary[PrimaryIndex(from)]) != null then size / 8 else 0;
        dest / 8 + n <= SLOTS && from / 8 + n <= SLOTS && Copied(old(View()), View(), dest / 8, from / 8, n)
      ensures var p := PrimaryIndex(dest); MadeWithin(p, p, p, p)
    {
      var fromTable := primary[PrimaryIndex(from)];
      if fromTable == null {
        return;
      }
      var dtable := Table(PrimaryIndex(dest));
      BulkFits(dest, size);
      BulkFits(from, size);
      if PrimaryIndex(dest) == PrimaryIndex(from) {
        BulkApart(dest, from, size);
      }
      CopyInTables(dtable, dest, fromTable, from, size / 8);
    }

    /** Part of one secondary table copied to part of another, or of the same. */
    method CopyInTables(dt: array<Entry>, dest: nat, st: array<Entry>, from: nat, n: nat)
      requires Valid() && dest < LIMIT && from < LIMIT
      requires dt == primary[PrimaryIndex(dest)] && st == primary[PrimaryIndex(from)]
      requires SecondaryIndex(dest) + n <= SECONDARY && SecondaryIndex(from) + n <= SECONDARY
      requires PrimaryIndex(dest) == PrimaryIndex(from) ==>
        SecondaryIndex(dest) + n <= SecondaryIndex(from) || SecondaryIndex(from) + n <= SecondaryIndex(dest)
      modifies this`shadow, dt
      ensures Valid() && dest / 8 + n <= SLOTS && from / 8 + n <= SLOTS
      ensures Copied(old(View()), View(), dest / 8, from / 8, n)
    {
      IndexOfSlot(dest);
      IndexOfSlot(from);
      ghost var v, d, s := View(), dest / 8, from / 8;
      MoveEntries(dt, dest, st, from, n);
      shadow := imap x: nat | x < SLOTS :: v[Source(d, s, n, x)];
      forall x: nat | x < SLOTS
        ensures Flat(x) == shadow[x]
      {
        assert Flat(x) == old(Flat(Source(d, s, n, x))) == v[Source(d, s, n, x)];
      }
    }

    /** The entries themselves, and what the slots hold then. */
    method MoveEntries(dt: array<Entry>, dest: nat, st: array<Entry>, from: nat, n: nat)
      requires Shape() && dest < LIMIT && from < LIMIT && dest / 8 + n <= SLOTS && from / 8 + n <= SLOTS
      requires dt == primary[PrimaryIndex(dest)] && st == primary[PrimaryIndex(from)]
      requires SecondaryIndex(dest) + n <= SECONDARY && SecondaryIndex(from) + n <= SECONDARY
      requires PrimaryIndex(dest) == PrimaryIndex(from) ==>
        SecondaryIndex(dest) + n <= SecondaryIndex(from) || SecondaryIndex(from) + n <= SecondaryIndex(dest)
      modifies dt
      ensures Shape()
      ensures forall x: nat {:trigger Flat(x)} :: x < SLOTS ==> Flat(x) == old(Flat(Source(dest / 8, from / 8, n, x)))
    {
      CopyEntries(dt, SecondaryIndex(dest), st, SecondaryIndex(from), n);
      forall x: nat | x < SLOTS
        ensures Flat(x) == old(Flat(Source(dest / 8, from / 8, n, x)))
      {
        SourceInBulk(dest, from, n, x);
      }
    }

    /** Slots of a table that was never made hold nothing. */
    lemma AbsentIsClear(p: nat)
      requires Valid() && p < PRIMARY && primary[p] == null
      ensures forall x: nat :: x < SLOTS && x / SECONDARY == p ==> View()[x] == ZERO
    {
      forall x: nat | x < SLOTS && x / SECONDARY == p
        ensures View()[x] == ZERO
      {
        assert Flat(x) == ZERO;
      }
    }

    /**
     Copies the metadata of a block that was copied. Ranges within one secondary table each are
     copied in bulk, others slot by slot.
     */
    method CopyMetadata(dest: nat, from: nat, size: nat)
      requires Valid() && dest + size <= LIMIT && from + size <= LIMIT && dest < LIMIT && from < LIMIT
      requires from % 8 == 0 && !Crosses(dest, from, size) ==> Apart(dest / 8, from / 8, size / 8)
      modifies this`tables, this`shadow, primary, tables
      ensures Valid() && Grown(old(tables))
      ensures var n := CopyCount(dest, from, size, old(primary[PrimaryIndex(from)]) != null);
        dest / 8 + n <= SLOTS && from / 8 + n <= SLOTS && Forwarded(old(View()), View(), dest / 8, from / 8, n)
      ensures MadeWithin(PrimaryIndex(from), PrimaryIndex(from + size), PrimaryIndex(dest), PrimaryIndex(dest + size))
      ensures from % 8 == 0 && size % 8 == 0 ==>
        && dest / 8 + size / 8 <= SLOTS && from / 8 + size / 8 <= SLOTS
        && (Copied(old(View()), View(), dest / 8, from / 8, size / 8) <==>
            Faithful(old(View()), dest, from, size, old(primary[PrimaryIndex(from)]) != null))
    {
      if from % 8 != 0 {
        return;
      }
      ghost var v, present := View(), primary[PrimaryIndex(from)] != null;
      if !present {
        AbsentIsClear(PrimaryIndex(from));
      }
      if Crosses(dest, from, size) {
        CopySlots(dest, from, size);
      } else {
        CopyBulk(dest, from, size);
        CopiedIsForwarded(v, View(), dest / 8, from / 8, CopyCount(dest, from, size, present));
      }
      if size % 8 == 0 {
        CopyIsComplete(v, View(), dest, from, size, present);
      }
    }
  }

  /** The `n` slots that a bulk copy reads and those that it writes do not overlap, as memcpy demands. */
  predicate Apart(d: nat, s: nat, n: nat) {
    d + n <= s || s + n <= d
  }

  /** Copying one slot more does not change where the other slots have their entries from. */
  lemma {:induction false} OriginKept(d: nat, s: nat, k: nat, x: nat)
    requires x != d + k
    ensures Origin(d, s, k + 1, x) == Origin(d, s, k, x)
    decreases x
  {
    if d <= x < d + k && s < d {
      OriginKept(d, s, k, x - (d - s));
    }
  }

  lemma ForwardedMore(v: Shadow, w: Shadow, w': Shadow, d: nat, s: nat, k: nat)
    requires forall x :: 0 <= x < SLOTS ==> x in v && x in w
    requires d + k < SLOTS && s + k < SLOTS && Forwarded(v, w, d, s, k)
    requires w' == w[d + k := w[s + k]]
    ensures Forwarded(v, w', d, s, k + 1)
  {
    forall x: nat | x < SLOTS
      ensures w'[x] == v[Origin(d, s, k + 1, x)]
    {
      assert w[x] == v[Origin(d, s, k, x)] && w[s + k] == v[Origin(d, s, k, s + k)];
      if x != d + k {
        OriginKept(d, s, k, x);
      } else if s < d {
        OriginKept(d, s, k, s + k);
      }
    }
  }

  /** Copying one after the other is copying at once when no slot is read that was written before. */
  lemma CopiedIsForwarded(v: Shadow, w: Shadow, d: nat, s: nat, n: nat)
    requires forall x :: 0 <= x < SLOTS ==> x in v && x in w
    requires d + n <= SLOTS && s + n <= SLOTS && (d <= s || s + n <= d)
    ensures Forwarded(v, w, d, s, n) <==> Copied(v, w, d, s, n)
  {
    assert forall x: nat {:trigger Origin(d, s, n, x)} {:trigger Source(d, s, n, x)} ::
        Origin(d, s, n, x) == Source(d, s, n, x);
  }

  lemma SlotAt(addr: nat, size: nat, k: nat)
    requires 8 * k < size
    ensures (addr + 8 * k) / 8 == addr / 8 + k && k < (size + 7) / 8
  {
  }

  lemma BulkApart(dest: nat, from: nat, size: nat)
    requires Apart(dest / 8, from / 8, size / 8) && PrimaryIndex(dest) == PrimaryIndex(from)
    ensures Apart(SecondaryIndex(dest), SecondaryIndex(from), size / 8)
  {
    IndexOfSlot(dest);
    IndexOfSlot(from);
  }

  /** A range that does not cross stays within its secondary table. */
  lemma BulkFits(addr: nat, size: nat)
    requires PrimaryIndex(addr) == PrimaryIndex(addr + size)
    ensures SecondaryIndex(addr) + size / 8 <= SECONDARY
  {
    IndexOfSlot(addr);
    IndexOfSlot(addr + size);
  }

  /** The slots of such a range are neighbours in that table, and no other slots are there. */
  lemma InBulk(addr: nat, n: nat, x: nat)
    requires SecondaryIndex(addr) + n <= SECONDARY
    ensures addr / 8 <= x < addr / 8 + n
      <==> x / SECONDARY == PrimaryIndex(addr) && SecondaryIndex(addr) <= x % SECONDARY < SecondaryIndex(addr) + n
    ensures addr / 8 <= x < addr / 8 + n ==> x % SECONDARY - SecondaryIndex(addr) == x - addr / 8
  {
    IndexOfSlot(addr);
  }

  /** Where a slot takes its entry from in such a copy, as places in tables. */
  lemma SourceInBulk(dest: nat, from: nat, n: nat, x: nat)
    requires SecondaryIndex(dest) + n <= SECONDARY && SecondaryIndex(from) + n <= SECONDARY
    ensures var y, di, i := Source(dest / 8, from / 8, n, x), SecondaryIndex(dest), x % SECONDARY;
      if x / SECONDARY == PrimaryIndex(dest) && di <= i < di + n
      then y / SECONDARY == PrimaryIndex(from) && y % SECONDARY == SecondaryIndex(from) + (i - di)
      else y == x
  {
    InBulk(dest, n, x);
    if dest / 8 <= x < dest / 8 + n {
      InBulk(from, n, from / 8 + (x - dest / 8));
    }
  }

  /** Whether either range reaches into another secondary table, or up to its edge. */
  predicate Crosses(dest: nat, from: nat, size: nat) {
    PrimaryIndex(from) != PrimaryIndex(from + size) || PrimaryIndex(dest) != PrimaryIndex(dest + size)
  }

  /** How many slots a call copies, given whether the source's first secondary table exists. */
  function CopyCount(dest: nat, from: nat, size: nat, present: bool): nat {
    if from % 8 != 0 then 0
    else if Crosses(dest, from, size) then (size + 7) / 8
    else if !present then 0
    else size / 8
  }

  /** `n` entries of one table have been copied, all at once, from another or from elsewhere in it. */
  twostate predicate BulkMoved(dt: array<Entry>, di: nat, st: array<Entry>, si: nat, n: nat)
    requires si + n <= st.Length
    reads dt
  {
    forall i :: 0 <= i < dt.Length ==> dt[i] == if di <= i < di + n then old(st[si + (i - di)]) else old(dt[i])
  }

  /** memcpy between parts of tables that do not overlap. */
  method CopyEntries(dt: array<Entry>, di: nat, st: array<Entry>, si: nat, n: nat)
    requires di + n <= dt.Length && si + n <= st.Length
    requires dt == st ==> di + n <= si || si + n <= di
    modifies dt
    ensures BulkMoved(dt, di, st, si, n)
  {
    var k := 0;
    while k < n
      invariant 0 <= k <= n && BulkMoved(dt, di, st, si, k)
    {
      dt[di + k] := st[si + k];
      k := k + 1;
    }
  }

  // ---------- what stores and copies leave ----------

  /** The shadow after a history of stores. */
  ghost function AfterStores(v: Shadow, stores: seq<(nat, Entry)>): Shadow {
    if stores == [] then v
    else AfterStores(v, stores[..|stores| - 1])[stores[|stores| - 1].0 / 8 := stores[|stores| - 1].1]
  }

  /** A load gives what was last stored to the same 8-byte slot, whatever else was stored. */
  lemma {:induction false} LastStoreWins(v: Shadow, stores: seq<(nat, Entry)>, addr: nat, i: nat)
    requires i < |stores| && stores[i].0 / 8 == addr / 8
    requires forall j :: i < j < |stores| ==> stores[j].0 / 8 != addr / 8
    ensures addr / 8 in AfterStores(v, stores) && AfterStores(v, stores)[addr / 8] == stores[i].1
  {
    if i < |stores| - 1 {
      LastStoreWins(v, stores[..|stores| - 1], addr, i);
    }
  }

  ghost predicate Clear(v: Shadow, d: nat, n: nat)
    requires forall x :: 0 <= x < SLOTS ==> x in v
    requires d + n <= SLOTS
  {
    forall x: nat :: d <= x < d + n ==> v[x] == ZERO
  }

  /** The entries of `n` slots repeat every `p` slots. */
  ghost predicate Periodic(v: Shadow, s: nat, n: nat, p: nat)
    requires forall x :: 0 <= x < SLOTS ==> x in v
    requires s + n <= SLOTS
  {
    forall x: nat :: s <= x && x + p < s + n ==> Repeats(v, x, p)
  }

  ghost predicate Repeats(v: Shadow, x: nat, p: nat)
    requires x in v && x + p in v
  {
    v[x] == v[x + p]
  }

  /**
   When a copy of whole slots from an aligned source will be complete, said of the state before it. Slot by
   slot: the destination does not begin inside the source, or what is read after it was written repeats
   anyway. In bulk: the source's table exists, or there is nothing at the destination.
   */
  ghost predicate Faithful(v: Shadow, dest: nat, from: nat, size: nat, present: bool)
    requires forall x :: 0 <= x < SLOTS ==> x in v
    requires dest + size <= LIMIT && from + size <= LIMIT && size % 8 == 0
  {
    var d, s, n := dest / 8, from / 8, size / 8;
    if Crosses(dest, from, size) then d <= s || s + n <= d || Periodic(v, s, n, d - s)
    else present || Clear(v, d, n)
  }

  /**
   When a copy is complete, exactly. A bulk copy from a table that was never made leaves stale metadata
   behind; a copy slot by slot to a place inside its own source fills it with repetitions.
   */
  lemma CopyIsComplete(v: Shadow, w: Shadow, dest: nat, from: nat, size: nat, present: bool)
    requires forall x :: 0 <= x < SLOTS ==> x in v && x in w
    requires dest + size <= LIMIT && from + size <= LIMIT && from % 8 == 0 && size % 8 == 0
    requires !Crosses(dest, from, size) ==> Apart(dest / 8, from / 8, size / 8)
    requires !present ==> forall x: nat :: x < SLOTS && x / SECONDARY == PrimaryIndex(from) ==> v[x] == ZERO
    requires dest / 8 + size / 8 <= SLOTS && from / 8 + size / 8 <= SLOTS
    requires Forwarded(v, w, dest / 8, from / 8, CopyCount(dest, from, size, present))
    ensures Copied(v, w, dest / 8, from / 8, size / 8) <==> Faithful(v, dest, from, size, present)
  {
    if Crosses(dest, from, size) {
      SlotwiseIsComplete(v, w, dest / 8, from / 8, size / 8);
    } else {
      CopiedIsForwarded(v, w, dest / 8, from / 8, CopyCount(dest, from, size, present));
      if !present {
        NothingCopied(v, w, dest, from, size);
      }
    }
  }

  lemma SlotwiseIsComplete(v: Shadow, w: Shadow, d: nat, s: nat, n: nat)
    requires forall x :: 0 <= x < SLOTS ==> x in v && x in w
    requires d + n <= SLOTS && s + n <= SLOTS && Forwarded(v, w, d, s, n)
    ensures Copied(v, w, d, s, n) <==> d <= s || s + n <= d || Periodic(v, s, n, d - s)
  {
    if d <= s || s + n <= d {
      CopiedIsForwarded(v, w, d, s, n);
    } else {
      RepetitionShows(v, w, d, s, n);
      if Copied(v, w, d, s, n) {
        OnlyRepetition(v, w, d, s, n);
      }
    }
  }

  lemma NothingCopied(v: Shadow, w: Shadow, dest: nat, from: nat, size: nat)
    requires forall x :: 0 <= x < SLOTS ==> x in v && x in w
    requires PrimaryIndex(from) == PrimaryIndex(from + size)
    requires forall x: nat :: x < SLOTS && x / SECONDARY == PrimaryIndex(from) ==> v[x] == ZERO
    requires dest / 8 + size / 8 <= SLOTS && from / 8 + size / 8 <= SLOTS
    requires Copied(v, w, dest / 8, from / 8, 0)
    ensures Copied(v, w, dest / 8, from / 8, size / 8) <==> Clear(v, dest / 8, size / 8)
  {
    var d, s, n := dest / 8, from / 8, size / 8;
    BulkFits(from, size);
    forall x: nat | x < SLOTS
      ensures w[x] == v[x] && v[Source(d, s, n, x)] == if d <= x < d + n then ZERO else v[x]
    {
      assert Source(d, s, 0, x) == x;
      if d <= x < d + n {
        InBulk(from, n, s + (x - d));
      }
    }
    if Copied(v, w, d, s, n) {
      forall x: nat | d <= x < d + n
        ensures v[x] == ZERO
      {
        assert w[x] == v[Source(d, s, n, x)];
      }
    }
  }

  /** In entries that repeat, what a slot passes on is what its source held. */
  lemma {:induction false} OriginRepeats(v: Shadow, d: nat, s: nat, n: nat, x: nat)
    requires forall y :: 0 <= y < SLOTS ==> y in v
    requires d + n <= SLOTS && s < d < s + n && Periodic(v, s, n, d - s) && d <= x < d + n
    ensures v[Origin(d, s, n, x)] == v[x - (d - s)]
    decreases x
  {
    var y := x - (d - s);
    if y >= d {
      OriginRepeats(v, d, s, n, y);
      assert Repeats(v, y - (d - s), d - s);
    }
  }

  lemma RepetitionShows(v: Shadow, w: Shadow, d: nat, s: nat, n: nat)
    requires forall x :: 0 <= x < SLOTS ==> x in v && x in w
    requires d + n <= SLOTS && s < d < s + n && Forwarded(v, w, d, s, n)
    ensures Periodic(v, s, n, d - s) ==> Copied(v, w, d, s, n)
  {
    if Periodic(v, s, n, d - s) {
      forall x: nat | x < SLOTS
        ensures w[x] == v[Source(d, s, n, x)]
      {
        assert w[x] == v[Origin(d, s, n, x)];
        if d <= x < d + n {
          OriginRepeats(v, d, s, n, x);
        }
      }
    }
  }

  lemma OnlyRepetition(v: Shadow, w: Shadow, d: nat, s: nat, n: nat)
    requires forall x :: 0 <= x < SLOTS ==> x in v && x in w
    requires d + n <= SLOTS && s < d < s + n && Forwarded(v, w, d, s, n) && Copied(v, w, d, s, n)
    ensures Periodic(v, s, n, d - s)
  {
    var p := d - s;
    forall x: nat | s <= x && x + p < s + n
      ensures Repeats(v, x, p)
    {
      var y := x + p;
      var z := y + p;
      assert Origin(d, s, n, z) == Origin(d, s, n, y);
      assert w[z] == v[Source(d, s, n, z)] && w[y] == v[Source(d, s, n, y)];
    }
  }

  // ---------- the copies that fail ----------

  lemma NoneCopied(v: Shadow, w: Shadow, d: nat, s: nat, x: nat)
    requires forall y :: 0 <= y < SLOTS ==> y in v && y in w
    requires d <= SLOTS && s <= SLOTS && x < SLOTS && Forwarded(v, w, d, s, 0)
    ensures w[x] == v[x]
  {
    assert Origin(d, s, 0, x) == x;
  }

  /** A new trie with one entry, for address 0. */
  method OneEntry(e: Entry) returns (t: Trie)
    ensures fresh(t) && fresh(t.primary) && fresh(t.tables) && t.Valid() && !t.preallocate
    ensures t.primary[1] == null && t.View()[0] == e && forall x :: 0 < x < SLOTS ==> t.View()[x] == ZERO
  {
    t := new Trie(false);
    t.MetadataStore(0, e);
  }

  /**
   An entry is stored for address 0 of a new trie, and 8 bytes are copied there from an address whose table
   was never made. The source has no entry, and the destination keeps its own.
   */
  method StaleCopy(e: Entry) returns (t: Trie)
    ensures fresh(t) && t.Valid()
    ensures t.View()[0] == e && t.View()[0x200_0000 / 8] == ZERO
  {
    t := OneEntry(e);
    ghost var v := t.View();
    t.CopyMetadata(0, 0x200_0000, 8);
    NoneCopied(v, t.View(), 0, 0x40_0000, 0);
    NoneCopied(v, t.View(), 0, 0x40_0000, 0x40_0000);
  }

  /** The slot that is copied from the first slot written has the entry of the first slot read. */
  lemma CopiedTwice(v: Shadow, w: Shadow, d: nat, s: nat, n: nat)
    requires forall y :: 0 <= y < SLOTS ==> y in v && y in w
    requires d + n <= SLOTS && s < d && d - s < n && Forwarded(v, w, d, s, n)
    ensures w[d + (d - s)] == v[s]
  {
    assert Origin(d, s, n, d + (d - s)) == Origin(d, s, n, d) == s;
  }

  /** A new trie with an entry for the address 0x1ffffe0, and one for the first of the next table. */
  method TwoEntries(e1: Entry, e2: Entry) returns (t: Trie)
    ensures fresh(t) && fresh(t.primary) && fresh(t.tables) && t.Valid() && !t.preallocate
    ensures t.View()[0x1ff_ffe0 / 8] == e1 && t.View()[0x200_0000 / 8] == e2
  {
    t := new Trie(false);
    t.MetadataStore(0x1ff_ffe0, e1);
    t.MetadataStore(0x200_0000, e2);
  }

  /** A copy that goes slot by slot, whose first written slot is itself copied on. */
  method CopyOverEdge(t: Trie, dest: nat, from: nat, size: nat)
    requires t.Valid() && dest + size <= LIMIT && from % 8 == 0 && from < dest && Crosses(dest, from, size)
    requires dest / 8 > from / 8 && dest / 8 - from / 8 < (size + 7) / 8
    modifies t`tables, t`shadow, t.primary, t.tables
    ensures dest / 8 + (dest / 8 - from / 8) in t.View()
    ensures t.View()[dest / 8 + (dest / 8 - from / 8)] == old(t.View())[from / 8]
  {
    ghost var v, d, s := t.View(), dest / 8, from / 8;
    t.CopyMetadata(dest, from, size);
    CopiedTwice(v, t.View(), d, s, (size + 7) / 8);
  }

  /**
   A block at 0x1ffffe0 is enlarged to 64 bytes and moves up by 32, over the edge of a table. The word behind
   its first 32 bytes had the entry `e2`; in the new place that word has the entry of the first one.
   */
  method RepeatingCopy(e1: Entry, e2: Entry) returns (t: Trie)
    ensures 0x200_0020 / 8 in t.View() && t.View()[0x200_0020 / 8] == e1
  {
    t := TwoEntries(e1, e2);
    CopyOverEdge(t, 0x200_0000, 0x1ff_ffe0, 64);
  }
}
