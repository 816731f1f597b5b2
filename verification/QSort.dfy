/**
 The runtime's qsort: an insertion sort in place that swaps, with the bytes of two elements, the
 metadata of the slots they occupy.
 */
module QSort {
  import opened Common
  import opened MetadataTrie

  /** An element as the sort sees it: its bytes, and, when elements fill whole slots, the metadata of its slots. */
  datatype Item = Item(bytes: seq<byte>, meta: seq<Entry>)

  type Comparer = (seq<byte>, seq<byte>) -> int

  /** Where `x` is found after two stretches of length `n`, from `p` and from `q`, trade places. */
  function Swap(p: nat, q: nat, n: nat, x: nat): nat {
    if p <= x < p + n then q + (x - p)
    else if q <= x < q + n then p + (x - q)
    else x
  }

  predicate Disjoint(p: nat, q: nat, n: nat) {
    p + n <= q || q + n <= p
  }

  /** One more place of two disjoint stretches that trade places. */
  lemma SwapStep(p: nat, q: nat, n: nat, x: nat)
    requires Disjoint(p, q, n + 1)
    ensures Swap(p, q, n + 1, x) == if x == p + n then q + n else if x == q + n then p + n else Swap(p, q, n, x)
    ensures Swap(p, q, n, p + n) == p + n && Swap(p, q, n, q + n) == q + n
  {
  }

  class Sorter {
    /** The program's memory, by address. */
    var mem: seq<byte>
    const trie: Trie

    ghost predicate Valid()
      reads this, trie, trie.primary, trie.tables
    {
      trie.Valid() && !trie.preallocate
    }

    constructor (mem: seq<byte>)
      ensures Valid() && this.mem == mem && fresh(trie) && fresh(trie.primary) && fresh(trie.tables)
    {
      this.mem := mem;
      trie := new Trie(false);
    }

    /** The bytes of two elements, one after the other. */
    method ExchangeBytes(a1: nat, a2: nat, size: nat)
      requires Disjoint(a1, a2, size)
      requires a1 + size <= |mem| && a2 + size <= |mem|
      modifies this`mem
      ensures BytesSwapped(old(mem), mem, a1, a2, size)
    {
      var i := 0;
      ghost var m := mem;
      while i < size
        invariant i <= size && BytesSwapped(m, mem, a1, a2, i)
      {
        ghost var w := mem;
        var temp := mem[a1 + i];
        mem := mem[a1 + i := mem[a2 + i]];
        mem := mem[a2 + i := temp];
        BytesSwappedMore(m, w, a1, a2, i);
        i := i + 1;
      }
    }

    method StoreBoth(addr1: nat, addr2: nat, e1: Entry, e2: Entry, ghost s1: nat, ghost s2: nat)
      requires Valid() && addr1 < LIMIT && addr2 < LIMIT && addr1 / 8 == s1 && addr2 / 8 == s2
      modifies trie`tables, trie`shadow, trie.primary, trie.tables
      ensures Valid() && trie.Grown(old(trie.tables))
      ensures trie.View() == old(trie.View())[s1 := e1][s2 := e2]
    {
      trie.MetadataStore(addr1, e1);
      trie.MetadataStore(addr2, e2);
    }

    /** The metadata of one slot of each element. */
    method ExchangeSlot(addr1: nat, addr2: nat, ghost s1: nat, ghost s2: nat)
      requires Valid() && addr1 < LIMIT && addr2 < LIMIT && addr1 / 8 == s1 && addr2 / 8 == s2
      modifies trie`tables, trie`shadow, trie.primary, trie.tables
      ensures Valid() && trie.Grown(old(trie.tables)) && s1 < SLOTS && s2 < SLOTS
      ensures trie.View() == Traded(old(trie.View()), s1, s2)
    {
      var e1 := trie.MetadataLoad(addr1);
      var e2 := trie.MetadataLoad(addr2);
      StoreBoth(addr1, addr2, e2, e1, s1, s2);
    }

    /** The metadata of two elements: for every eighth byte that of the slot it lies in. */
    method ExchangeMetadata(a1: nat, a2: nat, size: nat)
      requires Valid() && a1 + size <= LIMIT && a2 + size <= LIMIT
      modifies trie`tables, trie`shadow, trie.primary, trie.tables
      ensures Valid() && trie.Grown(old(trie.tables))
      ensures SlotsTraded(old(trie.View()), trie.View(), a1, a2, size)
    {
      var i := 0;
      ghost var v, k := trie.View(), 0;
      while i < size
        invariant i == 8 * k && i <= size + 7
        invariant Valid() && trie.Grown(old(trie.tables))
        invariant trie.View() == TradedAll(v, a1, a2, k)
      {
        OneTrade(v, a1, a2, k);
        ExchangeSlot(a1 + i, a2 + i, (a1 + 8 * k) / 8, (a2 + 8 * k) / 8);
        i, k := i + 8, k + 1;
      }
      assert k == (size + 7) / 8;
    }

    /** Bytes, and metadata in tow. */
    method ExchangeAt(a1: nat, a2: nat, size: nat)
      requires Valid() && a1 + size <= LIMIT && a2 + size <= LIMIT && Disjoint(a1, a2, size)
      requires a1 + size <= |mem| && a2 + size <= |mem|
      modifies this`mem, trie`tables, trie`shadow, trie.primary, trie.tables
      ensures Valid() && trie.Grown(old(trie.tables))
      ensures BytesSwapped(old(mem), mem, a1, a2, size)
      ensures SlotsTraded(old(trie.View()), trie.View(), a1, a2, size)
    {
      ExchangeBytes(a1, a2, size);
      ExchangeMetadata(a1, a2, size);
    }

    /** Elements `idx1` and `idx2` of the array at `base` change places. */
    method ExchangeElements(base: nat, size: nat, idx1: nat, idx2: nat, ghost n: nat)
      requires Valid() && Fits(mem, base, size, n) && idx1 < n && idx2 < n && idx1 != idx2
      modifies this`mem, trie`tables, trie`shadow, trie.primary, trie.tables
      ensures Valid() && trie.Grown(old(trie.tables)) && |mem| == |old(mem)|
      ensures Items(mem, trie.View(), base, size, n)
           == Exchanged(old(Items(mem, trie.View(), base, size, n)), idx1, idx2)
      ensures Elsewhere(old(mem), mem, old(trie.View()), trie.View(), base, Elem(base, size, n))
    {
      ghost var m, v := mem, trie.View();
      ghost var p, q := Elem(base, size, idx1), Elem(base, size, idx2);
      ElemIs(base, size, idx1);
      ElemIs(base, size, idx2);
      ElemFits(mem, base, size, n, idx1);
      ElemFits(mem, base, size, n, idx2);
      Inside(base, size, n, idx1, idx2);
      ExchangeAt(base + idx1 * size, base + idx2 * size, size);
      ItemsExchanged(m, mem, v, trie.View(), base, size, n, idx1, idx2);
      SwapElsewhere(m, mem, v, trie.View(), p, q, size, base, Elem(base, size, n));
    }

    /** The comparer sees the bytes of two elements. */
    method ElementLessThan(base: nat, size: nat, idx1: nat, idx2: nat, comparer: Comparer, ghost n: nat)
      returns (less: bool)
      requires Valid() && Fits(mem, base, size, n) && idx1 < n && idx2 < n
      ensures var s := Items(mem, trie.View(), base, size, n); less <==> comparer(s[idx1].bytes, s[idx2].bytes) < 0
    {
      ElemIs(base, size, idx1);
      ElemIs(base, size, idx2);
      ElemFits(mem, base, size, n, idx1);
      ElemFits(mem, base, size, n, idx2);
      var a1, a2 := base + idx1 * size, base + idx2 * size;
      less := comparer(mem[a1..a1 + size], mem[a2..a2 + size]) < 0;
      assert Kth(mem, trie.View(), base, size, n, idx1).bytes == mem[a1..a1 + size];
      assert Kth(mem, trie.View(), base, size, n, idx2).bytes == mem[a2..a2 + size];
    }

    /** One turn of the inner loop: neighbours change places unless they are strictly in order. */
    method CompareExchange(base: nat, size: nat, j: nat, comparer: Comparer, ghost n: nat, ghost m: seq<byte>,
                           ghost v: Shadow)
      returns (settled: bool)
      requires Valid() && Fits(mem, base, size, n) && j + 1 < n
      requires Total(v) && Elsewhere(m, mem, v, trie.View(), base, Elem(base, size, n))
      modifies this`mem, trie`tables, trie`shadow, trie.primary, trie.tables
      ensures Valid() && trie.Grown(old(trie.tables)) && |mem| == |old(mem)|
      ensures Elsewhere(m, mem, v, trie.View(), base, Elem(base, size, n))
      ensures var s := old(Items(mem, trie.View(), base, size, n));
        && (settled <==> comparer(s[j].bytes, s[j + 1].bytes) < 0)
        && Items(mem, trie.View(), base, size, n) == if settled then s else Exchanged(s, j, j + 1)
    {
      settled := ElementLessThan(base, size, j, j + 1, comparer, n);
      if !settled {
        ghost var m1, v1 := mem, trie.View();
        ExchangeElements(base, size, j, j + 1, n);
        ElsewhereTwice(m, m1, mem, v, v1, trie.View(), base, Elem(base, size, n));
      }
    }

    /** Element `i` sinks to its place among the elements before it. */
    method Sink(base: nat, size: nat, n: nat, i: nat, comparer: Comparer)
      requires Valid() && Fits(mem, base, size, n) && i < n
      modifies this`mem, trie`tables, trie`shadow, trie.primary, trie.tables
      ensures Valid() && trie.Grown(old(trie.tables)) && |mem| == |old(mem)|
      ensures multiset(Items(mem, trie.View(), base, size, n)) == multiset(old(Items(mem, trie.View(), base, size, n)))
      ensures Elsewhere(old(mem), mem, old(trie.View()), trie.View(), base, Elem(base, size, n))
      ensures TotalPreorder(comparer) && Sorted(old(Items(mem, trie.View(), base, size, n)), i, comparer)
              ==> Sorted(Items(mem, trie.View(), base, size, n), i + 1, comparer)
    {
      ghost var m, v := mem, trie.View();
      ghost var s := Items(m, v, base, size, n);
      ghost var t := s;
      ghost var good := TotalPreorder(comparer) && Sorted(s, i, comparer);
      var j: int := i - 1;
      while j >= 0
        invariant -1 <= j < i && Valid() && trie.Grown(old(trie.tables)) && |mem| == |m|
        invariant t == Items(mem, trie.View(), base, size, n) && multiset(t) == multiset(s)
        invariant Elsewhere(m, mem, v, trie.View(), base, Elem(base, size, n))
        invariant good ==> SortedBut(t, i + 1, j + 1, comparer)
      {
        ghost var t1 := t;
        var settled := CompareExchange(base, size, j, comparer, n, m, v);
        t := Items(mem, trie.View(), base, size, n);
        if settled {
          if good {
            Settled(t, i + 1, j + 1, comparer);
          }
          return;
        }
        if good {
          SinkStep(t1, i + 1, j, comparer);
        }
        j := j - 1;
      }
    }

    /** The whole sort. The inner counter of the source is a C `int`, hence the bound on `n`. */
    method MyQsort(base: nat, n: nat, size: nat, comparer: Comparer)
      requires Valid() && Fits(mem, base, size, n) && n <= 0x8000_0000
      modifies this`mem, trie`tables, trie`shadow, trie.primary, trie.tables
      ensures Valid() && trie.Grown(old(trie.tables)) && |mem| == |old(mem)|
      ensures multiset(Items(mem, trie.View(), base, size, n)) == multiset(old(Items(mem, trie.View(), base, size, n)))
      ensures Elsewhere(old(mem), mem, old(trie.View()), trie.View(), base, Elem(base, size, n))
      ensures TotalPreorder(comparer) ==> Sorted(Items(mem, trie.View(), base, size, n), n, comparer)
    {
      ghost var m, v := mem, trie.View();
      ghost var s := Items(m, v, base, size, n);
      ghost var t := s;
      var i := 0;
      while i < n
        invariant i <= n && Valid() && trie.Grown(old(trie.tables)) && |mem| == |m|
        invariant t == Items(mem, trie.View(), base, size, n) && multiset(t) == multiset(s)
        invariant Elsewhere(m, mem, v, trie.View(), base, Elem(base, size, n))
        invariant TotalPreorder(comparer) ==> Sorted(t, i, comparer)
      {
        ghost var m1, v1 := mem, trie.View();
        Sink(base, size, n, i, comparer);
        ElsewhereTwice(m, m1, mem, v, v1, trie.View(), base, Elem(base, size, n));
        t := Items(mem, trie.View(), base, size, n);
        i := i + 1;
      }
    }
  }

  // ---------- order ----------

  predicate Le(comparer: Comparer, x: Item, y: Item) {
    comparer(x.bytes, y.bytes) <= 0
  }

  /** What C asks of a comparer: answers for (x, y) and (y, x) agree, and not-greater is transitive. */
  ghost predicate TotalPreorder(comparer: Comparer) {
    && (forall x, y :: comparer(x, y) < 0 <==> comparer(y, x) > 0)
    && (forall x, y, z :: comparer(x, y) <= 0 && comparer(y, z) <= 0 ==> comparer(x, z) <= 0)
  }

  ghost predicate Sorted(s: seq<Item>, n: nat, comparer: Comparer)
    requires n <= |s|
  {
    forall x: nat, y: nat :: x < y < n ==> Le(comparer, s[x], s[y])
  }

  /** In order, except that the element at `p` may be smaller than some before it. */
  ghost predicate SortedBut(s: seq<Item>, n: nat, p: nat, comparer: Comparer)
    requires n <= |s|
  {
    forall x: nat, y: nat :: x < y < n && y != p ==> Le(comparer, s[x], s[y])
  }

  lemma SinkStep(s: seq<Item>, n: nat, j: nat, comparer: Comparer)
    requires TotalPreorder(comparer) && j + 1 < n <= |s| && SortedBut(s, n, j + 1, comparer)
    requires !(comparer(s[j].bytes, s[j + 1].bytes) < 0)
    ensures SortedBut(Exchanged(s, j, j + 1), n, j, comparer)
  {
  }

  lemma Settled(s: seq<Item>, n: nat, p: nat, comparer: Comparer)
    requires TotalPreorder(comparer) && 0 < p < n <= |s| && SortedBut(s, n, p, comparer)
    requires comparer(s[p - 1].bytes, s[p].bytes) < 0
    ensures Sorted(s, n, comparer)
  {
    forall x: nat, y: nat | x < y < n
      ensures Le(comparer, s[x], s[y])
    {
      if y == p && x < p - 1 {
        assert Le(comparer, s[x], s[p - 1]);
      }
    }
  }

  // ---------- what stays ----------

  /** Bytes outside a stretch of memory are the same, and slots that it does not reach into. */
  ghost predicate Elsewhere(m: seq<byte>, m': seq<byte>, v: Shadow, v': Shadow, lo: nat, hi: nat)
    requires Total(v) && Total(v')
  {
    && |m| == |m'|
    && (forall x: nat :: x < |m| && !(lo <= x < hi) ==> m'[x] == m[x])
    && (forall x: nat :: x < SLOTS && (8 * x + 8 <= lo || hi <= 8 * x) ==> v'[x] == v[x])
  }

  lemma ElsewhereTwice(m: seq<byte>, m1: seq<byte>, m2: seq<byte>, v: Shadow, v1: Shadow, v2: Shadow, lo: nat, hi: nat)
    requires Total(v) && Total(v1) && Total(v2)
    requires Elsewhere(m, m1, v, v1, lo, hi) && Elsewhere(m1, m2, v1, v2, lo, hi)
    ensures Elsewhere(m, m2, v, v2, lo, hi)
  {
  }

  lemma SwapElsewhere(m: seq<byte>, m': seq<byte>, v: Shadow, v': Shadow, p: nat, q: nat, size: nat, lo: nat, hi: nat)
    requires Total(v) && Total(v') && p + size <= LIMIT && q + size <= LIMIT
    requires lo <= p && lo <= q && p + size <= hi && q + size <= hi && hi <= |m|
    requires BytesSwapped(m, m', p, q, size) && SlotsTraded(v, v', p, q, size)
    ensures Elsewhere(m, m', v, v', lo, hi)
  {
    forall x: nat | x < |m| && !(lo <= x < hi)
      ensures m'[x] == m[x]
    {
      assert Swap(p, q, size, x) == x;
    }
    forall x: nat | x < SLOTS && (8 * x + 8 <= lo || hi <= 8 * x)
      ensures v'[x] == v[x]
    {
      TradesElsewhere(v, p, q, (size + 7) / 8, lo, hi, x);
    }
  }

  lemma {:induction false} TradesElsewhere(v: Shadow, p: nat, q: nat, k: nat, lo: nat, hi: nat, x: nat)
    requires Total(v) && x < SLOTS && (8 * x + 8 <= lo || hi <= 8 * x) && lo <= p && lo <= q
    requires k > 0 ==> p + 8 * (k - 1) < hi && q + 8 * (k - 1) < hi
    requires InMemory(p, k) && InMemory(q, k)
    ensures TradedAll(v, p, q, k)[x] == v[x]
    decreases k
  {
    if k > 0 {
      TradesElsewhere(v, p, q, k - 1, lo, hi, x);
    }
  }

  lemma Inside(base: nat, size: nat, n: nat, i: nat, j: nat)
    requires i < n && j < n && i != j
    ensures Elem(base, size, i) + size <= Elem(base, size, n) && Elem(base, size, j) + size <= Elem(base, size, n)
    ensures Disjoint(Elem(base, size, i), Elem(base, size, j), size)
  {
    ElemOrder(base, size, i, n);
    ElemOrder(base, size, j, n);
    if i < j {
      ElemOrder(base, size, i, j);
    } else {
      ElemOrder(base, size, j, i);
    }
  }

  // ---------- the array as a list of elements ----------

  /** The address of element `k`, `base + k * size`. */
  ghost function Elem(base: nat, size: nat, k: nat): (a: nat)
    ensures a >= base
  {
    if k == 0 then base else Elem(base, size, k - 1) + size
  }

  lemma {:induction false} ElemIs(base: nat, size: nat, k: nat)
    ensures Elem(base, size, k) == base + k * size
  {
    if k > 0 {
      ElemIs(base, size, k - 1);
      assert (k - 1) * size + size == k * size;
    }
  }

  /** Different elements do not overlap. */
  lemma {:induction false} ElemOrder(base: nat, size: nat, i: nat, k: nat)
    requires i < k
    ensures Elem(base, size, i) + size <= Elem(base, size, k)
  {
    if i < k - 1 {
      ElemOrder(base, size, i, k - 1);
    }
  }

  lemma {:induction false} ElemAligned(base: nat, size: nat, k: nat)
    requires base % 8 == 0 && size % 8 == 0
    ensures Elem(base, size, k) % 8 == 0
  {
    if k > 0 {
      ElemAligned(base, size, k - 1);
    }
  }

  ghost predicate Fits(m: seq<byte>, base: nat, size: nat, n: nat) {
    Elem(base, size, n) <= |m| <= LIMIT
  }

  /** Every element fills whole slots, so that it has its metadata to itself. */
  predicate Carried(base: nat, size: nat) {
    base % 8 == 0 && size % 8 == 0
  }

  ghost predicate Total(v: Shadow) {
    forall x :: 0 <= x < SLOTS ==> x in v
  }

  /** The element at an address. */
  ghost function ItemAt(m: seq<byte>, v: Shadow, a: nat, size: nat, carried: bool): Item
    requires Total(v) && a + size <= |m| <= LIMIT && (carried ==> Carried(a, size))
  {
    assert a / 8 + size / 8 <= SLOTS;
    Item(m[a..a + size], if carried then Slots(v, a / 8, size / 8) else [])
  }

  ghost function Slots(v: Shadow, a: nat, n: nat): seq<Entry>
    requires Total(v) && a + n <= SLOTS
  {
    seq(n, j requires 0 <= j < n => v[a + j])
  }

  lemma ElemFits(m: seq<byte>, base: nat, size: nat, n: nat, k: nat)
    requires Fits(m, base, size, n) && k < n
    ensures Elem(base, size, k) + size <= |m| && (Carried(base, size) ==> Carried(Elem(base, size, k), size))
  {
    ElemOrder(base, size, k, n);
    if Carried(base, size) {
      ElemAligned(base, size, k);
    }
  }

  ghost function Kth(m: seq<byte>, v: Shadow, base: nat, size: nat, n: nat, k: nat): Item
    requires Total(v) && Fits(m, base, size, n) && k < n
  {
    ElemFits(m, base, size, n, k);
    ItemAt(m, v, Elem(base, size, k), size, Carried(base, size))
  }

  /** The elements in order. */
  ghost function Items(m: seq<byte>, v: Shadow, base: nat, size: nat, n: nat): (s: seq<Item>)
    requires Total(v) && Fits(m, base, size, n)
    ensures |s| == n
  {
    seq(n, k requires 0 <= k < n => Kth(m, v, base, size, n, k))
  }

  lemma KthMoved(m: seq<byte>, m': seq<byte>, v: Shadow, v': Shadow, base: nat, size: nat, n: nat, i: nat, j: nat,
                 k: nat)
    requires Total(v) && Total(v') && i < n && j < n && k < n && i != j && |m| == |m'| && Fits(m, base, size, n)
    requires Elem(base, size, i) + size <= |m| && Elem(base, size, j) + size <= |m|
    requires BytesSwapped(m, m', Elem(base, size, i), Elem(base, size, j), size)
    requires |m| <= LIMIT && SlotsTraded(v, v', Elem(base, size, i), Elem(base, size, j), size)
    ensures Kth(m', v', base, size, n, k) == Kth(m, v, base, size, n, if k == i then j else if k == j then i else k)
  {
    ElemFits(m, base, size, n, i);
    ElemFits(m, base, size, n, j);
    ElemFits(m, base, size, n, k);
    if size == 0 {
      Nothing(m, v, base, n, k);
      Nothing(m, v, base, n, i);
      Nothing(m, v, base, n, j);
      Nothing(m', v', base, n, k);
      return;
    }
    ElemsApart(base, size, i, j);
    ElemsApart(base, size, i, k);
    ElemsApart(base, size, j, k);
    ItemMoved(m, m', v, v', Elem(base, size, i), Elem(base, size, j), size, Elem(base, size, k), Carried(base, size));
  }

  /** Elements of no bytes are all the same. */
  lemma Nothing(m: seq<byte>, v: Shadow, base: nat, n: nat, k: nat)
    requires Total(v) && Fits(m, base, 0, n) && k < n
    ensures Kth(m, v, base, 0, n, k) == Item([], [])
  {
    ElemFits(m, base, 0, n, k);
    assert Slots(v, Elem(base, 0, k) / 8, 0) == [];
  }

  lemma ElemsApart(base: nat, size: nat, i: nat, k: nat)
    requires size > 0
    ensures i != k ==> Disjoint(Elem(base, size, i), Elem(base, size, k), size)
    ensures i != k ==> Elem(base, size, i) != Elem(base, size, k)
  {
    if i < k {
      ElemOrder(base, size, i, k);
    } else if k < i {
      ElemOrder(base, size, k, i);
    }
  }

  /** Exchanging the bytes and slots of two elements exchanges the elements and no others. */
  lemma ItemsExchanged(m: seq<byte>, m': seq<byte>, v: Shadow, v': Shadow, base: nat, size: nat, n: nat, i: nat, j: nat)
    requires Total(v) && Total(v') && i < n && j < n && i != j && |m| == |m'| && Fits(m, base, size, n)
    requires Elem(base, size, i) + size <= |m| && Elem(base, size, j) + size <= |m|
    requires BytesSwapped(m, m', Elem(base, size, i), Elem(base, size, j), size)
    requires |m| <= LIMIT && SlotsTraded(v, v', Elem(base, size, i), Elem(base, size, j), size)
    ensures Items(m', v', base, size, n) == Exchanged(Items(m, v, base, size, n), i, j)
  {
    forall k: nat | k < n
      ensures Items(m', v', base, size, n)[k] == Exchanged(Items(m, v, base, size, n), i, j)[k]
    {
      KthMoved(m, m', v, v', base, size, n, i, j, k);
    }
  }

  /** A list with two elements exchanged. */
  ghost function Exchanged(s: seq<Item>, i: nat, j: nat): (r: seq<Item>)
    requires i < |s| && j < |s|
    ensures |r| == |s| && multiset(r) == multiset(s)
  {
    s[i := s[j]][j := s[i]]
  }

  lemma ItemMoved(m: seq<byte>, m': seq<byte>, v: Shadow, v': Shadow, p: nat, q: nat, size: nat, a: nat, carried: bool)
    requires Total(v) && Total(v') && |m| <= LIMIT
    requires carried ==> Carried(p, size) && Carried(q, size) && Carried(a, size)
    requires p + size <= |m| && q + size <= |m| && a + size <= |m|
    requires Disjoint(p, q, size) && (a == p || Disjoint(a, p, size)) && (a == q || Disjoint(a, q, size))
    requires BytesSwapped(m, m', p, q, size) && SlotsTraded(v, v', p, q, size)
    ensures ItemAt(m', v', a, size, carried)
         == ItemAt(m, v, if a == p then q else if a == q then p else a, size, carried)
  {
    BytesMoved(m, m', p, q, size, a);
    if carried {
      SlotsCarried(v, v', p, q, size, a);
    }
  }

  lemma SlotsCarried(v: Shadow, v': Shadow, p: nat, q: nat, size: nat, a: nat)
    requires Total(v) && Total(v') && Carried(p, size) && Carried(q, size) && Carried(a, size)
    requires p + size <= LIMIT && q + size <= LIMIT && a + size <= LIMIT && SlotsTraded(v, v', p, q, size)
    requires Disjoint(p, q, size) && (a == p || Disjoint(a, p, size)) && (a == q || Disjoint(a, q, size))
    ensures a / 8 + size / 8 <= SLOTS && p / 8 + size / 8 <= SLOTS && q / 8 + size / 8 <= SLOTS
    ensures var b := if a == p then q else if a == q then p else a;
      Slots(v', a / 8, size / 8) == Slots(v, b / 8, size / 8)
  {
    SlotsApart(a, p, size);
    SlotsApart(a, q, size);
    AlignedSwap(v, v', p, q, size);
    SlotsMoved(v, v', p / 8, q / 8, size / 8, a / 8);
  }

  lemma AlignedSwap(v: Shadow, v': Shadow, p: nat, q: nat, size: nat)
    requires Total(v) && Total(v') && Carried(p, size) && Carried(q, size) && Disjoint(p, q, size)
    requires p + size <= LIMIT && q + size <= LIMIT && SlotsTraded(v, v', p, q, size)
    ensures SlotsSwapped(v, v', p / 8, q / 8, size / 8) && Disjoint(p / 8, q / 8, size / 8)
  {
    assert 8 * (p / 8) == p && 8 * (q / 8) == q && (size + 7) / 8 == size / 8;
    TradesSwap(v, p / 8, q / 8, size / 8);
  }

  lemma BytesMoved(m: seq<byte>, m': seq<byte>, p: nat, q: nat, n: nat, a: nat)
    requires p + n <= |m| && q + n <= |m| && a + n <= |m| && BytesSwapped(m, m', p, q, n)
    requires Disjoint(p, q, n) && (a == p || Disjoint(a, p, n)) && (a == q || Disjoint(a, q, n))
    ensures var b := if a == p then q else if a == q then p else a; m'[a..a + n] == m[b..b + n]
  {
    var b := if a == p then q else if a == q then p else a;
    var s', s := m'[a..a + n], m[b..b + n];
    forall x: nat | x < n
      ensures s'[x] == s[x]
    {
      assert Swap(p, q, n, a + x) == b + x;
    }
  }

  lemma SlotsMoved(v: Shadow, v': Shadow, p: nat, q: nat, n: nat, a: nat)
    requires Total(v) && Total(v')
    requires SlotsSwapped(v, v', p, q, n) && a + n <= SLOTS
    requires Disjoint(p, q, n) && (a == p || Disjoint(a, p, n)) && (a == q || Disjoint(a, q, n))
    ensures var b := if a == p then q else if a == q then p else a; Slots(v', a, n) == Slots(v, b, n)
  {
    var b := if a == p then q else if a == q then p else a;
    forall x: nat | x < n
      ensures Slots(v', a, n)[x] == Slots(v, b, n)[x]
    {
      assert Swap(p, q, n, a + x) == b + x;
    }
  }

  /** Aligned stretches of bytes that coincide, or do not overlap, do so as slots. */
  lemma SlotsApart(a: nat, p: nat, n: nat)
    requires a % 8 == 0 && p % 8 == 0 && n % 8 == 0 && (a == p || Disjoint(a, p, n))
    ensures a / 8 == p / 8 <==> a == p
    ensures a != p ==> Disjoint(a / 8, p / 8, n / 8)
  {
  }

  ghost predicate BytesSwapped(m: seq<byte>, w: seq<byte>, p: nat, q: nat, n: nat)
    requires p + n <= |m| && q + n <= |m|
  {
    |w| == |m| && forall x: nat :: x < |m| ==> w[x] == m[Swap(p, q, n, x)]
  }

  lemma BytesSwappedMore(m: seq<byte>, w: seq<byte>, p: nat, q: nat, n: nat)
    requires p + n < |m| && q + n < |m| && BytesSwapped(m, w, p, q, n) && Disjoint(p, q, n + 1)
    ensures BytesSwapped(m, w[p + n := w[q + n]][q + n := w[p + n]], p, q, n + 1)
  {
    var w' := w[p + n := w[q + n]][q + n := w[p + n]];
    forall x: nat | x < |m|
      ensures w'[x] == m[Swap(p, q, n + 1, x)]
    {
      SwapStep(p, q, n, x);
    }
  }

  /** `v` with the entries of two slots traded. */
  ghost function Traded(v: Shadow, s1: nat, s2: nat): Shadow
    requires s1 in v && s2 in v
  {
    v[s1 := v[s2]][s2 := v[s1]]
  }

  /** Every eighth byte of a stretch of `k` times eight has an address in the range of the trie. */
  predicate InMemory(a: nat, k: nat) {
    k > 0 ==> a + 8 * (k - 1) < LIMIT
  }

  /** The slots of every eighth byte of two stretches, traded in order. */
  ghost function TradedAll(v: Shadow, p: nat, q: nat, k: nat): (w: Shadow)
    requires Total(v) && InMemory(p, k) && InMemory(q, k)
    ensures Total(w)
  {
    if k == 0 then v else Traded(TradedAll(v, p, q, k - 1), (p + 8 * (k - 1)) / 8, (q + 8 * (k - 1)) / 8)
  }

  lemma OneTrade(v: Shadow, p: nat, q: nat, k: nat)
    requires Total(v) && InMemory(p, k + 1) && InMemory(q, k + 1)
    ensures TradedAll(v, p, q, k + 1) == Traded(TradedAll(v, p, q, k), (p + 8 * k) / 8, (q + 8 * k) / 8)
  {
  }

  ghost predicate SlotsTraded(v: Shadow, w: Shadow, p: nat, q: nat, size: nat)
    requires Total(v) && p + size <= LIMIT && q + size <= LIMIT
  {
    w == TradedAll(v, p, q, (size + 7) / 8)
  }

  ghost predicate SlotsSwapped(v: Shadow, w: Shadow, p: nat, q: nat, n: nat)
    requires Total(v) && Total(w)
  {
    && p + n <= SLOTS && q + n <= SLOTS
    && forall x: nat {:trigger Swap(p, q, n, x)} :: x < SLOTS ==> w[x] == v[Swap(p, q, n, x)]
  }

  lemma SlotsSwappedMore(v: Shadow, w: Shadow, w': Shadow, p: nat, q: nat, n: nat)
    requires Total(v) && Total(w)
    requires SlotsSwapped(v, w, p, q, n) && Disjoint(p, q, n + 1) && p + n < SLOTS && q + n < SLOTS
    requires w' == Traded(w, p + n, q + n)
    ensures SlotsSwapped(v, w', p, q, n + 1)
  {
    forall x: nat | x < SLOTS
      ensures w'[x] == v[Swap(p, q, n + 1, x)]
    {
      SwapStep(p, q, n, x);
    }
  }

  /** Stretches that fill whole slots, and do not overlap, trade them. */
  lemma {:induction false} TradesSwap(v: Shadow, s1: nat, s2: nat, k: nat)
    requires Total(v) && s1 + k <= SLOTS && s2 + k <= SLOTS && Disjoint(s1, s2, k)
    ensures SlotsSwapped(v, TradedAll(v, 8 * s1, 8 * s2, k), s1, s2, k)
    decreases k
  {
    if k > 0 {
      var n := k - 1;
      TradesSwap(v, s1, s2, n);
      AlignedTrade(v, s1, s2, n);
      SlotsSwappedMore(v, TradedAll(v, 8 * s1, 8 * s2, n), TradedAll(v, 8 * s1, 8 * s2, n + 1), s1, s2, n);
    }
  }

  lemma AlignedTrade(v: Shadow, s1: nat, s2: nat, k: nat)
    requires Total(v) && s1 + k < SLOTS && s2 + k < SLOTS
    ensures TradedAll(v, 8 * s1, 8 * s2, k + 1) == Traded(TradedAll(v, 8 * s1, 8 * s2, k), s1 + k, s2 + k)
  {
    SlotExact(s1, k);
    SlotExact(s2, k);
    OneTrade(v, 8 * s1, 8 * s2, k);
  }

  lemma SlotExact(s: nat, k: nat)
    ensures (8 * s + 8 * k) / 8 == s + k
  {
  }
}
