/** Facts about BrainF texts, runs and the two ways of executing them. */
module BrainFFacts {
  import opened BrainFSource

  // ---------- a text denotes one program ----------

  /** What may follow a command list inside a text: nothing, or the bracket that closes it. */
  predicate Ends(x: string) {
    x == "" || x[0] == ']'
  }

  /** Printing a nonempty list, with a tail, begins with a character that is not ']'. */
  lemma PrintCons(a: seq<Cmd>, x: string)
    requires a != []
    ensures Print(a) + x == PrintCmd(a[0]) + (Print(a[1..]) + x)
    ensures Print(a) + x != "" && (Print(a) + x)[0] == PrintCmd(a[0])[0] != ']'
  {
  }

  lemma {:induction false} UniqueUpTo(a: seq<Cmd>, x: string, b: seq<Cmd>, y: string)
    requires Unit(a) && Unit(b) && Ends(x) && Ends(y)
    requires Print(a) + x == Print(b) + y
    ensures a == b && x == y
    decreases |Print(a)|, |a|
  {
    if a == [] || b == [] {
      assert Print([]) + x == x && Print([]) + y == y;
      if a != [] { PrintCons(a, x); }
      if b != [] { PrintCons(b, y); }
    } else {
      PrintCons(a, x);
      PrintCons(b, y);
      UniqueHead(a[0], Print(a[1..]) + x, b[0], Print(b[1..]) + y);
      UniqueUpTo(a[1..], x, b[1..], y);
      assert a == [a[0]] + a[1..] && b == [b[0]] + b[1..];
    }
  }

  lemma {:induction false} UniqueHead(c: Cmd, x: string, d: Cmd, y: string)
    requires UnitCmd(c) && UnitCmd(d)
    requires PrintCmd(c) + x == PrintCmd(d) + y
    ensures c == d && x == y
    decreases |PrintCmd(c)|, 0
  {
    var p, q := PrintCmd(c) + x, PrintCmd(d) + y;
    assert p[0] == PrintCmd(c)[0] && q[0] == PrintCmd(d)[0];
    if c.Loop? {
      assert p[1..] == Print(c.body) + ("]" + x) && q[1..] == Print(d.body) + ("]" + y);
      UniqueUpTo(c.body, "]" + x, d.body, "]" + y);
      assert x == ("]" + x)[1..] && y == ("]" + y)[1..];
    } else {
      assert p[1..] == x && q[1..] == y;
    }
  }

  /** A text, comments and all, denotes at most one program. */
  lemma ReadingIsUnique(t: string, a: seq<Cmd>, b: seq<Cmd>)
    requires Unit(a) && Unit(b)
    requires Filter(t) == Print(a) && Filter(t) == Print(b)
    ensures a == b
  {
    assert Print(a) + "" == Print(b) + "";
    UniqueUpTo(a, "", b, "");
  }

  lemma FilterSplit(t: string, a: string, b: string)
    requires t == a + b
    ensures Filter(t) == Filter(a) + Filter(b)
  {
    FilterAppend(a, b);
  }

  lemma FilterPrefix(t: string, k: nat)
    requires k <= |t|
    ensures Filter(t) == Filter(t[..k]) + Filter(t[k..])
  {
    FilterSplit(t, t[..k], t[k..]);
  }

  /** A text that denotes a program is balanced. */
  lemma ReadIsBalanced(t: string, cs: seq<Cmd>)
    requires Filter(t) == Print(cs)
    ensures Balanced(t)
  {
    DepthFilter(t);
    PrintDepth(cs, 0);
    forall k | 0 <= k <= |t|
      ensures Depth(t[..k]) >= 0
    {
      FilterPrefix(t, k);
      DepthFilter(t[..k]);
      PrintDepth(cs, |Filter(t[..k])|);
      assert Print(cs)[..|Filter(t[..k])|] == Filter(t[..k]);
    }
  }

  // ---------- runs ----------

  /** No two neighbours could be joined: each move and each change is a maximal run. */
  ghost predicate Maximal(cs: seq<Cmd>) {
    forall i :: 0 < i < |cs| ==> !(cs[i - 1].Move? && cs[i].Move?) && !(cs[i - 1].Change? && cs[i].Change?)
  }

  lemma {:induction false} CoalesceIsMaximal(cs: seq<Cmd>)
    ensures Maximal(Coalesce(cs))
  {
    if cs != [] {
      CoalesceIsMaximal(cs[..|cs| - 1]);
    }
  }

  lemma MergeExec(cs: seq<Cmd>, c: Cmd, s: State, fuel: nat)
    ensures Exec(Merge(cs, c), s, false, fuel) == Exec(cs + [c], s, false, fuel)
  {
    assert (cs + [c])[..|cs|] == cs;
    if Merge(cs, c) != cs + [c] {
      var init, last := cs[..|cs| - 1], cs[|cs| - 1];
      var m := Merge(cs, c);
      assert m[..|m| - 1] == init;
      assert m[|m| - 1] == if c.Move? then Move(last.n + c.n) else Change(last.n + c.n);
      match Exec(init, s, false, fuel)
      case Done(s1) =>
        assert Exec(cs, s, false, fuel) == ExecCmd(last, s1, false, fuel);
        if c.Change? && OnTape(s1) {
          var s2 := ExecCmd(last, s1, false, fuel).s;
          assert s2.tape[s1.head := (s2.tape[s1.head] + c.n) % 256]
              == s1.tape[s1.head := (s1.tape[s1.head] + (last.n + c.n)) % 256];
        }
      case _ =>
    }
  }

  /** Joining runs changes nothing that can be observed when only accesses are checked. */
  lemma {:induction false} CoalesceExec(cs: seq<Cmd>, s: State, fuel: nat)
    ensures Exec(Coalesce(cs), s, false, fuel) == Exec(cs, s, false, fuel)
    decreases fuel, cs, 1
  {
    if cs != [] {
      var init, last := cs[..|cs| - 1], cs[|cs| - 1];
      var d := Coalesce(init);
      CoalesceExec(init, s, fuel);
      MergeExec(d, CoalesceCmd(last), s, fuel);
      assert (d + [CoalesceCmd(last)])[..|d|] == d;
      match Exec(init, s, false, fuel)
      case Done(s1) => CoalesceExecCmd(last, s1, fuel);
      case _ =>
    }
  }

  lemma {:induction false} CoalesceExecCmd(c: Cmd, s: State, fuel: nat)
    ensures ExecCmd(CoalesceCmd(c), s, false, fuel) == ExecCmd(c, s, false, fuel)
    decreases fuel, c, 0
  {
    if c.Loop? && OnTape(s) && s.tape[s.head] != 0 && fuel > 0 {
      CoalesceExec(c.body, s, fuel - 1);
      match Exec(c.body, s, false, fuel - 1)
      case Done(s1) => CoalesceExecCmd(c, s1, fuel - 1);
      case _ =>
    }
  }

  // ---------- checked and unchecked execution ----------

  /**
   From a head on the tape, checked execution never faults and keeps the head on the tape, and
   unless it leaves the tape it is exactly the unchecked one.
   */
  lemma {:induction false} CheckedExec(cs: seq<Cmd>, s: State, fuel: nat)
    requires OnTape(s)
    ensures var o := Exec(cs, s, true, fuel);
      && o != Fault
      && (o.Done? ==> OnTape(o.s) && |o.s.tape| == |s.tape|)
      && (o.LeftTape? ==> !OnTape(o.s) && |o.s.tape| == |s.tape|)
      && (!o.LeftTape? ==> Exec(cs, s, false, fuel) == o)
    decreases fuel, cs, 1
  {
    if cs != [] {
      var init, last := cs[..|cs| - 1], cs[|cs| - 1];
      CheckedExec(init, s, fuel);
      match Exec(init, s, true, fuel)
      case Done(s1) => CheckedExecCmd(last, s1, fuel);
      case _ =>
    }
  }

  lemma {:induction false} CheckedExecCmd(c: Cmd, s: State, fuel: nat)
    requires OnTape(s)
    ensures var o := ExecCmd(c, s, true, fuel);
      && o != Fault
      && (o.Done? ==> OnTape(o.s) && |o.s.tape| == |s.tape|)
      && (o.LeftTape? ==> !OnTape(o.s) && |o.s.tape| == |s.tape|)
      && (!o.LeftTape? ==> ExecCmd(c, s, false, fuel) == o)
    decreases fuel, c, 0
  {
    if c.Loop? && s.tape[s.head] != 0 && fuel > 0 {
      CheckedExec(c.body, s, fuel - 1);
      match Exec(c.body, s, true, fuel - 1)
      case Done(s1) => CheckedExecCmd(c, s1, fuel - 1);
      case _ =>
    }
  }

  /** More fuel does not change a run that has ended. */
  lemma {:induction false} MoreFuel(cs: seq<Cmd>, s: State, bounds: bool, fuel: nat, more: nat)
    requires fuel <= more && !Exec(cs, s, bounds, fuel).OutOfFuel?
    ensures Exec(cs, s, bounds, more) == Exec(cs, s, bounds, fuel)
    decreases fuel, cs, 1
  {
    if cs != [] {
      var init, last := cs[..|cs| - 1], cs[|cs| - 1];
      MoreFuel(init, s, bounds, fuel, more);
      match Exec(init, s, bounds, fuel)
      case Done(s1) => MoreFuelCmd(last, s1, bounds, fuel, more);
      case _ =>
    }
  }

  lemma {:induction false} MoreFuelCmd(c: Cmd, s: State, bounds: bool, fuel: nat, more: nat)
    requires fuel <= more && !ExecCmd(c, s, bounds, fuel).OutOfFuel?
    ensures ExecCmd(c, s, bounds, more) == ExecCmd(c, s, bounds, fuel)
    decreases fuel, c, 0
  {
    if c.Loop? && OnTape(s) && s.tape[s.head] != 0 {
      MoreFuel(c.body, s, bounds, fuel - 1, more - 1);
      match Exec(c.body, s, bounds, fuel - 1)
      case Done(s1) => MoreFuelCmd(c, s1, bounds, fuel - 1, more - 1);
      case _ =>
    }
  }

  /** However much fuel it takes, a run that ends has one outcome, and every larger bound finds it. */
  lemma OneOutcome(cs: seq<Cmd>, s: State, bounds: bool, fuel: nat, more: nat)
    requires !Exec(cs, s, bounds, fuel).OutOfFuel?
    ensures !Exec(cs, s, bounds, more).OutOfFuel? || fuel <= more
         ==> Exec(cs, s, bounds, more) == Exec(cs, s, bounds, fuel)
  {
    if fuel <= more {
      MoreFuel(cs, s, bounds, fuel, more);
    } else if !Exec(cs, s, bounds, more).OutOfFuel? {
      MoreFuel(cs, s, bounds, more, fuel);
    }
  }

  // ---------- an empty tape ----------

  /** Without a tape the first command decides: a checked move is caught, and anything else faults. */
  lemma {:induction false} EmptyExec(cs: seq<Cmd>, s: State, bounds: bool, fuel: nat)
    requires s.tape == [] && cs != []
    ensures !cs[0].Move? ==> Exec(cs, s, bounds, fuel) == Fault
    ensures cs[0].Move? && bounds ==> Exec(cs, s, bounds, fuel).LeftTape?
  {
    if |cs| == 1 {
      assert cs[..0] == [];
    } else {
      EmptyExec(cs[..|cs| - 1], s, bounds, fuel);
    }
  }

  // ---------- the size of a run ----------

  /** Every move, at any depth, is by less than `limit`. */
  predicate Small(cs: seq<Cmd>, limit: nat)
    decreases cs, 1
  {
    forall i :: 0 <= i < |cs| ==> SmallCmd(cs[i], limit)
  }

  predicate SmallCmd(c: Cmd, limit: nat)
    decreases c, 0
  {
    match c
    case Move(n) => n < limit && -n < limit
    case Loop(body) => Small(body, limit)
    case _ => true
  }

  /** The length of the run at the end. */
  function TailRun(cs: seq<Cmd>): nat {
    if cs == [] || !cs[|cs| - 1].Move? then 0
    else if cs[|cs| - 1].n < 0 then -cs[|cs| - 1].n else cs[|cs| - 1].n
  }

  /** A run is no longer than the text it was read from. */
  lemma {:induction false} CoalesceIsSmall(cs: seq<Cmd>, limit: nat)
    requires Unit(cs) && |Print(cs)| < limit
    ensures Small(Coalesce(cs), limit) && TailRun(Coalesce(cs)) <= |Print(cs)|
    decreases cs, 1
  {
    if cs != [] {
      var init, last := cs[..|cs| - 1], cs[|cs| - 1];
      assert cs == init + [last];
      PrintSnoc(init, last);
      assert |PrintCmd(last)| >= 1;
      CoalesceIsSmall(init, limit);
      if last.Loop? {
        CoalesceIsSmall(last.body, limit);
      }
      SmallMerge(Coalesce(init), CoalesceCmd(last), limit);
    }
  }

  lemma SmallMerge(d: seq<Cmd>, c: Cmd, limit: nat)
    requires Small(d, limit) && SmallCmd(c, limit)
    requires c.Move? ==> TailRun(d) + (if c.n < 0 then -c.n else c.n) < limit
    ensures Small(Merge(d, c), limit)
    ensures TailRun(Merge(d, c)) <= (if c.Move? then TailRun(d) + (if c.n < 0 then -c.n else c.n) else 0)
  {
    var m := Merge(d, c);
    forall i | 0 <= i < |m|
      ensures SmallCmd(m[i], limit)
    {
      if i < |m| - 1 { assert m[i] == d[i]; }
    }
  }
}
