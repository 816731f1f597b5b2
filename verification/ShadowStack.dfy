/**
 The shadow stack that passes pointer metadata from caller to callee: frames of argument slots behind
 two header words, the size of the frame below and the frame's own size.
 */
module ShadowStack {

  type Word = x: int | 0 <= x < 0x1_0000_0000_0000_0000

  /** Base, bound, key and lock of each argument. */
  const FIELDS: nat := 4

  const ENTRIES: nat := 4096

  /** The argument slots of a frame. */
  type Frame = f: seq<Word> | |f| < 0x1_0000_0000 witness []

  function SizeOfTop(frames: seq<Frame>): Word {
    if frames == [] then 0 else |frames[|frames| - 1]|
  }

  /** The words that a stack of frames occupies. */
  function Flat(frames: seq<Frame>): (s: seq<Word>) {
    if frames == [] then []
    else
      var front, top := frames[..|frames| - 1], frames[|frames| - 1];
      Flat(front) + [SizeOfTop(front), |top|] + top
  }

  /** Where frame `k` begins: after the headers and slots of the frames below it. */
  function Start(frames: seq<Frame>, k: nat): nat
    requires k <= |frames|
  {
    if k == 0 then 0 else Start(frames, k - 1) + |frames[k - 1]| + 2
  }

  /** The stack with slot `i` of the top frame changed. */
  ghost function Updated(frames: seq<Frame>, i: nat, w: Word): (r: seq<Frame>)
    requires frames != [] && i < |frames[|frames| - 1]|
    ensures |r| == |frames| && r[..|r| - 1] == frames[..|frames| - 1]
    ensures r[|r| - 1] == frames[|frames| - 1][i := w]
  {
    frames[|frames| - 1 := frames[|frames| - 1][i := w]]
  }

  class Stack {
    /** The words from the beginning of the mapped area, and the offset of the stack pointer. */
    const words: array<Word>
    var ptr: nat
    ghost var frames: seq<Frame>

    ghost predicate Valid()
      reads this, words
    {
      && words.Length == ENTRIES && frames != []
      && |Flat(frames)| <= ENTRIES && words[..|Flat(frames)|] == Flat(frames)
      && ptr == |Flat(frames[..|frames| - 1])|
    }

    /** Two zero words are the header of an empty bottom frame. */
    constructor ()
      ensures Valid() && frames == [[]] && ptr == 0 && fresh(words)
    {
      words := new Word[4096](_ => 0);
      ptr := 0;
      frames := [[]];
      new;
      BottomFlat();
    }

    method AllocateShadowStackSpace(numPointerArgs: nat)
      requires Valid() && |Flat(frames)| + 2 + FIELDS * numPointerArgs <= ENTRIES
      modifies this, words
      ensures Valid() && |frames| == |old(frames)| + 1 && frames[..|frames| - 1] == old(frames)
      ensures ptr == |Flat(old(frames))|
      ensures frames[|frames| - 1] == old(words[|Flat(frames)| + 2..|Flat(frames)| + 2 + FIELDS * numPointerArgs])
    {
      ghost var below, before, n := frames, words[..], |Flat(frames)|;
      TopOfFlat(frames);
      assert words[ptr + 1] == words[..n][ptr + 1];
      var prevSize := words[ptr + 1];
      ptr := ptr + prevSize + 2;
      words[ptr] := prevSize;
      var size := FIELDS * numPointerArgs;
      words[ptr + 1] := size;
      ghost var slots := before[n + 2..n + 2 + size];
      HeaderWritten(before, n, prevSize, slots);
      FlatPlus(below, slots);
      frames := below + [slots];
    }

    /** The four loads: field 0 is the base, 1 the bound, 2 the key, 3 the lock. */
    method Load(argNo: nat, field: nat) returns (w: Word)
      requires Valid() && field < FIELDS && FIELDS * argNo + field < |frames[|frames| - 1]|
      ensures w == frames[|frames| - 1][FIELDS * argNo + field]
    {
      SlotOfTop(frames, FIELDS * argNo + field);
      var count := 2 + argNo * FIELDS + field;
      assert words[ptr + count] == words[..|Flat(frames)|][ptr + count];
      w := words[ptr + count];
    }

    method Store(w: Word, argNo: nat, field: nat)
      requires Valid() && field < FIELDS && FIELDS * argNo + field < |frames[|frames| - 1]|
      modifies `frames, words
      ensures Valid() && frames[..|frames| - 1] == old(frames[..|frames| - 1]) && |frames| == |old(frames)|
      ensures frames[|frames| - 1] == old(frames[|frames| - 1])[FIELDS * argNo + field := w]
    {
      ghost var all, i, flat := frames, FIELDS * argNo + field, words[..|Flat(frames)|];
      SlotUpdated(all, i, w);
      var count := 2 + argNo * FIELDS + field;
      words[ptr + count] := w;
      assert words[..|flat|] == flat[ptr + count := w];
      frames := Updated(all, i, w);
    }

    /** Only the pointer moves. Its caller has allocated a frame. */
    method DeallocateShadowStackSpace()
      requires Valid() && |frames| > 1
      modifies this
      ensures Valid() && frames == old(frames[..|frames| - 1])
    {
      ghost var front := frames[..|frames| - 1];
      TopOfFlat(frames);
      TopOfFlat(front);
      assert words[ptr] == words[..|Flat(frames)|][ptr];
      var readValue := words[ptr];
      assert 0 <= readValue <= ENTRIES;
      ptr := ptr - readValue - 2;
      frames := front;
      assert words[..|Flat(front)|] == words[..][..|Flat(front)|];
    }
  }

  // ---------- calls ----------

  /** What compiled code does around and inside a call: make a frame, fill in a field of an argument, drop the frame. */
  datatype Op = Call(args: nat) | Put(w: Word, argNo: nat, field: nat) | Return

  /** The frame sizes, bottom first. */
  function Sizes(frames: seq<Frame>): (s: seq<nat>)
    ensures |s| == |frames|
  {
    seq(|frames|, i requires 0 <= i < |frames| => |frames[i]|)
  }

  function Words(sizes: seq<nat>): nat {
    if sizes == [] then 0 else Words(sizes[..|sizes| - 1]) + 2 + sizes[|sizes| - 1]
  }

  function Resized(sizes: seq<nat>, op: Op): seq<nat> {
    match op
    case Call(args) => sizes + [FIELDS * args]
    case Put(_, _, _) => sizes
    case Return => if sizes == [] then sizes else sizes[..|sizes| - 1]
  }

  /** A call must find room; a field must be in the top frame; a return must leave more than `depth` frames. */
  predicate Allowed(sizes: seq<nat>, op: Op, depth: nat) {
    match op
    case Call(args) => Words(sizes) + 2 + FIELDS * args <= ENTRIES
    case Put(_, argNo, field) => sizes != [] && field < FIELDS && FIELDS * argNo + field < sizes[|sizes| - 1]
    case Return => |sizes| > depth + 1
  }

  predicate AllAllowed(sizes: seq<nat>, ops: seq<Op>, depth: nat)
    decreases |ops|
  {
    ops == [] || (Allowed(sizes, ops[0], depth) && AllAllowed(Resized(sizes, ops[0]), ops[1..], depth))
  }

  function ResizedAll(sizes: seq<nat>, ops: seq<Op>): seq<nat>
    decreases |ops|
  {
    if ops == [] then sizes else ResizedAll(Resized(sizes, ops[0]), ops[1..])
  }

  lemma {:induction false} WordsAreFlat(frames: seq<Frame>)
    ensures Words(Sizes(frames)) == |Flat(frames)|
  {
    if frames != [] {
      WordsAreFlat(frames[..|frames| - 1]);
      assert Sizes(frames)[..|frames| - 1] == Sizes(frames[..|frames| - 1]);
    }
  }

  method Perform(s: Stack, op: Op, ghost depth: nat)
    requires s.Valid() && |s.frames| > depth && Allowed(Sizes(s.frames), op, depth)
    modifies s, s.words
    ensures s.Valid() && |s.frames| > depth && Next(old(s.frames), s.frames)
    ensures Sizes(s.frames) == Resized(old(Sizes(s.frames)), op)
  {
    WordsAreFlat(s.frames);
    ghost var f := s.frames;
    match op {
      case Call(args) => s.AllocateShadowStackSpace(args);
        assert Sizes(s.frames) == Sizes(f) + [FIELDS * args];
      case Put(w, argNo, field) => s.Store(w, argNo, field);
        assert forall k :: 0 <= k < |f| - 1 ==> s.frames[k] == s.frames[..|f| - 1][k] == f[..|f| - 1][k] == f[k];
      case Return => s.DeallocateShadowStackSpace();
    }
  }

  /** Whatever a callee does at its own depth and deeper, the frames below are untouched. */
  method Execute(s: Stack, ops: seq<Op>, ghost depth: nat)
    requires s.Valid() && |s.frames| > depth && AllAllowed(Sizes(s.frames), ops, depth)
    modifies s, s.words
    ensures s.Valid() && |s.frames| > depth && s.frames[..depth] == old(s.frames[..depth])
    ensures Sizes(s.frames) == ResizedAll(old(Sizes(s.frames)), ops)
  {
    ghost var run, sizes := [s.frames], Sizes(s.frames);
    var i := 0;
    while i < |ops|
      invariant i <= |ops| && s.Valid() && AllAllowed(Sizes(s.frames), ops[i..], depth)
      invariant IsRun(run) && run[|run| - 1] == s.frames && run[0] == old(s.frames)
      invariant forall k: nat :: k < |run| ==> |run[k]| > depth
      invariant ResizedAll(sizes, ops) == ResizedAll(Sizes(s.frames), ops[i..])
    {
      assert ops[i..][1..] == ops[i + 1..];
      Perform(s, ops[i], depth);
      run := run + [s.frames];
      i := i + 1;
    }
    BelowUntouched(run, depth);
  }

  /** A call, the callee, and the return: the caller has its frames back. */
  method CallAndReturn(s: Stack, args: nat, ops: seq<Op>)
    requires s.Valid() && Allowed(Sizes(s.frames), Call(args), 0)
    requires AllAllowed(Sizes(s.frames) + [FIELDS * args], ops, |s.frames|)
    requires |ResizedAll(Sizes(s.frames) + [FIELDS * args], ops)| == |s.frames| + 1
    modifies s, s.words
    ensures s.Valid() && s.frames == old(s.frames) && s.ptr == old(s.ptr)
    ensures s.words[..|Flat(s.frames)|] == old(s.words[..|Flat(s.frames)|])
  {
    ghost var f := s.frames;
    Perform(s, Call(args), 0);
    Execute(s, ops, |f|);
    s.DeallocateShadowStackSpace();
  }

  // ---------- the words and the frames ----------

  lemma BottomFlat()
    ensures Flat([[]]) == [0, 0]
  {
    var all: seq<Frame> := [[]];
    assert all[..0] == [];
  }

  lemma FlatPlus(front: seq<Frame>, top: Frame)
    ensures Flat(front + [top]) == Flat(front) + [SizeOfTop(front), |top|] + top
  {
    var all := front + [top];
    assert all[..|all| - 1] == front;
  }

  lemma HeaderWritten(before: seq<Word>, n: nat, prevSize: Word, slots: Frame)
    requires n + 2 + |slots| <= |before| && slots == before[n + 2..n + 2 + |slots|]
    ensures before[n := prevSize][n + 1 := |slots|][..n + 2 + |slots|] == before[..n] + [prevSize, |slots|] + slots
  {
  }

  lemma TopOfFlat(frames: seq<Frame>)
    requires frames != []
    ensures var front, top := frames[..|frames| - 1], frames[|frames| - 1]; var p := |Flat(front)|;
      && |Flat(frames)| == p + 2 + |top|
      && Flat(frames)[..p] == Flat(front)
      && Flat(frames)[p] == SizeOfTop(front) && Flat(frames)[p + 1] == |top|
      && forall i :: 0 <= i < |top| ==> Flat(frames)[p + 2 + i] == top[i]
  {
  }

  lemma SlotOfTop(frames: seq<Frame>, i: nat)
    requires frames != [] && i < |frames[|frames| - 1]|
    ensures var p := |Flat(frames[..|frames| - 1])|; p + 2 + i < |Flat(frames)|
    ensures var p := |Flat(frames[..|frames| - 1])|; Flat(frames)[p + 2 + i] == frames[|frames| - 1][i]
  {
    TopOfFlat(frames);
  }

  lemma SlotUpdated(frames: seq<Frame>, i: nat, w: Word)
    requires frames != [] && i < |frames[|frames| - 1]|
    ensures |Flat(Updated(frames, i, w))| == |Flat(frames)|
    ensures var p := |Flat(frames[..|frames| - 1])|;
      p + 2 + i < |Flat(frames)| && Flat(Updated(frames, i, w)) == Flat(frames)[p + 2 + i := w]
  {
    var front, top := frames[..|frames| - 1], frames[|frames| - 1];
    var head := Flat(front) + [SizeOfTop(front), |top|];
    assert Flat(frames) == head + top;
    assert Flat(Updated(frames, i, w)) == head + top[i := w];
  }

  // ---------- frames ----------

  /** The stack pointer is the sum of the sizes of the frames below, two header words each included. */
  lemma {:induction false} FlatLength(frames: seq<Frame>)
    ensures |Flat(frames)| == Start(frames, |frames|)
  {
    if frames != [] {
      FlatLength(frames[..|frames| - 1]);
      StartPrefix(frames, |frames| - 1);
    }
  }

  lemma {:induction false} StartPrefix(frames: seq<Frame>, k: nat)
    requires frames != [] && k <= |frames| - 1
    ensures Start(frames[..|frames| - 1], k) == Start(frames, k)
  {
    if k > 0 {
      StartPrefix(frames, k - 1);
    }
  }

  /** Frames do not overlap. */
  lemma {:induction false} FramesDisjoint(frames: seq<Frame>, k: nat, l: nat)
    requires k < l <= |frames|
    ensures Start(frames, k) + 2 + |frames[k]| <= Start(frames, l)
  {
    if k < l - 1 {
      FramesDisjoint(frames, k, l - 1);
    }
  }

  /** A frame at an offset of a stretch of words: header, then slots. */
  ghost predicate LiesAt(s: seq<Word>, a: nat, prevSize: nat, f: Frame) {
    a + 2 + |f| <= |s| && s[a] == prevSize && s[a + 1] == |f| && s[a + 2..a + 2 + |f|] == f
  }

  lemma LiesInLonger(s: seq<Word>, x: seq<Word>, a: nat, prevSize: nat, f: Frame)
    requires LiesAt(s, a, prevSize, f)
    ensures LiesAt(s + x, a, prevSize, f)
  {
    assert (s + x)[a + 2..a + 2 + |f|] == s[a + 2..a + 2 + |f|];
  }

  /** Every frame lies where its start says, header first. */
  lemma {:induction false} FrameInPlace(frames: seq<Frame>, k: nat)
    requires k < |frames|
    ensures LiesAt(Flat(frames), Start(frames, k), if k == 0 then 0 else |frames[k - 1]|, frames[k])
  {
    var front, top := frames[..|frames| - 1], frames[|frames| - 1];
    StartPrefix(frames, k);
    Assoc(Flat(front), [SizeOfTop(front), |top|], top);
    if k < |frames| - 1 {
      FrameInPlace(front, k);
      LiesInLonger(Flat(front), [SizeOfTop(front), |top|] + top, Start(frames, k),
                   if k == 0 then 0 else |frames[k - 1]|, frames[k]);
    } else {
      FlatLength(front);
      TopOfFlat(frames);
      assert Flat(frames)[|Flat(front)| + 2..] == top;
    }
  }

  lemma Assoc(x: seq<Word>, y: seq<Word>, z: seq<Word>)
    ensures x + y + z == x + (y + z)
  {
  }

  // ---------- runs ----------

  /** What one call of the runtime does to the frames: a new one, a change to the top one, or one less. */
  ghost predicate Next(f: seq<Frame>, g: seq<Frame>) {
    || (|g| == |f| + 1 && g[..|f|] == f)
    || (f != [] && |g| == |f| && g[..|f| - 1] == f[..|f| - 1])
    || (f != [] && g == f[..|f| - 1])
  }

  ghost predicate IsRun(run: seq<seq<Frame>>) {
    run != [] && forall i: nat :: i + 1 < |run| ==> Next(run[i], run[i + 1])
  }

  /** Frames below the lowest depth a run comes down to are the same at its end. */
  lemma {:induction false} BelowUntouched(run: seq<seq<Frame>>, d: nat)
    requires IsRun(run) && forall i: nat :: i < |run| ==> |run[i]| > d
    ensures run[|run| - 1][..d] == run[0][..d]
  {
    if |run| > 1 {
      var prior := run[..|run| - 1];
      BelowUntouched(prior, d);
      var f, g := prior[|prior| - 1], run[|run| - 1];
      assert Next(run[|run| - 2], run[|run| - 1]);
      assert g[..d] == f[..d];
    }
  }
}
