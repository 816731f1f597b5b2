/**
 The mixing at the heart of BLAKE2s (sections 2.7, 3.1 and 3.2 of RFC 7693), and its inverse.
 */
module Blake2sMixing {

  type Word = bv32

  /** Section 2.7: the order in which each round reads the message words. */
  const SIGMA: seq<seq<nat>> := [
    [0, 1, 2, 3, 4, 5, 6, 7, 8, 9, 10, 11, 12, 13, 14, 15],
    [14, 10, 4, 8, 9, 15, 13, 6, 1, 12, 0, 2, 11, 7, 5, 3],
    [11, 8, 12, 0, 5, 2, 15, 13, 10, 14, 3, 6, 7, 1, 9, 4],
    [7, 9, 3, 1, 13, 12, 11, 14, 2, 6, 5, 10, 4, 0, 15, 8],
    [9, 0, 5, 7, 2, 4, 10, 15, 14, 1, 11, 12, 6, 8, 3, 13],
    [2, 12, 6, 10, 0, 11, 8, 3, 4, 13, 7, 5, 15, 14, 1, 9],
    [12, 5, 1, 15, 14, 13, 4, 10, 0, 7, 6, 3, 9, 2, 8, 11],
    [13, 11, 7, 14, 12, 1, 3, 9, 5, 0, 15, 4, 8, 6, 2, 10],
    [6, 15, 14, 9, 11, 3, 0, 8, 12, 2, 13, 7, 1, 4, 10, 5],
    [10, 2, 8, 4, 7, 6, 1, 5, 15, 11, 9, 14, 3, 12, 13, 0]]

  function Sigma(r: nat, i: nat): (s: nat)
    requires r < 10 && i < 16
    ensures s < 16
  {
    assert forall row: nat :: row < 10 ==> |SIGMA[row]| == 16;
    assert forall row: nat, k: nat :: row < 10 && k < 16 ==> SIGMA[row][k] < 16;
    SIGMA[r][i]
  }

  /** A row without its entry `i` still lists what it lists elsewhere. */
  lemma Without(row: seq<nat>, i: nat, p: nat)
    requires i < |row| && p < |row| && p != i
    ensures row[p] in row[..i] + row[i + 1..]
  {
    var rest := row[..i] + row[i + 1..];
    assert rest[if p < i then p else p - 1] == row[p];
  }

  /** A list that has every number below `n` has at least `n` entries. */
  lemma {:induction false} ListsAll(row: seq<nat>, n: nat)
    requires forall k: nat :: k < n ==> k in row
    ensures |row| >= n
    decreases n
  {
    if n > 0 {
      assert n - 1 in row;
      var i :| 0 <= i < |row| && row[i] == n - 1;
      var rest := row[..i] + row[i + 1..];
      forall k: nat | k < n - 1
        ensures k in rest
      {
        assert k in row;
        var p :| 0 <= p < |row| && row[p] == k;
        Without(row, i, p);
      }
      ListsAll(rest, n - 1);
    }
  }

  /** With `n` entries it repeats none. */
  lemma ListsOnce(row: seq<nat>, n: nat, i: nat, j: nat)
    requires forall k: nat :: k < n ==> k in row
    requires |row| == n && i < j < n
    ensures row[i] != row[j]
  {
    if row[i] == row[j] {
      var rest := row[..j] + row[j + 1..];
      forall k: nat | k < n
        ensures k in rest
      {
        assert k in row;
        var p :| 0 <= p < |row| && row[p] == k;
        Without(row, j, if p == j then i else p);
      }
      ListsAll(rest, n);
    }
  }

  lemma RowListsAll(r: nat, k: nat)
    requires r < 10 && k < 16
    ensures |SIGMA[r]| == 16 && k in SIGMA[r]
  {
  }

  lemma RowsList(r: nat)
    requires r < 10
    ensures |SIGMA[r]| == 16 && forall k: nat :: k < 16 ==> k in SIGMA[r]
  {
    forall k: nat | k < 16
      ensures |SIGMA[r]| == 16 && k in SIGMA[r]
    {
      RowListsAll(r, k);
    }
    RowListsAll(r, 0);
  }

  /** Each round reads every message word, and reads it once. */
  lemma EveryWordRead(r: nat, i: nat, j: nat, k: nat)
    requires r < 10 && i < j < 16 && k < 16
    ensures |SIGMA[r]| == 16 && k in SIGMA[r] && SIGMA[r][i] != SIGMA[r][j]
  {
    RowsList(r);
    ListsOnce(SIGMA[r], 16, i, j);
  }

  // ---------- section 3.1: the mixing function G ----------

  datatype Four = Four(a: Word, b: Word, c: Word, d: Word)

  /** The four distances by which words are turned to the right. */
  datatype Rotation = R16 | R12 | R8 | R7

  function Rotr16(w: Word): Word { (w >> 16) | (w << 16) }

  function Rotr12(w: Word): Word { (w >> 12) | (w << 20) }

  function Rotr8(w: Word): Word { (w >> 8) | (w << 24) }

  function Rotr7(w: Word): Word { (w >> 7) | (w << 25) }

  function Rotr(w: Word, rot: Rotation): Word {
    match rot
    case R16 => Rotr16(w)
    case R12 => Rotr12(w)
    case R8 => Rotr8(w)
    case R7 => Rotr7(w)
  }

  function Xor(w: Word, u: Word): Word { w ^ u }

  function Sum(w: Word, u: Word): Word { w + u }

  /** One half of G; `wide` picks the rotations by 16 and 12 over those by 8 and 7. */
  function Half(q: Four, x: Word, wide: bool): Four {
    var a := Sum(Sum(q.a, q.b), x);
    var d := Rotr(Xor(q.d, a), if wide then R16 else R8);
    var c := Sum(q.c, d);
    var b := Rotr(Xor(q.b, c), if wide then R12 else R7);
    Four(a, b, c, d)
  }

  function G(q: Four, x: Word, y: Word): Four {
    Half(Half(q, x, true), y, false)
  }

  function Rotl16(w: Word): Word { (w << 16) | (w >> 16) }

  function Rotl12(w: Word): Word { (w << 12) | (w >> 20) }

  function Rotl8(w: Word): Word { (w << 8) | (w >> 24) }

  function Rotl7(w: Word): Word { (w << 7) | (w >> 25) }

  function Rotl(w: Word, rot: Rotation): Word {
    match rot
    case R16 => Rotl16(w)
    case R12 => Rotl12(w)
    case R8 => Rotl8(w)
    case R7 => Rotl7(w)
  }

  function Less(w: Word, u: Word): Word { w - u }

  /** The steps of `Half` undone, last first. */
  function UndoHalf(q: Four, x: Word, wide: bool): Four {
    var b := Xor(Rotl(q.b, if wide then R12 else R7), q.c);
    var c := Less(q.c, q.d);
    var d := Xor(Rotl(q.d, if wide then R16 else R8), q.a);
    var a := Less(Less(q.a, x), b);
    Four(a, b, c, d)
  }

  function UndoG(q: Four, x: Word, y: Word): Four {
    UndoHalf(UndoHalf(q, y, false), x, true)
  }

  lemma EachRotationUndone(w: Word)
    ensures Rotl16(Rotr16(w)) == w && Rotr16(Rotl16(w)) == w
    ensures Rotl12(Rotr12(w)) == w && Rotr12(Rotl12(w)) == w
    ensures Rotl8(Rotr8(w)) == w && Rotr8(Rotl8(w)) == w
    ensures Rotl7(Rotr7(w)) == w && Rotr7(Rotl7(w)) == w
  {
  }

  lemma RotationUndone(w: Word, rot: Rotation)
    ensures Rotl(Rotr(w, rot), rot) == w && Rotr(Rotl(w, rot), rot) == w
  {
    EachRotationUndone(w);
  }

  lemma XorTwice(w: Word, u: Word)
    ensures (w ^ u) ^ u == w
  {
  }

  lemma XorUndone(w: Word, u: Word)
    ensures Xor(Xor(w, u), u) == w
  {
    XorTwice(w, u);
    assert Xor(w, u) == w ^ u;
  }

  lemma PlusMinus(w: Word, u: Word)
    ensures (w + u) - u == w && (w - u) + u == w
  {
  }

  lemma SumUndone(w: Word, u: Word)
    ensures Less(Sum(w, u), u) == w
    ensures Sum(Less(w, u), u) == w
  {
    PlusMinus(w, u);
    assert Sum(w, u) == w + u;
    assert Less(w, u) == w - u;
  }

  lemma HalfUndone(q: Four, x: Word, wide: bool)
    ensures UndoHalf(Half(q, x, wide), x, wide) == q
  {
    var a := Sum(Sum(q.a, q.b), x);
    var c := Half(q, x, wide).c;
    RotationUndone(Xor(q.d, a), if wide then R16 else R8);
    XorUndone(q.d, a);
    RotationUndone(Xor(q.b, c), if wide then R12 else R7);
    XorUndone(q.b, c);
    SumUndone(q.a, q.b);
    SumUndone(Sum(q.a, q.b), x);
    SumUndone(q.c, Half(q, x, wide).d);
  }

  lemma HalfRedone(q: Four, x: Word, wide: bool)
    ensures Half(UndoHalf(q, x, wide), x, wide) == q
  {
    var u := UndoHalf(q, x, wide);
    SumUndone(q.a, x);
    SumUndone(Less(q.a, x), u.b);
    RotationUndone(q.d, if wide then R16 else R8);
    XorUndone(Rotl(q.d, if wide then R16 else R8), q.a);
    SumUndone(q.c, q.d);
    RotationUndone(q.b, if wide then R12 else R7);
    XorUndone(Rotl(q.b, if wide then R12 else R7), q.c);
  }

  /** G is a bijection for every two message words. */
  lemma GIsABijection(q: Four, x: Word, y: Word)
    ensures UndoG(G(q, x, y), x, y) == q
    ensures G(UndoG(q, x, y), x, y) == q
  {
    HalfUndone(q, x, true);
    HalfUndone(Half(q, x, true), y, false);
    HalfRedone(q, y, false);
    HalfRedone(UndoHalf(q, y, false), x, true);
  }

  // ---------- section 3.2: the rounds ----------

  /** What application `i` of round `r` does to the four words it touches. */
  type Mixer = (Four, nat, nat) -> Four

  /** Mixing with the words of message block `m`. */
  function Mixing(m: seq<Word>): Mixer
    requires |m| == 16
  {
    (q: Four, r: nat, i: nat) => if r < 10 && i < 8 then G(q, m[Sigma(r, 2 * i)], m[Sigma(r, 2 * i + 1)]) else q
  }

  function Unmixing(m: seq<Word>): Mixer
    requires |m| == 16
  {
    (q: Four, r: nat, i: nat) => if r < 10 && i < 8 then UndoG(q, m[Sigma(r, 2 * i)], m[Sigma(r, 2 * i + 1)]) else q
  }

  ghost predicate Inverse(g: Mixer, u: Mixer) {
    forall q: Four, r: nat, i: nat :: u(g(q, r, i), r, i) == q
  }

  lemma MixingInverse(m: seq<Word>)
    requires |m| == 16
    ensures Inverse(Mixing(m), Unmixing(m)) && Inverse(Unmixing(m), Mixing(m))
  {
    forall q: Four, r: nat, i: nat
      ensures Unmixing(m)(Mixing(m)(q, r, i), r, i) == q && Mixing(m)(Unmixing(m)(q, r, i), r, i) == q
    {
      if r < 10 && i < 8 {
        GIsABijection(q, m[Sigma(r, 2 * i)], m[Sigma(r, 2 * i + 1)]);
      }
    }
  }

  /** The four words of the work vector that one application of G touches. */
  datatype Quad = Quad(a: nat, b: nat, c: nat, d: nat)

  /** The columns of the 4x4 work vector, then its diagonals. */
  function Place(i: nat): (p: Quad)
    requires i < 8
    ensures p.a < p.b < 16 && p.b < p.c < 16 && p.c < p.d < 16
  {
    if i < 4 then Quad(i, i + 4, i + 8, i + 12)
    else if i == 4 then Quad(0, 5, 10, 15)
    else if i == 5 then Quad(1, 6, 11, 12)
    else if i == 6 then Quad(2, 7, 8, 13)
    else Quad(3, 4, 9, 14)
  }

  function Fetch(v: seq<Word>, p: Quad): Four
    requires |v| == 16 && p.a < 16 && p.b < 16 && p.c < 16 && p.d < 16
  {
    Four(v[p.a], v[p.b], v[p.c], v[p.d])
  }

  function Put(v: seq<Word>, p: Quad, q: Four): (w: seq<Word>)
    requires |v| == 16 && p.a < 16 && p.b < 16 && p.c < 16 && p.d < 16
    ensures |w| == 16
  {
    v[p.a := q.a][p.b := q.b][p.c := q.c][p.d := q.d]
  }

  lemma PutFetch(v: seq<Word>, p: Quad, q: Four)
    requires |v| == 16 && p.a < p.b < 16 && p.b < p.c < 16 && p.c < p.d < 16
    ensures Fetch(Put(v, p, q), p) == q
    ensures Put(Put(v, p, q), p, Fetch(v, p)) == v
  {
  }

  /** Application `i` of round `r`. */
  function Step(g: Mixer, v: seq<Word>, r: nat, i: nat): (w: seq<Word>)
    requires |v| == 16 && r < 10 && i < 8
    ensures |w| == 16
  {
    Put(v, Place(i), g(Fetch(v, Place(i)), r, i))
  }

  lemma StepUndone(g: Mixer, u: Mixer, v: seq<Word>, r: nat, i: nat)
    requires |v| == 16 && r < 10 && i < 8 && Inverse(g, u)
    ensures Step(u, Step(g, v, r, i), r, i) == v
  {
    var p := Place(i);
    PutFetch(v, p, g(Fetch(v, p), r, i));
  }

  /** The first `r` rounds, and `i` applications of the next. */
  function Mixed(g: Mixer, v: seq<Word>, r: nat, i: nat): (w: seq<Word>)
    requires |v| == 16 && r <= 10 && i <= 8 && (r == 10 ==> i == 0)
    ensures |w| == 16
    decreases r, i
  {
    if i > 0 then Step(g, Mixed(g, v, r, i - 1), r, i - 1)
    else if r > 0 then Mixed(g, v, r - 1, 8)
    else v
  }

  /** The same applications in the opposite order: with an inverse of `g`, the inverse schedule. */
  function Backward(u: Mixer, w: seq<Word>, r: nat, i: nat): (v: seq<Word>)
    requires |w| == 16 && r <= 10 && i <= 8 && (r == 10 ==> i == 0)
    ensures |v| == 16
    decreases r, i
  {
    if i > 0 then Backward(u, Step(u, w, r, i - 1), r, i - 1)
    else if r > 0 then Backward(u, w, r - 1, 8)
    else w
  }

  lemma {:induction false} BackwardUndoes(g: Mixer, u: Mixer, v: seq<Word>, r: nat, i: nat)
    requires |v| == 16 && r <= 10 && i <= 8 && (r == 10 ==> i == 0) && Inverse(g, u)
    ensures Backward(u, Mixed(g, v, r, i), r, i) == v
    decreases r, i
  {
    if i > 0 {
      StepUndone(g, u, Mixed(g, v, r, i - 1), r, i - 1);
      BackwardUndoes(g, u, v, r, i - 1);
    } else if r > 0 {
      BackwardUndoes(g, u, v, r - 1, 8);
    }
  }

  lemma {:induction false} BackwardIsUndone(g: Mixer, u: Mixer, w: seq<Word>, r: nat, i: nat)
    requires |w| == 16 && r <= 10 && i <= 8 && (r == 10 ==> i == 0) && Inverse(u, g)
    ensures Mixed(g, Backward(u, w, r, i), r, i) == w
    decreases r, i
  {
    if i > 0 {
      BackwardIsUndone(g, u, Step(u, w, r, i - 1), r, i - 1);
      StepUndone(u, g, w, r, i - 1);
    } else if r > 0 {
      BackwardIsUndone(g, u, w, r - 1, 8);
    }
  }

  /** The ten rounds are a bijection on work vectors, whatever the message block. */
  lemma MixingIsABijection(v: seq<Word>, m: seq<Word>)
    requires |v| == 16 && |m| == 16
    ensures Backward(Unmixing(m), Mixed(Mixing(m), v, |SIGMA|, 0), |SIGMA|, 0) == v
    ensures Mixed(Mixing(m), Backward(Unmixing(m), v, |SIGMA|, 0), |SIGMA|, 0) == v
  {
    MixingInverse(m);
    BackwardUndoes(Mixing(m), Unmixing(m), v, |SIGMA|, 0);
    BackwardIsUndone(Mixing(m), Unmixing(m), v, |SIGMA|, 0);
  }

  // ---------- the mixing as the program does it ----------

  /** Half of the source's macro `G` on its work vector. */
  method HalfInPlace(v: array<Word>, x: Word, wide: bool, a: nat, b: nat, c: nat, d: nat)
    requires v.Length == 16 && a < b < 16 && b < c < 16 && c < d < 16
    modifies v
    ensures v[..] == Put(old(v[..]), Quad(a, b, c, d), Half(Fetch(old(v[..]), Quad(a, b, c, d)), x, wide))
  {
    ghost var p := Quad(a, b, c, d);
    ghost var w, q := v[..], Half(Fetch(v[..], p), x, wide);
    v[a] := Sum(Sum(v[a], v[b]), x);
    assert v[a] == q.a;
    v[d] := Rotr(Xor(v[d], v[a]), if wide then R16 else R8);
    assert v[d] == q.d;
    v[c] := Sum(v[c], v[d]);
    assert v[c] == q.c;
    v[b] := Rotr(Xor(v[b], v[c]), if wide then R12 else R7);
    assert v[b] == q.b;
  }

  lemma PutTwice(v: seq<Word>, p: Quad, q: Four, q': Four)
    requires |v| == 16 && p.a < p.b < 16 && p.b < p.c < 16 && p.c < p.d < 16
    ensures Fetch(Put(v, p, q), p) == q
    ensures Put(Put(v, p, q), p, q') == Put(v, p, q')
  {
  }

  /** One use of the source's macro `G` on its work vector. */
  method MixInPlace(v: array<Word>, x: Word, y: Word, a: nat, b: nat, c: nat, d: nat)
    requires v.Length == 16 && a < b < 16 && b < c < 16 && c < d < 16
    modifies v
    ensures v[..] == Put(old(v[..]), Quad(a, b, c, d), G(Fetch(old(v[..]), Quad(a, b, c, d)), x, y))
  {
    ghost var w, p := v[..], Quad(a, b, c, d);
    ghost var q := Half(Fetch(w, p), x, true);
    HalfInPlace(v, x, true, a, b, c, d);
    HalfInPlace(v, y, false, a, b, c, d);
    PutTwice(w, p, q, Half(q, y, false));
  }

  lemma StepIs(m: seq<Word>, w: seq<Word>, r: nat, i: nat)
    requires |m| == 16 && |w| == 16 && r < 10 && i < 8
    ensures var p := Place(i);
      Step(Mixing(m), w, r, i) == Put(w, p, G(Fetch(w, p), m[Sigma(r, 2 * i)], m[Sigma(r, 2 * i + 1)]))
  {
    assert Mixing(m)(Fetch(w, Place(i)), r, i) == G(Fetch(w, Place(i)), m[Sigma(r, 2 * i)], m[Sigma(r, 2 * i + 1)]);
  }

  /** Application `i` of round `r`, on the words the schedule picks. */
  method MixNext(v: array<Word>, m: seq<Word>, r: nat, i: nat, a: nat, b: nat, c: nat, d: nat, ghost v0: seq<Word>)
    requires v.Length == 16 && |m| == 16 && |v0| == 16 && r < 10 && i < 8 && Place(i) == Quad(a, b, c, d)
    requires v[..] == Mixed(Mixing(m), v0, r, i)
    modifies v
    ensures v[..] == Mixed(Mixing(m), v0, r, i + 1)
  {
    ghost var w := v[..];
    MixInPlace(v, m[Sigma(r, 2 * i)], m[Sigma(r, 2 * i + 1)], a, b, c, d);
    StepIs(m, w, r, i);
  }

  method Columns(v: array<Word>, m: seq<Word>, r: nat, ghost v0: seq<Word>)
    requires v.Length == 16 && |m| == 16 && |v0| == 16 && r < 10
    requires v[..] == Mixed(Mixing(m), v0, r, 0)
    modifies v
    ensures v[..] == Mixed(Mixing(m), v0, r, 4)
  {
    MixNext(v, m, r, 0, 0, 4, 8, 12, v0);
    MixNext(v, m, r, 1, 1, 5, 9, 13, v0);
    MixNext(v, m, r, 2, 2, 6, 10, 14, v0);
    MixNext(v, m, r, 3, 3, 7, 11, 15, v0);
  }

  method Diagonals(v: array<Word>, m: seq<Word>, r: nat, ghost v0: seq<Word>)
    requires v.Length == 16 && |m| == 16 && |v0| == 16 && r < 10
    requires v[..] == Mixed(Mixing(m), v0, r, 4)
    modifies v
    ensures v[..] == Mixed(Mixing(m), v0, r, 8)
  {
    MixNext(v, m, r, 4, 0, 5, 10, 15, v0);
    MixNext(v, m, r, 5, 1, 6, 11, 12, v0);
    MixNext(v, m, r, 6, 2, 7, 8, 13, v0);
    MixNext(v, m, r, 7, 3, 4, 9, 14, v0);
  }
}
