/**
 SHA-1 as the handshake code computes it, byte by byte, against padding and computation as
 sections 5.1.1 and 6.1.2 of FIPS 180-2 give them for whole messages.
 */
module Sha1 {
  import opened Common

  type Word = bv32

  const BLOCK: nat := 64

  type State = h: seq<Word> | |h| == 5 witness seq(5, _ => 0)

  type Block = b: seq<byte> | |b| == BLOCK witness seq(BLOCK, _ => 0)

  // ---------- section 6.1.2: one block ----------

  function Rotl1(w: Word): Word { (w << 1) | (w >> 31) }

  function Rotl5(w: Word): Word { (w << 5) | (w >> 27) }

  function Rotl30(w: Word): Word { (w << 30) | (w >> 2) }

  function Ch(x: Word, y: Word, z: Word): Word { (x & y) ^ (!x & z) }

  function Parity(x: Word, y: Word, z: Word): Word { x ^ y ^ z }

  function Maj(x: Word, y: Word, z: Word): Word { (x & y) ^ (x & z) ^ (y & z) }

  function Sum5(v: Word, w: Word, x: Word, y: Word, z: Word): Word { v + w + x + y + z }

  const K: seq<Word> := [0x5a827999, 0x6ed9eba1, 0x8f1bbcdc, 0xca62c1d6]

  /** The function and the constant of round `t`. */
  function Logic(t: nat, x: Word, y: Word, z: Word): Word {
    if t < 20 then Ch(x, y, z) else if t < 40 || t >= 60 then Parity(x, y, z) else Maj(x, y, z)
  }

  function Constant(t: nat): Word {
    if t < 20 then K[0] else if t < 40 then K[1] else if t < 60 then K[2] else K[3]
  }

  /** A big-endian word of a block. */
  function Load(b: seq<byte>, i: nat): Word
    requires i + 4 <= |b|
  {
    ((b[i] as bv32) << 24) + ((b[i + 1] as bv32) << 16) + ((b[i + 2] as bv32) << 8) + (b[i + 3] as bv32)
  }

  function Mix4(w: Word, x: Word, y: Word, z: Word): Word { Rotl1(w ^ x ^ y ^ z) }

  /** The message schedule. */
  function W(b: Block, t: nat): Word {
    if t < 16 then Load(b, 4 * t) else Mix4(W(b, t - 3), W(b, t - 8), W(b, t - 14), W(b, t - 16))
  }

  datatype Five = Five(a: Word, b: Word, c: Word, d: Word, e: Word)

  function Turned(v: Five, t: nat, w: Word): Five {
    Five(Sum5(Rotl5(v.a), Logic(t, v.b, v.c, v.d), v.e, Constant(t), w), v.a, Rotl30(v.b), v.c, v.d)
  }

  /** The working variables after `t` rounds. */
  function Rounds(v: Five, b: Block, t: nat): Five {
    if t == 0 then v else Turned(Rounds(v, b, t - 1), t - 1, W(b, t - 1))
  }

  const ROUNDS: nat := 20 * |K|

  function Added(h: State, v: Five): State {
    [h[0] + v.a, h[1] + v.b, h[2] + v.c, h[3] + v.d, h[4] + v.e]
  }

  function Opened(h: State): Five { Five(h[0], h[1], h[2], h[3], h[4]) }

  function Transform(h: State, b: Block): State {
    Added(h, Rounds(Opened(h), b, ROUNDS))
  }

  ghost predicate Scheduled(m: seq<Word>, b: Block) {
    |m| == 80 && forall t: nat :: t < 80 ==> m[t] == W(b, t)
  }

  // ---------- the transform as four loops ----------

  method LoadWords(data: seq<byte>) returns (m: array<Word>)
    requires |data| == BLOCK
    ensures fresh(m) && m.Length == 80 && forall t: nat :: t < 16 ==> m[t] == W(data, t)
  {
    m := new Word[80];
    var i, j := 0, 0;
    while i < 16
      invariant i <= 16 && j == 4 * i && forall t: nat :: t < i ==> m[t] == W(data, t)
    {
      m[i] := Load(data, j);
      i, j := i + 1, j + 4;
    }
  }

  method Extend(m: array<Word>, ghost b: Block)
    requires m.Length == 80 && forall t: nat :: t < 16 ==> m[t] == W(b, t)
    modifies m
    ensures Scheduled(m[..], b)
  {
    var i := 16;
    while i < 80
      invariant 16 <= i <= 80 && forall t: nat :: t < i ==> m[t] == W(b, t)
    {
      m[i] := Mix4(m[i - 3], m[i - 8], m[i - 14], m[i - 16]);
      i := i + 1;
    }
  }

  method Choosing(v: Five, m: seq<Word>, ghost h: Five, ghost b: Block) returns (r: Five)
    requires Scheduled(m, b) && v == Rounds(h, b, 0)
    ensures r == Rounds(h, b, 20)
  {
    var a, b', c, d, e := v.a, v.b, v.c, v.d, v.e;
    var i := 0;
    while i < 20
      invariant 0 <= i <= 20 && Five(a, b', c, d, e) == Rounds(h, b, i)
    {
      var t := Sum5(Rotl5(a), Ch(b', c, d), e, K[0], m[i]);
      e := d;
      d := c;
      c := Rotl30(b');
      b' := a;
      a := t;
      i := i + 1;
    }
    r := Five(a, b', c, d, e);
  }

  method FirstParity(v: Five, m: seq<Word>, ghost h: Five, ghost b: Block) returns (r: Five)
    requires Scheduled(m, b) && v == Rounds(h, b, 20)
    ensures r == Rounds(h, b, 40)
  {
    var a, b', c, d, e := v.a, v.b, v.c, v.d, v.e;
    var i := 20;
    while i < 40
      invariant 20 <= i <= 40 && Five(a, b', c, d, e) == Rounds(h, b, i)
    {
      var t := Sum5(Rotl5(a), Parity(b', c, d), e, K[1], m[i]);
      e := d;
      d := c;
      c := Rotl30(b');
      b' := a;
      a := t;
      i := i + 1;
    }
    r := Five(a, b', c, d, e);
  }

  method Majority(v: Five, m: seq<Word>, ghost h: Five, ghost b: Block) returns (r: Five)
    requires Scheduled(m, b) && v == Rounds(h, b, 40)
    ensures r == Rounds(h, b, 60)
  {
    var a, b', c, d, e := v.a, v.b, v.c, v.d, v.e;
    var i := 40;
    while i < 60
      invariant 40 <= i <= 60 && Five(a, b', c, d, e) == Rounds(h, b, i)
    {
      var t := Sum5(Rotl5(a), Maj(b', c, d), e, K[2], m[i]);
      e := d;
      d := c;
      c := Rotl30(b');
      b' := a;
      a := t;
      i := i + 1;
    }
    r := Five(a, b', c, d, e);
  }

  method LastParity(v: Five, m: seq<Word>, ghost h: Five, ghost b: Block) returns (r: Five)
    requires Scheduled(m, b) && v == Rounds(h, b, 60)
    ensures r == Rounds(h, b, 80)
  {
    var a, b', c, d, e := v.a, v.b, v.c, v.d, v.e;
    var i := 60;
    while i < 80
      invariant 60 <= i <= 80 && Five(a, b', c, d, e) == Rounds(h, b, i)
    {
      var t := Sum5(Rotl5(a), Parity(b', c, d), e, K[3], m[i]);
      e := d;
      d := c;
      c := Rotl30(b');
      b' := a;
      a := t;
      i := i + 1;
    }
    r := Five(a, b', c, d, e);
  }

  method AllRounds(state: State, data: seq<byte>) returns (v: Five)
    requires |data| == BLOCK
    ensures v == Rounds(Opened(state), data, ROUNDS)
  {
    var words := LoadWords(data);
    Extend(words, data);
    var m := words[..];
    ghost var h := Opened(state);
    v := Five(state[0], state[1], state[2], state[3], state[4]);
    v := Choosing(v, m, h, data);
    v := FirstParity(v, m, h, data);
    v := Majority(v, m, h, data);
    v := LastParity(v, m, h, data);
  }

  // ---------- section 5.1.1: padding; section 6.1.2: the hash of a message ----------

  type Compression = (State, Block) -> State

  const INITIAL: State := [0x67452301, 0xEFCDAB89, 0x98BADCFE, 0x10325476, 0xc3d2e1f0]

  function Zeros(n: nat): (s: seq<byte>)
    ensures |s| == n
  {
    seq(n, _ => 0)
  }

  /** The low `k` bytes of a number, high byte first. */
  function HighFirst(n: nat, k: nat): (s: seq<byte>)
    ensures |s| == k
  {
    if k == 0 then [] else HighFirst(n / 256, k - 1) + [n % 256]
  }

  const LENGTH_BYTES: nat := 8

  function BigEndian64(n: nat): (s: seq<byte>)
    ensures |s| == 8
  {
    HighFirst(n, LENGTH_BYTES)
  }

  lemma TwoMore(n: nat, k: nat)
    ensures HighFirst(n, k + 2) == HighFirst(n / 0x1_0000, k) + [n / 256 % 256, n % 256]
  {
    assert HighFirst(n, k + 2) == HighFirst(n / 256, k + 1) + [n % 256];
    assert HighFirst(n / 256, k + 1) == HighFirst(n / 256 / 256, k) + [n / 256 % 256];
    assert n / 256 / 256 == n / 0x1_0000;
  }

  /** The shifts of the source pick the bytes. */
  lemma EightBytes(n: nat)
    ensures BigEndian64(n) == [
      n / 0x100_0000_0000_0000 % 256, n / 0x1_0000_0000_0000 % 256, n / 0x100_0000_0000 % 256, n / 0x1_0000_0000 % 256,
      n / 0x100_0000 % 256, n / 0x1_0000 % 256, n / 0x100 % 256, n % 256]
  {
    var m := n / 0x1_0000;
    var l := m / 0x1_0000;
    var k := l / 0x1_0000;
    TwoMore(n, 6);
    TwoMore(m, 4);
    TwoMore(l, 2);
    TwoMore(k, 0);
    assert l == n / 0x1_0000_0000 && k == n / 0x1_0000_0000_0000;
    assert m / 256 == n / 0x100_0000 && l / 256 == n / 0x100_0000_0000 && k / 256 == n / 0x100_0000_0000_0000;
  }

  /** The zero bytes after the one bit and the seven zero bits that complete its byte. */
  function ZeroBytes(len: nat): nat {
    (119 - len % BLOCK) % BLOCK
  }

  /** The one bit, the zeros, and what ends the last block. */
  function PaddedBy(len: nat, tail: seq<byte>): (s: seq<byte>) {
    [0x80] + Zeros(ZeroBytes(len)) + tail
  }

  function Padding(len: nat): (s: seq<byte>) {
    PaddedBy(len, BigEndian64(8 * len))
  }

  lemma ZeroBytesIs(len: nat, n: nat, rest: nat)
    requires len == BLOCK * n + rest && rest < BLOCK
    ensures ZeroBytes(len) == if rest < 56 then 55 - rest else 119 - rest
  {
    assert len % BLOCK == rest;
  }

  /** FIPS 180-2 asks for the least `k` with `l + 1 + k` congruent to 448 modulo 512: 7 bits and these bytes. */
  lemma PaddingIsLeast(len: nat, k: nat)
    ensures (8 * len + 1 + 7 + 8 * ZeroBytes(len)) % 512 == 448
    ensures (8 * len + 1 + k) % 512 == 448 ==> k >= 7 + 8 * ZeroBytes(len)
    ensures |Padding(len)| == 9 + ZeroBytes(len)
  {
    var q, r := len / BLOCK, len % BLOCK;
    ZeroBytesIs(len, q, r);
    Least(q, r, ZeroBytes(len), k);
  }

  lemma Least(q: nat, r: nat, z: nat, k: nat)
    requires r < 64 && z == if r < 56 then 55 - r else 119 - r
    ensures (8 * (64 * q + r) + 1 + 7 + 8 * z) % 512 == 448
    ensures (8 * (64 * q + r) + 1 + k) % 512 == 448 ==> k >= 7 + 8 * z
  {
    Modulo(q, 8 * r + 8 + 8 * z);
    Modulo(q, 8 * r + 1 + k);
  }

  lemma Modulo(q: nat, x: nat)
    ensures (512 * q + x) % 512 == x % 512
  {
  }

  /** The chaining value after the first `n` blocks. */
  function Chain(f: Compression, d: seq<byte>, n: nat): State
    requires BLOCK * n <= |d|
  {
    if n == 0 then INITIAL else f(Chain(f, d, n - 1), d[BLOCK * (n - 1)..BLOCK * n])
  }

  lemma {:induction false} ChainPrefix(f: Compression, d: seq<byte>, x: seq<byte>, n: nat)
    requires BLOCK * n <= |d|
    ensures Chain(f, d + x, n) == Chain(f, d, n)
  {
    if n > 0 {
      ChainPrefix(f, d, x, n - 1);
      assert (d + x)[BLOCK * (n - 1)..BLOCK * n] == d[BLOCK * (n - 1)..BLOCK * n];
    }
  }

  function Store(w: Word): (s: seq<byte>)
    ensures |s| == 4
  {
    [((w >> 24) & 0xff) as byte, ((w >> 16) & 0xff) as byte, ((w >> 8) & 0xff) as byte, (w & 0xff) as byte]
  }

  function BigEndian(h: State): (s: seq<byte>)
    ensures |s| == 20
  {
    Store(h[0]) + Store(h[1]) + Store(h[2]) + Store(h[3]) + Store(h[4])
  }

  /** All blocks of the padded message. */
  function Closed(f: Compression, msg: seq<byte>): State {
    var d := msg + Padding(|msg|);
    Chain(f, d, |d| / BLOCK)
  }

  function Hash(msg: seq<byte>): (digest: seq<byte>)
    ensures |digest| == 20
  {
    BigEndian(Closed(Transform, msg))
  }

  ghost predicate Faithful(f: Compression) {
    forall h: State, b: Block {:trigger Transform(h, b)} :: f(h, b) == Transform(h, b)
  }

  lemma {:induction false} ChainAgrees(f: Compression, g: Compression, d: seq<byte>, n: nat)
    requires BLOCK * n <= |d| && forall h: State, b: Block :: f(h, b) == g(h, b)
    ensures Chain(f, d, n) == Chain(g, d, n)
  {
    if n > 0 {
      ChainAgrees(f, g, d, n - 1);
    }
  }

  lemma FaithfulHash(f: Compression, msg: seq<byte>)
    requires Faithful(f)
    ensures BigEndian(Closed(f, msg)) == Hash(msg)
  {
    forall h: State, b: Block
      ensures f(h, b) == Transform(h, b)
    {
    }
    var d := msg + Padding(|msg|);
    ChainAgrees(f, Transform, d, |d| / BLOCK);
  }

  type BitCount = x: int | 0 <= x < 0x1_0000_0000_0000_0000

  /** The bytes of five words, one byte of each in each turn. */
  method Interleave(v: seq<byte>, w: seq<byte>, x: seq<byte>, y: seq<byte>, z: seq<byte>) returns (hash: seq<byte>)
    requires |v| == 4 && |w| == 4 && |x| == 4 && |y| == 4 && |z| == 4
    ensures hash == v + w + x + y + z
  {
    var out := new byte[20];
    var i := 0;
    while i < 4
      invariant i <= 4
      invariant forall j: nat :: j < i ==> out[j] == v[j]
      invariant forall j: nat :: 4 <= j < 4 + i ==> out[j] == w[j - 4]
      invariant forall j: nat :: 8 <= j < 8 + i ==> out[j] == x[j - 8]
      invariant forall j: nat :: 12 <= j < 12 + i ==> out[j] == y[j - 12]
      invariant forall j: nat :: 16 <= j < 16 + i ==> out[j] == z[j - 16]
    {
      out[i], out[i + 4], out[i + 8], out[i + 12], out[i + 16] := v[i], w[i], x[i], y[i], z[i];
      i := i + 1;
    }
    hash := out[..];
  }

  // ---------- the streaming context ----------

  class Sha1Context {
    const data: array<byte>
    var datalen: nat
    var bitlen: BitCount
    var state: State
    /** The compression function, under a name that keeps its definition out of the streaming proofs. */
    ghost const f: Compression
    /** The bytes absorbed and the whole blocks among them. */
    ghost var msg: seq<byte>
    ghost var n: nat

    ghost predicate Shape()
      reads this
    {
      data.Length == BLOCK && datalen < BLOCK && Faithful(f)
    }

    ghost predicate Live()
      reads this, data
    {
      && Shape() && |msg| == BLOCK * n + datalen && bitlen == 512 * n
      && state == Chain(f, msg, n) && data[..datalen] == msg[BLOCK * n..]
    }

    constructor ()
      ensures Live() && msg == [] && fresh(data)
    {
      f := Transform;
      data := new byte[64];
      datalen, bitlen := 0, 0;
      state := INITIAL;
      msg, n := [], 0;
    }

    method DoTransform()
      requires data.Length == BLOCK && Faithful(f)
      modifies `state
      ensures state == f(old(state), data[..])
    {
      ghost var h: State, b: Block := state, data[..];
      assert f(h, b) == Transform(h, b);
      var v := AllRounds(state, data[..]);
      state := Added(state, v);
    }

    method Update(input: seq<byte>)
      requires Live() && 8 * (|msg| + |input|) < 0x1_0000_0000_0000_0000
      modifies this, data
      ensures Live() && msg == old(msg) + input
    {
      ghost var msg0 := msg;
      var i := 0;
      while i < |input|
        invariant i <= |input| && Live() && msg == msg0 + input[..i]
      {
        Absorb(input[i]);
        i := i + 1;
        assert input[..i] == input[..i - 1] + [input[i - 1]];
      }
      assert input[..|input|] == input;
    }

    /** One turn of the loop of `sha1_update`. */
    method Absorb(b: byte)
      requires Live() && 8 * (|msg| + 1) < 0x1_0000_0000_0000_0000
      modifies this, data
      ensures Live() && msg == old(msg) + [b]
    {
      ghost var d := msg + [b];
      ChainPrefix(f, msg, [b], n);
      data[datalen] := b;
      datalen := datalen + 1;
      assert data[..datalen] == d[BLOCK * n..];
      if datalen == BLOCK {
        assert data[..] == d[BLOCK * n..BLOCK * (n + 1)];
        DoTransform();
        bitlen := bitlen + 512;
        datalen := 0;
        n := n + 1;
      }
      msg := d;
    }

    /** `while (i < to) data[i++] = 0`, after the byte 0x80 at `from`. */
    method FillUp(from: nat, to: nat)
      requires data.Length == BLOCK && from < to <= BLOCK
      modifies data
      ensures data[..] == old(data[..from]) + [0x80] + Zeros(to - from - 1) + old(data[to..])
    {
      ghost var d := data[..];
      var i := from;
      data[i] := 0x80;
      i := i + 1;
      while i < to
        invariant from < i <= to
        invariant data[..] == d[..from] + [0x80] + Zeros(i - from - 1) + d[i..]
      {
        data[i] := 0;
        i := i + 1;
      }
    }

    /** The length in bits, in the last eight bytes. */
    method PutLength()
      requires data.Length == BLOCK
      modifies data
      ensures data[..] == old(data[..56]) + BigEndian64(bitlen)
    {
      var b3, b2, b1, b0 := bitlen % 256, bitlen / 0x100 % 256, bitlen / 0x1_0000 % 256, bitlen / 0x100_0000 % 256;
      var a3, a2 := bitlen / 0x1_0000_0000 % 256, bitlen / 0x100_0000_0000 % 256;
      var a1, a0 := bitlen / 0x1_0000_0000_0000 % 256, bitlen / 0x100_0000_0000_0000 % 256;
      EightBytes(bitlen);
      PutTail(a0, a1, a2, a3, b0, b1, b2, b3);
    }

    method PutTail(a0: byte, a1: byte, a2: byte, a3: byte, b0: byte, b1: byte, b2: byte, b3: byte)
      requires data.Length == BLOCK
      modifies data
      ensures data[..] == old(data[..56]) + [a0, a1, a2, a3, b0, b1, b2, b3]
    {
      data[63], data[62], data[61], data[60] := b3, b2, b1, b0;
      data[59], data[58], data[57], data[56] := a3, a2, a1, a0;
    }

    /** The padding that does not leave room for the length: one block more. */
    method FinishBlock(ghost tail: seq<byte>)
      requires Live() && datalen >= 56 && |tail| == 8
      modifies `state, data
      ensures |msg + PaddedBy(|msg|, tail)| >= BLOCK * (n + 1)
      ensures state == Chain(f, msg + PaddedBy(|msg|, tail), n + 1) && data[..56] == Zeros(56)
    {
      ghost var d := msg + PaddedBy(|msg|, tail);
      ChainPrefix(f, msg, PaddedBy(|msg|, tail), n);
      FillUp(datalen, 64);
      LongPadding(msg, n, datalen, tail);
      assert data[..] == d[BLOCK * n..BLOCK * (n + 1)];
      DoTransform();
      for i := 0 to 56
        invariant forall j: nat :: j < i ==> data[j] == 0
        modifies data
      {
        data[i] := 0;
      }
    }

    /** The two branches of the padding, up to the place of the length. */
    method Pad(ghost tail: seq<byte>)
      requires Live() && |tail| == 8
      modifies `state, data
      ensures var d := msg + PaddedBy(|msg|, tail); var k := if datalen < 56 then n else n + 1;
        |d| == BLOCK * (k + 1) && state == Chain(f, d, k) && data[..56] + tail == d[BLOCK * k..BLOCK * (k + 1)]
    {
      LastBlock(msg, n, datalen, tail);
      if datalen < 56 {
        ChainPrefix(f, msg, PaddedBy(|msg|, tail), n);
        FillUp(datalen, 56);
        assert data[..56] == msg[BLOCK * n..] + [0x80] + Zeros(55 - datalen);
      } else {
        FinishBlock(tail);
      }
    }

    method Final() returns (hash: seq<byte>)
      requires Live() && 8 * |msg| < 0x1_0000_0000_0000_0000
      modifies `state, `bitlen, data
      ensures hash == BigEndian(Closed(f, msg))
    {
      LastTransform(BigEndian64(8 * |msg|));
      hash := Interleave(Store(state[0]), Store(state[1]), Store(state[2]), Store(state[3]), Store(state[4]));
    }

    method LastTransform(ghost tail: seq<byte>)
      requires Live() && 8 * |msg| < 0x1_0000_0000_0000_0000 && tail == BigEndian64(8 * |msg|)
      modifies `state, `bitlen, data
      ensures state == Closed(f, msg)
    {
      ghost var d := msg + PaddedBy(|msg|, tail);
      ghost var k := if datalen < 56 then n else n + 1;
      Pad(tail);
      ClosedIs(f, msg, d, k);
      bitlen := bitlen + datalen * 8;
      LengthBlock(d, k, tail);
    }

    method LengthBlock(ghost d: seq<byte>, ghost k: nat, ghost tail: seq<byte>)
      requires Shape() && |d| == BLOCK * (k + 1) && state == Chain(f, d, k)
      requires tail == BigEndian64(bitlen) && data[..56] + tail == d[BLOCK * k..BLOCK * (k + 1)]
      modifies `state, data
      ensures state == f(Chain(f, d, k), d[BLOCK * k..BLOCK * (k + 1)])
    {
      PutLength();
      DoTransform();
    }
  }

  /** When fewer than 8 bytes remain for the length, the padding fills this block and runs into another. */
  lemma LongPadding(msg: seq<byte>, n: nat, rest: nat, tail: seq<byte>)
    requires |msg| == BLOCK * n + rest && 56 <= rest < BLOCK && |tail| == 8
    ensures var d := msg + PaddedBy(|msg|, tail);
      |d| == BLOCK * (n + 2) && d[BLOCK * n..BLOCK * (n + 1)] == msg[BLOCK * n..] + [0x80] + Zeros(63 - rest)
  {
    ZeroBytesIs(|msg|, n, rest);
    FirstOfTwo(msg, n, rest, tail);
  }

  lemma FirstOfTwo(msg: seq<byte>, n: nat, rest: nat, tail: seq<byte>)
    requires |msg| == BLOCK * n + rest && 56 <= rest < BLOCK && |tail| == 8
    ensures var d := msg + ([0x80] + Zeros(119 - rest) + tail);
      |d| == BLOCK * (n + 2) && d[BLOCK * n..BLOCK * (n + 1)] == msg[BLOCK * n..] + [0x80] + Zeros(63 - rest)
  {
  }

  lemma LastBlock(msg: seq<byte>, n: nat, rest: nat, tail: seq<byte>)
    requires |msg| == BLOCK * n + rest && rest < BLOCK && |tail| == 8
    ensures var d := msg + PaddedBy(|msg|, tail); var k := if rest < 56 then n else n + 1;
      && |d| == BLOCK * (k + 1)
      && d[BLOCK * k..BLOCK * (k + 1)]
         == (if rest < 56 then msg[BLOCK * n..] + [0x80] + Zeros(55 - rest) else Zeros(56)) + tail
  {
    ZeroBytesIs(|msg|, n, rest);
    if rest < 56 {
      OnlyBlock(msg, n, rest, tail);
    } else {
      SecondOfTwo(msg, n, rest, tail);
    }
  }

  lemma OnlyBlock(msg: seq<byte>, n: nat, rest: nat, tail: seq<byte>)
    requires |msg| == BLOCK * n + rest && rest < 56 && |tail| == 8
    ensures var d := msg + ([0x80] + Zeros(55 - rest) + tail);
      |d| == BLOCK * (n + 1) && d[BLOCK * n..BLOCK * (n + 1)] == msg[BLOCK * n..] + [0x80] + Zeros(55 - rest) + tail
  {
  }

  lemma SecondOfTwo(msg: seq<byte>, n: nat, rest: nat, tail: seq<byte>)
    requires |msg| == BLOCK * n + rest && 56 <= rest < BLOCK && |tail| == 8
    ensures var d := msg + ([0x80] + Zeros(119 - rest) + tail);
      |d| == BLOCK * (n + 2) && d[BLOCK * (n + 1)..BLOCK * (n + 2)] == Zeros(56) + tail
  {
  }

  lemma ClosedIs(f: Compression, msg: seq<byte>, d: seq<byte>, k: nat)
    requires d == msg + Padding(|msg|) && |d| == BLOCK * (k + 1)
    ensures Closed(f, msg) == f(Chain(f, d, k), d[BLOCK * k..BLOCK * (k + 1)])
  {
    assert |d| / BLOCK == k + 1;
  }

  // ---------- the hash of a message ----------

  function Concat(parts: seq<seq<byte>>): seq<byte> {
    if parts == [] then [] else Concat(parts[..|parts| - 1]) + parts[|parts| - 1]
  }

  lemma {:induction false} ConcatGrows(parts: seq<seq<byte>>, i: nat)
    requires i < |parts|
    ensures |Concat(parts[..i])| + |parts[i]| <= |Concat(parts)|
    ensures Concat(parts[..i + 1]) == Concat(parts[..i]) + parts[i]
  {
    assert parts[..i + 1][..i] == parts[..i];
    if i + 1 < |parts| {
      var front := parts[..|parts| - 1];
      ConcatGrows(front, i);
      assert front[..i] == parts[..i];
    } else {
      assert parts[..i + 1] == parts;
    }
  }

  /** Any message of less than 2^64 bits, however it is cut into updates. */
  method Stream(parts: seq<seq<byte>>) returns (digest: seq<byte>)
    requires 8 * |Concat(parts)| < 0x1_0000_0000_0000_0000
    ensures digest == Hash(Concat(parts))
  {
    var c := new Sha1Context();
    for i := 0 to |parts|
      invariant c.Live() && c.msg == Concat(parts[..i])
    {
      ConcatGrows(parts, i);
      c.Update(parts[i]);
    }
    assert parts[..|parts|] == parts;
    FaithfulHash(c.f, Concat(parts));
    digest := c.Final();
  }
}
