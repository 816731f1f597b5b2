/**
 Streaming BLAKE2s against the one-shot computation of section 3.3 of RFC 7693.
 */
module Blake2s {
  import opened Common
  import opened Blake2sMixing

  type Byte = bv8

  const BLOCK: nat := 64

  /** Section 2.6: the initialization vector. */
  const IV: seq<Word> := [
    0x6A09E667, 0xBB67AE85, 0x3C6EF372, 0xA54FF53A, 0x510E527F, 0x9B05688C, 0x1F83D9AB, 0x5BE0CD19]

  // ---------- words and bytes ----------

  /** Four bytes as a word, low byte first. */
  function Joined32(a: Byte, b: Byte, c: Byte, d: Byte): Word {
    (a as bv32) | ((b as bv32) << 8) | ((c as bv32) << 16) | ((d as bv32) << 24)
  }

  function Load32(s: seq<Byte>, i: nat): Word
    requires i + 4 <= |s|
  {
    Joined32(s[i], s[i + 1], s[i + 2], s[i + 3])
  }

  function Store32(w: Word): (s: seq<Byte>)
    ensures |s| == 4
  {
    [(w & 0xff) as bv8, ((w >> 8) & 0xff) as bv8, ((w >> 16) & 0xff) as bv8, ((w >> 24) & 0xff) as bv8]
  }

  lemma StoredIsLoaded(w: Word)
    ensures Load32(Store32(w), 0) == w
  {
  }

  function LittleEndian(h: seq<Word>): (s: seq<Byte>)
    ensures |s| == 4 * |h|
  {
    if h == [] then [] else LittleEndian(h[..|h| - 1]) + Store32(h[|h| - 1])
  }

  function Zeros(n: nat): (s: seq<Byte>)
    ensures |s| == n
  {
    seq(n, _ => 0)
  }

  /** The sixteen words of a block. */
  function Words(block: seq<Byte>): (m: seq<Word>)
    requires |block| == BLOCK
    ensures |m| == 16
  {
    seq(16, i requires 0 <= i < 16 => Load32(block, 4 * i))
  }

  // ---------- section 3.2: the compression function ----------

  /** A 32-bit counter word as a number. */
  type Count = x: int | 0 <= x < 0x1_0000_0000

  function Low(t: nat): Count { t % 0x1_0000_0000 }

  function High(t: nat): Count { t / 0x1_0000_0000 % 0x1_0000_0000 }

  function Flag(last: bool): Word { if last then 0xFFFF_FFFF else 0 }

  function WorkVector(h: seq<Word>, t0: Count, t1: Count, f0: Word, f1: Word): (v: seq<Word>)
    requires |h| == 8
    ensures |v| == 16
  {
    h + IV[..4] + Tail(t0, t1, f0, f1)
  }

  /** The counter words and the flags, over the second half of the initialization vector. */
  function Tail(t0: Count, t1: Count, f0: Word, f1: Word): (s: seq<Word>)
    ensures |s| == 4
  {
    [Xor(t0 as bv32, IV[4]), Xor(t1 as bv32, IV[5]), Xor(f0, IV[6]), Xor(f1, IV[7])]
  }

  function Fold(h: seq<Word>, v: seq<Word>): (r: seq<Word>)
    requires |h| == 8 && |v| == 16
    ensures |r| == 8
  {
    seq(8, i requires 0 <= i < 8 => Xor(Xor(h[i], v[i]), v[i + 8]))
  }

  type State = h: seq<Word> | |h| == 8 witness seq(8, _ => 0)

  type Block = b: seq<Byte> | |b| == BLOCK witness seq(BLOCK, _ => 0)

  function F(h: State, block: Block, t: nat, last: bool): State {
    Fold(h, Mixed(Mixing(Words(block)), WorkVector(h, Low(t), High(t), Flag(last), 0), |SIGMA|, 0))
  }

  // ---------- section 3.3: the hash of a message ----------

  /** A compression function: chaining value, block, bytes so far, and whether it is the last block. */
  type Compression = (State, Block, nat, bool) -> State

  /** The chaining value after the first `n` blocks, none of them the last. */
  function Chain(f: Compression, h: State, data: seq<Byte>, n: nat): State
    requires BLOCK * n <= |data|
  {
    if n == 0 then h else f(Chain(f, h, data, n - 1), data[BLOCK * (n - 1)..BLOCK * n], BLOCK * n, false)
  }

  /** The number of blocks before the last. The last block may be full; it is empty only when there is no data. */
  function Before(len: nat): nat {
    if len == 0 then 0 else (len - 1) / BLOCK
  }

  function Closed(f: Compression, h: State, data: seq<Byte>): State {
    var n := Before(|data|);
    var rest := data[BLOCK * n..];
    f(Chain(f, h, data, n), rest + Zeros(BLOCK - |rest|), |data|, true)
  }

  /** `0x0101kknn`. */
  function ParamWord(nn: nat, kk: nat): Word
    requires nn <= 32 && kk <= 32
  {
    0x0101_0000 ^ (((kk as bv8) as bv32) << 8) ^ ((nn as bv8) as bv32)
  }

  function Start(nn: nat, kk: nat): State
    requires nn <= 32 && kk <= 32
  {
    IV[0 := Xor(IV[0], ParamWord(nn, kk))]
  }

  /** A key, if there is one, is a block of its own before the message. */
  function KeyBlock(key: seq<Byte>): seq<Byte>
    requires |key| <= 32
  {
    if key == [] then [] else key + Zeros(BLOCK - |key|)
  }

  /** BLAKE2s of a message, as section 3.3 computes it. */
  function Hash(nn: nat, key: seq<Byte>, msg: seq<Byte>): (digest: seq<Byte>)
    requires nn <= 32 && |key| <= 32
    ensures |digest| == nn
  {
    LittleEndian(Closed(F, Start(nn, |key|), KeyBlock(key) + msg))[..nn]
  }

  // ---------- facts about chaining ----------

  lemma {:induction false} ChainPrefix(f: Compression, h: State, d: seq<Byte>, x: seq<Byte>, n: nat)
    requires BLOCK * n <= |d|
    ensures Chain(f, h, d + x, n) == Chain(f, h, d, n)
  {
    if n > 0 {
      ChainPrefix(f, h, d, x, n - 1);
      assert (d + x)[BLOCK * (n - 1)..BLOCK * n] == d[BLOCK * (n - 1)..BLOCK * n];
    }
  }

  /** The two counter words carry. */
  lemma CounterStep(t: nat, inc: Count)
    ensures Low(t + inc) == (Low(t) + inc) % 0x1_0000_0000
    ensures High(t + inc) == (High(t) + if Low(t + inc) < inc then 1 else 0) % 0x1_0000_0000
  {
    var b := 0x1_0000_0000;
    var q, r := t / b, t % b;
    assert t + inc == q * b + (r + inc);
    if r + inc < b {
      assert (t + inc) / b == q && (t + inc) % b == r + inc;
    } else {
      assert (t + inc) / b == q + 1 && (t + inc) % b == r + inc - b;
      Carry(q);
    }
  }

  lemma Carry(q: nat)
    ensures (q + 1) % 0x1_0000_0000 == (q % 0x1_0000_0000 + 1) % 0x1_0000_0000
  {
  }

  /** Below 2^64 the two words are the byte count itself. */
  lemma CounterExact(t: nat)
    requires t < 0x1_0000_0000_0000_0000
    ensures High(t) * 0x1_0000_0000 + Low(t) == t
  {
  }

  lemma XorZero(w: Word)
    ensures Xor(0, w) == w && Xor(w, 0) == w
  {
  }

  lemma ParamLoaded(nn: Byte, kk: Byte)
    ensures Load32([nn, kk, 1, 1], 0) == 0x0101_0000 ^ ((kk as bv32) << 8) ^ (nn as bv32)
  {
  }

  ghost predicate Faithful(f: Compression) {
    forall h: State, b: Block, t: nat, last: bool {:trigger F(h, b, t, last)} :: f(h, b, t, last) == F(h, b, t, last)
  }

  lemma {:induction false} ChainAgrees(f: Compression, g: Compression, h: State, d: seq<Byte>, n: nat)
    requires BLOCK * n <= |d| && forall h: State, b: Block, t: nat, last: bool :: f(h, b, t, last) == g(h, b, t, last)
    ensures Chain(f, h, d, n) == Chain(g, h, d, n)
  {
    if n > 0 {
      ChainAgrees(f, g, h, d, n - 1);
    }
  }

  lemma ClosedAgrees(f: Compression, g: Compression, h: State, d: seq<Byte>)
    requires forall h: State, b: Block, t: nat, last: bool :: f(h, b, t, last) == g(h, b, t, last)
    ensures Closed(f, h, d) == Closed(g, h, d)
  {
    ChainAgrees(f, g, h, d, Before(|d|));
  }

  lemma FaithfulHash(f: Compression, nn: nat, key: seq<Byte>, msg: seq<Byte>)
    requires Faithful(f) && nn <= 32 && |key| <= 32
    ensures LittleEndian(Closed(f, Start(nn, |key|), KeyBlock(key) + msg))[..nn] == Hash(nn, key, msg)
  {
    forall h: State, b: Block, t: nat, last: bool
      ensures f(h, b, t, last) == F(h, b, t, last)
    {
    }
    ClosedAgrees(f, F, Start(nn, |key|), KeyBlock(key) + msg);
  }

  // ---------- the streaming state ----------

  class Blake2sState {
    const h: array<Word>
    const buf: array<Byte>
    /** The compression function, under a name that keeps its definition out of the streaming proofs. */
    ghost const f: Compression
    var t0: Count
    var t1: Count
    var f0: Word
    var f1: Word
    var buflen: nat
    var outlen: nat
    /** The chaining value the hash began with, all the bytes absorbed since, and the blocks compressed. */
    ghost var start: State
    ghost var data: seq<Byte>
    ghost var n: nat

    ghost predicate Shape()
      reads this
    {
      h.Length == 8 && buf.Length == BLOCK && buflen <= BLOCK && Faithful(f)
    }

    /** `n` blocks of the data have been compressed, as not last, and the counter says so. */
    ghost predicate Chained(d: seq<Byte>, k: nat)
      requires Shape()
      reads this, h
    {
      BLOCK * k <= |d| && h[..] == Chain(f, start, d, k) && t0 == Low(BLOCK * k) && t1 == High(BLOCK * k)
    }

    /** What the buffer holds back: everything else, and never nothing once there is data. */
    ghost predicate Live()
      reads this, h, buf
    {
      && Shape() && f0 == 0 && f1 == 0 && 0 < outlen <= 32
      && Chained(data, n) && |data| == BLOCK * n + buflen && (n > 0 ==> buflen > 0)
      && buf[..buflen] == data[BLOCK * n..]
    }

    constructor ()
      ensures Shape() && fresh(h) && fresh(buf)
    {
      f := F;
      h := new Word[8];
      buf := new Byte[64];
      buflen := 0;
    }

    method IncrementCounter(inc: Count)
      requires Shape()
      modifies `t0, `t1
      ensures forall t: nat :: old(t0) == Low(t) && old(t1) == High(t) ==> t0 == Low(t + inc) && t1 == High(t + inc)
    {
      ghost var u0, u1 := t0, t1;
      t0 := (t0 + inc) % 0x1_0000_0000;
      t1 := (t1 + if t0 < inc then 1 else 0) % 0x1_0000_0000;
      forall t: nat | u0 == Low(t) && u1 == High(t)
        ensures t0 == Low(t + inc) && t1 == High(t + inc)
      {
        CounterStep(t, inc);
      }
    }

    /** The work vector of the compression. */
    method SetUp() returns (v: array<Word>)
      requires Shape()
      ensures fresh(v) && v.Length == 16 && v[..] == WorkVector(h[..], t0, t1, f0, f1)
    {
      v := new Word[16];
      for i := 0 to 8
        invariant forall k :: 0 <= k < i ==> v[k] == h[k]
      {
        v[i] := h[i];
      }
      v[8], v[9], v[10], v[11] := IV[0], IV[1], IV[2], IV[3];
      assert v[..12] == h[..] + IV[..4];
      PutTail(v, Tail(t0, t1, f0, f1));
    }

    static method PutTail(v: array<Word>, tail: seq<Word>)
      requires v.Length == 16 && |tail| == 4
      modifies v
      ensures v[..] == old(v[..12]) + tail
    {
      v[12], v[13], v[14], v[15] := tail[0], tail[1], tail[2], tail[3];
    }

    method FoldIn(v: array<Word>)
      requires Shape() && v.Length == 16 && v != h
      modifies h
      ensures h[..] == Fold(old(h[..]), v[..])
    {
      ghost var h0, w := h[..], v[..];
      for i := 0 to 8
        invariant forall k :: 0 <= k < i ==> h[k] == Fold(h0, w)[k]
        invariant forall k :: i <= k < 8 ==> h[k] == h0[k]
        invariant v[..] == w
      {
        h[i] := Xor(Xor(h[i], v[i]), v[i + 8]);
      }
    }

    method Compress(block: seq<Byte>, ghost t: nat, ghost last: bool)
      requires Shape() && |block| == BLOCK && t0 == Low(t) && t1 == High(t) && f0 == Flag(last) && f1 == 0
      modifies h
      ensures h[..] == f(old(h[..]), block, t, last)
    {
      ghost var h0: State := h[..];
      var m := Words(block);
      var v := SetUp();
      TenRounds(v, m);
      FoldIn(v);
      assert h[..] == F(h0, block, t, last);
    }

    /** The counters are cleared, and the chaining value is the constant one. */
    method Init0()
      requires Shape()
      modifies `t0, `t1, `f0, `f1, `buflen, h
      ensures Shape() && t0 == 0 && t1 == 0 && f0 == 0 && f1 == 0 && buflen == 0
      ensures forall k: nat :: k < 8 ==> h[k] == IV[k]
    {
      t0, t1, f0, f1, buflen := 0, 0, 0, 0, 0;
      for i := 0 to 8
        invariant forall k: nat :: k < i ==> h[k] == IV[k]
        modifies h
      {
        h[i] := IV[i];
      }
    }

    /** `P` is the parameter block, 32 bytes. */
    method InitParam(p: seq<Byte>)
      requires Shape() && |p| == 32
      modifies `t0, `t1, `f0, `f1, `buflen, `outlen, h
      ensures Shape() && t0 == 0 && t1 == 0 && f0 == 0 && f1 == 0 && buflen == 0 && outlen == p[0] as nat
      ensures forall i: nat :: i < 8 ==> h[i] == Xor(IV[i], Load32(p, 4 * i))
    {
      Init0();
      for i := 0 to 8
        invariant forall k: nat :: k < i ==> h[k] == Xor(IV[k], Load32(p, 4 * k))
        invariant forall k: nat :: i <= k < 8 ==> h[k] == IV[k]
        modifies h
      {
        h[i] := Xor(h[i], Load32(p, 4 * i));
      }
      outlen := p[0] as nat;
    }

    /** Nothing has been absorbed yet. */
    ghost method Open(s0: State)
      requires Shape() && t0 == 0 && t1 == 0 && f0 == 0 && f1 == 0 && buflen == 0 && 0 < outlen <= 32 && h[..] == s0
      modifies `data, `n, `start
      ensures Live() && data == [] && start == s0
    {
      data, n, start := [], 0, s0;
    }

    /** From the parameter block to an empty stream. */
    method Begin(nn: nat, kk: nat)
      requires Shape() && 0 < nn <= 32 && kk <= 32
      modifies this, h
      ensures Live() && data == [] && start == Start(nn, kk) && outlen == nn
    {
      var p := ParamBlock(nn, kk);
      InitParam(p);
      StartLoaded(h[..], p, nn, kk);
      Open(Start(nn, kk));
    }

    method Init(outlen: nat) returns (ok: bool)
      requires Shape()
      modifies this, h
      ensures ok <==> 0 < outlen <= 32
      ensures ok ==> Live() && data == [] && start == Start(outlen, 0) && this.outlen == outlen
      ensures !ok ==> Shape()
    {
      if outlen == 0 || outlen > 32 {
        return false;
      }
      Begin(outlen, 0);
      return true;
    }

    method InitKey(outlen: nat, key: Option<seq<Byte>>, keylen: nat) returns (ok: bool)
      requires Shape() && (key.Some? ==> keylen <= |key.value|)
      modifies this, h, buf
      ensures ok <==> 0 < outlen <= 32 && key.Some? && 0 < keylen <= 32
      ensures ok ==> Live() && start == Start(outlen, keylen) && this.outlen == outlen
      ensures ok ==> data == key.value[..keylen] + Zeros(BLOCK - keylen)
      ensures !ok ==> Shape()
    {
      if outlen == 0 || outlen > 32 {
        return false;
      }
      if key.None? || keylen == 0 || keylen > 32 {
        return false;
      }
      Begin(outlen, keylen);
      var block := key.value[..keylen] + Zeros(BLOCK - keylen);
      Update(block);
      assert [] + block == block;
      return true;
    }

    /** A block is counted and compressed. */
    method TakeBlock(block: seq<Byte>, ghost d: seq<Byte>, ghost k: nat)
      requires Shape() && f0 == 0 && f1 == 0 && Chained(d, k) && BLOCK * (k + 1) <= |d|
      requires block == d[BLOCK * k..BLOCK * (k + 1)]
      modifies `t0, `t1, h
      ensures Chained(d, k + 1)
    {
      IncrementCounter(64);
      Compress(block, BLOCK * (k + 1), false);
    }

    /** The buffer is filled up and taken as a block. */
    method TakeBuffer(input: seq<Byte>, fill: nat, ghost d: seq<Byte>)
      requires Live() && fill == BLOCK - buflen && fill < |input| && d == data + input
      modifies `t0, `t1, `buflen, h, buf
      ensures Shape() && Chained(d, n + 1) && buflen == 0
    {
      var left := buflen;
      buflen := 0;
      FillBuffer(left, input[..fill]);
      FirstPiece(data, input, n, left, fill);
      ChainPrefix(f, start, data, input, n);
      TakeBlock(buf[..], d, n);
    }

    /** The loop over whole blocks, as long as more would be left. */
    method TakeBlocks(input: seq<Byte>, from: nat, ghost d: seq<Byte>, ghost d0: seq<Byte>, ghost k0: nat)
      returns (pos: nat, ghost k: nat)
      requires Shape() && f0 == 0 && f1 == 0 && Chained(d, k0)
      requires from < |input| && d == d0 + input && |d0| + from == BLOCK * k0
      modifies `t0, `t1, h
      ensures from <= pos < |input| <= pos + BLOCK && |d0| + pos == BLOCK * k && k >= k0 && Shape() && Chained(d, k)
    {
      pos, k := from, k0;
      while |input| - pos > BLOCK
        invariant from <= pos < |input| && |d0| + pos == BLOCK * k && k >= k0 && Shape() && Chained(d, k)
      {
        Piece(d0, input, k, pos);
        TakeBlock(input[pos..pos + BLOCK], d, k);
        pos, k := pos + BLOCK, k + 1;
      }
    }

    method Update(input: seq<Byte>)
      requires Live()
      modifies `t0, `t1, `buflen, `data, `n, h, buf
      ensures Live() && data == old(data) + input
    {
      if |input| > 0 {
        var pos := 0;
        var fill := BLOCK - buflen;
        ghost var d := data + input;
        ghost var k, taken := n, |input| > fill;
        if |input| > fill {
          TakeBuffer(input, fill, d);
          pos, k := TakeBlocks(input, fill, d, data, n + 1);
        }
        Hold(input, pos, d, k, taken);
      } else {
        assert data + input == data;
      }
    }

    /** What is left of the input is held back in the buffer. */
    method Hold(input: seq<Byte>, pos: nat, ghost d: seq<Byte>, ghost k: nat, ghost taken: bool)
      requires Shape() && f0 == 0 && f1 == 0 && 0 < outlen <= 32 && d == data + input
      requires !taken ==> Live() && k == n && pos == 0
      requires taken ==> Chained(d, k) && buflen == 0 && |data| + pos == BLOCK * k
      requires pos < |input| <= pos + BLOCK - buflen
      modifies `buflen, `data, `n, buf
      ensures Live() && data == d
    {
      if !taken {
        ChainPrefix(f, start, data, input, n);
      }
      LastPiece(data, input, k, pos, buflen);
      FillBuffer(buflen, input[pos..]);
      buflen := buflen + (|input| - pos);
      data, n := d, k;
    }

    /** `memcpy(S->buf + at, bytes, ...)`. */
    method FillBuffer(at: nat, bytes: seq<Byte>)
      requires Shape() && at + |bytes| <= BLOCK
      modifies buf
      ensures buf[..] == old(buf[..at]) + bytes + old(buf[at + |bytes|..])
    {
      ghost var b := buf[..];
      for i := 0 to |bytes|
        invariant forall k: nat :: k < at ==> buf[k] == b[k]
        invariant forall k: nat :: at <= k < at + i ==> buf[k] == bytes[k - at]
        invariant forall k: nat :: at + i <= k < BLOCK ==> buf[k] == b[k]
      {
        buf[at + i] := bytes[i];
      }
    }

    /** Writes `size` bytes of the digest. More than its 32 bytes must not be asked for, unless it fails anyway. */
    method Final(out: array?<Byte>, size: nat) returns (ok: bool)
      requires Shape() && (f0 == 0 ==> Live())
      requires out != null ==> size <= out.Length && out != buf && out as object != h
      requires size > 32 ==> out == null || f0 != 0
      modifies this, h, buf, out
      ensures Shape() && outlen == old(outlen)
      ensures ok <==> out != null && old(outlen) <= size && old(f0) == 0
      ensures ok ==> f0 != 0 && Delivered(old(start), old(data), old(out[..]), out[..], size)
      ensures !ok ==> f0 == old(f0) && (out != null ==> out[..] == old(out[..]))
    {
      if out == null || size < outlen {
        return false;
      }
      if f0 != 0 {
        return false;
      }
      CloseInto(out, size);
      return true;
    }

    /** The front of what was there is now the digest of the data; the rest is as it was. */
    ghost predicate Delivered(start: State, data: seq<Byte>, before: seq<Byte>, after: seq<Byte>, size: nat) {
      size <= 32 && size <= |before| && after == LittleEndian(Closed(f, start, data))[..size] + before[size..]
    }

    method CloseInto(out: array<Byte>, size: nat)
      requires Live() && size <= 32 && size <= out.Length && out != buf && out as object != h
      modifies `t0, `t1, `f0, h, buf, out
      ensures Shape() && f0 != 0 && Delivered(start, data, old(out[..]), out[..], size)
    {
      Close();
      var buffer := Output();
      Deliver(out, buffer[..size]);
    }

    /** The last block is filled up with zeros and compressed as the last. */
    method Close()
      requires Live()
      modifies `t0, `t1, `f0, h, buf
      ensures f0 != 0 && h[..] == Closed(f, start, data)
    {
      IncrementCounter(buflen);
      f0 := 0xFFFF_FFFF;
      FillBuffer(buflen, Zeros(BLOCK - buflen));
      LastBlock(|data|, n, buflen);
      assert buf[..] == data[BLOCK * n..] + Zeros(BLOCK - buflen);
      Compress(buf[..], |data|, true);
    }

    method Output() returns (buffer: seq<Byte>)
      requires Shape()
      ensures buffer == LittleEndian(h[..])
    {
      buffer := [];
      for i := 0 to 8
        invariant buffer == LittleEndian(h[..i])
      {
        assert h[..i + 1][..i] == h[..i];
        buffer := buffer + Store32(h[i]);
      }
      assert h[..8] == h[..];
    }
  }

  /** The blocks before the last, counted by what the buffer holds back. */
  lemma LastBlock(len: nat, n: nat, rest: nat)
    requires len == BLOCK * n + rest && rest <= BLOCK && (n > 0 ==> rest > 0)
    ensures Before(len) == n
  {
  }

  /** Digest length, key length, fanout and depth; all else is zero. */
  function ParamBlock(nn: nat, kk: nat): (p: seq<Byte>)
    requires nn <= 32 && kk <= 32
    ensures |p| == 32 && p[0] as nat == nn
  {
    [nn as bv8, kk as bv8, 1, 1] + Zeros(28)
  }

  lemma StartLoaded(h: State, p: seq<Byte>, nn: nat, kk: nat)
    requires nn <= 32 && kk <= 32 && p == ParamBlock(nn, kk)
    requires forall i: nat :: i < 8 ==> h[i] == Xor(IV[i], Load32(p, 4 * i))
    ensures h == Start(nn, kk)
  {
    ParamLoaded(nn as bv8, kk as bv8);
    SamePrefix(p, nn as bv8, kk as bv8);
    forall i: nat | 0 < i < 8
      ensures h[i] == Start(nn, kk)[i]
    {
      ZerosLoaded(p, 4 * i);
      XorZero(IV[i]);
    }
  }

  lemma SamePrefix(p: seq<Byte>, nn: Byte, kk: Byte)
    requires |p| >= 4 && p[..4] == [nn, kk, 1, 1]
    ensures Load32(p, 0) == Load32([nn, kk, 1, 1], 0)
  {
    assert p[0] == p[..4][0] && p[1] == p[..4][1] && p[2] == p[..4][2] && p[3] == p[..4][3];
  }

  lemma FirstPiece(data: seq<Byte>, input: seq<Byte>, n: nat, left: nat, fill: nat)
    requires |data| == BLOCK * n + left && left + fill == BLOCK && fill <= |input|
    ensures (data + input)[BLOCK * n..BLOCK * (n + 1)] == data[BLOCK * n..] + input[..fill]
  {
  }

  lemma Piece(data: seq<Byte>, input: seq<Byte>, k: nat, pos: nat)
    requires |data| + pos == BLOCK * k && pos + BLOCK <= |input|
    ensures (data + input)[BLOCK * k..BLOCK * (k + 1)] == input[pos..pos + BLOCK]
  {
  }

  lemma LastPiece(data: seq<Byte>, input: seq<Byte>, k: nat, pos: nat, left: nat)
    requires |data| + pos == BLOCK * k + left && pos <= |input| && (pos == 0 || left == 0)
    ensures (data + input)[BLOCK * k..] == (if pos == 0 then data[BLOCK * k..] else []) + input[pos..]
  {
  }

  lemma ZerosLoaded(p: seq<Byte>, i: nat)
    requires i + 4 <= |p| && p[i] == 0 && p[i + 1] == 0 && p[i + 2] == 0 && p[i + 3] == 0
    ensures Load32(p, i) == 0
  {
  }

  /** The ten uses of the source's macro `ROUND`. */
  method TenRounds(v: array<Word>, m: seq<Word>)
    requires v.Length == 16 && |m| == 16
    modifies v
    ensures v[..] == Mixed(Mixing(m), old(v[..]), |SIGMA|, 0)
  {
    ghost var v0 := v[..];
    for r := 0 to 10
      invariant v[..] == Mixed(Mixing(m), v0, r, 0)
    {
      Columns(v, m, r, v0);
      Diagonals(v, m, r, v0);
    }
  }

  /** A stream that has absorbed the key, if there is one. */
  method Keyed(outlen: nat, key: seq<Byte>) returns (s: Blake2sState)
    requires 0 < outlen <= 32 && |key| <= 32
    ensures fresh(s) && fresh(s.h) && fresh(s.buf)
    ensures s.Live() && s.outlen == outlen && s.start == Start(outlen, |key|) && s.data == KeyBlock(key)
  {
    s := new Blake2sState();
    var ok;
    if |key| > 0 {
      ok := s.InitKey(outlen, Some(key), |key|);
      assert key[..|key|] == key;
    } else {
      ok := s.Init(outlen);
    }
  }

  method Finished(s: Blake2sState, ghost key: seq<Byte>, ghost msg: seq<Byte>) returns (digest: seq<Byte>)
    requires s.Live() && |key| <= 32 && s.start == Start(s.outlen, |key|) && s.data == KeyBlock(key) + msg
    modifies s, s.h, s.buf
    ensures s.Shape() && digest == Hash(old(s.outlen), key, msg)
  {
    FaithfulHash(s.f, s.outlen, key, msg);
    var out := new Byte[s.outlen];
    var ok := s.Final(out, s.outlen);
    digest := out[..];
  }

  /** What a pointer and a length say: no bytes when the length is zero, whatever the pointer. */
  function Pointed(p: Option<seq<Byte>>, len: nat): (s: seq<Byte>)
    requires len > 0 ==> p.Some? && len <= |p.value|
    ensures |s| == len
  {
    if len == 0 then [] else p.value[..len]
  }

  /** The one-shot hash: null pointers to be read are `None`. Nothing is written when it fails. */
  method OneShot(out: array?<Byte>, outlen: nat, input: Option<seq<Byte>>, inlen: nat, key: Option<seq<Byte>>,
                 keylen: nat)
    returns (ok: bool)
    requires (input.Some? ==> inlen <= |input.value|) && (key.Some? ==> keylen <= |key.value|)
    requires out != null ==> outlen <= out.Length
    modifies out
    ensures ok <==>
      && (input.Some? || inlen == 0) && out != null && (key.Some? || keylen == 0)
      && 0 < outlen <= 32 && keylen <= 32
    ensures ok ==> out[..] == Hash(outlen, Pointed(key, keylen), Pointed(input, inlen)) + old(out[outlen..])
    ensures !ok && out != null ==> out[..] == old(out[..])
  {
    if input.None? && inlen > 0 {
      return false;
    }
    if out == null {
      return false;
    }
    if key.None? && keylen > 0 {
      return false;
    }
    if outlen == 0 || outlen > 32 {
      return false;
    }
    if keylen > 32 {
      return false;
    }
    var s := Keyed(outlen, Pointed(key, keylen));
    s.Update(Pointed(input, inlen));
    FaithfulHash(s.f, outlen, Pointed(key, keylen), Pointed(input, inlen));
    ok := s.Final(out, outlen);
  }

  /** Writes a digest to the caller's buffer. */
  method Deliver(out: array<Byte>, digest: seq<Byte>)
    requires |digest| <= out.Length
    modifies out
    ensures out[..] == digest + old(out[|digest|..])
  {
    forall i | 0 <= i < |digest| {
      out[i] := digest[i];
    }
  }

  function Concat(parts: seq<seq<Byte>>): seq<Byte> {
    if parts == [] then [] else Concat(parts[..|parts| - 1]) + parts[|parts| - 1]
  }

  lemma ConcatNext(d: seq<Byte>, parts: seq<seq<Byte>>, i: nat)
    requires i < |parts|
    ensures d + Concat(parts[..i]) + parts[i] == d + Concat(parts[..i + 1])
  {
    assert parts[..i + 1][..i] == parts[..i];
  }

  /** Any message, however it is cut into updates: the digest is that of the whole message. */
  method Stream(outlen: nat, key: seq<Byte>, parts: seq<seq<Byte>>) returns (digest: seq<Byte>)
    requires 0 < outlen <= 32 && |key| <= 32
    ensures digest == Hash(outlen, key, Concat(parts))
  {
    var s := Keyed(outlen, key);
    ghost var d := s.data;
    for i := 0 to |parts|
      invariant s.Live() && s.outlen == outlen && s.start == Start(outlen, |key|) && s.data == d + Concat(parts[..i])
    {
      ConcatNext(d, parts, i);
      s.Update(parts[i]);
    }
    assert parts[..|parts|] == parts;
    digest := Finished(s, key, Concat(parts));
  }
}
