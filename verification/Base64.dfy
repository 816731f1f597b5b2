/**
 The index-driven Base64 encoder, against the grouping of section 4 of RFC 4648 and its decoding.
 */
module Base64 {
  import opened Common

  type Sextet = x: int | 0 <= x < 64

  // ---------- the alphabet ----------

  const UPPER: string := "ABCDEFGHIJKLMNOPQRSTUVWXYZ"
  const LOWER: string := "abcdefghijklmnopqrstuvwxyz"
  const DIGITS: string := "0123456789"
  const TABLE: string := UPPER + LOWER + DIGITS + "+/"

  const PAD: char := '='

  function CharOf(v: Sextet): char {
    TABLE[v]
  }

  /** The value of a character of the alphabet. */
  function ValueOf(c: char): Option<Sextet> {
    if 'A' <= c <= 'Z' then Some(c as int - 'A' as int)
    else if 'a' <= c <= 'z' then Some(c as int - 'a' as int + 26)
    else if '0' <= c <= '9' then Some(c as int - '0' as int + 52)
    else if c == '+' then Some(62)
    else if c == '/' then Some(63)
    else None
  }

  lemma Letters(v: nat)
    requires v < 26
    ensures |UPPER| == 26 && UPPER[v] as int == 'A' as int + v
    ensures |LOWER| == 26 && LOWER[v] as int == 'a' as int + v
  {
  }

  lemma Digits(v: nat)
    requires v < 10
    ensures |DIGITS| == 10 && DIGITS[v] as int == '0' as int + v
  {
  }

  lemma TableIsAlphabet(v: Sextet)
    ensures ValueOf(CharOf(v)) == Some(v)
  {
    if v < 26 {
      Letters(v);
      assert CharOf(v) == UPPER[v];
    } else if v < 52 {
      Letters(v - 26);
      assert CharOf(v) == LOWER[v - 26];
    } else if v < 62 {
      Letters(0);
      Digits(v - 52);
      assert CharOf(v) == DIGITS[v - 52];
    } else {
      Letters(0);
      Digits(0);
    }
  }

  /** An encoding alphabet, under a name that keeps the table out of the proofs about grouping. */
  type Alphabet = Sextet -> char

  ghost predicate Proper(en: Alphabet) {
    forall v: Sextet :: ValueOf(en(v)) == Some(v)
  }

  // ---------- RFC 4648: groups of three bytes, four characters each ----------

  function First(x: byte): Sextet { x / 4 }

  function Second(x: byte, y: byte): Sextet { x % 4 * 16 + y / 16 }

  function Third(y: byte, z: byte): Sextet { y % 16 * 4 + z / 64 }

  function Fourth(z: byte): Sextet { z % 64 }

  datatype Chars = Chars(a: char, b: char, c: char, d: char)

  function Quad(en: Alphabet, x: byte, y: byte, z: byte): Chars {
    Chars(en(First(x)), en(Second(x, y)), en(Third(y, z)), en(Fourth(z)))
  }

  /** The one or two bytes that are left over, as if zeros followed; padding for what was not there. */
  function Padded(en: Alphabet, rest: seq<byte>): Chars
    requires 0 < |rest| < 3
  {
    if |rest| == 1 then Chars(en(First(rest[0])), en(Second(rest[0], 0)), PAD, PAD)
    else Chars(en(First(rest[0])), en(Second(rest[0], rest[1])), en(Third(rest[1], 0)), PAD)
  }

  function Text(q: Chars): string { [q.a, q.b, q.c, q.d] }

  type GroupEncoder = (byte, byte, byte) -> Chars

  /** The encoding of one or two bytes. */
  type RestEncoder = seq<byte> -> Chars

  function PadOf(en: Alphabet): RestEncoder {
    (rest: seq<byte>) => if 0 < |rest| < 3 then Padded(en, rest) else Chars(PAD, PAD, PAD, PAD)
  }

  function GroupOf(en: Alphabet): GroupEncoder {
    (x: byte, y: byte, z: byte) => Quad(en, x, y, z)
  }

  /** The first `k` whole groups. */
  function Groups(group: GroupEncoder, input: seq<byte>, k: nat): (s: string)
    requires 3 * k <= |input|
    ensures |s| == 4 * k
  {
    if k == 0 then []
    else Groups(group, input, k - 1) + Text(group(input[3 * k - 3], input[3 * k - 2], input[3 * k - 1]))
  }

  /** `k` whole groups and what is left. */
  function Encoded(en: Alphabet, input: seq<byte>, k: nat): (s: string)
    requires 3 * k <= |input| < 3 * k + 3
  {
    EncodedBy(GroupOf(en), PadOf(en), input, k)
  }

  function EncodedBy(group: GroupEncoder, pad: RestEncoder, input: seq<byte>, k: nat): (s: string)
    requires 3 * k <= |input| < 3 * k + 3
  {
    Groups(group, input, k) + if |input| == 3 * k then [] else Text(pad(input[3 * k..]))
  }

  function Encode(input: seq<byte>): string {
    Encoded(CharOf, input, |input| / 3)
  }

  function ByteA(a: Sextet, b: Sextet): byte { a * 4 + b / 16 }

  function ByteB(b: Sextet, c: Sextet): byte { b % 16 * 16 + c / 4 }

  function ByteC(c: Sextet, d: Sextet): byte { c % 4 * 64 + d }

  /** Four characters back to bytes; padding only as the last one or two, its spare bits zero. */
  function DecodeQuad(q: Chars, last: bool): Option<seq<byte>> {
    if ValueOf(q.a).None? || ValueOf(q.b).None? then None
    else
      var w, x := ValueOf(q.a).value, ValueOf(q.b).value;
      if last && q.c == PAD && q.d == PAD then
        if x % 16 == 0 then Some([ByteA(w, x)]) else None
      else if ValueOf(q.c).None? then None
      else
        var y := ValueOf(q.c).value;
        if last && q.d == PAD then
          if y % 4 == 0 then Some([ByteA(w, x), ByteB(x, y)]) else None
        else if ValueOf(q.d).None? then None
        else Some([ByteA(w, x), ByteB(x, y), ByteC(y, ValueOf(q.d).value)])
  }

  type GroupDecoder = (Chars, bool) -> Option<seq<byte>>

  function DecodeGroups(de: GroupDecoder, s: string, k: nat): Option<seq<byte>>
    requires 4 * k <= |s|
  {
    if k == 0 then Some([])
    else
      var front := DecodeGroups(de, s, k - 1);
      var quad := de(Chars(s[4 * k - 4], s[4 * k - 3], s[4 * k - 2], s[4 * k - 1]), 4 * k == |s|);
      if front.Some? && quad.Some? then Some(front.value + quad.value) else None
  }

  function Decode(s: string): Option<seq<byte>> {
    if |s| % 4 == 0 then DecodeGroups(DecodeQuad, s, |s| / 4) else None
  }

  // ---------- round trip ----------

  lemma JoinA(x: byte, y: byte)
    ensures ByteA(First(x), Second(x, y)) == x && Second(x, 0) % 16 == 0
  {
  }

  lemma JoinB(x: byte, y: byte, z: byte)
    ensures ByteB(Second(x, y), Third(y, z)) == y && Third(y, 0) % 4 == 0
  {
  }

  lemma JoinC(y: byte, z: byte)
    ensures ByteC(Third(y, z), Fourth(z)) == z
  {
  }

  lemma QuadDecodes(en: Alphabet, x: byte, y: byte, z: byte, last: bool)
    requires Proper(en)
    ensures DecodeQuad(Quad(en, x, y, z), last) == Some([x, y, z])
  {
    JoinA(x, y);
    JoinB(x, y, z);
    JoinC(y, z);
    assert ValueOf(PAD) == None;
  }

  lemma OneByteDecodes(en: Alphabet, x: byte)
    requires Proper(en)
    ensures DecodeQuad(Padded(en, [x]), true) == Some([x])
  {
    JoinA(x, 0);
    assert Padded(en, [x]) == Chars(en(First(x)), en(Second(x, 0)), PAD, PAD);
  }

  lemma TwoBytesDecode(en: Alphabet, x: byte, y: byte)
    requires Proper(en)
    ensures DecodeQuad(Padded(en, [x, y]), true) == Some([x, y])
  {
    JoinA(x, y);
    JoinB(x, y, 0);
    assert ValueOf(PAD) == None;
    assert Padded(en, [x, y]) == Chars(en(First(x)), en(Second(x, y)), en(Third(y, 0)), PAD);
  }

  lemma PaddedDecodes(en: Alphabet, rest: seq<byte>)
    requires Proper(en) && 0 < |rest| < 3
    ensures DecodeQuad(Padded(en, rest), true) == Some(rest)
  {
    if |rest| == 1 {
      assert rest == [rest[0]];
      OneByteDecodes(en, rest[0]);
    } else {
      assert rest == [rest[0], rest[1]];
      TwoBytesDecode(en, rest[0], rest[1]);
    }
  }

  lemma LastFour(s: string, n: nat, front: string, q: Chars)
    requires n + 4 <= |s| && |front| == n && s[..n + 4] == front + Text(q)
    ensures Chars(s[n], s[n + 1], s[n + 2], s[n + 3]) == q && s[..n] == front
  {
    var t := s[..n + 4];
    assert t[n] == q.a && t[n + 1] == q.b && t[n + 2] == q.c && t[n + 3] == q.d;
    assert s[..n] == t[..n];
  }

  lemma {:induction false} GroupsDecode(group: GroupEncoder, de: GroupDecoder, input: seq<byte>, s: string, k: nat)
    requires forall x: byte, y: byte, z: byte, last: bool :: de(group(x, y, z), last) == Some([x, y, z])
    requires 3 * k <= |input| && 4 * k <= |s| && s[..4 * k] == Groups(group, input, k)
    ensures DecodeGroups(de, s, k) == Some(input[..3 * k])
  {
    if k > 0 {
      var x, y, z := input[3 * k - 3], input[3 * k - 2], input[3 * k - 1];
      LastFour(s, 4 * k - 4, Groups(group, input, k - 1), group(x, y, z));
      GroupsDecode(group, de, input, s, k - 1);
      assert input[..3 * k - 3] + [x, y, z] == input[..3 * k];
    }
  }

  lemma OneMoreDecodes(de: GroupDecoder, s: string, k: nat, front: seq<byte>, q: Chars, rest: seq<byte>)
    requires |s| == 4 * k + 4 && DecodeGroups(de, s, k) == Some(front)
    requires Chars(s[4 * k], s[4 * k + 1], s[4 * k + 2], s[4 * k + 3]) == q && de(q, true) == Some(rest)
    ensures DecodeGroups(de, s, k + 1) == Some(front + rest)
  {
    assert 4 * (k + 1) == |s|;
  }

  /** A decoder of groups that undoes whole and padded groups. */
  ghost predicate Undoes(de: GroupDecoder, group: GroupEncoder, pad: RestEncoder) {
    && (forall x: byte, y: byte, z: byte, last: bool :: de(group(x, y, z), last) == Some([x, y, z]))
    && (forall rest: seq<byte> :: 0 < |rest| < 3 ==> de(pad(rest), true) == Some(rest))
  }

  lemma DecodeQuadUndoes(en: Alphabet)
    requires Proper(en)
    ensures Undoes(DecodeQuad, GroupOf(en), PadOf(en))
  {
    forall x: byte, y: byte, z: byte, last: bool
      ensures DecodeQuad(GroupOf(en)(x, y, z), last) == Some([x, y, z])
    {
      QuadDecodes(en, x, y, z, last);
    }
    forall rest: seq<byte> | 0 < |rest| < 3
      ensures DecodeQuad(PadOf(en)(rest), true) == Some(rest)
    {
      PaddedDecodes(en, rest);
    }
  }

  lemma PartDecodes(de: GroupDecoder, q: Chars, rest: seq<byte>, s: string, k: nat, whole: string, front: seq<byte>)
    requires de(q, true) == Some(rest) && |whole| == 4 * k && s == whole + Text(q)
    requires DecodeGroups(de, s, k) == Some(front)
    ensures DecodeGroups(de, s, k + 1) == Some(front + rest)
  {
    assert s[..4 * k + 4] == s;
    LastFour(s, 4 * k, whole, q);
    OneMoreDecodes(de, s, k, front, q, rest);
  }

  lemma EncodedDecodes(group: GroupEncoder, pad: RestEncoder, de: GroupDecoder, input: seq<byte>, k: nat, n: nat)
    requires Undoes(de, group, pad) && 3 * k <= |input| < 3 * k + 3 && n == if |input| == 3 * k then k else k + 1
    ensures var s := EncodedBy(group, pad, input, k); |s| == 4 * n && DecodeGroups(de, s, n) == Some(input)
  {
    var whole, rest := Groups(group, input, k), input[3 * k..];
    var s := EncodedBy(group, pad, input, k);
    assert s[..4 * k] == whole;
    GroupsDecode(group, de, input, s, k);
    assert input[..3 * k] + rest == input;
    if |input| > 3 * k {
      PartDecodes(de, pad(rest), rest, s, k, whole, input[..3 * k]);
    } else {
      assert input[..3 * k] == input;
    }
  }

  lemma CharOfIsProper()
    ensures Proper(CharOf)
  {
    forall v: Sextet
      ensures ValueOf(CharOf(v)) == Some(v)
    {
      TableIsAlphabet(v);
    }
  }

  /** Whatever the bytes, also none, four characters for every three of them, and decoding gives them back. */
  lemma RoundTrip(input: seq<byte>)
    ensures |Encode(input)| == 4 * ((|input| + 2) / 3)
    ensures Decode(Encode(input)) == Some(input)
  {
    CharOfIsProper();
    DecodeQuadUndoes(CharOf);
    RoundTripBy(GroupOf(CharOf), PadOf(CharOf), DecodeQuad, input);
  }

  lemma RoundTripBy(group: GroupEncoder, pad: RestEncoder, de: GroupDecoder, input: seq<byte>)
    requires Undoes(de, group, pad)
    ensures var s := EncodedBy(group, pad, input, |input| / 3);
      |s| == 4 * ((|input| + 2) / 3) && |s| % 4 == 0 && DecodeGroups(de, s, |s| / 4) == Some(input)
  {
    var k := |input| / 3;
    var n := if |input| == 3 * k then k else k + 1;
    Ceiling(|input|, k);
    EncodedDecodes(group, pad, de, input, k, n);
    Quarter(n);
  }

  lemma Quarter(n: nat)
    ensures 4 * n % 4 == 0 && 4 * n / 4 == n
  {
  }

  lemma Ceiling(len: nat, k: nat)
    requires 3 * k <= len < 3 * k + 3
    ensures (len + 2) / 3 == if len == 3 * k then k else k + 1
  {
  }

  // ---------- the encoder as the program does it ----------

  /** The remainder of C, which has the sign of the dividend. */
  function Rem(x: int, y: nat): int
    requires y > 0
  {
    if x >= 0 then x % y else -((-x) % y)
  }

  /** The characters the loop has written after `i` bytes. */
  function Emitted(en: Alphabet, input: seq<byte>, i: nat): (s: string)
    requires i <= |input|
  {
    if i == 0 then []
    else
      Emitted(en, input, i - 1) +
      if (i - 1) % 3 == 0 then [en(First(input[i - 1]))]
      else if (i - 1) % 3 == 1 then [en(Second(input[i - 2], input[i - 1]))]
      else [en(Third(input[i - 2], input[i - 1])), en(Fourth(input[i - 1]))]
  }

  lemma EmitGroup(en: Alphabet, input: seq<byte>, n: nat)
    requires n + 3 <= |input| && n % 3 == 0
    ensures Emitted(en, input, n + 3) == Emitted(en, input, n) + Text(Quad(en, input[n], input[n + 1], input[n + 2]))
  {
    var x, y, z := input[n], input[n + 1], input[n + 2];
    assert (n + 1) % 3 == 1 && (n + 2) % 3 == 2;
    assert Emitted(en, input, n + 1) == Emitted(en, input, n) + [en(First(x))];
    assert Emitted(en, input, n + 2) == Emitted(en, input, n + 1) + [en(Second(x, y))];
    assert Emitted(en, input, n + 3) == Emitted(en, input, n + 2) + [en(Third(y, z)), en(Fourth(z))];
  }

  lemma {:induction false} EmittedGroups(en: Alphabet, input: seq<byte>, k: nat)
    requires 3 * k <= |input|
    ensures Emitted(en, input, 3 * k) == Groups(GroupOf(en), input, k)
  {
    if k > 0 {
      EmittedGroups(en, input, k - 1);
      EmitGroup(en, input, 3 * k - 3);
    }
  }

  /** What the loop leaves to write: nothing, or the last sextet and the padding. */
  function Closing(en: Alphabet, input: seq<byte>): string {
    var n := |input|;
    if n % 3 == 0 then []
    else if n % 3 == 1 then [en(Second(input[n - 1], 0)), PAD, PAD]
    else [en(Third(input[n - 1], 0)), PAD]
  }

  lemma EmitOne(en: Alphabet, input: seq<byte>, n: nat)
    requires n + 1 == |input| && n % 3 == 0
    ensures Emitted(en, input, n + 1) + Closing(en, input) == Emitted(en, input, n) + Text(Padded(en, [input[n]]))
  {
    assert (n + 1) % 3 == 1;
    assert Emitted(en, input, n + 1) == Emitted(en, input, n) + [en(First(input[n]))];
  }

  lemma EmitTwo(en: Alphabet, input: seq<byte>, n: nat)
    requires n + 2 == |input| && n % 3 == 0
    ensures Emitted(en, input, n + 2) + Closing(en, input)
            == Emitted(en, input, n) + Text(Padded(en, [input[n], input[n + 1]]))
  {
    assert (n + 1) % 3 == 1 && (n + 2) % 3 == 2;
    assert Emitted(en, input, n + 1) == Emitted(en, input, n) + [en(First(input[n]))];
    assert Emitted(en, input, n + 2) == Emitted(en, input, n + 1) + [en(Second(input[n], input[n + 1]))];
  }

  lemma Thirds(k: nat)
    ensures 3 * k % 3 == 0 && (3 * k + 1) % 3 == 1 && (3 * k + 2) % 3 == 2
  {
  }

  /** The loop and what follows it write the whole encoding. */
  lemma EmittedAll(en: Alphabet, input: seq<byte>, k: nat)
    requires 3 * k <= |input| < 3 * k + 3
    ensures Encoded(en, input, k) == Emitted(en, input, |input|) + Closing(en, input)
  {
    Thirds(k);
    EmittedGroups(en, input, k);
    if |input| == 3 * k {
      assert Emitted(en, input, |input|) + [] == Emitted(en, input, |input|);
    } else {
      EmittedRest(en, input, k, input[3 * k..]);
    }
  }

  lemma EmittedRest(en: Alphabet, input: seq<byte>, k: nat, rest: seq<byte>)
    requires 3 * k < |input| < 3 * k + 3 && rest == input[3 * k..]
    ensures Emitted(en, input, |input|) + Closing(en, input) == Emitted(en, input, 3 * k) + Text(Padded(en, rest))
  {
    Thirds(k);
    if |input| == 3 * k + 1 {
      assert rest == [input[3 * k]];
      EmitOne(en, input, 3 * k);
    } else {
      assert rest == [input[3 * k], input[3 * k + 1]];
      EmitTwo(en, input, 3 * k);
    }
  }

  /** `en` is the table, which only a use of the table need say. */
  ghost predicate IsTable(en: Alphabet) {
    forall v: Sextet {:trigger CharOf(v)} :: en(v) == CharOf(v)
  }

  method Put(out: array<char>, j: nat, c: char, ghost s: string)
    requires j < out.Length && out[..j] == s
    modifies out
    ensures out[..j + 1] == s + [c] && forall x :: j < x < out.Length ==> out[x] == old(out[x])
  {
    out[j] := c;
  }

  /** One turn of the loop. */
  method EmitByte(input: seq<byte>, i: nat, out: array<char>, j: nat, ghost en: Alphabet) returns (j': nat)
    requires IsTable(en) && i < |input| && |Emitted(en, input, i + 1)| <= out.Length
    requires j <= out.Length && out[..j] == Emitted(en, input, i)
    modifies out
    ensures j < j' == |Emitted(en, input, i + 1)|
    ensures out[..j'] == Emitted(en, input, i + 1)
    ensures forall x :: j' <= x < out.Length ==> out[x] == old(out[x])
  {
    var s := i % 3;
    if s == 0 {
      Put(out, j, CharOf(First(input[i])), Emitted(en, input, i));
      return j + 1;
    } else if s == 1 {
      Put(out, j, CharOf(Second(input[i - 1], input[i])), Emitted(en, input, i));
      return j + 1;
    } else {
      Put(out, j, CharOf(Third(input[i - 1], input[i])), Emitted(en, input, i));
      Put(out, j + 1, CharOf(Fourth(input[i])), out[..j + 1]);
      return j + 2;
    }
  }

  lemma LastIndex(n: nat)
    ensures Rem(n - 1, 3) == 0 <==> n % 3 == 1
    ensures Rem(n - 1, 3) == 1 <==> n % 3 == 2
  {
  }

  /** What comes after the loop, for the index of the last byte: -1 when there is none. */
  method Close(input: seq<byte>, i: int, out: array<char>, j: nat, ghost en: Alphabet) returns (j': nat)
    requires IsTable(en) && i == |input| - 1 && j + |Closing(en, input)| <= out.Length
    requires out[..j] == Emitted(en, input, |input|)
    modifies out
    ensures j' == j + |Closing(en, input)|
    ensures out[..j'] == Emitted(en, input, |input|) + Closing(en, input)
    ensures forall x :: j' <= x < out.Length ==> out[x] == old(out[x])
  {
    ghost var all := Emitted(en, input, |input|);
    LastIndex(|input|);
    if Rem(i, 3) == 0 {
      Put(out, j, CharOf(Second(input[i], 0)), all);
      Put(out, j + 1, PAD, out[..j + 1]);
      Put(out, j + 2, PAD, out[..j + 2]);
      return j + 3;
    } else if Rem(i, 3) == 1 {
      Put(out, j, CharOf(Third(input[i], 0)), all);
      Put(out, j + 1, PAD, out[..j + 1]);
      return j + 2;
    }
    return j;
  }

  lemma {:induction false} EmittedGrows(en: Alphabet, input: seq<byte>, i: nat, n: nat)
    requires i <= n <= |input|
    ensures |Emitted(en, input, i)| <= |Emitted(en, input, n)|
  {
    if i < n {
      EmittedGrows(en, input, i, n - 1);
    }
  }

  method Loop(input: seq<byte>, out: array<char>, ghost en: Alphabet, ghost room: nat) returns (j: nat)
    requires IsTable(en) && room == |Emitted(en, input, |input|)| <= out.Length
    modifies out
    ensures j == room && out[..j] == Emitted(en, input, |input|)
    ensures forall x :: j <= x < out.Length ==> out[x] == old(out[x])
  {
    ghost var before := out[..];
    var i := 0;
    j := 0;
    while i < |input|
      invariant 0 <= i <= |input| && j <= out.Length && out[..j] == Emitted(en, input, i)
      invariant forall x :: j <= x < out.Length ==> out[x] == before[x]
    {
      EmittedGrows(en, input, i + 1, |input|);
      j := EmitByte(input, i, out, j, en);
      i := i + 1;
    }
  }

  /** The counters of the source are C `int`s, hence the bound. */
  method Base64Encode(input: seq<byte>, out: array<char>) returns (j: nat)
    requires out.Length >= 4 * ((|input| + 2) / 3) && 4 * ((|input| + 2) / 3) < 0x8000_0000
    modifies out
    ensures j == 4 * ((|input| + 2) / 3) && out[..j] == Encode(input)
    ensures forall x :: j <= x < out.Length ==> out[x] == old(out[x])
  {
    ghost var en: Alphabet := CharOf;
    EmittedAll(en, input, |input| / 3);
    RoundTrip(input);
    j := Loop(input, out, en, |Emitted(en, input, |input|)|);
    j := Close(input, |input| - 1, out, j, en);
  }
}
