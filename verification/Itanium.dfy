/**
 The parser for nested names in Itanium C++ ABI mangling: scanners that recurse into each other,
 the loops that run them, and the printing they invert.

 Symbols are taken to hold no newline and no digits but the ten of ASCII.
 */
module Itanium {
  import opened Common

  // ---------- the patterns ----------

  predicate IsDigit(c: char) { '0' <= c <= '9' }

  predicate IsSeq(c: char) { IsDigit(c) || 'A' <= c <= 'Z' }

  predicate IsQualifier(c: char) { c in "rVKRO" }

  predicate NotE(c: char) { c != 'E' }

  /** The length of the longest prefix of characters in a class. */
  function Span(s: string, cls: char -> bool): (n: nat)
    ensures n <= |s|
    ensures forall i :: 0 <= i < n ==> cls(s[i])
    ensures n < |s| ==> !cls(s[n])
  {
    if s == [] || !cls(s[0]) then 0 else 1 + Span(s[1..], cls)
  }

  function Value(digits: string): nat
    requires forall c :: c in digits ==> IsDigit(c)
  {
    if digits == [] then 0
    else
      assert IsDigit(digits[|digits| - 1]);
      10 * Value(digits[..|digits| - 1]) + (digits[|digits| - 1] as int - '0' as int)
  }

  /** How much the class takes when at least one character must be left over for `.+`. */
  function Greedy(s: string, cls: char -> bool): (k: int)
    ensures k < |s|
    ensures forall i :: 0 <= i < k ==> cls(s[i])
  {
    var n := Span(s, cls);
    if n < |s| then n else n - 1
  }

  /** `S[A-Z0-9]*_(.+)`: what the group matches. */
  function AfterSubstitution(s: string): (r: Option<string>)
    ensures r.Some? ==> 0 < |r.value| < |s|
  {
    if s == [] || s[0] != 'S' then None
    else
      var j := 1 + Span(s[1..], IsSeq);
      if j + 1 < |s| && s[j] == '_' then Some(s[j + 1..]) else None
  }

  // ---------- the scanners ----------

  datatype Parsed = Parsed(name: string, rest: string)

  /** `parse_itanium_name`; no name is `None`. */
  function ParseName(arg: string): (r: Option<Parsed>)
    ensures r.Some? ==> r.value.name != [] && |r.value.rest| < |arg|
  {
    var d := Greedy(arg, IsDigit);
    if d >= 1 then
      var n := Value(arg[..d]);
      var tail := arg[d..];
      if n <= |tail| then Some(Parsed(arg[..d] + tail[..n], tail[n..])) else Some(Parsed(arg, []))
    else if |arg| > 2 && arg[0] in "CD" && arg[1] in "123" then Some(Parsed(arg[..2], arg[2..]))
    else
      var k := Greedy(arg, NotE);
      if k >= 1 then Some(Parsed(arg[..k], arg[k..])) else None
  }

  datatype Part = Part(name: string, isTemplate: bool)

  /** What is left after a template argument list; `Missing` is `None`, `TooComplex` the exception. */
  datatype Skipped = Rest(rest: string) | Missing | Complex

  datatype Nested = Names(names: seq<Part>, rest: string) | Failed | TooComplex

  function SkipTemplate(arg: string): (r: Skipped)
    requires arg != [] && arg[0] == 'I'
    ensures r.Rest? ==> |r.rest| + 2 <= |arg|
    decreases |arg|, 0
  {
    SkipArguments(arg[1..])
  }

  /** The loop of `skip_itanium_template`. */
  function SkipArguments(tmp: string): (r: Skipped)
    ensures r.Rest? ==> |r.rest| < |tmp|
    decreases |tmp|, 2
  {
    if tmp == [] then Missing
    else
      var d := Greedy(tmp, IsDigit);
      if d >= 1 then
        var n := Value(tmp[..d]);
        if n <= |tmp| - d then SkipArguments(tmp[d + n..]) else SkipArguments([])
      else if AfterSubstitution(tmp).Some? then SkipArguments(AfterSubstitution(tmp).value)
      else if tmp[0] == 'I' then
        match SkipTemplate(tmp)
        case Rest(rest) => SkipArguments(rest)
        case other => other
      else if tmp[0] == 'N' then
        match ParseNested(tmp)
        case Names(_, rest) => SkipArguments(rest)
        case Failed => Missing
        case TooComplex => Complex
      else if tmp[0] == 'L' || tmp[0] == 'X' then Complex
      else if tmp[0] == 'E' then Rest(tmp[1..])
      else SkipArguments(tmp[1..])
  }

  /** The `N`, a substitution if there is one, and the qualifiers. */
  function AfterQualifiers(arg: string): (tmp: string)
    requires arg != []
    ensures |tmp| < |arg|
  {
    var s := if AfterSubstitution(arg[1..]).Some? then AfterSubstitution(arg[1..]).value else arg[1..];
    var k := Greedy(s, IsQualifier);
    if k >= 0 then s[k..] else s
  }

  function ParseNested(arg: string): (r: Nested)
    requires arg != [] && arg[0] == 'N'
    ensures r.Names? ==> |r.rest| < |arg|
    decreases |arg|, 0
  {
    ParseParts(AfterQualifiers(arg), [])
  }

  /** The loop of `parse_itanium_nested_name`. */
  function ParseParts(tmp: string, ret: seq<Part>): (r: Nested)
    ensures r.Names? ==> |r.rest| < |tmp| && ret <= r.names
    decreases |tmp|, 1
  {
    if tmp == [] then Failed
    else if tmp[0] == 'E' then Names(ret, tmp[1..])
    else
      var p := ParseName(tmp);
      if p.None? then Failed
      else if p.value.rest != [] && p.value.rest[0] == 'I' then
        match SkipTemplate(p.value.rest)
        case Rest(rest) => ParseParts(rest, ret + [Part(p.value.name, true)])
        case Missing => Failed
        case Complex => TooComplex
      else ParseParts(p.value.rest, ret + [Part(p.value.name, false)])
  }

  // ---------- the scanners as loops ----------

  method ParseItaniumName(arg: string) returns (name: Option<string>, rest: string)
    ensures name.Some? ==> ParseName(arg) == Some(Parsed(name.value, rest))
    ensures name.None? ==> ParseName(arg) == None && rest == arg
  {
    var d := Greedy(arg, IsDigit);
    if d >= 1 {
      var n := Value(arg[..d]);
      var tail := arg[d..];
      if n <= |tail| {
        return Some(arg[..d] + tail[..n]), tail[n..];
      }
      assert arg[..d] + tail == arg;
      return Some(arg[..d] + tail), [];
    }
    if |arg| > 2 && arg[0] in "CD" && arg[1] in "123" {
      return Some(arg[..2]), arg[2..];
    }
    var k := Greedy(arg, NotE);
    if k >= 1 {
      return Some(arg[..k]), arg[k..];
    }
    return None, arg;
  }

  method SkipItaniumTemplate(arg: string) returns (r: Skipped)
    requires arg != [] && arg[0] == 'I'
    ensures r == SkipTemplate(arg)
    decreases |arg|, 0
  {
    var tmp := arg[1..];
    while tmp != []
      invariant |tmp| < |arg| && SkipTemplate(arg) == SkipArguments(tmp)
      decreases |tmp|
    {
      var d := Greedy(tmp, IsDigit);
      if d >= 1 {
        var n := Value(tmp[..d]);
        tmp := if n <= |tmp| - d then tmp[d + n..] else [];
        continue;
      }
      var after := AfterSubstitution(tmp);
      if after.Some? {
        tmp := after.value;
      } else if tmp[0] == 'I' {
        var s := SkipItaniumTemplate(tmp);
        if !s.Rest? {
          return s;
        }
        tmp := s.rest;
      } else if tmp[0] == 'N' {
        var s := ParseItaniumNestedName(tmp);
        match s {
          case Names(_, rest) => tmp := rest;
          case Failed => return Missing;
          case TooComplex => return Complex;
        }
      } else if tmp[0] == 'L' || tmp[0] == 'X' {
        return Complex;
      } else if tmp[0] == 'E' {
        return Rest(tmp[1..]);
      } else {
        tmp := tmp[1..];
      }
    }
    return Missing;
  }

  method ParseItaniumNestedName(arg: string) returns (r: Nested)
    requires arg != [] && arg[0] == 'N'
    ensures r == ParseNested(arg)
    decreases |arg|, 0
  {
    var ret: seq<Part> := [];
    var after := AfterSubstitution(arg[1..]);
    var tmp := if after.Some? then after.value else arg[1..];
    var q := Greedy(tmp, IsQualifier);
    if q >= 0 {
      tmp := tmp[q..];
    }
    while tmp != []
      invariant |tmp| < |arg| && ParseNested(arg) == ParseParts(tmp, ret)
      decreases |tmp|
    {
      if tmp[0] == 'E' {
        return Names(ret, tmp[1..]);
      }
      var name, rest := ParseItaniumName(tmp);
      if name.None? {
        return Failed;
      }
      tmp := rest;
      var isTemplate := false;
      if tmp != [] && tmp[0] == 'I' {
        var s := SkipItaniumTemplate(tmp);
        match s {
          case Rest(r) => tmp := r;
          case Missing => return Failed;
          case Complex => return TooComplex;
        }
        isTemplate := true;
      }
      ret := ret + [Part(name.value, isTemplate)];
    }
    return Failed;
  }

  // ---------- printing (section 5.1 of the Itanium C++ ABI) ----------

  /** A source name, or a constructor or destructor such as `C1`. */
  datatype Name = Source(id: string) | Special(kind: char, variant: char)

  /**
   Function types and argument packs are bracketed, by `F` or `J` and `E`. A template parameter, or the
   bound of an array type whose element type is the next argument, is a letter, a number and `_`.
   */
  datatype Argument =
    | TypeCode(c: char)
    | NamedType(id: string)
    | Substitution(code: string)
    | Template(args: Arguments)
    | Bracketed(open: char, args: Arguments)
    | Numbered(letter: char, n: nat)
    | NestedType(name: NestedName)

  datatype Arguments = NoMore | More(head: Argument, tail: Arguments)

  datatype Component = Component(name: Name, args: Option<Arguments>)

  datatype Components = End | Then(head: Component, tail: Components)

  /** A substitution may stand for a template, and then takes arguments. */
  datatype Prefix = Prefix(code: string, args: Option<Arguments>)

  datatype NestedName = NestedName(quals: string, prefix: Option<Prefix>, parts: Components)

  function Decimal(n: nat): (s: string)
    ensures s != [] && forall c :: c in s ==> IsDigit(c)
    ensures Value(s) == n
  {
    var d := [('0' as int + n % 10) as char];
    if n < 10 then d
    else
      assert (Decimal(n / 10) + d)[..|Decimal(n / 10) + d| - 1] == Decimal(n / 10);
      Decimal(n / 10) + d
  }

  function PrintId(id: string): string { Decimal(|id|) + id }

  function PrintSubstitution(code: string): string { "S" + code + "_" }

  function PrintName(name: Name): string {
    match name
    case Source(id) => PrintId(id)
    case Special(kind, variant) => [kind, variant]
  }

  function PrintArgument(a: Argument): string {
    match a
    case TypeCode(c) => [c]
    case NamedType(id) => PrintId(id)
    case Substitution(code) => PrintSubstitution(code)
    case Template(args) => "I" + PrintArguments(args) + "E"
    case Bracketed(open, args) => [open] + PrintArguments(args) + "E"
    case Numbered(letter, n) => [letter] + Decimal(n) + "_"
    case NestedType(name) => PrintNested(name)
  }

  function PrintArguments(args: Arguments): string {
    match args
    case NoMore => ""
    case More(a, tail) => PrintArgument(a) + PrintArguments(tail)
  }

  function PrintComponent(c: Component): string {
    PrintName(c.name) + if c.args.Some? then "I" + PrintArguments(c.args.value) + "E" else ""
  }

  function PrintComponents(cs: Components): string {
    match cs
    case End => ""
    case Then(c, tail) => PrintComponent(c) + PrintComponents(tail)
  }

  /** The qualifiers come first; a substitution is a prefix like any other and comes behind them. */
  function PrintNested(n: NestedName): string {
    "N" + n.quals + PrintPrefix(n.prefix) + PrintComponents(n.parts) + "E"
  }

  function PrintPrefix(p: Option<Prefix>): string {
    match p
    case None => ""
    case Some(Prefix(code, None)) => PrintSubstitution(code)
    case Some(Prefix(code, Some(args))) => PrintSubstitution(code) + ("I" + PrintArguments(args) + "E")
  }

  // ---------- well-formed names ----------

  /** An identifier is not empty and does not begin with a digit. */
  predicate GoodId(id: string) { id != [] && !IsDigit(id[0]) }

  predicate GoodCode(code: string) { forall c :: c in code ==> IsSeq(c) }

  predicate GoodName(name: Name) {
    match name
    case Source(id) => GoodId(id)
    case Special(kind, variant) => (kind == 'C' && variant in "123") || (kind == 'D' && variant in "012")
  }

  /** A type code is a character that begins none of the other productions. */
  predicate GoodArgument(a: Argument) {
    match a
    case TypeCode(c) => !IsDigit(c) && c !in "SINLXE"
    case NamedType(id) => GoodId(id)
    case Substitution(code) => GoodCode(code)
    case Template(args) => GoodArguments(args)
    case Bracketed(open, args) => open in "FJ" && GoodArguments(args)
    case Numbered(letter, n) => letter in "AT"
    case NestedType(name) => GoodNested(name)
  }

  predicate GoodArguments(args: Arguments) {
    match args
    case NoMore => true
    case More(a, tail) => GoodArgument(a) && GoodArguments(tail)
  }

  predicate GoodComponent(c: Component) {
    GoodName(c.name) && (c.args.Some? ==> GoodArguments(c.args.value))
  }

  /** A destructor is no template, and nothing is nested in it. */
  predicate GoodComponents(cs: Components) {
    match cs
    case End => true
    case Then(c, tail) =>
      && GoodComponent(c) && GoodComponents(tail)
      && (c.name.Special? && c.name.kind == 'D' ==> c.args.None? && tail.End?)
  }

  predicate GoodNested(n: NestedName) {
    && (forall c :: c in n.quals ==> IsQualifier(c)) && GoodComponents(n.parts)
    && (n.prefix.Some? ==> GoodCode(n.prefix.value.code))
    && (n.prefix.Some? && n.prefix.value.args.Some? ==> GoodArguments(n.prefix.value.args.value))
  }

  /** The list the parser should return. */
  function PartsOf(cs: Components): seq<Part> {
    match cs
    case End => []
    case Then(c, tail) => [Part(PrintName(c.name), c.args.Some?)] + PartsOf(tail)
  }

  // ---------- what the scanners understand ----------

  /** No brackets but those of templates and nested names, and no number that can be taken for a length. */
  predicate PlainArgument(a: Argument) {
    match a
    case Template(args) => PlainArguments(args)
    case Bracketed(_, _) => false
    case Numbered(_, n) => n <= 1
    case NestedType(name) => PlainPrefix(name) && PlainComponents(name.parts)
    case _ => true
  }

  predicate PlainArguments(args: Arguments) {
    match args
    case NoMore => true
    case More(a, tail) => PlainArgument(a) && PlainArguments(tail)
  }

  predicate PlainComponent(c: Component) {
    c.args.Some? ==> PlainArguments(c.args.value)
  }

  predicate PlainComponents(cs: Components) {
    match cs
    case End => true
    case Then(c, tail) => PlainComponent(c) && PlainComponents(tail)
  }

  /** A substitution, if there is one, directly behind the N, and without arguments. */
  predicate PlainPrefix(n: NestedName) {
    n.prefix.Some? ==> n.quals == [] && n.prefix.value.args.None?
  }

  // ---------- round trip ----------

  lemma {:induction false} SpanOfClass(x: string, y: string, cls: char -> bool)
    requires (forall c :: c in x ==> cls(c)) && (y == [] || !cls(y[0]))
    ensures Span(x + y, cls) == |x|
  {
    if x == [] {
      assert x + y == y;
    } else {
      assert (x + y)[1..] == x[1..] + y;
      SpanOfClass(x[1..], y, cls);
    }
  }

  /** A length-prefixed name is recognized and split off, whatever follows. */
  lemma IdSplits(id: string, rest: string)
    requires GoodId(id)
    ensures var s := PrintId(id) + rest; var d := Decimal(|id|);
      Greedy(s, IsDigit) == |d| && s[..|d|] == d && s[|d|..] == id + rest && Value(s[..|d|]) == |id|
  {
    var d := Decimal(|id|);
    var s := PrintId(id) + rest;
    assert s == d + (id + rest);
    SpanOfClass(d, id + rest, IsDigit);
    assert s[..|d|] == d;
  }

  lemma SubstitutionSplits(code: string, rest: string)
    requires GoodCode(code) && rest != []
    ensures AfterSubstitution(PrintSubstitution(code) + rest) == Some(rest)
  {
    var s := PrintSubstitution(code) + rest;
    assert s[1..] == code + ("_" + rest);
    SpanOfClass(code, "_" + rest, IsSeq);
    assert s[|code| + 1] == '_' && s[|code| + 2..] == rest;
  }

  /** Nothing but a substitution begins with S. */
  lemma NoSubstitution(s: string)
    requires s != [] && s[0] != 'S'
    ensures AfterSubstitution(s) == None
  {
  }

  lemma NotADigit(s: string)
    requires s != [] && !IsDigit(s[0])
    ensures Greedy(s, IsDigit) <= 0
  {
  }

  /**
   What follows lets the name be split off whole. The code's pattern for destructors has no `D0`, which goes
   through that for operators.
   */
  predicate Splits(name: Name, rest: string) {
    match name
    case Source(_) => true
    case Special(_, variant) => if variant == '0' then |rest| == 1 || (rest != [] && rest[0] == 'E') else rest != []
  }

  /** When a printed name is split off whole, exactly. */
  lemma NameParses(name: Name, rest: string)
    requires GoodName(name)
    ensures ParseName(PrintName(name) + rest) == Some(Parsed(PrintName(name), rest)) <==> Splits(name, rest)
  {
    var s := PrintName(name) + rest;
    match name {
      case Source(id) =>
        IdSplits(id, rest);
        assert (id + rest)[..|id|] == id && (id + rest)[|id|..] == rest;
      case Special(kind, variant) =>
        NotADigit(s);
        assert s[..2] == [kind, variant] && s[2..] == rest;
        if variant == '0' {
          OperatorSplits(kind, rest);
        }
    }
  }

  /** How much the pattern for operators takes when a name does not end there. */
  lemma OperatorSplits(kind: char, rest: string)
    requires kind == 'D'
    ensures Greedy([kind, '0'] + rest, NotE) == 2 <==> |rest| == 1 || (rest != [] && rest[0] == 'E')
  {
    var s := [kind, '0'] + rest;
    assert s[0] == kind && s[1] == '0' && (rest != [] ==> s[2] == rest[0]);
  }

  /** The head of a printed argument is skipped. */
  lemma ArgumentSkipped(a: Argument, rest: string)
    requires GoodArgument(a) && PlainArgument(a) && rest != []
    ensures SkipArguments(PrintArgument(a) + rest) == SkipArguments(rest)
    decreases a, 1
  {
    var s := PrintArgument(a) + rest;
    match a {
      case TypeCode(c) =>
        LetterSkipped(c, rest);
      case NamedType(id) =>
        IdSplits(id, rest);
        assert s[|Decimal(|id|)| + |id|..] == rest;
      case Substitution(code) =>
        NotADigit(s);
        SubstitutionSplits(code, rest);
      case Template(args) =>
        NotADigit(s);
        assert s == "I" + (PrintArguments(args) + ("E" + rest));
        assert s[1..] == PrintArguments(args) + ("E" + rest);
        ArgumentsSkipped(args, rest);
      case Bracketed(_, _) =>
      case Numbered(letter, n) =>
        NumberSkipped(letter, n, rest);
      case NestedType(name) =>
        NotADigit(s);
        NestedParses(name, rest);
    }
  }

  lemma LetterSkipped(c: char, rest: string)
    requires !IsDigit(c) && c !in "SINLXE"
    ensures SkipArguments([c] + rest) == SkipArguments(rest)
  {
    NotADigit([c] + rest);
    assert ([c] + rest)[1..] == rest;
  }

  /**
   The number behind an `A` or a `T` is taken for the length of a name: as many characters are skipped,
   beginning with the `_`. That is right for 0 and 1 only, or when what is skipped too much happens not to matter.
   */
  lemma NumberSkipped(letter: char, n: nat, rest: string)
    requires letter in "AT"
    ensures SkipArguments(PrintArgument(Numbered(letter, n)) + rest)
         == if n == 0 then SkipArguments(rest) else if n - 1 <= |rest| then SkipArguments(rest[n - 1..]) else Missing
  {
    NumberStarts(letter, n, rest);
    BoundSkipped(Decimal(n), rest);
  }

  lemma NumberStarts(letter: char, n: nat, rest: string)
    requires letter in "AT"
    ensures SkipArguments(PrintArgument(Numbered(letter, n)) + rest) == SkipArguments(Decimal(n) + ("_" + rest))
  {
    var s := Decimal(n) + ("_" + rest);
    assert PrintArgument(Numbered(letter, n)) + rest == [letter] + s;
    LetterSkipped(letter, s);
  }

  lemma BoundSkipped(d: string, rest: string)
    requires d != [] && forall c :: c in d ==> IsDigit(c)
    ensures var n := Value(d);
      SkipArguments(d + ("_" + rest))
      == if n == 0 then SkipArguments(rest) else if n - 1 <= |rest| then SkipArguments(rest[n - 1..]) else Missing
  {
    if Value(d) == 0 {
      BoundOfZero(d, rest);
    } else {
      BoundOfMore(d, rest);
    }
  }

  lemma BoundOfZero(d: string, rest: string)
    requires d != [] && (forall c :: c in d ==> IsDigit(c)) && Value(d) == 0
    ensures SkipArguments(d + ("_" + rest)) == SkipArguments(rest)
  {
    UnderscoreSkipped(rest);
    assert ("_" + rest)[0..] == "_" + rest;
    LengthSkipped(d, "_" + rest);
  }

  lemma BoundOfMore(d: string, rest: string)
    requires d != [] && (forall c :: c in d ==> IsDigit(c)) && Value(d) > 0
    ensures SkipArguments(d + ("_" + rest))
         == if Value(d) - 1 <= |rest| then SkipArguments(rest[Value(d) - 1..]) else Missing
  {
    if Value(d) - 1 <= |rest| {
      BoundWithin(d, rest, rest[Value(d) - 1..]);
    } else {
      LengthSkipped(d, "_" + rest);
    }
  }

  lemma BoundWithin(d: string, rest: string, behind: string)
    requires d != [] && (forall c :: c in d ==> IsDigit(c)) && 0 < Value(d) <= |rest| + 1
    requires behind == rest[Value(d) - 1..]
    ensures SkipArguments(d + ("_" + rest)) == SkipArguments(behind)
  {
    assert ("_" + rest)[Value(d)..] == behind;
    LengthSkipped(d, "_" + rest);
  }

  lemma UnderscoreSkipped(rest: string)
    ensures SkipArguments("_" + rest) == SkipArguments(rest)
  {
    LetterSkipped('_', rest);
  }

  /** A number is the length of what is to be skipped. */
  lemma LengthSkipped(d: string, tail: string)
    requires d != [] && (forall c :: c in d ==> IsDigit(c)) && tail != [] && !IsDigit(tail[0])
    ensures SkipArguments(d + tail) == if Value(d) <= |tail| then SkipArguments(tail[Value(d)..]) else Missing
  {
    LengthRead(d, tail);
    DigitsSkip(d + tail, |d|, Value(d));
    if Value(d) <= |tail| {
      assert (d + tail)[|d| + Value(d)..] == tail[Value(d)..];
    }
  }

  lemma LengthRead(d: string, tail: string)
    requires d != [] && (forall c :: c in d ==> IsDigit(c)) && tail != [] && !IsDigit(tail[0])
    ensures Greedy(d + tail, IsDigit) == |d| && (d + tail)[..|d|] == d
  {
    SpanOfClass(d, tail, IsDigit);
  }

  lemma DigitsSkip(s: string, d: nat, n: nat)
    requires 1 <= d <= |s| && Greedy(s, IsDigit) == d && Value(s[..d]) == n
    ensures SkipArguments(s) == if d + n <= |s| then SkipArguments(s[d + n..]) else Missing
  {
  }

  lemma ArgumentsSkipped(args: Arguments, rest: string)
    requires GoodArguments(args) && PlainArguments(args)
    ensures SkipArguments(PrintArguments(args) + ("E" + rest)) == Rest(rest)
    decreases args, 0
  {
    match args {
      case NoMore =>
        assert PrintArguments(args) + ("E" + rest) == "E" + rest;
        NotADigit("E" + rest);
        assert ("E" + rest)[1..] == rest;
      case More(a, tail) =>
        var more := PrintArguments(tail) + ("E" + rest);
        assert PrintArguments(args) + ("E" + rest) == PrintArgument(a) + more;
        ArgumentSkipped(a, more);
        ArgumentsSkipped(tail, rest);
    }
  }

  lemma Assoc<T>(x: seq<T>, y: seq<T>, z: seq<T>)
    ensures x + y + z == x + (y + z)
  {
  }

  lemma NothingParses(ret: seq<Part>, rest: string)
    ensures ParseParts("E" + rest, ret) == Names(ret, rest)
  {
    assert ("E" + rest)[1..] == rest;
  }

  lemma ComponentsParse(cs: Components, ret: seq<Part>, rest: string)
    requires GoodComponents(cs) && PlainComponents(cs)
    ensures ParseParts(PrintComponents(cs) + ("E" + rest), ret) == Names(ret + PartsOf(cs), rest)
    decreases cs, 0
  {
    match cs {
      case End =>
        assert PrintComponents(cs) + ("E" + rest) == "E" + rest && ret + PartsOf(cs) == ret;
        NothingParses(ret, rest);
      case Then(c, tail) =>
        var part := Part(PrintName(c.name), c.args.Some?);
        FirstOfComponents(tail, rest);
        Assoc(PrintComponent(c), PrintComponents(tail), "E" + rest);
        ComponentParses(c, PrintComponents(tail) + ("E" + rest), ret);
        ComponentsParse(tail, ret + [part], rest);
        Assoc(ret, [part], PartsOf(tail));
    }
  }

  lemma ComponentParses(c: Component, more: string, ret: seq<Part>)
    requires GoodComponent(c) && PlainComponent(c) && more != [] && more[0] != 'I' && Closes(c.name, more)
    requires c.args.Some? ==> !(c.name.Special? && c.name.variant == '0')
    ensures ParseParts(PrintComponent(c) + more, ret)
            == ParseParts(more, ret + [Part(PrintName(c.name), c.args.Some?)])
    decreases c, 0
  {
    if c.args.None? {
      assert PrintComponent(c) + more == PrintName(c.name) + more;
      PlainParses(c.name, more, ret);
    } else {
      var args := c.args.value;
      var list := "I" + (PrintArguments(args) + ("E" + more));
      assert PrintComponent(c) + more == PrintName(c.name) + list;
      assert list[1..] == PrintArguments(args) + ("E" + more);
      ArgumentsSkipped(args, more);
      TemplateParses(c.name, list, more, ret);
    }
  }

  /** What follows the deleting destructor is the end of the name. */
  predicate Closes(name: Name, more: string) {
    name.Special? && name.variant == '0' ==> more != [] && more[0] == 'E'
  }

  lemma PlainParses(name: Name, more: string, ret: seq<Part>)
    requires GoodName(name) && more != [] && more[0] != 'I' && Closes(name, more)
    ensures ParseParts(PrintName(name) + more, ret) == ParseParts(more, ret + [Part(PrintName(name), false)])
  {
    NameParses(name, more);
    FirstOfName(name, more);
  }

  lemma TemplateParses(name: Name, list: string, more: string, ret: seq<Part>)
    requires GoodName(name) && !(name.Special? && name.variant == '0')
    requires list != [] && list[0] == 'I' && SkipTemplate(list) == Rest(more)
    ensures ParseParts(PrintName(name) + list, ret) == ParseParts(more, ret + [Part(PrintName(name), true)])
  {
    NameParses(name, list);
    FirstOfName(name, list);
  }

  /** What a printed name begins with is neither a qualifier nor a letter with a meaning of its own. */
  lemma FirstOfName(name: Name, rest: string)
    requires GoodName(name)
    ensures PrintName(name) != []
    ensures var c := (PrintName(name) + rest)[0]; c == PrintName(name)[0] && !IsQualifier(c) && c !in "EIS"
  {
    if name.Source? {
      assert PrintName(name)[0] == Decimal(|name.id|)[0];
      assert Decimal(|name.id|)[0] in Decimal(|name.id|);
    }
  }

  /**
   When a printed nested name is parsed back, exactly, its arguments being plain: there is no substitution, or
   it stands directly behind the N and takes no arguments. What follows is then not touched.
   */
  lemma NestedParses(n: NestedName, rest: string)
    requires GoodNested(n) && PlainComponents(n.parts)
    ensures ParseNested(PrintNested(n) + rest) == Names(PartsOf(n.parts), rest) <==> PlainPrefix(n)
    decreases n, 0
  {
    if PlainPrefix(n) {
      HeaderSkipped(n, rest);
      ComponentsParse(n.parts, [], rest);
      assert [] + PartsOf(n.parts) == PartsOf(n.parts);
    } else {
      PrefixMistaken(n, rest);
      FirstPart(n.parts);
    }
  }

  lemma FirstPart(cs: Components)
    requires GoodComponents(cs)
    ensures PartsOf(cs) != [] ==> PartsOf(cs)[0].name != [] && PartsOf(cs)[0].name[0] !in "SI"
  {
    if cs.Then? {
      FirstOfName(cs.head.name, "");
    }
  }

  lemma QualifiersSkipped(quals: string, tail: string)
    requires (forall c :: c in quals ==> IsQualifier(c)) && tail != [] && !IsQualifier(tail[0])
    ensures Greedy(quals + tail, IsQualifier) == |quals| && (quals + tail)[|quals|..] == tail
  {
    SpanOfClass(quals, tail, IsQualifier);
  }

  lemma HeaderSkipped(n: NestedName, rest: string)
    requires GoodNested(n) && PlainPrefix(n)
    ensures AfterQualifiers(PrintNested(n) + rest) == PrintComponents(n.parts) + ("E" + rest)
  {
    var tail := PrintComponents(n.parts) + ("E" + rest);
    FirstOfComponents(n.parts, rest);
    Header(n, rest);
    if n.prefix.Some? {
      assert n.quals + (PrintPrefix(n.prefix) + tail) == PrintSubstitution(n.prefix.value.code) + tail;
      SubstitutionSplits(n.prefix.value.code, tail);
      QualifiersSkipped("", tail);
      assert "" + tail == tail;
    } else {
      assert PrintPrefix(n.prefix) + tail == tail;
      NoSubstitutionFirst(n.quals, tail);
      QualifiersSkipped(n.quals, tail);
    }
  }

  lemma Header(n: NestedName, rest: string)
    ensures (PrintNested(n) + rest)[0] == 'N'
    ensures (PrintNested(n) + rest)[1..]
         == n.quals + (PrintPrefix(n.prefix) + (PrintComponents(n.parts) + ("E" + rest)))
  {
    Chained("N", n.quals, PrintPrefix(n.prefix), PrintComponents(n.parts), "E", rest);
  }

  lemma Chained(u: string, v: string, w: string, x: string, y: string, z: string)
    ensures u + v + w + x + y + z == u + (v + (w + (x + (y + z))))
  {
  }

  lemma NoSubstitutionFirst(quals: string, tail: string)
    requires (forall c :: c in quals ==> IsQualifier(c)) && tail != [] && (quals != [] || tail[0] != 'S')
    ensures AfterSubstitution(quals + tail) == None
  {
    if quals != [] {
      assert quals[0] in quals && (quals + tail)[0] == quals[0];
    }
    NoSubstitution(quals + tail);
  }

  /** What begins with neither a digit nor a name of a constructor or destructor is taken for an operator. */
  lemma TakenForOperator(tmp: string)
    requires |tmp| > 1 && !IsDigit(tmp[0]) && tmp[0] !in "CDE"
    ensures var r := ParseParts(tmp, []);
      r.Names? ==> r.names != [] && r.names[0].name != [] && r.names[0].name[0] == tmp[0]
  {
    NotADigit(tmp);
    var k := Greedy(tmp, NotE);
    assert k >= 1 && tmp[..k][0] == tmp[0];
  }

  /** A substitution behind qualifiers, or the arguments of one, become the first name that is found. */
  lemma PrefixMistaken(n: NestedName, rest: string)
    requires GoodNested(n) && !PlainPrefix(n)
    ensures Mistaken(ParseNested(PrintNested(n) + rest))
  {
    var tail := PrintComponents(n.parts) + ("E" + rest);
    var s := PrintPrefix(n.prefix) + tail;
    Header(n, rest);
    if n.quals != [] {
      assert |s| > 1 && s[0] == 'S';
      NoSubstitutionFirst(n.quals, s);
      QualifiersSkipped(n.quals, s);
      TakenForOperator(s);
    } else {
      assert n.quals + s == s;
      ArgumentsMistaken(n.prefix.value.code, n.prefix.value.args.value, tail);
    }
  }

  /** The first name begins as no name does. */
  predicate Mistaken(r: Nested) {
    r.Names? ==> r.names != [] && r.names[0].name != [] && r.names[0].name[0] in "SI"
  }

  lemma ArgumentsMistaken(code: string, args: Arguments, tail: string)
    requires GoodCode(code) && tail != []
    ensures Mistaken(ParseNested("N" + (PrintPrefix(Some(Prefix(code, Some(args)))) + tail)))
  {
    var list := "I" + PrintArguments(args) + "E" + tail;
    assert PrintPrefix(Some(Prefix(code, Some(args)))) + tail == PrintSubstitution(code) + list;
    SubstitutionOnly(code, list);
    TakenForOperator(list);
  }

  lemma SubstitutionOnly(code: string, tail: string)
    requires GoodCode(code) && tail != [] && !IsQualifier(tail[0])
    ensures AfterQualifiers("N" + (PrintSubstitution(code) + tail)) == tail
  {
    assert ("N" + (PrintSubstitution(code) + tail))[1..] == PrintSubstitution(code) + tail;
    SubstitutionSplits(code, tail);
    QualifiersSkipped("", tail);
    assert "" + tail == tail;
  }

  /** What the printed components begin with is neither a qualifier nor the start of a template or substitution. */
  lemma FirstOfComponents(cs: Components, rest: string)
    requires GoodComponents(cs)
    ensures var s := PrintComponents(cs) + ("E" + rest);
      s != [] && !IsQualifier(s[0]) && s[0] != 'I' && s[0] != 'S'
  {
    if cs.Then? {
      FirstOfName(cs.head.name, "");
      assert PrintComponents(cs)[0] == PrintName(cs.head.name)[0];
    }
  }

  // ---------- what the scanners misread ----------

  /** The last argument is bracketed, and all is plain before it and inside it. */
  predicate EndsInBracket(args: Arguments) {
    match args
    case NoMore => false
    case More(a, NoMore) => a.Bracketed? && PlainArguments(a.args)
    case More(a, tail) => PlainArgument(a) && EndsInBracket(tail)
  }

  /** A component whose arguments end in a bracket is the first that is not plain. */
  predicate CutShort(cs: Components) {
    match cs
    case End => false
    case Then(c, tail) =>
      (c.args.Some? && EndsInBracket(c.args.value)) || (PlainComponent(c) && CutShort(tail))
  }

  /** The components up to that one, and those behind it. */
  function Kept(cs: Components): seq<Part> {
    match cs
    case End => []
    case Then(c, tail) =>
      [Part(PrintName(c.name), c.args.Some?)] +
      if c.args.Some? && EndsInBracket(c.args.value) then [] else Kept(tail)
  }

  function Lost(cs: Components): Components {
    match cs
    case End => End
    case Then(c, tail) => if c.args.Some? && EndsInBracket(c.args.value) then tail else Lost(tail)
  }

  /** The end of the bracket is taken for the end of the list. */
  lemma {:induction false} BracketEndsList(args: Arguments, rest: string)
    requires GoodArguments(args) && EndsInBracket(args)
    ensures SkipArguments(PrintArguments(args) + ("E" + rest)) == Rest("E" + rest)
    decreases args
  {
    var a, tail := args.head, args.tail;
    if tail.NoMore? {
      var inner := PrintArguments(a.args) + ("E" + ("E" + rest));
      assert PrintArguments(args) + ("E" + rest) == [a.open] + inner;
      LetterSkipped(a.open, inner);
      ArgumentsSkipped(a.args, "E" + rest);
    } else {
      var more := PrintArguments(tail) + ("E" + rest);
      assert PrintArguments(args) + ("E" + rest) == PrintArgument(a) + more;
      ArgumentSkipped(a, more);
      BracketEndsList(tail, rest);
    }
  }

  /** The end of the list is taken for the end of the name. */
  lemma BracketedParses(c: Component, more: string, ret: seq<Part>)
    requires GoodComponent(c) && c.args.Some? && EndsInBracket(c.args.value)
    requires !(c.name.Special? && c.name.variant == '0')
    ensures ParseParts(PrintComponent(c) + more, ret) == Names(ret + [Part(PrintName(c.name), true)], more)
  {
    var args := c.args.value;
    var list := "I" + (PrintArguments(args) + ("E" + more));
    assert PrintComponent(c) + more == PrintName(c.name) + list;
    assert list[1..] == PrintArguments(args) + ("E" + more);
    BracketEndsList(args, more);
    TemplateParses(c.name, list, "E" + more, ret);
    NothingParses(ret + [Part(PrintName(c.name), true)], more);
  }

  lemma {:induction false} CutParses(cs: Components, ret: seq<Part>, rest: string)
    requires GoodComponents(cs) && CutShort(cs)
    ensures ParseParts(PrintComponents(cs) + ("E" + rest), ret)
         == Names(ret + Kept(cs), PrintComponents(Lost(cs)) + ("E" + rest))
    decreases cs
  {
    var c, tail := cs.head, cs.tail;
    var more := PrintComponents(tail) + ("E" + rest);
    var part := Part(PrintName(c.name), c.args.Some?);
    Assoc(PrintComponent(c), PrintComponents(tail), "E" + rest);
    if c.args.Some? && EndsInBracket(c.args.value) {
      BracketedParses(c, more, ret);
    } else {
      FirstOfComponents(tail, rest);
      ComponentParses(c, more, ret);
      CutParses(tail, ret + [part], rest);
      Assoc(ret, [part], Kept(tail));
    }
  }

  /**
   When the last argument of a component is a function type or an argument pack, the parse stops at that
   component, with all that comes behind it left over, and so is wrong for every such name.
   */
  lemma BracketCutsShort(n: NestedName, rest: string)
    requires GoodNested(n) && PlainPrefix(n) && CutShort(n.parts)
    ensures ParseNested(PrintNested(n) + rest)
         == Names(Kept(n.parts), PrintComponents(Lost(n.parts)) + ("E" + rest))
    ensures ParseNested(PrintNested(n) + rest) != Names(PartsOf(n.parts), rest)
  {
    HeaderSkipped(n, rest);
    CutParses(n.parts, [], rest);
    assert [] + Kept(n.parts) == Kept(n.parts);
    assert |PrintComponents(Lost(n.parts)) + ("E" + rest)| > |rest|;
  }

  // ---------- brackets anywhere ----------

  /**
   The scanners see one kind of end. To them a printed list, in whatever lists and brackets it stands, is a
   stack of lists, each closed by an E.
   */
  datatype Stack = Empty | Push(top: Arguments, below: Stack)

  function PrintStack(st: Stack, rest: string): string {
    match st
    case Empty => rest
    case Push(args, below) => PrintArguments(args) + ("E" + PrintStack(below, rest))
  }

  function Size(a: Argument): nat {
    match a
    case Template(args) => 1 + Sizes(args)
    case Bracketed(_, args) => 1 + Sizes(args)
    case _ => 1
  }

  function Sizes(args: Arguments): nat {
    match args
    case NoMore => 0
    case More(a, tail) => 1 + Size(a) + Sizes(tail)
  }

  function StackSize(st: Stack): nat {
    match st
    case Empty => 0
    case Push(args, below) => 1 + Sizes(args) + StackSize(below)
  }

  /** `s` is what is left of `r` when lists are taken off its top. */
  predicate Over(r: Stack, s: Stack) {
    r == s || (r.Push? && Over(r.below, s))
  }

  lemma {:induction false} OverBelow(r: Stack, s: Stack)
    requires s.Push? && Over(r, s)
    ensures r.Push? && Over(r.below, s.below)
  {
    if r != s {
      OverBelow(r.below, s);
    }
  }

  lemma {:induction false} OverTransitive(r: Stack, s: Stack, t: Stack)
    requires Over(r, s) && Over(s, t)
    ensures Over(r, t)
  {
    if r != s {
      OverTransitive(r.below, s, t);
    }
  }

  /** The stack when an argument that opens a list, the first of the top list, has been gone into. */
  function Into(st: Stack): (r: Stack)
    requires st.Push? && st.top.More? && (st.top.head.Bracketed? || st.top.head.Template?)
    ensures StackSize(r) < StackSize(st)
  {
    assert Size(st.top.head) == 1 + Sizes(st.top.head.args);
    Push(st.top.head.args, Push(st.top.tail, st.below))
  }

  /** The stack when `skip_itanium_template` returns: a bracket is gone into but not come out of. */
  function SkipStack(st: Stack): (r: Stack)
    requires st.Push?
    ensures StackSize(r) < StackSize(st) && Over(r, st.below)
    decreases StackSize(st)
  {
    if st.top.NoMore? then st.below
    else if st.top.head.Bracketed? then
      var r := SkipStack(Into(st));
      OverBelow(r, Push(st.top.tail, st.below));
      OverTransitive(r, r.below, st.below);
      r
    else if st.top.head.Template? then
      var s := SkipStack(Into(st));
      OverBelow(s, Push(st.top.tail, st.below));
      var r := SkipStack(s);
      OverTransitive(r, s.below, st.below);
      r
    else SkipStack(Push(st.top.tail, st.below))
  }

  /** How many lists are open. */
  function Depth(st: Stack): nat {
    if st.Empty? then 0 else 1 + Depth(st.below)
  }

  lemma {:induction false} OverDepth(r: Stack, s: Stack)
    requires Over(r, s)
    ensures Depth(r) >= Depth(s) && (Depth(r) == Depth(s) ==> r == s)
  {
    if r != s {
      OverDepth(r.below, s);
    }
  }

  lemma {:induction false} OverLonger(r: Stack, s: Stack, rest: string)
    requires Over(r, s)
    ensures |PrintStack(r, rest)| >= |PrintStack(s, rest)|
  {
    if r != s {
      OverLonger(r.below, s, rest);
    }
  }

  /**
   Any templates and brackets in each other, and otherwise what the scanners understand. Neither `C` nor `D`
   stands before a length, which the scanner of names would take together with its first digit.
   */
  predicate TameArgument(a: Argument) {
    match a
    case Template(args) => TameArguments(args)
    case Bracketed(_, args) => TameArguments(args)
    case _ => PlainArgument(a)
  }

  predicate TameArguments(args: Arguments) {
    match args
    case NoMore => true
    case More(a, tail) =>
      && TameArgument(a) && TameArguments(tail)
      && !(a.TypeCode? && a.c in "CD" && tail.More? && tail.head.NamedType?)
  }

  predicate TameComponents(cs: Components) {
    match cs
    case End => true
    case Then(c, tail) => (c.args.Some? ==> TameArguments(c.args.value)) && TameComponents(tail)
  }

  predicate TameStack(st: Stack) {
    st.Push? ==> GoodArguments(st.top) && TameArguments(st.top) && TameStack(st.below)
  }

  /** A list without brackets is skipped exactly; one with any leaves lists open. */
  lemma {:induction false} LeftOpen(st: Stack)
    requires st.Push? && TameArguments(st.top)
    ensures PlainArguments(st.top) ==> SkipStack(st) == st.below
    ensures !PlainArguments(st.top) ==> Depth(SkipStack(st)) > Depth(st.below)
    decreases StackSize(st)
  {
    if st.top.More? {
      var a, more := st.top.head, Push(st.top.tail, st.below);
      assert TameArgument(a) && (PlainArguments(st.top) <==> PlainArgument(a) && PlainArguments(st.top.tail));
      if a.Bracketed? {
        assert !PlainArgument(a);
        OverDepth(SkipStack(Into(st)), more);
      } else if a.Template? {
        var s := SkipStack(Into(st));
        assert PlainArgument(a) <==> PlainArguments(a.args);
        LeftOpen(Into(st));
        if PlainArguments(a.args) {
          LeftOpen(s);
        } else {
          OverDepth(SkipStack(s), s.below);
        }
      } else {
        LeftOpen(more);
      }
    }
  }

  /** The template scanner, exactly, on every printed list of such arguments. */
  lemma {:induction false} SkipsStack(st: Stack, rest: string)
    requires st.Push? && TameStack(st)
    ensures SkipArguments(PrintStack(st, rest)) == Rest(PrintStack(SkipStack(st), rest)) && TameStack(SkipStack(st))
    decreases StackSize(st)
  {
    if st.top.NoMore? {
      EndSkipped(st.below, rest);
    } else {
      var a, more := st.top.head, Push(st.top.tail, st.below);
      assert GoodArgument(a) && TameArgument(a) && TameStack(more);
      if a.Bracketed? {
        BracketGoneInto(st, rest);
        SkipsStack(Into(st), rest);
      } else if a.Template? {
        var s := SkipStack(Into(st));
        SkipsStack(Into(st), rest);
        OverBelow(s, more);
        OpenedStack('I', a, st.top.tail, st.below, rest);
        TemplateGoneInto(PrintStack(Into(st), rest), PrintStack(s, rest));
        SkipsStack(s, rest);
      } else {
        HeadPrinted(st, rest);
        ArgumentSkipped(a, PrintStack(more, rest));
        SkipsStack(more, rest);
      }
    }
  }

  lemma BracketGoneInto(st: Stack, rest: string)
    requires st.Push? && st.top.More? && st.top.head.Bracketed? && GoodArgument(st.top.head)
    ensures SkipArguments(PrintStack(st, rest)) == SkipArguments(PrintStack(Into(st), rest))
  {
    OpenedStack(st.top.head.open, st.top.head, st.top.tail, st.below, rest);
    LetterSkipped(st.top.head.open, PrintStack(Into(st), rest));
  }

  lemma HeadPrinted(st: Stack, rest: string)
    requires st.Push? && st.top.More?
    ensures PrintStack(st, rest) == PrintArgument(st.top.head) + PrintStack(Push(st.top.tail, st.below), rest)
  {
    Assoc(PrintArgument(st.top.head), PrintArguments(st.top.tail), "E" + PrintStack(st.below, rest));
  }

  lemma EndSkipped(st: Stack, rest: string)
    ensures SkipArguments(PrintStack(Push(NoMore, st), rest)) == Rest(PrintStack(st, rest))
  {
    var s := "E" + PrintStack(st, rest);
    assert PrintStack(Push(NoMore, st), rest) == s && s[1..] == PrintStack(st, rest);
    NotADigit(s);
  }

  lemma OpenedStack(open: char, a: Argument, tail: Arguments, st: Stack, rest: string)
    requires a.Bracketed? || a.Template?
    requires open == if a.Bracketed? then a.open else 'I'
    ensures PrintStack(Push(More(a, tail), st), rest) == [open] + PrintStack(Push(a.args, Push(tail, st)), rest)
  {
    var x, y, z := PrintArguments(a.args), PrintArguments(tail), "E" + PrintStack(st, rest);
    assert PrintArgument(a) == [open] + x + "E";
    assert [open] + x + "E" + y + z == [open] + (x + ("E" + (y + z)));
  }

  lemma TemplateGoneInto(s: string, r: string)
    requires SkipArguments(s) == Rest(r)
    ensures SkipArguments("I" + s) == SkipArguments(r)
  {
    NotADigit("I" + s);
    assert ("I" + s)[1..] == s;
  }

  /**
   The scanner of names, let loose on a list of arguments, gets no further than the end of that list: each type
   is taken for a name or an operator, and the first E that is not skipped ends the parse.
   */
  lemma {:induction false} EndsEarly(st: Stack, ret: seq<Part>, rest: string)
    requires st.Push? && TameStack(st)
    ensures var r := ParseParts(PrintStack(st, rest), ret); r.Names? && |r.rest| >= |PrintStack(st.below, rest)|
    decreases StackSize(st)
  {
    if st.top.NoMore? {
      assert PrintStack(st, rest) == "E" + PrintStack(st.below, rest);
      NothingParses(ret, PrintStack(st.below, rest));
    } else if st.top.head.NamedType? {
      var more := Push(st.top.tail, st.below);
      var name := Source(st.top.head.id);
      assert GoodArgument(st.top.head) && TameStack(more);
      HeadPrinted(st, rest);
      assert PrintArgument(st.top.head) == PrintName(name);
      if st.top.tail.More? && st.top.tail.head.Template? {
        var s := SkipStack(Into(more));
        ListGoneInto(more, rest);
        OverBelow(s, Push(more.top.tail, more.below));
        TemplateParses(name, PrintStack(more, rest), PrintStack(s, rest), ret);
        EndsEarly(s, ret + [Part(PrintName(name), true)], rest);
        OverLonger(s.below, more.below, rest);
      } else {
        FirstOfStack(more, rest);
        PlainParses(name, PrintStack(more, rest), ret);
        EndsEarly(more, ret + [Part(PrintName(name), false)], rest);
      }
    } else {
      OperatorEnds(st, ret, rest);
    }
  }

  /** A template list, from its I on. */
  lemma ListGoneInto(st: Stack, rest: string)
    requires st.Push? && st.top.More? && st.top.head.Template? && TameStack(st)
    ensures var s := PrintStack(st, rest);
      s != [] && s[0] == 'I' && SkipTemplate(s) == Rest(PrintStack(SkipStack(Into(st)), rest))
    ensures TameStack(SkipStack(Into(st)))
  {
    var a := st.top.head;
    assert GoodArgument(a) && TameArgument(a);
    OpenedStack('I', a, st.top.tail, st.below, rest);
    SkipsStack(Into(st), rest);
    assert PrintStack(st, rest)[1..] == PrintStack(Into(st), rest);
  }

  /** With which character a printed list begins. */
  lemma FirstOfStack(st: Stack, rest: string)
    requires st.Push? && TameStack(st)
    ensures var s := PrintStack(st, rest);
      && s != []
      && (s[0] == 'I' <==> st.top.More? && st.top.head.Template?)
      && (IsDigit(s[0]) <==> st.top.More? && st.top.head.NamedType?)
      && (s[0] == 'E' <==> st.top.NoMore?)
      && (s[0] in "CD" ==> st.top.More? && st.top.head.TypeCode? && st.top.head.c in "CD")
  {
    if st.top.More? {
      FirstOfArgument(st.top.head);
      assert PrintStack(st, rest)[0] == PrintArgument(st.top.head)[0];
    }
  }

  lemma FirstOfArgument(a: Argument)
    requires GoodArgument(a)
    ensures var s := PrintArgument(a);
      && s != []
      && (s[0] == 'I' <==> a.Template?) && (IsDigit(s[0]) <==> a.NamedType?) && s[0] != 'E'
      && (s[0] in "CD" ==> a.TypeCode? && a.c in "CD")
  {
    if a.NamedType? {
      assert PrintArgument(a)[0] == Decimal(|a.id|)[0];
      assert Decimal(|a.id|)[0] in Decimal(|a.id|);
    }
  }

  /** What begins as no name does is taken for an operator, up to the next E, and that E ends the parse. */
  lemma OperatorEnds(st: Stack, ret: seq<Part>, rest: string)
    requires st.Push? && TameStack(st) && st.top.More? && !st.top.head.NamedType?
    ensures var r := ParseParts(PrintStack(st, rest), ret); r.Names? && |r.rest| >= |PrintStack(st.below, rest)|
  {
    var s, u := PrintStack(st, rest), PrintArguments(st.top);
    FirstOfStack(st, rest);
    NoClash(st, rest);
    NotADigit(s);
    assert s[|u|] == 'E';
    var k := Span(s, NotE);
    assert 1 <= k <= |u| && s[k] == 'E';
    assert s[k..] == "E" + s[k + 1..];
    NothingParses(ret + [Part(s[..k], false)], s[k + 1..]);
  }

  /** The name of no constructor or destructor. */
  lemma NoClash(st: Stack, rest: string)
    requires st.Push? && TameStack(st) && st.top.More?
    ensures var s := PrintStack(st, rest); |s| > 2 && s[0] in "CD" ==> !IsDigit(s[1])
  {
    FirstOfStack(st, rest);
    var a, more := st.top.head, Push(st.top.tail, st.below);
    if a.TypeCode? {
      assert TameStack(more);
      FirstOfStack(more, rest);
      HeadPrinted(st, rest);
      assert PrintArgument(a) == [a.c];
    }
  }

  lemma {:induction false} NotPlainFails(cs: Components, ret: seq<Part>, rest: string)
    requires GoodComponents(cs) && TameComponents(cs) && !PlainComponents(cs)
    ensures var r := ParseParts(PrintComponents(cs) + ("E" + rest), ret); r.Names? && |r.rest| > |rest|
    decreases cs
  {
    var c, tail := cs.head, cs.tail;
    var more := PrintComponents(tail) + ("E" + rest);
    var part := Part(PrintName(c.name), c.args.Some?);
    Assoc(PrintComponent(c), PrintComponents(tail), "E" + rest);
    if PlainComponent(c) {
      FirstOfComponents(tail, rest);
      ComponentParses(c, more, ret);
      NotPlainFails(tail, ret + [part], rest);
    } else {
      ComponentFails(c, more, ret);
    }
  }

  lemma ComponentFails(c: Component, more: string, ret: seq<Part>)
    requires GoodComponent(c) && !PlainComponent(c) && TameArguments(c.args.value)
    requires !(c.name.Special? && c.name.variant == '0')
    ensures var r := ParseParts(PrintComponent(c) + more, ret); r.Names? && |r.rest| >= |more|
  {
    var st := Push(c.args.value, Empty);
    var s := SkipStack(st);
    var list := "I" + PrintStack(st, more);
    assert PrintStack(st, more) == PrintArguments(c.args.value) + ("E" + more) by {
      assert PrintStack(Empty, more) == more;
    }
    assert PrintComponent(c) + more == PrintName(c.name) + list && list[1..] == PrintStack(st, more);
    SkipsStack(st, more);
    LeftOpen(st);
    TemplateParses(c.name, list, PrintStack(s, more), ret);
    EndsEarly(s, ret + [Part(PrintName(c.name), true)], more);
    OverEmpty(s.below, more);
  }

  lemma {:induction false} OverEmpty(st: Stack, rest: string)
    ensures |PrintStack(st, rest)| >= |rest|
  {
    if st.Push? {
      OverEmpty(st.below, rest);
    }
  }

  /**
   When a printed nested name is parsed back, exactly, with templates, function types and argument packs in each
   other at any depth: its prefix is plain, and there is no function type and no argument pack. Otherwise the
   list of names is wrong, or some of the name is left over.
   */
  lemma NestedParsesExactly(n: NestedName, rest: string)
    requires GoodNested(n) && TameComponents(n.parts)
    ensures ParseNested(PrintNested(n) + rest) == Names(PartsOf(n.parts), rest)
       <==> PlainPrefix(n) && PlainComponents(n.parts)
  {
    if PlainComponents(n.parts) {
      NestedParses(n, rest);
    } else if PlainPrefix(n) {
      HeaderSkipped(n, rest);
      NotPlainFails(n.parts, [], rest);
    } else {
      PrefixMistaken(n, rest);
      FirstPart(n.parts);
    }
  }

  // ---------- the failing inputs ----------

  lemma OneDigit(n: nat)
    requires n < 10
    ensures Decimal(n) == [('0' as int + n) as char]
  {
  }

  /** `A<void ()>::B`. */
  function FunctionMember(): NestedName {
    NestedName("", None, Then(Component(Source("A"), Some(More(Bracketed('F', Voids()), NoMore))), Last()))
  }

  function Voids(): Arguments { More(TypeCode('v'), More(TypeCode('v'), NoMore)) }

  function Last(): Components { Then(Component(Source("B"), None), End) }

  lemma LastPrints()
    ensures PrintComponents(Last()) == "1B" && PrintName(Source("A")) == "1A"
  {
    OneDigit(1);
    assert PrintName(Source("B")) == "1B";
  }

  lemma FunctionMemberPrints()
    ensures PrintNested(FunctionMember()) == "N1AIFvvEE1BE"
  {
    LastPrints();
    assert PrintArguments(Voids()) == "vv";
    assert PrintArgument(Bracketed('F', Voids())) == "FvvE";
    assert PrintComponent(FunctionMember().parts.head) == "1AIFvvEE";
  }

  lemma FunctionMemberCut()
    ensures var n := FunctionMember(); GoodNested(n) && PlainPrefix(n) && CutShort(n.parts)
    ensures Kept(FunctionMember().parts) == [Part("1A", true)]
    ensures PrintComponents(Lost(FunctionMember().parts)) + ("E" + "") == "1BE"
  {
    LastPrints();
  }

  /** That loses its last component. */
  lemma FunctionTypeLost(symbol: string)
    requires symbol == "N1AIFvvEE1BE"
    ensures ParseNested(symbol) == Names([Part("1A", true)], "1BE")
  {
    FunctionMemberPrints();
    FunctionMemberCut();
    assert symbol + "" == symbol;
    BracketCutsShort(FunctionMember(), "");
  }

  /** Up to the next E is one name, when it begins as no other name does. */
  lemma OperatorName(name: string, rest: string)
    requires name != [] && !IsDigit(name[0]) && name[0] !in "CD" && forall c :: c in name ==> NotE(c)
    ensures ParseName(name + ("E" + rest)) == Some(Parsed(name, "E" + rest))
  {
    var s := name + ("E" + rest);
    NotADigit(s);
    SpanOfClass(name, "E" + rest, NotE);
    assert s[..|name|] == name && s[|name|..] == "E" + rest;
  }

  lemma OperatorParses(name: string, rest: string)
    requires name != [] && !IsDigit(name[0]) && name[0] !in "CD" && forall c :: c in name ==> NotE(c)
    ensures ParseParts(name + ("E" + rest), []) == Names([Part(name, false)], rest)
  {
    OperatorName(name, rest);
    NothingParses([Part(name, false)], rest);
    assert name[0] in name;
  }

  /** A const member of a substituted class: the substitution becomes part of the name. */
  lemma QualifiedSubstitutionMistaken(symbol: string)
    requires symbol == "NKS_3fooE"
    ensures ParseNested(symbol) == Names([Part("S_3foo", false)], "")
  {
    var name, s := "S_3foo", symbol[2..];
    assert s == name + "E" && "E" + "" == "E" && symbol[1..] == "K" + s;
    NoSubstitutionFirst("K", s);
    QualifiersSkipped("K", s);
    OperatorParses(name, "");
  }

  /** `A<int [10]>::B` is not parsed at all: ten characters are to be skipped behind the bound. */
  lemma ArrayBoundFails(symbol: string)
    requires symbol == "N1AIA10_iE1BE"
    ensures ParseNested(symbol) == Failed
  {
    var list := symbol[3..];
    LastPrints();
    BoundMissing(list);
    assert symbol == "N" + (PrintName(Source("A")) + list);
    HeaderMissing(PrintName(Source("A")) + list);
    TemplateFails(Source("A"), list);
  }

  lemma BoundMissing(list: string)
    requires list == "IA10_iE1BE"
    ensures SkipTemplate(list) == Missing
  {
    TwoDigits();
    assert list[1..] == PrintArgument(Numbered('A', 10)) + list[5..];
    NumberSkipped('A', 10, list[5..]);
  }

  /** A name that begins with neither a substitution nor a qualifier. */
  lemma HeaderMissing(s: string)
    requires s != [] && s[0] != 'S' && !IsQualifier(s[0])
    ensures AfterQualifiers("N" + s) == s
  {
    assert ("N" + s)[1..] == s && "" + s == s;
    NoSubstitution(s);
    QualifiersSkipped("", s);
  }

  lemma TemplateFails(name: Name, list: string)
    requires GoodName(name) && !(name.Special? && name.variant == '0')
    requires list != [] && list[0] == 'I' && SkipTemplate(list) == Missing
    ensures ParseParts(PrintName(name) + list, []) == Failed
  {
    NameParses(name, list);
    FirstOfName(name, list);
  }

  lemma TwoDigits()
    ensures Decimal(10) == "10"
  {
    OneDigit(1);
  }
}
