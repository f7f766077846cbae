/**
  DecodeBase64 against the encoding of section 4 of RFC 4648: it undoes it, and
  takes nothing else (section 3.5).
 */
module Base64 {
  import Division
  import SampleFormat

  type byte = SampleFormat.byte
  type symbol = n: int | 0 <= n < 64

  datatype Option<T> = None | Some(value: T)

  const TWO32 := 0x1_0000_0000

  /** The alphabet: A to Z, a to z, 0 to 9, + and /. */
  function CharOf(n: symbol): (c: char)
    ensures Find(c) == Some(n)
  {
    if n < 26 then 'A' + n as char
    else if n < 52 then 'a' + (n - 26) as char
    else if n < 62 then '0' + (n - 52) as char
    else if n == 62 then '+'
    else '/'
  }

  /** Where a character stands in it, or nowhere. */
  function Find(c: char): Option<symbol>
  {
    if 'A' <= c <= 'Z' then Some(c as int - 'A' as int)
    else if 'a' <= c <= 'z' then Some(c as int - 'a' as int + 26)
    else if '0' <= c <= '9' then Some(c as int - '0' as int + 52)
    else if c == '+' then Some(62)
    else if c == '/' then Some(63)
    else None
  }

  lemma FoundIsThere(c: char)
    requires Find(c).Some?
    ensures CharOf(Find(c).value) == c
  {
  }

  // ----- Encoding -----

  function Encode(data: seq<byte>): string
  {
    if data == [] then ""
    else if |data| == 1 then First(data[0], 0) + "=="
    else if |data| == 2 then First(data[0], data[1]) + [Third(data[1], 0)] + "="
    else First(data[0], data[1]) + [Third(data[1], data[2]), Fourth(data[2])] + Encode(data[3..])
  }

  /** The four symbols of three bytes: six bits each. */
  function First(a: byte, b: byte): (s: string)
    ensures |s| == 2
  {
    [CharOf(a as int / 4), CharOf(a as int % 4 * 16 + b as int / 16)]
  }

  function Third(b: byte, c: byte): char { CharOf(b as int % 16 * 4 + c as int / 64) }
  function Fourth(c: byte): char { CharOf(c as int % 64) }

  // ----- Decoding -----

  /** The bytes so far, and the bits not yet made into one. */
  datatype State = State(decoded: seq<byte>, bits: nat, left: nat)

  function Pow2(bits: nat): (p: nat)
    ensures p > 0
  {
    if bits == 0 then 1 else 2 * Pow2(bits - 1)
  }

  predicate Sound(s: State)
  {
    s.bits in {0, 2, 4, 6} && s.left < Pow2(s.bits)
  }

  /** One symbol more. */
  function Take(s: State, n: symbol): (t: State)
    requires Sound(s)
    ensures Sound(t)
  {
    Powers();
    var all: int := s.left * 64 + n as int;
    if s.bits == 0 then State(s.decoded, 6, n as int)
    else if s.bits == 6 then State(s.decoded + [all / 16], 4, all % 16)
    else if s.bits == 4 then State(s.decoded + [all / 4], 2, all % 4)
    else State(s.decoded + [all], 0, 0)
  }

  lemma Powers()
    ensures Pow2(0) == 1 && Pow2(2) == 4 && Pow2(4) == 16 && Pow2(6) == 64
  {
    assert Pow2(1) == 2 && Pow2(3) == 8 && Pow2(5) == 32;
  }

  /** The symbols from i up to n. */
  function Run(text: string, n: nat, i: nat, s: State): Option<State>
    requires i <= n <= |text| && Sound(s)
    decreases n - i
  {
    if i == n then Some(s)
    else
      match Find(text[i])
      case None => None
      case Some(k) => Run(text, n, i + 1, Take(s, k))
  }

  function Padding(text: string): (p: nat)
    requires |text| >= 2
    ensures p <= 2
  {
    if text[|text| - 1] != '=' then 0 else if text[|text| - 2] != '=' then 1 else 2
  }

  function Decode(text: string): Option<seq<byte>>
  {
    if text == "" || |text| % 4 != 0 then None
    else
      match Run(text, |text| - Padding(text), 0, State([], 0, 0))
      case None => None
      case Some(s) => if s.bits >= 6 || s.left != 0 then None else Some(s.decoded)
  }

  /** The accumulator wraps at 32 bits; the bits still to be used are far below. */
  lemma AccumulatorStep(acc: nat, s: State, n: symbol)
    requires Sound(s) && acc % Pow2(s.bits) == s.left
    ensures var next := (acc * 64 + n as int) % TWO32; var bits := s.bits + 6;
            if bits >= 8 then
              && Take(s, n).bits == bits - 8 && next % Pow2(bits - 8) == Take(s, n).left
              && 0 <= next / Pow2(bits - 8) % 256 < 256
              && Take(s, n).decoded == s.decoded + [next / Pow2(bits - 8) % 256]
            else
              Take(s, n).bits == bits && next % Pow2(bits) == Take(s, n).left && Take(s, n).decoded == s.decoded
  {
    Powers();
    var m: int := n as int;
    var next := (acc * 64 + m) % TWO32;
    match s.bits
    case 0 => WrapZero(acc, m);
    case 6 => WrapSix(acc, m);
    case 4 => WrapFour(acc, m);
    case _ => WrapTwo(acc, m);
  }

  lemma WrapZero(acc: nat, m: nat)
    requires m < 64
    ensures (acc * 64 + m) % TWO32 % 64 == m
  {
    var x := acc * 64 + m;
    Division.Quotient(x, 64, acc, m);
    Division.AddBlocks(x % TWO32, 64, x / TWO32 * 67108864);
  }

  lemma WrapSix(acc: nat, m: nat)
    requires m < 64
    ensures var next, all := (acc * 64 + m) % TWO32, acc % 64 * 64 + m;
            next / 16 % 256 == all / 16 && next % 16 == all % 16
  {
    var x, all := acc * 64 + m, acc % 64 * 64 + m;
    var next := x % TWO32;
    Division.Quotient(x, 4096, acc / 64, all);
    Division.AddBlocks(next, 4096, x / TWO32 * 1048576);
    Division.Quotient(next, 16, next / 4096 * 256 + all / 16, all % 16);
    Division.AddBlocks(all / 16, 256, next / 4096);
  }

  lemma WrapFour(acc: nat, m: nat)
    requires m < 64
    ensures var next, all := (acc * 64 + m) % TWO32, acc % 16 * 64 + m;
            next / 4 % 256 == all / 4 && next % 4 == all % 4
  {
    var x, all := acc * 64 + m, acc % 16 * 64 + m;
    var next := x % TWO32;
    Division.Quotient(x, 1024, acc / 16, all);
    Division.AddBlocks(next, 1024, x / TWO32 * 4194304);
    Division.Quotient(next, 4, next / 1024 * 256 + all / 4, all % 4);
    Division.AddBlocks(all / 4, 256, next / 1024);
  }

  lemma WrapTwo(acc: nat, m: nat)
    requires m < 64
    ensures var next, all := (acc * 64 + m) % TWO32, acc % 4 * 64 + m;
            next / 1 % 256 == all / 1 && next % 1 == all % 1
  {
    var x, all := acc * 64 + m, acc % 4 * 64 + m;
    var next := x % TWO32;
    Division.Quotient(x, 256, acc / 4, all);
    Division.AddBlocks(next, 256, x / TWO32 * 16777216);
    Division.Quotient(next, 1, next / 256 * 256 + all / 1, all % 1);
    Division.AddBlocks(all / 1, 256, next / 256);
  }

  lemma RunStep(text: string, n: nat, i: nat, s: State)
    requires i < n <= |text| && Sound(s)
    ensures Run(text, n, i, s) == match Find(text[i]) case None => None case Some(k) => Run(text, n, i + 1, Take(s, k))
  {
  }

  lemma RunEnds(text: string, n: nat, s: State)
    requires n <= |text| && Sound(s)
    ensures Run(text, n, n, s) == Some(s)
  {
  }

  method DecodeBase64(text: string) returns (r: Option<seq<byte>>)
    ensures r == Decode(text)
  {
    hide Run, Take, Find, Pow2;
    if text == "" || |text| % 4 != 0 { return None; }
    var padding := 0;
    while padding < 2 && |text| > padding && text[|text| - 1 - padding] == '='
      invariant padding <= 2
      invariant padding >= 1 ==> text[|text| - 1] == '='
      invariant padding == 2 ==> text[|text| - 2] == '='
    {
      padding := padding + 1;
    }
    assert padding == Padding(text);
    var decoded: seq<byte>, accumulator: nat, bits: nat := [], 0, 0;
    ghost var s := State([], 0, 0);
    Powers();
    ghost var goal := Run(text, |text| - padding, 0, s);
    var index := 0;
    while index + padding < |text|
      invariant 0 <= index <= |text| - padding && Sound(s)
      invariant s.decoded == decoded && s.bits == bits && accumulator % Pow2(bits) == s.left
      invariant Run(text, |text| - padding, index, s) == goal
    {
      var found := Find(text[index]);
      RunStep(text, |text| - padding, index, s);
      if found == None { return None; }
      AccumulatorStep(accumulator, s, found.value);
      accumulator := (accumulator * 64 + found.value as int) % TWO32;
      bits := bits + 6;
      if bits >= 8 {
        bits := bits - 8;
        decoded := decoded + [accumulator / Pow2(bits) % 256];
      }
      s := Take(s, found.value);
      index := index + 1;
    }
    RunEnds(text, index, s);
    if bits >= 6 || accumulator % Pow2(bits) != 0 { return None; }
    r := Some(decoded);
  }

  // ----- Each byte string has one accepted spelling -----

  /** The three bytes four symbols make. */
  function Byte0(k0: symbol, k1: symbol): byte { k0 as int * 4 + k1 as int / 16 }
  function Byte1(k1: symbol, k2: symbol): byte { k1 as int % 16 * 16 + k2 as int / 4 }
  function Byte2(k2: symbol, k3: symbol): byte { k2 as int % 4 * 64 + k3 as int }

  lemma TakeAt(out: seq<byte>, left: nat, k: symbol)
    ensures Take(State(out, 0, 0), k) == State(out, 6, k as int)
    ensures left < 64 ==> (Powers(); Take(State(out, 6, left), k)) == State(out + [left * 4 + k as int / 16], 4, k as int % 16)
    ensures left < 16 ==> (Powers(); Take(State(out, 4, left), k)) == State(out + [left * 16 + k as int / 4], 2, k as int % 4)
    ensures left < 4 ==> (Powers(); Take(State(out, 2, left), k)) == State(out + [left * 64 + k as int], 0, 0)
  {
    Powers();
    var n: int := k as int;
    Division.AddBlocks(n, 16, left * 4);
    Division.AddBlocks(n, 4, left * 16);
  }

  lemma TwoSymbols(k0: symbol, k1: symbol, out: seq<byte>)
    ensures Take(Take(State(out, 0, 0), k0), k1) == State(out + [Byte0(k0, k1)], 4, k1 as int % 16)
  {
    TakeAt(out, 0, k0);
    TakeAt(out, k0 as int, k1);
    hide Take;
  }

  lemma ThreeSymbols(k0: symbol, k1: symbol, k2: symbol, out: seq<byte>)
    ensures Take(Take(Take(State(out, 0, 0), k0), k1), k2) == State(out + [Byte0(k0, k1), Byte1(k1, k2)], 2, k2 as int % 4)
  {
    hide Take;
    TwoSymbols(k0, k1, out);
    TakeAt(out + [Byte0(k0, k1)], k1 as int % 16, k2);
    assert out + [Byte0(k0, k1)] + [Byte1(k1, k2)] == out + [Byte0(k0, k1), Byte1(k1, k2)];
  }

  lemma FourSymbols(k0: symbol, k1: symbol, k2: symbol, k3: symbol, out: seq<byte>)
    ensures Take(Take(Take(Take(State(out, 0, 0), k0), k1), k2), k3)
         == State(out + [Byte0(k0, k1), Byte1(k1, k2), Byte2(k2, k3)], 0, 0)
  {
    hide Take;
    ThreeSymbols(k0, k1, k2, out);
    TakeAt(out + [Byte0(k0, k1), Byte1(k1, k2)], k2 as int % 4, k3);
    assert out + [Byte0(k0, k1), Byte1(k1, k2)] + [Byte2(k2, k3)] == out + [Byte0(k0, k1), Byte1(k1, k2), Byte2(k2, k3)];
  }

  /** Running over the first two, three or four symbols of a group. */
  lemma RunGroup(text: string, n: nat, i: nat, out: seq<byte>, size: nat)
    requires 2 <= size <= 4 && i + size <= n <= |text|
    ensures Find(text[i]).Some? && Find(text[i + 1]).Some? && size == 2 ==>
              var k0, k1 := Find(text[i]).value, Find(text[i + 1]).value;
              Run(text, n, i, State(out, 0, 0)) == Run(text, n, i + 2, State(out + [Byte0(k0, k1)], 4, k1 as int % 16))
    ensures size >= 3 && Find(text[i]).Some? && Find(text[i + 1]).Some? && Find(text[i + 2]).Some? && size == 3 ==>
              var k0, k1, k2 := Find(text[i]).value, Find(text[i + 1]).value, Find(text[i + 2]).value;
              Run(text, n, i, State(out, 0, 0)) == Run(text, n, i + 3, State(out + [Byte0(k0, k1), Byte1(k1, k2)], 2, k2 as int % 4))
    ensures size == 4 && Find(text[i]).Some? && Find(text[i + 1]).Some? && Find(text[i + 2]).Some? && Find(text[i + 3]).Some? ==>
              var k0, k1, k2, k3 := Find(text[i]).value, Find(text[i + 1]).value, Find(text[i + 2]).value, Find(text[i + 3]).value;
              Run(text, n, i, State(out, 0, 0)) ==
                Run(text, n, i + 4, State(out + [Byte0(k0, k1), Byte1(k1, k2), Byte2(k2, k3)], 0, 0))
    ensures (exists j :: i <= j < i + size && Find(text[j]) == None) ==> Run(text, n, i, State(out, 0, 0)) == None
  {
    Powers();
    hide Run, Take, Find;
    RunStep(text, n, i, State(out, 0, 0));
    if Find(text[i]).Some? {
      var k0 := Find(text[i]).value;
      RunStep(text, n, i + 1, Take(State(out, 0, 0), k0));
      if Find(text[i + 1]).Some? {
        var k1 := Find(text[i + 1]).value;
        TwoSymbols(k0, k1, out);
        if size > 2 {
          RunStep(text, n, i + 2, Take(Take(State(out, 0, 0), k0), k1));
          if Find(text[i + 2]).Some? {
            var k2 := Find(text[i + 2]).value;
            ThreeSymbols(k0, k1, k2, out);
            if size > 3 {
              RunStep(text, n, i + 3, Take(Take(Take(State(out, 0, 0), k0), k1), k2));
              if Find(text[i + 3]).Some? { FourSymbols(k0, k1, k2, Find(text[i + 3]).value, out); }
            }
          }
        }
      }
    }
  }

  lemma SymbolsOfBytes(a: byte, b: byte, c: byte)
    ensures var x: int, y: int, z: int := a as int, b as int, c as int;
            && 0 <= x % 4 * 16 + y / 16 < 64 && 0 <= y % 16 * 4 + z / 64 < 64
            && Byte0(x / 4, x % 4 * 16 + y / 16) == a && Byte1(x % 4 * 16 + y / 16, y % 16 * 4 + z / 64) == b
            && Byte2(y % 16 * 4 + z / 64, z % 64) == c
  {
  }

  /** The characters of a group, looked up again. */
  lemma GroupFound(a: byte, b: byte, c: byte)
    ensures var e0, e1, e2, e3 := First(a, b)[0], First(a, b)[1], Third(b, c), Fourth(c);
            && e0 != '=' && e1 != '=' && e2 != '=' && e3 != '='
            && Find(e0).Some? && Find(e1).Some? && Find(e2).Some? && Find(e3).Some?
            && Byte0(Find(e0).value, Find(e1).value) == a && Byte1(Find(e1).value, Find(e2).value) == b
            && Byte2(Find(e2).value, Find(e3).value) == c
            && (b == 0 ==> Find(e1).value as int % 16 == 0) && (c == 0 ==> Find(e2).value as int % 4 == 0)
  {
    hide CharOf, Find, Byte0, Byte1, Byte2;
    SymbolsOfBytes(a, b, c);
    var x: int, y: int, z: int := a as int, b as int, c as int;
    var k0: symbol, k1: symbol, k2: symbol, k3: symbol := x / 4, x % 4 * 16 + y / 16, y % 16 * 4 + z / 64, z % 64;
    assert First(a, b) == [CharOf(k0), CharOf(k1)] && Third(b, c) == CharOf(k2) && Fourth(c) == CharOf(k3);
    NotPadding(CharOf(k0));
    NotPadding(CharOf(k1));
    NotPadding(CharOf(k2));
    NotPadding(CharOf(k3));
    Division.Multiple(x % 4 * 16, x % 4, 16);
    Division.Multiple(y % 16 * 4, y % 16, 4);
  }

  lemma BytesOfSymbols(k0: symbol, k1: symbol, k2: symbol, k3: symbol)
    ensures First(Byte0(k0, k1), Byte1(k1, k2)) == [CharOf(k0), CharOf(k1)]
    ensures Third(Byte1(k1, k2), Byte2(k2, k3)) == CharOf(k2) && Fourth(Byte2(k2, k3)) == CharOf(k3)
    ensures k2 as int % 4 == 0 ==> Third(Byte1(k1, k2), 0) == CharOf(k2)
    ensures k1 as int % 16 == 0 ==> First(Byte0(k0, k1), 0) == [CharOf(k0), CharOf(k1)]
  {
  }

  lemma CharsAt(text: string, i: nat, s: string)
    requires i <= |text| && text[i..] == s
    ensures |text| == i + |s| && forall j :: 0 <= j < |s| ==> text[i + j] == s[j]
  {
    forall j | 0 <= j < |s| ensures text[i + j] == s[j] { assert text[i..][j] == text[i + j]; }
  }

  /** What a group is encoded as, by its length. */
  lemma {:induction false} EncodeIs(data: seq<byte>)
    requires data != []
    ensures |Encode(data)| >= 4 && |Encode(data)| % 4 == 0
    ensures |data| == 1 ==> Encode(data) == First(data[0], 0) + "=="
    ensures |data| == 2 ==> Encode(data) == First(data[0], data[1]) + [Third(data[1], 0)] + "="
    ensures |data| >= 3 ==> Encode(data) == First(data[0], data[1]) + [Third(data[1], data[2]), Fourth(data[2])] + Encode(data[3..])
    ensures Encode([]) == ""
  {
    hide First, Third, Fourth;
    if |data| > 3 { EncodeIs(data[3..]); }
  }

  /** A last group of one byte. */
  lemma LastOne(text: string, i: nat, out: seq<byte>, a: byte)
    requires i <= |text| && text[i..] == First(a, 0) + "=="
    ensures |text| == i + 4 && Padding(text) == 2
    ensures Run(text, i + 2, i, State(out, 0, 0)) == (Powers(); Some(State(out + [a], 4, 0)))
  {
    hide Run, Find, CharOf, First, Third, Fourth, Byte0, Byte1, Byte2;
    var e := First(a, 0) + "==";
    CharsAt(text, i, e);
    assert e[0] == text[i + 0] && e[1] == text[i + 1] && e[2] == text[i + 2] == '=' && e[3] == text[i + 3] == '=';
    GroupFound(a, 0, 0);
    RunGroup(text, i + 2, i, out, 2);
    Powers();
    RunEnds(text, i + 2, State(out + [a], 4, 0));
  }

  /** A last group of two. */
  lemma LastTwo(text: string, i: nat, out: seq<byte>, a: byte, b: byte)
    requires i <= |text| && text[i..] == First(a, b) + [Third(b, 0)] + "="
    ensures |text| == i + 4 && Padding(text) == 1
    ensures Run(text, i + 3, i, State(out, 0, 0)) == (Powers(); Some(State(out + [a, b], 2, 0)))
  {
    hide Run, Find, CharOf, First, Third, Fourth, Byte0, Byte1, Byte2;
    var e := First(a, b) + [Third(b, 0)] + "=";
    CharsAt(text, i, e);
    assert e[0] == text[i + 0] && e[1] == text[i + 1] && e[2] == text[i + 2] && e[3] == text[i + 3] == '=';
    GroupFound(a, b, 0);
    RunGroup(text, i + 3, i, out, 3);
    Powers();
    RunEnds(text, i + 3, State(out + [a, b], 2, 0));
  }

  /** A group of three, whatever comes after it. */
  lemma FullGroup(text: string, n: nat, i: nat, out: seq<byte>, a: byte, b: byte, c: byte, rest: string)
    requires i <= |text| && text[i..] == First(a, b) + [Third(b, c), Fourth(c)] + rest && n <= |text|
    ensures i + 4 <= |text| && text[i + 4..] == rest
    ensures text[i + 2] != '=' && text[i + 3] != '='
    ensures i + 4 <= n ==> Run(text, n, i, State(out, 0, 0)) == Run(text, n, i + 4, State(out + [a, b, c], 0, 0))
  {
    hide Run, Find, CharOf, First, Third, Fourth, Byte0, Byte1, Byte2;
    var e := First(a, b) + [Third(b, c), Fourth(c)] + rest;
    CharsAt(text, i, e);
    assert e[0] == text[i + 0] && e[1] == text[i + 1] && e[2] == text[i + 2] && e[3] == text[i + 3];
    assert text[i..][4..] == e[4..] == rest;
    GroupFound(a, b, c);
    if i + 4 <= n { RunGroup(text, n, i, out, 4); }
  }

  lemma {:induction false} EncodedRun(text: string, i: nat, out: seq<byte>, data: seq<byte>)
    requires data != [] && i <= |text| && text[i..] == Encode(data)
    ensures |text| >= 2 && i <= |text| - Padding(text)
    ensures var r := Run(text, |text| - Padding(text), i, State(out, 0, 0));
            r.Some? && r.value.decoded == out + data && r.value.bits < 6 && r.value.left == 0
    decreases |data|
  {
    hide Run, Find, CharOf, Encode, First, Third, Fourth;
    EncodeIs(data);
    if |data| == 1 {
      LastOne(text, i, out, data[0]);
      assert data == [data[0]];
    } else if |data| == 2 {
      LastTwo(text, i, out, data[0], data[1]);
      assert data == [data[0], data[1]];
    } else {
      var next := out + [data[0], data[1], data[2]];
      FullGroup(text, |text|, i, out, data[0], data[1], data[2], Encode(data[3..]));
      assert data == [data[0], data[1], data[2]] + data[3..];
      if |data| == 3 {
        assert data[3..] == [];
        EncodeIs(data);
        Powers();
        RunEnds(text, |text|, State(next, 0, 0));
      } else {
        EncodedRun(text, i + 4, next, data[3..]);
        FullGroup(text, |text| - Padding(text), i, out, data[0], data[1], data[2], Encode(data[3..]));
        assert next + data[3..] == out + data;
      }
    }
  }

  lemma EncodeDecodes(data: seq<byte>)
    requires data != []
    ensures Decode(Encode(data)) == Some(data)
  {
    hide Run, Encode;
    EncodeIs(data);
    var text := Encode(data);
    assert text[0..] == text;
    Powers();
    EncodedRun(text, 0, [], data);
    assert [] + data == data;
  }

  lemma NotPadding(c: char)
    ensures Find(c).Some? ==> c != '='
  {
  }

  /** What the decoder took from i on is the encoding of the bytes it made. */
  lemma {:induction false} AcceptedRun(text: string, i: nat, out: seq<byte>)
    requires i + 4 <= |text| && (|text| - i) % 4 == 0
    requires Run(text, |text| - Padding(text), i, State(out, 0, 0)).Some?
    requires var s := Run(text, |text| - Padding(text), i, State(out, 0, 0)).value; s.bits < 6 && s.left == 0
    ensures var s := Run(text, |text| - Padding(text), i, State(out, 0, 0)).value;
            exists data :: data != [] && s.decoded == out + data && text[i..] == Encode(data)
    decreases |text| - i
  {
    hide Run, Find, CharOf, Encode;
    var n := |text| - Padding(text);
    var s := Run(text, n, i, State(out, 0, 0)).value;
    var size := if n < i + 4 then n - i else 4;
    RunGroup(text, n, i, out, size);
    SymbolsThere(text, n, i, out, size);
    var k0, k1 := Find(text[i]).value, Find(text[i + 1]).value;
    if size == 2 {
      RunEnds(text, n, State(out + [Byte0(k0, k1)], 4, k1 as int % 16)) by { Powers(); }
      GroupOfOne(text, i, k0, k1);
      assert s.decoded == out + [Byte0(k0, k1)];
    } else if size == 3 {
      var k2 := Find(text[i + 2]).value;
      RunEnds(text, n, State(out + [Byte0(k0, k1), Byte1(k1, k2)], 2, k2 as int % 4)) by { Powers(); }
      GroupOfTwo(text, i, k0, k1, k2);
      assert s.decoded == out + [Byte0(k0, k1), Byte1(k1, k2)];
    } else {
      var k2, k3 := Find(text[i + 2]).value, Find(text[i + 3]).value;
      var three := [Byte0(k0, k1), Byte1(k1, k2), Byte2(k2, k3)];
      if i + 4 == |text| {
        RunEnds(text, n, State(out + three, 0, 0)) by { Powers(); }
        EncodeNone();
        assert text[i + 4..] == "";
        GroupOfThree(text, i, k0, k1, k2, k3, []);
        assert s.decoded == out + (three + []);
      } else {
        AcceptedRun(text, i + 4, out + three);
        var rest :| rest != [] && s.decoded == out + three + rest && text[i + 4..] == Encode(rest);
        GroupOfThree(text, i, k0, k1, k2, k3, rest);
        assert s.decoded == out + (three + rest);
      }
    }
  }

  lemma EncodeNone()
    ensures Encode([]) == ""
  {
  }

  /** A run that succeeds found every symbol. */
  lemma SymbolsThere(text: string, n: nat, i: nat, out: seq<byte>, size: nat)
    requires 2 <= size <= 4 && i + size <= n <= |text| && Run(text, n, i, State(out, 0, 0)).Some?
    ensures forall j :: i <= j < i + size ==> Find(text[j]).Some?
  {
    hide Run, Find;
    forall j | i <= j < i + size ensures Find(text[j]).Some? {
      if Find(text[j]) == None { RunGroup(text, n, i, out, size); }
    }
  }

  lemma GroupOfOne(text: string, i: nat, k0: symbol, k1: symbol)
    requires i + 4 == |text| && text[i + 2] == '=' && text[i + 3] == '=' && k1 as int % 16 == 0
    requires Find(text[i]) == Some(k0) && Find(text[i + 1]) == Some(k1)
    ensures text[i..] == Encode([Byte0(k0, k1)])
  {
    hide CharOf, Find;
    FoundIsThere(text[i]);
    FoundIsThere(text[i + 1]);
    BytesOfSymbols(k0, k1, 0, 0);
    EncodeIs([Byte0(k0, k1)]);
    hide Encode, First;
    assert text[i..] == [CharOf(k0), CharOf(k1)] + "==";
  }

  lemma GroupOfTwo(text: string, i: nat, k0: symbol, k1: symbol, k2: symbol)
    requires i + 4 == |text| && text[i + 3] == '=' && k2 as int % 4 == 0
    requires Find(text[i]) == Some(k0) && Find(text[i + 1]) == Some(k1) && Find(text[i + 2]) == Some(k2)
    ensures text[i..] == Encode([Byte0(k0, k1), Byte1(k1, k2)])
  {
    hide CharOf, Find;
    FoundIsThere(text[i]);
    FoundIsThere(text[i + 1]);
    FoundIsThere(text[i + 2]);
    BytesOfSymbols(k0, k1, k2, 0);
    EncodeIs([Byte0(k0, k1), Byte1(k1, k2)]);
    hide Encode, First, Third;
    assert text[i..] == [CharOf(k0), CharOf(k1)] + [CharOf(k2)] + "=";
  }

  lemma GroupOfThree(text: string, i: nat, k0: symbol, k1: symbol, k2: symbol, k3: symbol, rest: seq<byte>)
    requires i + 4 <= |text| && text[i + 4..] == Encode(rest)
    requires Find(text[i]) == Some(k0) && Find(text[i + 1]) == Some(k1)
    requires Find(text[i + 2]) == Some(k2) && Find(text[i + 3]) == Some(k3)
    ensures text[i..] == Encode([Byte0(k0, k1), Byte1(k1, k2), Byte2(k2, k3)] + rest)
  {
    hide CharOf, Find;
    FoundIsThere(text[i]);
    FoundIsThere(text[i + 1]);
    FoundIsThere(text[i + 2]);
    FoundIsThere(text[i + 3]);
    BytesOfSymbols(k0, k1, k2, k3);
    var data := [Byte0(k0, k1), Byte1(k1, k2), Byte2(k2, k3)] + rest;
    assert data[3..] == rest;
    EncodeIs(data);
    hide Encode, First, Third, Fourth;
    assert text[i..] == [CharOf(k0), CharOf(k1)] + [CharOf(k2), CharOf(k3)] + text[i + 4..];
  }

  /** The decoder takes exactly the encodings of non-empty byte strings, each for
      the string it encodes; so no two spellings give the same bytes. */
  lemma DecodesExactlyEncodings(text: string, data: seq<byte>)
    ensures Decode(text) == Some(data) <==> data != [] && text == Encode(data)
  {
    hide Run, Encode;
    if data != [] && text == Encode(data) { EncodeDecodes(data); }
    if Decode(text) == Some(data) {
      Powers();
      AcceptedRun(text, 0, []);
      assert text[0..] == text;
      var found :| found != [] && data == [] + found && text == Encode(found);
      assert [] + found == found;
    }
  }

  lemma OneSpelling(a: string, b: string)
    requires Decode(a).Some? && Decode(a) == Decode(b)
    ensures a == b
  {
    DecodesExactlyEncodings(a, Decode(a).value);
    DecodesExactlyEncodings(b, Decode(b).value);
  }
}
