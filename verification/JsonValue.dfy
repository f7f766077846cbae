/**
  JSON values and the two functions of the reader and writer: what a text parses
  to, with the message and offset of the first failure, and how a value is written.

  A character stands for a byte of the file.
 */
module Json {

  datatype Member = Member(name: string, value: Value)

  datatype Value =
    | Null
    | Boolean(truth: bool)
    | Number(lexeme: string)
    | String(text: string)
    | Array(elements: seq<Value>)
    | Object(members: seq<Member>)

  const MAXIMUM_DEPTH := 32

  /** What a scan found and where it stopped, or why it failed and where. */
  datatype Scan<T> =
    | Ok(value: T, next: nat)
    | Err(message: string, at: nat)

  predicate IsWhitespace(c: char) { c == ' ' || c == '\t' || c == '\n' || c == '\r' }
  predicate IsDigit(c: char) { '0' <= c <= '9' }

  predicate At(text: string, p: nat, c: char) { p < |text| && text[p] == c }
  predicate DigitAt(text: string, p: nat) { p < |text| && IsDigit(text[p]) }

  function Skip(text: string, p: nat): (q: nat)
    requires p <= |text|
    ensures p <= q <= |text| && (q < |text| ==> !IsWhitespace(text[q]))
    decreases |text| - p
  {
    if p < |text| && IsWhitespace(text[p]) then Skip(text, p + 1) else p
  }

  /** Past the digits from p on. */
  function Digits(text: string, p: nat): (q: nat)
    requires p <= |text|
    ensures p <= q <= |text| && !DigitAt(text, q)
    ensures DigitAt(text, p) ==> p < q
    decreases |text| - p
  {
    if DigitAt(text, p) then Digits(text, p + 1) else p
  }

  // ----- Numbers -----

  /** The integer part: one zero, or digits that do not begin with one. */
  function IntegerEnd(text: string, p: nat): (q: nat)
    requires DigitAt(text, p)
    ensures p < q <= |text|
  {
    if text[p] == '0' then p + 1 else Digits(text, p)
  }

  function FractionEnd(text: string, p: nat): (r: Scan<()>)
    requires p <= |text|
    ensures if r.Ok? then p <= r.next <= |text| else p <= r.at <= |text|
  {
    if !At(text, p, '.') then Ok((), p)
    else if DigitAt(text, p + 1) then Ok((), Digits(text, p + 1))
    else Err("a decimal point must be followed by a digit", p + 1)
  }

  function ExponentEnd(text: string, p: nat): (r: Scan<()>)
    requires p <= |text|
    ensures if r.Ok? then p <= r.next <= |text| else p <= r.at <= |text|
  {
    if !(At(text, p, 'e') || At(text, p, 'E')) then Ok((), p)
    else
      var q := if At(text, p + 1, '+') || At(text, p + 1, '-') then p + 2 else p + 1;
      if DigitAt(text, q) then Ok((), Digits(text, q))
      else Err("an exponent must have at least one digit", q)
  }

  function NumberFrom(text: string, p: nat): (r: Scan<Value>)
    requires p <= |text|
    ensures if r.Ok? then p < r.next <= |text| else p <= r.at <= |text|
  {
    var q := if At(text, p, '-') then p + 1 else p;
    if !DigitAt(text, q) then Err("expected a value", q)
    else
      match FractionEnd(text, IntegerEnd(text, q))
      case Err(m, at) => Err(m, at)
      case Ok(_, f) =>
        match ExponentEnd(text, f)
        case Err(m, at) => Err(m, at)
        case Ok(_, e) => Ok(Number(text[p..e]), e)
  }

  // ----- Strings -----

  function Hex(c: char): (n: int)
    ensures -1 <= n < 16
  {
    if '0' <= c <= '9' then c as int - '0' as int
    else if 'a' <= c <= 'f' then c as int - 'a' as int + 10
    else if 'A' <= c <= 'F' then c as int - 'A' as int + 10
    else -1
  }

  /** The number the first n of four hex digits make, or -1. */
  function HexSoFar(text: string, p: nat, n: nat): (r: int)
    requires n <= 4 && p + n <= |text|
    ensures -1 <= r < [1, 0x10, 0x100, 0x1000, 0x10000][n]
  {
    if n == 0 then 0
    else
      var before, digit := HexSoFar(text, p, n - 1), Hex(text[p + n - 1]);
      if before < 0 || digit < 0 then -1 else before * 16 + digit
  }

  function HexQuad(text: string, p: nat): (r: Scan<int>)
    requires p <= |text|
    ensures if r.Ok? then r.next == p + 4 <= |text| && 0 <= r.value < 0x10000 else r.at == p
  {
    if p + 4 > |text| then Err("truncated \\u escape", p)
    else if HexSoFar(text, p, 4) < 0 then Err("\\u escape is not four hex digits", p)
    else Ok(HexSoFar(text, p, 4), p + 4)
  }

  /** The code point of a \u escape whose digits begin at p, joining a surrogate pair. */
  function CodePoint(text: string, p: nat): (r: Scan<int>)
    requires p <= |text|
    ensures if r.Ok? then p < r.next <= |text| && 0 <= r.value < 0x110000 else p <= r.at <= |text|
  {
    match HexQuad(text, p)
    case Err(m, at) => Err(m, at)
    case Ok(first, q) =>
      if 0xD800 <= first <= 0xDBFF then
        if !(At(text, q, '\\') && At(text, q + 1, 'u')) then Err("high surrogate without a low surrogate", q)
        else
          match HexQuad(text, q + 2)
          case Err(m, at) => Err(m, at)
          case Ok(second, e) =>
            if second < 0xDC00 || second > 0xDFFF then
              Err("high surrogate followed by something other than a low surrogate", e)
            else Ok(0x10000 + (first - 0xD800) * 1024 + (second - 0xDC00), e)
      else if 0xDC00 <= first <= 0xDFFF then Err("low surrogate without a high surrogate", q)
      else Ok(first, q)
  }

  function Utf8(c: nat): (bytes: string)
    requires c < 0x110000
    ensures 1 <= |bytes| <= 4
  {
    if c < 0x80 then [c as char]
    else if c < 0x800 then [(0xC0 + c / 64) as char, (0x80 + c % 64) as char]
    else if c < 0x10000 then [(0xE0 + c / 4096) as char, (0x80 + c / 64 % 64) as char, (0x80 + c % 64) as char]
    else [(0xF0 + c / 262144) as char, (0x80 + c / 4096 % 64) as char, (0x80 + c / 64 % 64) as char, (0x80 + c % 64) as char]
  }

  /** What an escape other than \u stands for. */
  function Unescaped(c: char): (r: string)
    ensures |r| <= 1
  {
    if c == '"' || c == '\\' || c == '/' then [c]
    else if c == 'b' then [8 as char]
    else if c == 'f' then [12 as char]
    else if c == 'n' then "\n"
    else if c == 'r' then "\r"
    else if c == 't' then "\t"
    else ""
  }

  /** The rest of a string, from p on, with what has been decoded so far. */
  function StringFrom(text: string, p: nat, decoded: string): (r: Scan<string>)
    requires p <= |text|
    ensures if r.Ok? then p < r.next <= |text| else p <= r.at <= |text|
    decreases |text| - p
  {
    if p == |text| then Err("unterminated string", p)
    else if text[p] == '"' then Ok(decoded, p + 1)
    else if text[p] < ' ' then Err("unescaped control character in a string", p)
    else if text[p] != '\\' then StringFrom(text, p + 1, decoded + [text[p]])
    else if p + 1 == |text| then Err("unterminated escape", p + 1)
    else if text[p + 1] == 'u' then
      match CodePoint(text, p + 2)
      case Err(m, at) => Err(m, at)
      case Ok(c, q) => StringFrom(text, q, decoded + Utf8(c))
    else if Unescaped(text[p + 1]) == "" then Err("unknown escape", p + 2)
    else StringFrom(text, p + 2, decoded + Unescaped(text[p + 1]))
  }

  // ----- Values -----

  predicate Named(members: seq<Member>, name: string)
  {
    exists i :: 0 <= i < |members| && members[i].name == name
  }

  predicate LiteralAt(text: string, p: nat, literal: string)
  {
    p + |literal| <= |text| && text[p..p + |literal|] == literal
  }

  function ValueFrom(text: string, p: nat, depth: nat): (r: Scan<Value>)
    requires p <= |text|
    ensures if r.Ok? then p < r.next <= |text| else p <= r.at <= |text|
    decreases |text| - p, 1
  {
    if depth > MAXIMUM_DEPTH then Err("nested too deeply", p)
    else if p == |text| then Err("expected a value", p)
    else if text[p] == '{' then ObjectFrom(text, p, depth)
    else if text[p] == '[' then ArrayFrom(text, p, depth)
    else if text[p] == '"' then
      match StringFrom(text, p + 1, "")
      case Err(m, at) => Err(m, at)
      case Ok(s, q) => Ok(String(s), q)
    else if text[p] == 't' then
      if LiteralAt(text, p, "true") then Ok(Boolean(true), p + 4) else Err("expected a value", p)
    else if text[p] == 'f' then
      if LiteralAt(text, p, "false") then Ok(Boolean(false), p + 5) else Err("expected a value", p)
    else if text[p] == 'n' then
      if LiteralAt(text, p, "null") then Ok(Null, p + 4) else Err("expected a value", p)
    else NumberFrom(text, p)
  }

  function ObjectFrom(text: string, p: nat, depth: nat): (r: Scan<Value>)
    requires p < |text|
    ensures if r.Ok? then p < r.next <= |text| else p <= r.at <= |text|
    decreases |text| - p, 0
  {
    var q := Skip(text, p + 1);
    if At(text, q, '}') then Ok(Object([]), q + 1) else MembersFrom(text, q, depth, [])
  }

  /** The rest of an object, from where its next member is due. */
  function MembersFrom(text: string, p: nat, depth: nat, members: seq<Member>): (r: Scan<Value>)
    requires p <= |text|
    ensures if r.Ok? then p < r.next <= |text| else p <= r.at <= |text|
    decreases |text| - p, 0
  {
    var q := Skip(text, p);
    if !At(text, q, '"') then Err("expected a member name", q)
    else
      match StringFrom(text, q + 1, "")
      case Err(m, at) => Err(m, at)
      case Ok(name, n) =>
        var c := Skip(text, n);
        if Named(members, name) then Err("duplicate member name", q)
        else if !At(text, c, ':') then Err("expected ':' after a member name", c)
        else
          match ValueFrom(text, Skip(text, c + 1), depth + 1)
          case Err(m, at) => Err(m, at)
          case Ok(value, v) =>
            var e := Skip(text, v);
            var more := members + [Member(name, value)];
            if e == |text| then Err("unterminated object", e)
            else if text[e] == ',' then MembersFrom(text, e + 1, depth, more)
            else if text[e] == '}' then Ok(Object(more), e + 1)
            else Err("expected ',' or '}'", e)
  }

  function ArrayFrom(text: string, p: nat, depth: nat): (r: Scan<Value>)
    requires p < |text|
    ensures if r.Ok? then p < r.next <= |text| else p <= r.at <= |text|
    decreases |text| - p, 0
  {
    var q := Skip(text, p + 1);
    if At(text, q, ']') then Ok(Array([]), q + 1) else ElementsFrom(text, q, depth, [])
  }

  /** The rest of an array, from where its next element is due. */
  function ElementsFrom(text: string, p: nat, depth: nat, elements: seq<Value>): (r: Scan<Value>)
    requires p <= |text|
    ensures if r.Ok? then p < r.next <= |text| else p <= r.at <= |text|
    decreases |text| - p, 2
  {
    match ValueFrom(text, Skip(text, p), depth + 1)
    case Err(m, at) => Err(m, at)
    case Ok(value, v) =>
      var e := Skip(text, v);
      var more := elements + [value];
      if e == |text| then Err("unterminated array", e)
      else if text[e] == ',' then ElementsFrom(text, e + 1, depth, more)
      else if text[e] == ']' then Ok(Array(more), e + 1)
      else Err("expected ',' or ']'", e)
  }

  function DocumentFrom(text: string): Scan<Value>
  {
    match ValueFrom(text, Skip(text, 0), 0)
    case Err(m, at) => Err(m, at)
    case Ok(value, v) =>
      var e := Skip(text, v);
      if e != |text| then Err("trailing content after the top-level value", e) else Ok(value, e)
  }

  // ----- Writing -----

  function HexDigit(n: nat): char
    requires n < 16
  {
    "0123456789abcdef"[n]
  }

  function EscapedChar(c: char): string
  {
    if c == '"' then "\\\""
    else if c == '\\' then "\\\\"
    else if c == 8 as char then "\\b"
    else if c == 12 as char then "\\f"
    else if c == '\n' then "\\n"
    else if c == '\r' then "\\r"
    else if c == '\t' then "\\t"
    else if c < ' ' then "\\u00" + [HexDigit(c as nat / 16), HexDigit(c as nat % 16)]
    else [c]
  }

  function Escaped(text: string): string
  {
    if text == "" then "" else EscapedChar(text[0]) + Escaped(text[1..])
  }

  function Quoted(text: string): string { "\"" + Escaped(text) + "\"" }

  function Indent(depth: nat): string
  {
    if depth == 0 then "" else Indent(depth - 1) + "  "
  }

  function Printed(v: Value, depth: nat): string
    decreases v, 0
  {
    match v
    case Null => "null"
    case Boolean(b) => if b then "true" else "false"
    case Number(lexeme) => lexeme
    case String(text) => Quoted(text)
    case Array(es) => if es == [] then "[]" else "[\n" + PrintedElements(es, depth) + Indent(depth) + "]"
    case Object(ms) => if ms == [] then "{}" else "{\n" + PrintedMembers(ms, depth) + Indent(depth) + "}"
  }

  function LineEnd(more: bool): string { if more then ",\n" else "\n" }

  /** One element or member on its own line. */
  function ElementLine(e: Value, depth: nat, more: bool): string
    decreases e, 1
  {
    Indent(depth + 1) + Printed(e, depth + 1) + LineEnd(more)
  }

  function MemberLine(m: Member, depth: nat, more: bool): string
    decreases m, 1
  {
    Indent(depth + 1) + Quoted(m.name) + ": " + Printed(m.value, depth + 1) + LineEnd(more)
  }

  function PrintedElements(es: seq<Value>, depth: nat): string
    decreases es
  {
    if es == [] then "" else ElementLine(es[0], depth, |es| > 1) + PrintedElements(es[1..], depth)
  }

  function PrintedMembers(ms: seq<Member>, depth: nat): string
    decreases ms
  {
    if ms == [] then "" else MemberLine(ms[0], depth, |ms| > 1) + PrintedMembers(ms[1..], depth)
  }

  function Document(v: Value): string { Printed(v, 0) + "\n" }
}
