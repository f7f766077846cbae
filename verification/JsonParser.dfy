/**
  The recursive-descent parser and the writer, as the objects the program has:
  a position moving through the text, and a string being appended to.
 */
module JsonParser {
  import opened Json

  datatype ParseError = NoError | Failure(message: string, offset: nat)
  datatype Option<T> = None | Some(value: T)

  lemma {:induction false} HexFails(text: string, p: nat, n: nat)
    requires n <= 4 && p + 4 <= |text| && HexSoFar(text, p, n) < 0
    ensures HexSoFar(text, p, 4) < 0
    decreases 4 - n
  {
    if n < 4 { HexFails(text, p, n + 1); }
  }

  class Parser {
    const text: string
    var position: nat
    var error: ParseError

    constructor (text: string)
      ensures this.text == text && position == 0 && error == NoError
    {
      this.text := text;
      position := 0;
      error := NoError;
    }

    ghost predicate Ready()
      reads this
    {
      position <= |text| && error == NoError
    }

    /** The parser has done what the scan says: moved past what it found, or
        stopped where it failed with the failure recorded. */
    ghost predicate Did<T(!new)>(scan: Scan<T>, found: Option<T>)
      reads this
    {
      match scan
      case Ok(value, next) => found == Some(value) && position == next && error == NoError
      case Err(message, at) => found == None && position == at && error == Failure(message, at)
    }

    method Fail(message: string)
      modifies this
      ensures position == old(position)
      ensures error == if old(error) == NoError then Failure(message, position) else old(error)
    {
      if error == NoError { error := Failure(message, position); }
    }

    predicate Here(c: char)
      reads this
    {
      position < |text| && text[position] == c
    }

    predicate DigitHere()
      reads this
    {
      position < |text| && IsDigit(text[position])
    }

    method SkipWhitespace()
      requires Ready()
      modifies this
      ensures Ready() && position == Skip(text, old(position))
    {
      while position < |text| && IsWhitespace(text[position])
        invariant position <= |text| && error == NoError
        invariant Skip(text, position) == Skip(text, old(position))
      {
        position := position + 1;
      }
    }

    method SkipDigits()
      requires Ready()
      modifies this
      ensures Ready() && position == Digits(text, old(position))
    {
      while position < |text| && IsDigit(text[position])
        invariant position <= |text| && error == NoError
        invariant Digits(text, position) == Digits(text, old(position))
      {
        position := position + 1;
      }
    }

    method ConsumeLiteral(literal: string) returns (ok: bool)
      requires Ready()
      modifies this
      ensures ok == LiteralAt(text, old(position), literal) && error == NoError
      ensures position == if ok then old(position) + |literal| else old(position)
    {
      ok := position + |literal| <= |text| && text[position..position + |literal|] == literal;
      if ok { position := position + |literal|; }
    }

    method ParseDocument() returns (found: Option<Value>)
      requires Ready() && position == 0
      modifies this
      ensures Did(DocumentFrom(text), found)
    {
      SkipWhitespace();
      found := ParseValue(0);
      if found == None { return; }
      SkipWhitespace();
      if position != |text| {
        Fail("trailing content after the top-level value");
        found := None;
      }
    }

    method ParseValue(depth: nat) returns (found: Option<Value>)
      requires Ready()
      modifies this
      ensures Did(ValueFrom(text, old(position), depth), found)
      decreases |text| - position, 1
    {
      if depth > MAXIMUM_DEPTH {
        Fail("nested too deeply");
        return None;
      }
      if position >= |text| {
        Fail("expected a value");
        return None;
      }
      match text[position] {
        case '{' => found := ParseObject(depth);
        case '[' => found := ParseArray(depth);
        case '"' =>
          var decoded := ParseString();
          found := if decoded == None then None else Some(String(decoded.value));
        case 't' => found := ParseLiteral("true", Boolean(true));
        case 'f' => found := ParseLiteral("false", Boolean(false));
        case 'n' => found := ParseLiteral("null", Null);
        case _ => found := ParseNumber();
      }
    }

    method ParseLiteral(literal: string, value: Value) returns (found: Option<Value>)
      requires Ready()
      modifies this
      ensures if LiteralAt(text, old(position), literal)
              then found == Some(value) && position == old(position) + |literal| && error == NoError
              else found == None && position == old(position) && error == Failure("expected a value", position)
    {
      var ok := ConsumeLiteral(literal);
      if !ok {
        Fail("expected a value");
        return None;
      }
      found := Some(value);
    }

    method ParseObject(depth: nat) returns (found: Option<Value>)
      requires Ready() && position < |text|
      modifies this
      ensures Did(ObjectFrom(text, old(position), depth), found)
      decreases |text| - position, 0
    {
      hide MembersFrom, ValueFrom, StringFrom;
      ghost var goal := ObjectFrom(text, position, depth);
      position := position + 1;
      var members: seq<Member> := [];
      SkipWhitespace();
      if Here('}') {
        position := position + 1;
        return Some(Object(members));
      }
      found := None;
      var more := true;
      while more
        invariant old(position) < position <= |text|
        invariant more ==> Ready() && MembersFrom(text, position, depth, members) == goal
        invariant !more ==> Did(goal, found)
        decreases more, |text| - position
      {
        members, more, found := ParseMember(depth, members);
      }
    }

    /** One turn of the object loop: a member and a comma, or the end of the object. */
    method ParseMember(depth: nat, members: seq<Member>) returns (grown: seq<Member>, more: bool, found: Option<Value>)
      requires Ready()
      modifies this
      ensures old(position) <= position <= |text|
      ensures more ==> Ready() && old(position) < position
      ensures more ==> MembersFrom(text, position, depth, grown) == MembersFrom(text, old(position), depth, members)
      ensures !more ==> Did(MembersFrom(text, old(position), depth, members), found)
      decreases |text| - position, 2
    {
      hide StringFrom, ValueFrom, Skip, Named;
      grown, more, found := members, false, None;
      SkipWhitespace();
      if !Here('"') {
        Fail("expected a member name");
        return;
      }
      var nameOffset := position;
      var name := ParseString();
      if name == None { return; }
      var repeated := HasName(members, name.value);
      if repeated {
        position := nameOffset;
        Fail("duplicate member name");
        return;
      }
      SkipWhitespace();
      if !Here(':') {
        Fail("expected ':' after a member name");
        return;
      }
      position := position + 1;
      SkipWhitespace();
      var value := ParseValue(depth + 1);
      if value == None { return; }
      grown := members + [Member(name.value, value.value)];
      more, found := AfterMember(grown);
    }

    /** What follows a member: a comma, the end of the object, or a failure. */
    method AfterMember(grown: seq<Member>) returns (more: bool, found: Option<Value>)
      requires Ready()
      modifies this
      ensures var e := Skip(text, old(position));
              && (At(text, e, ',') ==> more && Ready() && position == e + 1)
              && (!At(text, e, ',') ==> !more && Did(
                    if e == |text| then Err("unterminated object", e)
                    else if text[e] == '}' then Ok(Object(grown), e + 1)
                    else Err("expected ',' or '}'", e), found))
    {
      more, found := false, None;
      SkipWhitespace();
      if position >= |text| {
        Fail("unterminated object");
      } else if Here(',') {
        position := position + 1;
        more := true;
      } else if Here('}') {
        position := position + 1;
        found := Some(Object(grown));
      } else {
        Fail("expected ',' or '}'");
      }
    }

    method HasName(members: seq<Member>, name: string) returns (repeated: bool)
      ensures repeated == Named(members, name)
    {
      for i := 0 to |members|
        invariant forall j :: 0 <= j < i ==> members[j].name != name
      {
        if members[i].name == name { return true; }
      }
      repeated := false;
    }

    method ParseArray(depth: nat) returns (found: Option<Value>)
      requires Ready() && position < |text|
      modifies this
      ensures Did(ArrayFrom(text, old(position), depth), found)
      decreases |text| - position, 0
    {
      hide ElementsFrom, ValueFrom;
      ghost var goal := ArrayFrom(text, position, depth);
      position := position + 1;
      var elements: seq<Value> := [];
      SkipWhitespace();
      if Here(']') {
        position := position + 1;
        return Some(Array(elements));
      }
      found := None;
      var more := true;
      while more
        invariant old(position) < position <= |text|
        invariant more ==> Ready() && ElementsFrom(text, position, depth, elements) == goal
        invariant !more ==> Did(goal, found)
        decreases more, |text| - position
      {
        elements, more, found := ParseElement(depth, elements);
      }
    }

    /** One turn of the array loop: an element and a comma, or the end of the array. */
    method ParseElement(depth: nat, elements: seq<Value>) returns (grown: seq<Value>, more: bool, found: Option<Value>)
      requires Ready()
      modifies this
      ensures old(position) <= position <= |text|
      ensures more ==> Ready() && old(position) < position
      ensures more ==> ElementsFrom(text, position, depth, grown) == ElementsFrom(text, old(position), depth, elements)
      ensures !more ==> Did(ElementsFrom(text, old(position), depth, elements), found)
      decreases |text| - position, 2
    {
      grown, more, found := elements, false, None;
      SkipWhitespace();
      var value := ParseValue(depth + 1);
      if value == None { return; }
      grown := elements + [value.value];
      SkipWhitespace();
      if position >= |text| {
        Fail("unterminated array");
      } else if Here(',') {
        position := position + 1;
        more := true;
      } else if Here(']') {
        position := position + 1;
        found := Some(Array(grown));
      } else {
        Fail("expected ',' or ']'");
      }
    }

    method ParseString() returns (found: Option<string>)
      requires Ready() && position < |text|
      modifies this
      ensures Did(StringFrom(text, old(position) + 1, ""), found)
    {
      position := position + 1;
      var decoded: string := "";
      ghost var goal := StringFrom(text, position, decoded);
      var more := true;
      found := None;
      while more
        invariant position <= |text|
        invariant more ==> Ready() && StringFrom(text, position, decoded) == goal
        invariant !more ==> Did(goal, found)
        decreases more, |text| - position
      {
        decoded, more, found := ParseCharacter(decoded);
      }
    }

    /** One turn of the string loop: a character or an escape, or the closing quote. */
    method ParseCharacter(decoded: string) returns (grown: string, more: bool, found: Option<string>)
      requires Ready()
      modifies this
      ensures old(position) <= position <= |text|
      ensures more ==> Ready() && old(position) < position
      ensures more ==> StringFrom(text, position, grown) == StringFrom(text, old(position), decoded)
      ensures !more ==> Did(StringFrom(text, old(position), decoded), found)
    {
      grown, more, found := decoded, false, None;
      if position >= |text| {
        Fail("unterminated string");
        return;
      }
      var character := text[position];
      if character == '"' {
        position := position + 1;
        return grown, false, Some(decoded);
      }
      if character < ' ' {
        Fail("unescaped control character in a string");
        return;
      }
      if character != '\\' {
        grown := decoded + [character];
        position := position + 1;
        more := true;
        return;
      }
      position := position + 1;
      if position >= |text| {
        Fail("unterminated escape");
        return;
      }
      var escape := text[position];
      position := position + 1;
      match escape {
        case '"' => grown := decoded + ['"'];
        case '\\' => grown := decoded + ['\\'];
        case '/' => grown := decoded + ['/'];
        case 'b' => grown := decoded + [8 as char];
        case 'f' => grown := decoded + [12 as char];
        case 'n' => grown := decoded + ['\n'];
        case 'r' => grown := decoded + ['\r'];
        case 't' => grown := decoded + ['\t'];
        case 'u' =>
          var codePoint := ParseUnicodeEscape();
          if codePoint == None { return; }
          grown := decoded + Utf8(codePoint.value);
        case _ =>
          Fail("unknown escape");
          return;
      }
      more := true;
    }

    method ParseUnicodeEscape() returns (found: Option<int>)
      requires Ready()
      modifies this
      ensures Did(CodePoint(text, old(position)), found)
    {
      var first := ParseHexQuad();
      if first == None { return None; }
      var codePoint := first.value;
      if 0xD800 <= codePoint <= 0xDBFF {
        if position + 1 >= |text| || text[position] != '\\' || text[position + 1] != 'u' {
          Fail("high surrogate without a low surrogate");
          return None;
        }
        position := position + 2;
        var second := ParseHexQuad();
        if second == None { return None; }
        if second.value < 0xDC00 || second.value > 0xDFFF {
          Fail("high surrogate followed by something other than a low surrogate");
          return None;
        }
        codePoint := 0x10000 + (codePoint - 0xD800) * 1024 + (second.value - 0xDC00);
      } else if 0xDC00 <= codePoint <= 0xDFFF {
        Fail("low surrogate without a high surrogate");
        return None;
      }
      found := Some(codePoint);
    }

    method ParseHexQuad() returns (found: Option<int>)
      requires Ready()
      modifies this
      ensures Did(HexQuad(text, old(position)), found)
    {
      if position + 4 > |text| {
        Fail("truncated \\u escape");
        return None;
      }
      ghost var p := position;
      var value := 0;
      for index := 0 to 4
        invariant position == p && Ready()
        invariant value == HexSoFar(text, p, index)
        invariant 0 <= value
      {
        var nibble := Hex(text[position + index]);
        if nibble < 0 {
          HexFails(text, p, index + 1);
          Fail("\\u escape is not four hex digits");
          return None;
        }
        value := value * 16 + nibble;
      }
      position := position + 4;
      found := Some(value);
    }

    method ParseNumber() returns (found: Option<Value>)
      requires Ready()
      modifies this
      ensures Did(NumberFrom(text, old(position)), found)
    {
      hide FractionEnd, ExponentEnd;
      var start := position;
      if Here('-') { position := position + 1; }
      if !DigitHere() {
        Fail("expected a value");
        return None;
      }
      if Here('0') { position := position + 1; } else { SkipDigits(); }
      var fraction := ParseFraction();
      if fraction == None { return None; }
      var exponent := ParseExponent();
      if exponent == None { return None; }
      found := Some(Number(text[start..position]));
    }

    method ParseFraction() returns (found: Option<()>)
      requires Ready()
      modifies this
      ensures Did(FractionEnd(text, old(position)), found)
    {
      if Here('.') {
        position := position + 1;
        if !DigitHere() {
          Fail("a decimal point must be followed by a digit");
          return None;
        }
        SkipDigits();
      }
      found := Some(());
    }

    method ParseExponent() returns (found: Option<()>)
      requires Ready()
      modifies this
      ensures Did(ExponentEnd(text, old(position)), found)
    {
      if Here('e') || Here('E') {
        position := position + 1;
        if Here('+') || Here('-') { position := position + 1; }
        if !DigitHere() {
          Fail("an exponent must have at least one digit");
          return None;
        }
        SkipDigits();
      }
      found := Some(());
    }
  }

  // ----- Writing -----

  lemma Regroup(a: string, b: string, c: string)
    ensures (a + b) + c == a + (b + c)
  {
  }

  lemma Bracketed(out: string, open: string, body: string, indent: string, closer: string)
    ensures out + open + body + indent + closer == out + (open + body + indent + closer)
  {
  }

  lemma Line(out: string, indent: string, name: string, colon: string, value: string, more: bool)
    ensures (if more then out + indent + name + colon + value + "," else out + indent + name + colon + value) + "\n"
         == out + (indent + name + colon + value + LineEnd(more))
  {
  }

  /** The string being written. */
  class Writer {
    var out: string

    constructor ()
      ensures out == ""
    {
      out := "";
    }

    method Append(s: string)
      modifies this
      ensures out == old(out) + s
    {
      out := out + s;
    }

    method AppendEscaped(text: string)
      modifies this
      ensures out == old(out) + Quoted(text)
    {
      hide EscapedChar;
      Append("\"");
      ghost var start := out;
      assert text[0..] == text;
      for i := 0 to |text|
        invariant out + Escaped(text[i..]) == start + Escaped(text)
      {
        assert text[i..][1..] == text[i + 1..];
        Regroup(out, EscapedChar(text[i]), Escaped(text[i + 1..]));
        Append(EscapedChar(text[i]));
      }
      Append("\"");
      Regroup(old(out), "\"", Escaped(text));
      Regroup(old(out), "\"" + Escaped(text), "\"");
      assert out + "" == out;
    }

    method AppendIndent(depth: nat)
      modifies this
      ensures out == old(out) + Indent(depth)
    {
      for i := 0 to depth
        invariant out == old(out) + Indent(i)
      {
        Append("  ");
      }
    }

    method AppendObject(members: seq<Member>, depth: nat)
      modifies this
      ensures out == old(out) + Printed(Object(members), depth)
      decreases members, 2
    {
      hide Indent, MemberLine;
      if members == [] {
        Append("{}");
        return;
      }
      Append("{\n");
      ghost var start := out;
      assert members[0..] == members;
      for index := 0 to |members|
        invariant out + PrintedMembers(members[index..], depth) == start + PrintedMembers(members, depth)
      {
        assert members[index..][1..] == members[index + 1..];
        Regroup(out, MemberLine(members[index], depth, index + 1 < |members|), PrintedMembers(members[index + 1..], depth));
        AppendMember(members[index], depth, index + 1 < |members|);
      }
      assert out + "" == out;
      AppendIndent(depth);
      Append("}");
      Bracketed(old(out), "{\n", PrintedMembers(members, depth), Indent(depth), "}");
    }

    method AppendMember(member: Member, depth: nat, more: bool)
      modifies this
      ensures out == old(out) + MemberLine(member, depth, more)
      decreases member, 4
    {
      hide Indent, Quoted, Printed;
      AppendIndent(depth + 1);
      AppendEscaped(member.name);
      Append(": ");
      AppendValue(member.value, depth + 1);
      if more { Append(","); }
      Append("\n");
      Line(old(out), Indent(depth + 1), Quoted(member.name), ": ", Printed(member.value, depth + 1), more);
    }

    method AppendArray(elements: seq<Value>, depth: nat)
      modifies this
      ensures out == old(out) + Printed(Array(elements), depth)
      decreases elements, 2
    {
      hide Indent, ElementLine;
      if elements == [] {
        Append("[]");
        return;
      }
      Append("[\n");
      ghost var start := out;
      assert elements[0..] == elements;
      for index := 0 to |elements|
        invariant out + PrintedElements(elements[index..], depth) == start + PrintedElements(elements, depth)
      {
        assert elements[index..][1..] == elements[index + 1..];
        Regroup(out, ElementLine(elements[index], depth, index + 1 < |elements|), PrintedElements(elements[index + 1..], depth));
        AppendElement(elements[index], depth, index + 1 < |elements|);
      }
      assert out + "" == out;
      AppendIndent(depth);
      Append("]");
      Bracketed(old(out), "[\n", PrintedElements(elements, depth), Indent(depth), "]");
    }

    method AppendElement(element: Value, depth: nat, more: bool)
      modifies this
      ensures out == old(out) + ElementLine(element, depth, more)
      decreases element, 4
    {
      hide Indent, Printed;
      AppendIndent(depth + 1);
      AppendValue(element, depth + 1);
      if more { Append(","); }
      Append("\n");
      Line(old(out), Indent(depth + 1), "", "", Printed(element, depth + 1), more);
      assert Indent(depth + 1) + "" + "" == Indent(depth + 1);
    }

    method AppendValue(value: Value, depth: nat)
      modifies this
      ensures out == old(out) + Printed(value, depth)
      decreases value, 3
    {
      match value
      case Null => Append("null");
      case Boolean(truth) => Append(if truth then "true" else "false");
      case Number(lexeme) => Append(lexeme);
      case String(text) => AppendEscaped(text);
      case Array(elements) => AppendArray(elements, depth);
      case Object(members) => AppendObject(members, depth);
    }
  }

  method ParseJson(text: string) returns (found: Option<Value>, error: ParseError)
    ensures match DocumentFrom(text)
            case Ok(value, next) => found == Some(value) && error == NoError
            case Err(message, at) => found == None && error == Failure(message, at)
  {
    var parser := new Parser(text);
    found := parser.ParseDocument();
    error := parser.error;
  }

  method SerialiseJson(value: Value) returns (text: string)
    ensures text == Document(value)
  {
    var writer := new Writer();
    writer.AppendValue(value, 0);
    writer.Append("\n");
    text := writer.out;
  }
}
