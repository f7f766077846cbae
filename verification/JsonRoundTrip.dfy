/**
  Reading back what was written, for every value the reader can produce.

  `IsNumber` is the grammar of section 6 of RFC 8259, read off its productions.
 */
module JsonRoundTrip {
  import opened Json

  // ----- Text at a place -----

  predicate Has(text: string, p: nat, s: string)
  {
    p + |s| <= |text| && text[p..p + |s|] == s
  }

  lemma HasBoth(text: string, p: nat, a: string, b: string)
    ensures Has(text, p, a + b) <==> Has(text, p, a) && Has(text, p + |a|, b)
  {
    if Has(text, p, a + b) {
      assert text[p..p + |a|] == text[p..p + |a + b|][..|a|];
      assert text[p + |a|..p + |a| + |b|] == text[p..p + |a + b|][|a|..];
    }
    if Has(text, p, a) && Has(text, p + |a|, b) {
      assert text[p..p + |a + b|] == text[p..p + |a|] + text[p + |a|..p + |a| + |b|];
    }
  }

  lemma HasAt(text: string, p: nat, s: string)
    requires Has(text, p, s)
    ensures p + |s| <= |text| && text[p..p + |s|] == s
    ensures forall i :: 0 <= i < |s| ==> s[i] == text[p + i]
  {
    forall i | 0 <= i < |s| ensures s[i] == text[p + i] {
      assert text[p..p + |s|][i] == text[p + i];
    }
  }

  lemma HasFirst(text: string, p: nat, s: string)
    requires Has(text, p, s) && s != ""
    ensures p < |text| && text[p] == s[0]
  {
  }

  // ----- Numbers -----

  predicate AllDigits(s: string) { s != "" && forall i :: 0 <= i < |s| ==> IsDigit(s[i]) }

  /** int = zero / ( digit1-9 *DIGIT ) */
  predicate IsInteger(s: string) { s == "0" || (AllDigits(s) && s[0] != '0') }
  /** frac = decimal-point 1*DIGIT */
  predicate IsFraction(s: string) { s != "" && s[0] == '.' && AllDigits(s[1..]) }
  /** exp = e [ minus / plus ] 1*DIGIT */
  predicate IsExponent(s: string)
  {
    && |s| > 1 && (s[0] == 'e' || s[0] == 'E')
    && (AllDigits(s[1..]) || ((s[1] == '-' || s[1] == '+') && AllDigits(s[2..])))
  }

  predicate IsSplit(s: string, minus: string, whole: string, frac: string, exp: string)
  {
    && s == minus + whole + frac + exp
    && (minus == "" || minus == "-") && IsInteger(whole)
    && (frac == "" || IsFraction(frac)) && (exp == "" || IsExponent(exp))
  }

  /** number = [ minus ] int [ frac ] [ exp ] */
  ghost predicate IsNumber(s: string)
  {
    exists minus, whole, frac, exp :: IsSplit(s, minus, whole, frac, exp)
  }

  /** Nothing here that could carry a number on. */
  predicate Ends(text: string, p: nat)
  {
    p >= |text| || text[p] == ',' || text[p] == ']' || text[p] == '}' || IsWhitespace(text[p])
  }

  lemma {:induction false} DigitsRead(text: string, p: nat, s: string)
    requires Has(text, p, s) && (forall i :: 0 <= i < |s| ==> IsDigit(s[i])) && !DigitAt(text, p + |s|)
    ensures Digits(text, p) == p + |s|
    decreases |s|
  {
    if s != "" {
      HasFirst(text, p, s);
      assert s == [s[0]] + s[1..];
      HasBoth(text, p, [s[0]], s[1..]);
      DigitsRead(text, p + 1, s[1..]);
    }
  }

  lemma {:induction false} DigitsAre(text: string, p: nat)
    requires p <= |text|
    ensures forall i :: p <= i < Digits(text, p) ==> IsDigit(text[i])
    decreases |text| - p
  {
    if DigitAt(text, p) { DigitsAre(text, p + 1); }
  }

  lemma IntegerRead(text: string, p: nat, s: string)
    requires Has(text, p, s) && IsInteger(s) && !DigitAt(text, p + |s|)
    ensures DigitAt(text, p) && IntegerEnd(text, p) == p + |s|
  {
    HasFirst(text, p, s);
    if s != "0" { DigitsRead(text, p, s); }
  }

  lemma FractionRead(text: string, p: nat, s: string)
    requires Has(text, p, s) && !DigitAt(text, p + |s|)
    requires IsFraction(s) || (s == "" && !At(text, p, '.'))
    ensures FractionEnd(text, p) == Ok((), p + |s|)
  {
    if s != "" {
      HasFirst(text, p, s);
      assert s == [s[0]] + s[1..];
      HasBoth(text, p, [s[0]], s[1..]);
      HasFirst(text, p + 1, s[1..]);
      DigitsRead(text, p + 1, s[1..]);
    }
  }

  lemma ExponentRead(text: string, p: nat, s: string)
    requires Has(text, p, s) && Ends(text, p + |s|) && (s == "" || IsExponent(s))
    ensures ExponentEnd(text, p) == Ok((), p + |s|)
  {
    hide AllDigits, Has, Digits;
    if s != "" {
      var head := if AllDigits(s[1..]) then 1 else 2;
      assert s == s[..head] + s[head..];
      HasAt(text, p, s);
      assert s[0] == text[p + 0] && s[1] == text[p + 1];
      HasBoth(text, p, s[..head], s[head..]);
      AllDigitsRead(text, p + head, s[head..]);
    }
  }

  lemma AllDigitsRead(text: string, p: nat, s: string)
    requires Has(text, p, s) && AllDigits(s) && !DigitAt(text, p + |s|)
    ensures DigitAt(text, p) && Digits(text, p) == p + |s|
  {
    HasFirst(text, p, s);
    DigitsRead(text, p, s);
  }

  /** A number followed by something that ends it is read whole. */
  lemma NumberRead(text: string, p: nat, s: string)
    requires Has(text, p, s) && IsNumber(s) && Ends(text, p + |s|)
    ensures NumberFrom(text, p) == Ok(Number(s), p + |s|)
    ensures s != "" && (s[0] == '-' || IsDigit(s[0]))
  {
    hide FractionEnd, ExponentEnd, IntegerEnd;
    var minus, whole, frac, exp :| IsSplit(s, minus, whole, frac, exp);
    NumberPartsRead(text, p, s, minus, whole, frac, exp);
  }

  lemma NumberPartsRead(text: string, p: nat, s: string, minus: string, whole: string, frac: string, exp: string)
    requires Has(text, p, s) && Ends(text, p + |s|) && IsSplit(s, minus, whole, frac, exp)
    ensures NumberFrom(text, p) == Ok(Number(s), p + |s|)
    ensures s != "" && (s[0] == '-' || IsDigit(s[0]))
  {
    hide FractionEnd, ExponentEnd, IntegerEnd, Has, IsExponent, IsFraction, IsInteger;
    HasBoth(text, p, minus + whole + frac, exp);
    HasBoth(text, p, minus + whole, frac);
    HasBoth(text, p, minus, whole);
    var q := p + |minus|;
    var f := q + |whole|;
    var e := f + |frac|;
    if exp != "" { StartOf(text, e, exp); }
    if frac != "" { StartOf(text, f, frac); }
    IntegerNotEmpty(whole);
    StartOf(text, q, whole);
    IntegerRead(text, q, whole);
    FractionRead(text, f, frac);
    ExponentRead(text, e, exp);
    HasAt(text, p, s);
    HasAt(text, p, minus);
    assert s[0] == text[p + 0];
    if minus == "-" {
      assert minus[0] == text[p + 0] == '-';
      assert At(text, p, '-');
    }
    assert e + |exp| == p + |s|;
  }

  lemma IntegerNotEmpty(s: string)
    requires IsInteger(s)
    ensures s != "" && IsDigit(s[0])
  {
  }

  lemma StartOf(text: string, p: nat, s: string)
    requires Has(text, p, s) && s != ""
    ensures p < |text| && text[p] == s[0]
    ensures IsFraction(s) ==> text[p] == '.'
    ensures IsExponent(s) ==> text[p] == 'e' || text[p] == 'E'
    ensures IsInteger(s) ==> IsDigit(text[p])
  {
    HasFirst(text, p, s);
  }

  /** What the reader takes for a number is one. */
  lemma NumberIs(text: string, p: nat)
    requires p <= |text| && NumberFrom(text, p).Ok?
    ensures NumberFrom(text, p).value.Number? && IsNumber(NumberFrom(text, p).value.lexeme)
  {
    hide FractionEnd, ExponentEnd, IntegerEnd, IsExponent, IsFraction, IsInteger;
    var q := if At(text, p, '-') then p + 1 else p;
    var i := IntegerEnd(text, q);
    var f := FractionEnd(text, i).next;
    var e := ExponentEnd(text, f).next;
    IntegerIs(text, q);
    FractionIs(text, i);
    ExponentIs(text, f);
    Pieces(text, p, q, i, f, e);
    assert IsSplit(text[p..e], text[p..q], text[q..i], text[i..f], text[f..e]);
  }

  lemma Pieces(text: string, p: nat, q: nat, i: nat, f: nat, e: nat)
    requires p <= q <= i <= f <= e <= |text|
    ensures text[p..e] == text[p..q] + text[q..i] + text[i..f] + text[f..e]
  {
    assert text[p..i] == text[p..q] + text[q..i];
    assert text[p..f] == text[p..i] + text[i..f];
  }

  lemma IntegerIs(text: string, p: nat)
    requires DigitAt(text, p)
    ensures IsInteger(text[p..IntegerEnd(text, p)])
  {
    DigitsAre(text, p);
  }

  lemma FractionIs(text: string, p: nat)
    requires p <= |text| && FractionEnd(text, p).Ok?
    ensures var s := text[p..FractionEnd(text, p).next]; s == "" || IsFraction(s)
  {
    if At(text, p, '.') {
      DigitsAre(text, p + 1);
      var s := text[p..FractionEnd(text, p).next];
      assert s[1..] == text[p + 1..FractionEnd(text, p).next];
    }
  }

  lemma ExponentIs(text: string, p: nat)
    requires p <= |text| && ExponentEnd(text, p).Ok?
    ensures var s := text[p..ExponentEnd(text, p).next]; s == "" || IsExponent(s)
  {
    if At(text, p, 'e') || At(text, p, 'E') {
      var q := if At(text, p + 1, '+') || At(text, p + 1, '-') then p + 2 else p + 1;
      var s := text[p..ExponentEnd(text, p).next];
      DigitsAre(text, q);
      assert s[q - p..] == text[q..ExponentEnd(text, p).next];
    }
  }

  // ----- Strings -----

  lemma {:induction false} EscapedRead(text: string, p: nat, s: string, decoded: string)
    requires Has(text, p, Escaped(s) + "\"")
    ensures StringFrom(text, p, decoded) == Ok(decoded + s, p + |Escaped(s)| + 1)
    decreases |s|
  {
    hide StringFrom, EscapedChar;
    if s == "" {
      HasFirst(text, p, "\"");
      QuoteEnds(text, p, decoded);
      assert decoded + s == decoded;
    } else {
      var one := EscapedChar(s[0]);
      assert Escaped(s) + "\"" == one + (Escaped(s[1..]) + "\"");
      HasBoth(text, p, one, Escaped(s[1..]) + "\"");
      CharRead(text, p, s[0], decoded);
      EscapedRead(text, p + |one|, s[1..], decoded + [s[0]]);
      assert decoded + [s[0]] + s[1..] == decoded + s;
    }
  }

  lemma QuoteEnds(text: string, p: nat, decoded: string)
    requires At(text, p, '"')
    ensures StringFrom(text, p, decoded) == Ok(decoded, p + 1)
  {
  }

  lemma CharRead(text: string, p: nat, c: char, decoded: string)
    requires Has(text, p, EscapedChar(c))
    ensures StringFrom(text, p, decoded) == StringFrom(text, p + |EscapedChar(c)|, decoded + [c])
  {
    hide StringFrom, EscapedChar, Has;
    var e := EscapedChar(c);
    EscapeCases(c);
    HasAt(text, p, e);
    assert e[0] == text[p + 0];
    if |e| == 1 {
      PlainRead(text, p, c, decoded);
    } else if |e| == 2 {
      assert e[1] == text[p + 1];
      PairRead(text, p, e[1], c, decoded);
    } else {
      assert e[1] == text[p + 1] && e[2] == text[p + 2] && e[3] == text[p + 3];
      assert e[4] == text[p + 4] && e[5] == text[p + 5];
      ControlRead(text, p, c, decoded);
    }
  }

  lemma EscapeCases(c: char)
    ensures var e := EscapedChar(c);
            || (|e| == 1 && e[0] == c && c >= ' ' && c != '"' && c != '\\')
            || (|e| == 2 && e[0] == '\\' && e[1] != 'u' && Unescaped(e[1]) == [c])
            || (|e| == 6 && c < ' ' && e[..4] == "\\u00" && e[4] == HexDigit(c as nat / 16) && e[5] == HexDigit(c as nat % 16))
  {
  }

  lemma PlainRead(text: string, p: nat, c: char, decoded: string)
    requires At(text, p, c) && c >= ' ' && c != '"' && c != '\\'
    ensures StringFrom(text, p, decoded) == StringFrom(text, p + 1, decoded + [c])
  {
  }

  lemma PairRead(text: string, p: nat, escape: char, c: char, decoded: string)
    requires At(text, p, '\\') && At(text, p + 1, escape) && escape != 'u' && Unescaped(escape) == [c]
    ensures StringFrom(text, p, decoded) == StringFrom(text, p + 2, decoded + [c])
  {
  }

  /** A control character without a letter of its own, written as \u00xx. */
  lemma ControlRead(text: string, p: nat, c: char, decoded: string)
    requires p + 6 <= |text| && c < ' '
    requires text[p] == '\\' && text[p + 1] == 'u' && text[p + 2] == '0' && text[p + 3] == '0'
    requires text[p + 4] == HexDigit(c as nat / 16) && text[p + 5] == HexDigit(c as nat % 16)
    ensures StringFrom(text, p, decoded) == StringFrom(text, p + 6, decoded + [c])
  {
    HexBack(c as nat / 16);
    HexBack(c as nat % 16);
    assert HexSoFar(text, p + 2, 1) == 0 && HexSoFar(text, p + 2, 2) == 0;
    assert HexSoFar(text, p + 2, 3) == c as int / 16;
    assert HexQuad(text, p + 2) == Ok(c as int, p + 6);
    assert CodePoint(text, p + 2) == Ok(c as int, p + 6);
  }

  lemma HexBack(n: nat)
    requires n < 16
    ensures Hex(HexDigit(n)) == n
  {
  }

  lemma QuotedRead(text: string, p: nat, s: string)
    requires Has(text, p, Quoted(s))
    ensures At(text, p, '"') && StringFrom(text, p + 1, "") == Ok(s, p + |Quoted(s)|)
  {
    assert Quoted(s) == "\"" + (Escaped(s) + "\"");
    HasBoth(text, p, "\"", Escaped(s) + "\"");
    HasFirst(text, p, "\"");
    EscapedRead(text, p + 1, s, "");
    assert "" + s == s;
  }

  // ----- Escaped code points -----

  /** Everything but the surrogates. */
  predicate IsScalar(c: int) { 0 <= c < 0xD800 || 0xE000 <= c < 0x110000 }

  function Quad(n: nat): (s: string)
    requires n < 0x10000
    ensures |s| == 4
  {
    [HexDigit(n / 4096), HexDigit(n / 256 % 16), HexDigit(n / 16 % 16), HexDigit(n % 16)]
  }

  /** A scalar value as it follows \u: one quad, or a surrogate pair (section 7 of RFC 8259). */
  function Utf16Escape(c: nat): (s: string)
    requires IsScalar(c)
  {
    if c < 0x10000 then Quad(c)
    else Quad(0xD800 + (c - 0x10000) / 1024) + "\\u" + Quad(0xDC00 + (c - 0x10000) % 1024)
  }

  lemma QuadRead(text: string, p: nat, n: nat)
    requires n < 0x10000 && Has(text, p, Quad(n))
    ensures HexQuad(text, p) == Ok(n, p + 4)
  {
    HasAt(text, p, Quad(n));
    assert Quad(n)[0] == text[p + 0] && Quad(n)[1] == text[p + 1] && Quad(n)[2] == text[p + 2] && Quad(n)[3] == text[p + 3];
    HexBack(n / 4096);
    HexBack(n / 256 % 16);
    HexBack(n / 16 % 16);
    HexBack(n % 16);
    QuadValue(n);
    hide Quad, Hex, HexDigit, Has;
    assert HexSoFar(text, p, 1) == n / 4096;
    assert HexSoFar(text, p, 2) == n / 256;
    assert HexSoFar(text, p, 3) == n / 16;
  }

  lemma QuadValue(n: nat)
    ensures n / 4096 * 16 + n / 256 % 16 == n / 256
    ensures n / 256 * 16 + n / 16 % 16 == n / 16
    ensures n / 16 * 16 + n % 16 == n
  {
    assert n / 256 / 16 == n / 4096 && n / 16 / 16 == n / 256;
  }

  /** Every scalar value can be written as an escape and is read back. */
  lemma ScalarEscapeRead(text: string, p: nat, c: nat)
    requires IsScalar(c) && Has(text, p, Utf16Escape(c))
    ensures CodePoint(text, p) == Ok(c, p + |Utf16Escape(c)|)
  {
    hide Quad, HexQuad, Has;
    if c < 0x10000 {
      QuadRead(text, p, c);
    } else {
      var high, low := 0xD800 + (c - 0x10000) / 1024, 0xDC00 + (c - 0x10000) % 1024;
      HasBoth(text, p, Quad(high) + "\\u", Quad(low));
      HasBoth(text, p, Quad(high), "\\u");
      HasAt(text, p + 4, "\\u");
      assert "\\u"[0] == text[p + 4 + 0] && "\\u"[1] == text[p + 4 + 1];
      QuadRead(text, p, high);
      QuadRead(text, p + 6, low);
    }
  }

  /** And an escape is never read as half a pair. */
  lemma CodePointIsScalar(text: string, p: nat)
    requires p <= |text| && CodePoint(text, p).Ok?
    ensures IsScalar(CodePoint(text, p).value)
  {
  }

  /** The code point that a UTF-8 sequence spells (section 3 of RFC 3629). */
  function FromUtf8(bytes: string): int
    requires 1 <= |bytes| <= 4
  {
    var lead := bytes[0] as int;
    match |bytes|
    case 1 => lead
    case 2 => (lead - 0xC0) * 64 + (bytes[1] as int - 0x80)
    case 3 => ((lead - 0xE0) * 64 + (bytes[1] as int - 0x80)) * 64 + (bytes[2] as int - 0x80)
    case _ => (((lead - 0xF0) * 64 + (bytes[1] as int - 0x80)) * 64 + (bytes[2] as int - 0x80)) * 64 + (bytes[3] as int - 0x80)
  }

  lemma Utf8Decodes(c: nat)
    requires c < 0x110000
    ensures FromUtf8(Utf8(c)) == c
    ensures forall i :: 0 < i < |Utf8(c)| ==> 0x80 <= Utf8(c)[i] as int < 0xC0
    ensures |Utf8(c)| == (if c < 0x80 then 1 else if c < 0x800 then 2 else if c < 0x10000 then 3 else 4)
  {
    SixBits(c);
    var s := Utf8(c);
    if c < 0x80 {
      assert FromUtf8(s) == c;
    } else if c < 0x800 {
      assert s[0] as int == 0xC0 + c / 64 && s[1] as int == 0x80 + c % 64;
    } else if c < 0x10000 {
      assert s[0] as int == 0xE0 + c / 4096 && s[1] as int == 0x80 + c / 64 % 64 && s[2] as int == 0x80 + c % 64;
    } else {
      assert s[0] as int == 0xF0 + c / 262144 && s[1] as int == 0x80 + c / 4096 % 64;
      assert s[2] as int == 0x80 + c / 64 % 64 && s[3] as int == 0x80 + c % 64;
    }
  }

  lemma SixBits(c: nat)
    ensures c / 262144 * 64 + c / 4096 % 64 == c / 4096
    ensures c / 4096 * 64 + c / 64 % 64 == c / 64
    ensures c / 64 * 64 + c % 64 == c
  {
    assert c / 4096 / 64 == c / 262144 && c / 64 / 64 == c / 4096;
  }

  // ----- Whitespace -----

  lemma {:induction false} IndentSkipped(text: string, p: nat, depth: nat)
    requires Has(text, p, Indent(depth))
    requires p + |Indent(depth)| < |text| && !IsWhitespace(text[p + |Indent(depth)|])
    ensures Skip(text, p) == p + |Indent(depth)|
  {
    AllSpaces(depth);
    HasAt(text, p, Indent(depth));
    forall i | p <= i < p + |Indent(depth)| ensures IsWhitespace(text[i]) {
      assert Indent(depth)[i - p] == text[i];
    }
    SpacesSkipped(text, p, p + |Indent(depth)|);
  }

  lemma {:induction false} AllSpaces(depth: nat)
    ensures forall i :: 0 <= i < |Indent(depth)| ==> Indent(depth)[i] == ' '
  {
    if depth > 0 { AllSpaces(depth - 1); }
  }

  lemma {:induction false} SpacesSkipped(text: string, p: nat, q: nat)
    requires p <= q < |text| && (forall i :: p <= i < q ==> IsWhitespace(text[i])) && !IsWhitespace(text[q])
    ensures Skip(text, p) == q
    decreases q - p
  {
    if p < q { SpacesSkipped(text, p + 1, q); }
  }

  lemma {:induction false} SkipTwice(text: string, p: nat)
    requires p <= |text|
    ensures Skip(text, Skip(text, p)) == Skip(text, p)
  {
  }

  // ----- Values -----

  predicate Distinct(members: seq<Member>)
  {
    forall i, j :: 0 <= i < j < |members| ==> members[i].name != members[j].name
  }

  /** What the reader can produce: numbers by the grammar, distinct names, and
      every node at a depth the reader follows. */
  ghost predicate Valid(v: Value, depth: nat)
    decreases v
  {
    && depth <= MAXIMUM_DEPTH
    && match v
       case Number(s) => IsNumber(s)
       case Array(es) => forall i :: 0 <= i < |es| ==> Valid(es[i], depth + 1)
       case Object(ms) => Distinct(ms) && forall i :: 0 <= i < |ms| ==> Valid(ms[i].value, depth + 1)
       case _ => true
  }

  /** Every value the reader returns is one of those. */
  lemma {:induction false} ValueIsValid(text: string, p: nat, depth: nat)
    requires p <= |text| && ValueFrom(text, p, depth).Ok?
    ensures Valid(ValueFrom(text, p, depth).value, depth)
    decreases |text| - p, 1
  {
    if text[p] == '{' {
      var q := Skip(text, p + 1);
      if !At(text, q, '}') { MembersAreValid(text, q, depth, []); }
    } else if text[p] == '[' {
      var q := Skip(text, p + 1);
      if !At(text, q, ']') { ElementsAreValid(text, q, depth, []); }
    } else if text[p] !in "\"tfn" {
      NumberIs(text, p);
    }
  }

  lemma {:induction false} ElementsAreValid(text: string, p: nat, depth: nat, done: seq<Value>)
    requires p <= |text| && ElementsFrom(text, p, depth, done).Ok? && depth <= MAXIMUM_DEPTH
    requires Valid(Array(done), depth)
    ensures Valid(ElementsFrom(text, p, depth, done).value, depth)
    decreases |text| - p, 2
  {
    var at := Skip(text, p);
    ValueIsValid(text, at, depth + 1);
    var r := ValueFrom(text, at, depth + 1);
    var e := Skip(text, r.next);
    assert Valid(Array(done + [r.value]), depth);
    if text[e] == ',' { ElementsAreValid(text, e + 1, depth, done + [r.value]); }
  }

  lemma {:induction false} MembersAreValid(text: string, p: nat, depth: nat, done: seq<Member>)
    requires p <= |text| && MembersFrom(text, p, depth, done).Ok? && depth <= MAXIMUM_DEPTH
    requires Valid(Object(done), depth)
    ensures Valid(MembersFrom(text, p, depth, done).value, depth)
    decreases |text| - p, 0
  {
    hide Valid, StringFrom, ValueFrom, Skip, Named;
    var name := StringFrom(text, Skip(text, p) + 1, "");
    var at := Skip(text, Skip(text, name.next) + 1);
    ValueIsValid(text, at, depth + 1);
    var r := ValueFrom(text, at, depth + 1);
    var e := Skip(text, r.next);
    var m := Member(name.value, r.value);
    MemberJoins(done, m, depth);
    if text[e] == ',' { MembersAreValid(text, e + 1, depth, done + [m]); }
  }

  lemma MemberJoins(done: seq<Member>, m: Member, depth: nat)
    requires Valid(Object(done), depth) && !Named(done, m.name) && Valid(m.value, depth + 1)
    ensures Valid(Object(done + [m]), depth)
  {
    assert Distinct(done + [m]);
  }

  /** A written value opens with a character that is neither blank nor a closer. */
  lemma PrintedOpens(v: Value, depth: nat)
    requires Valid(v, depth)
    ensures var s := Printed(v, depth); s != "" && !IsWhitespace(s[0]) && s[0] != ']' && s[0] != '}'
  {
    if v.Number? {
      var s := v.lexeme;
      assert s[0..|s|] == s;
      NumberRead(s, 0, s);
    }
  }

  lemma {:induction false} ValueRead(text: string, p: nat, v: Value, depth: nat)
    requires Valid(v, depth) && Has(text, p, Printed(v, depth)) && Ends(text, p + |Printed(v, depth)|)
    ensures ValueFrom(text, p, depth) == Ok(v, p + |Printed(v, depth)|)
    decreases v, 0
  {
    HasAt(text, p, Printed(v, depth));
    match v
    case Number(s) => NumberRead(text, p, s); LeafRead(text, p, v, depth);
    case Array(es) =>
      if es != [] { ArrayRead(text, p, es, depth); } else { EmptyRead(text, p, depth); }
    case Object(ms) =>
      if ms != [] { ObjectRead(text, p, ms, depth); } else { EmptyRead(text, p, depth); }
    case _ => LeafRead(text, p, v, depth);
  }

  lemma LeafRead(text: string, p: nat, v: Value, depth: nat)
    requires Valid(v, depth) && Has(text, p, Printed(v, depth)) && !v.Array? && !v.Object?
    requires v.Number? ==> NumberFrom(text, p) == Ok(v, p + |v.lexeme|) && v.lexeme != "" && (v.lexeme[0] == '-' || IsDigit(v.lexeme[0]))
    ensures ValueFrom(text, p, depth) == Ok(v, p + |Printed(v, depth)|)
  {
    HasAt(text, p, Printed(v, depth));
    if v.String? {
      QuotedRead(text, p, v.text);
    } else if v.Number? {
      assert v.lexeme[0] == text[p + 0];
    } else {
      assert Printed(v, depth)[0] == text[p + 0];
    }
  }

  lemma EmptyRead(text: string, p: nat, depth: nat)
    requires depth <= MAXIMUM_DEPTH
    ensures Has(text, p, "[]") ==> ValueFrom(text, p, depth) == Ok(Array([]), p + 2)
    ensures Has(text, p, "{}") ==> ValueFrom(text, p, depth) == Ok(Object([]), p + 2)
  {
    if Has(text, p, "[]") { HasAt(text, p, "[]"); assert "[]"[0] == text[p + 0] && "[]"[1] == text[p + 1]; }
    if Has(text, p, "{}") { HasAt(text, p, "{}"); assert "{}"[0] == text[p + 0] && "{}"[1] == text[p + 1]; }
  }

  /** The opening line of a written array or object. */
  lemma OpeningRead(text: string, p: nat, bracket: char, rest: string)
    requires Has(text, p, [bracket, '\n'] + rest)
    ensures p + 2 <= |text| && text[p] == bracket && Skip(text, p + 1) == Skip(text, p + 2)
    ensures Has(text, p + 2, rest)
  {
    HasBoth(text, p, [bracket, '\n'], rest);
    HasAt(text, p, [bracket, '\n']);
    assert [bracket, '\n'][0] == text[p + 0] && [bracket, '\n'][1] == text[p + 1];
  }

  lemma {:induction false} ArrayRead(text: string, p: nat, es: seq<Value>, depth: nat)
    requires es != [] && Valid(Array(es), depth) && Has(text, p, Printed(Array(es), depth))
    ensures ValueFrom(text, p, depth) == Ok(Array(es), p + |Printed(Array(es), depth)|)
    decreases es, 2
  {
    hide Valid, Has, Skip, Indent, Ends, LineEnd, ElementsFrom, PrintedElements;
    var tail := Indent(depth) + "]";
    var rest := PrintedElements(es, depth) + tail;
    Opening('[', PrintedElements(es, depth), Indent(depth), "]");
    OpeningRead(text, p, '[', rest);
    ElementValid(es, depth);
    var q := Skip(text, p + 2);
    SkipTwice(text, p + 2);
    FirstElement(text, p + 2, es, depth);
    ElementsRead(text, q, p + 2, es, depth, []);
    assert [] + es == es;
  }

  lemma ElementValid(es: seq<Value>, depth: nat)
    requires Valid(Array(es), depth)
    ensures depth <= MAXIMUM_DEPTH && forall i :: 0 <= i < |es| ==> Valid(es[i], depth + 1)
  {
  }

  lemma Opening(bracket: char, rest: string, indent: string, closer: string)
    ensures [bracket, '\n'] + rest + indent + closer == [bracket, '\n'] + (rest + (indent + closer))
  {
  }

  /** The first element opens with something other than a bracket. */
  lemma FirstElement(text: string, start: nat, es: seq<Value>, depth: nat)
    requires es != [] && Valid(es[0], depth + 1)
    requires Has(text, start, PrintedElements(es, depth) + (Indent(depth) + "]"))
    ensures start <= |text| && !At(text, Skip(text, start), ']')
  {
    hide Valid, Has, Indent, Printed, PrintedElements;
    var a := start + |Indent(depth + 1)|;
    PrintedOpens(es[0], depth + 1);
    EntryParts(text, start, es, depth, Indent(depth) + "]");
    HasFirst(text, a, Printed(es[0], depth + 1));
    IndentSkipped(text, start, depth + 1);
  }

  /** The pieces of the first line of the elements. */
  lemma EntryParts(text: string, p: nat, es: seq<Value>, depth: nat, tail: string)
    requires es != [] && Has(text, p, PrintedElements(es, depth) + tail)
    ensures var a := p + |Indent(depth + 1)|; var b := a + |Printed(es[0], depth + 1)|;
            var c := b + |LineEnd(|es| > 1)|;
            && Has(text, p, Indent(depth + 1)) && Has(text, a, Printed(es[0], depth + 1))
            && Has(text, b, LineEnd(|es| > 1)) && Has(text, c, PrintedElements(es[1..], depth) + tail)
            && c + |PrintedElements(es[1..], depth) + tail| == p + |PrintedElements(es, depth) + tail|
  {
    hide Has, Printed, Indent, LineEnd;
    var one, two, three := Indent(depth + 1), Printed(es[0], depth + 1), LineEnd(|es| > 1);
    HasThree(text, p, one, two, three, PrintedElements(es[1..], depth), tail);
  }

  lemma HasThree(text: string, p: nat, one: string, two: string, three: string, rest: string, tail: string)
    requires Has(text, p, one + two + three + rest + tail)
    ensures Has(text, p, one) && Has(text, p + |one|, two) && Has(text, p + |one| + |two|, three)
    ensures Has(text, p + |one| + |two| + |three|, rest + tail)
  {
    hide Has;
    assert one + two + three + rest + tail == one + two + three + (rest + tail);
    HasBoth(text, p, one + two + three, rest + tail);
    HasBoth(text, p, one + two, three);
    HasBoth(text, p, one, two);
  }

  /** The end of a line: a comma and more to come, or the last one. */
  lemma LineEndRead(text: string, b: nat, more: bool)
    requires Has(text, b, LineEnd(more))
    ensures b < |text| && Ends(text, b)
    ensures more ==> text[b] == ',' && Skip(text, b) == b && b + 2 <= |text| && Skip(text, b + 1) == Skip(text, b + 2)
    ensures !more ==> b + 1 <= |text| && Skip(text, b) == Skip(text, b + 1)
  {
    HasAt(text, b, LineEnd(more));
    assert LineEnd(more)[0] == text[b + 0];
    if more { assert LineEnd(more)[1] == text[b + 1]; }
  }

  lemma {:induction false} ElementsRead(text: string, p: nat, start: nat, es: seq<Value>, depth: nat, done: seq<Value>)
    requires es != [] && (forall i :: 0 <= i < |es| ==> Valid(es[i], depth + 1))
    requires p <= |text| && start <= |text| && Skip(text, p) == Skip(text, start)
    requires Has(text, start, PrintedElements(es, depth) + (Indent(depth) + "]"))
    ensures ElementsFrom(text, p, depth, done)
         == Ok(Array(done + es), start + |PrintedElements(es, depth) + (Indent(depth) + "]")|)
    decreases es, 1
  {
    hide Printed, Valid, Has, Skip, Indent, Ends, LineEnd, ElementsFrom, ValueFrom;
    var tail := Indent(depth) + "]";
    var a := start + |Indent(depth + 1)|;
    var b := a + |Printed(es[0], depth + 1)|;
    EntryParts(text, start, es, depth, tail);
    PrintedOpens(es[0], depth + 1);
    HasFirst(text, a, Printed(es[0], depth + 1));
    IndentSkipped(text, start, depth + 1);
    LineEndRead(text, b, |es| > 1);
    LineEndLength(|es| > 1);
    ValueRead(text, a, es[0], depth + 1);
    ElementsStep(text, p, depth, done, a, es[0], b);
    if |es| > 1 {
      ElementsRead(text, b + 1, b + 2, es[1..], depth, done + [es[0]]);
      assert done + [es[0]] + es[1..] == done + es;
    } else {
      assert PrintedElements(es[1..], depth) + tail == tail;
      CloserRead(text, b + 1, depth, ']');
      assert done + es == done + [es[0]];
    }
  }

  lemma LineEndLength(more: bool)
    ensures |LineEnd(more)| == if more then 2 else 1
  {
  }

  /** One turn of the array loop that finds a value. */
  lemma ElementsStep(text: string, p: nat, depth: nat, done: seq<Value>, a: nat, value: Value, b: nat)
    requires p <= |text| && a <= |text| && b <= |text| && Skip(text, p) == a && ValueFrom(text, a, depth + 1) == Ok(value, b)
    ensures var e := Skip(text, b);
            && (At(text, e, ',') ==> ElementsFrom(text, p, depth, done) == ElementsFrom(text, e + 1, depth, done + [value]))
            && (At(text, e, ']') ==> ElementsFrom(text, p, depth, done) == Ok(Array(done + [value]), e + 1))
  {
    hide ValueFrom, Skip;
  }

  lemma CloserRead(text: string, p: nat, depth: nat, closer: char)
    requires Has(text, p, Indent(depth) + [closer]) && !IsWhitespace(closer)
    ensures Skip(text, p) == p + |Indent(depth)| < |text| && text[p + |Indent(depth)|] == closer
  {
    HasBoth(text, p, Indent(depth), [closer]);
    HasFirst(text, p + |Indent(depth)|, [closer]);
    IndentSkipped(text, p, depth);
  }

  lemma {:induction false} ObjectRead(text: string, p: nat, ms: seq<Member>, depth: nat)
    requires ms != [] && Valid(Object(ms), depth) && Has(text, p, Printed(Object(ms), depth))
    ensures ValueFrom(text, p, depth) == Ok(Object(ms), p + |Printed(Object(ms), depth)|)
    decreases ms, 2
  {
    hide Valid, Has, Skip, Indent, Ends, LineEnd, MembersFrom, PrintedMembers;
    var tail := Indent(depth) + "}";
    var rest := PrintedMembers(ms, depth) + tail;
    Opening('{', PrintedMembers(ms, depth), Indent(depth), "}");
    OpeningRead(text, p, '{', rest);
    MemberValid(ms, depth);
    var q := Skip(text, p + 2);
    SkipTwice(text, p + 2);
    FirstMember(text, p + 2, ms, depth);
    assert [] + ms == ms;
    MembersRead(text, q, p + 2, ms, depth, []);
  }

  lemma MemberValid(ms: seq<Member>, depth: nat)
    requires Valid(Object(ms), depth)
    ensures depth <= MAXIMUM_DEPTH && Distinct(ms) && forall i :: 0 <= i < |ms| ==> Valid(ms[i].value, depth + 1)
  {
  }

  lemma FirstMember(text: string, start: nat, ms: seq<Member>, depth: nat)
    requires ms != [] && Has(text, start, PrintedMembers(ms, depth) + (Indent(depth) + "}"))
    ensures start <= |text| && !At(text, Skip(text, start), '}')
  {
    hide Has, Indent, Quoted, PrintedMembers;
    MemberParts(text, start, ms, depth, Indent(depth) + "}");
    QuotedRead(text, start + |Indent(depth + 1)|, ms[0].name);
    IndentSkipped(text, start, depth + 1);
  }

  /** The pieces of the first line of the members. */
  lemma MemberParts(text: string, p: nat, ms: seq<Member>, depth: nat, tail: string)
    requires ms != [] && Has(text, p, PrintedMembers(ms, depth) + tail)
    ensures var a := p + |Indent(depth + 1)|; var c := a + |Quoted(ms[0].name)|;
            var b := c + 2 + |Printed(ms[0].value, depth + 1)|; var e := b + |LineEnd(|ms| > 1)|;
            && Has(text, p, Indent(depth + 1)) && Has(text, a, Quoted(ms[0].name)) && Has(text, c, ": ")
            && Has(text, c + 2, Printed(ms[0].value, depth + 1))
            && Has(text, b, LineEnd(|ms| > 1)) && Has(text, e, PrintedMembers(ms[1..], depth) + tail)
            && e + |PrintedMembers(ms[1..], depth) + tail| == p + |PrintedMembers(ms, depth) + tail|
  {
    hide Has, Printed, Quoted, Indent, LineEnd;
    var one, two, colon, three := Indent(depth + 1), Quoted(ms[0].name), ": ", Printed(ms[0].value, depth + 1);
    var four := LineEnd(|ms| > 1);
    HasThree(text, p, one + two + colon, three, four, PrintedMembers(ms[1..], depth), tail);
    HasBoth(text, p, one + two, colon);
    HasBoth(text, p, one, two);
  }

  lemma ColonRead(text: string, c: nat)
    requires Has(text, c, ": ") && c + 2 < |text| && !IsWhitespace(text[c + 2])
    ensures Skip(text, c) == c && text[c] == ':' && Skip(text, c + 1) == c + 2
  {
    HasAt(text, c, ": ");
    assert ": "[0] == text[c + 0] && ": "[1] == text[c + 1];
  }

  lemma {:induction false} MembersRead(text: string, p: nat, start: nat, ms: seq<Member>, depth: nat, done: seq<Member>)
    requires ms != [] && (forall i :: 0 <= i < |ms| ==> Valid(ms[i].value, depth + 1)) && Distinct(done + ms)
    requires p <= |text| && start <= |text| && Skip(text, p) == Skip(text, start)
    requires Has(text, start, PrintedMembers(ms, depth) + (Indent(depth) + "}"))
    ensures MembersFrom(text, p, depth, done)
         == Ok(Object(done + ms), start + |PrintedMembers(ms, depth) + (Indent(depth) + "}")|)
    decreases ms, 1
  {
    hide Printed, Valid, Quoted, Has, Skip, Indent, Ends, LineEnd, MembersFrom, ValueFrom, StringFrom, Named, Distinct,
         PrintedMembers, MemberLine;
    var tail := Indent(depth) + "}";
    var a := start + |Indent(depth + 1)|;
    var c := a + |Quoted(ms[0].name)|;
    var b := c + 2 + |Printed(ms[0].value, depth + 1)|;
    MemberParts(text, start, ms, depth, tail);
    QuotedRead(text, a, ms[0].name);
    IndentSkipped(text, start, depth + 1);
    NotNamed(done, ms);
    PrintedOpens(ms[0].value, depth + 1);
    HasFirst(text, c + 2, Printed(ms[0].value, depth + 1));
    ColonRead(text, c);
    LineEndRead(text, b, |ms| > 1);
    LineEndLength(|ms| > 1);
    ValueRead(text, c + 2, ms[0].value, depth + 1);
    MembersStep(text, p, depth, done, a, ms[0], c, b);
    assert done + [ms[0]] + ms[1..] == done + ms;
    if |ms| > 1 {
      MembersRead(text, b + 1, b + 2, ms[1..], depth, done + [ms[0]]);
    } else {
      NoneLeft(depth, tail);
      assert ms[1..] == [];
      CloserRead(text, b + 1, depth, '}');
      assert done + ms == done + [ms[0]];
    }
  }

  /** One turn of the object loop that finds a new name and its value. */
  lemma MembersStep(text: string, p: nat, depth: nat, done: seq<Member>, a: nat, m: Member, c: nat, b: nat)
    requires p <= |text| && c + 2 <= |text| && b <= |text| && Skip(text, p) == a && At(text, a, '"')
    requires StringFrom(text, a + 1, "") == Ok(m.name, c) && !Named(done, m.name)
    requires Skip(text, c) == c && At(text, c, ':') && Skip(text, c + 1) == c + 2
    requires ValueFrom(text, c + 2, depth + 1) == Ok(m.value, b)
    ensures var e := Skip(text, b);
            && (At(text, e, ',') ==> MembersFrom(text, p, depth, done) == MembersFrom(text, e + 1, depth, done + [m]))
            && (At(text, e, '}') ==> MembersFrom(text, p, depth, done) == Ok(Object(done + [m]), e + 1))
  {
    hide ValueFrom, StringFrom, Named, Skip;
  }

  lemma NoneLeft(depth: nat, tail: string)
    ensures PrintedMembers([], depth) + tail == tail && PrintedElements([], depth) + tail == tail
  {
  }

  lemma NotNamed(done: seq<Member>, ms: seq<Member>)
    requires ms != [] && Distinct(done + ms)
    ensures !Named(done, ms[0].name)
  {
    assert (done + ms)[|done|] == ms[0];
    assert forall i :: 0 <= i < |done| ==> (done + ms)[i] == done[i];
  }

  // ----- Documents -----

  /** Writing and reading back is exact on precisely the values the reader accepts. */
  lemma RoundTrip(v: Value)
    ensures Valid(v, 0) <==> DocumentFrom(Document(v)) == Ok(v, |Document(v)|)
  {
    var text := Document(v);
    if Valid(v, 0) {
      var body := Printed(v, 0);
      HasWhole(text);
      HasBoth(text, 0, body, "\n");
      HasFirst(text, |body|, "\n");
      PrintedOpens(v, 0);
      HasFirst(text, 0, body);
      ValueRead(text, 0, v, 0);
    }
    if DocumentFrom(text) == Ok(v, |text|) { ValueIsValid(text, Skip(text, 0), 0); }
  }

  lemma HasWhole(text: string)
    ensures Has(text, 0, text)
  {
    assert text[0..|text|] == text;
  }

  /** Whatever was read can be written and read again. */
  lemma ParsePrintParse(text: string)
    requires DocumentFrom(text).Ok?
    ensures var v := DocumentFrom(text).value; DocumentFrom(Document(v)) == Ok(v, |Document(v)|)
  {
    ValueIsValid(text, Skip(text, 0), 0);
    RoundTrip(DocumentFrom(text).value);
  }
}
