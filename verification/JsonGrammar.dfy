/**
  The reader against the grammar of RFC 8259: which texts are accepted, and what
  each of them means.

  `Spells` is the grammar, production by production, with the value a text stands
  for.  It looks at both ends of a stretch of text and says nothing of how a reader
  gets from one to the other.
 */
module JsonGrammar {
  import opened Json
  import opened JsonRoundTrip

  // ----- The grammar -----

  /** ws */
  predicate Space(text: string, p: nat, q: nat)
  {
    p <= q <= |text| && forall i :: p <= i < q ==> IsWhitespace(text[i])
  }

  /** \u and four hex digits, or two of these that are a surrogate pair (section 7 of
      RFC 8259).  Half a pair, which the productions would let pass, is no character. */
  predicate Escape(text: string, p: nat, q: nat, bytes: string)
    requires p + 6 <= q <= |text|
  {
    var first := HexSoFar(text, p + 2, 4);
    || (q == p + 6 && IsScalar(first) && bytes == Utf8(first))
    || (q == p + 12 && text[p + 6] == '\\' && text[p + 7] == 'u'
        && var second := HexSoFar(text, p + 8, 4);
           0xD800 <= first < 0xDC00 && 0xDC00 <= second < 0xE000
           && bytes == Utf8(0x10000 + (first - 0xD800) * 1024 + (second - 0xDC00)))
  }

  /** char: one that is written as it is, one of the short escapes, or a code point. */
  predicate Char(text: string, p: nat, q: nat, bytes: string)
  {
    && p < q <= |text|
    && if text[p] != '\\' then q == p + 1 && text[p] >= ' ' && text[p] != '"' && bytes == [text[p]]
       else if q == p + 2 then text[p + 1] != 'u' && Unescaped(text[p + 1]) == bytes != ""
       else p + 6 <= q && text[p + 1] == 'u' && Escape(text, p, q, bytes)
  }

  /** *char */
  ghost predicate Chars(text: string, p: nat, q: nat, s: string)
    decreases q - p
  {
    && p <= q <= |text|
    && if p == q then s == ""
       else exists m: nat, bytes: string ::
              p < m <= q && Char(text, p, m, bytes) && bytes <= s && Chars(text, m, q, s[|bytes|..])
  }

  /** string = quotation-mark *char quotation-mark */
  ghost predicate Quotes(text: string, p: nat, q: nat, s: string)
  {
    p + 2 <= q <= |text| && text[p] == '"' && text[q - 1] == '"' && Chars(text, p + 1, q - 1, s)
  }

  /** value */
  ghost predicate Spells(text: string, p: nat, q: nat, v: Value)
    decreases v, 0
  {
    && p <= q <= |text|
    && match v
       case Null => text[p..q] == "null"
       case Boolean(truth) => text[p..q] == if truth then "true" else "false"
       case Number(s) => text[p..q] == s && IsNumber(s)
       case String(s) => Quotes(text, p, q, s)
       case Array(es) =>
         && p + 2 <= q && text[p] == '[' && text[q - 1] == ']'
         && if es == [] then Space(text, p + 1, q - 1) else Elements(text, p + 1, q - 1, es)
       case Object(ms) =>
         && p + 2 <= q && text[p] == '{' && text[q - 1] == '}'
         && if ms == [] then Space(text, p + 1, q - 1) else Members(text, p + 1, q - 1, ms)
  }

  /** ws value ws */
  ghost predicate Element(text: string, p: nat, q: nat, v: Value)
    decreases v, 1
  {
    exists a: nat, b: nat :: Space(text, p, a) && Spells(text, a, b, v) && Space(text, b, q)
  }

  /** value *( value-separator value ) */
  ghost predicate Elements(text: string, p: nat, q: nat, es: seq<Value>)
    requires es != []
    decreases es
  {
    exists e: nat ::
      && p <= e <= q <= |text| && Element(text, p, e, es[0])
      && if |es| == 1 then e == q else e < q && text[e] == ',' && Elements(text, e + 1, q, es[1..])
  }

  /** member = string name-separator value */
  ghost predicate Pair(text: string, p: nat, q: nat, m: Member)
    decreases m, 1
  {
    exists a: nat, n: nat, c: nat ::
      Space(text, p, a) && Quotes(text, a, n, m.name) && Space(text, n, c) && At(text, c, ':') && Element(text, c + 1, q, m.value)
  }

  /** member *( value-separator member ) */
  ghost predicate Members(text: string, p: nat, q: nat, ms: seq<Member>)
    requires ms != []
    decreases ms
  {
    exists e: nat ::
      && p <= e <= q <= |text| && Pair(text, p, e, ms[0])
      && if |ms| == 1 then e == q else e < q && text[e] == ',' && Members(text, e + 1, q, ms[1..])
  }

  /** JSON-text = ws value ws */
  ghost predicate IsDocument(text: string, v: Value) { Element(text, 0, |text|, v) }

  // ----- Whitespace -----

  lemma SpaceSkipped(text: string, p: nat, q: nat)
    requires Space(text, p, q) && (q < |text| ==> !IsWhitespace(text[q]))
    ensures p <= |text| && Skip(text, p) == q
    decreases q - p
  {
    if p < q { SpaceSkipped(text, p + 1, q); }
  }

  lemma {:induction false} SkipIsSpace(text: string, p: nat)
    requires p <= |text|
    ensures Space(text, p, Skip(text, p))
    decreases |text| - p
  {
    if p < |text| && IsWhitespace(text[p]) { SkipIsSpace(text, p + 1); }
  }

  lemma SpaceJoins(text: string, p: nat, q: nat, r: nat)
    requires Space(text, p, q) && Space(text, q, r)
    ensures Space(text, p, r)
  {
  }

  // ----- Strings -----

  lemma CharRead(text: string, p: nat, q: nat, bytes: string, decoded: string)
    requires Char(text, p, q, bytes)
    ensures StringFrom(text, p, decoded) == StringFrom(text, q, decoded + bytes)
  {
    hide Escape, CodePoint;
    if text[p] == '\\' && q != p + 2 { EscapeRead(text, p, q, bytes); }
  }

  lemma EscapeRead(text: string, p: nat, q: nat, bytes: string)
    requires p + 6 <= q <= |text| && Escape(text, p, q, bytes)
    ensures CodePoint(text, p + 2).Ok? && CodePoint(text, p + 2).next == q && Utf8(CodePoint(text, p + 2).value) == bytes
  {
    hide HexSoFar, Utf8;
  }

  lemma {:induction false} CharsRead(text: string, p: nat, q: nat, s: string, decoded: string)
    requires Chars(text, p, q, s) && At(text, q, '"')
    ensures StringFrom(text, p, decoded) == Ok(decoded + s, q + 1)
    decreases q - p
  {
    hide StringFrom, Char;
    if p == q {
      QuoteEnds(text, p, decoded);
      assert decoded + s == decoded;
    } else {
      var m: nat, bytes: string :| p < m <= q && Char(text, p, m, bytes) && bytes <= s && Chars(text, m, q, s[|bytes|..]);
      CharRead(text, p, m, bytes, decoded);
      CharsRead(text, m, q, s[|bytes|..], decoded + bytes);
      assert decoded + bytes + s[|bytes|..] == decoded + s;
    }
  }

  /** One turn of the string loop. */
  lemma CharIs(text: string, p: nat, decoded: string) returns (q: nat, bytes: string)
    requires p <= |text| && StringFrom(text, p, decoded).Ok? && !At(text, p, '"')
    ensures Char(text, p, q, bytes) && StringFrom(text, p, decoded) == StringFrom(text, q, decoded + bytes)
  {
    hide HexSoFar;
    if text[p] != '\\' { q, bytes := p + 1, [text[p]]; }
    else if text[p + 1] != 'u' { q, bytes := p + 2, Unescaped(text[p + 1]); }
    else { q, bytes := CodePoint(text, p + 2).next, Utf8(CodePoint(text, p + 2).value); }
  }

  lemma {:induction false} CharsAre(text: string, p: nat, decoded: string)
    requires p <= |text| && StringFrom(text, p, decoded).Ok?
    ensures var r := StringFrom(text, p, decoded);
            && decoded <= r.value && p < r.next <= |text| && text[r.next - 1] == '"'
            && Chars(text, p, r.next - 1, r.value[|decoded|..])
    decreases |text| - p
  {
    hide StringFrom, Char;
    var r := StringFrom(text, p, decoded);
    if At(text, p, '"') {
      QuoteEnds(text, p, decoded);
    } else {
      var q, bytes := CharIs(text, p, decoded);
      CharMoves(text, p, q, bytes);
      CharsAre(text, q, decoded + bytes);
      assert r.value[|decoded|..][|bytes|..] == r.value[|decoded + bytes|..];
      assert bytes == (decoded + bytes)[|decoded|..] <= r.value[|decoded|..];
    }
  }

  lemma CharMoves(text: string, p: nat, q: nat, bytes: string)
    requires Char(text, p, q, bytes)
    ensures p < q <= |text|
  {
  }

  // ----- What the grammar derives is read -----

  /** A value opens with neither a blank nor anything that closes or separates. */
  lemma SpellsOpens(text: string, p: nat, q: nat, v: Value)
    requires Spells(text, p, q, v)
    ensures p < q <= |text| && !IsWhitespace(text[p]) && text[p] != ']' && text[p] != '}' && text[p] != ','
  {
    match v
    case Number(s) =>
      assert Has(text, p, s);
      assert s[0..|s|] == s;
      NumberRead(s, 0, s);
    case Null => assert text[p..q][0] == text[p];
    case Boolean(_) => assert text[p..q][0] == text[p];
    case _ =>
  }

  lemma {:induction false} SpellsRead(text: string, p: nat, q: nat, v: Value, depth: nat)
    requires Spells(text, p, q, v) && Valid(v, depth) && Ends(text, q)
    ensures ValueFrom(text, p, depth) == Ok(v, q)
    decreases v, 0
  {
    match v
    case Array(es) => ArraySpelled(text, p, q, es, depth);
    case Object(ms) => ObjectSpelled(text, p, q, ms, depth);
    case _ => LeafSpelled(text, p, q, v, depth);
  }

  lemma LeafSpelled(text: string, p: nat, q: nat, v: Value, depth: nat)
    requires Spells(text, p, q, v) && Valid(v, depth) && Ends(text, q) && !v.Array? && !v.Object?
    ensures ValueFrom(text, p, depth) == Ok(v, q)
  {
    hide StringFrom, NumberFrom, Chars;
    match v
    case Null => assert text[p..q][0] == text[p];
    case Boolean(_) => assert text[p..q][0] == text[p];
    case Number(s) => NumberRead(text, p, s); HasFirst(text, p, s);
    case String(s) => CharsRead(text, p + 1, q - 1, s, ""); assert "" + s == s;
  }

  lemma {:induction false} ArraySpelled(text: string, p: nat, q: nat, es: seq<Value>, depth: nat)
    requires Spells(text, p, q, Array(es)) && Valid(Array(es), depth)
    ensures ValueFrom(text, p, depth) == Ok(Array(es), q)
    decreases es, 2
  {
    hide Elements, ElementsFrom, Skip;
    if es == [] {
      SpaceSkipped(text, p + 1, q - 1);
    } else {
      var at := Skip(text, p + 1);
      SkipTwice(text, p + 1);
      ElementsOpen(text, p + 1, q - 1, es);
      ElementsSpelled(text, at, p + 1, q - 1, es, depth, []);
      assert [] + es == es;
    }
  }

  lemma ElementsOpen(text: string, p: nat, q: nat, es: seq<Value>)
    requires es != [] && Elements(text, p, q, es)
    ensures p <= |text| && !At(text, Skip(text, p), ']')
  {
    hide Spells, Skip;
    var e: nat :| p <= e <= q <= |text| && Element(text, p, e, es[0]);
    var a: nat, b: nat :| Space(text, p, a) && Spells(text, a, b, es[0]) && Space(text, b, e);
    SpellsOpens(text, a, b, es[0]);
    SpaceSkipped(text, p, a);
  }

  lemma {:induction false} ElementsSpelled(text: string, from: nat, p: nat, q: nat, es: seq<Value>, depth: nat, done: seq<Value>)
    requires es != [] && Elements(text, p, q, es) && At(text, q, ']')
    requires forall i :: 0 <= i < |es| ==> Valid(es[i], depth + 1)
    requires from <= |text| && p <= |text| && Skip(text, from) == Skip(text, p)
    ensures ElementsFrom(text, from, depth, done) == Ok(Array(done + es), q + 1)
    decreases es, 1
  {
    hide Spells, Valid, Skip, ElementsFrom, ValueFrom;
    var e: nat :| p <= e <= q <= |text| && Element(text, p, e, es[0])
                  && if |es| == 1 then e == q else e < q && text[e] == ',' && Elements(text, e + 1, q, es[1..]);
    var a, b := ElementSpelled(text, p, e, es[0], depth);
    ElementsStep(text, from, depth, done, a, es[0], b);
    if |es| > 1 {
      ElementsSpelled(text, e + 1, e + 1, q, es[1..], depth, done + [es[0]]);
      assert done + [es[0]] + es[1..] == done + es;
    } else {
      assert done + es == done + [es[0]];
    }
  }

  /** A value with blanks around it, up to a separator or a closer. */
  lemma {:induction false} ElementSpelled(text: string, p: nat, e: nat, v: Value, depth: nat) returns (a: nat, b: nat)
    requires Element(text, p, e, v) && Valid(v, depth + 1)
    requires p <= |text| && (e < |text| ==> text[e] == ',' || text[e] == ']' || text[e] == '}')
    ensures Skip(text, p) == a <= |text| && ValueFrom(text, a, depth + 1) == Ok(v, b) && b <= |text| && Skip(text, b) == e
    decreases v, 1
  {
    hide Spells, Valid, Skip, ValueFrom;
    a, b :| Space(text, p, a) && Spells(text, a, b, v) && Space(text, b, e);
    SpellsOpens(text, a, b, v);
    SpaceSkipped(text, p, a);
    SpaceSkipped(text, b, e);
    SpellsRead(text, a, b, v, depth + 1);
  }

  lemma {:induction false} ObjectSpelled(text: string, p: nat, q: nat, ms: seq<Member>, depth: nat)
    requires Spells(text, p, q, Object(ms)) && Valid(Object(ms), depth)
    ensures ValueFrom(text, p, depth) == Ok(Object(ms), q)
    decreases ms, 2
  {
    hide Members, MembersFrom, Skip;
    if ms == [] {
      SpaceSkipped(text, p + 1, q - 1);
    } else {
      var at := Skip(text, p + 1);
      SkipTwice(text, p + 1);
      MembersOpen(text, p + 1, q - 1, ms);
      assert [] + ms == ms;
      MembersSpelled(text, at, p + 1, q - 1, ms, depth, []);
    }
  }

  lemma MembersOpen(text: string, p: nat, q: nat, ms: seq<Member>)
    requires ms != [] && Members(text, p, q, ms)
    ensures p <= |text| && At(text, Skip(text, p), '"')
  {
    hide Element, Chars, Skip;
    var e: nat :| p <= e <= q <= |text| && Pair(text, p, e, ms[0]);
    var a: nat, n: nat, c: nat :| Space(text, p, a) && Quotes(text, a, n, ms[0].name) && Space(text, n, c) && At(text, c, ':');
    SpaceSkipped(text, p, a);
  }

  lemma {:induction false} MembersSpelled(text: string, from: nat, p: nat, q: nat, ms: seq<Member>, depth: nat, done: seq<Member>)
    requires ms != [] && Members(text, p, q, ms) && At(text, q, '}') && Distinct(done + ms)
    requires forall i :: 0 <= i < |ms| ==> Valid(ms[i].value, depth + 1)
    requires from <= |text| && p <= |text| && Skip(text, from) == Skip(text, p)
    ensures MembersFrom(text, from, depth, done) == Ok(Object(done + ms), q + 1)
    decreases ms, 1
  {
    hide Valid, Skip, MembersFrom, ValueFrom, StringFrom, Element, Pair, Named, Distinct;
    var m := ms[0];
    var e: nat :| p <= e <= q <= |text| && Pair(text, p, e, m)
                  && if |ms| == 1 then e == q else e < q && text[e] == ',' && Members(text, e + 1, q, ms[1..]);
    var a, n, c, d, b := PairSpelled(text, p, e, m, depth);
    NotNamed(done, ms);
    MembersTurn(text, from, depth, done, a, n, c, d, m, b);
    assert done + [m] + ms[1..] == done + ms;
    if |ms| > 1 {
      MembersSpelled(text, e + 1, e + 1, q, ms[1..], depth, done + [m]);
    } else {
      assert done + ms == done + [m];
    }
  }

  lemma {:induction false} PairSpelled(text: string, p: nat, e: nat, m: Member, depth: nat)
    returns (a: nat, n: nat, c: nat, d: nat, b: nat)
    requires Pair(text, p, e, m) && Valid(m.value, depth + 1)
    requires p <= |text| && (e < |text| ==> text[e] == ',' || text[e] == ']' || text[e] == '}')
    ensures Skip(text, p) == a && At(text, a, '"') && StringFrom(text, a + 1, "") == Ok(m.name, n) && n <= |text|
    ensures Skip(text, n) == c && At(text, c, ':') && Skip(text, c + 1) == d <= |text|
    ensures ValueFrom(text, d, depth + 1) == Ok(m.value, b) && b <= |text| && Skip(text, b) == e
    decreases m, 1
  {
    hide Valid, Skip, ValueFrom, StringFrom, Element, Chars;
    a, n, c :| Space(text, p, a) && Quotes(text, a, n, m.name) && Space(text, n, c) && At(text, c, ':') && Element(text, c + 1, e, m.value);
    SpaceSkipped(text, p, a);
    CharsRead(text, a + 1, n - 1, m.name, "");
    assert "" + m.name == m.name;
    SpaceSkipped(text, n, c);
    d, b := ElementSpelled(text, c + 1, e, m.value, depth);
  }

  /** One turn of the object loop that finds a new name and its value. */
  lemma MembersTurn(text: string, p: nat, depth: nat, done: seq<Member>, a: nat, n: nat, c: nat, d: nat, m: Member, b: nat)
    requires p <= |text| && n <= |text| && d <= |text| && b <= |text|
    requires Skip(text, p) == a && At(text, a, '"') && StringFrom(text, a + 1, "") == Ok(m.name, n) && !Named(done, m.name)
    requires Skip(text, n) == c && At(text, c, ':') && Skip(text, c + 1) == d
    requires ValueFrom(text, d, depth + 1) == Ok(m.value, b)
    ensures var e := Skip(text, b);
            && (At(text, e, ',') ==> MembersFrom(text, p, depth, done) == MembersFrom(text, e + 1, depth, done + [m]))
            && (At(text, e, '}') ==> MembersFrom(text, p, depth, done) == Ok(Object(done + [m]), e + 1))
  {
    hide ValueFrom, StringFrom, Named, Skip;
  }

  // ----- What is read is derived -----

  lemma {:induction false} ReadSpells(text: string, p: nat, depth: nat)
    requires p <= |text| && ValueFrom(text, p, depth).Ok?
    ensures var r := ValueFrom(text, p, depth); Spells(text, p, r.next, r.value)
    decreases |text| - p, 1
  {
    hide Elements, Members, Skip, StringFrom, NumberFrom, ElementsFrom, MembersFrom, Chars;
    if text[p] == '{' {
      var q := Skip(text, p + 1);
      SkipIsSpace(text, p + 1);
      if !At(text, q, '}') {
        ReadMembers(text, q, depth, []);
        MembersEarlier(text, p + 1, q, MembersFrom(text, q, depth, []).next - 1, MembersFrom(text, q, depth, []).value.members);
      }
    } else if text[p] == '[' {
      var q := Skip(text, p + 1);
      SkipIsSpace(text, p + 1);
      if !At(text, q, ']') {
        ReadElements(text, q, depth, []);
        ElementsEarlier(text, p + 1, q, ElementsFrom(text, q, depth, []).next - 1, ElementsFrom(text, q, depth, []).value.elements);
      }
    } else {
      ReadLeaf(text, p, depth);
    }
  }

  lemma ReadLeaf(text: string, p: nat, depth: nat)
    requires p <= |text| && ValueFrom(text, p, depth).Ok? && text[p] != '{' && text[p] != '['
    ensures var r := ValueFrom(text, p, depth); Spells(text, p, r.next, r.value)
  {
    hide StringFrom, NumberFrom, Chars;
    if text[p] == '"' {
      CharsAre(text, p + 1, "");
    } else if text[p] !in "tfn" {
      NumberIs(text, p);
      NumberWhole(text, p);
    }
  }

  lemma NumberWhole(text: string, p: nat)
    requires p <= |text| && NumberFrom(text, p).Ok?
    ensures var r := NumberFrom(text, p); r.value == Number(text[p..r.next])
  {
  }

  lemma ElementsEarlier(text: string, p: nat, at: nat, q: nat, es: seq<Value>)
    requires es != [] && Space(text, p, at) && Elements(text, at, q, es)
    ensures Elements(text, p, q, es)
  {
    hide Spells;
    var e: nat :| at <= e <= q <= |text| && Element(text, at, e, es[0])
                  && if |es| == 1 then e == q else e < q && text[e] == ',' && Elements(text, e + 1, q, es[1..]);
    var a: nat, b: nat :| Space(text, at, a) && Spells(text, a, b, es[0]) && Space(text, b, e);
    SpaceJoins(text, p, at, a);
    assert Element(text, p, e, es[0]);
  }

  lemma MembersEarlier(text: string, p: nat, at: nat, q: nat, ms: seq<Member>)
    requires ms != [] && Space(text, p, at) && Members(text, at, q, ms)
    ensures Members(text, p, q, ms)
  {
    hide Element, Chars;
    var e: nat :| at <= e <= q <= |text| && Pair(text, at, e, ms[0])
                  && if |ms| == 1 then e == q else e < q && text[e] == ',' && Members(text, e + 1, q, ms[1..]);
    var a: nat, n: nat, c: nat :|
      Space(text, at, a) && Quotes(text, a, n, ms[0].name) && Space(text, n, c) && At(text, c, ':') && Element(text, c + 1, e, ms[0].value);
    SpaceJoins(text, p, at, a);
    assert Pair(text, p, e, ms[0]);
  }

  lemma {:induction false} ReadElements(text: string, p: nat, depth: nat, done: seq<Value>)
    requires p <= |text| && ElementsFrom(text, p, depth, done).Ok?
    ensures var r := ElementsFrom(text, p, depth, done);
            && r.value.Array? && done < r.value.elements && p < r.next <= |text| && text[r.next - 1] == ']'
            && Elements(text, p, r.next - 1, r.value.elements[|done|..])
    decreases |text| - p, 2
  {
    hide Spells, Skip, ValueFrom;
    var a := Skip(text, p);
    var r := ValueFrom(text, a, depth + 1);
    ReadSpells(text, a, depth + 1);
    SkipIsSpace(text, p);
    SkipIsSpace(text, r.next);
    var e := Skip(text, r.next);
    assert Element(text, p, e, r.value);
    var all := ElementsFrom(text, p, depth, done);
    if text[e] == ',' {
      ReadElements(text, e + 1, depth, done + [r.value]);
      Tail(all.value.elements, done, r.value);
    } else {
      assert (done + [r.value])[|done|..] == [r.value];
    }
  }

  lemma Tail<T>(all: seq<T>, done: seq<T>, x: T)
    requires done + [x] < all
    ensures done < all && all[|done|..] == [x] + all[|done + [x]|..] && |all| > |done| + 1
  {
    assert all == (done + [x]) + all[|done + [x]|..];
  }

  lemma {:induction false} ReadMembers(text: string, p: nat, depth: nat, done: seq<Member>)
    requires p <= |text| && MembersFrom(text, p, depth, done).Ok?
    ensures var r := MembersFrom(text, p, depth, done);
            && r.value.Object? && done < r.value.members && p < r.next <= |text| && text[r.next - 1] == '}'
            && Members(text, p, r.next - 1, r.value.members[|done|..])
    decreases |text| - p, 0, 1
  {
    hide Spells, Skip, ValueFrom, StringFrom, Element, Pair, Named, MembersFrom;
    var m, e := ReadPair(text, p, depth, done);
    var all := MembersFrom(text, p, depth, done);
    if text[e] == ',' {
      ReadMembers(text, e + 1, depth, done + [m]);
      Tail(all.value.members, done, m);
    } else {
      assert (done + [m])[|done|..] == [m];
    }
  }

  /** The member one turn of the object loop reads, up to where it ends or goes on. */
  lemma {:induction false} ReadPair(text: string, p: nat, depth: nat, done: seq<Member>) returns (m: Member, e: nat)
    requires p <= |text| && MembersFrom(text, p, depth, done).Ok?
    ensures p < e < |text| && Pair(text, p, e, m)
    ensures if text[e] == ',' then MembersFrom(text, p, depth, done) == MembersFrom(text, e + 1, depth, done + [m])
            else text[e] == '}' && MembersFrom(text, p, depth, done) == Ok(Object(done + [m]), e + 1)
    decreases |text| - p, 0, 0
  {
    hide Spells, Skip, ValueFrom, StringFrom, Chars, Named;
    var a := Skip(text, p);
    SkipIsSpace(text, p);
    var name := StringFrom(text, a + 1, "");
    CharsAre(text, a + 1, "");
    var c := Skip(text, name.next);
    SkipIsSpace(text, name.next);
    var d := Skip(text, c + 1);
    SkipIsSpace(text, c + 1);
    ReadSpells(text, d, depth + 1);
    var r := ValueFrom(text, d, depth + 1);
    e := Skip(text, r.next);
    SkipIsSpace(text, r.next);
    m := Member(name.value, r.value);
    assert name.value[|""|..] == name.value;
    assert Element(text, c + 1, e, m.value);
  }

  // ----- Documents -----

  /** The reader accepts a text as a value exactly when the grammar derives the value
      from it, no object in it repeats a name and nothing is nested too deeply. */
  lemma AcceptsExactly(text: string, v: Value)
    ensures DocumentFrom(text) == Ok(v, |text|) <==> IsDocument(text, v) && Valid(v, 0)
  {
    hide Spells, Valid, Skip, ValueFrom;
    SkipIsSpace(text, 0);
    var at := Skip(text, 0);
    if IsDocument(text, v) && Valid(v, 0) {
      var a: nat, b: nat :| Space(text, 0, a) && Spells(text, a, b, v) && Space(text, b, |text|);
      SpellsOpens(text, a, b, v);
      SpaceSkipped(text, 0, a);
      SpaceSkipped(text, b, |text|);
      SpellsRead(text, a, b, v, 0);
    }
    if DocumentFrom(text) == Ok(v, |text|) {
      ReadSpells(text, at, 0);
      ValueIsValid(text, at, 0);
      SkipIsSpace(text, ValueFrom(text, at, 0).next);
      assert Element(text, 0, |text|, v);
    }
  }

  /** So it succeeds exactly on the texts of the grammar with such a value. */
  lemma SucceedsExactly(text: string)
    ensures DocumentFrom(text).Ok? <==> exists v :: IsDocument(text, v) && Valid(v, 0)
  {
    hide Spells, Valid, Skip, ValueFrom, IsDocument;
    if DocumentFrom(text).Ok? { AcceptsExactly(text, DocumentFrom(text).value); }
    if v :| IsDocument(text, v) && Valid(v, 0) { AcceptsExactly(text, v); }
  }

  /** And such a text has one meaning. */
  lemma OneMeaning(text: string, v: Value, w: Value)
    requires IsDocument(text, v) && Valid(v, 0) && IsDocument(text, w) && Valid(w, 0)
    ensures v == w
  {
    AcceptsExactly(text, v);
    AcceptsExactly(text, w);
  }
}
