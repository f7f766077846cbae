/**
  How a written document is laid out: a list of lines, defined without depths, in
  which the lines of whatever is nested are those it has by itself, two spaces in.
 */
module JsonLayout {
  import opened Json
  import opened JsonRoundTrip

  function Shifted(lines: seq<string>): (r: seq<string>)
    ensures |r| == |lines| && forall i :: 0 <= i < |r| ==> r[i] == "  " + lines[i]
  {
    if lines == [] then [] else Shifted(lines[..|lines| - 1]) + ["  " + lines[|lines| - 1]]
  }

  /** With a comma after the last line, if something follows. */
  function Followed(lines: seq<string>, more: bool): (r: seq<string>)
    ensures |r| == |lines|
  {
    if lines == [] || !more then lines else lines[..|lines| - 1] + [lines[|lines| - 1] + ","]
  }

  /** With a name before the first line. */
  function Labelled(name: string, lines: seq<string>): (r: seq<string>)
    ensures |r| == |lines|
  {
    if lines == [] then [] else [Quoted(name) + ": " + lines[0]] + lines[1..]
  }

  /** The lines of a value. */
  function Lines(v: Value): (lines: seq<string>)
    ensures lines != []
    decreases v, 0
  {
    match v
    case Null => ["null"]
    case Boolean(b) => [if b then "true" else "false"]
    case Number(lexeme) => [lexeme]
    case String(text) => [Quoted(text)]
    case Array(es) => if es == [] then ["[]"] else ["["] + Shifted(ElementLines(es)) + ["]"]
    case Object(ms) => if ms == [] then ["{}"] else ["{"] + Shifted(MemberLines(ms)) + ["}"]
  }

  function ElementLines(es: seq<Value>): seq<string>
    decreases es
  {
    if es == [] then [] else Followed(Lines(es[0]), |es| > 1) + ElementLines(es[1..])
  }

  function MemberLines(ms: seq<Member>): seq<string>
    decreases ms
  {
    if ms == [] then [] else Followed(MemberLine(ms[0]), |ms| > 1) + MemberLines(ms[1..])
  }

  function MemberLine(m: Member): seq<string>
    decreases m, 1
  {
    Labelled(m.name, Lines(m.value))
  }

  /** Each line ended, after so much indentation. */
  function Text(lines: seq<string>, depth: nat): string
  {
    if lines == [] then "" else Indent(depth) + lines[0] + "\n" + Text(lines[1..], depth)
  }

  lemma {:induction false} TextJoins(a: seq<string>, b: seq<string>, depth: nat)
    ensures Text(a + b, depth) == Text(a, depth) + Text(b, depth)
  {
    if a == [] {
      assert a + b == b;
    } else {
      assert (a + b)[1..] == a[1..] + b;
      TextJoins(a[1..], b, depth);
    }
  }

  lemma {:induction false} TextShifts(lines: seq<string>, depth: nat)
    ensures Text(Shifted(lines), depth) == Text(lines, depth + 1)
  {
    if lines != [] {
      assert Shifted(lines)[1..] == Shifted(lines[1..]);
      TextShifts(lines[1..], depth);
      assert Indent(depth) + ("  " + lines[0]) == Indent(depth + 1) + lines[0];
    }
  }

  lemma NoText(depth: nat)
    ensures Text([], depth) == ""
  {
  }

  lemma OneLine(line: string, depth: nat)
    ensures Text([line], depth) == Indent(depth) + line + "\n"
  {
    assert [line][1..] == [];
  }

  /** A body of lines between the brackets of what holds it. */
  lemma Enclosed(opening: string, lines: seq<string>, closing: string, depth: nat)
    ensures Text([opening] + Shifted(lines) + [closing], depth)
         == Indent(depth) + opening + "\n" + Text(lines, depth + 1) + (Indent(depth) + closing + "\n")
  {
    TextJoins([opening] + Shifted(lines), [closing], depth);
    TextJoins([opening], Shifted(lines), depth);
    TextShifts(lines, depth);
    OneLine(opening, depth);
    OneLine(closing, depth);
  }

  /** A comma goes before the last line end. */
  lemma TextFollowed(lines: seq<string>, more: bool, depth: nat, body: string)
    requires lines != [] && Text(lines, depth) == body + "\n"
    ensures Text(Followed(lines, more), depth) == body + LineEnd(more)
  {
    if more {
      var last := |lines| - 1;
      assert lines == lines[..last] + [lines[last]];
      TextJoins(lines[..last], [lines[last]], depth);
      TextJoins(lines[..last], [lines[last] + ","], depth);
      OneLine(lines[last], depth);
      OneLine(lines[last] + ",", depth);
      var before := Text(lines[..last], depth);
      assert before + (Indent(depth) + lines[last] + "\n") == (before + Indent(depth) + lines[last]) + "\n";
      SameBody(before + Indent(depth) + lines[last], body);
      assert before + (Indent(depth) + (lines[last] + ",") + "\n") == (before + Indent(depth) + lines[last]) + ",\n";
    }
  }

  lemma SameBody(a: string, b: string)
    requires a + "\n" == b + "\n"
    ensures a == b
  {
    assert a == (a + "\n")[..|a|] && b == (b + "\n")[..|b|];
  }

  lemma TextLabelled(name: string, lines: seq<string>, depth: nat, body: string)
    requires lines != [] && Text(lines, depth) == Indent(depth) + body + "\n"
    ensures Text(Labelled(name, lines), depth) == Indent(depth) + (Quoted(name) + ": " + body) + "\n"
  {
    var rest := Text(lines[1..], depth);
    var first := lines[0] + "\n" + rest;
    assert Text(lines, depth) == Indent(depth) + first;
    assert Indent(depth) + body + "\n" == Indent(depth) + (body + "\n");
    SameRest(Indent(depth), first, body + "\n");
    var labelled := Labelled(name, lines);
    assert labelled[1..] == lines[1..];
    assert Text(labelled, depth) == Indent(depth) + (Quoted(name) + ": ") + first;
  }

  lemma SameRest(a: string, b: string, c: string)
    requires a + b == a + c
    ensures b == c
  {
    assert b == (a + b)[|a|..] && c == (a + c)[|a|..];
  }

  /** At any depth a value is printed as its lines. */
  lemma {:induction false} PrintedIs(v: Value, depth: nat)
    ensures Text(Lines(v), depth) == Indent(depth) + Printed(v, depth) + "\n"
    decreases v, 0
  {
    match v
    case Array(es) => ArrayIs(es, depth);
    case Object(ms) => ObjectIs(ms, depth);
    case _ => OneLine(Lines(v)[0], depth);
  }

  lemma {:induction false} ArrayIs(es: seq<Value>, depth: nat)
    ensures Text(Lines(Array(es)), depth) == Indent(depth) + Printed(Array(es), depth) + "\n"
    decreases es, 1
  {
    hide Text, Indent, Shifted, ElementLines, PrintedElements;
    if es == [] {
      OneLine("[]", depth);
    } else {
      ElementsAre(es, depth);
      Enclosed("[", ElementLines(es), "]", depth);
      Brackets("[", PrintedElements(es, depth), "]", depth);
    }
  }

  lemma {:induction false} ObjectIs(ms: seq<Member>, depth: nat)
    ensures Text(Lines(Object(ms)), depth) == Indent(depth) + Printed(Object(ms), depth) + "\n"
    decreases ms, 1
  {
    hide Text, Indent, Shifted, MemberLines, PrintedMembers;
    if ms == [] {
      OneLine("{}", depth);
    } else {
      MembersAre(ms, depth);
      Enclosed("{", MemberLines(ms), "}", depth);
      Brackets("{", PrintedMembers(ms, depth), "}", depth);
    }
  }

  lemma Brackets(opening: string, body: string, closing: string, depth: nat)
    ensures Indent(depth) + opening + "\n" + body + (Indent(depth) + closing + "\n")
         == Indent(depth) + (opening + "\n" + body + Indent(depth) + closing) + "\n"
  {
  }

  lemma {:induction false} ElementsAre(es: seq<Value>, depth: nat)
    ensures Text(ElementLines(es), depth + 1) == PrintedElements(es, depth)
    decreases es, 0
  {
    hide Indent, Followed, Lines, Printed, LineEnd;
    if es == [] {
      NoText(depth + 1);
    } else {
      hide Text;
      PrintedIs(es[0], depth + 1);
      TextFollowed(Lines(es[0]), |es| > 1, depth + 1, Indent(depth + 1) + Printed(es[0], depth + 1));
      TextJoins(Followed(Lines(es[0]), |es| > 1), ElementLines(es[1..]), depth + 1);
      ElementsAre(es[1..], depth);
    }
  }

  lemma {:induction false} MembersAre(ms: seq<Member>, depth: nat)
    ensures Text(MemberLines(ms), depth + 1) == PrintedMembers(ms, depth)
    decreases ms, 0
  {
    hide Indent, Quoted, Followed, Lines, Printed, Labelled, LineEnd;
    if ms == [] {
      NoText(depth + 1);
    } else {
      hide Text;
      MemberIs(ms[0], depth);
      TextFollowed(MemberLine(ms[0]), |ms| > 1, depth + 1, Indent(depth + 1) + (Quoted(ms[0].name) + ": " + Printed(ms[0].value, depth + 1)));
      TextJoins(Followed(MemberLine(ms[0]), |ms| > 1), MemberLines(ms[1..]), depth + 1);
      MembersAre(ms[1..], depth);
    }
  }

  lemma {:induction false} MemberIs(m: Member, depth: nat)
    ensures Text(MemberLine(m), depth + 1) == Indent(depth + 1) + (Quoted(m.name) + ": " + Printed(m.value, depth + 1)) + "\n"
    decreases m, 1
  {
    hide Text, Indent;
    PrintedIs(m.value, depth + 1);
    TextLabelled(m.name, Lines(m.value), depth + 1, Printed(m.value, depth + 1));
  }

  /** A document is its lines, each ended. */
  lemma DocumentIs(v: Value)
    ensures Document(v) == Text(Lines(v), 0)
  {
    PrintedIs(v, 0);
    assert "" + Printed(v, 0) == Printed(v, 0);
  }

  // ----- No line breaks but those -----

  predicate Unbroken(s: string) { '\n' !in s }
  predicate AllUnbroken(lines: seq<string>) { forall i :: 0 <= i < |lines| ==> Unbroken(lines[i]) }

  lemma {:induction false} EscapedIsUnbroken(s: string)
    ensures Unbroken(Escaped(s))
  {
    if s != "" {
      EscapeCases(s[0]);
      EscapedIsUnbroken(s[1..]);
    }
  }

  lemma NumberIsUnbroken(s: string)
    requires IsNumber(s)
    ensures Unbroken(s)
  {
    var minus, whole, frac, exp :| IsSplit(s, minus, whole, frac, exp);
    assert Unbroken(whole);
    assert frac != "" ==> frac == [frac[0]] + frac[1..] && Unbroken(frac[1..]);
    if exp != "" {
      if AllDigits(exp[1..]) { assert exp == [exp[0]] + exp[1..] && Unbroken(exp[1..]); }
      else { assert exp == [exp[0], exp[1]] + exp[2..] && Unbroken(exp[2..]); }
    }
  }

  lemma {:induction false} LinesAreUnbroken(v: Value, depth: nat)
    requires Valid(v, depth)
    ensures AllUnbroken(Lines(v))
    decreases v, 0
  {
    match v
    case Array(es) => ElementsAreUnbroken(es, depth); EnclosedIsUnbroken("[", ElementLines(es), "]");
    case Object(ms) => MembersAreUnbroken(ms, depth); EnclosedIsUnbroken("{", MemberLines(ms), "}");
    case _ => LeafIsUnbroken(v, depth);
  }

  lemma EnclosedIsUnbroken(opening: string, lines: seq<string>, closing: string)
    requires AllUnbroken(lines) && Unbroken(opening) && Unbroken(closing)
    ensures AllUnbroken([opening] + Shifted(lines) + [closing])
  {
  }

  lemma LeafIsUnbroken(v: Value, depth: nat)
    requires Valid(v, depth) && !v.Array? && !v.Object?
    ensures AllUnbroken(Lines(v))
  {
    hide Escaped, IsNumber;
    match v
    case Number(s) => NumberIsUnbroken(s);
    case String(s) => EscapedIsUnbroken(s);
    case _ =>
  }

  lemma {:induction false} ElementsAreUnbroken(es: seq<Value>, depth: nat)
    requires forall i :: 0 <= i < |es| ==> Valid(es[i], depth + 1)
    ensures AllUnbroken(ElementLines(es))
    decreases es
  {
    hide Valid, Lines;
    if es != [] {
      LinesAreUnbroken(es[0], depth + 1);
      ElementsAreUnbroken(es[1..], depth);
    }
  }

  lemma {:induction false} MembersAreUnbroken(ms: seq<Member>, depth: nat)
    requires forall i :: 0 <= i < |ms| ==> Valid(ms[i].value, depth + 1)
    ensures AllUnbroken(MemberLines(ms))
    decreases ms
  {
    hide Valid, Lines, Escaped;
    if ms != [] {
      LinesAreUnbroken(ms[0].value, depth + 1);
      EscapedIsUnbroken(ms[0].name);
      MembersAreUnbroken(ms[1..], depth);
    }
  }
}
