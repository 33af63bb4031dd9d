/**
  A grammar of patterns, independent of the scanner: escapes, plain bytes, character classes and groups.
  The scanner splits a pattern exactly where the grammar says its classes and groups begin and end.
 */
module FixtureBrackets {
  import opened Sequences
  import opened FixtureSegments

  /** A pattern, or what a bracket encloses, item by item.  `Cut` and `Unclosed` end a pattern early. */
  datatype Body =
    | End
    | Plain(c: char, rest: Body)
    | Escape(c: char, rest: Body)
    | Class(members: Body, rest: Body)
    | Paren(inner: Body, rest: Body)
    | Cut
    | Unclosed(open: char, inner: Body)

  datatype Place = Outside | InGroup | InClass

  function Text(b: Body): string {
    match b
    case End => ""
    case Plain(c, rest) => [c] + Text(rest)
    case Escape(c, rest) => ['\\', c] + Text(rest)
    case Class(members, rest) => "[" + Text(members) + "]" + Text(rest)
    case Paren(inner, rest) => "(" + Text(inner) + ")" + Text(rest)
    case Cut => "\\"
    case Unclosed(open, inner) => [open] + Text(inner)
  }

  /**
    A class holds escapes and any bytes but a backslash and its own closer.  A group holds escapes,
    classes, groups and any bytes but a backslash, "[", "(" and ")".
   */
  predicate Valid(b: Body, place: Place) {
    match b
    case End => true
    case Plain(c, rest) =>
      && c != '\\'
      && (place == InClass ==> c != ']')
      && (place != InClass ==> c != '(' && c != '[')
      && (place == InGroup ==> c != ')')
      && Valid(rest, place)
    case Escape(_, rest) => Valid(rest, place)
    case Class(members, rest) => place != InClass && Closed(members) && Valid(members, InClass) && Valid(rest, place)
    case Paren(inner, rest) => place != InClass && Closed(inner) && Valid(inner, InGroup) && Valid(rest, place)
    case Cut => true
    case Unclosed(open, inner) =>
      place != InClass && ((open == '(' && Valid(inner, InGroup)) || (open == '[' && Valid(inner, InClass)))
  }

  /** Neither cut off after a backslash, nor within a bracket. */
  predicate Closed(b: Body) {
    match b
    case End => true
    case Plain(_, rest) => Closed(rest)
    case Escape(_, rest) => Closed(rest)
    case Class(_, rest) => Closed(rest)
    case Paren(_, rest) => Closed(rest)
    case Cut => false
    case Unclosed(_, _) => false
  }

  /** Every text is that of some body, up to the closer of the bracket around it. */
  lemma {:induction false} BodyOf(p: string, place: Place) returns (b: Body, left: string)
    ensures Valid(b, place) && Text(b) + left == p
    ensures left != "" ==> Closed(b) && ((place == InGroup && left[0] == ')') || (place == InClass && left[0] == ']'))
    decreases |p|
  {
    if p == "" || (place == InGroup && p[0] == ')') || (place == InClass && p[0] == ']') {
      return End, p;
    }
    if p[0] == '\\' {
      if |p| == 1 {
        return Cut, "";
      }
      var rest, more := BodyOf(p[2..], place);
      Regroup(['\\', p[1]], Text(rest), more);
      return Escape(p[1], rest), more;
    }
    if place == InClass || (p[0] != '(' && p[0] != '[') {
      var rest, more := BodyOf(p[1..], place);
      Regroup([p[0]], Text(rest), more);
      return Plain(p[0], rest), more;
    }
    b, left := BracketOf(p, place);
  }

  lemma {:induction false} BracketOf(p: string, place: Place) returns (b: Body, left: string)
    requires p != "" && (p[0] == '(' || p[0] == '[') && place != InClass
    ensures Valid(b, place) && Text(b) + left == p
    ensures left != "" ==> Closed(b) && place == InGroup && left[0] == ')'
    decreases |p|, 0
  {
    var inner, after := BodyOf(p[1..], if p[0] == '(' then InGroup else InClass);
    if after == "" {
      assert Text(inner) == p[1..];
      return Unclosed(p[0], inner), "";
    }
    var rest, more := BodyOf(after[1..], place);
    b, left := (if p[0] == '(' then Paren(inner, rest) else Class(inner, rest)), more;
    assert p == [p[0]] + (Text(inner) + ([after[0]] + (Text(rest) + more)));
    Regroup4([p[0]], Text(inner), [after[0]], Text(rest) + more);
    Regroup([p[0]] + Text(inner) + [after[0]], Text(rest), more);
  }

  // ----- inside a bracket

  /** The innermost open bracket is that of `place`. */
  predicate Within(place: Place, stack: seq<char>) {
    && stack != []
    && (place == InGroup ==> stack[|stack| - 1] == '(')
    && (place == InClass ==> stack[|stack| - 1] == '[')
    && place != Outside
  }

  lemma PlainInside(c: char, more: string, place: Place, stack: seq<char>, closed: bool)
    requires Within(place, stack) && Valid(Plain(c, End), place)
    ensures IsSyntax([c] + more, stack, closed) == IsSyntax(more, stack, closed)
  {
    assert ([c] + more)[1..] == more;
  }

  lemma EscapeInside(c: char, more: string, stack: seq<char>, closed: bool)
    requires stack != []
    ensures IsSyntax(['\\', c] + more, stack, closed) == IsSyntax(more, stack, closed)
  {
    assert (['\\', c] + more)[2..] == more;
  }

  /** An opening byte inside a group opens another bracket. */
  lemma OpenInside(open: char, more: string, stack: seq<char>, closed: bool)
    requires Within(InGroup, stack) && (open == '(' || open == '[')
    ensures IsSyntax([open] + more, stack, closed) == IsSyntax(more, stack + [open], closed)
  {
    assert ([open] + more)[1..] == more;
  }

  /** Its own closer, and only that, closes the innermost bracket. */
  lemma CloseInside(place: Place, more: string, stack: seq<char>, closed: bool)
    requires Within(place, stack)
    ensures IsSyntax((if place == InGroup then ")" else "]") + more, stack, closed) ==
            IsSyntax(more, stack[..|stack| - 1], closed)
  {
    var p := (if place == InGroup then ")" else "]") + more;
    assert p[1..] == more;
  }

  /** A complete body inside a bracket is scanned as syntax and leaves the open brackets as they were. */
  lemma {:induction false} BodyInside(b: Body, place: Place, more: string, stack: seq<char>, closed: bool)
    requires Valid(b, place) && Closed(b) && Within(place, stack)
    ensures IsSyntax(Text(b) + more, stack, closed) == IsSyntax(more, stack, closed)
  {
    match b
    case End => assert "" + more == more;
    case Plain(c, rest) =>
      BodyInside(rest, place, more, stack, closed);
      PlainInside(c, Text(rest) + more, place, stack, closed);
      Regroup([c], Text(rest), more);
    case Escape(c, rest) =>
      BodyInside(rest, place, more, stack, closed);
      EscapeInside(c, Text(rest) + more, stack, closed);
      Regroup(['\\', c], Text(rest), more);
    case Class(members, rest) =>
      BodyInside(rest, place, more, stack, closed);
      BodyInside(members, InClass, "]" + (Text(rest) + more), stack + ['['], closed);
      BracketInside('[', Text(members), InClass, Text(rest) + more, stack, closed);
      Regroup4("[", Text(members), "]", Text(rest) + more);
      Regroup("[" + Text(members) + "]", Text(rest), more);
    case Paren(inner, rest) =>
      BodyInside(rest, place, more, stack, closed);
      BodyInside(inner, InGroup, ")" + (Text(rest) + more), stack + ['('], closed);
      BracketInside('(', Text(inner), InGroup, Text(rest) + more, stack, closed);
      Regroup4("(", Text(inner), ")", Text(rest) + more);
      Regroup("(" + Text(inner) + ")", Text(rest), more);
  }

  lemma BracketInside(open: char, text: string, place: Place, more: string, stack: seq<char>, closed: bool)
    requires Within(InGroup, stack)
    requires (open == '(' && place == InGroup) || (open == '[' && place == InClass)
    requires var p := (if place == InGroup then ")" else "]") + more;
             IsSyntax(text + p, stack + [open], closed) == IsSyntax(p, stack + [open], closed)
    ensures var p := (if place == InGroup then ")" else "]") + more;
            IsSyntax([open] + (text + p), stack, closed) == IsSyntax(more, stack, closed)
  {
    var p := (if place == InGroup then ")" else "]") + more;
    OpenInside(open, text + p, stack, closed);
    CloseInside(place, more, stack + [open], closed);
    assert (stack + [open])[..|stack|] == stack;
  }

  /** A body cut off inside a bracket is syntax to the end of the pattern. */
  lemma {:induction false} BodyToEnd(b: Body, place: Place, stack: seq<char>)
    requires Valid(b, place) && Within(place, stack)
    ensures IsSyntax(Text(b), stack, false)
  {
    match b
    case End =>
    case Plain(c, rest) =>
      BodyToEnd(rest, place, stack);
      PlainInside(c, Text(rest), place, stack, false);
    case Escape(c, rest) =>
      BodyToEnd(rest, place, stack);
      EscapeInside(c, Text(rest), stack, false);
    case Class(members, rest) =>
      BodyToEnd(rest, place, stack);
      BodyInside(members, InClass, "]" + Text(rest), stack + ['['], false);
      BracketInside('[', Text(members), InClass, Text(rest), stack, false);
      Regroup4("[", Text(members), "]", Text(rest));
    case Paren(inner, rest) =>
      BodyToEnd(rest, place, stack);
      BodyInside(inner, InGroup, ")" + Text(rest), stack + ['('], false);
      BracketInside('(', Text(inner), InGroup, Text(rest), stack, false);
      Regroup4("(", Text(inner), ")", Text(rest));
    case Cut =>
      assert "\\"[1..] == "";
    case Unclosed(open, inner) =>
      BodyToEnd(inner, if open == '(' then InGroup else InClass, stack + [open]);
      OpenInside(open, Text(inner), stack, false);
  }

  // ----- outside brackets

  /** A bracket opened outside any other is scanned from there. */
  lemma OpenOutside(open: char, text: string, closed: bool)
    requires open == '(' || open == '['
    ensures IsSyntax([open] + text, [], closed) == IsSyntax(text, [open], closed)
  {
    assert SPECIAL[5] == '(' && SPECIAL[8] == '[';
    assert ([open] + text)[1..] == text;
  }

  function Closer(open: char): string {
    if open == '(' then ")" else "]"
  }

  function PlaceOf(open: char): Place {
    if open == '(' then InGroup else InClass
  }

  /** A class or a group by itself is complete syntax. */
  lemma BracketIsSyntax(open: char, b: Body)
    requires (open == '(' || open == '[') && Valid(b, PlaceOf(open)) && Closed(b)
    ensures IsSyntax([open] + Text(b) + Closer(open), [], true)
  {
    var close := Closer(open);
    BodyInside(b, PlaceOf(open), close, [open], true);
    CloseInside(PlaceOf(open), "", [open], true);
    assert close + "" == close && [open][..0] == [];
    OpenOutside(open, Text(b) + close, true);
    Regroup([open], Text(b), close);
  }

  /** One that is never closed is syntax to the end. */
  lemma UnclosedIsSyntax(open: char, b: Body)
    requires (open == '(' || open == '[') && Valid(b, PlaceOf(open))
    ensures IsSyntax([open] + Text(b), [], false)
  {
    BodyToEnd(b, PlaceOf(open), [open]);
    OpenOutside(open, Text(b), false);
  }

  /** The items outside brackets as runs: escaped special bytes and ordinary ones are literal. */
  function Runs(b: Body): seq<Segment> {
    match b
    case End => []
    case Plain(c, rest) => Attach(if IsSpecial(c) then Wild([c]) else Literal([c]), Runs(rest))
    case Escape(c, rest) => Attach(if IsSpecial(c) then Literal([c]) else Wild(['\\', c]), Runs(rest))
    case Class(members, rest) => Attach(Wild("[" + Text(members) + "]"), Runs(rest))
    case Paren(inner, rest) => Attach(Wild("(" + Text(inner) + ")"), Runs(rest))
    case Cut => [Wild("\\")]
    case Unclosed(open, inner) => [Wild([open] + Text(inner))]
  }

  lemma {:induction false} SyntaxJoins(us: seq<Unit>, t: string, more: seq<Unit>)
    requires AllSyntax(us) && us != [] && Group(us) == [Wild(t)]
    ensures Group(us + more) == Attach(Wild(t), Group(more))
  {
    var all := us + more;
    assert all[1..] == us[1..] + more;
    if |us| == 1 {
      assert all[1..] == more && us[1..] == [];
    } else {
      var t' := Group(us[1..])[0].text;
      assert Group(us) == Attach(Wild(us[0].text), Group(us[1..]));
      assert Group(us[1..])[0].Wild?;
      assert Group(us[1..]) == [Wild(t')];
      SyntaxJoins(us[1..], t', more);
      AttachTwice(us[0].text, t', Group(more));
    }
  }

  lemma AttachTwice(s: string, t: string, segs: seq<Segment>)
    ensures Attach(Wild(s), Attach(Wild(t), segs)) == Attach(Wild(s + t), segs)
  {
    if segs != [] && segs[0].Wild? {
      Regroup(s, t, segs[0].text);
    }
  }

  /** Complete syntax joins the run that follows it. */
  lemma SyntaxThenAny(t: string, rest: string)
    requires t != "" && IsSyntax(t, [], true)
    ensures ParseSegments(t + rest) == Attach(Wild(t), ParseSegments(rest))
  {
    SyntaxNotClosed(t, []);
    UnitsOfConcat(t, [], rest);
    UnitsOfSyntax(t, [], true);
    SyntaxJoins(Units(t, []), t, Units(rest, []));
  }

  lemma SyntaxToEnd(t: string)
    requires t != "" && IsSyntax(t, [], false)
    ensures ParseSegments(t) == [Wild(t)]
  {
    UnitsOfSyntax(t, [], false);
  }

  lemma PlainOutside(c: char, more: string)
    requires c != '\\' && c != '(' && c != '['
    ensures ParseSegments([c] + more) == Attach(if IsSpecial(c) then Wild([c]) else Literal([c]), ParseSegments(more))
  {
    var p := [c] + more;
    assert p[1..] == more && p[..1] == [c];
    assert Units(p, []) == [FirstUnit(p, [])] + Units(more, []);
    assert Units(p, [])[1..] == Units(more, []);
  }

  lemma EscapeOutside(c: char, more: string)
    ensures ParseSegments(['\\', c] + more) ==
            Attach(if IsSpecial(c) then Literal([c]) else Wild(['\\', c]), ParseSegments(more))
  {
    var p := ['\\', c] + more;
    assert p[2..] == more && p[..2] == ['\\', c];
    assert Units(p, []) == [FirstUnit(p, [])] + Units(more, []);
    assert Units(p, [])[1..] == Units(more, []);
  }

  /** The scanner splits a pattern into the runs of its items. */
  lemma {:induction false} ParsedByGrammar(b: Body)
    requires Valid(b, Outside)
    ensures ParseSegments(Text(b)) == Runs(b)
  {
    match b
    case End =>
    case Plain(c, rest) =>
      ParsedByGrammar(rest);
      PlainOutside(c, Text(rest));
    case Escape(c, rest) =>
      ParsedByGrammar(rest);
      EscapeOutside(c, Text(rest));
    case Class(members, rest) =>
      ParsedByGrammar(rest);
      BracketIsSyntax('[', members);
      SyntaxThenAny("[" + Text(members) + "]", Text(rest));
    case Paren(inner, rest) =>
      ParsedByGrammar(rest);
      BracketIsSyntax('(', inner);
      SyntaxThenAny("(" + Text(inner) + ")", Text(rest));
    case Cut =>
      assert "\\"[1..] == "" && SPECIAL[0] == '\\';
      assert FirstUnit("\\", []) == Syntax("\\");
      SyntaxToEnd("\\");
    case Unclosed(open, inner) =>
      UnclosedIsSyntax(open, inner);
      SyntaxToEnd([open] + Text(inner));
  }

  /** So it is for every pattern: each has a derivation, and its segments are the runs of any of them. */
  lemma SegmentsByGrammar(p: string, segs: seq<Segment>)
    ensures ParseSegments(p) == segs <==> exists b :: Valid(b, Outside) && Text(b) == p && Runs(b) == segs
  {
    var b, left := BodyOf(p, Outside);
    assert Text(b) + "" == Text(b);
    ParsedByGrammar(b);
    if b' :| Valid(b', Outside) && Text(b') == p && Runs(b') == segs {
      ParsedByGrammar(b');
    }
  }

  lemma LiteralAlone(m: string)
    requires m != ""
    ensures ParseSegments(QuoteMeta(m)) == [Literal(m)]
  {
    LiteralThenRest(m, "");
    assert QuoteMeta(m) + "" == QuoteMeta(m);
  }

  lemma SyntaxThenLiteral(t: string, m: string)
    requires t != "" && IsSyntax(t, [], true) && m != ""
    ensures ParseSegments(t + QuoteMeta(m)) == [Wild(t), Literal(m)]
  {
    LiteralAlone(m);
    SyntaxThenAny(t, QuoteMeta(m));
  }

  lemma LiteralThenParsed(l: string, rest: string, segs: seq<Segment>)
    requires l != "" && ParseSegments(rest) == segs && segs != [] && segs[0].Wild?
    ensures ParseSegments(QuoteMeta(l) + rest) == [Literal(l)] + segs
  {
    LiteralThenRest(l, rest);
  }

  /** A class or group between two literals is one segment, up to its own closing bracket. */
  lemma BracketSegment(g: Body, l: string, m: string)
    requires Valid(g, Outside) && l != "" && m != ""
    requires (g.Paren? || g.Class?) && g.rest == End
    ensures ParseSegments(QuoteMeta(l) + Text(g) + QuoteMeta(m)) == [Literal(l), Wild(Text(g)), Literal(m)]
  {
    var open, b := if g.Paren? then '(' else '[', if g.Paren? then g.inner else g.members;
    var t := [open] + Text(b) + Closer(open);
    assert t + "" == t == Text(g);
    BracketIsSyntax(open, b);
    SyntaxThenLiteral(t, m);
    LiteralThenParsed(l, t + QuoteMeta(m), [Wild(t), Literal(m)]);
    Regroup(QuoteMeta(l), t, QuoteMeta(m));
  }
}
