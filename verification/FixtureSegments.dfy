/**
  Regex fixtures as alternating runs of literal output text and regex syntax: splitting a pattern into
  its segments, and writing segments back as a pattern.
 */
module FixtureSegments {
  import opened Sequences

  datatype Segment = Literal(text: string) | Wild(text: string)

  /** The bytes regexp.QuoteMeta escapes. */
  const SPECIAL := "\\.+*?()|[]{}^$"

  predicate IsSpecial(c: char) {
    c in SPECIAL
  }

  /** regexp.QuoteMeta */
  function QuoteMeta(s: string): string {
    if s == "" then "" else QuoteByte(s[0]) + QuoteMeta(s[1..])
  }

  function QuoteByte(c: char): string {
    if IsSpecial(c) then ['\\', c] else [c]
  }

  function PrintOne(seg: Segment): string {
    if seg.Literal? then QuoteMeta(seg.text) else seg.text
  }

  function Print(segs: seq<Segment>): string {
    if segs == [] then "" else PrintOne(segs[0]) + Print(segs[1..])
  }

  /** One or two bytes of a pattern: a literal byte, or a piece of regex syntax. */
  datatype Unit = Byte(c: char) | Syntax(text: string)

  /** The open brackets after `c`, which is inside one: a closer closes only its own kind. */
  function Nest(stack: seq<char>, c: char): seq<char>
    requires stack != []
  {
    var n := |stack| - 1;
    if stack[n] == '[' then (if c == ']' then stack[..n] else stack)
    else if stack[n] == '(' then
      if c == '(' || c == '[' then stack + [c] else if c == ')' then stack[..n] else stack
    else stack
  }

  /** A backslash takes the next byte, if any, with it. */
  function Size(p: string): (n: nat)
    requires p != ""
    ensures 1 <= n <= |p|
  {
    if p[0] == '\\' && |p| > 1 then 2 else 1
  }

  /** The open brackets after the first unit of `p`. */
  function NextStack(p: string, stack: seq<char>): seq<char>
    requires p != ""
  {
    if stack != [] then (if Size(p) == 2 then stack else Nest(stack, p[0]))
    else if p[0] == '(' || p[0] == '[' then [p[0]]
    else []
  }

  /** Outside brackets, an escaped special byte and an unescaped ordinary one are literal. */
  function FirstUnit(p: string, stack: seq<char>): Unit
    requires p != ""
  {
    if stack == [] && Size(p) == 2 && IsSpecial(p[1]) then Byte(p[1])
    else if stack == [] && Size(p) == 1 && !IsSpecial(p[0]) then Byte(p[0])
    else Syntax(p[..Size(p)])
  }

  function Units(p: string, stack: seq<char>): seq<Unit>
    decreases |p|
  {
    if p == "" then []
    else [FirstUnit(p, stack)] + Units(p[Size(p)..], NextStack(p, stack))
  }

  function SegmentOf(u: Unit): Segment {
    if u.Byte? then Literal([u.c]) else Wild(u.text)
  }

  /** `seg` before `segs`, merged with the first if it is of the same kind. */
  function Attach(seg: Segment, segs: seq<Segment>): (r: seq<Segment>)
    ensures r != [] && r[0].Literal? == seg.Literal? && |r[0].text| >= |seg.text|
  {
    if segs == [] || segs[0].Literal? != seg.Literal? then [seg] + segs
    else if seg.Literal? then [Literal(seg.text + segs[0].text)] + segs[1..]
    else [Wild(seg.text + segs[0].text)] + segs[1..]
  }

  function Group(us: seq<Unit>): seq<Segment> {
    if us == [] then [] else Attach(SegmentOf(us[0]), Group(us[1..]))
  }

  function ParseSegments(p: string): seq<Segment> {
    Group(Units(p, []))
  }

  lemma {:induction false} QuoteMetaConcat(s: string, t: string)
    ensures QuoteMeta(s + t) == QuoteMeta(s) + QuoteMeta(t)
  {
    if s == "" {
      assert s + t == t;
    } else {
      assert (s + t)[1..] == s[1..] + t;
      QuoteMetaConcat(s[1..], t);
    }
  }

  lemma PrintCons(seg: Segment, segs: seq<Segment>)
    ensures Print([seg] + segs) == PrintOne(seg) + Print(segs)
  {
    assert ([seg] + segs)[1..] == segs;
  }

  lemma PrintAttach(seg: Segment, segs: seq<Segment>)
    ensures Print(Attach(seg, segs)) == PrintOne(seg) + Print(segs)
  {
    if segs == [] || segs[0].Literal? != seg.Literal? {
      PrintCons(seg, segs);
    } else {
      assert segs == [segs[0]] + segs[1..];
      PrintMerged(seg, segs[0], segs[1..]);
    }
  }

  lemma PrintMerged(seg: Segment, first: Segment, rest: seq<Segment>)
    requires first.Literal? == seg.Literal?
    ensures Print(Attach(seg, [first] + rest)) == PrintOne(seg) + Print([first] + rest)
  {
    var merged := if seg.Literal? then Literal(seg.text + first.text) else Wild(seg.text + first.text);
    assert ([first] + rest)[1..] == rest;
    assert Attach(seg, [first] + rest) == [merged] + rest;
    PrintCons(merged, rest);
    PrintCons(first, rest);
    QuoteMetaConcat(seg.text, first.text);
    Regroup(PrintOne(seg), PrintOne(first), Print(rest));
  }

  lemma PrintFirst(p: string, stack: seq<char>)
    requires p != ""
    ensures PrintOne(SegmentOf(FirstUnit(p, stack))) == p[..Size(p)]
  {
    var u := FirstUnit(p, stack);
    if u.Byte? {
      assert QuoteMeta([u.c]) == QuoteByte(u.c) + QuoteMeta([]);
    }
  }

  /** The first unit and what it leaves. */
  lemma FirstSplit(p: string, stack: seq<char>) returns (u: Unit, n: nat, next: seq<char>)
    requires p != ""
    ensures 1 <= n <= |p| && Units(p, stack) == [u] + Units(p[n..], next)
    ensures PrintOne(SegmentOf(u)) == p[..n]
  {
    u, n, next := FirstUnit(p, stack), Size(p), NextStack(p, stack);
    PrintFirst(p, stack);
  }

  lemma PrintGroup(u: Unit, us: seq<Unit>)
    ensures Print(Group([u] + us)) == PrintOne(SegmentOf(u)) + Print(Group(us))
  {
    assert ([u] + us)[1..] == us;
    PrintAttach(SegmentOf(u), Group(us));
  }

  lemma {:induction false} PrintUnits(p: string, stack: seq<char>)
    ensures Print(Group(Units(p, stack))) == p
    decreases |p|
  {
    if p != "" {
      var u, n, next := FirstSplit(p, stack);
      PrintUnits(p[n..], next);
      PrintGroup(u, Units(p[n..], next));
      assert p == p[..n] + p[n..];
    }
  }

  /** Writing the segments of any pattern gives the pattern back. */
  lemma PrintOfParse(p: string)
    ensures Print(ParseSegments(p)) == p
  {
    PrintUnits(p, []);
  }

  // ----- which segment lists are patterns

  /** All of `t` is regex syntax, scanned from the open brackets `stack`; `closed` asks that it end complete. */
  predicate IsSyntax(t: string, stack: seq<char>, closed: bool)
    decreases |t|
  {
    if t == "" then closed ==> stack == []
    else
      && (closed ==> t != "\\")
      && FirstUnit(t, stack).Syntax?
      && IsSyntax(t[Size(t)..], NextStack(t, stack), closed)
  }

  /** Non-empty segments of alternating kinds; syntax before a literal leaves nothing open. */
  predicate WellFormed(segs: seq<Segment>, stack: seq<char>) {
    segs == [] || (
      && segs[0].text != ""
      && (|segs| > 1 ==> segs[1].Literal? != segs[0].Literal?)
      && (segs[0].Literal? ==> stack == [])
      && (segs[0].Wild? ==> IsSyntax(segs[0].text, stack, |segs| > 1))
      && WellFormed(segs[1..], []))
  }

  predicate Alternate(segs: seq<Segment>) {
    forall i :: 0 <= i < |segs| - 1 ==> segs[i].Literal? != segs[i + 1].Literal?
  }

  lemma {:induction false} WellFormedAlternate(segs: seq<Segment>, stack: seq<char>)
    requires WellFormed(segs, stack)
    ensures Alternate(segs) && forall i :: 0 <= i < |segs| ==> segs[i].text != ""
  {
    if segs != [] {
      WellFormedAlternate(segs[1..], []);
      assert forall i :: 1 <= i < |segs| ==> segs[i] == segs[1..][i - 1];
    }
  }

  lemma {:induction false} WildFirst(p: string, stack: seq<char>)
    requires stack != [] && p != ""
    ensures Units(p, stack)[0].Syntax?
    ensures Group(Units(p, stack)) != [] && Group(Units(p, stack))[0].Wild?
  {
  }

  /** Syntax in front of well-formed segments keeps them well formed. */
  lemma SyntaxFirst(t: string, segs: seq<Segment>, stack: seq<char>, next: seq<char>)
    requires WellFormed(segs, next) && t != ""
    requires segs != [] && segs[0].Literal? ==> IsSyntax(t, stack, true)
    requires segs == [] ==> IsSyntax(t, stack, false)
    requires segs != [] ==>
               forall rest, closed :: rest != "" && IsSyntax(rest, next, closed) ==> IsSyntax(t + rest, stack, closed)
    ensures WellFormed(Attach(Wild(t), segs), stack)
  {
    var r := Attach(Wild(t), segs);
    if segs == [] || segs[0].Literal? {
      assert r[1..] == segs;
    } else {
      assert r[1..] == segs[1..];
    }
  }

  lemma LiteralFirst(c: char, segs: seq<Segment>)
    requires WellFormed(segs, [])
    ensures WellFormed(Attach(Literal([c]), segs), [])
  {
    var r := Attach(Literal([c]), segs);
    assert r[1..] == if segs == [] || segs[0].Wild? then segs else segs[1..];
  }

  lemma FirstIsSyntax(p: string, stack: seq<char>, rest: string, closed: bool)
    requires p != "" && FirstUnit(p, stack).Syntax? && p != "\\"
    requires rest != "" && IsSyntax(rest, NextStack(p, stack), closed)
    ensures IsSyntax(p[..Size(p)] + rest, stack, closed)
  {
    var t, n := p[..Size(p)], Size(p);
    assert t != "\\" by {
      assert t[0] == p[0];
    }
    FirstOfConcat(t, rest, stack);
    assert p == t + p[n..];
    FirstOfConcat(t, p[n..], stack);
    assert t[n..] + rest == rest;
  }

  /** The segments of a pattern are well formed. */
  lemma {:induction false} ParsedWellFormed(p: string, stack: seq<char>)
    ensures WellFormed(Group(Units(p, stack)), stack)
    decreases |p|
  {
    if p != "" {
      var n, next := Size(p), NextStack(p, stack);
      var segs := Group(Units(p[n..], next));
      ParsedWellFormed(p[n..], next);
      assert Units(p, stack)[1..] == Units(p[n..], next);
      if FirstUnit(p, stack).Byte? {
        LiteralFirst(FirstUnit(p, stack).c, segs);
      } else {
        if next != [] && p[n..] != "" {
          WildFirst(p[n..], next);
        }
        forall rest, closed | segs != [] && rest != "" && IsSyntax(rest, next, closed)
          ensures IsSyntax(p[..n] + rest, stack, closed)
        {
          FirstIsSyntax(p, stack, rest, closed);
        }
        OneUnit(p, stack);
        SyntaxFirst(p[..n], segs, stack, next);
      }
    }
  }

  /** A single unit of syntax, followed by nothing or, with no bracket open, by anything. */
  lemma OneUnit(p: string, stack: seq<char>)
    requires p != "" && FirstUnit(p, stack).Syntax?
    ensures IsSyntax(p[..Size(p)], stack, false)
    ensures p != "\\" && NextStack(p, stack) == [] ==> IsSyntax(p[..Size(p)], stack, true)
  {
    var t, n := p[..Size(p)], Size(p);
    assert t[0] == p[0] && Size(t) == n && t[n..] == "";
    assert n == 2 ==> t[1] == p[1];
    assert n == 1 && p[0] == '\\' ==> p == "\\";
  }

  // ----- splitting what was written

  predicate AllSyntax(us: seq<Unit>) {
    forall i :: 0 <= i < |us| ==> us[i].Syntax?
  }

  function Bytes(s: string): (us: seq<Unit>)
    ensures |us| == |s|
  {
    if s == "" then [] else [Byte(s[0])] + Bytes(s[1..])
  }

  lemma {:induction false} GroupBytes(s: string, us: seq<Unit>)
    requires s != "" && (Group(us) == [] || Group(us)[0].Wild?)
    ensures Group(Bytes(s) + us) == [Literal(s)] + Group(us)
  {
    var rest := Bytes(s[1..]) + us;
    assert Bytes(s) + us == [Byte(s[0])] + rest;
    assert ([Byte(s[0])] + rest)[1..] == rest;
    if |s| == 1 {
      assert rest == us && [s[0]] == s;
    } else {
      GroupBytes(s[1..], us);
      assert Group(rest)[1..] == Group(us);
      assert [s[0]] + s[1..] == s;
    }
  }

  lemma UnitOfQuoted(c: char, after: string)
    ensures Units(QuoteByte(c) + after, []) == [Byte(c)] + Units(after, [])
  {
    var p := QuoteByte(c) + after;
    assert SPECIAL[0] == '\\' && SPECIAL[5] == '(' && SPECIAL[8] == '[';
    assert p[Size(p)..] == after;
    assert FirstUnit(p, []) == Byte(c) && NextStack(p, []) == [];
  }

  lemma {:induction false} UnitsOfLiteral(s: string, rest: string)
    ensures Units(QuoteMeta(s) + rest, []) == Bytes(s) + Units(rest, [])
  {
    if s == "" {
      assert QuoteMeta(s) + rest == rest && Bytes(s) + Units(rest, []) == Units(rest, []);
    } else {
      var after := QuoteMeta(s[1..]) + rest;
      UnitsOfLiteral(s[1..], rest);
      UnitOfQuoted(s[0], after);
      Regroup(QuoteByte(s[0]), QuoteMeta(s[1..]), rest);
      Regroup([Byte(s[0])], Bytes(s[1..]), Units(rest, []));
    }
  }

  /** What follows does not change the first unit, unless it completes an escape. */
  lemma FirstOfConcat(t: string, rest: string, stack: seq<char>)
    requires t != "" && (rest != "" ==> t != "\\")
    ensures var p := t + rest;
            && Size(p) == Size(t) && p[Size(t)..] == t[Size(t)..] + rest
            && FirstUnit(p, stack) == FirstUnit(t, stack) && NextStack(p, stack) == NextStack(t, stack)
  {
    var p, n := t + rest, Size(t);
    assert p[0] == t[0];
    assert t[0] == '\\' && |t| == 1 ==> t == "\\";
    assert Size(p) == n;
    assert p[..n] == t[..n];
    assert n == 2 ==> p[1] == t[1];
  }

  /** Complete syntax, or syntax at the end of the pattern, is split on its own. */
  lemma {:induction false} UnitsOfConcat(t: string, stack: seq<char>, rest: string)
    requires IsSyntax(t, stack, rest != "")
    ensures Units(t + rest, stack) == Units(t, stack) + Units(rest, [])
    decreases |t|
  {
    if t == "" {
      assert t + rest == rest;
      assert Units(t, stack) + Units(rest, []) == Units(rest, []);
    } else {
      var n, next := Size(t), NextStack(t, stack);
      FirstOfConcat(t, rest, stack);
      UnitsOfConcat(t[n..], next, rest);
      Regroup([FirstUnit(t, stack)], Units(t[n..], next), Units(rest, []));
    }
  }

  lemma {:induction false} UnitsOfSyntax(t: string, stack: seq<char>, closed: bool)
    requires IsSyntax(t, stack, closed)
    ensures AllSyntax(Units(t, stack))
    ensures Group(Units(t, stack)) == if t == "" then [] else [Wild(t)]
    decreases |t|
  {
    if t != "" {
      var n, next := Size(t), NextStack(t, stack);
      UnitsOfSyntax(t[n..], next, closed);
      GroupOne(t[..n], Units(t[n..], next), t[n..]);
      assert t == t[..n] + t[n..];
    }
  }

  lemma GroupOne(text: string, us: seq<Unit>, t: string)
    requires Group(us) == if t == "" then [] else [Wild(t)]
    ensures Group([Syntax(text)] + us) == [Wild(text + t)]
  {
    assert ([Syntax(text)] + us)[1..] == us;
    assert t == "" ==> text + t == text;
  }

  lemma {:induction false} GroupSyntax(us: seq<Unit>, t: string, more: seq<Unit>)
    requires AllSyntax(us) && us != [] && Group(us) == [Wild(t)]
    requires Group(more) == [] || Group(more)[0].Literal?
    ensures Group(us + more) == [Wild(t)] + Group(more)
  {
    var all := us + more;
    assert all[1..] == us[1..] + more;
    if |us| == 1 {
      assert all[1..] == more && us[1..] == [];
    } else {
      var t' := Group(us[1..])[0].text;
      assert Group(us) == Attach(Wild(us[0].text), Group(us[1..]));
      assert Group(us[1..])[0].Wild?;
      assert Group(us[1..]) == [Wild(t')];
      GroupSyntax(us[1..], t', more);
      assert ([Wild(t')] + Group(more))[1..] == Group(more);
    }
  }

  lemma LiteralThenRest(t: string, rest: string)
    requires t != "" && (Group(Units(rest, [])) == [] || Group(Units(rest, []))[0].Wild?)
    ensures Group(Units(QuoteMeta(t) + rest, [])) == [Literal(t)] + Group(Units(rest, []))
  {
    UnitsOfLiteral(t, rest);
    GroupBytes(t, Units(rest, []));
  }

  lemma SyntaxThenRest(t: string, stack: seq<char>, rest: string)
    requires t != "" && IsSyntax(t, stack, rest != "")
    requires Group(Units(rest, [])) == [] || Group(Units(rest, []))[0].Literal?
    ensures Group(Units(t + rest, stack)) == [Wild(t)] + Group(Units(rest, []))
  {
    UnitsOfConcat(t, stack, rest);
    UnitsOfSyntax(t, stack, rest != "");
    GroupSyntax(Units(t, stack), t, Units(rest, []));
  }

  lemma {:induction false} SyntaxNotClosed(t: string, stack: seq<char>)
    requires IsSyntax(t, stack, true)
    ensures IsSyntax(t, stack, false)
    decreases |t|
  {
    if t != "" {
      SyntaxNotClosed(t[Size(t)..], NextStack(t, stack));
    }
  }

  /** Splitting the pattern written from well-formed segments gives the segments back. */
  lemma {:induction false} ParseOfPrint(segs: seq<Segment>, stack: seq<char>)
    requires WellFormed(segs, stack)
    ensures Group(Units(Print(segs), stack)) == segs
  {
    if segs != [] {
      ParseOfPrint(segs[1..], []);
      PrintCons(segs[0], segs[1..]);
      assert segs == [segs[0]] + segs[1..];
      FirstOfPrint(segs[0], segs[1..], stack);
    }
  }

  lemma FirstOfPrint(seg: Segment, more: seq<Segment>, stack: seq<char>)
    requires seg.text != "" && (more != [] ==> more[0].Literal? != seg.Literal?)
    requires seg.Literal? ==> stack == []
    requires seg.Wild? ==> IsSyntax(seg.text, stack, more != [])
    requires Group(Units(Print(more), [])) == more
    ensures Group(Units(PrintOne(seg) + Print(more), stack)) == [seg] + more
  {
    if seg.Literal? {
      LiteralThenRest(seg.text, Print(more));
    } else {
      if more != [] {
        SyntaxNotClosed(seg.text, stack);
      }
      SyntaxThenRest(seg.text, stack, Print(more));
    }
  }

  /** Patterns and well-formed segment lists correspond one to one. */
  lemma SegmentsArePatterns(p: string, segs: seq<Segment>)
    ensures ParseSegments(p) == segs <==> WellFormed(segs, []) && Print(segs) == p
  {
    ParsedWellFormed(p, []);
    PrintOfParse(p);
    if WellFormed(segs, []) && Print(segs) == p {
      ParseOfPrint(segs, []);
    }
  }

  // ----- the scanner of the source

  /** What has been collected but not yet flushed, before the segments that follow. */
  function Pending(lit: string, wild: string, segs: seq<Segment>): seq<Segment> {
    if lit != "" then Attach(Literal(lit), segs)
    else if wild != "" then Attach(Wild(wild), segs)
    else segs
  }

  function FlushLit(segments: seq<Segment>, lit: string): seq<Segment> {
    if lit != "" then segments + [Literal(lit)] else segments
  }

  function FlushWild(segments: seq<Segment>, wild: string): seq<Segment> {
    if wild != "" then segments + [Wild(wild)] else segments
  }

  /** A syntax unit flushes the literal run and extends the syntax run. */
  lemma PushWild(segments: seq<Segment>, lit: string, wild: string, text: string, us: seq<Unit>)
    requires text != "" && (lit == "" || wild == "")
    ensures segments + Pending(lit, wild, Group([Syntax(text)] + us)) ==
            FlushLit(segments, lit) + Pending("", wild + text, Group(us))
  {
    assert ([Syntax(text)] + us)[1..] == us;
    assert wild == "" ==> wild + text == text;
    var segs := Group(us);
    if wild != "" && segs != [] && segs[0].Wild? {
      assert wild + (text + segs[0].text) == wild + text + segs[0].text;
    }
  }

  /** A literal byte flushes the syntax run and extends the literal run. */
  lemma PushLit(segments: seq<Segment>, lit: string, wild: string, c: char, us: seq<Unit>)
    requires lit == "" || wild == ""
    ensures segments + Pending(lit, wild, Group([Byte(c)] + us)) ==
            FlushWild(segments, wild) + Pending(lit + [c], "", Group(us))
  {
    assert ([Byte(c)] + us)[1..] == us;
    assert lit == "" ==> lit + [c] == [c];
    var segs := Group(us);
    if lit != "" && segs != [] && segs[0].Literal? {
      assert lit + ([c] + segs[0].text) == lit + [c] + segs[0].text;
    }
  }

  /** The scanner's branches: the unit at `i`, where it ends, and the brackets open after it. */
  method ScanUnit(pattern: string, i: nat, stack: seq<char>) returns (u: Unit, end: nat, next: seq<char>)
    requires i < |pattern|
    ensures end == i + Size(pattern[i..])
    ensures u == FirstUnit(pattern[i..], stack) && next == NextStack(pattern[i..], stack)
  {
    var c, n := pattern[i], |stack|;
    assert pattern[i..][0] == c;
    if i + 1 < |pattern| {
      assert pattern[i..][1] == pattern[i + 1];
      assert pattern[i..][..2] == [c, pattern[i + 1]];
    }
    assert pattern[i..][..1] == [c];
    assert SPECIAL[0] == '\\' && SPECIAL[5] == '(' && SPECIAL[8] == '[';
    next := stack;
    if n > 0 {
      if c == '\\' && i + 1 < |pattern| {
        return Syntax([c, pattern[i + 1]]), i + 2, stack;
      }
      if stack[n - 1] == '[' && c == ']' {
        next := stack[..n - 1];
      } else if stack[n - 1] == '(' && c == '(' {
        next := stack + ['('];
      } else if stack[n - 1] == '(' && c == '[' {
        next := stack + ['['];
      } else if stack[n - 1] == '(' && c == ')' {
        next := stack[..n - 1];
      }
      return Syntax([c]), i + 1, next;
    }
    if c == '\\' && i + 1 < |pattern| {
      if IsSpecial(pattern[i + 1]) {
        return Byte(pattern[i + 1]), i + 2, stack;
      }
      return Syntax([c, pattern[i + 1]]), i + 2, stack;
    }
    if c == '(' || c == '[' {
      return Syntax([c]), i + 1, stack + [c];
    }
    if IsSpecial(c) {
      return Syntax([c]), i + 1, stack;
    }
    return Byte(c), i + 1, stack;
  }

  method ParseFixtureSegments(pattern: string) returns (segments: seq<Segment>)
    ensures segments == ParseSegments(pattern)
  {
    segments := [];
    var lit, wild := "", "";
    var stack: seq<char> := [];
    var i := 0;
    assert pattern[0..] == pattern;
    while i < |pattern|
      invariant 0 <= i <= |pattern|
      invariant lit == "" || wild == ""
      invariant ParseSegments(pattern) == segments + Pending(lit, wild, Group(Units(pattern[i..], stack)))
    {
      ghost var rest := pattern[i..];
      var u, end, next := ScanUnit(pattern, i, stack);
      ghost var us := Units(pattern[end..], next);
      assert rest[Size(rest)..] == pattern[end..];
      assert Units(rest, stack) == [u] + us;
      if u.Syntax? {
        PushWild(segments, lit, wild, u.text, us);
        segments, lit := FlushLit(segments, lit), "";
        wild := wild + u.text;
      } else {
        PushLit(segments, lit, wild, u.c, us);
        segments, wild := FlushWild(segments, wild), "";
        lit := lit + [u.c];
      }
      i, stack := end, next;
    }
    segments := FlushLit(segments, lit);
    segments := FlushWild(segments, wild);
  }
}
