/** Which syntax trees a selector text can have, and what texts have a given tree. */
module CalicoRoundTrip {
  import opened Wrappers
  import opened Sequences
  import opened CalicoLexer
  import opened CalicoLayout
  import opened CalicoGrammar
  import opened CalicoParser

  /** A value some string literal can hold: it lacks one kind of quote. */
  predicate Quotable(v: string) {
    '"' !in v || '\'' !in v
  }

  predicate WellFormed(n: Node) {
    match n
    case LabelEq(key, v) => ValidLabel(key) && Quotable(v)
    case LabelNe(key, v) => ValidLabel(key) && Quotable(v)
    case LabelContains(key, v) => ValidLabel(key) && Quotable(v)
    case LabelStartsWith(key, v) => ValidLabel(key) && Quotable(v)
    case LabelEndsWith(key, v) => ValidLabel(key) && Quotable(v)
    case LabelInSet(key, vs) => ValidLabel(key) && forall v <- vs :: Quotable(v)
    case LabelNotInSet(key, vs) => ValidLabel(key) && forall v <- vs :: Quotable(v)
    case HasLabel(key) => ValidLabel(key)
    case NotNode(op) => WellFormed(op)
    case AndNode(ops) => |ops| >= 2 && forall i :: 0 <= i < |ops| ==> WellFormed(ops[i])
    case OrNode(ops) => |ops| >= 2 && forall i :: 0 <= i < |ops| ==> WellFormed(ops[i])
    case AllNode => true
    case GlobalNode => true
  }

  predicate Spellable(t: Token) {
    match t
    case Label(name) => ValidLabel(name)
    case Has(name) => ValidLabel(name)
    case StringLit(v) => Quotable(v)
    case EOF => false
    case _ => true
  }

  predicate AllSpellable(toks: seq<Token>) {
    forall i :: 0 <= i < |toks| ==> Spellable(toks[i])
  }

  // ----- every parsed tree is well formed

  lemma {:induction false} LayoutSpellable(ls: seq<Lexeme>, tail: string, afterLabel: bool)
    requires Layout(ls, tail, afterLabel)
    ensures AllSpellable(Tokens(ls))
  {
    if ls != [] {
      LayoutSpellable(ls[1..], tail, ls[0].tok.Label?);
    }
  }

  lemma SpellableParts(a: seq<Token>, b: seq<Token>)
    ensures AllSpellable(a + b) <==> AllSpellable(a) && AllSpellable(b)
  {
    assert forall i :: 0 <= i < |a| ==> (a + b)[i] == a[i];
    assert forall i :: 0 <= i < |b| ==> (a + b)[|a| + i] == b[i];
  }

  lemma {:induction false} ElementsSpellable(values: seq<string>, trailing: bool)
    ensures AllSpellable(ElementTokens(values, trailing)) <==> forall v <- values :: Quotable(v)
  {
    if values == [] {
    } else if |values| == 1 {
      assert ElementTokens(values, trailing)[0] == StringLit(values[0]);
    } else {
      ElementsSpellable(values[1..], trailing);
      SpellableParts([StringLit(values[0]), Comma], ElementTokens(values[1..], trailing));
      assert [StringLit(values[0]), Comma][0] == StringLit(values[0]);
      assert values == [values[0]] + values[1..];
    }
  }

  lemma {:induction false} CoreYield(e: Expr)
    ensures AllSpellable(Yield(e)) <==> AllSpellable(Yield(Core(e).1))
  {
    if e.Negated? {
      SpellableParts([Not], Yield(e.e));
      CoreYield(e.e);
    }
  }

  lemma AtomWellFormed(e: Expr)
    requires IsOr(e) && (e.Compare? || e.Member? || e.Defined?)
    ensures WellFormed(Tree(e)) <==> AllSpellable(Yield(e))
  {
    var toks := Yield(e);
    match e
    case Compare(key, op, v) =>
      assert IsAnd(e) && IsOp(e);
      assert toks[0] == Label(key) && toks[1] == op && toks[2] == StringLit(v);
    case Member(key, negated, values, trailing) =>
      var head := [Label(key), if negated then NotIn else In, LBrace];
      assert head[0] == Label(key);
      ElementsSpellable(values, trailing);
      SpellableParts(head + ElementTokens(values, trailing), [RBrace]);
      SpellableParts(head, ElementTokens(values, trailing));
    case Defined(key) =>
      assert toks[0] == Has(key);
  }

  /** The tree of an expression is well formed exactly when all its tokens can be spelled. */
  lemma {:induction false} TreeWellFormed(e: Expr)
    requires IsOr(e)
    ensures WellFormed(Tree(e)) <==> AllSpellable(Yield(e))
  {
    match e
    case Compare(key, op, v) => AtomWellFormed(e);
    case Member(key, negated, values, trailing) => AtomWellFormed(e);
    case Defined(key) => AtomWellFormed(e);
    case Everything =>
    case Everywhere =>
    case Negated(_) =>
      CoreYield(e);
      CoreIsOp(e);
      TreeWellFormed(Core(e).1);
    case Parens(e') =>
      SpellableParts([LParen] + Yield(e'), [RParen]);
      SpellableParts([LParen], Yield(e'));
      assert IsOp(e);
      TreeWellFormed(e');
    case Both(a, b) =>
      assert IsAnd(e);
      TreeWellFormed(a);
      TreeWellFormed(b);
      BothWellFormed(a, b);
      SpellableBinary(Yield(a), And, Yield(b));
    case Either(a, b) =>
      TreeWellFormed(a);
      TreeWellFormed(b);
      EitherWellFormed(a, b);
      SpellableBinary(Yield(a), Or, Yield(b));
  }

  lemma {:induction false} CoreIsOp(e: Expr)
    requires IsOr(e)
    ensures IsOr(Core(e).1)
  {
    if e.Negated? {
      assert IsAnd(e) && IsOp(e) && IsOp(e.e) && IsAnd(e.e);
      CoreIsOp(e.e);
    }
  }

  lemma OperandsWellFormed(ops: seq<Node>, n: Node)
    requires ops != []
    ensures WellFormed(AndNode(ops + [n])) <==> WellFormed(n) && AllWellFormed(ops)
    ensures WellFormed(OrNode(ops + [n])) <==> WellFormed(n) && AllWellFormed(ops)
  {
    assert (ops + [n])[|ops|] == n;
    assert forall i :: 0 <= i < |ops| ==> (ops + [n])[i] == ops[i];
  }

  predicate AllWellFormed(ops: seq<Node>) {
    forall i :: 0 <= i < |ops| ==> WellFormed(ops[i])
  }

  lemma TreeOperands(e: Expr)
    ensures AllWellFormed(AndOperands(e)) <==> WellFormed(Tree(e))
    ensures AllWellFormed(OrOperands(e)) <==> WellFormed(Tree(e))
  {
    var n := Tree(e);
    assert [n][0] == n;
    assert e.Both? ==> n == AndNode(AndOperands(e)) && |AndOperands(e)| >= 2;
    assert e.Either? ==> n == OrNode(OrOperands(e)) && |OrOperands(e)| >= 2;
  }

  lemma BothWellFormed(a: Expr, b: Expr)
    ensures WellFormed(Tree(Both(a, b))) <==> WellFormed(Tree(a)) && WellFormed(Tree(b))
  {
    TreeOperands(a);
    OperandsWellFormed(AndOperands(a), Tree(b));
    assert Tree(Both(a, b)) == AndNode(AndOperands(a) + [Tree(b)]);
  }

  lemma EitherWellFormed(a: Expr, b: Expr)
    ensures WellFormed(Tree(Either(a, b))) <==> WellFormed(Tree(a)) && WellFormed(Tree(b))
  {
    TreeOperands(a);
    OperandsWellFormed(OrOperands(a), Tree(b));
    assert Tree(Either(a, b)) == OrNode(OrOperands(a) + [Tree(b)]);
  }

  lemma SpellableBinary(a: seq<Token>, op: Token, b: seq<Token>)
    requires Spellable(op)
    ensures AllSpellable(a + [op] + b) <==> AllSpellable(a) && AllSpellable(b)
  {
    SpellableParts(a + [op], b);
    SpellableParts(a, [op]);
  }

  // ----- every well-formed tree has an expression

  /** An element order for a set literal. */
  lemma {:induction false} Listed(elements: set<string>) returns (values: seq<string>)
    ensures Elements(values) == elements
  {
    if elements == {} {
      values := [];
    } else {
      var v :| v in elements;
      var rest := Listed(elements - {v});
      values := [v] + rest;
      assert Elements(values) == {v} + Elements(rest);
    }
  }

  /** `e`, in parentheses unless it is an operand as it stands. */
  function Enclosed(e: Expr): (r: Expr)
    requires IsOr(e)
    ensures IsOp(r) && !r.Negated? && Tree(r) == Tree(e)
  {
    if e.Negated? || e.Both? || e.Either? then Parens(e) else assert IsAnd(e); e
  }

  lemma {:induction false} Written(n: Node) returns (e: Expr)
    requires WellFormed(n)
    ensures IsOr(e) && Tree(e) == n
    decreases n, 1
  {
    match n
    case LabelEq(key, v) => e := Compare(key, Eq, v);
    case LabelNe(key, v) => e := Compare(key, Ne, v);
    case LabelContains(key, v) => e := Compare(key, Contains, v);
    case LabelStartsWith(key, v) => e := Compare(key, StartsWith, v);
    case LabelEndsWith(key, v) => e := Compare(key, EndsWith, v);
    case LabelInSet(key, vs) => var values := Listed(vs); e := Member(key, false, values, false);
    case LabelNotInSet(key, vs) => var values := Listed(vs); e := Member(key, true, values, false);
    case HasLabel(key) => e := Defined(key);
    case NotNode(op) => var e' := Written(op); e := Negated(Enclosed(e'));
    case AndNode(ops) => e := WrittenAnd(ops);
    case OrNode(ops) => e := WrittenOr(ops);
    case AllNode => e := Everything;
    case GlobalNode => e := Everywhere;
    assert IsOp(e) || e.Both? || e.Either?;
    assert IsAnd(e) || e.Either?;
  }

  lemma {:induction false} WrittenAnd(ops: seq<Node>) returns (e: Expr)
    requires ops != [] && forall i :: 0 <= i < |ops| ==> WellFormed(ops[i])
    ensures IsAnd(e) && AndOperands(e) == ops && (|ops| > 1 ==> e.Both?)
    decreases ops, 0
  {
    var last := Written(ops[|ops| - 1]);
    if |ops| == 1 {
      e := Enclosed(last);
    } else {
      var init := WrittenAnd(ops[..|ops| - 1]);
      e := Both(init, Enclosed(last));
    }
  }

  lemma {:induction false} WrittenOr(ops: seq<Node>) returns (e: Expr)
    requires ops != [] && forall i :: 0 <= i < |ops| ==> WellFormed(ops[i])
    ensures IsOr(e) && OrOperands(e) == ops && (|ops| > 1 ==> e.Either?)
    decreases ops, 0
  {
    var last := Written(ops[|ops| - 1]);
    assert IsAnd(Enclosed(last));
    if |ops| == 1 {
      e := Enclosed(last);
    } else {
      var init := WrittenOr(ops[..|ops| - 1]);
      e := Either(init, Enclosed(last));
    }
  }

  // ----- an expression with blanks between its tokens is a text

  predicate StartsWord(t: Token) {
    IsOperand(t) || IsOperatorWord(t)
  }

  /** Operator words stand after labels and nowhere else; a two-word operator is not followed by a word. */
  predicate Adjacent(toks: seq<Token>, afterLabel: bool) {
    toks == [] || (
      && (IsOperand(toks[0]) ==> !afterLabel)
      && (IsOperatorWord(toks[0]) ==> afterLabel)
      && (toks[0].NotIn? || toks[0].StartsWith? || toks[0].EndsWith? ==> |toks| == 1 || !StartsWord(toks[1]))
      && Adjacent(toks[1..], toks[0].Label?))
  }

  lemma AdjacentNext(t: Token, toks: seq<Token>, afterLabel: bool)
    requires Adjacent(toks, t.Label?)
    requires IsOperand(t) ==> !afterLabel
    requires IsOperatorWord(t) ==> afterLabel
    requires t.NotIn? || t.StartsWith? || t.EndsWith? ==> toks == [] || !StartsWord(toks[0])
    ensures Adjacent([t] + toks, afterLabel)
  {
    assert ([t] + toks)[1..] == toks;
  }

  lemma {:induction false} ElementsAdjacent(values: seq<string>, trailing: bool, rest: seq<Token>)
    requires Adjacent(rest, false)
    ensures Adjacent(ElementTokens(values, trailing) + rest, false)
  {
    if values == [] {
      assert ElementTokens(values, trailing) + rest == rest;
    } else {
      AdjacentNext(StringLit(values[0]), rest, false);
      CommaAdjacent(values[0], rest);
      if |values| > 1 {
        var more := ElementTokens(values[1..], trailing);
        ElementsAdjacent(values[1..], trailing, rest);
        CommaAdjacent(values[0], more + rest);
        Regroup([StringLit(values[0]), Comma], more, rest);
      } else {
        assert [StringLit(values[0])] + [Comma] == [StringLit(values[0]), Comma];
        assert [StringLit(values[0])] + [] == [StringLit(values[0])];
      }
    }
  }

  lemma CommaAdjacent(value: string, rest: seq<Token>)
    requires Adjacent(rest, false)
    ensures Adjacent([StringLit(value), Comma] + rest, false)
  {
    AdjacentNext(Comma, rest, false);
    AdjacentNext(StringLit(value), [Comma] + rest, false);
    assert [StringLit(value), Comma] + rest == [StringLit(value)] + ([Comma] + rest);
  }

  lemma MemberHeadAdjacent(key: string, op: Token, after: seq<Token>)
    requires op == In || op == NotIn
    requires Adjacent(after, false)
    ensures Adjacent([Label(key), op, LBrace] + after, false)
  {
    AdjacentNext(LBrace, after, false);
    AdjacentNext(op, [LBrace] + after, true);
    AdjacentNext(Label(key), [op] + ([LBrace] + after), false);
    assert [Label(key), op, LBrace] + after == [Label(key)] + ([op] + ([LBrace] + after));
  }

  lemma MemberAdjacent(key: string, negated: bool, values: seq<string>, trailing: bool, rest: seq<Token>)
    requires Adjacent(rest, false)
    ensures Adjacent(Yield(Member(key, negated, values, trailing)) + rest, false)
  {
    var op := if negated then NotIn else In;
    var elements := ElementTokens(values, trailing);
    var after := elements + ([RBrace] + rest);
    AdjacentNext(RBrace, rest, false);
    ElementsAdjacent(values, trailing, [RBrace] + rest);
    MemberHeadAdjacent(key, op, after);
    var head := [Label(key), op, LBrace];
    Regroup(elements, [RBrace], rest);
    Regroup(head, elements, [RBrace]);
    Regroup(head, elements + [RBrace], rest);
  }

  lemma AtomAdjacent(e: Expr, rest: seq<Token>)
    requires IsOp(e) && !e.Negated? && !e.Parens? && Adjacent(rest, false)
    ensures Adjacent(Yield(e) + rest, false)
  {
    match e
    case Compare(key, op, v) =>
      AdjacentNext(StringLit(v), rest, false);
      AdjacentNext(op, [StringLit(v)] + rest, true);
      AdjacentNext(Label(key), [op] + ([StringLit(v)] + rest), false);
      assert Yield(e) + rest == [Label(key)] + ([op] + ([StringLit(v)] + rest));
    case Member(key, negated, values, trailing) =>
      MemberAdjacent(key, negated, values, trailing, rest);
    case Defined(key) => AdjacentNext(Has(key), rest, false);
    case Everything => AdjacentNext(All, rest, false);
    case Everywhere => AdjacentNext(Global, rest, false);
  }

  lemma PartsAreOr(e: Expr)
    requires IsOr(e)
    ensures e.Both? || e.Either? ==> IsOr(e.left) && IsOr(e.right)
    ensures e.Negated? || e.Parens? ==> IsOr(e.e)
    ensures !e.Both? && !e.Either? ==> IsOp(e)
  {
    if e.Both? {
      assert IsAnd(e) && IsAnd(e.right);
    } else if !e.Either? {
      assert IsAnd(e) && IsOp(e);
      assert e.Negated? ==> IsOp(e.e) && IsAnd(e.e);
    }
  }

  lemma BinaryAdjacent(a: seq<Token>, op: Token, b: seq<Token>, rest: seq<Token>)
    requires op == And || op == Or
    requires Adjacent(b + rest, false)
    requires Adjacent([op] + (b + rest), false) ==> Adjacent(a + ([op] + (b + rest)), false)
    ensures Adjacent(a + [op] + b + rest, false)
  {
    AdjacentNext(op, b + rest, false);
    RegroupBinary(a, op, b, rest);
  }

  lemma NegatedAdjacent(toks: seq<Token>, rest: seq<Token>)
    requires Adjacent(toks + rest, false)
    ensures Adjacent([Not] + toks + rest, false)
  {
    AdjacentNext(Not, toks + rest, false);
    RegroupBinary([], Not, toks, rest);
  }

  lemma ParensAdjacent(toks: seq<Token>, rest: seq<Token>)
    requires Adjacent(toks + ([RParen] + rest), false)
    ensures Adjacent([LParen] + toks + [RParen] + rest, false)
  {
    AdjacentNext(LParen, toks + ([RParen] + rest), false);
    assert [LParen] + toks + [RParen] + rest == [LParen] + (toks + ([RParen] + rest));
  }

  lemma {:induction false} YieldAdjacent(e: Expr, rest: seq<Token>)
    requires IsOr(e) && Adjacent(rest, false)
    ensures Adjacent(Yield(e) + rest, false)
  {
    PartsAreOr(e);
    if e.Both? || e.Either? {
      var op, after := if e.Both? then And else Or, Yield(e.right) + rest;
      YieldAdjacent(e.right, rest);
      if Adjacent([op] + after, false) {
        YieldAdjacent(e.left, [op] + after);
      }
      BinaryAdjacent(Yield(e.left), op, Yield(e.right), rest);
    } else if e.Negated? {
      YieldAdjacent(e.e, rest);
      NegatedAdjacent(Yield(e.e), rest);
    } else if e.Parens? {
      AdjacentNext(RParen, rest, false);
      YieldAdjacent(e.e, [RParen] + rest);
      ParensAdjacent(Yield(e.e), rest);
    } else {
      AtomAdjacent(e, rest);
    }
  }

  /** Spellings of tokens, each but the first after at least one blank. */
  ghost predicate Separated(ls: seq<Lexeme>) {
    && (forall i :: 0 <= i < |ls| ==> AllSpace(ls[i].gap) && Spells(ls[i].tok, ls[i].text))
    && (forall i :: 0 < i < |ls| ==> ls[i].gap != "")
  }

  lemma FirstByte(t: Token, text: string)
    requires Spells(t, text)
    ensures text != "" && !IsSpace(text[0])
    ensures !StartsWord(t) ==> !IsIdent(text[0])
  {
    if IsOperand(t) {
      SpelledOperand(t, text, "");
    } else if IsOperatorWord(t) {
      OperatorFirstByte(t, text);
    }
  }

  /** What follows a token when at least one blank, or nothing, comes next. */
  lemma AfterBlanks(ls: seq<Lexeme>, tail: string)
    requires Separated(ls) && AllSpace(tail) && (ls != [] ==> ls[0].gap != "")
    ensures var after := Text(ls, tail);
            && (after == "" || IsSpace(after[0]))
            && (ls == [] || !StartsWord(ls[0].tok) ==> IsWordBoundary(Trim(after)))
  {
    if ls == [] {
      TrimGap(tail, "");
      assert tail + "" == tail;
    } else {
      FirstByte(ls[0].tok, ls[0].text);
      AfterGap(ls[0].gap, ls[0].text, Text(ls[1..], tail));
    }
  }

  lemma AfterGap(gap: string, text: string, rest: string)
    requires AllSpace(gap) && gap != "" && text != "" && !IsSpace(text[0])
    ensures IsSpace((gap + text + rest)[0])
    ensures !IsIdent(text[0]) ==> IsWordBoundary(Trim(gap + text + rest))
  {
    assert gap + text + rest == gap + (text + rest);
    TrimGap(gap, text + rest);
    TrimTight(text + rest);
  }

  lemma {:induction false} SeparatedLayout(ls: seq<Lexeme>, tail: string, afterLabel: bool)
    requires Separated(ls) && AllSpace(tail) && Adjacent(Tokens(ls), afterLabel)
    ensures Layout(ls, tail, afterLabel)
  {
    if ls != [] {
      assert Separated(ls[1..]);
      assert Tokens(ls)[1..] == Tokens(ls[1..]);
      assert |ls| > 1 ==> Tokens(ls)[1] == ls[1].tok;
      AfterBlanks(ls[1..], tail);
      SeparatedLayout(ls[1..], tail, ls[0].tok.Label?);
    }
  }

  // ----- main results

  /**
    Printing undone: any derivation of a tree, written out with any spellings of its tokens and any
    non-empty runs of blanks between them, parses to that tree.
   */
  lemma PrintThenParse(n: Node, e: Expr, ls: seq<Lexeme>, tail: string)
    requires IsOr(e) && Tree(e) == n
    requires Tokens(ls) == Yield(e) && Separated(ls) && AllSpace(tail)
    ensures ParseText(Text(ls, tail)) == Ok(n)
  {
    assert Yield(e) + [] == Yield(e);
    YieldAdjacent(e, []);
    SeparatedLayout(ls, tail, false);
    LayoutLexes(ls, tail, false);
    LexedParses(e);
  }

  lemma LexedParses(e: Expr)
    requires IsOr(e)
    ensures EndsAtEOF(Yield(e) + [EOF]) ==> ParseTokens(Yield(e) + [EOF]) == Ok(Tree(e))
  {
    if EndsAtEOF(Yield(e) + [EOF]) {
      ParseIffDerives(Yield(e) + [EOF], Tree(e));
    }
  }

  /** A text parses to `n` exactly when it is laid out as a sentence of the grammar with tree `n`. */
  lemma ParseTextIff(s: string, n: Node)
    ensures ParseText(s) == Ok(n) <==>
            exists ls, tail :: Layout(ls, tail, false) && Text(ls, tail) == s && Derives(Tokens(ls) + [EOF], n)
  {
    if ParseText(s) == Ok(n) {
      var toks := Lex(s, false).value;
      var ls, tail := LexedLayout(s, false, toks);
      ParseIffDerives(toks, n);
    }
    if ls, tail :| Layout(ls, tail, false) && Text(ls, tail) == s && Derives(Tokens(ls) + [EOF], n) {
      LayoutLexes(ls, tail, false);
      ParseIffDerives(Tokens(ls) + [EOF], n);
    }
  }

  lemma {:induction false} SingleSpaced(toks: seq<Token>) returns (ls: seq<Lexeme>)
    requires AllSpellable(toks)
    ensures Separated(ls) && Tokens(ls) == toks && (ls != [] ==> ls[0].gap == " ")
  {
    if toks == [] {
      ls := [];
    } else {
      var rest := SingleSpaced(toks[1..]);
      var text := Spelling(toks[0]);
      ls := [Lexeme(" ", toks[0], text)] + rest;
      assert ls[1..] == rest;
    }
  }

  lemma Spelling(t: Token) returns (text: string)
    requires Spellable(t)
    ensures Spells(t, text)
  {
    assert AllSpace("") && AllSpace(" ");
    match t
    case Label(name) => text := name;
    case StringLit(v) => text := if '"' !in v then ['"'] + v + ['"'] else ['\''] + v + ['\''];
    case LBrace => text := "{";
    case RBrace => text := "}";
    case Comma => text := ",";
    case LParen => text := "(";
    case RParen => text := ")";
    case Eq => text := "==";
    case Ne => text := "!=";
    case And => text := "&&";
    case Or => text := "||";
    case Not => text := "!";
    case In => text := "in";
    case Contains => text := "contains";
    case NotIn => text := "not" + " " + "in";
    case StartsWith => text := "starts" + " " + "with";
    case EndsWith => text := "ends" + " " + "with";
    case All => text := "all(" + "" + ")";
    case Global => text := "global(" + "" + ")";
    case Has(name) => text := "has(" + "" + name + "" + ")";
  }

  /** The trees of selector texts are exactly the well-formed ones. */
  lemma ParsedIffWellFormed(n: Node)
    ensures (exists s :: ParseText(s) == Ok(n)) <==> WellFormed(n)
  {
    if s :| ParseText(s) == Ok(n) {
      ParseTextIff(s, n);
      var ls, tail :| Layout(ls, tail, false) && Text(ls, tail) == s && Derives(Tokens(ls) + [EOF], n);
      LayoutSpellable(ls, tail, false);
      if Tokens(ls) + [EOF] != [EOF] {
        var e :| IsOr(e) && Tokens(ls) + [EOF] == Yield(e) + [EOF] && n == Tree(e);
        assert Tokens(ls) == (Tokens(ls) + [EOF])[..|ls|] == Yield(e);
        TreeWellFormed(e);
      }
    }
    if WellFormed(n) {
      var e := Written(n);
      TreeWellFormed(e);
      var ls := SingleSpaced(Yield(e));
      PrintThenParse(n, e, ls, "");
    }
  }
}
