/**
  The recursive-descent parser, first as functions that return derivations, then as the loops of the
  source, which build the flattened tree directly.
 */
module CalicoParser {
  import opened Wrappers
  import opened Sequences
  import opened CalicoLexer
  import opened CalicoGrammar

  datatype ParseError =
    | UnexpectedEOF
    | ExpectedRParen
    | ExpectedRBrace
    | ExpectedString
    | ExpectedSetLiteral
    | ExpectedComparison(found: Token)
    | UnexpectedToken(found: Token)
    | TrailingContent(rest: seq<Token>)
    | Untokenizable(lexError: LexError)

  type Parsed = Result<(Expr, seq<Token>), ParseError>

  /** What every parser function is given: tokens with an EOF at the end. */
  predicate Terminated(toks: seq<Token>) {
    toks != [] && toks[|toks| - 1] == EOF
  }

  /** What is left is a proper suffix that still holds the EOF. */
  predicate Shrinks(r: Parsed, toks: seq<Token>) {
    r.Ok? ==> Terminated(r.value.1) && |r.value.1| < |toks|
  }

  /** String literals separated by commas, and whether a comma follows the last. */
  function ParseElements(toks: seq<Token>): (r: (seq<string>, bool, seq<Token>))
    requires Terminated(toks)
    ensures Terminated(r.2) && |r.2| <= |toks|
    decreases |toks|
  {
    if !toks[0].StringLit? then ([], false, toks)
    else if !toks[1].Comma? then ([toks[0].text], false, toks[1..])
    else
      var (values, trailing, rest) := ParseElements(toks[2..]);
      if values == [] then ([toks[0].text], true, rest)
      else ([toks[0].text] + values, trailing, rest)
  }

  function ParseSet(key: string, negated: bool, toks: seq<Token>): (r: Parsed)
    requires Terminated(toks)
    ensures Shrinks(r, toks)
  {
    var (values, trailing, rest) := ParseElements(toks);
    if rest[0].RBrace? then Ok((Member(key, negated, values, trailing), rest[1..])) else Err(ExpectedRBrace)
  }

  /** label op string, or label [not] in set. */
  function ParseLabel(toks: seq<Token>): (r: Parsed)
    requires Terminated(toks) && toks[0].Label?
    ensures Shrinks(r, toks)
    ensures r.Ok? ==> !r.value.0.Both? && !r.value.0.Either?
  {
    if |toks| < 3 then Err(UnexpectedEOF)
    else
      var key, op := toks[0].name, toks[1];
      if IsCompareOp(op) then
        if toks[2].StringLit? then Ok((Compare(key, op, toks[2].text), toks[3..])) else Err(ExpectedString)
      else if op.In? || op.NotIn? then
        if toks[2].LBrace? then ParseSet(key, op.NotIn?, toks[3..]) else Err(ExpectedSetLiteral)
      else Err(ExpectedComparison(op))
  }

  function ParseOp(toks: seq<Token>): (r: Parsed)
    requires Terminated(toks)
    ensures Shrinks(r, toks)
    ensures r.Ok? ==> !r.value.0.Both? && !r.value.0.Either?
    decreases |toks|, 0
  {
    match toks[0]
    case Not =>
      (match ParseOp(toks[1..])
       case Ok((e, rest)) => Ok((Negated(e), rest))
       case Err(err) => Err(err))
    case Has(l) => Ok((Defined(l), toks[1..]))
    case All => Ok((Everything, toks[1..]))
    case Global => Ok((Everywhere, toks[1..]))
    case Label(_) => ParseLabel(toks)
    case LParen =>
      (match ParseOr(toks[1..])
       case Ok((e, rest)) => if rest[0].RParen? then Ok((Parens(e), rest[1..])) else Err(ExpectedRParen)
       case Err(err) => Err(err))
    case t => Err(UnexpectedToken(t))
  }

  /** More `&&` operands for what has been parsed so far. */
  function AndRest(e: Expr, toks: seq<Token>): (r: Parsed)
    requires Terminated(toks)
    ensures r.Ok? ==> Terminated(r.value.1) && |r.value.1| <= |toks| && !r.value.1[0].And?
    ensures r.Ok? && !e.Either? ==> !r.value.0.Either?
    decreases |toks|, 1
  {
    if !toks[0].And? then Ok((e, toks))
    else
      match ParseOp(toks[1..])
      case Ok((e', rest)) => AndRest(Both(e, e'), rest)
      case Err(err) => Err(err)
  }

  function ParseAnd(toks: seq<Token>): (r: Parsed)
    requires Terminated(toks)
    ensures Shrinks(r, toks)
    ensures r.Ok? ==> !r.value.0.Either?
    decreases |toks|, 2
  {
    match ParseOp(toks)
    case Ok((e, rest)) => AndRest(e, rest)
    case Err(err) => Err(err)
  }

  /** More `||` operands for what has been parsed so far. */
  function OrRest(e: Expr, toks: seq<Token>): (r: Parsed)
    requires Terminated(toks)
    ensures r.Ok? ==> Terminated(r.value.1) && |r.value.1| <= |toks|
    decreases |toks|, 3
  {
    if !toks[0].Or? then Ok((e, toks))
    else
      match ParseAnd(toks[1..])
      case Ok((e', rest)) => OrRest(Either(e, e'), rest)
      case Err(err) => Err(err)
  }

  function ParseOr(toks: seq<Token>): (r: Parsed)
    requires Terminated(toks)
    ensures Shrinks(r, toks)
    decreases |toks|, 4
  {
    match ParseAnd(toks)
    case Ok((e, rest)) => OrRest(e, rest)
    case Err(err) => Err(err)
  }

  /** A whole token sequence: empty means all(), otherwise one expression and nothing more. */
  function ParseTokens(toks: seq<Token>): Result<Node, ParseError>
    requires EndsAtEOF(toks)
  {
    if toks[0].EOF? then Ok(AllNode)
    else
      match ParseOr(toks)
      case Err(err) => Err(err)
      case Ok((e, rest)) => if |rest| == 1 && rest[0].EOF? then Ok(Tree(e)) else Err(TrailingContent(rest))
  }

  function ParseText(selector: string): Result<Node, ParseError> {
    match Lex(selector, false)
    case Err(err) => Err(Untokenizable(err))
    case Ok(toks) => ParseTokens(toks)
  }

  // ----- what is returned is a derivation of what was consumed

  lemma {:induction false} ElementsSound(toks: seq<Token>)
    requires Terminated(toks)
    ensures var (values, trailing, rest) := ParseElements(toks);
            toks == ElementTokens(values, trailing) + rest && (trailing ==> values != [])
    decreases |toks|
  {
    if toks[0].StringLit? {
      var v := toks[0].text;
      if toks[1].Comma? {
        ElementsSound(toks[2..]);
        var (values, trailing, rest) := ParseElements(toks[2..]);
        assert toks == [StringLit(v), Comma] + toks[2..];
        ElementMore(v, values, trailing, rest);
      } else {
        assert toks == [StringLit(v)] + toks[1..];
      }
    }
  }

  lemma ElementMore(v: string, values: seq<string>, trailing: bool, rest: seq<Token>)
    ensures values != [] ==>
              ElementTokens([v] + values, trailing) + rest == [StringLit(v), Comma] + (ElementTokens(values, trailing) + rest)
    ensures ElementTokens([v], true) == [StringLit(v), Comma]
  {
    if values != [] {
      assert ([v] + values)[1..] == values;
      Regroup([StringLit(v), Comma], ElementTokens(values, trailing), rest);
    }
  }

  lemma LabelSound(toks: seq<Token>)
    requires Terminated(toks) && toks[0].Label? && ParseLabel(toks).Ok?
    ensures IsOp(ParseLabel(toks).value.0)
    ensures toks == Yield(ParseLabel(toks).value.0) + ParseLabel(toks).value.1
  {
    var head := [toks[0], toks[1], toks[2]];
    assert toks == head + toks[3..];
    if toks[1].In? || toks[1].NotIn? {
      SetSound(toks[0].name, toks[1].NotIn?, toks[3..]);
    }
  }

  lemma SetSound(key: string, negated: bool, toks: seq<Token>)
    requires Terminated(toks) && ParseSet(key, negated, toks).Ok?
    ensures IsOp(ParseSet(key, negated, toks).value.0)
    ensures [Label(key), if negated then NotIn else In, LBrace] + toks ==
            Yield(ParseSet(key, negated, toks).value.0) + ParseSet(key, negated, toks).value.1
  {
    ElementsSound(toks);
    var (values, trailing, rest) := ParseElements(toks);
    var head, elements := [Label(key), if negated then NotIn else In, LBrace], ElementTokens(values, trailing);
    assert rest == [RBrace] + rest[1..];
    Regroup(elements, [RBrace], rest[1..]);
    Regroup(head, elements, [RBrace]);
    Regroup(head, elements + [RBrace], rest[1..]);
  }

  lemma RegroupBinary(a: seq<Token>, op: Token, b: seq<Token>, rest: seq<Token>)
    ensures a + [op] + b + rest == a + ([op] + (b + rest))
    ensures [op] + b + rest == [op] + (b + rest)
    ensures ([op] + rest)[0] == op && ([op] + rest)[1..] == rest
  {
  }

  lemma {:induction false} OpSound(toks: seq<Token>)
    requires Terminated(toks) && ParseOp(toks).Ok?
    ensures IsOp(ParseOp(toks).value.0)
    ensures toks == Yield(ParseOp(toks).value.0) + ParseOp(toks).value.1
    decreases |toks|, 0
  {
    assert toks == [toks[0]] + toks[1..];
    if toks[0].Not? {
      OpSound(toks[1..]);
      var (e, rest) := ParseOp(toks[1..]).value;
      Regroup([Not], Yield(e), rest);
    } else if toks[0].LParen? {
      OrSound(toks[1..]);
      var (e, rest) := ParseOr(toks[1..]).value;
      assert rest == [RParen] + rest[1..];
      Regroup([LParen], Yield(e), rest);
      Regroup([LParen] + Yield(e), [RParen], rest[1..]);
    } else if toks[0].Label? {
      LabelSound(toks);
    }
  }

  lemma {:induction false} AndRestSound(e: Expr, toks: seq<Token>)
    requires Terminated(toks) && IsAnd(e) && AndRest(e, toks).Ok?
    ensures IsAnd(AndRest(e, toks).value.0)
    ensures Yield(e) + toks == Yield(AndRest(e, toks).value.0) + AndRest(e, toks).value.1
    decreases |toks|, 1
  {
    if toks[0].And? {
      OpSound(toks[1..]);
      var (e', rest) := ParseOp(toks[1..]).value;
      assert toks == [And] + toks[1..];
      Regroup(Yield(e), [And], toks[1..]);
      Regroup(Yield(e) + [And], Yield(e'), rest);
      AndRestSound(Both(e, e'), rest);
    }
  }

  lemma AndSound(toks: seq<Token>)
    requires Terminated(toks) && ParseAnd(toks).Ok?
    ensures IsAnd(ParseAnd(toks).value.0)
    ensures toks == Yield(ParseAnd(toks).value.0) + ParseAnd(toks).value.1
    decreases |toks|, 2
  {
    OpSound(toks);
    AndRestSound(ParseOp(toks).value.0, ParseOp(toks).value.1);
  }

  lemma {:induction false} OrRestSound(e: Expr, toks: seq<Token>)
    requires Terminated(toks) && IsOr(e) && OrRest(e, toks).Ok?
    ensures IsOr(OrRest(e, toks).value.0)
    ensures Yield(e) + toks == Yield(OrRest(e, toks).value.0) + OrRest(e, toks).value.1
    decreases |toks|, 3
  {
    if toks[0].Or? {
      AndSound(toks[1..]);
      var (e', rest) := ParseAnd(toks[1..]).value;
      assert toks == [Or] + toks[1..];
      Regroup(Yield(e), [Or], toks[1..]);
      Regroup(Yield(e) + [Or], Yield(e'), rest);
      OrRestSound(Either(e, e'), rest);
    }
  }

  lemma OrSound(toks: seq<Token>)
    requires Terminated(toks) && ParseOr(toks).Ok?
    ensures IsOr(ParseOr(toks).value.0)
    ensures toks == Yield(ParseOr(toks).value.0) + ParseOr(toks).value.1
    decreases |toks|, 4
  {
    AndSound(toks);
    OrRestSound(ParseAnd(toks).value.0, ParseAnd(toks).value.1);
  }

  // ----- every derivation is found

  lemma {:induction false} ElementsParsed(values: seq<string>, trailing: bool, rest: seq<Token>)
    requires Terminated(rest) && rest[0].RBrace?
    requires trailing ==> values != []
    ensures Terminated(ElementTokens(values, trailing) + rest)
    ensures ParseElements(ElementTokens(values, trailing) + rest) == (values, trailing, rest)
  {
    var toks := ElementTokens(values, trailing) + rest;
    if values == [] {
      assert toks == rest;
    } else if |values| == 1 {
      assert toks[0] == StringLit(values[0]);
      assert values == [values[0]];
      if trailing {
        assert toks[1] == Comma && toks[2..] == rest;
      } else {
        assert toks[1..] == rest;
      }
    } else {
      ElementsParsed(values[1..], trailing, rest);
      assert toks[0] == StringLit(values[0]) && toks[1] == Comma;
      assert toks[2..] == ElementTokens(values[1..], trailing) + rest;
      assert [values[0]] + values[1..] == values;
    }
  }

  lemma MemberParsed(e: Expr, rest: seq<Token>)
    requires e.Member? && IsOp(e) && Terminated(rest)
    ensures ParseOp(Yield(e) + rest) == Ok((e, rest))
  {
    var elements := ElementTokens(e.values, e.trailingComma);
    var head := [Label(e.key), if e.negated then NotIn else In, LBrace];
    ElementsParsed(e.values, e.trailingComma, [RBrace] + rest);
    Regroup(elements, [RBrace], rest);
    Regroup(head, elements, [RBrace]);
    Regroup(head, elements + [RBrace], rest);
    SetParsed(e, elements + ([RBrace] + rest), rest);
  }

  lemma SetParsed(e: Expr, set': seq<Token>, rest: seq<Token>)
    requires e.Member? && Terminated(set') && Terminated(rest)
    requires ParseElements(set') == (e.values, e.trailingComma, [RBrace] + rest)
    ensures ParseOp([Label(e.key), if e.negated then NotIn else In, LBrace] + set') == Ok((e, rest))
  {
    assert ([RBrace] + rest)[1..] == rest;
    assert ParseSet(e.key, e.negated, set') == Ok((e, rest));
    LabelThenSet(e.key, e.negated, set');
  }

  lemma LabelThenSet(key: string, negated: bool, set': seq<Token>)
    requires Terminated(set')
    ensures ParseOp([Label(key), if negated then NotIn else In, LBrace] + set') == ParseSet(key, negated, set')
  {
    var toks := [Label(key), if negated then NotIn else In, LBrace] + set';
    assert toks[0] == Label(key) && toks[3..] == set';
    assert ParseOp(toks) == ParseLabel(toks);
  }

  lemma CompareParsed(e: Expr, rest: seq<Token>)
    requires e.Compare? && IsOp(e) && Terminated(rest)
    ensures ParseOp(Yield(e) + rest) == Ok((e, rest))
  {
    assert (Yield(e) + rest)[3..] == rest;
  }

  lemma NegatedParsed(e: Expr, rest: seq<Token>)
    requires Terminated(Yield(e) + rest) && ParseOp(Yield(e) + rest) == Ok((e, rest))
    ensures ParseOp(Yield(Negated(e)) + rest) == Ok((Negated(e), rest))
  {
    Regroup([Not], Yield(e), rest);
    assert ([Not] + (Yield(e) + rest))[1..] == Yield(e) + rest;
  }

  lemma CallParsed(e: Expr, rest: seq<Token>)
    requires (e.Defined? || e.Everything? || e.Everywhere?) && Terminated(rest)
    ensures ParseOp(Yield(e) + rest) == Ok((e, rest))
  {
    assert (Yield(e) + rest)[1..] == rest;
  }

  lemma {:induction false} OpParsed(e: Expr, rest: seq<Token>)
    requires IsOp(e) && Terminated(rest)
    ensures Terminated(Yield(e) + rest)
    ensures ParseOp(Yield(e) + rest) == Ok((e, rest))
    decreases e, 0
  {
    if e.Negated? {
      OpParsed(e.e, rest);
      NegatedParsed(e.e, rest);
    } else if e.Parens? {
      OrParsed(e.e, [RParen] + rest);
      ParensParsed(e.e, rest);
    } else if e.Compare? {
      CompareParsed(e, rest);
    } else if e.Member? {
      MemberParsed(e, rest);
    } else {
      CallParsed(e, rest);
    }
  }

  lemma ParensParsed(e: Expr, rest: seq<Token>)
    requires Terminated(rest) && Terminated(Yield(e) + ([RParen] + rest))
    requires ParseOr(Yield(e) + ([RParen] + rest)) == OrRest(e, [RParen] + rest)
    ensures ParseOp(Yield(Parens(e)) + rest) == Ok((Parens(e), rest))
  {
    var toks := Yield(Parens(e)) + rest;
    assert toks[0] == LParen && toks[1..] == Yield(e) + ([RParen] + rest);
    assert ([RParen] + rest)[1..] == rest;
  }

  lemma {:induction false} AndParsed(e: Expr, rest: seq<Token>)
    requires IsAnd(e) && Terminated(rest)
    ensures Terminated(Yield(e) + rest)
    ensures ParseAnd(Yield(e) + rest) == AndRest(e, rest)
    decreases e, 1
  {
    if e.Both? {
      var after := Yield(e.right) + rest;
      OpParsed(e.right, rest);
      AndParsed(e.left, [And] + after);
      RegroupBinary(Yield(e.left), And, Yield(e.right), rest);
      RegroupBinary([], And, [], after);
    } else {
      OpParsed(e, rest);
    }
  }

  lemma {:induction false} OrParsed(e: Expr, rest: seq<Token>)
    requires IsOr(e) && Terminated(rest) && !rest[0].And?
    ensures Terminated(Yield(e) + rest)
    ensures ParseOr(Yield(e) + rest) == OrRest(e, rest)
    decreases e, 2
  {
    if e.Either? {
      var after := Yield(e.right) + rest;
      AndParsed(e.right, rest);
      OrParsed(e.left, [Or] + after);
      RegroupBinary(Yield(e.left), Or, Yield(e.right), rest);
      RegroupBinary([], Or, [], after);
    } else {
      AndParsed(e, rest);
    }
  }

  /** `toks` is the empty selector, or derives from the grammar with the tree `n`. */
  ghost predicate Derives(toks: seq<Token>, n: Node) {
    || (toks == [EOF] && n == AllNode)
    || exists e :: IsOr(e) && toks == Yield(e) + [EOF] && n == Tree(e)
  }

  /** Parsing succeeds exactly on the empty selector and the grammar's sentences, with their tree. */
  lemma ParseIffDerives(toks: seq<Token>, n: Node)
    requires EndsAtEOF(toks)
    ensures ParseTokens(toks) == Ok(n) <==> Derives(toks, n)
  {
    if ParseTokens(toks) == Ok(n) && !toks[0].EOF? {
      OrSound(toks);
      assert ParseOr(toks).value.1 == [EOF];
    }
    if Derives(toks, n) && toks != [EOF] {
      var e :| IsOr(e) && toks == Yield(e) + [EOF] && n == Tree(e);
      OrParsed(e, [EOF]);
      assert toks[0] == Yield(e)[0];
    }
  }

  /** The grammar is unambiguous: a sentence has one derivation. */
  lemma DerivationUnique(e1: Expr, e2: Expr)
    requires IsOr(e1) && IsOr(e2) && Yield(e1) == Yield(e2)
    ensures e1 == e2
  {
    OrParsed(e1, [EOF]);
    OrParsed(e2, [EOF]);
  }

  // ----- the parser of the source

  type BuiltNode = Result<(Node, seq<Token>), ParseError>

  function Built(r: Parsed): BuiltNode {
    match r
    case Ok((e, rest)) => Ok((Tree(e), rest))
    case Err(err) => Err(err)
  }

  function Negations(k: nat, e: Expr): Expr {
    if k == 0 then e else Negated(Negations(k - 1, e))
  }

  lemma {:induction false} NegationsOf(k: nat, e: Expr)
    ensures Negations(k, Negated(e)) == Negations(k + 1, e)
    ensures !e.Negated? ==> Core(Negations(k, e)) == (k % 2 == 1, e)
  {
    if k != 0 {
      NegationsOf(k - 1, e);
    }
  }

  function WithNegations(k: nat, r: Parsed): Parsed {
    match r
    case Ok((e, rest)) => Ok((Negations(k, e), rest))
    case Err(err) => Err(err)
  }

  method ParseOrExpression(tokens: seq<Token>) returns (r: BuiltNode)
    requires Terminated(tokens)
    ensures r == Built(ParseOr(tokens))
    decreases |tokens|, 2
  {
    var first := ParseAndExpression(tokens);
    if first.Err? {
      return first;
    }
    var (n, remTokens) := first.value;
    var orOperands := [n];
    ghost var e := ParseAnd(tokens).value.0;
    while true
      invariant Terminated(remTokens) && |remTokens| < |tokens|
      invariant ParseOr(tokens) == OrRest(e, remTokens)
      invariant orOperands == OrOperands(e)
      decreases |remTokens|
    {
      if !remTokens[0].Or? {
        break;
      }
      var next := ParseAndExpression(remTokens[1..]);
      if next.Err? {
        return next;
      }
      e := Either(e, ParseAnd(remTokens[1..]).value.0);
      orOperands := orOperands + [next.value.0];
      remTokens := next.value.1;
    }
    if |orOperands| == 1 {
      return Ok((orOperands[0], remTokens));
    }
    return Ok((OrNode(orOperands), remTokens));
  }

  method ParseAndExpression(tokens: seq<Token>) returns (r: BuiltNode)
    requires Terminated(tokens)
    ensures r == Built(ParseAnd(tokens))
    decreases |tokens|, 1
  {
    var first := ParseOperation(tokens);
    if first.Err? {
      return first;
    }
    var (n, remTokens) := first.value;
    var andOperands := [n];
    ghost var e := ParseOp(tokens).value.0;
    while true
      invariant Terminated(remTokens) && |remTokens| < |tokens|
      invariant ParseAnd(tokens) == AndRest(e, remTokens)
      invariant andOperands == AndOperands(e)
      decreases |remTokens|
    {
      if !remTokens[0].And? {
        break;
      }
      var next := ParseOperation(remTokens[1..]);
      if next.Err? {
        return next;
      }
      e := Both(e, ParseOp(remTokens[1..]).value.0);
      andOperands := andOperands + [next.value.0];
      remTokens := next.value.1;
    }
    if |andOperands| == 1 {
      return Ok((andOperands[0], remTokens));
    }
    return Ok((AndNode(andOperands), remTokens));
  }

  /** The elements of a set literal, duplicates merged, and what follows them. */
  method ParseSetElements(tokens: seq<Token>) returns (elements: set<string>, remTokens: seq<Token>)
    requires Terminated(tokens)
    ensures elements == Elements(ParseElements(tokens).0) && remTokens == ParseElements(tokens).2
  {
    remTokens := tokens;
    elements := {};
    ghost var seen: seq<string> := [];
    while remTokens[0].StringLit?
      invariant Terminated(remTokens)
      invariant elements == Elements(seen)
      invariant var (values, trailing, rest) := ParseElements(remTokens);
                ParseElements(tokens).0 == seen + values && ParseElements(tokens).2 == rest
      decreases |remTokens|
    {
      elements := elements + {remTokens[0].text};
      seen := seen + [remTokens[0].text];
      remTokens := remTokens[1..];
      if remTokens[0].Comma? {
        remTokens := remTokens[1..];
      } else {
        assert ParseElements(tokens).0 == seen;
        break;
      }
    }
    assert seen + [] == seen;
  }

  method ParseLabelOperation(tokens: seq<Token>) returns (r: BuiltNode)
    requires Terminated(tokens) && tokens[0].Label?
    ensures r == Built(ParseLabel(tokens))
  {
    if |tokens| < 3 {
      return Err(UnexpectedEOF);
    }
    var key, op := tokens[0].name, tokens[1];
    if op.Eq? || op.Ne? || op.Contains? || op.StartsWith? || op.EndsWith? {
      if !tokens[2].StringLit? {
        return Err(ExpectedString);
      }
      return Ok((CompareNode(key, op, tokens[2].text), tokens[3..]));
    } else if op.In? || op.NotIn? {
      if !tokens[2].LBrace? {
        return Err(ExpectedSetLiteral);
      }
      var elements, remTokens := ParseSetElements(tokens[3..]);
      if !remTokens[0].RBrace? {
        return Err(ExpectedRBrace);
      }
      if op.In? {
        return Ok((LabelInSet(key, elements), remTokens[1..]));
      }
      return Ok((LabelNotInSet(key, elements), remTokens[1..]));
    }
    return Err(ExpectedComparison(op));
  }

  method ParseOperation(tokens: seq<Token>) returns (r: BuiltNode)
    requires Terminated(tokens)
    ensures r == Built(ParseOp(tokens))
    decreases |tokens|, 0
  {
    var negated, toks := false, tokens;
    ghost var k: nat := 0;
    while toks[0].Not?
      invariant Terminated(toks) && |toks| <= |tokens|
      invariant negated == (k % 2 == 1)
      invariant ParseOp(tokens) == WithNegations(k, ParseOp(toks))
      decreases |toks|
    {
      ghost var inner := ParseOp(toks[1..]);
      if inner.Ok? {
        NegationsOf(k, inner.value.0);
      }
      negated := !negated;
      toks := toks[1..];
      k := k + 1;
    }
    var n: BuiltNode;
    var tok := toks[0];
    match tok {
      case Has(l) => n := Ok((HasLabel(l), toks[1..]));
      case All => n := Ok((AllNode, toks[1..]));
      case Global => n := Ok((GlobalNode, toks[1..]));
      case Label(_) => n := ParseLabelOperation(toks);
      case LParen =>
        n := ParseOrExpression(toks[1..]);
        if n.Ok? {
          var (inner, remTokens) := n.value;
          n := if remTokens[0].RParen? then Ok((inner, remTokens[1..])) else Err(ExpectedRParen);
        }
      case t => n := Err(UnexpectedToken(t));
    }
    assert n == Built(ParseOp(toks));
    if n.Err? {
      return n;
    }
    ghost var core := ParseOp(toks).value.0;
    NegationsOf(k, core);
    if negated {
      return Ok((NotNode(n.value.0), n.value.1));
    }
    return n;
  }

  method Parse(selector: string) returns (r: Result<Node, ParseError>)
    ensures r == ParseText(selector)
  {
    var tokens := Tokenize(selector);
    if tokens.Err? {
      return Err(Untokenizable(tokens.error));
    }
    if tokens.value[0].EOF? {
      return Ok(AllNode);
    }
    var parsed := ParseOrExpression(tokens.value);
    if parsed.Err? {
      return Err(parsed.error);
    }
    var (n, rest) := parsed.value;
    if |rest| != 1 || !rest[0].EOF? {
      return Err(TrailingContent(rest));
    }
    return Ok(n);
  }
}
