/**
  The selector language itself: its concrete syntax, what a selector means, and the syntax tree the
  parser builds.  `||` and `&&` are binary and associate to the left; `&&` binds tighter.

      Or  ::= And | Or "||" And
      And ::= Op | And "&&" Op
      Op  ::= "!" Op | "(" Or ")" | has | all | global | label op string | label [not] in set
      set ::= "{" [ string { "," string } [ "," ] ] "}"
 */
module CalicoGrammar {
  import opened CalicoLexer
  import opened Strings

  type Labels = map<string, string>

  // ----- the syntax tree of the source: and/or nodes hold all their operands

  datatype Node =
    | LabelEq(key: string, value: string)
    | LabelNe(key: string, value: string)
    | LabelContains(key: string, value: string)
    | LabelStartsWith(key: string, value: string)
    | LabelEndsWith(key: string, value: string)
    | LabelInSet(key: string, elements: set<string>)
    | LabelNotInSet(key: string, elements: set<string>)
    | HasLabel(key: string)
    | NotNode(operand: Node)
    | AndNode(operands: seq<Node>)
    | OrNode(operands: seq<Node>)
    | AllNode
    | GlobalNode

  /** The evaluate methods. */
  predicate Evaluate(n: Node, labels: Labels) {
    match n
    case LabelEq(l, v) => l in labels && labels[l] == v
    case LabelNe(l, v) => if l !in labels then true else labels[l] != v
    case LabelContains(l, v) => l in labels && HasSubstring(labels[l], v)
    case LabelStartsWith(l, v) => l in labels && v <= labels[l]
    case LabelEndsWith(l, v) => l in labels && HasSuffix(labels[l], v)
    case LabelInSet(l, vs) => if l !in labels then false else labels[l] in vs
    case LabelNotInSet(l, vs) => if l !in labels then true else labels[l] !in vs
    case HasLabel(l) => l in labels
    case NotNode(op) => !Evaluate(op, labels)
    case AndNode(ops) => forall i :: 0 <= i < |ops| ==> Evaluate(ops[i], labels)
    case OrNode(ops) => exists i :: 0 <= i < |ops| && Evaluate(ops[i], labels)
    case AllNode => true
    case GlobalNode => true
  }

  // ----- derivations

  datatype Expr =
    | Compare(key: string, op: Token, value: string)
    | Member(key: string, negated: bool, values: seq<string>, trailingComma: bool)
    | Defined(key: string)
    | Everything
    | Everywhere
    | Negated(e: Expr)
    | Parens(e: Expr)
    | Both(left: Expr, right: Expr)
    | Either(left: Expr, right: Expr)

  predicate IsCompareOp(t: Token) {
    t.Eq? || t.Ne? || t.Contains? || t.StartsWith? || t.EndsWith?
  }

  function IsOp(e: Expr): (r: bool)
    ensures r ==> !e.Both? && !e.Either?
    decreases e, 0
  {
    match e
    case Compare(_, op, _) => IsCompareOp(op)
    case Member(_, _, values, trailingComma) => trailingComma ==> values != []
    case Defined(_) => true
    case Everything => true
    case Everywhere => true
    case Negated(e') => IsOp(e')
    case Parens(e') => IsOr(e')
    case Both(_, _) => false
    case Either(_, _) => false
  }

  function IsAnd(e: Expr): (r: bool)
    ensures r ==> !e.Either?
    decreases e, 1
  {
    if e.Both? then IsAnd(e.left) && IsOp(e.right) else IsOp(e)
  }

  predicate IsOr(e: Expr)
    decreases e, 2
  {
    if e.Either? then IsOr(e.left) && IsAnd(e.right) else IsAnd(e)
  }

  function ElementTokens(values: seq<string>, trailingComma: bool): seq<Token> {
    if values == [] then []
    else if |values| == 1 then [StringLit(values[0])] + (if trailingComma then [Comma] else [])
    else [StringLit(values[0]), Comma] + ElementTokens(values[1..], trailingComma)
  }

  /** The tokens an expression derives. */
  function Yield(e: Expr): (toks: seq<Token>)
    ensures toks != []
  {
    match e
    case Compare(l, op, v) => [Label(l), op, StringLit(v)]
    case Member(l, negated, values, trailingComma) =>
      [Label(l), if negated then NotIn else In, LBrace] + ElementTokens(values, trailingComma) + [RBrace]
    case Defined(l) => [Has(l)]
    case Everything => [All]
    case Everywhere => [Global]
    case Negated(e') => [Not] + Yield(e')
    case Parens(e') => [LParen] + Yield(e') + [RParen]
    case Both(l, r) => Yield(l) + [And] + Yield(r)
    case Either(l, r) => Yield(l) + [Or] + Yield(r)
  }

  /**
    What an expression means.  A label that is absent satisfies `!=` and `not in`, and nothing else
    that names it without a `!`.
   */
  predicate Holds(e: Expr, labels: Labels) {
    match e
    case Compare(l, Ne, v) => l in labels ==> labels[l] != v
    case Compare(l, op, v) =>
      l in labels && (match op
                      case Contains => HasSubstring(labels[l], v)
                      case StartsWith => v <= labels[l]
                      case EndsWith => HasSuffix(labels[l], v)
                      case _ => labels[l] == v)
    case Member(l, negated, values, _) => negated != (l in labels && labels[l] in values)
    case Defined(l) => l in labels
    case Everything => true
    case Everywhere => true
    case Negated(e') => !Holds(e', labels)
    case Parens(e') => Holds(e', labels)
    case Both(a, b) => Holds(a, labels) && Holds(b, labels)
    case Either(a, b) => Holds(a, labels) || Holds(b, labels)
  }

  // ----- the tree the source builds for a derivation

  /** Whether an odd number of `!` precedes the core, and the core. */
  function Core(e: Expr): (r: (bool, Expr))
    ensures !r.1.Negated? && (e.Negated? ==> r.1 < e) && (!e.Negated? ==> r == (false, e))
  {
    if e.Negated? then var (odd, core) := Core(e.e); (!odd, core) else (false, e)
  }

  function CompareNode(l: string, op: Token, v: string): Node {
    match op
    case Ne => LabelNe(l, v)
    case Contains => LabelContains(l, v)
    case StartsWith => LabelStartsWith(l, v)
    case EndsWith => LabelEndsWith(l, v)
    case _ => LabelEq(l, v)
  }

  function Elements(values: seq<string>): set<string> {
    set v | v in values
  }

  function Tree(e: Expr): (n: Node)
    ensures e.Both? ==> n.AndNode? && |n.operands| >= 2
    ensures e.Either? ==> n.OrNode? && |n.operands| >= 2
  {
    match e
    case Compare(l, op, v) => CompareNode(l, op, v)
    case Member(l, negated, values, _) =>
      if negated then LabelNotInSet(l, Elements(values)) else LabelInSet(l, Elements(values))
    case Defined(l) => HasLabel(l)
    case Everything => AllNode
    case Everywhere => GlobalNode
    case Negated(_) =>
      var (odd, core) := Core(e);
      if odd then NotNode(Tree(core)) else Tree(core)
    case Parens(e') => Tree(e')
    case Both(a, b) => AndNode((if a.Both? then Tree(a).operands else [Tree(a)]) + [Tree(b)])
    case Either(a, b) => OrNode((if a.Either? then Tree(a).operands else [Tree(a)]) + [Tree(b)])
  }

  function AndOperands(e: Expr): seq<Node> {
    if e.Both? then Tree(e).operands else [Tree(e)]
  }

  function OrOperands(e: Expr): seq<Node> {
    if e.Either? then Tree(e).operands else [Tree(e)]
  }

  lemma {:induction false} CoreHolds(e: Expr, labels: Labels)
    ensures Holds(e, labels) == (Core(e).0 != Holds(Core(e).1, labels))
  {
    if e.Negated? {
      CoreHolds(e.e, labels);
    }
  }

  lemma EvaluateOne(n: Node, labels: Labels)
    ensures Evaluate(AndNode([n]), labels) == Evaluate(n, labels)
    ensures Evaluate(OrNode([n]), labels) == Evaluate(n, labels)
  {
    assert [n][0] == n;
  }

  lemma EvaluateMore(ops: seq<Node>, n: Node, labels: Labels)
    ensures Evaluate(AndNode(ops + [n]), labels) == (Evaluate(AndNode(ops), labels) && Evaluate(n, labels))
    ensures Evaluate(OrNode(ops + [n]), labels) == (Evaluate(OrNode(ops), labels) || Evaluate(n, labels))
  {
    assert (ops + [n])[|ops|] == n;
    assert forall i :: 0 <= i < |ops| ==> (ops + [n])[i] == ops[i];
  }

  /** Evaluating the flattened tree is evaluating the binary expression, on every label map. */
  lemma {:induction false} EvaluateIsHolds(e: Expr, labels: Labels)
    ensures Evaluate(Tree(e), labels) == Holds(e, labels)
  {
    match e
    case Negated(_) =>
      CoreHolds(e, labels);
      EvaluateIsHolds(Core(e).1, labels);
    case Parens(e') =>
      EvaluateIsHolds(e', labels);
    case Both(a, b) =>
      EvaluateIsHolds(a, labels);
      EvaluateIsHolds(b, labels);
      EvaluateOne(Tree(a), labels);
      EvaluateMore(AndOperands(a), Tree(b), labels);
    case Either(a, b) =>
      EvaluateIsHolds(a, labels);
      EvaluateIsHolds(b, labels);
      EvaluateOne(Tree(a), labels);
      EvaluateMore(OrOperands(a), Tree(b), labels);
    case _ =>
  }
}
