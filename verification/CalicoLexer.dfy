/** The tokenizer of Calico's label-selector language.  Strings are sequences of bytes. */
module CalicoLexer {
  import opened Wrappers

  datatype Token =
    | Label(name: string)
    | StringLit(text: string)
    | LBrace | RBrace | Comma | LParen | RParen
    | Eq | Ne | In | NotIn | Contains | StartsWith | EndsWith
    | Not | And | Or
    | All | Global | Has(name: string)
    | EOF

  datatype LexError =
    | UnterminatedString
    | ExpectedSymbol(symbol: string)
    | ExpectedOperator
    | NoClosingParen(open: string)
    | ExpectedIdentifier
    | LabelTooLong

  const MAX_LABEL_LENGTH := 512

  predicate IsSpace(c: char) {
    c == ' ' || c == '\t'
  }

  predicate IsIdent(c: char) {
    'a' <= c <= 'z' || 'A' <= c <= 'Z' || '0' <= c <= '9' || c == '_' || c == '.' || c == '/' || c == '-'
  }

  /** The length of the longest prefix of `s` whose bytes all satisfy `p`. */
  function Span(s: string, p: char -> bool): (n: nat)
    ensures n <= |s|
    ensures forall i :: 0 <= i < n ==> p(s[i])
    ensures n < |s| ==> !p(s[n])
  {
    if s != [] && p(s[0]) then 1 + Span(s[1..], p) else 0
  }

  function Trim(s: string): string {
    s[Span(s, IsSpace)..]
  }

  /** True when no identifier can continue at the start of `s`. */
  predicate IsWordBoundary(s: string) {
    s == "" || !IsIdent(s[0])
  }

  predicate ValidLabel(s: string) {
    0 < |s| <= MAX_LABEL_LENGTH && forall i :: 0 <= i < |s| ==> IsIdent(s[i])
  }

  predicate AllSpace(s: string) {
    forall i :: 0 <= i < |s| ==> IsSpace(s[i])
  }

  /** strings.CutPrefix */
  function CutPrefix(s: string, prefix: string): (r: Option<string>)
    ensures r.Some? ==> s == prefix + r.value
  {
    if prefix <= s then Some(s[|prefix|..]) else None
  }

  function Identifier(s: string): (r: Result<(string, string), LexError>)
    ensures r.Ok? ==> ValidLabel(r.value.0) && s == r.value.0 + r.value.1 && IsWordBoundary(r.value.1)
  {
    var n := Span(s, IsIdent);
    if n == 0 then Err(ExpectedIdentifier)
    else if n > MAX_LABEL_LENGTH then Err(LabelTooLong)
    else Ok((s[..n], s[n..]))
  }

  /** One operator word, which must not run into an identifier byte. */
  function Word(s: string, w: string): (r: Option<string>)
    ensures r.Some? ==> |r.value| == |s| - |w|
  {
    if w <= s && IsWordBoundary(s[|w|..]) then Some(s[|w|..]) else None
  }

  /** Two words, each followed by any number of blanks, and then no identifier byte. */
  function Words(s: string, first: string, last: string): (r: Option<string>)
    ensures r.Some? ==> |r.value| <= |s| - |first|
  {
    if !(first <= s) then None
    else
      var t := Trim(s[|first|..]);
      if !(last <= t) then None
      else
        var rest := Trim(t[|last|..]);
        if IsWordBoundary(rest) then Some(rest) else None
  }

  function IndexOf(s: string, c: char): (r: Option<nat>)
    ensures r.Some? ==> r.value < |s| && s[r.value] == c && forall i :: 0 <= i < r.value ==> s[i] != c
    ensures r.None? <==> c !in s
  {
    var n := Span(s, x => x != c);
    if n < |s| then Some(n) else None
  }

  /** The step from `s` produced a token and consumed something. */
  predicate Progress(r: Result<(Token, string), LexError>, s: string) {
    r.Ok? ==> r.value.0 != EOF && |r.value.1| < |s|
  }

  /** The string literal whose opening quote `q` has been consumed. */
  function Quoted(s: string, q: char): (r: Result<(Token, string), LexError>)
    ensures r.Ok? ==> r.value.0.StringLit? && |r.value.1| < |s|
  {
    match IndexOf(s, q)
    case None => Err(UnterminatedString)
    case Some(n) => Ok((StringLit(s[..n]), s[n + 1..]))
  }

  /** The closing parenthesis of a call, after blanks. */
  function Closing(open: string, tok: Token, s: string): (r: Result<(Token, string), LexError>)
    ensures r.Ok? ==> r.value.0 == tok && |r.value.1| < |s|
  {
    match CutPrefix(Trim(s), ")")
    case Some(r) => Ok((tok, r))
    case None => Err(NoClosingParen(open))
  }

  function Symbol(s: string, symbol: string, tok: Token): (r: Result<(Token, string), LexError>)
    requires symbol != "" && tok != EOF
    ensures Progress(r, s)
  {
    match CutPrefix(s, symbol)
    case Some(r) => Ok((tok, r))
    case None => Err(ExpectedSymbol(symbol))
  }

  /** Operator words are looked for only right after a label. */
  function Operator(s: string): (r: Result<(Token, string), LexError>)
    ensures Progress(r, s)
  {
    match Word(s, "contains")
    case Some(r) => Ok((Contains, r))
    case None =>
      match Words(s, "starts", "with")
      case Some(r) => Ok((StartsWith, r))
      case None =>
        match Words(s, "ends", "with")
        case Some(r) => Ok((EndsWith, r))
        case None =>
          match Words(s, "not", "in")
          case Some(r) => Ok((NotIn, r))
          case None =>
            match Word(s, "in")
            case Some(r) => Ok((In, r))
            case None => Err(ExpectedOperator)
  }

  /** The label and closing parenthesis of has(l). */
  function HasCall(s: string): (r: Result<(Token, string), LexError>)
    ensures Progress(r, s)
  {
    match Identifier(Trim(s))
    case Ok((name, rest)) => Closing("has(", Has(name), rest)
    case Err(e) => Err(e)
  }

  /** Anything else that starts with a word: has(l), all(), global() or a label. */
  function Operand(s: string): (r: Result<(Token, string), LexError>)
    ensures Progress(r, s)
  {
    match CutPrefix(s, "has(")
    case Some(r) => HasCall(r)
    case None =>
      match CutPrefix(s, "all(")
      case Some(r) => Closing("all(", All, r)
      case None =>
        match CutPrefix(s, "global(")
        case Some(r) => Closing("global(", Global, r)
        case None =>
          match Identifier(s)
          case Ok((name, r)) => Ok((Label(name), r))
          case Err(e) => Err(e)
  }

  /** The token at the start of `s`, and what follows it. */
  function LexToken(s: string, afterLabel: bool): (r: Result<(Token, string), LexError>)
    requires s != ""
    ensures Progress(r, s)
  {
    match s[0]
    case '(' => Ok((LParen, s[1..]))
    case ')' => Ok((RParen, s[1..]))
    case '"' => Quoted(s[1..], '"')
    case '\'' => Quoted(s[1..], '\'')
    case '{' => Ok((LBrace, s[1..]))
    case '}' => Ok((RBrace, s[1..]))
    case ',' => Ok((Comma, s[1..]))
    case '=' => Symbol(s, "==", Eq)
    case '!' => if "!=" <= s then Ok((Ne, s[2..])) else Ok((Not, s[1..]))
    case '&' => Symbol(s, "&&", And)
    case '|' => Symbol(s, "||", Or)
    case _ => if afterLabel then Operator(s) else Operand(s)
  }

  /** The tokens of `s`, ending in the one EOF; `afterLabel` says whether the last token was a label. */
  function Lex(s: string, afterLabel: bool): (r: Result<seq<Token>, LexError>)
    ensures r.Ok? ==> EndsAtEOF(r.value)
    decreases |s|, 1
  {
    var t := Trim(s);
    if t == "" then Ok([EOF]) else LexTrimmed(t, afterLabel)
  }

  function LexTrimmed(t: string, afterLabel: bool): (r: Result<seq<Token>, LexError>)
    requires t != ""
    ensures r.Ok? ==> EndsAtEOF(r.value)
    decreases |t|, 0
  {
    match LexToken(t, afterLabel)
    case Err(e) => Err(e)
    case Ok((tok, rest)) => Prepend([tok], Lex(rest, tok.Label?))
  }

  function Prepend(toks: seq<Token>, r: Result<seq<Token>, LexError>): Result<seq<Token>, LexError> {
    if r.Ok? then Ok(toks + r.value) else r
  }

  lemma PrependTwice(a: seq<Token>, b: seq<Token>, r: Result<seq<Token>, LexError>)
    ensures Prepend(a, Prepend(b, r)) == Prepend(a + b, r)
    ensures Prepend([], r) == r
  {
    if r.Ok? {
      assert a + (b + r.value) == a + b + r.value;
      assert [] + r.value == r.value;
    }
  }

  /** Exactly one EOF, at the end. */
  predicate EndsAtEOF(toks: seq<Token>) {
    toks != [] && toks[|toks| - 1] == EOF && forall i :: 0 <= i < |toks| - 1 ==> toks[i] != EOF
  }

  // ----- the loops of the source, against the functions above

  method TrimWhitespace(input: string) returns (r: string)
    ensures r == Trim(input)
  {
    var end := 0;
    while end < |input|
      invariant end <= |input|
      invariant Span(input, IsSpace) == end + Span(input[end..], IsSpace)
    {
      if input[end] == ' ' || input[end] == '\t' {
        end := end + 1;
      } else {
        break;
      }
    }
    r := input[end..];
  }

  method CutIdentifier(input: string) returns (r: Result<(string, string), LexError>)
    ensures r == Identifier(input)
  {
    var i := 0;
    while i < |input| && IsIdent(input[i])
      invariant i <= |input|
      invariant Span(input, IsIdent) == i + Span(input[i..], IsIdent)
    {
      i := i + 1;
    }
    var ident := input[..i];
    if |ident| > MAX_LABEL_LENGTH {
      r := Err(LabelTooLong);
    } else if |ident| == 0 {
      r := Err(ExpectedIdentifier);
    } else {
      r := Ok((ident, input[i..]));
    }
  }

  method CutMultiWordPrefixCheckBreak(input: string, words: seq<string>) returns (r: Option<string>)
    requires |words| == 2
    ensures r == Words(input, words[0], words[1])
  {
    var remainder := input;
    for i := 0 to |words|
      invariant i == 0 ==> remainder == input
      invariant i >= 1 ==> words[0] <= input
      invariant i == 1 ==> remainder == Trim(input[|words[0]|..])
      invariant i == 2 ==> words[1] <= Trim(input[|words[0]|..])
      invariant i == 2 ==> remainder == Trim(Trim(input[|words[0]|..])[|words[1]|..])
    {
      if !(words[i] <= remainder) {
        return None;
      }
      remainder := TrimWhitespace(remainder[|words[i]|..]);
    }
    r := if IsWordBoundary(remainder) then Some(remainder) else None;
  }

  /** One pass of the tokenizer's switch over a trimmed, non-empty input. */
  method ScanToken(input: string, afterLabel: bool) returns (r: Result<(Token, string), LexError>)
    requires input != ""
    ensures r == LexToken(input, afterLabel)
  {
    match input[0] {
      case '(' => return Ok((LParen, input[1..]));
      case ')' => return Ok((RParen, input[1..]));
      case '"' => return Quoted(input[1..], '"');
      case '\'' => return Quoted(input[1..], '\'');
      case '{' => return Ok((LBrace, input[1..]));
      case '}' => return Ok((RBrace, input[1..]));
      case ',' => return Ok((Comma, input[1..]));
      case '=' => return Symbol(input, "==", Eq);
      case '!' =>
        if "!=" <= input {
          return Ok((Ne, input[2..]));
        } else {
          return Ok((Not, input[1..]));
        }
      case '&' => return Symbol(input, "&&", And);
      case '|' => return Symbol(input, "||", Or);
      case _ =>
        if afterLabel {
          r := ScanOperator(input);
        } else {
          r := ScanOperand(input);
        }
    }
  }

  method ScanOperator(input: string) returns (r: Result<(Token, string), LexError>)
    ensures r == Operator(input)
  {
    var found := Word(input, "contains");
    if found.Some? {
      return Ok((Contains, found.value));
    }
    found := CutMultiWordPrefixCheckBreak(input, ["starts", "with"]);
    if found.Some? {
      return Ok((StartsWith, found.value));
    }
    found := CutMultiWordPrefixCheckBreak(input, ["ends", "with"]);
    if found.Some? {
      return Ok((EndsWith, found.value));
    }
    found := CutMultiWordPrefixCheckBreak(input, ["not", "in"]);
    if found.Some? {
      return Ok((NotIn, found.value));
    }
    found := Word(input, "in");
    if found.Some? {
      return Ok((In, found.value));
    }
    return Err(ExpectedOperator);
  }

  method ScanOperand(input: string) returns (r: Result<(Token, string), LexError>)
    ensures r == Operand(input)
  {
    var found := CutPrefix(input, "has(");
    if found.Some? {
      var rest := TrimWhitespace(found.value);
      var ident := CutIdentifier(rest);
      if ident.Err? {
        return Err(ident.error);
      }
      return Closing("has(", Has(ident.value.0), ident.value.1);
    }
    found := CutPrefix(input, "all(");
    if found.Some? {
      return Closing("all(", All, found.value);
    }
    found := CutPrefix(input, "global(");
    if found.Some? {
      return Closing("global(", Global, found.value);
    }
    var ident := CutIdentifier(input);
    if ident.Err? {
      return Err(ident.error);
    }
    return Ok((Label(ident.value.0), ident.value.1));
  }

  predicate AfterLabel(toks: seq<Token>) {
    toks != [] && toks[|toks| - 1].Label?
  }

  /**
    The tokenizer's loop.  The source ends each turn by reporting an "infinite loop" error if
    nothing was consumed; `assert false` stands there, because every token consumes a byte.
   */
  method Tokenize(selector: string) returns (r: Result<seq<Token>, LexError>)
    ensures r == Lex(selector, false)
  {
    var input := selector;
    var tokens: seq<Token> := [];
    PrependTwice([], [], Lex(input, false));
    while true
      invariant Lex(selector, false) == Prepend(tokens, Lex(input, AfterLabel(tokens)))
      decreases |input|
    {
      var startLen := |input|;
      input := TrimWhitespace(input);
      if |input| == 0 {
        return Ok(tokens + [EOF]);
      }
      var step := ScanToken(input, AfterLabel(tokens));
      if step.Err? {
        return Err(step.error);
      }
      PrependTwice(tokens, [step.value.0], Lex(step.value.1, step.value.0.Label?));
      tokens := tokens + [step.value.0];
      input := step.value.1;
      if |input| >= startLen {
        assert false;
      }
    }
  }
}
