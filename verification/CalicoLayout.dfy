/**
  What texts a token sequence has.  A text is a list of lexemes, each a run of blanks followed by a
  spelling of its token, then trailing blanks.  The tokenizer accepts exactly these texts.
 */
module CalicoLayout {
  import opened Wrappers
  import opened Sequences
  import opened CalicoLexer

  datatype Lexeme = Lexeme(gap: string, tok: Token, text: string)

  /** Two words with any number of blanks, possibly none, between them. */
  ghost predicate Spaced(text: string, first: string, last: string) {
    exists gap :: AllSpace(gap) && text == first + gap + last
  }

  /** A has(l) call, with any number of blanks inside its parentheses. */
  ghost predicate SpellsHas(name: string, text: string) {
    ValidLabel(name) &&
    exists gap, gap' :: AllSpace(gap) && AllSpace(gap') && text == "has(" + gap + name + gap' + ")"
  }

  /** `text` is a spelling of `tok`. */
  ghost predicate Spells(tok: Token, text: string) {
    match tok
    case Label(name) => ValidLabel(name) && text == name
    case StringLit(v) => ('"' !in v && text == ['"'] + v + ['"']) || ('\'' !in v && text == ['\''] + v + ['\''])
    case LBrace => text == "{"
    case RBrace => text == "}"
    case Comma => text == ","
    case LParen => text == "("
    case RParen => text == ")"
    case Eq => text == "=="
    case Ne => text == "!="
    case And => text == "&&"
    case Or => text == "||"
    case Not => text == "!"
    case In => text == "in"
    case Contains => text == "contains"
    case NotIn => Spaced(text, "not", "in")
    case StartsWith => Spaced(text, "starts", "with")
    case EndsWith => Spaced(text, "ends", "with")
    case All => Spaced(text, "all(", ")")
    case Global => Spaced(text, "global(", ")")
    case Has(name) => SpellsHas(name, text)
    case EOF => false
  }

  /** `tok` may stand where it does: `afterLabel` says what precedes it, `after` is all that follows. */
  predicate Fits(tok: Token, afterLabel: bool, after: string) {
    match tok
    case Label(name) =>
      && !afterLabel && IsWordBoundary(after)
      && !(name in ["has", "all", "global"] && after != "" && after[0] == '(')
    case Has(_) => !afterLabel
    case All => !afterLabel
    case Global => !afterLabel
    case In => afterLabel && IsWordBoundary(after)
    case Contains => afterLabel && IsWordBoundary(after)
    case NotIn => afterLabel && IsWordBoundary(Trim(after))
    case StartsWith => afterLabel && IsWordBoundary(Trim(after))
    case EndsWith => afterLabel && IsWordBoundary(Trim(after))
    case Not => !("=" <= after)
    case _ => true
  }

  function Text(ls: seq<Lexeme>, tail: string): string {
    if ls == [] then tail else ls[0].gap + ls[0].text + Text(ls[1..], tail)
  }

  function Tokens(ls: seq<Lexeme>): (toks: seq<Token>)
    ensures |toks| == |ls|
  {
    if ls == [] then [] else [ls[0].tok] + Tokens(ls[1..])
  }

  ghost predicate Layout(ls: seq<Lexeme>, tail: string, afterLabel: bool) {
    if ls == [] then AllSpace(tail)
    else
      && AllSpace(ls[0].gap)
      && Spells(ls[0].tok, ls[0].text)
      && Fits(ls[0].tok, afterLabel, Text(ls[1..], tail))
      && Layout(ls[1..], tail, ls[0].tok.Label?)
  }

  // ----- runs of bytes

  lemma {:induction false} SpanOf(run: string, rest: string, p: char -> bool)
    requires forall i :: 0 <= i < |run| ==> p(run[i])
    requires rest == "" || !p(rest[0])
    ensures Span(run + rest, p) == |run|
    ensures (run + rest)[..|run|] == run && (run + rest)[|run|..] == rest
  {
    if run == "" {
      assert run + rest == rest;
    } else {
      assert (run + rest)[1..] == run[1..] + rest;
      SpanOf(run[1..], rest, p);
    }
  }

  lemma {:induction false} TrimGap(gap: string, rest: string)
    requires AllSpace(gap)
    ensures Trim(gap + rest) == Trim(rest)
  {
    var n := Span(rest, IsSpace);
    assert rest == rest[..n] + rest[n..];
    assert gap + rest == (gap + rest[..n]) + rest[n..];
    SpanOf(gap + rest[..n], rest[n..], IsSpace);
  }

  /** A string is its blanks followed by its trimmed form. */
  lemma TrimSplit(s: string) returns (gap: string)
    ensures AllSpace(gap) && s == gap + Trim(s)
    ensures Trim(s) == "" || !IsSpace(Trim(s)[0])
  {
    gap := s[..Span(s, IsSpace)];
  }

  lemma TrimTight(s: string)
    requires s == "" || !IsSpace(s[0])
    ensures Trim(s) == s
  {
  }

  lemma IdentifierOf(name: string, rest: string)
    requires ValidLabel(name) && IsWordBoundary(rest)
    ensures Identifier(name + rest) == Ok((name, rest))
  {
    SpanOf(name, rest, IsIdent);
  }

  // ----- every token read is spelled

  lemma QuotedSpelled(s: string, q: char) returns (text: string)
    requires s != "" && s[0] == q && (q == '"' || q == '\'')
    requires Quoted(s[1..], q).Ok?
    ensures text <= s && Spells(Quoted(s[1..], q).value.0, text)
    ensures s[|text|..] == Quoted(s[1..], q).value.1
  {
    var n := IndexOf(s[1..], q).value;
    text := s[..n + 2];
    assert text == [q] + s[1..][..n] + [q];
  }

  lemma Reassemble(s: string, first: string, r: string, gap: string, t: string, last: string, rest: string)
    requires s == first + r && r == gap + t && t == last + rest
    ensures s == first + gap + last + rest
    ensures first + gap + last <= s && s[|first + gap + last|..] == rest
  {
    Regroup4(first, gap, last, rest);
  }

  lemma WordsParts(s: string, first: string, last: string) returns (t: string, rest: string)
    requires Words(s, first, last).Some?
    ensures first <= s && t == Trim(s[|first|..]) && t == last + rest
    ensures Trim(rest) == Words(s, first, last).value && IsWordBoundary(Trim(rest))
  {
    t := Trim(s[|first|..]);
    rest := t[|last|..];
  }

  /** The two words at the start of `s`, as one text, up to trailing blanks. */
  lemma WordsSpelled(s: string, first: string, last: string) returns (text: string, rest: string)
    requires Words(s, first, last).Some?
    ensures text <= s && s[|text|..] == rest && Spaced(text, first, last)
    ensures Trim(rest) == Words(s, first, last).value && IsWordBoundary(Trim(rest))
  {
    var t: string;
    t, rest := WordsParts(s, first, last);
    text := SpacedText(s, first, t, last, rest);
  }

  lemma SpacedText(s: string, first: string, t: string, last: string, rest: string) returns (text: string)
    requires first <= s && t == Trim(s[|first|..]) && t == last + rest
    ensures text <= s && s[|text|..] == rest && Spaced(text, first, last)
  {
    var gap := TrimSplit(s[|first|..]);
    text := first + gap + last;
    Reassemble(s, first, s[|first|..], gap, t, last, rest);
  }

  lemma ClosingSpelled(s: string, open: string, tok: Token) returns (text: string)
    requires open <= s && Closing(open, tok, s[|open|..]).Ok?
    ensures text <= s && Spaced(text, open, ")")
    ensures s[|text|..] == Closing(open, tok, s[|open|..]).value.1
  {
    var gap := TrimSplit(s[|open|..]);
    text := open + gap + ")";
    assert s == text + Closing(open, tok, s[|open|..]).value.1;
  }

  lemma HasSpelled(inner: string) returns (name: string, text: string, rest: string)
    requires HasCall(inner).Ok?
    ensures HasCall(inner) == Ok((Has(name), rest))
    ensures SpellsHas(name, text) && "has(" + inner == text + rest
  {
    var gap := TrimSplit(inner);
    var (name', r) := Identifier(Trim(inner)).value;
    var gap' := TrimSplit(r);
    name := name';
    rest := CutPrefix(Trim(r), ")").value;
    text := "has(" + gap + name + gap' + ")";
    Regroup6("has(", gap, name, gap', ")", rest);
  }

  lemma OperandSpelled(s: string) returns (text: string)
    requires Operand(s).Ok?
    ensures text <= s && Spells(Operand(s).value.0, text)
    ensures s[|text|..] == Operand(s).value.1
    ensures Fits(Operand(s).value.0, false, s[|text|..])
  {
    if "has(" <= s {
      var name, text', rest := HasSpelled(s[4..]);
      text := text';
      assert s == text + rest;
    } else if "all(" <= s {
      text := ClosingSpelled(s, "all(", All);
    } else if "global(" <= s {
      text := ClosingSpelled(s, "global(", Global);
    } else {
      text := Identifier(s).value.0;
    }
  }

  lemma OperatorSpelled(s: string) returns (text: string)
    requires Operator(s).Ok?
    ensures text <= s && Spells(Operator(s).value.0, text)
    ensures Trim(s[|text|..]) == Trim(Operator(s).value.1)
    ensures Fits(Operator(s).value.0, true, s[|text|..])
  {
    var rest: string;
    if Word(s, "contains").Some? {
      text := "contains";
    } else if Words(s, "starts", "with").Some? {
      text, rest := WordsSpelled(s, "starts", "with");
    } else if Words(s, "ends", "with").Some? {
      text, rest := WordsSpelled(s, "ends", "with");
    } else if Words(s, "not", "in").Some? {
      text, rest := WordsSpelled(s, "not", "in");
    } else {
      text := "in";
    }
    var gap := TrimSplit(s[|text|..]);
  }

  predicate IsSymbolByte(c: char) {
    || c == '(' || c == ')' || c == '{' || c == '}' || c == ','
    || c == '=' || c == '!' || c == '&' || c == '|'
  }

  lemma SymbolSpelled(s: string, afterLabel: bool) returns (text: string)
    requires s != "" && IsSymbolByte(s[0]) && LexToken(s, afterLabel).Ok?
    ensures text != "" && text <= s && Spells(LexToken(s, afterLabel).value.0, text)
    ensures Fits(LexToken(s, afterLabel).value.0, afterLabel, s[|text|..])
    ensures s[|text|..] == LexToken(s, afterLabel).value.1
  {
    var c := s[0];
    if c == '=' || c == '&' || c == '|' || (c == '!' && "!=" <= s) {
      text := s[..2];
    } else {
      text := s[..1];
      assert c == '!' && "=" <= s[1..] ==> "!=" <= s;
    }
  }

  lemma TokenSpelled(s: string, afterLabel: bool) returns (text: string)
    requires s != "" && LexToken(s, afterLabel).Ok?
    ensures text != "" && text <= s && Spells(LexToken(s, afterLabel).value.0, text)
    ensures Fits(LexToken(s, afterLabel).value.0, afterLabel, s[|text|..])
    ensures Trim(s[|text|..]) == Trim(LexToken(s, afterLabel).value.1)
  {
    var c := s[0];
    if c == '"' || c == '\'' {
      text := QuotedSpelled(s, c);
    } else if IsSymbolByte(c) {
      text := SymbolSpelled(s, afterLabel);
    } else if afterLabel {
      text := OperatorSpelled(s);
    } else {
      text := OperandSpelled(s);
    }
  }

  // ----- every spelling is read as its token

  lemma SpelledQuoted(v: string, q: char, after: string)
    requires q !in v
    ensures ([q] + v + [q] + after)[1..] == v + ([q] + after)
    ensures Quoted(v + ([q] + after), q) == Ok((StringLit(v), after))
  {
    var s := v + ([q] + after);
    assert s[|v|] == q;
    var n := IndexOf(s, q).value;
    assert s[..n] == v && s[n + 1..] == after;
  }

  lemma SpelledWords(first: string, gap: string, last: string, after: string)
    requires AllSpace(gap) && last != "" && !IsSpace(last[0]) && IsWordBoundary(Trim(after))
    ensures Words(first + gap + last + after, first, last) == Some(Trim(after))
  {
    var s := first + gap + last + after;
    assert s == first + (gap + (last + after));
    assert s[|first|..] == gap + (last + after);
    TrimGap(gap, last + after);
    TrimTight(last + after);
    assert (last + after)[|last|..] == after;
  }

  lemma SpelledClosing(open: string, text: string, tok: Token, after: string)
    requires Spaced(text, open, ")")
    ensures open <= text + after
    ensures Closing(open, tok, (text + after)[|open|..]) == Ok((tok, after))
  {
    var gap :| AllSpace(gap) && text == open + gap + ")";
    assert text + after == open + (gap + (")" + after));
    assert (text + after)[|open|..] == gap + (")" + after);
    SpelledClose(open, tok, gap, after);
  }

  /** The inside of a has(l) call, read up to its closing parenthesis. */
  lemma SpelledCall(gap: string, name: string, gap': string, after: string)
    requires AllSpace(gap) && AllSpace(gap') && ValidLabel(name)
    ensures HasCall(gap + (name + (gap' + (")" + after)))) == Ok((Has(name), after))
  {
    var tail := gap' + (")" + after);
    assert tail[0] == if gap' == "" then ')' else gap'[0];
    TrimGap(gap, name + tail);
    TrimTight(name + tail);
    IdentifierOf(name, tail);
    SpelledClose("has(", Has(name), gap', after);
  }

  lemma SpelledClose(open: string, tok: Token, gap: string, after: string)
    requires AllSpace(gap)
    ensures Closing(open, tok, gap + (")" + after)) == Ok((tok, after))
  {
    TrimGap(gap, ")" + after);
    TrimTight(")" + after);
    assert (")" + after)[1..] == after;
  }

  lemma SpelledHas(name: string, text: string, after: string)
    requires SpellsHas(name, text)
    ensures "has(" <= text + after
    ensures HasCall((text + after)[4..]) == Ok((Has(name), after))
  {
    var gap, gap' :| AllSpace(gap) && AllSpace(gap') && text == "has(" + gap + name + gap' + ")";
    Regroup6("has(", gap, name, gap', ")", after);
    SpelledCall(gap, name, gap', after);
    assert (text + after)[4..] == gap + (name + (gap' + (")" + after)));
  }

  /** A label looks like the start of a call only if it is that call's name, right before a parenthesis. */
  lemma LabelLooksLikeCall(name: string, after: string, word: string)
    requires ValidLabel(name) && IsWordBoundary(after)
    requires forall i :: 0 <= i < |word| ==> IsIdent(word[i])
    requires word + "(" <= name + after
    ensures name == word && after != "" && after[0] == '('
  {
    assert (name + after)[|word|] == (word + "(")[|word|] == '(';
    assert |name| <= |word|;
    assert name == (name + after)[..|name|];
  }

  lemma SpelledLabel(name: string, after: string, word: string)
    requires ValidLabel(name) && IsWordBoundary(after)
    requires forall i :: 0 <= i < |word| ==> IsIdent(word[i])
    requires !(name == word && after != "" && after[0] == '(')
    ensures CutPrefix(name + after, word + "(").None?
  {
    if word + "(" <= name + after {
      LabelLooksLikeCall(name, after, word);
    }
  }

  lemma OtherFirstByte(s: string, w: string, last: string)
    requires s != "" && w != "" && s[0] != w[0]
    ensures Word(s, w).None? && Words(s, w, last).None?
  {
  }

  lemma SpelledWord(tok: Token, text: string, after: string)
    requires tok == In || tok == Contains
    requires Spells(tok, text) && Fits(tok, true, after)
    ensures Operator(text + after) == Ok((tok, after))
  {
    var s := text + after;
    assert s[|text|..] == after;
    if tok == In {
      OtherFirstByte(s, "contains", "");
      OtherFirstByte(s, "starts", "with");
      OtherFirstByte(s, "ends", "with");
      OtherFirstByte(s, "not", "in");
    }
  }

  lemma SpelledSpacedOperator(tok: Token, text: string, after: string, first: string, last: string)
    requires (tok, first, last) in [(StartsWith, "starts", "with"), (EndsWith, "ends", "with"), (NotIn, "not", "in")]
    requires Spaced(text, first, last) && IsWordBoundary(Trim(after))
    ensures Operator(text + after) == Ok((tok, Trim(after)))
  {
    var s := text + after;
    var gap :| AllSpace(gap) && text == first + gap + last;
    SpelledWords(first, gap, last, after);
    assert s[0] == first[0];
    OtherFirstByte(s, "contains", "");
    if tok != StartsWith {
      OtherFirstByte(s, "starts", "with");
      if tok != EndsWith {
        OtherFirstByte(s, "ends", "with");
      }
    }
  }

  predicate IsOperatorWord(tok: Token) {
    tok.In? || tok.Contains? || tok.NotIn? || tok.StartsWith? || tok.EndsWith?
  }

  predicate IsOperand(tok: Token) {
    tok.Label? || tok.Has? || tok.All? || tok.Global?
  }

  lemma OperatorFirstByte(tok: Token, text: string)
    requires IsOperatorWord(tok) && Spells(tok, text)
    ensures text != "" && IsIdent(text[0])
  {
  }

  lemma SpelledOperator(tok: Token, text: string, after: string) returns (rest: string)
    requires IsOperatorWord(tok)
    requires Spells(tok, text) && Fits(tok, true, after)
    ensures Operator(text + after) == Ok((tok, rest)) && Trim(rest) == Trim(after)
  {
    if tok.In? || tok.Contains? {
      SpelledWord(tok, text, after);
      rest := after;
    } else {
      rest := Trim(after);
      TrimTwice(after);
      if tok.NotIn? {
        SpelledSpacedOperator(tok, text, after, "not", "in");
      } else if tok.StartsWith? {
        SpelledSpacedOperator(tok, text, after, "starts", "with");
      } else {
        SpelledSpacedOperator(tok, text, after, "ends", "with");
      }
    }
  }

  lemma TrimTwice(s: string)
    ensures Trim(Trim(s)) == Trim(s)
  {
    var gap := TrimSplit(s);
    TrimTight(Trim(s));
  }

  lemma SpelledAllOrGlobal(tok: Token, text: string, after: string)
    requires tok.All? || tok.Global?
    requires Spells(tok, text)
    ensures text != "" && IsIdent(text[0])
    ensures Operand(text + after) == Ok((tok, after))
  {
    var s := text + after;
    if tok.All? {
      SpelledClosing("all(", text, All, after);
      assert s[0] == 'a';
    } else {
      SpelledClosing("global(", text, Global, after);
      assert s[0] == 'g';
    }
  }

  lemma SpelledPlainLabel(tok: Token, text: string, after: string)
    requires tok.Label? && Spells(tok, text) && Fits(tok, false, after)
    ensures text != "" && IsIdent(text[0])
    ensures Operand(text + after) == Ok((tok, after))
  {
    var name := tok.name;
    SpelledLabel(name, after, "has");
    SpelledLabel(name, after, "all");
    SpelledLabel(name, after, "global");
    assert "has" + "(" == "has(" && "all" + "(" == "all(" && "global" + "(" == "global(";
    IdentifierOf(name, after);
  }

  lemma SpelledHasCall(tok: Token, text: string, after: string)
    requires tok.Has? && Spells(tok, text)
    ensures text != "" && IsIdent(text[0])
    ensures Operand(text + after) == Ok((tok, after))
  {
    SpelledHas(tok.name, text, after);
  }

  lemma SpelledOperand(tok: Token, text: string, after: string)
    requires IsOperand(tok)
    requires Spells(tok, text) && Fits(tok, false, after)
    ensures text != "" && IsIdent(text[0])
    ensures Operand(text + after) == Ok((tok, after))
  {
    if tok.Has? {
      SpelledHasCall(tok, text, after);
    } else if tok.Label? {
      SpelledPlainLabel(tok, text, after);
    } else {
      SpelledAllOrGlobal(tok, text, after);
    }
  }

  lemma SpelledBracket(tok: Token, text: string, after: string, afterLabel: bool)
    requires tok.LBrace? || tok.RBrace? || tok.Comma? || tok.LParen? || tok.RParen?
    requires Spells(tok, text)
    ensures |text| == 1 && !IsSpace(text[0])
    ensures LexToken(text + after, afterLabel) == Ok((tok, after))
  {
    assert (text + after)[1..] == after;
  }

  lemma SpelledSymbol(tok: Token, text: string, after: string, afterLabel: bool)
    requires tok.Eq? || tok.Ne? || tok.And? || tok.Or? || tok.Not?
    requires Spells(tok, text) && Fits(tok, afterLabel, after)
    ensures text != "" && !IsSpace(text[0])
    ensures LexToken(text + after, afterLabel) == Ok((tok, after))
  {
    var s := text + after;
    assert s[|text|..] == after;
  }

  /** Words and labels reach the default branch of the tokenizer's switch. */
  lemma DefaultBranch(s: string, afterLabel: bool)
    requires s != "" && IsIdent(s[0])
    ensures afterLabel ==> LexToken(s, afterLabel) == Operator(s)
    ensures !afterLabel ==> LexToken(s, afterLabel) == Operand(s)
  {
    var c := s[0];
    assert c != '(' && c != ')' && c != '"' && c != '\'' && c != '{' && c != '}';
    assert c != ',' && c != '=' && c != '!' && c != '&' && c != '|';
  }

  lemma SpelledString(v: string, text: string, after: string, afterLabel: bool)
    requires Spells(StringLit(v), text)
    ensures text != "" && !IsSpace(text[0])
    ensures LexToken(text + after, afterLabel) == Ok((StringLit(v), after))
  {
    var q := text[0];
    assert q !in v && text == [q] + v + [q];
    QuotedToken(v, q, after, afterLabel);
  }

  lemma QuotedToken(v: string, q: char, after: string, afterLabel: bool)
    requires q !in v && (q == '"' || q == '\'')
    ensures LexToken([q] + v + [q] + after, afterLabel) == Ok((StringLit(v), after))
  {
    SpelledQuoted(v, q, after);
    assert ([q] + v + [q] + after)[0] == q;
  }

  lemma OperandToken(tok: Token, text: string, after: string)
    requires IsOperand(tok)
    requires Spells(tok, text) && Fits(tok, false, after)
    ensures text != "" && !IsSpace(text[0])
    ensures LexToken(text + after, false) == Ok((tok, after))
  {
    SpelledOperand(tok, text, after);
    DefaultBranch(text + after, false);
  }

  lemma OperatorToken(tok: Token, text: string, after: string) returns (rest: string)
    requires IsOperatorWord(tok)
    requires Spells(tok, text) && Fits(tok, true, after)
    ensures text != "" && !IsSpace(text[0])
    ensures LexToken(text + after, true) == Ok((tok, rest)) && Trim(rest) == Trim(after)
  {
    OperatorFirstByte(tok, text);
    rest := SpelledOperator(tok, text, after);
    DefaultBranch(text + after, true);
  }

  lemma FitsWhere(tok: Token, afterLabel: bool, after: string)
    requires Fits(tok, afterLabel, after)
    ensures IsOperand(tok) ==> !afterLabel
    ensures IsOperatorWord(tok) ==> afterLabel
  {
  }

  lemma SpelledToken(tok: Token, text: string, after: string, afterLabel: bool) returns (rest: string)
    requires Spells(tok, text) && Fits(tok, afterLabel, after)
    ensures text != "" && !IsSpace(text[0])
    ensures LexToken(text + after, afterLabel) == Ok((tok, rest)) && Trim(rest) == Trim(after)
  {
    rest := after;
    FitsWhere(tok, afterLabel, after);
    if tok.StringLit? {
      SpelledString(tok.text, text, after, afterLabel);
    } else if IsOperand(tok) {
      OperandToken(tok, text, after);
    } else if IsOperatorWord(tok) {
      rest := OperatorToken(tok, text, after);
    } else if tok.Eq? || tok.Ne? || tok.And? || tok.Or? || tok.Not? {
      SpelledSymbol(tok, text, after, afterLabel);
    } else {
      SpelledBracket(tok, text, after, afterLabel);
    }
  }

  // ----- the whole input

  /** Leading blanks make no difference. */
  lemma LexTrim(s: string, t: string, afterLabel: bool)
    requires Trim(s) == Trim(t)
    ensures Lex(s, afterLabel) == Lex(t, afterLabel)
  {
  }

  lemma {:induction false} LayoutLexes(ls: seq<Lexeme>, tail: string, afterLabel: bool)
    requires Layout(ls, tail, afterLabel)
    ensures Lex(Text(ls, tail), afterLabel) == Ok(Tokens(ls) + [EOF])
  {
    var s := Text(ls, tail);
    if ls == [] {
      TrimGap(tail, "");
      assert tail + "" == tail && [] + [EOF] == [EOF];
    } else {
      var Lexeme(gap, tok, text) := ls[0];
      var after := Text(ls[1..], tail);
      LayoutLexes(ls[1..], tail, tok.Label?);
      var rest := SpelledToken(tok, text, after, afterLabel);
      assert s == gap + (text + after);
      TrimGap(gap, text + after);
      TrimTight(text + after);
      LexTrim(rest, after, tok.Label?);
      assert [tok] + (Tokens(ls[1..]) + [EOF]) == Tokens(ls) + [EOF];
    }
  }

  /** The first token of an accepted text, how it is spelled, and what the tokenizer goes on with. */
  lemma FirstToken(s: string, afterLabel: bool) returns (text: string, tok: Token, rest: string)
    requires Trim(s) != "" && Lex(s, afterLabel).Ok?
    ensures Lex(s, afterLabel) == Prepend([tok], Lex(rest, tok.Label?))
    ensures text != "" && text <= Trim(s) && Spells(tok, text)
    ensures Fits(tok, afterLabel, Trim(s)[|text|..]) && Trim(Trim(s)[|text|..]) == Trim(rest)
  {
    var t := Trim(s);
    text := TokenSpelled(t, afterLabel);
    tok, rest := LexToken(t, afterLabel).value.0, LexToken(t, afterLabel).value.1;
    assert Lex(s, afterLabel) == LexTrimmed(t, afterLabel);
  }

  /** The first lexeme of an accepted text. */
  lemma FirstLexeme(s: string, afterLabel: bool) returns (l: Lexeme, after: string)
    requires Trim(s) != "" && Lex(s, afterLabel).Ok?
    ensures AllSpace(l.gap) && Spells(l.tok, l.text) && Fits(l.tok, afterLabel, after)
    ensures s == l.gap + l.text + after && |after| < |s|
    ensures Lex(s, afterLabel) == Prepend([l.tok], Lex(after, l.tok.Label?))
  {
    var gap := TrimSplit(s);
    var text, tok, rest := FirstToken(s, afterLabel);
    after := CutFront(gap, Trim(s), text);
    l := Lexeme(gap, tok, text);
    LexTrim(after, rest, tok.Label?);
  }

  lemma CutFront(gap: string, t: string, text: string) returns (after: string)
    requires text <= t && text != ""
    ensures after == t[|text|..] && gap + t == gap + text + after && |after| < |gap + t|
  {
    after := t[|text|..];
    assert t == text + after;
    Regroup(gap, text, after);
  }

  lemma {:induction false} LexedLayout(s: string, afterLabel: bool, toks: seq<Token>) returns (ls: seq<Lexeme>, tail: string)
    requires Lex(s, afterLabel) == Ok(toks)
    ensures Layout(ls, tail, afterLabel) && Text(ls, tail) == s
    ensures toks == Tokens(ls) + [EOF]
    decreases |s|
  {
    if Trim(s) == "" {
      ls, tail := [], s;
      var gap := TrimSplit(s);
      assert [] + [EOF] == [EOF];
    } else {
      var l, after := FirstLexeme(s, afterLabel);
      var ls', tail' := LexedLayout(after, l.tok.Label?, Lex(after, l.tok.Label?).value);
      ls, tail := [l] + ls', tail';
      assert ls[1..] == ls';
      assert [l.tok] + (Tokens(ls') + [EOF]) == Tokens(ls) + [EOF];
    }
  }

  /** Tokenizing succeeds with `toks` on exactly the strings laid out as `toks`. */
  lemma LexIffLayout(s: string, toks: seq<Token>)
    ensures Lex(s, false) == Ok(toks) <==>
            exists ls, tail :: Layout(ls, tail, false) && Text(ls, tail) == s && toks == Tokens(ls) + [EOF]
  {
    if Lex(s, false) == Ok(toks) {
      var ls, tail := LexedLayout(s, false, toks);
    }
    if ls, tail :| Layout(ls, tail, false) && Text(ls, tail) == s && toks == Tokens(ls) + [EOF] {
      LayoutLexes(ls, tail, false);
    }
  }
}
