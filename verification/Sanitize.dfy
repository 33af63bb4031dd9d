/**
  Stripping terminal escape sequences and control characters from every string of an object, in place.
  Strings are sequences of code points.
 */
module Sanitize {
  import opened Wrappers

  const ESC := '\U{1B}'
  const BEL := '\U{07}'

  // ----- one string

  /** Skip parameter bytes of a control sequence. */
  function SkipParameters(s: string, i: nat): (r: nat)
    requires i <= |s|
    ensures i <= r <= |s|
    decreases |s| - i
  {
    if i < |s| && '0' <= s[i] <= '?' then SkipParameters(s, i + 1) else i
  }

  /** Skip intermediate bytes of a control sequence. */
  function SkipIntermediates(s: string, i: nat): (r: nat)
    requires i <= |s|
    ensures i <= r <= |s|
    decreases |s| - i
  {
    if i < |s| && ' ' <= s[i] <= '/' then SkipIntermediates(s, i + 1) else i
  }

  /** Skip the body of an operating system command. */
  function SkipBody(s: string, i: nat): (r: nat)
    requires i <= |s|
    ensures i <= r <= |s|
    decreases |s| - i
  {
    if i < |s| && s[i] != BEL && s[i] != ESC then SkipBody(s, i + 1) else i
  }

  /** ESC [ parameters intermediates final */
  function ControlSequenceEnd(s: string, i: nat): (r: Option<nat>)
    requires i <= |s|
    ensures r.Some? ==> i < r.value <= |s|
  {
    if i + 1 < |s| && s[i] == ESC && s[i + 1] == '[' then
      var j := SkipIntermediates(s, SkipParameters(s, i + 2));
      if j < |s| && '@' <= s[j] <= '~' then Some(j + 1) else None
    else None
  }

  /** ESC ] body, ended by BEL or by ESC \\ */
  function CommandEnd(s: string, i: nat): (r: Option<nat>)
    requires i <= |s|
    ensures r.Some? ==> i < r.value <= |s|
  {
    if i + 1 < |s| && s[i] == ESC && s[i + 1] == ']' then
      var j := SkipBody(s, i + 2);
      if j < |s| && s[j] == BEL then Some(j + 1)
      else if j + 1 < |s| && s[j] == ESC && s[j + 1] == '\\' then Some(j + 2)
      else None
    else None
  }

  /** ESC and one byte of '@' to '_', other than '[' */
  function ShortEscapeEnd(s: string, i: nat): (r: Option<nat>)
    requires i <= |s|
    ensures r.Some? ==> i < r.value <= |s|
  {
    if i + 1 < |s| && s[i] == ESC && '@' <= s[i + 1] <= '_' && s[i + 1] != '[' then Some(i + 2) else None
  }

  /** Where an escape sequence starting at `i` ends; earlier alternatives win. */
  function EscapeEnd(s: string, i: nat): (r: Option<nat>)
    requires i <= |s|
    ensures r.Some? ==> i < r.value <= |s|
  {
    var c := ControlSequenceEnd(s, i);
    if c.Some? then c
    else
      var o := CommandEnd(s, i);
      if o.Some? then o else ShortEscapeEnd(s, i)
  }

  function StripEscapes(s: string, i: nat): string
    requires i <= |s|
    decreases |s| - i
  {
    if i == |s| then ""
    else
      match EscapeEnd(s, i)
      case Some(e) => StripEscapes(s, e)
      case None => [s[i]] + StripEscapes(s, i + 1)
  }

  /** A control character other than tab and newline. */
  predicate IsControl(c: char) {
    c <= '\U{08}' || '\U{0B}' <= c <= '\U{1F}' || c == '\U{7F}' || '\U{80}' <= c <= '\U{9F}'
  }

  function DropControls(s: string): string {
    if s == "" then "" else (if IsControl(s[0]) then "" else [s[0]]) + DropControls(s[1..])
  }

  function SanitizeString(s: string): string {
    DropControls(StripEscapes(s, 0))
  }

  predicate Clean(s: string) {
    forall i :: 0 <= i < |s| ==> !IsControl(s[i])
  }

  lemma {:induction false} DropControlsCleans(s: string)
    ensures Clean(DropControls(s))
    ensures Clean(s) ==> DropControls(s) == s
  {
    if s != "" {
      DropControlsCleans(s[1..]);
      assert s == [s[0]] + s[1..];
    }
  }

  lemma {:induction false} NothingToStrip(s: string, i: nat)
    requires Clean(s) && i <= |s|
    ensures StripEscapes(s, i) == s[i..]
    decreases |s| - i
  {
    if i < |s| {
      assert s[i] != ESC;
      NothingToStrip(s, i + 1);
    }
  }

  /** The output has no control characters, and a string without any is left alone. */
  lemma SanitizedExactly(s: string)
    ensures Clean(SanitizeString(s))
    ensures SanitizeString(s) == s <==> Clean(s)
  {
    DropControlsCleans(StripEscapes(s, 0));
    if Clean(s) {
      NothingToStrip(s, 0);
      assert s[0..] == s;
    }
  }

  // ----- escape sequences as strings

  predicate AllWithin(s: string, lo: char, hi: char) {
    forall i :: 0 <= i < |s| ==> lo <= s[i] <= hi
  }

  /** ESC "[" with parameters from '0' to '?', intermediates from ' ' to '/', and a final from '@' to '~'. */
  predicate ControlSequenceOf(e: string, parameters: string, intermediates: string, final: char) {
    && e == [ESC, '['] + parameters + intermediates + [final]
    && AllWithin(parameters, '0', '?') && AllWithin(intermediates, ' ', '/') && '@' <= final <= '~'
  }

  ghost predicate IsControlSequence(e: string) {
    exists parameters, intermediates, final :: ControlSequenceOf(e, parameters, intermediates, final)
  }

  /** ESC "]" with a body up to the first BEL or ESC, which is a BEL or begins ESC "\\". */
  predicate CommandOf(e: string, body: string, terminator: string) {
    && e == [ESC, ']'] + body + terminator
    && (terminator == [BEL] || terminator == [ESC, '\\'])
    && BEL !in body && ESC !in body
  }

  ghost predicate IsCommand(e: string) {
    exists body, terminator :: CommandOf(e, body, terminator)
  }

  /** ESC and one byte from '@' to '_' other than "[". */
  predicate IsShortEscape(e: string) {
    |e| == 2 && e[0] == ESC && '@' <= e[1] <= '_' && e[1] != '['
  }

  ghost predicate BeginsCommand(s: string) {
    exists e :: IsCommand(e) && e <= s
  }

  /** `s` begins with the escape sequence `e`; ESC "]" is one only where no terminated command begins. */
  ghost predicate BeginsWithEscape(s: string, e: string) {
    && e <= s
    && (IsControlSequence(e) || IsCommand(e) || (IsShortEscape(e) && !BeginsCommand(s)))
  }

  lemma {:induction false} ParametersSkipped(s: string, i: nat, j: nat)
    requires i <= j <= |s| && AllWithin(s[i..j], '0', '?') && (j == |s| || !('0' <= s[j] <= '?'))
    ensures SkipParameters(s, i) == j
    decreases j - i
  {
    if i < j {
      assert s[i..j][0] == s[i] && s[i..j][1..] == s[i + 1..j];
      ParametersSkipped(s, i + 1, j);
    }
  }

  lemma {:induction false} SkippedParameters(s: string, i: nat)
    requires i <= |s|
    ensures AllWithin(s[i..SkipParameters(s, i)], '0', '?')
    decreases |s| - i
  {
    if i < |s| && '0' <= s[i] <= '?' {
      SkippedParameters(s, i + 1);
      assert s[i..SkipParameters(s, i)] == [s[i]] + s[i + 1..SkipParameters(s, i + 1)];
    }
  }

  lemma {:induction false} IntermediatesSkipped(s: string, i: nat, j: nat)
    requires i <= j <= |s| && AllWithin(s[i..j], ' ', '/') && (j == |s| || !(' ' <= s[j] <= '/'))
    ensures SkipIntermediates(s, i) == j
    decreases j - i
  {
    if i < j {
      assert s[i..j][0] == s[i] && s[i..j][1..] == s[i + 1..j];
      IntermediatesSkipped(s, i + 1, j);
    }
  }

  lemma {:induction false} SkippedIntermediates(s: string, i: nat)
    requires i <= |s|
    ensures AllWithin(s[i..SkipIntermediates(s, i)], ' ', '/')
    decreases |s| - i
  {
    if i < |s| && ' ' <= s[i] <= '/' {
      SkippedIntermediates(s, i + 1);
      assert s[i..SkipIntermediates(s, i)] == [s[i]] + s[i + 1..SkipIntermediates(s, i + 1)];
    }
  }

  lemma {:induction false} BodySkipped(s: string, i: nat, j: nat)
    requires i <= j < |s| && BEL !in s[i..j] && ESC !in s[i..j] && (s[j] == BEL || s[j] == ESC)
    ensures SkipBody(s, i) == j
    decreases j - i
  {
    if i < j {
      assert s[i..j][0] == s[i] && s[i..j][1..] == s[i + 1..j];
      BodySkipped(s, i + 1, j);
    }
  }

  lemma {:induction false} SkippedBody(s: string, i: nat)
    requires i <= |s|
    ensures BEL !in s[i..SkipBody(s, i)] && ESC !in s[i..SkipBody(s, i)]
    decreases |s| - i
  {
    if i < |s| && s[i] != BEL && s[i] != ESC {
      SkippedBody(s, i + 1);
      assert s[i..SkipBody(s, i)] == [s[i]] + s[i + 1..SkipBody(s, i + 1)];
    }
  }

  /** The scan for a control sequence ends after exactly the one the string begins with. */
  lemma ControlSequenceScanned(s: string, e: string)
    requires e <= s && IsControlSequence(e)
    ensures ControlSequenceEnd(s, 0) == Some(|e|)
  {
    var p, q, f :| ControlSequenceOf(e, p, q, f);
    var i, j := 2 + |p|, 2 + |p| + |q|;
    assert s[..|e|] == e;
    assert s[2..i] == e[2..i] == p && s[i..j] == e[i..j] == q && s[j] == e[j] == f;
    assert s[0] == e[0] && s[1] == e[1];
    assert q != [] ==> s[i] == q[0];
    ParametersSkipped(s, 2, i);
    IntermediatesSkipped(s, i, j);
  }

  lemma ScannedControlSequence(s: string)
    requires ControlSequenceEnd(s, 0).Some?
    ensures IsControlSequence(s[..ControlSequenceEnd(s, 0).value])
  {
    var i := SkipParameters(s, 2);
    var j := SkipIntermediates(s, i);
    SkippedParameters(s, 2);
    SkippedIntermediates(s, i);
    assert s[..j + 1] == [ESC, '['] + s[2..i] + s[i..j] + [s[j]];
    assert ControlSequenceOf(s[..j + 1], s[2..i], s[i..j], s[j]);
  }

  lemma CommandScanned(s: string, e: string)
    requires e <= s && IsCommand(e)
    ensures CommandEnd(s, 0) == Some(|e|)
  {
    var body, terminator :| CommandOf(e, body, terminator);
    var j := 2 + |body|;
    assert s[..|e|] == e;
    assert s[0] == e[0] && s[1] == e[1];
    assert s[2..j] == e[2..j] == body && s[j] == e[j] == terminator[0];
    assert |terminator| == 2 ==> s[j + 1] == e[j + 1] == terminator[1];
    BodySkipped(s, 2, j);
  }

  lemma ScannedCommand(s: string)
    requires CommandEnd(s, 0).Some?
    ensures IsCommand(s[..CommandEnd(s, 0).value])
  {
    var j, n := SkipBody(s, 2), CommandEnd(s, 0).value;
    SkippedBody(s, 2);
    assert s[..n] == [ESC, ']'] + s[2..j] + s[j..n];
    assert CommandOf(s[..n], s[2..j], s[j..n]);
  }

  /** The scan finds an escape sequence exactly where one begins, and its end. */
  lemma EscapeExact(s: string, e: string)
    ensures BeginsWithEscape(s, e) <==> e <= s && EscapeEnd(s, 0) == Some(|e|)
  {
    if BeginsWithEscape(s, e) {
      EscapeScanned(s, e);
    }
    if e <= s && EscapeEnd(s, 0) == Some(|e|) {
      assert s[..|e|] == e;
      ScannedEscape(s);
    }
  }

  lemma EscapeScanned(s: string, e: string)
    requires BeginsWithEscape(s, e)
    ensures EscapeEnd(s, 0) == Some(|e|)
  {
    if IsControlSequence(e) {
      ControlSequenceScanned(s, e);
    } else if IsCommand(e) {
      CommandScanned(s, e);
      assert s[1] == e[1] == ']';
    } else {
      assert s[0] == e[0] && s[1] == e[1];
      if CommandEnd(s, 0).Some? {
        ScannedCommand(s);
        assert BeginsCommand(s);
      }
    }
  }

  lemma ScannedEscape(s: string)
    requires EscapeEnd(s, 0).Some?
    ensures BeginsWithEscape(s, s[..EscapeEnd(s, 0).value])
  {
    if ControlSequenceEnd(s, 0).Some? {
      ScannedControlSequence(s);
    } else if CommandEnd(s, 0).Some? {
      ScannedCommand(s);
    } else if e :| IsCommand(e) && e <= s {
      CommandScanned(s, e);
    }
  }

  // ----- what becomes of each part of a string

  lemma {:induction false} SkipsShift(x: string, s: string, i: nat)
    requires i <= |s|
    ensures SkipParameters(x + s, |x| + i) == |x| + SkipParameters(s, i)
    ensures SkipIntermediates(x + s, |x| + i) == |x| + SkipIntermediates(s, i)
    ensures SkipBody(x + s, |x| + i) == |x| + SkipBody(s, i)
    decreases |s| - i
  {
    if i < |s| {
      SkipsShift(x, s, i + 1);
    }
  }

  function Shifted(n: nat, r: Option<nat>): Option<nat> {
    match r
    case Some(e) => Some(n + e)
    case None => None
  }

  lemma ControlSequenceShift(x: string, s: string, i: nat)
    requires i + 1 < |s|
    ensures ControlSequenceEnd(x + s, |x| + i) == Shifted(|x|, ControlSequenceEnd(s, i))
  {
    assert (x + s)[|x| + i] == s[i] && (x + s)[|x| + i + 1] == s[i + 1];
    SkipsShift(x, s, i + 2);
    SkipsShift(x, s, SkipParameters(s, i + 2));
  }

  lemma CommandShift(x: string, s: string, i: nat)
    requires i + 1 < |s|
    ensures CommandEnd(x + s, |x| + i) == Shifted(|x|, CommandEnd(s, i))
  {
    assert (x + s)[|x| + i] == s[i] && (x + s)[|x| + i + 1] == s[i + 1];
    SkipsShift(x, s, i + 2);
  }

  lemma EscapeShift(x: string, s: string, i: nat)
    requires i <= |s|
    ensures EscapeEnd(x + s, |x| + i) == Shifted(|x|, EscapeEnd(s, i))
  {
    if i + 1 < |s| {
      ControlSequenceShift(x, s, i);
      CommandShift(x, s, i);
      assert (x + s)[|x| + i] == s[i] && (x + s)[|x| + i + 1] == s[i + 1];
    }
  }

  /** What stands in front of the position does not matter. */
  lemma {:induction false} StripShift(x: string, s: string, i: nat)
    requires i <= |s|
    ensures StripEscapes(x + s, |x| + i) == StripEscapes(s, i)
    decreases |s| - i
  {
    if i < |s| {
      EscapeShift(x, s, i);
      match EscapeEnd(s, i)
      case Some(e) => StripShift(x, s, e);
      case None => StripShift(x, s, i + 1);
    }
  }

  /** An escape sequence is removed as a whole. */
  lemma EscapeRemoved(s: string, e: string)
    requires BeginsWithEscape(s, e)
    ensures SanitizeString(s) == SanitizeString(s[|e|..])
  {
    EscapeExact(s, e);
    assert s == e + s[|e|..];
    StripShift(e, s[|e|..], 0);
  }

  /** Where none begins, a control character is dropped alone, and any other character is kept. */
  lemma CharacterByItself(s: string)
    requires s != "" && forall e :: !BeginsWithEscape(s, e)
    ensures SanitizeString(s) == (if IsControl(s[0]) then "" else [s[0]]) + SanitizeString(s[1..])
  {
    if EscapeEnd(s, 0).Some? {
      ScannedEscape(s);
    }
    assert s == [s[0]] + s[1..];
    StripShift([s[0]], s[1..], 0);
    var rest := StripEscapes(s[1..], 0);
    assert ([s[0]] + rest)[1..] == rest;
  }

  lemma EscapesBeginWithEsc(s: string, e: string)
    requires BeginsWithEscape(s, e)
    ensures s != "" && s[0] == ESC
  {
    EscapeExact(s, e);
  }

  /** Text without control characters stays in front of whatever becomes of the rest. */
  lemma {:induction false} CleanPrefixKept(a: string, s: string)
    requires Clean(a)
    ensures SanitizeString(a + s) == a + SanitizeString(s)
  {
    if a == "" {
      assert a + s == s;
    } else {
      var t := a + s;
      assert t[0] == a[0] && t[1..] == a[1..] + s;
      forall e
        ensures !BeginsWithEscape(t, e)
      {
        if BeginsWithEscape(t, e) {
          EscapesBeginWithEsc(t, e);
        }
      }
      CharacterByItself(t);
      CleanPrefixKept(a[1..], s);
    }
  }

  /** Escape sequences leave nothing behind, and what is around them stays. */
  lemma EscapesRemoved(a: string, e: string, b: string)
    requires Clean(a) && BeginsWithEscape(e + b, e)
    ensures SanitizeString(a + e + b) == a + SanitizeString(b)
  {
    CleanPrefixKept(a, e + b);
    EscapeRemoved(e + b, e);
    assert (e + b)[|e|..] == b;
    assert a + e + b == a + (e + b);
  }

  /** ESC "[31mX" loses its colour and nothing else. */
  lemma ColourRemoved()
    ensures SanitizeString([ESC] + "[31mX") == "X"
  {
    var e := [ESC] + "[31m";
    assert ControlSequenceOf(e, "31", "", 'm');
    assert e + "X" == [ESC] + "[31mX";
    EscapesRemoved("", e, "X");
    assert "" + e + "X" == e + "X";
    SanitizedExactly("X");
  }

  // ----- values

  datatype Value =
    | Text(s: string)
    | Other(id: int)
    | List(items: seq<Value>)
    | Dict(entries: map<string, Value>)

  /** Keys are left alone. */
  function Sanitized(v: Value): Value {
    match v
    case Text(s) => Text(SanitizeString(s))
    case Other(_) => v
    case List(vs) => List(seq(|vs|, i requires 0 <= i < |vs| => Sanitized(vs[i])))
    case Dict(m) => Dict(map k | k in m :: Sanitized(m[k]))
  }

  function SanitizedFields(m: map<string, Value>): map<string, Value> {
    map k | k in m :: Sanitized(m[k])
  }

  /** No string value anywhere has a control character. */
  predicate CleanValue(v: Value) {
    match v
    case Text(s) => Clean(s)
    case Other(_) => true
    case List(vs) => forall i :: 0 <= i < |vs| ==> CleanValue(vs[i])
    case Dict(m) => forall k :: k in m ==> CleanValue(m[k])
  }

  lemma {:induction false} SanitizedValueExactly(v: Value)
    ensures CleanValue(Sanitized(v))
    ensures Sanitized(v) == v <==> CleanValue(v)
  {
    match v
    case Text(s) => SanitizedExactly(s);
    case Other(_) =>
    case List(vs) =>
      var ws := Sanitized(v).items;
      forall i | 0 <= i < |vs|
        ensures CleanValue(ws[i]) && (ws[i] == vs[i] <==> CleanValue(vs[i]))
      {
        SanitizedValueExactly(vs[i]);
      }
      assert (forall i :: 0 <= i < |vs| ==> ws[i] == vs[i]) <==> ws == vs;
    case Dict(m) =>
      var n := Sanitized(v).entries;
      forall k | k in m
        ensures CleanValue(n[k]) && (n[k] == m[k] <==> CleanValue(m[k]))
      {
        SanitizedValueExactly(m[k]);
      }
      assert (forall k :: k in m ==> n[k] == m[k]) <==> n == m;
  }

  /** Sanitizing again changes nothing. */
  lemma SanitizedTwice(v: Value)
    ensures Sanitized(Sanitized(v)) == Sanitized(v)
  {
    SanitizedValueExactly(v);
    SanitizedValueExactly(Sanitized(v));
  }

  lemma SanitizedFieldsTwice(m: map<string, Value>)
    ensures SanitizedFields(SanitizedFields(m)) == SanitizedFields(m)
  {
    forall k | k in m
      ensures Sanitized(Sanitized(m[k])) == Sanitized(m[k])
    {
      SanitizedTwice(m[k]);
    }
  }

  // ----- objects, in place

  /** An object of the cluster, shared between the cache and everything that renders it. */
  class Resource {
    /** What the backend sent, and the key it is cached under. */
    ghost const origin: map<string, Value>
    ghost const home: string
    ghost var sanitized: bool
    var fields: map<string, Value>

    /** The object is as it came, or as it came but sanitized. */
    ghost predicate Valid()
      reads this
    {
      fields == if sanitized then SanitizedFields(origin) else origin
    }

    constructor (content: map<string, Value>, ghost home: string)
      ensures Valid() && !sanitized && fields == origin == content && this.home == home
    {
      fields, origin, sanitized := content, content, false;
      this.home := home;
    }

    /** Rewrites each entry under its key. */
    method SanitizeObject()
      requires Valid()
      modifies this
      ensures Valid() && sanitized && fields == SanitizedFields(old(fields)) == SanitizedFields(origin)
    {
      var todo := fields.Keys;
      while todo != {}
        invariant todo <= fields.Keys == old(fields).Keys
        invariant forall k :: k in fields ==> fields[k] == if k in todo then old(fields)[k] else Sanitized(old(fields)[k])
        decreases |todo|
      {
        var k :| k in todo;
        fields := fields[k := Sanitized(fields[k])];
        todo := todo - {k};
      }
      assert fields == SanitizedFields(old(fields));
      SanitizedFieldsTwice(origin);
      sanitized := true;
    }
  }
}
