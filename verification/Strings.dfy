/** The parts of Go's strings and strconv packages the modules share, on ASCII bytes. */
module Strings {
  import opened Wrappers

  /** strings.Contains */
  predicate HasSubstring(s: string, sub: string) {
    exists i :: 0 <= i <= |s| && sub <= s[i..]
  }

  /** strings.HasSuffix */
  predicate HasSuffix(s: string, suffix: string) {
    |suffix| <= |s| && s[|s| - |suffix|..] == suffix
  }

  function LowerByte(c: char): char {
    if 'A' <= c <= 'Z' then (c as int + 32) as char else c
  }

  /** strings.ToLower */
  function Lower(s: string): (r: string)
    ensures |r| == |s| && forall i :: 0 <= i < |s| ==> r[i] == LowerByte(s[i])
  {
    seq(|s|, i requires 0 <= i < |s| => LowerByte(s[i]))
  }

  /** strings.EqualFold */
  predicate EqualFold(s: string, t: string) {
    Lower(s) == Lower(t)
  }

  /** strings.Split, at a one-byte separator */
  function Split(path: string, sep: char := '.'): (r: seq<string>)
    ensures r != []
  {
    if path == "" then [""]
    else
      var rest := Split(path[1..], sep);
      if path[0] == sep then [""] + rest else [[path[0]] + rest[0]] + rest[1..]
  }

  predicate IsDigit(c: char) {
    '0' <= c <= '9'
  }

  function DigitsValue(s: string): nat {
    if s == "" then 0 else 10 * DigitsValue(s[..|s| - 1]) + (if IsDigit(s[|s| - 1]) then (s[|s| - 1] - '0') as nat else 0)
  }

  /** strconv.ParseInt(s, 10, 64), and strconv.Atoi where int has 64 bits */
  function ParseInt64(s: string): Option<int> {
    var signed := s != "" && (s[0] == '+' || s[0] == '-');
    var digits := if signed then s[1..] else s;
    if digits == "" || exists i :: 0 <= i < |digits| && !IsDigit(digits[i]) then None
    else
      var value: int := DigitsValue(digits);
      var n := if signed && s[0] == '-' then -value else value;
      if -0x8000_0000_0000_0000 <= n < 0x8000_0000_0000_0000 then Some(n) else None
  }

  lemma LowerConcat(s: string, t: string)
    ensures Lower(s + t) == Lower(s) + Lower(t)
  {
  }

  /** strings.Join, with a one-byte separator */
  function Join(r: seq<string>, sep: char := '.'): string {
    if r == [] then "" else if |r| == 1 then r[0] else r[0] + [sep] + Join(r[1..], sep)
  }

  lemma {:induction false} SplitKey(k: string, sep: char := '.')
    requires sep !in k
    ensures Split(k, sep) == [k]
  {
    if k != "" {
      SplitKey(k[1..], sep);
      assert [k[0]] + k[1..] == k;
    }
  }

  lemma {:induction false} SplitKeyDot(k: string, rest: string, sep: char := '.')
    requires sep !in k
    ensures Split(k + [sep] + rest, sep) == [k] + Split(rest, sep)
  {
    var s := k + [sep] + rest;
    if k == "" {
      assert s[1..] == rest;
    } else {
      SplitKeyDot(k[1..], rest, sep);
      assert s[1..] == k[1..] + [sep] + rest;
      assert [k[0]] + k[1..] == k;
    }
  }

  lemma {:induction false} SplitConcat(s: string, t: string)
    ensures Split(s + "." + t) == Split(s) + Split(t)
  {
    var u := s + "." + t;
    if s == "" {
      assert u[1..] == t;
    } else {
      SplitConcat(s[1..], t);
      assert u[1..] == s[1..] + "." + t;
      FrontGrows(s[0], Split(s[1..]), Split(t));
    }
  }

  lemma FrontGrows(c: char, front: seq<string>, back: seq<string>)
    requires front != []
    ensures [""] + (front + back) == [""] + front + back
    ensures [[c] + (front + back)[0]] + (front + back)[1..] == [[c] + front[0]] + front[1..] + back
  {
    assert (front + back)[1..] == front[1..] + back;
  }

  lemma {:induction false} JoinConcat(p: seq<string>, q: seq<string>)
    requires p != [] && q != []
    ensures Join(p + q) == Join(p) + "." + Join(q)
  {
    if |p| == 1 {
      assert (p + q)[1..] == q;
    } else {
      assert (p + q)[1..] == p[1..] + q;
      JoinConcat(p[1..], q);
    }
  }

  /** Joining the parts of a string gives it back. */
  lemma {:induction false} JoinSplit(s: string)
    ensures Join(Split(s)) == s
  {
    if s != "" {
      var rest := Split(s[1..]);
      JoinSplit(s[1..]);
      assert s == [s[0]] + s[1..];
      if s[0] == '.' {
        assert ([""] + rest)[1..] == rest;
      } else {
        assert ([[s[0]] + rest[0]] + rest[1..])[1..] == rest[1..];
        assert rest == [rest[0]] + rest[1..];
      }
    }
  }

  /** Splitting what was joined gives the parts back, if none has the separator in it. */
  lemma {:induction false} SplitJoin(r: seq<string>, sep: char := '.')
    requires r != [] && forall i :: 0 <= i < |r| ==> sep !in r[i]
    ensures Split(Join(r, sep), sep) == r
  {
    if |r| == 1 {
      SplitKey(r[0], sep);
    } else {
      SplitKeyDot(r[0], Join(r[1..], sep), sep);
      SplitJoin(r[1..], sep);
    }
  }

  /** No part of a split string has a dot. */
  lemma {:induction false} SplitDotFree(s: string, i: nat)
    requires i < |Split(s)|
    ensures '.' !in Split(s)[i]
  {
    if s != "" {
      if s[0] == '.' {
        if i > 0 {
          SplitDotFree(s[1..], i - 1);
        }
      } else {
        SplitDotFree(s[1..], i);
      }
    }
  }

  /** Splitting off the front parts is cutting the string at a dot. */
  lemma SplitFront(s: string, front: seq<string>, t: string)
    requires front != [] && Split(s) == front + Split(t)
    ensures s == Join(front) + "." + t
  {
    JoinSplit(s);
    JoinSplit(t);
    JoinConcat(front, Split(t));
  }
}
