/** Byte-wise string order, and the sorted elements of a finite set of strings. */
module Ordering {
  predicate AtMost(a: string, b: string) {
    a == "" || (b != "" && (a[0] < b[0] || (a[0] == b[0] && AtMost(a[1..], b[1..]))))
  }

  lemma {:induction false} AtMostTotal(a: string, b: string)
    ensures AtMost(a, b) || AtMost(b, a)
    ensures AtMost(a, b) && AtMost(b, a) ==> a == b
  {
    if a != "" && b != "" && a[0] == b[0] {
      AtMostTotal(a[1..], b[1..]);
      assert a == [a[0]] + a[1..] && b == [b[0]] + b[1..];
    }
  }

  lemma {:induction false} AtMostTransitive(a: string, b: string, c: string)
    requires AtMost(a, b) && AtMost(b, c)
    ensures AtMost(a, c)
  {
    if a != "" && a[0] == b[0] == c[0] {
      AtMostTransitive(a[1..], b[1..], c[1..]);
    }
  }

  predicate IsLeast(x: string, s: set<string>) {
    x in s && forall y :: y in s ==> AtMost(x, y)
  }

  lemma {:induction false} HasLeast(s: set<string>)
    requires s != {}
    ensures exists x :: IsLeast(x, s)
    ensures forall x, y :: IsLeast(x, s) && IsLeast(y, s) ==> x == y
  {
    forall x, y | IsLeast(x, s) && IsLeast(y, s)
      ensures x == y
    {
      AtMostTotal(x, y);
    }
    var z :| z in s;
    var rest := s - {z};
    AtMostTotal(z, z);
    if rest == {} {
      assert s == {z};
      assert IsLeast(z, s);
    } else {
      HasLeast(rest);
      var x :| IsLeast(x, rest);
      AtMostTotal(x, z);
      if AtMost(x, z) {
        assert IsLeast(x, s);
      } else {
        forall y | y in s
          ensures AtMost(z, y)
        {
          if y != z {
            AtMostTransitive(z, x, y);
          }
        }
        assert IsLeast(z, s);
      }
    }
  }

  /** In order, without repetition.  (A pair's order is recalled where it is asked for.) */
  predicate Ascending(r: seq<string>) {
    forall i, j {:trigger AtMost(r[i], r[j])} :: 0 <= i < j < |r| ==> r[i] != r[j] && AtMost(r[i], r[j])
  }

  lemma AscendingDistinct(r: seq<string>)
    requires Ascending(r)
    ensures forall i, j :: 0 <= i < j < |r| ==> r[i] != r[j]
  {
    forall i, j | 0 <= i < j < |r|
      ensures r[i] != r[j]
    {
      assert AtMost(r[i], r[j]);
    }
  }

  /** sort.Strings over the keys of a map. */
  function Sorted(s: set<string>): (r: seq<string>)
    ensures |r| == |s| && Ascending(r)
    ensures forall x :: x in r <==> x in s
    decreases |s|
  {
    if s == {} then []
    else
      HasLeast(s);
      var x :| IsLeast(x, s);
      var rest := Sorted(s - {x});
      LeastFirst(x, rest, s);
      [x] + rest
  }

  lemma LeastFirst(x: string, rest: seq<string>, s: set<string>)
    requires IsLeast(x, s) && Ascending(rest) && forall y :: y in rest <==> y in s - {x}
    ensures Ascending([x] + rest)
  {
    var r := [x] + rest;
    forall i, j | 0 <= i < j < |r|
      ensures r[i] != r[j] && AtMost(r[i], r[j])
    {
      if i == 0 {
        assert rest[j - 1] in s - {x};
      } else {
        assert AtMost(rest[i - 1], rest[j - 1]);
      }
    }
  }
}
