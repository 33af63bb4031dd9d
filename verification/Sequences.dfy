/** Facts about sequences of any elements. */
module Sequences {
  lemma Regroup<T>(a: seq<T>, b: seq<T>, c: seq<T>)
    ensures a + (b + c) == a + b + c
  {
  }

  lemma Regroup4<T>(a: seq<T>, b: seq<T>, c: seq<T>, d: seq<T>)
    ensures a + (b + (c + d)) == a + b + c + d
  {
    Regroup(a, b, c + d);
    Regroup(a + b, c, d);
  }

  lemma Regroup6<T>(a: seq<T>, b: seq<T>, c: seq<T>, d: seq<T>, e: seq<T>, f: seq<T>)
    ensures a + (b + (c + (d + (e + f)))) == a + b + c + d + e + f
  {
    Regroup4(a, b, c, d + (e + f));
    Regroup4(a + b + c, d, e, f);
  }

  /** Reordering keeps the elements. */
  lemma SameElements<T>(xs: seq<T>, ys: seq<T>)
    requires multiset(xs) == multiset(ys)
    ensures forall x :: x in xs <==> x in ys
  {
    forall x
      ensures x in xs <==> x in ys
    {
      assert x in xs <==> x in multiset(xs);
      assert x in ys <==> x in multiset(ys);
    }
  }

  /** Taking one element out of two orders of the same elements. */
  lemma RemoveOne<T>(xs: seq<T>, i: nat, init: seq<T>)
    requires i < |xs| && multiset(xs) == multiset(init + [xs[i]])
    ensures multiset(xs[..i] + xs[i + 1..]) == multiset(init)
  {
    var rest := multiset(xs[..i] + xs[i + 1..]);
    assert xs == xs[..i] + [xs[i]] + xs[i + 1..];
    assert multiset(xs) == rest + multiset{xs[i]};
    assert multiset(init + [xs[i]]) == multiset(init) + multiset{xs[i]};
    assert rest == (rest + multiset{xs[i]}) - multiset{xs[i]};
    assert multiset(init) == (multiset(init) + multiset{xs[i]}) - multiset{xs[i]};
  }
}
