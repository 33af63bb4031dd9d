/**
  Dotted leaf paths: flattening a JSON tree to its leaves, and writing leaves back into a document.
 */
module DriftPaths {
  import opened Wrappers
  import opened Sequences
  import opened Strings
  import opened DriftJson
  import opened Ordering

  type Route = seq<string>
  datatype Leaf = Leaf(path: string, value: Json)

  /** Anything but a non-empty map. */
  predicate IsLeaf(v: Json) {
    !(v.Obj? && v.fields != map[])
  }

  function ChildPath(prefix: string, key: string): string {
    if prefix != "" then prefix + "." + key else key
  }

  function WalkLeaves(prefix: string, v: Json): seq<Leaf>
    decreases v, 1, 0
  {
    if IsLeaf(v) then [Leaf(prefix, v)] else WalkFields(prefix, v, Sorted(v.fields.Keys))
  }

  function WalkFields(prefix: string, v: Json, keys: seq<string>): seq<Leaf>
    requires v.Obj? && forall k <- keys :: k in v.fields
    decreases v, 0, |keys|
  {
    if keys == [] then []
    else WalkLeaves(ChildPath(prefix, keys[0]), v.fields[keys[0]]) + WalkFields(prefix, v, keys[1..])
  }

  predicate GoodKey(k: string) {
    k != "" && '.' !in k
  }

  predicate GoodRoute(r: Route) {
    forall k <- r :: GoodKey(k)
  }

  /** Every key on the way to a leaf is non-empty and free of dots. */
  predicate GoodTree(v: Json) {
    v.Obj? ==> forall k <- v.fields :: GoodKey(k) && GoodTree(v.fields[k])
  }

  /** A good route is recovered from its dotted path. */
  lemma {:induction false} SplitGoodRoute(r: Route)
    requires GoodRoute(r) && r != []
    ensures Split(Join(r)) == r && Join(r) != ""
  {
    assert GoodKey(r[0]);
    if |r| == 1 {
      SplitKey(r[0]);
    } else {
      SplitGoodRoute(r[1..]);
      SplitKeyDot(r[0], Join(r[1..]));
    }
  }

  lemma {:induction false} JoinSnoc(r: Route, k: string)
    requires GoodRoute(r)
    ensures Join(r + [k]) == ChildPath(Join(r), k)
  {
    if r == [] {
      assert r + [k] == [k];
    } else {
      SplitGoodRoute(r);
      JoinConcat(r, [k]);
    }
  }

  // ----- leaves by descent

  function Descend(v: Json, r: Route): Option<Json>
    decreases |r|
  {
    if r == [] then Some(v)
    else if v.Obj? && r[0] in v.fields then Descend(v.fields[r[0]], r[1..])
    else None
  }

  /** Following `r` from `v` ends at the leaf `x`. */
  predicate HasLeaf(v: Json, r: Route, x: Json) {
    Descend(v, r) == Some(x) && IsLeaf(x)
  }

  lemma {:induction false} SomeLeaf(v: Json) returns (r: Route, x: Json)
    ensures HasLeaf(v, r, x)
  {
    if IsLeaf(v) {
      r, x := [], v;
    } else {
      var k :| k in v.fields;
      var r', x' := SomeLeaf(v.fields[k]);
      r, x := [k] + r', x';
      assert r[1..] == r';
    }
  }

  lemma UnderKey(v: Json, k: string, r: Route, x: Json)
    requires v.Obj?
    ensures HasLeaf(v, [k] + r, x) <==> k in v.fields && HasLeaf(v.fields[k], r, x)
  {
    assert ([k] + r)[1..] == r;
  }

  /** No leaf lies on the way to another. */
  lemma {:induction false} LeavesAntichain(v: Json, r: Route, x: Json, q: Route, y: Json)
    requires HasLeaf(v, r, x) && HasLeaf(v, q, y) && r <= q
    ensures r == q && x == y
  {
    if r != [] {
      LeavesAntichain(v.fields[r[0]], r[1..], x, q[1..], y);
    }
  }

  /** A tree is determined by its leaves. */
  lemma {:induction false} LeavesDetermine(v: Json, w: Json)
    requires forall r, x :: HasLeaf(v, r, x) <==> HasLeaf(w, r, x)
    ensures v == w
  {
    if IsLeaf(v) {
      assert HasLeaf(v, [], v);
    } else if IsLeaf(w) {
      assert HasLeaf(w, [], w);
    } else {
      forall k
        ensures k in v.fields <==> k in w.fields
      {
        if k in v.fields {
          var r, x := SomeLeaf(v.fields[k]);
          UnderKey(v, k, r, x);
          UnderKey(w, k, r, x);
        }
        if k in w.fields {
          var r, x := SomeLeaf(w.fields[k]);
          UnderKey(v, k, r, x);
          UnderKey(w, k, r, x);
        }
      }
      forall k | k in v.fields
        ensures v.fields[k] == w.fields[k]
      {
        forall r, x
          ensures HasLeaf(v.fields[k], r, x) <==> HasLeaf(w.fields[k], r, x)
        {
          UnderKey(v, k, r, x);
          UnderKey(w, k, r, x);
        }
        LeavesDetermine(v.fields[k], w.fields[k]);
      }
    }
  }

  // ----- walkLeaves against descent

  lemma {:induction false} WalkExact(p: Route, v: Json, q: Route, x: Json)
    requires GoodRoute(p) && GoodTree(v)
    requires GoodRoute(q) && q != []
    ensures Leaf(Join(q), x) in WalkLeaves(Join(p), v) <==> p <= q && HasLeaf(v, q[|p|..], x)
    decreases v, 1, 0
  {
    if IsLeaf(v) {
      if Join(p) == Join(q) {
        if p == [] { SplitGoodRoute(q); } else { SplitGoodRoute(p); SplitGoodRoute(q); }
        assert q[|p|..] == [];
      }
      if p <= q && HasLeaf(v, q[|p|..], x) {
        assert q[|p|..] == [];
        assert q == p;
      }
    } else {
      var keys := Sorted(v.fields.Keys);
      WalkFieldsExact(p, v, keys, q, x);
      if p <= q && HasLeaf(v, q[|p|..], x) {
        assert q[|p|..] != [];
        assert q[|p|] in keys;
      }
    }
  }

  lemma {:induction false} WalkFieldsExact(p: Route, v: Json, keys: seq<string>, q: Route, x: Json)
    requires GoodRoute(p) && GoodTree(v)
    requires GoodRoute(q) && q != []
    requires v.Obj? && forall k <- keys :: k in v.fields
    ensures Leaf(Join(q), x) in WalkFields(Join(p), v, keys) <==>
            p < q && q[|p|] in keys && HasLeaf(v, q[|p|..], x)
    decreases v, 0, |keys|
  {
    if keys != [] {
      var k := keys[0];
      JoinSnoc(p, k);
      WalkExact(p + [k], v.fields[k], q, x);
      WalkFieldsExact(p, v, keys[1..], q, x);
      assert p + [k] <= q <==> p < q && q[|p|] == k;
      if p + [k] <= q {
        assert q[|p|..] == [k] + q[|p| + 1..];
        UnderKey(v, k, q[|p| + 1..], x);
      }
    }
  }

  /** The route of a leaf returned by walkLeaves. */
  lemma {:induction false} WalkRoute(p: Route, v: Json, l: Leaf) returns (q: Route)
    requires GoodRoute(p) && GoodTree(v) && l in WalkLeaves(Join(p), v)
    ensures GoodRoute(q) && p <= q && l.path == Join(q) && (!IsLeaf(v) ==> q != p)
    decreases v, 1, 0
  {
    if IsLeaf(v) {
      q := p;
    } else {
      q := WalkFieldsRoute(p, v, Sorted(v.fields.Keys), l);
    }
  }

  lemma {:induction false} WalkFieldsRoute(p: Route, v: Json, keys: seq<string>, l: Leaf) returns (q: Route)
    requires GoodRoute(p) && GoodTree(v)
    requires v.Obj? && forall k <- keys :: k in v.fields
    requires l in WalkFields(Join(p), v, keys)
    ensures GoodRoute(q) && p < q && l.path == Join(q)
    decreases v, 0, |keys|
  {
    var k := keys[0];
    JoinSnoc(p, k);
    if l in WalkLeaves(Join(p + [k]), v.fields[k]) {
      q := WalkRoute(p + [k], v.fields[k], l);
    } else {
      q := WalkFieldsRoute(p, v, keys[1..], l);
    }
  }

  predicate DistinctPaths(ls: seq<Leaf>) {
    forall i, j :: 0 <= i < j < |ls| ==> ls[i].path != ls[j].path
  }

  lemma {:induction false} WalkDistinct(p: Route, v: Json)
    requires GoodRoute(p) && GoodTree(v)
    ensures DistinctPaths(WalkLeaves(Join(p), v))
    decreases v, 1, 0
  {
    if !IsLeaf(v) {
      AscendingDistinct(Sorted(v.fields.Keys));
      WalkFieldsDistinct(p, v, Sorted(v.fields.Keys));
    }
  }

  lemma {:induction false} WalkFieldsDistinct(p: Route, v: Json, keys: seq<string>)
    requires GoodRoute(p) && GoodTree(v)
    requires v.Obj? && forall k <- keys :: k in v.fields
    requires forall i, j :: 0 <= i < j < |keys| ==> keys[i] != keys[j]
    ensures DistinctPaths(WalkFields(Join(p), v, keys))
    decreases v, 0, |keys|
  {
    if keys != [] {
      var k := keys[0];
      JoinSnoc(p, k);
      var first := WalkLeaves(Join(p + [k]), v.fields[k]);
      var rest := WalkFields(Join(p), v, keys[1..]);
      WalkDistinct(p + [k], v.fields[k]);
      WalkFieldsDistinct(p, v, keys[1..]);
      forall i, j | 0 <= i < |first| && 0 <= j < |rest|
        ensures first[i].path != rest[j].path
      {
        var q := WalkRoute(p + [k], v.fields[k], first[i]);
        var q' := WalkFieldsRoute(p, v, keys[1..], rest[j]);
        WalkFieldsExact(p, v, keys[1..], q', rest[j].value);
        SplitGoodRoute(q);
        SplitGoodRoute(q');
        assert q[|p|] == k;
      }
    }
  }

  /** The leaves walkLeaves lists for a document are exactly those descent reaches, each once. */
  lemma WalkIsDescent(m: map<string, Json>, r: Route, x: Json)
    requires GoodTree(Obj(m)) && m != map[] && r != []
    ensures GoodRoute(r) ==> (Leaf(Join(r), x) in WalkLeaves("", Obj(m)) <==> HasLeaf(Obj(m), r, x))
    ensures HasLeaf(Obj(m), r, x) ==> GoodRoute(r)
    ensures DistinctPaths(WalkLeaves("", Obj(m)))
  {
    if GoodRoute(r) {
      WalkExact([], Obj(m), r, x);
    }
    WalkDistinct([], Obj(m));
    if HasLeaf(Obj(m), r, x) {
      DescentIsGood(Obj(m), r);
    }
  }

  lemma {:induction false} DescentIsGood(v: Json, r: Route)
    requires GoodTree(v) && Descend(v, r).Some?
    ensures GoodRoute(r)
  {
    if r != [] {
      DescentIsGood(v.fields[r[0]], r[1..]);
      assert r == [r[0]] + r[1..];
    }
  }

  // ----- setPath

  /** setPath over the parts of a path: maps are created, or replace what is not a map, on the way. */
  function SetRoute(doc: map<string, Json>, parts: Route, value: Json): (r: map<string, Json>)
    requires parts != []
    ensures parts[0] in r
    decreases |parts|
  {
    if |parts| == 1 then doc[parts[0] := value]
    else
      var next := if parts[0] in doc && doc[parts[0]].Obj? then doc[parts[0]].fields else map[];
      doc[parts[0] := Obj(SetRoute(next, parts[1..], value))]
  }

  function SetPath(doc: map<string, Json>, path: string, value: Json): map<string, Json> {
    SetRoute(doc, Split(path), value)
  }

  /** Nothing is stored at `r`, above it, or below it: setting it overwrites nothing. */
  predicate Vacant(v: Json, r: Route)
    decreases |r|
  {
    r != [] && v.Obj? &&
    (r[0] in v.fields ==> |r| > 1 && !IsLeaf(v.fields[r[0]]) && Vacant(v.fields[r[0]], r[1..]))
  }

  /** Entries other than the one set keep their leaves. */
  lemma OtherKeyKept(m: map<string, Json>, k: string, v: Json, q: Route, y: Json)
    requires q != [] && q[0] != k
    ensures HasLeaf(Obj(m[k := v]), q, y) <==> HasLeaf(Obj(m), q, y)
  {
  }

  /** A vacant key set to a leaf. */
  lemma KeySet(m: map<string, Json>, k: string, x: Json, q: Route, y: Json)
    requires k !in m && IsLeaf(x) && q != [] && q[0] == k
    ensures HasLeaf(Obj(m[k := x]), q, y) <==> q == [k] && y == x
    ensures !HasLeaf(Obj(m), q, y)
  {
    assert q == [k] + q[1..];
    UnderKey(Obj(m[k := x]), k, q[1..], y);
  }

  /** A map set below a vacant key, or in place of the map there. */
  lemma MapSet(m: map<string, Json>, k: string, before: map<string, Json>, after: map<string, Json>, q: Route, y: Json)
    requires q != [] && q[0] == k && after != map[]
    requires if k in m then m[k] == Obj(before) && before != map[] else before == map[]
    ensures HasLeaf(Obj(m[k := Obj(after)]), q, y) <==> q[1..] != [] && HasLeaf(Obj(after), q[1..], y)
    ensures HasLeaf(Obj(m), q, y) <==> q[1..] != [] && HasLeaf(Obj(before), q[1..], y)
  {
    assert q == [k] + q[1..];
    UnderKey(Obj(m[k := Obj(after)]), k, q[1..], y);
    UnderKey(Obj(m), k, q[1..], y);
  }

  /** Setting a vacant route adds one leaf and keeps the others. */
  lemma {:induction false} SetAdds(m: map<string, Json>, r: Route, x: Json, q: Route, y: Json)
    requires Vacant(Obj(m), r) && IsLeaf(x) && q != []
    ensures HasLeaf(Obj(SetRoute(m, r, x)), q, y) <==> (q == r && y == x) || HasLeaf(Obj(m), q, y)
    decreases |r|
  {
    var k := r[0];
    if q[0] != k {
      OtherKeyKept(m, k, SetRoute(m, r, x)[k], q, y);
    } else if |r| == 1 {
      assert r == [k];
      KeySet(m, k, x, q, y);
    } else {
      var next := if k in m && m[k].Obj? then m[k].fields else map[];
      MapSet(m, k, next, SetRoute(next, r[1..], x), q, y);
      assert q == [k] + q[1..] && r == [k] + r[1..];
      if q[1..] != [] {
        SetAdds(next, r[1..], x, q[1..], y);
      }
    }
  }

  /** A route unrelated to every leaf is vacant. */
  lemma {:induction false} UnrelatedVacant(v: Json, r: Route)
    requires v.Obj? && r != []
    requires forall q, y :: HasLeaf(v, q, y) && q != [] ==> !(q <= r) && !(r <= q)
    ensures Vacant(v, r)
    decreases |r|
  {
    var k := r[0];
    if k in v.fields {
      var c := v.fields[k];
      var q, y := SomeLeaf(c);
      UnderKey(v, k, q, y);
      assert r == [k] + r[1..];
      assert !([k] + q <= r) && !(r <= [k] + q);
      assert |r| > 1;
      if IsLeaf(c) {
        UnderKey(v, k, [], c);
      } else {
        forall q, y | HasLeaf(c, q, y) && q != []
          ensures !(q <= r[1..]) && !(r[1..] <= q)
        {
          UnderKey(v, k, q, y);
          assert !([k] + q <= r) && !(r <= [k] + q);
        }
        UnrelatedVacant(c, r[1..]);
      }
    }
  }

  // ----- writing leaves into an empty document, in any order

  function Fold(ls: seq<Leaf>): map<string, Json> {
    if ls == [] then map[]
    else SetPath(Fold(ls[..|ls| - 1]), ls[|ls| - 1].path, ls[|ls| - 1].value)
  }

  /** Values are leaves, and no path leads through another. */
  predicate Antichain(ls: seq<Leaf>) {
    && (forall i :: 0 <= i < |ls| ==> IsLeaf(ls[i].value))
    && (forall i, j :: 0 <= i < |ls| && 0 <= j < |ls| && i != j ==> !(Split(ls[i].path) <= Split(ls[j].path)))
  }

  predicate Lists(ls: seq<Leaf>, q: Route, y: Json) {
    exists i :: 0 <= i < |ls| && Split(ls[i].path) == q && ls[i].value == y
  }

  /** The document holds exactly the leaves written, and the next write overwrites none of them. */
  lemma {:induction false} FoldExact(ls: seq<Leaf>)
    requires Antichain(ls)
    ensures forall q, y :: q != [] ==> (HasLeaf(Obj(Fold(ls)), q, y) <==> Lists(ls, q, y))
    ensures ls != [] ==> Vacant(Obj(Fold(ls[..|ls| - 1])), Split(ls[|ls| - 1].path))
  {
    if ls != [] {
      var init, l := ls[..|ls| - 1], ls[|ls| - 1];
      var r := Split(l.path);
      FoldExact(init);
      UnrelatedVacant(Obj(Fold(init)), r);
      forall q, y | q != []
        ensures HasLeaf(Obj(Fold(ls)), q, y) <==> Lists(ls, q, y)
      {
        SetAdds(Fold(init), r, l.value, q, y);
        assert Lists(init, q, y) ==> Lists(ls, q, y);
        if Lists(ls, q, y) {
          var i :| 0 <= i < |ls| && Split(ls[i].path) == q && ls[i].value == y;
          assert i < |init| ==> init[i] == ls[i];
        }
      }
    }
  }

  /** Leaves of a document, taken without repetition, form an antichain. */
  lemma WalkAntichain(m: map<string, Json>, ls: seq<Leaf>)
    requires GoodTree(Obj(m)) && m != map[]
    requires DistinctPaths(ls) && forall l <- ls :: l in WalkLeaves("", Obj(m))
    ensures Antichain(ls)
    ensures forall l <- ls :: HasLeaf(Obj(m), Split(l.path), l.value) && l.path == Join(Split(l.path))
  {
    forall l | l in ls
      ensures HasLeaf(Obj(m), Split(l.path), l.value) && l.path == Join(Split(l.path))
    {
      var q := WalkRoute([], Obj(m), l);
      SplitGoodRoute(q);
      WalkExact([], Obj(m), q, l.value);
      assert q[0..] == q;
    }
    forall i, j | 0 <= i < |ls| && 0 <= j < |ls| && i != j
      ensures !(Split(ls[i].path) <= Split(ls[j].path))
    {
      assert ls[i] in ls && ls[j] in ls;
      if Split(ls[i].path) <= Split(ls[j].path) {
        LeavesAntichain(Obj(m), Split(ls[i].path), ls[i].value, Split(ls[j].path), ls[j].value);
      }
    }
  }

  /** No write of the sequence overwrites an earlier one. */
  predicate NeverOverwrites(ls: seq<Leaf>) {
    forall i :: 0 <= i < |ls| ==> Vacant(Obj(Fold(ls[..i])), Split(ls[i].path))
  }

  lemma AntichainNeverOverwrites(ls: seq<Leaf>)
    requires Antichain(ls)
    ensures NeverOverwrites(ls)
  {
    forall i | 0 <= i < |ls|
      ensures Vacant(Obj(Fold(ls[..i])), Split(ls[i].path))
    {
      var upTo := ls[..i + 1];
      assert Antichain(upTo);
      FoldExact(upTo);
      assert upTo[..i] == ls[..i];
    }
  }

  lemma ListedLeaf(m: map<string, Json>, ls: seq<Leaf>, q: Route, y: Json)
    requires GoodTree(Obj(m)) && m != map[] && q != []
    requires forall l :: l in ls <==> l in WalkLeaves("", Obj(m))
    requires forall l <- ls :: HasLeaf(Obj(m), Split(l.path), l.value)
    ensures Lists(ls, q, y) <==> HasLeaf(Obj(m), q, y)
  {
    if HasLeaf(Obj(m), q, y) {
      WalkIsDescent(m, q, y);
      SplitGoodRoute(q);
      assert Leaf(Join(q), y) in ls;
    }
    if Lists(ls, q, y) {
      var i :| 0 <= i < |ls| && Split(ls[i].path) == q && ls[i].value == y;
      assert ls[i] in ls;
    }
  }

  lemma FoldOfAllLeaves(m: map<string, Json>, ls: seq<Leaf>)
    requires GoodTree(Obj(m)) && m != map[]
    requires DistinctPaths(ls) && forall l :: l in ls <==> l in WalkLeaves("", Obj(m))
    ensures Fold(ls) == m && NeverOverwrites(ls)
  {
    WalkAntichain(m, ls);
    AntichainNeverOverwrites(ls);
    FoldExact(ls);
    var r, x := SomeLeaf(Obj(m));
    ListedLeaf(m, ls, r, x);
    assert HasLeaf(Obj(Fold(ls)), r, x);
    forall q, y
      ensures HasLeaf(Obj(Fold(ls)), q, y) <==> HasLeaf(Obj(m), q, y)
    {
      if q != [] {
        ListedLeaf(m, ls, q, y);
      }
    }
    LeavesDetermine(Obj(Fold(ls)), Obj(m));
  }

  /**
    Writing all the leaves of a document into an empty one, in any order, rebuilds the document, and
    no write overwrites an earlier one.
   */
  lemma RebuildInAnyOrder(m: map<string, Json>, ls: seq<Leaf>)
    requires GoodTree(Obj(m)) && m != map[]
    requires multiset(ls) == multiset(WalkLeaves("", Obj(m)))
    ensures Fold(ls) == m && NeverOverwrites(ls)
  {
    var walked := WalkLeaves("", Obj(m));
    SameElements(ls, walked);
    WalkDistinct([], Obj(m));
    PermutedDistinct(walked, ls, (l: Leaf) => l.path);
    FoldOfAllLeaves(m, ls);
  }

  predicate DistinctBy<T>(xs: seq<T>, path: T -> string) {
    forall i, j :: 0 <= i < j < |xs| ==> path(xs[i]) != path(xs[j])
  }

  /** Reordering keeps paths distinct. */
  lemma {:induction false} PermutedDistinct<T>(xs: seq<T>, ys: seq<T>, path: T -> string)
    requires DistinctBy(xs, path) && multiset(xs) == multiset(ys)
    ensures DistinctBy(ys, path)
  {
    if ys != [] {
      var y, init := ys[|ys| - 1], ys[..|ys| - 1];
      SameElements(ys, xs);
      assert y in ys && y in xs;
      var i :| 0 <= i < |xs| && xs[i] == y;
      var rest := xs[..i] + xs[i + 1..];
      assert ys == init + [y];
      RemoveOne(xs, i, init);
      PermutedDistinct(rest, init, path);
      SameElements(init, rest);
      forall j | 0 <= j < |init|
        ensures path(init[j]) != path(y)
      {
        assert init[j] in rest;
      }
    }
  }
}
