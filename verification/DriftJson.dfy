/**
  JSON values as Kubernetes decodes them, and the comparison the drift engine applies to them.  The
  comparison mixes three rules for lists and maps; `Normal` gives the one equality it amounts to.
 */
module DriftJson {
  import opened Float64s

  datatype Number = Int(i: int) | Float(f: Float64)

  datatype Json =
    | Null
    | Bool(b: bool)
    | Num(n: Number)
    | Str(s: string)
    | List(items: seq<Json>)
    | Obj(fields: map<string, Json>)

  function AsFloat64(n: Number): Float64 {
    match n
    case Float(f) => f
    case Int(i) => FromInt(i)
  }

  // ----- the normal form

  datatype Scalar = NullScalar | BoolScalar(b: bool) | NumberScalar(f: Float64) | StringScalar(s: string)

  datatype Norm =
    | Atom(scalar: Scalar)
    | Unordered(members: set<Scalar>)
    | Positional(elements: seq<Norm>)
    | Keyed(entries: map<string, Norm>)

  predicate IsScalar(v: Json) {
    !v.List? && !v.Obj?
  }

  function ScalarOf(v: Json): Scalar
    requires IsScalar(v)
  {
    match v
    case Null => NullScalar
    case Bool(b) => BoolScalar(b)
    case Num(n) => NumberScalar(AsFloat64(n))
    case Str(s) => StringScalar(s)
  }

  predicate AllScalars(vs: seq<Json>) {
    forall i :: 0 <= i < |vs| ==> IsScalar(vs[i])
  }

  /** A list of scalars no two of which are the same. */
  predicate DistinctScalars(vs: seq<Json>) {
    AllScalars(vs) && forall i, j :: 0 <= i < j < |vs| ==> ScalarOf(vs[i]) != ScalarOf(vs[j])
  }

  function Scalars(vs: seq<Json>): set<Scalar>
    requires AllScalars(vs)
  {
    set i | 0 <= i < |vs| :: ScalarOf(vs[i])
  }

  /**
    Numbers by value, maps by key, lists of distinct scalars as sets, other lists by position.
   */
  function Normal(v: Json): Norm {
    match v
    case List(vs) =>
      if DistinctScalars(vs) then Unordered(Scalars(vs))
      else Positional(seq(|vs|, i requires 0 <= i < |vs| => Normal(vs[i])))
    case Obj(m) => Keyed(map k | k in m :: Normal(m[k]))
    case _ => Atom(ScalarOf(v))
  }

  function Normals(vs: seq<Json>): (ns: seq<Norm>)
    ensures |ns| == |vs| && forall i :: 0 <= i < |vs| ==> ns[i] == Normal(vs[i])
  {
    seq(|vs|, i requires 0 <= i < |vs| => Normal(vs[i]))
  }

  /** Element-wise equal lists are both lists of distinct scalars, or neither is. */
  lemma PositionalAgrees(vs: seq<Json>, ws: seq<Json>)
    requires Normals(vs) == Normals(ws)
    ensures DistinctScalars(vs) <==> DistinctScalars(ws)
    ensures Normal(List(vs)) == Normal(List(ws))
  {
    assert forall i :: 0 <= i < |vs| ==> Normals(vs)[i] == Normal(vs[i]) == Normal(ws[i]);
    assert forall i :: 0 <= i < |vs| ==> (IsScalar(vs[i]) <==> IsScalar(ws[i]));
    assert forall i :: 0 <= i < |vs| && IsScalar(vs[i]) ==> ScalarOf(vs[i]) == ScalarOf(ws[i]);
    if DistinctScalars(vs) {
      assert Scalars(vs) == Scalars(ws) by {
        forall s ensures s in Scalars(vs) <==> s in Scalars(ws) {
          if s in Scalars(vs) { var i :| 0 <= i < |vs| && s == ScalarOf(vs[i]); assert s == ScalarOf(ws[i]); }
          if s in Scalars(ws) { var i :| 0 <= i < |ws| && s == ScalarOf(ws[i]); assert s == ScalarOf(vs[i]); }
        }
      }
    } else {
      assert Normal(List(vs)).elements == Normals(vs) && Normal(List(ws)).elements == Normals(ws);
    }
  }

  /** Lists of which at most one has distinct scalars have equal normal forms only element by element. */
  lemma PositionalOnly(vs: seq<Json>, ws: seq<Json>)
    requires !(DistinctScalars(vs) && DistinctScalars(ws))
    ensures Normal(List(vs)) == Normal(List(ws)) <==> Normals(vs) == Normals(ws)
  {
    if Normals(vs) == Normals(ws) {
      PositionalAgrees(vs, ws);
    } else if !DistinctScalars(vs) && !DistinctScalars(ws) {
      assert Normal(List(vs)).elements == Normals(vs) && Normal(List(ws)).elements == Normals(ws);
    }
  }

  // ----- the pigeonhole

  lemma {:induction false} DistinctCount(vs: seq<Json>)
    requires DistinctScalars(vs)
    ensures |Scalars(vs)| == |vs|
  {
    if vs != [] {
      var init := vs[..|vs| - 1];
      var last := ScalarOf(vs[|vs| - 1]);
      DistinctCount(init);
      assert Scalars(vs) == Scalars(init) + {last};
    } else {
      assert Scalars(vs) == {};
    }
  }

  lemma SubsetOfSameSize<T>(a: set<T>, b: set<T>)
    requires a <= b && |a| == |b|
    ensures a == b
  {
    assert |b - a| == |b| - |a| == 0;
  }

  /** Equally long lists of distinct scalars agree as sets as soon as one lies within the other. */
  lemma Pigeonhole(vs: seq<Json>, ws: seq<Json>)
    requires DistinctScalars(vs) && DistinctScalars(ws)
    ensures Normal(List(vs)) == Normal(List(ws)) <==>
            |vs| == |ws| && forall i :: 0 <= i < |vs| ==> ScalarOf(vs[i]) in Scalars(ws)
  {
    DistinctCount(vs);
    DistinctCount(ws);
    if |vs| == |ws| && forall i :: 0 <= i < |vs| ==> ScalarOf(vs[i]) in Scalars(ws) {
      assert Scalars(vs) <= Scalars(ws);
      SubsetOfSameSize(Scalars(vs), Scalars(ws));
    }
    if Scalars(vs) == Scalars(ws) {
      assert forall i :: 0 <= i < |vs| ==> ScalarOf(vs[i]) in Scalars(vs);
    }
  }

  // ----- the keys scalars are told apart by

  function ScalarSetKey(v: Json, format: Float64 -> string): string
    requires IsScalar(v)
  {
    match v
    case Num(n) => "number:" + format(AsFloat64(n))
    case Null => "<nil>:<nil>"
    case Bool(b) => if b then "bool:true" else "bool:false"
    case Str(s) => "string:" + s
  }

  lemma KeysTellScalarsApart(v: Json, w: Json, format: Float64 -> string)
    requires IsScalar(v) && IsScalar(w) && Injective(format)
    ensures ScalarSetKey(v, format) == ScalarSetKey(w, format) <==> ScalarOf(v) == ScalarOf(w)
  {
    var kv, kw := ScalarSetKey(v, format), ScalarSetKey(w, format);
    if kv == kw {
      assert kv[0] == kw[0];
      assert v.Str? ==> kv[7..] == v.s && kw[7..] == w.s;
      if v.Num? {
        assert kv[7..] == format(AsFloat64(v.n)) && kw[7..] == format(AsFloat64(w.n));
      }
      assert v.Bool? ==> kv[5] == if v.b then 't' else 'f';
      assert w.Bool? ==> kw[5] == if w.b then 't' else 'f';
    }
  }

  // ----- the comparison as the source computes it

  method IsScalarListNoDuplicates(list: seq<Json>, format: Float64 -> string) returns (r: bool)
    requires Injective(format)
    ensures r <==> DistinctScalars(list)
  {
    var seen: set<string> := {};
    for i := 0 to |list|
      invariant DistinctScalars(list[..i])
      invariant forall key :: key in seen <==> exists j :: 0 <= j < i && key == ScalarSetKey(list[j], format)
    {
      var v := list[i];
      if v.Obj? || v.List? {
        return false;
      }
      var key := ScalarSetKey(v, format);
      forall j | 0 <= j < i
        ensures ScalarSetKey(list[j], format) == key <==> ScalarOf(list[..i][j]) == ScalarOf(v)
      {
        KeysTellScalarsApart(list[j], v, format);
      }
      if key in seen {
        return false;
      }
      seen := seen + {key};
    }
    assert list[..|list|] == list;
    return true;
  }

  method ScalarSetsEqual(a: seq<Json>, b: seq<Json>, format: Float64 -> string) returns (r: bool)
    requires Injective(format) && DistinctScalars(a) && DistinctScalars(b)
    ensures r <==> Normal(List(a)) == Normal(List(b))
  {
    Pigeonhole(a, b);
    if |a| != |b| {
      return false;
    }
    var bSet: set<string> := {};
    for i := 0 to |b|
      invariant forall key :: key in bSet <==> exists j :: 0 <= j < i && key == ScalarSetKey(b[j], format)
    {
      bSet := bSet + {ScalarSetKey(b[i], format)};
    }
    for i := 0 to |a|
      invariant forall j :: 0 <= j < i ==> ScalarOf(a[j]) in Scalars(b)
    {
      forall j | 0 <= j < |b|
        ensures ScalarSetKey(a[i], format) == ScalarSetKey(b[j], format) <==> ScalarOf(a[i]) == ScalarOf(b[j])
      {
        KeysTellScalarsApart(a[i], b[j], format);
      }
      if ScalarSetKey(a[i], format) !in bSet {
        assert ScalarOf(a[i]) !in Scalars(b);
        return false;
      }
    }
    return true;
  }

  method ListsEqual(a: seq<Json>, b: seq<Json>, format: Float64 -> string) returns (r: bool)
    requires Injective(format)
    ensures r <==> Normal(List(a)) == Normal(List(b))
    decreases a, 0
  {
    var aSet := IsScalarListNoDuplicates(a, format);
    var bSet := IsScalarListNoDuplicates(b, format);
    if aSet && bSet {
      r := ScalarSetsEqual(a, b, format);
      return;
    }
    PositionalOnly(a, b);
    if |a| != |b| {
      return false;
    }
    for i := 0 to |a|
      invariant forall j :: 0 <= j < i ==> Normals(a)[j] == Normals(b)[j]
    {
      var same := ValuesEqual(a[i], b[i], format);
      if !same {
        return false;
      }
    }
    return true;
  }

  method ValuesEqual(a: Json, b: Json, format: Float64 -> string) returns (r: bool)
    requires Injective(format)
    ensures r <==> Normal(a) == Normal(b)
    decreases a, 1
  {
    if a.Num? || b.Num? {
      return a.Num? && b.Num? && AsFloat64(a.n) == AsFloat64(b.n);
    }
    if a.Obj? || b.Obj? {
      if !a.Obj? || !b.Obj? || |a.fields| != |b.fields| {
        if a.Obj? && b.Obj? {
          assert Normal(a).entries.Keys == a.fields.Keys && Normal(b).entries.Keys == b.fields.Keys;
        }
        return false;
      }
      r := MapsEqual(a, b, format);
      return;
    }
    if a.List? || b.List? {
      if !a.List? || !b.List? {
        return false;
      }
      r := ListsEqual(a.items, b.items, format);
      return;
    }
    return a == b;
  }

  /** The loop over the entries of two maps of the same size, in any order. */
  method MapsEqual(a: Json, b: Json, format: Float64 -> string) returns (r: bool)
    requires Injective(format)
    requires a.Obj? && b.Obj? && |a.fields| == |b.fields|
    ensures r <==> Normal(a) == Normal(b)
    decreases a, 0
  {
    var am, bm := a.fields, b.fields;
    ghost var na, nb := Normal(a).entries, Normal(b).entries;
    var left := am.Keys;
    while left != {}
      invariant left <= am.Keys
      invariant forall k :: k in am && k !in left ==> k in bm && Normal(am[k]) == Normal(bm[k])
      decreases left
    {
      var k :| k in left;
      if k !in bm {
        assert k in na && k !in nb;
        return false;
      }
      var same := ValuesEqual(am[k], bm[k], format);
      if !same {
        assert na[k] != nb[k];
        return false;
      }
      left := left - {k};
    }
    SubsetOfSameSize(am.Keys, bm.Keys);
    assert na == nb;
    return true;
  }
}
