/** Comparing the configured leaves of spec.forProvider with the observed ones of status.atProvider. */
module DriftReport {
  import opened Wrappers
  import opened Strings
  import opened Float64s
  import opened DriftJson
  import opened DriftPaths
  import opened Ordering
  import opened Sequences

  datatype Class = InSync | Drift | NotObserved

  datatype Entry = Entry(path: string, desired: Json, observed: Json, redacted: bool)

  datatype Report = Report(
    eligible: bool,
    totalConfigured: nat,
    inSyncCount: nat,
    notObservedCount: nat,
    driftEntries: seq<Entry>,
    truncated: bool,
    moreCount: nat,
    observedOnlyCount: nat)

  const MAX_DRIFT_ENTRIES := 20

  const SENSITIVE := ["password", "secret", "token", "privatekey", "accesskey", "credential"]

  predicate NamesSecret(component: string) {
    exists marker :: marker in SENSITIVE && HasSubstring(Lower(component), marker)
  }

  predicate PathIsSensitive(path: string) {
    exists component :: component in Split(path) && NamesSecret(component)
  }

  function RedactEntry(e: Entry): Entry {
    if PathIsSensitive(e.path) then Entry(e.path, Str("REDACTED"), Str("REDACTED"), true) else e
  }

  /** The value a map filled from `ls` in order holds for `path`: the last one wins. */
  function LastValue(ls: seq<Leaf>, path: string): (r: Option<Json>)
    ensures r.Some? <==> exists i :: 0 <= i < |ls| && ls[i].path == path
    ensures r.Some? ==> Leaf(path, r.value) in ls
  {
    if ls == [] then None
    else
      var n := |ls| - 1;
      if ls[n].path == path then Some(ls[n].value)
      else
        assert forall i :: 0 <= i < n ==> ls[..n][i] == ls[i];
        LastValue(ls[..n], path)
  }

  function Classify(l: Leaf, observed: seq<Leaf>): Class {
    match LastValue(observed, l.path)
    case None => NotObserved
    case Some(v) => if Normal(l.value) == Normal(v) then InSync else Drift
  }

  function OfClass(ls: seq<Leaf>, observed: seq<Leaf>, c: Class): seq<Leaf> {
    if ls == [] then []
    else
      var n := |ls| - 1;
      OfClass(ls[..n], observed, c) + (if Classify(ls[n], observed) == c then [ls[n]] else [])
  }

  function Entries(ls: seq<Leaf>, observed: seq<Leaf>): (es: seq<Entry>)
    ensures |es| == |OfClass(ls, observed, Drift)|
  {
    if ls == [] then []
    else
      var n, l := |ls| - 1, ls[|ls| - 1];
      Entries(ls[..n], observed) +
      if Classify(l, observed) == Drift
      then [RedactEntry(Entry(l.path, l.value, LastValue(observed, l.path).value, false))]
      else []
  }

  predicate SortedByPath(es: seq<Entry>) {
    forall i, j :: 0 <= i < j < |es| ==> AtMost(es[i].path, es[j].path)
  }

  function Insert(e: Entry, es: seq<Entry>): (r: seq<Entry>)
    requires SortedByPath(es)
    ensures SortedByPath(r) && |r| == |es| + 1
    ensures multiset(r) == multiset(es) + multiset{e}
  {
    if es == [] then [e]
    else if AtMost(e.path, es[0].path) then
      assert forall j :: 0 <= j < |es| ==> AtMost(e.path, es[j].path) by {
        forall j | 0 <= j < |es| ensures AtMost(e.path, es[j].path) {
          if j != 0 { AtMostTransitive(e.path, es[0].path, es[j].path); }
        }
      }
      [e] + es
    else
      var rest := Insert(e, es[1..]);
      assert es == [es[0]] + es[1..];
      assert forall x :: x in rest ==> AtMost(es[0].path, x.path) by {
        AtMostTotal(e.path, es[0].path);
        forall x | x in rest ensures AtMost(es[0].path, x.path) {
          assert x in multiset(rest);
          assert x == e || x in es[1..];
        }
      }
      [es[0]] + rest
  }

  /** sort.Slice by path. */
  function SortByPath(es: seq<Entry>): (r: seq<Entry>)
    ensures SortedByPath(r) && |r| == |es| && multiset(r) == multiset(es)
  {
    if es == [] then []
    else
      assert es == es[..|es| - 1] + [es[|es| - 1]];
      Insert(es[|es| - 1], SortByPath(es[..|es| - 1]))
  }

  function PathSet(ls: seq<Leaf>): set<string> {
    set l | l in ls :: l.path
  }

  function Compare(forProvider: map<string, Json>, atProvider: map<string, Json>): Report {
    if forProvider == map[] || atProvider == map[] then Report(false, 0, 0, 0, [], false, 0, 0)
    else
      var desired, observed := WalkLeaves("", Obj(forProvider)), WalkLeaves("", Obj(atProvider));
      var drift := SortByPath(Entries(desired, observed));
      var cut := |drift| > MAX_DRIFT_ENTRIES;
      Report(
        true,
        |desired|,
        |OfClass(desired, observed, InSync)|,
        |OfClass(desired, observed, NotObserved)|,
        if cut then drift[..MAX_DRIFT_ENTRIES] else drift,
        cut,
        if cut then |drift| - MAX_DRIFT_ENTRIES else 0,
        |PathSet(observed) - PathSet(desired)|)
  }

  // ----- the loops of the source

  method IndexByPath(observed: seq<Leaf>) returns (byPath: map<string, Json>)
    ensures byPath.Keys == PathSet(observed)
    ensures forall p :: LastValue(observed, p) == if p in byPath then Some(byPath[p]) else None
  {
    byPath := map[];
    for i := 0 to |observed|
      invariant byPath.Keys == PathSet(observed[..i])
      invariant forall p :: LastValue(observed[..i], p) == if p in byPath then Some(byPath[p]) else None
    {
      assert observed[..i + 1][..i] == observed[..i];
      byPath := byPath[observed[i].path := observed[i].value];
    }
    assert observed[..|observed|] == observed;
  }

  method CollectPaths(desired: seq<Leaf>) returns (paths: set<string>)
    ensures paths == PathSet(desired)
  {
    paths := {};
    for i := 0 to |desired|
      invariant paths == PathSet(desired[..i])
    {
      paths := paths + {desired[i].path};
    }
    assert desired[..|desired|] == desired;
  }

  method ClassifyAll(desired: seq<Leaf>, ghost observed: seq<Leaf>, byPath: map<string, Json>, format: Float64 -> string)
    returns (inSync: nat, notObserved: nat, drift: seq<Entry>)
    requires Injective(format)
    requires forall p :: LastValue(observed, p) == if p in byPath then Some(byPath[p]) else None
    ensures inSync == |OfClass(desired, observed, InSync)|
    ensures notObserved == |OfClass(desired, observed, NotObserved)|
    ensures drift == Entries(desired, observed)
  {
    inSync, notObserved, drift := 0, 0, [];
    for i := 0 to |desired|
      invariant inSync == |OfClass(desired[..i], observed, InSync)|
      invariant notObserved == |OfClass(desired[..i], observed, NotObserved)|
      invariant drift == Entries(desired[..i], observed)
    {
      assert desired[..i + 1][..i] == desired[..i];
      var l := desired[i];
      if l.path !in byPath {
        notObserved := notObserved + 1;
      } else {
        var same := ValuesEqual(l.value, byPath[l.path], format);
        if same {
          inSync := inSync + 1;
        } else {
          drift := drift + [RedactEntry(Entry(l.path, l.value, byPath[l.path], false))];
        }
      }
    }
    assert desired[..|desired|] == desired;
  }

  method CountOutside(paths: set<string>, desiredPaths: set<string>) returns (n: nat)
    ensures n == |paths - desiredPaths|
  {
    n := 0;
    var left := paths;
    ghost var only := paths - desiredPaths;
    while left != {}
      invariant left <= paths
      invariant n == |only - left|
      decreases left
    {
      var path :| path in left;
      if path !in desiredPaths {
        n := n + 1;
        assert only - (left - {path}) == (only - left) + {path};
      } else {
        assert only - (left - {path}) == only - left;
      }
      left := left - {path};
    }
    assert only - {} == only;
  }

  method Diff(forProvider: map<string, Json>, atProvider: map<string, Json>, format: Float64 -> string)
    returns (r: Report)
    requires Injective(format)
    ensures r == Compare(forProvider, atProvider)
  {
    if forProvider == map[] || atProvider == map[] {
      return Report(false, 0, 0, 0, [], false, 0, 0);
    }
    var desired := WalkLeaves("", Obj(forProvider));
    var observed := WalkLeaves("", Obj(atProvider));
    var observedByPath := IndexByPath(observed);
    var desiredPaths := CollectPaths(desired);
    var inSync, notObserved, drift := ClassifyAll(desired, observed, observedByPath, format);
    drift := SortByPath(drift);
    var moreCount, truncated := 0, false;
    if |drift| > MAX_DRIFT_ENTRIES {
      moreCount, truncated := |drift| - MAX_DRIFT_ENTRIES, true;
      drift := drift[..MAX_DRIFT_ENTRIES];
    }
    var observedOnly := CountOutside(observedByPath.Keys, desiredPaths);
    return Report(true, |desired|, inSync, notObserved, drift, truncated, moreCount, observedOnly);
  }

  // ----- counts

  lemma {:induction false} ClassesPartition(ls: seq<Leaf>, observed: seq<Leaf>)
    ensures |ls| == |OfClass(ls, observed, InSync)| + |OfClass(ls, observed, Drift)| + |OfClass(ls, observed, NotObserved)|
  {
    if ls != [] {
      ClassesPartition(ls[..|ls| - 1], observed);
    }
  }

  /** Every configured leaf is accounted for once, and at most twenty drifted ones are shown. */
  lemma LeavesAccountedFor(forProvider: map<string, Json>, atProvider: map<string, Json>)
    ensures var r := Compare(forProvider, atProvider);
            && r.totalConfigured == r.inSyncCount + r.notObservedCount + |r.driftEntries| + r.moreCount
            && |r.driftEntries| <= MAX_DRIFT_ENTRIES
            && (r.truncated <==> r.moreCount > 0)
            && (r.truncated ==> |r.driftEntries| == MAX_DRIFT_ENTRIES)
  {
    if forProvider != map[] && atProvider != map[] {
      ClassesPartition(WalkLeaves("", Obj(forProvider)), WalkLeaves("", Obj(atProvider)));
    }
  }

  // ----- the entries

  /** The configured leaf is observed with another value, and `e` tells so, without the values if the path is sensitive. */
  predicate DriftsTo(l: Leaf, observed: seq<Leaf>, e: Entry) {
    match LastValue(observed, l.path)
    case None => false
    case Some(v) =>
      && Normal(l.value) != Normal(v)
      && e.path == l.path && e.redacted == PathIsSensitive(l.path)
      && if e.redacted then e.desired == e.observed == Str("REDACTED") else e.desired == l.value && e.observed == v
  }

  lemma {:induction false} EntryOf(ls: seq<Leaf>, observed: seq<Leaf>, e: Entry) returns (l: Leaf)
    requires e in Entries(ls, observed)
    ensures l in ls && DriftsTo(l, observed, e)
  {
    var n := |ls| - 1;
    if e in Entries(ls[..n], observed) {
      l := EntryOf(ls[..n], observed, e);
    } else {
      l := ls[n];
    }
  }

  lemma {:induction false} LeafHasEntry(ls: seq<Leaf>, observed: seq<Leaf>, l: Leaf, e: Entry)
    requires l in ls && DriftsTo(l, observed, e)
    ensures e in Entries(ls, observed)
  {
    var n := |ls| - 1;
    if l in ls[..n] {
      LeafHasEntry(ls[..n], observed, l, e);
    } else {
      assert l == ls[n];
    }
  }

  lemma EntryDrifts(ls: seq<Leaf>, observed: seq<Leaf>, e: Entry)
    ensures e in Entries(ls, observed) <==> exists l :: l in ls && DriftsTo(l, observed, e)
  {
    if e in Entries(ls, observed) {
      var l := EntryOf(ls, observed, e);
    }
    if l :| l in ls && DriftsTo(l, observed, e) {
      LeafHasEntry(ls, observed, l, e);
    }
  }

  /**
    The entries are those of drifted leaves, in order of path; a drifted leaf without one comes, in that
    order, after twenty that are shown.
   */
  ghost predicate ShowsDrift(ls: seq<Leaf>, observed: seq<Leaf>, shown: seq<Entry>) {
    && SortedByPath(shown)
    && (forall e :: e in shown ==> exists l :: l in ls && DriftsTo(l, observed, e))
    && (forall l, e :: l in ls && DriftsTo(l, observed, e) && e !in shown ==>
          |shown| == 20 && forall i :: 0 <= i < |shown| ==> AtMost(shown[i].path, e.path))
  }

  /** The entries are those of all drifted leaves. */
  ghost predicate AllDrift(ls: seq<Leaf>, observed: seq<Leaf>, drift: seq<Entry>) {
    forall e :: e in drift <==> exists l :: l in ls && DriftsTo(l, observed, e)
  }

  lemma SortedAllDrift(ls: seq<Leaf>, observed: seq<Leaf>)
    ensures AllDrift(ls, observed, SortByPath(Entries(ls, observed)))
  {
    SameElements(SortByPath(Entries(ls, observed)), Entries(ls, observed));
    forall e
      ensures e in Entries(ls, observed) <==> exists l :: l in ls && DriftsTo(l, observed, e)
    {
      EntryDrifts(ls, observed, e);
    }
  }

  /** What is not among the first `n` entries comes after them. */
  lemma CutAfter(drift: seq<Entry>, n: nat, e: Entry)
    requires SortedByPath(drift) && n <= |drift| && e in drift && e !in drift[..n]
    ensures n < |drift| && forall i :: 0 <= i < n ==> AtMost(drift[i].path, e.path)
  {
    forall k | 0 <= k < n
      ensures drift[k] != e
    {
      assert drift[..n][k] == drift[k];
    }
    var j :| 0 <= j < |drift| && drift[j] == e;
  }

  lemma FirstEntriesShow(ls: seq<Leaf>, observed: seq<Leaf>, drift: seq<Entry>, n: nat)
    requires SortedByPath(drift) && AllDrift(ls, observed, drift) && n <= |drift| && (n < |drift| ==> n == 20)
    ensures ShowsDrift(ls, observed, drift[..n])
  {
    forall e | e in drift[..n]
      ensures exists l :: l in ls && DriftsTo(l, observed, e)
    {
      assert e in drift;
    }
    forall l, e | l in ls && DriftsTo(l, observed, e) && e !in drift[..n]
      ensures n == 20 && forall i :: 0 <= i < n ==> AtMost(drift[i].path, e.path)
    {
      assert e in drift;
      CutAfter(drift, n, e);
    }
  }

  /** So are those of every report. */
  lemma EntriesExact(forProvider: map<string, Json>, atProvider: map<string, Json>)
    requires forProvider != map[] && atProvider != map[]
    ensures ShowsDrift(WalkLeaves("", Obj(forProvider)), WalkLeaves("", Obj(atProvider)),
                       Compare(forProvider, atProvider).driftEntries)
  {
    var desired, observed := WalkLeaves("", Obj(forProvider)), WalkLeaves("", Obj(atProvider));
    var drift := SortByPath(Entries(desired, observed));
    assert drift[..|drift|] == drift;
    SortedAllDrift(desired, observed);
    FirstEntriesShow(desired, observed, drift, if |drift| > 20 then 20 else |drift|);
  }

  function LowerAll(parts: seq<string>): seq<string> {
    seq(|parts|, i requires 0 <= i < |parts| => Lower(parts[i]))
  }

  lemma LowerFirst(c: char, s: string, parts: seq<string>)
    ensures Lower([c] + s) == [LowerByte(c)] + Lower(s)
    ensures LowerAll([s] + parts) == [Lower(s)] + LowerAll(parts)
  {
  }

  lemma SplitFirst(c: char, s: string)
    ensures Split([c] + s) == if c == '.' then [""] + Split(s) else [[c] + Split(s)[0]] + Split(s)[1..]
  {
    assert ([c] + s)[1..] == s;
  }

  lemma {:induction false} LowerSplit(path: string)
    ensures Split(Lower(path)) == LowerAll(Split(path))
  {
    if path != "" {
      var c, rest := path[0], path[1..];
      var parts := Split(rest);
      LowerSplit(rest);
      assert path == [c] + rest && parts == [parts[0]] + parts[1..];
      LowerFirst(c, rest, []);
      SplitFirst(c, rest);
      SplitFirst(LowerByte(c), Lower(rest));
      LowerFirst(c, parts[0], parts[1..]);
      LowerFirst(c, [c] + parts[0], parts[1..]);
      LowerFirst(c, "", parts);
    }
  }

  /** A path is sensitive for what its components contain, in either case. */
  lemma SensitiveIgnoresCase(path: string)
    ensures PathIsSensitive(path) <==> PathIsSensitive(Lower(path))
  {
    var parts, lower := Split(path), Split(Lower(path));
    LowerSplit(path);
    if component :| component in parts && NamesSecret(component) {
      var i :| 0 <= i < |parts| && parts[i] == component;
      LowerNamesSecret(component);
      assert lower[i] in lower && lower[i] == Lower(component);
    }
    if component :| component in lower && NamesSecret(component) {
      var i :| 0 <= i < |lower| && lower[i] == component;
      LowerNamesSecret(parts[i]);
      assert parts[i] in parts;
    }
  }

  lemma LowerNamesSecret(component: string)
    ensures NamesSecret(component) <==> NamesSecret(Lower(component))
  {
    assert Lower(Lower(component)) == Lower(component);
  }

  // ----- classification against plain descent

  /** What became of a configured leaf, by following its route through the observed document. */
  function ClassifyByDescent(route: Route, value: Json, at: Json): Class {
    match Descend(at, route)
    case Some(v) => if !IsLeaf(v) then NotObserved else if Normal(value) == Normal(v) then InSync else Drift
    case None => NotObserved
  }

  lemma {:induction false} LastOfDistinct(ls: seq<Leaf>, l: Leaf)
    requires DistinctPaths(ls) && l in ls
    ensures LastValue(ls, l.path) == Some(l.value)
  {
    var n := |ls| - 1;
    if ls[n] != l {
      assert l in ls[..n];
      LastOfDistinct(ls[..n], l);
      var i :| 0 <= i < n && ls[..n][i] == l;
      assert ls[i].path != ls[n].path;
    }
  }

  /** With non-empty, dot-free keys, each leaf is classified as following its route would. */
  lemma ClassifyIsDescent(forProvider: map<string, Json>, atProvider: map<string, Json>, l: Leaf) returns (route: Route)
    requires forProvider != map[] && GoodTree(Obj(forProvider))
    requires atProvider != map[] && GoodTree(Obj(atProvider))
    requires l in WalkLeaves("", Obj(forProvider))
    ensures l.path == Join(route) && HasLeaf(Obj(forProvider), route, l.value)
    ensures Classify(l, WalkLeaves("", Obj(atProvider))) == ClassifyByDescent(route, l.value, Obj(atProvider))
  {
    var observed := WalkLeaves("", Obj(atProvider));
    route := WalkRoute([], Obj(forProvider), l);
    WalkExact([], Obj(forProvider), route, l.value);
    assert route[0..] == route;
    WalkDistinct([], Obj(atProvider));
    match LastValue(observed, l.path)
    case Some(v) =>
      WalkExact([], Obj(atProvider), route, v);
    case None =>
      var d := Descend(Obj(atProvider), route);
      if d.Some? && IsLeaf(d.value) {
        WalkExact([], Obj(atProvider), route, d.value);
        LastOfDistinct(observed, Leaf(l.path, d.value));
      }
  }

  /** The configured leaves of one class, found by descent alone. */
  function ByDescent(ls: seq<Leaf>, at: Json, c: Class): seq<Leaf> {
    if ls == [] then []
    else
      var n := |ls| - 1;
      ByDescent(ls[..n], at, c) + (if ClassifyByDescent(Split(ls[n].path), ls[n].value, at) == c then [ls[n]] else [])
  }

  lemma {:induction false} ClassesByDescent(ls: seq<Leaf>, forProvider: map<string, Json>, atProvider: map<string, Json>, c: Class)
    requires forProvider != map[] && GoodTree(Obj(forProvider))
    requires atProvider != map[] && GoodTree(Obj(atProvider))
    requires forall l <- ls :: l in WalkLeaves("", Obj(forProvider))
    ensures OfClass(ls, WalkLeaves("", Obj(atProvider)), c) == ByDescent(ls, Obj(atProvider), c)
  {
    if ls != [] {
      var n := |ls| - 1;
      ClassesByDescent(ls[..n], forProvider, atProvider, c);
      var route := ClassifyIsDescent(forProvider, atProvider, ls[n]);
      assert route != [] by {
        assert Descend(Obj(forProvider), []) == Some(Obj(forProvider));
      }
      DescentIsGood(Obj(forProvider), route);
      SplitGoodRoute(route);
    }
  }

  /** With non-empty, dot-free keys, the counts are those of a plain recursive descent. */
  lemma ReportIsDescent(forProvider: map<string, Json>, atProvider: map<string, Json>)
    requires forProvider != map[] && GoodTree(Obj(forProvider))
    requires atProvider != map[] && GoodTree(Obj(atProvider))
    ensures var r, ls, at := Compare(forProvider, atProvider), WalkLeaves("", Obj(forProvider)), Obj(atProvider);
            && r.inSyncCount == |ByDescent(ls, at, InSync)|
            && r.notObservedCount == |ByDescent(ls, at, NotObserved)|
            && |r.driftEntries| + r.moreCount == |ByDescent(ls, at, Drift)|
  {
    var ls := WalkLeaves("", Obj(forProvider));
    ClassesByDescent(ls, forProvider, atProvider, InSync);
    ClassesByDescent(ls, forProvider, atProvider, NotObserved);
    ClassesByDescent(ls, forProvider, atProvider, Drift);
  }

  // ----- a document against itself

  lemma {:induction false} ClassEmpty(ls: seq<Leaf>, observed: seq<Leaf>, c: Class)
    ensures OfClass(ls, observed, c) == [] <==> forall l <- ls :: Classify(l, observed) != c
  {
    if ls != [] {
      ClassEmpty(ls[..|ls| - 1], observed, c);
      assert forall l :: l in ls <==> l in ls[..|ls| - 1] || l == ls[|ls| - 1];
    }
  }

  /** Leaves that share a path hold equal values. */
  predicate Consistent(ls: seq<Leaf>) {
    forall l, k | l in ls && k in ls && l.path == k.path :: Normal(l.value) == Normal(k.value)
  }

  lemma SelfClasses(ls: seq<Leaf>)
    ensures OfClass(ls, ls, Drift) == [] <==> Consistent(ls)
    ensures OfClass(ls, ls, NotObserved) == []
  {
    ClassEmpty(ls, ls, Drift);
    ClassEmpty(ls, ls, NotObserved);
    forall l | l in ls
      ensures LastValue(ls, l.path).Some?
    {
      var i :| 0 <= i < |ls| && ls[i] == l;
      assert ls[i].path == l.path;
    }
    if OfClass(ls, ls, Drift) == [] {
      forall l, k | l in ls && k in ls && l.path == k.path
        ensures Normal(l.value) == Normal(k.value)
      {
        assert Classify(l, ls) != Drift && Classify(k, ls) != Drift;
      }
    }
  }

  /**
    A document compared with itself shows drift exactly when two of its leaves share a path and
    differ.
   */
  lemma SelfComparison(m: map<string, Json>)
    requires m != map[]
    ensures Compare(m, m).driftEntries == [] <==> Consistent(WalkLeaves("", Obj(m)))
    ensures Compare(m, m).notObservedCount == 0 && Compare(m, m).observedOnlyCount == 0
  {
    var ls := WalkLeaves("", Obj(m));
    SelfClasses(ls);
    assert PathSet(ls) - PathSet(ls) == {};
    assert |SortByPath(Entries(ls, ls))| == |OfClass(ls, ls, Drift)|;
  }

  lemma DistinctConsistent(ls: seq<Leaf>)
    requires DistinctPaths(ls)
    ensures Consistent(ls)
  {
    forall l, k | l in ls && k in ls && l.path == k.path
      ensures l == k
    {
      var i, j :| 0 <= i < |ls| && 0 <= j < |ls| && ls[i] == l && ls[j] == k;
    }
  }

  lemma SelfComparisonOfGoodTree(m: map<string, Json>)
    requires m != map[] && GoodTree(Obj(m))
    ensures Compare(m, m).driftEntries == [] && Compare(m, m).inSyncCount == Compare(m, m).totalConfigured
  {
    SelfComparison(m);
    WalkDistinct([], Obj(m));
    DistinctConsistent(WalkLeaves("", Obj(m)));
    LeavesAccountedFor(m, m);
  }

  /** `k` is a key of the map that `r` leads to. */
  predicate HasKey(v: Json, r: Route, k: string) {
    var at := Descend(v, r);
    at.Some? && at.value.Obj? && k in at.value.fields
  }

  lemma {:induction false} BadKeySomewhere(v: Json) returns (r: Route, k: string)
    requires !GoodTree(v)
    ensures HasKey(v, r, k) && !GoodKey(k)
  {
    if j :| j in v.fields && !GoodKey(j) {
      r, k := [], j;
    } else {
      var j :| j in v.fields && !GoodTree(v.fields[j]);
      r, k := BadKeySomewhere(v.fields[j]);
      assert ([j] + r)[1..] == r;
      r := [j] + r;
    }
  }

  /** Drift against itself takes an empty key, or a key with a dot in it. */
  lemma SelfDriftNeedsBadKey(m: map<string, Json>) returns (r: Route, k: string)
    requires m != map[] && Compare(m, m).driftEntries != []
    ensures HasKey(Obj(m), r, k) && (k == "" || '.' in k)
  {
    if GoodTree(Obj(m)) {
      SelfComparisonOfGoodTree(m);
    }
    r, k := BadKeySomewhere(Obj(m));
  }

  /** A dotted key can be enough: here two leaves share the path "a.b". */
  lemma DottedKeyDrifts() returns (m: map<string, Json>)
    ensures m != map[] && Compare(m, m).driftEntries != []
    ensures forall r, k :: HasKey(Obj(m), r, k) ==> k != ""
  {
    var inner := map["b" := Str("x")];
    m := map["a" := Obj(inner), "a.b" := Str("y")];
    assert "a" + "." + "b" == "a.b";
    SharedPathDrifts(m, inner, "a", "b", "a.b");
    KeysOfTwo(m, inner, "a", "b", "a.b");
  }

  /** So can an empty key: here no key has a dot, and two leaves share the path "a". */
  lemma EmptyKeyDrifts() returns (m: map<string, Json>)
    ensures m != map[] && Compare(m, m).driftEntries != []
    ensures forall r, k :: HasKey(Obj(m), r, k) ==> '.' !in k
  {
    var inner := map["a" := Str("x")];
    m := map["" := Obj(inner), "a" := Str("y")];
    SharedPathDrifts(m, inner, "", "a", "a");
    KeysOfTwo(m, inner, "", "a", "a");
  }

  lemma KeysOfTwo(m: map<string, Json>, inner: map<string, Json>, a: string, b: string, ab: string)
    requires a != ab && m.Keys == {a, ab} && m[a] == Obj(inner) && !m[ab].Obj?
    requires inner.Keys == {b} && !inner[b].Obj?
    ensures forall r, k :: HasKey(Obj(m), r, k) ==> k == a || k == b || k == ab
  {
    forall r, k | HasKey(Obj(m), r, k)
      ensures k == a || k == b || k == ab
    {
      if r != [] {
        assert r[0] in m;
        if r[0] == ab {
          NoKeys(m[ab], r[1..], k);
        } else if r[1..] != [] {
          assert Descend(Obj(inner), r[1..]).Some?;
          NoKeys(inner[b], r[1..][1..], k);
        }
      }
    }
  }

  lemma NoKeys(v: Json, r: Route, k: string)
    requires !v.Obj?
    ensures !HasKey(v, r, k)
  {
  }

  lemma SharedPathDrifts(m: map<string, Json>, inner: map<string, Json>, a: string, b: string, ab: string)
    requires ab == ChildPath(a, b) && ab != a
    requires a in m && ab in m && b in inner && m[a] == Obj(inner)
    requires IsLeaf(m[ab]) && IsLeaf(inner[b]) && Normal(m[ab]) != Normal(inner[b])
    ensures Compare(m, m).driftEntries != []
  {
    var x, y := Leaf(ab, inner[b]), Leaf(ab, m[ab]);
    LeafListed(a, inner, b, x);
    LeafListed("", m, a, x);
    LeafListed("", m, ab, y);
    SelfComparison(m);
    assert x.path == y.path;
  }

  /** A leaf under a key is a leaf of the map. */
  lemma LeafListed(prefix: string, m: map<string, Json>, k: string, l: Leaf)
    requires k in m && l in WalkLeaves(ChildPath(prefix, k), m[k])
    ensures l in WalkLeaves(prefix, Obj(m))
  {
    FieldListed(prefix, Obj(m), Sorted(m.Keys), k);
  }

  lemma {:induction false} FieldListed(prefix: string, v: Json, keys: seq<string>, k: string)
    requires v.Obj? && (forall j <- keys :: j in v.fields) && k in keys
    ensures forall l <- WalkLeaves(ChildPath(prefix, k), v.fields[k]) :: l in WalkFields(prefix, v, keys)
  {
    if keys[0] != k {
      FieldListed(prefix, v, keys[1..], k);
    }
  }

  // ----- the observed side

  lemma {:induction false} FoundPaths(ls: seq<Leaf>, observed: seq<Leaf>)
    requires DistinctPaths(ls)
    ensures |PathSet(ls) * PathSet(observed)| == |OfClass(ls, observed, InSync)| + |OfClass(ls, observed, Drift)|
  {
    if ls != [] {
      var n := |ls| - 1;
      var l := ls[n];
      FoundPaths(ls[..n], observed);
      assert PathSet(ls) == PathSet(ls[..n]) + {l.path};
      assert l.path !in PathSet(ls[..n]);
      var found := PathSet(ls[..n]) * PathSet(observed);
      if l.path in PathSet(observed) {
        assert PathSet(ls) * PathSet(observed) == found + {l.path};
        var k :| k in observed && k.path == l.path;
        assert LastValue(observed, l.path).Some?;
      } else {
        assert PathSet(ls) * PathSet(observed) == found;
      }
    }
  }

  lemma {:induction false} PathsCount(ls: seq<Leaf>)
    requires DistinctPaths(ls)
    ensures |PathSet(ls)| == |ls|
  {
    if ls != [] {
      var n := |ls| - 1;
      PathsCount(ls[..n]);
      assert PathSet(ls) == PathSet(ls[..n]) + {ls[n].path};
    }
  }

  /** Every observed leaf is in sync, drifted, or observed only. */
  lemma ObservedAccountedFor(forProvider: map<string, Json>, atProvider: map<string, Json>)
    requires forProvider != map[] && GoodTree(Obj(forProvider))
    requires atProvider != map[] && GoodTree(Obj(atProvider))
    ensures var r := Compare(forProvider, atProvider);
            |WalkLeaves("", Obj(atProvider))| == r.inSyncCount + |r.driftEntries| + r.moreCount + r.observedOnlyCount
  {
    var desired, observed := WalkLeaves("", Obj(forProvider)), WalkLeaves("", Obj(atProvider));
    WalkDistinct([], Obj(forProvider));
    WalkDistinct([], Obj(atProvider));
    ObservedPartition(desired, observed);
  }

  lemma ObservedPartition(desired: seq<Leaf>, observed: seq<Leaf>)
    requires DistinctPaths(desired) && DistinctPaths(observed)
    ensures |observed| == |OfClass(desired, observed, InSync)| + |OfClass(desired, observed, Drift)|
                          + |PathSet(observed) - PathSet(desired)|
  {
    FoundPaths(desired, observed);
    PathsCount(observed);
    var found, only := PathSet(desired) * PathSet(observed), PathSet(observed) - PathSet(desired);
    assert found + only == PathSet(observed) && found !! only;
  }
}
