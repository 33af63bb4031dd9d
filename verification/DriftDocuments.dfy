/**
  The two documents a unified diff is made from: the drifted leaves that may be shown, written back
  under their paths.  Documents are heap objects that setPath updates in place.
 */
module DriftDocuments {
  import opened Wrappers
  import opened Sequences
  import opened Strings
  import opened DriftJson
  import opened DriftPaths
  import opened DriftReport

  /** What a map entry refers to: a plain value, or a map object of its own. */
  datatype Slot = Plain(value: Json) | Sub(doc: Document)

  /** A map that grows by setPath. */
  class Document {
    var slots: map<string, Slot>
    ghost var contents: map<string, Json>
    ghost var repr: set<Document>

    ghost predicate Valid()
      reads this, repr
      decreases repr
    {
      && this in repr
      && contents.Keys == slots.Keys
      && (forall k :: k in slots && slots[k].Plain? ==> !slots[k].value.Obj? && contents[k] == slots[k].value)
      && (forall k :: k in slots && slots[k].Sub? ==>
                        && slots[k].doc in repr && slots[k].doc.repr <= repr && this !in slots[k].doc.repr
                        && slots[k].doc.Valid()
                        && contents[k] == Obj(slots[k].doc.contents))
      && (forall j, k :: j in slots && k in slots && j != k && slots[j].Sub? && slots[k].Sub? ==>
                           slots[j].doc.repr !! slots[k].doc.repr)
    }

    constructor ()
      ensures Valid() && fresh(repr) && contents == map[]
    {
      slots, contents, repr := map[], map[], {this};
    }

    /** Store a value that is not a map, replacing what was there. */
    method PutPlain(key: string, value: Json)
      requires Valid() && !value.Obj?
      modifies this
      ensures Valid() && repr == old(repr)
      ensures contents == old(contents)[key := value]
    {
      slots := slots[key := Plain(value)];
      contents := contents[key := value];
    }

    /** Store a map object, replacing what was there. */
    method PutMap(key: string, sub: Document)
      requires Valid() && sub.Valid() && sub.repr !! repr
      modifies this
      ensures Valid() && repr == old(repr) + sub.repr
      ensures contents == old(contents)[key := Obj(sub.contents)]
      ensures key in slots && slots[key] == Sub(sub)
    {
      slots := slots[key := Sub(sub)];
      repr := repr + sub.repr;
      contents := contents[key := Obj(sub.contents)];
    }

    /** A nested map has been updated in place: account for it here. */
    ghost method Refresh(key: string, before: set<Document>)
      requires key in slots && slots[key].Sub? && key in contents
      requires this in repr && contents.Keys == slots.Keys
      requires before <= repr && this !in before
      requires var d := slots[key].doc; d.Valid() && this !in d.repr && d.repr - before !! repr
      requires forall k :: k in slots && slots[k].Plain? ==> !slots[k].value.Obj? && contents[k] == slots[k].value
      requires forall k :: k in slots && k != key && slots[k].Sub? ==>
                 && slots[k].doc in repr && slots[k].doc.repr <= repr && this !in slots[k].doc.repr
                 && slots[k].doc.Valid()
                 && slots[k].doc.repr !! before
                 && contents[k] == Obj(slots[k].doc.contents)
      requires forall j, k :: j in slots && k in slots && j != k && j != key && k != key && slots[j].Sub? && slots[k].Sub? ==>
                 slots[j].doc.repr !! slots[k].doc.repr
      modifies `contents, `repr
      ensures Valid() && repr == old(repr) + slots[key].doc.repr
      ensures contents == old(contents)[key := Obj(slots[key].doc.contents)]
    {
      repr := repr + slots[key].doc.repr;
      contents := contents[key := Obj(slots[key].doc.contents)];
    }

    /** setPath: walk down the parts, creating maps, and store the leaf in the last one. */
    method Store(parts: Route, value: Json)
      requires Valid() && parts != [] && IsLeaf(value)
      modifies repr
      ensures Valid() && fresh(repr - old(repr))
      ensures contents == SetRoute(old(contents), parts, value)
      decreases |parts|, 1
    {
      var p := parts[0];
      if |parts| == 1 {
        if value.Obj? {
          var empty := new Document();
          PutMap(p, empty);
        } else {
          PutPlain(p, value);
        }
      } else if p in slots && slots[p].Sub? {
        StoreBelow(parts, value);
      } else {
        var next := new Document();
        next.Store(parts[1..], value);
        PutMap(p, next);
      }
    }

    method StoreBelow(parts: Route, value: Json)
      requires Valid() && |parts| > 1 && IsLeaf(value)
      requires parts[0] in slots && slots[parts[0]].Sub?
      modifies repr
      ensures Valid() && fresh(repr - old(repr))
      ensures contents == SetRoute(old(contents), parts, value)
      decreases |parts|, 0
    {
      var p := parts[0];
      var next := slots[p].doc;
      ghost var before := next.repr;
      next.Store(parts[1..], value);
      assert forall k :: k in slots && k != p && slots[k].Sub? ==> slots[k].doc.repr !! before;
      Refresh(p, before);
    }
  }

  // ----- what the two documents hold

  function LeafOf(e: Entry, observedSide: bool): Leaf {
    Leaf(e.path, if observedSide then e.observed else e.desired)
  }

  /** The leaves written into one of the documents: redacted entries are left out. */
  function Shown(es: seq<Entry>, observedSide: bool): seq<Leaf> {
    if es == [] then []
    else
      var n := |es| - 1;
      Shown(es[..n], observedSide) + (if es[n].redacted then [] else [LeafOf(es[n], observedSide)])
  }

  /** One entry, into both documents. */
  method AddEntry(e: Entry, desired: Document, observed: Document)
    requires desired.Valid() && observed.Valid() && desired.repr !! observed.repr
    requires IsLeaf(e.desired) && IsLeaf(e.observed)
    modifies desired.repr, observed.repr
    ensures desired.Valid() && observed.Valid() && desired.repr !! observed.repr
    ensures fresh(desired.repr - old(desired.repr)) && fresh(observed.repr - old(observed.repr))
    ensures desired.contents == SetPath(old(desired.contents), e.path, e.desired)
    ensures observed.contents == SetPath(old(observed.contents), e.path, e.observed)
  {
    desired.Store(Split(e.path), e.desired);
    observed.Store(Split(e.path), e.observed);
  }

  /** The loop of UnifiedDiff that fills the two documents. */
  method BuildDocuments(entries: seq<Entry>) returns (desired: Document, observed: Document)
    requires forall i :: 0 <= i < |entries| && !entries[i].redacted ==> IsLeaf(entries[i].desired) && IsLeaf(entries[i].observed)
    ensures desired.contents == Fold(Shown(entries, false))
    ensures observed.contents == Fold(Shown(entries, true))
  {
    desired := new Document();
    observed := new Document();
    for i := 0 to |entries|
      invariant desired.Valid() && observed.Valid() && desired.repr !! observed.repr
      invariant fresh(desired.repr) && fresh(observed.repr)
      invariant desired.contents == Fold(Shown(entries[..i], false))
      invariant observed.contents == Fold(Shown(entries[..i], true))
    {
      ShownMore(entries, i);
      if !entries[i].redacted {
        AddEntry(entries[i], desired, observed);
      }
    }
    assert entries[..|entries|] == entries;
  }

  lemma ShownMore(es: seq<Entry>, i: nat)
    requires i < |es|
    ensures es[i].redacted ==> forall side :: Fold(Shown(es[..i + 1], side)) == Fold(Shown(es[..i], side))
    ensures !es[i].redacted ==>
              forall side ::
                Fold(Shown(es[..i + 1], side)) == SetPath(Fold(Shown(es[..i], side)), es[i].path, LeafOf(es[i], side).value)
  {
    assert es[..i + 1][..i] == es[..i];
    assert forall side :: Shown(es[..i], side) + [] == Shown(es[..i], side);
    forall side | !es[i].redacted
      ensures Fold(Shown(es[..i + 1], side)) == SetPath(Fold(Shown(es[..i], side)), es[i].path, LeafOf(es[i], side).value)
    {
      FoldMore(Shown(es[..i], side), LeafOf(es[i], side));
    }
  }

  lemma FoldMore(ls: seq<Leaf>, l: Leaf)
    ensures Fold(ls + [l]) == SetPath(Fold(ls), l.path, l.value)
  {
    assert (ls + [l])[..|ls|] == ls;
  }

  lemma {:induction false} ShownMembers(es: seq<Entry>, observedSide: bool, l: Leaf)
    ensures l in Shown(es, observedSide) <==> exists e <- es :: !e.redacted && l == LeafOf(e, observedSide)
  {
    if es != [] {
      var n := |es| - 1;
      ShownMembers(es[..n], observedSide, l);
      assert forall e :: e in es <==> e in es[..n] || e == es[n];
    }
  }

  lemma {:induction false} ShownDistinct(es: seq<Entry>, observedSide: bool)
    requires forall i, j :: 0 <= i < j < |es| ==> es[i].path != es[j].path
    ensures DistinctPaths(Shown(es, observedSide))
  {
    if es != [] {
      var n := |es| - 1;
      ShownDistinct(es[..n], observedSide);
      var shown := Shown(es[..n], observedSide);
      forall i | 0 <= i < |shown|
        ensures shown[i].path != es[n].path
      {
        ShownMembers(es[..n], observedSide, shown[i]);
      }
    }
  }

  lemma {:induction false} EntryMembers(ls: seq<Leaf>, observed: seq<Leaf>, e: Entry)
    ensures e in Entries(ls, observed) <==>
            exists l <- ls :: Classify(l, observed) == Drift && e == EntryOf(l, observed)
  {
    if ls != [] {
      var n := |ls| - 1;
      EntryMembers(ls[..n], observed, e);
      assert forall l :: l in ls <==> l in ls[..n] || l == ls[n];
    }
  }

  function EntryOf(l: Leaf, observed: seq<Leaf>): Entry
    requires Classify(l, observed) == Drift
  {
    RedactEntry(Entry(l.path, l.value, LastValue(observed, l.path).value, false))
  }

  lemma {:induction false} EntriesDistinct(ls: seq<Leaf>, observed: seq<Leaf>)
    requires DistinctPaths(ls)
    ensures forall i, j :: 0 <= i < j < |Entries(ls, observed)| ==> Entries(ls, observed)[i].path != Entries(ls, observed)[j].path
  {
    if ls != [] {
      var n := |ls| - 1;
      EntriesDistinct(ls[..n], observed);
      var es := Entries(ls[..n], observed);
      forall i | 0 <= i < |es|
        ensures es[i].path != ls[n].path
      {
        EntryMembers(ls[..n], observed, es[i]);
        var l :| l in ls[..n] && Classify(l, observed) == Drift && es[i] == EntryOf(l, observed);
      }
    }
  }

  /** The entries a report shows are drifted leaves, each path once; all of them unless it is cut. */
  lemma ReportEntries(forProvider: map<string, Json>, atProvider: map<string, Json>, e: Entry)
    requires forProvider != map[] && GoodTree(Obj(forProvider))
    requires atProvider != map[] && GoodTree(Obj(atProvider))
    ensures var r, ls, observed := Compare(forProvider, atProvider), WalkLeaves("", Obj(forProvider)), WalkLeaves("", Obj(atProvider));
            && (forall i, j :: 0 <= i < j < |r.driftEntries| ==> r.driftEntries[i].path != r.driftEntries[j].path)
            && (e in r.driftEntries ==> e in Entries(ls, observed))
            && (e in Entries(ls, observed) && !r.truncated ==> e in r.driftEntries)
  {
    var ls, observed := WalkLeaves("", Obj(forProvider)), WalkLeaves("", Obj(atProvider));
    var es := Entries(ls, observed);
    WalkDistinct([], Obj(forProvider));
    EntriesDistinct(ls, observed);
    PermutedDistinct(es, SortByPath(es), (e: Entry) => e.path);
    SameElements(es, SortByPath(es));
  }

  lemma ShownAreLeaves(es: seq<Entry>, ls: seq<Leaf>, observed: seq<Leaf>, observedSide: bool, l: Leaf)
    requires forall e <- es :: e in Entries(ls, observed)
    requires l in Shown(es, observedSide)
    ensures l in if observedSide then observed else ls
  {
    ShownMembers(es, observedSide, l);
    var e :| e in es && !e.redacted && l == LeafOf(e, observedSide);
    EntryMembers(ls, observed, e);
  }

  /** Every leaf written into a document is a leaf of the side it comes from, so they form an antichain. */
  lemma ShownAntichain(forProvider: map<string, Json>, atProvider: map<string, Json>, es: seq<Entry>, observedSide: bool)
    requires forProvider != map[] && GoodTree(Obj(forProvider))
    requires atProvider != map[] && GoodTree(Obj(atProvider))
    requires forall e <- es :: e in Entries(WalkLeaves("", Obj(forProvider)), WalkLeaves("", Obj(atProvider)))
    requires forall i, j :: 0 <= i < j < |es| ==> es[i].path != es[j].path
    ensures Antichain(Shown(es, observedSide))
  {
    var shown := Shown(es, observedSide);
    var ls, observed := WalkLeaves("", Obj(forProvider)), WalkLeaves("", Obj(atProvider));
    forall l | l in shown
      ensures l in if observedSide then observed else ls
    {
      ShownAreLeaves(es, ls, observed, observedSide, l);
    }
    ShownDistinct(es, observedSide);
    WalkAntichain(if observedSide then atProvider else forProvider, shown);
  }

  /** The route `q` has drifted from `y` to `z`. */
  predicate Drifted(forProvider: map<string, Json>, atProvider: map<string, Json>, q: Route, y: Json, z: Json) {
    HasLeaf(Obj(forProvider), q, y) && HasLeaf(Obj(atProvider), q, z) && Normal(y) != Normal(z)
  }

  lemma EntryInClear(ls: seq<Leaf>, observed: seq<Leaf>, path: string, y: Json, z: Json)
    ensures Entry(path, y, z, false) in Entries(ls, observed) <==>
            && Leaf(path, y) in ls && LastValue(observed, path) == Some(z)
            && Normal(y) != Normal(z) && !PathIsSensitive(path)
  {
    var e, l := Entry(path, y, z, false), Leaf(path, y);
    EntryMembers(ls, observed, e);
    if e in Entries(ls, observed) {
      var k :| k in ls && Classify(k, observed) == Drift && e == EntryOf(k, observed);
      assert k == l;
    }
    if l in ls && LastValue(observed, path) == Some(z) && Normal(y) != Normal(z) && !PathIsSensitive(path) {
      assert Classify(l, observed) == Drift && e == EntryOf(l, observed);
    }
  }

  /** Drifted routes on non-sensitive paths are the entries in clear. */
  lemma ClearEntries(forProvider: map<string, Json>, atProvider: map<string, Json>, q: Route, y: Json, z: Json)
    requires forProvider != map[] && GoodTree(Obj(forProvider))
    requires atProvider != map[] && GoodTree(Obj(atProvider))
    requires q != [] && GoodRoute(q)
    ensures Entry(Join(q), y, z, false) in Entries(WalkLeaves("", Obj(forProvider)), WalkLeaves("", Obj(atProvider))) <==>
            Drifted(forProvider, atProvider, q, y, z) && !PathIsSensitive(Join(q))
  {
    var observed := WalkLeaves("", Obj(atProvider));
    EntryInClear(WalkLeaves("", Obj(forProvider)), observed, Join(q), y, z);
    WalkIsDescent(forProvider, q, y);
    WalkIsDescent(atProvider, q, z);
    if Leaf(Join(q), z) in observed {
      LastOfDistinct(observed, Leaf(Join(q), z));
    }
  }

  /** The documents a unified diff compares. */
  function DesiredDocument(r: Report): map<string, Json> { Fold(Shown(r.driftEntries, false)) }

  function ObservedDocument(r: Report): map<string, Json> { Fold(Shown(r.driftEntries, true)) }

  /** What the two documents hold at a route comes from one entry shown in clear. */
  lemma DocumentsFromEntries(forProvider: map<string, Json>, atProvider: map<string, Json>, es: seq<Entry>, q: Route, y: Json, z: Json)
    requires forProvider != map[] && GoodTree(Obj(forProvider))
    requires atProvider != map[] && GoodTree(Obj(atProvider))
    requires forall e <- es :: e in Entries(WalkLeaves("", Obj(forProvider)), WalkLeaves("", Obj(atProvider)))
    requires forall i, j :: 0 <= i < j < |es| ==> es[i].path != es[j].path
    requires q != [] && GoodRoute(q)
    ensures HasLeaf(Obj(Fold(Shown(es, false))), q, y) && HasLeaf(Obj(Fold(Shown(es, true))), q, z) <==>
            Entry(Join(q), y, z, false) in es
  {
    ShownLeaf(forProvider, atProvider, es, false, q, y);
    ShownLeaf(forProvider, atProvider, es, true, q, z);
    var e := Entry(Join(q), y, z, false);
    if HasLeaf(Obj(Fold(Shown(es, false))), q, y) && HasLeaf(Obj(Fold(Shown(es, true))), q, z) {
      ShownMembers(es, false, Leaf(Join(q), y));
      ShownMembers(es, true, Leaf(Join(q), z));
      var e1 :| e1 in es && !e1.redacted && LeafOf(e1, false) == Leaf(Join(q), y);
      var e2 :| e2 in es && !e2.redacted && LeafOf(e2, true) == Leaf(Join(q), z);
      SamePathSameEntry(es, e1, e2);
    }
    if e in es {
      ShownMembers(es, false, LeafOf(e, false));
      ShownMembers(es, true, LeafOf(e, true));
    }
  }

  lemma SamePathSameEntry(es: seq<Entry>, e1: Entry, e2: Entry)
    requires forall i, j :: 0 <= i < j < |es| ==> es[i].path != es[j].path
    requires e1 in es && e2 in es && e1.path == e2.path
    ensures e1 == e2
  {
    var i, j :| 0 <= i < |es| && 0 <= j < |es| && es[i] == e1 && es[j] == e2;
  }

  lemma ShownLeaf(forProvider: map<string, Json>, atProvider: map<string, Json>, es: seq<Entry>, observedSide: bool, q: Route, y: Json)
    requires forProvider != map[] && GoodTree(Obj(forProvider))
    requires atProvider != map[] && GoodTree(Obj(atProvider))
    requires forall e <- es :: e in Entries(WalkLeaves("", Obj(forProvider)), WalkLeaves("", Obj(atProvider)))
    requires forall i, j :: 0 <= i < j < |es| ==> es[i].path != es[j].path
    requires q != [] && GoodRoute(q)
    ensures HasLeaf(Obj(Fold(Shown(es, observedSide))), q, y) <==> Leaf(Join(q), y) in Shown(es, observedSide)
  {
    var shown := Shown(es, observedSide);
    var source := if observedSide then atProvider else forProvider;
    ShownAntichain(forProvider, atProvider, es, observedSide);
    FoldExact(shown);
    SplitGoodRoute(q);
    if Lists(shown, q, y) {
      var i :| 0 <= i < |shown| && Split(shown[i].path) == q && shown[i].value == y;
      ShownAreLeaves(es, WalkLeaves("", Obj(forProvider)), WalkLeaves("", Obj(atProvider)), observedSide, shown[i]);
      var q' := WalkRoute([], Obj(source), shown[i]);
      SplitGoodRoute(q');
    }
    if Leaf(Join(q), y) in shown {
      assert Lists(shown, q, y);
    }
  }

  /**
    A route holds `y` in one document and `z` in the other only if it drifted from `y` to `z` and is
    not sensitive, and always then unless the report is cut.
   */
  lemma DocumentsShowDrift(forProvider: map<string, Json>, atProvider: map<string, Json>, q: Route, y: Json, z: Json)
    requires forProvider != map[] && GoodTree(Obj(forProvider))
    requires atProvider != map[] && GoodTree(Obj(atProvider))
    requires q != [] && GoodRoute(q)
    ensures var r := Compare(forProvider, atProvider);
            var shown := HasLeaf(Obj(DesiredDocument(r)), q, y) && HasLeaf(Obj(ObservedDocument(r)), q, z);
            var drifted := Drifted(forProvider, atProvider, q, y, z) && !PathIsSensitive(Join(q));
            (shown ==> drifted) && (drifted && !r.truncated ==> shown)
  {
    var es := Compare(forProvider, atProvider).driftEntries;
    forall e
      ensures e in es ==> e in Entries(WalkLeaves("", Obj(forProvider)), WalkLeaves("", Obj(atProvider)))
      ensures forall i, j :: 0 <= i < j < |es| ==> es[i].path != es[j].path
    {
      ReportEntries(forProvider, atProvider, e);
    }
    ReportEntries(forProvider, atProvider, Entry(Join(q), y, z, false));
    ClearEntries(forProvider, atProvider, q, y, z);
    DocumentsFromEntries(forProvider, atProvider, es, q, y, z);
  }
}
