/**
  The cache of cluster queries, whose objects are sanitized in place by every KubeGet that returns them.

  The backend may answer the same query differently each time, so what a run sees is decided by the
  first time it asks.
 */
module ObjectCache {
  import opened Wrappers
  import opened Strings
  import opened Sanitize

  datatype Query = Query(namespace: string, args: seq<string>, selector: string)

  /** A listing in its stable order, and whether the request failed. */
  datatype Reply = Reply(objects: seq<map<string, Value>>, failed: bool)

  const UNIT := '\U{1F}'
  const RECORD := '\U{1E}'

  function Key(q: Query): string {
    Join([q.namespace, Join(q.args, UNIT), q.selector], RECORD)
  }

  // ----- the key

  predicate SeparatorFree(q: Query) {
    && RECORD !in q.namespace && RECORD !in q.selector
    && forall i :: 0 <= i < |q.args| ==> RECORD !in q.args[i] && UNIT !in q.args[i]
  }

  /** One empty argument joins to the same string as none. */
  function Canonical(q: Query): Query {
    if q.args == [] then q.(args := [""]) else q
  }

  lemma {:induction false} JoinFree(r: seq<string>, sep: char, c: char)
    requires c != sep && forall i :: 0 <= i < |r| ==> c !in r[i]
    ensures c !in Join(r, sep)
  {
    if |r| > 1 {
      JoinFree(r[1..], sep, c);
    }
  }

  lemma KeyParts(q: Query)
    requires SeparatorFree(q)
    ensures Split(Key(q), RECORD) == [q.namespace, Join(q.args, UNIT), q.selector]
    ensures Split(Join(q.args, UNIT), UNIT) == Canonical(q).args
  {
    JoinFree(q.args, UNIT, RECORD);
    SplitJoin([q.namespace, Join(q.args, UNIT), q.selector], RECORD);
    if q.args != [] {
      SplitJoin(q.args, UNIT);
    }
  }

  /** Queries without separators share a key only when they are the same query, or differ in [] and [""]. */
  lemma KeyInjective(p: Query, q: Query)
    requires SeparatorFree(p) && SeparatorFree(q)
    ensures Key(p) == Key(q) <==> Canonical(p) == Canonical(q)
  {
    KeyParts(p);
    KeyParts(q);
    CanonicalJoin(p);
    CanonicalJoin(q);
    if Key(p) == Key(q) {
      var parts := Split(Key(p), RECORD);
      assert parts[0] == p.namespace == q.namespace && parts[2] == p.selector == q.selector;
      assert parts[1] == Join(p.args, UNIT) == Join(q.args, UNIT);
    }
  }

  lemma CanonicalJoin(q: Query)
    ensures Join(Canonical(q).args, UNIT) == Join(q.args, UNIT) && Key(Canonical(q)) == Key(q)
  {
  }

  /** An argument with the separator in it collides with two arguments. */
  lemma SeparatorCollides(namespace: string, a: string, b: string, selector: string)
    ensures Key(Query(namespace, [a, b], selector)) == Key(Query(namespace, [a + [UNIT] + b], selector))
    ensures !SeparatorFree(Query(namespace, [a + [UNIT] + b], selector))
  {
    assert [a, b][1..] == [b] && Join([b], UNIT) == b;
    assert Join([a, b], UNIT) == a + [UNIT] + b == Join([a + [UNIT] + b], UNIT);
    assert (a + [UNIT] + b)[|a|] == UNIT;
  }

  // ----- what has been asked

  predicate Distinct<K(==)>(ks: seq<K>) {
    forall i, j :: 0 <= i < j < |ks| ==> ks[i] != ks[j]
  }

  /** The position of the first `k`. */
  function Find<K(==)>(ks: seq<K>, k: K): (i: nat)
    requires k in ks
    ensures i < |ks| && ks[i] == k
  {
    if ks[0] == k then 0 else 1 + Find(ks[1..], k)
  }

  lemma FindUnique<K>(ks: seq<K>, i: nat)
    requires Distinct(ks) && i < |ks|
    ensures Find(ks, ks[i]) == i
  {
  }

  function Keys(asked: seq<Query>): seq<string> {
    seq(|asked|, i requires 0 <= i < |asked| => Key(asked[i]))
  }

  function Replies(backend: (Query, nat) -> Reply, asked: seq<Query>): seq<Reply> {
    seq(|asked|, i requires 0 <= i < |asked| => backend(asked[i], i))
  }

  lemma KeysMore(backend: (Query, nat) -> Reply, asked: seq<Query>, q: Query)
    ensures Keys(asked + [q]) == Keys(asked) + [Key(q)]
    ensures Replies(backend, asked + [q]) == Replies(backend, asked) + [backend(q, |asked|)]
  {
  }

  predicate Asked(asked: seq<Query>, q: Query) {
    Key(q) in Keys(asked)
  }

  /** No two requests under one key. */
  predicate AskedOnce(asked: seq<Query>) {
    Distinct(Keys(asked))
  }

  /** The queries sent to the backend once `q` has been looked up. */
  function After(asked: seq<Query>, q: Query): seq<Query> {
    if Asked(asked, q) then asked else asked + [q]
  }

  /** The answer to the first request under the query's key. */
  function FirstReply(backend: (Query, nat) -> Reply, asked: seq<Query>, q: Query): Reply
    requires Asked(asked, q)
  {
    Replies(backend, asked)[Find(Keys(asked), Key(q))]
  }

  function AfterRun(asked: seq<Query>, calls: seq<Query>): seq<Query>
    decreases |calls|
  {
    if calls == [] then asked else AfterRun(After(asked, calls[0]), calls[1..])
  }

  lemma DistinctMore<K>(ks: seq<K>, k: K, j: K)
    requires Distinct(ks) && k !in ks && (j in ks || j == k)
    ensures Distinct(ks + [k]) && j in ks + [k]
    ensures Find(ks + [k], j) == if j == k then |ks| else Find(ks, j)
  {
    FindUnique(ks + [k], if j == k then |ks| else Find(ks, j));
  }

  lemma AskedAfter(backend: (Query, nat) -> Reply, asked: seq<Query>, call: Query, q: Query)
    requires AskedOnce(asked)
    ensures AskedOnce(After(asked, call))
    ensures Asked(asked, q) ==> Asked(After(asked, call), q) && FirstReply(backend, After(asked, call), q) == FirstReply(backend, asked, q)
  {
    if !Asked(asked, call) {
      KeysMore(backend, asked, call);
      DistinctMore(Keys(asked), Key(call), Key(if Asked(asked, q) then q else call));
    }
  }

  /**
    Over any run of calls the backend is asked at most once under each key, so at most once for each
    query, and what the first request answered stays the answer.
   */
  lemma {:induction false} RunAsksOnce(backend: (Query, nat) -> Reply, asked: seq<Query>, calls: seq<Query>, q: Query)
    requires AskedOnce(asked)
    ensures AskedOnce(AfterRun(asked, calls)) && multiset(AfterRun(asked, calls))[q] <= 1
    ensures Asked(asked, q) ==>
              && Asked(AfterRun(asked, calls), q)
              && FirstReply(backend, AfterRun(asked, calls), q) == FirstReply(backend, asked, q)
    decreases |calls|
  {
    if calls == [] {
      CountOnce(asked, q);
    } else {
      AskedAfter(backend, asked, calls[0], q);
      RunAsksOnce(backend, After(asked, calls[0]), calls[1..], q);
    }
  }

  lemma {:induction false} CountOnce(asked: seq<Query>, q: Query)
    requires AskedOnce(asked)
    ensures multiset(asked)[q] <= 1
  {
    if asked != [] {
      var rest := asked[1..];
      assert asked == [asked[0]] + rest;
      assert Keys(rest) == Keys(asked)[1..];
      CountOnce(rest, q);
      if asked[0] == q {
        assert Keys(asked)[0] == Key(q) && forall i :: 0 <= i < |rest| ==> Keys(asked)[i + 1] == Key(rest[i]);
      }
    }
  }

  /** For separator-free queries the answer is the first one to that very query. */
  lemma OwnReply(backend: (Query, nat) -> Reply, asked: seq<Query>, q: Query)
    requires Asked(asked, q) && SeparatorFree(q)
    requires forall i :: 0 <= i < |asked| ==> SeparatorFree(asked[i])
    ensures exists i :: 0 <= i < |asked| && Canonical(asked[i]) == Canonical(q) && FirstReply(backend, asked, q) == backend(asked[i], i)
  {
    var i := Find(Keys(asked), Key(q));
    KeyInjective(asked[i], q);
  }

  // ----- the repository

  datatype Entry = Entry(objects: seq<Resource>, failed: bool)

  /** The objects of the reply. */
  ghost predicate Holds(e: Entry, reply: Reply, owned: set<Resource>) {
    && |e.objects| == |reply.objects| && e.failed == reply.failed
    && forall j :: 0 <= j < |e.objects| ==> e.objects[j] in owned && e.objects[j].origin == reply.objects[j]
  }

  /** An entry for each key, with the reply that came, and nothing else. */
  ghost predicate Covers<K(!new)>(cache: map<K, Entry>, ks: seq<K>, replies: seq<Reply>, owned: set<Resource>) {
    && Distinct(ks) && |replies| == |ks|
    && (forall i :: 0 <= i < |ks| ==> ks[i] in cache && Holds(cache[ks[i]], replies[i], owned))
    && (forall k :: k in cache ==> k in ks)
  }

  lemma CoversMore<K(!new)>(cache: map<K, Entry>, ks: seq<K>, replies: seq<Reply>, owned: set<Resource>, k: K, e: Entry, reply: Reply, made: set<Resource>)
    requires Covers(cache, ks, replies, owned) && k !in cache && Holds(e, reply, made)
    ensures Covers(cache[k := e], ks + [k], replies + [reply], owned + made)
    ensures k in ks + [k] && Find(ks + [k], k) == |ks|
  {
    DistinctMore(ks, k, k);
    var c, js, rs := cache[k := e], ks + [k], replies + [reply];
    forall i | 0 <= i < |js|
      ensures js[i] in c && Holds(c[js[i]], rs[i], owned + made)
    {
      if i < |ks| {
        assert js[i] == ks[i] && rs[i] == replies[i] && ks[i] in ks;
        HoldsMore(cache[ks[i]], replies[i], owned, made);
      } else {
        HoldsMore(e, reply, made, owned);
      }
    }
  }

  lemma HoldsMore(e: Entry, reply: Reply, owned: set<Resource>, made: set<Resource>)
    requires Holds(e, reply, owned)
    ensures Holds(e, reply, owned + made) && Holds(e, reply, made + owned)
  {
  }

  /** The objects handed out are those in the cache, each under the key it belongs to. */
  ghost predicate Housed(cache: map<string, Entry>, owned: set<Resource>) {
    && (forall k, j :: k in cache && 0 <= j < |cache[k].objects| ==> cache[k].objects[j].home == k)
    && (forall o :: o in owned ==> o.home in cache && o in cache[o.home].objects)
  }

  lemma HousedMore(cache: map<string, Entry>, owned: set<Resource>, k: string, e: Entry, made: set<Resource>)
    requires Housed(cache, owned) && k !in cache
    requires forall o :: o in made ==> o.home == k && o in e.objects
    requires forall j :: 0 <= j < |e.objects| ==> e.objects[j] in made
    ensures Housed(cache[k := e], owned + made)
  {
  }

  /** The cache with one more reply. */
  lemma Remembered(cache: map<string, Entry>, backend: (Query, nat) -> Reply, asked: seq<Query>, owned: set<Resource>, q: Query, e: Entry, made: set<Resource>)
    requires Covers(cache, Keys(asked), Replies(backend, asked), owned) && Housed(cache, owned) && Key(q) !in cache
    requires Holds(e, backend(q, |asked|), made) && forall o :: o in made ==> o.home == Key(q) && o in e.objects
    ensures var more, now := cache[Key(q) := e], asked + [q];
            && Covers(more, Keys(now), Replies(backend, now), owned + made) && Housed(more, owned + made)
            && After(asked, q) == now && Asked(now, q) && Holds(e, FirstReply(backend, now, q), owned + made)
  {
    KeysMore(backend, asked, q);
    CoversMore(cache, Keys(asked), Replies(backend, asked), owned, Key(q), e, backend(q, |asked|), made);
    HousedMore(cache, owned, Key(q), e, made);
    HoldsMore(e, backend(q, |asked|), made, owned);
  }

  /** Wraps each object for rendering, which sanitizes it. */
  method ObjectsToRenderableObjects(objects: seq<Resource>) returns (out: seq<Resource>)
    requires forall o :: o in objects ==> o.Valid()
    modifies set o | o in objects
    ensures out == objects && forall o :: o in objects ==> o.Valid() && o.sanitized
  {
    out := [];
    for n := 0 to |objects|
      invariant out == objects[..n] && forall o :: o in objects ==> o.Valid()
      invariant forall j :: 0 <= j < n ==> objects[j].sanitized
    {
      objects[n].SanitizeObject();
      out := out + [objects[n]];
    }
  }

  class ResourceRepo {
    const backend: (Query, nat) -> Reply
    var objectsCache: map<string, Entry>
    /** The queries sent to the backend, in order. */
    var asked: seq<Query>
    /** The keys whose entries a KubeGet has returned. */
    ghost var got: set<string>
    ghost var owned: set<Resource>

    ghost predicate Valid()
      reads this, owned
    {
      && Covers(objectsCache, Keys(asked), Replies(backend, asked), owned) && Housed(objectsCache, owned)
      && got <= objectsCache.Keys
      && forall o :: o in owned ==> o.Valid() && (o.sanitized <==> o.home in got)
    }

    constructor (backend: (Query, nat) -> Reply)
      ensures Valid() && asked == [] && got == {} && owned == {} && this.backend == backend
    {
      this.backend := backend;
      objectsCache, asked, got, owned := map[], [], {}, {};
    }

    /** Send the query, and make objects of what comes back. */
    method ObjectsUncached(q: Query) returns (e: Entry, ghost made: set<Resource>)
      modifies this`asked
      ensures asked == old(asked) + [q] && fresh(made)
      ensures Holds(e, backend(q, |old(asked)|), made)
      ensures forall o :: o in made ==> o.Valid() && !o.sanitized && o.home == Key(q) && o in e.objects
    {
      var reply := backend(q, |asked|);
      asked := asked + [q];
      var objects: seq<Resource> := [];
      made := {};
      ghost var key := Key(q);
      for n := 0 to |reply.objects|
        invariant |objects| == n && asked == old(asked) + [q] && fresh(made)
        invariant forall o :: o in made ==> o.Valid() && !o.sanitized && o.home == key && o in objects
        invariant forall j :: 0 <= j < n ==> objects[j] in made && objects[j].origin == reply.objects[j]
      {
        var o := new Resource(reply.objects[n], key);
        objects := objects + [o];
        made := made + {o};
      }
      e := Entry(objects, reply.failed);
    }

    method Objects(q: Query) returns (e: Entry)
      requires Valid()
      modifies this
      ensures Valid() && asked == After(old(asked), q) && got == old(got)
      ensures old(owned) <= owned && fresh(owned - old(owned))
      ensures Asked(asked, q) && Holds(e, FirstReply(backend, asked, q), owned)
      ensures Key(q) in objectsCache && objectsCache[Key(q)] == e
    {
      var key := Key(q);
      if key in objectsCache {
        return objectsCache[key];
      }
      e := Remember(q);
    }

    /** A query not asked before: what comes back is cached. */
    method Remember(q: Query) returns (e: Entry)
      requires Valid() && Key(q) !in objectsCache
      modifies this
      ensures Valid() && asked == old(asked) + [q] && asked == After(old(asked), q) && got == old(got)
      ensures old(owned) <= owned && fresh(owned - old(owned))
      ensures Asked(asked, q) && Holds(e, FirstReply(backend, asked, q), owned)
      ensures objectsCache == old(objectsCache)[Key(q) := e]
    {
      ghost var made;
      e, made := ObjectsUncached(q);
      Remembered(objectsCache, backend, old(asked), owned, q, e, made);
      objectsCache := objectsCache[Key(q) := e];
      owned := owned + made;
    }

    /** Every object returned is the first reply's, sanitized, whatever was done to it before. */
    method KubeGet(live: bool, q: Query) returns (out: seq<Resource>)
      requires Valid()
      modifies this, owned
      ensures Valid() && old(owned) <= owned && fresh(owned - old(owned))
      ensures asked == if live then After(old(asked), q) else old(asked)
      ensures got == if live then old(got) + {Key(q)} else old(got)
      ensures !live ==> out == []
      ensures live ==>
                && Asked(asked, q)
                && |out| == |FirstReply(backend, asked, q).objects|
                && forall j :: 0 <= j < |out| ==>
                     out[j] in owned && out[j].fields == SanitizedFields(FirstReply(backend, asked, q).objects[j])
    {
      if !live {
        return [];
      }
      var e := Objects(q);
      assert forall o :: o in e.objects ==> o in owned && o.home == Key(q);
      out := ObjectsToRenderableObjects(e.objects);
      got := got + {Key(q)};
    }

    /** The first object: raw as long as no KubeGet has returned its entry, and sanitized from then on. */
    method FirstObject(q: Query) returns (r: Option<Resource>)
      requires Valid()
      modifies this
      ensures Valid() && asked == After(old(asked), q) && got == old(got)
      ensures old(owned) <= owned && fresh(owned - old(owned))
      ensures Asked(asked, q)
      ensures var reply := FirstReply(backend, asked, q);
              && (r.None? <==> reply.failed || reply.objects == [])
              && (r.Some? ==>
                    && r.value in owned
                    && r.value.fields == if Key(q) in got then SanitizedFields(reply.objects[0]) else reply.objects[0])
    {
      var e := Objects(q);
      if e.failed || |e.objects| == 0 {
        return None;
      }
      assert e.objects[0].home == Key(q);
      return Some(e.objects[0]);
    }
  }
}
