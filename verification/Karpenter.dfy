/**
  Whether any Karpenter NodePool could provision a node for a Pod, decided key by key.
 */
module Karpenter {
  import opened Wrappers
  import opened Ordering
  import opened NodeSelectors

  type Labels = map<string, string>

  /** The first requirement on the key: later ones are not looked at. */
  function FirstOn(pool: seq<Requirement>, key: string): (r: Option<Requirement>)
    ensures r.Some? ==> r.value in pool && r.value.key == key
    ensures r.None? <==> !Declares(pool, key)
  {
    if pool == [] then None else if pool[0].key == key then Some(pool[0]) else FirstOn(pool[1..], key)
  }

  predicate Declares(pool: seq<Requirement>, key: string) {
    exists i :: 0 <= i < |pool| && pool[i].key == key
  }

  predicate Overlapping(a: seq<string>, b: seq<string>) {
    exists v :: v in a && v in b
  }

  predicate Within(a: seq<string>, b: seq<string>) {
    forall v :: v in a ==> v in b
  }

  /** The answer for two requirements on one key. */
  predicate Compatible(pod: Requirement, pool: Requirement) {
    if pod.operator.In? && pool.operator.In? then Overlapping(pod.values, pool.values)
    else if pod.operator.In? && pool.operator.NotIn? then !Within(pod.values, pool.values)
    else if pod.operator.NotIn? && pool.operator.In? then !Within(pool.values, pod.values)
    else true
  }

  predicate CanPossiblySatisfy(pool: seq<Requirement>, pod: Requirement) {
    var first := FirstOn(pool, pod.key);
    first.Some? && Compatible(pod, first.value)
  }

  /** Position `i` holds the first of the pool's requirements on the key. */
  predicate FirstAt(pool: seq<Requirement>, key: string, i: nat) {
    i < |pool| && pool[i].key == key && forall j :: 0 <= j < i ==> pool[j].key != key
  }

  lemma {:induction false} FirstOnAt(pool: seq<Requirement>, key: string, i: nat)
    requires FirstAt(pool, key, i)
    ensures FirstOn(pool, key) == Some(pool[i])
  {
    if i > 0 {
      assert forall j :: 0 <= j < i - 1 ==> pool[1..][j] == pool[j + 1];
      FirstOnAt(pool[1..], key, i - 1);
    }
  }

  lemma {:induction false} FirstOf(pool: seq<Requirement>, key: string) returns (i: nat)
    requires Declares(pool, key)
    ensures FirstAt(pool, key, i)
  {
    i := 0;
    if pool[0].key != key {
      var j :| 0 <= j < |pool| && pool[j].key == key;
      assert pool[1..][j - 1] == pool[j];
      var n := FirstOf(pool[1..], key);
      i := n + 1;
      assert forall k :: 0 < k < i ==> pool[k] == pool[1..][k - 1];
    }
  }

  /** The answer is yes exactly if the pool declares the key and its first requirement on it is compatible. */
  lemma SatisfiesExact(pool: seq<Requirement>, pod: Requirement)
    ensures !Declares(pool, pod.key) ==> !CanPossiblySatisfy(pool, pod)
    ensures CanPossiblySatisfy(pool, pod) <==> exists i: nat :: FirstAt(pool, pod.key, i) && Compatible(pod, pool[i])
  {
    if Declares(pool, pod.key) {
      var i := FirstOf(pool, pod.key);
      FirstOnAt(pool, pod.key, i);
    }
    if i: nat :| FirstAt(pool, pod.key, i) && Compatible(pod, pool[i]) {
      FirstOnAt(pool, pod.key, i);
    }
  }

  method NodePoolCanPossiblySatisfy(pool: seq<Requirement>, pod: Requirement) returns (ok: bool)
    ensures ok == CanPossiblySatisfy(pool, pod)
  {
    var found := false;
    var poolReq := Requirement("", Unknown(""), []);
    for i := 0 to |pool|
      invariant !found && FirstOn(pool, pod.key) == FirstOn(pool[i..], pod.key)
    {
      if pool[i].key == pod.key {
        poolReq, found := pool[i], true;
        break;
      }
    }
    if !found {
      return false;
    }
    if pod.operator.In? && poolReq.operator.In? {
      ok := StringSlicesIntersect(pod.values, poolReq.values);
    } else if pod.operator.In? && poolReq.operator.NotIn? {
      var subset := StringSliceSubset(pod.values, poolReq.values);
      ok := !subset;
    } else if pod.operator.NotIn? && poolReq.operator.In? {
      var subset := StringSliceSubset(poolReq.values, pod.values);
      ok := !subset;
    } else {
      ok := true;
    }
  }

  // ----- what the answer means

  predicate BothMatch(pod: Requirement, pool: Requirement, labels: Labels) {
    Matches(pod, labels) && Matches(pool, labels)
  }

  predicate IsSetOperator(operator: Operator) {
    operator.In? || operator.NotIn?
  }

  /** On one key and the operators In and NotIn, the answer is exactly satisfiability. */
  lemma CompatibleExact(pod: Requirement, pool: Requirement)
    requires pod.key == pool.key && IsSetOperator(pod.operator) && IsSetOperator(pool.operator)
    ensures Compatible(pod, pool) <==> exists labels: Labels :: BothMatch(pod, pool, labels)
  {
    if Compatible(pod, pool) {
      if pod.operator.NotIn? && pool.operator.NotIn? {
        assert BothMatch(pod, pool, map[]);
      } else {
        var v := Witness(pod, pool);
        assert BothMatch(pod, pool, map[pod.key := v]);
      }
    }
  }

  /** A label value both requirements accept. */
  lemma Witness(pod: Requirement, pool: Requirement) returns (v: string)
    requires pod.key == pool.key && IsSetOperator(pod.operator) && IsSetOperator(pool.operator)
    requires Compatible(pod, pool) && (pod.operator.In? || pool.operator.In?)
    ensures (v in pod.values <==> pod.operator.In?) && (v in pool.values <==> pool.operator.In?)
  {
    if pod.operator.In? && pool.operator.In? {
      v :| v in pod.values && v in pool.values;
    } else if pod.operator.In? {
      v :| v in pod.values && v !in pool.values;
    } else {
      v :| v in pool.values && v !in pod.values;
    }
  }

  /** Whatever the operators, a conflict found is a conflict. */
  lemma IncompatibleSound(pod: Requirement, pool: Requirement, labels: Labels)
    requires pod.key == pool.key && !Compatible(pod, pool)
    ensures !BothMatch(pod, pool, labels)
  {
    CompatibleExact(pod, pool);
  }

  predicate PodMet(pod: Requirement, labels: Labels) {
    Matches(pod, labels)
  }

  predicate PoolMet(pool: seq<Requirement>, labels: Labels) {
    AllMatch(pool, labels)
  }

  ghost predicate Satisfiable(pool: seq<Requirement>, pod: Requirement) {
    exists labels: Labels :: PodMet(pod, labels) && PoolMet(pool, labels)
  }

  /** Labels meeting the pool and, apart from each other, the Pod's requirement on a key the pool does not mention. */
  lemma Merged(pool: seq<Requirement>, pod: Requirement, a: Labels, b: Labels)
    requires !Declares(pool, pod.key) && PodMet(pod, a) && PoolMet(pool, b)
    ensures Satisfiable(pool, pod)
  {
    var labels := if pod.key in a then b[pod.key := a[pod.key]] else b - {pod.key};
    forall i | 0 <= i < |pool|
      ensures Matches(pool[i], labels)
    {
      assert pool[i].key != pod.key && Matches(pool[i], b);
    }
    assert PodMet(pod, labels) && PoolMet(pool, labels);
  }

  /**
    When the answer is no, the Pod's requirement and the pool are truly unsatisfiable together exactly
    if the pool declares the key, or one of the two sides can never be met by itself.  (A key the
    pool does not declare is always answered no.)
   */
  lemma RefusalExact(pool: seq<Requirement>, pod: Requirement)
    requires !CanPossiblySatisfy(pool, pod)
    ensures !Satisfiable(pool, pod) <==>
            || Declares(pool, pod.key)
            || (forall labels: Labels :: !PodMet(pod, labels))
            || (forall labels: Labels :: !PoolMet(pool, labels))
  {
    var first := FirstOn(pool, pod.key);
    if first.Some? {
      forall labels: Labels | PodMet(pod, labels)
        ensures !PoolMet(pool, labels)
      {
        IncompatibleSound(pod, first.value, labels);
        var i :| 0 <= i < |pool| && pool[i] == first.value;
        assert !Matches(pool[i], labels);
      }
    } else if !Satisfiable(pool, pod) {
      if a: Labels, b: Labels :| PodMet(pod, a) && PoolMet(pool, b) {
        Merged(pool, pod, a, b);
      }
    }
  }

  /** A pool without the key is refused although a node without the label would do. */
  lemma UndeclaredRefused(key: string, value: string)
    ensures !CanPossiblySatisfy([], Requirement(key, NotIn, [value]))
    ensures Satisfiable([], Requirement(key, NotIn, [value]))
  {
    assert PodMet(Requirement(key, NotIn, [value]), map[]) && PoolMet([], map[]);
  }

  // ----- all pools

  predicate AnyPoolQualifies(pools: seq<seq<Requirement>>, pod: Requirement) {
    exists i :: 0 <= i < |pools| && CanPossiblySatisfy(pools[i], pod)
  }

  /** The keys no pool qualifies for, in the Pod's order and repeated as often as the Pod repeats them. */
  function Refused(pods: seq<Requirement>, pools: seq<seq<Requirement>>): seq<string> {
    if pods == [] then []
    else
      var n := |pods| - 1;
      Refused(pods[..n], pools) + (if AnyPoolQualifies(pools, pods[n]) then [] else [pods[n].key])
  }

  predicate InOrder(s: seq<string>) {
    forall i, j :: 0 <= i < j < |s| ==> AtMost(s[i], s[j])
  }

  /** sort.Strings */
  method SortStrings(s: seq<string>) returns (r: seq<string>)
    ensures multiset(r) == multiset(s) && InOrder(r)
  {
    r := [];
    for i := 0 to |s|
      invariant multiset(r) == multiset(s[..i]) && InOrder(r)
    {
      var j := |r|;
      while j > 0 && !AtMost(r[j - 1], s[i])
        invariant 0 <= j <= |r|
        invariant forall k :: j <= k < |r| ==> AtMost(s[i], r[k])
      {
        AtMostTotal(r[j - 1], s[i]);
        j := j - 1;
      }
      Inserted(r, j, s[i]);
      InsertedCounts(r, j, s[i]);
      assert s[..i + 1] == s[..i] + [s[i]];
      r := r[..j] + [s[i]] + r[j..];
    }
    assert s[..|s|] == s;
  }

  lemma Inserted(r: seq<string>, j: nat, x: string)
    requires InOrder(r) && j <= |r|
    requires j > 0 ==> AtMost(r[j - 1], x)
    requires forall k :: j <= k < |r| ==> AtMost(x, r[k])
    ensures InOrder(r[..j] + [x] + r[j..])
  {
    forall k | 0 <= k < j
      ensures AtMost(r[k], x)
    {
      if k < j - 1 {
        AtMostTransitive(r[k], r[j - 1], x);
      }
    }
  }

  lemma InsertedCounts(r: seq<string>, j: nat, x: string)
    requires j <= |r|
    ensures multiset(r[..j] + [x] + r[j..]) == multiset(r) + multiset{x}
  {
    assert r == r[..j] + r[j..];
  }

  method UnsatisfiableKeys(pods: seq<Requirement>, pools: seq<seq<Requirement>>) returns (r: seq<string>)
    ensures multiset(r) == multiset(Refused(pods, pools)) && InOrder(r)
  {
    r := [];
    for i := 0 to |pods|
      invariant r == Refused(pods[..i], pools)
    {
      assert pods[..i + 1][..i] == pods[..i];
      var anyPoolQualifies := false;
      for j := 0 to |pools|
        invariant !anyPoolQualifies && forall k :: 0 <= k < j ==> !CanPossiblySatisfy(pools[k], pods[i])
      {
        var ok := NodePoolCanPossiblySatisfy(pools[j], pods[i]);
        if ok {
          anyPoolQualifies := true;
          break;
        }
      }
      if !anyPoolQualifies {
        r := r + [pods[i].key];
      }
    }
    assert pods[..|pods|] == pods;
    r := SortStrings(r);
  }

  /** The first of the Pod's keys that the pool fails on, or "". */
  method DisqualifyingKey(pool: seq<Requirement>, pods: seq<Requirement>) returns (r: string)
    ensures (r == "" && forall i :: 0 <= i < |pods| ==> CanPossiblySatisfy(pool, pods[i])) ||
            exists i :: 0 <= i < |pods| && !CanPossiblySatisfy(pool, pods[i]) && r == pods[i].key
                        && forall j :: 0 <= j < i ==> CanPossiblySatisfy(pool, pods[j])
  {
    for i := 0 to |pods|
      invariant forall j :: 0 <= j < i ==> CanPossiblySatisfy(pool, pods[j])
    {
      var ok := NodePoolCanPossiblySatisfy(pool, pods[i]);
      if !ok {
        return pods[i].key;
      }
    }
    return "";
  }

  lemma {:induction false} RefusedExact(pods: seq<Requirement>, pools: seq<seq<Requirement>>, key: string)
    ensures key in Refused(pods, pools) <==>
            exists i :: 0 <= i < |pods| && pods[i].key == key && !AnyPoolQualifies(pools, pods[i])
  {
    if pods != [] {
      var n := |pods| - 1;
      var front := pods[..n];
      RefusedExact(front, pools, key);
      assert forall i :: 0 <= i < n ==> front[i] == pods[i];
      if !AnyPoolQualifies(pools, pods[n]) && pods[n].key == key {
        assert key in Refused(pods, pools);
      }
    }
  }

  /**
    If every pool declares a key reported for a Pod, no node of any pool meets the Pod's nodeSelector
    and required node affinity: whatever its labels and fields, it fails the pool or the Pod.
   */
  lemma UnsatisfiableKeySound(
      nodeSelector: map<string, string>, terms: seq<Option<Term>>, pools: seq<seq<Requirement>>, key: string,
      pool: seq<Requirement>, labels: Labels, fields: map<string, string>)
    requires key in Refused(HardConstraints(nodeSelector, terms), pools)
    requires forall i :: 0 <= i < |pools| ==> Declares(pools[i], key)
    requires pool in pools
    ensures !(Fits(nodeSelector, terms, labels, fields) && PoolMet(pool, labels))
  {
    var pods := HardConstraints(nodeSelector, terms);
    RefusedExact(pods, pools, key);
    var i :| 0 <= i < |pods| && pods[i].key == key && !AnyPoolQualifies(pools, pods[i]);
    var j :| 0 <= j < |pools| && pools[j] == pool;
    assert !CanPossiblySatisfy(pools[j], pods[i]);
    HardConstraintsNecessary(nodeSelector, terms, labels, fields);
    RefusalExact(pool, pods[i]);
    if Fits(nodeSelector, terms, labels, fields) && PoolMet(pool, labels) {
      assert PodMet(pods[i], labels) && PoolMet(pool, labels);
    }
  }
}
