/**
  Whether a namespace's quotas have room for the Pods a rollout still has to create.  Quantities are
  exact integers.
 */
module Quota {
  import opened Wrappers
  import opened Ordering

  type Amounts = map<string, int>

  /** `scoped` quotas apply to some Pods only. */
  datatype ResourceQuota = ResourceQuota(name: string, scoped: bool, hard: Amounts, used: Amounts)

  datatype Shortfall = Shortfall(resource: string, need: int, free: int, used: int, hard: int)

  datatype QuotaShortfalls = QuotaShortfalls(name: string, shortfalls: seq<Shortfall>)

  datatype Report = Report(extraPods: int, quotas: seq<QuotaShortfalls>)

  // ----- the Pods still to create

  datatype IntOrPercent = Count(n: int) | Percent(p: int) | Malformed

  datatype Workload =
    | Deployment(replicas: Option<int>, rolling: bool, maxSurge: Option<IntOrPercent>, running: int)
    | StatefulSet(replicas: Option<int>, running: int)
    | OtherKind

  function CeilDiv(a: int, b: int): (r: int)
    requires b > 0
    ensures (r - 1) * b < a <= r * b
  {
    -((-a) / b)
  }

  /** Percentages round up; a malformed one is zero. */
  function ScaledUp(v: IntOrPercent, total: int): int {
    match v
    case Count(n) => n
    case Percent(p) => CeilDiv(p * total, 100)
    case Malformed => 0
  }

  /** None for a kind that has no Pod template to speak of. */
  function RolloutPendingPods(w: Workload): Option<int> {
    match w
    case Deployment(replicas, rolling, maxSurge, running) =>
      var desired := if replicas.Some? then replicas.value else 1;
      var surge := if rolling then ScaledUp(if maxSurge.Some? then maxSurge.value else Percent(25), desired) else 0;
      Some(desired + surge - running)
    case StatefulSet(replicas, running) => Some((if replicas.Some? then replicas.value else 1) - running)
    case OtherKind => None
  }

  /**
    Together with the running Pods, the pending ones are the desired ones (one if unset) and, for a rolling
    Deployment, the surge: a count as it is, a percentage (25 if unset) rounded up to whole Pods.
   */
  lemma PendingExact(w: Workload)
    ensures RolloutPendingPods(w).None? <==> w.OtherKind?
    ensures var pending := RolloutPendingPods(w);
            !w.OtherKind? ==>
              var desired := if w.replicas.Some? then w.replicas.value else 1;
              var surge := pending.value + w.running - desired;
              && (w.StatefulSet? || !w.rolling ==> surge == 0)
              && (w.Deployment? && w.rolling ==>
                    match w.maxSurge
                    case None => 100 * (surge - 1) < 25 * desired <= 100 * surge
                    case Some(Count(n)) => surge == n
                    case Some(Percent(p)) => 100 * (surge - 1) < p * desired <= 100 * surge
                    case Some(Malformed) => surge == 0)
  {
  }

  // ----- what one Pod consumes

  const REQUESTS := "requests."
  const LIMITS := "limits."

  /** None for a resource the Pod does not ask for. */
  function QuotaResourcePerPod(resource: string, requests: Amounts, limits: Amounts): (r: Option<int>)
    ensures r.Some? ==> r.value != 0
  {
    if resource == "pods" then Some(1)
    else
      var amounts := if !(REQUESTS <= resource) && LIMITS <= resource then limits else requests;
      var name :=
        if REQUESTS <= resource then resource[|REQUESTS|..]
        else if LIMITS <= resource then resource[|LIMITS|..] else resource;
      if name in amounts && amounts[name] != 0 then Some(amounts[name]) else None
  }

  /** The amount for the resource, unless it is missing or zero. */
  function Asked(amounts: Amounts, n: string): Option<int> {
    if n in amounts && amounts[n] != 0 then Some(amounts[n]) else None
  }

  /** Quota names: "requests." and plain ones count requests, "limits." counts limits, and "pods" counts Pods. */
  lemma QuotaNames(n: string, requests: Amounts, limits: Amounts)
    ensures QuotaResourcePerPod("requests." + n, requests, limits) == Asked(requests, n)
    ensures QuotaResourcePerPod("limits." + n, requests, limits) == Asked(limits, n)
    ensures n != "pods" && !("requests." <= n) && !("limits." <= n) ==>
              QuotaResourcePerPod(n, requests, limits) == Asked(requests, n)
    ensures QuotaResourcePerPod("pods", requests, limits) == Some(1)
  {
    var r, l := REQUESTS + n, LIMITS + n;
    assert r[|REQUESTS|..] == n && l[|LIMITS|..] == n;
    assert r[0] == 'r' && l[0] == 'l';
    assert REQUESTS <= r && LIMITS <= l;
  }

  method MultiplyQuantity(quantity: int, count: int) returns (total: int)
    ensures total == if count >= 1 then quantity * count else quantity
  {
    total := quantity;
    var i := 1;
    while i < count
      invariant i >= 1 && (count >= 1 ==> i <= count) && (count < 1 ==> i == 1)
      invariant total == quantity * i
    {
      total := total + quantity;
      i := i + 1;
    }
  }

  /** The resources of a quota the rollout consumes and the quota controller has reported on, with the amount per Pod. */
  function Consumed(q: ResourceQuota, requests: Amounts, limits: Amounts): Amounts {
    map r | r in q.hard && r in q.used && QuotaResourcePerPod(r, requests, limits).Some?
      :: QuotaResourcePerPod(r, requests, limits).value
  }

  function Max0(n: int): int {
    if n < 0 then 0 else n
  }

  /** The resource falls short of `pods` more Pods. */
  predicate Short(q: ResourceQuota, consumed: Amounts, pods: int, r: string)
    requires r in consumed ==> r in q.hard && r in q.used
  {
    r in consumed && consumed[r] * pods > Max0(q.hard[r] - q.used[r])
  }

  function ShortfallOf(q: ResourceQuota, consumed: Amounts, pods: int, r: string): Shortfall
    requires r in consumed && r in q.hard && r in q.used
  {
    Shortfall(r, consumed[r] * pods, Max0(q.hard[r] - q.used[r]), q.used[r], q.hard[r])
  }

  predicate Tracks(q: ResourceQuota, consumed: Amounts) {
    forall r :: r in consumed ==> r in q.hard && r in q.used
  }

  /** The shortfalls among `names`, in their order. */
  function Shortfalls(q: ResourceQuota, consumed: Amounts, pods: int, names: seq<string>): seq<Shortfall>
    requires Tracks(q, consumed)
  {
    if names == [] then []
    else
      var n := |names| - 1;
      Shortfalls(q, consumed, pods, names[..n])
      + (if Short(q, consumed, pods, names[n]) then [ShortfallOf(q, consumed, pods, names[n])] else [])
  }

  function QuotaReport(q: ResourceQuota, requests: Amounts, limits: Amounts, pods: int): seq<Shortfall> {
    Shortfalls(q, Consumed(q, requests, limits), pods, Sorted(q.hard.Keys))
  }

  function Reports(quotas: seq<ResourceQuota>, requests: Amounts, limits: Amounts, pods: int): seq<QuotaShortfalls> {
    if quotas == [] then []
    else
      var n := |quotas| - 1;
      var short := QuotaReport(quotas[n], requests, limits, pods);
      Reports(quotas[..n], requests, limits, pods)
      + (if !quotas[n].scoped && short != [] then [QuotaShortfalls(quotas[n].name, short)] else [])
  }

  method OneResource(q: ResourceQuota, name: string, requests: Amounts, limits: Amounts, pods: int) returns (s: Option<Shortfall>)
    requires pods > 0 && name in q.hard
    ensures var consumed := Consumed(q, requests, limits);
            s == if Short(q, consumed, pods, name) then Some(ShortfallOf(q, consumed, pods, name)) else None
  {
    if name !in q.used {
      return None;
    }
    var perPod := QuotaResourcePerPod(name, requests, limits);
    if perPod.None? {
      return None;
    }
    var need := MultiplyQuantity(perPod.value, pods);
    var hard := q.hard[name];
    var free := hard - q.used[name];
    if free < 0 {
      free := 0;
    }
    if need <= free {
      return None;
    }
    return Some(Shortfall(name, need, free, q.used[name], hard));
  }

  method OneQuota(q: ResourceQuota, requests: Amounts, limits: Amounts, pods: int) returns (shortfalls: seq<Shortfall>)
    requires pods > 0
    ensures shortfalls == QuotaReport(q, requests, limits, pods)
  {
    shortfalls := [];
    var names := Sorted(q.hard.Keys);
    ghost var consumed := Consumed(q, requests, limits);
    for i := 0 to |names|
      invariant shortfalls == Shortfalls(q, consumed, pods, names[..i])
    {
      assert names[..i + 1][..i] == names[..i] && names[i] in names;
      var s := OneResource(q, names[i], requests, limits, pods);
      if s.Some? {
        shortfalls := shortfalls + [s.value];
      }
    }
    assert names[..|names|] == names;
  }

  method QuotaRolloutHeadroom(quotas: seq<ResourceQuota>, w: Workload, requests: Amounts, limits: Amounts) returns (report: Report)
    ensures var pending := RolloutPendingPods(w);
            var extra := if pending.Some? then pending.value else 0;
            report == Report(extra, if extra > 0 then Reports(quotas, requests, limits, extra) else [])
  {
    var pending := RolloutPendingPods(w);
    if pending.None? {
      return Report(0, []);
    }
    var extraPods := pending.value;
    report := Report(extraPods, []);
    if extraPods <= 0 {
      return;
    }
    for i := 0 to |quotas|
      invariant report == Report(extraPods, Reports(quotas[..i], requests, limits, extraPods))
    {
      assert quotas[..i + 1][..i] == quotas[..i];
      if quotas[i].scoped {
        continue;
      }
      var shortfalls := OneQuota(quotas[i], requests, limits, extraPods);
      if |shortfalls| > 0 {
        report := report.(quotas := report.quotas + [QuotaShortfalls(quotas[i].name, shortfalls)]);
      }
    }
    assert quotas[..|quotas|] == quotas;
  }

  // ----- admitting the Pods one at a time

  /** One more Pod fits: no resource it consumes goes over its limit. */
  predicate FitsOne(hard: Amounts, used: Amounts, consumed: Amounts) {
    forall r :: r in consumed && r in hard && r in used ==> used[r] + consumed[r] <= hard[r]
  }

  function Admit(used: Amounts, consumed: Amounts): Amounts {
    map r | r in used :: if r in consumed then used[r] + consumed[r] else used[r]
  }

  /** The quota admits `pods` Pods, one after the other. */
  predicate AdmitsAll(hard: Amounts, used: Amounts, consumed: Amounts, pods: nat) {
    pods == 0 || (FitsOne(hard, used, consumed) && AdmitsAll(hard, Admit(used, consumed), consumed, pods - 1))
  }

  predicate Positive(consumed: Amounts) {
    forall r :: r in consumed ==> consumed[r] > 0
  }

  predicate RoomFor(hard: Amounts, used: Amounts, consumed: Amounts, pods: nat) {
    forall r :: r in consumed && r in hard && r in used ==> consumed[r] * pods <= Max0(hard[r] - used[r])
  }

  /** The closed form agrees with the run, also where more is used than allowed. */
  lemma {:induction false} RoomExact(hard: Amounts, used: Amounts, consumed: Amounts, pods: nat)
    requires Positive(consumed)
    ensures AdmitsAll(hard, used, consumed, pods) <==> RoomFor(hard, used, consumed, pods)
    decreases pods
  {
    if pods > 0 {
      var next := Admit(used, consumed);
      RoomExact(hard, next, consumed, pods - 1);
      forall r | r in consumed && r in hard && r in used
        ensures consumed[r] * pods <= Max0(hard[r] - used[r]) <==>
                used[r] + consumed[r] <= hard[r] && consumed[r] * (pods - 1) <= Max0(hard[r] - next[r])
      {
        OneMore(hard[r], used[r], consumed[r], pods);
      }
    }
  }

  lemma OneMore(hard: int, used: int, perPod: int, pods: nat)
    requires perPod > 0 && pods > 0
    ensures perPod * pods <= Max0(hard - used) <==>
            used + perPod <= hard && perPod * (pods - 1) <= Max0(hard - (used + perPod))
  {
    assert perPod * pods == perPod * (pods - 1) + perPod;
    assert perPod * (pods - 1) >= 0;
  }

  lemma {:induction false} ShortfallsExact(q: ResourceQuota, consumed: Amounts, pods: int, names: seq<string>)
    requires Tracks(q, consumed)
    ensures Shortfalls(q, consumed, pods, names) == [] <==> forall r :: r in names ==> !Short(q, consumed, pods, r)
  {
    if names != [] {
      var n := |names| - 1;
      ShortfallsExact(q, consumed, pods, names[..n]);
      assert forall r :: r in names <==> r in names[..n] || r == names[n];
    }
  }

  /** What is reported of a resource: what the Pods need, over what is free below the limit. */
  predicate TellsOf(q: ResourceQuota, consumed: Amounts, pods: int, s: Shortfall) {
    && s.resource in consumed && s.resource in q.hard && s.resource in q.used
    && s.need == consumed[s.resource] * pods && s.hard == q.hard[s.resource] && s.used == q.used[s.resource]
    && s.free == (if s.used < s.hard then s.hard - s.used else 0) && s.need > s.free
  }

  /** The shortfalls of one quota: each resource short of its need, in order of name. */
  ghost predicate Tells(q: ResourceQuota, consumed: Amounts, pods: int, names: seq<string>, ss: seq<Shortfall>) {
    && (forall s :: s in ss <==> s.resource in names && TellsOf(q, consumed, pods, s))
    && forall i, j :: 0 <= i < j < |ss| ==> ss[i].resource != ss[j].resource && AtMost(ss[i].resource, ss[j].resource)
  }

  lemma TellsMore(q: ResourceQuota, consumed: Amounts, pods: int, names: seq<string>, name: string, ss: seq<Shortfall>, s: Shortfall)
    requires Tells(q, consumed, pods, names, ss) && TellsOf(q, consumed, pods, s) && s.resource == name
    requires forall x :: x in names ==> x != name && AtMost(x, name)
    ensures Tells(q, consumed, pods, names + [name], ss + [s])
  {
    var more := ss + [s];
    forall i, j | 0 <= i < j < |more|
      ensures more[i].resource != more[j].resource && AtMost(more[i].resource, more[j].resource)
    {
      if j == |ss| {
        assert ss[i] in ss;
      }
    }
    forall x
      ensures x in more <==> x.resource in names + [name] && TellsOf(q, consumed, pods, x)
    {
      assert x in more <==> x in ss || x == s;
    }
  }

  lemma {:induction false} ShortfallsTell(q: ResourceQuota, consumed: Amounts, pods: int, names: seq<string>)
    requires Tracks(q, consumed) && Ascending(names)
    ensures Tells(q, consumed, pods, names, Shortfalls(q, consumed, pods, names))
  {
    if names != [] {
      var n := |names| - 1;
      var front, name := names[..n], names[n];
      forall i, j | 0 <= i < j < n
        ensures front[i] != front[j] && AtMost(front[i], front[j])
      {
        assert AtMost(names[i], names[j]);
      }
      ShortfallsTell(q, consumed, pods, front);
      forall x | x in front
        ensures x != name && AtMost(x, name)
      {
        var i :| 0 <= i < n && names[i] == x;
        assert AtMost(names[i], names[n]);
      }
      assert names == front + [name];
      if Short(q, consumed, pods, name) {
        TellsMore(q, consumed, pods, front, name, Shortfalls(q, consumed, pods, front), ShortfallOf(q, consumed, pods, name));
      } else {
        assert Shortfalls(q, consumed, pods, names) == Shortfalls(q, consumed, pods, front);
      }
    }
  }

  /** A quota's report names exactly the resources it falls short of, with their figures, in order. */
  lemma QuotaReportTells(q: ResourceQuota, requests: Amounts, limits: Amounts, pods: int)
    ensures Tells(q, Consumed(q, requests, limits), pods, Sorted(q.hard.Keys), QuotaReport(q, requests, limits, pods))
  {
    ShortfallsTell(q, Consumed(q, requests, limits), pods, Sorted(q.hard.Keys));
  }

  predicate NonNegative(a: Amounts) {
    forall r :: r in a ==> a[r] >= 0
  }

  lemma NoneShort(q: ResourceQuota, consumed: Amounts, pods: nat, names: seq<string>)
    requires Tracks(q, consumed) && forall r :: r in q.hard ==> r in names
    ensures Shortfalls(q, consumed, pods, names) == [] <==> RoomFor(q.hard, q.used, consumed, pods)
  {
    ShortfallsExact(q, consumed, pods, names);
    assert forall r :: r in consumed ==> (Short(q, consumed, pods, r) <==> !(consumed[r] * pods <= Max0(q.hard[r] - q.used[r])));
  }

  predicate Admits(q: ResourceQuota, requests: Amounts, limits: Amounts, pods: nat) {
    AdmitsAll(q.hard, q.used, Consumed(q, requests, limits), pods)
  }

  lemma ConsumedPositive(q: ResourceQuota, requests: Amounts, limits: Amounts)
    requires NonNegative(requests) && NonNegative(limits)
    ensures Positive(Consumed(q, requests, limits))
  {
  }

  /** No shortfall is reported for a quota exactly when it admits the pending Pods one at a time. */
  lemma QuotaReportExact(q: ResourceQuota, requests: Amounts, limits: Amounts, pods: nat)
    requires NonNegative(requests) && NonNegative(limits)
    ensures QuotaReport(q, requests, limits, pods) == [] <==> Admits(q, requests, limits, pods)
  {
    ConsumedPositive(q, requests, limits);
    NoneShort(q, Consumed(q, requests, limits), pods, Sorted(q.hard.Keys));
    RoomExact(q.hard, q.used, Consumed(q, requests, limits), pods);
  }

  predicate AllAdmit(quotas: seq<ResourceQuota>, requests: Amounts, limits: Amounts, pods: nat) {
    forall i :: 0 <= i < |quotas| && !quotas[i].scoped ==> Admits(quotas[i], requests, limits, pods)
  }

  lemma AllAdmitMore(front: seq<ResourceQuota>, q: ResourceQuota, requests: Amounts, limits: Amounts, pods: nat)
    ensures AllAdmit(front + [q], requests, limits, pods) <==>
            AllAdmit(front, requests, limits, pods) && (q.scoped || Admits(q, requests, limits, pods))
  {
    var all := front + [q];
    assert all[|front|] == q;
    assert forall i :: 0 <= i < |front| ==> front[i] == all[i];
  }

  lemma ReportsMore(front: seq<ResourceQuota>, q: ResourceQuota, requests: Amounts, limits: Amounts, pods: nat)
    ensures Reports(front + [q], requests, limits, pods) == [] <==>
            Reports(front, requests, limits, pods) == [] && (q.scoped || QuotaReport(q, requests, limits, pods) == [])
  {
    var short := QuotaReport(q, requests, limits, pods);
    var more := if !q.scoped && short != [] then [QuotaShortfalls(q.name, short)] else [];
    assert (front + [q])[..|front|] == front;
    assert Reports(front + [q], requests, limits, pods) == Reports(front, requests, limits, pods) + more;
  }

  lemma OneMoreQuota(front: seq<ResourceQuota>, q: ResourceQuota, requests: Amounts, limits: Amounts, pods: nat)
    requires NonNegative(requests) && NonNegative(limits)
    requires Reports(front, requests, limits, pods) == [] <==> AllAdmit(front, requests, limits, pods)
    ensures Reports(front + [q], requests, limits, pods) == [] <==> AllAdmit(front + [q], requests, limits, pods)
  {
    QuotaReportExact(q, requests, limits, pods);
    ReportsMore(front, q, requests, limits, pods);
    AllAdmitMore(front, q, requests, limits, pods);
  }

  /** Nothing is reported for a namespace exactly when every unscoped quota admits the pending Pods. */
  lemma {:induction false} ReportsExact(quotas: seq<ResourceQuota>, requests: Amounts, limits: Amounts, pods: nat)
    requires NonNegative(requests) && NonNegative(limits)
    ensures Reports(quotas, requests, limits, pods) == [] <==> AllAdmit(quotas, requests, limits, pods)
  {
    if quotas != [] {
      var front, q := quotas[..|quotas| - 1], quotas[|quotas| - 1];
      ReportsExact(front, requests, limits, pods);
      OneMoreQuota(front, q, requests, limits, pods);
      assert front + [q] == quotas;
    }
  }
}
