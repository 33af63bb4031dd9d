/**
  The Pod an OrderedReady rollout is stuck at: one unordered pass over the Pods finds the one that
  counting the ordinals upwards would stop at.
 */
module Rollback {
  import opened Wrappers
  import opened Strings
  import opened Sequences

  /** `unreadySince` is None when neither the condition nor the Pod has a time. */
  datatype Pod = Pod(name: string, ready: bool, terminating: bool, revision: string, unreadySince: Option<int>)

  datatype Params = Params(
    namePrefix: string, startOrdinal: int, replicas: int, partition: int, updateRevision: string, threshold: int, now: int)

  function Ordinal(namePrefix: string, podName: string): Option<int> {
    if namePrefix <= podName then ParseInt64(podName[|namePrefix|..]) else None
  }

  /** A Pod of the replica range that is not ready. */
  predicate Candidate(p: Pod, q: Params) {
    var o := Ordinal(q.namePrefix, p.name);
    o.Some? && q.startOrdinal <= o.value < q.startOrdinal + q.replicas && !p.ready
  }

  function OrdinalOf(p: Pod, q: Params): int
    requires Candidate(p, q)
  {
    Ordinal(q.namePrefix, p.name).value
  }

  /** The last of the candidates with the least ordinal. */
  function Least(pods: seq<Pod>, q: Params): Option<Pod> {
    if pods == [] then None
    else
      var n := |pods| - 1;
      var least := Least(pods[..n], q);
      if Candidate(pods[n], q) && (least.None? || !Candidate(least.value, q) || OrdinalOf(pods[n], q) <= OrdinalOf(least.value, q))
      then Some(pods[n]) else least
  }

  /** The partition, revision, termination and age tests the Pod found must pass. */
  predicate Explains(p: Pod, q: Params)
    requires Candidate(p, q)
  {
    && OrdinalOf(p, q) >= q.partition
    && !p.terminating
    && p.revision != "" && p.revision != q.updateRevision
    && p.unreadySince.Some? && q.now - p.unreadySince.value >= q.threshold
  }

  lemma {:induction false} LeastExact(pods: seq<Pod>, q: Params)
    ensures Least(pods, q).Some? ==>
              var p := Least(pods, q).value;
              && p in pods && Candidate(p, q)
              && forall i :: 0 <= i < |pods| && Candidate(pods[i], q) ==> OrdinalOf(p, q) <= OrdinalOf(pods[i], q)
    ensures Least(pods, q).None? ==> forall i :: 0 <= i < |pods| ==> !Candidate(pods[i], q)
  {
    if pods != [] {
      var n := |pods| - 1;
      var front := pods[..n];
      LeastExact(front, q);
      assert forall i :: 0 <= i < n ==> pods[i] == front[i];
    }
  }

  // ----- the pass

  /** The Pod kept so far and its ordinal; a negative ordinal stands for none. */
  datatype Kept = Kept(pod: Option<Pod>, ordinal: int)

  function Pass(pods: seq<Pod>, q: Params): Kept {
    if pods == [] then Kept(None, -1)
    else
      var n := |pods| - 1;
      var kept := Pass(pods[..n], q);
      if !Candidate(pods[n], q) || (kept.ordinal >= 0 && OrdinalOf(pods[n], q) > kept.ordinal) then kept
      else Kept(Some(pods[n]), OrdinalOf(pods[n], q))
  }

  predicate Reported(kept: Kept, q: Params) {
    kept.ordinal >= 0 && kept.pod.Some? && Candidate(kept.pod.value, q) && Explains(kept.pod.value, q)
  }

  lemma {:induction false} PassKeeps(pods: seq<Pod>, q: Params)
    ensures var kept := Pass(pods, q);
            if kept.pod.Some? then Candidate(kept.pod.value, q) && OrdinalOf(kept.pod.value, q) == kept.ordinal else kept.ordinal == -1
  {
    if pods != [] {
      PassKeeps(pods[..|pods| - 1], q);
    }
  }

  /** What the source returns: the Pod kept, if it passes every test. */
  function Result(pods: seq<Pod>, q: Params): Option<Pod> {
    if Reported(Pass(pods, q), q) then Pass(pods, q).pod else None
  }

  method StatefulSetRollbackTrapBlocker(pods: seq<Pod>, q: Params) returns (blocker: Option<Pod>)
    ensures blocker == Result(pods, q)
  {
    var found: Option<Pod> := None;
    var blockerOrdinal := -1;
    for i := 0 to |pods|
      invariant Kept(found, blockerOrdinal) == Pass(pods[..i], q)
    {
      var pod := pods[i];
      assert pods[..i + 1][..i] == pods[..i];
      var ordinal := Ordinal(q.namePrefix, pod.name);
      if ordinal.None? || ordinal.value < q.startOrdinal || ordinal.value >= q.startOrdinal + q.replicas {
        continue;
      }
      if blockerOrdinal >= 0 && ordinal.value > blockerOrdinal {
        continue;
      }
      if pod.ready {
        continue;
      }
      found, blockerOrdinal := Some(pod), ordinal.value;
    }
    assert pods[..|pods|] == pods;
    PassKeeps(pods, q);
    if blockerOrdinal < 0 || blockerOrdinal < q.partition {
      return None;
    }
    var p := found.value;
    if p.terminating || p.revision == "" || p.revision == q.updateRevision {
      return None;
    }
    if p.unreadySince.None? || q.now - p.unreadySince.value < q.threshold {
      return None;
    }
    return found;
  }

  predicate FromZero(pods: seq<Pod>, q: Params) {
    forall i :: 0 <= i < |pods| && Candidate(pods[i], q) ==> OrdinalOf(pods[i], q) >= 0
  }

  /** With ordinals from zero on, the pass ends with the last of the candidates of least ordinal. */
  lemma {:induction false} PassIsLeast(pods: seq<Pod>, q: Params)
    requires FromZero(pods, q)
    ensures Pass(pods, q).pod == Least(pods, q)
  {
    if pods != [] {
      var front := pods[..|pods| - 1];
      PassKeeps(front, q);
      LeastExact(front, q);
      PassIsLeast(front, q);
    }
  }

  /**
    The Pod of least ordinal is the one reported exactly when its ordinal is not negative and it passes
    every test.  Where the range starts from zero on, no other Pod is ever reported.
   */
  lemma LeastReported(pods: seq<Pod>, q: Params)
    ensures Reported(Pass(pods, q), q) && Pass(pods, q).pod == Least(pods, q) <==>
            var p := Least(pods, q); p.Some? && Candidate(p.value, q) && OrdinalOf(p.value, q) >= 0 && Explains(p.value, q)
    ensures q.startOrdinal >= 0 ==>
              FromZero(pods, q) && (Reported(Pass(pods, q), q) ==> Pass(pods, q).pod == Least(pods, q))
  {
    PassKeeps(pods, q);
    LeastExact(pods, q);
    if FromZero(pods, q) {
      PassIsLeast(pods, q);
    }
  }

  /** A candidate of negative ordinal makes the pass go on as if nothing had been found before. */
  lemma {:induction false} NegativeForgets(front: seq<Pod>, p: Pod, back: seq<Pod>, q: Params)
    requires Candidate(p, q) && OrdinalOf(p, q) < 0
    ensures var kept, alone := Pass(front + [p] + back, q), Pass(back, q);
            if alone.pod.Some? then kept == alone else kept.ordinal < 0
    decreases |back|
  {
    var all := front + [p] + back;
    if back == [] {
      assert all[..|all| - 1] == front && all[|all| - 1] == p;
      PassKeeps(front, q);
    } else {
      var n := |back| - 1;
      assert all[..|all| - 1] == front + [p] + back[..n] && all[|all| - 1] == back[n];
      NegativeForgets(front, p, back[..n], q);
      PassKeeps(back[..n], q);
    }
  }

  /**
    Whatever the list, a candidate of negative ordinal, which a negative start admits, is not reported,
    nor is any Pod before it.
   */
  lemma NegativeNotReported(front: seq<Pod>, p: Pod, back: seq<Pod>, q: Params)
    requires Candidate(p, q) && OrdinalOf(p, q) < 0
    ensures var kept := Pass(front + [p] + back, q);
            Reported(kept, q) ==> kept == Pass(back, q) && kept.pod != Some(p)
  {
    NegativeForgets(front, p, back, q);
    PassKeeps(back, q);
  }

  // ----- counting upwards

  predicate StopsAt(pods: seq<Pod>, q: Params, o: int) {
    exists i :: 0 <= i < |pods| && Candidate(pods[i], q) && OrdinalOf(pods[i], q) == o
  }

  /** The first ordinal from `o` on that has a Pod of the range that is not ready. */
  function CountUp(pods: seq<Pod>, q: Params, o: int): Option<int>
    decreases q.startOrdinal + q.replicas - o
  {
    if o >= q.startOrdinal + q.replicas then None
    else if StopsAt(pods, q, o) then Some(o)
    else CountUp(pods, q, o + 1)
  }

  lemma {:induction false} CountUpFrom(pods: seq<Pod>, q: Params, o: int)
    requires forall i :: 0 <= i < |pods| && Candidate(pods[i], q) ==> o <= OrdinalOf(pods[i], q)
    ensures var least := Least(pods, q);
            CountUp(pods, q, o) == if least.Some? && Candidate(least.value, q) then Some(OrdinalOf(least.value, q)) else None
    decreases q.startOrdinal + q.replicas - o
  {
    LeastExact(pods, q);
    var least := Least(pods, q);
    if o < q.startOrdinal + q.replicas && !StopsAt(pods, q, o) {
      CountUpFrom(pods, q, o + 1);
    } else if least.Some? {
      var i :| 0 <= i < |pods| && pods[i] == least.value;
      assert Candidate(pods[i], q);
    }
  }

  /** The one pass finds a Pod at the ordinal the upward count stops at, and none when it stops nowhere. */
  lemma OnePassCountsUp(pods: seq<Pod>, q: Params)
    ensures var least := Least(pods, q);
            && (least.Some? ==> Candidate(least.value, q))
            && CountUp(pods, q, q.startOrdinal) == if least.Some? then Some(OrdinalOf(least.value, q)) else None
  {
    LeastExact(pods, q);
    CountUpFrom(pods, q, q.startOrdinal);
  }

  // ----- order of the list

  predicate LeastCandidate(pods: seq<Pod>, q: Params, i: nat)
    requires i < |pods|
  {
    Candidate(pods[i], q) &&
    forall j :: 0 <= j < |pods| && Candidate(pods[j], q) ==> OrdinalOf(pods[i], q) <= OrdinalOf(pods[j], q)
  }

  /** The candidates of least ordinal are one and the same Pod. */
  predicate OneLeast(pods: seq<Pod>, q: Params) {
    forall i, j :: 0 <= i < |pods| && 0 <= j < |pods| && LeastCandidate(pods, q, i) && LeastCandidate(pods, q, j) ==>
                     pods[i] == pods[j]
  }

  /** Whatever the order of the list, the same is returned. */
  ghost predicate AnyOrder(pods: seq<Pod>, q: Params) {
    forall pods' :: multiset(pods') == multiset(pods) ==> Result(pods', q) == Result(pods, q)
  }

  /** No candidate of least ordinal passes the tests. */
  predicate NoLeastExplains(pods: seq<Pod>, q: Params) {
    forall i :: 0 <= i < |pods| && LeastCandidate(pods, q, i) ==> !Explains(pods[i], q)
  }

  /** No candidate of an ordinal from zero on passes the tests. */
  predicate NoneExplains(pods: seq<Pod>, q: Params) {
    forall i :: 0 <= i < |pods| && Candidate(pods[i], q) && OrdinalOf(pods[i], q) >= 0 ==> !Explains(pods[i], q)
  }

  /** What makes a list's order irrelevant: without candidates of negative ordinal, and with some. */
  predicate OrderFree(pods: seq<Pod>, q: Params) {
    if FromZero(pods, q) then OneLeast(pods, q) || NoLeastExplains(pods, q) else NoneExplains(pods, q)
  }

  /** The order of the list does not matter exactly when it is order free. */
  lemma OrderIrrelevantIff(pods: seq<Pod>, q: Params)
    ensures AnyOrder(pods, q) <==> OrderFree(pods, q)
  {
    if FromZero(pods, q) {
      OrderFromZero(pods, q);
    } else {
      OrderWithNegative(pods, q);
    }
  }

  predicate DistinctOrdinals(pods: seq<Pod>, q: Params) {
    forall i, j :: 0 <= i < j < |pods| && Candidate(pods[i], q) && Candidate(pods[j], q) ==>
                     OrdinalOf(pods[i], q) != OrdinalOf(pods[j], q)
  }

  lemma DistinctOneLeast(pods: seq<Pod>, q: Params)
    requires DistinctOrdinals(pods, q)
    ensures OneLeast(pods, q)
  {
  }

  /** With distinct ordinals, from zero on, the order of the list does not matter. */
  lemma OrderIrrelevant(pods: seq<Pod>, q: Params)
    requires DistinctOrdinals(pods, q) && q.startOrdinal >= 0
    ensures AnyOrder(pods, q)
  {
    DistinctOneLeast(pods, q);
    OrderIrrelevantIff(pods, q);
  }

  // without negative ordinals

  lemma ResultFromZero(pods: seq<Pod>, q: Params)
    requires FromZero(pods, q)
    ensures var least := Least(pods, q);
            && (least.Some? ==> Candidate(least.value, q))
            && Result(pods, q) == if least.Some? && Explains(least.value, q) then least else None
  {
    PassKeeps(pods, q);
    LeastExact(pods, q);
    PassIsLeast(pods, q);
  }

  lemma FromZeroMoved(pods: seq<Pod>, pods': seq<Pod>, q: Params)
    requires FromZero(pods, q) && multiset(pods') == multiset(pods)
    ensures FromZero(pods', q)
  {
    SameElements(pods', pods);
    assert forall i :: 0 <= i < |pods'| ==> pods'[i] in pods;
  }

  lemma Moved(pods: seq<Pod>, i: nat) returns (rest: seq<Pod>)
    requires i < |pods|
    ensures rest == pods[..i] + pods[i + 1..] && multiset(rest + [pods[i]]) == multiset(pods)
  {
    rest := pods[..i] + pods[i + 1..];
    assert pods == pods[..i] + [pods[i]] + pods[i + 1..];
  }

  /** A least candidate put last is the one found. */
  lemma PutLast(pods: seq<Pod>, q: Params, i: nat) returns (pods': seq<Pod>)
    requires i < |pods| && LeastCandidate(pods, q, i)
    ensures multiset(pods') == multiset(pods) && Least(pods', q) == Some(pods[i])
  {
    var rest := Moved(pods, i);
    pods' := rest + [pods[i]];
    assert pods'[..|pods'| - 1] == rest;
    LeastExact(rest, q);
    var least := Least(rest, q);
    if least.Some? {
      var j := IndexOf(pods, least.value);
    }
  }

  lemma OrderFromZero(pods: seq<Pod>, q: Params)
    requires FromZero(pods, q)
    ensures AnyOrder(pods, q) <==> OneLeast(pods, q) || NoLeastExplains(pods, q)
  {
    if OneLeast(pods, q) || NoLeastExplains(pods, q) {
      forall pods' | multiset(pods') == multiset(pods)
        ensures Result(pods', q) == Result(pods, q)
      {
        SameResult(pods, pods', q);
      }
    } else {
      var i :| 0 <= i < |pods| && LeastCandidate(pods, q, i) && Explains(pods[i], q);
      var j := AnotherLeast(pods, q, i);
      var one := PutLast(pods, q, i);
      var other := PutLast(pods, q, j);
      FromZeroMoved(pods, one, q);
      FromZeroMoved(pods, other, q);
      ResultFromZero(one, q);
      ResultFromZero(other, q);
      assert Result(one, q) != Result(other, q);
    }
  }

  lemma AnotherLeast(pods: seq<Pod>, q: Params, i: nat) returns (j: nat)
    requires !OneLeast(pods, q) && i < |pods| && LeastCandidate(pods, q, i)
    ensures j < |pods| && LeastCandidate(pods, q, j) && pods[j] != pods[i]
  {
    var k, l :| 0 <= k < |pods| && 0 <= l < |pods| && LeastCandidate(pods, q, k) && LeastCandidate(pods, q, l) && pods[k] != pods[l];
    j := if pods[k] != pods[i] then k else l;
  }

  lemma SameResult(pods: seq<Pod>, pods': seq<Pod>, q: Params)
    requires FromZero(pods, q) && (OneLeast(pods, q) || NoLeastExplains(pods, q)) && multiset(pods') == multiset(pods)
    ensures Result(pods', q) == Result(pods, q)
  {
    FromZeroMoved(pods, pods', q);
    ResultFromZero(pods, q);
    ResultFromZero(pods', q);
    if OneLeast(pods, q) {
      SameLeast(pods, pods', q);
    } else {
      LeastOfMoved(pods, pods', q);
      LeastOfMoved(pods, pods, q);
    }
  }

  /** What is found in another order is a least candidate of this one. */
  lemma LeastOfMoved(pods: seq<Pod>, pods': seq<Pod>, q: Params)
    requires multiset(pods') == multiset(pods)
    ensures Least(pods', q).Some? ==> exists i :: 0 <= i < |pods| && LeastCandidate(pods, q, i) && pods[i] == Least(pods', q).value
    ensures Least(pods', q).None? ==> forall i :: 0 <= i < |pods| ==> !Candidate(pods[i], q)
  {
    LeastExact(pods', q);
    SameElements(pods', pods);
    assert forall k :: 0 <= k < |pods| ==> pods[k] in pods';
    if Least(pods', q).Some? {
      var i := IndexOf(pods, Least(pods', q).value);
      assert LeastCandidate(pods, q, i);
    }
  }

  lemma SameLeast(pods: seq<Pod>, pods': seq<Pod>, q: Params)
    requires OneLeast(pods, q) && multiset(pods') == multiset(pods)
    ensures Least(pods', q) == Least(pods, q)
  {
    LeastOfMoved(pods, pods', q);
    LeastOfMoved(pods, pods, q);
  }

  lemma IndexOf(pods: seq<Pod>, p: Pod) returns (i: nat)
    requires p in pods
    ensures i < |pods| && pods[i] == p
  {
    i :| 0 <= i < |pods| && pods[i] == p;
  }

  // with negative ordinals

  /** A Pod returned is in the list, and passes every test. */
  lemma {:induction false} KeptInList(pods: seq<Pod>, q: Params)
    ensures Pass(pods, q).pod.Some? ==> Pass(pods, q).pod.value in pods
  {
    if pods != [] {
      KeptInList(pods[..|pods| - 1], q);
    }
  }

  lemma NothingReturned(pods: seq<Pod>, pods': seq<Pod>, q: Params)
    requires NoneExplains(pods, q) && multiset(pods') == multiset(pods)
    ensures Result(pods', q) == None
  {
    PassKeeps(pods', q);
    KeptInList(pods', q);
    SameElements(pods', pods);
    if Pass(pods', q).pod.Some? {
      var i := IndexOf(pods, Pass(pods', q).pod.value);
    }
  }

  /** A candidate of negative ordinal put last: nothing is returned. */
  lemma NegativeLast(front: seq<Pod>, p: Pod, q: Params)
    requires Candidate(p, q) && OrdinalOf(p, q) < 0
    ensures Result(front + [p], q) == None
  {
    NegativeForgets(front, p, [], q);
    assert front + [p] + [] == front + [p];
  }

  /** A candidate right after one of negative ordinal, and last: it is all that counts. */
  lemma AfterNegative(front: seq<Pod>, p: Pod, c: Pod, q: Params)
    requires Candidate(p, q) && OrdinalOf(p, q) < 0
    requires Candidate(c, q) && OrdinalOf(c, q) >= 0 && Explains(c, q)
    ensures Result(front + [p] + [c], q) == Some(c)
  {
    NegativeForgets(front, p, [c], q);
    assert [c][..0] == [];
    assert Pass([c], q) == Kept(Some(c), OrdinalOf(c, q));
  }

  /** Two Pods of a list put last, one after the other. */
  lemma TwoLast(pods: seq<Pod>, p: Pod, c: Pod) returns (rest: seq<Pod>, front: seq<Pod>)
    requires p in pods && c in pods && p != c
    ensures multiset(rest + [p]) == multiset(pods) && multiset(front + [p] + [c]) == multiset(pods)
  {
    var n := IndexOf(pods, p);
    rest := Moved(pods, n);
    SameElements(rest + [p], pods);
    assert c in rest + [p];
    var j := IndexOf(rest, c);
    front := Moved(rest, j);
    assert multiset(front + [p] + [c]) == multiset(front + [c]) + multiset{p};
    assert multiset(rest + [p]) == multiset(rest) + multiset{p};
  }

  lemma HiddenOrNot(pods: seq<Pod>, p: Pod, c: Pod, q: Params)
    requires p in pods && Candidate(p, q) && OrdinalOf(p, q) < 0
    requires c in pods && Candidate(c, q) && OrdinalOf(c, q) >= 0 && Explains(c, q)
    ensures !AnyOrder(pods, q)
  {
    var rest, front := TwoLast(pods, p, c);
    NegativeLast(rest, p, q);
    AfterNegative(front, p, c, q);
    assert Result(rest + [p], q) != Result(front + [p] + [c], q);
  }

  lemma OrderWithNegative(pods: seq<Pod>, q: Params)
    requires !FromZero(pods, q)
    ensures AnyOrder(pods, q) <==> NoneExplains(pods, q)
  {
    if NoneExplains(pods, q) {
      forall pods' | multiset(pods') == multiset(pods)
        ensures Result(pods', q) == Result(pods, q)
      {
        NothingReturned(pods, pods', q);
        NothingReturned(pods, pods, q);
      }
    } else {
      var n :| 0 <= n < |pods| && Candidate(pods[n], q) && OrdinalOf(pods[n], q) < 0;
      var i :| 0 <= i < |pods| && Candidate(pods[i], q) && OrdinalOf(pods[i], q) >= 0 && Explains(pods[i], q);
      HiddenOrNot(pods, pods[n], pods[i], q);
    }
  }

  // ----- lists whose order matters

  /** Two names of one ordinal. */
  lemma LeadingZero()
    ensures Ordinal("web-", "web-01") == Ordinal("web-", "web-1") == Some(1)
  {
    assert "web-01"[4..] == "01" && "web-1"[4..] == "1";
    OneDigit('1');
    assert "01"[..1] == "0" && "0"[..0] == "";
    assert DigitsValue("0") == 0 && DigitsValue("01") == 1;
  }

  lemma OneDigit(c: char)
    requires IsDigit(c)
    ensures DigitsValue([c]) == (c - '0') as nat
  {
    assert [c][..0] == "";
  }

  /** So of two Pods the one or the other can be returned. */
  lemma OrderMatters() returns (a: Pod, b: Pod, q: Params)
    ensures a.name == "web-1" && b.name == "web-01" && q.startOrdinal == 0
    ensures Result([a, b], q) == Some(b) && Result([b, a], q) == Some(a) && !AnyOrder([a, b], q)
  {
    LeadingZero();
    a := Pod("web-1", false, false, "old", Some(0));
    b := a.(name := "web-01");
    q := Params("web-", 0, 3, 0, "new", 0, 0);
    LastOfTwo(a, b, q);
    LastOfTwo(b, a, q);
    assert multiset([b, a]) == multiset([a, b]);
  }

  lemma LastOfTwo(a: Pod, b: Pod, q: Params)
    requires Candidate(a, q) && Candidate(b, q) && OrdinalOf(a, q) == OrdinalOf(b, q) >= 0 && Explains(b, q)
    ensures Result([a, b], q) == Some(b)
  {
    assert [a, b][..1] == [a] && [a][..0] == [];
    assert Pass([a], q) == Kept(Some(a), OrdinalOf(a, q));
  }

  lemma MinusOne()
    ensures Ordinal("web-", "web--1") == Some(-1) && Ordinal("web-", "web-0") == Some(0)
  {
    assert "web--1"[4..] == "-1" && "-1"[1..] == "1" && "web-0"[4..] == "0";
    OneDigit('1');
    OneDigit('0');
  }

  /** A negative ordinal can hide a Pod, though both ordinals differ. */
  lemma NegativeOrderMatters() returns (a: Pod, b: Pod, q: Params)
    ensures a.name == "web--1" && b.name == "web-0" && q.startOrdinal == -1 && DistinctOrdinals([a, b], q)
    ensures Result([a, b], q) == Some(b) && Result([b, a], q) == None && !AnyOrder([a, b], q)
  {
    MinusOne();
    a := Pod("web--1", false, false, "old", Some(0));
    b := a.(name := "web-0");
    q := Params("web-", -1, 3, 0, "new", 0, 0);
    AfterNegative([], a, b, q);
    assert [] + [a] + [b] == [a, b];
    NegativeLast([b], a, q);
    assert [b] + [a] == [b, a];
    assert multiset([b, a]) == multiset([a, b]);
  }
}
