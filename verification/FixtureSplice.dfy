/**
  Fitting a fixture's segments to new output.  Wildcards are kept; each literal takes a piece of the
  output, by a backtracking search that may guess the extent of at most one of them.  The regex engine
  is an oracle: whether a wildcard compiles, and how much of a text it matches from its start.
 */
module FixtureSplice {
  import opened Wrappers
  import opened Sequences
  import opened Strings
  import opened FixtureSegments

  datatype Engine = Engine(compiles: string -> bool, find: (string, string) -> Option<nat>)

  /** A match lies within the text it was sought in. */
  ghost predicate Sane(engine: Engine) {
    forall re, s :: engine.find(re, s).Some? ==> engine.find(re, s).value <= |s|
  }

  const MAX_FALLBACKS := 1
  const SLACK := 500

  // ----- candidate ends of a literal

  datatype Candidate = Candidate(end: nat, fromOldText: bool)

  function Matches(engine: Engine, re: string, stdout: string, end: nat): bool
    requires end <= |stdout|
  {
    engine.find(re, stdout[end..]).Some?
  }

  /** The old text ends at `end`, starting no earlier than `pos`, right before a match of the wildcard. */
  predicate IsOldEnd(engine: Engine, re: string, stdout: string, pos: nat, old': string, end: nat) {
    pos + |old'| <= end <= |stdout| && stdout[end - |old'|..end] == old' && Matches(engine, re, stdout, end)
  }

  function Bound(stdout: string, pos: nat, old': string): nat {
    var b := pos + |old'| + SLACK;
    if b > |stdout| then |stdout| else b
  }

  predicate IsFallbackEnd(engine: Engine, re: string, stdout: string, pos: nat, old': string, end: nat) {
    pos <= end <= Bound(stdout, pos, old') <= |stdout| && Matches(engine, re, stdout, end)
  }

  predicate InRange(ends: seq<nat>, stdout: string, pos: nat) {
    forall i :: 0 <= i < |ends| ==> pos <= ends[i] <= |stdout|
  }

  function OldEnds(engine: Engine, re: string, stdout: string, pos: nat, old': string): (r: seq<nat>)
    ensures InRange(r, stdout, pos)
    decreases |stdout| - pos
  {
    if pos > |stdout| then []
    else
      var rest := OldEnds(engine, re, stdout, pos + 1, old');
      if IsOldEnd(engine, re, stdout, pos, old', pos + |old'|) then [pos + |old'|] + rest else rest
  }

  function FallbackEnds(engine: Engine, re: string, stdout: string, pos: nat, bound: nat): (r: seq<nat>)
    requires bound <= |stdout|
    ensures InRange(r, stdout, pos)
    decreases bound - pos
  {
    if pos > bound then []
    else
      var rest := FallbackEnds(engine, re, stdout, pos + 1, bound);
      if Matches(engine, re, stdout, pos) then [pos] + rest else rest
  }

  predicate Ascending(ends: seq<nat>) {
    forall i, j :: 0 <= i < j < |ends| ==> ends[i] < ends[j]
  }

  lemma {:induction false} OldEndsExact(engine: Engine, re: string, stdout: string, pos: nat, old': string)
    ensures forall e :: e in OldEnds(engine, re, stdout, pos, old') <==> IsOldEnd(engine, re, stdout, pos, old', e)
    ensures Ascending(OldEnds(engine, re, stdout, pos, old'))
    decreases |stdout| - pos
  {
    if pos <= |stdout| {
      OldEndsExact(engine, re, stdout, pos + 1, old');
      var rest := OldEnds(engine, re, stdout, pos + 1, old');
      assert forall e :: e != pos + |old'| ==>
                           IsOldEnd(engine, re, stdout, pos, old', e) == IsOldEnd(engine, re, stdout, pos + 1, old', e);
      forall i | 0 <= i < |rest|
        ensures rest[i] > pos + |old'|
      {
        assert rest[i] in rest;
      }
    }
  }

  lemma {:induction false} FallbackEndsExact(engine: Engine, re: string, stdout: string, pos: nat, bound: nat)
    requires bound <= |stdout|
    ensures forall e :: e in FallbackEnds(engine, re, stdout, pos, bound) <==> pos <= e <= bound && Matches(engine, re, stdout, e)
    ensures Ascending(FallbackEnds(engine, re, stdout, pos, bound))
    decreases bound - pos
  {
    if pos <= bound {
      FallbackEndsExact(engine, re, stdout, pos + 1, bound);
      var rest := FallbackEnds(engine, re, stdout, pos + 1, bound);
      forall i | 0 <= i < |rest|
        ensures rest[i] > pos
      {
        assert rest[i] in rest;
      }
    }
  }

  predicate SameFromEnd(a: string, b: string, k: nat) {
    k < |a| && k < |b| && a[|a| - 1 - k] == b[|b| - 1 - k]
  }

  function OverlapFrom(a: string, b: string, n: nat): (r: nat)
    ensures r >= n && !SameFromEnd(a, b, r) && forall k :: n <= k < r ==> SameFromEnd(a, b, k)
    decreases |a| - n
  {
    if SameFromEnd(a, b, n) then OverlapFrom(a, b, n + 1) else n
  }

  /** The length of the longest common suffix. */
  function Overlap(a: string, b: string): nat {
    OverlapFrom(a, b, 0)
  }

  method SuffixOverlapLen(a: string, b: string) returns (n: nat)
    ensures n == Overlap(a, b)
  {
    n := 0;
    while n < |a| && n < |b| && a[|a| - 1 - n] == b[|b| - 1 - n]
      invariant Overlap(a, b) == OverlapFrom(a, b, n)
    {
      n := n + 1;
    }
  }

  /** More of the old text's tail in front first; then nearest first. */
  predicate Before(stdout: string, pos: nat, old': string, a: nat, b: nat)
    requires pos <= a <= |stdout| && pos <= b <= |stdout|
  {
    var oa, ob := Overlap(old', stdout[pos..a]), Overlap(old', stdout[pos..b]);
    oa > ob || (oa == ob && a <= b)
  }

  function InsertRanked(stdout: string, pos: nat, old': string, e: nat, ends: seq<nat>): (r: seq<nat>)
    requires pos <= e <= |stdout| && InRange(ends, stdout, pos)
    ensures InRange(r, stdout, pos)
  {
    if ends == [] || Before(stdout, pos, old', e, ends[0]) then [e] + ends
    else [ends[0]] + InsertRanked(stdout, pos, old', e, ends[1..])
  }

  /** sort.SliceStable by Before, a total order on ends. */
  function Ranked(stdout: string, pos: nat, old': string, ends: seq<nat>): (r: seq<nat>)
    requires InRange(ends, stdout, pos)
    ensures InRange(r, stdout, pos)
  {
    if ends == [] then [] else InsertRanked(stdout, pos, old', ends[0], Ranked(stdout, pos, old', ends[1..]))
  }

  predicate Ranks(stdout: string, pos: nat, old': string, ends: seq<nat>)
    requires InRange(ends, stdout, pos)
  {
    forall i, j :: 0 <= i < j < |ends| ==> Before(stdout, pos, old', ends[i], ends[j])
  }

  lemma {:induction false} InsertKeeps(stdout: string, pos: nat, old': string, e: nat, ends: seq<nat>)
    requires pos <= e <= |stdout| && InRange(ends, stdout, pos)
    ensures multiset(InsertRanked(stdout, pos, old', e, ends)) == multiset(ends) + multiset{e}
  {
    if ends != [] {
      assert ends == [ends[0]] + ends[1..];
      if !Before(stdout, pos, old', e, ends[0]) {
        InsertKeeps(stdout, pos, old', e, ends[1..]);
      }
    }
  }

  lemma {:induction false} InsertRanks(stdout: string, pos: nat, old': string, e: nat, ends: seq<nat>)
    requires pos <= e <= |stdout| && InRange(ends, stdout, pos) && Ranks(stdout, pos, old', ends)
    ensures Ranks(stdout, pos, old', InsertRanked(stdout, pos, old', e, ends))
  {
    if ends != [] {
      if Before(stdout, pos, old', e, ends[0]) {
        assert forall j :: 0 < j < |ends| ==> Before(stdout, pos, old', ends[0], ends[j]);
      } else {
        var rest := InsertRanked(stdout, pos, old', e, ends[1..]);
        InsertRanks(stdout, pos, old', e, ends[1..]);
        InsertKeeps(stdout, pos, old', e, ends[1..]);
        forall i | 0 <= i < |rest|
          ensures Before(stdout, pos, old', ends[0], rest[i])
        {
          assert rest[i] in multiset(rest);
          if rest[i] != e {
            var j :| 0 <= j < |ends[1..]| && ends[1..][j] == rest[i];
            assert ends[j + 1] == rest[i];
          }
        }
      }
    }
  }

  /** Sorting ranks the ends, and keeps them all. */
  lemma {:induction false} RankedExact(stdout: string, pos: nat, old': string, ends: seq<nat>)
    requires InRange(ends, stdout, pos)
    ensures Ranks(stdout, pos, old', Ranked(stdout, pos, old', ends))
    ensures multiset(Ranked(stdout, pos, old', ends)) == multiset(ends)
  {
    if ends != [] {
      RankedExact(stdout, pos, old', ends[1..]);
      InsertRanks(stdout, pos, old', ends[0], Ranked(stdout, pos, old', ends[1..]));
      InsertKeeps(stdout, pos, old', ends[0], Ranked(stdout, pos, old', ends[1..]));
      assert ends == [ends[0]] + ends[1..];
    }
  }

  function Tagged(ends: seq<nat>): (r: seq<Candidate>)
    ensures |r| == |ends| && forall i :: 0 <= i < |ends| ==> r[i] == Candidate(ends[i], true)
  {
    seq(|ends|, i requires 0 <= i < |ends| => Candidate(ends[i], true))
  }

  predicate CandidatesInRange(cs: seq<Candidate>, stdout: string, pos: nat) {
    forall i :: 0 <= i < |cs| ==> pos <= cs[i].end <= |stdout|
  }

  /** The guesses not already tried as old ends. */
  function Guesses(ends: seq<nat>, tried: seq<nat>, stdout: string, pos: nat): (r: seq<Candidate>)
    requires InRange(ends, stdout, pos)
    ensures CandidatesInRange(r, stdout, pos)
  {
    if ends == [] then []
    else (if ends[0] in tried then [] else [Candidate(ends[0], false)]) + Guesses(ends[1..], tried, stdout, pos)
  }

  lemma {:induction false} GuessesExact(ends: seq<nat>, tried: seq<nat>, stdout: string, pos: nat)
    requires InRange(ends, stdout, pos)
    ensures forall c :: c in Guesses(ends, tried, stdout, pos) <==> !c.fromOldText && c.end in ends && c.end !in tried
  {
    if ends != [] {
      GuessesExact(ends[1..], tried, stdout, pos);
    }
  }

  function Candidates(engine: Engine, re: string, stdout: string, pos: nat, old': string): (r: seq<Candidate>)
    requires pos <= |stdout|
    ensures CandidatesInRange(r, stdout, pos)
  {
    var ends := OldEnds(engine, re, stdout, pos, old');
    var fallback := FallbackEnds(engine, re, stdout, pos, Bound(stdout, pos, old'));
    Tagged(ends) + Guesses(Ranked(stdout, pos, old', fallback), ends, stdout, pos)
  }

  /** The candidates are exactly the places where the literal may end. */
  lemma CandidatesExact(engine: Engine, re: string, stdout: string, pos: nat, old': string)
    requires pos <= |stdout|
    ensures forall c :: c in Candidates(engine, re, stdout, pos, old') <==> IsCandidate(engine, re, stdout, pos, old', c)
  {
    var ends := OldEnds(engine, re, stdout, pos, old');
    var fallback := FallbackEnds(engine, re, stdout, pos, Bound(stdout, pos, old'));
    var ranked := Ranked(stdout, pos, old', fallback);
    OldEndsExact(engine, re, stdout, pos, old');
    FallbackEndsExact(engine, re, stdout, pos, Bound(stdout, pos, old'));
    RankedExact(stdout, pos, old', fallback);
    GuessesExact(ranked, ends, stdout, pos);
    assert forall e :: e in ranked <==> e in multiset(ranked);
    assert forall e :: e in fallback <==> e in multiset(fallback);
    forall c
      ensures c in Tagged(ends) <==> c.fromOldText && c.end in ends
    {
      if c.fromOldText && c.end in ends {
        var i :| 0 <= i < |ends| && ends[i] == c.end;
        assert Tagged(ends)[i] == c;
      }
    }
  }

  /** Where a literal may end: after its old text, or, as a guess, at any other nearby match of the wildcard. */
  predicate IsCandidate(engine: Engine, re: string, stdout: string, pos: nat, old': string, c: Candidate) {
    if c.fromOldText then IsOldEnd(engine, re, stdout, pos, old', c.end)
    else IsFallbackEnd(engine, re, stdout, pos, old', c.end) && !IsOldEnd(engine, re, stdout, pos, old', c.end)
  }

  // ----- the order of the candidates

  /** The last `k` bytes of the old text stand right before `e`, after `pos`. */
  predicate KeepsTail(stdout: string, pos: nat, old': string, e: nat, k: nat) {
    k <= |old'| && pos + k <= e <= |stdout| && stdout[e - k..e] == old'[|old'| - k..]
  }

  /** More of the old text's tail stands before `a` than before `b`. */
  ghost predicate KeepsMore(stdout: string, pos: nat, old': string, a: nat, b: nat) {
    exists k: nat :: KeepsTail(stdout, pos, old', a, k) && !KeepsTail(stdout, pos, old', b, k)
  }

  /** Old text before guesses, nearest first; among guesses, more of the old text's tail, then nearest. */
  ghost predicate TriedBefore(stdout: string, pos: nat, old': string, c: Candidate, d: Candidate) {
    if c.fromOldText != d.fromOldText then c.fromOldText
    else if c.fromOldText then c.end < d.end
    else
      || KeepsMore(stdout, pos, old', c.end, d.end)
      || (!KeepsMore(stdout, pos, old', d.end, c.end) && c.end < d.end)
  }

  /** Exactly the places where the literal may end, each once, in the order in which they are tried. */
  ghost predicate InTrialOrder(engine: Engine, re: string, stdout: string, pos: nat, old': string, cs: seq<Candidate>) {
    && (forall c :: c in cs <==> IsCandidate(engine, re, stdout, pos, old', c))
    && InOrder(stdout, pos, old', cs)
  }

  ghost predicate InOrder(stdout: string, pos: nat, old': string, cs: seq<Candidate>) {
    forall i, j :: 0 <= i < j < |cs| ==> TriedBefore(stdout, pos, old', cs[i], cs[j])
  }

  /** A tail that is kept agrees with the overlap, byte by byte from the end. */
  lemma TailOverlaps(stdout: string, pos: nat, old': string, e: nat, k: nat, i: nat)
    requires pos <= e <= |stdout| && i < k && KeepsTail(stdout, pos, old', e, k)
    ensures SameFromEnd(old', stdout[pos..e], i)
  {
    assert stdout[e - k..e][k - 1 - i] == old'[|old'| - k..][k - 1 - i];
    assert stdout[pos..e][e - pos - 1 - i] == stdout[e - 1 - i];
  }

  lemma OverlapKept(stdout: string, pos: nat, old': string, e: nat, k: nat)
    requires pos <= e <= |stdout| && 0 < k && forall i :: 0 <= i < k ==> SameFromEnd(old', stdout[pos..e], i)
    ensures KeepsTail(stdout, pos, old', e, k)
  {
    var b := stdout[pos..e];
    assert SameFromEnd(old', b, k - 1);
    var kept, tail := stdout[e - k..e], old'[|old'| - k..];
    forall i | 0 <= i < k
      ensures kept[i] == tail[i]
    {
      assert SameFromEnd(old', b, k - 1 - i);
      assert b[|b| - k + i] == stdout[e - k + i];
    }
  }

  /** The overlap is the longest tail of the old text that is kept. */
  lemma OverlapIsTail(stdout: string, pos: nat, old': string, e: nat, k: nat)
    requires pos <= e <= |stdout|
    ensures KeepsTail(stdout, pos, old', e, k) <==> k <= Overlap(old', stdout[pos..e])
  {
    var n := Overlap(old', stdout[pos..e]);
    if KeepsTail(stdout, pos, old', e, k) && k > n {
      TailOverlaps(stdout, pos, old', e, k, n);
    }
    if 0 < k <= n {
      OverlapKept(stdout, pos, old', e, k);
    }
  }

  lemma KeepsMoreExact(stdout: string, pos: nat, old': string, a: nat, b: nat)
    requires pos <= a <= |stdout| && pos <= b <= |stdout|
    ensures KeepsMore(stdout, pos, old', a, b) <==> Overlap(old', stdout[pos..a]) > Overlap(old', stdout[pos..b])
  {
    forall k: nat
      ensures KeepsTail(stdout, pos, old', a, k) <==> k <= Overlap(old', stdout[pos..a])
      ensures KeepsTail(stdout, pos, old', b, k) <==> k <= Overlap(old', stdout[pos..b])
    {
      OverlapIsTail(stdout, pos, old', a, k);
      OverlapIsTail(stdout, pos, old', b, k);
    }
    assert KeepsTail(stdout, pos, old', a, Overlap(old', stdout[pos..a]));
  }

  predicate Distinct(ends: seq<nat>) {
    forall i, j :: 0 <= i < j < |ends| ==> ends[i] != ends[j]
  }

  lemma {:induction false} SortedDistinct(ends: seq<nat>, sorted: seq<nat>)
    requires Ascending(ends) && multiset(sorted) == multiset(ends)
    ensures Distinct(sorted)
  {
    forall i, j | 0 <= i < j < |sorted|
      ensures sorted[i] != sorted[j]
    {
      if sorted[i] == sorted[j] {
        var e := sorted[i];
        assert sorted == sorted[..i] + [e] + sorted[i + 1..j] + [e] + sorted[j + 1..];
        assert multiset(ends)[e] >= 2;
        AscendingOnce(ends, e);
      }
    }
  }

  lemma {:induction false} AscendingOnce(ends: seq<nat>, e: nat)
    requires Ascending(ends)
    ensures multiset(ends)[e] <= 1
  {
    if ends != [] {
      assert ends == [ends[0]] + ends[1..];
      AscendingOnce(ends[1..], e);
      assert ends[0] !in ends[1..];
    }
  }

  /** The first of the ranked ends is tried before the guesses among the others. */
  lemma GuessBefore(ends: seq<nat>, tried: seq<nat>, stdout: string, pos: nat, old': string, c: Candidate)
    requires ends != [] && InRange(ends, stdout, pos) && Ranks(stdout, pos, old', ends) && Distinct(ends)
    requires c in Guesses(ends[1..], tried, stdout, pos)
    ensures TriedBefore(stdout, pos, old', Candidate(ends[0], false), c)
  {
    GuessesExact(ends[1..], tried, stdout, pos);
    var k :| 0 <= k < |ends[1..]| && ends[1..][k] == c.end;
    assert Before(stdout, pos, old', ends[0], ends[k + 1]) && ends[0] != ends[k + 1];
    KeepsMoreExact(stdout, pos, old', ends[0], c.end);
    KeepsMoreExact(stdout, pos, old', c.end, ends[0]);
  }

  lemma FirstInOrder(stdout: string, pos: nat, old': string, c: Candidate, cs: seq<Candidate>)
    requires InOrder(stdout, pos, old', cs) && forall d :: d in cs ==> TriedBefore(stdout, pos, old', c, d)
    ensures InOrder(stdout, pos, old', [c] + cs)
  {
    var all := [c] + cs;
    forall i, j | 0 <= i < j < |all|
      ensures TriedBefore(stdout, pos, old', all[i], all[j])
    {
      assert all[j] == cs[j - 1] && all[j] in cs;
      if i > 0 {
        assert all[i] == cs[i - 1];
      }
    }
  }

  lemma RanksTail(stdout: string, pos: nat, old': string, ends: seq<nat>)
    requires ends != [] && InRange(ends, stdout, pos) && Ranks(stdout, pos, old', ends) && Distinct(ends)
    ensures Ranks(stdout, pos, old', ends[1..]) && Distinct(ends[1..])
  {
  }

  /** Leaving out ends already tried keeps the ranking. */
  lemma {:induction false} GuessesRank(ends: seq<nat>, tried: seq<nat>, stdout: string, pos: nat, old': string)
    requires InRange(ends, stdout, pos) && Ranks(stdout, pos, old', ends) && Distinct(ends)
    ensures InOrder(stdout, pos, old', Guesses(ends, tried, stdout, pos))
  {
    if ends != [] {
      var rest := Guesses(ends[1..], tried, stdout, pos);
      RanksTail(stdout, pos, old', ends);
      GuessesRank(ends[1..], tried, stdout, pos, old');
      if ends[0] !in tried {
        forall c | c in rest
          ensures TriedBefore(stdout, pos, old', Candidate(ends[0], false), c)
        {
          GuessBefore(ends, tried, stdout, pos, old', c);
        }
        FirstInOrder(stdout, pos, old', Candidate(ends[0], false), rest);
      } else {
        assert Guesses(ends, tried, stdout, pos) == rest;
      }
    }
  }

  lemma CandidatesInOrder(engine: Engine, re: string, stdout: string, pos: nat, old': string)
    requires pos <= |stdout|
    ensures InTrialOrder(engine, re, stdout, pos, old', Candidates(engine, re, stdout, pos, old'))
  {
    var ends := OldEnds(engine, re, stdout, pos, old');
    var fallback := FallbackEnds(engine, re, stdout, pos, Bound(stdout, pos, old'));
    var ranked := Ranked(stdout, pos, old', fallback);
    CandidatesExact(engine, re, stdout, pos, old');
    OldEndsExact(engine, re, stdout, pos, old');
    FallbackEndsExact(engine, re, stdout, pos, Bound(stdout, pos, old'));
    RankedExact(stdout, pos, old', fallback);
    SortedDistinct(fallback, ranked);
    GuessesRank(ranked, ends, stdout, pos, old');
    GuessesExact(ranked, ends, stdout, pos);
    OldTextFirst(stdout, pos, old', ends, Guesses(ranked, ends, stdout, pos));
  }

  lemma OldTextFirst(stdout: string, pos: nat, old': string, ends: seq<nat>, guesses: seq<Candidate>)
    requires Ascending(ends) && forall c :: c in guesses ==> !c.fromOldText
    requires InOrder(stdout, pos, old', guesses)
    ensures InOrder(stdout, pos, old', Tagged(ends) + guesses)
  {
    var cs := Tagged(ends) + guesses;
    forall i, j | 0 <= i < j < |cs|
      ensures TriedBefore(stdout, pos, old', cs[i], cs[j])
    {
      if i >= |ends| {
        assert cs[i] == guesses[i - |ends|] && cs[j] == guesses[j - |ends|];
      } else if j >= |ends| {
        assert cs[j] in guesses;
      }
    }
  }

  // ----- the search

  /** The ends chosen for the segments from `i` on, the first choice that leads to the end of the output. */
  function Search(engine: Engine, segs: seq<Segment>, stdout: string, pos: nat, used: nat): (r: Option<seq<nat>>)
    requires pos <= |stdout| && Sane(engine)
    ensures r.Some? ==> |r.value| == |segs|
    decreases |segs|, 0
  {
    if segs == [] then (if pos == |stdout| then Some([]) else None)
    else if segs[0].Wild? then
      match engine.find(segs[0].text, stdout[pos..])
      case None => None
      case Some(n) => Choose(pos + n, Search(engine, segs[1..], stdout, pos + n, used))
    else if |segs| == 1 then
      var used' := if stdout[pos..] != segs[0].text then used + 1 else used;
      if used' > used && used' > MAX_FALLBACKS then None
      else Choose(|stdout|, Search(engine, segs[1..], stdout, |stdout|, used'))
    else SearchFrom(engine, segs, stdout, pos, used)
  }

  /** The candidates of a literal that a wildcard follows. */
  function SearchFrom(engine: Engine, segs: seq<Segment>, stdout: string, pos: nat, used: nat): (r: Option<seq<nat>>)
    requires pos <= |stdout| && Sane(engine) && |segs| > 1
    ensures r.Some? ==> |r.value| == |segs|
    decreases |segs|, 0, |Candidates(engine, segs[1].text, stdout, pos, segs[0].text)| + 1
  {
    SearchAmong(engine, segs, stdout, pos, used, Candidates(engine, segs[1].text, stdout, pos, segs[0].text))
  }

  function Choose(end: nat, r: Option<seq<nat>>): Option<seq<nat>> {
    match r
    case Some(ends) => Some([end] + ends)
    case None => None
  }

  function SearchAmong(engine: Engine, segs: seq<Segment>, stdout: string, pos: nat, used: nat, cs: seq<Candidate>): (r: Option<seq<nat>>)
    requires pos <= |stdout| && Sane(engine) && |segs| > 1
    requires CandidatesInRange(cs, stdout, pos)
    ensures r.Some? ==> |r.value| == |segs|
    decreases |segs|, 0, |cs|
  {
    if cs == [] then None
    else
      var rest := SearchAmong(engine, segs, stdout, pos, used, cs[1..]);
      var used' := if cs[0].fromOldText then used else used + 1;
      if used' > used && used' > MAX_FALLBACKS then rest
      else
        var here := Search(engine, segs[1..], stdout, cs[0].end, used');
        if here.Some? then Choose(cs[0].end, here) else rest
  }

  // ----- what a choice of ends must satisfy

  /** Whether ending the first literal at `end` guesses its extent. */
  predicate Guess(engine: Engine, segs: seq<Segment>, stdout: string, pos: nat, end: nat)
    requires segs != [] && pos <= |stdout|
  {
    if segs[0].Wild? then false
    else if |segs| == 1 then stdout[pos..] != segs[0].text
    else !IsOldEnd(engine, segs[1].text, stdout, pos, segs[0].text, end)
  }

  predicate MayEnd(engine: Engine, segs: seq<Segment>, stdout: string, pos: nat, end: nat)
    requires segs != [] && pos <= |stdout|
  {
    if segs[0].Wild? then pos <= end && engine.find(segs[0].text, stdout[pos..]) == Some(end - pos)
    else if |segs| == 1 then end == |stdout|
    else
      || IsOldEnd(engine, segs[1].text, stdout, pos, segs[0].text, end)
      || IsFallbackEnd(engine, segs[1].text, stdout, pos, segs[0].text, end)
  }

  /** The ends split the output from `pos` among the segments, with at most one guess in all. */
  predicate Fit(engine: Engine, segs: seq<Segment>, stdout: string, pos: nat, ends: seq<nat>, used: nat)
    decreases |segs|
  {
    && |ends| == |segs| && pos <= |stdout|
    && if segs == [] then pos == |stdout|
       else
         var used' := Used(engine, segs, stdout, pos, ends[0], used);
         && pos <= ends[0] <= |stdout|
         && MayEnd(engine, segs, stdout, pos, ends[0])
         && (used' > used ==> used' <= MAX_FALLBACKS)
         && Fit(engine, segs[1..], stdout, ends[0], ends[1..], used')
  }

  function Used(engine: Engine, segs: seq<Segment>, stdout: string, pos: nat, end: nat, used: nat): nat
    requires segs != [] && pos <= |stdout|
  {
    if Guess(engine, segs, stdout, pos, end) then used + 1 else used
  }

  /** One more segment in front of a fit. */
  lemma FitMore(engine: Engine, segs: seq<Segment>, stdout: string, pos: nat, end: nat, ends: seq<nat>, used: nat)
    requires segs != [] && pos <= end <= |stdout| && MayEnd(engine, segs, stdout, pos, end)
    requires Used(engine, segs, stdout, pos, end, used) > used ==> Used(engine, segs, stdout, pos, end, used) <= MAX_FALLBACKS
    requires Fit(engine, segs[1..], stdout, end, ends, Used(engine, segs, stdout, pos, end, used))
    ensures Fit(engine, segs, stdout, pos, [end] + ends, used)
  {
    assert ([end] + ends)[1..] == ends;
  }

  /** Whatever the search returns is a fit. */
  lemma {:induction false} SearchSound(engine: Engine, segs: seq<Segment>, stdout: string, pos: nat, used: nat, ends: seq<nat>)
    requires pos <= |stdout| && Sane(engine) && Search(engine, segs, stdout, pos, used) == Some(ends)
    ensures Fit(engine, segs, stdout, pos, ends, used)
    decreases |segs|, 0
  {
    if segs != [] {
      if segs[0].Literal? && |segs| > 1 {
        CandidatesExact(engine, segs[1].text, stdout, pos, segs[0].text);
        SearchAmongSound(engine, segs, stdout, pos, used, Candidates(engine, segs[1].text, stdout, pos, segs[0].text), ends);
      } else {
        var used' := FirstChoice(engine, segs, stdout, pos, used, ends);
        SearchSound(engine, segs[1..], stdout, ends[0], used', ends[1..]);
      }
    }
  }

  /** A wildcard, or the last literal, leaves the search one end to choose. */
  lemma FirstChoice(engine: Engine, segs: seq<Segment>, stdout: string, pos: nat, used: nat, ends: seq<nat>) returns (used': nat)
    requires pos <= |stdout| && Sane(engine) && segs != [] && (segs[0].Wild? || |segs| == 1)
    requires Search(engine, segs, stdout, pos, used) == Some(ends)
    ensures ends != [] && pos <= ends[0] <= |stdout| && MayEnd(engine, segs, stdout, pos, ends[0])
    ensures used' == Used(engine, segs, stdout, pos, ends[0], used) && (used' > used ==> used' <= MAX_FALLBACKS)
    ensures Search(engine, segs[1..], stdout, ends[0], used') == Some(ends[1..])
  {
    used' := Used(engine, segs, stdout, pos, ends[0], used);
    if segs[0].Wild? {
      var rest := Search(engine, segs[1..], stdout, ends[0], used);
      assert ends == [ends[0]] + rest.value;
    } else {
      var rest := Search(engine, segs[1..], stdout, |stdout|, used');
      assert ends == [|stdout|] + rest.value;
    }
  }

  predicate AllCandidates(engine: Engine, segs: seq<Segment>, stdout: string, pos: nat, cs: seq<Candidate>)
    requires |segs| > 1 && pos <= |stdout|
  {
    forall i :: 0 <= i < |cs| ==> IsCandidate(engine, segs[1].text, stdout, pos, segs[0].text, cs[i])
  }

  lemma {:induction false} SearchAmongSound(engine: Engine, segs: seq<Segment>, stdout: string, pos: nat, used: nat, cs: seq<Candidate>, ends: seq<nat>)
    requires pos <= |stdout| && Sane(engine) && |segs| > 1 && segs[0].Literal?
    requires AllCandidates(engine, segs, stdout, pos, cs)
    requires SearchAmong(engine, segs, stdout, pos, used, cs) == Some(ends)
    ensures Fit(engine, segs, stdout, pos, ends, used)
    decreases |segs|, 0, |cs|
  {
    var used' := if cs[0].fromOldText then used else used + 1;
    var skip := used' > used && used' > MAX_FALLBACKS;
    var here := Search(engine, segs[1..], stdout, cs[0].end, used');
    if !skip && here.Some? {
      SearchSound(engine, segs[1..], stdout, cs[0].end, used', here.value);
      FitMore(engine, segs, stdout, pos, cs[0].end, here.value, used);
    } else {
      SearchAmongSound(engine, segs, stdout, pos, used, cs[1..], ends);
    }
  }

  /** The search finds a fit whenever there is one. */
  lemma {:induction false} SearchComplete(engine: Engine, segs: seq<Segment>, stdout: string, pos: nat, ends: seq<nat>, used: nat)
    requires Sane(engine) && Fit(engine, segs, stdout, pos, ends, used)
    ensures Search(engine, segs, stdout, pos, used).Some?
    decreases |segs|, 0
  {
    if segs != [] {
      FitFirst(engine, segs, stdout, pos, ends, used);
      SearchComplete(engine, segs[1..], stdout, ends[0], ends[1..], Used(engine, segs, stdout, pos, ends[0], used));
      if segs[0].Literal? && |segs| > 1 {
        CandidateComplete(engine, segs, stdout, pos, ends[0], used);
      } else {
        OnlyEnd(engine, segs, stdout, pos, ends[0], used);
      }
    }
  }

  lemma FitFirst(engine: Engine, segs: seq<Segment>, stdout: string, pos: nat, ends: seq<nat>, used: nat)
    requires segs != [] && Fit(engine, segs, stdout, pos, ends, used)
    ensures ends != [] && pos <= ends[0] <= |stdout| && MayEnd(engine, segs, stdout, pos, ends[0])
    ensures var used' := Used(engine, segs, stdout, pos, ends[0], used);
            (used' > used ==> used' <= MAX_FALLBACKS) && Fit(engine, segs[1..], stdout, ends[0], ends[1..], used')
  {
  }

  /** A wildcard, or the last literal, has one end to choose. */
  lemma OnlyEnd(engine: Engine, segs: seq<Segment>, stdout: string, pos: nat, end: nat, used: nat)
    requires Sane(engine) && segs != [] && (segs[0].Wild? || |segs| == 1) && pos <= end <= |stdout|
    requires MayEnd(engine, segs, stdout, pos, end)
    requires var used' := Used(engine, segs, stdout, pos, end, used);
             (used' > used ==> used' <= MAX_FALLBACKS) && Search(engine, segs[1..], stdout, end, used').Some?
    ensures Search(engine, segs, stdout, pos, used).Some?
  {
  }

  lemma CandidateComplete(engine: Engine, segs: seq<Segment>, stdout: string, pos: nat, end: nat, used: nat)
    requires Sane(engine) && |segs| > 1 && segs[0].Literal? && pos <= end <= |stdout|
    requires MayEnd(engine, segs, stdout, pos, end)
    requires var used' := if Guess(engine, segs, stdout, pos, end) then used + 1 else used;
             (used' > used ==> used' <= MAX_FALLBACKS) && Search(engine, segs[1..], stdout, end, used').Some?
    ensures Search(engine, segs, stdout, pos, used).Some?
  {
    var c := Candidate(end, !Guess(engine, segs, stdout, pos, end));
    var cs := Candidates(engine, segs[1].text, stdout, pos, segs[0].text);
    CandidatesExact(engine, segs[1].text, stdout, pos, segs[0].text);
    AmongComplete(engine, segs, stdout, pos, used, cs, c);
  }

  lemma {:induction false} AmongComplete(engine: Engine, segs: seq<Segment>, stdout: string, pos: nat, used: nat, cs: seq<Candidate>, c: Candidate)
    requires pos <= |stdout| && Sane(engine) && |segs| > 1 && c in cs
    requires CandidatesInRange(cs, stdout, pos)
    requires !c.fromOldText ==> used + 1 <= MAX_FALLBACKS
    requires c.end <= |stdout| && Search(engine, segs[1..], stdout, c.end, if c.fromOldText then used else used + 1).Some?
    ensures SearchAmong(engine, segs, stdout, pos, used, cs).Some?
    decreases |cs|
  {
    if cs[0] != c {
      AmongComplete(engine, segs, stdout, pos, used, cs[1..], c);
    }
  }

  // ----- what a fit means for the fixture

  /** Taking each segment's text, literal or matched, off the front of `s` uses up `s`. */
  predicate Consumes(engine: Engine, segs: seq<Segment>, s: string)
    decreases |segs|
  {
    if segs == [] then s == ""
    else if segs[0].Literal? then segs[0].text <= s && Consumes(engine, segs[1..], s[|segs[0].text|..])
    else
      match engine.find(segs[0].text, s)
      case Some(n) => n <= |s| && Consumes(engine, segs[1..], s[n..])
      case None => false
  }

  /** The segments with each literal replaced by its piece of the output. */
  function Rewritten(segs: seq<Segment>, stdout: string, pos: nat, ends: seq<nat>): (r: seq<Segment>)
    requires |ends| == |segs|
    ensures |r| == |segs|
    decreases |segs|
  {
    if segs == [] then []
    else
      [if segs[0].Literal? && pos <= ends[0] <= |stdout| then Literal(stdout[pos..ends[0]]) else segs[0]]
      + Rewritten(segs[1..], stdout, ends[0], ends[1..])
  }

  /** The rewritten segments cover the output exactly, in order. */
  lemma {:induction false} FitConsumes(engine: Engine, segs: seq<Segment>, stdout: string, pos: nat, ends: seq<nat>, used: nat)
    requires Sane(engine) && Fit(engine, segs, stdout, pos, ends, used)
    ensures Consumes(engine, Rewritten(segs, stdout, pos, ends), stdout[pos..])
    decreases |segs|
  {
    if segs != [] {
      FitConsumes(engine, segs[1..], stdout, ends[0], ends[1..], Used(engine, segs, stdout, pos, ends[0], used));
      var r := Rewritten(segs, stdout, pos, ends);
      assert r[1..] == Rewritten(segs[1..], stdout, ends[0], ends[1..]);
      ConsumesMore(engine, r, stdout, pos, ends[0]);
    }
  }

  lemma ConsumesMore(engine: Engine, r: seq<Segment>, stdout: string, pos: nat, end: nat)
    requires r != [] && pos <= end <= |stdout| && Consumes(engine, r[1..], stdout[end..])
    requires r[0].Literal? ==> r[0].text == stdout[pos..end]
    requires r[0].Wild? ==> engine.find(r[0].text, stdout[pos..]) == Some(end - pos)
    ensures Consumes(engine, r, stdout[pos..])
  {
    assert stdout[pos..][end - pos..] == stdout[end..];
    assert stdout[pos..end] == stdout[pos..][..end - pos];
  }

  /** Literals whose new text does not end with their old text. */
  function Changed(segs: seq<Segment>, news: seq<Segment>): nat
    requires |news| == |segs|
    decreases |segs|
  {
    if segs == [] then 0
    else (if segs[0].Literal? && !HasSuffix(news[0].text, segs[0].text) then 1 else 0) + Changed(segs[1..], news[1..])
  }

  predicate SameWilds(segs: seq<Segment>, news: seq<Segment>)
    decreases |segs|
  {
    && |news| == |segs|
    && (segs != [] ==>
          && news[0].Literal? == segs[0].Literal?
          && (segs[0].Wild? ==> news[0] == segs[0])
          && SameWilds(segs[1..], news[1..]))
  }

  lemma {:induction false} RewrittenWilds(segs: seq<Segment>, stdout: string, pos: nat, ends: seq<nat>)
    requires |ends| == |segs|
    ensures SameWilds(segs, Rewritten(segs, stdout, pos, ends))
    decreases |segs|
  {
    if segs != [] {
      RewrittenWilds(segs[1..], stdout, ends[0], ends[1..]);
      assert Rewritten(segs, stdout, pos, ends)[1..] == Rewritten(segs[1..], stdout, ends[0], ends[1..]);
    }
  }

  /** A literal whose extent was not guessed still ends with its old text. */
  lemma UnguessedSuffix(engine: Engine, segs: seq<Segment>, stdout: string, pos: nat, end: nat)
    requires segs != [] && segs[0].Literal? && pos <= end <= |stdout|
    requires MayEnd(engine, segs, stdout, pos, end) && !Guess(engine, segs, stdout, pos, end)
    ensures HasSuffix(stdout[pos..end], segs[0].text)
  {
    var text, old' := stdout[pos..end], segs[0].text;
    if |segs| > 1 {
      assert stdout[end - |old'|..end] == text[|text| - |old'|..];
    } else {
      assert text == stdout[pos..] == old' && text[0..] == text;
    }
  }

  /** The guesses left bound the literals that lost their old ending. */
  lemma {:induction false} FitChanges(engine: Engine, segs: seq<Segment>, stdout: string, pos: nat, ends: seq<nat>, used: nat)
    requires Fit(engine, segs, stdout, pos, ends, used) && used <= MAX_FALLBACKS
    ensures Changed(segs, Rewritten(segs, stdout, pos, ends)) + used <= MAX_FALLBACKS
    decreases |segs|
  {
    if segs != [] {
      FitChanges(engine, segs[1..], stdout, ends[0], ends[1..], Used(engine, segs, stdout, pos, ends[0], used));
      assert Rewritten(segs, stdout, pos, ends)[1..] == Rewritten(segs[1..], stdout, ends[0], ends[1..]);
      if segs[0].Literal? && !Guess(engine, segs, stdout, pos, ends[0]) {
        UnguessedSuffix(engine, segs, stdout, pos, ends[0]);
      }
    }
  }

  /** If the old segments already cover the output, the search keeps every literal as it was. */
  lemma {:induction false} ConsumedUnchanged(engine: Engine, segs: seq<Segment>, stdout: string, pos: nat, used: nat)
    returns (ends: seq<nat>)
    requires Sane(engine) && Alternate(segs) && pos <= |stdout|
    requires Consumes(engine, segs, stdout[pos..])
    ensures |ends| == |segs| && Search(engine, segs, stdout, pos, used) == Some(ends)
    ensures Rewritten(segs, stdout, pos, ends) == segs
    decreases |segs|
  {
    if segs == [] {
      ends := [];
    } else {
      var end := FirstEnd(engine, segs, stdout, pos);
      assert Alternate(segs[1..]);
      var rest := ConsumedUnchanged(engine, segs[1..], stdout, end, used);
      ends := [end] + rest;
      if segs[0].Wild? {
        WildUnchanged(engine, segs, stdout, pos, used, end, rest);
      } else {
        LiteralUnchanged(engine, segs, stdout, pos, used, end, rest);
      }
      RewrittenMore(segs, stdout, pos, end, rest);
    }
  }

  /** Where the first segment ends when the segments cover the output as they are. */
  lemma FirstEnd(engine: Engine, segs: seq<Segment>, stdout: string, pos: nat) returns (end: nat)
    requires Sane(engine) && segs != [] && pos <= |stdout| && Consumes(engine, segs, stdout[pos..])
    ensures pos <= end <= |stdout| && Consumes(engine, segs[1..], stdout[end..])
    ensures segs[0].Literal? ==> end == pos + |segs[0].text| && stdout[pos..end] == segs[0].text
    ensures segs[0].Wild? ==> engine.find(segs[0].text, stdout[pos..]) == Some(end - pos)
  {
    var n := if segs[0].Literal? then |segs[0].text| else engine.find(segs[0].text, stdout[pos..]).value;
    end := pos + n;
    assert stdout[pos..][n..] == stdout[end..];
    assert stdout[pos..][..n] == stdout[pos..end];
  }

  lemma WildUnchanged(engine: Engine, segs: seq<Segment>, stdout: string, pos: nat, used: nat, end: nat, rest: seq<nat>)
    requires Sane(engine) && segs != [] && segs[0].Wild? && pos <= end <= |stdout|
    requires engine.find(segs[0].text, stdout[pos..]) == Some(end - pos)
    requires Search(engine, segs[1..], stdout, end, used) == Some(rest)
    ensures Search(engine, segs, stdout, pos, used) == Some([end] + rest)
  {
  }

  lemma RewrittenMore(segs: seq<Segment>, stdout: string, pos: nat, end: nat, ends: seq<nat>)
    requires segs != [] && |ends| == |segs| - 1 && pos <= end <= |stdout|
    requires segs[0].Literal? ==> stdout[pos..end] == segs[0].text
    requires Rewritten(segs[1..], stdout, end, ends) == segs[1..]
    ensures Rewritten(segs, stdout, pos, [end] + ends) == segs
  {
    assert ([end] + ends)[1..] == ends;
    assert segs == [segs[0]] + segs[1..];
  }

  lemma LiteralUnchanged(engine: Engine, segs: seq<Segment>, stdout: string, pos: nat, used: nat, end: nat, rest: seq<nat>)
    requires Sane(engine) && segs != [] && segs[0].Literal? && (|segs| > 1 ==> segs[1].Wild?)
    requires pos <= |stdout| && end == pos + |segs[0].text| <= |stdout| && stdout[pos..end] == segs[0].text
    requires Consumes(engine, segs[1..], stdout[end..])
    requires Search(engine, segs[1..], stdout, end, used) == Some(rest)
    ensures Search(engine, segs, stdout, pos, used) == Some([end] + rest)
  {
    if |segs| == 1 {
      assert stdout[end..] == "" && end == |stdout|;
      assert stdout[pos..] == segs[0].text;
    } else {
      assert segs[1..][0] == segs[1];
      var cs := Candidates(engine, segs[1].text, stdout, pos, segs[0].text);
      FirstCandidate(engine, segs[1].text, stdout, pos, segs[0].text);
      AmongFirst(engine, segs, stdout, pos, used, cs, end, rest);
    }
  }

  /** A first candidate that needs no guess and leads to the end is taken. */
  lemma AmongFirst(engine: Engine, segs: seq<Segment>, stdout: string, pos: nat, used: nat, cs: seq<Candidate>, end: nat, rest: seq<nat>)
    requires Sane(engine) && |segs| > 1 && pos <= |stdout| && CandidatesInRange(cs, stdout, pos)
    requires cs != [] && cs[0] == Candidate(end, true)
    requires Search(engine, segs[1..], stdout, end, used) == Some(rest)
    ensures SearchAmong(engine, segs, stdout, pos, used, cs) == Some([end] + rest)
  {
  }

  /** The old text right where the literal starts is the first candidate. */
  lemma FirstCandidate(engine: Engine, re: string, stdout: string, pos: nat, old': string)
    requires pos <= |stdout| && IsOldEnd(engine, re, stdout, pos, old', pos + |old'|)
    ensures var cs := Candidates(engine, re, stdout, pos, old'); cs != [] && cs[0] == Candidate(pos + |old'|, true)
  {
  }

  // ----- the search of the source

  /** strings.Index */
  function Index(s: string, sub: string): (r: Option<nat>)
    ensures r.Some? ==> r.value <= |s| && sub <= s[r.value..]
  {
    IndexFrom(s, sub, 0)
  }

  function IndexFrom(s: string, sub: string, n: nat): (r: Option<nat>)
    ensures r.Some? ==> n <= r.value <= |s| && sub <= s[r.value..]
    decreases |s| + 1 - n
  {
    if n > |s| then None else if sub <= s[n..] then Some(n) else IndexFrom(s, sub, n + 1)
  }

  /** What is found is the first occurrence. */
  lemma {:induction false} IndexIsFirst(s: string, sub: string, n: nat)
    ensures var r := IndexFrom(s, sub, n);
            forall i :: n <= i <= |s| && (r.Some? ==> i < r.value) ==> !(sub <= s[i..])
    decreases |s| + 1 - n
  {
    if n <= |s| && !(sub <= s[n..]) {
      IndexIsFirst(s, sub, n + 1);
    }
  }

  /** Starts where the old text does not occur add no old end. */
  lemma {:induction false} OldEndsSkip(engine: Engine, re: string, stdout: string, pos: nat, old': string, next: nat)
    requires pos <= next && (forall a :: pos <= a < next && a <= |stdout| ==> !(old' <= stdout[a..]))
    ensures OldEnds(engine, re, stdout, pos, old') == OldEnds(engine, re, stdout, next, old')
    decreases next - pos
  {
    if pos < next && pos <= |stdout| {
      OldEndsSkip(engine, re, stdout, pos + 1, old', next);
      assert pos + |old'| <= |stdout| ==> stdout[pos..][..|old'|] == stdout[pos..pos + |old'|];
    }
  }

  /** Index within a suffix, in positions of the whole. */
  lemma IndexInSuffix(s: string, search: nat, sub: string)
    requires search <= |s|
    ensures var r := Index(s[search..], sub);
            && (r.None? ==> forall a :: search <= a <= |s| ==> !(sub <= s[a..]))
            && (r.Some? ==> search + r.value <= |s| && sub <= s[search + r.value..]
                            && forall a :: search <= a < search + r.value ==> !(sub <= s[a..]))
  {
    IndexIsFirst(s[search..], sub, 0);
    assert forall a :: search <= a <= |s| ==> s[a..] == s[search..][a - search..];
  }

  /** No further occurrence: no further old end. */
  lemma NoOldEnd(engine: Engine, re: string, stdout: string, search: nat, old': string)
    requires search <= |stdout| && Index(stdout[search..], old').None?
    ensures OldEnds(engine, re, stdout, search, old') == []
  {
    IndexInSuffix(stdout, search, old');
    OldEndsSkip(engine, re, stdout, search, old', |stdout| + 1);
  }

  lemma OldEndAt(engine: Engine, re: string, stdout: string, start: nat, old': string)
    requires start <= |stdout| && old' <= stdout[start..]
    ensures start + |old'| <= |stdout|
    ensures OldEnds(engine, re, stdout, start, old') ==
            (if Matches(engine, re, stdout, start + |old'|) then [start + |old'|] else [])
            + OldEnds(engine, re, stdout, start + 1, old')
  {
    assert stdout[start..][..|old'|] == stdout[start..start + |old'|];
  }

  /** The next occurrence is the next old end if the wildcard matches after it. */
  lemma NextOldEnd(engine: Engine, re: string, stdout: string, search: nat, old': string, start: nat)
    requires search <= start && search <= |stdout| && Index(stdout[search..], old') == Some(start - search)
    ensures start + |old'| <= |stdout|
    ensures OldEnds(engine, re, stdout, search, old') ==
            (if Matches(engine, re, stdout, start + |old'|) then [start + |old'|] else [])
            + OldEnds(engine, re, stdout, start + 1, old')
  {
    IndexInSuffix(stdout, search, old');
    OldEndsSkip(engine, re, stdout, search, old', start);
    OldEndAt(engine, re, stdout, start, old');
  }

  /** The old ends found so far, and the next one. */
  lemma OldEndsStep(engine: Engine, re: string, stdout: string, pos: nat, search: nat, old': string, start: nat, ends: seq<nat>)
    requires search <= start && search <= |stdout| && Index(stdout[search..], old') == Some(start - search)
    requires OldEnds(engine, re, stdout, pos, old') == ends + OldEnds(engine, re, stdout, search, old')
    ensures start + |old'| <= |stdout|
    ensures OldEnds(engine, re, stdout, pos, old') ==
            (if Matches(engine, re, stdout, start + |old'|) then ends + [start + |old'|] else ends)
            + OldEnds(engine, re, stdout, start + 1, old')
  {
    NextOldEnd(engine, re, stdout, search, old', start);
    Regroup(ends, [start + |old'|], OldEnds(engine, re, stdout, start + 1, old'));
  }

  // the loops

  method LiteralEndCandidates(engine: Engine, re: string, stdout: string, pos: nat, old': string)
    returns (candidates: seq<Candidate>)
    requires pos <= |stdout|
    ensures candidates == Candidates(engine, re, stdout, pos, old')
    ensures InTrialOrder(engine, re, stdout, pos, old', candidates)
  {
    CandidatesInOrder(engine, re, stdout, pos, old');
    var ends := OldTextEnds(engine, re, stdout, pos, old');
    var fallback := FallbackTextEnds(engine, re, stdout, pos, Bound(stdout, pos, old'));
    var ranked := Ranked(stdout, pos, old', fallback);
    candidates := Tagged(ends);
    for i := 0 to |ranked|
      invariant Candidates(engine, re, stdout, pos, old') == candidates + Guesses(ranked[i..], ends, stdout, pos)
    {
      var found := if ranked[i] in ends then [] else [Candidate(ranked[i], false)];
      Regroup(candidates, found, Guesses(ranked[i + 1..], ends, stdout, pos));
      assert ranked[i..][1..] == ranked[i + 1..];
      candidates := candidates + found;
    }
  }

  method OldTextEnds(engine: Engine, re: string, stdout: string, pos: nat, old': string) returns (ends: seq<nat>)
    requires pos <= |stdout|
    ensures ends == OldEnds(engine, re, stdout, pos, old')
  {
    ends := [];
    var search := pos;
    while search <= |stdout|
      invariant search <= |stdout| + 1
      invariant OldEnds(engine, re, stdout, pos, old') == ends + OldEnds(engine, re, stdout, search, old')
    {
      var rel := Index(stdout[search..], old');
      if rel.None? {
        NoOldEnd(engine, re, stdout, search, old');
        break;
      }
      var end := search + rel.value + |old'|;
      OldEndsStep(engine, re, stdout, pos, search, old', search + rel.value, ends);
      if Matches(engine, re, stdout, end) {
        ends := ends + [end];
      }
      search := search + rel.value + 1;
    }
  }

  method FallbackTextEnds(engine: Engine, re: string, stdout: string, pos: nat, bound: nat) returns (ends: seq<nat>)
    requires pos <= |stdout| && bound <= |stdout|
    ensures ends == FallbackEnds(engine, re, stdout, pos, bound)
  {
    ends := [];
    var search := pos;
    while search <= bound
      invariant FallbackEnds(engine, re, stdout, pos, bound) == ends + FallbackEnds(engine, re, stdout, search, bound)
    {
      var found := if Matches(engine, re, stdout, search) then [search] else [];
      Regroup(ends, found, FallbackEnds(engine, re, stdout, search + 1, bound));
      ends := ends + found;
      search := search + 1;
    }
  }

  /** The entries of `newText` that belong to literals hold the texts of `news`. */
  predicate Holds(segs: seq<Segment>, newText: seq<string>, news: seq<Segment>) {
    && |newText| == |segs| == |news|
    && forall j :: 0 <= j < |segs| && segs[j].Literal? ==> newText[j] == news[j].text
  }

  lemma HoldsMore(segs: seq<Segment>, newText: seq<string>, stdout: string, pos: nat, end: nat, ends: seq<nat>)
    requires segs != [] && |newText| == |segs| == |ends| + 1 && pos <= end <= |stdout|
    requires segs[0].Literal? ==> newText[0] == stdout[pos..end]
    requires Holds(segs[1..], newText[1..], Rewritten(segs[1..], stdout, end, ends))
    ensures Holds(segs, newText, Rewritten(segs, stdout, pos, [end] + ends))
  {
    var news := Rewritten(segs, stdout, pos, [end] + ends);
    assert ([end] + ends)[1..] == ends;
    assert news[1..] == Rewritten(segs[1..], stdout, end, ends);
    forall j | 0 <= j < |segs| && segs[j].Literal?
      ensures newText[j] == news[j].text
    {
      if j > 0 {
        assert segs[1..][j - 1] == segs[j] && newText[1..][j - 1] == newText[j] && news[1..][j - 1] == news[j];
      }
    }
  }

  /** The array, from `i` on, holds the pieces the search chose. */
  ghost predicate Filled(engine: Engine, segs: seq<Segment>, i: nat, stdout: string, pos: nat, newText: array<string>, used: nat)
    requires Sane(engine) && i <= |segs| == newText.Length && pos <= |stdout|
    requires Search(engine, segs[i..], stdout, pos, used).Some?
    reads newText
  {
    Holds(segs[i..], newText[i..], Rewritten(segs[i..], stdout, pos, Search(engine, segs[i..], stdout, pos, used).value))
  }

  /**
    The backtracking search.  It fills `newText` from `i` on; what failed branches wrote there is
    overwritten by the branch that succeeds.
   */
  method ResolveFixtureSegments(engine: Engine, segs: seq<Segment>, i: nat, stdout: string, pos: nat, newText: array<string>, used: nat)
    returns (ok: bool)
    requires Sane(engine) && Alternate(segs) && i <= |segs| == newText.Length && pos <= |stdout|
    modifies newText
    ensures newText[..i] == old(newText[..i])
    ensures ok <==> Search(engine, segs[i..], stdout, pos, used).Some?
    ensures ok ==> Filled(engine, segs, i, stdout, pos, newText, used)
    decreases |segs| - i, 4
  {
    if i == |segs| {
      return pos == |stdout|;
    }
    if segs[i].Wild? {
      ok := ResolveWild(engine, segs, i, stdout, pos, newText, used);
    } else if i + 1 == |segs| {
      ok := ResolveLast(engine, segs, i, stdout, pos, newText, used);
    } else {
      ok := ResolveLiteral(engine, segs, i, stdout, pos, newText, used);
    }
  }

  /** The segments after `i`, once the piece of segment `i` is settled. */
  method ResolveRest(engine: Engine, segs: seq<Segment>, i: nat, stdout: string, pos: nat, end: nat, newText: array<string>, used: nat)
    returns (ok: bool)
    requires Sane(engine) && Alternate(segs) && i < |segs| == newText.Length && pos <= end <= |stdout|
    requires segs[i].Literal? ==> newText[i] == stdout[pos..end]
    modifies newText
    ensures newText[..i] == old(newText[..i])
    ensures ok <==> Search(engine, segs[i + 1..], stdout, end, used).Some?
    ensures ok ==> Holds(segs[i..], newText[i..],
                         Rewritten(segs[i..], stdout, pos, [end] + Search(engine, segs[i + 1..], stdout, end, used).value))
    decreases |segs| - i, 0
  {
    ghost var before := newText[..i + 1];
    ok := ResolveFixtureSegments(engine, segs, i + 1, stdout, end, newText, used);
    assert newText[..i + 1] == before;
    assert newText[i] == before[i] && newText[..i] == before[..i];
    if ok {
      assert newText[i..][1..] == newText[i + 1..] && segs[i..][1..] == segs[i + 1..];
      HoldsMore(segs[i..], newText[i..], stdout, pos, end, Search(engine, segs[i + 1..], stdout, end, used).value);
    }
  }

  method ResolveWild(engine: Engine, segs: seq<Segment>, i: nat, stdout: string, pos: nat, newText: array<string>, used: nat)
    returns (ok: bool)
    requires Sane(engine) && Alternate(segs) && i < |segs| == newText.Length && pos <= |stdout| && segs[i].Wild?
    modifies newText
    ensures newText[..i] == old(newText[..i])
    ensures ok <==> Search(engine, segs[i..], stdout, pos, used).Some?
    ensures ok ==> Filled(engine, segs, i, stdout, pos, newText, used)
    decreases |segs| - i, 1
  {
    var loc := engine.find(segs[i].text, stdout[pos..]);
    if loc.None? {
      return false;
    }
    var end := pos + loc.value;
    ok := ResolveRest(engine, segs, i, stdout, pos, end, newText, used);
    SearchWild(engine, segs, i, stdout, pos, end, used);
  }

  lemma SearchWild(engine: Engine, segs: seq<Segment>, i: nat, stdout: string, pos: nat, end: nat, used: nat)
    requires Sane(engine) && i < |segs| && pos <= end <= |stdout| && segs[i].Wild?
    requires engine.find(segs[i].text, stdout[pos..]) == Some(end - pos)
    ensures Search(engine, segs[i..], stdout, pos, used) == Choose(end, Search(engine, segs[i + 1..], stdout, end, used))
  {
    assert segs[i..][1..] == segs[i + 1..];
  }

  method ResolveLast(engine: Engine, segs: seq<Segment>, i: nat, stdout: string, pos: nat, newText: array<string>, used: nat)
    returns (ok: bool)
    requires Sane(engine) && Alternate(segs) && i + 1 == |segs| == newText.Length && pos <= |stdout| && segs[i].Literal?
    modifies newText
    ensures newText[..i] == old(newText[..i])
    ensures ok <==> Search(engine, segs[i..], stdout, pos, used).Some?
    ensures ok ==> Filled(engine, segs, i, stdout, pos, newText, used)
    decreases |segs| - i, 1
  {
    SearchLast(engine, segs, i, stdout, pos, used);
    newText[i] := stdout[pos..];
    var used' := used;
    if newText[i] != segs[i].text {
      used' := used' + 1;
      if used' > MAX_FALLBACKS {
        return false;
      }
    }
    assert stdout[pos..] == stdout[pos..|stdout|];
    ok := ResolveRest(engine, segs, i, stdout, pos, |stdout|, newText, used');
  }

  lemma SearchLast(engine: Engine, segs: seq<Segment>, i: nat, stdout: string, pos: nat, used: nat)
    requires Sane(engine) && i + 1 == |segs| && pos <= |stdout| && segs[i].Literal?
    ensures var used' := if stdout[pos..] != segs[i].text then used + 1 else used;
            Search(engine, segs[i..], stdout, pos, used) ==
            if used' > used && used' > MAX_FALLBACKS then None
            else Choose(|stdout|, Search(engine, segs[i + 1..], stdout, |stdout|, used'))
  {
    assert segs[i..][1..] == segs[i + 1..] == [];
  }

  /** One candidate end for the literal at `i`. */
  method TryCandidate(engine: Engine, segs: seq<Segment>, i: nat, stdout: string, pos: nat, end: nat, newText: array<string>, used: nat)
    returns (ok: bool)
    requires Sane(engine) && Alternate(segs) && i + 1 < |segs| == newText.Length && segs[i].Literal?
    requires pos <= end <= |stdout|
    modifies newText
    ensures newText[..i] == old(newText[..i])
    ensures ok <==> Search(engine, segs[i + 1..], stdout, end, used).Some?
    ensures ok ==> Holds(segs[i..], newText[i..],
                         Rewritten(segs[i..], stdout, pos, [end] + Search(engine, segs[i + 1..], stdout, end, used).value))
    decreases |segs| - i, 1
  {
    newText[i] := stdout[pos..end];
    ok := ResolveRest(engine, segs, i, stdout, pos, end, newText, used);
  }

  /** The candidates in turn, until one leads to the end. */
  method TryCandidates(engine: Engine, segs: seq<Segment>, i: nat, stdout: string, pos: nat, cs: seq<Candidate>, newText: array<string>, used: nat)
    returns (ok: bool)
    requires Sane(engine) && Alternate(segs) && i + 1 < |segs| == newText.Length && pos <= |stdout| && segs[i].Literal?
    requires CandidatesInRange(cs, stdout, pos)
    modifies newText
    ensures newText[..i] == old(newText[..i])
    ensures ok <==> SearchAmong(engine, segs[i..], stdout, pos, used, cs).Some?
    ensures ok ==> Holds(segs[i..], newText[i..],
                         Rewritten(segs[i..], stdout, pos, SearchAmong(engine, segs[i..], stdout, pos, used, cs).value))
    decreases |segs| - i, 2
  {
    ghost var whole := SearchAmong(engine, segs[i..], stdout, pos, used, cs);
    assert cs[0..] == cs;
    for k := 0 to |cs|
      invariant newText[..i] == old(newText[..i])
      invariant whole == SearchAmong(engine, segs[i..], stdout, pos, used, cs[k..])
    {
      var c := cs[k];
      var used' := used;
      if !c.fromOldText {
        used' := used' + 1;
        if used' > MAX_FALLBACKS {
          AmongSkip(engine, segs, i, stdout, pos, used, cs, k);
          continue;
        }
      }
      AmongTry(engine, segs, i, stdout, pos, used, cs, k, used');
      var found := TryCandidate(engine, segs, i, stdout, pos, c.end, newText, used');
      if found {
        return true;
      }
    }
    return false;
  }

  method ResolveLiteral(engine: Engine, segs: seq<Segment>, i: nat, stdout: string, pos: nat, newText: array<string>, used: nat)
    returns (ok: bool)
    requires Sane(engine) && Alternate(segs) && i + 1 < |segs| == newText.Length && pos <= |stdout| && segs[i].Literal?
    modifies newText
    ensures newText[..i] == old(newText[..i])
    ensures ok <==> Search(engine, segs[i..], stdout, pos, used).Some?
    ensures ok ==> Filled(engine, segs, i, stdout, pos, newText, used)
    decreases |segs| - i, 3
  {
    var cs := LiteralEndCandidates(engine, segs[i + 1].text, stdout, pos, segs[i].text);
    SearchLiteral(engine, segs, i, stdout, pos, used, cs);
    ok := TryCandidates(engine, segs, i, stdout, pos, cs, newText, used);
  }

  lemma SearchLiteral(engine: Engine, segs: seq<Segment>, i: nat, stdout: string, pos: nat, used: nat, cs: seq<Candidate>)
    requires Sane(engine) && i + 1 < |segs| && pos <= |stdout| && segs[i].Literal?
    requires cs == Candidates(engine, segs[i + 1].text, stdout, pos, segs[i].text)
    ensures Search(engine, segs[i..], stdout, pos, used) == SearchAmong(engine, segs[i..], stdout, pos, used, cs)
  {
    assert segs[i..][1] == segs[i + 1];
  }

  /** A candidate beyond the budget is passed over. */
  lemma AmongSkip(engine: Engine, segs: seq<Segment>, i: nat, stdout: string, pos: nat, used: nat, cs: seq<Candidate>, k: nat)
    requires Sane(engine) && i + 1 < |segs| && pos <= |stdout| && CandidatesInRange(cs, stdout, pos) && k < |cs|
    requires !cs[k].fromOldText && used + 1 > MAX_FALLBACKS
    ensures SearchAmong(engine, segs[i..], stdout, pos, used, cs[k..]) == SearchAmong(engine, segs[i..], stdout, pos, used, cs[k + 1..])
  {
    assert cs[k..][1..] == cs[k + 1..];
  }

  /** Any other candidate is tried, and the next ones only if it fails. */
  lemma AmongTry(engine: Engine, segs: seq<Segment>, i: nat, stdout: string, pos: nat, used: nat, cs: seq<Candidate>, k: nat, used': nat)
    requires Sane(engine) && i + 1 < |segs| && pos <= |stdout| && CandidatesInRange(cs, stdout, pos) && k < |cs|
    requires used' == if cs[k].fromOldText then used else used + 1
    requires used' > used ==> used' <= MAX_FALLBACKS
    ensures var here := Search(engine, segs[i + 1..], stdout, cs[k].end, used');
            SearchAmong(engine, segs[i..], stdout, pos, used, cs[k..]) ==
            if here.Some? then Some([cs[k].end] + here.value) else SearchAmong(engine, segs[i..], stdout, pos, used, cs[k + 1..])
  {
    assert cs[k..][1..] == cs[k + 1..] && segs[i..][1..] == segs[i + 1..];
  }

  // ----- the splice

  predicate Compiles(engine: Engine, segs: seq<Segment>) {
    forall i :: 0 <= i < |segs| && segs[i].Wild? ==> engine.compiles(segs[i].text)
  }

  predicate HasLiteral(segs: seq<Segment>) {
    exists i :: 0 <= i < |segs| && segs[i].Literal?
  }

  /** The new segments, or nothing when the fixture cannot be reconciled with the output. */
  function Resolved(engine: Engine, pattern: string, stdout: string): Option<seq<Segment>>
    requires Sane(engine)
  {
    var segs := ParseSegments(pattern);
    if !HasLiteral(segs) || !Compiles(engine, segs) then None
    else
      match Search(engine, segs, stdout, 0, 0)
      case None => None
      case Some(ends) => Some(Rewritten(segs, stdout, 0, ends))
  }

  function Splice(engine: Engine, pattern: string, stdout: string): Option<string>
    requires Sane(engine)
  {
    match Resolved(engine, pattern, stdout)
    case None => None
    case Some(news) => Some(Print(news))
  }

  method CountLiterals(segs: seq<Segment>) returns (n: nat)
    ensures n > 0 <==> HasLiteral(segs)
  {
    n := 0;
    for i := 0 to |segs|
      invariant n > 0 <==> exists j :: 0 <= j < i && segs[j].Literal?
    {
      if segs[i].Literal? {
        n := n + 1;
      }
    }
  }

  method CompileWilds(engine: Engine, segs: seq<Segment>) returns (ok: bool)
    ensures ok <==> Compiles(engine, segs)
  {
    for i := 0 to |segs|
      invariant forall j :: 0 <= j < i && segs[j].Wild? ==> engine.compiles(segs[j].text)
    {
      if segs[i].Wild? && !engine.compiles(segs[i].text) {
        return false;
      }
    }
    return true;
  }

  method SpliceRegexFixture(engine: Engine, pattern: string, stdout: string) returns (r: Option<string>)
    requires Sane(engine)
    ensures r == Splice(engine, pattern, stdout)
  {
    var segs := ParseFixtureSegments(pattern);
    var litCount := CountLiterals(segs);
    if litCount == 0 {
      return None;
    }
    var compiled := CompileWilds(engine, segs);
    if !compiled {
      return None;
    }
    ParsedWellFormed(pattern, []);
    WellFormedAlternate(segs, []);
    r := ResolveAndWrite(engine, segs, stdout);
  }

  method ResolveAndWrite(engine: Engine, segs: seq<Segment>, stdout: string) returns (r: Option<string>)
    requires Sane(engine) && Alternate(segs)
    ensures r == match Search(engine, segs, stdout, 0, 0)
                 case None => None
                 case Some(ends) => Some(Print(Rewritten(segs, stdout, 0, ends)))
  {
    assert segs[0..] == segs;
    var newText := new string[|segs|];
    var ok := ResolveFixtureSegments(engine, segs, 0, stdout, 0, newText, 0);
    if !ok {
      return None;
    }
    ghost var ends := Search(engine, segs, stdout, 0, 0).value;
    RewrittenWilds(segs, stdout, 0, ends);
    assert newText[0..] == newText[..];
    var out := WriteSegments(segs, newText[..], Rewritten(segs, stdout, 0, ends));
    return Some(out);
  }

  method WriteSegments(segs: seq<Segment>, newText: seq<string>, ghost news: seq<Segment>) returns (out: string)
    requires Holds(segs, newText, news) && SameWilds(segs, news)
    ensures out == Print(news)
  {
    out := "";
    for i := 0 to |segs|
      invariant SameWilds(segs[i..], news[i..])
      invariant Print(news) == out + Print(news[i..])
    {
      assert segs[i..][0] == segs[i] && news[i..][0] == news[i];
      assert segs[i..][1..] == segs[i + 1..] && news[i..][1..] == news[i + 1..];
      var text := if segs[i].Literal? then QuoteMeta(newText[i]) else segs[i].text;
      assert Print(news[i..]) == text + Print(news[i + 1..]);
      Regroup(out, text, Print(news[i + 1..]));
      out := out + text;
    }
  }

  // ----- main results

  /**
    A splice keeps every wildcard, covers the output exactly by its literals and the wildcards'
    matches in order, and changes the ending of at most one literal.
   */
  lemma SpliceSound(engine: Engine, pattern: string, stdout: string, news: seq<Segment>)
    requires Sane(engine) && Resolved(engine, pattern, stdout) == Some(news)
    ensures Splice(engine, pattern, stdout) == Some(Print(news))
    ensures SameWilds(ParseSegments(pattern), news)
    ensures Consumes(engine, news, stdout)
    ensures Changed(ParseSegments(pattern), news) <= 1
  {
    var segs := ParseSegments(pattern);
    var ends := Search(engine, segs, stdout, 0, 0).value;
    SearchSound(engine, segs, stdout, 0, 0, ends);
    FitConsumes(engine, segs, stdout, 0, ends, 0);
    FitChanges(engine, segs, stdout, 0, ends, 0);
    RewrittenWilds(segs, stdout, 0, ends);
    assert stdout[0..] == stdout;
  }

  /** A fixture is given up only when it has no literal, a wildcard does not compile, or nothing fits. */
  lemma SpliceComplete(engine: Engine, pattern: string, stdout: string)
    requires Sane(engine)
    ensures Splice(engine, pattern, stdout).Some? <==>
            var segs := ParseSegments(pattern);
            HasLiteral(segs) && Compiles(engine, segs) && exists ends :: Splits(engine, segs, stdout, ends)
  {
    SearchExact(engine, ParseSegments(pattern), stdout);
  }

  /** The ends split the whole output among the segments, with no guess used up beforehand. */
  predicate Splits(engine: Engine, segs: seq<Segment>, stdout: string, ends: seq<nat>) {
    Fit(engine, segs, stdout, 0, ends, 0)
  }

  lemma SearchExact(engine: Engine, segs: seq<Segment>, stdout: string)
    requires Sane(engine)
    ensures Search(engine, segs, stdout, 0, 0).Some? <==> exists ends :: Splits(engine, segs, stdout, ends)
  {
    var r := Search(engine, segs, stdout, 0, 0);
    if r.Some? {
      SearchSound(engine, segs, stdout, 0, 0, r.value);
      assert Splits(engine, segs, stdout, r.value);
    }
    if ends :| Splits(engine, segs, stdout, ends) {
      SearchComplete(engine, segs, stdout, 0, ends, 0);
    }
  }

  /** A fixture whose segments already cover the output is returned as it was. */
  lemma SpliceUnchanged(engine: Engine, pattern: string, stdout: string)
    requires Sane(engine) && HasLiteral(ParseSegments(pattern)) && Compiles(engine, ParseSegments(pattern))
    requires Consumes(engine, ParseSegments(pattern), stdout)
    ensures Resolved(engine, pattern, stdout) == Some(ParseSegments(pattern))
    ensures Splice(engine, pattern, stdout) == Some(pattern)
  {
    var segs := ParseSegments(pattern);
    ParsedWellFormed(pattern, []);
    WellFormedAlternate(segs, []);
    PrintOfParse(pattern);
    assert stdout[0..] == stdout;
    var ends := ConsumedUnchanged(engine, segs, stdout, 0, 0);
  }

  predicate NonEmptyTexts(segs: seq<Segment>) {
    forall i :: 0 <= i < |segs| ==> segs[i].text != ""
  }

  lemma {:induction false} SameWildsWellFormed(segs: seq<Segment>, news: seq<Segment>, stack: seq<char>)
    requires WellFormed(segs, stack) && SameWilds(segs, news) && NonEmptyTexts(news)
    ensures WellFormed(news, stack)
  {
    if segs != [] {
      assert forall i :: 0 <= i < |news[1..]| ==> news[1..][i] == news[i + 1];
      SameWildsWellFormed(segs[1..], news[1..], []);
    }
  }

  /** The new fixture splits into the new segments exactly when no literal became empty. */
  lemma SpliceReparses(engine: Engine, pattern: string, stdout: string, news: seq<Segment>)
    requires Sane(engine) && Resolved(engine, pattern, stdout) == Some(news)
    ensures ParseSegments(Print(news)) == news <==> NonEmptyTexts(news)
  {
    SpliceSound(engine, pattern, stdout, news);
    ParsedWellFormed(pattern, []);
    if NonEmptyTexts(news) {
      SameWildsWellFormed(ParseSegments(pattern), news, []);
      ParseOfPrint(news, []);
    }
    ParsedWellFormed(Print(news), []);
    WellFormedAlternate(ParseSegments(Print(news)), []);
  }

  /** The ends leave every literal some text. */
  predicate LeavesText(segs: seq<Segment>, stdout: string, ends: seq<nat>) {
    |ends| == |segs| && NonEmptyTexts(Rewritten(segs, stdout, 0, ends))
  }

  /** An engine on which "." takes one byte. */
  const DOT := Engine(re => true, (re, s) => if s != "" then Some(1) else None)

  lemma SegmentsOfADot()
    ensures ParseSegments("a.") == [Literal("a"), Wild(".")]
  {
    assert "a."[1..] == "." && "."[1..] == "";
    assert FirstUnit("a.", []) == Byte('a') && FirstUnit(".", []) == Syntax(".");
    assert Units(".", []) == [Syntax(".")];
    assert Units("a.", []) == [Byte('a'), Syntax(".")];
    assert [Byte('a'), Syntax(".")][1..] == [Syntax(".")];
    assert Group([Syntax(".")]) == [Wild(".")];
  }

  lemma DotSplits()
    ensures Splits(DOT, [Literal("a"), Wild(".")], "5", [0, 1])
  {
    var segs := [Literal("a"), Wild(".")];
    assert segs[1..] == [Wild(".")] && segs[1..][1..] == [];
    assert "5"[1..] == "" && "5"[0..] == "5";
    assert Fit(DOT, [Wild(".")], "5", 0, [1], 1);
    FitMore(DOT, segs, "5", 0, 0, [1], 0);
    assert [0] + [1] == [0, 1];
  }

  lemma DotConsumes(news: seq<Segment>)
    requires SameWilds([Literal("a"), Wild(".")], news) && Consumes(DOT, news, "5")
    ensures news == [Literal(""), Wild(".")]
  {
    var segs := [Literal("a"), Wild(".")];
    SameWildsAt(segs, news, 0);
    SameWildsAt(segs, news, 1);
    var rest := "5"[|news[0].text|..];
    assert news[1..][0] == Wild(".") && news[1..][1..] == [];
    assert Consumes(DOT, news[1..], rest);
    assert rest[1..] == "" && |rest| == 1;
  }

  /** The literal of "a." can only become empty when the output is "5": then the new fixture is ".". */
  lemma EmptyLiteral()
    ensures Sane(DOT) && Resolved(DOT, "a.", "5") == Some([Literal(""), Wild(".")])
    ensures ParseSegments(Print([Literal(""), Wild(".")])) != [Literal(""), Wild(".")]
  {
    SegmentsOfADot();
    DotSplits();
    assert ParseSegments("a.")[0].Literal?;
    SpliceComplete(DOT, "a.", "5");
    var news := Resolved(DOT, "a.", "5").value;
    SpliceSound(DOT, "a.", "5", news);
    DotConsumes(news);
    SpliceReparses(DOT, "a.", "5", news);
  }

  lemma {:induction false} SameWildsAt(segs: seq<Segment>, news: seq<Segment>, i: nat)
    requires SameWilds(segs, news) && i < |segs|
    ensures news[i].Literal? == segs[i].Literal? && (segs[i].Wild? ==> news[i] == segs[i])
  {
    if i > 0 {
      SameWildsAt(segs[1..], news[1..], i - 1);
    }
  }

  lemma SameWildsKeeps(engine: Engine, segs: seq<Segment>, news: seq<Segment>)
    requires SameWilds(segs, news)
    ensures HasLiteral(segs) ==> HasLiteral(news)
    ensures Compiles(engine, segs) ==> Compiles(engine, news)
  {
    forall i | 0 <= i < |segs|
      ensures news[i].Literal? == segs[i].Literal? && (segs[i].Wild? ==> news[i] == segs[i])
    {
      SameWildsAt(segs, news, i);
    }
    if HasLiteral(segs) {
      var i :| 0 <= i < |segs| && segs[i].Literal?;
      assert news[i].Literal?;
    }
    if Compiles(engine, segs) {
      forall i | 0 <= i < |news| && news[i].Wild?
        ensures engine.compiles(news[i].text)
      {
        assert segs[i].Wild?;
      }
    }
  }

  /** Splicing again changes nothing, unless the first splice left a literal empty. */
  lemma SpliceStable(engine: Engine, pattern: string, stdout: string, news: seq<Segment>)
    requires Sane(engine) && Resolved(engine, pattern, stdout) == Some(news) && NonEmptyTexts(news)
    ensures Splice(engine, Print(news), stdout) == Some(Print(news))
  {
    SpliceSound(engine, pattern, stdout, news);
    SpliceReparses(engine, pattern, stdout, news);
    SameWildsKeeps(engine, ParseSegments(pattern), news);
    SpliceUnchanged(engine, Print(news), stdout);
  }
}
