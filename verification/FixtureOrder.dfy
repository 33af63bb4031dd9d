/**
  Which split of the output a splice takes.  Several ways of ending the literals may lead to the end of
  the output; the search returns the first of them, in the order in which candidate ends are tried.
 */
module FixtureOrder {
  import opened Wrappers
  import opened FixtureSegments
  import opened FixtureSplice

  /** Where segment `k` starts. */
  function Start(pos: nat, ends: seq<nat>, k: nat): nat
    requires k <= |ends|
  {
    if k == 0 then pos else ends[k - 1]
  }

  /** The end of the literal `segs[0]`, with whether its old text stands there. */
  function AsCandidate(engine: Engine, segs: seq<Segment>, stdout: string, pos: nat, end: nat): Candidate
    requires |segs| > 1
  {
    Candidate(end, IsOldEnd(engine, segs[1].text, stdout, pos, segs[0].text, end))
  }

  /** The ends first differ at segment `k`, a literal before a wildcard, for which that of `a` is tried first. */
  ghost predicate PrecedesAt(engine: Engine, segs: seq<Segment>, stdout: string, pos: nat, a: seq<nat>, b: seq<nat>, k: nat) {
    && k + 1 < |segs| == |a| == |b| && segs[k].Literal?
    && a[..k] == b[..k] && a[k] != b[k]
    && var start := Start(pos, a, k);
       TriedBefore(stdout, start, segs[k].text,
                   AsCandidate(engine, segs[k..], stdout, start, a[k]), AsCandidate(engine, segs[k..], stdout, start, b[k]))
  }

  ghost predicate Precedes(engine: Engine, segs: seq<Segment>, stdout: string, pos: nat, a: seq<nat>, b: seq<nat>) {
    exists k: nat :: PrecedesAt(engine, segs, stdout, pos, a, b, k)
  }

  /** The same first end in front of both. */
  lemma PrecedesMore(engine: Engine, segs: seq<Segment>, stdout: string, pos: nat, end: nat, a: seq<nat>, b: seq<nat>)
    requires segs != [] && Precedes(engine, segs[1..], stdout, end, a, b)
    ensures Precedes(engine, segs, stdout, pos, [end] + a, [end] + b)
  {
    var k: nat :| PrecedesAt(engine, segs[1..], stdout, end, a, b, k);
    assert segs[1..][k..] == segs[k + 1..];
    assert ([end] + a)[..k + 1] == [end] + a[..k] && ([end] + b)[..k + 1] == [end] + b[..k];
    assert PrecedesAt(engine, segs, stdout, pos, [end] + a, [end] + b, k + 1);
  }

  // ----- the search

  /** A candidate the search passes over: beyond the budget, or one that leads nowhere. */
  predicate Fails(engine: Engine, segs: seq<Segment>, stdout: string, used: nat, c: Candidate)
    requires Sane(engine) && |segs| > 1 && c.end <= |stdout|
  {
    var used' := if c.fromOldText then used else used + 1;
    (used' > used && used' > MAX_FALLBACKS) || Search(engine, segs[1..], stdout, c.end, used').None?
  }

  /** The search takes the first candidate that does not fail. */
  lemma {:induction false} AmongTaken(engine: Engine, segs: seq<Segment>, stdout: string, pos: nat, used: nat, cs: seq<Candidate>, ends: seq<nat>)
    returns (j: nat)
    requires pos <= |stdout| && Sane(engine) && |segs| > 1 && CandidatesInRange(cs, stdout, pos)
    requires SearchAmong(engine, segs, stdout, pos, used, cs) == Some(ends)
    ensures j < |cs| && |ends| == |segs| && ends[0] == cs[j].end
    ensures Search(engine, segs[1..], stdout, ends[0], if cs[j].fromOldText then used else used + 1) == Some(ends[1..])
    ensures forall i :: 0 <= i < j ==> Fails(engine, segs, stdout, used, cs[i])
    decreases |cs|
  {
    if Fails(engine, segs, stdout, used, cs[0]) {
      var j' := AmongTaken(engine, segs, stdout, pos, used, cs[1..], ends);
      j := j' + 1;
      assert cs[j] == cs[1..][j'];
      assert forall i :: 0 < i < j ==> cs[i] == cs[1..][i - 1];
    } else {
      j := 0;
    }
  }

  /** A first end that belongs to a fit does not fail. */
  lemma FitsDoNotFail(engine: Engine, segs: seq<Segment>, stdout: string, pos: nat, used: nat, o: seq<nat>)
    requires Sane(engine) && |segs| > 1 && segs[0].Literal? && Fit(engine, segs, stdout, pos, o, used)
    ensures |o| == |segs| && pos <= o[0] <= |stdout|
    ensures IsCandidate(engine, segs[1].text, stdout, pos, segs[0].text, AsCandidate(engine, segs, stdout, pos, o[0]))
    ensures !Fails(engine, segs, stdout, used, AsCandidate(engine, segs, stdout, pos, o[0]))
  {
    FitFirst(engine, segs, stdout, pos, o, used);
    SearchComplete(engine, segs[1..], stdout, o[0], o[1..], Used(engine, segs, stdout, pos, o[0], used));
  }

  /** The end the search takes for a literal is that of any other fit, or is tried before it. */
  lemma LiteralFirst(engine: Engine, segs: seq<Segment>, stdout: string, pos: nat, used: nat, ends: seq<nat>, o: seq<nat>)
    requires Sane(engine) && pos <= |stdout| && |segs| > 1 && segs[0].Literal?
    requires Search(engine, segs, stdout, pos, used) == Some(ends) && Fit(engine, segs, stdout, pos, o, used)
    ensures |ends| == |o| == |segs| && ends[0] <= |stdout|
    ensures Search(engine, segs[1..], stdout, ends[0], Used(engine, segs, stdout, pos, ends[0], used)) == Some(ends[1..])
    ensures ends[0] == o[0] ||
            TriedBefore(stdout, pos, segs[0].text,
                        AsCandidate(engine, segs, stdout, pos, ends[0]), AsCandidate(engine, segs, stdout, pos, o[0]))
  {
    var cs := Candidates(engine, segs[1].text, stdout, pos, segs[0].text);
    CandidatesInOrder(engine, segs[1].text, stdout, pos, segs[0].text);
    var j := AmongTaken(engine, segs, stdout, pos, used, cs, ends);
    assert cs[j] in cs;
    FitsDoNotFail(engine, segs, stdout, pos, used, o);
    var m :| 0 <= m < |cs| && cs[m] == AsCandidate(engine, segs, stdout, pos, o[0]);
    assert m >= j;
  }

  /** What the search returns precedes every other fit. */
  lemma {:induction false} SearchFirst(engine: Engine, segs: seq<Segment>, stdout: string, pos: nat, used: nat, ends: seq<nat>, o: seq<nat>)
    requires Sane(engine) && pos <= |stdout|
    requires Search(engine, segs, stdout, pos, used) == Some(ends) && Fit(engine, segs, stdout, pos, o, used)
    ensures ends == o || Precedes(engine, segs, stdout, pos, ends, o)
    decreases |segs|
  {
    if segs != [] {
      SearchSound(engine, segs, stdout, pos, used, ends);
      FitFirst(engine, segs, stdout, pos, ends, used);
      FitFirst(engine, segs, stdout, pos, o, used);
      var used' := Used(engine, segs, stdout, pos, ends[0], used);
      if segs[0].Literal? && |segs| > 1 {
        LiteralFirst(engine, segs, stdout, pos, used, ends, o);
      } else {
        used' := FirstChoice(engine, segs, stdout, pos, used, ends);
      }
      if ends[0] == o[0] {
        SearchFirst(engine, segs[1..], stdout, ends[0], used', ends[1..], o[1..]);
        assert ends == [ends[0]] + ends[1..] && o == [o[0]] + o[1..];
        if ends != o {
          PrecedesMore(engine, segs, stdout, pos, ends[0], ends[1..], o[1..]);
        }
      } else {
        assert segs[0..] == segs && ends[..0] == o[..0];
        assert PrecedesAt(engine, segs, stdout, pos, ends, o, 0);
      }
    }
  }

  // ----- the first split

  /** The ends split the output, and precede every other way to split it. */
  ghost predicate FirstSplit(engine: Engine, segs: seq<Segment>, stdout: string, ends: seq<nat>) {
    && Splits(engine, segs, stdout, ends)
    && forall o :: Splits(engine, segs, stdout, o) ==> ends == o || Precedes(engine, segs, stdout, 0, ends, o)
  }

  /** No two candidates are each tried before the other. */
  lemma TriedOneWay(stdout: string, pos: nat, old': string, c: Candidate, d: Candidate)
    requires pos <= c.end <= |stdout| && pos <= d.end <= |stdout|
    ensures !(TriedBefore(stdout, pos, old', c, d) && TriedBefore(stdout, pos, old', d, c))
  {
    KeepsMoreExact(stdout, pos, old', c.end, d.end);
    KeepsMoreExact(stdout, pos, old', d.end, c.end);
  }

  lemma {:induction false} FitInRange(engine: Engine, segs: seq<Segment>, stdout: string, pos: nat, ends: seq<nat>, used: nat, k: nat)
    requires Fit(engine, segs, stdout, pos, ends, used) && k < |segs|
    ensures |ends| == |segs| && Start(pos, ends, k) <= ends[k] <= |stdout|
    decreases |segs|
  {
    if k > 0 {
      FitInRange(engine, segs[1..], stdout, ends[0], ends[1..], Used(engine, segs, stdout, pos, ends[0], used), k - 1);
      assert Start(pos, ends, k) == Start(ends[0], ends[1..], k - 1);
    }
  }

  lemma DifferBefore(a: seq<nat>, b: seq<nat>, k: nat, m: nat)
    requires k < m <= |a| == |b| && a[k] != b[k]
    ensures a[..m] != b[..m]
  {
    assert a[..m][k] == a[k] && b[..m][k] == b[k];
  }

  lemma PrecedesOneWay(engine: Engine, segs: seq<Segment>, stdout: string, a: seq<nat>, b: seq<nat>)
    requires Splits(engine, segs, stdout, a) && Splits(engine, segs, stdout, b)
    ensures !(Precedes(engine, segs, stdout, 0, a, b) && Precedes(engine, segs, stdout, 0, b, a))
  {
    if Precedes(engine, segs, stdout, 0, a, b) && Precedes(engine, segs, stdout, 0, b, a) {
      var k: nat :| PrecedesAt(engine, segs, stdout, 0, a, b, k);
      var m: nat :| PrecedesAt(engine, segs, stdout, 0, b, a, m);
      if k < m {
        DifferBefore(a, b, k, m);
      } else if m < k {
        DifferBefore(a, b, m, k);
      }
      FitInRange(engine, segs, stdout, 0, a, 0, k);
      FitInRange(engine, segs, stdout, 0, b, 0, k);
      assert k > 0 ==> a[..k][k - 1] == b[..k][k - 1];
      var start := Start(0, a, k);
      TriedOneWay(stdout, start, segs[k].text,
                  AsCandidate(engine, segs[k..], stdout, start, a[k]), AsCandidate(engine, segs[k..], stdout, start, b[k]));
    }
  }

  /** There is one first split whenever there is any, and the search finds it. */
  lemma SearchFindsFirst(engine: Engine, segs: seq<Segment>, stdout: string, ends: seq<nat>)
    requires Sane(engine)
    ensures Search(engine, segs, stdout, 0, 0) == Some(ends) <==> FirstSplit(engine, segs, stdout, ends)
  {
    var r := Search(engine, segs, stdout, 0, 0);
    if Splits(engine, segs, stdout, ends) {
      SearchComplete(engine, segs, stdout, 0, ends, 0);
    }
    if r.Some? {
      SearchSound(engine, segs, stdout, 0, 0, r.value);
      forall o | Splits(engine, segs, stdout, o)
        ensures r.value == o || Precedes(engine, segs, stdout, 0, r.value, o)
      {
        SearchFirst(engine, segs, stdout, 0, 0, r.value, o);
      }
      if FirstSplit(engine, segs, stdout, ends) {
        PrecedesOneWay(engine, segs, stdout, ends, r.value);
      }
    }
  }

  /** A splice writes the pieces of the first split into the literals. */
  lemma SpliceFirst(engine: Engine, pattern: string, stdout: string, out: string)
    requires Sane(engine)
    ensures Splice(engine, pattern, stdout) == Some(out) <==>
            var segs := ParseSegments(pattern);
            && HasLiteral(segs) && Compiles(engine, segs)
            && exists ends :: FirstSplit(engine, segs, stdout, ends) && |ends| == |segs| && out == Print(Rewritten(segs, stdout, 0, ends))
  {
    var segs := ParseSegments(pattern);
    forall ends
      ensures Search(engine, segs, stdout, 0, 0) == Some(ends) <==> FirstSplit(engine, segs, stdout, ends)
    {
      SearchFindsFirst(engine, segs, stdout, ends);
    }
  }

  /** The new fixture splits into the new segments exactly when the first split leaves each literal some text. */
  lemma FirstSplitReparses(engine: Engine, pattern: string, stdout: string, news: seq<Segment>)
    requires Sane(engine) && Resolved(engine, pattern, stdout) == Some(news)
    ensures ParseSegments(Print(news)) == news <==>
            var segs := ParseSegments(pattern);
            exists ends :: FirstSplit(engine, segs, stdout, ends) && LeavesText(segs, stdout, ends)
  {
    var segs := ParseSegments(pattern);
    forall ends
      ensures Search(engine, segs, stdout, 0, 0) == Some(ends) <==> FirstSplit(engine, segs, stdout, ends)
    {
      SearchFindsFirst(engine, segs, stdout, ends);
    }
    var ends := Search(engine, segs, stdout, 0, 0).value;
    assert FirstSplit(engine, segs, stdout, ends);
    SpliceReparses(engine, pattern, stdout, news);
  }
}
