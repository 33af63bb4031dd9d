/** Node selector requirements over labels, and a Pod's hard constraints flattened into one list. */
module NodeSelectors {
  import opened Wrappers
  import opened Strings
  import opened Ordering

  /** `Unknown` stands for every other spelling, the missing operator included. */
  datatype Operator = In | NotIn | Exists | DoesNotExist | Gt | Lt | Unknown(name: string)

  datatype Requirement = Requirement(key: string, operator: Operator, values: seq<string>)

  datatype Term = Term(matchExpressions: seq<Requirement>, matchFields: seq<Requirement>)

  // ----- comparing numbers

  predicate NumericLess(a: string, b: string) {
    ParseInt64(a).Some? && ParseInt64(b).Some? && ParseInt64(a).value < ParseInt64(b).value
  }

  // ----- matching

  /** An absent label satisfies NotIn and DoesNotExist only; an unknown operator is never satisfied. */
  predicate Matches(r: Requirement, labels: map<string, string>) {
    var present := r.key in labels;
    match r.operator
    case In => present && labels[r.key] in r.values
    case NotIn => !present || labels[r.key] !in r.values
    case Exists => present
    case DoesNotExist => !present
    case Gt => present && |r.values| == 1 && NumericLess(r.values[0], labels[r.key])
    case Lt => present && |r.values| == 1 && NumericLess(labels[r.key], r.values[0])
    case Unknown(_) => false
  }

  /** Of the operators, an absent label satisfies two, and a present one In or NotIn, and numbers by their order. */
  lemma OperatorsExact(key: string, values: seq<string>, labels: map<string, string>)
    ensures key !in labels ==>
              forall op: Operator :: Matches(Requirement(key, op, values), labels) <==> op.NotIn? || op.DoesNotExist?
    ensures key in labels ==>
              && (Matches(Requirement(key, In, values), labels) <==> exists i :: 0 <= i < |values| && values[i] == labels[key])
              && (Matches(Requirement(key, NotIn, values), labels) <==> !Matches(Requirement(key, In, values), labels))
              && Matches(Requirement(key, Exists, values), labels) && !Matches(Requirement(key, DoesNotExist, values), labels)
    ensures key in labels && |values| == 1 && ParseInt64(labels[key]).Some? && ParseInt64(values[0]).Some? ==>
              var actual, bound := ParseInt64(labels[key]).value, ParseInt64(values[0]).value;
              && (Matches(Requirement(key, Gt, values), labels) <==> actual > bound)
              && (Matches(Requirement(key, Lt, values), labels) <==> actual < bound)
    ensures |values| != 1 || ParseInt64(values[0]).None? || (key in labels && ParseInt64(labels[key]).None?) ==>
              !Matches(Requirement(key, Gt, values), labels) && !Matches(Requirement(key, Lt, values), labels)
  {
  }

  predicate AllMatch(rs: seq<Requirement>, labels: map<string, string>) {
    forall i :: 0 <= i < |rs| ==> Matches(rs[i], labels)
  }

  predicate TermMatches(t: Term, labels: map<string, string>, fields: map<string, string>) {
    AllMatch(t.matchExpressions, labels) && AllMatch(t.matchFields, fields)
  }

  /** A term that is not a map matches nothing; no terms at all constrain nothing. */
  predicate TermsMatch(terms: seq<Option<Term>>, labels: map<string, string>, fields: map<string, string>) {
    terms == [] || exists i :: 0 <= i < |terms| && terms[i].Some? && TermMatches(terms[i].value, labels, fields)
  }

  method StringSliceContains(values: seq<string>, s: string) returns (found: bool)
    ensures found <==> s in values
  {
    for i := 0 to |values|
      invariant s !in values[..i]
    {
      if values[i] == s {
        return true;
      }
    }
    return false;
  }

  method StringSlicesIntersect(a: seq<string>, b: seq<string>) returns (found: bool)
    ensures found <==> exists v :: v in a && v in b
  {
    for i := 0 to |a|
      invariant forall v :: v in a[..i] ==> v !in b
    {
      var shared := StringSliceContains(b, a[i]);
      if shared {
        return true;
      }
    }
    return false;
  }

  method StringSliceSubset(a: seq<string>, b: seq<string>) returns (subset: bool)
    ensures subset <==> forall v :: v in a ==> v in b
  {
    for i := 0 to |a|
      invariant forall v :: v in a[..i] ==> v in b
    {
      var shared := StringSliceContains(b, a[i]);
      if !shared {
        return false;
      }
    }
    return true;
  }

  method RequirementMatches(r: Requirement, labels: map<string, string>) returns (ok: bool)
    ensures ok == Matches(r, labels)
  {
    var present := r.key in labels;
    match r.operator
    case In =>
      if present {
        ok := StringSliceContains(r.values, labels[r.key]);
      } else {
        ok := false;
      }
    case NotIn =>
      if present {
        var listed := StringSliceContains(r.values, labels[r.key]);
        ok := !listed;
      } else {
        ok := true;
      }
    case Exists => ok := present;
    case DoesNotExist => ok := !present;
    case Gt => ok := present && |r.values| == 1 && NumericLess(r.values[0], labels[r.key]);
    case Lt => ok := present && |r.values| == 1 && NumericLess(labels[r.key], r.values[0]);
    case Unknown(_) => ok := false;
  }

  method AllRequirementsMatch(rs: seq<Requirement>, labels: map<string, string>) returns (ok: bool)
    ensures ok == AllMatch(rs, labels)
  {
    for i := 0 to |rs|
      invariant AllMatch(rs[..i], labels)
    {
      var one := RequirementMatches(rs[i], labels);
      if !one {
        return false;
      }
    }
    assert rs[..|rs|] == rs;
    return true;
  }

  method NodeSelectorTermMatches(t: Term, labels: map<string, string>, fields: map<string, string>) returns (ok: bool)
    ensures ok == TermMatches(t, labels, fields)
  {
    var expressions := AllRequirementsMatch(t.matchExpressions, labels);
    if !expressions {
      return false;
    }
    ok := AllRequirementsMatch(t.matchFields, fields);
  }

  method NodeSelectorTermsMatch(terms: seq<Option<Term>>, labels: map<string, string>, fields: map<string, string>) returns (ok: bool)
    ensures ok == TermsMatch(terms, labels, fields)
  {
    if |terms| == 0 {
      return true;
    }
    for i := 0 to |terms|
      invariant forall j :: 0 <= j < i && terms[j].Some? ==> !TermMatches(terms[j].value, labels, fields)
    {
      if terms[i].Some? {
        var one := NodeSelectorTermMatches(terms[i].value, labels, fields);
        if one {
          return true;
        }
      }
    }
    return false;
  }

  // ----- a Pod's hard constraints

  function Selected(nodeSelector: map<string, string>, keys: seq<string>): (r: seq<Requirement>)
    requires forall i :: 0 <= i < |keys| ==> keys[i] in nodeSelector
    ensures |r| == |keys|
    ensures forall i :: 0 <= i < |r| ==> r[i] == Requirement(keys[i], In, [nodeSelector[keys[i]]])
  {
    seq(|keys|, i requires 0 <= i < |keys| => Requirement(keys[i], In, [nodeSelector[keys[i]]]))
  }

  /** The match expressions, when there is no choice of terms. */
  function Expressions(terms: seq<Option<Term>>): seq<Requirement> {
    if |terms| == 1 && terms[0].Some? then terms[0].value.matchExpressions else []
  }

  function HardConstraints(nodeSelector: map<string, string>, terms: seq<Option<Term>>): seq<Requirement> {
    Selected(nodeSelector, Sorted(nodeSelector.Keys)) + Expressions(terms)
  }

  /** One requirement for each nodeSelector entry, in the order of `keys`. */
  method NodeSelectorRequirements(nodeSelector: map<string, string>, keys: seq<string>) returns (r: seq<Requirement>)
    requires forall i :: 0 <= i < |keys| ==> keys[i] in nodeSelector
    ensures r == Selected(nodeSelector, keys)
  {
    r := [];
    for i := 0 to |keys|
      invariant r == Selected(nodeSelector, keys)[..i]
    {
      r := r + [Requirement(keys[i], In, [nodeSelector[keys[i]]])];
    }
  }

  /** The requirements of the only term, one by one. */
  method TermRequirements(terms: seq<Option<Term>>) returns (r: seq<Requirement>)
    ensures r == Expressions(terms)
  {
    r := [];
    if |terms| == 1 && terms[0].Some? {
      var expressions := terms[0].value.matchExpressions;
      for i := 0 to |expressions|
        invariant r == expressions[..i]
      {
        r := r + [expressions[i]];
      }
    }
  }

  method PodHardConstraintRequirements(nodeSelector: map<string, string>, terms: seq<Option<Term>>) returns (r: seq<Requirement>)
    ensures r == HardConstraints(nodeSelector, terms)
  {
    var selected := NodeSelectorRequirements(nodeSelector, Sorted(nodeSelector.Keys));
    var expressions := TermRequirements(terms);
    r := selected + expressions;
  }

  predicate Has(labels: map<string, string>, nodeSelector: map<string, string>) {
    forall k :: k in nodeSelector ==> k in labels && labels[k] == nodeSelector[k]
  }

  /** What the scheduler demands of a node. */
  predicate Fits(nodeSelector: map<string, string>, terms: seq<Option<Term>>, labels: map<string, string>, fields: map<string, string>) {
    Has(labels, nodeSelector) && TermsMatch(terms, labels, fields)
  }

  lemma SelectedExact(nodeSelector: map<string, string>, keys: seq<string>, labels: map<string, string>)
    requires forall k :: k in keys <==> k in nodeSelector
    ensures AllMatch(Selected(nodeSelector, keys), labels) <==> Has(labels, nodeSelector)
  {
    var rs := Selected(nodeSelector, keys);
    forall i | 0 <= i < |rs|
      ensures Matches(rs[i], labels) <==> keys[i] in labels && labels[keys[i]] == nodeSelector[keys[i]]
    {
    }
    forall k | k in nodeSelector && AllMatch(rs, labels)
      ensures k in labels && labels[k] == nodeSelector[k]
    {
      var i :| 0 <= i < |keys| && keys[i] == k;
      assert Matches(rs[i], labels);
    }
  }

  /**
    Every node a Pod fits on meets its flattened constraints; with at most one term, which must be a
    map without field selectors, the flattening loses nothing.
   */
  lemma HardConstraintsNecessary(nodeSelector: map<string, string>, terms: seq<Option<Term>>, labels: map<string, string>, fields: map<string, string>)
    ensures Fits(nodeSelector, terms, labels, fields) ==> AllMatch(HardConstraints(nodeSelector, terms), labels)
    ensures (terms == [] || (|terms| == 1 && terms[0].Some? && terms[0].value.matchFields == [])) ==>
              (AllMatch(HardConstraints(nodeSelector, terms), labels) <==> Fits(nodeSelector, terms, labels, fields))
  {
    SelectedExact(nodeSelector, Sorted(nodeSelector.Keys), labels);
    AllMatchConcat(Selected(nodeSelector, Sorted(nodeSelector.Keys)), Expressions(terms), labels);
    ExpressionsNecessary(terms, labels, fields);
  }

  lemma ExpressionsNecessary(terms: seq<Option<Term>>, labels: map<string, string>, fields: map<string, string>)
    ensures TermsMatch(terms, labels, fields) ==> AllMatch(Expressions(terms), labels)
    ensures (terms == [] || (|terms| == 1 && terms[0].Some? && terms[0].value.matchFields == [])) ==>
              (AllMatch(Expressions(terms), labels) <==> TermsMatch(terms, labels, fields))
  {
    if |terms| == 1 && terms[0].Some? {
      assert TermsMatch(terms, labels, fields) <==> TermMatches(terms[0].value, labels, fields);
    }
  }

  lemma AllMatchConcat(a: seq<Requirement>, b: seq<Requirement>, labels: map<string, string>)
    ensures AllMatch(a + b, labels) <==> AllMatch(a, labels) && AllMatch(b, labels)
  {
    if AllMatch(a + b, labels) {
      assert forall i :: 0 <= i < |a| ==> a[i] == (a + b)[i];
      assert forall i :: 0 <= i < |b| ==> b[i] == (a + b)[|a| + i];
    }
  }
}
