/**
  Gateway API hostname patterns and certificate names, as the sets of host names they stand for.  A
  pattern's wildcard stands for one or more labels, a certificate's for exactly one (section 6.4.3 of
  RFC 6125).  Host names are ASCII and compare without regard to case.
 */
module Hostnames {
  import opened Wrappers
  import opened Sequences
  import opened Strings

  /** The suffix a "*." pattern is a wildcard for. */
  function WildcardSuffix(pattern: string): Option<string> {
    if "*." <= pattern && |pattern| > 2 then Some(pattern[2..]) else None
  }

  /** `host` is a strict subdomain of `suffix`. */
  predicate Under(host: string, suffix: string) {
    HasSuffix(Lower(host), "." + Lower(suffix))
  }

  /** The more specific of two patterns, or "" when they share no host. */
  function NarrowerHostname(a: string, b: string): string {
    match (WildcardSuffix(a), WildcardSuffix(b))
    case (None, None) => if EqualFold(a, b) then a else ""
    case (Some(s), None) => if Under(b, s) then b else ""
    case (None, Some(t)) => if Under(a, t) then a else ""
    case (Some(s), Some(t)) =>
      if EqualFold(s, t) || Under(s, t) then a
      else if Under(t, s) then b
      else ""
  }

  // ----- the hosts of a pattern

  predicate Accepts(pattern: string, host: string) {
    match WildcardSuffix(pattern)
    case Some(suffix) => Under(host, suffix)
    case None => EqualFold(pattern, host)
  }

  /** Two suffixes of one string are suffixes of each other, the shorter of the longer. */
  lemma SuffixesNest(s: string, t: string, u: string)
    requires HasSuffix(s, t) && HasSuffix(s, u) && |t| <= |u|
    ensures HasSuffix(u, t)
  {
    assert u[|u| - |t|..] == s[|s| - |u|..][|u| - |t|..] == s[|s| - |t|..];
  }

  /** Wildcards that share a host have nested suffixes. */
  lemma SharedHost(host: string, s: string, t: string)
    requires Under(host, s) && Under(host, t) && |s| <= |t|
    ensures EqualFold(s, t) || Under(t, s)
  {
    var ds, dt := "." + Lower(s), "." + Lower(t);
    SuffixesNest(Lower(host), ds, dt);
    if |s| == |t| {
      assert dt[0..] == dt;
      assert ds[1..] == Lower(s) && dt[1..] == Lower(t);
    } else {
      assert dt[|dt| - |ds|..] == Lower(t)[|t| - |ds|..];
    }
  }

  lemma SuffixTransitive(s: string, t: string, u: string)
    requires HasSuffix(s, t) && HasSuffix(t, u)
    ensures HasSuffix(s, u)
  {
    assert s[|s| - |u|..] == s[|s| - |t|..][|t| - |u|..];
  }

  lemma DropDot(s: string, t: string)
    requires HasSuffix(s, "." + t)
    ensures HasSuffix(s, t)
  {
    assert s[|s| - |t|..] == s[|s| - |t| - 1..][1..] == t;
  }

  lemma UnderTransitive(host: string, s: string, t: string)
    requires Under(host, s) && Under(s, t)
    ensures Under(host, t)
  {
    DropDot(Lower(host), Lower(s));
    SuffixTransitive(Lower(host), Lower(s), "." + Lower(t));
  }

  /** The narrower pattern accepts exactly the hosts both accept. */
  lemma NarrowerExact(a: string, b: string, host: string)
    requires a != "" && b != ""
    ensures Accepts(a, host) && Accepts(b, host) <==> NarrowerHostname(a, b) != "" && Accepts(NarrowerHostname(a, b), host)
  {
    match (WildcardSuffix(a), WildcardSuffix(b)) {
      case (Some(s), Some(t)) =>
        if Accepts(a, host) && Accepts(b, host) {
          if |s| <= |t| {
            SharedHost(host, s, t);
          } else {
            SharedHost(host, t, s);
          }
        }
        if Under(s, t) && Accepts(a, host) {
          UnderTransitive(host, s, t);
        }
        if Under(t, s) && Accepts(b, host) {
          UnderTransitive(host, t, s);
        }
      case _ =>
    }
  }

  /** Every pattern but the empty one accepts some host. */
  lemma SomeHost(pattern: string) returns (host: string)
    ensures Accepts(pattern, host)
  {
    match WildcardSuffix(pattern)
    case None => host := pattern;
    case Some(suffix) =>
      host := "a" + "." + suffix;
      LowerConcat("a", "." + suffix);
      LowerConcat(".", suffix);
      assert host == "a" + ("." + suffix);
      assert Lower(".") == ".";
      assert Lower(host)[1..] == "." + Lower(suffix);
  }

  /** A route's hostnames argument: absent, a single name, or a list. */
  datatype HostnameArg = Absent | Single(name: string) | Many(names: seq<string>)

  function RawNames(arg: HostnameArg): seq<string> {
    match arg
    case Absent => []
    case Single(name) => [name]
    case Many(names) => names
  }

  function NonEmpty(names: seq<string>): seq<string> {
    if names == [] then []
    else (if names[0] != "" then [names[0]] else []) + NonEmpty(names[1..])
  }

  lemma {:induction false} NonEmptyMembers(names: seq<string>)
    ensures forall n :: n in NonEmpty(names) <==> n in names && n != ""
  {
    if names != [] {
      NonEmptyMembers(names[1..]);
    }
  }

  function Expected(arg: HostnameArg): seq<string> {
    NonEmpty(RawNames(arg))
  }

  function Narrowed(listener: string, routes: seq<string>): seq<string> {
    if routes == [] then []
    else
      var last := |routes| - 1;
      Narrowed(listener, routes[..last]) + NonEmpty([NarrowerHostname(listener, routes[last])])
  }

  lemma {:induction false} NarrowedMembers(listener: string, routes: seq<string>, n: string)
    ensures n in Narrowed(listener, routes) <==> n != "" && exists route <- routes :: n == NarrowerHostname(listener, route)
  {
    if routes != [] {
      var last := |routes| - 1;
      NarrowedMembers(listener, routes[..last], n);
      NonEmptyMembers([NarrowerHostname(listener, routes[last])]);
      assert forall r :: r in routes <==> r == routes[last] || r in routes[..last];
    }
  }

  function Intersections(listener: string, arg: HostnameArg): seq<string> {
    var routes := Expected(arg);
    if routes == [] then [] else if listener == "" then routes else Narrowed(listener, routes)
  }

  method ExpectedHostnames(arg: HostnameArg) returns (r: seq<string>)
    ensures r == Expected(arg)
  {
    var raw := RawNames(arg);
    r := [];
    for i := 0 to |raw|
      invariant Expected(arg) == r + NonEmpty(raw[i..])
    {
      NonEmptyNext(raw, i);
      var found := if raw[i] != "" then [raw[i]] else [];
      Regroup(r, found, NonEmpty(raw[i + 1..]));
      r := r + found;
    }
  }

  lemma NonEmptyNext(names: seq<string>, i: nat)
    requires i < |names|
    ensures NonEmpty(names[i..]) == (if names[i] != "" then [names[i]] else []) + NonEmpty(names[i + 1..])
  {
    assert names[i..][1..] == names[i + 1..];
  }

  method NarrowAll(listener: string, hostnames: seq<string>) returns (intersections: seq<string>)
    ensures intersections == Narrowed(listener, hostnames)
  {
    intersections := [];
    for i := 0 to |hostnames|
      invariant intersections == Narrowed(listener, hostnames[..i])
    {
      NarrowedNext(listener, hostnames, i);
      var narrowed := NarrowerHostname(listener, hostnames[i]);
      if narrowed != "" {
        intersections := intersections + [narrowed];
      }
    }
    assert hostnames[..|hostnames|] == hostnames;
  }

  lemma NarrowedNext(listener: string, routes: seq<string>, i: nat)
    requires i < |routes|
    ensures var n, r := NarrowerHostname(listener, routes[i]), Narrowed(listener, routes[..i]);
            Narrowed(listener, routes[..i + 1]) == if n != "" then r + [n] else r
  {
    assert routes[..i + 1][..i] == routes[..i];
    var n := NarrowerHostname(listener, routes[i]);
    assert NonEmpty([n]) == (if n != "" then [n] else []) + NonEmpty([]);
  }

  method HostnameIntersections(listener: string, arg: HostnameArg) returns (r: seq<string>)
    ensures r == Intersections(listener, arg)
  {
    var hostnames := ExpectedHostnames(arg);
    if |hostnames| == 0 {
      return [];
    }
    if listener == "" {
      return hostnames;
    }
    r := NarrowAll(listener, hostnames);
  }

  /** A listener without a hostname accepts every host. */
  predicate ListenerAccepts(listener: string, host: string) {
    listener == "" || Accepts(listener, host)
  }

  predicate AnyAccepts(patterns: seq<string>, host: string) {
    exists p <- patterns :: Accepts(p, host)
  }

  /** A host matches some returned pattern exactly when the listener and some route accept it. */
  lemma IntersectionsExact(listener: string, arg: HostnameArg, host: string)
    ensures AnyAccepts(Intersections(listener, arg), host) <==>
            ListenerAccepts(listener, host) && AnyAccepts(Expected(arg), host)
  {
    var routes := Expected(arg);
    NonEmptyMembers(RawNames(arg));
    if routes != [] && listener != "" {
      if n :| n in Narrowed(listener, routes) && Accepts(n, host) {
        NarrowedMembers(listener, routes, n);
        var route :| route in routes && n == NarrowerHostname(listener, route);
        NarrowerExact(listener, route, host);
      }
      if Accepts(listener, host) && AnyAccepts(routes, host) {
        var route :| route in routes && Accepts(route, host);
        NarrowerExact(listener, route, host);
        NarrowedMembers(listener, routes, NarrowerHostname(listener, route));
      }
    }
  }

  /** With some route hostname, an empty result means that no host is accepted by both sides. */
  lemma EmptyIffDisjoint(listener: string, arg: HostnameArg)
    requires Expected(arg) != []
    ensures Intersections(listener, arg) == [] <==>
            forall host :: !(ListenerAccepts(listener, host) && AnyAccepts(Expected(arg), host))
  {
    var r := Intersections(listener, arg);
    forall host
      ensures AnyAccepts(r, host) <==> ListenerAccepts(listener, host) && AnyAccepts(Expected(arg), host)
    {
      IntersectionsExact(listener, arg, host);
    }
    if r != [] {
      var host := SomeHost(r[0]);
      assert r[0] in r && AnyAccepts(r, host);
    }
  }

  // ----- certificates

  /** `names` are the DNS names, `hasIPs` says whether there are IP addresses. */
  datatype Certificate = Certificate(dnsNames: seq<string>, hasIPs: bool, commonName: string)

  predicate HasSAN(cert: Certificate) {
    cert.dnsNames != [] || cert.hasIPs
  }

  /** The names a certificate is served by: the common name only without any subject alternative name. */
  function CertNames(cert: Certificate): seq<string> {
    if HasSAN(cert) then cert.dnsNames else if cert.commonName != "" then [cert.commonName] else []
  }

  predicate CertNameIntersectsWildcard(certName: string, suffix: string) {
    var wild := WildcardSuffix(certName);
    var base := if wild.Some? then wild.value else certName;
    base != "" && ((wild.Some? && EqualFold(base, suffix)) || HasSuffix(Lower(base), "." + Lower(suffix)))
  }

  predicate CertNameCoversHost(certName: string, host: string) {
    match WildcardSuffix(certName)
    case None => EqualFold(certName, host)
    case Some(suffix) =>
      var h, tail := Lower(host), "." + Lower(suffix);
      HasSuffix(h, tail) && var first := h[..|h| - |tail|]; first != "" && '.' !in first
  }

  /** `verify` stands for x509's own check of a concrete name against the subject alternative names. */
  predicate CertServesHostname(cert: Certificate, hostname: string, verify: string -> bool) {
    match WildcardSuffix(hostname)
    case Some(suffix) => exists n <- CertNames(cert) :: CertNameIntersectsWildcard(n, suffix)
    case None => if HasSAN(cert) then verify(hostname) else exists n <- CertNames(cert) :: CertNameCoversHost(n, hostname)
  }

  method AnyIntersects(names: seq<string>, suffix: string) returns (r: bool)
    ensures r <==> exists n <- names :: CertNameIntersectsWildcard(n, suffix)
  {
    for i := 0 to |names|
      invariant forall j :: 0 <= j < i ==> !CertNameIntersectsWildcard(names[j], suffix)
    {
      if CertNameIntersectsWildcard(names[i], suffix) {
        return true;
      }
    }
    return false;
  }

  method AnyCovers(names: seq<string>, host: string) returns (r: bool)
    ensures r <==> exists n <- names :: CertNameCoversHost(n, host)
  {
    for i := 0 to |names|
      invariant forall j :: 0 <= j < i ==> !CertNameCoversHost(names[j], host)
    {
      if CertNameCoversHost(names[i], host) {
        return true;
      }
    }
    return false;
  }

  method CheckCertServesHostname(cert: Certificate, hostname: string, verify: string -> bool) returns (r: bool)
    ensures r <==> CertServesHostname(cert, hostname, verify)
  {
    var certNames := cert.dnsNames;
    var hasSAN := |certNames| > 0 || cert.hasIPs;
    if !hasSAN && cert.commonName != "" {
      certNames := [cert.commonName];
    }
    assert certNames == CertNames(cert);
    var wild := WildcardSuffix(hostname);
    if wild.Some? {
      r := AnyIntersects(certNames, wild.value);
    } else if hasSAN {
      r := verify(hostname);
    } else {
      r := AnyCovers(certNames, hostname);
    }
  }

  /** No expected hostname is not a mismatch. */
  predicate MatchesHostname(cert: Certificate, expected: seq<string>, verify: string -> bool) {
    expected == [] || exists h <- expected :: CertServesHostname(cert, h, verify)
  }

  method CheckMatchesHostname(cert: Certificate, arg: HostnameArg, verify: string -> bool) returns (r: bool)
    ensures r <==> MatchesHostname(cert, Expected(arg), verify)
  {
    var expected := ExpectedHostnames(arg);
    r := |expected| == 0;
    for i := 0 to |expected|
      invariant r <==> expected == []
      invariant forall j :: 0 <= j < i ==> !CertServesHostname(cert, expected[j], verify)
    {
      var serves := CheckCertServesHostname(cert, expected[i], verify);
      if serves {
        assert expected[i] in expected;
        return true;
      }
    }
  }

  // ----- what the checks decide

  /** A wildcard certificate name meets a wildcard expectation exactly when some host is in both. */
  lemma {:induction false} IntersectsExact(certName: string, suffix: string)
    ensures CertNameIntersectsWildcard(certName, suffix) <==>
            exists host :: CertNameCoversHost(certName, host) && Under(host, suffix)
  {
    var wild := WildcardSuffix(certName);
    if CertNameIntersectsWildcard(certName, suffix) {
      var host := IntersectsWitness(certName, suffix);
    }
    if host :| CertNameCoversHost(certName, host) && Under(host, suffix) {
      if wild.Some? {
        OneLabelUnder(host, wild.value, suffix);
      }
    }
  }

  lemma IntersectsWitness(certName: string, suffix: string) returns (host: string)
    requires CertNameIntersectsWildcard(certName, suffix)
    ensures CertNameCoversHost(certName, host) && Under(host, suffix)
  {
    match WildcardSuffix(certName)
    case None => host := certName;
    case Some(base) =>
      host := "a" + "." + base;
      assert host == "a" + ("." + base);
      LowerConcat("a", "." + base);
      LowerConcat(".", base);
      assert Lower("a") == "a" && Lower(".") == ".";
      assert Lower(host)[1..] == "." + Lower(base);
      assert Lower(host)[..1] == "a";
      if !EqualFold(base, suffix) {
        assert Under(host, base) && Under(base, suffix);
        UnderTransitive(host, base, suffix);
      }
  }

  /** A host one label below `base` and somewhere below `suffix`: `base` is the suffix or below it. */
  lemma OneLabelUnder(host: string, base: string, suffix: string)
    requires Under(host, base) && Under(host, suffix)
    requires '.' !in Lower(host)[..|host| - |base| - 1]
    ensures EqualFold(base, suffix) || Under(base, suffix)
  {
    var h := Lower(host);
    if |suffix| <= |base| {
      SharedHost(host, suffix, base);
    } else {
      DotAt(h, Lower(suffix), |host| - |base| - 1);
    }
  }

  lemma DotAt(h: string, tail: string, n: nat)
    requires HasSuffix(h, "." + tail) && |h| - |tail| - 1 < n <= |h|
    ensures '.' in h[..n]
  {
    var k := |h| - |tail| - 1;
    assert h[k..][0] == '.';
    assert h[..n][k] == '.';
  }

  lemma CoversIgnoresCase(certName: string, host: string, host': string)
    requires EqualFold(host, host')
    ensures CertNameCoversHost(certName, host) <==> CertNameCoversHost(certName, host')
  {
  }

  predicate CoveredBy(cert: Certificate, host: string) {
    exists n <- CertNames(cert) :: CertNameCoversHost(n, host)
  }

  /** A host is covered by a DNS name, or by the common name if that is all the certificate has. */
  lemma CoveredExact(cert: Certificate, host: string)
    ensures CoveredBy(cert, host) <==>
            || (exists i :: 0 <= i < |cert.dnsNames| && CertNameCoversHost(cert.dnsNames[i], host))
            || (cert.dnsNames == [] && !cert.hasIPs && cert.commonName != "" && CertNameCoversHost(cert.commonName, host))
  {
    if n :| n in CertNames(cert) && CertNameCoversHost(n, host) {
      if n in cert.dnsNames {
        var i :| 0 <= i < |cert.dnsNames| && cert.dnsNames[i] == n;
      }
    }
    if i :| 0 <= i < |cert.dnsNames| && CertNameCoversHost(cert.dnsNames[i], host) {
      assert cert.dnsNames[i] in CertNames(cert);
    }
    if cert.dnsNames == [] && !cert.hasIPs && cert.commonName != "" {
      assert CertNames(cert)[0] == cert.commonName;
    }
  }

  /** If the library is asked about the name, its check agrees with one-label wildcards there. */
  predicate AgreesAt(cert: Certificate, verify: string -> bool, hostname: string) {
    HasSAN(cert) && WildcardSuffix(hostname).None? ==> (verify(hostname) <==> CoveredBy(cert, hostname))
  }

  /** A certificate serves an expectation exactly when some host is accepted by it and covered. */
  lemma ServesExact(cert: Certificate, hostname: string, verify: string -> bool)
    requires AgreesAt(cert, verify, hostname)
    ensures CertServesHostname(cert, hostname, verify) <==> exists host :: Accepts(hostname, host) && CoveredBy(cert, host)
  {
    match WildcardSuffix(hostname)
    case Some(suffix) =>
      if n :| n in CertNames(cert) && CertNameIntersectsWildcard(n, suffix) {
        var host := IntersectsWitness(n, suffix);
        assert Accepts(hostname, host) && CoveredBy(cert, host);
      }
      if host :| Accepts(hostname, host) && CoveredBy(cert, host) {
        var n :| n in CertNames(cert) && CertNameCoversHost(n, host);
        IntersectsExact(n, suffix);
      }
    case None =>
      if CertServesHostname(cert, hostname, verify) {
        assert Accepts(hostname, hostname) && CoveredBy(cert, hostname);
      }
      if host :| Accepts(hostname, host) && CoveredBy(cert, host) {
        var n :| n in CertNames(cert) && CertNameCoversHost(n, host);
        CoversIgnoresCase(n, hostname, host);
      }
  }

  /** Some host is accepted by the listener and a route, and covered by the certificate. */
  ghost predicate ServedTogether(listener: string, arg: HostnameArg, cert: Certificate) {
    exists host :: ListenerAccepts(listener, host) && AnyAccepts(Expected(arg), host) && CoveredBy(cert, host)
  }

  /**
    Checking a certificate against a listener's and a route's intersection decides whether any host is
    served by all three; only a listener and route with nothing in common pass without such a host.
   */
  lemma MatchesExact(listener: string, arg: HostnameArg, cert: Certificate, verify: string -> bool)
    requires forall p <- Intersections(listener, arg) :: AgreesAt(cert, verify, p)
    ensures MatchesHostname(cert, Intersections(listener, arg), verify) <==>
            Intersections(listener, arg) == [] || ServedTogether(listener, arg, cert)
  {
    var r := Intersections(listener, arg);
    if p :| p in r && CertServesHostname(cert, p, verify) {
      ServesExact(cert, p, verify);
      var host :| Accepts(p, host) && CoveredBy(cert, host);
      assert AnyAccepts(r, host);
      IntersectionsExact(listener, arg, host);
    }
    if ServedTogether(listener, arg, cert) {
      var host :| ListenerAccepts(listener, host) && AnyAccepts(Expected(arg), host) && CoveredBy(cert, host);
      IntersectionsExact(listener, arg, host);
      var p :| p in r && Accepts(p, host);
      ServesExact(cert, p, verify);
    }
  }

  // ----- the same in labels

  /** A wildcard pattern stands for one or more labels in front of its suffix. */
  lemma AcceptsInLabels(suffix: string, host: string)
    requires suffix != ""
    ensures Accepts("*." + suffix, host) <==>
            exists front :: front != [] && Split(Lower(host)) == front + Split(Lower(suffix))
  {
    assert ("*." + suffix)[2..] == suffix;
    var h, s := Lower(host), Lower(suffix);
    if Under(host, suffix) {
      var n := |host| - |suffix| - 1;
      assert h == h[..n] + "." + s;
      SplitConcat(h[..n], s);
      assert Split(h[..n]) != [];
    }
    if front :| front != [] && Split(h) == front + Split(s) {
      SplitFront(h, front, s);
      SuffixOf(h, Join(front), s);
    }
  }

  lemma SuffixOf(h: string, front: string, tail: string)
    requires h == front + "." + tail
    ensures HasSuffix(h, "." + tail) && h[..|h| - |tail| - 1] == front
  {
    assert h == front + ("." + tail);
  }

  /** A certificate's wildcard stands for exactly one, non-empty, label. */
  lemma CoversInLabels(base: string, host: string)
    requires base != ""
    ensures CertNameCoversHost("*." + base, host) <==>
            exists first :: first != "" && Split(Lower(host)) == [first] + Split(Lower(base))
  {
    assert ("*." + base)[2..] == base;
    var h, s := Lower(host), Lower(base);
    if CertNameCoversHost("*." + base, host) {
      var first := h[..|h| - |s| - 1];
      assert h == first + "." + s;
      SplitConcat(first, s);
      SplitKey(first);
    }
    if first :| first != "" && Split(h) == [first] + Split(s) {
      SplitFront(h, [first], s);
      SuffixOf(h, first, s);
      assert Split(h)[0] == first;
      SplitDotFree(h, 0);
    }
  }
}
