/** What the resolver makes of addresses during one tick, as plain functions, and the laws that
    the rest of the model relies on. */
module NameBook {
  import opened Text
  import opened Endpoint
  import opened EndpointLaws

  /** What the resolver makes of every address during one tick. */
  datatype Names = Names(
    same: (string, string) -> bool,
    target: string -> Option<Target>,
    identity: string -> string,
    caseless: string -> bool,
    plain: string -> bool,
    monitorable: string -> bool)
  {
    ghost predicate Relates() {
      (forall a :: same(a, a)) && (forall a, b :: same(a, b) ==> same(b, a))
    }

    predicate Chain(a: string, b: string, c: string) {
      same(a, b) && same(b, c) && (caseless(a) || caseless(b) || caseless(c)) ==> same(a, c)
    }

    ghost predicate Chains() {
      && (forall a, b, c {:trigger caseless(a), same(a, b), same(b, c)} :: Chain(a, b, c))
      && (forall a, b, c {:trigger caseless(b), same(a, b), same(b, c)} :: Chain(a, b, c))
    }

    ghost predicate PrintsCaseless() { forall host, port :: caseless(Printed(host, port)) }

    ghost predicate SharesTargets() {
      forall a, b :: plain(a) && plain(b) && same(a, b) ==> target(a) == target(b)
    }

    ghost predicate ReturnsTargets() {
      forall a {:trigger monitorable(a)} :: monitorable(a) <==>
        target(a).Some? && same(Printed(target(a).value.ip, target(a).value.port), a)
    }

    ghost predicate Lawful() { Relates() && Chains() && PrintsCaseless() && SharesTargets() && ReturnsTargets() }
  }

  /** The address part of a node's identity: unlike the key, it takes the first answer of any family. */
  function AddressIdentity(dns: Resolver, addr: string): string {
    match SplitHostPort(addr)
    case None => addr
    case Some(hp) =>
      var ips := dns.lookup(hp.host);
      if ips == [] then addr else JoinHostPort(ips[0].text, hp.port)
  }

  function NamesOf(dns: Resolver): Names {
    Names((a, b) => SameRedisEndpoint(dns, a, b), a => MonitorTarget(dns, a), a => AddressIdentity(dns, a),
          a => CaselessPort(a), a => !OddLiteral(dns, a), a => Monitorable(dns, a))
  }

  lemma ChainLawful(dns: Resolver, a: string, b: string, c: string)
    requires dns.Valid()
    ensures NamesOf(dns).Chain(a, b, c)
  {
    SameIsEquivalence(dns, a, b, c);
    assert Chained(dns, a, b, c);
  }

  lemma ChainsLawful(dns: Resolver)
    requires dns.Valid()
    ensures NamesOf(dns).Chains()
  {
    forall a, b, c ensures NamesOf(dns).Chain(a, b, c) { ChainLawful(dns, a, b, c); }
  }

  lemma TargetsLawful(dns: Resolver)
    requires dns.Valid()
    ensures NamesOf(dns).SharesTargets()
  {
    forall a, b | !OddLiteral(dns, a) && !OddLiteral(dns, b) && SameRedisEndpoint(dns, a, b)
      ensures MonitorTarget(dns, a) == MonitorTarget(dns, b)
    {
      SameTargetIff(dns, a, b);
    }
  }

  lemma FixpointsLawful(dns: Resolver)
    requires dns.Valid()
    ensures NamesOf(dns).ReturnsTargets()
  {
    forall a | MonitorTarget(dns, a).Some?
      ensures var t := MonitorTarget(dns, a).value;
              Monitorable(dns, a) <==> SameRedisEndpoint(dns, Printed(t.ip, t.port), a)
    {
      MonitorFixpoint(dns, a);
    }
  }

  lemma PrintedLawful(dns: Resolver)
    ensures NamesOf(dns).PrintsCaseless()
  {
    forall host, port ensures CaselessPort(Printed(host, port)) {
      PrintedCaseless(Printed(host, port), host, port);
    }
  }

  lemma SameLawful(dns: Resolver)
    ensures NamesOf(dns).Relates()
  {}

  /** Every resolver obeys the laws. */
  lemma ResolverIsLawful(dns: Resolver)
    requires dns.Valid()
    ensures NamesOf(dns).Lawful()
  {
    SameLawful(dns);
    ChainsLawful(dns);
    TargetsLawful(dns);
    FixpointsLawful(dns);
    PrintedLawful(dns);
  }

  lemma FirstOrPreferred(ips: seq<IP>)
    requires ips != []
    ensures ips[0] == Preferred(ips) <==> ips[0].V4? || forall x | x in ips :: x.V6?
  {}

  lemma JoinKeepsHost(a: IP, b: IP, port: string)
    requires WellPrinted(a) && WellPrinted(b)
    ensures JoinHostPort(a.text, port) == JoinHostPort(b.text, port) ==> a == b
  {
    var x, y := JoinHostPort(a.text, port), JoinHostPort(b.text, port);
    if a.V4? { assert x[0] == a.text[0] && a.text[0] in a.text; }
    if b.V4? { assert y[0] == b.text[0] && b.text[0] in b.text; }
    if a.V4? && b.V4? {
      assert x[..|x| - |port| - 1] == a.text && y[..|y| - |port| - 1] == b.text;
    } else if a.V6? && b.V6? {
      assert x[1..|x| - |port| - 2] == a.text && y[1..|y| - |port| - 2] == b.text;
    }
  }

  /** The identity of an address that resolves is its key exactly when the first answer is IPv4 or none is; that
      of an address that does not resolve, exactly when it is written in lower case. */
  lemma IdentityIsKeyIff(dns: Resolver, addr: string)
    requires dns.Valid()
    ensures AddressIdentity(dns, addr) == ResolvedKey(dns, addr) <==>
            if Resolves(dns, addr) then
              var ips := dns.lookup(SplitHostPort(addr).value.host);
              ips[0].V4? || forall x | x in ips :: x.V6?
            else ToLower(addr) == addr
  {
    if Resolves(dns, addr) {
      var hp := SplitHostPort(addr).value;
      var ips := dns.lookup(hp.host);
      FirstOrPreferred(ips);
      assert ips[0] in ips && WellPrinted(ips[0]) && WellPrinted(Preferred(ips));
      JoinKeepsHost(ips[0], Preferred(ips), hp.port);
    }
  }
}
