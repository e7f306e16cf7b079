/** What holds of the address functions: when case matters, and when the address handed to
    SENTINEL MONITOR comes back as the same endpoint. */
module EndpointLaws {
  import opened Text
  import opened Endpoint

  predicate Resolves(dns: Resolver, addr: string) {
    SplitHostPort(addr).Some? && dns.lookup(SplitHostPort(addr).value.host) != []
  }

  function SwapCase(c: char): char { if IsUpper(c) then LowerChar(c) else UpperChar(c) }

  lemma SwapCaseFolds(a: string, i: nat)
    requires i < |a| && IsLetter(a[i])
    ensures EqualFold(a, a[i := SwapCase(a[i])]) && SwapCase(a[i]) != a[i]
  {
    var b := a[i := SwapCase(a[i])];
    forall k | 0 <= k < |a| ensures ToLower(a)[k] == ToLower(b)[k] {}
  }

  lemma JoinKeepsPort(host: string, p: string, q: string)
    ensures JoinHostPort(host, p) == JoinHostPort(host, q) ==> p == q
  {
    var n := if ':' in host then |host| + 3 else |host| + 1;
    assert JoinHostPort(host, p)[n..] == p && JoinHostPort(host, q)[n..] == q;
  }

  lemma OtherPortOtherKey(dns: Resolver, a: string, b: string)
    requires dns.Valid() && Resolves(dns, a) && EqualFold(a, b)
    requires SplitHostPort(b).Some? && SplitHostPort(a).value.port != SplitHostPort(b).value.port
    ensures ResolvedKey(dns, a) != ResolvedKey(dns, b)
  {
    SplitFold(a, b);
    var ha, hb := SplitHostPort(a).value, SplitHostPort(b).value;
    assert dns.lookup(ha.host) == dns.lookup(hb.host);
    JoinKeepsPort(Preferred(dns.lookup(ha.host)).text, ha.port, hb.port);
  }

  lemma SwappedPort(a: string, b: string, i: nat)
    requires SplitHostPort(a).Some? && SplitHostPort(b).Some? && LastIndex(a, ':') == LastIndex(b, ':')
    requires LastIndex(a, ':') < i < |a| == |b| && a[i] != b[i]
    ensures SplitHostPort(a).value.port != SplitHostPort(b).value.port
  {
    var at := LastIndex(a, ':');
    assert SplitHostPort(a).value.port == a[at + 1..] by { PortIsSuffix(a); }
    assert SplitHostPort(b).value.port == b[at + 1..] by { PortIsSuffix(b); }
    SuffixDiffers(a, b, at + 1, i);
  }

  lemma SuffixDiffers(a: string, b: string, lo: nat, i: nat)
    requires lo <= i < |a| == |b| && a[i] != b[i]
    ensures a[lo..] != b[lo..]
  {
    assert a[lo..][i - lo] == a[i] && b[lo..][i - lo] == b[i];
  }

  /** A resolving address with a letter in its port has a spelling that compares equal by case
      but has another key. */
  lemma LetterSplitsKey(dns: Resolver, a: string) returns (b: string)
    requires dns.Valid() && Resolves(dns, a) && !CaselessPort(a)
    ensures SameRedisEndpoint(dns, a, b) && ResolvedKey(dns, a) != ResolvedKey(dns, b)
  {
    var i := PortLetter(a);
    SwapCaseFolds(a, i);
    b := a[i := SwapCase(a[i])];
    FoldedSplits(a, b);
    SwappedPort(a, b, i);
    OtherPortOtherKey(dns, a, b);
  }

  lemma FoldedSplits(a: string, b: string)
    requires EqualFold(a, b) && SplitHostPort(a).Some?
    ensures |a| == |b| && SplitHostPort(b).Some? && LastIndex(a, ':') == LastIndex(b, ':')
  {
    SplitFold(a, b);
    EqualFoldIndex(a, b, ':');
  }

  lemma PortLetter(a: string) returns (i: nat)
    requires !CaselessPort(a)
    ensures LastIndex(a, ':') < i < |a| && IsLetter(a[i])
  {
    PortIsSuffix(a);
    var at := LastIndex(a, ':');
    var port := a[at + 1..];
    var k :| 0 <= k < |port| && IsLetter(port[k]);
    i := at + 1 + k;
  }

  /** The key decides "same endpoint" for an address exactly when its port holds no letter or the
      address does not resolve. */
  lemma KeyDecidesSame(dns: Resolver, a: string)
    requires dns.Valid()
    ensures (forall b :: SameRedisEndpoint(dns, a, b) ==> ResolvedKey(dns, a) == ResolvedKey(dns, b))
            <==> CaselessPort(a) || !Resolves(dns, a)
  {
    if CaselessPort(a) {
      forall b | SameRedisEndpoint(dns, a, b) ensures ResolvedKey(dns, a) == ResolvedKey(dns, b) {
        SameIffKey(dns, a, b);
      }
    } else if !Resolves(dns, a) {
      forall b | SameRedisEndpoint(dns, a, b) ensures ResolvedKey(dns, a) == ResolvedKey(dns, b) {
        if EqualFold(a, b) { SplitFold(a, b); }
      }
    } else {
      var b := LetterSplitsKey(dns, a);
    }
  }

  lemma SplitPrinted(ip: string, port: int)
    requires '[' !in ip && ']' !in ip && ip != ""
    ensures SplitHostPort(Printed(ip, port))
         == if ':' in ip then None else Some(HostPort(ip, Itoa(port)))
  {
    PrintedColon(ip, port);
    NoBrackets(ip, port);
  }

  lemma NoBrackets(ip: string, port: int)
    requires '[' !in ip && ']' !in ip
    ensures '[' !in Printed(ip, port) && ']' !in Printed(ip, port)
  {}

  lemma TargetText(dns: Resolver, addr: string)
    requires dns.Valid() && MonitorTarget(dns, addr).Some?
    ensures var ip := MonitorTarget(dns, addr).value.ip;
            && ip != "" && '[' !in ip && ']' !in ip
            && (':' !in ip ==> dns.lookup(ip) == [V4(ip)]
                               && Preferred(dns.lookup(SplitHostPort(addr).value.host)).text == ip)
  {
    var host := SplitHostPort(addr).value.host;
    var ip := Preferred(dns.lookup(host));
    assert ip in dns.lookup(host);
    assert WellPrinted(ip);
  }

  /** The port is the decimal text of the number it denotes. */
  predicate CanonicalPort(addr: string) {
    && SplitHostPort(addr).Some?
    && Atoi(SplitHostPort(addr).value.port).Some?
    && Itoa(Atoi(SplitHostPort(addr).value.port).value) == SplitHostPort(addr).value.port
  }

  /** What SENTINEL MONITOR needs of an address: a host that resolves to IPv4 and a canonical port. */
  predicate Monitorable(dns: Resolver, addr: string) {
    && CanonicalPort(addr)
    && MonitorTarget(dns, addr).Some?
    && ':' !in MonitorTarget(dns, addr).value.ip
  }

  lemma MonitorableKey(dns: Resolver, addr: string)
    requires dns.Valid() && Monitorable(dns, addr)
    ensures var t := MonitorTarget(dns, addr).value;
            t.ip != "" && ResolvedKey(dns, addr) == Printed(t.ip, t.port)
    ensures CaselessPort(addr)
  {
    TargetText(dns, addr);
    var t := MonitorTarget(dns, addr).value;
    assert WellPrinted(V4(t.ip)) by { assert V4(t.ip) in dns.lookup(t.ip); }
  }

  /** The host and port a Sentinel advertises after MONITOR are the monitored endpoint exactly when
      the target is IPv4 and the port is in canonical decimal: an IPv6 target is printed without
      brackets and never compares equal. */
  lemma MonitorFixpoint(dns: Resolver, addr: string)
    requires dns.Valid() && MonitorTarget(dns, addr).Some?
    ensures var t := MonitorTarget(dns, addr).value;
            SameRedisEndpoint(dns, Printed(t.ip, t.port), addr) <==> Monitorable(dns, addr)
  {
    var t := MonitorTarget(dns, addr).value;
    var s := Printed(t.ip, t.port);
    TargetText(dns, addr);
    SplitPrinted(t.ip, t.port);
    PrintedCaseless(s, t.ip, t.port);
    SameIffKey(dns, s, addr);
    if ':' in t.ip {
      BracketlessKey(dns, addr);
    } else {
      var hp := SplitHostPort(addr).value;
      assert ResolvedKey(dns, s) == t.ip + ":" + Itoa(t.port);
      assert ResolvedKey(dns, addr) == t.ip + ":" + hp.port;
      assert ResolvedKey(dns, s)[|t.ip| + 1..] == Itoa(t.port);
      assert ResolvedKey(dns, addr)[|t.ip| + 1..] == hp.port;
    }
  }

  lemma ItoaLetterless(n: int)
    ensures Letterless(Itoa(n))
  {
    forall c | c in Itoa(n) ensures !IsLetter(c) {}
  }

  lemma PrintedCaseless(s: string, ip: string, port: int)
    requires s == Printed(ip, port)
    ensures CaselessPort(s)
  {
    ItoaLetterless(port);
    if SplitHostPort(s).Some? {
      PortIsSuffix(s);
      PrintedColon(ip, port);
      assert SplitHostPort(s).value.port == Itoa(port);
    }
  }

  lemma OneColon(text: string, port: string, j: nat)
    requires ':' !in text && ':' !in port && j < |text| + 1 + |port| && j != |text|
    ensures (text + ":" + port)[j] != ':'
  {
    if j < |text| { assert (text + ":" + port)[j] == text[j]; }
    else { assert (text + ":" + port)[j] == port[j - |text| - 1]; }
  }

  lemma TwoColons(ip: string, port: int) returns (k: nat)
    requires ':' in ip && '[' !in ip
    ensures k < |ip| && ToLower(Printed(ip, port))[k] == ':' && ToLower(Printed(ip, port))[|ip|] == ':'
    ensures ToLower(Printed(ip, port))[0] != '['
  {
    k :| 0 <= k < |ip| && ip[k] == ':';
    assert Printed(ip, port)[k] == ':' && Printed(ip, port)[|ip|] == ':';
    assert Printed(ip, port)[0] == ip[0] && ip[0] in ip;
  }

  /** A key is bracketed or holds one colon, so an address printed without brackets around
      an IPv6 host is nobody's key. */
  lemma BracketlessKey(dns: Resolver, addr: string)
    requires dns.Valid() && MonitorTarget(dns, addr).Some?
    requires ':' in MonitorTarget(dns, addr).value.ip
    ensures var t := MonitorTarget(dns, addr).value;
            ToLower(Printed(t.ip, t.port)) != ResolvedKey(dns, addr)
  {
    var t := MonitorTarget(dns, addr).value;
    var hp := SplitHostPort(addr).value;
    TargetText(dns, addr);
    var k := TwoColons(t.ip, t.port);
    var ips := dns.lookup(hp.host);
    if dns.parse(hp.host).Some? { assert ips == [dns.parse(hp.host).value]; }
    KeyIsNot(ToLower(Printed(t.ip, t.port)), Preferred(ips).text, hp.port, k, |t.ip|);
  }

  lemma KeyIsNot(low: string, text: string, port: string, k: nat, m: nat)
    requires k < m < |low| && low[k] == ':' && low[m] == ':' && low[0] != '[' && ':' !in port
    ensures low != JoinHostPort(text, port)
  {
    if ':' !in text && low == JoinHostPort(text, port) {
      if k != |text| { OneColon(text, port, k); } else { OneColon(text, port, m); }
    }
  }

  /** A master whose name resolves to one IPv6 address: what MONITOR is given comes back as another endpoint. */
  lemma Ipv6IsNotItself(dns: Resolver, host: string, ip: string, port: int)
    requires dns.Valid() && dns.parse(host).None? && dns.lookup(host) == [V6(ip)]
    requires host != "" && ':' !in host && '[' !in host && ']' !in host
    requires INT64_MIN <= port <= INT64_MAX
    ensures MonitorTarget(dns, Printed(host, port)) == Some(Target(ip, port))
    ensures !SameRedisEndpoint(dns, Printed(ip, port), Printed(host, port))
  {
    SplitPrinted(host, port);
    ItoaRoundTrip(port);
    assert V6(ip) in dns.lookup(host);
    MonitorFixpoint(dns, Printed(host, port));
  }

  // ----- endpoints and spellings -----

  lemma PortHasNoBrackets(a: string)
    requires SplitHostPort(a).Some?
    ensures '[' !in SplitHostPort(a).value.port && ']' !in SplitHostPort(a).value.port
  {
    var i := LastIndex(a, ':');
    if a[0] == '[' {
      assert forall c | c in a[i + 1..] :: c in a[1..] && c in a[Index(a, ']') + 1..];
    } else {
      assert forall c | c in a[i + 1..] :: c in a;
    }
  }

  predicate NoDelimiters(port: string) { ':' !in port && '[' !in port && ']' !in port }

  lemma SplitJoinedPlain(host: string, port: string)
    requires ':' !in host && '[' !in host && ']' !in host && NoDelimiters(port)
    ensures SplitHostPort(JoinHostPort(host, port)) == Some(HostPort(host, port))
  {
    var s := host + ":" + port;
    assert s[|host|] == ':' && s[|host| + 1..] == port && s[..|host|] == host;
    LastIndexIs(s, ':', |host|);
    assert '[' !in s && ']' !in s;
  }

  lemma BracketedIndices(host: string, port: string)
    requires ']' !in host && NoDelimiters(port)
    ensures var s := "[" + host + "]:" + port;
            LastIndex(s, ':') == |host| + 2 && Index(s, ']') == |host| + 1
  {
    var s := "[" + host + "]:" + port;
    assert s[|host| + 2..] == ":" + port && s[|host| + 2] == ':' && s[|host| + 3..] == port;
    LastIndexIs(s, ':', |host| + 2);
    assert s[..|host| + 1] == "[" + host && s[|host| + 1] == ']';
    IndexIs(s, ']', |host| + 1);
  }

  lemma BracketedParts(host: string, port: string)
    requires '[' !in host && NoDelimiters(port)
    ensures var s := "[" + host + "]:" + port;
            && s[1..|host| + 1] == host && s[|host| + 3..] == port
            && '[' !in s[1..] && ']' !in s[|host| + 2..]
  {
    var s := "[" + host + "]:" + port;
    assert s[1..] == host + "]:" + port && s[|host| + 2..] == ":" + port;
  }

  lemma BracketedSplits(s: string, end: nat)
    requires end + 1 < |s| && s[0] == '[' && LastIndex(s, ':') == end + 1 && Index(s, ']') == end
    requires '[' !in s[1..] && ']' !in s[end + 1..]
    ensures SplitHostPort(s) == Some(HostPort(s[1..end], s[end + 2..]))
  {}

  lemma SplitJoinedBracketed(host: string, port: string)
    requires ':' in host && '[' !in host && ']' !in host && NoDelimiters(port)
    ensures SplitHostPort(JoinHostPort(host, port)) == Some(HostPort(host, port))
  {
    BracketedIndices(host, port);
    BracketedParts(host, port);
    BracketedSplits("[" + host + "]:" + port, |host| + 1);
  }

  lemma SplitJoined(host: string, port: string)
    requires '[' !in host && ']' !in host && NoDelimiters(port)
    ensures SplitHostPort(JoinHostPort(host, port)) == Some(HostPort(host, port))
  {
    if ':' in host { SplitJoinedBracketed(host, port); } else { SplitJoinedPlain(host, port); }
  }

  /** The key of an address that resolves splits again, into a literal and the same port. */
  lemma KeySplits(dns: Resolver, a: string)
    requires dns.Valid() && Resolves(dns, a)
    ensures var hp := SplitHostPort(a).value;
            var ip := Preferred(dns.lookup(hp.host));
            && SplitHostPort(ResolvedKey(dns, a)) == Some(HostPort(ip.text, hp.port))
            && dns.parse(ip.text) == Some(ip) && dns.lookup(ip.text) == [ip]
  {
    var hp := SplitHostPort(a).value;
    var ip := Preferred(dns.lookup(hp.host));
    assert ip in dns.lookup(hp.host) && WellPrinted(ip);
    PortHasNoBrackets(a);
    SplitJoined(ip.text, hp.port);
  }

  lemma LowerFolds(a: string)
    ensures EqualFold(a, ToLower(a))
  {
    forall i | 0 <= i < |a| ensures ToLower(ToLower(a))[i] == ToLower(a)[i] {}
  }

  lemma LowerKeyHost(dns: Resolver, b: string)
    requires dns.Valid() && SplitHostPort(ToLower(b)).Some?
    ensures SplitHostPort(b).Some?
    ensures dns.lookup(SplitHostPort(b).value.host) == dns.lookup(SplitHostPort(ToLower(b)).value.host)
  {
    LowerFolds(b);
    SplitFold(b, ToLower(b));
  }

  /** Addresses with one key resolve together. */
  lemma KeyResolves(dns: Resolver, a: string, b: string)
    requires dns.Valid() && Resolves(dns, a) && ResolvedKey(dns, a) == ResolvedKey(dns, b)
    ensures Resolves(dns, b)
  {
    if !Resolves(dns, b) {
      KeySplits(dns, a);
      LowerKeyHost(dns, b);
    }
  }

  lemma SameResolves(dns: Resolver, a: string, b: string)
    requires dns.Valid() && SameRedisEndpoint(dns, a, b)
    ensures Resolves(dns, a) <==> Resolves(dns, b)
  {
    if EqualFold(a, b) {
      SplitFold(a, b);
    } else {
      if Resolves(dns, a) { KeyResolves(dns, a, b); }
      if Resolves(dns, b) { KeyResolves(dns, b, a); }
    }
  }

  lemma SameKeyParts(dns: Resolver, a: string, b: string)
    requires dns.Valid() && Resolves(dns, a) && Resolves(dns, b) && ResolvedKey(dns, a) == ResolvedKey(dns, b)
    ensures var x, y := SplitHostPort(a).value, SplitHostPort(b).value;
            && Preferred(dns.lookup(x.host)).text == Preferred(dns.lookup(y.host)).text
            && x.port == y.port
  {
    KeySplits(dns, a);
    KeySplits(dns, b);
  }

  /** What is the same endpoint as an address whose port holds no letter has its key too. */
  lemma KeySpreads(dns: Resolver, a: string, b: string, c: string)
    requires dns.Valid() && CaselessPort(a) && SameRedisEndpoint(dns, a, b) && SameRedisEndpoint(dns, b, c)
    ensures ResolvedKey(dns, a) == ResolvedKey(dns, c)
  {
    SameIffKey(dns, a, b);
    if EqualFold(b, c) {
      SplitFold(b, c);
      if Resolves(dns, b) {
        KeyResolves(dns, b, a);
        SameKeyParts(dns, a, b);
        LetterlessFold(SplitHostPort(b).value.port, SplitHostPort(c).value.port);
      }
    }
  }

  predicate Chained(dns: Resolver, a: string, b: string, c: string) {
    CaselessPort(a) || CaselessPort(b) || CaselessPort(c) ==>
      (SameRedisEndpoint(dns, a, b) && SameRedisEndpoint(dns, b, c) ==> SameRedisEndpoint(dns, a, c))
  }

  /** "Same endpoint" is reflexive and symmetric, and transitive as soon as one of the three ports
      holds no letter. */
  lemma SameIsEquivalence(dns: Resolver, a: string, b: string, c: string)
    requires dns.Valid()
    ensures SameRedisEndpoint(dns, a, a)
    ensures SameRedisEndpoint(dns, a, b) ==> SameRedisEndpoint(dns, b, a)
    ensures Chained(dns, a, b, c)
  {
    if SameRedisEndpoint(dns, a, b) && SameRedisEndpoint(dns, b, c) {
      if CaselessPort(a) {
        KeySpreads(dns, a, b, c);
        EqualKeysAreSame(dns, a, c);
      } else if CaselessPort(b) {
        SameIffKey(dns, b, a);
        SameIffKey(dns, b, c);
        EqualKeysAreSame(dns, a, c);
      } else if CaselessPort(c) {
        KeySpreads(dns, c, b, a);
        EqualKeysAreSame(dns, a, c);
      }
    }
  }

  function HostOf(addr: string): Option<string> {
    if SplitHostPort(addr).None? then None else Some(SplitHostPort(addr).value.host)
  }

  /** The host is an IP literal that is not written as it prints, and the port is a number. Only IPv6 has
      such literals. */
  predicate OddLiteral(dns: Resolver, addr: string) {
    && SplitHostPort(addr).Some?
    && var hp := SplitHostPort(addr).value;
       Atoi(hp.port).Some? && dns.parse(hp.host).Some? && dns.parse(hp.host).value.text != hp.host
  }

  lemma OddIsIpv6(dns: Resolver, addr: string)
    requires dns.Valid() && OddLiteral(dns, addr)
    ensures ':' in SplitHostPort(addr).value.host
  {}

  /** The target of an address that resolves, to a number of a port. */
  lemma TargetOf(dns: Resolver, addr: string)
    requires dns.Valid() && Resolves(dns, addr) && Atoi(SplitHostPort(addr).value.port).Some?
    ensures var hp := SplitHostPort(addr).value;
            MonitorTarget(dns, addr)
              == Some(Target(if OddLiteral(dns, addr) then hp.host else Preferred(dns.lookup(hp.host)).text,
                             Atoi(hp.port).value))
  {
    LiteralPrints(dns, SplitHostPort(addr).value.host);
  }

  lemma NoNumberNoTarget(dns: Resolver, addr: string)
    requires dns.Valid()
    requires !Resolves(dns, addr) || Atoi(SplitHostPort(addr).value.port).None?
    ensures MonitorTarget(dns, addr).None? && !OddLiteral(dns, addr)
  {}

  lemma LettersAreNoNumber(p: string)
    requires Atoi(p).Some?
    ensures Letterless(p)
  {}

  lemma FoldedNumbers(p: string, q: string)
    requires EqualFold(p, q)
    ensures Atoi(p) == Atoi(q)
  {
    if Atoi(p).Some? {
      LettersAreNoNumber(p);
      LetterlessFold(p, q);
    } else if Atoi(q).Some? {
      LettersAreNoNumber(q);
      LetterlessFold(q, p);
    }
  }

  /** Two spellings of one endpoint that resolves stand for one printed address and one port number. */
  lemma SameParts(dns: Resolver, a: string, b: string)
    requires dns.Valid() && SameRedisEndpoint(dns, a, b) && Resolves(dns, a) && Resolves(dns, b)
    ensures var x, y := SplitHostPort(a).value, SplitHostPort(b).value;
            && Preferred(dns.lookup(x.host)).text == Preferred(dns.lookup(y.host)).text
            && Atoi(x.port) == Atoi(y.port)
  {
    if EqualFold(a, b) {
      SplitFold(a, b);
      FoldedNumbers(SplitHostPort(a).value.port, SplitHostPort(b).value.port);
    } else {
      SameKeyParts(dns, a, b);
    }
  }

  /** Two spellings of one endpoint make the same MONITOR command exactly when neither is an IPv6 literal
      written otherwise than it prints, or both have the same host text. */
  lemma SameTargetIff(dns: Resolver, a: string, b: string)
    requires dns.Valid() && SameRedisEndpoint(dns, a, b)
    ensures MonitorTarget(dns, a) == MonitorTarget(dns, b)
            <==> (OddLiteral(dns, a) || OddLiteral(dns, b) ==> HostOf(a) == HostOf(b))
  {
    SameResolves(dns, a, b);
    if Resolves(dns, a) && Atoi(SplitHostPort(a).value.port).Some? {
      SameParts(dns, a, b);
      TargetOf(dns, a);
      TargetOf(dns, b);
      SpelledTargets(dns, a, b);
    } else {
      if Resolves(dns, a) { SameParts(dns, a, b); }
      NoNumberNoTarget(dns, a);
      NoNumberNoTarget(dns, b);
    }
  }

  lemma SpelledTargets(dns: Resolver, a: string, b: string)
    requires dns.Valid() && SplitHostPort(a).Some? && SplitHostPort(b).Some?
    requires Resolves(dns, a) && Resolves(dns, b)
    requires Preferred(dns.lookup(SplitHostPort(a).value.host)).text
          == Preferred(dns.lookup(SplitHostPort(b).value.host)).text
    ensures OddLiteral(dns, a) ==>
              SplitHostPort(a).value.host != Preferred(dns.lookup(SplitHostPort(b).value.host)).text
    ensures OddLiteral(dns, b) ==>
              SplitHostPort(b).value.host != Preferred(dns.lookup(SplitHostPort(a).value.host)).text
  {
    LiteralPrints(dns, SplitHostPort(a).value.host);
    LiteralPrints(dns, SplitHostPort(b).value.host);
  }

  lemma LiteralPrints(dns: Resolver, host: string)
    requires dns.Valid()
    ensures dns.parse(host).Some? ==> dns.lookup(host) == [dns.parse(host).value]
  {}

  /** All spellings of an endpoint that are no odd literals make the MONITOR command of an address exactly when
      it is none itself. */
  lemma SpellingMattersIff(dns: Resolver, a: string)
    requires dns.Valid()
    ensures (forall b :: SameRedisEndpoint(dns, a, b) && !OddLiteral(dns, b) ==>
               MonitorTarget(dns, a) == MonitorTarget(dns, b))
            <==> !OddLiteral(dns, a)
  {
    forall b | !OddLiteral(dns, a) && SameRedisEndpoint(dns, a, b) && !OddLiteral(dns, b)
      ensures MonitorTarget(dns, a) == MonitorTarget(dns, b)
    {
      SameTargetIff(dns, a, b);
    }
    if OddLiteral(dns, a) {
      var b := PrintedTwin(dns, a);
      SameTargetIff(dns, a, b);
    }
  }

  /** A resolved key is its own key. */
  lemma KeyIsCanonical(dns: Resolver, a: string)
    requires dns.Valid() && Resolves(dns, a)
    ensures ResolvedKey(dns, ResolvedKey(dns, a)) == ResolvedKey(dns, a)
  {
    KeySplits(dns, a);
  }

  /** The usual spelling of an odd literal. */
  lemma PrintedTwin(dns: Resolver, a: string) returns (b: string)
    requires dns.Valid() && OddLiteral(dns, a)
    ensures SameRedisEndpoint(dns, a, b) && !OddLiteral(dns, b) && HostOf(a) != HostOf(b)
  {
    b := ResolvedKey(dns, a);
    LiteralPrints(dns, SplitHostPort(a).value.host);
    KeySplits(dns, a);
    KeyIsCanonical(dns, a);
    EqualKeysAreSame(dns, a, b);
  }
}
