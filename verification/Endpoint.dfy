/** Redis addresses: splitting and joining host:port, resolving them, and the two notions of
    "the same Redis" that a tick relies on. */
module Endpoint {
  import opened Text

  /** An address returned by the resolver, with its printed form. */
  datatype IP = V4(text: string) | V6(text: string)

  /** Name resolution as it stands during one tick. An empty answer is a failed lookup;
      parse recognises IP literals. */
  datatype Resolver = Resolver(lookup: string -> seq<IP>, parse: string -> Option<IP>) {
    /** What any resolver does: it ignores case, an IP literal resolves to itself, and the printed forms are the
        usual ones (they are literals; only IPv6 text holds a colon; an IPv4 literal prints as itself). */
    ghost predicate Valid() {
      && (forall h1, h2 {:trigger EqualFold(h1, h2)} :: EqualFold(h1, h2) ==> lookup(h1) == lookup(h2))
      && (forall h {:trigger parse(h)} :: parse(h).Some? ==> lookup(h) == [parse(h).value])
      && (forall h {:trigger parse(h)} :: parse(h).Some? && ':' !in h ==> parse(h).value == V4(h))
      && (forall h, ip {:trigger ip in lookup(h)} :: ip in lookup(h) ==> WellPrinted(ip) && parse(ip.text) == Some(ip))
    }
  }

  predicate WellPrinted(ip: IP) {
    match ip
    case V4(t) => t != "" && forall c | c in t :: IsDigit(c) || c == '.'
    case V6(t) => ':' in t && '[' !in t && ']' !in t
  }

  datatype HostPort = HostPort(host: string, port: string)

  function SplitBracketed(s: string, i: nat): (r: Option<HostPort>)
    requires i < |s| && s[i] == ':' && ':' !in s[i + 1..] && s[0] == '['
    ensures r.Some? ==> s == "[" + r.value.host + "]:" + r.value.port && ':' !in r.value.port
    ensures r.Some? ==> '[' !in r.value.host && ']' !in r.value.host
  {
    var end := Index(s, ']');
    if end < 0 || end + 1 != i || '[' in s[1..] || ']' in s[end + 1..] then None
    else Some(HostPort(s[1..end], s[i + 1..]))
  }

  function SplitPlain(s: string, i: nat): (r: Option<HostPort>)
    requires i < |s| && s[i] == ':' && ':' !in s[i + 1..]
    ensures r.Some? ==> s == r.value.host + ":" + r.value.port && ':' !in r.value.port
    ensures r.Some? ==> ':' !in r.value.host && '[' !in r.value.host && ']' !in r.value.host
  {
    if ':' in s[..i] || '[' in s || ']' in s then None else Some(HostPort(s[..i], s[i + 1..]))
  }

  /** net.SplitHostPort: the port follows the last colon, and a host holding colons must be in brackets. */
  function SplitHostPort(s: string): (r: Option<HostPort>)
    ensures r.Some? ==> (s == r.value.host + ":" + r.value.port || s == "[" + r.value.host + "]:" + r.value.port)
    ensures r.Some? ==> ':' !in r.value.port && '[' !in r.value.host && ']' !in r.value.host
    ensures r.Some? && s[0] != '[' ==> ':' !in r.value.host && s == r.value.host + ":" + r.value.port
  {
    var i := LastIndex(s, ':');
    if i < 0 then None else if s[0] == '[' then SplitBracketed(s, i) else SplitPlain(s, i)
  }

  function JoinHostPort(host: string, port: string): string {
    if ':' in host then "[" + host + "]:" + port else host + ":" + port
  }

  /** The address the resolver's answer stands for: the first IPv4, else the first of all. */
  function Preferred(ips: seq<IP>): (ip: IP)
    requires ips != []
    ensures ip in ips
    ensures ip.V6? ==> forall x | x in ips :: x.V6?
  {
    if ips[0].V4? || |ips| == 1 then ips[0]
    else var r := Preferred(ips[1..]); if r.V4? then r else ips[0]
  }

  lemma {:induction false} FirstV4IsPreferred(ips: seq<IP>, i: nat)
    requires i < |ips| && ips[i].V4? && forall j | 0 <= j < i :: ips[j].V6?
    ensures Preferred(ips) == ips[i]
  {
    if i > 0 { FirstV4IsPreferred(ips[1..], i - 1); }
  }

  /** The key two spellings of one endpoint share. */
  function ResolvedKey(dns: Resolver, addr: string): string
  {
    match SplitHostPort(addr)
    case None => ToLower(addr)
    case Some(hp) =>
      var ips := dns.lookup(hp.host);
      if ips == [] then ToLower(addr) else JoinHostPort(Preferred(ips).text, hp.port)
  }

  method ResolveKey(dns: Resolver, addr: string) returns (key: string)
    ensures key == ResolvedKey(dns, addr)
  {
    var hp := SplitHostPort(addr);
    if hp.None? { return ToLower(addr); }
    var ips := dns.lookup(hp.value.host);
    if |ips| == 0 { return ToLower(addr); }
    var ip4: Option<IP> := None;
    var i := 0;
    while i < |ips| && ip4.None?
      invariant 0 <= i <= |ips|
      invariant ip4.None? ==> forall j | 0 <= j < i :: ips[j].V6?
      invariant ip4.Some? ==> ip4.value.V4? && ip4.value == Preferred(ips)
    {
      if ips[i].V4? {
        FirstV4IsPreferred(ips, i);
        ip4 := Some(ips[i]);
      }
      i := i + 1;
    }
    if ip4.None? {
      assert Preferred(ips) == ips[0];
      ip4 := Some(ips[0]);
    }
    key := JoinHostPort(ip4.value.text, hp.value.port);
  }

  predicate SameRedisEndpoint(dns: Resolver, a: string, b: string) {
    EqualFold(a, b) || (ResolvedKey(dns, a) != "" && ResolvedKey(dns, a) == ResolvedKey(dns, b))
  }

  datatype Target = Target(ip: string, port: int)

  /** The ip and port that SENTINEL MONITOR is given for an address, or None when it has none. */
  function MonitorTarget(dns: Resolver, addr: string): Option<Target>
  {
    match SplitHostPort(addr)
    case None => None
    case Some(hp) =>
      match Atoi(hp.port)
      case None => None
      case Some(n) =>
        if dns.parse(hp.host).Some? then Some(Target(hp.host, n))
        else
          var ips := dns.lookup(hp.host);
          if ips == [] then None else Some(Target(Preferred(ips).text, n))
  }

  method EndpointIPPort(dns: Resolver, addr: string) returns (t: Option<Target>)
    ensures t == MonitorTarget(dns, addr)
  {
    var hp := SplitHostPort(addr);
    if hp.None? { return None; }
    var port := Atoi(hp.value.port);
    if port.None? { return None; }
    if dns.parse(hp.value.host).Some? { return Some(Target(hp.value.host, port.value)); }
    var ips := dns.lookup(hp.value.host);
    if |ips| == 0 { return None; }
    var text := FirstV4Text(ips);
    t := Some(Target(text, port.value));
  }

  /** The first IPv4 of an answer, else its first address, as printed. */
  method FirstV4Text(ips: seq<IP>) returns (text: string)
    requires ips != []
    ensures text == Preferred(ips).text
  {
    for i := 0 to |ips|
      invariant forall j | 0 <= j < i :: ips[j].V6?
    {
      if ips[i].V4? {
        FirstV4IsPreferred(ips, i);
        return ips[i].text;
      }
    }
    assert Preferred(ips) == ips[0];
    text := ips[0].text;
  }

  /** How an advertised host and port are printed before they are compared. */
  function Printed(host: string, port: int): string { host + ":" + Itoa(port) }

  lemma PrintedColon(host: string, port: int)
    ensures LastIndex(Printed(host, port), ':') == |host|
    ensures Printed(host, port)[..|host|] == host && Printed(host, port)[|host| + 1..] == Itoa(port)
  {
    var s := Printed(host, port);
    assert s[|host| + 1..] == Itoa(port);
    LastIndexIs(s, ':', |host|);
  }

  // ----- same endpoint is same key -----

  predicate Letterless(s: string) { forall c | c in s :: !IsLetter(c) }

  /** The part of an address after its last colon holds no letter, so that case cannot tell
      two spellings of it apart. Every numeric port is of this kind. */
  predicate CaselessPort(addr: string) {
    SplitHostPort(addr).Some? ==> Letterless(SplitHostPort(addr).value.port)
  }

  lemma EqualFoldIndex(a: string, b: string, c: char)
    requires EqualFold(a, b) && !IsLetter(c)
    ensures |a| == |b| && Index(a, c) == Index(b, c) && LastIndex(a, c) == LastIndex(b, c)
    ensures c in a <==> c in b
  {
    assert |ToLower(a)| == |ToLower(b)|;
    forall i | 0 <= i < |a| ensures a[i] == c <==> b[i] == c {
      EqualFoldAt(a, b, i);
    }
    assert Index(a, c) >= 0 ==> a[Index(a, c)] == c;
    assert LastIndex(a, c) >= 0 ==> a[LastIndex(a, c)] == c;
    FirstIndexUnique(a, b, c);
    LastIndexUnique(a, b, c);
  }

  lemma FirstIndexUnique(a: string, b: string, c: char)
    requires |a| == |b| && forall i | 0 <= i < |a| :: a[i] == c <==> b[i] == c
    ensures Index(a, c) == Index(b, c)
  {
    if a != "" && a[0] != c { FirstIndexUnique(a[1..], b[1..], c); }
  }

  lemma LastIndexUnique(a: string, b: string, c: char)
    requires |a| == |b| && forall i | 0 <= i < |a| :: a[i] == c <==> b[i] == c
    ensures LastIndex(a, c) == LastIndex(b, c)
  {
    if a != "" && a[|a| - 1] != c { LastIndexUnique(a[..|a| - 1], b[..|b| - 1], c); }
  }

  lemma EqualFoldDrop(a: string, b: string, k: nat)
    requires EqualFold(a, b) && k <= |a|
    ensures |a| == |b| && EqualFold(a[k..], b[k..]) && EqualFold(a[..k], b[..k])
  {
    EqualFoldSlice(a, b, k, |a|);
    EqualFoldSlice(a, b, 0, k);
    assert a[k..|a|] == a[k..] && b[k..|b|] == b[k..] && a[0..k] == a[..k] && b[0..k] == b[..k];
  }

  lemma FoldedBrackets(a: string, b: string)
    requires EqualFold(a, b) && a != "" && a[0] == '['
    ensures |a| == |b| && b[0] == '[' && Index(a, ']') == Index(b, ']')
    ensures '[' in a[1..] <==> '[' in b[1..]
  {
    EqualFoldAt(a, b, 0);
    EqualFoldIndex(a, b, ']');
    EqualFoldDrop(a, b, 1);
    EqualFoldIndex(a[1..], b[1..], '[');
  }

  lemma FoldedRest(a: string, b: string, end: nat)
    requires EqualFold(a, b) && end < |a|
    ensures |a| == |b| && (']' in a[end + 1..] <==> ']' in b[end + 1..])
    ensures end > 0 ==> EqualFold(a[1..end], b[1..end])
  {
    EqualFoldDrop(a, b, end + 1);
    EqualFoldIndex(a[end + 1..], b[end + 1..], ']');
    if end > 0 { EqualFoldSlice(a, b, 1, end); }
  }

  lemma SplitFoldBracketed(a: string, b: string)
    requires EqualFold(a, b) && LastIndex(a, ':') == LastIndex(b, ':') >= 0 && a[0] == '['
    ensures SplitHostPort(a).Some? == SplitHostPort(b).Some?
    ensures SplitHostPort(a).Some? ==> EqualFold(SplitHostPort(a).value.host, SplitHostPort(b).value.host)
  {
    FoldedBrackets(a, b);
    if Index(a, ']') >= 0 { FoldedRest(a, b, Index(a, ']')); }
  }

  lemma SplitFoldPlain(a: string, b: string)
    requires EqualFold(a, b) && LastIndex(a, ':') == LastIndex(b, ':') >= 0 && a[0] != '['
    ensures SplitHostPort(a).Some? == SplitHostPort(b).Some?
    ensures SplitHostPort(a).Some? ==> EqualFold(SplitHostPort(a).value.host, SplitHostPort(b).value.host)
  {
    var i := LastIndex(a, ':');
    EqualFoldAt(a, b, 0);
    EqualFoldIndex(a, b, ']');
    EqualFoldIndex(a, b, '[');
    EqualFoldDrop(a, b, i);
    EqualFoldIndex(a[..i], b[..i], ':');
  }

  lemma PortIsSuffix(a: string)
    requires SplitHostPort(a).Some?
    ensures SplitHostPort(a).value.port == a[LastIndex(a, ':') + 1..]
  {}

  lemma SplitFoldPort(a: string, b: string)
    requires EqualFold(a, b) && SplitHostPort(a).Some? && SplitHostPort(b).Some?
    requires LastIndex(a, ':') == LastIndex(b, ':')
    ensures EqualFold(SplitHostPort(a).value.port, SplitHostPort(b).value.port)
  {
    var k := LastIndex(a, ':') + 1;
    assert EqualFold(a[k..], b[k..]) by { EqualFoldDrop(a, b, k); }
    PortIsSuffix(a);
    PortIsSuffix(b);
  }

  /** Splitting does not depend on case. */
  lemma SplitFold(a: string, b: string)
    requires EqualFold(a, b)
    ensures SplitHostPort(a).Some? == SplitHostPort(b).Some?
    ensures SplitHostPort(a).Some? ==>
              && EqualFold(SplitHostPort(a).value.host, SplitHostPort(b).value.host)
              && EqualFold(SplitHostPort(a).value.port, SplitHostPort(b).value.port)
  {
    EqualFoldIndex(a, b, ':');
    if LastIndex(a, ':') >= 0 {
      if a[0] == '[' { SplitFoldBracketed(a, b); } else { SplitFoldPlain(a, b); }
    }
    if SplitHostPort(a).Some? { SplitFoldPort(a, b); }
  }

  lemma LetterlessFold(a: string, b: string)
    requires EqualFold(a, b) && Letterless(a)
    ensures a == b
  {
    assert |ToLower(a)| == |ToLower(b)|;
    forall i | 0 <= i < |a| ensures a[i] == b[i] {
      EqualFoldAt(a, b, i);
      assert !IsLetter(a[i]);
    }
  }

  lemma FoldedKeys(dns: Resolver, a: string, b: string)
    requires dns.Valid() && CaselessPort(a) && EqualFold(a, b)
    ensures ResolvedKey(dns, a) == ResolvedKey(dns, b)
  {
    SplitFold(a, b);
    if SplitHostPort(a).Some? {
      LetterlessFold(SplitHostPort(a).value.port, SplitHostPort(b).value.port);
    }
  }

  lemma EqualKeysAreSame(dns: Resolver, a: string, b: string)
    requires ResolvedKey(dns, a) == ResolvedKey(dns, b)
    ensures SameRedisEndpoint(dns, a, b)
  {
    if ResolvedKey(dns, a) == "" { assert a == "" && b == ""; }
  }

  /** ResolvedKey is a canonical form: for an address whose port holds no letter, being the same
      endpoint is having the same key. */
  lemma SameIffKey(dns: Resolver, a: string, b: string)
    requires dns.Valid() && CaselessPort(a)
    ensures SameRedisEndpoint(dns, a, b) <==> ResolvedKey(dns, a) == ResolvedKey(dns, b)
  {
    if EqualFold(a, b) {
      FoldedKeys(dns, a, b);
    } else if ResolvedKey(dns, a) == ResolvedKey(dns, b) {
      EqualKeysAreSame(dns, a, b);
    }
  }
}
