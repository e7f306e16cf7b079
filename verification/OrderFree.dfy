/** A tick does not depend on the order in which a Go map yields the addresses it probes. */
module OrderFree {
  import opened Text
  import opened Endpoint
  import opened NameBook
  import opened Oracle
  import opened HealPlan
  import opened Metrics
  import opened Process
  import opened TickOracle
  import opened HealTrace

  /** The same action with the Redis it is aimed at named by one spelling of all that canon puts together. */
  function CanonIo(canon: string -> string, io: Io): Io {
    match io
    case WriteProbe(a) => WriteProbe(canon(a))
    case LeaseSetNx(a, holder, ttl) => LeaseSetNx(canon(a), holder, ttl)
    case LeaseGet(a) => LeaseGet(canon(a))
    case LeaseExpire(a, ttl) => LeaseExpire(canon(a), ttl)
    case _ => io
  }

  function Canon(canon: string -> string, h: seq<Io>): (c: seq<Io>)
    ensures |c| == |h|
  {
    seq(|h|, i requires 0 <= i < |h| => CanonIo(canon, h[i]))
  }

  /** The outside world makes no difference between spellings that canon puts together. */
  ghost predicate SpellingBlind(w: World, canon: string -> string) {
    forall g, h :: Canon(canon, g) == Canon(canon, h) ==> w.answer(g) == w.answer(h) && w.clock(g) == w.clock(h)
  }

  /** Two states that differ at most in how Redis nodes are spelled in their histories. */
  ghost predicate Alike(canon: string -> string, p: Proc, q: Proc) {
    Canon(canon, p.hist) == Canon(canon, q.hist) && p.(hist := []) == q.(hist := [])
  }

  /** Two spellings of one endpoint that canon puts together and no MONITOR can tell apart. */
  predicate Interchangeable(canon: string -> string, names: Names, m1: string, m2: string) {
    names.same(m1, m2) && names.target(m1) == names.target(m2) && canon(m1) == canon(m2)
  }

  lemma CanonAppend(canon: string -> string, g: seq<Io>, h: seq<Io>, tail1: seq<Io>, tail2: seq<Io>)
    requires Canon(canon, g) == Canon(canon, h) && Canon(canon, tail1) == Canon(canon, tail2)
    ensures Canon(canon, g + tail1) == Canon(canon, h + tail2)
  {
    assert Canon(canon, g + tail1) == Canon(canon, g) + Canon(canon, tail1);
    assert Canon(canon, h + tail2) == Canon(canon, h) + Canon(canon, tail2);
  }

  lemma CanonOne(canon: string -> string, g: seq<Io>, h: seq<Io>, x: Io, y: Io)
    requires Canon(canon, g) == Canon(canon, h) && CanonIo(canon, x) == CanonIo(canon, y)
    ensures Canon(canon, g + [x]) == Canon(canon, h + [y])
  {
    assert Canon(canon, [x]) == Canon(canon, [y]);
    CanonAppend(canon, g, h, [x], [y]);
  }

  lemma LeaseAlike(canon: string -> string, w: World, names: Names, m1: string, m2: string, holder: string, ttl: int,
                   g: seq<Io>, h: seq<Io>)
    requires names.Lawful() && SpellingBlind(w, canon) && Interchangeable(canon, names, m1, m2)
    requires Canon(canon, g) == Canon(canon, h)
    ensures var a, b := LeaseRun(w, m1, holder, ttl, g), LeaseRun(w, m2, holder, ttl, h);
            a.verdict == b.verdict && Canon(canon, a.hist) == Canon(canon, b.hist)
  {
    var id, t := HolderId(w, holder), LeaseTtl(ttl);
    CanonOne(canon, g, h, LeaseSetNx(m1, id, t), LeaseSetNx(m2, id, t));
    var g1, h1 := g + [LeaseSetNx(m1, id, t)], h + [LeaseSetNx(m2, id, t)];
    CanonOne(canon, g1, h1, LeaseGet(m1), LeaseGet(m2));
    CanonOne(canon, g1 + [LeaseGet(m1)], h1 + [LeaseGet(m2)], LeaseExpire(m1, t), LeaseExpire(m2, t));
  }

  lemma VerifyAlike(canon: string -> string, w: World, names: Names, s: string, m1: string, m2: string, g: seq<Io>,
                    h: seq<Io>)
    requires names.Lawful() && SpellingBlind(w, canon) && Interchangeable(canon, names, m1, m2)
    requires Canon(canon, g) == Canon(canon, h)
    ensures var a, b := Verify(w, names, s, m1, g), Verify(w, names, s, m2, h);
            a.ok == b.ok && Canon(canon, a.hist) == Canon(canon, b.hist)
  {
    forall host, port ensures names.same(Printed(host, port), m1) == names.same(Printed(host, port), m2) {
      SameOracle(names, Printed(host, port), m1, m2);
    }
    CanonOne(canon, g, h, GetMasterAddr(s), GetMasterAddr(s));
    CanonOne(canon, g + [GetMasterAddr(s)], h + [GetMasterAddr(s)], WriteProbe(m1), WriteProbe(m2));
  }

  lemma ScriptAlike(canon: string -> string, cfg: Config, s: string, target: Target, g: seq<Io>, h: seq<Io>)
    requires Canon(canon, g) == Canon(canon, h)
    ensures var head, auth := MonitorHead(cfg, s, target), AuthCommands(s, ConfiguredAuth(cfg));
            && Canon(canon, g + head) == Canon(canon, h + head)
            && Canon(canon, g + head + auth) == Canon(canon, h + head + auth)
  {
    var head, auth := MonitorHead(cfg, s, target), AuthCommands(s, ConfiguredAuth(cfg));
    CanonAppend(canon, g, h, head, head);
    CanonAppend(canon, g + head, h + head, auth, auth);
  }

  lemma ResetAlike(canon: string -> string, w: World, names: Names, s: string, m1: string, m2: string, g: seq<Io>,
                   h: seq<Io>)
    requires names.Lawful() && SpellingBlind(w, canon) && Interchangeable(canon, names, m1, m2)
    requires Canon(canon, g) == Canon(canon, h)
    ensures var a, b := Verify(w, names, s, m1, g + [ResetMaster(s)]), Verify(w, names, s, m2, h + [ResetMaster(s)]);
            a.ok == b.ok && Canon(canon, a.hist) == Canon(canon, b.hist)
  {
    CanonOne(canon, g, h, ResetMaster(s), ResetMaster(s));
    VerifyAlike(canon, w, names, s, m1, m2, g + [ResetMaster(s)], h + [ResetMaster(s)]);
  }

  lemma MonitorAlike(canon: string -> string, w: World, cfg: Config, names: Names, s: string, m1: string, m2: string,
                     target: Target, reason: Reason, p: Proc, q: Proc)
    requires names.Lawful() && SpellingBlind(w, canon) && Interchangeable(canon, names, m1, m2) && Alike(canon, p, q)
    ensures Alike(canon, MonitorRun(w, cfg, names, s, m1, target, reason, p),
                  MonitorRun(w, cfg, names, s, m2, target, reason, q))
  {
    ScriptAlike(canon, cfg, s, target, p.hist, q.hist);
    var script := MonitorHead(cfg, s, target);
    var g := p.hist + script + AuthCommands(s, ConfiguredAuth(cfg));
    var h := q.hist + script + AuthCommands(s, ConfiguredAuth(cfg));
    VerifyAlike(canon, w, names, s, m1, m2, g, h);
    ResetAlike(canon, w, names, s, m1, m2, Verify(w, names, s, m1, g).hist, Verify(w, names, s, m2, h).hist);
  }

  lemma HealAlike(canon: string -> string, w: World, cfg: Config, names: Names, s: string, m1: string, m2: string,
                  plan: Plan, p: Proc, q: Proc)
    requires names.Lawful() && SpellingBlind(w, canon) && Interchangeable(canon, names, m1, m2) && Alike(canon, p, q)
    requires !plan.action.Failover?
    ensures Alike(canon, HealRun(w, cfg, names, s, m1, plan, p), HealRun(w, cfg, names, s, m2, plan, q))
  {
    if !plan.action.Refuse? && names.target(m1).Some? {
      var p1 := p.(lastHeal := Some(w.clock(p.hist))).Inc(HealAttempt);
      var q1 := q.(lastHeal := Some(w.clock(q.hist))).Inc(HealAttempt);
      MonitorAlike(canon, w, cfg, names, s, m1, m2, names.target(m1).value, plan.reason, p1, q1);
    }
  }

  lemma LeasedAlike(canon: string -> string, w: World, cfg: Config, names: Names, s: string, m1: string, m2: string,
                    plan: Plan, p: Proc, q: Proc)
    requires names.Lawful() && SpellingBlind(w, canon) && Interchangeable(canon, names, m1, m2) && Alike(canon, p, q)
    requires !plan.action.Failover?
    ensures Alike(canon, LeasedHeal(w, cfg, names, s, m1, plan, p), LeasedHeal(w, cfg, names, s, m2, plan, q))
  {
    HealAlike(canon, w, cfg, names, s, m1, m2, plan, p, q);
    LeaseAlike(canon, w, names, m1, m2, cfg.leaseHolder, ApplyTtl(cfg), p.hist, q.hist);
    var a := LeaseRun(w, m1, cfg.leaseHolder, ApplyTtl(cfg), p.hist);
    var b := LeaseRun(w, m2, cfg.leaseHolder, ApplyTtl(cfg), q.hist);
    HealAlike(canon, w, cfg, names, s, m1, m2, plan, p.(hist := a.hist).Inc(HealLeaseAcquired),
              q.(hist := b.hist).Inc(HealLeaseAcquired));
  }

  /** What two probe orders of the same addresses have in common. */
  ghost predicate SameNodes(cfg: Config, names: Names, xs: seq<NodeResult>, ys: seq<NodeResult>) {
    && (forall n :: n in xs <==> n in ys)
    && ReachableSeeds(names, cfg.redisAddrs, xs) == ReachableSeeds(names, cfg.redisAddrs, ys)
  }

  lemma ApplyAlike(canon: string -> string, w: World, cfg: Config, names: Names, s: string, advertised: string,
                   m1: string, m2: string, xs: seq<NodeResult>, ys: seq<NodeResult>, trap: bool, p: Proc, q: Proc)
    requires names.Lawful() && SpellingBlind(w, canon) && Interchangeable(canon, names, m1, m2) && Alike(canon, p, q)
    requires SameNodes(cfg, names, xs, ys) && OracleAmong(m1, xs) && OracleAmong(m2, ys)
    requires names.caseless(advertised) && !names.same(advertised, m1)
    ensures Alike(canon, ApplyRun(w, cfg, names, s, advertised, m1, xs, trap, p),
                  ApplyRun(w, cfg, names, s, advertised, m2, ys, trap, q))
  {
    CanonOne(canon, p.hist, q.hist, MasterInfo(s), MasterInfo(s));
    var p1, q1 := p.Did(MasterInfo(s)), q.Did(MasterInfo(s));
    var flags := FlagsOf(w.answer(p1.hist));
    assert flags == FlagsOf(w.answer(q1.hist)) && w.clock(p1.hist) == w.clock(q1.hist);
    PlanIgnoresOrder(names, advertised, m1, m2, flags, xs, ys, trap, cfg.equalEpochEscalate);
    DivergedPlan(names, advertised, m1, flags, xs, trap, cfg.equalEpochEscalate);
    var plan := PlanFor(names, advertised, m1, flags, xs, trap, cfg.equalEpochEscalate);
    LeasedAlike(canon, w, cfg, names, s, m1, m2, plan, p1, q1);
  }

  lemma CheckAlike(canon: string -> string, w: World, cfg: Config, names: Names, s: string, view: View, m1: string,
                   m2: string, xs: seq<NodeResult>, ys: seq<NodeResult>, trap: bool, p: Proc, q: Proc)
    requires names.Lawful() && SpellingBlind(w, canon) && Interchangeable(canon, names, m1, m2) && Alike(canon, p, q)
    requires SameNodes(cfg, names, xs, ys) && OracleAmong(m1, xs) && OracleAmong(m2, ys)
    ensures Alike(canon, CheckRun(w, cfg, names, s, view, m1, xs, trap, p),
                  CheckRun(w, cfg, names, s, view, m2, ys, trap, q))
  {
    SameOracle(names, Printed(view.host, view.port), m1, m2);
    if !view.err && !names.same(Printed(view.host, view.port), m1) && cfg.apply {
      ApplyAlike(canon, w, cfg, names, s, Printed(view.host, view.port), m1, m2, xs, ys, trap,
                 p.Inc(Diverge).(diverged := 1), q.Inc(Diverge).(diverged := 1));
    }
  }

  lemma {:induction false} ChecksAlike(canon: string -> string, w: World, cfg: Config, obs: Observation, m1: string,
                                       m2: string, xs: seq<NodeResult>, ys: seq<NodeResult>, trap: bool, k: nat,
                                       p: Proc, q: Proc)
    requires OneViewEach(cfg, obs) && k <= |obs.views|
    requires obs.names.Lawful() && SpellingBlind(w, canon) && Interchangeable(canon, obs.names, m1, m2)
    requires Alike(canon, p, q)
    requires SameNodes(cfg, obs.names, xs, ys) && OracleAmong(m1, xs) && OracleAmong(m2, ys)
    ensures Alike(canon, ChecksRun(w, cfg, obs, m1, xs, trap, k, p), ChecksRun(w, cfg, obs, m2, ys, trap, k, q))
  {
    if k > 0 {
      ChecksAlike(canon, w, cfg, obs, m1, m2, xs, ys, trap, k - 1, p, q);
      CheckAlike(canon, w, cfg, obs.names, cfg.sentinelAddrs[k - 1], obs.views[k - 1], m1, m2, xs, ys, trap,
                 ChecksRun(w, cfg, obs, m1, xs, trap, k - 1, p), ChecksRun(w, cfg, obs, m2, ys, trap, k - 1, q));
    }
  }

  // ----- two probe orders -----

  function UpIndices(up: string -> bool, order: seq<string>): set<int> {
    set i | 0 <= i < |order| && up(order[i])
  }

  function UpAddrs(up: string -> bool, order: seq<string>): set<string> { set a | a in order && up(a) }

  lemma UpStep(up: string -> bool, rest: seq<string>, a: string)
    ensures UpIndices(up, rest + [a]) == UpIndices(up, rest) + if up(a) then {|rest|} else {}
    ensures UpAddrs(up, rest + [a]) == UpAddrs(up, rest) + if up(a) then {a} else {}
    ensures |rest| !in UpIndices(up, rest)
  {}

  lemma {:induction false} UpCount(up: string -> bool, order: seq<string>)
    requires forall i, j :: 0 <= i < j < |order| ==> order[i] != order[j]
    ensures |UpIndices(up, order)| == |UpAddrs(up, order)|
  {
    if order == [] {
      assert UpIndices(up, order) == {} && UpAddrs(up, order) == {};
    } else {
      var rest, a := order[..|order| - 1], order[|order| - 1];
      UpCount(up, rest);
      UpStep(up, rest, a);
      assert order == rest + [a] && a !in rest;
    }
  }

  lemma OrdersShareNodes(cfg: Config, obs: Observation, order1: seq<string>, order2: seq<string>, addrs: set<string>)
    requires Enumerates(order1, addrs) && Enumerates(order2, addrs)
    ensures SameNodes(cfg, obs.names, NodesOf(obs, order1), NodesOf(obs, order2))
  {
    var xs, ys := NodesOf(obs, order1), NodesOf(obs, order2);
    ProbedNodes(obs, order1);
    ProbedNodes(obs, order2);
    var up := a => !obs.probe(a).err;
    UpCount(up, order1);
    UpCount(up, order2);
    assert UpAddrs(up, order1) == UpAddrs(up, order2);
    assert (set i | 0 <= i < |xs| && !xs[i].err) == UpIndices(up, order1);
    assert (set i | 0 <= i < |ys| && !ys[i].err) == UpIndices(up, order2);
    forall seed ensures ReachableSeed(obs.names, seed, xs) == ReachableSeed(obs.names, seed, ys) {}
    assert AnsweredSeeds(obs.names, cfg.redisAddrs, xs, |cfg.redisAddrs|)
        == AnsweredSeeds(obs.names, cfg.redisAddrs, ys, |cfg.redisAddrs|);
  }

  /** Two addresses under which one writable Redis was probed. */
  ghost predicate TwoNamesOfOne(names: Names, nodes: seq<NodeResult>, a: string, b: string) {
    exists m, n :: m in nodes && n in nodes && IsWritableMaster(m) && IsWritableMaster(n)
                   && IdentityKey(names, m) == IdentityKey(names, n) && m.addr == a && n.addr == b
  }

  ghost predicate FindingsAgree(names: Names, nodes: seq<NodeResult>, f: Finding, g: Finding) {
    && (f == g || (f.Unique? && g.Unique?))
    && (f.Unique? ==> TwoNamesOfOne(names, nodes, f.addr, g.addr))
  }

  lemma ConclusionsAgree(names: Names, xs: seq<NodeResult>, ys: seq<NodeResult>, nodes: seq<NodeResult>)
    requires forall n :: n in xs <==> n in ys
    requires forall n :: n in xs ==> n in nodes
    ensures FindingsAgree(names, nodes, Conclude(names, xs), Conclude(names, ys))
  {
    OracleIgnoresOrder(names, xs, ys);
  }

  lemma OrdersShareFinding(cfg: Config, obs: Observation, order1: seq<string>, order2: seq<string>)
    requires Enumerates(order1, Addresses(cfg, obs)) && Enumerates(order2, Addresses(cfg, obs))
    ensures FindingsAgree(obs.names, NodesOf(obs, order1), FindOracle(cfg, obs, order1), FindOracle(cfg, obs, order2))
  {
    OrdersShareCandidates(cfg, obs, order1, order2);
    CandidatesAreProbed(cfg, obs, order1);
    ConclusionsAgree(obs.names, OracleNodes(cfg, obs, order1), OracleNodes(cfg, obs, order2), NodesOf(obs, order1));
  }

  lemma OrdersShareCandidates(cfg: Config, obs: Observation, order1: seq<string>, order2: seq<string>)
    requires forall a :: a in order1 <==> a in order2
    ensures forall n :: n in OracleNodes(cfg, obs, order1) <==> n in OracleNodes(cfg, obs, order2)
  {
    TrustedAreProbed(cfg, obs, order1);
    TrustedAreProbed(cfg, obs, order2);
    ProbedNodes(obs, order1);
    ProbedNodes(obs, order2);
    var s, t := TrustedNodes(cfg, obs, order1), TrustedNodes(cfg, obs, order2);
    assert forall n :: n in s <==> n in t;
    EmptyTogether(s, t);
  }

  lemma EmptyTogether(s: seq<NodeResult>, t: seq<NodeResult>)
    requires forall n :: n in s <==> n in t
    ensures s == [] <==> t == []
  {
    if s != [] { assert s[0] in t; }
    if t != [] { assert t[0] in s; }
  }

  /** The oracle as a tick spells it. */
  function Spelled(t: TickFacts): string { if t.found.Unique? then t.found.addr else "" }

  /** What two observations of the same, made in different orders, agree on. */
  ghost predicate Agree(canon: string -> string, cfg: Config, t1: TickFacts, t2: TickFacts) {
    && (t1.found == t2.found || (t1.found.Unique? && t2.found.Unique?))
    && (t1.found.Unique? ==>
          && SameNodes(cfg, t1.obs.names, t1.nodes, t2.nodes)
          && OracleAmong(t1.found.addr, t1.nodes) && OracleAmong(t2.found.addr, t2.nodes)
          && Interchangeable(canon, t1.obs.names, t1.found.addr, t2.found.addr))
  }

  /** Identity is endpoint, and no writable node is named by an IPv6 literal that is not written as it prints. */
  ghost predicate Unambiguous(t: TickFacts) {
    && t.obs.names.Lawful() && IdentityIsEndpoint(t.obs.names, t.nodes)
    && forall n | n in t.nodes && IsWritableMaster(n) :: t.obs.names.plain(n.addr)
  }

  lemma OrdersAgree(canon: string -> string, cfg: Config, t1: TickFacts, t2: TickFacts, order1: seq<string>,
                    order2: seq<string>)
    requires t1.obs == t2.obs && ObservedIn(cfg, t1, order1) && ObservedIn(cfg, t2, order2)
    requires Unambiguous(t1) && canon(Spelled(t1)) == canon(Spelled(t2))
    ensures Agree(canon, cfg, t1, t2)
  {
    OrdersShareFinding(cfg, t1.obs, order1, order2);
    if t1.found.Unique? {
      OrdersShareNodes(cfg, t1.obs, order1, order2, Addresses(cfg, t1.obs));
      OracleIsProbed(cfg, t1.obs, order1);
      OracleIsProbed(cfg, t1.obs, order2);
      NamesInterchange(t1, t1.found.addr, t2.found.addr);
    }
  }

  lemma NamesInterchange(t: TickFacts, a: string, b: string)
    requires Unambiguous(t) && TwoNamesOfOne(t.obs.names, t.nodes, a, b)
    ensures t.obs.names.same(a, b) && t.obs.names.target(a) == t.obs.names.target(b)
  {
    var names, nodes := t.obs.names, t.nodes;
    var m, n :| m in nodes && n in nodes && IsWritableMaster(m) && IsWritableMaster(n)
      && IdentityKey(names, m) == IdentityKey(names, n) && m.addr == a && n.addr == b;
    assert names.same(m.addr, n.addr);
  }

  lemma AgreeingTicks(canon: string -> string, w: World, cfg: Config, t1: TickFacts, t2: TickFacts, p: Proc, q: Proc)
    requires t1.obs == t2.obs && t1.trap == t2.trap && Actable(cfg, t1) && Actable(cfg, t2)
    requires Agree(canon, cfg, t1, t2) && t1.obs.names.Lawful() && SpellingBlind(w, canon) && Alike(canon, p, q)
    ensures Alike(canon, TickRun(w, cfg, t1, p), TickRun(w, cfg, t2, q))
  {
    CanonOne(canon, p.hist, q.hist, Wake, Wake);
    assert Alike(canon, Started(p), Started(q));
    FindingAlike(canon, w, cfg, t1, t2, Started(p), Started(q));
  }

  lemma FindingAlike(canon: string -> string, w: World, cfg: Config, t1: TickFacts, t2: TickFacts, p: Proc, q: Proc)
    requires t1.obs == t2.obs && t1.trap == t2.trap && Actable(cfg, t1) && Actable(cfg, t2)
    requires Agree(canon, cfg, t1, t2) && t1.obs.names.Lawful() && SpellingBlind(w, canon) && Alike(canon, p, q)
    ensures Alike(canon, FindingRun(w, cfg, t1.obs, t1.nodes, t1.found, t1.trap, p),
                  FindingRun(w, cfg, t2.obs, t2.nodes, t2.found, t2.trap, q))
  {
    if t1.found.Unique? { ActAlike(canon, w, cfg, t1, t2, p.(writable := 1), q.(writable := 1)); }
  }

  lemma ActAlike(canon: string -> string, w: World, cfg: Config, t1: TickFacts, t2: TickFacts, p: Proc, q: Proc)
    requires t1.obs == t2.obs && t1.trap == t2.trap && Actable(cfg, t1) && Actable(cfg, t2) && t1.found.Unique?
    requires Agree(canon, cfg, t1, t2) && t1.obs.names.Lawful() && SpellingBlind(w, canon) && Alike(canon, p, q)
    ensures Alike(canon, ActRun(w, cfg, t1.obs, t1.found.addr, t1.nodes, t1.trap, p),
                  ActRun(w, cfg, t2.obs, t2.found.addr, t2.nodes, t2.trap, q))
  {
    ChecksAlike(canon, w, cfg, t1.obs, t1.found.addr, t2.found.addr, t1.nodes, t2.nodes, t1.trap, CheckCount(cfg),
                if t1.trap then p.Inc(AlertEqualEpochTrap) else p, if t1.trap then q.Inc(AlertEqualEpochTrap) else q);
  }

  /** The two ticks observe the same, in whatever order, and canon puts their spellings of the oracle together. */
  ghost predicate SameButOrder(canon: string -> string, cfg: Config, t1: TickFacts, t2: TickFacts) {
    t1.obs == t2.obs && Observed(cfg, t1) && Observed(cfg, t2) && canon(Spelled(t1)) == canon(Spelled(t2))
  }

  /** Two ticks that observe the same and differ only in the order in which addresses were probed end in states
      that differ at most in the spelling of the oracle: the same counters, gauges and pause, and the same commands
      sent to Sentinels. Identity must be endpoint, no writable node may be named by an IPv6 literal that is not
      written as it prints, and the outside world must not tell the two spellings of the oracle apart. */
  lemma ProbeOrderDoesNotMatter(canon: string -> string, w: World, cfg: Config, t1: TickFacts, t2: TickFacts, p: Proc,
                                q: Proc)
    requires SameButOrder(canon, cfg, t1, t2) && Unambiguous(t1) && SpellingBlind(w, canon) && Alike(canon, p, q)
    ensures Actable(cfg, t1) && Actable(cfg, t2)
    ensures Alike(canon, TickRun(w, cfg, t1, p), TickRun(w, cfg, t2, q))
    ensures Commands(TickRun(w, cfg, t1, p).hist) == Commands(TickRun(w, cfg, t2, q).hist)
  {
    if cfg.sentinelAddrs != [] {
      var order1 :| ObservedIn(cfg, t1, order1);
      var order2 :| ObservedIn(cfg, t2, order2);
      OrdersAgree(canon, cfg, t1, t2, order1, order2);
    }
    AgreeingTicks(canon, w, cfg, t1, t2, p, q);
    AlikeCommands(canon, TickRun(w, cfg, t1, p), TickRun(w, cfg, t2, q));
  }

  ghost predicate AllSameButOrder(canon: string -> string, cfg: Config, run1: seq<TickFacts>, run2: seq<TickFacts>) {
    && |run1| == |run2|
    && forall i | 0 <= i < |run1| :: SameButOrder(canon, cfg, run1[i], run2[i]) && Unambiguous(run1[i])
  }

  lemma ObservedActs(cfg: Config, t: TickFacts)
    requires Observed(cfg, t)
    ensures Actable(cfg, t)
  {}

  lemma SameRunsAct(canon: string -> string, cfg: Config, run1: seq<TickFacts>, run2: seq<TickFacts>)
    requires AllSameButOrder(canon, cfg, run1, run2)
    ensures AllActable(cfg, run1) && AllActable(cfg, run2)
  {
    forall t | t in run1 ensures Actable(cfg, t) {
      var i :| 0 <= i < |run1| && run1[i] == t;
      assert SameButOrder(canon, cfg, run1[i], run2[i]);
      ObservedActs(cfg, t);
    }
    forall t | t in run2 ensures Actable(cfg, t) {
      var i :| 0 <= i < |run2| && run2[i] == t;
      assert SameButOrder(canon, cfg, run1[i], run2[i]);
      ObservedActs(cfg, t);
    }
  }

  /** So over whole runs: however every tick orders what it probes, the same commands are sent to Sentinels, and the
      counters, gauges and pause are the same at the end. */
  lemma {:induction false} RunOrderDoesNotMatter(canon: string -> string, w: World, cfg: Config, run1: seq<TickFacts>,
                                                 run2: seq<TickFacts>, p: Proc)
    requires AllSameButOrder(canon, cfg, run1, run2) && SpellingBlind(w, canon)
    ensures AllActable(cfg, run1) && AllActable(cfg, run2)
    ensures Alike(canon, RunOf(w, cfg, run1, p), RunOf(w, cfg, run2, p))
    ensures Commands(RunOf(w, cfg, run1, p).hist) == Commands(RunOf(w, cfg, run2, p).hist)
    decreases |run1|
  {
    SameRunsAct(canon, cfg, run1, run2);
    if run1 != [] {
      var n := |run1| - 1;
      RunOrderDoesNotMatter(canon, w, cfg, run1[..n], run2[..n], p);
      assert SameButOrder(canon, cfg, run1[n], run2[n]) && Unambiguous(run1[n]);
      ProbeOrderDoesNotMatter(canon, w, cfg, run1[n], run2[n], RunOf(w, cfg, run1[..n], p),
                              RunOf(w, cfg, run2[..n], p));
    }
  }

  /** Commands to Sentinels do not mention the oracle's spelling. */
  lemma {:induction false} CommandsCanon(canon: string -> string, h: seq<Io>)
    ensures Commands(Canon(canon, h)) == Commands(h)
  {
    if h != [] {
      CommandsCanon(canon, h[..|h| - 1]);
      assert Canon(canon, h)[..|h| - 1] == Canon(canon, h[..|h| - 1]);
    }
  }

  lemma AlikeCommands(canon: string -> string, p: Proc, q: Proc)
    requires Alike(canon, p, q)
    ensures Commands(p.hist) == Commands(q.hist)
  {
    CommandsCanon(canon, p.hist);
    CommandsCanon(canon, q.hist);
  }

  // ----- when spelling shows -----

  /** Two spellings of the oracle make the same commands of one planned heal exactly when they have one MONITOR
      target. */
  lemma SpellingShowsIff(canon: string -> string, w: World, cfg: Config, names: Names, s: string, m1: string,
                         m2: string, plan: Plan, p: Proc)
    requires names.Lawful() && SpellingBlind(w, canon) && names.same(m1, m2) && canon(m1) == canon(m2)
    requires plan.action.Monitor?
    ensures var q1, q2 := HealRun(w, cfg, names, s, m1, plan, p), HealRun(w, cfg, names, s, m2, plan, p);
            Commands(q1.hist) == Commands(q2.hist) <==> names.target(m1) == names.target(m2)
  {
    if names.target(m1) == names.target(m2) {
      HealAlike(canon, w, cfg, names, s, m1, m2, plan, p, p);
      AlikeCommands(canon, HealRun(w, cfg, names, s, m1, plan, p), HealRun(w, cfg, names, s, m2, plan, p));
    } else {
      SecondCommand(w, cfg, names, s, m1, plan, p);
      SecondCommand(w, cfg, names, s, m2, plan, p);
    }
  }

  lemma SecondCommand(w: World, cfg: Config, names: Names, s: string, masterKey: string, plan: Plan, p: Proc)
    requires plan.action.Monitor?
    ensures var sent, n := Commands(HealRun(w, cfg, names, s, masterKey, plan, p).hist), |Commands(p.hist)|;
            if names.target(masterKey).None? then |sent| == n
            else
              && |sent| > n + 1
              && var t := names.target(masterKey).value;
                 sent[n + 1] == MonitorMaster(s, t.ip, t.port, cfg.quorum)
  {
    HealGrammar(w, cfg, names, s, masterKey, plan, p);
    if names.target(masterKey).Some? {
      var sent := MonitorCommands(w, cfg, names, s, masterKey, names.target(masterKey).value, plan.reason, p.hist);
      assert sent[..2] == MonitorScript(cfg, s, names.target(masterKey).value)[..2];
      assert sent[1] == sent[..2][1];
    }
  }
}
