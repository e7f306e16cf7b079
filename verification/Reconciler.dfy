/** The control loop of one process, step by step, as the program runs it. */
module Reconciler {
  import opened Text
  import opened Endpoint
  import opened NameBook
  import opened Oracle
  import opened HealPlan
  import opened Metrics
  import opened Process
  import EpochTrap

  class Reconciler {
    const cfg: Config
    const world: World
    const metrics: MetricSet
    var lastHeal: Option<nat>
    var hist: seq<Io>

    ghost predicate Valid()
      reads this, metrics
    {
      metrics.Valid()
    }

    /** The whole state as a value. */
    ghost function State(): Proc
      reads this, metrics
      requires Valid()
    {
      Proc(lastHeal, hist, metrics.Counts(), metrics.diverged, metrics.wouldHeal, metrics.writable)
    }

    /** New: a quorum of two by default, and no apply to every Sentinel unless it was allowed. */
    constructor (cfg: Config, world: World)
      ensures Valid() && fresh(metrics)
      ensures this.cfg == Normalized(cfg) && this.world == world
      ensures lastHeal.None? && hist == [] && forall c :: State().counts[c] == 0
    {
      var c := cfg;
      if c.quorum <= 0 { c := c.(quorum := 2); }
      if !c.allowGlobalApply { c := c.(requireLocalForApply := true); }
      this.cfg := c;
      this.world := world;
      metrics := new MetricSet();
      lastHeal, hist := None, [];
    }

    method Count(c: Counter)
      requires Valid()
      modifies metrics`counters
      ensures Valid() && State() == old(State()).Inc(c)
    {
      BumpByName(metrics.counters, c);
      metrics.Inc(NameOf(c));
    }

    /** Do one thing to the outside world and hear the answer. */
    method Send(io: Io) returns (reply: Reply)
      requires Valid()
      modifies this`hist
      ensures Valid() && State() == old(State()).Did(io) && reply == world.answer(hist)
    {
      hist := hist + [io];
      reply := world.answer(hist);
    }

    method CountReachableNodes(nodes: seq<NodeResult>) returns (n: nat)
      ensures n == |set i | 0 <= i < |nodes| && !nodes[i].err|
    {
      n := 0;
      ghost var up: set<int> := {};
      for i := 0 to |nodes|
        invariant up == (set k | 0 <= k < i && !nodes[k].err) && n == |up|
      {
        if !nodes[i].err { n, up := n + 1, up + {i}; }
      }
    }

    method SeedAnswered(names: Names, seed: string, nodes: seq<NodeResult>) returns (yes: bool)
      ensures yes == ReachableSeed(names, seed, nodes)
    {
      for j := 0 to |nodes|
        invariant forall k | 0 <= k < j :: nodes[k].err || !names.same(nodes[k].addr, seed)
      {
        if !nodes[j].err && names.same(nodes[j].addr, seed) { return true; }
      }
      return false;
    }

    method CountReachableSeeds(names: Names, nodes: seq<NodeResult>) returns (n: nat)
      ensures n == ReachableSeeds(names, cfg.redisAddrs, nodes)
    {
      if |cfg.redisAddrs| == 0 {
        n := CountReachableNodes(nodes);
        return;
      }
      n := 0;
      for i := 0 to |cfg.redisAddrs|
        invariant n == |AnsweredSeeds(names, cfg.redisAddrs, nodes, i)|
      {
        AnsweredSeedsStep(names, cfg.redisAddrs, nodes, i);
        var yes := SeedAnswered(names, cfg.redisAddrs[i], nodes);
        if yes { n := n + 1; }
      }
    }

    method SeedsSuffice(names: Names, nodes: seq<NodeResult>) returns (ok: bool)
      ensures ok == EnoughReachable(cfg, names, nodes)
    {
      var minR := cfg.minReachableRedis;
      if minR == 0 && |cfg.redisAddrs| >= 3 { minR := 2; }
      if minR <= 0 { return true; }
      var got := CountReachableSeeds(names, nodes);
      return got >= minR;
    }

    method PreflightApply(names: Names, flags: string, nodes: seq<NodeResult>) returns (ok: bool)
      requires Valid()
      modifies metrics`counters
      ensures Valid()
      ensures ok == PreflightPasses(cfg, names, lastHeal, world.clock(hist), flags, nodes)
      ensures State() == if ok then old(State()) else old(State()).Inc(ApplyRefused)
    {
      ok := true;
      if cfg.apply && cfg.requireLocalForApply && !cfg.localSentinel && !cfg.allowGlobalApply {
        ok := false;
      } else if cfg.skipOnFailoverInProgress && FailoverInProgress(flags) {
        ok := false;
      } else if cfg.healCooldown > 0 && lastHeal.Some? && world.clock(hist) - lastHeal.value < cfg.healCooldown {
        ok := false;
      } else {
        ok := SeedsSuffice(names, nodes);
      }
      if !ok { Count(ApplyRefused); }
    }

    method AcquireHealLease(oracleAddr: string, leaseHolder: string, leaseTtl: int) returns (v: Verdict)
      requires Valid()
      modifies this`hist
      ensures Valid()
      ensures var l := LeaseRun(world, oracleAddr, leaseHolder, leaseTtl, old(hist));
              v == l.verdict && State() == old(State()).(hist := l.hist)
    {
      var ttl := leaseTtl;
      if ttl <= 0 { ttl := FIFTEEN_MINUTES; }
      var holder := leaseHolder;
      if holder == "" {
        holder := world.hostname;
        if holder == "" { holder := "pid-" + Itoa(world.pid); }
      }
      var reply := Send(LeaseSetNx(oracleAddr, holder, ttl));
      if reply.Failed? { return LeaseError; }
      if reply.Done? { return LeaseGranted; }
      reply := Send(LeaseGet(oracleAddr));
      var cur := TextOf(reply);
      if cur == holder {
        var _ := Send(LeaseExpire(oracleAddr, ttl));
        return LeaseGranted;
      }
      return LeaseHeld;
    }

    method VerifyHeal(names: Names, s: string, masterKey: string) returns (ok: bool)
      requires Valid()
      modifies this`hist
      ensures Valid()
      ensures var v := Verify(world, names, s, masterKey, old(hist));
              ok == v.ok && State() == old(State()).(hist := v.hist)
    {
      var reply := Send(GetMasterAddr(s));
      if !reply.Address? { return false; }
      var after := Printed(reply.host, reply.port);
      if !names.same(after, masterKey) { return false; }
      reply := Send(WriteProbe(masterKey));
      return reply.Probed? && reply.role.Master? && reply.writable;
    }

    method RebindAuth(s: string)
      requires Valid()
      modifies this`hist
      ensures Valid()
      ensures State() == old(State()).(hist := old(hist) + AuthCommands(s, ConfiguredAuth(cfg)))
    {
      var kvs := AuthAfterMonitor(MasterAuth(cfg.probeAuth, cfg.sentinelAuth));
      ghost var before := hist;
      for i := 0 to |kvs|
        invariant State() == old(State()).(hist := hist) && hist == before + AuthCommands(s, kvs[..i])
      {
        var _ := Send(SetAuth(s, kvs[i].0, kvs[i].1));
        AuthCommandsStep(before, s, kvs, i);
      }
      assert kvs[..|kvs|] == kvs;
    }

    method HealByMonitor(names: Names, s: string, masterKey: string, target: Target, reason: Reason)
      requires Valid()
      modifies this`hist, metrics`counters
      ensures Valid()
      ensures State() == MonitorRun(world, cfg, names, s, masterKey, target, reason, old(State()))
    {
      var _ := Send(Remove(s));
      var reply := Send(MonitorMaster(s, target.ip, target.port, cfg.quorum));
      assert hist == old(hist) + MonitorHead(cfg, s, target);
      if reply.Failed? {
        Count(HealFail);
        return;
      }
      RebindAuth(s);
      var ok := VerifyHeal(names, s, masterKey);
      if ok {
        Count(HealOk);
        return;
      }
      if reason.LiveNonOracle? {
        Count(HealFail);
        return;
      }
      var _ := Send(ResetMaster(s));
      ok := VerifyHeal(names, s, masterKey);
      if ok {
        Count(HealOk);
        return;
      }
      Count(HealFail);
    }

    method PlanHeal(names: Names, advertised: string, masterKey: string, nodes: seq<NodeResult>, flags: string,
                    trap: bool) returns (plan: Plan)
      ensures plan == PlanFor(names, advertised, masterKey, flags, nodes, trap, cfg.equalEpochEscalate)
    {
      var _, writableCount := ClassifyWritable(names, nodes);
      var safety := FailoverPromoteSafe(names, advertised, masterKey, flags, nodes);
      plan := PlanApplyHeal(writableCount, safety.safe, safety.why, trap, cfg.equalEpochEscalate);
    }

    method AttemptHeal(names: Names, s: string, masterKey: string, target: Target, plan: Plan)
      requires Valid()
      modifies this`lastHeal, this`hist, metrics`counters
      ensures Valid()
      ensures State() == AttemptRun(world, cfg, names, s, masterKey, target, plan, old(State()))
    {
      lastHeal := Some(world.clock(hist));
      Count(HealAttempt);
      if plan.action.Failover? {
        var reply := Send(PromoteReplica(s));
        if !reply.Failed? {
          var ok := VerifyHeal(names, s, masterKey);
          if ok {
            Count(HealOk);
            return;
          }
        }
      }
      HealByMonitor(names, s, masterKey, target, plan.reason);
    }

    method HealApi(names: Names, s: string, masterKey: string, plan: Plan)
      requires Valid()
      modifies this`lastHeal, this`hist, metrics`counters
      ensures Valid()
      ensures State() == HealRun(world, cfg, names, s, masterKey, plan, old(State()))
    {
      if plan.action.Refuse? {
        if plan.reason.EqualEpochEscalate? { Count(AlertEqualEpochEscalate); }
        Count(ApplyRefused);
        return;
      }
      var target := names.target(masterKey);
      if target.None? {
        Count(HealFail);
        return;
      }
      AttemptHeal(names, s, masterKey, target.value, plan);
    }

    method HealUnderLease(names: Names, s: string, masterKey: string, plan: Plan)
      requires Valid()
      modifies this`lastHeal, this`hist, metrics`counters
      ensures Valid()
      ensures State() == LeasedHeal(world, cfg, names, s, masterKey, plan, old(State()))
    {
      if cfg.healLease {
        var ttl := cfg.healLeaseTtl;
        if ttl <= 0 { ttl := cfg.healCooldown; }
        var verdict := AcquireHealLease(masterKey, cfg.leaseHolder, ttl);
        if !verdict.LeaseGranted? {
          Count(ApplyRefused);
          return;
        }
        Count(HealLeaseAcquired);
      }
      HealApi(names, s, masterKey, plan);
    }

    method Apply(names: Names, s: string, advertised: string, masterKey: string, nodes: seq<NodeResult>, trap: bool)
      requires Valid()
      modifies this`lastHeal, this`hist, metrics`counters
      ensures Valid()
      ensures State() == ApplyRun(world, cfg, names, s, advertised, masterKey, nodes, trap, old(State()))
    {
      var reply := Send(MasterInfo(s));
      var flags := FlagsOf(reply);
      var ok := PreflightApply(names, flags, nodes);
      if !ok { return; }
      var plan := PlanHeal(names, advertised, masterKey, nodes, flags, trap);
      HealUnderLease(names, s, masterKey, plan);
    }

    method CountDivergence()
      requires Valid()
      modifies metrics
      ensures Valid() && State() == old(State()).Inc(Diverge).(diverged := 1)
    {
      Count(Diverge);
      metrics.NoteDiverged();
    }

    method CountDryRun()
      requires Valid()
      modifies metrics
      ensures Valid() && State() == old(State()).Inc(WouldHeal).(wouldHeal := 1)
    {
      Count(WouldHeal);
      metrics.NoteWouldHeal();
    }

    method CheckDiverge(names: Names, s: string, view: View, masterKey: string, nodes: seq<NodeResult>, trap: bool)
      requires Valid()
      modifies this`lastHeal, this`hist, metrics
      ensures Valid()
      ensures State() == CheckRun(world, cfg, names, s, view, masterKey, nodes, trap, old(State()))
    {
      if view.err { return; }
      var advertised := Printed(view.host, view.port);
      if names.same(advertised, masterKey) {
        Count(Noop);
        return;
      }
      CountDivergence();
      if !cfg.apply {
        CountDryRun();
        return;
      }
      Apply(names, s, advertised, masterKey, nodes, trap);
    }

    method CollectSeeds() returns (addrs: set<string>)
      ensures addrs == set a | a in cfg.redisAddrs
    {
      addrs := {};
      for i := 0 to |cfg.redisAddrs|
        invariant addrs == set a | a in cfg.redisAddrs[..i]
      {
        addrs := addrs + {cfg.redisAddrs[i]};
      }
      assert cfg.redisAddrs[..|cfg.redisAddrs|] == cfg.redisAddrs;
    }

    /** The addresses to probe, gathered into a set. */
    method CollectAddresses(obs: Observation) returns (addrs: set<string>)
      ensures addrs == Addresses(cfg, obs)
    {
      addrs := CollectSeeds();
      ghost var seeds := addrs;
      for i := 0 to |obs.views|
        invariant addrs == seeds + ViewAddrs(obs.views[..i])
      {
        var v := obs.views[i];
        ViewAddrsStep(obs.views, i);
        if v.err || v.host == "" { continue; }
        addrs := addrs + {JoinHostPort(v.host, Itoa(v.port))};
      }
      assert obs.views[..|obs.views|] == obs.views;
      addrs := addrs + obs.discovered;
    }

    method MatchesSeed(names: Names, addr: string) returns (yes: bool)
      ensures yes == IsSeed(cfg, names, addr)
    {
      for i := 0 to |cfg.redisAddrs|
        invariant forall k | 0 <= k < i :: !names.same(addr, cfg.redisAddrs[k])
      {
        if names.same(addr, cfg.redisAddrs[i]) { return true; }
      }
      return false;
    }

    /** Probe every address once, in whatever order the set yields them. */
    method ProbeAll(obs: Observation, addrs: set<string>)
      returns (order: seq<string>, nodes: seq<NodeResult>, candidates: seq<NodeResult>)
      ensures Enumerates(order, addrs)
      ensures nodes == NodesOf(obs, order) && candidates == OracleNodes(cfg, obs, order)
    {
      order, nodes, candidates := [], [], [];
      var pending := addrs;
      while pending != {}
        invariant pending <= addrs && Enumerates(order, addrs - pending)
        invariant nodes == NodesOf(obs, order) && candidates == TrustedNodes(cfg, obs, order)
        decreases pending
      {
        var a :| a in pending;
        var hasSeeds := |cfg.redisAddrs| > 0;
        var isSeed := false;
        if hasSeeds { isSeed := MatchesSeed(obs.names, a); }
        var n := NodeAt(obs, a);
        nodes := nodes + [n];
        if !hasSeeds || isSeed { candidates := candidates + [n]; }
        assert (order + [a])[..|order|] == order;
        order, pending := order + [a], pending - {a};
      }
      if |candidates| == 0 { candidates := nodes; }
    }

    method SampleEpochs(obs: Observation) returns (trap: bool)
      ensures trap == TrapSeen(cfg, obs)
    {
      var rep := EpochTrap.DetectEqualEpochTrap(cfg.sentinelAddrs, obs.peers, obs.ask);
      trap := rep.trap;
    }

    /** Probe, and decide whether exactly one Redis accepts writes. */
    method ObserveRedis(obs: Observation) returns (order: seq<string>, nodes: seq<NodeResult>, found: Finding)
      requires cfg.sentinelAddrs != []
      ensures Enumerates(order, Addresses(cfg, obs))
      ensures nodes == NodesOf(obs, order) && found == FindOracle(cfg, obs, order)
    {
      var addrs := CollectAddresses(obs);
      if addrs == {} { return [], [], NoRedis; }
      var candidates;
      order, nodes, candidates := ProbeAll(obs, addrs);
      found := Classify(obs.names, candidates);
    }

    method Classify(names: Names, candidates: seq<NodeResult>) returns (found: Finding)
      ensures found == Conclude(names, candidates)
    {
      var writable, count := ClassifyWritable(names, candidates);
      if count == 0 || writable.None? { return NoneWritable; }
      if count >= 2 { return ManyWritable(count); }
      found := Unique(writable.value.addr);
    }

    /** One tick. The result is what it found out before acting. */
    method Tick(obs: Observation) returns (t: TickFacts)
      requires Valid() && OneViewEach(cfg, obs)
      modifies this`lastHeal, this`hist, metrics
      ensures Valid()
      ensures t.obs == obs && Observed(cfg, t) && Actable(cfg, t)
      ensures State() == TickRun(world, cfg, t, old(State()))
    {
      StartTick();
      t := Observe(obs);
      ActOnFinding(obs, t.nodes, t.found, t.trap);
    }

    /** Tick after tick, on whatever each of them observes. */
    method Run(observations: seq<Observation>) returns (run: seq<TickFacts>)
      requires Valid() && forall obs | obs in observations :: OneViewEach(cfg, obs)
      modifies this`lastHeal, this`hist, metrics
      ensures Valid() && AllObserved(cfg, run, observations)
      ensures State() == RunOf(world, cfg, run, old(State()))
    {
      run := [];
      ghost var start := State();
      for i := 0 to |observations|
        invariant Valid() && AllObserved(cfg, run, observations[..i])
        invariant State() == RunOf(world, cfg, run, start)
      {
        var t := Tick(observations[i]);
        OneMoreTick(world, cfg, run, t, start);
        OneMoreObserved(cfg, run, t, observations, i);
        run := run + [t];
      }
      assert observations[..|observations|] == observations;
    }

    method Observe(obs: Observation) returns (t: TickFacts)
      requires OneViewEach(cfg, obs)
      ensures t.obs == obs && Observed(cfg, t) && Actable(cfg, t)
    {
      var trap := SampleEpochs(obs);
      if |cfg.sentinelAddrs| == 0 { return TickFacts(obs, [], NoSentinels, trap); }
      var order, nodes, found := ObserveRedis(obs);
      t := TickFacts(obs, nodes, found, trap);
      assert ObservedIn(cfg, t, order);
    }

    method StartTick()
      requires Valid()
      modifies this`hist, metrics
      ensures Valid() && State() == Started(old(State()))
    {
      var _ := Send(Wake);
      Count(Ticks);
      metrics.ResetTickGauges();
    }

    /** Raise an alert, or check the Sentinels against the oracle. */
    method ActOnFinding(obs: Observation, nodes: seq<NodeResult>, found: Finding, trap: bool)
      requires Valid() && OneViewEach(cfg, obs) && (cfg.sentinelAddrs == [] <==> found.NoSentinels?)
      modifies this`lastHeal, this`hist, metrics
      ensures Valid()
      ensures State() == FindingRun(world, cfg, obs, nodes, found, trap, old(State()))
    {
      match found
      case NoSentinels =>
      case NoRedis => Count(AlertNoRedis);
      case NoneWritable =>
        metrics.SetWritableMasters(0);
        Count(AlertNoWritable);
      case ManyWritable(n) =>
        metrics.SetWritableMasters(n);
        Count(AlertDualMaster);
      case Unique(masterKey) =>
        metrics.SetWritableMasters(1);
        CheckAgainst(obs, masterKey, nodes, trap);
    }

    /** Check the first Sentinel, or all of them. */
    method CheckAgainst(obs: Observation, masterKey: string, nodes: seq<NodeResult>, trap: bool)
      requires Valid() && OneViewEach(cfg, obs) && cfg.sentinelAddrs != []
      modifies this`lastHeal, this`hist, metrics
      ensures Valid()
      ensures State() == ActRun(world, cfg, obs, masterKey, nodes, trap, old(State()))
    {
      if trap { Count(AlertEqualEpochTrap); }
      var upTo := 1;
      if !cfg.localSentinel && |cfg.sentinelAddrs| > 1 { upTo := |obs.views|; }
      CheckFirst(obs, masterKey, nodes, trap, upTo);
    }

    /** Check the Sentinels one after the other. */
    method CheckFirst(obs: Observation, masterKey: string, nodes: seq<NodeResult>, trap: bool, upTo: nat)
      requires Valid() && OneViewEach(cfg, obs) && upTo <= |obs.views|
      modifies this`lastHeal, this`hist, metrics
      ensures Valid()
      ensures State() == ChecksRun(world, cfg, obs, masterKey, nodes, trap, upTo, old(State()))
    {
      for i := 0 to upTo
        invariant Valid()
        invariant State() == ChecksRun(world, cfg, obs, masterKey, nodes, trap, i, old(State()))
      {
        CheckDiverge(obs.names, cfg.sentinelAddrs[i], obs.views[i], masterKey, nodes, trap);
      }
    }
  }
}
