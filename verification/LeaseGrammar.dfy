/** In which order a process that uses the lease sends its lease commands and begins its heals, over its whole run. */
module LeaseGrammar {
  import opened Text
  import Endpoint
  import opened NameBook
  import opened Oracle
  import opened HealPlan
  import opened Metrics
  import opened Process
  import opened TickOracle
  import opened HealTrace

  /** The last thing done was a SETNX that took the key, or an EXPIRE. */
  predicate JustGranted(w: World, h: seq<Io>) {
    h != [] && var io := h[|h| - 1]; (io.LeaseSetNx? && w.answer(h).Done?) || io.LeaseExpire?
  }

  /** The last thing done was a SETNX that found the key taken. */
  predicate JustRefused(w: World, h: seq<Io>) {
    h != [] && h[|h| - 1].LeaseSetNx? && !w.answer(h).Failed? && !w.answer(h).Done?
  }

  /** The last thing done was a GET that returned this process's holder id. */
  predicate JustMatched(w: World, holder: string, h: seq<Io>) {
    h != [] && h[|h| - 1].LeaseGet? && TextOf(w.answer(h)) == holder
  }

  /** When the last heal began: a heal begins with REMOVE, and is dated just before. */
  function LastDate(w: World, h: seq<Io>): Option<nat> {
    if h == [] then None
    else if h[|h| - 1].Remove? then Some(w.clock(h[..|h| - 1]))
    else LastDate(w, h[..|h| - 1])
  }

  /** How many heals have begun. */
  function Removes(h: seq<Io>): nat {
    if h == [] then 0 else Removes(h[..|h| - 1]) + if h[|h| - 1].Remove? then 1 else 0
  }

  /** What a process may do next: SETNX once it has the flags and its cooldown is over, GET after a SETNX that found
      the key taken, EXPIRE after a GET that returned its own id, REMOVE after a grant, and never FAILOVER. */
  predicate MaySend(w: World, cfg: Config, h: seq<Io>, io: Io) {
    match io
    case LeaseSetNx(_, holder, ttl) =>
      && h != [] && h[|h| - 1].MasterInfo?
      && holder == HolderId(w, cfg.leaseHolder) && ttl == LeaseTtl(ApplyTtl(cfg))
      && CooledDown(cfg.healCooldown, LastDate(w, h), w.clock(h))
    case LeaseGet(_) => JustRefused(w, h)
    case LeaseExpire(_, ttl) => JustMatched(w, HolderId(w, cfg.leaseHolder), h) && ttl == LeaseTtl(ApplyTtl(cfg))
    case Remove(_) => JustGranted(w, h)
    case PromoteReplica(_) => false
    case _ => true
  }

  /** h' continues h by the rules. */
  ghost predicate Follows(w: World, cfg: Config, h: seq<Io>, h': seq<Io>) {
    h <= h' && forall i | |h| <= i < |h'| :: MaySend(w, cfg, h'[..i], h'[i])
  }

  /** From p to q the process went by the rules, and its count and date of heals are those its history tells. */
  ghost predicate Keeps(w: World, cfg: Config, p: Proc, q: Proc) {
    && Follows(w, cfg, p.hist, q.hist)
    && q.counts[HealAttempt] - p.counts[HealAttempt] == Removes(q.hist) - Removes(p.hist)
    && (LastDate(w, p.hist) == p.lastHeal ==> LastDate(w, q.hist) == q.lastHeal)
  }

  lemma FollowsStep(w: World, cfg: Config, h: seq<Io>, h': seq<Io>, h'': seq<Io>)
    requires Follows(w, cfg, h, h') && Follows(w, cfg, h', h'')
    ensures Follows(w, cfg, h, h'')
  {
    forall i | |h| <= i < |h''| ensures MaySend(w, cfg, h''[..i], h''[i]) {
      if i < |h'| {
        assert MaySend(w, cfg, h'[..i], h'[i]);
        assert h''[..i] == h'[..i];
      }
    }
  }

  lemma FollowsOne(w: World, cfg: Config, h: seq<Io>, io: Io)
    requires MaySend(w, cfg, h, io)
    ensures Follows(w, cfg, h, h + [io])
  {
    assert (h + [io])[..|h|] == h;
  }

  lemma KeepsStep(w: World, cfg: Config, p: Proc, q: Proc, r: Proc)
    requires Keeps(w, cfg, p, q) && Keeps(w, cfg, q, r)
    ensures Keeps(w, cfg, p, r)
  {
    FollowsStep(w, cfg, p.hist, q.hist, r.hist);
  }

  // ----- what the rules say nothing about -----

  predicate Plain(io: Io) {
    !io.LeaseSetNx? && !io.LeaseGet? && !io.LeaseExpire? && !io.Remove? && !io.PromoteReplica?
  }

  ghost predicate Plainly(h: seq<Io>, h': seq<Io>) { h <= h' && forall i | |h| <= i < |h'| :: Plain(h'[i]) }

  lemma PlainlyStep(h: seq<Io>, h': seq<Io>, h'': seq<Io>)
    requires Plainly(h, h') && Plainly(h', h'')
    ensures Plainly(h, h'')
  {}

  lemma {:induction false} PlainlyKeeps(w: World, cfg: Config, h: seq<Io>, h': seq<Io>)
    requires Plainly(h, h')
    ensures Follows(w, cfg, h, h') && LastDate(w, h') == LastDate(w, h) && Removes(h') == Removes(h)
    decreases |h'|
  {
    if |h'| > |h| {
      var less := h'[..|h'| - 1];
      PlainlyKeeps(w, cfg, h, less);
      FollowsOne(w, cfg, less, h'[|h'| - 1]);
      assert less + [h'[|h'| - 1]] == h';
      FollowsStep(w, cfg, h, less, h');
    } else {
      assert h == h';
    }
  }

  lemma VerifyPlainly(w: World, names: Names, s: string, masterKey: string, h: seq<Io>)
    ensures Plainly(h, Verify(w, names, s, masterKey, h).hist)
  {}

  lemma ResetPlainly(w: World, names: Names, s: string, masterKey: string, h: seq<Io>)
    ensures Plainly(h, Verify(w, names, s, masterKey, h + [ResetMaster(s)]).hist)
  {
    VerifyPlainly(w, names, s, masterKey, h + [ResetMaster(s)]);
  }

  lemma AuthPlainly(cfg: Config, s: string, h: seq<Io>)
    ensures Plainly(h, h + AuthCommands(s, ConfiguredAuth(cfg)))
  {}

  // ----- from a heal up to a run -----

  lemma MonitorPlainly(w: World, cfg: Config, names: Names, s: string, masterKey: string, target: Endpoint.Target,
                       reason: Reason, p: Proc)
    ensures Plainly(p.hist + [Remove(s)], MonitorRun(w, cfg, names, s, masterKey, target, reason, p).hist)
  {
    var h0, h1 := p.hist + [Remove(s)], p.hist + MonitorHead(cfg, s, target);
    assert Plainly(h0, h1);
    var h2 := h1 + AuthCommands(s, ConfiguredAuth(cfg));
    AuthPlainly(cfg, s, h1);
    PlainlyStep(h0, h1, h2);
    VerifyPlainly(w, names, s, masterKey, h2);
    var v := Verify(w, names, s, masterKey, h2);
    PlainlyStep(h0, h2, v.hist);
    ResetPlainly(w, names, s, masterKey, v.hist);
    PlainlyStep(h0, v.hist, Verify(w, names, s, masterKey, v.hist + [ResetMaster(s)]).hist);
  }

  lemma RemoveKeeps(w: World, cfg: Config, h: seq<Io>, s: string)
    requires JustGranted(w, h)
    ensures var h1 := h + [Remove(s)];
            Follows(w, cfg, h, h1) && LastDate(w, h1) == Some(w.clock(h)) && Removes(h1) == Removes(h) + 1
  {
    FollowsOne(w, cfg, h, Remove(s));
    assert (h + [Remove(s)])[..|h|] == h;
  }

  lemma HealKeeps(w: World, cfg: Config, names: Names, s: string, masterKey: string, plan: Plan, p: Proc)
    requires !plan.action.Failover? && JustGranted(w, p.hist)
    ensures Keeps(w, cfg, p, HealRun(w, cfg, names, s, masterKey, plan, p))
  {
    if plan.action.Monitor? && names.target(masterKey).Some? {
      var target := names.target(masterKey).value;
      var p1 := p.(lastHeal := Some(w.clock(p.hist))).Inc(HealAttempt);
      var q := MonitorRun(w, cfg, names, s, masterKey, target, plan.reason, p1);
      var h1 := p.hist + [Remove(s)];
      RemoveKeeps(w, cfg, p.hist, s);
      MonitorPlainly(w, cfg, names, s, masterKey, target, plan.reason, p1);
      PlainlyKeeps(w, cfg, h1, q.hist);
      FollowsStep(w, cfg, p.hist, h1, q.hist);
      Accounting.MonitorOutcome(w, cfg, names, s, masterKey, target, plan.reason, p1);
    }
  }

  /** The process may ask for the lease. */
  predicate MayAsk(w: World, cfg: Config, h: seq<Io>) {
    h != [] && h[|h| - 1].MasterInfo? && CooledDown(cfg.healCooldown, LastDate(w, h), w.clock(h))
  }

  lemma OneLeaseCommand(w: World, cfg: Config, h: seq<Io>, io: Io)
    requires MaySend(w, cfg, h, io) && !io.Remove?
    ensures var h1 := h + [io];
            Follows(w, cfg, h, h1) && LastDate(w, h1) == LastDate(w, h) && Removes(h1) == Removes(h)
  {
    FollowsOne(w, cfg, h, io);
    assert (h + [io])[..|h|] == h;
  }

  lemma LeaseKeeps(w: World, cfg: Config, addr: string, h: seq<Io>)
    requires MayAsk(w, cfg, h)
    ensures var l := LeaseRun(w, addr, cfg.leaseHolder, ApplyTtl(cfg), h);
            && Follows(w, cfg, h, l.hist) && LastDate(w, l.hist) == LastDate(w, h) && Removes(l.hist) == Removes(h)
            && (l.verdict.LeaseGranted? ==> JustGranted(w, l.hist))
  {
    var holder, ttl := HolderId(w, cfg.leaseHolder), LeaseTtl(ApplyTtl(cfg));
    var h1 := h + [LeaseSetNx(addr, holder, ttl)];
    OneLeaseCommand(w, cfg, h, LeaseSetNx(addr, holder, ttl));
    if !w.answer(h1).Failed? && !w.answer(h1).Done? {
      var h2 := h1 + [LeaseGet(addr)];
      OneLeaseCommand(w, cfg, h1, LeaseGet(addr));
      FollowsStep(w, cfg, h, h1, h2);
      if TextOf(w.answer(h2)) == holder {
        OneLeaseCommand(w, cfg, h2, LeaseExpire(addr, ttl));
        FollowsStep(w, cfg, h, h2, h2 + [LeaseExpire(addr, ttl)]);
      }
    }
  }

  lemma LeasedKeeps(w: World, cfg: Config, names: Names, s: string, masterKey: string, plan: Plan, p: Proc)
    requires cfg.healLease && !plan.action.Failover? && MayAsk(w, cfg, p.hist)
    ensures Keeps(w, cfg, p, LeasedHeal(w, cfg, names, s, masterKey, plan, p))
  {
    var l := LeaseRun(w, masterKey, cfg.leaseHolder, ApplyTtl(cfg), p.hist);
    LeaseKeeps(w, cfg, masterKey, p.hist);
    if l.verdict.LeaseGranted? {
      var p1 := p.(hist := l.hist).Inc(HealLeaseAcquired);
      HealKeeps(w, cfg, names, s, masterKey, plan, p1);
      KeepsStep(w, cfg, p, p1, HealRun(w, cfg, names, s, masterKey, plan, p1));
    }
  }

  lemma ApplyKeeps(w: World, cfg: Config, names: Names, s: string, advertised: string, masterKey: string,
                   nodes: seq<NodeResult>, trap: bool, p: Proc)
    requires cfg.healLease && names.Lawful() && OracleAmong(masterKey, nodes) && !names.same(advertised, masterKey)
    requires LastDate(w, p.hist) == p.lastHeal
    ensures Keeps(w, cfg, p, ApplyRun(w, cfg, names, s, advertised, masterKey, nodes, trap, p))
  {
    var p1 := p.Did(MasterInfo(s));
    var flags := FlagsOf(w.answer(p1.hist));
    PlainlyKeeps(w, cfg, p.hist, p1.hist);
    if PreflightPasses(cfg, names, p.lastHeal, w.clock(p1.hist), flags, nodes) {
      var plan := PlanFor(names, advertised, masterKey, flags, nodes, trap, cfg.equalEpochEscalate);
      DivergedPlan(names, advertised, masterKey, flags, nodes, trap, cfg.equalEpochEscalate);
      LeasedKeeps(w, cfg, names, s, masterKey, plan, p1);
      KeepsStep(w, cfg, p, p1, LeasedHeal(w, cfg, names, s, masterKey, plan, p1));
    }
  }

  lemma CheckKeeps(w: World, cfg: Config, names: Names, s: string, view: View, masterKey: string,
                   nodes: seq<NodeResult>, trap: bool, p: Proc)
    requires cfg.healLease && names.Lawful() && OracleAmong(masterKey, nodes) && LastDate(w, p.hist) == p.lastHeal
    ensures Keeps(w, cfg, p, CheckRun(w, cfg, names, s, view, masterKey, nodes, trap, p))
  {
    var advertised := Endpoint.Printed(view.host, view.port);
    if !view.err && !names.same(advertised, masterKey) && cfg.apply {
      ApplyKeeps(w, cfg, names, s, advertised, masterKey, nodes, trap, p.Inc(Diverge).(diverged := 1));
    }
  }

  lemma {:induction false} ChecksKeep(w: World, cfg: Config, obs: Observation, masterKey: string,
                                      nodes: seq<NodeResult>, trap: bool, k: nat, p: Proc)
    requires OneViewEach(cfg, obs) && k <= |obs.views| && obs.names.Lawful() && OracleAmong(masterKey, nodes)
    requires cfg.healLease && LastDate(w, p.hist) == p.lastHeal
    ensures Keeps(w, cfg, p, ChecksRun(w, cfg, obs, masterKey, nodes, trap, k, p))
  {
    if k > 0 {
      ChecksKeep(w, cfg, obs, masterKey, nodes, trap, k - 1, p);
      var q := ChecksRun(w, cfg, obs, masterKey, nodes, trap, k - 1, p);
      CheckKeeps(w, cfg, obs.names, cfg.sentinelAddrs[k - 1], obs.views[k - 1], masterKey, nodes, trap, q);
      KeepsStep(w, cfg, p, q, ChecksRun(w, cfg, obs, masterKey, nodes, trap, k, p));
    }
  }

  lemma FindingKeeps(w: World, cfg: Config, t: TickFacts, p: Proc)
    requires Sound(cfg, t) && cfg.healLease && LastDate(w, p.hist) == p.lastHeal
    ensures Keeps(w, cfg, p, FindingRun(w, cfg, t.obs, t.nodes, t.found, t.trap, p))
  {
    if t.found.Unique? {
      var p1 := p.(writable := 1);
      var p2 := if t.trap then p1.Inc(AlertEqualEpochTrap) else p1;
      ChecksKeep(w, cfg, t.obs, t.found.addr, t.nodes, t.trap, CheckCount(cfg), p2);
    }
  }

  lemma TickKeeps(w: World, cfg: Config, t: TickFacts, p: Proc)
    requires Sound(cfg, t) && cfg.healLease && LastDate(w, p.hist) == p.lastHeal
    ensures Keeps(w, cfg, p, TickRun(w, cfg, t, p))
  {
    PlainlyKeeps(w, cfg, p.hist, Started(p).hist);
    FindingKeeps(w, cfg, t, Started(p));
    KeepsStep(w, cfg, p, Started(p), TickRun(w, cfg, t, p));
  }

  /** Over any run of a process that uses the lease, every command goes by the rules, and the heals it has counted and
      the date it has noted are those its history tells. */
  lemma {:induction false} RunKeeps(w: World, cfg: Config, run: seq<TickFacts>, p: Proc)
    requires AllSound(cfg, run) && AllActable(cfg, run) && cfg.healLease && LastDate(w, p.hist) == p.lastHeal
    ensures Keeps(w, cfg, p, RunOf(w, cfg, run, p))
  {
    if run != [] {
      var before, t := run[..|run| - 1], run[|run| - 1];
      var q := RunOf(w, cfg, before, p);
      assert Sound(cfg, t);
      RunKeeps(w, cfg, before, p);
      TickKeeps(w, cfg, t, q);
      KeepsStep(w, cfg, p, q, RunOf(w, cfg, run, p));
    }
  }
}
