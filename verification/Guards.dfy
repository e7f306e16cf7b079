/** When a check heals, said without the program's own terms: what was configured, seen and answered. */
module Guards {
  import opened Text
  import Endpoint
  import opened NameBook
  import opened Oracle
  import opened HealPlan
  import opened Metrics
  import opened Process
  import opened HealTrace

  // ----- a failover under way -----

  lemma FailoverWords()
    ensures ToLower("failover_in_progress") == "failover_in_progress"
    ensures ToLower("force_failover_host") == "force_failover_host"
  {}

  /** The flags tell of a failover exactly when one of two words stands in them, in any case. */
  lemma FailoverFlagsIff(flags: string)
    ensures FailoverInProgress(flags) <==> Holds(flags, "failover_in_progress") || Holds(flags, "force_failover_host")
  {
    FailoverWords();
    HoldsIff(flags, "failover_in_progress");
    HoldsIff(flags, "force_failover_host");
  }

  // ----- the lease -----

  /** The id that a process takes the lease under: the configured one, else its host's name, else its process id. */
  predicate LeasedAs(w: World, configured: string, id: string) {
    && (configured != "" ==> id == configured)
    && (configured == "" && w.hostname != "" ==> id == w.hostname)
    && (configured == "" && w.hostname == "" ==> id == "pid-" + Itoa(w.pid))
  }

  /** The first lease command is a SETNX on the given address, under the configured id if there is one, for the given
      time or fifteen minutes; GET and EXPIRE go to the same address, EXPIRE for the same time. */
  lemma LeaseAsks(w: World, addr: string, configured: string, ttl: int, h: seq<Io>)
    ensures var l := LeaseRun(w, addr, configured, ttl, h).hist;
            && |h| < |l| <= |h| + 3 && l[..|h|] == h && l[|h|].LeaseSetNx?
            && l[|h|].addr == addr && LeasedAs(w, configured, l[|h|].holder)
            && l[|h|].ttl == (if ttl > 0 then ttl else 15 * 60 * 1_000_000_000)
            && (|l| > |h| + 1 ==> l[|h| + 1] == LeaseGet(addr))
            && (|l| > |h| + 2 ==> l[|h| + 2] == LeaseExpire(addr, l[|h|].ttl))
  {}

  /** The lease is granted exactly when SETNX took the key, or found it taken and GET returned the id that SETNX was
      sent with; GET is sent exactly when SETNX found the key taken, and EXPIRE exactly when GET returned that id. */
  lemma LeaseGrantedIff(w: World, addr: string, configured: string, ttl: int, h: seq<Io>)
    ensures var l := LeaseRun(w, addr, configured, ttl, h);
            var first := w.answer(l.hist[..|h| + 1]);
            var taken := !first.Failed? && !first.Done?;
            && (|l.hist| > |h| + 1 <==> taken)
            && (|l.hist| > |h| + 2 <==> taken && w.answer(l.hist[..|h| + 2]) == Value(l.hist[|h|].holder))
            && (l.verdict.LeaseGranted? <==> first.Done? || |l.hist| > |h| + 2)
            && (l.verdict.LeaseError? <==> first.Failed?)
  {
    var id, t := HolderId(w, configured), LeaseTtl(ttl);
    var h1 := h + [LeaseSetNx(addr, id, t)];
    var h2 := h1 + [LeaseGet(addr)];
    var l := LeaseRun(w, addr, configured, ttl, h);
    assert l.hist[..|h| + 1] == h1;
    if |l.hist| > |h| + 1 { assert l.hist[..|h| + 2] == h2; }
  }

  // ----- the whole gate -----

  predicate SeedAnswers(names: Names, seed: string, nodes: seq<NodeResult>) {
    exists n | n in nodes :: !n.err && names.same(n.addr, seed)
  }

  /** Enough listed seeds answered: as many as configured, else two where three are listed; a negative setting turns
      this off. Without seeds, nodes count. */
  predicate SeedsAnswer(cfg: Config, names: Names, nodes: seq<NodeResult>) {
    var seeds := cfg.redisAddrs;
    var need := if cfg.minReachableRedis != 0 then cfg.minReachableRedis else if |seeds| >= 3 then 2 else 0;
    need <= 0 ||
      if seeds == [] then |set i | 0 <= i < |nodes| && !nodes[i].err| >= need
      else |set i | 0 <= i < |seeds| && SeedAnswers(names, seeds[i], nodes)| >= need
  }

  /** The lease time of a process: as configured, else its cooldown, else fifteen minutes. */
  function LeaseTime(cfg: Config): int {
    if cfg.healLeaseTtl > 0 then cfg.healLeaseTtl
    else if cfg.healCooldown > 0 then cfg.healCooldown
    else 15 * 60 * 1_000_000_000
  }

  /** SETNX takes the key, or finds it taken by this process's id. */
  ghost predicate LeaseGiven(w: World, cfg: Config, masterKey: string, h: seq<Io>) {
    exists id :: LeasedAs(w, cfg.leaseHolder, id) &&
      var h1 := h + [LeaseSetNx(masterKey, id, LeaseTime(cfg))];
      || w.answer(h1).Done?
      || (!w.answer(h1).Failed? && w.answer(h1 + [LeaseGet(masterKey)]) == Value(id))
  }

  /** Exactly one Redis accepts writes: some node does, and all that do have one identity. */
  ghost predicate OneWritable(names: Names, nodes: seq<NodeResult>) {
    && (exists n | n in nodes :: !n.err && n.role.Master? && n.writable)
    && forall m, n | m in nodes && n in nodes :: IsWritableMaster(m) && IsWritableMaster(n) ==>
         IdentityKey(names, m) == IdentityKey(names, n)
  }

  /** The advertised address is a live replica, or no live master that accepts writes. */
  ghost predicate GivesWay(names: Names, advertised: string, nodes: seq<NodeResult>) {
    || (exists n | n in nodes :: !n.err && n.role.Slave? && names.same(n.addr, advertised))
    || forall n | n in nodes && names.same(n.addr, advertised) :: n.err || !n.role.Master? || !n.writable
  }

  /** Apply is on, the Sentinel named another address than the oracle, this process may apply here, no failover is
      under way where that is heeded, the cooldown is over, and enough seeds answered. */
  ghost predicate PassesGuards(w: World, cfg: Config, names: Names, s: string, view: View, masterKey: string,
                               nodes: seq<NodeResult>, p: Proc)
  {
    var h := p.hist + [MasterInfo(s)];
    && cfg.apply && !view.err && !names.same(view.host + ":" + Itoa(view.port), masterKey)
    && (cfg.localSentinel || cfg.allowGlobalApply || !cfg.requireLocalForApply)
    && (cfg.skipOnFailoverInProgress && w.answer(h).Flags? ==>
          !Holds(w.answer(h).flags, "failover_in_progress") && !Holds(w.answer(h).flags, "force_failover_host"))
    && (cfg.healCooldown > 0 && p.lastHeal.Some? ==> w.clock(h) >= p.lastHeal.value + cfg.healCooldown)
    && SeedsAnswer(cfg, names, nodes)
  }

  /** All that a heal takes: the guards, the lease where one is used, exactly one writable Redis, an advertised address
      that gives way, and an oracle that resolves. */
  ghost predicate MayHeal(w: World, cfg: Config, names: Names, s: string, view: View, masterKey: string,
                          nodes: seq<NodeResult>, p: Proc)
  {
    && PassesGuards(w, cfg, names, s, view, masterKey, nodes, p)
    && (cfg.healLease ==> LeaseGiven(w, cfg, masterKey, p.hist + [MasterInfo(s)]))
    && OneWritable(names, nodes) && GivesWay(names, view.host + ":" + Itoa(view.port), nodes)
    && names.target(masterKey).Some?
  }

  lemma NoFlagsNoFailover()
    ensures !FailoverInProgress("")
  {
    FailoverFlagsIff("");
  }

  lemma OneWritableIff(names: Names, nodes: seq<NodeResult>)
    ensures OneWritable(names, nodes) <==> |WritableKeys(names, nodes)| == 1
  {
    var keys := WritableKeys(names, nodes);
    if |keys| == 1 {
      var k :| k in keys;
      forall m, n | m in nodes && n in nodes && IsWritableMaster(m) && IsWritableMaster(n)
        ensures IdentityKey(names, m) == IdentityKey(names, n)
      {
        SingletonMember(keys, IdentityKey(names, m), IdentityKey(names, n));
      }
    }
    if OneWritable(names, nodes) {
      var n :| n in nodes && !n.err && n.role.Master? && n.writable;
      assert IsWritableMaster(n);
      assert keys == {IdentityKey(names, n)};
    }
  }

  lemma SeedsAnswerIff(cfg: Config, names: Names, nodes: seq<NodeResult>)
    ensures SeedsAnswer(cfg, names, nodes) <==> EnoughReachable(cfg, names, nodes)
  {
    var seeds := cfg.redisAddrs;
    assert (set i | 0 <= i < |seeds| && SeedAnswers(names, seeds[i], nodes))
        == AnsweredSeeds(names, seeds, nodes, |seeds|);
  }

  lemma LeaseGivenIff(w: World, cfg: Config, masterKey: string, h: seq<Io>)
    ensures LeaseGiven(w, cfg, masterKey, h) <==>
            LeaseRun(w, masterKey, cfg.leaseHolder, ApplyTtl(cfg), h).verdict.LeaseGranted?
  {
    var id := HolderId(w, cfg.leaseHolder);
    assert LeasedAs(w, cfg.leaseHolder, id) && forall x :: LeasedAs(w, cfg.leaseHolder, x) ==> x == id;
    assert LeaseTime(cfg) == LeaseTtl(ApplyTtl(cfg));
  }

  lemma GivesWayIff(names: Names, advertised: string, masterKey: string, nodes: seq<NodeResult>)
    requires !names.same(advertised, masterKey)
    ensures GivesWay(names, advertised, nodes) <==> AdGivesWay(names, advertised, masterKey, nodes)
  {}

  lemma PreflightIff(w: World, cfg: Config, names: Names, nodes: seq<NodeResult>, lastHeal: Option<nat>, h: seq<Io>)
    ensures (cfg.skipOnFailoverInProgress && FailoverInProgress(FlagsOf(w.answer(h)))) <==>
            (cfg.skipOnFailoverInProgress && w.answer(h).Flags? &&
              (Holds(w.answer(h).flags, "failover_in_progress") || Holds(w.answer(h).flags, "force_failover_host")))
  {
    NoFlagsNoFailover();
    if w.answer(h).Flags? { FailoverFlagsIff(w.answer(h).flags); }
  }

  /** A check attempts a heal exactly when all that it takes is there. */
  lemma CheckAttemptsIff(w: World, cfg: Config, names: Names, s: string, view: View, masterKey: string,
                         nodes: seq<NodeResult>, trap: bool, p: Proc)
    requires names.Lawful() && OracleAmong(masterKey, nodes)
    ensures var q := CheckRun(w, cfg, names, s, view, masterKey, nodes, trap, p);
            q.counts[HealAttempt]
              == p.counts[HealAttempt] + (if MayHeal(w, cfg, names, s, view, masterKey, nodes, p) then 1 else 0)
  {
    HealGate(w, cfg, names, s, view, masterKey, nodes, trap, p);
    MayHealIff(w, cfg, names, s, view, masterKey, nodes, p);
  }

  lemma MayHealIff(w: World, cfg: Config, names: Names, s: string, view: View, masterKey: string,
                   nodes: seq<NodeResult>, p: Proc)
    ensures MayHeal(w, cfg, names, s, view, masterKey, nodes, p) <==>
            AttemptDue(w, cfg, names, s, view, masterKey, nodes, p)
  {
    var advertised := view.host + ":" + Itoa(view.port);
    assert advertised == Endpoint.Printed(view.host, view.port);
    var h := p.hist + [MasterInfo(s)];
    PreflightIff(w, cfg, names, nodes, p.lastHeal, h);
    OneWritableIff(names, nodes);
    SeedsAnswerIff(cfg, names, nodes);
    LeaseGivenIff(w, cfg, masterKey, h);
    if !names.same(advertised, masterKey) { GivesWayIff(names, advertised, masterKey, nodes); }
  }

  /** In particular, flags that tell of a failover stop every heal of a process that heeds them, wherever and in
      whatever case the word stands. */
  lemma FailoverStopsHeals(w: World, cfg: Config, names: Names, s: string, view: View, masterKey: string,
                           nodes: seq<NodeResult>, trap: bool, p: Proc, before: string, word: string, after: string)
    requires names.Lawful() && OracleAmong(masterKey, nodes) && cfg.skipOnFailoverInProgress
    requires EqualFold(word, "failover_in_progress") || EqualFold(word, "force_failover_host")
    requires w.answer(p.hist + [MasterInfo(s)]) == Flags(before + word + after)
    ensures CheckRun(w, cfg, names, s, view, masterKey, nodes, trap, p).counts[HealAttempt] == p.counts[HealAttempt]
  {
    CheckAttemptsIff(w, cfg, names, s, view, masterKey, nodes, trap, p);
  }

  // ----- leases taken, refusals -----

  lemma HealTakesNoLease(w: World, cfg: Config, names: Names, s: string, masterKey: string, plan: Plan, p: Proc)
    ensures var q := HealRun(w, cfg, names, s, masterKey, plan, p);
            q.counts[HealLeaseAcquired] == p.counts[HealLeaseAcquired]
  {
    if !plan.action.Refuse? && names.target(masterKey).Some? {
      Accounting.AttemptOutcome(w, cfg, names, s, masterKey, names.target(masterKey).value, plan, p);
    }
  }

  lemma LeasedTakes(w: World, cfg: Config, names: Names, s: string, masterKey: string, plan: Plan, p: Proc)
    ensures var q := LeasedHeal(w, cfg, names, s, masterKey, plan, p);
            q.counts[HealLeaseAcquired] == p.counts[HealLeaseAcquired]
              + (if cfg.healLease && LeaseGiven(w, cfg, masterKey, p.hist) then 1 else 0)
  {
    LeaseGivenIff(w, cfg, masterKey, p.hist);
    var l := LeaseRun(w, masterKey, cfg.leaseHolder, ApplyTtl(cfg), p.hist);
    HealTakesNoLease(w, cfg, names, s, masterKey, plan,
                     if cfg.healLease then p.(hist := l.hist).Inc(HealLeaseAcquired) else p);
  }

  /** A check counts a lease exactly when one is used, the guards let the check pass, and it is given. */
  lemma CheckTakesLeaseIff(w: World, cfg: Config, names: Names, s: string, view: View, masterKey: string,
                           nodes: seq<NodeResult>, trap: bool, p: Proc)
    ensures var q := CheckRun(w, cfg, names, s, view, masterKey, nodes, trap, p);
            var taken := cfg.healLease && PassesGuards(w, cfg, names, s, view, masterKey, nodes, p)
                         && LeaseGiven(w, cfg, masterKey, p.hist + [MasterInfo(s)]);
            q.counts[HealLeaseAcquired] == p.counts[HealLeaseAcquired] + (if taken then 1 else 0)
  {
    var advertised := Endpoint.Printed(view.host, view.port);
    var h := p.hist + [MasterInfo(s)];
    PreflightIff(w, cfg, names, nodes, p.lastHeal, h);
    SeedsAnswerIff(cfg, names, nodes);
    if !view.err && !names.same(advertised, masterKey) && cfg.apply {
      var p1 := p.Inc(Diverge).(diverged := 1).Did(MasterInfo(s));
      LeasedTakes(w, cfg, names, s, masterKey,
                  PlanFor(names, advertised, masterKey, FlagsOf(w.answer(h)), nodes, trap, cfg.equalEpochEscalate), p1);
    }
  }

  // ----- the configuration -----

  /** What New changes of a configuration: a quorum that is not positive becomes two, and without leave to apply
      globally an apply needs the local Sentinel. */
  lemma NormalizedMeans(given: Config)
    ensures var c := Normalized(given);
            && (given.quorum > 0 ==> c.quorum == given.quorum) && (given.quorum <= 0 ==> c.quorum == 2)
            && (!given.allowGlobalApply ==> c.requireLocalForApply)
            && (given.allowGlobalApply ==> c.requireLocalForApply == given.requireLocalForApply)
            && c == given.(quorum := c.quorum, requireLocalForApply := c.requireLocalForApply)
  {}
}
