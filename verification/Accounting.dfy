/** The counters as an accounting system: every diverged check ends in exactly one outcome. */
module Accounting {
  import opened Text
  import Endpoint
  import opened NameBook
  import opened Oracle
  import opened HealPlan
  import opened Metrics
  import opened Process

  /** Diverged checks less their outcomes. */
  function OpenDiverges(c: Counts): int {
    c[Diverge] - c[WouldHeal] - c[ApplyRefused] - c[HealOk] - c[HealFail]
  }

  /** Finished heals less started ones: the heals given up because the oracle had no address. */
  function Aborts(c: Counts): int { c[HealOk] + c[HealFail] - c[HealAttempt] }

  /** Ticks that ended before any check. */
  function Alerted(c: Counts): int { c[AlertNoRedis] + c[AlertNoWritable] + c[AlertDualMaster] }

  lemma MonitorOutcome(w: World, cfg: Config, names: Names, s: string, masterKey: string, target: Endpoint.Target,
                       reason: Reason, p: Proc)
    ensures var q := MonitorRun(w, cfg, names, s, masterKey, target, reason, p);
            && (q.counts == Bump(p.counts, HealOk) || q.counts == Bump(p.counts, HealFail)) && q.lastHeal == p.lastHeal
            && q.diverged == p.diverged && q.wouldHeal == p.wouldHeal && q.writable == p.writable
  {}

  /** A FAILOVER, were one planned, would end in one of the two outcomes as well. */
  lemma FailoverOutcome(w: World, cfg: Config, names: Names, s: string, masterKey: string, target: Endpoint.Target,
                        plan: Plan, p: Proc)
    requires plan.action.Failover?
    ensures var q, c := AttemptRun(w, cfg, names, s, masterKey, target, plan, p), Bump(p.counts, HealAttempt);
            && (q.counts == Bump(c, HealOk) || q.counts == Bump(c, HealFail)) && q.lastHeal == Some(w.clock(p.hist))
            && q.diverged == p.diverged && q.wouldHeal == p.wouldHeal && q.writable == p.writable
  {
    var p2 := p.(lastHeal := Some(w.clock(p.hist))).Inc(HealAttempt).Did(PromoteReplica(s));
    if w.answer(p2.hist).Failed? {
      MonitorOutcome(w, cfg, names, s, masterKey, target, plan.reason, p2);
    } else {
      var v := Verify(w, names, s, masterKey, p2.hist);
      MonitorOutcome(w, cfg, names, s, masterKey, target, plan.reason, p2.(hist := v.hist));
    }
  }

  /** An attempt ends in one of the two outcomes and is dated. */
  lemma AttemptOutcome(w: World, cfg: Config, names: Names, s: string, masterKey: string, target: Endpoint.Target,
                       plan: Plan, p: Proc)
    ensures var q, c := AttemptRun(w, cfg, names, s, masterKey, target, plan, p), Bump(p.counts, HealAttempt);
            && (q.counts == Bump(c, HealOk) || q.counts == Bump(c, HealFail)) && q.lastHeal == Some(w.clock(p.hist))
            && q.diverged == p.diverged && q.wouldHeal == p.wouldHeal && q.writable == p.writable
  {
    if plan.action.Failover? {
      FailoverOutcome(w, cfg, names, s, masterKey, target, plan, p);
    } else {
      var p1 := p.(lastHeal := Some(w.clock(p.hist))).Inc(HealAttempt);
      MonitorOutcome(w, cfg, names, s, masterKey, target, plan.reason, p1);
    }
  }

  lemma HealOutcome(w: World, cfg: Config, names: Names, s: string, masterKey: string, plan: Plan, p: Proc)
    ensures var q := HealRun(w, cfg, names, s, masterKey, plan, p);
            var aborted := !plan.action.Refuse? && names.target(masterKey).None?;
            && OpenDiverges(q.counts) == OpenDiverges(p.counts) - 1
            && Aborts(q.counts) == Aborts(p.counts) + (if aborted then 1 else 0)
            && Alerted(q.counts) == Alerted(p.counts)
            && q.counts[Noop] == p.counts[Noop] && q.counts[Diverge] == p.counts[Diverge]
            && q.counts[Ticks] == p.counts[Ticks] && q.counts[WouldHeal] == p.counts[WouldHeal]
            && q.diverged == p.diverged && q.wouldHeal == p.wouldHeal && q.writable == p.writable
            && q.counts[AlertEqualEpochEscalate]
                 == p.counts[AlertEqualEpochEscalate] + (if plan == Plan(Refuse, EqualEpochEscalate) then 1 else 0)
            && q.counts[ApplyRefused] == p.counts[ApplyRefused] + (if plan.action.Refuse? then 1 else 0)
  {
    if !plan.action.Refuse? && names.target(masterKey).Some? {
      AttemptOutcome(w, cfg, names, s, masterKey, names.target(masterKey).value, plan, p);
    }
  }

  /** The heal is planned and allowed, and given up because the oracle has no address. */
  predicate LeasedAborts(w: World, cfg: Config, names: Names, masterKey: string, plan: Plan, p: Proc) {
    && !plan.action.Refuse? && names.target(masterKey).None?
    && (cfg.healLease ==> LeaseRun(w, masterKey, cfg.leaseHolder, ApplyTtl(cfg), p.hist).verdict.LeaseGranted?)
  }

  predicate ApplyAborts(w: World, cfg: Config, names: Names, s: string, advertised: string, masterKey: string,
                        nodes: seq<NodeResult>, trap: bool, p: Proc)
  {
    var p1 := p.Did(MasterInfo(s));
    var flags := FlagsOf(w.answer(p1.hist));
    && PreflightPasses(cfg, names, p.lastHeal, w.clock(p1.hist), flags, nodes)
    && LeasedAborts(w, cfg, names, masterKey,
                    PlanFor(names, advertised, masterKey, flags, nodes, trap, cfg.equalEpochEscalate), p1)
  }

  predicate CheckAborts(w: World, cfg: Config, names: Names, s: string, view: View, masterKey: string,
                        nodes: seq<NodeResult>, trap: bool, p: Proc)
  {
    var advertised := Endpoint.Printed(view.host, view.port);
    && !view.err && !names.same(advertised, masterKey) && cfg.apply
    && ApplyAborts(w, cfg, names, s, advertised, masterKey, nodes, trap, p)
  }

  /** Nothing is left open between c and d, aborts heals were given up, checked Sentinels answered, and no tick began
      or ended in an alert. */
  predicate Balanced(c: Counts, d: Counts, aborts: nat, checked: nat) {
    && OpenDiverges(d) == OpenDiverges(c)
    && Aborts(d) == Aborts(c) + aborts
    && d[Noop] + d[Diverge] == c[Noop] + c[Diverge] + checked
    && Alerted(d) == Alerted(c) && d[Ticks] == c[Ticks]
  }

  /** One check: the books stay balanced, heals finished without an attempt are those given up, and exactly
      one of noop and diverge moves unless the Sentinel did not answer. */
  lemma CheckBalances(w: World, cfg: Config, names: Names, s: string, view: View, masterKey: string,
                      nodes: seq<NodeResult>, trap: bool, p: Proc)
    ensures var q := CheckRun(w, cfg, names, s, view, masterKey, nodes, trap, p);
            var aborted := CheckAborts(w, cfg, names, s, view, masterKey, nodes, trap, p);
            Balanced(p.counts, q.counts, if aborted then 1 else 0, if view.err then 0 else 1)
  {
    if !view.err && !names.same(Endpoint.Printed(view.host, view.port), masterKey) && cfg.apply {
      var p1 := p.Inc(Diverge).(diverged := 1);
      ApplyBalances(w, cfg, names, s, Endpoint.Printed(view.host, view.port), masterKey, nodes, trap, p1);
    }
  }

  lemma LeasedBalances(w: World, cfg: Config, names: Names, s: string, masterKey: string, plan: Plan, p: Proc)
    ensures var q := LeasedHeal(w, cfg, names, s, masterKey, plan, p);
            && OpenDiverges(q.counts) == OpenDiverges(p.counts) - 1
            && Aborts(q.counts) == Aborts(p.counts) + (if LeasedAborts(w, cfg, names, masterKey, plan, p) then 1 else 0)
            && Alerted(q.counts) == Alerted(p.counts) && q.counts[Ticks] == p.counts[Ticks]
            && q.counts[Noop] == p.counts[Noop] && q.counts[Diverge] == p.counts[Diverge]
  {
    if !cfg.healLease {
      HealOutcome(w, cfg, names, s, masterKey, plan, p);
    } else {
      var l := LeaseRun(w, masterKey, cfg.leaseHolder, ApplyTtl(cfg), p.hist);
      HealOutcome(w, cfg, names, s, masterKey, plan, p.(hist := l.hist).Inc(HealLeaseAcquired));
    }
  }

  lemma ApplyBalances(w: World, cfg: Config, names: Names, s: string, advertised: string, masterKey: string,
                      nodes: seq<NodeResult>, trap: bool, p: Proc)
    ensures var q := ApplyRun(w, cfg, names, s, advertised, masterKey, nodes, trap, p);
            && OpenDiverges(q.counts) == OpenDiverges(p.counts) - 1
            && Aborts(q.counts) == Aborts(p.counts)
                 + (if ApplyAborts(w, cfg, names, s, advertised, masterKey, nodes, trap, p) then 1 else 0)
            && Alerted(q.counts) == Alerted(p.counts) && q.counts[Ticks] == p.counts[Ticks]
            && q.counts[Noop] == p.counts[Noop] && q.counts[Diverge] == p.counts[Diverge]
  {
    var p1 := p.Did(MasterInfo(s));
    var flags := FlagsOf(w.answer(p1.hist));
    var plan := PlanFor(names, advertised, masterKey, flags, nodes, trap, cfg.equalEpochEscalate);
    LeasedBalances(w, cfg, names, s, masterKey, plan, p1);
  }

  function Answered(views: seq<View>): nat {
    if views == [] then 0 else Answered(views[..|views| - 1]) + if views[|views| - 1].err then 0 else 1
  }

  /** How many of the first k checks gave up their heal. */
  function ChecksAbort(w: World, cfg: Config, obs: Observation, masterKey: string, nodes: seq<NodeResult>, trap: bool,
                       k: nat, p: Proc): nat
    requires OneViewEach(cfg, obs) && k <= |obs.views|
  {
    if k == 0 then 0
    else
      ChecksAbort(w, cfg, obs, masterKey, nodes, trap, k - 1, p) +
      if CheckAborts(w, cfg, obs.names, cfg.sentinelAddrs[k - 1], obs.views[k - 1], masterKey, nodes, trap,
                     ChecksRun(w, cfg, obs, masterKey, nodes, trap, k - 1, p)) then 1 else 0
  }

  lemma {:induction false} NoneAborts(w: World, cfg: Config, obs: Observation, masterKey: string,
                                      nodes: seq<NodeResult>, trap: bool, k: nat, p: Proc)
    requires OneViewEach(cfg, obs) && k <= |obs.views| && obs.names.target(masterKey).Some?
    ensures ChecksAbort(w, cfg, obs, masterKey, nodes, trap, k, p) == 0
  {
    if k > 0 { NoneAborts(w, cfg, obs, masterKey, nodes, trap, k - 1, p); }
  }

  lemma AnsweredStep(views: seq<View>, k: nat)
    requires 0 < k <= |views|
    ensures Answered(views[..k]) == Answered(views[..k - 1]) + if views[k - 1].err then 0 else 1
  {
    assert views[..k][..k - 1] == views[..k - 1];
  }

  lemma {:induction false} ChecksBalance(w: World, cfg: Config, obs: Observation, masterKey: string,
                                         nodes: seq<NodeResult>, trap: bool, k: nat, p: Proc)
    requires OneViewEach(cfg, obs) && k <= |obs.views|
    ensures Balanced(p.counts, ChecksRun(w, cfg, obs, masterKey, nodes, trap, k, p).counts,
                     ChecksAbort(w, cfg, obs, masterKey, nodes, trap, k, p), Answered(obs.views[..k]))
  {
    if k > 0 {
      ChecksBalance(w, cfg, obs, masterKey, nodes, trap, k - 1, p);
      CheckBalances(w, cfg, obs.names, cfg.sentinelAddrs[k - 1], obs.views[k - 1], masterKey, nodes, trap,
                    ChecksRun(w, cfg, obs, masterKey, nodes, trap, k - 1, p));
      AnsweredStep(obs.views, k);
    }
  }

  /** The tick reached its check and the Sentinel had not answered. */
  predicate SkipsCheck(cfg: Config, t: TickFacts)
    requires Actable(cfg, t)
  {
    t.found.Unique? && t.obs.views[0].err
  }

  function Skips(cfg: Config, run: seq<TickFacts>): nat
    requires AllActable(cfg, run)
  {
    if run == [] then 0 else Skips(cfg, run[..|run| - 1]) + if SkipsCheck(cfg, run[|run| - 1]) then 1 else 0
  }

  function FindingAborts(w: World, cfg: Config, t: TickFacts, p: Proc): nat
    requires Actable(cfg, t)
  {
    if !t.found.Unique? then 0
    else
      var p1 := p.(writable := 1);
      ChecksAbort(w, cfg, t.obs, t.found.addr, t.nodes, t.trap, CheckCount(cfg),
                  if t.trap then p1.Inc(AlertEqualEpochTrap) else p1)
  }

  /** How many heals of a run were given up because the oracle had no address. */
  function RunAborts(w: World, cfg: Config, run: seq<TickFacts>, p: Proc): nat
    requires AllActable(cfg, run)
  {
    if run == [] then 0
    else
      var before := run[..|run| - 1];
      RunAborts(w, cfg, before, p) + FindingAborts(w, cfg, run[|run| - 1], Started(RunOf(w, cfg, before, p)))
  }

  /** There are none when every oracle resolves. */
  lemma {:induction false} ResolvedRunAborts(w: World, cfg: Config, run: seq<TickFacts>, p: Proc)
    requires AllActable(cfg, run) && forall t | t in run && t.found.Unique? :: t.obs.names.target(t.found.addr).Some?
    ensures RunAborts(w, cfg, run, p) == 0
  {
    if run != [] {
      var before, t := run[..|run| - 1], run[|run| - 1];
      ResolvedRunAborts(w, cfg, before, p);
      assert t in run;
      ResolvedTickAborts(w, cfg, t, Started(RunOf(w, cfg, before, p)));
    }
  }

  lemma ResolvedTickAborts(w: World, cfg: Config, t: TickFacts, p: Proc)
    requires Actable(cfg, t) && (t.found.Unique? ==> t.obs.names.target(t.found.addr).Some?)
    ensures FindingAborts(w, cfg, t, p) == 0
  {
    if t.found.Unique? {
      var p1 := p.(writable := 1);
      NoneAborts(w, cfg, t.obs, t.found.addr, t.nodes, t.trap, CheckCount(cfg),
                 if t.trap then p1.Inc(AlertEqualEpochTrap) else p1);
    }
  }

  lemma ActBalances(w: World, cfg: Config, t: TickFacts, p: Proc)
    requires Actable(cfg, t) && t.found.Unique?
    ensures Balanced(p.counts, FindingRun(w, cfg, t.obs, t.nodes, t.found, t.trap, p).counts,
                     FindingAborts(w, cfg, t, p), Answered(t.obs.views[..CheckCount(cfg)]))
  {
    var p1 := p.(writable := 1);
    ChecksBalance(w, cfg, t.obs, t.found.addr, t.nodes, t.trap, CheckCount(cfg),
                  if t.trap then p1.Inc(AlertEqualEpochTrap) else p1);
  }

  lemma FindingBalances(w: World, cfg: Config, t: TickFacts, p: Proc)
    requires Actable(cfg, t)
    ensures var q := FindingRun(w, cfg, t.obs, t.nodes, t.found, t.trap, p);
            && OpenDiverges(q.counts) == OpenDiverges(p.counts)
            && Aborts(q.counts) == Aborts(p.counts) + FindingAborts(w, cfg, t, p)
            && q.counts[Ticks] == p.counts[Ticks]
            && (cfg.sentinelAddrs != [] && OnlyFirst(cfg) ==>
                  q.counts[Noop] + q.counts[Diverge] + Alerted(q.counts) + (if SkipsCheck(cfg, t) then 1 else 0)
                  == p.counts[Noop] + p.counts[Diverge] + Alerted(p.counts) + 1)
  {
    if t.found.Unique? {
      ActBalances(w, cfg, t, p);
      AnsweredFirst(t.obs.views);
    }
  }

  lemma AnsweredFirst(views: seq<View>)
    requires views != []
    ensures Answered(views[..1]) == if views[0].err then 0 else 1
  {
    assert views[..1][..0] == [];
  }

  /** Over any run from zero: diverge = would_heal + apply_refused + heal_ok + heal_fail; finished heals are the
      attempts and those given up for want of an address; and with one Sentinel to
      check, every tick is a noop, a diverge, one of three alerts or a skipped check. */
  lemma {:induction false} CountersConserved(w: World, cfg: Config, run: seq<TickFacts>, p: Proc)
    requires AllActable(cfg, run) && forall c :: p.counts[c] == 0
    ensures var c := RunOf(w, cfg, run, p).counts;
            && c[Diverge] == c[WouldHeal] + c[ApplyRefused] + c[HealOk] + c[HealFail]
            && c[HealOk] + c[HealFail] == c[HealAttempt] + RunAborts(w, cfg, run, p)
            && c[Ticks] == |run|
            && (cfg.sentinelAddrs != [] && OnlyFirst(cfg) ==>
                  c[Ticks] == c[Noop] + c[Diverge] + Skips(cfg, run)
                              + c[AlertNoRedis] + c[AlertNoWritable] + c[AlertDualMaster])
  {
    if run != [] {
      var before := run[..|run| - 1];
      CountersConserved(w, cfg, before, p);
      FindingBalances(w, cfg, run[|run| - 1], Started(RunOf(w, cfg, before, p)));
    }
  }

  // ----- gauges -----

  /** q's last-tick gauges are set where its counters have moved past the given ones, and p's elsewhere. */
  predicate GaugesFollow(p: Proc, q: Proc) {
    && p.counts[Diverge] <= q.counts[Diverge] && p.counts[WouldHeal] <= q.counts[WouldHeal]
    && q.diverged == (if q.counts[Diverge] > p.counts[Diverge] then 1 else p.diverged)
    && q.wouldHeal == (if q.counts[WouldHeal] > p.counts[WouldHeal] then 1 else p.wouldHeal)
    && q.writable == p.writable
  }

  lemma CheckGauges(w: World, cfg: Config, names: Names, s: string, view: View, masterKey: string,
                    nodes: seq<NodeResult>, trap: bool, p: Proc)
    ensures GaugesFollow(p, CheckRun(w, cfg, names, s, view, masterKey, nodes, trap, p))
  {
    var advertised := Endpoint.Printed(view.host, view.port);
    if !view.err && !names.same(advertised, masterKey) && cfg.apply {
      var p1 := p.Inc(Diverge).(diverged := 1).Did(MasterInfo(s));
      var flags := FlagsOf(w.answer(p1.hist));
      LeasedGauges(w, cfg, names, s, masterKey,
                   PlanFor(names, advertised, masterKey, flags, nodes, trap, cfg.equalEpochEscalate), p1);
    }
  }

  lemma LeasedGauges(w: World, cfg: Config, names: Names, s: string, masterKey: string, plan: Plan, p: Proc)
    ensures var q := LeasedHeal(w, cfg, names, s, masterKey, plan, p);
            && q.counts[Diverge] == p.counts[Diverge] && q.counts[WouldHeal] == p.counts[WouldHeal]
            && q.diverged == p.diverged && q.wouldHeal == p.wouldHeal && q.writable == p.writable
  {
    if !cfg.healLease {
      HealOutcome(w, cfg, names, s, masterKey, plan, p);
    } else {
      var l := LeaseRun(w, masterKey, cfg.leaseHolder, ApplyTtl(cfg), p.hist);
      HealOutcome(w, cfg, names, s, masterKey, plan, p.(hist := l.hist).Inc(HealLeaseAcquired));
    }
  }

  lemma {:induction false} ChecksGauges(w: World, cfg: Config, obs: Observation, masterKey: string,
                                        nodes: seq<NodeResult>, trap: bool, k: nat, p: Proc)
    requires OneViewEach(cfg, obs) && k <= |obs.views|
    ensures GaugesFollow(p, ChecksRun(w, cfg, obs, masterKey, nodes, trap, k, p))
  {
    if k > 0 {
      ChecksGauges(w, cfg, obs, masterKey, nodes, trap, k - 1, p);
      CheckGauges(w, cfg, obs.names, cfg.sentinelAddrs[k - 1], obs.views[k - 1], masterKey, nodes, trap,
                  ChecksRun(w, cfg, obs, masterKey, nodes, trap, k - 1, p));
    }
  }

  /** The gauges tell of the last tick alone: whether it diverged, whether it would have healed, and how many
      distinct Redis it found writable. */
  lemma GaugesTellLastTick(w: World, cfg: Config, t: TickFacts, p: Proc)
    requires Actable(cfg, t)
    ensures var q := TickRun(w, cfg, t, p);
            && q.diverged == (if q.counts[Diverge] > p.counts[Diverge] then 1 else 0)
            && q.wouldHeal == (if q.counts[WouldHeal] > p.counts[WouldHeal] then 1 else 0)
            && q.writable == (if t.found.Unique? then 1 else if t.found.ManyWritable? then t.found.count else 0)
  {
    if t.found.Unique? {
      var p1 := Started(p).(writable := 1);
      ChecksGauges(w, cfg, t.obs, t.found.addr, t.nodes, t.trap, CheckCount(cfg),
                   if t.trap then p1.Inc(AlertEqualEpochTrap) else p1);
    }
  }
}
