/** What the counters, the gauges and the history say of one check, one tick and one run, in terms of what was seen and
    answered. */
module Outcomes {
  import opened Text
  import Endpoint
  import opened NameBook
  import opened Oracle
  import opened HealPlan
  import opened Metrics
  import opened Process
  import opened Accounting
  import opened HealTrace

  // ----- heals -----

  lemma UnverifiedEnds(w: World, names: Names, s: string, masterKey: string, h: seq<Io>)
    requires !Verify(w, names, s, masterKey, h).ok
    ensures !EndsHealed(w, names, s, masterKey, Verify(w, names, s, masterKey, h).hist)
  {
    var h1 := h + [GetMasterAddr(s)];
    assert (h1 + [WriteProbe(masterKey)])[..|h1|] == h1;
  }

  /** A heal by MONITOR succeeds exactly when its last two steps were a GET that named the oracle and a probe in which
      the oracle took a write, whether before or after RESET; otherwise it fails. */
  lemma MonitorOutcomeIff(w: World, cfg: Config, names: Names, s: string, masterKey: string, target: Endpoint.Target,
                          reason: Reason, p: Proc)
    ensures var q := MonitorRun(w, cfg, names, s, masterKey, target, reason, p);
            q.counts == Bump(p.counts, if EndsHealed(w, names, s, masterKey, q.hist) then HealOk else HealFail)
  {
    var h1 := p.hist + MonitorHead(cfg, s, target);
    if !w.answer(h1).Failed? {
      var h2 := h1 + AuthCommands(s, ConfiguredAuth(cfg));
      VerdictEnds(w, names, s, masterKey, h2);
      VerdictEnds(w, names, s, masterKey, Verify(w, names, s, masterKey, h2).hist + [ResetMaster(s)]);
    }
  }

  lemma VerdictEnds(w: World, names: Names, s: string, masterKey: string, h: seq<Io>)
    ensures var v := Verify(w, names, s, masterKey, h); v.ok <==> EndsHealed(w, names, s, masterKey, v.hist)
  {
    if Verify(w, names, s, masterKey, h).ok {
      VerifyEnds(w, names, s, masterKey, h);
    } else {
      UnverifiedEnds(w, names, s, masterKey, h);
    }
  }

  /** The same of an attempt, whatever its plan: FAILOVER comes first when planned, the Sentinel is verified after it,
      and an attempt fails only once REMOVE was sent too. */
  lemma AttemptOutcomeIff(w: World, cfg: Config, names: Names, s: string, masterKey: string, target: Endpoint.Target,
                          plan: Plan, p: Proc)
    ensures var q := AttemptRun(w, cfg, names, s, masterKey, target, plan, p);
            var healed := EndsHealed(w, names, s, masterKey, q.hist);
            && q.counts == Bump(Bump(p.counts, HealAttempt), if healed then HealOk else HealFail)
            && |q.hist| > |p.hist|
            && q.hist[|p.hist|] == (if plan.action.Failover? then PromoteReplica(s) else Remove(s))
            && (!healed ==> exists i | |p.hist| <= i < |q.hist| :: q.hist[i] == Remove(s))
  {
    var p1 := p.(lastHeal := Some(w.clock(p.hist))).Inc(HealAttempt);
    var p2 := p1.Did(PromoteReplica(s));
    var v := Verify(w, names, s, masterKey, p2.hist);
    VerdictEnds(w, names, s, masterKey, p2.hist);
    var at := if !plan.action.Failover? then p1 else if w.answer(p2.hist).Failed? then p2 else p2.(hist := v.hist);
    if !(at == p2.(hist := v.hist) && v.ok && plan.action.Failover?) {
      MonitorOutcomeIff(w, cfg, names, s, masterKey, target, plan.reason, at);
      RemovesFirst(w, cfg, names, s, masterKey, target, plan.reason, at);
      assert (at.hist + [Remove(s)])[|at.hist|] == Remove(s);
    }
  }

  lemma RemovesFirst(w: World, cfg: Config, names: Names, s: string, masterKey: string, target: Endpoint.Target,
                     reason: Reason, p: Proc)
    ensures var h := MonitorRun(w, cfg, names, s, masterKey, target, reason, p).hist;
            p.hist + [Remove(s)] <= h
  {
    assert p.hist + MonitorHead(cfg, s, target)
        == p.hist + [Remove(s)] + [MonitorMaster(s, target.ip, target.port, cfg.quorum)];
  }

  /** A heal succeeds exactly when it is attempted and ends like that, and fails exactly when it is not refused and does
      not. */
  lemma HealOutcomeIff(w: World, cfg: Config, names: Names, s: string, masterKey: string, plan: Plan, p: Proc)
    ensures var q := HealRun(w, cfg, names, s, masterKey, plan, p);
            var attempted := !plan.action.Refuse? && names.target(masterKey).Some?;
            var healed := attempted && EndsHealed(w, names, s, masterKey, q.hist);
            && q.counts[HealOk] == p.counts[HealOk] + (if healed then 1 else 0)
            && q.counts[HealFail] == p.counts[HealFail] + (if !plan.action.Refuse? && !healed then 1 else 0)
  {
    if !plan.action.Refuse? && names.target(masterKey).Some? {
      AttemptOutcomeIff(w, cfg, names, s, masterKey, names.target(masterKey).value, plan, p);
    }
  }

  /** A success is counted exactly when an attempt was, and the history ends like that. */
  predicate CountsEnds(w: World, names: Names, s: string, masterKey: string, p: Proc, q: Proc) {
    var attempted := q.counts[HealAttempt] > p.counts[HealAttempt];
    q.counts[HealOk] == p.counts[HealOk] + (if attempted && EndsHealed(w, names, s, masterKey, q.hist) then 1 else 0)
  }

  lemma HealCountsEnds(w: World, cfg: Config, names: Names, s: string, masterKey: string, plan: Plan, p: Proc)
    ensures CountsEnds(w, names, s, masterKey, p, HealRun(w, cfg, names, s, masterKey, plan, p))
  {
    if !plan.action.Refuse? && names.target(masterKey).Some? {
      AttemptOutcomeIff(w, cfg, names, s, masterKey, names.target(masterKey).value, plan, p);
    }
  }

  lemma LeasedCountsEnds(w: World, cfg: Config, names: Names, s: string, masterKey: string, plan: Plan, p: Proc)
    ensures CountsEnds(w, names, s, masterKey, p, LeasedHeal(w, cfg, names, s, masterKey, plan, p))
  {
    var l := LeaseRun(w, masterKey, cfg.leaseHolder, ApplyTtl(cfg), p.hist);
    if !cfg.healLease {
      HealCountsEnds(w, cfg, names, s, masterKey, plan, p);
    } else if l.verdict.LeaseGranted? {
      HealCountsEnds(w, cfg, names, s, masterKey, plan, p.(hist := l.hist).Inc(HealLeaseAcquired));
    }
  }

  lemma ApplyCountsEnds(w: World, cfg: Config, names: Names, s: string, advertised: string, masterKey: string,
                        nodes: seq<NodeResult>, trap: bool, p: Proc)
    ensures CountsEnds(w, names, s, masterKey, p,
                       ApplyRun(w, cfg, names, s, advertised, masterKey, nodes, trap, p))
  {
    var p1 := p.Did(MasterInfo(s));
    var flags := FlagsOf(w.answer(p1.hist));
    LeasedCountsEnds(w, cfg, names, s, masterKey,
                     PlanFor(names, advertised, masterKey, flags, nodes, trap, cfg.equalEpochEscalate), p1);
  }

  /** A check counts a successful heal exactly when one was due and the history ends with the Sentinel naming the oracle
      and the oracle taking a write. */
  lemma CheckHealsIff(w: World, cfg: Config, names: Names, s: string, view: View, masterKey: string,
                      nodes: seq<NodeResult>, trap: bool, p: Proc)
    requires names.Lawful() && OracleAmong(masterKey, nodes)
    ensures var q := CheckRun(w, cfg, names, s, view, masterKey, nodes, trap, p);
            var due := AttemptDue(w, cfg, names, s, view, masterKey, nodes, p);
            q.counts[HealOk]
              == p.counts[HealOk] + (if due && EndsHealed(w, names, s, masterKey, q.hist) then 1 else 0)
  {
    HealGate(w, cfg, names, s, view, masterKey, nodes, trap, p);
    var advertised := Endpoint.Printed(view.host, view.port);
    if !view.err && !names.same(advertised, masterKey) && cfg.apply {
      ApplyCountsEnds(w, cfg, names, s, advertised, masterKey, nodes, trap, p.Inc(Diverge).(diverged := 1));
    }
  }

  // ----- what is probed with a write, and when -----

  /** Every write probe after h follows a GET whose answer named the oracle. */
  ghost predicate ProbesAfterGet(w: World, names: Names, masterKey: string, h: seq<Io>, h': seq<Io>) {
    && h <= h'
    && forall i | |h| <= i < |h'| && h'[i].WriteProbe? ::
         && h'[i].addr == masterKey && i > |h| && h'[i - 1].GetMasterAddr?
         && var r := w.answer(h'[..i]); r.Address? && names.same(r.host + ":" + Itoa(r.port), masterKey)
  }

  lemma ProbesStep(w: World, names: Names, masterKey: string, h: seq<Io>, h': seq<Io>, h'': seq<Io>)
    requires ProbesAfterGet(w, names, masterKey, h, h') && ProbesAfterGet(w, names, masterKey, h', h'')
    ensures ProbesAfterGet(w, names, masterKey, h, h'')
  {
    forall i | |h| <= i < |h''| && h''[i].WriteProbe?
      ensures h''[i].addr == masterKey && i > |h| && h''[i - 1].GetMasterAddr?
      ensures var r := w.answer(h''[..i]); r.Address? && names.same(r.host + ":" + Itoa(r.port), masterKey)
    {
      if i < |h'| { assert h''[..i] == h'[..i] && h''[i] == h'[i]; }
    }
  }

  lemma VerifyProbes(w: World, names: Names, s: string, masterKey: string, h: seq<Io>)
    ensures ProbesAfterGet(w, names, masterKey, h, Verify(w, names, s, masterKey, h).hist)
  {
    var h1 := h + [GetMasterAddr(s)];
    assert (h1 + [WriteProbe(masterKey)])[..|h1|] == h1;
  }

  /** A heal writes to the oracle only after the Sentinel has named it. */
  lemma MonitorProbes(w: World, cfg: Config, names: Names, s: string, masterKey: string, target: Endpoint.Target,
                      reason: Reason, p: Proc)
    ensures ProbesAfterGet(w, names, masterKey, p.hist,
                           MonitorRun(w, cfg, names, s, masterKey, target, reason, p).hist)
  {
    var h1 := p.hist + MonitorHead(cfg, s, target);
    var h2 := h1 + AuthCommands(s, ConfiguredAuth(cfg));
    assert ProbesAfterGet(w, names, masterKey, p.hist, h1);
    assert ProbesAfterGet(w, names, masterKey, h1, h2);
    ProbesStep(w, names, masterKey, p.hist, h1, h2);
    VerifyProbes(w, names, s, masterKey, h2);
    var v := Verify(w, names, s, masterKey, h2);
    ProbesStep(w, names, masterKey, p.hist, h2, v.hist);
    var h3 := v.hist + [ResetMaster(s)];
    assert ProbesAfterGet(w, names, masterKey, v.hist, h3);
    ProbesStep(w, names, masterKey, p.hist, v.hist, h3);
    VerifyProbes(w, names, s, masterKey, h3);
    ProbesStep(w, names, masterKey, p.hist, h3, Verify(w, names, s, masterKey, h3).hist);
  }

  // ----- one check -----

  /** No heal was attempted, refused or finished, and no lease taken. */
  predicate NothingApplied(p: Proc, q: Proc) {
    && q.counts[HealAttempt] == p.counts[HealAttempt] && q.counts[ApplyRefused] == p.counts[ApplyRefused]
    && q.counts[HealOk] == p.counts[HealOk] && q.counts[HealFail] == p.counts[HealFail]
    && q.counts[HealLeaseAcquired] == p.counts[HealLeaseAcquired]
  }

  lemma LeasedGrows(w: World, cfg: Config, names: Names, s: string, masterKey: string, plan: Plan, p: Proc)
    ensures p.hist <= LeasedHeal(w, cfg, names, s, masterKey, plan, p).hist
  {
    var l := LeaseRun(w, masterKey, cfg.leaseHolder, ApplyTtl(cfg), p.hist);
    LeaseTouches(w, masterKey, cfg.leaseHolder, ApplyTtl(cfg), p.hist);
    if !cfg.healLease {
      HealGrows(w, cfg, names, s, masterKey, plan, p);
    } else {
      HealGrows(w, cfg, names, s, masterKey, plan, p.(hist := l.hist).Inc(HealLeaseAcquired));
    }
  }

  lemma HealGrows(w: World, cfg: Config, names: Names, s: string, masterKey: string, plan: Plan, p: Proc)
    ensures p.hist <= HealRun(w, cfg, names, s, masterKey, plan, p).hist
  {
    if !plan.action.Refuse? && names.target(masterKey).Some? {
      var target := names.target(masterKey).value;
      var p1 := p.(lastHeal := Some(w.clock(p.hist))).Inc(HealAttempt);
      var p2 := p1.Did(PromoteReplica(s));
      if !plan.action.Failover? {
        MonitorTouches(w, cfg, names, s, masterKey, target, plan.reason, p1);
      } else if w.answer(p2.hist).Failed? {
        MonitorTouches(w, cfg, names, s, masterKey, target, plan.reason, p2);
      } else {
        var v := Verify(w, names, s, masterKey, p2.hist);
        MonitorTouches(w, cfg, names, s, masterKey, target, plan.reason, p2.(hist := v.hist));
      }
    }
  }

  /** What a check counts and shows, and the first thing it sends. */
  ghost predicate Tallies(cfg: Config, names: Names, s: string, view: View, masterKey: string, p: Proc, q: Proc) {
    var advertised := view.host + ":" + Itoa(view.port);
    var noop := !view.err && names.same(advertised, masterKey);
    var diverged := !view.err && !names.same(advertised, masterKey);
    && (view.err ==> q == p)
    && q.counts[Noop] == p.counts[Noop] + (if noop then 1 else 0)
    && q.counts[Diverge] == p.counts[Diverge] + (if diverged then 1 else 0)
    && q.diverged == (if diverged then 1 else p.diverged)
    && q.counts[WouldHeal] == p.counts[WouldHeal] + (if diverged && !cfg.apply then 1 else 0)
    && q.wouldHeal == (if diverged && !cfg.apply then 1 else p.wouldHeal)
    && (if diverged && cfg.apply then |q.hist| > |p.hist| && q.hist[..|p.hist| + 1] == p.hist + [MasterInfo(s)]
        else q.hist == p.hist && q.lastHeal == p.lastHeal && NothingApplied(p, q))
  }

  lemma ApplyTallies(w: World, cfg: Config, names: Names, s: string, advertised: string, masterKey: string,
                     nodes: seq<NodeResult>, trap: bool, p: Proc)
    ensures var q := ApplyRun(w, cfg, names, s, advertised, masterKey, nodes, trap, p);
            && q.counts[WouldHeal] == p.counts[WouldHeal] && q.wouldHeal == p.wouldHeal
            && q.counts[Noop] == p.counts[Noop] && q.counts[Diverge] == p.counts[Diverge] && q.diverged == p.diverged
            && |q.hist| > |p.hist| && q.hist[..|p.hist| + 1] == p.hist + [MasterInfo(s)]
  {
    var p1 := p.Did(MasterInfo(s));
    var flags := FlagsOf(w.answer(p1.hist));
    var plan := PlanFor(names, advertised, masterKey, flags, nodes, trap, cfg.equalEpochEscalate);
    LeasedGrows(w, cfg, names, s, masterKey, plan, p1);
    LeasedGauges(w, cfg, names, s, masterKey, plan, p1);
    ApplyBalances(w, cfg, names, s, advertised, masterKey, nodes, trap, p);
  }

  /** A check of a Sentinel that did not answer does nothing; of one that names the oracle it counts a noop and sends
      nothing; of any other it counts a diverge. A dry run counts that it would have healed and sends nothing; an apply
      asks the Sentinel for its flags first, and never counts that it would have healed. */
  lemma CheckCounts(w: World, cfg: Config, names: Names, s: string, view: View, masterKey: string,
                    nodes: seq<NodeResult>, trap: bool, p: Proc)
    ensures Tallies(cfg, names, s, view, masterKey, p, CheckRun(w, cfg, names, s, view, masterKey, nodes, trap, p))
  {
    var advertised := Endpoint.Printed(view.host, view.port);
    if !view.err && !names.same(advertised, masterKey) && cfg.apply {
      ApplyTallies(w, cfg, names, s, advertised, masterKey, nodes, trap, p.Inc(Diverge).(diverged := 1));
    }
  }

  // ----- runs with and without apply -----

  /** From p to q nothing was applied, nothing sent but by timers, and every diverge counted as one that would have been
      healed. */
  ghost predicate OnlyDry(p: Proc, q: Proc) {
    && NothingApplied(p, q) && q.lastHeal == p.lastHeal
    && q.counts[WouldHeal] - p.counts[WouldHeal] == q.counts[Diverge] - p.counts[Diverge]
    && p.hist <= q.hist && forall i | |p.hist| <= i < |q.hist| :: q.hist[i].Wake?
  }

  lemma {:induction false} ChecksDry(w: World, cfg: Config, obs: Observation, masterKey: string,
                                     nodes: seq<NodeResult>, trap: bool, k: nat, p: Proc)
    requires OneViewEach(cfg, obs) && k <= |obs.views| && !cfg.apply && p.diverged == p.wouldHeal
    ensures var q := ChecksRun(w, cfg, obs, masterKey, nodes, trap, k, p);
            OnlyDry(p, q) && q.hist == p.hist && q.diverged == q.wouldHeal
  {
    if k > 0 {
      ChecksDry(w, cfg, obs, masterKey, nodes, trap, k - 1, p);
      CheckCounts(w, cfg, obs.names, cfg.sentinelAddrs[k - 1], obs.views[k - 1], masterKey, nodes, trap,
                  ChecksRun(w, cfg, obs, masterKey, nodes, trap, k - 1, p));
    }
  }

  lemma FindingDry(w: World, cfg: Config, t: TickFacts, p: Proc)
    requires Actable(cfg, t) && !cfg.apply && p.diverged == p.wouldHeal
    ensures var q := FindingRun(w, cfg, t.obs, t.nodes, t.found, t.trap, p);
            OnlyDry(p, q) && q.hist == p.hist && q.diverged == q.wouldHeal
  {
    if t.found.Unique? {
      var p1 := p.(writable := 1);
      ChecksDry(w, cfg, t.obs, t.found.addr, t.nodes, t.trap, CheckCount(cfg),
                if t.trap then p1.Inc(AlertEqualEpochTrap) else p1);
    }
  }

  /** Over any run of a process that does not apply: nothing is sent, refused or healed, as many diverged checks are
      counted as would have been healed, and the two gauges agree at the end of every tick. */
  lemma {:induction false} DryRun(w: World, cfg: Config, run: seq<TickFacts>, p: Proc)
    requires AllActable(cfg, run) && !cfg.apply
    ensures OnlyDry(p, RunOf(w, cfg, run, p))
    ensures run != [] ==> RunOf(w, cfg, run, p).diverged == RunOf(w, cfg, run, p).wouldHeal
  {
    if run != [] {
      var before := run[..|run| - 1];
      DryRun(w, cfg, before, p);
      FindingDry(w, cfg, run[|run| - 1], Started(RunOf(w, cfg, before, p)));
    }
  }

  lemma {:induction false} ChecksApply(w: World, cfg: Config, obs: Observation, masterKey: string,
                                       nodes: seq<NodeResult>, trap: bool, k: nat, p: Proc)
    requires OneViewEach(cfg, obs) && k <= |obs.views| && cfg.apply
    ensures var q := ChecksRun(w, cfg, obs, masterKey, nodes, trap, k, p);
            q.counts[WouldHeal] == p.counts[WouldHeal] && q.wouldHeal == p.wouldHeal
  {
    if k > 0 {
      ChecksApply(w, cfg, obs, masterKey, nodes, trap, k - 1, p);
      CheckCounts(w, cfg, obs.names, cfg.sentinelAddrs[k - 1], obs.views[k - 1], masterKey, nodes, trap,
                  ChecksRun(w, cfg, obs, masterKey, nodes, trap, k - 1, p));
    }
  }

  lemma FindingApplies(w: World, cfg: Config, t: TickFacts, p: Proc)
    requires Actable(cfg, t) && cfg.apply
    ensures var q := FindingRun(w, cfg, t.obs, t.nodes, t.found, t.trap, p);
            q.counts[WouldHeal] == p.counts[WouldHeal] && q.wouldHeal == p.wouldHeal
  {
    if t.found.Unique? {
      var p1 := p.(writable := 1);
      ChecksApply(w, cfg, t.obs, t.found.addr, t.nodes, t.trap, CheckCount(cfg),
                  if t.trap then p1.Inc(AlertEqualEpochTrap) else p1);
    }
  }

  /** A process that applies never counts that it would have healed, nor shows it. */
  lemma {:induction false} ApplyNeverWould(w: World, cfg: Config, run: seq<TickFacts>, p: Proc)
    requires AllActable(cfg, run) && cfg.apply
    ensures RunOf(w, cfg, run, p).counts[WouldHeal] == p.counts[WouldHeal]
    ensures run != [] ==> RunOf(w, cfg, run, p).wouldHeal == 0
  {
    if run != [] {
      var before, t := run[..|run| - 1], run[|run| - 1];
      ApplyNeverWould(w, cfg, before, p);
      FindingApplies(w, cfg, t, Started(RunOf(w, cfg, before, p)));
    }
  }

  // ----- alerts, and how many Sentinels are checked -----

  /** A check raises none of a tick's alerts. */
  predicate SameAlerts(p: Proc, q: Proc) {
    && q.counts[AlertNoRedis] == p.counts[AlertNoRedis] && q.counts[AlertNoWritable] == p.counts[AlertNoWritable]
    && q.counts[AlertDualMaster] == p.counts[AlertDualMaster]
    && q.counts[AlertEqualEpochTrap] == p.counts[AlertEqualEpochTrap]
  }

  lemma HealSameAlerts(w: World, cfg: Config, names: Names, s: string, masterKey: string, plan: Plan, p: Proc)
    ensures SameAlerts(p, HealRun(w, cfg, names, s, masterKey, plan, p))
  {
    if !plan.action.Refuse? && names.target(masterKey).Some? {
      AttemptOutcome(w, cfg, names, s, masterKey, names.target(masterKey).value, plan, p);
    }
  }

  lemma LeasedSameAlerts(w: World, cfg: Config, names: Names, s: string, masterKey: string, plan: Plan, p: Proc)
    ensures SameAlerts(p, LeasedHeal(w, cfg, names, s, masterKey, plan, p))
  {
    var l := LeaseRun(w, masterKey, cfg.leaseHolder, ApplyTtl(cfg), p.hist);
    HealSameAlerts(w, cfg, names, s, masterKey, plan,
                   if cfg.healLease then p.(hist := l.hist).Inc(HealLeaseAcquired) else p);
  }

  lemma CheckSameAlerts(w: World, cfg: Config, names: Names, s: string, view: View, masterKey: string,
                        nodes: seq<NodeResult>, trap: bool, p: Proc)
    ensures SameAlerts(p, CheckRun(w, cfg, names, s, view, masterKey, nodes, trap, p))
  {
    var advertised := Endpoint.Printed(view.host, view.port);
    if !view.err && !names.same(advertised, masterKey) && cfg.apply {
      var p1 := p.Inc(Diverge).(diverged := 1).Did(MasterInfo(s));
      var flags := FlagsOf(w.answer(p1.hist));
      LeasedSameAlerts(w, cfg, names, s, masterKey,
                       PlanFor(names, advertised, masterKey, flags, nodes, trap, cfg.equalEpochEscalate), p1);
    }
  }

  lemma {:induction false} ChecksSameAlerts(w: World, cfg: Config, obs: Observation, masterKey: string,
                                            nodes: seq<NodeResult>, trap: bool, k: nat, p: Proc)
    requires OneViewEach(cfg, obs) && k <= |obs.views|
    ensures SameAlerts(p, ChecksRun(w, cfg, obs, masterKey, nodes, trap, k, p))
  {
    if k > 0 {
      ChecksSameAlerts(w, cfg, obs, masterKey, nodes, trap, k - 1, p);
      CheckSameAlerts(w, cfg, obs.names, cfg.sentinelAddrs[k - 1], obs.views[k - 1], masterKey, nodes, trap,
                      ChecksRun(w, cfg, obs, masterKey, nodes, trap, k - 1, p));
    }
  }

  /** A tick raises the one alert that its finding is about, and the epoch alert exactly when there is a unique writable
      and a trap. */
  lemma TickAlerts(w: World, cfg: Config, t: TickFacts, p: Proc)
    requires Actable(cfg, t)
    ensures var q := TickRun(w, cfg, t, p);
            && q.counts[AlertNoRedis] == p.counts[AlertNoRedis] + (if t.found.NoRedis? then 1 else 0)
            && q.counts[AlertNoWritable] == p.counts[AlertNoWritable] + (if t.found.NoneWritable? then 1 else 0)
            && q.counts[AlertDualMaster] == p.counts[AlertDualMaster] + (if t.found.ManyWritable? then 1 else 0)
            && q.counts[AlertEqualEpochTrap]
                 == p.counts[AlertEqualEpochTrap] + (if t.found.Unique? && t.trap then 1 else 0)
  {
    if t.found.Unique? {
      var p1 := Started(p).(writable := 1);
      ChecksSameAlerts(w, cfg, t.obs, t.found.addr, t.nodes, t.trap, CheckCount(cfg),
                       if t.trap then p1.Inc(AlertEqualEpochTrap) else p1);
    }
  }

  lemma AnsweredChecked(cfg: Config, obs: Observation)
    requires OneViewEach(cfg, obs) && cfg.sentinelAddrs != []
    ensures Answered(obs.views[..CheckCount(cfg)])
         == if cfg.localSentinel then (if obs.views[0].err then 0 else 1) else Answered(obs.views)
  {
    AnsweredFirst(obs.views);
    assert obs.views[..|obs.views|] == obs.views;
  }

  lemma ActChecks(w: World, cfg: Config, t: TickFacts, p: Proc)
    requires Actable(cfg, t) && t.found.Unique?
    ensures var q := ActRun(w, cfg, t.obs, t.found.addr, t.nodes, t.trap, p);
            q.counts[Noop] + q.counts[Diverge] - p.counts[Noop] - p.counts[Diverge]
            == if cfg.localSentinel then (if t.obs.views[0].err then 0 else 1) else Answered(t.obs.views)
  {
    ChecksBalance(w, cfg, t.obs, t.found.addr, t.nodes, t.trap, CheckCount(cfg),
                  if t.trap then p.Inc(AlertEqualEpochTrap) else p);
    AnsweredChecked(cfg, t.obs);
  }

  /** A tick that finds a unique writable checks the first Sentinel alone when it is the process's own, and every listed
      one otherwise: so many noops and diverges it counts. */
  lemma TickChecks(w: World, cfg: Config, t: TickFacts, p: Proc)
    requires Actable(cfg, t)
    ensures var q := TickRun(w, cfg, t, p);
            q.counts[Noop] + q.counts[Diverge] - p.counts[Noop] - p.counts[Diverge]
            == if !t.found.Unique? then 0
               else if cfg.localSentinel then (if t.obs.views[0].err then 0 else 1)
               else Answered(t.obs.views)
  {
    if t.found.Unique? { ActChecks(w, cfg, t, Started(p).(writable := 1)); }
  }
}
