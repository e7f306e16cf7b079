/** How often one process heals, with or without the lease. */
module Cooldown {
  import Endpoint
  import opened NameBook
  import opened Oracle
  import opened HealPlan
  import opened Metrics
  import opened Process
  import opened Accounting
  import opened HealTrace

  /** Time does not run backwards. */
  ghost predicate Monotone(w: World) { forall g, h :: g <= h ==> w.clock(g) <= w.clock(h) }

  function Attempts(p: Proc, q: Proc): int { q.counts[HealAttempt] - p.counts[HealAttempt] }

  /** From p to q every attempt came at least the cooldown after the one before, and lastHeal is the date of the
      last one. */
  predicate Cooled(cooldown: int, p: Proc, q: Proc) {
    && Attempts(p, q) >= 0
    && (Attempts(p, q) == 0 ==> q.lastHeal == p.lastHeal)
    && (Attempts(p, q) > 0 ==>
          && q.lastHeal.Some?
          && (p.lastHeal.None? ==> q.lastHeal.value >= (Attempts(p, q) - 1) * cooldown)
          && (p.lastHeal.Some? ==> q.lastHeal.value - p.lastHeal.value >= Attempts(p, q) * cooldown))
  }

  lemma CooledStep(cooldown: int, p: Proc, q: Proc, r: Proc)
    requires cooldown > 0 && Cooled(cooldown, p, q) && Cooled(cooldown, q, r)
    ensures Cooled(cooldown, p, r)
  {
    var m, n := Attempts(p, q), Attempts(q, r);
    assert Attempts(p, r) == m + n;
    assert (m + n) * cooldown == m * cooldown + n * cooldown;
    assert (m + n - 1) * cooldown == (m - 1) * cooldown + n * cooldown;
  }

  /** From p to q there was no attempt, or one that came at least the cooldown after the one before. */
  predicate OneCooled(cooldown: int, p: Proc, q: Proc) {
    || (q.counts[HealAttempt] == p.counts[HealAttempt] && q.lastHeal == p.lastHeal)
    || (q.counts[HealAttempt] == p.counts[HealAttempt] + 1 && q.lastHeal.Some?
        && (p.lastHeal.Some? ==> q.lastHeal.value - p.lastHeal.value >= cooldown))
  }

  lemma OneIsCooled(cooldown: int, p: Proc, q: Proc)
    requires OneCooled(cooldown, p, q)
    ensures Cooled(cooldown, p, q)
  {}

  lemma HealCooled(w: World, cfg: Config, names: Names, s: string, masterKey: string, plan: Plan, p: Proc)
    requires CooledDown(cfg.healCooldown, p.lastHeal, w.clock(p.hist)) && cfg.healCooldown > 0
    ensures OneCooled(cfg.healCooldown, p, HealRun(w, cfg, names, s, masterKey, plan, p))
  {
    if !plan.action.Refuse? && names.target(masterKey).Some? {
      AttemptOutcome(w, cfg, names, s, masterKey, names.target(masterKey).value, plan, p);
    }
  }

  lemma LeasedCooled(w: World, cfg: Config, names: Names, s: string, masterKey: string, plan: Plan, p: Proc)
    requires Monotone(w) && CooledDown(cfg.healCooldown, p.lastHeal, w.clock(p.hist)) && cfg.healCooldown > 0
    ensures OneCooled(cfg.healCooldown, p, LeasedHeal(w, cfg, names, s, masterKey, plan, p))
  {
    var l := LeaseRun(w, masterKey, cfg.leaseHolder, ApplyTtl(cfg), p.hist);
    LeaseTouches(w, masterKey, cfg.leaseHolder, ApplyTtl(cfg), p.hist);
    assert w.clock(p.hist) <= w.clock(l.hist);
    var p1 := if cfg.healLease then p.(hist := l.hist).Inc(HealLeaseAcquired) else p;
    HealCooled(w, cfg, names, s, masterKey, plan, p1);
  }

  lemma ApplyCooled(w: World, cfg: Config, names: Names, s: string, advertised: string, masterKey: string,
                    nodes: seq<NodeResult>, trap: bool, p: Proc)
    requires Monotone(w) && cfg.healCooldown > 0
    ensures OneCooled(cfg.healCooldown, p, ApplyRun(w, cfg, names, s, advertised, masterKey, nodes, trap, p))
  {
    var p1 := p.Did(MasterInfo(s));
    var flags := FlagsOf(w.answer(p1.hist));
    if PreflightPasses(cfg, names, p.lastHeal, w.clock(p1.hist), flags, nodes) {
      LeasedCooled(w, cfg, names, s, masterKey,
                   PlanFor(names, advertised, masterKey, flags, nodes, trap, cfg.equalEpochEscalate), p1);
    }
  }

  /** A check starts a heal only when the cooldown is over, whatever is planned, and dates it. */
  lemma CheckCooled(w: World, cfg: Config, names: Names, s: string, view: View, masterKey: string,
                    nodes: seq<NodeResult>, trap: bool, p: Proc)
    requires Monotone(w) && cfg.healCooldown > 0
    ensures OneCooled(cfg.healCooldown, p, CheckRun(w, cfg, names, s, view, masterKey, nodes, trap, p))
  {
    var advertised := Endpoint.Printed(view.host, view.port);
    if !view.err && !names.same(advertised, masterKey) && cfg.apply {
      ApplyCooled(w, cfg, names, s, advertised, masterKey, nodes, trap, p.Inc(Diverge).(diverged := 1));
    }
  }

  lemma {:induction false} ChecksCooled(w: World, cfg: Config, obs: Observation, masterKey: string,
                                        nodes: seq<NodeResult>, trap: bool, k: nat, p: Proc)
    requires Monotone(w) && cfg.healCooldown > 0 && OneViewEach(cfg, obs) && k <= |obs.views|
    ensures Cooled(cfg.healCooldown, p, ChecksRun(w, cfg, obs, masterKey, nodes, trap, k, p))
  {
    if k > 0 {
      ChecksCooled(w, cfg, obs, masterKey, nodes, trap, k - 1, p);
      var q := ChecksRun(w, cfg, obs, masterKey, nodes, trap, k - 1, p);
      CheckCooled(w, cfg, obs.names, cfg.sentinelAddrs[k - 1], obs.views[k - 1], masterKey, nodes, trap, q);
      OneIsCooled(cfg.healCooldown, q, ChecksRun(w, cfg, obs, masterKey, nodes, trap, k, p));
      CooledStep(cfg.healCooldown, p, q, ChecksRun(w, cfg, obs, masterKey, nodes, trap, k, p));
    }
  }

  lemma TickCooled(w: World, cfg: Config, t: TickFacts, p: Proc)
    requires Monotone(w) && cfg.healCooldown > 0 && Actable(cfg, t)
    ensures Cooled(cfg.healCooldown, p, TickRun(w, cfg, t, p))
  {
    if t.found.Unique? {
      var p1 := Started(p).(writable := 1);
      ChecksCooled(w, cfg, t.obs, t.found.addr, t.nodes, t.trap, CheckCount(cfg),
                   if t.trap then p1.Inc(AlertEqualEpochTrap) else p1);
    }
  }

  /** Over any stretch of any run of one process, however many Sentinels a tick checks and whatever is answered:
      n attempts after the one that the stretch began with take at least n cooldowns. */
  lemma {:induction false} RunCooled(w: World, cfg: Config, run: seq<TickFacts>, p: Proc)
    requires Monotone(w) && cfg.healCooldown > 0 && AllActable(cfg, run)
    ensures Cooled(cfg.healCooldown, p, RunOf(w, cfg, run, p))
  {
    if run != [] {
      var before := run[..|run| - 1];
      var q := RunOf(w, cfg, before, p);
      RunCooled(w, cfg, before, p);
      TickCooled(w, cfg, run[|run| - 1], q);
      CooledStep(cfg.healCooldown, p, q, RunOf(w, cfg, run, p));
    }
  }
}
