/** Sentinels that several processes check, or one process checks twice, on views of any age: which heals are more than
    the Sentinels that stop being stale. */
module SharedSentinels {
  import opened Endpoint
  import opened NameBook
  import opened Oracle
  import opened HealPlan
  import opened Metrics
  import opened Process
  import EpochTrap
  import opened TickOracle
  import opened HealTrace
  import opened Fleets
  import opened Convergence

  // ----- one check -----

  /** A check of a Sentinel that is stale when the check comes to it improves the deployment, however old its view. */
  lemma StaleCheckImproves(w: World, d: Deployment, cfg: Config, names: Names, oracle: string, sentinels: set<string>,
                           s: string, view: View, masterKey: string, nodes: seq<NodeResult>, trap: bool, p: Proc)
    requires Truthful(w, d) && names.Lawful() && OracleAmong(masterKey, nodes) && SameOracleAs(names, masterKey, oracle)
    requires s in StaleSet(d, p.hist, names, oracle, sentinels)
    ensures Improves(d, names, oracle, sentinels, p, CheckRun(w, cfg, names, s, view, masterKey, nodes, trap, p))
  {
    CheckEffect(w, d, cfg, names, oracle, s, view, masterKey, nodes, trap, p);
    var q := CheckRun(w, cfg, names, s, view, masterKey, nodes, trap, p);
    var before, after := StaleSet(d, p.hist, names, oracle, sentinels), StaleSet(d, q.hist, names, oracle, sentinels);
    assert after <= before;
    SubsetCardinality(after, before);
  }

  /** A check that counts a heal improves the deployment exactly when its Sentinel was stale when the check came
      to it. */
  lemma HealImprovesIff(w: World, d: Deployment, cfg: Config, names: Names, oracle: string, sentinels: set<string>,
                        s: string, view: View, masterKey: string, nodes: seq<NodeResult>, trap: bool, p: Proc)
    requires Truthful(w, d) && names.Lawful() && OracleAmong(masterKey, nodes) && SameOracleAs(names, masterKey, oracle)
    requires CheckRun(w, cfg, names, s, view, masterKey, nodes, trap, p).counts[HealOk] > p.counts[HealOk]
    ensures Improves(d, names, oracle, sentinels, p, CheckRun(w, cfg, names, s, view, masterKey, nodes, trap, p))
            <==> s in StaleSet(d, p.hist, names, oracle, sentinels)
  {
    if s in StaleSet(d, p.hist, names, oracle, sentinels) {
      StaleCheckImproves(w, d, cfg, names, oracle, sentinels, s, view, masterKey, nodes, trap, p);
    } else {
      CheckEffect(w, d, cfg, names, oracle, s, view, masterKey, nodes, trap, p);
      var q := CheckRun(w, cfg, names, s, view, masterKey, nodes, trap, p);
      assert StaleSet(d, q.hist, names, oracle, sentinels) == StaleSet(d, p.hist, names, oracle, sentinels);
    }
  }

  /** When nothing is lost, what a check adds to heals and stale Sentinels together is one exactly if its heal is due
      and its Sentinel not stale, and nothing otherwise. */
  lemma DeliveredCheckCounts(w: World, d: Deployment, cfg: Config, names: Names, oracle: string, sentinels: set<string>,
                             s: string, view: View, masterKey: string, nodes: seq<NodeResult>, trap: bool, p: Proc)
    requires Truthful(w, d) && names.Lawful() && OracleAmong(masterKey, nodes) && SameOracleAs(names, masterKey, oracle)
    requires Delivers(w, d, p.hist) && names.monitorable(masterKey) && s in sentinels
    ensures var due := AttemptDue(w, cfg, names, s, view, masterKey, nodes, p);
            var extra := due && s !in StaleSet(d, p.hist, names, oracle, sentinels);
            Potential(d, names, oracle, sentinels, CheckRun(w, cfg, names, s, view, masterKey, nodes, trap, p))
            == Potential(d, names, oracle, sentinels, p) + if extra then 1 else 0
  {
    if AttemptDue(w, cfg, names, s, view, masterKey, nodes, p) {
      DueHeals(w, d, cfg, names, oracle, sentinels, s, view, masterKey, nodes, trap, p);
    } else {
      NotDueLeavesAll(w, d, cfg, names, oracle, s, view, masterKey, nodes, trap, p);
      SameEntriesImprove(d, names, oracle, sentinels, p, CheckRun(w, cfg, names, s, view, masterKey, nodes, trap, p));
    }
  }

  lemma DueHeals(w: World, d: Deployment, cfg: Config, names: Names, oracle: string, sentinels: set<string>, s: string,
                 view: View, masterKey: string, nodes: seq<NodeResult>, trap: bool, p: Proc)
    requires Truthful(w, d) && names.Lawful() && OracleAmong(masterKey, nodes) && SameOracleAs(names, masterKey, oracle)
    requires Delivers(w, d, p.hist) && names.monitorable(masterKey)
    requires AttemptDue(w, cfg, names, s, view, masterKey, nodes, p)
    ensures var q := CheckRun(w, cfg, names, s, view, masterKey, nodes, trap, p);
            && q.counts[HealOk] == p.counts[HealOk] + 1
            && StaleSet(d, q.hist, names, oracle, sentinels) == StaleSet(d, p.hist, names, oracle, sentinels) - {s}
  {
    StaleCheckHeals(w, d, cfg, names, s, view, masterKey, nodes, trap, p);
    CheckEffect(w, d, cfg, names, oracle, s, view, masterKey, nodes, trap, p);
  }

  /** A view that is true when the check comes to it makes a due heal a deserved one. */
  lemma FreshViewDeserves(w: World, d: Deployment, cfg: Config, names: Names, oracle: string, sentinels: set<string>,
                          s: string, view: View, masterKey: string, nodes: seq<NodeResult>, p: Proc)
    requires SameOracleAs(names, masterKey, oracle) && TrueView(d, p.hist, s, view) && s in sentinels
    requires AttemptDue(w, cfg, names, s, view, masterKey, nodes, p)
    ensures s in StaleSet(d, p.hist, names, oracle, sentinels)
  {}

  /** A check whose heal is not due changes no Sentinel and counts no heal. */
  lemma NotDueLeavesAll(w: World, d: Deployment, cfg: Config, names: Names, oracle: string, s: string, view: View,
                        masterKey: string, nodes: seq<NodeResult>, trap: bool, p: Proc)
    requires Truthful(w, d) && names.Lawful() && OracleAmong(masterKey, nodes)
    requires !AttemptDue(w, cfg, names, s, view, masterKey, nodes, p)
    ensures var q := CheckRun(w, cfg, names, s, view, masterKey, nodes, trap, p);
            q.counts[HealOk] == p.counts[HealOk] && forall x :: Entry(d, q.hist, x) == Entry(d, p.hist, x)
  {
    var q := CheckRun(w, cfg, names, s, view, masterKey, nodes, trap, p);
    HealGate(w, cfg, names, s, view, masterKey, nodes, trap, p);
    CheckWithoutAttempt(w, cfg, names, s, view, masterKey, nodes, trap, p);
    forall x ensures Entry(d, q.hist, x) == Entry(d, p.hist, x) { EntryFrame(d, p.hist, q.hist, {}, x); }
  }

  /** A check that is due only if its Sentinel is stale improves the deployment. */
  lemma DeservedCheckImproves(w: World, d: Deployment, cfg: Config, names: Names, oracle: string,
                              sentinels: set<string>, s: string, view: View, masterKey: string,
                              nodes: seq<NodeResult>, trap: bool, p: Proc)
    requires Truthful(w, d) && names.Lawful() && OracleAmong(masterKey, nodes) && SameOracleAs(names, masterKey, oracle)
    requires AttemptDue(w, cfg, names, s, view, masterKey, nodes, p) ==>
               s in StaleSet(d, p.hist, names, oracle, sentinels)
    ensures Improves(d, names, oracle, sentinels, p, CheckRun(w, cfg, names, s, view, masterKey, nodes, trap, p))
  {
    if s in StaleSet(d, p.hist, names, oracle, sentinels) {
      StaleCheckImproves(w, d, cfg, names, oracle, sentinels, s, view, masterKey, nodes, trap, p);
    } else {
      NotDueLeavesAll(w, d, cfg, names, oracle, s, view, masterKey, nodes, trap, p);
      SameEntriesImprove(d, names, oracle, sentinels, p, CheckRun(w, cfg, names, s, view, masterKey, nodes, trap, p));
    }
  }

  lemma SameEntriesImprove(d: Deployment, names: Names, oracle: string, sentinels: set<string>, p: Proc, q: Proc)
    requires q.counts[HealOk] == p.counts[HealOk] && forall x :: Entry(d, q.hist, x) == Entry(d, p.hist, x)
    ensures Improves(d, names, oracle, sentinels, p, q)
    ensures Potential(d, names, oracle, sentinels, q) == Potential(d, names, oracle, sentinels, p)
  {
    assert StaleSet(d, q.hist, names, oracle, sentinels) == StaleSet(d, p.hist, names, oracle, sentinels);
  }

  lemma LeasedWithoutAttempt(w: World, cfg: Config, names: Names, s: string, masterKey: string, plan: Plan, p: Proc)
    requires !plan.action.Failover?
    ensures var q := LeasedHeal(w, cfg, names, s, masterKey, plan, p);
            q.counts[HealAttempt] == p.counts[HealAttempt] ==> q.counts[HealOk] == p.counts[HealOk]
  {
    var l := LeaseRun(w, masterKey, cfg.leaseHolder, ApplyTtl(cfg), p.hist);
    var p1 := if cfg.healLease then p.(hist := l.hist).Inc(HealLeaseAcquired) else p;
    if plan.action.Monitor? && names.target(masterKey).Some? {
      Accounting.AttemptOutcome(w, cfg, names, s, masterKey, names.target(masterKey).value, plan, p1);
    }
  }

  lemma CheckWithoutAttempt(w: World, cfg: Config, names: Names, s: string, view: View, masterKey: string,
                            nodes: seq<NodeResult>, trap: bool, p: Proc)
    requires names.Lawful() && OracleAmong(masterKey, nodes)
    ensures var q := CheckRun(w, cfg, names, s, view, masterKey, nodes, trap, p);
            q.counts[HealAttempt] == p.counts[HealAttempt] ==> q.counts[HealOk] == p.counts[HealOk]
  {
    var advertised := Printed(view.host, view.port);
    if !view.err && !names.same(advertised, masterKey) && cfg.apply {
      var p1 := p.Inc(Diverge).(diverged := 1).Did(MasterInfo(s));
      var flags := FlagsOf(w.answer(p1.hist));
      DivergedPlan(names, advertised, masterKey, flags, nodes, trap, cfg.equalEpochEscalate);
      LeasedWithoutAttempt(w, cfg, names, s, masterKey,
                           PlanFor(names, advertised, masterKey, flags, nodes, trap, cfg.equalEpochEscalate), p1);
    }
  }

  // ----- ticks taken apart -----

  /** The parts of ticks: all up to the checks, and each check. */
  datatype Part = Begin(who: nat, facts: TickFacts) | Check(who: nat, facts: TickFacts, k: nat)

  /** A tick up to its checks. */
  function Begun(t: TickFacts, p: Proc): Proc {
    var p0 := Started(p);
    match t.found
    case NoSentinels => p0
    case NoRedis => p0.Inc(AlertNoRedis)
    case NoneWritable => p0.(writable := 0).Inc(AlertNoWritable)
    case ManyWritable(n) => p0.(writable := n).Inc(AlertDualMaster)
    case Unique(_) =>
      var p1 := p0.(writable := 1);
      if t.trap then p1.Inc(AlertEqualEpochTrap) else p1
  }

  predicate Checks(cfg: Config, t: TickFacts, k: nat) {
    Actable(cfg, t) && t.found.Unique? && k < CheckCount(cfg)
  }

  function CheckPart(w: World, cfg: Config, t: TickFacts, k: nat, p: Proc): Proc
    requires Checks(cfg, t, k)
  {
    CheckRun(w, cfg, t.obs.names, cfg.sentinelAddrs[k], t.obs.views[k], t.found.addr, t.nodes, t.trap, p)
  }

  /** The first n checks of a tick, after all up to them. */
  function PartsOf(w: World, cfg: Config, t: TickFacts, n: nat, p: Proc): Proc
    requires Actable(cfg, t) && (n > 0 ==> Checks(cfg, t, n - 1))
  {
    if n == 0 then Begun(t, p) else CheckPart(w, cfg, t, n - 1, PartsOf(w, cfg, t, n - 1, p))
  }

  lemma {:induction false} ChecksAreParts(w: World, cfg: Config, t: TickFacts, n: nat, p: Proc)
    requires Actable(cfg, t) && t.found.Unique? && n <= CheckCount(cfg)
    ensures PartsOf(w, cfg, t, n, p)
         == ChecksRun(w, cfg, t.obs, t.found.addr, t.nodes, t.trap, n, Begun(t, p))
  {
    if n > 0 { ChecksAreParts(w, cfg, t, n - 1, p); }
  }

  /** A tick is its parts. */
  lemma TickIsParts(w: World, cfg: Config, t: TickFacts, p: Proc)
    requires Actable(cfg, t)
    ensures TickRun(w, cfg, t, p) == PartsOf(w, cfg, t, if t.found.Unique? then CheckCount(cfg) else 0, p)
  {
    if t.found.Unique? { ChecksAreParts(w, cfg, t, CheckCount(cfg), p); }
  }

  // ----- parts of the ticks of any number of processes, in any order -----

  /** The part can be run: what its tick found is sound, and its views may be of any age. */
  ghost predicate Runnable(ms: seq<Member>, f: Fleet, part: Part) {
    && |ms| == |f.procs| && part.who < |ms| && Sound(ms[part.who].cfg, part.facts)
    && (part.Check? ==> Checks(ms[part.who].cfg, part.facts, part.k))
  }

  /** The part can be run, and what its tick found is true of the oracle. */
  ghost predicate Fitting(ms: seq<Member>, names: Names, oracle: string, sentinels: set<string>, f: Fleet, part: Part) {
    && Runnable(ms, f, part)
    && var cfg, t := ms[part.who].cfg, part.facts;
       && t.obs.names == names && (t.found.Unique? ==> SameOracleAs(names, t.found.addr, oracle))
       && (part.Check? ==> cfg.sentinelAddrs[part.k] in sentinels)
  }

  function At(f: Fleet, who: nat): Proc
    requires who < |f.procs|
  {
    f.procs[who].(hist := f.hist)
  }

  function RunPart(ms: seq<Member>, f: Fleet, part: Part): Fleet
    requires Runnable(ms, f, part)
  {
    var m, p := ms[part.who], At(f, part.who);
    var q := if part.Begin? then Begun(part.facts, p) else CheckPart(m.world, m.cfg, part.facts, part.k, p);
    Fleet(q.hist, f.procs[part.who := q])
  }

  /** The part is a check whose heal is due although its Sentinel is no longer stale. */
  ghost predicate Undeserved(d: Deployment, ms: seq<Member>, names: Names, oracle: string, sentinels: set<string>,
                             f: Fleet, part: Part)
    requires Fitting(ms, names, oracle, sentinels, f, part)
  {
    && part.Check?
    && var m, t := ms[part.who], part.facts;
       var s := m.cfg.sentinelAddrs[part.k];
       && s !in StaleSet(d, f.hist, names, oracle, sentinels)
       && AttemptDue(m.world, m.cfg, names, s, t.obs.views[part.k], t.found.addr, t.nodes, At(f, part.who))
  }

  /** The parts lead from f to g. */
  ghost predicate PartsRun(ms: seq<Member>, names: Names, oracle: string, sentinels: set<string>, f: Fleet,
                           parts: seq<Part>, g: Fleet)
    decreases parts
  {
    if parts == [] then f == g
    else
      && Fitting(ms, names, oracle, sentinels, f, parts[0])
      && PartsRun(ms, names, oracle, sentinels, RunPart(ms, f, parts[0]), parts[1..], g)
  }

  /** How many of the parts are undeserved heals. */
  ghost function UndeservedHeals(d: Deployment, ms: seq<Member>, names: Names, oracle: string, sentinels: set<string>,
                                 f: Fleet, parts: seq<Part>, g: Fleet): nat
    requires PartsRun(ms, names, oracle, sentinels, f, parts, g)
    decreases parts
  {
    if parts == [] then 0
    else
      (if Undeserved(d, ms, names, oracle, sentinels, f, parts[0]) then 1 else 0) +
      UndeservedHeals(d, ms, names, oracle, sentinels, RunPart(ms, f, parts[0]),
                      parts[1..], g)
  }

  /** Heals done by anyone, and stale Sentinels. */
  ghost function Total(d: Deployment, names: Names, oracle: string, sentinels: set<string>, f: Fleet): int {
    TotalHeals(f.procs) + |StaleSet(d, f.hist, names, oracle, sentinels)|
  }

  lemma BeginKeeps(d: Deployment, names: Names, oracle: string, sentinels: set<string>, t: TickFacts, p: Proc)
    ensures var q := Begun(t, p);
            && q.hist == p.hist + [Wake] && q.counts[HealOk] == p.counts[HealOk]
            && StaleSet(d, q.hist, names, oracle, sentinels) == StaleSet(d, p.hist, names, oracle, sentinels)
  {
    WakeKeepsEntries(d, p.hist);
  }

  lemma PartTotal(d: Deployment, ms: seq<Member>, names: Names, oracle: string, sentinels: set<string>, f: Fleet,
                  part: Part)
    requires Fitting(ms, names, oracle, sentinels, f, part)
    ensures var g := RunPart(ms, f, part);
            Total(d, names, oracle, sentinels, g) - Total(d, names, oracle, sentinels, f)
            == Potential(d, names, oracle, sentinels, g.procs[part.who])
               - Potential(d, names, oracle, sentinels, At(f, part.who))
  {
    var g := RunPart(ms, f, part);
    TotalUpdate(f.procs, part.who, g.procs[part.who]);
  }

  lemma PartImproves(d: Deployment, ms: seq<Member>, names: Names, oracle: string, sentinels: set<string>, f: Fleet,
                     part: Part)
    requires (forall m | m in ms :: Truthful(m.world, d)) && Fitting(ms, names, oracle, sentinels, f, part)
    requires !Undeserved(d, ms, names, oracle, sentinels, f, part)
    ensures Improves(d, names, oracle, sentinels, At(f, part.who),
                     RunPart(ms, f, part).procs[part.who])
  {
    var m, t, p := ms[part.who], part.facts, At(f, part.who);
    assert Truthful(m.world, d);
    if part.Begin? {
      BeginKeeps(d, names, oracle, sentinels, t, p);
    } else {
      DeservedCheckImproves(m.world, d, m.cfg, names, oracle, sentinels, m.cfg.sentinelAddrs[part.k],
                            t.obs.views[part.k], t.found.addr, t.nodes, t.trap, p);
    }
  }

  /** Over every run of single checks by any number of processes, on views of any age and in any order, in which no
      heal is due for a Sentinel that is not stale when the check comes to it: the set of stale Sentinels only shrinks,
      and no more heals succeed than Sentinels stop being stale, whatever is lost or refused on the way. */
  lemma {:induction false} DeservedConverges(d: Deployment, ms: seq<Member>, names: Names, oracle: string,
                                             sentinels: set<string>, f: Fleet, parts: seq<Part>, g: Fleet)
    requires forall m | m in ms :: Truthful(m.world, d)
    requires PartsRun(ms, names, oracle, sentinels, f, parts, g)
    requires UndeservedHeals(d, ms, names, oracle, sentinels, f, parts, g) == 0
    ensures StaleSet(d, g.hist, names, oracle, sentinels) <= StaleSet(d, f.hist, names, oracle, sentinels)
    ensures Total(d, names, oracle, sentinels, g) <= Total(d, names, oracle, sentinels, f)
    decreases parts
  {
    if parts != [] {
      PartImproves(d, ms, names, oracle, sentinels, f, parts[0]);
      PartTotal(d, ms, names, oracle, sentinels, f, parts[0]);
      DeservedConverges(d, ms, names, oracle, sentinels, RunPart(ms, f, parts[0]),
                        parts[1..], g);
    }
  }

  /** Every oracle that the parts work with can be monitored. */
  ghost predicate AllMonitorable(names: Names, parts: seq<Part>) {
    forall part | part in parts && part.facts.found.Unique? :: names.monitorable(part.facts.found.addr)
  }

  lemma PartGrows(ms: seq<Member>, f: Fleet, part: Part)
    requires Runnable(ms, f, part)
    ensures f.hist <= RunPart(ms, f, part).hist
  {
    if part.Check? {
      var m, t := ms[part.who], part.facts;
      CheckTouches(m.world, m.cfg, t.obs.names, m.cfg.sentinelAddrs[part.k], t.obs.views[part.k], t.found.addr,
                   t.nodes, t.trap, At(f, part.who));
    }
  }

  lemma DeliveredPart(d: Deployment, ms: seq<Member>, names: Names, oracle: string, sentinels: set<string>, f: Fleet,
                      part: Part)
    requires (forall m | m in ms :: Truthful(m.world, d) && Delivers(m.world, d, f.hist))
    requires Fitting(ms, names, oracle, sentinels, f, part)
    requires part.facts.found.Unique? ==> names.monitorable(part.facts.found.addr)
    ensures Potential(d, names, oracle, sentinels, RunPart(ms, f, part).procs[part.who])
         == Potential(d, names, oracle, sentinels, At(f, part.who))
            + if Undeserved(d, ms, names, oracle, sentinels, f, part) then 1 else 0
  {
    var m, t, p := ms[part.who], part.facts, At(f, part.who);
    assert Truthful(m.world, d) && Delivers(m.world, d, f.hist);
    if part.Begin? {
      BeginKeeps(d, names, oracle, sentinels, t, p);
    } else {
      DeliveredCheckCounts(m.world, d, m.cfg, names, oracle, sentinels, m.cfg.sentinelAddrs[part.k],
                           t.obs.views[part.k], t.found.addr, t.nodes, t.trap, p);
    }
  }

  lemma StillDelivers(ms: seq<Member>, d: Deployment, h: seq<Io>, h': seq<Io>)
    requires (forall m | m in ms :: Delivers(m.world, d, h)) && h <= h'
    ensures forall m | m in ms :: Delivers(m.world, d, h')
  {
    forall m | m in ms ensures Delivers(m.world, d, h') {
      assert Delivers(m.world, d, h);
    }
  }

  /** When nothing is lost, heals and stale Sentinels together grow by the undeserved heals, no more and no less. */
  lemma {:induction false} HealsCountedExactly(d: Deployment, ms: seq<Member>, names: Names, oracle: string,
                                               sentinels: set<string>, f: Fleet, parts: seq<Part>, g: Fleet)
    requires forall m | m in ms :: Truthful(m.world, d) && Delivers(m.world, d, f.hist)
    requires PartsRun(ms, names, oracle, sentinels, f, parts, g) && AllMonitorable(names, parts)
    ensures Total(d, names, oracle, sentinels, g)
         == Total(d, names, oracle, sentinels, f) + UndeservedHeals(d, ms, names, oracle, sentinels, f, parts, g)
    decreases parts
  {
    if parts != [] {
      assert parts[0] in parts;
      var f1 := RunPart(ms, f, parts[0]);
      DeliveredPart(d, ms, names, oracle, sentinels, f, parts[0]);
      PartTotal(d, ms, names, oracle, sentinels, f, parts[0]);
      PartGrows(ms, f, parts[0]);
      StillDelivers(ms, d, f.hist, f1.hist);
      HealsCountedExactly(d, ms, names, oracle, sentinels, f1, parts[1..], g);
    }
  }

  /** So the bound holds exactly when no heal was undeserved: whenever one was due, its Sentinel was still stale. */
  lemma BoundIffDeserved(d: Deployment, ms: seq<Member>, names: Names, oracle: string, sentinels: set<string>,
                         f: Fleet, parts: seq<Part>, g: Fleet)
    requires forall m | m in ms :: Truthful(m.world, d) && Delivers(m.world, d, f.hist)
    requires PartsRun(ms, names, oracle, sentinels, f, parts, g) && AllMonitorable(names, parts)
    ensures var unstaled := |StaleSet(d, f.hist, names, oracle, sentinels)|
                            - |StaleSet(d, g.hist, names, oracle, sentinels)|;
            TotalHeals(g.procs) - TotalHeals(f.procs) <= unstaled
            <==> UndeservedHeals(d, ms, names, oracle, sentinels, f, parts, g) == 0
  {
    HealsCountedExactly(d, ms, names, oracle, sentinels, f, parts, g);
  }
}
