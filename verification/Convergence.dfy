/** Sentinels that answer truthfully and are changed by commands alone: the number of them that do not
    advertise the oracle never rises, falls with every successful heal, and at zero nothing is sent. */
module Convergence {
  import opened Text
  import opened Endpoint
  import opened NameBook
  import opened Oracle
  import opened HealPlan
  import opened Metrics
  import opened Process
  import opened Accounting
  import opened TickOracle
  import opened HealTrace
  import opened Fleets

  // ----- Sentinels as state -----

  /** The masters the Sentinels monitor at first, and whether the command that ends a history took effect:
      a command may be lost, and its effect is independent of whether an answer came back. */
  datatype Deployment = Deployment(initial: string -> Option<Target>, applied: seq<Io> -> bool)

  /** What Sentinel s monitors after a history: REMOVE forgets the master, MONITOR sets one only where
      there is none, and nothing else matters. */
  function Entry(d: Deployment, h: seq<Io>, s: string): Option<Target> {
    if h == [] then d.initial(s)
    else
      var before, io := Entry(d, h[..|h| - 1], s), h[|h| - 1];
      if io == Remove(s) && d.applied(h) then None
      else if io.MonitorMaster? && io.sentinel == s && d.applied(h) && before.None? then Some(Target(io.ip, io.port))
      else before
  }

  /** A Sentinel that names a master names the one it monitors; it may also fail to answer. */
  ghost predicate Truthful(w: World, d: Deployment) {
    forall h, s :: w.answer(h + [GetMasterAddr(s)]).Address? ==>
      var r := w.answer(h + [GetMasterAddr(s)]);
      Entry(d, h, s) == Some(Target(r.host, r.port))
  }

  predicate Advertises(names: Names, entry: Option<Target>, oracle: string) {
    entry.Some? && names.same(Printed(entry.value.ip, entry.value.port), oracle)
  }

  /** The Sentinels that do not advertise the oracle. */
  function StaleSet(d: Deployment, h: seq<Io>, names: Names, oracle: string, sentinels: set<string>): set<string> {
    set s | s in sentinels && !Advertises(names, Entry(d, h, s), oracle)
  }

  /** A view taken at the start of a tick. */
  predicate TrueView(d: Deployment, h: seq<Io>, s: string, view: View) {
    !view.err ==> Entry(d, h, s) == Some(Target(view.host, view.port))
  }

  lemma {:induction false} EntryFrame(d: Deployment, h: seq<Io>, h': seq<Io>, sentinels: set<string>, s: string)
    requires Touches(h, h', sentinels) && s !in sentinels
    ensures Entry(d, h', s) == Entry(d, h, s)
    decreases |h'|
  {
    if |h'| > |h| {
      EntryFrame(d, h, h'[..|h'| - 1], sentinels, s);
    } else {
      assert h == h';
    }
  }

  lemma HealedEntry(w: World, d: Deployment, names: Names, s: string, masterKey: string, h: seq<Io>)
    requires Truthful(w, d) && EndsHealed(w, names, s, masterKey, h)
    ensures Advertises(names, Entry(d, h, s), masterKey)
  {
    var h1 := h[..|h| - 1];
    var h0 := h1[..|h1| - 1];
    assert h1 == h0 + [GetMasterAddr(s)];
    assert Entry(d, h, s) == Entry(d, h1, s) == Entry(d, h0, s);
  }

  // ----- one check -----

  lemma HealOkTrace(w: World, cfg: Config, names: Names, s: string, masterKey: string, plan: Plan, p: Proc)
    requires !plan.action.Failover?
    ensures var q := HealRun(w, cfg, names, s, masterKey, plan, p);
            && (q.counts[HealOk] == p.counts[HealOk]
                || (q.counts[HealOk] == p.counts[HealOk] + 1 && EndsHealed(w, names, s, masterKey, q.hist)))
  {
    HealGrammar(w, cfg, names, s, masterKey, plan, p);
    if plan.action.Monitor? && names.target(masterKey).Some? {
      AttemptOutcome(w, cfg, names, s, masterKey, names.target(masterKey).value, plan, p);
    }
  }

  lemma LeasedOkTrace(w: World, cfg: Config, names: Names, s: string, masterKey: string, plan: Plan, p: Proc)
    requires !plan.action.Failover?
    ensures var q := LeasedHeal(w, cfg, names, s, masterKey, plan, p);
            && (q.counts[HealOk] == p.counts[HealOk]
                || (q.counts[HealOk] == p.counts[HealOk] + 1 && EndsHealed(w, names, s, masterKey, q.hist)))
  {
    HealOkTrace(w, cfg, names, s, masterKey, plan, p);
    var l := LeaseRun(w, masterKey, cfg.leaseHolder, ApplyTtl(cfg), p.hist);
    HealOkTrace(w, cfg, names, s, masterKey, plan, p.(hist := l.hist).Inc(HealLeaseAcquired));
  }

  lemma ApplyOkTrace(w: World, cfg: Config, names: Names, s: string, advertised: string, masterKey: string,
                     nodes: seq<NodeResult>, trap: bool, p: Proc)
    requires names.Lawful() && OracleAmong(masterKey, nodes) && !names.same(advertised, masterKey)
    ensures var q := ApplyRun(w, cfg, names, s, advertised, masterKey, nodes, trap, p);
            && (q.counts[HealOk] == p.counts[HealOk]
                || (q.counts[HealOk] == p.counts[HealOk] + 1 && EndsHealed(w, names, s, masterKey, q.hist)))
  {
    var p1 := p.Did(MasterInfo(s));
    var flags := FlagsOf(w.answer(p1.hist));
    DivergedPlan(names, advertised, masterKey, flags, nodes, trap, cfg.equalEpochEscalate);
    LeasedOkTrace(w, cfg, names, s, masterKey,
                  PlanFor(names, advertised, masterKey, flags, nodes, trap, cfg.equalEpochEscalate), p1);
  }

  lemma CheckOkTrace(w: World, cfg: Config, names: Names, s: string, view: View, masterKey: string,
                     nodes: seq<NodeResult>, trap: bool, p: Proc)
    requires names.Lawful() && OracleAmong(masterKey, nodes)
    ensures var q := CheckRun(w, cfg, names, s, view, masterKey, nodes, trap, p);
            && (q.counts[HealOk] == p.counts[HealOk]
                || (q.counts[HealOk] == p.counts[HealOk] + 1 && EndsHealed(w, names, s, masterKey, q.hist)))
  {
    var advertised := Printed(view.host, view.port);
    if !view.err && !names.same(advertised, masterKey) && cfg.apply {
      ApplyOkTrace(w, cfg, names, s, advertised, masterKey, nodes, trap, p.Inc(Diverge).(diverged := 1));
    }
  }

  /** What a tick takes for the oracle is the oracle. */
  ghost predicate SameOracleAs(names: Names, masterKey: string, oracle: string) {
    forall a :: names.same(a, masterKey) <==> names.same(a, oracle)
  }

  /** A check, on a view of any age, changes no other Sentinel, and when it counts a heal its Sentinel then advertises
      the oracle. */
  lemma CheckEffect(w: World, d: Deployment, cfg: Config, names: Names, oracle: string, s: string, view: View,
                    masterKey: string, nodes: seq<NodeResult>, trap: bool, p: Proc)
    requires Truthful(w, d) && names.Lawful() && OracleAmong(masterKey, nodes) && SameOracleAs(names, masterKey, oracle)
    ensures var q := CheckRun(w, cfg, names, s, view, masterKey, nodes, trap, p);
            && (forall x :: x != s ==> Entry(d, q.hist, x) == Entry(d, p.hist, x))
            && (q.counts[HealOk] == p.counts[HealOk]
                || (q.counts[HealOk] == p.counts[HealOk] + 1 && Advertises(names, Entry(d, q.hist, s), oracle)))
  {
    var q := CheckRun(w, cfg, names, s, view, masterKey, nodes, trap, p);
    forall x | x != s ensures Entry(d, q.hist, x) == Entry(d, p.hist, x) {
      CheckLeavesOthers(w, d, cfg, names, s, view, masterKey, nodes, trap, x, p);
    }
    CheckOkTrace(w, cfg, names, s, view, masterKey, nodes, trap, p);
    if q.counts[HealOk] > p.counts[HealOk] { HealedEntry(w, d, names, s, masterKey, q.hist); }
  }

  /** A check leaves a Sentinel that advertises the oracle alone, touches no other, and when it counts
      a heal the Sentinel it checked was stale and no longer is. */
  lemma CheckConverges(w: World, d: Deployment, cfg: Config, names: Names, oracle: string, s: string, view: View,
                       masterKey: string, nodes: seq<NodeResult>, trap: bool, p: Proc)
    requires Truthful(w, d) && names.Lawful() && OracleAmong(masterKey, nodes) && SameOracleAs(names, masterKey, oracle)
    requires TrueView(d, p.hist, s, view)
    ensures var q := CheckRun(w, cfg, names, s, view, masterKey, nodes, trap, p);
            && (forall x :: x != s ==> Entry(d, q.hist, x) == Entry(d, p.hist, x))
            && (view.err || Advertises(names, Entry(d, p.hist, s), oracle) ==>
                  q.hist == p.hist && q.counts[HealOk] == p.counts[HealOk])
            && (q.counts[HealOk] == p.counts[HealOk]
                || (q.counts[HealOk] == p.counts[HealOk] + 1 && Advertises(names, Entry(d, q.hist, s), oracle)))
  {
    CheckEffect(w, d, cfg, names, oracle, s, view, masterKey, nodes, trap, p);
  }

  // ----- one tick -----

  /** Stale Sentinels plus heals done: what the theorem bounds. */
  function Potential(d: Deployment, names: Names, oracle: string, sentinels: set<string>, p: Proc): int {
    |StaleSet(d, p.hist, names, oracle, sentinels)| + p.counts[HealOk]
  }

  /** From p to q no Sentinel became stale, and no more heals succeeded than Sentinels stopped being stale. */
  ghost predicate Improves(d: Deployment, names: Names, oracle: string, sentinels: set<string>, p: Proc, q: Proc) {
    && StaleSet(d, q.hist, names, oracle, sentinels) <= StaleSet(d, p.hist, names, oracle, sentinels)
    && Potential(d, names, oracle, sentinels, q) <= Potential(d, names, oracle, sentinels, p)
  }

  lemma CheckLowersPotential(w: World, d: Deployment, cfg: Config, names: Names, oracle: string,
                             sentinels: set<string>, s: string, view: View, masterKey: string,
                             nodes: seq<NodeResult>, trap: bool, p: Proc)
    requires Truthful(w, d) && names.Lawful() && OracleAmong(masterKey, nodes) && SameOracleAs(names, masterKey, oracle)
    requires TrueView(d, p.hist, s, view) && s in sentinels
    ensures var q := CheckRun(w, cfg, names, s, view, masterKey, nodes, trap, p);
            Improves(d, names, oracle, sentinels, p, q)
  {
    CheckConverges(w, d, cfg, names, oracle, s, view, masterKey, nodes, trap, p);
    var q := CheckRun(w, cfg, names, s, view, masterKey, nodes, trap, p);
    var before, after := StaleSet(d, p.hist, names, oracle, sentinels), StaleSet(d, q.hist, names, oracle, sentinels);
    assert after <= before;
    SubsetCardinality(after, before);
    if q.counts[HealOk] > p.counts[HealOk] {
      assert s in before && s !in after;
    }
  }

  ghost predicate Distinct(xs: seq<string>) { forall i, j :: 0 <= i < j < |xs| ==> xs[i] != xs[j] }

  /** The Sentinels a tick checks. */
  function Watched(cfg: Config): seq<string> {
    if cfg.sentinelAddrs == [] then [] else cfg.sentinelAddrs[..CheckCount(cfg)]
  }

  /** The tick's facts fit the deployment: the views are what the Sentinels it checks monitor, none is checked twice,
      and a unique writable Redis is the oracle. */
  ghost predicate Fits(d: Deployment, cfg: Config, oracle: string, sentinels: set<string>, t: TickFacts, h: seq<Io>) {
    && Sound(cfg, t) && Distinct(Watched(cfg))
    && (forall i :: 0 <= i < |Watched(cfg)| ==>
          Watched(cfg)[i] in sentinels && TrueView(d, h, Watched(cfg)[i], t.obs.views[i]))
    && (t.found.Unique? ==> SameOracleAs(t.obs.names, t.found.addr, oracle))
  }

  /** The first k checks leave the Sentinels of the later ones alone. */
  lemma {:induction false} ChecksLeaveRest(w: World, d: Deployment, cfg: Config, oracle: string, sentinels: set<string>,
                                           t: TickFacts, k: nat, j: nat, p: Proc)
    requires Fits(d, cfg, oracle, sentinels, t, p.hist) && t.found.Unique? && k <= j < |Watched(cfg)|
    ensures var q := ChecksRun(w, cfg, t.obs, t.found.addr, t.nodes, t.trap, k, p);
            Entry(d, q.hist, Watched(cfg)[j]) == Entry(d, p.hist, Watched(cfg)[j])
  {
    if k > 0 {
      ChecksLeaveRest(w, d, cfg, oracle, sentinels, t, k - 1, j, p);
      var q := ChecksRun(w, cfg, t.obs, t.found.addr, t.nodes, t.trap, k - 1, p);
      var s := Watched(cfg)[k - 1];
      assert s != Watched(cfg)[j];
      CheckLeavesOthers(w, d, cfg, t.obs.names, s, t.obs.views[k - 1], t.found.addr, t.nodes, t.trap,
                        Watched(cfg)[j], q);
    }
  }

  lemma CheckLeavesOthers(w: World, d: Deployment, cfg: Config, names: Names, s: string, view: View, masterKey: string,
                          nodes: seq<NodeResult>, trap: bool, x: string, p: Proc)
    requires names.Lawful() && OracleAmong(masterKey, nodes) && x != s
    ensures Entry(d, CheckRun(w, cfg, names, s, view, masterKey, nodes, trap, p).hist, x) == Entry(d, p.hist, x)
  {
    CheckTouches(w, cfg, names, s, view, masterKey, nodes, trap, p);
    EntryFrame(d, p.hist, CheckRun(w, cfg, names, s, view, masterKey, nodes, trap, p).hist,
               if cfg.apply && !GlobalApplyBarred(cfg) then {s} else {}, x);
  }

  lemma ImprovesStep(d: Deployment, names: Names, oracle: string, sentinels: set<string>, p: Proc, q: Proc, r: Proc)
    requires Improves(d, names, oracle, sentinels, p, q) && Improves(d, names, oracle, sentinels, q, r)
    ensures Improves(d, names, oracle, sentinels, p, r)
  {}

  lemma NextCheckImproves(w: World, d: Deployment, cfg: Config, oracle: string, sentinels: set<string>, t: TickFacts,
                          k: nat, p: Proc)
    requires Truthful(w, d) && Fits(d, cfg, oracle, sentinels, t, p.hist) && t.found.Unique? && k < |Watched(cfg)|
    ensures Improves(d, t.obs.names, oracle, sentinels,
                     ChecksRun(w, cfg, t.obs, t.found.addr, t.nodes, t.trap, k, p),
                     ChecksRun(w, cfg, t.obs, t.found.addr, t.nodes, t.trap, k + 1, p))
  {
    ChecksLeaveRest(w, d, cfg, oracle, sentinels, t, k, k, p);
    assert TrueView(d, p.hist, Watched(cfg)[k], t.obs.views[k]) && Watched(cfg)[k] in sentinels;
    CheckLowersPotential(w, d, cfg, t.obs.names, oracle, sentinels, Watched(cfg)[k], t.obs.views[k], t.found.addr,
                         t.nodes, t.trap, ChecksRun(w, cfg, t.obs, t.found.addr, t.nodes, t.trap, k, p));
  }

  lemma {:induction false} ChecksConverge(w: World, d: Deployment, cfg: Config, oracle: string, sentinels: set<string>,
                                          t: TickFacts, k: nat, p: Proc)
    requires Truthful(w, d) && Fits(d, cfg, oracle, sentinels, t, p.hist) && t.found.Unique?
    requires k <= |Watched(cfg)|
    ensures Improves(d, t.obs.names, oracle, sentinels, p,
                     ChecksRun(w, cfg, t.obs, t.found.addr, t.nodes, t.trap, k, p))
  {
    if k > 0 {
      ChecksConverge(w, d, cfg, oracle, sentinels, t, k - 1, p);
      NextCheckImproves(w, d, cfg, oracle, sentinels, t, k - 1, p);
      ImprovesStep(d, t.obs.names, oracle, sentinels, p,
                   ChecksRun(w, cfg, t.obs, t.found.addr, t.nodes, t.trap, k - 1, p),
                   ChecksRun(w, cfg, t.obs, t.found.addr, t.nodes, t.trap, k, p));
    }
  }

  lemma WakeKeepsEntries(d: Deployment, h: seq<Io>)
    ensures forall s :: Entry(d, h + [Wake], s) == Entry(d, h, s)
  {
    assert (h + [Wake])[..|h|] == h;
  }

  lemma FitsAfterWake(d: Deployment, cfg: Config, oracle: string, sentinels: set<string>, t: TickFacts, h: seq<Io>)
    requires Fits(d, cfg, oracle, sentinels, t, h)
    ensures Fits(d, cfg, oracle, sentinels, t, h + [Wake])
    ensures StaleSet(d, h + [Wake], t.obs.names, oracle, sentinels) == StaleSet(d, h, t.obs.names, oracle, sentinels)
  {
    WakeKeepsEntries(d, h);
  }

  lemma ActConverges(w: World, d: Deployment, cfg: Config, oracle: string, sentinels: set<string>, t: TickFacts,
                     p: Proc)
    requires Truthful(w, d) && Fits(d, cfg, oracle, sentinels, t, p.hist) && t.found.Unique?
    ensures var q := ActRun(w, cfg, t.obs, t.found.addr, t.nodes, t.trap, p);
            Improves(d, t.obs.names, oracle, sentinels, p, q)
  {
    ChecksConverge(w, d, cfg, oracle, sentinels, t, CheckCount(cfg), if t.trap then p.Inc(AlertEqualEpochTrap) else p);
  }

  lemma FindingConverges(w: World, d: Deployment, cfg: Config, oracle: string, sentinels: set<string>, t: TickFacts,
                         p: Proc)
    requires Truthful(w, d) && Fits(d, cfg, oracle, sentinels, t, p.hist)
    ensures var q := FindingRun(w, cfg, t.obs, t.nodes, t.found, t.trap, p);
            Improves(d, t.obs.names, oracle, sentinels, p, q)
  {
    var q := FindingRun(w, cfg, t.obs, t.nodes, t.found, t.trap, p);
    if !t.found.Unique? {
      assert q.hist == p.hist && q.counts[HealOk] == p.counts[HealOk];
    } else {
      ActConverges(w, d, cfg, oracle, sentinels, t, p.(writable := 1));
    }
  }

  lemma TickConverges(w: World, d: Deployment, cfg: Config, oracle: string, sentinels: set<string>, t: TickFacts,
                      p: Proc)
    requires Truthful(w, d) && Fits(d, cfg, oracle, sentinels, t, p.hist)
    ensures var q := TickRun(w, cfg, t, p);
            Improves(d, t.obs.names, oracle, sentinels, p, q)
  {
    FitsAfterWake(d, cfg, oracle, sentinels, t, p.hist);
    FindingConverges(w, d, cfg, oracle, sentinels, t, Started(p));
  }

  lemma {:induction false} NothingStaleNothingSent(w: World, d: Deployment, cfg: Config, oracle: string,
                                                   sentinels: set<string>, t: TickFacts, k: nat, p: Proc)
    requires Truthful(w, d) && Fits(d, cfg, oracle, sentinels, t, p.hist) && t.found.Unique?
    requires StaleSet(d, p.hist, t.obs.names, oracle, sentinels) == {} && k <= |Watched(cfg)|
    ensures ChecksRun(w, cfg, t.obs, t.found.addr, t.nodes, t.trap, k, p).hist == p.hist
  {
    if k > 0 {
      NothingStaleNothingSent(w, d, cfg, oracle, sentinels, t, k - 1, p);
      var s := Watched(cfg)[k - 1];
      assert TrueView(d, p.hist, s, t.obs.views[k - 1]) && s in sentinels;
      assert s !in StaleSet(d, p.hist, t.obs.names, oracle, sentinels);
      CheckConverges(w, d, cfg, t.obs.names, oracle, s, t.obs.views[k - 1], t.found.addr, t.nodes, t.trap,
                     ChecksRun(w, cfg, t.obs, t.found.addr, t.nodes, t.trap, k - 1, p));
    }
  }

  // ----- only the stale are touched -----

  /** A check of a Sentinel that may be touched, or that did not answer, or that advertised the oracle when its view was
      taken and was left alone since. */
  lemma CheckTouchesStale(w: World, d: Deployment, cfg: Config, names: Names, oracle: string, stale: set<string>,
                          s: string, view: View, masterKey: string, nodes: seq<NodeResult>, trap: bool, h: seq<Io>,
                          p: Proc)
    requires Truthful(w, d) && names.Lawful() && OracleAmong(masterKey, nodes) && SameOracleAs(names, masterKey, oracle)
    requires TrueView(d, h, s, view) && (s in stale || view.err || Advertises(names, Entry(d, h, s), oracle))
    requires Touches(h, p.hist, stale)
    ensures Touches(p.hist, CheckRun(w, cfg, names, s, view, masterKey, nodes, trap, p).hist, stale)
  {
    if s in stale {
      CheckTouches(w, cfg, names, s, view, masterKey, nodes, trap, p);
    } else if !view.err {
      EntryFrame(d, h, p.hist, stale, s);
      CheckConverges(w, d, cfg, names, oracle, s, view, masterKey, nodes, trap, p);
    }
  }

  /** The k-th check has a true view, and a Sentinel that may be touched, did not answer, or advertises the oracle. */
  predicate Spared(d: Deployment, cfg: Config, t: TickFacts, oracle: string, stale: set<string>, h: seq<Io>, k: nat)
    requires OneViewEach(cfg, t.obs) && k < |Watched(cfg)|
  {
    var s, view := Watched(cfg)[k], t.obs.views[k];
    TrueView(d, h, s, view) && (s in stale || view.err || Advertises(t.obs.names, Entry(d, h, s), oracle))
  }

  lemma {:induction false} ChecksTouchStale(w: World, d: Deployment, cfg: Config, oracle: string, stale: set<string>,
                                            t: TickFacts, k: nat, p: Proc)
    requires Truthful(w, d) && OneViewEach(cfg, t.obs) && t.obs.names.Lawful() && k <= |Watched(cfg)|
    requires t.found.Unique? && OracleAmong(t.found.addr, t.nodes) && SameOracleAs(t.obs.names, t.found.addr, oracle)
    requires forall j | 0 <= j < |Watched(cfg)| :: Spared(d, cfg, t, oracle, stale, p.hist, j)
    ensures Touches(p.hist, ChecksRun(w, cfg, t.obs, t.found.addr, t.nodes, t.trap, k, p).hist, stale)
  {
    if k > 0 {
      ChecksTouchStale(w, d, cfg, oracle, stale, t, k - 1, p);
      var q := ChecksRun(w, cfg, t.obs, t.found.addr, t.nodes, t.trap, k - 1, p);
      assert Spared(d, cfg, t, oracle, stale, p.hist, k - 1);
      CheckTouchesStale(w, d, cfg, t.obs.names, oracle, stale, Watched(cfg)[k - 1], t.obs.views[k - 1], t.found.addr,
                        t.nodes, t.trap, p.hist, q);
      TouchesStep(p.hist, q.hist, ChecksRun(w, cfg, t.obs, t.found.addr, t.nodes, t.trap, k, p).hist, stale);
    }
  }

  lemma FindingTouchesStale(w: World, d: Deployment, cfg: Config, oracle: string, sentinels: set<string>, t: TickFacts,
                            p: Proc)
    requires Truthful(w, d) && Fits(d, cfg, oracle, sentinels, t, p.hist)
    ensures Touches(p.hist, FindingRun(w, cfg, t.obs, t.nodes, t.found, t.trap, p).hist,
                    StaleSet(d, p.hist, t.obs.names, oracle, sentinels))
  {
    if t.found.Unique? {
      var p1 := p.(writable := 1);
      ChecksTouchStale(w, d, cfg, oracle, StaleSet(d, p.hist, t.obs.names, oracle, sentinels), t, CheckCount(cfg),
                       if t.trap then p1.Inc(AlertEqualEpochTrap) else p1);
    }
  }

  /** A tick changes no Sentinel that advertises the oracle. */
  lemma TickTouchesStale(w: World, d: Deployment, cfg: Config, oracle: string, sentinels: set<string>, t: TickFacts,
                         p: Proc)
    requires Truthful(w, d) && Fits(d, cfg, oracle, sentinels, t, p.hist)
    ensures Touches(p.hist, TickRun(w, cfg, t, p).hist, StaleSet(d, p.hist, t.obs.names, oracle, sentinels))
  {
    FitsAfterWake(d, cfg, oracle, sentinels, t, p.hist);
    FindingTouchesStale(w, d, cfg, oracle, sentinels, t, Started(p));
    WakeTouches(p.hist, TickRun(w, cfg, t, p).hist, StaleSet(d, p.hist, t.obs.names, oracle, sentinels));
  }

  // ----- any number of processes -----

  /** The moves lead from f to g, one tick at a time, each fitting the deployment as it then was. */
  ghost predicate Undisturbed(d: Deployment, ms: seq<Member>, names: Names, oracle: string, sentinels: set<string>,
                              f: Fleet, moves: seq<Move>, g: Fleet)
    decreases moves
  {
    if moves == [] then f == g
    else
      var m := moves[0];
      && Legal(ms, f, m) && m.facts.obs.names == names
      && Fits(d, ms[m.who].cfg, oracle, sentinels, m.facts, f.hist)
      && Undisturbed(d, ms, names, oracle, sentinels, FleetStep(ms, f, m), moves[1..], g)
  }

  function TotalHeals(procs: seq<Proc>): int {
    if procs == [] then 0 else procs[0].counts[HealOk] + TotalHeals(procs[1..])
  }

  lemma {:induction false} TotalUpdate(procs: seq<Proc>, i: nat, q: Proc)
    requires i < |procs|
    ensures TotalHeals(procs[i := q]) == TotalHeals(procs) + q.counts[HealOk] - procs[i].counts[HealOk]
  {
    if i == 0 {
      assert procs[i := q][1..] == procs[1..];
    } else {
      TotalUpdate(procs[1..], i - 1, q);
      assert procs[i := q][1..] == procs[1..][i - 1 := q];
    }
  }

  /** Over every undisturbed run of any number of processes, whatever is lost or refused on the way: the set of stale
      Sentinels only shrinks, and no more heals succeed than Sentinels stop being stale. */
  lemma {:induction false} FleetConverges(d: Deployment, ms: seq<Member>, names: Names, oracle: string,
                                          sentinels: set<string>, f: Fleet, moves: seq<Move>, g: Fleet)
    requires forall m | m in ms :: Truthful(m.world, d)
    requires Undisturbed(d, ms, names, oracle, sentinels, f, moves, g)
    ensures StaleSet(d, g.hist, names, oracle, sentinels) <= StaleSet(d, f.hist, names, oracle, sentinels)
    ensures TotalHeals(g.procs) - TotalHeals(f.procs)
         <= |StaleSet(d, f.hist, names, oracle, sentinels)| - |StaleSet(d, g.hist, names, oracle, sentinels)|
    decreases moves
  {
    if moves != [] {
      var m := moves[0];
      var p := f.procs[m.who].(hist := f.hist);
      TickConverges(ms[m.who].world, d, ms[m.who].cfg, oracle, sentinels, m.facts, p);
      var f1 := FleetStep(ms, f, m);
      TotalUpdate(f.procs, m.who, f1.procs[m.who]);
      FleetConverges(d, ms, names, oracle, sentinels, f1, moves[1..], g);
    }
  }

  /** h' continues h with nothing but the timers that start ticks. */
  ghost predicate OnlyWakes(h: seq<Io>, h': seq<Io>) { h <= h' && forall i | |h| <= i < |h'| :: h'[i].Wake? }

  /** Once every Sentinel advertises the oracle, no process ever sends anything again. */
  lemma {:induction false} ConvergedStaysQuiet(d: Deployment, ms: seq<Member>, names: Names, oracle: string,
                                               sentinels: set<string>, f: Fleet, moves: seq<Move>, g: Fleet)
    requires forall m | m in ms :: Truthful(m.world, d)
    requires Undisturbed(d, ms, names, oracle, sentinels, f, moves, g)
    requires StaleSet(d, f.hist, names, oracle, sentinels) == {}
    ensures OnlyWakes(f.hist, g.hist)
    decreases moves
  {
    if moves != [] {
      var m := moves[0];
      var w, cfg, t := ms[m.who].world, ms[m.who].cfg, m.facts;
      var p := f.procs[m.who].(hist := f.hist);
      var f1 := FleetStep(ms, f, m);
      TickConverges(w, d, cfg, oracle, sentinels, t, p);
      QuietTick(w, d, cfg, oracle, sentinels, t, p);
      ConvergedStaysQuiet(d, ms, names, oracle, sentinels, f1, moves[1..], g);
    }
  }

  lemma QuietFinding(w: World, d: Deployment, cfg: Config, oracle: string, sentinels: set<string>, t: TickFacts,
                     p: Proc)
    requires Truthful(w, d) && Fits(d, cfg, oracle, sentinels, t, p.hist)
    requires StaleSet(d, p.hist, t.obs.names, oracle, sentinels) == {}
    ensures FindingRun(w, cfg, t.obs, t.nodes, t.found, t.trap, p).hist == p.hist
  {
    if t.found.Unique? {
      var p1 := p.(writable := 1);
      NothingStaleNothingSent(w, d, cfg, oracle, sentinels, t, CheckCount(cfg),
                              if t.trap then p1.Inc(AlertEqualEpochTrap) else p1);
    }
  }

  lemma QuietTick(w: World, d: Deployment, cfg: Config, oracle: string, sentinels: set<string>, t: TickFacts, p: Proc)
    requires Truthful(w, d) && Fits(d, cfg, oracle, sentinels, t, p.hist)
    requires StaleSet(d, p.hist, t.obs.names, oracle, sentinels) == {}
    ensures TickRun(w, cfg, t, p).hist == p.hist + [Wake]
  {
    FitsAfterWake(d, cfg, oracle, sentinels, t, p.hist);
    QuietFinding(w, d, cfg, oracle, sentinels, t, Started(p));
  }

  // ----- how a Sentinel loses its master -----

  lemma VerifyKeepsEntry(w: World, d: Deployment, names: Names, s: string, masterKey: string, h: seq<Io>, x: string)
    ensures Entry(d, Verify(w, names, s, masterKey, h).hist, x) == Entry(d, h, x)
  {
    var h1 := h + [GetMasterAddr(s)];
    var h2 := h1 + [WriteProbe(masterKey)];
    assert h1[..|h|] == h && h2[..|h1|] == h1;
  }

  lemma ResetKeepsEntry(w: World, d: Deployment, names: Names, s: string, masterKey: string, h: seq<Io>, x: string)
    ensures Entry(d, Verify(w, names, s, masterKey, h + [ResetMaster(s)]).hist, x) == Entry(d, h, x)
  {
    assert (h + [ResetMaster(s)])[..|h|] == h;
    VerifyKeepsEntry(w, d, names, s, masterKey, h + [ResetMaster(s)], x);
  }

  /** After REMOVE and MONITOR nothing in a heal changes what the Sentinel monitors. */
  lemma HeadDecidesEntry(w: World, d: Deployment, cfg: Config, names: Names, s: string, masterKey: string,
                         target: Target, reason: Reason, p: Proc)
    ensures Entry(d, MonitorRun(w, cfg, names, s, masterKey, target, reason, p).hist, s)
         == Entry(d, p.hist + MonitorHead(cfg, s, target), s)
  {
    var h1 := p.hist + MonitorHead(cfg, s, target);
    var h2 := h1 + AuthCommands(s, ConfiguredAuth(cfg));
    AuthKeepsEntry(d, h1, s, s, ConfiguredAuth(cfg));
    VerifyKeepsEntry(w, d, names, s, masterKey, h2, s);
    ResetKeepsEntry(w, d, names, s, masterKey, Verify(w, names, s, masterKey, h2).hist, s);
  }

  /** Whatever is answered, a heal by MONITOR leaves the Sentinel without a master exactly
      when its MONITOR did not take effect and its REMOVE did, or it had none before. */
  lemma MonitorLosesEntryIff(w: World, d: Deployment, cfg: Config, names: Names, s: string, masterKey: string,
                             target: Target, reason: Reason, p: Proc)
    ensures Entry(d, MonitorRun(w, cfg, names, s, masterKey, target, reason, p).hist, s).None? <==>
            && !d.applied(p.hist + MonitorHead(cfg, s, target))
            && (d.applied(p.hist + [Remove(s)]) || Entry(d, p.hist, s).None?)
  {
    HeadDecidesEntry(w, d, cfg, names, s, masterKey, target, reason, p);
    var h1 := p.hist + [Remove(s)];
    var h2 := p.hist + MonitorHead(cfg, s, target);
    assert h2[..|h2| - 1] == h1 && h1[..|p.hist|] == p.hist;
  }

  /** In particular a refused MONITOR counts as a failed heal, and loses the entry unless it took effect all the
      same. */
  lemma FailedMonitorLosesEntry(w: World, d: Deployment, cfg: Config, names: Names, s: string, masterKey: string,
                                target: Target, reason: Reason, p: Proc)
    requires w.answer(p.hist + MonitorHead(cfg, s, target)).Failed?
    ensures var q := MonitorRun(w, cfg, names, s, masterKey, target, reason, p);
            && q.counts == Bump(p.counts, HealFail)
            && (Entry(d, q.hist, s).None? <==>
                  && !d.applied(p.hist + MonitorHead(cfg, s, target))
                  && (d.applied(p.hist + [Remove(s)]) || Entry(d, p.hist, s).None?))
  {
    MonitorLosesEntryIff(w, d, cfg, names, s, masterKey, target, reason, p);
  }

  // ----- progress -----

  /** Nothing is lost from here on: commands take effect and are answered, Sentinels answer what they
      monitor, and the oracle takes writes. */
  ghost predicate Delivers(w: World, d: Deployment, from: seq<Io>) {
    && (forall h :: from <= h ==> d.applied(h))
    && (forall h, s {:trigger w.answer(h + [GetMasterAddr(s)])} :: from <= h && Entry(d, h, s).Some? ==>
          w.answer(h + [GetMasterAddr(s)]) == Address(Entry(d, h, s).value.ip, Entry(d, h, s).value.port))
    && (forall h, s, ip, port, n {:trigger w.answer(h + [MonitorMaster(s, ip, port, n)])} ::
          from <= h && Entry(d, h, s).None? ==> !w.answer(h + [MonitorMaster(s, ip, port, n)]).Failed?)
    && (forall h, a {:trigger w.answer(h + [WriteProbe(a)])} :: from <= h ==>
          w.answer(h + [WriteProbe(a)]) == Probed(Master, true))
  }

  lemma {:induction false} AuthKeepsEntry(d: Deployment, h: seq<Io>, s: string, x: string, kvs: seq<(AuthOption,
                                          string)>)
    ensures Entry(d, h + AuthCommands(s, kvs), x) == Entry(d, h, x)
  {
    if kvs == [] {
      assert h + AuthCommands(s, kvs) == h;
    } else {
      var rest := kvs[..|kvs| - 1];
      AuthKeepsEntry(d, h, s, x, rest);
      var g := h + AuthCommands(s, kvs);
      assert g[..|g| - 1] == h + AuthCommands(s, rest);
    }
  }

  lemma EntryAfterMonitor(d: Deployment, h: seq<Io>, cfg: Config, s: string, target: Target)
    requires forall g :: h <= g ==> d.applied(g)
    ensures Entry(d, h + [Remove(s)], s).None?
    ensures Entry(d, h + MonitorHead(cfg, s, target), s) == Some(target)
  {
    var h1 := h + [Remove(s)];
    var h2 := h + MonitorHead(cfg, s, target);
    assert h1[..|h1| - 1] == h && h2[..|h2| - 1] == h1;
    assert h <= h1 && h <= h2;
  }

  lemma DeliveredMonitor(w: World, d: Deployment, h: seq<Io>, cfg: Config, s: string, target: Target, from: seq<Io>)
    requires Delivers(w, d, from) && from <= h
    ensures !w.answer(h + MonitorHead(cfg, s, target)).Failed?
    ensures Entry(d, h + MonitorHead(cfg, s, target), s) == Some(target)
  {
    EntryAfterMonitor(d, h, cfg, s, target);
    var h1 := h + [Remove(s)];
    assert h + MonitorHead(cfg, s, target) == h1 + [MonitorMaster(s, target.ip, target.port, cfg.quorum)];
  }

  lemma DeliveredVerify(w: World, d: Deployment, names: Names, s: string, masterKey: string, from: seq<Io>, h: seq<Io>)
    requires names.Lawful() && names.target(masterKey).Some? && Delivers(w, d, from) && from <= h
    requires Entry(d, h, s) == names.target(masterKey)
    ensures var v := Verify(w, names, s, masterKey, h);
            && (v.ok <==> names.monitorable(masterKey))
            && from <= v.hist && Entry(d, v.hist, s) == Entry(d, h, s)
  {
    var target := names.target(masterKey).value;
    var h1 := h + [GetMasterAddr(s)];
    var h2 := h1 + [WriteProbe(masterKey)];
    assert w.answer(h1) == Address(target.ip, target.port);
    assert h1[..|h|] == h && h2[..|h1|] == h1;
    assert w.answer(h2) == Probed(Master, true);
  }

  lemma DeliveredReset(w: World, d: Deployment, names: Names, s: string, masterKey: string, from: seq<Io>, h: seq<Io>)
    requires names.Lawful() && names.target(masterKey).Some? && Delivers(w, d, from) && from <= h
    requires Entry(d, h, s) == names.target(masterKey)
    ensures var v := Verify(w, names, s, masterKey, h + [ResetMaster(s)]);
            (v.ok <==> names.monitorable(masterKey)) && Entry(d, v.hist, s) == Entry(d, h, s)
  {
    var h1 := h + [ResetMaster(s)];
    assert h1[..|h1| - 1] == h;
    DeliveredVerify(w, d, names, s, masterKey, from, h1);
  }

  /** From a Sentinel that monitors the oracle's target, both verifications of a heal say whether the oracle can be
      monitored. */
  lemma DeliveredVerdicts(w: World, d: Deployment, names: Names, s: string, masterKey: string, from: seq<Io>,
                          h: seq<Io>)
    requires names.Lawful() && names.target(masterKey).Some? && Delivers(w, d, from) && from <= h
    requires Entry(d, h, s) == names.target(masterKey)
    ensures var v := Verify(w, names, s, masterKey, h);
            && (v.ok <==> names.monitorable(masterKey))
            && (Verify(w, names, s, masterKey, v.hist + [ResetMaster(s)]).ok <==> names.monitorable(masterKey))
  {
    DeliveredVerify(w, d, names, s, masterKey, from, h);
    DeliveredReset(w, d, names, s, masterKey, from, Verify(w, names, s, masterKey, h).hist);
  }

  lemma DeliveredHealCounts(w: World, d: Deployment, cfg: Config, names: Names, s: string, masterKey: string,
                            reason: Reason, from: seq<Io>, p: Proc)
    requires names.Lawful() && names.target(masterKey).Some? && Delivers(w, d, from) && from <= p.hist
    ensures MonitorRun(w, cfg, names, s, masterKey, names.target(masterKey).value, reason, p).counts
         == Bump(p.counts, if names.monitorable(masterKey) then HealOk else HealFail)
  {
    var target := names.target(masterKey).value;
    var h2 := p.hist + MonitorHead(cfg, s, target);
    DeliveredMonitor(w, d, p.hist, cfg, s, target, from);
    AuthKeepsEntry(d, h2, s, s, ConfiguredAuth(cfg));
    DeliveredVerdicts(w, d, names, s, masterKey, from, h2 + AuthCommands(s, ConfiguredAuth(cfg)));
  }

  /** When nothing is lost, a heal by MONITOR succeeds exactly if the oracle has an IPv4 target and a canonical port,
      and leaves the Sentinel monitoring the oracle's target either way. */
  lemma DeliveredHealIff(w: World, d: Deployment, cfg: Config, names: Names, s: string, masterKey: string,
                         reason: Reason, from: seq<Io>, p: Proc)
    requires names.Lawful() && names.target(masterKey).Some? && Delivers(w, d, from) && from <= p.hist
    ensures var q := MonitorRun(w, cfg, names, s, masterKey, names.target(masterKey).value, reason, p);
            && q.counts == Bump(p.counts, if names.monitorable(masterKey) then HealOk else HealFail)
            && Entry(d, q.hist, s) == names.target(masterKey)
            && (Advertises(names, Entry(d, q.hist, s), masterKey) <==> names.monitorable(masterKey))
  {
    var target := names.target(masterKey).value;
    DeliveredHealCounts(w, d, cfg, names, s, masterKey, reason, from, p);
    DeliveredMonitor(w, d, p.hist, cfg, s, target, from);
    HeadDecidesEntry(w, d, cfg, names, s, masterKey, target, reason, p);
  }

  lemma DeliveredLeasedHeal(w: World, d: Deployment, cfg: Config, names: Names, s: string, masterKey: string,
                            plan: Plan, from: seq<Io>, p: Proc)
    requires names.Lawful() && names.monitorable(masterKey) && Delivers(w, d, from) && from <= p.hist
    requires plan.action.Monitor?
    requires cfg.healLease ==> LeaseRun(w, masterKey, cfg.leaseHolder, ApplyTtl(cfg), p.hist).verdict.LeaseGranted?
    ensures var q := LeasedHeal(w, cfg, names, s, masterKey, plan, p);
            q.counts[HealOk] == p.counts[HealOk] + 1 && Advertises(names, Entry(d, q.hist, s), masterKey)
  {
    var l := LeaseRun(w, masterKey, cfg.leaseHolder, ApplyTtl(cfg), p.hist);
    var p1 := if cfg.healLease then p.(hist := l.hist).Inc(HealLeaseAcquired) else p;
    LeaseTouches(w, masterKey, cfg.leaseHolder, ApplyTtl(cfg), p.hist);
    DeliveredHealIff(w, d, cfg, names, s, masterKey, plan.reason, from,
                     p1.(lastHeal := Some(w.clock(p1.hist))).Inc(HealAttempt));
  }

  /** A check of a stale Sentinel that is due heals it when nothing is lost. */
  lemma StaleCheckHeals(w: World, d: Deployment, cfg: Config, names: Names, s: string, view: View, masterKey: string,
                        nodes: seq<NodeResult>, trap: bool, p: Proc)
    requires names.Lawful() && OracleAmong(masterKey, nodes) && names.monitorable(masterKey)
    requires AttemptDue(w, cfg, names, s, view, masterKey, nodes, p) && Delivers(w, d, p.hist)
    ensures var q := CheckRun(w, cfg, names, s, view, masterKey, nodes, trap, p);
            q.counts[HealOk] == p.counts[HealOk] + 1 && Advertises(names, Entry(d, q.hist, s), masterKey)
  {
    var advertised := Printed(view.host, view.port);
    var p1 := p.Inc(Diverge).(diverged := 1).Did(MasterInfo(s));
    var flags := FlagsOf(w.answer(p1.hist));
    MonitorIff(names, advertised, masterKey, flags, nodes, trap, cfg.equalEpochEscalate);
    DeliveredLeasedHeal(w, d, cfg, names, s, masterKey,
                        PlanFor(names, advertised, masterKey, flags, nodes, trap, cfg.equalEpochEscalate), p.hist, p1);
  }
}
