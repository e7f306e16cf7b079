/** Processes that may share Sentinels, their single commands interleaved in one log: what bounds their heals. */
module SharedLog {
  import opened Text
  import opened Endpoint
  import opened NameBook
  import opened Oracle
  import opened HealPlan
  import opened Metrics
  import opened Process
  import opened TickOracle
  import opened HealTrace
  import opened Convergence
  import opened Interleave

  // ----- one process: a heal takes an accepted MONITOR of its own -----

  /** How many MONITORs of a history were not refused. */
  function Accepted(w: World, h: seq<Io>): nat {
    if h == [] then 0
    else Accepted(w, h[..|h| - 1]) + if h[|h| - 1].MonitorMaster? && !w.answer(h).Failed? then 1 else 0
  }

  /** A MONITOR is given the oracle. */
  predicate Aims(names: Names, oracle: string, io: Io) {
    io.MonitorMaster? ==> Advertises(names, Some(Target(io.ip, io.port)), oracle)
  }

  /** From p to q every MONITOR was given the oracle, and no more heals succeeded than MONITORs were accepted. */
  ghost predicate Pays(w: World, names: Names, oracle: string, p: Proc, q: Proc) {
    && p.hist <= q.hist && (forall i | |p.hist| <= i < |q.hist| :: Aims(names, oracle, q.hist[i]))
    && q.counts[HealOk] - p.counts[HealOk] <= Accepted(w, q.hist) - Accepted(w, p.hist)
  }

  lemma PaysStep(w: World, names: Names, oracle: string, p: Proc, q: Proc, r: Proc)
    requires Pays(w, names, oracle, p, q) && Pays(w, names, oracle, q, r)
    ensures Pays(w, names, oracle, p, r)
  {}

  ghost predicate NoMonitors(h: seq<Io>, h': seq<Io>) {
    h <= h' && forall i | |h| <= i < |h'| :: !h'[i].MonitorMaster?
  }

  lemma NoMonitorsStep(h: seq<Io>, h': seq<Io>, h'': seq<Io>)
    requires NoMonitors(h, h') && NoMonitors(h', h'')
    ensures NoMonitors(h, h'')
  {}

  lemma {:induction false} NoMonitorsKeep(w: World, h: seq<Io>, h': seq<Io>)
    requires NoMonitors(h, h')
    ensures Accepted(w, h') == Accepted(w, h)
    decreases |h'|
  {
    if |h'| > |h| {
      NoMonitorsKeep(w, h, h'[..|h'| - 1]);
    } else {
      assert h == h';
    }
  }

  lemma QuietPays(w: World, names: Names, oracle: string, p: Proc, q: Proc)
    requires NoMonitors(p.hist, q.hist) && q.counts[HealOk] == p.counts[HealOk]
    ensures Pays(w, names, oracle, p, q)
  {
    NoMonitorsKeep(w, p.hist, q.hist);
  }

  lemma AfterHeadNoMonitors(w: World, cfg: Config, names: Names, s: string, masterKey: string, target: Target,
                            reason: Reason, p: Proc)
    ensures NoMonitors(p.hist + MonitorHead(cfg, s, target),
                       MonitorRun(w, cfg, names, s, masterKey, target, reason, p).hist)
  {
    var h1 := p.hist + MonitorHead(cfg, s, target);
    var h2 := h1 + AuthCommands(s, ConfiguredAuth(cfg));
    assert NoMonitors(h1, h2);
    var v := Verify(w, names, s, masterKey, h2);
    assert NoMonitors(h2, v.hist);
    NoMonitorsStep(h1, h2, v.hist);
    var v2 := Verify(w, names, s, masterKey, v.hist + [ResetMaster(s)]);
    assert NoMonitors(v.hist, v2.hist);
    NoMonitorsStep(h1, v.hist, v2.hist);
  }

  lemma HeadAccepts(w: World, cfg: Config, s: string, target: Target, h: seq<Io>)
    ensures var h1 := h + MonitorHead(cfg, s, target);
            Accepted(w, h1) == Accepted(w, h) + if w.answer(h1).Failed? then 0 else 1
  {
    var h0 := h + [Remove(s)];
    var h1 := h + MonitorHead(cfg, s, target);
    assert h1[..|h1| - 1] == h0 && h0[..|h0| - 1] == h;
  }

  lemma MonitorHealsOnce(w: World, cfg: Config, names: Names, s: string, masterKey: string, target: Target,
                         reason: Reason, p: Proc)
    ensures var q := MonitorRun(w, cfg, names, s, masterKey, target, reason, p);
            q.counts[HealOk] - p.counts[HealOk]
              <= if w.answer(p.hist + MonitorHead(cfg, s, target)).Failed? then 0 else 1
  {}

  lemma MonitorPays(w: World, cfg: Config, names: Names, oracle: string, s: string, masterKey: string,
                    target: Target, reason: Reason, p: Proc)
    requires Advertises(names, Some(target), oracle)
    ensures Pays(w, names, oracle, p, MonitorRun(w, cfg, names, s, masterKey, target, reason, p))
  {
    var q := MonitorRun(w, cfg, names, s, masterKey, target, reason, p);
    var h1 := p.hist + MonitorHead(cfg, s, target);
    AfterHeadNoMonitors(w, cfg, names, s, masterKey, target, reason, p);
    NoMonitorsKeep(w, h1, q.hist);
    HeadAccepts(w, cfg, s, target, p.hist);
    MonitorHealsOnce(w, cfg, names, s, masterKey, target, reason, p);
    forall i | |p.hist| <= i < |q.hist| ensures Aims(names, oracle, q.hist[i]) {
      if i < |h1| { assert q.hist[i] == h1[i] == MonitorHead(cfg, s, target)[i - |p.hist|]; }
    }
  }

  /** The address can be monitored, and is the oracle. */
  ghost predicate IsOracle(names: Names, masterKey: string, oracle: string) {
    names.monitorable(masterKey) && SameOracleAs(names, masterKey, oracle)
  }

  lemma HealPays(w: World, cfg: Config, names: Names, oracle: string, s: string, masterKey: string, plan: Plan,
                 p: Proc)
    requires !plan.action.Failover? && names.Lawful() && IsOracle(names, masterKey, oracle)
    ensures Pays(w, names, oracle, p, HealRun(w, cfg, names, s, masterKey, plan, p))
  {
    if plan.action.Monitor? {
      var target := names.target(masterKey).value;
      var p1 := p.(lastHeal := Some(w.clock(p.hist))).Inc(HealAttempt);
      MonitorPays(w, cfg, names, oracle, s, masterKey, target, plan.reason, p1);
    }
  }

  lemma LeasedPays(w: World, cfg: Config, names: Names, oracle: string, s: string, masterKey: string, plan: Plan,
                   p: Proc)
    requires !plan.action.Failover? && names.Lawful() && IsOracle(names, masterKey, oracle)
    ensures Pays(w, names, oracle, p, LeasedHeal(w, cfg, names, s, masterKey, plan, p))
  {
    if !cfg.healLease {
      HealPays(w, cfg, names, oracle, s, masterKey, plan, p);
    } else {
      var l := LeaseRun(w, masterKey, cfg.leaseHolder, ApplyTtl(cfg), p.hist);
      var p1 := p.(hist := l.hist).Inc(HealLeaseAcquired);
      assert NoMonitors(p.hist, l.hist);
      QuietPays(w, names, oracle, p, p.(hist := l.hist));
      QuietPays(w, names, oracle, p, p1);
      HealPays(w, cfg, names, oracle, s, masterKey, plan, p1);
      PaysStep(w, names, oracle, p, p1, HealRun(w, cfg, names, s, masterKey, plan, p1));
    }
  }

  lemma ApplyPays(w: World, cfg: Config, names: Names, oracle: string, s: string, advertised: string,
                  masterKey: string, nodes: seq<NodeResult>, trap: bool, p: Proc)
    requires names.Lawful() && IsOracle(names, masterKey, oracle)
    requires OracleAmong(masterKey, nodes) && !names.same(advertised, masterKey)
    ensures Pays(w, names, oracle, p, ApplyRun(w, cfg, names, s, advertised, masterKey, nodes, trap, p))
  {
    var p1 := p.Did(MasterInfo(s));
    var flags := FlagsOf(w.answer(p1.hist));
    var plan := PlanFor(names, advertised, masterKey, flags, nodes, trap, cfg.equalEpochEscalate);
    QuietPays(w, names, oracle, p, p1);
    DivergedPlan(names, advertised, masterKey, flags, nodes, trap, cfg.equalEpochEscalate);
    LeasedPays(w, cfg, names, oracle, s, masterKey, plan, p1);
    PaysStep(w, names, oracle, p, p1, LeasedHeal(w, cfg, names, s, masterKey, plan, p1));
  }

  lemma CheckPays(w: World, cfg: Config, names: Names, oracle: string, s: string, view: View, masterKey: string,
                  nodes: seq<NodeResult>, trap: bool, p: Proc)
    requires names.Lawful() && IsOracle(names, masterKey, oracle) && OracleAmong(masterKey, nodes)
    ensures Pays(w, names, oracle, p, CheckRun(w, cfg, names, s, view, masterKey, nodes, trap, p))
  {
    var advertised := Printed(view.host, view.port);
    if !view.err && !names.same(advertised, masterKey) && cfg.apply {
      ApplyPays(w, cfg, names, oracle, s, advertised, masterKey, nodes, trap, p.Inc(Diverge).(diverged := 1));
    }
  }

  lemma {:induction false} ChecksPay(w: World, cfg: Config, t: TickFacts, oracle: string, k: nat, p: Proc)
    requires Sound(cfg, t) && t.found.Unique? && IsOracle(t.obs.names, t.found.addr, oracle) && k <= |t.obs.views|
    ensures Pays(w, t.obs.names, oracle, p, ChecksRun(w, cfg, t.obs, t.found.addr, t.nodes, t.trap, k, p))
  {
    if k > 0 {
      ChecksPay(w, cfg, t, oracle, k - 1, p);
      var q := ChecksRun(w, cfg, t.obs, t.found.addr, t.nodes, t.trap, k - 1, p);
      CheckPays(w, cfg, t.obs.names, oracle, cfg.sentinelAddrs[k - 1], t.obs.views[k - 1], t.found.addr, t.nodes,
                t.trap, q);
      PaysStep(w, t.obs.names, oracle, p, q, ChecksRun(w, cfg, t.obs, t.found.addr, t.nodes, t.trap, k, p));
    }
  }

  lemma FindingPays(w: World, cfg: Config, t: TickFacts, oracle: string, p: Proc)
    requires Sound(cfg, t) && (t.found.Unique? ==> IsOracle(t.obs.names, t.found.addr, oracle))
    ensures Pays(w, t.obs.names, oracle, p, FindingRun(w, cfg, t.obs, t.nodes, t.found, t.trap, p))
  {
    if t.found.Unique? {
      var p1 := p.(writable := 1);
      ChecksPay(w, cfg, t, oracle, CheckCount(cfg), if t.trap then p1.Inc(AlertEqualEpochTrap) else p1);
    }
  }

  lemma TickPays(w: World, cfg: Config, t: TickFacts, oracle: string, p: Proc)
    requires Sound(cfg, t) && (t.found.Unique? ==> IsOracle(t.obs.names, t.found.addr, oracle))
    ensures Pays(w, t.obs.names, oracle, p, TickRun(w, cfg, t, p))
  {
    QuietPays(w, t.obs.names, oracle, p, Started(p));
    FindingPays(w, cfg, t, oracle, Started(p));
    PaysStep(w, t.obs.names, oracle, p, Started(p), TickRun(w, cfg, t, p));
  }

  /** All ticks of the run work with one resolver, and what they find to be the oracle is the oracle. */
  ghost predicate KnowsOracle(run: seq<TickFacts>, names: Names, oracle: string) {
    forall t | t in run :: t.obs.names == names && (t.found.Unique? ==> IsOracle(names, t.found.addr, oracle))
  }

  /** Over any run a process is given no more successful heals than it had MONITORs accepted. */
  lemma {:induction false} RunPays(w: World, cfg: Config, run: seq<TickFacts>, names: Names, oracle: string, p: Proc)
    requires AllSound(cfg, run) && AllActable(cfg, run) && KnowsOracle(run, names, oracle)
    ensures Pays(w, names, oracle, p, RunOf(w, cfg, run, p))
  {
    if run != [] {
      var before, t := run[..|run| - 1], run[|run| - 1];
      assert Sound(cfg, t) && t in run;
      RunPays(w, cfg, before, names, oracle, p);
      TickPays(w, cfg, t, oracle, RunOf(w, cfg, before, p));
      PaysStep(w, names, oracle, p, RunOf(w, cfg, before, p), RunOf(w, cfg, run, p));
    }
  }

  // ----- the log -----

  /** The last command of the log is a MONITOR that was not refused. */
  predicate LastAccepted(xs: seq<Worker>, log: seq<Act>)
    requires log != [] && log[|log| - 1].who < |xs|
  {
    var a := log[|log| - 1];
    a.io.MonitorMaster? && !xs[a.who].world.answer(Own(log, a.who)).Failed?
  }

  /** The MONITORs that were not refused. */
  ghost function LogAccepted(xs: seq<Worker>, log: seq<Act>): nat
    requires forall k | 0 <= k < |log| :: log[k].who < |xs|
  {
    if log == [] then 0 else LogAccepted(xs, log[..|log| - 1]) + if LastAccepted(xs, log) then 1 else 0
  }

  /** The MONITORs that gave a Sentinel a master. */
  function Given(e: Shared, log: seq<Act>): nat {
    if log == [] then 0
    else
      var less, io := log[..|log| - 1], log[|log| - 1].io;
      Given(e, less) + if io.MonitorMaster? && e.applied(log) && LogEntry(e, less, io.sentinel).None? then 1 else 0
  }

  /** The REMOVEs that took the oracle from a Sentinel that advertised it. */
  function Spoiled(e: Shared, log: seq<Act>, names: Names, oracle: string): nat {
    if log == [] then 0
    else
      var less, io := log[..|log| - 1], log[|log| - 1].io;
      Spoiled(e, less, names, oracle) +
      if io.Remove? && e.applied(log) && Advertises(names, LogEntry(e, less, io.sentinel), oracle) then 1 else 0
  }

  /** Every MONITOR in the log is given the oracle, and only the given Sentinels are changed. */
  ghost predicate AimsWithin(log: seq<Act>, names: Names, oracle: string, sentinels: set<string>) {
    forall k | 0 <= k < |log| ::
      Aims(names, oracle, log[k].io) && (Mutating(log[k].io) ==> log[k].io.sentinel in sentinels)
  }

  lemma LastStale(e: Shared, log: seq<Act>, names: Names, oracle: string, sentinels: set<string>)
    requires log != [] && AimsWithin(log, names, oracle, sentinels)
    ensures var less, io := log[..|log| - 1], log[|log| - 1].io;
            var before := LogStale(e, less, names, oracle, sentinels);
            var after := LogStale(e, log, names, oracle, sentinels);
            if io.MonitorMaster? && e.applied(log) && LogEntry(e, less, io.sentinel).None? then
              io.sentinel in before && after == before - {io.sentinel}
            else if io.Remove? && e.applied(log) && Advertises(names, LogEntry(e, less, io.sentinel), oracle) then
              io.sentinel !in before && after == before + {io.sentinel}
            else after == before
  {
    var less, io := log[..|log| - 1], log[|log| - 1].io;
    assert Aims(names, oracle, io);
    forall s | s in sentinels && (!Mutating(io) || s != io.sentinel)
      ensures LogEntry(e, log, s) == LogEntry(e, less, s)
    {}
  }

  /** However the log came about: the stale Sentinels are those at first, less the MONITORs that gave a master, and more
      by the REMOVEs that took the oracle away. */
  lemma {:induction false} StaleBalance(e: Shared, log: seq<Act>, names: Names, oracle: string, sentinels: set<string>)
    requires AimsWithin(log, names, oracle, sentinels)
    ensures |LogStale(e, log, names, oracle, sentinels)| + Given(e, log)
         == |LogStale(e, [], names, oracle, sentinels)| + Spoiled(e, log, names, oracle)
  {
    if log != [] {
      StaleBalance(e, log[..|log| - 1], names, oracle, sentinels);
      LastStale(e, log, names, oracle, sentinels);
    }
  }

  /** A Sentinel that accepts a MONITOR had no master, and has one then. */
  ghost predicate AcceptsTruly(xs: seq<Worker>, e: Shared, log: seq<Act>) {
    forall k | 0 <= k < |log| && log[k].who < |xs| && log[k].io.MonitorMaster?
               && !xs[log[k].who].world.answer(Own(log[..k + 1], log[k].who)).Failed? ::
      e.applied(log[..k + 1]) && LogEntry(e, log[..k], log[k].io.sentinel).None?
  }

  lemma AcceptsLess(xs: seq<Worker>, e: Shared, log: seq<Act>)
    requires log != [] && AcceptsTruly(xs, e, log)
    ensures AcceptsTruly(xs, e, log[..|log| - 1])
  {
    var less := log[..|log| - 1];
    forall k | 0 <= k < |less| && less[k].who < |xs| && less[k].io.MonitorMaster?
               && !xs[less[k].who].world.answer(Own(less[..k + 1], less[k].who)).Failed?
      ensures e.applied(less[..k + 1]) && LogEntry(e, less[..k], less[k].io.sentinel).None?
    {
      assert less[..k + 1] == log[..k + 1] && less[..k] == log[..k] && log[k] == less[k];
    }
  }

  lemma {:induction false} AcceptedAreGiven(xs: seq<Worker>, e: Shared, log: seq<Act>)
    requires (forall k | 0 <= k < |log| :: log[k].who < |xs|) && AcceptsTruly(xs, e, log)
    ensures LogAccepted(xs, log) <= Given(e, log)
  {
    if log != [] {
      var n := |log| - 1;
      AcceptsLess(xs, e, log);
      AcceptedAreGiven(xs, e, log[..n]);
      assert log[..n + 1] == log;
    }
  }

  // ----- from the processes to the log -----

  ghost function AcceptedByEach(xs: seq<Worker>, log: seq<Act>): seq<int> {
    seq(|xs|, i requires 0 <= i < |xs| => Accepted(xs[i].world, Own(log, i)))
  }

  lemma {:induction false} SumUpdate(ns: seq<int>, i: nat, d: int)
    requires i < |ns|
    ensures Sum(ns[i := ns[i] + d]) == Sum(ns) + d
  {
    var n := |ns| - 1;
    if i < n {
      SumUpdate(ns[..n], i, d);
      assert ns[i := ns[i] + d][..n] == ns[..n][i := ns[i] + d];
    } else {
      assert ns[i := ns[i] + d][..n] == ns[..n];
    }
  }

  lemma {:induction false} SumZeros(ns: seq<int>)
    requires forall i | 0 <= i < |ns| :: ns[i] == 0
    ensures Sum(ns) == 0
  {
    if ns != [] { SumZeros(ns[..|ns| - 1]); }
  }

  lemma {:induction false} SumAtMost(ms: seq<int>, ns: seq<int>)
    requires |ms| == |ns| && forall i | 0 <= i < |ms| :: ms[i] <= ns[i]
    ensures Sum(ms) <= Sum(ns)
  {
    if ms != [] { SumAtMost(ms[..|ms| - 1], ns[..|ns| - 1]); }
  }

  lemma OwnLast(log: seq<Act>, i: nat)
    requires log != []
    ensures var a, less := log[|log| - 1], log[..|log| - 1];
            Own(log, i) == if a.who == i then Own(less, i) + [a.io] else Own(less, i)
  {
    assert Own(log[..|log| - 1], i) + [] == Own(log[..|log| - 1], i);
  }

  lemma EachAccepted(xs: seq<Worker>, log: seq<Act>)
    requires log != [] && log[|log| - 1].who < |xs|
    ensures var a, less := log[|log| - 1], log[..|log| - 1];
            var ns := AcceptedByEach(xs, less);
            AcceptedByEach(xs, log) == ns[a.who := ns[a.who] + if LastAccepted(xs, log) then 1 else 0]
  {
    var a, less := log[|log| - 1], log[..|log| - 1];
    forall i | 0 <= i < |xs|
      ensures i != a.who ==> AcceptedByEach(xs, log)[i] == AcceptedByEach(xs, less)[i]
    {
      OwnLast(log, i);
    }
    OwnLast(log, a.who);
    assert Own(log, a.who)[..|Own(log, a.who)| - 1] == Own(less, a.who);
  }

  lemma SumOfLast(xs: seq<Worker>, log: seq<Act>)
    requires log != [] && log[|log| - 1].who < |xs|
    ensures Sum(AcceptedByEach(xs, log))
         == Sum(AcceptedByEach(xs, log[..|log| - 1])) + if LastAccepted(xs, log) then 1 else 0
  {
    EachAccepted(xs, log);
    SumReplaced(AcceptedByEach(xs, log), AcceptedByEach(xs, log[..|log| - 1]), log[|log| - 1].who,
                if LastAccepted(xs, log) then 1 else 0);
  }

  lemma SumReplaced(ms: seq<int>, ns: seq<int>, i: nat, d: int)
    requires i < |ns| && ms == ns[i := ns[i] + d]
    ensures Sum(ms) == Sum(ns) + d
  {
    SumUpdate(ns, i, d);
  }

  lemma {:induction false} AcceptedAddUp(xs: seq<Worker>, log: seq<Act>)
    requires forall k | 0 <= k < |log| :: log[k].who < |xs|
    ensures Sum(AcceptedByEach(xs, log)) == LogAccepted(xs, log)
  {
    if log == [] {
      SumZeros(AcceptedByEach(xs, log));
    } else {
      AcceptedAddUp(xs, log[..|log| - 1]);
      SumOfLast(xs, log);
    }
  }

  /** The log is one of processes that know the oracle, on Sentinels that accept a MONITOR truly. */
  ghost predicate Shares(xs: seq<Worker>, e: Shared, log: seq<Act>, names: Names, oracle: string,
                                  sentinels: set<string>)
  {
    && Interleaves(xs, log) && AcceptsTruly(xs, e, log)
    && forall i | 0 <= i < |xs| :: KnowsOracle(xs[i].run, names, oracle) && Healable(xs[i].cfg) <= sentinels
  }

  lemma OwnAims(xs: seq<Worker>, e: Shared, log: seq<Act>, names: Names, oracle: string, sentinels: set<string>, k: nat)
    requires Shares(xs, e, log, names, oracle, sentinels) && k < |log|
    ensures Aims(names, oracle, log[k].io) && (Mutating(log[k].io) ==> log[k].io.sentinel in sentinels)
  {
    var i := log[k].who;
    var x := xs[i];
    assert Runs(x) && KnowsOracle(x.run, names, oracle) && Healable(x.cfg) <= sentinels;
    OwnIsHarmless(xs, log, k);
    RunPays(x.world, x.cfg, x.run, names, oracle, x.start);
    OwnHolds(log, k);
    var j :| 0 <= j < |Own(log, i)| && Own(log, i)[j] == log[k].io;
    assert End(x).hist[j] == log[k].io;
  }

  lemma OwnHealsPaid(xs: seq<Worker>, e: Shared, log: seq<Act>, names: Names, oracle: string, sentinels: set<string>,
                     i: nat)
    requires Shares(xs, e, log, names, oracle, sentinels) && i < |xs| && Own(log, i) == End(xs[i]).hist
    ensures Heals(xs)[i] <= AcceptedByEach(xs, log)[i]
  {
    var x := xs[i];
    assert Runs(x) && KnowsOracle(x.run, names, oracle);
    RunPays(x.world, x.cfg, x.run, names, oracle, x.start);
  }

  /** However the single commands of processes interleave that may share Sentinels, on views of any age: when their
      ticks are over, no more heals have succeeded than Sentinels stopped being stale and REMOVEs took the oracle from
      a Sentinel that advertised it. */
  lemma HealsArePaidFor(xs: seq<Worker>, e: Shared, log: seq<Act>, names: Names, oracle: string,
                        sentinels: set<string>)
    requires Shares(xs, e, log, names, oracle, sentinels)
    requires forall i | 0 <= i < |xs| :: Own(log, i) == End(xs[i]).hist
    ensures Sum(Heals(xs)) + |LogStale(e, log, names, oracle, sentinels)|
         <= |LogStale(e, [], names, oracle, sentinels)| + Spoiled(e, log, names, oracle)
  {
    forall k | 0 <= k < |log|
      ensures Aims(names, oracle, log[k].io) && (Mutating(log[k].io) ==> log[k].io.sentinel in sentinels)
    {
      OwnAims(xs, e, log, names, oracle, sentinels, k);
    }
    forall i | 0 <= i < |xs| ensures Heals(xs)[i] <= AcceptedByEach(xs, log)[i] {
      OwnHealsPaid(xs, e, log, names, oracle, sentinels, i);
    }
    SumAtMost(Heals(xs), AcceptedByEach(xs, log));
    AcceptedAddUp(xs, log);
    AcceptedAreGiven(xs, e, log);
    StaleBalance(e, log, names, oracle, sentinels);
  }
}
