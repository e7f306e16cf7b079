/** What a process may send to Sentinels, over any run and whatever they answer. */
module HealTrace {
  import opened Text
  import opened Endpoint
  import opened NameBook
  import opened Oracle
  import opened HealPlan
  import opened Metrics
  import opened Process
  import opened Accounting
  import opened TickOracle

  // ----- the grammar of one heal -----

  predicate SentinelCommand(io: Io) { Mutating(io) || io.GetMasterAddr? }

  /** The commands a Sentinel sees. */
  function Commands(h: seq<Io>): seq<Io> {
    if h == [] then []
    else Commands(h[..|h| - 1]) + if SentinelCommand(h[|h| - 1]) then [h[|h| - 1]] else []
  }

  lemma {:induction false} CommandsAppend(a: seq<Io>, b: seq<Io>)
    ensures Commands(a + b) == Commands(a) + Commands(b)
  {
    if b == [] {
      assert a + b == a;
    } else {
      CommandsAppend(a, b[..|b| - 1]);
      assert (a + b)[..|a + b| - 1] == a + b[..|b| - 1];
    }
  }

  lemma {:induction false} CommandsOnly(h: seq<Io>)
    requires forall io | io in h :: SentinelCommand(io)
    ensures Commands(h) == h
  {
    if h != [] {
      CommandsOnly(h[..|h| - 1]);
      assert h == h[..|h| - 1] + [h[|h| - 1]];
    }
  }

  /** The last answers of a history: the Sentinel named the oracle, and the oracle, as a master, took a write. */
  predicate EndsHealed(w: World, names: Names, s: string, masterKey: string, h: seq<Io>) {
    && |h| >= 2
    && h[|h| - 1] == WriteProbe(masterKey) && w.answer(h) == Probed(Master, true)
    && h[|h| - 2] == GetMasterAddr(s)
    && var r := w.answer(h[..|h| - 1]);
       r.Address? && names.same(r.host + ":" + Itoa(r.port), masterKey)
  }

  lemma CommandsSnoc(h: seq<Io>, io: Io)
    ensures Commands(h + [io]) == Commands(h) + if SentinelCommand(io) then [io] else []
  {
    assert (h + [io])[..|h|] == h;
  }

  lemma VerifyEnds(w: World, names: Names, s: string, masterKey: string, h: seq<Io>)
    requires Verify(w, names, s, masterKey, h).ok
    ensures EndsHealed(w, names, s, masterKey, Verify(w, names, s, masterKey, h).hist)
  {
    var h1 := h + [GetMasterAddr(s)];
    assert (h1 + [WriteProbe(masterKey)])[..|h1|] == h1;
  }

  lemma VerifyTrace(w: World, names: Names, s: string, masterKey: string, h: seq<Io>)
    ensures Commands(Verify(w, names, s, masterKey, h).hist) == Commands(h) + [GetMasterAddr(s)]
  {
    var h1 := h + [GetMasterAddr(s)];
    CommandsSnoc(h, GetMasterAddr(s));
    CommandsSnoc(h1, WriteProbe(masterKey));
    assert Commands(h1) + [] == Commands(h1);
  }

  /** The credentials a Sentinel is given: its own pair when any part of it is set, else the probe's; the user
      first; an empty part is not sent. */
  function AuthScript(cfg: Config, s: string): seq<Io> {
    var c := if cfg.sentinelAuth == Credentials("", "") then cfg.probeAuth else cfg.sentinelAuth;
    (if c.user == "" then [] else [SetAuth(s, AuthUser, c.user)]) +
    (if c.pass == "" then [] else [SetAuth(s, AuthPass, c.pass)])
  }

  /** The commands of a full heal by MONITOR. */
  function MonitorScript(cfg: Config, s: string, target: Target): seq<Io> {
    [Remove(s), MonitorMaster(s, target.ip, target.port, cfg.quorum)] + AuthScript(cfg, s) + [GetMasterAddr(s)]
  }

  lemma AuthFollowsScript(cfg: Config, s: string)
    ensures AuthCommands(s, ConfiguredAuth(cfg)) == AuthScript(cfg, s)
  {
    var c := MasterAuth(cfg.probeAuth, cfg.sentinelAuth);
    assert c == if cfg.sentinelAuth == Credentials("", "") then cfg.probeAuth else cfg.sentinelAuth;
    if c.user != "" && c.pass != "" {
      assert AuthAfterMonitor(c) == [(AuthUser, c.user), (AuthPass, c.pass)];
    }
  }

  lemma CommandsThen(h: seq<Io>, sent: seq<Io>)
    requires forall io | io in sent :: SentinelCommand(io)
    ensures Commands(h + sent) == Commands(h) + sent
  {
    CommandsAppend(h, sent);
    CommandsOnly(sent);
  }

  lemma HeadSent(cfg: Config, s: string, target: Target, h: seq<Io>)
    ensures Commands(h + MonitorHead(cfg, s, target)) == Commands(h) + MonitorHead(cfg, s, target)
  {
    CommandsThen(h, MonitorHead(cfg, s, target));
  }

  lemma AuthSent(cfg: Config, s: string, h: seq<Io>)
    ensures Commands(h + AuthCommands(s, ConfiguredAuth(cfg))) == Commands(h) + AuthScript(cfg, s)
  {
    AuthFollowsScript(cfg, s);
    CommandsThen(h, AuthScript(cfg, s));
  }

  lemma ScriptSent(cfg: Config, s: string, target: Target, h: seq<Io>)
    ensures var h1 := h + MonitorHead(cfg, s, target);
            && Commands(h1) == Commands(h) + MonitorHead(cfg, s, target)
            && Commands(h1 + AuthCommands(s, ConfiguredAuth(cfg))) + [GetMasterAddr(s)]
               == Commands(h) + MonitorScript(cfg, s, target)
  {
    HeadSent(cfg, s, target, h);
    AuthSent(cfg, s, h + MonitorHead(cfg, s, target));
    Regroup(Commands(h), MonitorHead(cfg, s, target), AuthScript(cfg, s), [GetMasterAddr(s)]);
  }

  lemma Regroup(a: seq<Io>, b: seq<Io>, c: seq<Io>, d: seq<Io>)
    ensures a + b + c + d == a + (b + c + d)
  {}

  /** What a Sentinel is sent in a heal by MONITOR: REMOVE and MONITOR alone exactly when MONITOR is refused; the
      credentials and a GET too exactly when that verifies or the advertised address was a live replica; and after
      a failed verification otherwise, RESET and another GET. */
  function MonitorCommands(w: World, cfg: Config, names: Names, s: string, masterKey: string, target: Target,
                           reason: Reason, h: seq<Io>): seq<Io>
  {
    var full := MonitorScript(cfg, s, target);
    var h1 := h + full[..2];
    if w.answer(h1).Failed? then full[..2]
    else if Verify(w, names, s, masterKey, h1 + AuthScript(cfg, s)).ok || reason.LiveNonOracle? then full
    else full + [ResetMaster(s), GetMasterAddr(s)]
  }

  lemma ResetTrace(w: World, names: Names, s: string, masterKey: string, h: seq<Io>)
    ensures var v := Verify(w, names, s, masterKey, h + [ResetMaster(s)]);
            Commands(v.hist) == Commands(h) + [ResetMaster(s), GetMasterAddr(s)]
  {
    CommandsSnoc(h, ResetMaster(s));
    VerifyTrace(w, names, s, masterKey, h + [ResetMaster(s)]);
  }

  lemma VerifiedTrace(w: World, names: Names, s: string, masterKey: string, h: seq<Io>)
    ensures var v := Verify(w, names, s, masterKey, h);
            && Commands(v.hist) == Commands(h) + [GetMasterAddr(s)]
            && Commands(Verify(w, names, s, masterKey, v.hist + [ResetMaster(s)]).hist)
               == Commands(h) + [GetMasterAddr(s)] + [ResetMaster(s), GetMasterAddr(s)]
  {
    VerifyTrace(w, names, s, masterKey, h);
    ResetTrace(w, names, s, masterKey, Verify(w, names, s, masterKey, h).hist);
  }

  lemma ScriptHead(cfg: Config, s: string, target: Target)
    ensures MonitorScript(cfg, s, target)[..2] == MonitorHead(cfg, s, target)
  {}

  lemma Assoc(a: seq<Io>, b: seq<Io>, c: seq<Io>)
    ensures a + b + c == a + (b + c)
  {}

  lemma MonitorTrace(w: World, cfg: Config, names: Names, s: string, masterKey: string, target: Target,
                     reason: Reason, p: Proc)
    ensures Commands(MonitorRun(w, cfg, names, s, masterKey, target, reason, p).hist)
         == Commands(p.hist) + MonitorCommands(w, cfg, names, s, masterKey, target, reason, p.hist)
  {
    ScriptHead(cfg, s, target);
    AuthFollowsScript(cfg, s);
    ScriptSent(cfg, s, target, p.hist);
    VerifiedTrace(w, names, s, masterKey, p.hist + MonitorHead(cfg, s, target) + AuthCommands(s, ConfiguredAuth(cfg)));
    Assoc(Commands(p.hist), MonitorScript(cfg, s, target), [ResetMaster(s), GetMasterAddr(s)]);
  }

  lemma MonitorEnds(w: World, cfg: Config, names: Names, s: string, masterKey: string, target: Target,
                    reason: Reason, p: Proc)
    ensures var q := MonitorRun(w, cfg, names, s, masterKey, target, reason, p);
            q.counts[HealOk] > p.counts[HealOk] ==> EndsHealed(w, names, s, masterKey, q.hist)
  {
    var h2 := p.hist + MonitorHead(cfg, s, target) + AuthCommands(s, ConfiguredAuth(cfg));
    var v := Verify(w, names, s, masterKey, h2);
    if v.ok { VerifyEnds(w, names, s, masterKey, h2); }
    if Verify(w, names, s, masterKey, v.hist + [ResetMaster(s)]).ok {
      VerifyEnds(w, names, s, masterKey, v.hist + [ResetMaster(s)]);
    }
  }

  /** A heal that is not a FAILOVER sends nothing, or exactly what MonitorCommands says. It counts as healed only if
      its last GET named the oracle and the write probe that followed was accepted. */
  lemma HealGrammar(w: World, cfg: Config, names: Names, s: string, masterKey: string, plan: Plan, p: Proc)
    requires !plan.action.Failover?
    ensures var q := HealRun(w, cfg, names, s, masterKey, plan, p);
            var attempted := plan.action.Monitor? && names.target(masterKey).Some?;
            && (!attempted ==> q.hist == p.hist && q.lastHeal == p.lastHeal && q.counts[HealOk] == p.counts[HealOk])
            && (attempted ==>
                  Commands(q.hist) == Commands(p.hist)
                    + MonitorCommands(w, cfg, names, s, masterKey, names.target(masterKey).value, plan.reason, p.hist))
            && (q.counts[HealOk] > p.counts[HealOk] ==> EndsHealed(w, names, s, masterKey, q.hist))
  {
    if plan.action.Monitor? && names.target(masterKey).Some? {
      var p1 := p.(lastHeal := Some(w.clock(p.hist))).Inc(HealAttempt);
      MonitorTrace(w, cfg, names, s, masterKey, names.target(masterKey).value, plan.reason, p1);
      MonitorEnds(w, cfg, names, s, masterKey, names.target(masterKey).value, plan.reason, p1);
    }
  }

  // ----- what a run may send -----

  /** h' continues h, never asks for a FAILOVER, and changes no Sentinel outside the given ones. */
  ghost predicate Touches(h: seq<Io>, h': seq<Io>, sentinels: set<string>) {
    && h <= h'
    && forall i | |h| <= i < |h'| :: !h'[i].PromoteReplica? && (Mutating(h'[i]) ==> h'[i].sentinel in sentinels)
  }

  lemma TouchesStep(h: seq<Io>, h': seq<Io>, h'': seq<Io>, sentinels: set<string>)
    requires Touches(h, h', sentinels) && Touches(h', h'', sentinels)
    ensures Touches(h, h'', sentinels)
  {}

  lemma TouchesOne(h: seq<Io>, io: Io, sentinels: set<string>)
    requires !io.PromoteReplica? && (Mutating(io) ==> io.sentinel in sentinels)
    ensures Touches(h, h + [io], sentinels)
  {}

  lemma VerifyTouches(w: World, names: Names, s: string, masterKey: string, h: seq<Io>, sentinels: set<string>)
    ensures Touches(h, Verify(w, names, s, masterKey, h).hist, sentinels)
  {
    var h1 := h + [GetMasterAddr(s)];
    TouchesOne(h, GetMasterAddr(s), sentinels);
    TouchesOne(h1, WriteProbe(masterKey), sentinels);
  }

  lemma MonitorTouches(w: World, cfg: Config, names: Names, s: string, masterKey: string, target: Target,
                       reason: Reason, p: Proc)
    ensures Touches(p.hist, MonitorRun(w, cfg, names, s, masterKey, target, reason, p).hist, {s})
  {
    var h1 := p.hist + MonitorHead(cfg, s, target);
    assert Touches(p.hist, h1, {s});
    var h2 := h1 + AuthCommands(s, ConfiguredAuth(cfg));
    assert Touches(h1, h2, {s});
    TouchesStep(p.hist, h1, h2, {s});
    VerifyTouches(w, names, s, masterKey, h2, {s});
    var v := Verify(w, names, s, masterKey, h2);
    TouchesStep(p.hist, h2, v.hist, {s});
    var h3 := v.hist + [ResetMaster(s)];
    TouchesOne(v.hist, ResetMaster(s), {s});
    TouchesStep(p.hist, v.hist, h3, {s});
    VerifyTouches(w, names, s, masterKey, h3, {s});
    TouchesStep(p.hist, h3, Verify(w, names, s, masterKey, h3).hist, {s});
  }

  lemma LeaseTouches(w: World, addr: string, holder: string, ttl: int, h: seq<Io>)
    ensures Touches(h, LeaseRun(w, addr, holder, ttl, h).hist, {})
  {}

  /** A check against an oracle among the probed nodes changes nothing but the Sentinel it checks, and that one
      only if apply is on and allowed for this process; it never fails over and never escalates. */
  lemma CheckTouches(w: World, cfg: Config, names: Names, s: string, view: View, masterKey: string,
                     nodes: seq<NodeResult>, trap: bool, p: Proc)
    requires names.Lawful() && OracleAmong(masterKey, nodes)
    ensures var q := CheckRun(w, cfg, names, s, view, masterKey, nodes, trap, p);
            && Touches(p.hist, q.hist, if cfg.apply && !GlobalApplyBarred(cfg) then {s} else {})
            && q.counts[AlertEqualEpochEscalate] == p.counts[AlertEqualEpochEscalate]
  {
    if !view.err && !names.same(Printed(view.host, view.port), masterKey) && cfg.apply {
      ApplyTouches(w, cfg, names, s, Printed(view.host, view.port), masterKey, nodes, trap,
                   p.Inc(Diverge).(diverged := 1));
    }
  }

  lemma HealTouches(w: World, cfg: Config, names: Names, s: string, masterKey: string, plan: Plan, p: Proc)
    requires !plan.action.Failover? && plan != Plan(Refuse, EqualEpochEscalate)
    ensures var q := HealRun(w, cfg, names, s, masterKey, plan, p);
            && Touches(p.hist, q.hist, {s})
            && q.counts[AlertEqualEpochEscalate] == p.counts[AlertEqualEpochEscalate]
  {
    HealOutcome(w, cfg, names, s, masterKey, plan, p);
    if plan.action.Monitor? && names.target(masterKey).Some? {
      var p1 := p.(lastHeal := Some(w.clock(p.hist))).Inc(HealAttempt);
      MonitorTouches(w, cfg, names, s, masterKey, names.target(masterKey).value, plan.reason, p1);
    }
  }

  lemma LeasedTouches(w: World, cfg: Config, names: Names, s: string, masterKey: string, plan: Plan, p: Proc)
    requires !plan.action.Failover? && plan != Plan(Refuse, EqualEpochEscalate)
    ensures var q := LeasedHeal(w, cfg, names, s, masterKey, plan, p);
            && Touches(p.hist, q.hist, {s})
            && q.counts[AlertEqualEpochEscalate] == p.counts[AlertEqualEpochEscalate]
  {
    HealTouches(w, cfg, names, s, masterKey, plan, p);
    LeaseTouches(w, masterKey, cfg.leaseHolder, ApplyTtl(cfg), p.hist);
    var p1 := p.(hist := LeaseRun(w, masterKey, cfg.leaseHolder, ApplyTtl(cfg), p.hist).hist).Inc(HealLeaseAcquired);
    HealTouches(w, cfg, names, s, masterKey, plan, p1);
    TouchesStep(p.hist, p1.hist, HealRun(w, cfg, names, s, masterKey, plan, p1).hist, {s});
  }

  lemma ApplyTouches(w: World, cfg: Config, names: Names, s: string, advertised: string, masterKey: string,
                     nodes: seq<NodeResult>, trap: bool, p: Proc)
    requires names.Lawful() && OracleAmong(masterKey, nodes) && !names.same(advertised, masterKey)
    ensures var q := ApplyRun(w, cfg, names, s, advertised, masterKey, nodes, trap, p);
            && Touches(p.hist, q.hist, if !GlobalApplyBarred(cfg) then {s} else {})
            && q.counts[AlertEqualEpochEscalate] == p.counts[AlertEqualEpochEscalate]
  {
    var p1 := p.Did(MasterInfo(s));
    var flags := FlagsOf(w.answer(p1.hist));
    TouchesOne(p.hist, MasterInfo(s), {});
    if PreflightPasses(cfg, names, p.lastHeal, w.clock(p1.hist), flags, nodes) {
      var plan := PlanFor(names, advertised, masterKey, flags, nodes, trap, cfg.equalEpochEscalate);
      DivergedPlan(names, advertised, masterKey, flags, nodes, trap, cfg.equalEpochEscalate);
      LeasedTouches(w, cfg, names, s, masterKey, plan, p1);
    }
  }

  /** The Sentinels a configuration may change. */
  function Healable(cfg: Config): set<string> {
    if !cfg.apply || GlobalApplyBarred(cfg) || cfg.sentinelAddrs == [] then {}
    else if OnlyFirst(cfg) then {cfg.sentinelAddrs[0]}
    else set s | s in cfg.sentinelAddrs
  }

  lemma {:induction false} ChecksTouch(w: World, cfg: Config, obs: Observation, masterKey: string,
                                       nodes: seq<NodeResult>, trap: bool, k: nat, p: Proc)
    requires OneViewEach(cfg, obs) && k <= |obs.views| && (OnlyFirst(cfg) ==> k <= 1)
    requires obs.names.Lawful() && OracleAmong(masterKey, nodes)
    ensures var q := ChecksRun(w, cfg, obs, masterKey, nodes, trap, k, p);
            && Touches(p.hist, q.hist, Healable(cfg))
            && q.counts[AlertEqualEpochEscalate] == p.counts[AlertEqualEpochEscalate]
  {
    if k > 0 {
      ChecksTouch(w, cfg, obs, masterKey, nodes, trap, k - 1, p);
      CheckTouches(w, cfg, obs.names, cfg.sentinelAddrs[k - 1], obs.views[k - 1], masterKey, nodes, trap,
                   ChecksRun(w, cfg, obs, masterKey, nodes, trap, k - 1, p));
    }
  }

  lemma WakeTouches(h: seq<Io>, h': seq<Io>, sentinels: set<string>)
    requires Touches(h + [Wake], h', sentinels)
    ensures Touches(h, h', sentinels)
  {
    TouchesOne(h, Wake, sentinels);
    TouchesStep(h, h + [Wake], h', sentinels);
  }

  lemma TickTouches(w: World, cfg: Config, t: TickFacts, p: Proc)
    requires Sound(cfg, t)
    ensures var q := TickRun(w, cfg, t, p);
            && Touches(p.hist, q.hist, Healable(cfg))
            && q.counts[AlertEqualEpochEscalate] == p.counts[AlertEqualEpochEscalate]
  {
    FindingTouches(w, cfg, t, Started(p));
    WakeTouches(p.hist, TickRun(w, cfg, t, p).hist, Healable(cfg));
  }

  lemma FindingTouches(w: World, cfg: Config, t: TickFacts, p: Proc)
    requires Sound(cfg, t)
    ensures var q := FindingRun(w, cfg, t.obs, t.nodes, t.found, t.trap, p);
            && Touches(p.hist, q.hist, Healable(cfg))
            && q.counts[AlertEqualEpochEscalate] == p.counts[AlertEqualEpochEscalate]
  {
    if t.found.Unique? { ActTouches(w, cfg, t, p.(writable := 1)); }
  }

  lemma ActTouches(w: World, cfg: Config, t: TickFacts, p: Proc)
    requires Sound(cfg, t) && t.found.Unique?
    ensures var q := ActRun(w, cfg, t.obs, t.found.addr, t.nodes, t.trap, p);
            && Touches(p.hist, q.hist, Healable(cfg))
            && q.counts[AlertEqualEpochEscalate] == p.counts[AlertEqualEpochEscalate]
  {
    ChecksTouch(w, cfg, t.obs, t.found.addr, t.nodes, t.trap, CheckCount(cfg),
                if t.trap then p.Inc(AlertEqualEpochTrap) else p);
  }

  ghost predicate AllSound(cfg: Config, run: seq<TickFacts>) { forall t | t in run :: Sound(cfg, t) }

  /** Over any run, whatever is answered: no FAILOVER is sent, only Sentinels this process may heal are changed,
      and the equal-epoch refusal never happens. */
  lemma {:induction false} RunTouches(w: World, cfg: Config, run: seq<TickFacts>, p: Proc)
    requires AllSound(cfg, run)
    ensures var q := RunOf(w, cfg, run, p);
            && Touches(p.hist, q.hist, Healable(cfg))
            && q.counts[AlertEqualEpochEscalate] == p.counts[AlertEqualEpochEscalate]
  {
    if run != [] {
      var before, t := run[..|run| - 1], run[|run| - 1];
      assert Sound(cfg, t);
      RunTouches(w, cfg, before, p);
      var p1 := RunOf(w, cfg, before, p);
      TickTouches(w, cfg, t, p1);
      TouchesStep(p.hist, p1.hist, TickRun(w, cfg, t, p1).hist, Healable(cfg));
    }
  }

  /** A process built by New without leave to heal globally changes no Sentinel but the first it was given. */
  lemma OnlyOwnSentinel(w: World, given: Config, run: seq<TickFacts>, p: Proc)
    requires AllSound(Normalized(given), run)
    requires !given.allowGlobalApply && p.hist == []
    ensures forall io | io in RunOf(w, Normalized(given), run, p).hist && Mutating(io) ::
              given.sentinelAddrs != [] && io.sentinel == given.sentinelAddrs[0] && given.apply
  {
    RunTouches(w, Normalized(given), run, p);
  }

  /** Which Redis nodes accept writes, if nothing but a FAILOVER can change that: effect is whatever
      the FAILOVERs do. */
  ghost function Writers(h: seq<Io>, initial: set<string>, effect: seq<Io> -> set<string>): set<string> {
    if h == [] then initial
    else if h[|h| - 1].PromoteReplica? then effect(h)
    else Writers(h[..|h| - 1], initial, effect)
  }

  lemma {:induction false} NoPromotionNoChange(h: seq<Io>, h': seq<Io>, sentinels: set<string>,
                                               initial: set<string>, effect: seq<Io> -> set<string>)
    requires Touches(h, h', sentinels)
    ensures Writers(h', initial, effect) == Writers(h, initial, effect)
    decreases |h'|
  {
    if |h'| > |h| {
      NoPromotionNoChange(h, h'[..|h'| - 1], sentinels, initial, effect);
    } else {
      assert h == h';
    }
  }

  // ----- when a heal is attempted -----

  /** Every guard between a diverged check and a heal attempt: this process may apply here, no failover is
      under way where that is heeded, the pause since the last attempt is over, enough seeds answered, the lease is
      granted where one is used, exactly one distinct Redis is writable among all probed nodes, and its address
      resolves. h is the history after the Sentinel was asked for its flags. */
  predicate GuardsPass(w: World, cfg: Config, names: Names, masterKey: string, nodes: seq<NodeResult>,
                       lastHeal: Option<nat>, h: seq<Io>)
  {
    && !GlobalApplyBarred(cfg)
    && !(cfg.skipOnFailoverInProgress && FailoverInProgress(FlagsOf(w.answer(h))))
    && CooledDown(cfg.healCooldown, lastHeal, w.clock(h))
    && EnoughReachable(cfg, names, nodes)
    && (cfg.healLease ==> LeaseRun(w, masterKey, cfg.leaseHolder, ApplyTtl(cfg), h).verdict.LeaseGranted?)
    && |WritableKeys(names, nodes)| == 1
    && names.target(masterKey).Some?
  }

  lemma ApplyGate(w: World, cfg: Config, names: Names, s: string, advertised: string, masterKey: string,
                  nodes: seq<NodeResult>, trap: bool, p: Proc)
    requires names.Lawful() && OracleAmong(masterKey, nodes) && !names.same(advertised, masterKey)
    ensures var q := ApplyRun(w, cfg, names, s, advertised, masterKey, nodes, trap, p);
            var attempted :=
              && GuardsPass(w, cfg, names, masterKey, nodes, p.lastHeal, p.hist + [MasterInfo(s)])
              && AdGivesWay(names, advertised, masterKey, nodes);
            && q.counts[HealAttempt] == p.counts[HealAttempt] + (if attempted then 1 else 0)
            && (!attempted ==> Touches(p.hist, q.hist, {}) && q.lastHeal == p.lastHeal)
  {
    var p1 := p.Did(MasterInfo(s));
    var flags := FlagsOf(w.answer(p1.hist));
    var plan := PlanFor(names, advertised, masterKey, flags, nodes, trap, cfg.equalEpochEscalate);
    DivergedPlan(names, advertised, masterKey, flags, nodes, trap, cfg.equalEpochEscalate);
    MonitorIff(names, advertised, masterKey, flags, nodes, trap, cfg.equalEpochEscalate);
    TouchesOne(p.hist, MasterInfo(s), {});
    LeasedGate(w, cfg, names, s, masterKey, plan, p1);
  }

  lemma LeasedGate(w: World, cfg: Config, names: Names, s: string, masterKey: string, plan: Plan, p: Proc)
    requires !plan.action.Failover?
    ensures var q := LeasedHeal(w, cfg, names, s, masterKey, plan, p);
            var attempted := plan.action.Monitor? && names.target(masterKey).Some?
              && (cfg.healLease ==>
                    LeaseRun(w, masterKey, cfg.leaseHolder, ApplyTtl(cfg), p.hist).verdict.LeaseGranted?);
            && q.counts[HealAttempt] == p.counts[HealAttempt] + (if attempted then 1 else 0)
            && (!attempted ==> Touches(p.hist, q.hist, {}) && q.lastHeal == p.lastHeal)
  {
    GateOfPlan(w, cfg, names, s, masterKey, plan, p);
    var l := LeaseRun(w, masterKey, cfg.leaseHolder, ApplyTtl(cfg), p.hist);
    LeaseTouches(w, masterKey, cfg.leaseHolder, ApplyTtl(cfg), p.hist);
    GateOfPlan(w, cfg, names, s, masterKey, plan, p.(hist := l.hist).Inc(HealLeaseAcquired));
  }

  /** The check attempts a heal: apply is on, the Sentinel answered something other than the oracle, every guard
      passes, and what it answered gives way. */
  predicate AttemptDue(w: World, cfg: Config, names: Names, s: string, view: View, masterKey: string,
                       nodes: seq<NodeResult>, p: Proc)
  {
    var advertised := Printed(view.host, view.port);
    && !view.err && !names.same(advertised, masterKey) && cfg.apply
    && GuardsPass(w, cfg, names, masterKey, nodes, p.lastHeal, p.hist + [MasterInfo(s)])
    && AdGivesWay(names, advertised, masterKey, nodes)
  }

  /** A check attempts a heal exactly when it is due; otherwise it changes no Sentinel and starts no pause. */
  lemma HealGate(w: World, cfg: Config, names: Names, s: string, view: View, masterKey: string,
                 nodes: seq<NodeResult>, trap: bool, p: Proc)
    requires names.Lawful() && OracleAmong(masterKey, nodes)
    ensures var q := CheckRun(w, cfg, names, s, view, masterKey, nodes, trap, p);
            var attempted := AttemptDue(w, cfg, names, s, view, masterKey, nodes, p);
            && q.counts[HealAttempt] == p.counts[HealAttempt] + (if attempted then 1 else 0)
            && (!attempted ==> Touches(p.hist, q.hist, {}) && q.lastHeal == p.lastHeal)
  {
    var advertised := Printed(view.host, view.port);
    if !view.err && !names.same(advertised, masterKey) && cfg.apply {
      ApplyGate(w, cfg, names, s, advertised, masterKey, nodes, trap, p.Inc(Diverge).(diverged := 1));
    }
  }

  /** Where identity is endpoint, the guards alone decide. */
  lemma GuardsDecide(w: World, cfg: Config, names: Names, s: string, view: View, masterKey: string,
                     nodes: seq<NodeResult>, p: Proc)
    requires names.Lawful() && OracleAmong(masterKey, nodes) && IdentityIsEndpoint(names, nodes)
    ensures AttemptDue(w, cfg, names, s, view, masterKey, nodes, p) <==>
            && !view.err && !names.same(Printed(view.host, view.port), masterKey) && cfg.apply
            && GuardsPass(w, cfg, names, masterKey, nodes, p.lastHeal, p.hist + [MasterInfo(s)])
  {
    var advertised := Printed(view.host, view.port);
    if !names.same(advertised, masterKey) && |WritableKeys(names, nodes)| == 1 {
      UniqueGivesWay(names, advertised, masterKey, nodes);
    }
  }

  lemma GateOfPlan(w: World, cfg: Config, names: Names, s: string, masterKey: string, plan: Plan, p: Proc)
    requires !plan.action.Failover?
    ensures var q := HealRun(w, cfg, names, s, masterKey, plan, p);
            var attempted := plan.action.Monitor? && names.target(masterKey).Some?;
            && q.counts[HealAttempt] == p.counts[HealAttempt] + (if attempted then 1 else 0)
            && (!attempted ==> q.hist == p.hist && q.lastHeal == p.lastHeal)
  {
    if plan.action.Monitor? && names.target(masterKey).Some? {
      AttemptOutcome(w, cfg, names, s, masterKey, names.target(masterKey).value, plan, p);
    }
  }

  /** With three or more seeds and no other setting, two of the seeds must have answered. */
  lemma TwoSeedsByDefault(cfg: Config, names: Names, nodes: seq<NodeResult>)
    requires cfg.minReachableRedis == 0 && |cfg.redisAddrs| >= 3 && EnoughReachable(cfg, names, nodes)
    ensures exists i, j | 0 <= i < j < |cfg.redisAddrs| ::
              ReachableSeed(names, cfg.redisAddrs[i], nodes) && ReachableSeed(names, cfg.redisAddrs[j], nodes)
  {
    var up := AnsweredSeeds(names, cfg.redisAddrs, nodes, |cfg.redisAddrs|);
    var i :| i in up;
    assert |up - {i}| >= 1;
    var j :| j in up - {i};
    assert i < j || j < i;
  }

  /** The command line refuses a configuration exactly when its process would refuse every heal for want of
      leave to apply globally. */
  lemma BarredIffRejected(given: Config)
    requires given.requireLocalForApply == !given.allowGlobalApply
    ensures GlobalApplyBarred(Normalized(given)) <==> CommandLineRejects(given)
  {}
}
