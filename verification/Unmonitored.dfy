/** Sentinels without a master, as a REMOVE leaves them whose MONITOR does not take effect: who can give them one
    again. */
module Unmonitored {
  import opened Text
  import opened Endpoint
  import opened NameBook
  import opened Oracle
  import opened HealPlan
  import opened Metrics
  import opened Process
  import opened TickOracle
  import opened HealTrace
  import opened Fleets
  import opened Convergence
  import opened SharedSentinels

  // ----- whole ticks -----

  /** The tick's views of Sentinel s, if it checks that one, are what s monitored when it began. */
  ghost predicate SeesTruly(d: Deployment, cfg: Config, t: TickFacts, s: string, h: seq<Io>) {
    && OneViewEach(cfg, t.obs)
    && forall i | 0 <= i < |Watched(cfg)| && Watched(cfg)[i] == s :: TrueView(d, h, s, t.obs.views[i])
  }

  lemma {:induction false} ChecksSpare(w: World, cfg: Config, t: TickFacts, s: string, k: nat, p: Proc)
    requires Sound(cfg, t) && t.found.Unique? && k <= |Watched(cfg)|
    requires forall i | 0 <= i < |Watched(cfg)| && Watched(cfg)[i] == s :: t.obs.views[i].err
    ensures Touches(p.hist, ChecksRun(w, cfg, t.obs, t.found.addr, t.nodes, t.trap, k, p).hist, Healable(cfg) - {s})
  {
    if k > 0 {
      ChecksSpare(w, cfg, t, s, k - 1, p);
      var q := ChecksRun(w, cfg, t.obs, t.found.addr, t.nodes, t.trap, k - 1, p);
      NextCheckSpares(w, cfg, t, s, k - 1, q);
      TouchesStep(p.hist, q.hist, ChecksRun(w, cfg, t.obs, t.found.addr, t.nodes, t.trap, k, p).hist,
                  Healable(cfg) - {s});
    }
  }

  lemma NextCheckSpares(w: World, cfg: Config, t: TickFacts, s: string, k: nat, p: Proc)
    requires Sound(cfg, t) && t.found.Unique? && k < |Watched(cfg)| && (Watched(cfg)[k] == s ==> t.obs.views[k].err)
    ensures Touches(p.hist, CheckRun(w, cfg, t.obs.names, Watched(cfg)[k], t.obs.views[k], t.found.addr, t.nodes,
                                     t.trap, p).hist, Healable(cfg) - {s})
  {
    CheckTouches(w, cfg, t.obs.names, Watched(cfg)[k], t.obs.views[k], t.found.addr, t.nodes, t.trap, p);
  }

  lemma FindingSpares(w: World, cfg: Config, t: TickFacts, s: string, p: Proc)
    requires Sound(cfg, t)
    requires forall i | 0 <= i < |Watched(cfg)| && Watched(cfg)[i] == s :: t.obs.views[i].err
    ensures Touches(p.hist, FindingRun(w, cfg, t.obs, t.nodes, t.found, t.trap, p).hist, Healable(cfg) - {s})
  {
    if t.found.Unique? {
      var p1 := p.(writable := 1);
      ChecksSpare(w, cfg, t, s, CheckCount(cfg), if t.trap then p1.Inc(AlertEqualEpochTrap) else p1);
    }
  }

  lemma TickSpares(w: World, d: Deployment, cfg: Config, t: TickFacts, s: string, p: Proc)
    requires Sound(cfg, t) && SeesTruly(d, cfg, t, s, p.hist) && Entry(d, p.hist, s).None?
    ensures Touches(p.hist, TickRun(w, cfg, t, p).hist, Healable(cfg) - {s})
    ensures Entry(d, TickRun(w, cfg, t, p).hist, s).None?
  {
    FindingSpares(w, cfg, t, s, Started(p));
    WakeTouches(p.hist, TickRun(w, cfg, t, p).hist, Healable(cfg) - {s});
    EntryFrame(d, p.hist, TickRun(w, cfg, t, p).hist, Healable(cfg) - {s}, s);
  }

  /** The moves lead from f to g, one tick at a time, with true views of s, whatever else each tick found: the names,
      the oracle and the views of other Sentinels may be different and false in each of them. */
  ghost predicate SeeingRun(d: Deployment, ms: seq<Member>, s: string, f: Fleet, moves: seq<Move>, g: Fleet)
    decreases moves
  {
    if moves == [] then f == g
    else
      var m := moves[0];
      && Legal(ms, f, m) && Sound(ms[m.who].cfg, m.facts) && SeesTruly(d, ms[m.who].cfg, m.facts, s, f.hist)
      && SeeingRun(d, ms, s, FleetStep(ms, f, m), moves[1..], g)
  }

  /** A Sentinel without a master is never given one by any later tick of any process, whatever Redis fails over to and
      whatever is answered: no changing command is sent to it again. */
  lemma {:induction false} UnmonitoredIsAbsorbing(d: Deployment, ms: seq<Member>, s: string, f: Fleet,
                                                  moves: seq<Move>, g: Fleet)
    requires SeeingRun(d, ms, s, f, moves, g) && Entry(d, f.hist, s).None?
    ensures Entry(d, g.hist, s).None? && Touches(f.hist, g.hist, FleetHealable(ms) - {s})
    decreases moves
  {
    if moves != [] {
      var m := moves[0];
      var p := f.procs[m.who].(hist := f.hist);
      TickSpares(ms[m.who].world, d, ms[m.who].cfg, m.facts, s, p);
      var f1 := FleetStep(ms, f, m);
      assert ms[m.who] in ms;
      TouchesMore(f.hist, f1.hist, Healable(ms[m.who].cfg) - {s}, FleetHealable(ms) - {s});
      UnmonitoredIsAbsorbing(d, ms, s, f1, moves[1..], g);
      TouchesStep(f.hist, f1.hist, g.hist, FleetHealable(ms) - {s});
    }
  }

  // ----- single checks, on views of any age -----

  /** The history in which a check that attempts a heal sends its REMOVE. */
  function BeforeHeal(w: World, cfg: Config, s: string, masterKey: string, h: seq<Io>): seq<Io> {
    var h1 := h + [MasterInfo(s)];
    if cfg.healLease then LeaseRun(w, masterKey, cfg.leaseHolder, ApplyTtl(cfg), h1).hist else h1
  }

  /** A check whose heal is due is a heal by MONITOR from there. */
  lemma DueIsMonitorRun(w: World, cfg: Config, names: Names, s: string, view: View, masterKey: string,
                        nodes: seq<NodeResult>, trap: bool, p: Proc) returns (reason: Reason, p1: Proc)
    requires names.Lawful() && OracleAmong(masterKey, nodes)
    requires AttemptDue(w, cfg, names, s, view, masterKey, nodes, p)
    ensures p1.hist == BeforeHeal(w, cfg, s, masterKey, p.hist)
    ensures CheckRun(w, cfg, names, s, view, masterKey, nodes, trap, p)
         == MonitorRun(w, cfg, names, s, masterKey, names.target(masterKey).value, reason, p1)
  {
    var advertised := Printed(view.host, view.port);
    var p0 := p.Inc(Diverge).(diverged := 1).Did(MasterInfo(s));
    var flags := FlagsOf(w.answer(p0.hist));
    var plan := PlanFor(names, advertised, masterKey, flags, nodes, trap, cfg.equalEpochEscalate);
    MonitorIff(names, advertised, masterKey, flags, nodes, trap, cfg.equalEpochEscalate);
    var l := LeaseRun(w, masterKey, cfg.leaseHolder, ApplyTtl(cfg), p0.hist);
    p1 := if cfg.healLease then p0.(hist := l.hist).Inc(HealLeaseAcquired) else p0;
    p1 := p1.(lastHeal := Some(w.clock(p1.hist))).Inc(HealAttempt);
    reason := plan.reason;
  }

  lemma BeforeHealKeepsEntry(w: World, d: Deployment, cfg: Config, s: string, masterKey: string, h: seq<Io>)
    ensures Entry(d, BeforeHeal(w, cfg, s, masterKey, h), s) == Entry(d, h, s)
  {
    var h1 := h + [MasterInfo(s)];
    TouchesOne(h, MasterInfo(s), {});
    LeaseTouches(w, masterKey, cfg.leaseHolder, ApplyTtl(cfg), h1);
    TouchesStep(h, h1, BeforeHeal(w, cfg, s, masterKey, h), {});
    EntryFrame(d, h, BeforeHeal(w, cfg, s, masterKey, h), {}, s);
  }

  /** The check gives Sentinel s a master if it has none: its heal is due, and its MONITOR takes effect. */
  predicate Gives(w: World, d: Deployment, cfg: Config, names: Names, s: string, view: View, masterKey: string,
                  nodes: seq<NodeResult>, p: Proc)
  {
    && AttemptDue(w, cfg, names, s, view, masterKey, nodes, p)
    && d.applied(BeforeHeal(w, cfg, s, masterKey, p.hist) + MonitorHead(cfg, s, names.target(masterKey).value))
  }

  /** A check, on a view of any age, gives a master to a Sentinel that has none exactly when its heal is due and its
      MONITOR takes effect. */
  lemma CheckGivesIff(w: World, d: Deployment, cfg: Config, names: Names, s: string, view: View, masterKey: string,
                      nodes: seq<NodeResult>, trap: bool, p: Proc)
    requires names.Lawful() && OracleAmong(masterKey, nodes) && Entry(d, p.hist, s).None?
    ensures Entry(d, CheckRun(w, cfg, names, s, view, masterKey, nodes, trap, p).hist, s).Some?
            <==> Gives(w, d, cfg, names, s, view, masterKey, nodes, p)
  {
    if AttemptDue(w, cfg, names, s, view, masterKey, nodes, p) {
      var reason, p1 := DueIsMonitorRun(w, cfg, names, s, view, masterKey, nodes, trap, p);
      BeforeHealKeepsEntry(w, d, cfg, s, masterKey, p.hist);
      MonitorLosesEntryIff(w, d, cfg, names, s, masterKey, names.target(masterKey).value, reason, p1);
    } else {
      HealGate(w, cfg, names, s, view, masterKey, nodes, trap, p);
      EntryFrame(d, p.hist, CheckRun(w, cfg, names, s, view, masterKey, nodes, trap, p).hist, {}, s);
    }
  }

  /** The part is a check of s that gives it a master. */
  predicate PartGives(d: Deployment, ms: seq<Member>, s: string, f: Fleet, part: Part)
    requires Runnable(ms, f, part)
  {
    && part.Check?
    && var m, t := ms[part.who], part.facts;
       && m.cfg.sentinelAddrs[part.k] == s
       && Gives(m.world, d, m.cfg, t.obs.names, s, t.obs.views[part.k], t.found.addr, t.nodes, At(f, part.who))
  }

  ghost predicate AllRunnable(ms: seq<Member>, f: Fleet, parts: seq<Part>)
    decreases parts
  {
    parts == [] || (Runnable(ms, f, parts[0]) && AllRunnable(ms, RunPart(ms, f, parts[0]), parts[1..]))
  }

  /** Sentinel s has no master now or after any of the parts. */
  ghost predicate StaysWithout(d: Deployment, ms: seq<Member>, s: string, f: Fleet, parts: seq<Part>)
    requires AllRunnable(ms, f, parts)
    decreases parts
  {
    Entry(d, f.hist, s).None? && (parts == [] || StaysWithout(d, ms, s, RunPart(ms, f, parts[0]), parts[1..]))
  }

  ghost predicate NoneGives(d: Deployment, ms: seq<Member>, s: string, f: Fleet, parts: seq<Part>)
    requires AllRunnable(ms, f, parts)
    decreases parts
  {
    parts == [] || (!PartGives(d, ms, s, f, parts[0]) && NoneGives(d, ms, s, RunPart(ms, f, parts[0]), parts[1..]))
  }

  lemma PartGivesIff(d: Deployment, ms: seq<Member>, s: string, f: Fleet, part: Part)
    requires Runnable(ms, f, part) && Entry(d, f.hist, s).None?
    ensures Entry(d, RunPart(ms, f, part).hist, s).Some? <==> PartGives(d, ms, s, f, part)
  {
    var m, t, p := ms[part.who], part.facts, At(f, part.who);
    if part.Begin? {
      WakeKeepsEntries(d, f.hist);
    } else {
      var x := m.cfg.sentinelAddrs[part.k];
      if x == s {
        CheckGivesIff(m.world, d, m.cfg, t.obs.names, s, t.obs.views[part.k], t.found.addr, t.nodes, t.trap, p);
      } else {
        CheckLeavesOthers(m.world, d, m.cfg, t.obs.names, x, t.obs.views[part.k], t.found.addr, t.nodes, t.trap, s, p);
      }
    }
  }

  /** Over every run of single checks by any number of processes, on views of any age and whatever each tick found, a
      Sentinel without a master stays without exactly when no check gives it one: no heal of it is due whose MONITOR
      takes effect. */
  lemma {:induction false} StaysWithoutIff(d: Deployment, ms: seq<Member>, s: string, f: Fleet, parts: seq<Part>)
    requires AllRunnable(ms, f, parts) && Entry(d, f.hist, s).None?
    ensures StaysWithout(d, ms, s, f, parts) <==> NoneGives(d, ms, s, f, parts)
    decreases parts
  {
    if parts != [] {
      PartGivesIff(d, ms, s, f, parts[0]);
      var f1 := RunPart(ms, f, parts[0]);
      if Entry(d, f1.hist, s).None? { StaysWithoutIff(d, ms, s, f1, parts[1..]); }
    }
  }
}
