/** A check that heals under the lease, followed through the lease protocol while the other sidecars go on. */
module LeaseCheck {
  import opened Text
  import Endpoint
  import opened NameBook
  import opened Oracle
  import opened HealPlan
  import opened Metrics
  import opened Process
  import opened Accounting
  import opened HealTrace
  import opened HealLease

  /** The cluster as a sidecar finds it at each of its steps, and which of its messages get through. */
  datatype Path = Path(start: Cluster, setNx: Cluster, get: Cluster, expire: Cluster, heal: Cluster,
                       heardSetNx: bool, heardGet: bool, delivered: bool)

  /** Between s and t anything may have happened except to sidecar i itself. */
  predicate LeavesAlone(i: nat, s: Cluster, t: Cluster) {
    i < |s.procs| && |t.procs| == |s.procs| && t.procs[i] == s.procs[i]
  }

  predicate OfOthers(i: nat, e: Event) { e.Advance? || e.who != i }

  lemma {:induction false} OthersLeaveAlone(r: Rules, i: nat, s: Cluster, events: seq<Event>, t: Cluster, terms: Terms)
    requires |s.procs| == |r.holders| && i < |s.procs| && RunsTo(r, s, events, t, terms)
    requires forall e | e in events :: OfOthers(i, e)
    ensures LeavesAlone(i, s, t)
    decreases events
  {
    if events != [] {
      assert OfOthers(i, events[0]);
      assert LeavesAlone(i, s, Next(r, s, events[0]).value);
      OthersLeaveAlone(r, i, Next(r, s, events[0]).value, events[1..], t, terms);
    }
  }

  /** Sidecar i has passed its cooldown check and the others have gone on. */
  ghost predicate Asks(r: Rules, i: nat, path: Path) {
    && |path.start.procs| == |r.holders| && i < |r.holders|
    && Next(r, path.start, Preflight(i)).Some?
    && LeavesAlone(i, Next(r, path.start, Preflight(i)).value, path.setNx)
  }

  ghost function AfterSetNx(r: Rules, i: nat, path: Path): Cluster
    requires Asks(r, i, path)
  {
    Next(r, path.setNx, SetNx(i, path.heardSetNx)).value
  }

  /** SETNX found the key taken, and GET is sent. */
  ghost predicate Looks(r: Rules, i: nat, path: Path) {
    && Asks(r, i, path) && AfterSetNx(r, i, path).procs[i].pc.Refused?
    && LeavesAlone(i, AfterSetNx(r, i, path), path.get)
  }

  ghost function AfterGet(r: Rules, i: nat, path: Path): Cluster
    requires Looks(r, i, path)
  {
    Next(r, path.get, Get(i, path.heardGet)).value
  }

  /** GET returned this holder, and EXPIRE is sent. */
  ghost predicate Renews(r: Rules, i: nat, path: Path) {
    && Looks(r, i, path) && AfterGet(r, i, path).procs[i].pc.Matched?
    && LeavesAlone(i, AfterGet(r, i, path), path.expire)
  }

  ghost function AfterExpire(r: Rules, i: nat, path: Path): Cluster
    requires Renews(r, i, path)
  {
    Next(r, path.expire, Expire(i, path.delivered)).value
  }

  /** The steps are possible ones, each from the cluster as the step before and the others left it. */
  ghost predicate Walks(r: Rules, i: nat, path: Path) {
    && Asks(r, i, path)
    && (AfterSetNx(r, i, path).procs[i].pc.Granted? ==> LeavesAlone(i, AfterSetNx(r, i, path), path.heal))
    && (AfterSetNx(r, i, path).procs[i].pc.Refused? ==> Looks(r, i, path))
    && (Looks(r, i, path) && AfterGet(r, i, path).procs[i].pc.Matched? ==>
          Renews(r, i, path) && LeavesAlone(i, AfterExpire(r, i, path), path.heal))
  }

  /** The protocol grants the lease on this path. */
  ghost predicate Grants(r: Rules, i: nat, path: Path)
    requires Walks(r, i, path)
  {
    AfterSetNx(r, i, path).procs[i].pc.Granted? || Renews(r, i, path)
  }

  function SetNxAnswer(path: Path): Reply {
    if !path.heardSetNx then Failed else if Live(path.setNx) then Nothing else Done
  }

  function GetAnswer(path: Path): Reply {
    if !path.heardGet then Failed else if Live(path.get) then Value(path.get.key.value.holder) else Nothing
  }

  /** Redis answers the lease commands that follow a history as the key then is. */
  predicate KeyAnswers(w: World, path: Path, addr: string, holder: string, ttl: int, h: seq<Io>) {
    var h1 := h + [LeaseSetNx(addr, HolderId(w, holder), LeaseTtl(ttl))];
    w.answer(h1) == SetNxAnswer(path) && w.answer(h1 + [LeaseGet(addr)]) == GetAnswer(path)
  }

  lemma VerdictFollows(r: Rules, i: nat, path: Path, w: World, addr: string, holder: string, ttl: int, h: seq<Io>)
    requires Walks(r, i, path) && path.start.procs[i].pc.Idle?
    requires r.holders[i] == HolderId(w, holder) && KeyAnswers(w, path, addr, holder, ttl, h)
    ensures LeaseRun(w, addr, holder, ttl, h).verdict.LeaseGranted? <==> Grants(r, i, path)
  {
    assert path.setNx.procs[i].pc.Ready?;
    if path.heardSetNx && Live(path.setNx) {
      assert AfterSetNx(r, i, path).procs[i].pc.Refused?;
      assert path.get.procs[i].pc.Refused?;
    }
  }

  /** A granted sidecar is still granted when it comes to heal. */
  lemma GrantedHeals(r: Rules, i: nat, path: Path)
    requires Walks(r, i, path) && path.start.procs[i].pc.Idle? && Grants(r, i, path)
    ensures HealsAs(r, i, path.heal, Some(path.heal.now))
  {
    if !AfterSetNx(r, i, path).procs[i].pc.Granted? {
      assert path.expire.procs[i].pc.Matched?;
      assert AfterExpire(r, i, path).procs[i].pc.Granted?;
    }
  }

  lemma LeasedDate(w: World, cfg: Config, names: Names, s: string, masterKey: string, plan: Plan, p: Proc)
    requires cfg.healLease && plan.action.Monitor? && names.target(masterKey).Some?
    ensures var q := LeasedHeal(w, cfg, names, s, masterKey, plan, p);
            var l := LeaseRun(w, masterKey, cfg.leaseHolder, ApplyTtl(cfg), p.hist);
            q.lastHeal == if l.verdict.LeaseGranted? then Some(w.clock(l.hist)) else p.lastHeal
  {
    var l := LeaseRun(w, masterKey, cfg.leaseHolder, ApplyTtl(cfg), p.hist);
    AttemptOutcome(w, cfg, names, s, masterKey, names.target(masterKey).value, plan,
                   p.(hist := l.hist).Inc(HealLeaseAcquired));
  }

  /** Everything but the lease lets the check heal. */
  predicate ReachesLease(w: World, cfg: Config, names: Names, s: string, view: View, masterKey: string,
                         nodes: seq<NodeResult>, p: Proc)
  {
    cfg.healLease && AttemptDue(w, cfg.(healLease := false), names, s, view, masterKey, nodes, p)
  }

  lemma CheckDate(w: World, cfg: Config, names: Names, s: string, view: View, masterKey: string,
                  nodes: seq<NodeResult>, trap: bool, p: Proc)
    requires names.Lawful() && OracleAmong(masterKey, nodes)
    requires ReachesLease(w, cfg, names, s, view, masterKey, nodes, p)
    ensures var q := CheckRun(w, cfg, names, s, view, masterKey, nodes, trap, p);
            var l := LeaseRun(w, masterKey, cfg.leaseHolder, ApplyTtl(cfg), p.hist + [MasterInfo(s)]);
            q.lastHeal == if l.verdict.LeaseGranted? then Some(w.clock(l.hist)) else p.lastHeal
  {
    var advertised := Endpoint.Printed(view.host, view.port);
    var p1 := p.Inc(Diverge).(diverged := 1).Did(MasterInfo(s));
    var flags := FlagsOf(w.answer(p1.hist));
    MonitorIff(names, advertised, masterKey, flags, nodes, trap, cfg.equalEpochEscalate);
    LeasedDate(w, cfg, names, s, masterKey,
               PlanFor(names, advertised, masterKey, flags, nodes, trap, cfg.equalEpochEscalate), p1);
  }

  /** The sidecar's part in the protocol agrees with its process: cooldown, ttl and holder are the configured ones,
      its last heal is the process's, and it is between checks. */
  ghost predicate Stands(r: Rules, i: nat, path: Path, w: World, cfg: Config, p: Proc) {
    && |path.start.procs| == |r.holders| && i < |r.holders|
    && r.cooldown == cfg.healCooldown && r.ttl == LeaseTtl(ApplyTtl(cfg))
    && r.holders[i] == HolderId(w, cfg.leaseHolder)
    && path.start.procs[i].pc.Idle? && path.start.procs[i].lastHeal == p.lastHeal
  }

  /** The process's cooldown guard passes exactly when the sidecar's Preflight is possible. */
  lemma CooldownIsPreflight(r: Rules, i: nat, path: Path, w: World, cfg: Config, p: Proc)
    requires Stands(r, i, path, w, cfg, p)
    ensures CooledDown(cfg.healCooldown, p.lastHeal, path.start.now) <==> Next(r, path.start, Preflight(i)).Some?
  {}

  lemma LeaseDecides(w: World, cfg: Config, names: Names, s: string, view: View, masterKey: string,
                     nodes: seq<NodeResult>, p: Proc)
    requires ReachesLease(w, cfg, names, s, view, masterKey, nodes, p)
    ensures AttemptDue(w, cfg, names, s, view, masterKey, nodes, p) <==>
            LeaseRun(w, masterKey, cfg.leaseHolder, ApplyTtl(cfg), p.hist + [MasterInfo(s)]).verdict.LeaseGranted?
  {}

  /** What the verdict of the lease makes of a check that comes to it. */
  lemma LeaseOutcome(w: World, cfg: Config, names: Names, s: string, view: View, masterKey: string,
                     nodes: seq<NodeResult>, trap: bool, p: Proc)
    requires names.Lawful() && OracleAmong(masterKey, nodes)
    requires ReachesLease(w, cfg, names, s, view, masterKey, nodes, p)
    ensures var q := CheckRun(w, cfg, names, s, view, masterKey, nodes, trap, p);
            var l := LeaseRun(w, masterKey, cfg.leaseHolder, ApplyTtl(cfg), p.hist + [MasterInfo(s)]);
            && q.counts[HealAttempt] == p.counts[HealAttempt] + (if l.verdict.LeaseGranted? then 1 else 0)
            && q.lastHeal == if l.verdict.LeaseGranted? then Some(w.clock(l.hist)) else p.lastHeal
  {
    LeaseDecides(w, cfg, names, s, view, masterKey, nodes, p);
    HealGate(w, cfg, names, s, view, masterKey, nodes, trap, p);
    CheckDate(w, cfg, names, s, view, masterKey, nodes, trap, p);
  }

  /** A check that comes to the lease is a run of the protocol by its sidecar, whatever the others do between its
      commands and whichever answers are lost: it attempts a heal exactly when the protocol grants it the lease, and
      the attempt is the protocol's Heal, at the time the process notes. */
  lemma CheckFollowsProtocol(r: Rules, i: nat, path: Path, w: World, cfg: Config, names: Names, s: string, view: View,
                             masterKey: string, nodes: seq<NodeResult>, trap: bool, p: Proc)
    requires names.Lawful() && OracleAmong(masterKey, nodes) && Stands(r, i, path, w, cfg, p) && Walks(r, i, path)
    requires ReachesLease(w, cfg, names, s, view, masterKey, nodes, p)
    requires LeaseTimes(w, cfg, masterKey, p.hist + [MasterInfo(s)], path)
    ensures var q := CheckRun(w, cfg, names, s, view, masterKey, nodes, trap, p);
            && q.counts[HealAttempt] == p.counts[HealAttempt] + (if Grants(r, i, path) then 1 else 0)
            && (!Grants(r, i, path) ==> q.lastHeal == p.lastHeal)
            && (Grants(r, i, path) ==> HealsAs(r, i, path.heal, q.lastHeal))
  {
    VerdictFollows(r, i, path, w, masterKey, cfg.leaseHolder, ApplyTtl(cfg), p.hist + [MasterInfo(s)]);
    LeaseOutcome(w, cfg, names, s, view, masterKey, nodes, trap, p);
    if Grants(r, i, path) { GrantedHeals(r, i, path); }
  }

  /** The key answers as it is found on the path, and the clock shows the time of the heal. */
  predicate LeaseTimes(w: World, cfg: Config, masterKey: string, h: seq<Io>, path: Path) {
    && KeyAnswers(w, path, masterKey, cfg.leaseHolder, ApplyTtl(cfg), h)
    && w.clock(LeaseRun(w, masterKey, cfg.leaseHolder, ApplyTtl(cfg), h).hist) == path.heal.now
  }

  /** Sidecar i heals in the cluster, and that is the heal with the given date. */
  ghost predicate HealsAs(r: Rules, i: nat, c: Cluster, date: Option<nat>) {
    && |c.procs| == |r.holders| && i < |c.procs|
    && var t := Next(r, c, Heal(i));
       && t.Some? && t.value.procs[i].lastHeal == date
       && date.Some? && t.value.attempts == c.attempts + [Attempt(i, date.value)]
  }
}
