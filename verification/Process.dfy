/** One reconciler process: its configuration, what it sends and hears, and what each part of a tick
    makes of its state. The methods of module Reconciler are proved against these functions. */
module Process {
  import opened Text
  import opened Endpoint
  import opened NameBook
  import opened Oracle
  import opened HealPlan
  import opened Metrics
  import EpochTrap

  // ----- configuration -----

  datatype Config = Config(
    sentinelAddrs: seq<string>,
    redisAddrs: seq<string>,
    apply: bool,
    localSentinel: bool,
    requireLocalForApply: bool,
    allowGlobalApply: bool,
    healCooldown: int,
    minReachableRedis: int,
    skipOnFailoverInProgress: bool,
    healLease: bool,
    healLeaseTtl: int,
    leaseHolder: string,
    equalEpochEscalate: bool,
    quorum: int,
    probeAuth: Credentials,
    sentinelAuth: Credentials)

  /** What New makes of the configuration it is given. */
  function Normalized(cfg: Config): Config {
    cfg.(quorum := if cfg.quorum <= 0 then 2 else cfg.quorum,
         requireLocalForApply := cfg.requireLocalForApply || !cfg.allowGlobalApply)
  }

  /** The command line refuses to apply to every listed Sentinel unless that was allowed. */
  predicate CommandLineRejects(cfg: Config) { cfg.apply && !cfg.localSentinel && !cfg.allowGlobalApply }

  /** Durations are in nanoseconds. */
  const FIFTEEN_MINUTES := 900_000_000_000

  // ----- the outside world -----

  /** What a process does to the outside during the acting part of its ticks. A Sentinel is known by
      its address; Wake is the timer that starts a tick. */
  datatype Io =
    | Wake
    | MasterInfo(sentinel: string)
    | GetMasterAddr(sentinel: string)
    | PromoteReplica(sentinel: string)                                      // SENTINEL FAILOVER
    | Remove(sentinel: string)
    | MonitorMaster(sentinel: string, ip: string, port: int, quorum: int)
    | SetAuth(sentinel: string, option: AuthOption, value: string)
    | ResetMaster(sentinel: string)
    | WriteProbe(addr: string)
    | LeaseSetNx(addr: string, holder: string, ttl: int)
    | LeaseGet(addr: string)
    | LeaseExpire(addr: string, ttl: int)

  datatype Reply =
    | Failed
    | Done
    | Nothing
    | Address(host: string, port: int)
    | Flags(flags: string)
    | Value(text: string)
    | Probed(role: Role, writable: bool)

  /** Every answer, and every reading of the clock, may depend on all that the process has done before:
      nothing is assumed of the Sentinels and Redis nodes it talks to. */
  datatype World = World(answer: seq<Io> -> Reply, clock: seq<Io> -> nat, hostname: string, pid: nat)

  predicate Mutating(io: Io) {
    io.PromoteReplica? || io.Remove? || io.MonitorMaster? || io.SetAuth? || io.ResetMaster?
  }

  // ----- the process state -----

  datatype Proc = Proc(
    lastHeal: Option<nat>,
    hist: seq<Io>,
    counts: Counts,
    diverged: int,
    wouldHeal: int,
    writable: int)
  {
    function Inc(c: Counter): Proc { this.(counts := Bump(counts, c)) }

    function Did(io: Io): Proc { this.(hist := hist + [io]) }
  }

  // ----- guards -----

  predicate FailoverInProgress(flags: string) {
    Contains(ToLower(flags), "failover_in_progress") || Contains(ToLower(flags), "force_failover_host")
  }

  predicate ReachableSeed(names: Names, seed: string, nodes: seq<NodeResult>) {
    exists n | n in nodes :: !n.err && names.same(n.addr, seed)
  }

  /** Which of the first n listed seeds answered. */
  function AnsweredSeeds(names: Names, seeds: seq<string>, nodes: seq<NodeResult>, n: nat): set<int>
    requires n <= |seeds|
  {
    set i | 0 <= i < n && ReachableSeed(names, seeds[i], nodes)
  }

  lemma AnsweredSeedsStep(names: Names, seeds: seq<string>, nodes: seq<NodeResult>, n: nat)
    requires n < |seeds|
    ensures n !in AnsweredSeeds(names, seeds, nodes, n)
    ensures AnsweredSeeds(names, seeds, nodes, n + 1)
         == AnsweredSeeds(names, seeds, nodes, n) + if ReachableSeed(names, seeds[n], nodes) then {n} else {}
  {}

  /** How many of the listed seeds answered; without seeds, how many nodes did. */
  function ReachableSeeds(names: Names, seeds: seq<string>, nodes: seq<NodeResult>): nat {
    if seeds == [] then |set i | 0 <= i < |nodes| && !nodes[i].err|
    else |AnsweredSeeds(names, seeds, nodes, |seeds|)|
  }

  predicate GlobalApplyBarred(cfg: Config) {
    cfg.apply && cfg.requireLocalForApply && !cfg.localSentinel && !cfg.allowGlobalApply
  }

  /** The pause since the last heal attempt is over. */
  predicate CooledDown(cooldown: int, lastHeal: Option<nat>, now: int) {
    cooldown > 0 && lastHeal.Some? ==> now - lastHeal.value >= cooldown
  }

  /** The least number of seeds that must answer: by default two, once three are listed. */
  function MinReachable(cfg: Config): int {
    if cfg.minReachableRedis == 0 && |cfg.redisAddrs| >= 3 then 2 else cfg.minReachableRedis
  }

  predicate EnoughReachable(cfg: Config, names: Names, nodes: seq<NodeResult>) {
    MinReachable(cfg) > 0 ==> ReachableSeeds(names, cfg.redisAddrs, nodes) >= MinReachable(cfg)
  }

  predicate PreflightPasses(cfg: Config, names: Names, lastHeal: Option<nat>, now: int, flags: string,
                            nodes: seq<NodeResult>)
  {
    && !GlobalApplyBarred(cfg)
    && !(cfg.skipOnFailoverInProgress && FailoverInProgress(flags))
    && CooledDown(cfg.healCooldown, lastHeal, now)
    && EnoughReachable(cfg, names, nodes)
  }

  // ----- the heal lease -----

  datatype Verdict = LeaseError | LeaseHeld | LeaseGranted

  datatype LeaseResult = LeaseResult(hist: seq<Io>, verdict: Verdict)

  function LeaseTtl(ttl: int): int { if ttl <= 0 then FIFTEEN_MINUTES else ttl }

  /** The configured holder, else the host name, else the process id: never empty. */
  function HolderId(w: World, holder: string): (id: string)
    ensures id != ""
  {
    if holder != "" then holder
    else if w.hostname != "" then w.hostname
    else "pid-" + Itoa(w.pid)
  }

  function TextOf(r: Reply): string { if r.Value? then r.text else "" }

  function LeaseRun(w: World, addr: string, holder: string, ttl: int, h: seq<Io>): LeaseResult {
    var h1 := h + [LeaseSetNx(addr, HolderId(w, holder), LeaseTtl(ttl))];
    if w.answer(h1).Failed? then LeaseResult(h1, LeaseError)
    else if w.answer(h1).Done? then LeaseResult(h1, LeaseGranted)
    else
      var h2 := h1 + [LeaseGet(addr)];
      if TextOf(w.answer(h2)) == HolderId(w, holder) then
        LeaseResult(h2 + [LeaseExpire(addr, LeaseTtl(ttl))], LeaseGranted)
      else LeaseResult(h2, LeaseHeld)
  }

  // ----- healing one Sentinel -----

  datatype Verified = Verified(hist: seq<Io>, ok: bool)

  predicate ProbeAccepts(r: Reply) { r.Probed? && r.role.Master? && r.writable }

  predicate AdMatches(names: Names, r: Reply, masterKey: string) {
    r.Address? && names.same(Printed(r.host, r.port), masterKey)
  }

  /** Ask the Sentinel for its master; when that is the oracle, ask the oracle to take a write. */
  function Verify(w: World, names: Names, s: string, masterKey: string, h: seq<Io>): Verified {
    var h1 := h + [GetMasterAddr(s)];
    if !AdMatches(names, w.answer(h1), masterKey) then Verified(h1, false)
    else var h2 := h1 + [WriteProbe(masterKey)]; Verified(h2, ProbeAccepts(w.answer(h2)))
  }

  function AuthCommands(s: string, kvs: seq<(AuthOption, string)>): seq<Io> {
    seq(|kvs|, i requires 0 <= i < |kvs| => SetAuth(s, kvs[i].0, kvs[i].1))
  }

  lemma AuthCommandsStep(h: seq<Io>, s: string, kvs: seq<(AuthOption, string)>, i: nat)
    requires i < |kvs|
    ensures h + AuthCommands(s, kvs[..i]) + [SetAuth(s, kvs[i].0, kvs[i].1)] == h + AuthCommands(s, kvs[..i + 1])
  {}

  function ConfiguredAuth(cfg: Config): seq<(AuthOption, string)> {
    AuthAfterMonitor(MasterAuth(cfg.probeAuth, cfg.sentinelAuth))
  }

  function MonitorHead(cfg: Config, s: string, target: Target): seq<Io> {
    [Remove(s), MonitorMaster(s, target.ip, target.port, cfg.quorum)]
  }

  /** REMOVE and MONITOR, then verification, with RESET as a last resort unless the advertised
      address was a live replica. */
  function MonitorRun(w: World, cfg: Config, names: Names, s: string, masterKey: string, target: Target,
                      reason: Reason, p: Proc): Proc
  {
    var h1 := p.hist + MonitorHead(cfg, s, target);
    if w.answer(h1).Failed? then p.(hist := h1).Inc(HealFail)
    else
      var v := Verify(w, names, s, masterKey, h1 + AuthCommands(s, ConfiguredAuth(cfg)));
      if v.ok then p.(hist := v.hist).Inc(HealOk)
      else if reason.LiveNonOracle? then p.(hist := v.hist).Inc(HealFail)
      else
        var v2 := Verify(w, names, s, masterKey, v.hist + [ResetMaster(s)]);
        p.(hist := v2.hist).Inc(if v2.ok then HealOk else HealFail)
  }

  /** A heal attempt: FAILOVER when planned, and REMOVE with MONITOR unless that verified. */
  function AttemptRun(w: World, cfg: Config, names: Names, s: string, masterKey: string, target: Target,
                      plan: Plan, p: Proc): Proc
  {
    var p1 := p.(lastHeal := Some(w.clock(p.hist))).Inc(HealAttempt);
    if !plan.action.Failover? then MonitorRun(w, cfg, names, s, masterKey, target, plan.reason, p1)
    else
      var p2 := p1.Did(PromoteReplica(s));
      if w.answer(p2.hist).Failed? then MonitorRun(w, cfg, names, s, masterKey, target, plan.reason, p2)
      else
        var v := Verify(w, names, s, masterKey, p2.hist);
        if v.ok then p2.(hist := v.hist).Inc(HealOk)
        else MonitorRun(w, cfg, names, s, masterKey, target, plan.reason, p2.(hist := v.hist))
  }

  function HealRun(w: World, cfg: Config, names: Names, s: string, masterKey: string, plan: Plan, p: Proc): Proc {
    if plan.action.Refuse? then
      (if plan.reason.EqualEpochEscalate? then p.Inc(AlertEqualEpochEscalate) else p).Inc(ApplyRefused)
    else if names.target(masterKey).None? then p.Inc(HealFail)
    else AttemptRun(w, cfg, names, s, masterKey, names.target(masterKey).value, plan, p)
  }

  // ----- checking one Sentinel -----

  /** The master a Sentinel advertised when the tick began. */
  datatype View = View(err: bool, host: string, port: int)

  function FlagsOf(r: Reply): string { if r.Flags? then r.flags else "" }

  function ApplyTtl(cfg: Config): int { if cfg.healLeaseTtl <= 0 then cfg.healCooldown else cfg.healLeaseTtl }

  /** Take the lease where one is used, and heal. */
  function LeasedHeal(w: World, cfg: Config, names: Names, s: string, masterKey: string, plan: Plan, p: Proc): Proc {
    if !cfg.healLease then HealRun(w, cfg, names, s, masterKey, plan, p)
    else
      var l := LeaseRun(w, masterKey, cfg.leaseHolder, ApplyTtl(cfg), p.hist);
      var p1 := p.(hist := l.hist);
      if !l.verdict.LeaseGranted? then p1.Inc(ApplyRefused)
      else HealRun(w, cfg, names, s, masterKey, plan, p1.Inc(HealLeaseAcquired))
  }

  function ApplyRun(w: World, cfg: Config, names: Names, s: string, advertised: string, masterKey: string,
                    nodes: seq<NodeResult>, trap: bool, p: Proc): Proc
  {
    var p1 := p.Did(MasterInfo(s));
    var flags := FlagsOf(w.answer(p1.hist));
    if !PreflightPasses(cfg, names, p.lastHeal, w.clock(p1.hist), flags, nodes) then p1.Inc(ApplyRefused)
    else
      var plan := PlanFor(names, advertised, masterKey, flags, nodes, trap, cfg.equalEpochEscalate);
      LeasedHeal(w, cfg, names, s, masterKey, plan, p1)
  }

  function CheckRun(w: World, cfg: Config, names: Names, s: string, view: View, masterKey: string,
                    nodes: seq<NodeResult>, trap: bool, p: Proc): Proc
  {
    if view.err then p
    else
      var advertised := Printed(view.host, view.port);
      if names.same(advertised, masterKey) then p.Inc(Noop)
      else
        var p1 := p.Inc(Diverge).(diverged := 1);
        if !cfg.apply then p1.Inc(WouldHeal).(wouldHeal := 1)
        else ApplyRun(w, cfg, names, s, advertised, masterKey, nodes, trap, p1)
  }

  // ----- a whole tick -----

  datatype Probe = Probe(role: Role, writable: bool, runId: string, err: bool)

  /** What the reading part of a tick found: each configured Sentinel's advertised master, the further
      Redis addresses they reported, the answers to probes, and the epoch samples. */
  datatype Observation = Observation(
    names: Names,
    views: seq<View>,
    discovered: set<string>,
    probe: string -> Probe,
    peers: seq<EpochTrap.Peer>,
    ask: string -> EpochTrap.SentinelAnswer)

  predicate OneViewEach(cfg: Config, obs: Observation) { |obs.views| == |cfg.sentinelAddrs| }

  function NodeAt(obs: Observation, addr: string): NodeResult {
    var p := obs.probe(addr);
    NodeResult(addr, p.role, p.writable, p.runId, p.err)
  }

  function ViewAddrs(views: seq<View>): set<string> {
    set v | v in views && !v.err && v.host != "" :: JoinHostPort(v.host, Itoa(v.port))
  }

  lemma ViewAddrsStep(views: seq<View>, i: nat)
    requires i < |views|
    ensures ViewAddrs(views[..i + 1]) == ViewAddrs(views[..i]) + ViewAddrs([views[i]])
  {
    assert views[..i + 1] == views[..i] + [views[i]];
  }

  /** Every Redis address a tick probes. */
  function Addresses(cfg: Config, obs: Observation): set<string> {
    (set a | a in cfg.redisAddrs) + ViewAddrs(obs.views) + obs.discovered
  }

  predicate IsSeed(cfg: Config, names: Names, addr: string) {
    exists seed | seed in cfg.redisAddrs :: names.same(addr, seed)
  }

  predicate Trusted(cfg: Config, names: Names, addr: string) {
    cfg.redisAddrs == [] || IsSeed(cfg, names, addr)
  }

  function NodesOf(obs: Observation, order: seq<string>): (nodes: seq<NodeResult>)
    ensures |nodes| == |order|
  {
    seq(|order|, i requires 0 <= i < |order| => NodeAt(obs, order[i]))
  }

  function TrustedNodes(cfg: Config, obs: Observation, order: seq<string>): seq<NodeResult> {
    if order == [] then []
    else
      var a := order[|order| - 1];
      TrustedNodes(cfg, obs, order[..|order| - 1]) + if Trusted(cfg, obs.names, a) then [NodeAt(obs, a)] else []
  }

  /** The nodes the oracle is chosen from: the trusted ones, or all when none is. */
  function OracleNodes(cfg: Config, obs: Observation, order: seq<string>): seq<NodeResult> {
    var t := TrustedNodes(cfg, obs, order);
    if t == [] then NodesOf(obs, order) else t
  }

  /** The probe order lists every address once. */
  ghost predicate Enumerates(order: seq<string>, addrs: set<string>) {
    && (forall a :: a in order <==> a in addrs)
    && (forall i, j :: 0 <= i < j < |order| ==> order[i] != order[j])
  }

  ghost predicate TrapSeen(cfg: Config, obs: Observation) {
    EpochTrap.Trapped(EpochTrap.SamplesOf(obs.ask, EpochTrap.Asked(EpochTrap.Candidates(cfg.sentinelAddrs, obs.peers))))
  }

  /** The first k checks of a tick that checks every Sentinel. */
  function ChecksRun(w: World, cfg: Config, obs: Observation, masterKey: string, nodes: seq<NodeResult>,
                     trap: bool, k: nat, p: Proc): Proc
    requires OneViewEach(cfg, obs) && k <= |obs.views|
  {
    if k == 0 then p
    else CheckRun(w, cfg, obs.names, cfg.sentinelAddrs[k - 1], obs.views[k - 1], masterKey, nodes, trap,
                  ChecksRun(w, cfg, obs, masterKey, nodes, trap, k - 1, p))
  }

  predicate OnlyFirst(cfg: Config) { cfg.localSentinel || |cfg.sentinelAddrs| <= 1 }

  /** How many Sentinels a tick checks. */
  function CheckCount(cfg: Config): nat
    requires cfg.sentinelAddrs != []
  {
    if OnlyFirst(cfg) then 1 else |cfg.sentinelAddrs|
  }

  function ActRun(w: World, cfg: Config, obs: Observation, masterKey: string, nodes: seq<NodeResult>, trap: bool,
                  p: Proc): Proc
    requires OneViewEach(cfg, obs) && cfg.sentinelAddrs != []
  {
    ChecksRun(w, cfg, obs, masterKey, nodes, trap, CheckCount(cfg), if trap then p.Inc(AlertEqualEpochTrap) else p)
  }

  function Started(p: Proc): Proc {
    p.Did(Wake).Inc(Ticks).(diverged := 0, wouldHeal := 0, writable := 0)
  }

  /** What a tick concludes from its probes: an alert, or the address of the one writable Redis. */
  datatype Finding = NoSentinels | NoRedis | NoneWritable | ManyWritable(count: nat) | Unique(addr: string)

  function Conclude(names: Names, candidates: seq<NodeResult>): Finding {
    var count := |WritableKeys(names, candidates)|;
    if count == 0 || FirstWritable(candidates).None? then NoneWritable
    else if count >= 2 then ManyWritable(count)
    else Unique(FirstWritable(candidates).value.addr)
  }

  function FindOracle(cfg: Config, obs: Observation, order: seq<string>): Finding {
    if cfg.sentinelAddrs == [] then NoSentinels
    else if Addresses(cfg, obs) == {} then NoRedis
    else Conclude(obs.names, OracleNodes(cfg, obs, order))
  }

  /** What a tick does about its finding. */
  function FindingRun(w: World, cfg: Config, obs: Observation, nodes: seq<NodeResult>, found: Finding, trap: bool,
                      p: Proc): Proc
    requires OneViewEach(cfg, obs) && (cfg.sentinelAddrs == [] <==> found.NoSentinels?)
  {
    match found
    case NoSentinels => p
    case NoRedis => p.Inc(AlertNoRedis)
    case NoneWritable => p.(writable := 0).Inc(AlertNoWritable)
    case ManyWritable(n) => p.(writable := n).Inc(AlertDualMaster)
    case Unique(masterKey) => ActRun(w, cfg, obs, masterKey, nodes, trap, p.(writable := 1))
  }

  /** What one tick found out before acting. */
  datatype TickFacts = TickFacts(obs: Observation, nodes: seq<NodeResult>, found: Finding, trap: bool)

  /** The finding and the trap are what the code makes of the observation, for some probe order. */
  ghost predicate Observed(cfg: Config, t: TickFacts) {
    && OneViewEach(cfg, t.obs)
    && t.trap == TrapSeen(cfg, t.obs)
    && if cfg.sentinelAddrs == [] then t.found.NoSentinels? else exists order :: ObservedIn(cfg, t, order)
  }

  ghost predicate ObservedIn(cfg: Config, t: TickFacts, order: seq<string>) {
    && Enumerates(order, Addresses(cfg, t.obs))
    && t.nodes == NodesOf(t.obs, order)
    && t.found == FindOracle(cfg, t.obs, order)
  }

  predicate Actable(cfg: Config, t: TickFacts) {
    OneViewEach(cfg, t.obs) && (cfg.sentinelAddrs == [] <==> t.found.NoSentinels?)
  }

  /** A whole tick. */
  function TickRun(w: World, cfg: Config, t: TickFacts, p: Proc): Proc
    requires Actable(cfg, t)
  {
    FindingRun(w, cfg, t.obs, t.nodes, t.found, t.trap, Started(p))
  }

  ghost predicate AllActable(cfg: Config, run: seq<TickFacts>) { forall t | t in run :: Actable(cfg, t) }

  /** Many ticks of one process, whatever each of them found. */
  function RunOf(w: World, cfg: Config, run: seq<TickFacts>, p: Proc): Proc
    requires AllActable(cfg, run)
  {
    if run == [] then p else TickRun(w, cfg, run[|run| - 1], RunOf(w, cfg, run[..|run| - 1], p))
  }

  /** Each tick of the run is what the code makes of one observation. */
  ghost predicate AllObserved(cfg: Config, run: seq<TickFacts>, observations: seq<Observation>) {
    && |run| == |observations| && AllActable(cfg, run)
    && forall i | 0 <= i < |run| :: run[i].obs == observations[i] && Observed(cfg, run[i])
  }

  lemma OneMoreTick(w: World, cfg: Config, run: seq<TickFacts>, t: TickFacts, p: Proc)
    requires AllActable(cfg, run) && Actable(cfg, t)
    ensures AllActable(cfg, run + [t]) && RunOf(w, cfg, run + [t], p) == TickRun(w, cfg, t, RunOf(w, cfg, run, p))
  {
    assert (run + [t])[..|run|] == run;
  }

  lemma OneMoreObserved(cfg: Config, run: seq<TickFacts>, t: TickFacts, observations: seq<Observation>, i: nat)
    requires i < |observations| && AllObserved(cfg, run, observations[..i])
    requires t.obs == observations[i] && Observed(cfg, t) && Actable(cfg, t)
    ensures AllObserved(cfg, run + [t], observations[..i + 1])
  {}
}
