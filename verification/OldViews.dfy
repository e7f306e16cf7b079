/** Runs of the program in which checks act on views from before another check changed their Sentinel: one stale
    Sentinel is healed twice although nothing is lost, and one without a master is given one. */
module OldViews {
  import opened Text
  import opened Endpoint
  import opened EndpointLaws
  import opened NameBook
  import opened Oracle
  import opened HealPlan
  import opened Metrics
  import opened Process
  import EpochTrap
  import opened TickOracle
  import opened HealTrace
  import opened Fleets
  import opened Convergence
  import opened SharedSentinels
  import opened Unmonitored

  const SENTINEL := "s"
  const NEW := Target("10.0.0.1", 6379)
  const OLD := Target("10.0.0.9", 6379)

  function AddrOf(t: Target): string { Printed(t.ip, t.port) }

  // ----- a resolver that knows two literals -----

  predicate Known(host: string) { host == NEW.ip || host == OLD.ip }

  function TwoHosts(): Resolver {
    Resolver(h => if Known(h) then [V4(h)] else [], h => if Known(h) then Some(V4(h)) else None)
  }

  lemma KnownPrints(host: string)
    requires Known(host)
    ensures host != "" && forall c | c in host :: IsDigit(c) || c == '.'
  {}

  lemma KnownFolds(a: string, b: string)
    requires EqualFold(a, b) && Known(a)
    ensures a == b
  {
    KnownPrints(a);
    LetterlessFold(a, b);
  }

  lemma TwoHostsIsValid()
    ensures TwoHosts().Valid()
  {
    forall h1, h2 | EqualFold(h1, h2) ensures TwoHosts().lookup(h1) == TwoHosts().lookup(h2) {
      if Known(h1) { KnownFolds(h1, h2); }
      if Known(h2) { KnownFolds(h2, h1); }
    }
    forall h | Known(h) ensures WellPrinted(V4(h)) { KnownPrints(h); }
  }

  function BookNames(): Names { NamesOf(TwoHosts()) }

  lemma BookIsLawful()
    ensures BookNames().Lawful()
  {
    TwoHostsIsValid();
    ResolverIsLawful(TwoHosts());
  }

  lemma KnownSplits(t: Target)
    requires Known(t.ip)
    ensures SplitHostPort(AddrOf(t)) == Some(HostPort(t.ip, Itoa(t.port)))
    ensures ResolvedKey(TwoHosts(), AddrOf(t)) == AddrOf(t)
  {
    KnownPrints(t.ip);
    SplitPrinted(t.ip, t.port);
  }

  lemma KnownTarget(t: Target)
    requires Known(t.ip) && INT64_MIN <= t.port <= INT64_MAX
    ensures BookNames().target(AddrOf(t)) == Some(t) && BookNames().monitorable(AddrOf(t))
  {
    KnownSplits(t);
    ItoaRoundTrip(t.port);
    KnownPrints(t.ip);
  }

  lemma AddrsDiffer()
    ensures AddrOf(NEW) != AddrOf(OLD) && !BookNames().same(AddrOf(OLD), AddrOf(NEW))
    ensures !BookNames().same(AddrOf(NEW), AddrOf(OLD))
  {
    assert AddrOf(NEW)[7] == '1' && AddrOf(OLD)[7] == '9';
    TwoHostsIsValid();
    KnownSplits(NEW);
    KnownSplits(OLD);
    PrintedCaseless(AddrOf(OLD), OLD.ip, OLD.port);
    PrintedCaseless(AddrOf(NEW), NEW.ip, NEW.port);
    SameIffKey(TwoHosts(), AddrOf(OLD), AddrOf(NEW));
    SameIffKey(TwoHosts(), AddrOf(NEW), AddrOf(OLD));
  }

  // ----- what a tick observes -----

  /** A process that applies, with no cooldown, no lease and no least number of seeds. */
  function Eager(sentinels: seq<string>): Config {
    Config(sentinels, [AddrOf(NEW)], true, false, true, true, 0, -1, false, false, 0, "", true, 2,
           Credentials("", ""), Credentials("", ""))
  }

  const WRITER := NodeResult(AddrOf(NEW), Master, true, "r1", false)
  const GONE := NodeResult(AddrOf(OLD), Slave, false, "", true)

  /** Every Sentinel advertises the old master, which does not answer; the new one takes writes. */
  function Reading(sentinels: seq<string>): Observation {
    var probe := a => if a == AddrOf(NEW) then Probe(Master, true, "r1", false) else Probe(Slave, false, "", true);
    Observation(BookNames(), seq(|sentinels|, i => View(false, OLD.ip, OLD.port)), {}, probe, [],
                a => EpochTrap.SentinelAnswer(None, None))
  }

  function Seen(sentinels: seq<string>): TickFacts {
    TickFacts(Reading(sentinels), [WRITER, GONE], Unique(AddrOf(NEW)), false)
  }

  lemma OneWriter()
    ensures |WritableKeys(BookNames(), [WRITER, GONE])| == 1 && OracleAmong(AddrOf(NEW), [WRITER, GONE])
    ensures WritableKeys(BookNames(), [WRITER]) == {"run:" + "r1"} && FirstWritable([WRITER]) == Some(WRITER)
  {
    assert WRITER in [WRITER, GONE];
    assert WritableKeys(BookNames(), [WRITER, GONE]) == {"run:" + "r1"};
    assert WRITER in [WRITER];
    assert WritableKeys(BookNames(), [WRITER]) == {"run:" + "r1"};
  }

  lemma OldIsProbed(sentinels: seq<string>)
    requires sentinels != []
    ensures ViewAddrs(Reading(sentinels).views) == {AddrOf(OLD)}
  {
    KnownPrints(OLD.ip);
    var views := Reading(sentinels).views;
    assert views[0] == View(false, OLD.ip, OLD.port) && views[0] in views;
    assert forall v | v in views :: v == View(false, OLD.ip, OLD.port);
    assert JoinHostPort(OLD.ip, Itoa(OLD.port)) == AddrOf(OLD);
  }

  lemma {:induction false} NoSamples(ask: string -> EpochTrap.SentinelAnswer, addrs: seq<string>)
    requires forall a :: ask(a).ad.None?
    ensures EpochTrap.SamplesOf(ask, addrs) == []
  {
    if addrs != [] { NoSamples(ask, addrs[..|addrs| - 1]); }
  }

  lemma NewIsTrusted(sentinels: seq<string>)
    ensures TrustedNodes(Eager(sentinels), Reading(sentinels), [AddrOf(NEW), AddrOf(OLD)]) == [WRITER]
  {
    var cfg, obs, order := Eager(sentinels), Reading(sentinels), [AddrOf(NEW), AddrOf(OLD)];
    AddrsDiffer();
    assert order[..1] == [AddrOf(NEW)] && order[..1][..0] == [];
    assert AddrOf(NEW) in cfg.redisAddrs && BookNames().same(AddrOf(NEW), AddrOf(NEW));
    assert forall a | a in cfg.redisAddrs :: a == AddrOf(NEW);
    assert IsSeed(cfg, BookNames(), AddrOf(NEW)) && !IsSeed(cfg, BookNames(), AddrOf(OLD));
    assert TrustedNodes(cfg, obs, order[..1]) == [WRITER];
  }

  lemma BothAddresses(sentinels: seq<string>)
    requires sentinels != []
    ensures Addresses(Eager(sentinels), Reading(sentinels)) == {AddrOf(NEW), AddrOf(OLD)}
  {
    OldIsProbed(sentinels);
    var cfg, obs := Eager(sentinels), Reading(sentinels);
    assert (set a | a in cfg.redisAddrs) == {AddrOf(NEW)} && obs.discovered == {};
    assert Addresses(cfg, obs) == {AddrOf(NEW)} + {AddrOf(OLD)} + {};
  }

  lemma TwoNodes(obs: Observation, a: string, b: string)
    ensures NodesOf(obs, [a, b]) == [NodeAt(obs, a), NodeAt(obs, b)]
  {}

  lemma BothNodes(sentinels: seq<string>)
    ensures NodesOf(Reading(sentinels), [AddrOf(NEW), AddrOf(OLD)]) == [WRITER, GONE]
  {
    AddrsDiffer();
    TwoNodes(Reading(sentinels), AddrOf(NEW), AddrOf(OLD));
  }

  lemma TwoEnumerate(a: string, b: string)
    requires a != b
    ensures Enumerates([a, b], {a, b})
  {}

  lemma BothProbed(sentinels: seq<string>)
    requires sentinels != []
    ensures NodesOf(Reading(sentinels), [AddrOf(NEW), AddrOf(OLD)]) == [WRITER, GONE]
    ensures Enumerates([AddrOf(NEW), AddrOf(OLD)], Addresses(Eager(sentinels), Reading(sentinels)))
  {
    AddrsDiffer();
    BothNodes(sentinels);
    BothAddresses(sentinels);
    TwoEnumerate(AddrOf(NEW), AddrOf(OLD));
  }

  lemma FoundNew(sentinels: seq<string>)
    requires sentinels != []
    ensures FindOracle(Eager(sentinels), Reading(sentinels), [AddrOf(NEW), AddrOf(OLD)]) == Unique(AddrOf(NEW))
  {
    BothAddresses(sentinels);
    NewIsTrusted(sentinels);
    OneWriter();
  }

  /** These facts are what the code makes of the observation. */
  lemma SeenIsObserved(sentinels: seq<string>)
    requires sentinels != []
    ensures Observed(Eager(sentinels), Seen(sentinels)) && Sound(Eager(sentinels), Seen(sentinels))
  {
    BothProbed(sentinels);
    FoundNew(sentinels);
    assert ObservedIn(Eager(sentinels), Seen(sentinels), [AddrOf(NEW), AddrOf(OLD)]);
    var obs := Reading(sentinels);
    NoSamples(obs.ask, EpochTrap.Asked(EpochTrap.Candidates(sentinels, obs.peers)));
    BookIsLawful();
    ObservedIsSound(Eager(sentinels), Seen(sentinels));
  }

  lemma OldGivesWay()
    ensures AdGivesWay(BookNames(), AddrOf(OLD), AddrOf(NEW), [WRITER, GONE])
  {
    AddrsDiffer();
    assert forall n | n in [WRITER, GONE] && IsWritableMaster(n) :: n == WRITER;
  }

  /** Without cooldown, lease, least number of seeds or heed of failovers, what the nodes say is all that counts. */
  lemma EagerIsDue(w: World, cfg: Config, names: Names, s: string, view: View, masterKey: string,
                   nodes: seq<NodeResult>, p: Proc)
    requires cfg.apply && cfg.allowGlobalApply && !cfg.skipOnFailoverInProgress && cfg.healCooldown == 0
    requires cfg.minReachableRedis == -1 && !cfg.healLease
    requires !view.err && !names.same(Printed(view.host, view.port), masterKey) && names.target(masterKey).Some?
    requires |WritableKeys(names, nodes)| == 1 && AdGivesWay(names, Printed(view.host, view.port), masterKey, nodes)
    ensures AttemptDue(w, cfg, names, s, view, masterKey, nodes, p)
  {}

  /** On the old view a heal is due whatever was done before. */
  lemma AlwaysDue(w: World, sentinels: seq<string>, p: Proc)
    ensures AttemptDue(w, Eager(sentinels), BookNames(), SENTINEL, View(false, OLD.ip, OLD.port), AddrOf(NEW),
                       [WRITER, GONE], p)
  {
    AddrsDiffer();
    OneWriter();
    KnownTarget(NEW);
    OldGivesWay();
    EagerIsDue(w, Eager(sentinels), BookNames(), SENTINEL, View(false, OLD.ip, OLD.port), AddrOf(NEW), [WRITER, GONE],
               p);
  }

  // ----- Sentinels and Redis nodes that always answer -----

  function AnswerOf(d: Deployment, h: seq<Io>): Reply {
    if h == [] then Nothing
    else
      match h[|h| - 1]
      case GetMasterAddr(s) =>
        var e := Entry(d, h[..|h| - 1], s);
        if e.None? then Failed else Address(e.value.ip, e.value.port)
      case WriteProbe(_) => Probed(Master, true)
      case _ => Done
  }

  /** Everything is answered, and truthfully. */
  function Kind(d: Deployment): World { World(h => AnswerOf(d, h), h => |h|, "host", 1) }

  lemma KindIsTruthful(d: Deployment)
    ensures Truthful(Kind(d), d)
  {
    forall h, s | Kind(d).answer(h + [GetMasterAddr(s)]).Address?
      ensures var r := Kind(d).answer(h + [GetMasterAddr(s)]); Entry(d, h, s) == Some(Target(r.host, r.port))
    {
      assert (h + [GetMasterAddr(s)])[..|h|] == h;
    }
  }

  /** Every Sentinel monitors the old master at first, and every command takes effect. */
  function Start(): Deployment { Deployment(s => Some(OLD), h => true) }

  lemma KindDelivers(from: seq<Io>)
    ensures Delivers(Kind(Start()), Start(), from)
  {
    var w, d := Kind(Start()), Start();
    forall h, s | from <= h && Entry(d, h, s).Some?
      ensures w.answer(h + [GetMasterAddr(s)]) == Address(Entry(d, h, s).value.ip, Entry(d, h, s).value.port)
    {
      assert (h + [GetMasterAddr(s)])[..|h|] == h;
    }
  }

  lemma AlwaysHeals(sentinels: seq<string>, p: Proc)
    requires sentinels != []
    ensures var q := CheckRun(Kind(Start()), Eager(sentinels), BookNames(), SENTINEL, View(false, OLD.ip, OLD.port),
                              AddrOf(NEW), [WRITER, GONE], false, p);
            q.counts[HealOk] == p.counts[HealOk] + 1
  {
    BookIsLawful();
    OneWriter();
    KnownTarget(NEW);
    AlwaysDue(Kind(Start()), sentinels, p);
    KindDelivers(p.hist);
    StaleCheckHeals(Kind(Start()), Start(), Eager(sentinels), BookNames(), SENTINEL, View(false, OLD.ip, OLD.port),
                    AddrOf(NEW), [WRITER, GONE], false, p);
  }

  const FRESH := Proc(None, [], map c: Counter | true :: 0, 0, 0, 0)

  lemma StaleAtFirst()
    ensures StaleSet(Start(), [], BookNames(), AddrOf(NEW), {SENTINEL}) == {SENTINEL}
  {
    AddrsDiffer();
  }

  ghost predicate Leads(ms: seq<Member>, f: Fleet, parts: seq<Part>, g: Fleet) {
    PartsRun(ms, BookNames(), AddrOf(NEW), {SENTINEL}, f, parts, g)
  }

  /** A part of a tick of one of the processes, which all check the one Sentinel. */
  ghost predicate OnSentinel(ms: seq<Member>, w: World, part: Part) {
    && part.who < |ms| && ms[part.who] == Member(Eager([SENTINEL]), w)
    && part.facts == Seen([SENTINEL]) && (part.Check? ==> part.k == 0)
  }

  function ChecksIn(parts: seq<Part>): nat {
    if parts == [] then 0 else (if parts[0].Check? then 1 else 0) + ChecksIn(parts[1..])
  }

  lemma PartFits(ms: seq<Member>, w: World, f: Fleet, part: Part)
    requires |ms| == |f.procs| && OnSentinel(ms, w, part)
    ensures Fitting(ms, BookNames(), AddrOf(NEW), {SENTINEL}, f, part)
  {
    SeenIsObserved([SENTINEL]);
  }

  lemma PartCounts(ms: seq<Member>, f: Fleet, part: Part)
    requires |ms| == |f.procs| && OnSentinel(ms, Kind(Start()), part)
    ensures Fitting(ms, BookNames(), AddrOf(NEW), {SENTINEL}, f, part)
    ensures var g := RunPart(ms, f, part);
            && |g.procs| == |f.procs|
            && TotalHeals(g.procs) == TotalHeals(f.procs) + if part.Check? then 1 else 0
  {
    PartFits(ms, Kind(Start()), f, part);
    var p := At(f, part.who);
    if part.Check? {
      AlwaysHeals([SENTINEL], p);
    } else {
      BeginKeeps(Start(), BookNames(), AddrOf(NEW), {SENTINEL}, part.facts, p);
    }
    TotalUpdate(f.procs, part.who, RunPart(ms, f, part).procs[part.who]);
  }

  /** Every check heals, whatever was done before. */
  lemma {:induction false} EveryCheckHeals(ms: seq<Member>, f: Fleet, parts: seq<Part>) returns (g: Fleet)
    requires |ms| == |f.procs| && forall part | part in parts :: OnSentinel(ms, Kind(Start()), part)
    ensures Leads(ms, f, parts, g) && TotalHeals(g.procs) == TotalHeals(f.procs) + ChecksIn(parts)
    decreases parts
  {
    if parts == [] {
      g := f;
    } else {
      PartCounts(ms, f, parts[0]);
      g := EveryCheckHeals(ms, RunPart(ms, f, parts[0]), parts[1..]);
    }
  }

  const TWO := Fleet([], [FRESH, FRESH])

  /** The ticks of two processes that check one Sentinel: both take their views, and then both check. */
  function Overlap(): seq<Part> {
    var t := Seen([SENTINEL]);
    [Begin(0, t), Begin(1, t), Check(0, t, 0), Check(1, t, 0)]
  }

  function Both(w: World): seq<Member> { [Member(Eager([SENTINEL]), w), Member(Eager([SENTINEL]), w)] }

  lemma OverlapChecks()
    ensures ChecksIn(Overlap()) == 2
  {
    var parts := Overlap();
    assert parts[1..][1..] == parts[2..] && parts[2..][1..] == parts[3..] && parts[3..][1..] == [];
    assert ChecksIn(parts[3..]) == 1 + ChecksIn([]);
    assert ChecksIn(parts) == ChecksIn(parts[2..]) == 1 + ChecksIn(parts[3..]);
  }

  lemma MonitorableParts(names: Names, parts: seq<Part>, addr: string)
    requires names.monitorable(addr) && forall part | part in parts :: part.facts.found == Unique(addr)
    ensures AllMonitorable(names, parts)
  {}

  lemma OverlapFinds()
    ensures forall part | part in Overlap() :: part.facts.found == Unique(AddrOf(NEW))
  {}

  lemma OverlapMonitors()
    ensures AllMonitorable(BookNames(), Overlap())
  {
    KnownTarget(NEW);
    OverlapFinds();
    MonitorableParts(BookNames(), Overlap(), AddrOf(NEW));
  }

  lemma OverlapHeals() returns (g: Fleet)
    ensures Leads(Both(Kind(Start())), TWO, Overlap(), g) && TotalHeals(g.procs) == TotalHeals(TWO.procs) + 2
  {
    OverlapChecks();
    g := EveryCheckHeals(Both(Kind(Start())), TWO, Overlap());
  }

  lemma BothAreKind()
    ensures forall m | m in Both(Kind(Start())) :: Truthful(m.world, Start()) && Delivers(m.world, Start(), TWO.hist)
  {
    KindIsTruthful(Start());
    KindDelivers(TWO.hist);
    assert forall m | m in Both(Kind(Start())) :: m.world == Kind(Start());
  }

  /** Two processes that check one Sentinel take their views, and then the first heals it and the second heals it
      again, although everything is delivered and both ticks observe what the code does. */
  lemma OldViewHealsTwice() returns (g: Fleet)
    ensures Observed(Eager([SENTINEL]), Seen([SENTINEL]))
    ensures forall m | m in Both(Kind(Start())) :: Truthful(m.world, Start()) && Delivers(m.world, Start(), TWO.hist)
    ensures PartsRun(Both(Kind(Start())), BookNames(), AddrOf(NEW), {SENTINEL}, TWO, Overlap(), g)
    ensures AllMonitorable(BookNames(), Overlap())
    ensures TotalHeals(g.procs) - TotalHeals(TWO.procs) == 2
    ensures |StaleSet(Start(), TWO.hist, BookNames(), AddrOf(NEW), {SENTINEL})| == 1
  {
    SeenIsObserved([SENTINEL]);
    BothAreKind();
    OverlapMonitors();
    StaleAtFirst();
    g := OverlapHeals();
  }

  lemma PartHeals(k: nat, p: Proc)
    requires k < 2
    ensures Checks(Eager([SENTINEL, SENTINEL]), Seen([SENTINEL, SENTINEL]), k)
    ensures CheckPart(Kind(Start()), Eager([SENTINEL, SENTINEL]), Seen([SENTINEL, SENTINEL]), k, p).counts[HealOk]
         == p.counts[HealOk] + 1
  {
    AlwaysHeals([SENTINEL, SENTINEL], p);
  }

  lemma {:induction false} PartsHeal(n: nat, p: Proc)
    requires n <= 2
    ensures PartsOf(Kind(Start()), Eager([SENTINEL, SENTINEL]), Seen([SENTINEL, SENTINEL]), n, p).counts[HealOk]
         == p.counts[HealOk] + n
  {
    if n > 0 {
      PartsHeal(n - 1, p);
      PartHeals(n - 1, PartsOf(Kind(Start()), Eager([SENTINEL, SENTINEL]), Seen([SENTINEL, SENTINEL]), n - 1, p));
    }
  }

  lemma TickHealsTwice()
    ensures var cfg, t := Eager([SENTINEL, SENTINEL]), Seen([SENTINEL, SENTINEL]);
            Actable(cfg, t) && TickRun(Kind(Start()), cfg, t, FRESH).counts[HealOk] == 2
  {
    TickIsParts(Kind(Start()), Eager([SENTINEL, SENTINEL]), Seen([SENTINEL, SENTINEL]), FRESH);
    PartsHeal(2, FRESH);
  }

  /** One process that lists a Sentinel twice heals it twice in one tick. */
  lemma ListedTwiceHealsTwice()
    ensures var cfg, t := Eager([SENTINEL, SENTINEL]), Seen([SENTINEL, SENTINEL]);
            Observed(cfg, t) && Actable(cfg, t) && TickRun(Kind(Start()), cfg, t, FRESH).counts[HealOk] == 2
    ensures |StaleSet(Start(), FRESH.hist, BookNames(), AddrOf(NEW), {SENTINEL})| == 1
  {
    SeenIsObserved([SENTINEL, SENTINEL]);
    StaleAtFirst();
    TickHealsTwice();
  }

  // ----- a Sentinel without a master -----

  /** Every Sentinel monitors the old master at first, and every command takes effect but the fifth, which in the
      overlapping ticks is the first MONITOR. */
  function Lossy(): Deployment { Deployment(s => Some(OLD), h => |h| != 5) }

  lemma CheckFits(w: World, f: Fleet, i: nat)
    requires i < |f.procs| == 2
    ensures Runnable(Both(w), f, Check(i, Seen([SENTINEL]), 0)) && Runnable(Both(w), f, Begin(i, Seen([SENTINEL])))
  {
    PartFits(Both(w), w, f, Check(i, Seen([SENTINEL]), 0));
    PartFits(Both(w), w, f, Begin(i, Seen([SENTINEL])));
  }

  lemma BeginsAre(w: World) returns (f: Fleet)
    ensures |f.procs| == 2 && f.hist == [Wake, Wake]
    ensures var t := Seen([SENTINEL]);
            && Runnable(Both(w), TWO, Begin(0, t))
            && Runnable(Both(w), RunPart(Both(w), TWO, Begin(0, t)), Begin(1, t))
            && f == RunPart(Both(w), RunPart(Both(w), TWO, Begin(0, t)), Begin(1, t))
  {
    var t := Seen([SENTINEL]);
    CheckFits(w, TWO, 0);
    BeginKeeps(Lossy(), BookNames(), AddrOf(NEW), {}, t, At(TWO, 0));
    var f1 := RunPart(Both(w), TWO, Begin(0, t));
    CheckFits(w, f1, 1);
    BeginKeeps(Lossy(), BookNames(), AddrOf(NEW), {}, t, At(f1, 1));
    f := RunPart(Both(w), f1, Begin(1, t));
  }

  lemma OldAtFirst()
    ensures Entry(Lossy(), [Wake, Wake], SENTINEL) == Some(OLD)
  {
    assert [Wake, Wake][..1] == [Wake] && [Wake][..0] == [];
  }

  lemma FirstIsLost(w: World, cfg: Config, names: Names, masterKey: string, reason: Reason, p: Proc)
    requires p.hist == [Wake, Wake, MasterInfo(SENTINEL)]
    ensures Entry(Lossy(), MonitorRun(w, cfg, names, SENTINEL, masterKey, NEW, reason, p).hist, SENTINEL).None?
  {
    MonitorLosesEntryIff(w, Lossy(), cfg, names, SENTINEL, masterKey, NEW, reason, p);
    assert |p.hist + MonitorHead(cfg, SENTINEL, NEW)| == 5 && |p.hist + [Remove(SENTINEL)]| == 4;
  }

  /** The first check loses the entry: its REMOVE takes effect and its MONITOR does not. */
  lemma FirstLoses(w: World, cfg: Config, names: Names, view: View, masterKey: string, nodes: seq<NodeResult>, p: Proc)
    requires names.Lawful() && OracleAmong(masterKey, nodes) && names.target(masterKey) == Some(NEW) && !cfg.healLease
    requires AttemptDue(w, cfg, names, SENTINEL, view, masterKey, nodes, p) && p.hist == [Wake, Wake]
    ensures Entry(Lossy(), CheckRun(w, cfg, names, SENTINEL, view, masterKey, nodes, false, p).hist, SENTINEL).None?
  {
    var reason, p1 := DueIsMonitorRun(w, cfg, names, SENTINEL, view, masterKey, nodes, false, p);
    FirstIsLost(w, cfg, names, masterKey, reason, p1);
  }

  lemma FirstLosesHere(p: Proc)
    requires p.hist == [Wake, Wake]
    ensures Entry(Lossy(), CheckRun(Kind(Lossy()), Eager([SENTINEL]), BookNames(), SENTINEL,
                                    View(false, OLD.ip, OLD.port), AddrOf(NEW), [WRITER, GONE], false, p).hist,
                  SENTINEL).None?
  {
    BookIsLawful();
    OneWriter();
    KnownTarget(NEW);
    AlwaysDue(Kind(Lossy()), [SENTINEL], p);
    FirstLoses(Kind(Lossy()), Eager([SENTINEL]), BookNames(), View(false, OLD.ip, OLD.port), AddrOf(NEW),
               [WRITER, GONE], p);
  }

  lemma LostIsLonger(h: seq<Io>)
    requires [Wake, Wake] <= h && Entry(Lossy(), h, SENTINEL).None?
    ensures |h| > 2
  {
    OldAtFirst();
    assert h != [Wake, Wake];
  }

  /** The second check, on its old view, gives the Sentinel a master again. */
  lemma SecondGives(p: Proc)
    requires Entry(Lossy(), p.hist, SENTINEL).None? && |p.hist| > 2
    ensures var q := CheckRun(Kind(Lossy()), Eager([SENTINEL]), BookNames(), SENTINEL, View(false, OLD.ip, OLD.port),
                              AddrOf(NEW), [WRITER, GONE], false, p);
            Entry(Lossy(), q.hist, SENTINEL).Some?
  {
    BookIsLawful();
    OneWriter();
    AlwaysDue(Kind(Lossy()), [SENTINEL], p);
    CheckGivesIff(Kind(Lossy()), Lossy(), Eager([SENTINEL]), BookNames(), SENTINEL, View(false, OLD.ip, OLD.port),
                  AddrOf(NEW), [WRITER, GONE], false, p);
  }

  /** Two processes that check one Sentinel take their views, the first leaves it without a master, and the second gives
      it one: a check under way is not held back, unlike every later tick. */
  lemma OldViewMonitorsAgain() returns (f: Fleet, lost: Fleet, g: Fleet)
    ensures Observed(Eager([SENTINEL]), Seen([SENTINEL])) && Truthful(Kind(Lossy()), Lossy())
    ensures var ms, t := Both(Kind(Lossy())), Seen([SENTINEL]);
            && Runnable(ms, TWO, Begin(0, t)) && Runnable(ms, RunPart(ms, TWO, Begin(0, t)), Begin(1, t))
            && f == RunPart(ms, RunPart(ms, TWO, Begin(0, t)), Begin(1, t))
            && Runnable(ms, f, Check(0, t, 0)) && lost == RunPart(ms, f, Check(0, t, 0))
            && Runnable(ms, lost, Check(1, t, 0)) && g == RunPart(ms, lost, Check(1, t, 0))
    ensures Entry(Lossy(), f.hist, SENTINEL) == Some(OLD)
    ensures Entry(Lossy(), lost.hist, SENTINEL).None? && Entry(Lossy(), g.hist, SENTINEL).Some?
  {
    var w, t := Kind(Lossy()), Seen([SENTINEL]);
    SeenIsObserved([SENTINEL]);
    KindIsTruthful(Lossy());
    f := BeginsAre(w);
    OldAtFirst();
    CheckFits(w, f, 0);
    FirstLosesHere(At(f, 0));
    lost := RunPart(Both(w), f, Check(0, t, 0));
    CheckFits(w, lost, 1);
    PartGrows(Both(w), f, Check(0, t, 0));
    LostIsLonger(lost.hist);
    SecondGives(At(lost, 1));
    g := RunPart(Both(w), lost, Check(1, t, 0));
  }
}
