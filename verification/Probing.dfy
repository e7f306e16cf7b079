/** Which Redis nodes a tick probes, and what it concludes from them, said of what was configured, advertised and
    listed. */
module Probing {
  import opened Text
  import Endpoint
  import opened NameBook
  import opened Oracle
  import opened HealPlan
  import opened Metrics
  import opened Process
  import EpochTrap
  import opened TickOracle
  import opened HealTrace

  /** An address is probed that is configured, or advertised by a Sentinel that answered with a host, or reported by a
      Sentinel's master and replica lists. */
  ghost predicate ToProbe(cfg: Config, obs: Observation, addr: string) {
    || addr in cfg.redisAddrs
    || (exists v | v in obs.views ::
          !v.err && v.host != "" && addr == Endpoint.JoinHostPort(v.host, Itoa(v.port)))
    || addr in obs.discovered
  }

  /** A node as it was probed. */
  predicate ProbedAs(n: NodeResult, addr: string, p: Probe) {
    n.addr == addr && n.role == p.role && n.writable == p.writable && n.runId == p.runId && n.err == p.err
  }

  /** The nodes of a tick are exactly what probing those addresses gave, each once. */
  lemma NodesAreProbed(cfg: Config, t: TickFacts)
    requires Observed(cfg, t) && cfg.sentinelAddrs != []
    ensures forall n :: n in t.nodes <==> exists a :: ToProbe(cfg, t.obs, a) && ProbedAs(n, a, t.obs.probe(a))
    ensures forall i, j | 0 <= i < j < |t.nodes| :: t.nodes[i].addr != t.nodes[j].addr
  {
    var order :| ObservedIn(cfg, t, order);
    ProbedNodes(t.obs, order);
    AddressesAre(cfg, t.obs);
    forall n ensures n in t.nodes <==> exists a :: ToProbe(cfg, t.obs, a) && ProbedAs(n, a, t.obs.probe(a)) {
      if n in t.nodes {
        var a :| a in order && n == NodeAt(t.obs, a);
        assert ToProbe(cfg, t.obs, a) && ProbedAs(n, a, t.obs.probe(a));
      }
      if a :| ToProbe(cfg, t.obs, a) && ProbedAs(n, a, t.obs.probe(a)) {
        assert a in order && n == NodeAt(t.obs, a);
      }
    }
  }

  lemma AddressesAre(cfg: Config, obs: Observation)
    ensures forall a :: a in Addresses(cfg, obs) <==> ToProbe(cfg, obs, a)
  {}

  lemma ProbedIsNode(cfg: Config, t: TickFacts, a: string)
    requires Observed(cfg, t) && cfg.sentinelAddrs != [] && ToProbe(cfg, t.obs, a)
    ensures NodeAt(t.obs, a) in t.nodes && ProbedAs(NodeAt(t.obs, a), a, t.obs.probe(a))
  {
    NodesAreProbed(cfg, t);
    assert ProbedAs(NodeAt(t.obs, a), a, t.obs.probe(a));
  }

  /** An address that a Sentinel lists is probed. */
  lemma DiscoveredAreProbed(cfg: Config, t: TickFacts, a: string)
    requires Observed(cfg, t) && cfg.sentinelAddrs != [] && a in t.obs.discovered
    ensures NodeAt(t.obs, a) in t.nodes && ProbedAs(NodeAt(t.obs, a), a, t.obs.probe(a))
  {
    ProbedIsNode(cfg, t, a);
  }

  // ----- which Sentinels are asked about their epochs -----

  /** A Sentinel is asked that is configured, or that the first one lists with an ip and a port. */
  ghost predicate ToAsk(cfg: Config, obs: Observation, addr: string) {
    cfg.sentinelAddrs != [] &&
      (addr in cfg.sentinelAddrs
       || exists p | p in obs.peers :: p.ip != "" && p.port != "" && addr == p.ip + ":" + p.port)
  }

  /** Those are asked and no others, each under one of its spellings by case. */
  ghost predicate AsksEachOnce(cfg: Config, obs: Observation, asked: seq<string>) {
    && (forall a | a in asked :: ToAsk(cfg, obs, a))
    && (forall a | ToAsk(cfg, obs, a) :: exists b :: b in asked && EqualFold(a, b))
    && (forall i, j | 0 <= i < j < |asked| :: !EqualFold(asked[i], asked[j]))
  }

  /** A tick sees a trap exactly when two of the Sentinels it asks name different masters, and the epochs that can be
      read are one. */
  lemma TickTrap(cfg: Config, t: TickFacts)
    requires Observed(cfg, t)
    ensures exists asked :: AsksEachOnce(cfg, t.obs, asked) &&
              (t.trap <==> EpochTrap.Disagree(t.obs.ask, asked) && EpochTrap.OneEpoch(t.obs.ask, asked))
  {
    var candidates := EpochTrap.Candidates(cfg.sentinelAddrs, t.obs.peers);
    var asked := EpochTrap.Asked(candidates);
    EpochTrap.PeersDialed(t.obs.peers);
    EpochTrap.AskedCoversOnce(candidates);
    assert forall a :: a in candidates <==> ToAsk(cfg, t.obs, a);
    forall a | ToAsk(cfg, t.obs, a) ensures exists b :: b in asked && EqualFold(a, b) {
      assert ToLower(a) in EpochTrap.Lowered(candidates);
      var b :| b in asked && ToLower(b) == ToLower(a);
    }
    EpochTrap.TrapOfAnswers(t.obs.ask, asked);
    assert AsksEachOnce(cfg, t.obs, asked);
  }

  // ----- from the nodes to the finding -----

  /** The nodes that count for the oracle: those at a seed's endpoint, or all where no seeds are configured. */
  ghost predicate Counts(cfg: Config, names: Names, n: NodeResult) {
    cfg.redisAddrs == [] || exists seed | seed in cfg.redisAddrs :: names.same(n.addr, seed)
  }

  lemma CandidatesCount(cfg: Config, obs: Observation, order: seq<string>)
    requires obs.names.Lawful() && Enumerates(order, Addresses(cfg, obs))
    ensures forall n :: n in OracleNodes(cfg, obs, order) <==>
              n in NodesOf(obs, order) && Counts(cfg, obs.names, n)
  {
    TrustedAreProbed(cfg, obs, order);
    ProbedNodes(obs, order);
    if cfg.redisAddrs != [] { SeedsAreCandidates(cfg, obs, order); }
  }

  /** The node counts, answered, is a master and took a write. */
  ghost predicate Writes(cfg: Config, t: TickFacts, n: NodeResult) {
    n in t.nodes && Counts(cfg, t.obs.names, n) && !n.err && n.role.Master? && n.writable
  }

  lemma FoundFrom(cfg: Config, t: TickFacts) returns (candidates: seq<NodeResult>)
    requires Observed(cfg, t) && t.obs.names.Lawful() && cfg.sentinelAddrs != []
    ensures forall n :: n in candidates <==> n in t.nodes && Counts(cfg, t.obs.names, n)
    ensures t.found == if Addresses(cfg, t.obs) == {} then NoRedis else Conclude(t.obs.names, candidates)
  {
    var order :| ObservedIn(cfg, t, order);
    candidates := OracleNodes(cfg, t.obs, order);
    CandidatesCount(cfg, t.obs, order);
  }

  /** The tick finds nothing to probe exactly when no address is configured, advertised or listed. */
  lemma NoRedisMeans(cfg: Config, t: TickFacts)
    requires Observed(cfg, t) && t.obs.names.Lawful() && cfg.sentinelAddrs != []
    ensures t.found.NoRedis? <==> forall a :: !ToProbe(cfg, t.obs, a)
  {
    var candidates := FoundFrom(cfg, t);
    AddressesAre(cfg, t.obs);
    if Addresses(cfg, t.obs) == {} {
      forall a ensures !ToProbe(cfg, t.obs, a) { assert !(a in Addresses(cfg, t.obs)); }
    } else {
      var a :| a in Addresses(cfg, t.obs);
      assert ToProbe(cfg, t.obs, a);
    }
  }

  /** Otherwise it finds: no node that writes; nodes that write under different identities, and how many those are; or
      one identity, and the address of a node that writes. */
  lemma FindingMeans(cfg: Config, t: TickFacts)
    requires Observed(cfg, t) && t.obs.names.Lawful() && cfg.sentinelAddrs != [] && !t.found.NoRedis?
    ensures t.found.NoneWritable? <==> forall n :: !Writes(cfg, t, n)
    ensures t.found.ManyWritable? <==>
              exists m, n :: Writes(cfg, t, m) && Writes(cfg, t, n)
                             && IdentityKey(t.obs.names, m) != IdentityKey(t.obs.names, n)
    ensures t.found.Unique? ==> exists n :: Writes(cfg, t, n) && t.found.addr == n.addr
    ensures t.found.ManyWritable? ==> exists keys :: t.found.count == |keys| && AreWriters(cfg, t, keys)
  {
    var candidates := FoundFrom(cfg, t);
    var keys := WritableKeys(t.obs.names, candidates);
    KeysOfWriters(cfg, t, candidates);
    ConclusionMeans(t.obs.names, candidates);
    WritersOf(cfg, t, keys);
    if t.found.Unique? { assert Writes(cfg, t, FirstWritable(candidates).value); }
  }

  /** These are the identities of the nodes that write. */
  ghost predicate AreWriters(cfg: Config, t: TickFacts, keys: set<string>) {
    forall k :: k in keys <==> exists n :: Writes(cfg, t, n) && IdentityKey(t.obs.names, n) == k
  }

  lemma WritersOf(cfg: Config, t: TickFacts, keys: set<string>)
    requires AreWriters(cfg, t, keys)
    ensures keys == {} <==> forall n :: !Writes(cfg, t, n)
    ensures (exists a, b :: a in keys && b in keys && a != b) <==>
            exists m, n :: Writes(cfg, t, m) && Writes(cfg, t, n)
                           && IdentityKey(t.obs.names, m) != IdentityKey(t.obs.names, n)
  {
    forall n | Writes(cfg, t, n) ensures IdentityKey(t.obs.names, n) in keys {}
    if k :| k in keys {
      var n :| Writes(cfg, t, n) && IdentityKey(t.obs.names, n) == k;
    }
    if a, b :| a in keys && b in keys && a != b {
      var m :| Writes(cfg, t, m) && IdentityKey(t.obs.names, m) == a;
      var n :| Writes(cfg, t, n) && IdentityKey(t.obs.names, n) == b;
    }
  }

  lemma KeysOfWriters(cfg: Config, t: TickFacts, candidates: seq<NodeResult>)
    requires forall n :: n in candidates <==> n in t.nodes && Counts(cfg, t.obs.names, n)
    ensures forall n :: n in candidates && IsWritableMaster(n) <==> Writes(cfg, t, n)
    ensures AreWriters(cfg, t, WritableKeys(t.obs.names, candidates))
  {
    forall k ensures k in WritableKeys(t.obs.names, candidates) <==>
                     exists n :: Writes(cfg, t, n) && IdentityKey(t.obs.names, n) == k
    {
      if k in WritableKeys(t.obs.names, candidates) {
        var n :| n in candidates && IsWritableMaster(n) && IdentityKey(t.obs.names, n) == k;
        assert Writes(cfg, t, n);
      }
      if n :| Writes(cfg, t, n) && IdentityKey(t.obs.names, n) == k {
        assert n in candidates && IsWritableMaster(n);
      }
    }
  }

  lemma ConclusionMeans(names: Names, candidates: seq<NodeResult>)
    ensures var f, keys := Conclude(names, candidates), WritableKeys(names, candidates);
            && (f.NoneWritable? <==> keys == {})
            && (f.ManyWritable? <==> exists m, n :: m in keys && n in keys && m != n)
            && (f.ManyWritable? ==> f.count == |keys|)
            && (f.Unique? <==> exists k :: keys == {k})
            && (f.Unique? ==> FirstWritable(candidates).Some? && f.addr == FirstWritable(candidates).value.addr)
  {
    var keys := WritableKeys(names, candidates);
    EpochTrap.TwoMembers(keys);
    WritableMeans(names, candidates);
    if |keys| == 1 {
      var k :| k in keys;
      SubsetCardinality({k}, keys);
    }
  }

  // ----- what a listed writable does -----

  lemma TwoWritablesNoHeal(w: World, cfg: Config, names: Names, s: string, view: View, masterKey: string,
                           nodes: seq<NodeResult>, trap: bool, p: Proc)
    requires names.Lawful() && OracleAmong(masterKey, nodes) && |WritableKeys(names, nodes)| >= 2
    ensures CheckRun(w, cfg, names, s, view, masterKey, nodes, trap, p).counts[HealAttempt] == p.counts[HealAttempt]
  {
    HealGate(w, cfg, names, s, view, masterKey, nodes, trap, p);
  }

  lemma {:induction false} ChecksNoHeal(w: World, cfg: Config, t: TickFacts, k: nat, p: Proc)
    requires Sound(cfg, t) && t.found.Unique? && k <= |t.obs.views|
    requires |WritableKeys(t.obs.names, t.nodes)| >= 2
    ensures ChecksRun(w, cfg, t.obs, t.found.addr, t.nodes, t.trap, k, p).counts[HealAttempt] == p.counts[HealAttempt]
  {
    if k > 0 {
      ChecksNoHeal(w, cfg, t, k - 1, p);
      TwoWritablesNoHeal(w, cfg, t.obs.names, cfg.sentinelAddrs[k - 1], t.obs.views[k - 1], t.found.addr, t.nodes,
                         t.trap, ChecksRun(w, cfg, t.obs, t.found.addr, t.nodes, t.trap, k - 1, p));
    }
  }

  lemma TickNoHeal(w: World, cfg: Config, t: TickFacts, p: Proc)
    requires Sound(cfg, t) && (t.found.Unique? ==> |WritableKeys(t.obs.names, t.nodes)| >= 2)
    ensures TickRun(w, cfg, t, p).counts[HealAttempt] == p.counts[HealAttempt]
  {
    if t.found.Unique? {
      var p1 := Started(p).(writable := 1);
      ChecksNoHeal(w, cfg, t, CheckCount(cfg), if t.trap then p1.Inc(AlertEqualEpochTrap) else p1);
    }
  }

  lemma TwoIdentities(cfg: Config, t: TickFacts, a: string, b: string)
    requires Observed(cfg, t) && cfg.sentinelAddrs != [] && ToProbe(cfg, t.obs, a) && ToProbe(cfg, t.obs, b)
    requires IsWritableMaster(NodeAt(t.obs, a)) && IsWritableMaster(NodeAt(t.obs, b))
    requires IdentityKey(t.obs.names, NodeAt(t.obs, a)) != IdentityKey(t.obs.names, NodeAt(t.obs, b))
    ensures |WritableKeys(t.obs.names, t.nodes)| >= 2
  {
    var m, n, keys := NodeAt(t.obs, a), NodeAt(t.obs, b), WritableKeys(t.obs.names, t.nodes);
    ProbedIsNode(cfg, t, a);
    ProbedIsNode(cfg, t, b);
    assert IdentityKey(t.obs.names, m) in keys && IdentityKey(t.obs.names, n) in keys;
    SubsetCardinality({IdentityKey(t.obs.names, m), IdentityKey(t.obs.names, n)}, keys);
  }

  /** Two probed nodes that write under different identities, wherever their addresses came from, stop every heal of the
      tick: a second writable that only a Sentinel lists is enough. */
  lemma SecondWritableStopsHeals(w: World, cfg: Config, t: TickFacts, p: Proc, a: string, b: string)
    requires Observed(cfg, t) && t.obs.names.Lawful() && cfg.sentinelAddrs != []
    requires ToProbe(cfg, t.obs, a) && ToProbe(cfg, t.obs, b)
    requires IsWritableMaster(NodeAt(t.obs, a)) && IsWritableMaster(NodeAt(t.obs, b))
    requires IdentityKey(t.obs.names, NodeAt(t.obs, a)) != IdentityKey(t.obs.names, NodeAt(t.obs, b))
    ensures Actable(cfg, t) && TickRun(w, cfg, t, p).counts[HealAttempt] == p.counts[HealAttempt]
  {
    ObservedIsSound(cfg, t);
    TwoIdentities(cfg, t, a, b);
    TickNoHeal(w, cfg, t, p);
  }
}
