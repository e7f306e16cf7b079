/** Which Redis a tick takes for the oracle, and what can influence that. */
module TickOracle {
  import opened NameBook
  import opened Oracle
  import opened HealPlan
  import opened Process

  lemma {:induction false} TrustedAreProbed(cfg: Config, obs: Observation, order: seq<string>)
    ensures forall n :: n in TrustedNodes(cfg, obs, order)
                        <==> exists a :: a in order && Trusted(cfg, obs.names, a) && n == NodeAt(obs, a)
  {
    if order != [] {
      var rest, a := order[..|order| - 1], order[|order| - 1];
      TrustedAreProbed(cfg, obs, rest);
      assert order == rest + [a];
      assert forall b :: b in order <==> b in rest || b == a;
    }
  }

  lemma ProbedNodes(obs: Observation, order: seq<string>)
    ensures forall n :: n in NodesOf(obs, order) <==> exists a :: a in order && n == NodeAt(obs, a)
  {
    forall a | a in order ensures NodeAt(obs, a) in NodesOf(obs, order) {
      var i :| 0 <= i < |order| && order[i] == a;
      assert NodesOf(obs, order)[i] == NodeAt(obs, a);
    }
  }

  lemma CandidatesAreProbed(cfg: Config, obs: Observation, order: seq<string>)
    ensures forall n | n in OracleNodes(cfg, obs, order) :: n in NodesOf(obs, order)
  {
    TrustedAreProbed(cfg, obs, order);
    ProbedNodes(obs, order);
  }

  /** The oracle is one of the probed nodes. */
  lemma OracleIsProbed(cfg: Config, obs: Observation, order: seq<string>)
    requires FindOracle(cfg, obs, order).Unique?
    ensures OracleAmong(FindOracle(cfg, obs, order).addr, NodesOf(obs, order))
  {
    CandidatesAreProbed(cfg, obs, order);
    var n := FirstWritable(OracleNodes(cfg, obs, order)).value;
    assert n in NodesOf(obs, order);
  }

  /** With seeds configured every seed is a candidate, so the fallback to all nodes is never taken. */
  lemma SeedsAreCandidates(cfg: Config, obs: Observation, order: seq<string>)
    requires obs.names.Lawful() && cfg.redisAddrs != [] && Enumerates(order, Addresses(cfg, obs))
    ensures OracleNodes(cfg, obs, order) == TrustedNodes(cfg, obs, order) != []
    ensures forall a | a in cfg.redisAddrs :: NodeAt(obs, a) in OracleNodes(cfg, obs, order)
  {
    TrustedAreProbed(cfg, obs, order);
    forall a | a in cfg.redisAddrs ensures NodeAt(obs, a) in TrustedNodes(cfg, obs, order) {
      assert a in Addresses(cfg, obs) && obs.names.same(a, a);
      assert Trusted(cfg, obs.names, a);
    }
    assert cfg.redisAddrs[0] in cfg.redisAddrs;
    assert NodeAt(obs, cfg.redisAddrs[0]) in TrustedNodes(cfg, obs, order);
  }

  /** Both lists count the same writables, and where there is one it has one identity. */
  predicate SameOracleIn(names: Names, xs: seq<NodeResult>, ys: seq<NodeResult>) {
    && WritableKeys(names, xs) == WritableKeys(names, ys)
    && (|WritableKeys(names, xs)| == 1 ==>
          && FirstWritable(xs).Some? && FirstWritable(ys).Some?
          && IdentityKey(names, FirstWritable(xs).value) == IdentityKey(names, FirstWritable(ys).value))
  }

  /** Two ticks that see the same seeds through the same probes agree on how many Redis are writable and
      on the identity of the oracle, whatever else Sentinel reports in either of them: addresses that are
      no seed's endpoint have no say. */
  lemma SentinelCannotMoveOracle(cfg: Config, obs1: Observation, order1: seq<string>,
                                 obs2: Observation, order2: seq<string>)
    requires obs1.names == obs2.names && obs1.names.Lawful() && cfg.redisAddrs != []
    requires Enumerates(order1, Addresses(cfg, obs1)) && Enumerates(order2, Addresses(cfg, obs2))
    requires forall a | IsSeed(cfg, obs1.names, a) :: a in order1 <==> a in order2
    requires forall a | IsSeed(cfg, obs1.names, a) :: obs1.probe(a) == obs2.probe(a)
    ensures var xs, ys := OracleNodes(cfg, obs1, order1), OracleNodes(cfg, obs2, order2);
            SameOracleIn(obs1.names, xs, ys)
  {
    SeedsAreCandidates(cfg, obs1, order1);
    SeedsAreCandidates(cfg, obs2, order2);
    TrustedAreProbed(cfg, obs1, order1);
    TrustedAreProbed(cfg, obs2, order2);
    OracleIgnoresOrder(obs1.names, OracleNodes(cfg, obs1, order1), OracleNodes(cfg, obs2, order2));
  }

  /** Every writable node at a seed's endpoint, however its address is spelled, counts as one of the writable seeds. */
  ghost predicate AliasesAreSeeds(cfg: Config, obs: Observation, order: seq<string>) {
    forall a | a in order && IsSeed(cfg, obs.names, a) && IsWritableMaster(NodeAt(obs, a)) ::
      IdentityKey(obs.names, NodeAt(obs, a)) in WritableKeys(obs.names, NodesOf(obs, cfg.redisAddrs))
  }

  /** The candidates are the nodes at a seed's endpoint, under any spelling. */
  lemma CandidatesAtSeeds(cfg: Config, obs: Observation, order: seq<string>)
    requires obs.names.Lawful() && cfg.redisAddrs != [] && Enumerates(order, Addresses(cfg, obs))
    ensures forall n :: n in OracleNodes(cfg, obs, order)
                        <==> exists a :: a in order && IsSeed(cfg, obs.names, a) && n == NodeAt(obs, a)
    ensures forall n | n in NodesOf(obs, cfg.redisAddrs) :: n in OracleNodes(cfg, obs, order)
  {
    SeedsAreCandidates(cfg, obs, order);
    TrustedAreProbed(cfg, obs, order);
    ProbedNodes(obs, cfg.redisAddrs);
  }

  lemma KeysOfMore(names: Names, few: seq<NodeResult>, many: seq<NodeResult>)
    requires forall n | n in few :: n in many
    ensures WritableKeys(names, many) == WritableKeys(names, few)
            <==> forall n | n in many && IsWritableMaster(n) :: IdentityKey(names, n) in WritableKeys(names, few)
  {}

  /** With seeds configured the writable count and identities are those of the configured seeds alone exactly when
      other spellings of a seed, as a Sentinel may report them, count as seeds. */
  lemma SeedsDecideIff(cfg: Config, obs: Observation, order: seq<string>)
    requires obs.names.Lawful() && cfg.redisAddrs != [] && Enumerates(order, Addresses(cfg, obs))
    ensures var keys := WritableKeys(obs.names, OracleNodes(cfg, obs, order));
            keys == WritableKeys(obs.names, NodesOf(obs, cfg.redisAddrs)) <==> AliasesAreSeeds(cfg, obs, order)
  {
    CandidatesAtSeeds(cfg, obs, order);
    KeysOfMore(obs.names, NodesOf(obs, cfg.redisAddrs), OracleNodes(cfg, obs, order));
  }

  /** So two ticks that probe the configured seeds alike agree on the writable count and on the identity of the oracle,
      whatever a Sentinel reports in either of them: neither addresses it invents nor other spellings of a seed that
      are probed as that seed have a say. */
  lemma AliasesCannotMoveOracle(cfg: Config, obs1: Observation, order1: seq<string>, obs2: Observation,
                                order2: seq<string>)
    requires obs1.names == obs2.names && obs1.names.Lawful() && cfg.redisAddrs != []
    requires Enumerates(order1, Addresses(cfg, obs1)) && Enumerates(order2, Addresses(cfg, obs2))
    requires forall a | a in cfg.redisAddrs :: obs1.probe(a) == obs2.probe(a)
    requires AliasesAreSeeds(cfg, obs1, order1) && AliasesAreSeeds(cfg, obs2, order2)
    ensures var xs, ys := OracleNodes(cfg, obs1, order1), OracleNodes(cfg, obs2, order2);
            SameOracleIn(obs1.names, xs, ys)
  {
    SeedsDecideIff(cfg, obs1, order1);
    SeedsDecideIff(cfg, obs2, order2);
    assert NodesOf(obs1, cfg.redisAddrs) == NodesOf(obs2, cfg.redisAddrs);
    SameKeysSameOracle(obs1.names, OracleNodes(cfg, obs1, order1), OracleNodes(cfg, obs2, order2));
  }

  lemma SameKeysSameOracle(names: Names, xs: seq<NodeResult>, ys: seq<NodeResult>)
    requires WritableKeys(names, xs) == WritableKeys(names, ys)
    ensures SameOracleIn(names, xs, ys)
  {
    if |WritableKeys(names, xs)| != 1 { return; }
    var k :| k in WritableKeys(names, xs);
    SingletonMember(WritableKeys(names, xs), IdentityKey(names, FirstWritable(xs).value),
                    IdentityKey(names, FirstWritable(ys).value));
  }

  /** Facts of a tick that the theorems about its commands need, and every observed tick has. */
  ghost predicate Sound(cfg: Config, t: TickFacts) {
    && Actable(cfg, t) && t.obs.names.Lawful()
    && (t.found.Unique? ==> OracleAmong(t.found.addr, t.nodes))
  }

  lemma ObservedIsSound(cfg: Config, t: TickFacts)
    requires Observed(cfg, t) && t.obs.names.Lawful()
    ensures Sound(cfg, t)
  {
    if t.found.Unique? {
      var order :| ObservedIn(cfg, t, order);
      OracleIsProbed(cfg, t.obs, order);
    }
  }
}
