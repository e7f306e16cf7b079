/** What a heal may do: the safety check before FAILOVER and the plan that follows from it. */
module HealPlan {
  import opened Text
  import opened NameBook
  import opened Oracle

  datatype Reason =
    | LiveNonOracle          // advertised_is_live_non_oracle
    | LiveWritableNotOracle  // advertised_is_live_writable_not_oracle
    | OracleNotInTopology    // oracle_not_in_topology
    | EqualEpochEscalate     // equal_epoch_escalate
    | NoWritable             // no_writable_master
    | DualMaster             // dual_master
    | AdvertisedUnreachable  // advertised_down_or_unreachable_use_monitor
    | MayPromoteNonOracle    // failover_may_promote_non_oracle

  datatype Action = Failover | Monitor | Refuse

  datatype Plan = Plan(action: Action, reason: Reason)

  datatype Safety = Safety(safe: bool, why: Reason)

  predicate AdvertisedDown(flags: string) {
    Contains(flags, "s_down") || Contains(flags, "o_down") || Contains(flags, "disconnected")
  }

  predicate OracleListed(names: Names, masterKey: string, nodes: seq<NodeResult>) {
    exists n | n in nodes :: !n.err && names.same(n.addr, masterKey) && (n.role.Master? || n.role.Slave?)
  }

  predicate AdvertisedWritable(names: Names, advertised: string, nodes: seq<NodeResult>) {
    exists n | n in nodes :: IsWritableMaster(n) && names.same(n.addr, advertised)
  }

  predicate AdvertisedLiveReplica(names: Names, advertised: string, masterKey: string, nodes: seq<NodeResult>) {
    && !names.same(advertised, masterKey)
    && exists n | n in nodes :: !n.err && n.role.Slave? && names.same(n.addr, advertised)
  }

  /** Why FAILOVER is not used, from what the probed nodes say about the oracle and the advertised address. */
  function PromoteSafety(names: Names, advertised: string, masterKey: string, flags: string,
                         nodes: seq<NodeResult>): Safety
  {
    var writable := AdvertisedWritable(names, advertised, nodes);
    if !OracleListed(names, masterKey, nodes) then Safety(false, OracleNotInTopology)
    else if AdvertisedLiveReplica(names, advertised, masterKey, nodes) then Safety(false, LiveNonOracle)
    else if writable && !names.same(advertised, masterKey) then Safety(false, LiveWritableNotOracle)
    else if AdvertisedDown(flags) || !writable then Safety(false, AdvertisedUnreachable)
    else Safety(false, MayPromoteNonOracle)
  }

  method FailoverPromoteSafe(names: Names, advertised: string, masterKey: string, flags: string,
                             nodes: seq<NodeResult>) returns (s: Safety)
    ensures s == PromoteSafety(names, advertised, masterKey, flags, nodes)
  {
    var advReachableMaster, advertisedLiveNonOracle, oracleIsReplicaOrMaster := false, false, false;
    for i := 0 to |nodes|
      invariant oracleIsReplicaOrMaster == OracleListed(names, masterKey, nodes[..i])
      invariant advReachableMaster == AdvertisedWritable(names, advertised, nodes[..i])
      invariant advertisedLiveNonOracle == AdvertisedLiveReplica(names, advertised, masterKey, nodes[..i])
    {
      var n := nodes[i];
      assert nodes[..i + 1] == nodes[..i] + [n];
      if n.err { continue; }
      if names.same(n.addr, masterKey) && (n.role.Master? || n.role.Slave?) {
        oracleIsReplicaOrMaster := true;
      }
      if !names.same(n.addr, advertised) { continue; }
      if n.role.Master? && n.writable { advReachableMaster := true; }
      if n.role.Slave? && !names.same(advertised, masterKey) { advertisedLiveNonOracle := true; }
    }
    assert nodes[..|nodes|] == nodes;
    if !oracleIsReplicaOrMaster { return Safety(false, OracleNotInTopology); }
    if advertisedLiveNonOracle { return Safety(false, LiveNonOracle); }
    if advReachableMaster && !names.same(advertised, masterKey) { return Safety(false, LiveWritableNotOracle); }
    if AdvertisedDown(flags) || !advReachableMaster { return Safety(false, AdvertisedUnreachable); }
    return Safety(false, MayPromoteNonOracle);
  }

  function PlanApplyHeal(writableCount: int, failoverSafe: bool, why: Reason, equalEpochTrap: bool,
                         escalate: bool): Plan
  {
    if writableCount <= 0 then Plan(Refuse, NoWritable)
    else if writableCount >= 2 then Plan(Refuse, DualMaster)
    else if failoverSafe then Plan(Failover, why)
    else if why.LiveWritableNotOracle? || why.OracleNotInTopology? then Plan(Refuse, why)
    else if why.LiveNonOracle? || why.AdvertisedUnreachable? then Plan(Monitor, why)
    else if equalEpochTrap && escalate then Plan(Refuse, EqualEpochEscalate)
    else Plan(Monitor, why)
  }

  /** The policy as a table: what leads to FAILOVER, to MONITOR, and to each refusal. */
  lemma PlanCases(count: int, safe: bool, why: Reason, trap: bool, escalate: bool)
    ensures var p := PlanApplyHeal(count, safe, why, trap, escalate);
            var blocked := why.LiveWritableNotOracle? || why.OracleNotInTopology?;
            var stale := why.LiveNonOracle? || why.AdvertisedUnreachable?;
            && (p.action.Failover? <==> count == 1 && safe)
            && (p.action.Monitor? <==> count == 1 && !safe && !blocked && (stale || !(trap && escalate)))
            && (p == Plan(Refuse, NoWritable) <== count <= 0) && (p == Plan(Refuse, DualMaster) <== count >= 2)
            && (count == 1 && !safe && blocked ==> p == Plan(Refuse, why))
            && (count == 1 && !safe && !blocked && !stale && trap && escalate ==> p == Plan(Refuse, EqualEpochEscalate))
            && (p.action.Monitor? || p.action.Failover? ==> p.reason == why)
  {}

  /** The plan of a heal, as made from one list of probed nodes. */
  function PlanFor(names: Names, advertised: string, masterKey: string, flags: string,
                   nodes: seq<NodeResult>, trap: bool, escalate: bool): Plan
  {
    var s := PromoteSafety(names, advertised, masterKey, flags, nodes);
    PlanApplyHeal(|WritableKeys(names, nodes)|, s.safe, s.why, trap, escalate)
  }

  datatype Credentials = Credentials(user: string, pass: string)

  /** Sentinel's own credential pair when any part of it is set, else the probe's pair. */
  function MasterAuth(probe: Credentials, sentinel: Credentials): Credentials {
    if sentinel.user != "" || sentinel.pass != "" then sentinel else probe
  }

  datatype AuthOption = AuthUser | AuthPass

  function AuthAfterMonitor(auth: Credentials): seq<(AuthOption, string)> {
    (if auth.user != "" then [(AuthUser, auth.user)] else []) +
    (if auth.pass != "" then [(AuthPass, auth.pass)] else [])
  }

  /** The advertised master is down by Sentinel's own flags: one of three words stands in them. */
  lemma DownIff(flags: string)
    ensures AdvertisedDown(flags) <==>
            exists a, word, b ::
              flags == a + word + b && (word == "s_down" || word == "o_down" || word == "disconnected")
  {
    ContainsIff(flags, "s_down");
    ContainsIff(flags, "o_down");
    ContainsIff(flags, "disconnected");
    if AdvertisedDown(flags) {
      var word := if Contains(flags, "s_down") then "s_down" else if Contains(flags, "o_down") then "o_down"
                  else "disconnected";
      var a, b :| flags == a + word + b;
    }
  }

  /** FAILOVER is never safe, and the reason is the first that applies: the oracle is no known master or replica that
      answered; the advertised address is another endpoint and a live replica; it is another and a live writable; it is
      down or no live writable; and otherwise that a promotion might pick another replica. */
  lemma SafetyReasons(names: Names, advertised: string, masterKey: string, flags: string, nodes: seq<NodeResult>)
    ensures var s := PromoteSafety(names, advertised, masterKey, flags, nodes);
            var listed := exists n | n in nodes ::
                            !n.err && (n.role.Master? || n.role.Slave?) && names.same(n.addr, masterKey);
            var other := !names.same(advertised, masterKey);
            var replica := exists n | n in nodes :: !n.err && n.role.Slave? && names.same(n.addr, advertised);
            var writer := exists n | n in nodes ::
                            !n.err && n.role.Master? && n.writable && names.same(n.addr, advertised);
            && !s.safe
            && (s.why.OracleNotInTopology? <==> !listed)
            && (s.why.LiveNonOracle? <==> listed && other && replica)
            && (s.why.LiveWritableNotOracle? <==> listed && other && !replica && writer)
            && (s.why.MayPromoteNonOracle? <==> listed && !other && writer && !AdvertisedDown(flags))
            && (s.why.AdvertisedUnreachable? <==>
                  listed && !(other && (replica || writer)) && (AdvertisedDown(flags) || !writer))
  {}

  // ----- what can come out of a plan -----

  /** A node of the list is the oracle a diverged check works with. */
  ghost predicate OracleAmong(masterKey: string, nodes: seq<NodeResult>) {
    exists n | n in nodes :: IsWritableMaster(n) && n.addr == masterKey
  }

  /** In a diverged check the oracle is listed and a plan is MONITOR or one of two refusals, so neither
      FAILOVER, nor the equal-epoch flag, nor the escalate setting, nor Sentinel's flags can matter. */
  lemma DivergedPlan(names: Names, advertised: string, masterKey: string, flags: string,
                     nodes: seq<NodeResult>, trap: bool, escalate: bool)
    requires names.Lawful() && OracleAmong(masterKey, nodes) && !names.same(advertised, masterKey)
    ensures var p := PlanFor(names, advertised, masterKey, flags, nodes, trap, escalate);
            && (p.action.Monitor? ==> p.reason.LiveNonOracle? || p.reason.AdvertisedUnreachable?)
            && (p.action.Monitor? ==>
                  (p.reason.LiveNonOracle? <==> AdvertisedLiveReplica(names, advertised, masterKey, nodes)))
            && (p.action.Refuse? ==> p.reason.DualMaster? || p.reason.LiveWritableNotOracle?)
            && (p.reason.DualMaster? <==> |WritableKeys(names, nodes)| >= 2)
            && !p.action.Failover?
            && forall f, t, e :: p == PlanFor(names, advertised, masterKey, f, nodes, t, e)
  {
    var n :| n in nodes && IsWritableMaster(n) && n.addr == masterKey;
    assert names.same(n.addr, masterKey);
    assert IdentityKey(names, n) in WritableKeys(names, nodes);
  }

  /** The advertised address does not stand in the way of MONITOR: it is a live replica, or no live master that
      accepts writes. */
  predicate AdGivesWay(names: Names, advertised: string, masterKey: string, nodes: seq<NodeResult>) {
    AdvertisedLiveReplica(names, advertised, masterKey, nodes) || !AdvertisedWritable(names, advertised, nodes)
  }

  /** A diverged check plans MONITOR exactly when one distinct Redis is writable among all probed nodes and the
      advertised address gives way. */
  lemma MonitorIff(names: Names, advertised: string, masterKey: string, flags: string,
                   nodes: seq<NodeResult>, trap: bool, escalate: bool)
    requires names.Lawful() && OracleAmong(masterKey, nodes) && !names.same(advertised, masterKey)
    ensures PlanFor(names, advertised, masterKey, flags, nodes, trap, escalate).action.Monitor?
            <==> |WritableKeys(names, nodes)| == 1 && AdGivesWay(names, advertised, masterKey, nodes)
  {
    DivergedPlan(names, advertised, masterKey, flags, nodes, trap, escalate);
    var o :| o in nodes && IsWritableMaster(o) && o.addr == masterKey;
    assert names.same(o.addr, masterKey);
    assert IdentityKey(names, o) in WritableKeys(names, nodes);
  }

  /** Where identity is endpoint the advertised address always gives way to a unique writable, so MONITOR is planned
      exactly when one distinct Redis is writable among all probed nodes; otherwise two are, and that is the reason. */
  lemma MonitorIffUnique(names: Names, advertised: string, masterKey: string, flags: string,
                         nodes: seq<NodeResult>, trap: bool, escalate: bool)
    requires names.Lawful() && OracleAmong(masterKey, nodes) && !names.same(advertised, masterKey)
    requires IdentityIsEndpoint(names, nodes) && names.caseless(advertised)
    ensures var p := PlanFor(names, advertised, masterKey, flags, nodes, trap, escalate);
            && (p.action.Monitor? <==> |WritableKeys(names, nodes)| == 1)
            && (!p.action.Monitor? <==> p == Plan(Refuse, DualMaster))
  {
    DivergedPlan(names, advertised, masterKey, flags, nodes, trap, escalate);
    MonitorIff(names, advertised, masterKey, flags, nodes, trap, escalate);
    if |WritableKeys(names, nodes)| == 1 {
      UniqueGivesWay(names, advertised, masterKey, nodes);
    }
  }

  lemma UniqueGivesWay(names: Names, advertised: string, masterKey: string, nodes: seq<NodeResult>)
    requires names.Lawful() && OracleAmong(masterKey, nodes) && !names.same(advertised, masterKey)
    requires IdentityIsEndpoint(names, nodes) && names.caseless(advertised) && |WritableKeys(names, nodes)| == 1
    ensures AdGivesWay(names, advertised, masterKey, nodes)
  {
    var o :| o in nodes && IsWritableMaster(o) && o.addr == masterKey;
    UniqueWritableIsOracle(names, advertised, o, nodes);
  }

  /** A unique writable cannot be a live writable other than the oracle. */
  lemma UniqueWritableIsOracle(names: Names, advertised: string, oracle: NodeResult, nodes: seq<NodeResult>)
    requires names.Lawful() && oracle in nodes && IsWritableMaster(oracle) && |WritableKeys(names, nodes)| == 1
    requires IdentityIsEndpoint(names, nodes) && names.caseless(advertised)
    ensures AdvertisedWritable(names, advertised, nodes) ==> names.same(advertised, oracle.addr)
  {
    if AdvertisedWritable(names, advertised, nodes) {
      var n :| n in nodes && IsWritableMaster(n) && names.same(n.addr, advertised);
      SingletonMember(WritableKeys(names, nodes), IdentityKey(names, n), IdentityKey(names, oracle));
      assert names.same(n.addr, oracle.addr) && names.same(advertised, n.addr);
    }
  }

  /** A plan does not depend on the order in which the nodes were probed, nor on which spelling of
      the oracle was chosen. */
  lemma PlanIgnoresOrder(names: Names, advertised: string, m1: string, m2: string, flags: string,
                         xs: seq<NodeResult>, ys: seq<NodeResult>, trap: bool, escalate: bool)
    requires names.Lawful() && names.same(m1, m2)
    requires names.caseless(m1) || (names.caseless(advertised) && OracleAmong(m1, xs) && OracleAmong(m2, ys))
    requires forall n :: n in xs <==> n in ys
    ensures PlanFor(names, advertised, m1, flags, xs, trap, escalate)
         == PlanFor(names, advertised, m2, flags, ys, trap, escalate)
  {
    assert WritableKeys(names, xs) == WritableKeys(names, ys);
    SameListed(names, m1, m2, xs, ys);
    SameOracle(names, advertised, m1, m2);
    assert AdvertisedWritable(names, advertised, xs) == AdvertisedWritable(names, advertised, ys);
    assert AdvertisedLiveReplica(names, advertised, m1, xs) == AdvertisedLiveReplica(names, advertised, m2, ys);
  }

  lemma SameListed(names: Names, m1: string, m2: string, xs: seq<NodeResult>, ys: seq<NodeResult>)
    requires names.Lawful() && names.same(m1, m2)
    requires names.caseless(m1) || (OracleAmong(m1, xs) && OracleAmong(m2, ys))
    requires forall n :: n in xs <==> n in ys
    ensures OracleListed(names, m1, xs) == OracleListed(names, m2, ys)
  {
    if names.caseless(m1) {
      forall a ensures names.same(a, m1) == names.same(a, m2) { SameOracle(names, a, m1, m2); }
    } else {
      OracleIsListed(names, m1, xs);
      OracleIsListed(names, m2, ys);
    }
  }

  lemma OracleIsListed(names: Names, masterKey: string, nodes: seq<NodeResult>)
    requires names.Lawful() && OracleAmong(masterKey, nodes)
    ensures OracleListed(names, masterKey, nodes)
  {
    var n :| n in nodes && IsWritableMaster(n) && n.addr == masterKey;
    assert names.same(n.addr, masterKey);
  }

  lemma SameOracle(names: Names, a: string, m1: string, m2: string)
    requires names.Lawful() && names.same(m1, m2) && (names.caseless(m1) || names.caseless(a))
    ensures names.same(a, m1) == names.same(a, m2)
  {
    assert names.Chain(a, m1, m2) && names.Chain(m1, m2, a) && names.Chain(a, m2, m1);
  }

  /** Probing more addresses turns a refusal into a MONITOR exactly when one distinct Redis is writable all the same,
      the advertised address was refused as another live writable, and one of the further nodes is a live replica at
      that address. */
  lemma ExtraNodesMonitorIff(names: Names, advertised: string, masterKey: string, flags: string,
                             few: seq<NodeResult>, many: seq<NodeResult>, trap: bool, escalate: bool)
    requires names.Lawful() && OracleAmong(masterKey, few) && !names.same(advertised, masterKey)
    requires forall n :: n in few ==> n in many
    ensures var p, q := PlanFor(names, advertised, masterKey, flags, few, trap, escalate),
                        PlanFor(names, advertised, masterKey, flags, many, trap, escalate);
            !p.action.Monitor? && q.action.Monitor? <==>
              && |WritableKeys(names, many)| == 1 && AdvertisedWritable(names, advertised, few)
              && !AdvertisedLiveReplica(names, advertised, masterKey, few)
              && AdvertisedLiveReplica(names, advertised, masterKey, many)
  {
    var o :| o in few && IsWritableMaster(o) && o.addr == masterKey;
    assert IdentityKey(names, o) in WritableKeys(names, few) && o in many;
    MoreNodesMoreWritables(names, few, many);
    MonitorIff(names, advertised, masterKey, flags, few, trap, escalate);
    MonitorIff(names, advertised, masterKey, flags, many, trap, escalate);
    assert AdvertisedWritable(names, advertised, few) ==> AdvertisedWritable(names, advertised, many);
  }

  /** Addresses that only Sentinel reported can turn a MONITOR into a refusal and never a refusal into a MONITOR; the
      refusal is that two Redis are writable, where identity is endpoint among them too. */
  lemma ExtraNodesOnlyRefuse(names: Names, advertised: string, masterKey: string, flags: string,
                             few: seq<NodeResult>, many: seq<NodeResult>, trap: bool, escalate: bool)
    requires names.Lawful() && OracleAmong(masterKey, few) && !names.same(advertised, masterKey)
    requires forall n :: n in few ==> n in many
    requires IdentityIsEndpoint(names, few) && names.caseless(advertised)
    ensures var p, q := PlanFor(names, advertised, masterKey, flags, few, trap, escalate),
                        PlanFor(names, advertised, masterKey, flags, many, trap, escalate);
            && (q.action.Monitor? ==> p.action.Monitor?)
            && (!q.action.Monitor? ==> q.action.Refuse? && (q.reason.DualMaster? || q.reason.LiveWritableNotOracle?))
            && (!q.action.Monitor? && IdentityIsEndpoint(names, many) ==> q == Plan(Refuse, DualMaster))
  {
    MonitorIffUnique(names, advertised, masterKey, flags, few, trap, escalate);
    MoreNodesMoreWritables(names, few, many);
    var o :| o in few && IsWritableMaster(o) && o.addr == masterKey;
    assert IdentityKey(names, o) in WritableKeys(names, few) && o in many;
    DivergedPlan(names, advertised, masterKey, flags, many, trap, escalate);
    MonitorIff(names, advertised, masterKey, flags, many, trap, escalate);
    if IdentityIsEndpoint(names, many) {
      MonitorIffUnique(names, advertised, masterKey, flags, many, trap, escalate);
    }
  }
}
