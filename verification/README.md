# A verified model of the Redis Sentinel reconciler

The reconciler is a sidecar of a Redis Sentinel. Every few seconds it runs a *tick*: it collects Redis addresses
from its configured seeds and from the Sentinels, probes each of them, and decides whether exactly one Redis accepts
writes (the *oracle*). A Sentinel that advertises another master has *diverged*; after several guards, and under a
lease kept on the oracle itself, the tick heals it with REMOVE and MONITOR. This project models that decision, its
effects and their accounting, and proves what they promise over every run.

## How the model is built

- **The outside world is arbitrary.** `Process.World` answers each command, and reads the clock, as an unconstrained
  function of everything the process has done before. A statement about all worlds covers every pattern of lost,
  late, failed and lying answers.
- **The loop is imperative.** `Reconciler.Reconciler` is a class with the fields the program updates: the date of the
  last heal, the metric set and, in place of the network, the history of commands. Its methods follow the program's
  branches and loops and are proved to end in exactly the state given by the functions of module `Process`
  (`MonitorRun`, `AttemptRun`, `HealRun`, `LeasedHeal`, `ApplyRun`, `CheckRun`, `TickRun`). The theorems are about those
  functions and about runs made of them.
- **The functions are pinned from outside.** `Probing`, `Guards` and `Outcomes`, and lemmas beside the smaller
  functions, say what each of those functions means without naming it or another of the program's terms: which texts, nodes,
  addresses and answers make a check heal, refuse or count, as if-and-only-ifs.
- **Reading comes before acting.** What a tick reads (advertised masters, probe results, discovered addresses, epoch
  samples) is an `Observation`. The order in which a Go map yields addresses is a nondeterministic choice, and
  `OrderFree` shows that it has no effect where identity is endpoint, but for one spelling of IPv6 literals.
- **Names are fixed during a tick.** `Names` is what the resolver makes of addresses during one tick; the program looks
  names up again on every comparison. The laws assumed of `Names` are proved for every resolver that ignores case and
  prints addresses in the usual form (`ResolverIsLawful`).
- **Three notions of "the same Redis"** are kept apart: equality by case or resolved key, the ip and port given to
  MONITOR, and the run id or first resolved address by which writables are counted. Their agreement on a list of nodes
  is the hypothesis `IdentityIsEndpoint`, and `AddressIdentityIsEndpoint` says when it holds without run ids.
- **Many processes.** In `Fleets` and `Convergence` whole ticks of any number of processes follow one another on one
  history; in `SharedSentinels` their single checks mix in any order, and in `Interleave` their single commands. In
  `HealLease` SETNX, GET, EXPIRE, the heal and the passing of time are separate steps that interleave freely;
  `LeaseCheck` shows that a check is such a run, and `LeaseLog` that any log of interleaved processes is.

| module | subject |
|---|---|
| `Text`, `Endpoint`, `EndpointLaws`, `NameBook` | strings, addresses, resolution, when two addresses are one Redis |
| `Oracle`, `HealPlan`, `TickOracle` | the writable count, the plan of a heal, what can influence the oracle |
| `EpochTrap` | Sentinels that disagree under equal epochs |
| `Metrics`, `Accounting` | counters, gauges, and their conservation |
| `Process`, `Reconciler` | the tick as functions, and as the program runs it |
| `Probing`, `Guards`, `Outcomes` | what is probed, when a check heals, and what it then counts, in terms of what was configured, seen and answered |
| `HealTrace`, `Cooldown`, `Fleets`, `OrderFree` | commands sent over whole runs, their rate, independence of map order |
| `Convergence`, `SharedSentinels`, `Unmonitored`, `OldViews` | convergence, shared Sentinels, lost entries, views of any age |
| `Interleave`, `SharedLog` | commands of any number of processes interleaved one by one |
| `HealLease`, `LeaseCheck`, `LeaseGrammar`, `LeaseLog` | the lease as an interleaved protocol, and checks and logs of processes as runs of it |
| `Labels`, `EnvFile`, `Knobs` | label escaping, the configuration file, the several names of one setting |

## Where the code and its description differ

The model follows the code.

- `failoverPromoteSafe` never answers yes, so FAILOVER is never planned, although the log line of a dry run and the
  heal sequence mention it (`DivergedPlan`, `RunTouches`).
- The refusal for equal epochs cannot be reached inside a diverged check: one of the earlier reasons always applies, and
  `alert_equal_epoch_escalate` stays at zero in every run (`RunTouches`).
- `docs/configuration.md:8-9` puts the process environment before the file. A file value beats the `RSR_` spelling of
  the variable; `DocumentedOrderIff` says exactly when the two orders agree.
- An oracle that resolves to IPv6 only, or whose port is not canonical decimal, is not recognised in what a Sentinel
  advertises after MONITOR, so that heal fails (`MonitorFixpoint`, `Ipv6IsNotItself`, `DeliveredHealIff`).
- A REMOVE that takes effect followed by a MONITOR that does not leaves a Sentinel that no later tick touches
  (`MonitorLosesEntryIff`, `UnmonitoredIsAbsorbing`), so convergence to zero stale Sentinels needs MONITOR to succeed.
  Only a check already under way, on a view from before, can give it a master again (`StaysWithoutIff`,
  `OldViewMonitorsAgain`).
- The result of EXPIRE is not looked at: a late one breaks both the exclusion the lease is for and the spacing of
  heals, a lost one breaks the spacing, and a shared holder id breaks both (`LeaseExcludesIff`, `SpacingIff`).
- Views are taken when a tick begins, and nothing looks again before a heal: a Sentinel that two processes check, or one
  lists twice, can be healed again after it was healed. `BoundIffDeserved` says exactly when heals stay bounded by the
  Sentinels that were stale (`OldViewHealsTwice`, `ListedTwiceHealsTwice`).
- A MONITOR target is an IPv6 literal as the address spells it, so which spelling of the oracle a Go map yields first
  can show in the command, for such literals only (`SameTargetIff`, `SpellingShowsIff`).

## Model

| member | source | states |
|---|---|---|
| `Endpoint.FirstV4IsPreferred` | internal/reconcile/reconcile.go:612-621 | the address an answer stands for is its first IPv4, wherever in the answer it comes |
| `Endpoint.ResolveKey` | internal/reconcile/reconcile.go:603-623 | the search loop computes the resolved key: first IPv4, else the first of all, else the lower-cased text |
| `Endpoint.EndpointIPPort` | internal/reconcile/reconcile.go:572-594 | the MONITOR target of an address, or none exactly when splitting, the port or the lookup fails |
| `Endpoint.SplitFold` | internal/reconcile/reconcile.go:572-576 | splitting host and port commutes with case: it succeeds for both spellings or neither, with parts equal by case |
| `Endpoint.SameIffKey` | internal/reconcile/reconcile.go:596-623 | for an address whose port holds no letter, being the same endpoint is having the same resolved key, for every other address |
| `Text.AtoiIff` | internal/reconcile/reconcile.go:577 | a text is a 64-bit number exactly when it is decimal digits of that value behind at most one sign |
| `EndpointLaws.SameIsEquivalence` | internal/reconcile/reconcile.go:596-601 | "same endpoint" is reflexive and symmetric, and transitive as soon as one of the three ports holds no letter |
| `EndpointLaws.KeyDecidesSame` | internal/reconcile/reconcile.go:596-623 | the resolved key decides "same endpoint" for an address if and only if its port holds no letter or it does not resolve |
| `EndpointLaws.LetterSplitsKey` | internal/reconcile/reconcile.go:596-623 | otherwise there is another spelling that compares equal and has another key |
| `EndpointLaws.MonitorFixpoint` | internal/reconcile/reconcile.go:488-500 | what a Sentinel advertises after MONITOR is the monitored endpoint if and only if the target is IPv4 and the port is canonical decimal |
| `EndpointLaws.MonitorableKey` | internal/reconcile/reconcile.go:572-623 | for such an address the advertised text is exactly its resolved key |
| `EndpointLaws.Ipv6IsNotItself` | internal/reconcile/reconcile.go:494-495 | a name with one IPv6 address is never recognised after MONITOR, because host and port are printed without brackets |
| `EndpointLaws.SameTargetIff` | internal/reconcile/reconcile.go:572-594 | two spellings of one endpoint give the same MONITOR arguments if and only if neither is an IPv6 literal written otherwise than it prints, or both have the same host text |
| `EndpointLaws.SpellingMattersIff` | internal/reconcile/reconcile.go:581-593 | all usual spellings of an endpoint give the MONITOR arguments of an address if and only if it is no such literal itself |
| `EndpointLaws.OddIsIpv6` | internal/reconcile/reconcile.go:581-583 | such literals are IPv6 literals |
| `NameBook.ResolverIsLawful` | internal/reconcile/reconcile.go:572-623 | every resolver satisfies the laws the tick theorems assume of names, for every address |
| `NameBook.IdentityIsKeyIff` | internal/oracle/probe.go:137-150 | the address part of a node identity is its resolved key if and only if the first answer is IPv4 or none is (or, unresolved, the text is lower case) |
| `Oracle.ClassifyWritable` | internal/oracle/probe.go:117-135 | the loop counts the distinct identities of the writable masters and returns the first writable master |
| `Oracle.FirstIsReported` | internal/oracle/probe.go:117-135 | the node reported is the first that answered, is a master and took a write |
| `Oracle.WritableMeans` | internal/oracle/probe.go:117-135 | an identity is counted exactly when a node of it answered, is a master and took a write |
| `Oracle.IdentityMeans` | internal/oracle/probe.go:137-140 | nodes count as one Redis by run id where both were read, whatever their addresses, and by address where neither was |
| `Oracle.OracleIgnoresOrder` | internal/oracle/probe.go:117-135 | count and identity of the unique writable do not depend on the order of the nodes; nor does the endpoint where identity is endpoint |
| `Oracle.MoreNodesMoreWritables` | internal/oracle/probe.go:117-135 | probing more nodes never lowers the distinct writable count |
| `Oracle.AddressIdentityIsEndpoint` | internal/oracle/probe.go:137-150 | nodes known by address whose first answer is the preferred one satisfy the identity hypothesis |
| `HealPlan.FailoverPromoteSafe` | internal/reconcile/reconcile.go:531-570 | the flag-collecting loop equals a definition by existence of nodes |
| `HealPlan.SafetyReasons` | internal/reconcile/reconcile.go:531-570 | each reason against FAILOVER, as an if-and-only-if over the nodes: the first of the five that applies |
| `HealPlan.DownIff` | internal/reconcile/reconcile.go:532 | the advertised master is down exactly when one of three words stands in the flags |
| `HealPlan.PlanCases` | internal/reconcile/heal_plan.go:32-58 | what leads to FAILOVER, to MONITOR and to each refusal, for every count, reason, trap and setting |
| `HealPlan.DivergedPlan` | internal/reconcile/heal_plan.go:33-58 | in a diverged check a plan is MONITOR or one of two refusals, MONITOR is reasoned "live replica" exactly when the advertised address is one, DUAL is refused exactly for two or more writables, FAILOVER is never planned, and flags, trap and escalate setting never matter |
| `HealPlan.MonitorIff` | internal/reconcile/reconcile.go:379-404 | a diverged check plans MONITOR if and only if exactly one distinct Redis is writable among all probed nodes and the advertised address is a live replica or no live writable |
| `HealPlan.MonitorIffUnique` | internal/reconcile/reconcile.go:379-404 | where identity is endpoint, the unique writable alone decides, and the refusal is dual_master; any addresses may be among the nodes |
| `HealPlan.UniqueWritableIsOracle` | internal/reconcile/reconcile.go:560-562 | where identity is endpoint, a unique writable cannot be a live writable other than the oracle |
| `HealPlan.PlanIgnoresOrder` | internal/reconcile/reconcile.go:531-570 | the plan does not depend on probe order or on which spelling of the oracle was found first |
| `HealPlan.ExtraNodesMonitorIff` | internal/reconcile/reconcile.go:379-382 | further probed addresses, whatever they are, turn a refusal into MONITOR if and only if one distinct Redis is writable all the same, the advertised address was refused as another live writable, and a further node is a live replica there |
| `HealPlan.ExtraNodesOnlyRefuse` | internal/reconcile/reconcile.go:379-382 | so where identity is endpoint among the first nodes they only turn MONITOR into a refusal, which is dual_master where identity is endpoint among all of them |
| `TickOracle.OracleIsProbed` | internal/reconcile/reconcile.go:255-276 | the oracle a tick settles on is a writable master among the nodes it probed |
| `TickOracle.SeedsAreCandidates` | internal/reconcile/reconcile.go:216-257 | with seeds configured every seed is a candidate and the fallback to all nodes is never taken |
| `TickOracle.SentinelCannotMoveOracle` | internal/reconcile/reconcile.go:183-259 | addresses that are no seed's endpoint change neither the writable count nor the identity of the oracle |
| `TickOracle.SeedsDecideIff` | internal/reconcile/reconcile.go:226-257 | count and identities are those of the configured seeds alone if and only if every writable node at a seed's endpoint, under any spelling, counts as one of the writable seeds |
| `TickOracle.AliasesCannotMoveOracle` | internal/reconcile/reconcile.go:183-259 | then whatever a Sentinel reports, invented addresses or other spellings of seeds, changes neither |
| `TickOracle.ObservedIsSound` | internal/reconcile/reconcile.go:151-302 | what the code makes of any observation meets the premises of the theorems about commands |
| `Probing.NodesAreProbed` | internal/reconcile/reconcile.go:183-254 | the nodes of a tick are exactly the probed answers of the addresses that are configured, advertised with a host by a Sentinel that answered, or listed by a Sentinel, each once |
| `Probing.DiscoveredAreProbed` | internal/reconcile/reconcile.go:193-208 | every address a Sentinel lists is probed, and its answer is among the nodes |
| `Probing.TickTrap` | internal/reconcile/epoch.go:28-92 | a tick sees a trap exactly when, among the configured Sentinels and the peers the first of them lists with ip and port, each asked under one spelling, two name different masters and the epochs that can be read are one |
| `Probing.NoRedisMeans` | internal/reconcile/reconcile.go:210-214 | the tick finds no Redis exactly when no address is configured, advertised or listed |
| `Probing.FindingMeans` | internal/reconcile/reconcile.go:216-276 | it finds no writable exactly when no node that counts answered as a master and took a write, several exactly when two such nodes have different identities, and how many identities those are; otherwise one, and the oracle is the address of such a node |
| `Probing.SecondWritableStopsHeals` | internal/reconcile/reconcile.go:193-404 | two probed nodes that write under different identities stop every heal of the tick, wherever their addresses came from: one that only a Sentinel lists is enough |
| `EpochTrap.AskedCoversOnce` | internal/reconcile/epoch.go:28-36 | every listed Sentinel is sampled, and no two sampled addresses are equal by case |
| `EpochTrap.Add` | internal/reconcile/epoch.go:30-53 | the accumulating closure keeps the seen set and the samples in step with the sampled addresses |
| `EpochTrap.CollectSamples` | internal/reconcile/epoch.go:55-74 | configured Sentinels first, then the dialable peers of the first one |
| `EpochTrap.ReportOn` | internal/reconcile/epoch.go:76-92 | the two set-building loops report a trap if and only if two ads differ by case and no two known epochs differ; the reported lists are the ads and the known epochs in sample order |
| `EpochTrap.DetectEqualEpochTrap` | internal/reconcile/epoch.go:21-93 | the whole report, as that characterisation of what was sampled |
| `EpochTrap.TrapBySets` | internal/reconcile/epoch.go:87-91 | the size tests on the two sets mean that characterisation |
| `EpochTrap.TrapIsStable` | internal/reconcile/epoch.go:76-91 | reordering samples, or adding one of unknown epoch, never clears a trap |
| `EpochTrap.TrapOfAnswers` | internal/reconcile/epoch.go:37-92 | a trap, said of what the Sentinels answered: two name masters that differ by more than case, and no two that name a master have epochs that read as different numbers |
| `EpochTrap.EpochOfReads` | internal/reconcile/epoch.go:44-51 | an epoch counts as n exactly when its text is the number n and not negative |
| `EpochTrap.EpochsAreRead` | internal/reconcile/epoch.go:44-51 | every printed 64-bit epoch is read back, and a missing one is unknown |
| `EpochTrap.KnownEpochsAre` | internal/reconcile/epoch.go:82-85 | the reported epochs are those of the samples but for the unknown ones |
| `EpochTrap.PeersDialed` | internal/reconcile/epoch.go:61-67 | the peers dialed are exactly those listed with an ip and a port |
| `Metrics.MetricSet.constructor` | internal/reconcile/metrics.go:61-77 | every counter is registered at zero |
| `Metrics.MetricSet.Inc` | internal/reconcile/metrics.go:93-103 | a registered key grows by one, an unknown one is ignored |
| `Metrics.MetricSet.ResetTickGauges` | internal/reconcile/metrics.go:105-114 | the three last-tick gauges go to zero |
| `Metrics.MetricSet.SetWritableMasters` | internal/reconcile/metrics.go:116-123 | the writable gauge is set |
| `Metrics.MetricSet.NoteDiverged` | internal/reconcile/metrics.go:125-132 | the diverged gauge is set |
| `Metrics.MetricSet.NoteWouldHeal` | internal/reconcile/metrics.go:134-141 | the would-heal gauge is set |
| `Metrics.KeysDiffer` | internal/reconcile/metrics.go:28-43 | no two counters share a registered key |
| `Metrics.IncrementsRegistered` | internal/reconcile/metrics.go:28-43 | each name the loop increments by reaches the counter registered under that name |
| `Metrics.BumpByName` | internal/reconcile/metrics.go:86-103 | incrementing by name moves that counter and no other |
| `Accounting.AttemptOutcome` | internal/reconcile/reconcile.go:415-474 | an attempt ends in exactly one of heal_ok and heal_fail, through every failure branch, and is dated |
| `Accounting.HealOutcome` | internal/reconcile/reconcile.go:379-474 | a heal closes exactly one open diverge; only an unresolvable oracle ends one without an attempt |
| `Accounting.CheckBalances` | internal/reconcile/reconcile.go:304-365 | one check leaves no diverge open, finishes a heal without an attempt exactly when one is given up, and moves exactly one of noop and diverge unless the Sentinel did not answer |
| `Accounting.ChecksBalance` | internal/reconcile/reconcile.go:367-373 | the same over the checks of a tick: noop and diverge together grow by the number of Sentinels that answered |
| `Accounting.CountersConserved` | internal/reconcile/reconcile.go:151-376 | over any run: diverge = would_heal + apply_refused + heal_ok + heal_fail; heal_ok + heal_fail = heal_attempt + heals given up because the oracle did not resolve; with one Sentinel to check, ticks = noop + diverge + skipped + three alerts |
| `Accounting.ResolvedRunAborts` | internal/reconcile/reconcile.go:408-413 | no heal of a run is given up when every oracle of the run has a MONITOR target |
| `Accounting.GaugesTellLastTick` | internal/reconcile/metrics.go:105-141 | after any tick the gauges tell of that tick alone |
| `Reconciler.Reconciler.constructor` | internal/reconcile/reconcile.go:68-82 | defaults as New sets them, empty history, no heal yet, all counters zero |
| `Reconciler.Reconciler.CountReachableSeeds` | internal/reconcile/guards.go:61-84 | the number of listed seeds for which an answering node is the same endpoint; without seeds, of answering nodes |
| `Reconciler.Reconciler.SeedsSuffice` | internal/reconcile/guards.go:38-52 | the reachable-seed guard with its automatic minimum |
| `Reconciler.Reconciler.PreflightApply` | internal/reconcile/guards.go:19-53 | passes exactly when all four guards do, and a refusal is counted once |
| `Reconciler.Reconciler.AcquireHealLease` | internal/reconcile/lease.go:14-47 | SETNX, GET and EXPIRE in order, their answers, and the verdict |
| `Reconciler.Reconciler.VerifyHeal` | internal/reconcile/reconcile.go:476-500 | GET compared with the oracle, then a write probe |
| `Reconciler.Reconciler.RebindAuth` | internal/reconcile/reconcile.go:442-449 | one SET for each credential, in order, whatever is answered |
| `Reconciler.Reconciler.HealByMonitor` | internal/reconcile/reconcile.go:435-474 | history and counters after REMOVE, MONITOR, SETs, verification and RESET |
| `Reconciler.Reconciler.AttemptHeal` | internal/reconcile/reconcile.go:415-433 | the attempt is dated and counted before anything is sent |
| `Reconciler.Reconciler.PlanHeal` | internal/reconcile/reconcile.go:380-382 | the plan made from all probed nodes |
| `Reconciler.Reconciler.HealApi` | internal/reconcile/reconcile.go:396-413 | refusal and unresolvable-oracle branches ahead of an attempt |
| `Reconciler.Reconciler.HealUnderLease` | internal/reconcile/reconcile.go:345-364 | the lease decides between refusal and heal |
| `Reconciler.Reconciler.Apply` | internal/reconcile/reconcile.go:336-364 | flags, preflight, plan, lease and heal of one check |
| `Reconciler.Reconciler.CheckDiverge` | internal/reconcile/reconcile.go:304-365 | the whole new state after one check |
| `Reconciler.Reconciler.CollectAddresses` | internal/reconcile/reconcile.go:183-208 | the addresses probed: seeds, advertised and discovered ones |
| `Reconciler.Reconciler.MatchesSeed` | internal/reconcile/reconcile.go:227-235 | whether an address is some seed's endpoint |
| `Reconciler.Reconciler.ProbeAll` | internal/reconcile/reconcile.go:224-257 | each address is probed once, in an arbitrary order, and seed endpoints become candidates |
| `Reconciler.Reconciler.Classify` | internal/reconcile/reconcile.go:259-276 | the conclusion from the candidates: alert or unique oracle |
| `Reconciler.Reconciler.ObserveRedis` | internal/reconcile/reconcile.go:183-276 | probing and concluding, for some probe order |
| `Reconciler.Reconciler.SampleEpochs` | internal/reconcile/reconcile.go:284-302 | the trap flag |
| `Reconciler.Reconciler.ActOnFinding` | internal/reconcile/reconcile.go:261-376 | alerts, or the checks of this tick |
| `Reconciler.Reconciler.CheckFirst` | internal/reconcile/reconcile.go:367-373 | the checks, one after the other |
| `Reconciler.Reconciler.StartTick` | internal/reconcile/reconcile.go:152-153 | tick counted, gauges reset |
| `Reconciler.Reconciler.Tick` | internal/reconcile/reconcile.go:151-376 | a whole tick, as a function of what it observed and the state before |
| `Reconciler.Reconciler.Run` | internal/reconcile/reconcile.go:114-135 | tick after tick, the state is that of the run of what was observed, so every theorem about runs holds of the loop |
| `Guards.CheckAttemptsIff` | internal/reconcile/reconcile.go:304-416 | a check attempts a heal if and only if apply is on, the Sentinel answered with another address than the oracle, this process may apply, the flags hold neither failover word where that is heeded, the cooldown is over, enough seeds answered, the lease is given where one is used, one Redis is writable, the advertised address gives way and the oracle resolves; all in terms of configuration, nodes and answers |
| `Guards.FailoverFlagsIff` | internal/reconcile/guards.go:55-59 | flags tell of a failover exactly when either of two words stands in them, in any case |
| `Guards.FailoverStopsHeals` | internal/reconcile/guards.go:24-27 | either word, anywhere in the flags and in any case, stops the heal of every check of a process that heeds it |
| `Guards.LeaseAsks` | internal/reconcile/lease.go:15-43 | SETNX goes to the oracle under the configured holder, else the host name, else the process id, for the configured time or fifteen minutes; GET and EXPIRE go to the same address, EXPIRE for the same time |
| `Guards.LeaseGrantedIff` | internal/reconcile/lease.go:33-46 | GET follows exactly a SETNX that found the key taken, EXPIRE exactly a GET that returned the id SETNX was sent with; granted exactly when SETNX took the key or EXPIRE was sent; an error exactly when SETNX failed |
| `Guards.CheckTakesLeaseIff` | internal/reconcile/reconcile.go:336-362 | a check counts a lease exactly when one is used, the guards let it pass, and SETNX takes the key or GET returns its own id |
| `Guards.NormalizedMeans` | internal/reconcile/reconcile.go:68-82 | New turns a quorum that is not positive into two, requires the local Sentinel without leave to apply globally, and changes nothing else |
| `Outcomes.MonitorOutcomeIff` | internal/reconcile/reconcile.go:435-474 | a heal by MONITOR counts heal_ok if and only if its last two steps were a GET that named the oracle and a probe in which the oracle took a write, before or after RESET, and heal_fail otherwise |
| `Outcomes.AttemptOutcomeIff` | internal/reconcile/reconcile.go:415-474 | the same of every attempt: FAILOVER comes first exactly when planned, and an attempt counts heal_fail only once REMOVE was sent too |
| `Outcomes.HealOutcomeIff` | internal/reconcile/reconcile.go:396-474 | a heal counts heal_ok if and only if it is attempted and ends like that, and heal_fail if and only if it is not refused and does not |
| `Outcomes.CheckHealsIff` | internal/reconcile/reconcile.go:304-474 | a check counts a successful heal if and only if one was due and the history ends like that |
| `Outcomes.MonitorProbes` | internal/reconcile/reconcile.go:476-500 | a heal writes to the oracle only, and only straight after the Sentinel has named it |
| `Outcomes.CheckCounts` | internal/reconcile/reconcile.go:304-336 | what a check does for each view: nothing for no answer, noop for the oracle, diverge for another; would_heal, its gauge and nothing sent in a dry run; with apply, the flags are asked first |
| `Outcomes.DryRun` | internal/reconcile/reconcile.go:329-334 | over any run without apply nothing is sent, refused, leased or healed, would_heal grows as diverge does, and the two gauges agree after every tick |
| `Outcomes.ApplyNeverWould` | internal/reconcile/reconcile.go:329-334 | over any run with apply would_heal stays put and its gauge is zero |
| `Outcomes.TickAlerts` | internal/reconcile/reconcile.go:210-302 | a tick raises exactly the alert of its finding, and the epoch alert exactly with a unique writable and a trap |
| `Outcomes.TickChecks` | internal/reconcile/reconcile.go:279-373 | the first Sentinel alone is checked when it is local, every listed one otherwise |
| `HealTrace.AuthFollowsScript` | internal/reconcile/heal_plan.go:71-76 | credentials come from one pair, the user before the password, empty parts not sent |
| `HealTrace.MonitorTrace` | internal/reconcile/reconcile.go:435-474 | exactly what a Sentinel is sent: REMOVE and MONITOR alone if and only if MONITOR is refused, else the SETs and a GET, and RESET with another GET if and only if that verification failed and the advertised address was no live replica |
| `HealTrace.HealGrammar` | internal/reconcile/reconcile.go:396-474 | a heal sends nothing without an attempt and exactly that with one; heal_ok implies the last GET named the oracle and the write probe after it passed |
| `HealTrace.CheckTouches` | internal/reconcile/reconcile.go:304-365 | a check changes at most the Sentinel it checks, never fails over, never escalates |
| `HealTrace.RunTouches` | internal/reconcile/reconcile.go:151-376 | over any run no FAILOVER is sent, only Sentinels this process may heal are changed, alert_equal_epoch_escalate stays put |
| `HealTrace.OnlyOwnSentinel` | internal/reconcile/reconcile.go:279-282 | without leave to apply globally no Sentinel but the first is ever changed, and none without apply |
| `HealTrace.HealGate` | internal/reconcile/reconcile.go:304-364 | a check attempts a heal if and only if it diverged, apply is on, every guard passes and the advertised address gives way to MONITOR; otherwise it changes nothing and starts no cooldown; whatever the nodes and their identities |
| `HealTrace.GuardsDecide` | internal/reconcile/reconcile.go:304-364 | where identity is endpoint, the guards alone decide |
| `HealTrace.TwoSeedsByDefault` | internal/reconcile/guards.go:38-51 | with three or more seeds and no other setting, two different seed entries must have answered |
| `HealTrace.BarredIffRejected` | cmd/reconciler/config.go:104-106 | the command line rejects exactly the configurations under which every heal would be refused for want of leave |
| `HealTrace.NoPromotionNoChange` | internal/reconcile/reconcile.go:379-474 | if only FAILOVER changes which Redis accept writes, commands without FAILOVER leave them |
| `Fleets.NobodyPromotes` | internal/reconcile/reconcile.go:379-474 | over every run of whole ticks of any number of processes on one history no FAILOVER is sent and the set of writable Redis is unchanged |
| `Interleave.NobodyEverPromotes` | internal/reconcile/reconcile.go:379-474 | the same however single commands of any number of processes interleave, and at any point, even in the middle of a heal |
| `Cooldown.CheckCooled` | internal/reconcile/guards.go:28-37 | a heal starts only after the cooldown, in every check and for every plan |
| `Cooldown.RunCooled` | internal/reconcile/reconcile.go:415-416 | over any stretch of any run, n attempts after the one it began with take at least n cooldowns |
| `OrderFree.OrdersShareFinding` | internal/reconcile/reconcile.go:226-274 | two probe orders reach the same finding, with the same Redis as oracle |
| `OrderFree.OrdersShareNodes` | internal/reconcile/guards.go:61-84 | two probe orders give the same nodes and the same reachable seeds |
| `OrderFree.ProbeOrderDoesNotMatter` | internal/reconcile/reconcile.go:226-274 | where identity is endpoint and no writable node is named by an IPv6 literal not written as it prints, two ticks that differ in map order, from states that differ in the spelling of nodes, send the same commands to Sentinels and end with the same counters, gauges and cooldown |
| `OrderFree.RunOrderDoesNotMatter` | internal/reconcile/reconcile.go:226-274 | under the same hypotheses the same holds over whole runs in which every tick has a map order of its own |
| `OrderFree.SpellingShowsIff` | internal/reconcile/reconcile.go:408-437 | two spellings of the oracle make the same commands of a planned heal if and only if they have one MONITOR target |
| `Convergence.CheckConverges` | internal/reconcile/reconcile.go:304-318 | a check leaves a Sentinel that advertises the oracle alone, and a counted heal turns a stale one into one that advertises it |
| `Convergence.TickTouchesStale` | internal/reconcile/reconcile.go:304-318 | a tick sends changing commands only to Sentinels that were stale when it began |
| `Convergence.FleetConverges` | internal/reconcile/reconcile.go:151-376 | over every run of whole ticks of any number of processes, which may share Sentinels but list none twice, on views true when the tick begins: the set of stale Sentinels only shrinks, and heal_ok grows by no more than the Sentinels that stop being stale |
| `Interleave.StaleNeverRises` | internal/reconcile/reconcile.go:151-376 | however single commands of processes with Sentinels of their own interleave, and at any point, even in the middle of a heal, no Sentinel that advertised the oracle has become stale |
| `Interleave.HealsAreBounded` | internal/reconcile/reconcile.go:151-376 | and when their ticks are over, all heals that succeeded are no more than the Sentinels that stopped being stale |
| `Interleave.OwnedEntry` | internal/reconcile/reconcile.go:435-441 | what a Sentinel changed by one process monitors is what that process's own history makes of it, under every interleaving |
| `SharedSentinels.TickIsParts` | internal/reconcile/reconcile.go:151-376 | a tick is its beginning and its checks, one after the other |
| `SharedSentinels.HealImprovesIff` | internal/reconcile/reconcile.go:304-364 | a check that counts a heal, on a view of any age, improves the deployment if and only if its Sentinel was stale when the check came to it |
| `SharedSentinels.DeservedConverges` | internal/reconcile/reconcile.go:304-373 | over every run of single checks by any processes, sharing Sentinels or listing them twice, on views of any age: if heals are due only for Sentinels still stale, the set of stale Sentinels only shrinks and bounds the heals, whatever is lost |
| `SharedSentinels.HealsCountedExactly` | internal/reconcile/reconcile.go:304-373 | when nothing is lost, successful heals are the Sentinels that stopped being stale plus the heals that were due for Sentinels no longer stale |
| `SharedSentinels.BoundIffDeserved` | internal/reconcile/reconcile.go:304-373 | so the bound on heals holds if and only if there was no such heal |
| `SharedSentinels.FreshViewDeserves` | internal/reconcile/reconcile.go:308-318 | on a view that is true when the check comes to it there is none |
| `OldViews.OldViewHealsTwice` | internal/reconcile/reconcile.go:174-181 | the concrete run, with every command delivered and facts the code makes of an observation, in which two processes take their views of one stale Sentinel and both heal it |
| `OldViews.ListedTwiceHealsTwice` | internal/reconcile/reconcile.go:367-373 | the concrete tick, on facts the code makes of an observation, of one process that lists a Sentinel twice and heals it twice |
| `SharedLog.RunPays` | internal/reconcile/reconcile.go:435-474 | over any run a process counts no more successful heals than it had MONITORs accepted, and every MONITOR is given the oracle |
| `SharedLog.StaleBalance` | internal/reconcile/reconcile.go:435-441 | in any log: stale Sentinels at the end, plus MONITORs that gave a master, are those at first plus REMOVEs that took the oracle from a Sentinel that advertised it |
| `SharedLog.HealsArePaidFor` | internal/reconcile/reconcile.go:151-376 | however the single commands of processes that share Sentinels interleave, heals that succeeded are no more than the Sentinels that stopped being stale plus those REMOVEs |
| `Convergence.ConvergedStaysQuiet` | internal/reconcile/reconcile.go:314-318 | once none is stale, no process ever sends anything again, reading or changing, lease or probe |
| `Convergence.StaleCheckHeals` | internal/reconcile/reconcile.go:304-364 | a check of a stale Sentinel whose heal is due heals it when nothing is lost |
| `Convergence.DeliveredHealIff` | internal/reconcile/reconcile.go:435-474 | when nothing is lost, REMOVE and MONITOR end in heal_ok if and only if the oracle has an IPv4 target and a canonical port, in heal_fail otherwise, RESET or not |
| `Convergence.MonitorLosesEntryIff` | internal/reconcile/reconcile.go:435-474 | whatever is answered, a heal leaves the Sentinel without a master if and only if its MONITOR did not take effect and its REMOVE did, or it had none |
| `Convergence.FailedMonitorLosesEntry` | internal/reconcile/reconcile.go:436-441 | a refused MONITOR is a counted failure, and loses the entry on the same condition |
| `Unmonitored.UnmonitoredIsAbsorbing` | internal/reconcile/reconcile.go:309-312 | a Sentinel without a master is never sent a changing command again, so never given one, by any later tick of any process, whatever names, oracle, other views and answers each of those ticks has; a later tick is one that looks at this Sentinel, if it checks it, after the entry was lost |
| `Unmonitored.CheckGivesIff` | internal/reconcile/reconcile.go:304-441 | a check on a view of any age gives a master to a Sentinel that has none if and only if its heal is due and its MONITOR takes effect |
| `Unmonitored.StaysWithoutIff` | internal/reconcile/reconcile.go:304-441 | over every run of single checks by any processes, on views of any age, such a Sentinel stays without a master if and only if no check gives it one in that way |
| `OldViews.OldViewMonitorsAgain` | internal/reconcile/reconcile.go:174-181 | the concrete run of the code in which a check already under way, on a view from before the entry was lost, gives the Sentinel a master again |
| `HealLease.InvStep` | internal/reconcile/lease.go:33-46 | every interleaved step keeps: whoever is inside a window, or has just matched, holds the key for at least as long |
| `HealLease.TimelyRunExcludes` | internal/reconcile/lease.go:33-46 | at most one window is open after every run in which EXPIREs are timely |
| `HealLease.LeaseExcludesIff` | internal/reconcile/lease.go:33-46 | exclusion over all interleavings if and only if holders are distinct and EXPIREs timely |
| `HealLease.LateExpire` | internal/reconcile/lease.go:38-44 | a late EXPIRE breaks exclusion exactly when another sidecar was granted a window in between |
| `HealLease.LateExpireRun` | internal/reconcile/lease.go:33-46 | the concrete run that breaks exclusion without the timing proviso |
| `HealLease.SharedHolderRun` | internal/reconcile/lease.go:21-27 | the concrete run in which two sidecars with one holder id are both granted the lease |
| `HealLease.PacedStep` | internal/reconcile/lease.go:33-46 | every step keeps the spacing invariant |
| `HealLease.AttemptsAreSpaced` | internal/reconcile/guards.go:28-37 | any two consecutive attempts by anyone are at least min(cooldown, ttl - delta) apart, where delta is the longest a granted sidecar takes to heal |
| `HealLease.RateBound` | internal/reconcile/reconcile.go:346-364 | attempts within a stretch of length d number at most d / min(cooldown, ttl - delta) + 1 |
| `HealLease.SpacingIff` | internal/reconcile/lease.go:14-47 | attempts are a gap apart over all interleavings if and only if holders are distinct, EXPIREs timely and delivered, heals within a delta of the grant, and the gap is at most min(cooldown, ttl - delta) |
| `HealLease.LostExpireRun` | internal/reconcile/lease.go:42-43 | the concrete run in which a lost EXPIRE, whose result is not looked at, lets attempts follow one tick apart |
| `HealLease.LateExpireHeals` | internal/reconcile/lease.go:38-44 | the concrete run in which a late EXPIRE lets two sidecars heal at the same instant |
| `HealLease.SharedHolderHeals` | internal/reconcile/lease.go:21-27 | the concrete run in which a shared holder id does |
| `HealLease.SlowHealRun` | internal/reconcile/reconcile.go:346-364 | the run that shows ttl - delta cannot be improved |
| `HealLease.CooldownRun` | internal/reconcile/guards.go:28-37 | the run that shows cooldown cannot be improved |
| `LeaseCheck.CheckFollowsProtocol` | internal/reconcile/reconcile.go:345-364 | a check that comes to the lease walks through SETNX and, when held, GET and EXPIRE of the protocol, with any steps of other sidecars between and any answer lost; it attempts a heal if and only if the protocol grants the lease, and the attempt is the protocol's Heal at the date it notes |
| `LeaseCheck.CooldownIsPreflight` | internal/reconcile/guards.go:28-37 | the cooldown guard passes if and only if the protocol's Preflight is possible |
| `LeaseCheck.VerdictFollows` | internal/reconcile/lease.go:14-47 | the verdict on the lease commands is what the protocol grants on that path |
| `LeaseCheck.OthersLeaveAlone` | internal/reconcile/lease.go:33-46 | any run of the other sidecars' steps may stand between the steps of such a path |
| `LeaseGrammar.RunKeeps` | internal/reconcile/reconcile.go:345-442 | over any run of a process that uses the lease: SETNX only when the cooldown is over, GET after a SETNX that found the key taken, EXPIRE after a GET of its own id, REMOVE after a grant; its counted heals and noted date are those of its history |
| `LeaseLog.LogIsRun` | internal/reconcile/lease.go:14-47 | every log of the interleaved single commands of such processes, answered by one key with any answer or effect lost, is a run of the protocol, key, grants and heals included |
| `LeaseLog.LogExcludes` | internal/reconcile/lease.go:33-46 | so at any point of the log at most one process is inside a window it was granted |
| `LeaseLog.ConfiguredHoldersDiffer` | internal/reconcile/lease.go:18-24 | processes with pairwise different configured holders have the distinct ids that exclusion and spacing rest on, whatever their hosts |
| `LeaseLog.HostsDiffer` | internal/reconcile/lease.go:18-24 | so do processes without one on hosts of different names |
| `LeaseLog.LogHealsAreSpaced` | internal/reconcile/reconcile.go:346-416 | so the heals the processes themselves begin are at least min(cooldown, ttl - delta) apart, whoever begins them |
| `LeaseLog.HealsAreTheirs` | internal/reconcile/reconcile.go:415-416 | those heals are dated as the processes date them, and as many as they have counted |
| `Labels.ThreePassesAreOne` | internal/reconcile/metrics.go:79-84 | the three replacement passes equal one pass over the characters |
| `Labels.LabelRoundTrip` | internal/reconcile/metrics.go:79-84 | a reader of the Prometheus text format gets back exactly the master name and goes on where the label ends |
| `EnvFile.UnquoteDouble` | cmd/reconciler/configfile.go:154-183 | the byte loop with its flags, as a scan |
| `EnvFile.UnquotedIff` | cmd/reconciler/configfile.go:154-183 | accepted if and only if a body between quotes with nothing but blanks or a comment after it; unterminated if and only if no such closing quote exists |
| `EnvFile.UnquotedSingleIff` | cmd/reconciler/configfile.go:185-196 | a single-quoted value is accepted if and only if it is a text without a quote between quotes with nothing but blanks or a comment after it, and unterminated if and only if no second quote follows |
| `EnvFile.QuotedRoundTrip` | cmd/reconciler/configfile.go:154-183 | any text survives escaping and unquoting |
| `EnvFile.ParseEnvLine` | cmd/reconciler/configfile.go:105-128 | one assignment, with its error cases |
| `EnvFile.ReadLine` | cmd/reconciler/configfile.go:84-100 | what one raw line does: skip, assign or fail |
| `EnvFile.LoadEnvFile` | cmd/reconciler/configfile.go:78-103 | the map of all lines, or the number of the first bad line and its error |
| `EnvFile.LinesAreText` | cmd/reconciler/configfile.go:84 | the lines hold no line feed, and joined by line feeds they are the text |
| `EnvFile.FileMeans` | cmd/reconciler/configfile.go:78-103 | a file is refused exactly at its first bad line, by number and for what is wrong there; otherwise a key has a value exactly when some line assigns it, and that of the last such line |
| `EnvFile.AssignmentEffect` | cmd/reconciler/configfile.go:84-128 | a line depends on its key only through the canonical form of the key |
| `EnvFile.PlainValue` | cmd/reconciler/configfile.go:105-127 | an unquoted value is the text after the equals sign without the blanks around it |
| `EnvFile.SingleQuotedValue` | cmd/reconciler/configfile.go:185-196 | any text without a single quote stands for itself between single quotes |
| `EnvFile.EndsLineIff` | cmd/reconciler/configfile.go:171-172 | after a closing quote nothing but blanks may follow, or blanks and a comment |
| `EnvFile.ExportIsIgnored` | cmd/reconciler/configfile.go:89-91 | a line does the same with and without export in front |
| `EnvFile.BlanksAndComments` | cmd/reconciler/configfile.go:85-88 | a blank line and a comment do nothing |
| `EnvFile.NoAssignmentNoLine` | cmd/reconciler/configfile.go:106-109 | a line without an equals sign is skipped or refused as no assignment |
| `EnvFile.NoAssignmentIff` | cmd/reconciler/configfile.go:106-109 | an assignment is refused as none exactly when it has no equals sign or nothing before its first one |
| `EnvFile.BadKeys` | cmd/reconciler/configfile.go:110-113 | a key with a character outside letters, digits, underscore and dash, or with a digit first, is refused |
| `EnvFile.AssignedKeys` | cmd/reconciler/configfile.go:96-100 | every key a line assigns is capital letters, digits and underscores, with no digit first |
| `EnvFile.FileRoundTrip` | cmd/reconciler/configfile.go:78-196 | rendering any entries as quoted lines and loading them gives exactly the last-wins map |
| `Knobs.FirstEnv` | cmd/reconciler/config.go:235-242 | the first environment value that is more than blanks, over a list of names |
| `Knobs.EnvOr` | cmd/reconciler/config.go:228-233 | the same with a default |
| `Knobs.FirstNonBlankIs` | cmd/reconciler/config.go:228-242 | it is the first value that is more than blanks, trimmed, and the default where all are blank |
| `Knobs.ExtraNamesLast` | cmd/reconciler/config.go:216-222 | a setting asks its bare name, its prefixed name and then its further names, in that order |
| `Knobs.SettingOrder` | cmd/reconciler/configfile.go:43-66 | for any file, a setting is the first non-blank of bare variable, file asked by the bare name, prefixed variable, file asked by the prefixed name, default |
| `Knobs.PlainFileOrder` | cmd/reconciler/configfile.go:43-66 | for files in which no key was written with the prefix twice: bare variable, file, prefixed variable, default |
| `Knobs.DocumentedOrderIff` | cmd/reconciler/config.go:217-242 | the documented order is the code's order if and only if the file and the prefixed variable do not compete |
| `Knobs.FileBeatsPrefixedVariable` | cmd/reconciler/configfile.go:47-65 | for every flag an input on which the two orders differ |
| `Knobs.SpellingsMeet` | cmd/reconciler/configfile.go:68-76 | all four spellings of a flag's key have one canonical form, its first environment name |
| `Knobs.OneKnob` | cmd/reconciler/configfile.go:84-128 | a line does the same whichever spelling its key has |

## Left out

- Dialing, the ROLE, INFO and SET traffic of a probe, TLS and the Redis and Sentinel client libraries: probe results, advertised masters and answers are inputs.
- Name resolution itself: an arbitrary function from host to addresses that ignores case, fixed during a tick.
- Sentinel's own election, Hello messages and epochs: arbitrary in every theorem except those of `Convergence`, `SharedSentinels`, `Unmonitored`, `OldViews`, `Interleave` and `SharedLog` about what Sentinels monitor, where Sentinels change by commands alone.
- Cancellation, timers, jitter, pauses, logging and the HTTP handler: no property beyond "tick repeatedly".
- `cmd/writer`, version and help text, flag registration, the search for the file's path, ordinals in Sentinel addresses, boolean, duration and number settings: they would add only easy members.
- Letters, case and white space outside ASCII: names and keys are modelled as ASCII text.
- Wrap-around of 64-bit counters and absent receivers of metric methods.
- The master name is one per process and is not a parameter of commands; `newMetrics` replaces an empty one.
- Reads made while observing are not part of the command history: they change nothing at a Sentinel.
- Loss of the lease key other than by expiry (eviction, restart or failover of the oracle) and restarts of sidecars.
- The second case-insensitive comparison beside `sameRedisEndpoint` in the seed tests, which the latter already contains.
- The class calls the resolver through `Names`; the loops of `resolveKey` and `endpointIPPort` are proved separately, as `ResolveKey` and `EndpointIPPort`.
- FleetConverges: whole ticks, with views that are true when the tick begins and no Sentinel checked twice; `DeservedConverges` and `BoundIffDeserved` drop all of this, check by check, and `HealsArePaidFor` command by command.
- HealsArePaidFor: an upper bound; which of several processes gets to count a heal of a shared Sentinel is left open.
- ProbeOrderDoesNotMatter: the outside world is taken not to answer differently to spellings of one oracle.
- SpacingIff: one ttl, one lease key and one clock for all sidecars, and gaps of more than one tick of that clock.
- LogHealsAreSpaced: a process reads its clock as it sends its next command, and all clocks are one; the time between a grant and the heal is delta.
- AddressIdentityIsEndpoint: nodes whose run id was read are covered only by the hypothesis `IdentityIsEndpoint`.
