/** Any number of processes whose commands interleave one by one: each runs its own ticks, and a common log holds
    what all of them did, in any order, cut off at any point. */
module Interleave {
  import opened Text
  import opened Endpoint
  import opened NameBook
  import opened Metrics
  import opened Process
  import opened HealTrace
  import opened Fleets
  import opened Convergence

  datatype Act = Act(who: nat, io: Io)

  /** A process and its ticks. Its answers may depend on all that it has done; what the others did meanwhile shows
      in them and is as arbitrary. */
  datatype Worker = Worker(world: World, cfg: Config, start: Proc, run: seq<TickFacts>)

  ghost predicate Runs(x: Worker) { x.start.hist == [] && AllSound(x.cfg, x.run) }

  function End(x: Worker): Proc
    requires AllActable(x.cfg, x.run)
  {
    RunOf(x.world, x.cfg, x.run, x.start)
  }

  /** What process i did. */
  function Own(log: seq<Act>, i: nat): seq<Io> {
    if log == [] then []
    else
      var a := log[|log| - 1];
      Own(log[..|log| - 1], i) + if a.who == i then [a.io] else []
  }

  /** The log holds an initial part of what each process does, and nothing else. */
  ghost predicate Interleaves(xs: seq<Worker>, log: seq<Act>) {
    && (forall i | 0 <= i < |xs| :: Runs(xs[i]) && AllActable(xs[i].cfg, xs[i].run) && Own(log, i) <= End(xs[i]).hist)
    && (forall k | 0 <= k < |log| :: log[k].who < |xs|)
  }

  lemma {:induction false} OwnHolds(log: seq<Act>, k: nat)
    requires k < |log|
    ensures log[k].io in Own(log, log[k].who)
  {
    if k < |log| - 1 { OwnHolds(log[..|log| - 1], k); }
  }

  /** Which Redis nodes accept writes, if nothing but a FAILOVER can change that. */
  ghost function LogWriters(log: seq<Act>, initial: set<string>, effect: seq<Act> -> set<string>): set<string> {
    if log == [] then initial
    else if log[|log| - 1].io.PromoteReplica? then effect(log)
    else LogWriters(log[..|log| - 1], initial, effect)
  }

  lemma {:induction false} NoPromotionNoLogChange(log: seq<Act>, initial: set<string>, effect: seq<Act> -> set<string>)
    requires forall k | 0 <= k < |log| :: !log[k].io.PromoteReplica?
    ensures LogWriters(log, initial, effect) == initial
  {
    if log != [] { NoPromotionNoLogChange(log[..|log| - 1], initial, effect); }
  }

  lemma OwnIsHarmless(xs: seq<Worker>, log: seq<Act>, k: nat)
    requires Interleaves(xs, log) && k < |log|
    ensures var x := xs[log[k].who];
            !log[k].io.PromoteReplica? && (Mutating(log[k].io) ==> log[k].io.sentinel in Healable(x.cfg))
  {
    var i := log[k].who;
    var x := xs[i];
    RunTouches(x.world, x.cfg, x.run, x.start);
    OwnHolds(log, k);
    var j :| 0 <= j < |Own(log, i)| && Own(log, i)[j] == log[k].io;
    assert End(x).hist[j] == log[k].io;
  }

  /** However the commands of any number of processes interleave, and at any point: no FAILOVER has been sent, nobody
      has changed a Sentinel it may not heal, and if only a FAILOVER can make another Redis accept writes the set of
      those that do is what it was. */
  lemma NobodyEverPromotes(xs: seq<Worker>, log: seq<Act>, initial: set<string>, effect: seq<Act> -> set<string>)
    requires Interleaves(xs, log)
    ensures forall k | 0 <= k < |log| :: !log[k].io.PromoteReplica?
    ensures forall k | 0 <= k < |log| && Mutating(log[k].io) :: log[k].io.sentinel in Healable(xs[log[k].who].cfg)
    ensures LogWriters(log, initial, effect) == initial
  {
    forall k | 0 <= k < |log|
      ensures !log[k].io.PromoteReplica?
      ensures Mutating(log[k].io) ==> log[k].io.sentinel in Healable(xs[log[k].who].cfg)
    {
      OwnIsHarmless(xs, log, k);
    }
    NoPromotionNoLogChange(log, initial, effect);
  }

  // ----- Sentinels that one process heals -----

  /** The masters the Sentinels monitor at first, and whether the command that ends a log took effect. */
  datatype Shared = Shared(initial: string -> Option<Target>, applied: seq<Act> -> bool)

  /** What Sentinel s monitors after a log. */
  function LogEntry(e: Shared, log: seq<Act>, s: string): Option<Target> {
    if log == [] then e.initial(s)
    else
      var before, io := LogEntry(e, log[..|log| - 1], s), log[|log| - 1].io;
      if io == Remove(s) && e.applied(log) then None
      else if io.MonitorMaster? && io.sentinel == s && e.applied(log) && before.None? then Some(Target(io.ip, io.port))
      else before
  }

  /** Process i's own view of the deployment: it starts alike, and its own commands take effect as they do in
      the log. */
  ghost predicate Sees(d: Deployment, e: Shared, log: seq<Act>, i: nat) {
    && d.initial == e.initial
    && forall k | 0 <= k < |log| && log[k].who == i :: d.applied(Own(log[..k + 1], i)) == e.applied(log[..k + 1])
  }

  /** Only process i changes s. */
  ghost predicate OnlyBy(log: seq<Act>, i: nat, s: string) {
    forall k | 0 <= k < |log| && Mutating(log[k].io) && log[k].io.sentinel == s :: log[k].who == i
  }

  lemma SeesLess(d: Deployment, e: Shared, log: seq<Act>, i: nat, s: string)
    requires log != [] && Sees(d, e, log, i) && OnlyBy(log, i, s)
    ensures Sees(d, e, log[..|log| - 1], i) && OnlyBy(log[..|log| - 1], i, s)
  {
    var less := log[..|log| - 1];
    forall k | 0 <= k < |less| && less[k].who == i
      ensures d.applied(Own(less[..k + 1], i)) == e.applied(less[..k + 1])
    {
      assert log[k].who == i && less[..k + 1] == log[..k + 1];
    }
    forall k | 0 <= k < |less| && Mutating(less[k].io) && less[k].io.sentinel == s ensures less[k].who == i {
      assert Mutating(log[k].io) && log[k].io.sentinel == s;
    }
  }

  /** What a Sentinel that only process i changes monitors is what process i's own history makes of it. */
  lemma {:induction false} OwnedEntry(d: Deployment, e: Shared, log: seq<Act>, i: nat, s: string)
    requires Sees(d, e, log, i) && OnlyBy(log, i, s)
    ensures LogEntry(e, log, s) == Entry(d, Own(log, i), s)
  {
    if log != [] {
      var n := |log| - 1;
      SeesLess(d, e, log, i, s);
      OwnedEntry(d, e, log[..n], i, s);
      if log[n].who == i {
        assert log[..n + 1] == log;
        assert Own(log, i)[..|Own(log, i)| - 1] == Own(log[..n], i);
      } else {
        assert Own(log, i) == Own(log[..n], i);
        assert !(Mutating(log[n].io) && log[n].io.sentinel == s);
      }
    }
  }

  // ----- one process over its whole run -----

  ghost predicate FitsAt(d: Deployment, x: Worker, names: Names, oracle: string, sentinels: set<string>, k: nat)
    requires AllActable(x.cfg, x.run) && k < |x.run|
  {
    && x.run[k].obs.names == names
    && Fits(d, x.cfg, oracle, sentinels, x.run[k], RunOf(x.world, x.cfg, x.run[..k], x.start).hist)
  }

  /** Every tick of the run fits the deployment as it was when the tick began. */
  ghost predicate Steady(d: Deployment, x: Worker, names: Names, oracle: string, sentinels: set<string>) {
    && Truthful(x.world, d) && AllActable(x.cfg, x.run)
    && forall k | 0 <= k < |x.run| :: FitsAt(d, x, names, oracle, sentinels, k)
  }

  lemma SteadyLess(d: Deployment, x: Worker, names: Names, oracle: string, sentinels: set<string>)
    requires Steady(d, x, names, oracle, sentinels) && x.run != []
    ensures Steady(d, x.(run := x.run[..|x.run| - 1]), names, oracle, sentinels)
  {
    var y := x.(run := x.run[..|x.run| - 1]);
    forall k | 0 <= k < |y.run| ensures FitsAt(d, y, names, oracle, sentinels, k) {
      assert FitsAt(d, x, names, oracle, sentinels, k);
      assert y.run[..k] == x.run[..k] && y.run[k] == x.run[k];
    }
  }

  /** Over its whole run a process touches only Sentinels that were stale at first, and succeeds in no more heals than
      Sentinels stop being stale. */
  lemma {:induction false} RunConverges(d: Deployment, x: Worker, names: Names, oracle: string, sentinels: set<string>)
    requires Steady(d, x, names, oracle, sentinels)
    ensures Touches(x.start.hist, End(x).hist, StaleSet(d, x.start.hist, names, oracle, sentinels))
    ensures Improves(d, names, oracle, sentinels, x.start, End(x))
    decreases |x.run|
  {
    if x.run != [] {
      var y, n := x.(run := x.run[..|x.run| - 1]), |x.run| - 1;
      SteadyLess(d, x, names, oracle, sentinels);
      RunConverges(d, y, names, oracle, sentinels);
      assert FitsAt(d, x, names, oracle, sentinels, n);
      TickConverges(x.world, d, x.cfg, oracle, sentinels, x.run[n], End(y));
      TickTouchesStale(x.world, d, x.cfg, oracle, sentinels, x.run[n], End(y));
      TouchesMore(End(y).hist, End(x).hist, StaleSet(d, End(y).hist, names, oracle, sentinels),
                  StaleSet(d, x.start.hist, names, oracle, sentinels));
      TouchesStep(x.start.hist, End(y).hist, End(x).hist, StaleSet(d, x.start.hist, names, oracle, sentinels));
    }
  }

  // ----- all of them -----

  /** The Sentinels that process i checks. */
  ghost function Cares(x: Worker): set<string> { set s | s in Watched(x.cfg) }

  /** Each process has Sentinels of its own, its ticks fit what they monitor, and its commands take effect as they do
      in the log. */
  ghost predicate OwnSentinels(xs: seq<Worker>, ds: seq<Deployment>, e: Shared, log: seq<Act>, names: Names,
                               oracle: string) {
    && |ds| == |xs| && Interleaves(xs, log)
    && (forall i | 0 <= i < |xs| :: Steady(ds[i], xs[i], names, oracle, Cares(xs[i])) && Sees(ds[i], e, log, i))
    && (forall i, j | 0 <= i < j < |xs| :: Cares(xs[i]) !! Cares(xs[j]))
  }

  lemma HealableIsWatched(cfg: Config)
    ensures forall s | s in Healable(cfg) :: s in Watched(cfg)
  {}

  lemma OwnedByOne(xs: seq<Worker>, ds: seq<Deployment>, e: Shared, log: seq<Act>, names: Names, oracle: string,
                   i: nat, s: string)
    requires OwnSentinels(xs, ds, e, log, names, oracle) && i < |xs| && s in Cares(xs[i])
    ensures OnlyBy(log, i, s)
  {
    forall k | 0 <= k < |log| && Mutating(log[k].io) && log[k].io.sentinel == s ensures log[k].who == i {
      OwnIsHarmless(xs, log, k);
      var j := log[k].who;
      HealableIsWatched(xs[j].cfg);
      assert s in Cares(xs[j]);
    }
  }

  function LogStale(e: Shared, log: seq<Act>, names: Names, oracle: string, sentinels: set<string>): set<string> {
    set s | s in sentinels && !Advertises(names, LogEntry(e, log, s), oracle)
  }

  lemma OwnStale(xs: seq<Worker>, ds: seq<Deployment>, e: Shared, log: seq<Act>, names: Names, oracle: string, i: nat)
    requires OwnSentinels(xs, ds, e, log, names, oracle) && i < |xs|
    ensures LogStale(e, log, names, oracle, Cares(xs[i])) == StaleSet(ds[i], Own(log, i), names, oracle, Cares(xs[i]))
    ensures LogStale(e, [], names, oracle, Cares(xs[i])) == StaleSet(ds[i], [], names, oracle, Cares(xs[i]))
  {
    assert Sees(ds[i], e, log, i);
    forall s | s in Cares(xs[i]) ensures LogEntry(e, log, s) == Entry(ds[i], Own(log, i), s) {
      OwnedByOne(xs, ds, e, log, names, oracle, i, s);
      OwnedEntry(ds[i], e, log, i, s);
    }
  }

  /** However the commands interleave, and at any point, even in the middle of a heal: no Sentinel that advertised the
      oracle at first has become stale. */
  lemma StaleNeverRises(xs: seq<Worker>, ds: seq<Deployment>, e: Shared, log: seq<Act>, names: Names, oracle: string,
                        i: nat)
    requires OwnSentinels(xs, ds, e, log, names, oracle) && i < |xs|
    ensures LogStale(e, log, names, oracle, Cares(xs[i])) <= LogStale(e, [], names, oracle, Cares(xs[i]))
  {
    OwnStale(xs, ds, e, log, names, oracle, i);
    var d, x := ds[i], xs[i];
    assert Steady(d, x, names, oracle, Cares(x)) && Runs(x);
    RunConverges(d, x, names, oracle, Cares(x));
    var stale := StaleSet(d, [], names, oracle, Cares(x));
    assert Touches([], Own(log, i), stale);
    forall s | s in Cares(x) && s !in stale ensures s !in StaleSet(d, Own(log, i), names, oracle, Cares(x)) {
      EntryFrame(d, [], Own(log, i), stale, s);
    }
  }

  function Union(sets: seq<set<string>>): set<string> {
    if sets == [] then {} else Union(sets[..|sets| - 1]) + sets[|sets| - 1]
  }

  function Sum(ns: seq<int>): int { if ns == [] then 0 else Sum(ns[..|ns| - 1]) + ns[|ns| - 1] }

  lemma {:induction false} UnionApart(sets: seq<set<string>>, a: set<string>)
    requires forall i | 0 <= i < |sets| :: sets[i] !! a
    ensures Union(sets) !! a
  {
    if sets != [] { UnionApart(sets[..|sets| - 1], a); }
  }

  lemma StaleAdds(e: Shared, log: seq<Act>, names: Names, oracle: string, a: set<string>, b: set<string>)
    requires a !! b
    ensures |LogStale(e, log, names, oracle, a + b)|
         == |LogStale(e, log, names, oracle, a)| + |LogStale(e, log, names, oracle, b)|
  {
    assert LogStale(e, log, names, oracle, a + b)
        == LogStale(e, log, names, oracle, a) + LogStale(e, log, names, oracle, b);
  }

  /** Bounds on disjoint sets of Sentinels add up. */
  lemma {:induction false} BoundsAdd(e: Shared, log: seq<Act>, names: Names, oracle: string, sets: seq<set<string>>,
                                     gains: seq<int>)
    requires |sets| == |gains| && forall i, j | 0 <= i < j < |sets| :: sets[i] !! sets[j]
    requires forall i | 0 <= i < |sets| ::
               gains[i] + |LogStale(e, log, names, oracle, sets[i])| <= |LogStale(e, [], names, oracle, sets[i])|
    ensures Sum(gains) + |LogStale(e, log, names, oracle, Union(sets))| <= |LogStale(e, [], names, oracle, Union(sets))|
  {
    if sets != [] {
      var n := |sets| - 1;
      BoundsAdd(e, log, names, oracle, sets[..n], gains[..n]);
      UnionApart(sets[..n], sets[n]);
      StaleAdds(e, [], names, oracle, Union(sets[..n]), sets[n]);
      StaleAdds(e, log, names, oracle, Union(sets[..n]), sets[n]);
    }
  }

  /** The Sentinels each process checks, and how many heals succeeded in it. */
  ghost function AllCares(xs: seq<Worker>): seq<set<string>> {
    seq(|xs|, i requires 0 <= i < |xs| => Cares(xs[i]))
  }

  function Heals(xs: seq<Worker>): seq<int>
    requires forall i | 0 <= i < |xs| :: AllActable(xs[i].cfg, xs[i].run)
  {
    seq(|xs|, i requires 0 <= i < |xs| => End(xs[i]).counts[HealOk] - xs[i].start.counts[HealOk])
  }

  lemma OwnHeals(xs: seq<Worker>, ds: seq<Deployment>, e: Shared, log: seq<Act>, names: Names, oracle: string, i: nat)
    requires OwnSentinels(xs, ds, e, log, names, oracle) && i < |xs| && Own(log, i) == End(xs[i]).hist
    ensures Heals(xs)[i] + |LogStale(e, log, names, oracle, Cares(xs[i]))|
         <= |LogStale(e, [], names, oracle, Cares(xs[i]))|
  {
    OwnStale(xs, ds, e, log, names, oracle, i);
    assert Steady(ds[i], xs[i], names, oracle, Cares(xs[i])) && Runs(xs[i]);
    RunConverges(ds[i], xs[i], names, oracle, Cares(xs[i]));
  }

  /** When all ticks are over, no more heals have succeeded anywhere than Sentinels have stopped being stale. */
  lemma HealsAreBounded(xs: seq<Worker>, ds: seq<Deployment>, e: Shared, log: seq<Act>, names: Names, oracle: string)
    requires OwnSentinels(xs, ds, e, log, names, oracle)
    requires forall i | 0 <= i < |xs| :: Own(log, i) == End(xs[i]).hist
    ensures Sum(Heals(xs)) + |LogStale(e, log, names, oracle, Union(AllCares(xs)))|
         <= |LogStale(e, [], names, oracle, Union(AllCares(xs)))|
  {
    forall i | 0 <= i < |xs|
      ensures Heals(xs)[i] + |LogStale(e, log, names, oracle, AllCares(xs)[i])|
           <= |LogStale(e, [], names, oracle, AllCares(xs)[i])|
    {
      OwnHeals(xs, ds, e, log, names, oracle, i);
    }
    BoundsAdd(e, log, names, oracle, AllCares(xs), Heals(xs));
  }
}
