/** Any number of reconciler processes, each with its own configuration and Sentinels, acting on one cluster. */
module Fleets {
  import opened Process
  import opened TickOracle
  import opened HealTrace

  datatype Member = Member(cfg: Config, world: World)

  /** The processes' own states, and one history of all that any of them did. */
  datatype Fleet = Fleet(hist: seq<Io>, procs: seq<Proc>)

  /** Process who runs a tick. */
  datatype Move = Move(who: nat, facts: TickFacts)

  ghost predicate Legal(ms: seq<Member>, f: Fleet, m: Move) {
    |ms| == |f.procs| && m.who < |ms| && Actable(ms[m.who].cfg, m.facts)
  }

  function FleetStep(ms: seq<Member>, f: Fleet, m: Move): Fleet
    requires Legal(ms, f, m)
  {
    var q := TickRun(ms[m.who].world, ms[m.who].cfg, m.facts, f.procs[m.who].(hist := f.hist));
    Fleet(q.hist, f.procs[m.who := q])
  }

  /** The moves lead from f to g, one tick at a time, whatever each tick found and was answered. */
  ghost predicate AnyRun(ms: seq<Member>, f: Fleet, moves: seq<Move>, g: Fleet)
    decreases moves
  {
    if moves == [] then f == g
    else
      var m := moves[0];
      && Legal(ms, f, m) && Sound(ms[m.who].cfg, m.facts)
      && AnyRun(ms, FleetStep(ms, f, m), moves[1..], g)
  }

  /** The Sentinels that any of the processes may change. */
  ghost function FleetHealable(ms: seq<Member>): set<string> {
    set m, s | m in ms && s in Healable(m.cfg) :: s
  }

  lemma TouchesMore(h: seq<Io>, h': seq<Io>, few: set<string>, many: set<string>)
    requires Touches(h, h', few) && few <= many
    ensures Touches(h, h', many)
  {}

  /** Over every run of any number of processes, with arbitrary answers from Sentinels and Redis, no FAILOVER is
      ever sent, and each process changes only Sentinels it may heal; so if only a FAILOVER can make another Redis
      accept writes, the set of those that do is what it was. */
  lemma {:induction false} NobodyPromotes(ms: seq<Member>, f: Fleet, moves: seq<Move>, g: Fleet,
                                          initial: set<string>, effect: seq<Io> -> set<string>)
    requires AnyRun(ms, f, moves, g)
    ensures Touches(f.hist, g.hist, FleetHealable(ms))
    ensures Writers(g.hist, initial, effect) == Writers(f.hist, initial, effect)
    decreases moves
  {
    if moves != [] {
      var m := moves[0];
      TickTouches(ms[m.who].world, ms[m.who].cfg, m.facts, f.procs[m.who].(hist := f.hist));
      var f1 := FleetStep(ms, f, m);
      assert ms[m.who] in ms;
      TouchesMore(f.hist, f1.hist, Healable(ms[m.who].cfg), FleetHealable(ms));
      NobodyPromotes(ms, f1, moves[1..], g, initial, effect);
      TouchesStep(f.hist, f1.hist, g.hist, FleetHealable(ms));
    }
    NoPromotionNoChange(f.hist, g.hist, FleetHealable(ms), initial, effect);
  }
}
