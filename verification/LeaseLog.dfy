/** Processes that use the lease, their single commands interleaved in one log, on one key: the log is a run of the
    lease protocol, and so the heals of the processes themselves are spaced. */
module LeaseLog {
  import opened Text
  import opened Metrics
  import opened Process
  import opened LeaseGrammar
  import opened HealLease
  import opened Interleave

  /** A log with the time of each command, and whether it reached the key. */
  datatype Timeline = Timeline(log: seq<Act>, times: seq<nat>, arrived: seq<bool>)
  {
    ghost predicate Valid() {
      && |times| == |arrived| == |log|
      && forall j, k | 0 <= j < k < |log| :: times[j] <= times[k]
    }

    /** The time of the last of the first k commands. */
    function Now(k: nat): nat
      requires k <= |times|
    {
      if k == 0 then 0 else times[k - 1]
    }
  }

  predicate LiveKey(key: Option<Key>, now: nat) { key.Some? && now < key.value.deadline }

  /** The lease key after the first k commands. */
  ghost function KeyAt(r: Rules, tl: Timeline, k: nat): Option<Key>
    requires tl.Valid() && k <= |tl.log|
  {
    if k == 0 then None
    else
      var before, now := KeyAt(r, tl, k - 1), tl.times[k - 1];
      if !tl.arrived[k - 1] then before
      else
        match tl.log[k - 1].io
        case LeaseSetNx(_, holder, _) => if LiveKey(before, now) then before else Some(Key(holder, now + r.ttl))
        case LeaseExpire(_, _) =>
          if LiveKey(before, now) then Some(before.value.(deadline := now + r.ttl)) else before
        case _ => before
  }

  /** When the key that process i last saw with a GET was due to expire. */
  ghost function SeenAt(r: Rules, tl: Timeline, i: nat, k: nat): nat
    requires tl.Valid() && k <= |tl.log|
  {
    if k == 0 then 0
    else if tl.log[k - 1].who == i && tl.log[k - 1].io.LeaseGet? then
      var key := KeyAt(r, tl, k - 1); if key.Some? then key.value.deadline else 0
    else SeenAt(r, tl, i, k - 1)
  }

  /** When process i last sent SETNX or EXPIRE. */
  ghost function GrantAt(tl: Timeline, i: nat, k: nat): nat
    requires tl.Valid() && k <= |tl.log|
  {
    if k == 0 then 0
    else
      var a := tl.log[k - 1];
      if a.who == i && (a.io.LeaseSetNx? || a.io.LeaseExpire?) then tl.times[k - 1]
      else GrantAt(tl, i, k - 1)
  }

  /** The end of the window that process i's last granted SETNX or effective EXPIRE opened. */
  ghost function WindowEnd(r: Rules, xs: seq<Worker>, tl: Timeline, i: nat, k: nat): nat
    requires tl.Valid() && k <= |tl.log| && i < |xs|
  {
    if k == 0 then 0
    else
      var a, live := tl.log[k - 1], LiveKey(KeyAt(r, tl, k - 1), tl.times[k - 1]);
      var heard := !xs[i].world.answer(Own(tl.log[..k], i)).Failed?;
      if a.who == i && tl.arrived[k - 1] && (if a.io.LeaseSetNx? then !live && heard else a.io.LeaseExpire? && live)
      then tl.times[k - 1] + r.ttl
      else WindowEnd(r, xs, tl, i, k - 1)
  }

  /** Who began a heal, and when, in the order of the log. */
  ghost function HealsIn(tl: Timeline, k: nat): seq<Attempt>
    requires tl.Valid() && k <= |tl.log|
  {
    if k == 0 then []
    else HealsIn(tl, k - 1) + if tl.log[k - 1].io.Remove? then [Attempt(tl.log[k - 1].who, tl.times[k - 1])] else []
  }

  /** The answer to a lease command is true of the key, if it is not lost. A GET may also be answered with nothing. */
  ghost predicate TrueAnswer(r: Rules, tl: Timeline, k: nat, reply: Reply)
    requires tl.Valid() && k < |tl.log|
  {
    var key, now := KeyAt(r, tl, k), tl.times[k];
    match tl.log[k].io
    case LeaseSetNx(_, _, _) => !reply.Failed? ==> tl.arrived[k] && (reply.Done? <==> !LiveKey(key, now))
    case LeaseGet(_) => reply.Value? ==> LiveKey(key, now) && reply.text == key.value.holder
    case _ => true
  }

  /** The processes use the lease by the same rules, read their clocks as they send their next command, and are
      answered by one key. */
  ghost predicate OneKey(r: Rules, xs: seq<Worker>, tl: Timeline) {
    && tl.Valid() && Interleaves(xs, tl.log) && |r.holders| == |xs|
    && (forall i | 0 <= i < |xs| :: UsesLease(r, xs[i], i))
    && (forall k | 0 <= k < |tl.log| :: Timed(r, xs, tl, k))
  }

  predicate UsesLease(r: Rules, x: Worker, i: nat)
    requires i < |r.holders|
  {
    && x.cfg.healLease && x.start.lastHeal.None?
    && r.holders[i] == HolderId(x.world, x.cfg.leaseHolder)
    && r.ttl == LeaseTtl(ApplyTtl(x.cfg)) && r.cooldown <= x.cfg.healCooldown
  }

  ghost predicate Timed(r: Rules, xs: seq<Worker>, tl: Timeline, k: nat)
    requires tl.Valid() && k < |tl.log|
  {
    && tl.log[k].who < |xs|
    && var i := tl.log[k].who;
       && xs[i].world.clock(Own(tl.log[..k], i)) == tl.times[k]
       && TrueAnswer(r, tl, k, xs[i].world.answer(Own(tl.log[..k + 1], i)))
  }

  /** What the terms ask of one command: EXPIREs that are timely or arrive, and heals within delta of the grant. */
  ghost predicate WithinTerms(r: Rules, tl: Timeline, terms: Terms, k: nat)
    requires tl.Valid() && k < |tl.log|
  {
    var i, io, now := tl.log[k].who, tl.log[k].io, tl.times[k];
    && (io.LeaseExpire? && terms.timely ==> now < SeenAt(r, tl, i, k))
    && (io.LeaseExpire? && terms.delivered ==> tl.arrived[k])
    && (io.Remove? && terms.delta.Some? ==> now <= GrantAt(tl, i, k) + terms.delta.value)
  }

  // ----- the log and the protocol side by side -----

  /** Where a sidecar of the protocol stands when its process has the given history. */
  predicate PcFits(w: World, holder: string, h: seq<Io>, pc: Pc, seen: nat, at: nat) {
    if JustGranted(w, h) then pc == Granted(at)
    else if JustRefused(w, h) then pc == Refused
    else if JustMatched(w, holder, h) then pc == Matched(seen)
    else pc == Idle
  }

  ghost predicate SidecarFits(r: Rules, xs: seq<Worker>, tl: Timeline, k: nat, i: nat, p: Sidecar)
    requires tl.Valid() && k <= |tl.log| && i < |xs| == |r.holders|
  {
    var w, h := xs[i].world, Own(tl.log[..k], i);
    && p.lastHeal == LastDate(w, h) && p.until == WindowEnd(r, xs, tl, i, k)
    && PcFits(w, r.holders[i], h, p.pc, SeenAt(r, tl, i, k), GrantAt(tl, i, k))
  }

  ghost predicate Coupled(r: Rules, xs: seq<Worker>, tl: Timeline, k: nat, s: Cluster)
    requires tl.Valid() && k <= |tl.log| && |xs| == |r.holders|
  {
    && |s.procs| == |xs| && s.now == tl.Now(k) && s.key == KeyAt(r, tl, k) && s.attempts == HealsIn(tl, k)
    && forall i | 0 <= i < |xs| :: SidecarFits(r, xs, tl, k, i, s.procs[i])
  }

  lemma OwnNext(log: seq<Act>, k: nat, i: nat)
    requires k < |log|
    ensures Own(log[..k + 1], i) == Own(log[..k], i) + if log[k].who == i then [log[k].io] else []
  {
    assert log[..k + 1][..k] == log[..k];
  }

  lemma {:induction false} OwnPrefix(log: seq<Act>, k: nat, i: nat)
    requires k <= |log|
    ensures Own(log[..k], i) <= Own(log, i)
    decreases |log| - k
  {
    if k == |log| {
      assert log[..k] == log;
    } else {
      OwnNext(log, k, i);
      OwnPrefix(log, k + 1, i);
    }
  }

  /** Every command in the log is one its process may send. */
  lemma RulesInLog(r: Rules, xs: seq<Worker>, tl: Timeline, k: nat)
    requires OneKey(r, xs, tl) && k < |tl.log| && tl.log[k].who < |xs|
    ensures var i := tl.log[k].who;
            MaySend(xs[i].world, xs[i].cfg, Own(tl.log[..k], i), tl.log[k].io)
  {
    var i := tl.log[k].who;
    var x, h := xs[i], Own(tl.log[..k], i);
    assert Runs(x) && UsesLease(r, x, i);
    RunKeeps(x.world, x.cfg, x.run, x.start);
    OwnNext(tl.log, k, i);
    OwnPrefix(tl.log, k + 1, i);
    assert h + [tl.log[k].io] <= End(x).hist;
    assert End(x).hist[..|h|] == h && End(x).hist[|h|] == tl.log[k].io;
  }

  lemma NextHistory(w: World, h: seq<Io>, io: Io)
    ensures LastDate(w, h + [io]) == if io.Remove? then Some(w.clock(h)) else LastDate(w, h)
  {
    assert (h + [io])[..|h|] == h;
  }

  lemma OthersStillFit(r: Rules, xs: seq<Worker>, tl: Timeline, k: nat, j: nat, p: Sidecar)
    requires tl.Valid() && k < |tl.log| && j < |xs| == |r.holders| && j != tl.log[k].who
    requires SidecarFits(r, xs, tl, k, j, p)
    ensures SidecarFits(r, xs, tl, k + 1, j, p)
  {
    OwnNext(tl.log, k, j);
    assert Own(tl.log[..k + 1], j) == Own(tl.log[..k], j);
  }

  /** The coupling holds after one more command if it holds for its process, and nothing changed for the others. */
  lemma CoupledNext(r: Rules, xs: seq<Worker>, tl: Timeline, k: nat, s: Cluster, t: Cluster)
    requires tl.Valid() && k < |tl.log| && |xs| == |r.holders| && Coupled(r, xs, tl, k, s) && tl.log[k].who < |xs|
    requires Acted(r, xs, tl, k, s, t)
    ensures Coupled(r, xs, tl, k + 1, t)
  {
    forall j | 0 <= j < |xs| ensures SidecarFits(r, xs, tl, k + 1, j, t.procs[j]) {
      if j != tl.log[k].who { OthersStillFit(r, xs, tl, k, j, s.procs[j]); }
    }
  }

  /** What is known when one more command is to be followed. */
  ghost predicate AtAct(r: Rules, xs: seq<Worker>, tl: Timeline, k: nat, s: Cluster, terms: Terms) {
    && tl.Valid() && k < |tl.log| && tl.log[k].who < |xs| == |r.holders| == |s.procs|
    && s.key == KeyAt(r, tl, k) && s.attempts == HealsIn(tl, k) && WithinTerms(r, tl, terms, k)
    && var i := tl.log[k].who;
       var x, h, io := xs[i], Own(tl.log[..k], i), tl.log[k].io;
       && UsesLease(r, x, i) && Timed(r, xs, tl, k) && SidecarFits(r, xs, tl, k, i, s.procs[i])
       && MaySend(x.world, x.cfg, h, io) && Own(tl.log[..k + 1], i) == h + [io]
       && LastDate(x.world, h + [io]) == if io.Remove? then Some(x.world.clock(h)) else LastDate(x.world, h)
  }

  lemma FactsAtAct(r: Rules, xs: seq<Worker>, tl: Timeline, k: nat, s: Cluster, terms: Terms)
    requires OneKey(r, xs, tl) && k < |tl.log| && Coupled(r, xs, tl, k, s) && WithinTerms(r, tl, terms, k)
    ensures AtAct(r, xs, tl, k, s, terms)
  {
    assert Timed(r, xs, tl, k);
    var i := tl.log[k].who;
    assert UsesLease(r, xs[i], i) && SidecarFits(r, xs, tl, k, i, s.procs[i]);
    RulesInLog(r, xs, tl, k);
    OwnNext(tl.log, k, i);
    NextHistory(xs[i].world, Own(tl.log[..k], i), tl.log[k].io);
  }

  /** What the protocol has become when it is. */
  ghost predicate Acted(r: Rules, xs: seq<Worker>, tl: Timeline, k: nat, s: Cluster, t: Cluster)
    requires tl.Valid() && k < |tl.log| && |xs| == |r.holders| && |s.procs| == |xs| && tl.log[k].who < |xs|
  {
    && t.now == tl.times[k] && t.key == KeyAt(r, tl, k + 1) && t.attempts == HealsIn(tl, k + 1)
    && |t.procs| == |s.procs| && (forall j | 0 <= j < |xs| && j != tl.log[k].who :: t.procs[j] == s.procs[j])
    && SidecarFits(r, xs, tl, k + 1, tl.log[k].who, t.procs[tl.log[k].who])
  }

  /** SETNX, as the protocol has it. */
  lemma SetNxStep(r: Rules, w: World, cfg: Config, h: seq<Io>, io: Io, i: nat, s: Cluster, arrived: bool, at: nat,
                  seen: nat, terms: Terms, s0: Cluster, events: seq<Event>) returns (events': seq<Event>, t: Cluster)
    requires i < |s.procs| == |r.holders| == |s0.procs| && RunsTo(r, s0, events, s, terms)
    requires io.LeaseSetNx? && io.holder == r.holders[i] && MaySend(w, cfg, h, io) && r.cooldown <= cfg.healCooldown
    requires s.procs[i].lastHeal == LastDate(w, h) && PcFits(w, r.holders[i], h, s.procs[i].pc, seen, at)
    requires w.clock(h) == s.now
    requires !w.answer(h + [io]).Failed? ==> arrived && (w.answer(h + [io]).Done? <==> !Live(s))
    ensures RunsTo(r, s0, events', t, terms)
    ensures t.now == s.now && t.attempts == s.attempts && |t.procs| == |s.procs|
    ensures t.key == if arrived && !Live(s) then Some(Key(io.holder, s.now + r.ttl)) else s.key
    ensures forall j | 0 <= j < |s.procs| && j != i :: t.procs[j] == s.procs[j]
    ensures t.procs[i].lastHeal == s.procs[i].lastHeal
    ensures t.procs[i].until == if arrived && !Live(s) && !w.answer(h + [io]).Failed? then s.now + r.ttl
                                else s.procs[i].until
    ensures PcFits(w, r.holders[i], h + [io], t.procs[i].pc, seen, s.now)
  {
    events', t := events, s;
    if arrived {
      events', t := Then(r, s0, events', t, Preflight(i), terms);
      events', t := Then(r, s0, events', t, SetNx(i, !w.answer(h + [io]).Failed?), terms);
    }
  }

  lemma SetNxFollowed(r: Rules, xs: seq<Worker>, tl: Timeline, k: nat, s: Cluster, terms: Terms, s0: Cluster,
                      events: seq<Event>) returns (events': seq<Event>, t: Cluster)
    requires AtAct(r, xs, tl, k, s, terms) && tl.log[k].io.LeaseSetNx?
    requires |s0.procs| == |r.holders| && RunsTo(r, s0, events, s.(now := tl.times[k]), terms)
    ensures RunsTo(r, s0, events', t, terms) && Acted(r, xs, tl, k, s, t)
  {
    var i := tl.log[k].who;
    var w, h, io := xs[i].world, Own(tl.log[..k], i), tl.log[k].io;
    events', t := SetNxStep(r, w, xs[i].cfg, h, io, i, s.(now := tl.times[k]), tl.arrived[k], GrantAt(tl, i, k),
                            SeenAt(r, tl, i, k), terms, s0, events);
  }

  lemma GetFollowed(r: Rules, xs: seq<Worker>, tl: Timeline, k: nat, s: Cluster, terms: Terms, s0: Cluster,
                    events: seq<Event>) returns (events': seq<Event>, t: Cluster)
    requires AtAct(r, xs, tl, k, s, terms) && tl.log[k].io.LeaseGet?
    requires |s0.procs| == |r.holders| && RunsTo(r, s0, events, s.(now := tl.times[k]), terms)
    ensures RunsTo(r, s0, events', t, terms) && Acted(r, xs, tl, k, s, t)
  {
    var i := tl.log[k].who;
    var w, h, io := xs[i].world, Own(tl.log[..k], i), tl.log[k].io;
    var matched := TextOf(w.answer(h + [io])) == r.holders[i];
    events', t := Then(r, s0, events, s.(now := tl.times[k]), Get(i, matched), terms);
  }

  /** EXPIRE, as the protocol has it. */
  lemma ExpireStep(r: Rules, w: World, cfg: Config, h: seq<Io>, io: Io, i: nat, s: Cluster, arrived: bool, at: nat,
                   seen: nat, terms: Terms, s0: Cluster, events: seq<Event>) returns (events': seq<Event>, t: Cluster)
    requires i < |s.procs| == |r.holders| == |s0.procs| && RunsTo(r, s0, events, s, terms)
    requires io.LeaseExpire? && MaySend(w, cfg, h, io) && r.holders[i] == HolderId(w, cfg.leaseHolder)
    requires PcFits(w, r.holders[i], h, s.procs[i].pc, seen, at)
    requires (terms.timely ==> s.now < seen) && (terms.delivered ==> arrived)
    ensures RunsTo(r, s0, events', t, terms)
    ensures t.now == s.now && t.attempts == s.attempts && |t.procs| == |s.procs|
    ensures t.key == if arrived && Live(s) then Some(s.key.value.(deadline := s.now + r.ttl)) else s.key
    ensures forall j | 0 <= j < |s.procs| && j != i :: t.procs[j] == s.procs[j]
    ensures t.procs[i].lastHeal == s.procs[i].lastHeal
    ensures t.procs[i].until == if arrived && Live(s) then s.now + r.ttl else s.procs[i].until
    ensures PcFits(w, r.holders[i], h + [io], t.procs[i].pc, seen, s.now)
  {
    events', t := Then(r, s0, events, s, Expire(i, arrived), terms);
  }

  lemma ExpireFollowed(r: Rules, xs: seq<Worker>, tl: Timeline, k: nat, s: Cluster, terms: Terms, s0: Cluster,
                       events: seq<Event>) returns (events': seq<Event>, t: Cluster)
    requires AtAct(r, xs, tl, k, s, terms) && tl.log[k].io.LeaseExpire?
    requires |s0.procs| == |r.holders| && RunsTo(r, s0, events, s.(now := tl.times[k]), terms)
    ensures RunsTo(r, s0, events', t, terms) && Acted(r, xs, tl, k, s, t)
  {
    var i := tl.log[k].who;
    var w, h, io := xs[i].world, Own(tl.log[..k], i), tl.log[k].io;
    events', t := ExpireStep(r, w, xs[i].cfg, h, io, i, s.(now := tl.times[k]), tl.arrived[k], GrantAt(tl, i, k),
                             SeenAt(r, tl, i, k), terms, s0, events);
  }

  lemma RemoveFollowed(r: Rules, xs: seq<Worker>, tl: Timeline, k: nat, s: Cluster, terms: Terms, s0: Cluster,
                       events: seq<Event>) returns (events': seq<Event>, t: Cluster)
    requires AtAct(r, xs, tl, k, s, terms) && tl.log[k].io.Remove?
    requires |s0.procs| == |r.holders| && RunsTo(r, s0, events, s.(now := tl.times[k]), terms)
    ensures RunsTo(r, s0, events', t, terms) && Acted(r, xs, tl, k, s, t)
  {
    var i := tl.log[k].who;
    var w, h, io := xs[i].world, Own(tl.log[..k], i), tl.log[k].io;
    events', t := Then(r, s0, events, s.(now := tl.times[k]), Heal(i), terms);
  }

  lemma PlainFollowed(r: Rules, xs: seq<Worker>, tl: Timeline, k: nat, s: Cluster, terms: Terms, s0: Cluster,
                      events: seq<Event>) returns (events': seq<Event>, t: Cluster)
    requires AtAct(r, xs, tl, k, s, terms) && Plain(tl.log[k].io)
    requires |s0.procs| == |r.holders| && RunsTo(r, s0, events, s.(now := tl.times[k]), terms)
    ensures RunsTo(r, s0, events', t, terms) && Acted(r, xs, tl, k, s, t)
  {
    var i := tl.log[k].who;
    var w, h, io := xs[i].world, Own(tl.log[..k], i), tl.log[k].io;
    events', t := Then(r, s0, events, s.(now := tl.times[k]), GiveUp(i), terms);
  }

  lemma CommandFollowed(r: Rules, xs: seq<Worker>, tl: Timeline, k: nat, s: Cluster, terms: Terms, s0: Cluster,
                        events: seq<Event>) returns (events': seq<Event>, t: Cluster)
    requires AtAct(r, xs, tl, k, s, terms)
    requires |s0.procs| == |r.holders| && RunsTo(r, s0, events, s.(now := tl.times[k]), terms)
    ensures RunsTo(r, s0, events', t, terms) && Acted(r, xs, tl, k, s, t)
  {
    var io := tl.log[k].io;
    if io.LeaseSetNx? {
      events', t := SetNxFollowed(r, xs, tl, k, s, terms, s0, events);
    } else if io.LeaseGet? {
      events', t := GetFollowed(r, xs, tl, k, s, terms, s0, events);
    } else if io.LeaseExpire? {
      events', t := ExpireFollowed(r, xs, tl, k, s, terms, s0, events);
    } else if io.Remove? {
      events', t := RemoveFollowed(r, xs, tl, k, s, terms, s0, events);
    } else {
      events', t := PlainFollowed(r, xs, tl, k, s, terms, s0, events);
    }
  }

  /** One more command of the log is a step or two of the protocol. */
  lemma ActFollowed(r: Rules, xs: seq<Worker>, tl: Timeline, k: nat, s: Cluster, terms: Terms, s0: Cluster,
                    events: seq<Event>) returns (events': seq<Event>, t: Cluster)
    requires AtAct(r, xs, tl, k, s, terms) && Coupled(r, xs, tl, k, s)
    requires |s0.procs| == |r.holders| && RunsTo(r, s0, events, s, terms)
    ensures RunsTo(r, s0, events', t, terms) && Coupled(r, xs, tl, k + 1, t)
  {
    assert tl.Now(k) <= tl.times[k];
    events', t := Then(r, s0, events, s, Advance(tl.times[k] - s.now), terms);
    events', t := CommandFollowed(r, xs, tl, k, s, terms, s0, events');
    CoupledNext(r, xs, tl, k, s, t);
  }

  /** No key, and every sidecar between checks. */
  function Unused(n: nat): Cluster { Cluster(0, None, seq(n, i => Sidecar(Idle, None, 0)), []) }

  lemma UnusedIsCoupled(r: Rules, xs: seq<Worker>, tl: Timeline)
    requires OneKey(r, xs, tl)
    ensures Starts(r, Unused(|xs|)) && Coupled(r, xs, tl, 0, Unused(|xs|))
  {}

  lemma LongerRun(r: Rules, xs: seq<Worker>, tl: Timeline, k: nat, s: Cluster, terms: Terms, s0: Cluster,
                  events: seq<Event>) returns (events': seq<Event>, t: Cluster)
    requires OneKey(r, xs, tl) && k < |tl.log| && Coupled(r, xs, tl, k, s) && WithinTerms(r, tl, terms, k)
    requires |s0.procs| == |r.holders| && RunsTo(r, s0, events, s, terms)
    ensures RunsTo(r, s0, events', t, terms) && Coupled(r, xs, tl, k + 1, t)
  {
    FactsAtAct(r, xs, tl, k, s, terms);
    events', t := ActFollowed(r, xs, tl, k, s, terms, s0, events);
  }

  /** Every initial part of the log is a run of the lease protocol, on the same key, with the same grants and heals. */
  lemma {:induction false} LogIsRun(r: Rules, xs: seq<Worker>, tl: Timeline, terms: Terms, k: nat)
    returns (events: seq<Event>, s: Cluster)
    requires OneKey(r, xs, tl) && k <= |tl.log| && forall j | 0 <= j < k :: WithinTerms(r, tl, terms, j)
    ensures RunsTo(r, Unused(|xs|), events, s, terms) && Coupled(r, xs, tl, k, s)
    decreases k
  {
    if k == 0 {
      UnusedIsCoupled(r, xs, tl);
      events, s := [], Unused(|xs|);
    } else {
      events, s := LogIsRun(r, xs, tl, terms, k - 1);
      assert WithinTerms(r, tl, terms, k - 1);
      events, s := LongerRun(r, xs, tl, k - 1, s, terms, Unused(|xs|), events);
    }
  }

  /** So at any point of the log, and at any time until the next command, at most one process is inside a window that it
      was granted, if holders are distinct and EXPIREs timely. */
  lemma LogExcludes(r: Rules, xs: seq<Worker>, tl: Timeline, terms: Terms, k: nat, now: nat, i: nat, j: nat)
    requires OneKey(r, xs, tl) && Distinct(r) && terms.timely && k <= |tl.log| && tl.Now(k) <= now
    requires forall n | 0 <= n < k :: WithinTerms(r, tl, terms, n)
    requires i < |xs| && j < |xs| && i != j
    ensures !(now < WindowEnd(r, xs, tl, i, k) && now < WindowEnd(r, xs, tl, j, k))
  {
    var events, s := LogIsRun(r, xs, tl, terms, k);
    UnusedIsCoupled(r, xs, tl);
    TimelyRunExcludes(r, Unused(|xs|), events, s, terms);
    assert SidecarFits(r, xs, tl, k, i, s.procs[i]) && SidecarFits(r, xs, tl, k, j, s.procs[j]);
    WindowsApart(s, if i < j then i else j, if i < j then j else i);
  }

  lemma WindowsApart(s: Cluster, i: nat, j: nat)
    requires MutualExclusion(s) && i < j < |s.procs|
    ensures !(s.now < s.procs[i].until && s.now < s.procs[j].until)
  {
    assert !(InWindow(s, i) && InWindow(s, j));
  }

  /** So the heals that the processes themselves begin, whichever processes they are and however their commands
      interleave, are at least min(cooldown, ttl - delta) apart, if EXPIREs are timely and arrive, holders are distinct
      and a granted process heals within delta or not at all. */
  lemma LogHealsAreSpaced(r: Rules, xs: seq<Worker>, tl: Timeline, delta: nat)
    requires OneKey(r, xs, tl) && Distinct(r) && delta < r.ttl
    requires forall k | 0 <= k < |tl.log| :: WithinTerms(r, tl, Prompt(delta), k)
    ensures Spaced(HealsIn(tl, |tl.log|), MinGap(r, delta))
  {
    var events, s := LogIsRun(r, xs, tl, Prompt(delta), |tl.log|);
    UnusedIsCoupled(r, xs, tl);
    AttemptsAreSpaced(r, Unused(|xs|), events, s, delta);
  }

  /** Processes with different configured lease holders have different ids, whatever hosts they run on. */
  lemma ConfiguredHoldersDiffer(r: Rules, xs: seq<Worker>, tl: Timeline)
    requires OneKey(r, xs, tl) && forall i | 0 <= i < |xs| :: xs[i].cfg.leaseHolder != ""
    requires forall i, j | 0 <= i < j < |xs| :: xs[i].cfg.leaseHolder != xs[j].cfg.leaseHolder
    ensures Distinct(r) && forall i | 0 <= i < |xs| :: r.holders[i] == xs[i].cfg.leaseHolder
  {
    forall i | 0 <= i < |xs| ensures r.holders[i] == xs[i].cfg.leaseHolder { assert UsesLease(r, xs[i], i); }
  }

  /** So do processes without one that run on hosts of different names. */
  lemma HostsDiffer(r: Rules, xs: seq<Worker>, tl: Timeline)
    requires OneKey(r, xs, tl)
    requires forall i | 0 <= i < |xs| :: xs[i].cfg.leaseHolder == "" && xs[i].world.hostname != ""
    requires forall i, j | 0 <= i < j < |xs| :: xs[i].world.hostname != xs[j].world.hostname
    ensures Distinct(r) && forall i | 0 <= i < |xs| :: r.holders[i] == xs[i].world.hostname
  {
    forall i | 0 <= i < |xs| ensures r.holders[i] == xs[i].world.hostname { assert UsesLease(r, xs[i], i); }
  }

  /** These heals are the processes' own: each is dated as its process dates it, the last one of a process is the date
      the process has noted, and it has counted as many as the log shows. */
  lemma HealsAreTheirs(r: Rules, xs: seq<Worker>, tl: Timeline, i: nat)
    requires OneKey(r, xs, tl) && i < |xs| && Own(tl.log, i) == End(xs[i]).hist
    ensures LastDate(xs[i].world, Own(tl.log, i)) == End(xs[i]).lastHeal
    ensures Removes(Own(tl.log, i)) == End(xs[i]).counts[HealAttempt] - xs[i].start.counts[HealAttempt]
    ensures forall k | 0 <= k < |tl.log| && tl.log[k].who == i && tl.log[k].io.Remove? ::
              LastDate(xs[i].world, Own(tl.log[..k + 1], i)) == Some(tl.times[k])
  {
    var x := xs[i];
    assert Runs(x) && UsesLease(r, x, i);
    RunKeeps(x.world, x.cfg, x.run, x.start);
    forall k | 0 <= k < |tl.log| && tl.log[k].who == i && tl.log[k].io.Remove?
      ensures LastDate(x.world, Own(tl.log[..k + 1], i)) == Some(tl.times[k])
    {
      assert Timed(r, xs, tl, k);
      OwnNext(tl.log, k, i);
      NextHistory(x.world, Own(tl.log[..k], i), tl.log[k].io);
    }
  }
}
