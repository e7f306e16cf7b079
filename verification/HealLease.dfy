/** The heal lease as a protocol: any number of sidecars, one key on the writable Redis, and SETNX, GET and
    EXPIRE as separate steps that interleave with each other and with the passing of time. */
module HealLease {
  import opened Text
  import opened Process

  /** The lease key: who holds it, and when it expires by itself. */
  datatype Key = Key(holder: string, deadline: nat)

  /** Where a sidecar is between its cooldown check and its heal attempt. */
  datatype Pc =
    | Idle
    | Ready                 // the cooldown check has passed
    | Refused               // SETNX found the key taken
    | Matched(seen: nat)    // GET returned this holder; the key was then due to expire at seen
    | Granted(at: nat)      // the lease was granted at that time

  /** until is the end of the window that the last SETNX or effective EXPIRE opened. */
  datatype Sidecar = Sidecar(pc: Pc, lastHeal: Option<nat>, until: nat)

  datatype Attempt = Attempt(who: nat, at: nat)

  datatype Cluster = Cluster(now: nat, key: Option<Key>, procs: seq<Sidecar>, attempts: seq<Attempt>)

  datatype Rules = Rules(holders: seq<string>, ttl: nat, cooldown: int)

  datatype Event =
    | Advance(ticks: nat)
    | Preflight(who: nat)
    | SetNx(who: nat, answered: bool)
    | Get(who: nat, answered: bool)
    | Expire(who: nat, delivered: bool)
    | Heal(who: nat)
    | GiveUp(who: nat)

  predicate Live(s: Cluster) { s.key.Some? && s.now < s.key.value.deadline }

  function Put(s: Cluster, i: nat, p: Sidecar): Cluster
    requires i < |s.procs|
  {
    s.(procs := s.procs[i := p])
  }

  function Healed(s: Cluster, i: nat): Cluster
    requires i < |s.procs|
  {
    Put(s, i, s.procs[i].(pc := Idle, lastHeal := Some(s.now))).(attempts := s.attempts + [Attempt(i, s.now)])
  }

  /** One step, or None where the event cannot happen. An answer may be lost after the command took effect, and the
      result of EXPIRE is not looked at; a sidecar that hears nothing from SETNX gives up, one that hears nothing
      from GET takes the holder for another. EXPIRE resets whatever key is there. */
  function Next(r: Rules, s: Cluster, e: Event): Option<Cluster>
    requires |s.procs| == |r.holders|
  {
    match e
    case Advance(n) => Some(s.(now := s.now + n))
    case Preflight(i) =>
      if i < |s.procs| && s.procs[i].pc.Idle? && CooledDown(r.cooldown, s.procs[i].lastHeal, s.now)
      then Some(Put(s, i, s.procs[i].(pc := Ready))) else None
    case SetNx(i, answered) =>
      if !(i < |s.procs| && s.procs[i].pc.Ready?) then None
      else if Live(s) then Some(Put(s, i, s.procs[i].(pc := if answered then Refused else Idle)))
      else
        var s1 := s.(key := Some(Key(r.holders[i], s.now + r.ttl)));
        Some(Put(s1, i, if answered then s.procs[i].(pc := Granted(s.now), until := s.now + r.ttl)
                        else s.procs[i].(pc := Idle)))
    case Get(i, answered) =>
      if !(i < |s.procs| && s.procs[i].pc.Refused?) then None
      else if answered && Live(s) && s.key.value.holder == r.holders[i]
      then Some(Put(s, i, s.procs[i].(pc := Matched(s.key.value.deadline))))
      else Some(Put(s, i, s.procs[i].(pc := Idle)))
    case Expire(i, delivered) =>
      if !(i < |s.procs| && s.procs[i].pc.Matched?) then None
      else if delivered && Live(s) then
        var s1 := s.(key := Some(s.key.value.(deadline := s.now + r.ttl)));
        Some(Put(s1, i, s.procs[i].(pc := Granted(s.now), until := s.now + r.ttl)))
      else Some(Put(s, i, s.procs[i].(pc := Granted(s.now))))
    case Heal(i) =>
      if i < |s.procs| && s.procs[i].pc.Granted?
      then Some(Healed(s, i))
      else None
    case GiveUp(i) =>
      if i < |s.procs| then Some(Put(s, i, s.procs[i].(pc := Idle))) else None
  }

  ghost predicate Starts(r: Rules, s: Cluster) {
    && |s.procs| == |r.holders| && s.attempts == [] && s.key.None?
    && forall i | 0 <= i < |s.procs| :: s.procs[i] == Sidecar(Idle, None, 0)
  }

  predicate InWindow(s: Cluster, i: nat)
    requires i < |s.procs|
  {
    s.now < s.procs[i].until
  }

  /** At most one sidecar is inside a window it was granted. */
  ghost predicate MutualExclusion(s: Cluster) {
    forall i, j | 0 <= i < j < |s.procs| :: !(InWindow(s, i) && InWindow(s, j))
  }

  /** The key that a GET matched is not due before the EXPIRE that follows it. */
  predicate Timely(s: Cluster, e: Event) {
    e.Expire? && e.who < |s.procs| && s.procs[e.who].pc.Matched? ==> s.now < s.procs[e.who].pc.seen
  }

  /** What is asked of a run: timely EXPIREs, EXPIREs that arrive, and heals within delta of the grant or not at all. */
  datatype Terms = Terms(timely: bool, delivered: bool, delta: Option<nat>)

  predicate Meets(terms: Terms, s: Cluster, e: Event) {
    && (terms.timely ==> Timely(s, e))
    && (terms.delivered && e.Expire? ==> e.delivered)
    && (terms.delta.Some? && e.Heal? && e.who < |s.procs| && s.procs[e.who].pc.Granted? ==>
          s.now <= s.procs[e.who].pc.at + terms.delta.value)
  }

  /** The events lead from s to t, every one of them possible and within the terms. */
  ghost predicate RunsTo(r: Rules, s: Cluster, events: seq<Event>, t: Cluster, terms: Terms)
    requires |s.procs| == |r.holders|
    decreases events
  {
    if events == [] then s == t
    else
      var next := Next(r, s, events[0]);
      && Meets(terms, s, events[0]) && next.Some?
      && RunsTo(r, next.value, events[1..], t, terms)
  }

  ghost predicate Distinct(r: Rules) {
    forall i, j | 0 <= i < j < |r.holders| :: r.holders[i] != r.holders[j]
  }

  // ----- mutual exclusion -----

  predicate Holds(r: Rules, s: Cluster, i: nat, until: nat)
    requires i < |r.holders|
  {
    s.now < until ==> s.key.Some? && s.key.value.holder == r.holders[i] && s.key.value.deadline >= until
  }

  /** Whoever is inside a window, or has just matched, holds the key for at least as long. */
  ghost predicate Inv(r: Rules, s: Cluster) {
    && |s.procs| == |r.holders|
    && (forall i | 0 <= i < |s.procs| :: Holds(r, s, i, s.procs[i].until))
    && (forall i | 0 <= i < |s.procs| && s.procs[i].pc.Matched? :: Holds(r, s, i, s.procs[i].pc.seen))
  }

  lemma InvExcludes(r: Rules, s: Cluster)
    requires Inv(r, s) && Distinct(r)
    ensures MutualExclusion(s)
  {
    forall i, j | 0 <= i < j < |s.procs| ensures !(InWindow(s, i) && InWindow(s, j)) {
      assert Holds(r, s, i, s.procs[i].until) && Holds(r, s, j, s.procs[j].until);
    }
  }

  lemma InvStep(r: Rules, s: Cluster, e: Event)
    requires Inv(r, s) && Distinct(r) && Timely(s, e) && Next(r, s, e).Some?
    ensures Inv(r, Next(r, s, e).value)
  {
    var t := Next(r, s, e).value;
    forall i | 0 <= i < |t.procs|
      ensures Holds(r, t, i, t.procs[i].until)
      ensures t.procs[i].pc.Matched? ==> Holds(r, t, i, t.procs[i].pc.seen)
    {
      assert Holds(r, s, i, s.procs[i].until);
      if s.procs[i].pc.Matched? { assert Holds(r, s, i, s.procs[i].pc.seen); }
      if e.Expire? { assert Holds(r, s, e.who, s.procs[e.who].pc.seen); }
    }
  }

  lemma {:induction false} TimelyRunExcludes(r: Rules, s: Cluster, events: seq<Event>, t: Cluster, terms: Terms)
    requires Inv(r, s) && Distinct(r) && RunsTo(r, s, events, t, terms) && terms.timely
    ensures Inv(r, t) && MutualExclusion(t)
    decreases events
  {
    if events == [] {
      InvExcludes(r, s);
    } else {
      InvStep(r, s, events[0]);
      TimelyRunExcludes(r, Next(r, s, events[0]).value, events[1..], t, terms);
    }
  }

  lemma {:induction false} RunsAppend(r: Rules, s: Cluster, first: seq<Event>, m: Cluster, after: seq<Event>,
                                      t: Cluster,
                                      terms: Terms)
    requires |s.procs| == |r.holders| == |m.procs|
    requires RunsTo(r, s, first, m, terms) && RunsTo(r, m, after, t, terms)
    ensures RunsTo(r, s, first + after, t, terms)
    decreases first
  {
    if first == [] {
      assert first + after == after;
    } else {
      RunsAppend(r, Next(r, s, first[0]).value, first[1..], m, after, t, terms);
      assert (first + after)[1..] == first[1..] + after;
    }
  }

  /** One more step at the end of a run. */
  lemma Then(r: Rules, s: Cluster, events: seq<Event>, m: Cluster, e: Event, terms: Terms)
    returns (events': seq<Event>, t: Cluster)
    requires |s.procs| == |r.holders| == |m.procs| && RunsTo(r, s, events, m, terms)
    requires Meets(terms, m, e) && Next(r, m, e).Some?
    ensures RunsTo(r, s, events', t, terms) && t == Next(r, m, e).value
  {
    t := Next(r, m, e).value;
    assert [e][1..] == [];
    assert RunsTo(r, m, [e], t, terms);
    RunsAppend(r, s, events, m, [e], t, terms);
    events' := events + [e];
  }

  /** A sidecar that finds no live key is granted the lease. */
  lemma ThenGranted(r: Rules, s: Cluster, events: seq<Event>, m: Cluster, i: nat, terms: Terms)
    returns (events': seq<Event>, t: Cluster)
    requires |s.procs| == |r.holders| == |m.procs| && RunsTo(r, s, events, m, terms)
    requires i < |m.procs| && m.procs[i].pc.Idle? && CooledDown(r.cooldown, m.procs[i].lastHeal, m.now) && !Live(m)
    ensures RunsTo(r, s, events', t, terms)
    ensures t == Put(m, i, Sidecar(Granted(m.now), m.procs[i].lastHeal, m.now + r.ttl))
                   .(key := Some(Key(r.holders[i], m.now + r.ttl)))
  {
    events', t := Then(r, s, events, m, Preflight(i), terms);
    events', t := Then(r, s, events', t, SetNx(i, true), terms);
  }

  /** A sidecar that finds a live key of its own holder id is told that it holds it. */
  lemma ThenMatched(r: Rules, s: Cluster, events: seq<Event>, m: Cluster, i: nat, terms: Terms)
    returns (events': seq<Event>, t: Cluster)
    requires |s.procs| == |r.holders| == |m.procs| && RunsTo(r, s, events, m, terms)
    requires i < |m.procs| && m.procs[i].pc.Idle? && CooledDown(r.cooldown, m.procs[i].lastHeal, m.now)
    requires Live(m) && m.key.value.holder == r.holders[i]
    ensures RunsTo(r, s, events', t, terms)
    ensures t == Put(m, i, m.procs[i].(pc := Matched(m.key.value.deadline)))
  {
    events', t := Then(r, s, events, m, Preflight(i), terms);
    events', t := Then(r, s, events', t, SetNx(i, true), terms);
    events', t := Then(r, s, events', t, Get(i, true), terms);
  }

  /** Two sidecars with one holder id are both granted the lease at once. */
  lemma SharedHolderRun(r: Rules, s: Cluster, i: nat, j: nat, terms: Terms) returns (events: seq<Event>, t: Cluster)
    requires Starts(r, s) && i < j < |r.holders| && r.holders[i] == r.holders[j] && r.ttl > 0
    ensures RunsTo(r, s, events, t, terms) && !MutualExclusion(t)
  {
    events, t := ThenGranted(r, s, [], s, i, terms);
    events, t := ThenMatched(r, s, events, t, j, terms);
    events, t := Then(r, s, events, t, Expire(j, true), terms);
    assert InWindow(t, i) && InWindow(t, j);
  }

  /** The first sidecar is granted the lease, does not use it, and one tick before its key ends asks again and is
      told that it still holds the lease. */
  lemma RunToLastTick(r: Rules, s: Cluster, terms: Terms) returns (events: seq<Event>, t: Cluster)
    requires Starts(r, s) && |r.holders| >= 1 && r.ttl > 0
    ensures RunsTo(r, s, events, t, terms)
    ensures t == Cluster(s.now + r.ttl - 1, Some(Key(r.holders[0], s.now + r.ttl)),
                         s.procs[0 := Sidecar(Matched(s.now + r.ttl), None, s.now + r.ttl)], [])
  {
    events, t := ThenGranted(r, s, [], s, 0, terms);
    events, t := Then(r, s, events, t, GiveUp(0), terms);
    events, t := Then(r, s, events, t, Advance(r.ttl - 1), terms);
    events, t := ThenMatched(r, s, events, t, 0, terms);
  }

  /** From there, when the key ends the second sidecar takes the lease, and then the first one's EXPIRE arrives and
      extends the second one's key. */
  lemma LateExpireRun(r: Rules, s: Cluster, terms: Terms) returns (events: seq<Event>, t: Cluster)
    requires Starts(r, s) && |r.holders| >= 2 && r.ttl > 0 && !terms.timely
    ensures RunsTo(r, s, events, t, terms) && !MutualExclusion(t)
  {
    events, t := RunToLastTick(r, s, terms);
    events, t := Then(r, s, events, t, Advance(1), terms);
    events, t := ThenGranted(r, s, events, t, 1, terms);
    events, t := Then(r, s, events, t, Expire(0, true), terms);
    assert InWindow(t, 0) && InWindow(t, 1);
  }

  ghost predicate RunExcludes(r: Rules, s: Cluster, events: seq<Event>, t: Cluster, terms: Terms)
    requires |s.procs| == |r.holders|
  {
    RunsTo(r, s, events, t, terms) ==> MutualExclusion(t)
  }

  /** With two sidecars or more, at most one is inside a granted window at any point of any interleaving, exactly
      when no two use one holder id and every EXPIRE is timely. */
  lemma LeaseExcludesIff(r: Rules, s: Cluster, terms: Terms)
    requires Starts(r, s) && |r.holders| >= 2 && r.ttl > 0
    ensures (forall events, t :: RunExcludes(r, s, events, t, terms)) <==> terms.timely && Distinct(r)
  {
    if !terms.timely {
      var events, t := LateExpireRun(r, s, terms);
      assert !RunExcludes(r, s, events, t, terms);
    } else if Distinct(r) {
      forall events, t ensures RunExcludes(r, s, events, t, terms) {
        if RunsTo(r, s, events, t, terms) { TimelyRunExcludes(r, s, events, t, terms); }
      }
    } else {
      var i, j :| 0 <= i < j < |r.holders| && r.holders[i] == r.holders[j];
      var events, t := SharedHolderRun(r, s, i, j, terms);
      assert !RunExcludes(r, s, events, t, terms);
    }
  }

  /** An EXPIRE that arrives late breaks exclusion exactly when the key it resets had expired and another sidecar
      was granted a window in between. */
  lemma LateExpire(r: Rules, s: Cluster, i: nat)
    requires Inv(r, s) && Distinct(r) && i < |s.procs| && s.procs[i].pc.Matched? && Live(s) && r.ttl > 0
    ensures var t := Next(r, s, Expire(i, true)).value;
            MutualExclusion(t) <==>
              s.now < s.procs[i].pc.seen || forall j | 0 <= j < |s.procs| && j != i :: !InWindow(s, j)
  {
    var t := Next(r, s, Expire(i, true)).value;
    InvExcludes(r, s);
    assert Holds(r, s, i, s.procs[i].pc.seen);
    assert InWindow(t, i);
    forall j | 0 <= j < |s.procs| && j != i
      ensures InWindow(t, j) <==> InWindow(s, j)
      ensures s.now < s.procs[i].pc.seen ==> !InWindow(s, j)
    {
      assert Holds(r, s, j, s.procs[j].until);
    }
  }

  // ----- how often anyone heals -----

  /** Timely EXPIREs that all arrive, and heals within delta. */
  function Prompt(delta: nat): Terms { Terms(true, true, Some(delta)) }

  /** The least time between two attempts by anyone. */
  function MinGap(r: Rules, delta: nat): int {
    if r.cooldown < r.ttl - delta then r.cooldown else r.ttl - delta
  }

  ghost predicate Spaced(attempts: seq<Attempt>, gap: int) {
    forall k | 0 <= k < |attempts| - 1 :: attempts[k + 1].at - attempts[k].at >= gap
  }

  /** What a sidecar's own state says about its grant and its last attempt. */
  predicate SelfPaced(r: Rules, s: Cluster, i: nat)
    requires i < |s.procs|
  {
    var p := s.procs[i];
    && (p.pc.Granted? ==> p.pc.at <= s.now && p.until >= p.pc.at + r.ttl)
    && (p.lastHeal.Some? ==> p.lastHeal.value <= s.now)
    && (!p.pc.Idle? ==> CooledDown(r.cooldown, p.lastHeal, s.now))
  }

  /** What the last attempt excludes: its sidecar is still in its window, and any other grant that may still be
      used came after that window could end. */
  ghost predicate LastPaced(r: Rules, s: Cluster, delta: nat) {
    s.attempts != [] ==>
      var a := s.attempts[|s.attempts| - 1];
      && a.who < |s.procs| && a.at <= s.now
      && s.procs[a.who].lastHeal == Some(a.at)
      && s.procs[a.who].until >= a.at + r.ttl - delta
      && forall j | 0 <= j < |s.procs| && j != a.who && s.procs[j].pc.Granted? ::
           s.now <= s.procs[j].pc.at + delta ==> s.procs[j].pc.at >= a.at + r.ttl - delta
  }

  ghost predicate Paced(r: Rules, s: Cluster, delta: nat) {
    && Inv(r, s)
    && (forall i | 0 <= i < |s.procs| :: SelfPaced(r, s, i))
    && LastPaced(r, s, delta)
    && Spaced(s.attempts, MinGap(r, delta))
  }

  lemma SelfPacedStep(r: Rules, s: Cluster, e: Event, delta: nat)
    requires Paced(r, s, delta) && Distinct(r) && Meets(Prompt(delta), s, e) && Next(r, s, e).Some?
    ensures forall i | 0 <= i < |s.procs| :: SelfPaced(r, Next(r, s, e).value, i)
  {
    var t := Next(r, s, e).value;
    forall i | 0 <= i < |s.procs| ensures SelfPaced(r, t, i) {
      assert SelfPaced(r, s, i);
      if e.Expire? { assert Holds(r, s, e.who, s.procs[e.who].pc.seen); }
    }
  }

  /** No other sidecar can be granted the lease inside the window of the last one that healed. */
  lemma GrantAfterWindow(r: Rules, s: Cluster, e: Event, i: nat, j: nat, delta: nat)
    requires Paced(r, s, delta) && Distinct(r) && Meets(Prompt(delta), s, e) && Next(r, s, e).Some?
    requires i < |s.procs| && j < |s.procs| && i != j && !s.procs[j].pc.Granted?
    requires Next(r, s, e).value.procs[j].pc.Granted?
    ensures !InWindow(s, i) && Next(r, s, e).value.procs[j].pc.at == s.now
  {
    assert Holds(r, s, i, s.procs[i].until);
    if e.Expire? { assert Holds(r, s, j, s.procs[j].pc.seen); }
  }

  lemma LastPacedStep(r: Rules, s: Cluster, e: Event, delta: nat)
    requires Paced(r, s, delta) && Distinct(r) && Meets(Prompt(delta), s, e) && Next(r, s, e).Some? && !e.Heal?
    ensures LastPaced(r, Next(r, s, e).value, delta)
  {
    var t := Next(r, s, e).value;
    if s.attempts != [] {
      var a := s.attempts[|s.attempts| - 1];
      assert SelfPaced(r, s, a.who) && Holds(r, s, a.who, s.procs[a.who].until);
      forall j | 0 <= j < |t.procs| && j != a.who && t.procs[j].pc.Granted?
        ensures t.now <= t.procs[j].pc.at + delta ==> t.procs[j].pc.at >= a.at + r.ttl - delta
      {
        if !s.procs[j].pc.Granted? { GrantAfterWindow(r, s, e, a.who, j, delta); }
      }
      if e.Expire? && e.who == a.who { assert Holds(r, s, e.who, s.procs[e.who].pc.seen); }
    }
  }

  lemma HealPaced(r: Rules, s: Cluster, i: nat, delta: nat)
    requires Paced(r, s, delta) && Distinct(r) && Meets(Prompt(delta), s, Heal(i)) && Next(r, s, Heal(i)).Some?
    requires delta < r.ttl
    ensures LastPaced(r, Next(r, s, Heal(i)).value, delta)
    ensures Spaced(Next(r, s, Heal(i)).value.attempts, MinGap(r, delta))
  {
    assert SelfPaced(r, s, i);
    InvExcludes(r, s);
    forall j | 0 <= j < |s.procs| && j != i && s.procs[j].pc.Granted?
      ensures s.now > s.procs[j].pc.at + delta
    {
      assert SelfPaced(r, s, j);
      assert InWindow(s, i);
      assert !(InWindow(s, i) && InWindow(s, j));
    }
  }

  lemma PacedStep(r: Rules, s: Cluster, e: Event, delta: nat)
    requires Paced(r, s, delta) && Distinct(r) && Meets(Prompt(delta), s, e) && Next(r, s, e).Some?
    requires delta < r.ttl
    ensures Paced(r, Next(r, s, e).value, delta)
  {
    InvStep(r, s, e);
    SelfPacedStep(r, s, e, delta);
    if e.Heal? { HealPaced(r, s, e.who, delta); } else { LastPacedStep(r, s, e, delta); }
  }

  /** Over every run in which EXPIREs reach their key in time and a granted sidecar heals within delta or not at all,
      any two consecutive attempts, by whichever sidecars, are at least min(cooldown, ttl - delta) apart. */
  lemma {:induction false} AttemptsAreSpaced(r: Rules, s: Cluster, events: seq<Event>, t: Cluster, delta: nat)
    requires Paced(r, s, delta) && Distinct(r) && RunsTo(r, s, events, t, Prompt(delta)) && delta < r.ttl
    ensures Spaced(t.attempts, MinGap(r, delta))
    decreases events
  {
    if events != [] {
      PacedStep(r, s, events[0], delta);
      AttemptsAreSpaced(r, Next(r, s, events[0]).value, events[1..], t, delta);
    }
  }

  lemma {:induction false} SpacedSpan(attempts: seq<Attempt>, gap: int, i: nat, j: nat)
    requires Spaced(attempts, gap) && i <= j < |attempts|
    ensures attempts[j].at - attempts[i].at >= (j - i) * gap
  {
    if i < j {
      SpacedSpan(attempts, gap, i, j - 1);
      assert attempts[j - 1 + 1].at - attempts[j - 1].at >= gap;
      assert (j - i) * gap == (j - 1 - i) * gap + gap;
    }
  }

  /** So among the attempts that fall into any stretch of time of length d, the number less one, times the gap,
      is at most d. */
  lemma RateBound(r: Rules, s: Cluster, events: seq<Event>, t: Cluster, delta: nat, i: nat, j: nat, d: nat)
    requires Starts(r, s) && Distinct(r) && RunsTo(r, s, events, t, Prompt(delta)) && delta < r.ttl
    requires i <= j < |t.attempts| && t.attempts[j].at - t.attempts[i].at <= d
    ensures (j - i) * MinGap(r, delta) <= d
  {
    AttemptsAreSpaced(r, s, events, t, delta);
    SpacedSpan(t.attempts, MinGap(r, delta), i, j);
  }

  /** A granted sidecar heals at once. */
  lemma ThenHeals(r: Rules, s: Cluster, events: seq<Event>, m: Cluster, i: nat, terms: Terms)
    returns (events': seq<Event>, t: Cluster)
    requires |s.procs| == |r.holders| == |m.procs| && RunsTo(r, s, events, m, terms)
    requires i < |m.procs| && m.procs[i].pc == Granted(m.now)
    ensures RunsTo(r, s, events', t, terms)
    ensures t == Healed(m, i)
  {
    events', t := Then(r, s, events, m, Heal(i), terms);
  }

  /** A sidecar that finds no live key takes the lease and heals. */
  lemma ThenTakes(r: Rules, s: Cluster, events: seq<Event>, m: Cluster, i: nat, terms: Terms)
    returns (events': seq<Event>, t: Cluster)
    requires |s.procs| == |r.holders| == |m.procs| && RunsTo(r, s, events, m, terms)
    requires i < |m.procs| && m.procs[i].pc.Idle? && CooledDown(r.cooldown, m.procs[i].lastHeal, m.now) && !Live(m)
    ensures RunsTo(r, s, events', t, terms)
    ensures t == Put(m, i, Sidecar(Idle, Some(m.now), m.now + r.ttl))
                   .(key := Some(Key(r.holders[i], m.now + r.ttl)), attempts := m.attempts + [Attempt(i, m.now)])
  {
    events', t := ThenGranted(r, s, events, m, i, terms);
    events', t := ThenHeals(r, s, events', t, i, terms);
  }

  /** A sidecar that finds a live key of its own holder id renews it and heals. */
  lemma ThenRenews(r: Rules, s: Cluster, events: seq<Event>, m: Cluster, i: nat, terms: Terms)
    returns (events': seq<Event>, t: Cluster)
    requires |s.procs| == |r.holders| == |m.procs| && RunsTo(r, s, events, m, terms)
    requires i < |m.procs| && m.procs[i].pc.Idle? && CooledDown(r.cooldown, m.procs[i].lastHeal, m.now)
    requires Live(m) && m.key.value.holder == r.holders[i]
    ensures RunsTo(r, s, events', t, terms)
    ensures t.attempts == m.attempts + [Attempt(i, m.now)]
  {
    events', t := ThenMatched(r, s, events, m, i, terms);
    events', t := Then(r, s, events', t, Expire(i, true), terms);
    events', t := ThenHeals(r, s, events', t, i, terms);
  }

  /** From its last tick the first sidecar heals although its EXPIRE was lost, and at the next tick the second takes
      the lease and heals. */
  lemma LostExpireRun(r: Rules, s: Cluster, terms: Terms) returns (events: seq<Event>, t: Cluster)
    requires Starts(r, s) && |r.holders| >= 2 && r.ttl > 0 && !terms.delivered
    ensures RunsTo(r, s, events, t, terms)
    ensures t.attempts == [Attempt(0, s.now + r.ttl - 1), Attempt(1, s.now + r.ttl)]
  {
    events, t := RunToLastTick(r, s, terms);
    events, t := Then(r, s, events, t, Expire(0, false), terms);
    events, t := ThenHeals(r, s, events, t, 0, terms);
    events, t := Then(r, s, events, t, Advance(1), terms);
    events, t := ThenTakes(r, s, events, t, 1, terms);
  }

  /** When the first sidecar's key ends the second takes the lease and heals, and then the first one's EXPIRE arrives
      late and it heals too. */
  lemma LateExpireHeals(r: Rules, s: Cluster, terms: Terms) returns (events: seq<Event>, t: Cluster)
    requires Starts(r, s) && |r.holders| >= 2 && r.ttl > 0 && !terms.timely
    ensures RunsTo(r, s, events, t, terms)
    ensures t.attempts == [Attempt(1, s.now + r.ttl), Attempt(0, s.now + r.ttl)]
  {
    events, t := RunToLastTick(r, s, terms);
    events, t := Then(r, s, events, t, Advance(1), terms);
    events, t := ThenTakes(r, s, events, t, 1, terms);
    events, t := Then(r, s, events, t, Expire(0, true), terms);
    events, t := ThenHeals(r, s, events, t, 0, terms);
  }

  /** Two sidecars with one holder id heal at the same time. */
  lemma SharedHolderHeals(r: Rules, s: Cluster, i: nat, j: nat, terms: Terms) returns (events: seq<Event>, t: Cluster)
    requires Starts(r, s) && i < j < |r.holders| && r.holders[i] == r.holders[j] && r.ttl > 0
    ensures RunsTo(r, s, events, t, terms)
    ensures t.attempts == [Attempt(i, s.now), Attempt(j, s.now)]
  {
    events, t := ThenTakes(r, s, [], s, i, terms);
    events, t := ThenRenews(r, s, events, t, j, terms);
  }

  /** The first sidecar heals late in its window, and the second when the window ends. */
  lemma SlowHealRun(r: Rules, s: Cluster, wait: nat, terms: Terms) returns (events: seq<Event>, t: Cluster)
    requires Starts(r, s) && |r.holders| >= 2 && wait <= r.ttl
    requires terms.delta.Some? ==> wait <= terms.delta.value
    ensures RunsTo(r, s, events, t, terms)
    ensures t.attempts == [Attempt(0, s.now + wait), Attempt(1, s.now + r.ttl)]
  {
    events, t := ThenGranted(r, s, [], s, 0, terms);
    events, t := Then(r, s, events, t, Advance(wait), terms);
    events, t := Then(r, s, events, t, Heal(0), terms);
    events, t := Then(r, s, events, t, Advance(r.ttl - wait), terms);
    events, t := ThenTakes(r, s, events, t, 1, terms);
  }

  /** One sidecar heals, and again as soon as its cooldown is over. */
  lemma CooldownRun(r: Rules, s: Cluster, wait: nat, terms: Terms) returns (events: seq<Event>, t: Cluster)
    requires Starts(r, s) && |r.holders| >= 1 && wait >= r.cooldown
    ensures RunsTo(r, s, events, t, terms)
    ensures t.attempts == [Attempt(0, s.now), Attempt(0, s.now + wait)]
  {
    events, t := ThenTakes(r, s, [], s, 0, terms);
    events, t := Then(r, s, events, t, Advance(wait), terms);
    if Live(t) {
      events, t := ThenRenews(r, s, events, t, 0, terms);
    } else {
      events, t := ThenTakes(r, s, events, t, 0, terms);
    }
  }

  ghost predicate RunSpaced(r: Rules, s: Cluster, events: seq<Event>, t: Cluster, terms: Terms, gap: int)
    requires |s.procs| == |r.holders|
  {
    RunsTo(r, s, events, t, terms) ==> Spaced(t.attempts, gap)
  }

  /** What keeps attempts a gap apart: distinct holders, EXPIREs that are timely and arrive, heals within some delta
      of the grant, and a gap no longer than the cooldown and what delta leaves of the ttl. */
  ghost predicate KeepsGap(r: Rules, terms: Terms, gap: int) {
    terms.timely && terms.delivered && Distinct(r) && terms.delta.Some? && gap <= MinGap(r, terms.delta.value)
  }

  lemma GapKept(r: Rules, s: Cluster, events: seq<Event>, t: Cluster, terms: Terms, gap: int)
    requires Starts(r, s) && gap > 0 && KeepsGap(r, terms, gap)
    ensures RunSpaced(r, s, events, t, terms, gap)
  {
    if RunsTo(r, s, events, t, terms) { AttemptsAreSpaced(r, s, events, t, terms.delta.value); }
  }

  lemma GapBroken(r: Rules, s: Cluster, terms: Terms, gap: int) returns (events: seq<Event>, t: Cluster)
    requires Starts(r, s) && |r.holders| >= 2 && r.ttl > 0 && gap > 1 && !KeepsGap(r, terms, gap)
    ensures RunsTo(r, s, events, t, terms) && |t.attempts| == 2 && t.attempts[1].at - t.attempts[0].at < gap
  {
    if !terms.timely {
      events, t := LateExpireHeals(r, s, terms);
    } else if !terms.delivered {
      events, t := LostExpireRun(r, s, terms);
    } else if !Distinct(r) {
      var i, j :| 0 <= i < j < |r.holders| && r.holders[i] == r.holders[j];
      events, t := SharedHolderHeals(r, s, i, j, terms);
    } else if terms.delta.None? || gap > r.ttl - terms.delta.value {
      var wait := if terms.delta.Some? && terms.delta.value <= r.ttl then terms.delta.value else r.ttl;
      events, t := SlowHealRun(r, s, wait, terms);
    } else {
      events, t := CooldownRun(r, s, if r.cooldown > 0 then r.cooldown else 0, terms);
    }
  }

  /** With two sidecars or more, attempts are a gap of more than one tick of time apart over every run exactly when
      KeepsGap says so: every one of its conditions is needed, and min(cooldown, ttl - delta) is the widest gap. */
  lemma SpacingIff(r: Rules, s: Cluster, terms: Terms, gap: int)
    requires Starts(r, s) && |r.holders| >= 2 && r.ttl > 0 && gap > 1
    ensures (forall events, t :: RunSpaced(r, s, events, t, terms, gap)) <==> KeepsGap(r, terms, gap)
  {
    if KeepsGap(r, terms, gap) {
      forall events, t ensures RunSpaced(r, s, events, t, terms, gap) {
        GapKept(r, s, events, t, terms, gap);
      }
    } else {
      var events, t := GapBroken(r, s, terms, gap);
      assert t.attempts[0 + 1].at - t.attempts[0].at < gap;
      assert !RunSpaced(r, s, events, t, terms, gap);
    }
  }
}
