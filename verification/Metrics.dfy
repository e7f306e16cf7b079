/** The counters and last-tick gauges the reconciler exposes. */
module Metrics {
  import opened Text

  datatype Counter =
    | Ticks | Noop | Diverge | WouldHeal | HealAttempt | HealOk | HealFail | HealLeaseAcquired
    | ApplyRefused | AlertNoRedis | AlertNoWritable | AlertDualMaster
    | AlertEqualEpochTrap | AlertEqualEpochEscalate

  /** The name a counter is incremented by. */
  function NameOf(c: Counter): string {
    match c
    case Ticks => "ticks"
    case Noop => "noop"
    case Diverge => "diverge"
    case WouldHeal => "would_heal"
    case HealAttempt => "heal_attempt"
    case HealOk => "heal_ok"
    case HealFail => "heal_fail"
    case HealLeaseAcquired => "heal_lease_acquired"
    case ApplyRefused => "apply_refused"
    case AlertNoRedis => "alert_no_redis"
    case AlertNoWritable => "alert_no_writable"
    case AlertDualMaster => "alert_dual_master"
    case AlertEqualEpochTrap => "alert_equal_epoch_trap"
    case AlertEqualEpochEscalate => "alert_equal_epoch_escalate"
  }

  /** The registered name: the suffix is added once. */
  function CounterKey(name: string): string {
    if HasSuffix(name, "_total") then name else name + "_total"
  }

  type Counts = m: map<Counter, int> | forall c: Counter :: c in m
    witness map c: Counter | true :: 0

  function Bump(m: Counts, c: Counter): Counts { m[c := m[c] + 1] }

  /** Increment a registered key; an unknown key is ignored. */
  function BumpKey(m: map<string, int>, key: string): map<string, int> {
    if key in m then m[key := m[key] + 1] else m
  }

  const KEY_OF: Counter -> string := c => CounterKey(NameOf(c))

  ghost predicate HasAll(m: map<string, int>, key: Counter -> string) { forall c: Counter :: key(c) in m }

  /** The counters as read through a naming of them. */
  ghost function Project(m: map<string, int>, key: Counter -> string): (r: Counts)
    requires HasAll(m, key)
    ensures forall c :: r[c] == m[key(c)]
  {
    map c: Counter | true :: m[key(c)]
  }

  ghost predicate Registered(m: map<string, int>) { HasAll(m, KEY_OF) }

  ghost function CountsOf(m: map<string, int>): Counts
    requires Registered(m)
  {
    Project(m, KEY_OF)
  }

  /** The counters as they are registered. */
  function RegisteredName(c: Counter): string {
    match c
    case Ticks => "ticks_total"
    case Noop => "noop_total"
    case Diverge => "diverge_total"
    case WouldHeal => "would_heal_total"
    case HealAttempt => "heal_attempt_total"
    case HealOk => "heal_ok_total"
    case HealFail => "heal_fail_total"
    case HealLeaseAcquired => "heal_lease_acquired_total"
    case ApplyRefused => "apply_refused_total"
    case AlertNoRedis => "alert_no_redis_total"
    case AlertNoWritable => "alert_no_writable_total"
    case AlertDualMaster => "alert_dual_master_total"
    case AlertEqualEpochTrap => "alert_equal_epoch_trap_total"
    case AlertEqualEpochEscalate => "alert_equal_epoch_escalate_total"
  }

  lemma StemAndSuffix(c: Counter)
    ensures NameOf(c) + "_total" == RegisteredName(c)
  {}

  /** Each name that the loop increments by reaches the counter registered under that name. */
  lemma IncrementsRegistered(c: Counter)
    ensures CounterKey(NameOf(c)) == RegisteredName(c)
  {
    SuffixAdded(c);
    StemAndSuffix(c);
  }

  lemma SuffixAdded(c: Counter)
    ensures CounterKey(NameOf(c)) == NameOf(c) + "_total"
  {
    var n := NameOf(c);
    if |n| >= 6 {
      assert n[|n| - 1] != 'l' || n[|n| - 6] != '_';
      assert n[|n| - 6..][0] == n[|n| - 6] && n[|n| - 6..][5] == n[|n| - 1];
    }
  }

  lemma NamesDiffer(c: Counter, d: Counter)
    requires c != d
    ensures NameOf(c) != NameOf(d)
  {
    var n, m := NameOf(c), NameOf(d);
    assert |n| != |m| || n[0] != m[0] || (|n| > 6 && n[6] != m[6]);
  }

  /** No two counters share a registered key. */
  lemma KeysDiffer(c: Counter, d: Counter)
    ensures c != d ==> CounterKey(NameOf(c)) != CounterKey(NameOf(d))
  {
    if c != d {
      NamesDiffer(d, c);
      SuffixAdded(c);
      SuffixAdded(d);
      SameStem(NameOf(c), NameOf(d));
    }
  }

  lemma SameStem(a: string, b: string)
    ensures a + "_total" == b + "_total" ==> a == b
  {
    assert (a + "_total")[..|a|] == a && (b + "_total")[..|b|] == b;
  }

  lemma EqualCounts(a: Counts, b: Counts)
    requires forall c :: a[c] == b[c]
    ensures a == b
  {}

  lemma BumpCovers(m: map<string, int>, key: Counter -> string, c: Counter)
    requires HasAll(m, key)
    ensures HasAll(BumpKey(m, key(c)), key)
  {}

  lemma BumpEach(m: map<string, int>, n: map<string, int>, key: Counter -> string, c: Counter, d: Counter)
    requires HasAll(m, key) && HasAll(n, key) && n == BumpKey(m, key(c))
    requires d != c ==> key(d) != key(c)
    ensures n[key(d)] == if d == c then m[key(d)] + 1 else m[key(d)]
  {}

  lemma BumpProjects(m: map<string, int>, n: map<string, int>, key: Counter -> string, c: Counter)
    requires HasAll(m, key) && HasAll(n, key)
    requires forall d :: n[key(d)] == if d == c then m[key(d)] + 1 else m[key(d)]
    ensures Project(n, key) == Bump(Project(m, key), c)
  {
    EqualCounts(Project(n, key), Bump(Project(m, key), c));
  }

  /** Incrementing one counter by name moves that one and no other. */
  lemma BumpByName(m: map<string, int>, c: Counter)
    requires Registered(m)
    ensures Registered(BumpKey(m, CounterKey(NameOf(c))))
    ensures CountsOf(BumpKey(m, CounterKey(NameOf(c)))) == Bump(CountsOf(m), c)
  {
    var n := BumpKey(m, KEY_OF(c));
    BumpCovers(m, KEY_OF, c);
    forall d: Counter ensures n[KEY_OF(d)] == if d == c then m[KEY_OF(d)] + 1 else m[KEY_OF(d)] {
      KeysDiffer(d, c);
      BumpEach(m, n, KEY_OF, c, d);
    }
    BumpProjects(m, n, KEY_OF, c);
  }

  class MetricSet {
    var counters: map<string, int>
    var diverged: int
    var wouldHeal: int
    var writable: int

    ghost predicate Valid()
      reads this
    {
      Registered(counters)
    }

    ghost function Counts(): Counts
      reads this
      requires Valid()
    {
      CountsOf(counters)
    }

    /** Every counter is registered at zero. */
    constructor ()
      ensures Valid() && forall c :: Counts()[c] == 0
      ensures diverged == wouldHeal == writable == 0
    {
      counters := map c: Counter | true :: CounterKey(NameOf(c)) := 0;
      diverged, wouldHeal, writable := 0, 0, 0;
    }

    method Inc(name: string)
      requires Valid()
      modifies this`counters
      ensures counters == BumpKey(old(counters), CounterKey(name))
    {
      var key := CounterKey(name);
      if key in counters { counters := counters[key := counters[key] + 1]; }
    }

    method ResetTickGauges()
      modifies this`diverged, this`wouldHeal, this`writable
      ensures diverged == wouldHeal == writable == 0
    {
      diverged, wouldHeal, writable := 0, 0, 0;
    }

    method SetWritableMasters(n: int)
      modifies this`writable
      ensures writable == n
    {
      writable := n;
    }

    method NoteDiverged()
      modifies this`diverged
      ensures diverged == 1
    {
      diverged := 1;
    }

    method NoteWouldHeal()
      modifies this`wouldHeal
      ensures wouldHeal == 1
    {
      wouldHeal := 1;
    }
  }
}
