/** Brute-force protection of password logins (src/auth/lockout.rs): the bounded, mutable guard, its
    agreement with one small machine per key, and locks that last. Times count nanoseconds of a monotonic
    clock. */
module LoginGuards {
  import opened Text
  import opened Arithmetic

  const PRUNE_THRESHOLD: nat := 10_000
  const OVERFLOW_KEY := "<overflow>"
  const NANOS: nat := 1_000_000_000

  /** The largest representable duration: 2^64 seconds less one nanosecond. */
  const DURATION_MAX: nat := 0x1_0000_0000_0000_0000 * NANOS - 1

  datatype Config = Config(enabled: bool, maxAttempts: nat, window: nat, baseLockout: nat, maxLockout: nat) {
    predicate Valid() { maxAttempts >= 1 && baseLockout <= maxLockout <= DURATION_MAX }
  }

  datatype Entry = Entry(failures: nat, windowStart: nat, lockedUntil: Option<nat>, level: nat)

  datatype Decision = Allowed | Locked(retryAfterSecs: nat)

  type Entries = map<string, Entry>

  function NewEntry(now: nat): Entry { Entry(0, now, None, 0) }

  function Since(now: nat, start: nat): nat { if now >= start then now - start else 0 }

  predicate LockActive(e: Entry, now: nat) { e.lockedUntil.Some? && now < e.lockedUntil.value }

  predicate Idle(e: Entry, now: nat, window: nat) {
    !LockActive(e, now) && Since(now, e.windowStart) >= window
  }

  /** The program's lockout: a 32-bit factor that saturates, a product that may not fit a duration. */
  function LockoutDuration(c: Config, level: nat): nat {
    var shift := if level == 0 then 0 else level - 1;
    var factor := if shift >= 31 then U32_MAX else Pow2(shift);
    var product := c.baseLockout * factor;
    Min(if product > DURATION_MAX then c.maxLockout else product, c.maxLockout)
  }

  /** Round up to whole seconds, never below one. */
  function SecsUntil(now: nat, until: nat): nat {
    var remaining := Since(until, now);
    var ceil := if remaining % NANOS > 0 then remaining / NANOS + 1 else remaining / NANOS;
    if ceil < 1 then 1 else ceil
  }

  /** One entry's reaction to one failure. */
  function Fail(c: Config, e: Entry, now: nat): Entry {
    var rolled := if !LockActive(e, now) && Since(now, e.windowStart) >= c.window
                  then e.(failures := 0, windowStart := now) else e;
    var n := rolled.failures + 1;
    if n < c.maxAttempts then rolled.(failures := n)
    else Entry(0, now, Some(now + LockoutDuration(c, e.level + 1)), e.level + 1)
  }

  function Prune(m: Entries, now: nat, window: nat): Entries {
    map k | k in m && !Idle(m[k], now, window) :: m[k]
  }

  function AfterPrune(c: Config, m: Entries, now: nat): Entries {
    if |m| >= PRUNE_THRESHOLD then Prune(m, now, c.window) else m
  }

  function TrackedKey(m: Entries, key: string): string {
    if |m| >= PRUNE_THRESHOLD && key !in m then OVERFLOW_KEY else key
  }

  function EntryOr(m: Entries, key: string, now: nat): Entry {
    if key in m then m[key] else NewEntry(now)
  }

  function RecordFailure(c: Config, m: Entries, key: string, now: nat): Entries {
    if !c.enabled then m
    else
      var kept := AfterPrune(c, m, now);
      var k := TrackedKey(kept, key);
      kept[k := Fail(c, EntryOr(kept, k, now), now)]
  }

  function RecordSuccess(c: Config, m: Entries, key: string): Entries {
    if !c.enabled then m else m - {key}
  }

  function Decide(e: Option<Entry>, now: nat): Decision {
    if e.Some? && LockActive(e.value, now) then Locked(SecsUntil(now, e.value.lockedUntil.value)) else Allowed
  }

  function Lookup(m: Entries, key: string): Option<Entry> { if key in m then Some(m[key]) else None }

  function Check(c: Config, m: Entries, key: string, now: nat): Decision {
    if !c.enabled then Allowed
    else if key !in m && |m| >= PRUNE_THRESHOLD then Decide(Lookup(m, OVERFLOW_KEY), now)
    else Decide(Lookup(m, key), now)
  }

  class LoginGuard {
    const config: Config
    var entries: Entries

    constructor (config: Config)
      ensures this.config == config && entries == map[]
    {
      this.config := config;
      entries := map[];
    }

    method CheckAt(key: string, now: nat) returns (d: Decision)
      ensures d == Check(config, entries, key, now)
    {
      if !config.enabled {
        return Allowed;
      }
      var entry := Lookup(entries, key);
      if entry.None? && |entries| >= PRUNE_THRESHOLD {
        entry := Lookup(entries, OVERFLOW_KEY);
      }
      if entry.Some? && entry.value.lockedUntil.Some? && now < entry.value.lockedUntil.value {
        return Locked(SecsUntil(now, entry.value.lockedUntil.value));
      }
      return Allowed;
    }

    method RecordSuccessOf(key: string)
      modifies this
      ensures entries == RecordSuccess(config, old(entries), key)
    {
      if config.enabled {
        entries := entries - {key};
      }
    }

    /** Count one failure against an entry, and lock it once there are enough. */
    method Charge(e: Entry, now: nat) returns (entry: Entry)
      ensures entry == Fail(config, e, now)
    {
      entry := e;
      var lockActive := entry.lockedUntil.Some? && now < entry.lockedUntil.value;
      if !lockActive && Since(now, entry.windowStart) >= config.window {
        entry := entry.(failures := 0);
        entry := entry.(windowStart := now);
      }
      entry := entry.(failures := entry.failures + 1);
      if entry.failures >= config.maxAttempts {
        entry := entry.(level := entry.level + 1);
        entry := entry.(lockedUntil := Some(now + LockoutDuration(config, entry.level)));
        entry := entry.(failures := 0);
        entry := entry.(windowStart := now);
      }
    }

    method RecordFailureAt(key: string, now: nat)
      modifies this
      ensures entries == RecordFailure(config, old(entries), key, now)
    {
      if !config.enabled {
        return;
      }
      if |entries| >= PRUNE_THRESHOLD {
        entries := map k | k in entries && !Idle(entries[k], now, config.window) :: entries[k];
      }
      var tracked := key;
      if |entries| >= PRUNE_THRESHOLD && key !in entries {
        tracked := OVERFLOW_KEY;
      }
      var entry := if tracked in entries then entries[tracked] else NewEntry(now);
      entry := Charge(entry, now);
      entries := entries[tracked := entry];
    }
  }

  // ---- runs ----

  datatype Op = Failure(key: string, at: nat) | Success(key: string)

  function Apply(c: Config, m: Entries, op: Op): Entries {
    match op
    case Failure(key, at) => RecordFailure(c, m, key, at)
    case Success(key) => RecordSuccess(c, m, key)
  }

  function RunFrom(c: Config, m: Entries, ops: seq<Op>): Entries {
    if ops == [] then m else Apply(c, RunFrom(c, m, ops[..|ops| - 1]), ops[|ops| - 1])
  }

  function Run(c: Config, ops: seq<Op>): Entries { RunFrom(c, map[], ops) }

  /** Failures carry the readings of a clock that starts at `from` and never goes back. */
  function ClockAfter(from: nat, ops: seq<Op>): nat {
    if ops == [] then from
    else if ops[|ops| - 1].Failure? then ops[|ops| - 1].at
    else ClockAfter(from, ops[..|ops| - 1])
  }

  ghost predicate Ordered(from: nat, ops: seq<Op>) {
    ops != [] ==>
      Ordered(from, ops[..|ops| - 1])
      && (ops[|ops| - 1].Failure? ==> ClockAfter(from, ops[..|ops| - 1]) <= ops[|ops| - 1].at)
  }

  // ---- refinement: one machine per key ----

  function Own(ops: seq<Op>, key: string): seq<Op> {
    if ops == [] then []
    else Own(ops[..|ops| - 1], key) + (if ops[|ops| - 1].key == key then [ops[|ops| - 1]] else [])
  }

  /** The machine of a single key, which knows nothing of the others. */
  function Replay(c: Config, own: seq<Op>): Option<Entry> {
    if own == [] || !c.enabled then None
    else
      var before := Replay(c, own[..|own| - 1]);
      match own[|own| - 1]
      case Failure(_, at) => Some(Fail(c, if before.Some? then before.value else NewEntry(at), at))
      case Success(_) => None
  }

  /** While fewer than 10,000 keys are tracked the guard is a product of independent machines. */
  lemma {:induction false} GuardRefinesMachines(c: Config, ops: seq<Op>, key: string)
    requires forall n :: 0 <= n < |ops| ==> |Run(c, ops[..n])| < PRUNE_THRESHOLD
    ensures Lookup(Run(c, ops), key) == Replay(c, Own(ops, key))
  {
    if ops != [] {
      var pre, op := ops[..|ops| - 1], ops[|ops| - 1];
      assert forall n :: 0 <= n < |pre| ==> pre[..n] == ops[..n];
      GuardRefinesMachines(c, pre, key);
      var own := Own(ops, key);
      if op.key == key {
        assert own[..|own| - 1] == Own(pre, key);
      } else {
        assert own == Own(pre, key);
      }
    }
  }

  lemma DecisionsMatchMachines(c: Config, ops: seq<Op>, key: string, now: nat)
    requires forall n :: 0 <= n <= |ops| ==> |Run(c, ops[..n])| < PRUNE_THRESHOLD
    ensures Check(c, Run(c, ops), key, now) == Decide(Replay(c, Own(ops, key)), now)
  {
    GuardRefinesMachines(c, ops, key);
    assert ops[..|ops|] == ops;
  }

  // ---- bounded memory ----

  ghost predicate Bounded(m: Entries) {
    |m.Keys - {OVERFLOW_KEY}| <= PRUNE_THRESHOLD
  }

  lemma SubsetSize(a: set<string>, b: set<string>)
    requires a <= b
    ensures |a| <= |b|
  {
    assert b == a + (b - a);
  }

  lemma InsertKeepsBound(old_: set<string>, keys: set<string>, k: string, over: string, cap: nat)
    requires keys <= old_ && |old_ - {over}| <= cap && (k == over || k in keys || |keys| < cap)
    ensures |keys + {k} - {over}| <= cap
  {
    SubsetSize(keys - {over}, old_ - {over});
    if k == over || k in keys {
      assert keys + {k} - {over} == keys - {over};
    } else {
      SubsetSize(keys - {over}, keys);
      assert keys + {k} - {over} == (keys - {over}) + {k};
    }
  }

  lemma KeysAfterFailure(c: Config, m: Entries, key: string, at: nat)
    requires c.enabled
    ensures var kept := AfterPrune(c, m, at);
            var k := TrackedKey(kept, key);
            && kept.Keys <= m.Keys && RecordFailure(c, m, key, at).Keys == kept.Keys + {k}
            && (k == OVERFLOW_KEY || k in kept.Keys || |kept.Keys| < PRUNE_THRESHOLD)
  {
    var kept := AfterPrune(c, m, at);
    assert |kept.Keys| == |kept|;
  }

  lemma ApplyKeepsBound(c: Config, m: Entries, op: Op)
    requires Bounded(m)
    ensures Bounded(Apply(c, m, op))
  {
    if op.Success? {
      SubsetSize(Apply(c, m, op).Keys - {OVERFLOW_KEY}, m.Keys - {OVERFLOW_KEY});
    } else if c.enabled {
      var kept := AfterPrune(c, m, op.at);
      KeysAfterFailure(c, m, op.key, op.at);
      InsertKeepsBound(m.Keys, kept.Keys, TrackedKey(kept, op.key), OVERFLOW_KEY, PRUNE_THRESHOLD);
    }
  }

  /** However many distinct accounts are sprayed, the guard tracks at most 10,001 keys. */
  lemma {:induction false} RunIsBounded(c: Config, ops: seq<Op>)
    ensures Bounded(Run(c, ops)) && |Run(c, ops)| <= PRUNE_THRESHOLD + 1
  {
    if ops != [] {
      RunIsBounded(c, ops[..|ops| - 1]);
      ApplyKeepsBound(c, Run(c, ops[..|ops| - 1]), ops[|ops| - 1]);
    }
    var keys := Run(c, ops).Keys;
    SubsetSize(keys, (keys - {OVERFLOW_KEY}) + {OVERFLOW_KEY});
  }

  // ---- the lockout function ----

  function Factor(level: nat): nat {
    if level <= 1 then 1 else if level >= 32 then U32_MAX else Pow2(level - 1)
  }

  lemma FactorMonotone(a: nat, b: nat)
    requires a <= b
    ensures Factor(a) <= Factor(b)
  {
    Pow2Of31();
    if 2 <= a && b < 32 {
      Pow2Monotone(a - 1, b - 1);
    } else if 2 <= a < 32 {
      Pow2Monotone(a - 1, 30);
    }
  }

  lemma DurationByFactor(c: Config, level: nat)
    requires c.Valid()
    ensures LockoutDuration(c, level) == Min(c.baseLockout * Factor(level), c.maxLockout)
  {
  }

  /** A higher level never locks for less, and no level locks for more than the maximum. */
  lemma DurationMonotone(c: Config, a: nat, b: nat)
    requires c.Valid() && a <= b
    ensures LockoutDuration(c, a) <= LockoutDuration(c, b) <= c.maxLockout
  {
    DurationByFactor(c, a);
    DurationByFactor(c, b);
    FactorMonotone(a, b);
    ScaleMonotone(c.baseLockout, Factor(a), Factor(b));
  }

  /** The documented formula. */
  function Documented(c: Config, level: nat): nat
    requires level >= 1
  {
    Min(c.baseLockout * Pow2(level - 1), c.maxLockout)
  }

  /** The 32-bit factor follows the documented formula at every level exactly when the maximum is at
      most 2^31 base lockouts (or there is no lockout at all). */
  lemma DocumentedExactly(c: Config)
    requires c.Valid()
    ensures (forall level :: level >= 1 ==> LockoutDuration(c, level) == Documented(c, level))
            <==> c.maxLockout <= c.baseLockout * 0x8000_0000 || c.baseLockout == 0
  {
    Pow2Of31();
    if c.maxLockout <= c.baseLockout * 0x8000_0000 || c.baseLockout == 0 {
      forall level: nat | level >= 1
        ensures LockoutDuration(c, level) == Documented(c, level)
      {
        DocumentedAt(c, level);
      }
    } else {
      DurationByFactor(c, 32);
      assert Documented(c, 32) == c.baseLockout * 0x8000_0000;
      assert LockoutDuration(c, 32) != Documented(c, 32);
    }
  }

  lemma DocumentedAt(c: Config, level: nat)
    requires c.Valid() && level >= 1
    requires c.maxLockout <= c.baseLockout * 0x8000_0000 || c.baseLockout == 0
    ensures LockoutDuration(c, level) == Documented(c, level)
  {
    DurationByFactor(c, level);
    Pow2Of31();
    if level >= 32 {
      Pow2Monotone(31, level - 1);
      ScaleMonotone(c.baseLockout, 0x8000_0000, Pow2(level - 1));
      ScaleMonotone(c.baseLockout, 0x8000_0000, U32_MAX);
    }
  }

  // ---- durable locks ----

  /** No lock reaches further than its level allows from the present. */
  ghost predicate LocksWithinReach(c: Config, m: Entries, now: nat) {
    forall k :: k in m && m[k].lockedUntil.Some? ==> m[k].lockedUntil.value <= now + LockoutDuration(c, m[k].level)
  }

  lemma {:induction false} RunLocksWithinReach(c: Config, from: nat, ops: seq<Op>)
    requires c.Valid() && Ordered(from, ops)
    ensures LocksWithinReach(c, Run(c, ops), ClockAfter(from, ops))
  {
    if ops != [] {
      RunLocksWithinReach(c, from, ops[..|ops| - 1]);
    }
  }

  lemma FailKeepsLock(c: Config, e: Entry, now: nat)
    requires c.Valid() && LockActive(e, now) && e.lockedUntil.value <= now + LockoutDuration(c, e.level)
    ensures Fail(c, e, now).lockedUntil.Some? && Fail(c, e, now).lockedUntil.value >= e.lockedUntil.value
  {
    DurationMonotone(c, e.level, e.level + 1);
  }

  lemma ApplyKeepsLock(c: Config, m: Entries, op: Op, key: string)
    requires c.Valid() && key in m && m[key].lockedUntil.Some?
    requires op == Success(op.key) ==> op.key != key
    requires op.Failure? ==> LockActive(m[key], op.at) && LocksWithinReach(c, m, op.at)
    ensures var r := Apply(c, m, op);
            key in r && r[key].lockedUntil.Some? && r[key].lockedUntil.value >= m[key].lockedUntil.value
  {
    if op.Failure? {
      FailKeepsLock(c, m[key], op.at);
    }
  }

  lemma {:induction false} RunFromSplit(c: Config, a: seq<Op>, b: seq<Op>)
    ensures Run(c, a + b) == RunFrom(c, Run(c, a), b)
    decreases |b|
  {
    if b == [] {
      assert a + b == a;
    } else {
      assert (a + b)[..|a + b| - 1] == a + b[..|b| - 1];
      RunFromSplit(c, a, b[..|b| - 1]);
    }
  }

  lemma {:induction false} OrderedSplit(from: nat, a: seq<Op>, b: seq<Op>)
    requires Ordered(from, a + b)
    ensures Ordered(from, a)
    decreases |b|
  {
    if b == [] {
      assert a + b == a;
    } else {
      assert (a + b)[..|a + b| - 1] == a + b[..|b| - 1];
      OrderedSplit(from, a, b[..|b| - 1]);
    }
  }

  /** A lock set at some point of a run still stands, at least as long, after anything that happens
      before its expiry on any key, short of that key's own success. */
  lemma {:induction false} LocksAreDurable(c: Config, from: nat, past: seq<Op>, later: seq<Op>, key: string)
    requires c.Valid() && Ordered(from, past + later)
    requires key in Run(c, past) && Run(c, past)[key].lockedUntil.Some?
    requires forall op :: op in later ==> op != Success(key)
    requires forall op :: op in later && op.Failure? ==> op.at < Run(c, past)[key].lockedUntil.value
    ensures var r := Run(c, past + later);
            key in r && r[key].lockedUntil.Some?
            && r[key].lockedUntil.value >= Run(c, past)[key].lockedUntil.value
    decreases |later|
  {
    if later == [] {
      assert past + later == past;
    } else {
      var n := |later| - 1;
      var ops := past + later[..n];
      assert past + later == ops + [later[n]];
      assert (past + later)[..|past + later| - 1] == ops && (past + later)[|past + later| - 1] == later[n];
      assert forall op :: op in later[..n] ==> op in later;
      assert later[n] in later;
      LocksAreDurable(c, from, past, later[..n], key);
      RunLocksWithinReach(c, from, ops);
      ApplyKeepsLock(c, Run(c, ops), later[n], key);
    }
  }

  // ---- Retry-After ----

  lemma SecsAreExact(now: nat, until: nat)
    requires now < until
    ensures var s := SecsUntil(now, until);
            s >= 1 && now + s * NANOS >= until && now + (s - 1) * NANOS < until
  {
  }

  function Successes(c: Config, m: Entries, keys: seq<string>): Entries {
    if keys == [] then m else RecordSuccess(c, Successes(c, m, keys[..|keys| - 1]), keys[|keys| - 1])
  }

  lemma {:induction false} SuccessesOnlyRemove(c: Config, m: Entries, keys: seq<string>, key: string)
    requires key !in keys
    ensures var r := Successes(c, m, keys);
            r.Keys <= m.Keys && (forall k :: k in r ==> r[k] == m[k]) && (key in m ==> key in r)
  {
    if keys != [] {
      SuccessesOnlyRemove(c, m, keys[..|keys| - 1], key);
    }
  }

  /** A client that waits the advertised seconds is let in unless failures went on, whoever else signed
      in meanwhile; one second less would not do. */
  lemma RetryAfterSuffices(c: Config, m: Entries, key: string, now: nat, others: seq<string>)
    requires Check(c, m, key, now).Locked? && key !in others
    ensures var s := Check(c, m, key, now).retryAfterSecs;
            s >= 1 && Check(c, Successes(c, m, others), key, now + s * NANOS) == Allowed
                   && Check(c, m, key, now + (s - 1) * NANOS).Locked?
  {
    var k := if key in m then key else OVERFLOW_KEY;
    SecsAreExact(now, m[k].lockedUntil.value);
    SuccessesOnlyRemove(c, m, others, key);
  }
}
