/** What an attack on the login guard must cost (src/auth/lockout.rs): trips, levels and lockouts over whole
    runs in which every failure follows an allowed check. */
module LoginEscalation {
  import opened Text
  import opened Arithmetic
  import opened LoginGuards

  // ---- one entry ----

  /** The entry of a key after failures at the given times. */
  function Machine(c: Config, times: seq<nat>): Entry
    requires times != []
  {
    var t := times[|times| - 1];
    Fail(c, if |times| == 1 then NewEntry(t) else Machine(c, times[..|times| - 1]), t)
  }

  function Times(own: seq<Op>): (r: seq<nat>)
    requires forall op :: op in own ==> op.Failure?
    ensures |r| == |own|
  {
    if own == [] then [] else assert own[|own| - 1] in own; Times(own[..|own| - 1]) + [own[|own| - 1].at]
  }

  /** Between two successes the machine of a key is driven by its failure times alone. */
  lemma {:induction false} ReplayIsMachine(c: Config, own: seq<Op>)
    requires c.enabled && own != [] && forall op :: op in own ==> op.Failure?
    ensures Replay(c, own) == Some(Machine(c, Times(own)))
  {
    var n := |own| - 1;
    assert own[n] in own && (forall op :: op in own[..n] ==> op in own);
    assert Times(own)[..n] == Times(own[..n]);
    if n > 0 {
      ReplayIsMachine(c, own[..n]);
    }
  }

  /** Time does not go back, and no failure was charged while the entry was locked; or, if it was `hit`,
      exactly one. */
  ghost predicate Polite(c: Config, times: seq<nat>, hit: bool) {
    if |times| < 2 then !hit
    else
      var pre, t := times[..|times| - 1], times[|times| - 1];
      times[|times| - 2] <= t && if LockActive(Machine(c, pre), t) then hit && Polite(c, pre, false) else Polite(c, pre, hit)
  }

  /** The first `n` lockouts, one after another. */
  function Lockouts(c: Config, n: nat): nat {
    if n == 0 then 0 else Lockouts(c, n - 1) + LockoutDuration(c, n)
  }

  /** What the counter means: that many failures in a row since the window opened. A first failure may have
      come long after that, if the entry was hit; and only a hit is counted while the lock runs. */
  ghost predicate WindowHolds(c: Config, times: seq<nat>, e: Entry, hit: bool)
    requires times != []
  {
    var n := |times|;
    && e.failures <= n && e.failures < c.maxAttempts && e.windowStart <= times[n - 1]
    && (e.failures > 0 ==> e.windowStart <= times[n - e.failures] && (hit || !LockActive(e, times[n - 1])))
    && (e.failures > 1 ==> times[n - 1] - e.windowStart < c.window || e.windowStart == times[n - 1])
  }

  lemma {:induction false} WindowInvariant(c: Config, times: seq<nat>, hit: bool)
    requires c.Valid() && times != [] && Polite(c, times, hit)
    ensures WindowHolds(c, times, Machine(c, times), hit)
  {
    var n := |times| - 1;
    if n > 0 {
      var pre := times[..n];
      var e := Machine(c, pre);
      WindowInvariant(c, pre, hit && !LockActive(e, times[n]));
      assert e.failures > 0 ==> pre[n - e.failures] == times[n - e.failures];
    }
  }

  /** While it is locked and has not been hit, an entry counts no failure. */
  lemma LockedCountsNone(c: Config, times: seq<nat>, t: nat)
    requires c.Valid() && times != [] && Polite(c, times, false)
    requires times[|times| - 1] <= t && LockActive(Machine(c, times), t)
    ensures Machine(c, times).failures == 0
  {
    WindowInvariant(c, times, false);
  }

  /** The entry, first charged at `start` and last at `last`, has sat out all lockouts but the present one. */
  ghost predicate SatOut(c: Config, start: nat, last: nat, e: Entry) {
    && start <= last && (e.level == 0 <==> e.lockedUntil.None?)
    && (e.level >= 1 ==>
          && e.lockedUntil.value >= start + Lockouts(c, e.level)
          && last >= start + Lockouts(c, e.level - 1))
  }

  lemma SatOutStep(c: Config, start: nat, last: nat, e: Entry, t: nat)
    requires SatOut(c, start, last, e) && last <= t
    requires LockActive(e, t) ==> e.failures == 0 && c.maxAttempts >= 2
    ensures SatOut(c, start, t, Fail(c, e, t))
  {
  }

  /** Reaching level k means having sat out every earlier lockout, since a hit alone does not trip an entry
      that takes two attempts. */
  lemma {:induction false} EscalationTakesTime(c: Config, times: seq<nat>, hit: bool)
    requires c.Valid() && times != [] && Polite(c, times, hit) && (hit ==> c.maxAttempts >= 2)
    ensures SatOut(c, times[0], times[|times| - 1], Machine(c, times))
  {
    var n := |times| - 1;
    if n > 0 {
      var pre, t := times[..n], times[n];
      var e := Machine(c, pre);
      assert pre[0] == times[0] && pre[n - 1] == times[n - 1];
      EscalationTakesTime(c, pre, hit && !LockActive(e, t));
      if LockActive(e, t) {
        LockedCountsNone(c, pre, t);
      }
      SatOutStep(c, times[0], times[n - 1], e, t);
    }
  }

  predicate WithinWindow(c: Config, ts: seq<nat>) {
    |ts| >= c.maxAttempts >= 1
    && var first, last := ts[|ts| - c.maxAttempts], ts[|ts| - 1];
       last - first < c.window || last == first
  }

  /** Every trip is earned: `maxAttempts` consecutive failures within one window led to it. */
  lemma TripNeedsFullWindow(c: Config, times: seq<nat>, hit: bool)
    requires c.Valid() && times != [] && Polite(c, times, hit)
    requires Machine(c, times).level > (if |times| == 1 then 0 else Machine(c, times[..|times| - 1]).level)
    ensures WithinWindow(c, times)
  {
    var n := |times| - 1;
    if n > 0 {
      var pre := times[..n];
      var e := Machine(c, pre);
      WindowInvariant(c, pre, hit && !LockActive(e, times[n]));
      assert pre[n - 1] == times[n - 1];
      assert e.failures > 0 ==> pre[n - e.failures] == times[n - e.failures];
    }
  }

  /** The last failure raised the level. */
  predicate Tripped(c: Config, ts: seq<nat>)
    requires ts != []
  {
    Machine(c, ts).level > if |ts| == 1 then 0 else Machine(c, ts[..|ts| - 1]).level
  }

  function TripCount(c: Config, ts: seq<nat>): nat {
    if ts == [] then 0 else TripCount(c, ts[..|ts| - 1]) + (if Tripped(c, ts) then 1 else 0)
  }

  /** The k-th trip of an entry gives it level k, and locks it from that moment for the k-th lockout. */
  lemma {:induction false} LevelCountsTrips(c: Config, ts: seq<nat>)
    requires ts != []
    ensures Machine(c, ts).level == TripCount(c, ts)
    ensures Tripped(c, ts) ==>
              Machine(c, ts) == Entry(0, ts[|ts| - 1], Some(ts[|ts| - 1] + LockoutDuration(c, TripCount(c, ts))), TripCount(c, ts))
  {
    if |ts| > 1 {
      LevelCountsTrips(c, ts[..|ts| - 1]);
    } else {
      assert TripCount(c, ts[..0]) == 0;
    }
  }

  /** Which failures tripped the entry, counting from one. */
  ghost function TripsOf(c: Config, ts: seq<nat>): set<nat> {
    if ts == [] then {} else TripsOf(c, ts[..|ts| - 1]) + (if Tripped(c, ts) then {|ts|} else {})
  }

  /** The window opened at the j-th failure, which is counted in it unless it tripped; every later one is. */
  ghost predicate Opens(ts: seq<nat>, e: Entry, trips: set<nat>, j: nat) {
    && j < |ts| && e.windowStart == ts[j] && e.failures == |ts| - j - (if j + 1 in trips then 1 else 0)
    && forall n :: n in trips ==> n <= j + 1
  }

  /** The failure counts from one again: the window has run out, and no lock is on. */
  predicate Reopens(c: Config, e: Entry, t: nat) { !LockActive(e, t) && Since(t, e.windowStart) >= c.window }

  lemma FailCases(c: Config, e: Entry, t: nat)
    requires c.Valid()
    ensures var r, n := Fail(c, e, t), if Reopens(c, e, t) then 1 else e.failures + 1;
            if n < c.maxAttempts
            then r.level == e.level && r.failures == n && r.windowStart == (if Reopens(c, e, t) then t else e.windowStart)
            else r.level > e.level && r.failures == 0 && r.windowStart == t
  {
  }

  lemma OpensStep(c: Config, ts: seq<nat>, e: Entry, trips: set<nat>, t: nat, k: nat)
    requires c.Valid() && Opens(ts, e, trips, k) && forall n :: n in trips ==> n <= |ts|
    ensures var r := Fail(c, e, t);
            Opens(ts + [t], r, trips + (if r.level > e.level then {|ts| + 1} else {}),
                  if Reopens(c, e, t) || r.level > e.level then |ts| else k)
  {
    FailCases(c, e, t);
  }

  lemma TripsStep(c: Config, ts: seq<nat>)
    requires |ts| > 1
    ensures var pre, t := ts[..|ts| - 1], ts[|ts| - 1];
            && Machine(c, ts) == Fail(c, Machine(c, pre), t)
            && TripsOf(c, ts) == TripsOf(c, pre) + (if Fail(c, Machine(c, pre), t).level > Machine(c, pre).level then {|ts|} else {})
  {
  }

  lemma {:induction false} WindowOpens(c: Config, ts: seq<nat>) returns (j: nat)
    requires c.Valid() && ts != []
    ensures Opens(ts, Machine(c, ts), TripsOf(c, ts), j) && forall n :: n in TripsOf(c, ts) ==> n <= |ts|
  {
    var n := |ts| - 1;
    if n == 0 {
      assert TripsOf(c, ts[..0]) == {};
      j := 0;
    } else {
      var pre, e := ts[..n], Machine(c, ts[..n]);
      j := WindowOpens(c, pre);
      OpensStep(c, pre, e, TripsOf(c, pre), ts[n], j);
      TripsStep(c, ts);
      assert pre + [ts[n]] == ts;
      j := if Reopens(c, e, ts[n]) || Fail(c, e, ts[n]).level > e.level then n else j;
    }
  }

  /** An entry trips exactly at the `maxAttempts`-th failure since its window opened; a failure after the
      window has run out (and outside a lock) opens the next. */
  lemma TripsExactly(c: Config, ts: seq<nat>, t: nat)
    requires c.Valid() && ts != []
    ensures exists j: nat :: Opens(ts, Machine(c, ts), TripsOf(c, ts), j)
              && var open := LockActive(Machine(c, ts), t) || Since(t, ts[j]) < c.window;
                 var counted := if open then |ts| - j + (if j + 1 in TripsOf(c, ts) then 0 else 1) else 1;
                 Tripped(c, ts + [t]) <==> counted >= c.maxAttempts
  {
    var j := WindowOpens(c, ts);
    MachineStep(c, ts, t);
    FailCases(c, Machine(c, ts), t);
    assert (ts + [t])[..|ts|] == ts;
  }

  // ---- the guard ----

  /** Every failure follows an allowed check of the guard. */
  ghost predicate Guarded(c: Config, ops: seq<Op>) {
    ops != [] ==>
      var pre, op := ops[..|ops| - 1], ops[|ops| - 1];
      Guarded(c, pre) && (op.Failure? ==> Check(c, Run(c, pre), op.key, op.at) == Allowed)
  }

  /** The times of the failures charged to `key` since its entry was last created. */
  ghost function Spent(c: Config, ops: seq<Op>, key: string): seq<nat> {
    if ops == [] || !c.enabled then []
    else
      var pre, op := ops[..|ops| - 1], ops[|ops| - 1];
      match op
      case Success(k) => if k == key then [] else Spent(c, pre, key)
      case Failure(k, at) =>
        var kept := AfterPrune(c, Run(c, pre), at);
        (if key in kept then Spent(c, pre, key) else []) + (if TrackedKey(kept, k) == key then [at] else [])
  }

  lemma MachineStep(c: Config, ts: seq<nat>, at: nat)
    ensures Machine(c, ts + [at]) == Fail(c, if ts == [] then NewEntry(at) else Machine(c, ts), at)
  {
    assert (ts + [at])[..|ts|] == ts;
  }

  /** The entry is the machine of the charged failures; there is none without one. */
  ghost predicate Explains(c: Config, ts: seq<nat>, e: Option<Entry>) {
    if ts == [] then e.None? else e == Some(Machine(c, ts))
  }

  lemma FailureExplained(c: Config, m: Entries, k: string, at: nat, key: string, ts: seq<nat>)
    requires c.enabled && Explains(c, ts, Lookup(m, key))
    ensures var kept := AfterPrune(c, m, at);
            Explains(c, (if key in kept then ts else []) + (if TrackedKey(kept, k) == key then [at] else []),
                     Lookup(RecordFailure(c, m, k, at), key))
  {
    var kept := AfterPrune(c, m, at);
    assert key in kept ==> key in m && kept[key] == m[key];
    var before := if key in kept then ts else [];
    assert Explains(c, before, Lookup(kept, key));
    MachineStep(c, before, at);
    assert before + [] == before;
  }

  /** With any number of keys, pruned and overflowing as it may be, each entry is the machine of the
      failures charged to it since it was created. */
  lemma {:induction false} EntryIsMachine(c: Config, ops: seq<Op>, key: string)
    ensures Explains(c, Spent(c, ops, key), Lookup(Run(c, ops), key))
  {
    if ops != [] {
      var pre, op := ops[..|ops| - 1], ops[|ops| - 1];
      EntryIsMachine(c, pre, key);
      if !c.enabled {
        DisabledIsEmpty(c, ops);
      } else if op.Failure? {
        FailureExplained(c, Run(c, pre), op.key, op.at, key, Spent(c, pre, key));
      }
    }
  }

  lemma {:induction false} DisabledIsEmpty(c: Config, ops: seq<Op>)
    requires !c.enabled
    ensures Run(c, ops) == map[]
  {
    if ops != [] {
      DisabledIsEmpty(c, ops[..|ops| - 1]);
    }
  }

  /** What one failure does to the failures charged to `key`. */
  lemma SpentCases(c: Config, ops: seq<Op>, key: string)
    requires c.enabled && ops != [] && ops[|ops| - 1].Failure?
    ensures var pre, op := ops[..|ops| - 1], ops[|ops| - 1];
            var kept := AfterPrune(c, Run(c, pre), op.at);
            var charged := TrackedKey(kept, op.key) == key;
            Spent(c, ops, key) == if key in kept then (if charged then Spent(c, pre, key) + [op.at] else Spent(c, pre, key))
                                  else if charged then [op.at] else []
  {
    var pre := ops[..|ops| - 1];
    assert Spent(c, pre, key) + [] == Spent(c, pre, key);
  }

  lemma {:induction false} SpentInPast(c: Config, from: nat, ops: seq<Op>, key: string)
    requires Ordered(from, ops)
    ensures var ts := Spent(c, ops, key); ts != [] ==> ts[|ts| - 1] <= ClockAfter(from, ops)
  {
    if ops != [] && c.enabled {
      SpentInPast(c, from, ops[..|ops| - 1], key);
      if ops[|ops| - 1].Failure? {
        SpentCases(c, ops, key);
      }
    }
  }

  /** The failures of `key` in a run. */
  function OwnFailures(ops: seq<Op>, key: string): seq<nat> {
    if ops == [] then []
    else
      var op := ops[|ops| - 1];
      OwnFailures(ops[..|ops| - 1], key) + (if op.Failure? && op.key == key then [op.at] else [])
  }

  predicate IsSuffix(a: seq<nat>, b: seq<nat>) { |a| <= |b| && b[|b| - |a|..] == a }

  /** What is charged to an account is its own latest failures, without a gap. */
  lemma {:induction false} SpentIsOwn(c: Config, ops: seq<Op>, key: string)
    requires key != OVERFLOW_KEY
    ensures IsSuffix(Spent(c, ops, key), OwnFailures(ops, key))
  {
    if ops != [] && c.enabled {
      var pre, op := ops[..|ops| - 1], ops[|ops| - 1];
      SpentIsOwn(c, pre, key);
      if op.Failure? {
        var kept := AfterPrune(c, Run(c, pre), op.at);
        SuffixStep(Spent(c, pre, key), OwnFailures(pre, key), op.at);
        assert TrackedKey(kept, op.key) == key ==> op.key == key;
        assert op.key == key && key in kept ==> TrackedKey(kept, key) == key;
      }
    }
  }

  lemma SuffixStep(a: seq<nat>, b: seq<nat>, t: nat)
    requires IsSuffix(a, b)
    ensures IsSuffix(a + [t], b + [t]) && IsSuffix([t], b + [t]) && IsSuffix([], b) && IsSuffix(a + [], b + [])
  {
    assert (b + [t])[|b| - |a|..] == b[|b| - |a|..] + [t];
  }

  /** A failure is charged to the overflow entry, which is locked, although the account's own entry had
      passed the check: that entry was idle, and pruning it did not make room. */
  predicate Displaced(c: Config, m: Entries, key: string, at: nat) {
    var kept := AfterPrune(c, m, at);
    key in m && key !in kept && |kept| >= PRUNE_THRESHOLD && Check(c, m, OVERFLOW_KEY, at).Locked?
  }

  ghost predicate NeverDisplaced(c: Config, ops: seq<Op>) {
    ops != [] ==>
      var pre, op := ops[..|ops| - 1], ops[|ops| - 1];
      NeverDisplaced(c, pre) && (op.Failure? ==> !Displaced(c, Run(c, pre), op.key, op.at))
  }

  lemma PoliteStep(c: Config, ts: seq<nat>, t: nat, hit: bool)
    requires ts != [] && ts[|ts| - 1] <= t
    ensures Polite(c, ts + [t], hit)
            <==> if LockActive(Machine(c, ts), t) then hit && Polite(c, ts, false) else Polite(c, ts, hit)
  {
    assert (ts + [t])[..|ts|] == ts;
  }

  /** An allowed check protects the entry that is charged, save for a displaced failure. */
  lemma ChargedIsUnlocked(c: Config, m: Entries, key: string, at: nat)
    requires c.enabled && Check(c, m, key, at) == Allowed
    ensures var k := TrackedKey(AfterPrune(c, m, at), key);
            k in m ==> (LockActive(m[k], at) <==> k == OVERFLOW_KEY && Displaced(c, m, key, at))
  {
    var kept := AfterPrune(c, m, at);
    assert kept.Keys <= m.Keys;
    SubsetSize(kept.Keys, m.Keys);
    assert |kept| == |kept.Keys| && |m| == |m.Keys|;
  }

  /** The present overflow entry has been charged by a displaced failure. */
  ghost predicate Hit(c: Config, ops: seq<Op>) {
    ops != [] && c.enabled
    && var pre, op := ops[..|ops| - 1], ops[|ops| - 1];
       match op
       case Success(k) => k != OVERFLOW_KEY && Hit(c, pre)
       case Failure(k, at) =>
         (OVERFLOW_KEY in AfterPrune(c, Run(c, pre), at) && Hit(c, pre)) || Displaced(c, Run(c, pre), k, at)
  }

  lemma KeptIsSmaller(c: Config, m: Entries, at: nat)
    ensures var kept := AfterPrune(c, m, at);
            && kept.Keys <= m.Keys && |kept| <= |m|
            && (forall k :: k in kept ==> kept[k] == m[k])
            && (forall k :: k in m && k !in kept ==> |kept| < |m|)
  {
    var kept := AfterPrune(c, m, at);
    assert |kept| == |kept.Keys| && |m| == |m.Keys|;
    SubsetSize(kept.Keys, m.Keys);
    forall k | k in m && k !in kept
      ensures |kept| < |m|
    {
      SubsetSize(kept.Keys + {k}, m.Keys);
    }
  }

  /** A displaced failure needs 10,001 keys and drops one. */
  lemma DisplacedShrinks(c: Config, m: Entries, key: string, at: nat)
    requires c.enabled && |m| <= PRUNE_THRESHOLD + 1 && Displaced(c, m, key, at)
    ensures |m| == PRUNE_THRESHOLD + 1
    ensures var r := RecordFailure(c, m, key, at); OVERFLOW_KEY in r && |r| <= PRUNE_THRESHOLD
  {
    KeptIsSmaller(c, m, at);
  }

  /** With the overflow entry in place, a map of at most 10,000 keys does not grow past that. */
  lemma StaysSmall(c: Config, m: Entries, key: string, at: nat)
    requires c.enabled && |m| <= PRUNE_THRESHOLD && OVERFLOW_KEY in AfterPrune(c, m, at)
    ensures var r := RecordFailure(c, m, key, at); OVERFLOW_KEY in r && |r| <= PRUNE_THRESHOLD
  {
    KeptIsSmaller(c, m, at);
  }

  /** So no overflow entry is hit twice. */
  lemma {:induction false} HitIsSmall(c: Config, ops: seq<Op>)
    requires Hit(c, ops)
    ensures OVERFLOW_KEY in Run(c, ops) && |Run(c, ops)| <= PRUNE_THRESHOLD
  {
    var pre, op := ops[..|ops| - 1], ops[|ops| - 1];
    var m := Run(c, pre);
    if Hit(c, pre) {
      HitIsSmall(c, pre);
    }
    match op {
      case Success(k) =>
        SubsetSize(m.Keys - {k}, m.Keys);
        assert |(m - {k}).Keys| == |m - {k}| && (m - {k}).Keys == m.Keys - {k};
      case Failure(k, at) =>
        RunIsBounded(c, pre);
        if Displaced(c, m, k, at) {
          DisplacedShrinks(c, m, k, at);
        } else {
          StaysSmall(c, m, k, at);
        }
    }
  }

  /** In every run whose failures follow allowed checks, with any number of keys, no account's entry is ever
      charged while locked, and an overflow entry exactly once if it has been hit and never otherwise. */
  lemma {:induction false} SpentIsPolite(c: Config, from: nat, ops: seq<Op>, key: string)
    requires Ordered(from, ops) && Guarded(c, ops)
    ensures Polite(c, Spent(c, ops, key), key == OVERFLOW_KEY && Hit(c, ops))
  {
    if ops != [] && c.enabled {
      SpentIsPolite(c, from, ops[..|ops| - 1], key);
      if ops[|ops| - 1].Failure? {
        PoliteAfterFailure(c, from, ops, key);
      }
    }
  }

  lemma PoliteAfterFailure(c: Config, from: nat, ops: seq<Op>, key: string)
    requires c.enabled && ops != [] && ops[|ops| - 1].Failure? && Ordered(from, ops) && Guarded(c, ops)
    requires var pre := ops[..|ops| - 1]; Polite(c, Spent(c, pre, key), key == OVERFLOW_KEY && Hit(c, pre))
    ensures Polite(c, Spent(c, ops, key), key == OVERFLOW_KEY && Hit(c, ops))
  {
    var pre, op := ops[..|ops| - 1], ops[|ops| - 1];
    var m, kept := Run(c, pre), AfterPrune(c, Run(c, pre), op.at);
    SpentCases(c, ops, key);
    KeptIsSmaller(c, m, op.at);
    if Displaced(c, m, op.key, op.at) {
      DisplacedIsFirst(c, pre, op.key, op.at);
    }
    if key in kept && TrackedKey(kept, op.key) == key {
      EntryIsMachine(c, pre, key);
      SpentInPast(c, from, pre, key);
      ChargedPolite(c, m, op.key, op.at, key, Spent(c, pre, key), key == OVERFLOW_KEY && Hit(c, pre));
    }
  }

  lemma ChargedPolite(c: Config, m: Entries, k: string, at: nat, key: string, ts: seq<nat>, hit: bool)
    requires c.enabled && Check(c, m, k, at) == Allowed && TrackedKey(AfterPrune(c, m, at), k) == key && key in m
    requires ts != [] && ts[|ts| - 1] <= at && m[key] == Machine(c, ts) && Polite(c, ts, hit)
    requires key == OVERFLOW_KEY && Displaced(c, m, k, at) ==> !hit
    ensures Polite(c, ts + [at], hit || (key == OVERFLOW_KEY && Displaced(c, m, k, at)))
  {
    ChargedIsUnlocked(c, m, k, at);
    PoliteStep(c, ts, at, hit || (key == OVERFLOW_KEY && Displaced(c, m, k, at)));
  }

  /** In every run whose failures follow allowed checks, with any number of accounts: an entry at level k
      has sat out its first k - 1 lockouts and is locked until the k-th could end. Only an overflow entry hit
      under a limit of one attempt is not covered. */
  lemma GuardEscalationTakesTime(c: Config, from: nat, ops: seq<Op>, key: string)
    requires c.Valid() && Ordered(from, ops) && Guarded(c, ops) && key in Run(c, ops)
    requires key == OVERFLOW_KEY && Hit(c, ops) ==> c.maxAttempts >= 2
    ensures var e, ts := Run(c, ops)[key], Spent(c, ops, key);
            && ts != [] && (key != OVERFLOW_KEY ==> IsSuffix(ts, OwnFailures(ops, key)))
            && SatOut(c, ts[0], ts[|ts| - 1], e)
  {
    EntryIsMachine(c, ops, key);
    SpentIsPolite(c, from, ops, key);
    EscalationTakesTime(c, Spent(c, ops, key), key == OVERFLOW_KEY && Hit(c, ops));
    if key != OVERFLOW_KEY {
      SpentIsOwn(c, ops, key);
    }
  }

  /** The failure raises the level of the entry it is charged to. */
  predicate Trips(c: Config, m: Entries, key: string, at: nat) {
    var kept := AfterPrune(c, m, at);
    var k := TrackedKey(kept, key);
    c.enabled && Fail(c, EntryOr(kept, k, at), at).level > EntryOr(kept, k, at).level
  }

  lemma TripAfter(c: Config, ts: seq<nat>, at: nat, hit: bool)
    requires c.Valid() && Polite(c, ts + [at], hit)
    requires var e := if ts == [] then NewEntry(at) else Machine(c, ts); Fail(c, e, at).level > e.level
    ensures WithinWindow(c, ts + [at])
  {
    MachineStep(c, ts, at);
    assert (ts + [at])[..|ts|] == ts;
    TripNeedsFullWindow(c, ts + [at], hit);
  }

  lemma ChargedBefore(c: Config, pre: seq<Op>, key: string, at: nat)
    requires c.enabled
    ensures var kept := AfterPrune(c, Run(c, pre), at);
            var k := TrackedKey(kept, key);
            var ts := if k in kept then Spent(c, pre, k) else [];
            && Spent(c, pre + [Failure(key, at)], k) == ts + [at]
            && EntryOr(kept, k, at) == if ts == [] then NewEntry(at) else Machine(c, ts)
  {
    var ops := pre + [Failure(key, at)];
    assert ops[..|ops| - 1] == pre;
    var kept := AfterPrune(c, Run(c, pre), at);
    var k := TrackedKey(kept, key);
    EntryIsMachine(c, pre, k);
    assert k in kept ==> k in Run(c, pre) && kept[k] == Run(c, pre)[k];
  }

  lemma SuffixWithinWindow(c: Config, a: seq<nat>, b: seq<nat>)
    requires IsSuffix(a, b) && WithinWindow(c, a)
    ensures WithinWindow(c, b)
  {
    var n := |b| - |a|;
    assert b[n..][|a| - c.maxAttempts] == b[|b| - c.maxAttempts] && b[n..][|a| - 1] == b[|b| - 1];
  }

  /** In every such run, every trip of an account was earned by its own latest `maxAttempts` failures, all in
      one window; a trip of the overflow entry by that many failures charged to it. */
  lemma GuardTripNeedsFullWindow(c: Config, from: nat, pre: seq<Op>, key: string, at: nat)
    requires var ops := pre + [Failure(key, at)]; c.Valid() && Ordered(from, ops) && Guarded(c, ops)
    requires Trips(c, Run(c, pre), key, at)
    ensures var ops, k := pre + [Failure(key, at)], TrackedKey(AfterPrune(c, Run(c, pre), at), key);
            if k == OVERFLOW_KEY then WithinWindow(c, Spent(c, ops, k))
            else k == key && WithinWindow(c, OwnFailures(ops, key))
  {
    var ops, kept := pre + [Failure(key, at)], AfterPrune(c, Run(c, pre), at);
    var k := TrackedKey(kept, key);
    ChargedBefore(c, pre, key, at);
    SpentIsPolite(c, from, ops, k);
    TripAfter(c, if k in kept then Spent(c, pre, k) else [], at, k == OVERFLOW_KEY && Hit(c, ops));
    if k != OVERFLOW_KEY {
      SpentIsOwn(c, ops, k);
      SuffixWithinWindow(c, Spent(c, ops, k), OwnFailures(ops, k));
    }
  }

  // ---- failures lock ----

  function Failures(key: string, ts: seq<nat>): seq<Op> {
    seq(|ts|, i requires 0 <= i < |ts| => Failure(key, ts[i]))
  }

  predicate Sorted(ts: seq<nat>) { forall i, j :: 0 <= i < j < |ts| ==> ts[i] <= ts[j] }

  /** The key starts to count afresh: it has no entry, or an idle one. */
  predicate Afresh(c: Config, m: Entries, key: string, t: nat) { key !in m || Idle(m[key], t, c.window) }

  function LevelOf(m: Entries, key: string): nat { if key in m then m[key].level else 0 }

  /** After `n` failures from afresh, fewer than the limit: counted, and not locked. */
  ghost predicate Counting(c: Config, m: Entries, key: string, start: nat, n: nat, level: nat) {
    && |m| <= PRUNE_THRESHOLD && key in m && m[key].failures == n && m[key].windowStart == start && m[key].level == level
    && (m[key].lockedUntil.Some? ==> m[key].lockedUntil.value <= start)
  }

  /** The failure at `t` has just locked the key, at the given level. */
  ghost predicate LockedBy(c: Config, m: Entries, key: string, t: nat, level: nat) {
    key in m && m[key] == Entry(0, t, Some(t + LockoutDuration(c, level)), level)
  }

  lemma FirstCounts(c: Config, m: Entries, key: string, t: nat)
    requires c.enabled && |m| < PRUNE_THRESHOLD && Afresh(c, m, key, t)
    ensures var r := RecordFailure(c, m, key, t);
            if c.maxAttempts > 1 then Counting(c, r, key, t, 1, LevelOf(m, key))
            else LockedBy(c, r, key, t, LevelOf(m, key) + 1)
  {
  }

  lemma NextCounts(c: Config, m: Entries, key: string, start: nat, n: nat, level: nat, t: nat)
    requires c.enabled && Counting(c, m, key, start, n, level) && start <= t < start + c.window
    ensures var r := RecordFailure(c, m, key, t);
            if n + 1 < c.maxAttempts then Counting(c, r, key, start, n + 1, level)
            else LockedBy(c, r, key, t, level + 1)
  {
    KeptIsSmaller(c, m, t);
    assert key in AfterPrune(c, m, t);
  }

  lemma FailuresStep(c: Config, pre: seq<Op>, key: string, ts: seq<nat>)
    requires ts != []
    ensures Run(c, pre + Failures(key, ts))
            == RecordFailure(c, Run(c, pre + Failures(key, ts[..|ts| - 1])), key, ts[|ts| - 1])
    decreases 0
  {
    var n := |ts| - 1;
    assert pre + Failures(key, ts) == (pre + Failures(key, ts[..n])) + [Failure(key, ts[n])];
    RunExtends(c, 0, pre + Failures(key, ts[..n]), key, ts[n]);
  }

  lemma {:induction false} CountsUp(c: Config, pre: seq<Op>, key: string, ts: seq<nat>)
    requires c.enabled && |Run(c, pre)| < PRUNE_THRESHOLD && ts != [] && Afresh(c, Run(c, pre), key, ts[0])
    requires |ts| < c.maxAttempts && Sorted(ts) && ts[|ts| - 1] < ts[0] + c.window
    ensures Counting(c, Run(c, pre + Failures(key, ts)), key, ts[0], |ts|, LevelOf(Run(c, pre), key))
  {
    var n := |ts| - 1;
    FailuresStep(c, pre, key, ts);
    if n == 0 {
      assert pre + Failures(key, ts[..0]) == pre;
      FirstCounts(c, Run(c, pre), key, ts[0]);
    } else {
      assert ts[..n][0] == ts[0] && ts[..n][n - 1] <= ts[n];
      CountsUp(c, pre, key, ts[..n]);
      NextCounts(c, Run(c, pre + Failures(key, ts[..n])), key, ts[0], n, LevelOf(Run(c, pre), key), ts[n]);
    }
  }

  lemma LastLocks(c: Config, pre: seq<Op>, key: string, ts: seq<nat>)
    requires c.Valid() && c.enabled && |Run(c, pre)| < PRUNE_THRESHOLD && |ts| == c.maxAttempts && Sorted(ts)
    requires Afresh(c, Run(c, pre), key, ts[0]) && (ts[|ts| - 1] < ts[0] + c.window || |ts| == 1)
    ensures LockedBy(c, Run(c, pre + Failures(key, ts)), key, ts[|ts| - 1], LevelOf(Run(c, pre), key) + 1)
  {
    var n := |ts| - 1;
    FailuresStep(c, pre, key, ts);
    if n == 0 {
      assert pre + Failures(key, ts[..0]) == pre;
      FirstCounts(c, Run(c, pre), key, ts[0]);
    } else {
      CountedBefore(c, pre, key, ts);
      LastCounts(c, Run(c, pre + Failures(key, ts[..n])), key, ts, LevelOf(Run(c, pre), key));
    }
  }

  lemma LastCounts(c: Config, m: Entries, key: string, ts: seq<nat>, level: nat)
    requires c.enabled && 1 < |ts| == c.maxAttempts && Sorted(ts) && ts[|ts| - 1] < ts[0] + c.window
    requires Counting(c, m, key, ts[0], |ts| - 1, level)
    ensures LockedBy(c, RecordFailure(c, m, key, ts[|ts| - 1]), key, ts[|ts| - 1], level + 1)
  {
    NextCounts(c, m, key, ts[0], |ts| - 1, level, ts[|ts| - 1]);
  }

  lemma CountedBefore(c: Config, pre: seq<Op>, key: string, ts: seq<nat>)
    requires c.enabled && |Run(c, pre)| < PRUNE_THRESHOLD && 1 < |ts| <= c.maxAttempts && Sorted(ts)
    requires Afresh(c, Run(c, pre), key, ts[0]) && ts[|ts| - 1] < ts[0] + c.window
    ensures Counting(c, Run(c, pre + Failures(key, ts[..|ts| - 1])), key, ts[0], |ts| - 1, LevelOf(Run(c, pre), key))
  {
    var n := |ts| - 1;
    assert ts[..n][0] == ts[0] && ts[..n][n - 1] <= ts[n];
    CountsUp(c, pre, key, ts[..n]);
  }

  /** The point of the guard: an account that fails `maxAttempts` times within one window is locked by the last
      of these failures, for the lockout of its next level, whatever other accounts are tracked or pruned. */
  lemma FailuresLock(c: Config, pre: seq<Op>, key: string, ts: seq<nat>, now: nat)
    requires c.Valid() && c.enabled && |Run(c, pre)| < PRUNE_THRESHOLD && |ts| == c.maxAttempts && Sorted(ts)
    requires Afresh(c, Run(c, pre), key, ts[0]) && (ts[|ts| - 1] < ts[0] + c.window || |ts| == 1)
    ensures var level, last := LevelOf(Run(c, pre), key) + 1, ts[|ts| - 1];
            var m := Run(c, pre + Failures(key, ts));
            && key in m && m[key].level == level
            && (Check(c, m, key, now).Locked? <==> now < last + LockoutDuration(c, level))
  {
    LastLocks(c, pre, key, ts);
  }

  /** And by none before it: until then every check is allowed. */
  lemma FewerDoNotLock(c: Config, pre: seq<Op>, key: string, ts: seq<nat>, now: nat)
    requires c.Valid() && c.enabled && |Run(c, pre)| < PRUNE_THRESHOLD && |ts| < c.maxAttempts && Sorted(ts)
    requires ts != [] && Afresh(c, Run(c, pre), key, ts[0]) && ts[|ts| - 1] < ts[0] + c.window && now >= ts[0]
    ensures Check(c, Run(c, pre + Failures(key, ts)), key, now) == Allowed
  {
    CountsUp(c, pre, key, ts);
  }

  /** An account that was not tracked is locked for the base lockout. */
  lemma FirstLockout(c: Config, pre: seq<Op>, key: string, ts: seq<nat>, now: nat)
    requires c.Valid() && c.enabled && |Run(c, pre)| < PRUNE_THRESHOLD && |ts| == c.maxAttempts && Sorted(ts)
    requires key !in Run(c, pre) && (ts[|ts| - 1] < ts[0] + c.window || |ts| == 1)
    ensures Check(c, Run(c, pre + Failures(key, ts)), key, now).Locked? <==> now < ts[|ts| - 1] + c.baseLockout
  {
    FailuresLock(c, pre, key, ts, now);
    DurationByFactor(c, 1);
  }

  /** At no point of the run has the overflow entry been charged while it was locked. */
  ghost predicate OverflowPolite(c: Config, ops: seq<Op>) {
    Polite(c, Spent(c, ops, OVERFLOW_KEY), false) && (ops != [] ==> OverflowPolite(c, ops[..|ops| - 1]))
  }

  lemma {:induction false} HitIsNotPolite(c: Config, ts: seq<nat>)
    requires Polite(c, ts, true)
    ensures !Polite(c, ts, false)
  {
    if |ts| >= 2 && !LockActive(Machine(c, ts[..|ts| - 1]), ts[|ts| - 1]) {
      HitIsNotPolite(c, ts[..|ts| - 1]);
    }
  }

  lemma {:induction false} NeverDisplacedNeverHit(c: Config, ops: seq<Op>)
    requires NeverDisplaced(c, ops)
    ensures !Hit(c, ops)
  {
    if ops != [] {
      NeverDisplacedNeverHit(c, ops[..|ops| - 1]);
    }
  }

  /** The overflow entry is shared, so an allowed check of an account does not always speak for it: it is
      never charged while locked exactly when no failure of the run is displaced. */
  lemma {:induction false} OverflowIsPoliteExactly(c: Config, from: nat, ops: seq<Op>)
    requires c.enabled && Ordered(from, ops) && Guarded(c, ops)
    ensures OverflowPolite(c, ops) <==> NeverDisplaced(c, ops)
  {
    SpentIsPolite(c, from, ops, OVERFLOW_KEY);
    if ops != [] {
      OverflowIsPoliteExactly(c, from, ops[..|ops| - 1]);
      if NeverDisplaced(c, ops) {
        NeverDisplacedNeverHit(c, ops);
      } else if NeverDisplaced(c, ops[..|ops| - 1]) {
        HitIsNotPolite(c, Spent(c, ops, OVERFLOW_KEY));
      }
    }
  }

  /** The failure trips the overflow entry, which is locked. */
  predicate TripsLocked(c: Config, m: Entries, key: string, at: nat) {
    Trips(c, m, key, at) && TrackedKey(AfterPrune(c, m, at), key) == OVERFLOW_KEY
    && Check(c, m, OVERFLOW_KEY, at).Locked?
  }

  ghost predicate TrippedWhileLocked(c: Config, ops: seq<Op>) {
    ops != []
    && var pre, op := ops[..|ops| - 1], ops[|ops| - 1];
       TrippedWhileLocked(c, pre) || (op.Failure? && TripsLocked(c, Run(c, pre), op.key, op.at))
  }

  /** A displaced failure trips the entry it hits exactly when one attempt is enough. */
  lemma DisplacedTripsExactly(c: Config, from: nat, pre: seq<Op>, key: string, at: nat)
    requires c.Valid() && c.enabled && Ordered(from, pre) && Guarded(c, pre) && ClockAfter(from, pre) <= at
    requires Check(c, Run(c, pre), key, at) == Allowed
    ensures TripsLocked(c, Run(c, pre), key, at) <==> c.maxAttempts == 1 && Displaced(c, Run(c, pre), key, at)
  {
    var m := Run(c, pre);
    ChargedIsUnlocked(c, m, key, at);
    KeptIsSmaller(c, m, at);
    if Displaced(c, m, key, at) {
      DisplacedFindsNone(c, from, pre, key, at);
    }
  }

  lemma DisplacedFindsNone(c: Config, from: nat, pre: seq<Op>, key: string, at: nat)
    requires c.Valid() && c.enabled && Ordered(from, pre) && Guarded(c, pre) && ClockAfter(from, pre) <= at
    requires Displaced(c, Run(c, pre), key, at)
    ensures OVERFLOW_KEY in Run(c, pre) && Run(c, pre)[OVERFLOW_KEY].failures == 0
  {
    DisplacedIsFirst(c, pre, key, at);
    EntryIsMachine(c, pre, OVERFLOW_KEY);
    SpentIsPolite(c, from, pre, OVERFLOW_KEY);
    SpentInPast(c, from, pre, OVERFLOW_KEY);
    LockedCountsNone(c, Spent(c, pre, OVERFLOW_KEY), at);
  }

  /** A displaced failure never meets an overflow entry that was hit before. */
  lemma DisplacedIsFirst(c: Config, pre: seq<Op>, key: string, at: nat)
    requires Displaced(c, Run(c, pre), key, at)
    ensures !Hit(c, pre) && OVERFLOW_KEY in Run(c, pre) && LockActive(Run(c, pre)[OVERFLOW_KEY], at)
  {
    KeptIsSmaller(c, Run(c, pre), at);
    if Hit(c, pre) {
      HitIsSmall(c, pre);
    }
  }

  /** In every run whose failures follow allowed checks, the overflow entry trips while it is locked exactly
      when the limit is one attempt and some failure is displaced. */
  lemma {:induction false} TripsWhileLockedExactly(c: Config, from: nat, ops: seq<Op>)
    requires c.Valid() && c.enabled && Ordered(from, ops) && Guarded(c, ops)
    ensures TrippedWhileLocked(c, ops) <==> c.maxAttempts == 1 && !NeverDisplaced(c, ops)
  {
    if ops != [] {
      var pre, op := ops[..|ops| - 1], ops[|ops| - 1];
      TripsWhileLockedExactly(c, from, pre);
      if op.Failure? {
        DisplacedTripsExactly(c, from, pre, op.key, op.at);
      }
    }
  }

  /** One attempt allowed, a window of one tick, lockouts of three. */
  const STRICT: Config := Config(true, 1, 1, 3, 3)

  function Account(i: nat): string { "|" + seq(i, _ => 'a') }

  function SprayTime(i: nat): nat { if i == 0 then 0 else 1 }

  /** One failure for each of `n` accounts, the first a tick before the others. */
  function Spray(n: nat): seq<Op> {
    if n == 0 then [] else Spray(n - 1) + [Failure(Account(n - 1), SprayTime(n - 1))]
  }

  function LockedAt(t: nat): Entry { Entry(0, t, Some(t + 3), 1) }

  /** One of the first `n` accounts. */
  predicate AccountBelow(k: string, n: nat) { 1 <= |k| <= n && k == Account(|k| - 1) }

  /** Exactly the first `n` accounts are tracked, each locked since its failure. */
  ghost predicate Sprayed(m: Entries, n: nat) {
    && |m| == n
    && (forall i: nat :: i < n ==> Account(i) in m && m[Account(i)] == LockedAt(SprayTime(i)))
    && (forall k :: k in m ==> AccountBelow(k, n))
  }

  lemma AccountsDiffer(i: nat, j: nat)
    requires i != j
    ensures Account(i) != Account(j)
  {
    assert |Account(i)| == i + 1 && |Account(j)| == j + 1;
  }

  lemma StrictFail(level: nat, e: Entry, at: nat)
    requires e.level == level
    ensures LockoutDuration(STRICT, level + 1) == 3
    ensures Fail(STRICT, e, at) == Entry(0, at, Some(at + 3), level + 1)
  {
    DurationByFactor(STRICT, level + 1);
    FactorMonotone(1, level + 1);
    ScaleMonotone(3, 1, Factor(level + 1));
  }

  lemma FreshAccount(m: Entries, n: nat, j: nat)
    requires Sprayed(m, n) && n <= j
    ensures Account(j) !in m && OVERFLOW_KEY !in m
  {
    assert |Account(j)| == j + 1 && OVERFLOW_KEY[0] == '<';
    assert forall i: nat :: Account(i)[0] == '|';
  }

  lemma SprayedInsert(m: Entries, n: nat)
    requires Sprayed(m, n) && Account(n) !in m
    ensures Sprayed(m[Account(n) := LockedAt(SprayTime(n))], n + 1)
  {
    var r := m[Account(n) := LockedAt(SprayTime(n))];
    assert |Account(n)| == n + 1 && |r| == |m| + 1;
    forall i: nat | i < n + 1
      ensures Account(i) in r && r[Account(i)] == LockedAt(SprayTime(i))
    {
      if i < n {
        AccountsDiffer(i, n);
      }
    }
    forall k | k in r
      ensures AccountBelow(k, n + 1)
    {
      assert k == Account(n) || AccountBelow(k, n);
    }
  }

  lemma SprayStep(m: Entries, n: nat)
    requires Sprayed(m, n) && n < PRUNE_THRESHOLD
    ensures Check(STRICT, m, Account(n), SprayTime(n)) == Allowed
    ensures RecordFailure(STRICT, m, Account(n), SprayTime(n)) == m[Account(n) := LockedAt(SprayTime(n))]
    ensures Account(n) !in m
  {
    FreshAccount(m, n, n);
    StrictFail(0, NewEntry(SprayTime(n)), SprayTime(n));
  }

  lemma RunExtends(c: Config, from: nat, pre: seq<Op>, key: string, at: nat)
    ensures var m, ops := Run(c, pre), pre + [Failure(key, at)];
            && Run(c, ops) == RecordFailure(c, m, key, at) && ClockAfter(from, ops) == at
            && (Ordered(from, ops) <==> Ordered(from, pre) && ClockAfter(from, pre) <= at)
            && (Guarded(c, ops) <==> Guarded(c, pre) && Check(c, m, key, at) == Allowed)
            && (NeverDisplaced(c, ops) <==> NeverDisplaced(c, pre) && !Displaced(c, m, key, at))
  {
    var ops := pre + [Failure(key, at)];
    assert ops[..|ops| - 1] == pre;
  }

  /** A well-behaved run that has tracked the first `n` accounts. */
  ghost predicate Spraying(ops: seq<Op>, n: nat) {
    Sprayed(Run(STRICT, ops), n) && Guarded(STRICT, ops) && Ordered(0, ops) && ClockAfter(0, ops) <= SprayTime(n)
  }

  lemma SprayExtends(ops: seq<Op>, n: nat, longer: seq<Op>)
    requires Spraying(ops, n) && n < PRUNE_THRESHOLD && longer == ops + [Failure(Account(n), SprayTime(n))]
    ensures Spraying(longer, n + 1)
  {
    SprayStep(Run(STRICT, ops), n);
    SprayedInsert(Run(STRICT, ops), n);
    RunExtends(STRICT, 0, ops, Account(n), SprayTime(n));
  }

  lemma SprayStarts()
    ensures Spraying([], 0)
  {
  }

  lemma SprayUnfolds(n: nat)
    ensures Spray(0) == [] && (n > 0 ==> Spray(n) == Spray(n - 1) + [Failure(Account(n - 1), SprayTime(n - 1))])
  {
  }

  lemma {:induction false} SprayTracks(n: nat, ops: seq<Op>)
    requires n <= PRUNE_THRESHOLD && ops == Spray(n)
    ensures Spraying(ops, n)
  {
    SprayUnfolds(n);
    if n == 0 {
      SprayStarts();
    } else {
      var fewer := Spray(n - 1);
      SprayTracks(n - 1, fewer);
      SprayExtends(fewer, n - 1, ops);
    }
  }

  /** All accounts are still locked at tick 2, so one more goes to the overflow entry. */
  lemma OverflowLocks(m: Entries, n: nat)
    requires Sprayed(m, n) && n == PRUNE_THRESHOLD
    ensures Check(STRICT, m, Account(n), 2) == Allowed
    ensures RecordFailure(STRICT, m, Account(n), 2) == m[OVERFLOW_KEY := LockedAt(2)]
  {
    FreshAccount(m, n, n);
    assert AfterPrune(STRICT, m, 2) == m;
    StrictFail(0, NewEntry(2), 2);
  }

  /** At tick 3 the first account is idle and passes its check; pruning it leaves the map full. */
  lemma FirstIsDisplaced(m: Entries, n: nat)
    requires Sprayed(m, n) && n == PRUNE_THRESHOLD
    ensures var full := m[OVERFLOW_KEY := LockedAt(2)];
            && Check(STRICT, full, Account(0), 3) == Allowed && Displaced(STRICT, full, Account(0), 3)
            && OVERFLOW_KEY in RecordFailure(STRICT, full, Account(0), 3)
            && RecordFailure(STRICT, full, Account(0), 3)[OVERFLOW_KEY] == Entry(0, 3, Some(6), 2)
  {
    var full := m[OVERFLOW_KEY := LockedAt(2)];
    FirstIsPruned(m, n);
    assert |AfterPrune(STRICT, full, 3)| == |full| - 1;
    StrictFail(1, full[OVERFLOW_KEY], 3);
  }

  lemma FirstIsPruned(m: Entries, n: nat)
    requires Sprayed(m, n) && n == PRUNE_THRESHOLD
    ensures var full := m[OVERFLOW_KEY := LockedAt(2)];
            && Account(0) in full && Account(0) != OVERFLOW_KEY && full[Account(0)] == LockedAt(0) && |full| == n + 1
            && AfterPrune(STRICT, full, 3) == full - {Account(0)}
  {
    var full := m[OVERFLOW_KEY := LockedAt(2)];
    FreshAccount(m, n, n);
    assert Account(0) in m;
    forall k | k in full
      ensures Idle(full[k], 3, 1) <==> k == Account(0)
    {
      if k != OVERFLOW_KEY {
        StillLocked(m, n, k);
      }
    }
  }

  lemma StillLocked(m: Entries, n: nat, k: string)
    requires Sprayed(m, n) && k in m
    ensures Idle(m[k], 3, 1) <==> k == Account(0)
  {
    var i := |k| - 1;
    assert AccountBelow(k, n) && m[Account(i)] == LockedAt(SprayTime(i));
    if i != 0 {
      AccountsDiffer(i, 0);
    }
  }

  /** Reachable: 10,002 checked failures after which the overflow entry, still locked, trips again. */
  lemma OverflowTripsWhileLocked(n: nat)
    requires n == PRUNE_THRESHOLD
    ensures var pre := Spray(n) + [Failure(Account(n), 2)];
            var ops := pre + [Failure(Account(0), 3)];
            && Ordered(0, ops) && Guarded(STRICT, ops) && !NeverDisplaced(STRICT, ops)
            && Lookup(Run(STRICT, pre), OVERFLOW_KEY) == Some(Entry(0, 2, Some(5), 1))
            && Lookup(Run(STRICT, ops), OVERFLOW_KEY) == Some(Entry(0, 3, Some(6), 2))
            && TrippedWhileLocked(STRICT, ops)
  {
    SprayTracks(n, Spray(n));
    var m := Run(STRICT, Spray(n));
    OverflowLocks(m, n);
    FirstIsDisplaced(m, n);
    var pre := Spray(n) + [Failure(Account(n), 2)];
    var ops := pre + [Failure(Account(0), 3)];
    RunExtends(STRICT, 0, Spray(n), Account(n), 2);
    RunExtends(STRICT, 0, pre, Account(0), 3);
    TripsWhileLockedExactly(STRICT, 0, pre + [Failure(Account(0), 3)]);
  }
}
