/** Bounded retries of a database write (src/adapters/retry.rs) with jittered exponential backoff
    (src/config.rs). Delays are in milliseconds. */
module Retry {
  import opened Text
  import opened Arithmetic

  /** As read from the environment: a bounded number of retries, delays that fit 64 bits. */
  datatype WritePolicy = WritePolicy(maxRetries: nat, retryBase: nat, retryMax: nat, deleteBatch: nat) {
    predicate Valid() {
      maxRetries <= U32_MAX && retryBase <= retryMax <= U64_MAX && deleteBatch >= 1
    }
  }

  /** `checked_shl` gives up at 32 and the factor saturates. */
  function Factor(attempt: nat): nat { if attempt < 32 then Pow2(attempt) else U32_MAX }

  /** The delay before jitter. */
  function Capped(p: WritePolicy, attempt: nat): nat {
    Max(Min(p.retryBase * Factor(attempt), p.retryMax), 1)
  }

  function Spread(millis: nat): nat { Max(millis / 2, 1) }

  /** `draw` is the random number, uniform on 0..=spread. */
  function Backoff(p: WritePolicy, attempt: nat, draw: nat): nat
    requires draw <= Spread(Capped(p, attempt))
  {
    var millis := Capped(p, attempt);
    millis - Spread(millis) / 2 + draw
  }

  /** Jitter moves a delay by at most a quarter, and a delay is never zero. */
  lemma BackoffRange(p: WritePolicy, attempt: nat, draw: nat)
    requires draw <= Spread(Capped(p, attempt))
    ensures var m := Capped(p, attempt);
            1 <= m && 3 * m / 4 <= Backoff(p, attempt, draw) <= 5 * m / 4 + 1 && Backoff(p, attempt, draw) >= 1
  {
  }

  /** Delays grow with the attempt number until the cap, and never pass it. */
  lemma CappedGrows(p: WritePolicy, a: nat, b: nat)
    requires a <= b
    ensures Capped(p, a) <= Capped(p, b) <= Max(p.retryMax, 1)
  {
    FactorGrows(a, b);
    ScaleMonotone(p.retryBase, Factor(a), Factor(b));
  }

  /** The delay starts at the base and doubles with every attempt until it meets the maximum. */
  lemma CappedDoubles(p: WritePolicy, attempt: nat)
    requires p.Valid() && attempt < 31
    ensures Capped(p, 0) == Max(p.retryBase, 1)
    ensures p.retryBase >= 1 ==> Capped(p, attempt + 1) == Max(Min(2 * Capped(p, attempt), p.retryMax), 1)
  {
    var x := p.retryBase * Pow2(attempt);
    assert p.retryBase * Pow2(attempt + 1) == 2 * x;
    assert p.retryBase >= 1 ==> x >= 1;
  }

  lemma FactorGrows(a: nat, b: nat)
    requires a <= b
    ensures Factor(a) <= Factor(b)
  {
    Pow2Of31();
    if b < 32 {
      Pow2Monotone(a, b);
    } else if a < 32 {
      Pow2Monotone(a, 31);
    }
  }

  // ---- the loop ----

  datatype Error = Busy | DbBusy(what: string) | Other(message: string)

  predicate IsBusy(e: Error) { e.Busy? || e.DbBusy? }

  /** A database that runs one transaction per attempt: an attempt commits its effect and reports it,
      or reports an error and leaves nothing behind. The outcome is the environment's choice. */
  class Database {
    var commits: nat
    var attempts: nat
    var slept: seq<nat>

    constructor ()
      ensures commits == 0 && attempts == 0 && slept == []
    {
      commits, attempts, slept := 0, 0, [];
    }

    method Attempt() returns (r: Result<int, Error>)
      modifies this
      ensures attempts == old(attempts) + 1 && slept == old(slept)
      ensures commits == old(commits) + (if r.Ok? then 1 else 0)
    {
      r := *;
      attempts := attempts + 1;
      if r.Ok? {
        commits := commits + 1;
      }
    }

    method Sleep(millis: nat)
      modifies this
      ensures slept == old(slept) + [millis] && commits == old(commits) && attempts == old(attempts)
    {
      slept := slept + [millis];
    }

    /** Exactly one committed effect on success and none on failure; a non-busy error is final; only a
        spent budget turns a busy error into `DbBusy`; the i-th sleep follows the i-th backoff, and all of
        them together stay within the retries times the longest delay. */
    method RetryWrite(policy: WritePolicy, what: string) returns (r: Result<int, Error>)
      requires policy.Valid()
      modifies this
      ensures commits == old(commits) + (if r.Ok? then 1 else 0)
      ensures 1 <= attempts - old(attempts) <= policy.maxRetries + 1
      ensures old(slept) <= slept && |slept| - |old(slept)| == attempts - old(attempts) - 1
      ensures Paced(policy, slept[|old(slept)|..])
      ensures InBudget(policy, slept[|old(slept)|..])
      ensures r.Err? && IsBusy(r.error) ==>
                r.error == DbBusy(what) && attempts == old(attempts) + policy.maxRetries + 1
    {
      var attempt := 0;
      while true
        invariant attempt <= policy.maxRetries
        invariant commits == old(commits) && attempts == old(attempts) + attempt
        invariant old(slept) <= slept && |slept| == |old(slept)| + attempt
        invariant Paced(policy, slept[|old(slept)|..])
        decreases policy.maxRetries - attempt
      {
        StaysInBudget(policy, slept[|old(slept)|..]);
        var out := Attempt();
        if out.Ok? {
          return out;
        }
        if !IsBusy(out.error) {
          return out;
        }
        if attempt >= policy.maxRetries {
          return Err(DbBusy(what));
        }
        var draw: nat := *;
        if draw > Spread(Capped(policy, attempt)) {
          draw := 0;
        }
        ghost var before := slept[|old(slept)|..];
        BackoffRange(policy, attempt, draw);
        Sleep(Backoff(policy, attempt, draw));
        assert slept[|old(slept)|..] == before + [Backoff(policy, attempt, draw)];
        attempt := attempt + 1;
      }
    }
  }

  /** Each requested sleep lies within a quarter of the capped delay of its attempt. */
  ghost predicate Paced(p: WritePolicy, sleeps: seq<nat>) {
    forall i :: 0 <= i < |sleeps| ==> InQuarter(sleeps[i], Capped(p, i))
  }

  predicate InQuarter(sleep: nat, m: nat) { 3 * m / 4 <= sleep <= 5 * m / 4 + 1 }

  function Total(sleeps: seq<nat>): nat {
    if sleeps == [] then 0 else Total(sleeps[..|sleeps| - 1]) + sleeps[|sleeps| - 1]
  }

  lemma {:induction false} TotalAtMost(sleeps: seq<nat>, most: nat)
    requires forall i :: 0 <= i < |sleeps| ==> sleeps[i] <= most
    ensures Total(sleeps) <= |sleeps| * most
  {
    if sleeps != [] {
      var n := |sleeps| - 1;
      TotalAtMost(sleeps[..n], most);
      assert |sleeps| * most == n * most + most;
    }
  }

  /** The largest jittered delay a policy allows. */
  function Longest(p: WritePolicy): nat { 5 * Max(p.retryMax, 1) / 4 + 1 }

  /** All sleeps together last at most the retries times the longest delay. */
  predicate InBudget(p: WritePolicy, sleeps: seq<nat>) { Total(sleeps) <= p.maxRetries * Longest(p) }

  lemma StaysInBudget(p: WritePolicy, sleeps: seq<nat>)
    requires Paced(p, sleeps) && |sleeps| <= p.maxRetries
    ensures InBudget(p, sleeps)
  {
    TotalBounded(p, sleeps);
    ScaleMonotone(Longest(p), |sleeps|, p.maxRetries);
    assert Longest(p) * |sleeps| == |sleeps| * Longest(p) && Longest(p) * p.maxRetries == p.maxRetries * Longest(p);
  }

  /** The whole call waits no longer than its sleeps times the largest jittered delay. */
  lemma TotalBounded(p: WritePolicy, sleeps: seq<nat>)
    requires Paced(p, sleeps)
    ensures Total(sleeps) <= |sleeps| * Longest(p)
  {
    var most := Longest(p);
    forall i | 0 <= i < |sleeps|
      ensures sleeps[i] <= most
    {
      assert InQuarter(sleeps[i], Capped(p, i));
      CappedGrows(p, i, i);
    }
    TotalAtMost(sleeps, most);
  }
}
