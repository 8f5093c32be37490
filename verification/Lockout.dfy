/** Failure counters and escalating locks (internal/auth/lockout.go). Times and durations are nanoseconds. */
module Lockout {
  import opened Arith
  import opened Time
  import opened Wrappers

  const INT64_LIMIT: int := 0x8000_0000_0000_0000

  datatype Policy = Policy(maxFailures: int, window: int, baseDuration: int, maxDuration: int)

  const DEFAULT_POLICY := Policy(5, 10 * MINUTE, 5 * MINUTE, 60 * MINUTE)

  /** One row of account_lockouts. */
  datatype Row = Row(failureCount: nat, lockoutCount: nat, firstFailureAt: int, lastFailureAt: int, lockedUntil: Option<int>)

  datatype Scope = Account | Ip
  datatype Key = Key(plane: string, scope: Scope, subject: string)

  // ---------------------------------------------------------------- the lock duration

  /** Two's complement wrap-around of a 64-bit integer. */
  function Wrap64(x: int): int {
    (x + INT64_LIMIT) % (2 * INT64_LIMIT) - INT64_LIMIT
  }

  function BaseOf(policy: Policy): int {
    if policy.baseDuration <= 0 then DEFAULT_POLICY.baseDuration else policy.baseDuration
  }

  function MaxOf(policy: Policy): int {
    if policy.maxDuration <= 0 then DEFAULT_POLICY.maxDuration else policy.maxDuration
  }

  function Min(a: int, b: int): int { if a <= b then a else b }

  /** The doubled duration with the program's overflow behaviour and cap. */
  function Backoff(policy: Policy, priorLockouts: nat): int {
    var shift := if priorLockouts > 16 then 16 else priorLockouts;
    var duration := Wrap64(BaseOf(policy) * Pow2(shift));
    if duration > MaxOf(policy) || duration <= 0 then MaxOf(policy) else duration
  }

  /** Both durations are 64-bit values. */
  predicate InInt64(policy: Policy) { BaseOf(policy) < INT64_LIMIT && MaxOf(policy) < INT64_LIMIT }

  /** After `k` doublings the product fits, or its wrapped value is one that the cap replaces. */
  predicate CapsAt(policy: Policy, k: nat) {
    var x := BaseOf(policy) * Pow2(k);
    x < INT64_LIMIT || Wrap64(x) <= 0 || Wrap64(x) >= MaxOf(policy)
  }

  /** No overflow of this policy goes unnoticed. */
  predicate CapsCorrectly(policy: Policy) { forall k: nat :: k <= 16 ==> CapsAt(policy, k) }

  function CappedDoubling(policy: Policy, priorLockouts: nat): int {
    Min(BaseOf(policy) * Pow2(Min(priorLockouts, 16)), MaxOf(policy))
  }

  /** Whole seconds of a duration: what the interval literal carries. */
  function WholeSeconds(d: int): int { d / SECOND * SECOND }

  lemma MulMonotone(a: nat, b: nat, c: nat)
    requires a <= b
    ensures c * a <= c * b
  {
  }

  lemma ProductAtLeastBase(policy: Policy, k: nat)
    ensures BaseOf(policy) * Pow2(k) >= BaseOf(policy) > 0
  {
    MulMonotone(1, Pow2(k), BaseOf(policy));
  }

  lemma WrapOf(x: int)
    ensures -INT64_LIMIT <= Wrap64(x) < INT64_LIMIT && (x - Wrap64(x)) % 0x1_0000_0000_0000_0000 == 0
    ensures 0 <= x < INT64_LIMIT ==> Wrap64(x) == x
    ensures INT64_LIMIT <= x < 2 * INT64_LIMIT ==> Wrap64(x) < 0
  {
  }

  /** For one count of earlier locks: the duration is the capped doubling if and only if the overflow is caught. */
  lemma BackoffIsCappedDoublingIff(policy: Policy, prior: nat)
    requires InInt64(policy)
    ensures Backoff(policy, prior) == CappedDoubling(policy, prior) <==> CapsAt(policy, Min(prior, 16))
    ensures 0 < Backoff(policy, prior) <= MaxOf(policy)
    ensures var x := policy.baseDuration * Pow2(Min(prior, 16));
            policy.baseDuration > 0 && policy.maxDuration > 0 && x < INT64_LIMIT ==>
              Backoff(policy, prior) == if x <= policy.maxDuration then x else policy.maxDuration
    ensures policy.baseDuration <= 0 ==> Backoff(policy, prior) == Backoff(policy.(baseDuration := 5 * MINUTE), prior)
    ensures policy.maxDuration <= 0 ==> Backoff(policy, prior) == Backoff(policy.(maxDuration := 60 * MINUTE), prior)
  {
    var n: nat := Min(prior, 16);
    ProductAtLeastBase(policy, n);
    WrapOf(BaseOf(policy) * Pow2(n));
  }

  /** Where overflow is caught the lock lasts the base doubled once per earlier lock, sixteen times at most, then capped. */
  lemma BackoffIsCappedDoubling(policy: Policy, prior: nat)
    requires InInt64(policy) && CapsCorrectly(policy)
    ensures Backoff(policy, prior) == CappedDoubling(policy, prior)
    ensures Backoff(policy, prior) >= Min(BaseOf(policy), MaxOf(policy)) > 0
  {
    BackoffIsCappedDoublingIff(policy, prior);
    assert CapsAt(policy, Min(prior, 16));
    ProductAtLeastBase(policy, Min(prior, 16));
  }

  /** The exact condition: the capped doubling is computed for every count if and only if no overflow goes unnoticed. */
  lemma AlwaysCappedDoublingIff(policy: Policy)
    requires InInt64(policy)
    ensures (forall prior: nat :: Backoff(policy, prior) == CappedDoubling(policy, prior)) <==> CapsCorrectly(policy)
  {
    if CapsCorrectly(policy) {
      forall prior: nat ensures Backoff(policy, prior) == CappedDoubling(policy, prior) {
        BackoffIsCappedDoubling(policy, prior);
      }
    }
    if forall prior: nat :: Backoff(policy, prior) == CappedDoubling(policy, prior) {
      forall k: nat | k <= 16 ensures CapsAt(policy, k) {
        assert Backoff(policy, k) == CappedDoubling(policy, k);
        BackoffIsCappedDoublingIff(policy, k);
      }
    }
  }

  /** The first unnoticed overflow follows a lock of the full cap, because the first overflow of all wraps below zero. */
  lemma OverflowAfterCap(policy: Policy, n: nat)
    requires InInt64(policy) && n < 16 && CapsAt(policy, n) && !CapsAt(policy, n + 1)
    ensures Backoff(policy, n + 1) < Backoff(policy, n)
  {
    var x := BaseOf(policy) * Pow2(n);
    assert BaseOf(policy) * Pow2(n + 1) == 2 * x;
    ProductAtLeastBase(policy, n);
    WrapOf(2 * x);
    assert x >= INT64_LIMIT;
    assert Backoff(policy, n) == MaxOf(policy);
  }

  lemma {:induction false} UnnoticedOverflowShrinks(policy: Policy, k: nat) returns (n: nat)
    requires InInt64(policy) && k <= 16 && !CapsAt(policy, k)
    ensures n < 16 && Backoff(policy, n + 1) < Backoff(policy, n)
  {
    assert Pow2(0) == 1 && CapsAt(policy, 0);
    if CapsAt(policy, k - 1) {
      n := k - 1;
      OverflowAfterCap(policy, n);
    } else {
      n := UnnoticedOverflowShrinks(policy, k - 1);
    }
  }

  /** Later locks are never shorter if and only if no overflow goes unnoticed; the cap is never exceeded anyway. */
  lemma LocksNeverShrinkIff(policy: Policy)
    requires InInt64(policy)
    ensures (forall a: nat, b: nat :: a <= b ==> Backoff(policy, a) <= Backoff(policy, b)) <==> CapsCorrectly(policy)
    ensures forall n: nat :: 0 < Backoff(policy, n) <= MaxOf(policy)
  {
    forall n: nat ensures 0 < Backoff(policy, n) <= MaxOf(policy) {
      BackoffIsCappedDoublingIff(policy, n);
    }
    if CapsCorrectly(policy) {
      forall a: nat, b: nat | a <= b ensures Backoff(policy, a) <= Backoff(policy, b) {
        BackoffIsCappedDoubling(policy, a);
        BackoffIsCappedDoubling(policy, b);
        Pow2Monotone(Min(a, 16), Min(b, 16));
        MulMonotone(Pow2(Min(a, 16)), Pow2(Min(b, 16)), BaseOf(policy));
      }
    } else {
      var k: nat :| k <= 16 && !CapsAt(policy, k);
      var n := UnnoticedOverflowShrinks(policy, k);
      assert n <= n + 1;
    }
  }

  /** The policies the server builds keep the default base and cap, and their doublings never overflow. */
  lemma ServerPoliciesCap(maxFailures: int, window: int)
    ensures var policy := DEFAULT_POLICY.(maxFailures := maxFailures, window := window);
            InInt64(policy) && CapsCorrectly(policy)
  {
    var policy := DEFAULT_POLICY.(maxFailures := maxFailures, window := window);
    Pow2Values();
    forall k: nat | k <= 16 ensures CapsAt(policy, k) {
      Pow2Monotone(k, 16);
      MulMonotone(Pow2(k), Pow2(16), BaseOf(policy));
    }
  }

  /** A policy whose overflow goes unnoticed: with a base of 2^48 + 1 ns, sixteen doublings wrap to 65536 ns. */
  lemma OverflowShrinksLocks()
    ensures var policy := Policy(5, 10 * MINUTE, 0x1_0000_0000_0001, 0x4000_0000_0000_0000);
            && InInt64(policy) && !CapsAt(policy, 16)
            && Backoff(policy, 16) == 65536 < Backoff(policy, 0)
            && WholeSeconds(Backoff(policy, 16)) == 0
  {
    Pow2Values();
    assert Pow2(0) == 1;
    var policy := Policy(5, 10 * MINUTE, 0x1_0000_0000_0001, 0x4000_0000_0000_0000);
    assert BaseOf(policy) * Pow2(16) == 2 * INT64_LIMIT + 65536;
    assert Wrap64(BaseOf(policy) * Pow2(16)) == 65536;
    assert Wrap64(BaseOf(policy) * Pow2(0)) == 0x1_0000_0000_0001;
  }

  // ---------------------------------------------------------------- one counter

  /** A policy without a positive threshold is replaced as a whole. */
  function EffectivePolicy(policy: Policy): Policy {
    if policy.maxFailures <= 0 then DEFAULT_POLICY else policy
  }

  predicate Locked(row: Option<Row>, now: int) {
    row.Some? && row.value.lockedUntil.Some? && row.value.lockedUntil.value > now
  }

  predicate Lapsed(policy: Policy, row: Row, now: int) { now - row.firstFailureAt > policy.window }

  /** This failure trips a lock. */
  predicate Trips(policy: Policy, row: Option<Row>, now: int) {
    row.Some? && !Lapsed(policy, row.value, now) && row.value.failureCount + 1 >= policy.maxFailures
  }

  /** One recorded failure under an effective policy. */
  function Recorded(policy: Policy, row: Option<Row>, now: int): Row {
    if row.None? then Row(1, 0, now, now, None)
    else
      var r := row.value;
      if Lapsed(policy, r, now) then r.(failureCount := 1, firstFailureAt := now, lastFailureAt := now)
      else if !Trips(policy, row, now) then r.(failureCount := r.failureCount + 1, lastFailureAt := now)
      else Row(0, r.lockoutCount + 1, now, now, Some(now + WholeSeconds(Backoff(policy, r.lockoutCount))))
  }

  function Cleared(r: Row): Row { r.(failureCount := 0, lockoutCount := 0, lockedUntil := None) }

  // ---------------------------------------------------------------- the table

  /** The account_lockouts table with the statements the engine runs on it. */
  class LockoutTable {
    var rows: map<Key, Row>

    function Get(key: Key): Option<Row>
      reads this
    {
      if key in rows then Some(rows[key]) else None
    }

    constructor ()
      ensures rows == map[]
    {
      rows := map[];
    }

    /** The wait in whole seconds while either key is locked; `later` is the clock when the wait is computed. */
    method CheckLockout(accountKey: Key, ipKey: Key, now: int, later: int) returns (retryAfter: Option<nat>)
      requires now <= later
      ensures retryAfter.None? <==> !Locked(Get(accountKey), now) && !Locked(Get(ipKey), now)
      ensures retryAfter.None? <==> forall k :: (k == accountKey || k == ipKey) && k in rows && rows[k].lockedUntil.Some? ==>
                                      rows[k].lockedUntil.value <= now
      ensures retryAfter.Some? ==>
                && retryAfter.value >= 1
                && !Locked(Get(accountKey), later + retryAfter.value * SECOND)
                && !Locked(Get(ipKey), later + retryAfter.value * SECOND)
                && (retryAfter.value == 1
                    || Locked(Get(accountKey), later + (retryAfter.value - 1) * SECOND)
                    || Locked(Get(ipKey), later + (retryAfter.value - 1) * SECOND))
    {
      var keys := [accountKey, ipKey];
      var longest: Option<int> := None;
      for i := 0 to 2
        invariant longest.None? <==> forall j :: 0 <= j < i ==> !Locked(Get(keys[j]), now)
        invariant longest.Some? ==> exists j :: 0 <= j < i && Locked(Get(keys[j]), now)
                                                && rows[keys[j]].lockedUntil == longest
        invariant longest.Some? ==> forall j :: 0 <= j < i && Locked(Get(keys[j]), now) ==>
                                                rows[keys[j]].lockedUntil.value <= longest.value
      {
        if Locked(Get(keys[i]), now) {
          var until := rows[keys[i]].lockedUntil;
          if longest.None? || until.value > longest.value {
            longest := until;
          }
        }
      }
      if longest.None? {
        assert !Locked(Get(keys[0]), now) && !Locked(Get(keys[1]), now);
        return None;
      }
      var left := longest.value - later;
      var seconds := if left <= 0 then 1 else (left + SECOND - 1) / SECOND;
      if seconds < 1 {
        seconds := 1;
      }
      forall j | 0 <= j < 2 ensures !Locked(Get(keys[j]), later + seconds * SECOND) {
        if Locked(Get(keys[j]), now) {
          assert rows[keys[j]].lockedUntil.value <= longest.value;
        }
      }
      assert !Locked(Get(keys[0]), later + seconds * SECOND) && !Locked(Get(keys[1]), later + seconds * SECOND);
      return Some(seconds);
    }

    method RecordFailureFor(policy: Policy, key: Key, now: int)
      modifies this
      ensures rows == old(rows)[key := Recorded(EffectivePolicy(policy), old(Get(key)), now)]
      ensures key !in old(rows) ==> rows[key] == Row(1, 0, now, now, None)
      ensures key in old(rows) ==>
                var p := if policy.maxFailures >= 1 then policy else Policy(5, 10 * MINUTE, 5 * MINUTE, 60 * MINUTE);
                var r := old(rows)[key];
                rows[key] ==
                  if now - r.firstFailureAt > p.window then r.(failureCount := 1, firstFailureAt := now, lastFailureAt := now)
                  else if r.failureCount + 1 < p.maxFailures then r.(failureCount := r.failureCount + 1, lastFailureAt := now)
                  else Row(0, r.lockoutCount + 1, now, now, Some(now + Backoff(p, r.lockoutCount) / SECOND * SECOND))
    {
      var p := if policy.maxFailures <= 0 then DEFAULT_POLICY else policy;
      if key !in rows {
        rows := rows[key := Row(1, 0, now, now, None)];
        return;
      }
      var row := rows[key];
      if now - row.firstFailureAt > p.window {
        rows := rows[key := row.(failureCount := 1, firstFailureAt := now, lastFailureAt := now)];
        return;
      }
      var failureCount := row.failureCount + 1;
      if failureCount < p.maxFailures {
        rows := rows[key := row.(failureCount := failureCount, lastFailureAt := now)];
        return;
      }
      var seconds := Backoff(p, row.lockoutCount) / SECOND;
      rows := rows[key := Row(0, row.lockoutCount + 1, now, now, Some(now + seconds * SECOND))];
    }

    /** Both counters of one attempt, in whichever order the scopes are visited; an empty key is skipped. */
    method RecordFailure(policy: Policy, accountKey: Key, ipKey: Key, ipFirst: bool, now: int)
      requires accountKey.scope == Account && ipKey.scope == Ip
      modifies this
      ensures forall k :: k in rows <==>
                k in old(rows) || (k == accountKey && k.subject != "") || (k == ipKey && k.subject != "")
      ensures forall k :: k in rows ==>
                rows[k] == if (k == accountKey || k == ipKey) && k.subject != ""
                           then Recorded(EffectivePolicy(policy), old(Get(k)), now)
                           else old(rows)[k]
    {
      var first, second := accountKey, ipKey;
      if ipFirst {
        first, second := ipKey, accountKey;
      }
      if first.subject != "" {
        RecordFailureFor(policy, first, now);
      }
      if second.subject != "" {
        RecordFailureFor(policy, second, now);
      }
    }

    method ClearFailures(accountKey: Key, ipKey: Key)
      modifies this
      ensures rows.Keys == old(rows).Keys
      ensures forall k :: k in rows ==>
                rows[k] == if k == accountKey || k == ipKey then Cleared(old(rows)[k]) else old(rows)[k]
      ensures forall k :: k in rows && (k == accountKey || k == ipKey) ==>
                rows[k] == old(rows)[k].(failureCount := 0, lockoutCount := 0, lockedUntil := None)
    {
      rows := map k | k in rows :: if k == accountKey || k == ipKey then Cleared(rows[k]) else rows[k];
    }
  }

  // ---------------------------------------------------------------- runs of one counter

  /** What happens to one key: a failure whose lock check ran at `checkedAt`, or a clear after success. */
  datatype Event = Fail(checkedAt: int, at: int) | Clear(at: int)

  function Apply(policy: Policy, row: Option<Row>, e: Event): Option<Row> {
    match e
    case Fail(_, at) => Some(Recorded(policy, row, at))
    case Clear(_) => if row.None? then None else Some(Cleared(row.value))
  }

  /** The row after a run that starts from an empty table. */
  function After(policy: Policy, es: seq<Event>): Option<Row> {
    if es == [] then None else Apply(policy, After(policy, es[..|es| - 1]), es[|es| - 1])
  }

  /** Sequential attempts on a monotone clock: each failure passed its lock check after the previous event. */
  ghost predicate IsRun(policy: Policy, es: seq<Event>) {
    forall j :: 0 <= j < |es| ==> Follows(policy, es, j)
  }

  ghost predicate Follows(policy: Policy, es: seq<Event>, j: nat)
    requires j < |es|
  {
    && (es[j].Fail? ==>
          && es[j].checkedAt <= es[j].at
          && !Locked(After(policy, es[..j]), es[j].checkedAt)
          && (j > 0 ==> es[j - 1].at <= es[j].checkedAt))
    && (j > 0 ==> es[j - 1].at <= es[j].at)
  }

  ghost predicate LocksAt(policy: Policy, es: seq<Event>, j: nat)
    requires j < |es|
  {
    es[j].Fail? && Trips(policy, After(policy, es[..j]), es[j].at)
  }

  lemma AfterStep(policy: Policy, es: seq<Event>, j: nat)
    requires j < |es|
    ensures After(policy, es[..j + 1]) == Apply(policy, After(policy, es[..j]), es[j])
  {
    assert es[..j + 1][..j] == es[..j];
  }

  lemma {:induction false} TimesMonotone(policy: Policy, es: seq<Event>, i: nat, j: nat)
    requires IsRun(policy, es) && i <= j < |es|
    ensures es[i].at <= es[j].at
  {
    if i < j {
      TimesMonotone(policy, es, i, j - 1);
      assert Follows(policy, es, j);
    }
  }

  /** Consecutive failures, none of them a clear, all inside [a, b). */
  ghost predicate Burst(policy: Policy, es: seq<Event>, i: nat, j: nat, a: int, b: int) {
    && i <= j <= |es|
    && forall k :: i <= k < j ==> es[k].Fail? && a <= es[k].at < b
  }

  /** The largest number of failures a lock-free burst can hold. */
  function QuietBound(m: nat): nat
    requires m >= 1
  {
    m - 1 + (if m == 1 then 1 else m - 1)
  }

  /**
   * Where a lock-free burst stands: either the counter has only been incremented since the burst began,
   * or it restarted inside the burst after at most M - 1 increments.
   */
  ghost predicate BurstShape(policy: Policy, es: seq<Event>, i: nat, j: nat, a: int)
    requires i <= j <= |es| && policy.maxFailures >= 1
  {
    var start, row, n := After(policy, es[..i]), After(policy, es[..j]), j - i;
    || n == 0
    || (row.Some? && start.Some? && row.value.failureCount == start.value.failureCount + n
        && row.value.failureCount <= policy.maxFailures - 1)
    || (row.Some? && row.value.firstFailureAt >= a && n <= policy.maxFailures - 1 + row.value.failureCount
        && row.value.failureCount <= (if policy.maxFailures == 1 then 1 else policy.maxFailures - 1))
  }

  lemma {:induction false} QuietBurst(policy: Policy, es: seq<Event>, i: nat, j: nat, a: int, b: int)
    requires IsRun(policy, es) && policy.maxFailures >= 1 && b - a <= policy.window
    requires Burst(policy, es, i, j, a, b)
    requires forall k :: i <= k < j ==> !LocksAt(policy, es, k)
    ensures BurstShape(policy, es, i, j, a)
  {
    if i < j {
      assert Burst(policy, es, i, j - 1, a, b);
      QuietBurst(policy, es, i, j - 1, a, b);
      assert !LocksAt(policy, es, j - 1);
      AfterStep(policy, es, j - 1);
    }
  }

  /** Every lock of the policy lasts at least `d`. */
  ghost predicate LocksLast(policy: Policy, d: int) {
    forall prior: nat :: WholeSeconds(Backoff(policy, prior)) >= d
  }

  /** No failure is recorded while a lock holds. */
  lemma NextFailureWaits(policy: Policy, es: seq<Event>, k: nat, d: int)
    requires IsRun(policy, es) && policy.maxFailures >= 1 && LocksLast(policy, d)
    requires k + 1 < |es| && LocksAt(policy, es, k) && es[k + 1].Fail?
    ensures es[k + 1].at >= es[k].at + d
  {
    AfterStep(policy, es, k);
    assert WholeSeconds(Backoff(policy, After(policy, es[..k]).value.lockoutCount)) >= d;
    assert Follows(policy, es, k + 1);
  }

  /** A lock ends the burst it falls in, because the burst is no longer than the shortest lock. */
  lemma LockIsLast(policy: Policy, es: seq<Event>, i: nat, j: nat, k: nat, a: int, b: int)
    requires IsRun(policy, es) && policy.maxFailures >= 1 && LocksLast(policy, b - a)
    requires Burst(policy, es, i, j, a, b) && i <= k < j && LocksAt(policy, es, k)
    ensures k == j - 1
  {
    if k + 1 < j {
      NextFailureWaits(policy, es, k, b - a);
    }
  }

  /**
   * The rate bound, for every policy and every run of one key: a half-open interval no longer than the window
   * and the shortest lock holds at most 2M - 1 recorded failures (two when M = 1) if none of them is followed
   * by a clear inside it; at most 2(M - 1) of them (one when M = 1) if no lock falls in it; and a lock is last.
   */
  lemma RateBound(policy: Policy, es: seq<Event>, i: nat, j: nat, a: int, b: int)
    requires IsRun(policy, es) && policy.maxFailures >= 1
    requires b - a <= policy.window && LocksLast(policy, b - a)
    requires Burst(policy, es, i, j, a, b)
    ensures j - i <= QuietBound(policy.maxFailures) + 1
    ensures policy.maxFailures >= 2 ==> j - i <= 2 * policy.maxFailures - 1
    ensures (forall k :: i <= k < j ==> !LocksAt(policy, es, k)) ==> j - i <= QuietBound(policy.maxFailures)
    ensures forall k :: i <= k < j && LocksAt(policy, es, k) ==> k == j - 1
  {
    forall k | i <= k < j && LocksAt(policy, es, k) ensures k == j - 1 {
      LockIsLast(policy, es, i, j, k, a, b);
    }
    if i < j {
      QuietBurst(policy, es, i, j - 1, a, b);
      if !LocksAt(policy, es, j - 1) {
        QuietBurst(policy, es, i, j, a, b);
      }
    }
  }

  /** Where overflow is caught, the shortest lock is the smaller of base and cap in whole seconds. */
  lemma ShortestLock(policy: Policy)
    requires InInt64(policy) && CapsCorrectly(policy)
    ensures forall d :: LocksLast(policy, d) <==> d <= WholeSeconds(Min(BaseOf(policy), MaxOf(policy)))
  {
    var shortest := Min(BaseOf(policy), MaxOf(policy));
    forall prior: nat ensures WholeSeconds(Backoff(policy, prior)) >= WholeSeconds(shortest) {
      BackoffIsCappedDoubling(policy, prior);
    }
    BackoffIsCappedDoubling(policy, 0);
    assert Pow2(0) == 1 && Backoff(policy, 0) == shortest;
  }

  // ---------------------------------------------------------------- escalation

  /** Locks tripped since the last clear. */
  ghost function LocksSinceClear(policy: Policy, es: seq<Event>): nat {
    if es == [] then 0
    else
      var n := |es| - 1;
      if es[n].Clear? then 0
      else LocksSinceClear(policy, es[..n]) + (if Trips(policy, After(policy, es[..n]), es[n].at) then 1 else 0)
  }

  lemma {:induction false} LockoutCountIsLocksSinceClear(policy: Policy, es: seq<Event>)
    ensures var row := After(policy, es);
            LocksSinceClear(policy, es) == if row.None? then 0 else row.value.lockoutCount
  {
    if es != [] {
      LockoutCountIsLocksSinceClear(policy, es[..|es| - 1]);
    }
  }

  /**
   * The k-th lock since the last clear lasts the whole seconds of its duration, which is the base times
   * 2^(k-1), the exponent stopping at 16, then capped, if and only if overflow is caught there.
   */
  lemma KthLockDuration(policy: Policy, es: seq<Event>, j: nat)
    requires InInt64(policy) && j < |es| && LocksAt(policy, es, j)
    ensures var k := LocksSinceClear(policy, es[..j + 1]);
            && k >= 1
            && After(policy, es[..j + 1]).Some?
            && After(policy, es[..j + 1]).value.lockedUntil == Some(es[j].at + WholeSeconds(Backoff(policy, k - 1)))
            && (Backoff(policy, k - 1) == CappedDoubling(policy, k - 1) <==> CapsAt(policy, Min(k - 1, 16)))
  {
    assert es[..j + 1][..j] == es[..j];
    LockoutCountIsLocksSinceClear(policy, es[..j]);
    BackoffIsCappedDoublingIff(policy, LocksSinceClear(policy, es[..j]));
  }

  // ---------------------------------------------------------------- M failures within one window

  ghost predicate Ascending(ts: seq<int>) { forall i, j :: 0 <= i <= j < |ts| ==> ts[i] <= ts[j] }

  /** The row after recording failures at the given times. */
  ghost function RecordedAll(policy: Policy, row: Option<Row>, ts: seq<int>): Option<Row> {
    if ts == [] then row
    else Some(Recorded(policy, RecordedAll(policy, row, ts[..|ts| - 1]), ts[|ts| - 1]))
  }

  ghost predicate TripsAt(policy: Policy, row: Option<Row>, ts: seq<int>, n: nat)
    requires n < |ts|
  {
    Trips(policy, RecordedAll(policy, row, ts[..n]), ts[n])
  }

  ghost predicate SomeTrip(policy: Policy, row: Option<Row>, ts: seq<int>) {
    exists n: nat :: n < |ts| && TripsAt(policy, row, ts, n)
  }

  lemma RecordedAllStep(policy: Policy, row: Option<Row>, ts: seq<int>, n: nat)
    requires n < |ts|
    ensures RecordedAll(policy, row, ts[..n + 1]) == Some(Recorded(policy, RecordedAll(policy, row, ts[..n]), ts[n]))
  {
    assert ts[..n + 1][..n] == ts[..n];
  }

  /** While the stored window lasts and the threshold is not reached, failures only add up. */
  lemma {:induction false} Accumulates(policy: Policy, row: Option<Row>, ts: seq<int>, n: nat)
    requires row.Some? && n <= |ts|
    requires forall k :: 0 <= k < n ==> !Lapsed(policy, row.value, ts[k])
    requires row.value.failureCount + n < policy.maxFailures
    ensures RecordedAll(policy, row, ts[..n]).Some?
    ensures RecordedAll(policy, row, ts[..n]).value.failureCount == row.value.failureCount + n
    ensures RecordedAll(policy, row, ts[..n]).value.firstFailureAt == row.value.firstFailureAt
    ensures forall k :: 0 <= k < n ==> !TripsAt(policy, row, ts, k)
  {
    if n > 0 {
      Accumulates(policy, row, ts, n - 1);
      RecordedAllStep(policy, row, ts, n - 1);
    } else {
      assert ts[..0] == [];
    }
  }

  /** After a (re)start at position s, the count is the number of failures since, as long as it stays below M. */
  lemma {:induction false} CountsFromRestart(policy: Policy, row: Option<Row>, ts: seq<int>, s: nat, n: nat)
    requires policy.maxFailures >= 2 && Ascending(ts) && s < n <= |ts|
    requires RecordedAll(policy, row, ts[..s]).Some? ==> Lapsed(policy, RecordedAll(policy, row, ts[..s]).value, ts[s])
    requires ts[n - 1] - ts[s] <= policy.window && n - s < policy.maxFailures
    ensures RecordedAll(policy, row, ts[..n]).Some?
    ensures RecordedAll(policy, row, ts[..n]).value.failureCount == n - s
    ensures RecordedAll(policy, row, ts[..n]).value.firstFailureAt == ts[s]
    ensures forall k :: s <= k < n ==> !TripsAt(policy, row, ts, k)
  {
    RecordedAllStep(policy, row, ts, n - 1);
    if n > s + 1 {
      CountsFromRestart(policy, row, ts, s, n - 1);
    }
  }

  /**
   * M failures inside one window do not always lock: the window is anchored at the stored first failure.
   * With `c` failures already counted, they lock exactly when there is no row yet, or the stored window has
   * lapsed before the first of them, or it still covers the (M - c)-th of them.
   */
  lemma WhenMFailuresLock(policy: Policy, row: Option<Row>, ts: seq<int>)
    requires policy.maxFailures >= 2 && |ts| == policy.maxFailures && Ascending(ts)
    requires ts[|ts| - 1] - ts[0] <= policy.window
    requires row.Some? ==> row.value.failureCount < policy.maxFailures
    ensures SomeTrip(policy, row, ts) <==>
            || row.None?
            || Lapsed(policy, row.value, ts[0])
            || !Lapsed(policy, row.value, ts[policy.maxFailures - row.value.failureCount - 1])
  {
    var m := policy.maxFailures;
    assert ts[..0] == [];
    if row.None? || Lapsed(policy, row.value, ts[0]) {
      CountsFromRestart(policy, row, ts, 0, m - 1);
      assert TripsAt(policy, row, ts, m - 1);
    } else {
      var c := row.value.failureCount;
      var last: nat := m - c - 1;
      if !Lapsed(policy, row.value, ts[last]) {
        Accumulates(policy, row, ts, last);
        assert TripsAt(policy, row, ts, last);
      } else {
        var s := FirstLapse(policy, row.value, ts, last);
        Accumulates(policy, row, ts, s);
        CountsFromRestart(policy, row, ts, s, m);
        assert forall k: nat :: k < m ==> !TripsAt(policy, row, ts, k);
      }
    }
  }

  /** The first failure after the stored window. */
  lemma FirstLapse(policy: Policy, row: Row, ts: seq<int>, last: nat) returns (s: nat)
    requires last < |ts| && !Lapsed(policy, row, ts[0]) && Lapsed(policy, row, ts[last])
    ensures 0 < s <= last && Lapsed(policy, row, ts[s])
    ensures forall k :: 0 <= k < s ==> !Lapsed(policy, row, ts[k])
  {
    s := 1;
    while !Lapsed(policy, row, ts[s])
      invariant 1 <= s <= last
      invariant forall k :: 0 <= k < s ==> !Lapsed(policy, row, ts[k])
      decreases last - s
    {
      s := s + 1;
    }
  }

  lemma {:induction false} FreshCounts(policy: Policy, ts: seq<int>, n: nat)
    requires Ascending(ts) && 1 <= n <= |ts| && n < policy.maxFailures && ts[n - 1] - ts[0] <= policy.window
    ensures RecordedAll(policy, None, ts[..n]) == Some(Row(n, 0, ts[0], ts[n - 1], None))
  {
    RecordedAllStep(policy, None, ts, n - 1);
    if n > 1 {
      FreshCounts(policy, ts, n - 1);
    } else {
      assert ts[..0] == [];
    }
  }

  /**
   * The threshold that counts is the configured one, or five in ten minutes where that is not positive: from a key
   * without a row, M failures inside the window lock it for the first time, and no fewer do.
   */
  lemma ConfiguredThresholdLocks(policy: Policy, ts: seq<int>, n: nat)
    requires var m := if policy.maxFailures >= 1 then policy.maxFailures else 5;
             var window := if policy.maxFailures >= 1 then policy.window else 10 * MINUTE;
             m >= 2 && |ts| == m && Ascending(ts) && ts[m - 1] - ts[0] <= window && 1 <= n <= m
    ensures var p := EffectivePolicy(policy);
            RecordedAll(p, None, ts[..n]) ==
              if n < |ts| then Some(Row(n, 0, ts[0], ts[n - 1], None))
              else Some(Row(0, 1, ts[n - 1], ts[n - 1], Some(ts[n - 1] + WholeSeconds(Backoff(p, 0)))))
  {
    var p := EffectivePolicy(policy);
    if n < |ts| {
      FreshCounts(p, ts, n);
    } else {
      FreshCounts(p, ts, n - 1);
      RecordedAllStep(p, None, ts, n - 1);
    }
  }

  /** With a threshold of one, the first failure of a key and the first after its window are not locked; the others are. */
  lemma ThresholdOneLocks(policy: Policy, row: Option<Row>, at: int)
    requires policy.maxFailures == 1
    ensures SomeTrip(policy, row, [at]) <==> row.Some? && !Lapsed(policy, row.value, at)
  {
    assert [at][..0] == [];
    assert TripsAt(policy, row, [at], 0) <==> Trips(policy, row, at);
  }

  /** A row that is not locked stays so while nothing trips. */
  lemma {:induction false} NoTripNoLock(policy: Policy, row: Option<Row>, ts: seq<int>, n: nat)
    requires n <= |ts| && (row.Some? ==> row.value.lockedUntil.None?)
    requires forall k: nat :: k < n ==> !TripsAt(policy, row, ts, k)
    ensures var r := RecordedAll(policy, row, ts[..n]); r.Some? ==> r.value.lockedUntil.None?
  {
    if n > 0 {
      NoTripNoLock(policy, row, ts, n - 1);
      RecordedAllStep(policy, row, ts, n - 1);
      assert !TripsAt(policy, row, ts, n - 1);
    } else {
      assert ts[..0] == [];
    }
  }

  /** Failures one after the other, each checked when it happens. */
  function Fails(ts: seq<int>): (es: seq<Event>)
    ensures |es| == |ts| && forall k :: 0 <= k < |ts| ==> es[k] == Fail(ts[k], ts[k])
  {
    seq(|ts|, k requires 0 <= k < |ts| => Fail(ts[k], ts[k]))
  }

  lemma {:induction false} AfterFails(policy: Policy, es: seq<Event>, ts: seq<int>, n: nat)
    requires n <= |ts|
    ensures After(policy, es + Fails(ts)[..n]) == RecordedAll(policy, After(policy, es), ts[..n])
  {
    var all := es + Fails(ts);
    if n > 0 {
      AfterFails(policy, es, ts, n - 1);
      RecordedAllStep(policy, After(policy, es), ts, n - 1);
      assert (es + Fails(ts)[..n])[..|es| + n - 1] == es + Fails(ts)[..n - 1];
      assert (es + Fails(ts)[..n])[|es| + n - 1] == Fails(ts)[n - 1];
    } else {
      assert es + Fails(ts)[..0] == es && ts[..0] == [];
    }
  }

  /** `n` failures at the end of the stored window, then as many and one more just after it. */
  function Straddling(policy: Policy): (ts: seq<int>)
    requires policy.maxFailures >= 1
    ensures |ts| == QuietBound(policy.maxFailures) + 1
    ensures forall k :: 0 <= k < |ts| ==> ts[k] == if k < policy.maxFailures - 1 then policy.window else policy.window + 1
  {
    seq(QuietBound(policy.maxFailures) + 1, k => if k < policy.maxFailures - 1 then policy.window else policy.window + 1)
  }

  function AttainingRun(policy: Policy): seq<Event>
    requires policy.maxFailures >= 1
  {
    [Fail(0, 0), Clear(0)] + Fails(Straddling(policy))
  }

  lemma StraddlingCounts(policy: Policy)
    requires policy.maxFailures >= 1 && policy.window >= 0
    ensures var ts, row := Straddling(policy), Some(Cleared(Recorded(policy, None, 0)));
            && (forall k: nat :: k < |ts| - 1 ==> !TripsAt(policy, row, ts, k))
            && TripsAt(policy, row, ts, |ts| - 1)
  {
    var m := policy.maxFailures;
    var ts, row := Straddling(policy), Some(Cleared(Recorded(policy, None, 0)));
    Accumulates(policy, row, ts, m - 1);
    if m == 1 {
      assert ts[..0] == [];
      RecordedAllStep(policy, row, ts, 0);
    } else {
      CountsFromRestart(policy, row, ts, m - 1, 2 * m - 2);
    }
  }

  lemma StartOfAttainingRun(policy: Policy)
    ensures After(policy, [Fail(0, 0), Clear(0)]) == Some(Cleared(Recorded(policy, None, 0)))
    ensures After(policy, [Fail(0, 0)]) == Some(Recorded(policy, None, 0))
  {
    var one, two := [Fail(0, 0)], [Fail(0, 0), Clear(0)];
    assert one[..0] == [] && After(policy, one[..0]) == None;
    assert After(policy, one) == Apply(policy, None, one[0]);
    assert two[..1] == one;
  }

  lemma AttainingPrefix(policy: Policy, n: nat)
    requires policy.maxFailures >= 1 && policy.window >= 0 && n < |Straddling(policy)|
    ensures var es, ts, row := AttainingRun(policy), Straddling(policy), Some(Cleared(Recorded(policy, None, 0)));
            && After(policy, es[..n + 2]) == RecordedAll(policy, row, ts[..n])
            && es[n + 2] == Fail(ts[n], ts[n])
            && (LocksAt(policy, es, n + 2) <==> n == |ts| - 1)
            && !Locked(After(policy, es[..n + 2]), ts[n])
  {
    var start, ts := [Fail(0, 0), Clear(0)], Straddling(policy);
    var es, row := start + Fails(ts), Some(Cleared(Recorded(policy, None, 0)));
    StartOfAttainingRun(policy);
    assert es[..n + 2] == start + Fails(ts)[..n];
    AfterFails(policy, start, ts, n);
    StraddlingCounts(policy);
    assert LocksAt(policy, es, n + 2) <==> TripsAt(policy, row, ts, n);
    NoTripNoLock(policy, row, ts, n);
  }

  lemma AttainingAt(policy: Policy, j: nat)
    requires policy.maxFailures >= 1 && policy.window >= 0 && j < |AttainingRun(policy)|
    ensures var es := AttainingRun(policy);
            && Follows(policy, es, j)
            && (j >= 2 ==> es[j].Fail? && policy.window <= es[j].at < policy.window + 2
                           && (LocksAt(policy, es, j) <==> j == |es| - 1))
  {
    var es := AttainingRun(policy);
    StartOfAttainingRun(policy);
    if j >= 2 {
      AttainingPrefix(policy, j - 2);
      if j > 2 {
        AttainingPrefix(policy, j - 3);
      }
    } else {
      assert es[..j] == [Fail(0, 0), Clear(0)][..j];
      assert [Fail(0, 0), Clear(0)][..1] == [Fail(0, 0)] && [Fail(0, 0), Clear(0)][..0] == [];
    }
  }

  /**
   * The bounds are attained for every threshold, on a run with its lock checks: within two nanoseconds, at the
   * two sides of the stored window's end, 2M - 1 failures (two when M = 1) are recorded and only the last locks.
   */
  lemma RateBoundIsAttained(policy: Policy)
    requires policy.maxFailures >= 1 && policy.window >= 0
    ensures var es := AttainingRun(policy);
            var m, a, b := policy.maxFailures, policy.window, policy.window + 2;
            && IsRun(policy, es) && Burst(policy, es, 2, |es|, a, b)
            && |es| - 2 == QuietBound(m) + 1 && (m >= 2 ==> |es| - 2 == 2 * m - 1)
            && forall k :: 2 <= k < |es| ==> (LocksAt(policy, es, k) <==> k == |es| - 1)
  {
    forall j | 0 <= j < |AttainingRun(policy)|
      ensures Follows(policy, AttainingRun(policy), j)
      ensures j >= 2 ==> AttainingRun(policy)[j].Fail? && policy.window <= AttainingRun(policy)[j].at < policy.window + 2
      ensures j >= 2 ==> (LocksAt(policy, AttainingRun(policy), j) <==> j == |AttainingRun(policy)| - 1)
    {
      AttainingAt(policy, j);
    }
  }
}
