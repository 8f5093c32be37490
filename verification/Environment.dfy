/** The policies in force, read from the settings (internal/api/env.go). */
module Environment {
  import opened Arith
  import opened Time
  import opened Wrappers
  import opened Settings
  import S = Sessions
  import L = Lockout
  import Challenges

  function Whole(values: Values, key: string): int { ToInt(Looked(values, key)) }

  function SessionPolicyOf(values: Values): S.Policy {
    S.Policy(Whole(values, "sessionAbsoluteDays"), Whole(values, "sessionTimeoutMinutes"),
             Whole(values, "sessionRenewWithinDays"))
  }

  /** The default policy with the threshold and the window replaced where the settings are positive. */
  function LockoutPolicyOf(values: Values): L.Policy {
    var p := L.DEFAULT_POLICY;
    var max, minutes := Whole(values, "maxFailedLogins"), Whole(values, "lockoutWindowMinutes");
    var q := if max > 0 then p.(maxFailures := max) else p;
    if minutes > 0 then q.(window := minutes * MINUTE) else q
  }

  class Env {
    const store: Store

    constructor (store: Store)
      ensures this.store == store
    {
      this.store := store;
    }

    /** Three reads of the store, which agree: they see the cache, or one answer of the query, or the defaults. */
    method SessionPolicy(now: int, fetched: Option<seq<Row>>, ghost table: Table, storedAt: int) returns (policy: S.Policy)
      requires store.Valid() && (fetched.Some? ==> Lists(fetched.value, table))
      modifies store
      ensures store.Valid()
      ensures policy == SessionPolicyOf(if old(store.Fresh(now)) then old(store.cached.m)
                                        else if fetched.Some? then Effective(table) else DEFAULTS)
    {
      var days := store.Int("sessionAbsoluteDays", now, fetched, table, storedAt);
      var minutes := store.Int("sessionTimeoutMinutes", now, fetched, table, storedAt);
      var renew := store.Int("sessionRenewWithinDays", now, fetched, table, storedAt);
      return S.Policy(days, minutes, renew);
    }

    method LockoutPolicy(now: int, fetched: Option<seq<Row>>, ghost table: Table, storedAt: int) returns (policy: L.Policy)
      requires store.Valid() && (fetched.Some? ==> Lists(fetched.value, table))
      modifies store
      ensures store.Valid()
      ensures policy == LockoutPolicyOf(if old(store.Fresh(now)) then old(store.cached.m)
                                        else if fetched.Some? then Effective(table) else DEFAULTS)
    {
      policy := L.DEFAULT_POLICY;
      var max := store.Int("maxFailedLogins", now, fetched, table, storedAt);
      if max > 0 {
        policy := policy.(maxFailures := max);
      }
      var minutes := store.Int("lockoutWindowMinutes", now, fetched, table, storedAt);
      if minutes > 0 {
        policy := policy.(window := minutes * MINUTE);
      }
    }

    method RequiresMFA(plane: Challenges.Plane, now: int, fetched: Option<seq<Row>>, ghost table: Table, storedAt: int)
      returns (required: bool)
      requires store.Valid() && (fetched.Some? ==> Lists(fetched.value, table))
      modifies store
      ensures store.Valid()
      ensures var values := if old(store.Fresh(now)) then old(store.cached.m)
                            else if fetched.Some? then Effective(table) else DEFAULTS;
              required <==> Looked(values, if plane == Challenges.Admin then "requireMfaAdmin" else "requireMfaCustomer")
                            == Some(Boolean(true))
    {
      if plane == Challenges.Admin {
        required := store.Bool("requireMfaAdmin", now, fetched, table, storedAt);
      } else {
        required := store.Bool("requireMfaCustomer", now, fetched, table, storedAt);
      }
    }
  }

  /** The table once a whole number has been accepted for a setting. */
  function With(table: Table, key: string, k: int): Table { table[key := Some(Number(k as real))] }

  lemma Reads(table: Table, key: string, k: int, other: string)
    requires key in DEFAULTS
    ensures Whole(Effective(With(table, key, k)), other) == if other == key then k else Whole(Effective(table), other)
  {
    SetIsEffective(table, key, Number(k as real), k, false);
  }

  lemma AllReads(table: Table, k: int)
    ensures forall key, other :: key in DEFAULTS ==>
              Whole(Effective(With(table, key, k)), other) == if other == key then k else Whole(Effective(table), other)
  {
    forall key, other | key in DEFAULTS
      ensures Whole(Effective(With(table, key, k)), other) == if other == key then k else Whole(Effective(table), other)
    {
      Reads(table, key, k, other);
    }
  }

  /** Each session setting moves its own field of the policy and nothing else. */
  lemma SessionSettingsAreEffective(table: Table, k: int)
    ensures var p := SessionPolicyOf(Effective(table));
            && SessionPolicyOf(Effective(With(table, "sessionAbsoluteDays", k))) == p.(absoluteDays := k)
            && SessionPolicyOf(Effective(With(table, "sessionTimeoutMinutes", k))) == p.(idleMinutes := k)
            && SessionPolicyOf(Effective(With(table, "sessionRenewWithinDays", k))) == p.(renewWithinDays := k)
  {
    AllReads(table, k);
  }

  /** So do the lockout settings, where they are positive; otherwise the default stands. */
  lemma LockoutSettingsAreEffective(table: Table, k: int)
    ensures var p := LockoutPolicyOf(Effective(table));
            && LockoutPolicyOf(Effective(With(table, "maxFailedLogins", k))) == p.(maxFailures := if k > 0 then k else 5)
            && LockoutPolicyOf(Effective(With(table, "lockoutWindowMinutes", k)))
                 == p.(window := (if k > 0 then k else 10) * MINUTE)
            && p.maxFailures >= 1 && p.baseDuration == 5 * MINUTE && p.maxDuration == 60 * MINUTE
  {
    AllReads(table, k);
  }

  lemma Defaults()
    ensures SessionPolicyOf(DEFAULTS) == S.Policy(30, 30, 7)
    ensures LockoutPolicyOf(DEFAULTS) == L.Policy(5, 10 * MINUTE, 5 * MINUTE, 60 * MINUTE)
  {
  }

  /**
   * A threshold accepted as a setting is the one that locks: k failures of a key without a row, inside the window in
   * force, leave it locked for five minutes after the last, and fewer do not lock it.
   */
  lemma AcceptedThresholdLocks(table: Table, k: int, ts: seq<int>, n: nat)
    requires k >= 2 && |ts| == k && L.Ascending(ts) && 1 <= n <= k
    requires ts[k - 1] - ts[0] <= LockoutPolicyOf(Effective(table)).window
    ensures var p := LockoutPolicyOf(Effective(With(table, "maxFailedLogins", k)));
            var row := L.RecordedAll(L.EffectivePolicy(p), None, ts[..n]);
            && row.Some?
            && row.value.lockedUntil == if n == k then Some(ts[k - 1] + 5 * MINUTE) else None
  {
    var p := LockoutPolicyOf(Effective(With(table, "maxFailedLogins", k)));
    assert p.maxFailures == k && p.window == LockoutPolicyOf(Effective(table)).window
           && p.baseDuration == 5 * MINUTE && p.maxDuration == 60 * MINUTE by {
      LockoutSettingsAreEffective(table, k);
    }
    assert L.WholeSeconds(L.Backoff(p, 0)) == 5 * MINUTE by {
      FirstLock(p);
    }
    L.ConfiguredThresholdLocks(p, ts, n);
  }

  lemma FirstLock(p: L.Policy)
    requires p.baseDuration == 5 * MINUTE && p.maxDuration == 60 * MINUTE
    ensures L.WholeSeconds(L.Backoff(p, 0)) == 5 * MINUTE
  {
    L.BackoffIsCappedDoublingIff(p, 0);
    assert Pow2(0) == 1;
  }

  /**
   * An idle limit accepted as a setting is the one that ends sessions: whatever requests came before, a session last
   * used k minutes ago is rejected.
   */
  lemma AcceptedIdleLimitHolds(table: Table, k: int, row: S.Row, rs: seq<S.Request>, now: int)
    requires k >= 1 && S.Ordered(row, rs) && (if rs == [] then row.lastActivityAt else rs[|rs| - 1].at) <= now
    requires S.LastUse(row, rs) + k * MINUTE <= now
    ensures var p := SessionPolicyOf(Effective(With(table, "sessionTimeoutMinutes", k)));
            S.Verdict(S.RowAfter(row, rs), Some(S.Account(true)), p, now).Some?
  {
    SessionSettingsAreEffective(table, k);
    S.ThrottledRefinesIdeal(row, rs, SessionPolicyOf(Effective(With(table, "sessionTimeoutMinutes", k))), now);
  }
}
