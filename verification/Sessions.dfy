/** Session lifetimes: throttled activity, idle expiry and sliding renewal (internal/auth/session.go). */
module Sessions {
  import opened Time
  import opened Wrappers

  /** last_activity_at is written at most once per interval. */
  const TOUCH_INTERVAL: int := 60 * SECOND

  datatype Policy = Policy(absoluteDays: int, idleMinutes: int, renewWithinDays: int)

  const DEFAULT_ABSOLUTE_DAYS: int := 30

  datatype Row = Row(
    subject: nat,
    issuedAt: int,
    expiresAt: int,
    lastActivityAt: int,
    renewedAt: Option<int>,
    revokedAt: Option<int>)

  datatype AuthError = NoSession | SessionExpired | SessionIdle | AccountDisabled | GrantsUnavailable

  /** An account as the session join sees it: absent when it is deleted. */
  datatype Account = Account(active: bool)

  function Lifetime(policy: Policy): (d: int)
    ensures d >= DAY
  {
    (if policy.absoluteDays <= 0 then DEFAULT_ABSOLUTE_DAYS else policy.absoluteDays) * DAY
  }

  function IdleDeadline(lastActivityAt: int, policy: Policy): Option<int> {
    if policy.idleMinutes <= 0 then None else Some(lastActivityAt + policy.idleMinutes * MINUTE)
  }

  predicate IdleExpired(lastActivityAt: int, policy: Policy, now: int) {
    var deadline := IdleDeadline(lastActivityAt, policy);
    deadline.Some? && deadline.value <= now
  }

  function Issued(subject: nat, policy: Policy, now: int): Row {
    Row(subject, now, now + Lifetime(policy), now, None, None)
  }

  /** The checks of a lookup, in the program's order; `None` accepts. */
  function Verdict(row: Row, account: Option<Account>, policy: Policy, now: int): Option<AuthError> {
    if account.None? then Some(NoSession)
    else if row.revokedAt.Some? || row.expiresAt <= now then Some(SessionExpired)
    else if IdleExpired(row.lastActivityAt, policy, now) then Some(SessionIdle)
    else if !account.value.active then Some(AccountDisabled)
    else None
  }

  predicate Renews(expiresAt: int, policy: Policy, now: int) {
    policy.renewWithinDays > 0 && expiresAt - now < policy.renewWithinDays * DAY
  }

  /** The row a touch leaves, for a request that read `lastActivityAt` and `expiresAt` when it looked the session up. */
  function Touched(row: Row, lastActivityAt: int, expiresAt: int, policy: Policy, now: int): Row {
    if now - lastActivityAt < TOUCH_INTERVAL || row.revokedAt.Some? then row
    else if Renews(expiresAt, policy, now) then
      row.(lastActivityAt := now, expiresAt := now + Lifetime(policy), renewedAt := Some(now))
    else row.(lastActivityAt := now)
  }

  /** The sessions of the subject that are not revoked, but for the excepted one. */
  function LiveOf(rows: map<nat, Row>, subject: nat, except: Option<nat>): set<nat> {
    set id | id in rows && rows[id].subject == subject && rows[id].revokedAt.None? && except != Some(id)
  }

  /** Every live session of the subject ended, but for the excepted one. */
  function RevokedSessions(rows: map<nat, Row>, subject: nat, except: Option<nat>, now: int): map<nat, Row> {
    map id | id in rows ::
      if rows[id].subject == subject && rows[id].revokedAt.None? && except != Some(id)
      then rows[id].(revokedAt := Some(now)) else rows[id]
  }

  // ---------------------------------------------------------------- the table

  /** What a request carries after its lookup. */
  class Principal {
    var sessionId: nat
    var subject: nat
    var expiresAt: int
    var lastActivityAt: int
    var idleExpiresAt: Option<int>

    constructor (sessionId: nat, row: Row, policy: Policy)
      ensures this.sessionId == sessionId && subject == row.subject
      ensures expiresAt == row.expiresAt && lastActivityAt == row.lastActivityAt
      ensures idleExpiresAt == IdleDeadline(row.lastActivityAt, policy)
    {
      this.sessionId := sessionId;
      subject := row.subject;
      expiresAt := row.expiresAt;
      lastActivityAt := row.lastActivityAt;
      idleExpiresAt := IdleDeadline(row.lastActivityAt, policy);
    }
  }

  /** The sessions table of one plane; raw tokens are resolved to their unique row. */
  class SessionTable {
    var rows: map<nat, Row>
    var byToken: map<string, nat>
    var nextId: nat
    var accounts: map<nat, Account>

    ghost predicate Valid()
      reads this
    {
      && (forall t :: t in byToken ==> byToken[t] in rows)
      && (forall id :: id in rows ==> id < nextId)
    }

    constructor (accounts: map<nat, Account>)
      ensures Valid() && rows == map[] && byToken == map[] && this.accounts == accounts
    {
      rows := map[];
      byToken := map[];
      nextId := 0;
      this.accounts := accounts;
    }

    /** Fails when the token's digest is already present, as the UNIQUE constraint does. */
    method IssueSession(subject: nat, token: string, policy: Policy, now: int) returns (id: Option<nat>)
      requires Valid()
      modifies this`rows, this`byToken, this`nextId
      ensures Valid()
      ensures id.None? <==> token in old(byToken)
      ensures id.None? ==> rows == old(rows) && byToken == old(byToken)
      ensures id.Some? ==>
                && id.value !in old(rows) && byToken == old(byToken)[token := id.value]
                && rows == old(rows)[id.value := Issued(subject, policy, now)] && Fresh(rows[id.value], policy)
                && var days := if policy.absoluteDays >= 1 then policy.absoluteDays else 30;
                   rows[id.value] == Row(subject, now, now + days * DAY, now, None, None)
    {
      if token in byToken {
        return None;
      }
      var absoluteDays := policy.absoluteDays;
      if absoluteDays <= 0 {
        absoluteDays := DEFAULT_ABSOLUTE_DAYS;
      }
      rows := rows[nextId := Row(subject, now, now + absoluteDays * DAY, now, None, None)];
      byToken := byToken[token := nextId];
      id := Some(nextId);
      nextId := nextId + 1;
    }

    /** Ends one session; one that is over already keeps its time of death. */
    method RevokeSession(id: nat, now: int)
      requires Valid()
      modifies this`rows
      ensures Valid()
      ensures rows == if id in old(rows) && old(rows)[id].revokedAt.None?
                      then old(rows)[id := old(rows)[id].(revokedAt := Some(now))] else old(rows)
    {
      if id in rows && rows[id].revokedAt.None? {
        rows := rows[id := rows[id].(revokedAt := Some(now))];
      }
    }

    /** Returns how many sessions it ended. */
    method RevokeSessionsForSubject(subject: nat, except: Option<nat>, now: int) returns (count: nat)
      requires Valid()
      modifies this`rows
      ensures Valid()
      ensures rows == RevokedSessions(old(rows), subject, except, now)
      ensures count == |LiveOf(old(rows), subject, except)|
      ensures rows.Keys == old(rows).Keys && forall id :: id in rows ==>
                var live := old(rows)[id].subject == subject && old(rows)[id].revokedAt.None? && except != Some(id);
                && (id in LiveOf(old(rows), subject, except) <==> live)
                && rows[id] == if live then old(rows)[id].(revokedAt := Some(now)) else old(rows)[id]
    {
      var affected := set id | id in rows && rows[id].subject == subject && rows[id].revokedAt.None? && except != Some(id);
      assert affected == LiveOf(rows, subject, except);
      rows := map id | id in rows :: if id in affected then rows[id].(revokedAt := Some(now)) else rows[id];
      count := |affected|;
    }

    method LookupSession(token: string, policy: Policy, now: int) returns (r: Result<Principal, AuthError>)
      requires Valid()
      ensures r.Ok? ==>
                && fresh(r.value)
                && token != "" && token in byToken && r.value.sessionId == byToken[token]
                && var row := rows[byToken[token]];
                   && r.value.subject == row.subject
                   && r.value.expiresAt == row.expiresAt && r.value.lastActivityAt == row.lastActivityAt
                   && r.value.idleExpiresAt == if policy.idleMinutes <= 0 then None
                                               else Some(row.lastActivityAt + policy.idleMinutes * MINUTE)
      ensures token == "" || token !in byToken ==> r == Err(NoSession)
      ensures token != "" && token in byToken ==>
                var row := rows[byToken[token]];
                var idle := policy.idleMinutes > 0 && row.lastActivityAt + policy.idleMinutes * MINUTE <= now;
                && (r == Err(NoSession) <==> row.subject !in accounts)
                && (r == Err(SessionExpired) <==> row.subject in accounts && (row.revokedAt.Some? || row.expiresAt <= now))
                && (row.subject in accounts && row.revokedAt.None? && now < row.expiresAt ==>
                      && (r == Err(SessionIdle) <==> idle)
                      && (r == Err(AccountDisabled) <==> !idle && !accounts[row.subject].active)
                      && (r.Ok? <==> !idle && accounts[row.subject].active))
                && Verdict(row, if row.subject in accounts then Some(accounts[row.subject]) else None, policy, now)
                   == if r.Err? then Some(r.error) else None
    {
      if token == "" || token !in byToken {
        return Err(NoSession);
      }
      var row := rows[byToken[token]];
      if row.subject !in accounts {
        return Err(NoSession);
      }
      if row.revokedAt.Some? {
        return Err(SessionExpired);
      }
      if row.expiresAt <= now {
        return Err(SessionExpired);
      }
      var idleExpiresAt := IdleDeadline(row.lastActivityAt, policy);
      if idleExpiresAt.Some? && idleExpiresAt.value <= now {
        return Err(SessionIdle);
      }
      if !accounts[row.subject].active {
        return Err(AccountDisabled);
      }
      var p := new Principal(byToken[token], row, policy);
      return Ok(p);
    }

    /** A successful activity write; the guard on revoked_at leaves a revoked row alone. */
    method TouchSession(p: Principal, policy: Policy, now: int)
      requires p.sessionId in rows
      modifies this`rows, p
      ensures rows == old(rows)[old(p.sessionId) :=
                Touched(old(rows)[old(p.sessionId)], old(p.lastActivityAt), old(p.expiresAt), policy, now)]
      ensures p.sessionId == old(p.sessionId) && p.subject == old(p.subject)
      ensures now - old(p.lastActivityAt) < TOUCH_INTERVAL ==>
                p.lastActivityAt == old(p.lastActivityAt) && p.expiresAt == old(p.expiresAt)
      ensures now - old(p.lastActivityAt) >= TOUCH_INTERVAL ==>
                && p.lastActivityAt == now && p.idleExpiresAt == IdleDeadline(now, policy)
                && p.expiresAt == if Renews(old(p.expiresAt), policy, now) then now + Lifetime(policy) else old(p.expiresAt)
      ensures var before, after := old(rows)[old(p.sessionId)], rows[old(p.sessionId)];
              var days := if policy.absoluteDays >= 1 then policy.absoluteDays else 30;
              after == if now - old(p.lastActivityAt) < MINUTE || before.revokedAt.Some? then before
                       else if policy.renewWithinDays >= 1 && old(p.expiresAt) - now < policy.renewWithinDays * DAY then
                         before.(lastActivityAt := now, expiresAt := now + days * DAY, renewedAt := Some(now))
                       else before.(lastActivityAt := now)
    {
      if now - p.lastActivityAt < TOUCH_INTERVAL {
        assert rows == rows[p.sessionId := rows[p.sessionId]];
        return;
      }
      var renew := policy.renewWithinDays > 0 && p.expiresAt - now < policy.renewWithinDays * DAY;
      var newExpiry := now + Lifetime(policy);
      var row := rows[p.sessionId];
      if row.revokedAt.None? {
        if renew {
          rows := rows[p.sessionId := row.(lastActivityAt := now, expiresAt := newExpiry, renewedAt := Some(now))];
        } else {
          rows := rows[p.sessionId := row.(lastActivityAt := now)];
        }
      } else {
        assert rows == rows[p.sessionId := row];
      }
      if renew {
        p.expiresAt := newExpiry;
      }
      p.lastActivityAt := now;
      p.idleExpiresAt := IdleDeadline(now, policy);
    }

    /** The verdict on a raw token: that of its row, or no session at all. */
    function TokenVerdict(token: string, policy: Policy, now: int): Option<AuthError>
      requires forall t :: t in byToken ==> byToken[t] in rows
      reads this
    {
      if token == "" || token !in byToken then Some(NoSession)
      else
        var row := rows[byToken[token]];
        Verdict(row, if row.subject in accounts then Some(accounts[row.subject]) else None, policy, now)
    }

    /**
     * What the middleware does on every request: look up, record the activity as well as it can, and on the
     * admin plane resolve the grants. A request refused for want of grants has been recorded as activity.
     */
    method ResolveSession(token: string, policy: Policy, now: int, touchFails: bool, isAdmin: bool, grantsFail: bool)
      returns (r: Result<Principal, AuthError>)
      requires Valid()
      modifies this`rows
      ensures Valid() && rows.Keys == old(rows).Keys
      ensures old(TokenVerdict(token, policy, now)).Some? ==>
                rows == old(rows) && r == Err(old(TokenVerdict(token, policy, now)).value)
      ensures old(TokenVerdict(token, policy, now)).None? ==>
                && token in byToken
                && (r.Ok? <==> !(isAdmin && grantsFail)) && (r.Err? ==> r.error == GrantsUnavailable)
                && rows == (if touchFails then old(rows)
                            else old(rows)[byToken[token] := Served(old(rows)[byToken[token]], policy, now).1])
                && Served(old(rows)[byToken[token]], policy, now).0
      ensures r.Ok? ==>
                && fresh(r.value) && token in byToken && r.value.sessionId == byToken[token]
                && r.value.lastActivityAt == rows[byToken[token]].lastActivityAt
                && r.value.expiresAt == rows[byToken[token]].expiresAt
    {
      r := LookupSession(token, policy, now);
      if r.Err? {
        return;
      }
      if !touchFails {
        TouchSession(r.value, policy, now);
      }
      if isAdmin && grantsFail {
        return Err(GrantsUnavailable);
      }
    }
  }

  // ---------------------------------------------------------------- requests on one session

  /** One request on a live account: whether it is accepted, and the row it leaves. */
  function Served(row: Row, policy: Policy, now: int): (bool, Row) {
    if Verdict(row, Some(Account(true)), policy, now).Some? then (false, row)
    else (true, Touched(row, row.lastActivityAt, row.expiresAt, policy, now))
  }

  datatype Request = Request(policy: Policy, at: int)

  ghost function RowAfter(row: Row, rs: seq<Request>): Row {
    if rs == [] then row
    else Served(RowAfter(row, rs[..|rs| - 1]), rs[|rs| - 1].policy, rs[|rs| - 1].at).1
  }

  ghost predicate Accepted(row: Row, rs: seq<Request>, j: nat)
    requires j < |rs|
  {
    Served(RowAfter(row, rs[..j]), rs[j].policy, rs[j].at).0
  }

  /** When the session was last used: its last accepted request, or its issue. */
  ghost function LastUse(row: Row, rs: seq<Request>): int {
    if rs == [] then row.lastActivityAt
    else if Accepted(row, rs, |rs| - 1) then rs[|rs| - 1].at
    else LastUse(row, rs[..|rs| - 1])
  }

  /** Sequential requests on a monotone clock, the policy possibly changing between them. */
  ghost predicate Ordered(row: Row, rs: seq<Request>) {
    && (rs != [] ==> row.lastActivityAt <= rs[0].at)
    && forall j :: 0 < j < |rs| ==> rs[j - 1].at <= rs[j].at
  }

  ghost predicate FixedPolicy(rs: seq<Request>, policy: Policy) {
    forall j :: 0 <= j < |rs| ==> rs[j].policy == policy
  }

  lemma OrderedPrefix(row: Row, rs: seq<Request>)
    requires Ordered(row, rs) && rs != []
    ensures Ordered(row, rs[..|rs| - 1])
  {
  }

  lemma {:induction false} NotBeforeLastUse(row: Row, rs: seq<Request>)
    requires Ordered(row, rs)
    ensures LastUse(row, rs) <= (if rs == [] then row.lastActivityAt else rs[|rs| - 1].at)
  {
    if rs != [] {
      OrderedPrefix(row, rs);
      NotBeforeLastUse(row, rs[..|rs| - 1]);
      assert rs[..|rs| - 1] != [] ==> rs[..|rs| - 1][|rs| - 2] == rs[|rs| - 2];
    }
  }

  lemma LastStep(row: Row, rs: seq<Request>)
    requires rs != []
    ensures var r := rs[|rs| - 1];
            && RowAfter(row, rs) == Served(RowAfter(row, rs[..|rs| - 1]), r.policy, r.at).1
            && (Accepted(row, rs, |rs| - 1) <==> Served(RowAfter(row, rs[..|rs| - 1]), r.policy, r.at).0)
  {
  }

  /** The stored activity time trails the real last use by less than one interval, after every request. */
  lemma {:induction false} ThrottleLag(row: Row, rs: seq<Request>)
    requires Ordered(row, rs)
    ensures 0 <= LastUse(row, rs) - RowAfter(row, rs).lastActivityAt < TOUCH_INTERVAL
  {
    if rs != [] {
      OrderedPrefix(row, rs);
      ThrottleLag(row, rs[..|rs| - 1]);
      NotBeforeLastUse(row, rs[..|rs| - 1]);
      assert rs[..|rs| - 1] != [] ==> rs[..|rs| - 1][|rs| - 2] == rs[|rs| - 2];
      LastStep(row, rs);
    }
  }

  /**
   * The throttled engine refines the ideal idle policy on the true last use: whatever the ideal policy
   * rejects is rejected, and nothing idle for at most the limit less one interval is rejected as idle.
   */
  lemma ThrottledRefinesIdeal(row: Row, rs: seq<Request>, policy: Policy, now: int)
    requires Ordered(row, rs) && (if rs == [] then row.lastActivityAt else rs[|rs| - 1].at) <= now
    ensures policy.idleMinutes > 0 && LastUse(row, rs) + policy.idleMinutes * MINUTE <= now ==>
              Verdict(RowAfter(row, rs), Some(Account(true)), policy, now).Some?
    ensures policy.idleMinutes > 0 && now - LastUse(row, rs) <= policy.idleMinutes * MINUTE - TOUCH_INTERVAL ==>
              Verdict(RowAfter(row, rs), Some(Account(true)), policy, now) != Some(SessionIdle)
  {
    ThrottleLag(row, rs);
  }

  // ---------------------------------------------------------------- sliding renewal

  ghost predicate Fresh(row: Row, policy: Policy) {
    row.revokedAt.None? && row.lastActivityAt == row.issuedAt && row.expiresAt == row.issuedAt + Lifetime(policy)
  }

  function SmallerOf(a: int, b: int): int { if a <= b then a else b }

  /** How close to its expiry a session may be after a touch. */
  function Horizon(policy: Policy): int {
    SmallerOf(Lifetime(policy), policy.renewWithinDays * DAY)
  }

  /** The expiry only moves forward, never past the last activity plus the lifetime, and stays put without renewal. */
  lemma {:induction false} ExpirySlides(row: Row, rs: seq<Request>, policy: Policy)
    requires Fresh(row, policy) && Ordered(row, rs) && FixedPolicy(rs, policy)
    ensures var r := RowAfter(row, rs);
            && r.revokedAt.None? && r.issuedAt == row.issuedAt
            && row.lastActivityAt <= r.lastActivityAt <= (if rs == [] then row.lastActivityAt else rs[|rs| - 1].at)
            && r.expiresAt <= r.lastActivityAt + Lifetime(policy)
            && (policy.renewWithinDays <= 0 ==> r.expiresAt == row.expiresAt)
            && (policy.renewWithinDays > 0 ==> r.expiresAt >= r.lastActivityAt + Horizon(policy))
            && (rs != [] ==> RowAfter(row, rs[..|rs| - 1]).expiresAt <= r.expiresAt)
  {
    if rs != [] {
      var prefix := rs[..|rs| - 1];
      OrderedPrefix(row, rs);
      ExpirySlides(row, prefix, policy);
      assert prefix != [] ==> prefix[|rs| - 2] == rs[|rs| - 2];
      LastStep(row, rs);
    }
  }

  /** Requests no further apart than `gap`, the first no later than `gap` after the issue. */
  ghost predicate GapsAtMost(row: Row, rs: seq<Request>, gap: int) {
    && (rs != [] ==> rs[0].at - row.issuedAt <= gap)
    && forall j :: 0 < j < |rs| ==> rs[j].at - rs[j - 1].at <= gap
  }

  /** A gap that the renewal horizon, the lifetime and the idle limit all absorb together with one interval. */
  ghost predicate Sustains(policy: Policy, gap: int) {
    && policy.renewWithinDays > 0
    && gap + TOUCH_INTERVAL <= Horizon(policy)
    && (policy.idleMinutes > 0 ==> gap + TOUCH_INTERVAL <= policy.idleMinutes * MINUTE)
  }

  /** A session used often enough never expires: every request of every run is accepted. */
  lemma {:induction false} UsedSessionsNeverExpire(row: Row, rs: seq<Request>, policy: Policy, gap: int)
    requires Fresh(row, policy) && Ordered(row, rs) && FixedPolicy(rs, policy)
    requires Sustains(policy, gap) && GapsAtMost(row, rs, gap)
    ensures forall j :: 0 <= j < |rs| ==> Accepted(row, rs, j)
    ensures LastUse(row, rs) == if rs == [] then row.lastActivityAt else rs[|rs| - 1].at
  {
    if rs != [] {
      var prefix := rs[..|rs| - 1];
      OrderedPrefix(row, rs);
      UsedSessionsNeverExpire(row, prefix, policy, gap);
      ThrottleLag(row, prefix);
      ExpirySlides(row, prefix, policy);
      assert prefix != [] ==> prefix[|rs| - 2] == rs[|rs| - 2];
      LastStep(row, rs);
      forall j | 0 <= j < |rs| ensures Accepted(row, rs, j) {
        if j < |rs| - 1 {
          assert Accepted(row, prefix, j);
          assert prefix[..j] == rs[..j];
        }
      }
    }
  }

  // ---------------------------------------------------------------- is AbsoluteDays a cap?

  /** Every request at or after the issue plus the lifetime is rejected, in this run. */
  ghost predicate Capped(row: Row, rs: seq<Request>, policy: Policy) {
    forall j :: 0 <= j < |rs| && Accepted(row, rs, j) ==> rs[j].at < row.issuedAt + Lifetime(policy)
  }

  /** With a one-minute idle limit the row is never touched: a touch is due exactly when the session is already idle. */
  lemma {:induction false} OneMinuteIdleNeverTouches(row: Row, rs: seq<Request>, policy: Policy)
    requires Ordered(row, rs) && FixedPolicy(rs, policy) && policy.idleMinutes == 1
    ensures RowAfter(row, rs) == row
    ensures forall j :: 0 <= j < |rs| && Accepted(row, rs, j) ==> rs[j].at < row.lastActivityAt + MINUTE
  {
    if rs != [] {
      var prefix := rs[..|rs| - 1];
      OrderedPrefix(row, rs);
      OneMinuteIdleNeverTouches(row, prefix, policy);
      LastStep(row, rs);
      forall j | 0 <= j < |rs| && Accepted(row, rs, j) ensures rs[j].at < row.lastActivityAt + MINUTE {
        if j < |rs| - 1 {
          assert prefix[..j] == rs[..j];
          assert Accepted(row, prefix, j);
        }
      }
    }
  }

  lemma AllCapped(row: Row, rs: seq<Request>, policy: Policy)
    requires Fresh(row, policy) && Ordered(row, rs) && FixedPolicy(rs, policy)
    requires policy.renewWithinDays <= 0 || policy.idleMinutes == 1
    ensures Capped(row, rs, policy)
  {
    forall j | 0 <= j < |rs| && Accepted(row, rs, j) ensures rs[j].at < row.issuedAt + Lifetime(policy) {
      if policy.renewWithinDays <= 0 {
        assert Ordered(row, rs[..j]);
        ExpirySlides(row, rs[..j], policy);
      } else {
        OneMinuteIdleNeverTouches(row, rs, policy);
      }
    }
  }

  /** One request a minute, until the lifetime has passed. */
  ghost function MinuteByMinute(row: Row, policy: Policy): seq<Request> {
    seq(Lifetime(policy) / MINUTE, j requires j >= 0 => Request(policy, row.issuedAt + (j + 1) * MINUTE))
  }

  lemma MinuteByMinuteRuns(row: Row, policy: Policy)
    requires Fresh(row, policy)
    ensures var rs := MinuteByMinute(row, policy);
            && rs != [] && rs[|rs| - 1].at == row.issuedAt + Lifetime(policy)
            && Ordered(row, rs) && FixedPolicy(rs, policy) && GapsAtMost(row, rs, MINUTE)
  {
    assert Lifetime(policy) / MINUTE > 0 && Lifetime(policy) / MINUTE * MINUTE == Lifetime(policy);
  }

  lemma RenewalOutlivesTheCap(row: Row, policy: Policy)
    requires Fresh(row, policy) && policy.renewWithinDays > 0 && policy.idleMinutes != 1
    ensures var rs := MinuteByMinute(row, policy);
            Ordered(row, rs) && FixedPolicy(rs, policy) && !Capped(row, rs, policy)
  {
    var rs := MinuteByMinute(row, policy);
    MinuteByMinuteRuns(row, policy);
    UsedSessionsNeverExpire(row, rs, policy, MINUTE);
    assert Accepted(row, rs, |rs| - 1);
  }

  /**
   * AbsoluteDays limits the total lifetime over every sequence of requests exactly when renewal is off or
   * the idle limit is one minute; otherwise a session in regular use is renewed past it.
   */
  lemma AbsoluteCapHoldsIff(row: Row, policy: Policy)
    requires Fresh(row, policy)
    ensures (forall rs :: Ordered(row, rs) && FixedPolicy(rs, policy) ==> Capped(row, rs, policy)) <==>
            policy.renewWithinDays <= 0 || policy.idleMinutes == 1
  {
    if policy.renewWithinDays <= 0 || policy.idleMinutes == 1 {
      forall rs | Ordered(row, rs) && FixedPolicy(rs, policy) ensures Capped(row, rs, policy) {
        AllCapped(row, rs, policy);
      }
    } else {
      RenewalOutlivesTheCap(row, policy);
    }
  }
}
