/** Pending second-factor verifications and the statements on their rows (internal/mfa/challenge.go). */
module Challenges {
  import opened Time
  import opened Wrappers

  const MAX_ATTEMPTS: nat := 5
  const TTL: int := 5 * 60 * SECOND

  datatype Plane = Customer | Admin
  datatype Purpose = LoginPurpose | EnrollmentPurpose | StepUpPurpose

  /** One row of mfa_challenges; `emailCodeRef` is empty when no code was mailed. */
  datatype Challenge = Challenge(
    plane: Plane,
    subject: nat,
    tokenHash: string,
    purpose: Purpose,
    emailCodeRef: string,
    attempts: nat,
    expiresAt: int,
    consumedAt: Option<int>)

  datatype ChallengeError = NotFound | Expired | TooManyAttempts

  /** Why a row cannot be used at `now`, consumption and expiry before the attempt count. */
  function Unusable(row: Challenge, now: int): Option<ChallengeError> {
    if row.consumedAt.Some? || row.expiresAt <= now then Some(Expired)
    else if row.attempts >= MAX_ATTEMPTS then Some(TooManyAttempts)
    else None
  }

  function Issued(plane: Plane, subject: nat, tokenHash: string, purpose: Purpose, emailCodeRef: string, now: int): Challenge {
    Challenge(plane, subject, tokenHash, purpose, emailCodeRef, 0, now + TTL, None)
  }

  function Attempted(row: Challenge): Challenge { row.(attempts := row.attempts + 1) }

  function Spent(row: Challenge, now: int): Challenge { row.(consumedAt := Some(now)) }

  function Resent(row: Challenge, emailCodeRef: string, now: int): Challenge {
    if row.consumedAt.Some? then row else row.(emailCodeRef := emailCodeRef, attempts := 0, expiresAt := now + TTL)
  }

  function Extended(row: Challenge, now: int): Challenge {
    if row.consumedAt.Some? then row else row.(expiresAt := now + TTL)
  }

  /** Everything about a row that no statement changes. */
  predicate SameIdentity(a: Challenge, b: Challenge) {
    a.plane == b.plane && a.subject == b.subject && a.tokenHash == b.tokenHash && a.purpose == b.purpose
  }

  ghost predicate UniqueHashes(rows: map<nat, Challenge>) {
    forall i, j :: i in rows && j in rows && rows[i].tokenHash == rows[j].tokenHash ==> i == j
  }

  predicate Presents(row: Challenge, plane: Plane, tokenHash: string) {
    row.plane == plane && row.tokenHash == tokenHash
  }

  class ChallengeTable {
    var rows: map<nat, Challenge>
    var nextId: nat

    ghost predicate Valid()
      reads this
    {
      UniqueHashes(rows) && forall id :: id in rows ==> id < nextId
    }

    constructor ()
      ensures Valid() && rows == map[]
    {
      rows := map[];
      nextId := 0;
    }

    /** Fails when the digest is already present, as the UNIQUE constraint does. */
    method IssueChallenge(plane: Plane, subject: nat, tokenHash: string, purpose: Purpose, emailCodeRef: string, now: int)
      returns (id: Option<nat>)
      requires Valid()
      modifies this
      ensures Valid()
      ensures id.None? <==> exists i :: i in old(rows) && old(rows)[i].tokenHash == tokenHash
      ensures id.None? ==> rows == old(rows)
      ensures id.Some? ==> id.value !in old(rows)
                           && rows == old(rows)[id.value := Issued(plane, subject, tokenHash, purpose, emailCodeRef, now)]
                           && rows[id.value] == Challenge(plane, subject, tokenHash, purpose, emailCodeRef, 0,
                                                          now + 5 * MINUTE, None)
    {
      if exists i :: i in rows && rows[i].tokenHash == tokenHash {
        return None;
      }
      id := Some(nextId);
      rows := rows[nextId := Issued(plane, subject, tokenHash, purpose, emailCodeRef, now)];
      nextId := nextId + 1;
    }

    /** Resolves a raw token, given its digest; an empty cookie and a foreign plane are both "not found". */
    method LoadChallenge(plane: Plane, rawToken: string, tokenHash: string, now: int)
      returns (r: Result<(nat, Challenge), ChallengeError>)
      requires Valid()
      ensures r.Ok? ==>
                && rawToken != "" && r.value.0 in rows && r.value.1 == rows[r.value.0]
                && Presents(r.value.1, plane, tokenHash) && Unusable(r.value.1, now).None?
                && r.value.1.plane == plane && r.value.1.tokenHash == tokenHash
                && r.value.1.consumedAt.None? && now < r.value.1.expiresAt && r.value.1.attempts < 5
      ensures r.Err? ==> forall id :: id in rows && Presents(rows[id], plane, tokenHash) && rawToken != "" ==>
                           Unusable(rows[id], now) == Some(r.error)
      ensures r == Err(NotFound) <==>
                rawToken == "" || forall id :: id in rows ==> !(rows[id].plane == plane && rows[id].tokenHash == tokenHash)
      ensures r == Err(Expired) <==>
                rawToken != "" && exists id :: id in rows && rows[id].plane == plane && rows[id].tokenHash == tokenHash
                                               && (rows[id].consumedAt.Some? || rows[id].expiresAt <= now)
      ensures r == Err(TooManyAttempts) <==>
                rawToken != "" && exists id :: id in rows && rows[id].plane == plane && rows[id].tokenHash == tokenHash
                                               && rows[id].consumedAt.None? && now < rows[id].expiresAt
                                               && rows[id].attempts >= 5
    {
      if rawToken == "" {
        return Err(NotFound);
      }
      if !exists id :: id in rows && Presents(rows[id], plane, tokenHash) {
        return Err(NotFound);
      }
      var id :| id in rows && Presents(rows[id], plane, tokenHash);
      var c := rows[id];
      if c.consumedAt.Some? || c.expiresAt <= now {
        return Err(Expired);
      }
      if c.attempts >= MAX_ATTEMPTS {
        return Err(TooManyAttempts);
      }
      return Ok((id, c));
    }

    method RecordChallengeAttempt(id: nat)
      requires Valid()
      modifies this`rows
      ensures Valid()
      ensures rows == if id in old(rows) then old(rows)[id := Attempted(old(rows)[id])] else old(rows)
      ensures id in rows ==> rows[id] == old(rows)[id].(attempts := old(rows)[id].attempts + 1)
    {
      if id in rows {
        rows := rows[id := rows[id].(attempts := rows[id].attempts + 1)];
      }
    }

    /** Succeeds for the first caller only. */
    method ConsumeChallenge(id: nat, now: int) returns (ok: bool)
      requires Valid()
      modifies this`rows
      ensures Valid()
      ensures ok <==> id in old(rows) && old(rows)[id].consumedAt.None?
      ensures rows == if ok then old(rows)[id := Spent(old(rows)[id], now)] else old(rows)
      ensures ok ==> rows[id] == old(rows)[id].(consumedAt := Some(now))
    {
      if id !in rows || rows[id].consumedAt.Some? {
        return false;
      }
      rows := rows[id := rows[id].(consumedAt := Some(now))];
      return true;
    }

    method UpdateChallengeEmailCode(id: nat, emailCodeRef: string, now: int)
      requires Valid()
      modifies this`rows
      ensures Valid()
      ensures rows == if id in old(rows) then old(rows)[id := Resent(old(rows)[id], emailCodeRef, now)] else old(rows)
      ensures id in rows ==>
                rows[id] == if old(rows)[id].consumedAt.Some? then old(rows)[id]
                            else old(rows)[id].(emailCodeRef := emailCodeRef, attempts := 0, expiresAt := now + 5 * MINUTE)
    {
      if id in rows {
        if rows[id].consumedAt.None? {
          rows := rows[id := rows[id].(emailCodeRef := emailCodeRef, attempts := 0, expiresAt := now + TTL)];
        } else {
          assert rows[id := rows[id]] == rows;
        }
      }
    }

    method ExtendChallenge(id: nat, now: int) returns (ok: bool)
      requires Valid()
      modifies this`rows
      ensures Valid()
      ensures ok <==> id in old(rows) && old(rows)[id].consumedAt.None?
      ensures rows == if ok then old(rows)[id := Extended(old(rows)[id], now)] else old(rows)
      ensures ok ==> rows[id] == old(rows)[id].(expiresAt := now + 5 * MINUTE)
    {
      if id !in rows || rows[id].consumedAt.Some? {
        return false;
      }
      rows := rows[id := rows[id].(expiresAt := now + TTL)];
      return true;
    }
  }
}
