/**
 * The password step of signing in: lockout check, password, account status, and the choice between a session
 * and a second-factor challenge (internal/api/auth_handlers.go, internal/auth/login.go).
 */
module Login {
  import opened Wrappers
  import opened Challenges
  import opened SignIn
  import L = Lockout
  import Setup

  datatype Identity = Identity(subject: nat, status: Setup.Status, mfaRequired: bool)

  datatype Decision = AuthenticatedNow | SecondFactor | Enrolment

  /** The account has a verified live factor of any kind. */
  predicate HasFactor(db: Tables, plane: Plane, subject: nat) {
    exists id :: id in db.factors && Enrolled(db, id, plane, subject)
  }

  predicate HasTotp(db: Tables, plane: Plane, subject: nat) {
    exists id :: id in db.factors && UsableFactor(db, id, plane, subject)
  }

  /** What counts: verified, not revoked, of this very account; for a mailed code to be unnecessary, an authenticator. */
  lemma FactorsThatCount(db: Tables, plane: Plane, subject: nat)
    ensures HasFactor(db, plane, subject) <==>
              exists f :: f in db.factors && db.factors[f].plane == plane && db.factors[f].subject == subject
                          && db.factors[f].verifiedAt.Some? && db.factors[f].revokedAt.None?
    ensures HasTotp(db, plane, subject) <==>
              exists f :: f in db.factors && db.factors[f].plane == plane && db.factors[f].subject == subject
                          && db.factors[f].verifiedAt.Some? && db.factors[f].revokedAt.None? && db.factors[f].totp
  {
    if f :| f in db.factors && db.factors[f].plane == plane && db.factors[f].subject == subject
            && db.factors[f].verifiedAt.Some? && db.factors[f].revokedAt.None? {
      assert Enrolled(db, f, plane, subject);
    }
    if f :| f in db.factors && db.factors[f].plane == plane && db.factors[f].subject == subject
            && db.factors[f].verifiedAt.Some? && db.factors[f].revokedAt.None? && db.factors[f].totp {
      assert UsableFactor(db, f, plane, subject);
    }
  }

  function DecideMFA(identity: Identity, enrolled: bool, policyRequires: bool): Decision {
    if enrolled then SecondFactor
    else if policyRequires || identity.mfaRequired then Enrolment
    else AuthenticatedNow
  }

  /** Raising the policy, or the account's own flag, or enrolling a factor, never turns a refusal into a session. */
  lemma StricterNeverAuthenticates(a: Identity, b: Identity, enrolled: bool, enrolled': bool, policy: bool, policy': bool)
    requires (a.mfaRequired ==> b.mfaRequired) && (enrolled ==> enrolled') && (policy ==> policy')
    ensures DecideMFA(b, enrolled', policy') == AuthenticatedNow ==> DecideMFA(a, enrolled, policy) == AuthenticatedNow
    ensures DecideMFA(a, enrolled, policy) == AuthenticatedNow <==> !enrolled && !policy && !a.mfaRequired
  {
  }

  datatype Outcome =
    | BadRequest
    | LockedOut(retryAfter: nat)
    | Rejected
    | NotPermitted
    | MfaRequired(challenge: nat)
    | EnrolmentRequired(challenge: nat)
    | Authenticated(session: nat)
    | ServerError

  class LoginHandler {
    const plane: Plane
    const planeName: string
    var db: Tables
    const locks: L.LockoutTable

    constructor (plane: Plane, planeName: string, db: Tables, locks: L.LockoutTable)
      ensures this.plane == plane && this.planeName == planeName && this.db == db && this.locks == locks
    {
      this.plane := plane;
      this.planeName := planeName;
      this.db := db;
      this.locks := locks;
    }

    function AccountKey(email: string): L.Key { L.Key(planeName, L.Account, email) }

    function IpKey(ip: string): L.Key { L.Key(planeName, L.Ip, ip) }

    ghost predicate Open(email: string, ip: string, now: int)
      reads locks
    {
      !L.Locked(locks.Get(AccountKey(email)), now) && !L.Locked(locks.Get(IpKey(ip)), now)
    }

    /**
     * One login. `found` is the account of the address, `passwordOk` the verdict on its password, `txFails` the
     * failure of whatever transaction the outcome needs. The lock is checked at `checkedAt`, all else is at `at`.
     * A failure that cannot be recorded is still only a rejection.
     */
    method Login(email: string, passwordGiven: bool, ip: string, found: Option<Identity>, passwordOk: bool,
                 policyRequires: bool, policy: L.Policy, tokenHash: string, sealedCode: string,
                 checkedAt: int, at: int, ipFirst: bool, txFails: bool)
      returns (r: Outcome)
      requires passwordOk ==> found.Some?
      requires checkedAt <= at && sealedCode != ""
      modifies this`db, locks
      ensures !r.MfaRequired? && !r.EnrolmentRequired? && !r.Authenticated? ==> db == old(db)
      ensures !r.Rejected? && !r.Authenticated? ==> locks.rows == old(locks.rows)
      ensures r.BadRequest? <==> email == "" || !passwordGiven
      ensures r.LockedOut? <==> !r.BadRequest? && !old(Open(email, ip, checkedAt))
      ensures r.Rejected? <==> !r.BadRequest? && !r.LockedOut? && !passwordOk
      ensures r.Rejected? && txFails ==> locks.rows == old(locks.rows)
      ensures r.Rejected? && !txFails ==>
                locks.Get(AccountKey(email)) ==
                  L.Apply(L.EffectivePolicy(policy), old(locks.Get(AccountKey(email))), L.Fail(checkedAt, at))
      ensures r.Rejected? && !txFails && ip != "" ==>
                locks.Get(IpKey(ip)) ==
                  L.Apply(L.EffectivePolicy(policy), old(locks.Get(IpKey(ip))), L.Fail(checkedAt, at))
      ensures r.NotPermitted? <==> !r.BadRequest? && !r.LockedOut? && passwordOk && found.value.status != Setup.Active
      ensures r.MfaRequired? ==>
                && passwordOk && found.value.status == Setup.Active && HasFactor(old(db), plane, found.value.subject)
                && r.challenge == old(db).nextId
                && db == Challenged(old(db), plane, found.value.subject, tokenHash, LoginPurpose,
                           if HasTotp(old(db), plane, found.value.subject) then "" else sealedCode, at)
      ensures r.EnrolmentRequired? ==>
                && passwordOk && found.value.status == Setup.Active && !HasFactor(old(db), plane, found.value.subject)
                && (policyRequires || found.value.mfaRequired)
                && r.challenge == old(db).nextId
                && db == Challenged(old(db), plane, found.value.subject, tokenHash, EnrollmentPurpose, "", at)
      ensures r.Authenticated? ==>
                && passwordOk && found.value.status == Setup.Active && !HasFactor(old(db), plane, found.value.subject)
                && !policyRequires && !found.value.mfaRequired
                && r.session == old(db).nextId
                && db == IssuedSession(old(db), Session(plane, found.value.subject, Password, None))
                && (forall key :: key == AccountKey(email) || key == IpKey(ip) ==>
                      locks.Get(key) == L.Apply(L.EffectivePolicy(policy), old(locks.Get(key)), L.Clear(at)))
      ensures forall key :: key != AccountKey(email) && key != IpKey(ip) ==> locks.Get(key) == old(locks.Get(key))
      ensures r.ServerError? ==> txFails || exists c :: c in old(db).challenges && old(db).challenges[c].tokenHash == tokenHash
    {
      if email == "" || !passwordGiven {
        return BadRequest;
      }
      var locked := locks.CheckLockout(AccountKey(email), IpKey(ip), checkedAt, at);
      if locked.Some? {
        return LockedOut(locked.value);
      }
      if found.None? || !passwordOk {
        if !txFails {
          locks.RecordFailure(policy, AccountKey(email), IpKey(ip), ipFirst, at);
        }
        return Rejected;
      }
      var identity := found.value;
      if identity.status != Setup.Active {
        return NotPermitted;
      }
      match DecideMFA(identity, HasFactor(db, plane, identity.subject), policyRequires) {
        case SecondFactor =>
          var emailCodeRef := if HasTotp(db, plane, identity.subject) then "" else sealedCode;
          var c := StartChallenge(identity.subject, tokenHash, LoginPurpose, emailCodeRef, at, txFails);
          return if c.Some? then MfaRequired(c.value) else ServerError;
        case Enrolment =>
          var c := StartChallenge(identity.subject, tokenHash, EnrollmentPurpose, "", at, txFails);
          return if c.Some? then EnrolmentRequired(c.value) else ServerError;
        case AuthenticatedNow =>
          if txFails {
            return ServerError;
          }
          var id := db.nextId;
          db := db.(sessions := db.sessions[id := Session(plane, identity.subject, Password, None)], nextId := id + 1);
          locks.ClearFailures(AccountKey(email), IpKey(ip));
          return Authenticated(id);
      }
    }

    method StartChallenge(subject: nat, tokenHash: string, purpose: Purpose, emailCodeRef: string, now: int, txFails: bool)
      returns (c: Option<nat>)
      modifies this`db
      ensures c.None? ==> db == old(db)
      ensures c.None? <==> txFails || exists i :: i in old(db).challenges && old(db).challenges[i].tokenHash == tokenHash
      ensures c.Some? ==> c.value == old(db).nextId
                          && db == Challenged(old(db), plane, subject, tokenHash, purpose, emailCodeRef, now)
    {
      if txFails || exists i :: i in db.challenges && db.challenges[i].tokenHash == tokenHash {
        return None;
      }
      c := Some(db.nextId);
      db := db.(challenges := db.challenges[db.nextId := Issued(plane, subject, tokenHash, purpose, emailCodeRef, now)],
                nextId := db.nextId + 1);
    }
  }

  /** The tables with one more pending challenge. */
  function Challenged(db: Tables, plane: Plane, subject: nat, tokenHash: string, purpose: Purpose, emailCodeRef: string,
                      now: int): Tables
  {
    db.(challenges := db.challenges[db.nextId := Issued(plane, subject, tokenHash, purpose, emailCodeRef, now)],
        nextId := db.nextId + 1)
  }

  /** What a login writes is a step of the interleaved machine, so everything proved of its runs covers logins. */
  lemma LoginIsAStep(s: State, plane: Plane, subject: nat, tokenHash: string, purpose: Purpose, emailCodeRef: string)
    requires Inv(s)
    ensures Exec(s, OtherSession(plane, subject, false)).db == IssuedSession(s.db, Session(plane, subject, Password, None))
    ensures Inv(Exec(s, OtherSession(plane, subject, false)))
    ensures (forall c :: c in s.db.challenges ==> s.db.challenges[c].tokenHash != tokenHash) ==>
              var step := NewChallenge(plane, subject, tokenHash, purpose, emailCodeRef);
              && Enabled(s, step) && Inv(Exec(s, step))
              && Exec(s, step).db == Challenged(s.db, plane, subject, tokenHash, purpose, emailCodeRef, s.now)
  {
    InvStep(s, OtherSession(plane, subject, false));
    if forall c :: c in s.db.challenges ==> s.db.challenges[c].tokenHash != tokenHash {
      InvStep(s, NewChallenge(plane, subject, tokenHash, purpose, emailCodeRef));
    }
  }
}
