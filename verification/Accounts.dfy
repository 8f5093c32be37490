/**
 * Password reset, password change and email confirmation on one plane's tables, and what they do to
 * sessions (internal/api/signup_handlers.go, internal/api/selfservice_handlers.go, internal/auth/login.go,
 * internal/auth/session.go, internal/db/tx.go).
 */
module Accounts {
  import opened Wrappers
  import S = Sessions

  datatype Credential = Credential(subject: nat, password: bool, secretHash: string, revokedAt: Option<int>)

  /** A single-use emailed token; the table is shared by both planes. */
  datatype Token = Token(plane: string, subject: nat, hash: string, expiresAt: int, consumedAt: Option<int>)

  datatype Tables = Tables(
    sessions: map<nat, S.Row>,
    credentials: map<nat, Credential>,
    resets: map<nat, Token>,
    verifications: map<nat, Token>,
    verifiedAt: map<nat, int>,
    nextId: nat)

  // ---------------------------------------------------------------- statements

  function RevokedPasswords(rows: map<nat, Credential>, subject: nat, now: int): map<nat, Credential> {
    map id | id in rows ::
      if rows[id].subject == subject && rows[id].password && rows[id].revokedAt.None?
      then rows[id].(revokedAt := Some(now)) else rows[id]
  }

  function ConsumedFor(rows: map<nat, Token>, plane: string, subject: nat, now: int): map<nat, Token> {
    map id | id in rows ::
      if rows[id].plane == plane && rows[id].subject == subject && rows[id].consumedAt.None?
      then rows[id].(consumedAt := Some(now)) else rows[id]
  }

  predicate Usable(token: Token, plane: string, hash: string, now: int) {
    token.hash == hash && token.plane == plane && token.consumedAt.None? && token.expiresAt > now
  }

  /** token_hash carries a UNIQUE constraint. */
  ghost predicate UniqueHashes(rows: map<nat, Token>) {
    forall i, j :: i in rows && j in rows && rows[i].hash == rows[j].hash ==> i == j
  }

  ghost predicate Valid(t: Tables) {
    && UniqueHashes(t.resets) && UniqueHashes(t.verifications)
    && (forall id :: id in t.sessions || id in t.credentials || id in t.resets || id in t.verifications ==> id < t.nextId)
  }

  ghost predicate HasUsable(rows: map<nat, Token>, plane: string, hash: string, now: int) {
    exists id :: id in rows && Usable(rows[id], plane, hash, now)
  }

  /** A usable token has this digest, belongs to this plane, has not been consumed and has not run out. */
  lemma HasUsableIff(rows: map<nat, Token>, plane: string, hash: string, now: int)
    ensures HasUsable(rows, plane, hash, now) <==>
              exists id, subject, expiresAt :: id in rows && rows[id] == Token(plane, subject, hash, expiresAt, None)
                                               && now < expiresAt
  {
    if id, subject, expiresAt :| id in rows && rows[id] == Token(plane, subject, hash, expiresAt, None) && now < expiresAt {
      assert Usable(rows[id], plane, hash, now);
    }
    if id :| id in rows && Usable(rows[id], plane, hash, now) {
      assert rows[id] == Token(plane, rows[id].subject, hash, rows[id].expiresAt, None);
    }
  }

  ghost function UsableId(rows: map<nat, Token>, plane: string, hash: string, now: int): (id: nat)
    requires HasUsable(rows, plane, hash, now)
    ensures id in rows && Usable(rows[id], plane, hash, now)
  {
    var id :| id in rows && Usable(rows[id], plane, hash, now);
    id
  }

  // ---------------------------------------------------------------- transactions

  function SetPassword(t: Tables, subject: nat, secret: string, now: int): Tables {
    t.(credentials := RevokedPasswords(t.credentials, subject, now)[t.nextId := Credential(subject, true, secret, None)],
       nextId := t.nextId + 1)
  }

  ghost function ResetTx(t: Tables, plane: string, hash: string, secret: string, now: int): Option<(nat, Tables)> {
    if !HasUsable(t.resets, plane, hash, now) then None
    else
      var subject := t.resets[UsableId(t.resets, plane, hash, now)].subject;
      var u := SetPassword(t, subject, secret, now);
      Some((subject, u.(sessions := S.RevokedSessions(t.sessions, subject, None, now),
                        resets := ConsumedFor(t.resets, plane, subject, now))))
  }

  function ChangeTx(t: Tables, subject: nat, keep: nat, secret: string, now: int): Tables {
    SetPassword(t, subject, secret, now).(sessions := S.RevokedSessions(t.sessions, subject, Some(keep), now))
  }

  ghost function VerifyEmailTx(t: Tables, plane: string, hash: string, now: int): Option<Tables> {
    if !HasUsable(t.verifications, plane, hash, now) then None
    else
      var id := UsableId(t.verifications, plane, hash, now);
      var subject := t.verifications[id].subject;
      Some(t.(verifications := t.verifications[id := t.verifications[id].(consumedAt := Some(now))],
              verifiedAt := if subject in t.verifiedAt then t.verifiedAt else t.verifiedAt[subject := now]))
  }

  datatype TxError = TokenNotUsable | DatabaseError

  /** One plane's database. `fault` is the number of the statement that fails, if it is below the last one. */
  class Database {
    const plane: string
    var t: Tables

    constructor (plane: string, t: Tables)
      ensures this.plane == plane && this.t == t
    {
      this.plane := plane;
      this.t := t;
    }

    /** Seven fallible statements, all of which commit or none. */
    method ResetPassword(hash: string, secret: string, now: int, fault: nat) returns (r: Result<nat, TxError>)
      requires Valid(t)
      modifies this`t
      ensures r.Err? ==> t == old(t)
      ensures r.Ok? ==> ResetTx(old(t), plane, hash, secret, now) == Some((r.value, t))
      ensures fault >= 7 ==> (r.Ok? <==> HasUsable(old(t).resets, plane, hash, now))
    {
      var saved := t;
      if fault == 0 {
        return Err(DatabaseError);
      }
      if !exists id :: id in t.resets && Usable(t.resets[id], plane, hash, now) {
        return Err(TokenNotUsable);
      }
      var id :| id in t.resets && Usable(t.resets[id], plane, hash, now);
      var subject := t.resets[id].subject;
      t := t.(resets := t.resets[id := t.resets[id].(consumedAt := Some(now))]);
      if fault == 1 {
        t := saved;
        return Err(DatabaseError);
      }
      t := t.(credentials := RevokedPasswords(t.credentials, subject, now));
      if fault == 2 {
        t := saved;
        return Err(DatabaseError);
      }
      t := t.(credentials := t.credentials[t.nextId := Credential(subject, true, secret, None)], nextId := t.nextId + 1);
      if fault == 3 {
        t := saved;
        return Err(DatabaseError);
      }
      t := t.(sessions := S.RevokedSessions(t.sessions, subject, None, now));
      if fault == 4 {
        t := saved;
        return Err(DatabaseError);
      }
      t := t.(resets := ConsumedFor(t.resets, plane, subject, now));
      if fault == 5 || fault == 6 {
        t := saved;
        return Err(DatabaseError);
      }
      assert id == UsableId(saved.resets, plane, hash, now);
      assert t.resets == ConsumedFor(saved.resets, plane, subject, now);
      return Ok(subject);
    }

    method ChangePassword(subject: nat, current: nat, secret: string, now: int, fault: nat) returns (ok: bool)
      requires Valid(t)
      modifies this`t
      ensures !ok ==> t == old(t)
      ensures ok ==> t == ChangeTx(old(t), subject, current, secret, now)
      ensures ok <==> fault >= 5
    {
      var saved := t;
      if fault == 0 {
        return false;
      }
      t := t.(credentials := RevokedPasswords(t.credentials, subject, now));
      if fault == 1 {
        t := saved;
        return false;
      }
      t := t.(credentials := t.credentials[t.nextId := Credential(subject, true, secret, None)], nextId := t.nextId + 1);
      if fault == 2 {
        t := saved;
        return false;
      }
      t := t.(sessions := S.RevokedSessions(t.sessions, subject, Some(current), now));
      if fault == 3 || fault == 4 {
        t := saved;
        return false;
      }
      return true;
    }

    method VerifyEmail(hash: string, now: int, fault: nat) returns (r: Result<nat, TxError>)
      requires Valid(t)
      modifies this`t
      ensures r.Err? ==> t == old(t)
      ensures r.Ok? ==> VerifyEmailTx(old(t), plane, hash, now) == Some(t) && r.value in t.verifiedAt
      ensures fault >= 4 ==> (r.Ok? <==> HasUsable(old(t).verifications, plane, hash, now))
      ensures r.Ok? ==>
                exists id :: id in old(t).verifications
                  && old(t).verifications[id] == Token(plane, r.value, hash, old(t).verifications[id].expiresAt, None)
                  && now < old(t).verifications[id].expiresAt
                  && t == old(t).(
                       verifications := old(t).verifications[id := old(t).verifications[id].(consumedAt := Some(now))],
                       verifiedAt := if r.value in old(t).verifiedAt then old(t).verifiedAt
                                     else old(t).verifiedAt[r.value := now])
      ensures r == Err(TokenNotUsable) ==>
                forall id :: id in old(t).verifications && old(t).verifications[id].plane == plane
                             && old(t).verifications[id].hash == hash ==>
                  old(t).verifications[id].consumedAt.Some? || old(t).verifications[id].expiresAt <= now
    {
      var saved := t;
      if fault == 0 {
        return Err(DatabaseError);
      }
      if !exists id :: id in t.verifications && Usable(t.verifications[id], plane, hash, now) {
        return Err(TokenNotUsable);
      }
      var id :| id in t.verifications && Usable(t.verifications[id], plane, hash, now);
      var subject := t.verifications[id].subject;
      t := t.(verifications := t.verifications[id := t.verifications[id].(consumedAt := Some(now))]);
      if fault == 1 {
        t := saved;
        return Err(DatabaseError);
      }
      if subject !in t.verifiedAt {
        t := t.(verifiedAt := t.verifiedAt[subject := now]);
      }
      if fault == 2 || fault == 3 {
        t := saved;
        return Err(DatabaseError);
      }
      assert id == UsableId(saved.verifications, plane, hash, now);
      return Ok(subject);
    }
  }

  // ---------------------------------------------------------------- what a commit leaves

  ghost predicate LiveSession(t: Tables, id: nat, subject: nat) {
    id in t.sessions && t.sessions[id].subject == subject && t.sessions[id].revokedAt.None?
  }

  predicate LivePassword(credentials: map<nat, Credential>, id: nat, subject: nat) {
    id in credentials && credentials[id].subject == subject && credentials[id].password
    && credentials[id].revokedAt.None?
  }

  /** Sessions and passwords keep everything but, where they are the subject's and not ended yet, the time they end. */
  ghost predicate OnlySubjectEnds(t: Tables, u: Tables, subject: nat, now: int) {
    && u.sessions.Keys == t.sessions.Keys && u.credentials.Keys == t.credentials.Keys + {t.nextId}
    && (forall id :: id in t.sessions && u.sessions[id] != t.sessions[id] ==>
          LiveSession(t, id, subject) && u.sessions[id] == t.sessions[id].(revokedAt := Some(now)))
    && (forall id :: id in t.credentials && u.credentials[id] != t.credentials[id] ==>
          LivePassword(t.credentials, id, subject) && u.credentials[id] == t.credentials[id].(revokedAt := Some(now)))
  }

  lemma SetPasswordLeavesOne(t: Tables, subject: nat, secret: string, now: int)
    requires Valid(t)
    ensures var u := SetPassword(t, subject, secret, now);
            && Valid(u)
            && (forall id :: LivePassword(u.credentials, id, subject) <==> id == t.nextId)
            && u.credentials[t.nextId].secretHash == secret
            && (forall id, other :: other != subject ==>
                  (LivePassword(u.credentials, id, other) <==> LivePassword(t.credentials, id, other)))
  {
  }

  /**
   * A committed reset leaves the subject with no live session, the new password as its only live password,
   * and no unconsumed reset token on this plane; nobody else's sessions or passwords change.
   */
  lemma ResetLeavesNothingLive(t: Tables, plane: string, hash: string, secret: string, now: int)
    requires Valid(t) && ResetTx(t, plane, hash, secret, now).Some?
    ensures var (subject, u) := ResetTx(t, plane, hash, secret, now).value;
            && Valid(u)
            && (forall id :: !LiveSession(u, id, subject))
            && (forall id :: LivePassword(u.credentials, id, subject) <==> id == t.nextId)
            && u.credentials[t.nextId].secretHash == secret
            && (forall id :: id in u.resets && u.resets[id].plane == plane && u.resets[id].subject == subject
                             ==> u.resets[id].consumedAt.Some?)
            && (forall id, other :: other != subject ==>
                  && (LiveSession(u, id, other) <==> LiveSession(t, id, other))
                  && (LivePassword(u.credentials, id, other) <==> LivePassword(t.credentials, id, other)))
            && !HasUsable(u.resets, plane, hash, now)
  {
    var (subject, u) := ResetTx(t, plane, hash, secret, now).value;
    SetPasswordLeavesOne(t, subject, secret, now);
    var id := UsableId(t.resets, plane, hash, now);
    forall i | i in u.resets && u.resets[i].hash == hash ensures u.resets[i].consumedAt.Some? {
      assert i == id;
    }
  }

  /** A committed reset ends sessions, passwords and reset tokens of its subject, at its own time, and touches nothing else. */
  lemma ResetTouchesOnlyTheSubject(t: Tables, plane: string, hash: string, secret: string, now: int)
    requires Valid(t) && ResetTx(t, plane, hash, secret, now).Some?
    ensures var (subject, u) := ResetTx(t, plane, hash, secret, now).value;
            && OnlySubjectEnds(t, u, subject, now)
            && u.verifications == t.verifications && u.verifiedAt == t.verifiedAt && u.resets.Keys == t.resets.Keys
            && (forall id :: id in t.resets && u.resets[id] != t.resets[id] ==>
                  && t.resets[id].plane == plane && t.resets[id].subject == subject && t.resets[id].consumedAt.None?
                  && u.resets[id] == t.resets[id].(consumedAt := Some(now)))
  {
  }

  /** A committed change keeps at most the caller's own session and leaves one live password. */
  lemma ChangeKeepsOnlyTheCaller(t: Tables, subject: nat, current: nat, secret: string, now: int)
    requires Valid(t)
    ensures var u := ChangeTx(t, subject, current, secret, now);
            && Valid(u)
            && (forall id :: LiveSession(u, id, subject) <==> id == current && LiveSession(t, id, subject))
            && (forall id :: LivePassword(u.credentials, id, subject) <==> id == t.nextId)
            && u.credentials[t.nextId].secretHash == secret
            && OnlySubjectEnds(t, u, subject, now)
            && u.resets == t.resets && u.verifications == t.verifications && u.verifiedAt == t.verifiedAt
  {
    SetPasswordLeavesOne(t, subject, secret, now);
  }

  // ---------------------------------------------------------------- all interleavings

  /** The principal an in-flight request read at its lookup. */
  datatype Reading = Reading(session: nat, lastActivityAt: int, expiresAt: int)

  datatype State = State(t: Tables, now: int, readings: map<nat, Reading>)

  datatype Step =
    | Tick(elapsed: nat)
    | Lookup(request: nat, session: nat, account: S.Account, policy: S.Policy)
    | Touch(request: nat, policy: S.Policy)
    | Issue(subject: nat, policy: S.Policy)
    | RevokeSession(session: nat)
    | RevokeSessions(subject: nat, except: Option<nat>)
    | ForgotPassword(subject: nat, hash: string, ttl: nat)
    | Reset(hash: string, secret: string)
    | Change(subject: nat, current: nat, secret: string)
    | SendVerification(subject: nat, hash: string, ttl: nat)
    | VerifyEmail(hash: string)

  ghost predicate HashTaken(rows: map<nat, Token>, hash: string) {
    exists id :: id in rows && rows[id].hash == hash
  }

  ghost predicate Enabled(plane: string, s: State, step: Step) {
    match step
    case Lookup(_, session, account, policy) =>
      session in s.t.sessions && S.Verdict(s.t.sessions[session], Some(account), policy, s.now).None?
    case Touch(request, _) => request in s.readings && s.readings[request].session in s.t.sessions
    case RevokeSession(session) => session in s.t.sessions
    case ForgotPassword(_, hash, _) => !HashTaken(s.t.resets, hash)
    case SendVerification(_, hash, _) => !HashTaken(s.t.verifications, hash)
    case Reset(hash, secret) => ResetTx(s.t, plane, hash, secret, s.now).Some?
    case VerifyEmail(hash) => VerifyEmailTx(s.t, plane, hash, s.now).Some?
    case _ => true
  }

  ghost function Exec(plane: string, s: State, step: Step): State
    requires Enabled(plane, s, step)
  {
    match step
    case Tick(elapsed) => s.(now := s.now + elapsed)
    case Lookup(request, session, _, _) =>
      var row := s.t.sessions[session];
      s.(readings := s.readings[request := Reading(session, row.lastActivityAt, row.expiresAt)])
    case Touch(request, policy) =>
      var p := s.readings[request];
      s.(t := s.t.(sessions := s.t.sessions[p.session :=
           S.Touched(s.t.sessions[p.session], p.lastActivityAt, p.expiresAt, policy, s.now)]))
    case Issue(subject, policy) =>
      s.(t := s.t.(sessions := s.t.sessions[s.t.nextId := S.Issued(subject, policy, s.now)], nextId := s.t.nextId + 1))
    case RevokeSession(session) =>
      var row := s.t.sessions[session];
      if row.revokedAt.Some? then s
      else s.(t := s.t.(sessions := s.t.sessions[session := row.(revokedAt := Some(s.now))]))
    case RevokeSessions(subject, except) =>
      s.(t := s.t.(sessions := S.RevokedSessions(s.t.sessions, subject, except, s.now)))
    case ForgotPassword(subject, hash, ttl) =>
      s.(t := s.t.(resets := s.t.resets[s.t.nextId := Token(plane, subject, hash, s.now + ttl, None)],
                   nextId := s.t.nextId + 1))
    case Reset(hash, secret) => s.(t := ResetTx(s.t, plane, hash, secret, s.now).value.1)
    case Change(subject, current, secret) => s.(t := ChangeTx(s.t, subject, current, secret, s.now))
    case SendVerification(subject, hash, ttl) =>
      s.(t := s.t.(verifications := s.t.verifications[s.t.nextId := Token(plane, subject, hash, s.now + ttl, None)],
                   nextId := s.t.nextId + 1))
    case VerifyEmail(hash) => s.(t := VerifyEmailTx(s.t, plane, hash, s.now).value)
  }

  /** A run: every step is enabled where it is taken. */
  ghost predicate IsRun(plane: string, s: State, steps: seq<Step>)
    decreases |steps|
  {
    steps == [] || (Enabled(plane, s, steps[0]) && IsRun(plane, Exec(plane, s, steps[0]), steps[1..]))
  }

  ghost function Final(plane: string, s: State, steps: seq<Step>): State
    requires IsRun(plane, s, steps)
    decreases |steps|
  {
    if steps == [] then s else Final(plane, Exec(plane, s, steps[0]), steps[1..])
  }

  /** What no step undoes: dead sessions are frozen, spent tokens stay spent, ids are never reused. */
  ghost predicate Grows(a: State, b: State) {
    && a.now <= b.now && a.t.nextId <= b.t.nextId
    && (forall id :: id in a.t.sessions ==>
          && id in b.t.sessions && b.t.sessions[id].subject == a.t.sessions[id].subject
          && (a.t.sessions[id].revokedAt.Some? ==> b.t.sessions[id] == a.t.sessions[id]))
    && TokensGrow(a.t.resets, b.t.resets)
    && TokensGrow(a.t.verifications, b.t.verifications)
  }

  ghost predicate TokensGrow(a: map<nat, Token>, b: map<nat, Token>) {
    forall id :: id in a ==>
      && id in b && b[id].(consumedAt := None) == a[id].(consumedAt := None)
      && (a[id].consumedAt.Some? ==> b[id] == a[id])
  }

  lemma TransactionGrows(plane: string, s: State, step: Step)
    requires Valid(s.t) && Enabled(plane, s, step) && (step.Reset? || step.Change? || step.VerifyEmail?)
    ensures Valid(Exec(plane, s, step).t) && Grows(s, Exec(plane, s, step))
  {
    if step.Reset? {
      ResetLeavesNothingLive(s.t, plane, step.hash, step.secret, s.now);
    } else if step.Change? {
      ChangeKeepsOnlyTheCaller(s.t, step.subject, step.current, step.secret, s.now);
    }
  }

  lemma StepGrows(plane: string, s: State, step: Step)
    requires Valid(s.t) && Enabled(plane, s, step)
    ensures Valid(Exec(plane, s, step).t) && Grows(s, Exec(plane, s, step))
  {
    if step.Reset? || step.Change? || step.VerifyEmail? {
      TransactionGrows(plane, s, step);
    }
  }

  lemma {:induction false} RunGrows(plane: string, s: State, steps: seq<Step>)
    requires Valid(s.t) && IsRun(plane, s, steps)
    ensures Valid(Final(plane, s, steps).t) && Grows(s, Final(plane, s, steps))
    decreases |steps|
  {
    if steps != [] {
      StepGrows(plane, s, steps[0]);
      RunGrows(plane, Exec(plane, s, steps[0]), steps[1..]);
    }
  }

  /**
   * Death is permanent: once revoked, a session is rejected by every later lookup of every run, including
   * runs in which requests that looked it up earlier touch it afterwards.
   */
  lemma RevokedForever(plane: string, s: State, steps: seq<Step>, id: nat, account: S.Account, policy: S.Policy)
    requires Valid(s.t) && IsRun(plane, s, steps)
    requires id in s.t.sessions && s.t.sessions[id].revokedAt.Some?
    ensures var u := Final(plane, s, steps);
            && id in u.t.sessions && u.t.sessions[id] == s.t.sessions[id]
            && S.Verdict(u.t.sessions[id], Some(account), policy, u.now) == Some(S.SessionExpired)
            && forall request :: !Enabled(plane, u, Lookup(request, id, account, policy))
  {
    RunGrows(plane, s, steps);
  }

  /**
   * A reset signs the subject out everywhere, for good, and spends every outstanding reset link: after any
   * further run, no session that existed at the reset is accepted and no token that existed then is usable.
   */
  lemma ResetIsFinal(plane: string, s: State, hash: string, secret: string, steps: seq<Step>)
    requires Valid(s.t) && IsRun(plane, s, [Reset(hash, secret)] + steps)
    ensures var subject := ResetTx(s.t, plane, hash, secret, s.now).value.0;
            var u := Final(plane, s, [Reset(hash, secret)] + steps);
            && (forall id, account, policy :: id in s.t.sessions && s.t.sessions[id].subject == subject ==>
                  id in u.t.sessions && S.Verdict(u.t.sessions[id], Some(account), policy, u.now).Some?)
            && (forall id, h :: id in s.t.resets && s.t.resets[id].plane == plane && s.t.resets[id].subject == subject
                  ==> id in u.t.resets && !Usable(u.t.resets[id], plane, h, u.now))
  {
    FirstStep(plane, s, Reset(hash, secret), steps);
    ResetLeavesNothingLive(s.t, plane, hash, secret, s.now);
    var mid := Exec(plane, s, Reset(hash, secret));
    RunGrows(plane, mid, steps);
    var subject := ResetTx(s.t, plane, hash, secret, s.now).value.0;
    forall id | id in s.t.sessions && s.t.sessions[id].subject == subject
      ensures id in mid.t.sessions && mid.t.sessions[id].revokedAt.Some?
    {
      assert !LiveSession(mid.t, id, subject);
    }
  }

  /** A token of either kind succeeds at most once in any run. */
  lemma TokensAreSingleUse(plane: string, s: State, hash: string, secret: string, secret': string, steps: seq<Step>)
    requires Valid(s.t)
    ensures IsRun(plane, s, [Reset(hash, secret)] + steps) ==>
              !Enabled(plane, Final(plane, s, [Reset(hash, secret)] + steps), Reset(hash, secret'))
    ensures IsRun(plane, s, [VerifyEmail(hash)] + steps) ==>
              !Enabled(plane, Final(plane, s, [VerifyEmail(hash)] + steps), VerifyEmail(hash))
  {
    if IsRun(plane, s, [Reset(hash, secret)] + steps) {
      FirstStep(plane, s, Reset(hash, secret), steps);
      ResetLeavesNothingLive(s.t, plane, hash, secret, s.now);
      var id := UsableId(s.t.resets, plane, hash, s.now);
      TokensKeepTheirTerms(plane, Exec(plane, s, Reset(hash, secret)), steps, id, hash);
    }
    if IsRun(plane, s, [VerifyEmail(hash)] + steps) {
      FirstStep(plane, s, VerifyEmail(hash), steps);
      var id := UsableId(s.t.verifications, plane, hash, s.now);
      TokensKeepTheirTerms(plane, Exec(plane, s, VerifyEmail(hash)), steps, id, hash);
    }
  }

  /** A token spent at the start of a run stays spent, and any token works only before it runs out. */
  lemma TokensKeepTheirTerms(plane: string, s: State, steps: seq<Step>, id: nat, hash: string)
    requires Valid(s.t) && IsRun(plane, s, steps)
    ensures var u := Final(plane, s, steps);
            id in s.t.resets && s.t.resets[id].hash == hash && HasUsable(u.t.resets, plane, hash, u.now) ==>
              s.t.resets[id].consumedAt.None? && u.now < s.t.resets[id].expiresAt
    ensures var u := Final(plane, s, steps);
            id in s.t.verifications && s.t.verifications[id].hash == hash
            && HasUsable(u.t.verifications, plane, hash, u.now) ==>
              s.t.verifications[id].consumedAt.None? && u.now < s.t.verifications[id].expiresAt
  {
    RunGrows(plane, s, steps);
  }

  /** Signing a session out, or every session of an account but one, is final: whatever runs next, they stay rejected. */
  lemma SigningOutIsFinal(plane: string, s: State, step: Step, id: nat, steps: seq<Step>, account: S.Account, policy: S.Policy)
    requires Valid(s.t) && id in s.t.sessions && Enabled(plane, s, step) && IsRun(plane, s, [step] + steps)
    requires || step == RevokeSession(id)
             || (step.RevokeSessions? && step.subject == s.t.sessions[id].subject && step.except != Some(id))
    ensures var u := Final(plane, s, [step] + steps);
            id in u.t.sessions && S.Verdict(u.t.sessions[id], Some(account), policy, u.now) == Some(S.SessionExpired)
  {
    FirstStep(plane, s, step, steps);
    RevokedForever(plane, Exec(plane, s, step), steps, id, account, policy);
  }

  lemma FirstStep(plane: string, s: State, step: Step, steps: seq<Step>)
    requires Valid(s.t) && IsRun(plane, s, [step] + steps)
    ensures Enabled(plane, s, step) && Valid(Exec(plane, s, step).t) && Grows(s, Exec(plane, s, step))
    ensures IsRun(plane, Exec(plane, s, step), steps)
    ensures Final(plane, s, [step] + steps) == Final(plane, Exec(plane, s, step), steps)
  {
    assert ([step] + steps)[0] == step && ([step] + steps)[1..] == steps;
    StepGrows(plane, s, step);
  }

  /** A mailed token works less long than it was issued for, in every run, whichever kind it is. */
  lemma LinksExpire(plane: string, s: State, subject: nat, hash: string, ttl: nat, secret: string, steps: seq<Step>)
    requires Valid(s.t)
    ensures IsRun(plane, s, [ForgotPassword(subject, hash, ttl)] + steps) ==>
              var u := Final(plane, s, [ForgotPassword(subject, hash, ttl)] + steps);
              Enabled(plane, u, Reset(hash, secret)) ==> u.now < s.now + ttl
    ensures IsRun(plane, s, [SendVerification(subject, hash, ttl)] + steps) ==>
              var u := Final(plane, s, [SendVerification(subject, hash, ttl)] + steps);
              Enabled(plane, u, VerifyEmail(hash)) ==> u.now < s.now + ttl
  {
    if IsRun(plane, s, [ForgotPassword(subject, hash, ttl)] + steps) {
      FirstStep(plane, s, ForgotPassword(subject, hash, ttl), steps);
      TokensKeepTheirTerms(plane, Exec(plane, s, ForgotPassword(subject, hash, ttl)), steps, s.t.nextId, hash);
    }
    if IsRun(plane, s, [SendVerification(subject, hash, ttl)] + steps) {
      FirstStep(plane, s, SendVerification(subject, hash, ttl), steps);
      TokensKeepTheirTerms(plane, Exec(plane, s, SendVerification(subject, hash, ttl)), steps, s.t.nextId, hash);
    }
  }
}
