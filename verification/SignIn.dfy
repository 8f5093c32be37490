/**
 * Second-factor sign-in and mid-login enrolment as interleaved requests, one step per transaction
 * (internal/api/auth_handlers.go, internal/api/selfservice_handlers.go).
 */
module SignIn {
  import opened Wrappers
  import opened Challenges
  import opened RecoveryTable

  datatype AuthMethod = Password | Sso | RecoveryCode

  datatype Session = Session(plane: Plane, subject: nat, authMethod: AuthMethod, mfaSatisfiedAt: Option<int>)

  datatype Factor = Factor(
    plane: Plane, subject: nat, totp: bool, secretRef: string, verifiedAt: Option<int>, revokedAt: Option<int>)

  datatype Tables = Tables(
    challenges: map<nat, Challenge>,
    sessions: map<nat, Session>,
    factors: map<nat, Factor>,
    codes: Codes,
    accounts: set<(Plane, nat)>,
    nextId: nat)

  // ---------------------------------------------------------------- transactions

  /** A verified live factor of this account, of whatever kind. */
  predicate Enrolled(db: Tables, id: nat, plane: Plane, subject: nat) {
    id in db.factors
    && var f := db.factors[id];
       f.plane == plane && f.subject == subject && f.verifiedAt.Some? && f.revokedAt.None?
  }

  /** A factor that can pass a challenge for this account. */
  predicate UsableFactor(db: Tables, id: nat, plane: Plane, subject: nat) {
    Enrolled(db, id, plane, subject) && db.factors[id].totp
  }

  predicate CanLoad(db: Tables, plane: Plane, tokenHash: string, c: nat, now: int) {
    c in db.challenges && Presents(db.challenges[c], plane, tokenHash) && Unusable(db.challenges[c], now).None?
  }

  function IssuedSession(db: Tables, session: Session): Tables {
    db.(sessions := db.sessions[db.nextId := session], nextId := db.nextId + 1)
  }

  /** Marks an unrevoked enrolment verified; a revoked one is silently left alone. */
  function VerifiedFactor(db: Tables, id: nat, plane: Plane, subject: nat, now: int): Tables {
    if id in db.factors && db.factors[id].plane == plane && db.factors[id].subject == subject
       && db.factors[id].revokedAt.None?
    then db.(factors := db.factors[id := db.factors[id].(verifiedAt := Some(now))])
    else db
  }

  /** The subject's codes are deleted and the new digests inserted. */
  function ReplacedCodes(db: Tables, plane: Plane, subject: nat, hashes: seq<string>): Tables {
    db.(codes := Replaced(db.codes, plane, subject, hashes, db.nextId), nextId := db.nextId + |hashes|)
  }

  /** The enrolment transaction; `None` is the rollback after losing the race for the challenge. */
  function EnrolTx(db: Tables, plane: Plane, subject: nat, factor: nat, hashes: seq<string>,
                   challenge: Option<nat>, now: int): Option<Tables>
  {
    var t := ReplacedCodes(VerifiedFactor(db, factor, plane, subject, now), plane, subject, hashes);
    if challenge.None? then Some(t)
    else if challenge.value !in t.challenges || t.challenges[challenge.value].consumedAt.Some? then None
    else
      var spent := t.(challenges := t.challenges[challenge.value := Spent(t.challenges[challenge.value], now)]);
      Some(IssuedSession(spent, Session(plane, subject, Password, Some(now))))
  }

  // ---------------------------------------------------------------- requests

  /** Where a VerifyMFA request stands; `c` is the challenge it loaded and `snap` the row it read. */
  datatype VerifyPc =
    | VStart
    | VLoaded(c: nat, snap: Challenge)
    | VIdentified(c: nat, snap: Challenge)
    | VCounted(c: nat, snap: Challenge)
    | VPassed(c: nat, snap: Challenge, authMethod: AuthMethod, checkedAt: nat)
    | VConsumed(c: nat, snap: Challenge, authMethod: AuthMethod, checkedAt: nat, consumedAt: nat)
    | VDone

  /** Where a VerifyTOTPEnrollment request stands; `via` is the challenge it enrols under, if it has no session. */
  datatype EnrolPc =
    | EStart
    | ESubject(subject: nat, via: Option<nat>)
    | EValidated(subject: nat, via: Option<nat>, checkedAt: nat)
    | EReady(subject: nat, challenge: Option<nat>, checkedAt: nat)
    | EDone

  datatype Request =
    | Verify(plane: Plane, tokenHash: string, vpc: VerifyPc)
    | Enrol(plane: Plane, tokenHash: string, principal: Option<nat>, factor: nat, epc: EnrolPc)

  /** Where a session came from: its request and challenge, and the steps that checked, spent and issued. */
  datatype Origin = Origin(request: nat, challenge: nat, checkedAt: nat, consumedAt: nat, issuedAt: nat, enrolled: bool)

  /** `clock` numbers the steps; `origin`, `checks` and `resends` only record history and are never read. */
  datatype State = State(
    db: Tables,
    now: int,
    clock: nat,
    requests: map<nat, Request>,
    origin: map<nat, Origin>,
    checks: map<nat, nat>,
    resends: map<nat, nat>)

  datatype Evidence = TotpCode(factor: nat) | EmailCode | RecoveryCodeFor(codeHash: string) | WrongCode

  datatype Step =
    | Arrive(r: nat, request: Request)
    | Load(r: nat, c: nat)
    | Identify(r: nat)
    | CountAttempt(r: nat)
    | Check(r: nat, evidence: Evidence)
    | Consume(r: nat)
    | Complete(r: nat)
    | EnrolSubject(r: nat, c: nat)
    | EnrolValidate(r: nat)
    | EnrolReload(r: nat, c: nat)
    | EnrolCommit(r: nat, hashes: seq<string>)
    | Abandon(r: nat)
    | NewChallenge(plane: Plane, subject: nat, tokenHash: string, purpose: Purpose, emailCodeRef: string)
    | Resend(c: nat, emailCodeRef: string)
    | Extend(c: nat)
    | OtherSession(plane: Plane, subject: nat, sso: bool)
    | Elsewhere(factors: map<nat, Factor>, codes: Codes, accounts: set<(Plane, nat)>, nextId: nat)
    | Tick(elapsed: nat)

  predicate VerifyAt(s: State, r: nat) { r in s.requests && s.requests[r].Verify? }

  predicate EnrolAt(s: State, r: nat) { r in s.requests && s.requests[r].Enrol? }

  predicate Passes(s: State, snap: Challenge, evidence: Evidence) {
    match evidence
    case TotpCode(f) => UsableFactor(s.db, f, snap.plane, snap.subject)
    case EmailCode => snap.emailCodeRef != ""
    case RecoveryCodeFor(codeHash) => UnusedWith(s.db.codes, snap.plane, snap.subject, codeHash) != {}
    case WrongCode => true
  }

  ghost predicate Enabled(s: State, step: Step) {
    match step
    case Arrive(r, request) =>
      r !in s.requests && (if request.Verify? then request.vpc == VStart else request.epc == EStart)
    case Load(r, c) =>
      VerifyAt(s, r) && s.requests[r].vpc == VStart && CanLoad(s.db, s.requests[r].plane, s.requests[r].tokenHash, c, s.now)
    case Identify(r) =>
      VerifyAt(s, r) && s.requests[r].vpc.VLoaded?
      && (s.requests[r].plane, s.requests[r].vpc.snap.subject) in s.db.accounts
    case CountAttempt(r) => VerifyAt(s, r) && s.requests[r].vpc.VIdentified? && s.requests[r].vpc.c in s.db.challenges
    case Check(r, evidence) => VerifyAt(s, r) && s.requests[r].vpc.VCounted? && Passes(s, s.requests[r].vpc.snap, evidence)
    case Consume(r) => VerifyAt(s, r) && s.requests[r].vpc.VPassed? && s.requests[r].vpc.c in s.db.challenges
    case Complete(r) => VerifyAt(s, r) && s.requests[r].vpc.VConsumed?
    case EnrolSubject(r, c) =>
      EnrolAt(s, r) && s.requests[r].epc == EStart
      && (s.requests[r].principal.None? ==>
            CanLoad(s.db, s.requests[r].plane, s.requests[r].tokenHash, c, s.now)
            && s.db.challenges[c].purpose == EnrollmentPurpose)
    case EnrolValidate(r) =>
      EnrolAt(s, r) && s.requests[r].epc.ESubject? && s.requests[r].factor in s.db.factors
      && var f := s.db.factors[s.requests[r].factor];
         f.plane == s.requests[r].plane && f.subject == s.requests[r].epc.subject && f.revokedAt.None?
    case EnrolReload(r, c) =>
      EnrolAt(s, r) && s.requests[r].epc.EValidated?
      && (s.requests[r].epc.via.Some? ==> CanLoad(s.db, s.requests[r].plane, s.requests[r].tokenHash, c, s.now))
    case EnrolCommit(r, _) => EnrolAt(s, r) && s.requests[r].epc.EReady?
    case Abandon(r) => r in s.requests
    case NewChallenge(_, _, tokenHash, _, _) =>
      forall i :: i in s.db.challenges ==> s.db.challenges[i].tokenHash != tokenHash
    case Resend(c, _) => c in s.db.challenges
    case Extend(c) => c in s.db.challenges
    case Elsewhere(_, codes, _, nextId) => CodesEvolve(s.db, codes, nextId)
    case _ => true
  }

  /** Other statements on recovery codes delete rows, spend them, or insert rows under new ids. */
  ghost predicate CodesEvolve(db: Tables, codes: Codes, nextId: nat) {
    && db.nextId <= nextId
    && forall id :: id in codes ==>
         || db.nextId <= id < nextId
         || (id in db.codes && Owned(codes[id], db.codes[id].plane, db.codes[id].subject)
             && codes[id].codeHash == db.codes[id].codeHash && (db.codes[id].usedAt.Some? ==> codes[id].usedAt.Some?))
  }

  function Ended(request: Request): Request {
    if request.Verify? then request.(vpc := VDone) else request.(epc := EDone)
  }

  function At(s: State, r: nat, pc: VerifyPc): State
    requires VerifyAt(s, r)
  {
    s.(requests := s.requests[r := s.requests[r].(vpc := pc)])
  }

  function EnrolNow(s: State, r: nat, pc: EnrolPc): State
    requires EnrolAt(s, r)
  {
    s.(requests := s.requests[r := s.requests[r].(epc := pc)])
  }

  function WithChallenge(s: State, c: nat, row: Challenge): State {
    s.(db := s.db.(challenges := s.db.challenges[c := row]))
  }

  function Tally(m: map<nat, nat>, c: nat): nat { if c in m then m[c] else 0 }

  function ExecCheck(s: State, r: nat, evidence: Evidence): State
    requires VerifyAt(s, r) && s.requests[r].vpc.VCounted? && Passes(s, s.requests[r].vpc.snap, evidence)
  {
    var pc := s.requests[r].vpc;
    var counted := s.(checks := s.checks[pc.c := Tally(s.checks, pc.c) + 1]);
    match evidence
    case TotpCode(_) => At(counted, r, VPassed(pc.c, pc.snap, Password, s.clock))
    case EmailCode => At(counted, r, VPassed(pc.c, pc.snap, Password, s.clock))
    case RecoveryCodeFor(codeHash) =>
      var spent := UnusedWith(s.db.codes, pc.snap.plane, pc.snap.subject, codeHash);
      At(counted.(db := s.db.(codes := SpentRows(s.db.codes, spent, s.now))), r, VPassed(pc.c, pc.snap, RecoveryCode, s.clock))
    case WrongCode => At(counted, r, VDone)
  }

  function ExecComplete(s: State, r: nat): State
    requires VerifyAt(s, r) && s.requests[r].vpc.VConsumed?
  {
    var pc := s.requests[r].vpc;
    At(s.(db := IssuedSession(s.db, Session(s.requests[r].plane, pc.snap.subject, pc.authMethod, Some(s.now))),
          origin := s.origin[s.db.nextId := Origin(r, pc.c, pc.checkedAt, pc.consumedAt, s.clock, false)]),
       r, VDone)
  }

  function ExecEnrolCommit(s: State, r: nat, hashes: seq<string>): State
    requires EnrolAt(s, r) && s.requests[r].epc.EReady?
  {
    var pc, q := s.requests[r].epc, s.requests[r];
    var done := EnrolNow(s, r, EDone);
    match EnrolTx(s.db, q.plane, pc.subject, q.factor, hashes, pc.challenge, s.now)
    case None => done
    case Some(db) =>
      if pc.challenge.None? then done.(db := db)
      else
        done.(db := db, origin :=
          s.origin[db.nextId - 1 := Origin(r, pc.challenge.value, pc.checkedAt, s.clock, s.clock, true)])
  }

  /** The effect of a step apart from the step count. */
  ghost function Effect(s: State, step: Step): State
    requires Enabled(s, step)
  {
    match step
    case Arrive(r, request) => s.(requests := s.requests[r := request])
    case Load(r, c) => At(s, r, VLoaded(c, s.db.challenges[c]))
    case Identify(r) => At(s, r, VIdentified(s.requests[r].vpc.c, s.requests[r].vpc.snap))
    case CountAttempt(r) =>
      var pc := s.requests[r].vpc;
      At(WithChallenge(s, pc.c, Attempted(s.db.challenges[pc.c])), r, VCounted(pc.c, pc.snap))
    case Check(r, evidence) => ExecCheck(s, r, evidence)
    case Consume(r) =>
      var pc := s.requests[r].vpc;
      if s.db.challenges[pc.c].consumedAt.Some? then At(s, r, VDone)
      else At(WithChallenge(s, pc.c, Spent(s.db.challenges[pc.c], s.now)), r,
              VConsumed(pc.c, pc.snap, pc.authMethod, pc.checkedAt, s.clock))
    case Complete(r) => ExecComplete(s, r)
    case EnrolSubject(r, c) =>
      if s.requests[r].principal.Some? then EnrolNow(s, r, ESubject(s.requests[r].principal.value, None))
      else EnrolNow(s, r, ESubject(s.db.challenges[c].subject, Some(c)))
    case EnrolValidate(r) => EnrolNow(s, r, EValidated(s.requests[r].epc.subject, s.requests[r].epc.via, s.clock))
    case EnrolReload(r, c) =>
      var pc := s.requests[r].epc;
      EnrolNow(s, r, EReady(pc.subject, if pc.via.Some? then Some(c) else None, pc.checkedAt))
    case EnrolCommit(r, hashes) => ExecEnrolCommit(s, r, hashes)
    case Abandon(r) => s.(requests := s.requests[r := Ended(s.requests[r])])
    case NewChallenge(plane, subject, tokenHash, purpose, emailCodeRef) =>
      var row := Issued(plane, subject, tokenHash, purpose, emailCodeRef, s.now);
      s.(db := s.db.(challenges := s.db.challenges[s.db.nextId := row], nextId := s.db.nextId + 1))
    case Resend(c, emailCodeRef) =>
      WithChallenge(s, c, Resent(s.db.challenges[c], emailCodeRef, s.now)).(resends := s.resends[c := Tally(s.resends, c) + 1])
    case Extend(c) => WithChallenge(s, c, Extended(s.db.challenges[c], s.now))
    case OtherSession(plane, subject, sso) =>
      s.(db := IssuedSession(s.db, Session(plane, subject, if sso then Sso else Password, if sso then Some(s.now) else None)))
    case Elsewhere(factors, codes, accounts, nextId) =>
      s.(db := s.db.(factors := factors, codes := codes, accounts := accounts, nextId := nextId))
    case Tick(elapsed) => s.(now := s.now + elapsed)
  }

  ghost function Exec(s: State, step: Step): State
    requires Enabled(s, step)
  {
    Effect(s, step).(clock := s.clock + 1)
  }

  ghost predicate Initial(s: State) {
    s.db.challenges == map[] && s.db.sessions == map[] && s.requests == map[] && s.origin == map[]
    && s.checks == map[] && s.resends == map[] && s.clock == 0
    && forall id :: id in s.db.codes ==> id < s.db.nextId
  }

  // ---------------------------------------------------------------- the invariant

  /** A request that has loaded a challenge holds an immutable picture of whose it is. */
  ghost predicate Pictured(s: State, c: nat, snap: Challenge, plane: Plane) {
    c in s.db.challenges && SameIdentity(s.db.challenges[c], snap) && snap.plane == plane
  }

  ghost predicate VerifyOk(s: State, q: Request)
    requires q.Verify?
  {
    match q.vpc
    case VStart => true
    case VDone => true
    case VLoaded(c, snap) => Pictured(s, c, snap, q.plane)
    case VIdentified(c, snap) => Pictured(s, c, snap, q.plane)
    case VCounted(c, snap) => Pictured(s, c, snap, q.plane)
    case VPassed(c, snap, authMethod, checkedAt) => Pictured(s, c, snap, q.plane) && authMethod != Sso && checkedAt < s.clock
    case VConsumed(c, snap, authMethod, checkedAt, consumedAt) =>
      Pictured(s, c, snap, q.plane) && authMethod != Sso && checkedAt < consumedAt < s.clock
      && s.db.challenges[c].consumedAt.Some?
  }

  ghost predicate EnrolsUnder(s: State, q: Request, subject: nat, c: nat) {
    c in s.db.challenges
    && var row := s.db.challenges[c];
       Presents(row, q.plane, q.tokenHash) && row.subject == subject && row.purpose == EnrollmentPurpose
  }

  ghost predicate EnrolOk(s: State, q: Request)
    requires q.Enrol?
  {
    match q.epc
    case EStart => true
    case EDone => true
    case ESubject(subject, via) => via.Some? ==> EnrolsUnder(s, q, subject, via.value)
    case EValidated(subject, via, checkedAt) => checkedAt < s.clock && (via.Some? ==> EnrolsUnder(s, q, subject, via.value))
    case EReady(subject, challenge, checkedAt) =>
      checkedAt < s.clock && (challenge.Some? ==> EnrolsUnder(s, q, subject, challenge.value))
  }

  /** A request that has spent a challenge and not yet issued its session. */
  ghost predicate Holds(s: State, r: nat, c: nat) {
    VerifyAt(s, r) && s.requests[r].vpc.VConsumed? && s.requests[r].vpc.c == c
  }

  /** The recorded origin of a session really is one: same owner, spent, and in the right order. */
  ghost predicate OriginOk(s: State, id: nat) {
    && id in s.origin && id in s.db.sessions
    && var o, session := s.origin[id], s.db.sessions[id];
       && o.challenge in s.db.challenges
       && var row := s.db.challenges[o.challenge];
          && row.consumedAt.Some? && row.plane == session.plane && row.subject == session.subject
          && o.checkedAt < o.consumedAt <= o.issuedAt < s.clock
          && (o.enrolled ==> row.purpose == EnrollmentPurpose && session.authMethod == Password)
  }

  ghost predicate RequestOk(s: State, q: Request) {
    if q.Verify? then VerifyOk(s, q) else EnrolOk(s, q)
  }

  ghost predicate RequestsOk(s: State) { forall r :: r in s.requests ==> RequestOk(s, s.requests[r]) }

  ghost predicate KeysOk(s: State) {
    && UniqueHashes(s.db.challenges)
    && forall id :: id in s.db.challenges || id in s.db.sessions ==> id < s.db.nextId
  }

  /** At most one request stands between spending a challenge and issuing its session, and nothing came of it yet. */
  ghost predicate HoldersOk(s: State) {
    && (forall r, r', c :: Holds(s, r, c) && Holds(s, r', c) ==> r == r')
    && (forall r, id :: id in s.origin ==> !Holds(s, r, s.origin[id].challenge))
  }

  ghost predicate OriginsOk(s: State) {
    && (forall id :: id in s.origin ==> OriginOk(s, id))
    && (forall id, id' :: id in s.origin && id' in s.origin && s.origin[id].challenge == s.origin[id'].challenge ==> id == id')
  }

  ghost predicate MfaSession(s: State, id: nat) {
    id in s.db.sessions && s.db.sessions[id].mfaSatisfiedAt.Some? && s.db.sessions[id].authMethod != Sso
  }

  ghost predicate Covered(s: State) { forall id :: MfaSession(s, id) ==> id in s.origin }

  ghost predicate Inv(s: State) {
    KeysOk(s) && RequestsOk(s) && HoldersOk(s) && OriginsOk(s) && Covered(s)
  }

  /** What every step does to what was there: rows keep their identity and stay spent, sessions stay, the clock moves. */
  ghost predicate Kept(s: State, u: State) {
    && u.clock == s.clock + 1
    && (forall c :: c in s.db.challenges ==>
          && c in u.db.challenges && SameIdentity(s.db.challenges[c], u.db.challenges[c])
          && (s.db.challenges[c].consumedAt.Some? ==> u.db.challenges[c].consumedAt.Some?))
    && (forall id :: id in s.db.sessions ==> id in u.db.sessions && u.db.sessions[id] == s.db.sessions[id])
  }

  /** Requests other than `r` are as they were. */
  ghost predicate OnlyMoved(s: State, u: State, r: nat) {
    forall r' :: r' in u.requests && r' != r ==> r' in s.requests && u.requests[r'] == s.requests[r']
  }

  lemma RequestsKept(s: State, u: State, r: nat)
    requires Kept(s, u) && RequestsOk(s) && OnlyMoved(s, u, r)
    requires r in u.requests ==> RequestOk(u, u.requests[r])
    ensures RequestsOk(u)
  {
    forall r' | r' in u.requests ensures RequestOk(u, u.requests[r']) {
    }
  }

  /** A step that spends nothing and issues no MFA session keeps the invariant if the moved request is in order. */
  lemma InvQuiet(s: State, u: State, r: nat)
    requires Inv(s) && Kept(s, u) && KeysOk(u) && OnlyMoved(s, u, r) && u.origin == s.origin
    requires r in u.requests ==> RequestOk(u, u.requests[r])
    requires forall c :: Holds(u, r, c) ==> Holds(s, r, c)
    requires forall id :: MfaSession(u, id) ==> MfaSession(s, id)
    ensures Inv(u)
  {
    RequestsKept(s, u, r);
    forall r', c | Holds(u, r', c) ensures Holds(s, r', c) {
    }
    forall id | id in u.origin ensures OriginOk(u, id) {
    }
  }

  /** A step that changes nothing but where its own request stands. */
  predicate OnlyAdvances(step: Step) {
    step.Arrive? || step.Load? || step.Identify? || step.Abandon?
    || step.EnrolSubject? || step.EnrolValidate? || step.EnrolReload?
  }

  function Advanced(s: State, r: nat, q: Request): State {
    s.(requests := s.requests[r := q], clock := s.clock + 1)
  }

  lemma OnlyAdvancesIs(s: State, step: Step)
    requires Enabled(s, step) && OnlyAdvances(step)
    ensures step.r in Exec(s, step).requests && Exec(s, step) == Advanced(s, step.r, Exec(s, step).requests[step.r])
  {
  }

  lemma InvAdvanced(s: State, r: nat, q: Request)
    requires Inv(s) && RequestOk(Advanced(s, r, q), q) && (q.Verify? ==> !q.vpc.VConsumed?)
    ensures Inv(Advanced(s, r, q))
  {
    InvQuiet(s, Advanced(s, r, q), r);
  }

  lemma InvAdvance(s: State, step: Step)
    requires Inv(s) && Enabled(s, step) && OnlyAdvances(step) && !step.EnrolReload?
    ensures Inv(Exec(s, step))
  {
    OnlyAdvancesIs(s, step);
    InvAdvanced(s, step.r, Exec(s, step).requests[step.r]);
  }

  lemma InvCountAttempt(s: State, r: nat)
    requires Inv(s) && Enabled(s, CountAttempt(r))
    ensures Inv(Exec(s, CountAttempt(r)))
  {
    assert RequestOk(s, s.requests[r]);
    InvQuiet(s, Exec(s, CountAttempt(r)), r);
  }

  lemma CheckEffect(s: State, r: nat, evidence: Evidence)
    requires Enabled(s, Check(r, evidence)) && RequestOk(s, s.requests[r])
    ensures var u := Exec(s, Check(r, evidence));
            && u.db == s.db.(codes := u.db.codes) && u.now == s.now && u.clock == s.clock + 1 && u.origin == s.origin
            && r in u.requests && u.requests == s.requests[r := u.requests[r]]
            && RequestOk(u, u.requests[r]) && u.requests[r].Verify? && !u.requests[r].vpc.VConsumed?
  {
  }

  lemma InvCheck(s: State, r: nat, evidence: Evidence)
    requires Inv(s) && Enabled(s, Check(r, evidence))
    ensures Inv(Exec(s, Check(r, evidence)))
  {
    assert RequestOk(s, s.requests[r]);
    CheckEffect(s, r, evidence);
    InvQuiet(s, Exec(s, Check(r, evidence)), r);
  }

  /** Spending a challenge nobody had spent, by a step after which only `r` may hold it. */
  lemma InvSpend(s: State, u: State, r: nat, c: nat)
    requires Inv(s) && Kept(s, u) && KeysOk(u) && OnlyMoved(s, u, r) && u.origin == s.origin
    requires r in u.requests ==> RequestOk(u, u.requests[r])
    requires c in s.db.challenges && s.db.challenges[c].consumedAt.None?
    requires forall r', c' :: Holds(u, r', c') ==> Holds(s, r', c') || (r' == r && c' == c)
    requires forall id :: MfaSession(u, id) ==> MfaSession(s, id)
    ensures Inv(u)
  {
    RequestsKept(s, u, r);
    UnspentIsUnheld(s, c);
    forall id | id in u.origin ensures OriginOk(u, id) {
    }
  }

  /** What a successful consumption changes. */
  lemma ConsumeEffect(s: State, r: nat)
    requires Enabled(s, Consume(r)) && s.db.challenges[s.requests[r].vpc.c].consumedAt.None?
    requires RequestOk(s, s.requests[r]) && KeysOk(s)
    ensures var u, c := Exec(s, Consume(r)), s.requests[r].vpc.c;
            && Kept(s, u) && KeysOk(u) && OnlyMoved(s, u, r) && u.origin == s.origin && u.db.sessions == s.db.sessions
            && r in u.requests && RequestOk(u, u.requests[r])
            && forall r', c' :: Holds(u, r', c') ==> Holds(s, r', c') || (r' == r && c' == c)
  {
  }

  lemma InvConsume(s: State, r: nat)
    requires Inv(s) && Enabled(s, Consume(r))
    ensures Inv(Exec(s, Consume(r)))
  {
    var c := s.requests[r].vpc.c;
    assert RequestOk(s, s.requests[r]);
    if s.db.challenges[c].consumedAt.Some? {
      InvAdvanced(s, r, s.requests[r].(vpc := VDone));
    } else {
      ConsumeEffect(s, r);
      InvSpend(s, Exec(s, Consume(r)), r, c);
    }
  }

  /** Nothing holds, and nothing came of, a challenge that is not spent. */
  lemma UnspentIsUnheld(s: State, c: nat)
    requires Inv(s) && c in s.db.challenges && s.db.challenges[c].consumedAt.None?
    ensures forall r :: !Holds(s, r, c)
    ensures forall id :: id in s.origin ==> s.origin[id].challenge != c
  {
    forall r ensures !Holds(s, r, c) {
      if Holds(s, r, c) {
        HeldIsSpent(s, r, c);
      }
    }
    assert forall id :: id in s.origin ==> OriginOk(s, id);
  }

  lemma HeldIsSpent(s: State, r: nat, c: nat)
    requires RequestsOk(s) && Holds(s, r, c)
    ensures c in s.db.challenges && s.db.challenges[c].consumedAt.Some?
  {
    assert RequestOk(s, s.requests[r]);
  }

  lemma OriginIsSession(s: State, id: nat)
    requires OriginsOk(s) && id in s.origin
    ensures id in s.db.sessions
  {
    assert OriginOk(s, id);
  }

  /** Issuing one session for a challenge nothing came of yet, by a step after which nobody holds it. */
  lemma InvIssue(s: State, u: State, r: nat, id: nat, o: Origin)
    requires Inv(s) && Kept(s, u) && KeysOk(u) && OnlyMoved(s, u, r) && id !in s.db.sessions
    requires r in u.requests ==> RequestOk(u, u.requests[r])
    requires u.origin == s.origin[id := o] && OriginOk(u, id)
    requires forall id' :: id' in s.origin ==> s.origin[id'].challenge != o.challenge
    requires forall r' :: !Holds(u, r', o.challenge)
    requires forall r', c :: Holds(u, r', c) ==> Holds(s, r', c)
    requires forall id' :: MfaSession(u, id') ==> id' == id || MfaSession(s, id')
    ensures Inv(u)
  {
    RequestsKept(s, u, r);
    assert id !in s.origin by {
      if id in s.origin {
        OriginIsSession(s, id);
      }
    }
    forall id' | id' in u.origin && id' != id ensures OriginOk(u, id') {
    }
    forall r', id' | id' in u.origin ensures !Holds(u, r', u.origin[id'].challenge) {
      assert id' != id ==> !Holds(s, r', s.origin[id'].challenge);
    }
  }

  lemma InvComplete(s: State, r: nat)
    requires Inv(s) && Enabled(s, Complete(r))
    ensures Inv(Exec(s, Complete(r)))
  {
    var u := Exec(s, Complete(r));
    var c := s.requests[r].vpc.c;
    assert RequestOk(s, s.requests[r]);
    assert Holds(s, r, c);
    forall r', c' | Holds(u, r', c') ensures Holds(s, r', c') && r' != r {
    }
    InvIssue(s, u, r, s.db.nextId, u.origin[s.db.nextId]);
  }

  /** The second load of the same cookie finds the same row, because digests are unique. */
  lemma InvEnrolReload(s: State, r: nat, c: nat)
    requires Inv(s) && Enabled(s, EnrolReload(r, c))
    ensures Inv(Exec(s, EnrolReload(r, c)))
    ensures s.requests[r].epc.via.Some? ==> c == s.requests[r].epc.via.value
  {
    var q := s.requests[r];
    assert RequestOk(s, q);
    if q.epc.via.Some? {
      assert s.db.challenges[q.epc.via.value].tokenHash == s.db.challenges[c].tokenHash;
    }
    OnlyAdvancesIs(s, EnrolReload(r, c));
    InvAdvanced(s, r, Exec(s, EnrolReload(r, c)).requests[r]);
  }

  /** What the enrolment transaction leaves untouched. */
  lemma EnrolTxFrame(db: Tables, plane: Plane, subject: nat, factor: nat, hashes: seq<string>, challenge: Option<nat>,
                     now: int)
    ensures match EnrolTx(db, plane, subject, factor, hashes, challenge, now)
            case None =>
              challenge.Some? && (challenge.value in db.challenges ==> db.challenges[challenge.value].consumedAt.Some?)
            case Some(t) =>
              && t.nextId == db.nextId + |hashes| + (if challenge.Some? then 1 else 0)
              && t.challenges == (if challenge.Some? && challenge.value in db.challenges
                                  then db.challenges[challenge.value := Spent(db.challenges[challenge.value], now)]
                                  else db.challenges)
              && t.sessions == (if challenge.Some?
                                then db.sessions[t.nextId - 1 := Session(plane, subject, Password, Some(now))]
                                else db.sessions)
              && (challenge.Some? ==> challenge.value in db.challenges && db.challenges[challenge.value].consumedAt.None?)
  {
  }

  lemma InvEnrolCommit(s: State, r: nat, hashes: seq<string>)
    requires Inv(s) && Enabled(s, EnrolCommit(r, hashes))
    ensures Inv(Exec(s, EnrolCommit(r, hashes)))
  {
    var q := s.requests[r];
    if EnrolTx(s.db, q.plane, q.epc.subject, q.factor, hashes, q.epc.challenge, s.now).None? {
      InvAdvanced(s, r, q.(epc := EDone));
    } else if q.epc.challenge.None? {
      var q := s.requests[r];
      EnrolTxFrame(s.db, q.plane, q.epc.subject, q.factor, hashes, None, s.now);
      InvQuiet(s, Exec(s, EnrolCommit(r, hashes)), r);
    } else {
      InvEnrolIssue(s, r, hashes);
    }
  }

  /** What a committed mid-login enrolment changes. */
  lemma EnrolIssueShape(s: State, r: nat, hashes: seq<string>)
    requires Enabled(s, EnrolCommit(r, hashes)) && s.requests[r].epc.challenge.Some?
    requires var q := s.requests[r];
             EnrolTx(s.db, q.plane, q.epc.subject, q.factor, hashes, q.epc.challenge, s.now).Some?
    ensures var u, q := Exec(s, EnrolCommit(r, hashes)), s.requests[r];
            && u.db == EnrolTx(s.db, q.plane, q.epc.subject, q.factor, hashes, q.epc.challenge, s.now).value
            && u.requests == s.requests[r := q.(epc := EDone)] && u.now == s.now && u.clock == s.clock + 1
            && u.origin ==
                 s.origin[u.db.nextId - 1 := Origin(r, q.epc.challenge.value, q.epc.checkedAt, s.clock, s.clock, true)]
  {
    var q := s.requests[r];
    EnrolTxFrame(s.db, q.plane, q.epc.subject, q.factor, hashes, q.epc.challenge, s.now);
  }

  /** A spent challenge and one more session keep everything that was there. */
  lemma IssueKeeps(s: State, u: State, c: nat, id: nat)
    requires KeysOk(s) && c in s.db.challenges && id >= s.db.nextId && u.db.nextId == id + 1 && u.clock == s.clock + 1
    requires u.db.challenges == s.db.challenges[c := Spent(s.db.challenges[c], s.now)]
    requires id in u.db.sessions && u.db.sessions == s.db.sessions[id := u.db.sessions[id]]
    ensures Kept(s, u) && KeysOk(u) && id !in s.db.sessions
    ensures forall id' :: MfaSession(u, id') ==> id' == id || MfaSession(s, id')
  {
  }

  lemma InvEnrolIssue(s: State, r: nat, hashes: seq<string>)
    requires Inv(s) && Enabled(s, EnrolCommit(r, hashes)) && s.requests[r].epc.challenge.Some?
    requires var q := s.requests[r];
             EnrolTx(s.db, q.plane, q.epc.subject, q.factor, hashes, q.epc.challenge, s.now).Some?
    ensures Inv(Exec(s, EnrolCommit(r, hashes)))
  {
    var u, q := Exec(s, EnrolCommit(r, hashes)), s.requests[r];
    var id, c := u.db.nextId - 1, q.epc.challenge.value;
    assert RequestOk(s, q);
    EnrolIssueShape(s, r, hashes);
    EnrolTxFrame(s.db, q.plane, q.epc.subject, q.factor, hashes, q.epc.challenge, s.now);
    IssueKeeps(s, u, c, id);
    UnspentIsUnheld(s, c);
    forall r', c' | Holds(u, r', c') ensures Holds(s, r', c') {
    }
    InvIssue(s, u, r, id, u.origin[id]);
  }

  /** Steps that are nobody's request. */
  predicate Outside(step: Step) {
    step.NewChallenge? || step.Resend? || step.Extend? || step.OtherSession? || step.Elsewhere? || step.Tick?
  }

  lemma RewriteKeeps(s: State, u: State, c: nat)
    requires KeysOk(s) && c in s.db.challenges && c in u.db.challenges && u.clock == s.clock + 1
    requires SameIdentity(s.db.challenges[c], u.db.challenges[c])
    requires s.db.challenges[c].consumedAt.Some? ==> u.db.challenges[c].consumedAt.Some?
    requires u.db == s.db.(challenges := s.db.challenges[c := u.db.challenges[c]])
    ensures Kept(s, u) && KeysOk(u)
  {
  }

  /** A step from outside keeps every row's identity and every session, and its new rows get new ids. */
  lemma OutsideKeeps(s: State, step: Step)
    requires KeysOk(s) && Enabled(s, step) && Outside(step)
    ensures Kept(s, Exec(s, step)) && KeysOk(Exec(s, step))
  {
    var u := Exec(s, step);
    match step
    case NewChallenge(plane, subject, tokenHash, purpose, ref) =>
    case Resend(c, _) => RewriteKeeps(s, u, c);
    case Extend(c) => RewriteKeeps(s, u, c);
    case _ =>
  }

  lemma OutsideIssuesNothing(s: State, step: Step)
    requires Enabled(s, step) && Outside(step)
    ensures Exec(s, step).origin == s.origin && Exec(s, step).requests == s.requests
    ensures forall id :: MfaSession(Exec(s, step), id) ==> MfaSession(s, id)
  {
  }

  lemma InvOutside(s: State, step: Step)
    requires Inv(s) && Enabled(s, step) && Outside(step)
    ensures Inv(Exec(s, step))
  {
    OutsideKeeps(s, step);
    OutsideIssuesNothing(s, step);
    InvUnmoved(s, Exec(s, step));
  }

  lemma InvUnmoved(s: State, u: State)
    requires Inv(s) && Kept(s, u) && KeysOk(u) && u.origin == s.origin && u.requests == s.requests
    requires forall id :: MfaSession(u, id) ==> MfaSession(s, id)
    ensures Inv(u)
  {
    if r :| r in s.requests {
      InvQuiet(s, u, r);
    } else {
      InvQuiet(s, u, 0);
    }
  }

  lemma InvStep(s: State, step: Step)
    requires Inv(s) && Enabled(s, step)
    ensures Inv(Exec(s, step))
  {
    match step
    case Arrive(_, _) => InvAdvance(s, step);
    case Load(_, _) => InvAdvance(s, step);
    case Identify(_) => InvAdvance(s, step);
    case EnrolSubject(_, _) => InvAdvance(s, step);
    case EnrolValidate(_) => InvAdvance(s, step);
    case Abandon(_) => InvAdvance(s, step);
    case CountAttempt(r) => InvCountAttempt(s, r);
    case Check(r, evidence) => InvCheck(s, r, evidence);
    case Consume(r) => InvConsume(s, r);
    case Complete(r) => InvComplete(s, r);
    case EnrolReload(r, c) => InvEnrolReload(s, r, c);
    case EnrolCommit(r, hashes) => InvEnrolCommit(s, r, hashes);
    case _ => InvOutside(s, step);
  }

  // ---------------------------------------------------------------- runs

  ghost predicate IsRun(s: State, steps: seq<Step>)
    decreases |steps|
  {
    steps == [] || (Enabled(s, steps[0]) && IsRun(Exec(s, steps[0]), steps[1..]))
  }

  ghost function Final(s: State, steps: seq<Step>): State
    requires IsRun(s, steps)
    decreases |steps|
  {
    if steps == [] then s else Final(Exec(s, steps[0]), steps[1..])
  }

  lemma {:induction false} RunSnoc(s: State, steps: seq<Step>, step: Step)
    requires IsRun(s, steps) && Enabled(Final(s, steps), step)
    ensures IsRun(s, steps + [step]) && Final(s, steps + [step]) == Exec(Final(s, steps), step)
    decreases |steps|
  {
    if steps == [] {
      assert [step][1..] == [];
      assert steps + [step] == [step];
      assert IsRun(Exec(s, step), []);
    } else {
      RunSnoc(Exec(s, steps[0]), steps[1..], step);
      assert (steps + [step])[0] == steps[0] && (steps + [step])[1..] == steps[1..] + [step];
    }
  }

  lemma {:induction false} RunsConcat(s: State, a: seq<Step>, b: seq<Step>)
    requires IsRun(s, a) && IsRun(Final(s, a), b)
    ensures IsRun(s, a + b) && Final(s, a + b) == Final(Final(s, a), b)
    decreases |a|
  {
    if a == [] {
      assert a + b == b;
    } else {
      RunsConcat(Exec(s, a[0]), a[1..], b);
      assert (a + b)[0] == a[0] && (a + b)[1..] == a[1..] + b;
    }
  }

  lemma {:induction false} InvRun(s: State, steps: seq<Step>)
    requires Inv(s) && IsRun(s, steps)
    ensures Inv(Final(s, steps))
    decreases |steps|
  {
    if steps != [] {
      InvStep(s, steps[0]);
      InvRun(Exec(s, steps[0]), steps[1..]);
    }
  }

  /** MFA-satisfied sessions that did not come from single sign-on have recorded origins, with distinct challenges. */
  lemma OriginsInject(s: State, steps: seq<Step>)
    requires Initial(s) && IsRun(s, steps)
    ensures var u := Final(s, steps);
            && Inv(u)
            && (forall id :: MfaSession(u, id) ==> OriginOk(u, id))
            && (forall id, id' :: MfaSession(u, id) && MfaSession(u, id') && id != id' ==>
                  u.origin[id].challenge != u.origin[id'].challenge)
  {
    InvRun(s, steps);
  }
}
