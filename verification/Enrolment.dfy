/** VerifyTOTPEnrollment from the first lookup to its commit, for someone signed in or part way through a login. */
module Enrolment {
  import opened Wrappers
  import opened Time
  import opened Challenges
  import opened SignIn
  import opened SignInHandlers
  import Totp

  /** `Lapsed` is the refusal of a challenge that was usable at the first look and is not at the second. */
  datatype EnrolError = Unauthorized | NoSuchFactor | Unreadable | NotThisCode | Lapsed | Failed(error: HandlerError)

  /** Whom an enrolment acts for: the caller's own account, or that of a usable enrolment challenge `via`. */
  predicate ActsFor(db: Tables, plane: Plane, principal: Option<nat>, tokenHash: string, now: int, subject: nat,
                    via: Option<nat>)
  {
    match principal
    case Some(id) => subject == id && via.None?
    case None =>
      && via.Some? && CanLoad(db, plane, tokenHash, via.value, now)
      && db.challenges[via.value].purpose == EnrollmentPurpose && db.challenges[via.value].subject == subject
  }

  /** The caller is not signed in and presents no usable enrolment challenge. */
  predicate ActsForNobody(db: Tables, plane: Plane, principal: Option<nat>, tokenHash: string, now: int) {
    && principal.None?
    && forall c :: c in db.challenges && CanLoad(db, plane, tokenHash, c, now) ==> db.challenges[c].purpose != EnrollmentPurpose
  }

  /** An unrevoked factor of this account, verified or not. */
  predicate Enrollable(db: Tables, plane: Plane, subject: nat, f: nat) {
    f in db.factors && db.factors[f].plane == plane && db.factors[f].subject == subject && db.factors[f].revokedAt.None?
  }

  method Subject(h: Handlers, principal: Option<nat>, tokenHash: string, now: int) returns (r: Option<(nat, Option<nat>)>)
    requires UniqueHashes(h.db.challenges)
    ensures r.Some? ==> ActsFor(h.db, h.plane, principal, tokenHash, now, r.value.0, r.value.1)
    ensures r.None? <==> ActsForNobody(h.db, h.plane, principal, tokenHash, now)
    ensures r.None? <==>
              principal.None?
              && forall c :: c in h.db.challenges ==>
                   var row := h.db.challenges[c];
                   !(row.plane == h.plane && row.tokenHash == tokenHash && row.purpose == EnrollmentPurpose
                     && row.consumedAt.None? && now < row.expiresAt && row.attempts < 5)
  {
    if principal.Some? {
      return Some((principal.value, None));
    }
    var c := h.LoadUsable(tokenHash, now);
    if c.None? || h.db.challenges[c.value].purpose != EnrollmentPurpose {
      return None;
    }
    return Some((h.db.challenges[c.value].subject, c));
  }

  /** Why the code is refused for this factor, if it is; here, unlike at sign-in, an unreadable secret is an error. */
  method Refusal(h: Handlers, subject: nat, factor: nat, code: string, now: int) returns (refusal: Option<EnrolError>)
    ensures refusal == Some(NoSuchFactor) <==> !Enrollable(h.db, h.plane, subject, factor)
    ensures refusal == Some(NoSuchFactor) <==>
              !(factor in h.db.factors && h.db.factors[factor].plane == h.plane && h.db.factors[factor].subject == subject
                && h.db.factors[factor].revokedAt.None?)
    ensures refusal != Some(NoSuchFactor) ==>
              && (refusal == Some(Unreadable) <==> TotpSecret(h.o, h.db, factor).Err?)
              && (refusal == Some(NotThisCode) <==>
                    TotpSecret(h.o, h.db, factor).Ok? && !SecretAccepts(h.o, h.db, factor, code, now))
              && (refusal.None? <==> SecretAccepts(h.o, h.db, factor, code, now))
  {
    if !Enrollable(h.db, h.plane, subject, factor) {
      return Some(NoSuchFactor);
    }
    var secret := TotpSecret(h.o, h.db, factor);
    if secret.Err? {
      return Some(Unreadable);
    }
    var ok := Totp.Validate(h.o.mac, h.o.base32, UpperText(h.o.upper), secret.value, code, now / SECOND);
    return if ok then None else Some(NotThisCode);
  }

  /** The second look at the challenge cookie, if there was a first: it finds that very row, or nothing usable. */
  method LookAgain(h: Handlers, via: Option<nat>, tokenHash: string, later: int) returns (lapsed: bool, challenge: Option<nat>)
    requires UniqueHashes(h.db.challenges)
    requires via.Some? ==> via.value in h.db.challenges && h.db.challenges[via.value].tokenHash == tokenHash
    ensures lapsed <==> via.Some? && !CanLoad(h.db, h.plane, tokenHash, via.value, later)
    ensures !lapsed ==> challenge == via
  {
    challenge := None;
    if via.Some? {
      challenge := h.LoadUsable(tokenHash, later);
    }
    lapsed := via.Some? && challenge.None?;
  }

  /**
   * The whole call, the code being checked at `now` and the rest done at `later`. Nothing is written unless it
   * succeeds, and then exactly the one transaction is, for the account it acts for. Without a failing statement it
   * succeeds if and only if the submitted code is right for that factor and the challenge has not lapsed meanwhile.
   */
  method VerifyTOTPEnrollment(h: Handlers, principal: Option<nat>, tokenHash: string, factor: nat, code: string,
                              hashes: seq<string>, now: int, later: int, fault: nat)
    returns (r: Result<Option<nat>, EnrolError>, ghost subject: nat, ghost via: Option<nat>)
    requires UniqueHashes(h.db.challenges)
    modifies h`db
    ensures r.Err? ==> h.db == old(h.db)
    ensures r == Err(Unauthorized) <==> ActsForNobody(old(h.db), h.plane, principal, tokenHash, now)
    ensures r != Err(Unauthorized) ==>
              && ActsFor(old(h.db), h.plane, principal, tokenHash, now, subject, via)
              && (r == Err(NoSuchFactor) <==> !Enrollable(old(h.db), h.plane, subject, factor))
    ensures r != Err(Unauthorized) && r != Err(NoSuchFactor) ==>
              && (r == Err(Unreadable) <==> TotpSecret(h.o, old(h.db), factor).Err?)
              && (r == Err(NotThisCode) <==>
                    TotpSecret(h.o, old(h.db), factor).Ok? && !SecretAccepts(h.o, old(h.db), factor, code, now))
              && (r == Err(Lapsed) <==>
                    && SecretAccepts(h.o, old(h.db), factor, code, now) && via.Some?
                    && !CanLoad(old(h.db), h.plane, tokenHash, via.value, later))
    ensures r.Ok? ==> EnrolTx(old(h.db), h.plane, subject, factor, hashes, via, later) == Some(h.db)
                      && r.value == if via.Some? then Some(h.db.nextId - 1) else None
    ensures fault >= |hashes| + 7 ==> !(r.Err? && r.error.Failed?)
  {
    subject, via := 0, None;
    var who := Subject(h, principal, tokenHash, now);
    if who.None? {
      return Err(Unauthorized), 0, None;
    }
    subject, via := who.value.0, who.value.1;
    var account := who.value.0;
    var refusal := Refusal(h, account, factor, code, now);
    if refusal.Some? {
      return Err(refusal.value), subject, via;
    }
    var lapsed, challenge := LookAgain(h, who.value.1, tokenHash, later);
    if lapsed {
      return Err(Lapsed), subject, via;
    }
    var done := h.CompleteEnrolment(account, factor, hashes, challenge, later, fault);
    r := if done.Ok? then Ok(done.value) else Err(Failed(done.error));
  }

  function EnrolSteps(q: nat, request: Request, c: nat, elapsed: nat, hashes: seq<string>): seq<Step> {
    [Arrive(q, request), EnrolSubject(q, c), EnrolValidate(q), Tick(elapsed), EnrolReload(q, c), EnrolCommit(q, hashes)]
  }

  /** The request standing at `pc`, `k` steps and `elapsed` later. */
  function Standing(s: State, q: nat, request: Request, pc: EnrolPc, elapsed: nat, k: nat): State
    requires request.Enrol?
  {
    s.(requests := s.requests[q := request.(epc := pc)], now := s.now + elapsed, clock := s.clock + k)
  }

  lemma Arrives(s: State, q: nat, request: Request, c: nat, subject: nat, via: Option<nat>)
    requires q !in s.requests && request.Enrol? && request.epc == EStart && (via.Some? ==> c == via.value)
    requires ActsFor(s.db, request.plane, request.principal, request.tokenHash, s.now, subject, via)
    ensures var u1 := Standing(s, q, request, EStart, 0, 1);
            && Enabled(s, Arrive(q, request)) && Exec(s, Arrive(q, request)) == u1
            && Enabled(u1, EnrolSubject(q, c))
            && Exec(u1, EnrolSubject(q, c)) == Standing(s, q, request, ESubject(subject, via), 0, 2)
  {
  }

  lemma Validates(s: State, q: nat, request: Request, subject: nat, via: Option<nat>)
    requires request.Enrol? && Enrollable(s.db, request.plane, subject, request.factor)
    ensures var u2 := Standing(s, q, request, ESubject(subject, via), 0, 2);
            && Enabled(u2, EnrolValidate(q))
            && Exec(u2, EnrolValidate(q)) == Standing(s, q, request, EValidated(subject, via, s.clock + 2), 0, 3)
  {
  }

  lemma Reloads(s: State, q: nat, request: Request, c: nat, subject: nat, via: Option<nat>, elapsed: nat)
    requires request.Enrol? && (via.Some? ==> c == via.value)
    requires via.Some? ==> CanLoad(s.db, request.plane, request.tokenHash, c, s.now + elapsed)
    ensures var validated := EValidated(subject, via, s.clock + 2);
            var u3, u4 := Standing(s, q, request, validated, 0, 3), Standing(s, q, request, validated, elapsed, 4);
            && Enabled(u3, Tick(elapsed)) && Exec(u3, Tick(elapsed)) == u4
            && Enabled(u4, EnrolReload(q, c))
            && Exec(u4, EnrolReload(q, c)) == Standing(s, q, request, EReady(subject, via, s.clock + 2), elapsed, 5)
  {
  }

  lemma ValidatesRun(s: State, q: nat, request: Request, c: nat, subject: nat, via: Option<nat>, steps: seq<Step>)
    requires q !in s.requests && request.Enrol? && request.epc == EStart && (via.Some? ==> c == via.value)
    requires ActsFor(s.db, request.plane, request.principal, request.tokenHash, s.now, subject, via)
    requires Enrollable(s.db, request.plane, subject, request.factor)
    requires |steps| == 6 && steps[0] == Arrive(q, request) && steps[1] == EnrolSubject(q, c) && steps[2] == EnrolValidate(q)
    ensures RunsTo(s, steps, 3, Standing(s, q, request, EValidated(subject, via, s.clock + 2), 0, 3))
  {
    Arrives(s, q, request, c, subject, via);
    Validates(s, q, request, subject, via);
    assert steps[..0] == [];
    RunsOneMore(s, steps, 0, s);
    RunsOneMore(s, steps, 1, Standing(s, q, request, EStart, 0, 1));
    RunsOneMore(s, steps, 2, Standing(s, q, request, ESubject(subject, via), 0, 2));
  }

  lemma ReloadsRun(s: State, q: nat, request: Request, c: nat, subject: nat, via: Option<nat>, elapsed: nat, steps: seq<Step>)
    requires request.Enrol? && (via.Some? ==> c == via.value)
    requires via.Some? ==> CanLoad(s.db, request.plane, request.tokenHash, c, s.now + elapsed)
    requires |steps| == 6 && steps[3] == Tick(elapsed) && steps[4] == EnrolReload(q, c)
    requires RunsTo(s, steps, 3, Standing(s, q, request, EValidated(subject, via, s.clock + 2), 0, 3))
    ensures RunsTo(s, steps, 5, Standing(s, q, request, EReady(subject, via, s.clock + 2), elapsed, 5))
  {
    Reloads(s, q, request, c, subject, via, elapsed);
    RunsOneMore(s, steps, 3, Standing(s, q, request, EValidated(subject, via, s.clock + 2), 0, 3));
    RunsOneMore(s, steps, 4, Standing(s, q, request, EValidated(subject, via, s.clock + 2), elapsed, 4));
  }

  lemma CommitsRun(s: State, q: nat, request: Request, subject: nat, via: Option<nat>, elapsed: nat, hashes: seq<string>,
                   steps: seq<Step>)
    returns (u: State)
    requires request.Enrol? && |steps| == 6 && steps[5] == EnrolCommit(q, hashes)
    requires EnrolTx(s.db, request.plane, subject, request.factor, hashes, via, s.now + elapsed).Some?
    requires RunsTo(s, steps, 5, Standing(s, q, request, EReady(subject, via, s.clock + 2), elapsed, 5))
    ensures IsRun(s, steps) && Final(s, steps) == u
    ensures u.db == EnrolTx(s.db, request.plane, subject, request.factor, hashes, via, s.now + elapsed).value
  {
    var u5 := Standing(s, q, request, EReady(subject, via, s.clock + 2), elapsed, 5);
    u := Exec(u5, EnrolCommit(q, hashes));
    RunsOneMore(s, steps, 5, u5);
    assert steps[..6] == steps;
  }

  /** A successful call is a run of the interleaved machine in which nothing interferes with it. */
  lemma EnrolmentIsARun(s: State, q: nat, request: Request, c: nat, subject: nat, via: Option<nat>, elapsed: nat,
                        hashes: seq<string>)
    requires q !in s.requests && request.Enrol? && request.epc == EStart && (via.Some? ==> c == via.value)
    requires ActsFor(s.db, request.plane, request.principal, request.tokenHash, s.now, subject, via)
    requires Enrollable(s.db, request.plane, subject, request.factor)
    requires via.Some? ==> CanLoad(s.db, request.plane, request.tokenHash, c, s.now + elapsed)
    requires EnrolTx(s.db, request.plane, subject, request.factor, hashes, via, s.now + elapsed).Some?
    ensures var steps := EnrolSteps(q, request, c, elapsed, hashes);
            && IsRun(s, steps)
            && Final(s, steps).db == EnrolTx(s.db, request.plane, subject, request.factor, hashes, via, s.now + elapsed).value
  {
    var steps := EnrolSteps(q, request, c, elapsed, hashes);
    ValidatesRun(s, q, request, c, subject, via, steps);
    ReloadsRun(s, q, request, c, subject, via, elapsed, steps);
    var u := CommitsRun(s, q, request, subject, via, elapsed, hashes, steps);
  }
}
