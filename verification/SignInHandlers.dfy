/**
 * The two handlers that finish a sign-in, as sequential code on the tables. VerifyMFA is shown to be a run of the
 * interleaved machine however it ends, and the enrolment transaction to commit as a whole or not at all.
 */
module SignInHandlers {
  import opened Wrappers
  import opened Time
  import opened Text
  import opened Challenges
  import opened RecoveryCodes
  import opened RecoveryTable
  import opened SecretFormats
  import opened SignIn
  import Totp

  datatype HandlerError = ChallengeUnusable | UnknownAccount | DatabaseError | CannotOpen | WrongAnswer | AlreadyUsed

  /** The cryptography the handlers call: the sealing cipher, HMAC-SHA1, base32, upper case, digests and printed ids. */
  datatype Oracles = Oracles(
    aead: Aead, mac: Totp.Mac, base32: Totp.Base32, upper: Upper, hashToken: string -> string, idText: nat -> string)

  function UpperText(upper: Upper): string -> string { s => UpperAll(upper, s) }

  // ---------------------------------------------------------------- what a right code is

  function MailedCode(o: Oracles, row: Challenge): Result<string, SealError> {
    Open(o.aead, row.emailCodeRef, "mfa-challenge:" + o.idText(row.subject))
  }

  function TotpSecret(o: Oracles, db: Tables, f: nat): Result<string, SealError>
    requires f in db.factors
  {
    Open(o.aead, db.factors[f].secretRef, "mfa:" + o.idText(f))
  }

  /** The secret of factor `f` opens, and the code is one of its three at `now`. */
  ghost predicate SecretAccepts(o: Oracles, db: Tables, f: nat, code: string, now: int)
    requires f in db.factors
  {
    && TotpSecret(o, db, f).Ok?
    && Totp.Accepts(o.mac, o.base32, UpperText(o.upper), TotpSecret(o, db, f).value, code, now / SECOND)
  }

  /** Factor `f` is an authenticator that accepts the code. */
  ghost predicate OpensTo(o: Oracles, db: Tables, f: nat, code: string, now: int) {
    f in db.factors && db.factors[f].totp && SecretAccepts(o, db, f, code, now)
  }

  ghost predicate TotpPasses(o: Oracles, db: Tables, plane: Plane, subject: nat, f: nat, code: string, now: int) {
    Enrolled(db, f, plane, subject) && OpensTo(o, db, f, code, now)
  }

  /** The submitted code is right for the account of the challenge, by the kind of factor the caller names. */
  ghost predicate RightCode(o: Oracles, db: Tables, row: Challenge, kind: string, code: string, now: int) {
    if kind == "RECOVERY_CODE" then Accepts(o.upper, o.hashToken, db.codes, row.plane, row.subject, code)
    else if kind == "EMAIL" then row.emailCodeRef != "" && MailedCode(o, row) == Ok(TrimSpace(code))
    else exists f :: TotpPasses(o, db, row.plane, row.subject, f, code, now)
  }

  /** A mailed code that does not open under this account's context cannot be compared. */
  predicate CannotCompare(o: Oracles, row: Challenge, kind: string) {
    kind == "EMAIL" && row.emailCodeRef != "" && MailedCode(o, row).Err?
  }

  function CodeDigest(o: Oracles, code: string): string { o.hashToken(NormalizeRecoveryCode(o.upper, code)) }

  /** The codes after the check: a right recovery code is spent by checking it. */
  function CodesAfter(o: Oracles, codes: Codes, row: Challenge, kind: string, code: string, now: int): Codes {
    if kind == "RECOVERY_CODE" && Accepts(o.upper, o.hashToken, codes, row.plane, row.subject, code)
    then SpentRows(codes, UnusedWith(codes, row.plane, row.subject, CodeDigest(o, code)), now)
    else codes
  }

  function MethodFor(kind: string): AuthMethod { if kind == "RECOVERY_CODE" then RecoveryCode else Password }

  // ---------------------------------------------------------------- the run behind one call

  /** One call of VerifyMFA: the challenge it finds, its plane, its cookie and the two fields of its body. */
  datatype Call = Call(c: nat, plane: Plane, tokenHash: string, kind: string, code: string)

  /**
   * The tables after the first `k` steps of an undisturbed call: the attempt is counted by the fourth, the code is
   * checked by the fifth, leaving `codes`, the challenge is spent by the sixth and the session issued by the last.
   */
  function After(db: Tables, c: nat, codes: Codes, authMethod: AuthMethod, now: int, k: nat): Tables
    requires c in db.challenges
  {
    var row := db.challenges[c];
    var counted := db.(challenges := db.challenges[c := Attempted(row)]);
    var checked := counted.(codes := codes);
    var spent := checked.(challenges := db.challenges[c := Spent(Attempted(row), now)]);
    if k < 4 then db
    else if k == 4 then counted
    else if k == 5 then checked
    else if k == 6 then spent
    else IssuedSession(spent, Session(row.plane, row.subject, authMethod, Some(now)))
  }

  /** The tables once a call has got to step `k`. */
  function Performed(o: Oracles, db: Tables, call: Call, now: int, k: nat): Tables {
    if call.c !in db.challenges then db
    else
      var codes := CodesAfter(o, db.codes, db.challenges[call.c], call.kind, call.code, now);
      After(db, call.c, codes, MethodFor(call.kind), now, k)
  }

  lemma PerformedNext(o: Oracles, db: Tables, call: Call, now: int)
    requires call.c in db.challenges
    ensures var row, counted := db.challenges[call.c], Performed(o, db, call, now, 4);
            var checked := counted.(codes := CodesAfter(o, db.codes, row, call.kind, call.code, now));
            var spent := checked.(challenges := checked.challenges[call.c := Spent(Attempted(row), now)]);
            && counted == db.(challenges := db.challenges[call.c := Attempted(row)])
            && Performed(o, db, call, now, 5) == checked && Performed(o, db, call, now, 6) == spent
            && Performed(o, db, call, now, 7)
                 == IssuedSession(spent, Session(row.plane, row.subject, MethodFor(call.kind), Some(now)))
  {
  }

  /** How far a call got: the step its outcome stands for, or the one that failing transaction `fault` prevented. */
  function StepsTaken(r: Result<nat, HandlerError>, fault: nat): nat {
    match r
    case Ok(_) => 7
    case Err(ChallengeUnusable) => 0
    case Err(UnknownAccount) => 2
    case Err(DatabaseError) => 3 + fault
    case Err(CannotOpen) => 4
    case Err(WrongAnswer) => 5
    case Err(AlreadyUsed) => 5
  }

  /** What must hold of the tables for a call to get as far as step `k`. */
  ghost predicate Reaches(o: Oracles, db: Tables, call: Call, now: int, k: nat) {
    && (k >= 1 ==> CanLoad(db, call.plane, call.tokenHash, call.c, now))
    && (k >= 3 ==> (call.plane, db.challenges[call.c].subject) in db.accounts)
    && (k >= 6 ==> RightCode(o, db, db.challenges[call.c], call.kind, call.code, now))
  }

  function Steps(q: nat, c: nat, plane: Plane, tokenHash: string, evidence: Evidence): (steps: seq<Step>)
    ensures |steps| == 7
  {
    [Arrive(q, Verify(plane, tokenHash, VStart)), Load(q, c), Identify(q), CountAttempt(q), Check(q, evidence), Consume(q),
     Complete(q)]
  }

  /** A request walking through the machine alone: its evidence, and what checking that leaves and is worth. */
  datatype Walk = Walk(
    q: nat, c: nat, plane: Plane, tokenHash: string, evidence: Evidence, codes: Codes, authMethod: AuthMethod)

  function WalkSteps(w: Walk): seq<Step> { Steps(w.q, w.c, w.plane, w.tokenHash, w.evidence) }

  /** Checking the evidence succeeds on these tables with this effect, or the evidence is a wrong code. */
  ghost predicate Shows(db: Tables, w: Walk, now: int)
    requires w.c in db.challenges
  {
    var row := db.challenges[w.c];
    match w.evidence
    case RecoveryCodeFor(codeHash) =>
      var ids := UnusedWith(db.codes, row.plane, row.subject, codeHash);
      ids != {} && w.codes == SpentRows(db.codes, ids, now) && w.authMethod == RecoveryCode
    case EmailCode => row.emailCodeRef != "" && w.codes == db.codes && w.authMethod == Password
    case TotpCode(f) => UsableFactor(db, f, row.plane, row.subject) && w.codes == db.codes && w.authMethod == Password
    case WrongCode => w.codes == db.codes
  }

  /** What step `k` asks of the tables; the check and what follows it ask for the evidence besides. */
  ghost predicate Admits(db: Tables, w: Walk, now: int, k: nat) {
    && (k >= 1 ==> CanLoad(db, w.plane, w.tokenHash, w.c, now))
    && (k >= 3 ==> (w.plane, db.challenges[w.c].subject) in db.accounts)
    && (k >= 6 ==> w.evidence != WrongCode)
  }

  /** Where the request stands after `k` steps. */
  ghost predicate StandsAt(pc: VerifyPc, w: Walk, row: Challenge, k: nat) {
    match k
    case 1 => pc == VStart
    case 2 => pc == VLoaded(w.c, row)
    case 3 => pc == VIdentified(w.c, row)
    case 4 => pc == VCounted(w.c, row)
    case 5 => if w.evidence == WrongCode then pc == VDone
              else pc.VPassed? && pc.c == w.c && pc.snap == row && pc.authMethod == w.authMethod
    case 6 => pc.VConsumed? && pc.c == w.c && pc.snap == row && pc.authMethod == w.authMethod
    case _ => true
  }

  ghost predicate AtStage(s: State, u: State, w: Walk, k: nat)
    requires w.c in s.db.challenges
  {
    && u.now == s.now && u.db == After(s.db, w.c, w.codes, w.authMethod, s.now, k)
    && if k == 0 then w.q !in u.requests
       else
         && VerifyAt(u, w.q) && u.requests[w.q].plane == w.plane && u.requests[w.q].tokenHash == w.tokenHash
         && StandsAt(u.requests[w.q].vpc, w, s.db.challenges[w.c], k)
  }

  lemma EarlyAdvances(s: State, u: State, w: Walk, k: nat)
    requires w.c in s.db.challenges && AtStage(s, u, w, k) && k < 3 && Admits(s.db, w, s.now, k + 1)
    ensures Enabled(u, WalkSteps(w)[k]) && AtStage(s, Exec(u, WalkSteps(w)[k]), w, k + 1)
  {
  }

  lemma CheckAdvances(s: State, u: State, w: Walk)
    requires w.c in s.db.challenges && AtStage(s, u, w, 4) && Shows(s.db, w, s.now)
    ensures Enabled(u, Check(w.q, w.evidence)) && AtStage(s, Exec(u, Check(w.q, w.evidence)), w, 5)
  {
  }

  lemma LateAdvances(s: State, u: State, w: Walk, k: nat)
    requires w.c in s.db.challenges && AtStage(s, u, w, k) && 5 <= k < 7 && Admits(s.db, w, s.now, k + 1)
    ensures Enabled(u, WalkSteps(w)[k]) && AtStage(s, Exec(u, WalkSteps(w)[k]), w, k + 1)
  {
  }

  lemma Advances(s: State, u: State, w: Walk, k: nat)
    requires w.c in s.db.challenges && AtStage(s, u, w, k) && k < 7 && Admits(s.db, w, s.now, k + 1) && Shows(s.db, w, s.now)
    ensures Enabled(u, WalkSteps(w)[k]) && AtStage(s, Exec(u, WalkSteps(w)[k]), w, k + 1)
  {
    if k < 3 {
      EarlyAdvances(s, u, w, k);
    } else if k == 4 {
      CheckAdvances(s, u, w);
    } else if k > 4 {
      LateAdvances(s, u, w, k);
    }
  }

  /** The first `k` steps are a run, and it ends at `u`. */
  ghost predicate RunsTo(s: State, steps: seq<Step>, k: nat, u: State)
    requires k <= |steps|
  {
    IsRun(s, steps[..k]) && Final(s, steps[..k]) == u
  }

  lemma RunsOneMore(s: State, steps: seq<Step>, k: nat, u: State)
    requires k < |steps| && RunsTo(s, steps, k, u) && Enabled(u, steps[k])
    ensures RunsTo(s, steps, k + 1, Exec(u, steps[k]))
  {
    RunSnoc(s, steps[..k], steps[k]);
    assert steps[..k + 1] == steps[..k] + [steps[k]];
  }

  lemma {:induction false} WalkIsARun(s: State, w: Walk, k: nat) returns (u: State)
    requires w.q !in s.requests && k <= 7 && Admits(s.db, w, s.now, k) && w.c in s.db.challenges && Shows(s.db, w, s.now)
    ensures RunsTo(s, WalkSteps(w), k, u) && AtStage(s, u, w, k)
  {
    if k == 0 {
      u := s;
      assert WalkSteps(w)[..0] == [];
    } else {
      var before := WalkIsARun(s, w, k - 1);
      Advances(s, before, w, k - 1);
      RunsOneMore(s, WalkSteps(w), k - 1, before);
      u := Exec(before, WalkSteps(w)[k - 1]);
    }
  }

  /** Every submitted code is evidence of one kind in the machine: a wrong code, or one that is right for the account. */
  lemma EvidenceOf(o: Oracles, db: Tables, q: nat, call: Call, now: int) returns (w: Walk)
    requires call.c in db.challenges
    ensures var row := db.challenges[call.c];
            && w.q == q && w.c == call.c && w.plane == call.plane && w.tokenHash == call.tokenHash && Shows(db, w, now)
            && w.codes == CodesAfter(o, db.codes, row, call.kind, call.code, now) && w.authMethod == MethodFor(call.kind)
            && (w.evidence == WrongCode <==> !RightCode(o, db, row, call.kind, call.code, now))
  {
    var row, evidence := db.challenges[call.c], WrongCode;
    if RightCode(o, db, row, call.kind, call.code, now) {
      if call.kind == "RECOVERY_CODE" {
        evidence := RecoveryCodeFor(CodeDigest(o, call.code));
      } else if call.kind == "EMAIL" {
        evidence := EmailCode;
      } else {
        var f :| TotpPasses(o, db, row.plane, row.subject, f, call.code, now);
        evidence := TotpCode(f);
      }
    }
    var codes := CodesAfter(o, db.codes, row, call.kind, call.code, now);
    w := Walk(q, call.c, call.plane, call.tokenHash, evidence, codes, MethodFor(call.kind));
  }

  /**
   * However far a call of VerifyMFA gets, the tables it leaves are those the interleaved machine reaches by the
   * first steps of one request when nothing interferes; the check among them fails exactly when the code is wrong.
   */
  lemma HandlerIsARun(o: Oracles, s: State, q: nat, call: Call, k: nat) returns (evidence: Evidence)
    requires q !in s.requests && k <= 7 && Reaches(o, s.db, call, s.now, k)
    ensures var steps := Steps(q, call.c, call.plane, call.tokenHash, evidence)[..k];
            IsRun(s, steps) && Final(s, steps).db == Performed(o, s.db, call, s.now, k)
    ensures k >= 1 ==> (evidence == WrongCode <==>
                          !RightCode(o, s.db, s.db.challenges[call.c], call.kind, call.code, s.now))
  {
    if k == 0 {
      evidence := WrongCode;
      assert Steps(q, call.c, call.plane, call.tokenHash, evidence)[..0] == [];
    } else {
      var w := EvidenceOf(o, s.db, q, call, s.now);
      evidence := w.evidence;
      var _ := WalkIsARun(s, w, k);
    }
  }

  class Handlers {
    const plane: Plane
    const o: Oracles
    var db: Tables

    constructor (plane: Plane, o: Oracles, db: Tables)
      ensures this.plane == plane && this.o == o && this.db == db
    {
      this.plane := plane;
      this.o := o;
      this.db := db;
    }

    /** The challenge the cookie resolves to, if it can still be used. */
    method LoadUsable(tokenHash: string, now: int) returns (c: Option<nat>)
      requires UniqueHashes(db.challenges)
      ensures c.Some? ==> CanLoad(db, plane, tokenHash, c.value, now)
      ensures c.None? ==> forall id :: id in db.challenges ==> !CanLoad(db, plane, tokenHash, id, now)
      ensures c.None? <==> forall id :: id in db.challenges && db.challenges[id].plane == plane
                                        && db.challenges[id].tokenHash == tokenHash && db.challenges[id].consumedAt.None? ==>
                             db.challenges[id].expiresAt <= now || db.challenges[id].attempts >= 5
    {
      if !exists id :: id in db.challenges && Presents(db.challenges[id], plane, tokenHash) {
        return None;
      }
      var id :| id in db.challenges && Presents(db.challenges[id], plane, tokenHash);
      return if Unusable(db.challenges[id], now).Some? then None else Some(id);
    }

    /**
     * VerifyMFA without interruption, `c` being the challenge loaded and `fault` the transaction that fails, if any:
     * the attempt, the statements of the check, the consumption, the session. Whatever the outcome, the tables are
     * those of the run of that many steps; without a failing transaction it is decided by the submitted code alone.
     */
    method VerifyMFA(tokenHash: string, kind: string, code: string, now: int, fault: nat)
      returns (r: Result<nat, HandlerError>, ghost c: nat)
      requires UniqueHashes(db.challenges)
      modifies this`db
      ensures var call, k := Call(c, plane, tokenHash, kind, code), StepsTaken(r, fault);
              k <= 7 && Reaches(o, old(db), call, now, k) && db == Performed(o, old(db), call, now, k)
      ensures r == Err(ChallengeUnusable) <==>
                forall id :: id in old(db).challenges ==> !CanLoad(old(db), plane, tokenHash, id, now)
      ensures r != Err(ChallengeUnusable) ==>
                && CanLoad(old(db), plane, tokenHash, c, now)
                && (r == Err(UnknownAccount) <==> (plane, old(db).challenges[c].subject) !in old(db).accounts)
      ensures r.Ok? ==> r.value == old(db).nextId
      ensures r.Ok? || (fault >= 4 && r != Err(ChallengeUnusable) && r != Err(UnknownAccount)) ==>
                var row := old(db).challenges[c];
                && (r.Ok? <==> RightCode(o, old(db), row, kind, code, now))
                && (r == Err(CannotOpen) <==> CannotCompare(o, row, kind))
                && (r.Ok? || r == Err(CannotOpen) || r == Err(WrongAnswer))
      ensures r == Err(WrongAnswer) ==> !RightCode(o, old(db), old(db).challenges[c], kind, code, now)
      ensures r == Err(DatabaseError) ==> fault < 4
    {
      c := 0;
      var loaded := LoadUsable(tokenHash, now);
      if loaded.None? {
        return Err(ChallengeUnusable), 0;
      }
      var id := loaded.value;
      c := id;
      var challenge := db.challenges[id];
      if (plane, challenge.subject) !in db.accounts {
        return Err(UnknownAccount), id;
      }
      if fault == 0 {
        return Err(DatabaseError), id;
      }
      db := db.(challenges := db.challenges[id := challenge.(attempts := challenge.attempts + 1)]);
      r := AnswerChallenge(Call(id, plane, tokenHash, kind, code), challenge, now, fault, old(db));
    }

    /** The rest of VerifyMFA once the attempt is recorded; `before` are the tables the call began with. */
    method AnswerChallenge(call: Call, challenge: Challenge, now: int, fault: nat, ghost before: Tables)
      returns (r: Result<nat, HandlerError>)
      requires fault >= 1 && call.c in before.challenges && challenge == before.challenges[call.c]
      requires challenge.plane == plane && challenge.consumedAt.None? && db == Performed(o, before, call, now, 4)
      modifies this`db
      ensures 4 <= StepsTaken(r, fault) <= 7 && db == Performed(o, before, call, now, StepsTaken(r, fault))
      ensures StepsTaken(r, fault) >= 6 ==> RightCode(o, before, challenge, call.kind, call.code, now)
      ensures r.Ok? ==> r.value == before.nextId
      ensures r.Ok? || fault >= 4 ==>
                && (r.Ok? <==> RightCode(o, before, challenge, call.kind, call.code, now))
                && (r == Err(CannotOpen) <==> CannotCompare(o, challenge, call.kind))
      ensures r == Err(WrongAnswer) ==> !RightCode(o, before, challenge, call.kind, call.code, now)
      ensures r.Ok? || r == Err(CannotOpen) || r == Err(WrongAnswer) || (r == Err(DatabaseError) && fault < 4)
    {
      PerformedNext(o, before, call, now);
      assert forall f :: TotpPasses(o, before, challenge.plane, challenge.subject, f, call.code, now)
                         <==> TotpPasses(o, db, challenge.plane, challenge.subject, f, call.code, now);
      var passed, authMethod := VerifyChallengeCode(challenge, call.kind, call.code, now, fault == 1);
      if passed.Err? {
        return Err(passed.error);
      }
      if !passed.value {
        return Err(WrongAnswer);
      }
      r := FinishSignIn(call.c, challenge.subject, authMethod, now, fault);
    }

    /** Spending the challenge and issuing the session are two transactions; the first must win the row. */
    method FinishSignIn(c: nat, subject: nat, authMethod: AuthMethod, now: int, fault: nat)
      returns (r: Result<nat, HandlerError>)
      requires c in db.challenges
      modifies this`db
      ensures r == Err(AlreadyUsed) <==> fault != 2 && old(db).challenges[c].consumedAt.Some?
      ensures r == Err(DatabaseError) <==> fault == 2 || (fault == 3 && old(db).challenges[c].consumedAt.None?)
      ensures r.Ok? || r == Err(AlreadyUsed) || r == Err(DatabaseError)
      ensures var spent := old(db).(challenges := old(db).challenges[c := Spent(old(db).challenges[c], now)]);
              && (r.Ok? ==> r.value == old(db).nextId
                            && db == IssuedSession(spent, Session(plane, subject, authMethod, Some(now))))
              && (r.Err? ==> db == if r == Err(DatabaseError) && fault == 3 then spent else old(db))
    {
      if fault == 2 {
        return Err(DatabaseError);
      }
      if db.challenges[c].consumedAt.Some? {
        return Err(AlreadyUsed);
      }
      db := db.(challenges := db.challenges[c := db.challenges[c].(consumedAt := Some(now))]);
      if fault == 3 {
        return Err(DatabaseError);
      }
      var id := db.nextId;
      db := db.(sessions := db.sessions[id := Session(plane, subject, authMethod, Some(now))], nextId := id + 1);
      return Ok(id);
    }

    /** The verified unrevoked methods of an account, in some order. */
    method ListMFAMethods(subject: nat) returns (ids: seq<nat>)
      ensures forall id :: id in ids <==> Enrolled(db, id, plane, subject)
      ensures forall id :: id in ids <==>
                id in db.factors && db.factors[id].plane == plane && db.factors[id].subject == subject
                && db.factors[id].verifiedAt.Some? && db.factors[id].revokedAt.None?
    {
      ids := [];
      var rest := set id | id in db.factors && Enrolled(db, id, plane, subject);
      while rest != {}
        invariant forall id :: Enrolled(db, id, plane, subject) <==> id in ids || id in rest
      {
        var id :| id in rest;
        ids := ids + [id];
        rest := rest - {id};
      }
    }

    /**
     * Checks the submitted code against the factor the caller names; a right recovery code is spent by the check.
     * `txFails` is the failure of the transaction or query it needs. A mailed code that cannot be opened is an
     * error, but an authenticator secret that cannot be opened is passed over.
     */
    method VerifyChallengeCode(challenge: Challenge, kind: string, code: string, now: int, txFails: bool)
      returns (passed: Result<bool, HandlerError>, authMethod: AuthMethod)
      requires challenge.plane == plane
      modifies this`db
      ensures passed == Err(CannotOpen) <==> CannotCompare(o, challenge, kind)
      ensures passed == Err(DatabaseError) <==> txFails && kind != "EMAIL"
      ensures passed.Err? ==> passed.error == CannotOpen || passed.error == DatabaseError
      ensures passed.Ok? ==> (passed.value <==> RightCode(o, old(db), challenge, kind, code, now))
      ensures passed.Ok? ==> db == old(db).(codes := CodesAfter(o, old(db).codes, challenge, kind, code, now))
      ensures passed.Err? ==> db == old(db)
      ensures authMethod == MethodFor(kind)
    {
      authMethod := MethodFor(kind);
      if kind == "RECOVERY_CODE" {
        if txFails {
          return Err(DatabaseError), authMethod;
        }
        var table := new CodeTable(db.codes, db.nextId);
        var used := table.ConsumeRecoveryCode(o.upper, o.hashToken, plane, challenge.subject, code, now);
        db := db.(codes := table.rows);
        return Ok(used), authMethod;
      }
      if kind == "EMAIL" {
        if challenge.emailCodeRef == "" {
          return Ok(false), authMethod;
        }
        var expected := MailedCode(o, challenge);
        if expected.Err? {
          return Err(CannotOpen), authMethod;
        }
        return Ok(expected.value == TrimSpace(code)), authMethod;
      }
      if txFails {
        return Err(DatabaseError), authMethod;
      }
      var methods := ListMFAMethods(challenge.subject);
      assert forall i :: 0 <= i < |methods| ==> methods[i] in methods;
      var matched := AnyTotpMatches(methods, code, now);
      forall i | 0 <= i < |methods| ensures OpensTo(o, db, methods[i], code, now)
                                            ==> TotpPasses(o, db, plane, challenge.subject, methods[i], code, now) {
        assert methods[i] in methods;
      }
      return Ok(matched), authMethod;
    }

    /** The loop over the methods: other kinds are skipped and the first match ends it. */
    method AnyTotpMatches(methods: seq<nat>, code: string, now: int) returns (matched: bool)
      requires forall i :: 0 <= i < |methods| ==> methods[i] in db.factors
      ensures matched <==> exists i :: 0 <= i < |methods| && OpensTo(o, db, methods[i], code, now)
    {
      for i := 0 to |methods|
        invariant forall j :: 0 <= j < i ==> !OpensTo(o, db, methods[j], code, now)
      {
        if !db.factors[methods[i]].totp {
          continue;
        }
        var ok := TotpMatches(methods[i], code, now);
        if ok {
          return true;
        }
      }
      return false;
    }

    /** A secret sealed under a rotated key does not open, and matches nothing. */
    method TotpMatches(id: nat, code: string, now: int) returns (matched: bool)
      requires id in db.factors
      ensures matched <==> SecretAccepts(o, db, id, code, now)
    {
      var secret := TotpSecret(o, db, id);
      if secret.Err? {
        return false;
      }
      matched := Totp.Validate(o.mac, o.base32, UpperText(o.upper), secret.value, code, now / SECOND);
    }

    /** Replaces the subject's codes on these tables; a failing statement leaves a partial write. */
    method ReplaceCodes(subject: nat, hashes: seq<string>, fault: nat) returns (ok: bool)
      modifies this`db
      ensures ok ==> db == ReplacedCodes(old(db), plane, subject, hashes)
      ensures ok <==> fault > |hashes|
    {
      var table := new CodeTable(db.codes, db.nextId);
      ok := table.ReplaceRecoveryCodes(plane, subject, hashes, fault);
      db := db.(codes := table.rows, nextId := table.nextId);
    }

    /**
     * The transaction that completes an enrolment: factor, codes and, when enrolling mid-login, challenge and
     * session. `fault` is the number of the statement that fails, if it is below the last one.
     */
    method CompleteEnrolment(subject: nat, factor: nat, hashes: seq<string>, challenge: Option<nat>, now: int, fault: nat)
      returns (r: Result<Option<nat>, HandlerError>)
      modifies this`db
      ensures r.Err? ==> db == old(db)
      ensures r.Ok? ==> EnrolTx(old(db), plane, subject, factor, hashes, challenge, now) == Some(db)
      ensures r.Ok? ==> r.value == if challenge.Some? then Some(db.nextId - 1) else None
      ensures fault >= |hashes| + 7 ==>
                (r.Ok? <==> EnrolTx(old(db), plane, subject, factor, hashes, challenge, now).Some?)
    {
      var saved := db;
      if fault == 0 {
        return Err(DatabaseError);
      }
      if factor in db.factors && db.factors[factor].plane == plane && db.factors[factor].subject == subject
         && db.factors[factor].revokedAt.None? {
        db := db.(factors := db.factors[factor := db.factors[factor].(verifiedAt := Some(now))]);
      }
      assert db == VerifiedFactor(saved, factor, plane, subject, now);
      var replaced := ReplaceCodes(subject, hashes, fault - 1);
      if !replaced || fault == |hashes| + 2 {
        db := saved;
        return Err(DatabaseError);
      }
      var committed := FinishEnrolment(subject, challenge, now, fault - |hashes| - 3);
      if committed.Err? {
        db := saved;
      }
      return committed;
    }

    /** The statements after the audit row: nothing more, or the challenge, the session and the login stamp. */
    method FinishEnrolment(subject: nat, challenge: Option<nat>, now: int, fault: nat)
      returns (r: Result<Option<nat>, HandlerError>)
      modifies this`db
      ensures r.Ok? && challenge.None? ==> db == old(db) && r.value == None
      ensures r.Ok? && challenge.Some? ==>
                && challenge.value in old(db).challenges && old(db).challenges[challenge.value].consumedAt.None?
                && db == IssuedSession(
                     old(db).(challenges :=
                       old(db).challenges[challenge.value := Spent(old(db).challenges[challenge.value], now)]),
                     Session(plane, subject, Password, Some(now)))
                && r.value == Some(db.nextId - 1)
      ensures fault >= 4 ==> (r.Ok? <==>
                challenge.None? || (challenge.value in old(db).challenges
                                    && old(db).challenges[challenge.value].consumedAt.None?))
    {
      if fault == 0 {
        return Err(DatabaseError);
      }
      if challenge.None? {
        return Ok(None);
      }
      var c := challenge.value;
      if c !in db.challenges || db.challenges[c].consumedAt.Some? {
        return Err(AlreadyUsed);
      }
      db := db.(challenges := db.challenges[c := db.challenges[c].(consumedAt := Some(now))]);
      if fault == 1 {
        return Err(DatabaseError);
      }
      var id := db.nextId;
      db := db.(sessions := db.sessions[id := Session(plane, subject, Password, Some(now))], nextId := id + 1);
      if fault == 2 || fault == 3 {
        return Err(DatabaseError);
      }
      return Ok(Some(id));
    }
  }

  lemma ReplacedCodesAre(db: Tables, plane: Plane, subject: nat, hashes: seq<string>)
    ensures var t := ReplacedCodes(db, plane, subject, hashes);
            && (forall id: nat :: id in Unused(t.codes, plane, subject) <==> db.nextId <= id < db.nextId + |hashes|)
            && (forall id: nat :: id in Unused(t.codes, plane, subject) ==> t.codes[id].codeHash == hashes[id - db.nextId])
  {
    NewCodesAre(plane, subject, hashes, db.nextId);
    var t, m := ReplacedCodes(db, plane, subject, hashes), NewCodes(plane, subject, hashes, db.nextId);
    assert forall id: nat :: id in m ==> id in t.codes && t.codes[id] == m[id];
    assert forall id: nat :: id in t.codes && id !in m ==> id !in Unused(t.codes, plane, subject);
  }

  /** A committed enrolment touches no other factor and nobody else's codes. */
  lemma EnrolmentTouchesItsOwn(db: Tables, plane: Plane, subject: nat, factor: nat, hashes: seq<string>,
                               challenge: Option<nat>, now: int)
    requires forall id :: id in db.codes ==> id < db.nextId
    requires EnrolTx(db, plane, subject, factor, hashes, challenge, now).Some?
    ensures var t := EnrolTx(db, plane, subject, factor, hashes, challenge, now).value;
            && t.accounts == db.accounts && t.factors.Keys == db.factors.Keys
            && (forall f :: f in db.factors && t.factors[f] != db.factors[f] ==>
                  && f == factor && db.factors[f].plane == plane && db.factors[f].subject == subject
                  && db.factors[f].revokedAt.None? && t.factors[f] == db.factors[f].(verifiedAt := Some(now)))
            && (forall id :: id in db.codes && !(db.codes[id].plane == plane && db.codes[id].subject == subject) ==>
                  id in t.codes && t.codes[id] == db.codes[id])
  {
    NewCodesAre(plane, subject, hashes, db.nextId);
  }

  /**
   * What a committed enrolment leaves, all of it together: the subject's recovery codes are exactly the new
   * ones, the factor is verified unless it had been revoked meanwhile, and mid-login the challenge, unspent
   * until then, is spent and one MFA session of the subject exists more.
   */
  lemma EnrolmentCommitsTogether(db: Tables, plane: Plane, subject: nat, factor: nat, hashes: seq<string>,
                                 challenge: Option<nat>, now: int)
    requires forall id :: id in db.codes || id in db.sessions ==> id < db.nextId
    ensures EnrolTx(db, plane, subject, factor, hashes, challenge, now).None? <==>
              challenge.Some? && (challenge.value in db.challenges ==> db.challenges[challenge.value].consumedAt.Some?)
    ensures EnrolTx(db, plane, subject, factor, hashes, challenge, now).Some? ==>
              var t := EnrolTx(db, plane, subject, factor, hashes, challenge, now).value;
              && (forall id: nat :: id in Unused(t.codes, plane, subject) <==> db.nextId <= id < db.nextId + |hashes|)
              && (forall id: nat :: id in Unused(t.codes, plane, subject) ==> t.codes[id].codeHash == hashes[id - db.nextId])
              && (factor in db.factors && db.factors[factor].plane == plane && db.factors[factor].subject == subject ==>
                    (t.factors[factor].verifiedAt == Some(now) && t.factors[factor].revokedAt.None?
                     <==> db.factors[factor].revokedAt.None?))
              && (challenge.Some? ==>
                    && challenge.value in db.challenges && db.challenges[challenge.value].consumedAt.None?
                    && t.challenges[challenge.value].consumedAt == Some(now)
                    && t.sessions == db.sessions[t.nextId - 1 := Session(plane, subject, Password, Some(now))]
                    && t.nextId - 1 !in db.sessions)
              && (challenge.None? ==> t.sessions == db.sessions && t.challenges == db.challenges)
  {
    var verified := VerifiedFactor(db, factor, plane, subject, now);
    ReplacedCodesAre(verified, plane, subject, hashes);
    EnrolTxFrame(db, plane, subject, factor, hashes, challenge, now);
    var t := EnrolTx(db, plane, subject, factor, hashes, challenge, now);
    if t.Some? {
      var replaced := ReplacedCodes(verified, plane, subject, hashes);
      assert t.value.codes == replaced.codes && t.value.factors == verified.factors;
      assert forall id: nat :: id in Unused(t.value.codes, plane, subject) <==> id in Unused(replaced.codes, plane, subject);
    }
  }
}
