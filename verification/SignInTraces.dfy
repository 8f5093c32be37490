/**
 * What the steps of a run say about the sessions it ends with: every MFA-satisfied session was earned by a check
 * of its own that passed, followed by the spending of its own challenge.
 */
module SignInTraces {
  import opened Wrappers
  import opened Challenges
  import opened RecoveryTable
  import opened SignIn

  /** The states a run goes through, from the first to the last. */
  ghost function Trace(s: State, steps: seq<Step>): (t: seq<State>)
    requires IsRun(s, steps)
    ensures |t| == |steps| + 1
    decreases |steps|
  {
    if steps == [] then [s] else [s] + Trace(Exec(s, steps[0]), steps[1..])
  }

  /** Step `n` led from one state to the next. */
  ghost predicate Taken(t: seq<State>, steps: seq<Step>, n: nat) {
    n < |steps| < |t| && Enabled(t[n], steps[n]) && t[n + 1] == Exec(t[n], steps[n])
  }

  ghost predicate IsTrace(t: seq<State>, steps: seq<Step>) {
    |t| == |steps| + 1 && Initial(t[0]) && forall n: nat :: n < |steps| ==> Taken(t, steps, n)
  }

  lemma {:induction false} StepIsTaken(s: State, steps: seq<Step>, n: nat)
    requires IsRun(s, steps) && n < |steps|
    ensures Taken(Trace(s, steps), steps, n)
    decreases |steps|
  {
    var rest := Trace(Exec(s, steps[0]), steps[1..]);
    if n == 0 {
      assert rest[0] == Exec(s, steps[0]);
    } else {
      StepIsTaken(Exec(s, steps[0]), steps[1..], n - 1);
      assert steps[1..][n - 1] == steps[n];
    }
  }

  lemma {:induction false} TraceEnds(s: State, steps: seq<Step>)
    requires IsRun(s, steps)
    ensures Trace(s, steps)[0] == s && Trace(s, steps)[|steps|] == Final(s, steps)
    decreases |steps|
  {
    if steps != [] {
      TraceEnds(Exec(s, steps[0]), steps[1..]);
    }
  }

  lemma TraceIsTrace(s: State, steps: seq<Step>)
    requires Initial(s) && IsRun(s, steps)
    ensures IsTrace(Trace(s, steps), steps) && Trace(s, steps)[|steps|] == Final(s, steps)
  {
    TraceEnds(s, steps);
    forall n: nat | n < |steps| ensures Taken(Trace(s, steps), steps, n) {
      StepIsTaken(s, steps, n);
    }
  }

  // ---------------------------------------------------------------- what single steps did

  /** Step `l` loaded challenge `c`, usable then, into request `r`, and read the row `snap`. */
  ghost predicate LoadedAt(t: seq<State>, steps: seq<Step>, l: nat, r: nat, c: nat, snap: Challenge) {
    && l < |steps| < |t| && steps[l] == Load(r, c)
    && var a := t[l];
       CanLoad(a.db, snap.plane, snap.tokenHash, c, a.now) && a.db.challenges[c] == snap
  }

  /** The evidence is right for the account of the challenge row, in the tables `a` before and `u` after the check. */
  ghost predicate Proves(a: Tables, u: Tables, snap: Challenge, evidence: Evidence, authMethod: AuthMethod) {
    match evidence
    case TotpCode(f) =>
      && authMethod == Password && f in a.factors && a.factors[f].plane == snap.plane && a.factors[f].subject == snap.subject
      && a.factors[f].totp && a.factors[f].verifiedAt.Some? && a.factors[f].revokedAt.None?
    case EmailCode => authMethod == Password && snap.emailCodeRef != ""
    case RecoveryCodeFor(codeHash) =>
      var spent := UnusedWith(a.codes, snap.plane, snap.subject, codeHash);
      authMethod == RecoveryCode && spent != {} && forall id :: id in spent ==> id in u.codes && u.codes[id].usedAt.Some?
    case WrongCode => false
  }

  /** Step `i` checked a code of request `r`, which had loaded `snap` and recorded its attempt, and it was right. */
  ghost predicate PassedAt(t: seq<State>, steps: seq<Step>, i: nat, r: nat, c: nat, snap: Challenge, authMethod: AuthMethod)
  {
    && i < |steps| < |t| && steps[i].Check? && steps[i].r == r
    && var a, u := t[i], t[i + 1];
       && VerifyAt(a, r) && a.requests[r].vpc == VCounted(c, snap)
       && Proves(a.db, u.db, snap, steps[i].evidence, authMethod)
  }

  /** Step `j` found the challenge unspent and spent it. */
  ghost predicate SpentAt(t: seq<State>, steps: seq<Step>, j: nat, c: nat) {
    && j < |steps| < |t|
    && var a, u := t[j].db.challenges, t[j + 1].db.challenges;
       c in a && a[c].consumedAt.None? && c in u && u[c].consumedAt.Some?
  }

  /** Step `j` is the consumption by request `r`, and it won the challenge. */
  ghost predicate ConsumedAt(t: seq<State>, steps: seq<Step>, j: nat, r: nat, c: nat) {
    SpentAt(t, steps, j, c) && steps[j] == Consume(r)
  }

  /** Step `j` is the enrolment transaction of request `r`, and it won the challenge. */
  ghost predicate CommittedAt(t: seq<State>, steps: seq<Step>, j: nat, r: nat, c: nat) {
    SpentAt(t, steps, j, c) && steps[j].EnrolCommit? && steps[j].r == r
  }

  /** Step `i` accepted a code for an unrevoked factor of this account, submitted by enrolment request `r`. */
  ghost predicate ValidatedAt(t: seq<State>, steps: seq<Step>, i: nat, r: nat, plane: Plane, subject: nat) {
    && i < |steps| < |t| && steps[i] == EnrolValidate(r)
    && var a := t[i];
       && EnrolAt(a, r) && a.requests[r].factor in a.db.factors
       && var f := a.db.factors[a.requests[r].factor];
          f.plane == plane && f.subject == subject && f.revokedAt.None?
  }

  // ---------------------------------------------------------------- what requests and origins rest on

  ghost predicate LoadedBefore(t: seq<State>, steps: seq<Step>, n: nat, r: nat, c: nat, snap: Challenge) {
    exists l: nat :: l < n && LoadedAt(t, steps, l, r, c, snap)
  }

  /** Loaded, then passed at step `i`, before step `n`. */
  ghost predicate PassedBefore(t: seq<State>, steps: seq<Step>, n: nat, r: nat, c: nat, snap: Challenge,
                               authMethod: AuthMethod, i: nat)
  {
    i < n && LoadedBefore(t, steps, i, r, c, snap) && PassedAt(t, steps, i, r, c, snap, authMethod)
  }

  ghost predicate RequestRests(t: seq<State>, steps: seq<Step>, n: nat, r: nat, q: Request) {
    match q
    case Verify(_, _, VLoaded(c, snap)) => LoadedBefore(t, steps, n, r, c, snap)
    case Verify(_, _, VIdentified(c, snap)) => LoadedBefore(t, steps, n, r, c, snap)
    case Verify(_, _, VCounted(c, snap)) => LoadedBefore(t, steps, n, r, c, snap)
    case Verify(_, _, VPassed(c, snap, authMethod, i)) => PassedBefore(t, steps, n, r, c, snap, authMethod, i)
    case Verify(_, _, VConsumed(c, snap, authMethod, i, j)) =>
      j < n && PassedBefore(t, steps, j, r, c, snap, authMethod, i) && ConsumedAt(t, steps, j, r, c)
    case Enrol(plane, _, _, _, EValidated(subject, _, i)) => i < n && ValidatedAt(t, steps, i, r, plane, subject)
    case Enrol(plane, _, _, _, EReady(subject, _, i)) => i < n && ValidatedAt(t, steps, i, r, plane, subject)
    case _ => true
  }

  /** The session was earned by code: one request loaded, passed, spent the challenge and issued it, in this order. */
  ghost predicate EarnedByCode(t: seq<State>, steps: seq<Step>, n: nat, o: Origin, session: Session, snap: Challenge) {
    && snap.plane == session.plane && snap.subject == session.subject
    && o.consumedAt < o.issuedAt < n && n <= |steps| && steps[o.issuedAt] == Complete(o.request)
    && PassedBefore(t, steps, o.consumedAt, o.request, o.challenge, snap, session.authMethod, o.checkedAt)
    && ConsumedAt(t, steps, o.consumedAt, o.request, o.challenge)
  }

  /** The session was earned by enrolling: a factor of its subject was validated, then one transaction did the rest. */
  ghost predicate EarnedByEnrolment(t: seq<State>, steps: seq<Step>, n: nat, o: Origin, session: Session) {
    && o.checkedAt < o.consumedAt == o.issuedAt < n && n <= |steps|
    && ValidatedAt(t, steps, o.checkedAt, o.request, session.plane, session.subject)
    && CommittedAt(t, steps, o.consumedAt, o.request, o.challenge)
  }

  ghost predicate Earned(t: seq<State>, steps: seq<Step>, n: nat, o: Origin, session: Session) {
    if o.enrolled then EarnedByEnrolment(t, steps, n, o, session)
    else exists snap :: EarnedByCode(t, steps, n, o, session, snap)
  }

  ghost predicate RequestsRest(t: seq<State>, steps: seq<Step>, n: nat) {
    n < |t| && forall r :: r in t[n].requests ==> RequestRests(t, steps, n, r, t[n].requests[r])
  }

  ghost predicate AllEarned(t: seq<State>, steps: seq<Step>, n: nat, origin: map<nat, Origin>, sessions: map<nat, Session>)
  {
    forall id :: id in origin ==> id in sessions && Earned(t, steps, n, origin[id], sessions[id])
  }

  // ---------------------------------------------------------------- one step further

  lemma StillEarned(t: seq<State>, steps: seq<Step>, n: nat, o: Origin, session: Session)
    requires n < |steps| && Earned(t, steps, n, o, session)
    ensures Earned(t, steps, n + 1, o, session)
  {
    if !o.enrolled {
      var snap :| EarnedByCode(t, steps, n, o, session, snap);
      assert EarnedByCode(t, steps, n + 1, o, session, snap);
    }
  }

  lemma CheckRests(t: seq<State>, steps: seq<Step>, n: nat, r: nat, evidence: Evidence)
    requires Taken(t, steps, n) && steps[n] == Check(r, evidence) && t[n].clock == n
    requires r in t[n].requests && RequestRests(t, steps, n, r, t[n].requests[r])
    ensures r in t[n + 1].requests
    ensures RequestRests(t, steps, n + 1, r, t[n + 1].requests[r])
  {
    var a, u := t[n], t[n + 1];
    var pc := a.requests[r].vpc;
    if evidence != WrongCode {
      assert PassedAt(t, steps, n, r, pc.c, pc.snap, u.requests[r].vpc.authMethod);
    }
  }

  lemma ConsumeRests(t: seq<State>, steps: seq<Step>, n: nat, r: nat)
    requires Taken(t, steps, n) && steps[n] == Consume(r) && t[n].clock == n
    requires r in t[n].requests && RequestRests(t, steps, n, r, t[n].requests[r])
    ensures r in t[n + 1].requests
    ensures RequestRests(t, steps, n + 1, r, t[n + 1].requests[r])
  {
  }

  /** Arriving, naming the subject and committing leave a request that rests on nothing. */
  lemma FreshRests(t: seq<State>, steps: seq<Step>, n: nat, r: nat)
    requires Taken(t, steps, n)
    requires (steps[n].Arrive? || steps[n].EnrolSubject? || steps[n].EnrolCommit?) && steps[n].r == r
    ensures r in t[n + 1].requests
    ensures RequestRests(t, steps, n + 1, r, t[n + 1].requests[r])
  {
  }

  lemma CheckMovesOne(a: State, r: nat, evidence: Evidence)
    requires Enabled(a, Check(r, evidence))
    ensures var u := Exec(a, Check(r, evidence)); r in u.requests && u.requests == a.requests[r := u.requests[r]]
  {
  }

  ghost predicate KeepsSessions(a: State, u: State) {
    forall id :: id in a.db.sessions ==> id in u.db.sessions && u.db.sessions[id] == a.db.sessions[id]
  }

  lemma ProgressMovesOne(a: State, step: Step)
    requires Enabled(a, step) && (step.CountAttempt? || step.Consume? || step.Complete?)
    ensures var u := Exec(a, step); step.r in u.requests && u.requests == a.requests[step.r := u.requests[step.r]]
  {
  }

  lemma OthersStand(a: State, step: Step, r: nat)
    requires Enabled(a, step) && (Outside(step) || step.r != r) && r in Exec(a, step).requests
    ensures r in a.requests && Exec(a, step).requests[r] == a.requests[r]
  {
    if Outside(step) {
      OutsideIssuesNothing(a, step);
    } else if OnlyAdvances(step) {
      OnlyAdvancesIs(a, step);
    } else if step.Check? {
      CheckMovesOne(a, step.r, step.evidence);
    } else if !step.EnrolCommit? {
      ProgressMovesOne(a, step);
    }
  }

  lemma MoverRests(t: seq<State>, steps: seq<Step>, n: nat, r: nat)
    requires Taken(t, steps, n) && t[n].clock == n
    requires RequestsRest(t, steps, n) && !Outside(steps[n]) && steps[n].r == r
    ensures r in t[n + 1].requests
    ensures RequestRests(t, steps, n + 1, r, t[n + 1].requests[r])
  {
    match steps[n]
    case Load(_, c) =>
      var a := t[n];
      assert LoadedAt(t, steps, n, r, c, a.db.challenges[c]);
    case Check(_, evidence) => CheckRests(t, steps, n, r, evidence);
    case Consume(_) => ConsumeRests(t, steps, n, r);
    case Arrive(_, _) => FreshRests(t, steps, n, r);
    case EnrolSubject(_, _) => FreshRests(t, steps, n, r);
    case EnrolCommit(_, _) => FreshRests(t, steps, n, r);
    case _ =>
  }

  lemma RequestsRestStep(t: seq<State>, steps: seq<Step>, n: nat)
    requires Taken(t, steps, n) && t[n].clock == n && RequestsRest(t, steps, n)
    ensures RequestsRest(t, steps, n + 1)
  {
    var a, u := t[n], t[n + 1];
    forall r | r in u.requests ensures RequestRests(t, steps, n + 1, r, u.requests[r]) {
      if !Outside(steps[n]) && steps[n].r == r {
        MoverRests(t, steps, n, r);
      } else {
        OthersStand(a, steps[n], r);
      }
    }
  }

  /** The step added this one session, earned by then. */
  ghost predicate Adds(t: seq<State>, steps: seq<Step>, n: nat, a: State, u: State, id: nat, o: Origin, session: Session) {
    && id !in a.db.sessions && Earned(t, steps, n + 1, o, session)
    && u.origin == a.origin[id := o] && u.db.sessions == a.db.sessions[id := session]
  }

  lemma CompleteEarns(t: seq<State>, steps: seq<Step>, n: nat, a: State, u: State, r: nat)
    returns (o: Origin, session: Session)
    requires n < |steps| < |t| && steps[n] == Complete(r)
    requires a == t[n] && a.clock == n && KeysOk(a) && Enabled(a, steps[n]) && u == Exec(a, steps[n])
    requires VerifyAt(a, r) && VerifyOk(a, a.requests[r]) && RequestRests(t, steps, n, r, a.requests[r])
    ensures Adds(t, steps, n, a, u, a.db.nextId, o, session)
  {
    var q := a.requests[r];
    o, session := u.origin[a.db.nextId], u.db.sessions[a.db.nextId];
    assert EarnedByCode(t, steps, n + 1, o, session, q.vpc.snap);
  }

  /** A committed mid-login enrolment adds one session, earned by enrolling. */
  lemma CommitEarns(t: seq<State>, steps: seq<Step>, n: nat, a: State, u: State, r: nat, hashes: seq<string>)
    returns (id: nat, o: Origin, session: Session)
    requires Taken(t, steps, n)
    requires steps[n] == EnrolCommit(r, hashes) && Issues(a, r, hashes)
    requires a == t[n] && a.clock == n && KeysOk(a) && Enabled(a, steps[n])
    requires u == Exec(a, steps[n]) && u == t[n + 1]
    requires RequestRests(t, steps, n, r, a.requests[r])
    ensures Adds(t, steps, n, a, u, id, o, session)
  {
    var q := a.requests[r];
    EnrolTxFrame(a.db, q.plane, q.epc.subject, q.factor, hashes, q.epc.challenge, a.now);
    EnrolIssueShape(a, r, hashes);
    assert SpentAt(t, steps, n, q.epc.challenge.value);
    id := u.db.nextId - 1;
    o, session := u.origin[id], u.db.sessions[id];
  }

  /** The enrolment transaction commits and issues a session. */
  ghost predicate Issues(a: State, r: nat, hashes: seq<string>) {
    EnrolAt(a, r) && a.requests[r].epc.EReady?
    && var q := a.requests[r];
       q.epc.challenge.Some? && EnrolTx(a.db, q.plane, q.epc.subject, q.factor, hashes, q.epc.challenge, a.now).Some?
  }

  /** Steps that neither complete a sign-in nor commit an enrolment issue no MFA-satisfied session here. */
  lemma QuietStep(a: State, step: Step)
    requires Enabled(a, step) && KeysOk(a) && !step.Complete? && !step.EnrolCommit?
    ensures Exec(a, step).origin == a.origin
    ensures KeepsSessions(a, Exec(a, step))
  {
    if Outside(step) {
      OutsideKeeps(a, step);
      OutsideIssuesNothing(a, step);
    } else if OnlyAdvances(step) {
      OnlyAdvancesIs(a, step);
    } else {
    }
  }

  lemma OneMoreEarned(t: seq<State>, steps: seq<Step>, n: nat, a: State, u: State, id: nat, o: Origin, session: Session)
    requires n < |steps| && AllEarned(t, steps, n, a.origin, a.db.sessions)
    requires Adds(t, steps, n, a, u, id, o, session)
    ensures AllEarned(t, steps, n + 1, u.origin, u.db.sessions)
  {
    var before, after := a.db.sessions, u.db.sessions;
    forall i | i in u.origin ensures i in after && Earned(t, steps, n + 1, u.origin[i], after[i]) {
      if i != id {
        StillEarned(t, steps, n, a.origin[i], before[i]);
      }
    }
  }

  lemma OriginsRestStep(t: seq<State>, steps: seq<Step>, n: nat, a: State, u: State)
    requires n < |steps| < |t| && a == t[n] && u == t[n + 1]
    requires Enabled(a, steps[n]) && u == Exec(a, steps[n]) && a.clock == n && KeysOk(a)
    requires steps[n].Complete? && VerifyAt(a, steps[n].r) ==> VerifyOk(a, a.requests[steps[n].r])
    requires RequestsRest(t, steps, n) && AllEarned(t, steps, n, a.origin, a.db.sessions)
    ensures AllEarned(t, steps, n + 1, u.origin, u.db.sessions)
  {
    if steps[n].Complete? {
      var o, session := CompleteEarns(t, steps, n, a, u, steps[n].r);
      OneMoreEarned(t, steps, n, a, u, a.db.nextId, o, session);
    } else if steps[n].EnrolCommit? && Issues(a, steps[n].r, steps[n].hashes) {
      var id, o, session := CommitEarns(t, steps, n, a, u, steps[n].r, steps[n].hashes);
      OneMoreEarned(t, steps, n, a, u, id, o, session);
    } else {
      NothingIssued(a, steps[n]);
      forall id | id in a.origin ensures id in u.db.sessions && Earned(t, steps, n + 1, a.origin[id], u.db.sessions[id]) {
        StillEarned(t, steps, n, a.origin[id], a.db.sessions[id]);
      }
    }
  }

  lemma NothingIssued(a: State, step: Step)
    requires Enabled(a, step) && KeysOk(a) && !step.Complete?
    requires step.EnrolCommit? ==> !Issues(a, step.r, step.hashes)
    ensures Exec(a, step).origin == a.origin && KeepsSessions(a, Exec(a, step))
  {
    if step.EnrolCommit? {
      var q := a.requests[step.r];
      EnrolTxFrame(a.db, q.plane, q.epc.subject, q.factor, step.hashes, q.epc.challenge, a.now);
    } else {
      QuietStep(a, step);
    }
  }

  ghost predicate Rests(t: seq<State>, steps: seq<Step>, n: nat) {
    && RequestsRest(t, steps, n) && AllEarned(t, steps, n, t[n].origin, t[n].db.sessions)
    && Inv(t[n]) && t[n].clock == n
  }

  lemma RestStep(t: seq<State>, steps: seq<Step>, n: nat)
    requires Taken(t, steps, n) && Rests(t, steps, n)
    ensures Rests(t, steps, n + 1)
  {
    InvStep(t[n], steps[n]);
    RequestsRestStep(t, steps, n);
    if steps[n].Complete? {
      assert RequestOk(t[n], t[n].requests[steps[n].r]);
    }
    OriginsRestStep(t, steps, n, t[n], t[n + 1]);
  }

  lemma {:induction false} AllRest(t: seq<State>, steps: seq<Step>, n: nat)
    requires IsTrace(t, steps) && n <= |steps|
    ensures Rests(t, steps, n)
  {
    if n > 0 {
      AllRest(t, steps, n - 1);
      RestStep(t, steps, n - 1);
    }
  }

  /**
   * In every interleaving, each MFA-satisfied session that did not come from single sign-on has a spent
   * challenge of the same plane and subject, which no other such session has. It was earned in the run: either
   * one request loaded that challenge, had a code checked that was right for this account, spent the challenge
   * and issued the session, in this order; or an enrolment request had a code accepted for an unrevoked factor
   * of this account, and then one transaction spent the challenge and issued the session.
   */
  lemma SessionsInjectIntoSpentChallenges(s: State, steps: seq<Step>)
    requires Initial(s) && IsRun(s, steps)
    ensures var u, t := Final(s, steps), Trace(s, steps);
            && (forall id :: MfaSession(u, id) ==>
                  && id in u.origin && u.origin[id].challenge in u.db.challenges
                  && var row := u.db.challenges[u.origin[id].challenge];
                     && row.consumedAt.Some? && row.plane == u.db.sessions[id].plane && row.subject == u.db.sessions[id].subject
                     && Earned(t, steps, |steps|, u.origin[id], u.db.sessions[id]))
            && (forall id, id' :: MfaSession(u, id) && MfaSession(u, id') && id != id' ==>
                  u.origin[id].challenge != u.origin[id'].challenge)
  {
    var u, t := Final(s, steps), Trace(s, steps);
    OriginsInject(s, steps);
    TraceIsTrace(s, steps);
    AllRest(t, steps, |steps|);
    forall id | MfaSession(u, id) ensures OriginOk(u, id) {
    }
  }
}
