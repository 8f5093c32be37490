/** What the runs of the sign-in machine say about recovery codes: each session that used one spent rows of its own. */
module RecoverySignIns {
  import opened Challenges
  import opened RecoveryTable
  import opened SignIn
  import opened SignInTraces

  /** The row is spent or deleted, and no later row can take its number. */
  ghost predicate Dead(db: Tables, row: nat) { row < db.nextId && (row in db.codes ==> db.codes[row].usedAt.Some?) }

  ghost predicate CodesBelow(db: Tables) { forall row :: row in db.codes ==> row < db.nextId }

  /** The check that earned this session spent this row, an unused code of its account with the submitted digest. */
  ghost predicate Spends(t: seq<State>, steps: seq<Step>, o: Origin, session: Session, row: nat) {
    && o.checkedAt < |steps| < |t| && steps[o.checkedAt].Check? && steps[o.checkedAt].evidence.RecoveryCodeFor?
    && row in UnusedWith(t[o.checkedAt].db.codes, session.plane, session.subject, steps[o.checkedAt].evidence.codeHash)
    && Dead(t[o.checkedAt + 1].db, row)
  }

  lemma CommitKeepsDead(a: State, r: nat, hashes: seq<string>)
    requires Enabled(a, EnrolCommit(r, hashes)) && CodesBelow(a.db)
    ensures var u := Exec(a, EnrolCommit(r, hashes));
            CodesBelow(u.db) && forall row :: Dead(a.db, row) ==> Dead(u.db, row)
  {
    var q := a.requests[r];
    var db := VerifiedFactor(a.db, q.factor, q.plane, q.epc.subject, a.now);
    assert db.codes == a.db.codes && db.nextId == a.db.nextId;
    NewCodesAre(q.plane, q.epc.subject, hashes, db.nextId);
    var replaced, u := ReplacedCodes(db, q.plane, q.epc.subject, hashes), Exec(a, EnrolCommit(r, hashes)).db;
    forall row | Dead(a.db, row) ensures Dead(u, row) {
      assert Dead(db, row);
      assert Dead(replaced, row);
    }
  }

  lemma OtherStepsLeaveCodes(a: State, step: Step)
    requires Enabled(a, step) && !step.Check? && !step.EnrolCommit? && !step.Elsewhere?
    ensures Exec(a, step).db.codes == a.db.codes && Exec(a, step).db.nextId >= a.db.nextId
  {
  }

  lemma DeadStays(a: State, step: Step)
    requires Enabled(a, step) && CodesBelow(a.db)
    ensures CodesBelow(Exec(a, step).db) && forall row :: Dead(a.db, row) ==> Dead(Exec(a, step).db, row)
  {
    if step.EnrolCommit? {
      CommitKeepsDead(a, step.r, step.hashes);
    } else if !step.Elsewhere? && !step.Check? {
      OtherStepsLeaveCodes(a, step);
    }
  }

  lemma {:induction false} DeadForGood(t: seq<State>, steps: seq<Step>, i: nat, n: nat)
    requires IsTrace(t, steps) && i <= n <= |steps| && CodesBelow(t[i].db)
    ensures CodesBelow(t[n].db) && forall row :: Dead(t[i].db, row) ==> Dead(t[n].db, row)
  {
    if i < n {
      assert Taken(t, steps, n - 1);
      DeadForGood(t, steps, i, n - 1);
      DeadStays(t[n - 1], steps[n - 1]);
    }
  }

  /** A session earned with a recovery code spent a row of its account; its check belonged to its own challenge. */
  lemma EarnedSpends(t: seq<State>, steps: seq<Step>, o: Origin, session: Session) returns (row: nat, snap: Challenge)
    requires |steps| < |t| && !o.enrolled && session.authMethod == RecoveryCode && Earned(t, steps, |steps|, o, session)
    requires o.checkedAt < |steps| ==> CodesBelow(t[o.checkedAt].db)
    requires o.checkedAt < |steps| ==> t[o.checkedAt].db.nextId <= t[o.checkedAt + 1].db.nextId
    ensures Spends(t, steps, o, session, row)
    ensures VerifyAt(t[o.checkedAt], o.request) && steps[o.checkedAt].r == o.request
    ensures t[o.checkedAt].requests[o.request].vpc == VCounted(o.challenge, snap)
  {
    snap :| EarnedByCode(t, steps, |steps|, o, session, snap);
    var spent := UnusedWith(t[o.checkedAt].db.codes, snap.plane, snap.subject, steps[o.checkedAt].evidence.codeHash);
    row :| row in spent;
  }

  lemma CodesBelowAt(t: seq<State>, steps: seq<Step>, n: nat)
    requires IsTrace(t, steps) && n <= |steps|
    ensures CodesBelow(t[n].db)
  {
    DeadForGood(t, steps, 0, n);
  }

  /** What one recovery-code session rests on: its row, dead at the end, and its check, made for its own challenge. */
  lemma CodeSessionSpends(t: seq<State>, steps: seq<Step>, o: Origin, session: Session) returns (row: nat, snap: Challenge)
    requires IsTrace(t, steps)
    requires !o.enrolled && session.authMethod == RecoveryCode && Earned(t, steps, |steps|, o, session)
    ensures Spends(t, steps, o, session, row)
    ensures VerifyAt(t[o.checkedAt], o.request) && steps[o.checkedAt].r == o.request
    ensures t[o.checkedAt].requests[o.request].vpc == VCounted(o.challenge, snap)
  {
    var snap' :| EarnedByCode(t, steps, |steps|, o, session, snap');
    assert Taken(t, steps, o.checkedAt);
    CodesBelowAt(t, steps, o.checkedAt);
    row, snap := EarnedSpends(t, steps, o, session);
  }

  lemma SpentAreDisjoint(t: seq<State>, steps: seq<Step>, o: Origin, o': Origin, session: Session, session': Session,
                         row: nat)
    requires IsTrace(t, steps)
    requires o.checkedAt < o'.checkedAt && Spends(t, steps, o, session, row)
    ensures !Spends(t, steps, o', session', row)
  {
    if Spends(t, steps, o', session', row) {
      CodesBelowAt(t, steps, o.checkedAt + 1);
      DeadForGood(t, steps, o.checkedAt + 1, o'.checkedAt);
    }
  }

  /** Two recovery-code sessions with different challenges spent different rows. */
  lemma DifferentRows(t: seq<State>, steps: seq<Step>, o: Origin, o': Origin, session: Session, session': Session, row: nat)
    requires IsTrace(t, steps)
    requires !o.enrolled && session.authMethod == RecoveryCode && Earned(t, steps, |steps|, o, session)
    requires !o'.enrolled && session'.authMethod == RecoveryCode && Earned(t, steps, |steps|, o', session')
    requires o.challenge != o'.challenge && Spends(t, steps, o, session, row)
    ensures !Spends(t, steps, o', session', row)
  {
    var _, snap := CodeSessionSpends(t, steps, o, session);
    var _, snap' := CodeSessionSpends(t, steps, o', session');
    if o.checkedAt < o'.checkedAt {
      SpentAreDisjoint(t, steps, o, o', session, session', row);
    } else if Spends(t, steps, o', session', row) {
      assert o.checkedAt > o'.checkedAt;
      SpentAreDisjoint(t, steps, o', o, session', session, row);
    }
  }

  ghost predicate CodeSession(u: State, id: nat) { MfaSession(u, id) && u.db.sessions[id].authMethod == RecoveryCode }

  lemma CodeSessionIsEarned(s: State, steps: seq<Step>, id: nat)
    requires Initial(s) && IsRun(s, steps) && CodeSession(Final(s, steps), id)
    ensures var u := Final(s, steps);
            && id in u.origin && !u.origin[id].enrolled
            && Earned(Trace(s, steps), steps, |steps|, u.origin[id], u.db.sessions[id])
  {
    OriginsInject(s, steps);
    assert OriginOk(Final(s, steps), id);
    SessionsInjectIntoSpentChallenges(s, steps);
  }

  lemma CodeSessionHasRow(t: seq<State>, steps: seq<Step>, o: Origin, session: Session)
    requires IsTrace(t, steps)
    requires !o.enrolled && session.authMethod == RecoveryCode && Earned(t, steps, |steps|, o, session)
    ensures exists row :: Spends(t, steps, o, session, row) && Dead(t[|steps|].db, row)
  {
    var row, _ := CodeSessionSpends(t, steps, o, session);
    CodesBelowAt(t, steps, o.checkedAt + 1);
    DeadForGood(t, steps, o.checkedAt + 1, |steps|);
  }

  /**
   * In every interleaving each session signed in with a recovery code spent at least one stored code of its own
   * account, which stays spent or is deleted, and no two such sessions spent the same one.
   */
  lemma RecoverySessionsSpendTheirOwnCodes(s: State, steps: seq<Step>)
    requires Initial(s) && IsRun(s, steps)
    ensures var u, t := Final(s, steps), Trace(s, steps);
            && (forall id :: CodeSession(u, id) ==>
                  id in u.origin && exists row :: Spends(t, steps, u.origin[id], u.db.sessions[id], row) && Dead(u.db, row))
            && (forall id, id', row :: CodeSession(u, id) && CodeSession(u, id') && id != id'
                                       && Spends(t, steps, u.origin[id], u.db.sessions[id], row) ==>
                  !Spends(t, steps, u.origin[id'], u.db.sessions[id'], row))
  {
    var u, t := Final(s, steps), Trace(s, steps);
    TraceIsTrace(s, steps);
    forall id | CodeSession(u, id)
      ensures id in u.origin && exists row :: Spends(t, steps, u.origin[id], u.db.sessions[id], row) && Dead(u.db, row)
    {
      CodeSessionIsEarned(s, steps, id);
      CodeSessionHasRow(t, steps, u.origin[id], u.db.sessions[id]);
    }
    forall id, id', row | CodeSession(u, id) && CodeSession(u, id') && id != id'
                          && Spends(t, steps, u.origin[id], u.db.sessions[id], row)
      ensures !Spends(t, steps, u.origin[id'], u.db.sessions[id'], row)
    {
      CodeSessionIsEarned(s, steps, id);
      CodeSessionIsEarned(s, steps, id');
      OriginsInject(s, steps);
      DifferentRows(t, steps, u.origin[id], u.origin[id'], u.db.sessions[id], u.db.sessions[id'], row);
    }
  }
}
