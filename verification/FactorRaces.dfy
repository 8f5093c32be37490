/**
 * Deletions and enrolments of second factors as interleaved transactions, one step per statement, with the
 * owner's row lock, the row locks of the updates, and reads of committed data only.
 */
module FactorRaces {
  import opened Arith
  import opened Wrappers
  import opened Factors

  /** A DeleteMFA transaction: lock the owner, count, revoke, commit. `pending` is its uncommitted row. */
  datatype DeletePc = DStart | DLocked | DCounted(count: nat) | DRevoked(pending: Option<Factor>) | DDone

  /** A VerifyTOTPEnrollment transaction, as far as the factor goes: verify, commit. */
  datatype EnrolPc = EStart | EVerified(pending: Option<Factor>) | EDone

  datatype Request =
    | Delete(subject: nat, target: nat, policyRequires: bool, dpc: DeletePc)
    | Enrol(subject: nat, target: nat, epc: EnrolPc)

  /** Committed rows, the lock on each owner row, the lock on each factor row, and the running transactions. */
  datatype State = State(
    rows: Rows,
    now: int,
    ownerLock: map<nat, nat>,
    rowLock: map<nat, nat>,
    requests: map<nat, Request>)

  datatype Step =
    | Arrive(r: nat, request: Request)
    | LockOwner(r: nat)
    | Count(r: nat)
    | RevokeRow(r: nat)
    | CommitDelete(r: nat)
    | VerifyRow(r: nat)
    | CommitEnrol(r: nat)
    | Abort(r: nat)
    | CreateRow(id: nat, subject: nat)
    | Tick(elapsed: nat)

  predicate DeleteAt(s: State, r: nat) { r in s.requests && s.requests[r].Delete? }

  predicate EnrolAt(s: State, r: nat) { r in s.requests && s.requests[r].Enrol? }

  /** The update finds the row free, or does not match it at all. */
  predicate RowFree(s: State, r: nat) {
    r in s.requests && (Addresses(s.rows, s.requests[r].subject, s.requests[r].target) ==> s.requests[r].target !in s.rowLock)
  }

  ghost predicate Enabled(s: State, step: Step) {
    match step
    case Arrive(r, request) => r !in s.requests && (if request.Delete? then request.dpc == DStart else request.epc == EStart)
    case LockOwner(r) => DeleteAt(s, r) && s.requests[r].dpc == DStart && s.requests[r].subject !in s.ownerLock
    case Count(r) => DeleteAt(s, r) && s.requests[r].dpc == DLocked
    case RevokeRow(r) => DeleteAt(s, r) && s.requests[r].dpc.DCounted? && RowFree(s, r)
    case CommitDelete(r) => DeleteAt(s, r) && s.requests[r].dpc.DRevoked?
    case VerifyRow(r) => EnrolAt(s, r) && s.requests[r].epc == EStart && RowFree(s, r)
    case CommitEnrol(r) => EnrolAt(s, r) && s.requests[r].epc.EVerified?
    case Abort(r) => r in s.requests
    case CreateRow(id, _) => id !in s.rows
    case Tick(_) => true
  }

  /** Both kinds of lock end with their transaction. */
  function Released(s: State, r: nat): State {
    s.(ownerLock := map k | k in s.ownerLock && s.ownerLock[k] != r :: s.ownerLock[k],
       rowLock := map k | k in s.rowLock && s.rowLock[k] != r :: s.rowLock[k])
  }

  function Ended(q: Request): Request { if q.Delete? then q.(dpc := DDone) else q.(epc := EDone) }

  function Finished(s: State, r: nat): State
    requires r in s.requests
  {
    Released(s.(requests := s.requests[r := Ended(s.requests[r])]), r)
  }

  function Written(rows: Rows, id: nat, pending: Option<Factor>): Rows {
    if pending.Some? then rows[id := pending.value] else rows
  }

  ghost function Exec(s: State, step: Step): State
    requires Enabled(s, step)
  {
    match step
    case Arrive(r, request) => s.(requests := s.requests[r := request])
    case LockOwner(r) =>
      s.(ownerLock := s.ownerLock[s.requests[r].subject := r], requests := s.requests[r := s.requests[r].(dpc := DLocked)])
    case Count(r) =>
      var q, n := s.requests[r], |Live(s.rows, s.requests[r].subject)|;
      if q.policyRequires && n <= 1 then Finished(s, r) else s.(requests := s.requests[r := q.(dpc := DCounted(n))])
    case RevokeRow(r) =>
      var q := s.requests[r];
      if Addresses(s.rows, q.subject, q.target) then
        s.(rowLock := s.rowLock[q.target := r],
           requests := s.requests[r := q.(dpc := DRevoked(Some(RevokedRow(s.rows[q.target], s.now))))])
      else s.(requests := s.requests[r := q.(dpc := DRevoked(None))])
    case CommitDelete(r) =>
      var q := s.requests[r];
      Finished(s.(rows := Written(s.rows, q.target, q.dpc.pending)), r)
    case VerifyRow(r) =>
      var q := s.requests[r];
      if Addresses(s.rows, q.subject, q.target) then
        s.(rowLock := s.rowLock[q.target := r],
           requests := s.requests[r := q.(epc := EVerified(Some(VerifiedRow(s.rows, q.subject, q.target, s.now))))])
      else s.(requests := s.requests[r := q.(epc := EVerified(None))])
    case CommitEnrol(r) =>
      var q := s.requests[r];
      Finished(s.(rows := Written(s.rows, q.target, q.epc.pending)), r)
    case Abort(r) => Finished(s, r)
    case CreateRow(id, subject) => s.(rows := s.rows[id := Factor(subject, None, None, false)])
    case Tick(elapsed) => s.(now := s.now + elapsed)
  }

  // ---------------------------------------------------------------- the invariant

  /** A request that holds its owner's lock. */
  predicate HoldsOwner(q: Request) { q.Delete? && (q.dpc.DLocked? || q.dpc.DCounted? || q.dpc.DRevoked?) }

  /** The uncommitted row of a transaction. */
  function Pending(q: Request): Option<Factor> {
    if q.Delete? && q.dpc.DRevoked? then q.dpc.pending
    else if q.Enrol? && q.epc.EVerified? then q.epc.pending
    else None
  }

  /** Writing it keeps the owner, and only a deletion takes usability away. */
  ghost predicate PendingOk(s: State, r: nat, q: Request) {
    Pending(q).Some? ==>
      && q.target in s.rowLock && s.rowLock[q.target] == r
      && Addresses(s.rows, q.subject, q.target)
      && Pending(q).value.subject == q.subject
      && (if q.Enrol? then Usable(Pending(q).value, q.subject) else Pending(q).value.revokedAt.Some?)
  }

  /** What a counted deletion under policy may rely on: enough committed live factors, until it commits. */
  ghost predicate CountOk(s: State, q: Request) {
    q.Delete? && q.policyRequires ==>
      && (q.dpc.DCounted? ==> q.dpc.count >= 2 && |Live(s.rows, q.subject)| >= q.dpc.count)
      && (q.dpc.DRevoked? ==> |Live(s.rows, q.subject)| >= 2)
  }

  ghost predicate LockOk(s: State, r: nat, q: Request) {
    HoldsOwner(q) ==> q.subject in s.ownerLock && s.ownerLock[q.subject] == r
  }

  ghost predicate RequestOk(s: State, r: nat) {
    r in s.requests ==> PendingOk(s, r, s.requests[r]) && CountOk(s, s.requests[r]) && LockOk(s, r, s.requests[r])
  }

  ghost predicate Inv(s: State) {
    forall r :: r in s.requests ==> RequestOk(s, r)
  }

  /** What the other requests see of a step: their locks stand, their rows stand, and no live factor of a
      subject they have locked goes away. */
  ghost predicate Undisturbed(s: State, u: State, r: nat) {
    forall r' :: r' in u.requests && r' != r ==>
      && r' in s.requests && u.requests[r'] == s.requests[r']
      && var q := s.requests[r'];
         && (HoldsOwner(q) ==>
               && (q.subject in s.ownerLock && s.ownerLock[q.subject] == r' ==>
                     q.subject in u.ownerLock && u.ownerLock[q.subject] == r')
               && Live(s.rows, q.subject) <= Live(u.rows, q.subject))
         && (Pending(q).Some? && PendingOk(s, r', q) ==>
               && q.target in u.rowLock && u.rowLock[q.target] == r'
               && q.target in u.rows && u.rows[q.target] == s.rows[q.target])
  }

  lemma InvFrame(s: State, u: State, r: nat)
    requires Inv(s) && Undisturbed(s, u, r) && RequestOk(u, r)
    ensures Inv(u)
  {
    forall r' | r' in u.requests ensures RequestOk(u, r') {
      if r' != r {
        var q := s.requests[r'];
        assert RequestOk(s, r');
        if HoldsOwner(q) {
          SubsetSize(Live(s.rows, q.subject), Live(u.rows, q.subject));
        }
      }
    }
  }

  /** Ending a transaction leaves the locks of the others alone. */
  lemma FinishedLocks(s: State, r: nat)
    requires r in s.requests
    ensures var u := Finished(s, r);
            && u.rows == s.rows && u.now == s.now
            && (forall k :: k in s.ownerLock && s.ownerLock[k] != r ==> k in u.ownerLock && u.ownerLock[k] == s.ownerLock[k])
            && (forall k :: k in s.rowLock && s.rowLock[k] != r ==> k in u.rowLock && u.rowLock[k] == s.rowLock[k])
            && u.requests == s.requests[r := Ended(s.requests[r])]
            && Pending(Ended(s.requests[r])).None? && !HoldsOwner(Ended(s.requests[r]))
  {
  }

  /** Writing a row of one subject leaves the others' live factors alone, and takes at most one from its owner. */
  lemma WritingTakes(rows: Rows, id: nat, f: Factor, subject: nat)
    requires id in rows && rows[id].subject == f.subject
    ensures subject != f.subject ==> Live(rows[id := f], subject) == Live(rows, subject)
    ensures |Live(rows[id := f], subject)| >= |Live(rows, subject)| - 1
  {
    var after := Live(rows[id := f], subject);
    if subject != f.subject {
      assert after == Live(rows, subject);
    }
    assert Live(rows, subject) <= after + {id};
    SubsetSize(Live(rows, subject), after + {id});
  }

  lemma InvSmall(s: State, step: Step)
    requires Inv(s) && Enabled(s, step)
    requires step.Arrive? || step.LockOwner? || step.Count? || step.Abort?
    ensures Inv(Exec(s, step))
  {
    var r := step.r;
    if r in s.requests {
      assert RequestOk(s, r);
      FinishedLocks(s, r);
    }
    forall r' | r' in s.requests ensures RequestOk(s, r') {
    }
    InvFrame(s, Exec(s, step), r);
  }

  /** An update takes a free row's lock and holds its new version back. */
  lemma InvRevokeRow(s: State, r: nat)
    requires Inv(s) && Enabled(s, RevokeRow(r))
    ensures Inv(Exec(s, RevokeRow(r)))
  {
    assert RequestOk(s, r);
    InvFrame(s, Exec(s, RevokeRow(r)), r);
  }

  lemma InvVerifyRow(s: State, r: nat)
    requires Inv(s) && Enabled(s, VerifyRow(r))
    ensures Inv(Exec(s, VerifyRow(r)))
  {
    assert RequestOk(s, r);
    InvFrame(s, Exec(s, VerifyRow(r)), r);
  }

  lemma InvCommitEnrol(s: State, r: nat)
    requires Inv(s) && Enabled(s, CommitEnrol(r))
    ensures Inv(Exec(s, CommitEnrol(r)))
    ensures forall subject :: Live(s.rows, subject) <= Live(Exec(s, CommitEnrol(r)).rows, subject)
  {
    var q := s.requests[r];
    var w := s.(rows := Written(s.rows, q.target, q.epc.pending));
    assert RequestOk(s, r);
    forall subject ensures Live(s.rows, subject) <= Live(w.rows, subject) {
    }
    FinishedLocks(w, r);
    forall r' | r' in s.requests ensures RequestOk(s, r') {
    }
    InvFrame(s, Exec(s, CommitEnrol(r)), r);
  }

  /** A deletion commits while it alone holds the owner's lock, so no other counted deletion is affected. */
  lemma InvCommitDelete(s: State, r: nat)
    requires Inv(s) && Enabled(s, CommitDelete(r))
    ensures Inv(Exec(s, CommitDelete(r)))
    ensures forall subject :: subject != s.requests[r].subject ==>
              Live(Exec(s, CommitDelete(r)).rows, subject) == Live(s.rows, subject)
    ensures |Live(Exec(s, CommitDelete(r)).rows, s.requests[r].subject)| >= |Live(s.rows, s.requests[r].subject)| - 1
  {
    var q := s.requests[r];
    var w := s.(rows := Written(s.rows, q.target, q.dpc.pending));
    assert RequestOk(s, r);
    forall subject
      ensures subject != q.subject ==> Live(w.rows, subject) == Live(s.rows, subject)
      ensures |Live(w.rows, subject)| >= |Live(s.rows, subject)| - 1
    {
      if q.dpc.pending.Some? {
        WritingTakes(s.rows, q.target, q.dpc.pending.value, subject);
      }
    }
    FinishedLocks(w, r);
    forall r' | r' in s.requests ensures RequestOk(s, r') {
    }
    InvFrame(s, Exec(s, CommitDelete(r)), r);
  }

  lemma InvOther(s: State, step: Step)
    requires Inv(s) && Enabled(s, step) && (step.CreateRow? || step.Tick?)
    ensures Inv(Exec(s, step))
  {
    var u := Exec(s, step);
    forall r' | r' in s.requests ensures RequestOk(s, r') {
    }
    if r :| r in s.requests {
      assert RequestOk(s, r);
      forall subject ensures Live(s.rows, subject) == Live(u.rows, subject) {
      }
      assert RequestOk(u, r);
      InvFrame(s, u, r);
    }
  }

  lemma InvStep(s: State, step: Step)
    requires Inv(s) && Enabled(s, step)
    ensures Inv(Exec(s, step))
  {
    match step
    case CommitDelete(r) => InvCommitDelete(s, r);
    case CommitEnrol(r) => InvCommitEnrol(s, r);
    case RevokeRow(r) => InvRevokeRow(s, r);
    case VerifyRow(r) => InvVerifyRow(s, r);
    case CreateRow(_, _) => InvOther(s, step);
    case Tick(_) => InvOther(s, step);
    case _ => InvSmall(s, step);
  }

  // ---------------------------------------------------------------- the last factor

  ghost predicate IsRun(s: State, steps: seq<Step>)
    decreases |steps|
  {
    steps == [] || (Enabled(s, steps[0]) && IsRun(Exec(s, steps[0]), steps[1..]))
  }

  ghost function Final(s: State, steps: seq<Step>): State
    requires IsRun(s, steps)
    decreases |steps|
  {
    if steps == [] then s else Final(Exec(s, steps[0]), steps[1..])
  }

  /** MFA is required for the subject: every deletion it has running, or starts, was told so. */
  ghost predicate PolicyHolds(s: State, steps: seq<Step>, subject: nat) {
    && (forall r :: r in s.requests && s.requests[r].Delete? && s.requests[r].subject == subject ==>
          s.requests[r].policyRequires)
    && (forall i :: 0 <= i < |steps| && steps[i].Arrive? && steps[i].request.Delete? && steps[i].request.subject == subject
          ==> steps[i].request.policyRequires)
  }

  lemma StepKeepsOne(s: State, step: Step, subject: nat)
    requires Inv(s) && Enabled(s, step) && PolicyHolds(s, [step], subject)
    requires Live(s.rows, subject) != {}
    ensures Live(Exec(s, step).rows, subject) != {}
  {
    match step
    case CommitDelete(r) =>
      InvCommitDelete(s, r);
      assert RequestOk(s, r);
    case CommitEnrol(r) => InvCommitEnrol(s, r);
    case CreateRow(id, owner) =>
      var i :| i in Live(s.rows, subject);
      assert i in Live(Exec(s, step).rows, subject);
    case _ =>
  }

  /**
   * While MFA is required for a subject, no interleaving of deletions and enrolments takes it from at least
   * one verified live factor to none.
   */
  lemma {:induction false} LastFactorIsNeverLost(s: State, steps: seq<Step>, subject: nat)
    requires Inv(s) && IsRun(s, steps) && PolicyHolds(s, steps, subject)
    requires Live(s.rows, subject) != {}
    ensures Live(Final(s, steps).rows, subject) != {}
    decreases |steps|
  {
    if steps != [] {
      var u := Exec(s, steps[0]);
      assert steps[0] == [steps[0]][0];
      StepKeepsOne(s, steps[0], subject);
      InvStep(s, steps[0]);
      assert steps[0] == [steps[0]][0];
      assert forall i :: 0 <= i < |steps[1..]| ==> steps[1..][i] == steps[i + 1];
      LastFactorIsNeverLost(u, steps[1..], subject);
    }
  }

  lemma RunCons(s: State, step: Step, rest: seq<Step>)
    requires Enabled(s, step) && IsRun(Exec(s, step), rest)
    ensures IsRun(s, [step] + rest) && Final(s, [step] + rest) == Final(Exec(s, step), rest)
  {
    assert ([step] + rest)[0] == step && ([step] + rest)[1..] == rest;
  }

  // ---------------------------------------------------------------- uninterrupted

  function DeleteSteps(r: nat, subject: nat, target: nat, policyRequires: bool): seq<Step> {
    [Arrive(r, Delete(subject, target, policyRequires, DStart)), LockOwner(r), Count(r), RevokeRow(r), CommitDelete(r)]
  }

  ghost predicate HoldsNothing(s: State, r: nat) { r !in s.ownerLock.Values && r !in s.rowLock.Values }

  lemma CountsAlone(s: State, r: nat, subject: nat, target: nat, policyRequires: bool) returns (u: State)
    requires r !in s.requests && subject !in s.ownerLock
    ensures var steps := DeleteSteps(r, subject, target, policyRequires);
            && Enabled(s, steps[0]) && Enabled(Exec(s, steps[0]), steps[1])
            && Enabled(Exec(Exec(s, steps[0]), steps[1]), steps[2])
            && u == Exec(Exec(Exec(s, steps[0]), steps[1]), steps[2])
    ensures u.rows == s.rows && u.now == s.now
    ensures var refused := policyRequires && |Live(s.rows, subject)| <= 1;
            HoldsNothing(s, r) ==>
              u.rowLock == s.rowLock && u.ownerLock == (if refused then s.ownerLock else s.ownerLock[subject := r])
    ensures r in u.requests && u.requests[r] ==
              Delete(subject, target, policyRequires,
                     if policyRequires && |Live(s.rows, subject)| <= 1 then DDone else DCounted(|Live(s.rows, subject)|))
    ensures !(policyRequires && |Live(s.rows, subject)| <= 1) ==> u.rowLock == s.rowLock
  {
    var steps := DeleteSteps(r, subject, target, policyRequires);
    var u1 := Exec(s, steps[0]);
    var u2 := Exec(u1, steps[1]);
    u := Exec(u2, steps[2]);
  }

  lemma RevokesAlone(u: State, r: nat)
    requires DeleteAt(u, r) && u.requests[r].dpc.DCounted? && u.requests[r].target !in u.rowLock
    ensures IsRun(u, [RevokeRow(r), CommitDelete(r)])
    ensures var v, q := Final(u, [RevokeRow(r), CommitDelete(r)]), u.requests[r];
            && v.rows == Revoke(u.rows, q.subject, q.target, u.now)
            && v.requests == u.requests[r := q.(dpc := DDone)]
            && v.ownerLock == (map k | k in u.ownerLock && u.ownerLock[k] != r :: u.ownerLock[k])
            && (r !in u.rowLock.Values ==> v.rowLock == u.rowLock)
  {
    var u4 := Exec(u, RevokeRow(r));
    assert IsRun(Exec(u4, CommitDelete(r)), []);
    RunCons(u4, CommitDelete(r), []);
    RunCons(u, RevokeRow(r), [CommitDelete(r)] + []);
    assert [RevokeRow(r)] + ([CommitDelete(r)] + []) == [RevokeRow(r), CommitDelete(r)];
  }

  /**
   * Uninterrupted, a deletion does what the sequential `DeleteMFA` does, it refuses the last factor or revokes the row,
   * and its locks are released.
   */
  lemma AloneItDeletes(s: State, r: nat, subject: nat, target: nat, policyRequires: bool) returns (steps: seq<Step>)
    requires r !in s.requests && subject !in s.ownerLock && target !in s.rowLock
    ensures IsRun(s, steps)
    ensures var u, refused := Final(s, steps), policyRequires && |Live(s.rows, subject)| <= 1;
            && u.rows == (if refused then s.rows else Revoke(s.rows, subject, target, s.now))
            && (HoldsNothing(s, r) ==> u.ownerLock == s.ownerLock && u.rowLock == s.rowLock)
    ensures r in Final(s, steps).requests && Final(s, steps).requests[r] == Delete(subject, target, policyRequires, DDone)
  {
    var all := DeleteSteps(r, subject, target, policyRequires);
    var u1 := Exec(s, all[0]);
    var u := CountsAlone(s, r, subject, target, policyRequires);
    var u2 := Exec(u1, all[1]);
    var tail: seq<Step> := [];
    if !(policyRequires && |Live(s.rows, subject)| <= 1) {
      RevokesAlone(u, r);
      tail := [RevokeRow(r), CommitDelete(r)];
    }
    assert IsRun(u, tail);
    RunCons(u2, all[2], tail);
    RunCons(u1, all[1], [all[2]] + tail);
    RunCons(s, all[0], [all[1]] + ([all[2]] + tail));
    steps := [all[0]] + ([all[1]] + ([all[2]] + tail));
  }

  /** Uninterrupted, an enrolment does what the sequential `VerifyMFAMethod` does. */
  lemma AloneItEnrols(s: State, r: nat, subject: nat, target: nat)
    requires r !in s.requests && target !in s.rowLock
    ensures var steps := [Arrive(r, Enrol(subject, target, EStart)), VerifyRow(r), CommitEnrol(r)];
            && IsRun(s, steps) && Final(s, steps).rows == Verify(s.rows, subject, target, s.now)
            && (HoldsNothing(s, r) ==> Final(s, steps).ownerLock == s.ownerLock && Final(s, steps).rowLock == s.rowLock)
  {
    var arrive, verify, commit := Arrive(r, Enrol(subject, target, EStart)), VerifyRow(r), CommitEnrol(r);
    var u1 := Exec(s, arrive);
    var u2 := Exec(u1, verify);
    assert IsRun(Exec(u2, commit), []);
    RunCons(u2, commit, []);
    RunCons(u1, verify, [commit] + []);
    RunCons(s, arrive, [verify] + ([commit] + []));
    assert [arrive] + ([verify] + ([commit] + [])) == [arrive, verify, commit];
  }
}
