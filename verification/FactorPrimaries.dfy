/** The primary flag when transactions on one subject's factors overlap (internal/auth/mfa.go). */
module FactorPrimaries {
  import opened Factors
  import opened FactorRaces

  /** No live factor of the subject but `target` is primary. */
  ghost predicate NoOtherPrimary(rows: Rows, subject: nat, target: nat) {
    forall i :: i in Live(rows, subject) && i != target ==> !rows[i].isPrimary
  }

  /** An enrolment that has verified its factor as primary and not committed yet. */
  ghost predicate WaitsAsPrimary(s: State, r: nat, subject: nat) {
    && EnrolAt(s, r) && s.requests[r].subject == subject
    && Pending(s.requests[r]).Some? && Pending(s.requests[r]).value.isPrimary
  }

  // ---------------------------------------------------------------- one commit

  /**
   * The commit of an enrolment keeps at most one primary if and only if it writes nothing, or no primary, or
   * no other live factor of its subject is primary by then.
   */
  lemma CommitKeepsOnePrimaryIff(s: State, r: nat)
    requires Inv(s) && Enabled(s, CommitEnrol(r)) && AtMostOnePrimary(s.rows, s.requests[r].subject)
    ensures var q := s.requests[r];
            AtMostOnePrimary(Exec(s, CommitEnrol(r)).rows, q.subject) <==>
            !WaitsAsPrimary(s, r, q.subject) || NoOtherPrimary(s.rows, q.subject, q.target)
  {
    var q := s.requests[r];
    var u := Exec(s, CommitEnrol(r)).rows;
    assert RequestOk(s, r);
    if q.epc.pending.Some? {
      var f := q.epc.pending.value;
      assert u == s.rows[q.target := f];
      if f.isPrimary && !NoOtherPrimary(s.rows, q.subject, q.target) {
        var i :| i in Live(s.rows, q.subject) && i != q.target && s.rows[i].isPrimary;
        assert i in Live(u, q.subject) && q.target in Live(u, q.subject);
      }
    }
  }

  // ---------------------------------------------------------------- all runs

  /** At most one primary is committed, and none stands in the way of an enrolment that waits as primary. */
  ghost predicate PrimaryOk(s: State, subject: nat) {
    && AtMostOnePrimary(s.rows, subject)
    && forall r :: WaitsAsPrimary(s, r, subject) ==> NoOtherPrimary(s.rows, subject, s.requests[r].target)
  }

  /** The step commits one enrolment of the subject as primary while another waits as primary. */
  ghost predicate Overtakes(s: State, step: Step, subject: nat) {
    && step.CommitEnrol? && WaitsAsPrimary(s, step.r, subject)
    && exists r :: r != step.r && WaitsAsPrimary(s, r, subject)
  }

  /** Live primaries only go away, or stay as they were. */
  ghost predicate PrimariesShrink(a: Rows, b: Rows, subject: nat) {
    forall i :: i in Live(b, subject) && b[i].isPrimary ==> i in Live(a, subject) && a[i].isPrimary
  }

  lemma ShrinkingKeeps(s: State, u: State, subject: nat)
    requires PrimaryOk(s, subject) && PrimariesShrink(s.rows, u.rows, subject)
    requires forall r :: WaitsAsPrimary(u, r, subject) ==>
               WaitsAsPrimary(s, r, subject) && s.requests[r].target == u.requests[r].target
    ensures PrimaryOk(u, subject)
  {
  }

  lemma CommitEnrolKeeps(s: State, r: nat, subject: nat)
    requires Inv(s) && PrimaryOk(s, subject) && Enabled(s, CommitEnrol(r)) && !Overtakes(s, CommitEnrol(r), subject)
    ensures PrimaryOk(Exec(s, CommitEnrol(r)), subject)
  {
    var q, u := s.requests[r], Exec(s, CommitEnrol(r));
    assert RequestOk(s, r);
    forall r' | WaitsAsPrimary(u, r', subject)
      ensures r' != r && WaitsAsPrimary(s, r', subject) && s.requests[r'].target == u.requests[r'].target
    {
    }
    if WaitsAsPrimary(s, r, subject) {
      CommitKeepsOnePrimaryIff(s, r);
    } else {
      assert PrimariesShrink(s.rows, u.rows, subject);
      ShrinkingKeeps(s, u, subject);
    }
  }

  lemma VerifyRowKeeps(s: State, r: nat, subject: nat)
    requires PrimaryOk(s, subject) && Enabled(s, VerifyRow(r))
    ensures PrimaryOk(Exec(s, VerifyRow(r)), subject)
  {
    var u, q := Exec(s, VerifyRow(r)), s.requests[r];
    forall r' | WaitsAsPrimary(u, r', subject) ensures NoOtherPrimary(u.rows, subject, u.requests[r'].target) {
      if r' == r {
        assert Live(s.rows, subject) - {q.target} == {};
        assert forall i :: i in Live(s.rows, subject) && i != q.target ==> i in Live(s.rows, subject) - {q.target};
      } else {
        assert WaitsAsPrimary(s, r', subject);
      }
    }
  }

  lemma OtherStepsKeep(s: State, step: Step, subject: nat)
    requires Inv(s) && PrimaryOk(s, subject) && Enabled(s, step) && !step.CommitEnrol? && !step.VerifyRow?
    ensures PrimaryOk(Exec(s, step), subject)
    ensures forall r :: WaitsAsPrimary(Exec(s, step), r, subject) ==> WaitsAsPrimary(s, r, subject)
  {
    var u := Exec(s, step);
    if step.CommitDelete? {
      assert RequestOk(s, step.r);
    } else {
      assert PrimariesShrink(s.rows, u.rows, subject);
    }
    ShrinkingKeeps(s, u, subject);
  }

  lemma PrimaryStep(s: State, step: Step, subject: nat)
    requires Inv(s) && PrimaryOk(s, subject) && Enabled(s, step) && !Overtakes(s, step, subject)
    ensures PrimaryOk(Exec(s, step), subject)
  {
    match step
    case CommitEnrol(r) => CommitEnrolKeeps(s, r, subject);
    case VerifyRow(r) => VerifyRowKeeps(s, r, subject);
    case _ => OtherStepsKeep(s, step, subject);
  }

  ghost predicate NeverOvertakes(s: State, steps: seq<Step>, subject: nat)
    requires IsRun(s, steps)
    decreases |steps|
  {
    steps == [] || (!Overtakes(s, steps[0], subject) && NeverOvertakes(Exec(s, steps[0]), steps[1..], subject))
  }

  /** A subject keeps at most one primary in every run in which no enrolment overtakes another of the subject. */
  lemma {:induction false} AtMostOnePrimaryUnlessOvertaken(s: State, steps: seq<Step>, subject: nat)
    requires Inv(s) && PrimaryOk(s, subject) && IsRun(s, steps) && NeverOvertakes(s, steps, subject)
    ensures AtMostOnePrimary(Final(s, steps).rows, subject)
    decreases |steps|
  {
    if steps != [] {
      InvStep(s, steps[0]);
      PrimaryStep(s, steps[0], subject);
      AtMostOnePrimaryUnlessOvertaken(Exec(s, steps[0]), steps[1..], subject);
    }
  }

  // ---------------------------------------------------------------- the exact condition

  /** Two enrolments that wait as primary commit as two primaries, in either order. */
  lemma OvertakingMakesTwo(s: State, r: nat, r': nat, subject: nat)
    requires Inv(s) && r != r' && WaitsAsPrimary(s, r, subject) && WaitsAsPrimary(s, r', subject)
    ensures IsRun(s, [CommitEnrol(r), CommitEnrol(r')])
    ensures !AtMostOnePrimary(Final(s, [CommitEnrol(r), CommitEnrol(r')]).rows, subject)
  {
    var q, q' := s.requests[r], s.requests[r'];
    assert RequestOk(s, r) && RequestOk(s, r');
    var u := Exec(s, CommitEnrol(r));
    assert u.rows == s.rows[q.target := q.epc.pending.value];
    var w := Exec(u, CommitEnrol(r'));
    assert w.rows == u.rows[q'.target := q'.epc.pending.value];
    assert q.target in Live(w.rows, subject) && q'.target in Live(w.rows, subject);
    assert IsRun(w, []) && Final(w, []) == w;
    RunCons(u, CommitEnrol(r'), []);
    RunCons(s, CommitEnrol(r), [CommitEnrol(r')] + []);
    assert [CommitEnrol(r), CommitEnrol(r')] == [CommitEnrol(r)] + ([CommitEnrol(r')] + []);
  }

  ghost predicate NothingVerifies(steps: seq<Step>) { forall i :: 0 <= i < |steps| ==> !steps[i].VerifyRow? }

  ghost predicate TwoWait(s: State, subject: nat) {
    exists r, r' :: r != r' && WaitsAsPrimary(s, r, subject) && WaitsAsPrimary(s, r', subject)
  }

  lemma NobodyStartsToWait(s: State, step: Step, subject: nat)
    requires Enabled(s, step) && !step.VerifyRow?
    ensures forall r :: WaitsAsPrimary(Exec(s, step), r, subject) ==> WaitsAsPrimary(s, r, subject)
  {
  }

  lemma {:induction false} WithoutTwoWaiting(s: State, steps: seq<Step>, subject: nat)
    requires Inv(s) && PrimaryOk(s, subject) && IsRun(s, steps) && NothingVerifies(steps) && !TwoWait(s, subject)
    ensures AtMostOnePrimary(Final(s, steps).rows, subject)
    decreases |steps|
  {
    if steps != [] {
      var u := Exec(s, steps[0]);
      assert !steps[0].VerifyRow?;
      InvStep(s, steps[0]);
      PrimaryStep(s, steps[0], subject);
      NobodyStartsToWait(s, steps[0], subject);
      assert !TwoWait(u, subject);
      forall i | 0 <= i < |steps[1..]| ensures !steps[1..][i].VerifyRow? {
        assert steps[1..][i] == steps[i + 1];
      }
      WithoutTwoWaiting(u, steps[1..], subject);
    }
  }

  /**
   * The transactions in flight can end in two primaries, without any further verification, if and only if two
   * enrolments of the subject have both verified as primary and neither has committed.
   */
  lemma TwoPrimariesIffTwoWait(s: State, subject: nat)
    requires Inv(s) && PrimaryOk(s, subject)
    ensures (exists steps :: IsRun(s, steps) && NothingVerifies(steps) && !AtMostOnePrimary(Final(s, steps).rows, subject))
            <==> TwoWait(s, subject)
  {
    if TwoWait(s, subject) {
      var r, r' :| r != r' && WaitsAsPrimary(s, r, subject) && WaitsAsPrimary(s, r', subject);
      OvertakingMakesTwo(s, r, r', subject);
      assert NothingVerifies([CommitEnrol(r), CommitEnrol(r')]);
    } else {
      forall steps | IsRun(s, steps) && NothingVerifies(steps) ensures AtMostOnePrimary(Final(s, steps).rows, subject) {
        WithoutTwoWaiting(s, steps, subject);
      }
    }
  }

  // ---------------------------------------------------------------- from any two unverified factors

  /** A new enrolment request that verifies a factor of an owner without live ones, and then waits as primary. */
  lemma BeginsToWait(s: State, r: nat, subject: nat, id: nat)
    requires Inv(s) && r !in s.requests && Addresses(s.rows, subject, id) && id !in s.rowLock && Live(s.rows, subject) == {}
    ensures var arrive := Arrive(r, Enrol(subject, id, EStart));
            && Enabled(s, arrive) && Enabled(Exec(s, arrive), VerifyRow(r))
            && var u := Exec(Exec(s, arrive), VerifyRow(r));
               && Inv(u) && u.rows == s.rows && u.rowLock == s.rowLock[id := r] && WaitsAsPrimary(u, r, subject)
               && u.requests == s.requests[r := u.requests[r]]
  {
    var arrive := Arrive(r, Enrol(subject, id, EStart));
    InvStep(s, arrive);
    InvStep(Exec(s, arrive), VerifyRow(r));
    assert Live(s.rows, subject) - {id} == {};
  }

  /**
   * Two enrolments whose updates overlap do not see each other: for any two unverified factors of any owner
   * without live ones, in any state, both become primary.
   */
  lemma OverlappingEnrolmentsMakeTwoPrimaries(s: State, subject: nat, a: nat, b: nat, r: nat, r': nat)
    requires Inv(s) && r != r' && r !in s.requests && r' !in s.requests && Live(s.rows, subject) == {}
    requires a != b && Addresses(s.rows, subject, a) && Addresses(s.rows, subject, b)
    requires a !in s.rowLock && b !in s.rowLock
    ensures var steps := [Arrive(r, Enrol(subject, a, EStart)), VerifyRow(r), Arrive(r', Enrol(subject, b, EStart)),
                          VerifyRow(r'), CommitEnrol(r), CommitEnrol(r')];
            IsRun(s, steps) && !AtMostOnePrimary(Final(s, steps).rows, subject)
  {
    var first, second := Arrive(r, Enrol(subject, a, EStart)), Arrive(r', Enrol(subject, b, EStart));
    BeginsToWait(s, r, subject, a);
    var s1 := Exec(s, first);
    var s2 := Exec(s1, VerifyRow(r));
    BeginsToWait(s2, r', subject, b);
    var s3 := Exec(s2, second);
    var s4 := Exec(s3, VerifyRow(r'));
    assert s4.requests[r] == s2.requests[r];
    OvertakingMakesTwo(s4, r, r', subject);
    FourThen(s, first, VerifyRow(r), second, VerifyRow(r'), [CommitEnrol(r), CommitEnrol(r')]);
    assert [first, VerifyRow(r), second, VerifyRow(r'), CommitEnrol(r), CommitEnrol(r')]
        == [first, VerifyRow(r), second, VerifyRow(r')] + [CommitEnrol(r), CommitEnrol(r')];
  }

  lemma FourThen(s: State, a: Step, b: Step, c: Step, d: Step, tail: seq<Step>)
    requires Enabled(s, a) && Enabled(Exec(s, a), b) && Enabled(Exec(Exec(s, a), b), c)
    requires Enabled(Exec(Exec(Exec(s, a), b), c), d) && IsRun(Exec(Exec(Exec(Exec(s, a), b), c), d), tail)
    ensures IsRun(s, [a, b, c, d] + tail)
    ensures Final(s, [a, b, c, d] + tail) == Final(Exec(Exec(Exec(Exec(s, a), b), c), d), tail)
  {
    var s1 := Exec(s, a);
    var s2 := Exec(s1, b);
    var s3 := Exec(s2, c);
    RunCons(s3, d, tail);
    RunCons(s2, c, [d] + tail);
    RunCons(s1, b, [c] + ([d] + tail));
    RunCons(s, a, [b] + ([c] + ([d] + tail)));
    assert [a, b, c, d] + tail == [a] + ([b] + ([c] + ([d] + tail)));
  }
}
