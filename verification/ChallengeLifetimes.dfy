/** No challenge outlives five minutes without being issued, resent or extended again, in any run. */
module ChallengeLifetimes {
  import opened Time
  import opened Wrappers
  import opened Challenges
  import opened SignIn
  import opened SignInTraces

  /** Step `j` issued challenge `c`, sent its code again, or extended it. */
  ghost predicate RenewedAt(t: seq<State>, steps: seq<Step>, j: nat, c: nat) {
    && j < |steps| < |t|
    && match steps[j]
       case NewChallenge(_, _, _, _, _) => c == t[j].db.nextId
       case Resend(c', _) => c' == c
       case Extend(c') => c' == c
       case _ => false
  }

  /** The row runs out five minutes after such a step, one taken before step `n`. */
  ghost predicate RunsOutInTime(t: seq<State>, steps: seq<Step>, n: nat, c: nat, row: Challenge) {
    exists j: nat :: j < n && RenewedAt(t, steps, j, c) && row.expiresAt == t[j].now + 5 * MINUTE
  }

  /** The challenge this step reads as usable, if it is one that loads a challenge. */
  function LoadedBy(s: State, step: Step): Option<nat> {
    match step
    case Load(_, c) => Some(c)
    case EnrolSubject(r, c) => if EnrolAt(s, r) && s.requests[r].principal.None? then Some(c) else None
    case EnrolReload(r, c) =>
      if EnrolAt(s, r) && s.requests[r].epc.EValidated? && s.requests[r].epc.via.Some? then Some(c) else None
    case _ => None
  }

  /** No other step moves an expiry, and none but an issue makes a row. */
  lemma QuietKeepsExpiry(a: State, step: Step, c: nat)
    requires Enabled(a, step) && c in Exec(a, step).db.challenges
    requires !step.NewChallenge? && !step.Resend? && !step.Extend?
    ensures c in a.db.challenges && Exec(a, step).db.challenges[c].expiresAt == a.db.challenges[c].expiresAt
  {
    if OnlyAdvances(step) {
      OnlyAdvancesIs(a, step);
    } else if step.EnrolCommit? {
      var q := a.requests[step.r];
      EnrolTxFrame(a.db, q.plane, q.epc.subject, q.factor, step.hashes, q.epc.challenge, a.now);
    }
  }

  lemma {:induction false} ExpiriesAreRecent(t: seq<State>, steps: seq<Step>, n: nat, c: nat)
    requires IsTrace(t, steps) && n <= |steps| && c in t[n].db.challenges
    ensures RunsOutInTime(t, steps, n, c, t[n].db.challenges[c])
  {
    if n > 0 {
      var a, step := t[n - 1], steps[n - 1];
      assert Taken(t, steps, n - 1);
      if !step.NewChallenge? && !step.Resend? && !step.Extend? {
        QuietKeepsExpiry(a, step, c);
      }
      if c in a.db.challenges && t[n].db.challenges[c].expiresAt == a.db.challenges[c].expiresAt {
        ExpiriesAreRecent(t, steps, n - 1, c);
      } else {
        assert RenewedAt(t, steps, n - 1, c);
      }
    }
  }

  /**
   * In every run, whichever step loads a challenge, at sign-in, at enrolment or when an enrolment looks again, finds
   * it unspent, with fewer than five attempts, and less than five minutes after it was last issued, resent or extended.
   */
  lemma LoadedWithinFiveMinutes(s: State, steps: seq<Step>, n: nat)
    requires Initial(s) && IsRun(s, steps) && n < |steps| && LoadedBy(Trace(s, steps)[n], steps[n]).Some?
    ensures var t := Trace(s, steps);
            var c := LoadedBy(t[n], steps[n]).value;
            && c in t[n].db.challenges
            && t[n].db.challenges[c].consumedAt.None? && t[n].db.challenges[c].attempts < 5
            && exists j: nat :: j < n && RenewedAt(t, steps, j, c) && t[n].now < t[j].now + 5 * MINUTE
  {
    var t := Trace(s, steps);
    TraceIsTrace(s, steps);
    assert Taken(t, steps, n);
    ExpiriesAreRecent(t, steps, n, LoadedBy(t[n], steps[n]).value);
  }
}
