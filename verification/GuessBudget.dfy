/** How many code checks one challenge allows when requests overlap (internal/mfa/challenge.go, internal/api/auth_handlers.go). */
module GuessBudget {
  import opened Arith
  import opened Challenges
  import opened SignIn

  /** Between LoadChallenge and RecordChallengeAttempt on challenge `c`. */
  predicate IsInFlight(q: Request, c: nat) { q.Verify? && (q.vpc.VLoaded? || q.vpc.VIdentified?) && q.vpc.c == c }

  /** Attempt recorded, code not yet checked. */
  predicate IsCounted(q: Request, c: nat) { q.Verify? && q.vpc.VCounted? && q.vpc.c == c }

  ghost function InFlight(s: State, c: nat): set<nat> { set r | r in s.requests && IsInFlight(s.requests[r], c) }

  ghost function Counted(s: State, c: nat): set<nat> { set r | r in s.requests && IsCounted(s.requests[r], c) }

  /** The largest number of attempts a challenge can reach when at most K requests are in flight at once. */
  function Allowance(k: nat): nat { MAX_ATTEMPTS - 1 + k }

  /** The allowances that `resends` mailed codes have added. */
  function Renewed(resends: nat, k: nat): nat {
    if resends == 0 then 0 else Renewed(resends - 1, k) + Allowance(k)
  }

  lemma {:induction false} RenewedIs(resends: nat, k: nat)
    ensures Renewed(resends, k) == resends * Allowance(k)
  {
    if resends != 0 {
      RenewedIs(resends - 1, k);
      MulSum(resends - 1, 1, Allowance(k));
    }
  }

  /** Every attempt is recorded or still in flight, and every check was paid for by an attempt since the last resend. */
  ghost predicate Budget(s: State, c: nat, k: nat) {
    if c in s.db.challenges then
      && s.db.challenges[c].attempts + |InFlight(s, c)| <= Allowance(k)
      && Tally(s.checks, c) + |Counted(s, c)| <= s.db.challenges[c].attempts + Renewed(Tally(s.resends, c), k)
    else Tally(s.checks, c) == 0 && Tally(s.resends, c) == 0
  }

  /** A run in which at most `k` requests on `c` are ever in flight at once. */
  ghost predicate CappedRun(s: State, steps: seq<Step>, c: nat, k: nat)
    decreases |steps|
  {
    |InFlight(s, c)| <= k
    && (steps == [] || (Enabled(s, steps[0]) && CappedRun(Exec(s, steps[0]), steps[1..], c, k)))
  }

  function Bit(b: bool): int { if b then 1 else 0 }

  lemma CardinalityMove(a: set<nat>, b: set<nat>, r: nat)
    requires forall q :: q != r ==> (q in a <==> q in b)
    ensures |b| == |a| - Bit(r in a) + Bit(r in b)
  {
    var rest := a - {r};
    assert rest == b - {r};
    assert a == if r in a then rest + {r} else rest;
    assert b == if r in b then rest + {r} else rest;
  }

  /** Moving one request moves the two counts by what that request contributes. */
  lemma CountsMove(s: State, u: State, r: nat, c: nat)
    requires OnlyMoved(s, u, r) && OnlyMoved(u, s, r)
    ensures |InFlight(u, c)| == |InFlight(s, c)|
              - Bit(r in s.requests && IsInFlight(s.requests[r], c)) + Bit(r in u.requests && IsInFlight(u.requests[r], c))
    ensures |Counted(u, c)| == |Counted(s, c)|
              - Bit(r in s.requests && IsCounted(s.requests[r], c)) + Bit(r in u.requests && IsCounted(u.requests[r], c))
  {
    CardinalityMove(InFlight(s, c), InFlight(u, c), r);
    CardinalityMove(Counted(s, c), Counted(u, c), r);
  }

  /** A challenge that does not exist yet has nothing in flight. */
  lemma NothingOnMissing(s: State, c: nat)
    requires Inv(s)
    ensures s.db.nextId !in s.db.challenges
    ensures c !in s.db.challenges ==> InFlight(s, c) == {} && Counted(s, c) == {}
  {
    forall r | r in s.requests && c !in s.db.challenges
      ensures !IsInFlight(s.requests[r], c) && !IsCounted(s.requests[r], c)
    {
    }
  }

  /** A step that leaves attempts and tallies alone keeps the budget, if its own request costs no more than before. */
  lemma BudgetMoved(s: State, u: State, r: nat, c: nat, k: nat)
    requires Budget(s, c, k) && OnlyMoved(s, u, r) && OnlyMoved(u, s, r)
    requires u.checks == s.checks && u.resends == s.resends
    requires c in u.db.challenges <==> c in s.db.challenges
    requires c in s.db.challenges ==> u.db.challenges[c].attempts == s.db.challenges[c].attempts
    requires r in u.requests && IsInFlight(u.requests[r], c) ==> r in s.requests && IsInFlight(s.requests[r], c)
    requires r in u.requests && IsCounted(u.requests[r], c) ==> r in s.requests && IsCounted(s.requests[r], c)
    ensures Budget(u, c, k)
  {
    CountsMove(s, u, r, c);
  }

  lemma BudgetAdvance(s: State, step: Step, c: nat, k: nat)
    requires Enabled(s, step) && OnlyAdvances(step) && !step.Load? && Budget(s, c, k)
    ensures Budget(Exec(s, step), c, k)
  {
    OnlyAdvancesIs(s, step);
    BudgetMoved(s, Exec(s, step), step.r, c, k);
  }

  lemma BudgetCount(s: State, r: nat, c: nat, k: nat)
    requires Enabled(s, CountAttempt(r)) && Budget(s, c, k)
    ensures Budget(Exec(s, CountAttempt(r)), c, k)
  {
    CountsMove(s, Exec(s, CountAttempt(r)), r, c);
  }

  lemma ConsumeMoves(s: State, r: nat, c: nat)
    requires Enabled(s, Consume(r))
    ensures var u := Exec(s, Consume(r));
            && u.checks == s.checks && u.resends == s.resends && u.db.challenges.Keys == s.db.challenges.Keys
            && (c in s.db.challenges ==> u.db.challenges[c].attempts == s.db.challenges[c].attempts)
            && r in u.requests && u.requests == s.requests[r := u.requests[r]]
            && !IsInFlight(u.requests[r], c) && !IsCounted(u.requests[r], c)
  {
  }

  lemma BudgetConsume(s: State, r: nat, c: nat, k: nat)
    requires Enabled(s, Consume(r)) && Budget(s, c, k)
    ensures Budget(Exec(s, Consume(r)), c, k)
  {
    ConsumeMoves(s, r, c);
    BudgetMoved(s, Exec(s, Consume(r)), r, c, k);
  }

  lemma BudgetCheck(s: State, r: nat, evidence: Evidence, c: nat, k: nat)
    requires Enabled(s, Check(r, evidence)) && RequestOk(s, s.requests[r]) && Budget(s, c, k)
    ensures Budget(Exec(s, Check(r, evidence)), c, k)
  {
    CountsMove(s, Exec(s, Check(r, evidence)), r, c);
  }

  lemma BudgetEnrolCommit(s: State, r: nat, hashes: seq<string>, c: nat, k: nat)
    requires Enabled(s, EnrolCommit(r, hashes)) && Budget(s, c, k)
    ensures Budget(Exec(s, EnrolCommit(r, hashes)), c, k)
  {
    var q := s.requests[r];
    EnrolTxFrame(s.db, q.plane, q.epc.subject, q.factor, hashes, q.epc.challenge, s.now);
    BudgetMoved(s, Exec(s, EnrolCommit(r, hashes)), r, c, k);
  }

  lemma BudgetResend(s: State, c': nat, ref: string, c: nat, k: nat)
    requires Enabled(s, Resend(c', ref)) && Budget(s, c, k) && |InFlight(s, c)| <= k
    ensures Budget(Exec(s, Resend(c', ref)), c, k)
  {
    var u := Exec(s, Resend(c', ref));
    CountsMove(s, u, 0, c);
  }

  lemma BudgetOther(s: State, step: Step, c: nat, k: nat)
    requires Enabled(s, step) && Budget(s, c, k)
    requires c !in s.db.challenges ==> InFlight(s, c) == {} && Counted(s, c) == {}
    requires s.db.nextId !in s.db.challenges
    requires step.NewChallenge? || step.Extend? || step.OtherSession? || step.Elsewhere? || step.Tick?
    ensures Budget(Exec(s, step), c, k)
  {
    var u := Exec(s, step);
    CountsMove(s, u, 0, c);
  }

  lemma BudgetProgress(s: State, step: Step, c: nat, k: nat)
    requires Inv(s) && Enabled(s, step) && Budget(s, c, k) && |InFlight(Exec(s, step), c)| <= k
    requires step.Load? || step.CountAttempt? || step.Check? || step.Consume? || step.Complete? || step.EnrolCommit?
    ensures Budget(Exec(s, step), c, k)
  {
    match step
    case Load(r, c') =>
      OnlyAdvancesIs(s, Load(r, c'));
      CountsMove(s, Exec(s, Load(r, c')), r, c);
    case CountAttempt(r) => BudgetCount(s, r, c, k);
    case Check(r, evidence) =>
      BudgetCheck(s, r, evidence, c, k);
    case Consume(r) => BudgetConsume(s, r, c, k);
    case Complete(r) =>
      BudgetMoved(s, Exec(s, Complete(r)), r, c, k);
    case EnrolCommit(r, hashes) => BudgetEnrolCommit(s, r, hashes, c, k);
  }

  lemma BudgetStep(s: State, step: Step, c: nat, k: nat)
    requires Inv(s) && Enabled(s, step) && Budget(s, c, k)
    requires |InFlight(s, c)| <= k && |InFlight(Exec(s, step), c)| <= k
    ensures Budget(Exec(s, step), c, k)
  {
    if step.Resend? {
      BudgetResend(s, step.c, step.emailCodeRef, c, k);
    } else if Outside(step) {
      NothingOnMissing(s, c);
      BudgetOther(s, step, c, k);
    } else if OnlyAdvances(step) && !step.Load? {
      BudgetAdvance(s, step, c, k);
    } else {
      BudgetProgress(s, step, c, k);
    }
  }

  lemma {:induction false} BudgetRun(s: State, steps: seq<Step>, c: nat, k: nat)
    requires Inv(s) && Budget(s, c, k) && CappedRun(s, steps, c, k)
    ensures IsRun(s, steps) && Budget(Final(s, steps), c, k)
    decreases |steps|
  {
    if steps != [] {
      var u := Exec(s, steps[0]);
      InvStep(s, steps[0]);
      assert CappedRun(u, steps[1..], c, k);
      BudgetStep(s, steps[0], c, k);
      BudgetRun(u, steps[1..], c, k);
    }
  }

  /**
   * The guess budget: while at most k requests on a challenge are between loading it and recording their
   * attempt, at most MAX_ATTEMPTS - 1 + k codes are checked against it per mailed code; five when requests
   * do not overlap and no code is resent.
   */
  lemma ChecksAreBounded(s: State, steps: seq<Step>, c: nat, k: nat)
    requires Initial(s) && CappedRun(s, steps, c, k)
    ensures IsRun(s, steps)
    ensures var u := Final(s, steps);
            && (c in u.db.challenges ==> u.db.challenges[c].attempts + |InFlight(u, c)| <= Allowance(k))
            && Tally(u.checks, c) <= (Tally(u.resends, c) + 1) * Allowance(k)
            && (k == 1 && Tally(u.resends, c) == 0 ==> Tally(u.checks, c) <= 5)
  {
    BudgetRun(s, steps, c, k);
    var resends := Tally(Final(s, steps).resends, c);
    RenewedIs(resends, k);
    MulSum(resends, 1, Allowance(k));
  }

  // ---------------------------------------------------------------- the bound is attained

  /** `c` can be loaded with its cookie, its owner has an account, and request ids from `next` on are unused. */
  ghost predicate Open(s: State, c: nat, next: nat) {
    && c in s.db.challenges && Unusable(s.db.challenges[c], s.now).None?
    && (s.db.challenges[c].plane, s.db.challenges[c].subject) in s.db.accounts
    && (forall r :: r in s.requests ==> r < next)
  }

  /** Request `r` has loaded `c`, found the account, and not yet recorded its attempt. */
  ghost predicate Waiting(s: State, r: nat, c: nat) {
    VerifyAt(s, r) && s.requests[r].vpc.VIdentified? && s.requests[r].vpc.c == c && c in s.db.challenges
  }

  lemma {:induction false} RunsCompose(s: State, a: seq<Step>, b: seq<Step>, c: nat, k: nat)
    requires CappedRun(s, a, c, k) && IsRun(s, a) && CappedRun(Final(s, a), b, c, k) && IsRun(Final(s, a), b)
    ensures CappedRun(s, a + b, c, k) && IsRun(s, a + b) && Final(s, a + b) == Final(Final(s, a), b)
    decreases |a|
  {
    if a == [] {
      assert a + b == b;
    } else {
      RunsCompose(Exec(s, a[0]), a[1..], b, c, k);
      assert (a + b)[0] == a[0] && (a + b)[1..] == a[1..] + b;
    }
    RunsConcat(s, a, b);
  }

  lemma OneStep(s: State, step: Step, c: nat, k: nat)
    requires Enabled(s, step) && |InFlight(s, c)| <= k && |InFlight(Exec(s, step), c)| <= k
    ensures CappedRun(s, [step], c, k) && IsRun(s, [step]) && Final(s, [step]) == Exec(s, step)
  {
    var u := Exec(s, step);
    assert [step][1..] == [];
    assert CappedRun(u, [], c, k) && IsRun(u, []);
  }

  lemma LoadingCounts(s: State, c: nat, next: nat, q1: Request, q2: Request)
    requires next !in s.requests && !IsInFlight(q1, c) && IsInFlight(q2, c)
    ensures var s1 := Advanced(s, next, q1);
            |InFlight(s1, c)| == |InFlight(s, c)| && |InFlight(Advanced(s1, next, q2), c)| == |InFlight(s, c)| + 1
  {
    var s1 := Advanced(s, next, q1);
    CountsMove(s, s1, next, c);
    CountsMove(s1, Advanced(s1, next, q2), next, c);
  }

  /** One more request arrives and loads the challenge; nothing else moves. */
  lemma AddLoaded(s: State, c: nat, next: nat, k: nat) returns (steps: seq<Step>)
    requires Open(s, c, next) && |InFlight(s, c)| < k
    ensures CappedRun(s, steps, c, k) && IsRun(s, steps)
    ensures var u, row := Final(s, steps), s.db.challenges[c];
            && u == s.(requests := s.requests[next := Verify(row.plane, row.tokenHash, VLoaded(c, row))], clock := s.clock + 2)
            && |InFlight(u, c)| == |InFlight(s, c)| + 1
  {
    var row := s.db.challenges[c];
    var arrive, load := Arrive(next, Verify(row.plane, row.tokenHash, VStart)), Load(next, c);
    LoadingCounts(s, c, next, arrive.request, Verify(row.plane, row.tokenHash, VLoaded(c, row)));
    var s1 := Exec(s, arrive);
    OneStep(s, arrive, c, k);
    OneStep(s1, load, c, k);
    RunsCompose(s, [arrive], [load], c, k);
    steps := [arrive] + [load];
  }

  /** One more request arrives, loads and finds its account; nothing else moves. */
  lemma AddWaiting(s: State, c: nat, next: nat, k: nat) returns (steps: seq<Step>)
    requires Open(s, c, next) && |InFlight(s, c)| < k
    ensures CappedRun(s, steps, c, k) && IsRun(s, steps)
    ensures var u := Final(s, steps);
            && Open(u, c, next + 1) && u.db == s.db && u.checks == s.checks && u.resends == s.resends && u.now == s.now
            && Waiting(u, next, c)
            && (forall r :: r in s.requests ==> r in u.requests && u.requests[r] == s.requests[r])
            && |InFlight(u, c)| == |InFlight(s, c)| + 1
  {
    var a := AddLoaded(s, c, next, k);
    var s1 := Final(s, a);
    var u := Exec(s1, Identify(next));
    CountsMove(s1, u, next, c);
    OneStep(s1, Identify(next), c, k);
    RunsCompose(s, a, [Identify(next)], c, k);
    steps := a + [Identify(next)];
  }

  /** A waiting request records its attempt and has a wrong code checked. */
  lemma SpendWaiting(s: State, r: nat, c: nat, k: nat) returns (steps: seq<Step>)
    requires Waiting(s, r, c) && |InFlight(s, c)| <= k
    ensures CappedRun(s, steps, c, k) && IsRun(s, steps)
    ensures var u := Final(s, steps);
            && u.db == s.db.(challenges := s.db.challenges[c := Attempted(s.db.challenges[c])])
            && u.now == s.now && u.resends == s.resends && Tally(u.checks, c) == Tally(s.checks, c) + 1
            && u.requests.Keys == s.requests.Keys
            && (forall q :: q in s.requests && q != r ==> u.requests[q] == s.requests[q])
            && |InFlight(u, c)| == |InFlight(s, c)| - 1
  {
    var count, check := CountAttempt(r), Check(r, WrongCode);
    var s1 := Exec(s, count);
    CountsMove(s, s1, r, c);
    OneStep(s, count, c, k);
    var s2 := Exec(s1, check);
    CountsMove(s1, s2, r, c);
    OneStep(s1, check, c, k);
    RunsCompose(s, [count], [check], c, k);
    steps := [count] + [check];
  }

  /** `n` requests wait at once; then all of them have their code checked. */
  lemma {:induction false} Burst(s: State, c: nat, next: nat, n: nat, k: nat) returns (steps: seq<Step>)
    requires Open(s, c, next) && |InFlight(s, c)| + n <= k
    ensures CappedRun(s, steps, c, k) && IsRun(s, steps)
    ensures var u := Final(s, steps);
            && c in u.db.challenges && u.db.challenges[c] == s.db.challenges[c].(attempts := s.db.challenges[c].attempts + n)
            && u.db.accounts == s.db.accounts && u.now == s.now && u.resends == s.resends
            && Tally(u.checks, c) == Tally(s.checks, c) + n
            && (forall r :: r in u.requests ==> r < next + n)
            && (forall r :: r in s.requests ==> r in u.requests && u.requests[r] == s.requests[r])
            && |InFlight(u, c)| == |InFlight(s, c)|
    decreases n
  {
    if n == 0 {
      steps := [];
    } else {
      var a := AddWaiting(s, c, next, k);
      var s1 := Final(s, a);
      var b := Burst(s1, c, next + 1, n - 1, k);
      var s2 := Final(s1, b);
      var d := SpendWaiting(s2, next, c, k);
      RunsCompose(s1, b, d, c, k);
      RunsCompose(s, a, b + d, c, k);
      steps := a + (b + d);
    }
  }

  /** `n` attempts one after the other, while the challenge still allows them. */
  lemma {:induction false} Sequence(s: State, c: nat, next: nat, n: nat, k: nat) returns (steps: seq<Step>)
    requires Open(s, c, next) && s.db.challenges[c].attempts + n < MAX_ATTEMPTS && |InFlight(s, c)| < k
    ensures CappedRun(s, steps, c, k) && IsRun(s, steps)
    ensures var u := Final(s, steps);
            && Open(u, c, next + n) && u.db.challenges[c].attempts == s.db.challenges[c].attempts + n
            && u.resends == s.resends && Tally(u.checks, c) == Tally(s.checks, c) + n
            && |InFlight(u, c)| == |InFlight(s, c)|
    decreases n
  {
    if n == 0 {
      steps := [];
    } else {
      var a := Burst(s, c, next, 1, k);
      var s1 := Final(s, a);
      var b := Sequence(s1, c, next + 1, n - 1, k);
      RunsCompose(s, a, b, c, k);
      steps := a + b;
    }
  }

  /** For every k the bound is reached: four sequential guesses, then k overlapping ones, on one unresent challenge. */
  lemma BudgetIsAttained(s: State, k: nat) returns (steps: seq<Step>, c: nat)
    requires Initial(s) && (Customer, 0) in s.db.accounts && k >= 1
    ensures CappedRun(s, steps, c, k) && IsRun(s, steps)
    ensures Tally(Final(s, steps).checks, c) == Allowance(k) && Tally(Final(s, steps).resends, c) == 0
  {
    c := s.db.nextId;
    var issue := NewChallenge(Customer, 0, "", LoginPurpose, "");
    var s1 := Exec(s, issue);
    assert InFlight(s, c) == {} && InFlight(s1, c) == {};
    OneStep(s, issue, c, k);
    var a := Sequence(s1, c, 0, MAX_ATTEMPTS - 1, k);
    var s2 := Final(s1, a);
    var b := Burst(s2, c, MAX_ATTEMPTS - 1, k, k);
    RunsCompose(s1, a, b, c, k);
    RunsCompose(s, [issue], a + b, c, k);
    steps := [issue] + (a + b);
  }
}
