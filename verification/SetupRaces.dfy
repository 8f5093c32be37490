/**
 * Concurrent first-run setups on several instances, each with its own cached settings: the advisory lock, the
 * flag read outside the locked transaction, the staff query inside it, and the commit.
 */
module SetupRaces {
  import opened Wrappers
  import A = Accounts
  import Settings
  import opened Setup

  /** Where a CompleteSetup request stands; every stage but the first and last holds the advisory lock. */
  datatype Pc = Waiting | Locked | FlagClear | Open | Done

  datatype Request = Request(instance: nat, email: string, secret: string, pc: Pc)

  /** A settings load that has queried the table and not yet stored its answer. */
  datatype Load = Load(instance: nat, completed: bool)

  /** `winners` are the accounts made by committed setups, in order; nothing reads it. */
  datatype State = State(
    t: Tables,
    now: int,
    lock: Option<nat>,
    caches: map<nat, Cached>,
    loads: map<nat, Load>,
    requests: map<nat, Request>,
    winners: seq<nat>)

  datatype Step =
    | Arrive(r: nat, instance: nat, email: string, secret: string)
    | TakeLock(r: nat)
    | ReadCached(r: nat)
    | ReadFresh(r: nat, load: nat)
    | ReadFailed(r: nat)
    | QueryStaff(r: nat)
    | Commit(r: nat)
    | Abort(r: nat)
    | Query(instance: nat, load: nat)
    | StoreLoad(load: nat)
    | Invalidate(instance: nat)
    | Elsewhere(admins: map<nat, Admin>, credentials: map<nat, A.Credential>, superAdmins: set<nat>, nextId: nat)
    | Tick(elapsed: nat)

  predicate RequestAt(s: State, r: nat, pc: Pc) { r in s.requests && s.requests[r].pc == pc }

  predicate Fresh(s: State, instance: nat) {
    instance in s.caches && s.now - s.caches[instance].at < Settings.CACHE_TTL
  }

  ghost predicate Enabled(s: State, step: Step) {
    match step
    case Arrive(r, _, _, _) => r !in s.requests
    case TakeLock(r) => RequestAt(s, r, Waiting) && s.lock.None?
    case ReadCached(r) => RequestAt(s, r, Locked) && Fresh(s, s.requests[r].instance)
    case ReadFresh(r, load) => RequestAt(s, r, Locked) && !Fresh(s, s.requests[r].instance) && load !in s.loads
    case ReadFailed(r) => RequestAt(s, r, Locked) && !Fresh(s, s.requests[r].instance)
    case QueryStaff(r) => RequestAt(s, r, FlagClear)
    case Commit(r) => RequestAt(s, r, Open)
    case Abort(r) => r in s.requests && s.requests[r].pc != Done
    case Query(instance, load) => !Fresh(s, instance) && load !in s.loads
    case StoreLoad(load) => load in s.loads
    case Invalidate(_) => true
    case Elsewhere(admins, credentials, superAdmins, nextId) =>
      Valid(s.t.(admins := admins, credentials := credentials, superAdmins := superAdmins, nextId := nextId))
    case Tick(_) => true
  }

  function At(s: State, r: nat, pc: Pc): State
    requires r in s.requests
  {
    s.(requests := s.requests[r := s.requests[r].(pc := pc)])
  }

  /** The transaction is over, and with it the advisory lock. */
  function Ended(s: State, r: nat): State
    requires r in s.requests
  {
    At(s, r, Done).(lock := if s.lock == Some(r) then None else s.lock)
  }

  /** The request goes on if the flag reads false. */
  function AfterFlag(s: State, r: nat, completed: bool): State
    requires r in s.requests
  {
    if completed then Ended(s, r) else At(s, r, FlagClear)
  }

  ghost function Exec(s: State, step: Step): State
    requires Enabled(s, step)
  {
    match step
    case Arrive(r, instance, email, secret) => s.(requests := s.requests[r := Request(instance, email, secret, Waiting)])
    case TakeLock(r) => At(s, r, Locked).(lock := Some(r))
    case ReadCached(r) => AfterFlag(s, r, s.caches[s.requests[r].instance].completed)
    case ReadFresh(r, load) =>
      AfterFlag(s.(loads := s.loads[load := Load(s.requests[r].instance, s.t.completed)]), r, s.t.completed)
    case ReadFailed(r) => AfterFlag(s, r, false)
    case QueryStaff(r) => if NoStaff(s.t) then At(s, r, Open) else Ended(s, r)
    case Commit(r) =>
      var q := s.requests[r];
      Ended(s, r).(t := Completed(s.t, q.email, q.secret, s.now), winners := s.winners + [Chosen(s.t, q.email)])
    case Abort(r) => Ended(s, r)
    case Query(instance, load) => s.(loads := s.loads[load := Load(instance, s.t.completed)])
    case StoreLoad(load) =>
      s.(caches := s.caches[s.loads[load].instance := Cached(s.loads[load].completed, s.now)], loads := s.loads - {load})
    case Invalidate(instance) => s.(caches := s.caches - {instance})
    case Elsewhere(admins, credentials, superAdmins, nextId) =>
      s.(t := s.t.(admins := admins, credentials := credentials, superAdmins := superAdmins, nextId := nextId))
    case Tick(elapsed) => s.(now := s.now + elapsed)
  }

  ghost predicate Initial(s: State) {
    Valid(s.t) && s.lock == None && s.requests == map[] && s.loads == map[] && s.caches == map[] && s.winners == []
  }

  // ---------------------------------------------------------------- the invariant

  predicate Inside(q: Request) { q.pc == Locked || q.pc == FlagClear || q.pc == Open }

  ghost predicate Inv(s: State) {
    && Valid(s.t)
    && (forall r :: r in s.requests && Inside(s.requests[r]) ==> s.lock == Some(r))
    && (s.lock.Some? ==> s.lock.value in s.requests && Inside(s.requests[s.lock.value]))
    && (s.winners != [] ==> s.t.completed)
    && (forall i :: i in s.caches ==> s.caches[i].at <= s.now)
  }

  lemma InvCommit(s: State, r: nat)
    requires Inv(s) && Enabled(s, Commit(r))
    ensures Inv(Exec(s, Commit(r)))
  {
    var q := s.requests[r];
    CompletedLeavesOneWayIn(s.t, q.email, q.secret, s.now);
  }

  lemma InvEnded(s: State, r: nat)
    requires Inv(s) && r in s.requests
    ensures Inv(Ended(s, r))
  {
  }

  lemma InvOther(s: State, step: Step)
    requires Inv(s) && Enabled(s, step) && !step.Commit? && !step.Abort?
    requires !step.QueryStaff? && !step.ReadCached? && !step.ReadFresh?
    ensures Inv(Exec(s, step))
  {
  }

  lemma InvStep(s: State, step: Step)
    requires Inv(s) && Enabled(s, step)
    ensures Inv(Exec(s, step))
  {
    match step
    case Commit(r) => InvCommit(s, r);
    case Abort(r) => InvEnded(s, r);
    case QueryStaff(r) => InvEnded(s, r);
    case ReadCached(r) => InvEnded(s, r);
    case ReadFresh(r, load) => InvEnded(s, r);
    case _ => InvOther(s, step);
  }

  ghost predicate IsRun(s: State, steps: seq<Step>)
    decreases |steps|
  {
    steps == [] || (Enabled(s, steps[0]) && IsRun(Exec(s, steps[0]), steps[1..]))
  }

  ghost function Final(s: State, steps: seq<Step>): State
    requires IsRun(s, steps)
    decreases |steps|
  {
    if steps == [] then s else Final(Exec(s, steps[0]), steps[1..])
  }

  // ---------------------------------------------------------------- at most one winner

  ghost predicate WinnersCanSignIn(s: State) { forall w :: w in s.winners ==> CanSignIn(s.t, w) }

  /** The accounts made by setups keep a live password throughout. */
  ghost predicate WinnersStay(s: State, steps: seq<Step>)
    requires IsRun(s, steps)
    decreases |steps|
  {
    WinnersCanSignIn(s) && (steps == [] || WinnersStay(Exec(s, steps[0]), steps[1..]))
  }

  /** At most one setup has committed, and none is about to once one has. */
  ghost predicate OneWinner(s: State) {
    && |s.winners| <= 1
    && (s.winners != [] ==> forall r :: !RequestAt(s, r, Open))
  }

  lemma NobodyOpens(s: State, step: Step)
    requires Enabled(s, step) && !step.QueryStaff?
    ensures forall r :: RequestAt(Exec(s, step), r, Open) ==> RequestAt(s, r, Open)
  {
  }

  lemma OneWinnerStep(s: State, step: Step)
    requires Inv(s) && OneWinner(s) && Enabled(s, step) && WinnersCanSignIn(s)
    ensures OneWinner(Exec(s, step))
  {
    match step
    case QueryStaff(r) =>
      NoStaffMeansNobodyCanSignIn(s.t);
      if s.winners != [] {
        assert s.winners[0] in s.winners;
      }
    case Commit(r) =>
      forall r' | r' in s.requests && r' != r ensures !Inside(s.requests[r']) {
        assert Inside(s.requests[r]);
      }
    case _ => NobodyOpens(s, step);
  }

  /**
   * However many setups run on however many instances with caches however stale, and even when settings reads
   * fail, at most one commits while the accounts setups made keep a live password.
   */
  lemma {:induction false} AtMostOneWinner(s: State, steps: seq<Step>)
    requires Inv(s) && OneWinner(s) && IsRun(s, steps) && WinnersStay(s, steps)
    ensures |Final(s, steps).winners| <= 1
    decreases |steps|
  {
    if steps != [] {
      InvStep(s, steps[0]);
      OneWinnerStep(s, steps[0]);
      AtMostOneWinner(Exec(s, steps[0]), steps[1..]);
    }
  }

  lemma FreshDeploymentHasOneWinner(s: State, steps: seq<Step>)
    requires Initial(s) && IsRun(s, steps) && WinnersStay(s, steps)
    ensures |Final(s, steps).winners| <= 1
  {
    AtMostOneWinner(s, steps);
  }

  // ---------------------------------------------------------------- closed for good

  /** Nothing still says the flag is clear: no usable cache, no load in flight, no request past the flag check. */
  ghost predicate Closed(s: State) {
    && s.t.completed
    && (forall i :: Fresh(s, i) ==> s.caches[i].completed)
    && (forall l :: l in s.loads ==> s.loads[l].completed)
    && (forall r :: !RequestAt(s, r, FlagClear) && !RequestAt(s, r, Open))
  }

  ghost predicate ReadsSucceed(steps: seq<Step>) { forall i :: 0 <= i < |steps| ==> !steps[i].ReadFailed? }

  lemma ClosedStep(s: State, step: Step)
    requires Closed(s) && Enabled(s, step) && !step.ReadFailed?
    ensures Closed(Exec(s, step)) && Exec(s, step).winners == s.winners
  {
    var u := Exec(s, step);
    forall i | Fresh(u, i) ensures u.caches[i].completed {
      assert !step.StoreLoad? ==> Fresh(s, i);
    }
    forall r ensures !RequestAt(u, r, FlagClear) && !RequestAt(u, r, Open) {
      assert !RequestAt(s, r, FlagClear) && !RequestAt(s, r, Open);
    }
  }

  lemma {:induction false} ClosedForever(s: State, steps: seq<Step>)
    requires Closed(s) && IsRun(s, steps) && ReadsSucceed(steps)
    ensures Closed(Final(s, steps)) && Final(s, steps).winners == s.winners
    decreases |steps|
  {
    if steps != [] {
      assert !steps[0].ReadFailed?;
      ClosedStep(s, steps[0]);
      forall i | 0 <= i < |steps[1..]| ensures !steps[1..][i].ReadFailed? {
        assert steps[1..][i] == steps[i + 1];
      }
      ClosedForever(Exec(s, steps[0]), steps[1..]);
    }
  }

  /** Some continuation in which no settings read fails commits another setup. */
  ghost predicate CanStillCommit(s: State) {
    exists steps :: IsRun(s, steps) && ReadsSucceed(steps) && |Final(s, steps).winners| > |s.winners|
  }

  lemma RunCons(s: State, step: Step, rest: seq<Step>)
    requires Enabled(s, step) && IsRun(Exec(s, step), rest)
    ensures IsRun(s, [step] + rest) && Final(s, [step] + rest) == Final(Exec(s, step), rest)
    ensures !step.ReadFailed? && ReadsSucceed(rest) ==> ReadsSucceed([step] + rest)
  {
    assert ([step] + rest)[0] == step && ([step] + rest)[1..] == rest;
  }

  lemma StepThenCommit(s: State, step: Step)
    requires Enabled(s, step) && !step.ReadFailed? && CanStillCommit(Exec(s, step))
    requires |Exec(s, step).winners| >= |s.winners|
    ensures CanStillCommit(s)
  {
    var u := Exec(s, step);
    var rest :| IsRun(u, rest) && ReadsSucceed(rest) && |Final(u, rest).winners| > |u.winners|;
    RunCons(s, step, rest);
  }

  lemma OpenCommits(s: State, r: nat)
    requires RequestAt(s, r, Open)
    ensures CanStillCommit(s)
  {
    var u := Exec(s, Commit(r));
    assert IsRun(u, []) && Final(u, []) == u;
    RunCons(s, Commit(r), []);
  }

  /** The staff's passwords go, and a request past the flag check finds nobody. */
  lemma FlagClearCommits(s: State, r: nat)
    requires Inv(s) && RequestAt(s, r, FlagClear)
    ensures CanStillCommit(s)
  {
    var wipe := Elsewhere(s.t.admins, map[], s.t.superAdmins, s.t.nextId);
    var u := Exec(s, wipe);
    assert NoStaff(u.t);
    OpenCommits(Exec(u, QueryStaff(r)), r);
    StepThenCommit(u, QueryStaff(r));
    StepThenCommit(s, wipe);
  }

  /** Whoever holds the lock may fail. */
  lemma Unlocked(s: State) returns (u: State)
    requires Inv(s)
    ensures Inv(u) && u == s.(lock := None, requests := u.requests)
    ensures forall r :: r in u.requests ==> !Inside(u.requests[r])
    ensures CanStillCommit(u) ==> CanStillCommit(s)
  {
    if r :| r in s.requests && Inside(s.requests[r]) {
      u := Exec(s, Abort(r));
      InvStep(s, Abort(r));
      if CanStillCommit(u) {
        StepThenCommit(s, Abort(r));
      }
    } else {
      u := s;
    }
  }

  lemma StaleCacheCommits(s: State, i: nat)
    requires Inv(s) && Fresh(s, i) && !s.caches[i].completed
    ensures CanStillCommit(s)
  {
    var u := Unlocked(s);
    var r := Unused(u.requests.Keys);
    var u1 := Exec(u, Arrive(r, i, "", ""));
    var u2 := Exec(u1, TakeLock(r));
    InvStep(u, Arrive(r, i, "", ""));
    InvStep(u1, TakeLock(r));
    var u3 := Exec(u2, ReadCached(r));
    InvStep(u2, ReadCached(r));
    FlagClearCommits(u3, r);
    StepThenCommit(u2, ReadCached(r));
    StepThenCommit(u1, TakeLock(r));
    StepThenCommit(u, Arrive(r, i, "", ""));
  }

  lemma {:induction false} Unused(ids: set<nat>) returns (id: nat)
    ensures id !in ids && forall i :: i in ids ==> i < id
  {
    if i :| i in ids {
      var below := Unused(ids - {i});
      assert forall j :: j in ids ==> j == i || j in ids - {i};
      id := if i < below then below else i + 1;
    } else {
      id := 0;
    }
  }

  /**
   * With the flag set and settings reads that succeed, another setup can still commit, whatever happens to
   * credentials, if and only if some cache, load or request has not yet seen the flag.
   */
  lemma FlagClosesIffEveryoneHasSeenIt(s: State)
    requires Inv(s) && s.t.completed
    ensures CanStillCommit(s) <==> !Closed(s)
  {
    if Closed(s) {
      forall steps | IsRun(s, steps) && ReadsSucceed(steps) ensures |Final(s, steps).winners| <= |s.winners| {
        ClosedForever(s, steps);
      }
    } else if i :| Fresh(s, i) && !s.caches[i].completed {
      StaleCacheCommits(s, i);
    } else if l :| l in s.loads && !s.loads[l].completed {
      InvStep(s, StoreLoad(l));
      StaleCacheCommits(Exec(s, StoreLoad(l)), s.loads[l].instance);
      StepThenCommit(s, StoreLoad(l));
    } else if r :| RequestAt(s, r, Open) {
      OpenCommits(s, r);
    } else {
      var r :| RequestAt(s, r, FlagClear);
      FlagClearCommits(s, r);
    }
  }

  /**
   * Without loads and requests in flight, one cache lifetime closes setup on every instance; an invalidation empties
   * the cache of its instance at once.
   */
  lemma ClosedAfterOneLifetime(s: State, elapsed: nat)
    requires Inv(s) && s.t.completed && elapsed >= Settings.CACHE_TTL
    requires forall l :: l in s.loads ==> s.loads[l].completed
    requires forall r :: !RequestAt(s, r, FlagClear) && !RequestAt(s, r, Open)
    ensures Closed(Exec(s, Tick(elapsed)))
    ensures forall i :: !Fresh(Exec(s, Invalidate(i)), i)
  {
    var u := Exec(s, Tick(elapsed));
    forall r ensures !RequestAt(u, r, FlagClear) && !RequestAt(u, r, Open) {
      assert !RequestAt(s, r, FlagClear) && !RequestAt(s, r, Open);
    }
  }

  /** A settings read that fails counts as a clear flag: with it, a closed system makes another super admin. */
  lemma FailedReadReopensSetup(s: State, i: nat, email: string, secret: string) returns (r: nat, steps: seq<Step>)
    requires Inv(s) && Closed(s) && s.lock == None && !Fresh(s, i) && NoStaff(s.t)
    ensures steps == [Arrive(r, i, email, secret), TakeLock(r), ReadFailed(r), QueryStaff(r), Commit(r)]
    ensures IsRun(s, steps) && Final(s, steps).winners == s.winners + [Chosen(s.t, email)]
  {
    r := Unused(s.requests.Keys);
    var a, b, c, d, e := Arrive(r, i, email, secret), TakeLock(r), ReadFailed(r), QueryStaff(r), Commit(r);
    var s3 := Exec(Exec(Exec(s, a), b), c);
    assert s3.requests[r] == Request(i, email, secret, FlagClear) && s3.t == s.t && s3.winners == s.winners;
    FiveSteps(s, a, b, c, d, e);
    steps := [a, b, c, d, e];
  }

  lemma FiveSteps(s: State, a: Step, b: Step, c: Step, d: Step, e: Step)
    requires Enabled(s, a) && Enabled(Exec(s, a), b) && Enabled(Exec(Exec(s, a), b), c)
    requires Enabled(Exec(Exec(Exec(s, a), b), c), d) && Enabled(Exec(Exec(Exec(Exec(s, a), b), c), d), e)
    ensures IsRun(s, [a, b, c, d, e])
    ensures Final(s, [a, b, c, d, e]) == Exec(Exec(Exec(Exec(Exec(s, a), b), c), d), e)
  {
    var s1 := Exec(s, a);
    var s2 := Exec(s1, b);
    var s3 := Exec(s2, c);
    var s4 := Exec(s3, d);
    var s5 := Exec(s4, e);
    assert IsRun(s5, []) && Final(s5, []) == s5;
    RunCons(s4, e, []);
    RunCons(s3, d, [e] + []);
    RunCons(s2, c, [d] + ([e] + []));
    RunCons(s1, b, [c] + ([d] + ([e] + [])));
    RunCons(s, a, [b] + ([c] + ([d] + ([e] + []))));
    assert [a, b, c, d, e] == [a] + ([b] + ([c] + ([d] + ([e] + []))));
  }
}
