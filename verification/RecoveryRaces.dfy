/**
 * Replacing and consuming recovery codes as interleaved transactions. Each statement first fixes the committed
 * rows it will work on, then locks them one by one, skipping those that are gone or no longer match, and its
 * writes appear at commit.
 */
module RecoveryRaces {
  import opened Arith
  import opened Wrappers
  import opened Challenges
  import opened RecoveryTable

  /** Whose code, and which. */
  datatype Key = Key(plane: Plane, subject: nat, codeHash: string)

  /** `todo` are the rows still to lock, `held` those locked and found to match; ids below `begunAt` existed at the start. */
  datatype Request =
    | Replace(plane: Plane, subject: nat, hashes: seq<string>, begunAt: nat, todo: set<nat>, held: set<nat>)
    | Consume(key: Key, todo: set<nat>, held: set<nat>)

  /** `issued` and `won` count, per code, the rows inserted and the successful consumptions; nothing reads them. */
  datatype State = State(
    rows: Codes,
    nextId: nat,
    now: int,
    lock: map<nat, nat>,
    requests: map<nat, Request>,
    issued: multiset<Key>,
    won: multiset<Key>)

  datatype Step =
    | BeginReplace(r: nat, plane: Plane, subject: nat, hashes: seq<string>)
    | BeginConsume(r: nat, key: Key)
    | LockRow(r: nat, id: nat)
    | Commit(r: nat)
    | Abort(r: nat)
    | Tick(elapsed: nat)

  predicate Matches(q: Request, row: CodeRow) {
    match q
    case Replace(plane, subject, _, _, _, _) => Owned(row, plane, subject)
    case Consume(key, _, _) => Owned(row, key.plane, key.subject) && row.codeHash == key.codeHash && row.usedAt.None?
  }

  function Visible(rows: Codes, q: Request): set<nat> { set id | id in rows && Matches(q, rows[id]) }

  predicate LocksNext(s: State, r: nat, id: nat) {
    r in s.requests && id in s.requests[r].todo && id !in s.lock
  }

  ghost predicate Enabled(s: State, step: Step) {
    match step
    case BeginReplace(r, _, _, _) => r !in s.requests
    case BeginConsume(r, _) => r !in s.requests
    case LockRow(r, id) => LocksNext(s, r, id)
    case Commit(r) => r in s.requests && s.requests[r].todo == {}
    case Abort(r) => r in s.requests
    case Tick(_) => true
  }

  function Begun(s: State, r: nat, q: Request): State {
    s.(requests := s.requests[r := q.(todo := Visible(s.rows, q), held := {})])
  }

  /** Takes the row if it is still there and still matches. */
  function Locked(s: State, r: nat, id: nat): State
    requires LocksNext(s, r, id)
  {
    var q := s.requests[r];
    var rest := q.(todo := q.todo - {id});
    if id in s.rows && Matches(q, s.rows[id])
    then s.(requests := s.requests[r := rest.(held := q.held + {id})], lock := s.lock[id := r])
    else s.(requests := s.requests[r := rest])
  }

  /** The transaction is over: its locks are free and it is forgotten. */
  function Ended(s: State, r: nat): State {
    s.(requests := s.requests - {r}, lock := map id | id in s.lock && s.lock[id] != r :: s.lock[id])
  }

  function KeysOf(plane: Plane, subject: nat, hashes: seq<string>): multiset<Key> {
    if hashes == [] then multiset{}
    else KeysOf(plane, subject, hashes[..|hashes| - 1]) + multiset{Key(plane, subject, hashes[|hashes| - 1])}
  }

  function Committed(s: State, r: nat): State
    requires r in s.requests
  {
    match s.requests[r]
    case Replace(plane, subject, hashes, _, _, held) =>
      Ended(s.(rows := (s.rows - held) + NewCodes(plane, subject, hashes, s.nextId),
               nextId := s.nextId + |hashes|,
               issued := s.issued + KeysOf(plane, subject, hashes)), r)
    case Consume(key, _, held) =>
      if held == {} then Ended(s, r)
      else Ended(s.(rows := SpentRows(s.rows, held, s.now), won := s.won + multiset{key}), r)
  }

  ghost function Exec(s: State, step: Step): State
    requires Enabled(s, step)
  {
    match step
    case BeginReplace(r, plane, subject, hashes) => Begun(s, r, Replace(plane, subject, hashes, s.nextId, {}, {}))
    case BeginConsume(r, key) => Begun(s, r, Consume(key, {}, {}))
    case LockRow(r, id) => Locked(s, r, id)
    case Commit(r) => Committed(s, r)
    case Abort(r) => Ended(s, r)
    case Tick(elapsed) => s.(now := s.now + elapsed)
  }

  ghost predicate Initial(s: State) {
    s.rows == map[] && s.requests == map[] && s.lock == map[] && s.issued == multiset{} && s.won == multiset{}
  }

  // ---------------------------------------------------------------- the invariant

  function Live(rows: Codes, k: Key): set<nat> { UnusedWith(rows, k.plane, k.subject, k.codeHash) }

  /** A locked row is still there, still matches, and is locked by the request that holds it. */
  ghost predicate HeldOk(s: State, r: nat) {
    r in s.requests ==>
      forall id :: id in s.requests[r].held ==>
        id in s.lock && s.lock[id] == r && id in s.rows && Matches(s.requests[r], s.rows[id])
  }

  /** A replacement still has, or holds, exactly the rows of its owner that existed when it began. */
  ghost predicate SnapshotOk(s: State, r: nat) {
    r in s.requests && s.requests[r].Replace? ==>
      var q := s.requests[r];
      && q.begunAt <= s.nextId
      && (forall id :: id in q.todo || id in q.held ==> id < q.begunAt)
      && forall id :: id in s.rows && Owned(s.rows[id], q.plane, q.subject) && id < q.begunAt ==> id in q.todo || id in q.held
  }

  ghost predicate RequestsOk(s: State) { forall r :: r in s.requests ==> HeldOk(s, r) && SnapshotOk(s, r) }

  ghost predicate KeysOk(s: State) {
    && (forall id :: id in s.rows ==> id < s.nextId)
    && (forall id :: id in s.lock ==> s.lock[id] in s.requests)
  }

  /** Every inserted row of a code is unused, was the price of a success, or was deleted. */
  ghost predicate Conserved(s: State, k: Key) { s.won[k] + |Live(s.rows, k)| <= s.issued[k] }

  ghost predicate Inv(s: State) { RequestsOk(s) && KeysOk(s) }

  /** What a step may do to a code: every success and every new row is paid for. */
  ghost predicate Pays(s: State, u: State, k: Key) {
    u.won[k] + |Live(u.rows, k)| + s.issued[k] <= s.won[k] + |Live(s.rows, k)| + u.issued[k]
  }

  lemma RequestsAfterEnd(s: State, u: State, r: nat)
    requires RequestsOk(s) && r in s.requests && u.requests == s.requests - {r} && u.lock == Ended(s, r).lock
    requires forall id :: id in s.rows && (id !in s.lock || s.lock[id] != r) ==> id in u.rows && u.rows[id] == s.rows[id]
    requires u.nextId >= s.nextId
    requires forall id :: id in u.rows && id < s.nextId ==>
               id in s.rows && u.rows[id].plane == s.rows[id].plane && u.rows[id].subject == s.rows[id].subject
    ensures RequestsOk(u)
  {
    forall r' | r' in u.requests ensures HeldOk(u, r') && SnapshotOk(u, r') {
      assert HeldOk(s, r') && SnapshotOk(s, r');
    }
  }

  lemma {:induction false} NewKeys(plane: Plane, subject: nat, hashes: seq<string>, firstId: nat, k: Key)
    ensures |Live(NewCodes(plane, subject, hashes, firstId), k)| == KeysOf(plane, subject, hashes)[k]
  {
    if hashes != [] {
      var n := |hashes| - 1;
      var rest := NewCodes(plane, subject, hashes[..n], firstId);
      NewKeys(plane, subject, hashes[..n], firstId, k);
      NewCodesAre(plane, subject, hashes[..n], firstId);
      OneMoreLive(rest, firstId + n, CodeRow(plane, subject, hashes[n], None), k);
    }
  }

  lemma OneMoreLive(rows: Codes, id: nat, row: CodeRow, k: Key)
    requires id !in rows && row.usedAt.None?
    ensures |Live(rows[id := row], k)| == |Live(rows, k)| + if Key(row.plane, row.subject, row.codeHash) == k then 1 else 0
  {
    if Key(row.plane, row.subject, row.codeHash) == k {
      assert Live(rows[id := row], k) == Live(rows, k) + {id};
    } else {
      assert Live(rows[id := row], k) == Live(rows, k);
    }
  }

  lemma InvCommitReplace(s: State, r: nat)
    requires Inv(s) && Enabled(s, Commit(r)) && s.requests[r].Replace?
    ensures Inv(Exec(s, Commit(r)))
  {
    var q := s.requests[r];
    NewCodesAre(q.plane, q.subject, q.hashes, s.nextId);
    assert HeldOk(s, r);
    RequestsAfterEnd(s, Exec(s, Commit(r)), r);
  }

  lemma PayReplace(s: State, r: nat, k: Key)
    requires Inv(s) && Enabled(s, Commit(r)) && s.requests[r].Replace?
    ensures Pays(s, Exec(s, Commit(r)), k)
  {
    var q := s.requests[r];
    NewCodesAre(q.plane, q.subject, q.hashes, s.nextId);
    NewKeys(q.plane, q.subject, q.hashes, s.nextId, k);
    LiveOfUnion(s.rows, q.held, NewCodes(q.plane, q.subject, q.hashes, s.nextId), k);
  }

  lemma LiveOfUnion(rows: Codes, gone: set<nat>, added: Codes, k: Key)
    requires forall id :: id in added ==> id !in rows
    ensures Live((rows - gone) + added, k) == (Live(rows, k) - gone) + Live(added, k)
    ensures |Live((rows - gone) + added, k)| <= |Live(rows, k)| + |Live(added, k)|
  {
    var all := Live((rows - gone) + added, k);
    assert all == (Live(rows, k) - gone) + Live(added, k);
    SubsetSize(all, Live(rows, k) + Live(added, k));
  }

  lemma InvCommitConsume(s: State, r: nat)
    requires Inv(s) && Enabled(s, Commit(r)) && s.requests[r].Consume?
    ensures Inv(Exec(s, Commit(r)))
  {
    assert HeldOk(s, r);
    RequestsAfterEnd(s, Exec(s, Commit(r)), r);
  }

  lemma PayConsume(s: State, r: nat, k: Key)
    requires Inv(s) && Enabled(s, Commit(r)) && s.requests[r].Consume?
    ensures Pays(s, Exec(s, Commit(r)), k)
  {
    var q := s.requests[r];
    if q.held != {} {
      LiveAfterSpending(s.rows, q.held, s.now, k);
      if k == q.key {
        assert HeldOk(s, r);
        var id :| id in q.held;
        LiveAfterSpending(s.rows, q.held, s.now, k);
        SubsetSize(Live(s.rows, k) - q.held, Live(s.rows, k) - {id});
      }
    }
  }

  lemma LiveAfterSpending(rows: Codes, ids: set<nat>, now: int, k: Key)
    ensures Live(SpentRows(rows, ids, now), k) == Live(rows, k) - ids
    ensures |Live(SpentRows(rows, ids, now), k)| <= |Live(rows, k)|
  {
    SubsetSize(Live(SpentRows(rows, ids, now), k), Live(rows, k));
  }

  lemma InvAbort(s: State, r: nat)
    requires Inv(s) && Enabled(s, Abort(r))
    ensures Inv(Exec(s, Abort(r)))
  {
    RequestsAfterEnd(s, Exec(s, Abort(r)), r);
  }

  lemma HeldAfterLock(s: State, r: nat, id: nat, r': nat)
    requires Inv(s) && Enabled(s, LockRow(r, id)) && r' in s.requests
    ensures HeldOk(Exec(s, LockRow(r, id)), r')
  {
    var u := Exec(s, LockRow(r, id));
    assert HeldOk(s, r');
    forall i | i in u.requests[r'].held
      ensures i in u.lock && u.lock[i] == r' && i in u.rows && Matches(u.requests[r'], u.rows[i])
    {
      if i == id {
        assert r' == r;
      } else {
        assert i in s.requests[r'].held;
      }
    }
  }

  lemma SnapshotAfterLock(s: State, r: nat, id: nat, r': nat)
    requires Inv(s) && Enabled(s, LockRow(r, id)) && r' in s.requests
    ensures SnapshotOk(Exec(s, LockRow(r, id)), r')
  {
    var u := Exec(s, LockRow(r, id));
    assert SnapshotOk(s, r');
    if u.requests[r'].Replace? {
      var q := s.requests[r'];
      assert u.requests[r'].plane == q.plane && u.requests[r'].subject == q.subject && u.requests[r'].begunAt == q.begunAt;
      forall i | i in u.rows && Owned(u.rows[i], q.plane, q.subject) && i < q.begunAt
        ensures i in u.requests[r'].todo || i in u.requests[r'].held
      {
        assert i in q.todo || i in q.held;
      }
    }
  }

  lemma InvLock(s: State, r: nat, id: nat)
    requires Inv(s) && Enabled(s, LockRow(r, id))
    ensures Inv(Exec(s, LockRow(r, id)))
  {
    var u := Exec(s, LockRow(r, id));
    forall r' | r' in u.requests ensures HeldOk(u, r') && SnapshotOk(u, r') {
      HeldAfterLock(s, r, id, r');
      SnapshotAfterLock(s, r, id, r');
    }
  }

  lemma InvBegin(s: State, step: Step)
    requires Inv(s) && Enabled(s, step) && (step.BeginReplace? || step.BeginConsume? || step.Tick?)
    ensures Inv(Exec(s, step))
  {
    var u := Exec(s, step);
    forall r | r in u.requests ensures HeldOk(u, r) && SnapshotOk(u, r) {
      assert r in s.requests ==> HeldOk(s, r) && SnapshotOk(s, r);
    }
  }

  lemma InvStep(s: State, step: Step, k: Key)
    requires Inv(s) && Enabled(s, step)
    ensures Inv(Exec(s, step)) && Pays(s, Exec(s, step), k)
  {
    match step
    case Commit(r) =>
      if s.requests[r].Replace? {
        InvCommitReplace(s, r);
        PayReplace(s, r, k);
      } else {
        InvCommitConsume(s, r);
        PayConsume(s, r, k);
      }
    case Abort(r) => InvAbort(s, r);
    case LockRow(r, id) => InvLock(s, r, id);
    case _ => InvBegin(s, step);
  }

  // ---------------------------------------------------------------- runs

  ghost predicate IsRun(s: State, steps: seq<Step>)
    decreases |steps|
  {
    steps == [] || (Enabled(s, steps[0]) && IsRun(Exec(s, steps[0]), steps[1..]))
  }

  ghost function Final(s: State, steps: seq<Step>): State
    requires IsRun(s, steps)
    decreases |steps|
  {
    if steps == [] then s else Final(Exec(s, steps[0]), steps[1..])
  }

  lemma {:induction false} InvRun(s: State, steps: seq<Step>, k: Key)
    requires Inv(s) && IsRun(s, steps)
    ensures Inv(Final(s, steps)) && Pays(s, Final(s, steps), k)
    decreases |steps|
  {
    if steps != [] {
      InvStep(s, steps[0], k);
      InvRun(Exec(s, steps[0]), steps[1..], k);
    }
  }

  /** In any interleaving a code succeeds at most as often as it was issued; issued once, at most once. */
  lemma EachCodeSucceedsAtMostOncePerIssue(s: State, steps: seq<Step>, k: Key)
    requires Initial(s) && IsRun(s, steps)
    ensures Conserved(Final(s, steps), k)
    ensures Final(s, steps).won[k] <= Final(s, steps).issued[k]
  {
    assert Live(s.rows, k) == {};
    InvRun(s, steps, k);
  }

  lemma RunCons(s: State, step: Step, rest: seq<Step>)
    requires Enabled(s, step) && IsRun(Exec(s, step), rest)
    ensures IsRun(s, [step] + rest) && Final(s, [step] + rest) == Final(Exec(s, step), rest)
  {
    assert ([step] + rest)[0] == step && ([step] + rest)[1..] == rest;
  }

  // ---------------------------------------------------------------- what a replacement ends

  /** Some continuation lets the code succeed without it being issued again. */
  ghost predicate CanStillSucceed(s: State, k: Key) {
    exists steps :: IsRun(s, steps) && Final(s, steps).issued[k] == s.issued[k] && Final(s, steps).won[k] > s.won[k]
  }

  /** Everything in flight can end without committing. */
  lemma {:induction false} Quiesce(s: State) returns (steps: seq<Step>)
    requires Inv(s)
    ensures IsRun(s, steps)
    ensures var u := Final(s, steps); u == s.(requests := map[], lock := map[])
    decreases |s.requests|
  {
    if r :| r in s.requests {
      var u := Exec(s, Abort(r));
      InvAbort(s, r);
      assert s.requests.Keys == u.requests.Keys + {r};
      assert |u.requests.Keys| < |s.requests.Keys|;
      var rest := Quiesce(u);
      RunCons(s, Abort(r), rest);
      steps := [Abort(r)] + rest;
    } else {
      assert s.requests == map[] && s.lock == map[];
      steps := [];
    }
  }

  /** Alone, a statement locks all the rows it found. */
  lemma {:induction false} LockAll(s: State, q: Request) returns (steps: seq<Step>)
    requires s.requests == map[0 := q] && s.lock.Keys !! q.todo
    requires forall id :: id in q.todo ==> id in s.rows && Matches(q, s.rows[id])
    ensures IsRun(s, steps)
    ensures var u := Final(s, steps);
            u == s.(requests := map[0 := q.(todo := {}, held := q.held + q.todo)], lock := u.lock)
    decreases q.todo
  {
    if id :| id in q.todo {
      var u := Exec(s, LockRow(0, id));
      var next := q.(todo := q.todo - {id}, held := q.held + {id});
      assert u.requests == map[0 := next];
      var rest := LockAll(u, next);
      assert q.held + {id} + (q.todo - {id}) == q.held + q.todo;
      RunCons(s, LockRow(0, id), rest);
      steps := [LockRow(0, id)] + rest;
    } else {
      assert q.todo == {} && q.held + q.todo == q.held;
      steps := [];
    }
  }

  lemma {:induction false} RunsConcat(s: State, a: seq<Step>, b: seq<Step>)
    requires IsRun(s, a) && IsRun(Final(s, a), b)
    ensures IsRun(s, a + b) && Final(s, a + b) == Final(Final(s, a), b)
    decreases |a|
  {
    if a == [] {
      assert a + b == b;
    } else {
      RunsConcat(Exec(s, a[0]), a[1..], b);
      assert (a + b)[0] == a[0] && (a + b)[1..] == a[1..] + b;
    }
  }

  /** A request that starts, locks what it found and commits while nothing else runs. */
  lemma Alone(s: State, begin: Step, q: Request) returns (steps: seq<Step>)
    requires Inv(s) && s.requests == map[] && s.lock == map[] && (begin.BeginReplace? || begin.BeginConsume?) && begin.r == 0
    requires Exec(s, begin).requests == map[0 := q.(todo := Visible(s.rows, q), held := {})]
    ensures IsRun(s, steps)
    ensures var u := Final(s, steps);
            match q
            case Replace(plane, subject, hashes, _, _, _) => u.rows == Replaced(s.rows, plane, subject, hashes, s.nextId)
            case Consume(k, _, _) =>
              && u.rows == SpentRows(s.rows, Live(s.rows, k), s.now) && u.issued == s.issued
              && u.won == if Live(s.rows, k) == {} then s.won else s.won + multiset{k}
  {
    var begun := Exec(s, begin);
    var found := q.(todo := Visible(s.rows, q), held := {});
    var locking := LockAll(begun, found);
    var u := Final(begun, locking);
    assert {} + Visible(s.rows, q) == Visible(s.rows, q);
    assert u.requests[0] == q.(todo := {}, held := Visible(s.rows, q));
    assert IsRun(Exec(u, Commit(0)), []);
    RunCons(u, Commit(0), []);
    RunsConcat(begun, locking, [Commit(0)] + []);
    steps := [begin] + (locking + ([Commit(0)] + []));
    RunCons(s, begin, locking + ([Commit(0)] + []));
    VisibleIs(s.rows, q, s.now);
  }

  /** What a request sees is what the sequential operation would touch. */
  lemma VisibleIs(rows: Codes, q: Request, now: int)
    ensures q.Replace? ==> rows - Visible(rows, q) == Without(rows, q.plane, q.subject)
    ensures q.Consume? ==> Visible(rows, q) == Live(rows, q.key)
    ensures SpentRows(rows, {}, now) == rows
  {
  }

  /** Uninterrupted, consuming is what the sequential `ConsumeRecoveryCode` computes. */
  lemma AloneItConsumes(s: State, k: Key) returns (steps: seq<Step>)
    requires Inv(s) && s.requests == map[] && s.lock == map[]
    ensures IsRun(s, steps)
    ensures var u := Final(s, steps);
            && u.rows == SpentRows(s.rows, Live(s.rows, k), s.now) && u.issued == s.issued
            && u.won == if Live(s.rows, k) == {} then s.won else s.won + multiset{k}
  {
    steps := Alone(s, BeginConsume(0, k), Consume(k, {}, {}));
  }

  /** Uninterrupted, replacing is what the sequential `ReplaceRecoveryCodes` computes. */
  lemma AloneItReplaces(s: State, plane: Plane, subject: nat, hashes: seq<string>) returns (steps: seq<Step>)
    requires Inv(s) && s.requests == map[] && s.lock == map[]
    ensures IsRun(s, steps) && Final(s, steps).rows == Replaced(s.rows, plane, subject, hashes, s.nextId)
  {
    steps := Alone(s, BeginReplace(0, plane, subject, hashes), Replace(plane, subject, hashes, s.nextId, {}, {}));
  }

  /** A code can still succeed, unless issued again, exactly while an unused row of it stands. */
  lemma CanSucceedIffLive(s: State, k: Key)
    requires Inv(s)
    ensures CanStillSucceed(s, k) <==> Live(s.rows, k) != {}
  {
    if CanStillSucceed(s, k) {
      var steps :| IsRun(s, steps) && Final(s, steps).issued[k] == s.issued[k] && Final(s, steps).won[k] > s.won[k];
      InvRun(s, steps, k);
    }
    if Live(s.rows, k) != {} {
      var quiet := Quiesce(s);
      var u := Final(s, quiet);
      var alone := AloneItConsumes(u, k);
      RunsConcat(s, quiet, alone);
      assert IsRun(s, quiet + alone) && Final(s, quiet + alone).issued[k] == s.issued[k];
    }
  }

  /** What commits when a replacement does: of its owner's old rows, exactly those inserted after it began remain. */
  lemma ReplacementSpares(s: State, r: nat)
    requires Inv(s) && Enabled(s, Commit(r)) && s.requests[r].Replace?
    ensures var q, u := s.requests[r], Exec(s, Commit(r));
            forall id :: id in s.rows && Owned(s.rows[id], q.plane, q.subject) ==> (id in u.rows <==> id !in q.held)
    ensures var q := s.requests[r];
            forall id :: id in s.rows && Owned(s.rows[id], q.plane, q.subject) && id < q.begunAt ==> id in q.held
  {
    var q := s.requests[r];
    NewCodesAre(q.plane, q.subject, q.hashes, s.nextId);
    assert HeldOk(s, r) && SnapshotOk(s, r);
  }

  /**
   * Once a replacement commits, an old code of its owner outside the new set can never succeed again unless
   * reissued, if and only if no unused row of it was inserted after the replacement began.
   */
  lemma ReplacedCodeIsDeadIff(s: State, r: nat, k: Key)
    requires Inv(s) && Enabled(s, Commit(r)) && s.requests[r].Replace?
    requires var q := s.requests[r]; k.plane == q.plane && k.subject == q.subject && k.codeHash !in q.hashes
    ensures !CanStillSucceed(Exec(s, Commit(r)), k) <==>
              forall id :: id in Live(s.rows, k) ==> id < s.requests[r].begunAt
  {
    var q, u := s.requests[r], Exec(s, Commit(r));
    InvCommitReplace(s, r);
    CanSucceedIffLive(u, k);
    ReplacementSpares(s, r);
    assert SnapshotOk(s, r);
    LiveAfterReplacement(s, r, k);
    if Live(u.rows, k) == {} {
      forall id | id in Live(s.rows, k) ensures id < q.begunAt {
        assert id !in Live(s.rows, k) - q.held;
      }
    }
  }

  lemma LiveAfterReplacement(s: State, r: nat, k: Key)
    requires Inv(s) && Enabled(s, Commit(r)) && s.requests[r].Replace? && k.codeHash !in s.requests[r].hashes
    ensures Live(Exec(s, Commit(r)).rows, k) == Live(s.rows, k) - s.requests[r].held
  {
    var q := s.requests[r];
    var added := NewCodes(q.plane, q.subject, q.hashes, s.nextId);
    NewCodesAre(q.plane, q.subject, q.hashes, s.nextId);
    LiveOfUnion(s.rows, q.held, added, k);
    assert Live(added, k) == {};
  }

  // ---------------------------------------------------------------- conservation between replacements

  /** The commit of a replacement for this owner. */
  ghost predicate Replaces(s: State, step: Step, plane: Plane, subject: nat)
    requires Enabled(s, step)
  {
    step.Commit? && s.requests[step.r].Replace? && s.requests[step.r].plane == plane && s.requests[step.r].subject == subject
  }

  /** The commit of a consumption that found its code. */
  ghost predicate Succeeds(s: State, step: Step, plane: Plane, subject: nat)
    requires Enabled(s, step)
  {
    step.Commit? && s.requests[step.r].Consume? && s.requests[step.r].held != {}
    && s.requests[step.r].key.plane == plane && s.requests[step.r].key.subject == subject
  }

  ghost predicate NoReplacement(s: State, steps: seq<Step>, plane: Plane, subject: nat)
    requires IsRun(s, steps)
    decreases |steps|
  {
    steps == []
    || (!Replaces(s, steps[0], plane, subject) && NoReplacement(Exec(s, steps[0]), steps[1..], plane, subject))
  }

  ghost function Successes(s: State, steps: seq<Step>, plane: Plane, subject: nat): nat
    requires IsRun(s, steps)
    decreases |steps|
  {
    if steps == [] then 0
    else
      (if Succeeds(s, steps[0], plane, subject) then 1 else 0)
      + Successes(Exec(s, steps[0]), steps[1..], plane, subject)
  }

  /** No two unused rows of the owner hold the same code. */
  ghost predicate DistinctCodes(rows: Codes, plane: Plane, subject: nat) {
    forall i, j :: i in Unused(rows, plane, subject) && j in Unused(rows, plane, subject) && i != j ==>
                     rows[i].codeHash != rows[j].codeHash
  }

  lemma SuccessTakesExactlyOne(s: State, step: Step, plane: Plane, subject: nat)
    requires Inv(s) && Enabled(s, step) && Succeeds(s, step, plane, subject) && DistinctCodes(s.rows, plane, subject)
    ensures var u := Exec(s, step);
            DistinctCodes(u.rows, plane, subject) && |Unused(u.rows, plane, subject)| + 1 == |Unused(s.rows, plane, subject)|
  {
    var u, q := Exec(s, step), s.requests[step.r];
    assert HeldOk(s, step.r);
    var id :| id in q.held;
    assert forall j :: j in q.held ==> j in Unused(s.rows, plane, subject) && s.rows[j].codeHash == s.rows[id].codeHash;
    assert q.held == {id};
    assert Unused(u.rows, plane, subject) == Unused(s.rows, plane, subject) - {id};
  }

  lemma UnusedOfUnion(rows: Codes, gone: set<nat>, added: Codes, plane: Plane, subject: nat)
    requires forall id :: id in added ==> id !in rows && Owned(added[id], plane, subject) && added[id].usedAt.None?
    ensures Unused((rows - gone) + added, plane, subject) == (Unused(rows, plane, subject) - gone) + added.Keys
    ensures |Unused((rows - gone) + added, plane, subject)| == |Unused(rows, plane, subject) - gone| + |added.Keys|
  {
    UnusedIsUnion(rows, gone, added, plane, subject);
  }

  lemma UnusedIsUnion(rows: Codes, gone: set<nat>, added: Codes, plane: Plane, subject: nat)
    requires forall id :: id in added ==> Owned(added[id], plane, subject) && added[id].usedAt.None? && id !in rows
    ensures Unused((rows - gone) + added, plane, subject) == (Unused(rows, plane, subject) - gone) + added.Keys
  {
  }

  lemma UnusedElsewhere(rows: Codes, gone: set<nat>, added: Codes, plane: Plane, subject: nat)
    requires forall id :: id in added ==> id !in rows && !Owned(added[id], plane, subject)
    requires forall id :: id in gone && id in rows ==> !Owned(rows[id], plane, subject)
    ensures Unused((rows - gone) + added, plane, subject) == Unused(rows, plane, subject)
  {
  }

  lemma OtherStepsTakeNone(s: State, step: Step, plane: Plane, subject: nat)
    requires Inv(s) && Enabled(s, step)
    requires !Succeeds(s, step, plane, subject) && !Replaces(s, step, plane, subject)
    ensures var u := Exec(s, step);
            && Unused(u.rows, plane, subject) == Unused(s.rows, plane, subject)
            && forall id :: id in Unused(s.rows, plane, subject) ==> u.rows[id].codeHash == s.rows[id].codeHash
  {
    if step.Commit? {
      var q := s.requests[step.r];
      assert HeldOk(s, step.r);
      if q.Replace? {
        NewCodesAre(q.plane, q.subject, q.hashes, s.nextId);
        UnusedElsewhere(s.rows, q.held, NewCodes(q.plane, q.subject, q.hashes, s.nextId), plane, subject);
      } else {
      }
    }
  }

  /** Between replacements, with distinct codes, unused codes and successes add up to what there was. */
  lemma {:induction false} UnusedPlusSuccesses(s: State, steps: seq<Step>, plane: Plane, subject: nat)
    requires Inv(s) && IsRun(s, steps) && NoReplacement(s, steps, plane, subject) && DistinctCodes(s.rows, plane, subject)
    ensures |Unused(Final(s, steps).rows, plane, subject)| + Successes(s, steps, plane, subject)
         == |Unused(s.rows, plane, subject)|
    decreases |steps|
  {
    if steps != [] {
      var u := Exec(s, steps[0]);
      if Succeeds(s, steps[0], plane, subject) {
        SuccessTakesExactlyOne(s, steps[0], plane, subject);
      } else {
        OtherStepsTakeNone(s, steps[0], plane, subject);
      }
      InvStep(s, steps[0], Key(plane, subject, ""));
      UnusedPlusSuccesses(u, steps[1..], plane, subject);
    }
  }

  /** What a committed replacement leaves unused: its own codes and those inserted after it began. */
  lemma UnusedAfterReplacement(s: State, r: nat)
    requires Inv(s) && Enabled(s, Commit(r)) && s.requests[r].Replace?
    ensures var q, u := s.requests[r], Exec(s, Commit(r));
            && |Unused(u.rows, q.plane, q.subject)| == |q.hashes| + |Unused(s.rows, q.plane, q.subject) - q.held|
            && forall id :: id in Unused(s.rows, q.plane, q.subject) - q.held ==> id >= q.begunAt
  {
    var q := s.requests[r];
    NewCodesAre(q.plane, q.subject, q.hashes, s.nextId);
    NewCodesCount(q.plane, q.subject, q.hashes, s.nextId);
    UnusedOfUnion(s.rows, q.held, NewCodes(q.plane, q.subject, q.hashes, s.nextId), q.plane, q.subject);
    assert SnapshotOk(s, r);
  }

  /**
   * Conservation: after a replacement that nothing overlapped (no row of its owner was inserted since it
   * began) with distinct codes, unused codes plus successful consumptions always equal the number issued.
   */
  lemma IssuedEqualsUnusedPlusSpent(s: State, r: nat, steps: seq<Step>)
    requires Inv(s) && Enabled(s, Commit(r)) && s.requests[r].Replace?
    requires var q := s.requests[r]; forall id :: id in s.rows && Owned(s.rows[id], q.plane, q.subject) ==> id < q.begunAt
    requires var q := s.requests[r]; forall i, j :: 0 <= i < j < |q.hashes| ==> q.hashes[i] != q.hashes[j]
    requires var q := s.requests[r];
             IsRun(Exec(s, Commit(r)), steps) && NoReplacement(Exec(s, Commit(r)), steps, q.plane, q.subject)
    ensures var q, u := s.requests[r], Exec(s, Commit(r));
            |Unused(Final(u, steps).rows, q.plane, q.subject)| + Successes(u, steps, q.plane, q.subject) == |q.hashes|
  {
    var q, u := s.requests[r], Exec(s, Commit(r));
    InvCommitReplace(s, r);
    UnusedAfterReplacement(s, r);
    assert SnapshotOk(s, r);
    assert Unused(s.rows, q.plane, q.subject) - q.held == {};
    OnlyNewIsDistinct(s.rows, q.held, q.plane, q.subject, q.hashes, s.nextId);
    UnusedPlusSuccesses(u, steps, q.plane, q.subject);
  }

  lemma NewAreDistinct(plane: Plane, subject: nat, hashes: seq<string>, firstId: nat, i: nat, j: nat)
    requires forall a, b :: 0 <= a < b < |hashes| ==> hashes[a] != hashes[b]
    requires var added := NewCodes(plane, subject, hashes, firstId); i in added && j in added && i != j
    ensures var added := NewCodes(plane, subject, hashes, firstId); added[i].codeHash != added[j].codeHash
  {
    NewCodesAre(plane, subject, hashes, firstId);
    var a, b := i - firstId, j - firstId;
    assert hashes[a] != hashes[b];
  }

  lemma OnlyNewIsDistinct(rows: Codes, gone: set<nat>, plane: Plane, subject: nat, hashes: seq<string>, firstId: nat)
    requires forall id :: id in rows ==> id < firstId
    requires Unused(rows, plane, subject) <= gone
    requires forall a, b :: 0 <= a < b < |hashes| ==> hashes[a] != hashes[b]
    ensures DistinctCodes((rows - gone) + NewCodes(plane, subject, hashes, firstId), plane, subject)
  {
    var added := NewCodes(plane, subject, hashes, firstId);
    NewCodesAre(plane, subject, hashes, firstId);
    UnusedOfUnion(rows, gone, added, plane, subject);
    var all := (rows - gone) + added;
    assert Unused(all, plane, subject) == added.Keys;
    forall i, j | i in Unused(all, plane, subject) && j in Unused(all, plane, subject) && i != j
      ensures all[i].codeHash != all[j].codeHash
    {
      NewAreDistinct(plane, subject, hashes, firstId, i, j);
    }
  }

  /** A replacement that begins while its owner has no codes has nothing to lock. */
  lemma BeginsEmptyHanded(s: State, r: nat, plane: Plane, subject: nat, hashes: seq<string>)
    requires Inv(s) && r !in s.requests && forall id :: id in s.rows ==> !Owned(s.rows[id], plane, subject)
    ensures var u := Exec(s, BeginReplace(r, plane, subject, hashes));
            && Inv(u) && u.rows == s.rows && u.nextId == s.nextId
            && u.requests == s.requests[r := Replace(plane, subject, hashes, s.nextId, {}, {})]
  {
    InvBegin(s, BeginReplace(r, plane, subject, hashes));
    assert Visible(s.rows, Replace(plane, subject, hashes, s.nextId, {}, {})) == {};
  }

  /** Two replacements for an owner without codes that both begin before either commits leave both sets usable. */
  lemma OverlappingReplacementsKeepBothSets(s: State, plane: Plane, subject: nat, first: seq<string>, second: seq<string>)
    returns (steps: seq<Step>)
    requires Inv(s) && s.requests == map[] && forall id :: id in s.rows ==> !Owned(s.rows[id], plane, subject)
    ensures IsRun(s, steps)
    ensures |Unused(Final(s, steps).rows, plane, subject)| == |first| + |second|
  {
    var a, b := BeginReplace(1, plane, subject, first), BeginReplace(2, plane, subject, second);
    BeginsEmptyHanded(s, 1, plane, subject, first);
    var s1 := Exec(s, a);
    BeginsEmptyHanded(s1, 2, plane, subject, second);
    var s2 := Exec(s1, b);
    assert Unused(s2.rows, plane, subject) == {};
    var s3 := CommitsEmptyHanded(s2, 1);
    var s4 := CommitsEmptyHanded(s3, 2);
    steps := FourSteps(s, a, b, Commit(1), Commit(2));
  }

  lemma CommitsEmptyHanded(s: State, r: nat) returns (u: State)
    requires Inv(s) && r in s.requests && s.requests[r].Replace? && s.requests[r].todo == {} && s.requests[r].held == {}
    ensures Enabled(s, Commit(r)) && u == Exec(s, Commit(r)) && Inv(u) && u.requests == s.requests - {r}
    ensures var q := s.requests[r];
            |Unused(u.rows, q.plane, q.subject)| == |Unused(s.rows, q.plane, q.subject)| + |q.hashes|
  {
    u := Exec(s, Commit(r));
    InvCommitReplace(s, r);
    var q := s.requests[r];
    UnusedAfterReplacement(s, r);
    assert Unused(s.rows, q.plane, q.subject) - {} == Unused(s.rows, q.plane, q.subject);
  }

  lemma FourSteps(s: State, a: Step, b: Step, c: Step, d: Step) returns (steps: seq<Step>)
    requires Enabled(s, a) && Enabled(Exec(s, a), b) && Enabled(Exec(Exec(s, a), b), c)
    requires Enabled(Exec(Exec(Exec(s, a), b), c), d)
    ensures IsRun(s, steps) && Final(s, steps) == Exec(Exec(Exec(Exec(s, a), b), c), d)
  {
    var s1 := Exec(s, a);
    var s2 := Exec(s1, b);
    var s3 := Exec(s2, c);
    assert IsRun(Exec(s3, d), []);
    RunCons(s3, d, []);
    RunCons(s2, c, [d] + []);
    RunCons(s1, b, [c] + ([d] + []));
    RunCons(s, a, [b] + ([c] + ([d] + [])));
    steps := [a] + ([b] + ([c] + ([d] + [])));
  }
}
