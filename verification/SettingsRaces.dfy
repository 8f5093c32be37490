/**
 * The settings cache under interleaving: querying the table, storing the answer, hitting the cache and
 * invalidating it are separate steps, and the table may be written between any two of them.
 */
module SettingsRaces {
  import opened Wrappers
  import opened Settings

  /** A committed state of the table and when it was committed. */
  datatype Version = Version(table: Table, since: int)

  /** A load between its query and its store; `version` was current at `queriedAt`. */
  datatype Load = Load(values: Values, version: nat, queriedAt: int)

  datatype Cached = Cached(values: Values, at: int, version: nat, queriedAt: int)

  /** A map handed to a caller. */
  datatype Returned = Returned(values: Values, at: int, version: nat, queriedAt: int)

  /** Version numbers and query times only record history; nothing reads them. */
  datatype State = State(
    now: int,
    versions: seq<Version>,
    cache: Option<Cached>,
    loads: map<nat, Load>,
    returned: seq<Returned>)

  datatype Step =
    | Write(table: Table)
    | Query(l: nat)
    | Store(l: nat)
    | Fail(l: nat)
    | Hit
    | Invalidate
    | Tick(elapsed: nat)

  predicate Fresh(s: State) { s.cache.Some? && s.now - s.cache.value.at < CACHE_TTL }

  /** `delay` bounds the time from a query to its store. */
  ghost predicate Enabled(s: State, delay: nat, step: Step) {
    match step
    case Query(l) => !Fresh(s) && l !in s.loads && s.versions != []
    case Store(l) => l in s.loads && s.now - s.loads[l].queriedAt <= delay
    case Fail(l) => l in s.loads
    case Hit => Fresh(s)
    case _ => true
  }

  function Exec(s: State, step: Step): State
    requires step.Query? ==> s.versions != []
    requires step.Store? || step.Fail? ==> step.l in s.loads
    requires step.Hit? ==> Fresh(s)
  {
    match step
    case Write(table) => s.(versions := s.versions + [Version(table, s.now)])
    case Query(l) =>
      var v := |s.versions| - 1;
      s.(loads := s.loads[l := Load(Effective(s.versions[v].table), v, s.now)])
    case Store(l) =>
      var d := s.loads[l];
      s.(cache := Some(Cached(d.values, s.now, d.version, d.queriedAt)), loads := s.loads - {l},
         returned := s.returned + [Returned(d.values, s.now, d.version, d.queriedAt)])
    case Fail(l) => s.(loads := s.loads - {l})
    case Hit =>
      var c := s.cache.value;
      s.(returned := s.returned + [Returned(c.values, s.now, c.version, c.queriedAt)])
    case Invalidate => s.(cache := None)
    case Tick(elapsed) => s.(now := s.now + elapsed)
  }

  // ---------------------------------------------------------------- the invariant

  /** The version was the committed table at that time, and the values are its policy. */
  ghost predicate Snapshot(s: State, values: Values, version: nat, at: int) {
    && version < |s.versions| && values == Effective(s.versions[version].table)
    && s.versions[version].since <= at <= s.now
    && (version + 1 < |s.versions| ==> at <= s.versions[version + 1].since)
  }

  ghost predicate LoadOk(s: State, d: Load) { Snapshot(s, d.values, d.version, d.queriedAt) }

  ghost predicate ReturnedOk(s: State, delay: nat, r: Returned) {
    && Snapshot(s, r.values, r.version, r.queriedAt)
    && r.queriedAt <= r.at <= s.now && r.at - r.queriedAt < CACHE_TTL + delay
  }

  ghost predicate Inv(s: State, delay: nat) {
    && (forall i :: 0 <= i < |s.versions| ==> s.versions[i].since <= s.now)
    && (forall l :: l in s.loads ==> LoadOk(s, s.loads[l]))
    && (s.cache.Some? ==>
          var c := s.cache.value;
          Snapshot(s, c.values, c.version, c.queriedAt) && c.queriedAt <= c.at <= s.now && c.at - c.queriedAt <= delay)
    && (forall i :: 0 <= i < |s.returned| ==> ReturnedOk(s, delay, s.returned[i]))
  }

  /** Versions are only added, no earlier than everything recorded so far, and time moves on. */
  ghost predicate MovesOn(s: State, u: State) {
    && s.now <= u.now && |s.versions| <= |u.versions|
    && (forall i :: 0 <= i < |s.versions| ==> u.versions[i] == s.versions[i])
    && (forall i :: |s.versions| <= i < |u.versions| ==> s.now <= u.versions[i].since <= u.now)
  }

  lemma SnapshotKept(s: State, u: State, values: Values, version: nat, at: int)
    requires MovesOn(s, u) && Snapshot(s, values, version, at)
    ensures Snapshot(u, values, version, at)
  {
  }

  lemma ReturnedKeptOk(s: State, u: State, delay: nat, r: Returned)
    requires MovesOn(s, u) && ReturnedOk(s, delay, r)
    ensures ReturnedOk(u, delay, r)
  {
    SnapshotKept(s, u, r.values, r.version, r.queriedAt);
  }

  /** A step that caches nothing new and hands out nothing, and whose new loads are in order. */
  lemma InvQuiet(s: State, u: State, delay: nat)
    requires Inv(s, delay) && MovesOn(s, u) && u.returned == s.returned
    requires forall l :: l in u.loads ==> (l in s.loads && u.loads[l] == s.loads[l]) || LoadOk(u, u.loads[l])
    requires u.cache.Some? ==> u.cache == s.cache
    ensures Inv(u, delay)
  {
    forall l | l in u.loads ensures LoadOk(u, u.loads[l]) {
      if l in s.loads && u.loads[l] == s.loads[l] {
        assert LoadOk(s, s.loads[l]);
        SnapshotKept(s, u, s.loads[l].values, s.loads[l].version, s.loads[l].queriedAt);
      }
    }
    if u.cache.Some? {
      SnapshotKept(s, u, u.cache.value.values, u.cache.value.version, u.cache.value.queriedAt);
    }
    forall i | 0 <= i < |u.returned| ensures ReturnedOk(u, delay, u.returned[i]) {
      ReturnedKeptOk(s, u, delay, s.returned[i]);
    }
  }

  lemma InvStore(s: State, delay: nat, l: nat)
    requires Inv(s, delay) && Enabled(s, delay, Store(l))
    ensures Inv(Exec(s, Store(l)), delay)
  {
    var u, d := Exec(s, Store(l)), s.loads[l];
    assert LoadOk(s, d);
    SnapshotKept(s, u, d.values, d.version, d.queriedAt);
    forall i | 0 <= i < |u.returned| ensures ReturnedOk(u, delay, u.returned[i]) {
      if i < |s.returned| {
        ReturnedKeptOk(s, u, delay, s.returned[i]);
      }
    }
  }

  lemma InvHit(s: State, delay: nat)
    requires Inv(s, delay) && Enabled(s, delay, Hit)
    ensures Inv(Exec(s, Hit), delay)
  {
    var u, c := Exec(s, Hit), s.cache.value;
    SnapshotKept(s, u, c.values, c.version, c.queriedAt);
    forall i | 0 <= i < |u.returned| ensures ReturnedOk(u, delay, u.returned[i]) {
      if i < |s.returned| {
        ReturnedKeptOk(s, u, delay, s.returned[i]);
      }
    }
  }

  lemma InvQuery(s: State, delay: nat, l: nat)
    requires Inv(s, delay) && Enabled(s, delay, Query(l))
    ensures Inv(Exec(s, Query(l)), delay)
  {
    var u, v := Exec(s, Query(l)), |s.versions| - 1;
    SnapshotKept(s, u, Effective(s.versions[v].table), v, s.now);
    InvQuiet(s, u, delay);
  }

  lemma InvStep(s: State, delay: nat, step: Step)
    requires Inv(s, delay) && Enabled(s, delay, step)
    ensures Inv(Exec(s, step), delay)
  {
    match step
    case Store(l) => InvStore(s, delay, l);
    case Hit => InvHit(s, delay);
    case Query(l) => InvQuery(s, delay, l);
    case _ => InvQuiet(s, Exec(s, step), delay);
  }

  ghost predicate IsRun(s: State, delay: nat, steps: seq<Step>)
    decreases |steps|
  {
    steps == [] || (Enabled(s, delay, steps[0]) && IsRun(Exec(s, steps[0]), delay, steps[1..]))
  }

  ghost function Final(s: State, delay: nat, steps: seq<Step>): State
    requires IsRun(s, delay, steps)
    decreases |steps|
  {
    if steps == [] then s else Final(Exec(s, steps[0]), delay, steps[1..])
  }

  lemma {:induction false} InvRun(s: State, delay: nat, steps: seq<Step>)
    requires Inv(s, delay) && IsRun(s, delay, steps)
    ensures Inv(Final(s, delay, steps), delay)
    decreases |steps|
  {
    if steps != [] {
      InvStep(s, delay, steps[0]);
      InvRun(Exec(s, steps[0]), delay, steps[1..]);
    }
  }

  ghost predicate Initial(s: State) {
    s.cache == None && s.loads == map[] && s.returned == [] && |s.versions| == 1 && s.versions[0].since <= s.now
  }

  /**
   * In every run, each map handed out at a time t has exactly the default keys and is the policy of a table
   * that was committed and current at some time later than t - CACHE_TTL - delay.
   */
  lemma StalenessIsBounded(s: State, delay: nat, steps: seq<Step>, i: nat)
    requires Initial(s) && IsRun(s, delay, steps) && i < |Final(s, delay, steps).returned|
    ensures var u := Final(s, delay, steps);
            var r := u.returned[i];
            && Snapshot(u, r.values, r.version, r.queriedAt) && r.values.Keys == DEFAULTS.Keys
            && r.at - CACHE_TTL - delay < r.queriedAt <= r.at
  {
    InvRun(s, delay, steps);
    assert ReturnedOk(Final(s, delay, steps), delay, Final(s, delay, steps).returned[i]);
  }

  lemma RunCons(s: State, delay: nat, step: Step, rest: seq<Step>)
    requires Enabled(s, delay, step) && IsRun(Exec(s, step), delay, rest)
    ensures IsRun(s, delay, [step] + rest) && Final(s, delay, [step] + rest) == Final(Exec(s, step), delay, rest)
  {
    assert ([step] + rest)[0] == step && ([step] + rest)[1..] == rest;
  }

  /** The bound is exact: a table overwritten at once can still be handed out after CACHE_TTL + delay - 1. */
  lemma StalenessIsAttained(s: State, delay: nat, table: Table) returns (steps: seq<Step>)
    requires Initial(s)
    ensures IsRun(s, delay, steps)
    ensures var u := Final(s, delay, steps);
            && |u.returned| == 2
            && u.returned[1].values == Effective(s.versions[0].table)
            && u.versions == s.versions + [Version(table, s.now)]
            && u.returned[1].at == s.now + delay + CACHE_TTL - 1
  {
    var a, b, c, d, e := Query(0), Write(table), Tick(delay), Store(0), Tick((CACHE_TTL - 1) as nat);
    var s1 := Exec(s, a);
    var s2 := Exec(s1, b);
    var s3 := Exec(s2, c);
    var s4 := Exec(s3, d);
    var s5 := Exec(s4, e);
    var s6 := Exec(s5, Hit);
    assert IsRun(s6, delay, []) && Final(s6, delay, []) == s6;
    RunCons(s5, delay, Hit, []);
    RunCons(s4, delay, e, [Hit] + []);
    RunCons(s3, delay, d, [e] + ([Hit] + []));
    RunCons(s2, delay, c, [d] + ([e] + ([Hit] + [])));
    RunCons(s1, delay, b, [c] + ([d] + ([e] + ([Hit] + []))));
    steps := [a] + ([b] + ([c] + ([d] + ([e] + ([Hit] + [])))));
    RunCons(s, delay, a, [b] + ([c] + ([d] + ([e] + ([Hit] + [])))));
  }

  // ---------------------------------------------------------------- after an invalidation

  /** No cached or loading answer is older than the version. */
  ghost predicate Current(s: State, version: nat, delay: nat) {
    && version < |s.versions|
    && (s.cache.Some? ==> s.cache.value.version >= version)
    && (forall l :: l in s.loads && s.now - s.loads[l].queriedAt <= delay ==> s.loads[l].version >= version)
  }

  /** Every map handed out from here on is of this version or later. */
  ghost predicate PromptFrom(s: State, delay: nat, version: nat) {
    forall steps, i :: IsRun(s, delay, steps) && |s.returned| <= i < |Final(s, delay, steps).returned| ==>
      Final(s, delay, steps).returned[i].version >= version
  }

  lemma {:induction false} CurrentRun(s: State, delay: nat, version: nat, steps: seq<Step>, i: nat)
    requires Current(s, version, delay) && IsRun(s, delay, steps)
    requires |s.returned| <= i < |Final(s, delay, steps).returned|
    ensures Final(s, delay, steps).returned[i].version >= version
    decreases |steps|
  {
    if steps != [] {
      var u := Exec(s, steps[0]);
      if |u.returned| <= i {
        CurrentRun(u, delay, version, steps[1..], i);
      } else {
        ReturnedKept(u, delay, steps[1..], i);
      }
    }
  }

  lemma {:induction false} ReturnedKept(s: State, delay: nat, steps: seq<Step>, i: nat)
    requires IsRun(s, delay, steps) && i < |s.returned|
    ensures var u := Final(s, delay, steps); i < |u.returned| && u.returned[i] == s.returned[i]
    decreases |steps|
  {
    if steps != [] {
      ReturnedKept(Exec(s, steps[0]), delay, steps[1..], i);
    }
  }

  /**
   * After an invalidation every later read reflects the given write, if and only if no load that can still
   * store its answer queried the table before that write.
   */
  lemma InvalidationIsPromptIff(s: State, delay: nat, version: nat)
    requires version < |s.versions|
    ensures PromptFrom(Exec(s, Invalidate), delay, version) <==>
              forall l :: l in s.loads && s.now - s.loads[l].queriedAt <= delay ==> s.loads[l].version >= version
  {
    var e := Exec(s, Invalidate);
    if Current(e, version, delay) {
      forall steps, i | IsRun(e, delay, steps) && |e.returned| <= i < |Final(e, delay, steps).returned|
        ensures Final(e, delay, steps).returned[i].version >= version
      {
        CurrentRun(e, delay, version, steps, i);
      }
    } else {
      var l :| l in e.loads && e.now - e.loads[l].queriedAt <= delay && e.loads[l].version < version;
      var u := Exec(e, Store(l));
      assert IsRun(u, delay, []) && Final(u, delay, []) == u;
      RunCons(e, delay, Store(l), []);
      assert Final(e, delay, [Store(l)] + []).returned[|e.returned|].version < version;
    }
  }
}
