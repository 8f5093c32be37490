/** Enrolled second factors of one plane, and why the last one cannot be lost (internal/auth/mfa.go, DeleteMFA). */
module Factors {
  import opened Arith
  import opened Wrappers

  datatype Factor = Factor(subject: nat, verifiedAt: Option<int>, revokedAt: Option<int>, isPrimary: bool)

  type Rows = map<nat, Factor>

  predicate Usable(f: Factor, subject: nat) { f.subject == subject && f.revokedAt.None? && f.verifiedAt.Some? }

  /** The factors that count as protection: verified and not revoked. */
  function Live(rows: Rows, subject: nat): set<nat> { set id | id in rows && Usable(rows[id], subject) }

  predicate Addresses(rows: Rows, subject: nat, id: nat) {
    id in rows && rows[id].subject == subject && rows[id].revokedAt.None?
  }

  function VerifiedRow(rows: Rows, subject: nat, id: nat, now: int): Factor
    requires id in rows
  {
    rows[id].(verifiedAt := Some(now), isPrimary := Live(rows, subject) - {id} == {})
  }

  function RevokedRow(row: Factor, now: int): Factor { row.(revokedAt := Some(now), isPrimary := false) }

  /** A completed enrolment; the only live factor of its owner becomes primary. */
  function Verify(rows: Rows, subject: nat, id: nat, now: int): Rows {
    if Addresses(rows, subject, id) then rows[id := VerifiedRow(rows, subject, id, now)] else rows
  }

  function Revoke(rows: Rows, subject: nat, id: nat, now: int): Rows {
    if Addresses(rows, subject, id) then rows[id := RevokedRow(rows[id], now)] else rows
  }

  function RevokeAll(rows: Rows, subject: nat, now: int): Rows {
    map id | id in rows ::
      if rows[id].subject == subject && rows[id].revokedAt.None? then RevokedRow(rows[id], now) else rows[id]
  }

  datatype DeleteError = LastMethod | DatabaseError

  class FactorTable {
    var rows: Rows
    var nextId: nat

    ghost predicate Valid()
      reads this
    {
      forall id :: id in rows ==> id < nextId
    }

    constructor ()
      ensures Valid() && rows == map[]
    {
      rows := map[];
      nextId := 0;
    }

    method CreateMFAMethod(subject: nat) returns (id: nat)
      requires Valid()
      modifies this
      ensures Valid() && id !in old(rows) && rows == old(rows)[id := Factor(subject, None, None, false)]
      ensures forall s :: Live(rows, s) == Live(old(rows), s)
    {
      id := nextId;
      rows := rows[id := Factor(subject, None, None, false)];
      nextId := nextId + 1;
    }

    method VerifyMFAMethod(subject: nat, id: nat, now: int)
      requires Valid()
      modifies this`rows
      ensures Valid() && rows == Verify(old(rows), subject, id, now)
      ensures rows.Keys == old(rows).Keys && forall i :: i in rows ==>
                rows[i] == if i == id && old(rows)[i].subject == subject && old(rows)[i].revokedAt.None?
                           then Factor(subject, Some(now), None, forall j :: j in old(rows) && j != id ==>
                                         !(old(rows)[j].subject == subject && old(rows)[j].revokedAt.None?
                                           && old(rows)[j].verifiedAt.Some?))
                           else old(rows)[i]
    {
      if id in rows && rows[id].subject == subject && rows[id].revokedAt.None? {
        var others := set i | i in rows && i != id && Usable(rows[i], subject);
        assert others == Live(rows, subject) - {id};
        assert others == {} <==> forall j :: j in rows && j != id ==> j !in others;
        rows := rows[id := rows[id].(verifiedAt := Some(now), isPrimary := others == {})];
      }
    }

    method RevokeMFAMethod(subject: nat, id: nat, now: int)
      requires Valid()
      modifies this`rows
      ensures Valid() && rows == Revoke(old(rows), subject, id, now)
      ensures rows.Keys == old(rows).Keys && forall i :: i in rows ==>
                rows[i] == if i == id && old(rows)[i].subject == subject && old(rows)[i].revokedAt.None?
                           then old(rows)[i].(revokedAt := Some(now), isPrimary := false) else old(rows)[i]
    {
      if id in rows && rows[id].subject == subject && rows[id].revokedAt.None? {
        rows := rows[id := rows[id].(revokedAt := Some(now), isPrimary := false)];
      }
    }

    /** The administrator's reset: every factor of the account that is not revoked yet. */
    method RevokeAllMFAMethods(subject: nat, now: int)
      requires Valid()
      modifies this`rows
      ensures Valid() && rows == RevokeAll(old(rows), subject, now) && Live(rows, subject) == {}
      ensures rows.Keys == old(rows).Keys && forall i :: i in rows ==>
                rows[i] == if old(rows)[i].subject == subject && old(rows)[i].revokedAt.None?
                           then old(rows)[i].(revokedAt := Some(now), isPrimary := false) else old(rows)[i]
    {
      rows := map i | i in rows ::
        if rows[i].subject == subject && rows[i].revokedAt.None? then rows[i].(revokedAt := Some(now), isPrimary := false)
        else rows[i];
    }

    method CountVerifiedMFAMethods(subject: nat) returns (count: nat)
      ensures count == |Live(rows, subject)|
      ensures forall i :: i in Live(rows, subject) <==>
                i in rows && rows[i].subject == subject && rows[i].verifiedAt.Some? && rows[i].revokedAt.None?
    {
      var usable := set id | id in rows && Usable(rows[id], subject);
      assert usable == Live(rows, subject);
      count := |usable|;
    }

    /** The whole deletion transaction without interruption; a fault at any of its statements rolls it back. */
    method DeleteMFA(subject: nat, id: nat, policyRequires: bool, now: int, fault: nat) returns (r: Result<(), DeleteError>)
      requires Valid()
      modifies this`rows
      ensures Valid()
      ensures r.Err? ==> rows == old(rows)
      ensures r.Ok? ==> rows == Revoke(old(rows), subject, id, now)
      ensures r.Ok? ==> !policyRequires || |Live(old(rows), subject)| > 1
      ensures fault >= 5 ==> (r.Err? <==> policyRequires && |Live(old(rows), subject)| <= 1)
      ensures policyRequires && Live(old(rows), subject) != {} ==> Live(rows, subject) != {}
    {
      var saved := rows;
      if fault <= 1 {
        return Err(DatabaseError);
      }
      var count := CountVerifiedMFAMethods(subject);
      if policyRequires && count <= 1 {
        return Err(LastMethod);
      }
      if fault == 2 {
        return Err(DatabaseError);
      }
      RevokeMFAMethod(subject, id, now);
      RevokeTakesAtMostOne(saved, subject, id, now);
      if fault == 3 || fault == 4 {
        rows := saved;
        return Err(DatabaseError);
      }
      return Ok(());
    }
  }

  lemma RevokeTakesAtMostOne(rows: Rows, subject: nat, id: nat, now: int)
    ensures Live(Revoke(rows, subject, id, now), subject)
         == Live(rows, subject) - (if Addresses(rows, subject, id) then {id} else {})
    ensures forall other :: other != subject ==> Live(Revoke(rows, subject, id, now), other) == Live(rows, other)
    ensures |Live(Revoke(rows, subject, id, now), subject)| >= |Live(rows, subject)| - 1
  {
    var after := Live(Revoke(rows, subject, id, now), subject);
    assert after == Live(rows, subject) - (if Addresses(rows, subject, id) then {id} else {});
    assert Live(rows, subject) <= after + {id};
    SubsetSize(Live(rows, subject), after + {id});
  }

  // ---------------------------------------------------------------- the primary flag, over serial transactions

  ghost predicate AtMostOnePrimary(rows: Rows, subject: nat) {
    forall i, j :: i in Live(rows, subject) && j in Live(rows, subject) && rows[i].isPrimary && rows[j].isPrimary ==> i == j
  }

  ghost predicate HasPrimary(rows: Rows, subject: nat) {
    exists i :: i in Live(rows, subject) && rows[i].isPrimary
  }

  /** One serial transaction, with the time it ran at where it writes one. */
  datatype Op =
    | Create(owner: nat, id: nat)
    | VerifyOp(owner: nat, id: nat, at: int)
    | RevokeOp(owner: nat, id: nat, at: int)
    | RevokeAllOp(owner: nat, at: int)

  function Apply(rows: Rows, op: Op): Rows {
    match op
    case Create(owner, id) => if id in rows then rows else rows[id := Factor(owner, None, None, false)]
    case VerifyOp(owner, id, at) => Verify(rows, owner, id, at)
    case RevokeOp(owner, id, at) => Revoke(rows, owner, id, at)
    case RevokeAllOp(owner, at) => RevokeAll(rows, owner, at)
  }

  function ApplyAll(rows: Rows, ops: seq<Op>): Rows {
    if ops == [] then rows else Apply(ApplyAll(rows, ops[..|ops| - 1]), ops[|ops| - 1])
  }

  /** Verification touches one row; that row becomes primary exactly when no other factor of its owner is live. */
  lemma VerifyMakesPrimary(rows: Rows, subject: nat, id: nat, now: int)
    ensures var v := Verify(rows, subject, id, now);
            && (forall i :: i in rows && i != id ==> i in v && v[i] == rows[i])
            && (Addresses(rows, subject, id) ==>
                  && Live(v, subject) == Live(rows, subject) + {id}
                  && (v[id].isPrimary <==> forall i :: i in Live(rows, subject) ==> i == id))
  {
    var v := Verify(rows, subject, id, now);
    if Addresses(rows, subject, id) {
      assert Live(v, subject) == Live(rows, subject) + {id};
      if i :| i in Live(rows, subject) && i != id {
        assert i in Live(rows, subject) - {id};
      }
    }
  }

  lemma OnePrimaryStep(rows: Rows, op: Op, subject: nat)
    requires AtMostOnePrimary(rows, subject)
    ensures AtMostOnePrimary(Apply(rows, op), subject)
  {
    var u := Apply(rows, op);
    match op
    case Create(owner, id) => assert Live(u, subject) == Live(rows, subject);
    case VerifyOp(owner, id, at) =>
      VerifyMakesPrimary(rows, owner, id, at);
      if owner != subject {
        assert Live(u, subject) == Live(rows, subject);
      }
    case RevokeOp(owner, id, _) => assert forall i :: i in Live(u, subject) ==> i in Live(rows, subject) && u[i] == rows[i];
    case RevokeAllOp(owner, _) => assert forall i :: i in Live(u, subject) ==> i in Live(rows, subject) && u[i] == rows[i];
  }

  /** Over every serial history a subject has at most one primary among its live factors. */
  lemma {:induction false} AtMostOnePrimaryAlways(ops: seq<Op>, subject: nat)
    ensures AtMostOnePrimary(ApplyAll(map[], ops), subject)
  {
    if ops != [] {
      AtMostOnePrimaryAlways(ops[..|ops| - 1], subject);
      OnePrimaryStep(ApplyAll(map[], ops[..|ops| - 1]), ops[|ops| - 1], subject);
    }
  }

  /**
   * "Always exactly one" is too strong. A live primary exists after an enrolment exactly when no other factor
   * is live or another live one is primary, and after a revocation exactly when a live primary other than the
   * revoked factor existed.
   */
  lemma WhenAPrimaryExists(rows: Rows, subject: nat, id: nat, now: int)
    requires Addresses(rows, subject, id)
    ensures HasPrimary(Verify(rows, subject, id, now), subject) <==>
            Live(rows, subject) - {id} == {} || exists i :: i in Live(rows, subject) && i != id && rows[i].isPrimary
    ensures HasPrimary(Revoke(rows, subject, id, now), subject) <==>
            exists i :: i in Live(rows, subject) && i != id && rows[i].isPrimary
  {
    var v, r := Verify(rows, subject, id, now), Revoke(rows, subject, id, now);
    VerifyMakesPrimary(rows, subject, id, now);
    RevokeTakesAtMostOne(rows, subject, id, now);
    if Live(rows, subject) - {id} == {} {
      assert forall i :: i in Live(rows, subject) && i != id ==> i in Live(rows, subject) - {id};
      assert id in Live(v, subject) && v[id].isPrimary;
    }
    if i :| i in Live(rows, subject) && i != id && rows[i].isPrimary {
      assert i in Live(v, subject) && v[i].isPrimary && i in Live(r, subject) && r[i].isPrimary;
    }
  }

  lemma OneMoreOp(ops: seq<Op>, op: Op)
    ensures ApplyAll(map[], ops + [op]) == Apply(ApplyAll(map[], ops), op)
  {
    assert (ops + [op])[..|ops|] == ops;
  }

  /** Creating and verifying one more factor, after any history. */
  lemma CreateAndVerify(ops: seq<Op>, id: nat, now: int)
    requires id !in ApplyAll(map[], ops)
    ensures var rows := ApplyAll(map[], ops);
            ApplyAll(map[], ops + [Create(0, id), VerifyOp(0, id, now)])
              == rows[id := Factor(0, Some(now), None, Live(rows, 0) == {})]
  {
    var rows := ApplyAll(map[], ops);
    OneMoreOp(ops, Create(0, id));
    OneMoreOp(ops + [Create(0, id)], VerifyOp(0, id, now));
    assert ops + [Create(0, id)] + [VerifyOp(0, id, now)] == ops + [Create(0, id), VerifyOp(0, id, now)];
    assert Live(rows[id := Factor(0, None, None, false)], 0) - {id} == Live(rows, 0);
  }

  /** Two factors created, verified one after the other, and the first revoked: one is live and none is primary. */
  lemma RevocationCanLeaveNoPrimary(now: int)
    ensures var ops := [Create(0, 1), VerifyOp(0, 1, now), Create(0, 2), VerifyOp(0, 2, now)];
            var both, after := ApplyAll(map[], ops), ApplyAll(map[], ops + [RevokeOp(0, 1, now)]);
            && Live(both, 0) == {1, 2} && HasPrimary(both, 0)
            && Live(after, 0) == {2} && !HasPrimary(after, 0)
  {
    var ops := [Create(0, 1), VerifyOp(0, 1, now), Create(0, 2), VerifyOp(0, 2, now)];
    var both := map[1 := Factor(0, Some(now), None, true), 2 := Factor(0, Some(now), None, false)];
    CreateAndVerify([], 1, now);
    CreateAndVerify([] + [Create(0, 1), VerifyOp(0, 1, now)], 2, now);
    assert ops == [] + [Create(0, 1), VerifyOp(0, 1, now)] + [Create(0, 2), VerifyOp(0, 2, now)];
    assert Live(map[], 0) == {} && 1 in Live(map[1 := Factor(0, Some(now), None, true)], 0);
    assert ApplyAll(map[], ops) == both;
    OneMoreOp(ops, RevokeOp(0, 1, now));
    assert 1 in Live(both, 0) && both[1].isPrimary;
  }
}
